/** One stored tree node: its shape rule and its canonical byte layout. */
module TreeNode {
  import opened Prelude
  import opened Uuid

  const HASH_BYTES: nat := 32
  const HEADER_BYTES: nat := 22
  const HEADER: Bytes := Latin1("AOWIS-MERKLE-RADIX-V1\0")

  function Latin1(text: string): (bytes: Bytes)
    ensures |bytes| == |text|
  {
    seq(|text|, i requires 0 <= i < |text| => (text[i] as int) % 256)
  }

  type ChildArray = c: seq<Bytes> | |c| == BRANCHES witness seq(BRANCHES, _ => [])

  /** An empty byte string among the children means "no subtree on this edge". */
  datatype Node = Node(prefix: Bytes, value: Option<Bytes>, children: ChildArray)

  const NO_CHILDREN: ChildArray := seq(BRANCHES, _ => [])
  const EMPTY_NODE: Node := Node([], None, NO_CHILDREN)

  function Present(children: seq<Bytes>): (flags: seq<bool>)
    ensures |flags| == |children|
  {
    seq(|children|, i requires 0 <= i < |children| => children[i] != [])
  }

  /** The shape rule, in terms of which edges are occupied. */
  predicate Shape(prefix: Bytes, value: Option<Bytes>, flags: seq<bool>, depth: nat) {
    && depth + |prefix| <= KEY_NIBBLES
    && AllNibbles(prefix)
    && if depth + |prefix| == KEY_NIBBLES then
         value.Some? && |value.value| == HASH_BYTES && Count(flags) == 0
       else
         value.None? && (Count(flags) >= 2 || (depth == 0 && prefix == [] && Count(flags) == 0))
  }

  predicate ValidShape(n: Node, depth: nat) {
    && (forall e | 0 <= e < BRANCHES :: n.children[e] == [] || |n.children[e]| == HASH_BYTES)
    && Shape(n.prefix, n.value, Present(n.children), depth)
  }

  // ---------------------------------------------------------------- layout

  function Pack(prefix: Bytes): (packed: Bytes)
    requires AllNibbles(prefix)
    ensures |packed| == (|prefix| + 1) / 2
  {
    if |prefix| == 0 then []
    else if |prefix| == 1 then [prefix[0] * 16]
    else [prefix[0] * 16 + prefix[1]] + Pack(prefix[2..])
  }

  /** The child bitmap as a number: bit i is flag i. */
  function Mask(flags: seq<bool>): nat {
    if flags == [] then 0 else (if flags[0] then 1 else 0) + 2 * Mask(flags[1..])
  }

  function Pow2(n: nat): nat {
    if n == 0 then 1 else 2 * Pow2(n - 1)
  }

  function Concat(parts: seq<Bytes>): Bytes {
    if parts == [] then [] else parts[0] + Concat(parts[1..])
  }

  function EncodeValue(value: Option<Bytes>): Bytes {
    if value.None? then [0] else [1] + value.value
  }

  function EncodeMask(flags: seq<bool>): Bytes
    requires |flags| == BRANCHES
  {
    MaskBound(flags);
    SixteenBits();
    [Mask(flags) / 256, Mask(flags) % 256]
  }

  /** The canonical representation of a node. */
  function Encode(n: Node): Bytes
    requires |n.prefix| <= KEY_NIBBLES && AllNibbles(n.prefix)
  {
    HEADER + [|n.prefix|] + Pack(n.prefix) + EncodeValue(n.value)
    + EncodeMask(Present(n.children)) + Concat(n.children)
  }

  /** `bytes` is the one canonical encoding of `n`, a well-shaped node at `depth`. */
  predicate Encodes(bytes: Bytes, n: Node, depth: nat) {
    ValidShape(n, depth) && Encode(n) == bytes
  }

  lemma SixteenBits()
    ensures Pow2(16) == 65536
  {
    assert Pow2(4) == 16;
    assert Pow2(8) == 16 * Pow2(4);
    assert Pow2(12) == 16 * Pow2(8);
    assert Pow2(16) == 16 * Pow2(12);
  }

  lemma {:induction false} MaskBound(flags: seq<bool>)
    ensures Mask(flags) < Pow2(|flags|)
  {
    if flags != [] { MaskBound(flags[1..]); }
  }

  lemma {:induction false} MaskAppend(flags: seq<bool>, b: bool)
    ensures Mask(flags + [b]) == Mask(flags) + (if b then Pow2(|flags|) else 0)
  {
    if flags == [] {
      assert (flags + [b])[1..] == [];
    } else {
      assert (flags + [b])[1..] == flags[1..] + [b];
      MaskAppend(flags[1..], b);
    }
  }

  /** Whether bit i of x is set. */
  predicate Bit(x: nat, i: nat) {
    if i == 0 then x % 2 == 1 else Bit(x / 2, i - 1)
  }

  lemma {:induction false} MaskBit(flags: seq<bool>, i: nat)
    requires i < |flags|
    ensures Bit(Mask(flags), i) <==> flags[i]
  {
    if i > 0 { MaskBit(flags[1..], i - 1); }
  }

  lemma {:induction false} MaskInjective(a: seq<bool>, b: seq<bool>)
    requires |a| == |b| && Mask(a) == Mask(b)
    ensures a == b
  {
    forall i | 0 <= i < |a|
      ensures a[i] == b[i]
    {
      MaskBit(a, i);
      MaskBit(b, i);
    }
  }

  /** Every sixteen-bit number is the mask of its bits. */
  lemma {:induction false} MaskOfBits(x: nat, n: nat)
    requires x < Pow2(n)
    ensures Mask(seq(n, i requires 0 <= i < n => Bit(x, i))) == x
  {
    var flags := seq(n, i requires 0 <= i < n => Bit(x, i));
    if n > 0 {
      MaskOfBits(x / 2, n - 1);
      assert flags[1..] == seq(n - 1, i requires 0 <= i < n - 1 => Bit(x / 2, i));
    }
  }

  lemma {:induction false} ConcatAppend(parts: seq<Bytes>, part: Bytes)
    ensures Concat(parts + [part]) == Concat(parts) + part
  {
    if parts == [] {
      assert (parts + [part])[1..] == [];
    } else {
      assert (parts + [part])[1..] == parts[1..] + [part];
      ConcatAppend(parts[1..], part);
    }
  }

  // ------------------------------------------------------------ injectivity

  lemma {:induction false} PackInjective(a: Bytes, b: Bytes)
    requires |a| == |b| && AllNibbles(a) && AllNibbles(b) && Pack(a) == Pack(b)
    ensures a == b
  {
    if |a| == 1 {
      assert Pack(a)[0] == Pack(b)[0];
    } else if |a| >= 2 {
      assert Pack(a)[0] == Pack(b)[0];
      assert Pack(a)[1..] == Pack(b)[1..];
      PackInjective(a[2..], b[2..]);
      assert a == [a[0], a[1]] + a[2..] && b == [b[0], b[1]] + b[2..];
    }
  }

  lemma {:induction false} ConcatInjective(a: seq<Bytes>, b: seq<Bytes>)
    requires |a| == |b| && Concat(a) == Concat(b)
    requires forall i | 0 <= i < |a| :: |a[i]| == |b[i]|
    ensures a == b
  {
    if a != [] {
      assert a[0] == Concat(a)[..|a[0]|] == Concat(b)[..|b[0]|] == b[0];
      assert Concat(a[1..]) == Concat(a)[|a[0]|..] == Concat(b)[|b[0]|..] == Concat(b[1..]);
      ConcatInjective(a[1..], b[1..]);
      assert a == [a[0]] + a[1..] && b == [b[0]] + b[1..];
    }
  }

  /** A payload cut at its field boundaries. */
  datatype Cut = Cut(count: Byte, packed: Bytes, value: Bytes, mask: Bytes, rest: Bytes)
  {
    predicate Valid() {
      && |packed| == (count + 1) / 2
      && |mask| == 2
      && ((|value| == 1 && value[0] == 0) || (|value| == 1 + HASH_BYTES && value[0] == 1))
    }

    function Joined(): Bytes {
      HEADER + ([count] + (packed + (value + (mask + rest))))
    }
  }

  lemma JoinedAt(c: Cut)
    requires c.Valid()
    ensures var bytes, p := c.Joined(), HEADER_BYTES + 1 + |c.packed|;
      && |bytes| == p + |c.value| + 2 + |c.rest|
      && bytes[..HEADER_BYTES] == HEADER && bytes[HEADER_BYTES] == c.count && bytes[p] == c.value[0]
      && bytes[HEADER_BYTES + 1..] == c.packed + (c.value + (c.mask + c.rest))
  {
    assert |HEADER| == HEADER_BYTES;
    assert c.Joined()[HEADER_BYTES..] == [c.count] + (c.packed + (c.value + (c.mask + c.rest)));
    assert c.Joined()[HEADER_BYTES + 1..] == c.packed + (c.value + (c.mask + c.rest));
    assert c.Joined()[HEADER_BYTES + 1..][|c.packed|] == c.value[0];
  }

  /** There is only one way to cut a payload. */
  lemma CutUnique(a: Cut, b: Cut)
    requires a.Valid() && b.Valid() && a.Joined() == b.Joined()
    ensures a == b
  {
    JoinedAt(a);
    JoinedAt(b);
    var ta, tb := a.value + (a.mask + a.rest), b.value + (b.mask + b.rest);
    assert a.packed == (a.packed + ta)[..|a.packed|] && b.packed == (b.packed + tb)[..|a.packed|];
    assert ta == (a.packed + ta)[|a.packed|..] && tb == (b.packed + tb)[|a.packed|..];
    assert a.value == ta[..|a.value|] && b.value == tb[..|a.value|];
    assert a.mask == ta[|a.value|..][..2] && b.mask == tb[|a.value|..][..2];
    assert a.rest == ta[|a.value|..][2..] && b.rest == tb[|a.value|..][2..];
  }

  function CutOf(n: Node): (c: Cut)
    requires |n.prefix| <= KEY_NIBBLES && AllNibbles(n.prefix)
    requires n.value.Some? ==> |n.value.value| == HASH_BYTES
    ensures c.Valid()
  {
    Cut(|n.prefix|, Pack(n.prefix), EncodeValue(n.value), EncodeMask(Present(n.children)), Concat(n.children))
  }

  lemma CutOfJoined(n: Node)
    requires |n.prefix| <= KEY_NIBBLES && AllNibbles(n.prefix)
    requires n.value.Some? ==> |n.value.value| == HASH_BYTES
    ensures CutOf(n).Joined() == Encode(n)
  {}

  /** No two well-shaped nodes share an encoding, whatever their depths. */
  lemma EncodeInjective(a: Node, b: Node, da: nat, db: nat)
    requires ValidShape(a, da) && ValidShape(b, db) && Encode(a) == Encode(b)
    ensures a == b
  {
    CutOfJoined(a);
    CutOfJoined(b);
    CutUnique(CutOf(a), CutOf(b));
    PackInjective(a.prefix, b.prefix);
    ValueInjective(a.value, b.value);
    var fa, fb := Present(a.children), Present(b.children);
    assert EncodeMask(fa)[0] == EncodeMask(fb)[0] && EncodeMask(fa)[1] == EncodeMask(fb)[1];
    MaskInjective(fa, fb);
    forall i | 0 <= i < BRANCHES
      ensures |a.children[i]| == |b.children[i]|
    {
      assert fa[i] == fb[i];
    }
    ConcatInjective(a.children, b.children);
  }

  lemma ValueInjective(a: Option<Bytes>, b: Option<Bytes>)
    requires EncodeValue(a) == EncodeValue(b)
    ensures a == b
  {
    assert EncodeValue(a)[0] == EncodeValue(b)[0];
    if a.Some? {
      assert a.value == EncodeValue(a)[1..] && b.value == EncodeValue(b)[1..];
    }
  }

  /** The node a payload stands for at a depth, if it is a canonical encoding. */
  ghost function Decode(bytes: Bytes, depth: nat): (r: Option<Node>)
    ensures r.Some? ==> Encodes(bytes, r.value, depth)
    ensures r.None? ==> forall n: Node :: !Encodes(bytes, n, depth)
  {
    if exists n: Node :: Encodes(bytes, n, depth) then
      var n: Node :| Encodes(bytes, n, depth);
      Some(n)
    else None
  }

  /** The payload is the encoding of some well-shaped node. */
  ghost predicate WellFormed(payload: Bytes) {
    exists n: Node, depth: nat :: Encodes(payload, n, depth)
  }

  ghost function NodeIn(payload: Bytes): (n: Node)
    requires WellFormed(payload)
    ensures exists depth: nat :: Encodes(payload, n, depth)
  {
    var n: Node :| exists depth: nat :: Encodes(payload, n, depth);
    n
  }

  /** The child digests inside a well-formed payload; they do not depend on the depth it is read at. */
  ghost function ChildrenOf(payload: Bytes): ChildArray
    requires WellFormed(payload)
  {
    NodeIn(payload).children
  }

  lemma ChildrenOfNode(payload: Bytes, n: Node, depth: nat)
    requires Encodes(payload, n, depth)
    ensures WellFormed(payload) && ChildrenOf(payload) == n.children
  {
    var depth': nat :| Encodes(payload, NodeIn(payload), depth');
    EncodeInjective(n, NodeIn(payload), depth, depth');
  }

  lemma DecodeEncode(n: Node, depth: nat)
    requires ValidShape(n, depth)
    ensures Decode(Encode(n), depth) == Some(n)
  {
    assert Encodes(Encode(n), n, depth);
    EncodeInjective(Decode(Encode(n), depth).value, n, depth, depth);
  }
}
