/** The byte codec of tree nodes, as loops over growing buffers. */
module NodeCodec {
  import opened Prelude
  import opened Uuid
  import opened TreeNode

  method ChildrenCount(n: Node) returns (count: nat)
    ensures count == Count(Present(n.children))
  {
    count := 0;
    var flags := Present(n.children);
    for i := 0 to BRANCHES
      invariant count == Count(flags[..i])
    {
      CountAppend(flags[..i], flags[i]);
      assert flags[..i + 1] == flags[..i] + [flags[i]];
      if n.children[i] != [] {
        count := count + 1;
      }
    }
    assert flags[..BRANCHES] == flags;
  }

  /** The first occupied edge, or -1. */
  method SingleChildIndex(n: Node) returns (edge: int)
    ensures -1 <= edge < BRANCHES
    ensures edge >= 0 ==> n.children[edge] != []
    ensures forall i | 0 <= i < (if edge >= 0 then edge else BRANCHES) :: n.children[i] == []
  {
    for i := 0 to BRANCHES
      invariant forall j | 0 <= j < i :: n.children[j] == []
    {
      if n.children[i] != [] {
        return i;
      }
    }
    return -1;
  }

  /** The prefix loop of the encoder: two nibbles to a byte, zero padding. */
  method PackPrefix(prefix: Bytes) returns (packed: Bytes)
    requires AllNibbles(prefix)
    ensures packed == Pack(prefix)
  {
    packed := [];
    var i := 0;
    while i < |prefix|
      invariant 0 <= i <= |prefix| + 1 && i % 2 == 0 && |packed| == i / 2
      invariant forall j | 0 <= j < |packed| :: packed[j] == Pack(prefix)[j]
    {
      PackAt(prefix, i / 2);
      var lo := if i + 1 < |prefix| then prefix[i + 1] else 0;
      packed := packed + [prefix[i] * 16 + lo];
      i := i + 2;
    }
  }

  /** The bitmap loop of the encoder. */
  method ChildBitmap(n: Node) returns (mask: nat)
    ensures mask == Mask(Present(n.children)) && mask < 65536
  {
    mask := 0;
    ghost var flags := Present(n.children);
    for e := 0 to BRANCHES
      invariant mask == Mask(flags[..e])
    {
      MaskAppend(flags[..e], flags[e]);
      assert flags[..e + 1] == flags[..e] + [flags[e]];
      if n.children[e] != [] {
        mask := mask + Pow2(e);
      }
    }
    assert flags[..BRANCHES] == flags;
    MaskBound(flags);
    SixteenBits();
  }

  method EncodeNode(n: Node) returns (bytes: Bytes)
    requires |n.prefix| <= KEY_NIBBLES && AllNibbles(n.prefix)
    ensures bytes == Encode(n)
  {
    bytes := HEADER;
    bytes := bytes + [|n.prefix|];
    var packed := PackPrefix(n.prefix);
    bytes := bytes + packed;
    bytes := bytes + [if n.value.Some? then 1 else 0];
    if n.value.Some? {
      bytes := bytes + n.value.value;
    }
    assert bytes == HEADER + [|n.prefix|] + Pack(n.prefix) + EncodeValue(n.value);
    var mask := ChildBitmap(n);
    bytes := bytes + [mask / 256];
    bytes := bytes + [mask % 256];
    ghost var head := HEADER + [|n.prefix|] + Pack(n.prefix) + EncodeValue(n.value) + EncodeMask(Present(n.children));
    assert bytes == head;
    for e := 0 to BRANCHES
      invariant bytes == head + Concat(n.children[..e])
    {
      ConcatAppend(n.children[..e], n.children[e]);
      assert n.children[..e + 1] == n.children[..e] + [n.children[e]];
      if n.children[e] != [] {
        bytes := bytes + n.children[e];
      }
    }
    assert n.children[..BRANCHES] == n.children;
  }

  /** The prefix loop of the decoder; padding other than zero is refused. */
  method UnpackPrefix(packed: Bytes, nibbleCount: nat) returns (r: Option<Bytes>)
    requires |packed| == (nibbleCount + 1) / 2
    ensures r.Some? ==> |r.value| == nibbleCount && AllNibbles(r.value) && Pack(r.value) == packed
    ensures r.None? ==> forall p: Bytes | |p| == nibbleCount && AllNibbles(p) :: Pack(p) != packed
  {
    var prefix: Bytes := [];
    for i := 0 to |packed|
      invariant |prefix| == (if 2 * i <= nibbleCount then 2 * i else nibbleCount)
      invariant AllNibbles(prefix)
      invariant Pack(prefix) == packed[..i]
    {
      var byte := packed[i];
      var more: Bytes := [byte / 16];
      if |prefix| + 1 < nibbleCount {
        more := more + [byte % 16];
      } else if byte % 16 != 0 {
        BadPadding(packed, nibbleCount, i);
        return None;
      }
      PackExtend(prefix, more);
      prefix := prefix + more;
      assert packed[..i + 1] == packed[..i] + [byte];
    }
    return Some(prefix);
  }

  lemma BadPadding(packed: Bytes, nibbleCount: nat, i: nat)
    requires |packed| == (nibbleCount + 1) / 2 && i < |packed| && 2 * i + 1 == nibbleCount && packed[i] % 16 != 0
    ensures forall p: Bytes | |p| == nibbleCount && AllNibbles(p) :: Pack(p) != packed
  {
    forall p: Bytes | |p| == nibbleCount && AllNibbles(p)
      ensures Pack(p) != packed
    {
      PackAt(p, i);
    }
  }

  function BitmapFlags(bitmap: nat): (flags: seq<bool>)
    ensures |flags| == BRANCHES
  {
    seq(BRANCHES, i requires 0 <= i < BRANCHES => Bit(bitmap, i))
  }

  /** Child slots that a bitmap allows: a digest on each set bit, nothing elsewhere. */
  predicate Fits(children: seq<Bytes>, flags: seq<bool>)
    requires |flags| == BRANCHES
  {
    |children| == BRANCHES && forall j | 0 <= j < BRANCHES :: |children[j]| == (if flags[j] then HASH_BYTES else 0)
  }

  /** The child loop of the decoder. */
  method ReadChildren(bytes: Bytes, bitmap: nat) returns (r: Option<ChildArray>, consumed: nat)
    ensures r.Some? ==> Fits(r.value, BitmapFlags(bitmap))
    ensures r.Some? ==> consumed <= |bytes| && Concat(r.value) == bytes[..consumed]
    ensures r.None? ==> forall c: ChildArray | Fits(c, BitmapFlags(bitmap)) :: Concat(c) != bytes
  {
    ghost var flags := BitmapFlags(bitmap);
    var children := NO_CHILDREN;
    consumed := 0;
    for i := 0 to BRANCHES
      invariant consumed <= |bytes|
      invariant forall j | 0 <= j < i :: |children[j]| == (if flags[j] then HASH_BYTES else 0)
      invariant forall j | i <= j < BRANCHES :: children[j] == []
      invariant Concat(children[..i]) == bytes[..consumed]
    {
      ghost var was, start := children, consumed;
      if Bit(bitmap, i) {
        if |bytes| - consumed < HASH_BYTES {
          forall c: ChildArray | Fits(c, flags)
            ensures Concat(c) != bytes
          {
            ConcatSplit(c, i);
            ConcatLength(c[..i], children[..i]);
          }
          return None, 0;
        }
        children := children[i := bytes[consumed..consumed + HASH_BYTES]];
        consumed := consumed + HASH_BYTES;
      }
      ConcatAppend(was[..i], children[i]);
      assert children[..i + 1] == was[..i] + [children[i]];
      assert bytes[..consumed] == bytes[..start] + bytes[start..consumed];
    }
    assert children[..BRANCHES] == children;
    return Some(children), consumed;
  }

  /** Where the value flag sits, judging by the prefix length byte. */
  function ValueAt(bytes: Bytes): nat
    requires |bytes| > HEADER_BYTES
  {
    var count: nat := bytes[HEADER_BYTES];
    HEADER_BYTES + 1 + (count + 1) / 2
  }

  /** The length and flag tests the decoder makes before it cuts. */
  predicate Cuttable(bytes: Bytes) {
    && |bytes| >= HEADER_BYTES + 4
    && bytes[..HEADER_BYTES] == HEADER
    && var pos := ValueAt(bytes);
    && bytes[HEADER_BYTES] <= KEY_NIBBLES
    && |bytes| >= pos + 3
    && bytes[pos] <= 1
    && |bytes| >= pos + 1 + (if bytes[pos] != 0 then HASH_BYTES else 0) + 2
  }

  lemma JoinedIsCuttable(c: Cut)
    requires c.Valid() && c.count <= KEY_NIBBLES
    ensures Cuttable(c.Joined())
  {
    JoinedAt(c);
  }

  /** Cutting the bytes fails only when no node can have produced them. */
  method CutPayload(bytes: Bytes) returns (r: Option<Cut>)
    ensures r.Some? ==> r.value.Valid() && r.value.count <= KEY_NIBBLES && r.value.Joined() == bytes
    ensures r.None? ==> !Cuttable(bytes)
  {
    if !Cuttable(bytes) {
      return None;
    }
    var pos := ValueAt(bytes);
    var end := pos + 1 + (if bytes[pos] != 0 then HASH_BYTES else 0);
    CutPieces(bytes, pos, end);
    return Some(Cut(bytes[HEADER_BYTES], bytes[HEADER_BYTES + 1..pos], bytes[pos..end], bytes[end..end + 2],
                    bytes[end + 2..]));
  }

  lemma CutPieces(bytes: Bytes, pos: nat, end: nat)
    requires HEADER_BYTES + 1 <= pos <= end && end + 2 <= |bytes| && bytes[..HEADER_BYTES] == HEADER
    ensures Cut(bytes[HEADER_BYTES], bytes[HEADER_BYTES + 1..pos], bytes[pos..end], bytes[end..end + 2],
                bytes[end + 2..]).Joined() == bytes
  {
    var rest := bytes[end + 2..];
    assert bytes[end..] == bytes[end..end + 2] + rest;
    assert bytes[pos..] == bytes[pos..end] + bytes[end..];
    assert bytes[HEADER_BYTES + 1..] == bytes[HEADER_BYTES + 1..pos] + bytes[pos..];
    assert bytes[HEADER_BYTES..] == [bytes[HEADER_BYTES]] + bytes[HEADER_BYTES + 1..];
    assert bytes == bytes[..HEADER_BYTES] + bytes[HEADER_BYTES..];
  }

  function BitmapOf(mask: Bytes): (bitmap: nat)
    requires |mask| == 2
    ensures bitmap < 65536 && mask == [bitmap / 256, bitmap % 256]
  {
    var high: nat, low: nat := mask[0], mask[1];
    high * 256 + low
  }

  /** Exactly the canonical encodings are accepted, and each gives back its node. */
  method DecodeNode(bytes: Bytes, depth: nat) returns (r: Option<Node>)
    ensures r == Decode(bytes, depth)
  {
    ghost var spec := Decode(bytes, depth);
    var cut := CutPayload(bytes);
    if cut.None? {
      if spec.Some? { CutOfJoined(spec.value); JoinedIsCuttable(CutOf(spec.value)); }
      return None;
    }
    var c := cut.value;
    if spec.Some? { SpecCut(spec.value, depth, c); }
    var prefix := UnpackPrefix(c.packed, c.count);
    if prefix.None? {
      return None;
    }
    var value := if c.value[0] != 0 then Some(c.value[1..]) else None;
    var children, consumed := ReadChildren(c.rest, BitmapOf(c.mask));
    if children.None? {
      return None;
    }
    var node := Node(prefix.value, value, children.value);
    if spec.Some? { SameNode(spec.value, node, c, consumed); }
    if consumed != |c.rest| || !ValidShape(node, depth) {
      return None;
    }
    SameFlags(node, BitmapOf(c.mask));
    assert CutOf(node) == c;
    CutOfJoined(node);
    DecodeEncode(node, depth);
    return Some(node);
  }

  /** What the cut of an encoding says about the node it encodes. */
  lemma SpecCut(n: Node, depth: nat, c: Cut)
    requires Encodes(c.Joined(), n, depth) && c.Valid()
    ensures c.count == |n.prefix| && c.packed == Pack(n.prefix) && c.rest == Concat(n.children)
    ensures n.value == if c.value[0] != 0 then Some(c.value[1..]) else None
    ensures Fits(n.children, BitmapFlags(BitmapOf(c.mask)))
  {
    CutOfJoined(n);
    CutUnique(c, CutOf(n));
    SpecFlags(n, BitmapOf(c.mask));
  }

  lemma SameNode(spec: Node, node: Node, c: Cut, consumed: nat)
    requires c.Valid() && consumed <= |c.rest| && AllNibbles(spec.prefix) && AllNibbles(node.prefix)
    requires |spec.prefix| == |node.prefix| && Pack(spec.prefix) == Pack(node.prefix) && spec.value == node.value
    requires Fits(spec.children, BitmapFlags(BitmapOf(c.mask))) && Concat(spec.children) == c.rest
    requires Fits(node.children, BitmapFlags(BitmapOf(c.mask))) && Concat(node.children) == c.rest[..consumed]
    ensures spec == node && consumed == |c.rest|
  {
    ConcatLength(spec.children, node.children);
    assert c.rest[..|c.rest|] == c.rest;
    ConcatInjective(spec.children, node.children);
    PackInjective(spec.prefix, node.prefix);
  }

  lemma SpecFlags(n: Node, bitmap: nat)
    requires forall e | 0 <= e < BRANCHES :: n.children[e] == [] || |n.children[e]| == HASH_BYTES
    requires bitmap < 65536 && EncodeMask(Present(n.children)) == [bitmap / 256, bitmap % 256]
    ensures Fits(n.children, BitmapFlags(bitmap))
  {
    var flags := Present(n.children);
    assert EncodeMask(flags)[0] == bitmap / 256 && EncodeMask(flags)[1] == bitmap % 256;
    SixteenBits();
    MaskOfBits(bitmap, BRANCHES);
    MaskInjective(flags, BitmapFlags(bitmap));
  }

  lemma SameFlags(n: Node, bitmap: nat)
    requires bitmap < 65536 && Fits(n.children, BitmapFlags(bitmap))
    ensures EncodeMask(Present(n.children)) == [bitmap / 256, bitmap % 256]
  {
    SixteenBits();
    MaskOfBits(bitmap, BRANCHES);
    assert Present(n.children) == BitmapFlags(bitmap);
  }

  lemma {:induction false} ConcatLength(a: seq<Bytes>, b: seq<Bytes>)
    requires |a| == |b| && forall i | 0 <= i < |a| :: |a[i]| == |b[i]|
    ensures |Concat(a)| == |Concat(b)|
  {
    if a != [] { ConcatLength(a[1..], b[1..]); }
  }

  lemma {:induction false} PackAt(prefix: Bytes, i: nat)
    requires AllNibbles(prefix) && 2 * i < |prefix|
    ensures Pack(prefix)[i] == prefix[2 * i] * 16 + (if 2 * i + 1 < |prefix| then prefix[2 * i + 1] else 0)
  {
    if i > 0 { PackAt(prefix[2..], i - 1); }
  }

  lemma {:induction false} PackExtend(prefix: Bytes, more: Bytes)
    requires AllNibbles(prefix) && AllNibbles(more) && |prefix| % 2 == 0
    ensures Pack(prefix + more) == Pack(prefix) + Pack(more)
  {
    if prefix == [] {
      assert prefix + more == more;
    } else {
      assert (prefix + more)[2..] == prefix[2..] + more;
      PackExtend(prefix[2..], more);
    }
  }

  lemma {:induction false} ConcatSplit(parts: seq<Bytes>, i: nat)
    requires i < |parts|
    ensures Concat(parts) == Concat(parts[..i]) + parts[i] + Concat(parts[i + 1..])
  {
    if i > 0 {
      ConcatSplit(parts[1..], i - 1);
      assert parts[..i] == [parts[0]] + parts[1..][..i - 1];
      assert parts[i + 1..] == parts[1..][i..];
    }
  }

  /** The child digests of an encoded node, read from its bytes alone. */
  method ChildDigests(payload: Bytes) returns (children: ChildArray)
    requires WellFormed(payload)
    ensures children == ChildrenOf(payload)
  {
    hide Encode, Decode, Concat, Mask, Pack, Bit, Cut.Joined;
    ghost var n := NodeIn(payload);
    ghost var depth: nat :| Encodes(payload, n, depth);
    CutOfJoined(n);
    JoinedIsCuttable(CutOf(n));
    var c := CutPayload(payload);
    SpecCut(n, depth, c.value);
    var r, consumed := ReadChildren(c.value.rest, BitmapOf(c.value.mask));
    children := r.value;
    FullRead(n.children, children, c.value.rest, consumed);
  }

  lemma FullRead(a: ChildArray, b: ChildArray, rest: Bytes, consumed: nat)
    requires consumed <= |rest| && Concat(a) == rest && Concat(b) == rest[..consumed]
    requires forall e | 0 <= e < BRANCHES :: |a[e]| == |b[e]|
    ensures a == b
  {
    ConcatLength(a, b);
    assert rest[..|rest|] == rest;
    ConcatInjective(a, b);
  }
}
