/** Canonical byte frames: raw octets, 64-bit big-endian numbers, and length-prefixed fields, read by moving an offset.
    */
module PortableFrame {
  import opened Prelude
  import opened Uuid
  import M = ModelRecord

  const U64_RANGE: nat := 0x1_0000_0000_0000_0000
  const INT64_MAX: nat := 0x7fff_ffff_ffff_ffff

  type Int64 = n: int | -0x8000_0000_0000_0000 <= n <= 0x7fff_ffff_ffff_ffff

  /** The cast of a signed to an unsigned 64-bit number. */
  function Unsigned(n: Int64): nat {
    n % U64_RANGE
  }

  datatype Item = Raw(octets: Bytes) | Num(n: nat) | Field(octets: Bytes)

  function Code(item: Item): Bytes {
    match item
    case Raw(octets) => octets
    case Num(n) => M.BigEndian(n, 8)
    case Field(octets) => M.BigEndian(|octets|, 8) + octets
  }

  function Flat(items: seq<Item>): Bytes {
    if items == [] then [] else Code(items[0]) + Flat(items[1..])
  }

  /** Numbers and lengths that fit 64 bits. */
  predicate Fits(item: Item) {
    (item.Num? ==> item.n < U64_RANGE) && (item.Field? ==> |item.octets| < U64_RANGE)
  }

  /** Two items that a reader cannot tell apart before reading them. */
  predicate Alike(a: Item, b: Item) {
    (a.Num? <==> b.Num?) && (a.Field? <==> b.Field?) && (a.Raw? && b.Raw? ==> |a.octets| == |b.octets|) && Fits(a)
      && Fits(b)
  }

  predicate AllAlike(a: seq<Item>, b: seq<Item>) {
    |a| == |b| && forall i | 0 <= i < |a| :: Alike(a[i], b[i])
  }

  lemma {:induction false} FlatAppend(a: seq<Item>, b: seq<Item>)
    ensures Flat(a + b) == Flat(a) + Flat(b)
  {
    if a == [] {
      assert a + b == b;
    } else {
      assert (a + b)[1..] == a[1..] + b;
      FlatAppend(a[1..], b);
    }
  }

  lemma FlatOne(item: Item)
    ensures Flat([item]) == Code(item)
  {
    assert [item][1..] == [];
  }

  lemma CodeInjective(a: Item, b: Item, x: Bytes, y: Bytes)
    requires Alike(a, b) && Code(a) + x == Code(b) + y
    ensures a == b && x == y
  {
    hide M.BigEndian, M.Number, M.Pow256;
    var whole := Code(a) + x;
    if a.Num? {
      M.U64Range(a.n);
      M.U64Range(b.n);
      M.NumberOfBigEndian(a.n, 8);
      M.NumberOfBigEndian(b.n, 8);
      assert whole[..8] == Code(a) == Code(b);
    } else if a.Field? {
      M.U64Range(|a.octets|);
      M.U64Range(|b.octets|);
      M.NumberOfBigEndian(|a.octets|, 8);
      M.NumberOfBigEndian(|b.octets|, 8);
      assert whole[..8] == M.BigEndian(|a.octets|, 8) && whole[..8] == M.BigEndian(|b.octets|, 8);
      assert whole[8..8 + |a.octets|] == a.octets && whole[8..8 + |b.octets|] == b.octets;
    } else {
      assert whole[..|a.octets|] == a.octets && whole[..|a.octets|] == b.octets;
    }
    assert whole[|Code(a)|..] == x && whole[|Code(b)|..] == y;
  }

  /** Frames with the same layout are equal only when all their items are. */
  lemma {:induction false} FlatInjective(a: seq<Item>, b: seq<Item>, x: Bytes, y: Bytes)
    requires AllAlike(a, b) && Flat(a) + x == Flat(b) + y
    ensures a == b && x == y
  {
    hide Code, Alike;
    if a == [] {
      assert x == Flat(a) + x == Flat(b) + y == y;
    } else {
      assert Flat(a) + x == Code(a[0]) + (Flat(a[1..]) + x);
      assert Flat(b) + y == Code(b[0]) + (Flat(b[1..]) + y);
      CodeInjective(a[0], b[0], Flat(a[1..]) + x, Flat(b[1..]) + y);
      FlatInjective(a[1..], b[1..], x, y);
      assert a == [a[0]] + a[1..] && b == [b[0]] + b[1..];
    }
  }

  // -------------------------------------------------------------------- cursors

  /** The octets before the offset are those of the items read. */
  ghost predicate Behind(bytes: Bytes, offset: nat, read: seq<Item>) {
    offset <= |bytes| && bytes[..offset] == Flat(read)
  }

  /** The octets from the offset on are those of the items still to read. */
  ghost predicate Ahead(bytes: Bytes, offset: nat, left: seq<Item>) {
    offset <= |bytes| && bytes[offset..] == Flat(left)
  }

  lemma BehindMore(bytes: Bytes, offset: nat, read: seq<Item>, next: nat, item: Item)
    requires Behind(bytes, offset, read) && offset <= next <= |bytes| && bytes[offset..next] == Code(item)
    ensures Behind(bytes, next, read + [item])
  {
    hide Code;
    FlatAppend(read, [item]);
    FlatOne(item);
    assert bytes[..next] == bytes[..offset] + bytes[offset..next];
  }

  lemma AheadFirst(bytes: Bytes, offset: nat, left: seq<Item>)
    requires Ahead(bytes, offset, left) && left != []
    ensures var n := |Code(left[0])|;
            offset + n <= |bytes| && bytes[offset..offset + n] == Code(left[0]) && Ahead(bytes, offset + n, left[1..])
  {
    hide Code;
    var n := |Code(left[0])|;
    assert bytes[offset..][..n] == Code(left[0]) && bytes[offset..][n..] == Flat(left[1..]);
    assert bytes[offset..][..n] == bytes[offset..offset + n] && bytes[offset..][n..] == bytes[offset + n..];
  }

  lemma AheadLength(bytes: Bytes, offset: nat, left: seq<Item>)
    requires Ahead(bytes, offset, left)
    ensures offset + |Flat(left)| == |bytes|
  {
  }

  // -------------------------------------------------------------------- writing

  method AppendU64(out: Bytes, value: nat, ghost items: seq<Item>) returns (r: Bytes)
    requires out == Flat(items)
    ensures r == Flat(items + [Num(value)])
  {
    r := M.AppendU64(out, value);
    FlatAppend(items, [Num(value)]);
    FlatOne(Num(value));
  }

  method AppendField(out: Bytes, data: Bytes, ghost items: seq<Item>) returns (r: Bytes)
    requires out == Flat(items)
    ensures r == Flat(items + [Field(data)])
  {
    hide M.BigEndian;
    r := M.AppendU64(out, |data|);
    r := r + data;
    FlatAppend(items, [Field(data)]);
    FlatOne(Field(data));
  }

  method Append(out: Bytes, data: Bytes, ghost items: seq<Item>) returns (r: Bytes)
    requires out == Flat(items)
    ensures r == Flat(items + [Raw(data)])
  {
    r := out + data;
    FlatAppend(items, [Raw(data)]);
    FlatOne(Raw(data));
  }

  // -------------------------------------------------------------------- reading

  /** Reads raw octets; never past the end, and always when they are there. */
  method ReadBytes(bytes: Bytes, offset: nat, count: nat, ghost read: seq<Item>, ghost left: seq<Item>)
    returns (r: Option<Bytes>, next: nat)
    requires Behind(bytes, offset, read)
    ensures r.Some? ==> |r.value| == count && Behind(bytes, next, read + [Raw(r.value)])
    ensures r.None? ==> next == offset
    ensures Ahead(bytes, offset, left) && left != [] && left[0].Raw? && |left[0].octets| == count ==>
              r == Some(left[0].octets) && Ahead(bytes, next, left[1..])
  {
    hide M.BigEndian, Flat;
    if Ahead(bytes, offset, left) && left != [] {
      AheadFirst(bytes, offset, left);
    }
    if count > |bytes| - offset {
      return None, offset;
    }
    r, next := Some(bytes[offset..offset + count]), offset + count;
    BehindMore(bytes, offset, read, next, Raw(r.value));
  }

  method ReadUuid(bytes: Bytes, offset: nat, ghost read: seq<Item>, ghost left: seq<Item>)
    returns (r: Option<Uuid>, next: nat)
    requires Behind(bytes, offset, read)
    ensures r.Some? ==> Behind(bytes, next, read + [Raw(r.value)])
    ensures r.None? ==> next == offset
    ensures Ahead(bytes, offset, left) && left != [] && left[0].Raw? && |left[0].octets| == 16 ==>
              r == Some(left[0].octets) && Ahead(bytes, next, left[1..])
  {
    hide Behind, Ahead;
    var raw;
    raw, next := ReadBytes(bytes, offset, 16, read, left);
    r := if raw.None? then None else Some(raw.value);
  }

  method ReadU64(bytes: Bytes, offset: nat, ghost read: seq<Item>, ghost left: seq<Item>)
    returns (r: Option<nat>, next: nat)
    requires Behind(bytes, offset, read)
    ensures r.Some? ==> r.value < U64_RANGE && Behind(bytes, next, read + [Num(r.value)])
    ensures r.None? ==> next == offset
    ensures Ahead(bytes, offset, left) && left != [] && left[0].Num? && Fits(left[0]) ==>
              r == Some(left[0].n) && Ahead(bytes, next, left[1..])
  {
    hide M.BigEndian, M.Number, M.Pow256, Flat;
    r, next := M.ReadU64(bytes, offset);
    if r.Some? {
      BehindMore(bytes, offset, read, next, Num(r.value));
    }
    if Ahead(bytes, offset, left) && left != [] && left[0].Num? && Fits(left[0]) {
      AheadFirst(bytes, offset, left);
      M.U64Range(left[0].n);
      M.NumberOfBigEndian(left[0].n, 8);
    }
  }

  /** A length, then that many octets, at most `limit` of them. */
  method ReadField(bytes: Bytes, offset: nat, limit: nat, ghost read: seq<Item>, ghost left: seq<Item>)
    returns (r: Option<Bytes>, next: nat)
    requires Behind(bytes, offset, read)
    ensures r.Some? ==> |r.value| <= limit && Behind(bytes, next, read + [Field(r.value)])
    ensures next <= |bytes|
    ensures Ahead(bytes, offset, left) && left != [] && left[0].Field? && Fits(left[0]) && |left[0].octets| <= limit ==>
              r == Some(left[0].octets) && Ahead(bytes, next, left[1..])
  {
    hide M.BigEndian, M.Number, M.Pow256, Flat;
    if Ahead(bytes, offset, left) && left != [] && left[0].Field? && Fits(left[0]) {
      AheadFirst(bytes, offset, left);
      M.U64Range(|left[0].octets|);
      M.NumberOfBigEndian(|left[0].octets|, 8);
      assert bytes[offset..offset + 8] == Code(left[0])[..8];
      assert bytes[offset + 8..offset + 8 + |left[0].octets|] == Code(left[0])[8..];
    }
    var length;
    length, next := M.ReadU64(bytes, offset);
    if length.None? || length.value > limit || length.value > |bytes| - next {
      return None, next;
    }
    r := Some(bytes[next..next + length.value]);
    next := next + length.value;
    assert bytes[offset..next] == bytes[offset..offset + 8] + r.value;
    BehindMore(bytes, offset, read, next, Field(r.value));
  }
}
