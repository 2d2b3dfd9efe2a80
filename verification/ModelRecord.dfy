/** Model object rows and the canonical record sealed under each UUID key. */
module ModelRecord {
  import opened Prelude
  import opened Uuid

  /** A row without content is a tombstone; the tables tie the two columns together. */
  datatype Row = Row(kind: Bytes, content: Option<Bytes>, version: nat)

  type Rows = map<Uuid, Row>

  /** What readers of a revision see of an object. */
  datatype Live = Live(kind: Bytes, content: Bytes)

  function Seen(row: Option<Row>): Option<Live> {
    if row.None? || row.value.content.None? then None else Some(Live(row.value.kind, row.value.content.value))
  }

  // "AOWIS-MODEL-RECORD-V1" and a zero octet
  const MAGIC: Bytes :=
    [65, 79, 87, 73, 83, 45, 77, 79, 68, 69, 76, 45, 82, 69, 67, 79, 82, 68, 45, 86, 49, 0]

  const MAX_KIND: nat := 128
  const MAX_VERSION: nat := 0x7fff_ffff_ffff_ffff

  predicate KindChar(c: Byte) {
    97 <= c <= 122 || 48 <= c <= 57 || c == 46 || c == 95
  }

  predicate ValidKind(kind: Bytes) {
    1 <= |kind| <= MAX_KIND && forall i | 0 <= i < |kind| :: KindChar(kind[i])
  }

  /** The lowest big-endian octets of a number, least significant last. */
  function BigEndian(n: nat, width: nat): (octets: Bytes)
    ensures |octets| == width
  {
    if width == 0 then [] else BigEndian(n / 256, width - 1) + [n % 256]
  }

  function Number(octets: Bytes): nat {
    if octets == [] then 0 else Number(octets[..|octets| - 1]) * 256 + octets[|octets| - 1]
  }

  function Pow256(width: nat): (p: nat)
    ensures p >= 1
  {
    if width == 0 then 1 else 256 * Pow256(width - 1)
  }

  lemma {:induction false} NumberOfBigEndian(n: nat, width: nat)
    requires n < Pow256(width)
    ensures Number(BigEndian(n, width)) == n
  {
    if width > 0 {
      var octets := BigEndian(n, width);
      assert octets[..width - 1] == BigEndian(n / 256, width - 1);
      NumberOfBigEndian(n / 256, width - 1);
    }
  }

  lemma {:induction false} BigEndianOfNumber(octets: Bytes)
    ensures Number(octets) < Pow256(|octets|) && BigEndian(Number(octets), |octets|) == octets
  {
    if octets != [] {
      var last := |octets| - 1;
      BigEndianOfNumber(octets[..last]);
      assert Number(octets) / 256 == Number(octets[..last]);
      assert octets == octets[..last] + [octets[last]];
    }
  }

  lemma U64Range(n: nat)
    ensures n < Pow256(8) <==> n < 0x1_0000_0000_0000_0000
  {
    assert Pow256(8) == 256 * Pow256(7) == 256 * 256 * Pow256(6) == 256 * 256 * 256 * Pow256(5);
    assert Pow256(5) == 256 * Pow256(4) == 256 * 256 * Pow256(3) == 256 * 256 * 256 * Pow256(2);
  }

  // ------------------------------------------------------------------ encoding

  function Record(row: Row): Bytes {
    Head(row.kind, row.version) + Tail(row.content)
  }

  function Head(kind: Bytes, version: nat): Bytes {
    MAGIC + BigEndian(|kind|, 8) + kind + BigEndian(version, 8)
  }

  function Tail(content: Option<Bytes>): Bytes {
    if content.None? then [1] else [0] + BigEndian(|content.value|, 8) + content.value
  }

  /** The number shifted right by whole octets. */
  function Shifted(value: nat, octets: nat): nat {
    if octets == 0 then value else Shifted(value / 256, octets - 1)
  }

  lemma {:induction false} ShiftStep(value: nat, octets: nat)
    ensures Shifted(value, octets + 1) == Shifted(value, octets) / 256
  {
    if octets > 0 { ShiftStep(value / 256, octets - 1); }
  }

  method AppendU64(out: Bytes, value: nat) returns (r: Bytes)
    ensures r == out + BigEndian(value, 8)
  {
    r := out;
    var shift := 8;
    while shift > 0
      invariant 0 <= shift <= 8
      invariant r == out + BigEndian(Shifted(value, shift), 8 - shift)
    {
      shift := shift - 1;
      ShiftStep(value, shift);
      r := r + [Shifted(value, shift) % 256];
    }
  }

  method EncodeRecord(row: Row) returns (bytes: Bytes)
    ensures bytes == Record(row)
  {
    hide BigEndian;
    bytes := AppendU64(MAGIC, |row.kind|);
    bytes := bytes + row.kind;
    bytes := AppendU64(bytes, row.version);
    bytes := bytes + [if row.content.None? then 1 else 0];
    if row.content.Some? {
      bytes := AppendU64(bytes, |row.content.value|);
      bytes := bytes + row.content.value;
    }
  }

  // ------------------------------------------------------------------ decoding

  /** Rows whose record can be read back: a legal kind, and numbers within 64 bits. */
  predicate Readable(row: Row) {
    ValidKind(row.kind) && 1 <= row.version <= MAX_VERSION
      && (row.content.Some? ==> |row.content.value| < 0x1_0000_0000_0000_0000)
  }

  method ReadU64(bytes: Bytes, offset: nat) returns (r: Option<nat>, offset': nat)
    requires offset <= |bytes|
    ensures r.Some? <==> |bytes| - offset >= 8
    ensures r.Some? ==> offset' == offset + 8 && r.value < 0x1_0000_0000_0000_0000
                        && bytes[offset..offset'] == BigEndian(r.value, 8) && r.value == Number(bytes[offset..offset'])
    ensures r.None? ==> offset' == offset
  {
    if |bytes| - offset < 8 {
      return None, offset;
    }
    var value: nat := 0;
    offset' := offset;
    for i := 0 to 8
      invariant offset' == offset + i
      invariant value == Number(bytes[offset..offset + i])
    {
      assert bytes[offset..offset + i + 1][..i] == bytes[offset..offset + i];
      value := value * 256 + bytes[offset'];
      offset' := offset' + 1;
    }
    BigEndianOfNumber(bytes[offset..offset']);
    U64Range(value);
    r := Some(value);
  }

  /** At most one readable row has this record. */
  lemma RowOf(bytes: Bytes) returns (row: Option<Row>)
    ensures row.Some? ==> Readable(row.value) && Record(row.value) == bytes && Pieces(bytes, row.value)
    ensures forall r | Readable(r) && Record(r) == bytes :: row == Some(r)
  {
    hide Record, Readable, Pieces;
    row := None;
    if it :| Readable(it) && Record(it) == bytes {
      row := Some(it);
      RecordPieces(it);
      forall r | Readable(r) && Record(r) == bytes
        ensures r == it
      {
        RecordInjective(r, it);
      }
    }
  }

  /** The magic, then a length and a legal kind. */
  method DecodeKind(bytes: Bytes) returns (kind: Option<Bytes>, offset: nat)
    ensures kind.Some? ==> ValidKind(kind.value) && offset == |MAGIC| + 8 + |kind.value| <= |bytes|
                           && bytes[..|MAGIC|] == MAGIC && bytes[|MAGIC|..|MAGIC| + 8] == BigEndian(|kind.value|, 8)
                           && bytes[|MAGIC| + 8..offset] == kind.value
    ensures forall row | Readable(row) && Pieces(bytes, row) :: kind == Some(row.kind)
  {
    hide Number, BigEndian;
    kind, offset := None, 0;
    if |bytes| < |MAGIC| + 17 || bytes[..|MAGIC|] != MAGIC {
      return;
    }
    var length;
    length, offset := ReadU64(bytes, |MAGIC|);
    if length.None? || length.value == 0 || length.value > MAX_KIND || length.value > |bytes| - offset {
      return;
    }
    var found := bytes[offset..offset + length.value];
    assert forall row | Readable(row) && Pieces(bytes, row) :: row.kind == found;
    for i := 0 to |found|
      invariant forall j | 0 <= j < i :: KindChar(found[j])
    {
      if !KindChar(found[i]) {
        return;
      }
    }
    kind, offset := Some(found), offset + length.value;
  }

  method DecodeHead(bytes: Bytes) returns (kind: Bytes, version: Option<nat>, offset: nat)
    ensures version.Some? ==> ValidKind(kind) && 1 <= version.value <= MAX_VERSION
                              && offset < |bytes| && bytes[..offset] == Head(kind, version.value)
    ensures forall row | Readable(row) && Record(row) == bytes :: version == Some(row.version)
  {
    hide Record, Number, BigEndian, ValidKind;
    ghost var row := RowOf(bytes);
    kind, version, offset := [], None, 0;
    var read;
    read, offset := DecodeKind(bytes);
    if read.None? {
      return;
    }
    kind := read.value;
    var start := offset;
    var number;
    number, offset := ReadU64(bytes, offset);
    if number.None? || number.value == 0 || number.value > MAX_VERSION || offset == |bytes| {
      return;
    }
    version := number;
    assert bytes[..offset] == bytes[..|MAGIC|] + bytes[|MAGIC|..|MAGIC| + 8] + bytes[|MAGIC| + 8..start]
                              + bytes[start..offset];
  }

  /** Reads back exactly the canonical records of readable rows, and nothing else. */
  method DecodeRecord(bytes: Bytes) returns (r: Option<Row>)
    ensures r.Some? ==> Readable(r.value) && Record(r.value) == bytes
    ensures forall row | Readable(row) && Record(row) == bytes :: r == Some(row)
  {
    hide Number, BigEndian, Head;
    var kind, version, offset := DecodeHead(bytes);
    if version.None? {
      return None;
    }
    ghost var at := offset;
    forall row | Readable(row) && Record(row) == bytes
      ensures bytes[at..] == Tail(row.content) && row.kind == kind
    {
      HeadInjective(kind, row.kind, version.value, bytes, row.content);
    }
    var flag := bytes[offset];
    offset := offset + 1;
    if flag != 0 && flag != 1 {
      return None;
    }
    if flag == 1 {
      if offset != |bytes| {
        return None;
      }
      assert bytes == bytes[..at] + Tail(None);
      return Some(Row(kind, None, version.value));
    }
    forall row | Readable(row) && Record(row) == bytes
      ensures |bytes| >= at + 9 && Number(bytes[at + 1..at + 9]) == |bytes| - at - 9
    {
      TailLength(row.content, bytes[at..]);
      assert bytes[at..][1..9] == bytes[at + 1..at + 9];
    }
    var contentLength;
    contentLength, offset := ReadU64(bytes, offset);
    if contentLength.None? || contentLength.value != |bytes| - offset {
      return None;
    }
    assert bytes == bytes[..at] + Tail(Some(bytes[offset..]));
    r := Some(Row(kind, Some(bytes[offset..]), version.value));
    forall row | Readable(row) && Record(row) == bytes
      ensures r == Some(row)
    {
      RecordInjective(row, r.value);
    }
  }

  lemma HeadInjective(kind: Bytes, kind': Bytes, version: nat, bytes: Bytes, content: Option<Bytes>)
    requires |kind| < 0x1_0000_0000_0000_0000 && |kind'| < 0x1_0000_0000_0000_0000
    requires Head(kind, version) <= bytes && bytes == Head(kind', version) + Tail(content)
    ensures kind == kind' && bytes[|Head(kind, version)|..] == Tail(content)
  {
    hide BigEndian, Tail;
    var a, b := Head(kind, version), Head(kind', version);
    var m := |MAGIC|;
    assert bytes[m..m + 8] == a[m..m + 8] == BigEndian(|kind|, 8);
    assert bytes[m..m + 8] == b[m..m + 8] == BigEndian(|kind'|, 8);
    U64Range(|kind|);
    U64Range(|kind'|);
    NumberOfBigEndian(|kind|, 8);
    NumberOfBigEndian(|kind'|, 8);
    assert bytes[m + 8..m + 8 + |kind|] == a[m + 8..m + 8 + |kind|] == kind;
    assert bytes[m + 8..m + 8 + |kind'|] == b[m + 8..m + 8 + |kind'|] == kind';
  }

  lemma TailLength(content: Option<Bytes>, tail: Bytes)
    requires tail == Tail(content) && |tail| >= 1 && tail[0] == 0
    requires content.Some? ==> |content.value| < 0x1_0000_0000_0000_0000
    ensures content.Some? && |tail| >= 9 && Number(tail[1..9]) == |tail| - 9
  {
    hide BigEndian;
    U64Range(|content.value|);
    NumberOfBigEndian(|content.value|, 8);
    assert tail[1..9] == BigEndian(|content.value|, 8);
  }

  /** Where the parts of a readable row's record stand. */
  ghost predicate Pieces(bytes: Bytes, row: Row) {
    var k := |MAGIC| + 8;
    var v := k + |row.kind|;
    && |bytes| >= v + 9 && |row.kind| >= 1 && bytes[..|MAGIC|] == MAGIC
    && Number(bytes[|MAGIC|..k]) == |row.kind| && bytes[k..v] == row.kind
    && Number(bytes[v..v + 8]) == row.version
    && bytes[v + 8] == (if row.content.None? then 1 else 0)
    && (row.content.None? ==> |bytes| == v + 9)
    && (row.content.Some? ==> |bytes| >= v + 17 && bytes[v + 17..] == row.content.value
                              && Number(bytes[v + 9..v + 17]) == |row.content.value|)
  }

  lemma RecordPieces(row: Row)
    requires Readable(row)
    ensures Pieces(Record(row), row)
  {
    hide BigEndian, Number;
    var bytes := Record(row);
    var k := |MAGIC| + 8;
    var v := k + |row.kind|;
    U64Range(|row.kind|);
    U64Range(row.version);
    NumberOfBigEndian(|row.kind|, 8);
    NumberOfBigEndian(row.version, 8);
    assert bytes[|MAGIC|..k] == BigEndian(|row.kind|, 8);
    assert bytes[k..v] == row.kind;
    assert bytes[v..v + 8] == BigEndian(row.version, 8);
    if row.content.Some? {
      U64Range(|row.content.value|);
      NumberOfBigEndian(|row.content.value|, 8);
      assert bytes[v + 9..v + 17] == BigEndian(|row.content.value|, 8);
      assert bytes[v + 17..] == row.content.value;
    }
  }

  /** Different readable rows have different records: version and tombstone are sealed too. */
  lemma RecordInjective(a: Row, b: Row)
    requires Readable(a) && Readable(b) && Record(a) == Record(b)
    ensures a == b
  {
    hide Record;
    RecordPieces(a);
    RecordPieces(b);
  }

  /** What the tables themselves demand of a row; the characters of the kind are not checked there. */
  predicate Tabled(row: Row) {
    1 <= |row.kind| <= MAX_KIND && 1 <= row.version <= MAX_VERSION
    && (row.content.Some? ==> |row.content.value| < 0x1_0000_0000_0000_0000)
  }

  /** A row's record can be read back exactly when the kind has only legal characters. */
  lemma ReadBack(row: Row)
    requires Tabled(row)
    ensures (exists r :: Readable(r) && Record(r) == Record(row)) <==> ValidKind(row.kind)
    ensures Readable(row) <==> ValidKind(row.kind)
  {
    hide BigEndian, Number;
    U64Range(|row.kind|);
    NumberOfBigEndian(|row.kind|, 8);
    var bytes := Record(row);
    var k := |MAGIC| + 8;
    assert bytes[|MAGIC|..k] == BigEndian(|row.kind|, 8);
    assert bytes[k..k + |row.kind|] == row.kind;
    forall r | Readable(r) && Record(r) == bytes
      ensures ValidKind(row.kind)
    {
      RecordPieces(r);
    }
    if ValidKind(row.kind) {
      assert Readable(row);
    }
  }
}
