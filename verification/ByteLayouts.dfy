/** The stored and exchanged frames, octet for octet. */
module ByteLayouts {
  import opened Prelude
  import opened Uuid
  import M = ModelRecord
  import N = TreeNode
  import P = PortableFrame
  import R = RevisionManifest
  import O = OperationJournal

  /** The eight octets of a number, the most significant first. */
  function U64(n: nat): Bytes {
    [n / 0x100_0000_0000_0000 % 256, n / 0x1_0000_0000_0000 % 256, n / 0x100_0000_0000 % 256, n / 0x1_0000_0000 % 256,
     n / 0x100_0000 % 256, n / 0x1_0000 % 256, n / 0x100 % 256, n % 256]
  }

  lemma U64Is(n: nat)
    ensures M.BigEndian(n, 8) == U64(n)
  {
    var a, b, c, d, e, f, g := n / 0x100, n / 0x1_0000, n / 0x100_0000, n / 0x1_0000_0000, n / 0x100_0000_0000,
      n / 0x1_0000_0000_0000, n / 0x100_0000_0000_0000;
    assert a / 256 == b && b / 256 == c && c / 256 == d && d / 256 == e && e / 256 == f && f / 256 == g;
    assert M.BigEndian(g, 1) == [g % 256];
    assert M.BigEndian(f, 2) == [g % 256, f % 256];
    assert M.BigEndian(e, 3) == [g % 256, f % 256, e % 256];
    assert M.BigEndian(d, 4) == [g % 256, f % 256, e % 256, d % 256];
    assert M.BigEndian(c, 5) == [g % 256, f % 256, e % 256, d % 256, c % 256];
    assert M.BigEndian(b, 6) == [g % 256, f % 256, e % 256, d % 256, c % 256, b % 256];
    assert M.BigEndian(a, 7) == [g % 256, f % 256, e % 256, d % 256, c % 256, b % 256, a % 256];
  }

  // ------------------------------------------------------------------ object records

  /** A record: magic, kind, version, a flag that is set for a tombstone, and the content of a live object. */
  lemma RecordLayout(row: M.Row)
    ensures M.Record(row) ==
            Ascii("AOWIS-MODEL-RECORD-V1\0") + U64(|row.kind|) + row.kind + U64(row.version) +
            match row.content
            case None => [1]
            case Some(content) => [0] + U64(|content|) + content
  {
    hide M.BigEndian, U64;
    U64Is(|row.kind|);
    U64Is(row.version);
    if row.content.Some? { U64Is(|row.content.value|); }
    assert M.MAGIC == Ascii("AOWIS-MODEL-RECORD-V1\0");
  }

  // --------------------------------------------------------------------- tree nodes

  /** Two nibbles to an octet, the earlier one high; a missing last one is zero. */
  predicate Packed(prefix: Bytes, octets: Bytes) {
    && |octets| == (|prefix| + 1) / 2
    && forall i | 0 <= i < |octets| ::
         octets[i] as int == (prefix[2 * i] as int) * 16 + if 2 * i + 1 < |prefix| then prefix[2 * i + 1] as int else 0
  }

  /** The bits of an octet, the lowest first. */
  predicate Octet(x: Byte, a: bool, b: bool, c: bool, d: bool, e: bool, f: bool, g: bool, h: bool) {
    && (x % 2 == 1 <==> a) && (x / 2 % 2 == 1 <==> b) && (x / 4 % 2 == 1 <==> c) && (x / 8 % 2 == 1 <==> d)
    && (x / 16 % 2 == 1 <==> e) && (x / 32 % 2 == 1 <==> f) && (x / 64 % 2 == 1 <==> g) && (x / 128 % 2 == 1 <==> h)
  }

  /** One bit for each edge, set where there is a child; the edges from 8 on in the first octet. */
  predicate Bitmap(c: N.ChildArray, high: Byte, low: Byte) {
    && Octet(low, c[0] != [], c[1] != [], c[2] != [], c[3] != [], c[4] != [], c[5] != [], c[6] != [], c[7] != [])
    && Octet(high, c[8] != [], c[9] != [], c[10] != [], c[11] != [], c[12] != [], c[13] != [], c[14] != [],
             c[15] != [])
  }

  function One(b: bool): nat {
    if b then 1 else 0
  }

  function Sum(a: bool, b: bool, c: bool, d: bool): (n: nat)
    ensures n < 16
  {
    One(a) + 2 * One(b) + 4 * One(c) + 8 * One(d)
  }

  /** The bits of half an octet. */
  lemma HalfOctet(x: nat, a: bool, b: bool, c: bool, d: bool)
    requires x == Sum(a, b, c, d)
    ensures (x % 2 == 1 <==> a) && (x / 2 % 2 == 1 <==> b) && (x / 4 % 2 == 1 <==> c) && (x / 8 % 2 == 1 <==> d)
  {}

  lemma OctetIs(x: Byte, a: bool, b: bool, c: bool, d: bool, e: bool, f: bool, g: bool, h: bool)
    requires x == Sum(a, b, c, d) + 16 * Sum(e, f, g, h)
    ensures Octet(x, a, b, c, d, e, f, g, h)
  {
    hide Sum;
    var low, high := Sum(a, b, c, d), Sum(e, f, g, h);
    HalfOctet(low, a, b, c, d);
    HalfOctet(high, e, f, g, h);
    LowHalf(x, low, high);
    HighHalf(x, low, high);
  }

  lemma LowHalf(x: nat, low: nat, high: nat)
    requires low < 16 && x == low + 16 * high
    ensures x % 2 == low % 2 && x / 2 % 2 == low / 2 % 2 && x / 4 % 2 == low / 4 % 2 && x / 8 % 2 == low / 8 % 2
  {
    Halve(low, 8 * high);
    Halve(low / 2, 4 * high);
    Halve(low / 4, 2 * high);
    Halve(low / 8, high);
  }

  lemma Halve(a: nat, k: nat)
    ensures (a + 2 * k) % 2 == a % 2 && (a + 2 * k) / 2 == a / 2 + k
  {}

  lemma LastOctet(low: nat, rest: nat)
    requires low < 256
    ensures (low + 256 * rest) % 256 == low && (low + 256 * rest) / 256 == rest
  {}

  lemma HighHalf(x: nat, low: nat, high: nat)
    requires low < 16 && x == low + 16 * high
    ensures x / 16 == high && x / 32 == high / 2 && x / 64 == high / 4 && x / 128 == high / 8
  {}

  /** The mask of four flags and more, spelled out for the four. */
  lemma FourFlags(f: seq<bool>)
    requires |f| >= 4
    ensures N.Mask(f) == Sum(f[0], f[1], f[2], f[3]) + 16 * N.Mask(f[4..])
  {
    assert N.Mask(f) == One(f[0]) + 2 * N.Mask(f[1..]);
    assert N.Mask(f[1..]) == One(f[1]) + 2 * N.Mask(f[1..][1..]) && f[1..][1..] == f[2..];
    assert N.Mask(f[2..]) == One(f[2]) + 2 * N.Mask(f[2..][1..]) && f[2..][1..] == f[3..];
    assert N.Mask(f[3..]) == One(f[3]) + 2 * N.Mask(f[3..][1..]) && f[3..][1..] == f[4..];
  }

  lemma EightFlags(f: seq<bool>)
    requires |f| >= 8
    ensures N.Mask(f) == Sum(f[0], f[1], f[2], f[3]) + 16 * Sum(f[4], f[5], f[6], f[7]) + 256 * N.Mask(f[8..])
  {
    hide N.Mask, Sum;
    FourFlags(f);
    FourFlags(f[4..]);
    assert f[4..][4..] == f[8..];
  }

  lemma NoMask()
    ensures N.Mask([]) == 0
  {}

  lemma MaskOctets(f: seq<bool>)
    requires |f| == 16
    ensures N.Mask(f) < 65536 && N.EncodeMask(f) == [N.Mask(f) / 256, N.Mask(f) % 256]
  {
    hide N.Mask;
    N.MaskBound(f);
    N.SixteenBits();
  }

  lemma LowOctet(f: seq<bool>, x: Byte)
    requires |f| == 16 && x == N.Mask(f) % 256
    ensures Octet(x, f[0], f[1], f[2], f[3], f[4], f[5], f[6], f[7])
  {
    hide N.Mask, Octet, Sum;
    EightFlags(f);
    LastOctet(Sum(f[0], f[1], f[2], f[3]) + 16 * Sum(f[4], f[5], f[6], f[7]), N.Mask(f[8..]));
    OctetIs(x, f[0], f[1], f[2], f[3], f[4], f[5], f[6], f[7]);
  }

  lemma HighOctet(f: seq<bool>, x: Byte)
    requires |f| == 16 && x == N.Mask(f) / 256
    ensures Octet(x, f[8], f[9], f[10], f[11], f[12], f[13], f[14], f[15])
  {
    hide N.Mask, Octet, Sum;
    EightFlags(f);
    LastOctet(Sum(f[0], f[1], f[2], f[3]) + 16 * Sum(f[4], f[5], f[6], f[7]), N.Mask(f[8..]));
    EightFlags(f[8..]);
    assert f[8..][8..] == [];
    NoMask();
    OctetIs(x, f[8], f[9], f[10], f[11], f[12], f[13], f[14], f[15]);
  }

  lemma BitmapIs(c: N.ChildArray)
    ensures var mask := N.EncodeMask(N.Present(c));
      |mask| == 2 && Bitmap(c, mask[0], mask[1])
  {
    hide N.EncodeMask, Octet, N.Mask;
    var f := N.Present(c);
    MaskOctets(f);
    LowOctet(f, N.EncodeMask(f)[1]);
    HighOctet(f, N.EncodeMask(f)[0]);
  }

  lemma {:induction false} PackedIs(prefix: Bytes)
    requires AllNibbles(prefix)
    ensures Packed(prefix, N.Pack(prefix))
  {
    if |prefix| >= 2 {
      PackedIs(prefix[2..]);
      var octets, rest := N.Pack(prefix), N.Pack(prefix[2..]);
      forall i | 1 <= i < |octets|
        ensures octets[i] as int
                == (prefix[2 * i] as int) * 16 + if 2 * i + 1 < |prefix| then prefix[2 * i + 1] as int else 0
      {
        assert octets[i] == rest[i - 1];
        assert prefix[2..][2 * (i - 1)] == prefix[2 * i];
        if 2 * i + 1 < |prefix| { assert prefix[2..][2 * (i - 1) + 1] == prefix[2 * i + 1]; }
      }
    }
  }

  /** A node: magic, prefix length and nibbles, a flag and a digest for a value, the bitmap, and the child digests. */
  lemma NodeLayout(n: N.Node) returns (prefix: Bytes, high: Byte, low: Byte)
    requires |n.prefix| <= KEY_NIBBLES && AllNibbles(n.prefix)
    ensures Packed(n.prefix, prefix) && Bitmap(n.children, high, low)
    ensures var c := n.children;
      N.Encode(n) ==
      Ascii("AOWIS-MERKLE-RADIX-V1\0") + [|n.prefix|] + prefix +
      (if n.value.None? then [0] else [1] + n.value.value) + [high, low] +
      (c[0] + c[1] + c[2] + c[3] + c[4] + c[5] + c[6] + c[7] + c[8] + c[9] + c[10] + c[11] + c[12] + c[13] + c[14] +
       c[15])
  {
    hide N.Mask, N.Concat, N.Pack;
    PackedIs(n.prefix);
    BitmapIs(n.children);
    var mask := N.EncodeMask(N.Present(n.children));
    prefix, high, low := N.Pack(n.prefix), mask[0], mask[1];
    assert mask == [high, low];
    AllConcat(n.children);
    assert N.HEADER == Ascii("AOWIS-MERKLE-RADIX-V1\0");
  }

  lemma AllConcat(c: N.ChildArray)
    ensures N.Concat(c) ==
            c[0] + c[1] + c[2] + c[3] + c[4] + c[5] + c[6] + c[7] + c[8] + c[9] + c[10] + c[11] + c[12] + c[13]
            + c[14] + c[15]
  {
    hide N.Concat;
    var e := N.Concat(c[..1]);
    forall i | 0 <= i < 16
      ensures N.Concat(c[..i + 1]) == N.Concat(c[..i]) + c[i]
    {
      N.ConcatAppend(c[..i], c[i]);
      assert c[..i + 1] == c[..i] + [c[i]];
    }
    assert N.Concat(c[..0]) == [] by {
      NoConcat();
      assert c[..0] == [];
    }
    assert c[..16] == c;
  }

  lemma NoConcat()
    ensures N.Concat([]) == []
  {}

  // ------------------------------------------------------------------ portable frames

  lemma Two(a: P.Item, b: P.Item)
    ensures P.Flat([a, b]) == P.Code(a) + P.Code(b)
  {
    hide P.Code;
    P.FlatOne(b);
    assert [a, b][1..] == [b];
  }

  lemma Three(a: P.Item, b: P.Item, c: P.Item)
    ensures P.Flat([a, b, c]) == P.Code(a) + P.Code(b) + P.Code(c)
  {
    hide P.Code;
    Two(b, c);
    assert [a, b, c][1..] == [b, c];
  }

  lemma Four(a: P.Item, b: P.Item, c: P.Item, d: P.Item)
    ensures P.Flat([a, b, c, d]) == P.Code(a) + P.Code(b) + P.Code(c) + P.Code(d)
  {
    hide P.Code;
    Three(b, c, d);
    assert [a, b, c, d][1..] == [b, c, d];
  }

  lemma Five(a: P.Item, b: P.Item, c: P.Item, d: P.Item, e: P.Item)
    ensures P.Flat([a, b, c, d, e]) == P.Code(a) + P.Code(b) + P.Code(c) + P.Code(d) + P.Code(e)
  {
    hide P.Code;
    Four(b, c, d, e);
    assert [a, b, c, d, e][1..] == [b, c, d, e];
  }

  /** A signed number as the unsigned one with the same 64 bits. */
  function Cast(n: P.Int64): nat {
    if n >= 0 then n else n + 0x1_0000_0000_0000_0000
  }

  /** A length and that many octets. */
  function Sized(octets: Bytes): Bytes {
    U64(|octets|) + octets
  }

  lemma CodeIs(item: P.Item)
    ensures P.Code(item) ==
            match item
            case Raw(octets) => octets
            case Num(n) => U64(n)
            case Field(octets) => Sized(octets)
  {
    hide M.BigEndian, U64;
    match item
    case Raw(_) =>
    case Num(n) => U64Is(n);
    case Field(octets) => U64Is(|octets|);
  }

  /** Who sealed what and when, and the title and message. */
  function Description<Text>(p: R.Platform<Text>, m: R.Manifest<Text>): Bytes {
    m.project + m.branch + m.revision + m.createdBy + m.finalizedBy + U64(Cast(m.createdAt)) + U64(Cast(m.number))
    + U64(Cast(m.finalizedAt)) + Sized(p.utf8(m.title)) + Sized(p.utf8(m.message))
  }

  lemma DescriptionIs<Text>(p: R.Platform<Text>, m: R.Manifest<Text>)
    ensures P.Flat(R.Before(p, m)) == Description(p, m)
  {
    hide P.Flat, P.Code, U64, Sized;
    var ids, numbers, texts := R.Identity(m), R.Numbers(m), R.Texts(p, m);
    P.FlatAppend(ids + numbers, texts);
    P.FlatAppend(ids, numbers);
    Five(ids[0], ids[1], ids[2], ids[3], ids[4]);
    Three(numbers[0], numbers[1], numbers[2]);
    Two(texts[0], texts[1]);
    forall item
      ensures P.Code(item) == match item case Raw(octets) => octets case Num(n) => U64(n)
                              case Field(octets) => Sized(octets)
    {
      CodeIs(item);
    }
    assert P.Flat(ids) == m.project + m.branch + m.revision + m.createdBy + m.finalizedBy;
    assert P.Flat(numbers) == U64(Cast(m.createdAt)) + U64(Cast(m.number)) + U64(Cast(m.finalizedAt));
    assert P.Flat(texts) == Sized(p.utf8(m.title)) + Sized(p.utf8(m.message));
  }

  /** The parents one after the other, each an identifier and a chain hash. */
  predicate ParentList(parents: seq<R.Parent>, octets: Bytes) {
    && |octets| == 48 * |parents|
    && forall i | 0 <= i < |parents| ::
         octets[48 * i..48 * i + 16] == parents[i].0 && octets[48 * i + 16..48 * i + 48] == parents[i].1
  }

  lemma {:induction false} ParentListIs(parents: seq<R.Parent>)
    requires forall i | 0 <= i < |parents| :: |parents[i].1| == 32
    ensures ParentList(parents, P.Flat(R.ParentItems(parents)))
  {
    if parents != [] {
      var first, rest := parents[0], P.Flat(R.ParentItems(parents[1..]));
      ParentListIs(parents[1..]);
      P.FlatAppend([P.Raw(first.0), P.Raw(first.1)], R.ParentItems(parents[1..]));
      Two(P.Raw(first.0), P.Raw(first.1));
      var octets := first.0 + first.1 + rest;
      assert P.Flat(R.ParentItems(parents)) == octets;
      forall i | 1 <= i < |parents|
        ensures octets[48 * i..48 * i + 16] == parents[i].0 && octets[48 * i + 16..48 * i + 48] == parents[i].1
      {
        assert octets[48 * i..48 * i + 48] == rest[48 * (i - 1)..48 * (i - 1) + 48];
        assert parents[1..][i - 1] == parents[i];
        assert octets[48 * i..48 * i + 16] == rest[48 * (i - 1)..48 * (i - 1) + 16];
        assert octets[48 * i + 16..48 * i + 48] == rest[48 * (i - 1) + 16..48 * (i - 1) + 48];
      }
    }
  }

  lemma Magics()
    ensures R.MANIFEST_MAGIC == Ascii("AOWIS-REVISION-MANIFEST-V1\0")
    ensures R.CHAIN_MAGIC == Ascii("AOWIS-REVISION-DAG-V1\0")
    ensures O.JOURNAL_MAGIC == Ascii("AOWIS-OPERATIONS-V1\0")
    ensures R.NO_ROOT == seq(32, _ => 0)
  {}

  /** The hashes a manifest carries; a revision without objects has a root of zeros. */
  function Hashes(m: R.Manifest): Bytes {
    m.snapshotHash + m.historyHash + if m.objectMode then m.objectRoot else seq(32, _ => 0)
  }

  lemma HashesAre(m: R.Manifest)
    ensures P.Flat([P.Raw(m.snapshotHash), P.Raw(m.historyHash), P.Raw(R.PaddedRoot(m))]) == Hashes(m)
    ensures P.Flat(R.Digests(m)) == Hashes(m) + m.chainHash
  {
    hide P.Flat;
    Magics();
    Three(P.Raw(m.snapshotHash), P.Raw(m.historyHash), P.Raw(R.PaddedRoot(m)));
    Four(P.Raw(m.snapshotHash), P.Raw(m.historyHash), P.Raw(R.PaddedRoot(m)), P.Raw(m.chainHash));
  }

  lemma ParentsAre(m: R.Manifest) returns (parents: Bytes)
    requires forall i | 0 <= i < |m.parents| :: |m.parents[i].1| == 32
    ensures ParentList(m.parents, parents)
    ensures P.Flat([P.Num(|m.parents|)] + R.ParentItems(m.parents)) == U64(|m.parents|) + parents
  {
    hide P.Flat, P.Code, U64, ParentList, R.ParentItems;
    P.FlatAppend([P.Num(|m.parents|)], R.ParentItems(m.parents));
    P.FlatOne(P.Num(|m.parents|));
    CodeIs(P.Num(|m.parents|));
    ParentListIs(m.parents);
    parents := P.Flat(R.ParentItems(m.parents));
  }

  /** The manifest frame of a revision. */
  lemma FrameLayout<Text>(p: R.Platform<Text>, m: R.Manifest<Text>) returns (parents: Bytes)
    requires forall i | 0 <= i < |m.parents| :: |m.parents[i].1| == 32
    ensures ParentList(m.parents, parents)
    ensures R.Frame(p, m) ==
            Ascii("AOWIS-REVISION-MANIFEST-V1\0") + [if m.objectMode then 1 else 0] + Description(p, m) + Hashes(m)
            + m.chainHash + U64(|m.parents|) + parents
  {
    hide P.Flat, U64, R.Before, Description, R.ParentItems, ParentList, Hashes, Ascii, R.Digests;
    var head := R.ModeItems(m.objectMode);
    var ending := [P.Num(|m.parents|)] + R.ParentItems(m.parents);
    P.FlatAppend(head, R.AfterMode(p, m));
    P.FlatAppend(R.Before(p, m), R.Digests(m) + ending);
    P.FlatAppend(R.Digests(m), ending);
    Two(head[0], head[1]);
    Magics();
    DescriptionIs(p, m);
    HashesAre(m);
    parents := ParentsAre(m);
  }

  /** What the chain hash of a manifest is taken over. */
  lemma ChainLayout<Text>(p: R.Platform<Text>, m: R.Manifest<Text>) returns (parents: Bytes)
    requires forall i | 0 <= i < |m.parents| :: |m.parents[i].1| == 32
    ensures ParentList(m.parents, parents)
    ensures R.Preimage(p, m) ==
            Ascii("AOWIS-REVISION-DAG-V1\0") + Description(p, m) + Hashes(m) + U64(|m.parents|) + parents
  {
    hide P.Flat, U64, R.Before, Description, R.ParentItems, ParentList, Hashes, Ascii;
    var magic := [P.Raw(R.CHAIN_MAGIC)];
    var digests := [P.Raw(m.snapshotHash), P.Raw(m.historyHash), P.Raw(R.PaddedRoot(m))];
    var ending := [P.Num(|m.parents|)] + R.ParentItems(m.parents);
    assert R.ChainItems(p, m) == magic + R.Before(p, m) + digests + ending;
    P.FlatAppend(magic + R.Before(p, m) + digests, ending);
    P.FlatAppend(magic + R.Before(p, m), digests);
    P.FlatAppend(magic, R.Before(p, m));
    P.FlatOne(magic[0]);
    Magics();
    DescriptionIs(p, m);
    HashesAre(m);
    parents := ParentsAre(m);
  }

  /** A snapshot that may be missing: a flag, then the snapshot. */
  function Flagged(snapshot: Option<Bytes>): Bytes {
    match snapshot
    case None => [0]
    case Some(octets) => [1] + Sized(octets)
  }

  /** One operation of a snapshot journal. */
  function Operation(row: O.Row): Bytes {
    row.id + row.actor + row.revision + U64(Cast(row.sequence)) + U64(Cast(row.occurredAt)) + Sized(row.kind)
    + row.target + Flagged(row.before) + Flagged(row.after)
  }

  lemma FlaggedIs(snapshot: Option<Bytes>)
    ensures P.Flat(O.SnapshotItems(snapshot)) == Flagged(snapshot)
  {
    hide P.Flat, P.Code, Sized;
    match snapshot
    case None =>
      P.FlatOne(P.Raw([0]));
      CodeIs(P.Raw([0]));
    case Some(octets) =>
      Two(P.Raw([1]), P.Field(octets));
      CodeIs(P.Raw([1]));
      CodeIs(P.Field(octets));
  }

  lemma EventIs(row: O.Row)
    ensures P.Flat(O.EventItems(row)) ==
            row.id + row.actor + row.revision + U64(Cast(row.sequence)) + U64(Cast(row.occurredAt)) + Sized(row.kind)
            + row.target
  {
    hide P.Flat, P.Code, U64, Sized;
    var items := O.EventItems(row);
    assert items == [items[0], items[1], items[2], items[3], items[4]] + [items[5], items[6]];
    P.FlatAppend([items[0], items[1], items[2], items[3], items[4]], [items[5], items[6]]);
    Five(items[0], items[1], items[2], items[3], items[4]);
    Two(items[5], items[6]);
    CodeIs(items[0]);
    CodeIs(items[1]);
    CodeIs(items[2]);
    CodeIs(items[3]);
    CodeIs(items[4]);
    CodeIs(items[5]);
    CodeIs(items[6]);
  }

  lemma OperationIs(row: O.Row)
    ensures P.Flat(O.RowItems(row)) == Operation(row)
  {
    hide P.Flat, O.EventItems, O.SnapshotItems, Flagged, Sized, U64;
    P.FlatAppend(O.EventItems(row), O.SnapshotItems(row.before) + O.SnapshotItems(row.after));
    P.FlatAppend(O.SnapshotItems(row.before), O.SnapshotItems(row.after));
    EventIs(row);
    FlaggedIs(row.before);
    FlaggedIs(row.after);
  }

  /** The journal: magic, the number of operations, and the operations one after the other. */
  lemma {:induction false} JournalLayout(rows: seq<O.Row>)
    ensures O.Journal(rows) == Ascii("AOWIS-OPERATIONS-V1\0") + U64(|rows|) + Operations(rows)
  {
    hide P.Flat, P.Code, O.RowsItems, U64, Operations, Ascii;
    Magics();
    var head := [P.Raw(O.JOURNAL_MAGIC)];
    P.FlatAppend(head, [P.Num(|rows|)] + O.RowsItems(rows));
    P.FlatAppend([P.Num(|rows|)], O.RowsItems(rows));
    P.FlatOne(P.Raw(O.JOURNAL_MAGIC));
    P.FlatOne(P.Num(|rows|));
    CodeIs(P.Raw(O.JOURNAL_MAGIC));
    CodeIs(P.Num(|rows|));
    OperationsAre(rows);
  }

  function Operations(rows: seq<O.Row>): Bytes {
    if rows == [] then [] else Operation(rows[0]) + Operations(rows[1..])
  }

  lemma {:induction false} OperationsAre(rows: seq<O.Row>)
    ensures P.Flat(O.RowsItems(rows)) == Operations(rows)
  {
    hide O.RowItems, Operation;
    if rows != [] {
      OperationIs(rows[0]);
      OperationsAre(rows[1..]);
      P.FlatAppend(O.RowItems(rows[0]), O.RowsItems(rows[1..]));
    }
  }
}
