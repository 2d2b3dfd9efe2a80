/** The portable description of one sealed revision, and the chain hash that binds it. */
module RevisionManifest {
  import opened Prelude
  import opened Uuid
  import opened PortableFrame

  const DIGEST_LENGTH: nat := 32
  const MAX_FRAME: nat := 16 * 1024 * 1024
  const MAX_TEXT_LENGTH: nat := 8 * 1024 * 1024
  const MAX_PARENTS: nat := 64

  // "AOWIS-REVISION-MANIFEST-V1" and a zero octet
  const MANIFEST_MAGIC: Bytes :=
    [65, 79, 87, 73, 83, 45, 82, 69, 86, 73, 83, 73, 79, 78, 45, 77, 65, 78, 73, 70, 69, 83, 84, 45, 86, 49, 0]

  // "AOWIS-REVISION-DAG-V1" and a zero octet
  const CHAIN_MAGIC: Bytes :=
    [65, 79, 87, 73, 83, 45, 82, 69, 86, 73, 83, 73, 79, 78, 45, 68, 65, 71, 45, 86, 49, 0]

  // 32 zero octets
  const NO_ROOT: Bytes :=
    [0, 0, 0, 0, 0, 0, 0, 0, 0, 0, 0, 0, 0, 0, 0, 0,
     0, 0, 0, 0, 0, 0, 0, 0, 0, 0, 0, 0, 0, 0, 0, 0]

  type Parent = (Uuid, Bytes)

  datatype Manifest<Text> = Manifest(project: Uuid, branch: Uuid, revision: Uuid, createdBy: Uuid, finalizedBy: Uuid,
                                     createdAt: Int64, number: Int64, finalizedAt: Int64, title: Text, message: Text,
                                     snapshotHash: Bytes, historyHash: Bytes, objectRoot: Bytes, chainHash: Bytes,
                                     objectMode: bool, parents: seq<Parent>)

  /** Text conversion and hashing; no law relates the two conversions, the code checks each round trip itself. */
  datatype Platform<!Text> = Platform(utf8: Text -> Bytes, text: Bytes -> Text, sha: Bytes -> Bytes)

  // --------------------------------------------------------------------- layout

  function Identity(m: Manifest): seq<Item> {
    [Raw(m.project), Raw(m.branch), Raw(m.revision), Raw(m.createdBy), Raw(m.finalizedBy)]
  }

  function Numbers(m: Manifest): seq<Item> {
    [Num(Unsigned(m.createdAt)), Num(Unsigned(m.number)), Num(Unsigned(m.finalizedAt))]
  }

  function Texts<Text>(p: Platform<Text>, m: Manifest<Text>): seq<Item> {
    [Field(p.utf8(m.title)), Field(p.utf8(m.message))]
  }

  function PaddedRoot(m: Manifest): Bytes {
    if m.objectMode then m.objectRoot else NO_ROOT
  }

  function ParentItems(parents: seq<Parent>): seq<Item> {
    if parents == [] then [] else [Raw(parents[0].0), Raw(parents[0].1)] + ParentItems(parents[1..])
  }

  function Before<Text>(p: Platform<Text>, m: Manifest<Text>): seq<Item> {
    Identity(m) + Numbers(m) + Texts(p, m)
  }

  function ManifestItems<Text>(p: Platform<Text>, m: Manifest<Text>): seq<Item> {
    ModeItems(m.objectMode) + AfterMode(p, m)
  }

  function Digests(m: Manifest): seq<Item> {
    [Raw(m.snapshotHash), Raw(m.historyHash), Raw(PaddedRoot(m)), Raw(m.chainHash)]
  }

  /** The canonical frame. */
  function Frame<Text>(p: Platform<Text>, m: Manifest<Text>): Bytes {
    Flat(ManifestItems(p, m))
  }

  function ChainItems<Text>(p: Platform<Text>, m: Manifest<Text>): seq<Item> {
    [Raw(CHAIN_MAGIC)] + Before(p, m) + [Raw(m.snapshotHash), Raw(m.historyHash), Raw(PaddedRoot(m))]
    + [Num(|m.parents|)] + ParentItems(m.parents)
  }

  /** What the chain hash is taken of. */
  function Preimage<Text>(p: Platform<Text>, m: Manifest<Text>): Bytes {
    Flat(ChainItems(p, m))
  }

  // ------------------------------------------------------------------- validity

  predicate MetadataOk(m: Manifest) {
    && !IsNull(m.project) && !IsNull(m.branch) && !IsNull(m.revision)
    && m.number >= 1 && m.createdAt >= 0 && m.finalizedAt >= 0
    && |m.snapshotHash| == |m.historyHash| == |m.chainHash| == DIGEST_LENGTH
    && |m.parents| <= MAX_PARENTS
    && |m.objectRoot| == (if m.objectMode then DIGEST_LENGTH else 0)
  }

  /** The text is short enough and survives its encoding. */
  predicate TextOk<Text(==)>(p: Platform<Text>, t: Text) {
    |p.utf8(t)| <= MAX_TEXT_LENGTH && p.text(p.utf8(t)) == t
  }

  predicate ParentsOk(revision: Uuid, parents: seq<Parent>) {
    && (forall i | 0 <= i < |parents| ::
          !IsNull(parents[i].0) && parents[i].0 != revision && |parents[i].1| == DIGEST_LENGTH)
    && forall i, j | 0 <= i < j < |parents| :: parents[i].0 != parents[j].0
  }

  /** What a receiver may rely on: legal metadata, distinct parents, and an unbroken chain hash. */
  predicate Valid<Text(==)>(p: Platform<Text>, m: Manifest<Text>) {
    MetadataOk(m) && TextOk(p, m.title) && TextOk(p, m.message) && ParentsOk(m.revision, m.parents)
    && p.sha(Preimage(p, m)) == m.chainHash
  }

  predicate Encodes<Text(==)>(p: Platform<Text>, m: Manifest<Text>) {
    Valid(p, m) && |Frame(p, m)| <= MAX_FRAME
  }

  lemma SetIds(m: Manifest)
    ensures IsNull(m.project) <==> m.project == UNSET
    ensures IsNull(m.branch) <==> m.branch == UNSET
    ensures IsNull(m.revision) <==> m.revision == UNSET
    ensures forall i | 0 <= i < |m.parents| :: IsNull(m.parents[i].0) <==> m.parents[i].0 == UNSET
  {
    NullIsUnset(m.project);
    NullIsUnset(m.branch);
    NullIsUnset(m.revision);
    forall i | 0 <= i < |m.parents|
      ensures IsNull(m.parents[i].0) <==> m.parents[i].0 == UNSET
    {
      NullIsUnset(m.parents[i].0);
    }
  }

  // ------------------------------------------------------------------ the methods

  lemma {:induction false} ParentItemsAppend(parents: seq<Parent>, q: Parent)
    ensures ParentItems(parents + [q]) == ParentItems(parents) + [Raw(q.0), Raw(q.1)]
  {
    if parents == [] {
      assert (parents + [q])[1..] == [];
    } else {
      assert (parents + [q])[1..] == parents[1..] + [q];
      ParentItemsAppend(parents[1..], q);
    }
  }

  method AppendBefore<Text>(p: Platform<Text>, out: Bytes, m: Manifest<Text>, ghost items: seq<Item>)
    returns (bytes: Bytes)
    requires out == Flat(items)
    ensures bytes == Flat(items + Before(p, m))
  {
    hide Flat, Unsigned;
    bytes := Append(out, m.project, items);
    assert Identity(m)[..1] == [Raw(m.project)] && Numbers(m)[..1] == [Num(Unsigned(m.createdAt))];
    bytes := Append(bytes, m.branch, items + Identity(m)[..1]);
    assert items + Identity(m)[..1] + [Identity(m)[1]] == items + Identity(m)[..2];
    bytes := Append(bytes, m.revision, items + Identity(m)[..2]);
    assert items + Identity(m)[..2] + [Identity(m)[2]] == items + Identity(m)[..3];
    bytes := Append(bytes, m.createdBy, items + Identity(m)[..3]);
    assert items + Identity(m)[..3] + [Identity(m)[3]] == items + Identity(m)[..4];
    bytes := Append(bytes, m.finalizedBy, items + Identity(m)[..4]);
    assert items + Identity(m)[..4] + [Identity(m)[4]] == items + Identity(m);
    ghost var base := items + Identity(m);
    bytes := AppendU64(bytes, Unsigned(m.createdAt), base);
    bytes := AppendU64(bytes, Unsigned(m.number), base + Numbers(m)[..1]);
    assert base + Numbers(m)[..1] + [Numbers(m)[1]] == base + Numbers(m)[..2];
    bytes := AppendU64(bytes, Unsigned(m.finalizedAt), base + Numbers(m)[..2]);
    assert base + Numbers(m)[..2] + [Numbers(m)[2]] == base + Numbers(m);
    base := base + Numbers(m);
    bytes := AppendField(bytes, p.utf8(m.title), base);
    bytes := AppendField(bytes, p.utf8(m.message), base + [Texts(p, m)[0]]);
    assert base + [Texts(p, m)[0]] + [Texts(p, m)[1]] == items + Before(p, m);
  }

  method AppendParents(out: Bytes, parents: seq<Parent>, ghost items: seq<Item>) returns (bytes: Bytes)
    requires out == Flat(items)
    ensures bytes == Flat(items + ([Num(|parents|)] + ParentItems(parents)))
  {
    hide Flat;
    bytes := AppendU64(out, |parents|, items);
    ghost var base := items + [Num(|parents|)];
    assert base + ParentItems(parents[..0]) == base;
    for i := 0 to |parents|
      invariant bytes == Flat(base + ParentItems(parents[..i]))
    {
      ghost var had := base + ParentItems(parents[..i]);
      bytes := Append(bytes, parents[i].0, had);
      bytes := Append(bytes, parents[i].1, had + [Raw(parents[i].0)]);
      ParentItemsAppend(parents[..i], parents[i]);
      assert parents[..i + 1] == parents[..i] + [parents[i]];
      assert had + [Raw(parents[i].0)] + [Raw(parents[i].1)] == base + ParentItems(parents[..i + 1]);
    }
    assert parents[..|parents|] == parents;
    assert base + ParentItems(parents) == items + ([Num(|parents|)] + ParentItems(parents));
  }

  /** The chain hash of the manifest's fields; nothing when a digest has the wrong length. */
  method ChainHash<Text>(p: Platform<Text>, m: Manifest<Text>, root: Bytes) returns (hash: Bytes)
    requires root == PaddedRoot(m)
    ensures |m.snapshotHash| == |m.historyHash| == |root| == DIGEST_LENGTH ==> hash == p.sha(Preimage(p, m))
    ensures !(|m.snapshotHash| == |m.historyHash| == |root| == DIGEST_LENGTH) ==> hash == []
  {
    hide Flat, Before, ParentItems;
    if |m.snapshotHash| != DIGEST_LENGTH || |m.historyHash| != DIGEST_LENGTH || |root| != DIGEST_LENGTH {
      return [];
    }
    FlatOne(Raw(CHAIN_MAGIC));
    ghost var items := [Raw(CHAIN_MAGIC)];
    var bytes := AppendBefore(p, CHAIN_MAGIC, m, items);
    items := items + Before(p, m);
    bytes := Append(bytes, m.snapshotHash, items);
    bytes := Append(bytes, m.historyHash, items + [Raw(m.snapshotHash)]);
    bytes := Append(bytes, root, items + [Raw(m.snapshotHash)] + [Raw(m.historyHash)]);
    items := items + [Raw(m.snapshotHash)] + [Raw(m.historyHash)] + [Raw(root)];
    bytes := AppendParents(bytes, m.parents, items);
    assert items + ([Num(|m.parents|)] + ParentItems(m.parents)) == ChainItems(p, m);
    hash := p.sha(bytes);
  }

  method CheckParents(revision: Uuid, parents: seq<Parent>) returns (ok: bool)
    ensures ok <==> ParentsOk(revision, parents)
  {
    var seen: set<Uuid> := {};
    for i := 0 to |parents|
      invariant seen == set j | 0 <= j < i :: parents[j].0
      invariant ParentsOk(revision, parents[..i])
    {
      var parent := parents[i];
      if IsNull(parent.0) || parent.0 == revision || |parent.1| != DIGEST_LENGTH || parent.0 in seen {
        return false;
      }
      seen := seen + {parent.0};
    }
    assert parents[..|parents|] == parents;
    return true;
  }

  method CheckValid<Text(==)>(p: Platform<Text>, m: Manifest<Text>) returns (ok: bool)
    ensures ok <==> Valid(p, m)
    ensures ok <==>
              && m.project != UNSET && m.branch != UNSET && m.revision != UNSET
              && m.number > 0 && m.createdAt >= 0 && m.finalizedAt >= 0
              && |m.snapshotHash| == 32 && |m.historyHash| == 32 && |m.chainHash| == 32
              && (if m.objectMode then |m.objectRoot| == 32 else m.objectRoot == [])
              && |p.utf8(m.title)| <= 8388608 && p.text(p.utf8(m.title)) == m.title
              && |p.utf8(m.message)| <= 8388608 && p.text(p.utf8(m.message)) == m.message
              && |m.parents| <= 64
              && (forall i | 0 <= i < |m.parents| ::
                    m.parents[i].0 != UNSET && m.parents[i].0 != m.revision && |m.parents[i].1| == 32)
              && (forall i, j | 0 <= i < j < |m.parents| :: m.parents[i].0 != m.parents[j].0)
              && m.chainHash == p.sha(Preimage(p, m))
  {
    hide Preimage, IsNull;
    SetIds(m);
    if IsNull(m.project) || IsNull(m.branch) || IsNull(m.revision) || m.number < 1 || m.createdAt < 0
      || m.finalizedAt < 0
       || |m.snapshotHash| != DIGEST_LENGTH || |m.historyHash| != DIGEST_LENGTH || |m.chainHash| != DIGEST_LENGTH
       || |m.parents| > MAX_PARENTS {
      return false;
    }
    if (m.objectMode && |m.objectRoot| != DIGEST_LENGTH) || (!m.objectMode && m.objectRoot != []) {
      return false;
    }
    var title, message := p.utf8(m.title), p.utf8(m.message);
    if |title| > MAX_TEXT_LENGTH || |message| > MAX_TEXT_LENGTH || p.text(title) != m.title
      || p.text(message) != m.message {
      return false;
    }
    var distinct := CheckParents(m.revision, m.parents);
    if !distinct {
      return false;
    }
    var root := if m.objectMode then m.objectRoot else NO_ROOT;
    var hash := ChainHash(p, m, root);
    ok := hash == m.chainHash;
  }

  /** Encodes exactly the valid manifests whose frame is not too long. */
  method EncodeRevisionManifest<Text(==)>(p: Platform<Text>, m: Manifest<Text>) returns (r: Option<Bytes>)
    ensures r == if Encodes(p, m) then Some(Frame(p, m)) else None
  {
    hide Flat, Before, ParentItems, Valid;
    var ok := CheckValid(p, m);
    if !ok {
      return None;
    }
    FlatOne(Raw(MANIFEST_MAGIC));
    ghost var items := [Raw(MANIFEST_MAGIC)];
    var mode: Byte := if m.objectMode then 1 else 0;
    var bytes := Append(MANIFEST_MAGIC, [mode], items);
    items := items + [Raw([mode])];
    bytes := AppendBefore(p, bytes, m, items);
    items := items + Before(p, m);
    bytes := Append(bytes, m.snapshotHash, items);
    bytes := Append(bytes, m.historyHash, items + [Raw(m.snapshotHash)]);
    bytes := Append(bytes, if m.objectMode then m.objectRoot else NO_ROOT,
                    items + [Raw(m.snapshotHash)] + [Raw(m.historyHash)]);
    items := items + [Raw(m.snapshotHash)] + [Raw(m.historyHash)] + [Raw(PaddedRoot(m))];
    bytes := Append(bytes, m.chainHash, items);
    items := items + [Raw(m.chainHash)];
    bytes := AppendParents(bytes, m.parents, items);
    assert items + ([Num(|m.parents|)] + ParentItems(m.parents)) == ManifestItems(p, m);
    r := if |bytes| > MAX_FRAME then None else Some(bytes);
  }

  // ------------------------------------------------------------------- decoding

  lemma {:induction false} ParentItemsAlike(a: seq<Parent>, b: seq<Parent>)
    requires |a| == |b| && (forall i | 0 <= i < |a| :: |a[i].1| == DIGEST_LENGTH && |b[i].1| == DIGEST_LENGTH)
    ensures AllAlike(ParentItems(a), ParentItems(b))
    ensures ParentItems(a) == ParentItems(b) ==> a == b
  {
    if a != [] {
      ParentItemsAlike(a[1..], b[1..]);
      var x, y := ParentItems(a), ParentItems(b);
      assert x[2..] == ParentItems(a[1..]) && y[2..] == ParentItems(b[1..]);
      assert forall i | 2 <= i < |x| :: x[i] == x[2..][i - 2] && y[i] == y[2..][i - 2];
      assert a == [a[0]] + a[1..] && b == [b[0]] + b[1..];
      if x == y {
        assert x[0] == Raw(a[0].0) && x[1] == Raw(a[0].1);
      }
    }
  }

  lemma BeforeAlike<Text>(p: Platform<Text>, a: Manifest<Text>, b: Manifest<Text>)
    requires TextOk(p, a.title) && TextOk(p, a.message) && TextOk(p, b.title) && TextOk(p, b.message)
    requires MetadataOk(a) && MetadataOk(b)
    ensures AllAlike(Before(p, a), Before(p, b))
    ensures Before(p, a) == Before(p, b) <==>
            a.(snapshotHash := b.snapshotHash, historyHash := b.historyHash, objectRoot := b.objectRoot,
               chainHash := b.chainHash, objectMode := b.objectMode, parents := b.parents) == b
  {
    var x, y := Before(p, a), Before(p, b);
    if x == y {
      assert x[0] == Raw(a.project) && x[1] == Raw(a.branch) && x[2] == Raw(a.revision) && x[3] == Raw(a.createdBy)
             && x[4] == Raw(a.finalizedBy);
      assert y[0] == Raw(b.project) && y[1] == Raw(b.branch) && y[2] == Raw(b.revision) && y[3] == Raw(b.createdBy)
             && y[4] == Raw(b.finalizedBy);
      assert x[5] == Num(a.createdAt) && x[6] == Num(a.number) && x[7] == Num(a.finalizedAt);
      assert y[5] == Num(b.createdAt) && y[6] == Num(b.number) && y[7] == Num(b.finalizedAt);
      assert x[8] == Field(p.utf8(a.title)) && x[9] == Field(p.utf8(a.message));
      assert y[8] == Field(p.utf8(b.title)) && y[9] == Field(p.utf8(b.message));
    }
  }

  function UpToCount<Text>(p: Platform<Text>, m: Manifest<Text>): seq<Item> {
    ModeItems(m.objectMode) + Before(p, m) + Digests(m) + [Num(|m.parents|)]
  }

  lemma UpToCountDecides<Text>(p: Platform<Text>, a: Manifest<Text>, b: Manifest<Text>)
    requires MetadataOk(a) && MetadataOk(b) && |Before(p, a)| == |Before(p, b)| == 10
    requires UpToCount(p, a) == UpToCount(p, b)
    ensures Before(p, a) == Before(p, b) && |a.parents| == |b.parents|
    ensures a.objectMode == b.objectMode && a.snapshotHash == b.snapshotHash && a.historyHash == b.historyHash
    ensures a.objectRoot == b.objectRoot && a.chainHash == b.chainHash
  {
    hide Before, IsNull;
    var x, y := UpToCount(p, a), UpToCount(p, b);
    assert x[2..12] == Before(p, a) && y[2..12] == Before(p, b);
    assert x[1].octets[0] == (if a.objectMode then 1 else 0) && y[1].octets[0] == (if b.objectMode then 1 else 0);
    assert x[12] == Raw(a.snapshotHash) && x[13] == Raw(a.historyHash) && x[14] == Raw(PaddedRoot(a))
      && x[15] == Raw(a.chainHash);
    assert y[12] == Raw(b.snapshotHash) && y[13] == Raw(b.historyHash) && y[14] == Raw(PaddedRoot(b))
      && y[15] == Raw(b.chainHash);
    assert x[16] == Num(|a.parents|) && y[16] == Num(|b.parents|);
  }

  lemma UpToCountAlike<Text>(p: Platform<Text>, a: Manifest<Text>, b: Manifest<Text>)
    requires MetadataOk(a) && MetadataOk(b) && AllAlike(Before(p, a), Before(p, b))
    ensures AllAlike(UpToCount(p, a), UpToCount(p, b))
  {
    hide Before, IsNull;
  }

  /** The canonical frame determines the manifest. */
  lemma FrameInjective<Text>(p: Platform<Text>, a: Manifest<Text>, b: Manifest<Text>)
    requires Valid(p, a) && Valid(p, b) && Frame(p, a) == Frame(p, b)
    ensures a == b
  {
    hide Flat, Preimage, IsNull, TextOk, AllAlike, Identity, Numbers, Texts, Digests, PaddedRoot;
    BeforeAlike(p, a, b);
    UpToCountAlike(p, a, b);
    assert ManifestItems(p, a) == UpToCount(p, a) + ParentItems(a.parents);
    assert ManifestItems(p, b) == UpToCount(p, b) + ParentItems(b.parents);
    FlatAppend(UpToCount(p, a), ParentItems(a.parents));
    FlatAppend(UpToCount(p, b), ParentItems(b.parents));
    FlatInjective(UpToCount(p, a), UpToCount(p, b), Flat(ParentItems(a.parents)), Flat(ParentItems(b.parents)));
    BeforeLength(p, a);
    BeforeLength(p, b);
    UpToCountDecides(p, a, b);
    SameParents(a.parents, b.parents);
  }

  lemma BeforeLength<Text>(p: Platform<Text>, m: Manifest<Text>)
    ensures |Before(p, m)| == 10
  {
  }

  lemma SameParents(a: seq<Parent>, b: seq<Parent>)
    requires |a| == |b| && (forall i | 0 <= i < |a| :: |a[i].1| == DIGEST_LENGTH && |b[i].1| == DIGEST_LENGTH)
    requires Flat(ParentItems(a)) == Flat(ParentItems(b))
    ensures a == b
  {
    hide Flat, AllAlike;
    ParentItemsAlike(a, b);
    assert Flat(ParentItems(a)) + [] == Flat(ParentItems(b)) + [];
    FlatInjective(ParentItems(a), ParentItems(b), [], []);
  }

  method ReadIdentity<Text>(bytes: Bytes, offset: nat, ghost read: seq<Item>, ghost it: Option<Manifest<Text>>,
                            ghost rest: seq<Item>)
    returns (r: Option<(Uuid, Uuid, Uuid, Uuid, Uuid)>, next: nat)
    requires Behind(bytes, offset, read)
    ensures r.Some? ==> Behind(bytes, next,
                               read + [Raw(r.value.0), Raw(r.value.1), Raw(r.value.2), Raw(r.value.3), Raw(r.value.4)])
    ensures it.Some? && Ahead(bytes, offset, Identity(it.value) + rest) ==>
              r == Some((it.value.project, it.value.branch, it.value.revision, it.value.createdBy,
                         it.value.finalizedBy)) && Ahead(bytes, next, rest)
  {
    hide Behind, Ahead;
    ghost var left := if it.Some? then Identity(it.value) + rest else seq(5, _ => Num(0));
    var project, branch, revision, creator, finalizer;
    project, next := ReadUuid(bytes, offset, read, left);
    if project.None? { return None, next; }
    branch, next := ReadUuid(bytes, next, read + [Raw(project.value)], left[1..]);
    if branch.None? { return None, next; }
    revision, next := ReadUuid(bytes, next, read + [Raw(project.value)] + [Raw(branch.value)], left[1..][1..]);
    if revision.None? { return None, next; }
    ghost var had := read + [Raw(project.value)] + [Raw(branch.value)] + [Raw(revision.value)];
    creator, next := ReadUuid(bytes, next, had, left[1..][1..][1..]);
    if creator.None? { return None, next; }
    finalizer, next := ReadUuid(bytes, next, had + [Raw(creator.value)], left[1..][1..][1..][1..]);
    if finalizer.None? { return None, next; }
    assert had + [Raw(creator.value)] + [Raw(finalizer.value)]
           == read + [Raw(project.value), Raw(branch.value), Raw(revision.value), Raw(creator.value),
                      Raw(finalizer.value)];
    assert it.Some? ==> left[1..][1..][1..][1..][1..] == rest;
    r := Some((project.value, branch.value, revision.value, creator.value, finalizer.value));
  }

  method ReadNumbers<Text>(bytes: Bytes, offset: nat, ghost read: seq<Item>, ghost it: Option<Manifest<Text>>,
                           ghost rest: seq<Item>)
    returns (r: Option<(Int64, Int64, Int64)>, next: nat)
    requires Behind(bytes, offset, read)
    ensures r.Some? ==> r.value.0 >= 0 && r.value.1 >= 0 && r.value.2 >= 0
                        && Behind(bytes, next, read + [Num(r.value.0), Num(r.value.1), Num(r.value.2)])
    ensures it.Some? && Ahead(bytes, offset, Numbers(it.value) + rest) && it.value.createdAt >= 0
              && it.value.number >= 0 && it.value.finalizedAt >= 0 ==>
              r == Some((it.value.createdAt, it.value.number, it.value.finalizedAt)) && Ahead(bytes, next, rest)
  {
    hide Behind, Ahead;
    ghost var left := if it.Some? then Numbers(it.value) + rest else seq(5, _ => Num(0));
    var created, number, finalized;
    created, next := ReadU64(bytes, offset, read, left);
    if created.None? { return None, next; }
    number, next := ReadU64(bytes, next, read + [Num(created.value)], left[1..]);
    if number.None? { return None, next; }
    finalized, next := ReadU64(bytes, next, read + [Num(created.value)] + [Num(number.value)], left[1..][1..]);
    if finalized.None? || created.value > INT64_MAX || number.value > INT64_MAX || finalized.value > INT64_MAX {
      return None, next;
    }
    assert read + [Num(created.value)] + [Num(number.value)] + [Num(finalized.value)]
           == read + [Num(created.value), Num(number.value), Num(finalized.value)];
    assert it.Some? ==> left[1..][1..][1..] == rest;
    r := Some((created.value, number.value, finalized.value));
  }

  /** Reads a text strictly: decoding and encoding it again must give the same octets. */
  method ReadString<Text(==)>(p: Platform<Text>, bytes: Bytes, offset: nat, ghost read: seq<Item>,
                              ghost it: Option<Text>, ghost rest: seq<Item>)
    returns (r: Option<Text>, next: nat)
    requires Behind(bytes, offset, read)
    ensures r.Some? ==> Behind(bytes, next, read + [Field(p.utf8(r.value))])
    ensures it.Some? && Ahead(bytes, offset, [Field(p.utf8(it.value))] + rest) && TextOk(p, it.value) ==>
              r == it && Ahead(bytes, next, rest)
  {
    hide Behind, Ahead;
    ghost var left := if it.Some? then [Field(p.utf8(it.value))] + rest else seq(5, _ => Num(0));
    var raw;
    raw, next := ReadField(bytes, offset, MAX_TEXT_LENGTH, read, left);
    assert it.Some? ==> left[1..] == rest;
    if raw.None? || p.utf8(p.text(raw.value)) != raw.value {
      return None, next;
    }
    r := Some(p.text(raw.value));
  }

  method ReadTexts<Text(==)>(p: Platform<Text>, bytes: Bytes, offset: nat, ghost read: seq<Item>,
                             ghost it: Option<Manifest<Text>>,
                             ghost rest: seq<Item>)
    returns (r: Option<(Text, Text)>, next: nat)
    requires Behind(bytes, offset, read)
    ensures r.Some? ==> Behind(bytes, next, read + [Field(p.utf8(r.value.0)), Field(p.utf8(r.value.1))])
    ensures it.Some? && Ahead(bytes, offset, Texts(p, it.value) + rest) && TextOk(p, it.value.title)
              && TextOk(p, it.value.message) ==>
              r == Some((it.value.title, it.value.message)) && Ahead(bytes, next, rest)
  {
    hide Behind, Ahead, TextOk;
    ghost var title', message' := if it.Some? then Some(it.value.title) else None, if it.Some?
        then Some(it.value.message) else None;
    ghost var afterTitle := if it.Some? then [Field(p.utf8(it.value.message))] + rest else [];
    assert it.Some? ==> Texts(p, it.value) + rest == [Field(p.utf8(it.value.title))] + afterTitle;
    var title, message;
    title, next := ReadString(p, bytes, offset, read, title', afterTitle);
    if title.None? { return None, next; }
    message, next := ReadString(p, bytes, next, read + [Field(p.utf8(title.value))], message', rest);
    if message.None? { return None, next; }
    assert read + [Field(p.utf8(title.value))] + [Field(p.utf8(message.value))]
           == read + [Field(p.utf8(title.value)), Field(p.utf8(message.value))];
    r := Some((title.value, message.value));
  }

  method ReadDigests<Text>(bytes: Bytes, offset: nat, ghost read: seq<Item>, ghost it: Option<Manifest<Text>>,
                           ghost rest: seq<Item>)
    returns (r: Option<(Bytes, Bytes, Bytes, Bytes)>, next: nat)
    requires Behind(bytes, offset, read)
    ensures r.Some? ==> |r.value.0| == |r.value.1| == |r.value.2| == |r.value.3| == DIGEST_LENGTH
                        && Behind(bytes, next, read + [Raw(r.value.0), Raw(r.value.1), Raw(r.value.2), Raw(r.value.3)])
    ensures it.Some? && Ahead(bytes, offset, Digests(it.value) + rest)
            && |it.value.snapshotHash| == |it.value.historyHash| == |PaddedRoot(it.value)| == |it.value.chainHash|
                 == DIGEST_LENGTH ==>
              r == Some((it.value.snapshotHash, it.value.historyHash, PaddedRoot(it.value), it.value.chainHash))
                && Ahead(bytes, next, rest)
  {
    hide Behind, Ahead, PaddedRoot;
    ghost var left := if it.Some? then Digests(it.value) + rest else seq(5, _ => Num(0));
    var snapshot, history, root, chain;
    snapshot, next := ReadBytes(bytes, offset, DIGEST_LENGTH, read, left);
    if snapshot.None? { return None, next; }
    history, next := ReadBytes(bytes, next, DIGEST_LENGTH, read + [Raw(snapshot.value)], left[1..]);
    if history.None? { return None, next; }
    ghost var had := read + [Raw(snapshot.value)] + [Raw(history.value)];
    root, next := ReadBytes(bytes, next, DIGEST_LENGTH, had, left[1..][1..]);
    if root.None? { return None, next; }
    chain, next := ReadBytes(bytes, next, DIGEST_LENGTH, had + [Raw(root.value)], left[1..][1..][1..]);
    if chain.None? { return None, next; }
    assert had + [Raw(root.value)] + [Raw(chain.value)]
           == read + [Raw(snapshot.value), Raw(history.value), Raw(root.value), Raw(chain.value)];
    assert it.Some? ==> left[1..][1..][1..][1..] == rest;
    r := Some((snapshot.value, history.value, root.value, chain.value));
  }

  lemma {:induction false} FlatParentsLength(parents: seq<Parent>)
    requires forall i | 0 <= i < |parents| :: |parents[i].1| == DIGEST_LENGTH
    ensures |Flat(ParentItems(parents))| == |parents| * (16 + DIGEST_LENGTH)
  {
    if parents != [] {
      FlatParentsLength(parents[1..]);
      var items := ParentItems(parents);
      assert items[1..][1..] == ParentItems(parents[1..]);
      assert Flat(items) == parents[0].0 + Flat(items[1..]) && Flat(items[1..]) == parents[0].1 + Flat(items[1..][1..]);
    }
  }

  method ReadParent(bytes: Bytes, offset: nat, ghost read: seq<Item>, ghost q: Parent, ghost rest: seq<Item>)
    returns (r: Option<Parent>, next: nat)
    requires Behind(bytes, offset, read)
    ensures r.Some? ==> Behind(bytes, next, read + [Raw(r.value.0), Raw(r.value.1)])
    ensures |q.1| == DIGEST_LENGTH && Ahead(bytes, offset, [Raw(q.0), Raw(q.1)] + rest) ==>
              r == Some(q) && Ahead(bytes, next, rest)
  {
    hide Behind, Ahead;
    ghost var left := [Raw(q.0), Raw(q.1)] + rest;
    var id, hash;
    id, next := ReadUuid(bytes, offset, read, left);
    if id.None? { return None, next; }
    hash, next := ReadBytes(bytes, next, DIGEST_LENGTH, read + [Raw(id.value)], left[1..]);
    if hash.None? { return None, next; }
    assert read + [Raw(id.value)] + [Raw(hash.value)] == read + [Raw(id.value), Raw(hash.value)];
    assert left[1..][1..] == rest;
    r := Some((id.value, hash.value));
  }

  ghost predicate ParentsAhead(bytes: Bytes, offset: nat, had: seq<Parent>) {
    && |had| <= MAX_PARENTS && (forall i | 0 <= i < |had| :: |had[i].1| == DIGEST_LENGTH)
    && Ahead(bytes, offset, [Num(|had|)] + ParentItems(had))
  }

  method ReadParents(bytes: Bytes, offset: nat, ghost read: seq<Item>, ghost had: seq<Parent>)
    returns (r: Option<seq<Parent>>, next: nat)
    requires Behind(bytes, offset, read)
    ensures r.Some? ==>
              |r.value| <= MAX_PARENTS
              && Behind(bytes, next, read + ([Num(|r.value|)] + ParentItems(r.value)))
    ensures ParentsAhead(bytes, offset, had) ==> r == Some(had) && next == |bytes|
  {
    hide Ahead, Behind, ParentItems, Flat;
    ghost var left := [Num(|had|)] + ParentItems(had);
    var count;
    count, next := ReadU64(bytes, offset, read, left);
    assert left[1..] == ParentItems(had);
    if ParentsAhead(bytes, offset, had) {
      FlatParentsLength(had);
      AheadLength(bytes, next, ParentItems(had));
    }
    if count.None? || count.value > MAX_PARENTS || next > |bytes|
      || count.value > (|bytes| - next) / (16 + DIGEST_LENGTH) {
      return None, next;
    }
    ghost var base := read + [Num(count.value)];
    r, next := ReadParentList(bytes, next, count.value, base, had, ParentsAhead(bytes, offset, had));
    if r.Some? {
      assert base + ParentItems(r.value) == read + ([Num(|r.value|)] + ParentItems(r.value));
    }
  }

  method ReadParentList(bytes: Bytes, offset: nat, count: nat, ghost base: seq<Item>, ghost had: seq<Parent>,
                        ghost some: bool)
    returns (r: Option<seq<Parent>>, next: nat)
    requires Behind(bytes, offset, base)
    requires some ==> count == |had| && Ahead(bytes, offset, ParentItems(had)) && forall i | 0 <= i < |had| ::
               |had[i].1| == DIGEST_LENGTH
    ensures r.Some? ==> |r.value| == count && Behind(bytes, next, base + ParentItems(r.value))
    ensures some ==> r == Some(had) && next == |bytes|
  {
    hide Ahead, Behind, Flat;
    var parents: seq<Parent> := [];
    next := offset;
    assert base + ParentItems([]) == base;
    assert had[0..] == had;
    for i := 0 to count
      invariant |parents| == i && Behind(bytes, next, base + ParentItems(parents))
      invariant some ==> parents == had[..i] && Ahead(bytes, next, ParentItems(had[i..]))
    {
      ghost var q: Parent, rest: seq<Item> := (NO_ROOT[..16], []), [];
      if some {
        q, rest := had[i], ParentItems(had[i + 1..]);
        assert had[i..][1..] == had[i + 1..] && had[..i + 1] == had[..i] + [q];
      }
      var parent;
      parent, next := ReadParent(bytes, next, base + ParentItems(parents), q, rest);
      if parent.None? { return None, next; }
      ParentItemsAppend(parents, parent.value);
      assert base + ParentItems(parents) + [Raw(parent.value.0), Raw(parent.value.1)]
        == base + ParentItems(parents + [parent.value]);
      parents := parents + [parent.value];
    }
    if some {
      assert had[..|had|] == had && had[|had|..] == [];
      FlatParentsLength(had[|had|..]);
      AheadLength(bytes, next, ParentItems(had[|had|..]));
    }
    r := Some(parents);
  }

  /** Accepts exactly the canonical frames of valid manifests, and returns the manifest. */
  method DecodeRevisionManifest<Text(==,!new)>(p: Platform<Text>, bytes: Bytes) returns (r: Option<Manifest<Text>>)
    ensures r.Some? ==> Encodes(p, r.value) && Frame(p, r.value) == bytes
    ensures forall m | Encodes(p, m) && Frame(p, m) == bytes :: r == Some(m)
  {
    hide *;
    ghost var it: Option<Manifest<Text>> := Hint(p, bytes);
    r := DecodeFrame(p, bytes, it);
    if r.Some? {
      forall m | Encodes(p, m) && Frame(p, m) == bytes
        ensures r == Some(m)
      {
        EncodesValid(p, m);
        EncodesValid(p, r.value);
        FrameInjective(p, m, r.value);
      }
    }
  }

  /** A manifest of which the bytes are the frame, if there is one. */
  ghost function Hint<Text(!new)>(p: Platform<Text>, bytes: Bytes): (it: Option<Manifest<Text>>)
    ensures it.Some? ==> Encodes(p, it.value) && Frame(p, it.value) == bytes
    ensures forall m | Encodes(p, m) && Frame(p, m) == bytes :: it.Some?
  {
    if exists m :: Encodes(p, m) && Frame(p, m) == bytes then
      var m :| Encodes(p, m) && Frame(p, m) == bytes; Some(m)
    else None
  }

  lemma EncodesValid<Text>(p: Platform<Text>, m: Manifest<Text>)
    requires Encodes(p, m)
    ensures Valid(p, m)
  {
  }

  lemma StartOfFrame(bytes: Bytes, whole: seq<Item>)
    ensures Behind(bytes, 0, [])
    ensures Flat(whole) == bytes ==> Ahead(bytes, 0, whole)
  {
    assert bytes[0..] == bytes;
  }

  lemma FrameRead(bytes: Bytes, read: seq<Item>)
    requires Behind(bytes, |bytes|, read)
    ensures Flat(read) == bytes
  {
    assert bytes[..|bytes|] == bytes;
  }

  function ModeItems(objectMode: bool): seq<Item> {
    [Raw(MANIFEST_MAGIC), Raw([if objectMode then 1 else 0])]
  }

  function AfterMode<Text>(p: Platform<Text>, m: Manifest<Text>): seq<Item> {
    Before(p, m) + (Digests(m) + ([Num(|m.parents|)] + ParentItems(m.parents)))
  }

  lemma DecodedItems<Text>(p: Platform<Text>, m: Manifest<Text>)
    requires m.createdAt >= 0 && m.number >= 0 && m.finalizedAt >= 0
    ensures ManifestItems(p, m) ==
            ModeItems(m.objectMode)
            + [Raw(m.project), Raw(m.branch), Raw(m.revision), Raw(m.createdBy), Raw(m.finalizedBy)]
            + [Num(m.createdAt), Num(m.number), Num(m.finalizedAt)] + [Field(p.utf8(m.title)), Field(p.utf8(m.message))]
            + [Raw(m.snapshotHash), Raw(m.historyHash), Raw(PaddedRoot(m)), Raw(m.chainHash)]
            + ([Num(|m.parents|)] + ParentItems(m.parents))
  {
    hide ParentItems, PaddedRoot;
  }

  method DecodeFrame<Text(==)>(p: Platform<Text>, bytes: Bytes, ghost it: Option<Manifest<Text>>)
    returns (r: Option<Manifest<Text>>)
    requires it.Some? ==> Encodes(p, it.value) && Frame(p, it.value) == bytes
    ensures r.Some? ==> Encodes(p, r.value) && Frame(p, r.value) == bytes
    ensures it.Some? ==> r.Some?
  {
    hide Flat, AfterMode, Behind, Ahead, Valid;
    ghost var whole := if it.Some? then ManifestItems(p, it.value) else [Num(0), Num(0)];
    StartOfFrame(bytes, whole);
    assert it.Some? ==> whole[0] == Raw(MANIFEST_MAGIC) && whole[1] == Raw([if it.value.objectMode then 1 else 0]);
    assert it.Some? ==> whole[1..][0] == whole[1] && whole[1..][1..] == AfterMode(p, it.value);
    if |bytes| > MAX_FRAME {
      return None;
    }
    var magic, offset := ReadBytes(bytes, 0, |MANIFEST_MAGIC|, [], whole);
    if magic != Some(MANIFEST_MAGIC) {
      return None;
    }
    ghost var read := [Raw(MANIFEST_MAGIC)];
    assert [] + [Raw(MANIFEST_MAGIC)] == read;
    var mode;
    mode, offset := ReadBytes(bytes, offset, 1, read, whole[1..]);
    if mode.None? || (mode.value[0] != 0 && mode.value[0] != 1) {
      return None;
    }
    read := read + [Raw(mode.value)];
    assert mode.value == [if mode.value[0] == 1 then 1 else 0];
    r := DecodeBody(p, bytes, offset, mode.value[0] == 1, read, it);
  }

  /** The part of the frame after the mode octet. */
  method DecodeBody<Text(==)>(p: Platform<Text>, bytes: Bytes, start: nat, objectMode: bool, ghost head: seq<Item>,
                              ghost it: Option<Manifest<Text>>) returns (r: Option<Manifest<Text>>)
    requires Behind(bytes, start, head) && head == ModeItems(objectMode) && |bytes| <= MAX_FRAME
    requires it.Some? ==>
               Valid(p, it.value) && it.value.objectMode == objectMode
               && Ahead(bytes, start, AfterMode(p, it.value))
    ensures r.Some? ==> Encodes(p, r.value) && Frame(p, r.value) == bytes
    ensures it.Some? ==> r.Some?
  {
    hide Flat, Identity, Numbers, Texts, Digests, ParentItems, Behind, Ahead, IsNull, Unsigned, Preimage, TextOk;
    ghost var tail := if it.Some? then [Num(|it.value.parents|)] + ParentItems(it.value.parents) else [];
    ghost var afterTexts := if it.Some? then Digests(it.value) + tail else [];
    ghost var afterNumbers := if it.Some? then Texts(p, it.value) + afterTexts else [];
    ghost var afterIds := if it.Some? then Numbers(it.value) + afterNumbers else [];
    assert it.Some? ==> AfterMode(p, it.value) == Identity(it.value) + afterIds;
    var ids, times, texts, digests, parents, offset;
    ids, offset := ReadIdentity(bytes, start, head, it, afterIds);
    if ids.None? { return None; }
    ghost var read := head + [Raw(ids.value.0), Raw(ids.value.1), Raw(ids.value.2), Raw(ids.value.3), Raw(ids.value.4)];
    times, offset := ReadNumbers(bytes, offset, read, it, afterNumbers);
    if times.None? { return None; }
    read := read + [Num(times.value.0), Num(times.value.1), Num(times.value.2)];
    texts, offset := ReadTexts(p, bytes, offset, read, it, afterTexts);
    if texts.None? { return None; }
    read := read + [Field(p.utf8(texts.value.0)), Field(p.utf8(texts.value.1))];
    digests, offset := ReadDigests(bytes, offset, read, it, tail);
    if digests.None? { return None; }
    read := read + [Raw(digests.value.0), Raw(digests.value.1), Raw(digests.value.2), Raw(digests.value.3)];
    if !objectMode && digests.value.2 != NO_ROOT {
      return None;
    }
    parents, offset := ReadParents(bytes, offset, read, if it.Some? then it.value.parents else []);
    if parents.None? || offset != |bytes| {
      return None;
    }
    var m := Manifest(ids.value.0, ids.value.1, ids.value.2, ids.value.3, ids.value.4, times.value.0, times.value.1,
                      times.value.2,
                      texts.value.0, texts.value.1, digests.value.0, digests.value.1, if objectMode then digests.value.2
                      else [],
                      digests.value.3, objectMode, parents.value);
    read := read + ([Num(|parents.value|)] + ParentItems(parents.value));
    FrameRead(bytes, read);
    DecodedItems(p, m);
    assert it.Some? ==> m == it.value;
    var ok := CheckValid(p, m);
    r := if ok then Some(m) else None;
  }

  // -------------------------------------------------------------- the chain hash

  function ChainHead<Text>(p: Platform<Text>, m: Manifest<Text>): seq<Item> {
    [Raw(CHAIN_MAGIC)] + Before(p, m) + [Raw(m.snapshotHash), Raw(m.historyHash),
                                         Raw(PaddedRoot(m))] + [Num(|m.parents|)]
  }

  lemma ChainHeadDecides<Text>(p: Platform<Text>, a: Manifest<Text>, b: Manifest<Text>)
    requires MetadataOk(a) && MetadataOk(b) && AllAlike(Before(p, a), Before(p, b)) && |Before(p, a)| == 10
    ensures AllAlike(ChainHead(p, a), ChainHead(p, b))
    ensures ChainHead(p, a) == ChainHead(p, b) ==>
              Before(p, a) == Before(p, b) && a.snapshotHash == b.snapshotHash && a.historyHash == b.historyHash
              && PaddedRoot(a) == PaddedRoot(b) && |a.parents| == |b.parents|
  {
    hide Before, IsNull;
    var x, y := ChainHead(p, a), ChainHead(p, b);
    if x == y {
      assert x[1..11] == Before(p, a) && y[1..11] == Before(p, b);
      assert x[11] == Raw(a.snapshotHash) && x[12] == Raw(a.historyHash) && x[13] == Raw(PaddedRoot(a))
        && x[14] == Num(|a.parents|);
      assert y[11] == Raw(b.snapshotHash) && y[12] == Raw(b.historyHash) && y[13] == Raw(PaddedRoot(b))
        && y[14] == Num(|b.parents|);
    }
  }

  /** The same revision as an opaque one: no object root. */
  function AsOpaque<Text>(m: Manifest<Text>): Manifest<Text> {
    m.(objectMode := false, objectRoot := [])
  }

  /** What is hashed binds every field but one: an all-zero object root is not told from the absence of one. */
  lemma ChainBinds<Text>(p: Platform<Text>, a: Manifest<Text>, b: Manifest<Text>)
    requires Valid(p, a) && Valid(p, b)
    ensures Preimage(p, a) == Preimage(p, b) <==>
              a == b || (AsOpaque(a) == AsOpaque(b) && PaddedRoot(a) == PaddedRoot(b) == NO_ROOT)
  {
    hide Flat, IsNull, TextOk, AllAlike, Identity, Numbers, Texts, ChainHead;
    BeforeAlike(p, a, b);
    BeforeLength(p, a);
    ChainHeadDecides(p, a, b);
    if Preimage(p, a) == Preimage(p, b) {
      assert ChainItems(p, a) == ChainHead(p, a) + ParentItems(a.parents) by { ChainSplit(p, a); }
      assert ChainItems(p, b) == ChainHead(p, b) + ParentItems(b.parents) by { ChainSplit(p, b); }
      FlatAppend(ChainHead(p, a), ParentItems(a.parents));
      FlatAppend(ChainHead(p, b), ParentItems(b.parents));
      FlatInjective(ChainHead(p, a), ChainHead(p, b), Flat(ParentItems(a.parents)), Flat(ParentItems(b.parents)));
      SameParents(a.parents, b.parents);
    }
    if AsOpaque(a) == AsOpaque(b) {
      SameBefore(p, a, b);
    }
  }

  lemma ChainSplit<Text>(p: Platform<Text>, m: Manifest<Text>)
    ensures ChainItems(p, m) == ChainHead(p, m) + ParentItems(m.parents)
  {
    hide Before, ParentItems, PaddedRoot;
  }

  lemma SameBefore<Text>(p: Platform<Text>, a: Manifest<Text>, b: Manifest<Text>)
    requires AsOpaque(a) == AsOpaque(b)
    ensures Before(p, a) == Before(p, b)
  {
    hide Unsigned;
  }

  /** The one ambiguity is real: both readings of an all-zero root are valid under one chain hash. */
  lemma ModeNotBound<Text>(p: Platform<Text>, m: Manifest<Text>)
    requires Valid(p, m) && m.objectMode
    ensures Valid(p, AsOpaque(m)) <==> p.sha(Preimage(p, AsOpaque(m))) == p.sha(Preimage(p, m))
    ensures m.objectRoot == NO_ROOT ==> Valid(p, AsOpaque(m)) && AsOpaque(m) != m
  {
    hide Flat, IsNull, TextOk, ParentsOk;
    SameBefore(p, m, AsOpaque(m));
  }
}
