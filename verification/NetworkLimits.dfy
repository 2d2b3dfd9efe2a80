/** What the reader's limits do to saved networks: writers do not check them. */
module NetworkLimits {
  import opened Prelude
  import opened Uuid
  import opened ModelRecord
  import opened Journal
  import opened UndoHistory
  import opened WorkingObjects
  import opened NetworkRecords
  import opened NetworkSave
  import opened RetiredMembers
  import RevisionSeal

  /** Where all roots could be rebuilt, they still can after a save exactly if the reader accepts the saved network. */
  lemma SaveRebuildable<Meta(!new),
      Entity(!new)>(c: NetworkRecords.Codec<Meta, Entity>, net: Network<Meta, Entity>, rows: Rows, after: Rows,
                                                  owner: Owners, had: set<Uuid>)
    requires Lawful(c) && |net.lists| == |c.kinds| && Buildable(c, net)
    requires Registered(c, rows, owner) && FormerMembers(c, rows, net.id) == Some(had) && Rebuildable(c, rows)
    requires Compatible(rows, owner, net.id, had, Records(c, net)) && Stored(rows, after, had, Records(c, net))
    ensures Rebuildable(c, after) <==> ReadsBack(c, net)
  {
    hide Lawful, Buildable, Registered, Compatible, IndexAt, NetworkAt, Referenced, IndexOf, ReadsBack, Stored,
      AllItems, Records;
    StoredReadsBack(c, net, rows, after, had);
    SavedRoot(c, net, rows, after, had);
    if ReadsBack(c, net) {
      RecordKinds(c, net);
      forall m | m != net.id
        ensures IndexAt(c, after, m) == IndexAt(c, rows, m) && NetworkAt(c, after, m) == NetworkAt(c, rows, m)
        ensures IsRoot(after, m) ==> IsRoot(rows, m)
        ensures Apart(c, after, net.id, m) && Apart(c, after, m, net.id)
      {
        OtherRoot(c, net, rows, after, had, m);
        RecordRoots(c, net);
        OthersStay(c, rows, after, owner, net.id, had, Records(c, net), m);
        MembersApart(c, net, rows, after, owner, had, m);
      }
      forall n, m | IsRoot(after, n) && IsRoot(after, m) && n != m
        ensures Apart(c, after, n, m)
      {
        if n != net.id && m != net.id { assert Apart(c, rows, n, m); }
      }
    }
  }

  lemma SavedRoot<Meta(!new), Entity(!new)>(c: NetworkRecords.Codec<Meta, Entity>, net: Network<Meta, Entity>,
                                            rows: Rows, after: Rows,
                                            had: set<Uuid>)
    requires |net.lists| == |c.kinds| && Buildable(c, net) && Stored(rows, after, had, Records(c, net))
    ensures IsRoot(after, net.id)
  {
    hide AllItems, DistinctItems, IsNull;
    var records := Records(c, net);
    assert records[0].id == net.id && Writable(records[0]);
  }

  /** A save makes no other roots. */
  lemma OtherRoot<Meta(!new), Entity(!new)>(c: NetworkRecords.Codec<Meta, Entity>, net: Network<Meta, Entity>,
                                            rows: Rows, after: Rows,
                                            had: set<Uuid>, m: Uuid)
    requires Lawful(c) && |net.lists| == |c.kinds| && Stored(rows, after, had, Records(c, net)) && m != net.id
    ensures IsRoot(after, m) ==> IsRoot(rows, m)
  {
    hide Lawful, Records;
    RecordRoots(c, net);
    if m in IdsOf(Records(c, net)) {
      var i :| 0 <= i < |Records(c, net)| && Records(c, net)[i].id == m;
    } else if m !in had {
      assert Get(after, m) == Get(rows, m);
    }
  }

  /** The saved members belong to no other network. */
  lemma MembersApart<Meta(!new),
      Entity(!new)>(c: NetworkRecords.Codec<Meta, Entity>, net: Network<Meta, Entity>, rows: Rows, after: Rows,
                                               owner: Owners, had: set<Uuid>, m: Uuid)
    requires Lawful(c) && |net.lists| == |c.kinds| && Buildable(c, net) && m != net.id && ReadsBack(c, net)
    requires Registered(c, rows, owner) && Compatible(rows, owner, net.id, had, Records(c, net))
               && Stored(rows, after, had, Records(c, net))
    requires IndexAt(c, after, m) == IndexAt(c, rows, m)
    ensures Apart(c, after, net.id, m) && Apart(c, after, m, net.id)
  {
    hide Lawful, Buildable, IndexAt, Referenced, IndexOf, Stored, Records, Takes, Droppable, OwnersLive, OwnedListed,
      NetworkAt;
    StoredReadsBack(c, net, rows, after, had);
    MembersAre(c, net);
    assert MembersOwned(c, rows, owner, m);
  }

  /** A live root that the reader refuses. */
  ghost predicate Blocked<Meta, Entity>(c: NetworkRecords.Codec<Meta, Entity>, rows: Rows, n: Uuid) {
    IsRoot(rows, n) && IndexAt(c, rows, n).None?
  }

  /** After a save the root is refused exactly if it is beyond the reader's limits. */
  lemma SavedBlocked<Meta(!new), Entity(!new)>(c: NetworkRecords.Codec<Meta, Entity>, net: Network<Meta, Entity>,
                                               rows: Rows, after: Rows, had: set<Uuid>)
    requires Lawful(c) && |net.lists| == |c.kinds| && Buildable(c, net) && Stored(rows, after, had, Records(c, net))
    ensures Blocked(c, after, net.id) <==> !IndexReads(c, IndexOf(c, net))
    ensures FormerMembers(c, after, net.id).None? <==> !IndexReads(c, IndexOf(c, net))
  {
    hide Lawful, Buildable, IndexAt, Referenced, IndexOf, Stored, Records, NetworkAt;
    StoredReadsBack(c, net, rows, after, had);
    SavedRoot(c, net, rows, after, had);
  }

  /** A save that goes through is of another network, and leaves a refused root as it is. */
  lemma BlockedStays<Meta(!new), Entity(!new)>(c: NetworkRecords.Codec<Meta, Entity>, net: Network<Meta, Entity>,
                                               rows: Rows, owner: Owners, after: Rows, owner': Owners, n: Uuid)
    requires Lawful(c) && Registered(c, rows, owner) && SaveStep(c, net, rows, owner, after, owner')
    requires Blocked(c, rows, n)
    ensures net.id != n && Blocked(c, after, n)
  {
    hide Lawful, Registered, Buildable, Compatible, Stored, Handed, IndexOf, Referenced, Records, IndexAt, NetworkAt;
    var had := FormerMembers(c, rows, net.id).value;
    RecordRoots(c, net);
    OthersKept(c, rows, after, owner, net.id, had, Records(c, net));
    OthersStay(c, rows, after, owner, net.id, had, Records(c, net), n);
  }

  /**
   In any run of saves, of this network or of others, that starts by writing a root
   beyond the reader's limits, the head cannot be rebuilt and no later save of that
   network goes through.
   */
  lemma {:induction false} UnreadableBlocks<Meta(!new), Entity(!new)>(c: NetworkRecords.Codec<Meta, Entity>,
                                                                      nets: seq<Network<Meta, Entity>>,
                                                                      states: seq<(Rows, Owners)>, i: nat)
    requires Lawful(c) && SaveRun(c, nets, states) && Registered(c, states[0].0, states[0].1) && 0 < i < |states|
    requires !IndexReads(c, IndexOf(c, nets[0]))
    ensures Registered(c, states[i].0, states[i].1) && Blocked(c, states[i].0, nets[0].id)
    ensures !Rebuildable(c, states[i].0) && (i < |nets| ==> nets[i].id != nets[0].id)
  {
    hide Lawful, Registered, IdsOf, Records, FormerMembers, IndexReads, IndexOf, IndexAt, Buildable, Stored;
    var j := i - 1;
    assert SaveStep(c, nets[j], states[j].0, states[j].1, states[i].0, states[i].1);
    if i == 1 {
      SavedBlocked(c, nets[0], states[0].0, states[1].0, FormerMembers(c, states[0].0, nets[0].id).value);
    } else {
      UnreadableBlocks(c, nets, states, j);
      BlockedStays(c, nets[j], states[j].0, states[j].1, states[i].0, states[i].1, nets[0].id);
    }
    StepRegistered(c, nets[j], states[j].0, states[j].1, states[i].0, states[i].1);
    if i < |nets| {
      assert SaveStep(c, nets[i], states[i].0, states[i].1, states[i + 1].0, states[i + 1].1);
      BlockedStays(c, nets[i], states[i].0, states[i].1, states[i + 1].0, states[i + 1].1, nets[0].id);
    }
  }

  // ------------------------------------------------------------ two networks that cannot be read

  /** A pattern is an identifier and a list of one-byte multipliers. */
  datatype Pattern = Pattern(id: Uuid, multipliers: Bytes)

  // "hydraulic.pattern_time"
  const PATTERN_KIND: Bytes := [104, 121, 100, 114, 97, 117, 108, 105, 99, 46, 112, 97, 116, 116, 101, 114, 110, 95,
                                116, 105, 109, 101]

  function FlatIds(ids: seq<Uuid>): (b: Bytes)
    ensures |b| == 16 * |ids|
  {
    if ids == [] then [] else ids[0] + FlatIds(ids[1..])
  }

  function CutIds(b: Bytes): (ids: seq<Uuid>)
    requires |b| % 16 == 0
  {
    if b == [] then [] else [b[..16]] + CutIds(b[16..])
  }

  lemma {:induction false} CutFlat(ids: seq<Uuid>)
    ensures CutIds(FlatIds(ids)) == ids
  {
    if ids != [] {
      var b := FlatIds(ids);
      assert b[..16] == ids[0] && b[16..] == FlatIds(ids[1..]);
      CutFlat(ids[1..]);
    }
  }

  function EncodePattern(k: nat, p: Pattern): Bytes {
    p.id + p.multipliers
  }

  function DecodePattern(k: nat, b: Bytes): Option<Pattern> {
    if |b| < 16 || |b| > MAX_CONTENT || |b| - 16 > MAX_LIST then None else Some(Pattern(b[..16], b[16..]))
  }

  /** A root has members or metadata, not both. */
  function EncodeRoot(i: Index<Bytes>): Bytes {
    if |i.lists| != 1 then []
    else if i.meta == [] then [1] + i.id + FlatIds(i.lists[0])
    else if i.lists[0] == [] then [2] + i.id + i.meta
    else []
  }

  function DecodeRoot(b: Bytes): Option<Index<Bytes>> {
    if |b| < 17 || |b| > MAX_INDEX then None
    else if b[0] == 1 && |b[17..]| % 16 == 0 then Some(Index(b[1..17], [], [CutIds(b[17..])]))
    else if b[0] == 2 then Some(Index(b[1..17], b[17..], [[]]))
    else None
  }

  /** A small codec with the limits of the reader. */
  function PatternCodec(): NetworkRecords.Codec<Bytes, Pattern> {
    NetworkRecords.Codec([PATTERN_KIND], (p: Pattern) => p.id, EncodePattern, DecodePattern, EncodeRoot, DecodeRoot,
                         (p: Pattern) => |p.multipliers|, (m: Bytes) => 0)
  }

  lemma RootReadsBack(i: Index<Bytes>)
    requires |i.lists| == 1 && EncodeRoot(i) != []
    ensures DecodeRoot(EncodeRoot(i)) == if |EncodeRoot(i)| <= MAX_INDEX then Some(i) else None
  {
    var b := EncodeRoot(i);
    assert b[1..17] == i.id;
    CutFlat(i.lists[0]);
    if i.meta == [] {
      assert b[17..] == FlatIds(i.lists[0]);
      assert i.lists == [i.lists[0]];
    } else {
      assert b[17..] == i.meta;
      assert i.lists == [[]];
    }
  }

  lemma PatternLawful()
    ensures Lawful(PatternCodec())
  {
    var c := PatternCodec();
    assert |PATTERN_KIND| != |ROOT_KIND|;
    forall k: nat, e: Pattern | k < |c.kinds| && c.encode(k, e) != []
      ensures c.decode(k, c.encode(k, e)) == if EntityReads(c, k, e) then Some(e) else None
    {
      var b := EncodePattern(k, e);
      assert b[..16] == e.id && b[16..] == e.multipliers;
    }
    forall i: Index<Bytes> | |i.lists| == |c.kinds| && c.encodeIndex(i) != []
      ensures c.decodeIndex(c.encodeIndex(i)) == if IndexReads(c, i) then Some(i) else None
    {
      RootReadsBack(i);
    }
  }

  const NETWORK_ID: Uuid := [1, 0, 0, 0, 0, 0, 0, 0, 0, 0, 0, 0, 0, 0, 0, 0]
  const PATTERN_ID: Uuid := [2, 0, 0, 0, 0, 0, 0, 0, 0, 0, 0, 0, 0, 0, 0, 0]

  /** One pattern with one multiplier too many. */
  function LongPattern(): Network<Bytes, Pattern> {
    Network(NETWORK_ID, [], [[Pattern(PATTERN_ID, seq(MAX_LIST + 1, _ => 0))]])
  }

  /** Metadata as long as a whole root may be. */
  function LongRoot(): Network<Bytes, Pattern> {
    Network(NETWORK_ID, seq(MAX_INDEX, _ => 0), [[]])
  }

  lemma TheRecords(net: Network<Bytes, Pattern>)
    requires |net.lists| == 1
    ensures var c := PatternCodec();
      Records(c, net) == [Item(net.id, ROOT_KIND, Some(EncodeRoot(IndexOf(c, net))))] + ListItems(c, 0, net.lists[0])
  {
    var c, list := PatternCodec(), net.lists[0];
    assert net.lists[..0] == [];
    assert AllItems(c, net.lists[..0]) == [];
    assert AllItems(c, net.lists) == ListItems(c, 0, list);
  }

  lemma TwoRecords(net: Network<Bytes, Pattern>)
    requires net == LongPattern() || net == LongRoot()
    ensures var c, records := PatternCodec(), Records(PatternCodec(), net);
      && Buildable(c, net) && forall i | 0 <= i < |records| :: ValidKind(records[i].kind)
  {
    hide IndexOf, Flatten, Records, EncodeRoot;
    TheRecords(net);
    RootLength(net);
    assert NETWORK_ID[0] == 1 && PATTERN_ID[0] == 2;
    KindsLegal();
    var records := Records(PatternCodec(), net);
    assert |records| <= 2 && records[0].id == NETWORK_ID && Writable(records[0]);
    assert |records| == 2 ==> records[1].id == PATTERN_ID && Writable(records[1]);
  }

  lemma KindsLegal()
    ensures ValidKind(ROOT_KIND) && ValidKind(PATTERN_KIND)
  {}

  /** Neither network reads back: one for its entity, the other for its root. */
  lemma TooLong(net: Network<Bytes, Pattern>)
    requires net == LongPattern() || net == LongRoot()
    ensures var c := PatternCodec(); !ReadsBack(c, net) && (IndexReads(c, IndexOf(c, net)) <==> net == LongPattern())
  {
    hide IndexOf, EncodeRoot;
    RootLength(net);
    if net == LongPattern() {
      assert !EntityReads(PatternCodec(), 0, net.lists[0][0]);
    }
  }

  lemma RootLength(net: Network<Bytes, Pattern>)
    requires net == LongPattern() || net == LongRoot()
    ensures var b := EncodeRoot(IndexOf(PatternCodec(), net));
      b != [] && (|b| <= MAX_INDEX <==> net == LongPattern())
  {
    var c := PatternCodec();
    assert |IndexOf(c, net).lists[0]| == |net.lists[0]|;
  }

  /** What is written to nothing are the records. */
  lemma WrittenKinds(records: seq<Item>)
    requires Stored(map[], TouchAll(map[], records), {}, records) && forall i | 0 <= i < |records| ::
               ValidKind(records[i].kind)
    ensures forall u | u in TouchAll(map[], records) :: ValidKind(TouchAll(map[], records)[u].kind)
  {
    hide ValidKind, TouchAll;
    var rows := TouchAll(map[], records);
    forall u | u in rows
      ensures ValidKind(rows[u].kind)
    {
      assert u !in IdsOf(records) ==> Get(rows, u) == Get(map[], u);
      var i :| 0 <= i < |records| && records[i].id == u;
    }
  }

  /** Either network is built and fits an empty head; what is stored has legal kinds, does not load, and cannot be
      rebuilt. */
  lemma SavedButUnreadable(net: Network<Bytes, Pattern>)
    requires net == LongPattern() || net == LongRoot()
    ensures var c := PatternCodec();
      && Lawful(c) && |net.lists| == |c.kinds| && Buildable(c, net)
      && FormerMembers(c, map[], net.id) == Some({}) && Compatible(map[], map[], net.id, {}, Records(c, net))
      && var rows := TouchAll(map[], Records(c, net));
         && Stored(map[], rows, {}, Records(c, net))
         && RevisionSeal.LegalKinds(rows)
         && NetworkAt(c, rows, net.id).None? && !Rebuildable(c, rows)
         && (FormerMembers(c, rows, net.id).None? <==> net == LongRoot())
  {
    hide Lawful, Buildable, Compatible, Stored, TouchAll, Records, NetworkAt, ReadsBack, IndexReads, IndexOf;
    var c := PatternCodec();
    PatternLawful();
    TwoRecords(net);
    TooLong(net);
    BuiltRecords(c, net);
    FreshPlan(map[], map[], net.id, Records(c, net));
    var rows := TouchAll(map[], Records(c, net));
    WrittenKinds(Records(c, net));
    StoredReadsBack(c, net, map[], rows, {});
    SavedRoot(c, net, map[], rows, {});
    SavedBlocked(c, net, map[], rows, {});
  }
}
