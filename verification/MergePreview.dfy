/** The three-way comparison of two revisions with their merge base. */
module MergePreview {
  import opened Prelude
  import opened Uuid
  import opened ContentStore
  import opened FieldMerge
  import opened ThreeWayMerge
  import opened MergeCursor
  import opened MergeLaws
  import RevisionSeal
  import SortedRange
  import TreeStore
  import TreeDiff
  import M = ModelRecord

  const MAX_SIZE: nat := 0x7fff_ffff_ffff_ffff
  const CANDIDATES: nat := 4096

  /** An id that some side holds live. */
  predicate HeldSomewhere(b: M.Rows, l: M.Rows, r: M.Rows, id: Uuid) {
    (id in b && Live(b[id])) || (id in l && Live(l[id])) || (id in r && Live(r[id]))
  }

  // ---------------------------------------------------------------- fast path

  datatype Candidates = Complete(ids: set<Uuid>) | Overflow | Failed

  function KeysOf(list: seq<TreeDiff.Difference>): set<Uuid> {
    set d | d in list :: d.key
  }

  /** Takes a difference while there is room; a repeated key needs none. */
  function Collector(taken: set<Uuid>, limit: nat): TreeDiff.Visitor {
    (seen: seq<TreeDiff.Difference>, d: TreeDiff.Difference) => d.key in taken + KeysOf(seen)
      || |taken + KeysOf(seen)| < limit
  }

  /** All three roots are readable snapshots of these objects. */
  ghost predicate AllStand(h: Hash, rows: Rows, base: Bytes, left: Bytes, right: Bytes, b: M.Rows, l: M.Rows,
                           r: M.Rows) {
    Stands(h, rows, SealedTip(base), b) && Stands(h, rows, SealedTip(left), l) && Stands(h, rows, SealedTip(right), r)
  }

  /** The map a readable snapshot's root denotes. */
  ghost function MapOf(h: Hash, rows: Rows, root: Bytes, objects: M.Rows): (m: map<Key, Bytes>)
    requires Stands(h, rows, SealedTip(root), objects)
    ensures TreeStore.DenotesMap(h, rows, root, m) && RevisionSeal.Seals(h, objects, m)
  {
    var m: map<Key, Bytes> :| TreeStore.DenotesMap(h, rows, root, m) && RevisionSeal.Seals(h, objects, m);
    m
  }

  /** A tip holds another digest than the base under the object's key. */
  ghost predicate DiffersFrom(h: Hash, rows: Rows, base: Bytes, left: Bytes, right: Bytes, b: M.Rows, l: M.Rows,
                              r: M.Rows, u: Uuid)
    requires AllStand(h, rows, base, left, right, b, l, r)
  {
    var inBase := Get(MapOf(h, rows, base, b), Unpack(u));
    inBase != Get(MapOf(h, rows, left, l), Unpack(u)) || inBase != Get(MapOf(h, rows, right, r), Unpack(u))
  }

  /** More than `limit` keys differ. */
  ghost predicate ManyDiffer(h: Hash, rows: Rows, base: Bytes, left: Bytes, right: Bytes, b: M.Rows, l: M.Rows,
                             r: M.Rows, limit: nat)
    requires AllStand(h, rows, base, left, right, b, l, r)
  {
    exists ids: set<Uuid> :: |ids| > limit && forall u | u in ids :: DiffersFrom(h, rows, base, left, right, b, l, r, u)
  }

  lemma Differs(h: Hash, rows: Rows, base: Bytes, left: Bytes, right: Bytes, b: M.Rows, l: M.Rows, r: M.Rows, u: Uuid)
    requires AllStand(h, rows, base, left, right, b, l, r)
    ensures DiffersFrom(h, rows, base, left, right, b, l, r, u) <==>
              Get(MapOf(h, rows, base, b), Unpack(u)) != Get(MapOf(h, rows, left, l), Unpack(u))
              || Get(MapOf(h, rows, base, b), Unpack(u)) != Get(MapOf(h, rows, right, r), Unpack(u))
  {
    hide MapOf, Stands, Unpack;
  }

  lemma TooMany(h: Hash, rows: Rows, base: Bytes, left: Bytes, right: Bytes, b: M.Rows, l: M.Rows, r: M.Rows,
                limit: nat, ids: set<Uuid>)
    requires AllStand(h, rows, base, left, right, b, l, r) && |ids| > limit
    requires forall u | u in ids ::
               Get(MapOf(h, rows, base, b), Unpack(u)) != Get(MapOf(h, rows, left, l), Unpack(u))
               || Get(MapOf(h, rows, base, b), Unpack(u)) != Get(MapOf(h, rows, right, r), Unpack(u))
    ensures ManyDiffer(h, rows, base, left, right, b, l, r, limit)
  {
    hide MapOf, Stands, Unpack;
    assert forall u | u in ids :: DiffersFrom(h, rows, base, left, right, b, l, r, u);
  }

  /** The keys on which either tip differs from the base, unless there are too many. */
  method FindCandidates(db: Store, base: Bytes, left: Bytes, right: Bytes, limit: nat,
                        ghost b: M.Rows, ghost l: M.Rows, ghost r: M.Rows) returns (c: Candidates)
    ensures AllStand(db.hash, db.rows, base, left, right, b, l, r) ==>
              && !c.Failed?
              && (c.Complete? ==> forall u | Changed(ModelOf(b), ModelOf(l), ModelOf(r), u) :: u in c.ids)
              && (c.Complete? ==> forall u :: u in c.ids <==>
                  DiffersFrom(db.hash, db.rows, base, left, right, b, l, r, u))
              && (c.Overflow? ==> ManyDiffer(db.hash, db.rows, base, left, right, b, l, r, limit))
  {
    hide TreeStore.DenotesMap, RevisionSeal.Seals, Stands, TreeDiff.IsDiff, Changed, MapOf, DiffersFrom, ManyDiffer,
      Less;
    ghost var sound := AllStand(db.hash, db.rows, base, left, right, b, l, r);
    var ok, out, stop := TreeDiff.Diff(db, base, left, Collector({}, limit));
    assert sound ==> TreeDiff.IsDiff(out, MapOf(db.hash, db.rows, base, b), MapOf(db.hash, db.rows, left, l), stop);
    if !ok {
      if stop.Some? && sound {
        LeftOverflow(db.hash, db.rows, base, left, right, b, l, r, limit, out, stop.value);
      }
      return if stop.Some? then Overflow else Failed;
    }
    var first := KeysOf(out);
    ghost var leftOut := out;
    ok, out, stop := TreeDiff.Diff(db, base, right, Collector(first, limit));
    assert sound ==> TreeDiff.IsDiff(out, MapOf(db.hash, db.rows, base, b), MapOf(db.hash, db.rows, right, r), stop);
    if !ok {
      if stop.Some? && sound {
        RightOverflow(db.hash, db.rows, base, left, right, b, l, r, limit, leftOut, out, stop.value);
      }
      return if stop.Some? then Overflow else Failed;
    }
    c := Complete(first + KeysOf(out));
    if sound {
      CandidatesExact(db.hash, db.rows, base, left, right, b, l, r, leftOut, out);
    }
  }

  lemma LeftOverflow(h: Hash, rows: Rows, base: Bytes, left: Bytes, right: Bytes, b: M.Rows, l: M.Rows, r: M.Rows,
                     limit: nat,
                     out: seq<TreeDiff.Difference>, stop: TreeDiff.Difference)
    requires AllStand(h, rows, base, left, right, b, l, r) && !Collector({}, limit)(out, stop)
    requires TreeDiff.IsDiff(out, MapOf(h, rows, base, b), MapOf(h, rows, left, l), Some(stop))
    ensures ManyDiffer(h, rows, base, left, right, b, l, r, limit)
  {
    hide MapOf, Stands, Unpack, TreeDiff.IsDiff, KeysOf;
    KeysDiffer(out, MapOf(h, rows, base, b), MapOf(h, rows, left, l), Some(stop));
    TooMany(h, rows, base, left, right, b, l, r, limit, KeysOf(out) + {stop.key});
  }

  lemma RightOverflow(h: Hash, rows: Rows, base: Bytes, left: Bytes, right: Bytes, b: M.Rows, l: M.Rows, r: M.Rows,
                      limit: nat,
                      leftOut: seq<TreeDiff.Difference>, out: seq<TreeDiff.Difference>, stop: TreeDiff.Difference)
    requires AllStand(h, rows, base, left, right, b, l, r) && !Collector(KeysOf(leftOut), limit)(out, stop)
    requires TreeDiff.IsDiff(leftOut, MapOf(h, rows, base, b), MapOf(h, rows, left, l), None)
    requires TreeDiff.IsDiff(out, MapOf(h, rows, base, b), MapOf(h, rows, right, r), Some(stop))
    ensures ManyDiffer(h, rows, base, left, right, b, l, r, limit)
  {
    hide MapOf, Stands, Unpack, TreeDiff.IsDiff, KeysOf;
    KeysDiffer(leftOut, MapOf(h, rows, base, b), MapOf(h, rows, left, l), None);
    KeysDiffer(out, MapOf(h, rows, base, b), MapOf(h, rows, right, r), Some(stop));
    TooMany(h, rows, base, left, right, b, l, r, limit, KeysOf(leftOut) + KeysOf(out) + {stop.key});
  }

  lemma CandidatesExact(h: Hash, rows: Rows, base: Bytes, left: Bytes, right: Bytes, b: M.Rows, l: M.Rows, r: M.Rows,
                        leftOut: seq<TreeDiff.Difference>, out: seq<TreeDiff.Difference>)
    requires AllStand(h, rows, base, left, right, b, l, r)
    requires TreeDiff.IsDiff(leftOut, MapOf(h, rows, base, b), MapOf(h, rows, left, l), None)
    requires TreeDiff.IsDiff(out, MapOf(h, rows, base, b), MapOf(h, rows, right, r), None)
    ensures forall u :: u in KeysOf(leftOut) + KeysOf(out) <==> DiffersFrom(h, rows, base, left, right, b, l, r, u)
    ensures forall u | Changed(ModelOf(b), ModelOf(l), ModelOf(r), u) :: u in KeysOf(leftOut) + KeysOf(out)
  {
    hide MapOf, Stands, Unpack, TreeDiff.IsDiff, KeysOf, Changed, DiffersFrom;
    forall u
      ensures u in KeysOf(leftOut) + KeysOf(out) <==> DiffersFrom(h, rows, base, left, right, b, l, r, u)
      ensures Changed(ModelOf(b), ModelOf(l), ModelOf(r), u) ==> u in KeysOf(leftOut) + KeysOf(out)
    {
      KeysExact(leftOut, MapOf(h, rows, base, b), MapOf(h, rows, left, l), u);
      KeysExact(out, MapOf(h, rows, base, b), MapOf(h, rows, right, r), u);
      Differs(h, rows, base, left, right, b, l, r, u);
      UnchangedKey(h, rows, base, left, right, b, l, r, u);
    }
  }

  /** Every collected key, and the one that did not fit, is a true difference. */
  lemma KeysDiffer(list: seq<TreeDiff.Difference>, m: map<Key, Bytes>, m': map<Key, Bytes>,
                   stop: Option<TreeDiff.Difference>)
    requires TreeDiff.IsDiff(list, m, m', stop)
    ensures forall u | u in KeysOf(list) :: Get(m, Unpack(u)) != Get(m', Unpack(u))
    ensures stop.Some? ==> Get(m, Unpack(stop.value.key)) != Get(m', Unpack(stop.value.key))
  {
    hide Unpack, Less;
    forall u | u in KeysOf(list)
      ensures Get(m, Unpack(u)) != Get(m', Unpack(u))
    {
      var d :| d in list && d.key == u;
      var i :| 0 <= i < |list| && list[i] == d;
      assert TreeDiff.IsDifference(list[i], m, m');
    }
  }

  lemma KeysExact(list: seq<TreeDiff.Difference>, m: map<Key, Bytes>, m': map<Key, Bytes>, u: Uuid)
    requires TreeDiff.IsDiff(list, m, m', None)
    ensures u in KeysOf(list) <==> Get(m, Unpack(u)) != Get(m', Unpack(u))
  {
    hide Unpack, Less;
    if u in KeysOf(list) {
      var d :| d in list && d.key == u;
      var i :| 0 <= i < |list| && list[i] == d;
      assert TreeDiff.IsDifference(list[i], m, m');
    }
    if Get(m, Unpack(u)) != Get(m', Unpack(u)) {
      assert TreeDiff.Mentions(list, Unpack(u));
      var i :| 0 <= i < |list| && Unpack(list[i].key) == Unpack(u);
      UnpackInjective(list[i].key, u);
      assert list[i] in list;
    }
  }

  /** Equal digests under a key mean equal rows: version and tombstone included. */
  lemma SameDigestSameRow(h: Hash, rows: Rows, a: M.Rows, c: M.Rows, u: Uuid)
    requires RevisionSeal.Kept(h, rows, a) && RevisionSeal.AllTabled(a) && RevisionSeal.LegalKinds(a)
    requires RevisionSeal.Kept(h, rows, c) && RevisionSeal.AllTabled(c) && RevisionSeal.LegalKinds(c)
    requires RevisionSeal.Sealed(h, a, u) == RevisionSeal.Sealed(h, c, u)
    ensures Get(a, u) == Get(c, u)
  {
    hide M.Record, M.ValidKind, M.Tabled;
    if u in a && u in c {
      M.ReadBack(a[u]);
      M.ReadBack(c[u]);
      M.RecordInjective(a[u], c[u]);
    }
  }

  /** An object whose key holds one digest in all three trees did not change. */
  lemma UnchangedKey(h: Hash, rows: Rows, base: Bytes, left: Bytes, right: Bytes, b: M.Rows, l: M.Rows, r: M.Rows,
                     u: Uuid)
    requires AllStand(h, rows, base, left, right, b, l, r)
    ensures var inBase := Get(MapOf(h, rows, base, b), Unpack(u));
      (inBase == Get(MapOf(h, rows, left, l), Unpack(u)) && inBase == Get(MapOf(h, rows, right, r), Unpack(u)))
      ==> !Changed(ModelOf(b), ModelOf(l), ModelOf(r), u)
  {
    hide TreeStore.DenotesMap, Unpack, RevisionSeal.Sealed, RevisionSeal.Kept, RevisionSeal.AllTabled,
      RevisionSeal.LegalKinds, MapOf, Changed, ModelOf;
    var mb, ml, mr := MapOf(h, rows, base, b), MapOf(h, rows, left, l), MapOf(h, rows, right, r);
    assert Get(mb, Unpack(u)) == RevisionSeal.Sealed(h, b, u);
    assert Get(ml, Unpack(u)) == RevisionSeal.Sealed(h, l, u);
    assert Get(mr, Unpack(u)) == RevisionSeal.Sealed(h, r, u);
    if Get(mb, Unpack(u)) == Get(ml, Unpack(u)) == Get(mr, Unpack(u)) {
      SameDigestSameRow(h, rows, b, l, u);
      SameDigestSameRow(h, rows, b, r, u);
      SameRowsSameContent(b, l, r, u);
    }
  }

  lemma SameRowsSameContent(b: M.Rows, l: M.Rows, r: M.Rows, u: Uuid)
    requires Get(b, u) == Get(l, u) == Get(r, u)
    ensures !Changed(ModelOf(b), ModelOf(l), ModelOf(r), u)
  {}

  // ------------------------------------------------------------------- the walk

  function ObjectOf(f: Option<Found>): Option<Object> {
    if f.None? || f.value.row.content.None? then None
    else Some(Object(f.value.row.kind, f.value.row.content.value, f.value.row.version))
  }

  type Found = RevisionSeal.Found

  /** The least of the three current objects. */
  function LeastId(b: Option<Found>, l: Option<Found>, r: Option<Found>): (id: Option<Uuid>)
    ensures id.None? <==> b.None? && l.None? && r.None?
  {
    Lesser(Lesser(Lesser(None, b), l), r)
  }

  function Lesser(id: Option<Uuid>, f: Option<Found>): (r: Option<Uuid>)
    ensures r.None? <==> id.None? && f.None?
  {
    if f.None? then id else if id.None? || Less(f.value.id, id.value) then Some(f.value.id) else id
  }

  method ClassifyChange(codec: Codec, id: Uuid, base: Option<Object>, left: Option<Object>, right: Option<Object>)
    returns (c: MergeChange)
    requires AllLawful(codec) && (!SameContent(base, left) || !SameContent(base, right))
    ensures c == Classified(codec, id, base, left, right)
  {
    hide AllLawful, FieldMergeOf;
    var kind := Conflict;
    if SameContent(base, left) {
      kind := RightOnly;
    } else if SameContent(base, right) {
      kind := LeftOnly;
    } else if SameContent(left, right) {
      kind := BothSame;
    }
    c := MergeChange(id, kind, base, left, right, [], None);
    if kind.Conflict? && base.Some? && left.Some? && right.Some?
       && base.value.kind == left.value.kind && left.value.kind == right.value.kind {
      var fields := MergeModelFields(codec, id, left.value.kind, base.value.content, left.value.content,
                                     right.value.content, map[]);
      if fields.Some? {
        c := c.(conflicting := fields.value.conflicts);
        if fields.value.conflicts == [] {
          c := c.(kind := FieldsMerged, merged :=
                  Some(Object(left.value.kind, fields.value.content, left.value.version)));
        }
      }
    }
  }

  /** What a side shows at a position of the walk: its current object stands exactly at the listed id. */
  lemma PickHead(objects: M.Rows, ids: seq<Uuid>, k: nat)
    requires Ascending(ids) && k < |ids|
    ensures var ahead := Pick(objects, ids[k..]);
      var after := Pick(objects, ids[k + 1..]);
      if ids[k] in objects && Live(objects[ids[k]])
      then ahead == [RevisionSeal.Found(ids[k], objects[ids[k]])] + after
      else ahead == after
    ensures forall f | f in Pick(objects, ids[k + 1..]) :: Less(ids[k], f.id)
  {
    hide Less;
    assert ids[k..][1..] == ids[k + 1..];
    PickIn(objects, ids[k + 1..]);
    forall f | f in Pick(objects, ids[k + 1..])
      ensures Less(ids[k], f.id)
    {
      var j :| 0 <= j < |ids[k + 1..]| && ids[k + 1..][j] == f.id;
      assert ids[k + 1 + j] == f.id;
    }
  }

  lemma {:induction false} PickIn(objects: M.Rows, ids: seq<Uuid>)
    ensures forall f | f in Pick(objects, ids) :: f.id in ids && f.id in objects && f.row == objects[f.id]
              && Live(f.row)
  {
    if ids != [] {
      PickIn(objects, ids[1..]);
      assert forall id | id in ids[1..] :: id in ids;
    }
  }

  /** The object a side holds live. */
  function Held(objects: M.Rows, id: Uuid): Option<Found> {
    if id in objects && Live(objects[id]) then Some(RevisionSeal.Found(id, objects[id])) else None
  }

  lemma HeldIsModel(objects: M.Rows, id: Uuid)
    ensures ObjectOf(Held(objects, id)) == Get(ModelOf(objects), id)
  {}

  /** The current object and those after it, as one list. */
  function Queue(current: Option<Found>, coming: seq<Found>): seq<Found> {
    (if current.Some? then [current.value] else []) + coming
  }

  /** One side at a position: what it takes is what it holds there, and the rest lies beyond. */
  lemma SideAt(current: Option<Found>, coming: seq<Found>, objects: M.Rows, ids: seq<Uuid>, k: nat)
    requires Ascending(ids) && k < |ids| && Queue(current, coming) == Pick(objects, ids[k..])
    requires current.None? ==> coming == []
    ensures Takes(current, ids[k]) == Held(objects, ids[k])
    ensures current.Some? && current.value.id != ids[k] ==> Less(ids[k], current.value.id)
    ensures Pick(objects, ids[k + 1..]) == if Held(objects, ids[k]).Some? then coming else Queue(current, coming)
  {
    hide Less;
    PickHead(objects, ids, k);
    LessIrreflexive(ids[k]);
    var ahead := Queue(current, coming);
    assert if current.Some? then ahead != [] && ahead[0] == current.value && ahead[1..] == coming else ahead == [];
    if current.Some? && Held(objects, ids[k]).None? {
      assert ahead[0] in Pick(objects, ids[k + 1..]);
    }
  }

  function Takes(current: Option<Found>, id: Uuid): Option<Found> {
    if current.Some? && current.value.id == id then current else None
  }

  /** The least current id is the next listed one. */
  lemma LeastIsNext(b: Option<Found>, l: Option<Found>, r: Option<Found>, id: Uuid)
    requires (b.Some? && b.value.id == id) || (l.Some? && l.value.id == id) || (r.Some? && r.value.id == id)
    requires forall f | f in {b, l, r} && f.Some? :: f.value.id == id || Less(id, f.value.id)
    ensures LeastId(b, l, r) == Some(id)
  {
    hide Less;
    LessIrreflexive(id);
    forall f | f in {b, l, r} && f.Some?
      ensures f.value.id == id || !Less(f.value.id, id)
    {
      if Less(f.value.id, id) && Less(id, f.value.id) { LessTransitive(id, f.value.id, id); }
    }
    var one := Lesser(None, b);
    var two := Lesser(one, l);
  }

  /** Payload accounting of one change, object by object, with an early stop. */
  method CountBytes(objects: seq<Option<Object>>, retained: nat, maxBytes: nat) returns (bytes: Option<nat>)
    requires retained <= maxBytes && |objects| == 3
    ensures bytes == (var total := retained + Size(objects[0]) + Size(objects[1]) + Size(objects[2]);
                      if total <= maxBytes then Some(total) else None)
  {
    var thisBytes := 0;
    for i := 0 to 3
      invariant thisBytes == (if i > 0 then Size(objects[0]) else 0) + (if i > 1 then Size(objects[1]) else 0)
                             + (if i > 2 then Size(objects[2]) else 0)
      invariant retained + thisBytes <= maxBytes
    {
      if objects[i].Some? {
        var length := |objects[i].value.content|;
        if length > maxBytes - retained - thisBytes {
          return None;
        }
        thisBytes := thisBytes + length;
      }
    }
    bytes := Some(retained + thisBytes);
  }

  /** One object of the walk, on what the three sides hold. */
  method CompareOne(codec: Codec, id: Uuid, base: Option<Object>, left: Option<Object>, right: Option<Object>,
                    limits: Limits, p: Progress, conflicts: nat) returns (p': Progress, conflicts': nat)
    requires AllLawful(codec) && p.Going? && p.bytes <= limits.maxBytes
    ensures forall b, l, r: Model | Get(b, id) == base && Get(l, id) == left && Get(r, id) == right ::
              p' == Step(codec, b, l, r, limits, p, id)
    ensures p'.Going? ==> p'.bytes <= limits.maxBytes
    ensures p'.Going? && conflicts == CountConflicts(p.changes) ==> conflicts' == CountConflicts(p'.changes)
  {
    hide AllLawful, Classified, SameContent;
    p', conflicts' := p, conflicts;
    var leftChanged, rightChanged := !SameContent(base, left), !SameContent(base, right);
    if !leftChanged && !rightChanged {
      return;
    }
    if |p.changes| >= limits.maxChanges {
      return TooManyChanges, conflicts;
    }
    var bytes := CountBytes([base, left, right], p.bytes, limits.maxBytes);
    if bytes.None? {
      return TooManyBytes, conflicts;
    }
    var change := ClassifyChange(codec, id, base, left, right);
    if change.kind.Conflict? {
      conflicts' := conflicts' + 1;
    }
    var changes := p.changes + [change];
    assert changes[..|p.changes|] == p.changes;
    p' := Going(changes, bytes.value);
  }

  /** The cursor stands after some of the listed objects. */
  ghost predicate Beside(c: LiveObjectCursor, objects: M.Rows, ids: seq<Uuid>, k: nat)
    requires k <= |ids|
    reads c, c.db
  {
    c.Settled() && c.Ahead() == Pick(objects, ids[k..])
  }

  /** Where the three cursors stand after some of the listed objects. */
  ghost predicate Aligned(bc: LiveObjectCursor, lc: LiveObjectCursor, rc: LiveObjectCursor, b: M.Rows, l: M.Rows,
                          r: M.Rows,
                          ids: seq<Uuid>, k: nat)
    reads bc, lc, rc, bc.db, lc.db, rc.db
  {
    k <= |ids| && Beside(bc, b, ids, k) && Beside(lc, l, ids, k) && Beside(rc, r, ids, k)
  }

  /** The ids of a walk: ascending, and each held live by some side. */
  ghost predicate Route(b: M.Rows, l: M.Rows, r: M.Rows, ids: seq<Uuid>) {
    Ascending(ids) && forall id | id in ids :: HeldSomewhere(b, l, r, id)
  }

  /** Aligned cursors stand before the next listed object, or all at the end. */
  lemma NextObject(bc: LiveObjectCursor, lc: LiveObjectCursor, rc: LiveObjectCursor, b: M.Rows, l: M.Rows, r: M.Rows,
                   ids: seq<Uuid>, k: nat)
    requires Aligned(bc, lc, rc, b, l, r, ids, k) && Route(b, l, r, ids)
    ensures LeastId(bc.current, lc.current, rc.current) == if k < |ids| then Some(ids[k]) else None
    ensures k <= |ids|
  {
    hide Less, InOrder, LeastId, Pick, LiveObjectCursor.Readable, LiveObjectCursor.Coming;
    var cb, cl, cr := bc.Coming(), lc.Coming(), rc.Coming();
    assert bc.Ahead() == Queue(bc.current, cb) && lc.Ahead() == Queue(lc.current, cl)
      && rc.Ahead() == Queue(rc.current, cr);
    if k < |ids| {
      SideAt(bc.current, cb, b, ids, k);
      SideAt(lc.current, cl, l, ids, k);
      SideAt(rc.current, cr, r, ids, k);
      assert ids[k] in ids;
      LeastIsNext(bc.current, lc.current, rc.current, ids[k]);
    } else {
      assert ids[k..] == [];
      PickNothing(b);
      PickNothing(l);
      PickNothing(r);
    }
  }

  lemma PickNothing(objects: M.Rows)
    ensures Pick(objects, []) == []
  {}

  /** The three-cursor walk. */
  method CompareObjects(codec: Codec, bc: LiveObjectCursor, lc: LiveObjectCursor, rc: LiveObjectCursor, limits: Limits,
                        ghost b: M.Rows, ghost l: M.Rows, ghost r: M.Rows, ghost ids: seq<Uuid>)
    returns (p: Progress, conflicts: nat)
    requires AllLawful(codec) && bc.Valid() && lc.Valid() && rc.Valid() && bc != lc && bc != rc && lc != rc
    requires bc.Stopped() && lc.Stopped() && rc.Stopped()
    modifies bc, lc, rc
    ensures bc.Valid() && lc.Valid() && rc.Valid()
    ensures p.Going? ==> old(bc.AllRead() && lc.AllRead() && rc.AllRead())
    ensures old(Aligned(bc, lc, rc, b, l, r, ids, 0)) && Route(b, l, r, ids) ==>
              && p == Walk(codec, ModelOf(b), ModelOf(l), ModelOf(r), limits, ids)
              && (p.Going? ==> conflicts == CountConflicts(p.changes))
  {
    hide AllLawful, Walk, Step, Aligned, Route, CountConflicts, Held, ModelOf, ObjectOf, LeastId, Pick, AllReadable,
      LiveObjectCursor.Valid, LiveObjectCursor.Stopped, LiveObjectCursor.Settled, LiveObjectCursor.Left,
      LiveObjectCursor.Ahead;
    ghost var good := Aligned(bc, lc, rc, b, l, r, ids, 0) && Route(b, l, r, ids);
    ghost var k := 0;
    p, conflicts := Going([], 0), 0;
    NothingWalked(codec, ModelOf(b), ModelOf(l), ModelOf(r), limits, ids);
    while bc.current.Some? || lc.current.Some? || rc.current.Some?
      invariant bc.Valid() && lc.Valid() && rc.Valid() && bc.Stopped() && lc.Stopped() && rc.Stopped()
      invariant bc.entries == old(bc.entries) && lc.entries == old(lc.entries) && rc.entries == old(rc.entries)
      invariant p.Going? && p.bytes <= limits.maxBytes
      invariant good ==> Aligned(bc, lc, rc, b, l, r, ids, k) && k <= |ids|
      invariant good ==>
                  p == Walk(codec, ModelOf(b), ModelOf(l), ModelOf(r), limits, ids[..k])
                  && conflicts == CountConflicts(p.changes)
      decreases bc.Left() + lc.Left() + rc.Left()
    {
      if good { NextObject(bc, lc, rc, b, l, r, ids, k); }
      var id := LeastId(bc.current, lc.current, rc.current).value;
      var ok, base, left, right;
      ok, base, left, right := TakeAll(bc, lc, rc, id, b, l, r, ids, k, good);
      if !ok {
        return Unreadable, conflicts;
      }
      HeldIsModel(b, id);
      HeldIsModel(l, id);
      HeldIsModel(r, id);
      if good { WalkOn(codec, ModelOf(b), ModelOf(l), ModelOf(r), limits, ids, k); }
      p, conflicts := CompareOne(codec, id, ObjectOf(base), ObjectOf(left), ObjectOf(right), limits, p, conflicts);
      k := k + 1;
      if !p.Going? {
        if good { WalkStops(codec, ModelOf(b), ModelOf(l), ModelOf(r), limits, ids, k); }
        return;
      }
    }
    bc.AtEnd();
    lc.AtEnd();
    rc.AtEnd();
    if good {
      NextObject(bc, lc, rc, b, l, r, ids, k);
      assert ids[..k] == ids;
    }
  }

  /** The current object, if it is the given one; the cursor then moves on. */
  method TakeIf(c: LiveObjectCursor, id: Uuid, ghost objects: M.Rows, ghost ids: seq<Uuid>, ghost k: nat,
                ghost good: bool) returns (ok: bool, taken: Option<Found>)
    requires c.Valid() && c.Stopped()
    requires good ==> Ascending(ids) && k < |ids| && ids[k] == id && Beside(c, objects, ids, k)
    modifies c
    ensures c.Valid() && c.entries == old(c.entries) && (ok ==> c.Stopped())
    ensures taken == Takes(old(c.current), id)
    ensures c.Left() <= old(c.Left()) - (if taken.Some? then 1 else 0)
    ensures good ==> ok && Beside(c, objects, ids, k + 1) && taken == Held(objects, id)
  {
    hide LiveObjectCursor.Readable, LiveObjectCursor.Coming, LiveObjectCursor.Left, AllReadable, Pick, Held, InOrder,
      Less, Ascending;
    if good { SideAt(c.current, c.Coming(), objects, ids, k); }
    if c.current.None? || c.current.value.id != id {
      return true, None;
    }
    taken := c.current;
    ok := c.Advance();
  }

  /** The objects of one id leave their cursors. */
  method TakeAll(bc: LiveObjectCursor, lc: LiveObjectCursor, rc: LiveObjectCursor, id: Uuid,
                 ghost b: M.Rows, ghost l: M.Rows, ghost r: M.Rows, ghost ids: seq<Uuid>, ghost k: nat,
                     ghost good: bool)
    returns (ok: bool, base: Option<Found>, left: Option<Found>, right: Option<Found>)
    requires bc.Valid() && lc.Valid() && rc.Valid() && bc != lc && bc != rc && lc != rc
    requires bc.Stopped() && lc.Stopped() && rc.Stopped()
    requires LeastId(bc.current, lc.current, rc.current) == Some(id)
    requires good ==> Aligned(bc, lc, rc, b, l, r, ids, k) && Route(b, l, r, ids) && k < |ids| && ids[k] == id
    modifies bc, lc, rc
    ensures bc.Valid() && lc.Valid() && rc.Valid()
    ensures bc.entries == old(bc.entries) && lc.entries == old(lc.entries) && rc.entries == old(rc.entries)
    ensures ok ==> bc.Stopped() && lc.Stopped() && rc.Stopped()
    ensures ok ==> bc.Left() + lc.Left() + rc.Left() < old(bc.Left() + lc.Left() + rc.Left())
    ensures good ==> ok && Aligned(bc, lc, rc, b, l, r, ids, k + 1)
    ensures good ==> base == Held(b, id) && left == Held(l, id) && right == Held(r, id)
  {
    hide LiveObjectCursor.Left, LiveObjectCursor.Valid, LiveObjectCursor.Stopped, Beside, Held, Takes, Less, LeastId,
      HeldSomewhere, Ascending;
    base, left, right := None, None, None;
    LeastTaken(bc.current, lc.current, rc.current, id);
    ok, base := TakeIf(bc, id, b, ids, k, good);
    if !ok {
      return;
    }
    ok, left := TakeIf(lc, id, l, ids, k, good);
    if !ok {
      return;
    }
    ok, right := TakeIf(rc, id, r, ids, k, good);
  }

  lemma LeastTaken(b: Option<Found>, l: Option<Found>, r: Option<Found>, id: Uuid)
    requires LeastId(b, l, r) == Some(id)
    ensures Takes(b, id).Some? || Takes(l, id).Some? || Takes(r, id).Some?
  {
    hide Less;
  }

  lemma NothingWalked(codec: Codec, b: Model, l: Model, r: Model, limits: Limits, ids: seq<Uuid>)
    requires AllLawful(codec)
    ensures Walk(codec, b, l, r, limits, ids[..0]) == Going([], 0) && CountConflicts([]) == 0
  {}

  lemma WalkOn(codec: Codec, b: Model, l: Model, r: Model, limits: Limits, ids: seq<Uuid>, k: nat)
    requires AllLawful(codec) && k < |ids|
    ensures Walk(codec, b, l, r, limits, ids[..k + 1])
              == Step(codec, b, l, r, limits, Walk(codec, b, l, r, limits, ids[..k]), ids[k])
  {
    assert ids[..k + 1][..k] == ids[..k];
  }

  /** A stopped walk stays stopped, for the same reason. */
  lemma {:induction false} WalkStops(codec: Codec, b: Model, l: Model, r: Model, limits: Limits, ids: seq<Uuid>, k: nat)
    requires AllLawful(codec) && k <= |ids| && !Walk(codec, b, l, r, limits, ids[..k]).Going?
    ensures Walk(codec, b, l, r, limits, ids) == Walk(codec, b, l, r, limits, ids[..k])
    decreases |ids|
  {
    hide AllLawful, Changed, Classified;
    if k < |ids| {
      var n := |ids| - 1;
      assert ids[..n][..k] == ids[..k];
      WalkStops(codec, b, l, r, limits, ids[..n], k);
    } else {
      assert ids[..k] == ids;
    }
  }

  // ----------------------------------------------------------------- the preview

  /** The outcome of comparing everything, whichever covering list is walked. */
  ghost predicate IsPreview(codec: Codec, b: M.Rows, l: M.Rows, r: M.Rows, limits: Limits, p: Progress)
    requires AllLawful(codec)
  {
    forall ids | Ascending(ids) && Covers(ModelOf(b), ModelOf(l), ModelOf(r), ids) ::
      p == Walk(codec, ModelOf(b), ModelOf(l), ModelOf(r), limits, ids)
  }

  /** The route of a walk: the visible live objects, in order; it misses no change. */
  lemma RouteFor(b: M.Rows, l: M.Rows, r: M.Rows, selected: Option<set<Uuid>>) returns (ids: seq<Uuid>)
    requires forall u | Changed(ModelOf(b), ModelOf(l), ModelOf(r), u) :: Visible(selected, u)
    ensures Route(b, l, r, ids) && Covers(ModelOf(b), ModelOf(l), ModelOf(r), ids)
    ensures Window(b, selected, ids) && Window(l, selected, ids) && Window(r, selected, ids)
  {
    hide Less, SameContent;
    var held := set u | u in b.Keys + l.Keys + r.Keys && HeldSomewhere(b, l, r, u) && Visible(selected, u);
    ids := Listing(held);
    forall u | Changed(ModelOf(b), ModelOf(l), ModelOf(r), u)
      ensures u in ids
    {
      ChangedHeld(b, l, r, u);
      assert u in held;
    }
  }

  lemma ChangedHeld(b: M.Rows, l: M.Rows, r: M.Rows, u: Uuid)
    requires Changed(ModelOf(b), ModelOf(l), ModelOf(r), u)
    ensures HeldSomewhere(b, l, r, u)
  {}

  /**
   Compares two tips with their base. The candidate scan over Merkle
   differences is used when both tips are finalized and few keys differ;
   either way the outcome is that of comparing every object.
   */
  method Preview(db: Store, codec: Codec, base: Bytes, left: Tip, right: Tip, limits: Limits,
                 ghost b: M.Rows, ghost l: M.Rows, ghost r: M.Rows)
    returns (p: Progress, conflicts: nat, candidateScan: bool)
    requires AllLawful(codec)
    ensures p.Going? && left.WorkingTip? ==> Legible(db.hash, db.rows, SealedTip(base), b)
                                             && Legible(db.hash, db.rows, right, r)
    ensures limits.maxChanges < 1 || limits.maxBytes < 1 ==> p == BadLimits
    ensures limits.maxChanges >= 1 && limits.maxBytes >= 1 && Stands(db.hash, db.rows, SealedTip(base), b)
            && Stands(db.hash, db.rows, left, l) && Stands(db.hash, db.rows, right, r) ==>
              && IsPreview(codec, b, l, r, limits, p)
              && (p.Going? ==> conflicts == CountConflicts(p.changes) && TrueChanges(codec, b, l, r, p.changes))
              && Budgeted(codec, b, l, r, limits, p)
  {
    hide Budgeted, AllLawful, Stands, Walk, Changed, Window, Route, Covers, ThreeWayMerge.Ascending, IsPreview,
      TrueChanges, CountConflicts;
    if limits.maxChanges < 1 || limits.maxBytes < 1 {
      return BadLimits, 0, false;
    }
    ghost var stands := Stands(db.hash, db.rows, SealedTip(base), b) && Stands(db.hash, db.rows, left, l)
        && Stands(db.hash, db.rows, right, r);
    var bounded := limits.maxChanges != MAX_SIZE || limits.maxBytes != MAX_SIZE;
    var candidateLimit := if !bounded then MAX_SIZE else if limits.maxChanges < CANDIDATES then limits.maxChanges
      else CANDIDATES;
    var selected: Option<set<Uuid>> := None;
    if left.SealedTip? && right.SealedTip? {
      var c := FindCandidates(db, base, left.root, right.root, candidateLimit, b, l, r);
      if c.Failed? {
        return Unreadable, 0, false;
      }
      if c.Complete? {
        selected := Some(c.ids);
      }
    }
    p, conflicts := Scan(db, codec, base, left, right, selected, limits, b, l, r);
    candidateScan := selected.Some?;
    if stands { PreviewMeans(codec, b, l, r, limits, p); }
  }

  /** If the tip is the snapshot of these objects, they can all be read back. */
  ghost predicate Legible(h: Hash, rows: Rows, tip: Tip, objects: M.Rows) {
    tip.SealedTip? && Holds(h, rows, tip.root, objects) ==> RevisionSeal.LegalKinds(objects)
  }

  /** A whole snapshot that was read has legal kinds only. */
  lemma ReadMeansLegible(h: Hash, rows: Rows, tip: Tip, objects: M.Rows, e: seq<SortedRange.Entry<Bytes>>)
    requires AllReadable(h, rows, e)
    requires tip.SealedTip? && RevisionSeal.Archived(h, rows, tip.root, objects) ==> Entered(h, objects, None, e)
    ensures Legible(h, rows, tip, objects)
  {
    hide RevisionSeal.RecordAt, RevisionSeal.Names, RevisionSeal.Kept, RevisionSeal.Seals, RevisionSeal.AllTabled,
      RevisionSeal.LegalKinds, TreeStore.DenotesMap, SortedRange.Sorted, SortedRange.Distinct, Unpack;
    if tip.SealedTip? && Holds(h, rows, tip.root, objects) {
      assert RevisionSeal.Lists(h, objects, e);
      RevisionSeal.AllRead(h, rows, objects, e);
    }
  }

  /** The walk over the selected objects, or over all of them. */
  method Scan(db: Store, codec: Codec, base: Bytes, left: Tip, right: Tip, selected: Option<set<Uuid>>, limits: Limits,
              ghost b: M.Rows, ghost l: M.Rows, ghost r: M.Rows)
    returns (p: Progress, conflicts: nat)
    requires AllLawful(codec) && (selected.Some? ==> left.SealedTip? && right.SealedTip?)
    ensures p.Going? && selected.None? ==> Legible(db.hash, db.rows, SealedTip(base), b)
                                           && Legible(db.hash, db.rows, right, r)
    ensures Stands(db.hash, db.rows, SealedTip(base), b) && Stands(db.hash, db.rows, left, l)
              && Stands(db.hash, db.rows, right, r)
            && (forall u | Changed(ModelOf(b), ModelOf(l), ModelOf(r), u) :: Visible(selected, u)) ==>
              IsPreview(codec, b, l, r, limits, p) && (p.Going? ==> conflicts == CountConflicts(p.changes))
  {
    hide AllLawful, Stands, Walk, Changed, Window, Route, Covers, CountConflicts, IsPreview, ModelOf, Aligned,
      Visible, Entered, Legible, RevisionSeal.Archived, LiveObjectCursor.Valid, LiveObjectCursor.Stopped;
    ghost var good := Stands(db.hash, db.rows, SealedTip(base), b) && Stands(db.hash, db.rows, left, l)
        && Stands(db.hash, db.rows, right, r)
      && (forall u | Changed(ModelOf(b), ModelOf(l), ModelOf(r), u) :: Visible(selected, u));
    ghost var ids := [];
    if good { ids := RouteFor(b, l, r, selected); }
    var ok, bc, lc, rc := OpenAll(db, base, left, right, selected, b, l, r, ids);
    if !ok {
      return Unreadable, 0;
    }
    label Opened:
    p, conflicts := CompareObjects(codec, bc, lc, rc, limits, b, l, r, ids);
    if p.Going? && selected.None? {
      ReadMeansLegible(db.hash, db.rows, SealedTip(base), b, old@Opened(bc.entries));
      ReadMeansLegible(db.hash, db.rows, right, r, old@Opened(rc.entries));
    }
    if good { AnyListAgrees(codec, b, l, r, limits, ids, p); }
  }

  /** Puts a fresh cursor on the first object of its side. */
  method OpenSide(c: LiveObjectCursor, tip: Tip, selected: Option<set<Uuid>>, ghost objects: M.Rows,
                  ghost ids: seq<Uuid>)
    returns (ok: bool)
    requires c.Valid() && c.current == None && c.previousId == None
    requires c.entries == [] && c.nextEntry == 0 && c.batch == [] && c.nextBatch == 0 && c.lines == []
    modifies c
    ensures c.Valid() && (ok ==> c.Stopped())
    ensures ok && tip.SealedTip? && RevisionSeal.Archived(c.db.hash, c.db.rows, tip.root, objects) ==>
              Entered(c.db.hash, objects, selected, c.entries)
    ensures Stands(c.db.hash, c.db.rows, tip, objects)
              && Window(objects, if tip.SealedTip? then selected else None, ids) ==>
              ok && Beside(c, objects, ids, 0)
  {
    hide Stands, Window, Pick, Entered, RevisionSeal.Archived, LiveObjectCursor.Settled, LiveObjectCursor.Ahead,
      LiveObjectCursor.Stopped;
    assert ids[0..] == ids;
    ok := c.Open(tip, selected, objects, ids);
  }

  /** Three fresh cursors, each on the first object of its side. */
  method OpenAll(db: Store, base: Bytes, left: Tip, right: Tip, selected: Option<set<Uuid>>,
                 ghost b: M.Rows, ghost l: M.Rows, ghost r: M.Rows, ghost ids: seq<Uuid>)
    returns (ok: bool, bc: LiveObjectCursor, lc: LiveObjectCursor, rc: LiveObjectCursor)
    requires selected.Some? ==> left.SealedTip? && right.SealedTip?
    ensures fresh(bc) && fresh(lc) && fresh(rc) && bc.Valid() && lc.Valid() && rc.Valid() && bc != lc && bc != rc
              && lc != rc && bc.db == db && lc.db == db && rc.db == db
    ensures ok ==> bc.Stopped() && lc.Stopped() && rc.Stopped()
    ensures ok && RevisionSeal.Archived(db.hash, db.rows, base, b) ==> Entered(db.hash, b, selected, bc.entries)
    ensures ok && right.SealedTip? && RevisionSeal.Archived(db.hash, db.rows, right.root, r) ==>
              Entered(db.hash, r, selected, rc.entries)
    ensures Stands(db.hash, db.rows, SealedTip(base), b) && Stands(db.hash, db.rows, left, l)
              && Stands(db.hash, db.rows, right, r)
            && Window(b, selected, ids) && Window(l, selected, ids) && Window(r, selected, ids) ==>
              ok && Aligned(bc, lc, rc, b, l, r, ids, 0)
  {
    hide Stands, Window, Entered, RevisionSeal.Archived, Beside, LiveObjectCursor.Stopped;
    bc := new LiveObjectCursor(db);
    lc := new LiveObjectCursor(db);
    rc := new LiveObjectCursor(db);
    ok := OpenSide(bc, SealedTip(base), selected, b, ids);
    if !ok {
      return;
    }
    ok := OpenSide(lc, left, selected, l, ids);
    if !ok {
      return;
    }
    ok := OpenSide(rc, right, selected, r, ids);
  }

  lemma AnyListAgrees(codec: Codec, b: M.Rows, l: M.Rows, r: M.Rows, limits: Limits, ids: seq<Uuid>, p: Progress)
    requires AllLawful(codec) && Route(b, l, r, ids) && Covers(ModelOf(b), ModelOf(l), ModelOf(r), ids)
    requires p == Walk(codec, ModelOf(b), ModelOf(l), ModelOf(r), limits, ids)
    ensures IsPreview(codec, b, l, r, limits, p)
  {
    hide AllLawful, Walk, Covers, ThreeWayMerge.Ascending, ModelOf;
    forall others | ThreeWayMerge.Ascending(others) && Covers(ModelOf(b), ModelOf(l), ModelOf(r), others)
      ensures p == Walk(codec, ModelOf(b), ModelOf(l), ModelOf(r), limits, others)
    {
      CoveringListsAgree(codec, ModelOf(b), ModelOf(l), ModelOf(r), limits, ids, others);
    }
  }

  /** What a completed preview is: exactly the changed objects, in order, each classified, within the limits. */
  lemma PreviewMeans(codec: Codec, b: M.Rows, l: M.Rows, r: M.Rows, limits: Limits, p: Progress)
    requires AllLawful(codec) && IsPreview(codec, b, l, r, limits, p)
    ensures p.Going? || p.TooManyChanges? || p.TooManyBytes?
    ensures p.Going? ==> TrueChanges(codec, b, l, r, p.changes)
    ensures Budgeted(codec, b, l, r, limits, p)
    ensures p.Going? ==> IsChangeList(codec, ModelOf(b), ModelOf(l), ModelOf(r), p.changes)
                         && |p.changes| <= limits.maxChanges && p.bytes <= limits.maxBytes
  {
    hide AllLawful, Walk, Changed, SameContent, Window, ModelOf, IsChangeList, TrueChanges, Budgeted;
    var ids := RouteFor(b, l, r, None);
    BudgetKept(codec, b, l, r, limits, ids);
    assert p == Walk(codec, ModelOf(b), ModelOf(l), ModelOf(r), limits, ids);
    LimitsExact(codec, ModelOf(b), ModelOf(l), ModelOf(r), limits, ids);
    if p.Going? {
      WalkIsChangeList(codec, ModelOf(b), ModelOf(l), ModelOf(r), limits, ids);
      ListTrue(codec, b, l, r, p.changes);
    }
  }
}
