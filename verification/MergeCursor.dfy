/** An ordered cursor over the live objects of one side of a merge. */
module MergeCursor {
  import opened Prelude
  import opened Uuid
  import opened SortedRange
  import opened ContentStore
  import opened RevisionSeal
  import opened ThreeWayMerge
  import M = ModelRecord
  import TreeStore
  import TreeRead
  import TreeScan
  import TreeUpdate

  /** A finalized tip is read from its root, the editable one from its rows. */
  datatype Tip = SealedTip(root: Bytes) | WorkingTip(rows: M.Rows)

  predicate Live(row: M.Row) {
    row.content.Some?
  }

  predicate NamedIds(objects: M.Rows) {
    forall id | id in objects && Live(objects[id]) :: !IsNull(id)
  }

  /** The root is the snapshot of these objects, whether they can be read back or not. */
  ghost predicate Holds(h: Hash, rows: Rows, root: Bytes, objects: M.Rows) {
    NamedIds(objects) && Archived(h, rows, root, objects) && AllTabled(objects)
  }

  /** The tip stands for these objects, and they can all be read. */
  ghost predicate Stands(h: Hash, rows: Rows, tip: Tip, objects: M.Rows) {
    match tip
    case SealedTip(root) => Holds(h, rows, root, objects) && LegalKinds(objects)
    case WorkingTip(working) => NamedIds(objects) && objects == working
  }

  function LiveOnly(found: seq<Found>): (live: seq<Found>)
    ensures |live| <= |found| && forall f | f in live :: Live(f.row) && f in found
  {
    if found == [] then [] else (if Live(found[0].row) then [found[0]] else []) + LiveOnly(found[1..])
  }

  lemma {:induction false} LiveOnlyAppend(a: seq<Found>, b: seq<Found>)
    ensures LiveOnly(a + b) == LiveOnly(a) + LiveOnly(b)
  {
    if a == [] {
      assert a + b == b;
    } else {
      assert (a + b)[1..] == a[1..] + b;
      LiveOnlyAppend(a[1..], b);
    }
  }

  ghost predicate AllReadable(h: Hash, rows: Rows, entries: seq<Entry<Bytes>>) {
    forall i | 0 <= i < |entries| :: RecordAt(h, rows, entries[i].value).Some?
  }

  /** What the entries of a tree will read as. */
  ghost function Records(h: Hash, rows: Rows, entries: seq<Entry<Bytes>>): (found: seq<Found>)
    requires AllReadable(h, rows, entries)
    ensures |found| == |entries|
  {
    if entries == [] then [] else
      [Found(IdOf(entries[0].key), RecordAt(h, rows, entries[0].value).value)] + Records(h, rows, entries[1..])
  }

  lemma {:induction false} RecordsAt(h: Hash, rows: Rows, entries: seq<Entry<Bytes>>, i: nat)
    requires AllReadable(h, rows, entries) && i < |entries|
    ensures Unpack(Records(h, rows, entries)[i].id) == entries[i].key
    ensures RecordAt(h, rows, entries[i].value) == Some(Records(h, rows, entries)[i].row)
  {
    hide RecordAt, Unpack;
    if i > 0 { RecordsAt(h, rows, entries[1..], i - 1); }
  }

  ghost function IdOf(k: Key): (u: Uuid)
    ensures Unpack(u) == k
  {
    assert exists u: Uuid :: Unpack(u) == k by { var u := Packed(k); }
    var u: Uuid :| Unpack(u) == k;
    u
  }

  lemma {:induction false} RecordsAre(h: Hash, rows: Rows, entries: seq<Entry<Bytes>>, found: seq<Found>)
    requires AllReadable(h, rows, entries) && |found| == |entries|
    requires forall i | 0 <= i < |entries| ::
               Unpack(found[i].id) == entries[i].key && RecordAt(h, rows, entries[i].value) == Some(found[i].row)
    ensures found == Records(h, rows, entries)
  {
    hide RecordAt, Unpack, Records;
    forall i | 0 <= i < |entries|
      ensures found[i] == Records(h, rows, entries)[i]
    {
      RecordsAt(h, rows, entries, i);
      UnpackInjective(found[i].id, Records(h, rows, entries)[i].id);
    }
  }

  lemma ReadableSplit(h: Hash, rows: Rows, entries: seq<Entry<Bytes>>, n: nat)
    requires n <= |entries|
    ensures AllReadable(h, rows, entries) <==> AllReadable(h, rows, entries[..n]) && AllReadable(h, rows, entries[n..])
  {
    hide RecordAt;
    assert forall i | 0 <= i < n :: entries[..n][i] == entries[i];
    assert forall i | n <= i < |entries| :: entries[n..][i - n] == entries[i];
  }

  lemma ReadableNext(h: Hash, rows: Rows, entries: seq<Entry<Bytes>>, n: nat, count: nat)
    requires n + count <= |entries| && AllReadable(h, rows, entries[..n])
               && AllReadable(h, rows, entries[n..n + count])
    ensures AllReadable(h, rows, entries[..n + count])
  {
    hide RecordAt;
    assert forall i | n <= i < n + count :: entries[n..n + count][i - n] == entries[i];
    assert forall i | 0 <= i < n :: entries[..n][i] == entries[i];
  }

  lemma {:induction false} RecordsSplit(h: Hash, rows: Rows, entries: seq<Entry<Bytes>>, n: nat)
    requires AllReadable(h, rows, entries) && n <= |entries|
    ensures AllReadable(h, rows, entries[..n]) && AllReadable(h, rows, entries[n..])
    ensures Records(h, rows, entries) == Records(h, rows, entries[..n]) + Records(h, rows, entries[n..])
  {
    hide RecordAt, Unpack, AllReadable, IdOf;
    ReadableSplit(h, rows, entries, n);
    if n == 0 {
      assert entries[0..] == entries;
      assert entries[..0] == [];
    } else {
      ReadableSplit(h, rows, entries, 1);
      RecordsSplit(h, rows, entries[1..], n - 1);
      assert entries[..n][1..] == entries[1..][..n - 1] && entries[1..][n - 1..] == entries[n..];
    }
  }

  lemma HeadTail(a: seq<Found>, n: nat, more: seq<Found>)
    requires n < |a|
    ensures a[n..] + more != [] && (a[n..] + more)[0] == a[n] && (a[n..] + more)[1..] == a[n + 1..] + more
  {}

  /** A stream of named objects in strictly ascending order, all beyond `previous`. */
  predicate InOrder(previous: Option<Uuid>, stream: seq<Found>) {
    && (forall i | 0 <= i < |stream| :: !IsNull(stream[i].id))
    && (forall i, j | 0 <= i < j < |stream| :: Less(stream[i].id, stream[j].id))
    && (previous.Some? ==> forall i | 0 <= i < |stream| :: Less(previous.value, stream[i].id))
  }

  // ------------------------------------------------------------------ what is shown

  predicate Visible(selected: Option<set<Uuid>>, id: Uuid) {
    selected.None? || id in selected.value
  }

  /** The live objects among the listed ones, in the list's order. */
  function Pick(objects: M.Rows, ids: seq<Uuid>): seq<Found> {
    if ids == [] then [] else
      (if ids[0] in objects && Live(objects[ids[0]]) then [Found(ids[0], objects[ids[0]])] else [])
      + Pick(objects, ids[1..])
  }

  /** The list holds every visible live object. */
  ghost predicate Window(objects: M.Rows, selected: Option<set<Uuid>>, ids: seq<Uuid>) {
    && Ascending(ids)
    && forall id | id in objects && Live(objects[id]) :: Visible(selected, id) <==> id in ids
  }

  /** The stream runs through exactly the visible live objects. */
  ghost predicate Shows(stream: seq<Found>, objects: M.Rows, selected: Option<set<Uuid>>) {
    && (forall i, j | 0 <= i < j < |stream| :: Less(stream[i].id, stream[j].id))
    && (forall f | f in stream :: f.id in objects && f.row == objects[f.id] && Live(f.row) && Visible(selected, f.id))
    && forall id | id in objects && Live(objects[id]) && Visible(selected, id) :: Found(id, objects[id]) in stream
  }

  lemma {:induction false} ShowsPick(stream: seq<Found>, objects: M.Rows, selected: Option<set<Uuid>>, ids: seq<Uuid>)
    requires Shows(stream, objects, selected) && Window(objects, selected, ids)
    ensures stream == Pick(objects, ids)
  {
    hide Less;
    StreamIsPick(stream, objects, ids);
  }

  lemma FirstIn(stream: seq<Found>)
    ensures stream == [] || stream[0] in stream
  {}

  lemma {:induction false} StreamIsPick(stream: seq<Found>, objects: M.Rows, ids: seq<Uuid>)
    requires Ascending(ids) && forall i, j | 0 <= i < j < |stream| :: Less(stream[i].id, stream[j].id)
    requires forall f | f in stream :: f.id in ids && f.id in objects && f.row == objects[f.id] && Live(f.row)
    requires forall id | id in ids && id in objects && Live(objects[id]) :: Found(id, objects[id]) in stream
    ensures stream == Pick(objects, ids)
  {
    hide Less;
    if ids == [] {
      FirstIn(stream);
    } else {
      var id := ids[0];
      assert id in ids;
      var tail := ids[1..];
      forall x: Uuid
        ensures x in tail <==> x in ids && x != id
      {
        ThreeWayMerge.Tail(ids, x);
      }
      if id in objects && Live(objects[id]) {
        var f := Found(id, objects[id]);
        assert f in stream;
        var i :| 0 <= i < |stream| && stream[i] == f;
        assert stream[0] in stream;
        if i > 0 {
          var j :| 0 <= j < |ids| && ids[j] == stream[0].id;
          if j > 0 { LessTransitive(id, ids[j], id); }
          LessIrreflexive(id);
        }
        assert stream[0] == f;
        forall g | g in stream[1..]
          ensures g in stream && g.id != id
        {
          var k :| 1 <= k < |stream| && stream[k] == g;
          LessIrreflexive(id);
        }
        assert stream == [f] + stream[1..];
        StreamIsPick(stream[1..], objects, tail);
      } else {
        StreamIsPick(stream, objects, tail);
      }
    }
  }

  lemma ShowsInOrder(stream: seq<Found>, objects: M.Rows, selected: Option<set<Uuid>>)
    requires Shows(stream, objects, selected) && NamedIds(objects)
    ensures InOrder(None, stream)
  {
    hide Less, IsNull;
    assert forall i | 0 <= i < |stream| :: stream[i] in stream;
  }

  /** A strictly ordered listing of visible rows, tombstones included, shows the visible live ones. */
  lemma {:induction false} LiveOnlyShows(found: seq<Found>, objects: M.Rows, selected: Option<set<Uuid>>)
    requires forall i, j | 0 <= i < j < |found| :: Less(found[i].id, found[j].id)
    requires forall f | f in found :: f.id in objects && f.row == objects[f.id] && Visible(selected, f.id)
    requires forall id | id in objects && Visible(selected, id) :: Found(id, objects[id]) in found
    ensures Shows(LiveOnly(found), objects, selected)
  {
    hide Less;
    LiveOnlyOrdered(found);
    forall id | id in objects && Live(objects[id]) && Visible(selected, id)
      ensures Found(id, objects[id]) in LiveOnly(found)
    {
      LiveOnlyHas(found, Found(id, objects[id]));
    }
  }

  lemma {:induction false} LiveOnlyHas(found: seq<Found>, f: Found)
    requires f in found && Live(f.row)
    ensures f in LiveOnly(found)
  {
    if found[0] != f { LiveOnlyHas(found[1..], f); }
  }

  lemma {:induction false} LiveOnlyOrdered(found: seq<Found>)
    requires forall i, j | 0 <= i < j < |found| :: Less(found[i].id, found[j].id)
    ensures forall i, j | 0 <= i < j < |LiveOnly(found)| :: Less(LiveOnly(found)[i].id, LiveOnly(found)[j].id)
  {
    hide Less, Live;
    if found != [] {
      LiveOnlyOrdered(found[1..]);
      var rest := LiveOnly(found[1..]);
      forall j | 0 <= j < |rest|
        ensures Less(found[0].id, rest[j].id)
      {
        assert rest[j] in rest;
        var k :| 1 <= k < |found| && found[k] == rest[j];
      }
    }
  }

  /** The entries name exactly the visible objects, in key order. */
  ghost predicate Entered(h: Hash, objects: M.Rows, selected: Option<set<Uuid>>, e: seq<Entry<Bytes>>) {
    && Sorted(e) && Distinct(e) && (forall i | 0 <= i < |e| :: Named(h, objects, e[i]))
    && (forall i, u | 0 <= i < |e| && Unpack(u) == e[i].key :: Visible(selected, u))
    && forall u | u in objects && Visible(selected, u) :: exists i :: 0 <= i < |e| && Names(h, objects, e[i], u)
  }

  /** Entries of a readable snapshot stream exactly the visible live objects, in order. */
  lemma EnteredShows(h: Hash, rows: Rows, objects: M.Rows, selected: Option<set<Uuid>>, e: seq<Entry<Bytes>>)
    requires Kept(h, rows, objects) && AllTabled(objects) && LegalKinds(objects) && Entered(h, objects, selected, e)
    ensures AllReadable(h, rows, e) && Shows(LiveOnly(Records(h, rows, e)), objects, selected)
  {
    hide Kept, RecordAt, Unpack, Records, M.Tabled, M.ValidKind, Less, Sealed;
    forall i | 0 <= i < |e|
      ensures RecordAt(h, rows, e[i].value).Some?
    {
      var u := EntryIs(h, rows, objects, e, i);
    }
    var found := Records(h, rows, e);
    forall i | 0 <= i < |e|
      ensures found[i].id in objects && found[i].row == objects[found[i].id] && Unpack(found[i].id) == e[i].key
    {
      var u := EntryIs(h, rows, objects, e, i);
      RecordsAt(h, rows, e, i);
      UnpackInjective(u, found[i].id);
    }
    forall i, j | 0 <= i < j < |found|
      ensures Less(found[i].id, found[j].id)
    {
      OctetOrderIsNibbleOrder(found[i].id, found[j].id);
      LessTotal(e[i].key, e[j].key);
      assert UnpackBytes(found[i].id) == Unpack(found[i].id) && UnpackBytes(found[j].id) == Unpack(found[j].id) by {
        TreeRead.UnpackIs(found[i].id);
        TreeRead.UnpackIs(found[j].id);
      }
    }
    forall u | u in objects && Visible(selected, u)
      ensures Found(u, objects[u]) in found
    {
      var i :| 0 <= i < |e| && Names(h, objects, e[i], u);
      UnpackInjective(u, found[i].id);
      assert found[i] == Found(u, objects[u]);
    }
    forall f | f in found
      ensures f.id in objects && f.row == objects[f.id] && Visible(selected, f.id)
    {
      var i :| 0 <= i < |found| && found[i] == f;
    }
    LiveOnlyShows(found, objects, selected);
  }

  lemma EntryIs(h: Hash, rows: Rows, objects: M.Rows, e: seq<Entry<Bytes>>, i: nat) returns (u: Uuid)
    requires Kept(h, rows, objects) && AllTabled(objects) && LegalKinds(objects) && i < |e| && Named(h, objects, e[i])
    ensures Unpack(u) == e[i].key && u in objects && RecordAt(h, rows, e[i].value) == Some(objects[u])
  {
    hide Fetch, M.Record, Unpack, M.ValidKind, M.Tabled;
    u :| Names(h, objects, e[i], u);
    RecordAtKept(h, rows, e[i].value, objects[u]);
    M.ReadBack(objects[u]);
  }

  lemma InOrderTail(previous: Option<Uuid>, stream: seq<Found>)
    requires InOrder(previous, stream) && stream != []
    ensures !IsNull(stream[0].id) && (previous.Some? ==> Less(previous.value, stream[0].id))
    ensures InOrder(Some(stream[0].id), stream[1..]) && [stream[0]] + stream[1..] == stream
  {
    hide Less, IsNull;
  }

  const BATCH: nat := 256

  class LiveObjectCursor {
    const db: Store
    var current: Option<Found>
    var previousId: Option<Uuid>
    var isSealed: bool
    var entries: seq<Entry<Bytes>>
    var nextEntry: nat
    var batch: seq<Found>
    var nextBatch: nat
    var lines: seq<Found>

    /** All entries taken so far have been read. */
    ghost predicate Valid()
      reads this, db
    {
      && nextEntry <= |entries| && nextBatch <= |batch| && (if isSealed then lines == [] else entries == [])
      && AllReadable(db.hash, db.rows, entries[..nextEntry])
    }

    /** All entries can be read. */
    ghost predicate AllRead()
      reads this, db
    {
      AllReadable(db.hash, db.rows, entries)
    }

    /** Without a current object nothing is left to take. */
    ghost predicate Stopped()
      reads this
    {
      current.None? ==> nextEntry >= |entries|
    }

    lemma AtEnd()
      requires Valid() && Stopped() && current.None?
      ensures AllRead()
    {
      assert entries[..nextEntry] == entries;
    }

    /** What is left to read of the entries, the batch and the query. */
    ghost function Left(): nat
      reads this, db
      requires Valid()
    {
      |entries| - nextEntry + |batch| - nextBatch + |lines| + if current.Some? then 1 else 0
    }

    ghost predicate Readable()
      reads this, db
      requires Valid()
    {
      isSealed ==> AllReadable(db.hash, db.rows, entries[nextEntry..])
    }

    /** The records still to come, tombstones included. */
    ghost function Stream(): seq<Found>
      reads this, db
      requires Valid() && Readable()
    {
      if isSealed then batch[nextBatch..] + Records(db.hash, db.rows, entries[nextEntry..]) else []
    }

    /** The objects after the current one. */
    ghost function Coming(): seq<Found>
      reads this, db
      requires Valid() && Readable()
    {
      if isSealed then LiveOnly(Stream()) else lines
    }

    ghost predicate Healthy()
      reads this, db
    {
      Valid() && Readable() && InOrder(previousId, Coming())
    }

    /** Standing on an object, or at the end. */
    ghost predicate Settled()
      reads this, db
    {
      Healthy() && (current.None? ==> Coming() == [])
    }

    /** The current object and all that follow. */
    ghost function Ahead(): seq<Found>
      reads this, db
      requires Valid() && Readable()
    {
      (if current.Some? then [current.value] else []) + Coming()
    }

    constructor (db: Store)
      ensures Valid() && this.db == db && current == None && previousId == None
      ensures entries == [] && nextEntry == 0 && batch == [] && nextBatch == 0 && lines == []
    {
      this.db := db;
      current, previousId, isSealed, entries, nextEntry, batch, nextBatch, lines := None, None, false, [], 0, [], 0, [];
    }

    /** Reads the next few records of the tree in one go. */
    method Refill() returns (ok: bool)
      requires Valid() && nextBatch == |batch| && nextEntry < |entries| && isSealed
      modifies this
      ensures Valid() && isSealed && current == old(current) && previousId == old(previousId) && lines == old(lines)
      ensures entries == old(entries)
      ensures ok ==>
                Left() == old(Left()) && |batch| > nextBatch && nextEntry > old(nextEntry)
      ensures !ok ==> Left() <= old(Left())
      ensures old(Readable()) ==> ok && Readable() && Stream() == old(Stream())
    {
      hide Records, RecordAt, Unpack;
      var count := if |entries| - nextEntry < BATCH then |entries| - nextEntry else BATCH;
      var portion := entries[nextEntry..nextEntry + count];
      ghost var rest := entries[nextEntry..];
      ghost var readable := Readable();
      assert rest[..count] == portion && rest[count..] == entries[nextEntry + count..];
      if readable { RecordsSplit(db.hash, db.rows, rest, count); }
      var fetched := ReadEntries(db, portion);
      if fetched.None? {
        return false;
      }
      if readable {
        RecordsAre(db.hash, db.rows, portion, fetched.value);
        assert batch[nextBatch..] == [] && fetched.value[0..] == fetched.value;
        assert [] + Records(db.hash, db.rows, rest) == fetched.value + Records(db.hash, db.rows, rest[count..]);
      }
      ReadableNext(db.hash, db.rows, entries, nextEntry, count);
      batch, nextBatch, nextEntry := fetched.value, 0, nextEntry + count;
      ok := true;
    }

    /** Moves to the next live object; tombstones are passed over, disorder is an error. */
    method Advance() returns (ok: bool)
      requires Valid()
      modifies this
      ensures Valid() && Left() <= old(Left()) - (if old(current).Some? then 1 else 0)
      ensures entries == old(entries) && (ok ==> Stopped())
      ensures old(Healthy()) ==> ok && Settled() && Ahead() == old(Coming())
    {
      hide Records, RecordAt, Less, IsNull, InOrder;
      if Healthy() && Coming() != [] { InOrderTail(previousId, Coming()); }
      current := None;
      if isSealed {
        ok := AdvanceSealed();
        return;
      }
      if lines == [] {
        return true;
      }
      var next := lines[0];
      if IsNull(next.id) || (previousId.Some? && !Less(previousId.value, next.id)) {
        return false;
      }
      lines := lines[1..];
      previousId := Some(next.id);
      current := Some(next);
      return true;
    }

    /** The next record of a tree. */
    method NextRecord() returns (ok: bool, record: Option<Found>)
      requires Valid() && isSealed && current.None?
      modifies this
      ensures Valid() && isSealed && current.None? && previousId == old(previousId) && entries == old(entries)
      ensures Left() <= old(Left()) && (record.Some? ==> Left() < old(Left()))
      ensures record.Some? ==> ok
      ensures ok && record.None? ==> Stopped()
      ensures old(Readable()) ==> ok && Readable()
      ensures old(Readable()) ==> if old(Stream()) == [] then record == None && Stream() == []
                                  else record == Some(old(Stream())[0]) && Stream() == old(Stream())[1..]
    {
      hide Records, RecordAt, Unpack;
      if nextBatch >= |batch| {
        if nextEntry >= |entries| {
          return true, None;
        }
        ok := Refill();
        if !ok {
          return false, None;
        }
      }
      record := Some(batch[nextBatch]);
      if Readable() { HeadTail(batch, nextBatch, Records(db.hash, db.rows, entries[nextEntry..])); }
      nextBatch := nextBatch + 1;
      ok := true;
    }

    /** The next record that is not a tombstone. */
    method NextLive() returns (ok: bool, record: Option<Found>)
      requires Valid() && isSealed && current.None?
      modifies this
      ensures Valid() && isSealed && current.None? && previousId == old(previousId) && entries == old(entries)
      ensures Left() <= old(Left()) && (record.Some? ==> ok && Left() < old(Left()))
      ensures ok && record.None? ==> Stopped()
      ensures old(Readable()) ==> ok && Readable()
      ensures old(Readable()) ==> if old(Coming()) == [] then record == None && Coming() == []
                                  else record == Some(old(Coming())[0]) && Coming() == old(Coming())[1..]
    {
      hide Stream, AllReadable, Live, Left, RecordAt;
      ghost var good := Readable();
      ghost var coming := if good then Coming() else [];
      while true
        invariant Valid() && isSealed && current.None? && previousId == old(previousId) && Left() <= old(Left())
        invariant entries == old(entries)
        invariant good ==> Readable() && Coming() == coming
        decreases Left()
      {
        ok, record := NextRecord();
        if !ok || record.None? {
          return;
        }
        if Live(record.value.row) {
          return;
        }
      }
    }

    method AdvanceSealed() returns (ok: bool)
      requires Valid() && isSealed && current.None?
      modifies this
      ensures Valid() && Left() <= old(Left()) && entries == old(entries) && (ok ==> Stopped())
      ensures old(Healthy()) ==> ok && Settled() && Ahead() == old(Coming())
    {
      hide Less, IsNull, AllReadable, Live, LiveOnly, InOrder, Records;
      if Healthy() && Coming() != [] { InOrderTail(previousId, Coming()); }
      ghost var coming := if Healthy() then Coming() else [];
      var record;
      ok, record := NextLive();
      if !ok || record.None? {
        return;
      }
      if IsNull(record.value.id) || (previousId.Some? && !Less(previousId.value, record.value.id)) {
        return false;
      }
      previousId := Some(record.value.id);
      current := record;
    }

    /** Positions the cursor on the first live object of a tip. */
    method Open(tip: Tip, selected: Option<set<Uuid>>, ghost objects: M.Rows, ghost ids: seq<Uuid>) returns (ok: bool)
      requires Valid() && current == None && previousId == None
      requires entries == [] && nextEntry == 0 && batch == [] && nextBatch == 0 && lines == []
      modifies this
      ensures Valid() && (ok ==> Stopped())
      ensures ok && tip.SealedTip? && Archived(db.hash, db.rows, tip.root, objects) ==>
                Entered(db.hash, objects, selected, entries)
      ensures Stands(db.hash, db.rows, tip, objects)
                && Window(objects, if tip.SealedTip? then selected else None, ids) ==>
                ok && Settled() && Ahead() == Pick(objects, ids)
    {
      hide Records, RecordAt, Shows, Window, Stands, InOrder, LiveOnly, Pick, AllReadable;
      ghost var known := Stands(db.hash, db.rows, tip, objects)
          && Window(objects, if tip.SealedTip? then selected else None, ids);
      match tip {
        case SealedTip(root) =>
          isSealed := true;
          if |root| != 32 {
            if known { SealedRoot(db.hash, db.rows, root, objects); }
            return false;
          }
          var listed := ListEntries(db, root, selected, objects);
          if listed.None? {
            if known { SealedRoot(db.hash, db.rows, root, objects); }
            return false;
          }
          entries := listed.value;
          if known {
            SealedRoot(db.hash, db.rows, root, objects);
            EnteredShows(db.hash, db.rows, objects, selected, entries);
            ShowsInOrder(LiveOnly(Records(db.hash, db.rows, entries)), objects, selected);
            ShowsPick(LiveOnly(Records(db.hash, db.rows, entries)), objects, selected, ids);
            assert entries[0..] == entries && batch[0..] == [];
            assert [] + Records(db.hash, db.rows, entries) == Records(db.hash, db.rows, entries);
          }
        case WorkingTip(rows) =>
          isSealed := false;
          lines := QueryRows(rows);
          if known {
            WorkingRows(db.hash, db.rows, rows, objects);
            ShowsInOrder(lines, objects, None);
            ShowsPick(lines, objects, None, ids);
          }
      }
      ok := Advance();
    }
  }

  lemma SealedRoot(h: Hash, rows: Rows, root: Bytes, objects: M.Rows)
    requires Stands(h, rows, SealedTip(root), objects)
    ensures |root| == 32 && root != [] && Kept(h, rows, objects) && AllTabled(objects) && LegalKinds(objects)
              && NamedIds(objects)
    ensures Archived(h, rows, root, objects)
  {
    hide Kept, Seals, AllTabled, LegalKinds;
    TreeUpdate.RootLength(h, rows, root, 0);
  }

  lemma WorkingRows(h: Hash, store: Rows, rows: M.Rows, objects: M.Rows)
    requires Stands(h, store, WorkingTip(rows), objects)
    ensures objects == rows && NamedIds(objects)
  {}

  /** The live rows of the editable head, in UUID order. */
  method QueryRows(rows: M.Rows) returns (lines: seq<Found>)
    ensures Shows(lines, rows, None)
  {
    hide Less, Unpack, Sorted, Distinct;
    var live := set id | id in rows && Live(rows[id]);
    var keys := TreeRead.SortedKeys(live);
    lines := seq(|keys|, i requires 0 <= i < |keys| => Found(keys[i].value, rows[keys[i].value]));
    forall i, j | 0 <= i < j < |lines|
      ensures Less(lines[i].id, lines[j].id)
    {
      TreeRead.KeysAscend(keys, i, j);
    }
    forall id | id in rows && Live(rows[id])
      ensures Found(id, rows[id]) in lines
    {
      assert id in live;
      var i :| 0 <= i < |keys| && keys[i].value == id;
      assert lines[i] == Found(id, rows[id]);
    }
  }

  /** The tree entries to stream: the selected keys that the tree holds, or all of them. */
  method ListEntries(db: Store, root: Bytes, selected: Option<set<Uuid>>, ghost objects: M.Rows)
    returns (r: Option<seq<Entry<Bytes>>>)
    ensures Archived(db.hash, db.rows, root, objects) ==> r.Some? && Entered(db.hash, objects, selected, r.value)
  {
    hide Seals, Kept, TreeStore.DenotesMap, Sorted, Distinct, Lookup, Unpack, Names, Named;
    ghost var archived := Archived(db.hash, db.rows, root, objects);
    ghost var m: map<Key, Bytes> :| archived ==>
        TreeStore.DenotesMap(db.hash, db.rows, root, m)
        && Seals(db.hash, objects, m);
    if selected.Some? {
      var found := TreeRead.LookupMany(db, root, selected.value);
      if found.None? {
        return None;
      }
      var keys := TreeRead.SortedKeys(found.value.Keys);
      var list := seq(|keys|, i requires 0 <= i < |keys| => Entry(keys[i].key, found.value[keys[i].value]));
      if archived { SelectedEntered(db.hash, objects, m, selected.value, found.value, keys, list); }
      return Some(list);
    }
    r := TreeScan.Entries(db, root);
    if archived { AllEntered(db.hash, objects, m, r.value); }
  }

  lemma AllEntered(h: Hash, objects: M.Rows, m: map<Key, Bytes>, e: seq<Entry<Bytes>>)
    requires Seals(h, objects, m) && Sorted(e) && Distinct(e) && forall k: Key :: Lookup(e, 0, |e|, k) == Get(m, k)
    ensures Entered(h, objects, None, e)
  {
    hide Seals, Sorted, Distinct, Lookup, Unpack, Names, Named;
    EntriesList(h, objects, m, e);
  }

  lemma SelectedEntered(h: Hash, objects: M.Rows, m: map<Key, Bytes>, selected: set<Uuid>, found: map<Uuid, Bytes>,
                        keys: seq<Entry<Uuid>>, e: seq<Entry<Bytes>>)
    requires Seals(h, objects, m) && found == map u | u in selected && Unpack(u) in m :: m[Unpack(u)]
    requires Sorted(keys) && Distinct(keys) && |e| == |keys|
    requires forall i | 0 <= i < |keys| :: keys[i].key == Unpack(keys[i].value) && keys[i].value in found
    requires forall u | u in found :: exists i :: 0 <= i < |keys| && keys[i].value == u
    requires forall i | 0 <= i < |keys| :: e[i] == Entry(keys[i].key, found[keys[i].value])
    ensures Entered(h, objects, Some(selected), e)
  {
    hide Unpack, Less, Sealed;
    forall i | 0 <= i < |e|
      ensures Named(h, objects, e[i])
    {
      var u := keys[i].value;
      assert Get(m, Unpack(u)) == Sealed(h, objects, u);
      assert Names(h, objects, e[i], u);
    }
    forall i, u | 0 <= i < |e| && Unpack(u) == e[i].key
      ensures Visible(Some(selected), u)
    {
      UnpackInjective(u, keys[i].value);
    }
    forall u | u in objects && Visible(Some(selected), u)
      ensures exists i :: 0 <= i < |e| && Names(h, objects, e[i], u)
    {
      SealedSome(h, objects, u);
      assert Get(m, Unpack(u)) == Sealed(h, objects, u);
      assert u in found;
      var i :| 0 <= i < |keys| && keys[i].value == u;
      assert Names(h, objects, e[i], u);
    }
  }
}
