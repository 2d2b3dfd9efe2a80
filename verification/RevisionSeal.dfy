/** Sealing a working head as an immutable root, reading it back, and replaying its journal. */
module RevisionSeal {
  import opened Prelude
  import opened Uuid
  import opened ContentStore
  import opened TreeStore
  import opened Changes
  import opened SortedRange
  import opened Journal
  import M = ModelRecord
  import TreeUpdate
  import TreeBuild
  import TreeApply
  import TreeRead
  import TreeScan
  import TreeClash
  import TreeParts
  import RadixTree

  /** The map holds, under every object's key, the digest of the object's record and nothing else. */
  ghost predicate Seals(h: Hash, objects: M.Rows, m: map<Key, Bytes>) {
    forall u: Uuid :: Get(m, Unpack(u)) == Sealed(h, objects, u)
  }

  function Sealed(h: Hash, objects: M.Rows, u: Uuid): Option<Bytes> {
    if u in objects then Some(h(Blob, M.Record(objects[u]))) else None
  }

  /** Every object's record can be fetched. */
  ghost predicate Kept(h: Hash, rows: Rows, objects: M.Rows) {
    forall u | u in objects :: Fetch(h, rows, Blob, h(Blob, M.Record(objects[u]))) == Some(M.Record(objects[u]))
  }

  /** The root is the immutable snapshot of exactly these objects, tombstones and versions included. */
  ghost predicate Archived(h: Hash, rows: Rows, root: Bytes, objects: M.Rows) {
    Kept(h, rows, objects) && exists m :: DenotesMap(h, rows, root, m) && Seals(h, objects, m)
  }

  lemma SealsOne(h: Hash, objects: M.Rows, m: map<Key, Bytes>, m': map<Key, Bytes>)
    requires Seals(h, objects, m) && Seals(h, objects, m')
    ensures m == m'
  {
    forall k: Key
      ensures Get(m, k) == Get(m', k)
    {
      var u := Packed(k);
      assert Get(m, Unpack(u)) == Get(m', Unpack(u));
    }
    SameGets(m, m');
  }

  /** The UUID of a key. */
  lemma Packed(k: Key) returns (u: Uuid)
    ensures Unpack(u) == k
  {
    var bytes: Bytes := seq(16, i requires 0 <= i < 16 => k[2 * i] * 16 + k[2 * i + 1]);
    u := bytes;
    forall j | 0 <= j < KEY_NIBBLES
      ensures Unpack(u)[j] == k[j]
    {
      assert j == 2 * (j / 2) || j == 2 * (j / 2) + 1;
      assert u[j / 2] == k[2 * (j / 2)] * 16 + k[2 * (j / 2) + 1];
    }
  }

  /** One set of objects has one root, however it was sealed. */
  lemma OneRootPerSnapshot(h: Hash, rowsA: Rows, rowsB: Rows, rootA: Bytes, rootB: Bytes, objects: M.Rows)
    requires Archived(h, rowsA, rootA, objects) && Archived(h, rowsB, rootB, objects)
    ensures rootA == rootB
  {
    hide DenotesMap, Kept, Seals;
    var a :| DenotesMap(h, rowsA, rootA, a) && Seals(h, objects, a);
    var b :| DenotesMap(h, rowsB, rootB, b) && Seals(h, objects, b);
    SealsOne(h, objects, a, b);
    UniqueRoot(h, rowsA, rowsB, rootA, rootB, a);
  }

  // ------------------------------------------------------------------- sealing

  /** Rows of objects that no event names are those the head started from. */
  lemma {:induction false} Unjournaled(start: M.Rows, events: seq<Event>, u: Uuid)
    requires Replay(start, events).Some? && forall i | 0 <= i < |events| :: events[i].id != u
    ensures Get(Replay(start, events).value, u) == Get(start, u)
  {
    if events != [] { Unjournaled(start, events[..|events| - 1], u); }
  }

  /** The changes that seal these objects, in order. */
  ghost predicate SealingChanges(h: Hash, objects: M.Rows, keys: seq<Entry<Uuid>>, changes: seq<Change>) {
    && |changes| == |keys|
    && forall i | 0 <= i < |keys| ::
    keys[i].value in objects
    && changes[i] == Change(keys[i].value, Sealed(h, objects, keys[i].value))
  }

  // The payload that seals the object behind a key.
  function RecordItem(h: Hash, objects: M.Rows, key: Entry<Uuid>): Prepared
    requires key.value in objects
  {
    Prepared(Blob, M.Record(objects[key.value]), h(Blob, M.Record(objects[key.value])))
  }

  function RecordItems(h: Hash, objects: M.Rows, keys: seq<Entry<Uuid>>): (items: seq<Prepared>)
    requires forall i | 0 <= i < |keys| :: keys[i].value in objects
    ensures |items| == |keys| && forall i | 0 <= i < |keys| :: items[i] == RecordItem(h, objects, keys[i])
  {
    seq(|keys|, i requires 0 <= i < |keys| => RecordItem(h, objects, keys[i]))
  }

  /** Encodes, hashes and stores the records of some objects. */
  method StoreRecords(db: Store, objects: M.Rows, keys: seq<Entry<Uuid>>) returns (r: Option<seq<Change>>)
    requires forall i | 0 <= i < |keys| :: keys[i].value in objects
    modifies db
    ensures Extends(old(db.rows), db.rows)
    ensures r.Some? ==> SealingChanges(db.hash, objects, keys, r.value)
    ensures r.Some? ==> db.rows == old(db.rows) + RowsOf(Blob, RecordItems(db.hash, objects, keys))
    ensures r.Some? ==> forall i | 0 <= i < |keys| ::
              var record := M.Record(objects[keys[i].value]);
                Fetch(db.hash, db.rows, Blob, db.hash(Blob, record))
                == Some(record)
    ensures r.Some? <==>
              && (forall i | 0 <= i < |keys| :: !IsNull(keys[i].value))
              && NoClash(RecordItems(db.hash, objects, keys))
              && forall i | 0 <= i < |keys| :: Storable(db.hash, old(db.rows), Blob, M.Record(objects[keys[i].value]))
  {
    hide M.Record, IsNull, Insertable, Inserted;
    ghost var all := RecordItems(db.hash, objects, keys);
    var items: seq<Prepared> := [];
    for i := 0 to |keys|
      invariant items == all[..i] && db.rows == old(db.rows)
      invariant forall j | 0 <= j < i :: !IsNull(keys[j].value)
    {
      if IsNull(keys[i].value) {
        return None;
      }
      var record := M.EncodeRecord(objects[keys[i].value]);
      items := items + [Prepared(Blob, record, db.hash(Blob, record))];
    }
    assert items == all;
    var hashes := db.PutManyPrepared(Blob, items);
    if hashes.None? {
      return None;
    }
    var changes: seq<Change> := [];
    for i := 0 to |keys|
      invariant |changes| == i
      invariant forall j | 0 <= j < i :: changes[j] == Change(keys[j].value, Some(hashes.value[j]))
    {
      changes := changes + [Change(keys[i].value, Some(hashes.value[i]))];
    }
    forall i | 0 <= i < |keys|
      ensures var record := M.Record(objects[keys[i].value]);
                Fetch(db.hash, db.rows, Blob, db.hash(Blob, record))
                == Some(record)
    {
      RowsOfAll(Blob, items, i);
    }
    r := Some(changes);
  }

  lemma ChangesDistinct(h: Hash, objects: M.Rows, keys: seq<Entry<Uuid>>, changes: seq<Change>)
    requires SealingChanges(h, objects, keys, changes) && Distinct(keys)
    requires forall i | 0 <= i < |keys| :: keys[i].key == Unpack(keys[i].value)
    ensures DistinctKeys(changes)
  {}

  /** Writing the sealing changes of a set of keys seals those, and leaves the other keys. */
  lemma SealingWrites(h: Hash, objects: M.Rows, keys: seq<Entry<Uuid>>, changes: seq<Change>, m: map<Key, Bytes>,
                      u: Uuid)
    requires SealingChanges(h, objects, keys, changes) && Distinct(keys)
    requires forall i | 0 <= i < |keys| :: keys[i].key == Unpack(keys[i].value)
    ensures Get(WriteAll(m, changes), Unpack(u)) ==
            if exists i :: 0 <= i < |keys| && keys[i].value == u then Sealed(h, objects, u) else Get(m, Unpack(u))
  {
    hide Sealed, Unpack, WriteAll;
    ChangesDistinct(h, objects, keys, changes);
    DistinctEntries(changes);
    WriteAllGet(m, changes, Unpack(u));
    var entries := Entries(changes);
    if i :| 0 <= i < |keys| && keys[i].value == u {
      assert entries[i] == Entry(Unpack(u), Sealed(h, objects, u));
      LookupIn(entries, 0, |changes|, i);
    } else {
      forall i | 0 <= i < |entries|
        ensures entries[i].key != Unpack(u)
      {
        if entries[i].key == Unpack(u) { UnpackInjective(changes[i].key, u); }
      }
      LookupOut(entries, 0, |changes|, Unpack(u));
    }
  }

  /** The objects that the journal of a head names. */
  function Touched(head: Head): set<Uuid> {
    set e | e in head.events && e.id in head.rows :: e.id
  }

  /** No record of these objects collides with another one or with stored content. */
  ghost predicate Collisionless(h: Hash, rows: Rows, objects: M.Rows, ids: set<Uuid>)
    requires ids <= objects.Keys
  {
    && (forall u, v | u in ids && v in ids && h(Blob, M.Record(objects[u])) == h(Blob, M.Record(objects[v])) ::
          M.Record(objects[u]) == M.Record(objects[v]))
    && forall u | u in ids :: Storable(h, rows, Blob, M.Record(objects[u]))
  }

  lemma CollisionlessItems(h: Hash, rows: Rows, objects: M.Rows, ids: set<Uuid>, keys: seq<Entry<Uuid>>)
    requires ids <= objects.Keys && Collisionless(h, rows, objects, ids)
    requires forall i | 0 <= i < |keys| :: keys[i].value in ids
    ensures NoClash(RecordItems(h, objects, keys))
    ensures forall i | 0 <= i < |keys| :: Storable(h, rows, Blob, M.Record(objects[keys[i].value]))
  {
    hide M.Record;
  }

  lemma FetchExtends(h: Hash, before: Rows, after: Rows, digest: Bytes, payload: Bytes)
    requires Extends(before, after) && Fetch(h, before, Blob, digest) == Some(payload)
    ensures Fetch(h, after, Blob, digest) == Some(payload)
  {}

  /** Conversely, a batch of all these records is refused if some of them collide. */
  lemma ItemsCollisionless(h: Hash, rows: Rows, objects: M.Rows, ids: set<Uuid>, keys: seq<Entry<Uuid>>)
    requires ids <= objects.Keys && forall i | 0 <= i < |keys| :: keys[i].value in ids
    requires forall u | u in ids :: exists i :: 0 <= i < |keys| && keys[i].value == u
    requires NoClash(RecordItems(h, objects, keys))
    requires forall i | 0 <= i < |keys| :: Storable(h, rows, Blob, M.Record(objects[keys[i].value]))
    ensures Collisionless(h, rows, objects, ids)
  {
    hide M.Record;
    forall u, v | u in ids && v in ids && h(Blob, M.Record(objects[u])) == h(Blob, M.Record(objects[v]))
      ensures M.Record(objects[u]) == M.Record(objects[v])
    {
      var i :| 0 <= i < |keys| && keys[i].value == u;
      var j :| 0 <= j < |keys| && keys[j].value == v;
      assert i < j || j < i || i == j;
    }
  }

  ghost function RecordDigests(h: Hash, objects: M.Rows, ids: set<Uuid>): set<Bytes>
    requires ids <= objects.Keys
  {
    set u | u in ids :: h(Blob, M.Record(objects[u]))
  }

  ghost function RecordUnder(h: Hash, objects: M.Rows, ids: set<Uuid>, d: Bytes): (record: Bytes)
    requires ids <= objects.Keys && d in RecordDigests(h, objects, ids)
    ensures exists u :: u in ids && h(Blob, M.Record(objects[u])) == d && M.Record(objects[u]) == record
  {
    var u :| u in ids && h(Blob, M.Record(objects[u])) == d;
    M.Record(objects[u])
  }

  /** The rows of the records of some objects. */
  ghost function RecordRows(h: Hash, objects: M.Rows, ids: set<Uuid>): Rows
    requires ids <= objects.Keys
  {
    map d | d in RecordDigests(h, objects, ids) :: Row(Blob, RecordUnder(h, objects, ids, d))
  }

  lemma RowFromRecord(h: Hash, rows: Rows, objects: M.Rows, ids: set<Uuid>, keys: seq<Entry<Uuid>>, d: Bytes)
    requires ids <= objects.Keys && Collisionless(h, rows, objects, ids)
    requires forall i | 0 <= i < |keys| :: keys[i].value in ids
    requires d in RowsOf(Blob, RecordItems(h, objects, keys))
    ensures d in RecordRows(h, objects, ids)
    ensures RecordRows(h, objects, ids)[d] == RowsOf(Blob, RecordItems(h, objects, keys))[d]
  {
    hide M.Record, RowsOf, Storable;
    var items := RecordItems(h, objects, keys);
    FromItem(Blob, items, d);
    var i :| 0 <= i < |items| && items[i].sha256 == d && RowsOf(Blob, items)[d] == Row(Blob, items[i].payload);
    assert keys[i].value in ids;
    var u :| u in ids && h(Blob, M.Record(objects[u])) == d && M.Record(objects[u]) == RecordUnder(h, objects, ids, d);
  }

  /** Without collisions, the batch of the records adds just their rows. */
  lemma RecordRowsOf(h: Hash, rows: Rows, objects: M.Rows, ids: set<Uuid>, keys: seq<Entry<Uuid>>)
    requires ids <= objects.Keys && Collisionless(h, rows, objects, ids)
    requires forall i | 0 <= i < |keys| :: keys[i].value in ids
    requires forall u | u in ids :: exists i :: 0 <= i < |keys| && keys[i].value == u
    ensures RowsOf(Blob, RecordItems(h, objects, keys)) == RecordRows(h, objects, ids)
  {
    hide M.Record, RowsOf;
    var items, all := RecordItems(h, objects, keys), RecordRows(h, objects, ids);
    CollisionlessItems(h, rows, objects, ids, keys);
    forall d | d in RowsOf(Blob, items)
      ensures d in all && all[d] == RowsOf(Blob, items)[d]
    {
      RowFromRecord(h, rows, objects, ids, keys, d);
    }
    forall d | d in all
      ensures d in RowsOf(Blob, items)
    {
      var u :| u in ids && h(Blob, M.Record(objects[u])) == d;
      var i :| 0 <= i < |keys| && keys[i].value == u;
      RowsOfAll(Blob, items, i);
    }
    assert RowsOf(Blob, items).Keys == all.Keys;
  }

  lemma AllSeals(h: Hash, objects: M.Rows, keys: seq<Entry<Uuid>>, changes: seq<Change>)
    requires SealingChanges(h, objects, keys, changes) && Distinct(keys)
    requires forall i | 0 <= i < |keys| :: keys[i].key == Unpack(keys[i].value)
    requires forall u | u in objects :: exists i :: 0 <= i < |keys| && keys[i].value == u
    ensures Seals(h, objects, WriteAll(map[], changes))
  {
    hide WriteAll, SealingChanges, Sealed;
    var m := WriteAll(map[], changes);
    forall u: Uuid
      ensures Get(m, Unpack(u)) == Sealed(h, objects, u)
    {
      SealingWrites(h, objects, keys, changes, map[], u);
      if exists i :: 0 <= i < |keys| && keys[i].value == u {
      } else {
        NotSealed(h, objects, u);
      }
    }
  }

  /** The tree that seals the objects has a node whose digest another node or stored content already has. */
  ghost predicate TreeBlocked(h: Hash, rows: Rows, objects: M.Rows) {
    exists m: map<Key, Bytes> :: Seals(h, objects, m) && TreeClash.Clashes(h, rows, m)
  }

  /** Parts of the trees that seal the two sets of objects collide. */
  ghost predicate BatchBlocked(h: Hash, rows: Rows, start: M.Rows, objects: M.Rows) {
    exists was: map<Key, Bytes>, will: map<Key, Bytes> ::
      Seals(h, start, was) && Seals(h, objects, will) && !TreeParts.BatchClean(h, rows, was, will)
  }

  /** The objects whose records a seal writes: without a parent snapshot all of them. */
  function Recorded(start: Option<M.Rows>, head: Head): (ids: set<Uuid>)
    ensures ids <= head.rows.Keys
  {
    if start.None? then head.rows.Keys else Touched(head)
  }

  /**
   What alone can keep a head from being sealed on its parent snapshot: a digest
   collision, among the records it writes, or in its tree over those records.
   */
  ghost predicate SealBlocked(h: Hash, rows: Rows, start: Option<M.Rows>, head: Head) {
    || !Collisionless(h, rows, head.rows, Recorded(start, head))
    || var mid := rows + RecordRows(h, head.rows, Recorded(start, head));
       if start.None? then TreeBlocked(h, mid, head.rows) else BatchBlocked(h, mid, start.value, head.rows)
  }

  lemma NotSealed(h: Hash, objects: M.Rows, u: Uuid)
    ensures u !in objects ==> Sealed(h, objects, u) == None
  {}

  /** The journaled objects' changes, written to the parent snapshot, seal the whole head. */
  lemma IncrementSeals(h: Hash, start: M.Rows, head: Head, m: map<Key, Bytes>, keys: seq<Entry<Uuid>>,
                       changes: seq<Change>)
    requires SealingChanges(h, head.rows, keys, changes) && Distinct(keys)
    requires forall i | 0 <= i < |keys| :: keys[i].key == Unpack(keys[i].value)
    requires forall u | u in Touched(head) :: exists i :: 0 <= i < |keys| && keys[i].value == u
    requires Journaled(start, head) && Seals(h, start, m)
    ensures Seals(h, head.rows, WriteAll(m, changes))
  {
    hide WriteAll, SealingChanges, Replay;
    forall u: Uuid
      ensures Get(WriteAll(m, changes), Unpack(u)) == Sealed(h, head.rows, u)
    {
      SealingWrites(h, head.rows, keys, changes, m, u);
      if u !in Touched(head) { Untouched(start, head, u); }
    }
  }

  lemma Untouched(start: M.Rows, head: Head, u: Uuid)
    requires Journaled(start, head) && u !in Touched(head)
    ensures Get(head.rows, u) == Get(start, u)
  {
    Unjournaled(start, head.events, u);
  }

  lemma IncrementKept(h: Hash, before: Rows, after: Rows, start: M.Rows, head: Head)
    requires Journaled(start, head) && Kept(h, before, start) && Extends(before, after)
    requires forall u | u in Touched(head) ::
               Fetch(h, after, Blob, h(Blob, M.Record(head.rows[u]))) == Some(M.Record(head.rows[u]))
    ensures Kept(h, after, head.rows)
  {
    hide M.Record, Journaled;
    forall u | u in head.rows
      ensures Fetch(h, after, Blob, h(Blob, M.Record(head.rows[u]))) == Some(M.Record(head.rows[u]))
    {
      if u !in Touched(head) {
        Untouched(start, head, u);
        FetchExtends(h, before, after, h(Blob, M.Record(start[u])), M.Record(start[u]));
      }
    }
  }

  /**
   Seals a head. Without a parent root every row is sealed; with one, only the
   objects that the journal names are rewritten on the parent's tree, and the
   result is still the snapshot of the whole head.
   */
  method BuildRevisionRoot(db: Store, head: Head, baseRoot: Bytes) returns (r: Option<Bytes>)
    modifies db
    ensures Extends(old(db.rows), db.rows)
    ensures baseRoot == [] ==>
              (r.Some? <==>
               (forall u | u in head.rows :: !IsNull(u))
               && !SealBlocked(db.hash, old(db.rows), None, head))
    ensures baseRoot == [] && r.Some? ==> Archived(db.hash, db.rows, r.value, head.rows)
    ensures baseRoot != [] ==> forall start: M.Rows |
              Archived(db.hash, old(db.rows), baseRoot, start) && Journaled(start, head)
              && !SealBlocked(db.hash, old(db.rows), Some(start), head) ::
              r.Some? && Archived(db.hash, db.rows, r.value, head.rows)
  {
    hide DenotesMap, Seals, Kept, Fetch, WriteAll, SealingChanges, Journaled, M.Record, TreeParts.BatchClean,
      Distinct, IsNull, RecordRows, Collisionless, TreeBlocked, BatchBlocked, TreeClash.Clashes, NoClash, Storable;
    ghost var before := db.rows;
    var ids := if baseRoot == [] then head.rows.Keys else Touched(head);
    var keys := TreeRead.SortedKeys(ids);
    var changes := StoreRecords(db, head.rows, keys);
    if Collisionless(db.hash, before, head.rows, ids) {
      CollisionlessItems(db.hash, before, head.rows, ids, keys);
      RecordRowsOf(db.hash, before, head.rows, ids, keys);
    }
    forall start | Journaled(start, head) && baseRoot != [] && Collisionless(db.hash, before, head.rows, Touched(head))
      ensures changes.Some?
    {
      TouchedNotNull(start, head);
    }
    if changes.None? {
      return None;
    }
    ItemsCollisionless(db.hash, before, head.rows, ids, keys);
    ghost var mid := db.rows;
    if baseRoot == [] {
      r := TreeBuild.Build(db, changes.value, true);
      AllSeals(db.hash, head.rows, keys, changes.value);
      SealingPuts(db.hash, head.rows, keys, changes.value);
      ChangesDistinct(db.hash, head.rows, keys, changes.value);
      BlockedOnce(db.hash, mid, head.rows, WriteAll(map[], changes.value));
      if r.Some? {
        forall u | u in head.rows
          ensures Fetch(db.hash, db.rows, Blob, db.hash(Blob, M.Record(head.rows[u]))) == Some(M.Record(head.rows[u]))
        {
          var i :| 0 <= i < |keys| && keys[i].value == u;
          FetchExtends(db.hash, mid, db.rows, db.hash(Blob, M.Record(head.rows[u])), M.Record(head.rows[u]));
        }
        KeptAll(db.hash, db.rows, head.rows);
      }
      return;
    }
    SealingKnown(db.hash, mid, head.rows, keys, changes.value);
    ChangesDistinct(db.hash, head.rows, keys, changes.value);
    r := TreeApply.Apply(db, baseRoot, changes.value);
    forall start | Archived(db.hash, before, baseRoot, start) && Journaled(start, head)
                   && !SealBlocked(db.hash, before, Some(start), head)
      ensures r.Some? && Archived(db.hash, db.rows, r.value, head.rows)
    {
      var m :| DenotesMap(db.hash, before, baseRoot, m) && Seals(db.hash, start, m);
      RootsPersist(db.hash, before, mid, baseRoot, m);
      IncrementSeals(db.hash, start, head, m, keys, changes.value);
      NotBlocked(db.hash, mid, start, head.rows, m, WriteAll(m, changes.value));
      assert r.Some? && DenotesMap(db.hash, db.rows, r.value, WriteAll(m, changes.value));
      forall u | u in Touched(head)
        ensures Fetch(db.hash, db.rows, Blob, db.hash(Blob, M.Record(head.rows[u]))) == Some(M.Record(head.rows[u]))
      {
        var i :| 0 <= i < |keys| && keys[i].value == u;
        FetchExtends(db.hash, mid, db.rows, db.hash(Blob, M.Record(head.rows[u])), M.Record(head.rows[u]));
      }
      IncrementKept(db.hash, before, db.rows, start, head);
    }
  }

  /** One map seals the objects, so it alone decides whether their tree is blocked. */
  lemma BlockedOnce(h: Hash, rows: Rows, objects: M.Rows, m: map<Key, Bytes>)
    requires Seals(h, objects, m)
    ensures TreeBlocked(h, rows, objects) <==> TreeClash.Clashes(h, rows, m)
  {
    hide Seals, TreeClash.Clashes;
    if TreeBlocked(h, rows, objects) {
      var m' :| Seals(h, objects, m') && TreeClash.Clashes(h, rows, m');
      SealsOne(h, objects, m, m');
    }
  }

  lemma NotBlocked(h: Hash, rows: Rows, start: M.Rows, objects: M.Rows, was: map<Key, Bytes>, will: map<Key, Bytes>)
    requires Seals(h, start, was) && Seals(h, objects, will) && !BatchBlocked(h, rows, start, objects)
    ensures TreeParts.BatchClean(h, rows, was, will)
  {
    hide Seals, TreeParts.BatchClean;
  }

  lemma SealingPuts(h: Hash, objects: M.Rows, keys: seq<Entry<Uuid>>, changes: seq<Change>)
    requires SealingChanges(h, objects, keys, changes)
    ensures TreeBuild.AllPuts(changes)
  {
  }

  lemma KeptAll(h: Hash, rows: Rows, objects: M.Rows)
    requires forall u | u in objects :: Fetch(h, rows, Blob, h(Blob, M.Record(objects[u])))
               == Some(M.Record(objects[u]))
    ensures Kept(h, rows, objects)
  {}

  lemma TouchedNotNull(start: M.Rows, head: Head)
    requires Journaled(start, head)
    ensures forall u | u in Touched(head) :: !IsNull(u)
  {
    hide IsNull;
    forall u | u in Touched(head)
      ensures !IsNull(u)
    {
      var e :| e in head.events && e.id == u;
      var i :| 0 <= i < |head.events| && head.events[i] == e;
    }
  }

  /** No journal brings in a null identifier. */
  lemma StillNamed(start: M.Rows, head: Head)
    requires Journaled(start, head) && forall u | u in start :: !IsNull(u)
    ensures forall u | u in head.rows :: !IsNull(u)
  {
    hide Journaled, IsNull;
    TouchedNotNull(start, head);
    forall u | u in head.rows
      ensures !IsNull(u)
    {
      if u !in Touched(head) { Untouched(start, head, u); }
    }
  }

  lemma SealingKnown(h: Hash, rows: Rows, objects: M.Rows, keys: seq<Entry<Uuid>>, changes: seq<Change>)
    requires SealingChanges(h, objects, keys, changes)
    requires forall i | 0 <= i < |keys| ::
               keys[i].value in objects && Fetch(h, rows, Blob, h(Blob, M.Record(objects[keys[i].value])))
                 == Some(M.Record(objects[keys[i].value]))
    ensures TreeApply.BlobsKnown(h, rows, changes)
  {
    hide M.Record, Fetch;
  }

  // -------------------------------------------------------------------- reading

  /** The row whose canonical record is stored under a digest. */
  ghost function RecordAt(h: Hash, rows: Rows, digest: Bytes): (r: Option<M.Row>)
    ensures r.Some? ==> Fetch(h, rows, Blob, digest) == Some(M.Record(r.value)) && M.Readable(r.value)
  {
    var payload := Fetch(h, rows, Blob, digest);
    if payload.Some? && exists row :: M.Readable(row) && M.Record(row) == payload.value
    then var row :| M.Readable(row) && M.Record(row) == payload.value; Some(row)
    else None
  }

  lemma RecordAtKept(h: Hash, rows: Rows, digest: Bytes, row: M.Row)
    requires Fetch(h, rows, Blob, digest) == Some(M.Record(row))
    ensures M.Readable(row) ==> RecordAt(h, rows, digest) == Some(row)
    ensures forall r | M.Readable(r) && M.Record(r) == M.Record(row) :: RecordAt(h, rows, digest) == Some(r)
  {
    hide M.Record, Fetch, M.Readable;
    forall r | M.Readable(r) && M.Record(r) == M.Record(row)
      ensures RecordAt(h, rows, digest) == Some(r)
    {
      M.RecordInjective(r, RecordAt(h, rows, digest).value);
    }
  }

  datatype Found = Found(id: Uuid, row: M.Row)

  /** The records behind some entries of a tree, in order: all of them or an error. */
  method ReadEntries(db: Store, entries: seq<Entry<Bytes>>) returns (r: Option<seq<Found>>)
    ensures r.Some? <==> forall i | 0 <= i < |entries| :: RecordAt(db.hash, db.rows, entries[i].value).Some?
    ensures r.Some? ==> |r.value| == |entries|
    ensures r.Some? ==> forall i | 0 <= i < |entries| ::
              Unpack(r.value[i].id) == entries[i].key && RecordAt(db.hash, db.rows, entries[i].value)
                == Some(r.value[i].row)
  {
    hide Fetch, M.Record, M.Readable, Unpack;
    if entries == [] {
      return Some([]);
    }
    var digests := seq(|entries|, i requires 0 <= i < |entries| => entries[i].value);
    var payloads := db.GetMany(Blob, digests);
    if payloads.None? {
      ghost var i :| 0 <= i < |digests| && Fetch(db.hash, db.rows, Blob, digests[i]).None?;
      assert RecordAt(db.hash, db.rows, entries[i].value).None?;
      return None;
    }
    var result: seq<Found> := [];
    for i := 0 to |entries|
      invariant |result| == i
      invariant forall j | 0 <= j < i ::
                  Unpack(result[j].id) == entries[j].key && RecordAt(db.hash, db.rows, entries[j].value)
                    == Some(result[j].row)
    {
      assert digests[i] in payloads.value;
      var row := M.DecodeRecord(payloads.value[entries[i].value]);
      if row.None? {
        assert RecordAt(db.hash, db.rows, entries[i].value).None?;
        return None;
      }
      RecordAtKept(db.hash, db.rows, entries[i].value, row.value);
      var id := PackKey(entries[i].key);
      result := result + [Found(id, row.value)];
    }
    r := Some(result);
  }

  // The object named by an entry.
  ghost predicate Names(h: Hash, objects: M.Rows, e: Entry<Bytes>, u: Uuid) {
    Unpack(u) == e.key && Sealed(h, objects, u) == Some(e.value)
  }

  ghost predicate Named(h: Hash, objects: M.Rows, e: Entry<Bytes>) {
    exists u :: Names(h, objects, e, u)
  }

  /** The listing names exactly these objects, each with its record's digest. */
  ghost predicate Lists(h: Hash, objects: M.Rows, e: seq<Entry<Bytes>>) {
    && (forall u | u in objects :: exists i :: 0 <= i < |e| && Names(h, objects, e[i], u))
    && forall i | 0 <= i < |e| :: Named(h, objects, e[i])
  }

  lemma EntriesList(h: Hash, objects: M.Rows, m: map<Key, Bytes>, e: seq<Entry<Bytes>>)
    requires Seals(h, objects, m) && Distinct(e) && forall k: Key :: Lookup(e, 0, |e|, k) == Get(m, k)
    ensures Lists(h, objects, e)
  {
    hide Unpack, Distinct, Sealed, Lookup;
    forall u | u in objects
      ensures exists i :: 0 <= i < |e| && Names(h, objects, e[i], u)
    {
      assert Get(m, Unpack(u)) == Sealed(h, objects, u);
      var i := EntryOf(h, objects, e, u);
    }
    forall i | 0 <= i < |e|
      ensures Named(h, objects, e[i])
    {
      LookupIn(e, 0, |e|, i);
      var u := Packed(e[i].key);
      assert Get(m, Unpack(u)) == Sealed(h, objects, u);
      assert Names(h, objects, e[i], u);
    }
  }

  lemma EntryOf(h: Hash, objects: M.Rows, e: seq<Entry<Bytes>>, u: Uuid) returns (i: nat)
    requires u in objects && Lookup(e, 0, |e|, Unpack(u)) == Sealed(h, objects, u)
    ensures i < |e| && Names(h, objects, e[i], u)
  {
    hide Unpack, Lookup;
    i := LookupSome(e, 0, |e|, Unpack(u));
  }

  lemma SealedSome(h: Hash, objects: M.Rows, u: Uuid)
    ensures u in objects ==> Sealed(h, objects, u) == Some(h(Blob, M.Record(objects[u])))
    ensures Sealed(h, objects, u).Some? ==> u in objects
  {}

  /** An entry of a kept snapshot reads as its object's row, if that row can be read back at all. */
  lemma EntryReads(h: Hash, rows: Rows, objects: M.Rows, e: seq<Entry<Bytes>>, i: nat) returns (u: Uuid)
    requires Kept(h, rows, objects) && Lists(h, objects, e) && i < |e|
    ensures Unpack(u) == e[i].key && u in objects
    ensures M.Tabled(objects[u]) ==>
              RecordAt(h, rows, e[i].value) == if M.ValidKind(objects[u].kind) then Some(objects[u]) else None
  {
    hide Fetch, M.Record, Unpack, M.ValidKind, M.Tabled;
    assert Named(h, objects, e[i]);
    u :| Names(h, objects, e[i], u);
    RecordAtKept(h, rows, e[i].value, objects[u]);
    if M.Tabled(objects[u]) { M.ReadBack(objects[u]); }
  }

  predicate AllTabled(objects: M.Rows) {
    forall u | u in objects :: M.Tabled(objects[u])
  }

  predicate LegalKinds(objects: M.Rows) {
    forall u | u in objects :: M.ValidKind(objects[u].kind)
  }

  /** The first entries' objects have been read. */
  ghost predicate Collected(objects: M.Rows, e: seq<Entry<Bytes>>, i: nat, result: M.Rows)
    requires i <= |e|
  {
    && (forall u | u in result :: u in objects && result[u] == objects[u])
    && forall u, j | u in objects && 0 <= j < i && e[j].key == Unpack(u) :: u in result
  }

  lemma CollectedAll(h: Hash, objects: M.Rows, e: seq<Entry<Bytes>>, result: M.Rows)
    requires Collected(objects, e, |e|, result) && Lists(h, objects, e)
    ensures result == objects
  {
    hide Unpack, Sealed;
    forall u | u in objects
      ensures u in result
    {
      var i :| 0 <= i < |e| && Names(h, objects, e[i], u);
    }
  }

  lemma CollectedNext(objects: M.Rows, e: seq<Entry<Bytes>>, i: nat, result: M.Rows, u: Uuid)
    requires i < |e| && Collected(objects, e, i, result) && Unpack(u) == e[i].key && u in objects
    ensures Collected(objects, e, i + 1, result[u := objects[u]])
  {
    hide Unpack;
    forall v, j | v in objects && 0 <= j < i + 1 && e[j].key == Unpack(v)
      ensures v in result[u := objects[u]]
    {
      if j == i { UnpackInjective(u, v); }
    }
  }

  /**
   The objects of a snapshot: everything or an error. What was sealed comes back
   exactly, versions and tombstones included, if and only if every kind is legal.
   */
  method ReadRevisionObjects(db: Store, root: Bytes) returns (r: Option<M.Rows>)
    ensures forall objects | Archived(db.hash, db.rows, root, objects) && AllTabled(objects) ::
              r == if LegalKinds(objects) then Some(objects) else None
    ensures r.Some? ==> Archived(db.hash, db.rows, root, r.value) && AllTabled(r.value) && LegalKinds(r.value)
  {
    hide DenotesMap, Seals, Kept, Fetch, M.Record, M.Readable, Distinct, Lookup, Sorted, Lists, Collected, Unpack,
      AllTabled, LegalKinds, RadixTree.Find, Load;
    var entries := TreeScan.Entries(db, root);
    forall objects | Archived(db.hash, db.rows, root, objects)
      ensures entries.Some? && Lists(db.hash, objects, entries.value)
    {
      var m :| DenotesMap(db.hash, db.rows, root, m) && Seals(db.hash, objects, m);
      EntriesList(db.hash, objects, m, entries.value);
    }
    if entries.None? {
      return None;
    }
    var records := ReadEntries(db, entries.value);
    forall objects | Archived(db.hash, db.rows, root, objects) && AllTabled(objects)
      ensures records.Some? <==> LegalKinds(objects)
    {
      AllRead(db.hash, db.rows, objects, entries.value);
    }
    if records.None? {
      return None;
    }
    var result := Collect(records.value);
    FoundTabled(db.hash, db.rows, entries.value, records.value, |records.value|);
    assert records.value[..|records.value|] == records.value;
    forall objects | Archived(db.hash, db.rows, root, objects) && AllTabled(objects)
      ensures result == objects
    {
      CollectedFrom(db.hash, db.rows, objects, entries.value, records.value, |records.value|);
      CollectedAll(db.hash, objects, entries.value, result);
    }
    ReadArchived(db.hash, db.rows, root, entries.value, records.value);
    r := Some(result);
  }

  lemma {:induction false} GatheredHolds(found: seq<Found>, n: nat)
    requires n <= |found| && forall i, j | 0 <= i < j < |found| :: found[i].id != found[j].id
    ensures forall i | 0 <= i < n ::
              found[i].id in Gathered(found[..n]) && Gathered(found[..n])[found[i].id] == found[i].row
    ensures forall u | u in Gathered(found[..n]) :: exists i :: 0 <= i < n && found[i].id == u
  {
    if n > 0 {
      GatheredHolds(found, n - 1);
      assert found[..n][..n - 1] == found[..n - 1];
    }
  }

  function EntryMap(e: seq<Entry<Bytes>>): map<Key, Bytes>
    requires Distinct(e)
  {
    map i | 0 <= i < |e| :: e[i].key := e[i].value
  }

  lemma EntryMapGets(e: seq<Entry<Bytes>>, k: Key)
    requires Distinct(e)
    ensures Get(EntryMap(e), k) == Lookup(e, 0, |e|, k)
  {
    hide Lookup;
    if k in EntryMap(e) {
      var i :| 0 <= i < |e| && e[i].key == k;
      LookupIn(e, 0, |e|, i);
    } else {
      LookupOut(e, 0, |e|, k);
    }
  }

  /** Whatever is read from a root, in whatever store, is what the root stands for. */
  lemma ReadArchived(h: Hash, rows: Rows, root: Bytes, e: seq<Entry<Bytes>>, found: seq<Found>)
    requires root != [] && Load(h, rows, root, 0).Some? && Distinct(e)
    requires forall k: Key :: Lookup(e, 0, |e|, k) == RadixTree.Find(Load(h, rows, root, 0).value, 0, k)
    requires ReadFrom(h, rows, e, found)
    ensures Archived(h, rows, root, Gathered(found)) && LegalKinds(Gathered(found))
  {
    hide Load, Lookup, RadixTree.Find, ReadFrom, Gathered, EntryMap, DenotesMap, Kept, LegalKinds, Distinct;
    ReadKept(h, rows, e, found);
    EntryMapDenoted(h, rows, root, e);
    forall u: Uuid
      ensures Get(EntryMap(e), Unpack(u)) == Sealed(h, Gathered(found), u)
    {
      EntryMapGets(e, Unpack(u));
      EntryOfFound(h, rows, e, found, u);
    }
  }

  /** The records behind the entries, one each. */
  ghost predicate ReadFrom(h: Hash, rows: Rows, e: seq<Entry<Bytes>>, found: seq<Found>) {
    |found| == |e| && forall i | 0 <= i < |e| ::
      Unpack(found[i].id) == e[i].key && RecordAt(h, rows, e[i].value) == Some(found[i].row)
  }

  lemma FoundGathered(h: Hash, rows: Rows, e: seq<Entry<Bytes>>, found: seq<Found>)
    requires Distinct(e) && ReadFrom(h, rows, e, found)
    ensures forall i | 0 <= i < |found| :: found[i].id in Gathered(found)
              && Gathered(found)[found[i].id] == found[i].row
    ensures forall u | u in Gathered(found) :: exists i :: 0 <= i < |found| && found[i].id == u
  {
    hide Gathered, RecordAt, Unpack;
    forall i, j | 0 <= i < j < |found|
      ensures found[i].id != found[j].id
    {
      assert e[i].key != e[j].key;
    }
    assert found[..|found|] == found;
    GatheredHolds(found, |found|);
  }

  lemma ReadKept(h: Hash, rows: Rows, e: seq<Entry<Bytes>>, found: seq<Found>)
    requires Distinct(e) && ReadFrom(h, rows, e, found)
    ensures Kept(h, rows, Gathered(found)) && LegalKinds(Gathered(found))
  {
    hide Gathered, RecordAt, Unpack, Distinct, Fetch, M.Record, M.ValidKind;
    FoundGathered(h, rows, e, found);
    forall u | u in Gathered(found)
      ensures M.ValidKind(Gathered(found)[u].kind)
      ensures var record := M.Record(Gathered(found)[u]); Fetch(h, rows, Blob, h(Blob, record)) == Some(record)
    {
      var i :| 0 <= i < |found| && found[i].id == u;
      RecordAtMeans(h, rows, e[i].value, found[i].row);
    }
  }

  lemma RecordAtMeans(h: Hash, rows: Rows, digest: Bytes, row: M.Row)
    requires RecordAt(h, rows, digest) == Some(row)
    ensures M.ValidKind(row.kind) && Fetch(h, rows, Blob, digest) == Some(M.Record(row))
    ensures h(Blob, M.Record(row)) == digest
  {
    hide RecordAt, M.Record, M.ValidKind;
  }

  lemma EntryMapDenoted(h: Hash, rows: Rows, root: Bytes, e: seq<Entry<Bytes>>)
    requires root != [] && Load(h, rows, root, 0).Some? && Distinct(e)
    requires forall k: Key :: Lookup(e, 0, |e|, k) == RadixTree.Find(Load(h, rows, root, 0).value, 0, k)
    ensures DenotesMap(h, rows, root, EntryMap(e))
  {
    hide Load, Lookup, RadixTree.Find, EntryMap, Distinct;
    forall k: Key
      ensures RadixTree.Find(Load(h, rows, root, 0).value, 0, k) == Get(EntryMap(e), k)
    {
      EntryMapGets(e, k);
    }
  }

  /** An identifier is listed exactly when it was read, with the digest of its record. */
  lemma EntryOfFound(h: Hash, rows: Rows, e: seq<Entry<Bytes>>, found: seq<Found>, u: Uuid)
    requires Distinct(e) && ReadFrom(h, rows, e, found)
    ensures Lookup(e, 0, |e|, Unpack(u)) == Sealed(h, Gathered(found), u)
  {
    hide Lookup, Unpack, M.Record, Gathered, RecordAt, Distinct;
    FoundGathered(h, rows, e, found);
    if Lookup(e, 0, |e|, Unpack(u)).Some? {
      var i := LookupSome(e, 0, |e|, Unpack(u));
      UnpackInjective(u, found[i].id);
      RecordAtMeans(h, rows, e[i].value, found[i].row);
    } else if u in Gathered(found) {
      var i :| 0 <= i < |found| && found[i].id == u;
      LookupIn(e, 0, |e|, i);
      assert false;
    }
  }

  /** Every entry reads exactly when every kind is legal. */
  lemma AllRead(h: Hash, rows: Rows, objects: M.Rows, e: seq<Entry<Bytes>>)
    requires Kept(h, rows, objects) && Lists(h, objects, e) && AllTabled(objects)
    ensures (forall i | 0 <= i < |e| :: RecordAt(h, rows, e[i].value).Some?) <==> LegalKinds(objects)
  {
    hide Fetch, M.Record, Unpack, M.ValidKind, M.Tabled, Kept, RecordAt;
    if forall i | 0 <= i < |e| :: RecordAt(h, rows, e[i].value).Some? {
      forall u | u in objects
        ensures M.ValidKind(objects[u].kind)
      {
        var i :| 0 <= i < |e| && Names(h, objects, e[i], u);
        var v := EntryReads(h, rows, objects, e, i);
        UnpackInjective(u, v);
      }
    }
    if LegalKinds(objects) {
      forall i | 0 <= i < |e|
        ensures RecordAt(h, rows, e[i].value).Some?
      {
        var v := EntryReads(h, rows, objects, e, i);
      }
    }
  }

  function Gathered(found: seq<Found>): M.Rows {
    if found == [] then map[] else
      var n := |found| - 1;
      Gathered(found[..n])[found[n].id := found[n].row]
  }

  method Collect(found: seq<Found>) returns (result: M.Rows)
    ensures result == Gathered(found)
  {
    result := map[];
    for i := 0 to |found|
      invariant result == Gathered(found[..i])
    {
      assert found[..i + 1][..i] == found[..i];
      result := result[found[i].id := found[i].row];
    }
    assert found[..|found|] == found;
  }

  lemma {:induction false} FoundTabled(h: Hash, rows: Rows, e: seq<Entry<Bytes>>, found: seq<Found>, n: nat)
    requires n <= |found| == |e| && forall i | 0 <= i < |e| :: RecordAt(h, rows, e[i].value) == Some(found[i].row)
    ensures AllTabled(Gathered(found[..n]))
  {
    hide RecordAt, M.Record, Fetch;
    if n > 0 {
      FoundTabled(h, rows, e, found, n - 1);
      assert found[..n][..n - 1] == found[..n - 1];
      assert M.Readable(found[n - 1].row);
    }
  }

  lemma {:induction false} CollectedFrom(h: Hash, rows: Rows, objects: M.Rows, e: seq<Entry<Bytes>>, found: seq<Found>,
                                         n: nat)
    requires Kept(h, rows, objects) && Lists(h, objects, e) && AllTabled(objects) && n <= |found| == |e|
    requires forall i | 0 <= i < |e| ::
               Unpack(found[i].id) == e[i].key && RecordAt(h, rows, e[i].value) == Some(found[i].row)
    ensures Collected(objects, e, n, Gathered(found[..n]))
  {
    hide Kept, Lists, RecordAt, Unpack, M.Tabled;
    if n > 0 {
      CollectedFrom(h, rows, objects, e, found, n - 1);
      assert found[..n][..n - 1] == found[..n - 1];
      var u := EntryReads(h, rows, objects, e, n - 1);
      UnpackInjective(u, found[n - 1].id);
      CollectedNext(objects, e, n - 1, Gathered(found[..n - 1]), u);
    }
  }
}
