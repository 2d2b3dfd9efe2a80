/** Reading single objects and whole networks from a sealed revision, without its working rows. */
module SealedNetworks {
  import opened Prelude
  import opened Uuid
  import opened ContentStore
  import opened TreeStore
  import opened SortedRange
  import opened RevisionSeal
  import opened NetworkRecords
  import M = ModelRecord
  import TreeRead

  /** A readable snapshot of exactly these objects. */
  ghost predicate Readable(h: Hash, rows: Rows, root: Bytes, objects: M.Rows) {
    Archived(h, rows, root, objects) && AllTabled(objects) && LegalKinds(objects)
  }

  lemma LeafReads(h: Hash, rows: Rows, root: Bytes, objects: M.Rows, m: map<Key, Bytes>, u: Uuid)
    requires Kept(h, rows, objects) && AllTabled(objects) && LegalKinds(objects) && Seals(h, objects, m)
    ensures Get(m, Unpack(u)) == Sealed(h, objects, u)
    ensures u in objects ==> Fetch(h, rows, Blob, m[Unpack(u)]) == Some(M.Record(objects[u])) && M.Readable(objects[u])
    ensures u in objects ==> RecordAt(h, rows, m[Unpack(u)]) == Some(objects[u])
  {
    hide M.Record, Unpack, Fetch;
    if u in objects {
      M.ReadBack(objects[u]);
      RecordAtKept(h, rows, m[Unpack(u)], objects[u]);
    }
  }

  /** One object of a snapshot, tombstones and versions included. */
  method ReadRevisionObject(db: Store, root: Bytes, u: Uuid, ghost objects: M.Rows) returns (r: Option<M.Row>)
    ensures Readable(db.hash, db.rows, root, objects) ==> r == Get(objects, u)
  {
    hide DenotesMap, Seals, Kept, Fetch, M.Record, M.Readable, AllTabled, LegalKinds, Sealed, Unpack;
    ghost var sealed := Readable(db.hash, db.rows, root, objects);
    ghost var m: map<Key, Bytes> :| sealed ==> DenotesMap(db.hash, db.rows, root, m) && Seals(db.hash, objects, m);
    if sealed {
      LeafReads(db.hash, db.rows, root, objects, m, u);
      SealedIf(db.hash, objects, u);
    }
    var digest := TreeRead.LookupKey(db, root, u);
    if !digest.Found? {
      return None;
    }
    var bytes := db.Load(Blob, digest.value);
    if bytes.None? {
      return None;
    }
    r := M.DecodeRecord(bytes.value);
  }

  lemma SealedIf(h: Hash, objects: M.Rows, u: Uuid)
    ensures Sealed(h, objects, u).Some? <==> u in objects
  {
  }

  /** All the requested objects, or nothing if one of them is missing. */
  method ReadRevisionObjectsSelected(db: Store, root: Bytes, requested: set<Uuid>, ghost objects: M.Rows)
    returns (r: Option<M.Rows>)
    ensures Readable(db.hash, db.rows, root, objects) ==>
              r == if requested <= objects.Keys then Some(map u | u in requested :: objects[u]) else None
  {
    hide DenotesMap, Seals, Kept, Fetch, M.Record, M.Readable, AllTabled, LegalKinds, Sealed, Unpack, Sorted,
      Distinct, Less;
    ghost var sealed := Readable(db.hash, db.rows, root, objects);
    ghost var m: map<Key, Bytes> :| sealed ==> DenotesMap(db.hash, db.rows, root, m) && Seals(db.hash, objects, m);
    if requested == {} {
      return Some(map[]);
    }
    var found := TreeRead.LookupMany(db, root, requested);
    if found.None? {
      return None;
    }
    if sealed {
      FoundSealed(db.hash, db.rows, root, objects, m, requested, found.value);
    }
    if |found.value| != |requested| {
      return None;
    }
    r := ReadFound(db, root, found.value, objects, m, sealed);
    if sealed {
      assert found.value.Keys == requested;
      assert r.value == map u | u in requested :: objects[u];
    }
  }

  /** The records behind the digests that were found, in key order, as rows. */
  method ReadFound(db: Store, root: Bytes, found: map<Uuid, Bytes>, ghost objects: M.Rows, ghost m: map<Key, Bytes>,
                   ghost sealed: bool)
    returns (r: Option<M.Rows>)
    requires sealed ==>
               Readable(db.hash, db.rows, root, objects) && Seals(db.hash, objects, m)
               && found.Keys <= objects.Keys
    requires sealed ==> forall u | u in found :: Unpack(u) in m && found[u] == m[Unpack(u)]
    ensures sealed ==> r.Some? && r.value.Keys == found.Keys && forall u | u in found :: r.value[u] == objects[u]
  {
    hide Readable, DenotesMap, Seals, Unpack, Sorted, Distinct, Less;
    var keys := TreeRead.SortedKeys(found.Keys);
    var selected := seq(|keys|, i requires 0 <= i < |keys| => Entry(keys[i].key, found[keys[i].value]));
    if sealed {
      SelectedRead(db.hash, db.rows, root, objects, m, keys, selected);
    }
    var records := ReadEntries(db, selected);
    if records.None? {
      return None;
    }
    var rows := RowsOf(records.value);
    if sealed {
      forall i | 0 <= i < |keys|
        ensures records.value[i] == Found(keys[i].value, objects[keys[i].value])
      {
        UnpackInjective(records.value[i].id, keys[i].value);
      }
      RowsMean(records.value, rows, keys, objects, found.Keys);
    }
    r := Some(rows);
  }

  ghost predicate Collected(records: seq<Found>, rows: M.Rows) {
    && (forall i | 0 <= i < |records| :: records[i].id in rows)
    && forall u | u in rows :: Found(u, rows[u]) in records
  }

  method RowsOf(records: seq<Found>) returns (rows: M.Rows)
    ensures Collected(records, rows)
  {
    rows := map[];
    for i := 0 to |records|
      invariant Collected(records[..i], rows)
    {
      assert records[..i + 1] == records[..i] + [records[i]];
      rows := rows[records[i].id := records[i].row];
    }
    assert records[..|records|] == records;
  }

  lemma RowsMean(records: seq<Found>, rows: M.Rows, keys: seq<Entry<Uuid>>, objects: M.Rows, ids: set<Uuid>)
    requires Collected(records, rows) && |records| == |keys|
    requires forall i | 0 <= i < |keys| :: keys[i].value in ids
    requires forall u | u in ids :: u in objects && exists i :: 0 <= i < |keys| && keys[i].value == u
    requires forall i | 0 <= i < |keys| :: records[i] == Found(keys[i].value, objects[keys[i].value])
    ensures rows.Keys == ids && forall u | u in ids :: rows[u] == objects[u]
  {
    forall u | u in rows
      ensures u in ids && rows[u] == objects[u]
    {
      var i :| 0 <= i < |records| && records[i] == Found(u, rows[u]);
    }
    forall u | u in ids
      ensures u in rows
    {
      var i :| 0 <= i < |keys| && keys[i].value == u;
      assert records[i].id == u;
    }
  }

  /** What a batched lookup finds in a snapshot, and what its size tells. */
  lemma FoundSealed(h: Hash, rows: Rows, root: Bytes, objects: M.Rows, m: map<Key, Bytes>, requested: set<Uuid>,
                    found: map<Uuid, Bytes>)
    requires Readable(h, rows, root, objects) && Seals(h, objects, m)
    requires found == map u | u in requested && Unpack(u) in m :: m[Unpack(u)]
    ensures found.Keys == requested * objects.Keys
    ensures |found| == |requested| <==> requested <= objects.Keys
  {
    hide Unpack, Kept, DenotesMap, M.Record;
    forall u | u in requested
      ensures u in found <==> u in objects
    {
      assert Get(m, Unpack(u)) == Sealed(h, objects, u);
    }
    assert found.Keys == requested * objects.Keys;
    assert |found.Keys| == |found|;
    SubsetSize(found.Keys, requested);
    assert requested <= objects.Keys <==> found.Keys == requested;
  }

  lemma SelectedRead(h: Hash, rows: Rows, root: Bytes, objects: M.Rows, m: map<Key, Bytes>, keys: seq<Entry<Uuid>>,
                     selected: seq<Entry<Bytes>>)
    requires Readable(h, rows, root, objects) && Seals(h, objects, m)
    requires |selected| == |keys| && forall i | 0 <= i < |keys| ::
               keys[i].value in objects && keys[i].key == Unpack(keys[i].value) && Unpack(keys[i].value) in m
               && selected[i] == Entry(keys[i].key, m[Unpack(keys[i].value)])
    ensures forall i | 0 <= i < |keys| :: RecordAt(h, rows, selected[i].value) == Some(objects[keys[i].value])
  {
    hide Unpack, M.Record, DenotesMap, Kept, Seals, AllTabled, LegalKinds;
    forall i | 0 <= i < |keys|
      ensures RecordAt(h, rows, selected[i].value) == Some(objects[keys[i].value])
    {
      LeafReads(h, rows, root, objects, m, keys[i].value);
    }
  }

  /** Loads a network from the immutable tree: what the sealed rows would load as. */
  method LoadSealedNetwork<Meta, Entity>(c: Codec<Meta, Entity>, db: Store, root: Bytes, n: Uuid, ghost objects: M.Rows)
    returns (r: Option<Network<Meta, Entity>>)
    ensures Readable(db.hash, db.rows, root, objects) ==> r == NetworkAt(c, objects, n)
  {
    hide Readable, Flatten, EntityAt, Restorable;
    var row := ReadRevisionObject(db, root, n, objects);
    if row.None? || row.value.content.None? || row.value.kind != ROOT_KIND || |row.value.content.value| > MAX_INDEX {
      return None;
    }
    var index := c.decodeIndex(row.value.content.value);
    if index.None? || index.value.id != n || |index.value.lists| != |c.kinds| {
      return None;
    }
    var references := Referenced(index.value.lists);
    var fetched := ReadRevisionObjectsSelected(db, root, references, objects);
    AllReferenced(c, index.value, objects);
    if fetched.None? {
      return None;
    }
    if Readable(db.hash, db.rows, root, objects) {
      RestoreNeeds(c, index.value, objects, fetched.value);
    }
    var lists := RestoreLists(c, index.value, fetched.value);
    if lists.None? {
      return None;
    }
    r := Some(Network(n, index.value.meta, lists.value));
    if Readable(db.hash, db.rows, root, objects) {
      SameLists(lists.value, NetworkAt(c, objects, n).value.lists);
    }
  }

  lemma AllReferenced<Meta, Entity>(c: Codec<Meta, Entity>, index: Index<Meta>, rows: M.Rows)
    requires |index.lists| == |c.kinds|
    ensures Restorable(c, index, rows) ==> Referenced(index.lists) <= rows.Keys
  {
    hide IsNull, DistinctUuids, Flatten, EntityAt;
    if Restorable(c, index, rows) {
      FoundIn(c, index.lists, rows, |index.lists|);
      assert index.lists[..|index.lists|] == index.lists;
    }
  }
}
