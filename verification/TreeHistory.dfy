/** All ways of reaching a map reach one root. */
module TreeHistory {
  import opened Prelude
  import opened Uuid
  import opened ContentStore
  import opened TreeStore
  import opened Changes
  import RadixTree
  import TreeNode
  import TreeUpdate
  import TreeApply
  import TreeRead
  import TreeParts

  lemma StillKnown(h: Hash, before: Rows, after: Rows, blob: Option<Bytes>)
    requires Extends(before, after) && TreeUpdate.BlobKnown(h, before, blob)
    ensures TreeUpdate.BlobKnown(h, after, blob)
  {
  }

  /** Single-key updates, one after the other. It stops only at a write whose tree collides with stored content. */
  method FoldUpdates(db: Store, root: Bytes, changes: seq<Change>) returns (r: Option<Bytes>)
    requires TreeApply.BlobsKnown(db.hash, db.rows, changes)
    modifies db
    ensures Extends(old(db.rows), db.rows)
    ensures forall m | DenotesMap(db.hash, old(db.rows), root, m) ::
              && (r.Some? ==> DenotesMap(db.hash, db.rows, r.value, WriteAll(m, changes)))
              && (r.None? ==> exists n ::
                  1 <= n <= |changes|
                  && TreeUpdate.Blocked(db.hash, db.rows, WriteAll(m, changes[..n])))
  {
    hide DenotesMap, Fetch, TreeUpdate.Blocked;
    ghost var start := db.rows;
    var current := root;
    for i := 0 to |changes|
      invariant Extends(start, db.rows)
      invariant forall m | DenotesMap(db.hash, start, root, m) ::
                  DenotesMap(db.hash, db.rows, current, WriteAll(m, changes[..i]))
    {
      ghost var before := db.rows;
      var next := TreeUpdate.Update(db, current, changes[i].key, changes[i].blob);
      assert changes[..i + 1][..i] == changes[..i];
      if next.None? {
        forall m | DenotesMap(db.hash, start, root, m)
          ensures TreeUpdate.Blocked(db.hash, db.rows, WriteAll(m, changes[..i + 1]))
        {
          assert DenotesMap(db.hash, before, current, WriteAll(m, changes[..i]));
          StillKnown(db.hash, start, before, changes[i].blob);
        }
        return None;
      }
      forall m | DenotesMap(db.hash, start, root, m)
        ensures DenotesMap(db.hash, db.rows, next.value, WriteAll(m, changes[..i + 1]))
      {
        assert changes[..i + 1][..i] == changes[..i];
        assert DenotesMap(db.hash, before, current, WriteAll(m, changes[..i]));
      }
      current := next.value;
    }
    assert changes[..|changes|] == changes;
    return Some(current);
  }

  /**
   A batch and a fold of single updates over the same distinct changes, in
   whatever orders and in whatever stores, end in one root digest. With the
   empty map as `m` this also covers bulk construction.
   */
  lemma OneRootForAnyOrder(h: Hash, rowsA: Rows, rowsB: Rows, rootA: Bytes, rootB: Bytes, m: map<Key, Bytes>,
                           c: seq<Change>, d: seq<Change>)
    requires DistinctKeys(c) && DistinctKeys(d) && forall x :: x in c <==> x in d
    requires DenotesMap(h, rowsA, rootA, WriteAll(m, c)) && DenotesMap(h, rowsB, rootB, WriteAll(m, d))
    ensures rootA == rootB
  {
    hide DenotesMap;
    WriteAllPerm(m, c, d);
    UniqueRoot(h, rowsA, rowsB, rootA, rootB, WriteAll(m, c));
  }

  /** Writing a key and writing its old state back leads to the root of before: re-compression leaves no trace. */
  lemma WriteBackRestoresRoot(h: Hash, rowsA: Rows, rowsB: Rows, rootA: Bytes, rootB: Bytes, m: map<Key, Bytes>, k: Key,
                              v: Option<Bytes>)
    requires DenotesMap(h, rowsA, rootA, m) && DenotesMap(h, rowsB, rootB, Write(Write(m, k, v), k, Get(m, k)))
    ensures rootA == rootB
  {
    hide DenotesMap;
    assert Write(Write(m, k, v), k, Get(m, k)) == m;
    UniqueRoot(h, rowsA, rowsB, rootA, rootB, m);
  }

  /**
   A batch, seen through the reader: on a sound root whose new tree collides with
   nothing, each changed key reads its own new blob, or nothing if it was deleted,
   and every other key reads what it read before.
   */
  method ReadYourWrites(db: Store, root: Bytes, changes: seq<Change>, u: Uuid)
    returns (ok: bool, was: TreeRead.ReadResult, now: TreeRead.ReadResult)
    modifies db
    ensures Extends(old(db.rows), db.rows)
    ensures (forall i, j | 0 <= i < j < |changes| :: changes[i].key != changes[j].key)
            && TreeApply.BlobsKnown(db.hash, old(db.rows), changes) ==>
              forall m | DenotesMap(db.hash, old(db.rows), root, m)
                         && TreeParts.BatchClean(db.hash, old(db.rows), m, WriteAll(m, changes)) ::
                && ok
                && (forall i | 0 <= i < |changes| && changes[i].key == u ::
                      now == if changes[i].blob.None? then TreeRead.Missing else TreeRead.Found(changes[i].blob.value))
                && ((forall i | 0 <= i < |changes| :: changes[i].key != u) ==> now == was)
  {
    hide DenotesMap, WriteAll, TreeParts.BatchClean, Unpack;
    if forall i, j | 0 <= i < j < |changes| :: changes[i].key != changes[j].key {
      forall m | DenotesMap(db.hash, db.rows, root, m)
        ensures forall i | 0 <= i < |changes| && changes[i].key == u ::
                  Get(WriteAll(m, changes), Unpack(u)) == changes[i].blob
        ensures (forall i | 0 <= i < |changes| :: changes[i].key != u) ==>
                  Get(WriteAll(m, changes), Unpack(u)) == Get(m, Unpack(u))
      {
        WrittenMeans(m, changes);
        forall i | 0 <= i < |changes| && changes[i].key != u
          ensures Unpack(changes[i].key) != Unpack(u)
        {
          if Unpack(changes[i].key) == Unpack(u) { UnpackInjective(changes[i].key, u); }
        }
      }
    }
    was := TreeRead.LookupKey(db, root, u);
    now := was;
    var next := TreeApply.Apply(db, root, changes);
    ok := next.Some?;
    if ok {
      now := TreeRead.LookupKey(db, next.value, u);
    }
  }
}
