/** What the chain of hashes over sealed revisions says about their history. */
module HashChain {
  import opened Prelude
  import opened Uuid
  import opened RevisionLifecycle
  import C = ContentStore
  import M = ModelRecord
  import opened RevisionSeal
  import opened Journal

  /** What a sealed revision's chain hash is taken over, its parents' chain hashes included. */
  function Covered(revisions: Revisions, id: Uuid): ChainInput
    requires id in revisions && revisions[id].seal.Some?
    requires forall p | p in revisions[id].parents :: p in revisions && revisions[p].seal.Some?
  {
    var r := revisions[id];
    var pairs := seq(|r.parents|, i requires 0 <= i < |r.parents| =>
      assert r.parents[i] in r.parents;
      (r.parents[i], revisions[r.parents[i]].seal.value.chainHash));
    ChainInput(r.project, r.branch, id, pairs, r.number, r.seal.value.details, r.seal.value.snapshotHash,
               r.seal.value.historyHash, if r.objectMode then r.seal.value.root else seq(32, _ => 0))
  }

  /** The parents are sealed revisions of the same project, and the chain hash is that of what it covers. */
  ghost predicate LinkedAt(x: Hashing, revisions: Revisions, id: Uuid) {
    && id in revisions && revisions[id].seal.Some?
    && (forall p | p in revisions[id].parents ::
          && p in revisions && revisions[p].state == Finalized && revisions[p].project == revisions[id].project
          && revisions[p].seal.Some?)
    && revisions[id].seal.value.chainHash == x.chain(Covered(revisions, id))
  }

  /** Every sealed revision of the project is linked to its parents. */
  ghost predicate Linked(x: Hashing, revisions: Revisions, project: Uuid) {
    forall id | id in revisions && revisions[id].state == Finalized && revisions[id].project == project ::
      LinkedAt(x, revisions, id)
  }

  /** Where all parents are sealed, the hash is taken over exactly their chain hashes. */
  lemma CoveredIs(revisions: Revisions, id: Uuid)
    requires id in revisions && revisions[id].seal.Some?
    requires forall p | p in revisions[id].parents :: p in revisions && revisions[p].seal.Some?
    ensures var r := revisions[id];
      ChainInputOf(revisions, id, r, r.seal.value.(root := if r.objectMode then r.seal.value.root else seq(32, _ => 0)))
        == Covered(revisions, id)
  {
    var r := revisions[id];
    forall i | 0 <= i < |r.parents|
      ensures r.parents[i] in revisions && revisions[r.parents[i]].seal.Some?
    {
      assert r.parents[i] in r.parents;
    }
    assert ParentHashes(revisions, r.parents) == Covered(revisions, id).parents;
  }

  /** Every reachable repository is linked. */
  lemma RepositoryLinked(x: Hashing, h: C.Hash, rows: C.Rows, projects: set<Uuid>, branches: Branches,
                         revisions: Revisions, rowsOf: map<Uuid, M.Rows>, order: seq<Uuid>, project: Uuid)
    requires Invariant(x, h, rows, projects, branches, revisions, rowsOf, order)
    ensures Linked(x, revisions, project)
  {
    hide HeadsOk, NumbersOk, OrderOk, HeadsSound, RowsOk, NamesOk, SealsOk, ModesOk, ParentsOk, LinkedAt;
    forall id | id in revisions && revisions[id].state == Finalized && revisions[id].project == project
      ensures LinkedAt(x, revisions, id)
    {
      SealLinked(x, h, rows, revisions, rowsOf, id);
    }
  }

  lemma SealLinked(x: Hashing, h: C.Hash, rows: C.Rows, revisions: Revisions, rowsOf: map<Uuid, M.Rows>, id: Uuid)
    requires ParentsOk(revisions) && SealsOk(x, h, rows, revisions, rowsOf) && ModesOk(revisions)
    requires id in revisions && revisions[id].state == Finalized
    ensures LinkedAt(x, revisions, id)
  {
    hide Intact, Covered;
    var r := revisions[id];
    SealHashed(x, h, rows, revisions, rowsOf, id);
    forall p | p in r.parents
      ensures p in revisions && revisions[p].state == Finalized && revisions[p].project == r.project
      ensures revisions[p].seal.Some?
    {
      SealHashed(x, h, rows, revisions, rowsOf, p);
    }
    CoveredIs(revisions, id);
  }

  lemma SealHashed(x: Hashing, h: C.Hash, rows: C.Rows, revisions: Revisions, rowsOf: map<Uuid, M.Rows>, id: Uuid)
    requires id in revisions && revisions[id].state == Finalized && SealsOk(x, h, rows, revisions, rowsOf)
    ensures revisions[id].seal.Some?
    ensures var r := revisions[id];
      r.seal.value.chainHash == x.chain(ChainInputOf(revisions, id, r, r.seal.value))
  {
    hide Archived, Sound, ChainInputOf;
    assert Intact(x, h, rows, revisions, rowsOf, id);
  }

  /**
   A sealed revision as its seal says, in whatever store: its snapshot has the
   recorded hash and, in object mode, is the manifest of its journal, its root can
   be read in full, its history has the recorded hash, and it is linked.
   */
  ghost predicate Unaltered(x: Hashing, h: C.Hash, rows: C.Rows, revisions: Revisions, id: Uuid) {
    && LinkedAt(x, revisions, id)
    && (forall p | p in revisions[id].parents :: |revisions[p].seal.value.chainHash| == 32)
    && var r := revisions[id];
    && r.snapshot.Some? && r.seal.value.snapshotHash == x.sha(r.snapshot.value)
    && r.seal.value.historyHash == x.history(id)
    && (r.objectMode ==>
          && r.snapshot.value == x.manifest(r.events, r.groups)
          && exists objects ::
               Archived(h, rows, r.seal.value.root, objects) && AllTabled(objects) && LegalKinds(objects))
  }

  /** Different inputs of the two histories have different chain hashes. */
  ghost predicate NoCollision(x: Hashing, a: Revisions, b: Revisions) {
    forall i, j | LinkedAt(x, a, i) && LinkedAt(x, b, j) && x.chain(Covered(a, i)) == x.chain(Covered(b, j)) ::
      Covered(a, i) == Covered(b, j)
  }

  /** Two records of a sealed revision agree: where it stands, over which parents, and every hash of its seal. */
  ghost predicate SameRecord(a: Revision, b: Revision) {
    && a.seal.Some? && b.seal.Some?
    && a.project == b.project && a.branch == b.branch && a.number == b.number && a.parents == b.parents
    && a.seal.value.details == b.seal.value.details && a.seal.value.snapshotHash == b.seal.value.snapshotHash
    && a.seal.value.historyHash == b.seal.value.historyHash && a.seal.value.chainHash == b.seal.value.chainHash
    && (a.objectMode && b.objectMode ==> a.seal == b.seal)
  }

  /** Two sealed revisions with one chain hash are one revision, sealed with the same words over the same parents. */
  lemma SameSeal(x: Hashing, a: Revisions, b: Revisions, i: Uuid, j: Uuid)
    requires NoCollision(x, a, b) && LinkedAt(x, a, i) && LinkedAt(x, b, j)
    requires a[i].seal.value.chainHash == b[j].seal.value.chainHash
    ensures i == j && SameRecord(a[i], b[j])
    ensures forall p | p in a[i].parents :: p in b[j].parents && a[p].seal.value.chainHash == b[p].seal.value.chainHash
  {
    var u, v := Covered(a, i), Covered(b, j);
    assert u == v;
    forall k | 0 <= k < |a[i].parents|
      ensures a[i].parents[k] == b[j].parents[k]
    {
      assert u.parents[k] == v.parents[k];
    }
    assert a[i].parents == b[j].parents;
    forall p | p in a[i].parents
      ensures a[p].seal.value.chainHash == b[p].seal.value.chainHash
    {
      var k :| 0 <= k < |a[i].parents| && a[i].parents[k] == p;
      assert u.parents[k] == v.parents[k];
    }
  }

  /**
   A chain hash stands for the whole history. Where chain hashes do not collide, two
   sealed revisions of any two linked projects with one chain hash have the same
   ancestors, and every ancestor has the same record in both.
   */
  lemma {:induction false} ChainFixesHistory(x: Hashing, a: Revisions, b: Revisions, project: Uuid, i: Uuid, j: Uuid,
                                             path: seq<Uuid>)
    requires Linked(x, a, project) && Linked(x, b, project) && NoCollision(x, a, b)
    requires i in a && a[i].state == Finalized && a[i].project == project
    requires j in b && b[j].state == Finalized && b[j].project == project
    requires a[i].seal.Some? && b[j].seal.Some? && a[i].seal.value.chainHash == b[j].seal.value.chainHash
    requires ParentEdges(a, path) && path[0] == i
    ensures ParentEdges(b, path) && path[0] == j
    ensures var p := path[|path| - 1];
      a[p].state == Finalized && b[p].state == Finalized && SameRecord(a[p], b[p])
    decreases |path|
  {
    hide NoCollision;
    assert LinkedAt(x, a, i) && LinkedAt(x, b, j);
    SameSeal(x, a, b, i, j);
    if |path| > 1 {
      assert path[0 + 1] in a[path[0]].parents;
      var rest := path[1..];
      assert ParentEdges(a, rest) by {
        forall k | 0 <= k < |rest| - 1
          ensures rest[k + 1] in a[rest[k]].parents
        {
          assert path[(k + 1) + 1] in a[path[k + 1]].parents;
        }
      }
      ChainFixesHistory(x, a, b, project, rest[0], rest[0], rest);
      forall k | 0 <= k < |path| - 1
        ensures path[k + 1] in b[path[k]].parents
      {
        if k > 0 { assert rest[(k - 1) + 1] in b[rest[k - 1]].parents; }
      }
      assert forall k | 0 < k < |path| :: path[k] == rest[k - 1];
    }
  }
}
