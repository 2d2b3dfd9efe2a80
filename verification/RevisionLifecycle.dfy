/** Projects, branches and revisions: creation, branching, sealing, merging, and the integrity check. */
module RevisionLifecycle {
  import opened Prelude
  import opened Uuid
  import opened Journal
  import opened RevisionSeal
  import C = ContentStore
  import M = ModelRecord
  import UndoHistory
  import JournalReplay
  import TreeStore

  datatype State = Working | Sealing | Finalized

  type Digest = C.Digest

  /** What sealing records; titles, times and actors are one opaque text. */
  datatype Seal = Seal(details: Bytes, snapshotHash: Bytes, historyHash: Bytes, chainHash: Bytes, root: Bytes)

  /** A revision without object mode holds no objects: it was never written to. */
  datatype Revision = Revision(project: Uuid, branch: Uuid, number: nat, objectMode: bool, state: State,
                               generation: nat, parents: seq<Uuid>, events: seq<Event>, groups: seq<Group>,
                               snapshot: Option<Bytes>, seal: Option<Seal>)

  /** A branch owns the editable rows; its head is the one working revision. */
  datatype Branch = Branch(project: Uuid, name: string, head: Uuid, rows: M.Rows)

  type Revisions = map<Uuid, Revision>
  type Branches = map<Uuid, Branch>

  /** What the chain hash covers. */
  datatype ChainInput = ChainInput(project: Uuid, branch: Uuid, id: Uuid, parents: seq<(Uuid, Bytes)>, number: nat,
                                   details: Bytes, snapshotHash: Bytes, historyHash: Bytes, root: Bytes)

  datatype Hashing = Hashing(manifest: (seq<Event>, seq<Group>) -> Bytes, sha: Bytes -> Digest,
                             chain: ChainInput -> Digest,
                             history: Uuid -> Digest)

  // ------------------------------------------------------------------ the invariant

  /** Each branch has exactly one working revision, its head; nothing is left half sealed. */
  ghost predicate HeadsOk(projects: set<Uuid>, branches: Branches, revisions: Revisions) {
    && (forall b | b in branches ::
          branches[b].project in projects && branches[b].head in revisions && revisions[branches[b].head].branch == b
          && revisions[branches[b].head].state == Working)
    && forall r | r in revisions ::
         && revisions[r].branch in branches && revisions[r].project == branches[revisions[r].branch].project
         && revisions[r].state != Sealing
         && (revisions[r].state == Working ==> branches[revisions[r].branch].head == r)
  }

  /** Object mode begins with the first journaled write and is handed on to whatever starts from a sealed revision. */
  ghost predicate ModesOk(revisions: Revisions) {
    forall r | r in revisions ::
      && (revisions[r].objectMode <==> revisions[r].parents != [] || revisions[r].events != [])
      && (revisions[r].state == Finalized ==> revisions[r].objectMode)
  }

  predicate NameTaken(branches: Branches, project: Uuid, name: string) {
    exists b :: b in branches && branches[b].project == project && branches[b].name == name
  }

  /** No two branches of a project have one name. */
  ghost predicate NamesOk(branches: Branches) {
    forall b, c | b in branches && c in branches && branches[b].project == branches[c].project
                  && branches[b].name == branches[c].name :: b == c
  }

  predicate NumberTaken(revisions: Revisions, b: Uuid, n: nat) {
    exists r :: r in revisions && revisions[r].branch == b && revisions[r].number == n
  }

  /** The branch's revisions carry the numbers 1 to `top`, each once. */
  ghost predicate Numbered(revisions: Revisions, b: Uuid, top: nat) {
    && (forall r | r in revisions && revisions[r].branch == b :: 1 <= revisions[r].number <= top)
    && (forall r, s | r in revisions && s in revisions && revisions[r].branch == b && revisions[s].branch == b
                      && revisions[r].number == revisions[s].number :: r == s)
    && forall n: nat | 1 <= n <= top :: NumberTaken(revisions, b, n)
  }

  /** A branch's revisions are numbered 1 up to its head, each number once. */
  ghost predicate NumbersOk(branches: Branches, revisions: Revisions) {
    forall b | b in branches && branches[b].head in revisions ::
      Numbered(revisions, b, revisions[branches[b].head].number)
  }

  /** Every parent is finalized and of the same project. */
  ghost predicate ParentsOk(revisions: Revisions) {
    forall r, p | r in revisions && p in revisions[r].parents ::
      p in revisions && revisions[p].state == Finalized && revisions[p].project == revisions[r].project
  }

  /** The finalized revisions in the order of their sealing; parents come earlier. */
  ghost predicate OrderOk(revisions: Revisions, order: seq<Uuid>) {
    && (forall r | r in order :: r in revisions && revisions[r].state == Finalized)
    && (forall r | r in revisions && revisions[r].state == Finalized :: r in order)
    && forall i, p | 0 <= i < |order| && p in revisions[order[i]].parents :: p in order[..i]
  }

  function ParentRows(revisions: Revisions, rowsOf: map<Uuid, M.Rows>, r: Uuid): M.Rows
    requires r in revisions
  {
    if revisions[r].parents == [] || revisions[r].parents[0] !in rowsOf then map[] else rowsOf[revisions[r].parents[0]]
  }

  function ParentHashes(revisions: Revisions, parents: seq<Uuid>): seq<(Uuid, Bytes)> {
    seq(|parents|, i requires 0 <= i < |parents| =>
      (parents[i], if parents[i] in revisions
       && revisions[parents[i]].seal.Some? then revisions[parents[i]].seal.value.chainHash else []))
  }

  function ChainInputOf(revisions: Revisions, id: Uuid, r: Revision, seal: Seal): ChainInput {
    ChainInput(r.project, r.branch, id, ParentHashes(revisions, r.parents), r.number, seal.details, seal.snapshotHash,
               seal.historyHash, seal.root)
  }

  /** A finalized revision is what its seal says: history, hash chain, and immutable snapshot. */
  ghost predicate Intact(x: Hashing, h: C.Hash, rows: C.Rows, revisions: Revisions, rowsOf: map<Uuid, M.Rows>, id: Uuid)
    requires id in revisions
  {
    var r := revisions[id];
    && r.seal.Some? && id in rowsOf
    && r.snapshot == Some(x.manifest(r.events, r.groups))
    && r.seal.value.snapshotHash == x.sha(r.snapshot.value)
    && r.seal.value.historyHash == x.history(id)
    && |r.seal.value.root| == 32 && |r.seal.value.chainHash| == 32
    && r.seal.value.chainHash == x.chain(ChainInputOf(revisions, id, r, r.seal.value))
    && Archived(h, rows, r.seal.value.root, rowsOf[id])
    && Sound(ParentRows(revisions, rowsOf, id), Head(rowsOf[id], r.generation, r.events, r.groups))
  }

  ghost predicate SealsOk(x: Hashing, h: C.Hash, rows: C.Rows, revisions: Revisions, rowsOf: map<Uuid, M.Rows>) {
    forall r | r in revisions && revisions[r].state == Finalized :: Intact(x, h, rows, revisions, rowsOf, r)
  }

  /** The working head of a branch, as one value. */
  function HeadOf(branches: Branches, revisions: Revisions, b: Uuid): Head
    requires b in branches && branches[b].head in revisions
  {
    var r := revisions[branches[b].head];
    Head(branches[b].rows, r.generation, r.events, r.groups)
  }

  /** Every working head is a sound continuation of its first parent's snapshot. */
  ghost predicate HeadsSound(branches: Branches, revisions: Revisions, rowsOf: map<Uuid, M.Rows>) {
    forall b | b in branches && branches[b].head in revisions ::
      Sound(ParentRows(revisions, rowsOf, branches[b].head), HeadOf(branches, revisions, b))
  }

  // -------------------------------------------------------------------- consequences

  lemma FetchStays(h: C.Hash, before: C.Rows, after: C.Rows, objects: M.Rows)
    requires C.Extends(before, after) && Kept(h, before, objects)
    ensures Kept(h, after, objects)
  {
    hide M.Record;
    forall u | u in objects
      ensures C.Fetch(h, after, C.Blob, h(C.Blob, M.Record(objects[u]))) == Some(M.Record(objects[u]))
    {
      FetchExtends(h, before, after, h(C.Blob, M.Record(objects[u])), M.Record(objects[u]));
    }
  }

  /** Snapshots outlive whatever is stored later. */
  lemma ArchivedStays(h: C.Hash, before: C.Rows, after: C.Rows, root: Bytes, objects: M.Rows)
    requires C.Extends(before, after) && Archived(h, before, root, objects)
    ensures Archived(h, after, root, objects)
  {
    hide TreeStore.DenotesMap, Seals, Kept, C.Fetch;
    FetchStays(h, before, after, objects);
    var m :| TreeStore.DenotesMap(h, before, root, m) && Seals(h, objects, m);
    TreeStore.RootsPersist(h, before, after, root, m);
  }

  lemma SealsStay(x: Hashing, h: C.Hash, before: C.Rows, after: C.Rows, revisions: Revisions, rowsOf: map<Uuid, M.Rows>)
    requires C.Extends(before, after) && SealsOk(x, h, before, revisions, rowsOf)
    ensures SealsOk(x, h, after, revisions, rowsOf)
  {
    hide Archived, Sound;
    forall r | r in revisions && revisions[r].state == Finalized
      ensures Intact(x, h, after, revisions, rowsOf, r)
    {
      assert Intact(x, h, before, revisions, rowsOf, r);
      ArchivedStays(h, before, after, revisions[r].seal.value.root, rowsOf[r]);
    }
  }

  predicate ParentEdges(revisions: Revisions, path: seq<Uuid>) {
    path != [] && (forall i | 0 <= i < |path| :: path[i] in revisions)
    && forall i | 0 <= i < |path| - 1 :: path[i + 1] in revisions[path[i]].parents
  }

  /** The parent graph has no cycle: no path of parent edges returns to its start. */
  lemma NoCycle(revisions: Revisions, order: seq<Uuid>, path: seq<Uuid>)
    requires ParentsOk(revisions) && OrderOk(revisions, order) && ParentEdges(revisions, path) && |path| >= 2
    ensures path[0] != path[|path| - 1]
  {
    var last := |path| - 1;
    assert path[1] in revisions[path[0]].parents;
    if path[0] in order {
      var i := FirstAt(order, path[0]);
      EarlierOnPath(revisions, order, path, i, last);
    } else {
      assert revisions[path[last]].state == Finalized by {
        assert path[last] in revisions[path[last - 1]].parents;
      }
    }
  }

  lemma {:induction false} FirstAt(order: seq<Uuid>, r: Uuid) returns (i: nat)
    requires r in order
    ensures i < |order| && order[i] == r && r !in order[..i]
  {
    if order[0] == r {
      i := 0;
    } else {
      i := FirstAt(order[1..], r);
      i := i + 1;
      assert order[..i] == [order[0]] + order[1..][..i - 1];
    }
  }

  /** Along a path of parents the place in the order only decreases. */
  lemma {:induction false} EarlierOnPath(revisions: Revisions, order: seq<Uuid>, path: seq<Uuid>, i: nat, k: nat)
    requires OrderOk(revisions, order) && ParentEdges(revisions, path) && 1 <= k < |path|
    requires i < |order| && order[i] == path[0] && path[0] !in order[..i]
    ensures path[k] in order[..i]
  {
    if k == 1 {
      assert path[1] in revisions[order[i]].parents;
    } else {
      EarlierOnPath(revisions, order, path, i, k - 1);
      var j :| 0 <= j < i && order[..i][j] == path[k - 1];
      assert path[k - 1 + 1] in revisions[path[k - 1]].parents;
      assert path[k] in order[..j];
      var n :| 0 <= n < j && order[..j][n] == path[k];
      assert order[..i][n] == path[k];
    }
  }

  /** The tables' own constraints, on working rows and on sealed ones. */
  ghost predicate RowsOk(branches: Branches, rowsOf: map<Uuid, M.Rows>) {
    (forall b | b in branches :: AllTabled(branches[b].rows)) && forall r | r in rowsOf :: AllTabled(rowsOf[r])
  }

  ghost predicate Invariant(x: Hashing, h: C.Hash, rows: C.Rows, projects: set<Uuid>, branches: Branches,
                            revisions: Revisions,
                            rowsOf: map<Uuid, M.Rows>, order: seq<Uuid>) {
    && HeadsOk(projects, branches, revisions) && NumbersOk(branches, revisions) && ParentsOk(revisions)
    && OrderOk(revisions, order) && SealsOk(x, h, rows, revisions, rowsOf) && HeadsSound(branches, revisions, rowsOf)
    && RowsOk(branches, rowsOf) && ModesOk(revisions) && NamesOk(branches)
    && forall r | r in rowsOf :: r in revisions && revisions[r].state == Finalized
  }

  // --------------------------------------------------------------------- new branches

  function Started(project: Uuid, branch: Uuid, parents: seq<Uuid>, number: nat, objectMode: bool): Revision {
    Revision(project, branch, number, objectMode, Working, 0, parents, [], [], None, None)
  }

  /** A revision that nothing refers to can be added without touching what is recorded about the others. */
  lemma OthersIntact(x: Hashing, h: C.Hash, rows: C.Rows, revisions: Revisions, revisions': Revisions, rowsOf: map<Uuid,
                     M.Rows>,
                     rowsOf': map<Uuid, M.Rows>, id: Uuid)
    requires ParentsOk(revisions) && id in revisions && revisions[id].state == Finalized
               && Intact(x, h, rows, revisions, rowsOf, id)
    requires forall r | r in revisions && revisions[r].state == Finalized :: r in revisions'
               && revisions'[r] == revisions[r]
    requires forall r | r in rowsOf && r in revisions && revisions[r].state == Finalized :: r in rowsOf'
               && rowsOf'[r] == rowsOf[r]
    requires forall r | r in revisions && revisions[r].state == Finalized :: r in rowsOf
    ensures Intact(x, h, rows, revisions', rowsOf', id)
  {
    hide Archived, Sound;
    var r := revisions[id];
    assert ParentHashes(revisions, r.parents) == ParentHashes(revisions', r.parents) by {
      forall i | 0 <= i < |r.parents|
        ensures ParentHashes(revisions, r.parents)[i] == ParentHashes(revisions', r.parents)[i]
      {
        assert r.parents[i] in r.parents;
      }
    }
    if r.parents != [] { assert r.parents[0] in r.parents; }
  }

  lemma SealsKept(x: Hashing, h: C.Hash, rows: C.Rows, revisions: Revisions, revisions': Revisions, rowsOf: map<Uuid,
                  M.Rows>,
                  rowsOf': map<Uuid, M.Rows>)
    requires ParentsOk(revisions) && SealsOk(x, h, rows, revisions, rowsOf)
    requires forall r | r in revisions && revisions[r].state == Finalized :: r in revisions'
               && revisions'[r] == revisions[r]
    requires forall r | r in rowsOf && r in revisions && revisions[r].state == Finalized :: r in rowsOf'
               && rowsOf'[r] == rowsOf[r]
    requires forall r | r in revisions' && revisions'[r].state == Finalized :: r in revisions
               && revisions[r].state == Finalized
    ensures SealsOk(x, h, rows, revisions', rowsOf')
  {
    hide Intact;
    forall r | r in revisions && revisions[r].state == Finalized
      ensures r in rowsOf
    {
      IntactRows(x, h, rows, revisions, rowsOf, r);
    }
    forall r | r in revisions' && revisions'[r].state == Finalized
      ensures Intact(x, h, rows, revisions', rowsOf', r)
    {
      OthersIntact(x, h, rows, revisions, revisions', rowsOf, rowsOf', r);
    }
  }

  lemma IntactRows(x: Hashing, h: C.Hash, rows: C.Rows, revisions: Revisions, rowsOf: map<Uuid, M.Rows>, id: Uuid)
    requires id in revisions && Intact(x, h, rows, revisions, rowsOf, id)
    ensures id in rowsOf && revisions[id].seal.Some? && Archived(h, rows, revisions[id].seal.value.root, rowsOf[id])
    ensures |revisions[id].seal.value.root| == 32
  {}

  /** A new branch, empty or on a finalized revision whose rows it takes over, keeps the invariant. */
  lemma BranchAdded(x: Hashing, h: C.Hash, rows: C.Rows, projects: set<Uuid>, branches: Branches, revisions: Revisions,
                    rowsOf: map<Uuid, M.Rows>, order: seq<Uuid>, project: Uuid, name: string, b: Uuid, r: Uuid,
                    parents: seq<Uuid>, start: M.Rows)
    requires Invariant(x, h, rows, projects, branches, revisions, rowsOf, order)
    requires b !in branches && r !in revisions && AllTabled(start) && !NameTaken(branches, project, name)
    requires if parents == [] then start == map[]
             else
               && |parents| == 1 && project in projects && parents[0] in revisions
               && revisions[parents[0]].state == Finalized && revisions[parents[0]].project == project
               && start == rowsOf[parents[0]]
    ensures Invariant(x, h, rows, projects + {project}, branches[b := Branch(project, name, r, start)],
                      revisions[r := Started(project, b, parents, 1, parents != [])], rowsOf, order)
  {
    hide HeadsOk, NumbersOk, ParentsOk, OrderOk, SealsOk, HeadsSound, RowsOk, ModesOk, NamesOk;
    var revisions' := revisions[r := Started(project, b, parents, 1, parents != [])];
    BranchHeads(projects, branches, revisions, order, project, name, b, r, parents, start);
    SealsKept(x, h, rows, revisions, revisions', rowsOf, rowsOf);
    BranchNumbers(projects, branches, revisions, project, name, b, r, parents, start);
    SealedHaveRows(x, h, rows, revisions, rowsOf);
    HeadsGrow(branches, revisions, rowsOf, project, name, b, r, parents, start, projects);
    BranchRows(branches, rowsOf, project, name, b, r, start);
    BranchNamed(branches, revisions, project, name, b, r, parents, start);
  }

  lemma SealedHaveRows(x: Hashing, h: C.Hash, rows: C.Rows, revisions: Revisions, rowsOf: map<Uuid, M.Rows>)
    requires SealsOk(x, h, rows, revisions, rowsOf)
    ensures forall r | r in revisions && revisions[r].state == Finalized :: r in rowsOf
  {
    hide Archived, Sound;
    forall r | r in revisions && revisions[r].state == Finalized
      ensures r in rowsOf
    {
      assert Intact(x, h, rows, revisions, rowsOf, r);
    }
  }

  lemma BranchHeads(projects: set<Uuid>, branches: Branches, revisions: Revisions, order: seq<Uuid>, project: Uuid,
                    name: string, b: Uuid, r: Uuid, parents: seq<Uuid>, start: M.Rows)
    requires HeadsOk(projects, branches, revisions) && ParentsOk(revisions) && OrderOk(revisions, order)
    requires b !in branches && r !in revisions
    requires forall p | p in parents :: p in revisions && revisions[p].state == Finalized
               && revisions[p].project == project
    ensures var branches' := branches[b := Branch(project, name, r, start)];
      var revisions' := revisions[r := Started(project, b, parents, 1, parents != [])];
      HeadsOk(projects + {project}, branches', revisions') && ParentsOk(revisions') && OrderOk(revisions', order)
  {}

  lemma BranchNamed(branches: Branches, revisions: Revisions, project: Uuid, name: string, b: Uuid, r: Uuid,
                    parents: seq<Uuid>, start: M.Rows)
    requires ModesOk(revisions) && NamesOk(branches) && b !in branches && r !in revisions
    requires !NameTaken(branches, project, name)
    ensures ModesOk(revisions[r := Started(project, b, parents, 1, parents != [])])
    ensures NamesOk(branches[b := Branch(project, name, r, start)])
  {}

  lemma BranchRows(branches: Branches, rowsOf: map<Uuid, M.Rows>, project: Uuid, name: string, b: Uuid, r: Uuid,
                   start: M.Rows)
    requires RowsOk(branches, rowsOf) && AllTabled(start)
    ensures RowsOk(branches[b := Branch(project, name, r, start)], rowsOf)
  {
    hide AllTabled;
  }

  lemma BranchNumbers(projects: set<Uuid>, branches: Branches, revisions: Revisions, project: Uuid, name: string,
                      b: Uuid, r: Uuid,
                      parents: seq<Uuid>,
                      start: M.Rows)
    requires HeadsOk(projects, branches, revisions) && NumbersOk(branches, revisions) && b !in branches
               && r !in revisions
    ensures NumbersOk(branches[b := Branch(project, name, r, start)],
                      revisions[r := Started(project, b, parents, 1, parents != [])])
  {
    hide Numbered;
    var branches' := branches[b := Branch(project, name, r, start)];
    var revisions' := revisions[r := Started(project, b, parents, 1, parents != [])];
    assert forall s | s in revisions :: revisions[s].branch != b;
    forall c | c in branches'
      ensures branches'[c].head in revisions' && Numbered(revisions', c, revisions'[branches'[c].head].number)
    {
      if c == b {
        FirstNumber(revisions', b, r);
      } else {
        assert branches[c].head in revisions && branches[c].head != r;
        NumberedElsewhere(revisions, revisions', c, revisions[branches[c].head].number);
      }
    }
  }

  lemma FirstNumber(revisions: Revisions, b: Uuid, r: Uuid)
    requires r in revisions && revisions[r].branch == b && revisions[r].number == 1
    requires forall s | s in revisions && revisions[s].branch == b :: s == r
    ensures Numbered(revisions, b, 1)
  {}

  /** Changes to other branches' revisions do not touch a branch's numbers. */
  lemma NumberedElsewhere(revisions: Revisions, revisions': Revisions, b: Uuid, top: nat)
    requires Numbered(revisions, b, top)
    requires forall s | s in revisions && revisions[s].branch == b ::
               s in revisions' && revisions'[s].branch == b && revisions'[s].number == revisions[s].number
    requires forall s | s in revisions' && revisions'[s].branch == b :: s in revisions && revisions[s].branch == b
    ensures Numbered(revisions', b, top)
  {
    forall n: nat | 1 <= n <= top
      ensures NumberTaken(revisions', b, n)
    {
      assert NumberTaken(revisions, b, n);
      var s :| s in revisions && revisions[s].branch == b && revisions[s].number == n;
      assert revisions'[s].number == n;
    }
  }

  /** One more revision takes the next number. */
  lemma NumberedNext(revisions: Revisions, revisions': Revisions, b: Uuid, top: nat, next: Uuid)
    requires Numbered(revisions, b, top) && next !in revisions && next in revisions'
    requires revisions'[next].branch == b && revisions'[next].number == top + 1
    requires forall s | s in revisions && revisions[s].branch == b ::
               s in revisions' && revisions'[s].branch == b && revisions'[s].number == revisions[s].number
    requires forall s | s in revisions' && revisions'[s].branch == b && s != next :: s in revisions
               && revisions[s].branch == b
    ensures Numbered(revisions', b, top + 1)
  {
    forall n: nat | 1 <= n <= top + 1
      ensures NumberTaken(revisions', b, n)
    {
      if n <= top {
        assert NumberTaken(revisions, b, n);
        var s :| s in revisions && revisions[s].branch == b && revisions[s].number == n;
        assert revisions'[s].number == n;
      } else {
        assert revisions'[next].number == n;
      }
    }
  }

  lemma HeadsGrow(branches: Branches, revisions: Revisions, rowsOf: map<Uuid, M.Rows>, project: Uuid, name: string,
                  b: Uuid, r: Uuid, parents: seq<Uuid>, start: M.Rows, projects: set<Uuid>)
    requires HeadsSound(branches, revisions, rowsOf) && HeadsOk(projects, branches, revisions) && r !in revisions
               && b !in branches
    requires if parents == [] then start == map[] else parents[0] in rowsOf && start == rowsOf[parents[0]]
    ensures HeadsSound(branches[b := Branch(project, name, r, start)],
                       revisions[r := Started(project, b, parents, 1, parents != [])],
                       rowsOf)
  {
    hide Sound;
    JournalReplay.Fresh(start);
    var branches' := branches[b := Branch(project, name, r, start)];
    var revisions' := revisions[r := Started(project, b, parents, 1, parents != [])];
    forall c | c in branches' && branches'[c].head in revisions'
      ensures Sound(ParentRows(revisions', rowsOf, branches'[c].head), HeadOf(branches', revisions', c))
    {
      if c != b {
        assert branches[c].head != r;
        assert HeadOf(branches', revisions', c) == HeadOf(branches, revisions, c);
      }
    }
  }

  // ----------------------------------------------------------------------- sealing

  function SealedAs(revisions: Revisions, id: Uuid, seal: Seal, snapshot: Bytes, next: Uuid): Revisions
    requires id in revisions
  {
    revisions[id := revisions[id].(state := Finalized, seal := Some(seal), snapshot := Some(snapshot))]
             [next := Started(revisions[id].project, revisions[id].branch, [id], revisions[id].number + 1,
                              revisions[id].objectMode)]
  }

  lemma SealHeads(projects: set<Uuid>, branches: Branches, revisions: Revisions, b: Uuid, seal: Seal, snapshot: Bytes,
                  next: Uuid)
    requires HeadsOk(projects, branches, revisions) && b in branches && next !in revisions
    ensures HeadsOk(projects, branches[b := branches[b].(head := next)],
                    SealedAs(revisions, branches[b].head, seal, snapshot, next))
  {
    var id := branches[b].head;
    var branches' := branches[b := branches[b].(head := next)];
    var revisions' := SealedAs(revisions, id, seal, snapshot, next);
    forall r | r in revisions'
      ensures revisions'[r].branch in branches' && revisions'[r].project == branches'[revisions'[r].branch].project
              && revisions'[r].state != Sealing
              && (revisions'[r].state == Working ==> branches'[revisions'[r].branch].head == r)
    {
      if r != id && r != next { assert revisions'[r] == revisions[r]; }
    }
    forall c | c in branches' && c != b
      ensures branches'[c].head in revisions' && revisions'[branches'[c].head] == revisions[branches[c].head]
    {
      assert branches[c].head != id && branches[c].head != next;
    }
  }

  lemma SealParents(projects: set<Uuid>, branches: Branches, revisions: Revisions, b: Uuid, seal: Seal, snapshot: Bytes,
                    next: Uuid)
    requires HeadsOk(projects, branches, revisions) && ParentsOk(revisions) && b in branches && next !in revisions
    ensures ParentsOk(SealedAs(revisions, branches[b].head, seal, snapshot, next))
  {
    var id := branches[b].head;
    var revisions' := SealedAs(revisions, id, seal, snapshot, next);
    forall r, p | r in revisions' && p in revisions'[r].parents
      ensures p in revisions' && revisions'[p].state == Finalized && revisions'[p].project == revisions'[r].project
    {
      if r != next {
        assert p in revisions[r].parents;
        assert p != next && p != id;
      }
    }
  }

  lemma SealOrder(projects: set<Uuid>, branches: Branches, revisions: Revisions, order: seq<Uuid>, b: Uuid, seal: Seal,
                  snapshot: Bytes, next: Uuid)
    requires HeadsOk(projects, branches, revisions) && ParentsOk(revisions) && OrderOk(revisions, order)
    requires b in branches && next !in revisions
    ensures var id := branches[b].head;
      OrderOk(SealedAs(revisions, id, seal, snapshot, next), order + [id])
  {
    var id := branches[b].head;
    var revisions' := SealedAs(revisions, id, seal, snapshot, next);
    var order' := order + [id];
    forall i, p | 0 <= i < |order'| && p in revisions'[order'[i]].parents
      ensures p in order'[..i]
    {
      if i < |order| {
        assert order[i] in order;
        assert order'[..i] == order[..i];
      } else {
        assert order'[..i] == order;
      }
    }
    assert forall r | r in order' :: r in order || r == id;
  }

  lemma SealNumbers(projects: set<Uuid>, branches: Branches, revisions: Revisions, b: Uuid, seal: Seal, snapshot: Bytes,
                    next: Uuid)
    requires HeadsOk(projects, branches, revisions) && NumbersOk(branches, revisions) && b in branches
               && next !in revisions
    ensures var id := branches[b].head;
      NumbersOk(branches[b := branches[b].(head := next)], SealedAs(revisions, id, seal, snapshot, next))
  {
    hide Numbered;
    var id := branches[b].head;
    var branches' := branches[b := branches[b].(head := next)];
    var revisions' := SealedAs(revisions, id, seal, snapshot, next);
    forall c | c in branches'
      ensures branches'[c].head in revisions' && Numbered(revisions', c, revisions'[branches'[c].head].number)
    {
      assert branches[c].head in revisions;
      if c == b {
        NumberedNext(revisions, revisions', b, revisions[id].number, next);
      } else {
        assert branches[c].head != id && branches[c].head != next;
        NumberedElsewhere(revisions, revisions', c, revisions[branches[c].head].number);
      }
    }
  }

  lemma SealedIntact(x: Hashing, h: C.Hash, rows: C.Rows, revisions: Revisions, rowsOf: map<Uuid, M.Rows>, id: Uuid,
                     objects: M.Rows,
                     seal: Seal, next: Uuid)
    requires ParentsOk(revisions) && SealsOk(x, h, rows, revisions, rowsOf) && id in revisions && next !in revisions
    requires revisions[id].state == Working && id !in rowsOf
    requires var r := revisions[id];
      && Sound(ParentRows(revisions, rowsOf, id), Head(objects, r.generation, r.events, r.groups))
      && seal.snapshotHash == x.sha(x.manifest(r.events, r.groups)) && seal.historyHash == x.history(id)
      && |seal.root| == 32 && seal.chainHash == x.chain(ChainInputOf(revisions, id, r, seal))
      && Archived(h, rows, seal.root, objects)
    ensures var revisions' := SealedAs(revisions, id, seal, x.manifest(revisions[id].events, revisions[id].groups),
                                       next);
      SealsOk(x, h, rows, revisions', rowsOf[id := objects])
  {
    hide Archived, Sound;
    var r := revisions[id];
    var revisions' := SealedAs(revisions, id, seal, x.manifest(r.events, r.groups), next);
    SealedHaveRows(x, h, rows, revisions, rowsOf);
    assert ParentHashes(revisions, r.parents) == ParentHashes(revisions', r.parents) by {
      forall i | 0 <= i < |r.parents|
        ensures ParentHashes(revisions, r.parents)[i] == ParentHashes(revisions', r.parents)[i]
      {
        assert r.parents[i] in r.parents;
      }
    }
    if r.parents != [] { assert r.parents[0] in r.parents; }
    assert Intact(x, h, rows, revisions', rowsOf[id := objects], id);
    forall s | s in revisions' && revisions'[s].state == Finalized
      ensures Intact(x, h, rows, revisions', rowsOf[id := objects], s)
    {
      if s != id {
        assert Intact(x, h, rows, revisions, rowsOf, s);
        OthersIntact(x, h, rows, revisions, revisions', rowsOf, rowsOf[id := objects], s);
      }
    }
  }

  lemma SealHeadsSound(projects: set<Uuid>, branches: Branches, revisions: Revisions, rowsOf: map<Uuid, M.Rows>,
                       b: Uuid, seal: Seal,
                       snapshot: Bytes, next: Uuid)
    requires HeadsOk(projects, branches, revisions) && ParentsOk(revisions) && HeadsSound(branches, revisions, rowsOf)
    requires b in branches && next !in revisions
    requires forall r | r in revisions && revisions[r].state == Finalized :: r in rowsOf
    ensures var id := branches[b].head;
      HeadsSound(branches[b := branches[b].(head := next)], SealedAs(revisions, id, seal, snapshot, next),
                 rowsOf[id := branches[b].rows])
  {
    hide Sound;
    var id := branches[b].head;
    var branches' := branches[b := branches[b].(head := next)];
    var revisions' := SealedAs(revisions, id, seal, snapshot, next);
    JournalReplay.Fresh(branches[b].rows);
    forall c | c in branches' && branches'[c].head in revisions'
      ensures Sound(ParentRows(revisions', rowsOf[id := branches[b].rows], branches'[c].head),
                    HeadOf(branches', revisions', c))
    {
      if c != b {
        assert branches[c].head in revisions && branches[c].head != id && branches[c].head != next;
        OtherHead(revisions, revisions', rowsOf, rowsOf[id := branches[b].rows], branches[c].head, id);
      }
    }
  }

  lemma OtherHead(revisions: Revisions, revisions': Revisions, rowsOf: map<Uuid, M.Rows>, rowsOf': map<Uuid, M.Rows>,
                  head: Uuid, id: Uuid)
    requires head in revisions && head in revisions' && revisions'[head] == revisions[head] && ParentsOk(revisions)
    requires id in revisions && revisions[id].state == Working && rowsOf' - {id} == rowsOf - {id}
    ensures ParentRows(revisions', rowsOf', head) == ParentRows(revisions, rowsOf, head)
  {
    if revisions[head].parents != [] {
      var p := revisions[head].parents[0];
      assert p in revisions[head].parents;
      assert p in rowsOf <==> p in rowsOf - {id};
      assert p in rowsOf' <==> p in rowsOf' - {id};
      if p in rowsOf { assert (rowsOf - {id})[p] == (rowsOf' - {id})[p]; }
    }
  }

  /** Sealing a head and starting its successor keeps the whole invariant. */
  lemma SealKeeps(x: Hashing, h: C.Hash, rows: C.Rows, projects: set<Uuid>, branches: Branches, revisions: Revisions,
                  rowsOf: map<Uuid, M.Rows>, order: seq<Uuid>, b: Uuid, seal: Seal, next: Uuid)
    requires Invariant(x, h, rows, projects, branches, revisions, rowsOf, order)
    requires b in branches && branches[b].head in revisions && next !in revisions
               && revisions[branches[b].head].objectMode
    requires var id := branches[b].head;
      var r := revisions[id];
      && seal.snapshotHash == x.sha(x.manifest(r.events, r.groups)) && seal.historyHash == x.history(id)
      && |seal.root| == 32 && seal.chainHash == x.chain(ChainInputOf(revisions, id, r, seal))
      && Archived(h, rows, seal.root, branches[b].rows)
    ensures var id := branches[b].head;
      var snapshot := x.manifest(revisions[id].events, revisions[id].groups);
      Invariant(x, h, rows, projects, branches[b := branches[b].(head := next)],
                SealedAs(revisions, id, seal, snapshot, next),
                rowsOf[id := branches[b].rows], order + [id])
  {
    hide HeadsOk, NumbersOk, ParentsOk, OrderOk, SealsOk, HeadsSound, RowsOk, ModesOk, NamesOk, Archived, Sound;
    var id := branches[b].head;
    var snapshot := x.manifest(revisions[id].events, revisions[id].groups);
    SealHeads(projects, branches, revisions, b, seal, snapshot, next);
    SealParents(projects, branches, revisions, b, seal, snapshot, next);
    SealOrder(projects, branches, revisions, order, b, seal, snapshot, next);
    SealNumbers(projects, branches, revisions, b, seal, snapshot, next);
    SealedHaveRows(x, h, rows, revisions, rowsOf);
    HeadIsWorking(projects, branches, revisions, rowsOf, b);
    SealedIntact(x, h, rows, revisions, rowsOf, id, branches[b].rows, seal, next);
    SealHeadsSound(projects, branches, revisions, rowsOf, b, seal, snapshot, next);
    SealRows(branches, rowsOf, b, next);
    SealModes(branches, revisions, b, seal, snapshot, next);
  }

  lemma SealModes(branches: Branches, revisions: Revisions, b: Uuid, seal: Seal, snapshot: Bytes, next: Uuid)
    requires ModesOk(revisions) && NamesOk(branches) && b in branches && branches[b].head in revisions
    requires next !in revisions && revisions[branches[b].head].objectMode
    ensures ModesOk(SealedAs(revisions, branches[b].head, seal, snapshot, next))
    ensures NamesOk(branches[b := branches[b].(head := next)])
  {}

  lemma HeadIsWorking(projects: set<Uuid>, branches: Branches, revisions: Revisions, rowsOf: map<Uuid, M.Rows>, b: Uuid)
    requires HeadsOk(projects, branches, revisions) && HeadsSound(branches, revisions, rowsOf) && b in branches
    ensures var id := branches[b].head;
      && id in revisions && revisions[id].state == Working && revisions[id].branch == b
      && Sound(ParentRows(revisions, rowsOf, id), HeadOf(branches, revisions, b))
  {
    hide Sound;
  }

  lemma SealRows(branches: Branches, rowsOf: map<Uuid, M.Rows>, b: Uuid, next: Uuid)
    requires RowsOk(branches, rowsOf) && b in branches
    ensures RowsOk(branches[b := branches[b].(head := next)], rowsOf[branches[b].head := branches[b].rows])
  {
    hide AllTabled;
  }
}
