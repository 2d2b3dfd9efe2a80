/** The repository: every operation keeps the lifecycle invariant, and the integrity check says so. */
module RepositoryModel {
  import opened Prelude
  import opened Uuid
  import opened Journal
  import opened RevisionSeal
  import opened RevisionLifecycle
  import C = ContentStore
  import M = ModelRecord
  import HashChain
  import JournalReplay
  import NetworkRecords
  import NetworkSave
  import RevisionAncestry

  const MAIN: string := "main"
  const MAX_NAME: nat := 256

  predicate ValidName(trimmed: string -> string, name: string) {
    trimmed(name) != "" && |name| <= MAX_NAME
  }

  class Repository {
    const db: C.Store
    const x: Hashing
    /** A text without the white space around it. */
    const trimmed: string -> string
    var projects: set<Uuid>
    var branches: Branches
    var revisions: Revisions
    // what each finalized revision sealed, and the order of sealing
    ghost var rowsOf: map<Uuid, M.Rows>
    ghost var order: seq<Uuid>

    ghost predicate Valid()
      reads this, db
    {
      Invariant(x, db.hash, db.rows, projects, branches, revisions, rowsOf, order)
    }

    constructor (db: C.Store, x: Hashing, trimmed: string -> string)
      ensures Valid() && this.db == db && this.x == x && this.trimmed == trimmed
      ensures projects == {} && revisions == map[] && branches == map[]
    {
      this.db, this.x, this.trimmed := db, x, trimmed;
      projects, branches, revisions, rowsOf, order := {}, map[], map[], map[], [];
    }

    /** A project with its main branch and first working revision, still without objects. The identifiers are fresh. */
    method CreateProject(name: string, project: Uuid, branch: Uuid, revision: Uuid) returns (ok: bool)
      requires Valid() && project !in projects && branch !in branches && revision !in revisions
      modifies this
      ensures Valid() && rowsOf == old(rowsOf) && order == old(order)
      ensures ok <==> trimmed(name) != "" && |name| <= 256
      ensures ok ==> projects == old(projects) + {project}
      ensures ok ==> branches == old(branches)[branch := Branch(project, "main", revision, map[])]
      ensures ok ==> revisions == old(revisions)[revision := Revision(project, branch, 1, false, Working, 0, [], [], [],
                                                                      None, None)]
      ensures !ok ==> projects == old(projects) && branches == old(branches) && revisions == old(revisions)
    {
      hide Invariant;
      if !ValidName(trimmed, name) {
        return false;
      }
      EmptyTabled();
      FreshProject(x, db.hash, db.rows, projects, branches, revisions, rowsOf, order, project);
      BranchAdded(x, db.hash, db.rows, projects, branches, revisions, rowsOf, order, project, MAIN, branch, revision,
                  [], map[]);
      projects := projects + {project};
      revisions := revisions[revision := Started(project, branch, [], 1, false)];
      branches := branches[branch := Branch(project, MAIN, revision, map[])];
      ok := true;
    }

    /**
     A branch on a finalized revision of the project. Its rows are read from the
     immutable snapshot, and the tables derived from its networks are rebuilt
     from those rows; if either fails, or the name will not do, there is no branch.
     */
    method CreateBranch<Meta(!new), Entity(!new)>(name: string, project: Uuid, base: Uuid, branch: Uuid, revision: Uuid,
                                                  c: NetworkRecords.Codec<Meta, Entity>,
                                                  graph: NetworkRecords.Network<Meta, Entity> -> set<Bytes>)
                                                    returns (ok: bool)
      requires Valid() && branch !in branches && revision !in revisions && NetworkRecords.Lawful(c)
      modifies this
      ensures Valid() && projects == old(projects) && rowsOf == old(rowsOf) && order == old(order)
      ensures ok <==>
                trimmed(name) != "" && |name| <= 256
                && (forall b | b in old(branches) && old(branches)[b].project == project ::
                      old(branches)[b].name != trimmed(name))
                && base in old(revisions) && old(revisions)[base].state == Finalized
                && old(revisions)[base].project == project
                      && LegalKinds(rowsOf[base]) && NetworkSave.AllLoad(c, rowsOf[base])
      ensures ok ==> revisions == old(revisions)[revision := Revision(project, branch, 1, true, Working, 0, [base], [],
                                                                      [], None, None)]
      ensures ok ==> branches == old(branches)[branch := Branch(project, trimmed(name), revision, rowsOf[base])]
      ensures !ok ==> revisions == old(revisions) && branches == old(branches)
    {
      hide Invariant, LegalKinds, Archived, Sound, AllTabled, NetworkRecords.Lawful, NetworkSave.AllLoad;
      if !ValidName(trimmed, name) {
        return false;
      }
      if base !in revisions || revisions[base].state != Finalized || revisions[base].project != project {
        return false;
      }
      if NameTaken(branches, project, trimmed(name)) {
        return false;
      }
      SealedFacts(x, db.hash, db.rows, projects, branches, revisions, rowsOf, order, base);
      HoldsObjects(x, db.hash, db.rows, projects, branches, revisions, rowsOf, order, base);
      var rows := ReadRevisionObjects(db, revisions[base].seal.value.root);
      if rows.None? {
        return false;
      }
      ok := NetworkSave.RebuildTables(c, graph, rows.value);
      if !ok {
        return;
      }
      BranchAdded(x, db.hash, db.rows, projects, branches, revisions, rowsOf, order, project, trimmed(name), branch,
                  revision, [base], rows.value);
      assert projects + {project} == projects;
      var mode := revisions[base].objectMode;
      revisions := revisions[revision := Started(project, branch, [base], 1, mode)];
      branches := branches[branch := Branch(project, trimmed(name), revision, rows.value)];
    }

    /** Stores what an edit, undo or redo made of a branch's head; the journal only grows. */
    method RecordEdit(branch: Uuid, h: Head)
      requires Valid() && branch in branches && branches[branch].head in revisions
      requires revisions[branches[branch].head].events <= h.events
      requires Sound(ParentRows(revisions, rowsOf, branches[branch].head), h) && AllTabled(h.rows)
      modifies this`branches, this`revisions
      ensures Valid() && branches == old(branches)[branch := old(branches)[branch].(rows := h.rows)]
      ensures revisions == Edited(old(revisions), old(branches)[branch].head, h)
    {
      hide Invariant;
      EditKeeps(x, db.hash, db.rows, projects, branches, revisions, rowsOf, order, branch, h);
      revisions := Edited(revisions, branches[branch].head, h);
      branches := branches[branch := branches[branch].(rows := h.rows)];
    }

    /**
     Seals a branch's working revision and starts its successor. The root is
     built on the first parent's root; the successor takes the rows over. Without
     a digest collision this succeeds exactly at the right generation of a head
     that holds objects.
     */
    method Finalize(branch: Uuid, expectedGeneration: int, details: Bytes, next: Uuid)
      returns (r: Option<Uuid>)
      requires Valid() && next !in revisions
      modifies this, db
      ensures C.Extends(old(db.rows), db.rows) && projects == old(projects)
      ensures r.None? ==> Valid() && branches == old(branches) && revisions == old(revisions)
      ensures r.Some? ==> branch in old(branches) && r.value == old(branches)[branch].head && r.value in old(revisions)
                          && old(revisions)[r.value].generation == expectedGeneration
                          && old(revisions)[r.value].state == Working && old(revisions)[r.value].objectMode
      ensures branch in old(branches) && old(branches)[branch].head in old(revisions)
              && old(revisions)[old(branches)[branch].head].generation == expectedGeneration
              && old(revisions)[old(branches)[branch].head].objectMode
              && !HeadBlocked(db.hash, old(db.rows), old(branches), old(revisions), old(rowsOf), branch) ==>
                r.Some? && Valid() && rowsOf == old(rowsOf)[r.value := old(branches)[branch].rows]
      ensures r.Some? && old(revisions)[r.value].parents == [] ==>
                !HeadBlocked(db.hash, old(db.rows), old(branches), old(revisions), old(rowsOf), branch)
      ensures r.Some? ==> branches == old(branches)[branch := old(branches)[branch].(head := next)]
      ensures r.Some? ==>
                Published(x, old(revisions), r.value, old(revisions)[r.value], details, next, revisions)
      ensures forall id | id in old(revisions) && old(revisions)[id].state == Finalized :: id in revisions
                && revisions[id] == old(revisions)[id]
      ensures r.Some? ==> r.value in revisions && revisions[r.value].state == Finalized
                          && revisions[r.value].parents == old(revisions)[r.value].parents
    {
      hide Invariant, Archived, HeadsOk, HeadBlocked;
      if branch !in branches {
        return None;
      }
      var id := branches[branch].head;
      HeadFacts(x, db.hash, db.rows, projects, branches, revisions, rowsOf, order, branch);
      if revisions[id].generation != expectedGeneration {
        return None;
      }
      // Without object mode there is no root to build and no snapshot to seal.
      if !revisions[id].objectMode {
        return None;
      }
      var seal, snapshot := PrepareSeal(branch, details);
      if seal.None? {
        return None;
      }
      SealedUntouched(revisions, id, seal.value, snapshot, next);
      SealSpells(x, db.hash, db.rows, projects, branches, revisions, rowsOf, order, id, seal.value, snapshot, next);
      Publish(branch, seal.value, snapshot, next);
      r := Some(id);
    }

    /** Stores the immutable root of a branch's rows and computes the seal; no record changes yet. */
    method PrepareSeal(branch: Uuid, details: Bytes) returns (seal: Option<Seal>, snapshot: Bytes)
      requires Valid() && branch in branches && branches[branch].head in revisions
      modifies db
      ensures C.Extends(old(db.rows), db.rows) && Valid()
      ensures snapshot == x.manifest(revisions[branches[branch].head].events, revisions[branches[branch].head].groups)
      ensures seal.Some? ==> SealFits(x, revisions, branches[branch].head, seal.value, snapshot)
                             && seal.value.details == details
      ensures !HeadBlocked(db.hash, old(db.rows), branches, revisions, rowsOf, branch) ==>
                seal.Some? && Archived(db.hash, db.rows, seal.value.root, branches[branch].rows)
      ensures seal.Some? && revisions[branches[branch].head].parents == [] ==>
                !HeadBlocked(db.hash, old(db.rows), branches, revisions, rowsOf, branch)
    {
      hide Invariant, Archived, Sound, AllTabled, Journaled, SealBlocked;
      HeadFacts(x, db.hash, db.rows, projects, branches, revisions, rowsOf, order, branch);
      var id := branches[branch].head;
      var working := revisions[id];
      snapshot := x.manifest(working.events, working.groups);
      var inherited: Bytes := [];
      if working.parents != [] {
        ParentFacts(x, db.hash, db.rows, projects, branches, revisions, rowsOf, order, branch);
        inherited := revisions[working.parents[0]].seal.value.root;
      }
      ghost var before := db.rows;
      var root := BuildRevisionRoot(db, HeadOf(branches, revisions, branch), inherited);
      InvariantStays(x, db.hash, before, db.rows, projects, branches, revisions, rowsOf, order);
      if root.None? {
        if working.parents == [] {
          StillNamed(map[], HeadOf(branches, revisions, branch));
        }
        return None, snapshot;
      }
      var partial := Seal(details, x.sha(snapshot), x.history(id), [], root.value);
      seal := Some(partial.(chainHash := x.chain(ChainInputOf(revisions, id, working, partial))));
    }

    /** The published order of steps: seal the old head out of the working slot, insert the successor, finalize, move
        the head. */
    method Publish(branch: Uuid, seal: Seal, snapshot: Bytes, next: Uuid)
      requires Valid() && branch in branches && branches[branch].head in revisions && next !in revisions
      requires revisions[branches[branch].head].objectMode
      requires SealFits(x, revisions, branches[branch].head, seal, snapshot)
      modifies this
      ensures projects == old(projects) && branches == old(branches)[branch := old(branches)[branch].(head := next)]
      ensures revisions == SealedAs(old(revisions), old(branches)[branch].head, seal, snapshot, next)
      ensures Archived(db.hash, db.rows, seal.root, old(branches)[branch].rows) ==>
                Valid() && rowsOf == old(rowsOf)[old(branches)[branch].head := old(branches)[branch].rows]
      ensures forall id | id in old(revisions) && old(revisions)[id].state == Finalized :: id in revisions
                && revisions[id] == old(revisions)[id]
    {
      hide Invariant, Archived, HeadsOk, SealedAs, SealFits, Sound, Journaled;
      ghost var id := branches[branch].head;
      HeadFacts(x, db.hash, db.rows, projects, branches, revisions, rowsOf, order, branch);
      ghost var archived := Archived(db.hash, db.rows, seal.root, branches[branch].rows);
      if archived {
        SealPublishes(x, db.hash, db.rows, projects, branches, revisions, rowsOf, order, branch, seal, snapshot, next);
      }
      SealedUntouched(revisions, id, seal, snapshot, next);
      HeadsOkOf(x, db.hash, db.rows, projects, branches, revisions, rowsOf, order);
      ReplaceHead(branch, seal, snapshot, next);
      rowsOf := if archived then rowsOf[id := branches[branch].rows] else rowsOf;
      order := if archived then order + [id] else order;
    }

    method ReplaceHead(branch: Uuid, seal: Seal, snapshot: Bytes, next: Uuid)
      requires HeadsOk(projects, branches, revisions) && branch in branches && branches[branch].head in revisions
                 && next !in revisions
      modifies this`revisions, this`branches
      ensures branches == old(branches)[branch := old(branches)[branch].(head := next)]
      ensures revisions == SealedAs(old(revisions), old(branches)[branch].head, seal, snapshot, next)
    {
      var id := branches[branch].head;
      var working := revisions[id];
      ghost var steps := SealSteps(revisions, id, seal, snapshot, next);
      NeverTwoHeads(projects, branches, revisions, branch, seal, snapshot, next);
      revisions := revisions[id := working.(state := Sealing)];
      assert revisions == steps[0];
      revisions := revisions[next := Started(working.project, branch, [], working.number + 1, working.objectMode)];
      assert revisions == steps[1];
      revisions := revisions[id := working.(state := Finalized, seal := Some(seal), snapshot := Some(snapshot))];
      assert revisions == steps[2];
      revisions := revisions[next := revisions[next].(parents := [id])];
      assert revisions == steps[3];
      branches := branches[branch := branches[branch].(head := next)];
    }

    /** The demands of a merge on its target: the named working head of the branch, and another branch's finalized
        revision. */
    method CheckTarget(branch: Uuid, expectedWorking: Uuid, expectedGeneration: int, right: Uuid) returns (ok: bool)
      ensures ok <==> branch in branches && branches[branch].head == expectedWorking
                      && MergeTarget(revisions, branch, expectedWorking, expectedGeneration, right)
      ensures ok <==>
                && branch in branches && branches[branch].head == expectedWorking && expectedWorking in revisions
                && right in revisions
                && var working, other := revisions[expectedWorking], revisions[right];
                && working.state == Working && working.generation == expectedGeneration && |working.parents| == 1
                && other.state == Finalized && other.project == working.project && other.branch != branch
                && right != working.parents[0]
    {
      if branch !in branches || branches[branch].head != expectedWorking || expectedWorking !in revisions {
        return false;
      }
      var working := revisions[expectedWorking];
      if working.state != Working || working.generation != expectedGeneration || |working.parents| != 1 {
        return false;
      }
      ok := right in revisions && revisions[right].state == Finalized && revisions[right].project == working.project
            && revisions[right].branch != branch && working.parents[0] != right;
    }

    /**
     A merge commit: the merged head is recorded, the right revision becomes the
     second parent, and the head is sealed; or nothing happens.
     */
    method MergeAndFinalize(branch: Uuid, expectedWorking: Uuid, expectedGeneration: int, right: Uuid, h: Head,
                            details: Bytes, next: Uuid)
      returns (r: Option<Uuid>)
      requires Valid() && next !in revisions
      requires branch in branches && branches[branch].head in revisions ==>
                 Sound(ParentRows(revisions, rowsOf, branches[branch].head), h) && AllTabled(h.rows)
                 && revisions[branches[branch].head].events <= h.events
      modifies this, db
      ensures C.Extends(old(db.rows), db.rows) && projects == old(projects)
      ensures r.None? ==> branches == old(branches) && revisions == old(revisions) && Valid()
      ensures r.Some? ==> branch in old(branches) && r.value == expectedWorking == old(branches)[branch].head
                          && MergeTarget(old(revisions), branch, expectedWorking, expectedGeneration, right)
      ensures r.Some? && !SealBlocked(db.hash, old(db.rows),
                                      Some(ParentRows(old(revisions), old(rowsOf), expectedWorking)), h) ==>
                Valid() && rowsOf == old(rowsOf)[r.value := h.rows]
      ensures r.Some? ==> r.value in revisions && revisions[r.value].state == Finalized
                          && revisions[r.value].parents == old(revisions)[r.value].parents + [right]
      ensures r.Some? ==> branches == old(branches)[branch := old(branches)[branch].(rows := h.rows, head := next)]
      ensures r.Some? ==> Published(x, old(revisions), r.value, WithMerge(old(revisions)[r.value], h, right), details,
                                    next, revisions)
      ensures r.None? && branch in old(branches) && expectedWorking == old(branches)[branch].head
              && MergeTarget(old(revisions), branch, expectedWorking, expectedGeneration, right) ==>
                SealBlocked(db.hash, old(db.rows), Some(ParentRows(old(revisions), old(rowsOf), expectedWorking)), h)
      ensures forall id | id in old(revisions) && old(revisions)[id].state == Finalized :: id in revisions
                && revisions[id] == old(revisions)[id]
    {
      hide Invariant, Archived, Sound, AllTabled, SealedAs, HeadsOk, HeadBlocked, SealBlocked;
      var ok := CheckTarget(branch, expectedWorking, expectedGeneration, right);
      if !ok {
        return None;
      }
      var savedBranches, savedRevisions := branches, revisions;
      ghost var savedRows, savedOrder, before := rowsOf, order, db.rows;
      r := SealMerge(branch, right, h, details, next);
      if r.None? {
        branches, revisions := savedBranches, savedRevisions;
        rowsOf, order := savedRows, savedOrder;
        hide *;
        InvariantStays(x, db.hash, before, db.rows, projects, branches, revisions, rowsOf, order);
      }
    }

    /** Records a merge and seals it. */
    method SealMerge(branch: Uuid, right: Uuid, h: Head, details: Bytes, next: Uuid) returns (r: Option<Uuid>)
      requires Valid() && branch in branches && branches[branch].head in revisions && next !in revisions
      requires Sound(ParentRows(revisions, rowsOf, branches[branch].head), h) && AllTabled(h.rows)
                 && revisions[branches[branch].head].events <= h.events
      requires |revisions[branches[branch].head].parents| == 1 && right in revisions
                 && revisions[right].state == Finalized
      requires revisions[right].project == revisions[branches[branch].head].project
      modifies this, db
      ensures C.Extends(old(db.rows), db.rows) && projects == old(projects)
      ensures r.Some? ==> r.value == old(branches)[branch].head
                          && branches == old(branches)[branch := old(branches)[branch].(rows := h.rows, head := next)]
      ensures r.Some? ==> Published(x, old(revisions), r.value, WithMerge(old(revisions)[r.value], h, right), details,
                                    next, revisions)
      ensures var blocked := SealBlocked(db.hash, old(db.rows),
                                         Some(ParentRows(old(revisions), old(rowsOf), old(branches)[branch].head)), h);
        && (r.None? ==> blocked)
        && (r.Some? && !blocked ==> Valid() && rowsOf == old(rowsOf)[r.value := h.rows])
      ensures forall id | id in old(revisions) && old(revisions)[id].state == Finalized :: id in revisions
                && revisions[id] == old(revisions)[id]
    {
      hide Invariant, Sound, AllTabled, HeadBlocked, SealBlocked, Published, ParentRows, C.Extends;
      ghost var id, was := branches[branch].head, revisions;
      EnterMerge(branch, right, h);
      r := Finalize(branch, h.generation, details, next);
      if r.Some? {
        PublishedBefore(x, was, id, WithMerge(was[id], h, right), details, next, revisions);
      }
    }

    /** The merge as it is recorded: nothing of it keeps the head from being sealed that did not before. */
    method EnterMerge(branch: Uuid, right: Uuid, h: Head)
      requires Valid() && branch in branches && branches[branch].head in revisions
      requires Sound(ParentRows(revisions, rowsOf, branches[branch].head), h) && AllTabled(h.rows)
                 && revisions[branches[branch].head].events <= h.events
      requires |revisions[branches[branch].head].parents| == 1 && right in revisions
                 && revisions[right].state == Finalized
      requires revisions[right].project == revisions[branches[branch].head].project
      modifies this`branches, this`revisions
      ensures Valid() && branches == old(branches)[branch := old(branches)[branch].(rows := h.rows)]
      ensures var id := old(branches)[branch].head;
        id in old(revisions) && old(revisions)[id].state == Working
        && revisions == old(revisions)[id := WithMerge(old(revisions)[id], h, right)]
      ensures Sealable(branches, revisions, branch, h.generation)
      ensures HeadBlocked(db.hash, db.rows, branches, revisions, rowsOf, branch) <==>
                SealBlocked(db.hash, db.rows, Some(ParentRows(old(revisions), rowsOf, old(branches)[branch].head)), h)
      ensures forall id | id in old(revisions) && old(revisions)[id].state == Finalized :: id in revisions
                && revisions[id] == old(revisions)[id]
    {
      hide Invariant, Sound, AllTabled, HeadBlocked, SealBlocked;
      ghost var savedBranches, savedRevisions := branches, revisions;
      ghost var id := branches[branch].head;
      HeadParents(x, db.hash, db.rows, projects, branches, revisions, rowsOf, order, branch);
      HeadFacts(x, db.hash, db.rows, projects, branches, revisions, rowsOf, order, branch);
      HoldsObjects(x, db.hash, db.rows, projects, branches, revisions, rowsOf, order, id);
      RecordMerge(branch, right, h);
      MergeInherits(db.hash, db.rows, savedBranches, savedRevisions, rowsOf, branches, revisions, branch, right, h);
      FinalizedKept(savedRevisions, revisions, id);
    }

    /** The merged head and its second parent, still unsealed. */
    method RecordMerge(branch: Uuid, right: Uuid, h: Head)
      requires Valid() && branch in branches && branches[branch].head in revisions
      requires Sound(ParentRows(revisions, rowsOf, branches[branch].head), h) && AllTabled(h.rows)
      requires revisions[branches[branch].head].events <= h.events
      requires |revisions[branches[branch].head].parents| == 1 && right in revisions
                 && revisions[right].state == Finalized
      requires revisions[right].project == revisions[branches[branch].head].project
      modifies this`branches, this`revisions
      ensures Valid() && branches == old(branches)[branch := old(branches)[branch].(rows := h.rows)]
      ensures var id := old(branches)[branch].head;
        id in old(revisions) && revisions == old(revisions)[id := WithMerge(old(revisions)[id], h, right)]
      ensures old(branches)[branch].head in old(revisions) && old(revisions)[old(branches)[branch].head].state
                == Working
    {
      hide Invariant, Sound, AllTabled;
      HeadFacts(x, db.hash, db.rows, projects, branches, revisions, rowsOf, order, branch);
      var id := branches[branch].head;
      HoldsObjects(x, db.hash, db.rows, projects, branches, revisions, rowsOf, order, id);
      RecordEdit(branch, h);
      SecondParent(x, db.hash, db.rows, projects, branches, revisions, rowsOf, order, branch, right);
      revisions := revisions[id := revisions[id].(parents := revisions[id].parents + [right])];
    }

    /**
     The integrity check of a project: every root is read in full, every manifest
     rebuilt from the journal, every hash compared. It accepts exactly the projects
     none of whose sealed revisions were altered, whatever was done to the tables
     or the store; on a reachable repository it fails only for a sealed row whose
     kind cannot be read back.
     */
    method VerifyProject(project: Uuid) returns (valid: bool)
      ensures valid <==> project in projects && forall r | r in revisions && revisions[r].state == Finalized
                && revisions[r].project == project ::
                HashChain.Unaltered(x, db.hash, db.rows, revisions, r)
      ensures valid ==> HashChain.Linked(x, revisions, project)
      ensures Valid() ==>
                (valid <==> project in projects
                            && forall r | r in revisions && revisions[r].state == Finalized
                                          && revisions[r].project == project :: r in rowsOf && LegalKinds(rowsOf[r]))
    {
      hide Invariant, Archived, Sound, LegalKinds, HashChain.Unaltered;
      if project !in projects {
        return false;
      }
      var rest := revisions.Keys;
      while rest != {}
        invariant rest <= revisions.Keys
        invariant forall r | r in revisions && r !in rest && revisions[r].state == Finalized
                    && revisions[r].project == project ::
                    HashChain.Unaltered(x, db.hash, db.rows, revisions, r)
                    && (Valid() ==> r in rowsOf && LegalKinds(rowsOf[r]))
        decreases rest
      {
        var r :| r in rest;
        rest := rest - {r};
        if revisions[r].state == Finalized && revisions[r].project == project {
          var ok := VerifyRevision(r);
          if !ok {
            return false;
          }
        }
      }
      valid := true;
      UnalteredLinked(x, db.hash, db.rows, revisions, project);
    }

    /** One finalized revision against its seal. */
    method VerifyRevision(id: Uuid) returns (ok: bool)
      requires id in revisions && revisions[id].state == Finalized
      ensures ok <==> HashChain.Unaltered(x, db.hash, db.rows, revisions, id)
      ensures Valid() ==> id in rowsOf && (ok <==> LegalKinds(rowsOf[id]))
    {
      hide Invariant, Archived, Sound, LegalKinds, AllTabled, HashChain.Covered, ChainInputOf;
      var r := revisions[id];
      if Valid() { SealedUnaltered(x, db.hash, db.rows, projects, branches, revisions, rowsOf, order, id); }
      if r.seal.None? {
        return false;
      }
      var seal := r.seal.value;
      if r.objectMode {
        var objects := ReadRevisionObjects(db, seal.root);
        if objects.None? || r.snapshot != Some(x.manifest(r.events, r.groups)) {
          return false;
        }
      }
      if r.snapshot.None? || x.sha(r.snapshot.value) != seal.snapshotHash || x.history(id) != seal.historyHash {
        return false;
      }
      for i := 0 to |r.parents|
        invariant forall j | 0 <= j < i ::
                    && r.parents[j] in revisions && revisions[r.parents[j]].state == Finalized
                    && revisions[r.parents[j]].project == r.project && revisions[r.parents[j]].seal.Some?
                    && |revisions[r.parents[j]].seal.value.chainHash| == 32
      {
        var p := r.parents[i];
        assert p in r.parents;
        if p !in revisions || revisions[p].state != Finalized || revisions[p].project != r.project
          || revisions[p].seal.None? || |revisions[p].seal.value.chainHash| != 32 {
          return false;
        }
      }
      HashChain.CoveredIs(revisions, id);
      var root := if r.objectMode then seal.root else seq(32, _ => 0);
      ok := x.chain(ChainInputOf(revisions, id, r, seal.(root := root))) == seal.chainHash;
    }

    /**
     The deep check as well: every journal, replayed on its first parent's snapshot,
     accounts for the sealed one. Again on whatever the tables and the store hold.
     */
    method VerifyProjectJournal(project: Uuid) returns (valid: bool)
      ensures valid <==> project in projects && forall r | r in revisions && revisions[r].state == Finalized
                && revisions[r].project == project ::
                HashChain.Unaltered(x, db.hash, db.rows, revisions, r)
                && (revisions[r].objectMode ==> Explained(db.hash, db.rows, revisions, r))
      ensures Valid() ==>
                (valid <==> project in projects
                            && forall r | r in revisions && revisions[r].state == Finalized
                                          && revisions[r].project == project :: r in rowsOf && LegalKinds(rowsOf[r]))
    {
      hide Invariant, Archived, Sound, LegalKinds, AllTabled, JournalReplay.Accounted, HashChain.Unaltered;
      valid := VerifyProject(project);
      if !valid {
        return;
      }
      var rest := revisions.Keys;
      while rest != {}
        invariant rest <= revisions.Keys
        invariant forall r | r in revisions && r !in rest && revisions[r].state == Finalized
                    && revisions[r].project == project && revisions[r].objectMode ::
                    Explained(db.hash, db.rows, revisions, r)
        decreases rest
      {
        var r :| r in rest;
        rest := rest - {r};
        if revisions[r].state == Finalized && revisions[r].project == project && revisions[r].objectMode {
          var ok := ReplayRevision(r);
          if !ok {
            return false;
          }
        }
      }
    }

    /** One journal, on the snapshot of the first parent. */
    method ReplayRevision(id: Uuid) returns (ok: bool)
      requires id in revisions && revisions[id].state == Finalized
      requires HashChain.LinkedAt(x, revisions, id)
      ensures ok <==> Explained(db.hash, db.rows, revisions, id)
      ensures Valid() && id in rowsOf && LegalKinds(rowsOf[id]) ==>
                (forall p | p in revisions[id].parents :: p in rowsOf && LegalKinds(rowsOf[p])) ==> ok
    {
      hide Invariant, Archived, Sound, LegalKinds, AllTabled, JournalReplay.Accounted, HashChain.Covered;
      var r := revisions[id];
      if Valid() {
        SealedFacts(x, db.hash, db.rows, projects, branches, revisions, rowsOf, order, id);
        FirstParent(x, db.hash, db.rows, projects, branches, revisions, rowsOf, order, id);
        if r.parents != [] {
          assert r.parents[0] in r.parents;
          ParentSealed(x, db.hash, db.rows, projects, branches, revisions, rowsOf, order, id, 0);
        }
      }
      var first: Bytes := [];
      if r.parents != [] {
        assert r.parents[0] in r.parents;
        first := revisions[r.parents[0]].seal.value.root;
        if |first| != 32 {
          return false;
        }
      }
      ok := JournalReplay.VerifyJournalReplay(db, first, r.events, r.seal.value.root);
    }
  }

  /** The journal of a sealed revision accounts for its objects, from its first parent's on. */
  ghost predicate Explained(h: C.Hash, rows: C.Rows, revisions: Revisions, id: Uuid) {
    && id in revisions && revisions[id].seal.Some?
    && var r := revisions[id];
    if r.parents == [] then JournalReplay.Accounted(h, rows, [], r.events, r.seal.value.root)
    else
      && r.parents[0] in revisions && revisions[r.parents[0]].seal.Some?
      && |revisions[r.parents[0]].seal.value.root| == 32
      && JournalReplay.Accounted(h, rows, revisions[r.parents[0]].seal.value.root, r.events, r.seal.value.root)
  }

  lemma UnalteredLinked(x: Hashing, h: C.Hash, rows: C.Rows, revisions: Revisions, project: Uuid)
    requires forall r | r in revisions && revisions[r].state == Finalized && revisions[r].project == project ::
               HashChain.Unaltered(x, h, rows, revisions, r)
    ensures HashChain.Linked(x, revisions, project)
  {
    hide HashChain.LinkedAt, Archived, LegalKinds, AllTabled;
    forall r | r in revisions && revisions[r].state == Finalized && revisions[r].project == project
      ensures HashChain.LinkedAt(x, revisions, r)
    {
      assert HashChain.Unaltered(x, h, rows, revisions, r);
    }
  }

  /** On a reachable repository only an unreadable kind keeps a seal from checking out. */
  lemma SealedUnaltered(x: Hashing, h: C.Hash, rows: C.Rows, projects: set<Uuid>, branches: Branches,
                        revisions: Revisions, rowsOf: map<Uuid, M.Rows>, order: seq<Uuid>, id: Uuid)
    requires Invariant(x, h, rows, projects, branches, revisions, rowsOf, order) && id in revisions
               && revisions[id].state == Finalized
    ensures id in rowsOf && AllTabled(rowsOf[id]) && revisions[id].seal.Some? && revisions[id].objectMode
    ensures Archived(h, rows, revisions[id].seal.value.root, rowsOf[id])
    ensures HashChain.LinkedAt(x, revisions, id)
    ensures var r := revisions[id];
      && r.snapshot == Some(x.manifest(r.events, r.groups)) && r.seal.value.snapshotHash == x.sha(r.snapshot.value)
      && r.seal.value.historyHash == x.history(id)
    ensures forall p | p in revisions[id].parents :: |revisions[p].seal.value.chainHash| == 32
  {
    hide Invariant, Archived, Sound, LegalKinds, AllTabled, HashChain.LinkedAt;
    SealedFacts(x, h, rows, projects, branches, revisions, rowsOf, order, id);
    HoldsObjects(x, h, rows, projects, branches, revisions, rowsOf, order, id);
    HashChain.RepositoryLinked(x, h, rows, projects, branches, revisions, rowsOf, order, revisions[id].project);
    forall p | p in revisions[id].parents
      ensures p in revisions && revisions[p].seal.Some? && |revisions[p].seal.value.chainHash| == 32
    {
      var i :| 0 <= i < |revisions[id].parents| && revisions[id].parents[i] == p;
      ParentSealed(x, h, rows, projects, branches, revisions, rowsOf, order, id, i);
    }
  }

  // ------------------------------------------------------------------- what is known

  lemma SealedUntouched(revisions: Revisions, id: Uuid, seal: Seal, snapshot: Bytes, next: Uuid)
    requires id in revisions && next !in revisions && revisions[id].state == Working
    ensures var after := SealedAs(revisions, id, seal, snapshot, next);
      && (forall r | r in revisions && revisions[r].state == Finalized :: r in after && after[r] == revisions[r])
      && id in after && after[id].state == Finalized && after[id].parents == revisions[id].parents
  {}

  lemma SealPublishes(x: Hashing, h: C.Hash, rows: C.Rows, projects: set<Uuid>, branches: Branches,
                      revisions: Revisions,
                      rowsOf: map<Uuid, M.Rows>, order: seq<Uuid>, b: Uuid, seal: Seal, snapshot: Bytes, next: Uuid)
    requires Invariant(x, h, rows, projects, branches, revisions, rowsOf, order)
    requires b in branches && branches[b].head in revisions && next !in revisions
               && revisions[branches[b].head].objectMode
    requires SealFits(x, revisions, branches[b].head, seal, snapshot) && Archived(h, rows, seal.root, branches[b].rows)
    ensures var id := branches[b].head;
      Invariant(x, h, rows, projects, branches[b := branches[b].(head := next)],
                SealedAs(revisions, id, seal, snapshot, next),
                rowsOf[id := branches[b].rows], order + [id])
  {
    hide Invariant, Archived;
    ArchivedRoot(h, rows, seal.root, branches[b].rows);
    SealKeeps(x, h, rows, projects, branches, revisions, rowsOf, order, b, seal, next);
  }

  /**
   What sealing records, written out: the manifest of the journal and its hash, the
   history hash, and the chain hash of the project, branch, identifier, number,
   details, hashes and root, and of each parent in order with the chain hash that
   the parent's own seal has. Nothing else of the revision changes.
   */
  ghost predicate SealSpelled(x: Hashing, revisions: Revisions, id: Uuid, r: Revision, details: Bytes,
                              sealed: Revision) {
    && sealed == r.(state := Finalized, seal := sealed.seal, snapshot := Some(x.manifest(r.events, r.groups)))
    && sealed.seal.Some?
    && var s := sealed.seal.value;
    && s.details == details && s.snapshotHash == x.sha(x.manifest(r.events, r.groups)) && s.historyHash == x.history(id)
    && exists pairs: seq<(Uuid, Bytes)> ::
      && |pairs| == |r.parents|
      && (forall i | 0 <= i < |pairs| ::
            && pairs[i].0 == r.parents[i] && pairs[i].0 in revisions && revisions[pairs[i].0].state == Finalized
            && revisions[pairs[i].0].project == r.project
            && revisions[pairs[i].0].seal.Some? && pairs[i].1 == revisions[pairs[i].0].seal.value.chainHash)
      && s.chainHash == x.chain(ChainInput(r.project, r.branch, id, pairs, r.number, details, s.snapshotHash,
                                           s.historyHash, s.root))
  }

  /** A working revision with a merge recorded in it: the merged head, and the merged revision as its second parent. */
  function WithMerge(r: Revision, h: Head, right: Uuid): Revision {
    r.(generation := h.generation, events := h.events, groups := h.groups, parents := r.parents + [right])
  }

  /** The next working revision of the branch: blank, one number up, on the sealed one. */
  ghost predicate Succeeds(id: Uuid, sealed: Revision, next: Revision) {
    next == Revision(sealed.project, sealed.branch, sealed.number + 1, sealed.objectMode, Working, 0, [id], [], [],
                     None, None)
  }

  /** The sealed revision and its successor are all that a seal puts among the revisions. */
  ghost predicate Published(x: Hashing, revisions: Revisions, id: Uuid, r: Revision, details: Bytes, next: Uuid,
                            after: Revisions) {
    && id in after && next in after && after.Keys == revisions.Keys + {next}
    && SealSpelled(x, revisions, id, r, details, after[id]) && Succeeds(id, after[id], after[next])
    && forall other | other in revisions && other != id :: after[other] == revisions[other]
  }

  /** A seal over a recorded merge, seen from the revisions before the merge was recorded. */
  lemma PublishedBefore(x: Hashing, revisions: Revisions, id: Uuid, r: Revision, details: Bytes, next: Uuid,
                        after: Revisions)
    requires id in revisions && r.state == Working
    requires Published(x, revisions[id := r], id, r, details, next, after)
    ensures Published(x, revisions, id, r, details, next, after)
  {}

  lemma SealSpells(x: Hashing, h: C.Hash, rows: C.Rows, projects: set<Uuid>, branches: Branches, revisions: Revisions,
                   rowsOf: map<Uuid, M.Rows>, order: seq<Uuid>, id: Uuid, seal: Seal, snapshot: Bytes, next: Uuid)
    requires Invariant(x, h, rows, projects, branches, revisions, rowsOf, order)
    requires id in revisions && next !in revisions && SealFits(x, revisions, id, seal, snapshot)
    ensures Published(x, revisions, id, revisions[id], seal.details, next,
                      SealedAs(revisions, id, seal, snapshot, next))
  {
    hide Invariant, Archived;
    var r := revisions[id];
    var pairs := ParentHashes(revisions, r.parents);
    forall i | 0 <= i < |pairs|
      ensures pairs[i].0 == r.parents[i] && pairs[i].0 in revisions && revisions[pairs[i].0].state == Finalized
      ensures revisions[pairs[i].0].seal.Some? && pairs[i].1 == revisions[pairs[i].0].seal.value.chainHash
      ensures revisions[pairs[i].0].project == r.project
    {
      ParentSealed(x, h, rows, projects, branches, revisions, rowsOf, order, id, i);
    }
  }

  /** The seal is made of the revision's own history and of its parents' chain hashes. */
  predicate SealFits(x: Hashing, revisions: Revisions, id: Uuid, seal: Seal, snapshot: Bytes)
    requires id in revisions
  {
    var r := revisions[id];
    && snapshot == x.manifest(r.events, r.groups) && seal.snapshotHash == x.sha(snapshot)
    && seal.historyHash == x.history(id)
    && seal.chainHash == x.chain(ChainInputOf(revisions, id, r, seal))
  }

  lemma EmptyTabled()
    ensures AllTabled(map[])
  {}

  lemma HeadsOkOf(x: Hashing, h: C.Hash, rows: C.Rows, projects: set<Uuid>, branches: Branches, revisions: Revisions,
                  rowsOf: map<Uuid, M.Rows>, order: seq<Uuid>)
    requires Invariant(x, h, rows, projects, branches, revisions, rowsOf, order)
    ensures HeadsOk(projects, branches, revisions)
  {}

  lemma FinalizedKept(revisions: Revisions, revisions': Revisions, id: Uuid)
    requires id in revisions && revisions[id].state == Working && revisions'.Keys == revisions.Keys
    requires forall r | r in revisions && r != id :: revisions'[r] == revisions[r]
    ensures forall r | r in revisions && revisions[r].state == Finalized :: r in revisions'
              && revisions'[r] == revisions[r]
  {}

  /** The branch's head holds objects and is at this generation. */
  predicate Sealable(branches: Branches, revisions: Revisions, b: Uuid, generation: int) {
    && b in branches && branches[b].head in revisions
    && revisions[branches[b].head].generation == generation && revisions[branches[b].head].objectMode
  }

  /** A digest collision keeps the branch's head from being sealed on its first parent. */
  ghost predicate HeadBlocked(h: C.Hash, rows: C.Rows, branches: Branches, revisions: Revisions, rowsOf: map<Uuid,
                              M.Rows>, b: Uuid)
    requires b in branches && branches[b].head in revisions
  {
    var id := branches[b].head;
    SealBlocked(h, rows, if revisions[id].parents == [] then None else Some(ParentRows(revisions, rowsOf, id)),
                HeadOf(branches, revisions, b))
  }

  /** A working head with one parent, at the expected generation, and a finalized revision of another branch of its
      project. */
  predicate MergeTarget(revisions: Revisions, branch: Uuid, id: Uuid, generation: int, right: Uuid) {
    && id in revisions && revisions[id].state == Working && revisions[id].generation == generation
    && |revisions[id].parents| == 1
    && right in revisions && revisions[right].state == Finalized && revisions[right].project == revisions[id].project
    && revisions[right].branch != branch && right != revisions[id].parents[0]
  }

  /** Recording a merge changes neither the root to seal on nor the head to seal. */
  lemma MergeInherits(hash: C.Hash, rows: C.Rows, branches: Branches, revisions: Revisions, rowsOf: map<Uuid, M.Rows>,
                      branches': Branches, revisions': Revisions, b: Uuid, right: Uuid, h: Head)
    requires b in branches && branches[b].head in revisions && |revisions[branches[b].head].parents| == 1
    requires right in revisions && right != branches[b].head && branches[b].head !in revisions[branches[b].head].parents
    requires branches' == branches[b := branches[b].(rows := h.rows)]
    requires revisions' == revisions[branches[b].head := WithMerge(revisions[branches[b].head], h, right)]
    ensures branches'[b].head == branches[b].head && branches[b].head in revisions' && branches'[b].rows == h.rows
    ensures revisions'[branches[b].head].generation == h.generation
    ensures revisions[branches[b].head].objectMode ==> Sealable(branches', revisions', b, h.generation)
    ensures HeadBlocked(hash, rows, branches', revisions', rowsOf, b) <==>
            SealBlocked(hash, rows, Some(ParentRows(revisions, rowsOf, branches[b].head)), h)
  {
    hide SealBlocked;
    assert HeadOf(branches', revisions', b) == h;
    assert ParentRows(revisions', rowsOf, branches[b].head) == ParentRows(revisions, rowsOf, branches[b].head);
  }

  /** Sealed revisions hold objects, and so do working ones with a parent. */
  lemma HoldsObjects(x: Hashing, h: C.Hash, rows: C.Rows, projects: set<Uuid>, branches: Branches, revisions: Revisions,
                     rowsOf: map<Uuid, M.Rows>, order: seq<Uuid>, id: Uuid)
    requires Invariant(x, h, rows, projects, branches, revisions, rowsOf, order) && id in revisions
    ensures revisions[id].state == Finalized || revisions[id].parents != [] ==> revisions[id].objectMode
  {
    hide HeadsOk, NumbersOk, ParentsOk, OrderOk, SealsOk, HeadsSound, RowsOk, NamesOk;
    ModeOf(revisions, id);
  }

  /** A branch's head is in object mode exactly from its first parent or its first event on; before that it is empty. */
  lemma BlankHead(x: Hashing, h: C.Hash, rows: C.Rows, projects: set<Uuid>, branches: Branches, revisions: Revisions,
                  rowsOf: map<Uuid, M.Rows>, order: seq<Uuid>, b: Uuid)
    requires Invariant(x, h, rows, projects, branches, revisions, rowsOf, order) && b in branches
               && branches[b].head in revisions
    ensures var r := revisions[branches[b].head];
      && (r.objectMode <==> r.parents != [] || r.events != [])
      && (!r.objectMode ==> branches[b].rows == map[] && r.generation == 0 && forall g :: !Sealable(branches, revisions,
                                                                                                  b, g))
  {
    hide HeadsOk, NumbersOk, ParentsOk, OrderOk, SealsOk, RowsOk, NamesOk, Grouped, Undoable;
    ModeOf(revisions, branches[b].head);
    HeadFacts(x, h, rows, projects, branches, revisions, rowsOf, order, b);
  }

  /** The head of a new project cannot be sealed at any generation; once something is journaled, it can. */
  lemma NewProjectUnsealable(branches: Branches, revisions: Revisions, project: Uuid, b: Uuid, r: Uuid, head: Head)
    ensures var branches' := branches[b := Branch(project, MAIN, r, map[])];
      var revisions' := revisions[r := Started(project, b, [], 1, false)];
      && (forall g :: !Sealable(branches', revisions', b, g))
      && (Sealable(branches', Edited(revisions', r, head), b, head.generation) <==> head.events != [])
  {}

  lemma FreshProject(x: Hashing, h: C.Hash, rows: C.Rows, projects: set<Uuid>, branches: Branches, revisions: Revisions,
                     rowsOf: map<Uuid, M.Rows>, order: seq<Uuid>, project: Uuid)
    requires Invariant(x, h, rows, projects, branches, revisions, rowsOf, order) && project !in projects
    ensures !NameTaken(branches, project, MAIN)
  {
    hide NumbersOk, ParentsOk, OrderOk, SealsOk, HeadsSound, RowsOk, NamesOk;
  }

  lemma HeadParents(x: Hashing, h: C.Hash, rows: C.Rows, projects: set<Uuid>, branches: Branches, revisions: Revisions,
                    rowsOf: map<Uuid, M.Rows>, order: seq<Uuid>, b: Uuid)
    requires Invariant(x, h, rows, projects, branches, revisions, rowsOf, order) && b in branches
               && branches[b].head in revisions
    ensures branches[b].head !in revisions[branches[b].head].parents
  {
    hide NumbersOk, OrderOk, SealsOk, RowsOk, HeadsSound;
    ParentsOf(revisions, branches[b].head);
  }

  lemma HeadFacts(x: Hashing, h: C.Hash, rows: C.Rows, projects: set<Uuid>, branches: Branches, revisions: Revisions,
                  rowsOf: map<Uuid, M.Rows>, order: seq<Uuid>, b: Uuid)
    requires Invariant(x, h, rows, projects, branches, revisions, rowsOf, order) && b in branches
    ensures var id := branches[b].head;
      && id in revisions && revisions[id].state == Working && revisions[id].branch == b
      && revisions[id].project == branches[b].project
      && Sound(ParentRows(revisions, rowsOf, id), HeadOf(branches, revisions, b))
      && Journaled(ParentRows(revisions, rowsOf, id), HeadOf(branches, revisions, b))
  {
    hide NumbersOk, ParentsOk, OrderOk, SealsOk, RowsOk, Journaled, Grouped, Undoable;
  }

  lemma SealedFacts(x: Hashing, h: C.Hash, rows: C.Rows, projects: set<Uuid>, branches: Branches, revisions: Revisions,
                    rowsOf: map<Uuid, M.Rows>, order: seq<Uuid>, id: Uuid)
    requires Invariant(x, h, rows, projects, branches, revisions, rowsOf, order) && id in revisions
               && revisions[id].state == Finalized
    ensures id in rowsOf && AllTabled(rowsOf[id]) && revisions[id].project in projects && revisions[id].seal.Some?
    ensures var r := revisions[id];
      && |r.seal.value.root| == 32 && |r.seal.value.chainHash| == 32 && Archived(h, rows, r.seal.value.root, rowsOf[id])
      && r.snapshot == Some(x.manifest(r.events, r.groups))
      && r.seal.value.snapshotHash == x.sha(x.manifest(r.events, r.groups))
      && r.seal.value.historyHash == x.history(id)
      && r.seal.value.chainHash == x.chain(ChainInputOf(revisions, id, r, r.seal.value))
      && Sound(ParentRows(revisions, rowsOf, id), Head(rowsOf[id], r.generation, r.events, r.groups))
  {
    hide NumbersOk, ParentsOk, OrderOk, HeadsSound, Archived, Sound, AllTabled;
    assert Intact(x, h, rows, revisions, rowsOf, id);
  }

  lemma ParentSealed(x: Hashing, h: C.Hash, rows: C.Rows, projects: set<Uuid>, branches: Branches, revisions: Revisions,
                     rowsOf: map<Uuid, M.Rows>, order: seq<Uuid>, id: Uuid, i: nat)
    requires Invariant(x, h, rows, projects, branches, revisions, rowsOf, order) && id in revisions
               && i < |revisions[id].parents|
    ensures var p := revisions[id].parents[i];
      && p in revisions && revisions[p].state == Finalized && revisions[p].project == revisions[id].project
      && p in rowsOf
      && revisions[p].seal.Some? && |revisions[p].seal.value.chainHash| == 32 && |revisions[p].seal.value.root| == 32
      && Archived(h, rows, revisions[p].seal.value.root, rowsOf[p]) && AllTabled(rowsOf[p])
  {
    hide NumbersOk, OrderOk, HeadsSound, Archived, Sound, SealsOk, HeadsOk, RowsOk, AllTabled;
    var p := revisions[id].parents[i];
    assert p in revisions[id].parents;
    SealedFacts(x, h, rows, projects, branches, revisions, rowsOf, order, p);
  }

  lemma ParentFacts(x: Hashing, h: C.Hash, rows: C.Rows, projects: set<Uuid>, branches: Branches, revisions: Revisions,
                    rowsOf: map<Uuid, M.Rows>, order: seq<Uuid>, b: Uuid)
    requires Invariant(x, h, rows, projects, branches, revisions, rowsOf, order) && b in branches
               && branches[b].head in revisions
    requires revisions[branches[b].head].parents != []
    ensures var p := revisions[branches[b].head].parents[0];
      && p in revisions && revisions[p].seal.Some? && |revisions[p].seal.value.root| == 32
      && Archived(h, rows, revisions[p].seal.value.root, ParentRows(revisions, rowsOf, branches[b].head))
  {
    hide Invariant, Archived;
    ParentSealed(x, h, rows, projects, branches, revisions, rowsOf, order, branches[b].head, 0);
  }

  /** The first parent of a sealed revision, or its absence, is the snapshot its journal starts from. */
  lemma FirstParent(x: Hashing, h: C.Hash, rows: C.Rows, projects: set<Uuid>, branches: Branches, revisions: Revisions,
                    rowsOf: map<Uuid, M.Rows>, order: seq<Uuid>, id: Uuid)
    requires Invariant(x, h, rows, projects, branches, revisions, rowsOf, order) && id in revisions
               && revisions[id].state == Finalized
    requires id in rowsOf && AllTabled(rowsOf[id]) && revisions[id].seal.Some? && |revisions[id].seal.value.root| == 32
    requires Archived(h, rows, revisions[id].seal.value.root, rowsOf[id])
    requires Sound(ParentRows(revisions, rowsOf, id),
                   Head(rowsOf[id], revisions[id].generation, revisions[id].events, revisions[id].groups))
    ensures var r := revisions[id];
      && (r.parents != [] ==> r.parents[0] in revisions && revisions[r.parents[0]].seal.Some? && r.parents[0] in rowsOf
                              && revisions[r.parents[0]].state == Finalized
                              && revisions[r.parents[0]].project == r.project
                              && ParentRows(revisions, rowsOf, id) == rowsOf[r.parents[0]])
      && (r.parents == [] ==> LegalKinds(ParentRows(revisions, rowsOf, id)))
      && JournalReplay.Snapshot(h, rows, if r.parents == [] then [] else revisions[r.parents[0]].seal.value.root,
                                ParentRows(revisions, rowsOf, id))
      && JournalReplay.Snapshot(h, rows, r.seal.value.root, rowsOf[id])
      && JournalReplay.Ascending(r.events) && JournalReplay.InRange(r.events)
      && Replay(ParentRows(revisions, rowsOf, id), r.events) == Some(rowsOf[id])
  {
    hide Invariant, Archived, Sound, AllTabled, Replay, JournalReplay.Ascending, JournalReplay.InRange;
    JournalReplay.SealedJournalAccepted(ParentRows(revisions, rowsOf, id),
                                        Head(rowsOf[id], revisions[id].generation, revisions[id].events,
                                             revisions[id].groups));
    EmptyTabled();
    if revisions[id].parents != [] {
      ParentSealed(x, h, rows, projects, branches, revisions, rowsOf, order, id, 0);
    }
  }

  lemma InvariantStays(x: Hashing, h: C.Hash, before: C.Rows, after: C.Rows, projects: set<Uuid>, branches: Branches,
                       revisions: Revisions,
                       rowsOf: map<Uuid, M.Rows>, order: seq<Uuid>)
    requires Invariant(x, h, before, projects, branches, revisions, rowsOf, order) && C.Extends(before, after)
    ensures Invariant(x, h, after, projects, branches, revisions, rowsOf, order)
  {
    hide HeadsOk, NumbersOk, ParentsOk, OrderOk, SealsOk, HeadsSound, RowsOk;
    SealsStay(x, h, before, after, revisions, rowsOf);
  }

  lemma ArchivedRoot(h: C.Hash, rows: C.Rows, root: Bytes, objects: M.Rows)
    requires Archived(h, rows, root, objects)
    ensures |root| == 32
  {
    hide Kept, Seals;
    JournalReplay.RootSize(h, rows, root, objects);
  }

  /** No branch has two working revisions: what the tables insist on at every step. */
  ghost predicate OneWorking(revisions: Revisions) {
    forall r, s | r in revisions && s in revisions && revisions[r].state == Working && revisions[s].state == Working
                  && revisions[r].branch == revisions[s].branch :: r == s
  }

  /** The revisions after each step of a seal: mark, insert the successor, finalize, link. */
  function SealSteps(revisions: Revisions, id: Uuid, seal: Seal, snapshot: Bytes, next: Uuid): (steps: seq<Revisions>)
    requires id in revisions && next !in revisions
    ensures |steps| == 4
  {
    var working := revisions[id];
    var marked := revisions[id := working.(state := Sealing)];
    var inserted := marked[next := Started(working.project, working.branch, [], working.number + 1,
                                           working.objectMode)];
    var finalized := inserted[id := working.(state := Finalized, seal := Some(seal), snapshot := Some(snapshot))];
    [marked, inserted, finalized, finalized[next := finalized[next].(parents := [id])]]
  }

  /** The steps end in the published records, and never give a branch two working revisions; in between the branch has
      none. */
  lemma NeverTwoHeads(projects: set<Uuid>, branches: Branches, revisions: Revisions, b: Uuid, seal: Seal,
                      snapshot: Bytes, next: Uuid)
    requires HeadsOk(projects, branches, revisions) && b in branches && next !in revisions
    ensures var id := branches[b].head; var steps := SealSteps(revisions, id, seal, snapshot, next);
      && steps[3] == SealedAs(revisions, id, seal, snapshot, next)
      && (forall k | 0 <= k < 4 :: OneWorking(steps[k]))
      && forall r | r in steps[0] && steps[0][r].branch == b :: steps[0][r].state != Working
  {
    var id := branches[b].head;
    var steps: seq<Revisions> := SealSteps(revisions, id, seal, snapshot, next);
    assert revisions[id].branch == b;
    forall k | 0 <= k < 4
      ensures OneWorking(steps[k])
    {
      forall r, s | r in steps[k] && s in steps[k] && steps[k][r].state == Working && steps[k][s].state == Working
                    && steps[k][r].branch == steps[k][s].branch
        ensures r == s
      {
        assert r != next ==> r in revisions && revisions[r].state == Working;
        assert s != next ==> s in revisions && revisions[s].state == Working;
      }
    }
  }

  function Edited(revisions: Revisions, id: Uuid, h: Head): Revisions
    requires id in revisions
  {
    revisions[id := revisions[id].(objectMode := revisions[id].objectMode || h.events != [], generation := h.generation,
                                   events := h.events, groups := h.groups)]
  }

  /** Recording an edit of a working head touches nothing that is sealed. */
  lemma EditKeeps(x: Hashing, h: C.Hash, rows: C.Rows, projects: set<Uuid>, branches: Branches, revisions: Revisions,
                  rowsOf: map<Uuid, M.Rows>, order: seq<Uuid>, b: Uuid, head: Head)
    requires Invariant(x, h, rows, projects, branches, revisions, rowsOf, order) && b in branches
               && branches[b].head in revisions
    requires Sound(ParentRows(revisions, rowsOf, branches[b].head), head) && AllTabled(head.rows)
    requires revisions[branches[b].head].events <= head.events
    ensures Invariant(x, h, rows, projects, branches[b := branches[b].(rows := head.rows)],
                      Edited(revisions, branches[b].head, head),
                      rowsOf, order)
  {
    hide SealsOk, HeadsSound, NumbersOk, RowsOk, ParentsOk, OrderOk, HeadsOk, ModesOk, NamesOk, Sound, AllTabled;
    var id := branches[b].head;
    HeadFacts(x, h, rows, projects, branches, revisions, rowsOf, order, b);
    ParentsOf(revisions, id);
    WorkingChanged(x, h, rows, projects, branches, revisions, rowsOf, order, b, Edited(revisions, id, head)[id],
                   head.rows);
    HeadsStaySound(projects, branches, revisions, rowsOf, b, Edited(revisions, id, head)[id], head.rows);
    ModeOf(revisions, id);
    HeadRecorded(branches, revisions, b, Edited(revisions, id, head)[id], head.rows);
  }

  lemma ParentsOf(revisions: Revisions, id: Uuid)
    requires ParentsOk(revisions) && id in revisions
    ensures forall p | p in revisions[id].parents :: p in revisions && revisions[p].state == Finalized
              && revisions[p].project == revisions[id].project
  {}

  lemma RowsChanged(branches: Branches, rowsOf: map<Uuid, M.Rows>, b: Uuid, start: M.Rows)
    requires RowsOk(branches, rowsOf) && b in branches && AllTabled(start)
    ensures RowsOk(branches[b := branches[b].(rows := start)], rowsOf)
  {
    hide AllTabled;
  }

  /** Replacing what a working revision holds keeps everything but the soundness of its own head. */
  lemma WorkingChanged(x: Hashing, h: C.Hash, rows: C.Rows, projects: set<Uuid>, branches: Branches,
                       revisions: Revisions,
                       rowsOf: map<Uuid, M.Rows>, order: seq<Uuid>, b: Uuid, r: Revision, start: M.Rows)
    requires Invariant(x, h, rows, projects, branches, revisions, rowsOf, order) && b in branches
               && branches[b].head in revisions
    requires var o := revisions[branches[b].head];
      && r.project == o.project && r.branch == o.branch && r.number == o.number && r.state == o.state == Working
      && forall p | p in r.parents ::
      p in revisions && revisions[p].state == Finalized
      && revisions[p].project == r.project
    requires AllTabled(start)
    ensures var branches' := branches[b := branches[b].(rows := start)];
      var revisions' := revisions[branches[b].head := r];
      && HeadsOk(projects, branches', revisions') && NumbersOk(branches', revisions') && ParentsOk(revisions')
      && OrderOk(revisions', order)
      && SealsOk(x, h, rows, revisions', rowsOf) && RowsOk(branches', rowsOf)
      && forall s | s in rowsOf :: s in revisions' && revisions'[s].state == Finalized
  {
    hide SealsOk, HeadsSound, AllTabled, HeadsOk, NumbersOk, ParentsOk, OrderOk, RowsOk;
    var id := branches[b].head;
    var revisions' := revisions[id := r];
    RowsChanged(branches, rowsOf, b, start);
    SealsKept(x, h, rows, revisions, revisions', rowsOf, rowsOf);
    NumbersKept(branches, revisions, b, r, start);
    ShapesKept(projects, branches, revisions, order, b, r, start);
  }

  lemma ShapesKept(projects: set<Uuid>, branches: Branches, revisions: Revisions, order: seq<Uuid>, b: Uuid,
                   r: Revision, start: M.Rows)
    requires HeadsOk(projects, branches, revisions) && ParentsOk(revisions) && OrderOk(revisions, order)
    requires b in branches && branches[b].head in revisions
    requires var o := revisions[branches[b].head];
      && r.project == o.project && r.branch == o.branch && r.state == o.state == Working
      && forall p | p in r.parents ::
      p in revisions && revisions[p].state == Finalized
      && revisions[p].project == r.project
    ensures var branches' := branches[b := branches[b].(rows := start)];
      var revisions' := revisions[branches[b].head := r];
      HeadsOk(projects, branches', revisions') && ParentsOk(revisions') && OrderOk(revisions', order)
  {
    hide OrderOk;
    OrderKept(revisions, order, branches[b].head, r);
  }

  lemma OrderKept(revisions: Revisions, order: seq<Uuid>, id: Uuid, r: Revision)
    requires OrderOk(revisions, order) && id in revisions
    requires revisions[id].state == r.state == Working
    ensures OrderOk(revisions[id := r], order)
  {}

  lemma NumbersKept(branches: Branches, revisions: Revisions, b: Uuid, r: Revision, start: M.Rows)
    requires NumbersOk(branches, revisions) && b in branches && branches[b].head in revisions
    requires r.branch == revisions[branches[b].head].branch && r.number == revisions[branches[b].head].number
    ensures NumbersOk(branches[b := branches[b].(rows := start)], revisions[branches[b].head := r])
  {
    hide Numbered;
    var id := branches[b].head;
    var branches' := branches[b := branches[b].(rows := start)];
    var revisions' := revisions[id := r];
    forall c | c in branches' && branches'[c].head in revisions'
      ensures Numbered(revisions', c, revisions'[branches'[c].head].number)
    {
      NumberedElsewhere(revisions, revisions', c, revisions[branches[c].head].number);
    }
  }

  lemma HeadsStaySound(projects: set<Uuid>, branches: Branches, revisions: Revisions, rowsOf: map<Uuid, M.Rows>,
                       b: Uuid, r: Revision, start: M.Rows)
    requires HeadsOk(projects, branches, revisions) && HeadsSound(branches, revisions, rowsOf) && b in branches
    requires branches[b].head in revisions && r.branch == b
    requires Sound(ParentRows(revisions[branches[b].head := r], rowsOf, branches[b].head),
                   Head(start, r.generation, r.events, r.groups))
    ensures HeadsSound(branches[b := branches[b].(rows := start)], revisions[branches[b].head := r], rowsOf)
  {
    hide Sound;
    var id := branches[b].head;
    var branches' := branches[b := branches[b].(rows := start)];
    var revisions' := revisions[id := r];
    forall c | c in branches' && branches'[c].head in revisions'
      ensures Sound(ParentRows(revisions', rowsOf, branches'[c].head), HeadOf(branches', revisions', c))
    {
      if c != b { assert branches[c].head != id; }
    }
  }

  /** Adding a finalized second parent to a working revision keeps the invariant. */
  lemma SecondParent(x: Hashing, h: C.Hash, rows: C.Rows, projects: set<Uuid>, branches: Branches, revisions: Revisions,
                     rowsOf: map<Uuid, M.Rows>, order: seq<Uuid>, b: Uuid, right: Uuid)
    requires Invariant(x, h, rows, projects, branches, revisions, rowsOf, order) && b in branches
               && branches[b].head in revisions
    requires |revisions[branches[b].head].parents| == 1 && right in revisions && revisions[right].state == Finalized
    requires revisions[right].project == revisions[branches[b].head].project
    ensures var id := branches[b].head;
      Invariant(x, h, rows, projects, branches,
                revisions[id := revisions[id].(parents := revisions[id].parents + [right])], rowsOf, order)
  {
    hide SealsOk, HeadsSound, NumbersOk, RowsOk, OrderOk, HeadsOk, ModesOk, NamesOk, Sound, AllTabled;
    var id := branches[b].head;
    HeadFacts(x, h, rows, projects, branches, revisions, rowsOf, order, b);
    var r := revisions[id].(parents := revisions[id].parents + [right]);
    ParentsOf(revisions, id);
    TabledBranch(branches, rowsOf, b);
    WorkingChanged(x, h, rows, projects, branches, revisions, rowsOf, order, b, r, branches[b].rows);
    HeadsStaySound(projects, branches, revisions, rowsOf, b, r, branches[b].rows);
    ModeOf(revisions, id);
    HeadRecorded(branches, revisions, b, r, branches[b].rows);
    assert branches[b := branches[b].(rows := branches[b].rows)] == branches;
  }

  /** A working revision that goes into object mode with its first event, or was in it, keeps names and modes right. */
  lemma HeadRecorded(branches: Branches, revisions: Revisions, b: Uuid, r: Revision, start: M.Rows)
    requires ModesOk(revisions) && NamesOk(branches) && b in branches && branches[b].head in revisions
    requires r.state == Working && (r.objectMode <==> r.parents != [] || r.events != [])
    ensures ModesOk(revisions[branches[b].head := r]) && NamesOk(branches[b := branches[b].(rows := start)])
  {}

  lemma ModeOf(revisions: Revisions, id: Uuid)
    requires ModesOk(revisions) && id in revisions
    ensures revisions[id].objectMode <==> revisions[id].parents != [] || revisions[id].events != []
    ensures revisions[id].state == Finalized ==> revisions[id].objectMode
  {}

  lemma TabledBranch(branches: Branches, rowsOf: map<Uuid, M.Rows>, b: Uuid)
    requires RowsOk(branches, rowsOf) && b in branches
    ensures AllTabled(branches[b].rows)
  {
    hide AllTabled;
  }

  // ------------------------------------------------------------------------- ancestry

  function GraphOf(revisions: Revisions): RevisionAncestry.Graph {
    map r | r in revisions :: RevisionAncestry.Revision(revisions[r].project, revisions[r].state == Finalized,
                                                        revisions[r].parents)
  }

  /** The revision graph of every reachable repository is acyclic and its histories are sound: merge bases always exist.
      */
  lemma HistoriesSound(x: Hashing, h: C.Hash, rows: C.Rows, projects: set<Uuid>, branches: Branches,
                       revisions: Revisions,
                       rowsOf: map<Uuid, M.Rows>, order: seq<Uuid>)
    requires Invariant(x, h, rows, projects, branches, revisions, rowsOf, order)
    ensures RevisionAncestry.Acyclic(GraphOf(revisions))
    ensures forall start, id | start in revisions && RevisionAncestry.Reaches(GraphOf(revisions), start, id) ::
              RevisionAncestry.Sound(GraphOf(revisions), start, revisions[start].project, id)
  {
    hide HeadsOk, NumbersOk, SealsOk, HeadsSound, RowsOk;
    var g := GraphOf(revisions);
    forall id
      ensures !RevisionAncestry.Above(g, id, id)
    {
      if RevisionAncestry.Above(g, id, id) {
        var path :| RevisionAncestry.Joins(g, path, id, id) && |path| >= 2;
        assert RevisionAncestry.Edge(g, path[0], path[1]);
        PathInside(revisions, path);
        NoCycle(revisions, order, path);
      }
    }
    forall start, id | start in revisions && RevisionAncestry.Reaches(g, start, id)
      ensures RevisionAncestry.Sound(g, start, revisions[start].project, id)
    {
      var path :| RevisionAncestry.Joins(g, path, start, id);
      PathInside(revisions, path);
      PathSound(revisions, order, path);
    }
  }

  lemma {:induction false} PathInside(revisions: Revisions, path: seq<Uuid>)
    requires ParentsOk(revisions) && RevisionAncestry.IsPath(GraphOf(revisions), path) && path[0] in revisions
    ensures ParentEdges(revisions, path)
  {
    forall i | 0 <= i < |path|
      ensures path[i] in revisions
    {
      if i > 0 { assert RevisionAncestry.Edge(GraphOf(revisions), path[i - 1], path[i]); }
    }
    forall i | 0 <= i < |path| - 1
      ensures path[i + 1] in revisions[path[i]].parents
    {
      assert RevisionAncestry.Edge(GraphOf(revisions), path[i], path[i + 1]);
    }
  }

  lemma NotOwnParent(revisions: Revisions, order: seq<Uuid>, id: Uuid)
    requires ParentsOk(revisions) && OrderOk(revisions, order) && id in revisions
    ensures id !in revisions[id].parents
  {
    hide ParentsOk, OrderOk;
    if id in revisions[id].parents {
      var path := [id, id];
      assert path[1] in revisions[path[0]].parents;
      NoCycle(revisions, order, path);
    }
  }

  lemma {:induction false} PathSound(revisions: Revisions, order: seq<Uuid>, path: seq<Uuid>)
    requires ParentsOk(revisions) && OrderOk(revisions, order) && ParentEdges(revisions, path)
    ensures RevisionAncestry.Sound(GraphOf(revisions), path[0], revisions[path[0]].project, path[|path| - 1])
    decreases |path|
  {
    hide OrderOk;
    var last := |path| - 1;
    NotOwnParent(revisions, order, path[last]);
    if last > 0 {
      var front := path[..last];
      assert ParentEdges(revisions, front);
      PathSound(revisions, order, front);
      assert path[last] in revisions[path[last - 1]].parents;
    }
  }
}
