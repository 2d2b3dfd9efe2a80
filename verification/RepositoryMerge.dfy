/** A merge of two finalized histories, from the choice of the base to the sealed two-parent revision. */
module RepositoryMerge {
  import opened Prelude
  import opened Uuid
  import opened Journal
  import opened RevisionSeal
  import opened RevisionLifecycle
  import opened RepositoryModel
  import opened MergeRevision
  import opened MergeCommit
  import opened MergeOutcome
  import opened FieldMerge
  import opened WorkingObjects
  import C = ContentStore
  import M = ModelRecord
  import MergeCursor
  import MergePreview
  import RevisionAncestry
  import ThreeWayMerge
  import opened UndoHistory

  /** The one merge base there is. */
  ghost predicate OnlyBase(revisions: Revisions, left: Uuid, right: Uuid, base: Uuid) {
    forall id :: RevisionAncestry.IsMergeBase(GraphOf(revisions), left, right, id) <==> id == base
  }

  /** Neither revision descends from the other. */
  ghost predicate Diverged(revisions: Revisions, left: Uuid, right: Uuid) {
    !RevisionAncestry.Reaches(GraphOf(revisions), left, right)
      && !RevisionAncestry.Reaches(GraphOf(revisions), right, left)
  }

  // ------------------------------------------------------------------- identifiers

  ghost predicate AllNamed(objects: M.Rows) {
    forall u | u in objects :: !IsNull(u)
  }

  /** The objects of the first sealed revisions all have proper identifiers. */
  lemma {:induction false} SealedNamed(x: Hashing, h: C.Hash, rows: C.Rows, projects: set<Uuid>, branches: Branches,
                                       revisions: Revisions,
                                       rowsOf: map<Uuid, M.Rows>, order: seq<Uuid>, n: nat)
    requires Invariant(x, h, rows, projects, branches, revisions, rowsOf, order) && n <= |order|
    ensures forall i | 0 <= i < n :: order[i] in rowsOf && AllNamed(rowsOf[order[i]])
  {
    hide Invariant, AllNamed, Archived, Sound, AllTabled, IsNull;
    if n > 0 {
      SealedNamed(x, h, rows, projects, branches, revisions, rowsOf, order, n - 1);
      var id := order[n - 1];
      OrderFacts(x, h, rows, projects, branches, revisions, rowsOf, order, n - 1);
      SealedFacts(x, h, rows, projects, branches, revisions, rowsOf, order, id);
      var r := revisions[id];
      var start, head := ParentRows(revisions, rowsOf, id), Head(rowsOf[id], r.generation, r.events, r.groups);
      SoundJournal(start, head);
      assert AllNamed(start) by {
        if r.parents != [] && r.parents[0] in rowsOf {
          assert r.parents[0] in order[..n - 1];
        } else {
          NothingNamed();
        }
      }
      NamedOn(start, head);
    }
  }

  lemma NothingNamed()
    ensures AllNamed(map[])
  {}

  lemma SoundJournal(start: M.Rows, head: Head)
    requires Sound(start, head)
    ensures Journaled(start, head)
  {
    hide Journaled;
  }

  lemma NamedOn(start: M.Rows, head: Head)
    requires Journaled(start, head) && AllNamed(start)
    ensures AllNamed(head.rows) && MergeCursor.NamedIds(head.rows)
  {
    hide Journaled, IsNull;
    StillNamed(start, head);
  }

  lemma OrderFacts(x: Hashing, h: C.Hash, rows: C.Rows, projects: set<Uuid>, branches: Branches, revisions: Revisions,
                   rowsOf: map<Uuid, M.Rows>, order: seq<Uuid>, i: nat)
    requires Invariant(x, h, rows, projects, branches, revisions, rowsOf, order) && i < |order|
    ensures order[i] in revisions && revisions[order[i]].state == Finalized
    ensures forall p | p in revisions[order[i]].parents :: p in order[..i]
  {
    hide HeadsOk, NumbersOk, ParentsOk, SealsOk, HeadsSound, RowsOk;
    assert order[i] in order;
  }

  /** A sealed revision's root holds its objects. */
  lemma SealedHolds(x: Hashing, h: C.Hash, rows: C.Rows, projects: set<Uuid>, branches: Branches, revisions: Revisions,
                    rowsOf: map<Uuid, M.Rows>, order: seq<Uuid>, id: Uuid)
    requires Invariant(x, h, rows, projects, branches, revisions, rowsOf, order)
    requires id in revisions && revisions[id].state == Finalized && id in rowsOf
    ensures revisions[id].seal.Some?
    ensures MergeCursor.Holds(h, rows, revisions[id].seal.value.root, rowsOf[id]) && AllNamed(rowsOf[id])
  {
    hide Invariant, Archived, Sound, AllTabled, IsNull;
    SealedFacts(x, h, rows, projects, branches, revisions, rowsOf, order, id);
    SealedNamed(x, h, rows, projects, branches, revisions, rowsOf, order, |order|);
    SealedListed(x, h, rows, projects, branches, revisions, rowsOf, order, id);
  }

  lemma SealedListed(x: Hashing, h: C.Hash, rows: C.Rows, projects: set<Uuid>, branches: Branches, revisions: Revisions,
                     rowsOf: map<Uuid, M.Rows>, order: seq<Uuid>, id: Uuid)
    requires Invariant(x, h, rows, projects, branches, revisions, rowsOf, order) && id in revisions
               && revisions[id].state == Finalized
    ensures id in order
  {
    hide HeadsOk, NumbersOk, ParentsOk, SealsOk, HeadsSound, RowsOk;
  }

  /** The working head of a branch is a sound continuation with proper identifiers. */
  lemma HeadNamed(x: Hashing, h: C.Hash, rows: C.Rows, projects: set<Uuid>, branches: Branches, revisions: Revisions,
                  rowsOf: map<Uuid, M.Rows>, order: seq<Uuid>, b: Uuid)
    requires Invariant(x, h, rows, projects, branches, revisions, rowsOf, order) && b in branches
               && branches[b].head in revisions
    ensures MergeCursor.NamedIds(branches[b].rows)
  {
    hide Invariant, AllNamed, Sound, IsNull;
    HeadFacts(x, h, rows, projects, branches, revisions, rowsOf, order, b);
    var id := branches[b].head;
    var start := ParentRows(revisions, rowsOf, id);
    assert AllNamed(start) by {
      NothingNamed();
      if revisions[id].parents != [] && revisions[id].parents[0] in rowsOf {
        ParentSealed(x, h, rows, projects, branches, revisions, rowsOf, order, id, 0);
        SealedNamed(x, h, rows, projects, branches, revisions, rowsOf, order, |order|);
        SealedListed(x, h, rows, projects, branches, revisions, rowsOf, order, revisions[id].parents[0]);
      }
    }
    NamedOn(start, HeadOf(branches, revisions, b));
  }

  // ----------------------------------------------------------------- choosing the base

  /** The merge base, if the histories have exactly one and neither side contains the other's finalized tip. */
  method ChooseBase(repo: Repository, working: Uuid, right: Uuid) returns (base: Option<Uuid>)
    requires repo.Valid() && working in repo.revisions && right in repo.revisions
               && repo.revisions[working].parents != []
    requires repo.revisions[right].project == repo.revisions[working].project
    ensures base.Some? <==> (exists b :: OnlyBase(repo.revisions, working, right, b))
                            && Diverged(repo.revisions, repo.revisions[working].parents[0], right)
    ensures base.Some? ==> OnlyBase(repo.revisions, working, right, base.value)
                           && base.value in repo.revisions && repo.revisions[base.value].state == Finalized
  {
    hide Invariant, RevisionAncestry.Reaches, RevisionAncestry.IsMergeBase, RevisionAncestry.Sound;
    var g, left := GraphOf(repo.revisions), repo.revisions[working].parents[0];
    HistoriesSound(repo.x, repo.db.hash, repo.db.rows, repo.projects, repo.branches, repo.revisions, repo.rowsOf,
                   repo.order);
    ParentSealed(repo.x, repo.db.hash, repo.db.rows, repo.projects, repo.branches, repo.revisions, repo.rowsOf,
                 repo.order, working, 0);
    assert g[working].project == g[right].project == g[left].project;
    var ancestry := RevisionAncestry.CompareRevisions(g, working, right);
    if ancestry.None? {
      assert false;
      return None;
    }
    var bases := ancestry.value.bases;
    if |bases| != 1 {
      NotOnly(repo.revisions, working, right, bases);
      return None;
    }
    OneListed(repo.revisions, working, right, bases);
    RevisionAncestry.BaseFinalized(g, working, right, bases[0]);
    var tips := RevisionAncestry.CompareRevisions(g, left, right);
    if tips.None? {
      assert false;
      return None;
    }
    if tips.value.leftIsAncestorOfRight || tips.value.rightIsAncestorOfLeft {
      return None;
    }
    base := Some(bases[0]);
  }

  lemma OneListed(revisions: Revisions, left: Uuid, right: Uuid, bases: seq<Uuid>)
    requires forall id: Uuid :: id in bases <==> RevisionAncestry.IsMergeBase(GraphOf(revisions), left, right, id)
    requires |bases| == 1
    ensures OnlyBase(revisions, left, right, bases[0])
  {
    hide RevisionAncestry.IsMergeBase;
  }

  /** Distinct bases, or none: then there is not exactly one. */
  lemma NotOnly(revisions: Revisions, left: Uuid, right: Uuid, bases: seq<Uuid>)
    requires forall id: Uuid :: id in bases <==> RevisionAncestry.IsMergeBase(GraphOf(revisions), left, right, id)
    requires |bases| != 1 && forall i, j | 0 <= i < j < |bases| :: Less(bases[i], bases[j])
    ensures forall b: Uuid :: !OnlyBase(revisions, left, right, b)
  {
    hide RevisionAncestry.IsMergeBase, Less;
    forall b: Uuid
      ensures !OnlyBase(revisions, left, right, b)
    {
      if OnlyBase(revisions, left, right, b) {
        assert b in bases;
        assert bases[0] in bases && bases[1] in bases;
        LessIrreflexive(b);
      }
    }
  }

  // -------------------------------------------------------------------------- the merge

  /** The demands on a merge besides its contents: target, one base, diverged tips. */
  ghost predicate Possible(branches: Branches, revisions: Revisions, branch: Uuid, working: Uuid, generation: int,
                           right: Uuid) {
    && branch in branches && branches[branch].head == working
    && MergeTarget(revisions, branch, working, generation, right)
    && (exists base :: OnlyBase(revisions, working, right, base))
    && Diverged(revisions, revisions[working].parents[0], right)
  }

  /** A preview of the merge of two sealed revisions' and the branch's objects. */
  ghost predicate Previewed(codec: Codec, branches: Branches, revisions: Revisions, rowsOf: map<Uuid, M.Rows>,
                            branch: Uuid, working: Uuid,
                            right: Uuid, p: ThreeWayMerge.Progress)
    requires AllLawful(codec)
  {
    && branch in branches && right in rowsOf
    && exists base :: OnlyBase(revisions, working, right, base) && base in rowsOf
                      && MergePreview.IsPreview(codec, rowsOf[base], branches[branch].rows, rowsOf[right], Unlimited(),
                                                p)
  }

  /** Both sealed revisions of a merge can be read back. */
  predicate Legible(rowsOf: map<Uuid, M.Rows>, base: Uuid, right: Uuid) {
    base in rowsOf && right in rowsOf && LegalKinds(rowsOf[base]) && LegalKinds(rowsOf[right])
  }

  /** The base and the other revision can be read back; no other sealed revision is read. */
  ghost predicate LegibleMerge(revisions: Revisions, rowsOf: map<Uuid, M.Rows>, working: Uuid, right: Uuid) {
    exists base :: OnlyBase(revisions, working, right, base) && Legible(rowsOf, base, right)
  }

  /** What a merge needs to know of the repository it works on. */
  lemma MergeReady(x: Hashing, h: C.Hash, rows: C.Rows, projects: set<Uuid>, branches: Branches, revisions: Revisions,
                   rowsOf: map<Uuid, M.Rows>, order: seq<Uuid>, b: Uuid, base: Uuid, right: Uuid)
    requires Invariant(x, h, rows, projects, branches, revisions, rowsOf, order) && b in branches
               && branches[b].head in revisions
    requires base in revisions && revisions[base].state == Finalized && right in revisions
               && revisions[right].state == Finalized
    ensures base in rowsOf && right in rowsOf && revisions[base].seal.Some? && revisions[right].seal.Some?
    ensures MergeCursor.Holds(h, rows, revisions[base].seal.value.root, rowsOf[base])
    ensures MergeCursor.Holds(h, rows, revisions[right].seal.value.root, rowsOf[right])
    ensures MergeCursor.NamedIds(branches[b].rows)
    ensures Sound(ParentRows(revisions, rowsOf, branches[b].head), HeadOf(branches, revisions, b))
  {
    hide Invariant, Sound, MergeCursor.Holds, MergeCursor.NamedIds, AllTabled, Archived;
    SealedFacts(x, h, rows, projects, branches, revisions, rowsOf, order, base);
    SealedFacts(x, h, rows, projects, branches, revisions, rowsOf, order, right);
    SealedHolds(x, h, rows, projects, branches, revisions, rowsOf, order, base);
    SealedHolds(x, h, rows, projects, branches, revisions, rowsOf, order, right);
    HeadNamed(x, h, rows, projects, branches, revisions, rowsOf, order, b);
    HeadFacts(x, h, rows, projects, branches, revisions, rowsOf, order, b);
  }

  /** Loads the branch's head and merges the other revision into it; nothing is stored yet. */
  method MergedWorkingHead(repo: Repository, branch: Uuid, base: Uuid, right: Uuid, codec: Codec, actor: Uuid,
                           generation: int,
                           resolutions: seq<Resolution>, validate: Validator)
    returns (merged: Option<Head>, ghost p: ThreeWayMerge.Progress)
    requires repo.Valid() && AllLawful(codec) && branch in repo.branches && repo.branches[branch].head in repo.revisions
    requires base in repo.revisions && repo.revisions[base].state == Finalized
    requires right in repo.revisions && repo.revisions[right].state == Finalized
    ensures base in repo.rowsOf && right in repo.rowsOf
    ensures Legible(repo.rowsOf, base, right) ==>
              MergePreview.IsPreview(codec, repo.rowsOf[base], repo.branches[branch].rows, repo.rowsOf[right],
                                     Unlimited(), p)
    ensures merged.Some? ==>
              && Legible(repo.rowsOf, base, right)
              && repo.revisions[repo.branches[branch].head].events <= merged.value.events
              && Sound(ParentRows(repo.revisions, repo.rowsOf, repo.branches[branch].head), merged.value)
              && MergesTo(codec, repo.rowsOf[base], repo.branches[branch].rows, repo.rowsOf[right], resolutions,
                          merged.value.rows)
              && Carried(codec, HeadOf(repo.branches, repo.revisions, branch), p, actor, generation, resolutions,
                         validate, merged.value)
    ensures merged.Some? <==>
              && Legible(repo.rowsOf, base, right) && p.Going?
              && Admits(codec, HeadOf(repo.branches, repo.revisions, branch), repo.rowsOf[base], repo.rowsOf[right],
                        generation, resolutions, validate)
    ensures merged.None? && Legible(repo.rowsOf, base, right) ==>
              forall h :: !Carried(codec, HeadOf(repo.branches, repo.revisions, branch), p, actor, generation,
                                   resolutions, validate, h)
  {
    hide Invariant, LegalKinds, Sound, MergesTo, MergePreview.IsPreview, Carried, AllLawful, MergeCursor.Holds,
      MergeCursor.NamedIds, Admits;
    MergeReady(repo.x, repo.db.hash, repo.db.rows, repo.projects, repo.branches, repo.revisions, repo.rowsOf,
               repo.order, branch, base, right);
    var stored := HeadOf(repo.branches, repo.revisions, branch);
    var head := new WorkingHead.Resume(ParentRows(repo.revisions, repo.rowsOf, repo.branches[branch].head), stored);
    var ok;
    ok, p := MergeIntoHead(repo.db, head, codec, actor, repo.revisions[base].seal.value.root,
                           repo.revisions[right].seal.value.root,
                           generation, resolutions, validate, repo.rowsOf[base], repo.rowsOf[right]);
    merged := if ok then Some(head.Now()) else None;
    if ok { CarriedGrows(codec, stored, p, actor, generation, resolutions, validate, head.Now()); }
  }

  /**
   Merges a finalized revision of another branch into a branch. The base is the
   only merge base of the working revision and the other one; the sealed result
   has both as parents and shows, for every object, the three-way merge of the
   base's, the working head's and the other revision's object. Unless a digest
   collision gets in the way, it succeeds exactly for a possible target with one
   base, both sealed revisions legible, and a request that can be carried out.
   */
  method MergeObjectRevisions(repo: Repository, branch: Uuid, expectedWorking: Uuid, expectedGeneration: int,
                              right: Uuid, codec: Codec,
                              actor: Uuid, resolutions: seq<Resolution>, validate: Validator, details: Bytes,
                                next: Uuid)
    returns (r: Option<Uuid>)
    requires repo.Valid() && AllLawful(codec) && next !in repo.revisions
    modifies repo, repo.db
    ensures C.Extends(old(repo.db.rows), repo.db.rows)
    ensures r.None? ==> repo.branches == old(repo.branches) && repo.revisions == old(repo.revisions) && repo.Valid()
    ensures r.Some? ==>
              && Possible(old(repo.branches), old(repo.revisions), branch, expectedWorking, expectedGeneration, right)
              && LegibleMerge(old(repo.revisions), old(repo.rowsOf), expectedWorking, right)
              && r.value == expectedWorking && r.value in repo.revisions && repo.revisions[r.value].state == Finalized
              && repo.revisions[r.value].parents == [old(repo.revisions)[r.value].parents[0], right]
    ensures r.Some? ==>
              exists base :: OnlyBase(old(repo.revisions), expectedWorking, right, base) && base in old(repo.rowsOf)
                && right in old(repo.rowsOf)
                && branch in old(repo.branches) && branch in repo.branches
                && old(repo.branches)[branch].head in old(repo.revisions)
                && MergesTo(codec, old(repo.rowsOf)[base], old(repo.branches)[branch].rows, old(repo.rowsOf)[right],
                            resolutions, repo.branches[branch].rows)
                && Admits(codec, HeadOf(old(repo.branches), old(repo.revisions), branch), old(repo.rowsOf)[base],
                          old(repo.rowsOf)[right], expectedGeneration, resolutions, validate)
    ensures Possible(old(repo.branches), old(repo.revisions), branch, expectedWorking, expectedGeneration, right)
            && LegibleMerge(old(repo.revisions), old(repo.rowsOf), expectedWorking, right) ==>
              exists p :: Previewed(codec, old(repo.branches), old(repo.revisions), old(repo.rowsOf), branch,
                                    expectedWorking, right, p)
                && ((forall m: Head :: !Carried(codec, old(HeadOf(repo.branches, repo.revisions, branch)), p, actor,
                                                expectedGeneration,
                                                resolutions, validate, m)) ==> r.None?)
                && forall m: Head | Carried(codec, old(HeadOf(repo.branches, repo.revisions, branch)), p, actor,
                                            expectedGeneration,
                                            resolutions, validate, m) && AllTabled(m.rows)
                              && !SealBlocked(repo.db.hash, old(repo.db.rows),
                                              Some(old(ParentRows(repo.revisions, repo.rowsOf, expectedWorking))), m) ::
                     r.Some? && repo.Valid() && repo.rowsOf == old(repo.rowsOf)[r.value := m.rows]
  {
    hide Invariant, Legible, LegibleMerge, Sound, MergesTo, OnlyBase, Diverged, Carried, MergePreview.IsPreview,
      SealBlocked, AllTabled, AllLawful, MergeTarget, Admits;
    var ok := repo.CheckTarget(branch, expectedWorking, expectedGeneration, right);
    if !ok {
      return None;
    }
    TargetParts(repo.revisions, branch, expectedWorking, expectedGeneration, right);
    var base := ChooseBase(repo, expectedWorking, right);
    if base.None? {
      return None;
    }
    var merged;
    ghost var p;
    merged, p := MergedWorkingHead(repo, branch, base.value, right, codec, actor, expectedGeneration, resolutions,
                                   validate);
    LegibleBase(repo.revisions, repo.rowsOf, expectedWorking, right, base.value);
    if Legible(repo.rowsOf, base.value, right) {
      assert Previewed(codec, repo.branches, repo.revisions, repo.rowsOf, branch, expectedWorking, right, p);
    }
    if merged.None? {
      return None;
    }
    CarriedOnce(codec, HeadOf(repo.branches, repo.revisions, branch), p, actor, expectedGeneration, resolutions,
                validate, merged.value);
    if !AllTabled(merged.value.rows) {
      return None;
    }
    r := repo.MergeAndFinalize(branch, expectedWorking, expectedGeneration, right, merged.value, details, next);
  }

  lemma LegibleBase(revisions: Revisions, rowsOf: map<Uuid, M.Rows>, working: Uuid, right: Uuid, base: Uuid)
    requires OnlyBase(revisions, working, right, base)
    ensures LegibleMerge(revisions, rowsOf, working, right) <==> Legible(rowsOf, base, right)
  {
    hide RevisionAncestry.IsMergeBase, LegalKinds;
    if LegibleMerge(revisions, rowsOf, working, right) {
      var other :| OnlyBase(revisions, working, right, other) && Legible(rowsOf, other, right);
      assert RevisionAncestry.IsMergeBase(GraphOf(revisions), working, right, other);
    }
  }

  /** A merge only adds to the journal. */
  lemma CarriedGrows(codec: Codec, head: Head, p: ThreeWayMerge.Progress, actor: Uuid, generation: int,
                     resolutions: seq<Resolution>, validate: Validator, merged: Head)
    requires AllLawful(codec) && Carried(codec, head, p, actor, generation, resolutions, validate, merged)
    ensures head.events <= merged.events
  {
    hide Mergeable, ItemsFor, AllLawful, Written;
  }

  lemma TargetParts(revisions: Revisions, branch: Uuid, working: Uuid, generation: int, right: Uuid)
    requires MergeTarget(revisions, branch, working, generation, right)
    ensures working in revisions && |revisions[working].parents| == 1 && right in revisions
              && revisions[right].state == Finalized
    ensures revisions[right].project == revisions[working].project
    ensures revisions[working].parents + [right] == [revisions[working].parents[0], right]
  {}

  lemma CarriedOnce(codec: Codec, head: Head, p: ThreeWayMerge.Progress, actor: Uuid, generation: int,
                    resolutions: seq<Resolution>,
                    validate: Validator, merged: Head)
    requires AllLawful(codec) && Carried(codec, head, p, actor, generation, resolutions, validate, merged)
    ensures forall m | Carried(codec, head, p, actor, generation, resolutions, validate, m) :: m == merged
  {
    hide Mergeable, MergedHead, ItemsFor, AllLawful;
  }
}
