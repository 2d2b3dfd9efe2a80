/** Ancestor closure and merge bases over the revision graph. */
module RevisionAncestry {
  import opened Prelude
  import opened Uuid
  import opened SortedRange
  import TreeRead

  datatype Revision = Revision(project: Uuid, finalized: bool, parents: seq<Uuid>)

  /** The stored revisions; nothing is assumed about their edges, which may even form cycles. */
  type Graph = map<Uuid, Revision>

  predicate Edge(g: Graph, child: Uuid, parent: Uuid) {
    child in g && parent in g[child].parents
  }

  /** The path runs along parent edges. */
  predicate IsPath(g: Graph, path: seq<Uuid>) {
    path != [] && forall i | 0 <= i < |path| - 1 :: Edge(g, path[i], path[i + 1])
  }

  predicate Joins(g: Graph, path: seq<Uuid>, from: Uuid, to: Uuid) {
    IsPath(g, path) && path[0] == from && path[|path| - 1] == to
  }

  /** `to` is `from` or one of its ancestors. */
  ghost predicate Reaches(g: Graph, from: Uuid, to: Uuid) {
    exists path :: Joins(g, path, from, to)
  }

  /** `to` is a proper ancestor of `from`: at least one edge away. */
  ghost predicate Above(g: Graph, from: Uuid, to: Uuid) {
    exists path :: Joins(g, path, from, to) && |path| >= 2
  }

  lemma ReachesSelf(g: Graph, a: Uuid)
    ensures Reaches(g, a, a)
  {
    assert Joins(g, [a], a, a);
  }

  lemma AboveStep(g: Graph, a: Uuid, b: Uuid, c: Uuid)
    requires Reaches(g, a, b) && Edge(g, b, c)
    ensures Reaches(g, a, c) && Above(g, a, c)
  {
    var path :| Joins(g, path, a, b);
    assert Joins(g, path + [c], a, c);
  }

  lemma ReachesJoin(g: Graph, a: Uuid, b: Uuid, c: Uuid)
    requires Reaches(g, a, b) && Reaches(g, b, c)
    ensures Reaches(g, a, c) && (Above(g, a, b) || Above(g, b, c) ==> Above(g, a, c))
  {
    var p :| Joins(g, p, a, b) && (Above(g, a, b) ==> |p| >= 2);
    var q :| Joins(g, q, b, c) && (Above(g, b, c) ==> |q| >= 2);
    var r := p + q[1..];
    forall i | 0 <= i < |r| - 1
      ensures Edge(g, r[i], r[i + 1])
    {
      if i < |p| - 1 {
        assert r[i] == p[i] && r[i + 1] == p[i + 1];
      } else {
        assert r[i] == q[i - (|p| - 1)] && r[i + 1] == q[i + 1 - (|p| - 1)];
      }
    }
    assert Joins(g, r, a, c);
  }

  lemma AboveReaches(g: Graph, a: Uuid, b: Uuid)
    requires Above(g, a, b)
    ensures Reaches(g, a, b)
  {}

  /** A set that holds `from` and is closed under parents holds everything `from` reaches. */
  lemma {:induction false} ClosedHolds(g: Graph, s: set<Uuid>, path: seq<Uuid>)
    requires IsPath(g, path) && path[0] in s && forall a, b | a in s && Edge(g, a, b) :: b in s
    ensures path[|path| - 1] in s
  {
    if |path| > 1 {
      assert Edge(g, path[0], path[1]);
      var rest := path[1..];
      forall i | 0 <= i < |rest| - 1
        ensures Edge(g, rest[i], rest[i + 1])
      {
        assert Edge(g, path[i + 1], path[i + 2]);
      }
      ClosedHolds(g, s, rest);
    }
  }

  lemma ReachedHeld(g: Graph, s: set<Uuid>, from: Uuid, to: Uuid)
    requires from in s && (forall a, b | a in s && Edge(g, a, b) :: b in s) && Reaches(g, from, to)
    ensures to in s
  {
    var path :| Joins(g, path, from, to);
    ClosedHolds(g, s, path);
  }

  /** What the walk demands of a revision it visits. */
  predicate Sound(g: Graph, start: Uuid, project: Uuid, id: Uuid) {
    id in g && g[id].project == project && (id == start || g[id].finalized) && id !in g[id].parents
  }

  /** The set is exactly what the start reaches, and the edges are those of the graph. */
  ghost predicate Closure(g: Graph, start: Uuid, ancestors: set<Uuid>, parents: map<Uuid, seq<Uuid>>) {
    && (forall id :: id in ancestors <==> Reaches(g, start, id))
    && forall id | id in ancestors :: id in g && id in parents && parents[id] == g[id].parents
  }

  predicate FromGraph(g: Graph, parents: map<Uuid, seq<Uuid>>) {
    forall id | id in parents :: id in g && parents[id] == g[id].parents
  }

  /** The walk over parents: succeeds exactly when every revision it reaches is sound; ends even on cycles. */
  method CollectAncestors(g: Graph, start: Uuid, project: Uuid, parents: map<Uuid, seq<Uuid>>)
    returns (ok: bool, ancestors: set<Uuid>, parents': map<Uuid, seq<Uuid>>)
    requires FromGraph(g, parents)
    ensures FromGraph(g, parents') && forall id | id in parents :: id in parents'
    ensures ok <==> forall id | Reaches(g, start, id) :: Sound(g, start, project, id)
    ensures ok ==> Closure(g, start, ancestors, parents')
  {
    ancestors, parents' := {}, parents;
    var pending := [start];
    ReachesSelf(g, start);
    while pending != []
      invariant FromGraph(g, parents') && forall id | id in parents :: id in parents'
      invariant ancestors <= g.Keys && forall id | id in ancestors :: id in parents'
      invariant start in ancestors || start in pending
      invariant forall id | id in ancestors || id in pending :: Reaches(g, start, id)
      invariant forall id | id in ancestors :: Sound(g, start, project, id)
      invariant forall a, b | a in ancestors && Edge(g, a, b) :: b in ancestors || b in pending
      decreases g.Keys - ancestors, |pending|
    {
      var last := |pending| - 1;
      var current := pending[last];
      var rest := pending[..last];
      assert forall id | id in pending :: id == current || id in rest;
      assert current in pending;
      if current in ancestors {
        pending := rest;
        continue;
      }
      if current !in g {
        return false, ancestors, parents';
      }
      var revision := g[current];
      if revision.project != project || (current != start && !revision.finalized) {
        return false, ancestors, parents';
      }
      var added, selfParent := NewParents(revision.parents, current, ancestors + {current});
      if selfParent {
        return false, ancestors, parents';
      }
      forall id | id in added
        ensures Reaches(g, start, id)
      {
        AboveStep(g, start, current, id);
      }
      ancestors := ancestors + {current};
      parents' := parents'[current := revision.parents];
      pending := rest + added;
    }
    forall id | Reaches(g, start, id)
      ensures id in ancestors
    {
      ReachedHeld(g, ancestors, start, id);
    }
    ok := true;
  }

  /** The parents not visited yet; a revision that is its own parent is an error. */
  method NewParents(parents: seq<Uuid>, current: Uuid, visited: set<Uuid>) returns (added: seq<Uuid>, selfParent: bool)
    ensures selfParent <==> current in parents
    ensures forall id | id in added :: id in parents
    ensures !selfParent ==> forall id | id in parents :: id in visited || id in added
  {
    added := [];
    for i := 0 to |parents|
      invariant current !in parents[..i]
      invariant forall id | id in added :: id in parents
      invariant forall j | 0 <= j < i :: parents[j] in visited || parents[j] in added
    {
      if parents[i] == current {
        return added, true;
      }
      if parents[i] !in visited {
        added := added + [parents[i]];
      }
    }
    selfParent := false;
  }

  // -------------------------------------------------------------------- merge bases

  /** Revisions both sides descend from; an editable tip compared with itself is no base. */
  ghost predicate Common(g: Graph, left: Uuid, right: Uuid, id: Uuid) {
    && Reaches(g, left, id) && Reaches(g, right, id)
    && !(left == right && id == left && left in g && !g[left].finalized)
  }

  /** A common revision that is not a proper ancestor of any common revision. */
  ghost predicate IsMergeBase(g: Graph, left: Uuid, right: Uuid, id: Uuid) {
    Common(g, left, right, id) && forall other | Common(g, left, right, other) :: !Above(g, other, id)
  }

  datatype Comparison = Comparison(leftIsAncestorOfRight: bool, rightIsAncestorOfLeft: bool, bases: seq<Uuid>)

  /** At least one edge above some of the given revisions. */
  ghost predicate Dominated(g: Graph, common: set<Uuid>, id: Uuid) {
    exists a :: a in common && Above(g, a, id)
  }

  lemma ParentDominated(g: Graph, common: set<Uuid>, a: Uuid, b: Uuid)
    requires (a in common || Dominated(g, common, a)) && Edge(g, a, b)
    ensures Dominated(g, common, b)
  {
    hide Above, Reaches, Edge;
    ReachesSelf(g, a);
    if a in common {
      AboveStep(g, a, a, b);
    } else {
      var c :| c in common && Above(g, c, a);
      AboveReaches(g, c, a);
      AboveStep(g, c, a, b);
    }
  }

  lemma DominatedKnown(g: Graph, parents: map<Uuid, seq<Uuid>>, common: set<Uuid>, id: Uuid)
    requires Dominated(g, common, id) && forall a, b | a in common && Reaches(g, a, b) :: b in parents
    ensures id in parents
  {
    hide Above, Reaches;
    var a :| a in common && Above(g, a, id);
    AboveReaches(g, a, id);
  }

  /** Everything above the given revisions, in one walk from all of them. */
  method CollectDominated(g: Graph, parents: map<Uuid, seq<Uuid>>, common: set<Uuid>) returns (dominated: set<Uuid>)
    requires FromGraph(g, parents) && forall a, b | a in common && Reaches(g, a, b) :: b in parents
    ensures forall id :: id in dominated <==> Dominated(g, common, id)
  {
    hide Dominated, Reaches, Above;
    var pending := ParentsOf(parents, common);
    dominated := {};
    forall a | a in common
      ensures a in parents
    {
      ReachesSelf(g, a);
    }
    forall id | id in pending
      ensures Dominated(g, common, id)
    {
      var a :| a in common && a in parents && id in parents[a];
      ParentDominated(g, common, a, id);
    }
    while pending != []
      invariant dominated <= parents.Keys
      invariant forall id | id in pending || id in dominated :: Dominated(g, common, id)
      invariant forall a, b | (a in common || a in dominated) && Edge(g, a, b) :: b in dominated || b in pending
      decreases parents.Keys - dominated, |pending|
    {
      var last := |pending| - 1;
      var id := pending[last];
      var rest := pending[..last];
      assert forall x | x in pending :: x == id || x in rest;
      assert id in pending;
      if id in dominated {
        pending := rest;
        continue;
      }
      DominatedKnown(g, parents, common, id);
      forall b | Edge(g, id, b)
        ensures Dominated(g, common, b)
      {
        ParentDominated(g, common, id, b);
      }
      dominated := dominated + {id};
      pending := rest + parents[id];
    }
    forall id | Dominated(g, common, id)
      ensures id in dominated
    {
      DominatedFound(g, common, dominated, id);
    }
  }

  lemma DominatedFound(g: Graph, common: set<Uuid>, dominated: set<Uuid>, id: Uuid)
    requires Dominated(g, common, id)
    requires forall a, b | (a in common || a in dominated) && Edge(g, a, b) :: b in dominated
    ensures id in dominated
  {
    hide Above, Edge;
    var a :| a in common && Above(g, a, id);
    AboveDominated(g, dominated, a, id);
  }

  lemma AboveDominated(g: Graph, dominated: set<Uuid>, a: Uuid, id: Uuid)
    requires (forall b | Edge(g, a, b) :: b in dominated) && Above(g, a, id)
    requires forall x, y | x in dominated && Edge(g, x, y) :: y in dominated
    ensures id in dominated
  {
    var path :| Joins(g, path, a, id) && |path| >= 2;
    assert Edge(g, path[0], path[1]);
    var rest := path[1..];
    forall i | 0 <= i < |rest| - 1
      ensures Edge(g, rest[i], rest[i + 1])
    {
      assert Edge(g, path[i + 1], path[i + 2]);
    }
    ClosedHolds(g, dominated, rest);
  }

  method ParentsOf(parents: map<Uuid, seq<Uuid>>, common: set<Uuid>) returns (pending: seq<Uuid>)
    ensures forall id :: id in pending <==> exists a :: a in common && a in parents && id in parents[a]
  {
    pending := [];
    var rest := common;
    while rest != {}
      invariant rest <= common
      invariant forall id :: id in pending <==> exists a :: a in common - rest && a in parents && id in parents[a]
      decreases rest
    {
      var a :| a in rest;
      ghost var earlier := pending;
      if a in parents {
        pending := pending + parents[a];
      }
      assert common - (rest - {a}) == common - rest + {a};
      rest := rest - {a};
    }
  }

  /** The comparison of two revisions: fails exactly when a side's history is unsound. */
  method CompareRevisions(g: Graph, left: Uuid, right: Uuid) returns (r: Option<Comparison>)
    ensures r.Some? <==> left in g && right in g && g[left].project == g[right].project
                         && (forall id | Reaches(g, left, id) :: Sound(g, left, g[left].project, id))
                         && forall id | Reaches(g, right, id) :: Sound(g, right, g[left].project, id)
    ensures r.Some? <==> left in g && right in g && g[left].project == g[right].project
                         && (forall id | Reaches(g, left, id) ::
                               id in g && g[id].project == g[left].project && (id == left || g[id].finalized)
                               && id !in g[id].parents)
                         && forall id | Reaches(g, right, id) ::
                              id in g && g[id].project == g[left].project && (id == right || g[id].finalized)
                              && id !in g[id].parents
    ensures r.Some? ==> (r.value.leftIsAncestorOfRight <==> Reaches(g, right, left))
                        && (r.value.rightIsAncestorOfLeft <==> Reaches(g, left, right))
    ensures r.Some? ==> forall id: Uuid :: id in r.value.bases <==> IsMergeBase(g, left, right, id)
    ensures r.Some? ==> forall id: Uuid :: id in r.value.bases <==>
              && Reaches(g, left, id) && Reaches(g, right, id) && (left == right == id ==> g[id].finalized)
              && forall other | Reaches(g, left, other) && Reaches(g, right, other)
                                && (left == right == other ==> g[other].finalized) :: !Above(g, other, id)
    ensures r.Some? ==> forall i, j | 0 <= i < j < |r.value.bases| :: Less(r.value.bases[i], r.value.bases[j])
  {
    hide Reaches, Above, IsMergeBase, Common, Less, Dominated;
    if left !in g || right !in g || g[left].project != g[right].project {
      return None;
    }
    var ok, leftAncestors, parents := CollectAncestors(g, left, g[left].project, map[]);
    if !ok {
      return None;
    }
    var rightAncestors;
    ghost var leftParents := parents;
    ok, rightAncestors, parents := CollectAncestors(g, right, g[left].project, parents);
    if !ok {
      return None;
    }
    var common := leftAncestors * rightAncestors;
    if left == right && !g[left].finalized {
      common := common - {left};
    }
    CommonIs(g, left, right, leftAncestors, rightAncestors, common);
    forall a, b | a in common && Reaches(g, a, b)
      ensures b in parents
    {
      ReachesJoin(g, left, a, b);
    }
    var dominated := CollectDominated(g, parents, common);
    var bases := common - dominated;
    forall id: Uuid
      ensures id in bases <==> IsMergeBase(g, left, right, id)
    {
      BaseIs(g, left, right, common, id);
    }
    forall id: Uuid
      ensures IsMergeBase(g, left, right, id) <==>
                && Reaches(g, left, id) && Reaches(g, right, id) && (left == right == id ==> g[id].finalized)
                && forall other | Reaches(g, left, other) && Reaches(g, right, other)
                                  && (left == right == other ==> g[other].finalized) :: !Above(g, other, id)
    {
      BaseMeans(g, left, right, id);
    }
    var sorted := SortedIds(bases);
    r := Some(Comparison(left in rightAncestors, right in leftAncestors, sorted));
  }

  lemma BaseMeans(g: Graph, left: Uuid, right: Uuid, id: Uuid)
    requires left in g
    ensures IsMergeBase(g, left, right, id) <==>
              && Reaches(g, left, id) && Reaches(g, right, id) && (left == right == id ==> g[id].finalized)
              && forall other | Reaches(g, left, other) && Reaches(g, right, other)
                                && (left == right == other ==> g[other].finalized) :: !Above(g, other, id)
  {
    hide Above, Reaches;
  }

  lemma CommonIs(g: Graph, left: Uuid, right: Uuid, leftAncestors: set<Uuid>, rightAncestors: set<Uuid>,
                 common: set<Uuid>)
    requires left in g
    requires forall id :: id in leftAncestors <==> Reaches(g, left, id)
    requires forall id :: id in rightAncestors <==> Reaches(g, right, id)
    requires common == leftAncestors * rightAncestors - if left == right && !g[left].finalized then {left} else {}
    ensures forall id :: id in common <==> Common(g, left, right, id)
  {}

  lemma BaseIs(g: Graph, left: Uuid, right: Uuid, common: set<Uuid>, id: Uuid)
    requires forall x :: x in common <==> Common(g, left, right, x)
    ensures IsMergeBase(g, left, right, id) <==> id in common && !Dominated(g, common, id)
  {
    hide Above, Common;
  }

  method SortedIds(ids: set<Uuid>) returns (sorted: seq<Uuid>)
    ensures forall id: Uuid :: id in sorted <==> id in ids
    ensures forall i, j | 0 <= i < j < |sorted| :: Less(sorted[i], sorted[j])
  {
    hide Less, Unpack, Sorted, Distinct;
    var keys := TreeRead.SortedKeys(ids);
    sorted := seq(|keys|, i requires 0 <= i < |keys| => keys[i].value);
    forall id | id in ids
      ensures id in sorted
    {
      var i :| 0 <= i < |keys| && keys[i].value == id;
      assert sorted[i] == id;
    }
    forall i, j | 0 <= i < j < |sorted|
      ensures Less(sorted[i], sorted[j])
    {
      TreeRead.KeysAscend(keys, i, j);
    }
  }

  // ------------------------------------------------------------------ consequences

  /** No revision is its own proper ancestor. */
  ghost predicate Acyclic(g: Graph) {
    forall id :: !Above(g, id, id)
  }

  /** Every nonempty set of revisions of an acyclic history has one that is above none of the others. */
  lemma {:induction false} Maximal(g: Graph, s: set<Uuid>) returns (top: Uuid)
    requires s != {} && Acyclic(g)
    ensures top in s && forall other | other in s :: !Above(g, other, top)
  {
    hide Above, Reaches;
    var x :| x in s;
    var rest := s - {x};
    if rest == {} {
      top := x;
      assert s == {x};
    } else {
      top := Maximal(g, rest);
      if Above(g, x, top) {
        forall other | other in s
          ensures !Above(g, other, x)
        {
          if Above(g, other, x) {
            AboveReaches(g, other, x);
            AboveReaches(g, x, top);
            ReachesJoin(g, other, x, top);
          }
        }
        top := x;
      }
    }
  }

  /** In an acyclic history a merge base exists whenever there is a common revision. */
  lemma BaseExists(g: Graph, left: Uuid, right: Uuid, common: set<Uuid>) returns (base: Uuid)
    requires Acyclic(g) && common != {} && forall id :: id in common <==> Common(g, left, right, id)
    ensures IsMergeBase(g, left, right, base)
  {
    hide Above, Common;
    base := Maximal(g, common);
  }

  /** Every common revision lies on or above some merge base. */
  lemma {:induction false} BaseBelow(g: Graph, left: Uuid, right: Uuid, common: set<Uuid>, id: Uuid)
    returns (base: Uuid)
    requires Acyclic(g) && (forall x :: x in common <==> Common(g, left, right, x)) && id in common
    ensures IsMergeBase(g, left, right, base) && Reaches(g, base, id)
  {
    hide Common, Above, Reaches;
    var below := set x | x in common && Reaches(g, x, id);
    ReachesSelf(g, id);
    assert id in below;
    base := Maximal(g, below);
    forall other | Common(g, left, right, other)
      ensures !Above(g, other, base)
    {
      if Above(g, other, base) {
        AboveReaches(g, other, base);
        ReachesJoin(g, other, base, id);
      }
    }
  }

  /** A finalized side that the other descends from is the one and only base. */
  lemma AncestorIsBase(g: Graph, left: Uuid, right: Uuid, id: Uuid)
    requires Acyclic(g) && Reaches(g, right, left) && left in g && g[left].finalized
    ensures IsMergeBase(g, left, right, id) <==> id == left
  {
    hide Above, Reaches;
    ReachesSelf(g, left);
    assert Common(g, left, right, left);
    if IsMergeBase(g, left, right, id) && id != left {
      ReachesAbove(g, left, id);
    }
    forall other | Common(g, left, right, other)
      ensures !Above(g, other, left)
    {
      if Above(g, other, left) {
        AboveReaches(g, other, left);
        ReachesJoin(g, left, other, left);
      }
    }
  }

  lemma ReachesAbove(g: Graph, a: Uuid, b: Uuid)
    requires Reaches(g, a, b) && a != b
    ensures Above(g, a, b)
  {
    var path :| Joins(g, path, a, b);
    assert |path| >= 2;
  }

  /** A merge base is always a finalized revision. */
  lemma BaseFinalized(g: Graph, left: Uuid, right: Uuid, id: Uuid)
    requires IsMergeBase(g, left, right, id) && left in g && right in g
    requires forall x | Reaches(g, left, x) :: Sound(g, left, g[left].project, x)
    requires forall x | Reaches(g, right, x) :: Sound(g, right, g[left].project, x)
    ensures id in g && g[id].finalized
  {
    hide Above, Reaches;
    assert Sound(g, left, g[left].project, id) && Sound(g, right, g[left].project, id);
  }
}
