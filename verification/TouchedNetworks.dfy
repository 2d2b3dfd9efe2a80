/** Validating what a transaction touched, network roots included: fast where that is enough, in full otherwise. */
module TouchedNetworks {
  import opened Prelude
  import opened Uuid
  import opened NetworkModel
  import opened IncrementalValidation
  import opened LocalValidation
  import NetworkRules
  import NetworkValidator

  ghost function Affected(owner: Owners, touched: set<Uuid>): set<Uuid> {
    set u | u in touched && u in owner :: owner[u]
  }

  /** A network none of whose members was touched is as it was. */
  lemma UnaffectedSame(roots: Roots, owner: Owners, index: Indexes, before: Objects, after: Objects, touched: set<Uuid>,
                       n: Uuid)
    requires Owned(roots, owner) && n in roots && n in index && n !in Affected(owner, touched)
    requires Edits(before, after, touched) && NetworkOk(roots[n], index[n], before)
    ensures NetworkOk(roots[n], index[n], after)
  {
    hide IsNull, Links, ReferencesOf, Orderly, Resolved;
    var root := roots[n];
    forall id | id in root.members
      ensures id !in touched && id in after && before[id] == after[id]
    {
      assert Get(before, id) == Get(after, id);
    }
    SameIdentities(root, before, after) by {
      forall id | id in root.members
        ensures SameKind(before[id].shape, after[id].shape)
      {}
    }
    var none: set<Uuid> := {};
    forall id | id in root.members
      ensures Orderly(root, after, after[id].shape)
    {
      OrderlyLocal(root, before, after, before[id].shape);
    }
    forall i | 0 <= i < |root.options|
      ensures Resolved(root, after, root.options[i])
    {
      ResolvedLocal(root, before, after, root.options[i]);
    }
  }

  // ------------------------------------------------------------------ changed roots

  /**
   What a transaction left of a network root that it touched. A root that lists an
   object of another kind than the list is for does not load, like one that does
   not decode: both are unreadable.
   */
  datatype RootState = Deleted | Unreadable | Readable(root: Root)

  type RootChanges = map<Uuid, RootState>

  function NewMembers(state: RootState): seq<Uuid> {
    if state.Readable? then state.root.members else []
  }

  /** The live roots after the transaction. */
  function RootsAfter(roots: Roots, changes: RootChanges): Roots {
    map n | n in roots.Keys + changes.Keys && (n in changes ==> changes[n].Readable?) ::
      if n in changes then changes[n].root else roots[n]
  }

  predicate WellRooted(changes: RootChanges) {
    forall n | n in changes :: !changes[n].Unreadable? && (changes[n].Readable? ==> changes[n].root.id == n)
  }

  /** A live entity, decodable or not, that a changed root listed is still listed by one of the changed roots. */
  ghost predicate Kept(owner: Owners, changes: RootChanges, live: set<Uuid>) {
    forall u | u in owner && owner[u] in changes && u in live :: exists m ::
      m in changes
      && u in NewMembers(changes[m])
  }

  /** No entity is in two networks. */
  ghost predicate Disjoint(roots: Roots) {
    forall n, m, u | n in roots && m in roots && u in roots[n].members && u in roots[m].members :: n == m
  }

  /** The whole state is valid: every network loads and is sound, and none share an entity. */
  ghost predicate Coherent(roots: Roots, objects: Objects) {
    && (forall n | n in roots :: roots[n].id == n && Listed(roots[n]) && Sound(roots[n], objects))
    && Disjoint(roots)
  }

  /** The table names, for every member of these roots, its root, and nothing else. */
  ghost predicate Tabled(roots: Roots, owner: Owners) {
    && (forall n, u | n in roots && u in roots[n].members :: u in owner && owner[u] == n)
    && forall u | u in owner :: owner[u] in roots && u in roots[owner[u]].members
  }

  /** The roots whose membership is in the table: the unchanged ones, and the changed ones that are done. */
  ghost function Entered(roots: Roots, changes: RootChanges, done: set<Uuid>): Roots {
    map n | n in RootsAfter(roots, changes) && (n in changes ==> n in done) :: RootsAfter(roots, changes)[n]
  }

  lemma TabledDisjoint(roots: Roots, owner: Owners)
    requires Tabled(roots, owner)
    ensures Disjoint(roots)
  {
    forall n, m, u | n in roots && m in roots && u in roots[n].members && u in roots[m].members
      ensures n == m
    {
      assert owner[u] == n && owner[u] == m;
    }
  }

  lemma OwnedTabled(roots: Roots, owner: Owners)
    requires Owned(roots, owner)
    ensures Tabled(roots, owner)
  {}

  /** With the changed roots' entries cleared, the table is that of the unchanged roots. */
  lemma EnterNone(roots: Roots, owner: Owners, changes: RootChanges)
    requires Tabled(roots, owner)
    ensures Tabled(Entered(roots, changes, {}), map u | u in owner && owner[u] !in changes :: owner[u])
  {
    assert forall n | n in Entered(roots, changes, {}) :: n in roots && n !in changes;
  }

  lemma EnteredMore(roots: Roots, changes: RootChanges, done: set<Uuid>, n: Uuid)
    requires n in changes && n !in done
    ensures var before, after := Entered(roots, changes, done), Entered(roots, changes, done + {n});
      && n !in before && after.Keys == before.Keys + (if changes[n].Readable? then {n} else {})
      && (forall m | m in before :: after[m] == before[m])
      && (n in after ==> after[n].members == NewMembers(changes[n]))
      && (n !in after ==> NewMembers(changes[n]) == [])
  {
    var before, after := Entered(roots, changes, done), Entered(roots, changes, done + {n});
    forall m
      ensures m in after <==> m in before || (m == n && changes[n].Readable?)
    {}
  }

  /** One more root's members, none of them taken. */
  lemma TabledMore(before: Roots, after: Roots, owner: Owners, n: Uuid, members: set<Uuid>)
    requires Tabled(before, owner) && n !in before && forall u | u in members :: u !in owner
    requires forall m | m in before :: m in after && after[m] == before[m]
    requires forall m | m in after :: m in before || m == n
    requires n in after ==> forall u :: u in members <==> u in after[n].members
    requires n !in after ==> members == {}
    ensures Tabled(after, owner + map u | u in members :: n)
  {
    var owner' := owner + map u | u in members :: n;
    forall m, u | m in after && u in after[m].members
      ensures u in owner' && owner'[u] == m
    {
      if m != n { assert u in before[m].members; }
    }
    forall u | u in owner'
      ensures owner'[u] in after && u in after[owner'[u]].members
    {
      if u !in members { assert owner'[u] == owner[u]; }
    }
  }

  lemma EnterMore(roots: Roots, owner: Owners, changes: RootChanges, done: set<Uuid>, n: Uuid, members: set<Uuid>)
    requires Tabled(Entered(roots, changes, done), owner) && n in changes && n !in done
    requires members == (set u | u in NewMembers(changes[n])) && forall u | u in members :: u !in owner
    ensures Tabled(Entered(roots, changes, done + {n}), owner + map u | u in members :: n)
  {
    hide Tabled, Entered, NewMembers;
    EnteredMore(roots, changes, done, n);
    TabledMore(Entered(roots, changes, done), Entered(roots, changes, done + {n}), owner, n, members);
  }

  /** A member that is already taken is in two of the new roots. */
  lemma EnterTwice(roots: Roots, owner: Owners, changes: RootChanges, done: set<Uuid>, n: Uuid, u: Uuid)
    requires Tabled(Entered(roots, changes, done), owner) && n in changes && n !in done
    requires u in NewMembers(changes[n]) && u in owner
    ensures !Disjoint(RootsAfter(roots, changes))
  {
    var roots' := RootsAfter(roots, changes);
    assert n in roots' && u in roots'[n].members;
    assert owner[u] in Entered(roots, changes, done) && u in roots'[owner[u]].members && owner[u] != n;
  }

  lemma ConsistentCoherent(roots: Roots, owner: Owners, index: Indexes, objects: Objects)
    requires Consistent(roots, owner, index, objects)
    ensures Coherent(roots, objects) && RootsAfter(roots, map[]) == roots
  {
    hide Sound, Listed, NetworkModel.Indexes;
    assert Tabled(roots, owner);
    TabledDisjoint(roots, owner);
  }

  /** Everything outside the affected networks was valid and is as it was. */
  lemma RestCoherent(roots: Roots, owner: Owners, index: Indexes, changes: RootChanges, owner': Owners, before: Objects,
                     after: Objects,
                     touched: set<Uuid>)
    requires Consistent(roots, owner, index, before) && Edits(before, after, touched) && WellRooted(changes)
               && changes.Keys <= touched
    requires Tabled(RootsAfter(roots, changes), owner')
    requires forall n | n in RootsAfter(roots, changes) && (n in changes || n in Affected(owner, touched)) ::
               Listed(RootsAfter(roots, changes)[n]) && Sound(RootsAfter(roots, changes)[n], after)
    ensures Coherent(RootsAfter(roots, changes), after)
  {
    hide Sound, Listed, NetworkModel.Indexes, Edits;
    var roots' := RootsAfter(roots, changes);
    TabledDisjoint(roots', owner');
    forall n | n in roots'
      ensures roots'[n].id == n && Listed(roots'[n]) && Sound(roots'[n], after)
    {
      if n !in changes {
        if n !in Affected(owner, touched) { UnaffectedSame(roots, owner, index, before, after, touched, n); }
      }
    }
  }

  /** The members are listed once each, under identifiers that are set and not the root's. */
  ghost predicate Loadable(root: Root) {
    forall i | 0 <= i < |root.members| ::
      root.members[i] != UNSET && root.members[i] != root.id && root.members[i] !in root.members[..i]
  }

  lemma LoadableIs(root: Root)
    ensures Listed(root) <==> Loadable(root)
  {
    hide IsNull;
    forall i | 0 <= i < |root.members|
      ensures IsNull(root.members[i]) <==> root.members[i] == UNSET
      ensures root.members[i] in root.members[..i] <==> exists j :: 0 <= j < i && root.members[j] == root.members[i]
    {
      NullIsUnset(root.members[i]);
    }
  }

  /** The networks a transaction leaves: the changed roots as they are now, if they are still there, the others as they
      were. */
  ghost predicate LeftBy(roots: Roots, changes: RootChanges, left: Roots) {
    && (forall n :: n in left <==> if n in changes then changes[n].Readable? else n in roots)
    && forall n | n in left :: if n in changes then changes[n] == Readable(left[n]) else left[n] == roots[n]
  }

  /** Every network keeps the rules, and no entity is in two of them. */
  ghost predicate AllRuled(roots: Roots, objects: Objects) {
    && (forall n | n in roots :: roots[n].id == n && Loadable(roots[n]) && NetworkRules.Ruled(roots[n], objects))
    && forall n, m, u | n in roots && m in roots && u in roots[n].members && u in roots[m].members :: n == m
  }

  /** What a transaction must leave behind, from its rows alone: changed roots that can be read, live members still
      listed, and networks that keep the rules. */
  ghost predicate Acceptable(roots: Roots, owner: Owners, changes: RootChanges, live: set<Uuid>, objects: Objects) {
    && (forall n | n in changes :: changes[n].Deleted? || (changes[n].Readable? && changes[n].root.id == n))
    && (forall u | u in owner && owner[u] in changes && u in live ::
          exists m :: m in changes && changes[m].Readable? && u in changes[m].root.members)
    && forall left | LeftBy(roots, changes, left) :: AllRuled(left, objects)
  }

  /** The tables are those of the networks: the index of each has an entry for every set field and no other. */
  ghost predicate TablesRight(roots: Roots, owner: Owners, index: Indexes, objects: Objects) {
    && index.Keys == roots.Keys
    && (forall n, r | n in roots :: r in index[n] <==> NetworkRules.Entered(roots[n], objects, r))
    && forall u, n :: (u in owner && owner[u] == n) <==> (n in roots && u in roots[n].members)
  }

  lemma CoherentIs(roots: Roots, objects: Objects)
    ensures Coherent(roots, objects) <==> AllRuled(roots, objects)
  {
    hide Listed, Loadable, Sound, NetworkRules.Ruled;
    forall n | n in roots
      ensures Listed(roots[n]) && Sound(roots[n], objects) <==>
              Loadable(roots[n]) && NetworkRules.Ruled(roots[n], objects)
    {
      LoadableIs(roots[n]);
      NetworkRules.SoundIs(roots[n], objects);
    }
  }

  lemma LeftIs(roots: Roots, changes: RootChanges, left: Roots)
    ensures LeftBy(roots, changes, left) <==> left == RootsAfter(roots, changes)
  {
    var after := RootsAfter(roots, changes);
    assert forall n :: n in after <==> if n in changes then changes[n].Readable? else n in roots;
    if LeftBy(roots, changes, left) { assert left == after; }
  }

  lemma AcceptableIs(roots: Roots, owner: Owners, changes: RootChanges, live: set<Uuid>, objects: Objects)
    ensures WellRooted(changes) && Kept(owner, changes, live) && Coherent(RootsAfter(roots, changes), objects) <==>
            Acceptable(roots, owner, changes, live, objects)
  {
    hide Coherent, AllRuled, RootsAfter, LeftBy;
    var after := RootsAfter(roots, changes);
    CoherentIs(after, objects);
    forall left
      ensures LeftBy(roots, changes, left) <==> left == after
    {
      LeftIs(roots, changes, left);
    }
    assert LeftBy(roots, changes, after);
    KeptIs(owner, changes, live);
  }

  lemma KeptIs(owner: Owners, changes: RootChanges, live: set<Uuid>)
    ensures Kept(owner, changes, live) <==>
            forall u | u in owner && owner[u] in changes && u in live ::
              exists m :: m in changes && changes[m].Readable? && u in changes[m].root.members
  {
    forall u, m | m in changes
      ensures u in NewMembers(changes[m]) <==> changes[m].Readable? && u in changes[m].root.members
    {}
  }

  lemma TablesAre(roots: Roots, owner: Owners, index: Indexes, objects: Objects)
    requires Consistent(roots, owner, index, objects)
    ensures TablesRight(roots, owner, index, objects)
  {
    hide Listed, Sound, NetworkModel.Indexes, NetworkRules.Entered;
    forall n | n in roots
      ensures forall r :: r in index[n] <==> NetworkRules.Entered(roots[n], objects, r)
    {
      assert NetworkOk(roots[n], index[n], objects);
      MembersLive(roots[n], objects);
      NetworkRules.IndexIs(index[n], roots[n], objects);
    }
  }

  lemma ResolvedLocal(root: Root, before: Objects, after: Objects, link: Link)
    requires forall id | id in root.members :: id in before && id in after && before[id] == after[id]
    ensures Resolved(root, before, link) <==> Resolved(root, after, link)
  {}

  lemma OrderlyLocal(root: Root, before: Objects, after: Objects, s: Shape)
    requires forall id | id in root.members :: id in before && id in after && before[id] == after[id]
    ensures Orderly(root, before, s) <==> Orderly(root, after, s)
  {
    hide IsNull, Links, Resolved;
    forall i | 0 <= i < |Links(s)|
      ensures Resolved(root, before, Links(s)[i]) <==> Resolved(root, after, Links(s)[i])
    {
      ResolvedLocal(root, before, after, Links(s)[i]);
    }
  }

  class HydraulicIndexes {
    var roots: Roots
    var owner: Owners
    var index: Indexes

    constructor (roots: Roots, owner: Owners, index: Indexes)
      ensures this.roots == roots && this.owner == owner && this.index == index
    {
      this.roots, this.owner, this.index := roots, owner, index;
    }

    /** Whether the edit of one entity can be taken without looking at anything else. */
    method CanSkip(before: Objects, after: Objects, id: Uuid) returns (ok: bool)
      requires id in before && id in after ==> SameKind(before[id].shape, after[id].shape)
      ensures ok <==> id in before && id in after && ReferenceNeutral(id, before[id].shape, after[id].shape)
    {
      hide ReferencesOf, Links;
      if id !in after || id !in before {
        return false;
      }
      var old', new' := before[id].shape, after[id].shape;
      if new'.Rule? {
        return false;
      }
      if new'.DemandPoint? {
        if old'.attachment.kind != new'.attachment.kind
          || old'.attachment.assignedMode != new'.attachment.assignedMode {
          return false;
        }
        if new'.attachment.kind.ToPipe? && !new'.attachment.positionInRange {
          return false;
        }
      }
      ok := ReferencesOf(id, Links(old')) == ReferencesOf(id, Links(new'));
    }

    /** The first fast path: every touched entity is indexed and edited neutrally. */
    method AllSkip(before: Objects, after: Objects, touched: set<Uuid>) returns (ok: bool)
      requires Edits(before, after, touched)
      ensures ok <==> (forall id | id in touched :: id in owner) && AllNeutral(before, after, touched)
    {
      hide ReferenceNeutral;
      var rest := touched;
      while rest != {}
        invariant rest <= touched
        invariant forall id | id in touched && id !in rest ::
                    id in owner && id in before && id in after
                      && ReferenceNeutral(id, before[id].shape, after[id].shape)
        decreases rest
      {
        var id :| id in rest;
        var skip := CanSkip(before, after, id);
        if id !in owner || !skip {
          return false;
        }
        rest := rest - {id};
      }
      ok := true;
    }

    /** One touched entity of the local path. */
    method CheckLocal(before: Objects, after: Objects, id: Uuid) returns (ok: bool)
      requires id in before && id in after ==> SameKind(before[id].shape, after[id].shape)
      ensures ok <==> LocalEdit(owner, before, after, id)
    {
      hide ReferencesOf, Links, OtherReferences, PointInOrder, LocalTarget;
      if id !in after || id !in owner || id !in before || !Local(after[id].shape) {
        return false;
      }
      if after[id].shape.DemandPoint? {
        if OtherReferences(ReferencesOf(id, Links(before[id].shape)))
           != OtherReferences(ReferencesOf(id, Links(after[id].shape))) {
          return false;
        }
        ok := CheckPoint(owner, after, owner[id], after[id].shape.attachment);
      } else {
        ok := CheckTargets(owner, after, owner[id], Links(after[id].shape));
      }
    }

    /** All touched entities, then the untouched demand points of moved pipes. */
    method LocalChecks(before: Objects, after: Objects, touched: set<Uuid>) returns (ok: bool)
      requires Edits(before, after, touched)
      ensures ok <==> AllLocal(owner, before, after, touched) && Dependents(owner, before, after, index, touched)
    {
      hide LocalEdit, PointInOrder, MovedPipe, LocallyOwned;
      var rest := touched;
      while rest != {}
        invariant rest <= touched && forall id | id in touched && id !in rest :: LocalEdit(owner, before, after, id)
        decreases rest
      {
        var id :| id in rest;
        var local := CheckLocal(before, after, id);
        if !local {
          return false;
        }
        rest := rest - {id};
      }
      ok := CheckDependents(before, after, touched);
    }

    method CheckDependents(before: Objects, after: Objects, touched: set<Uuid>) returns (ok: bool)
      ensures ok <==> Dependents(owner, before, after, index, touched)
    {
      hide Concerns, PointInOrder;
      var networks := index.Keys;
      while networks != {}
        invariant networks <= index.Keys
        invariant forall n, r | n in index && n !in networks && r in index[n] && Concerns(before, after, touched, r) ::
                    Holds(owner, after, n, r)
        decreases networks
      {
        var n :| n in networks;
        var entries := index[n];
        while entries != {}
          invariant entries <= index[n]
          invariant forall r | r in index[n] && r !in entries && Concerns(before, after, touched, r) ::
                      Holds(owner, after, n, r)
          decreases entries
        {
          var r :| r in entries;
          if Concerns(before, after, touched, r) {
            if !LocallyOwned(owner, after, n, r.source) || !after[r.source].shape.DemandPoint? {
              return false;
            }
            var point := CheckPoint(owner, after, n, after[r.source].shape.attachment);
            if !point {
              return false;
            }
          }
          entries := entries - {r};
        }
        networks := networks - {n};
      }
      ok := true;
    }

    /** Rewrites the index entries of the touched sources only. */
    method UpdateSources(before: Objects, after: Objects, touched: set<Uuid>)
      requires Owned(roots, owner) && index.Keys == roots.Keys && AllLocal(owner, before, after, touched)
      requires forall n, u | n in roots && u in roots[n].members :: u in before && u in after
      requires forall n | n in roots :: PartlyIndexed(index[n], roots[n], before, after, {})
      modifies this`index
      ensures index.Keys == roots.Keys
      ensures forall n | n in roots :: PartlyIndexed(index[n], roots[n], before, after, touched)
    {
      hide ReferencesOf, Links, LocalEdit, PartlyIndexed;
      var rest := touched;
      assert touched - rest == {};
      while rest != {}
        invariant rest <= touched && index.Keys == roots.Keys
        invariant forall n | n in roots :: PartlyIndexed(index[n], roots[n], before, after, touched - rest)
        decreases rest
      {
        var id :| id in rest;
        OwnedTouched(owner, before, after, touched, id);
        var network := owner[id];
        forall n | n in roots && n != network
          ensures PartlyIndexed(index[n], roots[n], before, after, touched - rest + {id})
        {
          IndexOther(index[n], roots[n], before, after, touched - rest, id);
        }
        IndexStep(index[network], roots[network], before, after, touched - rest, id);
        index := index[network := Replaced(index[network], id, ReferencesOf(id, Links(after[id].shape)))];
        assert touched - (rest - {id}) == touched - rest + {id};
        rest := rest - {id};
      }
      assert touched - rest == touched;
    }

    /** The full pass over one network: load, validate, recompute its index. */
    method ValidateFully(after: Objects, root: Root) returns (ok: bool)
      modifies this`index
      ensures ok <==> Listed(root) && Sound(root, after)
      ensures ok <==> Loadable(root) && NetworkRules.Ruled(root, after)
      ensures ok ==> root.id in index && forall r :: r in index[root.id] <==> NetworkRules.Entered(root, after, r)
      ensures ok ==> index.Keys == old(index.Keys) + {root.id} && NetworkModel.Indexes(index[root.id], root, after)
      ensures forall m | m in old(index) && m != root.id :: m in index && index[m] == old(index[m])
      ensures !ok ==> index == old(index)
    {
      hide IsNull, Links, ReferencesOf, Orderly, NetworkRules.Ruled, NetworkRules.Entered;
      LoadableIs(root);
      NetworkRules.SoundIs(root, after);
      var members := root.members;
      var seen := {root.id};
      for i := 0 to |members|
        invariant seen == {root.id} + set j | 0 <= j < i :: members[j]
        invariant forall j | 0 <= j < i :: !IsNull(members[j]) && members[j] != root.id && members[j] in after
        invariant forall j, k | 0 <= j < k < i :: members[j] != members[k]
      {
        var id := members[i];
        if IsNull(id) || id in seen || id !in after {
          assert id in root.members;
          return false;
        }
        seen := seen + {id};
      }
      var validator := new NetworkValidator.NetworkReferenceValidator(root, after);
      validator.Validate();
      if validator.issues > 0 {
        return false;
      }
      index := index[root.id := set r | r in validator.references];
      ok := true;
    }

    /**
     The validation of a transaction's final state. Whichever path is taken, it
     accepts exactly when the whole state is valid, networks that were not touched
     included, and no live row fell out of its network, `live` being the rows that
     are not tombstones, whether they decode or not; then every index is the
     recomputed one again and the membership table that of the new roots.
     */
    method ValidateTouched(before: Objects, after: Objects, live: set<Uuid>, changes: RootChanges, touched: set<Uuid>)
      returns (ok: bool)
      requires Consistent(roots, owner, index, before) && Edits(before, after, touched) && changes.Keys <= touched
      requires after.Keys <= live
      modifies this
      ensures ok <==>
                WellRooted(changes) && Kept(old(owner), changes, live)
                && Coherent(RootsAfter(old(roots), changes), after)
      ensures ok ==> roots == RootsAfter(old(roots), changes) && Consistent(roots, owner, index, after)
      ensures ok <==> Acceptable(old(roots), old(owner), changes, live, after)
      ensures ok ==> LeftBy(old(roots), changes, roots) && TablesRight(roots, owner, index, after)
    {
      hide *;
      AcceptableIs(roots, owner, changes, live, after);
      LeftIs(roots, changes, RootsAfter(roots, changes));
      ok := CheckTouched(before, after, live, changes, touched);
      if ok {
        TablesAre(roots, owner, index, after);
      }
    }

    /** The path taken depends on what was touched; the answer does not. */
    method CheckTouched(before: Objects, after: Objects, live: set<Uuid>, changes: RootChanges, touched: set<Uuid>)
      returns (ok: bool)
      requires Consistent(roots, owner, index, before) && Edits(before, after, touched) && changes.Keys <= touched
      requires after.Keys <= live
      modifies this
      ensures ok <==>
                WellRooted(changes) && Kept(old(owner), changes, live)
                && Coherent(RootsAfter(old(roots), changes), after)
      ensures ok ==> roots == RootsAfter(old(roots), changes) && Consistent(roots, owner, index, after)
    {
      hide Sound, Listed, NetworkModel.Indexes, Edits, AllNeutral, AllLocal, Dependents, Owned, Coherent, Consistent,
        RootsAfter;
      if touched == {} {
        assert changes == map[];
        NothingTouched(roots, owner, index, before, after);
        return true;
      }
      if !WellRooted(changes) {
        return false;
      }
      ok := CheckKept(live, changes);
      if !ok {
        return;
      }
      if changes == map[] && (exists u :: u in touched && u in owner) && |touched| <= MAX_INCREMENTAL {
        ok := FastPaths(before, after, touched);
        if ok {
          ConsistentCoherent(roots, owner, index, after);
          return;
        }
      }
      ok := ValidateAffected(before, after, changes, touched);
    }

    /** Neutral edits are accepted as they are; local ones after looking at their surroundings. */
    method FastPaths(before: Objects, after: Objects, touched: set<Uuid>) returns (ok: bool)
      requires Consistent(roots, owner, index, before) && Edits(before, after, touched)
      modifies this`index
      ensures ok ==> Consistent(roots, owner, index, after)
      ensures !ok ==> index == old(index)
    {
      hide Sound, Listed, NetworkModel.Indexes, Edits, AllNeutral, AllLocal, Dependents, Owned;
      var neutral := AllSkip(before, after, touched);
      if neutral {
        forall n | n in roots
          ensures NetworkOk(roots[n], index[n], after)
        {
          NeutralSound(roots[n], index[n], before, after, touched);
        }
        return true;
      }
      ok := LocalChecks(before, after, touched);
      if ok {
        AcceptLocal(before, after, touched);
      }
    }

    /** A changed root may drop an entity only if its row is gone, or another changed root took it. */
    method CheckKept(live: set<Uuid>, changes: RootChanges) returns (ok: bool)
      ensures ok <==> Kept(owner, changes, live)
    {
      var rest := changes.Keys;
      while rest != {}
        invariant rest <= changes.Keys
        invariant forall u | u in owner && owner[u] in changes && owner[u] !in rest && u in live ::
                    exists m :: m in changes && u in NewMembers(changes[m])
        decreases rest
      {
        var n :| n in rest;
        rest := rest - {n};
        if exists u :: u in owner && owner[u] == n && u !in NewMembers(changes[n])
                       && !(exists m :: m in changes && m != n && u in NewMembers(changes[m])) && u in live {
          return false;
        }
      }
      ok := true;
    }

    method AcceptLocal(before: Objects, after: Objects, touched: set<Uuid>)
      requires Consistent(roots, owner, index, before) && Edits(before, after, touched)
      requires AllLocal(owner, before, after, touched) && Dependents(owner, before, after, index, touched)
      modifies this`index
      ensures Consistent(roots, owner, index, after)
    {
      hide Sound, Listed, NetworkModel.Indexes, Edits, AllLocal, Dependents, Owned, PartlyIndexed;
      ghost var was := index;
      forall n | n in roots
        ensures Sound(roots[n], after)
        ensures forall u | u in roots[n].members :: u in before && u in after
        ensures PartlyIndexed(was[n], roots[n], before, after, {})
      {
        LocalSound(roots, owner, was, before, after, touched, n);
        MembersLive(roots[n], before);
        MembersLive(roots[n], after);
        IndexStart(was[n], roots[n], before, after);
      }
      UpdateSources(before, after, touched);
      forall n | n in roots
        ensures NetworkModel.Indexes(index[n], roots[n], after)
      {
        IndexDone(index[n], roots[n], before, after, touched);
      }
    }

    /** The full pass over every affected network that is still there. */
    method ValidateEach(after: Objects, changes: RootChanges, affected: set<Uuid>) returns (ok: bool)
      requires WellRooted(changes) && affected <= roots.Keys + changes.Keys
      requires index.Keys == roots.Keys && forall n | n in roots :: roots[n].id == n
      modifies this`index
      ensures ok <==> forall n | n in affected && n in RootsAfter(roots, changes) ::
                        Listed(RootsAfter(roots, changes)[n]) && Sound(RootsAfter(roots, changes)[n], after)
      ensures ok ==> old(index).Keys <= index.Keys <= old(index).Keys + RootsAfter(roots, changes).Keys
      ensures ok ==> forall n | n in affected && n in RootsAfter(roots, changes) ::
                       n in index && NetworkModel.Indexes(index[n], RootsAfter(roots, changes)[n], after)
      ensures ok ==> forall n | n in old(index) && n !in affected :: n in index && index[n] == old(index[n])
    {
      hide Sound, Listed, NetworkModel.Indexes;
      ghost var roots' := RootsAfter(roots, changes);
      var rest := affected;
      while rest != {}
        invariant rest <= affected && old(index).Keys <= index.Keys <= old(index).Keys + roots'.Keys
        invariant forall n | n in affected && n !in rest && n in roots' :: n in index
                    && NetworkOk(roots'[n], index[n], after)
        invariant forall n | n in old(index) && (n !in affected || n in rest) :: index[n] == old(index[n])
        decreases rest
      {
        var n :| n in rest;
        rest := rest - {n};
        if n in changes && changes[n].Deleted? {
          continue;
        }
        var root := if n in changes then changes[n].root else roots[n];
        assert n in roots' && root == roots'[n] && root.id == n;
        ok := ValidateFully(after, root);
        if !ok {
          return;
        }
      }
      ok := true;
    }

    /** The full pass over every affected network, then the tables of the changed roots. */
    method ValidateAffected(before: Objects, after: Objects, changes: RootChanges, touched: set<Uuid>)
      returns (ok: bool)
      requires Consistent(roots, owner, index, before) && Edits(before, after, touched) && changes.Keys <= touched
      requires WellRooted(changes)
      modifies this
      ensures ok <==> Coherent(RootsAfter(old(roots), changes), after)
      ensures ok ==> roots == RootsAfter(old(roots), changes) && Consistent(roots, owner, index, after)
    {
      hide Sound, Listed, NetworkModel.Indexes, Edits, Owned, Disjoint, Tabled;
      ghost var was, roots0, owner0 := index, roots, owner;
      AffectedKnown(roots, owner, touched);
      RootsNamed(roots, owner);
      OwnedTabled(roots, owner);
      var affected := (set u | u in touched && u in owner :: owner[u]) + changes.Keys;
      ok := ValidateEach(after, changes, affected);
      if !ok {
        return;
      }
      ok := ReplaceMemberships(changes);
      if !ok {
        return;
      }
      RestCoherent(roots0, owner0, was, changes, owner, before, after, touched);
      IndexSettled(roots0, owner0, was, changes, index, before, after, touched);
      index := map n | n in index && !(n in changes && changes[n].Deleted?) :: index[n];
      roots := RootsAfter(roots, changes);
      TabledOwned(roots, owner, after);
    }

    /** Clears the members of all changed roots, then enters the new ones; an entity can be entered once. */
    method ReplaceMemberships(changes: RootChanges) returns (ok: bool)
      requires Tabled(roots, owner)
      modifies this`owner
      ensures ok <==> Disjoint(RootsAfter(roots, changes))
      ensures ok ==> Tabled(RootsAfter(roots, changes), owner)
    {
      hide Tabled, Entered, Disjoint, RootsAfter;
      EnterNone(roots, owner, changes);
      owner := map u | u in owner && owner[u] !in changes :: owner[u];
      var rest := changes.Keys;
      assert changes.Keys - rest == {};
      while rest != {}
        invariant rest <= changes.Keys
        invariant Tabled(Entered(roots, changes, changes.Keys - rest), owner)
        decreases rest
      {
        var n :| n in rest;
        var members := set u | u in NewMembers(changes[n]);
        if exists u :: u in members && u in owner {
          ghost var u :| u in members && u in owner;
          EnterTwice(roots, owner, changes, changes.Keys - rest, n, u);
          return false;
        }
        EnterMore(roots, owner, changes, changes.Keys - rest, n, members);
        assert changes.Keys - (rest - {n}) == changes.Keys - rest + {n};
        rest := rest - {n};
        owner := owner + map u | u in members :: n;
      }
      assert changes.Keys - rest == changes.Keys;
      EnterAll(roots, changes);
      TabledDisjoint(RootsAfter(roots, changes), owner);
      ok := true;
    }
  }

  /** The indexes of the affected networks are recomputed, the others still right; those of deleted roots go. */
  lemma IndexSettled(roots: Roots, owner: Owners, was: Indexes, changes: RootChanges, index: Indexes, before: Objects,
                     after: Objects,
                     touched: set<Uuid>)
    requires Consistent(roots, owner, was, before) && Edits(before, after, touched) && changes.Keys <= touched
    requires Coherent(RootsAfter(roots, changes), after)
    requires was.Keys <= index.Keys <= was.Keys + RootsAfter(roots, changes).Keys
    requires forall n | n in Affected(owner, touched) + changes.Keys && n in RootsAfter(roots, changes) ::
               n in index && NetworkModel.Indexes(index[n], RootsAfter(roots, changes)[n], after)
    requires forall n | n in was && n !in Affected(owner, touched) + changes.Keys :: n in index && index[n] == was[n]
    requires WellRooted(changes)
    ensures var index' := map n | n in index && !(n in changes && changes[n].Deleted?) :: index[n];
      && index'.Keys == RootsAfter(roots, changes).Keys
      && forall n | n in index' :: NetworkOk(RootsAfter(roots, changes)[n], index'[n], after)
  {
    hide Sound, Listed, NetworkModel.Indexes, Edits, Owned, Disjoint;
    StillConsistent(roots, owner, was, before, after, touched, Affected(owner, touched));
    var roots' := RootsAfter(roots, changes);
    var index' := map n | n in index && !(n in changes && changes[n].Deleted?) :: index[n];
    forall n
      ensures n in index' <==> n in roots'
    {
      if n in roots' && n !in changes { assert n in was; }
    }
    forall n | n in index'
      ensures NetworkOk(roots'[n], index'[n], after)
    {
      if n !in Affected(owner, touched) + changes.Keys { assert NetworkOk(roots[n], was[n], after); }
    }
  }

  lemma EnterAll(roots: Roots, changes: RootChanges)
    ensures Entered(roots, changes, changes.Keys) == RootsAfter(roots, changes)
  {}

  lemma RootsNamed(roots: Roots, owner: Owners)
    requires Owned(roots, owner)
    ensures forall n | n in roots :: roots[n].id == n
  {}

  lemma TabledOwned(roots: Roots, owner: Owners, objects: Objects)
    requires Tabled(roots, owner) && Coherent(roots, objects)
    ensures Owned(roots, owner)
  {
    hide Sound;
    forall n | n in roots
      ensures roots[n].id == n && n !in roots[n].members
    {
      assert Listed(roots[n]);
    }
  }

  lemma NothingTouched(roots: Roots, owner: Owners, index: Indexes, before: Objects, after: Objects)
    requires Consistent(roots, owner, index, before) && Edits(before, after, {})
    ensures RootsAfter(roots, map[]) == roots && Consistent(roots, owner, index, after) && Coherent(roots, after)
  {
    hide Sound, Listed, NetworkModel.Indexes, Edits, Owned, NetworkOk;
    StillConsistent(roots, owner, index, before, after, {}, {});
    ConsistentCoherent(roots, owner, index, after);
  }

  lemma OwnedTouched(owner: Owners, before: Objects, after: Objects, touched: set<Uuid>, id: Uuid)
    requires AllLocal(owner, before, after, touched) && id in touched
    ensures id in owner && id in after
  {}

  lemma AffectedKnown(roots: Roots, owner: Owners, touched: set<Uuid>)
    requires Owned(roots, owner)
    ensures Affected(owner, touched) <= roots.Keys
  {}

  lemma MembersLive(root: Root, objects: Objects)
    requires Sound(root, objects)
    ensures forall id | id in root.members :: id in objects
  {}

  lemma IndexStart(index: set<Reference>, root: Root, before: Objects, after: Objects)
    requires (forall id | id in root.members :: id in before && id in after)
               && NetworkModel.Indexes(index, root, before)
    ensures PartlyIndexed(index, root, before, after, {})
  {}

  /** Networks outside the affected ones are as before. */
  lemma StillConsistent(roots: Roots, owner: Owners, index: Indexes, before: Objects, after: Objects,
                        touched: set<Uuid>, affected: set<Uuid>)
    requires Consistent(roots, owner, index, before) && Edits(before, after, touched)
               && affected == Affected(owner, touched)
    ensures forall n | n in roots && n !in affected :: NetworkOk(roots[n], index[n], after)
  {
    hide NetworkOk, Owned, Edits;
    forall n | n in roots && n !in affected
      ensures NetworkOk(roots[n], index[n], after)
    {
      UnaffectedSame(roots, owner, index, before, after, touched, n);
    }
  }
}
