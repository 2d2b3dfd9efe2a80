/** The bounded structural path: moved links and reattached demand points, checked against their network only. */
module LocalValidation {
  import opened Prelude
  import opened Uuid
  import opened NetworkModel
  import opened IncrementalValidation
  import NetworkValidator

  // ------------------------------------------------------------------ local checks

  /** Kinds the local path handles. */
  predicate Local(s: Shape) {
    s.Pipe? || s.Pump? || s.Valve? || s.DemandPoint?
  }

  predicate MovedPipe(before: Shape, after: Shape) {
    before.Pipe? && after.Pipe? && (before.from != after.from || before.to != after.to)
  }

  function OtherReferences(refs: seq<Reference>): seq<Reference> {
    if refs == [] then [] else
      (if refs[0].field.AttachedPipe? || refs[0].field.AssignedJunction? || refs[0].field.AttachedJunction? then []
       else [refs[0]])
      + OtherReferences(refs[1..])
  }

  /** A live object of this very network. */
  predicate LocallyOwned(owner: Owners, objects: Objects, network: Uuid, id: Uuid) {
    id in owner && owner[id] == network && id in objects
  }

  /** Unset, or a live object of the network with the demanded kind. */
  predicate LocalTarget(owner: Owners, objects: Objects, network: Uuid, link: Link) {
    IsNull(link.target) || (LocallyOwned(owner, objects, network, link.target)
                            && Fits(objects[link.target].shape, link.category))
  }

  method CheckTargets(owner: Owners, objects: Objects, network: Uuid, links: seq<Link>) returns (ok: bool)
    ensures ok <==> forall i | 0 <= i < |links| :: LocalTarget(owner, objects, network, links[i])
  {
    for i := 0 to |links|
      invariant forall j | 0 <= j < i :: LocalTarget(owner, objects, network, links[j])
    {
      if !LocalTarget(owner, objects, network, links[i]) {
        return false;
      }
    }
    ok := true;
  }

  /** A demand point's attachment, against the final state of its network. */
  predicate PointInOrder(owner: Owners, objects: Objects, network: Uuid, a: Attachment) {
    && (forall i | 0 <= i < |AttachmentLinks(a)| :: LocalTarget(owner, objects, network, AttachmentLinks(a)[i]))
    && (a.kind.ToPipe? ==>
          && a.positionInRange
          && (a.assignedMode && !IsNull(a.pipe) && !IsNull(a.endpoint) ==>
                LocallyOwned(owner, objects, network, a.pipe) && objects[a.pipe].shape.Pipe?
                  && EndsAt(objects[a.pipe].shape, a.endpoint)))
  }

  method CheckPoint(owner: Owners, objects: Objects, network: Uuid, a: Attachment) returns (ok: bool)
    ensures ok <==> PointInOrder(owner, objects, network, a)
  {
    if a.kind.ToJunction? {
      ghost var only := AttachmentLinks(a);
      assert |only| == 1 && only[0] == Link(a.junction, AttachedJunction, OnlyJunction);
      return LocalTarget(owner, objects, network, Link(a.junction, AttachedJunction, OnlyJunction));
    }
    if !a.kind.ToPipe? {
      return true;
    }
    if !a.positionInRange {
      return false;
    }
    ghost var links := AttachmentLinks(a);
    assert links[0] == Link(a.pipe, AttachedPipe, OnlyPipe);
    if !LocalTarget(owner, objects, network, Link(a.pipe, AttachedPipe, OnlyPipe)) {
      return false;
    }
    if !a.assignedMode {
      return true;
    }
    assert links[1] == Link(a.endpoint, AssignedJunction, OnlyJunction);
    if !LocalTarget(owner, objects, network, Link(a.endpoint, AssignedJunction, OnlyJunction)) {
      return false;
    }
    if IsNull(a.pipe) || IsNull(a.endpoint) {
      return true;
    }
    if !LocallyOwned(owner, objects, network, a.pipe) || !objects[a.pipe].shape.Pipe? {
      return false;
    }
    ok := objects[a.pipe].shape.from == a.endpoint || objects[a.pipe].shape.to == a.endpoint;
  }

  /** What the local path demands of one touched entity. */
  predicate LocalEdit(owner: Owners, before: Objects, after: Objects, id: Uuid) {
    && id in owner && id in before && id in after && Local(after[id].shape)
    && SameKind(before[id].shape, after[id].shape)
    && (after[id].shape.DemandPoint? ==>
          && OtherReferences(ReferencesOf(id, Links(before[id].shape)))
               == OtherReferences(ReferencesOf(id, Links(after[id].shape)))
          && PointInOrder(owner, after, owner[id], after[id].shape.attachment))
    && (!after[id].shape.DemandPoint? ==>
          forall i | 0 <= i < |Links(after[id].shape)| ::
            LocalTarget(owner, after, owner[id], Links(after[id].shape)[i]))
  }

  /** The old index names every demand point on a moved pipe, and each is still in order. */
  ghost predicate Dependents(owner: Owners, before: Objects, after: Objects, index: Indexes, touched: set<Uuid>) {
    forall n, r | n in index && r in index[n] && Concerns(before, after, touched, r) :: Holds(owner, after, n, r)
  }

  /** The entry attaches a demand point to a moved pipe. */
  predicate Concerns(before: Objects, after: Objects, touched: set<Uuid>, r: Reference) {
    r.field.AttachedPipe? && r.target in touched && r.target in before && r.target in after
    && MovedPipe(before[r.target].shape, after[r.target].shape)
  }

  /** The demand point that an entry names is in order in its network. */
  predicate Holds(owner: Owners, after: Objects, n: Uuid, r: Reference) {
    LocallyOwned(owner, after, n, r.source) && after[r.source].shape.DemandPoint?
    && PointInOrder(owner, after, n, after[r.source].shape.attachment)
  }

  // --------------------------------------------------------------------- soundness

  /** In its network, what is locally owned is exactly a live member. */
  lemma OwnedIsMember(roots: Roots, owner: Owners, objects: Objects, network: Uuid, id: Uuid)
    requires Owned(roots, owner) && network in roots
    ensures LocallyOwned(owner, objects, network, id) <==> Member(roots[network], objects, id)
  {}

  lemma LocalResolves(roots: Roots, owner: Owners, objects: Objects, network: Uuid, link: Link)
    requires Owned(roots, owner) && network in roots
    ensures LocalTarget(owner, objects, network, link) <==> Resolved(roots[network], objects, link)
  {
    hide IsNull, Fits;
    OwnedIsMember(roots, owner, objects, network, link.target);
  }

  lemma PointAttached(roots: Roots, owner: Owners, objects: Objects, network: Uuid, a: Attachment)
    requires Owned(roots, owner) && network in roots && PointInOrder(owner, objects, network, a)
    ensures Attached(roots[network], objects, a)
    ensures forall i | 0 <= i < |AttachmentLinks(a)| :: Resolved(roots[network], objects, AttachmentLinks(a)[i])
  {
    hide IsNull, Fits, Owned, LocalTarget, Resolved, AttachmentLinks;
    OwnedIsMember(roots, owner, objects, network, a.pipe);
    forall i | 0 <= i < |AttachmentLinks(a)|
      ensures Resolved(roots[network], objects, AttachmentLinks(a)[i])
    {
      LocalResolves(roots, owner, objects, network, AttachmentLinks(a)[i]);
    }
  }

  lemma {:induction false} OtherHas(refs: seq<Reference>, r: Reference)
    ensures r in OtherReferences(refs) <==>
            r in refs && !(r.field.AttachedPipe? || r.field.AssignedJunction? || r.field.AttachedJunction?)
  {
    if refs != [] { OtherHas(refs[1..], r); }
  }

  /** A set demand of the edited point was one of the old point. */
  lemma SameDemand(id: Uuid, before: Shape, after: Shape, i: nat) returns (j: nat)
    requires before.DemandPoint? && after.DemandPoint? && i < |after.demands| && !IsNull(after.demands[i])
    requires OtherReferences(ReferencesOf(id, Links(before))) == OtherReferences(ReferencesOf(id, Links(after)))
    ensures j < |Links(before)| && Links(before)[j] == Links(after)[i] == Link(after.demands[i], Demands, APattern)
  {
    hide IsNull;
    assert Links(after)[i] == Link(after.demands[i], Demands, APattern);
    var r := Reference(id, after.demands[i], Demands);
    ReferenceIsLink(id, Links(after), r);
    OtherHas(ReferencesOf(id, Links(after)), r);
    OtherHas(ReferencesOf(id, Links(before)), r);
    ReferenceIsLink(id, Links(before), r);
    j :| 0 <= j < |Links(before)| && Links(before)[j].target == r.target && Links(before)[j].field == r.field;
    LinkCategories(before, j);
  }

  ghost predicate AllLocal(owner: Owners, before: Objects, after: Objects, touched: set<Uuid>) {
    forall id | id in touched :: LocalEdit(owner, before, after, id)
  }

  /** A touched member is in order after the local checks. */
  lemma TouchedOrderly(roots: Roots, owner: Owners, before: Objects, after: Objects, touched: set<Uuid>, n: Uuid,
                       id: Uuid)
    requires Owned(roots, owner) && n in roots && Edits(before, after, touched) && LocalEdit(owner, before, after, id)
    requires id in roots[n].members && owner[id] == n && Orderly(roots[n], before, before[id].shape)
    requires forall u | u in roots[n].members :: u in after
    ensures Orderly(roots[n], after, after[id].shape)
  {
    hide IsNull, Fits, Owned, LocalTarget, Resolved, ReferencesOf, OtherReferences, PointInOrder;
    var s, s' := before[id].shape, after[id].shape;
    if s'.DemandPoint? {
      PointAttached(roots, owner, after, n, s'.attachment);
      forall i | 0 <= i < |Links(s')|
        ensures Resolved(roots[n], after, Links(s')[i])
      {
        if i < |s'.demands| {
          DemandResolved(roots[n], before, after, touched, id, i);
        } else {
          assert Links(s')[i] == AttachmentLinks(s'.attachment)[i - |s'.demands|];
        }
      }
    } else {
      forall i | 0 <= i < |Links(s')|
        ensures Resolved(roots[n], after, Links(s')[i])
      {
        LocalResolves(roots, owner, after, n, Links(s')[i]);
      }
    }
  }

  lemma DemandResolved(root: Root, before: Objects, after: Objects, touched: set<Uuid>, id: Uuid, i: nat)
    requires Edits(before, after, touched) && id in before && id in after && before[id].shape.DemandPoint?
               && after[id].shape.DemandPoint?
    requires OtherReferences(ReferencesOf(id, Links(before[id].shape)))
               == OtherReferences(ReferencesOf(id, Links(after[id].shape)))
    requires i < |after[id].shape.demands| && Orderly(root, before, before[id].shape) && forall u | u in root.members ::
               u in after
    ensures Resolved(root, after, Links(after[id].shape)[i])
  {
    hide IsNull, Fits, ReferencesOf, OtherReferences;
    var s, s' := before[id].shape, after[id].shape;
    assert Links(s')[i] == Link(s'.demands[i], Demands, APattern);
    if !IsNull(s'.demands[i]) {
      var j := SameDemand(id, s, s', i);
      StillResolved(root, before, after, touched, Links(s')[i]);
    }
  }

  /** An untouched member is still in order: its targets kept their kinds, and if its pipe moved, it was rechecked. */
  lemma UntouchedOrderly(roots: Roots, owner: Owners, index: Indexes, before: Objects, after: Objects,
                         touched: set<Uuid>, n: Uuid, id: Uuid)
    requires Owned(roots, owner) && n in roots && n in index && Edits(before, after, touched)
               && AllLocal(owner, before, after, touched)
    requires NetworkOk(roots[n], index[n], before) && Dependents(owner, before, after, index, touched)
    requires id in roots[n].members && id !in touched && forall u | u in roots[n].members :: u in after
    ensures Orderly(roots[n], after, after[id].shape)
  {
    hide IsNull, Fits, Owned, LocalTarget, ReferencesOf, PointInOrder, Links, LocalEdit, EndsAt, NetworkModel.Indexes;
    assert Get(before, id) == Get(after, id);
    var s := after[id].shape;
    forall i | 0 <= i < |Links(s)|
      ensures Resolved(roots[n], after, Links(s)[i])
    {
      StillResolved(roots[n], before, after, touched, Links(s)[i]);
    }
    if s.DemandPoint? && s.attachment.kind.ToPipe? {
      UntouchedAttached(roots, owner, index, before, after, touched, n, id);
    }
  }

  lemma UntouchedAttached(roots: Roots, owner: Owners, index: Indexes, before: Objects, after: Objects,
                          touched: set<Uuid>, n: Uuid, id: Uuid)
    requires Owned(roots, owner) && n in roots && n in index && Edits(before, after, touched)
               && AllLocal(owner, before, after, touched)
    requires NetworkOk(roots[n], index[n], before) && Dependents(owner, before, after, index, touched)
    requires id in roots[n].members && id in before && id in after && before[id] == after[id]
               && forall u | u in roots[n].members :: u in after
    requires after[id].shape.DemandPoint? && after[id].shape.attachment.kind.ToPipe?
    ensures Attached(roots[n], after, after[id].shape.attachment)
  {
    hide IsNull, Fits, Owned, LocalTarget, PointInOrder, LocalEdit, Resolved, ReferencesOf;
    var a := after[id].shape.attachment;
    if a.assignedMode && !IsNull(a.pipe) && !IsNull(a.endpoint) && Member(roots[n], after, a.pipe)
      && after[a.pipe].shape.Pipe? {
      assert Orderly(roots[n], before, before[id].shape);
      if MovedPipe(before[a.pipe].shape, after[a.pipe].shape) {
        assert a.pipe in touched by { assert a.pipe !in touched ==> Get(before, a.pipe) == Get(after, a.pipe); }
        var r := Reference(id, a.pipe, AttachedPipe);
        assert Links(after[id].shape)[|after[id].shape.demands|] == Link(a.pipe, AttachedPipe, OnlyPipe);
        ReferenceIsLink(id, Links(after[id].shape), r);
        assert r in index[n];
        assert Concerns(before, after, touched, r) && Holds(owner, after, n, r);
        PointAttached(roots, owner, after, n, a);
      }
    }
  }

  /** The index with one source's entries replaced. */
  function Replaced(index: set<Reference>, source: Uuid, refs: seq<Reference>): set<Reference> {
    (set r | r in index && r.source != source) + set r | r in refs
  }

  /** After the local checks a sound network is sound. */
  lemma LocalSound(roots: Roots, owner: Owners, index: Indexes, before: Objects, after: Objects, touched: set<Uuid>,
                   n: Uuid)
    requires Owned(roots, owner) && n in roots && n in index && Edits(before, after, touched)
               && AllLocal(owner, before, after, touched)
    requires NetworkOk(roots[n], index[n], before) && Dependents(owner, before, after, index, touched)
    ensures Sound(roots[n], after)
  {
    hide IsNull, Links, ReferencesOf, Orderly, Resolved, Dependents, NetworkModel.Indexes;
    forall id | id in roots[n].members
      ensures id in after && SameKind(before[id].shape, after[id].shape)
    {
      if id in touched { assert LocalEdit(owner, before, after, id); }
        else { assert Get(before, id) == Get(after, id); }
    }
    SameIdentities(roots[n], before, after);
    forall id | id in roots[n].members
      ensures Orderly(roots[n], after, after[id].shape)
    {
      if id in touched {
        assert LocalEdit(owner, before, after, id);
        TouchedOrderly(roots, owner, before, after, touched, n, id);
      } else {
        UntouchedOrderly(roots, owner, index, before, after, touched, n, id);
      }
    }
    forall i | 0 <= i < |roots[n].options|
      ensures Resolved(roots[n], after, roots[n].options[i])
    {
      StillResolved(roots[n], before, after, touched, roots[n].options[i]);
    }
  }

  /** The index is right for the members already rewritten and for the untouched ones. */
  ghost predicate PartlyIndexed(index: set<Reference>, root: Root, before: Objects, after: Objects, done: set<Uuid>)
    requires forall id | id in root.members :: id in before && id in after
  {
    forall r :: r in index <==>
      (r.source in root.members
       && r in ReferencesOf(r.source,
                            Links(if r.source in done then after[r.source].shape else before[r.source].shape)))
      || (r.source == root.id && r in ReferencesOf(root.id, root.options))
  }

  lemma IndexStep(index: set<Reference>, root: Root, before: Objects, after: Objects, done: set<Uuid>, id: Uuid)
    requires (forall u | u in root.members :: u in before && u in after)
               && PartlyIndexed(index, root, before, after, done)
    requires id in root.members && root.id !in root.members
    ensures PartlyIndexed(Replaced(index, id, ReferencesOf(id, Links(after[id].shape))), root, before, after,
                          done + {id})
  {
    hide Links, ReferencesOf;
    NetworkValidator.SourcesOf(id, Links(after[id].shape));
  }

  lemma IndexOther(index: set<Reference>, root: Root, before: Objects, after: Objects, done: set<Uuid>, id: Uuid)
    requires (forall u | u in root.members :: u in before && u in after)
               && PartlyIndexed(index, root, before, after, done)
    requires id !in root.members
    ensures PartlyIndexed(index, root, before, after, done + {id})
  {
    hide Links, ReferencesOf;
  }

  lemma IndexDone(index: set<Reference>, root: Root, before: Objects, after: Objects, touched: set<Uuid>)
    requires (forall u | u in root.members :: u in before && u in after) && Edits(before, after, touched)
    requires PartlyIndexed(index, root, before, after, touched)
    ensures NetworkModel.Indexes(index, root, after)
  {
    hide Links, ReferencesOf;
    forall u | u in root.members && u !in touched
      ensures before[u] == after[u]
    {
      assert Get(before, u) == Get(after, u);
    }
  }
}
