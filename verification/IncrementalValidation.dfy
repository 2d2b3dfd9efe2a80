/** The fast paths that spare a full validation, and why they are sound. */
module IncrementalValidation {
  import opened Prelude
  import opened Uuid
  import opened NetworkModel
  import NetworkValidator

  const MAX_INCREMENTAL: nat := 32

  type Roots = map<Uuid, Root>
  type Owners = map<Uuid, Uuid>
  type Indexes = map<Uuid, set<Reference>>

  /** The membership table is exactly what the roots list; no entity is in two networks. */
  ghost predicate Owned(roots: Roots, owner: Owners) {
    && (forall n | n in roots :: roots[n].id == n && n !in roots[n].members)
    && (forall n, u | n in roots && u in roots[n].members :: u in owner && owner[u] == n)
    && forall u | u in owner :: owner[u] in roots && u in roots[owner[u]].members
  }

  /** Every network loads and passed the full validation, and its index is the recomputed one. */
  ghost predicate Consistent(roots: Roots, owner: Owners, index: Indexes, objects: Objects) {
    Owned(roots, owner) && index.Keys == roots.Keys
    && forall n | n in roots :: NetworkOk(roots[n], index[n], objects)
  }

  ghost predicate NetworkOk(root: Root, index: set<Reference>, objects: Objects) {
    Listed(root) && Sound(root, objects) && NetworkModel.Indexes(index, root, objects)
  }

  /** An edit group changes touched rows only, and never a row's kind. */
  ghost predicate Edits(before: Objects, after: Objects, touched: set<Uuid>) {
    && (forall u | u !in touched :: Get(before, u) == Get(after, u))
    && forall u | u in before && u in after :: SameKind(before[u].shape, after[u].shape)
  }

  lemma KindFits(a: Shape, b: Shape, c: Category)
    requires SameKind(a, b)
    ensures Fits(a, c) <==> Fits(b, c)
  {}

  // --------------------------------------------------------------- neutral edits

  /** Within one kind of entity a field always asks for the same category; only rule premises do not. */
  function CategoryOf(f: Field): Category {
    match f
    case Demands => APattern
    case Quality => APattern
    case HeadPattern => APattern
    case From => AnyNode
    case To => AnyNode
    case MaterialOf => AMaterial
    case HeadCurveOf => AHeadCurve
    case SpeedPattern => APattern
    case EfficiencyOf => AnEfficiencyCurve
    case PricePattern => APattern
    case HeadlossOf => AHeadlossCurve
    case CharacteristicOf => ACharacteristicCurve
    case AttachedPipe => OnlyPipe
    case AssignedJunction => OnlyJunction
    case AttachedJunction => OnlyJunction
    case ControlledLink => AnyLink
    case TriggerNode => AnyNode
    case PremiseObject => AnyLink
    case ThenLink => AnyLink
    case ElseLink => AnyLink
    case Anchor => AnyNode
    case RootOption => APattern
  }

  predicate Typed(links: seq<Link>) {
    forall i | 0 <= i < |links| :: links[i].category == CategoryOf(links[i].field)
  }

  lemma TypedJoin(a: seq<Link>, b: seq<Link>)
    requires Typed(a) && Typed(b)
    ensures Typed(a + b)
  {
    hide CategoryOf;
  }

  lemma DemandsTyped(demands: seq<Uuid>)
    ensures Typed(Each(demands, Demands, APattern))
  {}

  lemma FixedTyped(s: Shape)
    requires !s.Junction? && !s.DemandPoint? && !s.Rule?
    ensures Typed(Links(s))
  {}

  lemma LinkCategories(s: Shape, i: nat)
    requires !s.Rule? && i < |Links(s)|
    ensures Links(s)[i].category == CategoryOf(Links(s)[i].field)
  {
    hide CategoryOf, Each;
    match s
    case Junction(demands, quality) =>
      DemandsTyped(demands);
      QualityTyped(quality);
      TypedJoin(Each(demands, Demands, APattern), [Link(quality, Quality, APattern)]);
    case DemandPoint(demands, attachment) =>
      DemandsTyped(demands);
      AttachmentTyped(attachment);
      TypedJoin(Each(demands, Demands, APattern), AttachmentLinks(attachment));
    case _ =>
      FixedTyped(s);
  }

  lemma QualityTyped(quality: Uuid)
    ensures Typed([Link(quality, Quality, APattern)])
  {}

  lemma AttachmentTyped(a: Attachment)
    ensures Typed(AttachmentLinks(a))
  {}

  /** The edit keeps everything the reference validator observes of the entity. */
  predicate ReferenceNeutral(id: Uuid, before: Shape, after: Shape) {
    && !after.Rule? && SameKind(before, after)
    && ReferencesOf(id, Links(before)) == ReferencesOf(id, Links(after))
    && (after.DemandPoint? ==>
          && before.attachment.kind == after.attachment.kind
          && before.attachment.assignedMode == after.attachment.assignedMode
          && (after.attachment.kind.ToPipe? ==> after.attachment.positionInRange))
  }

  /** A set link of the new state was a set link of the old one, with the same demand on its target. */
  lemma NeutralLink(id: Uuid, before: Shape, after: Shape, i: nat) returns (j: nat)
    requires ReferenceNeutral(id, before, after) && i < |Links(after)| && !IsNull(Links(after)[i].target)
    ensures j < |Links(before)| && Links(before)[j] == Links(after)[i]
  {
    hide IsNull, Links;
    var link := Links(after)[i];
    var r := Reference(id, link.target, link.field);
    ReferenceIsLink(id, Links(after), r);
    ReferenceIsLink(id, Links(before), r);
    j :| 0 <= j < |Links(before)| && Links(before)[j].target == r.target && Links(before)[j].field == r.field;
    LinkCategories(before, j);
    LinkCategories(after, i);
  }

  /** A resolved link stays resolved when its target keeps its kind. */
  lemma StillResolved(root: Root, before: Objects, after: Objects, touched: set<Uuid>, link: Link)
    requires Edits(before, after, touched) && Resolved(root, before, link)
    requires forall id | id in root.members :: id in after
    ensures Resolved(root, after, link)
  {
    hide IsNull, Fits;
    if !IsNull(link.target) { KindFits(before[link.target].shape, after[link.target].shape, link.category); }
  }

  /** Endpoints of a pipe that are part of its references are kept by a neutral edit. */
  lemma NeutralEnds(id: Uuid, before: Shape, after: Shape, junction: Uuid)
    requires before.Pipe? && ReferenceNeutral(id, before, after) && !IsNull(junction) && EndsAt(before, junction)
    ensures after.Pipe? && EndsAt(after, junction)
  {
    hide IsNull;
    var field := if before.from == junction then From else To;
    var r := Reference(id, junction, field);
    assert Links(before)[if before.from == junction then 0 else 1] == Link(junction, field, AnyNode);
    ReferenceIsLink(id, Links(before), r);
    ReferenceIsLink(id, Links(after), r);
  }

  /** A demand point's set attachment targets are the same before and after a neutral edit. */
  lemma NeutralAttachment(id: Uuid, before: Shape, after: Shape)
    requires after.DemandPoint? && ReferenceNeutral(id, before, after) && after.attachment.kind.ToPipe?
    ensures before.DemandPoint? && before.attachment.kind.ToPipe?
    ensures !IsNull(after.attachment.pipe) ==> before.attachment.pipe == after.attachment.pipe
    ensures after.attachment.assignedMode && !IsNull(after.attachment.endpoint) ==>
              before.attachment.endpoint == after.attachment.endpoint
  {
    hide IsNull;
    var n, m := |after.demands|, |before.demands|;
    assert Links(after)[n] == Link(after.attachment.pipe, AttachedPipe, OnlyPipe);
    assert after.attachment.assignedMode ==>
      Links(after)[n + 1] == Link(after.attachment.endpoint, AssignedJunction, OnlyJunction);
    if !IsNull(after.attachment.pipe) {
      var j := NeutralLink(id, before, after, n);
      AttachmentField(before, j);
    }
    if after.attachment.assignedMode && !IsNull(after.attachment.endpoint) {
      var j := NeutralLink(id, before, after, n + 1);
      AttachmentField(before, j);
    }
  }

  lemma AttachmentField(s: Shape, j: nat)
    requires s.DemandPoint? && s.attachment.kind.ToPipe? && j < |Links(s)|
    ensures Links(s)[j].field == AttachedPipe ==> Links(s)[j].target == s.attachment.pipe
    ensures Links(s)[j].field == AssignedJunction ==> Links(s)[j].target == s.attachment.endpoint
  {
    if j >= |s.demands| { assert Links(s)[j] == AttachmentLinks(s.attachment)[j - |s.demands|]; }
  }

  ghost predicate AllNeutral(before: Objects, after: Objects, ids: set<Uuid>) {
    forall id | id in ids :: id in before && id in after && ReferenceNeutral(id, before[id].shape, after[id].shape)
  }

  /** Every pipe still ends where an assigned demand point needs it to. */
  lemma NeutralPipe(before: Objects, after: Objects, touched: set<Uuid>, pipe: Uuid, junction: Uuid)
    requires Edits(before, after, touched) && AllNeutral(before, after, touched) && pipe in before
               && before[pipe].shape.Pipe?
    requires !IsNull(junction) && EndsAt(before[pipe].shape, junction)
    ensures pipe in after && after[pipe].shape.Pipe? && EndsAt(after[pipe].shape, junction)
  {
    hide IsNull, ReferenceNeutral, EndsAt;
    if pipe in touched {
      NeutralEnds(pipe, before[pipe].shape, after[pipe].shape, junction);
    } else {
      assert Get(before, pipe) == Get(after, pipe);
    }
  }

  /** A member of a network stays orderly when all touched entities were edited neutrally. */
  lemma NeutralMember(root: Root, before: Objects, after: Objects, touched: set<Uuid>, id: Uuid)
    requires Edits(before, after, touched) && AllNeutral(before, after, touched) && id in root.members && id in before
               && id in after
    requires (forall u | u in root.members :: u in before && u in after) && Orderly(root, before, before[id].shape)
    ensures Orderly(root, after, after[id].shape)
  {
    hide IsNull, Links, ReferenceNeutral, EndsAt, Fits;
    var s, s' := before[id].shape, after[id].shape;
    assert id !in touched ==> Get(before, id) == Get(after, id);
    forall i | 0 <= i < |Links(s')|
      ensures Resolved(root, after, Links(s')[i])
    {
      if id in touched && !IsNull(Links(s')[i].target) {
        var j := NeutralLink(id, s, s', i);
        StillResolved(root, before, after, touched, Links(s')[i]);
      } else if id !in touched {
        StillResolved(root, before, after, touched, Links(s')[i]);
      }
    }
    if s'.DemandPoint? && s'.attachment.kind.ToPipe? {
      NeutralAttached(root, before, after, touched, id);
    }
  }

  lemma NeutralAttached(root: Root, before: Objects, after: Objects, touched: set<Uuid>, id: Uuid)
    requires Edits(before, after, touched) && AllNeutral(before, after, touched) && id in before && id in after
    requires (forall u | u in root.members :: u in before && u in after) && Orderly(root, before, before[id].shape)
    requires after[id].shape.DemandPoint? && after[id].shape.attachment.kind.ToPipe?
    ensures Attached(root, after, after[id].shape.attachment)
  {
    hide IsNull, Links, EndsAt, Fits, ReferencesOf;
    var a := after[id].shape.attachment;
    if id in touched {
      NeutralAttachment(id, before[id].shape, after[id].shape);
    } else {
      assert Get(before, id) == Get(after, id);
    }
    if a.assignedMode && !IsNull(a.pipe) && !IsNull(a.endpoint) && Member(root, after, a.pipe)
      && after[a.pipe].shape.Pipe? {
      NeutralPipe(before, after, touched, a.pipe, a.endpoint);
    }
  }

  /** Neutral edits leave a sound network sound, with the very same index. */
  lemma NeutralSound(root: Root, index: set<Reference>, before: Objects, after: Objects, touched: set<Uuid>)
    requires Edits(before, after, touched) && AllNeutral(before, after, touched) && NetworkOk(root, index, before)
    ensures NetworkOk(root, index, after)
  {
    hide IsNull, Links, ReferencesOf, Orderly, ReferenceNeutral, Resolved;
    forall id | id in root.members
      ensures id in after && SameKind(before[id].shape, after[id].shape)
      ensures ReferencesOf(id, Links(before[id].shape)) == ReferencesOf(id, Links(after[id].shape))
    {
      SameReferences(before, after, touched, id);
    }
    SameIdentities(root, before, after);
    forall id | id in root.members
      ensures Orderly(root, after, after[id].shape)
    {
      NeutralMember(root, before, after, touched, id);
    }
    forall i | 0 <= i < |root.options|
      ensures Resolved(root, after, root.options[i])
    {
      StillResolved(root, before, after, touched, root.options[i]);
    }
  }

  lemma SameReferences(before: Objects, after: Objects, touched: set<Uuid>, id: Uuid)
    requires Edits(before, after, touched) && AllNeutral(before, after, touched) && id in before
    ensures id in after && SameKind(before[id].shape, after[id].shape)
    ensures ReferencesOf(id, Links(before[id].shape)) == ReferencesOf(id, Links(after[id].shape))
  {
    hide Links, ReferencesOf;
    if id !in touched { assert Get(before, id) == Get(after, id); }
  }

  lemma SameIdentities(root: Root, before: Objects, after: Objects)
    requires forall id | id in root.members :: id in before && id in after
               && SameKind(before[id].shape, after[id].shape)
    requires Identified(root, before)
    ensures Identified(root, after)
  {
    hide IsNull;
    forall i | 0 <= i < |root.members|
      ensures Registered(after[root.members[i]].shape) <==> Registered(before[root.members[i]].shape)
    {
      assert root.members[i] in root.members;
    }
  }
}
