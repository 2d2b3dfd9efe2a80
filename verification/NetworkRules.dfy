/** What a network must be and what its reference index holds, told by the fields of its entities alone. */
module NetworkRules {
  import opened Prelude
  import opened Uuid
  import opened NetworkModel

  predicate Node(s: Shape) {
    s.Junction? || s.Reservoir? || s.Tank?
  }

  predicate Edge(s: Shape) {
    s.Pipe? || s.Pump? || s.Valve?
  }

  /** The field is unset, or names a member of the right kind. */
  predicate Names(root: Root, objects: Objects, id: Uuid, right: Shape -> bool) {
    id == UNSET || (id in root.members && id in objects && right(objects[id].shape))
  }

  /** Every set reference of an entity names a member of the kind that the field is for. */
  ghost predicate FieldsRight(root: Root, objects: Objects, s: Shape) {
    && (s.Junction? || s.DemandPoint? ==>
          forall d | d in s.demands :: Names(root, objects, d, (t: Shape) => t.Pattern?))
    && (Node(s) ==> Names(root, objects, s.qualityPattern, (t: Shape) => t.Pattern?))
    && (s.Reservoir? ==> Names(root, objects, s.headPattern, (t: Shape) => t.Pattern?))
    && (Edge(s) ==> Names(root, objects, s.from, Node) && Names(root, objects, s.to, Node))
    && (s.Pipe? ==> Names(root, objects, s.material, (t: Shape) => t.Material?))
    && (s.Pump? ==>
          && Names(root, objects, s.headCurve, (t: Shape) => t.HeadCurve?)
          && Names(root, objects, s.efficiencyCurve, (t: Shape) => t.EfficiencyCurve?)
          && Names(root, objects, s.speedPattern, (t: Shape) => t.Pattern?)
          && Names(root, objects, s.pricePattern, (t: Shape) => t.Pattern?))
    && (s.Valve? ==>
          && Names(root, objects, s.headlossCurve, (t: Shape) => t.HeadlossCurve?)
          && Names(root, objects, s.characteristicCurve, (t: Shape) => t.CharacteristicCurve?))
    && (s.ControlSimple? ==> Names(root, objects, s.link, Edge) && Names(root, objects, s.node, Node))
    && (s.Rule? ==>
          && (forall p | p in s.premises && p.kind.OnNode? :: Names(root, objects, p.id, Node))
          && (forall p | p in s.premises && p.kind.OnLink? :: Names(root, objects, p.id, Edge))
          && (forall l | l in s.thenLinks :: Names(root, objects, l, Edge))
          && (forall l | l in s.elseLinks :: Names(root, objects, l, Edge)))
    && (s.MapLabel? ==> Names(root, objects, s.anchor, Node))
    && (s.DemandPoint? ==> AttachmentRight(root, objects, s.attachment))
  }

  /** A demand point hangs on a junction, or on a pipe of which its assigned junction must be an end. */
  ghost predicate AttachmentRight(root: Root, objects: Objects, a: Attachment) {
    && (a.kind.ToJunction? ==> Names(root, objects, a.junction, (t: Shape) => t.Junction?))
    && (a.kind.ToPipe? ==> a.positionInRange && Names(root, objects, a.pipe, (t: Shape) => t.Pipe?))
    && (a.kind.ToPipe? && a.assignedMode ==> Names(root, objects, a.endpoint, (t: Shape) => t.Junction?))
    && (a.kind.ToPipe? && a.assignedMode && a.pipe != UNSET && a.endpoint != UNSET && a.pipe in objects
        && objects[a.pipe].shape.Pipe? && a.pipe in root.members ==>
          a.endpoint == objects[a.pipe].shape.from || a.endpoint == objects[a.pipe].shape.to)
  }

  /** What an option of the network itself asks of the member it names. */
  ghost predicate OptionRight(root: Root, objects: Objects, o: Link) {
    match o.category
    case AnyNode => Names(root, objects, o.target, Node)
    case AnyLink => Names(root, objects, o.target, Edge)
    case APattern => Names(root, objects, o.target, (t: Shape) => t.Pattern?)
    case OnlyJunction => Names(root, objects, o.target, (t: Shape) => t.Junction?)
    case OnlyPipe => Names(root, objects, o.target, (t: Shape) => t.Pipe?)
    case AMaterial => Names(root, objects, o.target, (t: Shape) => t.Material?)
    case AHeadCurve => Names(root, objects, o.target, (t: Shape) => t.HeadCurve?)
    case AnEfficiencyCurve => Names(root, objects, o.target, (t: Shape) => t.EfficiencyCurve?)
    case AHeadlossCurve => Names(root, objects, o.target, (t: Shape) => t.HeadlossCurve?)
    case ACharacteristicCurve => Names(root, objects, o.target, (t: Shape) => t.CharacteristicCurve?)
  }

  /** The members that can be referred to have identifiers, each its own. */
  ghost predicate IdentifiersRight(root: Root, objects: Objects) {
    forall i, id | 0 <= i < |root.members| && root.members[i] == id && id in objects ::
      var s := objects[id].shape;
      s.DemandPoint? || s.ControlSimple? || s.Rule? || s.MapLabel? || (id != UNSET && id !in root.members[..i])
  }

  /** A network without fault. */
  ghost predicate Ruled(root: Root, objects: Objects) {
    && root.id != UNSET
    && (forall id | id in root.members :: id in objects)
    && IdentifiersRight(root, objects)
    && (forall id | id in root.members :: FieldsRight(root, objects, objects[id].shape))
    && forall o | o in root.options :: OptionRight(root, objects, o)
  }

  /** The entity's field holds this identifier. */
  predicate Holds(s: Shape, f: Field, id: Uuid) {
    match f
    case Demands => (s.Junction? || s.DemandPoint?) && id in s.demands
    case Quality => Node(s) && id == s.qualityPattern
    case HeadPattern => s.Reservoir? && id == s.headPattern
    case From => Edge(s) && id == s.from
    case To => Edge(s) && id == s.to
    case MaterialOf => s.Pipe? && id == s.material
    case HeadCurveOf => s.Pump? && id == s.headCurve
    case SpeedPattern => s.Pump? && id == s.speedPattern
    case EfficiencyOf => s.Pump? && id == s.efficiencyCurve
    case PricePattern => s.Pump? && id == s.pricePattern
    case HeadlossOf => s.Valve? && id == s.headlossCurve
    case CharacteristicOf => s.Valve? && id == s.characteristicCurve
    case AttachedPipe => s.DemandPoint? && s.attachment.kind.ToPipe? && id == s.attachment.pipe
    case AssignedJunction =>
      s.DemandPoint? && s.attachment.kind.ToPipe? && s.attachment.assignedMode && id == s.attachment.endpoint
    case AttachedJunction => s.DemandPoint? && s.attachment.kind.ToJunction? && id == s.attachment.junction
    case ControlledLink => s.ControlSimple? && id == s.link
    case TriggerNode => s.ControlSimple? && id == s.node
    case PremiseObject => s.Rule? && exists p :: p in s.premises && !p.kind.OnSystem? && p.id == id
    case ThenLink => s.Rule? && id in s.thenLinks
    case ElseLink => s.Rule? && id in s.elseLinks
    case Anchor => s.MapLabel? && id == s.anchor
    case RootOption => false
  }

  /** The index has this entry: some set field, of a member or of the network's own options, holds the target. */
  ghost predicate Entered(root: Root, objects: Objects, r: Reference) {
    && r.target != UNSET
    && ((r.source in root.members && r.source in objects && Holds(objects[r.source].shape, r.field, r.target))
        || (r.source == root.id && exists o :: o in root.options && o.target == r.target && o.field == r.field))
  }

  // ---------------------------------------------------- the validator's lists say the same

  predicate AllFound(root: Root, objects: Objects, links: seq<Link>) {
    forall i | 0 <= i < |links| :: Resolved(root, objects, links[i])
  }

  lemma JoinFound(root: Root, objects: Objects, a: seq<Link>, b: seq<Link>)
    ensures AllFound(root, objects, a + b) <==> AllFound(root, objects, a) && AllFound(root, objects, b)
  {
    hide Resolved;
    if AllFound(root, objects, a + b) {
      forall i | 0 <= i < |a|
        ensures Resolved(root, objects, a[i])
      {
        assert (a + b)[i] == a[i];
      }
      forall i | 0 <= i < |b|
        ensures Resolved(root, objects, b[i])
      {
        assert (a + b)[|a| + i] == b[i];
      }
    }
  }

  lemma ResolvedIs(root: Root, objects: Objects, l: Link)
    ensures Resolved(root, objects, l) <==> OptionRight(root, objects, l)
  {
    hide IsNull;
    NullIsUnset(l.target);
  }

  lemma EachFound(root: Root, objects: Objects, ids: seq<Uuid>, f: Field, c: Category)
    ensures AllFound(root, objects, Each(ids, f, c)) <==>
            forall id | id in ids :: OptionRight(root, objects, Link(id, f, c))
  {
    hide OptionRight, Resolved;
    var links := Each(ids, f, c);
    forall i | 0 <= i < |ids|
      ensures Resolved(root, objects, links[i]) <==> OptionRight(root, objects, Link(ids[i], f, c))
    {
      ResolvedIs(root, objects, links[i]);
    }
    if AllFound(root, objects, links) {
      forall id | id in ids
        ensures OptionRight(root, objects, Link(id, f, c))
      {
        var i :| 0 <= i < |ids| && ids[i] == id;
        assert Resolved(root, objects, links[i]);
      }
    }
  }

  lemma {:induction false} PremisesFound(root: Root, objects: Objects, premises: seq<Premise>)
    ensures AllFound(root, objects, PremiseLinks(premises)) <==>
            (forall p | p in premises && p.kind.OnNode? :: Names(root, objects, p.id, Node))
              && forall p | p in premises && p.kind.OnLink? :: Names(root, objects, p.id, Edge)
  {
    hide Resolved, Names;
    if premises != [] {
      var p, rest := premises[0], premises[1..];
      PremisesFound(root, objects, rest);
      assert premises == [p] + rest;
      assert forall q :: q in premises <==> q == p || q in rest;
      var first := match p.kind case OnNode => [Link(p.id, PremiseObject, AnyNode)]
                                case OnLink => [Link(p.id, PremiseObject, AnyLink)]
                                case OnSystem => [];
      JoinFound(root, objects, first, PremiseLinks(rest));
      if !p.kind.OnSystem? { ResolvedIs(root, objects, first[0]); }
    }
  }

  lemma AttachmentFound(root: Root, objects: Objects, a: Attachment)
    ensures AllFound(root, objects, AttachmentLinks(a)) && Attached(root, objects, a) <==>
            AttachmentRight(root, objects, a)
  {
    hide IsNull;
    NullIsUnset(a.junction);
    NullIsUnset(a.pipe);
    NullIsUnset(a.endpoint);
    var links := AttachmentLinks(a);
    if AllFound(root, objects, links) && a.kind.ToJunction? { assert Resolved(root, objects, links[0]); }
    if AllFound(root, objects, links) && a.kind.ToPipe? {
      assert Resolved(root, objects, links[0]);
      if a.assignedMode { assert Resolved(root, objects, links[1]); }
    }
  }

  /** A list of references resolves when each of them does. */
  lemma ListFound(root: Root, objects: Objects, links: seq<Link>)
    ensures AllFound(root, objects, links) <==>
            links == [] || (OptionRight(root, objects, links[0]) && AllFound(root, objects, links[1..]))
  {
    hide Resolved, OptionRight;
    if links != [] {
      ResolvedIs(root, objects, links[0]);
      assert links == [links[0]] + links[1..];
      JoinFound(root, objects, [links[0]], links[1..]);
      assert AllFound(root, objects, [links[0]]) <==> Resolved(root, objects, [links[0]][0]);
    }
  }

  lemma ManyFound(root: Root, objects: Objects, links: seq<Link>)
    requires |links| <= 6
    ensures AllFound(root, objects, links) <==>
            && (|links| > 0 ==> OptionRight(root, objects, links[0]))
            && (|links| > 1 ==> OptionRight(root, objects, links[1]))
            && (|links| > 2 ==> OptionRight(root, objects, links[2]))
            && (|links| > 3 ==> OptionRight(root, objects, links[3]))
            && (|links| > 4 ==> OptionRight(root, objects, links[4]))
            && (|links| > 5 ==> OptionRight(root, objects, links[5]))
  {
    hide AllFound, OptionRight;
    if links != [] {
      ManyFound(root, objects, links[1..]);
    }
    ListFound(root, objects, links);
  }

  /** The kinds with a fixed number of reference fields. */
  lemma FixedFound(root: Root, objects: Objects, s: Shape)
    requires !s.Junction? && !s.DemandPoint? && !s.Rule?
    ensures AllFound(root, objects, Links(s)) <==> FieldsRight(root, objects, s)
  {
    hide AllFound;
    ManyFound(root, objects, Links(s));
  }

  /** What the validator checks of an entity is what its fields must observe. */
  lemma OrderlyIs(root: Root, objects: Objects, s: Shape)
    ensures Orderly(root, objects, s) <==> FieldsRight(root, objects, s)
  {
    hide Resolved, Names, Each, PremiseLinks, AttachmentRight, AttachmentLinks, Attached;
    assert Orderly(root, objects, s) <==>
           AllFound(root, objects, Links(s)) && (s.DemandPoint? ==> Attached(root, objects, s.attachment));
    match s
    case Junction(demands, quality) =>
      EachFound(root, objects, demands, Demands, APattern);
      JoinFound(root, objects, Each(demands, Demands, APattern), [Link(quality, Quality, APattern)]);
      ResolvedIs(root, objects, [Link(quality, Quality, APattern)][0]);
    case DemandPoint(demands, attachment) =>
      EachFound(root, objects, demands, Demands, APattern);
      AttachmentFound(root, objects, attachment);
      JoinFound(root, objects, Each(demands, Demands, APattern), AttachmentLinks(attachment));
    case Rule(premises, thenLinks, elseLinks) =>
      PremisesFound(root, objects, premises);
      EachFound(root, objects, thenLinks, ThenLink, AnyLink);
      EachFound(root, objects, elseLinks, ElseLink, AnyLink);
      JoinFound(root, objects, PremiseLinks(premises) + Each(thenLinks, ThenLink, AnyLink),
                Each(elseLinks, ElseLink, AnyLink));
      JoinFound(root, objects, PremiseLinks(premises), Each(thenLinks, ThenLink, AnyLink));
    case _ =>
      FixedFound(root, objects, s);
  }

  lemma IdentifiedIs(root: Root, objects: Objects)
    requires forall id | id in root.members :: id in objects
    ensures Identified(root, objects) <==> IdentifiersRight(root, objects)
  {
    hide IsNull;
    forall i | 0 <= i < |root.members|
      ensures IsNull(root.members[i]) <==> root.members[i] == UNSET
    {
      NullIsUnset(root.members[i]);
    }
    if Identified(root, objects) {
      forall i, id | 0 <= i < |root.members| && root.members[i] == id && Registered(objects[id].shape)
        ensures id != UNSET && id !in root.members[..i]
      {
        assert id in root.members[..i] <==> exists j :: 0 <= j < i && root.members[j] == id;
      }
    }
    if IdentifiersRight(root, objects) {
      forall i, j | 0 <= i < j < |root.members| && Registered(objects[root.members[i]].shape)
        ensures root.members[i] != root.members[j]
      {
        assert root.members[i] in root.members[..j];
      }
    }
  }

  /** A network is sound exactly when it keeps the rules. */
  lemma SoundIs(root: Root, objects: Objects)
    ensures Sound(root, objects) <==> Ruled(root, objects)
  {
    hide IsNull, Identified, IdentifiersRight, Orderly, FieldsRight, Resolved, OptionRight;
    NullIsUnset(root.id);
    if forall id | id in root.members :: id in objects {
      IdentifiedIs(root, objects);
      forall id | id in root.members
        ensures Orderly(root, objects, objects[id].shape) <==> FieldsRight(root, objects, objects[id].shape)
      {
        OrderlyIs(root, objects, objects[id].shape);
      }
    }
    forall o
      ensures Resolved(root, objects, o) <==> OptionRight(root, objects, o)
    {
      ResolvedIs(root, objects, o);
    }
  }

  // -------------------------------------------------------------------- the index

  predicate Listing(links: seq<Link>, f: Field, id: Uuid) {
    exists i :: 0 <= i < |links| && links[i].target == id && links[i].field == f
  }

  lemma JoinListing(a: seq<Link>, b: seq<Link>, f: Field, id: Uuid)
    ensures Listing(a + b, f, id) <==> Listing(a, f, id) || Listing(b, f, id)
  {
    if i :| 0 <= i < |a| && a[i].target == id && a[i].field == f { assert (a + b)[i] == a[i]; }
    if i :| 0 <= i < |b| && b[i].target == id && b[i].field == f { assert (a + b)[|a| + i] == b[i]; }
  }

  lemma EachListing(ids: seq<Uuid>, field: Field, c: Category, f: Field, id: Uuid)
    ensures Listing(Each(ids, field, c), f, id) <==> f == field && id in ids
  {
    if f == field && id in ids {
      var i :| 0 <= i < |ids| && ids[i] == id;
      assert Each(ids, field, c)[i].target == id;
    }
  }

  lemma {:induction false} PremisesListing(premises: seq<Premise>, f: Field, id: Uuid)
    ensures Listing(PremiseLinks(premises), f, id) <==>
            f == PremiseObject && exists p :: p in premises && !p.kind.OnSystem? && p.id == id
  {
    if premises != [] {
      var p, rest := premises[0], premises[1..];
      PremisesListing(rest, f, id);
      assert premises == [p] + rest;
      assert forall q :: q in premises <==> q == p || q in rest;
      var first := match p.kind case OnNode => [Link(p.id, PremiseObject, AnyNode)]
                                case OnLink => [Link(p.id, PremiseObject, AnyLink)]
                                case OnSystem => [];
      JoinListing(first, PremiseLinks(rest), f, id);
      if !p.kind.OnSystem? && p.id == id && f == PremiseObject { assert first[0].target == id; }
    }
  }

  lemma FixedListing(s: Shape, f: Field, id: Uuid)
    requires !s.Junction? && !s.Rule? && !s.DemandPoint?
    ensures Listing(Links(s), f, id) <==> Holds(s, f, id)
  {
    var links := Links(s);
    if Holds(s, f, id) {
      assert exists i :: 0 <= i < |links| && links[i].field == f by {
        match f
        case From => assert links[0].field == f;
        case To => assert links[1].field == f;
        case MaterialOf => assert links[2].field == f;
        case HeadCurveOf => assert links[2].field == f;
        case SpeedPattern => assert links[3].field == f;
        case EfficiencyOf => assert links[4].field == f;
        case PricePattern => assert links[5].field == f;
        case HeadlossOf => assert links[2].field == f;
        case CharacteristicOf => assert links[3].field == f;
        case ControlledLink => assert links[0].field == f;
        case TriggerNode => assert links[1].field == f;
        case Anchor => assert links[0].field == f;
        case HeadPattern => assert links[0].field == f;
        case Quality => assert links[if s.Tank? then 0 else 1].field == f;
      }
    }
  }

  /** The validator's list of an entity holds exactly its fields. */
  lemma ListingIs(s: Shape, f: Field, id: Uuid)
    ensures Listing(Links(s), f, id) <==> Holds(s, f, id)
  {
    hide Listing, Each, PremiseLinks;
    match s
    case Junction(demands, quality) =>
      EachListing(demands, Demands, APattern, f, id);
      OneListing(Link(quality, Quality, APattern), f, id);
      JoinListing(Each(demands, Demands, APattern), [Link(quality, Quality, APattern)], f, id);
    case DemandPoint(demands, attachment) =>
      EachListing(demands, Demands, APattern, f, id);
      AttachmentListing(s, f, id);
      JoinListing(Each(demands, Demands, APattern), AttachmentLinks(attachment), f, id);
    case Rule(premises, thenLinks, elseLinks) =>
      PremisesListing(premises, f, id);
      EachListing(thenLinks, ThenLink, AnyLink, f, id);
      EachListing(elseLinks, ElseLink, AnyLink, f, id);
      JoinListing(PremiseLinks(premises) + Each(thenLinks, ThenLink, AnyLink), Each(elseLinks, ElseLink, AnyLink),
                  f, id);
      JoinListing(PremiseLinks(premises), Each(thenLinks, ThenLink, AnyLink), f, id);
    case _ =>
      FixedListing(s, f, id);
  }

  lemma OneListing(l: Link, f: Field, id: Uuid)
    ensures Listing([l], f, id) <==> l.field == f && l.target == id
  {
    if l.field == f && l.target == id { assert [l][0].target == id; }
  }

  lemma AttachmentListing(s: Shape, f: Field, id: Uuid)
    requires s.DemandPoint?
    ensures Listing(AttachmentLinks(s.attachment), f, id) <==> Holds(s, f, id) && !f.Demands?
  {
    hide Listing;
    var a := s.attachment;
    match a.kind
    case Unattached => assert !Listing([], f, id) by { NoListing(f, id); }
    case ToJunction => OneListing(Link(a.junction, AttachedJunction, OnlyJunction), f, id);
    case ToPipe =>
      var pipe, end := Link(a.pipe, AttachedPipe, OnlyPipe), Link(a.endpoint, AssignedJunction, OnlyJunction);
      OneListing(pipe, f, id);
      OneListing(end, f, id);
      NoListing(f, id);
      JoinListing([pipe], if a.assignedMode then [end] else [], f, id);
  }

  lemma NoListing(f: Field, id: Uuid)
    ensures !Listing([], f, id)
  {}

  /** The references that are collected are the set fields. */
  lemma EntriesAre(root: Root, objects: Objects, r: Reference)
    requires forall id | id in root.members :: id in objects
    ensures (r.source in root.members && r in ReferencesOf(r.source, Links(objects[r.source].shape)))
            || (r.source == root.id && r in ReferencesOf(root.id, root.options))
            <==> Entered(root, objects, r)
  {
    hide IsNull, Links, Holds, ReferencesOf;
    NullIsUnset(r.target);
    if r.source in root.members {
      var links := Links(objects[r.source].shape);
      ReferenceIsLink(r.source, links, r);
      ListingIs(objects[r.source].shape, r.field, r.target);
      assert r in ReferencesOf(r.source, links) <==>
        r.target != UNSET && Holds(objects[r.source].shape, r.field, r.target);
    }
    if r.source == root.id {
      ReferenceIsLink(root.id, root.options, r);
      if Listing(root.options, r.field, r.target) {
        var i :| 0 <= i < |root.options| && root.options[i].target == r.target && root.options[i].field == r.field;
        assert root.options[i] in root.options;
      }
      assert (exists o :: o in root.options && o.target == r.target && o.field == r.field)
        <==> Listing(root.options, r.field, r.target);
    }
  }

  /** An index is the recomputed one exactly when it has an entry for every set field, and no other. */
  lemma IndexIs(index: set<Reference>, root: Root, objects: Objects)
    requires forall id | id in root.members :: id in objects
    ensures Indexes(index, root, objects) <==> forall r :: r in index <==> Entered(root, objects, r)
  {
    hide Entered, ReferencesOf, Links;
    forall r: Reference
      ensures (r.source in root.members && r in ReferencesOf(r.source, Links(objects[r.source].shape)))
              || (r.source == root.id && r in ReferencesOf(root.id, root.options))
              <==> Entered(root, objects, r)
    {
      EntriesAre(root, objects, r);
    }
  }
}
