/** A reduced hydraulic network: its entities, the references between them, and when they are in order. */
module NetworkModel {
  import opened Prelude
  import opened Uuid

  datatype PremiseKind = OnNode | OnLink | OnSystem

  datatype Premise = Premise(kind: PremiseKind, id: Uuid)

  datatype AttachmentKind = Unattached | ToJunction | ToPipe

  /** All fields are always stored; the kind says which of them count. */
  datatype Attachment = Attachment(kind: AttachmentKind, junction: Uuid, pipe: Uuid, positionInRange: bool,
                                   assignedMode: bool, endpoint: Uuid)

  /** What the reference validator sees of an entity; a null UUID is an unset reference. */
  datatype Shape =
    | Junction(demands: seq<Uuid>, qualityPattern: Uuid)
    | Reservoir(headPattern: Uuid, qualityPattern: Uuid)
    | Tank(qualityPattern: Uuid)
    | Pipe(from: Uuid, to: Uuid, material: Uuid)
    | Pump(from: Uuid, to: Uuid, headCurve: Uuid, speedPattern: Uuid, efficiencyCurve: Uuid, pricePattern: Uuid)
    | Valve(from: Uuid, to: Uuid, headlossCurve: Uuid, characteristicCurve: Uuid)
    | Pattern
    | Material
    | HeadCurve
    | EfficiencyCurve
    | HeadlossCurve
    | CharacteristicCurve
    | DemandPoint(demands: seq<Uuid>, attachment: Attachment)
    | ControlSimple(link: Uuid, node: Uuid)
    | Rule(premises: seq<Premise>, thenLinks: seq<Uuid>, elseLinks: seq<Uuid>)
    | MapLabel(anchor: Uuid)

  /** `rest` are the fields the validator does not look at. */
  datatype Entity = Entity(shape: Shape, rest: Bytes)

  type Objects = map<Uuid, Entity>

  /** The object kind of a row never changes. */
  predicate SameKind(a: Shape, b: Shape) {
    && (a.Junction? <==> b.Junction?) && (a.Reservoir? <==> b.Reservoir?) && (a.Tank? <==> b.Tank?)
    && (a.Pipe? <==> b.Pipe?) && (a.Pump? <==> b.Pump?) && (a.Valve? <==> b.Valve?)
    && (a.Pattern? <==> b.Pattern?) && (a.Material? <==> b.Material?) && (a.HeadCurve? <==> b.HeadCurve?)
    && (a.EfficiencyCurve? <==> b.EfficiencyCurve?) && (a.HeadlossCurve? <==> b.HeadlossCurve?)
    && (a.CharacteristicCurve? <==> b.CharacteristicCurve?) && (a.DemandPoint? <==> b.DemandPoint?)
    && (a.ControlSimple? <==> b.ControlSimple?) && (a.Rule? <==> b.Rule?) && (a.MapLabel? <==> b.MapLabel?)
  }

  // ------------------------------------------------------------------ references

  datatype Category = AnyNode | OnlyJunction | OnlyPipe | AnyLink | APattern | AMaterial | AHeadCurve
    | AnEfficiencyCurve
                    | AHeadlossCurve | ACharacteristicCurve

  predicate Fits(s: Shape, c: Category) {
    match c
    case AnyNode => s.Junction? || s.Reservoir? || s.Tank?
    case OnlyJunction => s.Junction?
    case OnlyPipe => s.Pipe?
    case AnyLink => s.Pipe? || s.Pump? || s.Valve?
    case APattern => s.Pattern?
    case AMaterial => s.Material?
    case AHeadCurve => s.HeadCurve?
    case AnEfficiencyCurve => s.EfficiencyCurve?
    case AHeadlossCurve => s.HeadlossCurve?
    case ACharacteristicCurve => s.CharacteristicCurve?
  }

  datatype Field = Demands | Quality | HeadPattern | From | To | MaterialOf | HeadCurveOf | SpeedPattern | EfficiencyOf
    | PricePattern
                 | HeadlossOf | CharacteristicOf | AttachedPipe | AssignedJunction | AttachedJunction
                 | ControlledLink | TriggerNode | PremiseObject | ThenLink | ElseLink | Anchor | RootOption

  /** A reference to be checked: where it points, through which field, and what it must find there. */
  datatype Link = Link(target: Uuid, field: Field, category: Category)

  function Required(links: seq<Link>): seq<Link> {
    if links == [] then [] else (if IsNull(links[0].target) then [] else [links[0]]) + Required(links[1..])
  }

  function Each(targets: seq<Uuid>, field: Field, category: Category): (links: seq<Link>)
    ensures |links| == |targets|
  {
    seq(|targets|, i requires 0 <= i < |targets| => Link(targets[i], field, category))
  }

  function PremiseLinks(premises: seq<Premise>): seq<Link> {
    if premises == [] then [] else
      (match premises[0].kind
       case OnNode => [Link(premises[0].id, PremiseObject, AnyNode)]
       case OnLink => [Link(premises[0].id, PremiseObject, AnyLink)]
       case OnSystem => []) + PremiseLinks(premises[1..])
  }

  function AttachmentLinks(a: Attachment): seq<Link> {
    match a.kind
    case Unattached => []
    case ToJunction => [Link(a.junction, AttachedJunction, OnlyJunction)]
    case ToPipe =>
      [Link(a.pipe, AttachedPipe, OnlyPipe)] + if a.assignedMode then [Link(a.endpoint, AssignedJunction, OnlyJunction)]
        else []
  }

  /** All reference fields of an entity in the validator's order, unset ones included. */
  function Links(s: Shape): seq<Link> {
    match s
    case Junction(demands, quality) => Each(demands, Demands, APattern) + [Link(quality, Quality, APattern)]
    case Reservoir(head, quality) => [Link(head, HeadPattern, APattern), Link(quality, Quality, APattern)]
    case Tank(quality) => [Link(quality, Quality, APattern)]
    case Pipe(from, to, material) => [Link(from, From, AnyNode), Link(to, To, AnyNode),
                                      Link(material, MaterialOf, AMaterial)]
    case Pump(from, to, head, speed, efficiency, price) =>
      [Link(from, From, AnyNode), Link(to, To, AnyNode), Link(head, HeadCurveOf, AHeadCurve),
       Link(speed, SpeedPattern, APattern),
       Link(efficiency, EfficiencyOf, AnEfficiencyCurve), Link(price, PricePattern, APattern)]
    case Valve(from, to, headloss, characteristic) =>
      [Link(from, From, AnyNode), Link(to, To, AnyNode), Link(headloss, HeadlossOf, AHeadlossCurve),
       Link(characteristic, CharacteristicOf, ACharacteristicCurve)]
    case DemandPoint(demands, attachment) => Each(demands, Demands, APattern) + AttachmentLinks(attachment)
    case ControlSimple(link, node) => [Link(link, ControlledLink, AnyLink), Link(node, TriggerNode, AnyNode)]
    case Rule(premises, thenLinks, elseLinks) =>
      PremiseLinks(premises) + Each(thenLinks, ThenLink, AnyLink) + Each(elseLinks, ElseLink, AnyLink)
    case MapLabel(anchor) => [Link(anchor, Anchor, AnyNode)]
    case Pattern => []
    case Material => []
    case HeadCurve => []
    case EfficiencyCurve => []
    case HeadlossCurve => []
    case CharacteristicCurve => []
  }

  /** An entry of the derived reference index. */
  datatype Reference = Reference(source: Uuid, target: Uuid, field: Field)

  function ReferencesOf(source: Uuid, links: seq<Link>): seq<Reference> {
    if links == [] then [] else
      (if IsNull(links[0].target) then []
       else [Reference(source, links[0].target, links[0].field)]) + ReferencesOf(source, links[1..])
  }

  // --------------------------------------------------------------------- networks

  /** A network root: its members in order, and the references its own options hold. */
  datatype Root = Root(id: Uuid, members: seq<Uuid>, options: seq<Link>)

  /** Kinds whose identifiers the validator registers. */
  predicate Registered(s: Shape) {
    !(s.DemandPoint? || s.ControlSimple? || s.Rule? || s.MapLabel?)
  }

  predicate Member(root: Root, objects: Objects, id: Uuid) {
    id in root.members && id in objects
  }

  /** The link is unset, or finds a member of the right kind. */
  predicate Resolved(root: Root, objects: Objects, link: Link) {
    IsNull(link.target) || (Member(root, objects, link.target) && Fits(objects[link.target].shape, link.category))
  }

  predicate EndsAt(pipe: Shape, junction: Uuid)
    requires pipe.Pipe?
  {
    pipe.from == junction || pipe.to == junction
  }

  /** What a demand point on a pipe must observe beyond its references. */
  predicate Attached(root: Root, objects: Objects, a: Attachment) {
    a.kind.ToPipe? ==>
      && a.positionInRange
      && (a.assignedMode && !IsNull(a.pipe) && !IsNull(a.endpoint) && Member(root, objects, a.pipe)
          && objects[a.pipe].shape.Pipe?
          ==> EndsAt(objects[a.pipe].shape, a.endpoint))
  }

  /** Nothing to report about one member. */
  predicate Orderly(root: Root, objects: Objects, s: Shape) {
    && (forall i | 0 <= i < |Links(s)| :: Resolved(root, objects, Links(s)[i]))
    && (s.DemandPoint? ==> Attached(root, objects, s.attachment))
  }

  predicate Identified(root: Root, objects: Objects)
    requires forall id | id in root.members :: id in objects
  {
    && (forall i | 0 <= i < |root.members| && Registered(objects[root.members[i]].shape) :: !IsNull(root.members[i]))
    && forall i, j | 0 <= i < j < |root.members| && Registered(objects[root.members[i]].shape) ::
         root.members[i] != root.members[j]
  }

  /** The root lists its members once each, without null identifiers and without itself; the loader insists on that. */
  predicate Listed(root: Root) {
    && (forall i | 0 <= i < |root.members| :: !IsNull(root.members[i]) && root.members[i] != root.id)
    && forall i, j | 0 <= i < j < |root.members| :: root.members[i] != root.members[j]
  }

  /** All members are there and the full validation reports no issue. */
  predicate Sound(root: Root, objects: Objects) {
    && !IsNull(root.id)
    && (forall id | id in root.members :: id in objects)
    && Identified(root, objects)
    && (forall id | id in root.members :: Orderly(root, objects, objects[id].shape))
    && forall i | 0 <= i < |root.options| :: Resolved(root, objects, root.options[i])
  }

  /** The reference index of a network, computed from scratch. */
  ghost predicate Indexes(index: set<Reference>, root: Root, objects: Objects)
    requires forall id | id in root.members :: id in objects
  {
    forall r :: r in index <==>
      (r.source in root.members && r in ReferencesOf(r.source, Links(objects[r.source].shape)))
      || (r.source == root.id && r in ReferencesOf(root.id, root.options))
  }

  /** Every entry of the index comes from a set link, and the other way round. */
  lemma {:induction false} ReferenceIsLink(source: Uuid, links: seq<Link>, r: Reference)
    ensures r in ReferencesOf(source, links) <==>
            r.source == source && !IsNull(r.target) && exists i ::
              0 <= i < |links| && links[i].target == r.target
              && links[i].field == r.field
  {
    hide IsNull;
    if links != [] {
      ReferenceIsLink(source, links[1..], r);
      if i :| 0 <= i < |links| && links[i].target == r.target && links[i].field == r.field {
        if i > 0 { assert links[1..][i - 1] == links[i]; }
      }
      if i :| 0 <= i < |links[1..]| && links[1..][i].target == r.target && links[1..][i].field == r.field {
        assert links[i + 1] == links[1..][i];
      }
    }
  }
}
