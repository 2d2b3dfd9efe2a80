/** The full reference validation of a network: the specification that the incremental paths must meet. */
module NetworkValidator {
  import opened Prelude
  import opened Uuid
  import opened NetworkModel
  import NetworkRules

  /** The identifiers a full pass registers for a category. */
  ghost predicate Registers(found: set<Uuid>, root: Root, objects: Objects, n: nat, c: Category)
    requires n <= |root.members| && forall id | id in root.members :: id in objects
  {
    forall id :: id in found <==> (!IsNull(id) && id in root.members[..n] && Fits(objects[id].shape, c))
  }

  class NetworkReferenceValidator {
    const root: Root
    const objects: Objects
    // the registered identifiers of each category
    var found: map<Category, set<Uuid>>
    var seen: set<Uuid>
    var references: seq<Reference>
    var issues: nat

    constructor (root: Root, objects: Objects)
      requires forall id | id in root.members :: id in objects
      ensures this.root == root && this.objects == objects && issues == 0 && references == [] && seen == {}
      ensures forall c :: Found(c) == {}
    {
      this.root, this.objects := root, objects;
      found, seen, references, issues := map[], {}, [], 0;
    }

    function Found(c: Category): set<Uuid>
      reads this`found
    {
      if c in found then found[c] else {}
    }

    method Put(id: Uuid, c: Category)
      modifies this`found
      ensures Found(c) == old(Found(c)) + {id}
      ensures forall other | other != c :: Found(other) == old(Found(other))
    {
      found := found[c := Found(c) + {id}];
    }

    /** Registers one identifier in its categories; a null or repeated one is an issue. */
    method Register(id: Uuid, s: Shape)
      modifies this`found, this`seen, this`issues
      ensures forall c :: Found(c) == old(Found(c)) + if !IsNull(id) && Fits(s, c) then {id} else {}
      ensures seen == old(seen) + if !IsNull(id) && Registered(s) then {id} else {}
      ensures issues == old(issues) + if Registered(s) && (IsNull(id) || id in old(seen)) then 1 else 0
    {
      hide IsNull;
      if !Registered(s) {
        return;
      }
      if IsNull(id) {
        issues := issues + 1;
        return;
      }
      if id in seen {
        issues := issues + 1;
      }
      seen := seen + {id};
      var category, other := CategoriesOf(s);
      Put(id, category);
      if other.Some? {
        Put(id, other.value);
      }
    }

    /** Checks the reference fields of one source in order, collecting the set ones. */
    method CheckLinks(source: Uuid, list: seq<Link>)
      modifies this`references, this`issues
      ensures references == old(references) + ReferencesOf(source, list)
      ensures issues >= old(issues)
      ensures issues == old(issues) <==> forall i | 0 <= i < |list| ::
                IsNull(list[i].target)
                || list[i].target in Found(list[i].category)
    {
      hide IsNull;
      for i := 0 to |list|
        invariant references == old(references) + ReferencesOf(source, list[..i])
        invariant issues >= old(issues)
        invariant issues == old(issues) <==> forall j | 0 <= j < i ::
                    IsNull(list[j].target)
                    || list[j].target in Found(list[j].category)
      {
        ReferencesSnoc(source, list[..i], list[i]);
        assert list[..i + 1] == list[..i] + [list[i]];
        if !IsNull(list[i].target) {
          references := references + [Reference(source, list[i].target, list[i].field)];
          if list[i].target !in Found(list[i].category) {
            issues := issues + 1;
          }
        }
      }
      assert list[..|list|] == list;
    }

    /** A demand point's position and assigned endpoint. */
    method CheckAttachment(a: Attachment)
      requires forall id | id in root.members :: id in objects
      modifies this`issues
      ensures issues >= old(issues)
      ensures issues == old(issues) <==> Attached(root, objects, a)
    {
      if !a.kind.ToPipe? {
        return;
      }
      if !a.positionInRange {
        issues := issues + 1;
      }
      if a.assignedMode && !IsNull(a.pipe) && !IsNull(a.endpoint) {
        if a.pipe in root.members && objects[a.pipe].shape.Pipe? {
          var pipe := objects[a.pipe].shape;
          if pipe.from != a.endpoint && pipe.to != a.endpoint {
            issues := issues + 1;
          }
        }
      }
    }

    /**
     The whole validation: no issue exactly for a sound network, which is one whose
     fields all keep the rules, and an entry collected for every set field and for
     no other.
     */
    method Validate()
      requires forall id | id in root.members :: id in objects
      requires issues == 0 && references == [] && seen == {} && forall c :: Found(c) == {}
      modifies this
      ensures issues == 0 <==> Sound(root, objects)
      ensures forall r :: r in references <==>
                (r.source in root.members && r in ReferencesOf(r.source, Links(objects[r.source].shape)))
                || (r.source == root.id && r in ReferencesOf(root.id, root.options))
      ensures issues == 0 <==> NetworkRules.Ruled(root, objects)
      ensures forall r :: r in references <==> NetworkRules.Entered(root, objects, r)
    {
      hide IsNull, Orderly, ReferencesOf, Links, Identified, NetworkRules.Entered, NetworkRules.Ruled;
      if IsNull(root.id) {
        issues := issues + 1;
      }
      RegisterAll();
      ghost var before := issues;
      for i := 0 to |root.members|
        invariant issues >= before && forall c :: Registers(Found(c), root, objects, |root.members|, c)
        invariant issues == before <==> forall j | 0 <= j < i :: Orderly(root, objects, objects[root.members[j]].shape)
        invariant forall r :: r in references <==>
                    r.source in root.members[..i]
                    && r in ReferencesOf(r.source, Links(objects[r.source].shape))
      {
        var id := root.members[i];
        assert root.members[..i + 1] == root.members[..i] + [id];
        var s := objects[id].shape;
        ghost var was := issues;
        CheckLinks(id, Links(s));
        if s.DemandPoint? {
          CheckAttachment(s.attachment);
        }
        AllResolved(this, Links(s));
        MemberOrderly(root, objects, s);
        SourcesOf(id, Links(s));
        assert issues == was <==> Orderly(root, objects, s);
      }
      assert root.members[..|root.members|] == root.members;
      ghost var between := issues;
      CheckLinks(root.id, root.options);
      AllResolved(this, root.options);
      SourcesOf(root.id, root.options);
      MembersOrderly(root, objects);
      NetworkRules.SoundIs(root, objects);
      forall r: Reference
        ensures r in references <==> NetworkRules.Entered(root, objects, r)
      {
        NetworkRules.EntriesAre(root, objects, r);
      }
    }

    method RegisterAll()
      requires forall id | id in root.members :: id in objects
      requires seen == {} && forall c :: Found(c) == {}
      modifies this`found, this`seen, this`issues
      ensures issues >= old(issues)
      ensures issues == old(issues) <==> Identified(root, objects)
      ensures forall c :: Registers(Found(c), root, objects, |root.members|, c)
    {
      hide IsNull, Fits, Found, Registers, Registered, IdentifiedUpTo;
      NothingRegistered(root, objects);
      for i := 0 to |root.members|
        invariant issues >= old(issues)
        invariant issues == old(issues) <==> IdentifiedUpTo(root, objects, i)
        invariant forall id :: id in seen <==> !IsNull(id) && id in root.members[..i] && Registered(objects[id].shape)
        invariant forall c :: Registers(Found(c), root, objects, i, c)
      {
        var id := root.members[i];
        IdentifiedStep(root, objects, i, seen);
        label Before:
        Register(id, objects[id].shape);
        forall c
          ensures Registers(Found(c), root, objects, i + 1, c)
        {
          RegistersStep(old@Before(Found(c)), Found(c), root, objects, i, c);
        }
        forall other
          ensures other in seen <==>
                    !IsNull(other) && other in root.members[..i + 1]
                    && Registered(objects[other].shape)
        {
          assert root.members[..i + 1] == root.members[..i] + [id];
        }
      }
      AllIdentified(root, objects);
    }
  }

  lemma NothingRegistered(root: Root, objects: Objects)
    requires forall id | id in root.members :: id in objects
    ensures IdentifiedUpTo(root, objects, 0) && forall c :: Registers({}, root, objects, 0, c)
  {}

  lemma AllIdentified(root: Root, objects: Objects)
    requires forall id | id in root.members :: id in objects
    ensures IdentifiedUpTo(root, objects, |root.members|) <==> Identified(root, objects)
  {}

  lemma RegistersStep(before: set<Uuid>, after: set<Uuid>, root: Root, objects: Objects, i: nat, c: Category)
    requires (forall id | id in root.members :: id in objects) && i < |root.members|
               && Registers(before, root, objects, i, c)
    requires after == before + if !IsNull(root.members[i]) && Fits(objects[root.members[i]].shape, c)
               then {root.members[i]} else {}
    ensures Registers(after, root, objects, i + 1, c)
  {
    hide IsNull, Fits;
    assert root.members[..i + 1] == root.members[..i] + [root.members[i]];
  }

  lemma IdentifiedStep(root: Root, objects: Objects, i: nat, seen: set<Uuid>)
    requires (forall id | id in root.members :: id in objects) && i < |root.members|
    requires forall id :: id in seen <==> !IsNull(id) && id in root.members[..i] && Registered(objects[id].shape)
    ensures var id := root.members[i];
      IdentifiedUpTo(root, objects, i + 1) <==>
      IdentifiedUpTo(root, objects, i) && !(Registered(objects[id].shape) && (IsNull(id) || id in seen))
  {
    hide IsNull, Registered;
    var id := root.members[i];
    assert id in root.members[..i] <==> exists j :: 0 <= j < i && root.members[j] == id;
  }

  /** The categories a registered kind is entered in: its own, and for some a wider one. */
  method CategoriesOf(s: Shape) returns (category: Category, other: Option<Category>)
    requires Registered(s)
    ensures forall c :: Fits(s, c) <==> c == category || other == Some(c)
    ensures other != Some(category)
  {
    other := None;
    match s {
      case Junction(_, _) => category, other := AnyNode, Some(OnlyJunction);
      case Reservoir(_, _) => category := AnyNode;
      case Tank(_) => category := AnyNode;
      case Pipe(_, _, _) => category, other := OnlyPipe, Some(AnyLink);
      case Pump(_, _, _, _, _, _) => category := AnyLink;
      case Valve(_, _, _, _) => category := AnyLink;
      case Pattern => category := APattern;
      case Material => category := AMaterial;
      case HeadCurve => category := AHeadCurve;
      case EfficiencyCurve => category := AnEfficiencyCurve;
      case HeadlossCurve => category := AHeadlossCurve;
      case CharacteristicCurve => category := ACharacteristicCurve;
    }
  }

  predicate IdentifiedUpTo(root: Root, objects: Objects, n: nat)
    requires n <= |root.members| && forall id | id in root.members :: id in objects
  {
    && (forall i | 0 <= i < n && Registered(objects[root.members[i]].shape) :: !IsNull(root.members[i]))
    && forall i, j | 0 <= i < j < n && Registered(objects[root.members[i]].shape) :: root.members[i] != root.members[j]
  }

  lemma ReferencesSnoc(source: Uuid, links: seq<Link>, last: Link)
    ensures ReferencesOf(source, links + [last]) ==
            ReferencesOf(source, links) + if IsNull(last.target) then []
              else [Reference(source, last.target, last.field)]
    decreases links
  {
    hide IsNull;
    if links == [] {
      assert [last][1..] == [];
    } else {
      assert (links + [last])[1..] == links[1..] + [last];
      ReferencesSnoc(source, links[1..], last);
    }
  }

  lemma SourcesOf(source: Uuid, links: seq<Link>)
    ensures forall r | r in ReferencesOf(source, links) :: r.source == source
  {
    forall r | r in ReferencesOf(source, links)
      ensures r.source == source
    {
      ReferenceIsLink(source, links, r);
    }
  }

  /** After registration a target is found exactly when it resolves. */
  lemma AllResolved(v: NetworkReferenceValidator, links: seq<Link>)
    requires forall id | id in v.root.members :: id in v.objects
    requires forall c :: Registers(v.Found(c), v.root, v.objects, |v.root.members|, c)
    ensures (forall i | 0 <= i < |links| :: IsNull(links[i].target) || links[i].target in v.Found(links[i].category))
            <==> forall i | 0 <= i < |links| :: Resolved(v.root, v.objects, links[i])
  {
    hide IsNull, Fits;
    assert v.root.members[..|v.root.members|] == v.root.members;
    forall i | 0 <= i < |links|
      ensures IsNull(links[i].target) || links[i].target in v.Found(links[i].category) <==>
                Resolved(v.root, v.objects, links[i])
    {
      assert Registers(v.Found(links[i].category), v.root, v.objects, |v.root.members|, links[i].category);
    }
  }

  lemma MemberOrderly(root: Root, objects: Objects, s: Shape)
    ensures Orderly(root, objects, s) <==>
            (forall i | 0 <= i < |Links(s)| :: Resolved(root, objects, Links(s)[i]))
              && (s.DemandPoint? ==> Attached(root, objects, s.attachment))
  {}

  lemma MembersOrderly(root: Root, objects: Objects)
    requires forall id | id in root.members :: id in objects
    ensures (forall j | 0 <= j < |root.members| :: Orderly(root, objects, objects[root.members[j]].shape))
            <==> forall id | id in root.members :: Orderly(root, objects, objects[id].shape)
  {
    hide Orderly;
  }
}
