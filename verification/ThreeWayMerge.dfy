/** What a three-way merge of whole models is: classification, the ordered change list, and its limits. */
module ThreeWayMerge {
  import opened Prelude
  import opened Uuid
  import opened FieldMerge
  import M = ModelRecord

  datatype Object = Object(kind: Bytes, content: Bytes, version: nat)

  type Model = map<Uuid, Object>

  /** The live objects of some rows. */
  function ModelOf(rows: M.Rows): Model {
    map id | id in rows && rows[id].content.Some? :: Object(rows[id].kind, rows[id].content.value, rows[id].version)
  }

  predicate SameContent(a: Option<Object>, b: Option<Object>) {
    if a.None? || b.None? then a.None? && b.None?
    else a.value.kind == b.value.kind && a.value.content == b.value.content
  }

  datatype ChangeKind = RightOnly | LeftOnly | BothSame | FieldsMerged | Conflict

  datatype MergeChange = MergeChange(id: Uuid, kind: ChangeKind, base: Option<Object>, left: Option<Object>,
                                     right: Option<Object>, conflicting: seq<Name>, merged: Option<Object>)

  predicate Changed(b: Model, l: Model, r: Model, id: Uuid) {
    !SameContent(Get(b, id), Get(l, id)) || !SameContent(Get(b, id), Get(r, id))
  }

  /** The automatic field merge of an object that all three sides hold with one kind. */
  ghost function AutomaticMerge(codec: Codec, id: Uuid, base: Option<Object>, left: Option<Object>,
                                right: Option<Object>): Option<Merge>
    requires AllLawful(codec)
  {
    if base.Some? && left.Some? && right.Some? && base.value.kind == left.value.kind == right.value.kind
    then FieldMergeOf(codec, id, left.value.kind, base.value.content, left.value.content, right.value.content, map[])
    else None
  }

  ghost function Classified(codec: Codec, id: Uuid, base: Option<Object>, left: Option<Object>, right: Option<Object>)
    : (c: MergeChange)
    requires AllLawful(codec)
    ensures c.id == id
  {
    if SameContent(base, left) then MergeChange(id, RightOnly, base, left, right, [], None)
    else if SameContent(base, right) then MergeChange(id, LeftOnly, base, left, right, [], None)
    else if SameContent(left, right) then MergeChange(id, BothSame, base, left, right, [], None)
    else
      var fields := AutomaticMerge(codec, id, base, left, right);
      if fields.None? then MergeChange(id, Conflict, base, left, right, [], None)
      else if fields.value.conflicts != []
        then MergeChange(id, Conflict, base, left, right, fields.value.conflicts, None)
      else MergeChange(id, FieldsMerged, base, left, right, [],
                       Some(Object(left.value.kind, fields.value.content, left.value.version)))
  }

  /** The kind of a change when the sides change places. */
  function Mirrored(kind: ChangeKind): ChangeKind {
    match kind
    case RightOnly => LeftOnly
    case LeftOnly => RightOnly
    case _ => kind
  }

  /** The fields of an object that both sides changed can be merged without asking. */
  ghost predicate MergesByField(codec: Codec, id: Uuid, base: Option<Object>, left: Option<Object>,
                                right: Option<Object>)
    requires AllLawful(codec)
  {
    var fields := AutomaticMerge(codec, id, base, left, right);
    fields.Some? && fields.value.conflicts == []
  }

  /**
   What the kinds mean: who changed the object, and whether two different changes
   can be combined. The sides are treated alike: mirrored, a one-sided change is
   the other side's, an equal change stays one, and what has to be settled is the
   same object with the same clashing names, or a field merge.
   */
  lemma KindsMean(codec: Codec, id: Uuid, base: Option<Object>, left: Option<Object>, right: Option<Object>)
    requires AllLawful(codec) && (!SameContent(base, left) || !SameContent(base, right))
    ensures var c := Classified(codec, id, base, left, right);
      && (c.kind.RightOnly? <==> SameContent(base, left)) && (c.kind.LeftOnly? <==> SameContent(base, right))
      && (c.kind.BothSame? <==> SameContent(left, right))
      && (c.kind.FieldsMerged? <==>
            !SameContent(base, left) && !SameContent(base, right) && !SameContent(left, right)
            && MergesByField(codec, id, base, left, right))
      && (c.merged.Some? <==> c.kind.FieldsMerged?) && (c.conflicting != [] ==> c.kind.Conflict?)
    ensures var c, d := Classified(codec, id, base, left, right), Classified(codec, id, base, right, left);
      && c.conflicting == d.conflicting
      && ((MergesByField(codec, id, base, left, right) <==> MergesByField(codec, id, base, right, left)) ==>
            d.kind == Mirrored(c.kind))
  {
    hide AllLawful, FieldMergeOf, Typed, MergedFields;
    NamesAlike(codec, id, base, left, right);
  }

  lemma NamesAlike(codec: Codec, id: Uuid, base: Option<Object>, left: Option<Object>, right: Option<Object>)
    requires AllLawful(codec)
    ensures var a, b := AutomaticMerge(codec, id, base, left, right), AutomaticMerge(codec, id, base, right, left);
      (if a.Some? then a.value.conflicts else []) == (if b.Some? then b.value.conflicts else [])
  {
    hide AllLawful, Clashes, Combined;
    if base.Some? && left.Some? && right.Some? && base.value.kind == left.value.kind == right.value.kind
       && Typed(codec, id, left.value.kind, base.value.content, left.value.content, right.value.content) {
      var s := codec(left.value.kind).value;
      FieldCounts(codec, left.value.kind, base.value.content, left.value.content, right.value.content);
      SidesAlike(s, s.read(base.value.content).value, s.read(left.value.content).value,
                 s.read(right.value.content).value, |s.names|);
    }
  }

  lemma FieldCounts(codec: Codec, kind: Bytes, a: Bytes, b: Bytes, c: Bytes)
    requires AllLawful(codec) && codec(kind).Some?
    ensures var s := codec(kind).value;
      forall x | x in {a, b, c} && s.read(x).Some? :: |s.read(x).value.fields| == |s.names|
  {
    assert Lawful(codec(kind).value);
  }

  // ------------------------------------------------------------------- the walk

  datatype Limits = Limits(maxChanges: nat, maxBytes: nat)

  datatype Progress =
    | Going(changes: seq<MergeChange>, bytes: nat)
    | TooManyChanges
    | TooManyBytes
    | Unreadable
    | BadLimits

  function Size(o: Option<Object>): nat {
    if o.None? then 0 else |o.value.content|
  }

  ghost function Step(codec: Codec, b: Model, l: Model, r: Model, limits: Limits, p: Progress, id: Uuid): Progress
    requires AllLawful(codec)
  {
    if !p.Going? || !Changed(b, l, r, id) then p
    else if |p.changes| >= limits.maxChanges then TooManyChanges
    else
      var bytes := p.bytes + Size(Get(b, id)) + Size(Get(l, id)) + Size(Get(r, id));
      if bytes > limits.maxBytes then TooManyBytes
      else Going(p.changes + [Classified(codec, id, Get(b, id), Get(l, id), Get(r, id))], bytes)
  }

  /** The three-way comparison of a list of objects, in its order. */
  ghost function Walk(codec: Codec, b: Model, l: Model, r: Model, limits: Limits, ids: seq<Uuid>): Progress
    requires AllLawful(codec)
  {
    if ids == [] then Going([], 0) else
      Step(codec, b, l, r, limits, Walk(codec, b, l, r, limits, ids[..|ids| - 1]), ids[|ids| - 1])
  }

  predicate Ascending(ids: seq<Uuid>) {
    forall i, j | 0 <= i < j < |ids| :: Less(ids[i], ids[j])
  }

  /** The list leaves out no object that changed. */
  ghost predicate Covers(b: Model, l: Model, r: Model, ids: seq<Uuid>) {
    forall id | Changed(b, l, r, id) :: id in ids
  }

  function ChangedOnly(b: Model, l: Model, r: Model, ids: seq<Uuid>): (kept: seq<Uuid>)
    ensures forall id :: id in kept <==> id in ids && Changed(b, l, r, id)
  {
    if ids == [] then [] else
      var n := |ids| - 1;
      var front := ChangedOnly(b, l, r, ids[..n]);
      assert forall id :: id in ids <==> id in ids[..n] || id == ids[n];
      if Changed(b, l, r, ids[n]) then front + [ids[n]] else front
  }

  lemma {:induction false} ChangedOnlyAscends(b: Model, l: Model, r: Model, ids: seq<Uuid>)
    requires Ascending(ids)
    ensures Ascending(ChangedOnly(b, l, r, ids))
  {
    if ids != [] {
      var n := |ids| - 1;
      ChangedOnlyAscends(b, l, r, ids[..n]);
      var front := ChangedOnly(b, l, r, ids[..n]);
      forall i | 0 <= i < |front|
        ensures Less(front[i], ids[n])
      {
        assert front[i] in front;
        assert front[i] in ids[..n];
      }
    }
  }

  /** Objects that did not change add nothing: not to the list, not to the limits. */
  lemma {:induction false} WalkSkips(codec: Codec, b: Model, l: Model, r: Model, limits: Limits, ids: seq<Uuid>)
    requires AllLawful(codec)
    ensures Walk(codec, b, l, r, limits, ids) == Walk(codec, b, l, r, limits, ChangedOnly(b, l, r, ids))
  {
    hide Changed, AllLawful, Classified;
    if ids != [] {
      var n := |ids| - 1;
      WalkSkips(codec, b, l, r, limits, ids[..n]);
      var front := ChangedOnly(b, l, r, ids[..n]);
      if Changed(b, l, r, ids[n]) {
        assert (front + [ids[n]])[..|front|] == front;
      }
    }
  }

  /** One set of objects has one ascending listing. */
  lemma {:induction false} OneListing(a: seq<Uuid>, b: seq<Uuid>)
    requires Ascending(a) && Ascending(b) && forall id: Uuid :: id in a <==> id in b
    ensures a == b
  {
    if a == [] {
      assert forall i | 0 <= i < |b| :: b[i] in b;
    } else {
      assert a[0] in b;
      var i :| 0 <= i < |b| && b[i] == a[0];
      assert b[0] in a;
      var j :| 0 <= j < |a| && a[j] == b[0];
      if i > 0 && j > 0 {
        LessTransitive(a[0], a[j], a[0]);
      }
      LessIrreflexive(a[0]);
      assert a[0] == b[0];
      forall id: Uuid
        ensures id in a[1..] <==> id in b[1..]
      {
        Tail(a, id);
        Tail(b, id);
      }
      OneListing(a[1..], b[1..]);
      assert a == [a[0]] + a[1..] && b == [b[0]] + b[1..];
    }
  }

  lemma Tail(s: seq<Uuid>, id: Uuid)
    requires s != [] && Ascending(s)
    ensures id in s[1..] <==> id in s && id != s[0]
  {
    if id in s[1..] {
      var k :| 1 <= k < |s| && s[k] == id;
      LessIrreflexive(id);
    }
  }

  /**
   Any two ascending listings that cover the changed objects give the same
   change list, kinds and limit outcome: scanning only the candidates of the
   Merkle differences is scanning everything.
   */
  lemma CoveringListsAgree(codec: Codec, b: Model, l: Model, r: Model, limits: Limits, ids: seq<Uuid>,
                           others: seq<Uuid>)
    requires AllLawful(codec)
    requires Ascending(ids) && Ascending(others) && Covers(b, l, r, ids) && Covers(b, l, r, others)
    ensures Walk(codec, b, l, r, limits, ids) == Walk(codec, b, l, r, limits, others)
  {
    hide Changed, Classified, Walk, Less;
    WalkSkips(codec, b, l, r, limits, ids);
    WalkSkips(codec, b, l, r, limits, others);
    ChangedOnlyAscends(b, l, r, ids);
    ChangedOnlyAscends(b, l, r, others);
    OneListing(ChangedOnly(b, l, r, ids), ChangedOnly(b, l, r, others));
  }

  lemma StepLocal(codec: Codec, b: Model, l: Model, r: Model, b': Model, l': Model, r': Model, limits: Limits,
                  p: Progress, id: Uuid)
    requires AllLawful(codec) && Get(b, id) == Get(b', id) && Get(l, id) == Get(l', id) && Get(r, id) == Get(r', id)
    ensures Step(codec, b, l, r, limits, p, id) == Step(codec, b', l', r', limits, p, id)
  {
    hide AllLawful, Classified, SameContent, Get;
  }

  /** A walk sees a model only at the listed objects. */
  lemma {:induction false} WalkLocal(codec: Codec, b: Model, l: Model, r: Model, b': Model, l': Model, r': Model,
                                     limits: Limits, ids: seq<Uuid>)
    requires AllLawful(codec)
    requires forall id | id in ids :: Get(b, id) == Get(b', id) && Get(l, id) == Get(l', id)
               && Get(r, id) == Get(r', id)
    ensures Walk(codec, b, l, r, limits, ids) == Walk(codec, b', l', r', limits, ids)
  {
    hide AllLawful, Step, Get;
    if ids != [] {
      var n := |ids| - 1;
      assert ids[n] in ids;
      assert forall id | id in ids[..n] :: id in ids;
      WalkLocal(codec, b, l, r, b', l', r', limits, ids[..n]);
      StepLocal(codec, b, l, r, b', l', r', limits, Walk(codec, b, l, r, limits, ids[..n]), ids[n]);
    }
  }

  // --------------------------------------------------------------- the change list

  function CountConflicts(changes: seq<MergeChange>): nat {
    if changes == [] then 0 else
      CountConflicts(changes[..|changes| - 1]) + if changes[|changes| - 1].kind.Conflict? then 1 else 0
  }

  /** Exactly the changed objects, in ascending order, each classified. */
  ghost predicate IsChangeList(codec: Codec, b: Model, l: Model, r: Model, changes: seq<MergeChange>)
    requires AllLawful(codec)
  {
    && (forall i, j | 0 <= i < j < |changes| :: Less(changes[i].id, changes[j].id))
    && (forall i | 0 <= i < |changes| ::
          Changed(b, l, r, changes[i].id)
          && changes[i] == Classified(codec, changes[i].id, Get(b, changes[i].id), Get(l, changes[i].id),
                                      Get(r, changes[i].id)))
    && forall id | Changed(b, l, r, id) :: exists i :: 0 <= i < |changes| && changes[i].id == id
  }

  /** A walk that is not stopped lists exactly the changed objects among the given ones. */
  lemma {:induction false} WalkLists(codec: Codec, b: Model, l: Model, r: Model, limits: Limits, ids: seq<Uuid>)
    requires AllLawful(codec) && Walk(codec, b, l, r, limits, ids).Going?
    ensures var changes := Walk(codec, b, l, r, limits, ids).changes;
      && |changes| == |ChangedOnly(b, l, r, ids)|
      && forall i | 0 <= i < |changes| ::
           && changes[i].id == ChangedOnly(b, l, r, ids)[i]
           && changes[i] == Classified(codec, changes[i].id, Get(b, changes[i].id), Get(l, changes[i].id),
                                       Get(r, changes[i].id))
  {
    hide AllLawful, Changed, Classified, Get, Size;
    if ids != [] { WalkLists(codec, b, l, r, limits, ids[..|ids| - 1]); }
  }

  lemma WalkIsChangeList(codec: Codec, b: Model, l: Model, r: Model, limits: Limits, ids: seq<Uuid>)
    requires AllLawful(codec) && Ascending(ids) && Covers(b, l, r, ids)
    requires Walk(codec, b, l, r, limits, ids).Going?
    ensures IsChangeList(codec, b, l, r, Walk(codec, b, l, r, limits, ids).changes)
  {
    hide AllLawful, Changed, Classified, Walk, Less;
    WalkLists(codec, b, l, r, limits, ids);
    ChangedOnlyAscends(b, l, r, ids);
    var kept := ChangedOnly(b, l, r, ids);
    forall id | Changed(b, l, r, id)
      ensures exists i :: 0 <= i < |kept| && Walk(codec, b, l, r, limits, ids).changes[i].id == id
    {
      assert id in kept;
      var i :| 0 <= i < |kept| && kept[i] == id;
    }
  }

  /** Bytes held by the changed objects of a list. */
  ghost function Retained(b: Model, l: Model, r: Model, ids: seq<Uuid>): nat {
    if ids == [] then 0 else
      var id := ids[|ids| - 1];
      Retained(b, l, r, ids[..|ids| - 1]) + if Changed(b, l, r, id)
        then Size(Get(b, id)) + Size(Get(l, id)) + Size(Get(r, id)) else 0
  }

  /** A preview is refused exactly when the changes, or their payloads, exceed a limit. */
  lemma {:induction false} LimitsExact(codec: Codec, b: Model, l: Model, r: Model, limits: Limits, ids: seq<Uuid>)
    requires AllLawful(codec)
    ensures Walk(codec, b, l, r, limits, ids).Going? <==>
            |ChangedOnly(b, l, r, ids)| <= limits.maxChanges && Retained(b, l, r, ids) <= limits.maxBytes
    ensures !Walk(codec, b, l, r, limits, ids).Unreadable? && !Walk(codec, b, l, r, limits, ids).BadLimits?
    ensures var p := Walk(codec, b, l, r, limits, ids);
      p.Going? ==> |p.changes| == |ChangedOnly(b, l, r, ids)| && p.bytes == Retained(b, l, r, ids)
  {
    hide AllLawful, Changed, Classified;
    if ids != [] { LimitsExact(codec, b, l, r, limits, ids[..|ids| - 1]); }
  }

  // ------------------------------------------------------------------- listings

  function Insert(id: Uuid, ids: seq<Uuid>): seq<Uuid> {
    if ids == [] || Less(id, ids[0]) then [id] + ids else [ids[0]] + Insert(id, ids[1..])
  }

  lemma {:induction false} InsertKeeps(id: Uuid, ids: seq<Uuid>)
    requires Ascending(ids) && id !in ids
    ensures Ascending(Insert(id, ids)) && forall x: Uuid :: x in Insert(id, ids) <==> x == id || x in ids
  {
    if ids == [] {
    } else if Less(id, ids[0]) {
      forall j | 0 <= j < |ids|
        ensures Less(id, ids[j])
      {
        if j > 0 { LessTransitive(id, ids[0], ids[j]); }
      }
    } else {
      InsertKeeps(id, ids[1..]);
      var rest := Insert(id, ids[1..]);
      LessTotal(id, ids[0]);
      forall j | 0 <= j < |rest|
        ensures Less(ids[0], rest[j])
      {
        assert rest[j] in rest;
      }
      assert ids == [ids[0]] + ids[1..];
    }
  }

  /** Every set of objects can be listed in ascending order. */
  lemma {:induction false} Listing(s: set<Uuid>) returns (ids: seq<Uuid>)
    ensures Ascending(ids) && forall x: Uuid :: x in ids <==> x in s
  {
    if s == {} {
      ids := [];
    } else {
      var x :| x in s;
      var rest := Listing(s - {x});
      InsertKeeps(x, rest);
      ids := Insert(x, rest);
    }
  }
}
