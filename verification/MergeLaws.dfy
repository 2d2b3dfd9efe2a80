/** What a three-way merge owes to both sides, said of rows, payloads and fields alone. */
module MergeLaws {
  import opened Prelude
  import opened Uuid
  import opened FieldMerge
  import opened ThreeWayMerge
  import M = ModelRecord

  /** Kind and content of a live object. */
  type Showing = Option<(Bytes, Bytes)>

  function ShownIn(rows: M.Rows, u: Uuid): Showing {
    if u in rows && rows[u].content.Some? then Some((rows[u].kind, rows[u].content.value)) else None
  }

  function ShownBy(o: Option<Object>): Showing {
    if o.Some? then Some((o.value.kind, o.value.content)) else None
  }

  /** A live object carries the version of its row. */
  predicate AtVersion(o: Option<Object>, rows: M.Rows, u: Uuid) {
    o.Some? ==> u in rows && o.value.version == rows[u].version
  }

  // ------------------------------------------------------------------------ fields

  /** Each payload is nonempty, at most four mebibytes, and the canonical form of this object. */
  ghost predicate Reads(s: Schema, u: Uuid, payload: Bytes, e: Entity) {
    && 0 < |payload| <= 0x40_0000 && s.read(payload) == Some(e) && s.write(e) == payload
    && e.id == u && |e.fields| == |s.names|
  }

  /** The same three payloads as objects of one schema. */
  ghost predicate ReadAll(codec: Codec, u: Uuid, base: Showing, left: Showing, right: Showing, s: Schema, b: Entity,
                          l: Entity, r: Entity) {
    && !IsNull(u) && base.Some? && left.Some? && right.Some?
    && base.value.0 == left.value.0 == right.value.0 && codec(left.value.0) == Some(s)
    && Reads(s, u, base.value.1, b) && Reads(s, u, left.value.1, l) && Reads(s, u, right.value.1, r)
  }

  /** Both sides only append tags, all of them new, nonempty and distinct. */
  predicate BothAppend(b: Value, l: Value, r: Value) {
    && b.Tags? && l.Tags? && r.Tags? && b.tags < l.tags && b.tags < r.tags
    && var all := l.tags + r.tags[|b.tags|..];
       forall i | |b.tags| <= i < |all| :: all[i] != [] && forall j | 0 <= j < i :: all[j] != all[i]
  }

  /** The sides changed the field differently, and not by appending tags to the tag list. */
  predicate Disputed(s: Schema, i: nat, b: Entity, l: Entity, r: Entity)
    requires i < |s.names| == |b.fields| == |l.fields| == |r.fields|
  {
    var (eb, el, er) := (s.field(b.fields[i]), s.field(l.fields[i]), s.field(r.fields[i]));
    el != eb && er != eb && el != er
    && !(s.names[i] == TAGS && BothAppend(b.fields[i], l.fields[i], r.fields[i]))
  }

  predicate Encodable(s: Schema, i: nat, b: Entity, l: Entity, r: Entity)
    requires i < |s.names| == |b.fields| == |l.fields| == |r.fields|
  {
    s.field(b.fields[i]) != [] && s.field(l.fields[i]) != [] && s.field(r.fields[i]) != []
  }

  /** One field of the merged object, on the octets of the field in the three versions. */
  ghost predicate FieldUnited(s: Schema, i: nat, b: Entity, l: Entity, r: Entity, picks: map<Name, bool>, v: Value)
    requires i < |s.names| == |b.fields| == |l.fields| == |r.fields|
  {
    var (eb, el, er) := (s.field(b.fields[i]), s.field(l.fields[i]), s.field(r.fields[i]));
    && Encodable(s, i, b, l, r)
    && (el == eb && er != eb ==> v == r.fields[i])
    && (er == eb || el == er ==> v == l.fields[i])
    && (el != eb && er != eb && el != er && !Disputed(s, i, b, l, r) ==>
          v == Tags(l.fields[i].tags + r.fields[i].tags[|b.fields[i].tags|..]))
    && (Disputed(s, i, b, l, r) ==>
          s.names[i] in picks && v == if picks[s.names[i]] then r.fields[i] else l.fields[i])
  }

  /** The payload holds, field by field, the changes of both sides; disputed fields as picked (true for the right). */
  ghost predicate Unites(s: Schema, b: Entity, l: Entity, r: Entity, picks: map<Name, bool>, payload: Bytes)
    requires |s.names| == |b.fields| == |l.fields| == |r.fields|
  {
    exists e: Entity :: payload == s.write(e) && payload != [] && e.id == l.id && |e.fields| == |s.names|
      && forall i | 0 <= i < |s.names| :: FieldUnited(s, i, b, l, r, picks, e.fields[i])
  }

  /** The merged payload, where the three can be merged by field without leaving a dispute. */
  ghost predicate United(codec: Codec, u: Uuid, base: Showing, left: Showing, right: Showing, picks: map<Name, bool>,
                         payload: Bytes) {
    exists s, b, l, r :: ReadAll(codec, u, base, left, right, s, b, l, r) && Unites(s, b, l, r, picks, payload)
  }

  /** The names of the fields that cannot be merged without asking. */
  ghost predicate DisputedName(codec: Codec, u: Uuid, base: Showing, left: Showing, right: Showing, name: Name) {
    exists s, b, l, r, i: nat :: ReadAll(codec, u, base, left, right, s, b, l, r) && i < |s.names| && s.names[i] == name
      && (Disputed(s, i, b, l, r) || !Encodable(s, i, b, l, r))
  }

  lemma FieldUnitedIs(s: Schema, i: nat, b: Entity, l: Entity, r: Entity, picks: map<Name, bool>)
    requires i < |s.names| == |b.fields| == |l.fields| == |r.fields|
    ensures forall v :: FieldUnited(s, i, b, l, r, picks, v) <==> FieldOf(s, b, l, r, picks, i) == Take(v)
    ensures FieldOf(s, b, l, r, map[], i).Clash? <==> Disputed(s, i, b, l, r) || !Encodable(s, i, b, l, r)
  {
    hide AppendsOnly, BothAppend;
    AppendIs(b.fields[i], l.fields[i], r.fields[i]);
  }

  lemma AppendIs(b: Value, l: Value, r: Value)
    ensures BothAppend(b, l, r) <==> b.Tags? && l.Tags? && r.Tags? && AppendsOnly(b.tags, l.tags, r.tags)
  {
    if b.Tags? && l.Tags? && r.Tags? && b.tags < l.tags && b.tags < r.tags {
      var all := l.tags + r.tags[|b.tags|..];
      forall i | |b.tags| <= i < |all|
        ensures all[i] !in all[..i] <==> forall j | 0 <= j < i :: all[j] != all[i]
      {
        assert forall j | 0 <= j < i :: all[..i][j] == all[j];
      }
    }
  }

  lemma {:induction false} NothingClashes(s: Schema, b: Entity, l: Entity, r: Entity, picks: map<Name, bool>, n: nat)
    requires n <= |s.names| == |b.fields| == |l.fields| == |r.fields|
    requires forall i | 0 <= i < n :: FieldOf(s, b, l, r, picks, i).Take?
    ensures Clashes(s, b, l, r, picks, n) == []
  {
    hide FieldOf;
    if n > 0 { NothingClashes(s, b, l, r, picks, n - 1); }
  }

  lemma UnitesIs(s: Schema, b: Entity, l: Entity, r: Entity, picks: map<Name, bool>, payload: Bytes)
    requires |s.names| == |b.fields| == |l.fields| == |r.fields|
    ensures Unites(s, b, l, r, picks, payload) <==> MergedFields(s, b, l, r, picks) == Some(Merge(payload, []))
  {
    hide FieldUnited, ThreeWay, FieldOf, Clashes;
    forall i | 0 <= i < |s.names|
      ensures forall v :: FieldUnited(s, i, b, l, r, picks, v) <==> FieldOf(s, b, l, r, picks, i) == Take(v)
    {
      FieldUnitedIs(s, i, b, l, r, picks);
    }
    var whole := Combined(s, b, l, r, picks);
    var names := Clashes(s, b, l, r, picks, |s.names|);
    if Unites(s, b, l, r, picks, payload) {
      var e: Entity :| payload == s.write(e) && payload != [] && e.id == l.id && |e.fields| == |s.names|
        && forall i | 0 <= i < |s.names| :: FieldUnited(s, i, b, l, r, picks, e.fields[i]);
      forall i | 0 <= i < |s.names|
        ensures FieldOf(s, b, l, r, picks, i).Take?
      {
        assert FieldUnited(s, i, b, l, r, picks, e.fields[i]);
      }
      NothingClashes(s, b, l, r, picks, |s.names|);
      assert e.fields == whole.fields;
    }
    if names == [] {
      forall i | 0 <= i < |s.names|
        ensures FieldUnited(s, i, b, l, r, picks, whole.fields[i])
      {}
    }
  }

  /** What can be merged by field, and to which payload, is what the field merge finds. */
  lemma UnitedIs(codec: Codec, u: Uuid, kind: Bytes, base: Bytes, left: Bytes, right: Bytes, picks: map<Name, bool>,
                 payload: Bytes)
    requires AllLawful(codec)
    ensures United(codec, u, Some((kind, base)), Some((kind, left)), Some((kind, right)), picks, payload) <==>
            FieldMergeOf(codec, u, kind, base, left, right, picks) == Some(Merge(payload, []))
  {
    hide Unites, MergedFields;
    if Typed(codec, u, kind, base, left, right) {
      var s := codec(kind).value;
      assert Lawful(s);
      UnitesIs(s, s.read(base).value, s.read(left).value, s.read(right).value, picks, payload);
    }
  }

  /** The disputed names are the ones the field merge reports, each once. */
  lemma DisputedIs(codec: Codec, u: Uuid, kind: Bytes, base: Bytes, left: Bytes, right: Bytes)
    requires AllLawful(codec)
    ensures var fields := FieldMergeOf(codec, u, kind, base, left, right, map[]);
      var names := if fields.Some? then fields.value.conflicts else [];
      && (forall name :: name in names <==>
            DisputedName(codec, u, Some((kind, base)), Some((kind, left)), Some((kind, right)), name))
      && Once(names)
  {
    hide FieldOf, Disputed, Encodable, Clashes;
    if Typed(codec, u, kind, base, left, right) {
      var s := codec(kind).value;
      assert Lawful(s);
      var b, l, r := s.read(base).value, s.read(left).value, s.read(right).value;
      NamesOnce(s, b, l, r, |s.names|);
      var fields := FieldMergeOf(codec, u, kind, base, left, right, map[]);
      assert fields == MergedFields(s, b, l, r, map[]);
      assert (if fields.Some? then fields.value.conflicts else []) == Clashes(s, b, l, r, map[], |s.names|);
      forall i | 0 <= i < |s.names|
        ensures FieldOf(s, b, l, r, map[], i).Clash? <==> Disputed(s, i, b, l, r) || !Encodable(s, i, b, l, r)
      {
        FieldUnitedIs(s, i, b, l, r, map[]);
      }
      forall name
        ensures name in Clashes(s, b, l, r, map[], |s.names|) <==>
                DisputedName(codec, u, Some((kind, base)), Some((kind, left)), Some((kind, right)), name)
      {
        if name in Clashes(s, b, l, r, map[], |s.names|) {
          var i :| 0 <= i < |s.names| && s.names[i] == name && FieldOf(s, b, l, r, map[], i).Clash?;
          assert ReadAll(codec, u, Some((kind, base)), Some((kind, left)), Some((kind, right)), s, b, l, r);
        }
      }
    }
  }

  predicate Once(names: seq<Name>) {
    forall i, j | 0 <= i < j < |names| :: names[i] != names[j]
  }

  lemma OnceMore(names: seq<Name>, name: Name)
    requires Once(names) && name !in names
    ensures Once(names + [name])
  {}

  lemma {:induction false} NamesOnce(s: Schema, b: Entity, l: Entity, r: Entity, n: nat)
    requires n <= |s.names| == |b.fields| == |l.fields| == |r.fields| && Once(s.names)
    ensures Once(Clashes(s, b, l, r, map[], n))
  {
    hide FieldOf;
    if n > 0 {
      NamesOnce(s, b, l, r, n - 1);
      var front := Clashes(s, b, l, r, map[], n - 1);
      OnceMore(front, s.names[n - 1]);
    }
  }

  // ----------------------------------------------------------------------- changes

  /**
   A reported change says what each side holds, who changed it, and how the
   changes can be combined: `merged` has the changes of both sides, and a conflict
   names exactly the fields that have to be decided.
   */
  ghost predicate TrueChange(codec: Codec, b: M.Rows, l: M.Rows, r: M.Rows, c: MergeChange) {
    var (base, left, right) := (ShownIn(b, c.id), ShownIn(l, c.id), ShownIn(r, c.id));
    && ShownBy(c.base) == base && ShownBy(c.left) == left && ShownBy(c.right) == right
    && AtVersion(c.base, b, c.id) && AtVersion(c.left, l, c.id) && AtVersion(c.right, r, c.id)
    && (base != left || base != right)
    && (c.kind.RightOnly? <==> base == left) && (c.kind.LeftOnly? <==> base == right)
    && (c.kind.BothSame? <==> left == right)
    && (c.kind.FieldsMerged? <==> c.merged.Some?)
    && (c.merged.Some? ==> left.Some? && c.merged.value.kind == left.value.0
                           && United(codec, c.id, base, left, right, map[], c.merged.value.content))
    && (c.kind.Conflict? ==> forall payload :: !United(codec, c.id, base, left, right, map[], payload))
    && (c.kind.Conflict? ==> forall name :: name in c.conflicting <==>
          DisputedName(codec, c.id, base, left, right, name))
    && (!c.kind.Conflict? ==> c.conflicting == [])
    && Once(c.conflicting)
  }

  /** Exactly the objects that a side changed, in order, each truly reported. */
  ghost predicate TrueChanges(codec: Codec, b: M.Rows, l: M.Rows, r: M.Rows, changes: seq<MergeChange>) {
    && (forall i, j | 0 <= i < j < |changes| :: Less(changes[i].id, changes[j].id))
    && (forall i | 0 <= i < |changes| :: TrueChange(codec, b, l, r, changes[i]))
    && forall u: Uuid :: ShownIn(b, u) != ShownIn(l, u) || ShownIn(b, u) != ShownIn(r, u) ==>
         exists i :: 0 <= i < |changes| && changes[i].id == u
  }

  lemma ShownModel(rows: M.Rows, u: Uuid)
    ensures ShownBy(Get(ModelOf(rows), u)) == ShownIn(rows, u) && AtVersion(Get(ModelOf(rows), u), rows, u)
  {}

  lemma SameShown(a: Option<Object>, b: Option<Object>)
    ensures SameContent(a, b) <==> ShownBy(a) == ShownBy(b)
  {}

  lemma NotUnited(codec: Codec, u: Uuid, base: Showing, left: Showing, right: Showing)
    requires base.None? || left.None? || right.None? || !(base.value.0 == left.value.0 == right.value.0)
    ensures forall picks, payload :: !United(codec, u, base, left, right, picks, payload)
    ensures forall name :: !DisputedName(codec, u, base, left, right, name)
  {}

  lemma ClassifiedTrue(codec: Codec, b: M.Rows, l: M.Rows, r: M.Rows, u: Uuid)
    requires AllLawful(codec) && Changed(ModelOf(b), ModelOf(l), ModelOf(r), u)
    ensures TrueChange(codec, b, l, r,
                       Classified(codec, u, Get(ModelOf(b), u), Get(ModelOf(l), u), Get(ModelOf(r), u)))
  {
    hide AllLawful, FieldMergeOf, United, DisputedName, SameContent, ModelOf, ShownIn, AtVersion;
    var (base, left, right) := (Get(ModelOf(b), u), Get(ModelOf(l), u), Get(ModelOf(r), u));
    ShownModel(b, u);
    ShownModel(l, u);
    ShownModel(r, u);
    SameShown(base, left);
    SameShown(base, right);
    SameShown(left, right);
    if base.Some? && left.Some? && right.Some? && base.value.kind == left.value.kind == right.value.kind {
      forall payload
        ensures United(codec, u, ShownBy(base), ShownBy(left), ShownBy(right), map[], payload) <==>
                AutomaticMerge(codec, u, base, left, right) == Some(Merge(payload, []))
      {
        UnitedIs(codec, u, left.value.kind, base.value.content, left.value.content, right.value.content, map[],
                 payload);
      }
      DisputedIs(codec, u, left.value.kind, base.value.content, left.value.content, right.value.content);
    } else {
      NotUnited(codec, u, ShownBy(base), ShownBy(left), ShownBy(right));
    }
  }

  /** A change list reports exactly the truth. */
  lemma ListTrue(codec: Codec, b: M.Rows, l: M.Rows, r: M.Rows, changes: seq<MergeChange>)
    requires AllLawful(codec) && IsChangeList(codec, ModelOf(b), ModelOf(l), ModelOf(r), changes)
    ensures TrueChanges(codec, b, l, r, changes)
  {
    hide AllLawful, Classified, TrueChange, SameContent, ModelOf, ShownIn, Less;
    forall i | 0 <= i < |changes|
      ensures TrueChange(codec, b, l, r, changes[i])
    {
      ClassifiedTrue(codec, b, l, r, changes[i].id);
    }
    forall u: Uuid | ShownIn(b, u) != ShownIn(l, u) || ShownIn(b, u) != ShownIn(r, u)
      ensures exists i :: 0 <= i < |changes| && changes[i].id == u
    {
      ChangedShown(b, l, r, u);
    }
  }

  lemma ChangedShown(b: M.Rows, l: M.Rows, r: M.Rows, u: Uuid)
    ensures Changed(ModelOf(b), ModelOf(l), ModelOf(r), u) <==>
            ShownIn(b, u) != ShownIn(l, u) || ShownIn(b, u) != ShownIn(r, u)
  {}

  // ------------------------------------------------------------------------- limits

  function Octets(o: Option<Object>): nat {
    match o
    case None => 0
    case Some(it) => |it.content|
  }

  /** The content of all three sides of all changes, in octets. */
  function Payload(changes: seq<MergeChange>): nat {
    if changes == [] then 0 else
      var c := changes[|changes| - 1];
      Payload(changes[..|changes| - 1]) + Octets(c.base) + Octets(c.left) + Octets(c.right)
  }

  /**
   There is one true list of changes. The preview is that list if the list and its
   content are within the limits, and otherwise names a limit that is exceeded.
   */
  ghost predicate Budgeted(codec: Codec, b: M.Rows, l: M.Rows, r: M.Rows, limits: Limits, p: Progress) {
    exists all :: TrueChanges(codec, b, l, r, all)
      && (p.Going? <==> |all| <= limits.maxChanges && Payload(all) <= limits.maxBytes)
      && (p.Going? ==> p.changes == all && p.bytes == Payload(all))
      && (p.TooManyChanges? ==> |all| > limits.maxChanges) && (p.TooManyBytes? ==> Payload(all) > limits.maxBytes)
      && !p.Unreadable? && !p.BadLimits?
  }

  lemma PayloadMore(changes: seq<MergeChange>, c: MergeChange)
    ensures Payload(changes + [c]) == Payload(changes) + Size(c.base) + Size(c.left) + Size(c.right)
  {
    assert (changes + [c])[..|changes|] == changes;
  }

  lemma NoPayload()
    ensures Payload([]) == 0
  {}

  /** The bytes counted are those of the listed changes. */
  lemma {:induction false} WalkPayload(codec: Codec, b: Model, l: Model, r: Model, limits: Limits, ids: seq<Uuid>)
    requires AllLawful(codec) && Walk(codec, b, l, r, limits, ids).Going?
    ensures var p := Walk(codec, b, l, r, limits, ids); p.bytes == Payload(p.changes)
  {
    hide AllLawful, Changed, Classified, Payload, Size, Get;
    NoPayload();
    if ids != [] {
      var n := |ids| - 1;
      WalkPayload(codec, b, l, r, limits, ids[..n]);
      ClassifiedSides(codec, ids[n], Get(b, ids[n]), Get(l, ids[n]), Get(r, ids[n]));
      PayloadMore(Walk(codec, b, l, r, limits, ids[..n]).changes,
                  Classified(codec, ids[n], Get(b, ids[n]), Get(l, ids[n]), Get(r, ids[n])));
    }
  }

  /** A walk that was stopped names a limit that is exceeded. */
  lemma {:induction false} WalkStops(codec: Codec, b: Model, l: Model, r: Model, limits: Limits, ids: seq<Uuid>)
    requires AllLawful(codec)
    ensures var p := Walk(codec, b, l, r, limits, ids);
      && (p.TooManyChanges? ==> |ChangedOnly(b, l, r, ids)| > limits.maxChanges)
      && (p.TooManyBytes? ==> Retained(b, l, r, ids) > limits.maxBytes)
  {
    hide AllLawful, Changed, Classified, Size;
    if ids != [] {
      WalkStops(codec, b, l, r, limits, ids[..|ids| - 1]);
      LimitsExact(codec, b, l, r, limits, ids[..|ids| - 1]);
    }
  }

  lemma {:induction false} ChangedFew(b: Model, l: Model, r: Model, ids: seq<Uuid>)
    ensures |ChangedOnly(b, l, r, ids)| <= |ids|
  {
    hide Changed;
    if ids != [] { ChangedFew(b, l, r, ids[..|ids| - 1]); }
  }

  /** What a walk without limits lists, and what the limits make of it. */
  lemma WalkBudget(codec: Codec, b: Model, l: Model, r: Model, limits: Limits, ids: seq<Uuid>, most: Limits)
    requires AllLawful(codec) && |ids| <= most.maxChanges && Retained(b, l, r, ids) <= most.maxBytes
    ensures var all, p := Walk(codec, b, l, r, most, ids), Walk(codec, b, l, r, limits, ids);
      && all.Going? && all.bytes == Payload(all.changes)
      && (p.Going? <==> |all.changes| <= limits.maxChanges && all.bytes <= limits.maxBytes)
      && (p.Going? ==> p == all)
      && (p.TooManyChanges? ==> |all.changes| > limits.maxChanges) && (p.TooManyBytes? ==> all.bytes > limits.maxBytes)
      && !p.Unreadable? && !p.BadLimits?
  {
    hide AllLawful, Changed, Classified, Walk, Retained, ChangedOnly, Payload, Get;
    ChangedFew(b, l, r, ids);
    LimitsExact(codec, b, l, r, most, ids);
    LimitsExact(codec, b, l, r, limits, ids);
    WalkLists(codec, b, l, r, most, ids);
    WalkPayload(codec, b, l, r, most, ids);
    WalkStops(codec, b, l, r, limits, ids);
    var all, p := Walk(codec, b, l, r, most, ids), Walk(codec, b, l, r, limits, ids);
    if p.Going? {
      WalkLists(codec, b, l, r, limits, ids);
      assert p.changes == all.changes;
    }
  }

  lemma ClassifiedSides(codec: Codec, u: Uuid, base: Option<Object>, left: Option<Object>, right: Option<Object>)
    requires AllLawful(codec)
    ensures var c := Classified(codec, u, base, left, right); c.base == base && c.left == left && c.right == right
  {
    hide AllLawful;
  }

  lemma BudgetKept(codec: Codec, b: M.Rows, l: M.Rows, r: M.Rows, limits: Limits, ids: seq<Uuid>)
    requires AllLawful(codec) && Ascending(ids) && Covers(ModelOf(b), ModelOf(l), ModelOf(r), ids)
    ensures Budgeted(codec, b, l, r, limits, Walk(codec, ModelOf(b), ModelOf(l), ModelOf(r), limits, ids))
  {
    hide AllLawful, Walk, ModelOf, IsChangeList, TrueChanges, Payload;
    var (base, left, right) := (ModelOf(b), ModelOf(l), ModelOf(r));
    var most := Limits(|ids|, Retained(base, left, right, ids));
    WalkBudget(codec, base, left, right, limits, ids, most);
    WalkIsChangeList(codec, base, left, right, most, ids);
    ListTrue(codec, b, l, r, Walk(codec, base, left, right, most, ids).changes);
  }

  /**
   What a field merge holds. The kind is the common one; every field that one side
   changed has that side's value, a common change stays, appended tags of both
   sides are there, and the rest is the base's. If the codec reads back what it
   wrote, this is what a reader of the merged payload finds.
   */
  lemma FieldsMergedMean(codec: Codec, b: M.Rows, l: M.Rows, r: M.Rows, c: MergeChange)
    returns (s: Schema, base: Entity, left: Entity, right: Entity, merged: Entity)
    requires AllLawful(codec) && TrueChange(codec, b, l, r, c) && c.kind.FieldsMerged?
    ensures c.base.Some? && c.left.Some? && c.right.Some? && c.merged.Some?
    ensures c.base.value.kind == c.left.value.kind == c.right.value.kind == c.merged.value.kind
    ensures codec(c.left.value.kind) == Some(s) && s.read(c.base.value.content) == Some(base)
    ensures s.read(c.left.value.content) == Some(left) && s.read(c.right.value.content) == Some(right)
    ensures s.write(merged) == c.merged.value.content && merged.id == c.id
    ensures s.read(s.write(merged)) == Some(merged) ==> s.read(c.merged.value.content) == Some(merged)
    ensures |s.names| == |base.fields| == |left.fields| == |right.fields| == |merged.fields|
    ensures forall i | 0 <= i < |s.names| ::
              var (eb, el, er) := (s.field(base.fields[i]), s.field(left.fields[i]), s.field(right.fields[i]));
              var v := merged.fields[i];
              && (el == eb ==> s.field(v) == er) && (er == eb ==> s.field(v) == el) && (el == er ==> s.field(v) == el)
              && (el != eb && er != eb && el != er ==>
                    && s.names[i] == TAGS && base.fields[i].Tags? && left.fields[i].Tags? && right.fields[i].Tags?
                    && v.Tags? && left.fields[i].tags <= v.tags
                    && multiset(v.tags) + multiset(base.fields[i].tags)
                       == multiset(left.fields[i].tags) + multiset(right.fields[i].tags))
  {
    hide BothAppend, FieldUnited;
    var (sb, sl, sr) := (ShownIn(b, c.id), ShownIn(l, c.id), ShownIn(r, c.id));
    var payload := c.merged.value.content;
    s, base, left, right :| ReadAll(codec, c.id, sb, sl, sr, s, base, left, right)
      && Unites(s, base, left, right, map[], payload);
    merged :| payload == s.write(merged) && payload != [] && merged.id == left.id && |merged.fields| == |s.names|
      && forall i | 0 <= i < |s.names| :: FieldUnited(s, i, base, left, right, map[], merged.fields[i]);
    forall i | 0 <= i < |s.names| {
      FieldMean(s, i, base, left, right, merged.fields[i]);
    }
  }

  lemma FieldMean(s: Schema, i: nat, b: Entity, l: Entity, r: Entity, v: Value)
    requires i < |s.names| == |b.fields| == |l.fields| == |r.fields| && FieldUnited(s, i, b, l, r, map[], v)
    ensures var (eb, el, er) := (s.field(b.fields[i]), s.field(l.fields[i]), s.field(r.fields[i]));
      && (el == eb ==> s.field(v) == er) && (er == eb ==> s.field(v) == el) && (el == er ==> s.field(v) == el)
      && (el != eb && er != eb && el != er ==>
            && s.names[i] == TAGS && b.fields[i].Tags? && l.fields[i].Tags? && r.fields[i].Tags?
            && v.Tags? && l.fields[i].tags <= v.tags
            && multiset(v.tags) + multiset(b.fields[i].tags) == multiset(l.fields[i].tags) + multiset(r.fields[i].tags))
  {
    AppendIs(b.fields[i], l.fields[i], r.fields[i]);
    hide AppendsOnly;
    if BothAppend(b.fields[i], l.fields[i], r.fields[i]) {
      TagsConserved(b.fields[i].tags, l.fields[i].tags, r.fields[i].tags);
    }
  }
}
