/** Three-way merge of the fields of one model object. */
module FieldMerge {
  import opened Prelude
  import opened Uuid

  type Name = Bytes

  /** A field: a list of tags, or anything else, known by its canonical octets. */
  datatype Value = Plain(octets: Bytes) | Tags(tags: seq<Bytes>)

  datatype Entity = Entity(id: Uuid, fields: seq<Value>)

  /** How one kind of object is stored: its field names, its codec, and the field encoding. */
  datatype Schema = Schema(names: seq<Name>, read: Bytes -> Option<Entity>, write: Entity -> Bytes,
                           field: Value -> Bytes)

  /** The kinds that can be merged by field. */
  type Codec = Bytes -> Option<Schema>

  /** A decoded object has one value per name, and names do not repeat. */
  ghost predicate Lawful(s: Schema) {
    && (forall i, j | 0 <= i < j < |s.names| :: s.names[i] != s.names[j])
    && forall b | s.read(b).Some? :: |s.read(b).value.fields| == |s.names|
  }

  ghost predicate AllLawful(codec: Codec) {
    forall kind | codec(kind).Some? :: Lawful(codec(kind).value)
  }

  /** The content is empty exactly when there are conflicts. */
  datatype Merge = Merge(content: Bytes, conflicts: seq<Name>)

  // "metadata.tags"
  const TAGS: Name := [109, 101, 116, 97, 100, 97, 116, 97, 46, 116, 97, 103, 115]
  const FIELD_MERGE_LIMIT: nat := 4 * 1024 * 1024

  // ------------------------------------------------------------------------ tags

  /** Both sides only append, and nothing appended is empty, repeated or already there. */
  predicate AppendsOnly(base: seq<Bytes>, left: seq<Bytes>, right: seq<Bytes>) {
    && base < left && base < right
    && NewTags(left + right[|base|..], |base|)
  }

  /** The appended part of a list brings only new, nonempty tags. */
  predicate NewTags(all: seq<Bytes>, from: nat) {
    forall i | from <= i < |all| :: all[i] != [] && all[i] !in all[..i]
  }

  lemma NewTagsStep(all: seq<Bytes>, from: nat, tag: Bytes)
    ensures NewTags(all + [tag], from) <==> NewTags(all, from) && (|all| < from || (tag != [] && tag !in all))
  {
    var longer := all + [tag];
    assert longer[..|all|] == all;
    forall i | 0 <= i < |all|
      ensures longer[i] == all[i] && longer[..i] == all[..i]
    {}
    if NewTags(longer, from) {
      forall i | from <= i < |all|
        ensures all[i] != [] && all[i] !in all[..i]
      {
        assert longer[i] != [] && longer[i] !in longer[..i];
      }
    }
  }

  lemma {:induction false} NewTagsPrefix(all: seq<Bytes>, more: seq<Bytes>, from: nat)
    requires NewTags(all + more, from)
    ensures NewTags(all, from)
  {
    forall i | from <= i < |all|
      ensures all[i] != [] && all[i] !in all[..i]
    {
      assert (all + more)[i] == all[i] && (all + more)[..i] == all[..i];
    }
  }

  /** Appends tags one by one, refusing an empty or already observed one. */
  method AppendNew(list: seq<Bytes>, added: seq<Bytes>, observed: set<Bytes>, ghost from: nat)
    returns (ok: bool, merged: seq<Bytes>, observed': set<Bytes>)
    requires observed == (set t | t in list) && NewTags(list, from) && from <= |list|
    ensures ok <==> NewTags(list + added, from)
    ensures ok ==> merged == list + added && observed' == set t | t in merged
  {
    hide NewTags;
    merged, observed' := list, observed;
    for i := 0 to |added|
      invariant merged == list + added[..i]
      invariant observed' == set t | t in merged
      invariant NewTags(merged, from)
    {
      NewTagsStep(merged, from, added[i]);
      if added[i] == [] || added[i] in observed' {
        assert list + added == (merged + [added[i]]) + added[i + 1..];
        if NewTags(list + added, from) { NewTagsPrefix(merged + [added[i]], added[i + 1..], from); }
        return false, merged, observed';
      }
      observed' := observed' + {added[i]};
      merged := merged + [added[i]];
    }
    assert added[..|added|] == added;
    ok := true;
  }

  method MergeAppendedTags(base: seq<Bytes>, left: seq<Bytes>, right: seq<Bytes>) returns (merged: Option<seq<Bytes>>)
    ensures merged == if AppendsOnly(base, left, right) then Some(left + right[|base|..]) else None
  {
    if |left| <= |base| || |right| <= |base| {
      return None;
    }
    for i := 0 to |base|
      invariant left[..i] == base[..i] == right[..i]
    {
      if left[i] != base[i] || right[i] != base[i] {
        return None;
      }
    }
    assert left[..|base|] == base && right[..|base|] == base;
    var observed: set<Bytes> := {};
    for i := 0 to |base|
      invariant observed == set t | t in base[..i]
    {
      observed := observed + {base[i]};
    }
    assert base[..|base|] == base;
    ghost var all := left + right[|base|..];
    assert AppendsOnly(base, left, right) <==> NewTags(all, |base|);
    assert base + left[|base|..] == left;
    var ok, list, known := AppendNew(base, left[|base|..], observed, |base|);
    if !ok {
      if NewTags(all, |base|) { NewTagsPrefix(left, right[|base|..], |base|); }
      return None;
    }
    ok, list, known := AppendNew(list, right[|base|..], known, |base|);
    return if ok then Some(list) else None;
  }

  /** No tag of either side is lost and none is invented; the order of the sides decides only the order of the tags. */
  lemma TagsConserved(base: seq<Bytes>, left: seq<Bytes>, right: seq<Bytes>)
    requires AppendsOnly(base, left, right)
    ensures multiset(left + right[|base|..]) + multiset(base) == multiset(left) + multiset(right)
    ensures AppendsOnly(base, right, left)
  {
    assert right == base + right[|base|..] && left == base + left[|base|..];
    var all, lla := left + right[|base|..], right + left[|base|..];
    var n, m := |left| - |base|, |right| - |base|;
    forall i | |base| <= i < |lla|
      ensures lla[i] != [] && lla[i] !in lla[..i]
    {
      // position of the same tag in the other order
      var at := if i < |right| then i + n else i - m;
      assert all[at] == lla[i] && all[at] !in all[..at];
      forall j | 0 <= j < i
        ensures lla[j] != lla[i]
      {
        var from := if j < |base| then j else if j < |right| then j + n else j - m;
        assert all[from] == lla[j];
        if from < at { assert all[from] == all[..at][from]; } else { assert all[at] == all[..from][at]; }
      }
    }
  }

  // --------------------------------------------------------------------- one field

  datatype Choice = Take(value: Value) | Clash

  function ThreeWay(s: Schema, name: Name, base: Value, left: Value, right: Value, choices: map<Name, bool>): Choice {
    var b, l, r := s.field(base), s.field(left), s.field(right);
    if b == [] || l == [] || r == [] then Clash
    else if l == r || r == b then Take(left)
    else if l == b then Take(right)
    else if name == TAGS && base.Tags? && left.Tags? && right.Tags? && AppendsOnly(base.tags, left.tags, right.tags)
    then Take(Tags(left.tags + right.tags[|base.tags|..]))
    else if name in choices then Take(if choices[name] then right else left)
    else Clash
  }

  method ChooseMergeField(s: Schema, name: Name, base: Value, left: Value, right: Value, choices: map<Name, bool>)
    returns (choice: Choice)
    ensures choice == ThreeWay(s, name, base, left, right, choices)
  {
    var baseline, leftBytes, rightBytes := s.field(base), s.field(left), s.field(right);
    if baseline == [] || leftBytes == [] || rightBytes == [] {
      return Clash;
    }
    if leftBytes == rightBytes || rightBytes == baseline {
      return Take(left);
    }
    if leftBytes == baseline {
      return Take(right);
    }
    if name == TAGS && base.Tags? && left.Tags? && right.Tags? {
      var appended := MergeAppendedTags(base.tags, left.tags, right.tags);
      if appended.Some? {
        return Take(Tags(appended.value));
      }
    }
    if name in choices {
      return Take(if choices[name] then right else left);
    }
    return Clash;
  }

  // ------------------------------------------------------------------- all fields

  function FieldOf(s: Schema, b: Entity, l: Entity, r: Entity, choices: map<Name, bool>, i: nat): Choice
    requires i < |s.names| == |b.fields| == |l.fields| == |r.fields|
  {
    ThreeWay(s, s.names[i], b.fields[i], l.fields[i], r.fields[i], choices)
  }

  /** The names of the first fields that clash, in schema order. */
  function Clashes(s: Schema, b: Entity, l: Entity, r: Entity, choices: map<Name, bool>, n: nat): (names: seq<Name>)
    requires n <= |s.names| == |b.fields| == |l.fields| == |r.fields|
    ensures forall i | 0 <= i < n :: FieldOf(s, b, l, r, choices, i).Clash? ==> s.names[i] in names
    ensures forall name | name in names :: exists i ::
              0 <= i < n && s.names[i] == name
              && FieldOf(s, b, l, r, choices, i).Clash?
  {
    if n == 0 then [] else
      Clashes(s, b, l, r, choices, n - 1) + if FieldOf(s, b, l, r, choices, n - 1).Clash? then [s.names[n - 1]] else []
  }

  /** The merged object; a clashing field keeps the left value. */
  function Combined(s: Schema, b: Entity, l: Entity, r: Entity, choices: map<Name, bool>): Entity
    requires |s.names| == |b.fields| == |l.fields| == |r.fields|
  {
    Entity(l.id, seq(|s.names|, i requires 0 <= i < |s.names| =>
      match FieldOf(s, b, l, r, choices, i) case Take(v) => v case Clash => l.fields[i]))
  }

  /** A payload that decodes to this very object and is in canonical form. */
  predicate Canonical(s: Schema, id: Uuid, bytes: Bytes) {
    s.read(bytes).Some? && s.read(bytes).value.id == id && s.write(s.read(bytes).value) == bytes
  }

  predicate WithinLimits(bytes: Bytes) {
    0 < |bytes| <= FIELD_MERGE_LIMIT
  }

  /** Whether three payloads can be merged by field at all. */
  predicate Typed(codec: Codec, id: Uuid, kind: Bytes, base: Bytes, left: Bytes, right: Bytes) {
    && !IsNull(id)
    && WithinLimits(base) && WithinLimits(left) && WithinLimits(right)
    && codec(kind).Some?
    && Canonical(codec(kind).value, id, base) && Canonical(codec(kind).value, id, left)
    && Canonical(codec(kind).value, id, right)
  }

  function MergedFields(s: Schema, b: Entity, l: Entity, r: Entity, choices: map<Name, bool>): Option<Merge>
    requires |s.names| == |b.fields| == |l.fields| == |r.fields|
  {
    var conflicts := Clashes(s, b, l, r, choices, |s.names|);
    if conflicts != [] then Some(Merge([], conflicts))
    else if s.write(Combined(s, b, l, r, choices)) == [] then None
    else Some(Merge(s.write(Combined(s, b, l, r, choices)), []))
  }

  ghost function FieldMergeOf(codec: Codec, id: Uuid, kind: Bytes, base: Bytes, left: Bytes, right: Bytes,
                              choices: map<Name, bool>): (r: Option<Merge>)
    requires AllLawful(codec)
    ensures r.Some? ==> (r.value.content == [] <==> r.value.conflicts != [])
  {
    if !Typed(codec, id, kind, base, left, right) then None else
      var s := codec(kind).value;
      assert Lawful(s);
      MergedFields(s, s.read(base).value, s.read(left).value, s.read(right).value, choices)
  }

  method MergeModelFields(codec: Codec, id: Uuid, kind: Bytes, base: Bytes, left: Bytes, right: Bytes,
                          choices: map<Name, bool>)
    returns (r: Option<Merge>)
    requires AllLawful(codec)
    ensures r == FieldMergeOf(codec, id, kind, base, left, right, choices)
  {
    if IsNull(id) || base == [] || left == [] || right == []
       || |base| > FIELD_MERGE_LIMIT || |left| > FIELD_MERGE_LIMIT || |right| > FIELD_MERGE_LIMIT {
      return None;
    }
    if codec(kind).None? {
      return None;
    }
    r := MergeFieldsForType(codec(kind).value, id, base, left, right, choices);
  }

  /** The fields of one kind, merged in schema order. */
  method MergeFieldsForType(s: Schema, id: Uuid, base: Bytes, left: Bytes, right: Bytes, choices: map<Name, bool>)
    returns (r: Option<Merge>)
    requires Lawful(s)
    ensures r == if !(Canonical(s, id, base) && Canonical(s, id, left) && Canonical(s, id, right)) then None
                 else MergedFields(s, s.read(base).value, s.read(left).value, s.read(right).value, choices)
  {
    var baseline, leftEntity, rightEntity := s.read(base), s.read(left), s.read(right);
    if baseline.None? || leftEntity.None? || rightEntity.None?
       || baseline.value.id != id || leftEntity.value.id != id || rightEntity.value.id != id
       || s.write(baseline.value) != base || s.write(leftEntity.value) != left || s.write(rightEntity.value) != right {
      return None;
    }
    var b, l, w := baseline.value, leftEntity.value, rightEntity.value;
    var merged := l.fields;
    var conflicts: seq<Name> := [];
    for i := 0 to |s.names|
      invariant |merged| == |s.names| && conflicts == Clashes(s, b, l, w, choices, i)
      invariant forall j | 0 <= j < i :: merged[j] == Combined(s, b, l, w, choices).fields[j]
      invariant forall j | i <= j < |merged| :: merged[j] == l.fields[j]
    {
      var choice := ChooseMergeField(s, s.names[i], b.fields[i], l.fields[i], w.fields[i], choices);
      match choice {
        case Take(v) => merged := merged[i := v];
        case Clash => conflicts := conflicts + [s.names[i]];
      }
    }
    if conflicts != [] {
      return Some(Merge([], conflicts));
    }
    assert Entity(l.id, merged) == Combined(s, b, l, w, choices);
    var content := s.write(Entity(l.id, merged));
    return if content == [] then None else Some(Merge(content, []));
  }

  // ---------------------------------------------------------------- what it means

  /** A field changed on one side only takes that side; a field nobody changed stays; nothing is lost. */
  lemma NoUpdateLost(s: Schema, b: Entity, l: Entity, r: Entity, choices: map<Name, bool>, i: nat)
    requires i < |s.names| == |b.fields| == |l.fields| == |r.fields|
    requires Clashes(s, b, l, r, choices, |s.names|) == []
    ensures var v := s.field(Combined(s, b, l, r, choices).fields[i]);
      var eb, el, er := s.field(b.fields[i]), s.field(l.fields[i]), s.field(r.fields[i]);
      && (el == eb ==> v == er) && (er == eb ==> v == el) && (el == er ==> v == el)
      && (el != eb && er != eb && el != er ==>
            s.names[i] in choices || (s.names[i] == TAGS && b.fields[i].Tags? && l.fields[i].Tags? && r.fields[i].Tags?
                                      && AppendsOnly(b.fields[i].tags, l.fields[i].tags, r.fields[i].tags)))
  {
    assert FieldOf(s, b, l, r, choices, i).Take?;
  }

  function Flipped(choices: map<Name, bool>): map<Name, bool> {
    map name | name in choices :: !choices[name]
  }

  /** The value is the same, or the same tags in another order. */
  ghost predicate AlikeValues(s: Schema, a: Value, b: Value) {
    s.field(a) == s.field(b) || (a.Tags? && b.Tags? && multiset(a.tags) == multiset(b.tags))
  }

  /** Both sides changed the field, and not to the same value. */
  predicate Contested(s: Schema, base: Value, left: Value, right: Value) {
    s.field(left) != s.field(base) && s.field(right) != s.field(base) && s.field(left) != s.field(right)
  }

  /**
   What one field's merge means. It clashes only if a value cannot be encoded or
   the field is contested without appended tags or a choice. An uncontested field
   takes the change there is; a contested one takes all tags of both sides, or
   one whole side. Which side is called left does not matter.
   */
  lemma FieldSettled(s: Schema, name: Name, base: Value, left: Value, right: Value, choices: map<Name, bool>)
    ensures var c := ThreeWay(s, name, base, left, right, choices);
      var encodes := s.field(base) != [] && s.field(left) != [] && s.field(right) != [];
      var appends := name == TAGS && base.Tags? && left.Tags? && right.Tags?
        && AppendsOnly(base.tags, left.tags, right.tags);
      && (c.Clash? <==> !encodes || (Contested(s, base, left, right) && !appends && name !in choices))
      && (c.Take? && !Contested(s, base, left, right) ==>
            s.field(c.value) == if s.field(left) == s.field(base) then s.field(right) else s.field(left))
      && (c.Take? && Contested(s, base, left, right) ==>
            if appends then c.value.Tags? && left.tags <= c.value.tags
                            && multiset(c.value.tags) + multiset(base.tags)
                                 == multiset(left.tags) + multiset(right.tags)
            else c.value == left || c.value == right)
    ensures var c, d := ThreeWay(s, name, base, left, right, choices),
              ThreeWay(s, name, base, right, left, Flipped(choices));
      (c.Clash? <==> d.Clash?) && (c.Take? ==> AlikeValues(s, c.value, d.value))
  {
    hide AppendsOnly;
    if base.Tags? && left.Tags? && right.Tags? {
      if AppendsOnly(base.tags, left.tags, right.tags) {
        TagsConserved(base.tags, left.tags, right.tags);
        TagsConserved(base.tags, right.tags, left.tags);
        AppendedMore(base.tags, left.tags, right.tags);
      }
      if AppendsOnly(base.tags, right.tags, left.tags) { TagsConserved(base.tags, right.tags, left.tags); }
    }
  }

  lemma AppendedMore(base: seq<Bytes>, left: seq<Bytes>, right: seq<Bytes>)
    requires AppendsOnly(base, left, right) && AppendsOnly(base, right, left)
    requires multiset(left + right[|base|..]) + multiset(base) == multiset(left) + multiset(right)
    requires multiset(right + left[|base|..]) + multiset(base) == multiset(right) + multiset(left)
    ensures multiset(left + right[|base|..]) == multiset(right + left[|base|..])
  {
    var a, b := multiset(left + right[|base|..]), multiset(right + left[|base|..]);
    forall t
      ensures a[t] == b[t]
    {
      assert (a + multiset(base))[t] == (b + multiset(base))[t];
    }
  }

  /** Choices are consulted for clashing fields only, and settle exactly those that can be compared at all. */
  lemma ChoicesSettle(s: Schema, b: Entity, l: Entity, r: Entity, choices: map<Name, bool>, i: nat)
    requires i < |s.names| == |b.fields| == |l.fields| == |r.fields|
    ensures var plain, settled := FieldOf(s, b, l, r, map[], i), FieldOf(s, b, l, r, choices, i);
      && (plain.Take? ==> settled == plain)
      && (plain.Clash? ==>
            var comparable := s.field(b.fields[i]) != [] && s.field(l.fields[i]) != [] && s.field(r.fields[i]) != [];
            settled == if comparable && s.names[i] in choices
                       then Take(if choices[s.names[i]] then r.fields[i] else l.fields[i]) else Clash)
  {}

  /** A set of choices for exactly the clashing names leaves no clash, if every clashing field can be encoded. */
  lemma {:induction false} ChoicesSuffice(s: Schema, b: Entity, l: Entity, r: Entity, choices: map<Name, bool>, n: nat)
    requires n <= |s.names| == |b.fields| == |l.fields| == |r.fields|
    requires forall name | name in Clashes(s, b, l, r, map[], n) :: name in choices
    requires forall i | 0 <= i < n :: s.field(b.fields[i]) != [] && s.field(l.fields[i]) != []
               && s.field(r.fields[i]) != []
    ensures Clashes(s, b, l, r, choices, n) == []
  {
    hide ThreeWay, FieldOf;
    if n > 0 {
      ChoicesSuffice(s, b, l, r, choices, n - 1);
      ChoicesSettle(s, b, l, r, choices, n - 1);
    }
  }

  lemma ClashAlike(s: Schema, name: Name, b: Value, l: Value, r: Value)
    ensures ThreeWay(s, name, b, l, r, map[]).Clash? <==> ThreeWay(s, name, b, r, l, map[]).Clash?
  {
    hide AppendsOnly;
    if b.Tags? && l.Tags? && r.Tags? {
      if AppendsOnly(b.tags, l.tags, r.tags) { TagsConserved(b.tags, l.tags, r.tags); }
      if AppendsOnly(b.tags, r.tags, l.tags) { TagsConserved(b.tags, r.tags, l.tags); }
    }
  }

  /** The two sides are treated alike: the same names clash whichever side is called left. */
  lemma {:induction false} SidesAlike(s: Schema, b: Entity, l: Entity, r: Entity, n: nat)
    requires n <= |s.names| == |b.fields| == |l.fields| == |r.fields|
    ensures Clashes(s, b, l, r, map[], n) == Clashes(s, b, r, l, map[], n)
  {
    hide ThreeWay;
    if n > 0 {
      SidesAlike(s, b, l, r, n - 1);
      ClashAlike(s, s.names[n - 1], b.fields[n - 1], l.fields[n - 1], r.fields[n - 1]);
    }
  }
}
