/** Committing a three-way merge: conflict resolutions, the edits they select, and the sealed result. */
module MergeCommit {
  import opened Prelude
  import opened Uuid
  import opened FieldMerge
  import opened ThreeWayMerge
  import opened Journal
  import opened UndoHistory
  import opened WorkingObjects
  import M = ModelRecord

  datatype Side = LeftSide | RightSide

  datatype FieldResolution = FieldResolution(name: Name, side: Side)

  datatype Resolution = Resolution(id: Uuid, side: Side, fields: seq<FieldResolution>)

  // -------------------------------------------------------- what a merge means

  /** Field choices that name each conflicting field exactly once. */
  predicate ExactChoices(fields: seq<FieldResolution>, conflicting: seq<Name>) {
    && |fields| == |conflicting|
    && (forall i | 0 <= i < |fields| :: fields[i].name != [] && fields[i].name in conflicting)
    && forall i, j | 0 <= i < j < |fields| :: fields[i].name != fields[j].name
  }

  function ChoicesOf(fields: seq<FieldResolution>): map<Name, bool> {
    if fields == [] then map[] else
      var n := |fields| - 1;
      ChoicesOf(fields[..n])[fields[n].name := fields[n].side.RightSide?]
  }

  /** The object that field choices synthesize. */
  ghost function FieldResolved(codec: Codec, c: MergeChange, fields: seq<FieldResolution>): Option<Object>
    requires AllLawful(codec)
  {
    if c.conflicting == [] || c.base.None? || c.left.None? || c.right.None?
       || c.base.value.kind != c.left.value.kind || c.left.value.kind != c.right.value.kind
       || !ExactChoices(fields, c.conflicting) then None
    else
      var merged := FieldMergeOf(codec, c.id, c.left.value.kind, c.base.value.content, c.left.value.content,
                                 c.right.value.content, ChoicesOf(fields));
      if merged.None? || merged.value.conflicts != [] then None
      else Some(Object(c.left.value.kind, merged.value.content, c.left.value.version))
  }

  /**
   The three-way merge of one object: the side that changed, the common value,
   the field merge, or the resolution of the conflict. No result is a refusal.
   */
  ghost function Merged(codec: Codec, c: MergeChange, res: Option<Resolution>): Option<Option<Object>>
    requires AllLawful(codec)
  {
    match c.kind
    case RightOnly => if res.Some? then None else Some(c.right)
    case LeftOnly => if res.Some? then None else Some(c.left)
    case BothSame => if res.Some? then None else Some(c.left)
    case FieldsMerged => if res.Some? || c.merged.None? then None else Some(c.merged)
    case Conflict =>
      if res.None? then None
      else if res.value.fields != [] then
        var o := FieldResolved(codec, c, res.value.fields);
        if o.None? then None else Some(o)
      else Some(if res.value.side.RightSide? then c.right else c.left)
  }

  /** A merge may not give an existing object another kind. */
  predicate KindKept(left: Option<Object>, chosen: Option<Object>) {
    left.Some? && chosen.Some? ==> left.value.kind == chosen.value.kind
  }

  ghost predicate Settles(codec: Codec, c: MergeChange, res: Option<Resolution>)
    requires AllLawful(codec)
  {
    Merged(codec, c, res).Some? && KindKept(c.left, Merged(codec, c, res).value)
  }

  // ------------------------------------------------------------------ resolutions

  function SelectionOf(resolutions: seq<Resolution>): map<Uuid, Resolution> {
    if resolutions == [] then map[] else
      var n := |resolutions| - 1;
      SelectionOf(resolutions[..n])[resolutions[n].id := resolutions[n]]
  }

  predicate Proper(resolutions: seq<Resolution>) {
    && (forall i | 0 <= i < |resolutions| :: !IsNull(resolutions[i].id))
    && forall i, j | 0 <= i < j < |resolutions| :: resolutions[i].id != resolutions[j].id
  }

  method SelectResolutions(resolutions: seq<Resolution>) returns (selected: Option<map<Uuid, Resolution>>)
    ensures selected == if Proper(resolutions) then Some(SelectionOf(resolutions)) else None
  {
    hide IsNull;
    var chosen: map<Uuid, Resolution> := map[];
    for i := 0 to |resolutions|
      invariant chosen == SelectionOf(resolutions[..i])
      invariant forall id :: id in chosen <==> exists j :: 0 <= j < i && resolutions[j].id == id
      invariant forall j | 0 <= j < i :: !IsNull(resolutions[j].id)
      invariant forall j, k | 0 <= j < k < i :: resolutions[j].id != resolutions[k].id
    {
      assert resolutions[..i + 1][..i] == resolutions[..i];
      if IsNull(resolutions[i].id) || resolutions[i].id in chosen {
        return None;
      }
      chosen := chosen[resolutions[i].id := resolutions[i]];
    }
    assert resolutions[..|resolutions|] == resolutions;
    selected := Some(chosen);
  }

  method CheckChoices(fields: seq<FieldResolution>, conflicting: seq<Name>) returns (choices: Option<map<Name, bool>>)
    ensures choices == if ExactChoices(fields, conflicting) then Some(ChoicesOf(fields)) else None
  {
    if |fields| != |conflicting| {
      return None;
    }
    var chosen: map<Name, bool> := map[];
    for i := 0 to |fields|
      invariant chosen == ChoicesOf(fields[..i])
      invariant forall name :: name in chosen <==> exists j :: 0 <= j < i && fields[j].name == name
      invariant forall j | 0 <= j < i :: fields[j].name != [] && fields[j].name in conflicting
      invariant forall j, k | 0 <= j < k < i :: fields[j].name != fields[k].name
    {
      assert fields[..i + 1][..i] == fields[..i];
      if fields[i].name == [] || fields[i].name !in conflicting || fields[i].name in chosen {
        return None;
      }
      chosen := chosen[fields[i].name := fields[i].side.RightSide?];
    }
    assert fields[..|fields|] == fields;
    choices := Some(chosen);
  }

  // ------------------------------------------------------------------------ edits

  /** The write that a settled change needs; none if the left side already shows the result. */
  ghost function ItemFor(codec: Codec, c: MergeChange, res: Option<Resolution>): seq<Item>
    requires AllLawful(codec) && Settles(codec, c, res)
  {
    var chosen := Merged(codec, c, res).value;
    if SameContent(c.left, chosen) then []
    else if chosen.None? then [Item(c.id, [], None)]
    else [Item(c.id, chosen.value.kind, Some(chosen.value.content))]
  }

  ghost function ItemsFor(codec: Codec, changes: seq<MergeChange>, selected: map<Uuid, Resolution>): seq<Item>
    requires AllLawful(codec)
    requires forall i | 0 <= i < |changes| :: Settles(codec, changes[i], Get(selected, changes[i].id))
  {
    if changes == [] then [] else
      var n := |changes| - 1;
      ItemsFor(codec, changes[..n], selected) + ItemFor(codec, changes[n], Get(selected, changes[n].id))
  }

  method EditFor(codec: Codec, c: MergeChange, res: Option<Resolution>) returns (items: Option<seq<Item>>)
    requires AllLawful(codec) && (c.kind.FieldsMerged? ==> c.merged.Some?)
    ensures items.Some? <==> Settles(codec, c, res)
    ensures items.Some? ==> items.value == ItemFor(codec, c, res)
  {
    hide AllLawful, FieldMergeOf, ExactChoices, ChoicesOf;
    var conflict := c.kind.Conflict?;
    if conflict != res.Some? {
      return None;
    }
    var fieldMerged: Option<Object> := None;
    if conflict && res.value.fields != [] {
      if c.conflicting == [] || c.base.None? || c.left.None? || c.right.None?
         || c.base.value.kind != c.left.value.kind || c.left.value.kind != c.right.value.kind {
        return None;
      }
      var choices := CheckChoices(res.value.fields, c.conflicting);
      if choices.None? {
        return None;
      }
      var merged := MergeModelFields(codec, c.id, c.left.value.kind, c.base.value.content, c.left.value.content,
                                     c.right.value.content, choices.value);
      if merged.None? || merged.value.conflicts != [] || merged.value.content == [] {
        return None;
      }
      fieldMerged := Some(Object(c.left.value.kind, merged.value.content, c.left.value.version));
    }
    var takeMerged := c.kind.FieldsMerged? || fieldMerged.Some?;
    var takeRight := c.kind.RightOnly? || (conflict && res.value.fields == [] && res.value.side.RightSide?);
    var chosen := if fieldMerged.Some? then fieldMerged else if c.kind.FieldsMerged? then c.merged else c.right;
    if (!takeRight && !takeMerged) || SameContent(c.left, chosen) {
      return Some([]);
    }
    if c.left.Some? && chosen.Some? && c.left.value.kind != chosen.value.kind {
      return None;
    }
    return Some([Item(c.id, if chosen.Some? then chosen.value.kind else [], if chosen.Some?
                      then Some(chosen.value.content) else None)]);
  }

  ghost predicate AllSettle(codec: Codec, changes: seq<MergeChange>, selected: map<Uuid, Resolution>)
    requires AllLawful(codec)
  {
    forall i | 0 <= i < |changes| :: Settles(codec, changes[i], Get(selected, changes[i].id))
  }

  predicate MergedPresent(changes: seq<MergeChange>) {
    forall i | 0 <= i < |changes| :: changes[i].kind.FieldsMerged? ==> changes[i].merged.Some?
  }

  method SelectEdits(codec: Codec, changes: seq<MergeChange>, selected: map<Uuid, Resolution>)
    returns (items: Option<seq<Item>>)
    requires AllLawful(codec) && MergedPresent(changes)
    ensures items.Some? <==> AllSettle(codec, changes, selected)
    ensures items.Some? ==> items.value == ItemsFor(codec, changes, selected)
  {
    hide AllLawful, Settles, ItemFor;
    var edits: seq<Item> := [];
    for i := 0 to |changes|
      invariant AllSettle(codec, changes[..i], selected) && edits == ItemsFor(codec, changes[..i], selected)
    {
      assert changes[..i + 1][..i] == changes[..i];
      var res := if changes[i].id in selected then Some(selected[changes[i].id]) else None;
      var edit := EditFor(codec, changes[i], res);
      if edit.None? {
        return None;
      }
      edits := edits + edit.value;
    }
    assert changes[..|changes|] == changes;
    items := Some(edits);
  }

  // -------------------------------------------------------------- conflict counting

  function ConflictIds(changes: seq<MergeChange>): (ids: set<Uuid>)
    ensures forall id :: id in ids <==> exists i ::
              0 <= i < |changes| && changes[i].kind.Conflict?
              && changes[i].id == id
  {
    if changes == [] then {} else
      var n := |changes| - 1;
      ConflictIds(changes[..n]) + if changes[n].kind.Conflict? then {changes[n].id} else {}
  }

  predicate DistinctChanges(changes: seq<MergeChange>) {
    forall i, j | 0 <= i < j < |changes| :: changes[i].id != changes[j].id
  }

  lemma {:induction false} ConflictsCounted(changes: seq<MergeChange>)
    requires DistinctChanges(changes)
    ensures |ConflictIds(changes)| == CountConflicts(changes)
  {
    if changes != [] {
      var n := |changes| - 1;
      ConflictsCounted(changes[..n]);
      assert changes[n].id !in ConflictIds(changes[..n]);
    }
  }

  /** Every conflict is resolved and the sizes agree: the resolutions are for the conflicts and nothing else. */
  lemma ExactlyTheConflicts(codec: Codec, changes: seq<MergeChange>, selected: map<Uuid, Resolution>)
    requires AllLawful(codec) && DistinctChanges(changes) && AllSettle(codec, changes, selected)
    ensures ConflictIds(changes) <= selected.Keys
    ensures |selected| == CountConflicts(changes) <==> selected.Keys == ConflictIds(changes)
  {
    hide AllLawful, Settles, CountConflicts, ConflictIds;
    ConflictsCounted(changes);
    forall id | id in ConflictIds(changes)
      ensures id in selected
    {
      var i :| 0 <= i < |changes| && changes[i].kind.Conflict? && changes[i].id == id;
      SettledExplicitly(codec, changes[i], Get(selected, changes[i].id));
    }
    SubsetSize(ConflictIds(changes), selected.Keys);
    assert |selected| == |selected.Keys|;
  }

  /** A conflict is settled by a resolution only, and nothing else takes one. */
  lemma SettledExplicitly(codec: Codec, c: MergeChange, res: Option<Resolution>)
    requires AllLawful(codec) && Settles(codec, c, res)
    ensures res.Some? <==> c.kind.Conflict?
  {}
}
