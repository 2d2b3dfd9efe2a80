/** The merge on the working head: preview, resolutions, edits, and group. */
module MergeRevision {
  import opened Prelude
  import opened Uuid
  import opened FieldMerge
  import opened ThreeWayMerge
  import opened Journal
  import opened UndoHistory
  import opened WorkingObjects
  import opened MergeCommit
  import opened MergeLaws
  import opened MergeOutcome
  import opened RevisionSeal
  import MergeCursor
  import MergePreview
  import C = ContentStore
  import M = ModelRecord

  // ------------------------------------------------------------- what is demanded

  /** The three-way merge of any object; an object nobody changed takes no resolution. */
  ghost function MergedObject(codec: Codec, b: Model, l: Model, r: Model, id: Uuid,
                              res: Option<Resolution>): Option<Option<Object>>
    requires AllLawful(codec)
  {
    if Changed(b, l, r, id) then Merged(codec, Classified(codec, id, Get(b, id), Get(l, id), Get(r, id)), res)
    else if res.None? then Some(Get(l, id)) else None
  }

  function Shown(o: Option<Object>): Option<M.Live> {
    if o.None? then None else Some(M.Live(o.value.kind, o.value.content))
  }

  /** A row of the left side, tombstones included, can only take content of its own kind. */
  predicate KindFits(rows: M.Rows, item: Item) {
    item.content.Some? && item.id in rows ==> rows[item.id].kind == item.kind
  }

  /** A merge is carried out exactly in these circumstances. */
  ghost predicate Mergeable(codec: Codec, h: Head, changes: seq<MergeChange>, expectedGeneration: int,
                            resolutions: seq<Resolution>, validate: Validator)
    requires AllLawful(codec)
  {
    && h.generation == expectedGeneration && Proper(resolutions)
    && AllSettle(codec, changes, SelectionOf(resolutions))
    && SelectionOf(resolutions).Keys == ConflictIds(changes)
    && var items := ItemsFor(codec, changes, SelectionOf(resolutions));
      && (forall i | 0 <= i < |items| :: KindFits(h.rows, items[i]))
      && validate(TouchAll(h.rows, items), IdsOf(items))
  }

  /** The head after a merge: the edits written and closed as one group, or nothing at all. */
  function MergedHead(h: Head, actor: Uuid, items: seq<Item>): Head {
    if items == [] then h else Closed(NextAll(h, actor, items), actor, Edit, None, h.generation)
  }

  lemma MergedHeadOf(h: Head, actor: Uuid, items: seq<Item>)
    ensures MergedHead(h, actor, items).rows == TouchAll(h.rows, items)
    ensures MergedHead(h, actor, items).generation == h.generation + |items|
  {
    hide Written, Touch;
    if items == [] {
      assert TouchAll(h.rows, items) == h.rows;
    } else {
      hide TouchAll;
    }
  }

  // -------------------------------------------------------------------- the items

  lemma {:induction false} ItemOf(codec: Codec, changes: seq<MergeChange>, selected: map<Uuid, Resolution>, i: nat)
    returns (n: nat)
    requires AllLawful(codec) && AllSettle(codec, changes, selected) && i < |ItemsFor(codec, changes, selected)|
    ensures n < |changes| && ItemFor(codec, changes[n], Get(selected, changes[n].id))
              == [ItemsFor(codec, changes, selected)[i]]
    ensures ItemsFor(codec, changes, selected)[i].id == changes[n].id
    decreases |changes|
  {
    hide AllLawful, Settles, Merged, SameContent;
    var last := |changes| - 1;
    var front := ItemsFor(codec, changes[..last], selected);
    if i < |front| {
      n := ItemOf(codec, changes[..last], selected, i);
    } else {
      n := last;
    }
  }

  lemma {:induction false} ItemsDistinctIds(codec: Codec, changes: seq<MergeChange>, selected: map<Uuid, Resolution>)
    requires AllLawful(codec) && AllSettle(codec, changes, selected) && DistinctChanges(changes)
    ensures DistinctItems(ItemsFor(codec, changes, selected))
  {
    hide AllLawful, Settles, ItemFor;
    if changes != [] {
      var last := |changes| - 1;
      ItemsDistinctIds(codec, changes[..last], selected);
      var front := ItemsFor(codec, changes[..last], selected);
      var added := ItemFor(codec, changes[last], Get(selected, changes[last].id));
      ItemShape(codec, changes[last], Get(selected, changes[last].id));
      forall i | 0 <= i < |front|
        ensures front[i].id != changes[last].id
      {
        var n := ItemOf(codec, changes[..last], selected, i);
      }
    }
  }

  lemma ItemShape(codec: Codec, c: MergeChange, res: Option<Resolution>)
    requires AllLawful(codec) && Settles(codec, c, res)
    ensures |ItemFor(codec, c, res)| <= 1 && Merged(codec, c, res).Some?
    ensures ItemFor(codec, c, res) != [] ==>
              && var item := ItemFor(codec, c, res)[0];
              && var chosen := Merged(codec, c, res).value;
              && item.id == c.id && !SameContent(c.left, chosen) && KindKept(c.left, chosen)
              && (if chosen.None? then item.content.None?
                  else item.kind == chosen.value.kind && item.content == Some(chosen.value.content))
    ensures ItemFor(codec, c, res) == [] ==> SameContent(c.left, Merged(codec, c, res).value)
  {
    hide AllLawful, Merged;
  }

  /** The item of a change is among the items. */
  lemma {:induction false} ItemPresent(codec: Codec, changes: seq<MergeChange>, selected: map<Uuid, Resolution>, n: nat)
    returns (i: nat)
    requires AllLawful(codec) && AllSettle(codec, changes, selected) && n < |changes|
    requires ItemFor(codec, changes[n], Get(selected, changes[n].id)) != []
    ensures i < |ItemsFor(codec, changes, selected)|
    ensures ItemsFor(codec, changes, selected)[i] == ItemFor(codec, changes[n], Get(selected, changes[n].id))[0]
    decreases |changes|
  {
    hide AllLawful, Settles, ItemFor;
    var last := |changes| - 1;
    var front := ItemsFor(codec, changes[..last], selected);
    if n == last {
      i := |front|;
    } else {
      i := ItemPresent(codec, changes[..last], selected, n);
    }
  }

  /** A merge write is accepted exactly when it keeps the kind of the row it meets. */
  lemma ItemAccepted(rows: M.Rows, c: MergeChange, item: Item, chosen: Option<Object>)
    requires c.left == Get(ModelOf(rows), c.id) && !IsNull(c.id) && item.id == c.id
    requires !SameContent(c.left, chosen) && KindKept(c.left, chosen)
    requires if chosen.None? then item.content.None?
             else item.kind == chosen.value.kind && item.content == Some(chosen.value.content)
    ensures Accepts(rows, item, VersionOf(rows, item.id)) <==> KindFits(rows, item)
  {}

  /** Facts about the change list of a merge onto these rows. */
  ghost predicate OnRows(rows: M.Rows, changes: seq<MergeChange>) {
    && DistinctChanges(changes) && MergedPresent(changes)
    && forall i | 0 <= i < |changes| :: changes[i].left == Get(ModelOf(rows), changes[i].id) && !IsNull(changes[i].id)
  }

  lemma ItemsAccepted(codec: Codec, rows: M.Rows, changes: seq<MergeChange>, selected: map<Uuid, Resolution>)
    requires AllLawful(codec) && AllSettle(codec, changes, selected) && OnRows(rows, changes)
    ensures var items := ItemsFor(codec, changes, selected);
      DistinctItems(items) && forall i | 0 <= i < |items| :: Accepts(rows, items[i], VersionOf(rows, items[i].id)) <==>
        KindFits(rows, items[i])
  {
    hide AllLawful, Settles, Merged, SameContent, KindKept, ModelOf, Accepts, KindFits, IsNull, ItemFor, ItemsFor;
    var items := ItemsFor(codec, changes, selected);
    ItemsDistinctIds(codec, changes, selected);
    forall i | 0 <= i < |items|
      ensures Accepts(rows, items[i], VersionOf(rows, items[i].id)) <==> KindFits(rows, items[i])
    {
      var n := ItemOf(codec, changes, selected, i);
      var res := Get(selected, changes[n].id);
      ItemShape(codec, changes[n], res);
      ItemAccepted(rows, changes[n], items[i], Merged(codec, changes[n], res).value);
    }
  }

  // ------------------------------------------------------------------- the commit

  /** The selected edits, each at the version its row has now. */
  method ApplyEdits(head: WorkingHead, actor: Uuid, items: seq<Item>) returns (ok: bool)
    requires DistinctItems(items)
    requires forall i | 0 <= i < |items| ::
               Accepts(head.rows, items[i], VersionOf(head.rows, items[i].id)) <==> KindFits(head.rows, items[i])
    modifies head
    ensures ok <==> forall i | 0 <= i < |items| :: KindFits(old(head.rows), items[i])
    ensures ok ==> head.Now() == NextAll(old(head.Now()), actor, items)
  {
    hide Accepts, TouchAll, Written, Touch;
    ghost var start := head.Now();
    NextAllStep(start, actor, [], Item(seq(16, _ => 0), [], None));
    for i := 0 to |items|
      invariant head.Now() == NextAll(start, actor, items[..i])
      invariant forall j | 0 <= j < i :: KindFits(start.rows, items[j])
    {
      var item := items[i];
      TouchAllGrows(start.rows, items[..i], item.id);
      AcceptsApart(start.rows, items[..i], ObjectEdit(item, VersionOf(start.rows, item.id)));
      var version: int := -1;
      if item.id in head.rows {
        version := head.rows[item.id].version;
        if item.content.Some? && head.rows[item.id].kind != item.kind {
          return false;
        }
      }
      ok := head.Modify(actor, item, version);
      if !ok {
        return false;
      }
      assert items[..i + 1] == items[..i] + [items[i]];
      NextAllStep(start, actor, items[..i], items[i]);
    }
    assert items[..|items|] == items;
    ok := true;
  }

  /** One edit group that makes the head show the merge of every object, or nothing at all. */
  method CommitMerge(head: WorkingHead, codec: Codec, actor: Uuid, changes: seq<MergeChange>, expectedGeneration: int,
                     resolutions: seq<Resolution>, validate: Validator)
    returns (ok: bool)
    requires head.Valid() && AllLawful(codec) && OnRows(head.rows, changes)
    modifies head
    ensures head.Valid()
    ensures ok <==> Mergeable(codec, old(head.Now()), changes, expectedGeneration, resolutions, validate)
    ensures !ok ==> head.Now() == old(head.Now())
    ensures ok ==> head.Now() == MergedHead(old(head.Now()), actor, ItemsFor(codec, changes, SelectionOf(resolutions)))
  {
    hide AllLawful, Sound, Accepts, TouchAll, Written, Touch, AllSettle, ItemsFor, OnRows, KindFits, AcceptedAll;
    if head.generation != expectedGeneration {
      return false;
    }
    var chosen := SelectResolutions(resolutions);
    if chosen.None? {
      return false;
    }
    var selected := chosen.value;
    ChangesFit(head.rows, changes);
    var edits := SelectEdits(codec, changes, selected);
    if edits.None? {
      return false;
    }
    var items := edits.value;
    ExactlyTheConflicts(codec, changes, selected);
    if selected != map[] {
      var expectedCount := ConflictCount(changes);
      if |selected| != expectedCount {
        return false;
      }
    }
    ItemsAccepted(codec, head.rows, changes, selected);
    var saved := head.Now();
    var done := ApplyEdits(head, actor, items);
    if !done {
      head.Rollback(saved);
      return false;
    }
    var touched := set i | 0 <= i < |items| :: items[i].id;
    if !validate(head.rows, touched) {
      head.Rollback(saved);
      return false;
    }
    CloseMerge(head, actor, items, saved);
    MergedHeadOf(saved, actor, items);
    ok := true;
  }

  /** Journals the applied edits as one group; a merge without edits leaves the head as it was. */
  method CloseMerge(head: WorkingHead, actor: Uuid, items: seq<Item>, saved: Head)
    requires Sound(head.base, saved) && head.Now() == NextAll(saved, actor, items) && DistinctItems(items)
    requires forall i | 0 <= i < |items| :: Accepts(saved.rows, items[i], VersionOf(saved.rows, items[i].id))
    modifies head
    ensures head.Valid() && head.rows == old(head.rows) && head.generation == old(head.generation)
    ensures items == [] ==> head.Now() == saved
    ensures items != [] ==> head.Now() == Closed(old(head.Now()), actor, Edit, None, saved.generation)
  {
    hide Sound, Accepts, TouchAll, Written, Touch, AcceptedAll, Journaled, StacksOf, DistinctItems, Position, History,
      Unit, DistinctIds;
    NextAllStep(saved, actor, [], Item(seq(16, _ => 0), [], None));
    if items == [] {
      return;
    }
    DistinctAccepted(saved.rows, items);
    EditSound(head.base, saved, actor, items);
    var id := head.CloseGroup(actor, Edit, None, items, saved);
  }

  lemma ChangesFit(rows: M.Rows, changes: seq<MergeChange>)
    requires OnRows(rows, changes)
    ensures DistinctChanges(changes) && MergedPresent(changes)
  {}

  lemma DistinctAccepted(rows: M.Rows, items: seq<Item>)
    requires DistinctItems(items) && forall i | 0 <= i < |items| ::
               Accepts(rows, items[i], VersionOf(rows, items[i].id))
    ensures AcceptedAll(rows, items)
  {
    hide Accepts;
    forall i | 0 <= i < |items|
      ensures Accepts(TouchAll(rows, items[..i]), items[i], VersionOf(TouchAll(rows, items[..i]), items[i].id))
    {
      TouchAllGrows(rows, items[..i], items[i].id);
      AcceptsApart(rows, items[..i], ObjectEdit(items[i], VersionOf(rows, items[i].id)));
    }
  }

  method ConflictCount(changes: seq<MergeChange>) returns (n: nat)
    ensures n == CountConflicts(changes)
  {
    n := 0;
    for i := 0 to |changes|
      invariant n == CountConflicts(changes[..i])
    {
      assert changes[..i + 1][..i] == changes[..i];
      if changes[i].kind.Conflict? {
        n := n + 1;
      }
    }
    assert changes[..|changes|] == changes;
  }

  // ------------------------------------------------------------- what is achieved

  lemma ChangeListOnRows(codec: Codec, rows: M.Rows, b: M.Rows, r: M.Rows, changes: seq<MergeChange>)
    requires AllLawful(codec) && IsChangeList(codec, ModelOf(b), ModelOf(rows), ModelOf(r), changes)
    requires MergeCursor.NamedIds(rows) && MergeCursor.NamedIds(b) && MergeCursor.NamedIds(r)
    ensures OnRows(rows, changes)
  {
    hide AllLawful, Classified, Less, SameContent, IsNull, Changed, ModelOf, MergeCursor.NamedIds;
    forall i, j | 0 <= i < j < |changes|
      ensures changes[i].id != changes[j].id
    {
      LessIrreflexive(changes[i].id);
    }
    forall i | 0 <= i < |changes|
      ensures !IsNull(changes[i].id) && changes[i].left == Get(ModelOf(rows), changes[i].id)
      ensures changes[i].kind.FieldsMerged? ==> changes[i].merged.Some?
    {
      var id := changes[i].id;
      assert Changed(ModelOf(b), ModelOf(rows), ModelOf(r), id);
      MergePreview.ChangedHeld(b, rows, r, id);
      NamedHeld(b, rows, r, id);
      ClassifiedParts(codec, id, Get(ModelOf(b), id), Get(ModelOf(rows), id), Get(ModelOf(r), id));
    }
  }

  lemma NamedHeld(b: M.Rows, l: M.Rows, r: M.Rows, id: Uuid)
    requires MergeCursor.NamedIds(b) && MergeCursor.NamedIds(l) && MergeCursor.NamedIds(r)
    requires MergePreview.HeldSomewhere(b, l, r, id)
    ensures !IsNull(id)
  {
    hide IsNull;
  }

  lemma ClassifiedParts(codec: Codec, id: Uuid, b: Option<Object>, l: Option<Object>, r: Option<Object>)
    requires AllLawful(codec)
    ensures var c := Classified(codec, id, b, l, r);
              c.id == id && c.left == l
              && (c.kind.FieldsMerged? ==> c.merged.Some?)
  {
    hide AllLawful, FieldMergeOf, SameContent;
  }

  /**
   The committed head shows, for every object, its three-way merge; and an
   object whose merge is what the left side already shows keeps its very row.
   */
  lemma MergeRealised(codec: Codec, rows: M.Rows, b: Model, r: Model, changes: seq<MergeChange>, selected: map<Uuid,
                      Resolution>, u: Uuid)
    requires AllLawful(codec) && IsChangeList(codec, b, ModelOf(rows), r, changes) && OnRows(rows, changes)
    requires AllSettle(codec, changes, selected) && selected.Keys == ConflictIds(changes)
    requires forall i | 0 <= i < |ItemsFor(codec, changes, selected)| ::
               KindFits(rows, ItemsFor(codec, changes, selected)[i])
    ensures var merged := MergedObject(codec, b, ModelOf(rows), r, u, Get(selected, u));
      var row := Get(TouchAll(rows, ItemsFor(codec, changes, selected)), u);
      && merged.Some? && M.Seen(row) == Shown(merged.value)
      && (SameContent(Get(ModelOf(rows), u), merged.value) ==> row == Get(rows, u))
  {
    hide AllLawful, Settles, Merged, SameContent, ModelOf, ItemFor, ItemsFor, Classified, Changed, IsNull, KindFits,
      Touch;
    var items := ItemsFor(codec, changes, selected);
    ItemsDistinctIds(codec, changes, selected);
    ModelSeen(rows, u);
    if Changed(b, ModelOf(rows), r, u) {
      var n :| 0 <= n < |changes| && changes[n].id == u;
      var res := Get(selected, u);
      assert Settles(codec, changes[n], res);
      ItemShape(codec, changes[n], res);
      var merged := Merged(codec, changes[n], res).value;
      if ItemFor(codec, changes[n], res) == [] {
        forall i | 0 <= i < |items|
          ensures items[i].id != u
        {
          var k := ItemOf(codec, changes, selected, i);
        }
        TouchAllGrows(rows, items, u);
        SameSeen(Get(ModelOf(rows), u), merged);
      } else {
        var i := ItemPresent(codec, changes, selected, n);
        TouchAllAt(rows, items, i);
        TouchShows(rows, items[i], merged);
      }
    } else {
      forall i | 0 <= i < |items|
        ensures items[i].id != u
      {
        var k := ItemOf(codec, changes, selected, i);
        assert Changed(b, ModelOf(rows), r, changes[k].id);
      }
      TouchAllGrows(rows, items, u);
      NotConflicting(codec, b, ModelOf(rows), r, changes, u);
    }
  }

  lemma ModelSeen(rows: M.Rows, u: Uuid)
    ensures M.Seen(Get(rows, u)) == Shown(Get(ModelOf(rows), u))
  {}

  lemma SameSeen(a: Option<Object>, c: Option<Object>)
    ensures SameContent(a, c) ==> Shown(a) == Shown(c)
  {}

  lemma TouchShows(rows: M.Rows, item: Item, chosen: Option<Object>)
    requires KindFits(rows, item)
    requires if chosen.None? then item.content.None?
             else item.kind == chosen.value.kind && item.content == Some(chosen.value.content)
    ensures M.Seen(Some(Touch(rows, item)[item.id])) == Shown(chosen)
  {}

  lemma NotConflicting(codec: Codec, b: Model, l: Model, r: Model, changes: seq<MergeChange>, u: Uuid)
    requires AllLawful(codec) && IsChangeList(codec, b, l, r, changes) && !Changed(b, l, r, u)
    ensures u !in ConflictIds(changes)
  {
    hide AllLawful, Changed, Classified;
  }

  // ------------------------------------------------- the same, object by object

  /** The three-way merge of an object is the one end it can have; no merge, no end. */
  lemma EndsIs(codec: Codec, b: M.Rows, l: M.Rows, r: M.Rows, u: Uuid, res: Option<Resolution>, out: Showing)
    requires AllLawful(codec)
    ensures var m := MergedObject(codec, ModelOf(b), ModelOf(l), ModelOf(r), u, res);
      Ends(codec, u, ShownIn(b, u), ShownIn(l, u), ShownIn(r, u), res, out) <==> m.Some? && ShownBy(m.value) == out
  {
    hide AllLawful, FieldMergeOf, United, DisputedName, Picked, ModelOf, ShownIn, SameContent, Classified;
    ShownModel(b, u);
    ShownModel(l, u);
    ShownModel(r, u);
    ChangedShown(b, l, r, u);
    if Changed(ModelOf(b), ModelOf(l), ModelOf(r), u) {
      ClassifiedTrue(codec, b, l, r, u);
      var c := Classified(codec, u, Get(ModelOf(b), u), Get(ModelOf(l), u), Get(ModelOf(r), u));
      ChangeEnds(codec, b, l, r, c, res, out);
    } else {
      SameShown(Get(ModelOf(b), u), Get(ModelOf(l), u));
      SameShown(Get(ModelOf(b), u), Get(ModelOf(r), u));
    }
  }

  lemma ChangeEnds(codec: Codec, b: M.Rows, l: M.Rows, r: M.Rows, c: MergeChange, res: Option<Resolution>, out: Showing)
    requires AllLawful(codec) && TrueChange(codec, b, l, r, c)
    ensures var m := Merged(codec, c, res);
      Ends(codec, c.id, ShownIn(b, c.id), ShownIn(l, c.id), ShownIn(r, c.id), res, out) <==>
      m.Some? && ShownBy(m.value) == out
  {
    hide AllLawful, FieldMergeOf, United, DisputedName, Picked, ShownIn, ExactChoices, ChoicesOf, Once;
    var base, left, right := ShownIn(b, c.id), ShownIn(l, c.id), ShownIn(r, c.id);
    if base.Some? && left.Some? && right.Some? && base.value.0 == left.value.0 == right.value.0 {
      forall payload
        ensures c.merged.Some? && United(codec, c.id, base, left, right, map[], payload) ==>
                payload == c.merged.value.content
      {
        UnitedIs(codec, c.id, left.value.0, base.value.1, left.value.1, right.value.1, map[], payload);
        if c.merged.Some? {
          UnitedIs(codec, c.id, left.value.0, base.value.1, left.value.1, right.value.1, map[],
                   c.merged.value.content);
        }
      }
      if c.kind.Conflict? && res.Some? && out.Some? {
        PickedIs(codec, c.id, left.value.0, base.value.1, left.value.1, right.value.1, c.conflicting,
                 res.value.fields, out.value.1);
        MergePayload(codec, c.id, left.value.0, base.value.1, left.value.1, right.value.1, ChoicesOf(res.value.fields));
        if res.value.fields != [] && ExactChoices(res.value.fields, c.conflicting) {
          ExactNonempty(res.value.fields, c.conflicting);
        }
      }
    } else {
      NotUnited(codec, c.id, base, left, right);
      NotPicked(codec, c.id, base, left, right);
    }
  }

  lemma ExactNonempty(fields: seq<FieldResolution>, conflicting: seq<Name>)
    requires ExactChoices(fields, conflicting) && fields != []
    ensures conflicting != []
  {}

  lemma MergePayload(codec: Codec, u: Uuid, kind: Bytes, base: Bytes, left: Bytes, right: Bytes,
                     choices: map<Name, bool>)
    requires AllLawful(codec)
    ensures var m := FieldMergeOf(codec, u, kind, base, left, right, choices);
      m.Some? && m.value.conflicts == [] ==> m == Some(Merge(m.value.content, []))
  {}

  lemma NotPicked(codec: Codec, u: Uuid, base: Showing, left: Showing, right: Showing)
    requires base.None? || left.None? || right.None? || !(base.value.0 == left.value.0 == right.value.0)
    ensures forall fields, payload :: !Picked(codec, u, base, left, right, fields, payload)
  {
    hide United, DisputedName;
    NotUnited(codec, u, base, left, right);
  }

  /** The objects whose rows differ. */
  function Moved(before: M.Rows, after: M.Rows): set<Uuid> {
    set u | u in after && Get(before, u) != Get(after, u)
  }

  lemma {:induction false} SelectionMean(resolutions: seq<Resolution>, u: Uuid)
    requires Proper(resolutions)
    ensures ResolvedBy(resolutions, u, Get(SelectionOf(resolutions), u))
    ensures forall res | ResolvedBy(resolutions, u, res) :: res == Get(SelectionOf(resolutions), u)
  {
    hide IsNull;
    if resolutions != [] {
      var n := |resolutions| - 1;
      SelectionMean(resolutions[..n], u);
      assert forall i | 0 <= i < n :: resolutions[..n][i] == resolutions[i];
      forall res | ResolvedBy(resolutions, u, res)
        ensures res == Get(SelectionOf(resolutions), u)
      {
        if resolutions[n].id == u {
          assert resolutions[n] in resolutions;
        } else {
          assert ResolvedBy(resolutions[..n], u, res);
        }
      }
    }
  }

  /** The rows after the edits of a merge: each object has the end it must have. */
  lemma MergeEnds(codec: Codec, b: M.Rows, l: M.Rows, r: M.Rows, changes: seq<MergeChange>,
                  resolutions: seq<Resolution>)
    requires AllLawful(codec) && IsChangeList(codec, ModelOf(b), ModelOf(l), ModelOf(r), changes) && OnRows(l, changes)
    requires Proper(resolutions) && AllSettle(codec, changes, SelectionOf(resolutions))
    requires SelectionOf(resolutions).Keys == ConflictIds(changes)
    requires forall i | 0 <= i < |ItemsFor(codec, changes, SelectionOf(resolutions))| ::
               KindFits(l, ItemsFor(codec, changes, SelectionOf(resolutions))[i])
    ensures var items := ItemsFor(codec, changes, SelectionOf(resolutions)); var after := TouchAll(l, items);
      MergesTo(codec, b, l, r, resolutions, after) && IdsOf(items) == Moved(l, after)
  {
    hide AllLawful, MergedObject, Ends, TouchAll, ItemsFor, OnRows, IsChangeList, ModelOf, ShownIn, Settles,
      SelectionOf, ConflictIds, Proper, ResolvedBy, KindFits, SameContent, IdsOf, RowMoves, Moved;
    var selected := SelectionOf(resolutions);
    var items := ItemsFor(codec, changes, selected);
    var after := TouchAll(l, items);
    forall u: Uuid
      ensures ObjectEnds(codec, b, l, r, resolutions, after, u) && RowMoves(l, after, u)
      ensures u in IdsOf(items) <==> u in Moved(l, after)
    {
      MergeRealised(codec, l, ModelOf(b), ModelOf(r), changes, selected, u);
      var m := MergedObject(codec, ModelOf(b), ModelOf(l), ModelOf(r), u, Get(selected, u));
      SelectionMean(resolutions, u);
      SeenShown(after, u, m.value);
      EndsIs(codec, b, l, r, u, Get(selected, u), ShownIn(after, u));
      ItemsMove(codec, l, changes, selected, u);
    }
  }

  lemma SeenShown(rows: M.Rows, u: Uuid, o: Option<Object>)
    requires M.Seen(Get(rows, u)) == Shown(o)
    ensures ShownIn(rows, u) == ShownBy(o)
  {}

  /** Just the objects that are to show something else are written, each once. */
  lemma ItemsMove(codec: Codec, rows: M.Rows, changes: seq<MergeChange>, selected: map<Uuid, Resolution>, u: Uuid)
    requires AllLawful(codec) && AllSettle(codec, changes, selected) && OnRows(rows, changes)
    requires forall i | 0 <= i < |ItemsFor(codec, changes, selected)| ::
               KindFits(rows, ItemsFor(codec, changes, selected)[i])
    ensures var items := ItemsFor(codec, changes, selected);
      var after := TouchAll(rows, items);
      RowMoves(rows, after, u) && (u in IdsOf(items) <==> u in Moved(rows, after))
  {
    hide AllLawful, Settles, Merged, SameContent, ItemFor, ItemsFor, TouchAll, IsNull, ModelOf;
    var items := ItemsFor(codec, changes, selected);
    ItemsDistinctIds(codec, changes, selected);
    if u in IdsOf(items) {
      var i :| 0 <= i < |items| && items[i].id == u;
      var n := ItemOf(codec, changes, selected, i);
      var res := Get(selected, changes[n].id);
      ItemShape(codec, changes[n], res);
      TouchAllAt(rows, items, i);
      ItemShows(rows, items[i], Get(ModelOf(rows), u), Merged(codec, changes[n], res).value);
    } else {
      TouchAllGrows(rows, items, u);
    }
  }

  lemma ItemShows(rows: M.Rows, item: Item, left: Option<Object>, chosen: Option<Object>)
    requires KindFits(rows, item) && left == Get(ModelOf(rows), item.id) && !SameContent(left, chosen)
    requires if chosen.None? then item.content.None?
             else item.kind == chosen.value.kind && item.content == Some(chosen.value.content)
    ensures ShownIn(Touch(rows, item), item.id) != ShownIn(rows, item.id)
    ensures RowMoves(rows, Touch(rows, item), item.id) && Touch(rows, item)[item.id].version > 0
    ensures item.id in rows ==> Touch(rows, item)[item.id].version == rows[item.id].version + 1
  {}

  /** There is at most one result of a merge. */
  lemma MergesOnce(codec: Codec, b: M.Rows, l: M.Rows, r: M.Rows, resolutions: seq<Resolution>, after: M.Rows,
                   other: M.Rows)
    requires AllLawful(codec) && Proper(resolutions)
    requires MergesTo(codec, b, l, r, resolutions, after) && MergesTo(codec, b, l, r, resolutions, other)
    ensures after == other
  {
    hide AllLawful, MergedObject, Ends, Proper, ResolvedBy, ModelOf, SelectionOf;
    forall u: Uuid
      ensures Get(after, u) == Get(other, u)
    {
      SelectionMean(resolutions, u);
      var res := Get(SelectionOf(resolutions), u);
      assert ObjectEnds(codec, b, l, r, resolutions, after, u) && RowMoves(l, after, u);
      assert ObjectEnds(codec, b, l, r, resolutions, other, u) && RowMoves(l, other, u);
      EndsIs(codec, b, l, r, u, res, ShownIn(after, u));
      EndsIs(codec, b, l, r, u, res, ShownIn(other, u));
    }
    assert forall u | u in after :: Get(other, u).Some?;
    assert forall u | u in other :: Get(after, u).Some?;
  }

  /** If a merge has a result, every change is settled and the resolutions are for the conflicts. */
  lemma EndsSettle(codec: Codec, b: M.Rows, l: M.Rows, r: M.Rows, changes: seq<MergeChange>,
                   resolutions: seq<Resolution>, after: M.Rows)
    requires AllLawful(codec) && IsChangeList(codec, ModelOf(b), ModelOf(l), ModelOf(r), changes) && OnRows(l, changes)
    requires Proper(resolutions) && MergesTo(codec, b, l, r, resolutions, after)
    ensures AllSettle(codec, changes, SelectionOf(resolutions))
    ensures SelectionOf(resolutions).Keys == ConflictIds(changes)
    ensures forall i | 0 <= i < |ItemsFor(codec, changes, SelectionOf(resolutions))| ::
              KindFits(l, ItemsFor(codec, changes, SelectionOf(resolutions))[i])
  {
    hide AllLawful, Ends, Merged, ItemFor, ItemsFor, ModelOf, Proper, ResolvedBy, SelectionOf, Classified, Changed,
      SameContent, ShownIn, IsNull, KindFits;
    var selected := SelectionOf(resolutions);
    forall i | 0 <= i < |changes|
      ensures Settles(codec, changes[i], Get(selected, changes[i].id))
      ensures Merged(codec, changes[i], Get(selected, changes[i].id)).Some?
              && ShownBy(Merged(codec, changes[i], Get(selected, changes[i].id)).value) == ShownIn(after, changes[i].id)
    {
      EndOfChange(codec, b, l, r, changes, resolutions, after, i);
    }
    forall i | 0 <= i < |ItemsFor(codec, changes, selected)|
      ensures KindFits(l, ItemsFor(codec, changes, selected)[i])
    {
      var n := ItemOf(codec, changes, selected, i);
      ItemShape(codec, changes[n], Get(selected, changes[n].id));
      var u := changes[n].id;
      assert RowMoves(l, after, u);
      ItemKind(l, after, ItemsFor(codec, changes, selected)[i], Merged(codec, changes[n], Get(selected, u)).value);
    }
    forall u
      ensures u in selected <==> u in ConflictIds(changes)
    {
      if u in ConflictIds(changes) {
        var i :| 0 <= i < |changes| && changes[i].kind.Conflict? && changes[i].id == u;
        SettledExplicitly(codec, changes[i], Get(selected, u));
      }
      if u in selected {
        SelectedChanged(codec, b, l, r, resolutions, after, u);
        var i :| 0 <= i < |changes| && changes[i].id == u;
        SettledExplicitly(codec, changes[i], Get(selected, u));
      }
    }
  }

  lemma ItemKind(l: M.Rows, after: M.Rows, item: Item, chosen: Option<Object>)
    requires RowMoves(l, after, item.id) && ShownIn(after, item.id) == ShownBy(chosen)
    requires if chosen.None? then item.content.None?
             else item.kind == chosen.value.kind && item.content == Some(chosen.value.content)
    ensures KindFits(l, item)
  {}

  /** Only an object that both sides changed has a resolution. */
  lemma SelectedChanged(codec: Codec, b: M.Rows, l: M.Rows, r: M.Rows, resolutions: seq<Resolution>, after: M.Rows,
                        u: Uuid)
    requires Proper(resolutions) && MergesTo(codec, b, l, r, resolutions, after) && u in SelectionOf(resolutions)
    ensures Changed(ModelOf(b), ModelOf(l), ModelOf(r), u)
  {
    hide Proper, ShownIn, Changed, ModelOf, United, Picked;
    SelectionMean(resolutions, u);
    ChangedShown(b, l, r, u);
    assert ObjectEnds(codec, b, l, r, resolutions, after, u);
  }

  lemma EndOfChange(codec: Codec, b: M.Rows, l: M.Rows, r: M.Rows, changes: seq<MergeChange>,
                    resolutions: seq<Resolution>, after: M.Rows, i: nat)
    requires AllLawful(codec) && IsChangeList(codec, ModelOf(b), ModelOf(l), ModelOf(r), changes) && OnRows(l, changes)
    requires Proper(resolutions) && MergesTo(codec, b, l, r, resolutions, after) && i < |changes|
    ensures var m := Merged(codec, changes[i], Get(SelectionOf(resolutions), changes[i].id));
      m.Some? && ShownBy(m.value) == ShownIn(after, changes[i].id) && KindKept(changes[i].left, m.value)
  {
    hide AllLawful, Ends, Merged, ModelOf, Proper, ResolvedBy, SelectionOf, Classified, Changed, IsNull;
    var u := changes[i].id;
    var res := Get(SelectionOf(resolutions), u);
    SelectionMean(resolutions, u);
    assert ObjectEnds(codec, b, l, r, resolutions, after, u) && RowMoves(l, after, u);
    EndsIs(codec, b, l, r, u, res, ShownIn(after, u));
    ShownModel(l, u);
  }

  /**
   The demands on a merge of `r` into the head on the base `b`: the generation, one
   resolution at most for an object, an end for every object, and the validator's
   word on the rows that result.
   */
  ghost predicate Admits(codec: Codec, head: Head, b: M.Rows, r: M.Rows, generation: int, resolutions: seq<Resolution>,
                         validate: Validator) {
    && head.generation == generation
    && (forall i | 0 <= i < |resolutions| :: !IsNull(resolutions[i].id))
    && (forall i, j | 0 <= i < j < |resolutions| :: resolutions[i].id != resolutions[j].id)
    && exists after :: MergesTo(codec, b, head.rows, r, resolutions, after) && validate(after, Moved(head.rows, after))
  }

  /** A merge can be carried out exactly if it is admitted, and its result is then the only one there is. */
  lemma MergeableIs(codec: Codec, head: Head, b: M.Rows, r: M.Rows, changes: seq<MergeChange>, generation: int,
                    resolutions: seq<Resolution>, validate: Validator)
    requires AllLawful(codec) && IsChangeList(codec, ModelOf(b), ModelOf(head.rows), ModelOf(r), changes)
    requires OnRows(head.rows, changes)
    ensures Mergeable(codec, head, changes, generation, resolutions, validate) <==>
            Admits(codec, head, b, r, generation, resolutions, validate)
    ensures Mergeable(codec, head, changes, generation, resolutions, validate) ==>
              MergesTo(codec, b, head.rows, r, resolutions,
                       TouchAll(head.rows, ItemsFor(codec, changes, SelectionOf(resolutions))))
  {
    hide AllLawful, MergesTo, TouchAll, ItemsFor, OnRows, IsChangeList, ModelOf, Settles, SelectionOf, ConflictIds,
      KindFits, Moved, IdsOf, IsNull;
    if Mergeable(codec, head, changes, generation, resolutions, validate) {
      MergeEnds(codec, b, head.rows, r, changes, resolutions);
    }
    if Admits(codec, head, b, r, generation, resolutions, validate) {
      var after :| MergesTo(codec, b, head.rows, r, resolutions, after) && validate(after, Moved(head.rows, after));
      EndsSettle(codec, b, head.rows, r, changes, resolutions, after);
      MergeEnds(codec, b, head.rows, r, changes, resolutions);
      MergesOnce(codec, b, head.rows, r, resolutions, after,
                 TouchAll(head.rows, ItemsFor(codec, changes, SelectionOf(resolutions))));
    }
  }

  /** The limits of a preview that is not bounded by its caller. */
  function Unlimited(): Limits {
    Limits(MergePreview.MAX_SIZE, MergePreview.MAX_SIZE)
  }

  /**
   Previews the merge of a finalized revision into the editable head and commits
   it there. It is carried out exactly if both snapshots can be read back, the
   change list is not too large and the request meets all demands.
   */
  method MergeIntoHead(db: C.Store, head: WorkingHead, codec: Codec, actor: Uuid, base: Bytes, rightRoot: Bytes,
                       expectedGeneration: int, resolutions: seq<Resolution>, validate: Validator, ghost b: M.Rows,
                         ghost r: M.Rows)
    returns (ok: bool, ghost p: ThreeWayMerge.Progress)
    requires head.Valid() && AllLawful(codec) && MergeCursor.NamedIds(head.rows)
    requires MergeCursor.Holds(db.hash, db.rows, base, b) && MergeCursor.Holds(db.hash, db.rows, rightRoot, r)
    modifies head
    ensures head.Valid()
    ensures LegalKinds(b) && LegalKinds(r) ==> MergePreview.IsPreview(codec, b, old(head.rows), r, Unlimited(), p)
    ensures ok <==> LegalKinds(b) && LegalKinds(r)
                    && Carried(codec, old(head.Now()), p, actor, expectedGeneration, resolutions, validate, head.Now())
    ensures !ok ==> head.Now() == old(head.Now())
    ensures !ok && LegalKinds(b) && LegalKinds(r) ==> forall m ::
              !Carried(codec, old(head.Now()), p, actor, expectedGeneration, resolutions, validate, m)
    ensures ok <==> LegalKinds(b) && LegalKinds(r) && p.Going?
                    && old(Admits(codec, head.Now(), b, r, expectedGeneration, resolutions, validate))
    ensures ok ==> MergesTo(codec, b, old(head.rows), r, resolutions, head.rows)
  {
    hide AllLawful, Sound, MergeCursor.Holds, MergePreview.IsPreview, OnRows, Mergeable, MergedObject, TouchAll,
      ItemsFor, IsChangeList, SameContent, ModelOf, MergedHead, LegalKinds, Admits, MergesTo, TrueChanges,
      SelectionOf;
    var limits := Unlimited();
    WorkingStands(db.hash, db.rows, head.rows);
    var q, conflicts, unused := MergePreview.Preview(db, codec, base, MergeCursor.WorkingTip(head.rows),
                                                     MergeCursor.SealedTip(rightRoot),
                                                     limits, b, head.rows, r);
    p := q;
    if !q.Going? {
      return false, p;
    }
    MergePreview.PreviewMeans(codec, b, head.rows, r, limits, q);
    HoldsNamed(db.hash, db.rows, base, b);
    HoldsNamed(db.hash, db.rows, rightRoot, r);
    ChangeListOnRows(codec, head.rows, b, r, q.changes);
    var saved := head.Now();
    ghost var selected := SelectionOf(resolutions);
    MergeableIs(codec, saved, b, r, q.changes, expectedGeneration, resolutions, validate);
    ok := CommitMerge(head, codec, actor, q.changes, expectedGeneration, resolutions, validate);
    if !ok {
      return;
    }
    MergeableSettles(codec, saved, p.changes, expectedGeneration, resolutions, validate);
    MergedHeadOf(saved, actor, ItemsFor(codec, p.changes, selected));
  }

  lemma MergeableSettles(codec: Codec, h: Head, changes: seq<MergeChange>, expectedGeneration: int,
                         resolutions: seq<Resolution>, validate: Validator)
    requires AllLawful(codec) && Mergeable(codec, h, changes, expectedGeneration, resolutions, validate)
    ensures AllSettle(codec, changes, SelectionOf(resolutions))
  {}

  /** The preview can be carried out, giving this head. */
  ghost predicate Carried(codec: Codec, head: Head, p: ThreeWayMerge.Progress, actor: Uuid, generation: int,
                          resolutions: seq<Resolution>, validate: Validator, merged: Head)
    requires AllLawful(codec)
  {
    && p.Going? && Mergeable(codec, head, p.changes, generation, resolutions, validate)
    && merged == MergedHead(head, actor, ItemsFor(codec, p.changes, SelectionOf(resolutions)))
  }

  /** A completed preview can be carried out exactly if the merge is admitted; the rows are then its only result. */
  lemma CarriedIs(codec: Codec, head: Head, b: M.Rows, r: M.Rows, p: ThreeWayMerge.Progress, actor: Uuid,
                  generation: int, resolutions: seq<Resolution>, validate: Validator)
    requires AllLawful(codec) && MergePreview.IsPreview(codec, b, head.rows, r, Unlimited(), p) && p.Going?
    requires MergeCursor.NamedIds(head.rows) && MergeCursor.NamedIds(b) && MergeCursor.NamedIds(r)
    ensures (exists m :: Carried(codec, head, p, actor, generation, resolutions, validate, m)) <==>
            Admits(codec, head, b, r, generation, resolutions, validate)
    ensures forall m | Carried(codec, head, p, actor, generation, resolutions, validate, m) ::
              MergesTo(codec, b, head.rows, r, resolutions, m.rows)
  {
    hide AllLawful, MergePreview.IsPreview, Mergeable, Admits, MergesTo, ModelOf, TrueChanges, IsChangeList, OnRows,
      MergeCursor.NamedIds, TouchAll, MergedHead, AllSettle;
    MergePreview.PreviewMeans(codec, b, head.rows, r, Unlimited(), p);
    ChangeListOnRows(codec, head.rows, b, r, p.changes);
    MergeableIs(codec, head, b, r, p.changes, generation, resolutions, validate);
    if Mergeable(codec, head, p.changes, generation, resolutions, validate) {
      MergeableSettles(codec, head, p.changes, generation, resolutions, validate);
      var items := ItemsFor(codec, p.changes, SelectionOf(resolutions));
      MergedHeadOf(head, actor, items);
      assert Carried(codec, head, p, actor, generation, resolutions, validate, MergedHead(head, actor, items));
    }
  }

  lemma WorkingStands(h: C.Hash, rows: C.Rows, working: M.Rows)
    requires MergeCursor.NamedIds(working)
    ensures MergeCursor.Stands(h, rows, MergeCursor.WorkingTip(working), working)
  {}

  lemma HoldsNamed(h: C.Hash, rows: C.Rows, root: Bytes, objects: M.Rows)
    requires MergeCursor.Holds(h, rows, root, objects)
    ensures MergeCursor.NamedIds(objects)
  {}
}
