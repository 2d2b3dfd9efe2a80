/** The editable head of a branch: versioned object writes, edit groups, undo and redo. */
module WorkingObjects {
  import opened Prelude
  import opened Uuid
  import opened ModelRecord
  import opened Journal
  import opened UndoHistory

  /** The network validation of the objects a transaction touched. */
  type Validator = (Rows, set<Uuid>) -> bool

  datatype ObjectEdit = ObjectEdit(item: Item, expectedVersion: int)

  function ItemsOf(edits: seq<ObjectEdit>): (items: seq<Item>)
    ensures |items| == |edits| && forall i | 0 <= i < |edits| :: items[i] == edits[i].item
  {
    seq(|edits|, i requires 0 <= i < |edits| => edits[i].item)
  }

  function IdsOf(items: seq<Item>): set<Uuid> {
    set i | 0 <= i < |items| :: items[i].id
  }

  /** When an edit group is committed: all of it or nothing. */
  ghost predicate Commits(h: Head, expectedGeneration: int, edits: seq<ObjectEdit>, validate: Validator) {
    && edits != [] && DistinctItems(ItemsOf(edits)) && h.generation == expectedGeneration
    && (forall i | 0 <= i < |edits| :: Accepts(h.rows, edits[i].item, edits[i].expectedVersion))
    && validate(TouchAll(h.rows, ItemsOf(edits)), IdsOf(ItemsOf(edits)))
  }

  /**
   The edit carries the version of its object's row, or -1 for an object without
   one; it changes the content, and live content keeps the row's kind.
   */
  predicate UpToDate(rows: Rows, edit: ObjectEdit) {
    var item := edit.item;
    && item.id != UNSET
    && edit.expectedVersion == (if item.id in rows then rows[item.id].version else -1)
    && item.content != (if item.id in rows then rows[item.id].content else None)
    && (item.id in rows && item.content.Some? ==> item.kind == rows[item.id].kind)
  }

  /** Each edited object has the new content and the next version, under its old kind; no other row changed. */
  ghost predicate Overwritten(before: Rows, edits: seq<ObjectEdit>, after: Rows) {
    && (forall i | 0 <= i < |edits| ::
          var item := edits[i].item;
          && item.id in after && after[item.id].content == item.content
          && after[item.id].version == (if item.id in before then before[item.id].version + 1 else 1)
          && after[item.id].kind == (if item.id in before then before[item.id].kind else item.kind))
    && forall u: Uuid | u !in EditedIds(edits) :: Get(after, u) == Get(before, u)
  }

  function EditedIds(edits: seq<ObjectEdit>): set<Uuid> {
    set i | 0 <= i < |edits| :: edits[i].item.id
  }

  /** One event for each edit, in order, with what was there before and what is there after. */
  ghost predicate Recorded(before: Head, actor: Uuid, edits: seq<ObjectEdit>, after: Head) {
    && after.generation == before.generation + |edits| && |after.events| == |before.events| + |edits|
    && after.events[..|before.events|] == before.events
    && forall i | 0 <= i < |edits| ::
         var item, e := edits[i].item, after.events[|before.events| + i];
         && e.id == item.id && e.actor == actor && e.sequence == before.generation + i + 1 && e.after == item.content
         && (if item.id in before.rows then
               var row := before.rows[item.id];
               e.kind == row.kind && e.before == row.content && e.beforeVersion == row.version
               && e.afterVersion == row.version + 1
             else e.kind == item.kind && e.before == None && e.beforeVersion == -1 && e.afterVersion == 1)
  }

  lemma AcceptsIs(rows: Rows, edit: ObjectEdit)
    ensures Accepts(rows, edit.item, edit.expectedVersion) <==> UpToDate(rows, edit)
  {
    NullIsUnset(edit.item.id);
  }

  /** Writes to distinct objects leave exactly the edited rows and their events. */
  lemma WritesMean(h: Head, actor: Uuid, edits: seq<ObjectEdit>)
    requires DistinctItems(ItemsOf(edits))
    ensures Overwritten(h.rows, edits, NextAll(h, actor, ItemsOf(edits)).rows)
    ensures Recorded(h, actor, edits, NextAll(h, actor, ItemsOf(edits)))
  {
    hide TouchAll, Written;
    var items := ItemsOf(edits);
    var after := TouchAll(h.rows, items);
    forall i | 0 <= i < |edits|
      ensures items[i].id in after && after[items[i].id] == Touch(h.rows, items[i])[items[i].id]
      ensures Written(h.rows, actor, h.generation, items)[i]
              == EventFor(h.rows, actor, h.generation + i + 1, items[i])
    {
      TouchAllAt(h.rows, items, i);
      WrittenEvent(h.rows, actor, h.generation, items, i);
      TouchAllGrows(h.rows, items[..i], items[i].id);
      EventLocal(TouchAll(h.rows, items[..i]), h.rows, actor, h.generation + i + 1, items[i]);
    }
    forall u: Uuid | u !in EditedIds(edits)
      ensures Get(after, u) == Get(h.rows, u)
    {
      TouchAllGrows(h.rows, items, u);
    }
  }

  lemma OneWrite(h: Head, actor: Uuid, edit: ObjectEdit)
    ensures Overwritten(h.rows, [edit], Next(h, actor, edit.item).rows)
    ensures Recorded(h, actor, [edit], Next(h, actor, edit.item))
  {
    hide Overwritten, Recorded;
    WritesMean(h, actor, [edit]);
    NextAllStep(h, actor, [], edit.item);
    assert ItemsOf([edit]) == [] + [edit.item];
  }

  lemma RecordedClosed(before: Head, actor: Uuid, edits: seq<ObjectEdit>, after: Head, groups: seq<Group>)
    requires Recorded(before, actor, edits, after)
    ensures Recorded(before, actor, edits, after.(groups := groups))
  {}

  lemma EventLocal(rows: Rows, others: Rows, actor: Uuid, sequence: nat, item: Item)
    requires Get(rows, item.id) == Get(others, item.id)
    ensures EventFor(rows, actor, sequence, item) == EventFor(others, actor, sequence, item)
  {
    assert item.id in rows <==> item.id in others;
  }

  lemma OverwrittenOnce(before: Rows, edits: seq<ObjectEdit>, a: Rows, b: Rows)
    requires Overwritten(before, edits, a) && Overwritten(before, edits, b)
    ensures a == b
  {
    forall u: Uuid
      ensures Get(a, u) == Get(b, u)
    {
      if u in EditedIds(edits) {
        var i :| 0 <= i < |edits| && edits[i].item.id == u;
      }
    }
    assert forall u | u in a :: Get(b, u).Some?;
    assert forall u | u in b :: Get(a, u).Some?;
  }

  /** When a group is committed, said of rows and versions. */
  lemma CommitsIs(h: Head, generation: int, edits: seq<ObjectEdit>, validate: Validator)
    ensures Commits(h, generation, edits, validate) <==>
            && edits != [] && (forall i, j | 0 <= i < j < |edits| :: edits[i].item.id != edits[j].item.id)
            && h.generation == generation && (forall i | 0 <= i < |edits| :: UpToDate(h.rows, edits[i]))
            && exists after :: Overwritten(h.rows, edits, after) && validate(after, EditedIds(edits))
  {
    hide Accepts, UpToDate, Overwritten, Recorded, TouchAll, Written;
    forall i | 0 <= i < |edits|
      ensures Accepts(h.rows, edits[i].item, edits[i].expectedVersion) <==> UpToDate(h.rows, edits[i])
    {
      AcceptsIs(h.rows, edits[i]);
    }
    var items := ItemsOf(edits);
    assert (forall i, j | 0 <= i < j < |edits| :: edits[i].item.id != edits[j].item.id) <==> DistinctItems(items);
    if DistinctItems(items) {
      WritesMean(h, seq(16, _ => 0), edits);
      assert IdsOf(items) == EditedIds(edits);
      forall after | Overwritten(h.rows, edits, after)
        ensures after == TouchAll(h.rows, items)
      {
        OverwrittenOnce(h.rows, edits, after, TouchAll(h.rows, items));
      }
    }
  }

  lemma TargetsNamed(rows: Rows, edits: seq<ObjectEdit>)
    requires forall i | 0 <= i < |edits| :: UpToDate(rows, edits[i])
    ensures forall i | 0 <= i < |edits| :: !IsNull(edits[i].item.id)
  {}

  lemma AllUpToDate(rows: Rows, edits: seq<ObjectEdit>)
    ensures (forall i | 0 <= i < |edits| :: Accepts(rows, edits[i].item, edits[i].expectedVersion)) <==>
            forall i | 0 <= i < |edits| :: UpToDate(rows, edits[i])
  {
    hide Accepts, UpToDate;
    forall i | 0 <= i < |edits|
      ensures Accepts(rows, edits[i].item, edits[i].expectedVersion) <==> UpToDate(rows, edits[i])
    {
      AcceptsIs(rows, edits[i]);
    }
  }

  lemma Rejected(before: Rows, edits: seq<ObjectEdit>, after: Rows, validate: Validator)
    requires Overwritten(before, edits, after) && !validate(after, EditedIds(edits))
    ensures forall other | Overwritten(before, edits, other) :: !validate(other, EditedIds(edits))
  {
    forall other | Overwritten(before, edits, other)
      ensures other == after
    {
      OverwrittenOnce(before, edits, other, after);
    }
  }

  /** The objects of a group's events. */
  function GroupIds(h: Head, g: Group): set<Uuid>
    requires 1 <= g.first <= g.last <= |h.events|
  {
    set i | g.first - 1 <= i < g.last :: h.events[i].id
  }

  /**
   The rows after a group was undone or redone: each of its objects showed what the
   group left (or found), and shows what it found (or left) again, in its next
   version; no other row changed.
   */
  ghost predicate Reverted(h: Head, g: Group, redo: bool, after: Rows) {
    && 1 <= g.first <= g.last <= |h.events|
    && (forall i | g.first - 1 <= i < g.last ::
          var e := h.events[i];
          && e.id in h.rows && h.rows[e.id].content == (if redo then e.before else e.after)
          && e.id in after && after[e.id] == Row(h.rows[e.id].kind, if redo then e.after else e.before,
                                                 h.rows[e.id].version + 1))
    && forall u: Uuid | u !in GroupIds(h, g) :: Get(after, u) == Get(h.rows, u)
  }

  /** A unit can be taken back, or forth, to one set of rows only. */
  lemma RevertedOnce(h: Head, g: Group, redo: bool, a: Rows, b: Rows)
    requires Reverted(h, g, redo, a) && Reverted(h, g, redo, b)
    ensures a == b
  {
    forall u: Uuid
      ensures Get(a, u) == Get(b, u)
    {
      if u in GroupIds(h, g) {
        var i :| g.first - 1 <= i < g.last && h.events[i].id == u;
      }
    }
    assert forall u | u in a :: Get(b, u).Some?;
    assert forall u | u in b :: Get(a, u).Some?;
  }

  /** The compensating writes of a unit take its objects back, or forth, and touch nothing else. */
  lemma MoveReverts(base: Rows, h: Head, redo: bool)
    requires Sound(base, h) && StacksOf(h.groups).Some? && Target(StacksOf(h.groups).value, redo).Some?
    ensures var t := Target(StacksOf(h.groups).value, redo).value;
      var items := Items(Unit(h, t), redo);
      && t < |h.groups| && h.groups[t].action.Edit?
      && Reverted(h, h.groups[t], redo, TouchAll(h.rows, items)) && IdsOf(items) == GroupIds(h, h.groups[t])
  {
    hide Journaled, Chained, TouchAll, Play, ViewOf, ViewAt, StacksOf, Fitting, Compensable, Items, History, Position,
      Target, DistinctIds, DistinctItems, IdsOf, UnitReverted;
    var t := Target(StacksOf(h.groups).value, redo).value;
    TargetCompensable(base, h, redo);
    assert WellGrouped(h, t);
    ItemsDistinct(Unit(h, t), redo);
    UnitReverts(h.rows, ViewAt(ViewOf(base), History(h), if redo then Position(h) else Position(h) - 1), Unit(h, t),
                redo);
    GroupReverted(h, h.groups[t], redo, TouchAll(h.rows, Items(Unit(h, t), redo)), IdsOf(Items(Unit(h, t), redo)));
  }

  /** The same of a sequence of events. */
  ghost predicate UnitReverted(rows: Rows, unit: seq<Event>, redo: bool, after: Rows, ids: set<Uuid>) {
    && (forall k | 0 <= k < |unit| ::
          var e := unit[k];
          && e.id in rows && rows[e.id].content == (if redo then e.before else e.after) && e.id in ids
          && e.id in after && after[e.id] == Row(rows[e.id].kind, if redo then e.after else e.before,
                                                 rows[e.id].version + 1))
    && (forall u | u in ids :: exists k :: 0 <= k < |unit| && unit[k].id == u)
    && forall u: Uuid | u !in ids :: Get(after, u) == Get(rows, u)
  }

  lemma GroupReverted(h: Head, g: Group, redo: bool, after: Rows, ids: set<Uuid>)
    requires 1 <= g.first <= g.last <= |h.events|
    requires UnitReverted(h.rows, h.events[g.first - 1..g.last], redo, after, ids)
    ensures Reverted(h, g, redo, after) && ids == GroupIds(h, g)
  {
    var unit := h.events[g.first - 1..g.last];
    forall i | g.first - 1 <= i < g.last
      ensures unit[i - (g.first - 1)] == h.events[i]
    {}
    forall u
      ensures u in ids <==> u in GroupIds(h, g)
    {
      if u in ids {
        var k :| 0 <= k < |unit| && unit[k].id == u;
        assert h.events[g.first - 1 + k].id == u;
      }
      if u in GroupIds(h, g) {
        var i :| g.first - 1 <= i < g.last && h.events[i].id == u;
        assert unit[i - (g.first - 1)].id == u;
      }
    }
  }

  lemma UnitReverts(rows: Rows, before: View, unit: seq<Event>, redo: bool)
    requires Compensable(rows, before, unit, redo) && DistinctItems(Items(unit, redo))
    ensures UnitReverted(rows, unit, redo, TouchAll(rows, Items(unit, redo)), IdsOf(Items(unit, redo)))
  {
    hide Compensable, TouchAll, Items, DistinctItems;
    var items := Items(unit, redo);
    forall k | 0 <= k < |unit|
      ensures var e := unit[k];
        && e.id in rows && rows[e.id].content == (if redo then e.before else e.after) && e.id in IdsOf(items)
        && e.id in TouchAll(rows, items)
        && TouchAll(rows, items)[e.id] == Row(rows[e.id].kind, if redo then e.after else e.before,
                                              rows[e.id].version + 1)
    {
      UnitStep(rows, before, unit, redo, if redo then k else |unit| - 1 - k);
    }
    forall u | u in IdsOf(items)
      ensures exists k :: 0 <= k < |unit| && unit[k].id == u
    {
      var j :| 0 <= j < |items| && items[j].id == u;
      ItemIs(unit, redo, j);
      assert unit[if redo then j else |unit| - 1 - j].id == u;
    }
    forall u: Uuid | u !in IdsOf(items)
      ensures Get(TouchAll(rows, items), u) == Get(rows, u)
    {
      TouchAllGrows(rows, items, u);
    }
  }

  /** One event of a unit of distinct objects, as its compensation finds and leaves it. */
  lemma UnitStep(rows: Rows, before: View, unit: seq<Event>, redo: bool, j: nat)
    requires Compensable(rows, before, unit, redo) && j < |unit| && DistinctItems(Items(unit, redo))
    ensures var items := Items(unit, redo);
      var e := if redo then unit[j] else unit[|unit| - 1 - j];
      && items[j].id == e.id && e.id in rows && rows[e.id].content == (if redo then e.before else e.after)
      && e.id in TouchAll(rows, items)
      && TouchAll(rows, items)[e.id] == Row(rows[e.id].kind, if redo then e.after else e.before,
                                            rows[e.id].version + 1)
  {
    hide Compensable, TouchAll;
    var items := Items(unit, redo);
    StepAccepted(rows, before, unit, redo, j);
    KnownTurn(rows, before, unit, redo, j);
    ItemIs(unit, redo, j);
    TouchAllGrows(rows, items[..j], items[j].id);
    TouchAllAt(rows, items, j);
  }

  /** When undo or redo is carried out: nothing but the generation, the stack and the validator can stop it. */
  ghost predicate CarriesOut(h: Head, expectedGeneration: int, redo: bool, validate: Validator) {
    && h.generation == expectedGeneration && StacksOf(h.groups).Some?
    && Target(StacksOf(h.groups).value, redo).Some?
    && var items := Items(Unit(h, Target(StacksOf(h.groups).value, redo).value), redo);
      validate(TouchAll(h.rows, items), IdsOf(items))
  }

  class WorkingHead {
    var rows: Rows
    var generation: nat
    var events: seq<Event>
    var groups: seq<Group>
    ghost const base: Rows

    function Now(): Head
      reads this
    {
      Head(rows, generation, events, groups)
    }

    ghost predicate Valid()
      reads this
    {
      Sound(base, Now())
    }

    constructor (start: Rows)
      ensures Valid() && base == start && Now() == Head(start, 0, [], [])
    {
      rows, generation, events, groups, base := start, 0, [], [], start;
    }

    /** The head as it is stored. */
    constructor Resume(ghost start: Rows, head: Head)
      requires Sound(start, head)
      ensures Valid() && base == start && Now() == head
    {
      rows, generation, events, groups, base := head.rows, head.generation, head.events, head.groups, start;
    }

    /** One versioned write inside a transaction: the row, the generation, then the journal. */
    method Modify(actor: Uuid, item: Item, expectedVersion: int) returns (ok: bool)
      modifies this
      ensures ok <==> Accepts(old(rows), item, expectedVersion)
      ensures Now() == if ok then Next(old(Now()), actor, item) else old(Now())
      ensures ok <==> UpToDate(old(rows), ObjectEdit(item, expectedVersion))
      ensures ok ==> Overwritten(old(rows), [ObjectEdit(item, expectedVersion)], rows)
                     && Recorded(old(Now()), actor, [ObjectEdit(item, expectedVersion)], Now())
    {
      hide Overwritten, Recorded;
      ghost var edit := ObjectEdit(item, expectedVersion);
      AcceptsIs(rows, edit);
      OneWrite(Now(), actor, edit);
      if IsNull(item.id) || expectedVersion < -1 {
        return false;
      }
      var existed := item.id in rows;
      var existingKind := if existed then rows[item.id].kind else item.kind;
      var beforeContent := if existed then rows[item.id].content else None;
      var beforeVersion: int := if existed then rows[item.id].version else -1;
      var beforeDeleted := !existed || rows[item.id].content.None?;
      if (item.content.None? && (!existed || beforeDeleted)) || beforeVersion != expectedVersion
         || (existed && item.content.Some? && item.kind != existingKind)
         || (item.content.Some? && existed && !beforeDeleted && beforeContent == item.content) {
        return false;
      }
      var storedVersion: nat := if existed then rows[item.id].version + 1 else 1;
      rows := rows[item.id := Row(existingKind, item.content, storedVersion)];
      generation := generation + 1;
      events := events + [Event(item.id, actor, generation, existingKind, beforeVersion, storedVersion, beforeContent,
                                item.content)];
      return true;
    }

    /** Closes the group of everything journaled since `before`; every event must be the actor's own. */
    method WriteGroup(actor: Uuid, action: Action, target: Option<nat>, before: nat) returns (id: Option<nat>)
      requires generation == |events| && forall i | 0 <= i < |events| :: events[i].sequence == i + 1
      modifies this`groups
      ensures id.Some? <==> before < generation && forall i | before <= i < |events| :: events[i].actor == actor
      ensures id.Some? ==> id.value == |old(groups)| && Now() == Closed(old(Now()), actor, action, target, before)
      ensures id.None? ==> Now() == old(Now())
    {
      if generation <= before {
        return None;
      }
      var links: seq<nat> := [];
      for i := 0 to |events|
        invariant i <= before ==> links == []
        invariant |links| <= (if i <= before then 0 else i - before)
        invariant (i > before && |links| == i - before) <==>
                    (i > before && forall j | before <= j < i :: events[j].actor == actor)
        invariant i > before && |links| == i - before ==> links == seq(i - before, j => before + 1 + j)
      {
        var e := events[i];
        if before < e.sequence <= generation && e.actor == actor {
          links := links + [e.sequence];
        }
      }
      if |links| != generation - before {
        return None;
      }
      id := Some(|groups|);
      groups := groups + [Group(actor, action, target, before + 1, generation, links)];
    }

    method Rollback(saved: Head)
      modifies this
      ensures Now() == saved
    {
      rows, generation, events, groups := saved.rows, saved.generation, saved.events, saved.groups;
    }

    /** A group of edits to distinct objects, checked against one generation. */
    method CommitGroup(actor: Uuid, expectedGeneration: int, edits: seq<ObjectEdit>, validate: Validator)
      returns (id: Option<nat>)
      requires Valid()
      modifies this
      ensures Valid()
      ensures id.Some? <==> Commits(old(Now()), expectedGeneration, edits, validate)
      ensures id.Some? <==>
                && edits != [] && (forall i, j | 0 <= i < j < |edits| :: edits[i].item.id != edits[j].item.id)
                && old(generation) == expectedGeneration
                && (forall i | 0 <= i < |edits| :: UpToDate(old(rows), edits[i]))
                && exists after :: Overwritten(old(rows), edits, after) && validate(after, EditedIds(edits))
      ensures id.Some? ==> Overwritten(old(rows), edits, rows) && Recorded(old(Now()), actor, edits, Now())
      ensures id.Some? ==> groups == old(groups) + [Group(actor, Edit, None, old(generation) + 1, generation,
                                                          seq(|edits|, i => old(generation) + 1 + i))]
      ensures id.Some? ==> id.value == |old(groups)|
      ensures id.Some? ==> Now() == Closed(NextAll(old(Now()), actor, ItemsOf(edits)), actor, Edit, None,
                                           old(generation))
      ensures id.None? ==> Now() == old(Now())
    {
      hide Sound, Accepts, TouchAll, Written, Touch, Journaled, StacksOf, Position, History, Unit, DistinctIds,
        AcceptedAll, UpToDate, Overwritten, Recorded, Commits;
      CommitsIs(Now(), expectedGeneration, edits, validate);
      if edits == [] {
        return None;
      }
      var distinct, ids := CheckTargets(edits);
      if !distinct {
        if Commits(Now(), expectedGeneration, edits, validate) { TargetsNamed(rows, edits); }
        return None;
      }
      if generation != expectedGeneration {
        return None;
      }
      ghost var items, start := ItemsOf(edits), Now();
      WritesMean(start, actor, edits);
      var saved := Now();
      var done := ApplyEdits(actor, edits);
      assert done <==> forall i | 0 <= i < |edits| :: UpToDate(start.rows, edits[i]) by {
        AllUpToDate(start.rows, edits);
      }
      if !done {
        Rollback(saved);
        return None;
      }
      if !validate(rows, ids) {
        Rejected(start.rows, edits, rows, validate);
        Rollback(saved);
        return None;
      }
      AcceptedApart(start.rows, edits);
      id := CloseGroup(actor, Edit, None, items, saved);
      EditSound(base, start, actor, items);
      RecordedClosed(start, actor, edits, NextAll(start, actor, items), groups);
    }

    /** The objects of a group of edits: proper identifiers, each once. */
    method CheckTargets(edits: seq<ObjectEdit>) returns (ok: bool, ids: set<Uuid>)
      ensures ok <==>
                && (forall i | 0 <= i < |edits| :: !IsNull(edits[i].item.id))
                && forall i, j | 0 <= i < j < |edits| :: edits[i].item.id != edits[j].item.id
      ensures ok ==> ids == EditedIds(edits)
    {
      hide IsNull;
      ids := {};
      for i := 0 to |edits|
        invariant forall j, k | 0 <= j < k < i :: edits[j].item.id != edits[k].item.id
        invariant ids == EditedIds(edits[..i])
        invariant forall j | 0 <= j < i :: !IsNull(edits[j].item.id)
      {
        assert edits[i].item.id in ids <==> exists j | 0 <= j < i :: edits[j].item.id == edits[i].item.id;
        if IsNull(edits[i].item.id) || edits[i].item.id in ids {
          return false, ids;
        }
        ids := ids + {edits[i].item.id};
        assert edits[..i + 1][..i] == edits[..i] && edits[..i + 1][i] == edits[i];
      }
      assert edits[..|edits|] == edits;
      ok := true;
    }

    /** Journals what a sound head has just written as one group. */
    method CloseGroup(actor: Uuid, action: Action, target: Option<nat>, ghost items: seq<Item>, saved: Head)
      returns (id: Option<nat>)
      requires Sound(base, saved) && Now() == NextAll(saved, actor, items) && items != [] && DistinctItems(items)
      requires AcceptedAll(saved.rows, items)
      modifies this`groups
      ensures id == Some(|saved.groups|)
                && Now() == Closed(NextAll(saved, actor, items), actor, action, target, saved.generation)
    {
      hide Sound, Accepts, TouchAll, Written, Touch, AcceptedAll, Journaled, StacksOf, DistinctItems, Position,
        History, Unit, DistinctIds;
      Parts(base, saved);
      JournalsAll(base, saved, actor, items);
      SequencesCount(base, Now());
      ghost var written := Written(saved.rows, actor, saved.generation, items);
      WrittenBy(saved.rows, actor, saved.generation, items);
      assert forall i | saved.generation <= i < |events| :: events[i] == written[i - saved.generation];
      id := WriteGroup(actor, action, target, saved.generation);
    }

    /** The edits of a group, one after the other, until one is refused. */
    method ApplyEdits(actor: Uuid, edits: seq<ObjectEdit>) returns (ok: bool)
      requires DistinctItems(ItemsOf(edits))
      modifies this
      ensures ok <==> forall i | 0 <= i < |edits| :: Accepts(old(rows), edits[i].item, edits[i].expectedVersion)
      ensures ok ==> Now() == NextAll(old(Now()), actor, ItemsOf(edits))
    {
      hide Accepts, TouchAll, Written, Touch;
      ghost var items := ItemsOf(edits);
      ghost var start := Now();
      NextAllStep(start, actor, [], Item(seq(16, _ => 0), [], None));
      for i := 0 to |edits|
        invariant Now() == NextAll(start, actor, items[..i])
        invariant forall j | 0 <= j < i :: Accepts(start.rows, edits[j].item, edits[j].expectedVersion)
      {
        AcceptsApart(start.rows, items[..i], edits[i]);
        ok := Modify(actor, edits[i].item, edits[i].expectedVersion);
        if !ok {
          return false;
        }
        assert items[..i + 1] == items[..i] + [items[i]];
        NextAllStep(start, actor, items[..i], items[i]);
      }
      assert items[..|edits|] == items;
      return true;
    }

    /** Persistent undo (or redo) of the latest unit, as a new group of compensating writes. */
    method Compensate(actor: Uuid, expectedGeneration: int, redo: bool, validate: Validator)
      returns (target: Option<nat>)
      requires Valid()
      modifies this
      ensures Valid()
      ensures target.Some? <==> CarriesOut(old(Now()), expectedGeneration, redo, validate)
      ensures target.Some? ==>
                target == Target(StacksOf(old(groups)).value, redo)
                && Now() == Moved(old(Now()), actor, redo)
      ensures target.Some? ==>
                && target.value < |old(groups)| && old(groups)[target.value].action.Edit?
                && old(generation) == expectedGeneration
                && Reverted(old(Now()), old(groups)[target.value], redo, rows)
                && validate(rows, GroupIds(old(Now()), old(groups)[target.value]))
                && groups == old(groups) + [Group(actor, if redo then Redo else Undo, target, old(generation) + 1,
                                                  generation, seq(generation - old(generation),
                                                                  i => old(generation) + 1 + i))]
      ensures target.None? && old(generation) == expectedGeneration && old(StacksOf(groups)).Some? ==>
                match Target(old(StacksOf(groups)).value, redo)
                case None => true
                case Some(t) =>
                  t < |old(groups)| && exists after ::
                    Reverted(old(Now()), old(groups)[t], redo, after)
                    && !validate(after, GroupIds(old(Now()), old(groups)[t]))
      ensures target.None? ==> Now() == old(Now())
    {
      hide Sound, Accepts, TouchAll, Written, Touch, Unit, StacksOf, Compensable, Journaled, DistinctIds, AcceptedAll,
        ViewOf, ViewAt;
      if generation != expectedGeneration {
        return None;
      }
      ghost var start := Now();
      Parts(base, start);
      var parsed := ReadStacks();
      if parsed.None? {
        assert false;
      }
      var stack := if redo then parsed.value.undone else parsed.value.applied;
      if stack == [] {
        return None;
      }
      var t := stack[|stack| - 1];
      TargetCompensable(base, start, redo);
      var edits := OriginalEvents(t);
      ghost var items := Items(edits, redo);
      MoveReverts(base, start, redo);
      if edits == [] {
        return None;
      }
      var saved := Now();
      ghost var before := ViewAt(ViewOf(base), History(start), if redo then Position(start) else Position(start) - 1);
      var done, touched := CompensateEach(actor, edits, redo, before);
      if !done {
        assert false;
      }
      if !validate(rows, touched) {
        Rollback(saved);
        return None;
      }
      AllAccepted(start.rows, before, edits, redo);
      ItemsDistinct(edits, redo);
      MoveSound(base, start, actor, redo);
      var id := CloseGroup(actor, if redo then Redo else Undo, Some(t), items, saved);
      return Some(t);
    }

    /** Reads the undo and redo stacks off the group list; none for a broken chain. */
    method ReadStacks() returns (s: Option<Stacks>)
      ensures s == StacksOf(groups)
    {
      var applied: seq<nat>, undone: seq<nat> := [], [];
      for i := 0 to |groups|
        invariant StacksOf(groups[..i]) == Some(Stacks(applied, undone))
      {
        assert groups[..i + 1][..i] == groups[..i];
        ghost var next := StacksOf(groups[..i + 1]);
        if next.None? { ChainBroken(groups, i + 1); }
        var g := groups[i];
        match g.action {
          case Edit =>
            applied, undone := applied + [i], [];
          case Undo =>
            if applied == [] || Some(applied[|applied| - 1]) != g.target {
              return None;
            }
            applied, undone := applied[..|applied| - 1], undone + [g.target.value];
          case Redo =>
            if undone == [] || Some(undone[|undone| - 1]) != g.target {
              return None;
            }
            applied, undone := applied + [g.target.value], undone[..|undone| - 1];
        }
      }
      assert groups[..|groups|] == groups;
      return Some(Stacks(applied, undone));
    }

    /** The original events of a group, through its links. */
    method OriginalEvents(t: nat) returns (edits: seq<Event>)
      requires t < |groups| && Grouped(Now())
      ensures edits == Unit(Now(), t)
    {
      assert WellGrouped(Now(), t);
      var g := groups[t];
      edits := [];
      for i := 0 to |g.links|
        invariant edits == Unit(Now(), t)[..i]
      {
        edits := edits + [events[g.links[i] - 1]];
      }
    }

    /** The compensating writes; a state that is not the expected one is a conflict. */
    method CompensateEach(actor: Uuid, edits: seq<Event>, redo: bool, ghost before: View)
      returns (ok: bool, touched: set<Uuid>)
      modifies this
      ensures Compensable(old(rows), before, edits, redo) ==>
                ok && Now() == NextAll(old(Now()), actor, Items(edits, redo)) && touched == IdsOf(Items(edits, redo))
    {
      hide Accepts, TouchAll, Written, Touch, Compensable;
      ghost var items := Items(edits, redo);
      ghost var start := Now();
      ghost var fits := Compensable(start.rows, before, edits, redo);
      NextAllStep(start, actor, [], Item(seq(16, _ => 0), [], None));
      touched := {};
      for i := 0 to |edits|
        invariant fits ==> Now() == NextAll(start, actor, items[..i]) && touched == IdsOf(items[..i])
      {
        var edit := if redo then edits[i] else edits[|edits| - 1 - i];
        if fits { StepAccepted(start.rows, before, edits, redo, i); }
        if edit.id !in rows {
          return false, touched;
        }
        var actualVersion := rows[edit.id].version;
        if rows[edit.id].content != (if redo then edit.before else edit.after) {
          return false, touched;
        }
        touched := touched + {edit.id};
        ok := Modify(actor, Item(edit.id, edit.kind, if redo then edit.after else edit.before), actualVersion);
        if !ok {
          return false, touched;
        }
        assert items[..i + 1] == items[..i] + [items[i]];
        NextAllStep(start, actor, items[..i], items[i]);
        assert items[..i + 1][..i] == items[..i] && items[..i + 1][i] == items[i];
      }
      assert items[..|edits|] == items;
      ok := true;
    }
  }

  /** Edits of other objects do not change what an edit meets. */
  lemma AcceptsApart(rows: Rows, items: seq<Item>, edit: ObjectEdit)
    requires forall i | 0 <= i < |items| :: items[i].id != edit.item.id
    ensures Accepts(TouchAll(rows, items), edit.item, edit.expectedVersion) <==>
              Accepts(rows, edit.item, edit.expectedVersion)
  {
    TouchAllGrows(rows, items, edit.item.id);
  }

  lemma AcceptedApart(rows: Rows, edits: seq<ObjectEdit>)
    requires DistinctItems(ItemsOf(edits))
    requires forall i | 0 <= i < |edits| :: Accepts(rows, edits[i].item, edits[i].expectedVersion)
    ensures AcceptedAll(rows, ItemsOf(edits))
  {
    var items := ItemsOf(edits);
    forall i | 0 <= i < |items|
      ensures Accepts(TouchAll(rows, items[..i]), items[i], VersionOf(TouchAll(rows, items[..i]), items[i].id))
    {
      AcceptsApart(rows, items[..i], edits[i]);
    }
  }

  lemma SequencesCount(base: Rows, h: Head)
    requires Journaled(base, h)
    ensures h.generation == |h.events| && forall i | 0 <= i < |h.events| :: h.events[i].sequence == i + 1
  {}

  /** A chain once broken stays broken. */
  lemma {:induction false} ChainBroken(groups: seq<Group>, n: nat)
    requires n <= |groups| && StacksOf(groups[..n]).None?
    ensures StacksOf(groups).None?
    decreases |groups|
  {
    if n < |groups| {
      var last := |groups| - 1;
      assert groups[..last][..n] == groups[..n];
      ChainBroken(groups[..last], n);
    } else {
      assert groups[..n] == groups;
    }
  }
}
