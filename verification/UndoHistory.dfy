/** Undo and redo over the journal: the inverse of a unit is always applicable, and undoes exactly it. */
module UndoHistory {
  import opened Prelude
  import opened Uuid
  import opened ModelRecord
  import opened Journal

  function UndoItems(events: seq<Event>): (r: seq<Item>)
    ensures |r| == |events|
  {
    seq(|events|, i requires 0 <= i < |events| =>
      var e := events[|events| - 1 - i]; Item(e.id, e.kind, e.before))
  }

  function RedoItems(events: seq<Event>): (r: seq<Item>)
    ensures |r| == |events|
  {
    seq(|events|, i requires 0 <= i < |events| => Item(events[i].id, events[i].kind, events[i].after))
  }

  function Items(events: seq<Event>, redo: bool): (r: seq<Item>)
    ensures |r| == |events|
  {
    if redo then RedoItems(events) else UndoItems(events)
  }

  /** The rows know the unit's objects, and the unit fits the contents before it. */
  ghost predicate Compensable(rows: Rows, before: View, unit: seq<Event>, redo: bool) {
    && Fitting(before, unit)
    && ViewOf(rows) == (if redo then before else Play(before, unit))
    && forall i | 0 <= i < |unit| ::
         !IsNull(unit[i].id) && unit[i].before != unit[i].after && unit[i].id in rows
           && rows[unit[i].id].kind == unit[i].kind
  }

  /** The event that step `j` of a compensation works on, and the events left after it. */
  function Turn(unit: seq<Event>, redo: bool, j: nat): Event
    requires j < |unit|
  {
    if redo then unit[j] else unit[|unit| - 1 - j]
  }

  function Rest(unit: seq<Event>, redo: bool, j: nat): seq<Event>
    requires j <= |unit|
  {
    if redo then unit[..j] else unit[..|unit| - j]
  }

  /** One step moves the contents over its event: forward for redo, back for undo. */
  lemma TurnShows(before: View, unit: seq<Event>, redo: bool, j: nat)
    requires Fitting(before, unit) && j < |unit|
    ensures var e := Turn(unit, redo, j);
      && Get(Play(before, Rest(unit, redo, j)), e.id) == LiveOf(e.kind, if redo then e.before else e.after)
      && Show(Play(before, Rest(unit, redo, j)), e.id, LiveOf(e.kind, if redo then e.after else e.before))
         == Play(before, Rest(unit, redo, j + 1))
  {
    hide Play, Show, LiveOf, Get;
    var n := if redo then j else |unit| - 1 - j;
    var v, e := Play(before, unit[..n]), unit[n];
    assert unit[..n + 1] == unit[..n] + [e];
    PlaySnoc(before, unit[..n], e);
    assert Get(v, e.id) == LiveOf(e.kind, e.before);
    ShowBack(v, e.id, LiveOf(e.kind, e.after), LiveOf(e.kind, e.before));
  }

  /** Showing what stood there before takes a change back. */
  lemma ShowBack(v: View, id: Uuid, changed: Option<Live>, before: Option<Live>)
    requires Get(v, id) == before
    ensures Show(Show(v, id, changed), id, before) == v && Get(Show(v, id, changed), id) == changed
  {}

  lemma ItemIs(unit: seq<Event>, redo: bool, j: nat)
    requires j < |unit|
    ensures var e := Turn(unit, redo, j); Items(unit, redo)[j] == Item(e.id, e.kind, if redo then e.after else e.before)
  {}

  lemma KnownTurn(rows: Rows, before: View, unit: seq<Event>, redo: bool, j: nat)
    requires Compensable(rows, before, unit, redo) && j < |unit|
    ensures var e := Turn(unit, redo, j);
      !IsNull(e.id) && e.before != e.after && e.id in rows && rows[e.id].kind == e.kind
  {
    hide Fitting, Play, ViewOf, IsNull;
  }

  /** Part of the way through a unit, the contents are those part of the way through its events. */
  lemma {:induction false} PartWay(rows: Rows, before: View, unit: seq<Event>, redo: bool, j: nat)
    requires Compensable(rows, before, unit, redo) && j <= |unit|
    ensures ViewOf(TouchAll(rows, Items(unit, redo)[..j])) == Play(before, Rest(unit, redo, j))
  {
    hide Fitting, Show, Seen, Play, ViewOf, Touch, Turn, Items, IsNull;
    var items := Items(unit, redo);
    if j == 0 {
      assert unit[..|unit|] == unit && unit[..0] == [] && items[..0] == [];
      NothingPlays(before);
    } else {
      PartWay(rows, before, unit, redo, j - 1);
      var mid := TouchAll(rows, items[..j - 1]);
      assert items[..j][..j - 1] == items[..j - 1];
      ItemIs(unit, redo, j - 1);
      KnownTurn(rows, before, unit, redo, j - 1);
      TouchAllGrows(rows, items[..j - 1], items[j - 1].id);
      TouchView(mid, items[j - 1]);
      TurnShows(before, unit, redo, j - 1);
    }
  }

  /** Each step of the compensation finds the state it expects and is accepted. */
  lemma StepAccepted(rows: Rows, before: View, unit: seq<Event>, redo: bool, j: nat)
    requires Compensable(rows, before, unit, redo) && j < |unit|
    ensures var items := Items(unit, redo);
      var e := if redo then unit[j] else unit[|unit| - 1 - j];
      var mid := TouchAll(rows, items[..j]);
      && e.id in mid && mid[e.id].content == (if redo then e.before else e.after)
      && Accepts(mid, items[j], mid[e.id].version)
  {
    hide Fitting, Play, ViewOf, Items, IsNull;
    var items := Items(unit, redo);
    var e := Turn(unit, redo, j);
    var mid := TouchAll(rows, items[..j]);
    ItemIs(unit, redo, j);
    KnownTurn(rows, before, unit, redo, j);
    TouchAllGrows(rows, items[..j], e.id);
    PartWay(rows, before, unit, redo, j);
    TurnShows(before, unit, redo, j);
    ViewGet(mid, e.id);
  }

  /** The whole compensation moves the contents exactly one unit along the line. */
  lemma Compensates(rows: Rows, before: View, unit: seq<Event>, redo: bool)
    requires Compensable(rows, before, unit, redo)
    ensures ViewOf(TouchAll(rows, Items(unit, redo))) == if redo then Play(before, unit) else before
  {
    PartWay(rows, before, unit, redo, |unit|);
    assert Items(unit, redo)[..|unit|] == Items(unit, redo);
    assert unit[..|unit|] == unit && unit[..0] == [];
  }

  // ------------------------------------------------------------- whole operations

  /** All the items of a write sequence are accepted where they come. */
  ghost predicate AcceptedAll(rows: Rows, items: seq<Item>) {
    forall i | 0 <= i < |items| ::
      Accepts(TouchAll(rows, items[..i]), items[i], VersionOf(TouchAll(rows, items[..i]), items[i].id))
  }

  lemma {:induction false} JournalsAll(base: Rows, h: Head, actor: Uuid, items: seq<Item>)
    requires Journaled(base, h) && AcceptedAll(h.rows, items)
    ensures Journaled(base, NextAll(h, actor, items))
  {
    hide Journaled, Accepts;
    if items == [] {
      NextAllStep(h, actor, [], Item(seq(16, _ => 0), [], None));
    } else {
      var n := |items| - 1;
      forall i | 0 <= i < n
        ensures Accepts(TouchAll(h.rows, items[..n][..i]), items[..n][i],
                        VersionOf(TouchAll(h.rows, items[..n][..i]), items[..n][i].id))
      {
        assert items[..n][..i] == items[..i];
      }
      JournalsAll(base, h, actor, items[..n]);
      assert items == items[..n] + [items[n]];
      NextAllStep(h, actor, items[..n], items[n]);
      var mid := NextAll(h, actor, items[..n]);
      Journals(base, mid, actor, items[n], VersionOf(mid.rows, items[n].id));
    }
  }

  predicate DistinctItems(items: seq<Item>) {
    forall i, j | 0 <= i < j < |items| :: items[i].id != items[j].id
  }

  /** The row after a sequence of writes to distinct objects. */
  lemma {:induction false} TouchAllAt(rows: Rows, items: seq<Item>, i: nat)
    requires DistinctItems(items) && i < |items|
    ensures items[i].id in TouchAll(rows, items) && TouchAll(rows, items)[items[i].id]
              == Touch(rows, items[i])[items[i].id]
    decreases |items|
  {
    var last := |items| - 1;
    if i < last {
      TouchAllAt(rows, items[..last], i);
    } else {
      TouchAllGrows(rows, items[..last], items[last].id);
    }
  }

  /** Later events and groups leave the earlier groups as they are. */
  lemma EarlierGroup(h: Head, h': Head, t: nat)
    requires t < |h.groups| && WellGrouped(h, t) && h.events <= h'.events && h.groups <= h'.groups
    ensures WellGrouped(h', t) && Unit(h', t) == Unit(h, t)
  {
    assert h'.groups[t] == h.groups[t] && h'.groups[..t] == h.groups[..t];
    var g := h.groups[t];
    assert h'.events[g.first - 1..g.last] == h.events[g.first - 1..g.last];
  }

  lemma WrittenBy(rows: Rows, actor: Uuid, generation: nat, items: seq<Item>)
    requires DistinctItems(items)
    ensures var written := Written(rows, actor, generation, items);
      DistinctIds(written) && forall e | e in written :: e.actor == actor
  {
    hide TouchAll, Touch, Written;
    var written := Written(rows, actor, generation, items);
    forall i | 0 <= i < |written|
      ensures written[i].id == items[i].id && written[i].actor == actor
    {
      WrittenEvent(rows, actor, generation, items, i);
    }
  }

  /** Closing a group keeps the cut of 1..generation. */
  lemma GroupsKept(h: Head, actor: Uuid, items: seq<Item>, action: Action, target: Option<nat>)
    requires Grouped(h) && h.generation == |h.events| && items != [] && DistinctItems(items)
    ensures var h' := Closed(NextAll(h, actor, items), actor, action, target, h.generation);
      && Grouped(h') && (forall t: nat | t < |h.groups| :: Unit(h', t) == Unit(h, t))
      && Unit(h', |h.groups|) == Written(h.rows, actor, h.generation, items)
  {
    hide TouchAll, Touch, Written, WellGrouped, DistinctItems, DistinctIds;
    var h' := Closed(NextAll(h, actor, items), actor, action, target, h.generation);
    var written := Written(h.rows, actor, h.generation, items);
    forall t: nat | t < |h.groups|
      ensures WellGrouped(h', t) && Unit(h', t) == Unit(h, t)
    {
      EarlierGroup(h, h', t);
    }
    var n := |h.groups|;
    assert h'.groups[..n] == h.groups;
    assert h'.events[h.generation..h'.generation] == written;
    WrittenBy(h.rows, actor, h.generation, items);
    NewGroup(h', n, written);
  }

  lemma NewGroup(h: Head, n: nat, written: seq<Event>)
    requires n < |h.groups| && DistinctIds(written)
    requires var g := h.groups[n];
      && g.first == LastOf(h.groups[..n]) + 1 && g.first <= g.last <= |h.events|
      && g.links == seq(g.last + 1 - g.first, j => g.first + j)
      && h.events[g.first - 1..g.last] == written && forall e | e in written :: e.actor == g.actor
    ensures WellGrouped(h, n)
  {}

  lemma UnitsKept(h: Head, h': Head, line: seq<nat>)
    requires forall t | t in line :: t < |h.groups|
    requires forall t: nat | t < |h.groups| :: Unit(h', t) == Unit(h, t)
    ensures Units(h', line) == Units(h, line)
  {
    assert forall i | 0 <= i < |line| :: line[i] in line;
  }

  lemma LineInRange(groups: seq<Group>)
    requires StacksOf(groups).Some?
    ensures forall t | t in LineOf(StacksOf(groups).value) :: t < |groups| && groups[t].action.Edit?
  {
    StacksInRange(groups);
    var s := StacksOf(groups).value;
    forall t | t in LineOf(s)
      ensures t in s.applied || t in s.undone
    {
      assert forall r | r in Reversed(s.undone) :: r in s.undone;
    }
  }

  function Position(h: Head): nat
    requires StacksOf(h.groups).Some?
  {
    |StacksOf(h.groups).value.applied|
  }

  function History(h: Head): seq<seq<Event>>
    requires StacksOf(h.groups).Some?
  {
    Units(h, LineOf(StacksOf(h.groups).value))
  }

  lemma Parts(base: Rows, h: Head)
    requires Sound(base, h)
    ensures Journaled(base, h) && Grouped(h) && h.generation == |h.events| && StacksOf(h.groups).Some?
    ensures Chained(ViewOf(base), History(h)) && Position(h) <= |History(h)|
    ensures ViewOf(h.rows) == ViewAt(ViewOf(base), History(h), Position(h))
  {}

  lemma StacksAfter(h: Head, h': Head)
    requires |h'.groups| == |h.groups| + 1 && h.groups <= h'.groups && StacksOf(h.groups).Some?
    ensures StacksOf(h'.groups) == NextStacks(StacksOf(h.groups).value, h'.groups[|h.groups|], |h.groups|)
  {
    assert h'.groups[..|h.groups|] == h.groups;
  }

  /** The contents are decided by the history line and the position on it. */
  lemma PlaceDecides(base: Rows, h: Head, h': Head)
    requires Sound(base, h) && Sound(base, h') && StacksOf(h.groups).Some? && StacksOf(h'.groups).Some?
    requires History(h) == History(h') && Position(h) == Position(h')
    ensures ViewOf(h.rows) == ViewOf(h'.rows)
  {
    hide Sound, History, Position;
    Parts(base, h);
    Parts(base, h');
  }

  /** An accepted edit group ends the history line at its own unit. */
  lemma EditSound(base: Rows, h: Head, actor: Uuid, items: seq<Item>)
    requires Sound(base, h) && items != [] && DistinctItems(items) && AcceptedAll(h.rows, items)
    ensures var h' := Closed(NextAll(h, actor, items), actor, Edit, None, h.generation);
      && Sound(base, h') && StacksOf(h'.groups).Some? && Position(h') == Position(h) + 1
      && History(h') == History(h)[..Position(h)] + [Written(h.rows, actor, h.generation, items)]
  {
    hide AcceptedAll, Chained, ViewAt, Fitting, Play, TouchAll, Written, ViewOf, Grouped, Unit, Journaled, StacksOf,
      LineOf, DistinctItems;
    Parts(base, h);
    var h' := Closed(NextAll(h, actor, items), actor, Edit, None, h.generation);
    var written := Written(h.rows, actor, h.generation, items);
    var s := StacksOf(h.groups).value;
    var n := |h.groups|;
    JournalsAll(base, h, actor, items);
    assert Journaled(base, h') by { ClosedJournaled(base, NextAll(h, actor, items), actor, Edit, None, h.generation); }
    GroupsKept(h, actor, items, Edit, None);
    StacksAfter(h, h');
    LineSteps(s, h'.groups[n], n);
    LineInRange(h.groups);
    var line := LineOf(s);
    var kept := line[..|s.applied|];
    assert forall t | t in kept :: t in line;
    UnitsKept(h, h', kept);
    assert Units(h', line[..|s.applied|] + [n]) == Units(h, line)[..|s.applied|] + [written];
    WrittenPlays(h.rows, actor, h.generation, items);
    ChainedExtend(ViewOf(base), Units(h, line), |s.applied|, written);
  }

  lemma ClosedJournaled(base: Rows, h: Head, actor: Uuid, action: Action, target: Option<nat>, before: nat)
    requires Journaled(base, h) && before <= h.generation
    ensures Journaled(base, Closed(h, actor, action, target, before))
  {}

  /** The unit that undo or redo works on. */
  function Target(s: Stacks, redo: bool): Option<nat> {
    var stack := if redo then s.undone else s.applied;
    if stack == [] then None else Some(stack[|stack| - 1])
  }

  /** On a sound head the next undo or redo meets no conflict at any step. */
  lemma TargetCompensable(base: Rows, h: Head, redo: bool)
    requires Sound(base, h) && Target(StacksOf(h.groups).value, redo).Some?
    ensures var t := Target(StacksOf(h.groups).value, redo).value;
      var p := if redo then Position(h) else Position(h) - 1;
      && t < |h.groups| && h.groups[t].action.Edit? && Unit(h, t) != [] && DistinctIds(Unit(h, t))
      && 0 <= p < |History(h)| && History(h)[p] == Unit(h, t)
      && Compensable(h.rows, ViewAt(ViewOf(base), History(h), p), Unit(h, t), redo)
  {
    hide Fitting, Play, ViewOf, Journaled, Grouped, WellGrouped, StacksOf, Unit, IsNull, DistinctIds;
    Parts(base, h);
    var s := StacksOf(h.groups).value;
    var t := Target(s, redo).value;
    LineInRange(h.groups);
    var line := LineOf(s);
    var p := if redo then |s.applied| else |s.applied| - 1;
    assert line[p] == t;
    assert line[p] in line;
    assert Fitting(ViewAt(ViewOf(base), History(h), p), History(h)[p]);
    UnitFacts(base, h, t);
  }

  /** The original events of a unit concern known objects, one event each. */
  lemma UnitFacts(base: Rows, h: Head, t: nat)
    requires Journaled(base, h) && Grouped(h) && t < |h.groups|
    ensures Unit(h, t) != [] && DistinctIds(Unit(h, t))
    ensures forall e | e in Unit(h, t) ::
              !IsNull(e.id) && e.before != e.after && e.id in h.rows && h.rows[e.id].kind == e.kind
  {
    hide Replay, IsNull;
    assert WellGrouped(h, t);
    var g := h.groups[t];
    forall e | e in Unit(h, t)
      ensures e in h.events
    {
      var i :| 0 <= i < |Unit(h, t)| && Unit(h, t)[i] == e;
      assert e == h.events[g.first - 1 + i];
    }
  }

  function Moved(h: Head, actor: Uuid, redo: bool): Head
    requires StacksOf(h.groups).Some? && Target(StacksOf(h.groups).value, redo).Some?
  {
    var t := Target(StacksOf(h.groups).value, redo).value;
    Closed(NextAll(h, actor, Items(Unit(h, t), redo)), actor, if redo then Redo else Undo, Some(t), h.generation)
  }

  /** Undo and redo keep the head sound and the line as it is, and move one unit along it. */
  lemma MoveSound(base: Rows, h: Head, actor: Uuid, redo: bool)
    requires Sound(base, h) && StacksOf(h.groups).Some? && Target(StacksOf(h.groups).value, redo).Some?
    ensures var h' := Moved(h, actor, redo);
      && Sound(base, h') && StacksOf(h'.groups).Some? && History(h') == History(h)
      && Position(h') == (if redo then Position(h) + 1 else Position(h) - 1)
      && ViewOf(h'.rows) == ViewAt(ViewOf(base), History(h), Position(h'))
  {
    hide Chained, Fitting, Play, TouchAll, Written, ViewOf, Grouped, Unit, Journaled, AcceptedAll, Compensable,
      StacksOf, LineOf, DistinctItems, DistinctIds, Items, Units;
    Parts(base, h);
    var s := StacksOf(h.groups).value;
    var t := Target(s, redo).value;
    var unit := Unit(h, t);
    var items := Items(unit, redo);
    TargetCompensable(base, h, redo);
    var p := if redo then Position(h) else Position(h) - 1;
    var before := ViewAt(ViewOf(base), History(h), p);
    AllAccepted(h.rows, before, unit, redo);
    JournalsAll(base, h, actor, items);
    var h' := Moved(h, actor, redo);
    var action := if redo then Redo else Undo;
    ClosedJournaled(base, NextAll(h, actor, items), actor, action, Some(t), h.generation);
    ItemsDistinct(unit, redo);
    GroupsKept(h, actor, items, action, Some(t));
    var n := |h.groups|;
    StacksAfter(h, h');
    LineSteps(s, h'.groups[n], n);
    LineInRange(h.groups);
    UnitsKept(h, h', LineOf(s));
    Compensates(h.rows, before, unit, redo);
  }

  lemma AllAccepted(rows: Rows, before: View, unit: seq<Event>, redo: bool)
    requires Compensable(rows, before, unit, redo)
    ensures AcceptedAll(rows, Items(unit, redo))
  {
    hide Compensable, Accepts;
    var items := Items(unit, redo);
    forall i | 0 <= i < |items|
      ensures Accepts(TouchAll(rows, items[..i]), items[i], VersionOf(TouchAll(rows, items[..i]), items[i].id))
    {
      StepAccepted(rows, before, unit, redo, i);
    }
  }

  lemma ItemsDistinct(unit: seq<Event>, redo: bool)
    requires DistinctIds(unit)
    ensures DistinctItems(Items(unit, redo))
  {}

  /** After an undo, redo works on the same unit. */
  lemma RedoTarget(base: Rows, h: Head, actor: Uuid)
    requires Sound(base, h) && StacksOf(h.groups).Some? && Target(StacksOf(h.groups).value, false).Some?
    ensures var undone := Moved(h, actor, false);
      StacksOf(undone.groups).Some? && Target(StacksOf(undone.groups).value, true)
        == Target(StacksOf(h.groups).value, false)
  {
    hide Journaled, Grouped, Chained, ViewAt, TouchAll, Written, Unit;
    assert Moved(h, actor, false).groups[..|h.groups|] == h.groups;
  }

  lemma MoveGrows(base: Rows, h: Head, actor: Uuid, redo: bool, id: Uuid)
    requires Sound(base, h) && StacksOf(h.groups).Some? && Target(StacksOf(h.groups).value, redo).Some? && id in h.rows
    ensures var h' := Moved(h, actor, redo);
      h'.generation > h.generation && id in h'.rows && h'.rows[id].version >= h.rows[id].version
  {
    hide Journaled, Grouped, Chained, ViewAt, TouchAll, Written, Unit, Compensable;
    TargetCompensable(base, h, redo);
    TouchAllGrows(h.rows, Items(Unit(h, Target(StacksOf(h.groups).value, redo).value), redo), id);
  }

  /** Undo followed by redo restores every object, and only versions and the generation have grown. */
  lemma UndoThenRedo(base: Rows, h: Head, actor: Uuid, other: Uuid)
    requires Sound(base, h) && StacksOf(h.groups).Some? && Target(StacksOf(h.groups).value, false).Some?
    ensures var undone := Moved(h, actor, false);
      && StacksOf(undone.groups).Some? && Target(StacksOf(undone.groups).value, true).Some?
      && var redone := Moved(undone, other, true);
      && ViewOf(redone.rows) == ViewOf(h.rows) && History(redone) == History(h) && Position(redone) == Position(h)
      && redone.generation > undone.generation > h.generation
      && forall id | id in h.rows :: id in redone.rows && redone.rows[id].version >= h.rows[id].version
  {
    hide Sound, StacksOf, Moved, Target, History, Position, ViewOf, ViewAt;
    Parts(base, h);
    var undone := Moved(h, actor, false);
    MoveSound(base, h, actor, false);
    RedoTarget(base, h, actor);
    MoveSound(base, undone, other, true);
    var redone := Moved(undone, other, true);
    Parts(base, redone);
    PlaceDecides(base, h, redone);
    forall id | id in h.rows
      ensures id in redone.rows && redone.rows[id].version >= h.rows[id].version
    {
      MoveGrows(base, h, actor, false, id);
      MoveGrows(base, undone, other, true, id);
    }
    Advances(base, h, actor, false);
    Advances(base, undone, other, true);
  }

  lemma Advances(base: Rows, h: Head, actor: Uuid, redo: bool)
    requires Sound(base, h) && StacksOf(h.groups).Some? && Target(StacksOf(h.groups).value, redo).Some?
    ensures Moved(h, actor, redo).generation > h.generation
  {
    hide Journaled, Grouped, Chained, ViewAt, TouchAll, Written, Unit, Compensable;
    TargetCompensable(base, h, redo);
  }
}
