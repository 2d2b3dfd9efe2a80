/** Whole runs of a working head, and the forensic replay that checks their journal. */
module JournalReplay {
  import opened Prelude
  import opened Uuid
  import opened Journal
  import opened UndoHistory
  import opened WorkingObjects
  import opened RevisionSeal
  import M = ModelRecord
  import C = ContentStore
  import JournalAudit
  import TreeUpdate

  // ---------------------------------------------------------------------- runs

  datatype Command =
    | Commit(actor: Uuid, expectedGeneration: int, edits: seq<ObjectEdit>)
    | Move(actor: Uuid, expectedGeneration: int, redo: bool)

  /** The head after a request; a refused one leaves it alone. */
  ghost function After(h: Head, c: Command, validate: Validator): Head {
    match c
    case Commit(actor, expected, edits) =>
      if Commits(h, expected, edits, validate)
      then Closed(NextAll(h, actor, ItemsOf(edits)), actor, Edit, None, h.generation) else h
    case Move(actor, expected, redo) =>
      if CarriesOut(h, expected, redo, validate) then Moved(h, actor, redo) else h
  }

  ghost function AfterAll(h: Head, commands: seq<Command>, validate: Validator): Head {
    if commands == [] then h else After(AfterAll(h, commands[..|commands| - 1], validate), commands[|commands| - 1],
                                        validate)
  }

  /** Objects are never forgotten, kinds never change, versions and the generation only grow. */
  ghost predicate Grown(h: Head, h': Head) {
    && h'.generation >= h.generation && h.events <= h'.events && h.groups <= h'.groups
    && forall id | id in h.rows ::
         id in h'.rows && h'.rows[id].kind == h.rows[id].kind && h'.rows[id].version >= h.rows[id].version
  }

  lemma NextAllGrown(h: Head, actor: Uuid, items: seq<Item>, action: Action, target: Option<nat>)
    ensures Grown(h, Closed(NextAll(h, actor, items), actor, action, target, h.generation))
  {
    forall id | id in h.rows
      ensures id in TouchAll(h.rows, items) && TouchAll(h.rows, items)[id].kind == h.rows[id].kind
              && TouchAll(h.rows, items)[id].version >= h.rows[id].version
    {
      TouchAllGrows(h.rows, items, id);
    }
  }

  lemma StepSound(base: M.Rows, h: Head, c: Command, validate: Validator)
    requires Sound(base, h)
    ensures Sound(base, After(h, c, validate)) && Grown(h, After(h, c, validate))
  {
    hide Sound, Grown, Accepts, TouchAll, Written, Unit, StacksOf;
    Parts(base, h);
    match c
    case Commit(actor, expected, edits) =>
      if Commits(h, expected, edits, validate) {
        AcceptedApart(h.rows, edits);
        EditSound(base, h, actor, ItemsOf(edits));
        NextAllGrown(h, actor, ItemsOf(edits), Edit, None);
      } else {
        Unchanged(h);
      }
    case Move(actor, expected, redo) =>
      if CarriesOut(h, expected, redo, validate) {
        MoveSound(base, h, actor, redo);
        var t := Target(StacksOf(h.groups).value, redo).value;
        NextAllGrown(h, actor, Items(Unit(h, t), redo), if redo then Redo else Undo, Some(t));
      } else {
        Unchanged(h);
      }
  }

  lemma Unchanged(h: Head)
    ensures Grown(h, h)
  {}

  /** Every run of edits, undos and redos keeps the head sound and only ever grows it. */
  lemma {:induction false} RunSound(base: M.Rows, h: Head, commands: seq<Command>, validate: Validator)
    requires Sound(base, h)
    ensures Sound(base, AfterAll(h, commands, validate)) && Grown(h, AfterAll(h, commands, validate))
  {
    hide Sound, After;
    if commands == [] {
    } else {
      var n := |commands| - 1;
      RunSound(base, h, commands[..n], validate);
      StepSound(base, AfterAll(h, commands[..n], validate), commands[n], validate);
    }
  }

  /** What a run from fresh rows leaves: live contents are the base with the applied units replayed. */
  lemma RunContents(base: M.Rows, commands: seq<Command>, validate: Validator)
    ensures var h := AfterAll(Head(base, 0, [], []), commands, validate);
      && StacksOf(h.groups).Some? && Position(h) <= |History(h)|
      && ViewOf(h.rows) == ViewAt(ViewOf(base), History(h), Position(h))
      && Replay(base, h.events) == Some(h.rows)
      && h.generation == |h.events| && forall i | 0 <= i < |h.events| :: h.events[i].sequence == i + 1
  {
    hide AfterAll, History, Position, ViewAt;
    var start := Head(base, 0, [], []);
    Fresh(base);
    RunSound(base, start, commands, validate);
    var h := AfterAll(start, commands, validate);
    Parts(base, h);
    SequencesCount(base, h);
  }

  lemma Fresh(base: M.Rows)
    ensures Sound(base, Head(base, 0, [], []))
  {}

  /** The groups cut the sequence numbers: each belongs to exactly one group. */
  lemma {:induction false} GroupOf(h: Head, n: nat, sequence: nat) returns (i: nat)
    requires Grouped(h) && n <= |h.groups| && 1 <= sequence <= LastOf(h.groups[..n])
    ensures i < n && h.groups[i].first <= sequence <= h.groups[i].last
    ensures forall j | 0 <= j < n && j != i :: !(h.groups[j].first <= sequence <= h.groups[j].last)
    decreases n
  {
    hide Unit, EventsOf, DistinctIds;
    var last := n - 1;
    assert WellGrouped(h, last);
    assert h.groups[..n][last] == h.groups[last];
    if h.groups[last].first <= sequence {
      i := last;
      forall j | 0 <= j < last
        ensures h.groups[j].last < sequence
      {
        LastsGrow(h, j, last);
      }
    } else {
      i := GroupOf(h, last, sequence);
    }
  }

  lemma {:induction false} LastsGrow(h: Head, j: nat, n: nat)
    requires Grouped(h) && j < n <= |h.groups|
    ensures h.groups[j].last <= LastOf(h.groups[..n])
    decreases n
  {
    hide Unit, EventsOf, DistinctIds;
    assert WellGrouped(h, n - 1);
    assert h.groups[..n][n - 1] == h.groups[n - 1];
    if j < n - 1 { LastsGrow(h, j, n - 1); }
  }

  /**
   The group write does not check the kind's characters, the sealed record does:
   an accepted edit can make a head whose sealed root cannot be read back.
   */
  lemma UncheckedKind(id: Uuid)
    requires !IsNull(id)
    ensures var item := Item(id, [65], Some([]));
      var h := Head(map[], 0, [], []);
      && Commits(h, 0, [ObjectEdit(item, -1)], (rows, ids) => true)
      && !M.ValidKind(TouchAll(h.rows, [item])[id].kind)
  {
    var item := Item(id, [65], Some([]));
    var edits := [ObjectEdit(item, -1)];
    assert Accepts(map[], edits[0].item, edits[0].expectedVersion);
    assert ItemsOf(edits) == [item];
    assert TouchAll(map[], [item]) == Touch(TouchAll(map[], [item][..0]), item) == Touch(map[], item);
    assert !M.KindChar([65][0]);
  }

  // -------------------------------------------------------------------- replay

  predicate Ascending(events: seq<Event>) {
    forall i | 0 <= i < |events| :: Rises(events, i)
  }

  predicate Rises(events: seq<Event>, i: nat)
    requires i < |events|
  {
    events[i].sequence > if i == 0 then 0 else events[i - 1].sequence
  }

  predicate InRange(events: seq<Event>) {
    forall i | 0 <= i < |events| :: events[i].afterVersion <= M.MAX_VERSION
  }

  lemma RangeOf(events: seq<Event>, n: nat)
    requires n < |events| && InRange(events)
    ensures events[n].afterVersion <= M.MAX_VERSION
  {}

  lemma NoEvents(baseline: M.Rows)
    requires AllTabled(baseline)
    ensures Ascending([]) && InRange([]) && VersionsInRange(baseline)
  {
    forall id | id in baseline
      ensures baseline[id].version <= M.MAX_VERSION
    {
      assert M.Tabled(baseline[id]);
    }
  }

  lemma AscendingSnoc(events: seq<Event>, n: nat)
    requires n < |events|
    ensures Ascending(events[..n + 1]) <==>
              Ascending(events[..n]) && events[n].sequence > if n == 0 then 0 else events[n - 1].sequence
    ensures Ascending(events) ==> Ascending(events[..n + 1])
    ensures InRange(events[..n + 1]) <==> InRange(events[..n]) && events[n].afterVersion <= M.MAX_VERSION
  {
    var a, b := events[..n], events[..n + 1];
    assert b == a + [events[n]];
    forall i | 0 <= i < n
      ensures Rises(b, i) == Rises(a, i) == Rises(events, i)
    {}
    assert Rises(b, n) == Rises(events, n);
  }

  predicate VersionsInRange(rows: M.Rows) {
    forall id | id in rows :: rows[id].version <= M.MAX_VERSION
  }

  /** One event, checked against the rows before it. */
  method ReplayEvent(replayed: M.Rows, e: Event, lastSequence: nat) returns (r: Option<M.Rows>)
    requires VersionsInRange(replayed)
    ensures r == if e.sequence > lastSequence && e.afterVersion <= M.MAX_VERSION && Continues(replayed, e)
                 then Some(Replayed(replayed, e)) else None
    ensures r.Some? ==> VersionsInRange(r.value)
  {
    var existed := e.id in replayed;
    var beforeVersion: int := if existed then replayed[e.id].version else -1;
    var beforeContent := if existed then replayed[e.id].content else None;
    var overflow := existed && replayed[e.id].version == M.MAX_VERSION;
    var afterVersion := if !existed || overflow then 1 else replayed[e.id].version + 1;
    if IsNull(e.id) || e.sequence <= lastSequence
       || e.beforeVersion != beforeVersion || e.before != beforeContent
       || (existed && e.kind != replayed[e.id].kind) || overflow || e.afterVersion != afterVersion
       || (e.after.None? && beforeContent.None?) {
      return None;
    }
    r := Some(replayed[e.id := M.Row(e.kind, e.after, afterVersion)]);
  }

  /** Replays a journal, checking every event against the rows before it. */
  method ReplayEvents(baseline: M.Rows, events: seq<Event>) returns (r: Option<M.Rows>)
    requires AllTabled(baseline)
    ensures r == if Ascending(events) && InRange(events) then Replay(baseline, events) else None
  {
    hide Continues, Replayed, Ascending, InRange, VersionsInRange;
    NoEvents(baseline);
    var replayed := baseline;
    var lastSequence := 0;
    for n := 0 to |events|
      invariant Ascending(events[..n]) && InRange(events[..n]) && Replay(baseline, events[..n]) == Some(replayed)
      invariant lastSequence == if n == 0 then 0 else events[n - 1].sequence
      invariant VersionsInRange(replayed)
    {
      assert events[..n + 1][..n] == events[..n];
      var next := ReplayEvent(replayed, events[n], lastSequence);
      AscendingSnoc(events, n);
      if next.None? {
        if Ascending(events) && InRange(events) {
          RangeOf(events, n);
          ReplayBroken(baseline, events, n + 1);
        }
        return None;
      }
      lastSequence := events[n].sequence;
      replayed := next.value;
    }
    assert events[..|events|] == events;
    r := Some(replayed);
  }

  lemma {:induction false} ReplayBroken(base: M.Rows, events: seq<Event>, n: nat)
    requires n <= |events| && Replay(base, events[..n]).None?
    ensures Replay(base, events).None?
    decreases |events|
  {
    if n < |events| {
      assert events[..|events| - 1][..n] == events[..n];
      ReplayBroken(base, events[..|events| - 1], n);
    } else {
      assert events[..n] == events;
    }
  }

  /** Compares two snapshots by size and then object by object. */
  method SameObjects(replayed: M.Rows, snapshot: M.Rows) returns (same: bool)
    ensures same <==> replayed == snapshot
  {
    if |replayed| != |snapshot| {
      return false;
    }
    var rest := snapshot.Keys;
    while rest != {}
      invariant rest <= snapshot.Keys
      invariant forall u | u in snapshot && u !in rest :: u in replayed && replayed[u] == snapshot[u]
      decreases rest
    {
      var u :| u in rest;
      if u !in replayed || replayed[u] != snapshot[u] {
        return false;
      }
      rest := rest - {u};
    }
    SubsetSize(snapshot.Keys, replayed.Keys);
    same := true;
  }

  /** What the root of a revision, or the absence of a parent, stands for. */
  ghost predicate Snapshot(h: C.Hash, rows: C.Rows, root: Bytes, objects: M.Rows) {
    AllTabled(objects) && (if root == [] then objects == map[] else Archived(h, rows, root, objects))
  }

  /** Numbers rise from one event to the next, and versions stay in range. */
  ghost predicate WellNumbered(events: seq<Event>) {
    && (forall i, j | 0 <= i < j < |events| :: events[i].sequence < events[j].sequence)
    && forall e | e in events :: 0 < e.sequence && e.afterVersion <= 0x7FFF_FFFF_FFFF_FFFF
  }

  lemma {:induction false} WellNumberedIs(events: seq<Event>)
    ensures Ascending(events) && InRange(events) <==> WellNumbered(events)
  {
    if Ascending(events) {
      forall i, j | 0 <= i < j < |events|
        ensures events[i].sequence < events[j].sequence
      {
        RisesAlong(events, i, j);
      }
      forall e | e in events
        ensures 0 < e.sequence
      {
        var i :| 0 <= i < |events| && events[i] == e;
        assert Rises(events, i);
      }
    }
    if WellNumbered(events) {
      forall i | 0 <= i < |events|
        ensures Rises(events, i) && events[i].afterVersion <= M.MAX_VERSION
      {
        assert events[i] in events;
      }
    }
  }

  lemma {:induction false} RisesAlong(events: seq<Event>, i: nat, j: nat)
    requires Ascending(events) && i < j < |events|
    ensures events[i].sequence < events[j].sequence
    decreases j
  {
    assert Rises(events, j);
    if i < j - 1 { RisesAlong(events, i, j - 1); }
  }

  /**
   A journal is the whole truth about a sealed revision: its events are truthful and
   in order, and lead from the objects that the first parent's root stands for to
   the objects that the sealed root stands for, all of which can be read.
   */
  ghost predicate Accounted(h: C.Hash, rows: C.Rows, firstParentRoot: Bytes, events: seq<Event>, sealedRoot: Bytes) {
    exists start, final ::
      && Snapshot(h, rows, firstParentRoot, start) && LegalKinds(start)
      && Archived(h, rows, sealedRoot, final) && AllTabled(final) && LegalKinds(final)
      && WellNumbered(events) && JournalAudit.LeadsTo(start, events, final)
  }

  /**
   The forensic check of a sealed revision: read the parent snapshot, replay the
   journal on it, and compare with the sealed snapshot object by object. In any
   store, tampered with or not, it accepts exactly the journals that account for
   the sealed objects.
   */
  method VerifyJournalReplay(db: C.Store, firstParentRoot: Bytes, events: seq<Event>, sealedRoot: Bytes)
    returns (ok: bool)
    ensures ok <==> Accounted(db.hash, db.rows, firstParentRoot, events, sealedRoot)
    ensures forall start, final |
              sealedRoot != [] && Snapshot(db.hash, db.rows, firstParentRoot, start)
              && Snapshot(db.hash, db.rows, sealedRoot, final) ::
              ok <==> LegalKinds(start) && LegalKinds(final) && Ascending(events) && InRange(events)
                      && Replay(start, events) == Some(final)
  {
    hide Archived, AllTabled, LegalKinds, Ascending, InRange, Replay, WellNumbered, JournalAudit.LeadsTo;
    WellNumberedIs(events);
    forall start, final: M.Rows
      ensures Replay(start, events) == Some(final) <==> JournalAudit.LeadsTo(start, events, final)
    {
      JournalAudit.LeadsToIs(start, events, final);
    }
    forall start | Snapshot(db.hash, db.rows, firstParentRoot, start)
      ensures firstParentRoot != [] ==> |firstParentRoot| == 32
    {
      if firstParentRoot != [] { RootSize(db.hash, db.rows, firstParentRoot, start); }
    }
    forall final | Archived(db.hash, db.rows, sealedRoot, final)
      ensures |sealedRoot| == 32
    {
      RootSize(db.hash, db.rows, sealedRoot, final);
    }
    if |sealedRoot| != 32 || (firstParentRoot != [] && |firstParentRoot| != 32) {
      return false;
    }
    var baseline: Option<M.Rows> := Some(map[]);
    NothingTabled();
    if firstParentRoot != [] {
      baseline := ReadRevisionObjects(db, firstParentRoot);
    }
    if baseline.None? {
      return false;
    }
    var replayed := ReplayEvents(baseline.value, events);
    if replayed.None? {
      return false;
    }
    var snapshot := ReadRevisionObjects(db, sealedRoot);
    if snapshot.None? {
      return false;
    }
    ok := SameObjects(replayed.value, snapshot.value);
  }

  lemma NothingTabled()
    ensures AllTabled(map[]) && LegalKinds(map[])
  {}

  lemma RootSize(h: C.Hash, rows: C.Rows, root: Bytes, objects: M.Rows)
    requires Archived(h, rows, root, objects)
    ensures |root| == 32
  {
    hide Kept, Seals;
    TreeUpdate.RootLength(h, rows, root, 0);
  }

  /** An event's version is never above the row's present version. */
  lemma {:induction false} VersionsBelow(base: M.Rows, events: seq<Event>)
    requires Replay(base, events).Some?
    ensures forall i | 0 <= i < |events| ::
              events[i].id in Replay(base, events).value
                && events[i].afterVersion <= Replay(base, events).value[events[i].id].version
  {
    if events != [] { VersionsBelow(base, events[..|events| - 1]); }
  }

  /**
   Sealing a head on its parent writes a journal that the forensic check
   accepts, provided the kinds are legal: nothing the working head does is
   missing from its journal, and nothing in the journal is untrue.
   */
  lemma SealedJournalAccepted(base: M.Rows, h: Head)
    requires Sound(base, h) && AllTabled(h.rows)
    ensures Ascending(h.events) && InRange(h.events) && Replay(base, h.events) == Some(h.rows)
  {
    hide Grouped, Undoable;
    Parts(base, h);
    SequencesCount(base, h);
    VersionsBelow(base, h.events);
    forall i | 0 <= i < |h.events|
      ensures h.events[i].afterVersion <= M.MAX_VERSION
    {
      assert M.Tabled(h.rows[h.events[i].id]);
    }
  }
}
