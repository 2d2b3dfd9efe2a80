/** Whole-snapshot editing of a working revision: replace, undo and redo, each recorded as an immutable event. */
module SnapshotHistory {
  import opened Prelude
  import opened Uuid
  import opened PortableFrame
  import opened OperationJournal
  import RevisionManifest

  type Snapshot = Option<Bytes>

  /** Both stacks hold identifiers of replacements, the newest last. */
  datatype Stacks = Stacks(applied: seq<Uuid>, redo: seq<Uuid>, replacements: map<Uuid, Row>)

  /** The working revision: its snapshot, if any, and its recorded operations. */
  datatype History = History(snapshot: Snapshot, rows: seq<Row>)

  // --------------------------------------------------------------------- replay

  function Step(s: Stacks, row: Row): Option<Stacks> {
    if row.kind == REPLACE then Some(Stacks(s.applied + [row.id], [], s.replacements[row.id := row]))
    else if row.kind == UNDO then
      if s.applied == [] || s.applied[|s.applied| - 1] != row.target then None
      else Some(s.(applied := s.applied[..|s.applied| - 1], redo := s.redo + [row.target]))
    else if row.kind == REDO then
      if s.redo == [] || s.redo[|s.redo| - 1] != row.target then None
      else Some(s.(applied := s.applied + [row.target], redo := s.redo[..|s.redo| - 1]))
    else None
  }

  function Replayed(rows: seq<Row>): Option<Stacks> {
    if rows == [] then Some(Stacks([], [], map[]))
    else
      var s := Replayed(rows[..|rows| - 1]);
      if s.None? then None else Step(s.value, rows[|rows| - 1])
  }

  lemma {:induction false} NoneStays(rows: seq<Row>, n: nat)
    requires n <= |rows| && Replayed(rows[..n]).None?
    ensures Replayed(rows).None?
    decreases |rows|
  {
    if n < |rows| {
      assert rows[..|rows| - 1][..n] == rows[..n];
      NoneStays(rows[..|rows| - 1], n);
    } else {
      assert rows[..n] == rows;
    }
  }

  method Replay(rows: seq<Row>) returns (r: Option<Stacks>)
    ensures r == Replayed(rows)
  {
    var applied: seq<Uuid>, redo: seq<Uuid>, replacements: map<Uuid, Row> := [], [], map[];
    for i := 0 to |rows|
      invariant Replayed(rows[..i]) == Some(Stacks(applied, redo, replacements))
    {
      var row := rows[i];
      assert rows[..i + 1][..i] == rows[..i];
      ghost var next := Step(Stacks(applied, redo, replacements), row);
      assert Replayed(rows[..i + 1]) == next;
      if next.None? {
        NoneStays(rows, i + 1);
      }
      if row.kind == REPLACE {
        applied := applied + [row.id];
        redo := [];
        replacements := replacements[row.id := row];
      } else if row.kind == UNDO {
        if applied == [] || applied[|applied| - 1] != row.target {
          return None;
        }
        applied := applied[..|applied| - 1];
        redo := redo + [row.target];
      } else if row.kind == REDO {
        if redo == [] || redo[|redo| - 1] != row.target {
          return None;
        }
        redo := redo[..|redo| - 1];
        applied := applied + [row.target];
      } else {
        return None;
      }
    }
    assert rows[..|rows|] == rows;
    r := Some(Stacks(applied, redo, replacements));
  }

  // ------------------------------------------------------------------- timeline

  function Reversed(s: seq<Uuid>): (r: seq<Uuid>)
    ensures |r| == |s|
  {
    if s == [] then [] else [s[|s| - 1]] + Reversed(s[..|s| - 1])
  }

  /** The replacements that are or could again be applied, oldest first; the first |applied| of them are in force. */
  function Line(s: Stacks): seq<Uuid> {
    s.applied + Reversed(s.redo)
  }

  /** The snapshot after the first k replacements of a line. */
  function At(base: Snapshot, replacements: map<Uuid, Row>, line: seq<Uuid>, k: nat): Snapshot
    requires k <= |line| && forall u | u in line :: u in replacements
  {
    if k == 0 then base else replacements[line[k - 1]].after
  }

  predicate Changes(row: Row) {
    row.kind == REPLACE && row.after.Some? && row.before != row.after
  }

  /** Each replacement on the line starts from where the one before it ended, and changes the snapshot. */
  predicate Chained(base: Snapshot, replacements: map<Uuid, Row>, line: seq<Uuid>) {
    && (forall u | u in line :: u in replacements)
    && (forall u | u in replacements :: replacements[u].id == u && Changes(replacements[u]))
    && (forall i, j | 0 <= i < j < |line| :: line[i] != line[j])
    && (forall i | 0 <= i < |line| :: replacements[line[i]].before == At(base, replacements, line, i))
  }

  /** The snapshot is where the applied replacements of a chained line lead. */
  predicate Linked(base: Snapshot, s: Stacks, snapshot: Snapshot) {
    Chained(base, s.replacements, Line(s)) && snapshot == At(base, s.replacements, Line(s), |s.applied|)
  }

  predicate Known(rows: seq<Row>, id: Uuid) {
    exists i :: 0 <= i < |rows| && rows[i].id == id
  }

  /** The snapshot just before event i, or at the end. */
  function Earlier(base: Snapshot, rows: seq<Row>, i: nat): Snapshot
    requires i <= |rows|
  {
    if i == 0 then base else rows[i - 1].after
  }

  /** The events lead from the base to the snapshot without a gap. */
  predicate Continuous(base: Snapshot, rows: seq<Row>, snapshot: Snapshot) {
    && (forall i | 0 <= i < |rows| :: rows[i].before == Earlier(base, rows, i) && rows[i].before != rows[i].after)
    && snapshot == Earlier(base, rows, |rows|)
  }

  /** What holds of every working revision's snapshot history. */
  ghost predicate Sound(base: Snapshot, revision: Uuid, h: History) {
    && Orderly(h.rows, revision) && Continuous(base, h.rows, h.snapshot)
    && Replayed(h.rows).Some? && Linked(base, Replayed(h.rows).value, h.snapshot)
    && forall u | u in Replayed(h.rows).value.replacements :: Known(h.rows, u)
  }

  /** A history with one more event. */
  function Recorded(h: History, row: Row): History {
    History(row.after, h.rows + [row])
  }

  /** A legal next event: at its place, with a new identifier, from the present snapshot to another. */
  ghost predicate Next(h: History, revision: Uuid, row: Row) {
    EventOk(row, revision, |h.rows|) && !Known(h.rows, row.id) && row.before == h.snapshot && row.before != row.after
  }

  ghost predicate IsUndo(h: History, row: Row) {
    var s := Replayed(h.rows);
    row.kind == UNDO && s.Some? && s.value.applied != [] && row.target == s.value.applied[|s.value.applied| - 1]
    && row.target in s.value.replacements && row.after == s.value.replacements[row.target].before
  }

  ghost predicate IsRedo(h: History, row: Row) {
    var s := Replayed(h.rows);
    row.kind == REDO && s.Some? && s.value.redo != [] && row.target == s.value.redo[|s.value.redo| - 1]
    && row.target in s.value.replacements && row.after == s.value.replacements[row.target].after
  }

  lemma ReplayOneMore(h: History, row: Row)
    requires Replayed(h.rows).Some?
    ensures Replayed(Recorded(h, row).rows) == Step(Replayed(h.rows).value, row)
  {
    assert (h.rows + [row])[..|h.rows|] == h.rows;
  }

  lemma RowsGoOn(base: Snapshot, revision: Uuid, h: History, row: Row)
    requires Orderly(h.rows, revision) && Continuous(base, h.rows, h.snapshot) && Next(h, revision, row)
    ensures Orderly(Recorded(h, row).rows, revision) && Continuous(base, Recorded(h, row).rows, row.after)
    ensures forall u | Known(h.rows, u) || u == row.id :: Known(Recorded(h, row).rows, u)
  {
    hide EventOk, Continuous;
    var rows := Recorded(h, row).rows;
    forall u | Known(h.rows, u) || u == row.id
      ensures Known(rows, u)
    {
      if u == row.id {
        assert rows[|h.rows|].id == u;
      } else {
        var i :| 0 <= i < |h.rows| && h.rows[i].id == u;
        assert rows[i].id == u;
      }
    }
    forall i | 0 <= i < |h.rows|
      ensures rows[i].id != row.id
    {
      assert rows[i] == h.rows[i];
    }
    ContinuousMore(base, h.rows, h.snapshot, row);
  }

  lemma ContinuousMore(base: Snapshot, rows: seq<Row>, snapshot: Snapshot, row: Row)
    requires Continuous(base, rows, snapshot) && row.before == snapshot != row.after
    ensures Continuous(base, rows + [row], row.after)
  {
    var more := rows + [row];
    forall i | 0 <= i < |more|
      ensures more[i].before == Earlier(base, more, i) && more[i].before != more[i].after
    {
      if i < |rows| {
        assert more[i] == rows[i] && Earlier(base, more, i) == Earlier(base, rows, i);
      } else {
        assert more[i] == row && Earlier(base, more, i) == Earlier(base, rows, i);
      }
    }
  }

  /** The redo end of the line. */
  lemma RedoFirst(s: Stacks)
    requires s.redo != []
    ensures Line(s)[|s.applied|] == s.redo[|s.redo| - 1]
    ensures Line(s) == s.applied + [s.redo[|s.redo| - 1]] + Reversed(s.redo[..|s.redo| - 1])
  {
  }

  lemma UndoLine(s: Stacks, row: Row)
    requires row.kind == UNDO && s.applied != [] && row.target == s.applied[|s.applied| - 1]
    ensures Step(s, row).Some? && Line(Step(s, row).value) == Line(s) && |Step(s, row).value.applied| == |s.applied| - 1
    ensures Step(s, row).value.replacements == s.replacements
  {
    var t := Step(s, row).value;
    assert t.redo[..|s.redo|] == s.redo;
    assert Reversed(t.redo) == [row.target] + Reversed(s.redo);
    assert s.applied == t.applied + [row.target];
  }

  lemma RedoLine(s: Stacks, row: Row)
    requires row.kind == REDO && s.redo != [] && row.target == s.redo[|s.redo| - 1]
    ensures Step(s, row).Some? && Line(Step(s, row).value) == Line(s) && |Step(s, row).value.applied| == |s.applied| + 1
    ensures Step(s, row).value.replacements == s.replacements
  {
    RedoFirst(s);
  }

  /** Moving along the line keeps every invariant; the snapshot becomes that of the new place. */
  lemma MoveSound(base: Snapshot, revision: Uuid, h: History, row: Row)
    requires Sound(base, revision, h) && Next(h, revision, row) && (IsUndo(h, row) || IsRedo(h, row))
    ensures Sound(base, revision, Recorded(h, row))
    ensures var s, t := Replayed(h.rows).value, Replayed(Recorded(h, row).rows).value;
            Line(t) == Line(s) && t.replacements == s.replacements
            && |t.applied| == |s.applied| + (if row.kind == REDO then 1 else -1)
  {
    hide Orderly, Continuous, Known, Step, EventOk, Replayed, Reversed;
    RowsGoOn(base, revision, h, row);
    ReplayOneMore(h, row);
    var s := Replayed(h.rows).value;
    if row.kind == UNDO {
      UndoLine(s, row);
      assert Line(s)[|s.applied| - 1] == row.target;
    } else {
      RedoFirst(s);
      RedoLine(s, row);
    }
  }

  /** Cutting the line and putting a new replacement on top keeps it chained. */
  lemma ChainedMore(base: Snapshot, replacements: map<Uuid, Row>, line: seq<Uuid>, n: nat, row: Row)
    requires Chained(base, replacements, line) && n <= |line| && row.id !in replacements && Changes(row)
    requires row.before == At(base, replacements, line, n)
    ensures Chained(base, replacements[row.id := row], line[..n] + [row.id])
  {
    hide Changes;
    var more, top := replacements[row.id := row], line[..n] + [row.id];
    forall i | 0 <= i < |top|
      ensures top[i] in more && (i < n ==>
                                 top[i] == line[i] && top[i] != row.id
                                 && more[top[i]] == replacements[line[i]])
    {
      if i < n {
        assert line[i] in line;
      }
    }
    forall i, j | 0 <= i < j < |top|
      ensures top[i] != top[j]
    {
      if j < n {
        assert line[i] != line[j];
      }
    }
    InTop(top, more);
    TopChained(base, replacements, line, n, row);
  }

  lemma InTop(top: seq<Uuid>, more: map<Uuid, Row>)
    requires forall i | 0 <= i < |top| :: top[i] in more
    ensures forall u | u in top :: u in more
  {
  }

  lemma TopAt(base: Snapshot, replacements: map<Uuid, Row>, line: seq<Uuid>, n: nat, row: Row, i: nat)
    requires Chained(base, replacements, line) && i <= n <= |line| && row.id !in replacements
               && row.before == At(base, replacements, line, n)
    ensures var more, top := replacements[row.id := row], line[..n] + [row.id];
            top[i] in more && (i > 0 ==> top[i - 1] in more)
            && more[top[i]].before == if i == 0 then base else more[top[i - 1]].after
  {
    hide Changes;
    var top := line[..n] + [row.id];
    if i > 0 {
      assert top[i - 1] == line[i - 1] && line[i - 1] in line;
    }
    if i < n {
      assert top[i] == line[i] && line[i] in line;
      assert replacements[line[i]].before == At(base, replacements, line, i);
    }
  }

  lemma TopChained(base: Snapshot, replacements: map<Uuid, Row>, line: seq<Uuid>, n: nat, row: Row)
    requires Chained(base, replacements, line) && n <= |line| && row.id !in replacements
               && row.before == At(base, replacements, line, n)
    ensures var more, top := replacements[row.id := row], line[..n] + [row.id];
            (forall u | u in top :: u in more) && forall i | 0 <= i < |top| ::
              more[top[i]].before == At(base, more, top, i)
  {
    hide Changes, Chained;
    var more, top := replacements[row.id := row], line[..n] + [row.id];
    forall i | 0 <= i < |top|
      ensures top[i] in more
    {
      TopAt(base, replacements, line, n, row, i);
    }
    InTop(top, more);
    forall i | 0 <= i < |top|
      ensures more[top[i]].before == At(base, more, top, i)
    {
      TopAt(base, replacements, line, n, row, i);
    }
  }

  lemma LinkedMore(base: Snapshot, s: Stacks, snapshot: Snapshot, row: Row)
    requires Linked(base, s, snapshot) && row.id !in s.replacements && row.before == snapshot && Changes(row)
    ensures Linked(base, Stacks(s.applied + [row.id], [], s.replacements[row.id := row]), row.after)
  {
    hide Changes, Reversed;
    NothingReversed();
    var t := Stacks(s.applied + [row.id], [], s.replacements[row.id := row]);
    ChainedMore(base, s.replacements, Line(s), |s.applied|, row);
    assert Line(t) == Line(s)[..|s.applied|] + [row.id];
  }

  lemma NothingReversed()
    ensures Reversed([]) == []
  {
  }

  /** A replacement keeps every invariant, goes on top of the applied ones, and leaves nothing to redo. */
  lemma ReplaceSound(base: Snapshot, revision: Uuid, h: History, row: Row)
    requires Sound(base, revision, h) && Next(h, revision, row) && row.kind == REPLACE && row.after.Some?
    ensures Sound(base, revision, Recorded(h, row))
    ensures var s, t := Replayed(h.rows).value, Replayed(Recorded(h, row).rows).value;
            t.applied == s.applied + [row.id] && t.redo == [] && t.replacements == s.replacements[row.id := row]
  {
    hide Orderly, Continuous, Known, EventOk, Replayed, Linked;
    RowsGoOn(base, revision, h, row);
    ReplayOneMore(h, row);
    LinkedMore(base, Replayed(h.rows).value, h.snapshot, row);
  }

  lemma Place(base: Snapshot, revision: Uuid, h: History)
    requires Sound(base, revision, h)
    ensures Replayed(h.rows).Some? && var s := Replayed(h.rows).value;
            (forall u | u in Line(s) :: u in s.replacements) && |s.applied| <= |Line(s)|
            && h.snapshot == At(base, s.replacements, Line(s), |s.applied|)
  {
    hide Orderly, Continuous, Known, Replayed, Reversed;
  }

  // ---------------------------------------------------------- runs of undo and redo

  function After(h: History, events: seq<Row>): History {
    History(if events == [] then h.snapshot else events[|events| - 1].after, h.rows + events)
  }

  /** A run of undo and redo events, in any mixture, each legal where it happens. */
  ghost predicate Moves(h: History, revision: Uuid, events: seq<Row>) {
    events != [] ==>
      var sofar, row := events[..|events| - 1], events[|events| - 1];
      Moves(h, revision, sofar) && Next(After(h, sofar), revision, row)
        && (IsUndo(After(h, sofar), row) || IsRedo(After(h, sofar), row))
  }

  function CountOf(kind: Bytes, events: seq<Row>): nat {
    if events == [] then 0
    else CountOf(kind, events[..|events| - 1]) + (if events[|events| - 1].kind == kind then 1 else 0)
  }

  /** Only how many undos and redos there were matters: the snapshot is that of the place they lead to. */
  lemma {:induction false} MovesLand(base: Snapshot, revision: Uuid, h: History, events: seq<Row>)
    requires Sound(base, revision, h) && Moves(h, revision, events)
    ensures Sound(base, revision, After(h, events))
    ensures var s, t := Replayed(h.rows).value, Replayed(After(h, events).rows).value;
            && Line(t) == Line(s) && t.replacements == s.replacements
            && |t.applied| == |s.applied| + CountOf(REDO, events) - CountOf(UNDO, events)
            && After(h, events).snapshot == At(base, s.replacements, Line(s), |t.applied|)
  {
    hide Sound, Next, Replayed, Line, At;
    Place(base, revision, h);
    if events == [] {
      assert After(h, events) == h by {
        assert h.rows + [] == h.rows;
      }
    } else {
      var sofar, row := events[..|events| - 1], events[|events| - 1];
      MovesLand(base, revision, h, sofar);
      MoveSound(base, revision, After(h, sofar), row);
      assert After(h, events) == Recorded(After(h, sofar), row) by {
        assert h.rows + events == h.rows + sofar + [row];
      }
      Place(base, revision, After(h, events));
    }
  }

  lemma {:induction false} ReversedInjective(a: seq<Uuid>, b: seq<Uuid>)
    requires Reversed(a) == Reversed(b)
    ensures a == b
  {
    if a != [] {
      assert |Reversed(a)| == |a| && |Reversed(b)| == |b|;
      assert Reversed(a)[0] == Reversed(b)[0] && Reversed(a)[1..] == Reversed(b)[1..];
      ReversedInjective(a[..|a| - 1], b[..|b| - 1]);
      assert a == a[..|a| - 1] + [a[|a| - 1]] && b == b[..|b| - 1] + [b[|b| - 1]];
    }
  }

  /** As many redos as undos restore the snapshot and both stacks, whatever their order. */
  lemma EvenMovesRestore(base: Snapshot, revision: Uuid, h: History, events: seq<Row>)
    requires Sound(base, revision, h) && Moves(h, revision, events) && CountOf(UNDO, events) == CountOf(REDO, events)
    ensures After(h, events).snapshot == h.snapshot && Replayed(After(h, events).rows) == Replayed(h.rows)
  {
    hide Orderly, Continuous, Known, Replayed, Moves, Reversed;
    MovesLand(base, revision, h, events);
    var s, t := Replayed(h.rows).value, Replayed(After(h, events).rows).value;
    assert Line(t)[..|t.applied|] == t.applied && Line(s)[..|s.applied|] == s.applied;
    assert Line(t)[|t.applied|..] == Reversed(t.redo) && Line(s)[|s.applied|..] == Reversed(s.redo);
    ReversedInjective(s.redo, t.redo);
  }

  // ------------------------------------------------------------------ the revision

  function OrEmpty(snapshot: Snapshot): Bytes {
    if snapshot.None? then [] else snapshot.value
  }

  /** An editable revision in the legacy whole-snapshot mode. */
  class SnapshotHead {
    const revision: Uuid
    const objectMode: bool
    ghost const base: Snapshot
    var finalized: bool
    var snapshot: Snapshot
    var generation: nat
    var rows: seq<Row>

    ghost predicate Valid()
      reads this
    {
      !IsNull(revision) && generation == |rows| && Sound(base, revision, History(snapshot, rows))
    }

    constructor (revision: Uuid, base: Snapshot, objectMode: bool)
      requires !IsNull(revision)
      ensures Valid() && this.revision == revision && this.base == snapshot == base && this.objectMode == objectMode
      ensures rows == [] && generation == 0 && !finalized
    {
      this.revision, this.base, this.objectMode := revision, base, objectMode;
      finalized, snapshot, generation, rows := false, base, 0, [];
    }

    /** Writes the snapshot and its event together; refused when nothing would change. */
    method ApplySnapshotOperation(actor: Uuid, content: Snapshot, kind: Bytes, target: Uuid, id: Uuid, now: Int64)
      returns (ok: bool)
      requires generation < INT64_MAX
      modifies this`snapshot, this`generation, this`rows
      ensures ok <==> content != old(snapshot)
      ensures ok ==> snapshot == content && generation == old(generation) + 1
                     && rows == old(rows) + [Row(id, actor, revision, generation, now, kind, target, old(snapshot),
                                                 content)]
      ensures !ok ==> unchanged(this)
    {
      var previous := snapshot;
      if previous == content {
        return false;
      }
      snapshot := content;
      generation := generation + 1;
      rows := rows + [Row(id, actor, revision, generation, now, kind, target, previous, content)];
      ok := true;
    }

    /** The whole snapshot is replaced, at the expected generation only, and only by another one. */
    method ReplaceWorkingSnapshot(actor: Uuid, expectedGeneration: int, content: Bytes, id: Uuid, now: Int64)
      returns (ok: bool)
      requires Valid() && generation < INT64_MAX
      requires !IsNull(actor) && !IsNull(id) && !Known(rows, id) && now >= 0
      modifies this`snapshot, this`generation, this`rows
      ensures Valid()
      ensures ok <==>
                !finalized && expectedGeneration == old(generation) && !objectMode
                && old(snapshot) != Some(content)
      ensures ok ==> snapshot == Some(content)
                     && rows == old(rows) + [Row(id, actor, revision, |old(rows)| + 1, now, REPLACE, UNSET,
                                                 old(snapshot), Some(content))]
                     && Replayed(rows).value.applied == Replayed(old(rows)).value.applied + [id]
                     && Replayed(rows).value.redo == []
      ensures !ok ==> unchanged(this)
    {
      hide Sound, Replayed, Known;
      if finalized || expectedGeneration != generation || objectMode {
        return false;
      }
      ghost var was := History(snapshot, rows);
      ok := ApplySnapshotOperation(actor, Some(content), REPLACE, UNSET, id, now);
      if ok {
        ghost var row := rows[|was.rows|];
        assert History(snapshot, rows) == Recorded(was, row);
        ReplaceSound(base, revision, was, row);
      }
    }

    /** Takes back the newest applied replacement. It can fail only for a stale generation, or with nothing to undo. */
    method UndoLastChange(actor: Uuid, expectedGeneration: int, id: Uuid, now: Int64) returns (r: Option<Uuid>)
      requires Valid() && generation < INT64_MAX
      requires !IsNull(actor) && !IsNull(id) && !Known(rows, id) && now >= 0
      modifies this`snapshot, this`generation, this`rows
      ensures Valid()
      ensures r.Some? <==>
                !finalized && expectedGeneration == old(generation) && !objectMode
                && Replayed(old(rows)).value.applied != []
      ensures r.Some? ==> var was := old(History(snapshot, rows));
                          && |rows| == |was.rows| + 1 && History(snapshot, rows) == Recorded(was, rows[|was.rows|])
                          && Next(was, revision, rows[|was.rows|]) && IsUndo(was, rows[|was.rows|])
                          && r.value == rows[|was.rows|].target
      ensures r.Some? ==> exists taken :: taken in old(rows) && taken.id == r.value && taken.kind == REPLACE
                            && taken.after == old(snapshot) && snapshot == taken.before
                            && rows == old(rows) + [Row(id, actor, revision, |old(rows)| + 1, now, UNDO,
                                                        taken.id, taken.after, taken.before)]
      ensures r.None? ==> unchanged(this)
    {
      hide Sound, Replayed, Known, EventOk;
      if finalized || expectedGeneration != generation || objectMode {
        return None;
      }
      ghost var was := History(snapshot, rows);
      ReplaySucceeds(base, revision, was);
      ReplacementsRecorded(rows);
      var stacks := Replay(rows);
      if stacks.None? || stacks.value.applied == [] {
        return None;
      }
      var s := stacks.value;
      var target := s.applied[|s.applied| - 1];
      AppliedTop(base, revision, was);
      var original := s.replacements[target];
      if snapshot.None? || snapshot.value != OrEmpty(original.after) {
        assert false;
        return None;
      }
      TargetNotNull(base, revision, was, target);
      var ok := ApplySnapshotOperation(actor, original.before, UNDO, target, id, now);
      ghost var row := rows[|was.rows|];
      assert History(snapshot, rows) == Recorded(was, row);
      UndoEvent(revision, was, row);
      MoveSound(base, revision, was, row);
      r := Some(target);
    }

    /** Applies the newest undone replacement again. It too never finds a conflict. */
    method RedoLastChange(actor: Uuid, expectedGeneration: int, id: Uuid, now: Int64) returns (r: Option<Uuid>)
      requires Valid() && generation < INT64_MAX
      requires !IsNull(actor) && !IsNull(id) && !Known(rows, id) && now >= 0
      modifies this`snapshot, this`generation, this`rows
      ensures Valid()
      ensures r.Some? <==>
                !finalized && expectedGeneration == old(generation) && !objectMode
                && Replayed(old(rows)).value.redo != []
      ensures r.Some? ==> var was := old(History(snapshot, rows));
                          && |rows| == |was.rows| + 1 && History(snapshot, rows) == Recorded(was, rows[|was.rows|])
                          && Next(was, revision, rows[|was.rows|]) && IsRedo(was, rows[|was.rows|])
                          && r.value == rows[|was.rows|].target
      ensures r.Some? ==> exists taken :: taken in old(rows) && taken.id == r.value && taken.kind == REPLACE
                            && taken.before == old(snapshot) && snapshot == taken.after
                            && rows == old(rows) + [Row(id, actor, revision, |old(rows)| + 1, now, REDO,
                                                        taken.id, taken.before, taken.after)]
      ensures r.None? ==> unchanged(this)
    {
      hide Sound, Replayed, Known, EventOk;
      if finalized || expectedGeneration != generation || objectMode {
        return None;
      }
      ghost var was := History(snapshot, rows);
      ReplaySucceeds(base, revision, was);
      ReplacementsRecorded(rows);
      var stacks := Replay(rows);
      if stacks.None? || stacks.value.redo == [] {
        return None;
      }
      var s := stacks.value;
      var target := s.redo[|s.redo| - 1];
      RedoTop(base, revision, was);
      var original := s.replacements[target];
      if snapshot.Some? != original.before.Some? || (snapshot.Some? && snapshot.value != OrEmpty(original.before)) {
        assert false;
        return None;
      }
      TargetNotNull(base, revision, was, target);
      var ok := ApplySnapshotOperation(actor, Some(OrEmpty(original.after)), REDO, target, id, now);
      ghost var row := rows[|was.rows|];
      assert History(snapshot, rows) == Recorded(was, row);
      UndoEvent(revision, was, row);
      MoveSound(base, revision, was, row);
      r := Some(target);
    }

    /**
     Exports the journal of a finalized revision. Its manifest is exported and read
     back first, so what keeps a manifest from being encoded keeps the journal back
     as well; beyond that only the recorded hash and the journal's length matter.
     */
    method ExportOperationJournal<Text(==,!new)>(p: RevisionManifest.Platform<Text>, m: RevisionManifest.Manifest<Text>)
      returns (r: Option<Bytes>)
      requires Valid() && m.revision == revision
      ensures r == if finalized && RevisionManifest.Encodes(p, m) && m.historyHash == p.sha(Journal(rows))
                      && |Journal(rows)| <= MAX_JOURNAL_FRAME then Some(Journal(rows)) else None
    {
      hide Journal, Replayed, Continuous, Orderly, RevisionManifest.Encodes, RevisionManifest.Frame;
      if !finalized {
        return None;
      }
      var encoded := RevisionManifest.EncodeRevisionManifest(p, m);
      if encoded.None? {
        return None;
      }
      var manifest := RevisionManifest.DecodeRevisionManifest(p, encoded.value);
      assert manifest == Some(m);
      EncodedDigest(p, m);
      var bytes := JournalBytes(rows);
      assert Framed(bytes, revision) <==> |bytes| <= MAX_JOURNAL_FRAME;
      var ok := VerifyRevisionOperationJournal(p.sha, bytes, revision, manifest.value.historyHash);
      r := if ok then Some(bytes) else None;
    }
  }

  lemma EncodedDigest<Text>(p: RevisionManifest.Platform<Text>, m: RevisionManifest.Manifest<Text>)
    requires RevisionManifest.Encodes(p, m)
    ensures |m.historyHash| == DIGEST_LENGTH
  {
    hide RevisionManifest.Frame, RevisionManifest.Preimage;
  }

  /** One replacement by a large snapshot is a sound history, and too long a journal to export. */
  lemma LongJournal(revision: Uuid, actor: Uuid, id: Uuid, now: Int64, content: Bytes)
    requires !IsNull(revision) && !IsNull(actor) && !IsNull(id) && now >= 0 && |content| >= MAX_JOURNAL_FRAME
    ensures var rows := [Row(id, actor, revision, 1, now, REPLACE, UNSET, None, Some(content))];
      Sound(None, revision, History(Some(content), rows)) && |Journal(rows)| > MAX_JOURNAL_FRAME
  {
    hide IsNull;
    var start := History(None, []);
    var row := Row(id, actor, revision, 1, now, REPLACE, UNSET, None, Some(content));
    assert Sound(None, revision, start);
    NullIsUnset(UNSET);
    ReplaceSound(None, revision, start, row);
    assert [] + [row] == [row];
    RowsLength([row]);
    FlatAppend([Raw(JOURNAL_MAGIC)] + [Num(1)], RowsItems([row]));
    assert JournalItems([row]) == [Raw(JOURNAL_MAGIC)] + [Num(1)] + RowsItems([row]);
  }

  /** A title whose UTF-8 form is too long keeps even an empty journal back. */
  lemma LongTitle<Text>(p: RevisionManifest.Platform<Text>, m: RevisionManifest.Manifest<Text>)
    requires |p.utf8(m.title)| > RevisionManifest.MAX_TEXT_LENGTH
    ensures !RevisionManifest.Encodes(p, m) && |Journal([])| <= MAX_JOURNAL_FRAME
  {
    hide RevisionManifest.Frame, RevisionManifest.Preimage;
    FlatAppend([Raw(JOURNAL_MAGIC)], [Num(0)]);
  }

  /** Every remembered replacement is one of the recorded operations. */
  lemma {:induction false} ReplacementsRecorded(rows: seq<Row>)
    requires Replayed(rows).Some?
    ensures forall u | u in Replayed(rows).value.replacements ::
              var row := Replayed(rows).value.replacements[u];
              row in rows && row.id == u && row.kind == REPLACE
  {
    if rows != [] {
      var n := |rows| - 1;
      ReplacementsRecorded(rows[..n]);

      assert forall row | row in rows[..n] :: row in rows;
    }
  }

  lemma AppliedTop(base: Snapshot, revision: Uuid, h: History)
    requires Sound(base, revision, h) && Replayed(h.rows).value.applied != []
    ensures Replayed(h.rows).Some? && var s := Replayed(h.rows).value; var u := s.applied[|s.applied| - 1];
            u in s.replacements && h.snapshot.Some? && h.snapshot == s.replacements[u].after
              && s.replacements[u].before != h.snapshot
  {
    hide Orderly, Continuous, Known, Replayed;
    var s := Replayed(h.rows).value;
    assert Line(s)[|s.applied| - 1] == s.applied[|s.applied| - 1];
  }

  lemma RedoTop(base: Snapshot, revision: Uuid, h: History)
    requires Sound(base, revision, h) && Replayed(h.rows).value.redo != []
    ensures Replayed(h.rows).Some? && var s := Replayed(h.rows).value; var u := s.redo[|s.redo| - 1];
            u in s.replacements && h.snapshot == s.replacements[u].before && s.replacements[u].after.Some?
            && s.replacements[u].after != h.snapshot
  {
    hide Orderly, Continuous, Known, Replayed;
    var s := Replayed(h.rows).value;
    RedoFirst(s);
    assert Line(s)[|s.applied|] in Line(s);
  }

  lemma ReplaySucceeds(base: Snapshot, revision: Uuid, h: History)
    requires Sound(base, revision, h)
    ensures Replayed(h.rows).Some?
  {
  }

  lemma TargetNotNull(base: Snapshot, revision: Uuid, h: History, u: Uuid)
    requires Sound(base, revision, h) && u in Replayed(h.rows).value.replacements
    ensures !IsNull(u)
  {
    hide Replayed, Linked, Continuous, IsNull;
    assert Known(h.rows, u);
  }

  lemma UndoEvent(revision: Uuid, was: History, row: Row)
    requires !IsNull(row.id) && !IsNull(row.actor) && row.revision == revision && row.sequence == |was.rows| + 1
               && row.occurredAt >= 0
    requires (row.kind == UNDO || row.kind == REDO) && !IsNull(row.target)
    ensures EventOk(row, revision, |was.rows|)
  {
    hide IsNull;
  }
}
