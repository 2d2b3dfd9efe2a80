/** The object journal of one working revision: events, groups and what they mean. */
module Journal {
  import opened Prelude
  import opened Uuid
  import opened ModelRecord

  /** One journaled object change; without content it is a deletion. */
  datatype Event = Event(id: Uuid, actor: Uuid, sequence: nat, kind: Bytes, beforeVersion: int, afterVersion: nat,
                         before: Option<Bytes>, after: Option<Bytes>)

  datatype Action = Edit | Undo | Redo

  /** One undo unit. Groups and events are named by their position in the revision. */
  datatype Group = Group(actor: Uuid, action: Action, target: Option<nat>, first: nat, last: nat, links: seq<nat>)

  /** The editable head of a branch. */
  datatype Head = Head(rows: Rows, generation: nat, events: seq<Event>, groups: seq<Group>)

  /** A requested object state. */
  datatype Item = Item(id: Uuid, kind: Bytes, content: Option<Bytes>)

  // ------------------------------------------------------------- a single change

  function VersionOf(rows: Rows, id: Uuid): int {
    if id in rows then rows[id].version else -1
  }

  function ContentOf(rows: Rows, id: Uuid): Option<Bytes> {
    if id in rows then rows[id].content else None
  }

  function KindOf(rows: Rows, item: Item): Bytes {
    if item.id in rows then rows[item.id].kind else item.kind
  }

  /** What the single-object write demands. */
  predicate Accepts(rows: Rows, item: Item, expectedVersion: int) {
    && !IsNull(item.id) && expectedVersion >= -1
    && VersionOf(rows, item.id) == expectedVersion
    && item.content != ContentOf(rows, item.id)
    && (item.content.Some? ==> item.kind == KindOf(rows, item))
  }

  function Touch(rows: Rows, item: Item): Rows {
    rows[item.id := Row(KindOf(rows, item), item.content, if item.id in rows then rows[item.id].version + 1 else 1)]
  }

  function EventFor(rows: Rows, actor: Uuid, sequence: nat, item: Item): Event {
    Event(item.id, actor, sequence, KindOf(rows, item), VersionOf(rows, item.id), Touch(rows, item)[item.id].version,
          ContentOf(rows, item.id), item.content)
  }

  /** The rows and journal after some writes in order. */
  function TouchAll(rows: Rows, items: seq<Item>): Rows {
    if items == [] then rows else
      var n := |items| - 1;
      Touch(TouchAll(rows, items[..n]), items[n])
  }

  function Written(rows: Rows, actor: Uuid, generation: nat, items: seq<Item>): (events: seq<Event>)
    ensures |events| == |items|
  {
    if items == [] then [] else
      var n := |items| - 1;
      Written(rows, actor, generation, items[..n]) +
      [EventFor(TouchAll(rows, items[..n]), actor, generation + n + 1, items[n])]
  }

  // -------------------------------------------------------------------- replay

  /** The event describes a legal change of exactly these rows. */
  predicate Continues(rows: Rows, e: Event) {
    && !IsNull(e.id)
    && e.beforeVersion == VersionOf(rows, e.id) && e.before == ContentOf(rows, e.id)
    && (e.id in rows ==> e.kind == rows[e.id].kind)
    && e.afterVersion == (if e.id in rows then rows[e.id].version + 1 else 1)
    && (e.before.None? ==> e.after.Some?)
  }

  function Replayed(rows: Rows, e: Event): Rows {
    rows[e.id := Row(e.kind, e.after, e.afterVersion)]
  }

  /** Full forensic replay of a journal onto the rows it started from. */
  function Replay(base: Rows, events: seq<Event>): Option<Rows> {
    if events == [] then Some(base) else
      var n := |events| - 1;
      var rows := Replay(base, events[..n]);
      if rows.None? || !Continues(rows.value, events[n]) then None else Some(Replayed(rows.value, events[n]))
  }

  // ------------------------------------------------------------- live contents

  type View = map<Uuid, Live>

  function ViewOf(rows: Rows): View {
    map id | id in rows && rows[id].content.Some? :: Live(rows[id].kind, rows[id].content.value)
  }

  function LiveOf(kind: Bytes, content: Option<Bytes>): Option<Live> {
    if content.None? then None else Some(Live(kind, content.value))
  }

  function Show(v: View, id: Uuid, live: Option<Live>): View {
    if live.None? then v - {id} else v[id := live.value]
  }

  lemma ViewGet(rows: Rows, id: Uuid)
    ensures Get(ViewOf(rows), id) == Seen(Get(rows, id))
  {}

  lemma TouchView(rows: Rows, item: Item)
    ensures ViewOf(Touch(rows, item)) == Show(ViewOf(rows), item.id, LiveOf(KindOf(rows, item), item.content))
  {}

  /** The contents after some events, in order. */
  function Play(v: View, events: seq<Event>): View {
    if events == [] then v else
      var n := |events| - 1;
      Show(Play(v, events[..n]), events[n].id, LiveOf(events[n].kind, events[n].after))
  }

  /** Each event really starts from the contents that the ones before it left. */
  predicate Fitting(v: View, events: seq<Event>) {
    forall i | 0 <= i < |events| ::
      Get(Play(v, events[..i]), events[i].id) == LiveOf(events[i].kind, events[i].before)
  }

  /** The contents after the first `p` undo units of a line of history. */
  function ViewAt(v: View, line: seq<seq<Event>>, p: nat): View
    requires p <= |line|
  {
    if p == 0 then v else Play(ViewAt(v, line, p - 1), line[p - 1])
  }

  predicate Chained(v: View, line: seq<seq<Event>>) {
    forall i | 0 <= i < |line| :: Fitting(ViewAt(v, line, i), line[i])
  }

  lemma {:induction false} ViewAtPrefix(v: View, line: seq<seq<Event>>, line': seq<seq<Event>>, p: nat)
    requires p <= |line| && p <= |line'| && line[..p] == line'[..p]
    ensures ViewAt(v, line, p) == ViewAt(v, line', p)
  {
    if p > 0 {
      assert line[p - 1] == line[..p][p - 1] == line'[..p][p - 1] == line'[p - 1];
      assert line[..p - 1] == line[..p][..p - 1] == line'[..p][..p - 1] == line'[..p - 1];
      ViewAtPrefix(v, line, line', p - 1);
    }
  }

  /** A new unit replaces whatever was beyond the position. */
  lemma ChainedExtend(v: View, line: seq<seq<Event>>, p: nat, unit: seq<Event>)
    requires p <= |line| && Chained(v, line) && Fitting(ViewAt(v, line, p), unit)
    ensures Chained(v, line[..p] + [unit])
    ensures ViewAt(v, line[..p] + [unit], p + 1) == Play(ViewAt(v, line, p), unit)
  {
    hide Fitting;
    var line' := line[..p] + [unit];
    assert line'[..p] == line[..p];
    forall i | 0 <= i <= p
      ensures ViewAt(v, line', i) == ViewAt(v, line, i)
    {
      assert line'[..i] == line[..p][..i] == line[..i];
      ViewAtPrefix(v, line', line, i);
    }
    forall i | 0 <= i < |line'|
      ensures Fitting(ViewAt(v, line', i), line'[i])
    {
      if i < p { assert line'[i] == line[i]; }
    }
  }

  // -------------------------------------------------------------- undo and redo

  function Reversed<T>(s: seq<T>): (r: seq<T>)
    ensures |r| == |s| && forall i | 0 <= i < |s| :: r[i] == s[|s| - 1 - i]
  {
    if s == [] then [] else Reversed(s[1..]) + [s[0]]
  }

  datatype Stacks = Stacks(applied: seq<nat>, undone: seq<nat>)

  /** The undo and redo stacks a sequence of groups leaves; none if the chain is broken. */
  function StacksOf(groups: seq<Group>): Option<Stacks> {
    if groups == [] then Some(Stacks([], [])) else
      var n := |groups| - 1;
      var s := StacksOf(groups[..n]);
      if s.None? then None else NextStacks(s.value, groups[n], n)
  }

  function NextStacks(s: Stacks, g: Group, n: nat): Option<Stacks> {
    match g.action
    case Edit => Some(Stacks(s.applied + [n], []))
    case Undo =>
      if s.applied == [] || Some(s.applied[|s.applied| - 1]) != g.target then None
      else Some(Stacks(s.applied[..|s.applied| - 1], s.undone + [g.target.value]))
    case Redo =>
      if s.undone == [] || Some(s.undone[|s.undone| - 1]) != g.target then None
      else Some(Stacks(s.applied + [g.target.value], s.undone[..|s.undone| - 1]))
  }

  /** Only edit groups are ever undone or redone. */
  lemma {:induction false} StacksInRange(groups: seq<Group>)
    requires StacksOf(groups).Some?
    ensures forall t | t in StacksOf(groups).value.applied :: t < |groups| && groups[t].action.Edit?
    ensures forall t | t in StacksOf(groups).value.undone :: t < |groups| && groups[t].action.Edit?
  {
    if groups != [] {
      var n := |groups| - 1;
      StacksInRange(groups[..n]);
      var s := StacksOf(groups[..n]).value;
      var s' := StacksOf(groups).value;
      forall t | t in s'.applied || t in s'.undone
        ensures (t == n && groups[n].action.Edit?) || t in s.applied || t in s.undone
      {}
    }
  }

  /** The line of history: what is applied, then what redo would bring back. */
  function LineOf(s: Stacks): seq<nat> {
    s.applied + Reversed(s.undone)
  }

  /** An edit drops the redo branch; undo and redo only move along the line. */
  lemma LineSteps(s: Stacks, g: Group, n: nat)
    requires NextStacks(s, g, n).Some?
    ensures var s' := NextStacks(s, g, n).value;
      match g.action
      case Edit => LineOf(s') == LineOf(s)[..|s.applied|] + [n] && |s'.applied| == |s.applied| + 1
      case Undo => LineOf(s') == LineOf(s) && |s'.applied| == |s.applied| - 1
      case Redo => LineOf(s') == LineOf(s) && |s'.applied| == |s.applied| + 1
  {
    var s' := NextStacks(s, g, n).value;
    var a, b := LineOf(s), LineOf(s');
    match g.action
    case Edit => assert b == s.applied + [n];
    case Undo => assert a == b;
    case Redo => assert a == b;
  }

  // ----------------------------------------------------------------- invariant

  function EventsOf(h: Head, g: Group): seq<Event> {
    if 1 <= g.first <= g.last <= |h.events| then h.events[g.first - 1..g.last] else []
  }

  /** Sequences count 1 to the generation, and the journal accounts for every row. */
  ghost predicate Journaled(base: Rows, h: Head) {
    && h.generation == |h.events|
    && (forall i | 0 <= i < |h.events| :: h.events[i].sequence == i + 1 && h.events[i].before != h.events[i].after)
    && (forall i | 0 <= i < |h.events| :: h.events[i].id in h.rows && h.rows[h.events[i].id].kind == h.events[i].kind)
    && (forall i | 0 <= i < |h.events| :: !IsNull(h.events[i].id))
    && Replay(base, h.events) == Some(h.rows)
  }

  function LastOf(groups: seq<Group>): nat {
    if groups == [] then 0 else groups[|groups| - 1].last
  }

  predicate DistinctIds(events: seq<Event>) {
    forall i, j | 0 <= i < j < |events| :: events[i].id != events[j].id
  }

  /** The groups cut 1..generation into contiguous ranges, one event per object in each. */
  predicate Grouped(h: Head) {
    && LastOf(h.groups) == |h.events|
    && forall i | 0 <= i < |h.groups| :: WellGrouped(h, i)
  }

  predicate WellGrouped(h: Head, i: nat)
    requires i < |h.groups|
  {
    var g := h.groups[i];
    && g.first == LastOf(h.groups[..i]) + 1 && g.first <= g.last <= |h.events|
    && g.links == seq(g.last + 1 - g.first, j => g.first + j)
    && DistinctIds(EventsOf(h, g))
    && forall e | e in EventsOf(h, g) :: e.actor == g.actor
  }

  /** The original events of an undo unit. */
  function Unit(h: Head, t: nat): seq<Event> {
    if t < |h.groups| then EventsOf(h, h.groups[t]) else []
  }

  function Units(h: Head, line: seq<nat>): (r: seq<seq<Event>>)
    ensures |r| == |line| && forall i | 0 <= i < |line| :: r[i] == Unit(h, line[i])
  {
    seq(|line|, i requires 0 <= i < |line| => Unit(h, line[i]))
  }

  /** Live contents are the base with the applied units replayed; redo would continue the same line. */
  ghost predicate Undoable(base: Rows, h: Head) {
    var s := StacksOf(h.groups);
    && s.Some?
    && Chained(ViewOf(base), Units(h, LineOf(s.value)))
    && ViewOf(h.rows) == ViewAt(ViewOf(base), Units(h, LineOf(s.value)), |s.value.applied|)
  }

  ghost predicate Sound(base: Rows, h: Head) {
    Journaled(base, h) && Grouped(h) && Undoable(base, h)
  }

  // --------------------------------------------------------------- transitions

  function Next(h: Head, actor: Uuid, item: Item): Head {
    Head(Touch(h.rows, item), h.generation + 1, h.events + [EventFor(h.rows, actor, h.generation + 1, item)], h.groups)
  }

  function NextAll(h: Head, actor: Uuid, items: seq<Item>): Head {
    Head(TouchAll(h.rows, items), h.generation + |items|, h.events + Written(h.rows, actor, h.generation, items),
         h.groups)
  }

  lemma NextAllStep(h: Head, actor: Uuid, items: seq<Item>, item: Item)
    ensures NextAll(h, actor, items + [item]) == Next(NextAll(h, actor, items), actor, item)
    ensures NextAll(h, actor, []) == h
  {
    var all := items + [item];
    assert all[..|items|] == items && all[|items|] == item;
  }

  function Closed(h: Head, actor: Uuid, action: Action, target: Option<nat>, before: nat): Head
    requires before <= h.generation
  {
    h.(groups := h.groups +
       [Group(actor, action, target, before + 1, h.generation, seq(h.generation - before, j => before + 1 + j))])
  }

  /** The events that a write sequence journals. */
  lemma {:induction false} WrittenEvent(rows: Rows, actor: Uuid, generation: nat, items: seq<Item>, i: nat)
    requires i < |items|
    ensures Written(rows, actor, generation, items)[i]
              == EventFor(TouchAll(rows, items[..i]), actor, generation + i + 1, items[i])
    ensures Written(rows, actor, generation, items)[..i] == Written(rows, actor, generation, items[..i])
    decreases |items|
  {
    var n := |items| - 1;
    if i < n {
      WrittenEvent(rows, actor, generation, items[..n], i);
      assert items[..n][..i] == items[..i];
    }
  }

  /** Writes never remove a row, change its kind or lower a version. */
  lemma {:induction false} TouchAllGrows(rows: Rows, items: seq<Item>, id: Uuid)
    ensures id in rows ==> id in TouchAll(rows, items) && TouchAll(rows, items)[id].kind == rows[id].kind
                           && TouchAll(rows, items)[id].version >= rows[id].version
    ensures (forall i | 0 <= i < |items| :: items[i].id != id) ==> Get(TouchAll(rows, items), id) == Get(rows, id)
  {
    if items != [] { TouchAllGrows(rows, items[..|items| - 1], id); }
  }

  lemma {:induction false} Journals(base: Rows, h: Head, actor: Uuid, item: Item, expected: int)
    requires Journaled(base, h) && Accepts(h.rows, item, expected)
    ensures Journaled(base, Next(h, actor, item))
  {
    var h' := Next(h, actor, item);
    var n := |h.events|;
    assert h'.events[..n] == h.events;
    assert Continues(h.rows, h'.events[n]);
    assert Replayed(h.rows, h'.events[n]) == h'.rows;
  }

  lemma FittingSnoc(v: View, front: seq<Event>, e: Event)
    requires Fitting(v, front) && Get(Play(v, front), e.id) == LiveOf(e.kind, e.before)
    ensures Fitting(v, front + [e])
    ensures Play(v, front + [e]) == Show(Play(v, front), e.id, LiveOf(e.kind, e.after))
  {
    hide Play, LiveOf, Show;
    var events := front + [e];
    assert events[..|front|] == front;
    forall i | 0 <= i < |events|
      ensures Get(Play(v, events[..i]), events[i].id) == LiveOf(events[i].kind, events[i].before)
    {
      if i < |front| { assert events[..i] == front[..i] && events[i] == front[i]; }
    }
    PlaySnoc(v, front, e);
  }

  lemma NothingPlays(v: View)
    ensures Play(v, []) == v && Fitting(v, [])
  {}

  /** The event of a write records what the view showed before it and shows after it. */
  lemma EventShows(rows: Rows, actor: Uuid, sequence: nat, item: Item)
    ensures var e := EventFor(rows, actor, sequence, item);
      && Get(ViewOf(rows), e.id) == LiveOf(e.kind, e.before) && e.id == item.id
      && e.kind == KindOf(rows, item) && e.after == item.content
  {}

  lemma PlaySnoc(v: View, front: seq<Event>, e: Event)
    ensures Play(v, front + [e]) == Show(Play(v, front), e.id, LiveOf(e.kind, e.after))
  {
    assert (front + [e])[..|front|] == front;
  }

  /** What was written is what the view shows, and each event starts where the last one ended. */
  lemma {:induction false} WrittenPlays(rows: Rows, actor: Uuid, generation: nat, items: seq<Item>)
    ensures Play(ViewOf(rows), Written(rows, actor, generation, items)) == ViewOf(TouchAll(rows, items))
    ensures Fitting(ViewOf(rows), Written(rows, actor, generation, items))
  {
    hide Play, Fitting, Show, ViewOf, Touch;
    NothingPlays(ViewOf(rows));
    if items != [] {
      var n := |items| - 1;
      WrittenPlays(rows, actor, generation, items[..n]);
      var mid := TouchAll(rows, items[..n]);
      TouchView(mid, items[n]);
      EventShows(mid, actor, generation + n + 1, items[n]);
      FittingSnoc(ViewOf(rows), Written(rows, actor, generation, items[..n]),
                  EventFor(mid, actor, generation + n + 1, items[n]));
    }
  }
}
