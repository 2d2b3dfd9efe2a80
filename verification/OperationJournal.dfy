/** The journal of whole-snapshot operations as a portable frame, and the check a receiver makes of it. */
module OperationJournal {
  import opened Prelude
  import opened Uuid
  import opened PortableFrame

  const DIGEST_LENGTH: nat := 32
  const MAX_JOURNAL_FRAME: nat := 256 * 1024 * 1024
  const MAX_TEXT_LENGTH: nat := 8 * 1024 * 1024

  // "AOWIS-OPERATIONS-V1" and a zero octet
  const JOURNAL_MAGIC: Bytes :=
    [65, 79, 87, 73, 83, 45, 79, 80, 69, 82, 65, 84, 73, 79, 78, 83, 45, 86, 49, 0]

  // "replace", "undo" and "redo"
  const REPLACE: Bytes := [114, 101, 112, 108, 97, 99, 101]
  const UNDO: Bytes := [117, 110, 100, 111]
  const REDO: Bytes := [114, 101, 100, 111]

  /** One operation: the snapshot before and after it, either of which may be absent. A replacement has a null target.
      */
  datatype Row = Row(id: Uuid, actor: Uuid, revision: Uuid, sequence: Int64, occurredAt: Int64, kind: Bytes,
                     target: Uuid,
                     before: Option<Bytes>, after: Option<Bytes>)

  // --------------------------------------------------------------------- layout

  function SnapshotItems(snapshot: Option<Bytes>): seq<Item> {
    if snapshot.None? then [Raw([0])] else [Raw([1]), Field(snapshot.value)]
  }

  function EventItems(row: Row): seq<Item> {
    [Raw(row.id), Raw(row.actor), Raw(row.revision), Num(Unsigned(row.sequence)), Num(Unsigned(row.occurredAt)),
     Field(row.kind),
     Raw(row.target)]
  }

  function RowItems(row: Row): seq<Item> {
    EventItems(row) + (SnapshotItems(row.before) + SnapshotItems(row.after))
  }

  function RowsItems(rows: seq<Row>): seq<Item> {
    if rows == [] then [] else RowItems(rows[0]) + RowsItems(rows[1..])
  }

  function JournalItems(rows: seq<Row>): seq<Item> {
    [Raw(JOURNAL_MAGIC)] + ([Num(|rows|)] + RowsItems(rows))
  }

  /** The octets of which the history hash is taken. */
  function Journal(rows: seq<Row>): Bytes {
    Flat(JournalItems(rows))
  }

  // ------------------------------------------------------------------- validity

  /** Event `index` of a revision's journal, by itself. */
  predicate EventOk(row: Row, revision: Uuid, index: nat) {
    && !IsNull(row.id) && !IsNull(row.actor) && row.revision == revision
    && row.sequence == index + 1 && row.occurredAt >= 0
    && (row.kind == REPLACE || row.kind == UNDO || row.kind == REDO)
    && (row.kind == REPLACE <==> IsNull(row.target))
  }

  /** The events are numbered from one without gaps, and no identifier repeats. */
  predicate Orderly(rows: seq<Row>, revision: Uuid) {
    && (forall i | 0 <= i < |rows| :: EventOk(rows[i], revision, i))
    && forall i, j | 0 <= i < j < |rows| :: rows[i].id != rows[j].id
  }

  predicate SnapshotFits(snapshot: Option<Bytes>) {
    snapshot.Some? ==> |snapshot.value| < U64_RANGE
  }

  predicate RowsFit(rows: seq<Row>) {
    |rows| < U64_RANGE && forall i | 0 <= i < |rows| :: SnapshotFits(rows[i].before) && SnapshotFits(rows[i].after)
  }

  // -------------------------------------------------------------------- writing

  lemma {:induction false} RowsItemsAppend(rows: seq<Row>, row: Row)
    ensures RowsItems(rows + [row]) == RowsItems(rows) + RowItems(row)
  {
    hide RowItems;
    if rows == [] {
      assert (rows + [row])[1..] == [];
    } else {
      assert (rows + [row])[1..] == rows[1..] + [row];
      RowsItemsAppend(rows[1..], row);
    }
  }

  method AppendSnapshot(out: Bytes, snapshot: Option<Bytes>, ghost items: seq<Item>) returns (bytes: Bytes)
    requires out == Flat(items)
    ensures bytes == Flat(items + SnapshotItems(snapshot))
  {
    hide Flat;
    bytes := Append(out, [if snapshot.Some? then 1 else 0], items);
    if snapshot.Some? {
      bytes := AppendField(bytes, snapshot.value, items + [Raw([1])]);
      assert items + [Raw([1])] + [Field(snapshot.value)] == items + SnapshotItems(snapshot);
    }
  }

  method AppendEvent(out: Bytes, row: Row, ghost items: seq<Item>) returns (bytes: Bytes)
    requires out == Flat(items)
    ensures bytes == Flat(items + EventItems(row))
  {
    hide Flat, Unsigned;
    bytes := Append(out, row.id, items);
    bytes := Append(bytes, row.actor, items + [Raw(row.id)]);
    bytes := Append(bytes, row.revision, items + [Raw(row.id)] + [Raw(row.actor)]);
    ghost var had := items + [Raw(row.id)] + [Raw(row.actor)] + [Raw(row.revision)];
    bytes := AppendU64(bytes, Unsigned(row.sequence), had);
    bytes := AppendU64(bytes, Unsigned(row.occurredAt), had + [Num(Unsigned(row.sequence))]);
    had := had + [Num(Unsigned(row.sequence))] + [Num(Unsigned(row.occurredAt))];
    bytes := AppendField(bytes, row.kind, had);
    bytes := Append(bytes, row.target, had + [Field(row.kind)]);
    assert had + [Field(row.kind)] + [Raw(row.target)] == items + EventItems(row);
  }

  method JournalBytes(rows: seq<Row>) returns (bytes: Bytes)
    ensures bytes == Journal(rows)
  {
    hide Flat, EventItems, SnapshotItems;
    FlatOne(Raw(JOURNAL_MAGIC));
    bytes := AppendU64(JOURNAL_MAGIC, |rows|, [Raw(JOURNAL_MAGIC)]);
    ghost var head := [Raw(JOURNAL_MAGIC)] + [Num(|rows|)];
    assert head + RowsItems(rows[..0]) == head;
    for i := 0 to |rows|
      invariant bytes == Flat(head + RowsItems(rows[..i]))
    {
      ghost var had := head + RowsItems(rows[..i]);
      bytes := AppendEvent(bytes, rows[i], had);
      bytes := AppendSnapshot(bytes, rows[i].before, had + EventItems(rows[i]));
      bytes := AppendSnapshot(bytes, rows[i].after, had + EventItems(rows[i]) + SnapshotItems(rows[i].before));
      RowsItemsAppend(rows[..i], rows[i]);
      assert rows[..i + 1] == rows[..i] + [rows[i]];
      assert had + EventItems(rows[i]) + SnapshotItems(rows[i].before) + SnapshotItems(rows[i].after)
             == head + RowsItems(rows[..i + 1]);
    }
    assert rows[..|rows|] == rows;
    assert head + RowsItems(rows) == JournalItems(rows);
  }

  // ------------------------------------------------------------------ verifying

  /** A flag octet, then a field if it is one. */
  method ReadSnapshot(bytes: Bytes, offset: nat, ghost read: seq<Item>, ghost it: Option<Bytes>, ghost rest: seq<Item>)
    returns (r: Option<Option<Bytes>>, next: nat)
    requires Behind(bytes, offset, read)
    ensures r.Some? ==>
              Behind(bytes, next, read + SnapshotItems(r.value))
              && (r.value.Some? ==> |r.value.value| <= |bytes|)
    ensures SnapshotFits(it) && Ahead(bytes, offset, SnapshotItems(it) + rest)
              && (it.Some? ==> |it.value| <= |bytes|) ==>
              r == Some(it) && Ahead(bytes, next, rest)
  {
    hide Behind, Ahead;
    ghost var left := SnapshotItems(it) + rest;
    var flag;
    flag, next := ReadBytes(bytes, offset, 1, read, left);
    if flag.None? || (flag.value[0] != 0 && flag.value[0] != 1) {
      return None, next;
    }
    if flag.value[0] == 0 {
      assert flag.value == [0] && left[1..] == if it.None? then rest else left[1..];
      return Some(None), next;
    }
    assert flag.value == [1];
    var payload;
    payload, next := ReadField(bytes, next, |bytes|, read + [Raw([1])], left[1..]);
    if payload.None? {
      return None, next;
    }
    assert read + [Raw([1])] + [Field(payload.value)] == read + SnapshotItems(Some(payload.value));
    assert it.Some? ==> left[1..][1..] == rest;
    r := Some(Some(payload.value));
  }

  /** What one event carries before its snapshots. */
  method ReadEvent(bytes: Bytes, offset: nat, ghost read: seq<Item>, ghost it: Row, ghost rest: seq<Item>)
    returns (r: Option<(Uuid, Uuid, Uuid, nat, nat, Bytes, Uuid)>, next: nat)
    requires Behind(bytes, offset, read)
    ensures r.Some? ==> Behind(bytes, next,
                               read + [Raw(r.value.0), Raw(r.value.1), Raw(r.value.2), Num(r.value.3), Num(r.value.4),
                                                    Field(r.value.5), Raw(r.value.6)])
    ensures Ahead(bytes, offset, EventItems(it) + rest) && it.sequence >= 0 && it.occurredAt >= 0
              && |it.kind| <= MAX_TEXT_LENGTH ==>
              r == Some((it.id, it.actor, it.revision, it.sequence, it.occurredAt, it.kind, it.target))
                && Ahead(bytes, next, rest)
  {
    hide Behind, Ahead;
    ghost var left := EventItems(it) + rest;
    var id, actor, revision, sequence, occurredAt, kind, target;
    id, next := ReadUuid(bytes, offset, read, left);
    if id.None? { return None, next; }
    actor, next := ReadUuid(bytes, next, read + [Raw(id.value)], left[1..]);
    if actor.None? { return None, next; }
    ghost var had := read + [Raw(id.value)] + [Raw(actor.value)];
    left := left[1..][1..];
    revision, next := ReadUuid(bytes, next, had, left);
    if revision.None? { return None, next; }
    sequence, next := ReadU64(bytes, next, had + [Raw(revision.value)], left[1..]);
    if sequence.None? { return None, next; }
    had := had + [Raw(revision.value)] + [Num(sequence.value)];
    left := left[1..][1..];
    occurredAt, next := ReadU64(bytes, next, had, left);
    if occurredAt.None? { return None, next; }
    kind, next := ReadField(bytes, next, MAX_TEXT_LENGTH, had + [Num(occurredAt.value)], left[1..]);
    if kind.None? { return None, next; }
    had := had + [Num(occurredAt.value)] + [Field(kind.value)];
    left := left[1..][1..];
    target, next := ReadUuid(bytes, next, had, left);
    if target.None? { return None, next; }
    assert had + [Raw(target.value)]
           == read + [Raw(id.value), Raw(actor.value), Raw(revision.value), Num(sequence.value), Num(occurredAt.value),
                      Field(kind.value),
                      Raw(target.value)];
    assert left[1..] == rest;
    r := Some((id.value, actor.value, revision.value, sequence.value, occurredAt.value, kind.value, target.value));
  }

  /** One whole entry, if it is a legal event at its place. */
  method ReadRow(bytes: Bytes, offset: nat, revision: Uuid, index: nat, ghost read: seq<Item>, ghost it: Row,
                 ghost rest: seq<Item>)
    returns (r: Option<Row>, next: nat)
    requires Behind(bytes, offset, read) && index < INT64_MAX
    ensures r.Some? ==> EventOk(r.value, revision, index) && Behind(bytes, next, read + RowItems(r.value))
                        && RowFits(r.value, |bytes|)
    ensures Ahead(bytes, offset, RowItems(it) + rest) && EventOk(it, revision, index) && RowFits(it, |bytes|)
              && |bytes| < U64_RANGE ==>
              r == Some(it) && Ahead(bytes, next, rest)
  {
    hide Behind, Ahead, IsNull, EventItems, SnapshotItems;
    ghost var afterBefore := SnapshotItems(it.after) + rest;
    ghost var afterEvent := SnapshotItems(it.before) + afterBefore;
    assert RowItems(it) + rest == EventItems(it) + afterEvent;
    var event, before, after;
    event, next := ReadEvent(bytes, offset, read, it, afterEvent);
    if event.None? { return None, next; }
    var (id, actor, owner, sequence, occurredAt, kind, target) := event.value;
    if IsNull(id) || IsNull(actor) || owner != revision || sequence != index + 1 || occurredAt > INT64_MAX
       || (kind != REPLACE && kind != UNDO && kind != REDO) || (kind == REPLACE && !IsNull(target))
       || (kind != REPLACE && IsNull(target)) {
      return None, next;
    }
    ghost var row := Row(id, actor, owner, sequence, occurredAt, kind, target, None, None);
    assert read + [Raw(id), Raw(actor), Raw(owner), Num(sequence), Num(occurredAt), Field(kind), Raw(target)]
      == read + EventItems(row) by {
      EventItemsOf(row);
    }
    before, next := ReadSnapshot(bytes, next, read + EventItems(row), it.before, afterBefore);
    if before.None? { return None, next; }
    after, next := ReadSnapshot(bytes, next, read + EventItems(row) + SnapshotItems(before.value), it.after, rest);
    if after.None? { return None, next; }
    r := Some(Row(id, actor, owner, sequence, occurredAt, kind, target, before.value, after.value));
    EventItemsOf(r.value);
    EventItemsOf(row);
    assert read + EventItems(row) + SnapshotItems(before.value) + SnapshotItems(after.value)
      == read + RowItems(r.value);
  }

  predicate RowFits(row: Row, size: nat) {
    (row.before.Some? ==> |row.before.value| <= size) && (row.after.Some? ==> |row.after.value| <= size)
  }

  lemma EventItemsOf(row: Row)
    requires row.sequence >= 0 && row.occurredAt >= 0
    ensures EventItems(row) == [Raw(row.id), Raw(row.actor), Raw(row.revision), Num(row.sequence), Num(row.occurredAt),
                                Field(row.kind),
                                Raw(row.target)]
  {
  }

  lemma SnapshotLength(snapshot: Option<Bytes>)
    ensures |Flat(SnapshotItems(snapshot))| == if snapshot.None? then 1 else 9 + |snapshot.value|
  {
    hide Unsigned;
    if snapshot.Some? {
      var items := SnapshotItems(snapshot);
      FlatOne(Field(snapshot.value));
      assert items[1..] == [Field(snapshot.value)];
    } else {
      FlatOne(Raw([0]));
    }
  }

  lemma EventLength(row: Row)
    ensures |Flat(EventItems(row))| == 88 + |row.kind|
  {
    hide Unsigned;
    var items := EventItems(row);
    assert items == [Raw(row.id), Raw(row.actor), Raw(row.revision)] + (items[3..5] + items[5..]);
    FlatAppend([Raw(row.id), Raw(row.actor), Raw(row.revision)], items[3..5] + items[5..]);
    FlatAppend(items[3..5], items[5..]);
    var ids := [Raw(row.id), Raw(row.actor), Raw(row.revision)];
    assert ids[1..][1..] == [Raw(row.revision)] && items[3..5][1..] == [items[4]] && items[5..][1..] == [items[6]];
    FlatOne(Raw(row.revision));
    FlatOne(items[4]);
    FlatOne(items[6]);
    assert |Flat(ids)| == 48 && |Flat(items[3..5])| == 16 && |Flat(items[5..])| == 24 + |row.kind|;
  }

  /** No entry is shorter than the verifier's bound on the count assumes. */
  lemma RowLength(row: Row)
    ensures |Flat(RowItems(row))| >= 90 && RowFits(row, |Flat(RowItems(row))|)
  {
    hide Flat, EventItems, SnapshotItems;
    FlatAppend(EventItems(row), SnapshotItems(row.before) + SnapshotItems(row.after));
    FlatAppend(SnapshotItems(row.before), SnapshotItems(row.after));
    EventLength(row);
    SnapshotLength(row.before);
    SnapshotLength(row.after);
  }

  lemma {:induction false} RowsLength(rows: seq<Row>)
    ensures |Flat(RowsItems(rows))| >= 90 * |rows|
    ensures forall i | 0 <= i < |rows| :: RowFits(rows[i], |Flat(RowsItems(rows))|)
  {
    hide RowItems, Flat;
    if rows != [] {
      RowLength(rows[0]);
      RowsLength(rows[1..]);
      FlatAppend(RowItems(rows[0]), RowsItems(rows[1..]));
      forall i | 1 <= i < |rows|
        ensures RowFits(rows[i], |Flat(RowsItems(rows))|)
      {
        assert rows[i] == rows[1..][i - 1];
      }
    }
  }

  /** What the octets must be, hash aside. */
  ghost predicate Framed(frame: Bytes, revision: Uuid) {
    |frame| <= MAX_JOURNAL_FRAME && exists rows :: Orderly(rows, revision) && Journal(rows) == frame
  }

  ghost predicate Witness(frame: Bytes, revision: Uuid, it: seq<Row>) {
    Orderly(it, revision) && Journal(it) == frame
  }

  /**
   A history as it must be: each operation has an identifier of its own, an actor
   and this revision, its place as its number, no negative time, and is a
   replacement without target, or an undo or redo with one.
   */
  ghost predicate Sequence(rows: seq<Row>, revision: Uuid) {
    && (forall i | 0 <= i < |rows| ::
          var row := rows[i];
          && row.id != UNSET && row.actor != UNSET && row.revision == revision
          && row.sequence == i + 1 && row.occurredAt >= 0
          && ((row.kind == Ascii("replace") && row.target == UNSET)
              || (row.kind == Ascii("undo") && row.target != UNSET)
              || (row.kind == Ascii("redo") && row.target != UNSET)))
    && forall i, j | 0 <= i < j < |rows| :: rows[i].id != rows[j].id
  }

  lemma Words()
    ensures REPLACE == Ascii("replace") && UNDO == Ascii("undo") && REDO == Ascii("redo")
    ensures REPLACE != UNDO && REPLACE != REDO && UNDO != REDO
  {
    assert |REPLACE| != |UNDO| && |REPLACE| != |REDO| && UNDO[0] != REDO[0];
  }

  lemma EventIs(row: Row, revision: Uuid, index: nat)
    ensures EventOk(row, revision, index) <==>
              && row.id != UNSET && row.actor != UNSET && row.revision == revision
              && row.sequence == index + 1 && row.occurredAt >= 0
              && ((row.kind == Ascii("replace") && row.target == UNSET)
                  || (row.kind == Ascii("undo") && row.target != UNSET)
                  || (row.kind == Ascii("redo") && row.target != UNSET))
  {
    hide IsNull;
    NullIsUnset(row.id);
    NullIsUnset(row.actor);
    NullIsUnset(row.target);
    Words();
  }

  lemma SequenceIs(revision: Uuid)
    ensures forall rows: seq<Row> :: Orderly(rows, revision) <==> Sequence(rows, revision)
  {
    hide EventOk;
    forall rows: seq<Row>
      ensures Orderly(rows, revision) <==> Sequence(rows, revision)
    {
      forall i | 0 <= i < |rows| {
        EventIs(rows[i], revision, i);
      }
    }
  }

  /** Accepts exactly the journals of orderly histories of the revision, under the expected hash. */
  method VerifyRevisionOperationJournal(sha: Bytes -> Bytes, frame: Bytes, revision: Uuid, expected: Bytes)
    returns (ok: bool)
    ensures ok <==>
              !IsNull(revision) && |expected| == DIGEST_LENGTH && sha(frame) == expected
              && Framed(frame, revision)
    ensures ok <==>
              && revision != UNSET && |expected| == 32 && sha(frame) == expected
              && |frame| <= 0x1000_0000
              && exists rows: seq<Row> :: Journal(rows) == frame && Sequence(rows, revision)
  {
    hide Flat, Orderly, JournalItems, IsNull, Sequence;
    SequenceIs(revision);
    NullIsUnset(revision);
    if IsNull(revision) || |expected| != DIGEST_LENGTH || |frame| > MAX_JOURNAL_FRAME || sha(frame) != expected {
      return false;
    }
    ghost var some := exists rows :: Witness(frame, revision, rows);
    ghost var it: seq<Row> :| some ==> Witness(frame, revision, it);
    assert Framed(frame, revision) <==> some by {
      if Framed(frame, revision) {
        ghost var rows :| Orderly(rows, revision) && Journal(rows) == frame;
        assert Witness(frame, revision, rows);
      }
    }
    ghost var rows;
    ok, rows := VerifyFrame(frame, revision, it, some);
    if ok {
      assert Witness(frame, revision, rows);
    }
  }

  lemma JournalStart(frame: Bytes, it: seq<Row>)
    ensures Behind(frame, 0, [])
    ensures Journal(it) == frame ==> Ahead(frame, 0, JournalItems(it))
  {
    assert frame[0..] == frame;
  }

  method VerifyFrame(frame: Bytes, revision: Uuid, ghost it: seq<Row>, ghost some: bool)
    returns (ok: bool, ghost rows: seq<Row>)
    requires |frame| <= MAX_JOURNAL_FRAME && (some ==> Witness(frame, revision, it))
    ensures ok ==> Witness(frame, revision, rows)
    ensures some ==> ok
  {
    hide Flat, Orderly, RowsItems, Behind, Ahead;
    ok, rows := false, [];
    JournalStart(frame, it);
    ghost var whole := JournalItems(it);
    var magic, offset := ReadBytes(frame, 0, |JOURNAL_MAGIC|, [], whole);
    if magic != Some(JOURNAL_MAGIC) {
      return;
    }
    ghost var head := [Raw(JOURNAL_MAGIC)];
    assert [] + [Raw(JOURNAL_MAGIC)] == head && whole[1..] == [Num(|it|)] + RowsItems(it);
    if some {
      RowsLength(it);
      AheadLength(frame, offset, [Num(|it|)] + RowsItems(it));
      FlatAppend([Num(|it|)], RowsItems(it));
    }
    var count;
    count, offset := ReadU64(frame, offset, head, whole[1..]);
    assert whole[1..][1..] == RowsItems(it);
    if some {
      AheadLength(frame, offset, RowsItems(it));
    }
    if count.None? || offset > |frame| || count.value > (|frame| - offset) / (16 * 4 + 8 * 3 + 1 * 2) {
      return;
    }
    head := head + [Num(count.value)];
    var done;
    done, offset, rows := VerifyRows(frame, offset, revision, count.value, head, it, some);
    if !done || offset != |frame| {
      return;
    }
    assert head + RowsItems(rows) == JournalItems(rows);
    JournalEnd(frame, rows);
    ok := true;
  }

  lemma JournalEnd(frame: Bytes, rows: seq<Row>)
    requires Behind(frame, |frame|, JournalItems(rows))
    ensures Journal(rows) == frame
  {
    assert frame[..|frame|] == frame;
  }

  ghost function Ids(rows: seq<Row>): set<Uuid> {
    set j | 0 <= j < |rows| :: rows[j].id
  }

  lemma IdsGrow(rows: seq<Row>, row: Row)
    ensures Ids(rows + [row]) == Ids(rows) + {row.id}
  {
    forall id | id in Ids(rows) + {row.id}
      ensures id in Ids(rows + [row])
    {
      if id in Ids(rows) {
        var j :| 0 <= j < |rows| && rows[j].id == id;
        assert (rows + [row])[j].id == id;
      } else {
        assert (rows + [row])[|rows|].id == id;
      }
    }
  }

  method VerifyRows(frame: Bytes, start: nat, revision: Uuid, count: nat, ghost head: seq<Item>, ghost it: seq<Row>,
                    ghost some: bool)
    returns (ok: bool, offset: nat, ghost rows: seq<Row>)
    requires |frame| <= MAX_JOURNAL_FRAME && count <= MAX_JOURNAL_FRAME && Behind(frame, start, head)
    requires some ==> Orderly(it, revision) && count == |it| && Ahead(frame, start, RowsItems(it))
    ensures ok ==> Orderly(rows, revision) && |rows| == count && Behind(frame, offset, head + RowsItems(rows))
    ensures some ==> ok && offset == |frame|
  {
    hide Flat, RowItems, Behind, Ahead, EventOk;
    ok, offset, rows := false, start, [];
    var seen: set<Uuid> := {};
    assert head + RowsItems([]) == head && it[0..] == it;
    for i := 0 to count
      invariant |rows| == i && Orderly(rows, revision) && Behind(frame, offset, head + RowsItems(rows))
      invariant seen == Ids(rows)
      invariant some ==> rows == it[..i] && Ahead(frame, offset, RowsItems(it[i..]))
    {
      ghost var q, rest := Row(revision, revision, revision, 0, 0, [], revision, None, None), [];
      if some {
        q, rest := it[i], RowsItems(it[i + 1..]);
        assert it[i..][1..] == it[i + 1..] && it[..i + 1] == it[..i] + [q];
        AheadLength(frame, offset, RowsItems(it[i..]));
        RowsLength(it[i..]);
        assert it[i..][0] == q;
      }
      var row;
      row, offset := ReadRow(frame, offset, revision, i, head + RowsItems(rows), q, rest);
      if row.None? || row.value.id in seen {
        return;
      }
      RowsItemsAppend(rows, row.value);
      assert head + RowsItems(rows) + RowItems(row.value) == head + RowsItems(rows + [row.value]);
      IdsGrow(rows, row.value);
      rows := rows + [row.value];
      seen := seen + {row.value.id};
    }
    if some {
      assert it[..count] == it && it[count..] == [];
      AheadLength(frame, offset, RowsItems(it[count..]));
      NothingLeft();
    }
    ok := true;
  }

  lemma NothingLeft()
    ensures Flat(RowsItems([])) == []
  {
  }

  // ---------------------------------------------------- what the hash commits to

  lemma FlagFirst(snapshot: Option<Bytes>, x: Bytes)
    ensures var flat := Flat(SnapshotItems(snapshot)) + x;
            && flat[0] == (if snapshot.None? then 0 else 1)
            && flat[1..] == (if snapshot.None? then x else Code(Field(snapshot.value)) + x)
  {
    hide Code;
    var items := SnapshotItems(snapshot);
    var flag: Bytes := [if snapshot.None? then 0 else 1];
    assert items == [Raw(flag)] + items[1..];
    FlatAppend([Raw(flag)], items[1..]);
    FlatOne(Raw(flag));
    RawCode(flag);
    if snapshot.Some? {
      assert items[1..] == [Field(snapshot.value)];
      FlatOne(Field(snapshot.value));
    } else {
      assert items[1..] == [];
    }
    assert (flag + (Flat(items[1..]) + x))[1..] == Flat(items[1..]) + x;
    assert flag + Flat(items[1..]) + x == flag + (Flat(items[1..]) + x);
  }

  lemma RawCode(octets: Bytes)
    ensures Code(Raw(octets)) == octets
  {
  }

  lemma SnapshotDetermines(a: Option<Bytes>, b: Option<Bytes>, x: Bytes, y: Bytes)
    requires SnapshotFits(a) && SnapshotFits(b) && Flat(SnapshotItems(a)) + x == Flat(SnapshotItems(b)) + y
    ensures a == b && x == y
  {
    hide Flat, Code, SnapshotItems;
    FlagFirst(a, x);
    FlagFirst(b, y);
    if a.Some? && b.Some? {
      CodeInjective(Field(a.value), Field(b.value), x, y);
    }
  }

  lemma EventDetermines(a: Row, b: Row, revision: Uuid, i: nat, x: Bytes, y: Bytes)
    requires EventOk(a, revision, i) && EventOk(b, revision, i) && Flat(EventItems(a)) + x == Flat(EventItems(b)) + y
    ensures a.(before := None, after := None) == b.(before := None, after := None) && x == y
  {
    hide Flat, IsNull;
    var p, q := EventItems(a), EventItems(b);
    EventItemsOf(a);
    EventItemsOf(b);
    assert |REPLACE| < 8 && |UNDO| < 8 && |REDO| < 8;
    FlatInjective(p, q, x, y);
    assert p[0] == Raw(a.id) && p[1] == Raw(a.actor) && p[2] == Raw(a.revision) && p[3] == Num(a.sequence)
      && p[4] == Num(a.occurredAt);
    assert q[0] == Raw(b.id) && q[1] == Raw(b.actor) && q[2] == Raw(b.revision) && q[3] == Num(b.sequence)
      && q[4] == Num(b.occurredAt);
    assert p[5] == Field(a.kind) && p[6] == Raw(a.target) && q[5] == Field(b.kind) && q[6] == Raw(b.target);
  }

  lemma RowDetermines(a: Row, b: Row, revision: Uuid, i: nat, x: Bytes, y: Bytes)
    requires EventOk(a, revision, i) && EventOk(b, revision, i)
    requires SnapshotFits(a.before) && SnapshotFits(a.after) && SnapshotFits(b.before) && SnapshotFits(b.after)
    requires Flat(RowItems(a)) + x == Flat(RowItems(b)) + y
    ensures a == b && x == y
  {
    hide Flat, EventItems, SnapshotItems, EventOk;
    FlatAppend(EventItems(a), SnapshotItems(a.before) + SnapshotItems(a.after));
    FlatAppend(EventItems(b), SnapshotItems(b.before) + SnapshotItems(b.after));
    FlatAppend(SnapshotItems(a.before), SnapshotItems(a.after));
    FlatAppend(SnapshotItems(b.before), SnapshotItems(b.after));
    var a1, a2, b1, b2 := Flat(SnapshotItems(a.before)), Flat(SnapshotItems(a.after)), Flat(SnapshotItems(b.before)),
      Flat(SnapshotItems(b.after));
    assert Flat(RowItems(a)) + x == Flat(EventItems(a)) + (a1 + (a2 + x));
    assert Flat(RowItems(b)) + y == Flat(EventItems(b)) + (b1 + (b2 + y));
    EventDetermines(a, b, revision, i, a1 + (a2 + x), b1 + (b2 + y));
    SnapshotDetermines(a.before, b.before, a2 + x, b2 + y);
    SnapshotDetermines(a.after, b.after, x, y);
  }

  lemma {:induction false} RowsDetermine(a: seq<Row>, b: seq<Row>, revision: Uuid, start: nat)
    requires |a| == |b| && RowsFit(a) && RowsFit(b) && Flat(RowsItems(a)) == Flat(RowsItems(b))
    requires forall i | 0 <= i < |a| :: EventOk(a[i], revision, start + i) && EventOk(b[i], revision, start + i)
    ensures a == b
  {
    hide Flat, RowItems, EventOk;
    if a != [] {
      FlatAppend(RowItems(a[0]), RowsItems(a[1..]));
      FlatAppend(RowItems(b[0]), RowsItems(b[1..]));
      assert EventOk(a[0], revision, start + 0) && EventOk(b[0], revision, start + 0);
      RowDetermines(a[0], b[0], revision, start, Flat(RowsItems(a[1..])), Flat(RowsItems(b[1..])));
      forall i | 0 <= i < |a| - 1
        ensures EventOk(a[1..][i], revision, start + 1 + i) && EventOk(b[1..][i], revision, start + 1 + i)
      {
        assert EventOk(a[i + 1], revision, start + (i + 1)) && EventOk(b[i + 1], revision, start + (i + 1));
      }
      RowsDetermine(a[1..], b[1..], revision, start + 1);
      assert a == [a[0]] + a[1..] && b == [b[0]] + b[1..];
    }
  }

  /** The journal's octets determine the whole history: order, actors, kinds, targets and both snapshots of every event.
      */
  lemma JournalDetermines(a: seq<Row>, b: seq<Row>, revision: Uuid)
    requires Orderly(a, revision) && Orderly(b, revision) && RowsFit(a) && RowsFit(b) && Journal(a) == Journal(b)
    ensures a == b
  {
    hide Flat, RowsItems, EventOk;
    var head := [Raw(JOURNAL_MAGIC)];
    assert JournalItems(a) == head + [Num(|a|)] + RowsItems(a) && JournalItems(b) == head + [Num(|b|)] + RowsItems(b);
    FlatAppend(head + [Num(|a|)], RowsItems(a));
    FlatAppend(head + [Num(|b|)], RowsItems(b));
    FlatInjective(head + [Num(|a|)], head + [Num(|b|)], Flat(RowsItems(a)), Flat(RowsItems(b)));
    assert (head + [Num(|a|)])[1] == Num(|a|) && (head + [Num(|b|)])[1] == Num(|b|);
    assert forall i | 0 <= i < |a| :: EventOk(a[i], revision, 0 + i) && EventOk(b[i], revision, 0 + i);
    RowsDetermine(a, b, revision, 0);
  }
}
