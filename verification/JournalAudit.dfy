/** What a journal that replays says, event by event. */
module JournalAudit {
  import opened Prelude
  import opened Uuid
  import opened Journal
  import opened ModelRecord
  import Changes

  /** The last of the first `n` events that names the object. */
  predicate Latest(events: seq<Event>, n: nat, u: Uuid, j: nat)
    requires n <= |events|
  {
    j < n && events[j].id == u && forall k | j < k < n :: events[k].id != u
  }

  predicate Unnamed(events: seq<Event>, n: nat, u: Uuid)
    requires n <= |events|
  {
    forall k | 0 <= k < n :: events[k].id != u
  }

  /** An object's row after the first `n` events: what its last event left, or what there was. */
  ghost predicate RowLeft(start: Rows, events: seq<Event>, n: nat, u: Uuid, row: Option<Row>)
    requires n <= |events|
  {
    || (Unnamed(events, n, u) && row == Get(start, u))
    || exists j: nat :: Latest(events, n, u, j)
         && row == Some(Row(events[j].kind, events[j].after, events[j].afterVersion))
  }

  /** The event tells the truth about the row it found, and its version is the next one. */
  predicate Truthful(row: Option<Row>, e: Event) {
    && e.id != UNSET
    && match row
       case None => e.beforeVersion == -1 && e.before == None && e.after.Some? && e.afterVersion == 1
       case Some(was) =>
         && e.beforeVersion == was.version && e.before == was.content && e.kind == was.kind
         && e.afterVersion == was.version + 1 && (e.before.Some? || e.after.Some?)
  }

  /** Every event tells the truth about what the ones before it left. */
  ghost predicate AllTruthful(start: Rows, events: seq<Event>, n: nat)
    requires n <= |events|
  {
    forall i, row | 0 <= i < n && RowLeft(start, events, i, events[i].id, row) :: Truthful(row, events[i])
  }

  /** A journal replays exactly when all its events are truthful. */
  lemma {:induction false} ReplayIs(start: Rows, events: seq<Event>, n: nat)
    requires n <= |events|
    ensures Replay(start, events[..n]).Some? <==> AllTruthful(start, events, n)
    ensures Replay(start, events[..n]).Some? ==>
              forall u :: RowLeft(start, events, n, u, Get(Replay(start, events[..n]).value, u))
  {
    hide Truthful, Continues, RowLeft;
    if n == 0 {
      forall u
        ensures RowLeft(start, events, 0, u, Get(start, u))
      {
        StartLeft(start, events, u);
      }
    } else {
      ReplayIs(start, events, n - 1);
      assert events[..n][..n - 1] == events[..n - 1];
      var rows := Replay(start, events[..n - 1]);
      if rows.Some? {
        var e := events[n - 1];
        assert RowLeft(start, events, n - 1, e.id, Get(rows.value, e.id));
        ContinuesIs(rows.value, e);
        var m := n - 1;
        forall row | RowLeft(start, events, m, e.id, row)
          ensures row == Get(rows.value, e.id)
        {
          OneLeft(start, events, m, e.id, row, Get(rows.value, e.id));
        }
        assert AllTruthful(start, events, n) <==> Truthful(Get(rows.value, e.id), e);
        forall u
          ensures RowLeft(start, events, n, u, Get(Replayed(rows.value, e), u))
        {
          LeftNext(start, events, n - 1, u, rows.value);
        }
      }
    }
  }

  lemma StartLeft(start: Rows, events: seq<Event>, u: Uuid)
    ensures RowLeft(start, events, 0, u, Get(start, u))
  {}

  lemma OneLeft(start: Rows, events: seq<Event>, n: nat, u: Uuid, a: Option<Row>, b: Option<Row>)
    requires n <= |events| && RowLeft(start, events, n, u, a) && RowLeft(start, events, n, u, b)
    ensures a == b
  {
    if !Unnamed(events, n, u) {
      var i: nat :| Latest(events, n, u, i) && a == Some(Row(events[i].kind, events[i].after, events[i].afterVersion));
      var j: nat :| Latest(events, n, u, j) && b == Some(Row(events[j].kind, events[j].after, events[j].afterVersion));
      assert i == j;
    } else {
      assert forall j: nat :: !Latest(events, n, u, j);
    }
  }

  lemma LeftNext(start: Rows, events: seq<Event>, n: nat, u: Uuid, rows: Rows)
    requires n < |events| && RowLeft(start, events, n, u, Get(rows, u))
    ensures RowLeft(start, events, n + 1, u, Get(Replayed(rows, events[n]), u))
  {
    if events[n].id == u {
      assert Latest(events, n + 1, u, n);
    } else if j: nat :| Latest(events, n, u, j) {
      assert Latest(events, n + 1, u, j);
      forall k | Latest(events, n, u, k)
        ensures k == j
      {}
    }
  }

  lemma ContinuesIs(rows: Rows, e: Event)
    ensures Continues(rows, e) <==> Truthful(Get(rows, e.id), e)
  {
    NullIsUnset(e.id);
  }

  /** A journal leads from these rows to those: it replays, and its last events are what is there. */
  ghost predicate LeadsTo(start: Rows, events: seq<Event>, final: Rows) {
    && AllTruthful(start, events, |events|)
    && forall u :: RowLeft(start, events, |events|, u, Get(final, u))
  }

  lemma LeadsToIs(start: Rows, events: seq<Event>, final: Rows)
    ensures Replay(start, events) == Some(final) <==> LeadsTo(start, events, final)
  {
    hide RowLeft, AllTruthful, Replay;
    assert events[..|events|] == events;
    ReplayIs(start, events, |events|);
    if LeadsTo(start, events, final) {
      var reached := Replay(start, events).value;
      forall u
        ensures Get(reached, u) == Get(final, u)
      {
        OneLeft(start, events, |events|, u, Get(reached, u), Get(final, u));
      }
      Changes.SameGets(reached, final);
    }
  }
}
