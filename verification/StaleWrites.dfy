/** Optimistic concurrency: of two writers that read the same version of an object, only the first is served. */
module StaleWrites {
  import opened Prelude
  import opened Uuid
  import opened ModelRecord
  import opened Journal
  import opened WorkingObjects

  /** What a write is refused for: a stale version, another kind, nothing to change, or no identifier. */
  lemma Refusals(rows: Rows, item: Item, version: int)
    ensures item.id in rows && version != rows[item.id].version ==> !UpToDate(rows, ObjectEdit(item, version))
    ensures item.id !in rows && version != -1 ==> !UpToDate(rows, ObjectEdit(item, version))
    ensures item.id in rows && item.content.Some? && item.kind != rows[item.id].kind ==>
              !UpToDate(rows, ObjectEdit(item, version))
    ensures item.id in rows && item.content == rows[item.id].content ==> !UpToDate(rows, ObjectEdit(item, version))
    ensures item.id !in rows && item.content == None ==> !UpToDate(rows, ObjectEdit(item, version))
    ensures (forall i | 0 <= i < |item.id| :: item.id[i] == 0) ==> !UpToDate(rows, ObjectEdit(item, version))
  {}

  /** A write made the version it was based on stale. */
  lemma VersionGone(before: Rows, edits: seq<ObjectEdit>, after: Rows, i: nat, late: ObjectEdit)
    requires Overwritten(before, edits, after) && i < |edits| && UpToDate(before, edits[i])
    requires late.item.id == edits[i].item.id && late.expectedVersion == edits[i].expectedVersion
    ensures !UpToDate(after, late)
  {}

  /** The second of two writes on the same version is refused and changes nothing. */
  method WriteTwice(head: WorkingHead, actor: Uuid, item: Item, other: Uuid, late: Item, version: int)
    returns (first: bool, second: bool)
    requires late.id == item.id
    modifies head
    ensures first ==> !second && Recorded(old(head.Now()), actor, [ObjectEdit(item, version)], head.Now())
                      && Overwritten(old(head.rows), [ObjectEdit(item, version)], head.rows)
  {
    hide UpToDate, Overwritten, Recorded, Accepts, Next;
    first := head.Modify(actor, item, version);
    if first {
      VersionGone(old(head.rows), [ObjectEdit(item, version)], head.rows, 0, ObjectEdit(late, version));
    }
    second := head.Modify(other, late, version);
  }

  /** A group with one edit on a version that an earlier group has replaced is refused as a whole. */
  method CommitTwice(head: WorkingHead, actor: Uuid, generation: int, edits: seq<ObjectEdit>, other: Uuid,
                     lateGeneration: int, late: seq<ObjectEdit>, validate: Validator)
    returns (first: Option<nat>, second: Option<nat>)
    requires head.Valid()
    requires exists i, j | 0 <= i < |edits| && 0 <= j < |late| ::
               late[j].item.id == edits[i].item.id && late[j].expectedVersion == edits[i].expectedVersion
    modifies head
    ensures head.Valid()
    ensures first.Some? ==> second.None? && Overwritten(old(head.rows), edits, head.rows)
                            && Recorded(old(head.Now()), actor, edits, head.Now())
  {
    hide UpToDate, Overwritten, Recorded, Commits, NextAll, Sound;
    first := head.CommitGroup(actor, generation, edits, validate);
    if first.Some? {
      ghost var i, j :| 0 <= i < |edits| && 0 <= j < |late|
        && late[j].item.id == edits[i].item.id && late[j].expectedVersion == edits[i].expectedVersion;
      VersionGone(old(head.rows), edits, head.rows, i, late[j]);
    }
    second := head.CommitGroup(other, lateGeneration, late, validate);
  }
}
