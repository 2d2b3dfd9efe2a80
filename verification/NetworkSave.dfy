/** Saving a typed network into a working revision: object rows, journal, membership and references in one transaction.
    */
module NetworkSave {
  import opened Prelude
  import opened Uuid
  import opened ModelRecord
  import opened Journal
  import opened UndoHistory
  import opened WorkingObjects
  import opened NetworkRecords
  import SavedForm

  type Owners = map<Uuid, Uuid>

  // --------------------------------------------------------------- the row edits

  /** The stored row already has this content. */
  predicate Unchanged(rows: Rows, item: Item) {
    item.id in rows && rows[item.id].content.Some? && rows[item.id].content == item.content
  }

  /** A record may take its identifier: it is new, the root's own, or was a member; and the kind stays. */
  predicate Takes(rows: Rows, n: Uuid, had: set<Uuid>, item: Item) {
    item.id in rows ==> (item.id == n || item.id in had) && rows[item.id].kind == item.kind
  }

  predicate Droppable(rows: Rows, u: Uuid) {
    !IsNull(u) && u in rows && rows[u].content.Some?
  }

  /** Everything the save demands of the rows and of who owns them. */
  ghost predicate Compatible(rows: Rows, owner: Owners, n: Uuid, had: set<Uuid>, records: seq<Item>) {
    && (forall u | u in had + IdsOf(records) && u in owner :: owner[u] == n)
    && (forall i | 0 <= i < |records| :: Takes(rows, n, had, records[i]))
    && forall u | u in had - IdsOf(records) :: Droppable(rows, u)
  }

  ghost predicate Present(edits: seq<ObjectEdit>, item: Item) {
    exists j :: 0 <= j < |edits| && edits[j].item == item
  }

  function Drop(u: Uuid): Item {
    Item(u, [], None)
  }

  /** An edit the save may make: a changed record, or the removal of a former member. */
  ghost predicate Planned(rows: Rows, had: set<Uuid>, records: seq<Item>, e: ObjectEdit) {
    && e.expectedVersion == VersionOf(rows, e.item.id)
    && ((e.item in records && !Unchanged(rows, e.item))
        || (e.item == Drop(e.item.id) && e.item.id in had - IdsOf(records)))
  }

  /** The edits are the changed records and the dropped members, each object once. */
  ghost predicate Plan(rows: Rows, had: set<Uuid>, records: seq<Item>, edits: seq<ObjectEdit>) {
    && DistinctItems(ItemsOf(edits))
    && (forall j | 0 <= j < |edits| :: Planned(rows, had, records, edits[j]))
    && (forall i | 0 <= i < |records| :: Unchanged(rows, records[i]) || Present(edits, records[i]))
    && forall u | u in had - IdsOf(records) :: Present(edits, Drop(u))
  }

  /** A record that says something new takes the next version; one that does not keeps its row's. */
  function StoredVersion(rows: Rows, item: Item): nat {
    if item.id !in rows then 1
    else if Unchanged(rows, item) then rows[item.id].version
    else rows[item.id].version + 1
  }

  /** What the save leaves in the rows: the records, tombstones for the dropped members, and nothing else touched. */
  ghost predicate Stored(rows: Rows, after: Rows, had: set<Uuid>, records: seq<Item>) {
    && (forall i | 0 <= i < |records| ::
          records[i].id in after && after[records[i].id].kind == records[i].kind
            && after[records[i].id].content == records[i].content
            && after[records[i].id].version == StoredVersion(rows, records[i]))
    && (forall u | u in had - IdsOf(records) ::
        u in after && after[u].content.None?
        && (u in rows ==> after[u].kind == rows[u].kind && after[u].version == rows[u].version + 1))
    && forall u | u !in had && u !in IdsOf(records) :: Get(after, u) == Get(rows, u)
  }

  /** A written record shows in the rows. */
  lemma RecordStored(rows: Rows, had: set<Uuid>, records: seq<Item>, edits: seq<ObjectEdit>, i: nat, n: Uuid)
    requires Plan(rows, had, records, edits) && i < |records| && DistinctItems(records)
               && Takes(rows, n, had, records[i])
    ensures var after := TouchAll(rows, ItemsOf(edits));
            records[i].id in after && after[records[i].id].kind == records[i].kind
              && after[records[i].id].content == records[i].content
              && after[records[i].id].version == StoredVersion(rows, records[i])
  {
    hide IsNull, TouchAll;
    var items := ItemsOf(edits);
    if Present(edits, records[i]) {
      var j :| 0 <= j < |edits| && edits[j].item == records[i];
      TouchAllAt(rows, items, j);
    } else {
      forall j | 0 <= j < |items|
        ensures items[j].id != records[i].id
      {
        assert Planned(rows, had, records, edits[j]);
        assert records[i].id in IdsOf(records);
        if items[j] in records {
          var k :| 0 <= k < |records| && records[k] == items[j];
          assert k == i || records[k].id != records[i].id;
        }
      }
      TouchAllGrows(rows, items, records[i].id);
    }
  }

  lemma PlanWrites(rows: Rows, n: Uuid, had: set<Uuid>, records: seq<Item>, edits: seq<ObjectEdit>)
    requires Plan(rows, had, records, edits) && DistinctItems(records)
    requires forall i | 0 <= i < |records| :: Takes(rows, n, had, records[i])
    ensures Stored(rows, TouchAll(rows, ItemsOf(edits)), had, records)
  {
    hide Takes, TouchAll, Unchanged;
    var items := ItemsOf(edits);
    forall i | 0 <= i < |records|
      ensures var after := TouchAll(rows, items);
              records[i].id in after && after[records[i].id].kind == records[i].kind
                && after[records[i].id].content == records[i].content
                && after[records[i].id].version == StoredVersion(rows, records[i])
    {
      RecordStored(rows, had, records, edits, i, n);
    }
    forall u | u in had - IdsOf(records)
      ensures u in TouchAll(rows, items) && TouchAll(rows, items)[u].content.None?
      ensures u in rows ==> TouchAll(rows, items)[u].kind == rows[u].kind
                            && TouchAll(rows, items)[u].version == rows[u].version + 1
    {
      var j :| 0 <= j < |edits| && edits[j].item == Drop(u);
      TouchAllAt(rows, items, j);
    }
    forall u | u !in had && u !in IdsOf(records)
      ensures Get(TouchAll(rows, items), u) == Get(rows, u)
    {
      forall j | 0 <= j < |items|
        ensures items[j].id != u
      {
        assert Planned(rows, had, records, edits[j]);
        if items[j] in records {
          var k :| 0 <= k < |records| && records[k] == items[j];
          assert records[k].id in IdsOf(records);
        }
      }
      TouchAllGrows(rows, items, u);
    }
  }

  /** Planned edits of compatible rows are all accepted. */
  lemma PlanAccepted(rows: Rows, owner: Owners, n: Uuid, had: set<Uuid>, records: seq<Item>, edits: seq<ObjectEdit>)
    requires Plan(rows, had, records, edits) && Compatible(rows, owner, n, had, records)
    requires forall i | 0 <= i < |records| :: Writable(records[i])
    ensures forall j | 0 <= j < |edits| :: Accepts(rows, edits[j].item, edits[j].expectedVersion)
  {
    hide IsNull, DistinctItems;
    forall j | 0 <= j < |edits|
      ensures Accepts(rows, edits[j].item, edits[j].expectedVersion)
    {
      var e := edits[j];
      assert Planned(rows, had, records, e);
      if e.item in records {
        var k :| 0 <= k < |records| && records[k] == e.item;
        assert Takes(rows, n, had, records[k]) && Writable(records[k]);
      } else {
        assert Droppable(rows, e.item.id);
      }
    }
  }

  // ---------------------------------------------------------------- derived tables

  /** Owners are live roots. */
  ghost predicate OwnersLive(rows: Rows, owner: Owners) {
    forall u | u in owner :: u in rows && owner[u] in rows && rows[owner[u]].kind == ROOT_KIND
      && rows[owner[u]].content.Some?
  }

  /** The members of a readable root are its own, and not roots. */
  ghost predicate MembersOwned<Meta, Entity>(c: Codec<Meta, Entity>, rows: Rows, owner: Owners, n: Uuid) {
    IndexAt(c, rows, n).Some? ==>
      forall u | u in Referenced(IndexAt(c, rows, n).value.lists) :: Get(owner, u) == Some(n) && u in rows
        && rows[u].kind != ROOT_KIND
  }

  ghost predicate OwnedListed<Meta, Entity>(c: Codec<Meta, Entity>, rows: Rows, owner: Owners, n: Uuid) {
    IndexAt(c, rows, n).Some? ==> forall u | Get(owner, u) == Some(n) ::
      u in Referenced(IndexAt(c, rows, n).value.lists)
  }

  /** The membership table lists exactly the members of every readable root; its owners are live roots. */
  ghost predicate Registered<Meta, Entity>(c: Codec<Meta, Entity>, rows: Rows, owner: Owners) {
    OwnersLive(rows, owner) && forall n :: MembersOwned(c, rows, owner, n) && OwnedListed(c, rows, owner, n)
  }

  type References = map<Uuid, set<Bytes>>

  function ReferencesAt(refs: References, n: Uuid): set<Bytes> {
    if n in refs then refs[n] else {}
  }

  /** The reference table holds, for every readable network, exactly the references of its graph. */
  ghost predicate Indexed<Meta, Entity>(c: Codec<Meta, Entity>, graph: Network<Meta, Entity> -> set<Bytes>, rows: Rows,
                                        refs: References) {
    && (forall n | n in refs :: n in rows)
    && forall n | NetworkAt(c, rows, n).Some? :: ReferencesAt(refs, n) == graph(NetworkAt(c, rows, n).value)
  }

  /** The former members, as the stored root lists them; nothing if the identifier is taken or the root cannot be read.
      */
  function FormerMembers<Meta, Entity>(c: Codec<Meta, Entity>, rows: Rows, n: Uuid): Option<set<Uuid>> {
    if n !in rows || rows[n].content.None? then Some({})
    else
      var index := IndexAt(c, rows, n);
      if index.None? then None else Some(Referenced(index.value.lists))
  }

  // ------------------------------------------------------------------- round trip

  lemma MembersAre<Meta, Entity>(c: Codec<Meta, Entity>, net: Network<Meta, Entity>)
    requires |net.lists| == |c.kinds| && Buildable(c, net)
    ensures IdsOf(Records(c, net)) == {net.id} + Referenced(IndexOf(c, net).lists)
    ensures net.id !in Referenced(IndexOf(c, net).lists)
    ensures var ids := Flatten(IndexOf(c, net).lists);
            DistinctUuids(ids) && forall i | 0 <= i < |ids| :: !IsNull(ids[i]) && ids[i] != net.id
  {
    hide AllItems, Flatten, DistinctItems, DistinctUuids, ListIds, Writable;
    SavedForm.FlattenIds(c, net.lists);
    ParallelIds(Records(c, net), net.id, Flatten(IndexOf(c, net).lists));
  }

  lemma ParallelIds(records: seq<Item>, n: Uuid, ids: seq<Uuid>)
    requires |records| == |ids| + 1 && records[0].id == n && forall i | 0 <= i < |ids| :: ids[i] == records[i + 1].id
    requires DistinctItems(records) && forall i | 0 <= i < |records| :: Writable(records[i])
    ensures IdsOf(records) == {n} + set u | u in ids
    ensures n !in ids && DistinctUuids(ids) && forall i | 0 <= i < |ids| :: !IsNull(ids[i]) && ids[i] != n
  {
    hide IsNull;
    forall i, j | 0 <= i < j < |ids|
      ensures ids[i] != ids[j]
    {
      assert records[i + 1].id != records[j + 1].id;
    }
    forall i | 0 <= i < |ids|
      ensures !IsNull(ids[i]) && ids[i] != n
    {
      assert Writable(records[i + 1]) && records[0].id != records[i + 1].id;
    }
    forall u
      ensures u in IdsOf(records) <==> u == n || u in ids
    {
      if u in IdsOf(records) {
        var r :| 0 <= r < |records| && records[r].id == u;
        assert r > 0 ==> ids[r - 1] == u;
      }
    }
  }

  // --------------------------------------------------- the save, entity by entity

  /** The former members are what the stored root lists. */
  lemma FormerAre<Meta, Entity>(c: Codec<Meta, Entity>, rows: Rows, n: Uuid)
    ensures FormerMembers(c, rows, n).Some? <==> SavedForm.RootFree(c, rows, n)
    ensures FormerMembers(c, rows, n).Some? ==>
              forall u :: u in FormerMembers(c, rows, n).value <==> SavedForm.Lists(c, rows, n, u)
  {
    hide Flatten;
    assert ROOT_KIND == Ascii("hydraulic.network");
    if FormerMembers(c, rows, n).Some? && n in rows && rows[n].content.Some? {
      var lists := c.decodeIndex(rows[n].content.value).value.lists;
      forall u
        ensures u in Flatten(lists) <==> SavedForm.Lists(c, rows, n, u)
      {
        SavedForm.Flattened(lists, u);
      }
    }
  }

  /** Where a record's identifier comes from. */
  lemma RecordIds<Meta, Entity>(c: Codec<Meta, Entity>, net: Network<Meta, Entity>)
    requires |net.lists| == |c.kinds|
    ensures forall u :: u in IdsOf(Records(c, net)) <==> u == net.id || SavedForm.Holds(c, net, u)
  {
    hide Flatten, AllItems, SavedForm.Holds;
    var records, ids := Records(c, net), Flatten(IdLists(c, net.lists));
    SavedForm.FlattenIds(c, net.lists);
    SavedForm.IdsAre(c, net);
    forall u
      ensures u in IdsOf(records) <==> u == net.id || u in ids
    {
      if u in IdsOf(records) {
        var r :| 0 <= r < |records| && records[r].id == u;
        assert r > 0 ==> ids[r - 1] == u;
      }
      if u in ids {
        var i :| 0 <= i < |ids| && ids[i] == u;
        assert records[i + 1].id == u;
      }
      assert records[0].id == net.id;
    }
  }

  /** A property of all records is one of the root and of every entity. */
  lemma RecordsAre<Meta, Entity>(c: Codec<Meta, Entity>, net: Network<Meta, Entity>, r: nat) returns (k: int, i: int)
    requires |net.lists| == |c.kinds| && r < |Records(c, net)|
    ensures r == 0 ==> Records(c, net)[r] == Item(net.id, Ascii("hydraulic.network"),
                                                  Some(SavedForm.RootBytes(c, net)))
    ensures r > 0 ==> SavedForm.Entry(c, net, k, i, Records(c, net)[r].id)
                      && Records(c, net)[r] == SavedForm.ItemOf(c, k, net.lists[k][i])
  {
    hide AllItems, SavedForm.RootBytes, IndexOf;
    k, i := 0, 0;
    if r == 0 {
      SavedForm.IndexBytes(c, net);
      assert ROOT_KIND == Ascii("hydraulic.network");
    } else {
      var item := AllItems(c, net.lists)[r - 1];
      SavedForm.ItemsAre(c, net.lists, item);
      k, i :| 0 <= k < |net.lists| && 0 <= i < |net.lists[k]| && item == SavedForm.ItemOf(c, k, net.lists[k][i]);
    }
  }

  /** The demands of a save, entity by entity. */
  lemma CompatibleIs<Meta, Entity>(c: Codec<Meta, Entity>, rows: Rows, owner: Owners, net: Network<Meta, Entity>,
                                   had: set<Uuid>)
    requires |net.lists| == |c.kinds| && SavedForm.Encodable(c, net) && FormerMembers(c, rows, net.id) == Some(had)
    ensures Compatible(rows, owner, net.id, had, Records(c, net)) <==> SavedForm.Takeable(c, rows, owner, net)
  {
    hide SavedForm.Holds, SavedForm.Lists, FormerMembers, AllItems, IndexOf, SavedForm.RootBytes, IdsOf, IsNull;
    var records := Records(c, net);
    FormerAre(c, rows, net.id);
    RecordIds(c, net);
    var none, other := RecordsAre(c, net, 0);
    forall u
      ensures IsNull(u) <==> u == UNSET
    {
      NullIsUnset(u);
    }
    if Compatible(rows, owner, net.id, had, records) {
      assert Takes(rows, net.id, had, records[0]);
      forall u | u in owner && (u == net.id || SavedForm.Holds(c, net, u) || SavedForm.Lists(c, rows, net.id, u))
        ensures owner[u] == net.id
      {
        assert u in had + IdsOf(records);
      }
      forall u | SavedForm.Lists(c, rows, net.id, u) && u != net.id && !SavedForm.Holds(c, net, u)
        ensures Droppable(rows, u)
      {
        assert u in had - IdsOf(records);
      }
      forall k, i, u | SavedForm.Entry(c, net, k, i, u) && u in rows
        ensures SavedForm.Lists(c, rows, net.id, u) && rows[u].kind == c.kinds[k]
      {
        var r := SavedForm.RecordOf(c, net, k, i);
        assert Takes(rows, net.id, had, records[r]);
      }
    }
    if SavedForm.Takeable(c, rows, owner, net) {
      forall r | 0 <= r < |records|
        ensures Takes(rows, net.id, had, records[r])
      {
        var k, i := RecordsAre(c, net, r);
      }
    }
  }

  /** The rows after a save, entity by entity. */
  lemma StoredIs<Meta, Entity>(c: Codec<Meta, Entity>, rows: Rows, after: Rows, net: Network<Meta, Entity>,
                               had: set<Uuid>)
    requires |net.lists| == |c.kinds| && FormerMembers(c, rows, net.id) == Some(had)
    requires Stored(rows, after, had, Records(c, net))
    ensures SavedForm.SavedOver(c, rows, after, net)
  {
    hide SavedForm.Holds, SavedForm.Lists, FormerMembers, AllItems, IndexOf, SavedForm.RootBytes, IdsOf, IsNull;
    var records := Records(c, net);
    FormerAre(c, rows, net.id);
    RecordIds(c, net);
    var none, other := RecordsAre(c, net, 0);
    assert StoredVersion(rows, records[0]) == SavedForm.Rewritten(rows, net.id, records[0].kind,
                                                                  SavedForm.RootBytes(c, net)).version;
    forall k, i, u | SavedForm.Entry(c, net, k, i, u) && k < |c.kinds|
      ensures Get(after, u) == Some(SavedForm.Rewritten(rows, u, c.kinds[k], c.encode(k, net.lists[k][i])))
    {
      var r := SavedForm.RecordOf(c, net, k, i);
      assert records[r].id in after;
    }
  }

  lemma HandedIs<Meta, Entity>(c: Codec<Meta, Entity>, net: Network<Meta, Entity>, owner: Owners, after: Owners)
    requires Handed(owner, after, net.id, Referenced(IndexOf(c, net).lists))
    ensures SavedForm.OwnedAfter(c, owner, after, net)
  {
    hide SavedForm.Holds, Flatten;
    SavedForm.IdsAre(c, net);
  }

  /** What was stored reads back as the network that was saved exactly if the reader accepts its root and every entity.
      */
  lemma StoredReadsBack<Meta(!new),
      Entity(!new)>(c: Codec<Meta, Entity>, net: Network<Meta, Entity>, rows: Rows, after: Rows, had: set<Uuid>)
    requires Lawful(c) && |net.lists| == |c.kinds| && Buildable(c, net) && Stored(rows, after, had, Records(c, net))
    ensures IndexAt(c, after, net.id) == if IndexReads(c, IndexOf(c, net)) then Some(IndexOf(c, net)) else None
    ensures NetworkAt(c, after, net.id) == if ReadsBack(c, net) then Some(net) else None
  {
    hide IsNull, AllItems, Flatten, DistinctItems, DistinctUuids, Lawful;
    IndexReadsBack(c, net, rows, after, had);
    if IndexReads(c, IndexOf(c, net)) {
      MembersAre(c, net);
      forall k, i | 0 <= k < |net.lists| && 0 <= i < |net.lists[k]|
        ensures EntityAt(c, k, after, IndexOf(c, net).lists[k][i])
                == if EntityReads(c, k, net.lists[k][i]) then Some(net.lists[k][i]) else None
      {
        EntityReadsBack(c, net, rows, after, had, k, i);
      }
      if ReadsBack(c, net) {
        SameLists(NetworkAt(c, after, net.id).value.lists, net.lists);
      }
    }
  }

  lemma IndexReadsBack<Meta(!new),
      Entity(!new)>(c: Codec<Meta, Entity>, net: Network<Meta, Entity>, rows: Rows, after: Rows, had: set<Uuid>)
    requires Lawful(c) && |net.lists| == |c.kinds| && Buildable(c, net) && Stored(rows, after, had, Records(c, net))
    ensures IndexAt(c, after, net.id) == if IndexReads(c, IndexOf(c, net)) then Some(IndexOf(c, net)) else None
  {
    hide IsNull, AllItems, DistinctItems;
    var records := Records(c, net);
    assert records[0].id == net.id && Writable(records[0]);
  }

  lemma EntityReadsBack<Meta(!new),
      Entity(!new)>(c: Codec<Meta, Entity>, net: Network<Meta, Entity>, rows: Rows, after: Rows, had: set<Uuid>,
                                                  k: nat, i: nat)
    requires Lawful(c) && |net.lists| == |c.kinds| && Buildable(c, net) && Stored(rows, after, had, Records(c, net))
    requires k < |net.lists| && i < |net.lists[k]|
    ensures EntityAt(c, k, after, c.idOf(net.lists[k][i])) == if EntityReads(c, k, net.lists[k][i])
              then Some(net.lists[k][i]) else None
  {
    hide IsNull, AllItems, DistinctItems, Records;
    var r := SavedForm.RecordOf(c, net, k, i);
    assert Writable(Records(c, net)[r]);
  }

  // --------------------------------------------------------------------- isolation

  /** A compatible save leaves every other root, and all that other readable roots refer to, as they were. */
  lemma OthersKept<Meta(!new), Entity(!new)>(c: Codec<Meta, Entity>, rows: Rows, after: Rows, owner: Owners, n: Uuid,
                                             had: set<Uuid>, records: seq<Item>)
    requires Registered(c, rows, owner) && FormerMembers(c, rows, n) == Some(had)
               && Compatible(rows, owner, n, had, records)
    requires Stored(rows, after, had, records)
    requires forall i | 0 <= i < |records| :: records[i].kind == ROOT_KIND ==> records[i].id == n
    ensures forall m | m != n && m in rows && rows[m].kind == ROOT_KIND && rows[m].content.Some? ::
              Get(after, m) == Get(rows, m)
    ensures forall m | m != n && IndexAt(c, rows, m).Some? ::
              forall u | u in Referenced(IndexAt(c, rows, m).value.lists) :: Get(after, u) == Get(rows, u)
  {
    hide Flatten, IsNull;
    assert MembersOwned(c, rows, owner, n);
    forall m, u | m != n && IndexAt(c, rows, m).Some? && u in Referenced(IndexAt(c, rows, m).value.lists)
      ensures Get(after, u) == Get(rows, u)
    {
      assert MembersOwned(c, rows, owner, m);
    }
    forall m | m != n && m in rows && rows[m].kind == ROOT_KIND && rows[m].content.Some?
      ensures Get(after, m) == Get(rows, m)
    {
      assert m !in had;
      forall i | 0 <= i < |records|
        ensures records[i].id != m
      {
        assert Takes(rows, n, had, records[i]);
      }
    }
  }

  lemma OthersStay<Meta(!new), Entity(!new)>(c: Codec<Meta, Entity>, rows: Rows, after: Rows, owner: Owners, n: Uuid,
                                             had: set<Uuid>, records: seq<Item>, m: Uuid)
    requires Lawful(c) && Registered(c, rows, owner) && FormerMembers(c, rows, n) == Some(had)
               && Compatible(rows, owner, n, had, records)
    requires Stored(rows, after, had, records) && m != n
    requires forall i | 0 <= i < |records| :: records[i].kind == ROOT_KIND ==> records[i].id == n
    ensures IndexAt(c, after, m) == IndexAt(c, rows, m) && NetworkAt(c, after, m) == NetworkAt(c, rows, m)
  {
    hide Flatten, IsNull, Restorable, EntityAt, Compatible, Registered;
    OthersKept(c, rows, after, owner, n, had, records);
    var index := IndexAt(c, rows, m);
    if index.Some? {
      assert Get(after, m) == Get(rows, m);
      RestoreNeeds(c, index.value, rows, after);
      if NetworkAt(c, rows, m).Some? {
        SameLists(NetworkAt(c, after, m).value.lists, NetworkAt(c, rows, m).value.lists);
      }
    } else if m in IdsOf(records) {
      var i :| 0 <= i < |records| && records[i].id == m;
    } else if m !in had {
      assert Get(after, m) == Get(rows, m);
    }
  }

  /** The membership table after a save: the network's members are the new ones, everybody else's stay. */
  ghost predicate Handed(owner: Owners, owner': Owners, n: Uuid, members: set<Uuid>) {
    forall u :: Get(owner', u) == if u in members then Some(n) else if u in owner
      && owner[u] == n then None else Get(owner, u)
  }

  lemma StillRegistered<Meta(!new),
      Entity(!new)>(c: Codec<Meta, Entity>, net: Network<Meta, Entity>, rows: Rows, after: Rows, owner: Owners,
                                                  owner': Owners, had: set<Uuid>)
    requires Lawful(c) && |net.lists| == |c.kinds| && Buildable(c, net)
    requires Registered(c, rows, owner) && FormerMembers(c, rows, net.id) == Some(had)
    requires Compatible(rows, owner, net.id, had, Records(c, net)) && Stored(rows, after, had, Records(c, net))
    requires rows.Keys <= after.Keys && Handed(owner, owner', net.id, Referenced(IndexOf(c, net).lists))
    ensures Registered(c, after, owner')
  {
    hide Flatten, IsNull, Restorable, EntityAt, DistinctItems, AllItems, Lawful, Writable;
    var n, records, members := net.id, Records(c, net), Referenced(IndexOf(c, net).lists);
    RecordKinds(c, net);
    MembersAre(c, net);
    StoredReadsBack(c, net, rows, after, had);
    OthersKept(c, rows, after, owner, n, had, records);
    MembersStored(c, net, rows, after, had);
    forall m | m != n
      ensures IndexAt(c, after, m) == IndexAt(c, rows, m)
    {
      OthersStay(c, rows, after, owner, n, had, records, m);
    }
    assert after[n].kind == ROOT_KIND && after[n].content.Some? by {
      assert records[0].id == n;
    }
    RegisteredFrom(c, rows, after, owner, owner', n, members);
  }

  lemma RegisteredFrom<Meta(!new),
      Entity(!new)>(c: Codec<Meta, Entity>, rows: Rows, after: Rows, owner: Owners, owner': Owners, n: Uuid,
                                                 members: set<Uuid>)
    requires Registered(c, rows, owner) && Handed(owner, owner', n, members) && rows.Keys <= after.Keys
    requires forall m | m != n :: IndexAt(c, after, m) == IndexAt(c, rows, m)
    requires IndexAt(c, after, n).Some? ==> Referenced(IndexAt(c, after, n).value.lists) == members
    requires n in after && after[n].kind == ROOT_KIND && after[n].content.Some?
    requires forall u | u in members :: u in after && after[u].kind != ROOT_KIND && (u in owner ==> owner[u] == n)
    requires forall m | m != n && m in rows && rows[m].kind == ROOT_KIND && rows[m].content.Some? ::
               Get(after, m) == Get(rows, m)
    requires forall m | m != n && IndexAt(c, rows, m).Some? ::
               forall u | u in Referenced(IndexAt(c, rows, m).value.lists) :: Get(after, u) == Get(rows, u)
    ensures Registered(c, after, owner')
  {
    hide IndexAt, Referenced;
    assert OwnersLive(after, owner') by {
      forall u | u in owner'
        ensures u in after && owner'[u] in after && after[owner'[u]].kind == ROOT_KIND && after[owner'[u]].content.Some?
      {
        assert Get(owner', u).Some?;
      }
    }
    forall m
      ensures MembersOwned(c, after, owner', m) && OwnedListed(c, after, owner', m)
    {
      if m != n {
        assert MembersOwned(c, rows, owner, m) && OwnedListed(c, rows, owner, m);
        StillOwned(c, rows, after, owner, owner', n, members, m);
      }
    }
  }

  lemma StillOwned<Meta(!new), Entity(!new)>(c: Codec<Meta, Entity>, rows: Rows, after: Rows, owner: Owners,
                                             owner': Owners, n: Uuid,
                                             members: set<Uuid>, m: Uuid)
    requires MembersOwned(c, rows, owner, m) && OwnedListed(c, rows, owner, m) && Handed(owner, owner', n, members)
               && m != n
    requires IndexAt(c, after, m) == IndexAt(c, rows, m)
    requires forall u | u in members :: u in owner ==> owner[u] == n
    requires IndexAt(c, rows, m).Some? ==> forall u | u in Referenced(IndexAt(c, rows, m).value.lists) ::
               Get(after, u) == Get(rows, u)
    ensures MembersOwned(c, after, owner', m) && OwnedListed(c, after, owner', m)
  {
    hide IndexAt, Referenced;
    if IndexAt(c, after, m).Some? {
      var ids := Referenced(IndexAt(c, after, m).value.lists);
      forall u | u in ids
        ensures Get(owner', u) == Some(m) && u in after && after[u].kind != ROOT_KIND
      {
        assert Get(after, u) == Get(rows, u) && Get(owner, u) == Some(m);
        assert u !in members;
      }
      forall u | Get(owner', u) == Some(m)
        ensures u in ids
      {
        assert Get(owner, u) == Some(m);
      }
    }
  }

  /** Only the root's record is of the root's kind. */
  lemma RecordKinds<Meta(!new), Entity(!new)>(c: Codec<Meta, Entity>, net: Network<Meta, Entity>)
    requires Lawful(c) && |net.lists| == |c.kinds|
    ensures forall i | 0 < i < |Records(c, net)| :: Records(c, net)[i].kind != ROOT_KIND
    ensures Records(c, net)[0].kind == ROOT_KIND && Records(c, net)[0].id == net.id
  {
    hide Lawful;
    assert forall k | 0 <= k < |c.kinds| :: c.kinds[k] != ROOT_KIND by { LawfulKinds(c); }
    ItemKinds(c, net.lists);
    assert forall i | 0 < i < |Records(c, net)| :: Records(c, net)[i] == AllItems(c, net.lists)[i - 1];
  }

  lemma RecordRoots<Meta(!new), Entity(!new)>(c: Codec<Meta, Entity>, net: Network<Meta, Entity>)
    requires Lawful(c) && |net.lists| == |c.kinds|
    ensures forall i | 0 <= i < |Records(c, net)| :: Records(c, net)[i].kind == ROOT_KIND ==>
              Records(c, net)[i].id == net.id
  {
    hide Lawful, AllItems;
    RecordKinds(c, net);
  }

  lemma LawfulKinds<Meta(!new), Entity(!new)>(c: Codec<Meta, Entity>)
    requires Lawful(c)
    ensures forall k | 0 <= k < |c.kinds| :: c.kinds[k] != ROOT_KIND
  {
  }

  lemma {:induction false} ItemKinds<Meta, Entity>(c: Codec<Meta, Entity>, lists: seq<seq<Entity>>)
    requires |lists| <= |c.kinds| && forall k | 0 <= k < |c.kinds| :: c.kinds[k] != ROOT_KIND
    ensures forall i | 0 <= i < |AllItems(c, lists)| :: AllItems(c, lists)[i].kind != ROOT_KIND
  {
    if lists != [] {
      ItemKinds(c, lists[..|lists| - 1]);
    }
  }

  lemma MembersStored<Meta(!new),
      Entity(!new)>(c: Codec<Meta, Entity>, net: Network<Meta, Entity>, rows: Rows, after: Rows, had: set<Uuid>)
    requires Lawful(c) && |net.lists| == |c.kinds| && Buildable(c, net) && Stored(rows, after, had, Records(c, net))
    ensures forall u | u in Referenced(IndexOf(c, net).lists) :: u in after && after[u].kind != ROOT_KIND
  {
    hide Flatten, AllItems, DistinctItems, Lawful, Writable, IsNull;
    MembersAre(c, net);
    RecordKinds(c, net);
    var records := Records(c, net);
    forall u | u in Referenced(IndexOf(c, net).lists)
      ensures u in after && after[u].kind != ROOT_KIND
    {
      assert u in IdsOf(records);
      var i :| 0 <= i < |records| && records[i].id == u;
      assert i != 0;
    }
  }

  // ----------------------------------------------------------------- the transaction

  /** A branch's editable head with the tables derived from its networks. */
  class NetworkStore<Meta(!new), Entity(!new)> {
    const c: Codec<Meta, Entity>
    const valid: Network<Meta, Entity> -> bool
    const graph: Network<Meta, Entity> -> set<Bytes>
    const head: WorkingHead
    /** The head is edited as one whole snapshot; object writes never end that. */
    const legacySnapshot: bool
    var owner: Owners
    var refs: References

    ghost predicate Valid()
      reads this, head
    {
      Lawful(c) && head.Valid() && Registered(c, head.rows, owner) && Indexed(c, graph, head.rows, refs)
    }

    constructor (c: Codec<Meta, Entity>, valid: Network<Meta, Entity> -> bool, graph: Network<Meta,
                 Entity> -> set<Bytes>, head: WorkingHead, legacySnapshot: bool)
      ensures this.c == c && this.valid == valid && this.graph == graph && this.head == head && owner == map[]
                && refs == map[] && this.legacySnapshot == legacySnapshot
    {
      this.c, this.valid, this.graph, this.head := c, valid, graph, head;
      this.legacySnapshot, owner, refs := legacySnapshot, map[], map[];
    }

    /** The stored members and the rows under all old and new identifiers, and whose ownership the membership table
        leaves open. */
    method FetchForSave(n: Uuid, had: set<Uuid>, incoming: set<Uuid>) returns (existing: Rows, unchecked: set<Uuid>)
      ensures forall u :: Get(existing, u) == if u in had + incoming then Get(head.rows, u) else None
      ensures unchecked <= had + incoming
      ensures forall u | u in (had + incoming) - unchecked :: u in owner && owner[u] == n
    {
      if had == {} {
        existing := map u | u in incoming && u in head.rows :: head.rows[u];
        return existing, incoming;
      }
      existing := map u | u in owner && owner[u] == n && u in head.rows && u in had :: head.rows[u];
      var missing := had - existing.Keys;
      unchecked := (incoming - had) + missing;
      existing := existing + map u | u in unchecked && u in head.rows :: head.rows[u];
      forall u
        ensures Get(existing, u) == if u in had + incoming then Get(head.rows, u) else None
      {
        assert u in had ==> u in missing || u in existing;
      }
    }

    /** The edits for changed records; refused where an identifier or its kind is taken. */
    method PlanRecords(existing: Rows, n: Uuid, had: set<Uuid>, records: seq<Item>)
      returns (ok: bool, edits: seq<ObjectEdit>)
      requires DistinctItems(records) && forall i | 0 <= i < |records| :: records[i].content.Some?
      ensures ok <==> forall i | 0 <= i < |records| :: Takes(existing, n, had, records[i])
      ensures ok ==> RecordEdits(existing, records, edits)
    {
      hide DistinctItems, RecordEdits;
      ok, edits := false, [];
      NoRecordEdits(existing);
      for i := 0 to |records|
        invariant forall j | 0 <= j < i :: Takes(existing, n, had, records[j])
        invariant RecordEdits(existing, records[..i], edits)
      {
        var item := records[i];
        if item.id in existing && item.id != n && item.id !in had {
          return;
        }
        if item.id in existing && existing[item.id].kind != item.kind {
          return;
        }
        assert records[..i + 1] == records[..i] + [item];
        if item.id in existing && existing[item.id].content.Some? && existing[item.id].content == item.content {
          RecordEditsSkip(existing, records[..i], edits, item);
        } else {
          FreshId(records, i);
          RecordEditsMore(existing, records[..i], edits, item);
          edits := edits + [ObjectEdit(item, if item.id in existing then existing[item.id].version else -1)];
        }
      }
      assert records[..|records|] == records;
      ok := true;
    }

    /** The edits that turn the stored objects into the records; refused too when a former member is gone. */
    method PlanEdits(existing: Rows, n: Uuid, had: set<Uuid>, records: seq<Item>) returns (r: Option<seq<ObjectEdit>>)
      requires DistinctItems(records) && forall i | 0 <= i < |records| :: records[i].content.Some?
      ensures r.Some? <==> (forall i | 0 <= i < |records| :: Takes(existing, n, had, records[i]))
                           && forall u | u in had - IdsOf(records) :: u in existing && existing[u].content.Some?
      ensures r.Some? ==> Plan(existing, had, records, r.value)
    {
      hide DistinctItems, RecordEdits, Plan, Takes;
      var ok, edits := PlanRecords(existing, n, had, records);
      if !ok {
        return None;
      }
      var incoming := IdsOf(records);
      var rest := had - incoming;
      ghost var dropped: set<Uuid> := {};
      PlanStart(existing, records, edits);
      while rest != {}
        invariant rest !! dropped && rest + dropped == had - incoming
        invariant Plan(existing, dropped, records, edits)
        invariant forall u | u in dropped :: u in existing && existing[u].content.Some?
        decreases |rest|
      {
        var u :| u in rest;
        if u !in existing || existing[u].content.None? {
          return None;
        }
        PlanMore(existing, dropped, records, edits, u);
        edits := edits + [ObjectEdit(Drop(u), existing[u].version)];
        rest, dropped := rest - {u}, dropped + {u};
      }
      PlanWhole(existing, had, dropped, records, edits);
      r := Some(edits);
    }

    /** Inserts a network of which no row exists yet: one object row and one journal event for each record, in order. */
    method InsertFreshObjects(actor: Uuid, records: seq<Item>)
      requires DistinctItems(records) && forall i | 0 <= i < |records| ::
                 records[i].content.Some?
                 && records[i].id !in head.rows
      modifies head
      ensures head.Now() == NextAll(old(head.Now()), actor, records)
    {
      hide TouchAll, Written, Touch;
      ghost var start := head.Now();
      NextAllStep(start, actor, [], Drop(UNSET));
      var sequence := head.generation;
      for i := 0 to |records|
        invariant head.Now() == NextAll(start, actor, records[..i]) && sequence == head.generation
      {
        var item := records[i];
        TouchAllGrows(start.rows, records[..i], item.id);
        ghost var before := head.Now();
        head.rows := head.rows[item.id := Row(item.kind, item.content, 1)];
        head.generation := head.generation + 1;
        sequence := sequence + 1;
        head.events := head.events + [Event(item.id, actor, sequence, item.kind, -1, 1, None, item.content)];
        assert head.Now() == Next(before, actor, item) by { FreshNext(before, actor, item); }
        assert records[..i + 1] == records[..i] + [item];
        NextAllStep(start, actor, records[..i], item);
      }
      assert records[..|records|] == records;
    }

    /** The writes of a save: all of them under a fresh network's path or the general one, or none if something does not
        fit. */
    method WriteObjects(actor: Uuid, n: Uuid, had: set<Uuid>, records: seq<Item>)
      returns (ok: bool, first: bool, ghost items: seq<Item>)
      requires DistinctItems(records) && forall i | 0 <= i < |records| :: Writable(records[i])
      modifies head
      ensures ok <==> Compatible(old(head.rows), owner, n, had, records)
      ensures !ok ==> head.Now() == old(head.Now())
      ensures ok ==>
                head.Now() == NextAll(old(head.Now()), actor, items) && DistinctItems(items)
                && AcceptedAll(old(head.rows), items)
                     && Stored(old(head.rows), head.rows, had, records)
      ensures ok && first ==> items == records && had == {} && forall i | 0 <= i < |records| ::
                records[i].id !in old(head.rows)
    {
      hide DistinctItems, Plan, Takes, Droppable, AcceptedAll, TouchAll, Written, Accepts, Stored;
      ok, first, items := false, false, [];
      ghost var rows := head.rows;
      var saved := head.Now();
      var existing, unchecked := FetchForSave(n, had, IdsOf(records));
      if exists u :: u in unchecked && u in owner && owner[u] != n {
        return;
      }
      if had == {} && existing == map[] {
        NothingStored(rows, existing, records);
        first, items := true, records;
        FreshPlan(rows, owner, n, records);
        InsertFreshObjects(actor, records);
        ok := true;
        return;
      }
      var edits := PlanEdits(existing, n, had, records);
      PlanSameRows(rows, existing, n, had, records, if edits.Some? then edits.value else []);
      if edits.None? {
        CompatibleDrops(rows, owner, n, had, records);
        return;
      }
      PlanDistinct(rows, had, records, edits.value);
      ok := head.ApplyEdits(actor, edits.value);
      if Compatible(rows, owner, n, had, records) {
        PlanAccepted(rows, owner, n, had, records, edits.value);
      }
      if !ok {
        head.Rollback(saved);
        return;
      }
      items := ItemsOf(edits.value);
      PlanCompatible(rows, had, records, edits.value);
      PlanWrites(rows, n, had, records, edits.value);
      AcceptedApart(rows, edits.value);
    }

    /** One network's rows of both tables. */
    method RebuildNetwork(n: Uuid, ghost done: set<Uuid>) returns (ok: bool)
      requires Lawful(c) && Derived(c, graph, head.rows, owner, refs, done) && IsRoot(head.rows, n) && n !in done
      modifies this`owner, this`refs
      ensures ok ==> Derived(c, graph, head.rows, owner, refs, done + {n})
      ensures !ok ==> !Rebuildable(c, head.rows)
    {
      hide Derived, Rebuildable, Lawful, NetworkAt, Referenced, IndexAt;
      var net := LoadHydraulicNetwork(c, head.rows, owner, n);
      if net.None? {
        NotRebuildable(c, graph, head.rows, owner, refs, done, n);
        return false;
      }
      ReadableRoot(c, head.rows, n);
      var index := c.decodeIndex(head.rows[n].content.value);
      var ids := Referenced(index.value.lists);
      if exists u :: u in ids && u in owner {
        NotRebuildable(c, graph, head.rows, owner, refs, done, n);
        return false;
      }
      DerivedMore(c, graph, head.rows, owner, refs, done, n);
      owner := owner + map u | u in ids :: n;
      refs := refs[n := graph(net.value)];
      ok := true;
    }

    /** Derives both tables from the rows of a new working revision: possible exactly when every root loads and none
        share a member. */
    method RebuildWorkingHydraulicIndexes() returns (ok: bool)
      requires Lawful(c) && head.Valid() && owner == map[] && refs == map[]
      modifies this`owner, this`refs
      ensures ok <==> Rebuildable(c, head.rows)
      ensures ok ==> Valid()
      ensures !ok ==> owner == map[] && refs == map[]
    {
      hide Lawful, Sound, Derived, Rebuildable, Registered, Indexed;
      var rest := set n | n in head.rows && IsRoot(head.rows, n);
      ghost var done: set<Uuid> := {};
      NothingDerived(c, graph, head.rows);
      while rest != {}
        invariant rest !! done && rest + done == set n | n in head.rows && IsRoot(head.rows, n)
        invariant Derived(c, graph, head.rows, owner, refs, done)
        decreases |rest|
      {
        var n :| n in rest;
        ok := RebuildNetwork(n, done);
        if !ok {
          owner, refs := map[], map[];
          return;
        }
        rest, done := rest - {n}, done + {n};
      }
      DerivedAll(c, graph, head.rows, owner, refs, done);
      ok := true;
    }

    /** When a save goes through. */
    ghost predicate Saves(expectedGeneration: int, net: Network<Meta, Entity>)
      requires |net.lists| == |c.kinds|
      reads this, head
    {
      && valid(net) && Buildable(c, net) && head.generation == expectedGeneration && !legacySnapshot
      && FormerMembers(c, head.rows, net.id).Some?
      && Compatible(head.rows, owner, net.id, FormerMembers(c, head.rows, net.id).value, Records(c, net))
    }

    lemma SavesIs(expectedGeneration: int, net: Network<Meta, Entity>)
      requires |net.lists| == |c.kinds|
      ensures Saves(expectedGeneration, net) <==>
                && valid(net) && head.generation == expectedGeneration && !legacySnapshot
                && SavedForm.Encodable(c, net) && SavedForm.RootFree(c, head.rows, net.id)
                && SavedForm.Takeable(c, head.rows, owner, net)
    {
      hide Compatible, Buildable, FormerMembers, SavedForm.Encodable, SavedForm.RootFree, SavedForm.Takeable, Records;
      SavedForm.BuildableIs(c, net);
      FormerAre(c, head.rows, net.id);
      if SavedForm.Encodable(c, net) && SavedForm.RootFree(c, head.rows, net.id) {
        CompatibleIs(c, head.rows, owner, net, FormerMembers(c, head.rows, net.id).value);
      }
    }

    /**
     * Saves a whole network: all of it or nothing.
     * Loading it again gives the same network if the reader accepts what was written, and every other network loads as
     * before.
     */
    method SaveHydraulicNetwork(actor: Uuid, expectedGeneration: int, net: Network<Meta, Entity>) returns (ok: bool)
      requires Valid() && |net.lists| == |c.kinds|
      modifies this`owner, this`refs, head
      ensures Valid()
      ensures ok <==> old(Saves(expectedGeneration, net))
      ensures !ok ==> head.Now() == old(head.Now()) && owner == old(owner) && refs == old(refs)
      ensures ok ==> NetworkAt(c, head.rows, net.id) == if ReadsBack(c, net) then Some(net) else None
      ensures ok ==> forall m | m != net.id :: NetworkAt(c, head.rows, m) == NetworkAt(c, old(head.rows), m)
      ensures ok ==> Stored(old(head.rows), head.rows, FormerMembers(c, old(head.rows), net.id).value, Records(c, net))
      ensures ok ==> Handed(old(owner), owner, net.id, Referenced(IndexOf(c, net).lists))
      ensures ok <==>
                && valid(net) && old(head.generation) == expectedGeneration && !legacySnapshot
                && SavedForm.Encodable(c, net) && SavedForm.RootFree(c, old(head.rows), net.id)
                && SavedForm.Takeable(c, old(head.rows), old(owner), net)
      ensures ok ==> SavedForm.SavedOver(c, old(head.rows), head.rows, net)
                     && SavedForm.OwnedAfter(c, old(owner), owner, net)
      ensures ok ==> head.Now() == old(head.Now()) || exists items ::
                       items != [] && head.Now() == Closed(NextAll(old(head.Now()), actor, items), actor, Edit, None,
                                                           old(head.generation))
    {
      hide Lawful, Registered, Indexed, Sound, Compatible, Buildable, Stored, Handed, IndexOf, Records, Accepts,
        AcceptedAll, TouchAll, Written, Closed, Referenced, DistinctItems, IndexAt, NetworkAt, FormerMembers,
        SavedForm.Encodable, SavedForm.RootFree, SavedForm.Takeable, SavedForm.SavedOver, SavedForm.OwnedAfter;
      SavesIs(expectedGeneration, net);
      ok := SaveRecords(actor, expectedGeneration, net);
      if ok {
        StoredIs(c, old(head.rows), head.rows, net, FormerMembers(c, old(head.rows), net.id).value);
        HandedIs(c, net, old(owner), owner);
      }
    }

    /** Builds the records, reads the former members, writes what changed, and rewrites the derived tables. */
    method SaveRecords(actor: Uuid, expectedGeneration: int, net: Network<Meta, Entity>) returns (ok: bool)
      requires Valid() && |net.lists| == |c.kinds|
      modifies this`owner, this`refs, head
      ensures Valid()
      ensures ok <==> old(Saves(expectedGeneration, net))
      ensures !ok ==> head.Now() == old(head.Now()) && owner == old(owner) && refs == old(refs)
      ensures ok ==> NetworkAt(c, head.rows, net.id) == if ReadsBack(c, net) then Some(net) else None
      ensures ok ==> forall m | m != net.id :: NetworkAt(c, head.rows, m) == NetworkAt(c, old(head.rows), m)
      ensures ok ==> Stored(old(head.rows), head.rows, FormerMembers(c, old(head.rows), net.id).value, Records(c, net))
      ensures ok ==> Handed(old(owner), owner, net.id, Referenced(IndexOf(c, net).lists))
      ensures ok ==> head.Now() == old(head.Now()) || exists items ::
                       items != [] && head.Now() == Closed(NextAll(old(head.Now()), actor, items), actor, Edit, None,
                                                           old(head.generation))
    {
      hide Lawful, Registered, Indexed, Sound, Compatible, Buildable, Stored, Handed, IndexOf, Records, Accepts,
        AcceptedAll, TouchAll, Written, Closed, Referenced, DistinctItems, IndexAt, NetworkAt, FormerMembers;
      if !valid(net) {
        return false;
      }
      var built := BuildRecords(c, net);
      if built.None? {
        return false;
      }
      var (index, records) := built.value;
      if head.generation != expectedGeneration || legacySnapshot {
        return false;
      }
      var had := ReadFormerMembers(net.id);
      if had.None? {
        return false;
      }
      BuiltRecords(c, net);
      var saved := head.Now();
      ghost var ownedBefore, refsBefore := owner, refs;
      var first;
      ghost var items;
      ok, first, items := WriteObjects(actor, net.id, had.value, records);
      if !ok {
        return false;
      }
      SavedRows(saved, actor, items);
      if head.generation != expectedGeneration {
        UpdateMembership(net, index, records, had.value, first, saved, actor, items);
        ReplaceReferences(net.id, graph(net));
        SaveMeans(c, net, saved.rows, head.rows, ownedBefore, owner, had.value);
        StillIndexed(c, graph, net, saved.rows, head.rows, refsBefore, refs);
        var id := head.CloseGroup(actor, Edit, None, items, saved);
        EditSound(head.base, saved, actor, items);
      } else {
        UnchangedHanded(c, net, saved.rows, had.value, owner);
        SaveMeans(c, net, saved.rows, head.rows, ownedBefore, owner, had.value);
      }
    }

    /** The members the stored root lists; refused if the identifier belongs to something else. */
    method ReadFormerMembers(n: Uuid) returns (r: Option<set<Uuid>>)
      ensures r == FormerMembers(c, head.rows, n)
    {
      if n in head.rows && head.rows[n].content.Some? {
        if head.rows[n].kind != ROOT_KIND || |head.rows[n].content.value| > MAX_INDEX {
          return None;
        }
        var previous := c.decodeIndex(head.rows[n].content.value);
        if previous.None? || previous.value.id != n {
          return None;
        }
        return Some(Referenced(previous.value.lists));
      }
      r := Some({});
    }

    /** The membership rows of a save that wrote something; untouched if the members are the same. */
    method UpdateMembership(net: Network<Meta, Entity>, index: Index<Meta>, records: seq<Item>, had: set<Uuid>,
                            first: bool, saved: Head,
                            actor: Uuid, ghost items: seq<Item>)
      requires |net.lists| == |c.kinds| && Buildable(c, net) && index == IndexOf(c, net) && records == Records(c, net)
      requires FormerMembers(c, saved.rows, net.id) == Some(had) && Registered(c, saved.rows, owner)
      requires Compatible(saved.rows, owner, net.id, had, records)
      requires Sound(head.base, saved) && head.Now() == NextAll(saved, actor, items) && AcceptedAll(saved.rows, items)
      requires first ==> items == records && forall i | 0 <= i < |records| :: records[i].id !in saved.rows
      modifies this`owner
      ensures Handed(old(owner), owner, net.id, Referenced(index.lists))
    {
      hide Sound, Compatible, Records, AcceptedAll, TouchAll, Written, DistinctItems, Referenced, IndexOf, Buildable,
        Registered, FormerMembers, Handed, FreshlyJournaled, IdsOf;
      var members := Referenced(index.lists);
      var ok := true;
      RecordsListed(c, net);
      if had == members {
        SameMembers(c, saved.rows, owner, net.id, had);
      } else if first {
        FirstSave(c, net, head.base, saved, actor, owner);
        ok := InsertFreshMembership(net.id, saved.generation, |members|, records);
      } else {
        assert members <= IdsOf(records);
        MembersFree(saved.rows, owner, net.id, had, records, members);
        ok := ReplaceMembership(net.id, members);
      }
      assert ok;
    }

    /** Replaces the members of one network; a member that another network owns cannot be inserted. */
    method ReplaceMembership(n: Uuid, members: set<Uuid>) returns (ok: bool)
      modifies this`owner
      ensures ok <==> forall u | u in members && u in old(owner) :: old(owner)[u] == n
      ensures ok ==> Handed(old(owner), owner, n, members)
      ensures !ok ==> owner == old(owner)
    {
      var others := map u | u in owner && owner[u] != n :: owner[u];
      if exists u :: u in members && u in others {
        return false;
      }
      owner := others + map u | u in members :: n;
      ok := true;
    }

    /** Brings the reference rows of one network to the wanted ones, by removals and insertions. */
    method ReplaceReferences(n: Uuid, wanted: set<Bytes>)
      modifies this`refs
      ensures forall m :: ReferencesAt(refs, m) == if m == n then wanted else ReferencesAt(old(refs), m)
      ensures refs.Keys <= old(refs).Keys + {n}
    {
      var previous := ReferencesAt(refs, n);
      if wanted == previous {
        return;
      }
      var kept := previous - (previous - wanted);
      refs := refs[n := kept + (wanted - previous)];
      assert kept + (wanted - previous) == wanted;
    }

    /** Fills the membership of a network written for the first time from the events just journaled. */
    method InsertFreshMembership(n: Uuid, since: nat, expected: nat, ghost records: seq<Item>) returns (ok: bool)
      requires FreshlyJournaled(head.events, n, since, records) && |records| == expected + 1
      requires forall u | u in IdsOf(records) :: u !in owner
      modifies this`owner
      ensures ok && owner == old(owner) + map u | u in IdsOf(records) - {n} :: n
    {
      var members, count := FreshEntities(head.events, n, since, expected, records);
      if count != expected || exists u :: u in members && u in owner {
        return false;
      }
      owner := owner + map u | u in members :: n;
      ok := true;
    }
  }

  /** The derived tables of a new branch that starts with these rows. */
  method RebuildTables<Meta(!new),
      Entity(!new)>(c: Codec<Meta, Entity>, graph: Network<Meta, Entity> -> set<Bytes>, rows: Rows)
    returns (ok: bool)
    requires Lawful(c)
    ensures ok <==> Rebuildable(c, rows)
    ensures ok <==> AllLoad(c, rows)
  {
    hide Lawful, Rebuildable, Sound, Registered, Indexed, AllLoad;
    RebuildableIs(c, rows);
    var head := new WorkingHead(rows);
    var tables := new NetworkStore(c, (net: Network<Meta, Entity>) => true, graph, head, false);
    ok := tables.RebuildWorkingHydraulicIndexes();
  }

  /** The last events are the first writes of these records, the root's first. */
  ghost predicate FreshlyJournaled(events: seq<Event>, n: Uuid, since: nat, records: seq<Item>) {
    && records != [] && records[0].id == n && DistinctItems(records)
    && |events| == since + |records| && (forall i | 0 <= i < |events| :: events[i].sequence == i + 1)
    && forall i | since <= i < |events| ::
    events[i].id == records[i - since].id && events[i].beforeVersion == -1
    && events[i].after.Some?
  }

  method FreshEntities(events: seq<Event>, n: Uuid, since: nat, expected: nat, ghost records: seq<Item>)
    returns (members: set<Uuid>, count: nat)
    requires FreshlyJournaled(events, n, since, records) && |records| == expected + 1
    ensures members == IdsOf(records) - {n} && count == expected
  {
    members, count := {}, 0;
    assert records[1..1] == [];
    for i := 0 to |events|
      invariant count == (if i <= since then 0 else i - since - 1)
      invariant members == IdsOf(records[1..if i <= since then 1 else i - since])
    {
      hide IdsOf, DistinctItems;
      var e := events[i];
      if i > since {
        FreshMember(records, i - since);
      }
      if since < e.sequence <= since + expected + 1 && e.after.Some? && e.beforeVersion == -1 && e.id != n {
        members := members + {e.id};
        count := count + 1;
      }
    }
    assert records[1..|records|] == records[1..];
    FreshMembers(records, n);
  }

  lemma FreshMember(records: seq<Item>, i: nat)
    requires DistinctItems(records) && 0 < i < |records|
    ensures records[i].id !in IdsOf(records[1..i]) && IdsOf(records[1..i + 1]) == IdsOf(records[1..i]) + {records[i].id}
    ensures records[i].id in IdsOf(records) && records[i].id != records[0].id
  {
    var a, b := records[1..i], records[1..i + 1];
    assert b == a + [records[i]] && b[|a|] == records[i];
    assert forall j | 0 <= j < |a| :: b[j] == a[j] && a[j] == records[j + 1];
    forall u | u in IdsOf(a)
      ensures u in IdsOf(b)
    {
      var j :| 0 <= j < |a| && a[j].id == u;
      assert b[j].id == u;
    }
  }

  lemma FreshMembers(records: seq<Item>, n: Uuid)
    requires DistinctItems(records) && records != [] && records[0].id == n
    ensures IdsOf(records[1..]) == IdsOf(records) - {n}
  {
    forall u
      ensures u in IdsOf(records[1..]) <==> u in IdsOf(records) && u != n
    {
      if u in IdsOf(records[1..]) {
        var j :| 0 <= j < |records| - 1 && records[1..][j].id == u;
        assert records[j + 1].id == u;
      }
      if u in IdsOf(records) && u != n {
        var j :| 0 <= j < |records| && records[j].id == u;
        assert records[1..][j - 1].id == u;
      }
    }
  }

  lemma FreshNext(h: Head, actor: Uuid, item: Item)
    requires item.id !in h.rows
    ensures Next(h, actor, item) ==
            Head(h.rows[item.id := Row(item.kind, item.content, 1)], h.generation + 1,
                 h.events + [Event(item.id, actor, h.generation + 1, item.kind, -1, 1, None, item.content)], h.groups)
  {
  }

  /** The edits collected for the first records. */
  ghost predicate RecordEdits(rows: Rows, records: seq<Item>, edits: seq<ObjectEdit>) {
    && DistinctItems(ItemsOf(edits))
    && (forall j | 0 <= j < |edits| ::
          edits[j].item in records && !Unchanged(rows, edits[j].item)
            && edits[j].expectedVersion == VersionOf(rows, edits[j].item.id))
    && forall i | 0 <= i < |records| :: Unchanged(rows, records[i]) || Present(edits, records[i])
  }

  lemma PresentMore(edits: seq<ObjectEdit>, e: ObjectEdit)
    ensures forall item | Present(edits, item) || item == e.item :: Present(edits + [e], item)
  {
    forall item | Present(edits, item) || item == e.item
      ensures Present(edits + [e], item)
    {
      if item == e.item {
        assert (edits + [e])[|edits|].item == item;
      } else {
        var j :| 0 <= j < |edits| && edits[j].item == item;
        assert (edits + [e])[j].item == item;
      }
    }
  }

  lemma FreshId(records: seq<Item>, i: nat)
    requires DistinctItems(records) && i < |records|
    ensures forall item | item in records[..i] :: item.id != records[i].id
  {
  }

  lemma NoRecordEdits(rows: Rows)
    ensures RecordEdits(rows, [], [])
  {
  }

  lemma RecordEditsSkip(rows: Rows, records: seq<Item>, edits: seq<ObjectEdit>, item: Item)
    requires RecordEdits(rows, records, edits) && Unchanged(rows, item)
    ensures RecordEdits(rows, records + [item], edits)
  {
  }

  lemma RecordEditsMore(rows: Rows, records: seq<Item>, edits: seq<ObjectEdit>, item: Item)
    requires RecordEdits(rows, records, edits) && !Unchanged(rows, item) && forall r | r in records :: r.id != item.id
    ensures RecordEdits(rows, records + [item], edits + [ObjectEdit(item, VersionOf(rows, item.id))])
  {
    hide Unchanged, Present;
    PresentMore(edits, ObjectEdit(item, VersionOf(rows, item.id)));
  }

  lemma PlanStart(rows: Rows, records: seq<Item>, edits: seq<ObjectEdit>)
    requires RecordEdits(rows, records, edits)
    ensures Plan(rows, {}, records, edits)
  {
  }

  lemma PlanMore(rows: Rows, dropped: set<Uuid>, records: seq<Item>, edits: seq<ObjectEdit>, u: Uuid)
    requires Plan(rows, dropped, records, edits) && u !in dropped && u !in IdsOf(records) && u in rows
    ensures Plan(rows, dropped + {u}, records, edits + [ObjectEdit(Drop(u), rows[u].version)])
  {
    hide Unchanged, Present;
    PresentMore(edits, ObjectEdit(Drop(u), rows[u].version));
    forall j | 0 <= j < |edits|
      ensures edits[j].item.id != u
    {
      assert Planned(rows, dropped, records, edits[j]);
      if edits[j].item in records {
        var k :| 0 <= k < |records| && records[k] == edits[j].item;
        assert records[k].id in IdsOf(records);
      }
    }
  }

  lemma PlanWhole(rows: Rows, had: set<Uuid>, dropped: set<Uuid>, records: seq<Item>, edits: seq<ObjectEdit>)
    requires Plan(rows, dropped, records, edits) && dropped == had - IdsOf(records)
    ensures Plan(rows, had, records, edits)
  {
  }

  // ------------------------------------------------------------ lemmas of the writes

  lemma PlanDistinct(rows: Rows, had: set<Uuid>, records: seq<Item>, edits: seq<ObjectEdit>)
    requires Plan(rows, had, records, edits)
    ensures DistinctItems(ItemsOf(edits))
  {
  }

  lemma CompatibleDrops(rows: Rows, owner: Owners, n: Uuid, had: set<Uuid>, records: seq<Item>)
    ensures Compatible(rows, owner, n, had, records) ==> forall u | u in had - IdsOf(records) ::
              u in rows && rows[u].content.Some?
  {
    hide IsNull;
  }

  lemma NothingStored(rows: Rows, existing: Rows, records: seq<Item>)
    requires existing == map[] && forall u :: Get(existing, u) == if u in IdsOf(records) then Get(rows, u) else None
    ensures forall i | 0 <= i < |records| :: records[i].id !in rows
  {
    forall i | 0 <= i < |records|
      ensures records[i].id !in rows
    {
      assert records[i].id in IdsOf(records);
      assert Get(existing, records[i].id) == Get(rows, records[i].id);
    }
  }

  /** Only the rows under old and new identifiers decide what a save may do. */
  lemma PlanSameRows(rows: Rows, existing: Rows, n: Uuid, had: set<Uuid>, records: seq<Item>, edits: seq<ObjectEdit>)
    requires forall u :: Get(existing, u) == if u in had + IdsOf(records) then Get(rows, u) else None
    ensures forall i | 0 <= i < |records| :: Takes(rows, n, had, records[i]) <==> Takes(existing, n, had, records[i])
    ensures forall u | u in had :: (u in existing && existing[u].content.Some?) <==>
              (u in rows && rows[u].content.Some?)
    ensures Plan(existing, had, records, edits) ==> Plan(rows, had, records, edits)
  {
    hide DistinctItems, Present;
    forall i | 0 <= i < |records|
      ensures Get(existing, records[i].id) == Get(rows, records[i].id)
    {
      assert records[i].id in IdsOf(records);
    }
    forall u | u in had
      ensures (u in existing && existing[u].content.Some?) <==> (u in rows && rows[u].content.Some?)
    {
      assert Get(existing, u) == Get(rows, u);
    }
    if Plan(existing, had, records, edits) {
      forall j | 0 <= j < |edits|
        ensures Planned(rows, had, records, edits[j])
      {
        assert Planned(existing, had, records, edits[j]);
        assert edits[j].item in records ==> edits[j].item.id in IdsOf(records);
        assert Get(existing, edits[j].item.id) == Get(rows, edits[j].item.id);
      }
    }
  }

  /** If all planned edits were accepted, every former member could be dropped. */
  lemma PlanCompatible(rows: Rows, had: set<Uuid>, records: seq<Item>, edits: seq<ObjectEdit>)
    requires Plan(rows, had, records, edits)
    requires forall j | 0 <= j < |edits| :: Accepts(rows, edits[j].item, edits[j].expectedVersion)
    ensures forall u | u in had - IdsOf(records) :: Droppable(rows, u)
  {
    hide IsNull, DistinctItems;
    forall u | u in had - IdsOf(records)
      ensures Droppable(rows, u)
    {
      var j :| 0 <= j < |edits| && edits[j].item == Drop(u);
    }
  }

  /** Records of a network nobody has stored yet make a plan by themselves. */
  lemma FreshPlan(rows: Rows, owner: Owners, n: Uuid, records: seq<Item>)
    requires DistinctItems(records) && forall i | 0 <= i < |records| :: Writable(records[i]) && records[i].id !in rows
    requires forall u | u in IdsOf(records) && u in owner :: owner[u] == n
    ensures Compatible(rows, owner, n, {}, records)
    ensures AcceptedAll(rows, records) && Stored(rows, TouchAll(rows, records), {}, records)
  {
    hide IsNull, TouchAll, AcceptedAll, Stored, Writable, Accepts;
    var edits := seq(|records|, i requires 0 <= i < |records| => ObjectEdit(records[i], -1));
    assert ItemsOf(edits) == records;
    forall i | 0 <= i < |records|
      ensures Present(edits, records[i])
    {
      assert edits[i].item == records[i];
    }
    assert Plan(rows, {}, records, edits);
    PlanWrites(rows, n, {}, records, edits);
    PlanAccepted(rows, owner, n, {}, records, edits);
    AcceptedApart(rows, edits);
  }

  lemma BuiltRecords<Meta, Entity>(c: Codec<Meta, Entity>, net: Network<Meta, Entity>)
    requires |net.lists| == |c.kinds| && Buildable(c, net)
    ensures DistinctItems(Records(c, net)) && forall i | 0 <= i < |Records(c, net)| :: Writable(Records(c, net)[i])
  {
  }

  lemma {:induction false} DistinctCount(ids: seq<Uuid>)
    requires DistinctUuids(ids)
    ensures |set u | u in ids| == |ids|
  {
    if ids != [] {
      var front, last := ids[..|ids| - 1], ids[|ids| - 1];
      DistinctCount(front);
      assert ids == front + [last];
      assert (set u | u in ids) == (set u | u in front) + {last};
    }
  }

  lemma RecordsListed<Meta, Entity>(c: Codec<Meta, Entity>, net: Network<Meta, Entity>)
    requires |net.lists| == |c.kinds| && Buildable(c, net)
    ensures var records, members := Records(c, net), Referenced(IndexOf(c, net).lists);
            records != [] && records[0].id == net.id && DistinctItems(records) && |records| == |members| + 1
            && members == IdsOf(records) - {net.id}
  {
    hide AllItems, Flatten, DistinctItems, DistinctUuids, Writable;
    MembersAre(c, net);
    SavedForm.FlattenIds(c, net.lists);
    DistinctCount(Flatten(IndexOf(c, net).lists));
  }

  /** What the membership table says of a network is what its stored root says. */
  lemma SameMembers<Meta, Entity>(c: Codec<Meta, Entity>, rows: Rows, owner: Owners, n: Uuid, had: set<Uuid>)
    requires Registered(c, rows, owner) && FormerMembers(c, rows, n) == Some(had)
    ensures Handed(owner, owner, n, had)
  {
    hide Referenced;
    assert MembersOwned(c, rows, owner, n) && OwnedListed(c, rows, owner, n);
  }

  lemma NotOwned(rows: Rows, owner: Owners, records: seq<Item>)
    requires OwnersLive(rows, owner) && forall i | 0 <= i < |records| :: records[i].id !in rows
    ensures forall u | u in IdsOf(records) :: u !in owner
  {
  }

  lemma FreshHanded(rows: Rows, owner: Owners, records: seq<Item>, n: Uuid, members: set<Uuid>)
    requires OwnersLive(rows, owner) && n !in rows
    ensures Handed(owner, owner + map u | u in members :: n, n, members)
  {
  }

  lemma MembersFree(rows: Rows, owner: Owners, n: Uuid, had: set<Uuid>, records: seq<Item>, members: set<Uuid>)
    requires Compatible(rows, owner, n, had, records) && members <= IdsOf(records)
    ensures forall u | u in members && u in owner :: owner[u] == n
  {
    hide Takes, Droppable;
  }

  lemma FirstSave<Meta, Entity>(c: Codec<Meta, Entity>, net: Network<Meta, Entity>, base: Rows, saved: Head,
                                actor: Uuid, owner: Owners)
    requires |net.lists| == |c.kinds| && Buildable(c, net) && Sound(base, saved) && Registered(c, saved.rows, owner)
    requires var records := Records(c, net); AcceptedAll(saved.rows, records) && forall i | 0 <= i < |records| ::
               records[i].id !in saved.rows
    ensures var records := Records(c, net);
            && FreshlyJournaled(NextAll(saved, actor, records).events, net.id, saved.generation, records)
            && (forall u | u in IdsOf(records) :: u !in owner)
            && Handed(owner, owner + map u | u in IdsOf(records) - {net.id} ::
                      net.id, net.id, Referenced(IndexOf(c, net).lists))
  {
    hide Sound, Journaled, AcceptedAll, IndexOf, Referenced, IndexAt, Written, TouchAll, Handed, FreshlyJournaled,
      Grouped, Undoable;
    var records := Records(c, net);
    Parts(base, saved);
    JournalsAll(base, saved, actor, records);
    RecordsListed(c, net);
    BuiltRecords(c, net);
    FreshEvents(base, saved, actor, records, net.id);
    NotOwned(saved.rows, owner, records);
    assert records[0].id == net.id;
    FreshHanded(saved.rows, owner, records, net.id, Referenced(IndexOf(c, net).lists));
  }

  /** The events of a first save are one insertion for each record, in order. */
  lemma FreshEvents(base: Rows, saved: Head, actor: Uuid, records: seq<Item>, n: Uuid)
    requires Journaled(base, NextAll(saved, actor, records)) && saved.generation == |saved.events|
    requires records != [] && records[0].id == n && DistinctItems(records)
    requires forall i | 0 <= i < |records| :: records[i].id !in saved.rows && records[i].content.Some?
    ensures FreshlyJournaled(NextAll(saved, actor, records).events, n, saved.generation, records)
  {
    hide Journaled, TouchAll;
    var events := NextAll(saved, actor, records).events;
    SequencesCount(base, NextAll(saved, actor, records));
    forall i | saved.generation <= i < |events|
      ensures events[i].id == records[i - saved.generation].id && events[i].beforeVersion == -1 && events[i].after.Some?
    {
      var k := i - saved.generation;
      WrittenEvent(saved.rows, actor, saved.generation, records, k);
      TouchAllGrows(saved.rows, records[..k], records[k].id);
    }
  }

  /** Writing nothing changes nothing; writing something never removes a row. */
  lemma SavedRows(saved: Head, actor: Uuid, items: seq<Item>)
    ensures saved.rows.Keys <= NextAll(saved, actor, items).rows.Keys
    ensures items == [] <==> NextAll(saved, actor, items).generation == saved.generation
    ensures items == [] ==> NextAll(saved, actor, items) == saved
  {
    hide Written;
    forall u | u in saved.rows
      ensures u in TouchAll(saved.rows, items)
    {
      TouchAllGrows(saved.rows, items, u);
    }
    if items == [] {
      assert saved.events + Written(saved.rows, actor, saved.generation, items) == saved.events;
    }
  }

  lemma UnchangedHanded<Meta(!new),
      Entity(!new)>(c: Codec<Meta, Entity>, net: Network<Meta, Entity>, rows: Rows, had: set<Uuid>, owner: Owners)
    requires Lawful(c) && |net.lists| == |c.kinds| && Buildable(c, net) && Registered(c, rows, owner)
    requires FormerMembers(c, rows, net.id) == Some(had) && Stored(rows, rows, had, Records(c, net))
    ensures Handed(owner, owner, net.id, Referenced(IndexOf(c, net).lists))
    ensures IndexReads(c, IndexOf(c, net))
  {
    hide Lawful, Buildable, IndexAt, Referenced, NetworkAt, IndexOf;
    StoredReadsBack(c, net, rows, rows, had);
    assert Records(c, net)[0].id == net.id && Records(c, net)[0].content.Some?;
    SameMembers(c, rows, owner, net.id, had);
  }

  /** What a save that went through means for readers. */
  lemma SaveMeans<Meta(!new), Entity(!new)>(c: Codec<Meta, Entity>, net: Network<Meta, Entity>, rows: Rows, after: Rows,
                                            owner: Owners,
                                            owner': Owners, had: set<Uuid>)
    requires Lawful(c) && |net.lists| == |c.kinds| && Buildable(c, net)
    requires Registered(c, rows, owner) && FormerMembers(c, rows, net.id) == Some(had)
    requires Compatible(rows, owner, net.id, had, Records(c, net)) && Stored(rows, after, had, Records(c, net))
    requires rows.Keys <= after.Keys && Handed(owner, owner', net.id, Referenced(IndexOf(c, net).lists))
    ensures Registered(c, after, owner') && net.id in after
    ensures NetworkAt(c, after, net.id) == if ReadsBack(c, net) then Some(net) else None
    ensures forall m | m != net.id :: NetworkAt(c, after, m) == NetworkAt(c, rows, m)
  {
    hide Lawful, Registered, Compatible, Buildable, Handed, IndexOf, FormerMembers, Referenced, IndexAt, NetworkAt,
      AllItems;
    StillRegistered(c, net, rows, after, owner, owner', had);
    StoredReadsBack(c, net, rows, after, had);
    RecordKinds(c, net);
    assert Records(c, net)[0].id == net.id;
    forall m | m != net.id
      ensures NetworkAt(c, after, m) == NetworkAt(c, rows, m)
    {
      OthersStay(c, rows, after, owner, net.id, had, Records(c, net), m);
    }
  }

  lemma StillIndexed<Meta(!new),
      Entity(!new)>(c: Codec<Meta, Entity>, graph: Network<Meta, Entity> -> set<Bytes>, net: Network<Meta, Entity>,
                                               rows: Rows, after: Rows, refs: References, refs': References)
    requires Indexed(c, graph, rows, refs) && rows.Keys <= after.Keys && net.id in after
               && refs'.Keys <= refs.Keys + {net.id}
    requires NetworkAt(c, after, net.id).Some? ==> NetworkAt(c, after, net.id) == Some(net)
    requires forall m | m != net.id :: NetworkAt(c, after, m) == NetworkAt(c, rows, m)
    requires forall m :: ReferencesAt(refs', m) == if m == net.id then graph(net) else ReferencesAt(refs, m)
    ensures Indexed(c, graph, after, refs')
  {
    hide NetworkAt, ReferencesAt;
  }

  // --------------------------------------------------------- deriving the tables

  predicate IsRoot(rows: Rows, n: Uuid) {
    n in rows && rows[n].kind == ROOT_KIND && rows[n].content.Some?
  }

  ghost predicate Apart<Meta, Entity>(c: Codec<Meta, Entity>, rows: Rows, n: Uuid, m: Uuid) {
    IndexAt(c, rows, n).Some? && IndexAt(c, rows, m).Some? ==>
      Referenced(IndexAt(c, rows, n).value.lists) !! Referenced(IndexAt(c, rows, m).value.lists)
  }

  /** Every root loads, and no object is a member of two. */
  ghost predicate Rebuildable<Meta, Entity>(c: Codec<Meta, Entity>, rows: Rows) {
    && (forall n | IsRoot(rows, n) :: NetworkAt(c, rows, n).Some?)
    && forall n, m | IsRoot(rows, n) && IsRoot(rows, m) && n != m :: Apart(c, rows, n, m)
  }

  /** Every live network root can be loaded, and no two of them list the same object. */
  ghost predicate AllLoad<Meta, Entity>(c: Codec<Meta, Entity>, rows: Rows) {
    && (forall n | n in rows && rows[n].kind == Ascii("hydraulic.network") && rows[n].content.Some? ::
          SavedForm.Loads(c, rows, n))
    && forall n, m, u | SavedForm.Lists(c, rows, n, u) && SavedForm.Lists(c, rows, m, u)
                        && rows[n].kind == Ascii("hydraulic.network") == rows[m].kind :: n == m
  }

  lemma ApartIs<Meta, Entity>(c: Codec<Meta, Entity>, rows: Rows, n: Uuid, m: Uuid)
    requires NetworkAt(c, rows, n).Some? && NetworkAt(c, rows, m).Some?
    ensures Apart(c, rows, n, m) <==> forall u :: !(SavedForm.Lists(c, rows, n, u) && SavedForm.Lists(c, rows, m, u))
  {
    hide NetworkAt, Flatten;
    LoadedRoot(c, rows, n);
    LoadedRoot(c, rows, m);
    var a, b := IndexAt(c, rows, n).value.lists, IndexAt(c, rows, m).value.lists;
    forall u
      ensures u in Referenced(a) <==> SavedForm.Lists(c, rows, n, u)
      ensures u in Referenced(b) <==> SavedForm.Lists(c, rows, m, u)
    {
      SavedForm.Flattened(a, u);
      SavedForm.Flattened(b, u);
    }
  }

  lemma RebuildableIs<Meta, Entity>(c: Codec<Meta, Entity>, rows: Rows)
    ensures Rebuildable(c, rows) <==> AllLoad(c, rows)
  {
    hide NetworkAt, SavedForm.Loads, Apart;
    assert ROOT_KIND == Ascii("hydraulic.network");
    forall n
      ensures NetworkAt(c, rows, n).Some? <==> SavedForm.Loads(c, rows, n)
    {
      SavedForm.NetworkAtIs(c, rows, n);
    }
    if forall n | IsRoot(rows, n) :: NetworkAt(c, rows, n).Some? {
      forall n, m | IsRoot(rows, n) && IsRoot(rows, m) && n != m
        ensures Apart(c, rows, n, m) <==>
                forall u :: !(SavedForm.Lists(c, rows, n, u) && SavedForm.Lists(c, rows, m, u))
      {
        ApartIs(c, rows, n, m);
      }
      if Rebuildable(c, rows) {
        forall n, m, u | SavedForm.Lists(c, rows, n, u) && SavedForm.Lists(c, rows, m, u)
                         && rows[n].kind == Ascii("hydraulic.network") == rows[m].kind
          ensures n == m
        {
          assert IsRoot(rows, n) && IsRoot(rows, m) && (n != m ==> Apart(c, rows, n, m));
        }
      }
      if AllLoad(c, rows) {
        forall n, m | IsRoot(rows, n) && IsRoot(rows, m) && n != m
          ensures Apart(c, rows, n, m)
        {
          assert forall u | SavedForm.Lists(c, rows, n, u) && SavedForm.Lists(c, rows, m, u) :: n == m;
        }
      }
    }
  }

  lemma LoadedRoot<Meta, Entity>(c: Codec<Meta, Entity>, rows: Rows, n: Uuid)
    requires NetworkAt(c, rows, n).Some?
    ensures IndexAt(c, rows, n).Some? && IndexAt(c, rows, n) == c.decodeIndex(rows[n].content.value)
  {}

  /** The tables are those of the roots dealt with. */
  ghost predicate Derived<Meta, Entity>(c: Codec<Meta, Entity>, graph: Network<Meta, Entity> -> set<Bytes>, rows: Rows,
                                        owner: Owners,
                                        refs: References, done: set<Uuid>) {
    && (forall n | n in done ::
        IsRoot(rows, n) && NetworkAt(c, rows, n).Some?
        && ReferencesAt(refs, n) == graph(NetworkAt(c, rows, n).value)
                                && MembersOwned(c, rows, owner, n))
    && (forall u | u in owner :: owner[u] in done && u in rows && OwnedListed(c, rows, owner, owner[u]))
    && refs.Keys <= done
  }

  lemma NothingDerived<Meta, Entity>(c: Codec<Meta, Entity>, graph: Network<Meta, Entity> -> set<Bytes>, rows: Rows)
    ensures Derived(c, graph, rows, map[], map[], {})
  {
  }

  /** A network that loads has a root that can be read, and members that are there and are not roots. */
  lemma ReadableRoot<Meta(!new), Entity(!new)>(c: Codec<Meta, Entity>, rows: Rows, n: Uuid)
    requires Lawful(c) && NetworkAt(c, rows, n).Some?
    ensures IsRoot(rows, n) && IndexAt(c, rows, n).Some? && IndexAt(c, rows, n) == c.decodeIndex(rows[n].content.value)
    ensures forall u | u in Referenced(IndexAt(c, rows, n).value.lists) :: u in rows && rows[u].kind != ROOT_KIND
  {
    hide Flatten, DistinctUuids, IsNull, Lawful;
    LawfulKinds(c);
    var lists := IndexAt(c, rows, n).value.lists;
    MembersFound(c, lists, rows, |lists|);
    assert lists[..|lists|] == lists;
  }

  lemma {:induction false} MembersFound<Meta, Entity>(c: Codec<Meta, Entity>, lists: seq<seq<Uuid>>, rows: Rows, n: nat)
    requires n <= |lists| == |c.kinds| && forall k | 0 <= k < |c.kinds| :: c.kinds[k] != ROOT_KIND
    requires forall k, i | 0 <= k < |lists| && 0 <= i < |lists[k]| :: EntityAt(c, k, rows, lists[k][i]).Some?
    ensures forall u | u in Referenced(lists[..n]) :: u in rows && rows[u].kind != ROOT_KIND
  {
    if n > 0 {
      MembersFound(c, lists, rows, n - 1);
      ReferencedStep(lists, n - 1);
    }
  }

  lemma NotRebuildable<Meta(!new),
      Entity(!new)>(c: Codec<Meta, Entity>, graph: Network<Meta, Entity> -> set<Bytes>, rows: Rows,
                                                 owner: Owners, refs: References, done: set<Uuid>, n: Uuid)
    requires Derived(c, graph, rows, owner, refs, done) && IsRoot(rows, n) && n !in done
    requires NetworkAt(c, rows, n).None?
             || (IndexAt(c, rows, n).Some? && exists u ::
                 u in Referenced(IndexAt(c, rows, n).value.lists)
                 && u in owner)
    ensures !Rebuildable(c, rows)
  {
    hide IndexAt, Referenced, ReferencesAt;
    if NetworkAt(c, rows, n).Some? {
      var u :| u in Referenced(IndexAt(c, rows, n).value.lists) && u in owner;
      var m := owner[u];
      assert OwnedListed(c, rows, owner, m) && Get(owner, u) == Some(m);
      assert IndexAt(c, rows, m).Some?;
      assert !Apart(c, rows, n, m);
    }
  }

  lemma DerivedMore<Meta(!new), Entity(!new)>(c: Codec<Meta, Entity>, graph: Network<Meta, Entity> -> set<Bytes>,
                                              rows: Rows, owner: Owners,
                                              refs: References, done: set<Uuid>, n: Uuid)
    requires Lawful(c) && Derived(c, graph, rows, owner, refs, done) && IsRoot(rows, n) && n !in done
               && NetworkAt(c, rows, n).Some?
    requires IndexAt(c, rows, n).Some? && forall u | u in Referenced(IndexAt(c, rows, n).value.lists) :: u !in owner
    ensures var ids := Referenced(IndexAt(c, rows, n).value.lists);
            Derived(c, graph, rows, owner + map u | u in ids :: n, refs[n := graph(NetworkAt(c, rows, n).value)],
                    done + {n})
  {
    hide IndexAt, Referenced, NetworkAt;
    ReadableRoot(c, rows, n);
    var ids := Referenced(IndexAt(c, rows, n).value.lists);
    var owner', refs' := owner + map u | u in ids :: n, refs[n := graph(NetworkAt(c, rows, n).value)];
    forall m | m in done + {n}
      ensures MembersOwned(c, rows, owner', m) && ReferencesAt(refs', m) == graph(NetworkAt(c, rows, m).value)
    {
      assert m in done ==> MembersOwned(c, rows, owner, m);
    }
    forall u | u in owner'
      ensures owner'[u] in done + {n} && u in rows && OwnedListed(c, rows, owner', owner'[u])
    {
      if u in owner {
        var m := owner[u];
        assert OwnedListed(c, rows, owner, m);
        forall v | Get(owner', v) == Some(m)
          ensures Get(owner, v) == Some(m)
        {
        }
      } else {
        assert forall v | v in owner :: owner[v] != n;
        assert forall v | Get(owner', v) == Some(n) :: v in ids;
      }
    }
  }

  lemma DerivedAll<Meta(!new), Entity(!new)>(c: Codec<Meta, Entity>, graph: Network<Meta, Entity> -> set<Bytes>,
                                             rows: Rows, owner: Owners,
                                             refs: References, done: set<Uuid>)
    requires Lawful(c) && Derived(c, graph, rows, owner, refs, done) && done == set n | n in rows && IsRoot(rows, n)
    ensures Registered(c, rows, owner) && Indexed(c, graph, rows, refs) && Rebuildable(c, rows)
  {
    hide Referenced, ReferencesAt, Lawful, Restorable;
    forall n
      ensures MembersOwned(c, rows, owner, n) && OwnedListed(c, rows, owner, n)
    {
      if IndexAt(c, rows, n).Some? {
        assert n in done;
        assert OwnedListed(c, rows, owner, n) by {
          if u :| Get(owner, u) == Some(n) {
            assert OwnedListed(c, rows, owner, owner[u]);
          }
        }
      }
    }
    forall n, m | IsRoot(rows, n) && IsRoot(rows, m) && n != m
      ensures Apart(c, rows, n, m)
    {
      assert MembersOwned(c, rows, owner, n) && MembersOwned(c, rows, owner, m);
    }
    forall n | NetworkAt(c, rows, n).Some?
      ensures ReferencesAt(refs, n) == graph(NetworkAt(c, rows, n).value)
    {
      assert n in done;
    }
  }
}
