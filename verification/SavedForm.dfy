/** A network as rows, told entity by entity: what a save may write, what it leaves, and what a load finds. */
module SavedForm {
  import opened Prelude
  import opened Uuid
  import opened ModelRecord
  import opened Journal
  import opened UndoHistory
  import opened NetworkRecords

  /** Entity i of list k, under this identifier. */
  predicate Entry<Meta, Entity>(c: Codec<Meta, Entity>, net: Network<Meta, Entity>, k: int, i: int, u: Uuid) {
    0 <= k < |net.lists| && 0 <= i < |net.lists[k]| && c.idOf(net.lists[k][i]) == u
  }

  /** The identifier is that of some entity. */
  predicate Holds<Meta, Entity>(c: Codec<Meta, Entity>, net: Network<Meta, Entity>, u: Uuid) {
    exists k, i :: 0 <= k < |net.lists| && 0 <= i < |net.lists[k]| && c.idOf(net.lists[k][i]) == u
  }

  predicate Listing<Meta>(index: Index<Meta>, k: int, i: int, u: Uuid) {
    0 <= k < |index.lists| && 0 <= i < |index.lists[k]| && index.lists[k][i] == u
  }

  /** The live root stored under `n` lists the identifier. */
  predicate Lists<Meta, Entity>(c: Codec<Meta, Entity>, rows: Rows, n: Uuid, u: Uuid) {
    && n in rows && rows[n].content.Some? && c.decodeIndex(rows[n].content.value).Some?
    && var lists := c.decodeIndex(rows[n].content.value).value.lists;
    exists k, i :: 0 <= k < |lists| && 0 <= i < |lists[k]| && lists[k][i] == u
  }

  /** The root's octets: the metadata, and the identifiers of all entities, list by list. */
  function RootBytes<Meta, Entity>(c: Codec<Meta, Entity>, net: Network<Meta, Entity>): Bytes {
    c.encodeIndex(Index(net.id, net.meta,
                        seq<seq<Uuid>>(|net.lists|, k requires 0 <= k < |net.lists| =>
                          seq<Uuid>(|net.lists[k]|, i requires 0 <= i < |net.lists[k]| => c.idOf(net.lists[k][i])))))
  }

  /** Every identifier is set and used once, the network's own included, and everything encodes. */
  ghost predicate Encodable<Meta, Entity>(c: Codec<Meta, Entity>, net: Network<Meta, Entity>) {
    && net.id != UNSET && RootBytes(c, net) != []
    && (forall k, i, u | Entry(c, net, k, i, u) ::
          u != UNSET && u != net.id && k < |c.kinds| && c.encode(k, net.lists[k][i]) != [])
    && forall k, i, l, j, u | Entry(c, net, k, i, u) && Entry(c, net, l, j, u) :: k == l && i == j
  }

  /** Nothing live is stored under the identifier but a root of its own. */
  predicate RootFree<Meta, Entity>(c: Codec<Meta, Entity>, rows: Rows, n: Uuid) {
    n in rows && rows[n].content.Some? ==>
      && rows[n].kind == Ascii("hydraulic.network") && |rows[n].content.value| <= 0x1000_0000
      && c.decodeIndex(rows[n].content.value).Some? && c.decodeIndex(rows[n].content.value).value.id == n
  }

  /**
   The identifiers are the network's to write: nobody else owns one, a stored row
   has the kind that would be written and was listed by the network's own root, and
   what is no longer in the network is still there to be removed.
   */
  ghost predicate Takeable<Meta, Entity>(c: Codec<Meta, Entity>, rows: Rows, owner: map<Uuid, Uuid>,
                                         net: Network<Meta, Entity>) {
    && (forall u | u in owner && (u == net.id || Holds(c, net, u) || Lists(c, rows, net.id, u)) :: owner[u] == net.id)
    && (net.id in rows ==> rows[net.id].kind == Ascii("hydraulic.network"))
    && (forall k, i, u | Entry(c, net, k, i, u) && u in rows && k < |c.kinds| ::
          Lists(c, rows, net.id, u) && rows[u].kind == c.kinds[k])
    && forall u | Lists(c, rows, net.id, u) && u != net.id && !Holds(c, net, u) ::
         u != UNSET && u in rows && rows[u].content.Some?
  }

  /** The row of an object after it was given this content: a new version only if the content is new. */
  function Rewritten(rows: Rows, u: Uuid, kind: Bytes, content: Bytes): Row {
    Row(kind, Some(content),
        if u !in rows then 1 else if rows[u].content == Some(content) then rows[u].version else rows[u].version + 1)
  }

  /** The rows after a save: the root and every entity, a tombstone for each object it dropped, the others as before. */
  ghost predicate SavedOver<Meta, Entity>(c: Codec<Meta, Entity>, rows: Rows, after: Rows, net: Network<Meta, Entity>) {
    && Get(after, net.id) == Some(Rewritten(rows, net.id, Ascii("hydraulic.network"), RootBytes(c, net)))
    && (forall k, i, u | Entry(c, net, k, i, u) && k < |c.kinds| ::
          Get(after, u) == Some(Rewritten(rows, u, c.kinds[k], c.encode(k, net.lists[k][i]))))
    && (forall u | Lists(c, rows, net.id, u) && u != net.id && !Holds(c, net, u) && u in rows ::
          Get(after, u) == Some(Row(rows[u].kind, None, rows[u].version + 1)))
    && forall u | u != net.id && !Holds(c, net, u) && !Lists(c, rows, net.id, u) :: Get(after, u) == Get(rows, u)
  }

  /** The membership table after a save: the entities are the network's, what it dropped is nobody's. */
  ghost predicate OwnedAfter<Meta, Entity>(c: Codec<Meta, Entity>, owner: map<Uuid, Uuid>, after: map<Uuid, Uuid>,
                                           net: Network<Meta, Entity>) {
    forall u :: Get(after, u) ==
                if Holds(c, net, u) then Some(net.id)
                else if u in owner && owner[u] == net.id then None else Get(owner, u)
  }

  /** A member that can be restored: a live row of the kind of its list, holding an entity of its own identifier. */
  predicate Restores<Meta, Entity>(c: Codec<Meta, Entity>, rows: Rows, k: nat, u: Uuid)
    requires k < |c.kinds|
  {
    && u in rows && rows[u].kind == c.kinds[k] && rows[u].content.Some?
    && c.decode(k, rows[u].content.value).Some? && c.idOf(c.decode(k, rows[u].content.value).value) == u
  }

  /** A network can be loaded: its root is live and its own, and lists restorable members, each once. */
  ghost predicate Loads<Meta, Entity>(c: Codec<Meta, Entity>, rows: Rows, n: Uuid) {
    && n in rows && rows[n].content.Some? && RootFree(c, rows, n)
    && var index := c.decodeIndex(rows[n].content.value).value;
    && |index.lists| == |c.kinds|
    && (forall k, i, u | Listing(index, k, i, u) :: u != UNSET && u != n && Restores(c, rows, k, u))
    && forall k, i, l, j, u | Listing(index, k, i, u) && Listing(index, l, j, u) :: k == l && i == j
  }

  /** What is loaded: the root's metadata, and for every listed member the entity its row holds. */
  ghost predicate LoadedFrom<Meta, Entity>(c: Codec<Meta, Entity>, rows: Rows, n: Uuid, net: Network<Meta, Entity>)
    requires Loads(c, rows, n)
  {
    var index := c.decodeIndex(rows[n].content.value).value;
    && net.id == n && net.meta == index.meta && |net.lists| == |index.lists|
    && (forall k | 0 <= k < |net.lists| :: |net.lists[k]| == |index.lists[k]|)
    && forall k, i, u | Listing(index, k, i, u) :: c.decode(k, rows[u].content.value) == Some(net.lists[k][i])
  }

  // ---------------------------------------------------------- the lists, flattened

  lemma {:induction false} Flattened(lists: seq<seq<Uuid>>, u: Uuid)
    ensures u in Flatten(lists) <==> exists k, i :: 0 <= k < |lists| && 0 <= i < |lists[k]| && lists[k][i] == u
  {
    if lists != [] {
      var n := |lists| - 1;
      Flattened(lists[..n], u);
      if u in lists[n] { var i :| 0 <= i < |lists[n]| && lists[n][i] == u; }
      if k, i :| 0 <= k < n && 0 <= i < |lists[k]| && lists[k][i] == u {
        assert lists[..n][k][i] == u;
      }
    }
  }

  /** Each identifier has one place in the lists. */
  predicate Once(lists: seq<seq<Uuid>>) {
    forall k, i, l, j | 0 <= k < |lists| && 0 <= i < |lists[k]| && 0 <= l < |lists| && 0 <= j < |lists[l]|
                        && lists[k][i] == lists[l][j] :: k == l && i == j
  }

  /** No identifier appears twice in the flattened lists exactly when each has one place. */
  lemma {:induction false} FlatOnce(lists: seq<seq<Uuid>>)
    ensures DistinctUuids(Flatten(lists)) <==>
              Once(lists)
  {
    hide Flatten, DistinctUuids, Once;
    if lists == [] {
      NothingFlat();
    } else {
      var n := |lists| - 1;
      var front := lists[..n];
      FlatLast(lists);
      FlatOnce(front);
      DistinctParts(Flatten(front), lists[n]);
      LastOnce(lists);
    }
  }

  lemma NothingFlat()
    ensures Flatten([]) == [] && DistinctUuids([]) && Once([])
  {}

  lemma FlatLast(lists: seq<seq<Uuid>>)
    requires lists != []
    ensures Flatten(lists) == Flatten(lists[..|lists| - 1]) + lists[|lists| - 1]
  {}

  lemma LastOnce(lists: seq<seq<Uuid>>)
    requires lists != []
    ensures var last, ids := lists[|lists| - 1], Flatten(lists[..|lists| - 1]);
      Once(lists) <==> Once(lists[..|lists| - 1]) && DistinctUuids(last) && forall u | u in last :: u !in ids
  {
    var n := |lists| - 1;
    var front, last := lists[..n], lists[n];
    forall u
      ensures u in Flatten(front) <==> exists k, i :: 0 <= k < n && 0 <= i < |lists[k]| && lists[k][i] == u
    {
      Flattened(front, u);
    }
    hide Flatten;
    if Once(lists) {
      forall k, i, l, j | 0 <= k < n && 0 <= i < |front[k]| && 0 <= l < n && 0 <= j < |front[l]|
                          && front[k][i] == front[l][j]
        ensures k == l && i == j
      {
        assert lists[k][i] == lists[l][j];
      }
      forall i, j | 0 <= i < j < |last|
        ensures last[i] != last[j]
      {
        assert lists[n][i] == last[i] && lists[n][j] == last[j];
      }
      forall u | u in last
        ensures u !in Flatten(front)
      {
        var j :| 0 <= j < |last| && lists[n][j] == u;
      }
    }
    assert forall k, i | 0 <= k < n && 0 <= i < |lists[k]| :: lists[k][i] in Flatten(front);
    assert forall j | 0 <= j < |last| :: lists[n][j] in last;
    if Once(front) && DistinctUuids(last) && forall u | u in last :: u !in Flatten(front) {
      forall k, i, l, j | 0 <= k < |lists| && 0 <= i < |lists[k]| && 0 <= l < |lists| && 0 <= j < |lists[l]|
                          && lists[k][i] == lists[l][j]
        ensures k == l && i == j
      {
        if k < n && l < n {
          assert front[k][i] == front[l][j];
        } else if k == n && l == n {
          assert last[i] == last[j];
        }
      }
    }
  }

  // ------------------------------------------------------------------- what is saved

  lemma {:induction false} FlattenIds<Meta, Entity>(c: Codec<Meta, Entity>, lists: seq<seq<Entity>>)
    requires |lists| <= |c.kinds|
    ensures var ids := Flatten(IdLists(c, lists));
            |ids| == |AllItems(c, lists)| && forall i | 0 <= i < |ids| :: ids[i] == AllItems(c, lists)[i].id
  {
    if lists != [] {
      var n := |lists| - 1;
      FlattenIds(c, lists[..n]);
      assert IdLists(c, lists)[..n] == IdLists(c, lists[..n]);
    }
  }

  /** Where an entity's record stands. */
  lemma RecordOf<Meta, Entity>(c: Codec<Meta, Entity>, net: Network<Meta, Entity>, k: nat, i: nat) returns (r: nat)
    requires |net.lists| == |c.kinds| && k < |net.lists| && i < |net.lists[k]|
    ensures r < |Records(c, net)|
    ensures Records(c, net)[r] == Item(c.idOf(net.lists[k][i]), c.kinds[k], Some(c.encode(k, net.lists[k][i])))
  {
    AllItemsPrefix(c, net.lists, k, i);
    var front := AllItems(c, net.lists[..k]) + ListItems(c, k, net.lists[k][..i + 1]);
    r := |front|;
    assert Records(c, net)[r] == AllItems(c, net.lists)[r - 1] == front[r - 1];
  }

  function ItemOf<Meta, Entity>(c: Codec<Meta, Entity>, k: nat, e: Entity): Item
    requires k < |c.kinds|
  {
    Item(c.idOf(e), c.kinds[k], Some(c.encode(k, e)))
  }

  /** The records are those of the entities. */
  lemma {:induction false} ItemsAre<Meta, Entity>(c: Codec<Meta, Entity>, lists: seq<seq<Entity>>, item: Item)
    requires |lists| <= |c.kinds|
    ensures item in AllItems(c, lists) <==>
              exists k, i :: 0 <= k < |lists| && 0 <= i < |lists[k]| && item == ItemOf(c, k, lists[k][i])
  {
    if lists != [] {
      var n := |lists| - 1;
      ItemsAre(c, lists[..n], item);
      if item in ListItems(c, n, lists[n]) {
        var i :| 0 <= i < |lists[n]| && ListItems(c, n, lists[n])[i] == item;
        assert item == ItemOf(c, n, lists[n][i]);
      }
      if k, i :| 0 <= k < |lists| && 0 <= i < |lists[k]| && item == ItemOf(c, k, lists[k][i]) {
        if k < n {
          assert lists[..n][k] == lists[k];
        } else {
          assert ListItems(c, n, lists[n])[i] == item;
        }
      }
    }
  }

  lemma IndexBytes<Meta, Entity>(c: Codec<Meta, Entity>, net: Network<Meta, Entity>)
    ensures c.encodeIndex(IndexOf(c, net)) == RootBytes(c, net)
  {
    var lists := seq<seq<Uuid>>(|net.lists|, k requires 0 <= k < |net.lists| =>
      seq<Uuid>(|net.lists[k]|, i requires 0 <= i < |net.lists[k]| => c.idOf(net.lists[k][i])));
    forall k | 0 <= k < |net.lists|
      ensures lists[k] == IdLists(c, net.lists)[k]
    {}
    assert lists == IdLists(c, net.lists);
  }

  lemma DistinctIs(records: seq<Item>, n: Uuid, ids: seq<Uuid>)
    requires |records| == |ids| + 1 && records[0].id == n && forall i | 0 <= i < |ids| :: ids[i] == records[i + 1].id
    ensures DistinctItems(records) <==> n !in ids && DistinctUuids(ids)
  {
    if DistinctItems(records) {
      forall i, j | 0 <= i < j < |ids|
        ensures ids[i] != ids[j]
      {
        assert records[i + 1].id != records[j + 1].id;
      }
      forall i | 0 <= i < |ids|
        ensures ids[i] != n
      {
        assert records[0].id != records[i + 1].id;
      }
    }
    if n !in ids && DistinctUuids(ids) {
      forall i, j | 0 <= i < j < |records|
        ensures records[i].id != records[j].id
      {
        assert ids[j - 1] == records[j].id;
        if i > 0 { assert ids[i - 1] != ids[j - 1]; }
      }
    }
  }

  /** The identifiers of a network: those of its entities, each in one place if they are distinct. */
  lemma IdsAre<Meta, Entity>(c: Codec<Meta, Entity>, net: Network<Meta, Entity>)
    ensures forall u :: u in Flatten(IdLists(c, net.lists)) <==> Holds(c, net, u)
    ensures DistinctUuids(Flatten(IdLists(c, net.lists))) <==>
              forall k, i, l, j, u | Entry(c, net, k, i, u) && Entry(c, net, l, j, u) :: k == l && i == j
  {
    hide Flatten, DistinctUuids;
    var lists := IdLists(c, net.lists);
    forall u
      ensures u in Flatten(lists) <==> Holds(c, net, u)
    {
      Flattened(lists, u);
      if k, i :| 0 <= k < |lists| && 0 <= i < |lists[k]| && lists[k][i] == u {
        assert c.idOf(net.lists[k][i]) == u;
      }
      if k, i :| 0 <= k < |net.lists| && 0 <= i < |net.lists[k]| && c.idOf(net.lists[k][i]) == u {
        assert lists[k][i] == u;
      }
    }
    FlatOnce(lists);
    if Once(lists) {
      forall k, i, l, j, u | Entry(c, net, k, i, u) && Entry(c, net, l, j, u)
        ensures k == l && i == j
      {
        assert lists[k][i] == u == lists[l][j];
      }
    }
    if forall k, i, l, j, u | Entry(c, net, k, i, u) && Entry(c, net, l, j, u) :: k == l && i == j {
      forall k, i, l, j | 0 <= k < |lists| && 0 <= i < |lists[k]| && 0 <= l < |lists| && 0 <= j < |lists[l]|
                          && lists[k][i] == lists[l][j]
        ensures k == l && i == j
      {
        assert Entry(c, net, k, i, lists[k][i]) && Entry(c, net, l, j, lists[k][i]);
      }
    }
  }

  /** The records can be written exactly for an encodable network. */
  lemma BuildableIs<Meta, Entity>(c: Codec<Meta, Entity>, net: Network<Meta, Entity>)
    requires |net.lists| == |c.kinds|
    ensures Buildable(c, net) <==> Encodable(c, net)
  {
    hide Flatten, DistinctUuids, DistinctItems, AllItems, IsNull, RootBytes, IndexOf;
    var records, ids := Records(c, net), Flatten(IdLists(c, net.lists));
    FlattenIds(c, net.lists);
    IdsAre(c, net);
    IndexBytes(c, net);
    DistinctIs(records, net.id, ids);
    NullIsUnset(net.id);
    assert (forall r | 0 <= r < |records| :: Writable(records[r])) <==>
           net.id != UNSET && RootBytes(c, net) != [] && forall item | item in AllItems(c, net.lists) :: Writable(item);
    forall k, i, u | Entry(c, net, k, i, u)
      ensures Writable(ItemOf(c, k, net.lists[k][i])) <==> u != UNSET && c.encode(k, net.lists[k][i]) != []
      ensures ItemOf(c, k, net.lists[k][i]) in AllItems(c, net.lists)
    {
      NullIsUnset(u);
      ItemsAre(c, net.lists, ItemOf(c, k, net.lists[k][i]));
    }
    forall item | item in AllItems(c, net.lists)
      ensures exists k, i :: 0 <= k < |net.lists| && 0 <= i < |net.lists[k]| && item == ItemOf(c, k, net.lists[k][i])
    {
      ItemsAre(c, net.lists, item);
    }
    if Encodable(c, net) {
      forall item | item in AllItems(c, net.lists)
        ensures Writable(item)
      {
        var k, i :| 0 <= k < |net.lists| && 0 <= i < |net.lists[k]| && item == ItemOf(c, k, net.lists[k][i]);
        assert Entry(c, net, k, i, item.id);
      }
      assert forall k, i | 0 <= k < |net.lists| && 0 <= i < |net.lists[k]| ::
        Entry(c, net, k, i, c.idOf(net.lists[k][i]));
    }
    if Buildable(c, net) {
      forall k, i, u | Entry(c, net, k, i, u)
        ensures u != UNSET && u != net.id && c.encode(k, net.lists[k][i]) != []
      {
        assert Holds(c, net, u);
      }
    }
  }

  // ------------------------------------------------------------------ what is loaded

  lemma RestorableIs<Meta, Entity>(c: Codec<Meta, Entity>, rows: Rows, index: Index<Meta>)
    requires |index.lists| == |c.kinds|
    ensures Restorable(c, index, rows) <==>
              && (forall k, i, u | Listing(index, k, i, u) :: u != UNSET && u != index.id && Restores(c, rows, k, u))
              && forall k, i, l, j, u | Listing(index, k, i, u) && Listing(index, l, j, u) :: k == l && i == j
  {
    hide Flatten, DistinctUuids, IsNull;
    var lists, ids := index.lists, Flatten(index.lists);
    FlatOnce(lists);
    forall u
      ensures u in ids <==> exists k, i :: 0 <= k < |lists| && 0 <= i < |lists[k]| && lists[k][i] == u
      ensures IsNull(u) <==> u == UNSET
    {
      Flattened(lists, u);
      NullIsUnset(u);
    }
    assert (forall i | 0 <= i < |ids| :: !IsNull(ids[i]) && ids[i] != index.id) <==>
           forall u | u in ids :: u != UNSET && u != index.id;
    if Once(lists) {
      forall k, i, l, j, u | Listing(index, k, i, u) && Listing(index, l, j, u)
        ensures k == l && i == j
      {
        assert lists[k][i] == lists[l][j];
      }
    }
    if forall k, i, l, j, u | Listing(index, k, i, u) && Listing(index, l, j, u) :: k == l && i == j {
      forall k, i, l, j | 0 <= k < |lists| && 0 <= i < |lists[k]| && 0 <= l < |lists| && 0 <= j < |lists[l]|
                          && lists[k][i] == lists[l][j]
        ensures k == l && i == j
      {
        assert Listing(index, k, i, lists[k][i]) && Listing(index, l, j, lists[k][i]);
      }
    }
    if Restorable(c, index, rows) {
      forall k, i, u | Listing(index, k, i, u)
        ensures u != UNSET && u != index.id && Restores(c, rows, k, u)
      {
        assert u in ids;
        assert EntityAt(c, k, rows, lists[k][i]).Some?;
      }
    }
    if forall k, i, u | Listing(index, k, i, u) :: u != UNSET && u != index.id && Restores(c, rows, k, u) {
      forall u | u in ids
        ensures u != UNSET && u != index.id
      {
        var k, i :| 0 <= k < |lists| && 0 <= i < |lists[k]| && lists[k][i] == u;
        assert Listing(index, k, i, u);
      }
      forall k, i | 0 <= k < |lists| && 0 <= i < |lists[k]|
        ensures EntityAt(c, k, rows, lists[k][i]).Some?
      {
        assert Listing(index, k, i, lists[k][i]);
      }
    }
  }

  /** What a load finds under an identifier: a network exactly when one can be loaded, with every entity as stored. */
  lemma NetworkAtIs<Meta, Entity>(c: Codec<Meta, Entity>, rows: Rows, n: Uuid)
    ensures NetworkAt(c, rows, n).Some? <==> Loads(c, rows, n)
    ensures NetworkAt(c, rows, n).Some? ==> LoadedFrom(c, rows, n, NetworkAt(c, rows, n).value)
  {
    hide Restorable;
    assert ROOT_KIND == Ascii("hydraulic.network");
    var index := IndexAt(c, rows, n);
    if index.Some? && |index.value.lists| == |c.kinds| {
      RestorableIs(c, rows, index.value);
    }
  }
}
