/** A typed network as model objects: a root that lists its members by kind, and one object for each member. */
module NetworkRecords {
  import opened Prelude
  import opened Uuid
  import opened ModelRecord
  import opened Journal
  import opened UndoHistory

  // "hydraulic.network"
  const ROOT_KIND: Bytes := [104, 121, 100, 114, 97, 117, 108, 105, 99, 46, 110, 101, 116, 119, 111, 114, 107]

  const MAX_INDEX: nat := 256 * 1024 * 1024
  const MAX_CONTENT: nat := 256 * 1024 * 1024
  const MAX_LIST: nat := 1000000

  /** The entity lists, one for each kind in a fixed order. */
  datatype Network<Meta, Entity> = Network(id: Uuid, meta: Meta, lists: seq<seq<Entity>>)

  datatype Index<Meta> = Index(id: Uuid, meta: Meta, lists: seq<seq<Uuid>>)

  /**
   The kind of each list, and how its entities and the root are written; an empty
   result is a failure. `longest` and `longestMeta` tell the length of the longest
   list inside an entity and inside a root's metadata.
   */
  datatype Codec<!Meta, !Entity> = Codec(kinds: seq<Bytes>, idOf: Entity -> Uuid,
                                         encode: (nat, Entity) -> Bytes, decode: (nat, Bytes) -> Option<Entity>,
                                         encodeIndex: Index<Meta> -> Bytes, decodeIndex: Bytes -> Option<Index<Meta>>,
                                         longest: Entity -> nat, longestMeta: Meta -> nat)

  /** The writer has no limits; the reader refuses long encodings and long lists. */
  predicate EntityReads<Meta, Entity>(c: Codec<Meta, Entity>, k: nat, e: Entity) {
    |c.encode(k, e)| <= MAX_CONTENT && c.longest(e) <= MAX_LIST
  }

  predicate IndexReads<Meta, Entity>(c: Codec<Meta, Entity>, i: Index<Meta>) {
    |c.encodeIndex(i)| <= MAX_INDEX && c.longestMeta(i.meta) <= MAX_LIST
  }

  /** What the codecs promise: what was written reads back, unless the reader refuses its length. */
  ghost predicate Lawful<Meta(!new), Entity(!new)>(c: Codec<Meta, Entity>) {
    && (forall k | 0 <= k < |c.kinds| :: c.kinds[k] != ROOT_KIND)
    && (forall k: nat, e | k < |c.kinds| && c.encode(k, e) != [] ::
          c.decode(k, c.encode(k, e)) == if EntityReads(c, k, e) then Some(e) else None)
    && (forall i: Index<Meta> | |i.lists| == |c.kinds| && c.encodeIndex(i) != [] ::
          c.decodeIndex(c.encodeIndex(i)) == if IndexReads(c, i) then Some(i) else None)
    && (forall b | c.decodeIndex(b).Some? :: |c.decodeIndex(b).value.lists| == |c.kinds|)
  }

  // -------------------------------------------------------------------- building

  function ListItems<Meta, Entity>(c: Codec<Meta, Entity>, k: nat, list: seq<Entity>): (items: seq<Item>)
    requires k < |c.kinds|
    ensures |items| == |list|
  {
    seq(|list|, i requires 0 <= i < |list| => Item(c.idOf(list[i]), c.kinds[k], Some(c.encode(k, list[i]))))
  }

  function AllItems<Meta, Entity>(c: Codec<Meta, Entity>, lists: seq<seq<Entity>>): seq<Item>
    requires |lists| <= |c.kinds|
  {
    if lists == [] then [] else
      var n := |lists| - 1;
      AllItems(c, lists[..n]) + ListItems(c, n, lists[n])
  }

  function ListIds<Meta, Entity>(c: Codec<Meta, Entity>, list: seq<Entity>): (ids: seq<Uuid>)
    ensures |ids| == |list|
  {
    seq<Uuid>(|list|, i requires 0 <= i < |list| => c.idOf(list[i]))
  }

  function IndexOf<Meta, Entity>(c: Codec<Meta, Entity>, net: Network<Meta, Entity>): Index<Meta> {
    Index(net.id, net.meta, IdLists(c, net.lists))
  }

  function IdLists<Meta, Entity>(c: Codec<Meta, Entity>, lists: seq<seq<Entity>>): (ids: seq<seq<Uuid>>)
    ensures |ids| == |lists|
  {
    seq<seq<Uuid>>(|lists|, k requires 0 <= k < |lists| => ListIds(c, lists[k]))
  }

  function Flatten(lists: seq<seq<Uuid>>): seq<Uuid> {
    if lists == [] then [] else Flatten(lists[..|lists| - 1]) + lists[|lists| - 1]
  }

  /** The members an index refers to. */
  function Referenced(lists: seq<seq<Uuid>>): set<Uuid> {
    set u | u in Flatten(lists)
  }

  /** The root first, then every entity in the order of the lists. */
  function Records<Meta, Entity>(c: Codec<Meta, Entity>, net: Network<Meta, Entity>): seq<Item>
    requires |net.lists| == |c.kinds|
  {
    [Item(net.id, ROOT_KIND, Some(c.encodeIndex(IndexOf(c, net))))] + AllItems(c, net.lists)
  }

  predicate Writable(item: Item) {
    !IsNull(item.id) && item.content.Some? && item.content.value != []
  }

  /** All identifiers are set and differ, the root's included, and everything encodes. */
  predicate Buildable<Meta, Entity>(c: Codec<Meta, Entity>, net: Network<Meta, Entity>)
    requires |net.lists| == |c.kinds|
  {
    var items := Records(c, net);
    DistinctItems(items) && forall i | 0 <= i < |items| :: Writable(items[i])
  }

  /** The reader accepts the root and every entity of the network. */
  predicate ReadsBack<Meta, Entity>(c: Codec<Meta, Entity>, net: Network<Meta, Entity>)
    requires |net.lists| == |c.kinds|
  {
    IndexReads(c, IndexOf(c, net))
    && forall k, i | 0 <= k < |net.lists| && 0 <= i < |net.lists[k]| :: EntityReads(c, k, net.lists[k][i])
  }

  lemma {:induction false} AllItemsPrefix<Meta, Entity>(c: Codec<Meta, Entity>, lists: seq<seq<Entity>>, k: nat, i: nat)
    requires |lists| <= |c.kinds| && k < |lists| && i < |lists[k]|
    ensures AllItems(c, lists[..k]) + ListItems(c, k, lists[k][..i + 1]) <= AllItems(c, lists)
    decreases |lists|
  {
    var n := |lists| - 1;
    if k == n {
      assert ListItems(c, k, lists[k][..i + 1]) == ListItems(c, k, lists[k])[..i + 1];
    } else {
      AllItemsPrefix(c, lists[..n], k, i);
      assert lists[..n][..k] == lists[..k] && lists[..n][k] == lists[k];
    }
  }

  /** One of the entity lists: its identifiers and records, unless one is null, repeated or does not encode. */
  method BuildList<Meta, Entity>(c: Codec<Meta, Entity>, net: Network<Meta, Entity>, k: nat, had: seq<Item>,
                                 before: set<Uuid>)
    returns (ok: bool, ids: seq<Uuid>, items: seq<Item>, used: set<Uuid>)
    requires |net.lists| == |c.kinds| && k < |net.lists|
    requires had == AllItems(c, net.lists[..k]) && Sofar(net.id, had, before)
    ensures ok ==>
              items == had + ListItems(c, k, net.lists[k]) && ids == ListIds(c, net.lists[k])
              && Sofar(net.id, items, used)
    ensures !ok ==> !Buildable(c, net)
  {
    hide IsNull, Sofar, DistinctItems, AllItems;
    ok, ids, items, used := false, [], had, before;
    for i := 0 to |net.lists[k]|
      invariant items == had + ListItems(c, k, net.lists[k][..i])
      invariant ids == ListIds(c, net.lists[k])[..i]
      invariant Sofar(net.id, items, used)
    {
      var entity := net.lists[k][i];
      var item := Item(c.idOf(entity), c.kinds[k], Some(c.encode(k, entity)));
      assert ListItems(c, k, net.lists[k][..i + 1]) == ListItems(c, k, net.lists[k][..i]) + [item];
      if IsNull(item.id) || item.id in used || item.content.value == [] {
        AllItemsPrefix(c, net.lists, k, i);
        NotBuildable(Records(c, net)[0], items, item, used, AllItems(c, net.lists));
        return;
      }
      SofarMore(net.id, items, used, item);
      used := used + {item.id};
      ids := ids + [item.id];
      items := items + [item];
    }
    assert net.lists[k][..|net.lists[k]|] == net.lists[k];
    ok := true;
  }

  method BuildRecords<Meta, Entity>(c: Codec<Meta, Entity>, net: Network<Meta, Entity>)
    returns (r: Option<(Index<Meta>, seq<Item>)>)
    requires |net.lists| == |c.kinds|
    ensures r == if Buildable(c, net) then Some((IndexOf(c, net), Records(c, net))) else None
  {
    hide IsNull, DistinctItems, ListIds, ListItems;
    ghost var root := Item(net.id, ROOT_KIND, Some(c.encodeIndex(IndexOf(c, net))));
    assert Records(c, net)[0] == root;
    if IsNull(net.id) {
      return None;
    }
    var used := {net.id};
    var lists: seq<seq<Uuid>> := [];
    var items: seq<Item> := [];
    NothingSofar(net.id);
    for k := 0 to |net.lists|
      invariant items == AllItems(c, net.lists[..k])
      invariant lists == IndexOf(c, net).lists[..k]
      invariant Sofar(net.id, items, used)
    {
      hide Sofar, Buildable;
      var ok, ids;
      ok, ids, items, used := BuildList(c, net, k, items, used);
      if !ok {
        return None;
      }
      assert net.lists[..k + 1][..k] == net.lists[..k] && net.lists[..k + 1][k] == net.lists[k];
      lists := lists + [ids];
    }
    assert net.lists[..|net.lists|] == net.lists;
    var index := Index(net.id, net.meta, lists);
    assert index == IndexOf(c, net);
    var content := c.encodeIndex(index);
    if content == [] {
      return None;
    }
    SofarDistinct(root, items, used);
    r := Some((index, [Item(net.id, ROOT_KIND, Some(content))] + items));
  }

  lemma NothingSofar(id: Uuid)
    ensures Sofar(id, [], {id})
  {
  }

  /** The records built so far, and the identifiers they and the root use. */
  ghost predicate Sofar(id: Uuid, items: seq<Item>, used: set<Uuid>) {
    && id in used && DistinctItems(items)
    && (forall i | 0 <= i < |items| :: Writable(items[i]) && items[i].id in used && items[i].id != id)
    && forall u | u in used :: u == id || exists i :: 0 <= i < |items| && items[i].id == u
  }

  lemma SofarMore(id: Uuid, items: seq<Item>, used: set<Uuid>, item: Item)
    requires Sofar(id, items, used) && Writable(item) && item.id !in used
    ensures Sofar(id, items + [item], used + {item.id})
  {
    hide Writable;
    var more := items + [item];
    forall u | u in used + {item.id} && u != id
      ensures exists i :: 0 <= i < |more| && more[i].id == u
    {
      if u in used {
        var i :| 0 <= i < |items| && items[i].id == u;
        assert more[i].id == u;
      } else {
        assert more[|items|].id == u;
      }
    }
  }

  lemma NotBuildable(root: Item, items: seq<Item>, item: Item, used: set<Uuid>, all: seq<Item>)
    requires Sofar(root.id, items, used) && items + [item] <= all
    requires IsNull(item.id) || item.id in used || item.content == Some([])
    ensures !(DistinctItems([root] + all) && forall i | 0 <= i < |[root] + all| :: Writable(([root] + all)[i]))
  {
    hide IsNull;
    var whole := [root] + all;
    var n := |items|;
    assert whole[n + 1] == (items + [item])[n] == item;
    if item.id in used {
      if item.id == root.id {
        assert whole[0].id == whole[n + 1].id;
      } else {
        var i :| 0 <= i < n && items[i].id == item.id;
        assert whole[i + 1] == (items + [item])[i] == items[i];
      }
    }
  }

  lemma SofarDistinct(root: Item, items: seq<Item>, used: set<Uuid>)
    requires Sofar(root.id, items, used) && Writable(root)
    ensures DistinctItems([root] + items) && forall i | 0 <= i < |[root] + items| :: Writable(([root] + items)[i])
  {
    hide Writable;
    var whole := [root] + items;
    forall i, j | 0 <= i < j < |whole|
      ensures whole[i].id != whole[j].id
    {
      assert whole[j] == items[j - 1] && (i > 0 ==> whole[i] == items[i - 1]);
    }
  }

  // --------------------------------------------------------------------- loading

  function IndexAt<Meta, Entity>(c: Codec<Meta, Entity>, rows: Rows, n: Uuid): Option<Index<Meta>> {
    if n !in rows || rows[n].kind != ROOT_KIND || rows[n].content.None? || |rows[n].content.value| > MAX_INDEX then None
    else
      var index := c.decodeIndex(rows[n].content.value);
      if index.None? || index.value.id != n then None else index
  }

  function EntityAt<Meta, Entity>(c: Codec<Meta, Entity>, k: nat, rows: Rows, u: Uuid): Option<Entity>
    requires k < |c.kinds|
  {
    if u !in rows || rows[u].content.None? || rows[u].kind != c.kinds[k] then None
    else
      var decoded := c.decode(k, rows[u].content.value);
      if decoded.None? || c.idOf(decoded.value) != u then None else decoded
  }

  predicate DistinctUuids(ids: seq<Uuid>) {
    forall i, j | 0 <= i < j < |ids| :: ids[i] != ids[j]
  }

  /** Every listed member is there, alive, of the kind of its list, and listed once. */
  predicate Restorable<Meta, Entity>(c: Codec<Meta, Entity>, index: Index<Meta>, rows: Rows)
    requires |index.lists| == |c.kinds|
  {
    var ids := Flatten(index.lists);
    && DistinctUuids(ids) && (forall i | 0 <= i < |ids| :: !IsNull(ids[i]) && ids[i] != index.id)
    && forall k, i | 0 <= k < |index.lists| && 0 <= i < |index.lists[k]| ::
         EntityAt(c, k, rows, index.lists[k][i]).Some?
  }

  /** What a reader of the rows finds under a network identifier. */
  function NetworkAt<Meta, Entity>(c: Codec<Meta, Entity>, rows: Rows, n: Uuid): Option<Network<Meta, Entity>> {
    var index := IndexAt(c, rows, n);
    if index.None? || |index.value.lists| != |c.kinds| || !Restorable(c, index.value, rows) then None
    else
      var lists := index.value.lists;
      Some(Network(n, index.value.meta,
                   seq(|lists|, k requires 0 <= k < |lists| =>
                     seq(|lists[k]|, i requires 0 <= i < |lists[k]| => EntityAt(c, k, rows, lists[k][i]).value))))
  }

  lemma {:induction false} FlattenAt(lists: seq<seq<Uuid>>, k: nat, i: nat) returns (j: nat)
    requires k < |lists| && i < |lists[k]|
    ensures |Flatten(lists[..k])| + i == j < |Flatten(lists)| && Flatten(lists)[j] == lists[k][i]
    decreases |lists|
  {
    var n := |lists| - 1;
    if k < n {
      j := FlattenAt(lists[..n], k, i);
      assert lists[..n][..k] == lists[..k];
    } else {
      j := |Flatten(lists[..k])| + i;
    }
  }

  /** Restores one list; identifiers already seen are refused. */
  method RestoreList<Meta, Entity>(c: Codec<Meta, Entity>, k: nat, ids: seq<Uuid>, fetched: Rows, seen: set<Uuid>)
    returns (r: Option<seq<Entity>>, seen': set<Uuid>)
    requires k < |c.kinds|
    ensures r.Some? <==> DistinctUuids(ids) && forall i | 0 <= i < |ids| ::
                           !IsNull(ids[i]) && ids[i] !in seen && EntityAt(c, k, fetched, ids[i]).Some?
    ensures r.Some? ==> |r.value| == |ids| && forall i | 0 <= i < |ids| ::
              r.value[i] == EntityAt(c, k, fetched, ids[i]).value
    ensures r.Some? ==> seen' == seen + set u | u in ids
  {
    hide IsNull;
    seen' := seen;
    var entities: seq<Entity> := [];
    for i := 0 to |ids|
      invariant |entities| == i && seen' == seen + (set u | u in ids[..i]) && DistinctUuids(ids[..i])
      invariant forall j | 0 <= j < i :: !IsNull(ids[j]) && ids[j] !in seen && EntityAt(c, k, fetched, ids[j]).Some?
                                         && entities[j] == EntityAt(c, k, fetched, ids[j]).value
    {
      var u := ids[i];
      assert u in ids[..i] <==> exists j | 0 <= j < i :: ids[j] == u;
      if IsNull(u) || u in seen' || u !in fetched {
        return None, seen';
      }
      seen' := seen' + {u};
      assert ids[..i + 1] == ids[..i] + [u];
      var row := fetched[u];
      if row.content.None? || row.kind != c.kinds[k] {
        return None, seen';
      }
      var decoded := c.decode(k, row.content.value);
      if decoded.None? || c.idOf(decoded.value) != u {
        return None, seen';
      }
      entities := entities + [decoded.value];
    }
    assert ids[..|ids|] == ids;
    r := Some(entities);
  }

  lemma DistinctParts(front: seq<Uuid>, last: seq<Uuid>)
    ensures DistinctUuids(front + last) <==> DistinctUuids(front) && DistinctUuids(last) && forall u | u in last ::
              u !in front
  {
    var all := front + last;
    if DistinctUuids(all) {
      forall i, j | 0 <= i < j < |last|
        ensures last[i] != last[j]
      {
        assert all[|front| + i] != all[|front| + j];
      }
      forall i, j | 0 <= i < j < |front|
        ensures front[i] != front[j]
      {
        assert all[i] != all[j];
      }
      forall i, j | 0 <= i < |front| && 0 <= j < |last|
        ensures front[i] != last[j]
      {
        assert all[i] != all[|front| + j];
      }
    } else {
      var i, j :| 0 <= i < j < |all| && all[i] == all[j];
      if i >= |front| {
        assert last[i - |front|] == last[j - |front|];
      } else if j < |front| {
        assert front[i] == front[j];
      } else {
        assert last[j - |front|] in front;
      }
    }
  }

  /** The part of `Restorable` about the first lists. */
  ghost predicate RestorableTo<Meta, Entity>(c: Codec<Meta, Entity>, index: Index<Meta>, rows: Rows, n: nat)
    requires n <= |index.lists| == |c.kinds|
  {
    var ids := Flatten(index.lists[..n]);
    && DistinctUuids(ids) && (forall i | 0 <= i < |ids| :: !IsNull(ids[i]) && ids[i] != index.id)
    && forall k, i | 0 <= k < n && 0 <= i < |index.lists[k]| :: EntityAt(c, k, rows, index.lists[k][i]).Some?
  }

  lemma RestorableStep<Meta, Entity>(c: Codec<Meta, Entity>, index: Index<Meta>, rows: Rows, n: nat)
    requires n < |index.lists| == |c.kinds|
    ensures RestorableTo(c, index, rows, n + 1) <==>
              RestorableTo(c, index, rows, n) && DistinctUuids(index.lists[n])
              && (forall u | u in index.lists[n] :: u !in Flatten(index.lists[..n]))
              && forall i | 0 <= i < |index.lists[n]| ::
                   !IsNull(index.lists[n][i]) && index.lists[n][i] != index.id
                     && EntityAt(c, n, rows, index.lists[n][i]).Some?
  {
    hide IsNull, DistinctUuids;
    var front, last := Flatten(index.lists[..n]), index.lists[n];
    assert index.lists[..n + 1][..n] == index.lists[..n];
    assert Flatten(index.lists[..n + 1]) == front + last;
    DistinctParts(front, last);
    if RestorableTo(c, index, rows, n + 1) {
      assert forall i | 0 <= i < |last| :: (front + last)[|front| + i] == last[i];
      assert forall i | 0 <= i < |front| :: (front + last)[i] == front[i];
    }
  }

  lemma {:induction false} RestorableGrows<Meta,
      Entity>(c: Codec<Meta, Entity>, index: Index<Meta>, rows: Rows, n: nat, m: nat)
    requires n <= m <= |index.lists| == |c.kinds| && RestorableTo(c, index, rows, m)
    ensures RestorableTo(c, index, rows, n)
    decreases m - n
  {
    hide RestorableTo;
    if n < m {
      RestorableStep(c, index, rows, m - 1);
      RestorableGrows(c, index, rows, n, m - 1);
    }
  }

  method RestoreLists<Meta, Entity>(c: Codec<Meta, Entity>, index: Index<Meta>, fetched: Rows)
    returns (r: Option<seq<seq<Entity>>>)
    requires |index.lists| == |c.kinds|
    ensures r.Some? <==> Restorable(c, index, fetched)
    ensures r.Some? ==> |r.value| == |index.lists| && forall k | 0 <= k < |r.value| ::
                          |r.value[k]| == |index.lists[k]| && forall i | 0 <= i < |r.value[k]| ::
                            r.value[k][i] == EntityAt(c, k, fetched, index.lists[k][i]).value
  {
    hide IsNull, DistinctUuids, Flatten, EntityAt;
    var seen := {index.id};
    var lists: seq<seq<Entity>> := [];
    assert index.lists[..|index.lists|] == index.lists;
    NothingListed(c, index, fetched);
    for k := 0 to |index.lists|
      invariant |lists| == k && RestorableTo(c, index, fetched, k)
      invariant seen == {index.id} + Referenced(index.lists[..k])
      invariant forall j | 0 <= j < k :: |lists[j]| == |index.lists[j]| && forall i | 0 <= i < |lists[j]| ::
                  lists[j][i] == EntityAt(c, j, fetched, index.lists[j][i]).value
    {
      hide RestorableTo;
      RestorableStep(c, index, fetched, k);
      ReferencedStep(index.lists, k);
      var list;
      list, seen := RestoreList(c, k, index.lists[k], fetched, seen);
      if list.None? {
        ListedIn(index.lists[k]);
        assert !RestorableTo(c, index, fetched, k + 1);
        if RestorableTo(c, index, fetched, |index.lists|) {
          RestorableGrows(c, index, fetched, k + 1, |index.lists|);
        }
        return None;
      }
      assert forall u | u in index.lists[k] :: u !in Flatten(index.lists[..k]);
      lists := lists + [list.value];
    }
    r := Some(lists);
  }

  lemma ListedIn(ids: seq<Uuid>)
    ensures forall i | 0 <= i < |ids| :: ids[i] in ids
  {
  }

  lemma NothingListed<Meta, Entity>(c: Codec<Meta, Entity>, index: Index<Meta>, rows: Rows)
    requires |index.lists| == |c.kinds|
    ensures RestorableTo(c, index, rows, 0) && Referenced(index.lists[..0]) == {}
    ensures RestorableTo(c, index, rows, |index.lists|) <==> Restorable(c, index, rows)
  {
    hide IsNull;
    assert index.lists[..|index.lists|] == index.lists;
  }

  lemma ReferencedStep(lists: seq<seq<Uuid>>, k: nat)
    requires k < |lists|
    ensures Referenced(lists[..k + 1]) == Referenced(lists[..k]) + set u | u in lists[k]
  {
    assert lists[..k + 1][..k] == lists[..k];
    assert Flatten(lists[..k + 1]) == Flatten(lists[..k]) + lists[k];
  }

  /** Only the rows an index refers to matter to what it restores. */
  lemma RestoreNeeds<Meta, Entity>(c: Codec<Meta, Entity>, index: Index<Meta>, rows: Rows, fetched: Rows)
    requires |index.lists| == |c.kinds|
    requires forall u | u in Referenced(index.lists) :: Get(fetched, u) == Get(rows, u)
    ensures forall k, i | 0 <= k < |index.lists| && 0 <= i < |index.lists[k]| ::
              EntityAt(c, k, fetched, index.lists[k][i]) == EntityAt(c, k, rows, index.lists[k][i])
    ensures Restorable(c, index, fetched) <==> Restorable(c, index, rows)
  {
    hide IsNull, DistinctUuids, Flatten;
    forall k, i | 0 <= k < |index.lists| && 0 <= i < |index.lists[k]|
      ensures EntityAt(c, k, fetched, index.lists[k][i]) == EntityAt(c, k, rows, index.lists[k][i])
    {
      var j := FlattenAt(index.lists, k, i);
      assert index.lists[k][i] in Flatten(index.lists);
      assert Get(fetched, index.lists[k][i]) == Get(rows, index.lists[k][i]);
    }
  }

  lemma RestorableFound<Meta, Entity>(c: Codec<Meta, Entity>, index: Index<Meta>, rows: Rows)
    requires |index.lists| == |c.kinds| && rows.Keys <= Referenced(index.lists)
    ensures Restorable(c, index, rows) ==> |rows| == |Referenced(index.lists)|
  {
    hide IsNull, DistinctUuids;
    if Restorable(c, index, rows) {
      FoundIn(c, index.lists, rows, |index.lists|);
      assert index.lists[..|index.lists|] == index.lists;
      assert rows.Keys == Referenced(index.lists);
      assert |rows.Keys| == |rows|;
    }
  }

  lemma {:induction false} FoundIn<Meta, Entity>(c: Codec<Meta, Entity>, lists: seq<seq<Uuid>>, rows: Rows, n: nat)
    requires n <= |lists| == |c.kinds|
    requires forall k, i | 0 <= k < |lists| && 0 <= i < |lists[k]| :: EntityAt(c, k, rows, lists[k][i]).Some?
    ensures Referenced(lists[..n]) <= rows.Keys
  {
    if n > 0 {
      FoundIn(c, lists, rows, n - 1);
      ReferencedStep(lists, n - 1);
    }
  }

  /**
   * Loads a network of a working revision through the membership index, and looks up by identifier what the index
   * misses.
   * What is loaded does not depend on the index.
   */
  method LoadHydraulicNetwork<Meta, Entity>(c: Codec<Meta, Entity>, rows: Rows, owner: map<Uuid, Uuid>, n: Uuid)
    returns (r: Option<Network<Meta, Entity>>)
    ensures r == NetworkAt(c, rows, n)
  {
    hide Flatten, EntityAt, Restorable;
    if n !in rows || rows[n].kind != ROOT_KIND || rows[n].content.None? {
      return None;
    }
    if |rows[n].content.value| > MAX_INDEX {
      return None;
    }
    var index := c.decodeIndex(rows[n].content.value);
    if index.None? || index.value.id != n || |index.value.lists| != |c.kinds| {
      return None;
    }
    var references := Referenced(index.value.lists);
    var fetched := FetchMembers(rows, owner, n, references);
    RestoreNeeds(c, index.value, rows, fetched);
    RestorableFound(c, index.value, fetched);
    if |fetched| != |references| {
      return None;
    }
    var lists := RestoreLists(c, index.value, fetched);
    if lists.None? {
      return None;
    }
    r := Some(Network(n, index.value.meta, lists.value));
    SameLists(lists.value, NetworkAt(c, rows, n).value.lists);
  }

  lemma SameLists<Entity>(a: seq<seq<Entity>>, b: seq<seq<Entity>>)
    requires |a| == |b|
    requires forall k | 0 <= k < |a| :: |a[k]| == |b[k]| && forall i | 0 <= i < |a[k]| :: a[k][i] == b[k][i]
    ensures a == b
  {
    forall k | 0 <= k < |a|
      ensures a[k] == b[k]
    {
    }
  }

  /** The member rows: through the index, then by identifier. */
  method FetchMembers(rows: Rows, owner: map<Uuid, Uuid>, n: Uuid, references: set<Uuid>) returns (fetched: Rows)
    ensures fetched.Keys == references * rows.Keys
    ensures forall u | u in references :: Get(fetched, u) == Get(rows, u)
  {
    fetched := map u | u in owner && owner[u] == n && u in rows && u in references :: rows[u];
    var missing := references - fetched.Keys;
    if missing != {} {
      fetched := fetched + map u | u in missing && u in rows :: rows[u];
    }
    forall u
      ensures u in fetched <==> u in references && u in rows
    {
      assert u in references ==> u in missing || u in fetched;
    }
  }
}
