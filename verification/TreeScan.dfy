/** Full enumeration of a root, level by level, with an optional payload cache. */
module TreeScan {
  import opened Prelude
  import opened Uuid
  import opened TreeNode
  import opened RadixTree
  import opened ContentStore
  import opened TreeStore
  import opened SortedRange
  import opened Changes
  import NodeCodec
  import TreeBuild
  import TreeRead
  import TreeUpdate

  /** A subtree to be read, and the path of edges and prefixes that leads to it. */
  datatype Item = Item(digest: Bytes, leading: Bytes)

  type Payloads = map<Bytes, Bytes>

  /** A cache that holds only verified payloads of this store. */
  ghost predicate Verified(h: Hash, rows: Rows, cache: Payloads) {
    forall d | d in cache :: Fetch(h, rows, TreeKind, d) == Some(cache[d])
  }

  predicate WellPlaced(p: Item) {
    |p.leading| <= KEY_NIBBLES && AllNibbles(p.leading)
  }

  ghost predicate Loads(h: Hash, rows: Rows, p: Item)
    requires WellPlaced(p)
  {
    p.digest != [] && Load(h, rows, p.digest, |p.leading|).Some?
  }

  ghost predicate AllLoad(h: Hash, rows: Rows, work: seq<Item>) {
    forall i | 0 <= i < |work| :: WellPlaced(work[i]) && Loads(h, rows, work[i])
  }

  /** The paths part ways at some nibble, so neither leads to the other. */
  predicate Apart(p: Bytes, q: Bytes) {
    exists i :: 0 <= i < |p| && i < |q| && p[i] != q[i]
  }

  /** The listed keys and the pending subtrees occupy disjoint parts of the key space. */
  ghost predicate Disjoint(out: seq<Entry<Bytes>>, work: seq<Item>) {
    && Distinct(out)
    && (forall i, j | 0 <= i < |out| && 0 <= j < |work| :: Apart(out[i].key, work[j].leading))
    && (forall i, j | 0 <= i < j < |work| :: Apart(work[i].leading, work[j].leading))
  }

  /** Below its path the subtree answers what the whole trie answers. */
  ghost predicate Speaks(h: Hash, rows: Rows, t: Tree, p: Item)
    requires WellPlaced(p)
  {
    && Loads(h, rows, p)
    && forall k: Key | p.leading <= k :: Find(Load(h, rows, p.digest, |p.leading|).value, |p.leading|, k)
         == Find(t, 0, k)
  }

  /** Everything the trie holds is listed or still below a pending subtree, and nothing else is listed. */
  ghost predicate Accounted(h: Hash, rows: Rows, t: Tree, out: seq<Entry<Bytes>>, work: seq<Item>) {
    && (forall i | 0 <= i < |out| :: Find(t, 0, out[i].key) == Some(out[i].value))
    && (forall j | 0 <= j < |work| :: WellPlaced(work[j]) && Speaks(h, rows, t, work[j]))
    && (forall k: Key | Find(t, 0, k).Some? :: Listed(out, k) || Pending(work, k))
  }

  predicate Listed(out: seq<Entry<Bytes>>, k: Key) {
    exists i :: 0 <= i < |out| && out[i].key == k
  }

  predicate Pending(work: seq<Item>, k: Key) {
    exists j :: 0 <= j < |work| && work[j].leading <= k
  }

  /** The children of a branch, as items. */
  function ChildItems(n: Node, path: Bytes, edges: nat): (items: seq<Item>)
    requires edges <= BRANCHES
  {
    if edges == 0 then []
    else if n.children[edges - 1] == [] then ChildItems(n, path, edges - 1)
    else ChildItems(n, path, edges - 1) + [Item(n.children[edges - 1], path + [edges - 1])]
  }

  lemma {:induction false} ChildItemIs(n: Node, path: Bytes, edges: nat, i: nat) returns (e: nat)
    requires edges <= BRANCHES && i < |ChildItems(n, path, edges)|
    ensures e < edges && n.children[e] != [] && ChildItems(n, path, edges)[i] == Item(n.children[e], path + [e])
  {
    var before := ChildItems(n, path, edges - 1);
    if i < |before| { e := ChildItemIs(n, path, edges - 1, i); } else { e := edges - 1; }
  }

  lemma {:induction false} ChildItemFor(n: Node, path: Bytes, edges: nat, e: nat) returns (i: nat)
    requires e < edges <= BRANCHES && n.children[e] != []
    ensures i < |ChildItems(n, path, edges)| && ChildItems(n, path, edges)[i] == Item(n.children[e], path + [e])
  {
    if e == edges - 1 { i := |ChildItems(n, path, edges)| - 1; } else { i := ChildItemFor(n, path, edges - 1, e); }
  }

  predicate AllApart(items: seq<Item>) {
    forall i, j | 0 <= i < j < |items| :: Apart(items[i].leading, items[j].leading)
  }

  lemma {:induction false} ChildItemsApart(n: Node, path: Bytes, edges: nat)
    requires edges <= BRANCHES
    ensures AllApart(ChildItems(n, path, edges))
  {
    if edges > 0 {
      ChildItemsApart(n, path, edges - 1);
      var rest := ChildItems(n, path, edges - 1);
      if n.children[edges - 1] == [] {
        assert ChildItems(n, path, edges) == rest;
      } else {
        forall i | 0 <= i < |rest|
          ensures Apart(rest[i].leading, path + [edges - 1])
        {
          var e := ChildItemIs(n, path, edges - 1, i);
          assert rest[i].leading[|path|] != (path + [edges - 1])[|path|];
        }
      }
    }
  }

  /** A branch loads exactly when all its children do. */
  lemma BranchLoads(h: Hash, rows: Rows, p: Item, n: Node)
    requires WellPlaced(p) && ReadNode(h, rows, p.digest, |p.leading|) == Some(n) && n.value.None?
    ensures |p.leading| + |n.prefix| < KEY_NIBBLES && AllNibbles(n.prefix)
    ensures Loads(h, rows, p) <==> AllLoad(h, rows, ChildItems(n, p.leading + n.prefix, BRANCHES))
    ensures forall i | 0 <= i < |ChildItems(n, p.leading + n.prefix, BRANCHES)| ::
              WellPlaced(ChildItems(n, p.leading + n.prefix, BRANCHES)[i])
              && |ChildItems(n, p.leading + n.prefix, BRANCHES)[i].leading| == |p.leading| + |n.prefix| + 1
  {
    hide Encode, Decode, Load, ChildItems, Count;
    var path := p.leading + n.prefix;
    var items := ChildItems(n, path, BRANCHES);
    forall i | 0 <= i < |items|
      ensures WellPlaced(items[i]) && |items[i].leading| == |path| + 1
    {
      var e := ChildItemIs(n, path, BRANCHES, i);
    }
    if Loads(h, rows, p) {
      LoadKids(h, rows, p.digest, |p.leading|);
      forall i | 0 <= i < |items|
        ensures Loads(h, rows, items[i])
      {
        var e := ChildItemIs(n, path, BRANCHES, i);
      }
    }
    if AllLoad(h, rows, items) {
      forall e | 0 <= e < BRANCHES
        ensures Load(h, rows, n.children[e], |path| + 1).Some?
      {
        if n.children[e] == [] {
          NullLoads(h, rows, |path| + 1);
        } else {
          var i := ChildItemFor(n, path, BRANCHES, e);
          assert Loads(h, rows, items[i]);
        }
      }
      var kids := seq(BRANCHES, e requires 0 <= e < BRANCHES => Load(h, rows, n.children[e], |path| + 1).value);
      LoadFromKids(h, rows, p.digest, n, kids, |p.leading|);
    }
  }

  /** A leaf always loads. */
  lemma LeafLoads(h: Hash, rows: Rows, p: Item, n: Node)
    requires WellPlaced(p) && ReadNode(h, rows, p.digest, |p.leading|) == Some(n) && n.value.Some?
    ensures Loads(h, rows, p) && |p.leading| + |n.prefix| == KEY_NIBBLES && AllNibbles(p.leading + n.prefix)
  {
    hide Encode, Decode, Load;
    CountNone(Present(n.children));
    forall e | 0 <= e < BRANCHES
      ensures Load(h, rows, n.children[e], KEY_NIBBLES + 1) == Some(Absent)
    {
      assert !Present(n.children)[e];
      NullLoads(h, rows, KEY_NIBBLES + 1);
    }
    LoadFromKids(h, rows, p.digest, n, NoKids(), |p.leading|);
  }

  /** The state of a scan of the loaded trie `t`. */
  ghost predicate OnTrack(h: Hash, rows: Rows, t: Tree, out: seq<Entry<Bytes>>, work: seq<Item>) {
    Accounted(h, rows, t, out, work) && Disjoint(out, work)
  }

  lemma ApartBelow(p: Bytes, longer: Bytes, q: Bytes)
    requires Apart(p, q) && p <= longer
    ensures Apart(longer, q) && Apart(q, longer)
  {
    var i :| 0 <= i < |p| && i < |q| && p[i] != q[i];
    assert longer[i] == p[i];
  }

  lemma PathOf(a: Bytes, b: Bytes, k: Key)
    requires |a| + |b| <= KEY_NIBBLES
    ensures a + b <= k <==> a <= k && k[|a|..|a| + |b|] == b
  {
    if a + b <= k {
      assert k[..|a| + |b|] == a + b;
      assert k[..|a|] == k[..|a| + |b|][..|a|];
      assert k[|a|..|a| + |b|] == k[..|a| + |b|][|a|..];
    }
    if a <= k && k[|a|..|a| + |b|] == b {
      assert k[..|a| + |b|] == k[..|a|] + k[|a|..|a| + |b|];
    }
  }

  /** A leaf moves from the pending subtrees to the listed entries. */
  lemma StepLeaf(h: Hash, rows: Rows, t: Tree, out: seq<Entry<Bytes>>, item: Item, rest: seq<Item>, n: Node)
    requires WellPlaced(item) && ReadNode(h, rows, item.digest, |item.leading|) == Some(n) && n.value.Some?
    requires |item.leading| + |n.prefix| == KEY_NIBBLES && AllNibbles(item.leading + n.prefix)
    requires OnTrack(h, rows, t, out, [item] + rest)
    ensures OnTrack(h, rows, t, out + [Entry(item.leading + n.prefix, n.value.value)], rest)
  {
    hide Encode, Decode, Load, Find, Disjoint, Apart;
    var work := [item] + rest;
    var key: Key := item.leading + n.prefix;
    var all := out + [Entry(key, n.value.value)];
    assert work[0] == item;
    assert forall j | 0 <= j < |rest| :: work[j + 1] == rest[j];
    assert item.leading <= key;
    PathOf(item.leading, n.prefix, key);
    TreeRead.Descend(h, rows, item.digest, |item.leading|, key);
    forall k: Key | Find(t, 0, k).Some?
      ensures Listed(all, k) || Pending(rest, k)
    {
      if Listed(out, k) {
        var i :| 0 <= i < |out| && out[i].key == k;
        assert all[i].key == k;
      } else {
        var j :| 0 <= j < |work| && work[j].leading <= k;
        if j == 0 {
          TreeRead.Descend(h, rows, item.digest, |item.leading|, k);
          PathOf(item.leading, n.prefix, k);
          assert k[..KEY_NIBBLES] == k;
          assert all[|out|].key == k;
        } else {
          assert rest[j - 1].leading <= k;
        }
      }
    }
    LeafDisjoint(out, item, rest, key, n.value.value);
  }

  lemma LeafDisjoint(out: seq<Entry<Bytes>>, item: Item, rest: seq<Item>, key: Key, value: Bytes)
    requires Disjoint(out, [item] + rest) && item.leading <= key
    ensures Disjoint(out + [Entry(key, value)], rest)
  {
    hide Apart;
    var work := [item] + rest;
    var all := out + [Entry(key, value)];
    assert work[0] == item;
    forall i | 0 <= i < |out|
      ensures out[i].key != key
    {
      assert Apart(out[i].key, work[0].leading);
      ApartBelow(item.leading, key, out[i].key) by { ApartSym(out[i].key, item.leading); }
      ApartDiffer(key, out[i].key);
    }
    forall i, j | 0 <= i < |all| && 0 <= j < |rest|
      ensures Apart(all[i].key, rest[j].leading)
    {
      assert work[j + 1] == rest[j];
      if i == |out| {
        assert Apart(work[0].leading, work[j + 1].leading);
        ApartBelow(item.leading, key, rest[j].leading);
      } else {
        assert Apart(out[i].key, work[j + 1].leading);
      }
    }
    forall i, j | 0 <= i < j < |rest|
      ensures Apart(rest[i].leading, rest[j].leading)
    {
      assert Apart(work[i + 1].leading, work[j + 1].leading);
    }
  }

  lemma ApartSym(p: Bytes, q: Bytes)
    requires Apart(p, q)
    ensures Apart(q, p)
  {}

  lemma ApartDiffer(p: Bytes, q: Bytes)
    requires Apart(p, q)
    ensures p != q
  {}

  lemma ChildSpeaks(h: Hash, rows: Rows, t: Tree, item: Item, n: Node, e: nat)
    requires WellPlaced(item) && Speaks(h, rows, t, item)
    requires ReadNode(h, rows, item.digest, |item.leading|) == Some(n) && e < BRANCHES && n.children[e] != []
    requires |item.leading| + |n.prefix| < KEY_NIBBLES && AllNibbles(n.prefix)
    ensures var child := Item(n.children[e], item.leading + n.prefix + [e]);
      WellPlaced(child) && Speaks(h, rows, t, child)
  {
    hide Encode, Decode, Load, Find;
    var path := item.leading + n.prefix;
    var child := Item(n.children[e], path + [e]);
    LoadKids(h, rows, item.digest, |item.leading|);
    forall k: Key | child.leading <= k
      ensures Find(Load(h, rows, child.digest, |path| + 1).value, |path| + 1, k) == Find(t, 0, k)
    {
      PathOf(path, [e], k);
      PathOf(item.leading, n.prefix, k);
      assert k[|path|] == k[|path|..|path| + 1][0];
      TreeRead.Descend(h, rows, item.digest, |item.leading|, k);
    }
  }

  /** A branch is replaced by its children. */
  lemma StepBranch(h: Hash, rows: Rows, t: Tree, out: seq<Entry<Bytes>>, item: Item, rest: seq<Item>, n: Node)
    requires WellPlaced(item) && ReadNode(h, rows, item.digest, |item.leading|) == Some(n) && n.value.None?
    requires |item.leading| + |n.prefix| < KEY_NIBBLES && AllNibbles(n.prefix)
    requires OnTrack(h, rows, t, out, [item] + rest)
    ensures OnTrack(h, rows, t, out, rest + ChildItems(n, item.leading + n.prefix, BRANCHES))
  {
    hide Encode, Decode, Load, Find, Speaks, Disjoint, Apart;
    var work := [item] + rest;
    var path := item.leading + n.prefix;
    var items := ChildItems(n, path, BRANCHES);
    var after := rest + items;
    assert work[0] == item;
    assert forall j | 0 <= j < |rest| :: work[j + 1] == rest[j];
    forall i | 0 <= i < |items|
      ensures WellPlaced(items[i]) && Speaks(h, rows, t, items[i]) && item.leading <= items[i].leading
    {
      var e := ChildItemIs(n, path, BRANCHES, i);
      ChildSpeaks(h, rows, t, item, n, e);
    }
    forall k: Key | Find(t, 0, k).Some?
      ensures Listed(out, k) || Pending(after, k)
    {
      if !Listed(out, k) {
        var j :| 0 <= j < |work| && work[j].leading <= k;
        if j > 0 {
          assert after[j - 1] == rest[j - 1];
        } else {
          var e := EdgeTaken(h, rows, t, item, n, k);
          var i := ChildItemFor(n, path, BRANCHES, e);
          assert after[|rest| + i] == items[i];
        }
      }
    }
    ChildItemsApart(n, path, BRANCHES);
    BranchDisjoint(out, item, rest, items);
  }

  lemma BranchDisjoint(out: seq<Entry<Bytes>>, item: Item, rest: seq<Item>, items: seq<Item>)
    requires Disjoint(out, [item] + rest) && forall i | 0 <= i < |items| :: item.leading <= items[i].leading
    requires AllApart(items)
    ensures Disjoint(out, rest + items)
  {
    hide Apart;
    var work, after := [item] + rest, rest + items;
    assert work[0] == item;
    assert forall j | 0 <= j < |rest| :: work[j + 1] == rest[j];
    forall i, j | 0 <= i < |out| && 0 <= j < |after|
      ensures Apart(out[i].key, after[j].leading)
    {
      if j >= |rest| {
        assert Apart(out[i].key, work[0].leading);
        ApartSym(out[i].key, item.leading);
        ApartBelow(item.leading, items[j - |rest|].leading, out[i].key);
      } else {
        assert Apart(out[i].key, work[j + 1].leading);
      }
    }
    forall i, j | 0 <= i < j < |after|
      ensures Apart(after[i].leading, after[j].leading)
    {
      if j < |rest| {
        assert Apart(work[i + 1].leading, work[j + 1].leading);
      } else if i < |rest| {
        assert Apart(work[0].leading, work[i + 1].leading);
        ApartBelow(item.leading, items[j - |rest|].leading, rest[i].leading);
      }
    }
  }

  /** A key the trie holds below a branch passes through one of its children. */
  lemma EdgeTaken(h: Hash, rows: Rows, t: Tree, item: Item, n: Node, k: Key) returns (e: nat)
    requires WellPlaced(item) && Speaks(h, rows, t, item) && item.leading <= k && Find(t, 0, k).Some?
    requires ReadNode(h, rows, item.digest, |item.leading|) == Some(n) && n.value.None?
    requires |item.leading| + |n.prefix| < KEY_NIBBLES
    ensures e < BRANCHES && n.children[e] != [] && item.leading + n.prefix + [e] <= k
  {
    hide Encode, Decode, Load, Find;
    var path := item.leading + n.prefix;
    TreeRead.Descend(h, rows, item.digest, |item.leading|, k);
    PathOf(item.leading, n.prefix, k);
    e := k[|path|];
    assert k[|path|..|path| + 1] == [e];
    PathOf(path, [e], k);
    NullLoads(h, rows, |path| + 1);
    AbsentFind(|path| + 1);
  }

  /** The whole invariant of a scan: it is still on track exactly if the root loads. */
  ghost predicate Scanning(h: Hash, rows: Rows, root: Bytes, out: seq<Entry<Bytes>>, work: seq<Item>) {
    && (forall j | 0 <= j < |work| :: WellPlaced(work[j]))
    && (AllLoad(h, rows, work) <==> root != [] && Load(h, rows, root, 0).Some?)
    && (AllLoad(h, rows, work) ==> OnTrack(h, rows, Load(h, rows, root, 0).value, out, work))
  }

  /** Read one pending subtree: list its value or queue its children. */
  method ScanItem(payload: Bytes, item: Item, ghost rest: seq<Item>, out: seq<Entry<Bytes>>, queue: seq<Item>,
                  ghost root: Bytes, ghost h: Hash, ghost rows: Rows)
    returns (ok: bool, out': seq<Entry<Bytes>>, queue': seq<Item>)
    requires Fetch(h, rows, TreeKind, item.digest) == Some(payload)
    requires Scanning(h, rows, root, out, [item] + (rest + queue)) && WellPlaced(item)
    requires forall j | 0 <= j < |queue| :: |queue[j].leading| > 0
    ensures ok ==> Scanning(h, rows, root, out', rest + queue') && queue <= queue'
    ensures ok ==> forall j | |queue| <= j < |queue'| :: |queue'[j].leading| > |item.leading|
    ensures !ok ==> root == [] || Load(h, rows, root, 0).None?
  {
    hide Encode, Decode, Load, Find, OnTrack;
    var node := NodeCodec.DecodeNode(payload, |item.leading|);
    ghost var work := [item] + (rest + queue);
    out', queue' := out, queue;
    if node.None? {
      if root != [] && Load(h, rows, root, 0).Some? {
        assert WellPlaced(work[0]) && Loads(h, rows, work[0]);
        LoadKids(h, rows, item.digest, |item.leading|);
      }
      return false, out, queue;
    }
    var n := node.value;
    var path := item.leading + n.prefix;
    SplitWork(h, rows, item, rest + queue);
    if n.value.Some? {
      LeafLoads(h, rows, item, n);
      if AllLoad(h, rows, work) {
        StepLeaf(h, rows, Load(h, rows, root, 0).value, out, item, rest + queue, n);
      }
      out' := out + [Entry(path, n.value.value)];
      return true, out', queue;
    }
    BranchLoads(h, rows, item, n);
    for edge := 0 to BRANCHES
      invariant queue' == queue + ChildItems(n, path, edge)
    {
      if n.children[edge] != [] {
        queue' := queue' + [Item(n.children[edge], path + [edge])];
      }
    }
    ghost var kids := ChildItems(n, path, BRANCHES);
    JoinWork(h, rows, rest + queue, kids);
    if AllLoad(h, rows, work) {
      StepBranch(h, rows, Load(h, rows, root, 0).value, out, item, rest + queue, n);
    }
    assert (rest + queue) + kids == rest + queue';
    ok := true;
  }

  lemma SplitWork(h: Hash, rows: Rows, item: Item, rest: seq<Item>)
    requires WellPlaced(item) && forall j | 0 <= j < |[item] + rest| :: WellPlaced(([item] + rest)[j])
    ensures AllLoad(h, rows, [item] + rest) <==> Loads(h, rows, item) && AllLoad(h, rows, rest)
    ensures forall j | 0 <= j < |rest| :: WellPlaced(rest[j])
  {
    hide Load;
    var work := [item] + rest;
    assert work[0] == item;
    assert forall j | 0 <= j < |rest| :: work[j + 1] == rest[j];
    assert forall j | 1 <= j < |work| :: work[j] == rest[j - 1];
  }

  lemma JoinWork(h: Hash, rows: Rows, a: seq<Item>, b: seq<Item>)
    requires forall j | 0 <= j < |a| :: WellPlaced(a[j])
    requires forall j | 0 <= j < |b| :: WellPlaced(b[j])
    ensures AllLoad(h, rows, a + b) <==> AllLoad(h, rows, a) && AllLoad(h, rows, b)
    ensures forall j | 0 <= j < |a + b| :: WellPlaced((a + b)[j])
  {
    hide Load;
    var c := a + b;
    assert forall j | 0 <= j < |a| :: c[j] == a[j];
    assert forall j | 0 <= j < |b| :: c[|a| + j] == b[j];
    assert forall j | |a| <= j < |c| :: c[j] == b[j - |a|];
  }

  /** The payloads of one level: what the cache lacks is fetched as one batch and added to it. */
  method LevelPayloads(db: Store, pending: seq<Item>, cache: Option<Payloads>)
    returns (payloads: Option<Payloads>, cache': Option<Payloads>)
    requires cache.Some? ==> Verified(db.hash, db.rows, cache.value)
    ensures cache'.Some? <==> cache.Some?
    ensures cache'.Some? ==> Verified(db.hash, db.rows, cache'.value)
    ensures payloads.Some? <==> forall j | 0 <= j < |pending| ::
              Fetch(db.hash, db.rows, TreeKind, pending[j].digest).Some?
    ensures payloads.Some? ==> forall j | 0 <= j < |pending| ::
              Fetch(db.hash, db.rows, TreeKind, pending[j].digest) == Get(payloads.value, pending[j].digest)
  {
    hide Fetch;
    var missing: seq<Bytes> := [];
    for j := 0 to |pending|
      invariant forall q | 0 <= q < |missing| :: exists p :: 0 <= p < j && pending[p].digest == missing[q]
      invariant forall p | 0 <= p < j :: pending[p].digest in missing
                  || (cache.Some? && pending[p].digest in cache.value)
    {
      if cache.None? || pending[j].digest !in cache.value {
        missing := missing + [pending[j].digest];
      }
    }
    var fetched := db.GetMany(TreeKind, missing);
    cache' := cache;
    if fetched.None? {
      var q :| 0 <= q < |missing| && Fetch(db.hash, db.rows, TreeKind, missing[q]).None?;
      return None, cache';
    }
    forall d | d in missing
      ensures d in fetched.value
    {
      var q :| 0 <= q < |missing| && missing[q] == d;
      assert d in fetched.value.Keys;
    }
    if cache.None? {
      return fetched, cache';
    }
    cache' := Some(cache.value + fetched.value);
    return Some(cache'.value), cache';
  }

  lemma Started(h: Hash, rows: Rows, root: Bytes)
    ensures Scanning(h, rows, root, [], [Item(root, [])])
  {
    var work := [Item(root, [])];
    assert WellPlaced(work[0]);
    assert AllLoad(h, rows, work) <==> Loads(h, rows, work[0]);
    if AllLoad(h, rows, work) {
      var t := Load(h, rows, root, 0).value;
      forall k: Key
        ensures Pending(work, k)
      {
        assert work[0].leading <= k;
      }
      assert Speaks(h, rows, t, work[0]);
    }
  }

  /** The list of a finished scan is the whole trie. */
  lemma Complete(h: Hash, rows: Rows, root: Bytes, out: seq<Entry<Bytes>>)
    requires Scanning(h, rows, root, out, [])
    ensures root != [] && Load(h, rows, root, 0).Some? && Distinct(out)
    ensures forall k: Key :: Lookup(out, 0, |out|, k) == Find(Load(h, rows, root, 0).value, 0, k)
  {
    hide Load, Find;
    assert AllLoad(h, rows, []);
    var t := Load(h, rows, root, 0).value;
    forall k: Key
      ensures Lookup(out, 0, |out|, k) == Find(t, 0, k)
    {
      if Lookup(out, 0, |out|, k).Some? {
        var i := LookupSome(out, 0, |out|, k);
      } else if Find(t, 0, k).Some? {
        assert Listed(out, k);
        var i :| 0 <= i < |out| && out[i].key == k;
        LookupIn(out, 0, |out|, i);
      }
    }
  }

  /** A missing or damaged payload shows that the root does not load. */
  lemma Unreadable(h: Hash, rows: Rows, root: Bytes, out: seq<Entry<Bytes>>, work: seq<Item>, j: nat)
    requires Scanning(h, rows, root, out, work) && j < |work| && Fetch(h, rows, TreeKind, work[j].digest).None?
    ensures root == [] || Load(h, rows, root, 0).None?
  {
    hide Encode, Decode;
    if AllLoad(h, rows, work) {
      assert WellPlaced(work[j]) && Loads(h, rows, work[j]);
    }
  }

  /**
   Enumerate a root completely. It succeeds exactly when every node below the
   root is present, undamaged and well shaped; then it lists the whole trie in
   key order without repeats. A cache of verified payloads changes neither.
   */
  method ScanBatched(db: Store, root: Bytes, cache: Option<Payloads>)
    returns (r: Option<seq<Entry<Bytes>>>, cache': Option<Payloads>)
    requires cache.Some? ==> Verified(db.hash, db.rows, cache.value)
    ensures cache'.Some? <==> cache.Some?
    ensures cache'.Some? ==> Verified(db.hash, db.rows, cache'.value)
    ensures r.Some? <==> root != [] && Load(db.hash, db.rows, root, 0).Some?
    ensures r.Some? ==> Sorted(r.value) && Distinct(r.value)
    ensures r.Some? ==> forall k: Key ::
              Lookup(r.value, 0, |r.value|, k) == Find(Load(db.hash, db.rows, root, 0).value, 0, k)
  {
    hide Encode, Decode, Load, Find, Fetch, Scanning, Sorted, Distinct, Lookup, SortByKey, Verified;
    ghost var h, rows := db.hash, db.rows;
    cache' := cache;
    var out: seq<Entry<Bytes>> := [];
    var pending := [Item(root, [])];
    Started(h, rows, root);
    ghost var floor := 0;
    while pending != []
      invariant floor <= KEY_NIBBLES + 1
      invariant forall j | 0 <= j < |pending| :: WellPlaced(pending[j]) && |pending[j].leading| >= floor
      invariant Scanning(h, rows, root, out, pending)
      invariant cache'.Some? <==> cache.Some?
      invariant cache'.Some? ==> Verified(h, rows, cache'.value)
      decreases KEY_NIBBLES + 1 - floor
    {
      assert WellPlaced(pending[0]) && |pending[0].leading| >= floor;
      var payloads;
      payloads, cache' := LevelPayloads(db, pending, cache');
      if payloads.None? {
        ghost var j :| 0 <= j < |pending| && Fetch(h, rows, TreeKind, pending[j].digest).None?;
        Unreadable(h, rows, root, out, pending, j);
        return None, cache';
      }
      var ok, children;
      ok, out, children := ScanLevel(payloads.value, pending, out, root, h, rows, floor);
      if !ok {
        return None, cache';
      }
      pending := children;
      floor := floor + 1;
    }
    Complete(h, rows, root, out);
    var sorted := SortByKey(out);
    SortedLookups(out);
    var distinct := TreeBuild.AdjacentDistinct(sorted);
    if !distinct {
      return None, cache';
    }
    return Some(sorted), cache';
  }

  method ScanLevel(payloads: Payloads, pending: seq<Item>, before: seq<Entry<Bytes>>, ghost root: Bytes, ghost h: Hash,
                   ghost rows: Rows, ghost floor: nat)
    returns (ok: bool, out: seq<Entry<Bytes>>, children: seq<Item>)
    requires forall j | 0 <= j < |pending| :: WellPlaced(pending[j]) && |pending[j].leading| >= floor
    requires forall j | 0 <= j < |pending| ::
               pending[j].digest in payloads && Fetch(h, rows, TreeKind, pending[j].digest)
                 == Some(payloads[pending[j].digest])
    requires Scanning(h, rows, root, before, pending)
    ensures ok ==> Scanning(h, rows, root, out, children)
    ensures ok ==> forall j | 0 <= j < |children| :: WellPlaced(children[j]) && |children[j].leading| > floor
    ensures !ok ==> root == [] || Load(h, rows, root, 0).None?
  {
    hide Encode, Decode, Load, Find, Fetch, Scanning;
    out, children := before, [];
    assert pending[0..] + children == pending;
    for j := 0 to |pending|
      invariant Scanning(h, rows, root, out, pending[j..] + children)
      invariant forall q | 0 <= q < |children| :: |children[q].leading| > floor
    {
      ghost var rest, queue := pending[j + 1..], children;
      assert pending[j..] + children == [pending[j]] + (rest + queue);
      ok, out, children := ScanItem(payloads[pending[j].digest], pending[j], rest, out, children, root, h, rows);
      if !ok {
        return;
      }
    }
    assert pending[|pending|..] + children == children;
    ok := true;
    ScanningPlaced(h, rows, root, out, children);
  }

  lemma ScanningPlaced(h: Hash, rows: Rows, root: Bytes, out: seq<Entry<Bytes>>, work: seq<Item>)
    requires Scanning(h, rows, root, out, work)
    ensures forall j | 0 <= j < |work| :: WellPlaced(work[j])
  {}

  /** The entries of a root in UUID order: exactly the map it denotes. */
  method Entries(db: Store, root: Bytes) returns (r: Option<seq<Entry<Bytes>>>)
    ensures r.Some? <==> root != [] && Load(db.hash, db.rows, root, 0).Some?
    ensures r.Some? ==> Sorted(r.value) && Distinct(r.value)
    ensures r.Some? ==> forall k: Key ::
              Lookup(r.value, 0, |r.value|, k) == Find(Load(db.hash, db.rows, root, 0).value, 0, k)
    ensures forall m | DenotesMap(db.hash, db.rows, root, m) ::
              r.Some? && forall k: Key :: Lookup(r.value, 0, |r.value|, k) == Get(m, k)
  {
    hide Encode, Decode, Load, Find, Sorted, Distinct, Lookup, Denotes;
    var unused;
    r, unused := ScanBatched(db, root, None);
    forall m | DenotesMap(db.hash, db.rows, root, m)
      ensures forall k: Key :: Find(Load(db.hash, db.rows, root, 0).value, 0, k) == Get(m, k)
    {
      forall k: Key
        ensures Find(Load(db.hash, db.rows, root, 0).value, 0, k) == Get(m, k)
      {
        TreeUpdate.DenotesAt(Load(db.hash, db.rows, root, 0).value, m, k);
      }
    }
  }

  /** The same enumeration through a verification cache. */
  method EntriesCached(db: Store, root: Bytes, cache: Payloads) returns (r: Option<seq<Entry<Bytes>>>, cache': Payloads)
    requires Verified(db.hash, db.rows, cache)
    ensures Verified(db.hash, db.rows, cache')
    ensures r.Some? <==> root != [] && Load(db.hash, db.rows, root, 0).Some?
    ensures r.Some? ==> Sorted(r.value) && Distinct(r.value)
    ensures r.Some? ==> forall k: Key ::
              Lookup(r.value, 0, |r.value|, k) == Find(Load(db.hash, db.rows, root, 0).value, 0, k)
  {
    hide *;
    var after;
    r, after := ScanBatched(db, root, Some(cache));
    cache' := after.value;
  }
}
