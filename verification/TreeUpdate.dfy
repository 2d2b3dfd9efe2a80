/** Single-key replacement and removal, with splits and re-compression. */
module TreeUpdate {
  import opened Prelude
  import opened Uuid
  import opened TreeNode
  import opened RadixTree
  import opened ContentStore
  import opened TreeStore
  import NodeCodec
  import opened Changes

  /** `after` answers like `before` except that `key` now has value `v`. */
  ghost predicate Updated(before: Tree, after: Tree, depth: nat, key: Key, v: Option<Bytes>)
    requires depth <= KEY_NIBBLES
  {
    && ValidEdge(after, depth)
    && forall k: Key :: Find(after, depth, k) == if k[depth..] == key[depth..] then v else Find(before, depth, k)
  }

  /** The length of the path a key shares with a compressed prefix. */
  method CommonPrefix(key: Key, depth: nat, prefix: Bytes) returns (n: nat)
    requires depth + |prefix| <= KEY_NIBBLES
    ensures n <= |prefix| && key[depth..depth + n] == prefix[..n]
    ensures n < |prefix| ==> key[depth + n] != prefix[n]
  {
    n := 0;
    while n < |prefix| && key[depth + n] == prefix[n]
      invariant n <= |prefix| && key[depth..depth + n] == prefix[..n]
    {
      assert key[depth..depth + n + 1] == key[depth..depth + n] + [key[depth + n]];
      n := n + 1;
    }
  }

  /** Changing one child and re-joining changes exactly the key. */
  lemma ReplaceKid(prefix: Bytes, kids: seq<Tree>, depth: nat, key: Key, kid: Tree, v: Option<Bytes>)
    requires ValidKids(prefix, kids, depth) && key[depth..depth + |prefix|] == prefix
    requires Updated(kids[key[depth + |prefix|]], kid, depth + |prefix| + 1, key, v)
    ensures Updated(Sub(prefix, None, kids), Join(prefix, kids[key[depth + |prefix|] := kid]), depth, key, v)
  {
    hide Valid, Join, Count, Occupied, Find;
    var d := depth + |prefix|;
    var e := key[d];
    var changed := kids[e := kid];
    assert ValidKids(prefix, changed, depth);
    JoinValid(prefix, changed, depth);
    forall k: Key
      ensures Find(Join(prefix, changed), depth, k) ==
              if k[depth..] == key[depth..] then v else Find(Sub(prefix, None, kids), depth, k)
    {
      JoinFind(prefix, changed, depth, k);
      RawFind(prefix, changed, depth, k);
      RawFind(prefix, kids, depth, k);
      TailParts(k, key, depth, d);
    }
  }

  lemma TailParts(a: Key, b: Key, depth: nat, d: nat)
    requires depth <= d < KEY_NIBBLES
    ensures a[depth..] == b[depth..] <==> a[depth..d] == b[depth..d] && a[d] == b[d] && a[d + 1..] == b[d + 1..]
  {
    assert a[depth..] == a[depth..d] + [a[d]] + a[d + 1..];
    assert b[depth..] == b[depth..d] + [b[d]] + b[d + 1..];
    if a[depth..] == b[depth..] {
      assert a[depth..][d - depth..] == b[depth..][d - depth..];
    }
  }

  /** Store a leaf for the rest of the key. */
  method SaveLeaf(db: Store, key: Key, depth: nat, value: Bytes) returns (r: Option<Bytes>)
    requires depth <= KEY_NIBBLES && |value| == HASH_BYTES
    modifies db
    ensures Extends(old(db.rows), db.rows)
    ensures r.Some? ==> r.value != []
    ensures Outcome(db.hash, db.rows, r, Leaf(key, depth, value), depth)
  {
    hide Load, Conflicts;
    var n := Node(key[depth..], Some(value), NO_CHILDREN);
    LeafShape(n, depth);
    ghost var kids := NoKids();
    assert KidsLoaded(db.hash, db.rows, n.children, kids, KEY_NIBBLES + 1) by { NoneLoaded(db.hash, db.rows); }
    r := SaveNode(db, n, depth, kids);
  }

  lemma LeafShape(n: Node, depth: nat)
    requires depth + |n.prefix| == KEY_NIBBLES && AllNibbles(n.prefix)
    requires n.value.Some? && |n.value.value| == HASH_BYTES && n.children == NO_CHILDREN
    ensures ValidShape(n, depth)
  {
    CountNone(Present(NO_CHILDREN));
  }

  lemma NoneLoaded(h: Hash, rows: Rows)
    ensures KidsLoaded(h, rows, NO_CHILDREN, NoKids(), KEY_NIBBLES + 1)
  {
    forall e | 0 <= e < BRANCHES
      ensures Load(h, rows, NO_CHILDREN[e], KEY_NIBBLES + 1) == Some(NoKids()[e])
    {
      assert NO_CHILDREN[e] == [];
    }
  }

  /** The children of a branch load to valid subtries. */
  ghost predicate Branch(h: Hash, rows: Rows, n: Node, kids: seq<Tree>, depth: nat)
    requires depth + |n.prefix| < KEY_NIBBLES
  {
    KidsLoaded(h, rows, n.children, kids, depth + |n.prefix| + 1) && ValidKids(n.prefix, kids, depth)
  }

  /** Store a branch node, merging a node that kept only one child into that child. */
  method FinishNode(db: Store, n: Node, depth: nat, ghost kids: seq<Tree>) returns (r: Option<Bytes>)
    requires depth + |n.prefix| < KEY_NIBBLES && n.value.None?
    modifies db
    ensures Extends(old(db.rows), db.rows)
    ensures Branch(db.hash, old(db.rows), n, kids, depth) ==> Outcome(db.hash, db.rows, r, Join(n.prefix, kids), depth)
  {
    hide Load, Conflicts, Encode, Decode, Valid, Find, ReadNode, Count, Join;
    ghost var d := depth + |n.prefix| + 1;
    ghost var good := Branch(db.hash, db.rows, n, kids, depth);
    if good {
      SameOccupancy(db.hash, db.rows, n.children, kids, d);
      JoinCases(n.prefix, kids);
    }
    var count := NodeCodec.ChildrenCount(n);
    if count == 0 {
      assert Load(db.hash, db.rows, [], depth) == Some(Absent) by { NullLoads(db.hash, db.rows, depth); }
      return Some([]);
    }
    if count == 1 {
      var edge := NodeCodec.SingleChildIndex(n);
      if edge < 0 { NobodyHome(n); }
      if good { FirstIs(kids, n.children, edge); }
      var child := ReadTreeNode(db, n.children[edge], depth + |n.prefix| + 1);
      if good { LoadKids(db.hash, db.rows, n.children[edge], d); }
      if child.None? {
        return None;
      }
      var compact := Node(n.prefix + [edge] + child.value.prefix, child.value.value, child.value.children);
      if good { JoinedShape(n.prefix, kids, depth, compact); }
      r := SaveNode(db, compact, depth, if good then kids[edge].kids else []);
      return;
    }
    if good { JoinedShape(n.prefix, kids, depth, n); }
    r := SaveNode(db, n, depth, kids);
  }

  lemma SameOccupancy(h: Hash, rows: Rows, children: seq<Bytes>, kids: seq<Tree>, depth: nat)
    requires depth <= KEY_NIBBLES + 1 && KidsLoaded(h, rows, children, kids, depth)
    ensures Occupied(kids) == Present(children)
    ensures forall e | 0 <= e < BRANCHES :: children[e] == [] || |children[e]| == HASH_BYTES
  {
    forall e | 0 <= e < BRANCHES
      ensures Occupied(kids)[e] == Present(children)[e]
      ensures children[e] == [] || |children[e]| == HASH_BYTES
    {
      assert Load(h, rows, children[e], depth) == Some(kids[e]);
    }
  }

  lemma NobodyHome(n: Node)
    requires forall i | 0 <= i < BRANCHES :: n.children[i] == []
    ensures Count(Present(n.children)) == 0
  {
    CountNone(Present(n.children));
  }

  lemma FirstIs(kids: seq<Tree>, children: seq<Bytes>, edge: nat)
    requires edge < |kids| == |children| && Occupied(kids) == Present(children) && Count(Occupied(kids)) > 0
    requires children[edge] != [] && forall i | 0 <= i < edge :: children[i] == []
    ensures FirstOccupied(kids) == edge
  {
    assert Present(children)[edge] && Occupied(kids)[edge];
    var e := FirstOccupied(kids);
    assert Occupied(kids)[e] && Present(children)[e];
  }

  /** The node that stands for a joined branch is well shaped. */
  lemma JoinedShape(prefix: Bytes, kids: seq<Tree>, depth: nat, n: Node)
    requires ValidKids(prefix, kids, depth) && Count(Occupied(kids)) > 0
    requires forall e | 0 <= e < BRANCHES :: n.children[e] == [] || |n.children[e]| == HASH_BYTES
    requires n.prefix == Join(prefix, kids).prefix && n.value == Join(prefix, kids).value
    requires Present(n.children) == Occupied(Join(prefix, kids).kids)
    ensures ValidShape(n, depth)
  {
    JoinValid(prefix, kids, depth);
  }

  /** `n` is the stored top node of the valid trie `t`. */
  ghost predicate Stands(h: Hash, rows: Rows, n: Node, t: Tree, depth: nat) {
    && t.Sub? && t.prefix == n.prefix && t.value == n.value
    && depth + |n.prefix| <= KEY_NIBBLES
    && KidsLoaded(h, rows, n.children, t.kids, depth + |n.prefix| + 1)
    && Valid(t, depth)
  }

  lemma LoadedStands(h: Hash, rows: Rows, digest: Bytes, depth: nat)
    requires depth <= KEY_NIBBLES && digest != [] && Load(h, rows, digest, depth).Some?
    ensures ReadNode(h, rows, digest, depth).Some?
    ensures Stands(h, rows, ReadNode(h, rows, digest, depth).value, Load(h, rows, digest, depth).value, depth)
  {
    hide Encode, Decode;
    LoadKids(h, rows, digest, depth);
    LoadValid(h, rows, digest, depth);
  }

  lemma SuffixShape(n: Node, depth: nat, common: nat)
    requires ValidShape(n, depth) && common < |n.prefix|
    ensures ValidShape(Node(n.prefix[common + 1..], n.value, n.children), depth + common + 1)
  {}

  lemma ForkShape(fork: Node, depth: nat, a: nat, b: nat)
    requires depth + |fork.prefix| < KEY_NIBBLES && AllNibbles(fork.prefix) && fork.value.None?
    requires a < BRANCHES && b < BRANCHES && a != b && |fork.children[a]| == |fork.children[b]| == HASH_BYTES
    requires forall e | 0 <= e < BRANCHES && e != a && e != b :: fork.children[e] == []
    ensures ValidShape(fork, depth)
  {
    CountTwo(Present(fork.children), if a < b then a else b, if a < b then b else a);
  }

  /** Splitting and adding a leaf on the new edge changes exactly the key. */
  lemma SplitUpdated(t: Tree, depth: nat, common: nat, key: Key, value: Bytes)
    requires Valid(t, depth) && common < |t.prefix| && |value| == HASH_BYTES
    requires key[depth..depth + common] == t.prefix[..common] && key[depth + common] != t.prefix[common]
    ensures var kids := SplitKids(t, common)[key[depth + common] := Leaf(key, depth + common + 1, value)];
      Updated(t, Sub(t.prefix[..common], None, kids), depth, key, Some(value))
  {
    SplitValid(t, common, depth);
    var fork, edge, prefix := depth + common, key[depth + common], t.prefix[..common];
    var kids, leaf := SplitKids(t, common), Leaf(key, fork + 1, value);
    assert kids[edge] == Absent && kids[t.prefix[common]].Sub?;
    hide Find, Valid, Updated, Join, Count, Occupied, SplitKids, Leaf, Suffix, ValidKids;
    AbsentFind(fork + 1);
    LeafUpdated(Absent, key, fork + 1, value);
    ReplaceKid(prefix, kids, depth, key, leaf, Some(value));
    TwoJoin(prefix, kids[edge := leaf], edge, t.prefix[common]);
    var before, after := Sub(prefix, None, kids), Sub(prefix, None, kids[edge := leaf]);
    assert Updated(before, after, depth, key, Some(value));
    forall k: Key
      ensures Find(before, depth, k) == Find(t, depth, k)
    {
      SplitFind(t, common, depth, k);
    }
    SameUpdated(before, t, after, depth, key, Some(value));
  }

  /** A branch with two children stays a branch. */
  lemma TwoJoin(prefix: Bytes, kids: seq<Tree>, i: nat, j: nat)
    requires |kids| == BRANCHES && i < BRANCHES && j < BRANCHES && i != j && kids[i].Sub? && kids[j].Sub?
    ensures Join(prefix, kids) == Sub(prefix, None, kids)
  {
    hide Join, Count;
    var flags := Occupied(kids);
    assert flags[i] && flags[j];
    CountTwo(flags, if i < j then i else j, if i < j then j else i);
    JoinCases(prefix, kids);
  }

  lemma SameUpdated(a: Tree, b: Tree, after: Tree, depth: nat, key: Key, v: Option<Bytes>)
    requires depth <= KEY_NIBBLES && Updated(a, after, depth, key, v)
    requires forall k: Key :: Find(a, depth, k) == Find(b, depth, k)
    ensures Updated(b, after, depth, key, v)
  {
    hide Find, Valid;
    forall k: Key
      ensures Find(a, depth, k) == Find(b, depth, k)
    {}
  }

  lemma LeafUpdated(before: Tree, key: Key, depth: nat, value: Bytes)
    requires depth <= KEY_NIBBLES && |value| == HASH_BYTES
    requires forall k: Key | k[depth..] != key[depth..] :: Find(before, depth, k).None?
    ensures Updated(before, Leaf(key, depth, value), depth, key, Some(value))
  {
    LeafValid(key, depth, value);
    forall k: Key
      ensures Find(Leaf(key, depth, value), depth, k) ==
              if k[depth..] == key[depth..] then Some(value) else Find(before, depth, k)
    {
      LeafFind(key, depth, value, k);
    }
  }

  lemma ForkLoaded(h: Hash, rows: Rows, children: seq<Bytes>, kids: seq<Tree>, depth: nat, a: nat, b: nat)
    requires depth <= KEY_NIBBLES && |children| == |kids| == BRANCHES && a < BRANCHES && b < BRANCHES
    requires Load(h, rows, children[a], depth) == Some(kids[a]) && Load(h, rows, children[b], depth) == Some(kids[b])
    requires forall e | 0 <= e < BRANCHES && e != a && e != b :: children[e] == [] && kids[e] == Absent
    ensures KidsLoaded(h, rows, children, kids, depth)
  {
    hide Load;
    forall e | 0 <= e < BRANCHES
      ensures Load(h, rows, children[e], depth) == Some(kids[e])
    {
      NullLoads(h, rows, depth);
    }
  }

  lemma RootLength(h: Hash, rows: Rows, digest: Bytes, depth: nat)
    requires depth <= KEY_NIBBLES && digest != [] && Load(h, rows, digest, depth).Some?
    ensures |digest| == HASH_BYTES
  {}

  /** Split a compressed path that the new key leaves at `common`. */
  method SplitInsert(db: Store, current: Node, key: Key, depth: nat, common: nat, value: Bytes, ghost t: Tree)
    returns (r: Option<Bytes>, ghost after: Tree)
    requires ValidShape(current, depth) && |value| == HASH_BYTES
    requires common < |current.prefix| && key[depth..depth + common] == current.prefix[..common]
    requires key[depth + common] != current.prefix[common]
    modifies db
    ensures Extends(old(db.rows), db.rows)
    ensures Stands(db.hash, old(db.rows), current, t, depth) ==>
              Updated(t, after, depth, key, Some(value)) && Outcome(db.hash, db.rows, r, after, depth)
  {
    hide Load, Conflicts, Find, Valid, ValidKids, Updated;
    ghost var ok := Stands(db.hash, db.rows, current, t, depth);
    var forkDepth := depth + common;
    var oldEdge, newEdge := current.prefix[common], key[forkDepth];
    var oldSuffix := Node(current.prefix[common + 1..], current.value, current.children);
    SuffixShape(current, depth, common);
    after := Absent;
    ghost var kids := [];
    if ok {
      kids := SplitKids(t, common)[newEdge := Leaf(key, forkDepth + 1, value)];
      after := Sub(t.prefix[..common], None, kids);
      SplitUpdated(t, depth, common, key, value);
    }
    var oldHash := SaveNode(db, oldSuffix, forkDepth + 1, if ok then t.kids else []);
    if oldHash.None? {
      if ok { KidConflicts(db.hash, db.rows, after, oldEdge); }
      return None, after;
    }
    ghost var mid := db.rows;
    assert ok ==> Load(db.hash, mid, oldHash.value, forkDepth + 1) == Some(Suffix(t, common));
    var newHash := SaveLeaf(db, key, forkDepth + 1, value);
    if newHash.None? {
      if ok { KidConflicts(db.hash, db.rows, after, newEdge); }
      return None, after;
    }
    var fork := Node(current.prefix[..common], None, NO_CHILDREN[oldEdge := oldHash.value][newEdge := newHash.value]);
    if ok {
      LoadExtends(db.hash, mid, db.rows, oldHash.value, forkDepth + 1);
      RootLength(db.hash, db.rows, oldHash.value, forkDepth + 1);
      RootLength(db.hash, db.rows, newHash.value, forkDepth + 1);
      ForkShape(fork, depth, oldEdge, newEdge);
      ForkLoaded(db.hash, db.rows, fork.children, kids, forkDepth + 1, oldEdge, newEdge);
    }
    r := SaveNode(db, fork, depth, kids);
  }

  lemma KidConflicts(h: Hash, rows: Rows, t: Tree, e: nat)
    requires t.Sub? && |t.prefix| <= KEY_NIBBLES && AllNibbles(t.prefix) && e < |t.kids|
               && Conflicts(h, rows, t.kids[e])
    ensures Conflicts(h, rows, t)
  {}

  /** A trie whose node keeps the prefix and changes below it. */
  lemma KidUpdated(t: Tree, depth: nat, key: Key, kid: Tree, v: Option<Bytes>)
    requires Valid(t, depth) && depth + |t.prefix| < KEY_NIBBLES && key[depth..depth + |t.prefix|] == t.prefix
    requires Updated(t.kids[key[depth + |t.prefix|]], kid, depth + |t.prefix| + 1, key, v)
    ensures Updated(t, Join(t.prefix, t.kids[key[depth + |t.prefix|] := kid]), depth, key, v)
  {
    hide Find;
    assert t == Sub(t.prefix, None, t.kids);
    ReplaceKid(t.prefix, t.kids, depth, key, kid, v);
  }

  lemma SameKid(t: Tree, depth: nat, key: Key, v: Option<Bytes>)
    requires depth <= KEY_NIBBLES && ValidEdge(t, depth) && Find(t, depth, key) == v
    ensures Updated(t, t, depth, key, v)
  {
    forall k: Key | k[depth..] == key[depth..]
      ensures Find(t, depth, k) == v
    {
      FindSuffix(t, depth, k, key);
    }
  }

  lemma FindBelow(t: Tree, depth: nat, key: Key)
    requires Valid(t, depth)
    ensures key[depth..depth + |t.prefix|] != t.prefix ==> Find(t, depth, key) == None
    ensures key[depth..depth + |t.prefix|] == t.prefix ==>
              Find(t, depth, key) == if depth + |t.prefix| == KEY_NIBBLES then t.value
                                     else Find(t.kids[key[depth + |t.prefix|]], depth + |t.prefix| + 1, key)
  {}

  lemma LeafUpdates(t: Tree, depth: nat, key: Key)
    requires Valid(t, depth) && depth + |t.prefix| == KEY_NIBBLES && key[depth..] == t.prefix
    ensures Find(t, depth, key) == t.value
    ensures Updated(t, Absent, depth, key, None)
    ensures forall v: Bytes | |v| == HASH_BYTES :: Updated(t, t.(value := Some(v)), depth, key, Some(v))
  {
    forall k: Key
      ensures k[depth..KEY_NIBBLES] == k[depth..]
    {}
  }

  /** Only the empty root has no children and no value. */
  lemma ChildlessIsEmpty(t: Tree, depth: nat)
    requires Valid(t, depth) && depth + |t.prefix| < KEY_NIBBLES && Count(Occupied(t.kids)) == 0
    ensures depth == 0 && t.prefix == [] && forall k: Key :: Find(t, depth, k) == None
  {
    forall k: Key
      ensures Find(t, 0, k) == None
    {
      EmptyIsEmpty(t, k);
    }
  }

  /** Give `key` the value `v` (or remove it) below a stored digest. */
  method ChangeSubtree(db: Store, current: Bytes, key: Key, depth: nat, v: Option<Bytes>)
    returns (r: Option<Bytes>, ghost after: Tree)
    requires depth <= KEY_NIBBLES && (v.Some? ==> |v.value| == HASH_BYTES)
    modifies db
    decreases KEY_NIBBLES - depth, 2
    ensures Extends(old(db.rows), db.rows)
    ensures var before := Load(db.hash, old(db.rows), current, depth);
      before.Some? ==>
        && Updated(before.value, after, depth, key, v) && Outcome(db.hash, db.rows, r, after, depth)
        && (Find(before.value, depth, key) == v ==> r == Some(current) && db.rows == old(db.rows))
  {
    hide Load, Conflicts, Find, Valid, Updated;
    ghost var before := Load(db.hash, db.rows, current, depth);
    if current == [] {
      NullLoads(db.hash, db.rows, depth);
      AbsentFind(depth);
      if v.None? {
        SameKid(Absent, depth, key, v);
        return Some([]), Absent;
      }
      LeafUpdated(Absent, key, depth, v.value);
      r := SaveLeaf(db, key, depth, v.value);
      return r, Leaf(key, depth, v.value);
    }
    var node := ReadTreeNode(db, current, depth);
    if before.Some? { LoadedStands(db.hash, db.rows, current, depth); }
    if node.None? {
      return None, Absent;
    }
    r, after := ChangeNode(db, current, node.value, key, depth, v, if before.Some? then before.value else Absent);
  }

  /** What every case of a change promises about the trie `t` under `current`. */
  ghost predicate Performed(h: Hash, start: Rows, end: Rows, current: Bytes, n: Node, t: Tree, depth: nat, key: Key,
                            v: Option<Bytes>, r: Option<Bytes>, after: Tree)
    requires depth <= KEY_NIBBLES
  {
    && Extends(start, end)
    && (Stands(h, start, n, t, depth) && Load(h, start, current, depth) == Some(t) ==>
          && Updated(t, after, depth, key, v) && Outcome(h, end, r, after, depth)
          && (Find(t, depth, key) == v ==> r == Some(current) && end == start))
  }

  /** The cases on a node that was read: leave the path, stop at a leaf or at the empty root, or go below. */
  method ChangeNode(db: Store, current: Bytes, n: Node, key: Key, depth: nat, v: Option<Bytes>, ghost t: Tree)
    returns (r: Option<Bytes>, ghost after: Tree)
    requires depth <= KEY_NIBBLES && (v.Some? ==> |v.value| == HASH_BYTES) && ValidShape(n, depth)
    modifies db
    decreases KEY_NIBBLES - depth, 1
    ensures Performed(db.hash, old(db.rows), db.rows, current, n, t, depth, key, v, r, after)
  {
    hide Load, Conflicts, Find, Valid, Updated;
    ghost var ok := Stands(db.hash, db.rows, n, t, depth);
    if ok { FindBelow(t, depth, key); }
    var common := CommonPrefix(key, depth, n.prefix);
    if common < |n.prefix| {
      PrefixDiffers(key, depth, n.prefix, common);
      if v.None? {
        if ok { SameKid(t, depth, key, v); }
        return Some(current), t;
      }
      r, after := SplitInsert(db, n, key, depth, common, v.value, t);
      return;
    }
    assert n.prefix[..common] == n.prefix;
    if depth + |n.prefix| == KEY_NIBBLES {
      r, after := ChangeLeaf(db, current, n, key, depth, v, t);
      return;
    }
    var count := NodeCodec.ChildrenCount(n);
    if count == 0 {
      if ok {
        SameOccupancy(db.hash, db.rows, n.children, t.kids, depth + |n.prefix| + 1);
        ChildlessIsEmpty(t, depth);
      }
      if v.None? {
        if ok { SameKid(t, depth, key, v); }
        return Some(current), t;
      }
      if ok { LeafUpdated(t, key, depth, v.value); }
      r := SaveLeaf(db, key, depth, v.value);
      return r, Leaf(key, depth, v.value);
    }
    r, after := ChangeBelow(db, current, n, key, depth, v, t);
  }

  /** The key's own leaf: keep it, drop it, or store another value. */
  method ChangeLeaf(db: Store, current: Bytes, n: Node, key: Key, depth: nat, v: Option<Bytes>, ghost t: Tree)
    returns (r: Option<Bytes>, ghost after: Tree)
    requires (v.Some? ==> |v.value| == HASH_BYTES) && ValidShape(n, depth)
    requires depth + |n.prefix| == KEY_NIBBLES && key[depth..depth + |n.prefix|] == n.prefix
    modifies db
    ensures Performed(db.hash, old(db.rows), db.rows, current, n, t, depth, key, v, r, after)
  {
    hide Load, Conflicts, Find, Valid, Updated;
    ghost var ok := Stands(db.hash, db.rows, n, t, depth);
    assert key[depth..KEY_NIBBLES] == key[depth..];
    if ok { LeafUpdates(t, depth, key); }
    if n.value == v {
      if ok { SameKid(t, depth, key, v); }
      return Some(current), t;
    }
    if v.None? {
      NullLoads(db.hash, db.rows, depth);
      return Some([]), Absent;
    }
    r := SaveNode(db, n.(value := v), depth, if ok then t.kids else []);
    after := if ok then t.(value := v) else Absent;
  }

  lemma PrefixDiffers(key: Key, depth: nat, prefix: Bytes, common: nat)
    requires depth + |prefix| <= KEY_NIBBLES && common < |prefix| && key[depth + common] != prefix[common]
    ensures key[depth..depth + |prefix|] != prefix
  {
    assert key[depth..depth + |prefix|][common] == key[depth + common];
  }

  /** The recursive step: change one child, then re-join the node. */
  method ChangeBelow(db: Store, current: Bytes, n: Node, key: Key, depth: nat, v: Option<Bytes>, ghost t: Tree)
    returns (r: Option<Bytes>, ghost after: Tree)
    requires depth + |n.prefix| < KEY_NIBBLES && (v.Some? ==> |v.value| == HASH_BYTES)
    requires ValidShape(n, depth) && key[depth..depth + |n.prefix|] == n.prefix
    requires Count(Present(n.children)) > 0
    modifies db
    decreases KEY_NIBBLES - depth, 0
    ensures Performed(db.hash, old(db.rows), db.rows, current, n, t, depth, key, v, r, after)
  {
    hide Load, Conflicts, Find, Valid, Updated;
    ghost var ok := Stands(db.hash, db.rows, n, t, depth);
    ghost var start := db.rows;
    var d := depth + |n.prefix|;
    var edge := key[d];
    if ok {
      FindBelow(t, depth, key);
      SameOccupancy(db.hash, start, n.children, t.kids, d + 1);
    }
    var updated, kid := ChangeSubtree(db, n.children[edge], key, d + 1, v);
    ghost var mid := db.rows;
    ghost var kids := [];
    after := Absent;
    if ok {
      kids := t.kids[edge := kid];
      after := Join(t.prefix, kids);
      KidUpdated(t, depth, key, kid, v);
    }
    if updated.None? {
      if ok { JoinConflicts(db.hash, mid, t, depth, edge, kid); }
      return None, after;
    }
    if ok { KidsExtend(db.hash, start, mid, n.children, t.kids, d + 1); }
    if updated.value == n.children[edge] {
      if ok && Load(db.hash, start, current, depth) == Some(t) {
        LoadExtends(db.hash, start, mid, current, depth);
        StillSame(t, depth, key, v);
      }
      return Some(current), t;
    }
    if ok { KidsValid(t, depth, key, kid, v); }
    r := FinishNode(db, n.(children := n.children[edge := updated.value]), depth, kids);
  }

  /** A conflict below a changed child is a conflict in the joined trie. */
  lemma JoinConflicts(h: Hash, rows: Rows, t: Tree, depth: nat, edge: nat, kid: Tree)
    requires Valid(t, depth) && edge < BRANCHES && Conflicts(h, rows, kid) && Count(Occupied(t.kids)) >= 2
    ensures Conflicts(h, rows, Join(t.prefix, t.kids[edge := kid]))
  {
    hide Encode;
    var kids := t.kids[edge := kid];
    var i, j := CountWitness(Occupied(t.kids));
    assert Occupied(kids)[i] && Occupied(kids)[j];
    CountTwo(Occupied(kids), i, j);
    KidConflicts(h, rows, Join(t.prefix, kids), edge);
  }

  lemma StillSame(t: Tree, depth: nat, key: Key, v: Option<Bytes>)
    requires Valid(t, depth) && depth + |t.prefix| < KEY_NIBBLES && key[depth..depth + |t.prefix|] == t.prefix
    requires Updated(t.kids[key[depth + |t.prefix|]], t.kids[key[depth + |t.prefix|]], depth + |t.prefix| + 1, key, v)
    ensures Updated(t, t, depth, key, v)
  {
    FindBelow(t, depth, key);
    assert Find(t.kids[key[depth + |t.prefix|]], depth + |t.prefix| + 1, key) == v;
    SameKid(t, depth, key, v);
  }

  lemma KidsValid(t: Tree, depth: nat, key: Key, kid: Tree, v: Option<Bytes>)
    requires Valid(t, depth) && depth + |t.prefix| < KEY_NIBBLES
    requires Updated(t.kids[key[depth + |t.prefix|]], kid, depth + |t.prefix| + 1, key, v)
    ensures ValidKids(t.prefix, t.kids[key[depth + |t.prefix|] := kid], depth)
  {}

  /** Create or reuse the canonical empty root. */
  method EmptyRoot(db: Store) returns (r: Option<Bytes>)
    modifies db
    ensures Extends(old(db.rows), db.rows)
    ensures r.Some? ==> DenotesMap(db.hash, db.rows, r.value, map[])
    ensures r.None? ==> db.rows == old(db.rows)
    ensures Outcome(db.hash, db.rows, r, EmptyTree(), 0)
  {
    hide Load, Conflicts, Encode, Decode;
    EmptyTreeValid();
    EmptyNodeShape();
    EmptyLoaded(db.hash, db.rows);
    r := SaveNode(db, EMPTY_NODE, 0, NoKids());
  }

  lemma EmptyNodeShape()
    ensures ValidShape(EMPTY_NODE, 0)
  {
    CountNone(Present(NO_CHILDREN));
  }

  lemma EmptyLoaded(h: Hash, rows: Rows)
    ensures KidsLoaded(h, rows, NO_CHILDREN, NoKids(), 1)
  {
    forall e | 0 <= e < BRANCHES
      ensures Load(h, rows, NO_CHILDREN[e], 1) == Some(NoKids()[e])
    {
      assert NO_CHILDREN[e] == [];
    }
  }

  lemma WholeKey(a: Key, b: Key)
    ensures a[0..] == b[0..] <==> a == b
  {}

  /** At the root, changing one key is writing the map; the empty subtree becomes the empty root. */
  lemma UpdatedDenotes(before: Tree, after: Tree, key: Key, v: Option<Bytes>, m: map<Key, Bytes>)
    requires Updated(before, after, 0, key, v) && Denotes(before, m)
    ensures var root := if after.Absent? then EmptyTree() else after; Valid(root, 0) && Denotes(root, Write(m, key, v))
  {
    EmptyTreeValid();
    AbsentFind(0);
    forall k: Key
      ensures Find(after, 0, k) == Get(Write(m, key, v), k)
    {
      WholeKey(k, key);
    }
  }

  /** The write was refused because a node of the trie for `m` collides with a stored row. */
  ghost predicate Blocked(h: Hash, rows: Rows, m: map<Key, Bytes>) {
    exists t: Tree :: Valid(t, 0) && Denotes(t, m) && Conflicts(h, rows, t)
  }

  /**
   Replace or remove one key. The new root stands for the written map; a write
   that changes nothing returns the same root and stores nothing; the only
   failures on a sound tree are a missing blob and a digest collision.
   */
  method Update(db: Store, root: Bytes, uuid: Uuid, blob: Option<Bytes>) returns (r: Option<Bytes>)
    modifies db
    ensures Extends(old(db.rows), db.rows)
    ensures forall m | DenotesMap(db.hash, old(db.rows), root, m) ::
              && (r.Some? ==> DenotesMap(db.hash, db.rows, r.value, Write(m, Unpack(uuid), blob)))
              && (BlobKnown(db.hash, old(db.rows), blob) && Get(m, Unpack(uuid)) == blob ==>
                    r == Some(root) && db.rows == old(db.rows))
              && (BlobKnown(db.hash, old(db.rows), blob) && r.None? ==>
                    Blocked(db.hash, db.rows, Write(m, Unpack(uuid), blob)))
    ensures !BlobKnown(db.hash, old(db.rows), blob) ==> r.None? && db.rows == old(db.rows)
  {
    hide Load, Conflicts, Find, Updated, Denotes, Valid;
    if blob.Some? {
      if |blob.value| != HASH_BYTES {
        return None;
      }
      var found := db.Load(Blob, blob.value);
      if found.None? {
        return None;
      }
    }
    var key := UnpackKey(uuid);
    ghost var before := Load(db.hash, db.rows, root, 0);
    forall m | DenotesMap(db.hash, db.rows, root, m)
      ensures Find(before.value, 0, Unpack(uuid)) == Get(m, Unpack(uuid))
    {
      DenotesAt(before.value, m, Unpack(uuid));
    }
    ghost var start := db.rows;
    var updated, after := ChangeSubtree(db, root, key, 0, blob);
    ghost var mid := db.rows;
    ghost var rootTree := if after.Absent? then EmptyTree() else after;
    forall m | DenotesMap(db.hash, start, root, m)
      ensures Valid(rootTree, 0) && Denotes(rootTree, Write(m, Unpack(uuid), blob))
      ensures updated.Some? ==> (updated.value == [] <==> after.Absent?)
      ensures updated.None? ==> after.Sub?
    {
      UpdatedDenotes(before.value, after, Unpack(uuid), blob, m);
      NullLoads(db.hash, mid, 0);
      if updated.Some? && updated.value != [] { LoadKids(db.hash, mid, updated.value, 0); }
      if updated.None? { ConflictsSub(db.hash, mid, after); }
    }
    if updated.None? {
      return None;
    }
    if updated.value != [] {
      return updated;
    }
    r := EmptyRoot(db);
    if r.Some? {
      forall m | DenotesMap(db.hash, start, root, m)
        ensures DenotesMap(db.hash, db.rows, r.value, Write(m, Unpack(uuid), blob))
      {
        assert Load(db.hash, db.rows, r.value, 0) == Some(EmptyTree());
      }
    }
  }

  lemma ConflictsSub(h: Hash, rows: Rows, t: Tree)
    requires Conflicts(h, rows, t)
    ensures t.Sub?
  {}

  lemma DenotesAt(t: Tree, m: map<Key, Bytes>, k: Key)
    requires Denotes(t, m)
    ensures Find(t, 0, k) == Get(m, k)
  {}

  predicate BlobKnown(h: Hash, rows: Rows, blob: Option<Bytes>) {
    blob.Some? ==> Fetch(h, rows, Blob, blob.value).Some?
  }
}
