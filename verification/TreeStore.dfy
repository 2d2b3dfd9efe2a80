/** Tries held in a content store: what a root digest denotes there. */
module TreeStore {
  import opened Prelude
  import opened Uuid
  import opened TreeNode
  import opened RadixTree
  import opened ContentStore
  import NodeCodec

  /** A verified read of one node, at the depth its parent puts it. */
  ghost function ReadNode(h: Hash, rows: Rows, digest: Bytes, depth: nat): (r: Option<Node>)
    ensures r.Some? ==> ValidShape(r.value, depth) && Fetch(h, rows, TreeKind, digest) == Some(Encode(r.value))
  {
    var payload := Fetch(h, rows, TreeKind, digest);
    if payload.None? then None else Decode(payload.value, depth)
  }

  /**
   The trie below a digest, if every node of it is present, undamaged and well
   shaped at its own depth. The null digest is the absent subtree.
   */
  ghost function Load(h: Hash, rows: Rows, digest: Bytes, depth: nat): (r: Option<Tree>)
    requires depth <= KEY_NIBBLES + 1
    decreases KEY_NIBBLES + 1 - depth
  {
    if digest == [] then Some(Absent)
    else
      var n := ReadNode(h, rows, digest, depth);
      if n.None? then None
      else
        var d := depth + |n.value.prefix| + 1;
        if forall e | 0 <= e < BRANCHES :: Load(h, rows, n.value.children[e], d).Some? then
          Some(Sub(n.value.prefix, n.value.value,
                   seq(BRANCHES, e requires 0 <= e < BRANCHES => Load(h, rows, n.value.children[e], d).value)))
        else None
  }

  /** The digest a trie has, whatever store it sits in. */
  ghost function Root(h: Hash, t: Tree): Bytes
    decreases t, 1
  {
    if t.Absent? || |t.prefix| > KEY_NIBBLES || !AllNibbles(t.prefix) then []
    else h(TreeKind, Encode(NodeOf(h, t)))
  }

  ghost function NodeOf(h: Hash, t: Tree): Node
    requires t.Sub?
    decreases t, 0
  {
    Node(t.prefix, t.value,
         seq(BRANCHES, e requires 0 <= e < BRANCHES => if e < |t.kids| then Root(h, t.kids[e]) else []))
  }

  lemma LoadKids(h: Hash, rows: Rows, digest: Bytes, depth: nat)
    requires depth <= KEY_NIBBLES && digest != [] && Load(h, rows, digest, depth).Some?
    ensures ReadNode(h, rows, digest, depth).Some?
    ensures var n, t := ReadNode(h, rows, digest, depth).value, Load(h, rows, digest, depth).value;
      && t.Sub? && t.prefix == n.prefix && t.value == n.value && |t.kids| == BRANCHES
      && depth + |n.prefix| <= KEY_NIBBLES
      && Occupied(t.kids) == Present(n.children)
      && forall e | 0 <= e < BRANCHES :: Load(h, rows, n.children[e], depth + |n.prefix| + 1) == Some(t.kids[e])
  {
    hide Encode, Decode;
    var n, t := ReadNode(h, rows, digest, depth).value, Load(h, rows, digest, depth).value;
    forall e | 0 <= e < BRANCHES
      ensures Occupied(t.kids)[e] == Present(n.children)[e]
    {
      assert Load(h, rows, n.children[e], depth + |n.prefix| + 1) == Some(t.kids[e]);
    }
  }

  /** Assembling a stored node from loaded children. */
  lemma LoadFromKids(h: Hash, rows: Rows, digest: Bytes, n: Node, kids: seq<Tree>, depth: nat)
    requires depth <= KEY_NIBBLES && ReadNode(h, rows, digest, depth) == Some(n) && |kids| == BRANCHES
    requires depth + |n.prefix| <= KEY_NIBBLES
    requires forall e | 0 <= e < BRANCHES :: Load(h, rows, n.children[e], depth + |n.prefix| + 1) == Some(kids[e])
    ensures Load(h, rows, digest, depth) == Some(Sub(n.prefix, n.value, kids))
  {
    var t := Load(h, rows, digest, depth).value;
    assert t.kids == kids;
  }

  /** Only valid tries load. */
  lemma {:induction false} LoadValid(h: Hash, rows: Rows, digest: Bytes, depth: nat)
    requires depth <= KEY_NIBBLES && digest != [] && Load(h, rows, digest, depth).Some?
    ensures Valid(Load(h, rows, digest, depth).value, depth)
    decreases KEY_NIBBLES - depth
  {
    hide Encode;
    hide Decode;
    LoadKids(h, rows, digest, depth);
    var n, t := ReadNode(h, rows, digest, depth).value, Load(h, rows, digest, depth).value;
    forall e | 0 <= e < BRANCHES && t.kids[e].Sub?
      ensures Valid(t.kids[e], depth + |n.prefix| + 1)
    {
      CountNone(Present(n.children));
      assert Present(n.children)[e];
      LoadValid(h, rows, n.children[e], depth + |n.prefix| + 1);
    }
  }

  /** A stored trie's digest is determined by the trie alone. */
  lemma {:induction false} LoadRoot(h: Hash, rows: Rows, digest: Bytes, depth: nat)
    requires depth <= KEY_NIBBLES + 1 && Load(h, rows, digest, depth).Some?
    ensures Root(h, Load(h, rows, digest, depth).value) == digest
    decreases KEY_NIBBLES + 1 - depth
  {
    hide Encode;
    hide Decode;
    if digest != [] {
      var n, t := ReadNode(h, rows, digest, depth).value, Load(h, rows, digest, depth).value;
      LoadKids(h, rows, digest, depth);
      forall e | 0 <= e < BRANCHES
        ensures n.children[e] == NodeOf(h, t).children[e]
      {
        LoadRoot(h, rows, n.children[e], depth + |n.prefix| + 1);
      }
      assert NodeOf(h, t).children == n.children;
      assert NodeOf(h, t) == n;
    }
  }

  /** What a digest denotes is unaffected by later insertions. */
  lemma {:induction false} LoadExtends(h: Hash, before: Rows, after: Rows, digest: Bytes, depth: nat)
    requires depth <= KEY_NIBBLES + 1 && Extends(before, after) && Load(h, before, digest, depth).Some?
    ensures Load(h, after, digest, depth) == Load(h, before, digest, depth)
    decreases KEY_NIBBLES + 1 - depth
  {
    hide Encode, Decode;
    if digest != [] {
      LoadKids(h, before, digest, depth);
      var n, t := ReadNode(h, before, digest, depth).value, Load(h, before, digest, depth).value;
      forall e | 0 <= e < BRANCHES
        ensures Load(h, after, n.children[e], depth + |n.prefix| + 1) == Some(t.kids[e])
      {
        LoadExtends(h, before, after, n.children[e], depth + |n.prefix| + 1);
      }
      LoadFromKids(h, after, digest, n, t.kids, depth);
    }
  }

  /** The digest is the root of a complete stored trie for the map. */
  ghost predicate DenotesMap(h: Hash, rows: Rows, root: Bytes, m: map<Key, Bytes>) {
    root != [] && Load(h, rows, root, 0).Some? && Denotes(Load(h, rows, root, 0).value, m)
  }

  /** One map has one root digest, in every store and however it was built. */
  lemma UniqueRoot(h: Hash, rowsA: Rows, rowsB: Rows, rootA: Bytes, rootB: Bytes, m: map<Key, Bytes>)
    requires DenotesMap(h, rowsA, rootA, m) && DenotesMap(h, rowsB, rootB, m)
    ensures rootA == rootB
  {
    LoadValid(h, rowsA, rootA, 0);
    LoadValid(h, rowsB, rootB, 0);
    UniqueTree(Load(h, rowsA, rootA, 0).value, Load(h, rowsB, rootB, 0).value, m);
    LoadRoot(h, rowsA, rootA, 0);
    LoadRoot(h, rowsB, rootB, 0);
  }

  /** Old roots keep their meaning. */
  lemma RootsPersist(h: Hash, before: Rows, after: Rows, root: Bytes, m: map<Key, Bytes>)
    requires DenotesMap(h, before, root, m) && Extends(before, after)
    ensures DenotesMap(h, after, root, m)
  {
    LoadExtends(h, before, after, root, 0);
  }

  // ------------------------------------------------------- tries as prepared rows

  /** Every node of the trie is a row under its own digest. */
  ghost predicate Held(h: Hash, rows: Rows, t: Tree) {
    t.Sub? ==>
      && |t.prefix| <= KEY_NIBBLES && AllNibbles(t.prefix)
      && Get(rows, Root(h, t)) == Some(Row(TreeKind, Encode(NodeOf(h, t))))
      && forall e | 0 <= e < |t.kids| :: Held(h, rows, t.kids[e])
  }

  lemma {:induction false} HeldExtends(h: Hash, before: Rows, after: Rows, t: Tree)
    requires Held(h, before, t) && Extends(before, after)
    ensures Held(h, after, t)
    decreases t
  {
    hide Encode;
    if t.Sub? {
      forall e | 0 <= e < |t.kids|
        ensures Held(h, after, t.kids[e])
      {
        HeldExtends(h, before, after, t.kids[e]);
      }
    }
  }

  lemma NodeOfShape(h: Hash, t: Tree, depth: nat)
    requires Valid(t, depth)
    ensures ValidShape(NodeOf(h, t), depth) && |Root(h, t)| == HASH_BYTES
    ensures Present(NodeOf(h, t).children) == Occupied(t.kids)
  {
    hide Encode;
    forall e | 0 <= e < BRANCHES
      ensures Present(NodeOf(h, t).children)[e] == Occupied(t.kids)[e]
      ensures NodeOf(h, t).children[e] == [] || |NodeOf(h, t).children[e]| == HASH_BYTES
    {
      if t.kids[e].Sub? {
        assert Valid(t.kids[e], depth + |t.prefix| + 1);
        assert Shape(t.kids[e].prefix, t.kids[e].value, Occupied(t.kids[e].kids), depth + |t.prefix| + 1);
      }
    }
    assert Present(NodeOf(h, t).children) == Occupied(t.kids);
  }

  /** A valid trie whose nodes are all rows loads from its digest. */
  lemma {:induction false} LoadHeld(h: Hash, rows: Rows, t: Tree, depth: nat)
    requires depth <= KEY_NIBBLES && Valid(t, depth) && Held(h, rows, t)
    ensures Root(h, t) != [] && Load(h, rows, Root(h, t), depth) == Some(t)
    decreases t
  {
    hide Encode, Decode, Load, Valid;
    NodeOfShape(h, t, depth);
    var n, d := NodeOf(h, t), depth + |t.prefix| + 1;
    DecodeEncode(n, depth);
    assert ReadNode(h, rows, Root(h, t), depth) == Some(n);
    forall e | 0 <= e < BRANCHES
      ensures Load(h, rows, n.children[e], d) == Some(t.kids[e])
    {
      if t.kids[e].Absent? {
        NullLoads(h, rows, d);
      } else {
        KidValid(t, depth, e);
        LoadHeld(h, rows, t.kids[e], d);
      }
    }
    LoadFromKids(h, rows, Root(h, t), n, t.kids, depth);
  }

  /** Conversely, all nodes of a loaded trie are rows. */
  lemma {:induction false} LoadedHeld(h: Hash, rows: Rows, digest: Bytes, depth: nat)
    requires depth <= KEY_NIBBLES + 1 && Load(h, rows, digest, depth).Some?
    ensures Held(h, rows, Load(h, rows, digest, depth).value)
    decreases KEY_NIBBLES + 1 - depth
  {
    hide Encode, Decode, Load;
    if digest == [] {
      NullLoads(h, rows, depth);
    } else if depth <= KEY_NIBBLES {
      LoadKids(h, rows, digest, depth);
      LoadRoot(h, rows, digest, depth);
      LoadValid(h, rows, digest, depth);
      var n, t := ReadNode(h, rows, digest, depth).value, Load(h, rows, digest, depth).value;
      var d := depth + |n.prefix| + 1;
      NodeOfLoaded(h, rows, n, t.kids, d);
      assert Sub(n.prefix, n.value, t.kids) == t;
      forall e | 0 <= e < BRANCHES
        ensures Held(h, rows, t.kids[e])
      {
        LoadedHeld(h, rows, n.children[e], d);
      }
    } else {
      LoadDepth(h, rows, digest, depth);
    }
  }

  lemma LoadDepth(h: Hash, rows: Rows, digest: Bytes, depth: nat)
    requires depth == KEY_NIBBLES + 1 && Load(h, rows, digest, depth).Some?
    ensures digest == []
  {}

  lemma KidValid(t: Tree, depth: nat, e: nat)
    requires Valid(t, depth) && e < BRANCHES && t.kids[e].Sub?
    ensures depth + |t.prefix| + 1 <= KEY_NIBBLES && Valid(t.kids[e], depth + |t.prefix| + 1)
  {
    CountNone(Occupied(t.kids));
    assert Occupied(t.kids)[e];
  }

  lemma NullLoads(h: Hash, rows: Rows, depth: nat)
    requires depth <= KEY_NIBBLES + 1
    ensures Load(h, rows, [], depth) == Some(Absent)
  {}

  /** `s` is `t` or one of its subtries. */
  ghost predicate Within(s: Tree, t: Tree) {
    s == t || (t.Sub? && exists e | 0 <= e < |t.kids| :: Within(s, t.kids[e]))
  }

  /** Two different nodes of one trie hash alike. */
  ghost predicate SelfClash(h: Hash, t: Tree) {
    exists a: Tree, b: Tree :: Within(a, t) && Within(b, t) && a.Sub? && b.Sub? && a != b && Root(h, a) == Root(h, b)
  }

  // --------------------------------------------------------- node-level access

  method ReadTreeNode(db: Store, digest: Bytes, depth: nat) returns (r: Option<Node>)
    ensures r == ReadNode(db.hash, db.rows, digest, depth)
  {
    var payload := db.Load(TreeKind, digest);
    if payload.None? {
      return None;
    }
    r := NodeCodec.DecodeNode(payload.value, depth);
  }

  /** A row already stored under the digest of one of the trie's nodes holds something else. */
  ghost predicate Conflicts(h: Hash, rows: Rows, t: Tree) {
    && t.Sub? && |t.prefix| <= KEY_NIBBLES && AllNibbles(t.prefix)
    && (!Storable(h, rows, TreeKind, Encode(NodeOf(h, t))) || exists e | 0 <= e < |t.kids| ::
        Conflicts(h, rows, t.kids[e]))
  }

  lemma {:induction false} ConflictsExtend(h: Hash, before: Rows, after: Rows, t: Tree)
    requires Conflicts(h, before, t) && Extends(before, after)
    ensures Conflicts(h, after, t)
    decreases t
  {
    hide Encode;
    if Storable(h, before, TreeKind, Encode(NodeOf(h, t))) {
      var e :| 0 <= e < |t.kids| && Conflicts(h, before, t.kids[e]);
      ConflictsExtend(h, before, after, t.kids[e]);
    }
  }

  lemma {:induction false} WithinConflicts(h: Hash, rows: Rows, s: Tree, t: Tree, depth: nat)
    requires Within(s, t) && s.Sub? && Valid(t, depth)
    requires |s.prefix| <= KEY_NIBBLES && AllNibbles(s.prefix)
    requires !Storable(h, rows, TreeKind, Encode(NodeOf(h, s)))
    ensures Conflicts(h, rows, t)
    decreases t
  {
    hide Encode;
    if s != t {
      var e :| 0 <= e < |t.kids| && Within(s, t.kids[e]);
      assert t.kids[e].Sub?;
      WithinConflicts(h, rows, s, t.kids[e], depth + |t.prefix| + 1);
    }
  }

  /** How storing a trie ends: its root digest, or a conflicting row. */
  ghost predicate Outcome(h: Hash, rows: Rows, r: Option<Bytes>, t: Tree, depth: nat)
    requires depth <= KEY_NIBBLES + 1
  {
    if r.Some? then Load(h, rows, r.value, depth) == Some(t) else Conflicts(h, rows, t)
  }

  /** Child digests that load to the given subtries. */
  ghost predicate KidsLoaded(h: Hash, rows: Rows, children: seq<Bytes>, kids: seq<Tree>, depth: nat)
    requires depth <= KEY_NIBBLES + 1
  {
    && |children| == |kids| == BRANCHES
    && forall e | 0 <= e < BRANCHES :: Load(h, rows, children[e], depth) == Some(kids[e])
  }

  lemma KidsExtend(h: Hash, before: Rows, after: Rows, children: seq<Bytes>, kids: seq<Tree>, depth: nat)
    requires depth <= KEY_NIBBLES + 1 && Extends(before, after) && KidsLoaded(h, before, children, kids, depth)
    ensures KidsLoaded(h, after, children, kids, depth)
  {
    hide Load;
    forall e | 0 <= e < BRANCHES
      ensures Load(h, after, children[e], depth) == Some(kids[e])
    {
      LoadExtends(h, before, after, children[e], depth);
    }
  }

  /** A node over loaded children is the top node of the trie they make. */
  lemma NodeOfLoaded(h: Hash, rows: Rows, n: Node, kids: seq<Tree>, depth: nat)
    requires depth <= KEY_NIBBLES + 1 && KidsLoaded(h, rows, n.children, kids, depth)
    ensures NodeOf(h, Sub(n.prefix, n.value, kids)) == n
  {
    hide Load;
    forall e | 0 <= e < BRANCHES
      ensures NodeOf(h, Sub(n.prefix, n.value, kids)).children[e] == n.children[e]
    {
      LoadRoot(h, rows, n.children[e], depth);
    }
    assert NodeOf(h, Sub(n.prefix, n.value, kids)).children == n.children;
  }

  /** Storing a node whose children are already stored. */
  method SaveNode(db: Store, n: Node, depth: nat, ghost kids: seq<Tree>) returns (r: Option<Bytes>)
    requires depth <= KEY_NIBBLES
    modifies db
    ensures Extends(old(db.rows), db.rows)
    ensures r.Some? ==> ValidShape(n, depth) && r.value != []
    ensures r.None? ==> db.rows == old(db.rows)
    ensures ValidShape(n, depth) && KidsLoaded(db.hash, old(db.rows), n.children, kids, depth + |n.prefix| + 1) ==>
              Outcome(db.hash, db.rows, r, Sub(n.prefix, n.value, kids), depth)
  {
    hide Encode, Decode, Load;
    if !ValidShape(n, depth) {
      return None;
    }
    var bytes := NodeCodec.EncodeNode(n);
    r := db.Put(TreeKind, bytes);
    if KidsLoaded(db.hash, old(db.rows), n.children, kids, depth + |n.prefix| + 1) {
      NodeOfLoaded(db.hash, old(db.rows), n, kids, depth + |n.prefix| + 1);
      if r.Some? {
        DecodeEncode(n, depth);
        KidsExtend(db.hash, old(db.rows), db.rows, n.children, kids, depth + |n.prefix| + 1);
        LoadFromKids(db.hash, db.rows, r.value, n, kids, depth);
      }
    }
  }
}
