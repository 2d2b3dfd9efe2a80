/** Digest collisions that no way of building a trie gets around. */
module TreeClash {
  import opened Prelude
  import opened Uuid
  import opened TreeNode
  import opened RadixTree
  import opened ContentStore
  import opened TreeStore

  /** The trie of the map has two nodes of one digest, or a node whose digest other content already has. */
  ghost predicate Clashes(h: Hash, rows: Rows, m: map<Key, Bytes>) {
    exists t: Tree :: Valid(t, 0) && Denotes(t, m) && (Conflicts(h, rows, t) || SelfClash(h, t))
  }

  /** Stored subtries with one digest are one subtrie. */
  lemma {:induction false} SameRoots(h: Hash, rows: Rows, a: Tree, b: Tree, da: nat, db: nat)
    requires Held(h, rows, a) && Held(h, rows, b) && Valid(a, da) && Valid(b, db) && Root(h, a) == Root(h, b)
    ensures a == b
    decreases a
  {
    hide Encode;
    var na, nb := NodeOf(h, a), NodeOf(h, b);
    NodeOfShape(h, a, da);
    NodeOfShape(h, b, db);
    EncodeInjective(na, nb, da, db);
    forall e | 0 <= e < BRANCHES
      ensures a.kids[e] == b.kids[e]
    {
      assert na.children[e] == Root(h, a.kids[e]) && nb.children[e] == Root(h, b.kids[e]);
      assert Present(na.children)[e] == Occupied(a.kids)[e] && Present(nb.children)[e] == Occupied(b.kids)[e];
      if a.kids[e].Sub? {
        SameRoots(h, rows, a.kids[e], b.kids[e], da + |a.prefix| + 1, db + |b.prefix| + 1);
      }
    }
    assert a.kids == b.kids;
  }

  /** A subtrie of a stored trie is stored, and valid at its depth. */
  lemma {:induction false} WithinHeld(h: Hash, rows: Rows, s: Tree, t: Tree, depth: nat) returns (depth': nat)
    requires Within(s, t) && s.Sub? && Held(h, rows, t) && Valid(t, depth)
    ensures Held(h, rows, s) && Valid(s, depth')
    decreases t
  {
    hide Encode;
    if s == t {
      depth' := depth;
    } else {
      var e :| 0 <= e < |t.kids| && Within(s, t.kids[e]);
      assert t.kids[e].Sub?;
      depth' := WithinHeld(h, rows, s, t.kids[e], depth + |t.prefix| + 1);
    }
  }

  /** What is stored does not conflict with what was there before. */
  lemma {:induction false} HeldFits(h: Hash, before: Rows, after: Rows, t: Tree)
    requires Held(h, after, t) && Extends(before, after)
    ensures !Conflicts(h, before, t)
    decreases t
  {
    hide Encode;
    if Conflicts(h, before, t) && Storable(h, before, TreeKind, Encode(NodeOf(h, t))) {
      var e :| 0 <= e < |t.kids| && Conflicts(h, before, t.kids[e]);
      HeldFits(h, before, after, t.kids[e]);
    }
  }

  /** Where the trie of a map clashes, no root will ever denote the map, whatever is added. */
  lemma ClashBlocks(h: Hash, before: Rows, after: Rows, root: Bytes, m: map<Key, Bytes>)
    requires Clashes(h, before, m) && Extends(before, after)
    ensures !DenotesMap(h, after, root, m)
  {
    hide Encode, Conflicts, Held, Valid, Denotes, Root, Load;
    var t: Tree :| Valid(t, 0) && Denotes(t, m) && (Conflicts(h, before, t) || SelfClash(h, t));
    if DenotesMap(h, after, root, m) {
      LoadValid(h, after, root, 0);
      LoadedHeld(h, after, root, 0);
      UniqueTree(Load(h, after, root, 0).value, t, m);
      HeldFits(h, before, after, t);
      var a: Tree, b: Tree :| Within(a, t) && Within(b, t) && a.Sub? && b.Sub? && a != b && Root(h, a) == Root(h, b);
      var da := WithinHeld(h, after, a, t, 0);
      var db := WithinHeld(h, after, b, t, 0);
      SameRoots(h, after, a, b, da, db);
      assert false;
    }
  }
}
