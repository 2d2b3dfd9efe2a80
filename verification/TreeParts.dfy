/** The parts of a map: the nodes of the tries that answer for the map below one path. */
module TreeParts {
  import opened Prelude
  import opened Uuid
  import opened TreeNode
  import opened RadixTree
  import opened ContentStore
  import opened TreeStore

  /** On `base`'s path the trie answers exactly like the map. */
  ghost predicate Tells(t: Tree, depth: nat, base: Key, m: map<Key, Bytes>)
    requires depth <= KEY_NIBBLES
  {
    forall k: Key | k[..depth] == base[..depth] :: Find(t, depth, k) == Get(m, k)
  }

  /** The valid trie of the entries of a map below one path. */
  ghost predicate Slice(t: Tree, depth: nat, base: Key, m: map<Key, Bytes>) {
    depth <= KEY_NIBBLES && Valid(t, depth) && Tells(t, depth, base, m)
  }

  /** The payload is the top node of a slice of one of the two maps. */
  ghost predicate Part(h: Hash, was: map<Key, Bytes>, will: map<Key, Bytes>, p: Bytes) {
    exists t: Tree, depth: nat, base: Key ::
      (Slice(t, depth, base, was) || Slice(t, depth, base, will)) && p == Encode(NodeOf(h, t))
  }

  ghost function Parts(h: Hash, was: map<Key, Bytes>, will: map<Key, Bytes>): iset<Bytes> {
    iset p | Part(h, was, will, p)
  }

  /** Payloads clash neither with each other nor with stored rows. */
  ghost predicate Clean(h: Hash, rows: Rows, payloads: iset<Bytes>) {
    && (forall p, q | p in payloads && q in payloads :: h(TreeKind, p) == h(TreeKind, q) ==> p == q)
    && (forall p | p in payloads :: Storable(h, rows, TreeKind, p))
  }

  /** The parts of the old and the new map are free of collisions. */
  ghost predicate BatchClean(h: Hash, rows: Rows, was: map<Key, Bytes>, will: map<Key, Bytes>) {
    Clean(h, rows, Parts(h, was, will))
  }

  lemma NoTwins(h: Hash, rows: Rows, was: map<Key, Bytes>, will: map<Key, Bytes>, p: Bytes, q: Bytes)
    requires BatchClean(h, rows, was, will) && Part(h, was, will, p) && Part(h, was, will, q)
    requires h(TreeKind, p) == h(TreeKind, q)
    ensures p == q
  {
    hide Part;
    assert p in Parts(h, was, will) && q in Parts(h, was, will);
  }

  lemma SlicePart(h: Hash, was: map<Key, Bytes>, will: map<Key, Bytes>, t: Tree, depth: nat, base: Key)
    requires Slice(t, depth, base, was) || Slice(t, depth, base, will)
    ensures Part(h, was, will, Encode(NodeOf(h, t)))
  {}

  /** Every trie of the entries below one edge of a slice is a slice. */
  lemma KidSlice(t: Tree, depth: nat, base: Key, m: map<Key, Bytes>, e: nat)
    requires Slice(t, depth, base, m) && e < BRANCHES && t.kids[e].Sub?
    ensures depth + |t.prefix| < KEY_NIBBLES
    ensures Slice(t.kids[e], depth + |t.prefix| + 1, Graft(base, depth, t.prefix + [e]), m)
  {
    KidValid(t, depth, e);
    hide Valid, Find;
    var d := depth + |t.prefix|;
    var g := Graft(base, depth, t.prefix + [e]);
    forall k: Key | k[..d + 1] == g[..d + 1]
      ensures Find(t.kids[e], d + 1, k) == Get(m, k)
    {
      OnGraft(k, g, base, depth, t.prefix, e);
      FindThrough(t, depth, k, e);
    }
  }

  /** A key on a grafted path starts with the base, the prefix and the edge. */
  lemma OnGraft(k: Key, g: Key, base: Key, depth: nat, prefix: Bytes, e: Byte)
    requires depth + |prefix| < KEY_NIBBLES && AllNibbles(prefix) && e < BRANCHES
    requires g == Graft(base, depth, prefix + [e]) && k[..depth + |prefix| + 1] == g[..depth + |prefix| + 1]
    ensures var d := depth + |prefix|; k[..depth] == base[..depth] && k[depth..d] == prefix && k[d] == e
  {
    var d := depth + |prefix|;
    assert k[..depth] == k[..d + 1][..depth] == g[..d + 1][..depth] == g[..depth];
    assert g[depth..d + 1] == prefix + [e];
    assert k[depth..d] == k[..d + 1][depth..d] == g[..d + 1][depth..d] == g[depth..d + 1][..|prefix|];
    assert k[d] == k[..d + 1][d] == g[..d + 1][d] == g[depth..d + 1][|prefix|];
  }

  /** The subtries of a slice are slices. */
  lemma {:induction false} WithinSlice(s: Tree, t: Tree, depth: nat, base: Key, m: map<Key, Bytes>)
    returns (depth': nat, base': Key)
    requires Within(s, t) && s.Sub? && Slice(t, depth, base, m)
    ensures Slice(s, depth', base', m)
    decreases t
  {
    if s == t {
      depth', base' := depth, base;
    } else {
      var e :| 0 <= e < |t.kids| && Within(s, t.kids[e]);
      assert t.kids[e].Sub?;
      KidSlice(t, depth, base, m, e);
      depth', base' := WithinSlice(s, t.kids[e], depth + |t.prefix| + 1, Graft(base, depth, t.prefix + [e]), m);
    }
  }

  /** What is left of a slice below a cut in its path is a slice. */
  lemma SuffixSlice(t: Tree, common: nat, depth: nat, base: Key, m: map<Key, Bytes>)
    requires Slice(t, depth, base, m) && common < |t.prefix|
    ensures depth + common < KEY_NIBBLES && AllNibbles(t.prefix)
    ensures Slice(Suffix(t, common), depth + common + 1, Graft(base, depth, t.prefix[..common] + [t.prefix[common]]), m)
  {
    SplitValid(t, common, depth);
    KidFits(t, depth);
    var head, e, d := t.prefix[..common], t.prefix[common], depth + common;
    var g := Graft(base, depth, head + [e]);
    hide Valid, Find;
    forall k: Key | k[..d + 1] == g[..d + 1]
      ensures Find(Suffix(t, common), d + 1, k) == Get(m, k)
    {
      OnGraft(k, g, base, depth, head, e);
      SuffixAnswers(t, common, depth, k);
    }
  }
}
