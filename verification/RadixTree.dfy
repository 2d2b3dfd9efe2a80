/**
 The trie a root digest stands for, with all subtrees spelled out.
 `Absent` is the null digest that marks an edge without a subtree.
 */
module RadixTree {
  import opened Prelude
  import opened Uuid
  import opened TreeNode

  datatype Tree = Absent | Sub(prefix: Bytes, value: Option<Bytes>, kids: seq<Tree>)

  function NoKids(): (kids: seq<Tree>)
    ensures |kids| == BRANCHES && forall e | 0 <= e < BRANCHES :: kids[e] == Absent
  {
    seq(BRANCHES, _ => Absent)
  }

  /** The canonical empty root. */
  function EmptyTree(): Tree { Sub([], None, NoKids()) }

  function Occupied(kids: seq<Tree>): (flags: seq<bool>)
    ensures |flags| == |kids|
  {
    seq(|kids|, i requires 0 <= i < |kids| => kids[i].Sub?)
  }

  /** Every node of the trie has a valid shape at its own depth. */
  predicate Valid(t: Tree, depth: nat) {
    && t.Sub?
    && |t.kids| == BRANCHES
    && Shape(t.prefix, t.value, Occupied(t.kids), depth)
    && forall e | 0 <= e < BRANCHES && t.kids[e].Sub? :: Valid(t.kids[e], depth + |t.prefix| + 1)
  }

  predicate ValidEdge(t: Tree, depth: nat) {
    t.Absent? || Valid(t, depth)
  }

  /** The value stored for a key, given that the key's first `depth` nibbles led here. */
  function Find(t: Tree, depth: nat, key: Key): Option<Bytes>
    decreases t
  {
    if t.Absent? then None
    else
      var d := depth + |t.prefix|;
      if d > KEY_NIBBLES || key[depth..d] != t.prefix then None
      else if d == KEY_NIBBLES then t.value
      else if key[d] < |t.kids| then Find(t.kids[key[d]], d + 1, key)
      else None
  }

  /** The trie holds exactly the entries of a map. */
  ghost predicate Denotes(t: Tree, m: map<Key, Bytes>) {
    forall k: Key :: Find(t, 0, k) == Get(m, k)
  }

  function Leaf(key: Key, depth: nat, value: Bytes): Tree
    requires depth <= KEY_NIBBLES
  {
    Sub(key[depth..], Some(value), NoKids())
  }

  // ------------------------------------------------------------ basic facts

  lemma LeafValid(key: Key, depth: nat, value: Bytes)
    requires depth <= KEY_NIBBLES && |value| == HASH_BYTES
    ensures Valid(Leaf(key, depth, value), depth)
  {
    CountNone(Occupied(NoKids()));
  }

  lemma AbsentFind(depth: nat)
    ensures forall k: Key :: Find(Absent, depth, k) == None
  {}

  lemma LeafFind(key: Key, depth: nat, value: Bytes, k: Key)
    requires depth <= KEY_NIBBLES
    ensures Find(Leaf(key, depth, value), depth, k) == if k[depth..] == key[depth..] then Some(value) else None
  {
    assert k[depth..KEY_NIBBLES] == k[depth..];
  }

  lemma EmptyTreeValid()
    ensures Valid(EmptyTree(), 0)
    ensures forall k: Key :: Find(EmptyTree(), 0, k) == None
  {
    CountNone(Occupied(NoKids()));
    forall k: Key
      ensures Find(EmptyTree(), 0, k) == None
    {
      assert NoKids()[k[0]] == Absent;
    }
  }

  /** Only the nibbles from `depth` on matter to a search that starts there. */
  lemma {:induction false} FindSuffix(t: Tree, depth: nat, a: Key, b: Key)
    requires depth <= KEY_NIBBLES && a[depth..] == b[depth..]
    ensures Find(t, depth, a) == Find(t, depth, b)
    decreases t
  {
    if t.Sub? {
      var d := depth + |t.prefix|;
      if d <= KEY_NIBBLES {
        assert a[depth..d] == a[depth..][..|t.prefix|] == b[depth..][..|t.prefix|] == b[depth..d];
        if d < KEY_NIBBLES {
          assert a[d..] == a[depth..][|t.prefix|..] == b[d..];
          assert a[d] == a[d..][0] == b[d..][0] == b[d];
          if a[d] < |t.kids| {
            assert a[d + 1..] == a[d..][1..] == b[d + 1..];
            FindSuffix(t.kids[a[d]], d + 1, a, b);
          }
        }
      }
    }
  }

  /** The key that follows `k` except for the nibbles `s` written at `depth`. */
  function Graft(k: Key, depth: nat, s: Bytes): (g: Key)
    requires depth + |s| <= KEY_NIBBLES && AllNibbles(s)
    ensures g[depth..depth + |s|] == s && g[depth + |s|..] == k[depth + |s|..] && g[..depth] == k[..depth]
  {
    k[..depth] + s + k[depth + |s|..]
  }

  function ZeroKey(): Key { seq(KEY_NIBBLES, _ => 0) }

  /** A valid trie other than the empty one holds some key, on any given path. */
  lemma {:induction false} SomeKey(t: Tree, depth: nat, base: Key) returns (k: Key)
    requires Valid(t, depth) && Count(Occupied(t.kids)) + depth + |t.prefix| > 0
    ensures Find(t, depth, k).Some? && k[..depth] == base[..depth]
    decreases t
  {
    var d := depth + |t.prefix|;
    var g := Graft(base, depth, t.prefix);
    if d == KEY_NIBBLES {
      k := g;
    } else {
      var e, _ := CountWitness(Occupied(t.kids));
      k := SomeKeyThrough(t, depth, base, e);
    }
  }

  lemma {:induction false} SomeKeyThrough(t: Tree, depth: nat, base: Key, e: nat) returns (k: Key)
    requires Valid(t, depth) && depth + |t.prefix| < KEY_NIBBLES && e < BRANCHES && t.kids[e].Sub?
    ensures Find(t, depth, k).Some? && k[..depth] == base[..depth] && k[depth + |t.prefix|] == e
    decreases t, 0
  {
    var d := depth + |t.prefix|;
    var s := t.prefix + [e];
    var g := Graft(base, depth, s);
    k := SomeKey(t.kids[e], d + 1, g);
    assert k[..d + 1] == g[..d + 1] == base[..depth] + s;
    assert k[depth..d] == k[..d + 1][depth..d] == t.prefix;
    assert k[d] == k[..d + 1][d] == e;
    assert k[..depth] == k[..d + 1][..depth];
  }

  // -------------------------------------------------------------- canonicity

  lemma SameSlice(p: Key, q: Key, from: nat, to: nat)
    requires from <= to <= KEY_NIBBLES && p[from..to] == q[from..to]
    ensures forall j | from <= j < to :: p[j] == q[j]
  {
    forall j | from <= j < to
      ensures p[j] == q[j]
    {
      assert p[j] == p[from..to][j - from] && q[j] == q[from..to][j - from];
    }
  }

  /** A trie that answers like a branch node has no longer prefix than the branch. */
  lemma {:induction false} PrefixNotLonger(a: Tree, b: Tree, depth: nat)
    requires Valid(a, depth) && Valid(b, depth) && Count(Occupied(a.kids)) >= 2
    requires forall k: Key :: Find(a, depth, k) == Find(b, depth, k)
    ensures |b.prefix| <= |a.prefix|
  {
    var i, j := CountWitness(Occupied(a.kids));
    var p := SomeKeyThrough(a, depth, ZeroKey(), i);
    var q := SomeKeyThrough(a, depth, ZeroKey(), j);
    assert Find(b, depth, p).Some? && Find(b, depth, q).Some?;
    SameSlice(p, q, depth, depth + |b.prefix|);
  }

  /** Two tries with the same answers on every key are the same trie. */
  lemma {:induction false} Canonical(a: Tree, b: Tree, depth: nat)
    requires Valid(a, depth) && Valid(b, depth)
    requires forall k: Key :: Find(a, depth, k) == Find(b, depth, k)
    ensures a == b
    decreases a
  {
    var base := ZeroKey();
    var da, db := depth + |a.prefix|, depth + |b.prefix|;
    if Count(Occupied(a.kids)) + da == 0 {
      if Count(Occupied(b.kids)) + db > 0 {
        var k := SomeKey(b, depth, base);
        EmptyIsEmpty(a, k);
      }
      BothEmpty(a, b);
    } else if Count(Occupied(b.kids)) + db == 0 {
      var k := SomeKey(a, depth, base);
      EmptyIsEmpty(b, k);
    } else {
      if da < KEY_NIBBLES { PrefixNotLonger(a, b, depth); }
      if db < KEY_NIBBLES { PrefixNotLonger(b, a, depth); }
      var k := SomeKey(a, depth, base);
      assert Find(b, depth, k).Some?;
      assert a.prefix == k[depth..da] == b.prefix;
      forall e | 0 <= e < BRANCHES
        ensures a.kids[e] == b.kids[e]
      {
        CanonicalKid(a, b, depth, e);
      }
      assert a.kids == b.kids;
    }
  }

  lemma EmptyIsEmpty(t: Tree, k: Key)
    requires Valid(t, 0) && t.prefix == [] && Count(Occupied(t.kids)) == 0
    ensures Find(t, 0, k).None?
  {
    CountNone(Occupied(t.kids));
    assert !Occupied(t.kids)[k[0]];
  }

  lemma BothEmpty(a: Tree, b: Tree)
    requires Valid(a, 0) && a.prefix == [] && Count(Occupied(a.kids)) == 0
    requires Valid(b, 0) && b.prefix == [] && Count(Occupied(b.kids)) == 0
    ensures a == b == EmptyTree()
  {
    CountNone(Occupied(a.kids));
    CountNone(Occupied(b.kids));
    forall e | 0 <= e < BRANCHES
      ensures a.kids[e] == b.kids[e] == Absent
    {
      assert !Occupied(a.kids)[e] && !Occupied(b.kids)[e];
    }
    assert a.kids == NoKids() && b.kids == NoKids();
  }

  lemma {:induction false} CanonicalKid(a: Tree, b: Tree, depth: nat, e: nat)
    requires Valid(a, depth) && Valid(b, depth) && e < BRANCHES && a.prefix == b.prefix
    requires forall k: Key :: Find(a, depth, k) == Find(b, depth, k)
    ensures a.kids[e] == b.kids[e]
    decreases a, 0
  {
    var d := depth + |a.prefix|;
    CountNone(Occupied(a.kids));
    CountNone(Occupied(b.kids));
    if d == KEY_NIBBLES {
      assert !Occupied(a.kids)[e] && !Occupied(b.kids)[e];
    } else if a.kids[e].Sub? && b.kids[e].Sub? {
      forall k: Key {:trigger Find(a.kids[e], d + 1, k)}
        ensures Find(a.kids[e], d + 1, k) == Find(b.kids[e], d + 1, k)
      {
        var g := Graft(k, depth, a.prefix + [e]);
        assert Find(a, depth, g) == Find(b, depth, g);
        KidAnswers(a, depth, e, k);
        KidAnswers(b, depth, e, k);
      }
      Canonical(a.kids[e], b.kids[e], d + 1);
    } else if a.kids[e].Sub? {
      KidOnBothSides(a, b, depth, e);
    } else if b.kids[e].Sub? {
      KidOnBothSides(b, a, depth, e);
    }
  }

  lemma FindThrough(t: Tree, depth: nat, g: Key, e: nat)
    requires t.Sub? && depth + |t.prefix| < KEY_NIBBLES && e < |t.kids|
    requires g[depth..depth + |t.prefix|] == t.prefix && g[depth + |t.prefix|] == e
    ensures Find(t, depth, g) == Find(t.kids[e], depth + |t.prefix| + 1, g)
  {}

  /** What a trie answers for a key grafted onto the path to an edge, the subtree below it answers for the key. */
  lemma KidAnswers(t: Tree, depth: nat, e: nat, k: Key)
    requires t.Sub? && depth + |t.prefix| < KEY_NIBBLES && AllNibbles(t.prefix) && e < |t.kids| && e < BRANCHES
    ensures Find(t, depth, Graft(k, depth, t.prefix + [e])) == Find(t.kids[e], depth + |t.prefix| + 1, k)
  {
    hide Find;
    var d := depth + |t.prefix|;
    var g := Graft(k, depth, t.prefix + [e]);
    assert g[depth..d] == t.prefix && g[d] == e by {
      assert g[depth..d] == g[depth..d + 1][..|t.prefix|];
      assert g[d] == g[depth..d + 1][|t.prefix|];
    }
    FindThrough(t, depth, g, e);
    FindSuffix(t.kids[e], d + 1, k, g);
  }

  lemma KidOnBothSides(a: Tree, b: Tree, depth: nat, e: nat)
    requires Valid(a, depth) && Valid(b, depth) && e < BRANCHES && a.prefix == b.prefix
    requires depth + |a.prefix| < KEY_NIBBLES && a.kids[e].Sub?
    requires forall k: Key :: Find(a, depth, k) == Find(b, depth, k)
    ensures b.kids[e].Sub?
  {
    var k := SomeKeyThrough(a, depth, ZeroKey(), e);
    assert Find(b, depth, k).Some?;
  }

  /** One map has one valid trie. */
  lemma UniqueTree(a: Tree, b: Tree, m: map<Key, Bytes>)
    requires Valid(a, 0) && Valid(b, 0) && Denotes(a, m) && Denotes(b, m)
    ensures a == b
  {
    Canonical(a, b, 0);
  }

  // ----------------------------------------------------- joining and splitting

  /** The canonical trie for a branch node once its children are known. */
  function Join(prefix: Bytes, kids: seq<Tree>): Tree
    requires |kids| == BRANCHES
  {
    if Count(Occupied(kids)) == 0 then Absent
    else if Count(Occupied(kids)) == 1 then
      var e := FirstOccupied(kids);
      Sub(prefix + [e] + kids[e].prefix, kids[e].value, kids[e].kids)
    else Sub(prefix, None, kids)
  }

  function FirstOccupied(kids: seq<Tree>): (e: nat)
    requires Count(Occupied(kids)) > 0
    ensures e < |kids| && kids[e].Sub?
    ensures forall i | 0 <= i < e :: kids[i].Absent?
  {
    if kids[0].Sub? then 0 else
      assert Occupied(kids)[1..] == Occupied(kids[1..]);
      1 + FirstOccupied(kids[1..])
  }

  ghost predicate ValidKids(prefix: Bytes, kids: seq<Tree>, depth: nat) {
    && |kids| == BRANCHES && depth + |prefix| < KEY_NIBBLES && AllNibbles(prefix)
    && forall e | 0 <= e < BRANCHES :: ValidEdge(kids[e], depth + |prefix| + 1)
  }

  lemma OnlyOccupied(kids: seq<Tree>, e: nat, i: nat)
    requires Count(Occupied(kids)) == 1 && e < |kids| && kids[e].Sub? && i < |kids| && i != e
    ensures kids[i].Absent?
  {
    if kids[i].Sub? {
      assert Occupied(kids)[e] && Occupied(kids)[i];
      CountTwo(Occupied(kids), if i < e then i else e, if i < e then e else i);
    }
  }

  /** Matching a long prefix is matching its head, its middle nibble and its tail. */
  lemma MatchParts(k: Key, depth: nat, head: Bytes, e: Byte, tail: Bytes)
    requires depth + |head| + 1 + |tail| <= KEY_NIBBLES
    ensures var d := depth + |head|;
      k[depth..d + 1 + |tail|] == head + [e] + tail <==>
        k[depth..d] == head && k[d] == e
        && k[d + 1..d + 1 + |tail|] == tail
  {
    var d := depth + |head|;
    var whole, long := k[depth..d + 1 + |tail|], head + [e] + tail;
    assert whole == k[depth..d] + [k[d]] + k[d + 1..d + 1 + |tail|];
    assert whole[..|head|] == k[depth..d] && whole[|head|] == k[d] && whole[|head| + 1..] == k[d + 1..d + 1 + |tail|];
    assert long[..|head|] == head && long[|head|] == e && long[|head| + 1..] == tail;
  }

  /** A search below a branch goes to the kid on its edge. */
  lemma RawFind(prefix: Bytes, kids: seq<Tree>, depth: nat, k: Key)
    requires |kids| == BRANCHES && depth + |prefix| < KEY_NIBBLES
    ensures Find(Sub(prefix, None, kids), depth, k) ==
            if k[depth..depth + |prefix|] == prefix then Find(kids[k[depth + |prefix|]], depth + |prefix| + 1, k)
              else None
  {}

  lemma JoinCases(prefix: Bytes, kids: seq<Tree>)
    requires |kids| == BRANCHES
    ensures Count(Occupied(kids)) == 0 ==> Join(prefix, kids) == Absent
    ensures Count(Occupied(kids)) == 1 ==>
              var e := FirstOccupied(kids);
              Join(prefix, kids) == Sub(prefix + [e] + kids[e].prefix, kids[e].value, kids[e].kids)
    ensures Count(Occupied(kids)) >= 2 ==> Join(prefix, kids) == Sub(prefix, None, kids)
  {}

  lemma JoinValid(prefix: Bytes, kids: seq<Tree>, depth: nat)
    requires ValidKids(prefix, kids, depth)
    ensures ValidEdge(Join(prefix, kids), depth)
  {
    if Count(Occupied(kids)) == 1 {
      var e := FirstOccupied(kids);
      assert Valid(kids[e], depth + |prefix| + 1);
    }
  }

  /** Joining changes the shape but no answer. */
  lemma JoinFind(prefix: Bytes, kids: seq<Tree>, depth: nat, k: Key)
    requires ValidKids(prefix, kids, depth)
    ensures Find(Join(prefix, kids), depth, k) == Find(Sub(prefix, None, kids), depth, k)
  {
    var d := depth + |prefix|;
    if Count(Occupied(kids)) == 0 {
      CountNone(Occupied(kids));
      assert !Occupied(kids)[k[d]];
    } else if Count(Occupied(kids)) == 1 {
      JoinFindOne(prefix, kids, depth, k);
    }
  }

  lemma KidFits(t: Tree, depth: nat)
    requires Valid(t, depth)
    ensures depth + |t.prefix| <= KEY_NIBBLES && |t.kids| == BRANCHES
  {}

  /** A single child is pulled up into its parent's prefix. */
  lemma JoinFindOne(prefix: Bytes, kids: seq<Tree>, depth: nat, k: Key)
    requires ValidKids(prefix, kids, depth) && Count(Occupied(kids)) == 1
    ensures Find(Join(prefix, kids), depth, k) == Find(Sub(prefix, None, kids), depth, k)
  {
    hide Count, Occupied, Valid;
    var d := depth + |prefix|;
    var e := FirstOccupied(kids);
    var kid := kids[e];
    assert Valid(kid, d + 1);
    KidFits(kid, d + 1);
    MatchParts(k, depth, prefix, e, kid.prefix);
    if k[d] != e {
      OnlyOccupied(kids, e, k[d]);
    }
  }

  /** A prefix cut at `common`: what is left of the node below the old edge. */
  function Suffix(t: Tree, common: nat): Tree
    requires t.Sub? && common < |t.prefix|
  {
    Sub(t.prefix[common + 1..], t.value, t.kids)
  }

  function SplitKids(t: Tree, common: nat): (kids: seq<Tree>)
    requires t.Sub? && common < |t.prefix| && AllNibbles(t.prefix)
    ensures |kids| == BRANCHES
  {
    NoKids()[t.prefix[common] := Suffix(t, common)]
  }

  /** Cutting a compressed path in two keeps the parts valid and all answers. */
  lemma SplitValid(t: Tree, common: nat, depth: nat)
    requires Valid(t, depth) && common < |t.prefix|
    ensures Valid(Suffix(t, common), depth + common + 1)
    ensures ValidKids(t.prefix[..common], SplitKids(t, common), depth)
  {
    if depth + |t.prefix| < KEY_NIBBLES {
      assert Count(Occupied(t.kids)) >= 2;
    }
  }

  /** A key that follows the path to the cut and across it is answered below the cut. */
  lemma SuffixAnswers(t: Tree, common: nat, depth: nat, k: Key)
    requires t.Sub? && common < |t.prefix| && depth + |t.prefix| <= KEY_NIBBLES
    requires k[depth..depth + common] == t.prefix[..common] && k[depth + common] == t.prefix[common]
    ensures Find(Suffix(t, common), depth + common + 1, k) == Find(t, depth, k)
  {
    var head, e, tail := t.prefix[..common], t.prefix[common], t.prefix[common + 1..];
    assert t.prefix == head + [e] + tail;
    MatchParts(k, depth, head, e, tail);
  }

  lemma SplitFind(t: Tree, common: nat, depth: nat, k: Key)
    requires Valid(t, depth) && common < |t.prefix|
    ensures Find(Sub(t.prefix[..common], None, SplitKids(t, common)), depth, k) == Find(t, depth, k)
  {
    KidFits(t, depth);
    hide Valid;
    var head, e, tail := t.prefix[..common], t.prefix[common], t.prefix[common + 1..];
    var d, kids := depth + common, SplitKids(t, common);
    if k[depth..d] == head && k[d] == e {
      SuffixAnswers(t, common, depth, k);
      hide Find;
      FindThrough(Sub(head, None, kids), depth, k, e);
    } else {
      assert t.prefix == head + [e] + tail;
      MatchParts(k, depth, head, e, tail);
      assert k[d] != e ==> kids[k[d]] == Absent;
    }
  }
}
