/** The ordered difference of two immutable roots, skipping shared subtrees. */
module TreeDiff {
  import opened Prelude
  import opened Uuid
  import opened TreeNode
  import opened RadixTree
  import opened ContentStore
  import opened TreeStore
  import opened Changes
  import TreeRead
  import TreeUpdate

  datatype Difference = Difference(key: Uuid, before: Option<Bytes>, after: Option<Bytes>)

  /** Decides, from what it has seen and the next difference, whether the scan goes on. */
  type Visitor = (seq<Difference>, Difference) -> bool

  /**
   A position in a trie: a node, or a virtual position part of the way through
   a node's compressed prefix. The null digest is an empty subtree.
   */
  datatype DiffCursor = DiffCursor(digest: Bytes, node: Option<Node>, nodeDepth: nat, consumed: nat)

  const NO_CURSOR := DiffCursor([], None, 0, 0)

  /** The value the cursor's trie holds for a key that passes through the cursor. */
  ghost function At(h: Hash, rows: Rows, c: DiffCursor, k: Key): Option<Bytes> {
    if c.digest == [] || c.nodeDepth > KEY_NIBBLES || Load(h, rows, c.digest, c.nodeDepth).None? then None
    else Find(Load(h, rows, c.digest, c.nodeDepth).value, c.nodeDepth, k)
  }

  /** The cursor really stands at the end of `path`. */
  ghost predicate Placed(h: Hash, rows: Rows, c: DiffCursor, path: Bytes) {
    c.digest != [] ==>
      && c.nodeDepth <= KEY_NIBBLES && c.nodeDepth + c.consumed == |path|
      && Load(h, rows, c.digest, c.nodeDepth).Some?
      && (c.consumed > 0 ==> c.node.Some?)
      && (c.node.Some? ==>
            && ReadNode(h, rows, c.digest, c.nodeDepth) == c.node
            && c.consumed <= |c.node.value.prefix| && path[c.nodeDepth..] == c.node.value.prefix[..c.consumed])
  }

  method LoadCursor(db: Store, c: DiffCursor) returns (ok: bool, c': DiffCursor)
    ensures c' == c.(node := c'.node)
    ensures c.digest == [] || c.node.Some? ==> ok && c' == c
    ensures c.node.None? && c.digest != [] ==>
              c'.node == ReadNode(db.hash, db.rows, c.digest, c.nodeDepth)
              && (ok <==> c'.node.Some?)
  {
    if c.digest == [] || c.node.Some? {
      return true, c;
    }
    var node := TreeStore.ReadTreeNode(db, c.digest, c.nodeDepth);
    return node.Some?, c.(node := node);
  }

  /** The cursor one edge further down. */
  function Child(c: DiffCursor, edge: nat, depth: nat): DiffCursor
    requires edge < BRANCHES && (c.digest != [] ==> c.node.Some?)
  {
    if c.digest == [] then NO_CURSOR
    else if c.consumed < |c.node.value.prefix| then
      if c.node.value.prefix[c.consumed] == edge then c.(consumed := c.consumed + 1) else NO_CURSOR
    else DiffCursor(c.node.value.children[edge], None, depth + 1, 0)
  }

  lemma ChildPlaced(h: Hash, rows: Rows, c: DiffCursor, path: Bytes, edge: nat)
    requires edge < BRANCHES && |path| < KEY_NIBBLES && AllNibbles(path)
    requires Placed(h, rows, c, path) && (c.digest != [] ==> c.node.Some?)
    ensures Placed(h, rows, Child(c, edge, |path|), path + [edge])
    ensures forall k: Key | path + [edge] <= k :: At(h, rows, Child(c, edge, |path|), k) == At(h, rows, c, k)
  {
    hide Load, Encode, Decode, Find;
    var child := Child(c, edge, |path|);
    if c.digest != [] {
      var n := c.node.value;
      if c.consumed < |n.prefix| {
        assert (path + [edge])[c.nodeDepth..] == path[c.nodeDepth..] + [edge];
        assert n.prefix[..c.consumed + 1] == n.prefix[..c.consumed] + [n.prefix[c.consumed]];
        forall k: Key | path + [edge] <= k
          ensures At(h, rows, child, k) == At(h, rows, c, k)
        {
          if n.prefix[c.consumed] != edge { OffPrefix(h, rows, c, path, edge, k); }
        }
      } else {
        OnPrefix(h, rows, c, path, edge, SomeKeyUnder(path + [edge]));
        forall k: Key | path + [edge] <= k
          ensures At(h, rows, child, k) == At(h, rows, c, k)
        {
          OnPrefix(h, rows, c, path, edge, k);
        }
      }
    }
  }

  function SomeKeyUnder(path: Bytes): (k: Key)
    requires |path| <= KEY_NIBBLES && AllNibbles(path)
    ensures path <= k
  {
    path + seq(KEY_NIBBLES - |path|, _ => 0)
  }

  lemma PathAt(path: Bytes, edge: Byte, k: Key)
    requires |path| < KEY_NIBBLES && path + [edge] <= k
    ensures k[..|path|] == path && k[|path|] == edge
  {
    assert k[..|path| + 1] == path + [edge];
    assert k[..|path|] == k[..|path| + 1][..|path|];
    assert k[|path|] == k[..|path| + 1][|path|];
  }

  lemma OffPrefix(h: Hash, rows: Rows, c: DiffCursor, path: Bytes, edge: nat, k: Key)
    requires edge < BRANCHES && |path| < KEY_NIBBLES && Placed(h, rows, c, path) && c.digest != [] && c.node.Some?
    requires c.consumed < |c.node.value.prefix| && c.node.value.prefix[c.consumed] != edge && path + [edge] <= k
    ensures At(h, rows, c, k) == None
  {
    hide Load, Encode, Decode, Find;
    PathAt(path, edge, k);
    TreeRead.Descend(h, rows, c.digest, c.nodeDepth, k);
    TreeUpdate.PrefixDiffers(k, c.nodeDepth, c.node.value.prefix, c.consumed);
  }

  lemma OnPrefix(h: Hash, rows: Rows, c: DiffCursor, path: Bytes, edge: nat, k: Key)
    requires edge < BRANCHES && |path| < KEY_NIBBLES && Placed(h, rows, c, path) && c.digest != [] && c.node.Some?
    requires c.consumed == |c.node.value.prefix| && path + [edge] <= k
    ensures var child := DiffCursor(c.node.value.children[edge], None, |path| + 1, 0);
      Placed(h, rows, child, path + [edge]) && At(h, rows, child, k) == At(h, rows, c, k)
  {
    hide Load, Encode, Decode, Find;
    PathAt(path, edge, k);
    var n := c.node.value;
    TreeRead.Descend(h, rows, c.digest, c.nodeDepth, k);
    assert k[c.nodeDepth..|path|] == k[..|path|][c.nodeDepth..] == n.prefix;
    NullLoads(h, rows, |path| + 1);
    AbsentFind(|path| + 1);
  }

  // ------------------------------------------------------------------- reports

  /** The difference is a true one, at a key below `path`. */
  ghost predicate Right(h: Hash, rows: Rows, b: DiffCursor, a: DiffCursor, path: Bytes, d: Difference) {
    var k := Unpack(d.key);
    path <= k && d.before == At(h, rows, b, k) && d.after == At(h, rows, a, k) && d.before != d.after
  }

  predicate Ascending(list: seq<Difference>) {
    forall i, j | 0 <= i < j < |list| :: Less(Unpack(list[i].key), Unpack(list[j].key))
  }

  predicate Mentions(list: seq<Difference>, k: Key) {
    exists i :: 0 <= i < |list| && Unpack(list[i].key) == k
  }

  /** The list is the true, ordered difference below `path`, up to where the scan stopped. */
  ghost predicate Reports(h: Hash, rows: Rows, b: DiffCursor, a: DiffCursor, path: Bytes, list: seq<Difference>,
                          stop: Option<Difference>) {
    && (forall i | 0 <= i < |list| :: Right(h, rows, b, a, path, list[i]))
    && Ascending(list)
    && (stop.Some? ==> Right(h, rows, b, a, path, stop.value) && forall i | 0 <= i < |list| ::
        Less(Unpack(list[i].key), Unpack(stop.value.key)))
    && forall k: Key | path <= k && At(h, rows, b, k) != At(h, rows, a, k)
                       && (stop.Some? ==> Less(k, Unpack(stop.value.key))) :: Mentions(list, k)
  }

  /** Reports about the edges below `edge` of a position. */
  ghost predicate ReportsBelow(h: Hash, rows: Rows, b: DiffCursor, a: DiffCursor, path: Bytes, list: seq<Difference>,
                               edge: nat)
    requires |path| < KEY_NIBBLES
  {
    && (forall i | 0 <= i < |list| :: Right(h, rows, b, a, path, list[i]) && Unpack(list[i].key)[|path|] < edge)
    && Ascending(list)
    && forall k: Key | path <= k && k[|path|] < edge && At(h, rows, b, k) != At(h, rows, a, k) :: Mentions(list, k)
  }

  lemma UnderLonger(path: Bytes, edge: Byte, k: Key)
    requires |path| < KEY_NIBBLES
    ensures path + [edge] <= k <==> path <= k && k[|path|] == edge
  {
    if path <= k && k[|path|] == edge {
      assert k[..|path| + 1] == k[..|path|] + [k[|path|]];
    }
    if path + [edge] <= k {
      PathAt(path, edge, k);
    }
  }

  /** Keys on a lower edge come first. */
  lemma LowerEdgeFirst(path: Bytes, p: Key, q: Key)
    requires |path| < KEY_NIBBLES && path <= p && path <= q && p[|path|] != q[|path|]
    ensures Less(p, q) <==> p[|path|] < q[|path|]
  {
    LessAt(p, q, |path|);
  }

  lemma AscendingJoin(list: seq<Difference>, more: seq<Difference>)
    requires Ascending(list) && Ascending(more)
    requires forall i, j | 0 <= i < |list| && 0 <= j < |more| :: Less(Unpack(list[i].key), Unpack(more[j].key))
    ensures Ascending(list + more)
  {
    hide Less, Unpack;
    var all := list + more;
    forall i, j | 0 <= i < j < |all|
      ensures Less(Unpack(all[i].key), Unpack(all[j].key))
    {
      if i < |list| <= j { assert all[j] == more[j - |list|]; }
      if |list| <= i { assert all[i] == more[i - |list|] && all[j] == more[j - |list|]; }
    }
  }

  lemma MentionsJoin(list: seq<Difference>, more: seq<Difference>, k: Key)
    requires Mentions(list, k) || Mentions(more, k)
    ensures Mentions(list + more, k)
  {
    hide Unpack;
    if Mentions(list, k) {
      var i :| 0 <= i < |list| && Unpack(list[i].key) == k;
      assert (list + more)[i] == list[i];
    } else {
      var i :| 0 <= i < |more| && Unpack(more[i].key) == k;
      assert (list + more)[|list| + i] == more[i];
    }
  }

  /** A difference reported below an edge is one below its path, on that edge. */
  lemma RightUnder(h: Hash, rows: Rows, b: DiffCursor, a: DiffCursor, b': DiffCursor, a': DiffCursor, path: Bytes,
                   edge: nat, d: Difference)
    requires |path| < KEY_NIBBLES && edge < BRANCHES && AllNibbles(path)
    requires forall k: Key | path + [edge] <= k :: At(h, rows, b', k) == At(h, rows, b, k)
               && At(h, rows, a', k) == At(h, rows, a, k)
    requires Right(h, rows, b', a', path + [edge], d)
    ensures Right(h, rows, b, a, path, d) && Unpack(d.key)[|path|] == edge && path <= Unpack(d.key)
  {
    hide At, Unpack;
    UnderLonger(path, edge, Unpack(d.key));
  }

  /** Joining the report of one edge to those of the edges before it. */
  lemma AppendEdge(h: Hash, rows: Rows, b: DiffCursor, a: DiffCursor, b': DiffCursor, a': DiffCursor, path: Bytes,
                   edge: nat,
                   list: seq<Difference>, more: seq<Difference>)
    requires |path| < KEY_NIBBLES && edge < BRANCHES && AllNibbles(path)
    requires forall k: Key | path + [edge] <= k :: At(h, rows, b', k) == At(h, rows, b, k)
               && At(h, rows, a', k) == At(h, rows, a, k)
    requires ReportsBelow(h, rows, b, a, path, list, edge) && Reports(h, rows, b', a', path + [edge], more, None)
    ensures ReportsBelow(h, rows, b, a, path, list + more, edge + 1)
  {
    hide At, Less, Unpack, Mentions;
    var all := list + more;
    forall i | 0 <= i < |more|
      ensures Right(h, rows, b, a, path, more[i]) && Unpack(more[i].key)[|path|] == edge && path <= Unpack(more[i].key)
    {
      RightUnder(h, rows, b, a, b', a', path, edge, more[i]);
    }
    forall i | 0 <= i < |all|
      ensures Right(h, rows, b, a, path, all[i]) && Unpack(all[i].key)[|path|] < edge + 1
    {
      if i >= |list| { assert all[i] == more[i - |list|]; }
    }
    forall i, j | 0 <= i < |list| && 0 <= j < |more|
      ensures Less(Unpack(list[i].key), Unpack(more[j].key))
    {
      assert Right(h, rows, b, a, path, list[i]);
      LowerEdgeFirst(path, Unpack(list[i].key), Unpack(more[j].key));
    }
    AscendingJoin(list, more);
    forall k: Key | path <= k && k[|path|] < edge + 1 && At(h, rows, b, k) != At(h, rows, a, k)
      ensures Mentions(all, k)
    {
      UnderLonger(path, edge, k);
      MentionsJoin(list, more, k);
    }
  }

  /** The scan stopped inside one edge: what was reported so far is complete up to the stop. */
  lemma StopInEdge(h: Hash, rows: Rows, b: DiffCursor, a: DiffCursor, b': DiffCursor, a': DiffCursor, path: Bytes,
                   edge: nat,
                   list: seq<Difference>, more: seq<Difference>, stop: Difference)
    requires |path| < KEY_NIBBLES && edge < BRANCHES && AllNibbles(path)
    requires forall k: Key | path + [edge] <= k :: At(h, rows, b', k) == At(h, rows, b, k)
               && At(h, rows, a', k) == At(h, rows, a, k)
    requires ReportsBelow(h, rows, b, a, path, list, edge) && Reports(h, rows, b', a', path + [edge], more, Some(stop))
    ensures Reports(h, rows, b, a, path, list + more, Some(stop))
  {
    hide At, Less, Unpack, Mentions;
    var all := list + more;
    RightUnder(h, rows, b, a, b', a', path, edge, stop);
    forall i | 0 <= i < |more|
      ensures Right(h, rows, b, a, path, more[i]) && Unpack(more[i].key)[|path|] == edge && path <= Unpack(more[i].key)
    {
      RightUnder(h, rows, b, a, b', a', path, edge, more[i]);
    }
    forall i | 0 <= i < |all|
      ensures Right(h, rows, b, a, path, all[i]) && Less(Unpack(all[i].key), Unpack(stop.key))
    {
      if i >= |list| {
        assert all[i] == more[i - |list|];
      } else {
        assert Right(h, rows, b, a, path, list[i]);
        LowerEdgeFirst(path, Unpack(all[i].key), Unpack(stop.key));
      }
    }
    forall i, j | 0 <= i < |list| && 0 <= j < |more|
      ensures Less(Unpack(list[i].key), Unpack(more[j].key))
    {
      assert Right(h, rows, b, a, path, list[i]);
      LowerEdgeFirst(path, Unpack(list[i].key), Unpack(more[j].key));
    }
    AscendingJoin(list, more);
    forall k: Key | path <= k && At(h, rows, b, k) != At(h, rows, a, k) && Less(k, Unpack(stop.key))
      ensures Mentions(all, k)
    {
      UnderLonger(path, edge, k);
      if k[|path|] != edge { LowerEdgeFirst(path, k, Unpack(stop.key)); }
      MentionsJoin(list, more, k);
    }
  }

  lemma AllEdges(h: Hash, rows: Rows, b: DiffCursor, a: DiffCursor, path: Bytes, list: seq<Difference>)
    requires |path| < KEY_NIBBLES && ReportsBelow(h, rows, b, a, path, list, BRANCHES)
    ensures Reports(h, rows, b, a, path, list, None)
  {}

  lemma NothingReported(h: Hash, rows: Rows, b: DiffCursor, a: DiffCursor, path: Bytes)
    requires forall k: Key | path <= k :: At(h, rows, b, k) == At(h, rows, a, k)
    ensures Reports(h, rows, b, a, path, [], None)
  {}

  /** At full depth a placed cursor stands on the leaf of its path. */
  lemma LeafAt(h: Hash, rows: Rows, c: DiffCursor, path: Bytes)
    requires |path| == KEY_NIBBLES && AllNibbles(path) && Placed(h, rows, c, path) && (c.digest != [] ==> c.node.Some?)
    ensures At(h, rows, c, path) == if c.digest == [] then None else c.node.value.value
  {
    hide Load, Encode, Decode, Find;
    if c.digest != [] {
      var n := c.node.value;
      TreeRead.Descend(h, rows, c.digest, c.nodeDepth, path);
      assert n.prefix[..c.consumed] == n.prefix;
      assert path[c.nodeDepth..KEY_NIBBLES] == path[c.nodeDepth..];
    }
  }

  lemma LeafReport(h: Hash, rows: Rows, b: DiffCursor, a: DiffCursor, path: Bytes, d: Difference)
    requires |path| == KEY_NIBBLES && AllNibbles(path) && Unpack(d.key) == path
    requires d.before == At(h, rows, b, path) && d.after == At(h, rows, a, path)
    ensures d.before == d.after ==> Reports(h, rows, b, a, path, [], None)
    ensures d.before != d.after ==> Reports(h, rows, b, a, path, [d], None) && Reports(h, rows, b, a, path, [], Some(d))
  {
    hide At;
    forall k: Key {:trigger At(h, rows, b, k)} | path <= k
      ensures k == path
    {}
    LessIrreflexive(path);
    assert [d][0] == d;
    assert Unpack([d][0].key) == path;
    assert Mentions([d], path);
  }

  lemma NodePlaced(db: Store, c: DiffCursor, path: Bytes, c': DiffCursor)
    requires Placed(db.hash, db.rows, c, path) && |path| <= KEY_NIBBLES
    requires c'.node == (if c.digest == []
                         || c.node.Some? then c.node else ReadNode(db.hash, db.rows, c.digest, c.nodeDepth))
    requires c' == c.(node := c'.node)
    ensures Placed(db.hash, db.rows, c', path) && (c.digest != [] ==> c'.node.Some?)
    ensures forall k: Key :: At(db.hash, db.rows, c', k) == At(db.hash, db.rows, c, k)
  {
    hide Encode, Decode, Find, Load;
    if c.digest != [] && c.node.None? {
      LoadKids(db.hash, db.rows, c.digest, c.nodeDepth);
      assert path[c.nodeDepth..] == [];
    }
  }

  /** The walk over aligned positions of two tries. */
  method DiffWalk(db: Store, before: DiffCursor, after: DiffCursor, path: Bytes, visit: Visitor, sofar: seq<Difference>)
    returns (ok: bool, out: seq<Difference>, ghost more: seq<Difference>, stop: Option<Difference>)
    requires |path| <= KEY_NIBBLES && AllNibbles(path)
    decreases KEY_NIBBLES - |path|
    ensures out == sofar + more && (ok ==> stop.None?) && (stop.Some? ==> !visit(out, stop.value))
    ensures Placed(db.hash, db.rows, before, path) && Placed(db.hash, db.rows, after, path) ==>
              Reports(db.hash, db.rows, before, after, path, more, stop) && (ok <==> stop.None?)
  {
    hide At, Placed, Encode, Decode, Load, Find, Reports, ReportsBelow;
    ghost var h, rows := db.hash, db.rows;
    ghost var sound := Placed(h, rows, before, path) && Placed(h, rows, after, path);
    more, stop, out := [], None, sofar;
    if before.digest == [] && after.digest == [] {
      NullCursors(h, rows, before, after);
      NothingReported(h, rows, before, after, path);
      return true, sofar, [], None;
    }
    if before.digest != [] && before.digest == after.digest && before.nodeDepth == after.nodeDepth
       && before.consumed == after.consumed {
      SameCursors(h, rows, before, after);
      NothingReported(h, rows, before, after, path);
      return true, sofar, [], None;
    }
    var okB, b := LoadCursor(db, before);
    if sound { NodePlaced(db, before, path, b); }
    if !okB {
      return false, sofar, [], None;
    }
    var okA, a := LoadCursor(db, after);
    if sound { NodePlaced(db, after, path, a); }
    if !okA {
      return false, sofar, [], None;
    }
    if |path| == KEY_NIBBLES {
      ok, out, more, stop := DiffLeaf(b, a, path, visit, sofar, h, rows, sound);
    } else {
      ok, out, more, stop := DiffEdges(db, b, a, path, visit, sofar);
    }
    if sound { SameReports(h, rows, b, a, before, after, path, more, stop); }
  }

  lemma NullCursors(h: Hash, rows: Rows, b: DiffCursor, a: DiffCursor)
    requires b.digest == [] && a.digest == []
    ensures forall k: Key :: At(h, rows, b, k) == At(h, rows, a, k)
  {}

  /** Equal digests at equal positions: no difference can hide below. */
  lemma SameCursors(h: Hash, rows: Rows, b: DiffCursor, a: DiffCursor)
    requires b.digest == a.digest && b.nodeDepth == a.nodeDepth
    ensures forall k: Key :: At(h, rows, b, k) == At(h, rows, a, k)
  {}

  lemma SameReports(h: Hash, rows: Rows, b: DiffCursor, a: DiffCursor, b': DiffCursor, a': DiffCursor, path: Bytes,
                    list: seq<Difference>, stop: Option<Difference>)
    requires Reports(h, rows, b, a, path, list, stop)
    requires forall k: Key :: At(h, rows, b, k) == At(h, rows, b', k) && At(h, rows, a, k) == At(h, rows, a', k)
    ensures Reports(h, rows, b', a', path, list, stop)
  {
    hide At;
    forall i | 0 <= i < |list|
      ensures Right(h, rows, b', a', path, list[i])
    {
      assert Right(h, rows, b, a, path, list[i]);
    }
  }

  /** A whole key: compare the two values, and report them if they differ. */
  method DiffLeaf(b: DiffCursor, a: DiffCursor, path: Key, visit: Visitor, sofar: seq<Difference>,
                  ghost h: Hash, ghost rows: Rows, ghost sound: bool)
    returns (ok: bool, out: seq<Difference>, ghost more: seq<Difference>, stop: Option<Difference>)
    requires (b.digest != [] ==> b.node.Some?) && (a.digest != [] ==> a.node.Some?)
    requires sound ==> Placed(h, rows, b, path) && Placed(h, rows, a, path)
    ensures out == sofar + more && (ok <==> stop.None?) && (stop.Some? ==> !visit(out, stop.value))
    ensures sound ==> Reports(h, rows, b, a, path, more, stop)
  {
    hide At, Placed, Reports;
    if sound {
      LeafAt(h, rows, b, path);
      LeafAt(h, rows, a, path);
    }
    var beforeValue := if b.digest == [] then None else b.node.value.value;
    var afterValue := if a.digest == [] then None else a.node.value.value;
    var uuid := PackKey(path);
    var d := Difference(uuid, beforeValue, afterValue);
    if sound { LeafReport(h, rows, b, a, path, d); }
    if beforeValue == afterValue {
      return true, sofar, [], None;
    }
    if !visit(sofar, d) {
      return false, sofar, [], Some(d);
    }
    return true, sofar + [d], [d], None;
  }

  /** All sixteen edges in order. */
  method DiffEdges(db: Store, b: DiffCursor, a: DiffCursor, path: Bytes, visit: Visitor, sofar: seq<Difference>)
    returns (ok: bool, out: seq<Difference>, ghost more: seq<Difference>, stop: Option<Difference>)
    requires |path| < KEY_NIBBLES && AllNibbles(path)
    requires (b.digest != [] ==> b.node.Some?) && (a.digest != [] ==> a.node.Some?)
    decreases KEY_NIBBLES - |path|, 0
    ensures out == sofar + more && (ok ==> stop.None?) && (stop.Some? ==> !visit(out, stop.value))
    ensures Placed(db.hash, db.rows, b, path) && Placed(db.hash, db.rows, a, path) ==>
              Reports(db.hash, db.rows, b, a, path, more, stop) && (ok <==> stop.None?)
  {
    hide At, Placed, Encode, Decode, Load, Find, Reports, ReportsBelow;
    ghost var h, rows := db.hash, db.rows;
    ghost var sound := Placed(h, rows, b, path) && Placed(h, rows, a, path);
    out, more, stop := sofar, [], None;
    NoEdges(h, rows, b, a, path);
    for edge := 0 to BRANCHES
      invariant out == sofar + more && stop.None?
      invariant sound ==> ReportsBelow(h, rows, b, a, path, more, edge)
    {
      var left, right := Child(b, edge, |path|), Child(a, edge, |path|);
      if sound {
        ChildPlaced(h, rows, b, path, edge);
        ChildPlaced(h, rows, a, path, edge);
      }
      ghost var list := more;
      if left.digest == [] && right.digest == [] {
        if sound {
          NullCursors(h, rows, left, right);
          NothingReported(h, rows, left, right, path + [edge]);
          AppendEdge(h, rows, b, a, left, right, path, edge, list, []);
          assert list + [] == list;
        }
        continue;
      }
      ghost var found;
      ok, out, found, stop := DiffWalk(db, left, right, path + [edge], visit, out);
      more := list + found;
      if !ok {
        if sound { StopInEdge(h, rows, b, a, left, right, path, edge, list, found, stop.value); }
        return;
      }
      if sound { AppendEdge(h, rows, b, a, left, right, path, edge, list, found); }
    }
    if sound { AllEdges(h, rows, b, a, path, more); }
    ok := true;
  }

  lemma NoEdges(h: Hash, rows: Rows, b: DiffCursor, a: DiffCursor, path: Bytes)
    requires |path| < KEY_NIBBLES
    ensures ReportsBelow(h, rows, b, a, path, [], 0)
  {}

  // ------------------------------------------------------------------- whole roots

  /** The exact ordered difference of two maps, up to where a scan stopped. */
  ghost predicate IsDiff(list: seq<Difference>, m: map<Key, Bytes>, m': map<Key, Bytes>, stop: Option<Difference>) {
    && (forall i | 0 <= i < |list| :: IsDifference(list[i], m, m'))
    && Ascending(list)
    && (stop.Some? ==> IsDifference(stop.value, m, m') && forall i | 0 <= i < |list| ::
        Less(Unpack(list[i].key), Unpack(stop.value.key)))
    && forall k: Key | Get(m, k) != Get(m', k) && (stop.Some? ==> Less(k, Unpack(stop.value.key))) :: Mentions(list, k)
  }

  ghost predicate IsDifference(d: Difference, m: map<Key, Bytes>, m': map<Key, Bytes>) {
    d.before == Get(m, Unpack(d.key)) && d.after == Get(m', Unpack(d.key)) && d.before != d.after
  }

  function RootCursor(root: Bytes): DiffCursor {
    DiffCursor(root, None, 0, 0)
  }

  lemma RootPlaced(h: Hash, rows: Rows, root: Bytes, m: map<Key, Bytes>)
    requires DenotesMap(h, rows, root, m)
    ensures Placed(h, rows, RootCursor(root), []) && |root| == HASH_BYTES
    ensures forall k: Key :: At(h, rows, RootCursor(root), k) == Get(m, k)
  {
    hide Encode, Decode;
    TreeUpdate.RootLength(h, rows, root, 0);
    forall k: Key
      ensures At(h, rows, RootCursor(root), k) == Get(m, k)
    {
      TreeUpdate.DenotesAt(Load(h, rows, root, 0).value, m, k);
    }
  }

  lemma ReportsIsDiff(h: Hash, rows: Rows, b: DiffCursor, a: DiffCursor, list: seq<Difference>,
                      stop: Option<Difference>,
                      m: map<Key, Bytes>, m': map<Key, Bytes>)
    requires Reports(h, rows, b, a, [], list, stop)
    requires forall k: Key :: At(h, rows, b, k) == Get(m, k) && At(h, rows, a, k) == Get(m', k)
    ensures IsDiff(list, m, m', stop)
  {
    hide At;
    forall i | 0 <= i < |list|
      ensures IsDifference(list[i], m, m')
    {
      assert Right(h, rows, b, a, [], list[i]);
    }
    forall k: Key | Get(m, k) != Get(m', k) && (stop.Some? ==> Less(k, Unpack(stop.value.key)))
      ensures Mentions(list, k)
    {
      assert [] <= k;
      assert At(h, rows, b, k) != At(h, rows, a, k);
    }
  }

  /**
   The exact difference of two roots, reported once per key in ascending UUID
   order. The scan fails on sound trees only when the visitor refuses the next
   difference, and then everything before it has been reported.
   */
  method Diff(db: Store, beforeRoot: Bytes, afterRoot: Bytes, visit: Visitor)
    returns (ok: bool, out: seq<Difference>, stop: Option<Difference>)
    ensures stop.Some? ==> !ok && !visit(out, stop.value)
    ensures forall m, m' | DenotesMap(db.hash, db.rows, beforeRoot, m) && DenotesMap(db.hash, db.rows, afterRoot, m') ::
              IsDiff(out, m, m', stop) && (ok <==> stop.None?)
  {
    hide At, Placed, Encode, Decode, Load, Find, Reports, Denotes, IsDiff;
    ghost var h, rows := db.hash, db.rows;
    forall m | DenotesMap(h, rows, beforeRoot, m)
      ensures |beforeRoot| == HASH_BYTES
    {
      RootPlaced(h, rows, beforeRoot, m);
    }
    forall m | DenotesMap(h, rows, afterRoot, m)
      ensures |afterRoot| == HASH_BYTES
    {
      RootPlaced(h, rows, afterRoot, m);
    }
    if |beforeRoot| != HASH_BYTES || |afterRoot| != HASH_BYTES {
      return false, [], None;
    }
    var okB, b := LoadCursor(db, RootCursor(beforeRoot));
    forall m | DenotesMap(h, rows, beforeRoot, m)
      ensures okB && Placed(h, rows, b, []) && forall k: Key :: At(h, rows, b, k) == Get(m, k)
    {
      RootPlaced(h, rows, beforeRoot, m);
      NodePlaced(db, RootCursor(beforeRoot), [], b);
    }
    if !okB {
      return false, [], None;
    }
    if beforeRoot == afterRoot {
      forall m, m' | DenotesMap(h, rows, beforeRoot, m) && DenotesMap(h, rows, afterRoot, m')
        ensures IsDiff([], m, m', None)
      {
        RootPlaced(h, rows, beforeRoot, m);
        RootPlaced(h, rows, beforeRoot, m');
        NothingReported(h, rows, RootCursor(beforeRoot), RootCursor(beforeRoot), []);
        ReportsIsDiff(h, rows, RootCursor(beforeRoot), RootCursor(beforeRoot), [], None, m, m');
      }
      return true, [], None;
    }
    var okA, a := LoadCursor(db, RootCursor(afterRoot));
    forall m | DenotesMap(h, rows, afterRoot, m)
      ensures okA && Placed(h, rows, a, []) && forall k: Key :: At(h, rows, a, k) == Get(m, k)
    {
      RootPlaced(h, rows, afterRoot, m);
      NodePlaced(db, RootCursor(afterRoot), [], a);
    }
    if !okA {
      return false, [], None;
    }
    ghost var more;
    ok, out, more, stop := DiffWalk(db, b, a, [], visit, []);
    assert out == more;
    forall m, m' | DenotesMap(h, rows, beforeRoot, m) && DenotesMap(h, rows, afterRoot, m')
      ensures IsDiff(out, m, m', stop)
    {
      ReportsIsDiff(h, rows, b, a, out, stop, m, m');
    }
  }
}
