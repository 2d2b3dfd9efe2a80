/** A whole batch: filter no-ops, rewrite once, keep only what the new root reaches. */
module TreeApply {
  import opened Prelude
  import opened Uuid
  import opened TreeNode
  import opened RadixTree
  import opened ContentStore
  import opened TreeStore
  import opened TreeParts
  import opened SortedRange
  import opened Changes
  import opened BatchStage
  import opened TreeBatch
  import NodeCodec
  import TreeBuild
  import TreeClash
  import TreeUpdate
  import TreeRead

  // -------------------------------------------------------- selecting reachable

  /** The staged children of a staged node have been visited. */
  ghost predicate ClosedAt(staged: StagedMap, d: Bytes, visited: set<Bytes>) {
    && d in staged && WellFormed(staged[d])
    && forall e | 0 <= e < BRANCHES :: ChildrenOf(staged[d])[e] in staged ==> ChildrenOf(staged[d])[e] in visited
  }

  /** The digest is that of a node of the trie. */
  ghost predicate NodeOfTree(h: Hash, t: Tree, d: Bytes) {
    exists s: Tree :: Within(s, t) && s.Sub? && Root(h, s) == d
  }

  /** What one traversal adds: exactly the newly visited nodes, each with its staged payload. */
  ghost predicate Selected(staged: StagedMap, before: set<Bytes>, after: set<Bytes>, was: seq<Prepared>,
                           out: seq<Prepared>) {
    && before <= after && was <= out
    && (forall d | d in after && d !in before :: ClosedAt(staged, d, after))
    && (forall d | d in after && d !in before :: d in staged && Prepared(TreeKind, staged[d], d) in out)
    && (forall i | |was| <= i < |out| :: out[i].sha256 in after && out[i].sha256 !in before
                                         && out[i].sha256 in staged && out[i]
                                              == Prepared(TreeKind, staged[out[i].sha256], out[i].sha256))
  }

  lemma SelectedNone(staged: StagedMap, visited: set<Bytes>, out: seq<Prepared>)
    ensures Selected(staged, visited, visited, out, out)
  {}

  lemma SelectedSpan(staged: StagedMap, a: set<Bytes>, b: set<Bytes>, x: seq<Prepared>, y: seq<Prepared>)
    requires Selected(staged, a, b, x, y)
    ensures a <= b && x <= y
  {}

  lemma SelectedTrans(staged: StagedMap, a: set<Bytes>, b: set<Bytes>, c: set<Bytes>,
                      x: seq<Prepared>, y: seq<Prepared>, z: seq<Prepared>)
    requires Selected(staged, a, b, x, y) && Selected(staged, b, c, y, z)
    ensures Selected(staged, a, c, x, z)
  {
    hide WellFormed;
    forall d | d in c && d !in a
      ensures ClosedAt(staged, d, c) && Prepared(TreeKind, staged[d], d) in z
    {
      if d in b { assert ClosedAt(staged, d, b); }
    }
    forall i | |x| <= i < |z|
      ensures z[i].sha256 in c && z[i].sha256 !in a && z[i].sha256 in staged
                && z[i] == Prepared(TreeKind, staged[z[i].sha256], z[i].sha256)
    {
      if i < |y| { assert z[i] == y[i]; }
    }
  }

  /** Depth-first over staged nodes only; a digest that is not staged is already stored. */
  method CollectReachable(state: Batch, digest: Bytes, visited: set<Bytes>, out: seq<Prepared>, ghost t: Tree,
                          ghost depth: nat)
    returns (visited': set<Bytes>, out': seq<Prepared>)
    requires state.Valid() && visited <= state.preparedIndex.Keys
    decreases state.preparedIndex.Keys - visited, 0
    ensures visited' <= state.preparedIndex.Keys && Selected(state.Staged(), visited, visited', out, out')
    ensures digest in state.Staged() ==> digest in visited'
    ensures Given(state.db.hash, state.db.rows, state.Staged(), digest, t, depth) ==>
              Inside(state.db.hash, t, visited, visited')
  {
    hide WellFormed, Encode, Batch.Valid, Batch.Safe, ClosedAt, NodeOfTree, Digested, Anchored, Valid, Selected,
      Given, Batch.Staged, NodeOf, Inside, Grows, Present;
    visited', out' := visited, out;
    SelectedNone(state.Staged(), visited, out);
    InsideNone(state.db.hash, t, visited);

    if digest !in state.preparedIndex || digest in visited {
      return;
    }
    ghost var staged := state.Staged();
    StagedLength(state);
    var item := PreparedAt(state, digest);
    var children := NodeCodec.ChildDigests(item.payload);
    ghost var good := Given(state.db.hash, state.db.rows, staged, digest, t, depth);
    if good { StagedKids(state.db.hash, state.db.rows, staged, digest, t, depth); }
    assert digest in staged;
    visited' := visited + {digest};
    SelectedNone(staged, visited', out);
    if good { InsideTop(state.db.hash, t, visited, digest); }
    for e := 0 to BRANCHES
      invariant visited + {digest} <= visited' <= state.preparedIndex.Keys
      invariant Selected(staged, visited + {digest}, visited', out, out')
      invariant forall j | 0 <= j < e :: children[j] in staged ==> children[j] in visited'
      invariant good ==> Inside(state.db.hash, t, visited, visited')
    {
      ghost var v, o := visited', out';
      if children[e] != [] {
        visited', out' := CollectReachable(state, children[e], visited', out',
                                           if good then t.kids[e] else Absent, if good then depth + |t.prefix| + 1
                                             else 0);
        SelectedSpan(staged, v, visited', o, out');
        SelectedTrans(staged, visited + {digest}, v, visited', out, o, out');
        if good { InsideKid(state.db.hash, t, e, visited, v, visited'); }
      }
    }
    ghost var o := out';
    out' := out' + [item];
    SelectedSelf(staged, visited, visited', out, o, digest);
  }

  /** All newly visited digests are nodes of the trie. */
  ghost predicate Inside(h: Hash, t: Tree, visited: set<Bytes>, visited': set<Bytes>) {
    forall d | d in visited' && d !in visited :: NodeOfTree(h, t, d)
  }

  lemma InsideNone(h: Hash, t: Tree, visited: set<Bytes>)
    ensures Inside(h, t, visited, visited)
  {}

  lemma InsideTop(h: Hash, t: Tree, visited: set<Bytes>, digest: Bytes)
    requires NodeOfTree(h, t, digest)
    ensures Inside(h, t, visited, visited + {digest})
  {
    hide NodeOfTree;
  }

  lemma InsideKid(h: Hash, t: Tree, e: nat, visited: set<Bytes>, v: set<Bytes>, visited': set<Bytes>)
    requires t.Sub? && e < |t.kids| && Inside(h, t, visited, v) && visited <= v && Inside(h, t.kids[e], v, visited')
    ensures Inside(h, t, visited, visited')
  {
    hide NodeOfTree;
    forall d | d in visited' && d !in visited
      ensures NodeOfTree(h, t, d)
    {
      if d !in v { KidNode(h, t, e, d); }
    }
  }

  method PreparedAt(state: Batch, digest: Bytes) returns (item: Prepared)
    requires state.Valid() && digest in state.preparedIndex
    ensures digest in state.Staged() && item == Prepared(TreeKind, state.Staged()[digest], digest)
              && WellFormed(item.payload)
  {
    hide WellFormed, Encode;
    item := state.prepared[state.preparedIndex[digest]];
  }

  /** Digests are 32 bytes, so the null digest is never staged. */
  lemma StagedLength(state: Batch)
    requires state.Valid()
    ensures forall d | d in state.Staged() :: |d| == HASH_BYTES
  {
    hide WellFormed, Encode;
    forall d | d in state.Staged()
      ensures |d| == HASH_BYTES
    {
      assert state.db.hash(TreeKind, state.Staged()[d]) == d;
    }
  }

  lemma StagedKids(h: Hash, rows: Rows, staged: StagedMap, digest: Bytes, t: Tree, depth: nat)
    requires Given(h, rows, staged, digest, t, depth) && digest in staged && digest != []
    ensures t.Sub? && |t.kids| == BRANCHES && WellFormed(staged[digest])
              && ChildrenOf(staged[digest]) == NodeOf(h, t).children
    ensures forall e | 0 <= e < BRANCHES ::
              Given(h, rows, staged, ChildrenOf(staged[digest])[e], t.kids[e], depth + |t.prefix| + 1)
    ensures NodeOfTree(h, t, digest)
  {
    hide Encode;
    NodeOfShape(h, t, depth);
    assert Encodes(staged[digest], NodeOf(h, t), depth);
    ChildrenOfNode(staged[digest], NodeOf(h, t), depth);
    assert Within(t, t);
  }

  lemma KidNode(h: Hash, t: Tree, e: nat, d: Bytes)
    requires t.Sub? && e < |t.kids| && NodeOfTree(h, t.kids[e], d)
    ensures NodeOfTree(h, t, d)
  {
    hide Root;
    var s: Tree :| Within(s, t.kids[e]) && s.Sub? && Root(h, s) == d;
    assert Within(s, t);
  }

  /** Adding the node itself completes what its children's traversals selected. */
  lemma SelectedSelf(staged: StagedMap, visited: set<Bytes>, visited': set<Bytes>, out: seq<Prepared>, o: seq<Prepared>,
                     digest: Bytes)
    requires digest !in visited && digest in staged && WellFormed(staged[digest])
    requires Selected(staged, visited + {digest}, visited', out, o)
    requires forall j | 0 <= j < BRANCHES :: ChildrenOf(staged[digest])[j] in staged ==>
               ChildrenOf(staged[digest])[j] in visited'
    ensures Selected(staged, visited, visited', out, o + [Prepared(TreeKind, staged[digest], digest)])
  {
    hide WellFormed;
    var item := Prepared(TreeKind, staged[digest], digest);
    assert ClosedAt(staged, digest, visited');
    assert item in o + [item];
    forall d | d in visited' && d !in visited
      ensures Prepared(TreeKind, staged[d], d) in o + [item]
    {
      if d != digest { assert Prepared(TreeKind, staged[d], d) in o; }
    }
  }

  /** Once the selected nodes are rows, the whole new trie is held by the store. */
  lemma {:induction false} HeldAfter(h: Hash, before: Rows, after: Rows, staged: StagedMap, visited: set<Bytes>,
                                     t: Tree, depth: nat)
    requires ValidEdge(t, depth) && Anchored(h, before, staged, t) && Extends(before, after)
    requires Root(h, t) in staged ==> Root(h, t) in visited
    requires forall d | d in visited :: ClosedAt(staged, d, visited) && Get(after, d) == Some(Row(TreeKind, staged[d]))
    ensures Held(h, after, t)
    decreases t
  {
    hide Encode, WellFormed;
    if t.Sub? {
      if Root(h, t) in staged {
        NodeOfShape(h, t, depth);
        assert Encodes(staged[Root(h, t)], NodeOf(h, t), depth);
        ChildrenOfNode(staged[Root(h, t)], NodeOf(h, t), depth);
        forall e | 0 <= e < BRANCHES
          ensures Held(h, after, t.kids[e])
        {
          assert NodeOf(h, t).children[e] == Root(h, t.kids[e]);
          HeldAfter(h, before, after, staged, visited, t.kids[e], depth + |t.prefix| + 1);
        }
      } else {
        HeldExtends(h, before, after, t);
      }
    }
  }

  // ------------------------------------------------------------------- filtering

  function Tagged(changes: seq<Change>): (entries: seq<Entry<Change>>)
    ensures |entries| == |changes|
  {
    seq(|changes|, i requires 0 <= i < |changes| => Entry(Unpack(changes[i].key), changes[i]))
  }

  predicate WellTagged(sorted: seq<Entry<Change>>) {
    forall i | 0 <= i < |sorted| :: sorted[i].key == Unpack(sorted[i].value.key)
  }

  /** The change would leave the map as it is. */
  predicate NoOp(c: Change, existing: map<Uuid, Bytes>) {
    c.blob == Get(existing, c.key)
  }

  function Kept(sorted: seq<Entry<Change>>, existing: map<Uuid, Bytes>, end: nat): Edits
    requires end <= |sorted|
  {
    if end == 0 then []
    else
      var rest := Kept(sorted, existing, end - 1);
      if NoOp(sorted[end - 1].value, existing) then rest
        else rest + [Entry(sorted[end - 1].key, sorted[end - 1].value.blob)]
  }

  method FilterChanges(sorted: seq<Entry<Change>>, existing: map<Uuid, Bytes>) returns (filtered: Edits)
    ensures filtered == Kept(sorted, existing, |sorted|)
  {
    filtered := [];
    for i := 0 to |sorted|
      invariant filtered == Kept(sorted, existing, i)
    {
      var c := sorted[i].value;
      if c.blob.None? && c.key !in existing {
        continue;
      }
      if c.blob.Some? && c.key in existing && existing[c.key] == c.blob.value {
        continue;
      }
      filtered := filtered + [Entry(sorted[i].key, c.blob)];
    }
  }

  lemma {:induction false} KeptFrom(sorted: seq<Entry<Change>>, existing: map<Uuid, Bytes>, end: nat, i: nat)
    returns (j: nat)
    requires end <= |sorted| && i < |Kept(sorted, existing, end)|
    ensures j < end && Kept(sorted, existing, end)[i] == Entry(sorted[j].key, sorted[j].value.blob)
  {
    if i < |Kept(sorted, existing, end - 1)| { j := KeptFrom(sorted, existing, end - 1, i); } else { j := end - 1; }
  }

  lemma {:induction false} KeptProper(sorted: seq<Entry<Change>>, existing: map<Uuid, Bytes>, end: nat)
    requires end <= |sorted| && Sorted(sorted) && Distinct(sorted)
    requires forall i | 0 <= i < |sorted| :: sorted[i].value.blob.Some? ==> |sorted[i].value.blob.value| == HASH_BYTES
    ensures Proper(Kept(sorted, existing, end))
  {
    if end > 0 {
      KeptProper(sorted, existing, end - 1);
      var rest := Kept(sorted, existing, end - 1);
      forall i | 0 <= i < |rest|
        ensures !Less(sorted[end - 1].key, rest[i].key) && rest[i].key != sorted[end - 1].key
      {
        var j := KeptFrom(sorted, existing, end - 1, i);
      }
    }
  }

  /** Dropping no-ops changes no answer. */
  lemma {:induction false} KeptLookup(sorted: seq<Entry<Change>>, existing: map<Uuid, Bytes>, end: nat, m: map<Key,
                                      Bytes>, k: Key)
    requires end <= |sorted| && Distinct(sorted) && WellTagged(sorted)
    requires forall i | 0 <= i < |sorted| :: Get(existing, sorted[i].value.key) == Get(m, sorted[i].key)
    ensures var kept, found := Kept(sorted, existing, end), Lookup(sorted, 0, end, k);
      Overlay(Lookup(kept, 0, |kept|, k), Get(m, k)) == if found.Some? then found.value.blob else Get(m, k)
  {
    if end > 0 {
      KeptLookup(sorted, existing, end - 1, m, k);
      var rest, kept := Kept(sorted, existing, end - 1), Kept(sorted, existing, end);
      if !NoOp(sorted[end - 1].value, existing) {
        LookupPrefix(kept, rest, |rest|, k);
      } else if sorted[end - 1].key == k {
        LookupOut(sorted, 0, end - 1, k);
      }
    }
  }

  lemma {:induction false} TaggedLookup(changes: seq<Change>, end: nat, k: Key)
    requires end <= |changes|
    ensures var found := Lookup(Tagged(changes), 0, end, k);
      Lookup(Entries(changes), 0, end, k) == if found.Some? then Some(found.value.blob) else None
  {
    if end > 0 { TaggedLookup(changes, end - 1, k); }
  }

  lemma TaggedDistinct(changes: seq<Change>)
    ensures DistinctKeys(changes) <==> Distinct(Tagged(changes))
  {
    forall i, j | 0 <= i < j < |changes|
      ensures changes[i].key == changes[j].key <==> Tagged(changes)[i].key == Tagged(changes)[j].key
    {
      if Tagged(changes)[i].key == Tagged(changes)[j].key { UnpackInjective(changes[i].key, changes[j].key); }
    }
  }

  predicate BlobsKnown(h: Hash, rows: Rows, changes: seq<Change>) {
    forall i | 0 <= i < |changes| :: TreeUpdate.BlobKnown(h, rows, changes[i].blob)
  }

  /** What sorting and filtering a batch keeps of its meaning. */
  lemma FilteredMeans(changes: seq<Change>, existing: map<Uuid, Bytes>, m: map<Key, Bytes>, k: Key)
    requires DistinctKeys(changes)
    requires forall i | 0 <= i < |changes| :: Get(existing, changes[i].key) == Get(m, Unpack(changes[i].key))
    ensures var sorted := SortByKey(Tagged(changes));
      var kept := Kept(sorted, existing, |sorted|);
      Get(WriteAll(m, changes), k) == Overlay(Lookup(kept, 0, |kept|, k), Get(m, k))
  {
    var tagged := Tagged(changes);
    var sorted := SortByKey(tagged);
    TaggedDistinct(changes);
    SortedLookups(tagged);
    forall i | 0 <= i < |sorted|
      ensures sorted[i].key == Unpack(sorted[i].value.key) && Get(existing, sorted[i].value.key)
                == Get(m, sorted[i].key)
    {
      var j := SortedElement(tagged, i);
    }
    KeptLookup(sorted, existing, |sorted|, m, k);
    TaggedLookup(changes, |changes|, k);
    WriteAllGet(m, changes, k);
  }

  /** If the written map is the old one, every change was a no-op. */
  lemma {:induction false} NothingKept(sorted: seq<Entry<Change>>, existing: map<Uuid, Bytes>, end: nat)
    requires end <= |sorted| && forall i | 0 <= i < |sorted| :: NoOp(sorted[i].value, existing)
    ensures Kept(sorted, existing, end) == []
  {
    if end > 0 { NothingKept(sorted, existing, end - 1); }
  }

  lemma SortKeepsLength<V>(items: seq<Entry<V>>)
    ensures |SortByKey(items)| == |items|
  {
    SortKeeps(items);
    assert |multiset(SortByKey(items))| == |multiset(items)|;
  }

  lemma UnchangedMeansNoOps(changes: seq<Change>, existing: map<Uuid, Bytes>, m: map<Key, Bytes>)
    requires DistinctKeys(changes) && WriteAll(m, changes) == m
    requires forall i | 0 <= i < |changes| :: Get(existing, changes[i].key) == Get(m, Unpack(changes[i].key))
    ensures var sorted := SortByKey(Tagged(changes)); Kept(sorted, existing, |sorted|) == []
  {
    hide SortByKey, WriteAll, Lookup, Unpack;
    var tagged := Tagged(changes);
    var sorted := SortByKey(tagged);
    SortKeepsLength(tagged);
    DistinctEntries(changes);
    forall i | 0 <= i < |sorted|
      ensures NoOp(sorted[i].value, existing)
    {
      var j := SortedElement(tagged, i);
      WriteAllGet(m, changes, Unpack(changes[j].key));
      LookupIn(Entries(changes), 0, |changes|, j);
    }
    NothingKept(sorted, existing, |sorted|);
  }

  // ------------------------------------------------------------------- the batch

  lemma SelectedStorable(h: Hash, rows: Rows, staged: StagedMap, payloads: iset<Bytes>, visited: set<Bytes>,
                         out: seq<Prepared>)
    requires Selected(staged, {}, visited, [], out) && Faithful(h, staged, payloads) && Clean(h, rows, payloads)
    ensures forall i | 0 <= i < |out| :: Honest(h, out[i]) && out[i].kind == TreeKind
              && Storable(h, rows, TreeKind, out[i].payload)
    ensures NoClash(out)
  {
    hide ClosedAt;
  }

  /** Inserting the selection adds rows for new nodes only, and completes the new trie. */
  lemma SelectionStored(h: Hash, before: Rows, after: Rows, staged: StagedMap, visited: set<Bytes>, out: seq<Prepared>,
                        t: Tree)
    requires Selected(staged, {}, visited, [], out) && NoClash(out)
    requires after == before + RowsOf(TreeKind, out) && Extends(before, after)
    requires Valid(t, 0) && Anchored(h, before, staged, t) && (Root(h, t) in staged ==> Root(h, t) in visited)
    requires forall d | d in visited :: NodeOfTree(h, t, d)
    ensures Load(h, after, Root(h, t), 0) == Some(t)
    ensures forall d | d in after && d !in before :: NodeOfTree(h, t, d)
  {
    hide ClosedAt, Encode, Valid, Anchored, NodeOfTree, Load, Root;
    forall d | d in visited
      ensures Get(after, d) == Some(Row(TreeKind, staged[d]))
    {
      var i :| 0 <= i < |out| && out[i] == Prepared(TreeKind, staged[d], d);
      RowsOfAll(TreeKind, out, i);
    }
    HeldAfter(h, before, after, staged, visited, t, 0);
    LoadHeld(h, after, t, 0);
    forall d | d in after && d !in before
      ensures NodeOfTree(h, t, d)
    {
      FromItem(TreeKind, out, d);
    }
  }

  /** The trie of a finished batch: the null subtree becomes the empty root. */
  ghost function AsRoot(t: Tree): Tree {
    if t.Absent? then EmptyTree() else t
  }

  lemma AsRootValid(t: Tree, after: Tree, changes: Edits)
    requires changes != [] && Rewritten(t, after, 0, changes[0].key, changes, 0, |changes|)
    ensures Valid(AsRoot(after), 0)
    ensures forall k: Key :: Find(AsRoot(after), 0, k) == Overlay(Lookup(changes, 0, |changes|, k), Find(t, 0, k))
  {
    EmptyTreeValid();
    AbsentFind(0);
    forall k: Key
      ensures Find(after, 0, k) == Overlay(Lookup(changes, 0, |changes|, k), Find(t, 0, k))
    {
      assert k[..0] == changes[0].key[..0];
    }
  }

  /** Stage the empty root when the batch deleted everything. */
  method RootDigest(state: Batch, digest: Bytes, ghost after: Tree) returns (r: Option<Bytes>)
    requires state.Valid()
    modifies state
    ensures state.Valid() && Grows(old(state.Staged()), state.Staged())
    ensures digest != [] ==> r == Some(digest) && state.Staged() == old(state.Staged())
    ensures old(state.Safe()) && ValidEdge(after, 0) && Denotes(after, state.will)
              && Given(state.db.hash, state.db.rows, old(state.Staged()), digest, after, 0) ==>
                && state.Safe() && r == Some(Root(state.db.hash, AsRoot(after)))
                && Anchored(state.db.hash, state.db.rows, state.Staged(), AsRoot(after))
  {
    hide Encode, Anchored, Clean, Faithful, WellFormed, Batch.Valid, Batch.Staged, Batch.Safe, Part, Denotes;
    if ValidEdge(after, 0) && after.Sub? { NodeOfShape(state.db.hash, after, 0); }
    if digest != [] {
      return Some(digest);
    }
    EmptyTreeValid();
    EmptyNodeOf(state.db.hash);
    AbsentAnchored(state.db.hash, state.db.rows, state.Staged());
    if after.Absent? && Denotes(after, state.will) { EmptyPart(state.db.hash, state.was, state.will); }
    r := state.StageNode(EMPTY_NODE, 0, EmptyTree());
  }

  /** The empty root is a part of the empty map. */
  lemma EmptyPart(h: Hash, was: map<Key, Bytes>, will: map<Key, Bytes>)
    requires Denotes(Absent, will)
    ensures Part(h, was, will, Encode(EMPTY_NODE))
  {
    hide Encode;
    EmptyTreeValid();
    AbsentFind(0);
    EmptyNodeOf(h);
    forall k: Key
      ensures Find(EmptyTree(), 0, k) == Get(will, k)
    {
      assert Find(Absent, 0, k) == Get(will, k);
    }
    SlicePart(h, was, will, EmptyTree(), 0, ZeroKey());
  }

  lemma EmptyNodeOf(h: Hash)
    ensures NodeOf(h, EmptyTree()) == EMPTY_NODE
  {
    assert NodeOf(h, EmptyTree()).children == NO_CHILDREN;
  }

  lemma StoredGiven(h: Hash, rows: Rows, root: Bytes)
    requires root != [] && Load(h, rows, root, 0).Some?
    ensures Given(h, rows, map[], root, Load(h, rows, root, 0).value, 0)
  {
    hide Encode, Decode, Load;
    LoadRoot(h, rows, root, 0);
    LoadValid(h, rows, root, 0);
    LoadedHeld(h, rows, root, 0);
  }

  lemma RewrittenValid(t: Tree, after: Tree, changes: Edits)
    requires changes != [] && Rewritten(t, after, 0, changes[0].key, changes, 0, |changes|)
    ensures ValidEdge(after, 0)
    ensures forall k: Key :: Find(after, 0, k) == Overlay(Lookup(changes, 0, |changes|, k), Find(t, 0, k))
  {
    hide Valid, Find, Lookup;
    forall k: Key
      ensures Find(after, 0, k) == Overlay(Lookup(changes, 0, |changes|, k), Find(t, 0, k))
    {
      assert k[..0] == changes[0].key[..0];
    }
  }

  lemma SelectedHonest(h: Hash, staged: StagedMap, visited: set<Bytes>, out: seq<Prepared>)
    requires Selected(staged, {}, visited, [], out) && Digested(h, staged)
    ensures forall i | 0 <= i < |out| :: Honest(h, out[i])
  {
    hide ClosedAt;
  }

  /** Drawn payloads can be inserted unless a node of the trie conflicts with stored rows. */
  lemma DrawnStorable(h: Hash, rows: Rows, staged: StagedMap, visited: set<Bytes>, out: seq<Prepared>, t: Tree)
    requires Selected(staged, {}, visited, [], out) && Drawn(h, staged, t) && Valid(t, 0) && !Conflicts(h, rows, t)
    ensures NoClash(out)
    ensures forall i | 0 <= i < |out| :: out[i].kind == TreeKind && Storable(h, rows, TreeKind, out[i].payload)
  {
    hide ClosedAt, Encode, Storable, Root, Valid, Conflicts;
    forall i | 0 <= i < |out|
      ensures out[i].kind == TreeKind && Storable(h, rows, TreeKind, out[i].payload)
    {
      assert TreeBuild.FromTree(h, Prepared(TreeKind, staged[out[i].sha256], out[i].sha256), t);
      var s: Tree :| Within(s, t) && s.Sub? && |s.prefix| <= KEY_NIBBLES && AllNibbles(s.prefix)
                     && out[i] == Prepared(TreeKind, Encode(NodeOf(h, s)), Root(h, s));
      if !Storable(h, rows, TreeKind, out[i].payload) { WithinConflicts(h, rows, s, t, 0); }
    }
  }

  /** Where no two nodes share a digest, each node is staged with its own payload. */
  lemma DrawnNode(h: Hash, staged: StagedMap, s: Tree, t: Tree)
    requires Drawn(h, staged, t) && !SelfClash(h, t) && Within(s, t) && s.Sub?
    ensures |s.prefix| <= KEY_NIBBLES && AllNibbles(s.prefix)
    ensures Root(h, s) in staged && staged[Root(h, s)] == Encode(NodeOf(h, s))
  {
    hide Encode;
    var d := Root(h, s);
    assert TreeBuild.FromTree(h, Prepared(TreeKind, staged[d], d), t);
    var u: Tree :| Within(u, t) && u.Sub? && |u.prefix| <= KEY_NIBBLES && AllNibbles(u.prefix)
                   && Prepared(TreeKind, staged[d], d) == Prepared(TreeKind, Encode(NodeOf(h, u)), Root(h, u));
    assert u == s;
  }

  lemma {:induction false} DrawnAnchored(h: Hash, rows: Rows, staged: StagedMap, s: Tree, t: Tree, depth: nat)
    requires Drawn(h, staged, t) && !SelfClash(h, t) && ValidEdge(s, depth) && (s.Sub? ==> Within(s, t))
    ensures Anchored(h, rows, staged, s)
    decreases s
  {
    hide Encode, Valid, ValidShape, NodeOf, Drawn, SelfClash;
    if s.Sub? {
      DrawnNode(h, staged, s, t);
      ShapeOf(h, s, depth);
      forall e | 0 <= e < |s.kids|
        ensures Anchored(h, rows, staged, s.kids[e])
      {
        if s.kids[e].Sub? { WithinKid(s, t, e); }
        DrawnAnchored(h, rows, staged, s.kids[e], t, depth + |s.prefix| + 1);
      }
    }
  }

  lemma ShapeOf(h: Hash, s: Tree, depth: nat)
    requires s.Sub? && ValidEdge(s, depth)
    ensures |s.prefix| <= KEY_NIBBLES && AllNibbles(s.prefix) && |s.kids| == BRANCHES
    ensures forall e | 0 <= e < |s.kids| :: ValidEdge(s.kids[e], depth + |s.prefix| + 1)
  {
    NodeOfShape(h, s, depth);
  }

  lemma {:induction false} WithinKid(s: Tree, t: Tree, e: nat)
    requires Within(s, t) && s.Sub? && e < |s.kids|
    ensures Within(s.kids[e], t)
    decreases t
  {
    if s != t {
      var i :| 0 <= i < |t.kids| && Within(s, t.kids[i]);
      WithinKid(s, t.kids[i], e);
    } else {
      assert Within(s.kids[e], s.kids[e]);
    }
  }

  lemma DrawnInside(h: Hash, staged: StagedMap, visited: set<Bytes>, out: seq<Prepared>, t: Tree)
    requires Selected(staged, {}, visited, [], out) && Drawn(h, staged, t)
    ensures forall d | d in visited :: NodeOfTree(h, t, d)
  {
    hide ClosedAt, Encode;
    forall d | d in visited
      ensures NodeOfTree(h, t, d)
    {
      assert TreeBuild.FromTree(h, Prepared(TreeKind, staged[d], d), t);
    }
  }

  /** Insert the staged nodes that the new root reaches, and no others. */
  method StoreReachable(db: Store, state: Batch, digest: Bytes, ghost after: Tree) returns (r: Option<Bytes>)
    requires state.Valid() && state.db == db
    modifies db
    ensures Extends(old(db.rows), db.rows)
    ensures Drawn(db.hash, old(state.Staged()), after) && after.Sub? && Valid(after, 0)
              && digest == Root(db.hash, after)
            && !Conflicts(db.hash, old(db.rows), after) ==>
              && r == Some(digest)
              && (!SelfClash(db.hash, after) ==>
                    && digest != [] && Load(db.hash, db.rows, digest, 0) == Some(after)
                    && forall d | d in db.rows && d !in old(db.rows) :: NodeOfTree(db.hash, after, d))
    ensures old(state.Safe()) && after.Sub? && Given(db.hash, old(db.rows), old(state.Staged()), digest, after, 0) ==>
              && r == Some(digest) && digest != [] && Load(db.hash, db.rows, digest, 0) == Some(after)
              && (forall d | d in db.rows && d !in old(db.rows) :: NodeOfTree(db.hash, after, d))
  {
    hide Encode, Valid, Anchored, Clean, Faithful, Batch.Valid, Batch.Safe, WellFormed, Load, ClosedAt, NodeOfTree,
      Selected, Held, Drawn, Conflicts, SelfClash, Storable, NoClash, Root;
    ghost var h, start, staged := db.hash, db.rows, state.Staged();
    ghost var good := state.Safe() && after.Sub? && Given(h, start, staged, digest, after, 0);
    var visited, reachable := CollectReachable(state, digest, {}, [], after, 0);
    SelectedHonest(h, staged, visited, reachable);
    if good {
      SelectedStorable(h, start, staged, Parts(h, state.was, state.will), visited, reachable);
      NodeOfShape(h, after, 0);
    }
    ghost var drawn := Drawn(h, staged, after) && after.Sub? && Valid(after, 0) && digest == Root(h, after)
                       && !Conflicts(h, start, after);
    if drawn { DrawnStorable(h, start, staged, visited, reachable, after); }
    var stored := db.PutManyPrepared(TreeKind, reachable);
    if stored.None? {
      return None;
    }
    if good {
      SelectionStored(h, start, db.rows, staged, visited, reachable, after);
    }
    if drawn && !SelfClash(h, after) {
      DrawnAnchored(h, start, staged, after, after, 0);
      DrawnInside(h, staged, visited, reachable, after);
      NodeOfShape(h, after, 0);
      SelectionStored(h, start, db.rows, staged, visited, reachable, after);
    }
    return Some(digest);
  }

  /** The batch takes the old map to the new one, and their parts do not collide. */
  ghost predicate Sound(h: Hash, rows: Rows, filtered: Edits, was: map<Key, Bytes>, will: map<Key, Bytes>) {
    && BatchClean(h, rows, was, will)
    && forall k: Key :: Get(will, k) == Overlay(Lookup(filtered, 0, |filtered|, k), Get(was, k))
  }

  /**
   What a batch returns on the empty map: the digest of the new tree's root unless
   a node of it conflicts with stored rows, and a right root if no two of its nodes
   collide either. Collisions within the tree are not noticed.
   */
  ghost predicate FromEmpty(h: Hash, before: Rows, after: Rows, r: Option<Bytes>, will: map<Key, Bytes>) {
    exists t: Tree :: Valid(t, 0) && Denotes(t, will) && (!Conflicts(h, before, t) ==> r == Some(Root(h, t)))
                      && (!Conflicts(h, before, t) && !SelfClash(h, t) ==> DenotesMap(h, after, Root(h, t), will))
  }

  /** On the empty map a batch is right exactly if the new tree does not clash. */
  lemma FromEmptyExact(h: Hash, before: Rows, after: Rows, r: Option<Bytes>, will: map<Key, Bytes>)
    requires FromEmpty(h, before, after, r, will) && Extends(before, after)
    ensures r.Some? && DenotesMap(h, after, r.value, will) <==> !TreeClash.Clashes(h, before, will)
  {
    hide DenotesMap, Valid, Denotes, Conflicts, SelfClash, Root;
    if r.Some? && DenotesMap(h, after, r.value, will) && TreeClash.Clashes(h, before, will) {
      TreeClash.ClashBlocks(h, before, after, r.value, will);
    }
  }

  /** The root of the empty map is stored as the empty node. */
  lemma EmptyStored(h: Hash, rows: Rows, root: Bytes)
    requires DenotesMap(h, rows, root, map[])
    ensures ReadNode(h, rows, root, 0) == Some(EMPTY_NODE)
  {
    hide Encode, Decode, Find;
    LoadValid(h, rows, root, 0);
    EmptyTreeValid();
    UniqueTree(Load(h, rows, root, 0).value, EmptyTree(), map[]);
    LoadedHeld(h, rows, root, 0);
    LoadRoot(h, rows, root, 0);
    EmptyNodeOf(h);
    PeekAnchored(h, rows, map[], EmptyTree(), 0);
    PeekStored(h, rows, map[], root, 0);
  }

  /** A batch on the empty map that changes something leaves a trie. */
  lemma StartedDenotes(after: Tree, filtered: Edits, will: map<Key, Bytes>)
    requires filtered != [] && Rewritten(Absent, after, 0, filtered[0].key, filtered, 0, |filtered|) && will != map[]
    requires forall k: Key :: Get(will, k) == Overlay(Lookup(filtered, 0, |filtered|, k), None)
    ensures after.Sub? && Valid(after, 0) && Denotes(after, will)
  {
    hide Lookup, Find, Valid;
    AbsentFind(0);
    RewrittenValid(Absent, after, filtered);
    forall k: Key
      ensures Find(after, 0, k) == Get(will, k)
    {
      assert Find(Absent, 0, k) == None;
    }
    if after.Absent? {
      SameGets(will, map[]);
    }
  }

  lemma AskedAtRoot(t: Tree, filtered: Edits, was: map<Key, Bytes>, will: map<Key, Bytes>)
    requires filtered != [] && Denotes(t, was)
    requires forall k: Key :: Get(will, k) == Overlay(Lookup(filtered, 0, |filtered|, k), Get(was, k))
    ensures Asked(t, 0, filtered, 0, |filtered|, was, will)
  {
    hide Find, Lookup;
  }

  /** Rewrite in memory, then store what the new root reaches. */
  method ApplyFiltered(db: Store, root: Bytes, filtered: Edits, ghost was: map<Key, Bytes>, ghost will: map<Key, Bytes>)
    returns (r: Option<Bytes>)
    requires Proper(filtered) && filtered != []
    modifies db
    ensures Extends(old(db.rows), db.rows)
    ensures DenotesMap(db.hash, old(db.rows), root, was) && Sound(db.hash, old(db.rows), filtered, was, will) ==>
              && r.Some? && DenotesMap(db.hash, db.rows, r.value, will)
              && forall d | d in db.rows && d !in old(db.rows) ::
                   NodeOfTree(db.hash, Load(db.hash, db.rows, r.value, 0).value, d)
    ensures was == map[] && will != map[] && DenotesMap(db.hash, old(db.rows), root, was)
            && (forall k: Key :: Get(will, k) == Overlay(Lookup(filtered, 0, |filtered|, k), None)) ==>
              FromEmpty(db.hash, old(db.rows), db.rows, r, will)
  {
    hide Encode, Decode, Valid, Find, Anchored, Clean, Faithful, Batch.Valid, Batch.Staged, Batch.Safe, Rewritten,
      Proper, WellFormed, Load, NodeOfTree, Lookup, Held, Root, Asked, Denotes, Part, Drawn, Conflicts, SelfClash,
      ReadNode;
    ghost var h, start := db.hash, db.rows;
    ghost var empty := was == map[] && will != map[] && DenotesMap(h, start, root, was)
                       && forall k: Key :: Get(will, k) == Overlay(Lookup(filtered, 0, |filtered|, k), None);
    if empty { EmptyStored(h, start, root); }
    ghost var good := DenotesMap(h, start, root, was) && Sound(h, start, filtered, was, will);
    ghost var t := if good then Load(h, start, root, 0).value else Absent;
    var state := new Batch(db, filtered, was, will);
    assert SharePath(filtered, 0, |filtered|, filtered[0].key, 0);
    if good {
      StoredGiven(h, start, root);
      AskedAtRoot(t, filtered, was, will);
    }
    var digest, below := RewriteSubtree(state, root, 0, 0, |filtered|, t);
    ghost var after := AsRoot(below);
    if empty { StartedDenotes(below, filtered, will); }
    if empty { NodeOfShape(h, below, 0); }
    if digest.None? {
      return None;
    }
    if good {
      RewrittenValid(t, below, filtered);
      AsRootValid(t, below, filtered);
      AfterDenotes(t, below, was, will, filtered);
      AfterDenotes(t, after, was, will, filtered);
    }
    r := RootDigest(state, digest.value, below);
    if r.None? {
      return;
    }
    r := StoreReachable(db, state, r.value, after);
  }

  /** Collect the keys and the put blobs of a batch. */
  method KeysAndBlobs(sorted: seq<Entry<Change>>) returns (requested: set<Uuid>, blobs: seq<Bytes>)
    ensures forall i | 0 <= i < |sorted| :: sorted[i].value.key in requested
    ensures sorted == [] ==> requested == {}
    ensures forall b | b in blobs :: exists i :: 0 <= i < |sorted| && sorted[i].value.blob == Some(b)
    ensures forall i | 0 <= i < |sorted| :: sorted[i].value.blob.Some? ==> sorted[i].value.blob.value in blobs
  {
    requested, blobs := {}, [];
    for i := 0 to |sorted|
      invariant forall j | 0 <= j < i :: sorted[j].value.key in requested
      invariant i == 0 ==> requested == {}
      invariant forall b | b in blobs :: exists j :: 0 <= j < i && sorted[j].value.blob == Some(b)
      invariant forall j | 0 <= j < i :: sorted[j].value.blob.Some? ==> sorted[j].value.blob.value in blobs
    {
      requested := requested + {sorted[i].value.key};
      if sorted[i].value.blob.Some? {
        blobs := blobs + [sorted[i].value.blob.value];
      }
    }
  }

  lemma BlobsEitherWay(h: Hash, rows: Rows, changes: seq<Change>)
    ensures var sorted := SortByKey(Tagged(changes));
      (forall i | 0 <= i < |sorted| :: TreeUpdate.BlobKnown(h, rows, sorted[i].value.blob)) <==>
        BlobsKnown(h, rows, changes)
  {
    hide SortByKey, TreeUpdate.BlobKnown;
    var tagged := Tagged(changes);
    var sorted := SortByKey(tagged);
    SortKeepsLength(tagged);
    forall i | 0 <= i < |sorted|
      ensures exists j :: 0 <= j < |changes| && sorted[i].value == changes[j]
    {
      var j := SortedElement(tagged, i);
    }
    forall j | 0 <= j < |changes|
      ensures exists i :: 0 <= i < |sorted| && sorted[i].value == changes[j]
    {
      SortKeeps(tagged);
      assert tagged[j] in multiset(sorted);
      var i :| 0 <= i < |sorted| && sorted[i] == tagged[j];
    }
  }

  /** Check every referenced blob, and read what the tree now holds for the batch's keys. */
  method Survey(db: Store, root: Bytes, changes: seq<Change>, sorted: seq<Entry<Change>>)
    returns (ready: bool, existing: map<Uuid, Bytes>)
    requires sorted == SortByKey(Tagged(changes))
    ensures ready ==> BlobsKnown(db.hash, db.rows, changes)
    ensures BlobsKnown(db.hash, db.rows, changes) ==>
              forall m | DenotesMap(db.hash, db.rows, root, m) ::
                ready && forall i | 0 <= i < |changes| ::
                  Get(existing, changes[i].key) == Get(m, Unpack(changes[i].key))
  {
    hide Load, Encode, Decode, Find, Denotes, SortByKey, Unpack;
    existing := map[];
    BlobsEitherWay(db.hash, db.rows, changes);
    SortKeepsLength(Tagged(changes));
    var requested, blobs := KeysAndBlobs(sorted);
    var found := db.GetMany(Blob, blobs);
    assert BlobsKnown(db.hash, db.rows, changes) ==> found.Some? by {
      BlobsRequested(db.hash, db.rows, sorted, blobs);
    }
    if found.None? {
      return false, existing;
    }
    BlobsFound(db.hash, db.rows, sorted, blobs);
    KeysRequested(changes, requested);
    if requested == {} {
      var top := ReadTreeNode(db, root, 0);
      forall m | DenotesMap(db.hash, db.rows, root, m)
        ensures top.Some?
      {
        LoadKids(db.hash, db.rows, root, 0);
      }
      return top.Some?, existing;
    }
    var looked := TreeRead.LookupMany(db, root, requested);
    if looked.None? {
      return false, existing;
    }
    return true, looked.value;
  }

  lemma KeysRequested(changes: seq<Change>, requested: set<Uuid>)
    requires var sorted := SortByKey(Tagged(changes)); forall i | 0 <= i < |sorted| :: sorted[i].value.key in requested
    ensures forall j | 0 <= j < |changes| :: changes[j].key in requested
  {
    hide SortByKey;
    var tagged := Tagged(changes);
    var sorted := SortByKey(tagged);
    SortKeeps(tagged);
    forall j | 0 <= j < |changes|
      ensures changes[j].key in requested
    {
      assert tagged[j] in multiset(sorted);
      var i :| 0 <= i < |sorted| && sorted[i] == tagged[j];
    }
  }

  lemma BlobsRequested(h: Hash, rows: Rows, sorted: seq<Entry<Change>>, blobs: seq<Bytes>)
    requires forall b | b in blobs :: exists i :: 0 <= i < |sorted| && sorted[i].value.blob == Some(b)
    ensures (forall i | 0 <= i < |sorted| :: TreeUpdate.BlobKnown(h, rows, sorted[i].value.blob)) ==>
              forall i | 0 <= i < |blobs| :: Fetch(h, rows, Blob, blobs[i]).Some?
  {
    hide Fetch;
    if forall i | 0 <= i < |sorted| :: TreeUpdate.BlobKnown(h, rows, sorted[i].value.blob) {
      forall i | 0 <= i < |blobs|
        ensures Fetch(h, rows, Blob, blobs[i]).Some?
      {
        assert blobs[i] in blobs;
        var j :| 0 <= j < |sorted| && sorted[j].value.blob == Some(blobs[i]);
        assert TreeUpdate.BlobKnown(h, rows, sorted[j].value.blob);
      }
    }
  }

  lemma BlobsFound(h: Hash, rows: Rows, sorted: seq<Entry<Change>>, blobs: seq<Bytes>)
    requires forall i | 0 <= i < |sorted| :: sorted[i].value.blob.Some? ==> sorted[i].value.blob.value in blobs
    requires forall i | 0 <= i < |blobs| :: Fetch(h, rows, Blob, blobs[i]).Some?
    ensures forall i | 0 <= i < |sorted| :: TreeUpdate.BlobKnown(h, rows, sorted[i].value.blob)
  {}

  lemma FilteredAgrees(changes: seq<Change>, existing: map<Uuid, Bytes>, m: map<Key, Bytes>)
    requires DistinctKeys(changes)
    requires forall i | 0 <= i < |changes| :: Get(existing, changes[i].key) == Get(m, Unpack(changes[i].key))
    ensures var sorted := SortByKey(Tagged(changes));
      var kept := Kept(sorted, existing, |sorted|);
      && (forall k: Key :: Get(WriteAll(m, changes), k) == Overlay(Lookup(kept, 0, |kept|, k), Get(m, k)))
      && (kept == [] <==> WriteAll(m, changes) == m)
  {
    hide SortByKey, WriteAll, Unpack;
    var sorted := SortByKey(Tagged(changes));
    var kept := Kept(sorted, existing, |sorted|);
    forall k: Key
      ensures Get(WriteAll(m, changes), k) == Overlay(Lookup(kept, 0, |kept|, k), Get(m, k))
    {
      FilteredMeans(changes, existing, m, k);
    }
    if kept == [] {
      SameGets(WriteAll(m, changes), m);
    }
    if WriteAll(m, changes) == m {
      UnchangedMeansNoOps(changes, existing, m);
    }
  }

  lemma SizesKept(h: Hash, rows: Rows, changes: seq<Change>)
    requires BlobsKnown(h, rows, changes)
    ensures var sorted := SortByKey(Tagged(changes));
      forall i | 0 <= i < |sorted| :: sorted[i].value.blob.Some? ==> |sorted[i].value.blob.value| == HASH_BYTES
  {
    hide SortByKey;
    BlobsEitherWay(h, rows, changes);
    var sorted := SortByKey(Tagged(changes));
    forall i | 0 <= i < |sorted|
      ensures sorted[i].value.blob.Some? ==> |sorted[i].value.blob.value| == HASH_BYTES
    {
      assert TreeUpdate.BlobKnown(h, rows, sorted[i].value.blob);
    }
  }

  lemma AfterDenotes(t: Tree, after: Tree, m: map<Key, Bytes>, m': map<Key, Bytes>, filtered: Edits)
    requires Denotes(t, m)
    requires forall k: Key :: Find(after, 0, k) == Overlay(Lookup(filtered, 0, |filtered|, k), Find(t, 0, k))
    requires forall k: Key :: Get(m', k) == Overlay(Lookup(filtered, 0, |filtered|, k), Get(m, k))
    ensures Denotes(after, m')
  {
    hide Find, Lookup;
    forall k: Key
      ensures Find(after, 0, k) == Get(m', k)
    {
      assert Find(t, 0, k) == Get(m, k);
    }
  }

  /** A root denotes one map only. */
  lemma OneMapPerRoot(h: Hash, rows: Rows, root: Bytes, m: map<Key, Bytes>, m': map<Key, Bytes>)
    requires DenotesMap(h, rows, root, m) && DenotesMap(h, rows, root, m')
    ensures m == m'
  {
    hide Load, Find;
    var t := Load(h, rows, root, 0).value;
    forall k: Key
      ensures Get(m, k) == Get(m', k)
    {
      assert Find(t, 0, k) == Get(m, k);
      assert Find(t, 0, k) == Get(m', k);
    }
    SameGets(m, m');
  }

  /**
   A deterministic batch. On a root that denotes `m`, with distinct keys and
   known blobs, the new root denotes `m` with all changes written, unless parts
   of the two maps collide with each other or with stored rows; a batch that
   changes nothing returns the same root; only nodes of the new trie are added.
   On the empty map the result is right exactly if the new tree does not clash,
   and the batch answers all the same when only its own nodes collide.
   */
  method Apply(db: Store, root: Bytes, changes: seq<Change>) returns (r: Option<Bytes>)
    modifies db
    ensures Extends(old(db.rows), db.rows)
    ensures !DistinctKeys(changes) || !BlobsKnown(db.hash, old(db.rows), changes) ==> r.None? && db.rows == old(db.rows)
    ensures DistinctKeys(changes) && BlobsKnown(db.hash, old(db.rows), changes) ==>
              forall m | DenotesMap(db.hash, old(db.rows), root, m) ::
                && (BatchClean(db.hash, old(db.rows), m, WriteAll(m, changes)) ==>
                      r.Some? && DenotesMap(db.hash, db.rows, r.value, WriteAll(m, changes))
                      && forall d | d in db.rows && d !in old(db.rows) ::
                           NodeOfTree(db.hash, Load(db.hash, db.rows, r.value, 0).value, d))
                && (m == map[] ==>
                      (r.Some? && DenotesMap(db.hash, db.rows, r.value, WriteAll(m, changes)) <==>
                       !TreeClash.Clashes(db.hash, old(db.rows), WriteAll(m, changes)))
                      && (WriteAll(m, changes) != m ==>
                            FromEmpty(db.hash, old(db.rows), db.rows, r, WriteAll(m, changes))))
                && (WriteAll(m, changes) == m ==> r == Some(root) && db.rows == old(db.rows))
  {
    hide Load, Encode, Decode, Find, Valid, BatchClean, NodeOfTree, Denotes, Sorted, Distinct, SortByKey, Lookup,
      WriteAll, Proper, FromEmpty, TreeClash.Clashes;
    ghost var h, start := db.hash, db.rows;
    var sorted := SortByKey(Tagged(changes));
    SortKeeps(Tagged(changes));
    TaggedDistinct(changes);
    SortedLookups(Tagged(changes));
    var distinct := TreeBuild.AdjacentDistinct(sorted);
    if !distinct {
      return None;
    }
    var ready, existing := Survey(db, root, changes, sorted);
    if !ready {
      return None;
    }
    var filtered := FilterChanges(sorted, existing);
    forall m | DenotesMap(h, start, root, m)
      ensures forall k: Key :: Get(WriteAll(m, changes), k) == Overlay(Lookup(filtered, 0, |filtered|, k), Get(m, k))
      ensures WriteAll(m, changes) == m ==> filtered == []
      ensures filtered == [] ==> WriteAll(m, changes) == m
    {
      FilteredAgrees(changes, existing, m);
    }
    if filtered == [] {
      forall m | DenotesMap(h, start, root, m)
        ensures !TreeClash.Clashes(h, start, m)
      {
        if TreeClash.Clashes(h, start, m) { TreeClash.ClashBlocks(h, start, start, root, m); }
      }
      return Some(root);
    }
    SizesKept(h, start, changes);
    KeptProper(sorted, existing, |sorted|);
    ghost var was := if exists m :: DenotesMap(h, start, root, m) then var m :| DenotesMap(h, start, root, m); m
        else map[];
    r := ApplyFiltered(db, root, filtered, was, WriteAll(was, changes));
    forall m | DenotesMap(h, start, root, m)
      ensures m == was
    {
      OneMapPerRoot(h, start, root, m, was);
    }
    if was == map[] && DenotesMap(h, start, root, was) {
      FromEmptyExact(h, start, db.rows, r, WriteAll(was, changes));
    }
  }
}
