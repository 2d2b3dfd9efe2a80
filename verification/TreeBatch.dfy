/** Rewriting a subtree for a whole range of changes at once. */
module TreeBatch {
  import opened Prelude
  import opened Uuid
  import opened TreeNode
  import opened RadixTree
  import opened ContentStore
  import opened TreeStore
  import opened TreeParts
  import opened SortedRange
  import opened BatchStage
  import NodeCodec
  import TreeBuild
  import TreeUpdate

  type Edits = seq<Entry<Option<Bytes>>>

  function Overlay(change: Option<Option<Bytes>>, was: Option<Bytes>): Option<Bytes> {
    if change.Some? then change.value else was
  }

  /** On `base`'s path, `after` is `t` overridden by the range of changes. */
  ghost predicate Rewritten(t: Tree, after: Tree, depth: nat, base: Key, changes: Edits, begin: nat, end: nat)
    requires end <= |changes| && depth <= KEY_NIBBLES
  {
    && ValidEdge(after, depth)
    && forall k: Key | k[..depth] == base[..depth] ::
         Find(after, depth, k) == Overlay(Lookup(changes, begin, end, k), Find(t, depth, k))
  }

  predicate Proper(changes: Edits) {
    && Sorted(changes) && Distinct(changes)
    && forall i | 0 <= i < |changes| :: changes[i].value.Some? ==> |changes[i].value.value| == HASH_BYTES
  }

  /** A digest given with the trie it stands for. */
  ghost predicate Given(h: Hash, rows: Rows, staged: StagedMap, digest: Bytes, t: Tree, depth: nat) {
    digest == Root(h, t) && ValidEdge(t, depth) && Anchored(h, rows, staged, t)
  }

  ghost predicate GivenNode(h: Hash, rows: Rows, staged: StagedMap, n: Node, t: Tree, depth: nat) {
    t.Sub? && Valid(t, depth) && n == NodeOf(h, t) && Anchored(h, rows, staged, t)
  }

  /** What every case of a batch rewrite promises about the trie under a node. */
  ghost predicate Done(h: Hash, rows: Rows, staged: StagedMap, r: Option<Bytes>, t: Tree, after: Tree, depth: nat,
                       changes: Edits, begin: nat, end: nat)
    requires begin < end <= |changes| && depth <= KEY_NIBBLES
  {
    && r == Some(Root(h, after)) && Anchored(h, rows, staged, after)
    && Rewritten(t, after, depth, changes[begin].key, changes, begin, end)
  }

  /** Below `base`'s path, the range takes the old map to the new one. */
  ghost predicate Covers(changes: Edits, begin: nat, end: nat, depth: nat, base: Key, was: map<Key, Bytes>,
                         will: map<Key, Bytes>)
    requires end <= |changes| && depth <= KEY_NIBBLES
  {
    forall k: Key | k[..depth] == base[..depth] :: Get(will, k) == Overlay(Lookup(changes, begin, end, k), Get(was, k))
  }

  /** The trie to rewrite tells the old map below the range's path, and the range leads to the new one. */
  ghost predicate Asked(t: Tree, depth: nat, changes: Edits, begin: nat, end: nat, was: map<Key, Bytes>, will: map<Key,
                        Bytes>)
    requires begin < end <= |changes| && depth <= KEY_NIBBLES
  {
    Tells(t, depth, changes[begin].key, was) && Covers(changes, begin, end, depth, changes[begin].key, was, will)
  }

  /** A trie rewritten as asked tells the new map. */
  lemma AfterTells(t: Tree, after: Tree, depth: nat, changes: Edits, begin: nat, end: nat,
                   was: map<Key, Bytes>, will: map<Key, Bytes>)
    requires begin < end <= |changes| && depth <= KEY_NIBBLES
    requires Rewritten(t, after, depth, changes[begin].key, changes, begin, end)
    requires Asked(t, depth, changes, begin, end, was, will)
    ensures Tells(after, depth, changes[begin].key, will)
    ensures after.Sub? ==> Slice(after, depth, changes[begin].key, will)
  {
    hide Find, Lookup, Valid;
  }

  /** Just the digests of the trie's nodes are staged, each with the payload of a node that has it. */
  ghost predicate Drawn(h: Hash, staged: StagedMap, t: Tree) {
    && (forall d | d in staged :: TreeBuild.FromTree(h, Prepared(TreeKind, staged[d], d), t))
    && forall s: Tree | Within(s, t) && s.Sub? :: Root(h, s) in staged
  }

  /** What a batch does to an empty tree, whatever collides: the root of the new trie, over what could be staged. */
  ghost predicate Started(h: Hash, staged: StagedMap, r: Option<Bytes>, after: Tree, depth: nat, changes: Edits,
                          begin: nat, end: nat)
    requires begin < end <= |changes| && depth <= KEY_NIBBLES
  {
    && r == Some(Root(h, after)) && Drawn(h, staged, after)
    && Rewritten(Absent, after, depth, changes[begin].key, changes, begin, end)
  }

  ghost predicate Sourced(items: seq<Prepared>, n: nat, staged: StagedMap)
    requires n <= |items|
  {
    forall d | d in staged :: exists i :: 0 <= i < n && items[i] == Prepared(TreeKind, staged[d], d)
  }

  lemma {:induction false} ListedWithin(h: Hash, items: seq<Prepared>, s: Tree, t: Tree)
    requires TreeBuild.Listed(h, items, t) && Within(s, t) && s.Sub?
    ensures exists i :: 0 <= i < |items| && items[i].sha256 == Root(h, s)
    decreases t
  {
    hide Encode;
    if s == t {
      var i :| 0 <= i < |items| && items[i] == Prepared(TreeKind, Encode(NodeOf(h, t)), Root(h, t));
    } else {
      var e :| 0 <= e < |t.kids| && Within(s, t.kids[e]);
      ListedWithin(h, items, s, t.kids[e]);
    }
  }

  lemma ListedDrawn(h: Hash, items: seq<Prepared>, staged: StagedMap, t: Tree)
    requires TreeBuild.Listed(h, items, t) && forall i | 0 <= i < |items| :: TreeBuild.FromTree(h, items[i], t)
    requires Sourced(items, |items|, staged) && forall i | 0 <= i < |items| :: items[i].sha256 in staged
    ensures Drawn(h, staged, t)
  {
    hide TreeBuild.Listed, TreeBuild.FromTree, Root;
    forall s: Tree | Within(s, t) && s.Sub?
      ensures Root(h, s) in staged
    {
      ListedWithin(h, items, s, t);
    }
  }

  // ----------------------------------------------------------- ranges of puts

  /** The puts of a range, in order. */
  function Puts(changes: Edits, begin: nat, end: nat): seq<Entry<Bytes>>
    requires end <= |changes|
    decreases end
  {
    if end <= begin then []
    else
      var rest := Puts(changes, begin, end - 1);
      if changes[end - 1].value.Some? then rest + [Entry(changes[end - 1].key, changes[end - 1].value.value)] else rest
  }

  lemma {:induction false} PutsFrom(changes: Edits, begin: nat, end: nat, i: nat) returns (j: nat)
    requires end <= |changes| && i < |Puts(changes, begin, end)|
    ensures begin <= j < end && changes[j]
              == Entry(Puts(changes, begin, end)[i].key, Some(Puts(changes, begin, end)[i].value))
    decreases end
  {
    if i < |Puts(changes, begin, end - 1)| { j := PutsFrom(changes, begin, end - 1, i); } else { j := end - 1; }
  }

  lemma {:induction false} PutsProper(changes: Edits, begin: nat, end: nat)
    requires end <= |changes| && Proper(changes)
    ensures var puts := Puts(changes, begin, end); Sorted(puts) && Distinct(puts) && TreeBuild.ValuesAreDigests(puts)
    decreases end
  {
    hide Less, Sorted, Distinct, TreeBuild.ValuesAreDigests;
    NothingProper();
    if begin < end {
      PutsProper(changes, begin, end - 1);
      var rest := Puts(changes, begin, end - 1);
      forall i | 0 <= i < |rest|
        ensures !Less(changes[end - 1].key, rest[i].key) && rest[i].key != changes[end - 1].key
      {
        var j := PutsFrom(changes, begin, end - 1, i);
        ProperPair(changes, j, end - 1);
      }
      if changes[end - 1].value.Some? { ProperDigest(changes, end - 1); }
      if changes[end - 1].value.Some? { ProperSnoc(rest, changes[end - 1].key, changes[end - 1].value.value); }
    }
  }

  lemma NothingProper()
    ensures Sorted<Bytes>([]) && Distinct<Bytes>([]) && TreeBuild.ValuesAreDigests([])
  {}

  /** In a proper batch an earlier key is different and not greater, and every put is a digest. */
  lemma ProperPair(changes: Edits, i: nat, j: nat)
    requires Proper(changes) && i < j < |changes|
    ensures !Less(changes[j].key, changes[i].key) && changes[i].key != changes[j].key
  {
    hide Less;
  }

  lemma ProperDigest(changes: Edits, i: nat)
    requires Proper(changes) && i < |changes| && changes[i].value.Some?
    ensures |changes[i].value.value| == HASH_BYTES
  {
    hide Less, Sorted, Distinct;
  }

  lemma ProperSnoc(rest: seq<Entry<Bytes>>, key: Key, blob: Bytes)
    requires Sorted(rest) && Distinct(rest) && TreeBuild.ValuesAreDigests(rest) && |blob| == HASH_BYTES
    requires forall i | 0 <= i < |rest| :: !Less(key, rest[i].key) && rest[i].key != key
    ensures var puts := rest + [Entry(key, blob)]; Sorted(puts) && Distinct(puts) && TreeBuild.ValuesAreDigests(puts)
  {
    hide Less;
  }

  lemma {:induction false} PutsLookup(changes: Edits, begin: nat, end: nat, k: Key)
    requires end <= |changes| && Distinct(changes)
    ensures var puts := Puts(changes, begin, end);
      Lookup(puts, 0, |puts|, k) == Overlay(Lookup(changes, begin, end, k), None)
    decreases end
  {
    if begin < end {
      PutsLookup(changes, begin, end - 1, k);
      var rest, puts := Puts(changes, begin, end - 1), Puts(changes, begin, end);
      if changes[end - 1].value.Some? {
        LookupPrefix(puts, rest, |rest|, k);
      } else if changes[end - 1].key == k {
        LookupOut(changes, begin, end - 1, k);
      }
    }
  }

  /** A subtree that does not exist yet is built from the puts of its range. */
  method BuildBatchRange(state: Batch, begin: nat, end: nat, depth: nat) returns (r: Option<Bytes>, ghost after: Tree)
    requires state.Valid() && Proper(state.changes) && begin < end <= |state.changes| && depth <= KEY_NIBBLES
    requires SharePath(state.changes, begin, end, state.changes[begin].key, depth)
    modifies state
    ensures state.Valid() && Grows(old(state.Staged()), state.Staged())
    ensures old(state.Staged()) == map[] ==>
              Started(state.db.hash, state.Staged(), r, after, depth, state.changes, begin, end)
    ensures old(state.Safe()) && Asked(Absent, depth, state.changes, begin, end, state.was, state.will) ==>
              && state.Safe()
              && Done(state.db.hash, state.db.rows, state.Staged(), r, Absent, after, depth, state.changes, begin, end)
  {
    hide Encode, Decode, Valid, Find, Proper, Anchored, TreeBuild.Listed, TreeBuild.Answers, TreeBuild.FromTree,
      Batch.Safe, Asked, Rewritten, Part, Batch.Valid, Batch.Staged, Clean, Faithful;
    ghost var good := state.Safe() && Asked(Absent, depth, state.changes, begin, end, state.was, state.will);
    var entries: seq<Entry<Bytes>> := [];
    for i := begin to end
      invariant entries == Puts(state.changes, begin, i)
    {
      if state.changes[i].value.Some? {
        entries := entries + [Entry(state.changes[i].key, state.changes[i].value.value)];
      }
    }
    if entries == [] {
      NoPuts(state.changes, begin, end, depth);
      AbsentAnchored(state.db.hash, state.db.rows, state.Staged());
      assert old(state.Staged()) == map[] ==> Drawn(state.db.hash, state.Staged(), Absent);
      return Some([]), Absent;
    }
    PutsProper(state.changes, begin, end);
    PutsShare(state.changes, begin, end, depth);
    var root, built, t := TreeBuild.BuildRange(state.db.hash, entries, 0, |entries|, depth, []);
    PutsRewritten(state.changes, begin, end, depth, t);
    if good {
      AfterTells(Absent, t, depth, state.changes, begin, end, state.was, state.will);
      BuiltParts(state.db.hash, state.was, state.will, built, t, depth, state.changes[begin].key);
    }
    StageAll(state, built);
    if good { ListedAnchored(state.db.hash, state.db.rows, state.Staged(), built, t); }
    if old(state.Staged()) == map[] { ListedDrawn(state.db.hash, built, state.Staged(), t); }
    return root, t;
  }

  method StageAll(state: Batch, built: seq<Prepared>)
    requires state.Valid() && forall i | 0 <= i < |built| ::
               Honest(state.db.hash, built[i])
               && built[i].kind == TreeKind
    requires forall i | 0 <= i < |built| :: WellFormed(built[i].payload)
    modifies state
    ensures state.Valid() && Grows(old(state.Staged()), state.Staged())
    ensures forall i | 0 <= i < |built| :: built[i].sha256 in state.Staged()
    ensures old(state.Staged()) == map[] ==> Sourced(built, |built|, state.Staged())
    ensures old(state.Safe()) && (forall i | 0 <= i < |built| ::
                                  Part(state.db.hash, state.was, state.will, built[i].payload)) ==>
              state.Safe() && forall i | 0 <= i < |built| ::
                Get(state.Staged(), built[i].sha256) == Some(built[i].payload)
  {
    hide *;
    ghost var start := state.Staged();
    ghost var good := state.Safe() && forall i | 0 <= i < |built| ::
        Part(state.db.hash, state.was, state.will, built[i].payload);
    NothingSourced(built, start);
    for i := 0 to |built|
      invariant state.Valid() && Grows(start, state.Staged())
      invariant forall j | 0 <= j < i :: built[j].sha256 in state.Staged()
      invariant start == map[] ==> Sourced(built, i, state.Staged())
      invariant good ==> state.Safe() && Taken(built, i, state.Staged())
    {
      ghost var before := state.Staged();
      state.StageItem(built[i]);
      SourcedMore(built, i, before, state.Staged());
      TakenMore(built, i, start, before, state.Staged());
    }
    if good { AllTaken(built, state.Staged()); }
  }

  /** The first items are staged with their own payloads. */
  ghost predicate Taken(items: seq<Prepared>, n: nat, staged: StagedMap)
    requires n <= |items|
  {
    forall j | 0 <= j < n :: Get(staged, items[j].sha256) == Some(items[j].payload)
  }

  lemma AllTaken(items: seq<Prepared>, staged: StagedMap)
    requires Taken(items, |items|, staged)
    ensures forall i | 0 <= i < |items| :: Get(staged, items[i].sha256) == Some(items[i].payload)
  {}

  lemma TakenMore(items: seq<Prepared>, n: nat, start: StagedMap, before: StagedMap, after: StagedMap)
    requires n < |items| && Grows(start, before) && Grows(before, after) && items[n].sha256 in after
    ensures Grows(start, after)
    ensures Taken(items, n, before) && after[items[n].sha256] == items[n].payload ==> Taken(items, n + 1, after)
  {}

  lemma NothingSourced(items: seq<Prepared>, staged: StagedMap)
    ensures Grows(staged, staged) && Taken(items, 0, staged) && (staged == map[] ==> Sourced(items, 0, staged))
  {}

  lemma SourcedMore(items: seq<Prepared>, n: nat, before: StagedMap, after: StagedMap)
    requires n < |items| && items[n].kind == TreeKind && Grows(before, after)
    requires after.Keys == before.Keys + {items[n].sha256}
    requires items[n].sha256 !in before ==> after[items[n].sha256] == items[n].payload
    ensures Sourced(items, n, before) ==> Sourced(items, n + 1, after)
  {
    if Sourced(items, n, before) {
      forall d | d in after
        ensures exists i :: 0 <= i < n + 1 && items[i] == Prepared(TreeKind, after[d], d)
      {
        if d in before {
          var i :| 0 <= i < n && items[i] == Prepared(TreeKind, before[d], d);
        } else {
          assert items[n] == Prepared(TreeKind, after[d], d);
        }
      }
    }
  }

  /** What is built for a slice of the new map are parts of that map. */
  lemma BuiltParts(h: Hash, was: map<Key, Bytes>, will: map<Key, Bytes>, built: seq<Prepared>, t: Tree, depth: nat,
                   base: Key)
    requires Slice(t, depth, base, will) && forall i | 0 <= i < |built| :: TreeBuild.FromTree(h, built[i], t)
    ensures forall i | 0 <= i < |built| :: Part(h, was, will, built[i].payload)
  {
    hide Encode, Slice, Part;
    forall i | 0 <= i < |built|
      ensures Part(h, was, will, built[i].payload)
    {
      assert TreeBuild.FromTree(h, built[i], t);
      var s: Tree :| Within(s, t) && s.Sub? && |s.prefix| <= KEY_NIBBLES && AllNibbles(s.prefix)
                     && built[i] == Prepared(TreeKind, Encode(NodeOf(h, s)), Root(h, s));
      var depth', base' := WithinSlice(s, t, depth, base, will);
      SlicePart(h, was, will, s, depth', base');
    }
  }

  lemma NoPuts(changes: Edits, begin: nat, end: nat, depth: nat)
    requires begin < end <= |changes| && depth <= KEY_NIBBLES && Proper(changes) && Puts(changes, begin, end) == []
    ensures Rewritten(Absent, Absent, depth, changes[begin].key, changes, begin, end)
  {
    AbsentFind(depth);
    forall k: Key
      ensures Overlay(Lookup(changes, begin, end, k), None) == None
    {
      PutsLookup(changes, begin, end, k);
    }
  }

  lemma PutsShare(changes: Edits, begin: nat, end: nat, depth: nat)
    requires begin < end <= |changes| && depth <= KEY_NIBBLES && Puts(changes, begin, end) != []
    requires SharePath(changes, begin, end, changes[begin].key, depth)
    ensures var puts := Puts(changes, begin, end);
      SharePath(puts, 0, |puts|, puts[0].key, depth) && puts[0].key[..depth] == changes[begin].key[..depth]
  {
    var puts := Puts(changes, begin, end);
    forall i | 0 <= i < |puts|
      ensures puts[i].key[..depth] == changes[begin].key[..depth]
    {
      var j := PutsFrom(changes, begin, end, i);
    }
  }

  lemma PutsRewritten(changes: Edits, begin: nat, end: nat, depth: nat, t: Tree)
    requires begin < end <= |changes| && depth <= KEY_NIBBLES && Proper(changes) && Puts(changes, begin, end) != []
    requires SharePath(changes, begin, end, changes[begin].key, depth)
    requires var puts := Puts(changes, begin, end);
      Valid(t, depth) && TreeBuild.Answers(t, depth, puts[0].key, puts, 0, |puts|)
    ensures Rewritten(Absent, t, depth, changes[begin].key, changes, begin, end)
  {
    PutsShare(changes, begin, end, depth);
    AbsentFind(depth);
    forall k: Key | k[..depth] == changes[begin].key[..depth]
      ensures Find(t, depth, k) == Overlay(Lookup(changes, begin, end, k), None)
    {
      PutsLookup(changes, begin, end, k);
    }
  }

  lemma {:induction false} ListedAnchored(h: Hash, rows: Rows, staged: StagedMap, nodes: seq<Prepared>, t: Tree)
    requires TreeBuild.Listed(h, nodes, t)
    requires forall i | 0 <= i < |nodes| :: Get(staged, nodes[i].sha256) == Some(nodes[i].payload)
    ensures Anchored(h, rows, staged, t)
    decreases t
  {
    hide Encode;
    if t.Sub? {
      var i :| 0 <= i < |nodes| && nodes[i] == Prepared(TreeKind, Encode(NodeOf(h, t)), Root(h, t));
      forall e | 0 <= e < |t.kids|
        ensures Anchored(h, rows, staged, t.kids[e])
      {
        ListedAnchored(h, rows, staged, nodes, t.kids[e]);
      }
    }
  }

  // ------------------------------------------------------------------- branches

  /** Child digests given with the tries they stand for. */
  ghost predicate GivenKids(h: Hash, rows: Rows, staged: StagedMap, children: seq<Bytes>, kids: seq<Tree>, depth: nat)
    ensures GivenKids(h, rows, staged, children, kids, depth) ==> |children| == |kids| == BRANCHES
  {
    && |children| == |kids| == BRANCHES
    && forall e | 0 <= e < BRANCHES :: Given(h, rows, staged, children[e], kids[e], depth)
  }

  lemma KidsGrow(h: Hash, rows: Rows, before: StagedMap, after: StagedMap, payloads: iset<Bytes>,
                 children: seq<Bytes>, kids: seq<Tree>, depth: nat)
    requires GivenKids(h, rows, before, children, kids, depth) && Grows(before, after)
    requires Faithful(h, after, payloads) && Clean(h, rows, payloads)
    ensures GivenKids(h, rows, after, children, kids, depth)
  {
    hide Anchored, Clean, Faithful, Grows, Valid, Root;
    forall e | 0 <= e < BRANCHES
      ensures Given(h, rows, after, children[e], kids[e], depth)
    {
      AnchoredGrows(h, rows, before, after, payloads, kids[e]);
    }
  }

  lemma GivenOccupancy(h: Hash, rows: Rows, staged: StagedMap, children: seq<Bytes>, kids: seq<Tree>, depth: nat)
    requires GivenKids(h, rows, staged, children, kids, depth) && depth <= KEY_NIBBLES
    ensures Present(children) == Occupied(kids)
    ensures forall e | 0 <= e < BRANCHES :: children[e] == [] || |children[e]| == HASH_BYTES
  {
    forall e | 0 <= e < BRANCHES
      ensures Present(children)[e] == Occupied(kids)[e]
      ensures children[e] == [] || |children[e]| == HASH_BYTES
    {
      assert Given(h, rows, staged, children[e], kids[e], depth);
      if kids[e].Sub? { NodeOfShape(h, kids[e], depth); }
    }
  }

  /** A branch node left with one child is merged into that child; with none it disappears. */
  method FinishBatchNode(state: Batch, n: Node, depth: nat, ghost kids: seq<Tree>, ghost base: Key)
    returns (r: Option<Bytes>)
    requires state.Valid() && n.value.None? && depth + |n.prefix| < KEY_NIBBLES && AllNibbles(n.prefix)
    modifies state
    ensures state.Valid() && Grows(old(state.Staged()), state.Staged())
    ensures old(state.Safe())
              && GivenKids(state.db.hash, state.db.rows, old(state.Staged()), n.children, kids, depth + |n.prefix| + 1)
              && Tells(Join(n.prefix, kids), depth, base, state.will) ==>
                && state.Safe() && r == Some(Root(state.db.hash, Join(n.prefix, kids)))
                && Anchored(state.db.hash, state.db.rows, state.Staged(), Join(n.prefix, kids))
  {
    hide Encode, Decode, Valid, Anchored, Clean, Faithful, Batch.Valid, Batch.Staged, Batch.Safe, Peek, WellFormed,
      Part, Tells, Join, Count, Occupied, Root, GivenKids, Present, BatchClean, ValidShape, Shape, ValidKids,
      FirstOccupied;
    ghost var h, rows, was, will := state.db.hash, state.db.rows, state.was, state.will;
    ghost var d := depth + |n.prefix| + 1;
    ghost var good := state.Safe() && GivenKids(h, rows, state.Staged(), n.children, kids, d)
                      && Tells(Join(n.prefix, kids), depth, base, will);
    if good {
      GivenOccupancy(h, rows, state.Staged(), n.children, kids, d);
      GivenValid(h, rows, state.Staged(), n.children, kids, n.prefix, depth);
      JoinValid(n.prefix, kids, depth);
      JoinCases(n.prefix, kids);
    }
    var count := NodeCodec.ChildrenCount(n);
    if count == 0 {
      AbsentAnchored(h, rows, state.Staged());
      return Some([]);
    }
    if good { SlicePart(h, was, will, Join(n.prefix, kids), depth, base); }
    if count == 1 {
      var edge := NodeCodec.SingleChildIndex(n);
      if edge < 0 { TreeUpdate.NobodyHome(n); }
      ghost var before := state.Staged();
      if good {
        TreeUpdate.FirstIs(kids, n.children, edge);
        GivenKid(h, rows, before, n.children, kids, d, edge);
      }
      if good { KidsAnchored(h, rows, before, Parts(h, was, will), kids[edge]); }
      var child := state.ReadBatchNode(n.children[edge], depth + |n.prefix| + 1);
      if good { PeekAnchored(h, rows, before, kids[edge], d); }
      if child.None? {
        return None;
      }
      var combined := Node(n.prefix + [edge] + child.value.prefix, child.value.value, child.value.children);
      if good { CombinedNode(h, n.prefix, kids, edge, combined); }
      r := state.StageNode(combined, depth, if good then Join(n.prefix, kids) else Absent);
      return;
    }
    if good { BranchNode(h, rows, state.Staged(), n, kids, d); }
    r := state.StageNode(n, depth, if good then Sub(n.prefix, None, kids) else Absent);
  }

  lemma CombinedNode(h: Hash, prefix: Bytes, kids: seq<Tree>, edge: nat, combined: Node)
    requires |kids| == BRANCHES && Count(Occupied(kids)) == 1 && edge < BRANCHES && FirstOccupied(kids) == edge
    requires combined == Node(prefix + [edge] + NodeOf(h, kids[edge]).prefix, NodeOf(h, kids[edge]).value,
                              NodeOf(h, kids[edge]).children)
    ensures combined == NodeOf(h, Join(prefix, kids)) && Join(prefix, kids).kids == kids[edge].kids
  {
    assert combined.children == NodeOf(h, Join(prefix, kids)).children;
  }

  lemma KidsAnchored(h: Hash, rows: Rows, staged: StagedMap, payloads: iset<Bytes>, t: Tree)
    requires t.Sub? && Anchored(h, rows, staged, t) && Faithful(h, staged, payloads) && Clean(h, rows, payloads)
    ensures forall e | 0 <= e < |t.kids| :: Anchored(h, rows, staged, t.kids[e])
  {
    hide Anchored;
    forall e | 0 <= e < |t.kids|
      ensures Anchored(h, rows, staged, t.kids[e])
    {
      AnchoredKid(h, rows, staged, payloads, t, e);
    }
  }

  lemma BranchNode(h: Hash, rows: Rows, staged: StagedMap, n: Node, kids: seq<Tree>, depth: nat)
    requires GivenKids(h, rows, staged, n.children, kids, depth) && n.value.None?
    ensures NodeOf(h, Sub(n.prefix, None, kids)) == n
    ensures forall e | 0 <= e < BRANCHES :: Anchored(h, rows, staged, kids[e])
  {
    forall e | 0 <= e < BRANCHES
      ensures NodeOf(h, Sub(n.prefix, None, kids)).children[e] == n.children[e] && Anchored(h, rows, staged, kids[e])
    {
      assert Given(h, rows, staged, n.children[e], kids[e], depth);
    }
    assert NodeOf(h, Sub(n.prefix, None, kids)).children == n.children;
  }

  // -------------------------------------------------------------- the recursion

  /** The loop state over a node's edges: runs before `cursor` are applied, later edges are untouched. */
  ghost predicate Progress(kids0: seq<Tree>, kids: seq<Tree>, d: nat, changes: Edits, begin: nat, cursor: nat, end: nat)
    requires begin < end <= |changes| && cursor <= end && d < KEY_NIBBLES
  {
    && |kids0| == |kids| == BRANCHES
    && (forall k: Key | k[..d] == changes[begin].key[..d] ::
          Find(kids[k[d]], d + 1, k) == Overlay(Lookup(changes, begin, cursor, k), Find(kids0[k[d]], d + 1, k)))
    && (cursor < end ==> forall e | changes[cursor].key[d] <= e < BRANCHES :: kids[e] == kids0[e])
  }

  lemma ProgressStart(kids0: seq<Tree>, d: nat, changes: Edits, begin: nat, end: nat)
    requires begin < end <= |changes| && d < KEY_NIBBLES && |kids0| == BRANCHES
    ensures Progress(kids0, kids0, d, changes, begin, begin, end)
  {}

  lemma ProgressRun(kids0: seq<Tree>, kids: seq<Tree>, d: nat, changes: Edits, begin: nat, cursor: nat, next: nat,
                    end: nat,
                    kid: Tree)
    requires begin <= cursor < next <= end <= |changes| && d < KEY_NIBBLES && Sorted(changes)
    requires SharePath(changes, begin, end, changes[begin].key, d)
    requires forall i | cursor <= i < next :: changes[i].key[d] == changes[cursor].key[d]
    requires next < end ==> changes[next].key[d] != changes[cursor].key[d]
    requires Progress(kids0, kids, d, changes, begin, cursor, end)
    requires Rewritten(kids[changes[cursor].key[d]], kid, d + 1, changes[cursor].key, changes, cursor, next)
    ensures Progress(kids0, kids[changes[cursor].key[d] := kid], d, changes, begin, next, end)
  {
    hide Find, Valid;
    var edge := changes[cursor].key[d];
    var kids' := kids[edge := kid];
    forall k: Key | k[..d] == changes[begin].key[..d]
      ensures Find(kids'[k[d]], d + 1, k) == Overlay(Lookup(changes, begin, next, k), Find(kids0[k[d]], d + 1, k))
    {
      LookupSplit(changes, begin, cursor, next, k);
      if k[d] == edge {
        assert k[..d + 1] == k[..d] + [edge] && changes[cursor].key[..d + 1] == changes[cursor].key[..d] + [edge];
      } else {
        LookupOut(changes, cursor, next, k);
      }
    }
    if next < end {
      EdgesAscend(changes, begin, end, changes[begin].key, d, cursor, next);
    }
  }

  /** All runs applied and joined: the node's trie is overridden by the whole range. */
  lemma JoinRewritten(t: Tree, prefix: Bytes, kids0: seq<Tree>, kids: seq<Tree>, depth: nat,
                      changes: Edits, begin: nat, end: nat)
    requires begin < end <= |changes| && depth + |prefix| < KEY_NIBBLES
    requires SharePath(changes, begin, end, changes[begin].key, depth + |prefix|)
    requires changes[begin].key[depth..depth + |prefix|] == prefix
    requires Progress(kids0, kids, depth + |prefix|, changes, begin, end, end) && ValidKids(prefix, kids, depth)
    requires forall k: Key :: Find(Sub(prefix, None, kids0), depth, k) == Find(t, depth, k)
    ensures Rewritten(t, Join(prefix, kids), depth, changes[begin].key, changes, begin, end)
  {
    hide Valid, Find;
    JoinValid(prefix, kids, depth);
    forall k: Key | k[..depth] == changes[begin].key[..depth]
      ensures Find(Join(prefix, kids), depth, k) == Overlay(Lookup(changes, begin, end, k), Find(t, depth, k))
    {
      JoinFind(prefix, kids, depth, k);
      assert Find(Sub(prefix, None, kids0), depth, k) == Find(t, depth, k);
      RawFind(prefix, kids, depth, k);
      RawFind(prefix, kids0, depth, k);
      OnOrOff(changes, begin, end, depth, prefix, k);
    }
  }

  lemma OnOrOff(changes: Edits, begin: nat, end: nat, depth: nat, prefix: Bytes, k: Key)
    requires begin < end <= |changes| && depth + |prefix| < KEY_NIBBLES && k[..depth] == changes[begin].key[..depth]
    requires SharePath(changes, begin, end, changes[begin].key, depth + |prefix|)
    requires changes[begin].key[depth..depth + |prefix|] == prefix
    ensures k[depth..depth + |prefix|] == prefix ==> k[..depth + |prefix|] == changes[begin].key[..depth + |prefix|]
    ensures k[depth..depth + |prefix|] != prefix ==> Lookup(changes, begin, end, k) == None
  {
    var d, key := depth + |prefix|, changes[begin].key;
    assert k[..d] == k[..depth] + k[depth..d] && key[..d] == key[..depth] + key[depth..d];
    if k[depth..d] != prefix {
      TreeBuild.OffPath(changes, begin, end, depth, d, k);
      LookupOut(changes, begin, end, k);
    }
  }

  /** The children tell the old map below the range's path, and the range leads to the new one. */
  ghost predicate KidsAsked(kids: seq<Tree>, d: nat, changes: Edits, begin: nat, end: nat, was: map<Key, Bytes>,
                            will: map<Key, Bytes>)
    requires begin < end <= |changes| && d < KEY_NIBBLES
  {
    && |kids| == BRANCHES
    && (forall k: Key | k[..d] == changes[begin].key[..d] :: Find(kids[k[d]], d + 1, k) == Get(was, k))
    && Covers(changes, begin, end, d, changes[begin].key, was, will)
  }

  /** What is asked of a branch is asked of its children. */
  lemma AskKids(t: Tree, prefix: Bytes, kids: seq<Tree>, depth: nat, changes: Edits, begin: nat, end: nat,
                was: map<Key, Bytes>, will: map<Key, Bytes>)
    requires begin < end <= |changes| && depth + |prefix| < KEY_NIBBLES && |kids| == BRANCHES
    requires Asked(t, depth, changes, begin, end, was, will) && changes[begin].key[depth..depth + |prefix|] == prefix
    requires forall k: Key :: Find(Sub(prefix, None, kids), depth, k) == Find(t, depth, k)
    ensures KidsAsked(kids, depth + |prefix|, changes, begin, end, was, will)
  {
    hide Find, Lookup;
    var d, key := depth + |prefix|, changes[begin].key;
    forall k: Key | k[..d] == key[..d]
      ensures k[..depth] == key[..depth] && Find(kids[k[d]], d + 1, k) == Get(was, k)
    {
      assert k[..depth] == k[..d][..depth] == key[..d][..depth] == key[..depth];
      assert k[depth..d] == k[..d][depth..] == key[..d][depth..] == prefix;
      RawFind(prefix, kids, depth, k);
      assert Find(Sub(prefix, None, kids), depth, k) == Find(t, depth, k);
    }
  }

  /** What is asked of the children is asked of the child on the edge of the next run. */
  lemma AskRun(kids0: seq<Tree>, kids: seq<Tree>, d: nat, changes: Edits, begin: nat, cursor: nat, next: nat, end: nat,
               was: map<Key, Bytes>, will: map<Key, Bytes>)
    requires begin <= cursor < next <= end <= |changes| && d < KEY_NIBBLES && Sorted(changes)
    requires SharePath(changes, begin, end, changes[begin].key, d)
    requires forall i | cursor <= i < next :: changes[i].key[d] == changes[cursor].key[d]
    requires cursor > begin ==> changes[cursor - 1].key[d] != changes[cursor].key[d]
    requires next < end ==> changes[next].key[d] != changes[cursor].key[d]
    requires KidsAsked(kids0, d, changes, begin, end, was, will)
               && Progress(kids0, kids, d, changes, begin, cursor, end)
    ensures Asked(kids[changes[cursor].key[d]], d + 1, changes, cursor, next, was, will)
  {
    hide Find, Lookup, Sorted;
    var key := changes[cursor].key;
    var edge := key[d];
    forall k: Key | k[..d + 1] == key[..d + 1]
      ensures Find(kids[edge], d + 1, k) == Get(was, k)
      ensures Get(will, k) == Overlay(Lookup(changes, cursor, next, k), Get(was, k))
    {
      assert k[d] == k[..d + 1][d] == key[..d + 1][d] == edge;
      assert k[..d] == k[..d + 1][..d] == key[..d + 1][..d] == key[..d];
      assert Find(kids0[k[d]], d + 1, k) == Get(was, k);
      LookupRun(changes, begin, cursor, next, end, d, k);
    }
  }

  /** The keys of a run's edge occur in that run only. */
  lemma LookupRun(changes: Edits, begin: nat, cursor: nat, next: nat, end: nat, d: nat, k: Key)
    requires begin <= cursor < next <= end <= |changes| && d < KEY_NIBBLES && Sorted(changes)
    requires SharePath(changes, begin, end, changes[begin].key, d) && k[d] == changes[cursor].key[d]
    requires forall i | cursor <= i < next :: changes[i].key[d] == changes[cursor].key[d]
    requires cursor > begin ==> changes[cursor - 1].key[d] != changes[cursor].key[d]
    requires next < end ==> changes[next].key[d] != changes[cursor].key[d]
    ensures Lookup(changes, begin, end, k) == Lookup(changes, cursor, next, k)
  {
    hide Sorted;
    var base := changes[begin].key;
    forall i | begin <= i < cursor
      ensures changes[i].key != k
    {
      EdgesAscend(changes, begin, end, base, d, i, cursor - 1);
      EdgesAscend(changes, begin, end, base, d, cursor - 1, cursor);
    }
    forall i | next <= i < end
      ensures changes[i].key != k
    {
      EdgesAscend(changes, begin, end, base, d, cursor, next);
      EdgesAscend(changes, begin, end, base, d, next, i);
    }
    LookupSplit(changes, begin, cursor, end, k);
    LookupSplit(changes, cursor, next, end, k);
    LookupOut(changes, begin, cursor, k);
    LookupOut(changes, next, end, k);
  }

  /** Apply each run of changes to the child on its edge. */
  method RewriteKids(state: Batch, before: ChildArray, begin: nat, end: nat, d: nat, ghost kids0: seq<Tree>)
    returns (ok: bool, children: ChildArray, ghost kids: seq<Tree>)
    requires state.Valid() && Proper(state.changes) && begin < end <= |state.changes| && d < KEY_NIBBLES
    requires SharePath(state.changes, begin, end, state.changes[begin].key, d)
    modifies state
    decreases KEY_NIBBLES - d, 0
    ensures state.Valid() && Grows(old(state.Staged()), state.Staged())
    ensures old(state.Safe()) && GivenKids(state.db.hash, state.db.rows, old(state.Staged()), before, kids0, d + 1)
              && KidsAsked(kids0, d, state.changes, begin, end, state.was, state.will) ==>
                && state.Safe() && ok
                && GivenKids(state.db.hash, state.db.rows, state.Staged(), children, kids, d + 1)
                && Progress(kids0, kids, d, state.changes, begin, end, end)
  {
    hide Encode, Decode, Valid, Find, Anchored, Clean, Faithful, Batch.Valid, Batch.Staged, Batch.Safe, Progress,
      Rewritten, Proper, WellFormed, Asked, KidsAsked, Part, Sorted, Distinct, GivenKids, Lookup, Root, Given,
      BatchClean, Tells, Covers;
    ghost var h, rows, was, will := state.db.hash, state.db.rows, state.was, state.will;
    ghost var good := state.Safe() && GivenKids(h, rows, state.Staged(), before, kids0, d + 1)
                      && KidsAsked(kids0, d, state.changes, begin, end, was, will);
    children, kids := before, kids0;
    ok := true;
    if good {
      ProgressStart(kids0, d, state.changes, begin, end);
    }
    var cursor := begin;
    while cursor < end
      invariant begin <= cursor <= end
      invariant begin < cursor < end ==> state.changes[cursor - 1].key[d] != state.changes[cursor].key[d]
      invariant state.Valid() && Grows(old(state.Staged()), state.Staged())
      invariant good ==>
                  && state.Safe()
                  && GivenKids(h, rows, state.Staged(), children, kids, d + 1)
                  && Progress(kids0, kids, d, state.changes, begin, cursor, end)
    {
      var edge := state.changes[cursor].key[d];
      var next := RunEnd(state.changes, cursor, end, d);
      TreeBuild.RunShares(state.changes, begin, cursor, next, end, d);
      ProperSorted(state.changes);
      ghost var staged := state.Staged();
      if good {
        AskRun(kids0, kids, d, state.changes, begin, cursor, next, end, was, will);
        GivenKid(h, rows, staged, children, kids, d + 1, edge);
      }
      var changed, kid := RewriteSubtree(state, children[edge], d + 1, cursor, next, if edge < |kids| then kids[edge]
                                         else Absent);
      if good {
        RunDone(h, rows, staged, state.Staged(), Parts(h, was, will), children, kids0, kids, d, state.changes, begin,
                cursor, next,
                end, kid);
      }
      if changed.None? {
        return false, children, kids;
      }
      children := children[edge := changed.value];
      kids := if edge < |kids| then kids[edge := kid] else kids;
      cursor := next;
    }
  }

  lemma ProperSorted(changes: Edits)
    requires Proper(changes)
    ensures Sorted(changes) && Distinct(changes)
  {}

  lemma NewKid(h: Hash, rows: Rows, staged: StagedMap, children: ChildArray, kids: seq<Tree>, d: nat, edge: nat,
               changes: Edits, begin: nat, end: nat, kid: Tree)
    requires GivenKids(h, rows, staged, children, kids, d + 1) && edge < BRANCHES && d < KEY_NIBBLES
    requires begin < end <= |changes| && Rewritten(kids[edge], kid, d + 1, changes[begin].key, changes, begin, end)
    requires Anchored(h, rows, staged, kid)
    ensures GivenKids(h, rows, staged, children[edge := Root(h, kid)], kids[edge := kid], d + 1)
  {
    hide Anchored, Valid, Find, Root;
    var children', kids' := children[edge := Root(h, kid)], kids[edge := kid];
    forall e | 0 <= e < BRANCHES
      ensures Given(h, rows, staged, children'[e], kids'[e], d + 1)
    {
      if e != edge { assert Given(h, rows, staged, children[e], kids[e], d + 1); }
    }
  }

  /** The loop state after a run: its edge holds the rewritten child, and all children are still anchored. */
  lemma RunDone(h: Hash, rows: Rows, before: StagedMap, after: StagedMap, payloads: iset<Bytes>, children: ChildArray,
                kids0: seq<Tree>, kids: seq<Tree>, d: nat, changes: Edits, begin: nat, cursor: nat, next: nat, end: nat,
                  kid: Tree)
    requires begin <= cursor < next <= end <= |changes| && d < KEY_NIBBLES && Sorted(changes)
    requires SharePath(changes, begin, end, changes[begin].key, d)
    requires forall i | cursor <= i < next :: changes[i].key[d] == changes[cursor].key[d]
    requires next < end ==> changes[next].key[d] != changes[cursor].key[d]
    requires GivenKids(h, rows, before, children, kids, d + 1) && Progress(kids0, kids, d, changes, begin, cursor, end)
    requires Grows(before, after) && Faithful(h, after, payloads) && Clean(h, rows, payloads)
               && Anchored(h, rows, after, kid)
    requires Rewritten(kids[changes[cursor].key[d]], kid, d + 1, changes[cursor].key, changes, cursor, next)
    ensures var edge := changes[cursor].key[d];
      && Progress(kids0, kids[edge := kid], d, changes, begin, next, end)
      && GivenKids(h, rows, after, children[edge := Root(h, kid)], kids[edge := kid], d + 1)
  {
    hide Anchored, Clean, Faithful, Grows, Valid, Find, Lookup, Root, Progress, GivenKids, Rewritten, Sorted;
    KidsGrow(h, rows, before, after, payloads, children, kids, d + 1);
    ProgressRun(kids0, kids, d, changes, begin, cursor, next, end, kid);
    NewKid(h, rows, after, children, kids, d, changes[cursor].key[d], changes, cursor, next, kid);
  }

  lemma GivenKid(h: Hash, rows: Rows, staged: StagedMap, children: seq<Bytes>, kids: seq<Tree>, depth: nat, e: nat)
    requires GivenKids(h, rows, staged, children, kids, depth) && e < BRANCHES
    ensures |children| == |kids| == BRANCHES && Given(h, rows, staged, children[e], kids[e], depth)
  {}

  /** The digest below which all changes of the range have been applied; null when nothing is left. */
  method RewriteSubtree(state: Batch, current: Bytes, depth: nat, begin: nat, end: nat, ghost t: Tree)
    returns (r: Option<Bytes>, ghost after: Tree)
    requires state.Valid() && Proper(state.changes) && begin < end <= |state.changes| && depth <= KEY_NIBBLES
    requires SharePath(state.changes, begin, end, state.changes[begin].key, depth)
    modifies state
    decreases KEY_NIBBLES - depth, 3
    ensures state.Valid() && Grows(old(state.Staged()), state.Staged())
    ensures old(state.Staged()) == map[] && depth == 0 && current != []
              && ReadNode(state.db.hash, state.db.rows, current, 0) == Some(EMPTY_NODE) ==>
                Started(state.db.hash, state.Staged(), r, after, depth, state.changes, begin, end)
    ensures old(state.Safe()) && Given(state.db.hash, state.db.rows, old(state.Staged()), current, t, depth)
              && Asked(t, depth, state.changes, begin, end, state.was, state.will) ==>
                && state.Safe()
                && Done(state.db.hash, state.db.rows, state.Staged(), r, t, after, depth, state.changes, begin, end)
  {
    hide Encode, Decode, Valid, Find, Anchored, Clean, Faithful, Batch.Valid, Batch.Staged, Batch.Safe, Rewritten,
      Proper, Peek, WellFormed, Asked, Started, ReadNode;
    ghost var h, rows := state.db.hash, state.db.rows;
    ghost var good := state.Safe() && Given(h, rows, state.Staged(), current, t, depth)
                      && Asked(t, depth, state.changes, begin, end, state.was, state.will);
    if current == [] {
      if good { NullIsAbsent(h, t, depth); }
      r, after := BuildBatchRange(state, begin, end, depth);
      return;
    }
    ghost var before := state.Staged();
    var original := state.ReadBatchNode(current, depth);
    if before == map[] { PeekStored(h, rows, before, current, depth); }
    if good {
      NotNull(h, t);
      PeekAnchored(h, rows, before, t, depth);
    }
    if original.None? {
      return None, Absent;
    }
    r, after := RewriteNode(state, original.value, depth, begin, end, t);
  }

  /** With nothing staged, a batch reads what is stored. */
  lemma PeekStored(h: Hash, rows: Rows, staged: StagedMap, digest: Bytes, depth: nat)
    requires staged == map[]
    ensures Peek(h, rows, staged, digest, depth) == ReadNode(h, rows, digest, depth)
  {
    hide Decode, ReadNode;
  }

  lemma NullIsAbsent(h: Hash, t: Tree, depth: nat)
    requires Root(h, t) == [] && ValidEdge(t, depth)
    ensures t == Absent
  {
    if t.Sub? { NodeOfShape(h, t, depth); }
  }

  lemma NotNull(h: Hash, t: Tree)
    requires Root(h, t) != []
    ensures t.Sub?
  {}

  /** How far the whole range follows a prefix: its first and last key decide. */
  method CommonOfRange(changes: Edits, begin: nat, end: nat, depth: nat, prefix: Bytes) returns (common: nat)
    requires Sorted(changes) && begin < end <= |changes| && depth + |prefix| <= KEY_NIBBLES
    requires SharePath(changes, begin, end, changes[begin].key, depth)
    ensures common <= |prefix| && changes[begin].key[depth..depth + common] == prefix[..common]
    ensures SharePath(changes, begin, end, changes[begin].key, depth + common)
    ensures common < |prefix| ==>
              changes[begin].key[depth + common] != prefix[common]
              || changes[end - 1].key[depth + common] != prefix[common]
  {
    var first, last := changes[begin].key, changes[end - 1].key;
    var a := TreeUpdate.CommonPrefix(first, depth, prefix);
    var b := TreeUpdate.CommonPrefix(last, depth, prefix);
    common := if a < b then a else b;
    ShorterMatch(first, depth, prefix, a, common);
    ShorterMatch(last, depth, prefix, b, common);
    assert last[..depth] == first[..depth];
    assert first[..depth + common] == first[..depth] + prefix[..common] == last[..depth + common];
    EndsDecidePath(changes, begin, end, depth + common);
  }

  lemma ShorterMatch(key: Key, depth: nat, prefix: Bytes, n: nat, m: nat)
    requires m <= n <= |prefix| && depth + n <= KEY_NIBBLES && key[depth..depth + n] == prefix[..n]
    ensures key[depth..depth + m] == prefix[..m] && key[..depth + m] == key[..depth] + prefix[..m]
  {
    assert key[depth..depth + m] == key[depth..depth + n][..m];
    assert prefix[..m] == prefix[..n][..m];
    assert key[..depth + m] == key[..depth] + key[depth..depth + m];
  }

  /** The cases on the node that was read. */
  method RewriteNode(state: Batch, n: Node, depth: nat, begin: nat, end: nat, ghost t: Tree)
    returns (r: Option<Bytes>, ghost after: Tree)
    requires state.Valid() && Proper(state.changes) && begin < end <= |state.changes| && depth <= KEY_NIBBLES
    requires SharePath(state.changes, begin, end, state.changes[begin].key, depth) && ValidShape(n, depth)
    modifies state
    decreases KEY_NIBBLES - depth, 2
    ensures state.Valid() && Grows(old(state.Staged()), state.Staged())
    ensures old(state.Staged()) == map[] && depth == 0 && n == EMPTY_NODE ==>
              Started(state.db.hash, state.Staged(), r, after, depth, state.changes, begin, end)
    ensures old(state.Safe()) && GivenNode(state.db.hash, state.db.rows, old(state.Staged()), n, t, depth)
              && Asked(t, depth, state.changes, begin, end, state.was, state.will) ==>
                && state.Safe()
                && Done(state.db.hash, state.db.rows, state.Staged(), r, t, after, depth, state.changes, begin, end)
  {
    hide Encode, Decode, Valid, Find, Anchored, Clean, Faithful, Batch.Valid, Batch.Staged, Batch.Safe, Rewritten,
      Proper, WellFormed, Asked, Started, Done, GivenNode, Present, Count, SharePath;
    EmptyNodeBare();
    ProperSorted(state.changes);
    var common := CommonOfRange(state.changes, begin, end, depth, n.prefix);
    if common < |n.prefix| {
      r, after := RewriteSplit(state, n, depth, begin, end, common, t);
      return;
    }
    assert n.prefix[..common] == n.prefix;
    if depth + |n.prefix| == KEY_NIBBLES {
      r, after := RewriteLeaf(state, n, depth, begin, end, t);
      return;
    }
    var count := NodeCodec.ChildrenCount(n);
    if count == 0 {
      r, after := RewriteEmpty(state, n, depth, begin, end, t);
      return;
    }
    r, after := RewriteBranch(state, n, depth, begin, end, t);
  }

  lemma EmptyNodeBare()
    ensures EMPTY_NODE.prefix == [] && Count(Present(EMPTY_NODE.children)) == 0
  {
    CountNone(Present(NO_CHILDREN));
  }

  /** Below the empty root everything is new. */
  method RewriteEmpty(state: Batch, n: Node, depth: nat, begin: nat, end: nat, ghost t: Tree)
    returns (r: Option<Bytes>, ghost after: Tree)
    requires state.Valid() && Proper(state.changes) && begin < end <= |state.changes|
    requires ValidShape(n, depth) && depth + |n.prefix| < KEY_NIBBLES && Count(Present(n.children)) == 0
    requires SharePath(state.changes, begin, end, state.changes[begin].key, depth)
    modifies state
    ensures state.Valid() && Grows(old(state.Staged()), state.Staged())
    ensures old(state.Staged()) == map[] ==>
              Started(state.db.hash, state.Staged(), r, after, depth, state.changes, begin, end)
    ensures old(state.Safe()) && GivenNode(state.db.hash, state.db.rows, old(state.Staged()), n, t, depth)
              && Asked(t, depth, state.changes, begin, end, state.was, state.will) ==>
                && state.Safe()
                && Done(state.db.hash, state.db.rows, state.Staged(), r, t, after, depth, state.changes, begin, end)
  {
    hide Encode, Decode, Valid, Find, Anchored, Clean, Faithful, Batch.Valid, Batch.Staged, Batch.Safe, Rewritten,
      Proper, WellFormed, Asked, Started;
    ghost var h, rows := state.db.hash, state.db.rows;
    ghost var good := state.Safe() && GivenNode(h, rows, state.Staged(), n, t, depth)
                      && Asked(t, depth, state.changes, begin, end, state.was, state.will);
    if good {
      EmptyRootIsAbsent(h, t, depth, n);
      AskAbsent(t, depth, state.changes, begin, end, state.was, state.will);
    }
    r, after := BuildBatchRange(state, begin, end, depth);
    if good { SameAnswers(Absent, t, after, depth, state.changes, begin, end); }
  }

  lemma EmptyRootIsAbsent(h: Hash, t: Tree, depth: nat, n: Node)
    requires Valid(t, depth) && n == NodeOf(h, t) && depth + |t.prefix| < KEY_NIBBLES && Count(Present(n.children)) == 0
    ensures forall k: Key :: Find(t, depth, k) == Find(Absent, depth, k)
  {
    NodeOfShape(h, t, depth);
    AbsentFind(depth);
    TreeUpdate.ChildlessIsEmpty(t, depth);
  }

  lemma AskAbsent(t: Tree, depth: nat, changes: Edits, begin: nat, end: nat, was: map<Key, Bytes>, will: map<Key,
                  Bytes>)
    requires begin < end <= |changes| && depth <= KEY_NIBBLES && Asked(t, depth, changes, begin, end, was, will)
    requires forall k: Key :: Find(t, depth, k) == Find(Absent, depth, k)
    ensures Asked(Absent, depth, changes, begin, end, was, will)
  {
    hide Find, Lookup;
    forall k: Key | k[..depth] == changes[begin].key[..depth]
      ensures Find(Absent, depth, k) == Get(was, k)
    {
      assert Find(t, depth, k) == Find(Absent, depth, k);
    }
  }

  lemma SameAnswers(a: Tree, b: Tree, after: Tree, depth: nat, changes: Edits, begin: nat, end: nat)
    requires begin < end <= |changes| && depth <= KEY_NIBBLES
    requires Rewritten(a, after, depth, changes[begin].key, changes, begin, end)
    requires forall k: Key :: Find(b, depth, k) == Find(a, depth, k)
    ensures Rewritten(b, after, depth, changes[begin].key, changes, begin, end)
  {
    hide Valid;
    forall k: Key | k[..depth] == changes[begin].key[..depth]
      ensures Find(after, depth, k) == Overlay(Lookup(changes, begin, end, k), Find(b, depth, k))
    {
      assert Find(b, depth, k) == Find(a, depth, k);
    }
  }

  /** Some change leaves the compressed path: cut it there, then treat both sides alike. */
  method RewriteSplit(state: Batch, n: Node, depth: nat, begin: nat, end: nat, common: nat, ghost t: Tree)
    returns (r: Option<Bytes>, ghost after: Tree)
    requires state.Valid() && Proper(state.changes) && begin < end <= |state.changes|
    requires ValidShape(n, depth) && common < |n.prefix|
    requires SharePath(state.changes, begin, end, state.changes[begin].key, depth + common)
    requires state.changes[begin].key[depth..depth + common] == n.prefix[..common]
    modifies state
    decreases KEY_NIBBLES - depth, 1
    ensures state.Valid() && Grows(old(state.Staged()), state.Staged())
    ensures old(state.Safe()) && GivenNode(state.db.hash, state.db.rows, old(state.Staged()), n, t, depth)
              && Asked(t, depth, state.changes, begin, end, state.was, state.will) ==>
                && state.Safe()
                && Done(state.db.hash, state.db.rows, state.Staged(), r, t, after, depth, state.changes, begin, end)
  {
    hide Encode, Decode, Valid, Find, Anchored, Clean, Faithful, Batch.Valid, Batch.Staged, Batch.Safe, Rewritten,
      Proper, Progress, WellFormed, Asked, KidsAsked, Part, Join, Count, Occupied, Root, GivenKids, Present,
      ValidKids;
    ghost var h, rows := state.db.hash, state.db.rows;
    ghost var good := state.Safe() && GivenNode(h, rows, state.Staged(), n, t, depth)
                      && Asked(t, depth, state.changes, begin, end, state.was, state.will);
    var forkDepth := depth + common;
    var oldEdge := n.prefix[common];
    var oldSuffix := Node(n.prefix[common + 1..], n.value, n.children);
    ghost var staged0, was, will := state.Staged(), state.was, state.will;
    ghost var suffix := if good then Suffix(t, common) else Absent;
    ghost var kids0 := if good then SplitKids(t, common) else [];
    if good {
      SplitValid(t, common, depth);
      SuffixNode(h, t, common, oldSuffix);
      SuffixPart(h, t, common, depth, state.changes, begin, end, was, will);
      KidsAnchored(h, rows, staged0, Parts(h, was, will), t);
    }
    var suffixHash := state.StageNode(oldSuffix, forkDepth + 1, suffix);
    TreeUpdate.SuffixShape(n, depth, common);
    if good {
      ForkGiven(h, rows, state.Staged(), t, common, depth, suffixHash.value);
      forall k: Key
        ensures Find(Sub(n.prefix[..common], None, kids0), depth, k) == Find(t, depth, k)
      {
        SplitFind(t, common, depth, k);
      }
      AskKids(t, n.prefix[..common], kids0, depth, state.changes, begin, end, was, will);
    }
    var ok, children, kids := RewriteKids(state, NO_CHILDREN[oldEdge := suffixHash.value], begin, end, forkDepth,
                                          kids0);
    if !ok {
      return None, Absent;
    }
    after := if |kids| == BRANCHES then Join(n.prefix[..common], kids) else Absent;
    if good {
      Joined(h, rows, state.Staged(), t, n.prefix[..common], kids0, children, kids, depth, state.changes, begin, end,
             was, will);
    }
    r := FinishBatchNode(state, Node(n.prefix[..common], None, children), depth, kids, state.changes[begin].key);
  }

  /** Children rewritten as asked join to a trie rewritten as asked, which tells the new map. */
  lemma Joined(h: Hash, rows: Rows, staged: StagedMap, t: Tree, prefix: Bytes, kids0: seq<Tree>, children: seq<Bytes>,
               kids: seq<Tree>, depth: nat, changes: Edits, begin: nat, end: nat, was: map<Key, Bytes>, will: map<Key,
                 Bytes>)
    requires begin < end <= |changes| && depth + |prefix| < KEY_NIBBLES && AllNibbles(prefix)
    requires SharePath(changes, begin, end, changes[begin].key, depth + |prefix|)
    requires changes[begin].key[depth..depth + |prefix|] == prefix
    requires GivenKids(h, rows, staged, children, kids, depth + |prefix| + 1)
    requires Progress(kids0, kids, depth + |prefix|, changes, begin, end, end)
    requires forall k: Key :: Find(Sub(prefix, None, kids0), depth, k) == Find(t, depth, k)
    requires Asked(t, depth, changes, begin, end, was, will)
    ensures |kids| == BRANCHES && Rewritten(t, Join(prefix, kids), depth, changes[begin].key, changes, begin, end)
    ensures Tells(Join(prefix, kids), depth, changes[begin].key, will)
  {
    hide *;
    GivenValid(h, rows, staged, children, kids, prefix, depth);
    JoinRewritten(t, prefix, kids0, kids, depth, changes, begin, end);
    AfterTells(t, Join(prefix, kids), depth, changes, begin, end, was, will);
  }

  lemma SuffixPart(h: Hash, t: Tree, common: nat, depth: nat, changes: Edits, begin: nat, end: nat,
                   was: map<Key, Bytes>, will: map<Key, Bytes>)
    requires begin < end <= |changes| && Valid(t, depth) && common < |t.prefix| && depth <= KEY_NIBBLES
    requires Asked(t, depth, changes, begin, end, was, will)
    ensures Valid(Suffix(t, common), depth + common + 1) && Part(h, was, will, Encode(NodeOf(h, Suffix(t, common))))
  {
    hide Encode, Part, Find, Lookup;
    var key := changes[begin].key;
    SuffixSlice(t, common, depth, key, was);
    SlicePart(h, was, will, Suffix(t, common), depth + common + 1,
              Graft(key, depth, t.prefix[..common] + [t.prefix[common]]));
  }

  lemma SuffixNode(h: Hash, t: Tree, common: nat, n: Node)
    requires t.Sub? && common < |t.prefix|
    requires n == Node(t.prefix[common + 1..], t.value, NodeOf(h, t).children)
    ensures n == NodeOf(h, Suffix(t, common)) && Suffix(t, common).kids == t.kids
  {
    assert n.children == NodeOf(h, Suffix(t, common)).children;
  }

  lemma ForkGiven(h: Hash, rows: Rows, staged: StagedMap, t: Tree, common: nat, depth: nat, suffixHash: Bytes)
    requires Valid(t, depth) && common < |t.prefix| && depth + common < KEY_NIBBLES
    requires suffixHash == Root(h, Suffix(t, common)) && Anchored(h, rows, staged, Suffix(t, common))
    ensures |suffixHash| == HASH_BYTES
    ensures GivenKids(h, rows, staged, NO_CHILDREN[t.prefix[common] := suffixHash], SplitKids(t, common),
                      depth + common + 1)
  {
    hide Encode, Find;
    SplitValid(t, common, depth);
    NodeOfShape(h, Suffix(t, common), depth + common + 1);
    AbsentAnchored(h, rows, staged);
  }

  lemma GivenValid(h: Hash, rows: Rows, staged: StagedMap, children: seq<Bytes>, kids: seq<Tree>, prefix: Bytes,
                   depth: nat)
    requires GivenKids(h, rows, staged, children, kids, depth + |prefix| + 1)
    requires depth + |prefix| < KEY_NIBBLES && AllNibbles(prefix)
    ensures ValidKids(prefix, kids, depth)
  {
    hide Anchored, Valid, Root;
    forall e | 0 <= e < BRANCHES
      ensures ValidEdge(kids[e], depth + |prefix| + 1)
    {
      assert Given(h, rows, staged, children[e], kids[e], depth + |prefix| + 1);
    }
  }

  /** The range reaches a leaf: it holds one change, for that very key. */
  method RewriteLeaf(state: Batch, n: Node, depth: nat, begin: nat, end: nat, ghost t: Tree)
    returns (r: Option<Bytes>, ghost after: Tree)
    requires state.Valid() && Proper(state.changes) && begin < end <= |state.changes|
    requires ValidShape(n, depth) && depth + |n.prefix| == KEY_NIBBLES
    requires SharePath(state.changes, begin, end, state.changes[begin].key, KEY_NIBBLES)
    requires state.changes[begin].key[depth..] == n.prefix
    modifies state
    ensures state.Valid() && Grows(old(state.Staged()), state.Staged())
    ensures old(state.Safe()) && GivenNode(state.db.hash, state.db.rows, old(state.Staged()), n, t, depth)
              && Asked(t, depth, state.changes, begin, end, state.was, state.will) ==>
                && state.Safe()
                && Done(state.db.hash, state.db.rows, state.Staged(), r, t, after, depth, state.changes, begin, end)
  {
    hide Encode, Decode, Valid, Find, Anchored, Clean, Faithful, Batch.Valid, Batch.Staged, Batch.Safe, Rewritten,
      WellFormed, Asked, Part;
    ghost var h, rows := state.db.hash, state.db.rows;
    ghost var good := state.Safe() && GivenNode(h, rows, state.Staged(), n, t, depth)
                      && Asked(t, depth, state.changes, begin, end, state.was, state.will);
    var change := state.changes[begin];
    if good { LeafRewritten(t, depth, state.changes, begin, end); }
    if change.value.None? {
      AbsentAnchored(h, rows, state.Staged());
      return Some([]), Absent;
    }
    after := if good then t.(value := change.value) else Absent;
    if good {
      LeafNode(h, t, change.value);
      AfterTells(t, after, depth, state.changes, begin, end, state.was, state.will);
      SlicePart(h, state.was, state.will, after, depth, change.key);
      KidsAnchored(h, rows, state.Staged(), Parts(h, state.was, state.will), t);
    }
    r := state.StageNode(n.(value := change.value), depth, after);
  }

  lemma LeafNode(h: Hash, t: Tree, value: Option<Bytes>)
    requires t.Sub?
    ensures NodeOf(h, t).(value := value) == NodeOf(h, t.(value := value))
  {
    assert NodeOf(h, t).children == NodeOf(h, t.(value := value)).children;
  }

  lemma LeafRewritten(t: Tree, depth: nat, changes: Edits, begin: nat, end: nat)
    requires Proper(changes) && begin < end <= |changes| && t.Sub?
    requires Valid(t, depth) && depth + |t.prefix| == KEY_NIBBLES && changes[begin].key[depth..] == t.prefix
    requires SharePath(changes, begin, end, changes[begin].key, KEY_NIBBLES)
    ensures var v := changes[begin].value;
      Rewritten(t, if v.None? then Absent else t.(value := v), depth, changes[begin].key, changes, begin, end)
    ensures changes[begin].value.Some? ==> Valid(t.(value := changes[begin].value), depth)
  {
    hide Valid, Find;
    var key, v := changes[begin].key, changes[begin].value;
    TreeUpdate.LeafUpdates(t, depth, key);
    var after := if v.None? then Absent else t.(value := v);
    assert TreeUpdate.Updated(t, after, depth, key, v);
    OneChange(changes, begin, end);
    forall k: Key | k[..depth] == key[..depth]
      ensures Find(after, depth, k) == Overlay(Lookup(changes, begin, end, k), Find(t, depth, k))
    {
      SplitKey(k, key, depth);
      assert Lookup(changes, begin, begin, k) == None;
    }
  }

  lemma SplitKey(a: Key, b: Key, depth: nat)
    requires depth <= KEY_NIBBLES && a[..depth] == b[..depth]
    ensures a[depth..] == b[depth..] <==> a == b
  {
    assert a == a[..depth] + a[depth..] && b == b[..depth] + b[depth..];
  }

  /** Distinct keys that share all their nibbles: there is only one. */
  lemma OneChange(changes: Edits, begin: nat, end: nat)
    requires Distinct(changes) && begin < end <= |changes|
    requires SharePath(changes, begin, end, changes[begin].key, KEY_NIBBLES)
    ensures end == begin + 1
  {
    forall k: Key
      ensures k[..KEY_NIBBLES] == k
    {}
    assert changes[end - 1].key == changes[begin].key;
  }

  /** The whole range goes below the node. */
  method RewriteBranch(state: Batch, n: Node, depth: nat, begin: nat, end: nat, ghost t: Tree)
    returns (r: Option<Bytes>, ghost after: Tree)
    requires state.Valid() && Proper(state.changes) && begin < end <= |state.changes|
    requires ValidShape(n, depth) && depth + |n.prefix| < KEY_NIBBLES
    requires SharePath(state.changes, begin, end, state.changes[begin].key, depth + |n.prefix|)
    requires state.changes[begin].key[depth..depth + |n.prefix|] == n.prefix
    modifies state
    decreases KEY_NIBBLES - depth, 1
    ensures state.Valid() && Grows(old(state.Staged()), state.Staged())
    ensures old(state.Safe()) && GivenNode(state.db.hash, state.db.rows, old(state.Staged()), n, t, depth)
              && Asked(t, depth, state.changes, begin, end, state.was, state.will) ==>
                && state.Safe()
                && Done(state.db.hash, state.db.rows, state.Staged(), r, t, after, depth, state.changes, begin, end)
  {
    hide Encode, Decode, Valid, Find, Anchored, Clean, Faithful, Batch.Valid, Batch.Staged, Batch.Safe, Rewritten,
      Proper, Progress, WellFormed, Asked, KidsAsked, Part;
    ghost var h, rows := state.db.hash, state.db.rows;
    ghost var good := state.Safe() && GivenNode(h, rows, state.Staged(), n, t, depth)
                      && Asked(t, depth, state.changes, begin, end, state.was, state.will);
    var d := depth + |n.prefix|;
    ghost var kids0, was, will := if good then t.kids else [], state.was, state.will;
    if good {
      NodeKidsGiven(h, rows, state.Staged(), Parts(h, was, will), t, depth);
      BranchOf(t, depth);
      AskKids(t, n.prefix, kids0, depth, state.changes, begin, end, was, will);
    }
    var ok, children, kids := RewriteKids(state, n.children, begin, end, d, kids0);
    if !ok {
      return None, Absent;
    }
    after := if |kids| == BRANCHES then Join(n.prefix, kids) else Absent;
    if good {
      Joined(h, rows, state.Staged(), t, n.prefix, kids0, children, kids, depth, state.changes, begin, end, was, will);
    }
    r := FinishBatchNode(state, Node(n.prefix, None, children), depth, kids, state.changes[begin].key);
  }

  lemma BranchOf(t: Tree, depth: nat)
    requires Valid(t, depth) && depth + |t.prefix| < KEY_NIBBLES
    ensures t == Sub(t.prefix, None, t.kids)
  {}

  lemma NodeKidsGiven(h: Hash, rows: Rows, staged: StagedMap, payloads: iset<Bytes>, t: Tree, depth: nat)
    requires Valid(t, depth) && Anchored(h, rows, staged, t) && depth + |t.prefix| < KEY_NIBBLES
    requires Faithful(h, staged, payloads) && Clean(h, rows, payloads)
    ensures GivenKids(h, rows, staged, NodeOf(h, t).children, t.kids, depth + |t.prefix| + 1)
  {
    hide Anchored, Clean, Faithful;
    KidsAnchored(h, rows, staged, payloads, t);
    forall e | 0 <= e < BRANCHES
      ensures Given(h, rows, staged, NodeOf(h, t).children[e], t.kids[e], depth + |t.prefix| + 1)
    {}
  }
}
