/** Bulk construction of the canonical trie of a sorted set of entries. */
module TreeBuild {
  import opened Prelude
  import opened Uuid
  import opened TreeNode
  import opened RadixTree
  import opened ContentStore
  import opened TreeStore
  import opened SortedRange
  import opened Changes
  import NodeCodec
  import TreeClash
  import TreeUpdate

  /** Below `base`'s path the trie answers exactly like the range. */
  ghost predicate Answers(t: Tree, depth: nat, base: Key, items: seq<Entry<Bytes>>, begin: nat, end: nat)
    requires end <= |items| && depth <= KEY_NIBBLES
  {
    forall k: Key | k[..depth] == base[..depth] :: Find(t, depth, k) == Lookup(items, begin, end, k)
  }

  predicate ValuesAreDigests(items: seq<Entry<Bytes>>) {
    forall i | 0 <= i < |items| :: |items[i].value| == HASH_BYTES
  }

  /** Every node of the trie is among the prepared nodes. */
  ghost predicate Listed(h: Hash, nodes: seq<Prepared>, t: Tree) {
    t.Sub? ==>
      && |t.prefix| <= KEY_NIBBLES && AllNibbles(t.prefix)
      && Prepared(TreeKind, Encode(NodeOf(h, t)), Root(h, t)) in nodes
      && forall e | 0 <= e < |t.kids| :: Listed(h, nodes, t.kids[e])
  }

  lemma {:induction false} ListedMore(h: Hash, nodes: seq<Prepared>, more: seq<Prepared>, t: Tree)
    requires Listed(h, nodes, t)
    ensures Listed(h, nodes + more, t)
    decreases t
  {
    hide Encode;
    if t.Sub? {
      forall e | 0 <= e < |t.kids|
        ensures Listed(h, nodes + more, t.kids[e])
      {
        ListedMore(h, nodes, more, t.kids[e]);
      }
    }
  }

  /** The prepared node comes from a subtrie. */
  ghost predicate FromTree(h: Hash, item: Prepared, t: Tree) {
    exists s: Tree :: Within(s, t) && s.Sub? && |s.prefix| <= KEY_NIBBLES && AllNibbles(s.prefix)
                      && item == Prepared(TreeKind, Encode(NodeOf(h, s)), Root(h, s))
  }

  ghost predicate FromKids(h: Hash, item: Prepared, kids: seq<Tree>) {
    exists e :: 0 <= e < |kids| && FromTree(h, item, kids[e])
  }

  lemma KidToParent(h: Hash, item: Prepared, t: Tree)
    requires t.Sub? && FromKids(h, item, t.kids)
    ensures FromTree(h, item, t)
  {
    hide Encode;
    var e :| 0 <= e < |t.kids| && FromTree(h, item, t.kids[e]);
    var s: Tree :| Within(s, t.kids[e]) && s.Sub? && |s.prefix| <= KEY_NIBBLES && AllNibbles(s.prefix)
                   && item == Prepared(TreeKind, Encode(NodeOf(h, s)), Root(h, s));
    assert Within(s, t);
  }

  lemma KidReplaced(h: Hash, item: Prepared, kids: seq<Tree>, edge: nat, t: Tree)
    requires edge < |kids| && kids[edge].Absent?
    requires FromKids(h, item, kids) || FromTree(h, item, t)
    ensures FromKids(h, item, kids[edge := t])
  {
    hide Encode;
    var kids' := kids[edge := t];
    if FromTree(h, item, t) {
      assert FromTree(h, item, kids'[edge]);
    } else {
      var e :| 0 <= e < |kids| && FromTree(h, item, kids[e]);
      assert e != edge;
      assert FromTree(h, item, kids'[e]);
    }
  }

  /** The loop state: children built for the part of the range already passed. */
  ghost predicate Partial(h: Hash, nodes: seq<Prepared>, children: ChildArray, kids: seq<Tree>, d: nat,
                          items: seq<Entry<Bytes>>, begin: nat, cursor: nat, end: nat)
    requires begin <= cursor <= end <= |items| && d < KEY_NIBBLES && begin < end
  {
    && |kids| == BRANCHES
    && (forall e | 0 <= e < BRANCHES ::
        ValidEdge(kids[e], d + 1) && Listed(h, nodes, kids[e])
        && children[e] == Root(h, kids[e]))
    && (forall k: Key | k[..d] == items[begin].key[..d] ::
        Find(kids[k[d]], d + 1, k) == Lookup(items, begin, cursor, k))
    && (cursor < end ==> forall e | items[cursor].key[d] <= e < BRANCHES :: kids[e] == Absent)
  }

  method BuildRange(h: Hash, items: seq<Entry<Bytes>>, begin: nat, end: nat, depth: nat, nodes: seq<Prepared>)
    returns (r: Option<Bytes>, more: seq<Prepared>, ghost t: Tree)
    requires begin < end <= |items| && Sorted(items) && ValuesAreDigests(items) && depth <= KEY_NIBBLES
    requires SharePath(items, begin, end, items[begin].key, depth)
    requires forall i | 0 <= i < |nodes| :: Honest(h, nodes[i]) && nodes[i].kind == TreeKind
    decreases KEY_NIBBLES - depth
    ensures nodes <= more && forall i | 0 <= i < |more| :: Honest(h, more[i]) && more[i].kind == TreeKind
    ensures forall i | |nodes| <= i < |more| :: WellFormed(more[i].payload)
    ensures r.Some? ==> Valid(t, depth) && Root(h, t) == r.value && Listed(h, more, t)
    ensures r.Some? ==> Answers(t, depth, items[begin].key, items, begin, end)
    ensures r.Some? ==> forall i | |nodes| <= i < |more| :: FromTree(h, more[i], t)
    ensures r.None? ==> !Distinct(items)
  {
    hide Valid, Find, Listed, Encode, Answers, Partial, FromTree, FromKids, WellFormed;
    var node: Node;
    ghost var kids := NoKids();
    if end - begin == 1 {
      node := Node(items[begin].key[depth..], Some(items[begin].value), NO_CHILDREN);
      t := Leaf(items[begin].key, depth, items[begin].value);
      more := nodes;
      LeafAnswers(items, begin, depth);
      LeafListed(h, nodes, items[begin].key, depth, items[begin].value);
    } else {
      var first, last := items[begin].key, items[end - 1].key;
      var common := 0;
      assert items[end - 1].key[..depth] == first[..depth];
      while depth + common < KEY_NIBBLES && first[depth + common] == last[depth + common]
        invariant depth + common <= KEY_NIBBLES && first[..depth + common] == last[..depth + common]
      {
        assert first[..depth + common + 1] == first[..depth + common] + [first[depth + common]];
        assert last[..depth + common + 1] == last[..depth + common] + [last[depth + common]];
        common := common + 1;
      }
      if depth + common >= KEY_NIBBLES {
        assert first == first[..KEY_NIBBLES] == last[..KEY_NIBBLES] == last;
        return None, nodes, Absent;
      }
      var d := depth + common;
      EndsDecidePath(items, begin, end, d);
      var children: ChildArray;
      var ok;
      ok, children, more, kids := BuildChildren(h, items, begin, end, d, nodes);
      if !ok {
        return None, more, Absent;
      }
      node := Node(first[depth..d], None, children);
      t := Sub(first[depth..d], None, kids);
      BranchAnswers(h, more, children, kids, items, begin, end, depth, d);
      PartialListed(h, more, children, kids, items, begin, end, depth, d);
    }
    forall i | |nodes| <= i < |more|
      ensures FromTree(h, more[i], t)
    {
      KidToParent(h, more[i], t);
    }
    var hash;
    hash, more := AppendNode(h, node, depth, more, t);
    r := Some(hash);
  }

  /** Encode and hash a finished node and add it to the batch. */
  method AppendNode(h: Hash, node: Node, depth: nat, nodes: seq<Prepared>, ghost t: Tree)
    returns (hash: Bytes, more: seq<Prepared>)
    requires Valid(t, depth) && node == NodeOf(h, t) && forall e | 0 <= e < |t.kids| :: Listed(h, nodes, t.kids[e])
    ensures hash == Root(h, t) && more == nodes + [Prepared(TreeKind, Encode(node), hash)] && Listed(h, more, t)
    ensures hash == h(TreeKind, Encode(node)) && FromTree(h, more[|nodes|], t) && WellFormed(Encode(node))
  {
    hide Encode, Listed;
    assert Within(t, t);
    NodeOfShape(h, t, depth);
    assert Encodes(Encode(node), node, depth);
    var payload := NodeCodec.EncodeNode(node);
    hash := h(TreeKind, payload);
    more := nodes + [Prepared(TreeKind, payload, hash)];
    NowListed(h, nodes, t);
  }

  lemma LeafListed(h: Hash, nodes: seq<Prepared>, key: Key, depth: nat, value: Bytes)
    requires depth <= KEY_NIBBLES
    ensures var t := Leaf(key, depth, value);
      && NodeOf(h, t) == Node(key[depth..], Some(value), NO_CHILDREN)
      && forall e | 0 <= e < |t.kids| :: Listed(h, nodes, t.kids[e])
  {
    assert NodeOf(h, Leaf(key, depth, value)).children == NO_CHILDREN;
  }

  lemma PartialListed(h: Hash, nodes: seq<Prepared>, children: ChildArray, kids: seq<Tree>, items: seq<Entry<Bytes>>,
                      begin: nat, end: nat, depth: nat, d: nat)
    requires begin < end <= |items| && depth <= d < KEY_NIBBLES
    requires Partial(h, nodes, children, kids, d, items, begin, end, end)
    ensures var t := Sub(items[begin].key[depth..d], None, kids);
      && NodeOf(h, t) == Node(items[begin].key[depth..d], None, children)
      && forall e | 0 <= e < |t.kids| :: Listed(h, nodes, t.kids[e])
  {
    hide Encode, Listed;
    assert NodeOf(h, Sub(items[begin].key[depth..d], None, kids)).children == children;
  }

  /** One child per run of entries that share the next nibble. */
  method BuildChildren(h: Hash, items: seq<Entry<Bytes>>, begin: nat, end: nat, d: nat, nodes: seq<Prepared>)
    returns (ok: bool, children: ChildArray, more: seq<Prepared>, ghost kids: seq<Tree>)
    requires begin < end <= |items| && Sorted(items) && ValuesAreDigests(items) && d < KEY_NIBBLES
    requires SharePath(items, begin, end, items[begin].key, d)
    requires forall i | 0 <= i < |nodes| :: Honest(h, nodes[i]) && nodes[i].kind == TreeKind
    decreases KEY_NIBBLES - d, 0
    ensures nodes <= more && forall i | 0 <= i < |more| :: Honest(h, more[i]) && more[i].kind == TreeKind
    ensures forall i | |nodes| <= i < |more| :: WellFormed(more[i].payload)
    ensures ok ==> Partial(h, more, children, kids, d, items, begin, end, end)
    ensures ok ==> forall i | |nodes| <= i < |more| :: FromKids(h, more[i], kids)
    ensures !ok ==> !Distinct(items)
  {
    hide Valid, Find, Listed, Encode, Answers, Partial, FromTree, FromKids, WellFormed;
    children, more, kids := NO_CHILDREN, nodes, NoKids();
    StartPartial(h, nodes, d, items, begin, end);
    var cursor := begin;
    while cursor < end
      invariant begin <= cursor <= end
      invariant nodes <= more && forall i | 0 <= i < |more| :: Honest(h, more[i]) && more[i].kind == TreeKind
      invariant forall i | |nodes| <= i < |more| :: WellFormed(more[i].payload)
      invariant |kids| == BRANCHES && Partial(h, more, children, kids, d, items, begin, cursor, end)
      invariant forall i | |nodes| <= i < |more| :: FromKids(h, more[i], kids)
    {
      var edge := items[cursor].key[d];
      var next := RunEnd(items, cursor, end, d);
      RunShares(items, begin, cursor, next, end, d);
      var child, nodes', t := BuildRange(h, items, cursor, next, d + 1, more);
      if child.None? {
        return false, children, nodes', kids;
      }
      AdvancePartial(h, more, nodes', children, kids, d, items, begin, cursor, next, end, t);
      assert kids[edge] == Absent by { EdgeFree(h, more, children, kids, d, items, begin, cursor, end); }
      forall i | |nodes| <= i < |nodes'|
        ensures FromKids(h, nodes'[i], kids[edge := t])
      {
        KidReplaced(h, nodes'[i], kids, edge, t);
      }
      children, kids, more := children[edge := child.value], kids[edge := t], nodes';
      cursor := next;
    }
    ok := true;
  }

  lemma RunShares<V>(items: seq<Entry<V>>, begin: nat, cursor: nat, next: nat, end: nat, d: nat)
    requires begin <= cursor < next <= end <= |items| && d < KEY_NIBBLES
    requires SharePath(items, begin, end, items[begin].key, d)
    requires forall i | cursor <= i < next :: items[i].key[d] == items[cursor].key[d]
    ensures SharePath(items, cursor, next, items[cursor].key, d + 1)
  {
    forall i | cursor <= i < next
      ensures items[i].key[..d + 1] == items[cursor].key[..d + 1]
    {
      assert items[i].key[..d + 1] == items[i].key[..d] + [items[i].key[d]];
      assert items[cursor].key[..d + 1] == items[cursor].key[..d] + [items[cursor].key[d]];
    }
  }

  lemma LeafAnswers(items: seq<Entry<Bytes>>, i: nat, depth: nat)
    requires i < |items| && depth <= KEY_NIBBLES && ValuesAreDigests(items)
    ensures Valid(Leaf(items[i].key, depth, items[i].value), depth)
    ensures Answers(Leaf(items[i].key, depth, items[i].value), depth, items[i].key, items, i, i + 1)
  {
    LeafValid(items[i].key, depth, items[i].value);
    forall k: Key | k[..depth] == items[i].key[..depth]
      ensures Find(Leaf(items[i].key, depth, items[i].value), depth, k) == Lookup(items, i, i + 1, k)
    {
      LeafFind(items[i].key, depth, items[i].value, k);
      assert k == k[..depth] + k[depth..] && items[i].key == items[i].key[..depth] + items[i].key[depth..];
    }
  }

  lemma StartPartial(h: Hash, nodes: seq<Prepared>, d: nat, items: seq<Entry<Bytes>>, begin: nat, end: nat)
    requires begin < end <= |items| && d < KEY_NIBBLES
    ensures Partial(h, nodes, NO_CHILDREN, NoKids(), d, items, begin, begin, end)
  {}

  lemma AdvancePartial(h: Hash, nodes: seq<Prepared>, more: seq<Prepared>, children: ChildArray, kids: seq<Tree>,
                       d: nat,
                       items: seq<Entry<Bytes>>, begin: nat, cursor: nat, next: nat, end: nat, t: Tree)
    requires begin <= cursor < next <= end <= |items| && d < KEY_NIBBLES && Sorted(items)
    requires SharePath(items, begin, end, items[begin].key, d)
    requires forall i | cursor <= i < next :: items[i].key[d] == items[cursor].key[d]
    requires next < end ==> items[next].key[d] != items[cursor].key[d]
    requires nodes <= more && Partial(h, nodes, children, kids, d, items, begin, cursor, end)
    requires Valid(t, d + 1) && Listed(h, more, t) && Answers(t, d + 1, items[cursor].key, items, cursor, next)
    ensures var edge := items[cursor].key[d];
      && |Root(h, t)| == HASH_BYTES
      && Partial(h, more, children[edge := Root(h, t)], kids[edge := t], d, items, begin, next, end)
  {
    hide Listed, Encode, Valid, Find, Lookup;
    var edge := items[cursor].key[d];
    var kids' := kids[edge := t];
    NodeOfShape(h, t, d + 1);
    forall e | 0 <= e < BRANCHES
      ensures Listed(h, more, kids'[e])
    {
      if e != edge {
        ListedMore(h, nodes, more[|nodes|..], kids[e]);
        assert nodes + more[|nodes|..] == more;
      }
    }
    forall k: Key | k[..d] == items[begin].key[..d]
      ensures Find(kids'[k[d]], d + 1, k) == Lookup(items, begin, next, k)
    {
      AdvanceLookup(h, nodes, children, kids, d, items, begin, cursor, next, end, t, k);
    }
    if next < end {
      EdgesAscend(items, begin, end, items[begin].key, d, cursor, next);
    }
  }

  /** The subtree of the new run answers for the keys of its edge. */
  lemma AdvanceLookup(h: Hash, nodes: seq<Prepared>, children: ChildArray, kids: seq<Tree>, d: nat,
                      items: seq<Entry<Bytes>>,
                      begin: nat, cursor: nat, next: nat, end: nat, t: Tree, k: Key)
    requires begin <= cursor < next <= end <= |items| && d < KEY_NIBBLES
    requires SharePath(items, begin, end, items[begin].key, d) && k[..d] == items[begin].key[..d]
    requires forall i | cursor <= i < next :: items[i].key[d] == items[cursor].key[d]
    requires Partial(h, nodes, children, kids, d, items, begin, cursor, end)
    requires Answers(t, d + 1, items[cursor].key, items, cursor, next)
    ensures Find(kids[items[cursor].key[d] := t][k[d]], d + 1, k) == Lookup(items, begin, next, k)
  {
    hide Listed, Encode, Valid, Find, Sorted, Lookup;
    var edge := items[cursor].key[d];
    LookupSplit(items, begin, cursor, next, k);
    assert Find(kids[k[d]], d + 1, k) == Lookup(items, begin, cursor, k);
    if k[d] == edge {
      assert k[..d + 1] == k[..d] + [edge] && items[cursor].key[..d + 1] == items[cursor].key[..d] + [edge];
      AbsentFind(d + 1);
    } else {
      LookupOut(items, cursor, next, k);
    }
  }

  lemma EdgeFree(h: Hash, nodes: seq<Prepared>, children: ChildArray, kids: seq<Tree>, d: nat, items: seq<Entry<Bytes>>,
                 begin: nat, cursor: nat, end: nat)
    requires begin <= cursor < end <= |items| && d < KEY_NIBBLES
    requires |kids| == BRANCHES && Partial(h, nodes, children, kids, d, items, begin, cursor, end)
    ensures kids[items[cursor].key[d]] == Absent
  {}

  lemma BranchAnswers(h: Hash, nodes: seq<Prepared>, children: ChildArray, kids: seq<Tree>, items: seq<Entry<Bytes>>,
                      begin: nat, end: nat, depth: nat, d: nat)
    requires begin + 1 < end <= |items| && depth <= d < KEY_NIBBLES && Sorted(items)
    requires SharePath(items, begin, end, items[begin].key, d)
    requires items[begin].key[d] != items[end - 1].key[d]
    requires Partial(h, nodes, children, kids, d, items, begin, end, end)
    ensures var t := Sub(items[begin].key[depth..d], None, kids);
      Valid(t, depth) && Answers(t, depth, items[begin].key, items, begin, end)
  {
    hide Listed, Encode, Find, Lookup;
    var first, last := items[begin].key, items[end - 1].key;
    var t := Sub(first[depth..d], None, kids);
    KidOccupied(h, nodes, children, kids, d, items, begin, end, begin);
    KidOccupied(h, nodes, children, kids, d, items, begin, end, end - 1);
    var a, b := first[d], last[d];
    CountTwo(Occupied(kids), if a < b then a else b, if a < b then b else a);
    forall k: Key | k[..depth] == first[..depth]
      ensures Find(t, depth, k) == Lookup(items, begin, end, k)
    {
      BranchLookup(h, nodes, children, kids, items, begin, end, depth, d, k);
    }
  }

  /** A finished branch answers for every key that reaches it. */
  lemma BranchLookup(h: Hash, nodes: seq<Prepared>, children: ChildArray, kids: seq<Tree>, items: seq<Entry<Bytes>>,
                     begin: nat, end: nat, depth: nat, d: nat, k: Key)
    requires begin < end <= |items| && depth <= d < KEY_NIBBLES
    requires SharePath(items, begin, end, items[begin].key, d) && k[..depth] == items[begin].key[..depth]
    requires Partial(h, nodes, children, kids, d, items, begin, end, end)
    ensures Find(Sub(items[begin].key[depth..d], None, kids), depth, k) == Lookup(items, begin, end, k)
  {
    hide Listed, Encode, Sorted, Lookup;
    var first := items[begin].key;
    assert k[..d] == k[..depth] + k[depth..d] && first[..d] == first[..depth] + first[depth..d];
    if k[depth..d] != first[depth..d] {
      LookupOut(items, begin, end, k) by { OffPath(items, begin, end, depth, d, k); }
    } else {
      assert Find(kids[k[d]], d + 1, k) == Lookup(items, begin, end, k);
    }
  }

  lemma OffPath<V>(items: seq<Entry<V>>, begin: nat, end: nat, depth: nat, d: nat, k: Key)
    requires begin < end <= |items| && depth <= d < KEY_NIBBLES
    requires SharePath(items, begin, end, items[begin].key, d)
    requires k[depth..d] != items[begin].key[depth..d]
    ensures forall i | begin <= i < end :: items[i].key != k
  {
    forall i | begin <= i < end
      ensures items[i].key != k
    {
      assert items[i].key[depth..d] == items[i].key[..d][depth..]
        && items[begin].key[depth..d] == items[begin].key[..d][depth..];
    }
  }

  lemma KidOccupied(h: Hash, nodes: seq<Prepared>, children: ChildArray, kids: seq<Tree>, d: nat,
                    items: seq<Entry<Bytes>>,
                    begin: nat, end: nat, i: nat)
    requires begin <= i < end <= |items| && d < KEY_NIBBLES && SharePath(items, begin, end, items[begin].key, d)
    requires Partial(h, nodes, children, kids, d, items, begin, end, end)
    ensures kids[items[i].key[d]].Sub?
  {
    hide Listed, Encode;
    LookupFinds(items, begin, end, i);
    var k := items[i].key;
    assert Find(kids[k[d]], d + 1, k) == Lookup(items, begin, end, k);
  }

  lemma {:induction false} LookupFinds<V>(items: seq<Entry<V>>, begin: nat, end: nat, i: nat)
    requires begin <= i < end <= |items|
    ensures Lookup(items, begin, end, items[i].key).Some?
    decreases end
  {
    if i < end - 1 && items[end - 1].key != items[i].key { LookupFinds(items, begin, end - 1, i); }
  }

  lemma NowListed(h: Hash, nodes: seq<Prepared>, t: Tree)
    requires t.Sub? && |t.prefix| <= KEY_NIBBLES && AllNibbles(t.prefix)
    requires forall e | 0 <= e < |t.kids| :: Listed(h, nodes, t.kids[e])
    ensures Listed(h, nodes + [Prepared(TreeKind, Encode(NodeOf(h, t)), Root(h, t))], t)
  {
    hide Encode;
    var item := Prepared(TreeKind, Encode(NodeOf(h, t)), Root(h, t));
    forall e | 0 <= e < |t.kids|
      ensures Listed(h, nodes + [item], t.kids[e])
    {
      ListedMore(h, nodes, [item], t.kids[e]);
    }
  }

  // ------------------------------------------------------------------ bulk build

  lemma {:induction false} HeldWhenListed(h: Hash, rows: Rows, nodes: seq<Prepared>, t: Tree)
    requires Listed(h, nodes, t)
    requires forall i | 0 <= i < |nodes| :: Get(rows, nodes[i].sha256) == Some(Row(TreeKind, nodes[i].payload))
    ensures Held(h, rows, t)
    decreases t
  {
    hide Encode;
    if t.Sub? {
      var i :| 0 <= i < |nodes| && nodes[i] == Prepared(TreeKind, Encode(NodeOf(h, t)), Root(h, t));
      forall e | 0 <= e < |t.kids|
        ensures Held(h, rows, t.kids[e])
      {
        HeldWhenListed(h, rows, nodes, t.kids[e]);
      }
    }
  }

  /** What a refused batch insert says about the trie its nodes came from. */
  lemma RefusedBatch(h: Hash, rows: Rows, nodes: seq<Prepared>, t: Tree)
    requires Valid(t, 0) && forall i | 0 <= i < |nodes| :: FromTree(h, nodes[i], t)
    requires !NoClash(nodes) || exists i :: 0 <= i < |nodes| && !Storable(h, rows, TreeKind, nodes[i].payload)
    ensures Conflicts(h, rows, t) || SelfClash(h, t)
  {
    hide Encode, Storable, Root, Valid, Conflicts;
    if !NoClash(nodes) {
      var i, j :| 0 <= i < j < |nodes| && nodes[i].sha256 == nodes[j].sha256 && nodes[i].payload != nodes[j].payload;
      assert FromTree(h, nodes[i], t) && FromTree(h, nodes[j], t);
    } else {
      var i :| 0 <= i < |nodes| && !Storable(h, rows, TreeKind, nodes[i].payload);
      assert FromTree(h, nodes[i], t);
      var s: Tree :| Within(s, t) && s.Sub? && |s.prefix| <= KEY_NIBBLES && AllNibbles(s.prefix)
                     && nodes[i] == Prepared(TreeKind, Encode(NodeOf(h, s)), Root(h, s));
      WithinConflicts(h, rows, s, t, 0);
    }
  }

  /** Every change is a put of a well-sized digest. */
  predicate AllPuts(contents: seq<Change>) {
    forall i | 0 <= i < |contents| :: contents[i].blob.Some? && |contents[i].blob.value| == HASH_BYTES
  }

  predicate BlobsStored(h: Hash, rows: Rows, contents: seq<Change>)
    requires AllPuts(contents)
  {
    forall i | 0 <= i < |contents| :: Fetch(h, rows, Blob, contents[i].blob.value).Some?
  }

  function PutEntries(contents: seq<Change>): (entries: seq<Entry<Bytes>>)
    requires AllPuts(contents)
    ensures |entries| == |contents|
  {
    seq(|contents|, i requires 0 <= i < |contents| => Entry(Unpack(contents[i].key), contents[i].blob.value))
  }

  lemma PutsDistinct(contents: seq<Change>)
    requires AllPuts(contents)
    ensures DistinctKeys(contents) <==> Distinct(PutEntries(contents))
  {
    var entries := PutEntries(contents);
    forall i, j | 0 <= i < j < |contents|
      ensures contents[i].key == contents[j].key <==> entries[i].key == entries[j].key
    {
      if entries[i].key == entries[j].key { UnpackInjective(contents[i].key, contents[j].key); }
    }
  }

  lemma {:induction false} PutsWritten(contents: seq<Change>, k: Key)
    requires AllPuts(contents)
    ensures Lookup(PutEntries(contents), 0, |contents|, k) == Get(WriteAll(map[], contents), k)
  {
    if contents != [] {
      var last := |contents| - 1;
      PutsWritten(contents[..last], k);
      LookupPrefix(PutEntries(contents), PutEntries(contents[..last]), last, k);
    }
  }

  /** The digests of a batch of puts; anything else in the batch is refused. */
  method BlobHashes(contents: seq<Change>) returns (ok: bool, hashes: seq<Bytes>)
    ensures ok <==> AllPuts(contents)
    ensures ok ==> |hashes| == |contents| && forall i | 0 <= i < |contents| :: hashes[i] == contents[i].blob.value
  {
    hashes := [];
    for i := 0 to |contents|
      invariant |hashes| == i
      invariant forall j | 0 <= j < i :: contents[j].blob == Some(hashes[j]) && |hashes[j]| == HASH_BYTES
    {
      var blob := contents[i].blob;
      if blob.None? || |blob.value| != HASH_BYTES {
        return false, hashes;
      }
      hashes := hashes + [blob.value];
    }
    ok := true;
  }

  /** The canonical root of a complete set of entries; no assumption on the hash is needed. */
  method Build(db: Store, contents: seq<Change>, blobsAlreadyVerified: bool) returns (r: Option<Bytes>)
    modifies db
    ensures Extends(old(db.rows), db.rows)
    ensures r.Some? <==>
              && AllPuts(contents) && DistinctKeys(contents)
              && (blobsAlreadyVerified || BlobsStored(db.hash, old(db.rows), contents))
              && !TreeClash.Clashes(db.hash, old(db.rows), WriteAll(map[], contents))
    ensures r.Some? ==> DenotesMap(db.hash, db.rows, r.value, WriteAll(map[], contents))
  {
    hide Load, Valid, Find, Encode, Listed, Conflicts, SelfClash, FromTree, Denotes, Lookup, Fetch;
    if contents == [] {
      r := TreeUpdate.EmptyRoot(db);
      EmptyDenotes(db.hash, old(db.rows), db.rows);
      BuiltClean(db.hash, old(db.rows), db.rows, r, WriteAll(map[], contents));
      return;
    }
    var ok, hashes := BlobHashes(contents);
    if !ok {
      return None;
    }
    var entries := SortByKey(PutEntries(contents));
    SortedLookups(PutEntries(contents));
    PutsDistinct(contents);
    var distinct := AdjacentDistinct(entries);
    if !distinct {
      return None;
    }
    if !blobsAlreadyVerified {
      var found := db.GetMany(Blob, hashes);
      assert found.Some? <==> BlobsStored(db.hash, db.rows, contents);
      if found.None? {
        return None;
      }
    }
    ValuesKept(contents);
    r := BuildSorted(db, entries, contents);
    BuiltClean(db.hash, old(db.rows), db.rows, r, WriteAll(map[], contents));
  }

  lemma BuiltClean(h: Hash, before: Rows, after: Rows, r: Option<Bytes>, m: map<Key, Bytes>)
    requires Extends(before, after) && (r.Some? ==> DenotesMap(h, after, r.value, m))
    ensures r.Some? ==> !TreeClash.Clashes(h, before, m)
  {
    hide DenotesMap, TreeClash.Clashes;
    if r.Some? && TreeClash.Clashes(h, before, m) { TreeClash.ClashBlocks(h, before, after, r.value, m); }
  }

  /** Construct all nodes in memory, then insert them as one batch. */
  method BuildSorted(db: Store, entries: seq<Entry<Bytes>>, ghost contents: seq<Change>) returns (r: Option<Bytes>)
    requires AllPuts(contents) && DistinctKeys(contents) && contents != []
    requires entries == SortByKey(PutEntries(contents)) && |entries| == |contents|
    requires Sorted(entries) && Distinct(entries) && ValuesAreDigests(entries)
    modifies db
    ensures Extends(old(db.rows), db.rows)
    ensures r.Some? ==> DenotesMap(db.hash, db.rows, r.value, WriteAll(map[], contents))
    ensures r.None? ==> TreeClash.Clashes(db.hash, old(db.rows), WriteAll(map[], contents))
  {
    hide Load, Valid, Find, Encode, Listed, Conflicts, SelfClash, FromTree, Denotes, Lookup, Sorted, SortByKey;
    var root, nodes, t := BuildRange(db.hash, entries, 0, |entries|, 0, []);
    BuiltDenotes(contents, t);
    var stored := db.PutManyPrepared(TreeKind, nodes);
    if stored.None? {
      RefusedBatch(db.hash, old(db.rows), nodes, t);
      return None;
    }
    forall i | 0 <= i < |nodes|
      ensures Get(db.rows, nodes[i].sha256) == Some(Row(TreeKind, nodes[i].payload))
    {
      RowsOfAll(TreeKind, nodes, i);
    }
    HeldWhenListed(db.hash, db.rows, nodes, t);
    LoadHeld(db.hash, db.rows, t, 0);
    return root;
  }

  lemma EmptyDenotes(h: Hash, before: Rows, after: Rows)
    requires Extends(before, after)
    ensures Valid(EmptyTree(), 0) && Denotes(EmptyTree(), WriteAll(map[], []))
    ensures before == after && Conflicts(h, after, EmptyTree()) ==> Conflicts(h, before, EmptyTree())
  {
    EmptyTreeValid();
  }

  /** The duplicate scan over sorted neighbours. */
  method AdjacentDistinct<V>(entries: seq<Entry<V>>) returns (distinct: bool)
    requires Sorted(entries)
    ensures distinct <==> Distinct(entries)
  {
    var i := 1;
    while i < |entries|
      invariant 1 <= i && forall p, q | 0 <= p < q < i && q < |entries| :: entries[p].key != entries[q].key
    {
      if entries[i - 1].key == entries[i].key {
        return false;
      }
      forall p | 0 <= p < i
        ensures entries[p].key != entries[i].key
      {
        if entries[p].key == entries[i].key {
          Squeeze(entries[p].key, entries[i - 1].key);
        }
      }
      i := i + 1;
    }
    return true;
  }

  lemma Squeeze(a: Key, b: Key)
    requires !Less(b, a) && !Less(a, b)
    ensures a == b
  {
    LessTotal(a, b);
  }

  lemma ValuesKept(contents: seq<Change>)
    requires AllPuts(contents)
    ensures ValuesAreDigests(SortByKey(PutEntries(contents)))
  {
    var sorted := SortByKey(PutEntries(contents));
    SortedLookups(PutEntries(contents));
    forall i | 0 <= i < |sorted|
      ensures |sorted[i].value| == HASH_BYTES
    {
      var e := sorted[i];
      assert e in sorted;
      assert e in PutEntries(contents);
      var j :| 0 <= j < |contents| && PutEntries(contents)[j] == e;
    }
  }

  lemma BuiltDenotes(contents: seq<Change>, t: Tree)
    requires AllPuts(contents) && DistinctKeys(contents) && contents != []
    requires var sorted := SortByKey(PutEntries(contents));
      |sorted| == |contents| && Answers(t, 0, sorted[0].key, sorted, 0, |sorted|)
    ensures Denotes(t, WriteAll(map[], contents))
  {
    var sorted := SortByKey(PutEntries(contents));
    PutsDistinct(contents);
    SortedLookups(PutEntries(contents));
    forall k: Key
      ensures Find(t, 0, k) == Get(WriteAll(map[], contents), k)
    {
      assert k[..0] == sorted[0].key[..0];
      PutsWritten(contents, k);
    }
  }
}
