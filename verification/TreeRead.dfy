/** Point reads and batched reads. */
module TreeRead {
  import opened Prelude
  import opened Uuid
  import opened TreeNode
  import opened RadixTree
  import opened ContentStore
  import opened TreeStore
  import opened Changes
  import opened SortedRange
  import NodeCodec
  import TreeUpdate

  /** A read finds a value, finds that there is none, or runs into damage. */
  datatype ReadResult = Found(value: Bytes) | Missing | Damaged

  function AsResult(v: Option<Bytes>): ReadResult {
    if v.Some? then Found(v.value) else Missing
  }

  /** One step of a descent that starts on a sound node. */
  lemma Descend(h: Hash, rows: Rows, digest: Bytes, depth: nat, key: Key)
    requires depth <= KEY_NIBBLES && digest != [] && Load(h, rows, digest, depth).Some?
    ensures ReadNode(h, rows, digest, depth).Some?
    ensures var n, t := ReadNode(h, rows, digest, depth).value, Load(h, rows, digest, depth).value;
      var d := depth + |n.prefix|;
      && d <= KEY_NIBBLES
      && (key[depth..d] != n.prefix ==> Find(t, depth, key) == None)
      && (key[depth..d] == n.prefix && d == KEY_NIBBLES ==> Find(t, depth, key) == n.value)
      && (key[depth..d] == n.prefix && d < KEY_NIBBLES ==>
            && Load(h, rows, n.children[key[d]], d + 1).Some?
            && Find(t, depth, key) == Find(Load(h, rows, n.children[key[d]], d + 1).value, d + 1, key))
      && (n.value.Some? <==> d == KEY_NIBBLES)
  {
    hide Encode, Decode, Load;
    LoadKids(h, rows, digest, depth);
    LoadValid(h, rows, digest, depth);
    TreeUpdate.FindBelow(Load(h, rows, digest, depth).value, depth, key);
  }

  /** A lookup walks one path; on a sound tree it answers what the tree denotes. */
  method LookupKey(db: Store, root: Bytes, uuid: Uuid) returns (r: ReadResult)
    ensures forall m | DenotesMap(db.hash, db.rows, root, m) :: r == AsResult(Get(m, Unpack(uuid)))
  {
    hide Load, Encode, Decode, Find, Denotes;
    var key := UnpackKey(uuid);
    var current, depth := root, 0;
    ghost var sound := root != [] && Load(db.hash, db.rows, root, 0).Some?;
    ghost var answer := if sound then Find(Load(db.hash, db.rows, root, 0).value, 0, Unpack(uuid)) else None;
    forall m | DenotesMap(db.hash, db.rows, root, m)
      ensures answer == Get(m, Unpack(uuid))
    {
      TreeUpdate.DenotesAt(Load(db.hash, db.rows, root, 0).value, m, Unpack(uuid));
    }
    while true
      invariant depth <= KEY_NIBBLES
      invariant sound ==>
        && current != [] && Load(db.hash, db.rows, current, depth).Some?
        && Find(Load(db.hash, db.rows, current, depth).value, depth, key) == answer
      decreases KEY_NIBBLES - depth
    {
      var node := ReadTreeNode(db, current, depth);
      if sound { Descend(db.hash, db.rows, current, depth, key); }
      if node.None? {
        return Damaged;
      }
      var n := node.value;
      var common := TreeUpdate.CommonPrefix(key, depth, n.prefix);
      if common != |n.prefix| {
        TreeUpdate.PrefixDiffers(key, depth, n.prefix, common);
        return Missing;
      }
      assert n.prefix[..common] == n.prefix;
      depth := depth + |n.prefix|;
      if depth == KEY_NIBBLES {
        return AsResult(n.value);
      }
      var count := NodeCodec.ChildrenCount(n);
      var edge := key[depth];
      if count == 0 {
        CountNone(Present(n.children));
        assert !Present(n.children)[edge];
        NullLoads(db.hash, db.rows, depth + 1);
        AbsentFind(depth + 1);
        return Missing;
      }
      if n.children[edge] == [] {
        NullLoads(db.hash, db.rows, depth + 1);
        AbsentFind(depth + 1);
        return Missing;
      }
      depth := depth + 1;
      current := n.children[edge];
    }
  }

  // ------------------------------------------------------------- batched lookup

  /** A subtree still to be read, and the range of requested keys it may hold. */
  datatype Pending = Pending(digest: Bytes, begin: nat, end: nat, depth: nat)

  predicate InRange(p: Pending, keys: seq<Entry<Uuid>>) {
    p.begin <= p.end <= |keys| && p.depth <= KEY_NIBBLES
  }

  /** The subtree answers for the keys of its range what the whole trie `t` answers. */
  ghost predicate Speaks(h: Hash, rows: Rows, t: Tree, keys: seq<Entry<Uuid>>, p: Pending)
    requires InRange(p, keys)
  {
    && p.digest != [] && Load(h, rows, p.digest, p.depth).Some?
    && forall i | p.begin <= i < p.end ::
         Find(Load(h, rows, p.digest, p.depth).value, p.depth, keys[i].key) == Find(t, 0, keys[i].key)
  }

  /** Every value collected so far is the trie's. */
  ghost predicate Correct(t: Tree, result: map<Uuid, Bytes>) {
    forall u | u in result :: Find(t, 0, Unpack(u)) == Some(result[u])
  }

  /** A key the trie holds is already collected or still pending somewhere. */
  predicate Covered(keys: seq<Entry<Uuid>>, result: map<Uuid, Bytes>, work: seq<Pending>, i: nat)
    requires i < |keys|
  {
    keys[i].value in result || exists j :: 0 <= j < |work| && work[j].begin <= i < work[j].end
  }

  /** A compressed leaf holds one key; other keys of the range are absent. */
  method CollectLeaf(keys: seq<Entry<Uuid>>, item: Pending, n: Node, before: map<Uuid, Bytes>,
                     ghost h: Hash, ghost rows: Rows, ghost t: Tree, ghost sound: bool)
    returns (result: map<Uuid, Bytes>)
    requires InRange(item, keys) && forall i | 0 <= i < |keys| :: keys[i].key == Unpack(keys[i].value)
    requires ValidShape(n, item.depth) && n.value.Some?
    requires sound ==>
               Speaks(h, rows, t, keys, item) && ReadNode(h, rows, item.digest, item.depth) == Some(n)
               && Correct(t, before)
    ensures before.Keys <= result.Keys && result.Keys <= before.Keys + set i | item.begin <= i < item.end ::
              keys[i].value
    ensures sound ==> Correct(t, result)
    ensures sound ==> forall i | item.begin <= i < item.end && Find(t, 0, keys[i].key).Some? :: keys[i].value in result
  {
    hide Load, Find, Encode, Decode;
    result := before;
    for i := item.begin to item.end
      invariant before.Keys <= result.Keys && result.Keys <= before.Keys + set j | item.begin <= j < i :: keys[j].value
      invariant sound ==> Correct(t, result)
      invariant sound ==> forall j | item.begin <= j < i && Find(t, 0, keys[j].key).Some? :: keys[j].value in result
    {
      if sound { Descend(h, rows, item.digest, item.depth, keys[i].key); }
      var common := TreeUpdate.CommonPrefix(keys[i].key, item.depth, n.prefix);
      assert n.prefix[..|n.prefix|] == n.prefix;
      if common == |n.prefix| {
        result := result[keys[i].value := n.value.value];
      } else {
        TreeUpdate.PrefixDiffers(keys[i].key, item.depth, n.prefix, common);
      }
    }
  }

  method Matches(key: Key, depth: nat, prefix: Bytes) returns (yes: bool)
    requires depth + |prefix| <= KEY_NIBBLES
    ensures yes <==> key[depth..depth + |prefix|] == prefix
  {
    var common := TreeUpdate.CommonPrefix(key, depth, prefix);
    assert prefix[..|prefix|] == prefix;
    if common < |prefix| { TreeUpdate.PrefixDiffers(key, depth, prefix, common); }
    return common == |prefix|;
  }

  /** Hand each run of matching keys to the child on their edge. */
  method ExpandBranch(keys: seq<Entry<Uuid>>, item: Pending, n: Node, before: seq<Pending>, ghost floor: nat,
                      ghost h: Hash, ghost rows: Rows, ghost t: Tree, ghost sound: bool)
    returns (next: seq<Pending>)
    requires InRange(item, keys) && ValidShape(n, item.depth) && n.value.None? && item.depth >= floor
    requires forall j | 0 <= j < |before| :: InRange(before[j], keys) && before[j].depth > floor
    requires sound ==> Speaks(h, rows, t, keys, item) && ReadNode(h, rows, item.digest, item.depth) == Some(n)
    requires sound ==> forall j | 0 <= j < |before| :: Speaks(h, rows, t, keys, before[j])
    ensures before <= next && forall j | 0 <= j < |next| :: InRange(next[j], keys) && next[j].depth > floor
    ensures sound ==> forall j | 0 <= j < |next| :: Speaks(h, rows, t, keys, next[j])
    ensures sound ==> forall i | item.begin <= i < item.end && Find(t, 0, keys[i].key).Some? ::
              exists j :: 0 <= j < |next| && next[j].begin <= i < next[j].end
  {
    hide Load, Find, Encode, Decode;
    next := before;
    var d := item.depth + |n.prefix|;
    var cursor := item.begin;
    while cursor < item.end
      invariant item.begin <= cursor <= item.end
      invariant before <= next && forall j | 0 <= j < |next| :: InRange(next[j], keys) && next[j].depth > floor
      invariant sound ==> forall j | 0 <= j < |next| :: Speaks(h, rows, t, keys, next[j])
      invariant sound ==> forall i | item.begin <= i < cursor && Find(t, 0, keys[i].key).Some? ::
                  exists j :: 0 <= j < |next| && next[j].begin <= i < next[j].end
    {
      if sound { Descend(h, rows, item.digest, item.depth, keys[cursor].key); }
      var here := Matches(keys[cursor].key, item.depth, n.prefix);
      if !here {
        cursor := cursor + 1;
        continue;
      }
      var edge := keys[cursor].key[d];
      var end := cursor + 1;
      var more := true;
      while end < item.end && more
        invariant cursor < end <= item.end
        invariant forall i | cursor <= i < end :: keys[i].key[item.depth..d] == n.prefix && keys[i].key[d] == edge
        decreases item.end - end, more
      {
        var there := Matches(keys[end].key, item.depth, n.prefix);
        if there && keys[end].key[d] == edge {
          end := end + 1;
        } else {
          more := false;
        }
      }
      ghost var was := next;
      if n.children[edge] != [] {
        next := next + [Pending(n.children[edge], cursor, end, d + 1)];
      }
      if sound { RunSpeaks(h, rows, t, keys, item, n, cursor, end); }
      assert forall j | 0 <= j < |was| :: next[j] == was[j];
      assert n.children[edge] != [] ==> next[|was|].begin == cursor && next[|was|].end == end;
      cursor := end;
    }
  }

  /** The run below one edge: the child speaks for it, or there is no child and no value. */
  lemma RunSpeaks(h: Hash, rows: Rows, t: Tree, keys: seq<Entry<Uuid>>, item: Pending, n: Node, cursor: nat, end: nat)
    requires InRange(item, keys) && ReadNode(h, rows, item.digest, item.depth) == Some(n)
               && Speaks(h, rows, t, keys, item)
    requires item.begin <= cursor < end <= item.end && item.depth + |n.prefix| < KEY_NIBBLES
    requires var d := item.depth + |n.prefix|;
      forall i | cursor <= i < end :: keys[i].key[item.depth..d] == n.prefix && keys[i].key[d] == keys[cursor].key[d]
    ensures var d := item.depth + |n.prefix|;
      var child := n.children[keys[cursor].key[d]];
      && (child != [] ==> Speaks(h, rows, t, keys, Pending(child, cursor, end, d + 1)))
      && (child == [] ==> forall i | cursor <= i < end :: Find(t, 0, keys[i].key) == None)
  {
    hide Load, Find, Encode, Decode;
    var d := item.depth + |n.prefix|;
    Descend(h, rows, item.digest, item.depth, keys[cursor].key);
    NullLoads(h, rows, d + 1);
    AbsentFind(d + 1);
    forall i | cursor <= i < end
      ensures Find(Load(h, rows, n.children[keys[cursor].key[d]], d + 1).value, d + 1, keys[i].key)
                == Find(t, 0, keys[i].key)
    {
      Descend(h, rows, item.digest, item.depth, keys[i].key);
    }
  }

  lemma NoneListed()
    ensures Distinct<Uuid>([])
  {}

  lemma ListedApart(listed: seq<Entry<Uuid>>, u: Uuid)
    requires forall e | e in listed :: e.key == Unpack(e.value) && e.value != u
    requires Distinct(listed)
    ensures Distinct(listed + [Entry(Unpack(u), u)])
  {
    hide Unpack;
    forall i | 0 <= i < |listed|
      ensures listed[i].key != Unpack(u)
    {
      assert listed[i] in listed;
      if listed[i].key == Unpack(u) { UnpackInjective(listed[i].value, u); }
    }
  }

  method SortedKeys(requested: set<Uuid>) returns (keys: seq<Entry<Uuid>>)
    ensures forall i | 0 <= i < |keys| :: keys[i].key == Unpack(keys[i].value) && keys[i].value in requested
    ensures forall u | u in requested :: exists i :: 0 <= i < |keys| && keys[i].value == u
    ensures Sorted(keys) && Distinct(keys)
  {
    hide Unpack, Lookup, Distinct;
    var listed: seq<Entry<Uuid>> := [];
    var rest := requested;
    NoneListed();
    while rest != {}
      invariant rest <= requested
      invariant forall e | e in listed :: e.key == Unpack(e.value) && e.value in requested
      invariant forall u | u in requested && u !in rest :: Entry(Unpack(u), u) in listed
      invariant Distinct(listed) && forall e | e in listed :: e.value !in rest
      decreases rest
    {
      var u :| u in rest;
      var nibbles := UnpackKey(u);
      ListedApart(listed, u);
      listed := listed + [Entry(nibbles, u)];
      rest := rest - {u};
    }
    keys := SortByKey(listed);
    SortedLookups(listed);
    forall u | u in requested
      ensures exists i :: 0 <= i < |keys| && keys[i].value == u
    {
      assert Entry(Unpack(u), u) in keys;
      var i :| 0 <= i < |keys| && keys[i] == Entry(Unpack(u), u);
    }
    forall i | 0 <= i < |keys|
      ensures keys[i].key == Unpack(keys[i].value) && keys[i].value in requested
    {
      var e := keys[i];
      assert e in keys;
      assert e in listed;
    }
  }

  /** Sorted keys list their UUIDs in octet order. */
  lemma KeysAscend(keys: seq<Entry<Uuid>>, i: nat, j: nat)
    requires Sorted(keys) && Distinct(keys) && i < j < |keys|
    requires forall n | 0 <= n < |keys| :: keys[n].key == Unpack(keys[n].value)
    ensures Less(keys[i].value, keys[j].value)
  {
    hide Less, Unpack;
    OctetOrderIsNibbleOrder(keys[i].value, keys[j].value);
    LessTotal(keys[i].key, keys[j].key);
    UnpackIs(keys[i].value);
    UnpackIs(keys[j].value);
  }

  lemma UnpackIs(u: Uuid)
    ensures Unpack(u) == UnpackBytes(u)
  {}

  /** The whole state of a batched lookup is consistent with the trie. */
  ghost predicate OnTrack(h: Hash, rows: Rows, t: Tree, keys: seq<Entry<Uuid>>, result: map<Uuid, Bytes>,
                          work: seq<Pending>)
  {
    && Correct(t, result)
    && (forall j | 0 <= j < |work| :: InRange(work[j], keys) && Speaks(h, rows, t, keys, work[j]))
    && (forall i | 0 <= i < |keys| && Find(t, 0, keys[i].key).Some? :: Covered(keys, result, work, i))
  }

  /** Read one pending subtree: its answers move to the result or to its children. */
  method Visit(payload: Bytes, keys: seq<Entry<Uuid>>, item: Pending, rest: seq<Pending>,
               before: map<Uuid, Bytes>, level: seq<Pending>, ghost floor: nat,
               ghost h: Hash, ghost rows: Rows, ghost t: Tree, ghost sound: bool)
    returns (ok: bool, result: map<Uuid, Bytes>, next: seq<Pending>)
    requires InRange(item, keys) && item.depth >= floor && forall i | 0 <= i < |keys| ::
               keys[i].key == Unpack(keys[i].value)
    requires Fetch(h, rows, TreeKind, item.digest) == Some(payload)
    requires forall j | 0 <= j < |level| :: InRange(level[j], keys) && level[j].depth > floor
    requires sound ==> OnTrack(h, rows, t, keys, before, [item] + rest + level)
    ensures ok ==> forall j | 0 <= j < |next| :: InRange(next[j], keys) && next[j].depth > floor
    ensures result.Keys <= before.Keys + set i | 0 <= i < |keys| :: keys[i].value
    ensures sound ==> ok && OnTrack(h, rows, t, keys, result, rest + next)
  {
    hide Load, Find, Encode, Decode, Speaks, Correct, Covered, InRange;
    if sound { FirstSpeaks(h, rows, t, keys, before, item, rest, level); }
    var node := NodeCodec.DecodeNode(payload, item.depth);
    if node.None? {
      if sound { SpeaksReads(h, rows, t, keys, item); }
      return false, before, level;
    }
    if node.value.value.Some? {
      result := CollectLeaf(keys, item, node.value, before, h, rows, t, sound);
      RangeIsPart(keys, item);
      next := level;
    } else {
      result := before;
      next := ExpandBranch(keys, item, node.value, level, floor, h, rows, t, sound);
    }
    ok := true;
    if sound {
      forall j | 0 <= j < |rest + next|
        ensures InRange((rest + next)[j], keys) && Speaks(h, rows, t, keys, (rest + next)[j])
      {
        if j < |rest| { assert ([item] + rest + level)[j + 1] == rest[j]; }
      }
      forall i | 0 <= i < |keys| && Find(t, 0, keys[i].key).Some?
        ensures Covered(keys, result, rest + next, i)
      {
        StillCovered(keys, before, result, item, rest, level, next, i);
      }
    }
  }

  lemma RangeIsPart(keys: seq<Entry<Uuid>>, item: Pending)
    requires InRange(item, keys)
    ensures (set i | item.begin <= i < item.end :: keys[i].value) <= set i | 0 <= i < |keys| :: keys[i].value
  {}

  lemma FirstSpeaks(h: Hash, rows: Rows, t: Tree, keys: seq<Entry<Uuid>>, before: map<Uuid, Bytes>, item: Pending,
                    rest: seq<Pending>, level: seq<Pending>)
    requires OnTrack(h, rows, t, keys, before, [item] + rest + level)
    ensures InRange(item, keys) && Speaks(h, rows, t, keys, item) && Correct(t, before)
    ensures forall j | 0 <= j < |level| :: InRange(level[j], keys) && Speaks(h, rows, t, keys, level[j])
  {
    hide Speaks, Correct, Covered, InRange;
    var work := [item] + rest + level;
    assert work[0] == item;
    forall j | 0 <= j < |level|
      ensures InRange(level[j], keys) && Speaks(h, rows, t, keys, level[j])
    {
      assert work[1 + |rest| + j] == level[j];
    }
  }

  lemma SpeaksReads(h: Hash, rows: Rows, t: Tree, keys: seq<Entry<Uuid>>, item: Pending)
    requires InRange(item, keys) && Speaks(h, rows, t, keys, item)
    ensures ReadNode(h, rows, item.digest, item.depth).Some?
  {}

  lemma StillCovered(keys: seq<Entry<Uuid>>, before: map<Uuid, Bytes>, result: map<Uuid, Bytes>, item: Pending,
                     rest: seq<Pending>, level: seq<Pending>, next: seq<Pending>, i: nat)
    requires i < |keys| && Covered(keys, before, [item] + rest + level, i)
    requires before.Keys <= result.Keys && level <= next
    requires item.begin <= i < item.end ==>
      keys[i].value in result || exists j :: 0 <= j < |next| && next[j].begin <= i < next[j].end
    ensures Covered(keys, result, rest + next, i)
  {
    var work, after := [item] + rest + level, rest + next;
    if keys[i].value !in result {
      var j :| 0 <= j < |work| && work[j].begin <= i < work[j].end;
      if j == 0 {
        var q :| 0 <= q < |next| && next[q].begin <= i < next[q].end;
        assert after[|rest| + q] == next[q];
      } else if j <= |rest| {
        assert after[j - 1] == rest[j - 1] == work[j];
      } else {
        assert after[j - 1] == next[j - 1 - |rest|] == level[j - 1 - |rest|] == work[j];
      }
    }
  }

  lemma StartOnTrack(h: Hash, rows: Rows, t: Tree, keys: seq<Entry<Uuid>>, root: Bytes)
    requires root != [] && Load(h, rows, root, 0) == Some(t)
    ensures OnTrack(h, rows, t, keys, map[], [Pending(root, 0, |keys|, 0)])
  {
    forall i | 0 <= i < |keys|
      ensures Covered(keys, map[], [Pending(root, 0, |keys|, 0)], i)
    {
      assert [Pending(root, 0, |keys|, 0)][0].begin <= i;
    }
  }

  lemma AllRead(h: Hash, rows: Rows, t: Tree, keys: seq<Entry<Uuid>>, result: map<Uuid, Bytes>, work: seq<Pending>)
    requires OnTrack(h, rows, t, keys, result, work)
    ensures forall j | 0 <= j < |work| :: Fetch(h, rows, TreeKind, work[j].digest).Some?
  {
    hide Speaks, Encode, Decode;
    forall j | 0 <= j < |work|
      ensures Fetch(h, rows, TreeKind, work[j].digest).Some?
    {
      SpeaksReads(h, rows, t, keys, work[j]);
    }
  }

  lemma Finished(h: Hash, rows: Rows, t: Tree, keys: seq<Entry<Uuid>>, result: map<Uuid, Bytes>, requested: set<Uuid>)
    requires OnTrack(h, rows, t, keys, result, []) && result.Keys <= requested
    requires forall i | 0 <= i < |keys| :: keys[i].key == Unpack(keys[i].value)
    requires forall u | u in requested :: exists i :: 0 <= i < |keys| && keys[i].value == u
    ensures forall m | Denotes(t, m) :: result == map u | u in requested && Unpack(u) in m :: m[Unpack(u)]
  {
    forall m | Denotes(t, m)
      ensures result == map u | u in requested && Unpack(u) in m :: m[Unpack(u)]
    {
      forall u | u in requested
        ensures u in result <==> Unpack(u) in m
        ensures u in result ==> result[u] == m[Unpack(u)]
      {
        TreeUpdate.DenotesAt(t, m, Unpack(u));
        var i :| 0 <= i < |keys| && keys[i].value == u;
        if Unpack(u) in m {
          assert Covered(keys, result, [], i);
        }
      }
    }
  }

  /** Exactly the requested keys that the tree holds, with their values. */
  method LookupMany(db: Store, root: Bytes, requested: set<Uuid>) returns (r: Option<map<Uuid, Bytes>>)
    ensures forall m | DenotesMap(db.hash, db.rows, root, m) ::
              r == Some(map u | u in requested && Unpack(u) in m :: m[Unpack(u)])
    ensures r.Some? ==> r.value.Keys <= requested
    ensures requested == {} ==> r == Some(map[])
  {
    hide Load, Find, Encode, Decode, Speaks, Correct, Covered, OnTrack, Sorted, Denotes;
    var result: map<Uuid, Bytes> := map[];
    if requested == {} {
      return Some(result);
    }
    var keys := SortedKeys(requested);
    ghost var sound := root != [] && Load(db.hash, db.rows, root, 0).Some?;
    ghost var t := if sound then Load(db.hash, db.rows, root, 0).value else Absent;
    var pending := [Pending(root, 0, |keys|, 0)];
    if sound { StartOnTrack(db.hash, db.rows, t, keys, root); }
    ghost var floor := 0;
    while pending != []
      invariant floor <= KEY_NIBBLES + 1
      invariant forall j | 0 <= j < |pending| :: InRange(pending[j], keys) && pending[j].depth >= floor
      invariant result.Keys <= requested
      invariant sound ==> OnTrack(db.hash, db.rows, t, keys, result, pending)
      decreases KEY_NIBBLES + 1 - floor
    {
      assert pending[0].depth >= floor;
      var payloads := db.GetMany(TreeKind, seq(|pending|, j requires 0 <= j < |pending| => pending[j].digest));
      if payloads.None? {
        if sound { AllRead(db.hash, db.rows, t, keys, result, pending); }
        return None;
      }
      var next: seq<Pending> := [];
      var j := 0;
      assert pending[0..] + next == pending;
      while j < |pending|
        invariant j <= |pending|
        invariant forall q | 0 <= q < |next| :: InRange(next[q], keys) && next[q].depth >= floor + 1
        invariant result.Keys <= requested
        invariant sound ==> OnTrack(db.hash, db.rows, t, keys, result, pending[j..] + next)
      {
        assert pending[j..] + next == [pending[j]] + pending[j + 1..] + next;
        assert pending[j].digest == seq(|pending|, q requires 0 <= q < |pending| => pending[q].digest)[j];
        var ok;
        ok, result, next := Visit(payloads.value[pending[j].digest], keys, pending[j], pending[j + 1..], result, next,
                                  floor,
                                  db.hash, db.rows, t, sound);
        if !ok {
          return None;
        }
        j := j + 1;
      }
      assert pending[j..] + next == next;
      pending := next;
      floor := floor + 1;
    }
    if sound { Finished(db.hash, db.rows, t, keys, result, requested); }
    return Some(result);
  }
}
