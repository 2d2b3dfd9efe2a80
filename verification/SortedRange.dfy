/** Ranges of a key-sorted vector: what a subtree owns while a batch is processed. */
module SortedRange {
  import opened Prelude
  import opened Uuid

  datatype Entry<V> = Entry(key: Key, value: V)

  /** Non-decreasing keys; repeats are still possible. */
  predicate Sorted<V>(items: seq<Entry<V>>) {
    forall i, j | 0 <= i < j < |items| :: !Less(items[j].key, items[i].key)
  }

  predicate Distinct<V>(items: seq<Entry<V>>) {
    forall i, j | 0 <= i < j < |items| :: items[i].key != items[j].key
  }

  /** All keys of the range start with the same nibbles as `base`. */
  predicate SharePath<V>(items: seq<Entry<V>>, begin: nat, end: nat, base: Key, depth: nat)
    requires end <= |items| && depth <= KEY_NIBBLES
  {
    forall i | begin <= i < end :: items[i].key[..depth] == base[..depth]
  }

  /** The value the range holds for a key. */
  function Lookup<V>(items: seq<Entry<V>>, begin: nat, end: nat, k: Key): Option<V>
    requires end <= |items|
    decreases end
  {
    if end <= begin then None
    else if items[end - 1].key == k then Some(items[end - 1].value)
    else Lookup(items, begin, end - 1, k)
  }

  lemma {:induction false} LookupIn<V>(items: seq<Entry<V>>, begin: nat, end: nat, i: nat)
    requires begin <= i < end <= |items| && Distinct(items)
    ensures Lookup(items, begin, end, items[i].key) == Some(items[i].value)
    decreases end
  {
    if i < end - 1 { LookupIn(items, begin, end - 1, i); }
  }

  lemma {:induction false} LookupOut<V>(items: seq<Entry<V>>, begin: nat, end: nat, k: Key)
    requires end <= |items| && forall i | begin <= i < end :: items[i].key != k
    ensures Lookup(items, begin, end, k) == None
    decreases end
  {
    if begin < end { LookupOut(items, begin, end - 1, k); }
  }

  lemma {:induction false} LookupSome<V>(items: seq<Entry<V>>, begin: nat, end: nat, k: Key) returns (i: nat)
    requires end <= |items| && Lookup(items, begin, end, k).Some?
    ensures begin <= i < end && items[i].key == k && Lookup(items, begin, end, k) == Some(items[i].value)
    decreases end
  {
    if items[end - 1].key == k { i := end - 1; } else { i := LookupSome(items, begin, end - 1, k); }
  }

  lemma {:induction false} LookupSplit<V>(items: seq<Entry<V>>, begin: nat, mid: nat, end: nat, k: Key)
    requires begin <= mid <= end <= |items|
    ensures Lookup(items, begin, end, k) ==
            if Lookup(items, mid, end, k).Some? then Lookup(items, mid, end, k) else Lookup(items, begin, mid, k)
    decreases end
  {
    if mid < end { LookupSplit(items, begin, mid, end - 1, k); }
  }

  /** Ranges with the same entries hold the same values. */
  lemma {:induction false} LookupPrefix<V>(items: seq<Entry<V>>, others: seq<Entry<V>>, end: nat, k: Key)
    requires end <= |items| && end <= |others| && forall i | 0 <= i < end :: items[i] == others[i]
    ensures Lookup(items, 0, end, k) == Lookup(others, 0, end, k)
  {
    if end > 0 { LookupPrefix(items, others, end - 1, k); }
  }

  /** A key between two others shares whatever path they share. */
  lemma {:induction false} Between(a: Bytes, b: Bytes, c: Bytes, n: nat)
    requires |a| == |b| == |c| && n <= |a| && !Less(b, a) && !Less(c, b) && a[..n] == c[..n]
    ensures b[..n] == a[..n]
  {
    if n > 0 {
      assert a[0] == a[..n][0] == c[..n][0] == c[0];
      assert a[1..][..n - 1] == a[..n][1..] && c[1..][..n - 1] == c[..n][1..] && b[1..][..n - 1] == b[..n][1..];
      Between(a[1..], b[1..], c[1..], n - 1);
      assert a[..n] == [a[0]] + a[..n][1..] && b[..n] == [b[0]] + b[..n][1..];
    }
  }

  /** The common path of a sorted range is fixed by its first and last key. */
  lemma EndsDecidePath<V>(items: seq<Entry<V>>, begin: nat, end: nat, depth: nat)
    requires begin < end <= |items| && Sorted(items) && depth <= KEY_NIBBLES
    requires items[begin].key[..depth] == items[end - 1].key[..depth]
    ensures SharePath(items, begin, end, items[begin].key, depth)
  {
    LessIrreflexive(items[begin].key);
    forall i | begin <= i < end
      ensures items[i].key[..depth] == items[begin].key[..depth]
    {
      LessIrreflexive(items[i].key);
      Between(items[begin].key, items[i].key, items[end - 1].key, depth);
    }
  }

  /** Below a shared path, the next nibbles ascend. */
  lemma EdgesAscend<V>(items: seq<Entry<V>>, begin: nat, end: nat, base: Key, depth: nat, i: nat, j: nat)
    requires end <= |items| && Sorted(items) && depth < KEY_NIBBLES && begin <= i <= j < end
    requires SharePath(items, begin, end, base, depth)
    ensures items[i].key[depth] <= items[j].key[depth]
  {
    if items[i].key[depth] > items[j].key[depth] {
      LessAt(items[j].key, items[i].key, depth);
    }
  }

  /** The end of the run of items that take the same edge as the item at `cursor`. */
  method RunEnd<V>(items: seq<Entry<V>>, cursor: nat, end: nat, depth: nat) returns (next: nat)
    requires cursor < end <= |items| && depth < KEY_NIBBLES
    ensures cursor < next <= end
    ensures forall i | cursor <= i < next :: items[i].key[depth] == items[cursor].key[depth]
    ensures next < end ==> items[next].key[depth] != items[cursor].key[depth]
  {
    next := cursor + 1;
    while next < end && items[next].key[depth] == items[cursor].key[depth]
      invariant cursor < next <= end
      invariant forall i | cursor <= i < next :: items[i].key[depth] == items[cursor].key[depth]
    {
      next := next + 1;
    }
  }
}
