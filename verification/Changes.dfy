/** Batches of changes to a map, and their sorted form. */
module Changes {
  import opened Prelude
  import opened Uuid
  import opened SortedRange

  /** No blob means delete. */
  datatype Change = Change(key: Uuid, blob: Option<Bytes>)

  function Write(m: map<Key, Bytes>, key: Key, v: Option<Bytes>): map<Key, Bytes> {
    if v.Some? then m[key := v.value] else m - {key}
  }

  /** The changes written one after the other. */
  function WriteAll(m: map<Key, Bytes>, changes: seq<Change>): map<Key, Bytes> {
    if changes == [] then m else
      var last := |changes| - 1;
      Write(WriteAll(m, changes[..last]), Unpack(changes[last].key), changes[last].blob)
  }

  predicate DistinctKeys(changes: seq<Change>) {
    forall i, j | 0 <= i < j < |changes| :: changes[i].key != changes[j].key
  }

  function Entries(changes: seq<Change>): (entries: seq<Entry<Option<Bytes>>>)
    ensures |entries| == |changes|
  {
    seq(|changes|, i requires 0 <= i < |changes| => Entry(Unpack(changes[i].key), changes[i].blob))
  }

  lemma DistinctEntries(changes: seq<Change>)
    ensures DistinctKeys(changes) <==> Distinct(Entries(changes))
  {
    var entries := Entries(changes);
    forall i, j | 0 <= i < j < |changes|
      ensures changes[i].key == changes[j].key <==> entries[i].key == entries[j].key
    {
      if entries[i].key == entries[j].key { UnpackInjective(changes[i].key, changes[j].key); }
    }
  }

  /** Writing a batch decides its own keys and leaves the others. */
  lemma {:induction false} WriteAllGet(m: map<Key, Bytes>, changes: seq<Change>, k: Key)
    ensures Get(WriteAll(m, changes), k) ==
            var found := Lookup(Entries(changes), 0, |changes|, k);
            if found.Some? then found.value else Get(m, k)
  {
    if changes != [] {
      var last := |changes| - 1;
      WriteAllGet(m, changes[..last], k);
      LookupPrefix(Entries(changes), Entries(changes[..last]), last, k);
    }
  }

  // -------------------------------------------------------------------- sorting

  function Insert<V>(e: Entry<V>, s: seq<Entry<V>>): seq<Entry<V>> {
    if s == [] then [e]
    else if Less(s[0].key, e.key) then [s[0]] + Insert(e, s[1..])
    else [e] + s
  }

  function SortByKey<V>(s: seq<Entry<V>>): seq<Entry<V>> {
    if s == [] then [] else Insert(s[0], SortByKey(s[1..]))
  }

  lemma {:induction false} InsertKeeps<V>(e: Entry<V>, s: seq<Entry<V>>)
    requires Sorted(s)
    ensures Sorted(Insert(e, s)) && multiset(Insert(e, s)) == multiset(s) + multiset{e}
  {
    hide Less;
    if s == [] {
    } else if Less(s[0].key, e.key) {
      assert Sorted(s[1..]);
      InsertKeeps(e, s[1..]);
      var rest := Insert(e, s[1..]);
      assert s == [s[0]] + s[1..];
      forall j | 0 <= j < |rest|
        ensures !Less(rest[j].key, s[0].key)
      {
        assert rest[j] in multiset(rest);
        assert rest[j] == e || rest[j] in s[1..];
        if Less(e.key, s[0].key) { LessTransitive(e.key, s[0].key, e.key); LessIrreflexive(e.key); }
      }
      SortedMore(s[0], rest);
    } else {
      forall j | 0 <= j < |s|
        ensures !Less(s[j].key, e.key)
      {
        if Less(s[j].key, e.key) {
          LessTotal(s[0].key, e.key);
          if j > 0 && s[0].key != e.key { LessTransitive(s[j].key, e.key, s[0].key); }
        }
      }
      SortedMore(e, s);
    }
  }

  lemma SortedMore<V>(e: Entry<V>, s: seq<Entry<V>>)
    requires Sorted(s) && forall j | 0 <= j < |s| :: !Less(s[j].key, e.key)
    ensures Sorted([e] + s)
  {
    hide Less;
  }

  lemma {:induction false} SortKeeps<V>(s: seq<Entry<V>>)
    ensures Sorted(SortByKey(s)) && multiset(SortByKey(s)) == multiset(s)
  {
    if s != [] {
      SortKeeps(s[1..]);
      InsertKeeps(s[0], SortByKey(s[1..]));
      assert s == [s[0]] + s[1..];
    }
  }

  // --------------------------------------------------------------- reorderings

  lemma {:induction false} TwoPlaces<T>(s: seq<T>, x: T) returns (i: nat, j: nat)
    requires multiset(s)[x] >= 2
    ensures i < j < |s| && s[i] == x && s[j] == x
  {
    assert s == [s[0]] + s[1..];
    if s[0] == x {
      assert x in s[1..];
      i := 0;
      j :| 0 < j < |s| && s[j] == x;
    } else {
      i, j := TwoPlaces(s[1..], x);
      i, j := i + 1, j + 1;
    }
  }

  lemma CountsTwo<T>(s: seq<T>, i: nat, j: nat)
    requires i < j < |s| && s[i] == s[j]
    ensures multiset(s)[s[i]] >= 2
  {
    assert s == s[..j] + ([s[j]] + s[j + 1..]);
    assert s[i] == s[..j][i];
  }

  lemma DistinctPerm<V>(a: seq<Entry<V>>, b: seq<Entry<V>>)
    requires Distinct(a) && multiset(a) == multiset(b)
    ensures Distinct(b)
  {
    forall i, j | 0 <= i < j < |b|
      ensures b[i].key != b[j].key
    {
      if b[i] == b[j] {
        CountsTwo(b, i, j);
        var p, q := TwoPlaces(a, b[i]);
      } else {
        assert b[i] in multiset(a) && b[j] in multiset(a);
        var p :| 0 <= p < |a| && a[p] == b[i];
        var q :| 0 <= q < |a| && a[q] == b[j];
        assert p < q || q < p;
      }
    }
  }

  /** Two lists of the same distinct entries hold the same value for every key. */
  lemma SameLookups<V>(a: seq<Entry<V>>, b: seq<Entry<V>>, k: Key)
    requires Distinct(a) && Distinct(b) && forall e :: e in a <==> e in b
    ensures Lookup(a, 0, |a|, k) == Lookup(b, 0, |b|, k)
  {
    if Lookup(a, 0, |a|, k).Some? {
      var i := LookupSome(a, 0, |a|, k);
      assert a[i] in b;
      var j :| 0 <= j < |b| && b[j] == a[i];
      LookupIn(b, 0, |b|, j);
    } else if Lookup(b, 0, |b|, k).Some? {
      var i := LookupSome(b, 0, |b|, k);
      assert b[i] in a;
      var j :| 0 <= j < |a| && a[j] == b[i];
      LookupIn(a, 0, |a|, j);
    }
  }

  /** Sorting distinct entries changes no lookup, and distinctness shows either way. */
  lemma SortedLookups<V>(items: seq<Entry<V>>)
    ensures var sorted := SortByKey(items);
      && |sorted| == |items| && Sorted(sorted) && (Distinct(sorted) <==> Distinct(items))
      && (forall e :: e in sorted <==> e in items)
      && (Distinct(items) ==> forall k: Key :: Lookup(sorted, 0, |items|, k) == Lookup(items, 0, |items|, k))
  {
    var sorted := SortByKey(items);
    SortKeeps(items);
    assert |multiset(sorted)| == |multiset(items)|;
    assert forall e :: e in sorted <==> e in multiset(sorted);
    assert forall e :: e in items <==> e in multiset(items);
    if Distinct(items) { DistinctPerm(items, sorted); }
    if Distinct(sorted) {
      DistinctPerm(sorted, items);
      forall k: Key
        ensures Lookup(sorted, 0, |items|, k) == Lookup(items, 0, |items|, k)
      {
        SameLookups(sorted, items, k);
      }
    }
  }

  lemma SortedElement<V>(items: seq<Entry<V>>, i: nat) returns (j: nat)
    requires i < |items|
    ensures |SortByKey(items)| == |items| && j < |items| && items[j] == SortByKey(items)[i]
  {
    hide Distinct, Sorted, Lookup;
    SortKeeps(items);
    var sorted := SortByKey(items);
    assert |multiset(sorted)| == |multiset(items)|;
    assert sorted[i] in multiset(items);
    j :| 0 <= j < |items| && items[j] == sorted[i];
  }

  /** A batch of distinct keys gives each of them its own blob, or nothing, and leaves every other key alone. */
  lemma {:induction false} WrittenMeans(m: map<Key, Bytes>, changes: seq<Change>)
    requires forall i, j | 0 <= i < j < |changes| :: changes[i].key != changes[j].key
    ensures forall i | 0 <= i < |changes| :: Get(WriteAll(m, changes), Unpack(changes[i].key)) == changes[i].blob
    ensures forall k: Key | (forall i | 0 <= i < |changes| :: Unpack(changes[i].key) != k) ::
              Get(WriteAll(m, changes), k) == Get(m, k)
  {
    hide Unpack;
    if changes != [] {
      var last := |changes| - 1;
      WrittenMeans(m, changes[..last]);
      forall i | 0 <= i < last
        ensures Unpack(changes[i].key) != Unpack(changes[last].key)
      {
        if Unpack(changes[i].key) == Unpack(changes[last].key) { UnpackInjective(changes[i].key, changes[last].key); }
      }
    }
  }

  /** Changes to distinct keys may be written in any order. */
  lemma WriteAllPerm(m: map<Key, Bytes>, c: seq<Change>, d: seq<Change>)
    requires DistinctKeys(c) && DistinctKeys(d) && forall x :: x in c <==> x in d
    ensures WriteAll(m, c) == WriteAll(m, d)
  {
    DistinctEntries(c);
    DistinctEntries(d);
    forall e
      ensures e in Entries(c) <==> e in Entries(d)
    {
      SameEntries(c, d, e);
      SameEntries(d, c, e);
    }
    forall k: Key
      ensures Get(WriteAll(m, c), k) == Get(WriteAll(m, d), k)
    {
      WriteAllGet(m, c, k);
      WriteAllGet(m, d, k);
      SameLookups(Entries(c), Entries(d), k);
    }
    SameGets(WriteAll(m, c), WriteAll(m, d));
  }

  lemma SameEntries(c: seq<Change>, d: seq<Change>, e: Entry<Option<Bytes>>)
    requires forall x :: x in c ==> x in d
    ensures e in Entries(c) ==> e in Entries(d)
  {
    if e in Entries(c) {
      var i :| 0 <= i < |c| && Entries(c)[i] == e;
      assert c[i] in d;
      var j :| 0 <= j < |d| && d[j] == c[i];
      assert Entries(d)[j] == e;
    }
  }

  lemma SameGets<K, V>(a: map<K, V>, b: map<K, V>)
    requires forall k :: Get(a, k) == Get(b, k)
    ensures a == b
  {
    assert forall k :: k in a <==> Get(a, k).Some?;
    assert forall k :: k in b <==> Get(b, k).Some?;
    assert a.Keys == b.Keys;
    forall k | k in a
      ensures a[k] == b[k]
    {
      assert Get(a, k) == Get(b, k);
    }
  }
}
