/** The sliding-window throttle in front of password checks. */
module LoginThrottle {
  import opened Prelude

  const PER_USERNAME_MAX: nat := 8
  const GLOBAL_MAX: nat := 20
  const WINDOW_MS: nat := 60000

  /** A username bucket: the digest of the folded name. */
  type Bucket = Bytes

  datatype Attempt = Attempt(bucket: Bucket, time: int)

  predicate Rising(times: seq<int>) {
    forall i, j | 0 <= i < j < |times| :: times[i] <= times[j]
  }

  /** The attempts of a list that have not expired. */
  function Unexpired(times: seq<int>, now: int): seq<int> {
    if times == [] then [] else
      Unexpired(times[..|times| - 1], now) + if now - times[|times| - 1] < WINDOW_MS then [times[|times| - 1]] else []
  }

  function TimesOf(attempts: seq<Attempt>): (times: seq<int>)
    ensures |times| == |attempts| && forall i | 0 <= i < |attempts| :: times[i] == attempts[i].time
  {
    seq(|attempts|, i requires 0 <= i < |attempts| => attempts[i].time)
  }

  /** The attempts of one bucket. */
  function TimesIn(attempts: seq<Attempt>, bucket: Bucket): seq<int> {
    if attempts == [] then [] else
      var last := attempts[|attempts| - 1];
      TimesIn(attempts[..|attempts| - 1], bucket) + if last.bucket == bucket then [last.time] else []
  }

  /** In a rising list the expired attempts are a prefix. */
  lemma {:induction false} ExpiredPrefix(times: seq<int>, now: int, n: nat)
    requires n <= |times| && (forall i | 0 <= i < n :: now - times[i] >= WINDOW_MS)
    requires forall i | n <= i < |times| :: now - times[i] < WINDOW_MS
    ensures Unexpired(times, now) == times[n..]
    decreases |times|
  {
    if n < |times| {
      var last := |times| - 1;
      ExpiredPrefix(times[..last], now, n);
      assert times[n..] == times[..last][n..] + [times[last]];
    } else if n > 0 {
      ExpiredPrefix(times[..n - 1], now, n - 1);
      assert times[..n - 1][n - 1..] == [];
    }
  }

  lemma UnexpiredSnoc(times: seq<int>, time: int, now: int)
    ensures Unexpired(times + [time], now) == Unexpired(times, now) + if now - time < WINDOW_MS then [time] else []
  {
    assert (times + [time])[..|times|] == times;
  }

  lemma NoTimes(now: int)
    ensures Unexpired([], now) == []
  {}

  lemma SplitLast(times: seq<int>, now: int)
    requires times != []
    ensures var last := |times| - 1;
      Unexpired(times, now) ==
      if now - times[last] < WINDOW_MS then Unexpired(times[..last], now) + [times[last]]
        else Unexpired(times[..last], now)
  {
    var last := |times| - 1;
    assert Unexpired(times[..last], now) + [] == Unexpired(times[..last], now);
  }

  /** Purging twice is purging once, at the later time. */
  lemma {:induction false} PurgeTwice(times: seq<int>, earlier: int, now: int)
    requires earlier <= now
    ensures Unexpired(Unexpired(times, earlier), now) == Unexpired(times, now)
  {
    hide Unexpired;
    NoTimes(earlier);
    NoTimes(now);
    if times != [] {
      var last := |times| - 1;
      PurgeTwice(times[..last], earlier, now);
      SplitLast(times, earlier);
      SplitLast(times, now);
      UnexpiredSnoc(Unexpired(times[..last], earlier), times[last], now);
    }
  }

  method PurgeExpired(attempts: seq<int>, now: int) returns (kept: seq<int>)
    requires Rising(attempts)
    ensures kept == Unexpired(attempts, now) && Rising(kept)
  {
    var count := 0;
    while count < |attempts| && now - attempts[count] >= WINDOW_MS
      invariant count <= |attempts|
      invariant forall i | 0 <= i < count :: now - attempts[i] >= WINDOW_MS
    {
      count := count + 1;
    }
    ExpiredPrefix(attempts, now, count);
    kept := attempts[count..];
  }

  // ------------------------------------------------------------------- invariants

  /** After any `max` accepted attempts a whole window passes before the next one. */
  predicate Spaced(times: seq<int>, max: nat) {
    forall i | max <= i < |times| :: times[i] - times[i - max] >= WINDOW_MS
  }

  lemma {:induction false} TimesInRising(attempts: seq<Attempt>, bucket: Bucket)
    requires Rising(TimesOf(attempts))
    ensures Rising(TimesIn(attempts, bucket))
    ensures TimesIn(attempts, bucket) != [] ==>
              TimesIn(attempts, bucket)[|TimesIn(attempts, bucket)| - 1] <= attempts[|attempts| - 1].time
  {
    if attempts != [] {
      var n := |attempts| - 1;
      var front := attempts[..n];
      assert forall i | 0 <= i < n :: TimesOf(front)[i] == TimesOf(attempts)[i];
      TimesInRising(front, bucket);
      if n > 0 { assert TimesOf(attempts)[n - 1] <= TimesOf(attempts)[n]; }
    }
  }

  /** How many attempts of a rising list are unexpired decides whether one more keeps it spaced. */
  lemma {:induction false} UnexpiredSuffix(times: seq<int>, now: int) returns (n: nat)
    requires Rising(times)
    ensures n <= |times| && Unexpired(times, now) == times[n..]
    ensures forall i | 0 <= i < n :: now - times[i] >= WINDOW_MS
    ensures forall i | n <= i < |times| :: now - times[i] < WINDOW_MS
  {
    n := 0;
    while n < |times| && now - times[n] >= WINDOW_MS
      invariant n <= |times| && forall i | 0 <= i < n :: now - times[i] >= WINDOW_MS
    {
      n := n + 1;
    }
    ExpiredPrefix(times, now, n);
  }

  lemma SpacedMore(times: seq<int>, now: int, max: nat)
    requires Rising(times) && Spaced(times, max) && |Unexpired(times, now)| < max
    ensures Spaced(times + [now], max)
  {
    hide Unexpired;
    var n := UnexpiredSuffix(times, now);
    var more := times + [now];
    forall i | max <= i < |more|
      ensures more[i] - more[i - max] >= WINDOW_MS
    {
      if i == |times| { assert i - max < n; }
    }
  }

  /** How many times lie in the half-open window that starts at `start`. */
  function InWindow(times: seq<int>, start: int): nat {
    if times == [] then 0 else
      InWindow(times[..|times| - 1], start) + if start <= times[|times| - 1] < start + WINDOW_MS then 1 else 0
  }

  predicate Inside(time: int, start: int) {
    start <= time < start + WINDOW_MS
  }

  /** The attempts of a window stand next to each other. */
  lemma {:induction false} WindowEnds(times: seq<int>, start: int) returns (first: nat, last: nat)
    requires Rising(times) && InWindow(times, start) > 0
    ensures first <= last < |times| && last - first + 1 == InWindow(times, start)
    ensures forall i | 0 <= i < |times| :: Inside(times[i], start) <==> first <= i <= last
  {
    var n := |times| - 1;
    var front := times[..n];
    if InWindow(front, start) == 0 {
      NoneInside(front, start);
      first, last := n, n;
    } else {
      first, last := WindowEnds(front, start);
      if Inside(times[n], start) {
        assert Inside(front[last], start);
        last := n;
      }
    }
  }

  lemma {:induction false} NoneInside(times: seq<int>, start: int)
    requires InWindow(times, start) == 0
    ensures forall i | 0 <= i < |times| :: !Inside(times[i], start)
  {
    if times != [] { NoneInside(times[..|times| - 1], start); }
  }

  /** A spaced rising list has at most `max` attempts in every window, wherever it starts. */
  lemma WindowBound(times: seq<int>, max: nat, start: int)
    requires Rising(times) && Spaced(times, max)
    ensures InWindow(times, start) <= max
  {
    if InWindow(times, start) > 0 {
      var first, last := WindowEnds(times, start);
      assert Inside(times[first], start) && Inside(times[last], start);
      if last - first >= max { FarApart(times, max, first, last); }
    }
  }

  lemma FarApart(times: seq<int>, max: nat, first: nat, last: nat)
    requires Rising(times) && Spaced(times, max) && first <= last < |times| && last - first >= max
    ensures max > 0 ==> times[last] - times[first] >= WINDOW_MS
  {
    assert times[last] - times[last - max] >= WINDOW_MS;
  }

  // -------------------------------------------------------------------- the throttle

  /** The attempts of all buckets together. */
  ghost function SumOf(buckets: map<Bucket, seq<int>>, keys: set<Bucket>): nat
    requires keys <= buckets.Keys
  {
    if keys == {} then 0 else
      var k :| k in keys;
      |buckets[k]| + SumOf(buckets, keys - {k})
  }

  lemma {:induction false} SumSplit(buckets: map<Bucket, seq<int>>, keys: set<Bucket>, k: Bucket)
    requires keys <= buckets.Keys && k in keys
    ensures SumOf(buckets, keys) == |buckets[k]| + SumOf(buckets, keys - {k})
  {
    var chosen :| chosen in keys && SumOf(buckets, keys) == |buckets[chosen]| + SumOf(buckets, keys - {chosen});
    if chosen != k {
      SumSplit(buckets, keys - {chosen}, k);
      SumSplit(buckets, keys - {k}, chosen);
      assert keys - {chosen} - {k} == keys - {k} - {chosen};
    }
  }

  lemma {:induction false} SumLocal(a: map<Bucket, seq<int>>, b: map<Bucket, seq<int>>, keys: set<Bucket>)
    requires keys <= a.Keys && keys <= b.Keys && forall k | k in keys :: a[k] == b[k]
    ensures SumOf(a, keys) == SumOf(b, keys)
  {
    if keys != {} {
      var k :| k in keys;
      SumSplit(a, keys, k);
      SumSplit(b, keys, k);
      SumLocal(a, b, keys - {k});
    }
  }

  /** The buckets of a list of attempts, without empty ones. */
  ghost predicate BucketsOf(attempts: seq<Attempt>, buckets: map<Bucket, seq<int>>, now: int) {
    forall k: Bucket ::
      var unexpired := Unexpired(TimesIn(attempts, k), now);
      if unexpired == [] then k !in buckets else k in buckets && buckets[k] == unexpired
  }

  /** What is counted per bucket adds up to what is counted globally. */
  lemma {:induction false} BucketsAddUp(attempts: seq<Attempt>, buckets: map<Bucket, seq<int>>, now: int)
    requires BucketsOf(attempts, buckets, now)
    ensures SumOf(buckets, buckets.Keys) == |Unexpired(TimesOf(attempts), now)|
  {
    if attempts == [] {
      NoBuckets(buckets, now);
    } else {
      var n := |attempts| - 1;
      var front := attempts[..n];
      var earlier := BucketsBefore(attempts, buckets, now);
      BucketsAddUp(front, earlier, now);
      assert TimesOf(attempts) == TimesOf(front) + [attempts[n].time];
      UnexpiredSnoc(TimesOf(front), attempts[n].time, now);
    }
  }

  lemma NoBuckets(buckets: map<Bucket, seq<int>>, now: int)
    requires BucketsOf([], buckets, now)
    ensures buckets == map[]
  {
    assert forall k: Bucket :: Unexpired(TimesIn([], k), now) == [];
  }

  /** The buckets without the last attempt. */
  lemma BucketsBefore(attempts: seq<Attempt>, buckets: map<Bucket, seq<int>>, now: int)
    returns (earlier: map<Bucket, seq<int>>)
    requires attempts != [] && BucketsOf(attempts, buckets, now)
    ensures BucketsOf(attempts[..|attempts| - 1], earlier, now)
    ensures SumOf(buckets, buckets.Keys) ==
            SumOf(earlier, earlier.Keys) + if now - attempts[|attempts| - 1].time < WINDOW_MS then 1 else 0
  {
    hide Unexpired, TimesIn;
    var n := |attempts| - 1;
    var last := attempts[n];
    var front := attempts[..n];
    forall k: Bucket
      ensures Unexpired(TimesIn(attempts, k), now) ==
              Unexpired(TimesIn(front, k), now) + if k == last.bucket && now - last.time < WINDOW_MS then [last.time]
                else []
    {
      LastInBucket(attempts, k, now);
    }
    if now - last.time >= WINDOW_MS {
      earlier := buckets;
    } else {
      var before := Unexpired(TimesIn(front, last.bucket), now);
      earlier := if before == [] then buckets - {last.bucket} else buckets[last.bucket := before];
      SumWithout(buckets, earlier, last.bucket);
    }
  }

  lemma SumWithout(a: map<Bucket, seq<int>>, b: map<Bucket, seq<int>>, k: Bucket)
    requires k in a && b - {k} == a - {k}
    ensures SumOf(a, a.Keys) - |a[k]| == SumOf(b, b.Keys) - if k in b then |b[k]| else 0
  {
    SumSplit(a, a.Keys, k);
    if k in b { SumSplit(b, b.Keys, k); }
    assert a.Keys - {k} == (a - {k}).Keys == (b - {k}).Keys == b.Keys - {k};
    forall x | x in a.Keys - {k}
      ensures a[x] == b[x]
    {
      assert (a - {k})[x] == (b - {k})[x];
    }
    SumLocal(a, b, a.Keys - {k});
    assert k !in b ==> b.Keys - {k} == b.Keys;
  }

  lemma LastInBucket(attempts: seq<Attempt>, k: Bucket, now: int)
    requires attempts != []
    ensures var n := |attempts| - 1;
      Unexpired(TimesIn(attempts, k), now) ==
      Unexpired(TimesIn(attempts[..n], k), now) +
      if k == attempts[n].bucket && now - attempts[n].time < WINDOW_MS then [attempts[n].time] else []
  {
    var n := |attempts| - 1;
    UnexpiredSnoc(TimesIn(attempts[..n], k), attempts[n].time, now);
    assert TimesIn(attempts[..n], k) + [] == TimesIn(attempts[..n], k);
  }

  lemma UnexpiredRising(times: seq<int>, now: int)
    requires Rising(times)
    ensures Rising(Unexpired(times, now))
  {
    var n := UnexpiredSuffix(times, now);
  }

  lemma BucketRising(attempts: seq<Attempt>, buckets: map<Bucket, seq<int>>, now: int, k: Bucket)
    requires Rising(TimesOf(attempts)) && BucketsOf(attempts, buckets, now) && k in buckets
    ensures Rising(buckets[k])
  {
    hide Unexpired, TimesIn;
    TimesInRising(attempts, k);
    UnexpiredRising(TimesIn(attempts, k), now);
  }

  function Added(buckets: map<Bucket, seq<int>>, k: Bucket, now: int): map<Bucket, seq<int>> {
    buckets[k := (if k in buckets then buckets[k] else []) + [now]]
  }

  /** Accepting while there is room keeps the order, the counts and the spacing. */
  lemma Accepting(attempts: seq<Attempt>, buckets: map<Bucket, seq<int>>, bucket: Bucket, now: int)
    requires Rising(TimesOf(attempts)) && (attempts != [] ==> attempts[|attempts| - 1].time <= now)
    requires BucketsOf(attempts, buckets, now)
    requires Spaced(TimesOf(attempts), GLOBAL_MAX) && forall k: Bucket :: Spaced(TimesIn(attempts, k), PER_USERNAME_MAX)
    requires |Unexpired(TimesOf(attempts), now)| < GLOBAL_MAX
               && |Unexpired(TimesIn(attempts, bucket), now)| < PER_USERNAME_MAX
    ensures var more := attempts + [Attempt(bucket, now)];
      && Rising(TimesOf(more)) && Unexpired(TimesOf(more), now) == Unexpired(TimesOf(attempts), now) + [now]
      && BucketsOf(more, Added(buckets, bucket, now), now)
      && Spaced(TimesOf(more), GLOBAL_MAX) && forall k: Bucket :: Spaced(TimesIn(more, k), PER_USERNAME_MAX)
  {
    hide Unexpired, TimesIn, Spaced, Rising, TimesOf;
    var more := attempts + [Attempt(bucket, now)];
    RisingMore(attempts, bucket, now);
    UnexpiredSnoc(TimesOf(attempts), now, now);
    SpacedMore(TimesOf(attempts), now, GLOBAL_MAX);
    forall k: Bucket
      ensures Spaced(TimesIn(more, k), PER_USERNAME_MAX)
      ensures Unexpired(TimesIn(more, k), now) == if k == bucket then Unexpired(TimesIn(attempts, k), now) + [now]
                else Unexpired(TimesIn(attempts, k), now)
    {
      OneMoreIn(attempts, bucket, now, k);
    }
  }

  lemma RisingMore(attempts: seq<Attempt>, bucket: Bucket, now: int)
    requires Rising(TimesOf(attempts)) && (attempts != [] ==> attempts[|attempts| - 1].time <= now)
    ensures TimesOf(attempts + [Attempt(bucket, now)]) == TimesOf(attempts) + [now]
    ensures Rising(TimesOf(attempts + [Attempt(bucket, now)]))
  {
    assert TimesOf(attempts + [Attempt(bucket, now)]) == TimesOf(attempts) + [now];
    if attempts != [] { assert TimesOf(attempts)[|attempts| - 1] <= now; }
  }

  lemma OneMoreIn(attempts: seq<Attempt>, bucket: Bucket, now: int, k: Bucket)
    requires Rising(TimesOf(attempts)) && Spaced(TimesIn(attempts, k), PER_USERNAME_MAX)
    requires k == bucket ==> |Unexpired(TimesIn(attempts, k), now)| < PER_USERNAME_MAX
    ensures var more := TimesIn(attempts + [Attempt(bucket, now)], k);
      && Spaced(more, PER_USERNAME_MAX)
      && Unexpired(more, now) == if k == bucket then Unexpired(TimesIn(attempts, k), now) + [now]
           else Unexpired(TimesIn(attempts, k), now)
  {
    hide Spaced, Unexpired;
    assert (attempts + [Attempt(bucket, now)])[..|attempts|] == attempts;
    assert TimesIn(attempts, k) + [] == TimesIn(attempts, k);
    if k == bucket {
      TimesInRising(attempts, k);
      SpacedMore(TimesIn(attempts, k), now, PER_USERNAME_MAX);
      UnexpiredSnoc(TimesIn(attempts, k), now, now);
    }
  }

  /** What counts against an attempt is exactly what the window ending with it holds. */
  lemma {:induction false} UnexpiredIsWindow(times: seq<int>, now: int)
    requires Rising(times) && (times != [] ==> times[|times| - 1] <= now)
    ensures |Unexpired(times, now)| == InWindow(times, now - WINDOW_MS + 1)
  {
    if times != [] {
      var n := |times| - 1;
      if n > 0 { assert times[n - 1] <= times[n]; }
      UnexpiredIsWindow(times[..n], now);
    }
  }

  /**
   For a whole run: every half-open window holds at most the global limit, and
   at most the username limit of each bucket.
   */
  lemma RunBounded(attempts: seq<Attempt>, start: int, bucket: Bucket)
    requires Rising(TimesOf(attempts)) && Spaced(TimesOf(attempts), GLOBAL_MAX)
    requires Spaced(TimesIn(attempts, bucket), PER_USERNAME_MAX)
    ensures InWindow(TimesOf(attempts), start) <= GLOBAL_MAX
              && InWindow(TimesIn(attempts, bucket), start) <= PER_USERNAME_MAX
  {
    hide Spaced, InWindow, TimesIn, Rising;
    TimesInRising(attempts, bucket);
    WindowBound(TimesOf(attempts), GLOBAL_MAX, start);
    WindowBound(TimesIn(attempts, bucket), PER_USERNAME_MAX, start);
  }

  /** The attempts of the minute from `start` on, by their place in the run: all of them, or those for one name. */
  function Minute(attempts: seq<Attempt>, start: int, bucket: Option<Bucket>): set<int> {
    set i | 0 <= i < |attempts| && start <= attempts[i].time < start + 60000
            && (bucket == None || bucket == Some(attempts[i].bucket))
  }

  lemma MinuteSnoc(attempts: seq<Attempt>, start: int, bucket: Option<Bucket>)
    requires attempts != []
    ensures var n := |attempts| - 1;
      |Minute(attempts, start, bucket)| == |Minute(attempts[..n], start, bucket)| +
      if start <= attempts[n].time < start + 60000 && (bucket == None || bucket == Some(attempts[n].bucket)) then 1
        else 0
  {
    var n := |attempts| - 1;
    var before := Minute(attempts[..n], start, bucket);
    if start <= attempts[n].time < start + 60000 && (bucket == None || bucket == Some(attempts[n].bucket)) {
      assert Minute(attempts, start, bucket) == before + {n};
    } else {
      assert Minute(attempts, start, bucket) == before;
    }
  }

  /** Counting a window is counting the attempts of a minute. */
  lemma {:induction false} WindowsAre(attempts: seq<Attempt>, start: int, bucket: Bucket)
    ensures InWindow(TimesOf(attempts), start) == |Minute(attempts, start, None)|
    ensures InWindow(TimesIn(attempts, bucket), start) == |Minute(attempts, start, Some(bucket))|
  {
    if attempts != [] {
      hide Minute;
      var n := |attempts| - 1;
      WindowsAre(attempts[..n], start, bucket);
      assert TimesOf(attempts)[..n] == TimesOf(attempts[..n]);
      var times := TimesIn(attempts[..n], bucket);
      assert (times + [attempts[n].time])[..|times|] == times;
      assert times + [] == times;
      MinuteSnoc(attempts, start, None);
      MinuteSnoc(attempts, start, Some(bucket));
    }
  }

  /** What counts against an attempt are the attempts of the minute that ends with it. */
  lemma RecentAre(attempts: seq<Attempt>, now: int, bucket: Bucket)
    requires Rising(TimesOf(attempts)) && (attempts != [] ==> attempts[|attempts| - 1].time <= now)
    ensures |Unexpired(TimesOf(attempts), now)| == |Minute(attempts, now - 59999, None)|
    ensures |Unexpired(TimesIn(attempts, bucket), now)| == |Minute(attempts, now - 59999, Some(bucket))|
  {
    hide Unexpired, Minute, InWindow, Rising;
    WindowsAre(attempts, now - 59999, bucket);
    TimesInRising(attempts, bucket);
    UnexpiredIsWindow(TimesOf(attempts), now);
    UnexpiredIsWindow(TimesIn(attempts, bucket), now);
  }

  class Throttle {
    var globalAttempts: seq<int>
    var usernameAttempts: map<Bucket, seq<int>>
    // every attempt ever accepted, and the time of the last call
    ghost var accepted: seq<Attempt>
    ghost var latest: int

    /** Times never go back; the fields hold what has not expired; the limits held all along. */
    ghost predicate Valid()
      reads this
    {
      && Rising(TimesOf(accepted)) && (accepted != [] ==> accepted[|accepted| - 1].time <= latest)
      && globalAttempts == Unexpired(TimesOf(accepted), latest)
      && BucketsOf(accepted, usernameAttempts, latest)
      && Spaced(TimesOf(accepted), GLOBAL_MAX)
      && forall k: Bucket :: Spaced(TimesIn(accepted, k), PER_USERNAME_MAX)
    }

    constructor ()
      ensures Valid() && accepted == []
    {
      globalAttempts, usernameAttempts, accepted, latest := [], map[], [], 0;
    }

    /** Drops what has expired from every bucket, and the buckets that are left empty. */
    method PurgeBuckets(now: int)
      requires Rising(TimesOf(accepted)) && BucketsOf(accepted, usernameAttempts, latest) && latest <= now
      modifies this`usernameAttempts
      ensures BucketsOf(accepted, usernameAttempts, now)
    {
      hide Unexpired, TimesIn, Spaced, Rising;
      ghost var before := usernameAttempts;
      forall k: Bucket
        ensures Unexpired(Unexpired(TimesIn(accepted, k), latest), now) == Unexpired(TimesIn(accepted, k), now)
      {
        PurgeTwice(TimesIn(accepted, k), latest, now);
      }
      NoTimes(now);
      var rest := usernameAttempts.Keys;
      while rest != {}
        invariant rest <= before.Keys && usernameAttempts.Keys <= before.Keys && rest <= usernameAttempts.Keys
        invariant forall k | k in rest :: usernameAttempts[k] == before[k]
        invariant forall k | k in before && k !in rest ::
                    var kept := Unexpired(before[k], now);
                    if kept == [] then k !in usernameAttempts else k in usernameAttempts && usernameAttempts[k] == kept
        decreases rest
      {
        var k :| k in rest;
        BucketRising(accepted, before, latest, k);
        var kept := PurgeExpired(usernameAttempts[k], now);
        if kept == [] {
          usernameAttempts := usernameAttempts - {k};
        } else {
          usernameAttempts := usernameAttempts[k := kept];
        }
        rest := rest - {k};
      }
    }

    /**
     One attempt: accepted exactly while fewer than 20 attempts were accepted in the
     last minute, and fewer than 8 of them for the same name.
     */
    method AllowAttempt(bucket: Bucket, now: int) returns (allowed: bool)
      requires Valid() && latest <= now
      modifies this
      ensures Valid() && latest == now
      ensures allowed <==> |Unexpired(TimesOf(old(accepted)), now)| < GLOBAL_MAX
                           && |Unexpired(TimesIn(old(accepted), bucket), now)| < PER_USERNAME_MAX
      ensures allowed <==> |Minute(old(accepted), now - 59999, None)| < 20
                           && |Minute(old(accepted), now - 59999, Some(bucket))| < 8
      ensures accepted == if allowed then old(accepted) + [Attempt(bucket, now)] else old(accepted)
    {
      hide Unexpired, TimesIn, Spaced, Rising, Minute;
      RecentAre(accepted, now, bucket);
      UnexpiredRising(TimesOf(accepted), latest);
      PurgeTwice(TimesOf(accepted), latest, now);
      globalAttempts := PurgeExpired(globalAttempts, now);
      PurgeBuckets(now);
      var used := if bucket in usernameAttempts then |usernameAttempts[bucket]| else 0;
      assert used == |Unexpired(TimesIn(accepted, bucket), now)|;
      latest := now;
      if |globalAttempts| >= GLOBAL_MAX || used >= PER_USERNAME_MAX {
        return false;
      }
      Accepting(accepted, usernameAttempts, bucket, now);
      globalAttempts := globalAttempts + [now];
      usernameAttempts := usernameAttempts[bucket :=
                                           (if bucket in usernameAttempts then usernameAttempts[bucket]
                                            else []) + [now]];
      accepted := accepted + [Attempt(bucket, now)];
      allowed := true;
    }

    /** The bucket sizes always add up to the global size. */
    lemma SizesAgree()
      requires Valid()
      ensures SumOf(usernameAttempts, usernameAttempts.Keys) == |globalAttempts|
    {
      hide BucketsOf, Spaced, Rising;
      BucketsAddUp(accepted, usernameAttempts, latest);
    }

    /** Right after any call, no minute anywhere in the run holds more than 20 attempts, or 8 for one name. */
    lemma LimitsHold(start: int, bucket: Bucket)
      requires Valid()
      ensures InWindow(TimesOf(accepted), start) <= GLOBAL_MAX
                && InWindow(TimesIn(accepted, bucket), start) <= PER_USERNAME_MAX
      ensures |Minute(accepted, start, None)| <= 20 && |Minute(accepted, start, Some(bucket))| <= 8
    {
      hide Minute;
      RunBounded(accepted, start, bucket);
      WindowsAre(accepted, start, bucket);
    }
  }
}
