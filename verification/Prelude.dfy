/** Shared vocabulary: options, bytes, and a few facts about sequences of flags. */
module Prelude {
  datatype Option<+T> = None | Some(value: T)

  type Byte = n: int | 0 <= n < 256
  type Bytes = seq<Byte>

  /** The octets of an ASCII text. */
  function Ascii(text: string): (octets: Bytes)
    requires forall i | 0 <= i < |text| :: text[i] as int < 128
  {
    seq(|text|, i requires 0 <= i < |text| => text[i] as int)
  }

  function Get<K, V>(m: map<K, V>, k: K): Option<V> {
    if k in m then Some(m[k]) else None
  }

  /** How many flags are set. */
  function Count(flags: seq<bool>): nat {
    if flags == [] then 0 else (if flags[0] then 1 else 0) + Count(flags[1..])
  }

  lemma {:induction false} CountNone(flags: seq<bool>)
    ensures Count(flags) == 0 <==> forall i | 0 <= i < |flags| :: !flags[i]
  {
    if flags != [] {
      CountNone(flags[1..]);
      assert forall i | 1 <= i < |flags| :: flags[i] == flags[1..][i - 1];
      if forall i | 0 <= i < |flags| :: !flags[i] {
        assert forall i | 0 <= i < |flags[1..]| :: flags[1..][i] == flags[i + 1];
      }
    }
  }

  /** Two distinct set flags make the count at least two. */
  lemma {:induction false} CountTwo(flags: seq<bool>, i: nat, j: nat)
    requires i < j < |flags| && flags[i] && flags[j]
    ensures Count(flags) >= 2
  {
    if i == 0 {
      CountNone(flags[1..]);
      assert flags[1..][j - 1];
    } else {
      CountTwo(flags[1..], i - 1, j - 1);
    }
  }

  /** A count of at least one has a witness; of at least two, two of them. */
  lemma {:induction false} CountWitness(flags: seq<bool>) returns (i: nat, j: nat)
    requires Count(flags) >= 1
    ensures i <= j < |flags| && flags[i] && flags[j]
    ensures Count(flags) >= 2 ==> i < j
    ensures Count(flags) == 1 ==> forall k | 0 <= k < |flags| && k != i :: !flags[k]
  {
    if flags[0] {
      i, j := 0, 0;
      CountNone(flags[1..]);
      if Count(flags) >= 2 {
        var a, b := CountWitness(flags[1..]);
        j := a + 1;
      } else {
        assert forall k | 1 <= k < |flags| :: flags[k] == flags[1..][k - 1];
      }
    } else {
      i, j := CountWitness(flags[1..]);
      assert forall k | 1 <= k < |flags| :: flags[k] == flags[1..][k - 1];
      i, j := i + 1, j + 1;
    }
  }

  lemma {:induction false} CountAppend(flags: seq<bool>, b: bool)
    ensures Count(flags + [b]) == Count(flags) + (if b then 1 else 0)
  {
    if flags == [] {
      assert (flags + [b])[1..] == [];
    } else {
      assert (flags + [b])[1..] == flags[1..] + [b];
      CountAppend(flags[1..], b);
    }
  }

  /** A subset is no larger, and equal if it is as large. */
  lemma {:induction false} SubsetSize<T>(a: set<T>, b: set<T>)
    requires a <= b
    ensures |a| <= |b| && (|a| == |b| ==> a == b)
  {
    if a != {} {
      var x :| x in a;
      SubsetSize(a - {x}, b - {x});
    }
  }
}
