/** UUIDs as 16 octets (section 4.1.2 of RFC 4122) and as 32 unpacked nibbles. */
module Uuid {
  import opened Prelude

  const KEY_NIBBLES: nat := 32
  const BRANCHES: nat := 16

  type Uuid = u: Bytes | |u| == 16 witness seq(16, _ => 0)

  predicate IsNull(id: Uuid) {
    forall i | 0 <= i < 16 :: id[i] == 0
  }

  /** The null identifier, which stands for none. */
  const UNSET: Uuid := [0, 0, 0, 0, 0, 0, 0, 0, 0, 0, 0, 0, 0, 0, 0, 0]

  lemma NullIsUnset(id: Uuid)
    ensures IsNull(id) <==> id == UNSET
  {
    if IsNull(id) { assert id == UNSET; }
  }

  predicate AllNibbles(s: Bytes) {
    forall i | 0 <= i < |s| :: s[i] < BRANCHES
  }

  predicate IsKey(s: Bytes) {
    |s| == KEY_NIBBLES && AllNibbles(s)
  }

  /** A full tree key: 32 nibbles. */
  type Key = k: Bytes | IsKey(k) witness seq(32, _ => 0)

  function UnpackBytes(bytes: Bytes): (nibbles: Bytes)
    ensures |nibbles| == 2 * |bytes| && AllNibbles(nibbles)
    ensures forall i | 0 <= i < |bytes| :: nibbles[2 * i] == bytes[i] / 16 && nibbles[2 * i + 1] == bytes[i] % 16
  {
    if bytes == [] then [] else
      [bytes[0] / 16, bytes[0] % 16] + UnpackBytes(bytes[1..])
  }

  function Unpack(u: Uuid): Key { UnpackBytes(u) }

  method UnpackKey(u: Uuid) returns (nibbles: Bytes)
    ensures nibbles == Unpack(u)
  {
    nibbles := [];
    for i := 0 to |u|
      invariant |nibbles| == 2 * i
      invariant nibbles == Unpack(u)[..2 * i]
    {
      nibbles := nibbles + [u[i] / 16];
      nibbles := nibbles + [u[i] % 16];
    }
  }

  method PackKey(nibbles: Key) returns (u: Uuid)
    ensures Unpack(u) == nibbles
  {
    var bytes: Bytes := [];
    var i := 0;
    while i < KEY_NIBBLES
      invariant i % 2 == 0 && 0 <= i <= KEY_NIBBLES && |bytes| == i / 2
      invariant forall j | 0 <= j < |bytes| :: bytes[j] == nibbles[2 * j] * 16 + nibbles[2 * j + 1]
    {
      bytes := bytes + [nibbles[i] * 16 + nibbles[i + 1]];
      i := i + 2;
    }
    u := bytes;
    forall k | 0 <= k < KEY_NIBBLES
      ensures Unpack(u)[k] == nibbles[k]
    {
      assert k == 2 * (k / 2) || k == 2 * (k / 2) + 1;
      assert u[k / 2] == nibbles[2 * (k / 2)] * 16 + nibbles[2 * (k / 2) + 1];
    }
  }

  /** Unpacking loses nothing. */
  lemma UnpackInjective(a: Uuid, b: Uuid)
    requires Unpack(a) == Unpack(b)
    ensures a == b
  {
    forall i | 0 <= i < 16
      ensures a[i] == b[i]
    {
      assert a[i] == 16 * Unpack(a)[2 * i] + Unpack(a)[2 * i + 1];
      assert b[i] == 16 * Unpack(b)[2 * i] + Unpack(b)[2 * i + 1];
    }
  }

  /** Bytewise (memcmp) strict order; a proper prefix comes first. */
  predicate Less(a: Bytes, b: Bytes)
  {
    if b == [] then false
    else if a == [] then true
    else a[0] < b[0] || (a[0] == b[0] && Less(a[1..], b[1..]))
  }

  /** The first octet that differs decides; a proper prefix comes first. */
  lemma {:induction false} LessMeans(a: Bytes, b: Bytes)
    ensures Less(a, b) <==> a < b || exists i :: 0 <= i < |a| && i < |b| && a[..i] == b[..i] && a[i] < b[i]
  {
    if a != [] && b != [] {
      LessMeans(a[1..], b[1..]);
      assert a == [a[0]] + a[1..] && b == [b[0]] + b[1..];
      if i :| 0 <= i < |a[1..]| && i < |b[1..]| && a[1..][..i] == b[1..][..i] && a[1..][i] < b[1..][i] && a[0] == b[0] {
        assert a[..i + 1] == [a[0]] + a[1..][..i] && b[..i + 1] == [b[0]] + b[1..][..i];
        assert a[i + 1] < b[i + 1];
      }
      if i :| 0 < i < |a| && i < |b| && a[..i] == b[..i] && a[i] < b[i] {
        assert a[..i][0] == b[..i][0];
        assert a[1..][..i - 1] == a[..i][1..] && b[1..][..i - 1] == b[..i][1..];
        assert a[1..][i - 1] < b[1..][i - 1];
      }
    }
  }

  /** Sorting UUIDs by their octets is sorting their nibble strings. */
  lemma {:induction false} OctetOrderIsNibbleOrder(a: Bytes, b: Bytes)
    ensures Less(a, b) <==> Less(UnpackBytes(a), UnpackBytes(b))
  {
    if a != [] && b != [] {
      OctetOrderIsNibbleOrder(a[1..], b[1..]);
      var na, nb := UnpackBytes(a), UnpackBytes(b);
      assert na[1..][1..] == UnpackBytes(a[1..]) && nb[1..][1..] == UnpackBytes(b[1..]);
      assert na[1..][0] == a[0] % 16 && nb[1..][0] == b[0] % 16;
    }
  }

  lemma {:induction false} LessIrreflexive(a: Bytes)
    ensures !Less(a, a)
  {
    if a != [] {
      LessIrreflexive(a[1..]);
    }
  }

  lemma {:induction false} LessTransitive(a: Bytes, b: Bytes, c: Bytes)
    requires Less(a, b) && Less(b, c)
    ensures Less(a, c)
  {
    if a != [] && a[0] == b[0] == c[0] {
      LessTransitive(a[1..], b[1..], c[1..]);
    }
  }

  lemma {:induction false} LessTotal(a: Bytes, b: Bytes)
    ensures Less(a, b) || a == b || Less(b, a)
  {
    if a != [] && b != [] && a[0] == b[0] {
      LessTotal(a[1..], b[1..]);
      assert a == [a[0]] + a[1..] && b == [b[0]] + b[1..];
    }
  }

  /** The order is decided at the first position where two keys differ. */
  lemma {:induction false} LessAt(a: Bytes, b: Bytes, n: nat)
    requires n < |a| && n < |b| && a[..n] == b[..n] && a[n] != b[n]
    ensures Less(a, b) <==> a[n] < b[n]
  {
    if n > 0 {
      assert a[0] == a[..n][0] == b[..n][0] == b[0];
      assert a[1..][..n - 1] == a[..n][1..] == b[..n][1..] == b[1..][..n - 1];
      LessAt(a[1..], b[1..], n - 1);
    }
  }
}
