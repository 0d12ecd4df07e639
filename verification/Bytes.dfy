/** Octets, byte strings, and the few bit operations the client performs on them. */
module Bytes {

  type Byte = x: int | 0 <= x < 256

  datatype Option<+T> = None | Some(value: T)

  /** Bit `k` of `x`, the test the source writes as `x & (1 << k)`. */
  predicate Bit(x: nat, k: nat) {
    x / Pow2(k) % 2 == 1
  }

  function Pow2(k: nat): (r: nat)
    ensures r > 0
  {
    if k == 0 then 1 else 2 * Pow2(k - 1)
  }

  /** The unsigned big-endian value of a byte string. */
  function BigEndian(s: seq<Byte>): nat {
    if s == [] then 0 else 256 * BigEndian(s[..|s| - 1]) + s[|s| - 1]
  }

  /** The signed 32-bit reading of an unsigned 32-bit value. */
  function Signed32(x: nat): int {
    if x % 0x1_0000_0000 < 0x8000_0000 then x % 0x1_0000_0000 else x % 0x1_0000_0000 - 0x1_0000_0000
  }

  function Concat<T>(parts: seq<seq<T>>): seq<T> {
    if parts == [] then [] else parts[0] + Concat(parts[1..])
  }

  lemma {:induction false} ConcatAppend<T>(a: seq<seq<T>>, b: seq<seq<T>>)
    ensures Concat(a + b) == Concat(a) + Concat(b)
  {
    if a == [] {
      assert a + b == b;
    } else {
      assert (a + b)[1..] == a[1..] + b;
      ConcatAppend(a[1..], b);
    }
  }

  /** Splitting an extended string inside its old part. */
  lemma SplitExtended<T>(a: seq<T>, b: seq<T>, n: nat)
    requires n <= |a|
    ensures (a + b)[..n] == a[..n]
    ensures (a + b)[n..] == a[n..] + b
  {
  }

  lemma BigEndian2(s: seq<Byte>)
    requires |s| == 2
    ensures BigEndian(s) == 256 * (s[0] as int) + s[1]
  {
    assert s[..1][..0] == [];
    assert BigEndian(s[..1]) == s[0];
  }

  lemma BigEndian4(s: seq<Byte>)
    requires |s| == 4
    ensures BigEndian(s)
         == 0x100_0000 * (s[0] as int) + 0x1_0000 * (s[1] as int) + 256 * (s[2] as int) + s[3]
  {
    assert s[..3][..2] == s[..2];
    BigEndian2(s[..2]);
    assert BigEndian(s[..3]) == 256 * BigEndian(s[..2]) + s[2];
  }
}
