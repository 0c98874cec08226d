/** Byte strings and the C library's memcmp. */
module Bytes {

  type byte = x: int | 0 <= x < 256

  /** Lexicographic comparison; on strings of the same length the sign of memcmp. */
  function Memcmp(a: seq<byte>, b: seq<byte>): int {
    if a == [] then (if b == [] then 0 else -1)
    else if b == [] then 1
    else if a[0] < b[0] then -1
    else if a[0] > b[0] then 1
    else Memcmp(a[1..], b[1..])
  }

  /** It is antisymmetric, and zero only on equal strings. */
  lemma {:induction false} MemcmpAntisymmetric(a: seq<byte>, b: seq<byte>)
    ensures Memcmp(a, b) == -Memcmp(b, a)
    ensures Memcmp(a, b) == 0 <==> a == b
  {
    if a != [] && b != [] {
      MemcmpAntisymmetric(a[1..], b[1..]);
      assert a == [a[0]] + a[1..] && b == [b[0]] + b[1..];
    }
  }

  lemma {:induction false} MemcmpTransitive(a: seq<byte>, b: seq<byte>, c: seq<byte>)
    requires Memcmp(a, b) <= 0 && Memcmp(b, c) <= 0
    ensures Memcmp(a, c) <= 0
    ensures Memcmp(a, b) < 0 || Memcmp(b, c) < 0 ==> Memcmp(a, c) < 0
  {
    if a != [] && b != [] && c != [] && a[0] == b[0] == c[0] {
      MemcmpTransitive(a[1..], b[1..], c[1..]);
    }
  }

  /** Two bytes in network order (accumulate_short, DO_HTONS). */
  function Short(x: int): seq<byte>
    requires 0 <= x < 0x10000
  {
    [x / 256, x % 256]
  }

  /** DO_NTOHS */
  function GetShort(b: seq<byte>): (x: int)
    requires |b| >= 2
    ensures 0 <= x < 0x10000
  {
    var hi: int, lo: int := b[0], b[1];
    hi * 256 + lo
  }

  lemma GetShortOfShort(x: int, rest: seq<byte>)
    requires 0 <= x < 0x10000
    ensures GetShort(Short(x) + rest) == x
  {
  }

  function Zeros(n: nat): (z: seq<byte>)
    ensures |z| == n && forall i | 0 <= i < n :: z[i] == 0
  {
    seq(n, _ => 0)
  }
}
