/** Sequence-number arithmetic of babeld/util.h: 16-bit counters compared
    modulo 2^16. */
module Seqno {

  type u16 = x: int | 0 <= x < 0x10000

  /** Positive when `s1` is newer than `s2`; bit 15 of the difference decides. */
  function SeqnoCompare(s1: u16, s2: u16): int {
    if s1 == s2 then 0
    else if (s2 - s1) % 0x10000 >= 0x8000 then 1
    else -1
  }

  /** The difference as a signed 16-bit value. */
  function SeqnoMinus(s1: u16, s2: u16): int {
    var d := (s1 - s2) % 0x10000;
    if d >= 0x8000 then d - 0x10000 else d
  }

  function SeqnoPlus(s: u16, plus: int): u16 {
    (s + plus) % 0x10000
  }

  /** How far `s` lies ahead of `base`. */
  function Offset(s: u16, base: u16): u16 {
    (s - base) % 0x10000
  }

  /** Seen from `base`, `s` lies in the half circle where comparison is an order. */
  predicate InWindow(s: u16, base: u16) {
    Offset(s, base) < 0x8000
  }

  /** Inside one half circle the modular comparison is the integer order of offsets. */
  lemma CompareIsOffsetOrder(s1: u16, s2: u16, base: u16)
    requires InWindow(s1, base) && InWindow(s2, base)
    ensures SeqnoCompare(s1, s2) > 0 <==> Offset(s1, base) > Offset(s2, base)
    ensures SeqnoCompare(s1, s2) == 0 <==> Offset(s1, base) == Offset(s2, base)
  {
    var o1: int, o2: int := Offset(s1, base), Offset(s2, base);
    assert (s2 - s1) % 0x10000 == (o2 - o1) % 0x10000 by {
      assert s1 - base - o1 == 0x10000 * ((s1 - base) / 0x10000);
      assert s2 - base - o2 == 0x10000 * ((s2 - base) / 0x10000);
      var k := (s2 - base) / 0x10000 - (s1 - base) / 0x10000;
      assert s2 - s1 == o2 - o1 + 0x10000 * k;
    }
  }

  /** The comparison is antisymmetric except at distance exactly 2^15, where both
      numbers claim to be newer; it agrees with the signed difference elsewhere. */
  lemma CompareAntisymmetry(s1: u16, s2: u16)
    ensures SeqnoCompare(s1, s2) + SeqnoCompare(s2, s1) != 0 <==> Offset(s1, s2) == 0x8000
    ensures Offset(s1, s2) != 0x8000 ==> (SeqnoCompare(s1, s2) > 0 <==> SeqnoMinus(s1, s2) > 0)
    ensures SeqnoMinus(SeqnoPlus(s1, 1), s1) == 1 && SeqnoCompare(SeqnoPlus(s1, 1), s1) > 0
  {
    if s1 >= s2 {
      assert (s1 - s2) % 0x10000 == s1 - s2;
      assert (s2 - s1) % 0x10000 == if s1 == s2 then 0 else 0x10000 - (s1 - s2);
    } else {
      assert (s2 - s1) % 0x10000 == s2 - s1;
      assert (s1 - s2) % 0x10000 == 0x10000 - (s2 - s1);
    }
  }
}
