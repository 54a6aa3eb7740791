/**
 * The 16-bit Galois LFSR behind `rand16` (main.cpp:61-66) and the one-shot
 * timer seeding of `seed_rng_once` (main.cpp:67-69), as functions on the
 * register value. The class in module Firmware holds the register itself.
 */
module Lfsr {
  /** Power-on value of `lfsr` (main.cpp:58). */
  const Initial: bv16 := 0xACE1

  /** Feedback mask for taps 16, 14, 13, 11. */
  const Taps: bv16 := 0xB400

  /** One `rand16` step: shift right, and fold the taps in when bit 0 fell out. */
  function Step(s: bv16): (r: bv16)
    ensures r == 0 <==> s == 0
  {
    var lsb := s & 1;
    var shifted := s >> 1;
    if lsb == 1 then shifted ^ Taps else shifted
  }

  /** The state before `r`: bit 15 of `r` tells whether the taps were folded in. */
  function Unstep(r: bv16): (s: bv16)
    ensures Step(s) == r
  {
    if r & 0x8000 != 0 then ((r ^ Taps) << 1) | 1 else r << 1
  }

  /** `Step` is a bijection on 16-bit states: every state has one predecessor. */
  lemma StepInjective(s: bv16)
    ensures Unstep(Step(s)) == s
  {
  }

  /** The state after `n` calls of `rand16`. */
  function Steps(s: bv16, n: nat): bv16
  {
    if n == 0 then s else Step(Steps(s, n - 1))
  }

  /** A non-zero register never reaches the all-zero state, however long it runs. */
  lemma {:induction false} StepsNonZero(s: bv16, n: nat)
    requires s != 0
    ensures Steps(s, n) != 0
  {
    if n > 0 {
      StepsNonZero(s, n - 1);
    }
  }

  /** The zero state is a fixed point: the generator would stall there. */
  lemma {:induction false} StepsZero(n: nat)
    ensures Steps(0, n) == 0
  {
    if n > 0 {
      StepsZero(n - 1);
    }
  }

  /** `lfsr ^= (uint16_t)TCNT0`: the 8-bit counter value XORed into the low byte. */
  function Reseed(s: bv16, tcnt: bv8): (r: bv16)
    ensures r >> 8 == s >> 8
  {
    s ^ (tcnt as bv16)
  }

  /**
   * Seeding the power-on value keeps its high byte 0xAC, so the seeded
   * register is never zero whatever the counter reads.
   */
  lemma ReseedInitial(tcnt: bv8)
    ensures Reseed(Initial, tcnt) >> 8 == 0xAC
    ensures Reseed(Initial, tcnt) != 0
  {
  }
}
