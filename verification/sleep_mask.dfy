/**
 * The EXT1 wake mask built in `goToDeepSleep()`: the OR of `1ULL << pin`
 * over the four button pins, a 64-bit unsigned value.
 */
module SleepMask {
  import opened Config

  /** `1ULL << p`; a 6-bit shift amount is always below the width of the mask. */
  function PinBit(p: bv6): bv64
  {
    1 << p
  }

  /** Bit p of mask m is set. */
  predicate BitSet(m: bv64, p: bv6)
  {
    (m >> p) & 1 == 1
  }

  /** Reference definition: the OR of `1 << p` over any list of pins. */
  function PinMask(pins: seq<bv6>): bv64
  {
    if pins == [] then 0 else PinMask(pins[..|pins| - 1]) | PinBit(pins[|pins| - 1])
  }

  /** `1 << q` has bit q and no other bit. */
  lemma PinBitOnly(q: bv6, p: bv6)
    ensures BitSet(PinBit(q), p) <==> p == q
  {
  }

  /** A bit of an OR is set exactly when it is set in one of the operands. */
  lemma BitSetOr(a: bv64, b: bv64, p: bv6)
    ensures BitSet(a | b, p) <==> BitSet(a, p) || BitSet(b, p)
  {
  }

  /** ORing in the bit of pin q sets bit q and leaves every other bit as it was. */
  lemma BitSetOrPin(m: bv64, q: bv6, p: bv6)
    ensures BitSet(m | PinBit(q), p) <==> BitSet(m, p) || p == q
  {
    BitSetOr(m, PinBit(q), p);
    PinBitOnly(q, p);
  }

  /** The mask of a pin list has bit p set if and only if p is in the list. */
  lemma {:induction false} PinMaskBits(pins: seq<bv6>, p: bv6)
    ensures BitSet(PinMask(pins), p) <==> p in pins
  {
    if pins != [] {
      var init, last := pins[..|pins| - 1], pins[|pins| - 1];
      assert pins == init + [last];
      assert (p in pins) == (p in init || p == last);
      var m := PinMask(init);
      assert PinMask(pins) == m | PinBit(last);
      PinMaskBits(init, p);
      BitSetOrPin(m, last, p);
    }
  }

  /** The same for every bit at once. */
  lemma PinMaskAllBits(pins: seq<bv6>)
    ensures forall p: bv6 :: BitSet(PinMask(pins), p) <==> p in pins
  {
    forall p: bv6
      ensures BitSet(PinMask(pins), p) <==> p in pins
    {
      PinMaskBits(pins, p);
    }
  }

  /**
   * The mask exactly as the sketch writes it: four shifted bits ORed together.
   * It is the reference mask of the button pins, so of its 64 bits exactly
   * those numbered by a button pin are set.
   */
  function WakeMask(): (m: bv64)
    ensures m == PinMask(ButtonPins)
    ensures forall p: bv6 :: BitSet(m, p) <==> p in ButtonPins
  {
    var s := ButtonPins;
    assert s[..3][..2][..1][..0] == [];
    assert PinMask(s[..1]) == PinBit(s[0]);
    assert PinMask(s[..2]) == PinBit(s[0]) | PinBit(s[1]) by {
      assert s[..2][..1] == s[..1];
    }
    assert PinMask(s[..3]) == PinBit(s[0]) | PinBit(s[1]) | PinBit(s[2]) by {
      assert s[..3][..2] == s[..2];
    }
    assert PinMask(s) == PinBit(s[0]) | PinBit(s[1]) | PinBit(s[2]) | PinBit(s[3]) by {
      assert s[..3] == s[..|s| - 1];
    }
    PinMaskAllBits(s);
    PinBit(s[0]) | PinBit(s[1]) | PinBit(s[2]) | PinBit(s[3])
  }
}
