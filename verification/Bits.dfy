/** The bits of a sixteen-bit word. */
module Bits {

  function Half(w: bv16): bv16 { w >> 1 }
  predicate Odd(w: bv16) { w & 1 == 1 }
  function Xor(u: bv16, v: bv16): bv16 { u ^ v }
  function Both(u: bv16, v: bv16): bv16 { u & v }

  /** Bit `i` of a word, the least significant being bit 0. */
  predicate BitOf(w: bv16, i: nat)
    decreases i
  {
    if i == 0 then Odd(w) else BitOf(Half(w), i - 1)
  }

  lemma {:induction false} XorBits(u: bv16, v: bv16, i: nat)
    ensures BitOf(Xor(u, v), i) <==> BitOf(u, i) != BitOf(v, i)
    decreases i
  {
    XorOnce(u, v);
    hide Half, Odd, Xor;
    if i > 0 {
      XorBits(Half(u), Half(v), i - 1);
    }
  }

  lemma XorOnce(u: bv16, v: bv16)
    ensures Half(Xor(u, v)) == Xor(Half(u), Half(v))
    ensures Odd(Xor(u, v)) <==> Odd(u) != Odd(v)
  {
  }

  lemma {:induction false} ZeroBits(i: nat)
    ensures !BitOf(0, i)
  {
    assert Half(0) == 0 && !Odd(0);
    hide Half, Odd;
    if i > 0 {
      ZeroBits(i - 1);
    }
  }

  /** Words that agree under a mask agree in the bits of the mask. */
  lemma {:induction false} SameBits(v: bv16, w: bv16, mask: bv16, i: nat)
    requires Both(v, mask) == Both(w, mask) && BitOf(mask, i)
    ensures BitOf(v, i) <==> BitOf(w, i)
  {
    SameOnce(v, w, mask);
    hide Half, Odd, Both;
    if i > 0 {
      SameBits(Half(v), Half(w), Half(mask), i - 1);
    }
  }

  lemma SameOnce(v: bv16, w: bv16, mask: bv16)
    requires Both(v, mask) == Both(w, mask)
    ensures Both(Half(v), Half(mask)) == Both(Half(w), Half(mask))
    ensures Odd(mask) ==> (Odd(v) <==> Odd(w))
  {
  }

  // ------------------------------------------------------------------
  // Two bytes
  // ------------------------------------------------------------------

  function Pair(high: bv8, low: bv8): bv16 {
    (high as bv16 << 8) | low as bv16
  }

  /** Bit `i` of a byte. */
  predicate ByteBit(b: bv8, i: nat) { BitOf(b as bv16, i) }

  /** Bits eight and up of a word of two bytes are those of the first, the others
      those of the second. */
  lemma PairBits(high: bv8, low: bv8, i: nat)
    requires i < 16
    ensures BitOf(Pair(high, low), i) <==> if i < 8 then ByteBit(low, i) else ByteBit(high, i - 8)
  {
    var w := Pair(high, low);
    Halves(w);
    PairParts(high, low);
    LowMask(i);
    hide Half, Odd, Both, Pair;
    if i < 8 {
      SameBits(w, low as bv16, 0xff, i);
    } else {
      Shifted(w, i - 8);
    }
  }

  function Halved8(w: bv16): bv16 { Half(Half(Half(Half(Half(Half(Half(Half(w)))))))) }

  lemma Halves(w: bv16)
    ensures Halved8(w) == w >> 8
  {
  }

  lemma Shifted(w: bv16, i: nat)
    ensures BitOf(w, i + 8) <==> BitOf(Halved8(w), i)
  {
    hide Half, Odd;
    var a := Half(Half(w));
    assert BitOf(w, i + 8) == BitOf(Half(w), i + 7) == BitOf(a, i + 6);
    var b := Half(Half(a));
    assert BitOf(a, i + 6) == BitOf(Half(a), i + 5) == BitOf(b, i + 4);
    var c := Half(Half(b));
    assert BitOf(b, i + 4) == BitOf(Half(b), i + 3) == BitOf(c, i + 2);
    assert BitOf(c, i + 2) == BitOf(Half(c), i + 1) == BitOf(Half(Half(c)), i);
  }

  lemma PairParts(high: bv8, low: bv8)
    ensures Pair(high, low) >> 8 == high as bv16
    ensures Both(Pair(high, low), 0xff) == Both(low as bv16, 0xff)
  {
  }

  lemma LowMask(i: nat)
    ensures i < 8 ==> BitOf(0xff, i)
  {
    MaskHalves();
    hide Half, Odd;
    if i > 0 { assert BitOf(0xff, i) == BitOf(0x7f, i - 1); }
    if i > 1 { assert BitOf(0x7f, i - 1) == BitOf(0x3f, i - 2); }
    if i > 2 { assert BitOf(0x3f, i - 2) == BitOf(0x1f, i - 3); }
    if i > 3 { assert BitOf(0x1f, i - 3) == BitOf(0xf, i - 4); }
    if i > 4 { assert BitOf(0xf, i - 4) == BitOf(7, i - 5); }
    if i > 5 { assert BitOf(7, i - 5) == BitOf(3, i - 6); }
    if i > 6 { assert BitOf(3, i - 6) == BitOf(1, i - 7); }
  }

  lemma MaskHalves()
    ensures Odd(0xff) && Odd(0x7f) && Odd(0x3f) && Odd(0x1f) && Odd(0xf) && Odd(7) && Odd(3) && Odd(1)
    ensures Half(0xff) == 0x7f && Half(0x7f) == 0x3f && Half(0x3f) == 0x1f && Half(0x1f) == 0xf
    ensures Half(0xf) == 7 && Half(7) == 3 && Half(3) == 1
  {
  }
}
