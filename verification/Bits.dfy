/** The binary digits of a word, and what the operators of C do to each. */
module Bits {
  import opened Words

  /** The i-th binary digit. */
  function Bit(v: nat, i: nat): nat { Hi(v, i) % 2 }

  lemma DigitAndHalf(x: nat, d: nat, h: nat)
    requires x == d + 2 * h && d <= 1
    ensures x % 2 == d && x / 2 == h
  {}

  lemma AndParts(a: nat, b: nat)
    ensures And(a, b) % 2 == (if a % 2 == 1 && b % 2 == 1 then 1 else 0) && And(a, b) / 2 == And(a / 2, b / 2)
  {
    var d, h := if a % 2 == 1 && b % 2 == 1 then 1 else 0, And(a / 2, b / 2);
    AndUnfold(a, b);
    DigitAndHalf(And(a, b), d, h);
  }

  lemma OrParts(a: nat, b: nat)
    ensures Or(a, b) % 2 == (if a % 2 == 1 || b % 2 == 1 then 1 else 0) && Or(a, b) / 2 == Or(a / 2, b / 2)
  {
    var d, h := if a % 2 == 1 || b % 2 == 1 then 1 else 0, Or(a / 2, b / 2);
    OrUnfold(a, b);
    DigitAndHalf(Or(a, b), d, h);
  }

  lemma XorParts(a: nat, b: nat)
    ensures Xor(a, b) % 2 == (if a % 2 != b % 2 then 1 else 0) && Xor(a, b) / 2 == Xor(a / 2, b / 2)
  {
    var d, h := if a % 2 != b % 2 then 1 else 0, Xor(a / 2, b / 2);
    XorUnfold(a, b);
    DigitAndHalf(Xor(a, b), d, h);
  }

  lemma {:induction false} BitAnd(a: nat, b: nat, i: nat)
    ensures Bit(And(a, b), i) == if Bit(a, i) == 1 && Bit(b, i) == 1 then 1 else 0
  {
    AndParts(a, b);
    if i > 0 {
      BitAnd(a / 2, b / 2, i - 1);
    }
  }

  lemma {:induction false} BitOr(a: nat, b: nat, i: nat)
    ensures Bit(Or(a, b), i) == if Bit(a, i) == 1 || Bit(b, i) == 1 then 1 else 0
  {
    OrParts(a, b);
    if i > 0 {
      BitOr(a / 2, b / 2, i - 1);
    }
  }

  lemma {:induction false} BitXor(a: nat, b: nat, i: nat)
    ensures Bit(Xor(a, b), i) == if Bit(a, i) != Bit(b, i) then 1 else 0
  {
    XorParts(a, b);
    if i > 0 {
      BitXor(a / 2, b / 2, i - 1);
    }
  }

  lemma {:induction false} BitHi(v: nat, s: nat, i: nat)
    ensures Bit(Hi(v, s), i) == Bit(v, s + i)
  {
    if s > 0 { BitHi(v / 2, s - 1, i); }
  }

  lemma {:induction false} BitUp(v: nat, s: nat, i: nat)
    ensures Bit(Up(v, s), i) == if i < s then 0 else Bit(v, i - s)
  {
    if s > 0 {
      UpParity(v, s);
      if i > 0 { BitUp(v, s - 1, i - 1); }
    }
  }

  lemma {:induction false} BitLo(v: nat, w: nat, i: nat)
    ensures Bit(Lo(v, w), i) == if i < w then Bit(v, i) else 0
  {
    if w == 0 {
      BitZero(i);
    } else {
      HalfOfSum(v % 2, Lo(v / 2, w - 1));
      if i > 0 { BitLo(v / 2, w - 1, i - 1); }
    }
  }

  lemma {:induction false} BitZero(i: nat)
    ensures Bit(0, i) == 0
  {
    if i > 0 { BitZero(i - 1); }
  }

  lemma {:induction false} BitNot(m: nat, w: nat, i: nat)
    requires m < Pow2(w) && i < w
    ensures Bit(Not(m, w), i) == 1 - Bit(m, i)
  {
    if i > 0 {
      BitNot(m / 2, w - 1, i - 1);
      assert Not(m, w) / 2 == Not(m / 2, w - 1);
    }
  }

  lemma {:induction false} BitsDecide(v: nat, u: nat, w: nat)
    requires v < Pow2(w) && u < Pow2(w) && forall i :: 0 <= i < w ==> Bit(v, i) == Bit(u, i)
    ensures v == u
  {
    if w > 0 {
      assert Bit(v, 0) == Bit(u, 0);
      forall i | 0 <= i < w - 1 ensures Bit(v / 2, i) == Bit(u / 2, i) {
        assert Bit(v, i + 1) == Bit(u, i + 1);
      }
      BitsDecide(v / 2, u / 2, w - 1);
    }
  }

  lemma {:induction false} BitwiseBelow(a: nat, b: nat, w: nat)
    requires a < Pow2(w) && b < Pow2(w)
    ensures And(a, b) < Pow2(w) && Or(a, b) < Pow2(w) && Xor(a, b) < Pow2(w)
  {
    AndParts(a, b);
    OrParts(a, b);
    XorParts(a, b);
    if w > 0 {
      BitwiseBelow(a / 2, b / 2, w - 1);
    }
  }

  lemma {:induction false} BitOne(i: nat)
    ensures Bit(1, i) == if i == 0 then 1 else 0
  {
    if i > 0 {
      BitZero(i - 1);
    }
  }

  /** The digit of a power of two. */
  lemma BitPower(k: nat, i: nat)
    ensures Bit(Up(1, k), i) == if i == k then 1 else 0
  {
    BitUp(1, k, i);
    if i >= k {
      BitOne(i - k);
    }
  }

  lemma LoParts(a: nat, k: nat)
    requires k > 0
    ensures Lo(a, k) % 2 == a % 2 && Lo(a, k) / 2 == Lo(a / 2, k - 1)
  {
    HalfOfSum(a % 2, Lo(a / 2, k - 1));
  }

  lemma {:induction false} OrSplit(a: nat, b: nat, k: nat)
    ensures Or(a, b) == Or(Lo(a, k), Lo(b, k)) + Up(Or(Hi(a, k), Hi(b, k)), k)
  {
    if k > 0 {
      OrParts(a, b);
      OrSplit(a / 2, b / 2, k - 1);
      LoParts(a, k);
      LoParts(b, k);
      OrParts(Lo(a, k), Lo(b, k));
    }
  }

  lemma {:induction false} XorSplit(a: nat, b: nat, k: nat)
    ensures Xor(a, b) == Xor(Lo(a, k), Lo(b, k)) + Up(Xor(Hi(a, k), Hi(b, k)), k)
  {
    if k > 0 {
      XorParts(a, b);
      XorSplit(a / 2, b / 2, k - 1);
      LoParts(a, k);
      LoParts(b, k);
      XorParts(Lo(a, k), Lo(b, k));
    }
  }

  // ---------------------------------------------------------------- masks of repeated groups

  /** n groups of g ones, with g zeros after each. */
  function Mask(g: nat, n: nat): nat {
    if n == 0 then 0 else Pow2(g) - 1 + Up(Mask(g, n - 1), 2 * g)
  }

  lemma AndMaskStep(y: nat, g: nat, m: nat)
    ensures And(y, Pow2(g) - 1 + Up(m, 2 * g)) == Lo(y, g) + Up(And(Hi(y, 2 * g), m), 2 * g)
  {
    var b := Pow2(g) - 1 + Up(m, 2 * g);
    PowMono(g, 2 * g);
    LoHiUnique(b, 2 * g, Pow2(g) - 1, m);
    AndSplit(y, b, 2 * g);
    AndMask(Lo(y, 2 * g), g);
    LoLo(y, g, g);
  }

  /** AndMaskStep with names for its parts. */
  lemma MaskedPart(y: nat, g: nat, k: nat, m: nat, mask: nat)
    requires k == 2 * g && mask == Pow2(g) - 1 + Up(m, k)
    ensures And(y, mask) == Lo(y, g) + Up(And(Hi(y, k), m), k)
  {
    AndMaskStep(y, g, m);
  }

  lemma MaskOne(n: nat)
    requires n >= 1
    ensures Mask(1, n) == 1 + 4 * Mask(1, n - 1)
  {
    UpByTwo(Mask(1, n - 1));
    assert Pow2(1) == 2;
  }

  lemma MaskTwo(n: nat)
    requires n >= 1
    ensures Mask(2, n) == 3 + 16 * Mask(2, n - 1)
  {
    UpByFour(Mask(2, n - 1));
    assert Pow2(2) == 4;
  }

  lemma MaskFour(n: nat)
    requires n >= 1
    ensures Mask(4, n) == 15 + 256 * Mask(4, n - 1)
  {
    UpByEight(Mask(4, n - 1));
    assert Pow2(4) == 16;
  }

  lemma MaskOneDouble(n: nat)
    ensures Mask(1, n + 4) == 0x55 + 256 * Mask(1, n)
  {
    MaskOne(n + 1);
    MaskOne(n + 2);
    MaskOne(n + 3);
    MaskOne(n + 4);
  }

  lemma MaskTwoDouble(n: nat)
    ensures Mask(2, n + 2) == 0x33 + 256 * Mask(2, n)
  {
    MaskTwo(n + 1);
    MaskTwo(n + 2);
  }
}
