/** The bit reversal of dict.c by successive halving, on words of 2^e bits. */
module BitReverse {
  import opened Words
  import opened Bits
  import opened Cursor

  /** Rev puts digit w-1-i at position i. */
  lemma {:induction false} RevBit(v: nat, w: nat, i: nat)
    requires i < w
    ensures Bit(Rev(v, w), i) == Bit(v, w - 1 - i)
  {
    var x := Rev(v / 2, w - 1);
    RevBelow(v / 2, w - 1);
    LoHiUnique(Rev(v, w), w - 1, x, v % 2);
    if i == w - 1 {
    } else {
      BitLo(Rev(v, w), w - 1, i);
      RevBit(v / 2, w - 1, i);
    }
  }

  // ---------------------------------------------------------------- positions

  /** Where the digit at position i of a word of 2^(f+j) digits comes from once its 2^j blocks of 2^f
      digits are in reverse order: the block number is complemented. */
  function Source(i: nat, f: nat, j: nat): nat
    requires Hi(i, f) < Pow2(j)
  {
    Lo(i, f) + Up(Pow2(j) - 1 - Hi(i, f), f)
  }

  /** One more digit goes from the high to the low part. */
  lemma DigitParts(x: nat, g: nat)
    ensures Lo(x, g + 1) == Lo(x, g) + Up(Hi(x, g) % 2, g) && Hi(x, g + 1) == Hi(x, g) / 2
  {
    var h := Hi(x, g);
    LoHi(x, g);
    UpAdd(h % 2, 2 * (h / 2), g);
    UpHalf(h / 2, g + 1);
    UpMono(h % 2, 1, g);
    LoHiUnique(x, g + 1, Lo(x, g) + Up(h % 2, g), h / 2);
  }

  lemma PartsBelow(lo: nat, hi: nat, f: nat, j: nat)
    requires lo < Pow2(f) && hi < Pow2(j)
    ensures lo + Up(hi, f) < Pow2(f + j)
  {
    UpAdd(hi, 1, f);
    UpMono(hi + 1, Pow2(j), f);
    UpUp(1, j, f);
  }

  /** The position u that differs from i in digit g alone. */
  lemma FlipParts(i: nat, u: nat, g: nat)
    requires var t := Hi(i, g) % 2; if t == 0 then u == i + Pow2(g) else u + Pow2(g) == i
    ensures Hi(u, g + 1) == Hi(i, g + 1) && Lo(u, g + 1) == Lo(i, g) + Up(1 - Hi(i, g) % 2, g)
  {
    var h, t := Hi(i, g), Hi(i, g) % 2;
    LoHi(i, g);
    var h' := if t == 0 then h + 1 else h - 1;
    UpAdd(if t == 0 then h else h', 1, g);
    LoHiUnique(u, g, Lo(i, g), h');
    DigitParts(u, g);
    DigitParts(i, g);
  }

  lemma FlipBelow(i: nat, u: nat, g: nat, j: nat)
    requires i < Pow2(g + 1 + j) && Hi(u, g + 1) == Hi(i, g + 1)
    ensures u < Pow2(g + 1 + j) && Hi(i, g + 1) < Pow2(j)
  {
    HiBelow(i, g + 1, j);
    LoHi(u, g + 1);
    PartsBelow(Lo(u, g + 1), Hi(u, g + 1), g + 1, j);
  }

  /** Halving the blocks: a digit comes from where its neighbour came from before. */
  lemma SplitSource(i: nat, u: nat, g: nat, j: nat)
    requires i < Pow2(g + 1 + j)
    requires if Hi(i, g) % 2 == 0 then u == i + Pow2(g) else u + Pow2(g) == i
    ensures u < Pow2(g + 1 + j) && Hi(u, g + 1) < Pow2(j) && Hi(i, g) < Pow2(j + 1)
    ensures Source(i, g, j + 1) == Source(u, g + 1, j)
  {
    FlipParts(i, u, g);
    FlipBelow(i, u, g, j);
    DigitParts(i, g);
    UpPair(1 - Hi(i, g) % 2, Pow2(j) - 1 - Hi(i, g + 1), g);
  }

  lemma UpPair(t: nat, r: nat, g: nat)
    ensures Up(t + 2 * r, g) == Up(t, g) + Up(r, g + 1)
  {
    UpAdd(t, 2 * r, g);
    UpHalf(r, g + 1);
  }

  /** The position 2^g below one in an even block of 2^g digits lies in the block before. */
  lemma EvenBefore(i: nat, g: nat)
    requires Hi(i, g) % 2 == 0
    ensures i >= Pow2(g) <==> Hi(i, g + 1) > 0
    ensures i >= Pow2(g) ==> Hi(i - Pow2(g), g + 1) == Hi(i, g + 1) - 1
  {
    var h := Hi(i, g);
    LoHi(i, g);
    DigitParts(i, g);
    if h > 0 {
      UpAdd(h - 1, 1, g);
      LoHiUnique(i - Pow2(g), g, Lo(i, g), h - 1);
      DigitParts(i - Pow2(g), g);
    } else {
      UpZero(g);
    }
  }

  /** The position 2^g below one in an odd block lies in the same pair of blocks. */
  lemma OddBefore(i: nat, g: nat)
    requires Hi(i, g) % 2 == 1
    ensures i >= Pow2(g) && Hi(i - Pow2(g), g + 1) == Hi(i, g + 1)
  {
    LoHi(i, g);
    UpMono(1, Hi(i, g), g);
    FlipParts(i, i - Pow2(g), g);
  }

  // ---------------------------------------------------------------- rounds

  /** The mask in force when blocks of 2^f digits are in place: every other block. */
  ghost predicate MaskFor(mask: nat, f: nat, w: nat) { forall i :: 0 <= i < w ==> MaskAt(mask, i, f) }

  ghost predicate MaskAt(mask: nat, i: nat, f: nat) { Bit(mask, i) == if Hi(i, f) % 2 == 0 then 1 else 0 }

  /** Digit i is the one that its source has in the word. */
  ghost predicate FromSource(v: nat, word: nat, i: nat, f: nat, j: nat) {
    Hi(i, f) < Pow2(j) && Bit(v, i) == Bit(word, Source(i, f, j))
  }

  ghost predicate BlocksReversed(v: nat, word: nat, f: nat, j: nat, w: nat) {
    forall i :: 0 <= i < w ==> FromSource(v, word, i, f, j)
  }

  lemma ShiftedXor(mask: nat, i: nat, s: nat, w: nat)
    requires i < w
    ensures Bit(Xor(mask, Lo(Up(mask, s), w)), i)
            == if Bit(mask, i) == (if i >= s then Bit(mask, i - s) else 0) then 0 else 1
  {
    BitXor(mask, Lo(Up(mask, s), w), i);
    BitLo(Up(mask, s), w, i);
    BitUp(mask, s, i);
  }

  lemma MaskDigit(mask: nat, i: nat, g: nat, s: nat, w: nat)
    requires s == Pow2(g) && i < w && MaskAt(mask, i, g + 1) && (i >= s ==> MaskAt(mask, i - s, g + 1))
    ensures MaskAt(Xor(mask, Lo(Up(mask, s), w)), i, g)
  {
    ShiftedXor(mask, i, s, w);
    if Hi(i, g) % 2 == 0 { EvenBefore(i, g); } else { OddBefore(i, g); }
  }

  /** One round on the mask: `mask ^= mask << s`. */
  lemma MaskRound(mask: nat, g: nat, s: nat, w: nat)
    requires s == Pow2(g) && MaskFor(mask, g + 1, w)
    ensures MaskFor(Xor(mask, Lo(Up(mask, s), w)), g, w)
  {
    var mask' := Xor(mask, Lo(Up(mask, s), w));
    forall i | 0 <= i < w ensures MaskAt(mask', i, g) {
      MaskDigit(mask, i, g, s, w);
    }
  }

  /** `((v >> s) & mask) | ((v << s) & ~mask)`. */
  function Swapped(v: nat, mask: nat, s: nat, w: nat): nat
    requires mask < Pow2(w)
  {
    Or(And(Hi(v, s), mask), And(Lo(Up(v, s), w), Not(mask, w)))
  }

  /** A digit of the swapped word: from above where the mask is set, from below elsewhere. */
  lemma SwappedDigit(v: nat, mask: nat, i: nat, s: nat, w: nat)
    requires mask < Pow2(w) && i < w
    ensures Bit(mask, i) == 1 ==> Bit(Swapped(v, mask, s, w), i) == Bit(v, i + s)
    ensures Bit(mask, i) == 0 && i >= s ==> Bit(Swapped(v, mask, s, w), i) == Bit(v, i - s)
  {
    BitOr(And(Hi(v, s), mask), And(Lo(Up(v, s), w), Not(mask, w)), i);
    BitAnd(Hi(v, s), mask, i);
    BitAnd(Lo(Up(v, s), w), Not(mask, w), i);
    BitHi(v, s, i);
    BitLo(Up(v, s), w, i);
    BitUp(v, s, i);
    BitNot(mask, w, i);
  }

  lemma SwapDigit(v: nat, word: nat, mask: nat, i: nat, g: nat, j: nat, s: nat, w: nat)
    requires s == Pow2(g) && w == Pow2(g + 1 + j) && mask < Pow2(w) && i < w
    requires MaskFor(mask, g, w) && BlocksReversed(v, word, g + 1, j, w)
    ensures FromSource(Swapped(v, mask, s, w), word, i, g, j + 1)
  {
    SwappedDigit(v, mask, i, s, w);
    assert MaskAt(mask, i, g);
    if Hi(i, g) % 2 == 0 {
      SplitSource(i, i + s, g, j);
      assert FromSource(v, word, i + s, g + 1, j);
    } else {
      OddBefore(i, g);
      SplitSource(i, i - s, g, j);
      assert FromSource(v, word, i - s, g + 1, j);
    }
  }

  /** One round on the word: swapping neighbouring blocks of 2^g digits halves the blocks that are in
      reverse order. */
  lemma SwapRound(v: nat, word: nat, mask: nat, g: nat, j: nat, s: nat, w: nat)
    requires s == Pow2(g) && w == Pow2(g + 1 + j) && mask < Pow2(w)
    requires MaskFor(mask, g, w) && BlocksReversed(v, word, g + 1, j, w)
    ensures BlocksReversed(Swapped(v, mask, s, w), word, g, j + 1, w)
  {
    var v', j' := Swapped(v, mask, s, w), j + 1;
    forall i | 0 <= i < w ensures FromSource(v', word, i, g, j') {
      SwapDigit(v, word, mask, i, g, j, s, w);
    }
  }

  lemma SwapBelow(v: nat, mask: nat, s: nat, w: nat)
    requires v < Pow2(w) && mask < Pow2(w)
    ensures Swapped(v, mask, s, w) < Pow2(w)
  {
    LoHi(v, s);
    UpMono(Hi(v, s), 0, s);
    LoHi(Up(v, s), w);
    BitwiseBelow(Hi(v, s), mask, w);
    BitwiseBelow(Lo(Up(v, s), w), Not(mask, w), w);
    BitwiseBelow(And(Hi(v, s), mask), And(Lo(Up(v, s), w), Not(mask, w)), w);
  }

  ghost predicate InRound(v: nat, mask: nat, word: nat, f: nat, j: nat, w: nat) {
    && w == Pow2(f + j) && mask < Pow2(w) && v < Pow2(w)
    && MaskFor(mask, f, w) && BlocksReversed(v, word, f, j, w)
  }

  lemma AllOnes(i: nat, w: nat)
    requires i < w
    ensures Bit(Pow2(w) - 1, i) == 1
  {
    BitZero(i);
    BitNot(0, w, i);
  }

  lemma FirstRound(word: nat, e: nat, w: nat)
    requires w == Pow2(e) && word < Pow2(w)
    ensures InRound(word, Pow2(w) - 1, word, e, 0, w)
  {
    var m := Pow2(w) - 1;
    forall i | 0 <= i < w
      ensures MaskAt(m, i, e) && FromSource(word, word, i, e, 0)
    {
      AllOnes(i, w);
      LoSmall(i, e);
      UpZero(e);
    }
  }

  lemma NextRound(v: nat, mask: nat, word: nat, g: nat, j: nat, s: nat, w: nat)
    requires s == Pow2(g) && InRound(v, mask, word, g + 1, j, w)
    ensures var m := Xor(mask, Lo(Up(mask, s), w)); m < Pow2(w) && InRound(Swapped(v, m, s, w), m, word, g, j + 1, w)
  {
    LoHi(Up(mask, s), w);
    BitwiseBelow(mask, Lo(Up(mask, s), w), w);
    MaskRound(mask, g, s, w);
    var m := Xor(mask, Lo(Up(mask, s), w));
    SwapRound(v, word, m, g, j, s, w);
    SwapBelow(v, m, s, w);
  }

  lemma LastRound(v: nat, mask: nat, word: nat, e: nat, w: nat)
    requires InRound(v, mask, word, 0, e, w)
    ensures v == Rev(word, w)
  {
    forall i | 0 <= i < w ensures Bit(v, i) == Bit(Rev(word, w), i) {
      assert FromSource(v, word, i, 0, e);
      RevBit(word, w, i);
    }
    RevBelow(word, w);
    BitsDecide(v, Rev(word, w), w);
  }

  /** The source's loop: it reverses all digits of a word whose width is a power of two. */
  method ReverseBits(word: nat, w: nat, ghost e: nat) returns (v: nat)
    requires w == Pow2(e) && word < Pow2(w)
    ensures v == Rev(word, w)
  {
    v := word;
    var s: nat := w;
    var mask: nat := Pow2(w) - 1;
    ghost var f, j := e, 0;
    FirstRound(word, e, w);
    s := s / 2;
    while s > 0
      invariant f + j == e && s == (if f == 0 then 0 else Pow2(f - 1)) && InRound(v, mask, word, f, j, w)
      decreases s
    {
      NextRound(v, mask, word, f - 1, j, s, w);
      mask := Xor(mask, Lo(Up(mask, s), w));
      v := Or(And(Hi(v, s), mask), And(Lo(Up(v, s), w), Not(mask, w)));
      f, j := f - 1, j + 1;
      s := s / 2;
    }
    LastRound(v, mask, word, e, w);
  }
}
