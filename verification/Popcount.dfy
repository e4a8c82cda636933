/** Counting the set bits of a string 28 bytes at a time. */
module Popcount {
  import opened Words
  import opened Bits
  import opened Bitfield

  // ---------------------------------------------------------------- the meaning

  /** The ones among the low n digits. */
  function Ones(x: nat, n: nat): nat { if n == 0 then 0 else x % 2 + Ones(x / 2, n - 1) }

  lemma {:induction false} OnesBound(x: nat, n: nat)
    ensures Ones(x, n) <= n
  {
    if n > 0 {
      OnesBound(x / 2, n - 1);
    }
  }

  lemma {:induction false} OnesSum(x: nat, a: nat, b: nat)
    ensures Ones(x, a + b) == Ones(x, a) + Ones(Hi(x, a), b)
  {
    if a > 0 {
      OnesSum(x / 2, a - 1, b);
    }
  }

  lemma {:induction false} OnesOfLow(x: nat, n: nat)
    ensures Ones(Lo(x, n), n) == Ones(x, n)
  {
    if n > 0 {
      HalfOfSum(x % 2, Lo(x / 2, n - 1));
      OnesOfLow(x / 2, n - 1);
    }
  }

  /** The ones of a byte, as the table of the source gives them. */
  function BitsInByte(b: nat): nat { if b == 0 then 0 else b % 2 + BitsInByte(b / 2) }

  lemma {:induction false} BitsInByteOnes(b: nat, n: nat)
    requires b < Pow2(n)
    ensures BitsInByte(b) == Ones(b, n)
  {
    if n > 0 {
      BitsInByteOnes(b / 2, n - 1);
    }
  }

  function OnesIn(s: seq<Byte>): nat { if s == [] then 0 else OnesIn(s[..|s| - 1]) + BitsInByte(s[|s| - 1]) }

  // ---------------------------------------------------------------- counts of groups of digits

  /** The ones of each of n groups of g digits, packed in groups of g digits. */
  function Grouped(x: nat, g: nat, n: nat): nat
    decreases n, x
  {
    if n == 0 then 0 else Ones(x, g) + Up(Grouped(Hi(x, g), g, n - 1), g)
  }

  /** The digits of a packed number. */
  lemma GroupedParts(x: nat, g: nat, n: nat)
    requires n >= 1 && g < Pow2(g)
    ensures Lo(Grouped(x, g, n), g) == Ones(x, g) && Hi(Grouped(x, g, n), g) == Grouped(Hi(x, g), g, n - 1)
  {
    OnesBound(x, g);
    LoHiUnique(Grouped(x, g, n), g, Ones(x, g), Grouped(Hi(x, g), g, n - 1));
  }

  lemma GroupedTwo(x: nat, g: nat, n: nat)
    requires n >= 2 && g < Pow2(g)
    ensures Hi(Grouped(x, g, n), 2 * g) == Grouped(Hi(x, 2 * g), g, n - 2)
    ensures Lo(Hi(Grouped(x, g, n), g), g) == Ones(Hi(x, g), g)
  {
    GroupedParts(x, g, n);
    GroupedParts(Hi(x, g), g, n - 1);
    HiHi(x, g, g);
    HiHi(Grouped(x, g, n), g, g);
  }

  lemma HiSwap(y: nat, g: nat, k: nat)
    ensures Hi(Hi(y, g), k) == Hi(Hi(y, k), g)
  {
    HiHi(y, g, k);
    HiHi(y, k, g);
  }

  lemma UpSum(p: nat, q: nat, r: nat, k: nat)
    requires p + q == r
    ensures Up(p, k) + Up(q, k) == Up(r, k)
  {
    UpAdd(p, q, k);
  }

  lemma FoldAddStep(y: nat, h: nat, g: nat, k: nat, m: nat, mask: nat, rest: nat)
    requires k == 2 * g && mask == Pow2(g) - 1 + Up(m, k) && h == Hi(y, g)
    requires And(Hi(y, k), m) + And(Hi(Hi(y, k), g), m) == rest
    ensures And(y, mask) + And(h, mask) == Lo(y, g) + Lo(h, g) + Up(rest, k)
  {
    HiSwap(y, g, k);
    MaskedPart(y, g, k, m, mask);
    MaskedPart(h, g, k, m, mask);
    UpSum(And(Hi(y, k), m), And(Hi(h, k), m), rest, k);
  }

  lemma GroupedSum(x: nat, g: nat, k: nat, n: nat, rest: nat)
    requires k == 2 * g && n > 0 && rest == Grouped(Hi(x, k), k, n - 1)
    ensures Grouped(x, k, n) == Ones(x, g) + Ones(Hi(x, g), g) + Up(rest, k)
  {
    OnesSum(x, g, g);
  }

  /** `(y & m) + ((y >> g) & m)`: neighbouring counts are added. */
  lemma {:induction false} FoldAdd(x: nat, g: nat, n: nat)
    requires g < Pow2(g)
    ensures And(Grouped(x, g, 2 * n), Mask(g, n)) + And(Hi(Grouped(x, g, 2 * n), g), Mask(g, n)) == Grouped(x, 2 * g, n)
    decreases n
  {
    if n > 0 {
      var k, y := 2 * g, Grouped(x, g, 2 * n);
      var rest := Grouped(Hi(x, k), k, n - 1);
      GroupedParts(x, g, 2 * n);
      GroupedTwo(x, g, 2 * n);
      FoldAdd(Hi(x, k), g, n - 1);
      FoldAddStep(y, Hi(y, g), g, k, Mask(g, n - 1), Mask(g, n), rest);
      GroupedSum(x, g, k, n, rest);
    }
  }

  /** A number of three parts. */
  lemma ThreeParts(t: nat, a: nat, b: nat, c: nat, g: nat)
    requires a < Pow2(g) && b < Pow2(g) && t == a + Up(b, g) + Up(c, 2 * g)
    ensures Lo(t, g) == a && Hi(t, 2 * g) == c
  {
    UpUp(c, g, g);
    UpAdd(b, Up(c, g), g);
    LoHiUnique(t, g, a, b + Up(c, g));
    LoHiUnique(b + Up(c, g), g, b, c);
    HiHi(t, g, g);
  }

  /** A packed number plus itself shifted by one group. */
  lemma ShiftedSum(y: nat, g: nat, a: nat, b: nat, y': nat)
    requires a < Pow2(g) && y == a + Up(b + Up(y', g), g)
    ensures y + Hi(y, g) == (a + b) + Up(b + Lo(y', g), g) + Up(y' + Hi(y', g), 2 * g)
  {
    LoHiUnique(y, g, a, b + Up(y', g));
    LoHi(y', g);
    UpAdd(Lo(y', g), Up(Hi(y', g), g), g);
    UpUp(Hi(y', g), g, g);
    UpAdd(b, Up(y', g), g);
    UpUp(y', g, g);
    UpAdd(b, Lo(y', g), g);
    UpAdd(y', Hi(y', g), 2 * g);
  }

  lemma FoldMaskStep(y: nat, g: nat, k: nat, m: nat, mask: nat, a: nat, b: nat, y': nat)
    requires a <= g && b <= g && Lo(y', g) <= g && 2 * g < Pow2(g)
    requires k == 2 * g && mask == Pow2(g) - 1 + Up(m, k) && y == a + Up(b + Up(y', g), g)
    ensures And(y + Hi(y, g), mask) == a + b + Up(And(y' + Hi(y', g), m), k)
  {
    ShiftedSum(y, g, a, b, y');
    ThreeParts(y + Hi(y, g), a + b, b + Lo(y', g), y' + Hi(y', g), g);
    MaskedPart(y + Hi(y, g), g, k, m, mask);
  }

  /** `(y + (y >> g)) & m`: the same where no sum of two counts overflows its group. */
  lemma {:induction false} FoldMask(x: nat, g: nat, n: nat)
    requires 2 * g < Pow2(g)
    ensures And(Grouped(x, g, 2 * n) + Hi(Grouped(x, g, 2 * n), g), Mask(g, n)) == Grouped(x, 2 * g, n)
    decreases n
  {
    if n > 0 {
      var x' := Hi(x, 2 * g);
      var y, y' := Grouped(x, g, 2 * n), Grouped(x', g, 2 * n - 2);
      FoldMask(x', g, n - 1);
      GroupedLow(x', g, 2 * n - 2);
      GroupedFront(x, g, 2 * n, x', y, y');
      FoldMaskRound(x, g, 2 * g, n, Mask(g, n - 1), Mask(g, n), y, y');
    }
  }

  lemma FoldMaskRound(x: nat, g: nat, k: nat, n: nat, m: nat, mask: nat, y: nat, y': nat)
    requires n > 0 && 2 * g < Pow2(g) && k == 2 * g && mask == Pow2(g) - 1 + Up(m, k)
    requires y == Ones(x, g) + Up(Ones(Hi(x, g), g) + Up(y', g), g) && Lo(y', g) <= g
    requires And(y' + Hi(y', g), m) == Grouped(Hi(x, k), k, n - 1)
    ensures And(y + Hi(y, g), mask) == Grouped(x, k, n)
  {
    OnesBound(x, g);
    OnesBound(Hi(x, g), g);
    FoldMaskStep(y, g, k, m, mask, Ones(x, g), Ones(Hi(x, g), g), y');
    GroupedSum(x, g, k, n, Grouped(Hi(x, k), k, n - 1));
  }

  lemma GroupedFront(x: nat, g: nat, n: nat, x': nat, y: nat, y': nat)
    requires n >= 2 && x' == Hi(x, 2 * g) && y == Grouped(x, g, n) && y' == Grouped(x', g, n - 2)
    ensures y == Ones(x, g) + Up(Ones(Hi(x, g), g) + Up(y', g), g)
  {
    HiHi(x, g, g);
  }

  lemma GroupedLow(x: nat, g: nat, n: nat)
    requires g < Pow2(g)
    ensures Lo(Grouped(x, g, n), g) <= g
  {
    if n > 0 {
      GroupedParts(x, g, n);
      OnesBound(x, g);
    } else {
      UpZero(g);
      LoHiUnique(0, g, 0, 0);
    }
  }

  lemma GroupedPair(x: nat, n: nat)
    requires n >= 1
    ensures Grouped(x, 2, n) == x % 2 + x / 2 % 2 + 4 * Grouped(x / 2 / 2, 2, n - 1)
  {
    assert Ones(x, 2) == x % 2 + (x / 2 % 2 + Ones(x / 2 / 2, 0));
    assert Hi(x, 2) == Hi(x / 2, 1) == Hi(x / 2 / 2, 0);
    UpByTwo(Grouped(Hi(x, 2), 2, n - 1));
  }

  lemma AndQuad(h: nat, m: nat)
    ensures And(h, 1 + 4 * m) == h % 2 + 4 * And(h / 2 / 2, m)
  {
    AndUnfold(h, 1 + 4 * m);
    AndUnfold(h / 2, 2 * m);
    assert (1 + 4 * m) / 2 == 2 * m;
  }

  lemma {:induction false} QuarterBelow(x: nat, k: nat)
    requires x < Pow2(k + 2)
    ensures x / 2 / 2 < Pow2(k)
  {
    assert Pow2(k + 2) == 2 * Pow2(k + 1);
  }

  /** `x - ((x >> 1) & m)`: of every two digits their sum. */
  lemma {:induction false} FoldFirst(x: nat, n: nat)
    requires x < Pow2(2 * n)
    ensures And(x / 2, Mask(1, n)) <= x && x - And(x / 2, Mask(1, n)) == Grouped(x, 2, n)
    decreases n
  {
    if n > 0 {
      QuarterBelow(x, 2 * n - 2);
      FoldFirst(x / 2 / 2, n - 1);
      MaskOne(n);
      GroupedPair(x, n);
      AndQuad(x / 2, Mask(1, n - 1));
    }
  }

  // ---------------------------------------------------------------- one 32-bit word

  lemma MaskLiterals()
    ensures Mask(1, 16) == 0x5555_5555 && Mask(2, 8) == 0x3333_3333 && Mask(4, 4) == 0x0F0F_0F0F
  {
    MaskOneDouble(0);
    MaskOneDouble(4);
    MaskOneDouble(8);
    MaskOneDouble(12);
    MaskTwoDouble(0);
    MaskTwoDouble(2);
    MaskTwoDouble(4);
    MaskTwoDouble(6);
    MaskFour(1);
    MaskFour(2);
    MaskFour(3);
    MaskFour(4);
  }

  /** The two steps on each of the seven words, and the last fold. */
  function Pairs(x: nat): int { x - And(x / 2, 0x5555_5555) }

  function Nibbles(y: nat): nat { And(y, 0x3333_3333) + And(Hi(y, 2), 0x3333_3333) }

  function Bytes(z: nat): nat { And(z + Hi(z, 4), 0x0F0F_0F0F) }

  lemma WordRange()
    ensures Pow2(32) == 0x1_0000_0000
  {
    UpByEight(1);
    UpByEight(Up(1, 8));
    UpUp(1, 8, 8);
    UpByEight(Up(1, 16));
    UpUp(1, 16, 8);
    UpByEight(Up(1, 24));
    UpUp(1, 24, 8);
  }

  lemma SmallPowers()
    ensures Pow2(2) == 4 && Pow2(4) == 16
  {}

  lemma PairMask(n: nat, g: nat)
    requires n == 16 && g == 1
    ensures Mask(g, n) == 0x5555_5555
  {
    MaskLiterals();
  }

  lemma NibbleMask(n: nat, g: nat)
    requires n == 8 && g == 2
    ensures Mask(g, n) == 0x3333_3333 && g < Pow2(g)
  {
    MaskLiterals();
    SmallPowers();
  }

  lemma ByteMask(n: nat, g: nat)
    requires n == 4 && g == 4
    ensures Mask(g, n) == 0x0F0F_0F0F && 2 * g < Pow2(g)
  {
    MaskLiterals();
    SmallPowers();
  }

  lemma WordPairs(x: nat, n: nat, g: nat)
    requires x < 0x1_0000_0000 && n == 16 && g == 2
    ensures Pairs(x) >= 0 && Pairs(x) == Grouped(x, g, n)
  {
    WordRange();
    PairMask(n, 1);
    FoldFirst(x, n);
  }

  lemma WordNibbles(x: nat, n: nat, g: nat)
    requires n == 8 && g == 2
    ensures Nibbles(Grouped(x, g, 2 * n)) == Grouped(x, 2 * g, n)
  {
    NibbleMask(n, g);
    FoldAdd(x, g, n);
  }

  lemma WordBytes(x: nat, n: nat, g: nat)
    requires n == 4 && g == 4
    ensures Bytes(Grouped(x, g, 2 * n)) == Grouped(x, 2 * g, n)
  {
    ByteMask(n, g);
    FoldMask(x, g, n);
  }

  /** Three folds give the ones of each byte; n is 4 and g is 2. */
  lemma FoldedWord(x: nat, n: nat, g: nat)
    requires x < 0x1_0000_0000 && n == 4 && g == 2
    ensures Pairs(x) >= 0 && Bytes(Nibbles(Pairs(x))) == Grouped(x, 4 * g, n)
  {
    WordPairs(x, 4 * n, g);
    WordNibbles(x, 2 * n, g);
    WordBytes(x, n, 2 * g);
  }

  lemma GroupedOne(x: nat, w: nat, n: nat)
    requires n >= 1 && w == 8
    ensures Grouped(x, w, n) == Ones(x, w) + 256 * Grouped(Hi(x, w), w, n - 1)
  {
    UpByEight(Grouped(Hi(x, w), w, n - 1));
  }

  /** The ones of the byte at digit k. */
  function C(x: nat, k: nat, w: nat): nat { Ones(Hi(x, k), w) }

  lemma GroupedBytes(x: nat, w: nat, n: nat)
    requires w == 8 && n == 4
    ensures Grouped(x, w, n) == C(x, 0, w) + 256 * (C(x, w, w) + 256 * (C(x, 2 * w, w) + 256 * C(x, 3 * w, w)))
  {
    HiHi(x, w, w);
    HiHi(x, 2 * w, w);
    GroupedOne(x, w, n);
    GroupedOne(Hi(x, w), w, n - 1);
    GroupedOne(Hi(x, 2 * w), w, n - 2);
    GroupedOne(Hi(x, 3 * w), w, n - 3);
  }

  lemma CountsSmall(x: nat, w: nat)
    requires w == 8
    ensures C(x, 0, w) <= 8 && C(x, w, w) <= 8 && C(x, 2 * w, w) <= 8 && C(x, 3 * w, w) <= 8
  {
    OnesBound(Hi(x, 0), w);
    OnesBound(Hi(x, w), w);
    OnesBound(Hi(x, 2 * w), w);
    OnesBound(Hi(x, 3 * w), w);
  }

  /** Multiplying by 0x01010101 adds the four bytes in the highest one: seven words keep the sum of
      all their ones at most 224. */
  lemma AddBytes(d0: nat, d1: nat, d2: nat, d3: nat)
    requires d0 <= 56 && d1 <= 56 && d2 <= 56 && d3 <= 56
    ensures (d0 + 256 * (d1 + 256 * (d2 + 256 * d3))) * 0x0101_0101 % 0x1_0000_0000 / 0x100_0000 == d0 + d1 + d2 + d3
  {
    var low := d0 + 256 * (d0 + d1) + 65536 * (d0 + d1 + d2);
    var top := d0 + d1 + d2 + d3;
    var rest := d1 + d2 + d3 + 256 * (d2 + d3) + 65536 * d3;
    assert (d0 + 256 * (d1 + 256 * (d2 + 256 * d3))) * 0x0101_0101 == (low + 0x100_0000 * top) + 0x1_0000_0000 * rest;
    CutWord(low + 0x100_0000 * top, rest);
    TopByte(low, top);
  }

  lemma CutWord(x: nat, rest: nat)
    requires x < 0x1_0000_0000
    ensures (x + 0x1_0000_0000 * rest) % 0x1_0000_0000 == x
  {}

  lemma TopByte(low: nat, top: nat)
    requires low < 0x100_0000
    ensures (low + 0x100_0000 * top) / 0x100_0000 == top
  {}

  // ---------------------------------------------------------------- seven words

  /** A word loaded from four bytes. */
  function Word(b0: Byte, b1: Byte, b2: Byte, b3: Byte): nat { b0 + 256 * (b1 + 256 * (b2 + 256 * b3)) }

  lemma {:induction false} UpIsProduct(z: nat, w: nat)
    ensures Up(z, w) == z * Pow2(w)
  {
    if w > 0 {
      UpIsProduct(z, w - 1);
      var p := Pow2(w - 1);
      assert z * (2 * p) == 2 * (z * p);
    }
  }

  lemma ByteAndRest(b: Byte, rest: nat, w: nat)
    requires Pow2(w) == 256
    ensures Ones(b + 256 * rest, w) == BitsInByte(b) && Hi(b + 256 * rest, w) == rest
  {
    UpIsProduct(rest, w);
    LoHiUnique(b + 256 * rest, w, b, rest);
    OnesOfLow(b + 256 * rest, w);
    BitsInByteOnes(b, w);
  }

  lemma HiAt(x: nat, k: nat, k': nat, w: nat)
    requires k' == k + w
    ensures Hi(x, k') == Hi(Hi(x, k), w)
  {
    HiHi(x, k, w);
  }

  lemma NextByte(x: nat, h: nat, k: nat, k': nat, b: Byte, rest: nat, w: nat)
    requires Pow2(w) == 256 && k' == k + w && Hi(x, k) == h && h == b + 256 * rest
    ensures C(x, k, w) == BitsInByte(b) && Hi(x, k') == rest
  {
    HiAt(x, k, k', w);
    ByteAndRest(b, rest, w);
  }

  lemma WordOnes(b0: Byte, b1: Byte, b2: Byte, b3: Byte, w: nat)
    requires Pow2(w) == 256
    ensures var x := Word(b0, b1, b2, b3);
      && x < 0x1_0000_0000
      && C(x, 0, w) == BitsInByte(b0) && C(x, w, w) == BitsInByte(b1)
      && C(x, 2 * w, w) == BitsInByte(b2) && C(x, 3 * w, w) == BitsInByte(b3)
  {
    var x := Word(b0, b1, b2, b3);
    var r2 := b2 + 256 * b3;
    var r1 := b1 + 256 * r2;
    NextByte(x, x, 0, w, b0, r1, w);
    NextByte(x, r1, w, 2 * w, b1, r2, w);
    NextByte(x, r2, 2 * w, 3 * w, b2, b3, w);
    NextByte(x, b3, 3 * w, 4 * w, b3, 0, w);
  }

  /** The folded word as its four byte counts. */
  lemma FoldedCounts(x: nat, n: nat, g: nat, w: nat)
    requires x < 0x1_0000_0000 && n == 4 && g == 2 && w == 8
    ensures Pairs(x) >= 0
    ensures Bytes(Nibbles(Pairs(x))) == C(x, 0, w) + 256 * (C(x, w, w) + 256 * (C(x, 2 * w, w) + 256 * C(x, 3 * w, w)))
  {
    FoldedWord(x, n, g);
    GroupedBytes(x, w, n);
  }

  /** A packed number of byte counts. */
  ghost predicate Packs(f: nat, d0: nat, d1: nat, d2: nat, d3: nat, k: nat) {
    f == d0 + 256 * (d1 + 256 * (d2 + 256 * d3)) && d0 <= 8 * k && d1 <= 8 * k && d2 <= 8 * k && d3 <= 8 * k
  }

  lemma FoldedPacks(x: nat, n: nat, g: nat, w: nat)
    requires x < 0x1_0000_0000 && n == 4 && g == 2 && w == 8
    ensures Pairs(x) >= 0 && Packs(Bytes(Nibbles(Pairs(x))), C(x, 0, w), C(x, w, w), C(x, 2 * w, w), C(x, 3 * w, w), 1)
  {
    FoldedCounts(x, n, g, w);
    CountsSmall(x, w);
  }

  lemma PacksSum(f: nat, d0: nat, d1: nat, d2: nat, d3: nat, k: nat, f': nat, e0: nat, e1: nat, e2: nat, e3: nat)
    requires Packs(f, d0, d1, d2, d3, k) && Packs(f', e0, e1, e2, e3, 1)
    ensures Packs(f + f', d0 + e0, d1 + e1, d2 + e2, d3 + e3, k + 1)
  {}

  /** The ones of the bytes from i on, n of them. */
  function OnesFrom(s: seq<Byte>, i: nat, n: nat): nat
    requires i + n <= |s|
  {
    if n == 0 then 0 else OnesFrom(s, i, n - 1) + BitsInByte(s[i + n - 1])
  }

  lemma {:induction false} OnesFromPrefix(s: seq<Byte>, i: nat, n: nat)
    requires i + n <= |s|
    ensures OnesIn(s[..i + n]) == OnesIn(s[..i]) + OnesFrom(s, i, n)
  {
    if n > 0 {
      OnesFromPrefix(s, i, n - 1);
      assert s[..i + n][..i + n - 1] == s[..i + n - 1];
    } else {
      assert s[..i + n] == s[..i];
    }
  }

  lemma OnesFromFour(s: seq<Byte>, i: nat, n: nat)
    requires i + n + 4 <= |s|
    ensures OnesFrom(s, i, n + 4) == OnesFrom(s, i, n) + FourOnes(s, i + n)
  {
    assert OnesFrom(s, i, n + 4) == OnesFrom(s, i, n + 3) + BitsInByte(s[i + n + 3]);
    assert OnesFrom(s, i, n + 3) == OnesFrom(s, i, n + 2) + BitsInByte(s[i + n + 2]);
    assert OnesFrom(s, i, n + 2) == OnesFrom(s, i, n + 1) + BitsInByte(s[i + n + 1]);
  }

  function FourOnes(s: seq<Byte>, j: nat): nat
    requires j + 4 <= |s|
  {
    BitsInByte(s[j]) + BitsInByte(s[j + 1]) + BitsInByte(s[j + 2]) + BitsInByte(s[j + 3])
  }

  /** A packed number with a given sum of counts. */
  ghost predicate PacksTo(f: nat, total: nat, k: nat) {
    exists d0: nat, d1: nat, d2: nat, d3: nat :: Packs(f, d0, d1, d2, d3, k) && d0 + d1 + d2 + d3 == total
  }

  lemma PacksToSum(f: nat, total: nat, k: nat, f': nat, total': nat)
    requires PacksTo(f, total, k) && PacksTo(f', total', 1)
    ensures PacksTo(f + f', total + total', k + 1)
  {
    var d0: nat, d1: nat, d2: nat, d3: nat :| Packs(f, d0, d1, d2, d3, k) && d0 + d1 + d2 + d3 == total;
    var e0: nat, e1: nat, e2: nat, e3: nat :| Packs(f', e0, e1, e2, e3, 1) && e0 + e1 + e2 + e3 == total';
    PacksSum(f, d0, d1, d2, d3, k, f', e0, e1, e2, e3);
  }

  lemma WordPacksTo(s: seq<Byte>, j: nat, n: nat, g: nat, w: nat)
    requires j + 4 <= |s| && n == 4 && g == 2 && w == 8
    ensures var x := Word(s[j], s[j + 1], s[j + 2], s[j + 3]);
      Pairs(x) >= 0 && PacksTo(Bytes(Nibbles(Pairs(x))), FourOnes(s, j), 1)
  {
    var x := Word(s[j], s[j + 1], s[j + 2], s[j + 3]);
    ByteRange();
    WordOnes(s[j], s[j + 1], s[j + 2], s[j + 3], w);
    FoldedPacks(x, n, g, w);
  }

  function TopByteOf(sum: nat): nat { sum * 0x0101_0101 % 0x1_0000_0000 / 0x100_0000 }

  /** The product of the sum of seven folded words, cut to 32 bits, and its highest byte. */
  lemma SevenWords(f: nat, total: nat)
    requires PacksTo(f, total, 7)
    ensures TopByteOf(f) == total <= 224
  {
    var d0: nat, d1: nat, d2: nat, d3: nat :| Packs(f, d0, d1, d2, d3, 7) && d0 + d1 + d2 + d3 == total;
    AddBytes(d0, d1, d2, d3);
  }

  /** One word of the string, folded. */
  method FoldWordAt(s: seq<Byte>, j: nat) returns (f: nat)
    requires j + 4 <= |s|
    ensures PacksTo(f, FourOnes(s, j), 1)
  {
    var aux := Word(s[j], s[j + 1], s[j + 2], s[j + 3]);
    WordPacksTo(s, j, 4, 2, 8);
    f := Bytes(Nibbles(Pairs(aux)));
  }

  lemma BlockRound(s: seq<Byte>, i: nat, k: nat, sum: nat, f: nat)
    requires i + 4 * k + 4 <= |s| && PacksTo(sum, OnesFrom(s, i, 4 * k), k) && PacksTo(f, FourOnes(s, i + 4 * k), 1)
    ensures PacksTo(sum + f, OnesFrom(s, i, 4 * (k + 1)), k + 1)
  {
    PacksToSum(sum, OnesFrom(s, i, 4 * k), k, f, FourOnes(s, i + 4 * k));
    OnesFromFour(s, i, 4 * k);
  }

  lemma NothingYet(s: seq<Byte>, i: nat)
    requires i <= |s|
    ensures PacksTo(0, OnesFrom(s, i, 0), 0)
  {
    assert Packs(0, 0, 0, 0, 0, 0);
  }

  /** 28 bytes at a time: seven folded words and one multiplication. */
  method CountBlock(s: seq<Byte>, i: nat) returns (bits: nat)
    requires i + 28 <= |s|
    ensures OnesIn(s[..i + 28]) == OnesIn(s[..i]) + bits
  {
    var sum, k := 0, 0;
    NothingYet(s, i);
    while k < 7
      invariant 0 <= k <= 7 && PacksTo(sum, OnesFrom(s, i, 4 * k), k)
    {
      var f := FoldWordAt(s, i + 4 * k);
      BlockRound(s, i, k, sum, f);
      sum, k := sum + f, k + 1;
    }
    SevenWords(sum, OnesFrom(s, i, 4 * k));
    OnesFromPrefix(s, i, 4 * k);
    bits := TopByteOf(sum);
  }

  /** redisPopcount: bytes up to an aligned address, blocks of 28 bytes, then the rest. */
  method RedisPopcount(s: seq<Byte>, address: nat) returns (bits: nat)
    ensures bits == OnesIn(s)
  {
    bits := 0;
    var i := 0;
    assert s[..0] == [];
    while (address + i) % 4 != 0 && i < |s|
      invariant 0 <= i <= |s| && bits == OnesIn(s[..i])
      decreases |s| - i
    {
      assert s[..i + 1][..i] == s[..i];
      bits := bits + BitsInByte(s[i]);
      i := i + 1;
    }
    while |s| - i >= 28
      invariant 0 <= i <= |s| && bits == OnesIn(s[..i])
    {
      var block := CountBlock(s, i);
      bits := bits + block;
      i := i + 28;
    }
    while i < |s|
      invariant 0 <= i <= |s| && bits == OnesIn(s[..i])
    {
      assert s[..i + 1][..i] == s[..i];
      bits := bits + BitsInByte(s[i]);
      i := i + 1;
    }
    assert s[..i] == s;
  }

  // ---------------------------------------------------------------- the same, bit by bit

  /** The ones among the first n bits of the string. */
  function CountBits(s: seq<Byte>, n: nat): nat { if n == 0 then 0 else CountBits(s, n - 1) + StrBit(s, n - 1) }

  lemma HiDown(x: nat, k: nat)
    requires k >= 1
    ensures Hi(x, k - 1) / 2 == Hi(x, k)
  {
    HiHi(x, k - 1, 1);
    assert Hi(Hi(x, k - 1), 1) == Hi(Hi(x, k - 1) / 2, 0);
  }

  lemma {:induction false} CountByte(s: seq<Byte>, i: nat, from: nat, r: nat, o: nat)
    requires i < |s| && r <= 8 && from == 8 * i && o == from + r
    ensures CountBits(s, o) == CountBits(s, from) + Ones(Hi(s[i], 8 - r), r)
    decreases r
  {
    if r > 0 {
      CountByte(s, i, from, r - 1, o - 1);
      CountBit(s, i, from, r - 1);
      HiDown(s[i], 8 - (r - 1));
    }
  }

  lemma CountBit(s: seq<Byte>, i: nat, from: nat, r: nat)
    requires i < |s| && r < 8 && from == 8 * i
    ensures StrBit(s, from + r) == Hi(s[i], 7 - r) % 2
  {
    assert (from + r) / 8 == i && (from + r) % 8 == r;
  }

  /** The sum over bytes is the number of ones. */
  lemma {:induction false} OnesAreBits(s: seq<Byte>, n: nat, w: nat)
    requires n <= |s| && w == 8
    ensures OnesIn(s[..n]) == CountBits(s, 8 * n)
  {
    if n > 0 {
      OnesAreBits(s, n - 1, w);
      assert s[..n][..n - 1] == s[..n - 1];
      LastByte(s, n, w);
    }
  }

  lemma ByteOnes(b: Byte, w: nat)
    requires w == 8
    ensures Ones(Hi(b, 8 - w), w) == BitsInByte(b)
  {
    ByteRange();
    BitsInByteOnes(b, w);
  }

  lemma LastByte(s: seq<Byte>, n: nat, w: nat)
    requires 0 < n <= |s| && w == 8
    ensures CountBits(s, 8 * n) == CountBits(s, 8 * (n - 1)) + BitsInByte(s[n - 1])
  {
    CountByte(s, n - 1, 8 * (n - 1), w, 8 * n);
    ByteOnes(s[n - 1], w);
  }
}
