/** Morton codes: the digits of two coordinates in turn, and moves of one coordinate that leave the
    other alone. */
module Geohash {
  import opened Words
  import opened Bits

  // ---------------------------------------------------------------- spreading and squeezing digits

  /** The first n blocks of g digits of x, with g zeros after each. */
  function Spread(x: nat, g: nat, n: nat): nat
    decreases n, x
  {
    if n == 0 then 0 else Lo(x, g) + Up(Spread(Hi(x, g), g, n - 1), 2 * g)
  }

  /** Two blocks at once. */
  lemma SpreadTwo(x: nat, g: nat, n: nat)
    requires n > 0
    ensures Spread(x, g, 2 * n) == Lo(x, g) + Up(Lo(Hi(x, g), g), 2 * g) + Up(Spread(Hi(x, 2 * g), g, 2 * n - 2), 4 * g)
  {
    var h := Hi(x, g);
    HiHi(x, g, g);
    assert Spread(h, g, 2 * n - 1) == Lo(h, g) + Up(Spread(Hi(h, g), g, 2 * n - 2), 2 * g);
    UpAdd(Lo(h, g), Up(Spread(Hi(h, g), g, 2 * n - 2), 2 * g), 2 * g);
    UpUp(Spread(Hi(h, g), g, 2 * n - 2), 2 * g, 2 * g);
  }

  lemma LoOr(a: nat, b: nat, k: nat)
    ensures Lo(Or(a, b), k) == Or(Lo(a, k), Lo(b, k)) && Hi(Or(a, b), k) == Or(Hi(a, k), Hi(b, k))
  {
    OrSplit(a, b, k);
    LoHi(a, k);
    LoHi(b, k);
    BitwiseBelow(Lo(a, k), Lo(b, k), k);
    LoHiUnique(Or(a, b), k, Or(Lo(a, k), Lo(b, k)), Or(Hi(a, k), Hi(b, k)));
  }

  lemma OrZero(a: nat)
    ensures Or(a, 0) == a && Or(0, a) == a
  {}

  lemma LoHiOfUp(v: nat, g: nat)
    ensures Lo(Up(v, g), g) == 0 && Hi(Up(v, g), g) == v
  {
    LoHiUnique(Up(v, g), g, 0, v);
  }

  lemma MaskTwice(g: nat, n: nat)
    requires n > 0
    ensures Mask(g, 2 * n) == Pow2(g) - 1 + Up(Pow2(g) - 1 + Up(Mask(g, 2 * n - 2), 2 * g), 2 * g)
  {
    assert Mask(g, 2 * n - 1) == Pow2(g) - 1 + Up(Mask(g, 2 * n - 2), 2 * g);
  }

  lemma SpreadHead(x: nat, g: nat, n: nat)
    requires n > 0
    ensures Lo(x, g) < Pow2(g) && Spread(x, g, n) == Lo(x, g) + Up(Spread(Hi(x, g), g, n - 1), 2 * g)
  {
    LoHi(x, g);
  }

  /** `(v | v << g) & m` splits blocks of 2g digits into halves. */
  lemma {:induction false} SpreadStage(x: nat, g: nat, n: nat)
    ensures And(Or(Spread(x, 2 * g, n), Up(Spread(x, 2 * g, n), g)), Mask(g, 2 * n)) == Spread(x, g, 2 * n)
    decreases n
  {
    if n > 0 {
      var x' := Hi(x, 2 * g);
      SpreadStage(x', g, n - 1);
      SpreadBlock(x, g, n, Spread(x', 2 * g, n - 1), Spread(x', g, 2 * n - 2));
    }
  }

  lemma SpreadBlock(x: nat, g: nat, n: nat, v': nat, rest: nat)
    requires n > 0 && v' == Spread(Hi(x, 2 * g), 2 * g, n - 1) && rest == Spread(Hi(x, 2 * g), g, 2 * n - 2)
    requires And(Or(v', Up(v', g)), Mask(g, 2 * n - 2)) == rest
    ensures And(Or(Spread(x, 2 * g, n), Up(Spread(x, 2 * g, n), g)), Mask(g, 2 * n)) == Spread(x, g, 2 * n)
  {
    var k, v, l, m := 2 * g, Spread(x, 2 * g, n), Lo(x, 2 * g), Mask(g, 2 * n - 2);
    SpreadHead(x, k, n);
    MaskTwice(g, n);
    SpreadOne(v, l, v', g, k, m, Pow2(g) - 1 + Up(m, k), Mask(g, 2 * n), rest);
    SpreadTwo(x, g, n);
    LoLo(x, g, g);
  }

  /** One block of 2g digits, l, followed by 2g zeros and the rest. */
  lemma SpreadOne(v: nat, l: nat, v': nat, g: nat, k: nat, m: nat, m1: nat, mask: nat, rest: nat)
    requires k == 2 * g && l < Pow2(k) && v == l + Up(v', 2 * k) && And(Or(v', Up(v', g)), m) == rest
    requires m1 == Pow2(g) - 1 + Up(m, k) && mask == Pow2(g) - 1 + Up(m1, k)
    ensures And(Or(v, Up(v, g)), mask) == Lo(l, g) + Up(Hi(l, g), k) + Up(rest, 2 * k)
  {
    var y := Or(v, Up(v, g));
    SpreadParts(v, l, v', g, k);
    MaskedTwice(y, g, k, m, m1, mask);
  }

  lemma MaskedTwice(y: nat, g: nat, k: nat, m: nat, m1: nat, mask: nat)
    requires k == 2 * g && m1 == Pow2(g) - 1 + Up(m, k) && mask == Pow2(g) - 1 + Up(m1, k)
    ensures And(y, mask) == Lo(y, g) + Up(Lo(Hi(y, k), g), k) + Up(And(Hi(Hi(y, k), k), m), 2 * k)
  {
    var z := Hi(y, k);
    MaskedPart(y, g, k, m1, mask);
    MaskedPart(z, g, k, m, m1);
    TwoUp(And(z, m1), Lo(z, g), And(Hi(z, k), m), k);
  }

  lemma TwoUp(t: nat, b: nat, c: nat, k: nat)
    requires t == b + Up(c, k)
    ensures Up(t, k) == Up(b, k) + Up(c, 2 * k)
  {
    UpAdd(b, Up(c, k), k);
    UpUp(c, k, k);
  }

  /** A small number and a multiple of a power of two, taken apart at a smaller power. */
  lemma SmallAndUp(h: nat, v: nat, j: nat, k: nat)
    requires h < Pow2(k)
    ensures Lo(h + Up(v, k + j), k) == h && Hi(h + Up(v, k + j), k) == Up(v, j)
  {
    UpUp(v, j, k);
    LoHiUnique(h + Up(v, k + j), k, h, Up(v, j));
  }

  lemma WordParts(v: nat, l: nat, v': nat, g: nat, k: nat)
    requires k == 2 * g && l < Pow2(k) && v == l + Up(v', 2 * k)
    ensures Lo(v, g) == Lo(l, g) && Hi(v, k) == Up(v', k)
    ensures Hi(l, g) < Pow2(g) && Hi(v, g) == Hi(l, g) + Up(v', k + g)
  {
    SmallAndUp(l, v', k, k);
    LoLo(v, g, g);
    HiBelow(l, g, g);
    HighPart(v, l, v', g, k);
  }

  lemma HighPart(v: nat, l: nat, v': nat, g: nat, k: nat)
    requires k == 2 * g && v == l + Up(v', 2 * k)
    ensures Hi(v, g) == Hi(l, g) + Up(v', k + g)
  {
    var h := Hi(l, g) + Up(v', k + g);
    LoHi(l, g);
    UpUp(v', k + g, g);
    UpAdd(Hi(l, g), Up(v', k + g), g);
    LoHiUnique(v, g, Lo(l, g), h);
  }

  /** The parts of `v | v << g` that the mask keeps. */
  lemma SpreadParts(v: nat, l: nat, v': nat, g: nat, k: nat)
    requires k == 2 * g && l < Pow2(k) && v == l + Up(v', 2 * k)
    ensures var y := Or(v, Up(v, g));
      Lo(y, g) == Lo(l, g) && Lo(Hi(y, k), g) == Hi(l, g) && Hi(Hi(y, k), k) == Or(v', Up(v', g))
  {
    WordParts(v, l, v', g, k);
    LoHiOfUp(v, g);
    LoOr(v, Up(v, g), g);
    LoOr(v, Up(v, g), k);
    ShiftBack(v, g, k);
    OrZero(Lo(l, g));
    MiddleParts(Hi(l, g), v', g, k, Hi(v, k), Hi(v, g));
  }

  lemma ShiftBack(v: nat, g: nat, k: nat)
    requires k == 2 * g
    ensures Hi(Up(v, g), k) == Hi(v, g)
  {
    LoHiOfUp(v, g);
    HiHi(Up(v, g), g, g);
  }

  lemma MiddleParts(h: nat, v: nat, g: nat, k: nat, a: nat, b: nat)
    requires h < Pow2(g) && k == 2 * g && a == Up(v, k) && b == h + Up(v, k + g)
    ensures Lo(Or(a, b), g) == h && Hi(Or(a, b), k) == Or(v, Up(v, g))
  {
    LoOr(a, b, g);
    LoOr(a, b, k);
    LowOfMiddle(h, v, g, k, a, b);
    HighOfMiddle(h, v, g, k, a, b);
    OrZero(h);
  }

  lemma LowOfMiddle(h: nat, v: nat, g: nat, k: nat, a: nat, b: nat)
    requires h < Pow2(g) && k == 2 * g && a == Up(v, k) && b == h + Up(v, k + g)
    ensures Lo(a, g) == 0 && Lo(b, g) == h
  {
    PowMono(0, g);
    SmallAndUp(0, v, g, g);
    SmallAndUp(h, v, k, g);
  }

  lemma HighOfMiddle(h: nat, v: nat, g: nat, k: nat, a: nat, b: nat)
    requires h < Pow2(g) && k == 2 * g && a == Up(v, k) && b == h + Up(v, k + g)
    ensures Hi(a, k) == v && Hi(b, k) == Up(v, g)
  {
    PowMono(g, k);
    SmallAndUp(h, v, g, k);
    LoHiOfUp(v, k);
  }

  /** `(v | v >> g) & m` joins two blocks of g digits. */
  lemma {:induction false} SquashStage(x: nat, g: nat, n: nat)
    ensures And(Or(Spread(x, g, 2 * n), Hi(Spread(x, g, 2 * n), g)), Mask(2 * g, n)) == Spread(x, 2 * g, n)
    decreases n
  {
    if n > 0 {
      var x' := Hi(x, 2 * g);
      SquashStage(x', g, n - 1);
      SpreadTwo(x, g, n);
      SquashRound(x, g, 2 * g, n, Spread(x, g, 2 * n), Spread(x', g, 2 * n - 2), Mask(2 * g, n - 1), Mask(2 * g, n));
    }
  }

  lemma SquashRound(x: nat, g: nat, k: nat, n: nat, v: nat, v': nat, m: nat, mask: nat)
    requires n > 0 && k == 2 * g && v == Lo(x, g) + Up(Lo(Hi(x, g), g), k) + Up(v', 4 * g)
    requires mask == Pow2(k) - 1 + Up(m, 2 * k) && And(Or(v', Hi(v', g)), m) == Spread(Hi(x, k), k, n - 1)
    ensures And(Or(v, Hi(v, g)), mask) == Spread(x, k, n)
  {
    LoHi(x, g);
    LoHi(Hi(x, g), g);
    SquashOne(v, Lo(x, g), Lo(Hi(x, g), g), v', g, m);
    JoinBlocks(x, g);
  }

  lemma JoinBlocks(x: nat, g: nat)
    ensures Lo(x, 2 * g) == Lo(x, g) + Up(Lo(Hi(x, g), g), g)
  {
    LoLo(x, g, g);
    LoHi(Lo(x, 2 * g), g);
  }

  lemma SquashOne(v: nat, l: nat, h: nat, v': nat, g: nat, m: nat)
    requires l < Pow2(g) && h < Pow2(g) && v == l + Up(h, 2 * g) + Up(v', 4 * g)
    ensures And(Or(v, Hi(v, g)), Pow2(2 * g) - 1 + Up(m, 2 * (2 * g)))
            == l + Up(h, g) + Up(And(Or(v', Hi(v', g)), m), 2 * (2 * g))
  {
    SquashParts(v, l, h, v', g);
    AndMaskStep(Or(v, Hi(v, g)), 2 * g, m);
  }

  lemma SquashParts(v: nat, l: nat, h: nat, v': nat, g: nat)
    requires l < Pow2(g) && h < Pow2(g) && v == l + Up(h, 2 * g) + Up(v', 4 * g)
    ensures var y := Or(v, Hi(v, g));
      Lo(y, 2 * g) == l + Up(h, g) && Hi(y, 2 * (2 * g)) == Or(v', Hi(v', g))
  {
    ThreeBlocks(v, l, h, v', g);
    LoOr(v, Hi(v, g), 2 * g);
    LoOr(v, Hi(v, g), 4 * g);
    HiHi(v, g, 4 * g);
    HiHi(v, 4 * g, g);
    OrDisjoint(l, h, g);
  }

  /** The parts of three blocks and what follows them. */
  lemma ThreeBlocks(v: nat, l: nat, h: nat, v': nat, g: nat)
    requires l < Pow2(g) && h < Pow2(g) && v == l + Up(h, 2 * g) + Up(v', 4 * g)
    ensures Lo(v, 2 * g) == l && Hi(v, 4 * g) == v' && Lo(Hi(v, g), 2 * g) == Up(h, g)
  {
    UpUp(v', 2 * g, 2 * g);
    UpAdd(h, Up(v', 2 * g), 2 * g);
    BlockAndRest(v, l, h + Up(v', 2 * g), g);
    RestParts(h, v', g);
    HiHi(v, 2 * g, 2 * g);
  }

  lemma BlockAndRest(v: nat, l: nat, r: nat, g: nat)
    requires l < Pow2(g) && v == l + Up(r, 2 * g)
    ensures Lo(v, 2 * g) == l && Hi(v, 2 * g) == r && Hi(v, g) == Up(r, g)
  {
    PowMono(g, 2 * g);
    LoHiUnique(v, 2 * g, l, r);
    UpUp(r, g, g);
    LoHiUnique(v, g, l, Up(r, g));
  }

  lemma RestParts(h: nat, v': nat, g: nat)
    requires h < Pow2(g)
    ensures var r := h + Up(v', 2 * g); Hi(r, 2 * g) == v' && Lo(Up(r, g), 2 * g) == Up(h, g)
  {
    PowMono(g, 2 * g);
    LoHiUnique(h + Up(v', 2 * g), 2 * g, h, v');
    UpAdd(h, Up(v', 2 * g), g);
    UpUp(v', 2 * g, g);
    UpLex(h, 0, Pow2(g), 0, g);
    UpUp(1, g, g);
    SmallAndUp(Up(h, g), v', g, 2 * g);
  }

  // ---------------------------------------------------------------- the masks B[] of the source

  const B0: nat := 0x5555_5555_5555_5555
  const B1: nat := 0x3333_3333_3333_3333
  const B2: nat := 0x0F0F_0F0F_0F0F_0F0F
  const B3: nat := 0x00FF_00FF_00FF_00FF
  const B4: nat := 0x0000_FFFF_0000_FFFF
  const B5: nat := 0x0000_0000_FFFF_FFFF

  lemma UpBySixteen(x: nat)
    ensures Up(x, 16) == 0x1_0000 * x
  {
    UpByEight(x);
    UpByEight(Up(x, 8));
    UpUp(x, 8, 8);
  }

  lemma UpByThirtyTwo(x: nat)
    ensures Up(x, 32) == 0x1_0000_0000 * x
  {
    UpBySixteen(x);
    UpBySixteen(Up(x, 16));
    UpUp(x, 16, 16);
  }

  lemma MaskEight(n: nat)
    requires n >= 1
    ensures Mask(8, n) == 0xFF + 0x1_0000 * Mask(8, n - 1)
  {
    UpByEight(1);
    UpBySixteen(Mask(8, n - 1));
  }

  lemma MaskSixteen(n: nat)
    requires n >= 1
    ensures Mask(16, n) == 0xFFFF + 0x1_0000_0000 * Mask(16, n - 1)
  {
    UpBySixteen(1);
    UpByThirtyTwo(Mask(16, n - 1));
  }

  lemma MaskThirtyTwo()
    ensures Mask(32, 1) == B5
  {
    UpByThirtyTwo(1);
    UpZero(64);
  }

  lemma WideMasks()
    ensures Mask(4, 8) == B2 && Mask(8, 4) == B3 && Mask(16, 2) == B4
  {
    MaskFour(1);
    MaskFour(2);
    MaskFour(3);
    MaskFour(4);
    MaskFour(5);
    MaskFour(6);
    MaskFour(7);
    MaskFour(8);
    MaskEight(1);
    MaskEight(2);
    MaskEight(3);
    MaskEight(4);
    MaskSixteen(1);
    MaskSixteen(2);
  }

  lemma MaskOneWide(n: nat)
    ensures Mask(1, n + 16) == 0x5555_5555 + 0x1_0000_0000 * Mask(1, n)
  {
    MaskOneDouble(n);
    MaskOneDouble(n + 4);
    MaskOneDouble(n + 8);
    MaskOneDouble(n + 12);
  }

  lemma MaskTwoWide(n: nat)
    ensures Mask(2, n + 8) == 0x3333_3333 + 0x1_0000_0000 * Mask(2, n)
  {
    MaskTwoDouble(n);
    MaskTwoDouble(n + 2);
    MaskTwoDouble(n + 4);
    MaskTwoDouble(n + 6);
  }

  lemma MaskZero(g: nat, n: nat)
    requires n == 0
    ensures Mask(g, n) == 0
  {}

  lemma MaskB0(z: nat, n: nat)
    requires z == 0 && n == z + 32
    ensures Mask(1, n) == B0
  {
    MaskZero(1, z);
    MaskOneWide(z);
    MaskOneWide(z + 16);
  }

  lemma MaskB1(z: nat, n: nat)
    requires z == 0 && n == z + 16
    ensures Mask(2, n) == B1
  {
    MaskZero(2, z);
    MaskTwoWide(z);
    MaskTwoWide(z + 8);
  }

  // ---------------------------------------------------------------- interleaving

  /** The five steps on one coordinate. */
  function Spread64(x: nat): nat {
    var x1 := And(Or(x, Up(x, 16)), B4);
    var x2 := And(Or(x1, Up(x1, 8)), B3);
    var x3 := And(Or(x2, Up(x2, 4)), B2);
    var x4 := And(Or(x3, Up(x3, 2)), B1);
    And(Or(x4, Up(x4, 1)), B0)
  }

  function Interleave64(xlo: nat, ylo: nat): nat { Or(Spread64(xlo), Up(Spread64(ylo), 1)) }

  lemma SpreadWhole(x: nat, w: nat)
    requires x < Pow2(w)
    ensures Spread(x, w, 1) == x
  {
    LoSmall(x, w);
    assert Spread(x, w, 1) == Lo(x, w) + Up(Spread(Hi(x, w), w, 0), 2 * w);
    UpZero(2 * w);
  }

  /** The digits of a coordinate stand at the even positions. */
  lemma Spread64Is(x: nat)
    requires x < 0x1_0000_0000
    ensures Spread64(x) == Spread(x, 1, 32)
  {
    UpByThirtyTwo(1);
    SpreadWhole(x, 32);
    SpreadWide(x);
    SpreadNarrow(x);
  }

  lemma SpreadWide(x: nat)
    ensures And(Or(Spread(x, 32, 1), Up(Spread(x, 32, 1), 16)), B4) == Spread(x, 16, 2)
    ensures And(Or(Spread(x, 16, 2), Up(Spread(x, 16, 2), 8)), B3) == Spread(x, 8, 4)
    ensures And(Or(Spread(x, 8, 4), Up(Spread(x, 8, 4), 4)), B2) == Spread(x, 4, 8)
  {
    WideMasks();
    SpreadStage(x, 16, 1);
    SpreadStage(x, 8, 2);
    SpreadStage(x, 4, 4);
  }

  lemma SpreadNarrow(x: nat)
    ensures And(Or(Spread(x, 4, 8), Up(Spread(x, 4, 8), 2)), B1) == Spread(x, 2, 16)
    ensures And(Or(Spread(x, 2, 16), Up(Spread(x, 2, 16), 1)), B0) == Spread(x, 1, 32)
  {
    MaskB0(0, 32);
    MaskB1(0, 16);
    SpreadStage(x, 2, 8);
    SpreadStage(x, 1, 16);
  }

  /** The six steps back. */
  function Squash64(v: nat): nat {
    var x0 := And(Or(v, v), B0);
    var x1 := And(Or(x0, Hi(x0, 1)), B1);
    var x2 := And(Or(x1, Hi(x1, 2)), B2);
    var x3 := And(Or(x2, Hi(x2, 4)), B3);
    var x4 := And(Or(x3, Hi(x3, 8)), B4);
    And(Or(x4, Hi(x4, 16)), B5)
  }

  function Deinterleave64(v: nat): nat { Or(Squash64(v), Up(Squash64(Hi(v, 1)), 32)) }

  lemma Squash64Is(v: nat, x: nat)
    requires x < 0x1_0000_0000 && And(Or(v, v), B0) == Spread(x, 1, 32)
    ensures Squash64(v) == x
  {
    UpByThirtyTwo(1);
    SpreadWhole(x, 32);
    SquashNarrow(x);
    SquashWide(x);
  }

  lemma SquashNarrow(x: nat)
    ensures And(Or(Spread(x, 1, 32), Hi(Spread(x, 1, 32), 1)), B1) == Spread(x, 2, 16)
    ensures And(Or(Spread(x, 2, 16), Hi(Spread(x, 2, 16), 2)), B2) == Spread(x, 4, 8)
  {
    WideMasks();
    MaskB1(0, 16);
    SquashStage(x, 1, 16);
    SquashStage(x, 2, 8);
  }

  lemma SquashWide(x: nat)
    ensures And(Or(Spread(x, 4, 8), Hi(Spread(x, 4, 8), 4)), B3) == Spread(x, 8, 4)
    ensures And(Or(Spread(x, 8, 4), Hi(Spread(x, 8, 4), 8)), B4) == Spread(x, 16, 2)
    ensures And(Or(Spread(x, 16, 2), Hi(Spread(x, 16, 2), 16)), B5) == Spread(x, 32, 1)
  {
    WideMasks();
    MaskThirtyTwo();
    SquashStage(x, 4, 4);
    SquashStage(x, 8, 2);
    SquashStage(x, 16, 1);
  }

  /** Two digits at a time. */
  lemma AndDigits(p: nat, q: nat, x: nat, r: nat, s: nat, m: nat)
    requires p <= 1 && q <= 1 && r <= 1 && s <= 1
    ensures And(p + 2 * q + 4 * x, r + 2 * s + 4 * m)
            == (if p == 1 && r == 1 then 1 else 0) + (if q == 1 && s == 1 then 2 else 0) + 4 * And(x, m)
  {
    var u, v := q + 2 * x, s + 2 * m;
    AndUnfold(p + 2 * u, r + 2 * v);
    HalfOfSum(p, u);
    HalfOfSum(r, v);
    AndUnfold(u, v);
    HalfOfSum(q, x);
    HalfOfSum(s, m);
  }

  lemma AndDigitsAt(t: nat, u: nat, p: nat, q: nat, x: nat, r: nat, s: nat, m: nat, v: nat)
    requires p <= 1 && q <= 1 && r <= 1 && s <= 1 && t == p + 2 * q + 4 * x && u == r + 2 * s + 4 * m
    requires v == And(x, m)
    ensures And(t, u) == (if p == 1 && r == 1 then 1 else 0) + (if q == 1 && s == 1 then 2 else 0) + 4 * v
  {
    AndDigits(p, q, x, r, s, m);
  }

  lemma OrDigits(p: nat, q: nat, x: nat, r: nat, s: nat, y: nat)
    requires p <= 1 && q <= 1 && r <= 1 && s <= 1
    ensures Or(p + 2 * q + 4 * x, r + 2 * s + 4 * y)
            == (if p == 1 || r == 1 then 1 else 0) + (if q == 1 || s == 1 then 2 else 0) + 4 * Or(x, y)
  {
    var u, v := q + 2 * x, s + 2 * y;
    OrUnfold(p + 2 * u, r + 2 * v);
    HalfOfSum(p, u);
    HalfOfSum(r, v);
    OrUnfold(u, v);
    HalfOfSum(q, x);
    HalfOfSum(s, y);
  }

  lemma OrAt(t: nat, u: nat, p: nat, q: nat, x: nat, r: nat, s: nat, y: nat)
    requires p <= 1 && q <= 1 && r <= 1 && s <= 1 && t == p + 2 * q + 4 * x && u == r + 2 * s + 4 * y
    ensures Or(t, u) == (if p == 1 || r == 1 then 1 else 0) + (if q == 1 || s == 1 then 2 else 0) + 4 * Or(x, y)
  {
    OrDigits(p, q, x, r, s, y);
  }

  lemma {:induction false} OrSelf(v: nat)
    ensures Or(v, v) == v
  {
    OrUnfold(v, v);
    if v > 0 {
      OrSelf(v / 2);
    }
  }
}
