/** Machine words of any width as numbers. The bitwise operators of C are written
    digit by digit; low and high parts by a power of two are taken by repeated
    halving, so that every fact below is linear in each step. */
module Words {

  /** x * 2^k. */
  function Up(x: nat, k: nat): nat { if k == 0 then x else 2 * Up(x, k - 1) }

  lemma {:induction false} UpPositive(k: nat)
    ensures Up(1, k) >= 1
  {
    if k > 0 { UpPositive(k - 1); }
  }

  function Pow2(k: nat): (p: nat)
    ensures p >= 1
  {
    UpPositive(k);
    Up(1, k)
  }

  /** x mod 2^k. */
  function Lo(x: nat, k: nat): nat { if k == 0 then 0 else x % 2 + 2 * Lo(x / 2, k - 1) }

  /** x div 2^k. */
  function Hi(x: nat, k: nat): nat { if k == 0 then x else Hi(x / 2, k - 1) }

  function And(a: nat, b: nat): nat {
    if a == 0 || b == 0 then 0
    else (if a % 2 == 1 && b % 2 == 1 then 1 else 0) + 2 * And(a / 2, b / 2)
  }

  function Or(a: nat, b: nat): nat
    decreases a + b
  {
    if a == 0 then b else if b == 0 then a
    else (if a % 2 == 1 || b % 2 == 1 then 1 else 0) + 2 * Or(a / 2, b / 2)
  }

  function Xor(a: nat, b: nat): nat
    decreases a + b
  {
    if a == 0 then b else if b == 0 then a
    else (if a % 2 != b % 2 then 1 else 0) + 2 * Xor(a / 2, b / 2)
  }

  /** Complement of a w-bit word. */
  function Not(a: nat, w: nat): (r: nat)
    requires a < Pow2(w)
  {
    Pow2(w) - 1 - a
  }

  lemma {:induction false} UpAdd(x: nat, y: nat, k: nat)
    ensures Up(x + y, k) == Up(x, k) + Up(y, k)
  {
    if k > 0 { UpAdd(x, y, k - 1); }
  }

  lemma {:induction false} UpUp(x: nat, i: nat, j: nat)
    ensures Up(Up(x, i), j) == Up(x, i + j)
  {
    if j > 0 { UpUp(x, i, j - 1); }
  }

  lemma {:induction false} UpMono(x: nat, y: nat, k: nat)
    ensures x <= y ==> Up(x, k) <= Up(y, k)
    ensures x < y ==> Up(x, k) < Up(y, k)
    ensures x <= Up(x, k)
  {
    if k > 0 { UpMono(x, y, k - 1); }
  }

  lemma {:induction false} UpHalf(x: nat, k: nat)
    requires k > 0
    ensures Up(x, k) == Up(2 * x, k - 1)
  {
    if k > 1 { UpHalf(x, k - 1); }
  }

  lemma {:induction false} UpZero(k: nat)
    ensures Up(0, k) == 0
  {
    if k > 0 { UpZero(k - 1); }
  }

  /** Comparing by the part above 2^k first, then by what is below. */
  lemma UpLex(x: nat, a: nat, y: nat, b: nat, k: nat)
    requires x < y && a < Pow2(k)
    ensures Up(x, k) + a < Up(y, k) + b
  {
    UpAdd(x, 1, k);
    UpMono(x + 1, y, k);
  }

  lemma UpLexUnique(x: nat, a: nat, y: nat, b: nat, k: nat)
    requires a < Pow2(k) && b < Pow2(k) && Up(x, k) + a == Up(y, k) + b
    ensures x == y && a == b
  {
    if x < y {
      UpLex(x, a, y, b, k);
    } else if y < x {
      UpLex(y, b, x, a, k);
    }
  }

  /** Every number is its low part plus its high part shifted up. */
  lemma {:induction false} LoHi(x: nat, k: nat)
    ensures x == Lo(x, k) + Up(Hi(x, k), k)
    ensures Lo(x, k) < Pow2(k)
  {
    if k > 0 { LoHi(x / 2, k - 1); }
  }

  lemma LoHiUnique(x: nat, k: nat, lo: nat, hi: nat)
    requires lo < Pow2(k) && x == lo + Up(hi, k)
    ensures Lo(x, k) == lo && Hi(x, k) == hi
  {
    LoHi(x, k);
    UpLexUnique(hi, lo, Hi(x, k), Lo(x, k), k);
  }

  lemma LoSmall(x: nat, k: nat)
    requires x < Pow2(k)
    ensures Lo(x, k) == x && Hi(x, k) == 0
  {
    UpZero(k);
    LoHiUnique(x, k, x, 0);
  }

  lemma HiBelow(x: nat, k: nat, j: nat)
    requires x < Pow2(k + j)
    ensures Hi(x, k) < Pow2(j)
  {
    LoHi(x, k);
    UpUp(1, j, k);
    UpMono(Pow2(j), Hi(x, k), k);
  }

  /** Low parts nest, and the digits between positions k and k+j can be taken either way. */
  lemma {:induction false} LoLo(x: nat, k: nat, j: nat)
    ensures Lo(Lo(x, k + j), k) == Lo(x, k)
    ensures Hi(Lo(x, k + j), k) == Lo(Hi(x, k), j)
  {
    if k == 0 {
    } else {
      LoLo(x / 2, k - 1, j);
      HalfOfSum(x % 2, Lo(x / 2, k + j - 1));
    }
  }

  lemma HalfOfSum(b: nat, x: nat)
    requires b <= 1
    ensures (b + 2 * x) % 2 == b && (b + 2 * x) / 2 == x
  {}

  lemma MulAtLeast(m: int, d: int)
    requires m > 0 && d >= 1
    ensures m * d >= m
  {}

  lemma MulSmall(m: int, d: int)
    requires -m < m * d < m
    ensures d == 0
  {
    if d >= 1 {
      MulAtLeast(m, d);
    } else if d <= -1 {
      assert m * -d == -(m * d);
      MulAtLeast(m, -d);
    }
  }

  lemma DivModUnique(a: int, m: int, q: int, r: int)
    requires m > 0 && 0 <= r < m && a == m * q + r
    ensures a / m == q && a % m == r
  {
    var q2, r2 := a / m, a % m;
    assert a == m * q2 + r2;
    assert m * (q - q2) == m * q - m * q2;
    MulSmall(m, q - q2);
  }

  lemma AndUnfold(a: nat, b: nat)
    ensures And(a, b) == (if a % 2 == 1 && b % 2 == 1 then 1 else 0) + 2 * And(a / 2, b / 2)
  {}

  lemma OrUnfold(a: nat, b: nat)
    ensures Or(a, b) == (if a % 2 == 1 || b % 2 == 1 then 1 else 0) + 2 * Or(a / 2, b / 2)
  {
    if a == 0 { assert Or(a / 2, b / 2) == b / 2; }
    else if b == 0 { assert Or(a / 2, b / 2) == a / 2; }
  }

  lemma {:induction false} OrComm(a: nat, b: nat)
    ensures Or(a, b) == Or(b, a)
    decreases a + b
  {
    if a != 0 && b != 0 { OrComm(a / 2, b / 2); }
  }

  lemma XorUnfold(a: nat, b: nat)
    ensures Xor(a, b) == (if a % 2 != b % 2 then 1 else 0) + 2 * Xor(a / 2, b / 2)
  {
    if a == 0 { assert Xor(a / 2, b / 2) == b / 2; }
    else if b == 0 { assert Xor(a / 2, b / 2) == a / 2; }
  }

  lemma UpParity(x: nat, k: nat)
    requires k > 0
    ensures Up(x, k) % 2 == 0 && Up(x, k) / 2 == Up(x, k - 1)
  {}

  /** `v & (2^k - 1)` keeps the low k digits. */
  lemma AndMask(v: nat, k: nat)
    ensures And(v, Pow2(k) - 1) == Lo(v, k)
  {
    AndOnesBelow(v, Pow2(k) - 1, k);
  }

  lemma {:induction false} AndOnesBelow(v: nat, m: nat, k: nat)
    requires m + 1 == Pow2(k)
    ensures And(v, m) == Lo(v, k)
    decreases k
  {
    if k > 0 {
      HalfOnes(m, k);
      AndOnesBelow(v / 2, m / 2, k - 1);
      AndUnfold(v, m);
    }
  }

  lemma HalfOnes(x: nat, k: nat)
    requires k > 0 && x + 1 == Pow2(k)
    ensures x % 2 == 1 && x / 2 + 1 == Pow2(k - 1)
  {}

  lemma OnesSplit(k: nat)
    requires k > 0
    ensures Pow2(k) - 1 == 1 + 2 * (Pow2(k - 1) - 1)
  {}

  lemma OrOdd(v: nat, m: nat)
    ensures Or(v, 1 + 2 * m) == 1 + 2 * Or(v / 2, m)
  {
    HalfOfSum(1, m);
    OrUnfold(v, 1 + 2 * m);
  }

  /** `v | (2^k - 1)` sets the low k digits. */
  lemma {:induction false} OrMask(v: nat, k: nat)
    ensures Or(v, Pow2(k) - 1) == Up(Hi(v, k), k) + Pow2(k) - 1
  {
    if k > 0 {
      OrMask(v / 2, k - 1);
      OnesSplit(k);
      OrOdd(v, Pow2(k - 1) - 1);
    }
  }

  lemma {:induction false} NotMask(k: nat, j: nat)
    ensures Pow2(k) - 1 < Pow2(k + j)
    ensures Not(Pow2(k) - 1, k + j) == Up(Pow2(j) - 1, k)
  {
    UpUp(1, j, k);
    UpAdd(Pow2(j) - 1, 1, k);
  }

  lemma {:induction false} AndOnes(x: nat, n: nat)
    requires x < Pow2(n)
    ensures And(x, Pow2(n) - 1) == x
  {
    AndMask(x, n);
    LoSmall(x, n);
  }

  lemma {:induction false} OrOnes(x: nat, n: nat)
    requires x < Pow2(n)
    ensures Or(x, Pow2(n) - 1) == Pow2(n) - 1
  {
    OrMask(x, n);
    LoSmall(x, n);
    UpZero(n);
  }

  lemma {:induction false} AndUp(v: nat, q: nat, k: nat)
    ensures And(v, Up(q, k)) == Up(And(Hi(v, k), q), k)
  {
    if k > 0 {
      AndUp(v / 2, q, k - 1);
      UpParity(q, k);
      AndUnfold(v, Up(q, k));
    }
  }

  lemma {:induction false} OrUp(v: nat, q: nat, k: nat)
    ensures Or(v, Up(q, k)) == Lo(v, k) + Up(Or(Hi(v, k), q), k)
  {
    if k > 0 {
      OrUp(v / 2, q, k - 1);
      UpParity(q, k);
      OrUnfold(v, Up(q, k));
    }
  }

  /** `v & ~(2^k - 1)` clears the low k digits of a word of k+j bits. */
  lemma AndNotMask(v: nat, k: nat, j: nat)
    requires v < Pow2(k + j)
    ensures Pow2(k) - 1 < Pow2(k + j)
    ensures And(v, Not(Pow2(k) - 1, k + j)) == Up(Hi(v, k), k)
  {
    NotMask(k, j);
    AndUp(v, Pow2(j) - 1, k);
    HiBelow(v, k, j);
    AndOnes(Hi(v, k), j);
  }

  /** `v | ~(2^k - 1)` keeps the low k digits and sets all the others. */
  lemma OrNotMask(v: nat, k: nat, j: nat)
    requires v < Pow2(k + j)
    ensures Pow2(k) - 1 < Pow2(k + j)
    ensures Or(v, Not(Pow2(k) - 1, k + j)) == Lo(v, k) + Up(Pow2(j) - 1, k)
  {
    NotMask(k, j);
    OrUp(v, Pow2(j) - 1, k);
    HiBelow(v, k, j);
    OrOnes(Hi(v, k), j);
  }

  /** A multiple of 2^k and a smaller number share no digit. */
  lemma OrDisjoint(r: nat, q: nat, k: nat)
    requires r < Pow2(k)
    ensures Or(r, Up(q, k)) == r + Up(q, k)
  {
    OrUp(r, q, k);
    LoSmall(r, k);
  }

  lemma XorZero(b: nat)
    ensures Xor(0, b) == b
  {}

  /** The digits in which the masks of sizes 2^k and 2^(k+j) differ. */
  lemma {:induction false} XorOnes(x: nat, y: nat, k: nat, j: nat)
    requires x + 1 == Pow2(k) && y + 1 == Pow2(k + j)
    ensures Xor(x, y) == Up(Pow2(j) - 1, k)
    decreases k
  {
    if k == 0 {
      XorZero(y);
    } else {
      HalfOnes(x, k);
      HalfOnes(y, k + j);
      XorOnes(x / 2, y / 2, k - 1, j);
      XorUnfold(x, y);
    }
  }

  lemma XorMasks(k: nat, j: nat)
    ensures Xor(Pow2(k) - 1, Pow2(k + j) - 1) == Up(Pow2(j) - 1, k)
  {
    XorOnes(Pow2(k) - 1, Pow2(k + j) - 1, k, j);
  }

  lemma {:induction false} HiHi(x: nat, a: nat, b: nat)
    ensures Hi(Hi(x, a), b) == Hi(x, a + b)
  {
    if a > 0 {
      HiHi(x / 2, a - 1, b);
    }
  }

  lemma PowMono(a: nat, b: nat)
    requires a <= b
    ensures Pow2(a) <= Pow2(b)
  {
    UpUp(1, b - a, a);
    UpPositive(b - a);
    UpMono(1, Up(1, b - a), a);
  }

  lemma LoHalf(a: nat, k: nat)
    requires k > 0
    ensures Lo(a, k) % 2 == a % 2 && Lo(a, k) / 2 == Lo(a / 2, k - 1)
  {
    HalfOfSum(a % 2, Lo(a / 2, k - 1));
  }

  /** The low and the high parts are combined separately. */
  lemma {:induction false} AndSplit(a: nat, b: nat, k: nat)
    ensures And(a, b) == And(Lo(a, k), Lo(b, k)) + Up(And(Hi(a, k), Hi(b, k)), k)
  {
    if k > 0 {
      AndUnfold(a, b);
      AndSplit(a / 2, b / 2, k - 1);
      AndUnfold(Lo(a, k), Lo(b, k));
      LoHalf(a, k);
      LoHalf(b, k);
    }
  }

  lemma UpByTwo(x: nat)
    ensures Up(x, 2) == 4 * x
  {
    assert Up(x, 1) == 2 * x;
  }

  lemma UpByFour(x: nat)
    ensures Up(x, 4) == 16 * x
  {
    UpByTwo(x);
    UpByTwo(Up(x, 2));
    UpUp(x, 2, 2);
  }

  lemma UpByEight(x: nat)
    ensures Up(x, 8) == 256 * x
  {
    UpByFour(x);
    UpByFour(Up(x, 4));
    UpUp(x, 4, 4);
  }
}
