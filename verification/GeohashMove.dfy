/** Adding and subtracting on one coordinate of a code: carries and borrows run through the positions
    of the other coordinate, which are filled with ones for the sum and masked away after it. */
module GeohashMove {
  import opened Words
  import opened Bits
  import opened Geohash
  import opened GeohashCode

  /** One more, and one less, modulo 2^n. */
  function Succ(a: nat, n: nat): nat { if a + 1 == Pow2(n) then 0 else a + 1 }

  function Pred(a: nat, n: nat): nat { if a == 0 then Pow2(n) - 1 else a - 1 }

  lemma SuccArith(a: nat, p: nat)
    requires a < 2 * p
    ensures var r := if a + 1 == 2 * p then 0 else a + 1;
      && (a % 2 == 0 ==> r % 2 == 1 && r / 2 == a / 2)
      && (a % 2 == 1 ==> r % 2 == 0 && r / 2 == if a / 2 + 1 == p then 0 else a / 2 + 1)
  {}

  lemma PredArith(a: nat, p: nat)
    requires a < 2 * p
    ensures var r := if a == 0 then 2 * p - 1 else a - 1;
      && (a % 2 == 1 ==> r % 2 == 0 && r / 2 == a / 2)
      && (a % 2 == 0 ==> r % 2 == 1 && r / 2 == if a / 2 == 0 then p - 1 else a / 2 - 1)
  {}

  lemma SuccDigits(a: nat, n: nat)
    requires n > 0 && a < Pow2(n)
    ensures a % 2 == 0 ==> Succ(a, n) % 2 == 1 && Succ(a, n) / 2 == a / 2
    ensures a % 2 == 1 ==> Succ(a, n) % 2 == 0 && Succ(a, n) / 2 == Succ(a / 2, n - 1)
  {
    OnesSplit(n);
    SuccArith(a, Pow2(n - 1));
  }

  lemma PredDigits(a: nat, n: nat)
    requires n > 0 && a < Pow2(n)
    ensures a % 2 == 1 ==> Pred(a, n) % 2 == 0 && Pred(a, n) / 2 == a / 2
    ensures a % 2 == 0 ==> Pred(a, n) % 2 == 1 && Pred(a, n) / 2 == Pred(a / 2, n - 1)
  {
    OnesSplit(n);
    PredArith(a, Pow2(n - 1));
  }

  lemma HalfBelow(a: nat, n: nat)
    requires n > 0 && a < Pow2(n)
    ensures a / 2 < Pow2(n - 1)
  {}

  // ---------------------------------------------------------------- masked sums, two digits at a time

  lemma {:induction false} OnesSpread(n: nat)
    ensures Dig(Pow2(n) - 1, n) == Fours(n)
    decreases n
  {
    if n > 0 {
      OnesSplit(n);
      HalfOfSum(1, Pow2(n - 1) - 1);
      OnesSpread(n - 1);
    }
  }

  /** The filled even positions do not show at the odd ones. */
  lemma Filled(and': Bitwise, a: nat, n: nat)
    requires AndLike(and')
    ensures and'(2 * Dig(a, n) + Fours(n), 2 * Fours(n)) == 2 * Dig(a, n)
    ensures and'(Dig(a, n) + 2 * Fours(n), Fours(n)) == Dig(a, n)
  {
    OnesSpread(n);
    FilledAt(and', a, Pow2(n) - 1, n, 2 * Dig(a, n) + Fours(n), Dig(a, n) + 2 * Fours(n));
  }

  lemma FilledAt(and': Bitwise, a: nat, ones: nat, n: nat, t: nat, u: nat)
    requires AndLike(and') && Dig(ones, n) == Fours(n) && t == 2 * Dig(a, n) + Fours(n) && u == Dig(a, n) + 2 * Fours(n)
    ensures and'(t, 2 * Fours(n)) == 2 * Dig(a, n) && and'(u, Fours(n)) == Dig(a, n)
  {
    EvenOf(and', a, ones, n, n);
    EvenOf(and', ones, a, n, n);
    assert t == Code(a, ones, n) && u == Code(ones, a, n);
  }

  lemma SuccSpread(a: nat, n: nat)
    requires n > 0 && a < Pow2(n)
    ensures a / 2 < Pow2(n - 1)
    ensures Dig(Succ(a, n), n) == if a % 2 == 0 then 1 + 4 * Dig(a / 2, n - 1) else 4 * Dig(Succ(a / 2, n - 1), n - 1)
  {
    HalfBelow(a, n);
    SuccDigits(a, n);
  }

  lemma PredSpread(a: nat, n: nat)
    requires n > 0 && a < Pow2(n)
    ensures a / 2 < Pow2(n - 1)
    ensures Dig(Pred(a, n), n) == if a % 2 == 1 then 4 * Dig(a / 2, n - 1) else 1 + 4 * Dig(Pred(a / 2, n - 1), n - 1)
  {
    HalfBelow(a, n);
    PredDigits(a, n);
  }

  lemma DigParts(a: nat, n: nat)
    requires n > 0
    ensures Dig(a, n) == a % 2 + 4 * Dig(a / 2, n - 1) && Fours(n) == 1 + 4 * Fours(n - 1)
  {}

  /** One round of a carry: at a clear digit it stops, at a set one it goes on. */
  lemma IncOddRound(and': Bitwise, d: nat, f: nat, e: nat, sa: nat, m: nat, next: nat)
    requires AndLike(and') && e <= 1 && d == e + 4 * sa && f == 1 + 4 * m
    requires if e == 0 then and'(2 * sa + m, 2 * m) == 2 * sa else and'(2 * sa + m + 1, 2 * m) == 2 * next
    ensures and'(2 * d + f + 1, 2 * f) == 2 * if e == 0 then 1 + 4 * sa else 4 * next
  {
    if e == 0 {
      AndAt(and', 2 * d + f + 1, 2 * f, 0, 1, 2 * sa + m, 0, 1, 2 * m);
    } else {
      AndAt(and', 2 * d + f + 1, 2 * f, 0, 0, 2 * sa + m + 1, 0, 1, 2 * m);
    }
  }

  lemma IncEvenRound(and': Bitwise, d: nat, f: nat, e: nat, sb: nat, m: nat, next: nat)
    requires AndLike(and') && e <= 1 && d == e + 4 * sb && f == 1 + 4 * m
    requires if e == 0 then and'(sb + 2 * m, m) == sb else and'(sb + 2 * m + 1, m) == next
    ensures and'(d + 2 * f + 1, f) == if e == 0 then 1 + 4 * sb else 4 * next
  {
    if e == 0 {
      AndAt(and', d + 2 * f + 1, f, 1, 1, sb + 2 * m, 1, 0, m);
    } else {
      AndAt(and', d + 2 * f + 1, f, 0, 0, sb + 2 * m + 1, 1, 0, m);
    }
  }

  /** A carry runs through the filled positions up to the first clear digit. */
  lemma {:induction false} IncOdd(and': Bitwise, a: nat, n: nat)
    requires AndLike(and') && a < Pow2(n)
    ensures and'(2 * Dig(a, n) + Fours(n) + 1, 2 * Fours(n)) == 2 * Dig(Succ(a, n), n)
    decreases n
  {
    if n > 0 {
      DigParts(a, n);
      SuccSpread(a, n);
      if a % 2 == 0 { Filled(and', a / 2, n - 1); } else { IncOdd(and', a / 2, n - 1); }
      IncOddRound(and', Dig(a, n), Fours(n), a % 2, Dig(a / 2, n - 1), Fours(n - 1), Dig(Succ(a / 2, n - 1), n - 1));
    }
  }

  lemma {:induction false} IncEven(and': Bitwise, b: nat, n: nat)
    requires AndLike(and') && b < Pow2(n)
    ensures and'(Dig(b, n) + 2 * Fours(n) + 1, Fours(n)) == Dig(Succ(b, n), n)
    decreases n
  {
    if n > 0 {
      DigParts(b, n);
      SuccSpread(b, n);
      if b % 2 == 0 { Filled(and', b / 2, n - 1); } else { IncEven(and', b / 2, n - 1); }
      IncEvenRound(and', Dig(b, n), Fours(n), b % 2, Dig(b / 2, n - 1), Fours(n - 1), Dig(Succ(b / 2, n - 1), n - 1));
    }
  }

  // ---------------------------------------------------------------- one less

  lemma FourTimes(k: nat)
    requires k > 0
    ensures Pow2(2 * k) == 4 * Pow2(2 * (k - 1))
  {
    assert Pow2(2 * k) == 2 * Pow2(2 * k - 1);
  }

  /** A power of two above the mask does not show. */
  lemma {:induction false} Above(and': Bitwise, a: nat, n: nat, k: nat)
    requires AndLike(and') && n <= k
    ensures and'(2 * Dig(a, n) + Pow2(2 * k), 2 * Fours(n)) == 2 * Dig(a, n)
    ensures and'(Dig(a, n) + Pow2(2 * k), Fours(n)) == Dig(a, n)
    decreases n
  {
    if n > 0 {
      var sa, m, p := Dig(a / 2, n - 1), Fours(n - 1), Pow2(2 * (k - 1));
      FourTimes(k);
      Above(and', a / 2, n - 1, k - 1);
      AndAt(and', 2 * Dig(a, n) + Pow2(2 * k), 2 * Fours(n), 0, a % 2, 2 * sa + p, 0, 1, 2 * m);
      AndAt(and', Dig(a, n) + Pow2(2 * k), Fours(n), a % 2, 0, sa + p, 1, 0, m);
    }
  }

  /** One round of a borrow: at a set digit it stops, at a clear one it goes on. */
  lemma DecOddRound(and': Bitwise, d: nat, f: nat, q: nat, e: nat, sa: nat, m: nat, p: nat, next: nat)
    requires AndLike(and') && e <= 1 && p >= 1 && d == e + 4 * sa && f == 1 + 4 * m && q == 4 * p
    requires if e == 1 then and'(2 * sa + p, 2 * m) == 2 * sa else and'(2 * sa + p - 1, 2 * m) == 2 * next
    ensures and'(2 * d + q - 1, 2 * f) == 2 * if e == 1 then 4 * sa else 1 + 4 * next
  {
    if e == 1 {
      AndAt(and', 2 * d + q - 1, 2 * f, 1, 0, 2 * sa + p, 0, 1, 2 * m);
    } else {
      AndAt(and', 2 * d + q - 1, 2 * f, 1, 1, 2 * sa + p - 1, 0, 1, 2 * m);
    }
  }

  lemma DecEvenRound(and': Bitwise, d: nat, f: nat, q: nat, e: nat, sb: nat, m: nat, p: nat, next: nat)
    requires AndLike(and') && e <= 1 && p >= 1 && d == e + 4 * sb && f == 1 + 4 * m && q == 4 * p
    requires if e == 1 then and'(sb + p, m) == sb else and'(sb + p - 1, m) == next
    ensures and'(d + q - 1, f) == if e == 1 then 4 * sb else 1 + 4 * next
  {
    if e == 1 {
      AndAt(and', d + q - 1, f, 0, 0, sb + p, 1, 0, m);
    } else {
      AndAt(and', d + q - 1, f, 1, 1, sb + p - 1, 1, 0, m);
    }
  }

  /** A borrow runs down to the first set digit. */
  lemma {:induction false} DecOdd(and': Bitwise, a: nat, n: nat, k: nat)
    requires AndLike(and') && a < Pow2(n) && n <= k
    ensures and'(2 * Dig(a, n) + Pow2(2 * k) - 1, 2 * Fours(n)) == 2 * Dig(Pred(a, n), n)
    decreases n
  {
    if n > 0 {
      PredSpread(a, n);
      if a % 2 == 1 { Above(and', a / 2, n - 1, k - 1); } else { DecOdd(and', a / 2, n - 1, k - 1); }
      DecOddNext(and', a, n, k, Dig(a / 2, n - 1), Fours(n - 1), Pow2(2 * (k - 1)), Dig(Pred(a / 2, n - 1), n - 1));
    }
  }

  lemma DecOddNext(and': Bitwise, a: nat, n: nat, k: nat, sa: nat, m: nat, p: nat, next: nat)
    requires AndLike(and') && 0 < n <= k && sa == Dig(a / 2, n - 1) && m == Fours(n - 1) && p == Pow2(2 * (k - 1))
    requires if a % 2 == 1 then and'(2 * sa + p, 2 * m) == 2 * sa else and'(2 * sa + p - 1, 2 * m) == 2 * next
    ensures and'(2 * Dig(a, n) + Pow2(2 * k) - 1, 2 * Fours(n)) == 2 * if a % 2 == 1 then 4 * sa else 1 + 4 * next
  {
    DigParts(a, n);
    FourTimes(k);
    DecOddRound(and', Dig(a, n), Fours(n), Pow2(2 * k), a % 2, sa, m, p, next);
  }

  lemma {:induction false} DecEven(and': Bitwise, b: nat, n: nat, k: nat)
    requires AndLike(and') && b < Pow2(n) && n <= k
    ensures and'(Dig(b, n) + Pow2(2 * k) - 1, Fours(n)) == Dig(Pred(b, n), n)
    decreases n
  {
    if n > 0 {
      PredSpread(b, n);
      if b % 2 == 1 { Above(and', b / 2, n - 1, k - 1); } else { DecEven(and', b / 2, n - 1, k - 1); }
      DecEvenNext(and', b, n, k, Dig(b / 2, n - 1), Fours(n - 1), Pow2(2 * (k - 1)), Dig(Pred(b / 2, n - 1), n - 1));
    }
  }

  lemma DecEvenNext(and': Bitwise, b: nat, n: nat, k: nat, sb: nat, m: nat, p: nat, next: nat)
    requires AndLike(and') && 0 < n <= k && sb == Dig(b / 2, n - 1) && m == Fours(n - 1) && p == Pow2(2 * (k - 1))
    requires if b % 2 == 1 then and'(sb + p, m) == sb else and'(sb + p - 1, m) == next
    ensures and'(Dig(b, n) + Pow2(2 * k) - 1, Fours(n)) == if b % 2 == 1 then 4 * sb else 1 + 4 * next
  {
    DigParts(b, n);
    FourTimes(k);
    DecEvenRound(and', Dig(b, n), Fours(n), Pow2(2 * k), b % 2, sb, m, p, next);
  }

  // ---------------------------------------------------------------- with the operator itself

  lemma IncOddWord(t: nat, u: nat, a: nat, n: nat)
    requires a < Pow2(n) && t == 2 * Dig(a, n) + Fours(n) + 1 && u == 2 * Fours(n)
    ensures And(t, u) == 2 * Dig(Succ(a, n), n)
  {
    AndIsAndLike();
    IncOdd(And, a, n);
  }

  lemma DecOddWord(t: nat, u: nat, a: nat, n: nat, k: nat)
    requires a < Pow2(n) && n <= k && t == 2 * Dig(a, n) + Pow2(2 * k) - 1 && u == 2 * Fours(n)
    ensures And(t, u) == 2 * Dig(Pred(a, n), n)
  {
    AndIsAndLike();
    DecOdd(And, a, n, k);
  }

  lemma IncEvenWord(t: nat, u: nat, b: nat, n: nat)
    requires b < Pow2(n) && t == Dig(b, n) + 2 * Fours(n) + 1 && u == Fours(n)
    ensures And(t, u) == Dig(Succ(b, n), n)
  {
    AndIsAndLike();
    IncEven(And, b, n);
  }

  lemma DecEvenWord(t: nat, u: nat, b: nat, n: nat, k: nat)
    requires b < Pow2(n) && n <= k && t == Dig(b, n) + Pow2(2 * k) - 1 && u == Fours(n)
    ensures And(t, u) == Dig(Pred(b, n), n)
  {
    AndIsAndLike();
    DecEven(And, b, n, k);
  }

  lemma HalvesOf(c: nat, a: nat, b: nat, n: nat, m: nat)
    requires n <= m && c == Code(a, b, n)
    ensures And(c, Fours(m)) == Dig(b, n) && And(c, 2 * Fours(m)) == 2 * Dig(a, n)
  {
    AndIsAndLike();
    EvenOf(And, a, b, n, m);
  }
}
