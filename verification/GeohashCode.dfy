/** Codes as numbers to base 4: a digit of each coordinate in each. */
module GeohashCode {
  import opened Words
  import opened Bits
  import opened Geohash

  /** The code of two coordinates of n digits: b at the even positions and a at the odd ones. */
  function Code(a: nat, b: nat, n: nat): nat { Dig(b, n) + 2 * Dig(a, n) }

  function Dig(x: nat, n: nat): nat
    decreases n, x
  {
    if n == 0 then 0 else x % 2 + 4 * Dig(x / 2, n - 1)
  }

  /** A one at each of the first n even positions. */
  function Fours(n: nat): nat { if n == 0 then 0 else 1 + 4 * Fours(n - 1) }

  lemma {:induction false} SpreadIsDig(x: nat, n: nat)
    ensures Spread(x, 1, n) == Dig(x, n)
    decreases n
  {
    if n > 0 {
      assert Lo(x, 1) == x % 2 + 2 * Lo(x / 2, 0);
      assert Hi(x, 1) == Hi(x / 2, 0);
      UpByTwo(Spread(x / 2, 1, n - 1));
      SpreadIsDig(x / 2, n - 1);
    }
  }

  lemma {:induction false} MaskIsFours(n: nat)
    ensures Mask(1, n) == Fours(n)
  {
    if n > 0 {
      MaskOne(n);
      MaskIsFours(n - 1);
    }
  }

  lemma CodeDigit(a: nat, b: nat, n: nat)
    requires n > 0
    ensures Code(a, b, n) == b % 2 + 2 * (a % 2) + 4 * Code(a / 2, b / 2, n - 1)
  {
  }

  type Bitwise = (nat, nat) -> nat

  /** What an operator makes of two digits and the rest of its operands. */
  ghost predicate Quad(and': Bitwise, t: nat, u: nat, p: nat, q: nat, x: nat, r: nat, s: nat, m: nat) {
    p <= 1 && q <= 1 && r <= 1 && s <= 1 && t == p + 2 * q + 4 * x && u == r + 2 * s + 4 * m
    ==> and'(t, u) == (if p == 1 && r == 1 then 1 else 0) + (if q == 1 && s == 1 then 2 else 0) + 4 * and'(x, m)
  }

  /** All that the lemmas on codes use of `&`. */
  ghost predicate AndLike(and': Bitwise) {
    && (forall x: nat :: and'(x, 0) == 0)
    && forall t: nat, u: nat, p: nat, q: nat, x: nat, r: nat, s: nat, m: nat :: Quad(and', t, u, p, q, x, r, s, m)
  }

  lemma QuadAnd(t: nat, u: nat, p: nat, q: nat, x: nat, r: nat, s: nat, m: nat)
    ensures Quad(And, t, u, p, q, x, r, s, m)
  {
    if p <= 1 && q <= 1 && r <= 1 && s <= 1 && t == p + 2 * q + 4 * x && u == r + 2 * s + 4 * m {
      AndDigitsAt(t, u, p, q, x, r, s, m, And(x, m));
    }
  }

  lemma AndIsAndLike()
    ensures AndLike(And)
  {
    forall t: nat, u: nat, p: nat, q: nat, x: nat, r: nat, s: nat, m: nat {
      QuadAnd(t, u, p, q, x, r, s, m);
    }
  }

  lemma AndAt(and': Bitwise, t: nat, u: nat, p: nat, q: nat, x: nat, r: nat, s: nat, m: nat)
    requires AndLike(and') && p <= 1 && q <= 1 && r <= 1 && s <= 1 && t == p + 2 * q + 4 * x && u == r + 2 * s + 4 * m
    ensures and'(t, u) == (if p == 1 && r == 1 then 1 else 0) + (if q == 1 && s == 1 then 2 else 0) + 4 * and'(x, m)
  {
    assert Quad(and', t, u, p, q, x, r, s, m);
  }

  /** Even and odd positions of a code, with masks that reach at least as far. */
  lemma {:induction false} EvenOf(and': Bitwise, a: nat, b: nat, n: nat, m: nat)
    requires AndLike(and') && n <= m
    ensures and'(Code(a, b, n), Fours(m)) == Dig(b, n)
    ensures and'(Code(a, b, n), 2 * Fours(m)) == 2 * Dig(a, n)
    decreases m
  {
    if n > 0 {
      EvenOf(and', a / 2, b / 2, n - 1, m - 1);
      CodeDigit(a, b, n);
      AndAt(and', Code(a, b, n), Fours(m), b % 2, a % 2, Code(a / 2, b / 2, n - 1), 1, 0, Fours(m - 1));
      AndAt(and', Code(a, b, n), 2 * Fours(m), b % 2, a % 2, Code(a / 2, b / 2, n - 1), 0, 1, 2 * Fours(m - 1));
    } else if m > 0 {
      EvenOf(and', a, b, 0, m - 1);
      AndAt(and', Code(a, b, n), Fours(m), 0, 0, 0, 1, 0, Fours(m - 1));
      AndAt(and', Code(a, b, n), 2 * Fours(m), 0, 0, 0, 0, 1, 2 * Fours(m - 1));
    }
  }

  lemma {:induction false} OrOfSpreads(a: nat, b: nat, n: nat)
    ensures Or(Dig(b, n), 2 * Dig(a, n)) == Code(a, b, n)
    ensures Or(2 * Dig(a, n), Dig(b, n)) == Code(a, b, n)
    decreases n
  {
    if n > 0 {
      OrOfSpreads(a / 2, b / 2, n - 1);
      CodeDigit(a, b, n);
      OrAt(Dig(b, n), 2 * Dig(a, n), b % 2, 0, Dig(b / 2, n - 1), 0, a % 2, 2 * Dig(a / 2, n - 1));
      OrAt(2 * Dig(a, n), Dig(b, n), 0, a % 2, 2 * Dig(a / 2, n - 1), b % 2, 0, Dig(b / 2, n - 1));
    }
  }

  lemma InterleaveIs(x: nat, y: nat)
    requires x < 0x1_0000_0000 && y < 0x1_0000_0000
    ensures Interleave64(x, y) == Code(y, x, 32)
  {
    Spread64Is(x);
    Spread64Is(y);
    SpreadIsDig(x, 32);
    SpreadIsDig(y, 32);
    assert Up(Dig(y, 32), 1) == 2 * Up(Dig(y, 32), 0);
    OrOfSpreads(y, x, 32);
  }

  /** More blocks than the number has digits add nothing. */
  lemma {:induction false} SpreadShort(x: nat, n: nat)
    requires x < Pow2(n)
    ensures Dig(x, n + 1) == Dig(x, n)
    decreases n
  {
    if n > 0 {
      SpreadShort(x / 2, n - 1);
    } else {
      assert Dig(0, 0) == 0;
    }
  }

  /** Half of a code is the code of the other coordinate and the rest of the first. */
  lemma HalfCode(a: nat, b: nat, n: nat)
    requires n > 0 && b < Pow2(n)
    ensures Hi(Code(a, b, n), 1) == Code(b / 2, a, n)
  {
    SpreadShort(b / 2, n - 1);
    var v := Code(a, b, n);
    assert v == b % 2 + 2 * (Dig(a, n) + 2 * Dig(b / 2, n - 1));
    HalfOfSum(b % 2, Dig(a, n) + 2 * Dig(b / 2, n - 1));
    assert Hi(v, 1) == Hi(v / 2, 0);
  }

  /** Both coordinates come back. */
  lemma InterleaveRoundTrip(x: nat, y: nat)
    requires x < 0x1_0000_0000 && y < 0x1_0000_0000
    ensures Deinterleave64(Interleave64(x, y)) == x + 0x1_0000_0000 * y
  {
    var v := Interleave64(x, y);
    InterleaveIs(x, y);
    MaskB0(0, 32);
    MaskIsFours(32);
    SpreadIsDig(x, 32);
    SpreadIsDig(y, 32);
    UpByThirtyTwo(1);
    OrSelf(v);
    AndIsAndLike();
    EvenOf(And, y, x, 32, 32);
    Squash64Is(v, x);
    HalfCode(y, x, 32);
    OrSelf(Hi(v, 1));
    EvenOf(And, x / 2, y, 32, 32);
    Squash64Is(Hi(v, 1), y);
    OrDisjoint(x, y, 32);
    UpByThirtyTwo(y);
  }
}
