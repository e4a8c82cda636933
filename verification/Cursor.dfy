/** The reverse-binary cursor of dictScan: how it advances, which buckets one call
    visits, and exactly when a call made during a rehash visits all that it passes. */
module Cursor {
  import opened Words

  /** The w low digits of v in reverse order. */
  function Rev(v: nat, w: nat): nat {
    if w == 0 then 0 else Up(v % 2, w - 1) + Rev(v / 2, w - 1)
  }

  lemma {:induction false} RevBelow(v: nat, w: nat)
    ensures Rev(v, w) < Pow2(w)
  {
    if w > 0 {
      RevBelow(v / 2, w - 1);
      UpZero(w - 1);
    }
  }

  /** Reversing swaps the low and the high part and reverses each. */
  lemma {:induction false} RevSplit(v: nat, k: nat, j: nat)
    ensures Rev(v, k + j) == Up(Rev(Lo(v, k), k), j) + Rev(Hi(v, k), j)
  {
    if k == 0 {
      UpZero(j);
    } else {
      RevSplit(v / 2, k - 1, j);
      HalfOfSum(v % 2, Lo(v / 2, k - 1));
      UpUp(v % 2, k - 1, j);
      UpAdd(Up(v % 2, k - 1), Rev(Lo(v / 2, k - 1), k - 1), j);
    }
  }

  lemma {:induction false} RevTwice(v: nat, w: nat)
    requires v < Pow2(w)
    ensures Rev(Rev(v, w), w) == v
  {
    if w > 0 {
      var x := Rev(v / 2, w - 1);
      RevTwice(v / 2, w - 1);
      RevBelow(v / 2, w - 1);
      LoHiUnique(Rev(v, w), w - 1, x, v % 2);
      RevSplit(Rev(v, w), w - 1, 1);
      assert Up(v / 2, 1) == 2 * Up(v / 2, 0) == 2 * (v / 2);
      assert Rev(v % 2, 1) == Up(v % 2, 0) + Rev((v % 2) / 2, 0) == v % 2;
    }
  }

  lemma RevInjective(x: nat, y: nat, w: nat)
    requires x < Pow2(w) && y < Pow2(w) && Rev(x, w) == Rev(y, w)
    ensures x == y
  {
    RevTwice(x, w);
    RevTwice(y, w);
  }

  lemma {:induction false} RevOnes(k: nat)
    ensures Rev(Pow2(k) - 1, k) == Pow2(k) - 1
  {
    if k > 0 { RevOnes(k - 1); }
  }

  lemma {:induction false} RevZero(k: nat)
    ensures Rev(0, k) == 0
  {
    if k > 0 {
      RevZero(k - 1);
      UpZero(k - 1);
    }
  }

  /** The tail of dictScan on w-bit words: set the digits above the mask, then
      increment the reversed word. */
  function Next(v: nat, mask: nat, w: nat): nat
    requires mask < Pow2(w)
  {
    Rev(Lo(Rev(Or(v, Not(mask, w)), w) + 1, w), w)
  }

  /** Hash h lies at or after cursor v in reversed order: still to be scanned. */
  predicate Ahead(h: nat, v: nat, w: nat) { Rev(v, w) <= Rev(h, w) }

  /** Hash h lies before the cursor a call returned; 0 is past everything. */
  predicate Passed(h: nat, next: nat, w: nat) { next == 0 || Rev(h, w) < Rev(next, w) }

  lemma FilledReversed(v: nat, k: nat, j: nat)
    requires v < Pow2(k + j)
    ensures Pow2(k) - 1 < Pow2(k + j)
    ensures Rev(Or(v, Not(Pow2(k) - 1, k + j)), k + j) + 1 == Up(Rev(Lo(v, k), k) + 1, j)
  {
    OrNotMask(v, k, j);
    var u := Or(v, Not(Pow2(k) - 1, k + j));
    LoHi(v, k);
    LoHiUnique(u, k, Lo(v, k), Pow2(j) - 1);
    RevSplit(u, k, j);
    RevOnes(j);
    UpAdd(Rev(Lo(v, k), k), 1, j);
  }

  lemma RevInside(x: nat, w: nat)
    requires 0 < x < Pow2(w)
    ensures var n := Rev(Lo(x, w), w); n != 0 && Rev(n, w) == x
  {
    LoSmall(x, w);
    RevTwice(x, w);
    RevZero(w);
  }

  lemma RevAtEnd(w: nat)
    ensures Rev(Lo(Pow2(w), w), w) == 0
  {
    LoHiUnique(Pow2(w), w, 0, 1);
    RevZero(w);
  }

  lemma RevOfUp(q: nat, k: nat, j: nat)
    requires 0 < q <= Pow2(k)
    ensures var n := Rev(Lo(Up(q, j), k + j), k + j);
            if q == Pow2(k) then n == 0 else n != 0 && Rev(n, k + j) == Up(q, j)
  {
    UpUp(1, k, j);
    if q == Pow2(k) {
      RevAtEnd(k + j);
    } else {
      UpMono(q, Pow2(k), j);
      RevInside(Up(q, j), k + j);
    }
  }

  /** The cursor moves to the next block of reversed numbers, or the scan ends. */
  lemma NextReversed(v: nat, k: nat, j: nat)
    requires v < Pow2(k + j)
    ensures Pow2(k) - 1 < Pow2(k + j)
    ensures var r, n := Rev(Lo(v, k), k), Next(v, Pow2(k) - 1, k + j);
            && n < Pow2(k + j)
            && (if r + 1 == Pow2(k) then n == 0 else n != 0 && Rev(n, k + j) == Up(r + 1, j))
  {
    FilledReversed(v, k, j);
    RevBelow(Lo(v, k), k);
    RevOfUp(Rev(Lo(v, k), k) + 1, k, j);
    RevBelow(Lo(Up(Rev(Lo(v, k), k) + 1, j), k + j), k + j);
  }

  /** The reversed cursor strictly increases until the scan ends. */
  lemma CursorIncreases(v: nat, k: nat, j: nat)
    requires v < Pow2(k + j)
    ensures Pow2(k) - 1 < Pow2(k + j)
    ensures var n := Next(v, Pow2(k) - 1, k + j);
            n < Pow2(k + j) && (n != 0 ==> Rev(v, k + j) < Rev(n, k + j))
  {
    var r := Rev(Lo(v, k), k);
    NextReversed(v, k, j);
    RevSplit(v, k, j);
    RevBelow(Hi(v, k), j);
    UpLex(r, Rev(Hi(v, k), j), r + 1, 0, j);
  }

  /** A call passes exactly the hashes ahead of the cursor in the cursor's bucket. */
  lemma PassedIffSameBucket(k: nat, j: nat, v: nat, h: nat)
    requires v < Pow2(k + j) && h < Pow2(k + j) && Ahead(h, v, k + j)
    ensures Pow2(k) - 1 < Pow2(k + j)
    ensures Passed(h, Next(v, Pow2(k) - 1, k + j), k + j) <==> Lo(h, k) == Lo(v, k)
  {
    var rv, rh := Rev(Lo(v, k), k), Rev(Lo(h, k), k);
    NextReversed(v, k, j);
    RevSplit(v, k, j);
    RevSplit(h, k, j);
    RevBelow(Hi(v, k), j);
    RevBelow(Hi(h, k), j);
    SameBlock(rv, Rev(Hi(v, k), j), rh, Rev(Hi(h, k), j), j);
    RevBelow(Lo(h, k), k);
    LoHi(h, k);
    LoHi(v, k);
    if rh == rv {
      RevInjective(Lo(h, k), Lo(v, k), k);
    }
  }

  /** From a number on, those of the same block of size 2^j come before the next block. */
  lemma SameBlock(a: nat, b: nat, c: nat, d: nat, j: nat)
    requires b < Pow2(j) && d < Pow2(j) && Up(a, j) + b <= Up(c, j) + d
    ensures a <= c && (Up(c, j) + d < Up(a + 1, j) <==> c == a)
  {
    if c < a {
      UpLex(c, d, a, b, j);
    } else if c == a {
      UpLex(c, d, a + 1, 0, j);
    } else {
      UpMono(a + 1, c, j);
    }
  }

  /** A cursor at or beyond the one a call returned stands on another bucket. */
  lemma NextElsewhere(v: nat, u: nat, k: nat, j: nat)
    requires v < Pow2(k + j) && u < Pow2(k + j) && Pow2(k) - 1 < Pow2(k + j)
    requires Next(v, Pow2(k) - 1, k + j) != 0 && Rev(Next(v, Pow2(k) - 1, k + j), k + j) <= Rev(u, k + j)
    ensures Lo(u, k) != Lo(v, k)
  {
    CursorIncreases(v, k, j);
    PassedIffSameBucket(k, j, v, u);
  }

  lemma PassedSameBucket(k: nat, w: nat, v: nat, h: nat, n: nat)
    requires k <= w && v < Pow2(w) && h < Pow2(w) && Pow2(k) - 1 < Pow2(w) && n == Next(v, Pow2(k) - 1, w)
    requires Ahead(h, v, w) && Passed(h, n, w)
    ensures Lo(h, k) == Lo(v, k)
  {
    var j := w - k;
    assert k + j == w;
    PassedIffSameBucket(k, j, v, h);
  }

  lemma LaterElsewhere(v: nat, u: nat, k: nat, w: nat, n: nat)
    requires k <= w && v < Pow2(w) && u < Pow2(w) && Pow2(k) - 1 < Pow2(w) && n == Next(v, Pow2(k) - 1, w)
    requires n != 0 && Rev(n, w) <= Rev(u, w)
    ensures Lo(u, k) != Lo(v, k)
  {
    var j := w - k;
    assert k + j == w;
    NextElsewhere(v, u, k, j);
  }

  lemma RevShort(v: nat, e: nat, j: nat)
    requires v < Pow2(e)
    ensures Rev(v, e + j) == Up(Rev(v, e), j)
  {
    LoSmall(v, e);
    RevSplit(v, e, j);
    RevZero(j);
  }

  /** The cursor returned has no digit above the mask. */
  lemma NextShort(v: nat, e: nat, j: nat)
    requires v < Pow2(e + j)
    ensures Pow2(e) - 1 < Pow2(e + j)
    ensures Next(v, Pow2(e) - 1, e + j) < Pow2(e)
  {
    NextReversed(v, e, j);
    var n := Next(v, Pow2(e) - 1, e + j);
    if n != 0 {
      RevSplit(n, e, j);
      RevBelow(Hi(n, e), j);
      UpLexUnique(Rev(Lo(v, e), e) + 1, 0, Rev(Lo(n, e), e), Rev(Hi(n, e), j), j);
      HiBelow(n, e, j);
      RevZero(j);
      RevInjective(Hi(n, e), 0, j);
      LoHi(n, e);
      UpZero(e);
    }
  }

  /** The j digits of a word just above its k low ones: what the mask of 2^(k+j) has
      and the mask of 2^k has not. */
  function Between(v: nat, k: nat, j: nat): nat { Lo(Hi(v, k), j) }

  /** Increment of the digits not covered by the smaller mask. */
  function StepUp(v: nat, m0: nat, w: nat): nat
    requires m0 < Pow2(w)
  {
    Or(And(Lo(Or(v, m0) + 1, w), Not(m0, w)), And(v, m0))
  }

  lemma HighIncrement(v: nat, k: nat, i: nat)
    requires v < Pow2(k + i)
    ensures Pow2(k) - 1 < Pow2(k + i)
    ensures And(Lo(Or(v, Pow2(k) - 1) + 1, k + i), Not(Pow2(k) - 1, k + i)) == Up(Lo(Hi(v, k) + 1, i), k)
  {
    var q := Hi(v, k);
    OrMask(v, k);
    UpAdd(q, 1, k);
    var s := Lo(Up(q + 1, k), k + i);
    LoHi(Up(q + 1, k), k + i);
    AndNotMask(s, k, i);
    LoLo(Up(q + 1, k), k, i);
    LoHiUnique(Up(q + 1, k), k, 0, q + 1);
  }

  lemma StepUpParts(v: nat, k: nat, i: nat)
    requires v < Pow2(k + i)
    ensures Pow2(k) - 1 < Pow2(k + i)
    ensures var u := StepUp(v, Pow2(k) - 1, k + i);
            u < Pow2(k + i) && Lo(u, k) == Lo(v, k) && Hi(u, k) == Lo(Hi(v, k) + 1, i)
  {
    StepUpValue(v, k, i);
    LoHi(v, k);
    LoHi(Hi(v, k) + 1, i);
    JoinParts(Lo(v, k), Lo(Hi(v, k) + 1, i), k, i);
  }

  lemma JoinParts(lo: nat, hi: nat, k: nat, i: nat)
    requires lo < Pow2(k) && hi < Pow2(i)
    ensures lo + Up(hi, k) < Pow2(k + i) && Lo(lo + Up(hi, k), k) == lo && Hi(lo + Up(hi, k), k) == hi
  {
    LoHiUnique(lo + Up(hi, k), k, lo, hi);
    UpLex(hi, lo, Pow2(i), 0, k);
    UpUp(1, i, k);
  }

  lemma StepUpValue(v: nat, k: nat, i: nat)
    requires v < Pow2(k + i)
    ensures Pow2(k) - 1 < Pow2(k + i)
    ensures StepUp(v, Pow2(k) - 1, k + i) == Lo(v, k) + Up(Lo(Hi(v, k) + 1, i), k)
  {
    var q := Lo(Hi(v, k) + 1, i);
    HighIncrement(v, k, i);
    AndMask(v, k);
    LoHi(v, k);
    OrComm(Up(q, k), Lo(v, k));
    OrDisjoint(Lo(v, k), q, k);
  }

  lemma {:induction false} LoIncrement(q: nat, j: nat)
    ensures Lo(q + 1, j) == if Lo(q, j) + 1 == Pow2(j) then 0 else Lo(q, j) + 1
  {
    if j > 0 {
      LoHi(q / 2, j - 1);
      if q % 2 == 1 { LoIncrement(q / 2, j - 1); }
    }
  }

  /** The expansion loop keeps the smaller bucket and counts the digits in between up by one. */
  lemma StepUpBetween(v: nat, k: nat, j: nat, i: nat)
    requires v < Pow2(k + (j + i))
    ensures Pow2(k) - 1 < Pow2(k + (j + i))
    ensures var u, d := StepUp(v, Pow2(k) - 1, k + (j + i)), Between(v, k, j);
            && u < Pow2(k + (j + i)) && Lo(u, k) == Lo(v, k)
            && Between(u, k, j) == (if d + 1 == Pow2(j) then 0 else d + 1)
  {
    StepUpParts(v, k, j + i);
    LoLo(Hi(v, k) + 1, j, i);
    LoIncrement(Hi(v, k), j);
  }

  /** The loop condition `v & (m0 ^ m1)` tests the digits in between. */
  lemma LoopCondition(v: nat, k: nat, j: nat)
    ensures And(v, Xor(Pow2(k) - 1, Pow2(k + j) - 1)) == 0 <==> Between(v, k, j) == 0
  {
    XorMasks(k, j);
    AndUp(v, Pow2(j) - 1, k);
    AndMask(Hi(v, k), j);
    UpZero(k);
    UpMono(0, Between(v, k, j), k);
  }

  lemma LoJoin(v: nat, k: nat, j: nat)
    ensures Lo(v, k + j) == Lo(v, k) + Up(Between(v, k, j), k)
  {
    LoLo(v, k, j);
    LoHi(Lo(v, k + j), k);
  }

  /** Indexes of the larger table that the expansion loop visits, in order. */
  function Expansions(v: nat, k: nat, j: nat, i: nat): seq<nat>
    requires v < Pow2(k + (j + i))
    decreases Pow2(j) - Between(v, k, j)
  {
    StepUpBetween(v, k, j, i);
    LoHi(Hi(v, k), j);
    var u := StepUp(v, Pow2(k) - 1, k + (j + i));
    [Lo(v, k + j)] + if Between(u, k, j) == 0 then [] else Expansions(u, k, j, i)
  }

  /** The loop visits the buckets that expand the smaller one, from the cursor upwards. */
  lemma {:induction false} ExpansionsExact(v: nat, k: nat, j: nat, i: nat, h: nat)
    requires v < Pow2(k + (j + i))
    ensures Lo(h, k + j) in Expansions(v, k, j, i)
            <==> Lo(h, k) == Lo(v, k) && Between(v, k, j) <= Between(h, k, j)
    decreases Pow2(j) - Between(v, k, j)
  {
    StepUpBetween(v, k, j, i);
    LoHi(Hi(v, k), j);
    LoHi(Hi(h, k), j);
    var u := StepUp(v, Pow2(k) - 1, k + (j + i));
    SameExpansion(v, h, k, j);
    if Between(u, k, j) != 0 {
      ExpansionsExact(u, k, j, i, h);
    }
  }

  lemma SameExpansion(v: nat, h: nat, k: nat, j: nat)
    ensures Lo(h, k + j) == Lo(v, k + j) <==> Lo(h, k) == Lo(v, k) && Between(h, k, j) == Between(v, k, j)
  {
    LoJoin(v, k, j);
    LoJoin(h, k, j);
    LoHi(v, k);
    LoHi(h, k);
    if Lo(h, k + j) == Lo(v, k + j) {
      UpLexUnique(Between(h, k, j), Lo(h, k), Between(v, k, j), Lo(v, k), k);
    }
  }

  /** Within one bucket of the smaller table, cursor order is the reversed order of the
      digits in between, unless these agree. */
  lemma AheadByBetween(v: nat, h: nat, k: nat, j: nat, i: nat)
    requires Lo(h, k) == Lo(v, k)
    ensures Rev(Between(h, k, j), j) < Rev(Between(v, k, j), j) ==> !Ahead(h, v, k + (j + i))
    ensures Rev(Between(v, k, j), j) < Rev(Between(h, k, j), j) ==> Ahead(h, v, k + (j + i))
  {
    var x, y := Hi(v, k), Hi(h, k);
    RevSplit(v, k, j + i);
    RevSplit(h, k, j + i);
    RevSplit(x, j, i);
    RevSplit(y, j, i);
    RevBelow(Hi(x, j), i);
    RevBelow(Hi(y, j), i);
    if Rev(Lo(y, j), j) < Rev(Lo(x, j), j) {
      UpLex(Rev(Lo(y, j), j), Rev(Hi(y, j), i), Rev(Lo(x, j), j), Rev(Hi(x, j), i), i);
    } else if Rev(Lo(x, j), j) < Rev(Lo(y, j), j) {
      UpLex(Rev(Lo(x, j), j), Rev(Hi(x, j), i), Rev(Lo(y, j), j), Rev(Hi(y, j), i), i);
    }
  }

  /** All ones from the bottom: 0, 1, 11, 111, ... */
  ghost predicate OnesFromBelow(d: nat) { exists e: nat :: Pow2(e) == d + 1 }

  lemma {:induction false} Pow2Strict(a: nat, b: nat)
    ensures a < b ==> Pow2(a) < Pow2(b)
  {
    if a < b {
        if a + 1 < b { Pow2Strict(a, b - 1); }
    }
  }

  /** Below 2^e - 1, reversed order agrees with plain order against 2^e - 1. */
  lemma OnesKeepOrder(d: nat, x: nat, e: nat, j: nat)
    requires d < Pow2(j) && Pow2(e) == d + 1 && x < d
    ensures Rev(x, j) < Rev(d, j)
  {
    Pow2Strict(j, e);
    var i := j - e;
    LoSmall(d, e);
    LoSmall(x, e);
    RevSplit(d, e, i);
    RevSplit(x, e, i);
    RevOnes(e);
    RevZero(i);
    RevBelow(x, e);
    if Rev(x, e) == d {
      RevInjective(x, d, e);
    }
    UpMono(Rev(x, e), d, i);
  }

  /** Number of ones at the bottom of d. */
  function LowOnes(d: nat): nat { if d % 2 == 0 then 0 else 1 + LowOnes(d / 2) }

  lemma {:induction false} LowOnesParts(d: nat)
    ensures var e := LowOnes(d);
            Lo(d, e + 1) == Pow2(e) - 1 && (Hi(d, e + 1) == 0 <==> d + 1 == Pow2(e))
  {
    if d % 2 == 1 {
      LowOnesParts(d / 2);
    } else {
      assert Lo(d, 1) == d % 2 + 2 * Lo(d / 2, 0);
      assert Hi(d, 1) == Hi(d / 2, 0);
    }
  }

  lemma RevOnesShort(e: nat)
    ensures Rev(Pow2(e) - 1, e + 1) == 2 * (Pow2(e) - 1)
  {
    RevOnes(e);
    LoSmall(Pow2(e) - 1, e);
    RevSplit(Pow2(e) - 1, e, 1);
    RevZero(1);
    assert Up(Pow2(e) - 1, 1) == 2 * Up(Pow2(e) - 1, 0);
  }

  lemma GapReversed(d: nat, e: nat, i: nat)
    requires Lo(d, e + 1) == Pow2(e) - 1
    ensures Rev(d, e + 1 + i) < Rev(Pow2(e + 1) - 1, e + 1 + i)
  {
    var x := Pow2(e + 1) - 1;
    LoSmall(x, e + 1);
    RevSplit(x, e + 1, i);
    RevSplit(d, e + 1, i);
    RevOnes(e + 1);
    RevOnesShort(e);
    RevBelow(Hi(d, e + 1), i);
    UpLex(2 * (Pow2(e) - 1), Rev(Hi(d, e + 1), i), x, Rev(0, i), i);
  }

  /** Otherwise some smaller number comes later in reversed order. */
  lemma GapBreaksOrder(d: nat, j: nat) returns (x: nat)
    requires d < Pow2(j) && !OnesFromBelow(d)
    ensures x < d && Rev(d, j) < Rev(x, j)
  {
    var e := LowOnes(d);
    LowOnesParts(d);
    LoHi(d, e + 1);
    UpMono(1, Hi(d, e + 1), e + 1);
    Pow2Strict(j, e + 1);
    x := Pow2(e + 1) - 1;
    GapReversed(d, e, j - (e + 1));
  }

  /** The call at cursor v, whose smaller table has 2^k buckets, moves past hash h. */
  predicate PassedBy(h: nat, v: nat, k: nat, j: nat, i: nat)
    requires Pow2(k) - 1 < Pow2(k + (j + i))
  {
    var w := k + (j + i);
    h < Pow2(w) && Ahead(h, v, w) && Passed(h, Next(v, Pow2(k) - 1, w), w)
  }

  /** The large buckets one call visits include those of every hash it passes. */
  ghost predicate CallCovers(v: nat, k: nat, j: nat, i: nat)
    requires v < Pow2(k + (j + i)) && Pow2(k) - 1 < Pow2(k + (j + i))
  {
    forall h: nat | PassedBy(h, v, k, j, i) :: Lo(h, k + j) in Expansions(v, k, j, i)
  }

  lemma OnesCover(v: nat, k: nat, j: nat, i: nat, h: nat)
    requires v < Pow2(k + (j + i)) && h < Pow2(k + (j + i))
    requires OnesFromBelow(Between(v, k, j)) && Lo(h, k) == Lo(v, k) && Ahead(h, v, k + (j + i))
    ensures Lo(h, k + j) in Expansions(v, k, j, i)
  {
    var d := Between(v, k, j);
    var e :| Pow2(e) == d + 1;
    LoHi(Hi(v, k), j);
    if Between(h, k, j) < d {
      OnesKeepOrder(d, Between(h, k, j), e, j);
      AheadByBetween(v, h, k, j, i);
    }
    ExpansionsExact(v, k, j, i, h);
  }

  lemma GapMisses(v: nat, k: nat, j: nat, i: nat) returns (h: nat)
    requires v < Pow2(k + (j + i)) && !OnesFromBelow(Between(v, k, j))
    ensures h < Pow2(k + j) <= Pow2(k + (j + i)) && Lo(h, k) == Lo(v, k) && Ahead(h, v, k + (j + i))
    ensures Between(h, k, j) < Between(v, k, j)
  {
    var d := Between(v, k, j);
    LoHi(Hi(v, k), j);
    LoHi(v, k);
    var x := GapBreaksOrder(d, j);
    h := Lo(v, k) + Up(x, k);
    LoHiUnique(h, k, Lo(v, k), x);
    LoSmall(x, j);
    UpLex(x, Lo(v, k), Pow2(j), 0, k);
    UpUp(1, j, k);
    UpUp(1, k + j, i);
    UpMono(Pow2(k + j), 0, i);
    AheadByBetween(v, h, k, j, i);
  }

  /** A call during a rehash leaves nothing behind exactly when the cursor's digits
      between the two masks are ones from below (none, for instance, or all). */
  lemma CoversIffOnes(v: nat, k: nat, j: nat, i: nat)
    requires v < Pow2(k + (j + i))
    ensures Pow2(k) - 1 < Pow2(k + (j + i))
    ensures CallCovers(v, k, j, i) <==> OnesFromBelow(Between(v, k, j))
  {
    NotMask(k, j + i);
    if OnesFromBelow(Between(v, k, j)) {
      forall h: nat | PassedBy(h, v, k, j, i)
        ensures Lo(h, k + j) in Expansions(v, k, j, i)
      {
        PassedIffSameBucket(k, j + i, v, h);
        OnesCover(v, k, j, i, h);
      }
    } else {
      var h := GapMisses(v, k, j, i);
      PassedIffSameBucket(k, j + i, v, h);
      ExpansionsExact(v, k, j, i, h);
      assert PassedBy(h, v, k, j, i);
    }
  }
}
