/** dictScan over a dictionary that is changed and resized between calls. */
module Scan {
  import opened Words
  import opened Cursor
  import opened DictModel

  /** The smaller and the larger of the two tables. */
  function Small(d: Dict): Table { if |d.ht0.buckets| > |d.ht1.buckets| then d.ht1 else d.ht0 }
  function Large(d: Dict): Table { if |d.ht0.buckets| > |d.ht1.buckets| then d.ht0 else d.ht1 }

  /** Concatenation of the chains at the given indexes. */
  function Emit(b: seq<Chain>, at: seq<nat>): seq<Entry>
    requires forall i :: 0 <= i < |at| ==> at[i] < |b|
  {
    if at == [] then [] else b[at[0]] + Emit(b, at[1..])
  }

  lemma {:induction false} EmitHas(b: seq<Chain>, at: seq<nat>, e: Entry)
    requires forall i :: 0 <= i < |at| ==> at[i] < |b|
    ensures e in Emit(b, at) <==> exists i :: 0 <= i < |at| && e in b[at[i]]
  {
    if at != [] {
      EmitHas(b, at[1..], e);
      assert forall i :: 0 <= i < |at[1..]| ==> at[1..][i] == at[i + 1];
      assert forall i :: 0 < i < |at| ==> at[i] == at[1..][i - 1];
    }
  }

  lemma EmitBucket(b: seq<Chain>, at: seq<nat>, x: nat)
    requires (forall i :: 0 <= i < |at| ==> at[i] < |b|) && x in at
    ensures forall e :: e in b[x] ==> e in Emit(b, at)
  {
    forall e | e in b[x] ensures e in Emit(b, at) { EmitHas(b, at, e); }
  }

  lemma {:induction false} Pow2NoLess(a: nat, b: nat)
    requires Pow2(a) <= Pow2(b)
    ensures a <= b
  {
    if b < a { Pow2Strict(b, a); }
  }

  lemma {:induction false} ExpansionsInTable(v: nat, k: nat, j: nat, i: nat)
    requires v < Pow2(k + (j + i))
    ensures forall x :: 0 <= x < |Expansions(v, k, j, i)| ==> Expansions(v, k, j, i)[x] < Pow2(k + j)
    decreases Pow2(j) - Between(v, k, j)
  {
    StepUpBetween(v, k, j, i);
    LoHi(Hi(v, k), j);
    LoHi(v, k + j);
    var u := StepUp(v, Pow2(k) - 1, k + (j + i));
    if Between(u, k, j) != 0 { ExpansionsInTable(u, k, j, i); }
  }

  /** Exponents of the two sizes of a dictionary being rehashed: k for the smaller, j more
      for the larger, i more up to the word width. */
  ghost predicate Exponents(d: Dict, k: nat, j: nat, i: nat) {
    && |Small(d).buckets| == Pow2(k) && |Large(d).buckets| == Pow2(k + j)
    && k + (j + i) == d.dt.bits
  }

  function K(d: Dict): nat { Log(|Small(d).buckets|) }
  function J(d: Dict): int { Log(|Large(d).buckets|) - K(d) }
  function I(d: Dict): int { d.dt.bits - Log(|Large(d).buckets|) }

  lemma ExponentsHold(d: Dict)
    requires Wf(d) && Rehashing(d)
    ensures J(d) >= 0 && I(d) >= 0 && Exponents(d, K(d), J(d), I(d))
  {
    Pow2NoLess(K(d), Log(|Large(d).buckets|));
  }

  /** The bucket of the cursor in the smaller table, then those that expand it in the larger one. */
  function FromBoth(s: seq<Chain>, l: seq<Chain>, v: nat, k: nat, j: nat, i: nat): seq<Entry>
    requires |s| == Pow2(k) && |l| == Pow2(k + j) && v < Pow2(k + (j + i))
  {
    LogPow2(k);
    IdxInRange(v, |s|);
    ExpansionsInTable(v, k, j, i);
    s[And(v, |s| - 1)] + Emit(l, Expansions(v, k, j, i))
  }

  /** One call: the entries handed to the callback, and the cursor returned. */
  function ScanCall(d: Dict, v: nat): (seq<Entry>, nat)
    requires Wf(d) && v < Pow2(d.dt.bits)
  {
    if Size(d) == 0 then ([], 0)
    else if !Rehashing(d) then
      NonEmptyTable(d);
      CallOnOne(d.ht0.buckets, v, d.dt.bits)
    else
      CallOnBoth(d, v)
  }

  function CallOnOne(b: seq<Chain>, v: nat, w: nat): (seq<Entry>, nat)
    requires IsPow2(|b|) && |b| - 1 < Pow2(w) && v < Pow2(w)
  {
    IdxInRange(v, |b|);
    (b[And(v, |b| - 1)], Next(v, |b| - 1, w))
  }

  function CallOnBoth(d: Dict, v: nat): (seq<Entry>, nat)
    requires Wf(d) && Rehashing(d) && v < Pow2(d.dt.bits)
  {
    ExponentsHold(d);
    SmallMask(d);
    (FromBoth(Small(d).buckets, Large(d).buckets, v, K(d), J(d), I(d)), Next(v, |Small(d).buckets| - 1, d.dt.bits))
  }

  lemma NonEmptyTable(d: Dict)
    requires Wf(d) && !Rehashing(d) && Size(d) != 0
    ensures d.ht0.buckets != [] && IsPow2(|d.ht0.buckets|) && |d.ht0.buckets| - 1 < Pow2(d.dt.bits)
  {
    if d.ht0.buckets != [] { NotMask(Log(|d.ht0.buckets|), d.dt.bits - Log(|d.ht0.buckets|)); }
  }

  lemma SmallMask(d: Dict)
    requires Wf(d) && Rehashing(d)
    ensures |Small(d).buckets| - 1 < Pow2(d.dt.bits)
  {
    NotMask(K(d), d.dt.bits - K(d));
  }

  /** The condition under which a call leaves nothing behind. Without a rehash it always holds. */
  ghost predicate GoodCall(d: Dict, v: nat)
    requires Wf(d)
  {
    Size(d) != 0 && Rehashing(d) ==> (ExponentsHold(d); OnesFromBelow(Between(v, K(d), J(d))))
  }

  ghost predicate Emits(d: Dict, v: nat, k: Key)
    requires Wf(d) && v < Pow2(d.dt.bits)
  {
    k in Contents(d) && Entry(k, Contents(d)[k]) in ScanCall(d, v).0
  }

  lemma {:induction false} GetIsEntry(c: Chain, k: Key)
    requires Get(c, k).Some?
    ensures Entry(k, Get(c, k).value) in c
  {
    if c[0].key != k { GetIsEntry(c[1..], k); }
  }

  /** A bound key stands in its bucket of one of the tables, with its value. */
  lemma EntryInBucket(d: Dict, k: Key)
    requires Wf(d) && k in Contents(d)
    ensures var e := Entry(k, Contents(d)[k]);
            e in Bucket(d.dt, d.ht0, k) || (Rehashing(d) && e in Bucket(d.dt, d.ht1, k))
  {
    ContentsLookup(d, k);
    if Get(Bucket(d.dt, d.ht0, k), k).Some? {
      GetIsEntry(Bucket(d.dt, d.ht0, k), k);
    } else {
      GetIsEntry(Bucket(d.dt, d.ht1, k), k);
    }
  }

  lemma KeyMeansSize(d: Dict, k: Key)
    requires Wf(d) && k in Contents(d)
    ensures Size(d) != 0
  {
    ContentsLookup(d, k);
    if Size(d) == 0 { EmptyLookup(d, k); }
  }

  /** Exponent of the size whose mask decides the next cursor. */
  function E(d: Dict): nat { if Rehashing(d) then K(d) else Log(|d.ht0.buckets|) }

  lemma CallNext(d: Dict, v: nat, k: nat, w: nat)
    requires Wf(d) && Size(d) != 0 && k == E(d) && w == d.dt.bits && v < Pow2(w)
    ensures k <= w && Pow2(k) - 1 < Pow2(w) && ScanCall(d, v).1 == Next(v, Pow2(k) - 1, w)
  {
    if Rehashing(d) { NextOnBoth(d, v, k, w); } else { NextOnOne(d, v, k, w); }
  }

  lemma NextOnBoth(d: Dict, v: nat, k: nat, w: nat)
    requires Wf(d) && Rehashing(d) && k == K(d) && w == d.dt.bits && v < Pow2(w)
    ensures k <= w && Pow2(k) - 1 < Pow2(w) && CallOnBoth(d, v).1 == Next(v, Pow2(k) - 1, w)
  {
    SmallMask(d);
  }

  lemma NextOnOne(d: Dict, v: nat, k: nat, w: nat)
    requires Wf(d) && !Rehashing(d) && Size(d) != 0 && k == Log(|d.ht0.buckets|) && w == d.dt.bits && v < Pow2(w)
    ensures k <= w && Pow2(k) - 1 < Pow2(w) && ScanCall(d, v).1 == Next(v, Pow2(k) - 1, w)
  {
    NonEmptyTable(d);
    OneCall(d, v);
    NextIs(d.ht0.buckets, v, k, w);
  }

  lemma OneCall(d: Dict, v: nat)
    requires Wf(d) && !Rehashing(d) && Size(d) != 0 && v < Pow2(d.dt.bits)
    ensures d.ht0.buckets != [] && IsPow2(|d.ht0.buckets|) && |d.ht0.buckets| - 1 < Pow2(d.dt.bits)
    ensures ScanCall(d, v) == CallOnOne(d.ht0.buckets, v, d.dt.bits)
  {
    NonEmptyTable(d);
  }

  lemma NextIs(b: seq<Chain>, v: nat, k: nat, w: nat)
    requires IsPow2(|b|) && |b| == Pow2(k) && |b| - 1 < Pow2(w) && v < Pow2(w)
    ensures CallOnOne(b, v, w).1 == Next(v, Pow2(k) - 1, w)
  {}

  /** A hash that a call passes lies in the bucket of its cursor. */
  lemma PassedBucket(d: Dict, v: nat, h: nat)
    requires Wf(d) && Size(d) != 0 && v < Pow2(d.dt.bits) && h < Pow2(d.dt.bits)
    requires Ahead(h, v, d.dt.bits) && Passed(h, ScanCall(d, v).1, d.dt.bits)
    ensures Lo(h, E(d)) == Lo(v, E(d))
  {
    CallNext(d, v, E(d), d.dt.bits);
    PassedSameBucket(E(d), d.dt.bits, v, h, ScanCall(d, v).1);
  }

  lemma PlainEmits(d: Dict, v: nat, k: Key)
    requires Wf(d) && !Rehashing(d) && v < Pow2(d.dt.bits) && Size(d) != 0
    requires d.ht0.buckets != [] && Lo(d.dt.hash(k), E(d)) == Lo(v, E(d))
    ensures forall e :: e in Bucket(d.dt, d.ht0, k) ==> e in ScanCall(d, v).0
  {
    IdxInRange(d.dt.hash(k), |d.ht0.buckets|);
    IdxInRange(v, |d.ht0.buckets|);
  }

  /** A call without a rehash emits every key whose hash it passes. */
  lemma PlainCallEmits(d: Dict, v: nat, k: Key)
    requires Wf(d) && !Rehashing(d) && v < Pow2(d.dt.bits) && k in Contents(d)
    requires Ahead(d.dt.hash(k), v, d.dt.bits) && Passed(d.dt.hash(k), ScanCall(d, v).1, d.dt.bits)
    ensures Emits(d, v, k)
  {
    KeyMeansSize(d, k);
    PassedBucket(d, v, d.dt.hash(k));
    EntryInBucket(d, k);
    NonEmptyTable(d);
    PlainEmits(d, v, k);
  }

  lemma MaskedIndex(h: nat, k: nat)
    ensures And(h, Pow2(k) - 1) == Lo(h, k) < Pow2(k)
  {
    AndMask(h, k);
    LoHi(h, k);
  }

  lemma FromBothHas(s: seq<Chain>, l: seq<Chain>, v: nat, k: nat, j: nat, i: nat, h: nat)
    requires |s| == Pow2(k) && |l| == Pow2(k + j) && v < Pow2(k + (j + i))
    requires Lo(h, k) == Lo(v, k) && Lo(h, k + j) in Expansions(v, k, j, i)
    ensures And(h, |s| - 1) < |s| && And(h, |l| - 1) < |l|
    ensures forall e :: e in s[And(h, |s| - 1)] || e in l[And(h, |l| - 1)] ==> e in FromBoth(s, l, v, k, j, i)
  {
    MaskedIndex(v, k);
    MaskedIndex(h, k);
    MaskedIndex(h, k + j);
    ExpansionsInTable(v, k, j, i);
    EmitBucket(l, Expansions(v, k, j, i), Lo(h, k + j));
  }

  lemma CallIsFromBoth(d: Dict, v: nat, k: nat, j: nat, i: nat)
    requires Wf(d) && Rehashing(d) && v < Pow2(d.dt.bits) && Size(d) != 0
    requires k == K(d) && j == J(d) && i == I(d) && Exponents(d, k, j, i)
    ensures ScanCall(d, v).0 == FromBoth(Small(d).buckets, Large(d).buckets, v, k, j, i)
  {
  }

  lemma BucketIs(dt: DictType, t: Table, key: Key, x: nat)
    requires t.buckets != [] && IsPow2(|t.buckets|) && x == And(dt.hash(key), |t.buckets| - 1) < |t.buckets|
    ensures Bucket(dt, t, key) == t.buckets[x]
  {}

  lemma FromBothEmits(dt: DictType, t0: Table, t1: Table, v: nat, k: nat, j: nat, i: nat, key: Key)
    requires |t0.buckets| == Pow2(k) && |t1.buckets| == Pow2(k + j) && IsPow2(Pow2(k)) && IsPow2(Pow2(k + j))
    requires v < Pow2(k + (j + i)) && Lo(dt.hash(key), k) == Lo(v, k)
    requires Lo(dt.hash(key), k + j) in Expansions(v, k, j, i)
    ensures forall e :: e in Bucket(dt, t0, key) || e in Bucket(dt, t1, key)
                        ==> e in FromBoth(t0.buckets, t1.buckets, v, k, j, i)
  {
    FromBothHas(t0.buckets, t1.buckets, v, k, j, i, dt.hash(key));
    BucketIs(dt, t0, key, And(dt.hash(key), |t0.buckets| - 1));
    BucketIs(dt, t1, key, And(dt.hash(key), |t1.buckets| - 1));
  }

  lemma BothEmit(d: Dict, v: nat, key: Key, e: Entry, k: nat, j: nat, i: nat)
    requires Wf(d) && Rehashing(d) && v < Pow2(d.dt.bits) && Size(d) != 0
    requires e in Bucket(d.dt, Small(d), key) || e in Bucket(d.dt, Large(d), key)
    requires k == K(d) && j == J(d) && i == I(d) && Exponents(d, k, j, i)
    requires Lo(d.dt.hash(key), k) == Lo(v, k) && Lo(d.dt.hash(key), k + j) in Expansions(v, k, j, i)
    ensures e in ScanCall(d, v).0
  {
    CallIsFromBoth(d, v, k, j, i);
    FromBothEmits(d.dt, Small(d), Large(d), v, k, j, i, key);
  }

  lemma RehashBuckets(d: Dict, v: nat, h: nat)
    requires Wf(d) && Rehashing(d) && v < Pow2(d.dt.bits) && h < Pow2(d.dt.bits) && Size(d) != 0
    requires GoodCall(d, v) && Ahead(h, v, d.dt.bits) && Passed(h, ScanCall(d, v).1, d.dt.bits)
    ensures J(d) >= 0 && I(d) >= 0 && Exponents(d, K(d), J(d), I(d))
    ensures Lo(h, K(d)) == Lo(v, K(d)) && Lo(h, K(d) + J(d)) in Expansions(v, K(d), J(d), I(d))
  {
    ExponentsHold(d);
    PassedBucket(d, v, h);
    CoveredByOnes(v, h, K(d), J(d), I(d), d.dt.bits);
  }

  lemma CoveredByOnes(v: nat, h: nat, k: nat, j: nat, i: nat, w: nat)
    requires w == k + (j + i) && v < Pow2(w) && h < Pow2(w)
    requires OnesFromBelow(Between(v, k, j)) && Lo(h, k) == Lo(v, k) && Ahead(h, v, w)
    ensures Lo(h, k + j) in Expansions(v, k, j, i)
  {
    OnesCover(v, k, j, i, h);
  }

  lemma EntryInEither(d: Dict, k: Key)
    requires Wf(d) && Rehashing(d) && k in Contents(d)
    ensures var e := Entry(k, Contents(d)[k]); e in Bucket(d.dt, Small(d), k) || e in Bucket(d.dt, Large(d), k)
  {
    EntryInBucket(d, k);
  }

  lemma PassedEmitted(d: Dict, v: nat, key: Key, e: Entry)
    requires Wf(d) && Rehashing(d) && v < Pow2(d.dt.bits) && Size(d) != 0 && GoodCall(d, v)
    requires e in Bucket(d.dt, Small(d), key) || e in Bucket(d.dt, Large(d), key)
    requires Ahead(d.dt.hash(key), v, d.dt.bits) && Passed(d.dt.hash(key), ScanCall(d, v).1, d.dt.bits)
    ensures e in ScanCall(d, v).0
  {
    RehashBuckets(d, v, d.dt.hash(key));
    BothEmit(d, v, key, e, K(d), J(d), I(d));
  }

  /** A good call during a rehash emits every key whose hash it passes. */
  lemma RehashCallEmits(d: Dict, v: nat, k: Key)
    requires Wf(d) && Rehashing(d) && v < Pow2(d.dt.bits) && k in Contents(d) && GoodCall(d, v)
    requires Ahead(d.dt.hash(k), v, d.dt.bits) && Passed(d.dt.hash(k), ScanCall(d, v).1, d.dt.bits)
    ensures Emits(d, v, k)
  {
    KeyMeansSize(d, k);
    EntryInEither(d, k);
    PassedEmitted(d, v, k, Entry(k, Contents(d)[k]));
  }

  lemma CallEmits(d: Dict, v: nat, k: Key)
    requires Wf(d) && v < Pow2(d.dt.bits) && k in Contents(d) && GoodCall(d, v)
    requires Ahead(d.dt.hash(k), v, d.dt.bits) && Passed(d.dt.hash(k), ScanCall(d, v).1, d.dt.bits)
    ensures Emits(d, v, k)
  {
    if Rehashing(d) { RehashCallEmits(d, v, k); } else { PlainCallEmits(d, v, k); }
  }

  /** The returned cursor is a word, and its reversal grows until the scan ends. */
  lemma CallAdvances(d: Dict, v: nat)
    requires Wf(d) && v < Pow2(d.dt.bits)
    ensures var n := ScanCall(d, v).1;
            n < Pow2(d.dt.bits) && (n != 0 ==> Rev(v, d.dt.bits) < Rev(n, d.dt.bits))
  {
    if Size(d) != 0 {
      CallNext(d, v, E(d), d.dt.bits);
      CursorIncreases(v, E(d), d.dt.bits - E(d));
    }
  }

  /** A scan from cursor 0, ended or not: call i is made at cursor vs[i] on whatever well-formed
      dictionary ds[i] the operations in between have led to, and only 0 stops it. */
  ghost predicate ScanPrefix(ds: seq<Dict>, vs: seq<nat>) {
    && |vs| == |ds| + 1 && |ds| > 0 && vs[0] == 0
    && (forall i :: 0 <= i < |ds| ==> Wf(ds[i]) && ds[i].dt == ds[0].dt && vs[i] < Pow2(ds[0].dt.bits))
    && (forall i :: 0 <= i < |ds| ==> vs[i + 1] == ScanCall(ds[i], vs[i]).1)
    && (forall i :: 0 < i < |ds| ==> vs[i] != 0)
  }

  /** A whole scan, from cursor 0 back to 0. */
  ghost predicate ScanRun(ds: seq<Dict>, vs: seq<nat>) { ScanPrefix(ds, vs) && vs[|ds|] == 0 }

  ghost predicate PresentThroughout(ds: seq<Dict>, k: Key)
    requires forall i :: 0 <= i < |ds| ==> Wf(ds[i])
  {
    forall i :: 0 <= i < |ds| ==> k in Contents(ds[i])
  }

  lemma {:induction false} NotEmittedStaysAhead(ds: seq<Dict>, vs: seq<nat>, k: Key, n: nat)
    requires ScanPrefix(ds, vs) && n < |ds| && PresentThroughout(ds, k)
    requires forall i :: 0 <= i < n ==> GoodCall(ds[i], vs[i]) && !Emits(ds[i], vs[i], k)
    ensures Ahead(ds[0].dt.hash(k), vs[n], ds[0].dt.bits)
  {
    if n == 0 {
      RevZero(ds[0].dt.bits);
    } else {
      NotEmittedStaysAhead(ds, vs, k, n - 1);
      assert vs[n - 1 + 1] == ScanCall(ds[n - 1], vs[n - 1]).1;
      if Passed(ds[0].dt.hash(k), vs[n], ds[0].dt.bits) {
        CallEmits(ds[n - 1], vs[n - 1], k);
      }
    }
  }

  /** Scan guarantee: every key present throughout the scan is emitted, with its value at
      that moment, if each call made during a rehash is good. */
  lemma ScanVisitsAll(ds: seq<Dict>, vs: seq<nat>, k: Key)
    requires ScanRun(ds, vs) && PresentThroughout(ds, k)
    requires forall i :: 0 <= i < |ds| ==> GoodCall(ds[i], vs[i])
    ensures exists i :: 0 <= i < |ds| && Emits(ds[i], vs[i], k)
  {
    var n := |ds| - 1;
    if forall i :: 0 <= i < n ==> !Emits(ds[i], vs[i], k) {
      NotEmittedStaysAhead(ds, vs, k, n);
      assert vs[n + 1] == ScanCall(ds[n], vs[n]).1;
      CallEmits(ds[n], vs[n], k);
    }
  }

  /** Two conditions a caller can check: the cursor fits the smaller table, or the larger one is
      at most twice as large. */
  lemma SimplyGood(d: Dict, v: nat)
    requires Wf(d) && Rehashing(d)
    requires v < |Small(d).buckets| || |Large(d).buckets| <= 2 * |Small(d).buckets|
    ensures GoodCall(d, v)
  {
    ExponentsHold(d);
    SimplyOnes(d, v, K(d), J(d), I(d));
  }

  lemma SimplyOnes(d: Dict, v: nat, k: nat, j: nat, i: nat)
    requires Exponents(d, k, j, i)
    requires v < |Small(d).buckets| || |Large(d).buckets| <= 2 * |Small(d).buckets|
    ensures OnesFromBelow(Between(v, k, j))
  {
    OnesBelowTwo(v, k, j);
  }

  lemma OnesBelowTwo(v: nat, k: nat, j: nat)
    requires v < Pow2(k) || Pow2(k + j) <= 2 * Pow2(k)
    ensures OnesFromBelow(Between(v, k, j))
  {
    assert Pow2(0) == 1;
    assert Pow2(1) == 2 * Pow2(0);
    if v < Pow2(k) {
      LoSmall(v, k);
      LoSmall(0, j);
    } else {
      assert Pow2(k + 1) == 2 * Pow2(k);
      Pow2NoLess(k + j, k + 1);
      LoHi(Hi(v, k), j);
    }
    assert Between(v, k, j) == 0 || Between(v, k, j) == 1;
  }

  lemma CallShort(d: Dict, v: nat)
    requires Wf(d) && v < Pow2(d.dt.bits) && Size(d) != 0
    ensures ScanCall(d, v).1 < Pow2(E(d))
  {
    CallNext(d, v, E(d), d.dt.bits);
    var e, j := E(d), d.dt.bits - E(d);
    assert e + j == d.dt.bits;
    NextShort(v, e, j);
  }

  /** The mask that decides the cursor never loses digits: tables only grow. */
  ghost predicate OnlyGrows(ds: seq<Dict>) {
    forall i, j :: 0 <= i && j == i + 1 < |ds| ==> E(ds[i]) <= E(ds[j])
  }

  lemma GrowingCallsGood(ds: seq<Dict>, vs: seq<nat>, k: Key, n: nat)
    requires ScanPrefix(ds, vs) && PresentThroughout(ds, k) && OnlyGrows(ds) && n < |ds|
    ensures GoodCall(ds[n], vs[n])
  {
    var d := ds[n];
    KeyMeansSize(d, k);
    if n > 0 {
      var m := n - 1;
      KeyMeansSize(ds[m], k);
      CallShort(ds[m], vs[m]);
      assert vs[m + 1] == ScanCall(ds[m], vs[m]).1;
      assert m + 1 == n && E(ds[m]) <= E(ds[n]);
      PowMono(E(ds[m]), E(d));
    }
    if Rehashing(d) {
      ExponentsHold(d);
      SimplyGood(d, vs[n]);
    }
  }

  /** Growth by any factor: a scan during which tables only grow misses nothing. */
  lemma GrowingScanVisitsAll(ds: seq<Dict>, vs: seq<nat>, k: Key)
    requires ScanRun(ds, vs) && PresentThroughout(ds, k) && OnlyGrows(ds)
    ensures exists i :: 0 <= i < |ds| && Emits(ds[i], vs[i], k)
  {
    forall i | 0 <= i < |ds| ensures GoodCall(ds[i], vs[i]) { GrowingCallsGood(ds, vs, k, i); }
    ScanVisitsAll(ds, vs, k);
  }

  lemma CursorIncreased(ds: seq<Dict>, vs: seq<nat>, m: nat)
    requires ScanPrefix(ds, vs) && m + 1 < |ds|
    ensures Rev(vs[m], ds[0].dt.bits) < Rev(vs[m + 1], ds[0].dt.bits)
  {
    assert vs[m + 1] == ScanCall(ds[m], vs[m]).1;
    CallAdvances(ds[m], vs[m]);
  }

  lemma {:induction false} CursorsIncrease(ds: seq<Dict>, vs: seq<nat>, a: nat, b: nat)
    requires ScanPrefix(ds, vs) && a <= b < |ds|
    ensures Rev(vs[a], ds[0].dt.bits) + (b - a) <= Rev(vs[b], ds[0].dt.bits)
  {
    if a < b {
      CursorsIncrease(ds, vs, a, b - 1);
      CursorIncreased(ds, vs, b - 1);
    }
  }

  /** No scan goes on for ever: however the table changes between its calls, it has come back to 0
      after at most as many calls as there are cursors. */
  lemma ScanEnds(ds: seq<Dict>, vs: seq<nat>)
    requires ScanPrefix(ds, vs)
    ensures |ds| <= Pow2(ds[0].dt.bits)
    ensures |ds| == Pow2(ds[0].dt.bits) ==> vs[|ds|] == 0
  {
    var n := |ds| - 1;
    CursorsIncrease(ds, vs, 0, n);
    RevBelow(vs[n], ds[0].dt.bits);
    assert vs[n + 1] == ScanCall(ds[n], vs[n]).1;
    CallAdvances(ds[n], vs[n]);
    RevBelow(vs[n + 1], ds[0].dt.bits);
  }

  ghost predicate Static(ds: seq<Dict>) {
    forall i :: 0 <= i < |ds| ==> !Rehashing(ds[i]) && |ds[i].ht0.buckets| == |ds[0].ht0.buckets|
  }

  lemma EmittedBucket(d: Dict, v: nat, k: Key)
    requires Wf(d) && !Rehashing(d) && v < Pow2(d.dt.bits) && Emits(d, v, k)
    ensures d.ht0.buckets != [] && Lo(v, Log(|d.ht0.buckets|)) == Lo(d.dt.hash(k), Log(|d.ht0.buckets|))
  {
    KeyMeansSize(d, k);
    NonEmptyTable(d);
    IdxInRange(v, |d.ht0.buckets|);
    HeldIndex(d.dt, d.ht0, And(v, |d.ht0.buckets| - 1), Entry(k, Contents(d)[k]));
  }

  lemma HeldIndex(dt: DictType, t: Table, i: nat, e: Entry)
    requires TableWf(dt, t) && i < |t.buckets| && e in t.buckets[i]
    ensures Lo(dt.hash(e.key), Log(|t.buckets|)) == i
  {
    IdxInRange(dt.hash(e.key), |t.buckets|);
    assert ChainWf(dt, t.buckets[i], i, |t.buckets|);
  }

  /** A cursor beyond the one a call returned stands on another bucket. */
  lemma LaterCursorElsewhere(d: Dict, k: nat, w: nat, v: nat, u: nat, n: nat)
    requires Wf(d) && Size(d) != 0 && w == d.dt.bits && k == E(d)
    requires v < Pow2(w) && u < Pow2(w) && n == ScanCall(d, v).1
    requires n != 0 && Rev(n, w) <= Rev(u, w)
    ensures Lo(u, k) != Lo(v, k)
  {
    CallNext(d, v, k, w);
    LaterElsewhere(v, u, k, w, n);
  }

  lemma NotEmittedTwice(ds: seq<Dict>, vs: seq<nat>, k: Key, a: nat, b: nat)
    requires ScanPrefix(ds, vs) && Static(ds) && a < b < |ds|
    requires Emits(ds[a], vs[a], k)
    ensures !Emits(ds[b], vs[b], k)
  {
    KeyMeansSize(ds[a], k);
    EmittedBucket(ds[a], vs[a], k);
    CursorsIncrease(ds, vs, a + 1, b);
    assert vs[a + 1] == ScanCall(ds[a], vs[a]).1;
    LaterCursorElsewhere(ds[a], E(ds[a]), ds[a].dt.bits, vs[a], vs[b], vs[a + 1]);
    if Emits(ds[b], vs[b], k) { EmittedBucket(ds[b], vs[b], k); }
  }

  /** How many entries of a list have the key. */
  function Times(c: seq<Entry>, k: Key): nat {
    if c == [] then 0 else (if c[0].key == k then 1 else 0) + Times(c[1..], k)
  }

  lemma {:induction false} TimesSum(a: seq<Entry>, b: seq<Entry>, k: Key)
    ensures Times(a + b, k) == Times(a, k) + Times(b, k)
  {
    if a == [] {
      assert a + b == b;
    } else {
      assert (a + b)[1..] == a[1..] + b;
      TimesSum(a[1..], b, k);
    }
  }

  lemma {:induction false} TimesDistinct(c: Chain, k: Key)
    requires Distinct(c)
    ensures Times(c, k) == if Get(c, k).Some? then 1 else 0
  {
    if c != [] {
      DistinctTail(c);
      TimesDistinct(c[1..], k);
      GetIffHasKey(c[1..], k);
    }
  }

  /** In a chain without repeated keys an entry is what a lookup of its key finds. */
  lemma {:induction false} EntryIsGet(c: Chain, e: Entry)
    requires Distinct(c) && e in c
    ensures Get(c, e.key) == Some(e.val)
  {
    if c[0] != e {
      DistinctTail(c);
      EntryIsGet(c[1..], e);
      GetIffHasKey(c[1..], e.key);
    }
  }

  /** A call without a rehash hands out a key once if it emits it, and not at all otherwise. */
  lemma CallTimes(d: Dict, v: nat, k: Key)
    requires Wf(d) && !Rehashing(d) && v < Pow2(d.dt.bits) && k in Contents(d)
    ensures Times(ScanCall(d, v).0, k) == if Emits(d, v, k) then 1 else 0
  {
    KeyMeansSize(d, k);
    NonEmptyTable(d);
    var b := d.ht0.buckets;
    var i := And(v, |b| - 1);
    IdxInRange(v, |b|);
    assert ChainWf(d.dt, b[i], i, |b|);
    TimesDistinct(b[i], k);
    if Emits(d, v, k) {
      EntryIsGet(b[i], Entry(k, Contents(d)[k]));
    } else if Get(b[i], k).Some? {
      GetIsEntry(b[i], k);
      HeldValue(d, i, k);
    }
  }

  lemma HeldValue(d: Dict, i: nat, k: Key)
    requires Wf(d) && i < |d.ht0.buckets| && Get(d.ht0.buckets[i], k).Some?
    ensures k in Contents(d) && Contents(d)[k] == Get(d.ht0.buckets[i], k).value
  {
    var b := d.ht0.buckets;
    GetIffHasKey(b[i], k);
    assert ChainWf(d.dt, b[i], i, |b|);
    assert Bucket(d.dt, d.ht0, k) == b[i];
    ContentsLookup(d, k);
  }

  /** Everything the first n calls of a scan hand out, in order. */
  ghost function Output(ds: seq<Dict>, vs: seq<nat>, n: nat): seq<Entry>
    requires ScanPrefix(ds, vs) && n <= |ds|
  {
    if n == 0 then [] else Output(ds, vs, n - 1) + ScanCall(ds[n - 1], vs[n - 1]).0
  }

  lemma {:induction false} OutputTimes(ds: seq<Dict>, vs: seq<nat>, k: Key, m: nat, n: nat)
    requires ScanPrefix(ds, vs) && Static(ds) && PresentThroughout(ds, k) && m <= |ds| && n < |ds|
    requires forall i :: 0 <= i < |ds| ==> (Emits(ds[i], vs[i], k) <==> i == n)
    ensures Times(Output(ds, vs, m), k) == if n < m then 1 else 0
  {
    if m > 0 {
      var i := m - 1;
      OutputTimes(ds, vs, k, i, n);
      OutputMore(ds, vs, k, i);
      assert Emits(ds[i], vs[i], k) <==> i == n;
    }
  }

  lemma OutputMore(ds: seq<Dict>, vs: seq<nat>, k: Key, i: nat)
    requires ScanPrefix(ds, vs) && Static(ds) && PresentThroughout(ds, k) && i < |ds|
    ensures Times(Output(ds, vs, i + 1), k) == Times(Output(ds, vs, i), k) + if Emits(ds[i], vs[i], k) then 1 else 0
  {
    CallTimes(ds[i], vs[i], k);
    TimesSum(Output(ds, vs, i), ScanCall(ds[i], vs[i]).0, k);
  }

  /** Without a resize, the whole output of a scan has exactly one entry for every key present
      throughout; it comes from the one call that emits the key with its value. */
  lemma StaticScanOnce(ds: seq<Dict>, vs: seq<nat>, k: Key) returns (n: nat)
    requires ScanRun(ds, vs) && Static(ds) && PresentThroughout(ds, k)
    ensures Times(Output(ds, vs, |ds|), k) == 1
    ensures n < |ds| && forall i :: 0 <= i < |ds| ==> (Emits(ds[i], vs[i], k) <==> i == n)
  {
    ScanVisitsAll(ds, vs, k);
    n :| 0 <= n < |ds| && Emits(ds[n], vs[n], k);
    forall i | 0 <= i < |ds| && i != n ensures !Emits(ds[i], vs[i], k) {
      if i < n && Emits(ds[i], vs[i], k) { NotEmittedTwice(ds, vs, k, i, n); }
      else if n < i { NotEmittedTwice(ds, vs, k, n, i); }
    }
    OutputTimes(ds, vs, k, |ds|, n);
  }

  // ---------------------------------------------------------------- what one call hands out

  /** The dictionary binds the key of e to its value. */
  ghost predicate Bound(d: Dict, e: Entry) { Wf(d) && e.key in Contents(d) && Contents(d)[e.key] == e.val }

  lemma HeldBound(d: Dict, t: Table, i: nat, e: Entry)
    requires Wf(d) && (t == d.ht0 || t == d.ht1) && i < |t.buckets| && e in t.buckets[i]
    ensures Bound(d, e)
  {
    var c := t.buckets[i];
    assert ChainWf(d.dt, c, i, |t.buckets|);
    EntryIsGet(c, e);
    assert Bucket(d.dt, t, e.key) == c;
    GetIffHasKey(Bucket(d.dt, d.ht0, e.key), e.key);
    GetIffHasKey(Bucket(d.dt, d.ht1, e.key), e.key);
    ContentsLookup(d, e.key);
  }

  lemma EmitBound(d: Dict, t: Table, at: seq<nat>, e: Entry)
    requires Wf(d) && (t == d.ht0 || t == d.ht1) && (forall i :: 0 <= i < |at| ==> at[i] < |t.buckets|)
    requires e in Emit(t.buckets, at)
    ensures Bound(d, e)
  {
    EmitHas(t.buckets, at, e);
    var i :| 0 <= i < |at| && e in t.buckets[at[i]];
    HeldBound(d, t, at[i], e);
  }

  lemma BothBound(d: Dict, v: nat, e: Entry, k: nat, j: nat, i: nat)
    requires Wf(d) && Rehashing(d) && Exponents(d, k, j, i) && v < Pow2(k + (j + i))
    requires e in FromBoth(Small(d).buckets, Large(d).buckets, v, k, j, i)
    ensures Bound(d, e)
  {
    var s, l := Small(d), Large(d);
    MaskedIndex(v, k);
    ExpansionsInTable(v, k, j, i);
    if e in s.buckets[And(v, |s.buckets| - 1)] {
      HeldBound(d, s, And(v, |s.buckets| - 1), e);
    } else {
      EmitBound(d, l, Expansions(v, k, j, i), e);
    }
  }

  /** A call hands out nothing but entries of the dictionary, each with its present value. */
  lemma CallSound(d: Dict, v: nat, e: Entry)
    requires Wf(d) && v < Pow2(d.dt.bits) && e in ScanCall(d, v).0
    ensures e.key in Contents(d) && Contents(d)[e.key] == e.val
  {
    if Rehashing(d) {
      ExponentsHold(d);
      CallIsFromBoth(d, v, K(d), J(d), I(d));
      BothBound(d, v, e, K(d), J(d), I(d));
    } else {
      NonEmptyTable(d);
      IdxInRange(v, |d.ht0.buckets|);
      HeldBound(d, d.ht0, And(v, |d.ht0.buckets| - 1), e);
    }
  }

  predicate NoRepeat(at: seq<nat>) { at == [] || (at[0] !in at[1..] && NoRepeat(at[1..])) }

  /** The expansion loop comes to no bucket twice. */
  lemma {:induction false} ExpansionsNoRepeat(v: nat, k: nat, j: nat, i: nat)
    requires v < Pow2(k + (j + i))
    ensures NoRepeat(Expansions(v, k, j, i))
    decreases Pow2(j) - Between(v, k, j)
  {
    StepUpBetween(v, k, j, i);
    LoHi(Hi(v, k), j);
    var u := StepUp(v, Pow2(k) - 1, k + (j + i));
    if Between(u, k, j) != 0 {
      ExpansionsNoRepeat(u, k, j, i);
      ExpansionsExact(u, k, j, i, v);
      assert Expansions(v, k, j, i)[1..] == Expansions(u, k, j, i);
    }
  }

  lemma {:induction false} TimesAbsent(c: seq<Entry>, k: Key)
    requires !HasKey(c, k)
    ensures Times(c, k) == 0
  {
    if c != [] { TimesAbsent(c[1..], k); }
  }

  lemma BucketAtTimes(dt: DictType, t: Table, x: nat, k: Key, y: nat)
    requires TableWf(dt, t) && x < |t.buckets| && y == Idx(dt.hash(k), |t.buckets|)
    ensures Times(t.buckets[x], k) == if x == y then Times(Bucket(dt, t, k), k) else 0
  {
    assert ChainWf(dt, t.buckets[x], x, |t.buckets|);
    if x != y { TimesAbsent(t.buckets[x], k); }
  }

  lemma {:induction false} EmitTimes(dt: DictType, t: Table, at: seq<nat>, k: Key, y: nat)
    requires TableWf(dt, t) && t.buckets != [] && (forall i :: 0 <= i < |at| ==> at[i] < |t.buckets|) && NoRepeat(at)
    requires y == Idx(dt.hash(k), |t.buckets|)
    ensures Times(Emit(t.buckets, at), k) == if y in at then Times(Bucket(dt, t, k), k) else 0
  {
    if at != [] {
      var c := t.buckets[at[0]];
      EmitTimes(dt, t, at[1..], k, y);
      TimesSum(c, Emit(t.buckets, at[1..]), k);
      BucketAtTimes(dt, t, at[0], k, y);
    }
  }

  /** How often a key stands in its bucket. */
  lemma BucketTimes(dt: DictType, t: Table, k: Key)
    requires TableWf(dt, t) && t.buckets != []
    ensures Times(Bucket(dt, t, k), k) == if Get(Bucket(dt, t, k), k).Some? then 1 else 0
  {
    IdxInRange(dt.hash(k), |t.buckets|);
    assert ChainWf(dt, Bucket(dt, t, k), Idx(dt.hash(k), |t.buckets|), |t.buckets|);
    TimesDistinct(Bucket(dt, t, k), k);
  }

  lemma SmallTimes(dt: DictType, t: Table, v: nat, k: nat, key: Key)
    requires TableWf(dt, t) && |t.buckets| == Pow2(k)
    ensures And(v, |t.buckets| - 1) < |t.buckets|
    ensures Times(t.buckets[And(v, |t.buckets| - 1)], key) == if Lo(dt.hash(key), k) == Lo(v, k) then Times(Bucket(dt, t, key), key) else 0
  {
    MaskedIndex(v, k);
    MaskedIndex(dt.hash(key), k);
    BucketAtTimes(dt, t, And(v, |t.buckets| - 1), key, Lo(dt.hash(key), k));
  }

  lemma LargeTimes(dt: DictType, t: Table, at: seq<nat>, f: nat, key: Key)
    requires TableWf(dt, t) && |t.buckets| == Pow2(f) && (forall i :: 0 <= i < |at| ==> at[i] < |t.buckets|) && NoRepeat(at)
    ensures Times(Emit(t.buckets, at), key) == if Lo(dt.hash(key), f) in at then Times(Bucket(dt, t, key), key) else 0
  {
    MaskedIndex(dt.hash(key), f);
    EmitTimes(dt, t, at, key, Lo(dt.hash(key), f));
  }

  lemma FromBothIs(s: seq<Chain>, l: seq<Chain>, v: nat, k: nat, j: nat, i: nat) returns (at: seq<nat>)
    requires |s| == Pow2(k) && |l| == Pow2(k + j) && v < Pow2(k + (j + i))
    ensures at == Expansions(v, k, j, i) && NoRepeat(at) && forall x :: 0 <= x < |at| ==> at[x] < |l|
    ensures And(v, |s| - 1) < |s| && FromBoth(s, l, v, k, j, i) == s[And(v, |s| - 1)] + Emit(l, at)
  {
    at := Expansions(v, k, j, i);
    MaskedIndex(v, k);
    ExpansionsInTable(v, k, j, i);
    ExpansionsNoRepeat(v, k, j, i);
  }

  lemma FromBothTimes(dt: DictType, s: Table, l: Table, v: nat, k: nat, j: nat, i: nat, key: Key)
    requires TableWf(dt, s) && TableWf(dt, l) && |s.buckets| == Pow2(k) && |l.buckets| == Pow2(k + j) && v < Pow2(k + (j + i))
    ensures var h := dt.hash(key);
      Times(FromBoth(s.buckets, l.buckets, v, k, j, i), key)
      == (if Lo(h, k) == Lo(v, k) then Times(Bucket(dt, s, key), key) else 0)
       + (if Lo(h, k + j) in Expansions(v, k, j, i) then Times(Bucket(dt, l, key), key) else 0)
  {
    var at := FromBothIs(s.buckets, l.buckets, v, k, j, i);
    SmallTimes(dt, s, v, k, key);
    LargeTimes(dt, l, at, k + j, key);
    TimesSum(s.buckets[And(v, |s.buckets| - 1)], Emit(l.buckets, at), key);
  }

  /** What one call during a rehash hands out: a key of the smaller table if the cursor is in its bucket, a
      key of the larger one if besides the digits between the masks are not behind the cursor's; once. */
  lemma BothCallExact(d: Dict, v: nat, key: Key, k: nat, j: nat, i: nat)
    requires Wf(d) && Rehashing(d) && v < Pow2(d.dt.bits) && Size(d) != 0
    requires k == K(d) && j == J(d) && i == I(d) && Exponents(d, k, j, i)
    ensures var h := d.dt.hash(key);
      Times(ScanCall(d, v).0, key) ==
        if Lo(h, k) == Lo(v, k)
           && (Get(Bucket(d.dt, Small(d), key), key).Some?
               || (Get(Bucket(d.dt, Large(d), key), key).Some? && Between(v, k, j) <= Between(h, k, j)))
        then 1 else 0
  {
    CallIsFromBoth(d, v, k, j, i);
    FromBothTimes(d.dt, Small(d), Large(d), v, k, j, i, key);
    ExpansionsExact(v, k, j, i, d.dt.hash(key));
    BucketTimes(d.dt, Small(d), key);
    BucketTimes(d.dt, Large(d), key);
    GetIffHasKey(Bucket(d.dt, Small(d), key), key);
    GetIffHasKey(Bucket(d.dt, Large(d), key), key);
  }
}
