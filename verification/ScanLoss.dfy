/** The other direction for dictScan: wherever a call made during a shrink is not good, there
    is a run that never emits a key present throughout and in which nothing but shrinking happens. */
module ScanLoss {
  import opened Words
  import opened Cursor
  import opened DictModel
  import opened Scan

  /** Cursors of successive calls on one dictionary, from the first to the last. */
  ghost predicate Walk(d: Dict, vs: seq<nat>)
    requires Wf(d)
  {
    && |vs| > 0 && (forall i :: 0 <= i < |vs| ==> vs[i] < Pow2(d.dt.bits))
    && (forall i :: 0 < i < |vs| ==> vs[i] == ScanCall(d, vs[i - 1]).1)
  }

  lemma WalkCons(d: Dict, v: nat, vs: seq<nat>)
    requires Wf(d) && v < Pow2(d.dt.bits) && Walk(d, vs) && vs[0] == ScanCall(d, v).1
    ensures Walk(d, [v] + vs)
  {
    var ws := [v] + vs;
    forall i | 0 < i < |ws| ensures ws[i] == ScanCall(d, ws[i - 1]).1 {
      if i > 1 { assert ws[i] == vs[i - 1] && ws[i - 1] == vs[i - 2]; }
    }
  }

  /** On a table of 2^e buckets the walk from u reaches every later cursor below 2^e. */
  lemma {:induction false} WalkTo(d: Dict, e: nat, u: nat, v: nat) returns (vs: seq<nat>)
    requires Wf(d) && !Rehashing(d) && Size(d) != 0 && e <= d.dt.bits && |d.ht0.buckets| == Pow2(e)
    requires u < Pow2(e) && v < Pow2(e) && Rev(u, d.dt.bits) <= Rev(v, d.dt.bits)
    ensures Walk(d, vs) && vs[0] == u && vs[|vs| - 1] == v
    ensures forall i :: 0 < i < |vs| ==> vs[i] != 0
    ensures forall i :: 0 <= i < |vs| - 1 ==> Rev(vs[i], d.dt.bits) < Rev(v, d.dt.bits)
    ensures forall i :: 0 <= i < |vs| ==> vs[i] < Pow2(e)
    decreases Rev(v, d.dt.bits) - Rev(u, d.dt.bits)
  {
    var w := d.dt.bits;
    var j := w - e;
    NonEmptyTable(d);
    NotMask(e, j);
    RevShort(u, e, j);
    RevShort(v, e, j);
    if u == v {
      vs := [u];
    } else {
      if Rev(u, e) == Rev(v, e) { RevInjective(u, v, e); }
      UpMono(Rev(v, e), Rev(u, e), j);
      LoSmall(u, e);
      NextReversed(u, e, j);
      NextShort(u, e, j);
      RevBelow(v, e);
      UpMono(Rev(u, e) + 1, Rev(v, e), j);
      CallAdvances(d, u);
      var n := ScanCall(d, u).1;
      assert n == Next(u, Pow2(e) - 1, w);
      var rest := WalkTo(d, e, n, v);
      WalkCons(d, u, rest);
      vs := [u] + rest;
    }
  }

  /** From any cursor the walk on one dictionary ends at 0, with ever later cursors. */
  lemma {:induction false} WalkHome(d: Dict, u: nat) returns (vs: seq<nat>)
    requires Wf(d) && u < Pow2(d.dt.bits) && u != 0
    ensures Walk(d, vs) && vs[0] == u && vs[|vs| - 1] == 0
    ensures forall i :: 0 <= i < |vs| - 1 ==> vs[i] != 0 && Rev(u, d.dt.bits) <= Rev(vs[i], d.dt.bits)
    decreases Pow2(d.dt.bits) - Rev(u, d.dt.bits)
  {
    RevBelow(u, d.dt.bits);
    CallAdvances(d, u);
    var n := ScanCall(d, u).1;
    if n == 0 {
      vs := [u, 0];
    } else {
      var rest := WalkHome(d, n);
      WalkCons(d, u, rest);
      vs := [u] + rest;
    }
  }

  const KEY: Key := ""

  /** A dictionary whose single key hashes to h. */
  function OneKey(dt: DictType, size: nat): Dict
    requires IsPow2(size)
  {
    Create(dt).(ht0 := Push(dt, FreshTable(size), Entry(KEY, 0)))
  }

  lemma OneKeySpec(dt: DictType, size: nat)
    requires TypeOk(dt) && IsPow2(size) && Log(size) < dt.bits
    ensures var d := OneKey(dt, size); Wf(d) && KEY in Contents(d) && Size(d) == 1
  {
    var d := OneKey(dt, size);
    FreshTableWf(dt, size);
    PushSpec(dt, FreshTable(size), Entry(KEY, 0));
    ContentsLookup(d, KEY);
  }

  lemma PlainMiss(d: Dict, e: nat, c: nat)
    requires Wf(d) && !Rehashing(d) && c < Pow2(d.dt.bits) && |d.ht0.buckets| == Pow2(e)
    requires Lo(c, e) != Lo(d.dt.hash(KEY), e)
    ensures !Emits(d, c, KEY)
  {
    LogPow2(e);
    if Emits(d, c, KEY) { EmittedBucket(d, c, KEY); }
  }

  /** Shrinking from 2^(k+j) buckets has begun; nothing has moved yet. */
  function Shrinking(d: Dict, k: nat): Dict { d.(ht1 := FreshTable(Pow2(k)), rehashidx := 0) }

  lemma ShrinkingSpec(d: Dict, k: nat, j: nat)
    requires Wf(d) && !Rehashing(d) && |d.ht0.buckets| == Pow2(k + j) && k + j < d.dt.bits && j > 0 && k >= 2
    requires d.ht0.used == 1
    ensures var m := Shrinking(d, k);
            && m == Expand(d, Pow2(k)).0 && Wf(m) && SameMap(d, m) && m.dt == d.dt && Rehashing(m)
            && Small(m) == m.ht1 && Large(m) == d.ht0 && K(m) == k && J(m) == j
  {
    Pow2Strict(k, k + j);
    ShrinkingIs(d, k);
    LogPow2(k);
    LogPow2(k + j);
    ExpandSpec(d, Pow2(k));
  }

  lemma ShrinkingIs(d: Dict, k: nat)
    requires d.dt.bits > 3 && !Rehashing(d) && d.ht0.used == 1 && 2 <= k < d.dt.bits - 1 && |d.ht0.buckets| > Pow2(k)
    ensures Expand(d, Pow2(k)).0 == Shrinking(d, k)
  {
    NextPowerOfPower(k, d.dt.bits);
  }

  lemma {:induction false} DoublingReaches(a: nat, k: nat)
    requires a <= k
    ensures NextPowerFrom(Pow2(a), Pow2(k)) == Pow2(k)
    decreases k - a
  {
    if a < k {
      Pow2Strict(a, k);
      DoublingReaches(a + 1, k);
    }
  }

  lemma NextPowerOfPower(k: nat, bits: nat)
    requires 2 <= k && bits > 3 && k < bits - 1
    ensures NextPower(Pow2(k), bits) == Pow2(k)
  {
    assert Pow2(2) == 4 by { assert Pow2(1) == 2 * Pow2(0); }
    Pow2Strict(k + 1, bits - 1);
    assert Pow2(k + 1) == 2 * Pow2(k);
    Pow2Strict(2, k);
    DoublingReaches(2, k);
  }

  ghost predicate FreshShrink(m: Dict) {
    && Wf(m) && Rehashing(m) && Size(m) != 0
    && |m.ht1.buckets| < |m.ht0.buckets| && m.ht1 == FreshTable(|m.ht1.buckets|)
    && J(m) >= 0 && I(m) >= 0 && Exponents(m, K(m), J(m), I(m))
  }

  lemma FreshShrinkSmall(m: Dict, v: nat)
    requires FreshShrink(m) && v < Pow2(m.dt.bits)
    ensures And(v, |m.ht1.buckets| - 1) < |m.ht1.buckets| && m.ht1.buckets[And(v, |m.ht1.buckets| - 1)] == []
  {
    IdxInRange(v, |m.ht1.buckets|);
  }

  lemma EmptySmallEmits(s: seq<Chain>, l: seq<Chain>, v: nat, k: nat, j: nat, i: nat)
    requires |s| == Pow2(k) && |l| == Pow2(k + j) && v < Pow2(k + (j + i))
    requires And(v, |s| - 1) < |s| && s[And(v, |s| - 1)] == []
    ensures forall x :: 0 <= x < |Expansions(v, k, j, i)| ==> Expansions(v, k, j, i)[x] < |l|
    ensures FromBoth(s, l, v, k, j, i) == Emit(l, Expansions(v, k, j, i))
  {
    ExpansionsInTable(v, k, j, i);
  }

  lemma FreshShrinkEmits(m: Dict, v: nat)
    requires FreshShrink(m) && v < Pow2(m.dt.bits)
    ensures forall x :: 0 <= x < |Expansions(v, K(m), J(m), I(m))|
                        ==> Expansions(v, K(m), J(m), I(m))[x] < |m.ht0.buckets|
    ensures ScanCall(m, v).0 == Emit(m.ht0.buckets, Expansions(v, K(m), J(m), I(m)))
  {
    FreshShrinkSmall(m, v);
    CallIsFromBoth(m, v, K(m), J(m), I(m));
    EmptySmallEmits(m.ht1.buckets, m.ht0.buckets, v, K(m), J(m), I(m));
  }

  lemma EmitMiss(d: Dict, at: seq<nat>, e: Entry)
    requires Wf(d) && (forall i :: 0 <= i < |at| ==> at[i] < |d.ht0.buckets|)
    requires d.ht0.buckets != [] ==> Lo(d.dt.hash(e.key), Log(|d.ht0.buckets|)) !in at
    ensures e !in Emit(d.ht0.buckets, at)
  {
    EmitHas(d.ht0.buckets, at, e);
    forall i | 0 <= i < |at| ensures e !in d.ht0.buckets[at[i]] {
      if e in d.ht0.buckets[at[i]] { EntryPlace(d, at[i], e); }
    }
  }

  lemma ShrinkingMiss(m: Dict, v: nat)
    requires FreshShrink(m) && v < Pow2(m.dt.bits)
    requires Between(m.dt.hash(KEY), K(m), J(m)) < Between(v, K(m), J(m))
    ensures !Emits(m, v, KEY)
  {
    FreshShrinkEmits(m, v);
    NotAmong(v, K(m), J(m), I(m), m.dt.hash(KEY));
    MissAt(m, v, Expansions(v, K(m), J(m), I(m)), K(m) + J(m));
  }

  lemma MissAt(m: Dict, v: nat, at: seq<nat>, e: nat)
    requires Wf(m) && v < Pow2(m.dt.bits) && m.ht0.buckets != [] && e == Log(|m.ht0.buckets|)
    requires (forall x :: 0 <= x < |at| ==> at[x] < |m.ht0.buckets|) && Lo(m.dt.hash(KEY), e) !in at
    requires ScanCall(m, v).0 == Emit(m.ht0.buckets, at)
    ensures !Emits(m, v, KEY)
  {
    if KEY in Contents(m) { EmitMiss(m, at, Entry(KEY, Contents(m)[KEY])); }
  }

  lemma NotAmong(v: nat, k: nat, j: nat, i: nat, h: nat)
    requires v < Pow2(k + (j + i)) && Between(h, k, j) < Between(v, k, j)
    ensures Lo(h, k + j) !in Expansions(v, k, j, i)
  {
    ExpansionsExact(v, k, j, i, h);
  }

  lemma EntryPlace(d: Dict, i: nat, e: Entry)
    requires Wf(d) && i < |d.ht0.buckets| && e in d.ht0.buckets[i]
    ensures i == Lo(d.dt.hash(e.key), Log(|d.ht0.buckets|))
  {
    var c := d.ht0.buckets[i];
    var x :| 0 <= x < |c| && c[x] == e;
    assert ChainWf(d.dt, c, i, |d.ht0.buckets|);
    IdxInRange(d.dt.hash(e.key), |d.ht0.buckets|);
  }

  /** Operations that start a change to 2^(k+j) or 2^k buckets or move it on by one step. */
  predicate ShrinkOps(ops: seq<Op>, k: nat, j: nat) {
    forall i :: 0 <= i < |ops| ==> ops[i] in {OpExpand(Pow2(k + j)), OpExpand(Pow2(k)), OpRehash(1)}
  }

  lemma ReachesFromRest(a: Dict, a1: Dict, ops: seq<Op>, b: Dict)
    requires Wf(a) && ops != [] && Wf(a1) && a1 == Apply(a, ops[0]) && Reaches(a1, ops[1..], b)
    ensures Reaches(a, ops, b)
  {}

  lemma ReachesFirst(d: Dict, op: Op, ops: seq<Op>, d': Dict)
    requires Wf(d) && Wf(Apply(d, op)) && Reaches(Apply(d, op), ops, d')
    ensures Reaches(d, [op] + ops, d')
  {
    assert ([op] + ops)[1..] == ops;
    ReachesFromRest(d, Apply(d, op), [op] + ops, d');
  }

  lemma ReachesOne(d: Dict, op: Op)
    requires Wf(d)
    ensures Reaches(d, [op], Apply(d, op))
  {
    ApplySpec(d, op);
    ReachesFirst(d, op, [], Apply(d, op));
    assert [op] + [] == [op];
  }

  /** Repeated rehash steps finish a rehash, and more operations may follow them. */
  lemma {:induction false} RehashFinishes(d: Dict, more: seq<Op>, k: nat, j: nat) returns (d': Dict, ops: seq<Op>)
    requires Wf(d) && Rehashing(d) && ShrinkOps(more, k, j)
    ensures RehashedTo(d, d') && !Rehashing(d') && ShrinkOps(ops, k, j)
    ensures forall e :: Reaches(d', more, e) ==> Reaches(d, ops, e)
    decreases |d.ht0.buckets| - d.rehashidx
  {
    RehashSpec(d, 1);
    var d1, rest := Rehash(d, 1).0, more;
    d' := d1;
    if Rehashing(d1) {
      d', rest := RehashFinishes(d1, more, k, j);
      RehashedTrans(d, d1, d');
    }
    ops := [OpRehash(1)] + rest;
    forall e | Reaches(d', more, e) ensures Reaches(d, ops, e) { ReachesFirst(d, OpRehash(1), rest, e); }
  }

  /** How one state of the losing run leads to the next: by operations of the dictionary that do
      nothing but change to one of two sizes. */
  ghost predicate OnlyShrinks(d: Dict, d': Dict, k: nat, j: nat) {
    Wf(d) && exists ops :: Reaches(d, ops, d') && ShrinkOps(ops, k, j)
  }

  lemma NothingHappens(d: Dict, k: nat, j: nat)
    requires Wf(d)
    ensures OnlyShrinks(d, d, k, j)
  {
    assert Reaches(d, [], d);
  }

  /** The dictionary comes from a new one by operations. */
  ghost predicate Reachable(d: Dict) {
    TypeOk(d.dt) && (CreateSpec(d.dt); exists ops :: Reaches(Create(d.dt), ops, d))
  }

  lemma ExpandsTo(dt: DictType, e: nat)
    requires TypeOk(dt) && 2 <= e < dt.bits
    ensures Apply(Create(dt), OpExpand(Pow2(e))) == Create(dt).(ht0 := FreshTable(Pow2(e)))
  {
    if e < dt.bits - 1 { NextPowerOfPower(e, dt.bits); }
  }

  lemma AddsFirst(dt: DictType, size: nat)
    requires TypeOk(dt) && IsPow2(size) && Wf(Create(dt).(ht0 := FreshTable(size)))
    ensures Apply(Create(dt).(ht0 := FreshTable(size)), OpAdd(KEY, 0, false)) == OneKey(dt, size)
  {
    var d := Create(dt).(ht0 := FreshTable(size));
    IdxInRange(dt.hash(KEY), size);
    assert Bucket(dt, d.ht0, KEY) == [] && Lookup(d, KEY) == None;
    assert ExpandIfNeeded(d, false) == (d, true);
  }

  /** Expanding a new dictionary and adding one key makes the dictionary of the losing run. */
  lemma OneKeyReachable(dt: DictType, e: nat)
    requires TypeOk(dt) && 2 <= e < dt.bits
    ensures IsPow2(Pow2(e)) && Reachable(OneKey(dt, Pow2(e)))
  {
    LogPow2(e);
    CreateSpec(dt);
    var d0 := Create(dt);
    var d1 := d0.(ht0 := FreshTable(Pow2(e)));
    ExpandsTo(dt, e);
    ApplySpec(d0, OpExpand(Pow2(e)));
    AddsFirst(dt, Pow2(e));
    ReachesOne(d1, OpAdd(KEY, 0, false));
    ReachesFirst(d0, OpExpand(Pow2(e)), [OpAdd(KEY, 0, false)], OneKey(dt, Pow2(e)));
  }

  /** The calls after the shrink never come back to the bucket of the lost key. */
  lemma AfterMiss(d: Dict, k: nat, v: nat, n: nat, c: nat)
    requires Wf(d) && !Rehashing(d) && |d.ht0.buckets| == Pow2(k) && k <= d.dt.bits
    requires v < Pow2(d.dt.bits) && c < Pow2(d.dt.bits)
    requires Pow2(k) - 1 < Pow2(d.dt.bits) && n == Next(v, Pow2(k) - 1, d.dt.bits)
    requires n != 0 && Rev(n, d.dt.bits) <= Rev(c, d.dt.bits) && Lo(d.dt.hash(KEY), k) == Lo(v, k)
    ensures !Emits(d, c, KEY)
  {
    NextElsewhere(v, c, k, d.dt.bits - k);
    PlainMiss(d, k, c);
  }

  /** a-1 calls on one dictionary, one on a second, b-1 on a third. */
  function Join(big: Dict, m: Dict, small: Dict, a: nat, b: nat): (ds: seq<Dict>)
    requires a > 0 && b > 0
    ensures |ds| == a + b - 1
    ensures forall i :: 0 <= i < |ds| ==> ds[i] == if i < a - 1 then big else if i == a - 1 then m else small
  {
    seq(a + b - 1, i => if i < a - 1 then big else if i == a - 1 then m else small)
  }

  lemma WalkOn(small: Dict, n: nat) returns (us: seq<nat>)
    requires Wf(small) && n < Pow2(small.dt.bits)
    ensures Walk(small, us) && us[0] == n && us[|us| - 1] == 0
    ensures forall i :: 0 <= i < |us| - 1 ==> us[i] != 0 && n != 0 && Rev(n, small.dt.bits) <= Rev(us[i], small.dt.bits)
  {
    if n == 0 { us := [0]; } else { us := WalkHome(small, n); }
  }

  /** A hash that a call at cursor v neither emits nor leaves ahead. */
  ghost predicate Lost(h: nat, v: nat, k: nat, j: nat, i: nat) {
    && v < Pow2(k + (j + i)) && h < Pow2(k + j)
    && Lo(h, k) == Lo(v, k) && Ahead(h, v, k + (j + i))
    && Between(h, k, j) < Between(v, k, j)
  }

  /** The call at v returns n and does not emit the key, which is there. */
  ghost predicate CallMisses(d: Dict, v: nat, n: nat) {
    Wf(d) && v < Pow2(d.dt.bits) && KEY in Contents(d) && n == ScanCall(d, v).1 && !Emits(d, v, KEY)
  }

  /** A dictionary with one key in one table. */
  ghost predicate OneKeyIn(d: Dict, size: nat) {
    Wf(d) && !Rehashing(d) && d.ht0.used == 1 && KEY in Contents(d) && |d.ht0.buckets| == size
  }

  /** The same, on its way to a table of the given size. */
  ghost predicate OneKeyMoving(d: Dict, size: nat) {
    Wf(d) && Rehashing(d) && Size(d) == 1 && KEY in Contents(d) && |d.ht1.buckets| == size
  }

  /** A dictionary with one key, on a hash that a shrink to 2^k would lose at cursor v. */
  ghost predicate AboutToShrink(big: Dict, k: nat, j: nat, v: nat) {
    && OneKeyIn(big, Pow2(k + j)) && k + j < big.dt.bits && j > 0 && k >= 2
    && Lost(big.dt.hash(KEY), v, k, j, big.dt.bits - (k + j))
  }

  /** A dictionary with one key in a table of 2^e buckets that holds the cursor v and the key's hash,
      which is not before v. */
  ghost predicate HoldsBoth(huge: Dict, e: nat, v: nat) {
    && OneKeyIn(huge, Pow2(e)) && e < huge.dt.bits
    && v < Pow2(e) && huge.dt.hash(KEY) < Pow2(e) && Ahead(huge.dt.hash(KEY), v, huge.dt.bits)
  }

  /** The largest table there is, with a key that a shrink from 2^(k+j) to 2^k would lose. */
  lemma LossSetup(bits: nat, k: nat, j: nat, v: nat) returns (huge: Dict)
    requires 2 <= k && j > 0 && k + j < bits && bits > 3
    requires v < Pow2(bits - 1) && !OnesFromBelow(Between(v, k, j))
    ensures HoldsBoth(huge, bits - 1, v) && huge.dt.bits == bits && Reachable(huge)
    ensures Lost(huge.dt.hash(KEY), v, k, j, bits - (k + j))
  {
    var i, e := bits - (k + j), bits - 1;
    PowMono(e, bits);
    PowMono(k + j, e);
    assert k + (j + i) == bits;
    var h := GapMisses(v, k, j, i);
    huge := OneKeyAt(h, e, bits, v);
  }

  lemma OneKeyAt(h: nat, e: nat, bits: nat, v: nat) returns (huge: Dict)
    requires 2 <= e < bits && bits > 3 && h < Pow2(e) <= Pow2(bits) && v < Pow2(e) && Ahead(h, v, bits)
    ensures HoldsBoth(huge, e, v) && huge.dt.bits == bits && huge.dt.hash(KEY) == h && Reachable(huge)
  {
    var dt := DictType(_ => h, bits);
    LogPow2(e);
    huge := OneKey(dt, Pow2(e));
    OneKeySpec(dt, Pow2(e));
    OneKeyReachable(dt, e);
  }

  /** The table of 2^(k+j) buckets that the largest one shrinks to between two calls, before it begins to
      shrink further. */
  lemma FirstShrink(huge: Dict, e: nat, k: nat, j: nat, f: nat, i: nat, v: nat) returns (big: Dict)
    requires OneKeyIn(huge, Pow2(e)) && 2 <= k && j > 0 && f == k + j && f <= e < huge.dt.bits == f + i
    requires Lost(huge.dt.hash(KEY), v, k, j, i)
    ensures AboutToShrink(big, k, j, v) && big.dt == huge.dt && OnlyShrinks(huge, Shrinking(big, k), k, j)
  {
    if f == e {
      big := huge;
      ShrinksOnce(huge, k, j, f);
    } else {
      big := ShrinksTwice(huge, e, k, j, f);
    }
    StillLost(big, k, j, f, i, v);
  }

  lemma StillLost(big: Dict, k: nat, j: nat, f: nat, i: nat, v: nat)
    requires OneKeyIn(big, Pow2(f)) && f == k + j && big.dt.bits == f + i && i > 0
    requires k >= 2 && j > 0 && Lost(big.dt.hash(KEY), v, k, j, i)
    ensures AboutToShrink(big, k, j, v)
  {}

  lemma ShrinksOnce(big: Dict, k: nat, j: nat, f: nat)
    requires OneKeyIn(big, Pow2(f)) && f == k + j && 2 <= k && j > 0 && f < big.dt.bits
    ensures Reaches(big, [OpExpand(Pow2(k))], Shrinking(big, k)) && OnlyShrinks(big, Shrinking(big, k), k, j)
  {
    ShrinkingSpec(big, k, j);
    ExpandReaches(big, Pow2(k));
    assert ShrinkOps([OpExpand(Pow2(k))], k, j);
  }

  lemma ShrinksTwice(huge: Dict, e: nat, k: nat, j: nat, f: nat) returns (big: Dict)
    requires OneKeyIn(huge, Pow2(e)) && 2 <= k && j > 0 && f == k + j && f < e < huge.dt.bits
    ensures OneKeyIn(big, Pow2(f)) && big.dt == huge.dt && OnlyShrinks(huge, Shrinking(big, k), k, j)
  {
    var m := ShrinkBegun(huge, e, f);
    var ops;
    big, ops := ShrunkOne(m, Pow2(f), [OpExpand(Pow2(k))], k, j);
    ShrinksOnce(big, k, j, f);
    FirstOp(ops, k, j, f);
    assert Reaches(huge, [OpExpand(Pow2(f))] + ops, Shrinking(big, k));
  }

  lemma FirstOp(ops: seq<Op>, k: nat, j: nat, f: nat)
    requires ShrinkOps(ops, k, j) && f == k + j
    ensures ShrinkOps([OpExpand(Pow2(f))] + ops, k, j)
  {}

  lemma ExpandReaches(d: Dict, size: nat)
    requires Wf(d)
    ensures Reaches(d, [OpExpand(size)], Expand(d, size).0)
  {
    ReachesOne(d, OpExpand(size));
  }

  lemma ExpandFirst(d: Dict, size: nat, ops: seq<Op>, d': Dict)
    requires Wf(d) && Wf(Expand(d, size).0) && Reaches(Expand(d, size).0, ops, d')
    ensures Reaches(d, [OpExpand(size)] + ops, d')
  {
    ReachesFirst(d, OpExpand(size), ops, d');
  }

  lemma ShrinkBegun(huge: Dict, e: nat, f: nat) returns (m: Dict)
    requires OneKeyIn(huge, Pow2(e)) && 2 <= f < e < huge.dt.bits
    ensures OneKeyMoving(m, Pow2(f)) && m.dt == huge.dt
    ensures forall ops, d :: Reaches(m, ops, d) ==> Reaches(huge, [OpExpand(Pow2(f))] + ops, d)
  {
    m := Shrinking(huge, f);
    ShrinkingSpec(huge, f, e - f);
    SameMapContents(huge, m);
    forall ops, d | Reaches(m, ops, d) ensures Reaches(huge, [OpExpand(Pow2(f))] + ops, d) {
      ExpandFirst(huge, Pow2(f), ops, d);
    }
  }

  /** The calls before the shrinks. */
  lemma LossBefore(huge: Dict, e: nat, v: nat) returns (ws: seq<nat>)
    requires HoldsBoth(huge, e, v)
    ensures |ws| > 0 && ws[0] == 0 && ws[|ws| - 1] == v && forall i :: 0 < i < |ws| ==> ws[i] != 0
    ensures forall i :: 0 <= i < |ws| - 1 ==> CallMisses(huge, ws[i], ws[i + 1])
  {
    RevZero(huge.dt.bits);
    ws := WalkTo(huge, e, 0, v);
    forall i | 0 <= i < |ws| - 1 ensures CallMisses(huge, ws[i], ws[i + 1]) {
      BeforeMiss(huge, e, ws[i], v);
      assert ws[i + 1] == ScanCall(huge, ws[i + 1 - 1]).1;
    }
  }

  lemma ShrinkingTables(big: Dict, k: nat, j: nat, v: nat)
    requires AboutToShrink(big, k, j, v)
    ensures var m := Shrinking(big, k);
            && FreshShrink(m) && K(m) == k && J(m) == j && KEY in Contents(m)
            && m == Expand(big, Pow2(k)).0 && m.dt == big.dt
  {
    var m := Shrinking(big, k);
    ShrinkingSpec(big, k, j);
    SameMapContents(big, m);
    ExponentsHold(m);
    Pow2Strict(k, k + j);
  }

  lemma ShrinkingNext(m: Dict, v: nat, k: nat, w: nat)
    requires FreshShrink(m) && k == K(m) && w == m.dt.bits && v < Pow2(w)
    ensures |m.ht1.buckets| == Pow2(k) && k <= w && Pow2(k) - 1 < Pow2(w)
    ensures ScanCall(m, v).1 == Next(v, Pow2(k) - 1, w)
  {
    CallNext(m, v, k, w);
  }

  /** The call at v, just after the shrink has begun. */
  lemma LossMid(m: Dict, v: nat)
    requires FreshShrink(m) && v < Pow2(m.dt.bits) && KEY in Contents(m)
    requires Between(m.dt.hash(KEY), K(m), J(m)) < Between(v, K(m), J(m))
    ensures CallMisses(m, v, ScanCall(m, v).1)
  {
    ShrinkingMiss(m, v);
  }

  lemma ShrunkDict(m: Dict, more: seq<Op>, k: nat, j: nat) returns (small: Dict, ops: seq<Op>)
    requires Wf(m) && Rehashing(m) && KEY in Contents(m) && ShrinkOps(more, k, j)
    ensures Wf(small) && !Rehashing(small) && small.dt == m.dt && ShrinkOps(ops, k, j)
    ensures |small.ht0.buckets| == |m.ht1.buckets| && KEY in Contents(small) && small.ht0.used == Size(m)
    ensures forall e :: Reaches(small, more, e) ==> Reaches(m, ops, e)
  {
    small, ops := RehashFinishes(m, more, k, j);
    SameMapContents(m, small);
  }

  lemma ShrunkOne(m: Dict, size: nat, more: seq<Op>, k: nat, j: nat) returns (small: Dict, ops: seq<Op>)
    requires OneKeyMoving(m, size) && ShrinkOps(more, k, j)
    ensures OneKeyIn(small, size) && small.dt == m.dt && ShrinkOps(ops, k, j)
    ensures forall e :: Reaches(small, more, e) ==> Reaches(m, ops, e)
  {
    small, ops := ShrunkDict(m, more, k, j);
  }

  /** The calls after the shrink, on a table of 2^k buckets. */
  lemma LossAfter(small: Dict, k: nat, v: nat) returns (us: seq<nat>)
    requires Wf(small) && !Rehashing(small) && |small.ht0.buckets| == Pow2(k) && k <= small.dt.bits
    requires KEY in Contents(small)
    requires v < Pow2(small.dt.bits) && Lo(small.dt.hash(KEY), k) == Lo(v, k)
    ensures Pow2(k) - 1 < Pow2(small.dt.bits)
    ensures |us| > 0 && us[0] == Next(v, Pow2(k) - 1, small.dt.bits) && us[|us| - 1] == 0
    ensures forall i :: 0 <= i < |us| - 1 ==> us[i] != 0 && CallMisses(small, us[i], us[i + 1])
  {
    var w := small.dt.bits;
    NotMask(k, w - k);
    CursorIncreases(v, k, w - k);
    var n := Next(v, Pow2(k) - 1, w);
    us := WalkOn(small, n);
    forall i | 0 <= i < |us| - 1 ensures CallMisses(small, us[i], us[i + 1]) {
      AfterMiss(small, k, v, n, us[i]);
      assert us[i + 1] == ScanCall(small, us[i + 1 - 1]).1;
    }
  }

  /** The three states of a losing run. */
  ghost predicate LossStates(huge: Dict, m: Dict, small: Dict, k: nat, j: nat) {
    && !Rehashing(huge) && !Rehashing(small) && m.dt == huge.dt && small.dt == huge.dt
    && OnlyShrinks(huge, m, k, j) && OnlyShrinks(m, small, k, j) && Wf(small)
    && |Small(m).buckets| == Pow2(k) && |Large(m).buckets| == Pow2(k + j)
  }

  /** The only rehash a call meets is the shrink from 2^(k+j) to 2^k buckets, at cursor v. */
  ghost predicate OnlyShrinkAt(d: Dict, c: nat, k: nat, j: nat, v: nat) {
    Rehashing(d) ==> c == v && |Small(d).buckets| == Pow2(k) && |Large(d).buckets| == Pow2(k + j)
  }

  /** A complete scan that never emits KEY although it is always there. All that happens to the
      dictionary is that it shrinks to 2^(k+j) and then to 2^k buckets, the latter under way at the
      single call made at cursor v; all other calls meet one table. */
  ghost predicate LosingRun(ds: seq<Dict>, vs: seq<nat>, k: nat, j: nat, v: nat) {
    && |ds| > 0 && |vs| == |ds| + 1 && vs[0] == 0 && vs[|ds|] == 0
    && (forall i :: 0 < i < |ds| ==> vs[i] != 0)
    && (forall i :: 0 <= i < |ds| ==> ds[i].dt == ds[0].dt)
    && (forall i :: 0 <= i < |ds| ==> CallMisses(ds[i], vs[i], vs[i + 1]))
    && (forall i :: 0 <= i < |ds| ==> OnlyShrinkAt(ds[i], vs[i], k, j, v))
    && (forall i :: 0 <= i < |ds| - 1 ==> OnlyShrinks(ds[i], ds[i + 1], k, j))
  }

  lemma LosingRunIsScan(ds: seq<Dict>, vs: seq<nat>, k: nat, j: nat, v: nat)
    requires LosingRun(ds, vs, k, j, v)
    ensures ScanRun(ds, vs) && PresentThroughout(ds, KEY)
    ensures forall i :: 0 <= i < |ds| ==> !Emits(ds[i], vs[i], KEY)
  {
    forall i | 0 <= i < |ds|
      ensures && Wf(ds[i]) && vs[i] < Pow2(ds[i].dt.bits) && vs[i + 1] == ScanCall(ds[i], vs[i]).1
              && KEY in Contents(ds[i]) && !Emits(ds[i], vs[i], KEY)
    {
      assert CallMisses(ds[i], vs[i], vs[i + 1]);
    }
  }

  /** Putting the three parts of the run together, for any property P of calls. */
  lemma JoinCalls(P: (Dict, nat, nat) -> bool, big: Dict, m: Dict, small: Dict, ws: seq<nat>, us: seq<nat>)
    requires |ws| > 0 && |us| > 0 && P(m, ws[|ws| - 1], us[0])
    requires forall i :: 0 <= i < |ws| - 1 ==> P(big, ws[i], ws[i + 1])
    requires forall i :: 0 <= i < |us| - 1 ==> P(small, us[i], us[i + 1])
    ensures forall x :: 0 <= x < |ws| + |us| - 1
                        ==> P(Join(big, m, small, |ws|, |us|)[x], (ws + us)[x], (ws + us)[x + 1])
  {
    forall x | 0 <= x < |ws| + |us| - 1
      ensures P(Join(big, m, small, |ws|, |us|)[x], (ws + us)[x], (ws + us)[x + 1])
    {
      if x >= |ws| { assert (ws + us)[x] == us[x - |ws|] && (ws + us)[x + 1] == us[x - |ws| + 1]; }
    }
  }

  lemma JoinMisses(big: Dict, m: Dict, small: Dict, ws: seq<nat>, us: seq<nat>)
    requires |ws| > 0 && |us| > 0 && CallMisses(m, ws[|ws| - 1], us[0])
    requires forall i :: 0 <= i < |ws| - 1 ==> CallMisses(big, ws[i], ws[i + 1])
    requires forall i :: 0 <= i < |us| - 1 ==> CallMisses(small, us[i], us[i + 1])
    ensures forall x :: 0 <= x < |ws| + |us| - 1
                        ==> CallMisses(Join(big, m, small, |ws|, |us|)[x], (ws + us)[x], (ws + us)[x + 1])
  {
    JoinCalls((d: Dict, c: nat, n: nat) => CallMisses(d, c, n), big, m, small, ws, us);
  }

  lemma JoinShrinks(big: Dict, m: Dict, small: Dict, ws: seq<nat>, us: seq<nat>, k: nat, j: nat, v: nat)
    requires LossStates(big, m, small, k, j)
    requires |ws| > 0 && ws[|ws| - 1] == v && |us| > 0
    ensures var ds := Join(big, m, small, |ws|, |us|);
            && (forall i :: 0 <= i < |ds| ==> ds[i].dt == ds[0].dt)
            && (forall i :: 0 <= i < |ds| ==> OnlyShrinkAt(ds[i], (ws + us)[i], k, j, v))
            && (forall i :: 0 <= i < |ds| - 1 ==> OnlyShrinks(ds[i], ds[i + 1], k, j))
  {
    NothingHappens(big, k, j);
    NothingHappens(small, k, j);
  }

  lemma JoinLoses(big: Dict, m: Dict, small: Dict, ws: seq<nat>, us: seq<nat>, k: nat, j: nat, v: nat)
    requires |ws| > 0 && ws[0] == 0 && ws[|ws| - 1] == v && forall i :: 0 < i < |ws| ==> ws[i] != 0
    requires |us| > 0 && us[|us| - 1] == 0 && forall i :: 0 <= i < |us| - 1 ==> us[i] != 0
    requires var ds := Join(big, m, small, |ws|, |us|);
             && (forall i :: 0 <= i < |ds| ==> ds[i].dt == ds[0].dt)
             && (forall i :: 0 <= i < |ds| ==> CallMisses(ds[i], (ws + us)[i], (ws + us)[i + 1]))
             && (forall i :: 0 <= i < |ds| ==> OnlyShrinkAt(ds[i], (ws + us)[i], k, j, v))
             && (forall i :: 0 <= i < |ds| - 1 ==> OnlyShrinks(ds[i], ds[i + 1], k, j))
    ensures LosingRun(Join(big, m, small, |ws|, |us|), ws + us, k, j, v)
  {}

  lemma LossEnd(m: Dict, k: nat, j: nat, v: nat) returns (small: Dict, us: seq<nat>)
    requires Wf(m) && Rehashing(m) && |m.ht1.buckets| == Pow2(k) && k <= m.dt.bits && Pow2(k) - 1 < Pow2(m.dt.bits)
    requires KEY in Contents(m) && v < Pow2(m.dt.bits) && Lo(m.dt.hash(KEY), k) == Lo(v, k)
    ensures Wf(small) && !Rehashing(small) && small.dt == m.dt && OnlyShrinks(m, small, k, j)
    ensures |us| > 0 && us[0] == Next(v, Pow2(k) - 1, m.dt.bits) && us[|us| - 1] == 0
    ensures forall i :: 0 <= i < |us| - 1 ==> us[i] != 0 && CallMisses(small, us[i], us[i + 1])
  {
    var ops;
    small, ops := ShrunkDict(m, [], k, j);
    assert Reaches(small, [], small);
    us := LossAfter(small, k, v);
  }

  lemma LossTail(m: Dict, k: nat, j: nat, v: nat, n: nat) returns (small: Dict, us: seq<nat>)
    requires FreshShrink(m) && K(m) == k && KEY in Contents(m) && v < Pow2(m.dt.bits)
    requires Lo(m.dt.hash(KEY), k) == Lo(v, k) && n == ScanCall(m, v).1
    ensures Wf(small) && !Rehashing(small) && small.dt == m.dt && OnlyShrinks(m, small, k, j)
    ensures |us| > 0 && us[0] == n && us[|us| - 1] == 0
    ensures forall i :: 0 <= i < |us| - 1 ==> us[i] != 0 && CallMisses(small, us[i], us[i + 1])
  {
    ShrinkingNext(m, v, k, m.dt.bits);
    small, us := LossEnd(m, k, j, v);
  }

  lemma LossJoined(big: Dict, m: Dict, small: Dict, ws: seq<nat>, us: seq<nat>, k: nat, j: nat, v: nat)
    requires LossStates(big, m, small, k, j)
    requires |ws| > 0 && ws[0] == 0 && ws[|ws| - 1] == v && forall i :: 0 < i < |ws| ==> ws[i] != 0
    requires |us| > 0 && us[|us| - 1] == 0 && CallMisses(m, v, us[0])
    requires forall i :: 0 <= i < |ws| - 1 ==> CallMisses(big, ws[i], ws[i + 1])
    requires forall i :: 0 <= i < |us| - 1 ==> us[i] != 0 && CallMisses(small, us[i], us[i + 1])
    ensures LosingRun(Join(big, m, small, |ws|, |us|), ws + us, k, j, v)
  {
    JoinMisses(big, m, small, ws, us);
    JoinShrinks(big, m, small, ws, us, k, j, v);
    JoinLoses(big, m, small, ws, us, k, j, v);
  }

  lemma LossShape(big: Dict, k: nat, j: nat, v: nat)
    requires AboutToShrink(big, k, j, v)
    ensures var m := Shrinking(big, k);
            && FreshShrink(m) && K(m) == k && KEY in Contents(m) && v < Pow2(m.dt.bits)
            && Lo(m.dt.hash(KEY), k) == Lo(v, k) && m.dt == big.dt
            && Between(m.dt.hash(KEY), K(m), J(m)) < Between(v, K(m), J(m))
            && |Small(m).buckets| == Pow2(k) && |Large(m).buckets| == Pow2(k + j)
  {
    ShrinkingTables(big, k, j, v);
  }

  lemma LossRun(huge: Dict, e: nat, big: Dict, k: nat, j: nat, v: nat) returns (ds: seq<Dict>, vs: seq<nat>)
    requires HoldsBoth(huge, e, v) && AboutToShrink(big, k, j, v)
    requires big.dt == huge.dt && OnlyShrinks(huge, Shrinking(big, k), k, j)
    ensures LosingRun(ds, vs, k, j, v) && ds[0] == huge
  {
    var m := Shrinking(big, k);
    LossShape(big, k, j, v);
    LossMid(m, v);
    var ws := LossBefore(huge, e, v);
    var small, us := LossTail(m, k, j, v, ScanCall(m, v).1);
    LossJoined(huge, m, small, ws, us, k, j, v);
    BeyondStart(v, k, j);
    ds, vs := Join(huge, m, small, |ws|, |us|), ws + us;
  }

  lemma BeyondStart(v: nat, k: nat, j: nat)
    requires Between(v, k, j) > 0
    ensures v != 0
  {
    if v == 0 {
      LoSmall(0, k);
      LoSmall(0, j);
    }
  }

  /** There is a losing run for every pair of sizes and every cursor a scan can meet (by
      CursorInReach) where the condition fails, and its dictionaries come from a new one by operations. */
  lemma BadCallLoses(bits: nat, k: nat, j: nat, v: nat) returns (ds: seq<Dict>, vs: seq<nat>)
    requires 2 <= k && j > 0 && k + j < bits && bits > 3
    requires v < Pow2(bits - 1) && !OnesFromBelow(Between(v, k, j))
    ensures LosingRun(ds, vs, k, j, v) && ds[0].dt.bits == bits && Reachable(ds[0])
  {
    var huge := LossSetup(bits, k, j, v);
    var big := FirstShrink(huge, bits - 1, k, j, k + j, bits - (k + j), v);
    ds, vs := LossRun(huge, bits - 1, big, k, j, v);
  }

  /** No scan meets a cursor with the highest digit set: no table is that large. */
  lemma CursorInReach(ds: seq<Dict>, vs: seq<nat>, i: nat)
    requires ScanPrefix(ds, vs) && i <= |ds|
    ensures vs[i] < Pow2(ds[0].dt.bits - 1)
  {
    if i > 0 {
      var d := ds[i - 1];
      assert vs[i - 1 + 1] == ScanCall(d, vs[i - 1]).1;
      if Size(d) != 0 {
        CallNext(d, vs[i - 1], E(d), d.dt.bits);
        TableExponent(d);
        NextFits(vs[i - 1], E(d), d.dt.bits);
      }
    }
  }

  lemma TableExponent(d: Dict)
    requires Wf(d) && Size(d) != 0
    ensures E(d) < d.dt.bits
  {
    if Rehashing(d) { SmallMask(d); } else { NonEmptyTable(d); }
  }

  lemma NextFits(v: nat, e: nat, w: nat)
    requires e < w && v < Pow2(w) && Pow2(e) - 1 < Pow2(w)
    ensures Next(v, Pow2(e) - 1, w) < Pow2(w - 1)
  {
    NextShort(v, e, w - e);
    PowMono(e, w - 1);
  }

  lemma BeforeMiss(d: Dict, e: nat, c: nat, v: nat)
    requires Wf(d) && !Rehashing(d) && |d.ht0.buckets| == Pow2(e) && e <= d.dt.bits
    requires c < Pow2(e) && c < Pow2(d.dt.bits) && d.dt.hash(KEY) < Pow2(e)
    requires Rev(c, d.dt.bits) < Rev(v, d.dt.bits) && Ahead(d.dt.hash(KEY), v, d.dt.bits)
    ensures !Emits(d, c, KEY)
  {
    LoSmall(c, e);
    LoSmall(d.dt.hash(KEY), e);
    PlainMiss(d, e, c);
  }
}
