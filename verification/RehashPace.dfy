/** Rehashing keeps ahead of growth: a growth is over within as many rehash steps as the old
    table has buckets, and by then the elements still fit the new table one to one. */
module RehashPace {
  import opened Words
  import opened DictModel

  /** Operations whose rehash step drives a growth on. */
  predicate Drives(op: Op) { op.OpAdd? || op.OpReplace? || op.OpFind? || op.OpDelete? }

  /** The operation performs a rehash step; lookups in an empty dictionary return at once. */
  predicate Steps(d: Dict, op: Op) {
    Rehashing(d) && d.iterators == 0 && !((op.OpFind? || op.OpDelete?) && Size(d) == 0)
  }

  /** A growth after n rehash steps: u elements and s0 buckets at its start, s1 new buckets. */
  ghost predicate InGrowth(d: Dict, n: nat, u: nat, s0: nat, s1: nat) {
    && Wf(d) && Rehashing(d) && d.iterators == 0
    && |d.ht0.buckets| == s0 && |d.ht1.buckets| == s1
    && n <= d.rehashidx && n < s0 && Size(d) <= u + 1 + n
  }

  ghost predicate Fits(u: nat, s0: nat, s1: nat) { 0 < s0 <= u && 2 * u <= s1 }

  ghost predicate SameShape(d: Dict, d': Dict) {
    && d'.rehashidx == d.rehashidx && |d'.ht0.buckets| == |d.ht0.buckets| && |d'.ht1.buckets| == |d.ht1.buckets|
  }

  // ---------------------------------------------------------------- when a table grows or shrinks, and to what

  /** The least power of two that is at least 4 and holds the request. */
  ghost predicate LeastFor(n: nat, size: nat) { IsPow2(n) && n >= 4 && n >= size && (n == 4 || n < 2 * size) }

  lemma {:induction false} PowersApart(a: nat, b: nat)
    requires IsPow2(a) && IsPow2(b) && a < b
    ensures 2 * a <= b
  {
    Pow2Below(Log(a), Log(b));
    PowMono(Log(a) + 1, Log(b));
    assert Pow2(Log(a) + 1) == 2 * Pow2(Log(a));
  }

  lemma LeastUnique(a: nat, b: nat, size: nat)
    requires LeastFor(a, size) && LeastFor(b, size)
    ensures a == b
  {
    if a < b { PowersApart(a, b); }
    if b < a { PowersApart(b, a); }
  }

  /** A request is carried out exactly when no rehash is on, it holds all elements and the table has
      another size than the one it leads to. */
  lemma ExpandIff(d: Dict, size: nat)
    requires Wf(d) && size <= Pow2(d.dt.bits - 1)
    ensures var r := Expand(d, size);
      && (r.1 <==> !Rehashing(d) && d.ht0.used <= size && !LeastFor(|d.ht0.buckets|, size)) && (!r.1 ==> r.0 == d)
      && (r.1 && d.ht0.buckets == [] ==> !Rehashing(r.0) && LeastFor(|r.0.ht0.buckets|, size))
      && (r.1 && d.ht0.buckets != [] ==> && Rehashing(r.0) && r.0.rehashidx == 0 && r.0.ht0 == d.ht0
                                         && LeastFor(|r.0.ht1.buckets|, size))
  {
    var n := NextPower(size, d.dt.bits);
    NextPowerSpec(size, d.dt.bits);
    assert LeastFor(n, size);
    if LeastFor(|d.ht0.buckets|, size) { LeastUnique(n, |d.ht0.buckets|, size); }
  }

  /** dictResize leads to the least table that holds the elements, if resizing is allowed. */
  lemma ResizeIff(d: Dict, canResize: bool)
    requires Wf(d) && d.ht0.used <= Pow2(d.dt.bits - 1)
    ensures var r := Resize(d, canResize);
      && (r.1 <==> canResize && !Rehashing(d) && !LeastFor(|d.ht0.buckets|, d.ht0.used)) && (!r.1 ==> r.0 == d)
      && (r.1 && d.ht0.buckets == [] ==> !Rehashing(r.0) && LeastFor(|r.0.ht0.buckets|, d.ht0.used))
      && (r.1 && d.ht0.buckets != [] ==> && Rehashing(r.0) && r.0.rehashidx == 0 && r.0.ht0 == d.ht0
                                         && LeastFor(|r.0.ht1.buckets|, d.ht0.used))
  {
    Pow2FourAtMost(d.dt.bits - 1);
    var size := if d.ht0.used < INITIAL_SIZE then INITIAL_SIZE else d.ht0.used;
    ExpandIff(d, size);
  }

  lemma OverRatio(used: nat, size: nat)
    requires size > 0
    ensures used / size > 5 <==> used >= 6 * size
  {
    var q, r := used / size, used % size;
    assert used == q * size + r;
    if q >= 6 { MulAtLeast(size, q - 5); assert q * size == 5 * size + size * (q - 5); }
    if q <= 5 { assert q * size <= 5 * size; }
  }

  /** An insertion begins a growth exactly when the table holds as many elements as buckets, resizing is
      allowed or there are six times as many, and there is a larger table to be had. */
  lemma GrowsIff(d: Dict, canResize: bool)
    requires Wf(d) && !Rehashing(d) && d.ht0.buckets != []
    ensures var d', size := ExpandIfNeeded(d, canResize).0, |d.ht0.buckets|;
      && (Rehashing(d') <==> && d.ht0.used >= size && (canResize || d.ht0.used >= 6 * size)
                             && size < Pow2(d.dt.bits - 1))
      && (Rehashing(d') && RoomToGrow(d) ==> LeastFor(|d'.ht1.buckets|, 2 * d.ht0.used))
      && (!Rehashing(d') ==> d' == d)
  {
    var size, m := |d.ht0.buckets|, d.dt.bits - 1;
    OverRatio(d.ht0.used, size);
    if d.ht0.used >= size {
      NextPowerSpec(2 * d.ht0.used, d.dt.bits);
      PowMono(Log(size), m);
      if 2 * d.ht0.used <= Pow2(m) { ExpandIff(d, 2 * d.ht0.used); }
    }
  }

  lemma AddGrowsIff(d: Dict, k: Key, v: Value, canResize: bool)
    requires Wf(d) && !Rehashing(d) && d.ht0.buckets != []
    ensures Rehashing(Add(d, k, v, canResize).0) <==> Rehashing(ExpandIfNeeded(d, canResize).0)
  {
    AddShape(d, k, v, canResize);
  }

  /** So an add or replace begins a growth under just these conditions, whether the key is new or not. */
  lemma InsertionGrowsIff(d: Dict, op: Op)
    requires Wf(d) && !Rehashing(d) && d.ht0.buckets != [] && Inserts(op)
    ensures var size := |d.ht0.buckets|;
      Rehashing(Apply(d, op)) <==> && d.ht0.used >= size && (op.canResize || d.ht0.used >= 6 * size)
                                   && size < Pow2(d.dt.bits - 1)
  {
    GrowsIff(d, op.canResize);
    AddGrowsIff(d, op.k, op.v, op.canResize);
    if op.OpReplace? { ReplaceShape(d, op.k, op.v, op.canResize); }
  }

  /** The first insertion gets a table of four buckets. */
  lemma FirstTableIs(d: Dict, canResize: bool)
    requires Wf(d) && !Rehashing(d) && d.ht0.buckets == []
    ensures var r := ExpandIfNeeded(d, canResize); r.1 && !Rehashing(r.0) && |r.0.ht0.buckets| == 4
  {
    Pow2FourAtMost(d.dt.bits - 1);
    ExpandIff(d, INITIAL_SIZE);
  }

  // ---------------------------------------------------------------- how far one call gets

  /** The empty buckets from i on, before j. */
  function EmptyIn(b: seq<Chain>, i: nat, j: nat): nat
    requires i <= j <= |b|
    decreases j - i
  {
    if i == j then 0 else (if b[i] == [] then 1 else 0) + EmptyIn(b, i + 1, j)
  }

  lemma {:induction false} EmptyInSame(a: seq<Chain>, b: seq<Chain>, i: nat, j: nat)
    requires i <= j <= |a| == |b| && forall x :: i <= x < j ==> a[x] == b[x]
    ensures EmptyIn(a, i, j) == EmptyIn(b, i, j)
    decreases j - i
  {
    if i < j { EmptyInSame(a, b, i + 1, j); }
  }

  /** The buckets passed on the way from one index to another: some moved, the others empty. */
  ghost predicate Passes(d: Dict, d': Dict, n: nat, visits: int) {
    && 0 <= d.rehashidx <= d'.rehashidx <= |d.ht0.buckets|
    && var e := EmptyIn(d.ht0.buckets, d.rehashidx, d'.rehashidx);
       var moved := d'.rehashidx - d.rehashidx - e;
       moved <= n && e <= visits && (moved == n || e == visits)
  }

  lemma {:induction false} LoopStops(d: Dict, n: nat, visits: nat)
    requires Wf(d) && Rehashing(d) && (visits > 0 || n == 0)
    ensures Rehashing(RehashLoop(d, n, visits).0) ==> Passes(d, RehashLoop(d, n, visits).0, n, visits)
    decreases |d.ht0.buckets| - d.rehashidx
  {
    if n > 0 && d.ht0.used != 0 {
      RehashidxInside(d);
      if d.ht0.buckets[d.rehashidx] == [] { StopsAfterEmpty(d, n, visits); } else { StopsAfterMove(d, n, visits); }
    }
  }

  lemma StopsAfterEmpty(d: Dict, n: nat, visits: nat)
    requires Wf(d) && Rehashing(d) && n > 0 && visits > 0 && d.ht0.used != 0
    requires d.rehashidx < |d.ht0.buckets| && d.ht0.buckets[d.rehashidx] == []
    ensures Rehashing(RehashLoop(d, n, visits).0) ==> Passes(d, RehashLoop(d, n, visits).0, n, visits)
    decreases |d.ht0.buckets| - d.rehashidx, 0
  {
    var d1 := d.(rehashidx := d.rehashidx + 1);
    LoopSkips(d, n, visits);
    if visits > 1 {
      LoopStops(d1, n, visits - 1);
      var d' := RehashLoop(d1, n, visits - 1).0;
      if Rehashing(d') { PassesEmpty(d, d1, d', n, visits); }
    }
  }

  lemma PassesEmpty(d: Dict, d1: Dict, d': Dict, n: nat, visits: nat)
    requires visits > 0 && 0 <= d.rehashidx < |d.ht0.buckets| && d.ht0.buckets[d.rehashidx] == []
    requires d1 == d.(rehashidx := d.rehashidx + 1) && Passes(d1, d', n, visits - 1)
    ensures Passes(d, d', n, visits)
  {}

  lemma StopsAfterMove(d: Dict, n: nat, visits: nat)
    requires Wf(d) && Rehashing(d) && n > 0 && visits > 0 && d.ht0.used != 0
    requires d.rehashidx < |d.ht0.buckets| && d.ht0.buckets[d.rehashidx] != []
    ensures Rehashing(RehashLoop(d, n, visits).0) ==> Passes(d, RehashLoop(d, n, visits).0, n, visits)
    decreases |d.ht0.buckets| - d.rehashidx, 0
  {
    var d1, d' := MoveBucket(d), RehashLoop(d, n, visits).0;
    LoopMoves(d, n, visits);
    LoopStops(d1, n - 1, visits);
    if Rehashing(d') { PassesMoved(d, d1, d', n, visits); }
  }

  lemma PassesMoved(d: Dict, d1: Dict, d': Dict, n: nat, visits: nat)
    requires n > 0 && 0 <= d.rehashidx < |d.ht0.buckets| && d.ht0.buckets[d.rehashidx] != []
    requires d1.rehashidx == d.rehashidx + 1 && d1.ht0.buckets == d.ht0.buckets[d.rehashidx := []]
    requires Passes(d1, d', n - 1, visits)
    ensures Passes(d, d', n, visits)
  {
    EmptyInSame(d.ht0.buckets, d1.ht0.buckets, d1.rehashidx, d'.rehashidx);
  }

  /** A call for n buckets that leaves work behind has moved n of them or passed ten times as many empty
      ones, and no more of either. */
  lemma RehashStops(d: Dict, n: nat)
    requires Wf(d) && Rehashing(d)
    ensures var d' := Rehash(d, n).0; Rehashing(d') ==>
      && 0 <= d.rehashidx <= d'.rehashidx <= |d.ht0.buckets|
      && var e := EmptyIn(d.ht0.buckets, d.rehashidx, d'.rehashidx);
         var moved := d'.rehashidx - d.rehashidx - e;
         moved <= n && e <= 10 * n && (moved == n || e == 10 * n)
  {
    LoopStops(d, n, n * 10);
  }

  /** The step made on the way of another operation moves one bucket or passes ten empty ones, and none
      of this happens while an iterator is registered. */
  lemma StepStops(d: Dict)
    requires Wf(d) && Rehashing(d)
    ensures d.iterators > 0 ==> Step(d) == d
    ensures var d' := Step(d); d.iterators == 0 && Rehashing(d') ==>
      && 0 <= d.rehashidx <= d'.rehashidx <= |d.ht0.buckets|
      && var e := EmptyIn(d.ht0.buckets, d.rehashidx, d'.rehashidx);
         var moved := d'.rehashidx - d.rehashidx - e;
         moved <= 1 && e <= 10 && (moved == 1 || e == 10)
  {
    RehashStops(d, 1);
  }

  /** A growth begins only in a full table, and asks for twice its elements. */
  lemma ExpandGrows(d: Dict, canResize: bool)
    requires Wf(d) && !Rehashing(d) && d.ht0.buckets != [] && RoomToGrow(d)
    ensures var d' := ExpandIfNeeded(d, canResize).0;
            Rehashing(d') ==> && d'.rehashidx == 0 && d'.ht0 == d.ht0
                              && Fits(d.ht0.used, |d.ht0.buckets|, |d'.ht1.buckets|)
  {
    NextPowerSpec(d.ht0.used * 2, d.dt.bits);
  }

  lemma InsertShape(d: Dict, e: Entry)
    requires Wf(d) && d.ht0.buckets != []
    ensures SameShape(d, Insert(d, e))
  {}

  lemma AddShape(d: Dict, k: Key, v: Value, canResize: bool)
    requires Wf(d)
    ensures Wf(Step(d)) && Wf(ExpandIfNeeded(Step(d), canResize).0)
    ensures SameShape(ExpandIfNeeded(Step(d), canResize).0, Add(d, k, v, canResize).0)
  {
    StepSpec(d);
    ExpandIfNeededSpec(Step(d), canResize);
    var d2 := ExpandIfNeeded(Step(d), canResize).0;
    if ExpandIfNeeded(Step(d), canResize).1 { InsertShape(d2, Entry(k, v)); }
  }

  /** An insertion that finds the table full begins a growth to at least twice its elements. */
  lemma GrowthStarts(d: Dict, k: Key, v: Value, canResize: bool)
    requires Wf(d) && !Rehashing(d) && d.iterators == 0 && d.ht0.buckets != [] && RoomToGrow(d)
    requires Rehashing(Add(d, k, v, canResize).0)
    ensures var d' := Add(d, k, v, canResize).0;
            && InGrowth(d', 0, d.ht0.used, |d.ht0.buckets|, |d'.ht1.buckets|)
            && Fits(d.ht0.used, |d.ht0.buckets|, |d'.ht1.buckets|)
  {
    AddSpec(d, k, v, canResize);
    AddShape(d, k, v, canResize);
    ExpandGrows(d, canResize);
  }

  /** Number of elements an operation can add on top of its rehash step. */
  lemma AddsAtMostOne(d: Dict, op: Op)
    requires Wf(d) && Drives(op)
    ensures Wf(Apply(d, op)) && Size(Apply(d, op)) <= Size(d) + 1 && Apply(d, op).iterators == d.iterators
  {
    match op
    case OpAdd(k, v, canResize) => AddSpec(d, k, v, canResize);
    case OpReplace(k, v, canResize) => ReplaceSpec(d, k, v, canResize);
    case OpDelete(k) => DeleteSpec(d, k);
    case OpFind(k) => FindSpec(d, k); StepSpec(d);
  }

  lemma ReplaceShape(d: Dict, k: Key, v: Value, canResize: bool)
    requires Wf(d)
    ensures Wf(Add(d, k, v, canResize).0) && SameShape(Add(d, k, v, canResize).0, Replace(d, k, v, canResize).0)
  {
    AddSpec(d, k, v, canResize);
  }

  lemma DeleteShape(d: Dict, k: Key)
    requires Wf(d) && Size(d) != 0
    ensures SameShape(Step(d), Delete(d, k).0)
  {
    StepSpec(d);
  }

  /** While a rehash is on, an operation does its step and then works inside the tables. */
  lemma ShapeAfterStep(d: Dict, op: Op)
    requires Wf(d) && Drives(op) && Steps(d, op) && Rehashing(Step(d))
    ensures SameShape(Step(d), Apply(d, op))
  {
    match op
    case OpAdd(k, v, canResize) => AddShape(d, k, v, canResize);
    case OpReplace(k, v, canResize) =>
      AddShape(d, k, v, canResize);
      ReplaceShape(d, k, v, canResize);
    case OpDelete(k) => DeleteShape(d, k);
    case OpFind(k) =>
  }

  /** One step of the growth: it goes on with rehashidx further, or it is over and fits. */
  lemma GrowthStep(d: Dict, op: Op, n: nat, u: nat, s0: nat, s1: nat)
    requires InGrowth(d, n, u, s0, s1) && Fits(u, s0, s1) && Drives(op) && Steps(d, op)
    ensures if Rehashing(Step(d)) then InGrowth(Apply(d, op), n + 1, u, s0, s1)
            else Wf(Step(d)) && Size(Step(d)) <= s1 && |Step(d).ht0.buckets| == s1
  {
    RehashSpec(d, 1);
    if Rehashing(Step(d)) {
      StillMoving(d);
      ShapeAfterStep(d, op);
      AddsAtMostOne(d, op);
    }
  }

  /** A step that does not finish leaves elements in the old table. */
  lemma StillMoving(d: Dict)
    requires Wf(d) && Rehashing(d) && d.iterators == 0 && Rehashing(Step(d))
    ensures Wf(Step(d)) && Step(d).rehashidx < |Step(d).ht0.buckets|
  {
    RehashSpec(d, 1);
    UnfinishedHasElements(d, 1, 10);
    RehashidxInside(Step(d));
  }

  lemma {:induction false} UnfinishedHasElements(d: Dict, n: nat, visits: int)
    requires Wf(d) && Rehashing(d)
    ensures var r := RehashLoop(d, n, visits); Rehashing(r.0) ==> r.0.ht0.used != 0
    decreases |d.ht0.buckets| - d.rehashidx
  {
    if n > 0 && d.ht0.used != 0 {
      RehashidxInside(d);
      if d.ht0.buckets[d.rehashidx] == [] {
        SkipRehashes(d);
        if visits - 1 != 0 { UnfinishedHasElements(d.(rehashidx := d.rehashidx + 1), n, visits - 1); }
      } else {
        MoveRehashes(d);
        UnfinishedHasElements(MoveBucket(d), n - 1, visits);
      }
    }
  }

  /** Run operations until the growth is over: the dictionary at that moment (or at the end
      of the operations), the rehash steps made, and whether the growth is over. */
  function Drive(d: Dict, ops: seq<Op>, n: nat): (Dict, nat, bool)
    requires Wf(d)
    decreases |ops|
  {
    if ops == [] then (d, n, false)
    else
      StepSpec(d);
      ApplySpec(d, ops[0]);
      if !Steps(d, ops[0]) then Drive(Apply(d, ops[0]), ops[1..], n)
      else if !Rehashing(Step(d)) then (Step(d), n + 1, true)
      else Drive(Apply(d, ops[0]), ops[1..], n + 1)
  }

  lemma IdleOps(d: Dict, op: Op)
    requires Wf(d) && Rehashing(d) && d.iterators == 0 && Drives(op) && !Steps(d, op)
    ensures Apply(d, op) == d
  {}

  /** Whatever the operations, a growth in progress after n steps ends with the old table's
      size as a bound on the steps, and with no more elements than new buckets. */
  lemma GrowthPace(d: Dict, ops: seq<Op>, n: nat, u: nat, s0: nat, s1: nat)
    requires InGrowth(d, n, u, s0, s1) && Fits(u, s0, s1)
    requires forall i :: 0 <= i < |ops| ==> Drives(ops[i])
    ensures var (d', steps, over) := Drive(d, ops, n);
            && steps <= s0 && (!over ==> steps < s0)
            && (over ==> Wf(d') && !Rehashing(d') && Size(d') <= |d'.ht0.buckets| == s1)
  {
    GrowthPaced(d, ops, n, u, s0, s1);
  }

  ghost predicate Paced(r: (Dict, nat, bool), s0: nat, s1: nat) {
    && r.1 <= s0 && (!r.2 ==> r.1 < s0)
    && (r.2 ==> Wf(r.0) && !Rehashing(r.0) && Size(r.0) <= |r.0.ht0.buckets| == s1)
  }

  lemma {:induction false} GrowthPaced(d: Dict, ops: seq<Op>, n: nat, u: nat, s0: nat, s1: nat)
    requires InGrowth(d, n, u, s0, s1) && Fits(u, s0, s1)
    requires forall i :: 0 <= i < |ops| ==> Drives(ops[i])
    ensures Paced(Drive(d, ops, n), s0, s1)
    decreases |ops|
  {
    if ops == [] {
      assert Drive(d, ops, n) == (d, n, false);
    } else {
      var d1, n1, over := DriveRound(d, ops, n, u, s0, s1);
      if !over { GrowthPaced(d1, ops[1..], n1, u, s0, s1); }
    }
  }

  /** One operation: the growth is over, or goes on from the next state. */
  lemma DriveRound(d: Dict, ops: seq<Op>, n: nat, u: nat, s0: nat, s1: nat) returns (d1: Dict, n1: nat, over: bool)
    requires InGrowth(d, n, u, s0, s1) && Fits(u, s0, s1) && ops != [] && Drives(ops[0])
    ensures if over then Paced(Drive(d, ops, n), s0, s1)
            else InGrowth(d1, n1, u, s0, s1) && Drive(d, ops, n) == Drive(d1, ops[1..], n1)
  {
    d1, n1, over := d, n, false;
    if !Steps(d, ops[0]) {
      DriveIdle(d, ops, n);
    } else if Rehashing(Step(d)) {
      d1 := DriveOn(d, ops, n, u, s0, s1);
      n1 := n + 1;
    } else {
      DriveEnds(d, ops, n, u, s0, s1);
      over := true;
    }
  }

  lemma DriveIdle(d: Dict, ops: seq<Op>, n: nat)
    requires Wf(d) && Rehashing(d) && d.iterators == 0 && ops != [] && Drives(ops[0]) && !Steps(d, ops[0])
    ensures Drive(d, ops, n) == Drive(d, ops[1..], n)
  {
    IdleOps(d, ops[0]);
  }

  lemma DriveEnds(d: Dict, ops: seq<Op>, n: nat, u: nat, s0: nat, s1: nat)
    requires InGrowth(d, n, u, s0, s1) && Fits(u, s0, s1) && ops != [] && Drives(ops[0])
    requires Steps(d, ops[0]) && !Rehashing(Step(d))
    ensures Paced(Drive(d, ops, n), s0, s1)
  {
    GrowthStep(d, ops[0], n, u, s0, s1);
  }

  lemma DriveOn(d: Dict, ops: seq<Op>, n: nat, u: nat, s0: nat, s1: nat) returns (d1: Dict)
    requires InGrowth(d, n, u, s0, s1) && Fits(u, s0, s1) && ops != [] && Drives(ops[0])
    requires Steps(d, ops[0]) && Rehashing(Step(d))
    ensures InGrowth(d1, n + 1, u, s0, s1) && Drive(d, ops, n) == Drive(d1, ops[1..], n + 1)
  {
    GrowthStep(d, ops[0], n, u, s0, s1);
    d1 := Apply(d, ops[0]);
  }

  /** A growth that dictReplace begins is the one its insertion begins. */
  lemma ReplaceStarts(d: Dict, k: Key, v: Value, canResize: bool)
    requires Wf(d) && !Rehashing(d) && d.iterators == 0 && d.ht0.buckets != [] && RoomToGrow(d)
    requires Rehashing(Replace(d, k, v, canResize).0)
    ensures var d' := Replace(d, k, v, canResize).0;
            && InGrowth(d', 0, d.ht0.used, |d.ht0.buckets|, |d'.ht1.buckets|)
            && Fits(d.ht0.used, |d.ht0.buckets|, |d'.ht1.buckets|)
  {
    ReplaceShape(d, k, v, canResize);
    GrowthStarts(d, k, v, canResize);
    AddSpec(d, k, v, canResize);
    ReplaceSpec(d, k, v, canResize);
  }

  lemma InsertionStarts(d: Dict, op: Op, d': Dict)
    requires Wf(d) && !Rehashing(d) && d.iterators == 0 && d.ht0.buckets != [] && RoomToGrow(d)
    requires Inserts(op) && d' == Apply(d, op) && Rehashing(d')
    ensures InGrowth(d', 0, d.ht0.used, |d.ht0.buckets|, |d'.ht1.buckets|)
    ensures Fits(d.ht0.used, |d.ht0.buckets|, |d'.ht1.buckets|)
  {
    match op
    case OpAdd(k, v, canResize) => GrowthStarts(d, k, v, canResize);
    case OpReplace(k, v, canResize) => ReplaceStarts(d, k, v, canResize);
  }

  /** A growth begun by an insertion keeps ahead: for every mix of operations that follows. */
  lemma GrowthKeepsAhead(d: Dict, op: Op, ops: seq<Op>)
    requires Wf(d) && !Rehashing(d) && d.iterators == 0 && d.ht0.buckets != [] && RoomToGrow(d)
    requires Inserts(op) && Rehashing(Apply(d, op))
    requires forall i :: 0 <= i < |ops| ==> Drives(ops[i])
    ensures Wf(Apply(d, op))
    ensures var (d', steps, over) := Drive(Apply(d, op), ops, 0);
            && steps <= |d.ht0.buckets| && (!over ==> steps < |d.ht0.buckets|)
            && (over ==> Size(d') <= |d'.ht0.buckets|)
  {
    var d1 := Apply(d, op);
    InsertionStarts(d, op, d1);
    GrowthPace(d1, ops, 0, d.ht0.used, |d.ht0.buckets|, |d1.ht1.buckets|);
  }
}
