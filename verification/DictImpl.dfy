/** dict.c as it runs: two bucket arrays updated in place, each operation proved to carry the
    tables from one value of the model to the next. */
module DictImpl {
  import opened Words
  import opened Cursor
  import opened DictModel
  import opened Scan
  import Bits
  import BitReverse

  /** Walk a chain for a key. */
  method FindInChain(c: Chain, k: Key) returns (r: Option<Value>)
    ensures r == Get(c, k)
  {
    var i := 0;
    while i < |c|
      invariant 0 <= i <= |c| && Get(c[i..], k) == Get(c, k)
    {
      if c[i].key == k { return Some(c[i].val); }
      assert c[i..][1..] == c[i + 1..];
      i := i + 1;
    }
    return None;
  }

  lemma PassEntry(front: Chain, rest: Chain, tail: Chain)
    requires rest != []
    ensures front + [rest[0]] + rest[1..] == front + rest
    ensures front + [rest[0]] + tail == front + ([rest[0]] + tail)
  {}

  /** Walk a chain for a key and unlink its node. */
  method UnlinkFromChain(c: Chain, k: Key) returns (r: Chain)
    ensures r == Without(c, k)
  {
    var front, rest := [], c;
    while rest != []
      invariant front + rest == c && front + Without(rest, k) == Without(c, k)
    {
      if rest[0].key == k {
        return front + rest[1..];
      }
      PassEntry(front, rest, Without(rest[1..], k));
      front, rest := front + [rest[0]], rest[1..];
    }
    return c;
  }

  /** Walk a chain for a key and overwrite its value. */
  method OverwriteInChain(c: Chain, k: Key, v: Value) returns (r: Chain)
    ensures r == WithVal(c, k, v)
  {
    var front, rest := [], c;
    while rest != []
      invariant front + rest == c && front + WithVal(rest, k, v) == WithVal(c, k, v)
    {
      if rest[0].key == k {
        return front + ([Entry(k, v)] + rest[1..]);
      }
      PassEntry(front, rest, WithVal(rest[1..], k, v));
      front, rest := front + [rest[0]], rest[1..];
    }
    return c;
  }

  /** One table of the loop in dictGenericDelete. */
  method UnlinkIn(dt: DictType, t: array<Chain>, k: Key) returns (r: Option<Value>)
    requires IsPow2(t.Length)
    modifies t
    ensures r == Get(Bucket(dt, Table(old(t[..]), 0), k), k)
    ensures t[..] == if r.Some? then Unlink(dt, Table(old(t[..]), 0), k).buckets else old(t[..])
  {
    IdxInRange(dt.hash(k), t.Length);
    var i := And(dt.hash(k), t.Length - 1);
    r := FindInChain(t[i], k);
    if r.Some? {
      t[i] := UnlinkFromChain(t[i], k);
    }
  }

  /** The loop of _dictNextPower. */
  method NextPowerLoop(size: nat, bits: nat) returns (i: nat)
    requires bits > 3
    ensures i == NextPower(size, bits)
  {
    if size >= Pow2(bits - 1) - 1 { return Pow2(bits - 1); }
    i := INITIAL_SIZE;
    while i < size
      invariant i > 0 && NextPowerFrom(i, size) == NextPowerFrom(INITIAL_SIZE, size)
      decreases size - i
    {
      i := i * 2;
    }
  }

  /** The entry goes to the head of its chain in the array. */
  method PushOnto(dt: DictType, a: array<Chain>, e: Entry, ghost used: nat)
    requires IsPow2(a.Length)
    modifies a
    ensures Table(a[..], used + 1) == Push(dt, old(Table(a[..], used)), e)
  {
    var h := And(dt.hash(e.key), a.Length - 1);
    IdxInRange(dt.hash(e.key), a.Length);
    a[h] := [e] + a[h];
  }

  class HashDict {
    const dt: DictType
    var table0: array<Chain>
    var used0: nat
    var table1: array<Chain>
    var used1: nat
    var rehashidx: int
    var iterators: nat

    /** The value of the model that the arrays hold. */
    ghost function State(): Dict
      reads this, table0, table1
    {
      Dict(dt, Table(table0[..], used0), Table(table1[..], used1), rehashidx, iterators)
    }

    ghost predicate Valid()
      reads this, table0, table1
    {
      table0 != table1 && Wf(State())
    }

    constructor (dt: DictType)
      requires TypeOk(dt)
      ensures Valid() && State() == Create(dt) && fresh(table0) && fresh(table1)
    {
      this.dt := dt;
      table0, used0 := new Chain[0], 0;
      table1, used1 := new Chain[0], 0;
      rehashidx, iterators := -1, 0;
      new;
      assert State() == Create(dt);
      CreateSpec(dt);
    }

    /** The inner loop of dictRehash: move the chain at rehashidx, entry by entry. */
    method MoveChain()
      requires Valid() && Rehashing(State()) && rehashidx < table0.Length
      modifies this`used0, this`used1, this`rehashidx, table0, table1
      ensures State() == MoveBucket(old(State())) && table0 == old(table0) && table1 == old(table1)
    {
      ghost var d := State();
      var chain := table0[rehashidx];
      ghost var c := chain;
      TotalUpdate(table0[..], rehashidx, []);
      while chain != []
        invariant rehashidx == d.rehashidx && |chain| <= |c| && used0 == d.ht0.used - |c| + |chain|
        invariant table0[..] == d.ht0.buckets && IsPow2(table1.Length) && table1.Length == |d.ht1.buckets|
        invariant MoveAll(dt, chain, Table(table1[..], used1)) == MoveAll(dt, c, d.ht1)
        decreases |chain|
      {
        PushOnto(dt, table1, chain[0], used1);
        used0, used1 := used0 - 1, used1 + 1;
        chain := chain[1..];
      }
      table0[rehashidx] := [];
      rehashidx := rehashidx + 1;
    }

    /** The skipping loop of dictRehash: pass empty buckets until one has elements, or stop
        when the visits are used up. */
    method SkipEmpty(visits: int, ghost n: nat) returns (left: int, stop: bool)
      requires Valid() && Rehashing(State()) && used0 != 0 && n > 0
      modifies this`rehashidx
      ensures Valid() && Rehashing(State())
      ensures stop ==> RehashLoop(old(State()), n, visits) == (State(), true)
      ensures !stop ==> && rehashidx < table0.Length && table0[rehashidx] != []
                        && RehashLoop(old(State()), n, visits) == RehashLoop(State(), n, left)
    {
      left := visits;
      RehashidxInside(State());
      while table0[rehashidx] == []
        invariant Valid() && Rehashing(State()) && rehashidx < table0.Length
        invariant RehashLoop(State(), n, left) == RehashLoop(old(State()), n, visits)
        decreases table0.Length - rehashidx
      {
        SkipSpec(State());
        ghost var before := State();
        rehashidx := rehashidx + 1;
        assert State() == before.(rehashidx := before.rehashidx + 1);
        left := left - 1;
        if left == 0 { return left, true; }
        RehashidxInside(State());
      }
      stop := false;
    }

    /** The new table takes the place of the emptied old one. */
    method PromoteTables()
      requires Valid() && Rehashing(State()) && used0 == 0
      modifies this
      ensures Valid() && State() == Promote(old(State()))
      ensures table0 == old(table1) && fresh(table1)
    {
      PromoteSpec(State());
      table0, used0 := table1, used1;
      table1, used1 := new Chain[0], 0;
      rehashidx := -1;
      assert State() == Promote(old(State()));
    }

    /** One round of dictRehash: the next bucket that has elements moves, unless the visits are used up. */
    method RehashBucket(visits: int, ghost n: nat) returns (left: int, stop: bool)
      requires Valid() && Rehashing(State()) && used0 != 0 && n > 0
      modifies this`used0, this`used1, this`rehashidx, table0, table1
      ensures Valid() && Rehashing(State())
      ensures stop ==> RehashLoop(old(State()), n, visits) == (State(), true)
      ensures !stop ==> RehashLoop(old(State()), n, visits) == RehashLoop(State(), n - 1, left)
    {
      left, stop := SkipEmpty(visits, n);
      if !stop {
        MoveBucketSpec(State());
        MoveChain();
      }
    }

    /** dictRehash. */
    method Rehash(n: nat) returns (more: bool)
      requires Valid()
      modifies this, table0, table1
      ensures Valid() && (State(), more) == DictModel.Rehash(old(State()), n)
      ensures table0 == old(table0) || table0 == old(table1)
      ensures table1 == old(table1) || fresh(table1)
    {
      var emptyVisits: int := n * 10;
      if rehashidx == -1 { return false; }
      ghost var target := RehashLoop(State(), n, n * 10);
      var left := n;
      while left > 0 && used0 != 0
        invariant Valid() && Rehashing(State()) && table0 == old(table0) && table1 == old(table1)
        invariant RehashLoop(State(), left, emptyVisits) == target
        decreases left
      {
        var stop;
        emptyVisits, stop := RehashBucket(emptyVisits, left);
        if stop { return true; }
        left := left - 1;
      }
      if used0 == 0 {
        PromoteTables();
        return false;
      }
      return true;
    }

    /** _dictRehashStep, made by lookups and updates while a rehash is on. */
    method StepIfRehashing()
      requires Valid()
      modifies this, table0, table1
      ensures Valid() && State() == Step(old(State()))
      ensures table0 == old(table0) || table0 == old(table1)
      ensures table1 == old(table1) || fresh(table1)
    {
      if rehashidx != -1 && iterators == 0 {
        var _ := Rehash(1);
      }
    }

    /** dictExpand. */
    method Expand(size: nat) returns (ok: bool)
      requires Valid()
      modifies this
      ensures Valid() && (State(), ok) == DictModel.Expand(old(State()), size)
      ensures table0 == old(table0) || fresh(table0)
      ensures table1 == old(table1) || fresh(table1)
    {
      ExpandSpec(State(), size);
      var realsize := NextPowerLoop(size, dt.bits);
      if rehashidx != -1 || used0 > size { return false; }
      if realsize == table0.Length { return false; }
      var n := new Chain[realsize](_ => []);
      assert n[..] == FreshTable(realsize).buckets;
      if table0.Length == 0 {
        table0, used0 := n, 0;
      } else {
        table1, used1, rehashidx := n, 0, 0;
      }
      assert State() == DictModel.Expand(old(State()), size).0;
      return true;
    }

    /** _dictExpandIfNeeded. */
    method ExpandIfNeeded(canResize: bool) returns (ok: bool)
      requires Valid()
      modifies this
      ensures Valid() && (State(), ok) == DictModel.ExpandIfNeeded(old(State()), canResize)
      ensures table0 == old(table0) || fresh(table0)
      ensures table1 == old(table1) || fresh(table1)
    {
      if rehashidx != -1 { return true; }
      if table0.Length == 0 {
        ok := Expand(INITIAL_SIZE);
      } else if used0 >= table0.Length && (canResize || used0 / table0.Length > FORCE_RESIZE_RATIO) {
        ok := Expand(used0 * 2);
      } else {
        ok := true;
      }
    }

    /** The search over both tables shared by lookup, insertion and deletion. */
    method Search(k: Key) returns (r: Option<Value>)
      requires Valid()
      ensures r == Lookup(State(), k)
    {
      var h := dt.hash(k);
      if table0.Length != 0 {
        IdxInRange(h, table0.Length);
        r := FindInChain(table0[And(h, table0.Length - 1)], k);
        if r.Some? { return; }
      }
      if rehashidx == -1 { return None; }
      IdxInRange(h, table1.Length);
      r := FindInChain(table1[And(h, table1.Length - 1)], k);
    }

    /** dictAdd. */
    method Add(k: Key, v: Value, canResize: bool) returns (added: bool)
      requires Valid()
      modifies this, table0, table1
      ensures Valid() && (State(), added) == DictModel.Add(old(State()), k, v, canResize)
      ensures Contents(State()) == if added then old(Contents(State()))[k := v] else old(Contents(State()))
      ensures added ==> k !in old(Contents(State()))
      ensures table0 == old(table0) || table0 == old(table1) || fresh(table0)
      ensures table1 == old(table1) || fresh(table1)
    {
      AddSpec(State(), k, v, canResize);
      StepIfRehashing();
      var ok := ExpandIfNeeded(canResize);
      if !ok { return false; }
      var existing := Search(k);
      if existing.Some? { return false; }
      ExpandIfNeededSpec(Step(old(State())), canResize);
      PutHead(Entry(k, v));
      return true;
    }

    /** Link a new entry at the head of its chain in the table that takes insertions. */
    method PutHead(e: Entry)
      requires Valid() && table0.Length != 0
      modifies this`used0, this`used1, table0, table1
      ensures State() == Insert(old(State()), e) && table0 == old(table0) && table1 == old(table1)
    {
      if rehashidx != -1 {
        PushOnto(dt, table1, e, used1);
        used1 := used1 + 1;
      } else {
        PushOnto(dt, table0, e, used0);
        used0 := used0 + 1;
      }
    }

    /** dictFind. */
    method Find(k: Key) returns (r: Option<Value>)
      requires Valid()
      modifies this, table0, table1
      ensures Valid() && (State(), r) == DictModel.Find(old(State()), k)
      ensures Contents(State()) == old(Contents(State()))
      ensures r == if k in Contents(State()) then Some(Contents(State())[k]) else None
      ensures table0 == old(table0) || table0 == old(table1) || fresh(table0)
      ensures table1 == old(table1) || fresh(table1)
    {
      FindSpec(State(), k);
      if used0 + used1 == 0 { return None; }
      StepIfRehashing();
      r := Search(k);
    }

    /** The search and unlink loop of dictGenericDelete. */
    method Remove(k: Key) returns (r: Option<Value>)
      requires Valid()
      modifies this`used0, this`used1, table0, table1
      ensures r == Lookup(old(State()), k)
      ensures State() == (var d := old(State());
                          if Get(Bucket(d.dt, d.ht0, k), k).Some? then d.(ht0 := Unlink(d.dt, d.ht0, k))
                          else if Get(Bucket(d.dt, d.ht1, k), k).Some? then d.(ht1 := Unlink(d.dt, d.ht1, k))
                          else d)
    {
      ghost var d := State();
      UnlinkCount(d, k);
      if table0.Length != 0 {
        r := UnlinkIn(dt, table0, k);
        if r.Some? {
          used0 := used0 - 1;
          assert State().ht0 == Unlink(dt, d.ht0, k);
          return;
        }
      }
      if rehashidx == -1 { return None; }
      r := UnlinkIn(dt, table1, k);
      if r.Some? {
        used1 := used1 - 1;
        assert State().ht1 == Unlink(dt, d.ht1, k);
      }
    }

    /** dictDelete. */
    method Delete(k: Key) returns (r: Option<Value>)
      requires Valid()
      modifies this, table0, table1
      ensures Valid() && (State(), r) == DictModel.Delete(old(State()), k)
      ensures Contents(State()) == old(Contents(State())) - {k}
      ensures r == old(if k in Contents(State()) then Some(Contents(State())[k]) else None)
      ensures table0 == old(table0) || table0 == old(table1) || fresh(table0)
      ensures table1 == old(table1) || fresh(table1)
    {
      r := GenericDelete(k);
      DeleteSpec(old(State()), k);
    }

    /** dictGenericDelete. */
    method GenericDelete(k: Key) returns (r: Option<Value>)
      requires Valid()
      modifies this, table0, table1
      ensures Valid() && (State(), r) == DictModel.Delete(old(State()), k)
      ensures table0 == old(table0) || table0 == old(table1) || fresh(table0)
      ensures table1 == old(table1) || fresh(table1)
    {
      DeleteWf(State(), k);
      if used0 + used1 == 0 { return None; }
      StepIfRehashing();
      r := Remove(k);
    }

    /** Set the value of an entry that insertion found already there. */
    method Overwrite(k: Key, v: Value)
      requires Valid()
      modifies table0, table1
      ensures State() == (var d := old(State());
                          if Get(Bucket(d.dt, d.ht0, k), k).Some? then d.(ht0 := SetVal(d.dt, d.ht0, k, v))
                          else if Get(Bucket(d.dt, d.ht1, k), k).Some? then d.(ht1 := SetVal(d.dt, d.ht1, k, v))
                          else d)
    {
      var h := dt.hash(k);
      ghost var d := State();
      if table0.Length != 0 {
        IdxInRange(h, table0.Length);
        var i := And(h, table0.Length - 1);
        var r := FindInChain(table0[i], k);
        if r.Some? {
          table0[i] := OverwriteInChain(table0[i], k, v);
          assert State().ht0 == SetVal(dt, d.ht0, k, v);
          return;
        }
      }
      if rehashidx == -1 { return; }
      IdxInRange(h, table1.Length);
      var i := And(h, table1.Length - 1);
      var r := FindInChain(table1[i], k);
      if r.Some? {
        table1[i] := OverwriteInChain(table1[i], k, v);
        assert State().ht1 == SetVal(dt, d.ht1, k, v);
      }
    }

    /** dictReplace. */
    method Replace(k: Key, v: Value, canResize: bool) returns (added: bool)
      requires Valid()
      modifies this, table0, table1
      ensures Valid() && (State(), added) == DictModel.Replace(old(State()), k, v, canResize)
      ensures added || k in old(Contents(State())) ==> Contents(State()) == old(Contents(State()))[k := v]
      ensures added ==> k !in old(Contents(State()))
      ensures table0 == old(table0) || table0 == old(table1) || fresh(table0)
      ensures table1 == old(table1) || fresh(table1)
    {
      AddWf(State(), k, v, canResize);
      ReplaceWf(State(), k, v, canResize);
      added := Add(k, v, canResize);
      if !added { Overwrite(k, v); }
      ReplaceSpec(old(State()), k, v, canResize);
    }

    /** dictResize. */
    method Resize(canResize: bool) returns (ok: bool)
      requires Valid()
      modifies this
      ensures Valid() && (State(), ok) == DictModel.Resize(old(State()), canResize)
      ensures table0 == old(table0) || fresh(table0)
      ensures table1 == old(table1) || fresh(table1)
    {
      if !canResize || rehashidx != -1 { return false; }
      var minimal := used0;
      if minimal < INITIAL_SIZE {
        minimal := INITIAL_SIZE;
      }
      ok := Expand(minimal);
    }

    /** One operation of a client. */
    method Perform(op: Op)
      requires Valid()
      modifies this, table0, table1
      ensures Valid() && State() == Apply(old(State()), op)
      ensures table0 == old(table0) || table0 == old(table1) || fresh(table0)
      ensures table1 == old(table1) || fresh(table1)
    {
      match op
      case OpAdd(k, v, canResize) => var _ := Add(k, v, canResize);
      case OpReplace(k, v, canResize) => var _ := Replace(k, v, canResize);
      case OpDelete(k) => var _ := Delete(k);
      case OpFind(k) => var _ := Find(k);
      case OpRehash(n) => var _ := Rehash(n);
      case OpExpand(size) => var _ := Expand(size);
      case OpResize(canResize) => var _ := Resize(canResize);
    }

    /** A client's operations one after the other, on the arrays: the runs of the model. */
    method PerformAll(ops: seq<Op>)
      requires Valid()
      modifies this, table0, table1
      ensures Valid() && Reaches(old(State()), ops, State())
      ensures table0 == old(table0) || table0 == old(table1) || fresh(table0)
      ensures table1 == old(table1) || fresh(table1)
      decreases |ops|
    {
      if ops != [] {
        Perform(ops[0]);
        PerformAll(ops[1..]);
      }
    }

    /** dictScan while a rehash is on: smaller table first, then the expansions. */
    method ScanBoth(cursor: nat) returns (emitted: seq<Entry>, v: nat, m0: nat)
      requires Valid() && Rehashing(State()) && cursor < Pow2(dt.bits) && used0 + used1 != 0
      ensures emitted == ScanCall(State(), cursor).0
      ensures v < Pow2(dt.bits) && Lo(v, K(State())) == Lo(cursor, K(State())) && m0 == |Small(State()).buckets| - 1
    {
      var t0, t1 := table0, table1;
      if t0.Length > t1.Length { t0, t1 := table1, table0; }
      ExponentsHold(State());
      m0 := t0.Length - 1;
      emitted, v := EmitBoth(t0, t1, cursor, dt.bits, K(State()), J(State()), I(State()));
    }

    /** dictScan: the entries passed to the callback and the cursor returned. */
    method ScanFrom(cursor: nat) returns (emitted: seq<Entry>, v: nat)
      requires Valid() && cursor < Pow2(dt.bits) && IsPow2(dt.bits)
      ensures (emitted, v) == ScanCall(State(), cursor)
    {
      if used0 + used1 == 0 { return [], 0; }
      var m0;
      if rehashidx == -1 {
        emitted, v, m0 := ScanOne(cursor);
      } else {
        emitted, v, m0 := ScanBoth(cursor);
      }
      MaskedNext(State(), cursor, v, E(State()), m0);
      v := NextCursor(v, m0, dt.bits);
    }

    /** dictScan on a single table. */
    method ScanOne(cursor: nat) returns (emitted: seq<Entry>, v: nat, m0: nat)
      requires Valid() && !Rehashing(State()) && cursor < Pow2(dt.bits) && used0 + used1 != 0
      ensures emitted == ScanCall(State(), cursor).0 && v == cursor && m0 == Pow2(E(State())) - 1
    {
      OneCall(State(), cursor);
      IdxInRange(cursor, table0.Length);
      v, m0 := cursor, table0.Length - 1;
      emitted := table0[And(v, m0)];
    }
  }

  /** The cursor that follows from the digits below the mask alone. */
  lemma MaskedNext(d: Dict, cursor: nat, v: nat, k: nat, m0: nat)
    requires Wf(d) && Size(d) != 0 && cursor < Pow2(d.dt.bits) && v < Pow2(d.dt.bits)
    requires k == E(d) && m0 == Pow2(k) - 1 && Lo(v, k) == Lo(cursor, k)
    ensures m0 < Pow2(d.dt.bits) && Next(v, m0, d.dt.bits) == ScanCall(d, cursor).1
  {
    CallNext(d, cursor, k, d.dt.bits);
    SameNext(cursor, v, k, d.dt.bits - k);
  }

  method EmitBoth(t0: array<Chain>, t1: array<Chain>, cursor: nat, w: nat, ghost k: nat, ghost j: nat, ghost i: nat)
    returns (emitted: seq<Entry>, v: nat)
    requires t0.Length == Pow2(k) && t1.Length == Pow2(k + j) && w == k + (j + i) && cursor < Pow2(w)
    ensures emitted == FromBoth(t0[..], t1[..], cursor, k, j, i)
    ensures v < Pow2(w) && Lo(v, k) == Lo(cursor, k)
  {
    LogPow2(k);
    IdxInRange(cursor, t0.Length);
    emitted := t0[And(cursor, t0.Length - 1)];
    var more;
    more, v := EmitExpansions(t1, cursor, t0.Length - 1, t1.Length - 1, w, k, j, i);
    emitted := emitted + more;
  }

  /** The last statements of dictScan: advance the cursor in reversed order. As the source demands,
      the width of a word is a power of two. */
  method NextCursor(cursor: nat, m0: nat, w: nat) returns (v: nat)
    requires m0 < Pow2(w) && cursor < Pow2(w) && IsPow2(w)
    ensures v == Next(cursor, m0, w)
  {
    Bits.BitwiseBelow(cursor, Not(m0, w), w);
    v := Or(cursor, Not(m0, w));
    v := BitReverse.ReverseBits(v, w, Log(w));
    LoHi(v + 1, w);
    v := Lo(v + 1, w);
    v := BitReverse.ReverseBits(v, w, Log(w));
  }

  /** A table that holds a key counts at least one element. */
  lemma UnlinkCount(d: Dict, k: Key)
    requires Wf(d)
    ensures Get(Bucket(d.dt, d.ht0, k), k).Some? ==> d.ht0.used > 0
    ensures Get(Bucket(d.dt, d.ht1, k), k).Some? ==> d.ht1.used > 0
  {
    GetIffHasKey(Bucket(d.dt, d.ht0, k), k);
    GetIffHasKey(Bucket(d.dt, d.ht1, k), k);
    if HasKey(Bucket(d.dt, d.ht0, k), k) { UnlinkSpec(d.dt, d.ht0, k); }
    if HasKey(Bucket(d.dt, d.ht1, k), k) { UnlinkSpec(d.dt, d.ht1, k); }
  }

  /** The indexes the loop still visits when its condition is evaluated at v. */
  ghost function Rest(v: nat, k: nat, j: nat, i: nat): seq<nat>
    requires v < Pow2(k + (j + i))
  {
    if Between(v, k, j) == 0 then [] else Expansions(v, k, j, i)
  }

  ghost function Todo(v: nat, k: nat, j: nat): nat {
    LoHi(Hi(v, k), j);
    if Between(v, k, j) == 0 then 0 else Pow2(j) - Between(v, k, j)
  }

  /** One round of the loop: the index visited and what is left to visit. */
  lemma ExpansionsStep(v: nat, k: nat, j: nat, i: nat)
    requires v < Pow2(k + (j + i))
    ensures Pow2(k) - 1 < Pow2(k + (j + i)) && And(v, Pow2(k + j) - 1) < Pow2(k + j)
    ensures var u := StepUp(v, Pow2(k) - 1, k + (j + i));
            && u < Pow2(k + (j + i)) && Lo(u, k) == Lo(v, k)
            && Expansions(v, k, j, i) == [And(v, Pow2(k + j) - 1)] + Rest(u, k, j, i)
            && (Between(v, k, j) != 0 ==> Todo(u, k, j) < Todo(v, k, j))
  {
    AndMask(v, k + j);
    LoHi(v, k + j);
    LoHi(Hi(v, k), j);
    StepUpBetween(v, k, j, i);
  }

  lemma EmitCons(b: seq<Chain>, x: nat, at: seq<nat>)
    requires x < |b| && forall i :: 0 <= i < |at| ==> at[i] < |b|
    ensures Emit(b, [x] + at) == b[x] + Emit(b, at)
  {
    assert ([x] + at)[1..] == at;
  }

  lemma RestInTable(v: nat, k: nat, j: nat, i: nat)
    requires v < Pow2(k + (j + i))
    ensures forall x :: 0 <= x < |Rest(v, k, j, i)| ==> Rest(v, k, j, i)[x] < Pow2(k + j)
  {
    ExpansionsInTable(v, k, j, i);
  }

  /** One table visit of the do-while loop: emit the bucket at v, then step v up. */
  method EmitOne(t: array<Chain>, v: nat, m0: nat, m1: nat, w: nat, ghost k: nat, ghost j: nat, ghost i: nat)
    returns (out: Chain, u: nat)
    requires v < Pow2(w) && t.Length == Pow2(k + j) && w == k + (j + i)
    requires m0 == Pow2(k) - 1 && m1 == Pow2(k + j) - 1
    ensures u < Pow2(w) && Lo(u, k) == Lo(v, k)
    ensures Between(v, k, j) != 0 ==> Todo(u, k, j) < Todo(v, k, j)
    ensures forall x :: 0 <= x < |Expansions(v, k, j, i)| ==> Expansions(v, k, j, i)[x] < t.Length
    ensures forall x :: 0 <= x < |Rest(u, k, j, i)| ==> Rest(u, k, j, i)[x] < t.Length
    ensures Emit(t[..], Expansions(v, k, j, i)) == out + Emit(t[..], Rest(u, k, j, i))
  {
    ExpansionsStep(v, k, j, i);
    ExpansionsInTable(v, k, j, i);
    out := t[And(v, m1)];
    u := StepUp(v, m0, w);
    RestInTable(u, k, j, i);
    EmitCons(t[..], And(v, m1), Rest(u, k, j, i));
  }

  /** The do-while loop of dictScan over the larger table. */
  method EmitExpansions(t: array<Chain>, cursor: nat, m0: nat, m1: nat, w: nat, ghost k: nat, ghost j: nat, ghost i: nat)
    returns (out: seq<Entry>, v: nat)
    requires cursor < Pow2(w) && t.Length == Pow2(k + j) && w == k + (j + i)
    requires m0 == Pow2(k) - 1 && m1 == Pow2(k + j) - 1
    ensures forall x :: 0 <= x < |Expansions(cursor, k, j, i)| ==> Expansions(cursor, k, j, i)[x] < t.Length
    ensures out == Emit(t[..], Expansions(cursor, k, j, i))
    ensures v < Pow2(w) && Lo(v, k) == Lo(cursor, k)
  {
    out, v := EmitOne(t, cursor, m0, m1, w, k, j, i);
    ghost var all := Emit(t[..], Expansions(cursor, k, j, i));
    LoopCondition(v, k, j);
    while And(v, Xor(m0, m1)) != 0
      invariant v < Pow2(w) && Lo(v, k) == Lo(cursor, k)
      invariant Between(v, k, j) == 0 <==> And(v, Xor(m0, m1)) == 0
      invariant forall x :: 0 <= x < |Rest(v, k, j, i)| ==> Rest(v, k, j, i)[x] < t.Length
      invariant out + Emit(t[..], Rest(v, k, j, i)) == all
      decreases Todo(v, k, j)
    {
      var more;
      more, v := EmitOne(t, v, m0, m1, w, k, j, i);
      out := out + more;
      LoopCondition(v, k, j);
    }
  }

  /** Only the digits below the smaller mask decide the next cursor. */
  lemma SameNext(v: nat, u: nat, k: nat, j: nat)
    requires v < Pow2(k + j) && u < Pow2(k + j) && Lo(u, k) == Lo(v, k)
    ensures Pow2(k) - 1 < Pow2(k + j) && Next(u, Pow2(k) - 1, k + j) == Next(v, Pow2(k) - 1, k + j)
  {
    OrNotMask(v, k, j);
    OrNotMask(u, k, j);
  }
}
