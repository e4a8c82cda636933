/** The two-table hash dictionary as a value: what each operation does to the tables,
    the invariant it keeps, and its meaning on the finite map the tables stand for. */
module DictModel {
  import opened Words

  type Key = string
  type Value = int

  datatype Option<+T> = None | Some(value: T)

  datatype Entry = Entry(key: Key, val: Value)
  type Chain = seq<Entry>

  /** A bucket array (empty when not allocated) and its element count. */
  datatype Table = Table(buckets: seq<Chain>, used: nat)

  /** Hash function, and the width of `unsigned long` (64; nothing depends on the value). */
  datatype DictType = DictType(hash: Key -> nat, bits: nat)

  datatype Dict = Dict(dt: DictType, ht0: Table, ht1: Table, rehashidx: int, iterators: nat)

  const INITIAL_SIZE: nat := 4
  const FORCE_RESIZE_RATIO: nat := 5

  // ---------------------------------------------------------------- chains

  ghost predicate HasKey(c: Chain, k: Key) { exists i :: 0 <= i < |c| && c[i].key == k }

  function Get(c: Chain, k: Key): Option<Value> {
    if c == [] then None else if c[0].key == k then Some(c[0].val) else Get(c[1..], k)
  }

  ghost predicate Distinct(c: Chain) { forall i, j :: 0 <= i < j < |c| ==> c[i].key != c[j].key }

  function Without(c: Chain, k: Key): Chain {
    if c == [] then [] else if c[0].key == k then c[1..] else [c[0]] + Without(c[1..], k)
  }

  function WithVal(c: Chain, k: Key, v: Value): Chain {
    if c == [] then [] else if c[0].key == k then [Entry(k, v)] + c[1..] else [c[0]] + WithVal(c[1..], k, v)
  }

  lemma {:induction false} GetIffHasKey(c: Chain, k: Key)
    ensures Get(c, k).Some? <==> HasKey(c, k)
  {
    if c != [] {
      GetIffHasKey(c[1..], k);
      if HasKey(c[1..], k) {
        var i :| 0 <= i < |c[1..]| && c[1..][i].key == k;
        assert c[i + 1].key == k;
      }
      if HasKey(c, k) && c[0].key != k {
        var i :| 0 <= i < |c| && c[i].key == k;
        assert c[1..][i - 1].key == k;
      }
    }
  }

  lemma GetPush(e: Entry, c: Chain, k: Key)
    ensures Get([e] + c, k) == if k == e.key then Some(e.val) else Get(c, k)
  {
    assert ([e] + c)[1..] == c;
  }

  /** Every entry of b comes from c under the same key; used to carry chain facts over. */
  ghost predicate KeysFrom(b: Chain, c: Chain) { forall i :: 0 <= i < |b| ==> HasKey(c, b[i].key) }

  lemma DistinctTail(c: Chain)
    requires Distinct(c) && c != []
    ensures Distinct(c[1..]) && !HasKey(c[1..], c[0].key)
  {}

  lemma DistinctPush(e: Entry, c: Chain)
    requires Distinct(c) && !HasKey(c, e.key)
    ensures Distinct([e] + c)
  {}

  lemma HasKeyTail(c: Chain, k: Key)
    requires c != []
    ensures HasKey(c, k) <==> c[0].key == k || HasKey(c[1..], k)
  {
    GetIffHasKey(c, k);
    GetIffHasKey(c[1..], k);
  }

  lemma {:induction false} WithoutSpec(c: Chain, k: Key)
    requires Distinct(c)
    ensures Distinct(Without(c, k)) && KeysFrom(Without(c, k), c)
    ensures |Without(c, k)| == |c| - (if HasKey(c, k) then 1 else 0)
    ensures forall x :: HasKey(Without(c, k), x) ==> HasKey(c, x)
    ensures forall x :: Get(Without(c, k), x) == if x == k then None else Get(c, x)
  {
    if c != [] {
      var t := c[1..];
      DistinctTail(c);
      WithoutSpec(t, k);
      forall x { HasKeyTail(c, x); }
      if c[0].key == k {
        forall x ensures Get(t, x) == if x == k then None else Get(c, x) { GetIffHasKey(t, k); }
      } else {
        DistinctPush(c[0], Without(t, k));
        forall x { GetPush(c[0], Without(t, k), x); }
        forall x { HasKeyTail([c[0]] + Without(t, k), x); }
        assert ([c[0]] + Without(t, k))[1..] == Without(t, k);
      }
    }
  }

  lemma {:induction false} WithValSpec(c: Chain, k: Key, v: Value)
    ensures |WithVal(c, k, v)| == |c|
    ensures forall i :: 0 <= i < |c| ==> WithVal(c, k, v)[i].key == c[i].key
    ensures forall x :: Get(WithVal(c, k, v), x) == if x == k && HasKey(c, k) then Some(v) else Get(c, x)
  {
    if c != [] {
      var t := c[1..];
      WithValSpec(t, k, v);
      HasKeyTail(c, k);
      if c[0].key == k {
        forall x { GetPush(Entry(k, v), t, x); }
      } else {
        forall x { GetPush(c[0], WithVal(t, k, v), x); }
      }
    }
  }

  // ---------------------------------------------------------------- tables

  function Log(size: nat): nat { if size <= 1 then 0 else 1 + Log(size / 2) }

  predicate IsPow2(size: nat) { size > 0 && size == Pow2(Log(size)) }

  lemma {:induction false} LogPow2(k: nat)
    ensures Log(Pow2(k)) == k && IsPow2(Pow2(k))
  {
    if k > 0 { LogPow2(k - 1); }
  }

  /** `hash & sizemask`. */
  function Idx(h: nat, size: nat): nat
    requires size > 0
  {
    And(h, size - 1)
  }

  lemma IdxInRange(h: nat, size: nat)
    requires IsPow2(size)
    ensures Idx(h, size) == Lo(h, Log(size)) && Idx(h, size) < size
  {
    AndMask(h, Log(size));
    LoHi(h, Log(size));
  }

  function Total(b: seq<Chain>): nat { if b == [] then 0 else |b[0]| + Total(b[1..]) }

  lemma {:induction false} TotalUpdate(b: seq<Chain>, i: nat, c: Chain)
    requires i < |b|
    ensures Total(b[i := c]) == Total(b) - |b[i]| + |c| && Total(b) >= |b[i]|
  {
    if i == 0 {
      assert b[i := c][1..] == b[1..];
    } else {
      TotalUpdate(b[1..], i - 1, c);
      assert b[i := c][1..] == b[1..][i - 1 := c];
    }
  }

  lemma {:induction false} TotalZero(b: seq<Chain>)
    ensures Total(b) == 0 <==> forall i :: 0 <= i < |b| ==> b[i] == []
  {
    if b != [] {
      TotalZero(b[1..]);
      assert forall i :: 0 <= i < |b[1..]| ==> b[1..][i] == b[i + 1];
      assert forall i :: 0 < i < |b| ==> b[i] == b[1..][i - 1];
    }
  }

  /** Chain c may stand in bucket i of a table of the given size. */
  ghost predicate ChainWf(dt: DictType, c: Chain, i: nat, size: nat)
    requires size > 0
  {
    Distinct(c) && forall j :: 0 <= j < |c| ==> Idx(dt.hash(c[j].key), size) == i
  }

  ghost predicate TableWf(dt: DictType, t: Table) {
    && (t.buckets == [] || (IsPow2(|t.buckets|) && Log(|t.buckets|) < dt.bits))
    && (forall i :: 0 <= i < |t.buckets| ==> ChainWf(dt, t.buckets[i], i, |t.buckets|))
    && t.used == Total(t.buckets)
  }

  /** The chain a key belongs to; empty when the table is not allocated. */
  function Bucket(dt: DictType, t: Table, k: Key): Chain
    requires t.buckets == [] || IsPow2(|t.buckets|)
  {
    if t.buckets == [] then []
    else IdxInRange(dt.hash(k), |t.buckets|); t.buckets[Idx(dt.hash(k), |t.buckets|)]
  }

  /** Replacing one chain by a well-placed one keeps a table well-formed. */
  lemma TableUpdate(dt: DictType, t: Table, i: nat, c: Chain)
    requires TableWf(dt, t) && i < |t.buckets| && ChainWf(dt, c, i, |t.buckets|)
    ensures t.used - |t.buckets[i]| + |c| >= 0
    ensures TableWf(dt, Table(t.buckets[i := c], t.used - |t.buckets[i]| + |c|))
  {
    TotalUpdate(t.buckets, i, c);
  }

  /** Only keys that hash to bucket i see the change of bucket i. */
  lemma BucketUpdate(dt: DictType, t: Table, i: nat, c: Chain, used: nat, k: Key)
    requires TableWf(dt, t) && i < |t.buckets|
    ensures var t' := Table(t.buckets[i := c], used);
            Bucket(dt, t', k) == if Idx(dt.hash(k), |t.buckets|) == i then c else Bucket(dt, t, k)
  {
    IdxInRange(dt.hash(k), |t.buckets|);
  }

  /** Insert at the head of the chain. */
  function Push(dt: DictType, t: Table, e: Entry): (r: Table)
    requires IsPow2(|t.buckets|)
    ensures |r.buckets| == |t.buckets|
  {
    IdxInRange(dt.hash(e.key), |t.buckets|);
    var i := Idx(dt.hash(e.key), |t.buckets|);
    Table(t.buckets[i := [e] + t.buckets[i]], t.used + 1)
  }

  lemma PushSpec(dt: DictType, t: Table, e: Entry)
    requires TableWf(dt, t) && t.buckets != [] && !HasKey(Bucket(dt, t, e.key), e.key)
    ensures var t' := Push(dt, t, e);
            && TableWf(dt, t') && |t'.buckets| == |t.buckets|
            && (forall k :: Get(Bucket(dt, t', k), k)
                            == if k == e.key then Some(e.val) else Get(Bucket(dt, t, k), k))
  {
    var i := Idx(dt.hash(e.key), |t.buckets|);
    IdxInRange(dt.hash(e.key), |t.buckets|);
    DistinctPush(e, t.buckets[i]);
    TableUpdate(dt, t, i, [e] + t.buckets[i]);
    forall k
      ensures Get(Bucket(dt, Push(dt, t, e), k), k)
              == if k == e.key then Some(e.val) else Get(Bucket(dt, t, k), k)
    {
      BucketUpdate(dt, t, i, [e] + t.buckets[i], t.used + 1, k);
      GetPush(e, t.buckets[i], k);
    }
  }

  /** Move the entries of a chain, one by one, to the heads of their chains in t. */
  function MoveAll(dt: DictType, c: Chain, t: Table): Table
    requires IsPow2(|t.buckets|)
    decreases |c|
  {
    if c == [] then t else MoveAll(dt, c[1..], Push(dt, t, c[0]))
  }

  /** The entries of a chain that belong into bucket i of a table of the given size, in order. */
  function BoundFor(dt: DictType, c: Chain, i: nat, size: nat): Chain {
    if c == [] then []
    else (if Lo(dt.hash(c[0].key), Log(size)) == i then [c[0]] else []) + BoundFor(dt, c[1..], i, size)
  }

  function Backwards(c: Chain): Chain { if c == [] then [] else Backwards(c[1..]) + [c[0]] }

  /** Every entry goes to the head of its new chain: those moved stand before those that were there, the
      last one moved first. */
  lemma {:induction false} MoveAllOrder(dt: DictType, c: Chain, t: Table, i: nat)
    requires IsPow2(|t.buckets|) && i < |t.buckets|
    ensures |MoveAll(dt, c, t).buckets| == |t.buckets|
    ensures MoveAll(dt, c, t).buckets[i] == Backwards(BoundFor(dt, c, i, |t.buckets|)) + t.buckets[i]
    decreases |c|
  {
    if c != [] {
      var t1, size := Push(dt, t, c[0]), |t.buckets|;
      IdxInRange(dt.hash(c[0].key), size);
      MoveAllOrder(dt, c[1..], t1, i);
      HeadLast(dt, c, i, size, t.buckets[i]);
    } else {
      assert [] + t.buckets[i] == t.buckets[i];
    }
  }

  lemma HeadLast(dt: DictType, c: Chain, i: nat, size: nat, tail: Chain)
    requires c != []
    ensures var rest := Backwards(BoundFor(dt, c[1..], i, size));
      Backwards(BoundFor(dt, c, i, size)) + tail
      == if Lo(dt.hash(c[0].key), Log(size)) == i then rest + ([c[0]] + tail) else rest + tail
  {
    var more := BoundFor(dt, c[1..], i, size);
    assert [] + more == more;
    assert ([c[0]] + more)[1..] == more;
    assert Backwards(more) + [c[0]] + tail == Backwards(more) + ([c[0]] + tail);
  }

  ghost predicate FreeIn(dt: DictType, c: Chain, t: Table)
    requires t.buckets == [] || IsPow2(|t.buckets|)
  {
    forall k :: HasKey(c, k) ==> !HasKey(Bucket(dt, t, k), k)
  }

  lemma {:induction false} MoveAllSpec(dt: DictType, c: Chain, t: Table)
    requires TableWf(dt, t) && t.buckets != [] && Distinct(c) && FreeIn(dt, c, t)
    ensures var t' := MoveAll(dt, c, t);
            && TableWf(dt, t') && |t'.buckets| == |t.buckets| && t'.used == t.used + |c|
            && (forall k :: Get(Bucket(dt, t', k), k)
                            == if HasKey(c, k) then Get(c, k) else Get(Bucket(dt, t, k), k))
    decreases |c|
  {
    if c != [] {
      var e, r := c[0], c[1..];
      var t1 := Push(dt, t, e);
      assert HasKey(c, e.key);
      PushSpec(dt, t, e);
      DistinctTail(c);
      forall k | HasKey(r, k) ensures !HasKey(Bucket(dt, t1, k), k) {
        HasKeyTail(c, k);
        GetIffHasKey(Bucket(dt, t1, k), k);
        GetIffHasKey(Bucket(dt, t, k), k);
      }
      MoveAllSpec(dt, r, t1);
      forall k { HasKeyTail(c, k); }
    }
  }

  // ---------------------------------------------------------------- dictionaries

  predicate Rehashing(d: Dict) { d.rehashidx != -1 }

  const EMPTY_TABLE := Table([], 0)

  ghost predicate TypeOk(dt: DictType) {
    dt.bits > 3 && forall k :: dt.hash(k) < Pow2(dt.bits)
  }

  /** Each key lives in at most one of the two tables. */
  ghost predicate Apart(d: Dict)
    requires TableWf(d.dt, d.ht0) && TableWf(d.dt, d.ht1)
  {
    forall k :: HasKey(Bucket(d.dt, d.ht0, k), k) ==> !HasKey(Bucket(d.dt, d.ht1, k), k)
  }

  /** The dictionary invariant: placement, counts, power-of-two sizes, unique keys, and
      no element left in the old table below rehashidx. */
  ghost predicate Wf(d: Dict) {
    && TypeOk(d.dt) && TableWf(d.dt, d.ht0) && TableWf(d.dt, d.ht1) && Apart(d)
    && (!Rehashing(d) ==> d.ht1 == EMPTY_TABLE)
    && (Rehashing(d) ==> && d.ht0.buckets != [] && d.ht1.buckets != []
                         && 0 <= d.rehashidx <= |d.ht0.buckets|
                         && forall i :: 0 <= i < d.rehashidx ==> d.ht0.buckets[i] == [])
  }

  function Lookup(d: Dict, k: Key): Option<Value>
    requires d.ht0.buckets == [] || IsPow2(|d.ht0.buckets|)
    requires d.ht1.buckets == [] || IsPow2(|d.ht1.buckets|)
  {
    var r := Get(Bucket(d.dt, d.ht0, k), k);
    if r.Some? then r else Get(Bucket(d.dt, d.ht1, k), k)
  }

  function Size(d: Dict): nat { d.ht0.used + d.ht1.used }

  ghost function TableKeys(t: Table): set<Key> {
    set i, j | 0 <= i < |t.buckets| && 0 <= j < |t.buckets[i]| :: t.buckets[i][j].key
  }

  /** The finite map the two tables stand for. */
  ghost function Contents(d: Dict): map<Key, Value>
    requires Wf(d)
  {
    map k | k in TableKeys(d.ht0) + TableKeys(d.ht1) && Lookup(d, k).Some? :: Lookup(d, k).value
  }

  lemma KeyInTable(dt: DictType, t: Table, k: Key)
    requires TableWf(dt, t)
    ensures k in TableKeys(t) <==> HasKey(Bucket(dt, t, k), k)
  {
    if t.buckets != [] {
      IdxInRange(dt.hash(k), |t.buckets|);
    }
  }

  /** The map holds exactly what lookup finds. */
  lemma ContentsLookup(d: Dict, k: Key)
    requires Wf(d)
    ensures Lookup(d, k) == if k in Contents(d) then Some(Contents(d)[k]) else None
  {
    KeyInTable(d.dt, d.ht0, k);
    KeyInTable(d.dt, d.ht1, k);
    GetIffHasKey(Bucket(d.dt, d.ht0, k), k);
    GetIffHasKey(Bucket(d.dt, d.ht1, k), k);
  }

  /** Lookup after an operation, as a map would answer: binding b for key k, the rest as before. */
  ghost predicate Rebinds(d: Dict, d': Dict, k: Key, b: Option<Value>)
    requires Wf(d) && Wf(d')
  {
    forall x :: Lookup(d', x) == if x == k then b else Lookup(d, x)
  }

  ghost predicate SameMap(d: Dict, d': Dict)
    requires Wf(d) && Wf(d')
  {
    forall x :: Lookup(d', x) == Lookup(d, x)
  }

  lemma ContentsAll(d: Dict)
    requires Wf(d)
    ensures forall x :: x in Contents(d) <==> Lookup(d, x).Some?
    ensures forall x :: x in Contents(d) ==> Contents(d)[x] == Lookup(d, x).value
  {
    forall x { ContentsLookup(d, x); }
  }

  lemma SameMapContents(d: Dict, d': Dict)
    requires Wf(d) && Wf(d') && SameMap(d, d')
    ensures Contents(d') == Contents(d)
  {
    ContentsAll(d);
    ContentsAll(d');
  }

  lemma MapRebind(m: map<Key, Value>, m': map<Key, Value>, k: Key, b: Option<Value>)
    requires forall x :: x != k ==> (x in m' <==> x in m) && (x in m ==> m'[x] == m[x])
    requires if b.Some? then k in m' && m'[k] == b.value else k !in m'
    ensures m' == if b.Some? then m[k := b.value] else m - {k}
  {}

  lemma RebindsContents(d: Dict, d': Dict, k: Key, b: Option<Value>)
    requires Wf(d) && Wf(d') && Rebinds(d, d', k, b)
    ensures Contents(d') == if b.Some? then Contents(d)[k := b.value] else Contents(d) - {k}
  {
    forall x ensures x != k ==> (x in Contents(d') <==> x in Contents(d))
                                && (x in Contents(d) ==> Contents(d')[x] == Contents(d)[x])
    {
      ContentsLookup(d, x);
      ContentsLookup(d', x);
    }
    ContentsLookup(d', k);
    MapRebind(Contents(d), Contents(d'), k, b);
  }

  // ---------------------------------------------------------------- incremental rehash

  /** Move the bucket at rehashidx to the new table. */
  function MoveBucket(d: Dict): Dict
    requires Wf(d) && Rehashing(d) && d.rehashidx < |d.ht0.buckets|
  {
    var c := d.ht0.buckets[d.rehashidx];
    TotalUpdate(d.ht0.buckets, d.rehashidx, []);
    d.(ht0 := Table(d.ht0.buckets[d.rehashidx := []], d.ht0.used - |c|),
       ht1 := MoveAll(d.dt, c, d.ht1),
       rehashidx := d.rehashidx + 1)
  }

  lemma MoveBucketTables(d: Dict)
    requires Wf(d) && Rehashing(d) && d.rehashidx < |d.ht0.buckets|
    ensures var d', c := MoveBucket(d), d.ht0.buckets[d.rehashidx];
            && TableWf(d.dt, d'.ht0) && TableWf(d.dt, d'.ht1)
            && |d'.ht0.buckets| == |d.ht0.buckets| && |d'.ht1.buckets| == |d.ht1.buckets|
            && Size(d') == Size(d)
            && (forall k :: Bucket(d.dt, d'.ht0, k)
                            == if Idx(d.dt.hash(k), |d.ht0.buckets|) == d.rehashidx then []
                               else Bucket(d.dt, d.ht0, k))
            && (forall k :: Get(Bucket(d.dt, d'.ht1, k), k)
                            == if HasKey(c, k) then Get(c, k) else Get(Bucket(d.dt, d.ht1, k), k))
            && (forall k :: HasKey(c, k) ==> Bucket(d.dt, d.ht0, k) == c && Idx(d.dt.hash(k), |d.ht0.buckets|) == d.rehashidx)
  {
    var i := d.rehashidx;
    var c := d.ht0.buckets[i];
    TableUpdate(d.dt, d.ht0, i, []);
    assert ChainWf(d.dt, c, i, |d.ht0.buckets|);
    forall k { BucketUpdate(d.dt, d.ht0, i, [], d.ht0.used - |c|, k); }
    MoveAllSpec(d.dt, c, d.ht1);
  }

  lemma MoveBucketSpec(d: Dict)
    requires Wf(d) && Rehashing(d) && d.rehashidx < |d.ht0.buckets|
    ensures Wf(MoveBucket(d)) && SameMap(d, MoveBucket(d)) && Size(MoveBucket(d)) == Size(d)
  {
    var d' := MoveBucket(d);
    var c := d.ht0.buckets[d.rehashidx];
    MoveBucketTables(d);
    forall k
      ensures HasKey(Bucket(d.dt, d'.ht0, k), k) ==> !HasKey(Bucket(d.dt, d'.ht1, k), k)
      ensures Lookup(d', k) == Lookup(d, k)
    {
      GetIffHasKey(c, k);
      GetIffHasKey(Bucket(d.dt, d.ht0, k), k);
      GetIffHasKey(Bucket(d.dt, d.ht1, k), k);
      GetIffHasKey(Bucket(d.dt, d'.ht1, k), k);
    }
  }

  /** The old table is empty: the new one takes its place. */
  function Promote(d: Dict): Dict {
    d.(ht0 := d.ht1, ht1 := EMPTY_TABLE, rehashidx := -1)
  }

  lemma EmptyTableBuckets(dt: DictType, t: Table)
    requires TableWf(dt, t) && t.used == 0
    ensures forall k :: Bucket(dt, t, k) == []
  {
    TotalZero(t.buckets);
    forall k ensures Bucket(dt, t, k) == [] {
      if t.buckets != [] { IdxInRange(dt.hash(k), |t.buckets|); }
    }
  }

  lemma PromoteSpec(d: Dict)
    requires Wf(d) && Rehashing(d) && d.ht0.used == 0
    ensures Wf(Promote(d)) && SameMap(d, Promote(d)) && Size(Promote(d)) == Size(d)
  {
    EmptyTableBuckets(d.dt, d.ht0);
  }

  lemma SkipSpec(d: Dict)
    requires Wf(d) && Rehashing(d) && d.rehashidx < |d.ht0.buckets| && d.ht0.buckets[d.rehashidx] == []
    ensures Wf(d.(rehashidx := d.rehashidx + 1)) && SameMap(d, d.(rehashidx := d.rehashidx + 1))
  {
    var d' := d.(rehashidx := d.rehashidx + 1);
    assert forall k :: Bucket(d'.dt, d'.ht0, k) == Bucket(d.dt, d.ht0, k);
    assert forall k :: Bucket(d'.dt, d'.ht1, k) == Bucket(d.dt, d.ht1, k);
  }

  /** While the old table has elements, rehashidx is inside it (the source's assertion). */
  lemma RehashidxInside(d: Dict)
    requires Wf(d) && Rehashing(d) && d.ht0.used != 0
    ensures d.rehashidx < |d.ht0.buckets|
  {
    TotalZero(d.ht0.buckets);
  }

  /** Up to n buckets moved, at most `visits` empty ones skipped; true when work remains. */
  function RehashLoop(d: Dict, n: nat, visits: int): (r: (Dict, bool))
    requires Wf(d) && Rehashing(d)
    decreases |d.ht0.buckets| - d.rehashidx
  {
    if n == 0 || d.ht0.used == 0 then
      if d.ht0.used == 0 then (Promote(d), false) else (d, true)
    else
      RehashidxInside(d);
      if d.ht0.buckets[d.rehashidx] == [] then
        SkipSpec(d);
        var d' := d.(rehashidx := d.rehashidx + 1);
        if visits - 1 == 0 then (d', true) else RehashLoop(d', n, visits - 1)
      else
        MoveBucketTables(d);
        MoveBucketSpec(d);
        RehashLoop(MoveBucket(d), n - 1, visits)
  }

  function Rehash(d: Dict, n: nat): (Dict, bool)
    requires Wf(d)
  {
    if !Rehashing(d) then (d, false) else RehashLoop(d, n, n * 10)
  }

  /** What a rehash call keeps: everything the caller can see. */
  ghost predicate RehashedTo(d: Dict, d': Dict)
    requires Wf(d)
  {
    && Wf(d') && SameMap(d, d') && Size(d') == Size(d)
    && d'.dt == d.dt && d'.iterators == d.iterators
    && (Rehashing(d') ==> && Rehashing(d) && |d'.ht0.buckets| == |d.ht0.buckets|
                          && |d'.ht1.buckets| == |d.ht1.buckets| && d'.rehashidx >= d.rehashidx)
    && (Rehashing(d) && !Rehashing(d') ==> |d'.ht0.buckets| == |d.ht1.buckets|)
    && (!Rehashing(d) ==> d' == d)
  }

  lemma RehashedTrans(a: Dict, b: Dict, c: Dict)
    requires Wf(a) && RehashedTo(a, b) && RehashedTo(b, c)
    ensures RehashedTo(a, c)
  {}

  lemma MoveRehashes(d: Dict)
    requires Wf(d) && Rehashing(d) && d.rehashidx < |d.ht0.buckets|
    ensures RehashedTo(d, MoveBucket(d))
  {
    MoveBucketTables(d);
    MoveBucketSpec(d);
  }

  lemma SkipRehashes(d: Dict)
    requires Wf(d) && Rehashing(d) && d.rehashidx < |d.ht0.buckets| && d.ht0.buckets[d.rehashidx] == []
    ensures RehashedTo(d, d.(rehashidx := d.rehashidx + 1))
  {
    SkipSpec(d);
  }

  lemma {:induction false} RehashLoopSpec(d: Dict, n: nat, visits: int)
    requires Wf(d) && Rehashing(d)
    ensures RehashedTo(d, RehashLoop(d, n, visits).0)
    decreases |d.ht0.buckets| - d.rehashidx
  {
    if n == 0 || d.ht0.used == 0 {
      if d.ht0.used == 0 { PromoteSpec(d); }
    } else {
      RehashidxInside(d);
      if d.ht0.buckets[d.rehashidx] == [] { LoopOnEmpty(d, n, visits); } else { LoopOnOther(d, n, visits); }
    }
  }

  lemma LoopOnEmpty(d: Dict, n: nat, visits: int)
    requires Wf(d) && Rehashing(d) && n > 0 && d.ht0.used != 0
    requires d.rehashidx < |d.ht0.buckets| && d.ht0.buckets[d.rehashidx] == []
    ensures RehashedTo(d, RehashLoop(d, n, visits).0)
    decreases |d.ht0.buckets| - d.rehashidx, 1
  {
    SkipRehashes(d);
    LoopSkips(d, n, visits);
    if visits - 1 != 0 { LoopAfter(d, d.(rehashidx := d.rehashidx + 1), n, visits - 1); }
  }

  lemma LoopOnOther(d: Dict, n: nat, visits: int)
    requires Wf(d) && Rehashing(d) && n > 0 && d.ht0.used != 0
    requires d.rehashidx < |d.ht0.buckets| && d.ht0.buckets[d.rehashidx] != []
    ensures RehashedTo(d, RehashLoop(d, n, visits).0)
    decreases |d.ht0.buckets| - d.rehashidx, 1
  {
    MoveRehashes(d);
    LoopMoves(d, n, visits);
    LoopAfter(d, MoveBucket(d), n - 1, visits);
  }

  lemma LoopAfter(d: Dict, d': Dict, n: nat, visits: int)
    requires Wf(d) && Rehashing(d) && RehashedTo(d, d') && Rehashing(d') && d'.rehashidx > d.rehashidx
    requires |d'.ht0.buckets| == |d.ht0.buckets| && d.rehashidx < |d.ht0.buckets|
    ensures RehashedTo(d, RehashLoop(d', n, visits).0)
    decreases |d.ht0.buckets| - d.rehashidx, 0
  {
    RehashLoopSpec(d', n, visits);
    RehashedTrans(d, d', RehashLoop(d', n, visits).0);
  }

  /** The first round of the loop, on an empty bucket and on another one. */
  lemma LoopSkips(d: Dict, n: nat, visits: int)
    requires Wf(d) && Rehashing(d) && n > 0 && d.ht0.used != 0
    requires d.rehashidx < |d.ht0.buckets| && d.ht0.buckets[d.rehashidx] == []
    ensures var d' := d.(rehashidx := d.rehashidx + 1);
      Wf(d') && RehashLoop(d, n, visits) == if visits - 1 == 0 then (d', true) else RehashLoop(d', n, visits - 1)
  {
    SkipSpec(d);
  }

  lemma LoopMoves(d: Dict, n: nat, visits: int)
    requires Wf(d) && Rehashing(d) && n > 0 && d.ht0.used != 0
    requires d.rehashidx < |d.ht0.buckets| && d.ht0.buckets[d.rehashidx] != []
    ensures Wf(MoveBucket(d)) && RehashLoop(d, n, visits) == RehashLoop(MoveBucket(d), n - 1, visits)
  {
    MoveBucketSpec(d);
  }

  /** What a call for n buckets does to rehashidx, and its flag. */
  ghost predicate Progress(d: Dict, n: nat, r: (Dict, bool)) {
    && (r.1 <==> Rehashing(r.0))
    && (Rehashing(r.0) ==> if n > 0 then r.0.rehashidx > d.rehashidx else r.0.rehashidx == d.rehashidx)
  }

  lemma {:induction false} RehashLoopProgress(d: Dict, n: nat, visits: int)
    requires Wf(d) && Rehashing(d)
    ensures Progress(d, n, RehashLoop(d, n, visits))
    decreases |d.ht0.buckets| - d.rehashidx
  {
    if n > 0 && d.ht0.used != 0 {
      RehashidxInside(d);
      if d.ht0.buckets[d.rehashidx] == [] {
        LoopSkips(d, n, visits);
        if visits - 1 != 0 { ProgressAfter(d, d.(rehashidx := d.rehashidx + 1), n, n, visits - 1); }
      } else {
        LoopMoves(d, n, visits);
        ProgressAfter(d, MoveBucket(d), n, n - 1, visits);
      }
    }
  }

  lemma ProgressAfter(d: Dict, d': Dict, n: nat, m: nat, visits: int)
    requires Rehashing(d) && Wf(d') && Rehashing(d') && d'.rehashidx == d.rehashidx + 1 && m <= n && n > 0
    requires |d'.ht0.buckets| == |d.ht0.buckets| && d.rehashidx < |d.ht0.buckets|
    ensures Progress(d, n, RehashLoop(d', m, visits))
    decreases |d.ht0.buckets| - d.rehashidx, 0
  {
    RehashLoopProgress(d', m, visits);
  }

  /** A rehash call changes no binding, keeps the invariant and, for n > 0, makes progress. */
  lemma RehashSpec(d: Dict, n: nat)
    requires Wf(d)
    ensures var r := Rehash(d, n);
            && RehashedTo(d, r.0) && (r.1 <==> Rehashing(r.0))
            && (Rehashing(r.0) && n > 0 ==> r.0.rehashidx > d.rehashidx)
  {
    if Rehashing(d) {
      RehashLoopSpec(d, n, n * 10);
      RehashLoopProgress(d, n, n * 10);
    }
  }

  // ---------------------------------------------------------------- growth

  function NextPowerFrom(i: nat, size: nat): nat
    requires i > 0
    decreases size - i
  {
    if i >= size then i else NextPowerFrom(2 * i, size)
  }

  /** The bucket count for a requested size: a power of two from 4 up, capped at 2^(bits-1). */
  function NextPower(size: nat, bits: nat): nat
    requires bits > 3
  {
    if size >= Pow2(bits - 1) - 1 then Pow2(bits - 1) else NextPowerFrom(INITIAL_SIZE, size)
  }

  lemma {:induction false} NextPowerFromSpec(e: nat, size: nat)
    requires Pow2(e) > 0
    ensures var r := NextPowerFrom(Pow2(e), size);
            && IsPow2(r) && Log(r) >= e && r >= size && (r > Pow2(e) ==> r < 2 * size)
    decreases size - Pow2(e)
  {
    LogPow2(e);
    if Pow2(e) < size { NextPowerFromSpec(e + 1, size); }
  }

  lemma {:induction false} Pow2Below(a: nat, b: nat)
    requires Pow2(a) < Pow2(b)
    ensures a < b
  {
    if b <= a {
      UpUp(1, b, a - b);
      UpMono(Pow2(b), 0, a - b);
    }
  }

  /** The result is the least power of two that is at least 4 and holds the request. */
  lemma NextPowerSpec(size: nat, bits: nat)
    requires bits > 3
    ensures var r := NextPower(size, bits);
            && IsPow2(r) && Log(r) < bits && r >= INITIAL_SIZE
            && (size <= Pow2(bits - 1) ==> r >= size && (r > INITIAL_SIZE ==> r < 2 * size))
  {
    var m := bits - 1;
    LogPow2(m);
    Pow2FourAtMost(m);
    if size < Pow2(m) - 1 {
      assert Pow2(2) == 2 * Pow2(1) == 4 by { assert Pow2(1) == 2 * Pow2(0); }
      NextPowerFromSpec(2, size);
      var r := NextPower(size, bits);
      if r > 4 { Pow2Below(Log(r), bits); }
      else { Pow2Below(2, bits); LogPow2(2); }
    }
  }

  lemma Pow2FourAtMost(m: nat)
    requires m > 2
    ensures Pow2(m) >= 8 && Pow2(m + 1) == 2 * Pow2(m)
  {
    assert Pow2(m) == 2 * Pow2(m - 1) && Pow2(m - 1) == 2 * Pow2(m - 2) && Pow2(m - 2) == 2 * Pow2(m - 3);
  }

  function FreshTable(size: nat): Table { Table(seq(size, _ => []), 0) }

  lemma FreshTableWf(dt: DictType, size: nat)
    requires IsPow2(size) && Log(size) < dt.bits
    ensures TableWf(dt, FreshTable(size)) && forall k :: Bucket(dt, FreshTable(size), k) == []
  {
    TotalZero(FreshTable(size).buckets);
    forall k ensures Bucket(dt, FreshTable(size), k) == [] { IdxInRange(dt.hash(k), size); }
  }

  /** dictExpand; the flag tells whether the request was carried out. */
  function Expand(d: Dict, size: nat): (Dict, bool)
    requires d.dt.bits > 3
  {
    var realsize := NextPower(size, d.dt.bits);
    if Rehashing(d) || d.ht0.used > size then (d, false)
    else if realsize == |d.ht0.buckets| then (d, false)
    else if d.ht0.buckets == [] then (d.(ht0 := FreshTable(realsize)), true)
    else (d.(ht1 := FreshTable(realsize), rehashidx := 0), true)
  }

  lemma ExpandSpec(d: Dict, size: nat)
    requires Wf(d)
    ensures var r := Expand(d, size);
            && Wf(r.0) && SameMap(d, r.0) && Size(r.0) == Size(d)
            && r.0.dt == d.dt && r.0.iterators == d.iterators
  {
    var realsize := NextPower(size, d.dt.bits);
    NextPowerSpec(size, d.dt.bits);
    FreshTableWf(d.dt, realsize);
    if d.ht0.buckets == [] {
      assert d.ht0.used == 0;
    }
  }

  /** dictResize: shrink to the number of elements. */
  function Resize(d: Dict, canResize: bool): (Dict, bool)
    requires d.dt.bits > 3
  {
    if !canResize || Rehashing(d) then (d, false)
    else Expand(d, if d.ht0.used < INITIAL_SIZE then INITIAL_SIZE else d.ht0.used)
  }

  lemma ResizeSpec(d: Dict, canResize: bool)
    requires Wf(d)
    ensures var r := Resize(d, canResize); Wf(r.0) && SameMap(d, r.0) && Size(r.0) == Size(d) && r.0.dt == d.dt
  {
    ExpandSpec(d, if d.ht0.used < INITIAL_SIZE then INITIAL_SIZE else d.ht0.used);
  }

  function ExpandIfNeeded(d: Dict, canResize: bool): (Dict, bool)
    requires d.dt.bits > 3
  {
    if Rehashing(d) then (d, true)
    else if |d.ht0.buckets| == 0 then Expand(d, INITIAL_SIZE)
    else if d.ht0.used >= |d.ht0.buckets|
            && (canResize || d.ht0.used / |d.ht0.buckets| > FORCE_RESIZE_RATIO)
      then Expand(d, d.ht0.used * 2)
    else (d, true)
  }

  /** Fewer elements than a quarter of the words: no allocation could hold more. */
  predicate RoomToGrow(d: Dict)
    requires d.dt.bits > 3
  {
    2 * Size(d) <= Pow2(d.dt.bits - 1)
  }

  lemma ExpandIfNeededSpec(d: Dict, canResize: bool)
    requires Wf(d)
    ensures var r := ExpandIfNeeded(d, canResize);
            && Wf(r.0) && SameMap(d, r.0) && Size(r.0) == Size(d)
            && r.0.dt == d.dt && r.0.iterators == d.iterators
            && (RoomToGrow(d) ==> r.1)
            && (r.1 ==> r.0.ht0.buckets != [])
  {
    if Rehashing(d) {
    } else if |d.ht0.buckets| == 0 {
      FirstTable(d);
    } else if d.ht0.used >= |d.ht0.buckets| {
      DoubledTable(d);
    }
  }

  lemma FirstTable(d: Dict)
    requires Wf(d) && !Rehashing(d) && |d.ht0.buckets| == 0
    ensures var r := Expand(d, INITIAL_SIZE);
            && Wf(r.0) && SameMap(d, r.0) && Size(r.0) == Size(d)
            && r.0.dt == d.dt && r.0.iterators == d.iterators && r.1 && r.0.ht0.buckets != []
  {
    ExpandSpec(d, INITIAL_SIZE);
    NextPowerSpec(INITIAL_SIZE, d.dt.bits);
  }

  lemma DoubledTable(d: Dict)
    requires Wf(d) && !Rehashing(d) && 0 < |d.ht0.buckets| <= d.ht0.used
    ensures var r := Expand(d, d.ht0.used * 2);
            && Wf(r.0) && SameMap(d, r.0) && Size(r.0) == Size(d)
            && r.0.dt == d.dt && r.0.iterators == d.iterators
            && (RoomToGrow(d) ==> r.1) && r.0.ht0.buckets != []
  {
    ExpandSpec(d, d.ht0.used * 2);
    NextPowerSpec(d.ht0.used * 2, d.dt.bits);
  }

  // ---------------------------------------------------------------- operations

  /** One step of rehashing, unless a safe iterator is running. */
  function Step(d: Dict): Dict
    requires Wf(d)
  {
    if Rehashing(d) && d.iterators == 0 then Rehash(d, 1).0 else d
  }

  lemma StepSpec(d: Dict)
    requires Wf(d)
    ensures RehashedTo(d, Step(d))
  {
    RehashSpec(d, 1);
  }

  /** Put a new entry into the table that receives insertions. */
  function Insert(d: Dict, e: Entry): Dict
    requires Wf(d) && d.ht0.buckets != []
  {
    if Rehashing(d) then d.(ht1 := Push(d.dt, d.ht1, e)) else d.(ht0 := Push(d.dt, d.ht0, e))
  }

  lemma InsertSpec(d: Dict, e: Entry)
    requires Wf(d) && d.ht0.buckets != [] && Lookup(d, e.key) == None
    ensures var d' := Insert(d, e);
            Wf(d') && Rebinds(d, d', e.key, Some(e.val)) && Size(d') == Size(d) + 1
  {
    var k := e.key;
    GetIffHasKey(Bucket(d.dt, d.ht0, k), k);
    GetIffHasKey(Bucket(d.dt, d.ht1, k), k);
    if Rehashing(d) { PushSpec(d.dt, d.ht1, e); } else { PushSpec(d.dt, d.ht0, e); }
    var d' := Insert(d, e);
    forall x ensures HasKey(Bucket(d.dt, d'.ht0, x), x) ==> !HasKey(Bucket(d.dt, d'.ht1, x), x) {
      GetIffHasKey(Bucket(d.dt, d.ht0, x), x);
      GetIffHasKey(Bucket(d.dt, d.ht1, x), x);
      GetIffHasKey(Bucket(d.dt, d'.ht0, x), x);
      GetIffHasKey(Bucket(d.dt, d'.ht1, x), x);
    }
  }

  /** dictAdd; the flag tells whether the key was added. */
  function Add(d: Dict, k: Key, v: Value, canResize: bool): (Dict, bool)
    requires Wf(d)
  {
    StepSpec(d);
    var d1 := Step(d);
    ExpandIfNeededSpec(d1, canResize);
    var (d2, ok) := ExpandIfNeeded(d1, canResize);
    if !ok || Lookup(d2, k).Some? then (d2, false) else (Insert(d2, Entry(k, v)), true)
  }

  /** dictAdd binds an absent key and leaves a present one alone, whatever tables move;
      only a table that cannot grow any more refuses an absent key. */
  lemma AddSpec(d: Dict, k: Key, v: Value, canResize: bool)
    requires Wf(d)
    ensures var r := Add(d, k, v, canResize);
            && Wf(r.0) && r.0.dt == d.dt && r.0.iterators == d.iterators
            && (r.1 ==> k !in Contents(d)) && (RoomToGrow(d) && k !in Contents(d) ==> r.1)
            && Contents(r.0) == (if r.1 then Contents(d)[k := v] else Contents(d))
            && Size(r.0) == Size(d) + (if r.1 then 1 else 0)
  {
    StepSpec(d);
    var d1 := Step(d);
    ExpandIfNeededSpec(d1, canResize);
    var d2 := ExpandIfNeeded(d1, canResize).0;
    SameMapContents(d, d1);
    SameMapContents(d1, d2);
    ContentsLookup(d2, k);
    if Lookup(d2, k) == None {
      InsertSpec(d2, Entry(k, v));
      RebindsContents(d2, Insert(d2, Entry(k, v)), k, Some(v));
    }
  }

  /** dictFind: the value found, and the dictionary after the step it performs. */
  function Find(d: Dict, k: Key): (Dict, Option<Value>)
    requires Wf(d)
  {
    StepSpec(d);
    if Size(d) == 0 then (d, None) else (Step(d), Lookup(Step(d), k))
  }

  lemma EmptyLookup(d: Dict, k: Key)
    requires Wf(d) && Size(d) == 0
    ensures Lookup(d, k) == None
  {
    EmptyTableBuckets(d.dt, d.ht0);
    EmptyTableBuckets(d.dt, d.ht1);
  }

  /** dictFind answers what the map holds and changes no binding. */
  lemma FindSpec(d: Dict, k: Key)
    requires Wf(d)
    ensures var r := Find(d, k);
            && Wf(r.0) && Contents(r.0) == Contents(d) && Size(r.0) == Size(d)
            && r.1 == (if k in Contents(d) then Some(Contents(d)[k]) else None)
  {
    StepSpec(d);
    ContentsLookup(d, k);
    if Size(d) == 0 {
      EmptyLookup(d, k);
    } else {
      SameMapContents(d, Step(d));
    }
  }

  /** Replace the chain of key k in a table. */
  function SetChain(dt: DictType, t: Table, k: Key, c: Chain, used: nat): (r: Table)
    requires IsPow2(|t.buckets|)
    ensures |r.buckets| == |t.buckets|
  {
    IdxInRange(dt.hash(k), |t.buckets|);
    Table(t.buckets[Idx(dt.hash(k), |t.buckets|) := c], used)
  }

  lemma SetChainSpec(dt: DictType, t: Table, k: Key, c: Chain)
    requires TableWf(dt, t) && t.buckets != []
    requires Distinct(c) && forall x :: HasKey(c, x) ==> HasKey(Bucket(dt, t, k), x)
    requires forall x :: x != k ==> Get(c, x) == Get(Bucket(dt, t, k), x)
    ensures t.used - |Bucket(dt, t, k)| + |c| >= 0
    ensures var t' := SetChain(dt, t, k, c, t.used - |Bucket(dt, t, k)| + |c|);
            && TableWf(dt, t') && |t'.buckets| == |t.buckets| && Bucket(dt, t', k) == c
            && (forall x :: x != k ==> Get(Bucket(dt, t', x), x) == Get(Bucket(dt, t, x), x))
  {
    var i := Idx(dt.hash(k), |t.buckets|);
    IdxInRange(dt.hash(k), |t.buckets|);
    forall j | 0 <= j < |c| ensures Idx(dt.hash(c[j].key), |t.buckets|) == i {
      assert HasKey(c, c[j].key);
      assert HasKey(Bucket(dt, t, k), c[j].key);
    }
    TableUpdate(dt, t, i, c);
    forall x { BucketUpdate(dt, t, i, c, t.used - |t.buckets[i]| + |c|, x); }
  }

  /** Unlink key k from a table it is in. */
  function Unlink(dt: DictType, t: Table, k: Key): Table
    requires IsPow2(|t.buckets|)
  {
    var c := Without(Bucket(dt, t, k), k);
    SetChain(dt, t, k, c, if t.used == 0 then 0 else t.used - 1)
  }

  lemma UnlinkSpec(dt: DictType, t: Table, k: Key)
    requires TableWf(dt, t) && t.buckets != [] && HasKey(Bucket(dt, t, k), k)
    ensures var t' := Unlink(dt, t, k);
            && TableWf(dt, t') && |t'.buckets| == |t.buckets| && t.used > 0 && t'.used == t.used - 1
            && (forall x :: Get(Bucket(dt, t', x), x) == if x == k then None else Get(Bucket(dt, t, x), x))
  {
    var c := Bucket(dt, t, k);
    IdxInRange(dt.hash(k), |t.buckets|);
    TotalUpdate(t.buckets, Idx(dt.hash(k), |t.buckets|), []);
    WithoutSpec(c, k);
    SetChainSpec(dt, t, k, Without(c, k));
  }

  /** dictDelete: the value unlinked, if any. */
  function Delete(d: Dict, k: Key): (Dict, Option<Value>)
    requires Wf(d)
  {
    if Size(d) == 0 then (d, None)
    else
      StepSpec(d);
      var d1 := Step(d);
      if Get(Bucket(d1.dt, d1.ht0, k), k).Some? then
        (d1.(ht0 := Unlink(d1.dt, d1.ht0, k)), Lookup(d1, k))
      else if Get(Bucket(d1.dt, d1.ht1, k), k).Some? then
        (d1.(ht1 := Unlink(d1.dt, d1.ht1, k)), Lookup(d1, k))
      else (d1, None)
  }

  /** A table changed so that it loses key k or keeps its keys leaves the dictionary well-formed. */
  lemma ChangeTableWf(d: Dict, d': Dict, k: Key)
    requires Wf(d) && d'.dt == d.dt && d'.rehashidx == d.rehashidx
    requires TableWf(d.dt, d'.ht0) && TableWf(d.dt, d'.ht1)
    requires |d'.ht0.buckets| == |d.ht0.buckets| && |d'.ht1.buckets| == |d.ht1.buckets|
    requires !Rehashing(d) ==> d'.ht1 == EMPTY_TABLE
    requires forall i :: 0 <= i < |d.ht0.buckets| && d.ht0.buckets[i] == [] ==> d'.ht0.buckets[i] == []
    requires forall x :: Get(Bucket(d.dt, d'.ht0, x), x).Some? ==> Get(Bucket(d.dt, d.ht0, x), x).Some?
    requires forall x :: Get(Bucket(d.dt, d'.ht1, x), x).Some? ==> Get(Bucket(d.dt, d.ht1, x), x).Some?
    ensures Wf(d')
  {
    forall x ensures HasKey(Bucket(d.dt, d'.ht0, x), x) ==> !HasKey(Bucket(d.dt, d'.ht1, x), x) {
      GetIffHasKey(Bucket(d.dt, d.ht0, x), x);
      GetIffHasKey(Bucket(d.dt, d.ht1, x), x);
      GetIffHasKey(Bucket(d.dt, d'.ht0, x), x);
      GetIffHasKey(Bucket(d.dt, d'.ht1, x), x);
    }
  }

  lemma UnlinkKeepsEmpty(dt: DictType, t: Table, k: Key)
    requires TableWf(dt, t) && t.buckets != [] && HasKey(Bucket(dt, t, k), k)
    ensures var t' := Unlink(dt, t, k);
            && |t'.buckets| == |t.buckets|
            && (forall i :: 0 <= i < |t.buckets| && t.buckets[i] == [] ==> t'.buckets[i] == [])
  {
    IdxInRange(dt.hash(k), |t.buckets|);
  }

  lemma DeleteFound(d: Dict, k: Key)
    requires Wf(d) && Lookup(d, k).Some?
    ensures var d' := if Get(Bucket(d.dt, d.ht0, k), k).Some? then d.(ht0 := Unlink(d.dt, d.ht0, k))
                      else d.(ht1 := Unlink(d.dt, d.ht1, k));
            Wf(d') && Rebinds(d, d', k, None) && Size(d') == Size(d) - 1
  {
    GetIffHasKey(Bucket(d.dt, d.ht0, k), k);
    GetIffHasKey(Bucket(d.dt, d.ht1, k), k);
    if Get(Bucket(d.dt, d.ht0, k), k).Some? {
      UnlinkSpec(d.dt, d.ht0, k);
      UnlinkKeepsEmpty(d.dt, d.ht0, k);
      ChangeTableWf(d, d.(ht0 := Unlink(d.dt, d.ht0, k)), k);
    } else {
      UnlinkSpec(d.dt, d.ht1, k);
      ChangeTableWf(d, d.(ht1 := Unlink(d.dt, d.ht1, k)), k);
    }
  }

  /** dictDelete removes the key from the map, and says what was bound to it. */
  lemma DeleteSpec(d: Dict, k: Key)
    requires Wf(d)
    ensures var r := Delete(d, k);
            && Wf(r.0) && r.0.dt == d.dt && r.0.iterators == d.iterators
            && Contents(r.0) == Contents(d) - {k}
            && r.1 == (if k in Contents(d) then Some(Contents(d)[k]) else None)
            && Size(r.0) == Size(d) - (if k in Contents(d) then 1 else 0)
  {
    ContentsLookup(d, k);
    if Size(d) == 0 {
      EmptyLookup(d, k);
    } else {
      StepSpec(d);
      SameMapContents(d, Step(d));
      ContentsLookup(Step(d), k);
      DeleteAfterStep(d, Step(d), k);
    }
  }

  lemma DeleteAfterStep(d: Dict, d1: Dict, k: Key)
    requires Wf(d) && Size(d) != 0 && Wf(d1) && d1 == Step(d)
    ensures var r := Delete(d, k);
            && Wf(r.0) && r.0.dt == d1.dt && r.0.iterators == d1.iterators && r.1 == Lookup(d1, k)
            && Contents(r.0) == Contents(d1) - {k}
            && Size(r.0) == Size(d1) - (if Lookup(d1, k).Some? then 1 else 0)
  {
    if Lookup(d1, k).Some? {
      DeleteFound(d1, k);
      RebindsContents(d1, Delete(d, k).0, k, None);
    } else {
      ContentsLookup(d1, k);
    }
  }

  lemma AddWf(d: Dict, k: Key, v: Value, canResize: bool)
    requires Wf(d)
    ensures Wf(Add(d, k, v, canResize).0)
  {
    AddSpec(d, k, v, canResize);
  }

  lemma DeleteWf(d: Dict, k: Key)
    requires Wf(d)
    ensures Wf(Delete(d, k).0)
  {
    DeleteSpec(d, k);
  }

  /** Overwrite the value of key k in a table it is in. */
  function SetVal(dt: DictType, t: Table, k: Key, v: Value): Table
    requires IsPow2(|t.buckets|)
  {
    SetChain(dt, t, k, WithVal(Bucket(dt, t, k), k, v), t.used)
  }

  lemma SetValSpec(dt: DictType, t: Table, k: Key, v: Value)
    requires TableWf(dt, t) && t.buckets != [] && HasKey(Bucket(dt, t, k), k)
    ensures var t' := SetVal(dt, t, k, v);
            && TableWf(dt, t') && |t'.buckets| == |t.buckets| && t'.used == t.used
            && (forall i :: 0 <= i < |t.buckets| && t.buckets[i] == [] ==> t'.buckets[i] == [])
            && (forall x :: Get(Bucket(dt, t', x), x) == if x == k then Some(v) else Get(Bucket(dt, t, x), x))
  {
    var c := Bucket(dt, t, k);
    IdxInRange(dt.hash(k), |t.buckets|);
    WithValSpec(c, k, v);
    forall x | HasKey(WithVal(c, k, v), x) ensures HasKey(c, x) {
      var i :| 0 <= i < |c| && WithVal(c, k, v)[i].key == x;
      assert c[i].key == x;
    }
    SetChainSpec(dt, t, k, WithVal(c, k, v));
  }

  /** dictReplace: add, or overwrite the value in place; true when added. */
  function Replace(d: Dict, k: Key, v: Value, canResize: bool): (Dict, bool)
    requires Wf(d)
  {
    StepSpec(d);
    var d1 := Step(d);
    ExpandIfNeededSpec(d1, canResize);
    var (d2, added) := Add(d, k, v, canResize);
    if added then (d2, true)
    else if Get(Bucket(d2.dt, d2.ht0, k), k).Some? then (d2.(ht0 := SetVal(d2.dt, d2.ht0, k, v)), false)
    else if Get(Bucket(d2.dt, d2.ht1, k), k).Some? then (d2.(ht1 := SetVal(d2.dt, d2.ht1, k, v)), false)
    else (d2, false)
  }

  lemma OverwriteSpec(d: Dict, k: Key, v: Value)
    requires Wf(d) && Lookup(d, k).Some?
    ensures var d' := if Get(Bucket(d.dt, d.ht0, k), k).Some? then d.(ht0 := SetVal(d.dt, d.ht0, k, v))
                      else d.(ht1 := SetVal(d.dt, d.ht1, k, v));
            Wf(d') && Rebinds(d, d', k, Some(v)) && Size(d') == Size(d)
  {
    GetIffHasKey(Bucket(d.dt, d.ht0, k), k);
    GetIffHasKey(Bucket(d.dt, d.ht1, k), k);
    if Get(Bucket(d.dt, d.ht0, k), k).Some? {
      SetValSpec(d.dt, d.ht0, k, v);
      ChangeTableWf(d, d.(ht0 := SetVal(d.dt, d.ht0, k, v)), k);
    } else {
      SetValSpec(d.dt, d.ht1, k, v);
      ChangeTableWf(d, d.(ht1 := SetVal(d.dt, d.ht1, k, v)), k);
    }
  }

  /** dictReplace binds the key whether or not it was there. */
  lemma ReplaceSpec(d: Dict, k: Key, v: Value, canResize: bool)
    requires Wf(d)
    ensures var r := Replace(d, k, v, canResize);
            && Wf(r.0) && r.0.dt == d.dt && r.0.iterators == d.iterators
            && (r.1 ==> k !in Contents(d)) && (RoomToGrow(d) && k !in Contents(d) ==> r.1)
            && (k in Contents(d) || r.1 ==> Contents(r.0) == Contents(d)[k := v])
            && Size(r.0) == Size(d) + (if r.1 then 1 else 0)
  {
    AddSpec(d, k, v, canResize);
    var (d2, added) := Add(d, k, v, canResize);
    ContentsLookup(d2, k);
    if !added && k in Contents(d) {
      OverwriteSpec(d2, k, v);
      RebindsContents(d2, Replace(d, k, v, canResize).0, k, Some(v));
    }
  }

  /** A new entry stands at the head of its chain, in the new table while a rehash is on. */
  lemma AddsAtHead(d: Dict, k: Key, v: Value, canResize: bool)
    requires Wf(d) && Add(d, k, v, canResize).1
    ensures var d' := Add(d, k, v, canResize).0;
      && Wf(d') && var c := Bucket(d'.dt, if Rehashing(d') then d'.ht1 else d'.ht0, k); c != [] && c[0] == Entry(k, v)
  {
    AddSpec(d, k, v, canResize);
    StepSpec(d);
    ExpandIfNeededSpec(Step(d), canResize);
    var d2 := ExpandIfNeeded(Step(d), canResize).0;
    IdxInRange(d.dt.hash(k), if Rehashing(d2) then |d2.ht1.buckets| else |d2.ht0.buckets|);
  }

  lemma ReplaceWf(d: Dict, k: Key, v: Value, canResize: bool)
    requires Wf(d)
    ensures Wf(Replace(d, k, v, canResize).0)
  {
    ReplaceSpec(d, k, v, canResize);
  }

  // ---------------------------------------------------------------- runs

  datatype Op =
    | OpAdd(k: Key, v: Value, canResize: bool)
    | OpReplace(k: Key, v: Value, canResize: bool)
    | OpDelete(k: Key)
    | OpFind(k: Key)
    | OpRehash(n: nat)
    | OpExpand(size: nat)
    | OpResize(canResize: bool)

  function Apply(d: Dict, op: Op): Dict
    requires Wf(d)
  {
    match op
    case OpAdd(k, v, canResize) => Add(d, k, v, canResize).0
    case OpReplace(k, v, canResize) => Replace(d, k, v, canResize).0
    case OpDelete(k) => Delete(d, k).0
    case OpFind(k) => Find(d, k).0
    case OpRehash(n) => Rehash(d, n).0
    case OpExpand(size) => Expand(d, size).0
    case OpResize(canResize) => Resize(d, canResize).0
  }

  /** The keys an operation may add or remove; all other bindings are left alone. */
  function Touched(op: Op): set<Key> {
    match op
    case OpAdd(k, _, _) => {k}
    case OpReplace(k, _, _) => {k}
    case OpDelete(k) => {k}
    case _ => {}
  }

  ghost predicate Keeps(d: Dict, d': Dict, touched: set<Key>)
    requires Wf(d)
  {
    Wf(d') && d'.dt == d.dt && Contents(d') - touched == Contents(d) - touched
  }

  lemma AddKeeps(d: Dict, k: Key, v: Value, canResize: bool)
    requires Wf(d)
    ensures Keeps(d, Add(d, k, v, canResize).0, {k})
  {
    AddSpec(d, k, v, canResize);
  }

  lemma RebindKeeps(m: map<Key, Value>, m': map<Key, Value>, k: Key, v: Value)
    requires m' == m || m' == m[k := v]
    ensures m' - {k} == m - {k}
  {
  }

  lemma ReplaceBinds(d: Dict, k: Key, v: Value, canResize: bool)
    requires Wf(d) && k !in Contents(d) && !Replace(d, k, v, canResize).1
    ensures Wf(Replace(d, k, v, canResize).0) && Contents(Replace(d, k, v, canResize).0) == Contents(d)
  {
    AddSpec(d, k, v, canResize);
    ContentsLookup(Add(d, k, v, canResize).0, k);
  }

  lemma ReplaceKeeps(d: Dict, k: Key, v: Value, canResize: bool)
    requires Wf(d)
    ensures Keeps(d, Replace(d, k, v, canResize).0, {k})
  {
    ReplaceSpec(d, k, v, canResize);
    var r := Replace(d, k, v, canResize);
    if k !in Contents(d) && !r.1 { ReplaceBinds(d, k, v, canResize); }
    RebindKeeps(Contents(d), Contents(r.0), k, v);
  }

  lemma DeleteKeeps(d: Dict, k: Key)
    requires Wf(d)
    ensures Keeps(d, Delete(d, k).0, {k})
  {
    DeleteSpec(d, k);
  }

  lemma FindKeeps(d: Dict, k: Key)
    requires Wf(d)
    ensures Keeps(d, Find(d, k).0, {})
  {
    FindSpec(d, k);
    StepSpec(d);
  }

  lemma QuietKeeps(d: Dict, d': Dict)
    requires Wf(d) && Wf(d') && SameMap(d, d') && d'.dt == d.dt
    ensures Keeps(d, d', {})
  {
    SameMapContents(d, d');
  }

  /** Every operation keeps the invariant and the bindings of the keys it does not name. */
  lemma ApplySpec(d: Dict, op: Op)
    requires Wf(d)
    ensures Keeps(d, Apply(d, op), Touched(op))
  {
    match op
    case OpAdd(k, v, canResize) => AddKeeps(d, k, v, canResize);
    case OpReplace(k, v, canResize) => ReplaceKeeps(d, k, v, canResize);
    case OpDelete(k) => DeleteKeeps(d, k);
    case OpFind(k) => FindKeeps(d, k);
    case OpRehash(n) => RehashSpec(d, n); QuietKeeps(d, Rehash(d, n).0);
    case OpExpand(size) => ExpandSpec(d, size); QuietKeeps(d, Expand(d, size).0);
    case OpResize(canResize) => ResizeSpec(d, canResize); QuietKeeps(d, Resize(d, canResize).0);
  }

  ghost predicate Reaches(d: Dict, ops: seq<Op>, d': Dict)
    requires Wf(d)
    decreases |ops|
  {
    if ops == [] then d' == d else ApplySpec(d, ops[0]); Reaches(Apply(d, ops[0]), ops[1..], d')
  }

  /** The invariant holds after every sequence of operations. */
  lemma {:induction false} ReachesWf(d: Dict, ops: seq<Op>, d': Dict)
    requires Wf(d) && Reaches(d, ops, d')
    ensures Wf(d') && d'.dt == d.dt
    decreases |ops|
  {
    if ops != [] {
      ApplySpec(d, ops[0]);
      ReachesWf(Apply(d, ops[0]), ops[1..], d');
    }
  }

  /** The same operation on a finite map. */
  function MapApply(m: map<Key, Value>, op: Op): map<Key, Value> {
    match op
    case OpAdd(k, v, _) => if k in m then m else m[k := v]
    case OpReplace(k, v, _) => m[k := v]
    case OpDelete(k) => m - {k}
    case _ => m
  }

  function MapRun(m: map<Key, Value>, ops: seq<Op>): map<Key, Value>
    decreases |ops|
  {
    if ops == [] then m else MapRun(MapApply(m, ops[0]), ops[1..])
  }

  lemma KeyOfTable(d: Dict, t: Table) returns (k: Key)
    requires Wf(d) && (t == d.ht0 || t == d.ht1) && t.used != 0
    ensures k in Contents(d)
  {
    TotalZero(t.buckets);
    var i :| 0 <= i < |t.buckets| && t.buckets[i] != [];
    k := t.buckets[i][0].key;
    assert ChainWf(d.dt, t.buckets[i], i, |t.buckets|) && Bucket(d.dt, t, k) == t.buckets[i];
    GetIffHasKey(Bucket(d.dt, d.ht0, k), k);
    GetIffHasKey(Bucket(d.dt, d.ht1, k), k);
    ContentsLookup(d, k);
  }

  lemma EmptyContents(d: Dict)
    requires Wf(d) && Size(d) == 0
    ensures Contents(d) == map[]
  {
    forall k ensures k !in Contents(d) { EmptyLookup(d, k); ContentsLookup(d, k); }
  }

  lemma OneLess(d: Dict, k: Key) returns (d': Dict)
    requires Wf(d) && k in Contents(d)
    ensures Wf(d') && Size(d) == Size(d') + 1 && Contents(d') == Contents(d) - {k}
  {
    DeleteSpec(d, k);
    d' := Delete(d, k).0;
  }

  lemma LessOne(m: map<Key, Value>, k: Key)
    requires k in m
    ensures |m| == |m - {k}| + 1
  {
    assert m == (m - {k})[k := m[k]];
  }

  /** The two `used` counts together are the number of keys. */
  lemma {:induction false} SizeIsCount(d: Dict)
    requires Wf(d)
    ensures Size(d) == |Contents(d)|
    decreases Size(d)
  {
    if Size(d) == 0 {
      EmptyContents(d);
    } else {
      var k := KeyOfTable(d, if d.ht0.used != 0 then d.ht0 else d.ht1);
      var d' := OneLess(d, k);
      SizeIsCount(d');
      LessOne(Contents(d), k);
    }
  }

  predicate Inserts(op: Op) { op.OpAdd? || op.OpReplace? }

  lemma ApplyRefines(d: Dict, op: Op)
    requires Wf(d) && (Inserts(op) ==> RoomToGrow(d))
    ensures Wf(Apply(d, op)) && Contents(Apply(d, op)) == MapApply(Contents(d), op)
    ensures Size(Apply(d, op)) <= Size(d) + 1
  {
    match op
    case OpAdd(k, v, canResize) => AddSpec(d, k, v, canResize);
    case OpReplace(k, v, canResize) => ReplaceSpec(d, k, v, canResize);
    case OpDelete(k) => DeleteSpec(d, k);
    case OpFind(k) => FindSpec(d, k);
    case OpRehash(n) => RehashSpec(d, n); SameMapContents(d, Rehash(d, n).0);
    case OpExpand(size) => ExpandSpec(d, size); SameMapContents(d, Expand(d, size).0);
    case OpResize(canResize) => ResizeSpec(d, canResize); SameMapContents(d, Resize(d, canResize).0);
  }

  /** Whenever the run inserts, the map has at most 2^(bits-2) keys. */
  ghost predicate RoomThroughout(m: map<Key, Value>, ops: seq<Op>, bits: nat)
    requires bits > 3
    decreases |ops|
  {
    ops == [] || ((Inserts(ops[0]) ==> 2 * |m| <= Pow2(bits - 1)) && RoomThroughout(MapApply(m, ops[0]), ops[1..], bits))
  }

  /** Refinement over whole runs of any length: whatever tables are built, moved and shrunk on the
      way, the dictionary holds what a finite map would hold. */
  lemma {:induction false} RunRefines(d: Dict, ops: seq<Op>, d': Dict)
    requires Wf(d) && Reaches(d, ops, d') && RoomThroughout(Contents(d), ops, d.dt.bits)
    ensures Wf(d') && Contents(d') == MapRun(Contents(d), ops)
    decreases |ops|
  {
    if ops != [] {
      ApplySpec(d, ops[0]);
      SizeIsCount(d);
      ApplyRefines(d, ops[0]);
      RunRefines(Apply(d, ops[0]), ops[1..], d');
    }
  }

  /** dictCreate. */
  function Create(dt: DictType): Dict { Dict(dt, EMPTY_TABLE, EMPTY_TABLE, -1, 0) }

  lemma CreateSpec(dt: DictType)
    requires TypeOk(dt)
    ensures Wf(Create(dt)) && Contents(Create(dt)) == map[]
  {}
}
