/** Safe iteration: dictNext over a dictionary that the caller may add to, look up in,
    overwrite, and delete the entry just returned from. */
module SafeIter {
  import opened Words
  import opened DictModel

  /** Iterator position. `entry` tells that an entry was returned last; `next` is the key of
      the node saved as nextEntry, in the chain at `index` of table `table`. */
  datatype Iter = Iter(table: nat, index: int, entry: bool, next: Option<Key>)

  const START := Iter(0, -1, false, None)

  function TableAt(d: Dict, i: nat): Table { if i == 0 then d.ht0 else d.ht1 }

  /** The part of a chain from the node with key k on. */
  function From(c: Chain, k: Key): Chain {
    if c == [] then [] else if c[0].key == k then c else From(c[1..], k)
  }

  function HeadKey(c: Chain): Option<Key> { if c == [] then None else Some(c[0].key) }

  /** The chain the saved node starts. */
  function Saved(d: Dict, it: Iter): Chain {
    var b := TableAt(d, it.table).buckets;
    if it.entry && it.next.Some? && 0 <= it.index < |b| then From(b[it.index], it.next.value) else []
  }

  /** The iterator stands where its dictionary can be read on: inside a table or before or
      behind it, with the saved node still linked. */
  ghost predicate IterOk(d: Dict, it: Iter) {
    && it.table <= 1 && -1 <= it.index && (it.table == 1 ==> Rehashing(d) && it.index >= 0)
    && (it.entry ==> 0 <= it.index < |TableAt(d, it.table).buckets|)
    && (it.entry && it.next.Some? ==> HasKey(TableAt(d, it.table).buckets[it.index], it.next.value))
  }

  /** One round of the loop in dictNext that finds no entry: go on with the next bucket, the
      other table, or stop (second result). */
  function Advance(d: Dict, it: Iter): (Iter, bool) {
    var index := it.index + 1;
    if index < |TableAt(d, it.table).buckets| then (it.(index := index, entry := false, next := None), true)
    else if Rehashing(d) && it.table == 0 then (Iter(1, 0, false, None), true)
    else (it.(index := index, entry := false, next := None), false)
  }

  function Left(d: Dict, it: Iter): nat {
    var n := |TableAt(d, it.table).buckets| - it.index;
    if n < 0 then 0 else n
  }

  /** Return the first entry of a chain and save its successor. */
  function Yield(it: Iter, c: Chain): (Iter, Option<Entry>)
    requires c != []
  {
    (it.(entry := true, next := HeadKey(c[1..])), Some(c[0]))
  }

  function NextFrom(d: Dict, it: Iter): (Iter, Option<Entry>)
    requires IterOk(d, it) && (Rehashing(d) ==> d.ht1.buckets != [])
    decreases 1 - it.table, Left(d, it)
  {
    if Saved(d, it) != [] then Yield(it, Saved(d, it))
    else
      var (it1, go) := Advance(d, it);
      if !go then (it1, None)
      else
        var c := TableAt(d, it1.table).buckets[it1.index];
        if c != [] then Yield(it1, c) else NextFrom(d, it1)
  }

  /** dictNext; the first call registers the iterator with the dictionary. */
  function Next(d: Dict, it: Iter): (Dict, Iter, Option<Entry>)
    requires IterOk(d, it) && (Rehashing(d) ==> d.ht1.buckets != [])
  {
    var d' := if it.index == -1 && it.table == 0 then d.(iterators := d.iterators + 1) else d;
    var (it', r) := NextFrom(d', it);
    (d', it', r)
  }

  /** Key x is still to be returned. */
  ghost predicate Pending(d: Dict, it: Iter, x: Key)
    requires Wf(d) && it.table <= 1
  {
    || (it.table == 0 && Rehashing(d) && HasKey(Bucket(d.dt, d.ht1, x), x))
    || PendingHere(d, it, x)
  }

  ghost predicate PendingHere(d: Dict, it: Iter, x: Key)
    requires Wf(d) && it.table <= 1
  {
    var t := TableAt(d, it.table);
    && t.buckets != [] && HasKey(Bucket(d.dt, t, x), x)
    && (Idx(d.dt.hash(x), |t.buckets|) > it.index
        || (Idx(d.dt.hash(x), |t.buckets|) == it.index && HasKey(Saved(d, it), x)))
  }

  lemma {:induction false} FromSpec(c: Chain, k: Key)
    ensures From(c, k) != [] <==> HasKey(c, k)
    ensures From(c, k) != [] ==> From(c, k)[0].key == k
    ensures forall x :: HasKey(From(c, k), x) ==> HasKey(c, x)
    ensures Distinct(c) ==> Distinct(From(c, k))
  {
    if c != [] {
      FromSpec(c[1..], k);
      forall x { HasKeyTail(c, x); }
    }
  }

  /** In a chain without repeated keys, the node after k starts the rest of the chain. */
  lemma {:induction false} FromNext(c: Chain, k: Key)
    requires Distinct(c) && |From(c, k)| > 1
    ensures From(c, From(c, k)[1].key) == From(c, k)[1..]
  {
    var k' := From(c, k)[1].key;
    if c[0].key == k {
      assert c[1..][0].key == k';
    } else {
      DistinctTail(c);
      FromNext(c[1..], k);
      FromSpec(c[1..], k);
      assert HasKey(From(c[1..], k), k');
    }
  }

  lemma SavedIsPending(d: Dict, it: Iter)
    requires Wf(d) && IterOk(d, it)
    ensures Distinct(Saved(d, it))
    ensures forall x :: HasKey(Saved(d, it), x) ==> PendingHere(d, it, x) && HasKey(TableAt(d, it.table).buckets[it.index], x)
  {
    var t := TableAt(d, it.table);
    if Saved(d, it) != [] {
      var c := t.buckets[it.index];
      FromSpec(c, it.next.value);
      assert ChainWf(d.dt, c, it.index, |t.buckets|);
      forall x | HasKey(Saved(d, it), x) ensures PendingHere(d, it, x) && HasKey(c, x) {
        KeyInChain(d.dt, t, it.index, x);
      }
    }
  }

  lemma KeyInChain(dt: DictType, t: Table, i: nat, x: Key)
    requires TableWf(dt, t) && i < |t.buckets| && HasKey(t.buckets[i], x)
    ensures Idx(dt.hash(x), |t.buckets|) == i && Bucket(dt, t, x) == t.buckets[i]
  {
    var c := t.buckets[i];
    assert ChainWf(dt, c, i, |t.buckets|);
    var j :| 0 <= j < |c| && c[j].key == x;
    IdxInRange(dt.hash(x), |t.buckets|);
  }

  /** Yielding the saved node, or the head of a bucket just entered, takes that one key off
      what is pending: `c` is the part of the bucket still to be returned. */
  lemma YieldSpec(d: Dict, it: Iter, c: Chain)
    requires Wf(d) && it.table <= 1 && 0 <= it.index < |TableAt(d, it.table).buckets| && c != []
    requires var b := TableAt(d, it.table).buckets[it.index]; Distinct(b) && c == From(b, c[0].key)
    ensures Saved(d, Yield(it, c).0) == c[1..]
    ensures forall x :: HasKey(c[1..], x) <==> HasKey(c, x) && x != c[0].key
  {
    var b := TableAt(d, it.table).buckets[it.index];
    FromSpec(b, c[0].key);
    DistinctTail(c);
    forall x { HasKeyTail(c, x); }
    if |c| > 1 { FromNext(b, c[0].key); }
  }

  /** What a returned entry takes off: it was pending with its current value, and everything
      else pending stays so. */
  ghost predicate Yields(d: Dict, it: Iter, it': Iter, e: Entry)
    requires Wf(d) && it.table <= 1
  {
    && IterOk(d, it') && Pending(d, it, e.key) && Lookup(d, e.key) == Some(e.val)
    && (forall x :: Pending(d, it', x) <==> Pending(d, it, x) && x != e.key)
  }

  ghost predicate NothingPending(d: Dict, it: Iter)
    requires Wf(d) && it.table <= 1
  {
    forall x :: !Pending(d, it, x)
  }

  lemma {:induction false} FromGet(c: Chain, k: Key)
    requires From(c, k) != []
    ensures Get(c, k) == Some(From(c, k)[0].val)
  {
    if c[0].key != k { FromGet(c[1..], k); }
  }

  /** The value of an entry found in a chain of either table is the value bound to its key. */
  lemma ChainLookup(d: Dict, n: nat, i: nat, k: Key)
    requires Wf(d) && n <= 1 && i < |TableAt(d, n).buckets| && From(TableAt(d, n).buckets[i], k) != []
    ensures Lookup(d, k) == Some(From(TableAt(d, n).buckets[i], k)[0].val)
  {
    var c := TableAt(d, n).buckets[i];
    FromSpec(c, k);
    FromGet(c, k);
    KeyInChain(d.dt, TableAt(d, n), i, k);
    GetIffHasKey(Bucket(d.dt, d.ht0, k), k);
    GetIffHasKey(Bucket(d.dt, d.ht1, k), k);
  }

  /** Key x is in the bucket the iterator stands on. */
  ghost predicate OnBucket(d: Dict, it: Iter, x: Key) {
    var t := TableAt(d, it.table);
    0 <= it.index < |t.buckets| && HasKey(t.buckets[it.index], x)
  }

  lemma AdvanceGo(d: Dict, it: Iter)
    requires Wf(d) && IterOk(d, it) && Saved(d, it) == [] && Advance(d, it).1
    ensures var it1 := Advance(d, it).0;
            && IterOk(d, it1) && 0 <= it1.index < |TableAt(d, it1.table).buckets|
            && (forall x :: Pending(d, it, x) <==> Pending(d, it1, x) || OnBucket(d, it1, x))
            && (forall x :: OnBucket(d, it1, x) ==> !Pending(d, it1, x))
  {
    var it1 := Advance(d, it).0;
    var t1 := TableAt(d, it1.table);
    forall x
      ensures Pending(d, it, x) <==> Pending(d, it1, x) || OnBucket(d, it1, x)
      ensures OnBucket(d, it1, x) ==> !Pending(d, it1, x)
    {
      if OnBucket(d, it1, x) { KeyInChain(d.dt, t1, it1.index, x); }
      IdxInRange(d.dt.hash(x), |t1.buckets|);
      if d.ht0.buckets != [] { IdxInRange(d.dt.hash(x), |d.ht0.buckets|); }
    }
  }

  lemma AdvanceStop(d: Dict, it: Iter)
    requires Wf(d) && IterOk(d, it) && Saved(d, it) == [] && !Advance(d, it).1
    ensures NothingPending(d, it) && IterOk(d, Advance(d, it).0) && NothingPending(d, Advance(d, it).0)
  {
    var t := TableAt(d, it.table);
    forall x ensures !Pending(d, it, x) {
      if t.buckets != [] { IdxInRange(d.dt.hash(x), |t.buckets|); }
    }
    forall x ensures !Pending(d, Advance(d, it).0, x) {
      if t.buckets != [] { IdxInRange(d.dt.hash(x), |t.buckets|); }
    }
  }

  lemma YieldSaved(d: Dict, it: Iter)
    requires Wf(d) && IterOk(d, it) && Saved(d, it) != []
    ensures var c := Saved(d, it); Yields(d, it, Yield(it, c).0, c[0])
  {
    var c := Saved(d, it);
    var b := TableAt(d, it.table).buckets[it.index];
    SavedIsPending(d, it);
    FromSpec(b, it.next.value);
    assert ChainWf(d.dt, b, it.index, |TableAt(d, it.table).buckets|);
    YieldSpec(d, it, c);
    ChainLookup(d, it.table, it.index, c[0].key);
    assert HasKey(c, c[0].key);
    if |c| > 1 { assert HasKey(c, c[1].key); }
  }

  lemma YieldBucket(d: Dict, it: Iter, it1: Iter)
    requires Wf(d) && IterOk(d, it) && Saved(d, it) == [] && Advance(d, it) == (it1, true)
    requires 0 <= it1.index < |TableAt(d, it1.table).buckets| && TableAt(d, it1.table).buckets[it1.index] != []
    ensures var c := TableAt(d, it1.table).buckets[it1.index]; Yields(d, it, Yield(it1, c).0, c[0])
  {
    var c := TableAt(d, it1.table).buckets[it1.index];
    AdvanceGo(d, it);
    assert ChainWf(d.dt, c, it1.index, |TableAt(d, it1.table).buckets|);
    YieldSpec(d, it1, c);
    ChainLookup(d, it1.table, it1.index, c[0].key);
    assert HasKey(c, c[0].key);
    var it' := Yield(it1, c).0;
    forall x ensures Pending(d, it', x) <==> Pending(d, it, x) && x != c[0].key {
      if HasKey(c, x) { KeyInChain(d.dt, TableAt(d, it1.table), it1.index, x); }
    }
    if |c| > 1 { assert HasKey(c, c[1].key); }
  }

  lemma {:induction false} NextFromSpec(d: Dict, it: Iter)
    requires Wf(d) && IterOk(d, it)
    ensures var (it', r) := NextFrom(d, it);
            && IterOk(d, it')
            && (if r.Some? then Yields(d, it, it', r.value) else NothingPending(d, it) && NothingPending(d, it'))
    decreases 1 - it.table, Left(d, it)
  {
    if Saved(d, it) != [] {
      YieldSaved(d, it);
    } else if !Advance(d, it).1 {
      AdvanceStop(d, it);
    } else {
      var it1 := Advance(d, it).0;
      AdvanceGo(d, it);
      if TableAt(d, it1.table).buckets[it1.index] != [] {
        YieldBucket(d, it, it1);
      } else {
        NextFromSpec(d, it1);
      }
    }
  }

  // ------------------------------------------------- operations while iterating

  /** The position stays readable and no key of the set changes its status. */
  ghost predicate Undisturbed(d: Dict, d': Dict, it: Iter, keys: set<Key>)
    requires Wf(d) && it.table <= 1
  {
    Wf(d') && IterOk(d', it) && forall x :: x in keys ==> (Pending(d', it, x) <==> Pending(d, it, x))
  }

  /** Starting a rehash under the iterator moves nothing. */
  lemma GrowUndisturbed(d: Dict, it: Iter, canResize: bool)
    requires Wf(d) && IterOk(d, it)
    ensures Undisturbed(d, ExpandIfNeeded(d, canResize).0, it, Contents(d).Keys)
  {
    var d' := ExpandIfNeeded(d, canResize).0;
    ExpandIfNeededSpec(d, canResize);
    NextPowerSpec(INITIAL_SIZE, d.dt.bits);
    NextPowerSpec(d.ht0.used * 2, d.dt.bits);
    if d' != d {
      if d.ht0.buckets == [] {
        forall x ensures x !in Contents(d) { ContentsLookup(d, x); }
      } else {
        FreshTableWf(d.dt, |d'.ht1.buckets|);
        assert d'.ht0 == d.ht0 && Saved(d', it) == Saved(d, it);
      }
    }
  }

  /** Whether a chain change leaves the part saved by the iterator alone, up to key k. */
  ghost predicate SameFrom(c: Chain, c': Chain, n: Key, k: Key) {
    && (HasKey(c, n) ==> HasKey(c', n))
    && forall x :: x != k ==> (HasKey(From(c', n), x) <==> HasKey(From(c, n), x))
  }

  lemma PushSameFrom(e: Entry, c: Chain, n: Key)
    requires HasKey(c, n) && !HasKey(c, e.key)
    ensures SameFrom(c, [e] + c, n, e.key)
  {
    assert ([e] + c)[1..] == c;
    HasKeyTail([e] + c, n);
  }

  lemma {:induction false} WithoutSameFrom(c: Chain, k: Key, n: Key)
    requires Distinct(c) && n != k
    ensures SameFrom(c, Without(c, k), n, k)
  {
    if c != [] {
      var t := c[1..];
      DistinctTail(c);
      WithoutSameFrom(t, k, n);
      HasKeyTail(c, n);
      if c[0].key == k {
        assert From(c, n) == From(t, n);
      } else {
        var w := Without(c, k);
        assert w[1..] == Without(t, k);
        HasKeyTail(w, n);
        if c[0].key == n {
          WithoutSpec(c, k);
          forall x ensures x != k ==> (HasKey(w, x) <==> HasKey(c, x)) {
            GetIffHasKey(w, x);
            GetIffHasKey(c, x);
          }
        }
      }
    }
  }

  lemma {:induction false} WithValSameFrom(c: Chain, k: Key, v: Value, n: Key)
    ensures |From(WithVal(c, k, v), n)| == |From(c, n)|
    ensures forall i :: 0 <= i < |From(c, n)| ==> From(WithVal(c, k, v), n)[i].key == From(c, n)[i].key
  {
    WithValSpec(c, k, v);
    if c != [] && c[0].key != n {
      WithValSameFrom(c[1..], k, v, n);
      assert c[0].key != k ==> WithVal(c, k, v)[1..] == WithVal(c[1..], k, v);
      assert c[0].key == k ==> WithVal(c, k, v)[1..] == c[1..];
    }
  }

  lemma SameKeysSameFrom(c: Chain, c': Chain, n: Key, k: Key)
    requires |c| == |c'| && forall i :: 0 <= i < |c| ==> c'[i].key == c[i].key
    requires |From(c', n)| == |From(c, n)| && forall i :: 0 <= i < |From(c, n)| ==> From(c', n)[i].key == From(c, n)[i].key
    ensures SameFrom(c, c', n, k)
  {}

  /** Changing one chain of one table, for key k only. */
  lemma ChainChangeUndisturbed(d: Dict, d': Dict, it: Iter, n: nat, i: nat, k: Key, c': Chain, used: nat)
    requires Wf(d) && Wf(d') && IterOk(d, it) && n <= 1 && i < |TableAt(d, n).buckets| && d'.dt == d.dt
    requires TableAt(d', n) == Table(TableAt(d, n).buckets[i := c'], used)
    requires TableAt(d', 1 - n) == TableAt(d, 1 - n) && d'.rehashidx == d.rehashidx
    requires forall x :: x != k ==> (HasKey(c', x) <==> HasKey(TableAt(d, n).buckets[i], x))
    requires it.entry && it.next.Some? && it.table == n && it.index == i
             ==> SameFrom(TableAt(d, n).buckets[i], c', it.next.value, k)
    ensures Undisturbed(d, d', it, Contents(d).Keys - {k})
  {
    forall x | x != k ensures Pending(d', it, x) <==> Pending(d, it, x) {
      BucketUpdate(d.dt, TableAt(d, n), i, c', used, x);
      assert HasKey(Bucket(d.dt, TableAt(d', n), x), x) <==> HasKey(Bucket(d.dt, TableAt(d, n), x), x);
      assert HasKey(Saved(d', it), x) <==> HasKey(Saved(d, it), x);
    }
  }

  lemma InsertUndisturbed(d: Dict, it: Iter, e: Entry)
    requires Wf(d) && IterOk(d, it) && d.ht0.buckets != [] && Lookup(d, e.key) == None
    ensures Undisturbed(d, Insert(d, e), it, Contents(d).Keys - {e.key})
  {
    InsertSpec(d, e);
    var n := if Rehashing(d) then 1 else 0;
    var t := TableAt(d, n);
    var i := Idx(d.dt.hash(e.key), |t.buckets|);
    IdxInRange(d.dt.hash(e.key), |t.buckets|);
    var c := t.buckets[i];
    GetIffHasKey(Bucket(d.dt, d.ht0, e.key), e.key);
    GetIffHasKey(Bucket(d.dt, d.ht1, e.key), e.key);
    assert ([e] + c)[1..] == c;
    forall x { HasKeyTail([e] + c, x); }
    if it.entry && it.next.Some? && it.table == n && it.index == i {
      PushSameFrom(e, c, it.next.value);
    }
    ChainChangeUndisturbed(d, Insert(d, e), it, n, i, e.key, [e] + c, t.used + 1);
  }

  /** Adding keys leaves every key already there as it is for the iterator. */
  lemma AddUndisturbed(d: Dict, it: Iter, k: Key, v: Value, canResize: bool)
    requires Wf(d) && IterOk(d, it) && d.iterators > 0
    ensures Undisturbed(d, Add(d, k, v, canResize).0, it, Contents(d).Keys - {k})
    ensures k in Contents(d) ==> Undisturbed(d, Add(d, k, v, canResize).0, it, Contents(d).Keys)
  {
    var d2 := ExpandIfNeeded(d, canResize).0;
    ExpandIfNeededSpec(d, canResize);
    GrowUndisturbed(d, it, canResize);
    SameMapContents(d, d2);
    ContentsLookup(d2, k);
    if ExpandIfNeeded(d, canResize).1 && Lookup(d2, k) == None {
      InsertUndisturbed(d2, it, Entry(k, v));
    }
  }

  lemma UnlinkUndisturbed(d: Dict, it: Iter, k: Key, n: nat)
    requires Wf(d) && IterOk(d, it) && n <= 1 && it.next != Some(k)
    requires TableAt(d, n).buckets != [] && HasKey(Bucket(d.dt, TableAt(d, n), k), k)
    ensures var d' := if n == 0 then d.(ht0 := Unlink(d.dt, d.ht0, k)) else d.(ht1 := Unlink(d.dt, d.ht1, k));
            Wf(d') ==> Undisturbed(d, d', it, Contents(d).Keys - {k})
  {
    var t := TableAt(d, n);
    var d' := if n == 0 then d.(ht0 := Unlink(d.dt, t, k)) else d.(ht1 := Unlink(d.dt, t, k));
    var i := Idx(d.dt.hash(k), |t.buckets|);
    IdxInRange(d.dt.hash(k), |t.buckets|);
    var c := t.buckets[i];
    WithoutSpec(c, k);
    forall x ensures x != k ==> (HasKey(Without(c, k), x) <==> HasKey(c, x)) {
      GetIffHasKey(Without(c, k), x);
      GetIffHasKey(c, x);
    }
    if Wf(d') {
      if it.entry && it.next.Some? && it.table == n && it.index == i {
        WithoutSameFrom(c, k, it.next.value);
      }
      ChainChangeUndisturbed(d, d', it, n, i, k, Without(c, k), TableAt(d', n).used);
    }
  }

  /** With an iterator running no rehash step comes first: a deletion unlinks at most one entry. */
  lemma DeleteUnlinks(d: Dict, k: Key)
    requires Wf(d) && d.iterators > 0
    ensures var d', t0, t1 := Delete(d, k).0, d.ht0, d.ht1;
      || d' == d
      || (t0.buckets != [] && HasKey(Bucket(d.dt, t0, k), k) && d' == d.(ht0 := Unlink(d.dt, t0, k)))
      || (t1.buckets != [] && HasKey(Bucket(d.dt, t1, k), k) && d' == d.(ht1 := Unlink(d.dt, t1, k)))
  {
    GetIffHasKey(Bucket(d.dt, d.ht0, k), k);
    GetIffHasKey(Bucket(d.dt, d.ht1, k), k);
  }

  /** Deleting a key other than the saved one leaves every other key as it is for the iterator. */
  lemma DeleteUndisturbed(d: Dict, it: Iter, k: Key)
    requires Wf(d) && IterOk(d, it) && d.iterators > 0 && it.next != Some(k)
    ensures Undisturbed(d, Delete(d, k).0, it, Contents(d).Keys - {k})
  {
    DeleteSpec(d, k);
    DeleteUnlinks(d, k);
    var d' := Delete(d, k).0;
    if d' != d {
      if d' == d.(ht0 := Unlink(d.dt, d.ht0, k)) && HasKey(Bucket(d.dt, d.ht0, k), k) && d.ht0.buckets != [] {
        UnlinkUndisturbed(d, it, k, 0);
      } else {
        UnlinkUndisturbed(d, it, k, 1);
      }
    }
  }

  lemma SetValUndisturbedBut(d: Dict, d': Dict, it: Iter, k: Key, v: Value, n: nat, y: Key)
    requires Wf(d) && IterOk(d, it) && n <= 1 && Wf(d')
    requires TableAt(d, n).buckets != [] && HasKey(Bucket(d.dt, TableAt(d, n), k), k)
    requires d' == if n == 0 then d.(ht0 := SetVal(d.dt, d.ht0, k, v)) else d.(ht1 := SetVal(d.dt, d.ht1, k, v))
    ensures Undisturbed(d, d', it, Contents(d).Keys - {y})
  {
    var t := TableAt(d, n);
    var i := Idx(d.dt.hash(k), |t.buckets|);
    IdxInRange(d.dt.hash(k), |t.buckets|);
    var c, c' := t.buckets[i], WithVal(t.buckets[i], k, v);
    WithValSpec(c, k, v);
    if it.entry && it.next.Some? && it.table == n && it.index == i {
      WithValSameFrom(c, k, v, it.next.value);
      SameKeysSameFrom(c, c', it.next.value, y);
    }
    ChainChangeUndisturbed(d, d', it, n, i, y, c', t.used);
  }

  lemma SetValUndisturbed(d: Dict, d': Dict, it: Iter, k: Key, v: Value, n: nat)
    requires Wf(d) && IterOk(d, it) && n <= 1 && Wf(d')
    requires TableAt(d, n).buckets != [] && HasKey(Bucket(d.dt, TableAt(d, n), k), k)
    requires d' == if n == 0 then d.(ht0 := SetVal(d.dt, d.ht0, k, v)) else d.(ht1 := SetVal(d.dt, d.ht1, k, v))
    ensures Undisturbed(d, d', it, Contents(d).Keys)
  {
    SetValUndisturbedBut(d, d', it, k, v, n, k);
    SetValUndisturbedBut(d, d', it, k, v, n, k + ".");
  }

  /** Overwriting a value, or adding a key, leaves every key already there as it is. */
  lemma ReplaceUndisturbed(d: Dict, it: Iter, k: Key, v: Value, canResize: bool)
    requires Wf(d) && IterOk(d, it) && d.iterators > 0
    ensures Undisturbed(d, Replace(d, k, v, canResize).0, it, Contents(d).Keys - {k})
    ensures k in Contents(d) ==> Undisturbed(d, Replace(d, k, v, canResize).0, it, Contents(d).Keys)
  {
    AddUndisturbed(d, it, k, v, canResize);
    AddSpec(d, k, v, canResize);
    ReplaceSpec(d, k, v, canResize);
    var (d2, added) := Add(d, k, v, canResize);
    var d' := Replace(d, k, v, canResize).0;
    GetIffHasKey(Bucket(d2.dt, d2.ht0, k), k);
    GetIffHasKey(Bucket(d2.dt, d2.ht1, k), k);
    if !added {
      if HasKey(Bucket(d2.dt, d2.ht0, k), k) {
        SetValUndisturbed(d2, d', it, k, v, 0);
      } else if HasKey(Bucket(d2.dt, d2.ht1, k), k) {
        SetValUndisturbed(d2, d', it, k, v, 1);
      }
    }
  }

  // ------------------------------------------------- whole iterations

  datatype Event =
    | GetNext
    | DoAdd(k: Key, v: Value, canResize: bool)
    | DoReplace(k: Key, v: Value, canResize: bool)
    | DoFind(k: Key)
    | DeleteLast

  /** An iteration in progress: the entry last returned while it may be deleted, all keys
      returned so far, the keys present since the start, and whether the end was reported. */
  datatype Session = Session(d: Dict, it: Iter, last: Option<Key>, returned: seq<Key>, kept: set<Key>, done: bool)

  function AfterNext(s: Session): Session
    requires IterOk(s.d, s.it) && (Rehashing(s.d) ==> s.d.ht1.buckets != [])
  {
    var (d, it, r) := Next(s.d, s.it);
    match r
    case Some(e) => s.(d := d, it := it, last := Some(e.key), returned := s.returned + [e.key])
    case None => s.(d := d, it := it, last := None, done := true)
  }

  /** The first dictNext of a safe iterator on dictionary d. */
  ghost function Begin(d: Dict): Session
    requires Wf(d)
  {
    AfterNext(Session(d, START, None, [], Contents(d).Keys, false))
  }

  ghost function After(s: Session, ev: Event): Session
    requires Wf(s.d) && IterOk(s.d, s.it)
  {
    match ev
    case GetNext => AfterNext(s)
    case DoAdd(k, v, canResize) => s.(d := Add(s.d, k, v, canResize).0)
    case DoReplace(k, v, canResize) => s.(d := Replace(s.d, k, v, canResize).0)
    case DoFind(k) => s.(d := Find(s.d, k).0)
    case DeleteLast =>
      if s.last == None then s
      else s.(d := Delete(s.d, s.last.value).0, last := None, kept := s.kept - {s.last.value})
  }

  /** Keys present throughout are either still pending or were returned exactly once. */
  ghost predicate OnceEach(d: Dict, it: Iter, returned: seq<Key>, kept: set<Key>)
    requires Wf(d) && it.table <= 1
  {
    forall x :: x in kept ==> multiset(returned)[x] == if Pending(d, it, x) then 0 else 1
  }

  ghost predicate SessionOk(s: Session) {
    && Wf(s.d) && IterOk(s.d, s.it) && s.d.iterators > 0
    && s.kept <= Contents(s.d).Keys && OnceEach(s.d, s.it, s.returned, s.kept)
    && (s.last.Some? ==> s.it.next != s.last)
    && (s.done ==> forall x :: x in s.kept ==> !Pending(s.d, s.it, x))
  }

  /** Registering an iterator is invisible to lookups and positions. */
  lemma RegisterSpec(d: Dict, it: Iter, n: nat)
    requires Wf(d) && it.table <= 1
    ensures var d' := d.(iterators := n);
            && Wf(d') && Contents(d') == Contents(d) && (IterOk(d, it) ==> IterOk(d', it))
            && (forall x :: Pending(d', it, x) <==> Pending(d, it, x))
  {
    var d' := d.(iterators := n);
    assert forall x :: Lookup(d', x) == Lookup(d, x);
    SameMapContents(d, d');
    assert Saved(d', it) == Saved(d, it);
  }

  lemma YieldKeepsOnce(d: Dict, it: Iter, it': Iter, e: Entry, returned: seq<Key>, kept: set<Key>)
    requires Wf(d) && it.table <= 1 && OnceEach(d, it, returned, kept) && Yields(d, it, it', e)
    ensures OnceEach(d, it', returned + [e.key], kept)
  {}

  lemma StopKeepsOnce(d: Dict, it: Iter, it': Iter, returned: seq<Key>, kept: set<Key>)
    requires Wf(d) && it.table <= 1 && it'.table <= 1 && OnceEach(d, it, returned, kept)
    requires NothingPending(d, it) && NothingPending(d, it')
    ensures OnceEach(d, it', returned, kept)
  {}

  /** The key just returned is not the one saved. */
  lemma SavedIsLater(d: Dict, it: Iter, it': Iter, e: Entry)
    requires Wf(d) && it.table <= 1 && Yields(d, it, it', e) && it'.entry
    ensures it'.next != Some(e.key)
  {
    if it'.next == Some(e.key) {
      var b := TableAt(d, it'.table).buckets[it'.index];
      FromSpec(b, e.key);
      SavedIsPending(d, it');
    }
  }

  lemma {:induction false} YieldedEntry(d: Dict, it: Iter)
    requires Wf(d) && IterOk(d, it)
    ensures NextFrom(d, it).1.Some? ==> NextFrom(d, it).0.entry
    decreases 1 - it.table, Left(d, it)
  {
    if Saved(d, it) == [] && Advance(d, it).1 {
      var it1 := Advance(d, it).0;
      if TableAt(d, it1.table).buckets[it1.index] == [] { YieldedEntry(d, it1); }
    }
  }

  lemma NextOk(s: Session)
    requires Wf(s.d) && IterOk(s.d, s.it) && s.kept <= Contents(s.d).Keys && OnceEach(s.d, s.it, s.returned, s.kept)
    requires s.d.iterators > 0 || s.it == START
    requires s.done ==> forall x :: x in s.kept ==> !Pending(s.d, s.it, x)
    ensures SessionOk(AfterNext(s))
  {
    var d := if s.it.index == -1 && s.it.table == 0 then s.d.(iterators := s.d.iterators + 1) else s.d;
    RegisterSpec(s.d, s.it, d.iterators);
    NextFromSpec(d, s.it);
    YieldedEntry(d, s.it);
    var (it, r) := NextFrom(d, s.it);
    if r.Some? {
      YieldKeepsOnce(d, s.it, it, r.value, s.returned, s.kept);
      SavedIsLater(d, s.it, it, r.value);
    } else {
      StopKeepsOnce(d, s.it, it, s.returned, s.kept);
    }
  }

  lemma BeginOk(d: Dict)
    requires Wf(d)
    ensures SessionOk(Begin(d))
  {
    forall x | x in Contents(d) ensures Pending(d, START, x) {
      ContentsLookup(d, x);
      GetIffHasKey(Bucket(d.dt, d.ht0, x), x);
      GetIffHasKey(Bucket(d.dt, d.ht1, x), x);
    }
    NextOk(Session(d, START, None, [], Contents(d).Keys, false));
  }

  lemma UndisturbedOk(s: Session, d': Dict, keys: set<Key>, kept: set<Key>)
    requires SessionOk(s) && Undisturbed(s.d, d', s.it, keys) && kept <= keys && kept <= s.kept
    requires d'.iterators > 0 && kept <= Contents(d').Keys
    ensures SessionOk(s.(d := d', kept := kept)) && SessionOk(s.(d := d', last := None, kept := kept))
  {}

  lemma AddOk(s: Session, k: Key, v: Value, canResize: bool)
    requires SessionOk(s)
    ensures SessionOk(After(s, DoAdd(k, v, canResize)))
  {
    var all := Contents(s.d).Keys;
    AddUndisturbed(s.d, s.it, k, v, canResize);
    AddSpec(s.d, k, v, canResize);
    UndisturbedOk(s, Add(s.d, k, v, canResize).0, if k in all then all else all - {k}, s.kept);
  }

  lemma ReplaceHolds(d: Dict, k: Key, v: Value, canResize: bool)
    requires Wf(d)
    ensures var d' := Replace(d, k, v, canResize).0;
      Wf(d') && d'.iterators == d.iterators && Contents(d).Keys <= Contents(d').Keys
  {
    ReplaceKeeps(d, k, v, canResize);
    ReplaceSpec(d, k, v, canResize);
    KeepsKeys(d, Replace(d, k, v, canResize).0, k);
  }

  lemma ReplaceOk(s: Session, k: Key, v: Value, canResize: bool)
    requires SessionOk(s)
    ensures SessionOk(After(s, DoReplace(k, v, canResize)))
  {
    var all, d' := Contents(s.d).Keys, Replace(s.d, k, v, canResize).0;
    ReplaceUndisturbed(s.d, s.it, k, v, canResize);
    ReplaceHolds(s.d, k, v, canResize);
    UndisturbedOk(s, d', if k in all then all else all - {k}, s.kept);
  }

  lemma DeleteOk(s: Session)
    requires SessionOk(s)
    ensures SessionOk(After(s, DeleteLast))
  {
    if s.last.Some? {
      var k := s.last.value;
      DeleteUndisturbed(s.d, s.it, k);
      DeleteSpec(s.d, k);
      UndisturbedOk(s, Delete(s.d, k).0, Contents(s.d).Keys - {k}, s.kept - {k});
    }
  }

  lemma FindOk(s: Session, k: Key)
    requires SessionOk(s)
    ensures SessionOk(After(s, DoFind(k)))
  {
    FindSpec(s.d, k);
  }

  /** Every event keeps the session invariant. */
  lemma AfterOk(s: Session, ev: Event)
    requires SessionOk(s)
    ensures SessionOk(After(s, ev))
  {
    match ev
    case GetNext => NextOk(s);
    case DoAdd(k, v, canResize) => AddOk(s, k, v, canResize);
    case DoReplace(k, v, canResize) => ReplaceOk(s, k, v, canResize);
    case DoFind(k) => FindOk(s, k);
    case DeleteLast => DeleteOk(s);
  }

  lemma KeepsKeys(d: Dict, d': Dict, k: Key)
    requires Wf(d) && Keeps(d, d', {k}) && (k in Contents(d) ==> k in Contents(d'))
    ensures Contents(d).Keys <= Contents(d').Keys
  {
    forall x | x in Contents(d) ensures x in Contents(d') {
      if x != k { assert x in Contents(d) - {k}; assert x in Contents(d') - {k}; }
    }
  }

  ghost predicate Iterates(s: Session, evs: seq<Event>, s': Session)
    requires SessionOk(s)
    decreases |evs|
  {
    if evs == [] then s' == s else AfterOk(s, evs[0]); Iterates(After(s, evs[0]), evs[1..], s')
  }

  lemma {:induction false} IteratesOk(s: Session, evs: seq<Event>, s': Session)
    requires SessionOk(s) && Iterates(s, evs, s')
    ensures SessionOk(s')
    decreases |evs|
  {
    if evs != [] {
      AfterOk(s, evs[0]);
      IteratesOk(After(s, evs[0]), evs[1..], s');
    }
  }

  ghost predicate IteratesFrom(d: Dict, evs: seq<Event>, s: Session)
    requires Wf(d)
  {
    BeginOk(d);
    Iterates(Begin(d), evs, s)
  }

  lemma OnlyDeletionDrops(s: Session, ev: Event)
    requires Wf(s.d) && IterOk(s.d, s.it) && !ev.DeleteLast?
    ensures After(s, ev).kept == s.kept
  {}

  lemma DeletionDrops(s: Session, x: Key)
    requires Wf(s.d) && IterOk(s.d, s.it) && x in s.kept && x !in After(s, DeleteLast).kept
    ensures After(s, DeleteLast).d == Delete(s.d, x).0
  {}

  ghost predicate Has(d: Dict, x: Key) { Wf(d) && x in Contents(d) }

  lemma KeptWhilePresent(s: Session, ev: Event, x: Key)
    requires Wf(s.d) && IterOk(s.d, s.it) && x in s.kept && Has(After(s, ev).d, x)
    ensures x in After(s, ev).kept
  {
    if !ev.DeleteLast? {
      OnlyDeletionDrops(s, ev);
    } else if x !in After(s, DeleteLast).kept {
      DeletionDrops(s, x);
      DeleteSpec(s.d, x);
      assert false;
    }
  }

  /** Key x is in the dictionary from state s on, after every event. */
  ghost predicate Throughout(s: Session, evs: seq<Event>, x: Key)
    requires SessionOk(s)
    decreases |evs|
  {
    Has(s.d, x) && (evs != [] ==> (AfterOk(s, evs[0]); Throughout(After(s, evs[0]), evs[1..], x)))
  }

  lemma {:induction false} ThroughoutKept(s: Session, evs: seq<Event>, s': Session, x: Key)
    requires SessionOk(s) && Iterates(s, evs, s') && x in s.kept && Throughout(s, evs, x)
    ensures x in s'.kept
    decreases |evs|
  {
    if evs != [] {
      AfterOk(s, evs[0]);
      KeptWhilePresent(s, evs[0], x);
      ThroughoutKept(After(s, evs[0]), evs[1..], s', x);
    }
  }

  /** Safe iteration: over every mix of additions, lookups, overwrites and deletions of the
      entry just returned, once the end is reported every key that was there from the start
      and was not deleted has been returned exactly once. */
  lemma SafeIterationOnce(d: Dict, evs: seq<Event>, s: Session, x: Key)
    requires Wf(d) && IteratesFrom(d, evs, s) && s.done
    requires x in Contents(d) && (BeginOk(d); Throughout(Begin(d), evs, x))
    ensures multiset(s.returned)[x] == 1
  {
    BeginOk(d);
    IteratesOk(Begin(d), evs, s);
    ThroughoutKept(Begin(d), evs, s, x);
  }
}
