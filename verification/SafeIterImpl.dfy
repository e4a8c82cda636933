/** dictIterator as it runs: a position in a dictionary object, moved by dictNext. */
module SafeIterImpl {
  import opened DictModel
  import opened SafeIter
  import opened DictImpl

  class Iterator {
    const dict: HashDict
    var table: nat
    var index: int
    var entry: bool
    var next: Option<Key>

    ghost function Position(): Iter
      reads this
    {
      Iter(table, index, entry, next)
    }

    /** dictGetSafeIterator. */
    constructor (dict: HashDict)
      ensures this.dict == dict && Position() == START
    {
      this.dict := dict;
      table, index, entry, next := 0, -1, false, None;
    }

    /** The node saved as nextEntry, looked up in its chain. */
    method SavedChain(c: Chain, k: Key) returns (r: Chain)
      ensures r == From(c, k)
    {
      r := c;
      while r != [] && r[0].key != k
        invariant From(r, k) == From(c, k)
        decreases |r|
      {
        r := r[1..];
      }
    }

    /** Go on to the next bucket or the other table; false at the end. */
    method GoOn() returns (go: bool)
      requires dict.Valid() && IterOk(dict.State(), Position()) && Saved(dict.State(), Position()) == []
      modifies this
      ensures (Position(), go) == Advance(dict.State(), old(Position())) && IterOk(dict.State(), Position())
      ensures go ==> 0 <= index < |TableAt(dict.State(), table).buckets|
    {
      AdvanceGoOrStop(dict.State(), Position());
      entry, next := false, None;
      index := index + 1;
      go := true;
      if index >= (if table == 0 then dict.table0.Length else dict.table1.Length) {
        if dict.rehashidx != -1 && table == 0 {
          table, index := 1, 0;
        } else {
          go := false;
        }
      }
    }

    /** The chain that starts at the saved node, if an entry was returned last. */
    method SavedPart() returns (chain: Chain)
      requires dict.Valid() && IterOk(dict.State(), Position())
      ensures chain == Saved(dict.State(), Position())
    {
      chain := [];
      if entry && next.Some? {
        chain := SavedChain(if table == 0 then dict.table0[index] else dict.table1[index], next.value);
      }
    }

    /** The loop of dictNext. */
    method FindNext() returns (r: Option<Entry>)
      requires dict.Valid() && IterOk(dict.State(), Position())
      modifies this
      ensures (Position(), r) == NextFrom(dict.State(), old(Position()))
    {
      ghost var d, it0 := dict.State(), Position();
      var chain := SavedPart();
      while chain == []
        invariant IterOk(d, Position())
        invariant chain != [] ==> NextFrom(d, it0) == Yield(Position(), chain)
        invariant chain == [] ==> NextFrom(d, it0) == NextFrom(d, Position()) && Saved(d, Position()) == []
        decreases chain == [], 1 - table, Left(d, Position())
      {
        var go := GoOn();
        if !go { return None; }
        chain := if table == 0 then dict.table0[index] else dict.table1[index];
      }
      next := if |chain| == 1 then None else Some(chain[1].key);
      entry := true;
      r := Some(chain[0]);
    }

    /** The first dictNext counts the iterator, which holds up rehash steps. */
    method Register()
      requires dict.Valid() && IterOk(dict.State(), Position())
      modifies dict`iterators
      ensures dict.State() == old(dict.State()).(iterators := old(dict.iterators) + (if index == -1 && table == 0 then 1 else 0))
      ensures dict.Valid() && IterOk(dict.State(), Position())
    {
      RegisterSpec(dict.State(), Position(), dict.iterators + 1);
      if index == -1 && table == 0 {
        dict.iterators := dict.iterators + 1;
        assert dict.State() == old(dict.State()).(iterators := old(dict.iterators) + 1);
      }
    }

    /** dictNext. */
    method GetNext() returns (r: Option<Entry>)
      requires dict.Valid() && IterOk(dict.State(), Position())
      modifies this, dict`iterators
      ensures dict.Valid() && (dict.State(), Position(), r) == Next(old(dict.State()), old(Position()))
      ensures r.Some? ==> Lookup(dict.State(), r.value.key) == Some(r.value.val)
      ensures dict.iterators == old(dict.iterators) + old(if index == -1 && table == 0 then 1 else 0)
    {
      Register();
      NextFromSpec(dict.State(), Position());
      r := FindNext();
    }

    /** dictReleaseIterator for a safe iterator. */
    method Release()
      requires !(index == -1 && table == 0) ==> dict.iterators > 0
      modifies dict`iterators
      ensures dict.iterators == if index == -1 && table == 0 then old(dict.iterators) else old(dict.iterators) - 1
    {
      if !(index == -1 && table == 0) { dict.iterators := dict.iterators - 1; }
    }
  }

  lemma AdvanceGoOrStop(d: Dict, it: Iter)
    requires Wf(d) && IterOk(d, it) && Saved(d, it) == []
    ensures IterOk(d, Advance(d, it).0)
  {
    if Advance(d, it).1 { AdvanceGo(d, it); } else { AdvanceStop(d, it); }
  }
}
