/** The database and its indexes, updated in place. */
module KeyspaceImpl {
  import opened Slots
  import opened KeySlot
  import opened Keyspace
  import opened Sets

  // ---------------------------------------------------------------- the ordered index

  /** The order of byte strings. */
  predicate Leq(a: string, b: string) {
    a == "" || (b != "" && (a[0] < b[0] || (a[0] == b[0] && Leq(a[1..], b[1..]))))
  }

  lemma {:induction false} LeqTotal(a: string, b: string)
    ensures Leq(a, b) || Leq(b, a)
  {
    if a != "" && b != "" && a[0] == b[0] {
      LeqTotal(a[1..], b[1..]);
    }
  }

  lemma {:induction false} LeqTransitive(a: string, b: string, c: string)
    requires Leq(a, b) && Leq(b, c)
    ensures Leq(a, c)
  {
    if a != "" && a[0] == b[0] && b[0] == c[0] {
      LeqTransitive(a[1..], b[1..], c[1..]);
    }
  }

  lemma {:induction false} PrefixFirst(p: string, k: string)
    ensures Leq(p, p + k)
  {
    if p != "" {
      assert (p + k)[1..] == p[1..] + k;
      PrefixFirst(p[1..], k);
    }
  }

  /** What lies between a prefix and a string that begins with it begins with it too. */
  lemma {:induction false} PrefixRange(p: string, x: string, k: string)
    requires Leq(p, x) && Leq(x, p + k)
    ensures |x| >= |p| && x[..|p|] == p
  {
    if p != "" {
      assert (p + k)[0] == p[0] && (p + k)[1..] == p[1..] + k;
      PrefixRange(p[1..], x[1..], k);
      assert x[..|p|] == [x[0]] + x[1..][..|p| - 1];
    }
  }

  /** The least element of the index that is not below `from`. */
  ghost predicate IsFirst(index: set<string>, from: string, x: string) {
    x in index && Leq(from, x) && forall y :: y in index && Leq(from, y) ==> Leq(x, y)
  }

  /** raxSeek with ">=" and the step to the element found. */
  method Seek(index: set<string>, from: string) returns (found: bool, x: string)
    ensures found ==> IsFirst(index, from, x)
    ensures !found ==> forall y :: y in index ==> !Leq(from, y)
  {
    found, x := false, "";
    var rest := index;
    while rest != {}
      invariant rest <= index && (found ==> x in index && Leq(from, x))
      invariant forall y :: y in index - rest && Leq(from, y) ==> found && Leq(x, y)
      decreases rest
    {
      var y :| y in rest;
      rest := rest - {y};
      LeqTotal(y, x);
      if Leq(from, y) && (!found || Leq(y, x)) {
        forall z | z in index - rest && Leq(from, z) ensures Leq(y, z) {
          if z != y {
            LeqTransitive(y, x, z);
          } else {
            LeqTotal(y, y);
          }
        }
        found, x := true, y;
      }
    }
  }

  // ---------------------------------------------------------------- the first key of a slot

  lemma SlotHasKey(c: Config, s: Space, slot: SlotNumber) returns (k: string)
    requires Agree(c, s) && c.cluster && s.count[slot] != 0
    ensures k in s.dict && c.slot(k) == slot
  {
    assert s.count[slot] == |KeysIn(c, s.dict.Keys, slot)|;
    k :| k in KeysIn(c, s.dict.Keys, slot);
  }

  lemma FirstOfSlot(c: Config, s: Space, slot: SlotNumber, x: string)
    requires Agree(c, s) && c.cluster && s.count[slot] != 0 && IsFirst(s.index, Prefix(slot), x)
    ensures |x| >= 2 && x[2..] in s.dict && c.slot(x[2..]) == slot
  {
    var k := SlotHasKey(c, s, slot);
    PrefixFirst(Prefix(slot), k);
    assert Indexed(c, k) in s.index;
    PrefixRange(Prefix(slot), x, k);
    var k' := x[2..];
    assert x == Indexed(c, k') && x == x[..2] + k';
    PrefixInjective(slot, c.slot(k'), k');
  }

  lemma SeekFinds(c: Config, s: Space, slot: SlotNumber)
    requires Agree(c, s) && c.cluster && s.count[slot] != 0
    ensures exists y :: y in s.index && Leq(Prefix(slot), y)
  {
    var k := SlotHasKey(c, s, slot);
    PrefixFirst(Prefix(slot), k);
    assert Indexed(c, k) in s.index;
  }

  /** All keys but those of one slot. */
  ghost function Outside<V>(c: Config, m: map<string, V>, slot: nat): map<string, V> { map k | k in m && c.slot(k) != slot :: m[k] }

  lemma OutsideDeleted(c: Config, s: Space, slot: SlotNumber, k: string)
    requires |s.count| == CLUSTER_SLOTS && c.slot(k) == slot
    ensures Outside(c, DbDelete(c, s, k).dict, slot) == Outside(c, s.dict, slot)
    ensures Outside(c, DbDelete(c, s, k).expires, slot) == Outside(c, s.expires, slot)
    ensures c.cluster && k in s.dict ==> DbDelete(c, s, k).count[slot] == s.count[slot] - 1
  {}

  lemma NoneInSlot(c: Config, keys: set<string>, slot: SlotNumber)
    requires |KeysIn(c, keys, slot)| == 0
    ensures forall k :: k in keys ==> c.slot(k) != slot
  {
    forall k | k in keys ensures c.slot(k) != slot {
      assert k !in KeysIn(c, keys, slot);
    }
  }

  lemma NoneLeft(c: Config, s: Space, slot: SlotNumber)
    requires Agree(c, s) && c.cluster && s.count[slot] == 0
    ensures s.dict == Outside(c, s.dict, slot) && s.expires == Outside(c, s.expires, slot)
  {
    NoneInSlot(c, s.dict.Keys, slot);
  }

  lemma CountNatural(c: Config, s: Space, slot: SlotNumber)
    requires Agree(c, s) && c.cluster
    ensures s.count[slot] >= 0
  {
    assert s.count[slot] == |KeysIn(c, s.dict.Keys, slot)|;
  }

  // ---------------------------------------------------------------- the class

  class Database {
    const config: Config
    var dict: map<string, Obj>
    var expires: map<string, int>
    const count: array<int>
    var index: set<string>

    constructor (config: Config)
      ensures Valid() && fresh(count) && this.config == config && State() == Fresh()
    {
      this.config := config;
      dict, expires, index := map[], map[], {};
      count := new int[CLUSTER_SLOTS](_ => 0);
      new;
      assert count[..] == Fresh().count;
      EmptyAgrees(config, Fresh());
    }

    ghost function State(): Space
      reads this, count
    {
      Space(dict, expires, count[..], index)
    }

    ghost predicate Valid()
      reads this, count
    {
      Agree(config, State())
    }

    /** slotToKeyUpdateKey. */
    method SlotToKeyUpdateKey(k: string, add: bool)
      requires config.cluster && count.Length == CLUSTER_SLOTS
      modifies this`index, count
      ensures State() == if add then SlotKeyAdd(config, old(State()), k) else SlotKeyDel(config, old(State()), k)
    {
      var slot := config.slot(k);
      count[slot] := count[slot] + if add then 1 else -1;
      var indexed := [(slot / 256) as char, (slot % 256) as char] + k;
      if add {
        index := index + {indexed};
      } else {
        index := index - {indexed};
      }
    }

    method Add(k: string, v: Obj)
      requires Valid() && k !in dict
      modifies this, count
      ensures Valid() && State() == DbAdd(config, old(State()), k, v)
      ensures dict == old(dict)[k := v] && expires == old(expires)
    {
      AddAgrees(config, State(), k, v);
      dict := dict[k := v];
      if config.cluster {
        SlotToKeyUpdateKey(k, true);
      }
    }

    method Overwrite(k: string, v: Obj)
      requires Valid() && k in dict
      modifies this`dict
      ensures Valid() && State() == DbOverwrite(old(State()), k, v) && dict == old(dict)[k := v]
    {
      OverwriteAgrees(config, State(), k, v);
      dict := dict[k := v];
    }

    method Delete(k: string) returns (deleted: bool)
      requires Valid()
      modifies this, count
      ensures Valid() && State() == DbDelete(config, old(State()), k) && deleted == old(k in dict)
      ensures dict == old(dict) - {k} && expires == old(expires) - {k}
    {
      DeletePlain(config, State(), k);
      DeleteAgrees(config, State(), k);
      expires := Without(expires, k);
      if k !in dict {
        return false;
      }
      dict := Without(dict, k);
      if config.cluster {
        SlotToKeyUpdateKey(k, false);
      }
      return true;
    }

    method Expire(k: string, env: Env) returns (expired: bool)
      requires Valid()
      modifies this, count
      ensures Valid() && State() == ExpireIfNeeded(config, old(State()), k, env)
      ensures expired <==> old(k in expires && 0 <= expires[k] < env.now) && !env.loading
      ensures var gone := if expired && !env.replica then {k} else {};
        dict == old(dict) - gone && expires == old(expires) - gone
    {
      ExpirePlain(config, State(), k, env);
      ExpireAgrees(config, State(), k, env);
      if k !in expires || expires[k] < 0 || env.loading {
        return false;
      }
      if env.replica {
        return env.now > expires[k];
      }
      if env.now <= expires[k] {
        return false;
      }
      var _ := Delete(k);
      return true;
    }

    method Set(k: string, v: Obj, env: Env)
      requires Valid()
      modifies this, count
      ensures Valid() && State() == SetKey(config, old(State()), k, v, env)
      ensures dict == old(dict)[k := v] && expires == old(expires) - {k}
    {
      SetPlain(config, State(), k, v, env);
      SetKeyAgrees(config, State(), k, v, env);
      var _ := Expire(k, env);
      if k !in dict {
        Add(k, v);
      } else {
        Overwrite(k, v);
      }
      expires := map x | x in expires && x != k :: expires[x];
    }

    method RenameKey(from: string, to: string, nx: bool, env: Env)
      requires Valid()
      modifies this, count
      ensures Valid() && State() == Rename(config, old(State()), from, to, nx, env)
      ensures Plain(dict, expires) == PlainRename(Plain(old(dict), old(expires)), from, to, nx, env)
    {
      RenamePlain(config, State(), from, to, nx, env);
      RenameAgrees(config, State(), from, to, nx, env);
      var _ := Expire(from, env);
      if from !in dict || from == to {
        return;
      }
      var v := dict[from];
      var expire := GetExpire(expires, from);
      var _ := Expire(to, env);
      if to in dict {
        if nx {
          return;
        }
        var _ := Delete(to);
      }
      MoveKey(expire, from, to, v);
    }

    method MoveKey(expire: int, from: string, to: string, v: Obj)
      requires Valid() && to !in dict
      modifies this, count
      ensures Valid() && State() == Move(config, old(State()), expire, from, to, v)
    {
      MoveAgrees(config, State(), expire, from, to, v);
      Add(to, v);
      if expire != -1 {
        expires := expires[to := expire];
      }
      var _ := Delete(from);
    }

    method FirstKey(slot: SlotNumber) returns (k: string)
      requires Valid() && config.cluster && count[slot] != 0
      ensures k in dict && config.slot(k) == slot
    {
      var found, x := Seek(index, Prefix(slot));
      SeekFinds(config, State(), slot);
      FirstOfSlot(config, State(), slot, x);
      return x[2..];
    }

    /** Deletes exactly the keys of the slot, and their expires, and counts them. */
    method DelKeysInSlot(slot: SlotNumber) returns (j: nat)
      requires Valid() && config.cluster
      modifies this, count
      ensures Valid() && j == old(count[slot]) && count[slot] == 0
      ensures dict == Outside(config, old(dict), slot) && expires == Outside(config, old(expires), slot)
    {
      j := 0;
      CountNatural(config, State(), slot);
      while count[slot] != 0
        invariant Valid() && 0 <= count[slot] && j + count[slot] == old(count[slot])
        invariant Outside(config, dict, slot) == Outside(config, old(dict), slot)
        invariant Outside(config, expires, slot) == Outside(config, old(expires), slot)
        decreases count[slot]
      {
        var k := FirstKey(slot);
        OutsideDeleted(config, State(), slot, k);
        var _ := Delete(k);
        CountNatural(config, State(), slot);
        j := j + 1;
      }
      NoneLeft(config, State(), slot);
    }

    method SetExpireTime(k: string, when: int)
      requires Valid() && k in dict
      modifies this`expires
      ensures Valid() && State() == SetExpire(old(State()), k, when) && expires == old(expires)[k := when]
    {
      expires := expires[k := when];
    }

    method Persist(k: string) returns (removed: bool)
      requires Valid() && k in dict
      modifies this`expires
      ensures Valid() && State() == RemoveExpire(old(State()), k) && removed == old(k in expires)
      ensures expires == old(expires) - {k}
    {
      WithoutIs(expires, k);
      removed := k in expires;
      expires := map x | x in expires && x != k :: expires[x];
    }

    method Empty() returns (removed: nat)
      requires Valid()
      modifies this, count
      ensures Valid() && State() == EmptyDb(config, old(State())) && removed == old(|dict|)
      ensures dict == map[] && expires == map[]
    {
      EmptyAgrees(config, State());
      removed := |dict|;
      dict, expires := map[], map[];
      if config.cluster {
        index := {};
        ClearCounts();
      }
      assert State() == EmptyDb(config, old(State()));
    }

    method ClearCounts()
      requires count.Length == CLUSTER_SLOTS
      modifies count
      ensures count[..] == seq(CLUSTER_SLOTS, _ => 0)
    {
      var i := 0;
      while i < count.Length
        invariant 0 <= i <= count.Length && forall j :: 0 <= j < i ==> count[j] == 0
      {
        count[i] := 0;
        i := i + 1;
      }
    }

    /** At most n keys of the slot, in the order of the index. */
    method GetKeysInSlot(slot: SlotNumber, n: nat) returns (keys: seq<string>)
      requires Valid() && config.cluster
      ensures |keys| == if n < count[slot] then n else count[slot]
      ensures forall i :: 0 <= i < |keys| ==> keys[i] in dict && config.slot(keys[i]) == slot
      ensures forall i, j :: 0 <= i < j < |keys| ==> keys[i] != keys[j]
      ensures Leading(config, KeysIn(config, dict.Keys, slot), keys)
    {
      keys := CollectKeys(config, index, slot, n, State());
    }
  }

  /** The keys listed, each once. */
  ghost predicate Lists(keys: seq<string>, seen: set<string>) {
    && |seen| == |keys| && (forall i :: 0 <= i < |keys| ==> keys[i] in seen) && (forall k :: k in seen ==> k in keys)
    && (forall i, j :: 0 <= i < j < |keys| ==> keys[i] != keys[j])
  }

  lemma ListsOneMore(keys: seq<string>, seen: set<string>, k: string)
    requires Lists(keys, seen) && k !in seen
    ensures Lists(keys + [k], seen + {k})
  {}

  /** Of the slot's keys, those not seen are still to come. */
  ghost predicate ToCome(c: Config, mine: set<string>, left: set<string>, seen: set<string>) {
    && seen <= mine && (forall k :: k in mine && k !in seen ==> Indexed(c, k) in left)
    && (forall x :: x in left ==> |x| >= 2 && x[2..] !in seen)
  }

  lemma ToComeNext(c: Config, mine: set<string>, left: set<string>, seen: set<string>, x: string)
    requires ToCome(c, mine, left, seen) && x in left && x[2..] in mine && x == Indexed(c, x[2..])
    requires forall y :: y in left ==> y == Indexed(c, y[2..])
    ensures ToCome(c, mine, left - {x}, seen + {x[2..]})
  {
    forall k | k in mine && k !in seen + {x[2..]} ensures Indexed(c, k) in left - {x} {
      IndexedTail(c, k);
    }
  }

  /** The keys stand in the order of the index, and before all other keys of the slot. */
  ghost predicate Leading(c: Config, mine: set<string>, keys: seq<string>) {
    && (forall i, j :: 0 <= i < j < |keys| ==> Leq(Indexed(c, keys[i]), Indexed(c, keys[j])))
    && forall i, k :: 0 <= i < |keys| && k in mine && k !in keys ==> Leq(Indexed(c, keys[i]), Indexed(c, k))
  }

  /** They are in order, and nothing that is left comes before one of them. */
  ghost predicate Rising(c: Config, keys: seq<string>, left: set<string>, from: string) {
    && (forall i, j :: 0 <= i < j < |keys| ==> Leq(Indexed(c, keys[i]), Indexed(c, keys[j])))
    && forall i, y :: 0 <= i < |keys| && y in left && Leq(from, y) ==> Leq(Indexed(c, keys[i]), y)
  }

  lemma RisingNext(c: Config, keys: seq<string>, left: set<string>, from: string, x: string)
    requires Rising(c, keys, left, from) && IsFirst(left, from, x) && |x| >= 2 && x == Indexed(c, x[2..])
    ensures Rising(c, keys + [x[2..]], left - {x}, from)
  {
  }

  /** The loop of getKeysInSlot; the next element is the least one not yet seen. */
  method CollectKeys(c: Config, index: set<string>, slot: SlotNumber, n: nat, ghost s: Space) returns (keys: seq<string>)
    requires Agree(c, s) && c.cluster && index == s.index
    ensures |keys| == if n < s.count[slot] then n else s.count[slot]
    ensures forall i :: 0 <= i < |keys| ==> keys[i] in s.dict && c.slot(keys[i]) == slot
    ensures forall i, j :: 0 <= i < j < |keys| ==> keys[i] != keys[j]
    ensures Leading(c, KeysIn(c, s.dict.Keys, slot), keys)
  {
    keys := [];
    var left := index;
    ghost var seen: set<string> := {};
    ghost var mine := KeysIn(c, s.dict.Keys, slot);
    var found := true;
    while |keys| < n && found
      invariant |keys| <= n && left <= index && Lists(keys, seen) && ToCome(c, mine, left, seen)
      invariant Rising(c, keys, left, Prefix(slot))
      invariant !found ==> mine <= seen
      decreases left, found
    {
      var x;
      found, x := Seek(left, Prefix(slot));
      if !found || x[..2] != Prefix(slot) {
        AllSeen(c, s, slot, left, seen, found, x);
        found := false;
      } else {
        KeyOfIndexed(c, s, slot, x);
        ListsOneMore(keys, seen, x[2..]);
        ToComeNext(c, mine, left, seen, x);
        RisingNext(c, keys, left, Prefix(slot), x);
        keys, seen, left := keys + [x[2..]], seen + {x[2..]}, left - {x};
      }
    }
    if !found {
      assert seen == mine;
    }
    SubsetSize(seen, mine);
    RisingLeads(c, mine, left, seen, keys, slot);
  }

  lemma RisingLeads(c: Config, mine: set<string>, left: set<string>, seen: set<string>, keys: seq<string>, slot: SlotNumber)
    requires Lists(keys, seen) && ToCome(c, mine, left, seen) && Rising(c, keys, left, Prefix(slot))
    requires forall k :: k in mine ==> c.slot(k) == slot
    ensures Leading(c, mine, keys)
  {
    forall k | k in mine && k !in keys ensures Indexed(c, k) in left && Leq(Prefix(slot), Indexed(c, k)) {
      PrefixFirst(Prefix(slot), k);
      assert k !in seen;
    }
  }

  lemma KeyOfIndexed(c: Config, s: Space, slot: SlotNumber, x: string)
    requires Agree(c, s) && c.cluster && x in s.index && |x| >= 2 && x[..2] == Prefix(slot)
    ensures x[2..] in KeysIn(c, s.dict.Keys, slot) && x == Indexed(c, x[2..])
  {
    assert x == x[..2] + x[2..];
    PrefixInjective(slot, c.slot(x[2..]), x[2..]);
  }

  /** When the index has no further element of the slot, all its keys have been seen. */
  lemma AllSeen(c: Config, s: Space, slot: SlotNumber, left: set<string>, seen: set<string>, found: bool, x: string)
    requires found ==> IsFirst(left, Prefix(slot), x) && |x| >= 2 && x[..2] != Prefix(slot)
    requires !found ==> forall y :: y in left ==> !Leq(Prefix(slot), y)
    requires forall k :: k in KeysIn(c, s.dict.Keys, slot) && k !in seen ==> Indexed(c, k) in left
    ensures KeysIn(c, s.dict.Keys, slot) <= seen
  {
    forall k | k in KeysIn(c, s.dict.Keys, slot) ensures k in seen {
      if k !in seen {
        PrefixFirst(Prefix(slot), k);
        assert Indexed(c, k) == Prefix(slot) + k;
        if found {
          PrefixRange(Prefix(slot), x, k);
        }
      }
    }
  }

}
