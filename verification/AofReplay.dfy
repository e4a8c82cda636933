/** Replaying the commands of a rewrite from an empty server rebuilds the dataset. */
module AofReplay {
  import opened AofFormat
  import opened AofLog
  import opened AofDataset

  // ---------------------------------------------------------------- what the commands do

  datatype Value = Str(s: string) | List(items: seq<string>) | Set(elems: set<string>) | Hash(fields: map<string, string>)

  datatype Item = Item(value: Value, expire: Expire)

  type Store = map<(nat, string), Item>

  /** All databases, and the one selected. */
  datatype Server = Server(db: nat, data: Store)

  function Put(s: Server, key: string, item: Item): Server { s.(data := s.data[(s.db, key) := item]) }

  function Elements(args: Argv): set<string> { set x | x in args }

  /** Fields and values in turn, as one list. */
  function FlatMap(args: Argv): map<string, string> {
    if |args| < 2 then map[] else FlatMap(args[..|args| - 2])[args[|args| - 2] := args[|args| - 1]]
  }

  function RPush(s: Server, key: string, args: Argv): Server {
    if (s.db, key) !in s.data then Put(s, key, Item(List(args), Never))
    else
      var item := s.data[(s.db, key)];
      if item.value.List? then Put(s, key, item.(value := List(item.value.items + args))) else s
  }

  function SAdd(s: Server, key: string, args: Argv): Server {
    if (s.db, key) !in s.data then Put(s, key, Item(Set(Elements(args)), Never))
    else
      var item := s.data[(s.db, key)];
      if item.value.Set? then Put(s, key, item.(value := Set(item.value.elems + Elements(args)))) else s
  }

  /** An error when a field has no value. */
  function HMSet(s: Server, key: string, args: Argv): Server {
    if |args| % 2 != 0 then s
    else if (s.db, key) !in s.data then Put(s, key, Item(Hash(FlatMap(args)), Never))
    else
      var item := s.data[(s.db, key)];
      if item.value.Hash? then Put(s, key, item.(value := Hash(item.value.fields + FlatMap(args)))) else s
  }

  predicate IsNumber(s: string) { forall i :: 0 <= i < |s| ==> IsDigit(s[i]) }

  /** Absolute expire times are kept as they are while loading. */
  function PExpireAt(s: Server, key: string, when: string): Server {
    if (s.db, key) in s.data && IsNumber(when)
    then Put(s, key, s.data[(s.db, key)].(expire := At(AofFormat.Value(when))))
    else s
  }

  function Exec(s: Server, cmd: Argv): Server {
    if IsSelect(cmd) then s.(db := AofFormat.Value(cmd[1]))
    else if |cmd| < 3 then s
    else if cmd[0] == "RPUSH" then RPush(s, cmd[1], cmd[2..])
    else if cmd[0] == "SADD" then SAdd(s, cmd[1], cmd[2..])
    else if cmd[0] == "HMSET" then HMSet(s, cmd[1], cmd[2..])
    else if |cmd| == 3 && cmd[0] == "SET" then Put(s, cmd[1], Item(Str(cmd[2]), Never))
    else if |cmd| == 3 && cmd[0] == "PEXPIREAT" then PExpireAt(s, cmd[1], cmd[2])
    else s
  }

  function Replay(s: Server, cmds: seq<Argv>): Server
    decreases |cmds|
  {
    if cmds == [] then s else Replay(Exec(s, cmds[0]), cmds[1..])
  }

  lemma {:induction false} ReplaySum(s: Server, a: seq<Argv>, b: seq<Argv>)
    ensures Replay(s, a + b) == Replay(Replay(s, a), b)
    decreases |a|
  {
    if a == [] {
      assert a + b == b;
    } else {
      assert (a + b)[1..] == a[1..] + b;
      ReplaySum(Exec(s, a[0]), a[1..], b);
    }
  }

  lemma ReplayOneOf(s: Server, cmd: Argv)
    ensures Replay(s, [cmd]) == Exec(s, cmd)
  {
    assert [cmd][1..] == [];
  }

  // ---------------------------------------------------------------- the size of chunks does not matter

  predicate Fits(args: Argv, pairs: bool) { args != [] && (pairs ==> |args| % 2 == 0) }

  /** Doing two parts one after the other is doing them at once. */
  ghost predicate Additive(act: (Server, Argv) -> Server, pairs: bool) {
    forall s, a, b {:trigger act(act(s, a), b)} :: Fits(a, pairs) && Fits(b, pairs) ==> act(act(s, a), b) == act(s, a + b)
  }

  ghost predicate Does(name: string, key: string, act: (Server, Argv) -> Server) {
    forall s, args :: args != [] ==> Exec(s, [name, key] + args) == act(s, args)
  }

  lemma FlatFits(items: seq<Argv>, pairs: bool)
    requires items != [] && forall i :: 0 <= i < |items| ==> |items[i]| == Width(pairs)
    ensures Fits(Flat(items), pairs)
  {
    FlatLength(items, pairs);
  }

  lemma {:induction false} FlatSum(a: seq<Argv>, b: seq<Argv>)
    ensures Flat(a + b) == Flat(a) + Flat(b)
  {
    if a == [] {
      assert a + b == b;
    } else {
      assert (a + b)[1..] == a[1..] + b;
      FlatSum(a[1..], b);
    }
  }

  /** The chunks of an object do together what one command with all the items would. */
  lemma {:induction false} ChunksTogether(s: Server, name: string, key: string, items: seq<Argv>, pairs: bool, K: nat,
                                          act: (Server, Argv) -> Server)
    requires K >= 1 && items != [] && forall i :: 0 <= i < |items| ==> |items[i]| == Width(pairs)
    requires Additive(act, pairs) && Does(name, key, act)
    ensures Replay(s, Chunks(name, key, items, K)) == act(s, Flat(items))
    decreases |items|
  {
    var n := Min(K, |items|);
    var first, rest := items[..n], items[n..];
    FlatFits(first, pairs);
    FirstChunk(s, name, key, items, K, n, act);
    if |items| <= K {
      WholeList(items, n);
    } else {
      ChunksTogether(act(s, Flat(first)), name, key, rest, pairs, K, act);
      TwoParts(s, items, first, rest, pairs, act);
    }
  }

  lemma WholeList(items: seq<Argv>, n: nat)
    requires n == |items|
    ensures items[..n] == items && items[n..] == []
  {}

  lemma FirstChunk(s: Server, name: string, key: string, items: seq<Argv>, K: nat, n: nat, act: (Server, Argv) -> Server)
    requires K >= 1 && items != [] && n == Min(K, |items|) && Flat(items[..n]) != [] && Does(name, key, act)
    ensures Replay(s, Chunks(name, key, items, K)) == Replay(act(s, Flat(items[..n])), Chunks(name, key, items[n..], K))
  {
    var cmd := [name, key] + Flat(items[..n]);
    assert Exec(s, cmd) == act(s, Flat(items[..n]));
    ReplaySum(s, [cmd], Chunks(name, key, items[n..], K));
    ReplayOneOf(s, cmd);
  }

  lemma TwoParts(s: Server, items: seq<Argv>, first: seq<Argv>, rest: seq<Argv>, pairs: bool, act: (Server, Argv) -> Server)
    requires first != [] && rest != [] && items == first + rest && Additive(act, pairs)
    requires forall i :: 0 <= i < |items| ==> |items[i]| == Width(pairs)
    ensures act(act(s, Flat(first)), Flat(rest)) == act(s, Flat(items))
  {
    assert forall i :: 0 <= i < |first| ==> first[i] == items[i];
    assert forall i :: 0 <= i < |rest| ==> rest[i] == items[|first| + i];
    FlatFits(first, pairs);
    FlatFits(rest, pairs);
    FlatSum(first, rest);
  }

  lemma RPushAdds(s: Server, key: string, a: Argv, b: Argv)
    ensures RPush(RPush(s, key, a), key, b) == RPush(s, key, a + b)
  {
    if (s.db, key) in s.data && s.data[(s.db, key)].value.List? {
      var items := s.data[(s.db, key)].value.items;
      assert items + a + b == items + (a + b);
    }
  }

  lemma SAddAdds(s: Server, key: string, a: Argv, b: Argv)
    ensures SAdd(SAdd(s, key, a), key, b) == SAdd(s, key, a + b)
  {
    assert Elements(a + b) == Elements(a) + Elements(b);
    if (s.db, key) in s.data && s.data[(s.db, key)].value.Set? {
      var elems := s.data[(s.db, key)].value.elems;
      assert elems + Elements(a) + Elements(b) == elems + (Elements(a) + Elements(b));
    }
  }

  lemma {:induction false} FlatMapSum(a: Argv, b: Argv)
    requires |a| % 2 == 0 && |b| % 2 == 0
    ensures FlatMap(a + b) == FlatMap(a) + FlatMap(b)
    decreases |b|
  {
    if b == [] {
      assert a + b == a;
    } else {
      var k := |b| - 2;
      assert (a + b)[..|a + b| - 2] == a + b[..k];
      FlatMapSum(a, b[..k]);
    }
  }

  lemma MergeSum(m: map<string, string>, a: map<string, string>, b: map<string, string>)
    ensures m + a + b == m + (a + b)
  {}

  lemma HMSetAdds(s: Server, key: string, a: Argv, b: Argv)
    requires |a| % 2 == 0 && |b| % 2 == 0
    ensures HMSet(HMSet(s, key, a), key, b) == HMSet(s, key, a + b)
  {
    var ab := a + b;
    assert |ab| % 2 == 0;
    FlatMapSum(a, b);
    if (s.db, key) in s.data && s.data[(s.db, key)].value.Hash? {
      MergeSum(s.data[(s.db, key)].value.fields, FlatMap(a), FlatMap(b));
    }
  }

  // ---------------------------------------------------------------- one object

  function FieldMap(fs: seq<(string, string)>): map<string, string> {
    if fs == [] then map[] else FieldMap(fs[..|fs| - 1])[fs[|fs| - 1].0 := fs[|fs| - 1].1]
  }

  /** The value an object stands for. */
  function Meaning(o: Obj): Value {
    match o
    case OStr(s) => Str(s)
    case OList(items) => List(items)
    case OSet(elems) => Set(set x | x in elems)
    case OHash(fields) => Hash(FieldMap(fields))
  }

  /** The server keeps no empty lists, sets or hashes. */
  predicate NonEmpty(o: Obj) {
    match o
    case OStr(s) => true
    case OList(items) => items != []
    case OSet(elems) => elems != []
    case OHash(fields) => fields != []
  }

  lemma {:induction false} FlatSingles(xs: seq<string>)
    ensures Flat(Singles(xs)) == xs
  {
    if xs != [] {
      assert Singles(xs)[1..] == Singles(xs[1..]);
      FlatSingles(xs[1..]);
    }
  }

  lemma {:induction false} FlatPairs(fs: seq<(string, string)>)
    ensures |Flat(Pairs(fs))| == 2 * |fs| && FlatMap(Flat(Pairs(fs))) == FieldMap(fs)
  {
    if fs != [] {
      var k := |fs| - 1;
      FlatPairs(fs[..k]);
      assert Pairs(fs) == Pairs(fs[..k]) + [[fs[k].0, fs[k].1]];
      FlatSum(Pairs(fs[..k]), [[fs[k].0, fs[k].1]]);
      FlatOne([fs[k].0, fs[k].1]);
      var flat := Flat(Pairs(fs));
      assert flat[..|flat| - 2] == Flat(Pairs(fs[..k]));
    }
  }

  lemma FlatOne(item: Argv)
    ensures Flat([item]) == item
  {
    assert [item][1..] == [];
  }

  function RPushOn(key: string): (Server, Argv) -> Server { (s: Server, args: Argv) => RPush(s, key, args) }

  lemma RPushAdditive(key: string)
    ensures Additive(RPushOn(key), false) && Does("RPUSH", key, RPushOn(key))
  {
    forall s, a, b {
      RPushAdds(s, key, a, b);
    }
  }

  lemma ListRebuilt(s: Server, key: string, items: seq<string>, K: nat)
    requires K >= 1 && items != [] && (s.db, key) !in s.data
    ensures Replay(s, Chunks("RPUSH", key, Singles(items), K)) == Put(s, key, Item(List(items), Never))
  {
    RPushAdditive(key);
    ChunksTogether(s, "RPUSH", key, Singles(items), false, K, RPushOn(key));
    FlatSingles(items);
  }

  function SAddOn(key: string): (Server, Argv) -> Server { (s: Server, args: Argv) => SAdd(s, key, args) }

  lemma SAddAdditive(key: string)
    ensures Additive(SAddOn(key), false) && Does("SADD", key, SAddOn(key))
  {
    forall s, a, b {
      SAddAdds(s, key, a, b);
    }
  }

  lemma SetRebuilt(s: Server, key: string, elems: seq<string>, K: nat)
    requires K >= 1 && elems != [] && (s.db, key) !in s.data
    ensures Replay(s, Chunks("SADD", key, Singles(elems), K)) == Put(s, key, Item(Set(Elements(elems)), Never))
  {
    SAddAdditive(key);
    ChunksTogether(s, "SADD", key, Singles(elems), false, K, SAddOn(key));
    FlatSingles(elems);
  }

  function HMSetOn(key: string): (Server, Argv) -> Server { (s: Server, args: Argv) => HMSet(s, key, args) }

  lemma HMSetAdditive(key: string)
    ensures Additive(HMSetOn(key), true) && Does("HMSET", key, HMSetOn(key))
  {
    forall s, a, b | Fits(a, true) && Fits(b, true) {
      HMSetAdds(s, key, a, b);
    }
  }

  lemma HashRebuilt(s: Server, key: string, fields: seq<(string, string)>, K: nat)
    requires K >= 1 && fields != [] && (s.db, key) !in s.data
    ensures Replay(s, Chunks("HMSET", key, Pairs(fields), K)) == Put(s, key, Item(Hash(FieldMap(fields)), Never))
  {
    HMSetAdditive(key);
    ChunksTogether(s, "HMSET", key, Pairs(fields), true, K, HMSetOn(key));
    FlatPairs(fields);
  }

  lemma ObjectRebuilt(s: Server, key: string, o: Obj, K: nat)
    requires K >= 1 && NonEmpty(o) && (s.db, key) !in s.data
    ensures Replay(s, Emit(key, o, K)) == Put(s, key, Item(Meaning(o), Never))
  {
    match o
    case OStr(v) => ReplayOneOf(s, ["SET", key, v]);
    case OList(items) => ListRebuilt(s, key, items, K);
    case OSet(elems) => SetRebuilt(s, key, elems, K);
    case OHash(fields) => HashRebuilt(s, key, fields, K);
  }

  lemma EntryRebuilt(s: Server, e: Entry, now: nat, K: nat)
    requires K >= 1 && NonEmpty(e.obj) && (s.db, e.key) !in s.data
    ensures Replay(s, EmitEntry(e, now, K))
            == if e.expire == Never || now <= e.expire.when then Put(s, e.key, Item(Meaning(e.obj), e.expire)) else s
  {
    if !Expired(e, now) {
      ObjectRebuilt(s, e.key, e.obj, K);
      ReplaySum(s, Emit(e.key, e.obj, K), EmitExpire(e));
      if e.expire.At? {
        ValueOfDec(e.expire.when);
        ReplayOneOf(Put(s, e.key, Item(Meaning(e.obj), Never)), ["PEXPIREAT", e.key, Dec(e.expire.when)]);
        assert s.data[(s.db, e.key) := Item(Meaning(e.obj), Never)][(s.db, e.key) := Item(Meaning(e.obj), e.expire)]
            == s.data[(s.db, e.key) := Item(Meaning(e.obj), e.expire)];
      }
    }
  }

  // ---------------------------------------------------------------- one database

  /** The entry has no expire time, or one that is not before now. */
  predicate Current(e: Entry, now: nat) { e.expire == Never || now <= e.expire.when }

  /** The data with the live entries of one database added. */
  function WithEntries(data: Store, db: nat, es: seq<Entry>, now: nat): Store
    decreases |es|
  {
    if es == [] then data
    else
      var e := es[0];
      WithEntries(if Current(e, now) then data[(db, e.key) := Item(Meaning(e.obj), e.expire)] else data, db, es[1..], now)
  }

  ghost predicate EntriesOk(es: seq<Entry>) {
    && (forall i :: 0 <= i < |es| ==> NonEmpty(es[i].obj))
    && (forall i, j :: 0 <= i < j < |es| ==> es[i].key != es[j].key)
  }

  ghost predicate NoneOf(data: Store, db: nat, es: seq<Entry>) {
    forall i :: 0 <= i < |es| ==> (db, es[i].key) !in data
  }

  lemma {:induction false} EntriesRebuilt(s: Server, es: seq<Entry>, now: nat, K: nat)
    requires K >= 1 && EntriesOk(es) && NoneOf(s.data, s.db, es)
    ensures Replay(s, EmitEntries(es, now, K)) == s.(data := WithEntries(s.data, s.db, es, now))
    decreases |es|
  {
    if es != [] {
      EntryRebuilt(s, es[0], now, K);
      ReplaySum(s, EmitEntry(es[0], now, K), EmitEntries(es[1..], now, K));
      var s1 := Replay(s, EmitEntry(es[0], now, K));
      EntriesRebuilt(s1, es[1..], now, K);
    }
  }

  /** Which keys the live entries add, and with what. */
  lemma {:induction false} WithEntriesIs(data: Store, db: nat, es: seq<Entry>, now: nat)
    requires EntriesOk(es) && NoneOf(data, db, es)
    ensures var after := WithEntries(data, db, es, now);
      && (forall p :: p in data ==> p in after && after[p] == data[p])
      && (forall p :: p in after ==> p in data || (p.0 == db && exists i :: 0 <= i < |es| && es[i].key == p.1 && Current(es[i], now)))
      && (forall i :: 0 <= i < |es| && Current(es[i], now)
            ==> (db, es[i].key) in after && after[(db, es[i].key)] == Item(Meaning(es[i].obj), es[i].expire))
    decreases |es|
  {
    if es != [] {
      var e := es[0];
      var data1 := if Current(e, now) then data[(db, e.key) := Item(Meaning(e.obj), e.expire)] else data;
      WithEntriesIs(data1, db, es[1..], now);
      forall p | p in WithEntries(data, db, es, now) && p !in data
        ensures p.0 == db && exists i :: 0 <= i < |es| && es[i].key == p.1 && Current(es[i], now)
      {
        if p in data1 {
          assert es[0].key == p.1;
        } else {
          var i :| 0 <= i < |es[1..]| && es[1..][i].key == p.1 && Current(es[1..][i], now);
          assert es[i + 1].key == p.1;
        }
      }
    }
  }

  // ---------------------------------------------------------------- the whole dataset

  /** Entry i of database d is one whose time is not over. */
  predicate Live(dbs: seq<seq<Entry>>, now: nat, d: nat, i: nat) {
    d < |dbs| && i < |dbs[d]| && Current(dbs[d][i], now)
  }

  /** The data are exactly the live entries of the first j databases. */
  ghost predicate Holds(data: Store, dbs: seq<seq<Entry>>, now: nat, j: nat) {
    && (forall d: nat, i: nat :: d < j && Live(dbs, now, d, i) ==>
          var e := dbs[d][i];
          (d, e.key) in data && data[(d, e.key)] == Item(Meaning(e.obj), e.expire))
    && (forall p :: p in data ==> p.0 < j && exists i: nat :: Live(dbs, now, p.0, i) && dbs[p.0][i].key == p.1)
  }

  lemma HoldsNext(data: Store, dbs: seq<seq<Entry>>, now: nat, j: nat)
    requires j < |dbs| && EntriesOk(dbs[j]) && Holds(data, dbs, now, j)
    ensures NoneOf(data, j, dbs[j]) && Holds(WithEntries(data, j, dbs[j], now), dbs, now, j + 1)
  {
    var after := WithEntries(data, j, dbs[j], now);
    WithEntriesIs(data, j, dbs[j], now);
    forall p | p in after ensures p.0 < j + 1 && exists i: nat :: Live(dbs, now, p.0, i) && dbs[p.0][i].key == p.1 {
      if p !in data {
        var i :| 0 <= i < |dbs[j]| && dbs[j][i].key == p.1 && Current(dbs[j][i], now);
        assert Live(dbs, now, p.0, i);
      }
    }
  }

  lemma DbRebuilt(s: Server, dbs: seq<seq<Entry>>, j: nat, now: nat, K: nat)
    requires K >= 1 && j < |dbs| && EntriesOk(dbs[j]) && Holds(s.data, dbs, now, j)
    ensures var cmds := if dbs[j] == [] then [] else [Select(j)] + EmitEntries(dbs[j], now, K);
      Replay(s, cmds).data == WithEntries(s.data, j, dbs[j], now)
  {
    if dbs[j] != [] {
      HoldsNext(s.data, dbs, now, j);
      ValueOfDec(j);
      ReplaySum(s, [Select(j)], EmitEntries(dbs[j], now, K));
      ReplayOneOf(s, Select(j));
      EntriesRebuilt(s.(db := j), dbs[j], now, K);
    }
  }

  lemma {:induction false} DbsRebuilt(s: Server, dbs: seq<seq<Entry>>, j: nat, now: nat, K: nat)
    requires K >= 1 && j <= |dbs| && Holds(s.data, dbs, now, j)
    requires forall d :: 0 <= d < |dbs| ==> EntriesOk(dbs[d])
    ensures Holds(Replay(s, EmitDbs(dbs, j, now, K)).data, dbs, now, |dbs|)
    decreases |dbs| - j
  {
    if j < |dbs| {
      var cmds := if dbs[j] == [] then [] else [Select(j)] + EmitEntries(dbs[j], now, K);
      DbRebuilt(s, dbs, j, now, K);
      HoldsNext(s.data, dbs, now, j);
      ReplaySum(s, cmds, EmitDbs(dbs, j + 1, now, K));
      DbsRebuilt(Replay(s, cmds), dbs, j + 1, now, K);
    }
  }

  /** Replaying a rewrite from an empty server gives every entry that is not expired, with its value
      and expire time, and nothing else; for every chunk size. */
  lemma RewritePreserves(dbs: seq<seq<Entry>>, now: nat, K: nat)
    requires K >= 1 && forall d :: 0 <= d < |dbs| ==> EntriesOk(dbs[d])
    ensures Holds(Replay(Server(0, map[]), EmitDbs(dbs, 0, now, K)).data, dbs, now, |dbs|)
    ensures Rebuilt(Replay(Server(0, map[]), EmitDbs(dbs, 0, now, K)).data, dbs, now)
  {
    DbsRebuilt(Server(0, map[]), dbs, 0, now, K);
    HoldsRebuilt(Replay(Server(0, map[]), EmitDbs(dbs, 0, now, K)).data, dbs, now);
  }

  /** An entry is in the data exactly when it has no expire time or one that is not before now, and then
      with its value and time; and the data hold nothing else. */
  ghost predicate Rebuilt(data: Store, dbs: seq<seq<Entry>>, now: nat) {
    && (forall d: nat, i: nat :: d < |dbs| && i < |dbs[d]| ==>
          var e := dbs[d][i];
          && ((d, e.key) in data <==> e.expire == Never || now <= e.expire.when)
          && ((d, e.key) in data ==> data[(d, e.key)] == Item(Meaning(e.obj), e.expire)))
    && (forall p :: p in data ==> p.0 < |dbs| && exists i: nat :: i < |dbs[p.0]| && dbs[p.0][i].key == p.1)
  }

  lemma HoldsRebuilt(data: Store, dbs: seq<seq<Entry>>, now: nat)
    requires Holds(data, dbs, now, |dbs|) && forall d :: 0 <= d < |dbs| ==> EntriesOk(dbs[d])
    ensures Rebuilt(data, dbs, now)
  {
    forall d: nat, i: nat | d < |dbs| && i < |dbs[d]|
      ensures (d, dbs[d][i].key) in data ==> Live(dbs, now, d, i)
      ensures Live(dbs, now, d, i) ==> (d, dbs[d][i].key) in data
    {
      if (d, dbs[d][i].key) in data {
        var i': nat :| Live(dbs, now, d, i') && dbs[d][i'].key == dbs[d][i].key;
        assert EntriesOk(dbs[d]);
        assert i' == i;
      }
    }
  }

  // ---------------------------------------------------------------- from the bytes of the file

  /** The limits of the C types: string lengths and times fit a long, counts an int. */
  ghost predicate ArgsSized(args: Argv) { forall i :: 0 <= i < |args| ==> |args[i]| < 0x8000_0000_0000_0000 }

  ghost predicate ObjSized(o: Obj) {
    match o
    case OStr(s) => |s| < 0x8000_0000_0000_0000
    case OList(items) => ArgsSized(items)
    case OSet(elems) => ArgsSized(elems)
    case OHash(fields) => forall i :: 0 <= i < |fields| ==> |fields[i].0| < 0x8000_0000_0000_0000 && |fields[i].1| < 0x8000_0000_0000_0000
  }

  ghost predicate EntrySized(e: Entry) {
    |e.key| < 0x8000_0000_0000_0000 && ObjSized(e.obj) && (e.expire.At? ==> e.expire.when < 0x8000_0000_0000_0000)
  }

  lemma {:induction false} FlatSized(items: seq<Argv>)
    requires forall i :: 0 <= i < |items| ==> ArgsSized(items[i])
    ensures ArgsSized(Flat(items))
  {
    if items != [] {
      FlatSized(items[1..]);
      assert ArgsSized(items[0]);
    }
  }

  lemma {:induction false} ChunksPrintable(name: string, key: string, items: seq<Argv>, pairs: bool, K: nat)
    requires 1 <= K < 0x2000_0000 && |name| < 0x8000_0000_0000_0000 && |key| < 0x8000_0000_0000_0000
    requires forall i :: 0 <= i < |items| ==> |items[i]| == Width(pairs) && ArgsSized(items[i])
    ensures AllPrintable(Chunks(name, key, items, K))
    decreases |items|
  {
    if items != [] {
      var n := Min(K, |items|);
      FlatLength(items[..n], pairs);
      FlatSized(items[..n]);
      ChunksPrintable(name, key, items[n..], pairs, K);
    }
  }

  lemma EmitPrintable(e: Entry, K: nat)
    requires 1 <= K < 0x2000_0000 && EntrySized(e)
    ensures AllPrintable(Emit(e.key, e.obj, K))
  {
    match e.obj
    case OStr(s) =>
    case OList(items) => ChunksPrintable("RPUSH", e.key, Singles(items), false, K);
    case OSet(elems) => ChunksPrintable("SADD", e.key, Singles(elems), false, K);
    case OHash(fields) => ChunksPrintable("HMSET", e.key, Pairs(fields), true, K);
  }

  lemma {:induction false} EntriesPrintable(es: seq<Entry>, now: nat, K: nat)
    requires 1 <= K < 0x2000_0000 && forall i :: 0 <= i < |es| ==> EntrySized(es[i])
    ensures AllPrintable(EmitEntries(es, now, K))
  {
    if es != [] {
      var e := es[0];
      EmitPrintable(e, K);
      if e.expire.At? {
        DecLength(e.expire.when);
      }
      EntriesPrintable(es[1..], now, K);
    }
  }

  lemma {:induction false} DbsPrintable(dbs: seq<seq<Entry>>, j: nat, now: nat, K: nat)
    requires 1 <= K < 0x2000_0000 && j <= |dbs| < 0x8000_0000
    requires forall d, i :: 0 <= d < |dbs| && 0 <= i < |dbs[d]| ==> EntrySized(dbs[d][i])
    ensures AllPrintable(EmitDbs(dbs, j, now, K))
    decreases |dbs| - j
  {
    if j < |dbs| {
      SelectPrintable(j);
      EntriesPrintable(dbs[j], now, K);
      DbsPrintable(dbs, j + 1, now, K);
    }
  }

  /** Loading the bytes a rewrite writes gives back its commands, and they rebuild the dataset. */
  lemma RewriteLoads(dbs: seq<seq<Entry>>, now: nat, K: nat)
    requires 1 <= K < 0x2000_0000 && |dbs| < 0x8000_0000
    requires forall d :: 0 <= d < |dbs| ==> EntriesOk(dbs[d])
    requires forall d, i :: 0 <= d < |dbs| && 0 <= i < |dbs[d]| ==> EntrySized(dbs[d][i])
    ensures var load := LoadFile(StrTol, Texts(Pieces(EmitDbs(dbs, 0, now, K))));
      && load.why == Loaded && load.cmds == EmitDbs(dbs, 0, now, K)
      && Rebuilt(Replay(Server(0, map[]), load.cmds).data, dbs, now)
  {
    var cmds := EmitDbs(dbs, 0, now, K);
    DbsPrintable(dbs, 0, now, K);
    TextsOfPieces(cmds);
    LoadPrinted(cmds);
    RewritePreserves(dbs, now, K);
  }
}
