/** One database of the server and its indexes: the main dictionary, the expires dictionary and,
    in cluster mode, the number of keys and the ordered index of keys of each hash slot. */
module Keyspace {
  import opened Slots
  import opened KeySlot

  type Obj = int

  /** `slot` stands for keyHashSlot. */
  datatype Config = Config(cluster: bool, slot: string -> SlotNumber)

  datatype Space = Space(
    dict: map<string, Obj>,
    expires: map<string, int>,
    count: seq<int>,
    index: set<string>)

  // ---------------------------------------------------------------- the slot index

  /** The two bytes of a slot before the key. */
  function Prefix(slot: SlotNumber): string {
    [(slot / 256) as char, (slot % 256) as char]
  }

  function Indexed(c: Config, k: string): string { Prefix(c.slot(k)) + k }

  function SlotKeyAdd(c: Config, s: Space, k: string): Space
    requires |s.count| == CLUSTER_SLOTS
  {
    if !c.cluster then s
    else s.(count := s.count[c.slot(k) := s.count[c.slot(k)] + 1], index := s.index + {Indexed(c, k)})
  }

  function SlotKeyDel(c: Config, s: Space, k: string): Space
    requires |s.count| == CLUSTER_SLOTS
  {
    if !c.cluster then s
    else s.(count := s.count[c.slot(k) := s.count[c.slot(k)] - 1], index := s.index - {Indexed(c, k)})
  }

  // ---------------------------------------------------------------- agreement

  /** The keys of a slot. */
  ghost function KeysIn(c: Config, keys: set<string>, slot: nat): set<string> { set k | k in keys && c.slot(k) == slot }

  ghost predicate CountsAgree(c: Config, keys: set<string>, count: seq<int>) {
    |count| == CLUSTER_SLOTS && forall slot :: 0 <= slot < |count| ==> count[slot] == |KeysIn(c, keys, slot)|
  }

  ghost predicate IndexAgrees(c: Config, keys: set<string>, index: set<string>) {
    && (forall k :: k in keys ==> Indexed(c, k) in index)
    && (forall x :: x in index ==> |x| >= 2 && x[2..] in keys && x == Indexed(c, x[2..]))
  }

  ghost predicate Agree(c: Config, s: Space) {
    && s.expires.Keys <= s.dict.Keys && |s.count| == CLUSTER_SLOTS
    && (c.cluster ==> CountsAgree(c, s.dict.Keys, s.count) && IndexAgrees(c, s.dict.Keys, s.index))
  }

  lemma KeysInAdd(c: Config, keys: set<string>, k: string, slot: nat)
    requires k !in keys
    ensures |KeysIn(c, keys + {k}, slot)| == |KeysIn(c, keys, slot)| + if c.slot(k) == slot then 1 else 0
  {
    if c.slot(k) == slot {
      assert KeysIn(c, keys + {k}, slot) == KeysIn(c, keys, slot) + {k};
    } else {
      assert KeysIn(c, keys + {k}, slot) == KeysIn(c, keys, slot);
    }
  }

  lemma CountsAdd(c: Config, keys: set<string>, count: seq<int>, k: string)
    requires CountsAgree(c, keys, count) && k !in keys
    ensures CountsAgree(c, keys + {k}, count[c.slot(k) := count[c.slot(k)] + 1])
  {
    forall slot | 0 <= slot < |count| {
      KeysInAdd(c, keys, k, slot);
    }
  }

  lemma CountsDel(c: Config, keys: set<string>, count: seq<int>, k: string)
    requires CountsAgree(c, keys, count) && k in keys
    ensures CountsAgree(c, keys - {k}, count[c.slot(k) := count[c.slot(k)] - 1])
  {
    assert keys - {k} + {k} == keys;
    forall slot | 0 <= slot < |count| {
      KeysInAdd(c, keys - {k}, k, slot);
    }
  }

  lemma IndexedTail(c: Config, k: string)
    ensures |Indexed(c, k)| >= 2 && Indexed(c, k)[2..] == k
  {}

  lemma IndexAdd(c: Config, keys: set<string>, index: set<string>, k: string)
    requires IndexAgrees(c, keys, index)
    ensures IndexAgrees(c, keys + {k}, index + {Indexed(c, k)})
  {
    IndexedTail(c, k);
  }

  lemma IndexDel(c: Config, keys: set<string>, index: set<string>, k: string)
    requires IndexAgrees(c, keys, index)
    ensures IndexAgrees(c, keys - {k}, index - {Indexed(c, k)})
  {
    IndexedTail(c, k);
    forall k' | k' in keys - {k} ensures Indexed(c, k') in index - {Indexed(c, k)} {
      IndexedTail(c, k');
    }
  }

  // ---------------------------------------------------------------- operations

  function Without<V>(m: map<string, V>, k: string): map<string, V> { map x | x in m && x != k :: m[x] }

  /** The server stops if the key exists. */
  function DbAdd(c: Config, s: Space, k: string, v: Obj): Space
    requires |s.count| == CLUSTER_SLOTS && k !in s.dict
  {
    SlotKeyAdd(c, s.(dict := s.dict[k := v]), k)
  }

  /** The server stops if the key does not exist. */
  function DbOverwrite(s: Space, k: string, v: Obj): Space
    requires k in s.dict
  {
    s.(dict := s.dict[k := v])
  }

  function DbDelete(c: Config, s: Space, k: string): Space
    requires |s.count| == CLUSTER_SLOTS
  {
    var s1 := s.(expires := Without(s.expires, k));
    if k in s.dict then SlotKeyDel(c, s1.(dict := Without(s.dict, k)), k) else s1
  }

  function RemoveExpire(s: Space, k: string): Space
    requires k in s.dict
  {
    s.(expires := Without(s.expires, k))
  }

  function SetExpire(s: Space, k: string, when: int): Space
    requires k in s.dict
  {
    s.(expires := s.expires[k := when])
  }

  /** The clock, and whether the server is loading a file or replicating a master. */
  datatype Env = Env(now: int, loading: bool, replica: bool)

  predicate TimeIsOver(s: Space, k: string, env: Env) {
    k in s.expires && s.expires[k] >= 0 && !env.loading && env.now > s.expires[k]
  }

  /** Only a master deletes the key. */
  function ExpireIfNeeded(c: Config, s: Space, k: string, env: Env): Space
    requires |s.count| == CLUSTER_SLOTS
  {
    if TimeIsOver(s, k, env) && !env.replica then DbDelete(c, s, k) else s
  }

  function SetKey(c: Config, s: Space, k: string, v: Obj, env: Env): Space
    requires |s.count| == CLUSTER_SLOTS
  {
    var s1 := ExpireIfNeeded(c, s, k, env);
    RemoveExpire(if k in s1.dict then DbOverwrite(s1, k, v) else DbAdd(c, s1, k, v), k)
  }

  /** -1 where there is no expire time; a replica that accepts writes can also store -1 itself. */
  function GetExpire(times: map<string, int>, k: string): int { if k in times then times[k] else -1 }

  /** RENAME, and RENAMENX with `nx`. */
  function Rename(c: Config, s: Space, from: string, to: string, nx: bool, env: Env): Space
    requires |s.count| == CLUSTER_SLOTS
  {
    var s1 := ExpireIfNeeded(c, s, from, env);
    if from !in s1.dict || from == to then s1
    else
      var s2 := ExpireIfNeeded(c, s1, to, env);
      if to in s2.dict && nx then s2
      else
        var s3 := if to in s2.dict then DbDelete(c, s2, to) else s2;
        Move(c, s3, GetExpire(s1.expires, from), from, to, s1.dict[from])
  }

  /** The value under its new name, with the expire time it had, and no longer under the old. */
  function Move(c: Config, s: Space, expire: int, from: string, to: string, v: Obj): Space
    requires |s.count| == CLUSTER_SLOTS && to !in s.dict
  {
    var s1 := DbAdd(c, s, to, v);
    DbDelete(c, if expire != -1 then SetExpire(s1, to, expire) else s1, from)
  }

  /** emptyDb on this database. */
  function EmptyDb(c: Config, s: Space): Space {
    var s1 := s.(dict := map[], expires := map[]);
    if c.cluster then s1.(count := seq(CLUSTER_SLOTS, _ => 0), index := {}) else s1
  }

  // ---------------------------------------------------------------- every operation keeps the agreement

  lemma AddAgrees(c: Config, s: Space, k: string, v: Obj)
    requires Agree(c, s) && k !in s.dict
    ensures Agree(c, DbAdd(c, s, k, v))
  {
    assert s.dict[k := v].Keys == s.dict.Keys + {k};
    if c.cluster {
      CountsAdd(c, s.dict.Keys, s.count, k);
      IndexAdd(c, s.dict.Keys, s.index, k);
    }
  }

  lemma OverwriteAgrees(c: Config, s: Space, k: string, v: Obj)
    requires Agree(c, s) && k in s.dict
    ensures Agree(c, DbOverwrite(s, k, v))
  {
    assert s.dict[k := v].Keys == s.dict.Keys;
  }

  lemma DeleteAgrees(c: Config, s: Space, k: string)
    requires Agree(c, s)
    ensures Agree(c, DbDelete(c, s, k))
  {
    if k in s.dict {
      assert Without(s.dict, k).Keys == s.dict.Keys - {k};
      if c.cluster {
        CountsDel(c, s.dict.Keys, s.count, k);
        IndexDel(c, s.dict.Keys, s.index, k);
      }
    }
  }

  lemma ExpireAgrees(c: Config, s: Space, k: string, env: Env)
    requires Agree(c, s)
    ensures Agree(c, ExpireIfNeeded(c, s, k, env))
  {
    DeleteAgrees(c, s, k);
  }

  lemma SetKeyAgrees(c: Config, s: Space, k: string, v: Obj, env: Env)
    requires Agree(c, s)
    ensures Agree(c, SetKey(c, s, k, v, env))
  {
    var s1 := ExpireIfNeeded(c, s, k, env);
    ExpireAgrees(c, s, k, env);
    if k in s1.dict {
      OverwriteAgrees(c, s1, k, v);
    } else {
      AddAgrees(c, s1, k, v);
    }
  }

  lemma EmptyAgrees(c: Config, s: Space)
    requires Agree(c, s)
    ensures Agree(c, EmptyDb(c, s))
  {
    forall slot: nat ensures KeysIn(c, {}, slot) == {} {
    }
    assert EmptyDb(c, s).dict.Keys == {};
  }

  lemma RenameAgrees(c: Config, s: Space, from: string, to: string, nx: bool, env: Env)
    requires Agree(c, s)
    ensures Agree(c, Rename(c, s, from, to, nx, env))
  {
    var s1 := ExpireIfNeeded(c, s, from, env);
    ExpireAgrees(c, s, from, env);
    if from in s1.dict && from != to {
      var s2 := ExpireIfNeeded(c, s1, to, env);
      ExpireAgrees(c, s1, to, env);
      if !(to in s2.dict && nx) {
        DeleteAgrees(c, s2, to);
        var s3 := if to in s2.dict then DbDelete(c, s2, to) else s2;
        MoveAgrees(c, s3, GetExpire(s1.expires, from), from, to, s1.dict[from]);
      }
    }
  }

  lemma MoveAgrees(c: Config, s: Space, expire: int, from: string, to: string, v: Obj)
    requires Agree(c, s) && to !in s.dict
    ensures Agree(c, Move(c, s, expire, from, to, v))
  {
    var s4 := DbAdd(c, s, to, v);
    AddAgrees(c, s, to, v);
    DeleteAgrees(c, if expire != -1 then SetExpire(s4, to, expire) else s4, from);
  }

  // ---------------------------------------------------------------- over whole runs

  datatype Op =
    | OpAdd(k: string, v: Obj)
    | OpOverwrite(k: string, v: Obj)
    | OpDelete(k: string)
    | OpSet(k: string, v: Obj, env: Env)
    | OpLookup(k: string, env: Env)
    | OpSetExpire(k: string, when: int)
    | OpRemoveExpire(k: string)
    | OpRename(k: string, to: string, nx: bool, env: Env)
    | OpEmpty

  /** Where the server's own assertions hold. */
  predicate Allowed(s: Space, op: Op) {
    match op
    case OpAdd(k, v) => k !in s.dict
    case OpOverwrite(k, v) => k in s.dict
    case OpSetExpire(k, when) => k in s.dict
    case OpRemoveExpire(k) => k in s.dict
    case _ => true
  }

  function Apply(c: Config, s: Space, op: Op): Space
    requires |s.count| == CLUSTER_SLOTS && Allowed(s, op)
  {
    match op
    case OpAdd(k, v) => DbAdd(c, s, k, v)
    case OpOverwrite(k, v) => DbOverwrite(s, k, v)
    case OpDelete(k) => DbDelete(c, s, k)
    case OpSet(k, v, env) => SetKey(c, s, k, v, env)
    case OpLookup(k, env) => ExpireIfNeeded(c, s, k, env)
    case OpSetExpire(k, when) => SetExpire(s, k, when)
    case OpRemoveExpire(k) => RemoveExpire(s, k)
    case OpRename(k, to, nx, env) => Rename(c, s, k, to, nx, env)
    case OpEmpty => EmptyDb(c, s)
  }

  lemma ApplyAgrees(c: Config, s: Space, op: Op)
    requires Agree(c, s) && Allowed(s, op)
    ensures Agree(c, Apply(c, s, op))
  {
    match op
    case OpAdd(k, v) => AddAgrees(c, s, k, v);
    case OpOverwrite(k, v) => OverwriteAgrees(c, s, k, v);
    case OpDelete(k) => DeleteAgrees(c, s, k);
    case OpSet(k, v, env) => SetKeyAgrees(c, s, k, v, env);
    case OpLookup(k, env) => ExpireAgrees(c, s, k, env);
    case OpSetExpire(k, when) =>
    case OpRemoveExpire(k) =>
    case OpRename(k, to, nx, env) => RenameAgrees(c, s, k, to, nx, env);
    case OpEmpty => EmptyAgrees(c, s);
  }

  ghost predicate Run(c: Config, s: Space, ops: seq<Op>, s': Space)
    decreases |ops|
  {
    if ops == [] then s' == s
    else |s.count| == CLUSTER_SLOTS && Allowed(s, ops[0]) && Run(c, Apply(c, s, ops[0]), ops[1..], s')
  }

  function Fresh(): Space { Space(map[], map[], seq(CLUSTER_SLOTS, _ => 0), {}) }

  lemma {:induction false} RunAgrees(c: Config, s: Space, ops: seq<Op>, s': Space)
    requires Agree(c, s) && Run(c, s, ops, s')
    ensures Agree(c, s')
    decreases |ops|
  {
    if ops != [] {
      ApplyAgrees(c, s, ops[0]);
      RunAgrees(c, Apply(c, s, ops[0]), ops[1..], s');
    }
  }

  /** After every run the expires are of existing keys, the number kept for a slot is that of its
      keys and the index holds exactly the keys, each under its slot. */
  lemma IndexesAgree(c: Config, ops: seq<Op>, s: Space, slot: SlotNumber, k: string)
    requires Run(c, Fresh(), ops, s)
    ensures s.expires.Keys <= s.dict.Keys && |s.count| == CLUSTER_SLOTS
    ensures c.cluster ==> s.count[slot] == |set x | x in s.dict && c.slot(x) == slot|
    ensures c.cluster ==> (Prefix(slot) + k in s.index <==> k in s.dict && c.slot(k) == slot)
  {
    EmptyAgrees(c, Fresh());
    RunAgrees(c, Fresh(), ops, s);
    if c.cluster {
      assert s.count[slot] == |KeysIn(c, s.dict.Keys, slot)|;
      assert KeysIn(c, s.dict.Keys, slot) == set x | x in s.dict && c.slot(x) == slot;
      var x := Prefix(slot) + k;
      assert x[2..] == k;
      if x in s.index {
        PrefixInjective(slot, c.slot(k), k);
      }
    }
  }

  /** The two bytes tell the slot. */
  lemma PrefixInjective(a: SlotNumber, b: SlotNumber, k: string)
    requires Prefix(a) + k == Prefix(b) + k
    ensures a == b
  {
    assert (Prefix(a) + k)[0] == Prefix(a)[0] && (Prefix(a) + k)[1] == Prefix(a)[1];
    assert a == a / 256 * 256 + a % 256 && b == b / 256 * 256 + b % 256;
  }

  // ---------------------------------------------------------------- what clients see: a plain map

  /** Values and expire times by key, without any index. */
  datatype Plain = Plain(values: map<string, Obj>, times: map<string, int>)

  function PlainOf(s: Space): Plain { Plain(s.dict, s.expires) }

  /** The key's time lies in the past, as far as the server is concerned. */
  predicate Over(p: Plain, k: string, env: Env) {
    k in p.times && 0 <= p.times[k] < env.now && !env.loading
  }

  function Drop(p: Plain, keys: set<string>): Plain { Plain(p.values - keys, p.times - keys) }

  /** A lookup on a master forgets a key whose time is over. */
  function Touched(p: Plain, k: string, env: Env): Plain {
    if Over(p, k, env) && !env.replica then Drop(p, {k}) else p
  }

  /** The value and a time other than -1 go to the new name. */
  function Renamed(p: Plain, from: string, to: string): Plain
    requires from in p.values
  {
    Plain((p.values - {from})[to := p.values[from]],
          if from in p.times && p.times[from] != -1 then (p.times - {from})[to := p.times[from]] else p.times - {from, to})
  }

  function PlainRename(p: Plain, from: string, to: string, nx: bool, env: Env): Plain {
    var p1 := Touched(p, from, env);
    if from !in p1.values || from == to then p1
    else
      var p2 := Touched(p1, to, env);
      if to in p2.values && nx then p2 else Renamed(p2, from, to)
  }

  function PlainApply(p: Plain, op: Op): Plain {
    match op
    case OpAdd(k, v) => p.(values := p.values[k := v])
    case OpOverwrite(k, v) => p.(values := p.values[k := v])
    case OpDelete(k) => Drop(p, {k})
    case OpSet(k, v, env) => Plain(p.values[k := v], p.times - {k})
    case OpLookup(k, env) => Touched(p, k, env)
    case OpSetExpire(k, when) => p.(times := p.times[k := when])
    case OpRemoveExpire(k) => p.(times := p.times - {k})
    case OpRename(k, to, nx, env) => PlainRename(p, k, to, nx, env)
    case OpEmpty => Plain(map[], map[])
  }

  function PlainRun(p: Plain, ops: seq<Op>): Plain
    decreases |ops|
  {
    if ops == [] then p else PlainRun(PlainApply(p, ops[0]), ops[1..])
  }

  lemma WithoutIs<V>(m: map<string, V>, k: string)
    ensures Without(m, k) == m - {k} && (k !in m ==> Without(m, k) == m)
  {}

  lemma DeletePlain(c: Config, s: Space, k: string)
    requires |s.count| == CLUSTER_SLOTS
    ensures PlainOf(DbDelete(c, s, k)) == Drop(PlainOf(s), {k}) && |DbDelete(c, s, k).count| == CLUSTER_SLOTS
  {
    WithoutIs(s.dict, k);
    WithoutIs(s.expires, k);
  }

  lemma ExpirePlain(c: Config, s: Space, k: string, env: Env)
    requires |s.count| == CLUSTER_SLOTS
    ensures PlainOf(ExpireIfNeeded(c, s, k, env)) == Touched(PlainOf(s), k, env)
    ensures |ExpireIfNeeded(c, s, k, env).count| == CLUSTER_SLOTS
  {
    DeletePlain(c, s, k);
  }

  lemma SetPlain(c: Config, s: Space, k: string, v: Obj, env: Env)
    requires |s.count| == CLUSTER_SLOTS
    ensures PlainOf(SetKey(c, s, k, v, env)) == Plain(s.dict[k := v], s.expires - {k})
  {
    ExpirePlain(c, s, k, env);
    var s1 := ExpireIfNeeded(c, s, k, env);
    assert s1.dict[k := v] == s.dict[k := v];
    WithoutIs(s1.expires, k);
    assert s1.expires - {k} == s.expires - {k};
  }

  lemma MovePlain(c: Config, s: Space, expire: int, from: string, to: string, v: Obj)
    requires |s.count| == CLUSTER_SLOTS && to !in s.dict && from in s.dict
    ensures PlainOf(Move(c, s, expire, from, to, v))
            == Plain((s.dict - {from})[to := v],
                     if expire != -1 then (s.expires - {from})[to := expire] else s.expires - {from})
  {
    var s1 := DbAdd(c, s, to, v);
    var s2 := if expire != -1 then SetExpire(s1, to, expire) else s1;
    DeletePlain(c, s2, from);
    PutAndDrop(s.dict, from, to, v);
    PutAndDrop(s.expires, from, to, expire);
  }

  lemma PutAndDrop<V>(m: map<string, V>, from: string, to: string, v: V)
    requires from != to
    ensures m[to := v] - {from} == (m - {from})[to := v]
  {}

  lemma DropAndPut<V>(m: map<string, V>, from: string, to: string, v: V)
    ensures (m - {to} - {from})[to := v] == (m - {from})[to := v]
  {}

  lemma DropTwo<V>(m: map<string, V>, from: string, to: string)
    ensures m - {to} - {from} == m - {from, to}
  {}

  lemma RenamePlain(c: Config, s: Space, from: string, to: string, nx: bool, env: Env)
    requires |s.count| == CLUSTER_SLOTS && s.expires.Keys <= s.dict.Keys
    ensures PlainOf(Rename(c, s, from, to, nx, env)) == PlainRename(PlainOf(s), from, to, nx, env)
  {
    var s1 := ExpireIfNeeded(c, s, from, env);
    ExpirePlain(c, s, from, env);
    if from in s1.dict && from != to {
      var s2 := ExpireIfNeeded(c, s1, to, env);
      ExpirePlain(c, s1, to, env);
      if !(to in s2.dict && nx) { RenameRest(c, s1, s2, from, to); }
    }
  }

  /** RENAME of an existing key moves its value and its expire time, whatever was there before. */
  lemma RenameMoves(c: Config, s: Space, from: string, to: string, nx: bool, env: Env)
    requires |s.count| == CLUSTER_SLOTS && s.expires.Keys <= s.dict.Keys
    requires from in s.dict && from != to && (TimeIsOver(s, from, env) ==> env.replica)
    requires to in s.dict ==> !nx || (TimeIsOver(s, to, env) && !env.replica)
    ensures var s' := Rename(c, s, from, to, nx, env);
      && s'.dict == (s.dict - {from})[to := s.dict[from]]
      && s'.expires == if GetExpire(s.expires, from) != -1 then (s.expires - {from})[to := s.expires[from]]
                       else s.expires - {from, to}
  {
    RenamePlain(c, s, from, to, nx, env);
    var p, p' := PlainOf(s), Touched(PlainOf(s), to, env);
    assert (p'.values - {from})[to := s.dict[from]] == (p.values - {from})[to := s.dict[from]];
    assert p'.times - {from, to} == p.times - {from, to};
    if from in s.expires {
      assert (p'.times - {from})[to := s.expires[from]] == (p.times - {from})[to := s.expires[from]];
    }
  }

  /** The part of a rename after its lookups. */
  lemma RenameRest(c: Config, s1: Space, s2: Space, from: string, to: string)
    requires |s2.count| == CLUSTER_SLOTS && s2.expires.Keys <= s2.dict.Keys && from in s1.dict && from != to
    requires from in s2.dict && s2.dict[from] == s1.dict[from] && GetExpire(s2.expires, from) == GetExpire(s1.expires, from)
    ensures var s3 := if to in s2.dict then DbDelete(c, s2, to) else s2;
      && |s3.count| == CLUSTER_SLOTS && to !in s3.dict
      && PlainOf(Move(c, s3, GetExpire(s1.expires, from), from, to, s1.dict[from])) == Renamed(PlainOf(s2), from, to)
  {
    var s3 := if to in s2.dict then DbDelete(c, s2, to) else s2;
    var expire := GetExpire(s1.expires, from);
    DeletePlain(c, s2, to);
    assert s3.dict == s2.dict - {to} && s3.expires == s2.expires - {to};
    MovePlain(c, s3, expire, from, to, s1.dict[from]);
    DropAndPut(s2.dict, from, to, s1.dict[from]);
    DropAndPut(s2.expires, from, to, expire);
    DropTwo(s2.expires, from, to);
  }

  lemma ApplyPlain(c: Config, s: Space, op: Op)
    requires Agree(c, s) && Allowed(s, op)
    ensures PlainOf(Apply(c, s, op)) == PlainApply(PlainOf(s), op)
  {
    match op
    case OpAdd(k, v) =>
    case OpOverwrite(k, v) =>
    case OpDelete(k) => DeletePlain(c, s, k);
    case OpSet(k, v, env) => SetPlain(c, s, k, v, env);
    case OpLookup(k, env) => ExpirePlain(c, s, k, env);
    case OpSetExpire(k, when) =>
    case OpRemoveExpire(k) => WithoutIs(s.expires, k);
    case OpRename(k, to, nx, env) => RenamePlain(c, s, k, to, nx, env);
    case OpEmpty =>
  }

  /** Over every run, values and expire times are those of a plain map under the same operations,
      whatever slots, counts and indexes are kept beside them. */
  lemma {:induction false} RunPlain(c: Config, s: Space, ops: seq<Op>, s': Space)
    requires Agree(c, s) && Run(c, s, ops, s')
    ensures PlainOf(s') == PlainRun(PlainOf(s), ops)
    decreases |ops|
  {
    if ops != [] {
      ApplyPlain(c, s, ops[0]);
      ApplyAgrees(c, s, ops[0]);
      RunPlain(c, Apply(c, s, ops[0]), ops[1..], s');
    }
  }
}
