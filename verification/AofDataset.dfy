/** The rewrite of the append only file: the commands that rebuild the dataset. An object is given
    as its iterator presents it. */
module AofDataset {
  import opened AofFormat
  import opened AofLog

  datatype Obj =
    | OStr(s: string)
    | OList(items: seq<string>)
    | OSet(elems: seq<string>)
    | OHash(fields: seq<(string, string)>)

  datatype Expire = Never | At(when: nat)

  datatype Entry = Entry(key: string, obj: Obj, expire: Expire)

  // ---------------------------------------------------------------- the commands emitted

  function Singles(xs: seq<string>): seq<Argv> { seq(|xs|, i requires 0 <= i < |xs| => [xs[i]]) }

  function Pairs(fs: seq<(string, string)>): seq<Argv> { seq(|fs|, i requires 0 <= i < |fs| => [fs[i].0, fs[i].1]) }

  function Flat(items: seq<Argv>): Argv { if items == [] then [] else items[0] + Flat(items[1..]) }

  function Min(a: nat, b: nat): nat { if a < b then a else b }

  /** Commands of at most K items each. */
  function Chunks(name: string, key: string, items: seq<Argv>, K: nat): seq<Argv>
    requires K >= 1
  {
    if items == [] then []
    else
      var n := Min(K, |items|);
      [[name, key] + Flat(items[..n])] + Chunks(name, key, items[n..], K)
  }

  function Emit(key: string, o: Obj, K: nat): seq<Argv>
    requires K >= 1
  {
    match o
    case OStr(s) => [["SET", key, s]]
    case OList(items) => Chunks("RPUSH", key, Singles(items), K)
    case OSet(elems) => Chunks("SADD", key, Singles(elems), K)
    case OHash(fields) => Chunks("HMSET", key, Pairs(fields), K)
  }

  predicate Expired(e: Entry, now: nat) { e.expire.At? && e.expire.when < now }

  function EmitExpire(e: Entry): seq<Argv> {
    if e.expire.At? then [["PEXPIREAT", e.key, Dec(e.expire.when)]] else []
  }

  function EmitEntry(e: Entry, now: nat, K: nat): seq<Argv>
    requires K >= 1
  {
    if Expired(e, now) then [] else Emit(e.key, e.obj, K) + EmitExpire(e)
  }

  function EmitEntries(es: seq<Entry>, now: nat, K: nat): seq<Argv>
    requires K >= 1
  {
    if es == [] then [] else EmitEntry(es[0], now, K) + EmitEntries(es[1..], now, K)
  }

  /** The databases from number j on; empty ones are not mentioned. */
  function EmitDbs(dbs: seq<seq<Entry>>, j: nat, now: nat, K: nat): seq<Argv>
    requires K >= 1 && j <= |dbs|
    decreases |dbs| - j
  {
    if j == |dbs| then []
    else (if dbs[j] == [] then [] else [Select(j)] + EmitEntries(dbs[j], now, K)) + EmitDbs(dbs, j + 1, now, K)
  }

  // ---------------------------------------------------------------- what is written to the file

  /** rioWriteBulkCount and rioWriteBulkString, the two things the rewriters write. */
  datatype Piece = Count(n: nat) | Bulk(s: string)

  function Text(p: Piece): string {
    match p
    case Count(n) => "*" + Dec(n) + "\r\n"
    case Bulk(s) => PrintArg(s)
  }

  function Texts(ps: seq<Piece>): string { if ps == [] then "" else Text(ps[0]) + Texts(ps[1..]) }

  function Bulks(args: Argv): seq<Piece> { seq(|args|, i requires 0 <= i < |args| => Bulk(args[i])) }

  function PiecesOf(cmd: Argv): seq<Piece> { [Count(|cmd|)] + Bulks(cmd) }

  function Pieces(cmds: seq<Argv>): seq<Piece> {
    if cmds == [] then [] else PiecesOf(cmds[0]) + Pieces(cmds[1..])
  }

  lemma {:induction false} TextsSum(a: seq<Piece>, b: seq<Piece>)
    ensures Texts(a + b) == Texts(a) + Texts(b)
  {
    if a == [] {
      assert a + b == b;
    } else {
      assert (a + b)[1..] == a[1..] + b;
      TextsSum(a[1..], b);
    }
  }

  lemma {:induction false} TextsOfBulks(args: Argv)
    ensures Texts(Bulks(args)) == PrintArgs(args)
  {
    if args != [] {
      assert Bulks(args)[1..] == Bulks(args[1..]);
      TextsOfBulks(args[1..]);
    }
  }

  /** Pieces of commands are printed commands. */
  lemma {:induction false} TextsOfPieces(cmds: seq<Argv>)
    ensures Texts(Pieces(cmds)) == PrintAll(cmds)
  {
    if cmds != [] {
      var cmd := cmds[0];
      TextsSum(PiecesOf(cmd), Pieces(cmds[1..]));
      assert PiecesOf(cmd)[1..] == Bulks(cmd);
      TextsOfBulks(cmd);
      TextsOfPieces(cmds[1..]);
    }
  }

  lemma {:induction false} PiecesSum(a: seq<Argv>, b: seq<Argv>)
    ensures Pieces(a + b) == Pieces(a) + Pieces(b)
  {
    if a == [] {
      assert a + b == b;
    } else {
      assert (a + b)[1..] == a[1..] + b;
      PiecesSum(a[1..], b);
    }
  }

  lemma PiecesOne(cmd: Argv)
    ensures Pieces([cmd]) == PiecesOf(cmd)
  {
    assert [cmd][1..] == [];
  }

  // ---------------------------------------------------------------- the loop over items

  /** Hash items are a field and a value, others one argument. */
  function Width(pairs: bool): nat { if pairs then 2 else 1 }

  lemma {:induction false} FlatLength(items: seq<Argv>, pairs: bool)
    requires forall i :: 0 <= i < |items| ==> |items[i]| == Width(pairs)
    ensures |Flat(items)| == if pairs then 2 * |items| else |items|
  {
    if items != [] {
      FlatLength(items[1..], pairs);
    }
  }

  /** The arguments of a command of n items, with its name and key. */
  function HeaderCount(n: nat, pairs: bool): nat { if pairs then 2 + n * 2 else 2 + n }

  /** Every command but the last has K items, and the last at least one and at most K. */
  lemma {:induction false} ChunkSizes(name: string, key: string, items: seq<Argv>, pairs: bool, K: nat, i: nat)
    requires K >= 1 && (forall j :: 0 <= j < |items| ==> |items[j]| == Width(pairs)) && i < |Chunks(name, key, items, K)|
    ensures var cs := Chunks(name, key, items, K);
      && |cs[i]| >= 3 && cs[i][0] == name && cs[i][1] == key
      && |cs[i]| <= (if pairs then 2 * K else K) + 2
      && (i < |cs| - 1 ==> |cs[i]| == (if pairs then 2 * K else K) + 2)
    decreases |items|
  {
    var n := Min(K, |items|);
    if i == 0 {
      FlatLength(items[..n], pairs);
    } else {
      ChunkSizes(name, key, items[n..], pairs, K, i - 1);
    }
  }

  /** What is still to be written when `count` items of the running command have been. */
  function Pending(name: string, key: string, items: seq<Argv>, K: nat, count: nat): seq<Piece>
    requires K >= 1 && count < K
  {
    if count == 0 then Pieces(Chunks(name, key, items, K)) else InChunk(name, key, items, K, Min(K - count, |items|))
  }

  /** The next r items belong to the running command. */
  function InChunk(name: string, key: string, items: seq<Argv>, K: nat, r: nat): seq<Piece>
    requires K >= 1 && r <= |items|
  {
    Bulks(Flat(items[..r])) + Pieces(Chunks(name, key, items[r..], K))
  }

  lemma ChunkPieces(name: string, key: string, args: Argv)
    ensures PiecesOf([name, key] + args) == [Count(2 + |args|), Bulk(name), Bulk(key)] + Bulks(args)
  {}

  lemma ChunkFirst(name: string, key: string, args: Argv, more: seq<Argv>)
    ensures Pieces([[name, key] + args] + more) == [Count(2 + |args|), Bulk(name), Bulk(key)] + (Bulks(args) + Pieces(more))
  {
    PiecesSum([[name, key] + args], more);
    PiecesOne([name, key] + args);
    ChunkPieces(name, key, args);
  }

  /** Opening a command: its header tells the number of arguments that follow. */
  lemma PendingOpen(name: string, key: string, items: seq<Argv>, K: nat, pairs: bool)
    requires K >= 1 && items != [] && forall i :: 0 <= i < |items| ==> |items[i]| == Width(pairs)
    ensures var n := Min(K, |items|);
      Pending(name, key, items, K, 0) == [Count(HeaderCount(n, pairs)), Bulk(name), Bulk(key)] + InChunk(name, key, items, K, n)
  {
    var n := Min(K, |items|);
    FlatLength(items[..n], pairs);
    ChunkFirst(name, key, Flat(items[..n]), Chunks(name, key, items[n..], K));
  }

  lemma BulksSum(a: Argv, b: Argv)
    ensures Bulks(a + b) == Bulks(a) + Bulks(b)
  {}

  /** One item of the running command. */
  lemma InChunkItem(name: string, key: string, items: seq<Argv>, K: nat, r: nat)
    requires K >= 1 && 1 <= r <= |items|
    ensures InChunk(name, key, items, K, r) == Bulks(items[0]) + InChunk(name, key, items[1..], K, r - 1)
  {
    var rest := items[1..];
    assert items[..r][1..] == rest[..r - 1] && items[r..] == rest[r - 1..];
    BulksSum(items[0], Flat(rest[..r - 1]));
  }

  lemma InChunkEnd(name: string, key: string, items: seq<Argv>, K: nat)
    requires K >= 1
    ensures InChunk(name, key, items, K, 0) == Pieces(Chunks(name, key, items, K))
  {
    assert items[..0] == [] && items[0..] == items;
  }

  lemma PendingItem(name: string, key: string, items: seq<Argv>, K: nat, count: nat)
    requires K >= 1 && count < K && items != []
    ensures InChunk(name, key, items, K, Min(K - count, |items|))
            == Bulks(items[0]) + Pending(name, key, items[1..], K, if count + 1 == K then 0 else count + 1)
  {
    InChunkItem(name, key, items, K, Min(K - count, |items|));
    if count + 1 == K {
      InChunkEnd(name, key, items[1..], K);
    }
  }

  /** What is written before the arguments of an item: the header, where a command begins. */
  function HeadOf(name: string, key: string, left: nat, pairs: bool, K: nat, count: nat): seq<Piece> {
    if count == 0 then [Count(HeaderCount(Min(K, left), pairs)), Bulk(name), Bulk(key)] else []
  }

  function NextCount(K: nat, count: nat): nat { if count + 1 == K then 0 else count + 1 }

  lemma PendingRound(name: string, key: string, items: seq<Argv>, pairs: bool, K: nat, count: nat)
    requires K >= 1 && count < K && items != [] && forall i :: 0 <= i < |items| ==> |items[i]| == Width(pairs)
    ensures Pending(name, key, items, K, count)
            == HeadOf(name, key, |items|, pairs, K, count)
               + (Bulks(items[0]) + Pending(name, key, items[1..], K, NextCount(K, count)))
  {
    PendingItem(name, key, items, K, count);
    if count == 0 {
      PendingOpen(name, key, items, K, pairs);
    } else {
      var p := Pending(name, key, items, K, count);
      assert [] + p == p;
    }
  }

  /** One round of the loop below. */
  lemma FirstOfRest(items: seq<Argv>, i: nat)
    requires i < |items|
    ensures items[i..][0] == items[i] && items[i..][1..] == items[i + 1..] && |items[i..]| == |items| - i
    ensures forall j :: 0 <= j < |items[i..]| ==> items[i..][j] == items[i + j]
  {}

  lemma RoundOfItems(name: string, key: string, items: seq<Argv>, i: nat, pairs: bool, K: nat, count: nat,
                     out: seq<Piece>, all: seq<Piece>)
    requires K >= 1 && count < K && i < |items| && forall j :: 0 <= j < |items| ==> |items[j]| == Width(pairs)
    requires out + Pending(name, key, items[i..], K, count) == all
    ensures out + HeadOf(name, key, |items| - i, pairs, K, count) + Bulks(items[i])
            + Pending(name, key, items[i + 1..], K, NextCount(K, count)) == all
  {
    var rest := items[i..];
    FirstOfRest(items, i);
    PendingRound(name, key, rest, pairs, K, count);
    Regrouped(all, out, HeadOf(name, key, |rest|, pairs, K, count), Bulks(rest[0]),
              Pending(name, key, rest[1..], K, NextCount(K, count)));
  }

  lemma Regrouped(all: seq<Piece>, a: seq<Piece>, b: seq<Piece>, c: seq<Piece>, d: seq<Piece>)
    requires a + (b + (c + d)) == all
    ensures a + b + c + d == all
  {}

  /** Writes item i, and the header of a command if one begins with it. */
  method WriteItem(name: string, key: string, items: seq<Argv>, i: nat, pairs: bool, K: nat, count: nat,
                   out: seq<Piece>, ghost all: seq<Piece>) returns (out': seq<Piece>, count': nat)
    requires K >= 1 && count < K && i < |items| && forall j :: 0 <= j < |items| ==> |items[j]| == Width(pairs)
    requires out + Pending(name, key, items[i..], K, count) == all
    ensures count' < K && out' + Pending(name, key, items[i + 1..], K, count') == all
  {
    RoundOfItems(name, key, items, i, pairs, K, count, out, all);
    out' := out + HeadOf(name, key, |items| - i, pairs, K, count) + Bulks(items[i]);
    count' := count + 1;
    if count' == K {
      count' := 0;
    }
  }

  /** The loop of the rewrite functions of lists, sets and hashes. */
  method RewriteItems(name: string, key: string, items: seq<Argv>, pairs: bool, K: nat) returns (out: seq<Piece>)
    requires K >= 1 && forall i :: 0 <= i < |items| ==> |items[i]| == Width(pairs)
    ensures out == Pieces(Chunks(name, key, items, K))
  {
    out := [];
    var count: nat, i: nat := 0, 0;
    ghost var all := Pieces(Chunks(name, key, items, K));
    assert items[0..] == items;
    while i < |items|
      invariant i <= |items| && count < K && out + Pending(name, key, items[i..], K, count) == all
    {
      out, count := WriteItem(name, key, items, i, pairs, K, count, out, all);
      i := i + 1;
    }
    PendingNone(name, key, items[i..], K, count);
  }

  lemma PendingNone(name: string, key: string, items: seq<Argv>, K: nat, count: nat)
    requires K >= 1 && count < K && items == []
    ensures Pending(name, key, items, K, count) == []
  {}

  // ---------------------------------------------------------------- the loops over entries and databases

  method RewriteObject(key: string, o: Obj, K: nat) returns (out: seq<Piece>)
    requires K >= 1
    ensures out == Pieces(Emit(key, o, K))
  {
    match o
    case OStr(s) =>
      PiecesOne(["SET", key, s]);
      out := [Count(3), Bulk("SET"), Bulk(key), Bulk(s)];
    case OList(items) => out := RewriteItems("RPUSH", key, Singles(items), false, K);
    case OSet(elems) => out := RewriteItems("SADD", key, Singles(elems), false, K);
    case OHash(fields) => out := RewriteItems("HMSET", key, Pairs(fields), true, K);
  }

  method RewriteEntry(e: Entry, now: nat, K: nat) returns (out: seq<Piece>)
    requires K >= 1
    ensures out == Pieces(EmitEntry(e, now, K))
    ensures out == if e.expire.At? && e.expire.when < now then []
                   else Pieces(Emit(e.key, e.obj, K)) + if e.expire == Never then []
                        else [Count(3), Bulk("PEXPIREAT"), Bulk(e.key), Bulk(Dec(e.expire.when))]
  {
    if e.expire.At? && e.expire.when < now {
      return [];
    }
    out := RewriteObject(e.key, e.obj, K);
    PiecesSum(Emit(e.key, e.obj, K), EmitExpire(e));
    if e.expire.At? {
      PiecesOne(["PEXPIREAT", e.key, Dec(e.expire.when)]);
      out := out + [Count(3), Bulk("PEXPIREAT"), Bulk(e.key), Bulk(Dec(e.expire.when))];
    } else {
      assert out + [] == out;
    }
  }

  lemma PiecesRound(a: seq<Argv>, b: seq<Argv>, out: seq<Piece>, all: seq<Piece>)
    requires out + Pieces(a + b) == all
    ensures out + Pieces(a) + Pieces(b) == all
  {
    PiecesSum(a, b);
  }

  lemma EntriesFirst(es: seq<Entry>, i: nat, now: nat, K: nat)
    requires K >= 1 && i < |es|
    ensures EmitEntries(es[i..], now, K) == EmitEntry(es[i], now, K) + EmitEntries(es[i + 1..], now, K)
  {
    assert es[i..][1..] == es[i + 1..];
  }

  lemma EntriesRound(es: seq<Entry>, i: nat, now: nat, K: nat, out: seq<Piece>, all: seq<Piece>)
    requires K >= 1 && i < |es| && out + Pieces(EmitEntries(es[i..], now, K)) == all
    ensures out + Pieces(EmitEntry(es[i], now, K)) + Pieces(EmitEntries(es[i + 1..], now, K)) == all
  {
    EntriesFirst(es, i, now, K);
    PiecesRound(EmitEntry(es[i], now, K), EmitEntries(es[i + 1..], now, K), out, all);
  }

  method RewriteDb(es: seq<Entry>, now: nat, K: nat, before: seq<Piece>) returns (out: seq<Piece>)
    requires K >= 1
    ensures out == before + Pieces(EmitEntries(es, now, K))
  {
    out := before;
    ghost var all := before + Pieces(EmitEntries(es, now, K));
    var i: nat := 0;
    assert es[0..] == es;
    while i < |es|
      invariant i <= |es| && out + Pieces(EmitEntries(es[i..], now, K)) == all
    {
      var one := RewriteEntry(es[i], now, K);
      EntriesRound(es, i, now, K, out, all);
      out := out + one;
      i := i + 1;
    }
    assert es[i..] == [];
  }

  /** rewriteAppendOnlyFileRio: every database that holds keys, entry by entry. */
  method RewriteAppendOnlyFileRio(dbs: seq<seq<Entry>>, now: nat, K: nat) returns (out: seq<Piece>)
    requires K >= 1
    ensures out == Pieces(EmitDbs(dbs, 0, now, K))
  {
    out := [];
    ghost var all := Pieces(EmitDbs(dbs, 0, now, K));
    var j: nat := 0;
    while j < |dbs|
      invariant j <= |dbs| && out + Pieces(EmitDbs(dbs, j, now, K)) == all
    {
      if dbs[j] != [] {
        DbPieces(dbs, j, now, K);
        var select := [Count(2), Bulk("SELECT"), Bulk(Dec(j))];
        Regrouped(all, out, select, Pieces(EmitEntries(dbs[j], now, K)), Pieces(EmitDbs(dbs, j + 1, now, K)));
        out := RewriteDb(dbs[j], now, K, out + select);
      } else {
        EmptyDbPieces(dbs, j, now, K);
      }
      j := j + 1;
    }
  }

  lemma PiecesAfter(cmd: Argv, a: seq<Argv>, b: seq<Argv>)
    ensures Pieces([cmd] + a + b) == PiecesOf(cmd) + (Pieces(a) + Pieces(b))
  {
    PiecesSum([cmd] + a, b);
    PiecesSum([cmd], a);
    PiecesOne(cmd);
  }

  lemma SelectPieces(j: nat)
    ensures PiecesOf(Select(j)) == [Count(2), Bulk("SELECT"), Bulk(Dec(j))]
  {}

  lemma DbPieces(dbs: seq<seq<Entry>>, j: nat, now: nat, K: nat)
    requires K >= 1 && j < |dbs| && dbs[j] != []
    ensures Pieces(EmitDbs(dbs, j, now, K))
            == [Count(2), Bulk("SELECT"), Bulk(Dec(j))] + (Pieces(EmitEntries(dbs[j], now, K)) + Pieces(EmitDbs(dbs, j + 1, now, K)))
  {
    SelectPieces(j);
    PiecesAfter(Select(j), EmitEntries(dbs[j], now, K), EmitDbs(dbs, j + 1, now, K));
  }

  lemma EmptyDbPieces(dbs: seq<seq<Entry>>, j: nat, now: nat, K: nat)
    requires K >= 1 && j < |dbs| && dbs[j] == []
    ensures EmitDbs(dbs, j, now, K) == EmitDbs(dbs, j + 1, now, K)
  {}
}
