/** The append only file's buffer and size, updated in place. */
module AofLogImpl {
  import opened AofFormat
  import opened AofLog

  /** The result of one write(2). */
  datatype Written = Wrote(n: nat) | Interrupted | Failed

  lemma FedPrint(selected: int, db: nat, cmds: seq<Argv>)
    ensures PrintAll(FedCommands(selected, db, cmds))
            == (if db != selected then "" + Print(Select(db)) else "") + PrintAll(cmds)
  {
    if db != selected {
      PrintSum([Select(db)], cmds);
      assert [Select(db)][1..] == [];
      assert PrintAll([Select(db)]) == Print(Select(db)) + "" == "" + Print(Select(db));
    } else {
      assert [] + cmds == cmds && "" + PrintAll(cmds) == PrintAll(cmds);
    }
  }

  method CatAll(dst: string, cmds: seq<Argv>) returns (r: string)
    ensures r == dst + PrintAll(cmds)
  {
    r := dst;
    var j := 0;
    assert cmds[0..] == cmds;
    while j < |cmds|
      invariant 0 <= j <= |cmds| && r + PrintAll(cmds[j..]) == dst + PrintAll(cmds)
    {
      assert cmds[j..][1..] == cmds[j + 1..];
      ghost var was := r;
      r := CatAppendOnlyGenericCommand(r, cmds[j]);
      assert r + PrintAll(cmds[j + 1..]) == was + (Print(cmds[j]) + PrintAll(cmds[j + 1..]));
      j := j + 1;
    }
  }

  /** How many of len bytes the calls take before one of them fails. */
  function Accepted(len: nat, results: seq<Written>): (k: nat)
    ensures k <= len
    decreases |results|
  {
    if len == 0 || results == [] || results[0].Failed? then 0
    else if results[0].Interrupted? then Accepted(len, results[1..])
    else
      var k := if results[0].n < len then results[0].n else len;
      k + Accepted(len - k, results[1..])
  }

  /** What the calls before the first failure offer to take. */
  function Offered(results: seq<Written>): nat {
    if results == [] || results[0].Failed? then 0
    else (if results[0].Wrote? then results[0].n else 0) + Offered(results[1..])
  }

  /** All of it is written if the calls take enough before one fails, and as much as they take otherwise. */
  lemma {:induction false} AcceptedIs(len: nat, results: seq<Written>)
    ensures Accepted(len, results) == if Offered(results) < len then Offered(results) else len
    decreases |results|
  {
    if results != [] && len > 0 && !results[0].Failed? {
      var k := if results[0].Interrupted? then 0 else if results[0].n < len then results[0].n else len;
      AcceptedIs(len - k, results[1..]);
    }
  }

  /** What aofWrite returns: -1 if nothing at all was written. */
  function WriteResult(len: nat, results: seq<Written>): int {
    if len > 0 && Accepted(len, results) == 0 then -1 else Accepted(len, results)
  }

  class AppendOnlyFile {
    var file: string
    var buf: string
    var size: nat
    var selected: int
    var lastWriteOk: bool
    const fsyncAlways: bool

    constructor (fsyncAlways: bool)
      ensures State() == Fresh().log && lastWriteOk && this.fsyncAlways == fsyncAlways
    {
      this.fsyncAlways := fsyncAlways;
      file, buf, size, selected, lastWriteOk := "", "", 0, NO_DB, true;
    }

    function State(): Log
      reads this
    {
      Log(file, buf, size, selected)
    }

    /** aofWrite: goes on after short and interrupted writes; `results` are those of the calls it
        makes, and the call after the last of them fails. */
    method Write(data: string, results: seq<Written>) returns (n: int)
      modifies this`file
      ensures n == WriteResult(|data|, results)
      ensures Offered(results) >= |data| <==> n == |data|
      ensures 0 < Offered(results) < |data| ==> n == Offered(results)
      ensures file == old(file) + if n == -1 then "" else data[..n]
    {
      var done, i := 0, 0;
      AcceptedIs(|data|, results);
      assert data[..0] == "" && results[0..] == results;
      while done < |data|
        invariant 0 <= done <= |data| && i <= |results|
        invariant file == old(file) + data[..done]
        invariant done + Accepted(|data| - done, results[i..]) == Accepted(|data|, results)
        decreases |results| - i
      {
        assert i < |results| ==> results[i..][1..] == results[i + 1..];
        if i == |results| || results[i].Failed? {
          return if done > 0 then done else -1;
        }
        if results[i].Wrote? {
          var k := if results[i].n < |data| - done then results[i].n else |data| - done;
          assert data[..done + k] == data[..done] + data[done..done + k];
          file := file + data[done..done + k];
          done := done + k;
        }
        i := i + 1;
      }
      return done;
    }

    /** flushAppendOnlyFile; `postpone` is its decision to wait for a running fsync. */
    method Flush(postpone: bool, results: seq<Written>, undoFails: bool) returns (exits: bool, n: int)
      modifies this
      ensures n == if postpone || old(buf) == "" then -1 else WriteResult(old(|buf|), results)
      ensures !postpone && old(buf) != "" ==> (n == old(|buf|) <==> Offered(results) >= old(|buf|))
      ensures exits <==> fsyncAlways && !postpone && n < old(|buf|) && old(buf) != ""
      ensures Possible(old(State()), n)
      ensures !exits ==> lastWriteOk == if postpone || old(buf) == "" then old(lastWriteOk) else n == old(|buf|)
      ensures !exits ==> State() == AofLog.Flush(old(State()), n, !undoFails)
      ensures !exits && old(size == |file|) ==> size == |file| && file + buf == old(file + buf)
      ensures n == old(|buf|) ==> file == old(file) + old(buf) && buf == "" && size == old(size) + n
      ensures !exits && 0 < n < old(|buf|) && undoFails
              ==> file == old(file) + old(buf)[..n] && buf == old(buf)[n..] && size == old(size) + n
      ensures !exits && 0 < n < old(|buf|) && !undoFails && old(size == |file|)
              ==> file == old(file) && buf == old(buf) && size == old(size)
      ensures n == -1 ==> file == old(file) && buf == old(buf) && size == old(size)
      ensures selected == old(selected)
    {
      if buf == "" || postpone {
        return false, -1;
      }
      ghost var l := State();
      n := Write(buf, results);
      if n != |buf| {
        var left := n;
        if n != -1 {
          if !undoFails {
            file := Ftruncate(file, size);
            left := -1;
          }
        }
        if fsyncAlways {
          return true, n;
        }
        lastWriteOk := false;
        if left > 0 {
          size := size + left;
          buf := buf[left..];
        }
        FlushKeeps(l, n, !undoFails);
        return false, n;
      }
      lastWriteOk := true;
      size := size + n;
      buf := "";
      FlushKeeps(l, n, !undoFails);
      return false, n;
    }

    /** feedAppendOnlyFile with the file switched on; returns what a rewrite child is sent. */
    method Feed(db: nat, cmds: seq<Argv>) returns (fed: string)
      modifies this`buf, this`selected
      ensures State() == AofLog.Feed(old(State()), db, cmds)
      ensures fed == (if db != old(selected) then Print(["SELECT", Dec(db)]) else "") + PrintAll(cmds)
      ensures fed == PrintAll(FedCommands(old(selected), db, cmds)) && buf == old(buf) + fed && selected == db
    {
      FedPrint(selected, db, cmds);
      fed := "";
      if db != selected {
        fed := CatAppendOnlyGenericCommand(fed, Select(db));
        selected := db;
      }
      fed := CatAll(fed, cmds);
      buf := buf + fed;
    }
  }
}
