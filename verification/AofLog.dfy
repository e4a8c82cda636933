/** The append only file as a log: commands are fed to a buffer, the buffer is flushed by writes
    that may fail or fall short, and a rewrite replaces the file by a snapshot and what was fed
    since. */
module AofLog {
  import opened AofFormat

  // ---------------------------------------------------------------- replaying a command list

  function Select(db: nat): Argv { ["SELECT", Dec(db)] }

  predicate IsSelect(cmd: Argv) {
    |cmd| == 2 && cmd[0] == "SELECT" && forall i :: 0 <= i < |cmd[1]| ==> IsDigit(cmd[1][i])
  }

  /** The database selected after replaying commands from a fresh connection. */
  function DbAfter(cmds: seq<Argv>): nat {
    if cmds == [] then 0
    else
      var last := cmds[|cmds| - 1];
      if IsSelect(last) then Value(last[1]) else DbAfter(cmds[..|cmds| - 1])
  }

  /** The other commands, each with the database it runs in. */
  function Executed(cmds: seq<Argv>): seq<(nat, Argv)> {
    if cmds == [] then []
    else
      var front, last := cmds[..|cmds| - 1], cmds[|cmds| - 1];
      if IsSelect(last) then Executed(front) else Executed(front) + [(DbAfter(front), last)]
  }

  lemma ReplayOne(cmds: seq<Argv>, cmd: Argv)
    ensures DbAfter(cmds + [cmd]) == if IsSelect(cmd) then Value(cmd[1]) else DbAfter(cmds)
    ensures Executed(cmds + [cmd]) == if IsSelect(cmd) then Executed(cmds) else Executed(cmds) + [(DbAfter(cmds), cmd)]
  {
    assert (cmds + [cmd])[..|cmds|] == cmds;
  }

  function InDb(db: nat, cmds: seq<Argv>): seq<(nat, Argv)> { seq(|cmds|, i requires 0 <= i < |cmds| => (db, cmds[i])) }

  predicate NoSelect(cmds: seq<Argv>) { forall i :: 0 <= i < |cmds| ==> !IsSelect(cmds[i]) }

  lemma {:induction false} ReplayMore(cmds: seq<Argv>, more: seq<Argv>)
    requires NoSelect(more)
    ensures DbAfter(cmds + more) == DbAfter(cmds)
    ensures Executed(cmds + more) == Executed(cmds) + InDb(DbAfter(cmds), more)
    decreases |more|
  {
    if more == [] {
      assert cmds + more == cmds;
    } else {
      var k := |more| - 1;
      var front, last := more[..k], more[k];
      ReplayMore(cmds, front);
      assert more == front + [last];
      SumOfThree(cmds, front, [last]);
      ReplayOne(cmds + front, last);
      InDbLast(DbAfter(cmds), front, last);
      SumOfThree(Executed(cmds), InDb(DbAfter(cmds), front), [(DbAfter(cmds), last)]);
    }
  }

  lemma InDbLast(db: nat, front: seq<Argv>, last: Argv)
    ensures InDb(db, front + [last]) == InDb(db, front) + [(db, last)]
  {}

  lemma SumOfThree<T>(a: seq<T>, b: seq<T>, c: seq<T>)
    ensures a + (b + c) == a + b + c
  {}

  /** What is replayed of a shorter list comes first. */
  lemma {:induction false} ReplayFront(cmds: seq<Argv>, m: nat)
    requires m <= |cmds|
    ensures Executed(cmds[..m]) <= Executed(cmds)
    decreases |cmds| - m
  {
    if m == |cmds| {
      assert cmds[..m] == cmds;
    } else {
      ReplayFront(cmds, m + 1);
      assert cmds[..m + 1] == cmds[..m] + [cmds[m]];
      ReplayOne(cmds[..m], cmds[m]);
    }
  }

  // ---------------------------------------------------------------- the log

  /** `server.aof_buf`, `aof_current_size` and `aof_selected_db`, with the file behind them. */
  datatype Log = Log(file: string, buf: string, size: nat, selected: int)

  /** A rewrite in progress: what the child writes and what was fed since the fork. */
  datatype Child = NoChild | Child(snapshot: string, diff: string)

  const NO_DB := -1

  /** The commands one call of feedAppendOnlyFile appends: those of the client's command, after a
      SELECT if another database was selected last. */
  function FedCommands(selected: int, db: nat, cmds: seq<Argv>): seq<Argv> {
    (if db != selected then [Select(db)] else []) + cmds
  }

  function Feed(l: Log, db: nat, cmds: seq<Argv>): Log {
    l.(buf := l.buf + PrintAll(FedCommands(l.selected, db, cmds)), selected := db)
  }

  function FeedChild(c: Child, l: Log, db: nat, cmds: seq<Argv>): Child {
    match c
    case NoChild => NoChild
    case Child(snapshot, diff) => Child(snapshot, diff + PrintAll(FedCommands(l.selected, db, cmds)))
  }

  /** What aofWrite may return for a buffer: an error, or a number of bytes that were written. */
  predicate Possible(l: Log, n: int) { n == -1 || 0 < n <= |l.buf| || n == |l.buf| }

  function Ftruncate(file: string, size: nat): string {
    if size <= |file| then file[..size] else file + seq(size - |file|, _ => 0 as char)
  }

  /** flushAppendOnlyFile where it goes on: n is the result of the write and `undone` that of
      cutting the file back after a short one. */
  function Flush(l: Log, n: int, undone: bool): Log
    requires Possible(l, n)
  {
    if n == -1 then l
    else if n < |l.buf| && undone then l.(file := Ftruncate(l.file + l.buf[..n], l.size))
    else l.(file := l.file + l.buf[..n], buf := l.buf[n..], size := l.size + n)
  }

  datatype Event =
    | FeedEvent(db: nat, cmds: seq<Argv>)
    | FlushEvent(n: int, undone: bool)
    | ForkEvent(snapshot: seq<Argv>)
    | FinishEvent
    | AbortEvent

  /** The server and its history: the commands printed to file and buffer, those printed since the
      fork, the commands of the child's snapshot, and the commands clients ran, with their
      databases, overall and since the fork. */
  datatype State = State(
    log: Log,
    child: Child,
    printed: seq<Argv>,
    since: seq<Argv>,
    snapshot: seq<Argv>,
    wanted: seq<(nat, Argv)>,
    wantedSince: seq<(nat, Argv)>)

  predicate Enabled(s: State, ev: Event) {
    match ev
    case FeedEvent(db, cmds) => db < 0x8000_0000 && NoSelect(cmds) && AllPrintable(cmds)
    case FlushEvent(n, undone) => Possible(s.log, n)
    case ForkEvent(snapshot) => s.child.NoChild? && AllPrintable(snapshot)
    case FinishEvent => s.child.Child?
    case AbortEvent => true
  }

  function Apply(s: State, ev: Event): State
    requires Enabled(s, ev)
  {
    match ev
    case FeedEvent(db, cmds) =>
      var fed := FedCommands(s.log.selected, db, cmds);
      s.(log := Feed(s.log, db, cmds), child := FeedChild(s.child, s.log, db, cmds),
         printed := s.printed + fed, since := s.since + fed,
         wanted := s.wanted + InDb(db, cmds), wantedSince := s.wantedSince + InDb(db, cmds))
    case FlushEvent(n, undone) => s.(log := Flush(s.log, n, undone))
    case ForkEvent(snapshot) =>
      s.(log := s.log.(selected := NO_DB), child := Child(PrintAll(snapshot), ""),
         since := [], snapshot := snapshot, wantedSince := [])
    case FinishEvent =>
      var file := s.child.snapshot + s.child.diff;
      s.(log := Log(file, "", |file|, NO_DB), child := NoChild,
         printed := s.snapshot + s.since, wanted := Executed(s.snapshot) + s.wantedSince)
    case AbortEvent => s.(child := NoChild)
  }

  // ---------------------------------------------------------------- what every event keeps

  /** A printed command list replays to what was wanted, and its last database is the one the
      server remembers, if it remembers one. */
  ghost predicate Replays(cmds: seq<Argv>, wanted: seq<(nat, Argv)>, selected: int) {
    && AllPrintable(cmds) && Executed(cmds) == wanted
    && (selected == NO_DB || DbAfter(cmds) == selected)
  }

  ghost predicate Conserved(l: Log, printed: seq<Argv>) {
    l.file + l.buf == PrintAll(printed) && l.size == |l.file|
  }

  ghost predicate ChildOk(s: State) {
    s.child.Child? ==>
      && s.child.snapshot == PrintAll(s.snapshot) && s.child.diff == PrintAll(s.since)
      && Replays(s.snapshot + s.since, Executed(s.snapshot) + s.wantedSince, s.log.selected)
  }

  ghost predicate Inv(s: State) {
    Conserved(s.log, s.printed) && Replays(s.printed, s.wanted, s.log.selected) && ChildOk(s)
  }

  lemma {:induction false} PrintSum(a: seq<Argv>, b: seq<Argv>)
    ensures PrintAll(a + b) == PrintAll(a) + PrintAll(b)
  {
    if a == [] {
      assert a + b == b;
    } else {
      assert (a + b)[1..] == a[1..] + b;
      PrintSum(a[1..], b);
    }
  }

  lemma SelectPrintable(db: nat)
    requires db < 0x8000_0000
    ensures Printable(Select(db)) && IsSelect(Select(db)) && Value(Select(db)[1]) == db
  {
    DecLength(db);
    ValueOfDec(db);
  }

  /** Feeding keeps a list replaying, whichever database was selected before. */
  lemma FeedReplays(cmds: seq<Argv>, wanted: seq<(nat, Argv)>, selected: int, db: nat, more: seq<Argv>)
    requires Replays(cmds, wanted, selected) && NoSelect(more) && AllPrintable(more) && db < 0x8000_0000
    ensures Replays(cmds + FedCommands(selected, db, more), wanted + InDb(db, more), db)
  {
    var first := if db != selected then [Select(db)] else [];
    SelectPrintable(db);
    assert cmds + FedCommands(selected, db, more) == (cmds + first) + more;
    if db != selected {
      ReplayOne(cmds, Select(db));
    } else {
      assert cmds + first == cmds;
    }
    ReplayMore(cmds + first, more);
  }

  /** No outcome of a write loses a byte. */
  lemma FlushKeeps(l: Log, n: int, undone: bool)
    requires Possible(l, n)
    ensures var l' := Flush(l, n, undone);
      l.size == |l.file| ==> l'.size == |l'.file| && l'.file + l'.buf == l.file + l.buf
  {
    if n >= 0 {
      assert (l.file + l.buf[..n])[..|l.file|] == l.file;
      assert l.file + l.buf[..n] + l.buf[n..] == l.file + l.buf;
    }
  }

  lemma FlushConserves(l: Log, printed: seq<Argv>, n: int, undone: bool)
    requires Conserved(l, printed) && Possible(l, n)
    ensures Conserved(Flush(l, n, undone), printed)
    ensures Flush(l, n, undone).selected == l.selected
  {
    FlushKeeps(l, n, undone);
  }

  lemma FeedConserves(l: Log, printed: seq<Argv>, db: nat, cmds: seq<Argv>)
    requires Conserved(l, printed)
    ensures Conserved(Feed(l, db, cmds), printed + FedCommands(l.selected, db, cmds))
  {
    PrintSum(printed, FedCommands(l.selected, db, cmds));
  }

  lemma FeedSince(snapshot: seq<Argv>, since: seq<Argv>, wantedSince: seq<(nat, Argv)>, selected: int, db: nat, cmds: seq<Argv>)
    requires Replays(snapshot + since, Executed(snapshot) + wantedSince, selected)
    requires NoSelect(cmds) && AllPrintable(cmds) && db < 0x8000_0000
    ensures Replays(snapshot + (since + FedCommands(selected, db, cmds)), Executed(snapshot) + (wantedSince + InDb(db, cmds)), db)
  {
    FeedReplays(snapshot + since, Executed(snapshot) + wantedSince, selected, db, cmds);
    SumOfThree(snapshot, since, FedCommands(selected, db, cmds));
    SumOfThree(Executed(snapshot), wantedSince, InDb(db, cmds));
  }

  lemma FeedChildOk(s: State, db: nat, cmds: seq<Argv>)
    requires ChildOk(s) && Enabled(s, FeedEvent(db, cmds))
    ensures ChildOk(Apply(s, FeedEvent(db, cmds)))
  {
    if s.child.Child? {
      PrintSum(s.since, FedCommands(s.log.selected, db, cmds));
      FeedSince(s.snapshot, s.since, s.wantedSince, s.log.selected, db, cmds);
    }
  }

  lemma ApplyInv(s: State, ev: Event)
    requires Inv(s) && Enabled(s, ev)
    ensures Inv(Apply(s, ev))
  {
    match ev
    case FeedEvent(db, cmds) =>
      FeedConserves(s.log, s.printed, db, cmds);
      FeedReplays(s.printed, s.wanted, s.log.selected, db, cmds);
      FeedChildOk(s, db, cmds);
    case FlushEvent(n, undone) => FlushConserves(s.log, s.printed, n, undone);
    case ForkEvent(snapshot) =>
      assert snapshot + [] == snapshot && Executed(snapshot) + [] == Executed(snapshot);
    case FinishEvent => PrintSum(s.snapshot, s.since);
    case AbortEvent =>
  }

  ghost predicate Run(s: State, evs: seq<Event>, s': State)
    decreases |evs|
  {
    if evs == [] then s' == s else Enabled(s, evs[0]) && Run(Apply(s, evs[0]), evs[1..], s')
  }

  lemma {:induction false} RunInv(s: State, evs: seq<Event>, s': State)
    requires Inv(s) && Run(s, evs, s')
    ensures Inv(s')
    decreases |evs|
  {
    if evs != [] {
      ApplyInv(s, evs[0]);
      RunInv(Apply(s, evs[0]), evs[1..], s');
    }
  }

  /** A server that has just created its file. */
  function Fresh(): State { State(Log("", "", 0, NO_DB), NoChild, [], [], [], [], []) }

  /** No event that does not end the server loses, repeats or reorders a byte. */
  lemma LogConservation(evs: seq<Event>, s: State)
    requires Run(Fresh(), evs, s)
    ensures s.log.file + s.log.buf == PrintAll(s.printed) && s.log.size == |s.log.file|
  {
    RunInv(Fresh(), evs, s);
  }

  /** A flush that writes everything leaves nothing to write, and from then on the file alone holds all
      that was wanted, whatever happened before. */
  lemma FlushedReplays(evs: seq<Event>, s: State, undone: bool)
    requires Run(Fresh(), evs, s)
    ensures Enabled(s, FlushEvent(|s.log.buf|, undone))
    ensures var s' := Apply(s, FlushEvent(|s.log.buf|, undone));
      && s'.log.file == s.log.file + s.log.buf && s'.log.buf == "" && s'.wanted == s.wanted
      && LoadFile(StrTol, s'.log.file).why == Loaded && Executed(LoadFile(StrTol, s'.log.file).cmds) == s.wanted
  {
    var ev := FlushEvent(|s.log.buf|, undone);
    var s' := Apply(s, ev);
    assert s.log.buf[..|s.log.buf|] == s.log.buf;
    RunInv(Fresh(), evs, s);
    ApplyInv(s, ev);
    assert s'.log.file == s'.log.file + s'.log.buf == PrintAll(s'.printed);
    LoadPrinted(s'.printed);
  }

  /** Whatever part of the buffer reached the file, loading it runs commands that were wanted, from
      the first on and each in its own database; all of them once the buffer is empty. */
  lemma ReplayInOwnDb(evs: seq<Event>, s: State)
    requires Run(Fresh(), evs, s)
    ensures var load := LoadFile(StrTol, s.log.file);
      && (load.why == Loaded || load.why == Truncated)
      && Executed(load.cmds) <= s.wanted
      && (s.log.buf == "" ==> load.why == Loaded && Executed(load.cmds) == s.wanted)
  {
    RunInv(Fresh(), evs, s);
    var k := |s.log.file|;
    assert PrintAll(s.printed)[..k] == s.log.file;
    LoadCut(s.printed, k);
    ReplayFront(s.printed, WholeWithin(Print, s.printed, k));
    if s.log.buf == "" {
      assert s.log.file == PrintAll(s.printed);
      LoadPrinted(s.printed);
    }
  }

  // ---------------------------------------------------------------- rewrites keep the dataset

  /** The dataset that commands lead to from d, whatever a command does to a dataset. */
  function Effect<D>(exec: (D, (nat, Argv)) -> D, d: D, run: seq<(nat, Argv)>): D
    decreases |run|
  {
    if run == [] then d else exec(Effect(exec, d, run[..|run| - 1]), run[|run| - 1])
  }

  lemma {:induction false} EffectSum<D>(exec: (D, (nat, Argv)) -> D, d: D, a: seq<(nat, Argv)>, b: seq<(nat, Argv)>)
    ensures Effect(exec, d, a + b) == Effect(exec, Effect(exec, d, a), b)
    decreases |b|
  {
    if b == [] {
      assert a + b == a;
    } else {
      var k := |b| - 1;
      EffectSum(exec, d, a, b[..k]);
      assert (a + b)[..|a + b| - 1] == a + b[..k];
    }
  }

  function ServedBy<D>(exec: (D, (nat, Argv)) -> D, d: D, ev: Event): D {
    if ev.FeedEvent? then Effect(exec, d, InDb(ev.db, ev.cmds)) else d
  }

  /** The dataset that clients see after events: every command they ran, and nothing else. */
  function Served<D>(exec: (D, (nat, Argv)) -> D, d: D, evs: seq<Event>): D
    decreases |evs|
  {
    if evs == [] then d else Served(exec, ServedBy(exec, d, evs[0]), evs[1..])
  }

  /** Every child is given commands that rebuild the dataset of its fork, from an empty one. */
  ghost predicate Faithful<D>(exec: (D, (nat, Argv)) -> D, empty: D, d: D, evs: seq<Event>)
    decreases |evs|
  {
    evs == [] ||
    (&& (evs[0].ForkEvent? ==> Effect(exec, empty, Executed(evs[0].snapshot)) == d)
     && Faithful(exec, empty, ServedBy(exec, d, evs[0]), evs[1..]))
  }

  /** What is on record, and what a running rewrite would put there, amounts to the dataset d. */
  ghost predicate Means<D>(exec: (D, (nat, Argv)) -> D, empty: D, s: State, d: D) {
    && Effect(exec, empty, s.wanted) == d
    && (s.child.Child? ==> Effect(exec, empty, Executed(s.snapshot) + s.wantedSince) == d)
  }

  lemma StepMeans<D>(exec: (D, (nat, Argv)) -> D, empty: D, s: State, d: D, ev: Event)
    requires Means(exec, empty, s, d) && Enabled(s, ev)
    requires ev.ForkEvent? ==> Effect(exec, empty, Executed(ev.snapshot)) == d
    ensures Means(exec, empty, Apply(s, ev), ServedBy(exec, d, ev))
  {
    match ev
    case FeedEvent(db, cmds) =>
      EffectSum(exec, empty, s.wanted, InDb(db, cmds));
      EffectSum(exec, empty, Executed(s.snapshot) + s.wantedSince, InDb(db, cmds));
      SumOfThree(Executed(s.snapshot), s.wantedSince, InDb(db, cmds));
    case ForkEvent(snapshot) => assert Executed(snapshot) + [] == Executed(snapshot);
    case _ =>
  }

  lemma {:induction false} RunMeans<D>(exec: (D, (nat, Argv)) -> D, empty: D, s: State, d: D, evs: seq<Event>, s': State)
    requires Means(exec, empty, s, d) && Run(s, evs, s') && Faithful(exec, empty, d, evs)
    ensures Means(exec, empty, s', Served(exec, d, evs))
    decreases |evs|
  {
    if evs != [] {
      StepMeans(exec, empty, s, d, evs[0]);
      RunMeans(exec, empty, Apply(s, evs[0]), ServedBy(exec, d, evs[0]), evs[1..], s');
    }
  }

  /** Through any number of rewrites, finished or failed, the file and what waits to be written load to
      the dataset that clients see, if every child rebuilds the dataset it was forked with. */
  lemma LoadsServed<D>(exec: (D, (nat, Argv)) -> D, empty: D, evs: seq<Event>, s: State)
    requires Run(Fresh(), evs, s) && Faithful(exec, empty, empty, evs)
    ensures var load := LoadFile(StrTol, s.log.file + s.log.buf);
      load.why == Loaded && Effect(exec, empty, Executed(load.cmds)) == Served(exec, empty, evs)
  {
    RunMeans(exec, empty, Fresh(), empty, evs, s);
    RunInv(Fresh(), evs, s);
    LoadPrinted(s.printed);
  }
}
