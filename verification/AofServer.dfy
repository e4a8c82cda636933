/** The log and the rewrite together: the server feeds its log and the child at once, bytes reach the
    child through blocks and a pipe in any order of steps, and what the child wrote, followed by what
    the parent still holds, becomes the new file. Such a server refines the log of AofLog, in which a
    rewrite is one step. */
module AofServer {
  import opened AofFormat
  import L = AofLog
  import R = AofRewrite

  /** A rewrite under way: parent, pipes and child. */
  datatype Rewrite = NoRewrite | Rewrite(sys: R.Sys)

  /** The server, and the history that AofLog keeps of it. */
  datatype Server = Server(
    log: L.Log,
    rewrite: Rewrite,
    printed: seq<Argv>,
    since: seq<Argv>,
    snapshot: seq<Argv>,
    wanted: seq<(nat, Argv)>,
    wantedSince: seq<(nat, Argv)>)

  datatype Event =
    | FeedEvent(db: nat, cmds: seq<Argv>)
    | FlushEvent(n: int, undone: bool)
    | ForkEvent(snapshot: seq<Argv>)
    | StepEvent(ev: R.Event)     // a step of the handoff that feeds nothing
    | InstallEvent               // the child exited with success
    | AbortEvent                 // the child failed, or the new file could not be completed

  predicate Enabled(s: Server, ev: Event) {
    match ev
    case FeedEvent(db, cmds) => db < 0x8000_0000 && L.NoSelect(cmds) && AllPrintable(cmds)
    case FlushEvent(n, undone) => L.Possible(s.log, n)
    case ForkEvent(snapshot) => s.rewrite.NoRewrite? && AllPrintable(snapshot)
    case StepEvent(ev) => s.rewrite.Rewrite? && !ev.Feed?
    case InstallEvent => s.rewrite.Rewrite? && s.rewrite.sys.phase.Exited?
    case AbortEvent => true
  }

  function FeedRewrite(w: Rewrite, bytes: string): Rewrite {
    match w
    case NoRewrite => NoRewrite
    case Rewrite(sys) => Rewrite(R.Apply(sys, R.Feed(bytes)))
  }

  function Apply(s: Server, ev: Event): Server
    requires Enabled(s, ev)
  {
    match ev
    case FeedEvent(db, cmds) =>
      var fed := L.FedCommands(s.log.selected, db, cmds);
      s.(log := L.Feed(s.log, db, cmds), rewrite := FeedRewrite(s.rewrite, PrintAll(fed)),
         printed := s.printed + fed, since := s.since + fed,
         wanted := s.wanted + L.InDb(db, cmds), wantedSince := s.wantedSince + L.InDb(db, cmds))
    case FlushEvent(n, undone) => s.(log := L.Flush(s.log, n, undone))
    case ForkEvent(snapshot) =>
      s.(log := s.log.(selected := L.NO_DB), rewrite := Rewrite(R.Start(PrintAll(snapshot))),
         since := [], snapshot := snapshot, wantedSince := [])
    case StepEvent(ev) => s.(rewrite := Rewrite(R.Apply(s.rewrite.sys, ev)))
    case InstallEvent =>
      var file := R.Installed(s.rewrite.sys);
      s.(log := L.Log(file, "", |file|, L.NO_DB), rewrite := NoRewrite,
         printed := s.snapshot + s.since, wanted := L.Executed(s.snapshot) + s.wantedSince)
    case AbortEvent => s.(rewrite := NoRewrite)
  }

  // ---------------------------------------------------------------- refinement

  /** The rewrite as the log sees it: what the child will write, and all that was fed. */
  function ChildOf(w: Rewrite): L.Child {
    match w
    case NoRewrite => L.NoChild
    case Rewrite(sys) => L.Child(sys.snapshot, sys.fed)
  }

  function LogOf(s: Server): L.State {
    L.State(s.log, ChildOf(s.rewrite), s.printed, s.since, s.snapshot, s.wanted, s.wantedSince)
  }

  /** The events of the log that an event of the server amounts to. */
  function LogEvents(ev: Event): seq<L.Event> {
    match ev
    case FeedEvent(db, cmds) => [L.FeedEvent(db, cmds)]
    case FlushEvent(n, undone) => [L.FlushEvent(n, undone)]
    case ForkEvent(snapshot) => [L.ForkEvent(snapshot)]
    case StepEvent(_) => []
    case InstallEvent => [L.FinishEvent]
    case AbortEvent => [L.AbortEvent]
  }

  function Logged(evs: seq<Event>): seq<L.Event>
    decreases |evs|
  {
    if evs == [] then [] else LogEvents(evs[0]) + Logged(evs[1..])
  }

  /** The rewrite keeps its invariant. */
  ghost predicate RewriteOk(s: Server) { s.rewrite.Rewrite? ==> R.Inv(s.rewrite.sys) }

  /** A child that exited has read all that the parent sent. */
  ghost predicate Drained(s: Server) {
    s.rewrite.Rewrite? && s.rewrite.sys.phase.Exited? ==> s.rewrite.sys.pipe == ""
  }

  lemma StepRewriteOk(s: Server, ev: Event)
    requires RewriteOk(s) && Enabled(s, ev)
    ensures RewriteOk(Apply(s, ev))
  {
    match ev
    case FeedEvent(db, cmds) =>
      if s.rewrite.Rewrite? { R.ApplyInv(s.rewrite.sys, R.Feed(PrintAll(L.FedCommands(s.log.selected, db, cmds)))); }
    case StepEvent(ev) => R.ApplyInv(s.rewrite.sys, ev);
    case _ =>
  }

  /** The last read of a child ends at an empty pipe. */
  predicate Drains(ev: Event) { ev.StepEvent? && ev.ev.FinalRead? ==> ev.ev.left == 0 }

  lemma StepDrained(s: Server, ev: Event)
    requires RewriteOk(s) && Drained(s) && Enabled(s, ev) && Drains(ev)
    ensures Drained(Apply(s, ev))
  {
    match ev
    case FeedEvent(db, cmds) =>
    case StepEvent(ev) => if s.rewrite.sys.phase.Exited? { R.ExitedStays(s.rewrite.sys, ev); }
    case _ =>
  }

  lemma StepFeedsNothing(sys: R.Sys, ev: R.Event)
    requires !ev.Feed?
    ensures R.Apply(sys, ev).snapshot == sys.snapshot && R.Apply(sys, ev).fed == sys.fed
  {}

  /** Every event of the server is what the log does in its events, or nothing. */
  lemma StepRefines(s: Server, ev: Event)
    requires RewriteOk(s) && Drained(s) && Enabled(s, ev)
    ensures L.Run(LogOf(s), LogEvents(ev), LogOf(Apply(s, ev)))
  {
    match ev
    case StepEvent(step) => StepFeedsNothing(s.rewrite.sys, step);
    case InstallEvent => R.InstalledIff(s.rewrite.sys);
    case _ =>
  }

  // ---------------------------------------------------------------- whole runs

  ghost predicate Run(s: Server, evs: seq<Event>, s': Server)
    decreases |evs|
  {
    if evs == [] then s' == s else Enabled(s, evs[0]) && Run(Apply(s, evs[0]), evs[1..], s')
  }

  lemma {:induction false} LogRunThen(a: L.State, evs: seq<L.Event>, b: L.State, more: seq<L.Event>, c: L.State)
    requires L.Run(a, evs, b) && L.Run(b, more, c)
    ensures L.Run(a, evs + more, c)
    decreases |evs|
  {
    if evs == [] {
      assert evs + more == more;
    } else {
      LogRunThen(L.Apply(a, evs[0]), evs[1..], b, more, c);
      assert (evs + more)[1..] == evs[1..] + more;
    }
  }

  /** Every run of the server is a run of the log, if last reads end at an empty pipe. */
  lemma {:induction false} RunRefines(s: Server, evs: seq<Event>, s': Server)
    requires RewriteOk(s) && Drained(s) && Run(s, evs, s') && forall i :: 0 <= i < |evs| ==> Drains(evs[i])
    ensures L.Run(LogOf(s), Logged(evs), LogOf(s'))
    decreases |evs|
  {
    if evs != [] {
      var s1 := Apply(s, evs[0]);
      StepRefines(s, evs[0]);
      StepRewriteOk(s, evs[0]);
      StepDrained(s, evs[0]);
      RunRefines(s1, evs[1..], s');
      LogRunThen(LogOf(s), LogEvents(evs[0]), LogOf(s1), Logged(evs[1..]), LogOf(s'));
    }
  }

  /** A server that has just created its file. */
  function Fresh(): Server { Server(L.Log("", "", 0, L.NO_DB), NoRewrite, [], [], [], [], []) }

  /** Over every interleaving of clients, writes, forks, pipes and finished or failed rewrites no byte
      is lost, repeated or reordered. */
  lemma ServerConserves(evs: seq<Event>, s: Server)
    requires Run(Fresh(), evs, s) && forall i :: 0 <= i < |evs| ==> Drains(evs[i])
    ensures s.log.file + s.log.buf == PrintAll(s.printed) && s.log.size == |s.log.file|
  {
    RunRefines(Fresh(), evs, s);
    L.LogConservation(Logged(evs), LogOf(s));
  }

  /** And whatever reached the file loads to the commands that were wanted, in their databases. */
  lemma ServerReplays(evs: seq<Event>, s: Server)
    requires Run(Fresh(), evs, s) && forall i :: 0 <= i < |evs| ==> Drains(evs[i])
    ensures var load := LoadFile(StrTol, s.log.file);
      && (load.why == Loaded || load.why == Truncated)
      && L.Executed(load.cmds) <= s.wanted
      && (s.log.buf == "" ==> load.why == Loaded && L.Executed(load.cmds) == s.wanted)
  {
    RunRefines(Fresh(), evs, s);
    L.ReplayInOwnDb(Logged(evs), LogOf(s));
  }

  function ServedBy<D>(exec: (D, (nat, Argv)) -> D, d: D, ev: Event): D {
    if ev.FeedEvent? then L.Effect(exec, d, L.InDb(ev.db, ev.cmds)) else d
  }

  /** The dataset that clients see after events. */
  function Served<D>(exec: (D, (nat, Argv)) -> D, d: D, evs: seq<Event>): D
    decreases |evs|
  {
    if evs == [] then d else Served(exec, ServedBy(exec, d, evs[0]), evs[1..])
  }

  /** Every child rebuilds, from an empty one, the dataset it was forked with. */
  ghost predicate Faithful<D>(exec: (D, (nat, Argv)) -> D, empty: D, d: D, evs: seq<Event>)
    decreases |evs|
  {
    evs == [] ||
    (&& (evs[0].ForkEvent? ==> L.Effect(exec, empty, L.Executed(evs[0].snapshot)) == d)
     && Faithful(exec, empty, ServedBy(exec, d, evs[0]), evs[1..]))
  }

  lemma {:induction false} LoggedServed<D>(exec: (D, (nat, Argv)) -> D, empty: D, d: D, evs: seq<Event>)
    requires Faithful(exec, empty, d, evs)
    ensures L.Faithful(exec, empty, d, Logged(evs)) && L.Served(exec, d, Logged(evs)) == Served(exec, d, evs)
    decreases |evs|
  {
    if evs != [] {
      LoggedServed(exec, empty, ServedBy(exec, d, evs[0]), evs[1..]);
      if evs[0].StepEvent? {
        assert Logged(evs) == Logged(evs[1..]);
      } else {
        assert Logged(evs)[1..] == Logged(evs[1..]);
      }
    }
  }

  /** However clients, writes, forks, pipes and rewrites interleave, the file and what waits to be
      written load to the dataset that clients see. */
  lemma ServerLoadsServed<D>(exec: (D, (nat, Argv)) -> D, empty: D, evs: seq<Event>, s: Server)
    requires Run(Fresh(), evs, s) && (forall i :: 0 <= i < |evs| ==> Drains(evs[i])) && Faithful(exec, empty, empty, evs)
    ensures var load := LoadFile(StrTol, s.log.file + s.log.buf);
      load.why == Loaded && L.Effect(exec, empty, L.Executed(load.cmds)) == Served(exec, empty, evs)
  {
    RunRefines(Fresh(), evs, s);
    LoggedServed(exec, empty, empty, evs);
    L.LoadsServed(exec, empty, Logged(evs), LogOf(s));
  }

  // ---------------------------------------------------------------- when a read stops early

  /** What the child was given and what was fed since are the printed commands of the history. */
  ghost predicate FedOk(s: Server) {
    s.rewrite.Rewrite? ==>
      s.rewrite.sys.snapshot == PrintAll(s.snapshot) && s.rewrite.sys.fed == PrintAll(s.since)
  }

  lemma StepFedOk(s: Server, ev: Event)
    requires FedOk(s) && Enabled(s, ev)
    ensures FedOk(Apply(s, ev))
  {
    match ev
    case FeedEvent(db, cmds) => L.PrintSum(s.since, L.FedCommands(s.log.selected, db, cmds));
    case StepEvent(step) => StepFeedsNothing(s.rewrite.sys, step);
    case _ =>
  }

  lemma {:induction false} RunFedOk(s: Server, evs: seq<Event>, s': Server)
    requires RewriteOk(s) && FedOk(s) && Run(s, evs, s')
    ensures RewriteOk(s') && FedOk(s')
    decreases |evs|
  {
    if evs != [] {
      StepRewriteOk(s, evs[0]);
      StepFedOk(s, evs[0]);
      RunFedOk(Apply(s, evs[0]), evs[1..], s');
    }
  }

  /** In any run at all, a rewrite installs the snapshot and everything fed since the fork exactly
      when the child's last read emptied the pipe. */
  lemma InstallExact(evs: seq<Event>, s: Server)
    requires Run(Fresh(), evs, s) && Enabled(s, InstallEvent)
    ensures var s' := Apply(s, InstallEvent);
      s'.log.file + s'.log.buf == PrintAll(s'.printed) <==> s.rewrite.sys.pipe == ""
  {
    RunFedOk(Fresh(), evs, s);
    R.InstalledIff(s.rewrite.sys);
    L.PrintSum(s.snapshot, s.since);
    assert R.Installed(s.rewrite.sys) + "" == R.Installed(s.rewrite.sys);
  }
}
