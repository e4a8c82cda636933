/** What elections can do: the votes of any majority elect a replica. And why safety needs its
    hypothesis: whatever masters and replicas there are and whatever epochs they have stored,
    acknowledgements counted too late let two replicas win one epoch. */
module ElectionRuns {
  import opened Election

  lemma KnownAfter(c: Config, s: Sys, ev: Event)
    requires Known(c, s)
    ensures Known(c, Apply(c, s, ev))
  {
    match ev
    case Header(n, epoch) => if n in s.nodes { KnownAfterSet(c, s, n, Apply(c, s, ev).nodes[n]); }
    case Reset(r) =>
      if r in c.replicas {
        KnownAfterSet(c, s, r, s.nodes[r].(authCount := 0, authSent := false));
        assert s.counted[r := {}].Keys == s.counted.Keys && s.stale[r := 0].Keys == s.stale.Keys;
      }
    case Start(r) => if r in c.replicas { KnownAfterSet(c, s, r, Apply(c, s, ev).nodes[r]); }
    case DeliverRequest(m, r, epoch, ok) =>
      if m in c.masters && (r, epoch) in s.requests { RequestKnown(c, s, m, r, epoch, ok); }
    case DeliverAck(a) => if a in s.acks && a.candidate in c.replicas { AckKnown(c, s, a); }
    case LoseAck(a) =>
    case TryWin(r) => if r in c.replicas { KnownAfterSet(c, s, r, Apply(c, s, ev).nodes[r]); }
    case Demote(r) => if r in c.replicas { KnownAfterSet(c, s, r, Apply(c, s, ev).nodes[r]); }
  }

  lemma RequestKnown(c: Config, s: Sys, m: Id, r: Id, epoch: nat, ok: bool)
    requires Known(c, s) && m in c.masters
    ensures Known(c, OnRequest(s, m, r, epoch, ok))
  {
    var s1 := OnHeader(s, m, epoch);
    KnownAfterSet(c, s, m, s1.nodes[m]);
    KnownAfterSet(c, s1, m, Grant(s1, m, r).nodes[m]);
  }

  lemma AckKnown(c: Config, s: Sys, a: Ack)
    requires Known(c, s) && a.candidate in c.replicas
    ensures Known(c, OnAck(c, s, a))
  {
    var r := a.candidate;
    KnownAfterSet(c, s, r, OnHeader(s, r, a.epoch).nodes[r]);
    var s1 := OnHeader(s, r, a.epoch).(acks := s.acks - multiset{a});
    assert Known(c, s1);
    if a.voter in c.masters && a.epoch >= s1.nodes[r].authEpoch {
      KnownAfterSet(c, s1, r, CountVote(s1, r, a.voter).nodes[r]);
      assert CountVote(s1, r, a.voter).counted.Keys == s1.counted.Keys;
      assert CountVote(s1, r, a.voter).stale.Keys == s1.stale.Keys;
    }
  }

  /** The state after the events. */
  function Run(c: Config, s: Sys, evs: seq<Event>): (s': Sys)
    requires Known(c, s)
    ensures Known(c, s')
    decreases |evs|
  {
    if evs == [] then s else KnownAfter(c, s, evs[0]); Run(c, Apply(c, s, evs[0]), evs[1..])
  }

  lemma RunOne(c: Config, s: Sys, ev: Event)
    requires Known(c, s)
    ensures Run(c, s, [ev]) == Apply(c, s, ev)
  {
    KnownAfter(c, s, ev);
  }

  lemma RunFirst(c: Config, s: Sys, ev: Event, evs: seq<Event>)
    requires Known(c, s)
    ensures Known(c, Apply(c, s, ev)) && Run(c, s, [ev] + evs) == Run(c, Apply(c, s, ev), evs)
  {
    KnownAfter(c, s, ev);
    assert ([ev] + evs)[1..] == evs;
  }

  lemma {:induction false} RunThen(c: Config, s: Sys, evs: seq<Event>, more: seq<Event>)
    requires Known(c, s)
    ensures Run(c, s, evs + more) == Run(c, Run(c, s, evs), more)
    decreases |evs|
  {
    if evs == [] {
      assert evs + more == more;
    } else {
      var ev, rest := evs[0], evs[1..];
      assert evs == [ev] + rest && evs + more == [ev] + (rest + more);
      RunFirst(c, s, ev, rest);
      RunFirst(c, s, ev, rest + more);
      RunThen(c, Apply(c, s, ev), rest, more);
    }
  }

  /** The run as a sequence of states. */
  lemma {:induction false} RunTrace(c: Config, s: Sys, evs: seq<Event>) returns (ss: seq<Sys>)
    requires Known(c, s)
    ensures Trace(c, ss, evs) && ss[0] == s && Last(ss) == Run(c, s, evs)
    decreases |evs|
  {
    if evs == [] {
      ss := [s];
    } else {
      KnownAfter(c, s, evs[0]);
      var rest := RunTrace(c, Apply(c, s, evs[0]), evs[1..]);
      ss := [s] + rest;
      TraceFirst(c, s, rest, evs);
    }
  }

  lemma TraceFirst(c: Config, s: Sys, rest: seq<Sys>, evs: seq<Event>)
    requires evs != [] && Known(c, s) && Trace(c, rest, evs[1..]) && rest[0] == Apply(c, s, evs[0])
    ensures Trace(c, [s] + rest, evs)
  {
    var ss := [s] + rest;
    forall i | 0 <= i < |evs| ensures Known(c, ss[i]) && ss[i + 1] == Apply(c, ss[i], evs[i]) {
      if i > 0 { assert ss[i + 1] == rest[i - 1 + 1] && ss[i] == rest[i - 1] && evs[i] == evs[1..][i - 1]; }
    }
  }

  // ---------------------------------------------------------------- single events

  lemma VoteStep(c: Config, s: Sys, m: Id, r: Id, e: nat)
    requires Known(c, s) && m in c.masters && (r, e) in s.requests
    requires s.nodes[m].currentEpoch <= e && s.nodes[m].lastVoteEpoch < e
    ensures var s' := Apply(c, s, DeliverRequest(m, r, e, true));
      && s'.nodes == s.nodes[m := s.nodes[m].(currentEpoch := e, lastVoteEpoch := e)]
      && s'.acks == s.acks + multiset{Ack(m, r, e)} && s'.requests == s.requests && s'.wins == s.wins
  {}

  lemma CountStep(c: Config, s: Sys, m: Id, r: Id, e: nat)
    requires Known(c, s) && m in c.masters && r in c.replicas && Ack(m, r, e) in s.acks
    requires s.nodes[r].authEpoch <= e <= s.nodes[r].currentEpoch
    ensures var s' := Apply(c, s, DeliverAck(Ack(m, r, e)));
      && s'.nodes == s.nodes[r := s.nodes[r].(authCount := s.nodes[r].authCount + 1)]
      && s'.acks == s.acks - multiset{Ack(m, r, e)} && s'.wins == s.wins
  {}

  // ---------------------------------------------------------------- all masters

  function Requests(ms: seq<Id>, r: Id, e: nat): (evs: seq<Event>) {
    seq(|ms|, i requires 0 <= i < |ms| => DeliverRequest(ms[i], r, e, true))
  }

  function Answers(ms: seq<Id>, r: Id, e: nat): (evs: seq<Event>) {
    seq(|ms|, i requires 0 <= i < |ms| => DeliverAck(Ack(ms[i], r, e)))
  }

  /** A list of more than half of the masters. */
  ghost predicate Majority(c: Config, ms: seq<Id>) { Distinct(ms) && Within(ms, c.masters) && 2 * |ms| > |c.masters| }

  ghost predicate Listed(ms: seq<Id>, masters: set<Id>) {
    && |ms| == |masters| && Within(ms, masters) && (forall m :: m in masters ==> m in ms) && Distinct(ms)
  }

  ghost predicate Distinct(ms: seq<Id>) { forall i, j :: 0 <= i < j < |ms| ==> ms[i] != ms[j] }

  lemma {:induction false} ListOf(masters: set<Id>) returns (ms: seq<Id>)
    ensures Listed(ms, masters)
    decreases |masters|
  {
    ms := [];
    if masters != {} {
      var m :| m in masters;
      ms := ListOf(masters - {m});
      ms := [m] + ms;
    }
  }

  ghost predicate Waiting(s: Sys, r: Id, e: nat, ms: seq<Id>) { forall m :: m in ms ==> Ack(m, r, e) in s.acks }

  /** A master that can still vote in epoch e. */
  predicate Free(s: Sys, m: Id, e: nat) {
    m in s.nodes && s.nodes[m].currentEpoch <= e && s.nodes[m].lastVoteEpoch < e
  }

  predicate HasVoted(s: Sys, m: Id, e: nat) {
    m in s.nodes && s.nodes[m].currentEpoch == e && s.nodes[m].lastVoteEpoch == e
  }

  /** What the votes of the masters listed for r do to a state. */
  ghost predicate Voted(s: Sys, s': Sys, r: Id, e: nat, ms: seq<Id>) {
    && s'.wins == s.wins && s'.nodes.Keys == s.nodes.Keys && Waiting(s', r, e, ms)
    && (forall a :: a in s.acks ==> a in s'.acks)
    && (forall n :: n in s.nodes && n !in ms ==> s'.nodes[n] == s.nodes[n])
    && (forall m :: m in ms ==> HasVoted(s', m, e))
  }

  ghost predicate AllFree(s: Sys, ms: seq<Id>, e: nat) { forall m :: m in ms ==> Free(s, m, e) }

  ghost predicate Within(ms: seq<Id>, masters: set<Id>) { forall m :: m in ms ==> m in masters }

  lemma DistinctRest(ms: seq<Id>, masters: set<Id>)
    requires ms != [] && Distinct(ms) && Within(ms, masters)
    ensures ms[0] in masters && ms[0] !in ms[1..] && Distinct(ms[1..]) && Within(ms[1..], masters)
    ensures forall m :: m in ms ==> m == ms[0] || m in ms[1..]
  {}

  lemma FreeRest(s: Sys, s1: Sys, ms: seq<Id>, e: nat)
    requires ms != [] && ms[0] !in ms[1..] && AllFree(s, ms, e)
    requires ms[0] in s1.nodes && s1.nodes == s.nodes[ms[0] := s1.nodes[ms[0]]]
    ensures AllFree(s1, ms[1..], e)
  {
    forall m | m in ms[1..] ensures Free(s1, m, e) { assert Free(s, m, e); }
  }

  lemma VoteFirst(c: Config, s: Sys, r: Id, e: nat, ms: seq<Id>) returns (s1: Sys)
    requires Known(c, s) && ms != [] && ms[0] in c.masters && (r, e) in s.requests && Free(s, ms[0], e)
    ensures Known(c, s1) && Run(c, s, Requests(ms, r, e)) == Run(c, s1, Requests(ms[1..], r, e))
    ensures s1.nodes == s.nodes[ms[0] := s.nodes[ms[0]].(currentEpoch := e, lastVoteEpoch := e)]
    ensures s1.acks == s.acks + multiset{Ack(ms[0], r, e)} && s1.requests == s.requests && s1.wins == s.wins
  {
    var ev := DeliverRequest(ms[0], r, e, true);
    assert Requests(ms, r, e) == [ev] + Requests(ms[1..], r, e);
    RunFirst(c, s, ev, Requests(ms[1..], r, e));
    VoteStep(c, s, ms[0], r, e);
    s1 := Apply(c, s, ev);
  }

  lemma VotedMore(s: Sys, s1: Sys, s': Sys, r: Id, e: nat, m: Id, rest: seq<Id>, ms: seq<Id>)
    requires m in s.nodes && s1.nodes == s.nodes[m := s.nodes[m].(currentEpoch := e, lastVoteEpoch := e)]
    requires s1.acks == s.acks + multiset{Ack(m, r, e)} && s1.wins == s.wins
    requires Voted(s1, s', r, e, rest) && m !in rest && ms == [m] + rest
    ensures Voted(s, s', r, e, ms)
  {
    assert Ack(m, r, e) in s1.acks;
    assert HasVoted(s', m, e);
  }

  /** The masters listed all vote for r. */
  lemma {:induction false} AllVote(c: Config, s: Sys, r: Id, e: nat, ms: seq<Id>) returns (s': Sys)
    requires Known(c, s) && Within(ms, c.masters) && Distinct(ms) && (r, e) in s.requests && AllFree(s, ms, e)
    ensures s' == Run(c, s, Requests(ms, r, e)) && Voted(s, s', r, e, ms)
    decreases |ms|
  {
    if ms == [] {
      s' := s;
    } else {
      DistinctRest(ms, c.masters);
      var s1 := VoteFirst(c, s, r, e, ms);
      FreeRest(s, s1, ms, e);
      s' := AllVote(c, s1, r, e, ms[1..]);
      VotedMore(s, s1, s', r, e, ms[0], ms[1..], ms);
    }
  }

  lemma WaitingRest(s: Sys, s1: Sys, r: Id, e: nat, ms: seq<Id>)
    requires ms != [] && ms[0] !in ms[1..] && Waiting(s, r, e, ms) && s1.acks == s.acks - multiset{Ack(ms[0], r, e)}
    ensures Waiting(s1, r, e, ms[1..])
  {
    forall m | m in ms[1..] ensures Ack(m, r, e) in s1.acks { assert Ack(m, r, e) in s.acks; }
  }

  /** Replica r has n more votes, and no other node has changed. */
  ghost predicate Counted(s: Sys, s': Sys, r: Id, n: nat) {
    && r in s.nodes && s'.nodes.Keys == s.nodes.Keys
    && s'.nodes[r] == s.nodes[r].(authCount := s.nodes[r].authCount + n)
    && forall x :: x in s.nodes && x != r ==> s'.nodes[x] == s.nodes[x]
  }

  lemma CountedMore(s: Sys, s1: Sys, s': Sys, r: Id, n: nat)
    requires Counted(s, s1, r, 1) && Counted(s1, s', r, n)
    ensures Counted(s, s', r, n + 1)
  {}

  lemma CountFirst(c: Config, s: Sys, r: Id, e: nat, ms: seq<Id>) returns (s1: Sys)
    requires Known(c, s) && ms != [] && ms[0] in c.masters && r in c.replicas && Ack(ms[0], r, e) in s.acks
    requires s.nodes[r].authEpoch <= e <= s.nodes[r].currentEpoch
    ensures Known(c, s1) && Run(c, s, Answers(ms, r, e)) == Run(c, s1, Answers(ms[1..], r, e))
    ensures Counted(s, s1, r, 1) && s1.acks == s.acks - multiset{Ack(ms[0], r, e)} && s1.wins == s.wins
  {
    var ev := DeliverAck(Ack(ms[0], r, e));
    assert Answers(ms, r, e) == [ev] + Answers(ms[1..], r, e);
    RunFirst(c, s, ev, Answers(ms[1..], r, e));
    CountStep(c, s, ms[0], r, e);
    s1 := Apply(c, s, ev);
  }

  /** Their acknowledgements arrive. */
  lemma {:induction false} AllCounted(c: Config, s: Sys, r: Id, e: nat, ms: seq<Id>) returns (s': Sys)
    requires Known(c, s) && Within(ms, c.masters) && Distinct(ms) && r in c.replicas && Waiting(s, r, e, ms)
    requires s.nodes[r].authEpoch <= e <= s.nodes[r].currentEpoch
    ensures s' == Run(c, s, Answers(ms, r, e)) && s'.wins == s.wins && Counted(s, s', r, |ms|)
    decreases |ms|
  {
    if ms == [] {
      s' := s;
    } else {
      DistinctRest(ms, c.masters);
      var s1 := CountFirst(c, s, r, e, ms);
      WaitingRest(s, s1, r, e, ms);
      s' := AllCounted(c, s1, r, e, ms[1..]);
      CountedMore(s, s1, s', r, |ms| - 1);
    }
  }

  /** An epoch that no node is beyond. */
  lemma {:induction false} TopEpoch(s: Sys, some: set<Id>) returns (e: nat)
    requires some <= s.nodes.Keys
    ensures forall n :: n in some ==> s.nodes[n].currentEpoch <= e
    decreases |some|
  {
    e := 0;
    if some != {} {
      var n :| n in some;
      e := TopEpoch(s, some - {n});
      e := Max(e, s.nodes[n].currentEpoch);
    }
  }

  // ---------------------------------------------------------------- the run

  /** A candidate that has heard of epoch e. */
  predicate MayStart(s: Sys, r: Id, e: nat) {
    r in s.nodes && s.nodes[r].currentEpoch <= e && !s.nodes[r].authSent && !s.nodes[r].promoted
  }

  /** An election that r starts when it knows of epoch e, and that all masters vote in. */
  function Asking(ms: seq<Id>, r: Id, e: nat): seq<Event> {
    [Header(r, e)] + ([Start(r)] + Requests(ms, r, e + 1))
  }

  lemma StartStep(c: Config, s: Sys, r: Id, e: nat)
    requires Known(c, s) && r in c.replicas && MayStart(s, r, e)
    ensures Known(c, Apply(c, s, Header(r, e)))
    ensures var s' := Apply(c, Apply(c, s, Header(r, e)), Start(r));
      && s'.nodes == s.nodes[r := s.nodes[r].(currentEpoch := e + 1, authEpoch := e + 1, authSent := true)]
      && (r, e + 1) in s'.requests && s'.wins == s.wins
  {
    KnownAfter(c, s, Header(r, e));
  }

  lemma Asks(c: Config, s: Sys, r: Id, e: nat, ms: seq<Id>)
    requires Known(c, s) && Majority(c, ms) && r in c.replicas && MayStart(s, r, e)
    requires AllFree(s, ms, e + 1)
    ensures var s' := Run(c, s, Asking(ms, r, e));
      && s'.wins == s.wins && Waiting(s', r, e + 1, ms)
      && s'.nodes[r] == s.nodes[r].(currentEpoch := e + 1, authEpoch := e + 1, authSent := true)
      && (forall n :: n in c.replicas && n != r ==> s'.nodes[n] == s.nodes[n])
      && (forall m :: m in ms ==> HasVoted(s', m, e + 1))
  {
    StartStep(c, s, r, e);
    var s1 := Apply(c, s, Header(r, e));
    RunFirst(c, s, Header(r, e), [Start(r)] + Requests(ms, r, e + 1));
    RunFirst(c, s1, Start(r), Requests(ms, r, e + 1));
    var s2 := Apply(c, s1, Start(r));
    FreeOther(s, s2, r, e + 1, ms);
    var s' := AllVote(c, s2, r, e + 1, ms);
    assert Run(c, s, Asking(ms, r, e)) == s';
  }

  lemma FreeOther(s: Sys, s': Sys, r: Id, e: nat, ms: seq<Id>)
    requires r in s'.nodes && s'.nodes == s.nodes[r := s'.nodes[r]] && r !in ms && AllFree(s, ms, e)
    ensures AllFree(s', ms, e)
  {
    forall m | m in ms ensures Free(s', m, e) { assert Free(s, m, e); }
  }

  /** A candidate with the votes of more than half of the masters wins. */
  lemma WinStep(c: Config, s: Sys, r: Id)
    requires Known(c, s) && r in c.replicas
    requires s.nodes[r].authSent && !s.nodes[r].promoted && 2 * s.nodes[r].authCount > |c.masters|
    ensures var s' := Apply(c, s, TryWin(r));
      && s'.wins == s.wins + {Win(r, s.nodes[r].authEpoch)} && s'.nodes.Keys == s.nodes.Keys
      && forall n :: n in s.nodes && n != r ==> s'.nodes[n] == s.nodes[n]
  {}

  /** The votes asked for are counted, and r wins. */
  function Winning(ms: seq<Id>, r: Id, e: nat): seq<Event> { Answers(ms, r, e) + [TryWin(r)] }

  lemma AnswersWin(c: Config, s: Sys, r: Id, e: nat, ms: seq<Id>)
    requires Known(c, s) && Majority(c, ms) && r in c.replicas && Waiting(s, r, e, ms)
    requires s.nodes[r].currentEpoch == e && s.nodes[r].authEpoch == e && s.nodes[r].authSent && !s.nodes[r].promoted
    ensures Run(c, s, Winning(ms, r, e)).wins == s.wins + {Win(r, e)}
  {
    var s1 := AllCounted(c, s, r, e, ms);
    RunThen(c, s, Answers(ms, r, e), [TryWin(r)]);
    RunOne(c, s1, TryWin(r));
    WinStep(c, s1, r);
  }

  /** A candidate gives up its election of epoch e, counts its late votes, takes epoch e + 1 and wins
      without asking anybody. */
  function LateWinning(ms: seq<Id>, r: Id, e: nat): seq<Event> {
    [Reset(r)] + (Answers(ms, r, e) + ([Start(r)] + [TryWin(r)]))
  }

  lemma ResetStep(c: Config, s: Sys, r: Id)
    requires Known(c, s) && r in c.replicas
    ensures var s' := Apply(c, s, Reset(r));
      && s'.nodes == s.nodes[r := s.nodes[r].(authCount := 0, authSent := false)]
      && s'.acks == s.acks && s'.wins == s.wins
  {}

  lemma StartAgainStep(c: Config, s: Sys, r: Id, e: nat)
    requires Known(c, s) && r in c.replicas && MayStart(s, r, e) && s.nodes[r].currentEpoch == e
    ensures var s' := Apply(c, s, Start(r));
      && s'.nodes == s.nodes[r := s.nodes[r].(currentEpoch := e + 1, authEpoch := e + 1, authSent := true)]
      && s'.wins == s.wins
  {}

  lemma StartWins(c: Config, s: Sys, r: Id, e: nat)
    requires Known(c, s) && r in c.replicas && MayStart(s, r, e) && s.nodes[r].currentEpoch == e
    requires 2 * s.nodes[r].authCount > |c.masters|
    ensures var s' := Run(c, s, [Start(r)] + [TryWin(r)]);
      && s'.wins == s.wins + {Win(r, e + 1)} && forall n :: n in s.nodes && n != r ==> s'.nodes[n] == s.nodes[n]
  {
    var s1 := Apply(c, s, Start(r));
    StartAgainStep(c, s, r, e);
    RunFirst(c, s, Start(r), [TryWin(r)]);
    RunOne(c, s1, TryWin(r));
    WinStep(c, s1, r);
  }

  lemma LateVotesWin(c: Config, s: Sys, r: Id, e: nat, ms: seq<Id>)
    requires Known(c, s) && Majority(c, ms) && r in c.replicas && Waiting(s, r, e, ms)
    requires s.nodes[r].currentEpoch == e && s.nodes[r].authEpoch == e && !s.nodes[r].promoted
    ensures var s' := Run(c, s, LateWinning(ms, r, e));
      && s'.wins == s.wins + {Win(r, e + 1)} && forall n :: n in s.nodes && n != r ==> s'.nodes[n] == s.nodes[n]
  {
    var s1 := Apply(c, s, Reset(r));
    RunFirst(c, s, Reset(r), Answers(ms, r, e) + ([Start(r)] + [TryWin(r)]));
    ResetStep(c, s, r);
    var s2 := AllCounted(c, s1, r, e, ms);
    RunThen(c, s1, Answers(ms, r, e), [Start(r)] + [TryWin(r)]);
    StartWins(c, s2, r, e);
  }

  /** The first replica asks, gives up and wins on its late votes; the second one is voted for. */
  function TwoWinners(ms: seq<Id>, r1: Id, r2: Id, e: nat): seq<Event> {
    Asking(ms, r1, e) + (LateWinning(ms, r1, e + 1) + (Asking(ms, r2, e + 1) + Winning(ms, r2, e + 2)))
  }

  lemma SecondWins(c: Config, s: Sys, r: Id, e: nat, ms: seq<Id>)
    requires Known(c, s) && Majority(c, ms) && r in c.replicas && MayStart(s, r, e)
    requires AllFree(s, ms, e + 1)
    ensures Run(c, s, Asking(ms, r, e) + Winning(ms, r, e + 1)).wins == s.wins + {Win(r, e + 1)}
  {
    Asks(c, s, r, e, ms);
    RunThen(c, s, Asking(ms, r, e), Winning(ms, r, e + 1));
    AnswersWin(c, Run(c, s, Asking(ms, r, e)), r, e + 1, ms);
  }

  lemma FirstWins(c: Config, s: Sys, r: Id, e: nat, ms: seq<Id>)
    requires Known(c, s) && Majority(c, ms) && r in c.replicas && MayStart(s, r, e)
    requires AllFree(s, ms, e + 1)
    ensures var s' := Run(c, Run(c, s, Asking(ms, r, e)), LateWinning(ms, r, e + 1));
      && s'.wins == s.wins + {Win(r, e + 2)}
      && (forall n :: n in c.replicas && n != r ==> s'.nodes[n] == s.nodes[n])
      && (forall m :: m in ms ==> HasVoted(s', m, e + 1))
  {
    Asks(c, s, r, e, ms);
    LateVotesWin(c, Run(c, s, Asking(ms, r, e)), r, e + 1, ms);
  }

  lemma BothWin(c: Config, s: Sys, r1: Id, r2: Id, e: nat, ms: seq<Id>) returns (ss: seq<Sys>)
    requires Known(c, s) && Majority(c, ms) && r1 in c.replicas && r2 in c.replicas && r1 != r2
    requires MayStart(s, r1, e) && MayStart(s, r2, e) && AllFree(s, ms, e + 1)
    ensures Trace(c, ss, TwoWinners(ms, r1, r2, e)) && ss[0] == s
    ensures Last(ss).wins == s.wins + {Win(r1, e + 2)} + {Win(r2, e + 2)}
  {
    ss := RunTrace(c, s, TwoWinners(ms, r1, r2, e));
    var s1 := Run(c, s, Asking(ms, r1, e));
    var s2 := Run(c, s1, LateWinning(ms, r1, e + 1));
    FirstWins(c, s, r1, e, ms);
    SecondWins(c, s2, r2, e + 1, ms);
    RunThen(c, s, Asking(ms, r1, e), LateWinning(ms, r1, e + 1) + (Asking(ms, r2, e + 1) + Winning(ms, r2, e + 2)));
    RunThen(c, s1, LateWinning(ms, r1, e + 1), Asking(ms, r2, e + 1) + Winning(ms, r2, e + 2));
  }

  /** A replica that may start is elected as soon as the masters of some majority have not voted in the
      next epoch and nothing else keeps them from voting. */
  lemma MajorityElects(c: Config, s: Sys, r: Id, e: nat, q: set<Id>) returns (ss: seq<Sys>, evs: seq<Event>)
    requires Known(c, s) && q <= c.masters && 2 * |q| > |c.masters| && r in c.replicas && MayStart(s, r, e)
    requires forall m :: m in q ==> Free(s, m, e + 1)
    ensures Trace(c, ss, evs) && ss[0] == s && Win(r, e + 1) in Last(ss).wins
  {
    var ms := ListOf(q);
    SecondWins(c, s, r, e, ms);
    evs := Asking(ms, r, e) + Winning(ms, r, e + 1);
    ss := RunTrace(c, s, evs);
  }

  lemma InitMay(c: Config, s: Sys, e: nat, ms: seq<Id>)
    requires Init(c, s) && Within(ms, c.masters) && forall n :: n in s.nodes.Keys ==> s.nodes[n].currentEpoch <= e
    ensures AllFree(s, ms, e + 1) && forall r :: r in c.replicas ==> MayStart(s, r, e)
  {}

  /** With any masters, any two replicas and any stored epochs, both replicas can win the same epoch
      if acknowledgements of an election given up are delivered. */
  lemma StaleAcksElectTwo(c: Config, s: Sys, r1: Id, r2: Id) returns (ss: seq<Sys>, evs: seq<Event>, e: nat)
    requires Init(c, s) && c.masters != {} && r1 in c.replicas && r2 in c.replicas && r1 != r2
    ensures Trace(c, ss, evs) && ss[0] == s
    ensures Win(r1, e) in Last(ss).wins && Win(r2, e) in Last(ss).wins
  {
    var top := TopEpoch(s, s.nodes.Keys);
    var ms := ListOf(c.masters);
    InitMay(c, s, top, ms);
    ss := BothWin(c, s, r1, r2, top, ms);
    evs, e := TwoWinners(ms, r1, r2, top), top + 2;
  }
}
