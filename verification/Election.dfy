/** Failover elections of the cluster bus: replicas ask for votes under a new epoch, masters
    grant at most one vote per epoch, acknowledgements travel with any delay, loss or
    reordering. Masters that serve slots are a fixed, agreed set. */
module Election {
  import opened Sets

  type Id = nat

  /** The election fields of `server.cluster` on one node. */
  datatype Node = Node(
    currentEpoch: nat,
    lastVoteEpoch: nat,
    authEpoch: nat,
    authSent: bool,
    authCount: nat,
    configEpoch: nat,
    promoted: bool)

  datatype Ack = Ack(voter: Id, candidate: Id, epoch: nat)
  datatype Vote = Vote(voter: Id, epoch: nat, candidate: Id)
  datatype Win = Win(candidate: Id, epoch: nat)

  /** Voting masters and competing replicas. */
  datatype Config = Config(masters: set<Id>, replicas: set<Id>)

  /** The whole system. `requests` are vote requests ever broadcast (deliverable any number of
      times), `acks` the acknowledgements in flight. The last four fields are history: votes
      granted, the voters each candidate has counted in its running election, the
      acknowledgements it counted before the election had its epoch, and elections won. */
  datatype Sys = Sys(
    nodes: map<Id, Node>,
    requests: set<(Id, nat)>,
    acks: multiset<Ack>,
    votes: set<Vote>,
    counted: map<Id, set<Id>>,
    stale: map<Id, nat>,
    wins: set<Win>)

  datatype Event =
    | Header(n: Id, epoch: nat)                          // header of any packet
    | Reset(r: Id)                                       // retry time elapsed
    | Start(r: Id)                                       // ask for votes
    | DeliverRequest(m: Id, r: Id, epoch: nat, ok: bool) // ok: the checks not about epochs
    | DeliverAck(a: Ack)
    | LoseAck(a: Ack)
    | TryWin(r: Id)
    | Demote(r: Id)                                      // a winner that lost its slots replicates again

  function Max(a: nat, b: nat): nat { if a < b then b else a }

  /** Half of the masters plus one. */
  function Quorum(c: Config): nat { |c.masters| / 2 + 1 }

  predicate Known(c: Config, s: Sys) {
    && c.masters !! c.replicas
    && s.nodes.Keys == c.masters + c.replicas && s.counted.Keys == c.replicas && s.stale.Keys == c.replicas
  }

  function SetNode(s: Sys, n: Id, x: Node): Sys { s.(nodes := s.nodes[n := x]) }

  /** A packet's header raises the receiver's current epoch. */
  function OnHeader(s: Sys, n: Id, epoch: nat): Sys
    requires n in s.nodes
  {
    SetNode(s, n, s.nodes[n].(currentEpoch := Max(s.nodes[n].currentEpoch, epoch)))
  }

  function OnReset(s: Sys, r: Id): Sys
    requires r in s.nodes
  {
    SetNode(s, r, s.nodes[r].(authCount := 0, authSent := false))
      .(counted := s.counted[r := {}], stale := s.stale[r := 0])
  }

  function OnStart(s: Sys, r: Id): Sys
    requires r in s.nodes
  {
    var x := s.nodes[r];
    if x.authSent || x.promoted then s
    else
      var e := x.currentEpoch + 1;
      SetNode(s, r, x.(currentEpoch := e, authEpoch := e, authSent := true)).(requests := s.requests + {(r, e)})
  }

  /** Master m votes for r in its current epoch. */
  function Grant(s: Sys, m: Id, r: Id): Sys
    requires m in s.nodes
  {
    var x := s.nodes[m];
    SetNode(s, m, x.(lastVoteEpoch := x.currentEpoch))
      .(acks := s.acks + multiset{Ack(m, r, x.currentEpoch)},
        votes := s.votes + {Vote(m, x.currentEpoch, r)})
  }

  /** clusterSendFailoverAuthIfNeeded on master m, after the header was processed. */
  function OnRequest(s: Sys, m: Id, r: Id, epoch: nat, ok: bool): Sys
    requires m in s.nodes
  {
    var s1 := OnHeader(s, m, epoch);
    var x := s1.nodes[m];
    if epoch < x.currentEpoch || x.lastVoteEpoch == x.currentEpoch || !ok then s1 else Grant(s1, m, r)
  }

  /** Candidate r counts one more vote, from m; before the election has its epoch the vote
      is one of an earlier election. */
  function CountVote(s: Sys, r: Id, m: Id): Sys
    requires r in s.nodes && r in s.counted && r in s.stale
  {
    var x := s.nodes[r];
    var s2 := SetNode(s, r, x.(authCount := x.authCount + 1));
    if x.authSent then s2.(counted := s2.counted[r := s2.counted[r] + {m}])
    else s2.(stale := s2.stale[r := s2.stale[r] + 1])
  }

  /** A vote acknowledgement arrives: counted when its epoch is not older than the election's. */
  function OnAck(c: Config, s: Sys, a: Ack): Sys
    requires a.candidate in s.nodes && a.candidate in s.counted && a.candidate in s.stale
  {
    var r := a.candidate;
    var s1 := OnHeader(s, r, a.epoch).(acks := s.acks - multiset{a});
    if a.voter in c.masters && a.epoch >= s1.nodes[r].authEpoch then CountVote(s1, r, a.voter) else s1
  }

  /** The end of clusterHandleSlaveFailover: enough votes, take over with the election's epoch. */
  function OnTryWin(c: Config, s: Sys, r: Id): Sys
    requires r in s.nodes
  {
    var x := s.nodes[r];
    if x.authSent && !x.promoted && x.authCount >= Quorum(c) then
      SetNode(s, r, x.(configEpoch := Max(x.configEpoch, x.authEpoch), promoted := true))
        .(wins := s.wins + {Win(r, x.authEpoch)})
    else s
  }

  function Apply(c: Config, s: Sys, ev: Event): Sys
    requires Known(c, s)
  {
    match ev
    case Header(n, epoch) => if n in s.nodes then OnHeader(s, n, epoch) else s
    case Reset(r) => if r in c.replicas then OnReset(s, r) else s
    case Start(r) => if r in c.replicas then OnStart(s, r) else s
    case DeliverRequest(m, r, epoch, ok) =>
      if m in c.masters && (r, epoch) in s.requests then OnRequest(s, m, r, epoch, ok) else s
    case DeliverAck(a) => if a in s.acks && a.candidate in c.replicas then OnAck(c, s, a) else s
    case LoseAck(a) => s.(acks := s.acks - multiset{a})
    case TryWin(r) => if r in c.replicas then OnTryWin(c, s, r) else s
    case Demote(r) => if r in c.replicas then SetNode(s, r, s.nodes[r].(promoted := false)) else s
  }

  /** More than half of the masters elect, and nothing less; the winner takes the election's epoch
      unless it has a greater one. */
  lemma WinsIffMajority(c: Config, s: Sys, r: Id)
    requires Known(c, s) && r in c.replicas
    ensures var x, s' := s.nodes[r], Apply(c, s, TryWin(r));
      if x.authSent && !x.promoted && 2 * x.authCount > |c.masters| then
        && s'.wins == s.wins + {Win(r, x.authEpoch)} && s'.nodes.Keys == s.nodes.Keys
        && s'.nodes[r].promoted && s'.nodes[r].configEpoch >= x.authEpoch && s'.nodes[r].configEpoch >= x.configEpoch
        && s'.nodes[r].configEpoch in {x.authEpoch, x.configEpoch}
        && forall n :: n in s.nodes && n != r ==> s'.nodes[n] == s.nodes[n]
      else s' == s
  {}

  /** A master votes exactly when the other checks pass, the request is not behind its epoch and it has
      not voted in the request's epoch. */
  lemma VotesIff(c: Config, s: Sys, m: Id, r: Id, epoch: nat, ok: bool)
    requires Known(c, s) && m in c.masters && (r, epoch) in s.requests
    ensures var x, s' := s.nodes[m], Apply(c, s, DeliverRequest(m, r, epoch, ok));
      if ok && x.currentEpoch <= epoch && x.lastVoteEpoch != epoch then
        && s'.votes == s.votes + {Vote(m, epoch, r)} && s'.acks == s.acks + multiset{Ack(m, r, epoch)}
        && s'.nodes[m].lastVoteEpoch == epoch && s'.nodes[m].currentEpoch == epoch
      else
        && s'.votes == s.votes && s'.acks == s.acks && s'.nodes[m].lastVoteEpoch == x.lastVoteEpoch
        && s'.nodes[m].currentEpoch >= epoch && s'.nodes[m].currentEpoch >= x.currentEpoch
        && s'.nodes[m].currentEpoch in {epoch, x.currentEpoch}
  {}

  /** A candidate counts an acknowledgement exactly when a voting master sent it and its epoch is not
      behind the election's. */
  lemma CountsIff(c: Config, s: Sys, a: Ack)
    requires Known(c, s) && a in s.acks && a.candidate in c.replicas
    ensures var r, s' := a.candidate, Apply(c, s, DeliverAck(a));
      var x, y := s.nodes[r], s'.nodes[r];
      && s'.acks == s.acks - multiset{a} && s'.votes == s.votes && s'.wins == s.wins && s'.requests == s.requests
      && y.authCount == x.authCount + (if a.voter in c.masters && a.epoch >= x.authEpoch then 1 else 0)
      && y.currentEpoch == (if a.epoch > x.currentEpoch then a.epoch else x.currentEpoch)
      && y.authEpoch == x.authEpoch && y.authSent == x.authSent && y.promoted == x.promoted
      && forall n :: n in s.nodes && n != r ==> s'.nodes[n] == s.nodes[n]
  {}

  /** A replica that is not waiting asks under an epoch of its own, one past its current epoch, and
      keeps what it has counted. */
  lemma StartsIff(c: Config, s: Sys, r: Id)
    requires Known(c, s) && r in c.replicas
    ensures var x, s' := s.nodes[r], Apply(c, s, Start(r));
      if !x.authSent && !x.promoted then
        && s'.requests == s.requests + {(r, x.currentEpoch + 1)} && s'.nodes[r].authSent
        && s'.nodes[r].authEpoch == x.currentEpoch + 1 && s'.nodes[r].currentEpoch == x.currentEpoch + 1
        && s'.nodes[r].authCount == x.authCount && s'.votes == s.votes && s'.wins == s.wins && s'.acks == s.acks
        && forall n :: n in s.nodes && n != r ==> s'.nodes[n] == s.nodes[n]
      else s' == s
  {}

  // ---------------------------------------------------------------- invariant

  ghost predicate EpochsOk(s: Sys) {
    forall n :: n in s.nodes ==> s.nodes[n].lastVoteEpoch <= s.nodes[n].currentEpoch
                                 && s.nodes[n].authEpoch <= s.nodes[n].currentEpoch
  }

  /** A candidate never asked for a vote beyond its latest election. */
  ghost predicate RequestsOk(c: Config, s: Sys)
    requires Known(c, s)
  {
    forall r, e :: (r, e) in s.requests ==> r in c.replicas && e <= s.nodes[r].authEpoch
  }

  /** Votes answer requests, and no master votes twice in one epoch. */
  ghost predicate VotesOk(c: Config, s: Sys)
    requires Known(c, s)
  {
    && (forall v :: v in s.votes ==> && v.voter in c.masters && (v.candidate, v.epoch) in s.requests
                                     && v.epoch <= s.nodes[v.voter].lastVoteEpoch)
    && (forall v, w :: v in s.votes && w in s.votes && v.voter == w.voter && v.epoch == w.epoch ==> v == w)
  }

  /** Each acknowledgement in flight is single and stands for a vote. */
  ghost predicate AcksOk(s: Sys) {
    forall a :: a in s.acks ==> s.acks[a] == 1 && Vote(a.voter, a.epoch, a.candidate) in s.votes
  }

  /** What a candidate counted: current votes, each once, plus the stale ones. */
  ghost predicate CountOk(c: Config, s: Sys)
    requires Known(c, s)
  {
    TotalsOk(c, s) && VotersOk(c, s)
  }

  ghost predicate TotalsOk(c: Config, s: Sys)
    requires Known(c, s)
  {
    forall r :: r in c.replicas ==> && s.nodes[r].authCount == |s.counted[r]| + s.stale[r]
                                    && (!s.nodes[r].authSent ==> s.counted[r] == {})
  }

  ghost predicate VotersOk(c: Config, s: Sys)
    requires Known(c, s)
  {
    forall r, m :: r in c.replicas && m in s.counted[r]
                   ==> && Vote(m, s.nodes[r].authEpoch, r) in s.votes
                       && Ack(m, r, s.nodes[r].authEpoch) !in s.acks
  }

  ghost predicate Inv(c: Config, s: Sys) {
    Known(c, s) && EpochsOk(s) && RequestsOk(c, s) && VotesOk(c, s) && AcksOk(s) && CountOk(c, s)
  }

  /** Any epochs may have been stored before the start; no election is under way. */
  ghost predicate Init(c: Config, s: Sys) {
    && Known(c, s) && EpochsOk(s)
    && (forall n :: n in s.nodes ==> !s.nodes[n].authSent && s.nodes[n].authCount == 0 && !s.nodes[n].promoted)
    && s.requests == {} && s.acks == multiset{} && s.votes == {} && s.wins == {}
    && (forall r :: r in c.replicas ==> s.counted[r] == {} && s.stale[r] == 0)
  }

  lemma InitInv(c: Config, s: Sys)
    requires Init(c, s)
    ensures Inv(c, s)
  {}

  lemma KnownAfterSet(c: Config, s: Sys, n: Id, x: Node)
    requires Known(c, s) && n in s.nodes
    ensures Known(c, SetNode(s, n, x))
  {
    assert SetNode(s, n, x).nodes.Keys == s.nodes.Keys;
  }

  /** Everything in the invariant but the counts. */
  ghost predicate Base(c: Config, s: Sys) {
    Known(c, s) && EpochsOk(s) && RequestsOk(c, s) && VotesOk(c, s) && AcksOk(s)
  }

  /** A node may change its counts and raise its current epoch. */
  lemma NodeBase(c: Config, s: Sys, n: Id, x: Node)
    requires Base(c, s) && n in s.nodes
    requires x.lastVoteEpoch == s.nodes[n].lastVoteEpoch && x.authEpoch == s.nodes[n].authEpoch
    requires s.nodes[n].currentEpoch <= x.currentEpoch
    ensures Base(c, SetNode(s, n, x))
  {
    assert SetNode(s, n, x).nodes.Keys == s.nodes.Keys;
  }

  /** The history fields do not matter for it. */
  lemma FrameBase(c: Config, s: Sys, s': Sys)
    requires Base(c, s) && s'.nodes == s.nodes && s'.requests == s.requests && s'.acks == s.acks && s'.votes == s.votes
    requires s'.counted.Keys == s.counted.Keys && s'.stale.Keys == s.stale.Keys
    ensures Base(c, s')
  {}

  lemma NodeCount(c: Config, s: Sys, n: Id, x: Node)
    requires Known(c, s) && CountOk(c, s) && n in s.nodes && Known(c, SetNode(s, n, x))
    requires x.authEpoch == s.nodes[n].authEpoch && x.authSent == s.nodes[n].authSent && x.authCount == s.nodes[n].authCount
    ensures CountOk(c, SetNode(s, n, x))
  {}

  lemma HeaderInv(c: Config, s: Sys, n: Id, epoch: nat)
    requires Inv(c, s) && n in s.nodes
    ensures Inv(c, OnHeader(s, n, epoch))
  {
    var x := s.nodes[n].(currentEpoch := Max(s.nodes[n].currentEpoch, epoch));
    NodeBase(c, s, n, x);
    NodeCount(c, s, n, x);
  }

  lemma WinInv(c: Config, s: Sys, r: Id)
    requires Inv(c, s) && r in c.replicas
    ensures Inv(c, OnTryWin(c, s, r))
  {
    var x := s.nodes[r].(configEpoch := Max(s.nodes[r].configEpoch, s.nodes[r].authEpoch), promoted := true);
    NodeBase(c, s, r, x);
    NodeCount(c, s, r, x);
  }

  lemma DemoteInv(c: Config, s: Sys, r: Id)
    requires Inv(c, s) && r in c.replicas
    ensures Inv(c, SetNode(s, r, s.nodes[r].(promoted := false)))
  {
    NodeBase(c, s, r, s.nodes[r].(promoted := false));
    NodeCount(c, s, r, s.nodes[r].(promoted := false));
  }

  lemma ResetInv(c: Config, s: Sys, r: Id)
    requires Inv(c, s) && r in c.replicas
    ensures Inv(c, OnReset(s, r))
  {
    var x := s.nodes[r].(authCount := 0, authSent := false);
    NodeBase(c, s, r, x);
    var s1 := SetNode(s, r, x);
    assert OnReset(s, r).counted.Keys == s.counted.Keys && OnReset(s, r).stale.Keys == s.stale.Keys;
    FrameBase(c, s1, OnReset(s, r));
    ResetCount(c, s, r);
  }

  lemma ResetCount(c: Config, s: Sys, r: Id)
    requires Known(c, s) && CountOk(c, s) && r in c.replicas && Known(c, OnReset(s, r))
    ensures CountOk(c, OnReset(s, r))
  {}

  lemma StartInv(c: Config, s: Sys, r: Id)
    requires Inv(c, s) && r in c.replicas
    ensures Inv(c, OnStart(s, r))
  {
    var x := s.nodes[r];
    if !x.authSent && !x.promoted {
      var e := x.currentEpoch + 1;
      KnownAfterSet(c, s, r, x.(currentEpoch := e, authEpoch := e, authSent := true));
      StartBase(c, s, r);
      StartCount(c, s, r);
    }
  }

  lemma StartBase(c: Config, s: Sys, r: Id)
    requires Base(c, s) && r in c.replicas && Known(c, OnStart(s, r))
    ensures Base(c, OnStart(s, r))
  {}

  lemma StartCount(c: Config, s: Sys, r: Id)
    requires Known(c, s) && CountOk(c, s) && r in c.replicas && Known(c, OnStart(s, r))
    ensures CountOk(c, OnStart(s, r))
  {}

  lemma GrantVotes(c: Config, s: Sys, m: Id, r: Id)
    requires Inv(c, s) && m in c.masters && (r, s.nodes[m].currentEpoch) in s.requests
    requires s.nodes[m].lastVoteEpoch != s.nodes[m].currentEpoch
    ensures var s' := Grant(s, m, r); Known(c, s') && EpochsOk(s') && RequestsOk(c, s') && VotesOk(c, s')
  {
    var e := s.nodes[m].currentEpoch;
    GrantNode(c, s, m, r);
    forall v | v in s.votes && v.voter == m ensures v.epoch < e { assert v.epoch <= s.nodes[m].lastVoteEpoch; }
    VoteAdded(c, s, Grant(s, m, r), Vote(m, e, r));
  }

  lemma GrantNode(c: Config, s: Sys, m: Id, r: Id)
    requires Inv(c, s) && m in c.masters
    ensures var s' := Grant(s, m, r);
      && Known(c, s') && EpochsOk(s') && RequestsOk(c, s')
      && forall n :: n in s.nodes ==> s.nodes[n].lastVoteEpoch <= s'.nodes[n].lastVoteEpoch
  {
    KnownAfterSet(c, s, m, s.nodes[m].(lastVoteEpoch := s.nodes[m].currentEpoch));
  }

  /** A vote that its master has not given before in this epoch. */
  lemma VoteAdded(c: Config, s: Sys, s': Sys, v: Vote)
    requires Known(c, s) && VotesOk(c, s) && Known(c, s') && s'.votes == s.votes + {v} && s'.requests == s.requests
    requires forall n :: n in s.nodes ==> s.nodes[n].lastVoteEpoch <= s'.nodes[n].lastVoteEpoch
    requires v.voter in c.masters && (v.candidate, v.epoch) in s.requests && v.epoch <= s'.nodes[v.voter].lastVoteEpoch
    requires forall u :: u in s.votes && u.voter == v.voter ==> u.epoch < v.epoch
    ensures VotesOk(c, s')
  {}

  lemma GrantAcks(c: Config, s: Sys, m: Id, r: Id)
    requires Inv(c, s) && m in c.masters && s.nodes[m].lastVoteEpoch != s.nodes[m].currentEpoch
    ensures var s' := Grant(s, m, r); Known(c, s') && AcksOk(s') && CountOk(c, s')
  {
    var e := s.nodes[m].currentEpoch;
    assert Vote(m, e, r) !in s.votes;
    assert Ack(m, r, e) !in s.acks;
  }

  lemma RequestInv(c: Config, s: Sys, m: Id, r: Id, epoch: nat, ok: bool)
    requires Inv(c, s) && m in c.masters && (r, epoch) in s.requests
    ensures Inv(c, OnRequest(s, m, r, epoch, ok))
  {
    HeaderInv(c, s, m, epoch);
    var s1 := OnHeader(s, m, epoch);
    if epoch == s1.nodes[m].currentEpoch && s1.nodes[m].lastVoteEpoch != epoch && ok {
      GrantVotes(c, s1, m, r);
      GrantAcks(c, s1, m, r);
    }
  }

  lemma LoseInv(c: Config, s: Sys, a: Ack)
    requires Inv(c, s)
    ensures Inv(c, s.(acks := s.acks - multiset{a}))
  {
    var s' := s.(acks := s.acks - multiset{a});
    assert forall b :: b in s'.acks ==> b in s.acks && s'.acks[b] <= s.acks[b];
  }

  /** An acknowledgement never has a later epoch than its candidate's latest election. */
  lemma AckNotAhead(c: Config, s: Sys, a: Ack)
    requires Inv(c, s) && a in s.acks
    ensures a.voter in c.masters && a.candidate in c.replicas && a.epoch <= s.nodes[a.candidate].authEpoch
  {
    var v := Vote(a.voter, a.epoch, a.candidate);
    assert v in s.votes;
    assert (a.candidate, a.epoch) in s.requests;
  }

  lemma CountKeepsBase(c: Config, s: Sys, r: Id, m: Id)
    requires Base(c, s) && r in c.replicas
    ensures Base(c, CountVote(s, r, m))
  {
    var x := s.nodes[r].(authCount := s.nodes[r].authCount + 1);
    NodeBase(c, s, r, x);
    CountFrame(c, s, r, m, x);
    FrameBase(c, SetNode(s, r, x), CountVote(s, r, m));
  }

  lemma CountFrame(c: Config, s: Sys, r: Id, m: Id, x: Node)
    requires Known(c, s) && r in c.replicas && x == s.nodes[r].(authCount := s.nodes[r].authCount + 1)
    ensures var s1, s' := SetNode(s, r, x), CountVote(s, r, m);
      && s'.nodes == s1.nodes && s'.requests == s1.requests && s'.acks == s1.acks && s'.votes == s1.votes
      && s'.counted.Keys == s1.counted.Keys && s'.stale.Keys == s1.stale.Keys
  {}

  lemma CountKeepsCount(c: Config, s: Sys, r: Id, m: Id)
    requires Known(c, s) && CountOk(c, s) && r in c.replicas && Known(c, CountVote(s, r, m))
    requires s.nodes[r].authSent ==> && m !in s.counted[r] && Vote(m, s.nodes[r].authEpoch, r) in s.votes
                                     && Ack(m, r, s.nodes[r].authEpoch) !in s.acks
    ensures CountOk(c, CountVote(s, r, m))
  {
    CountKeepsTotals(c, s, r, m);
    CountKeepsVoters(c, s, r, m);
  }

  lemma CountKeepsTotals(c: Config, s: Sys, r: Id, m: Id)
    requires Known(c, s) && TotalsOk(c, s) && r in c.replicas && Known(c, CountVote(s, r, m))
    requires s.nodes[r].authSent ==> m !in s.counted[r]
    ensures TotalsOk(c, CountVote(s, r, m))
  {}

  lemma CountKeepsVoters(c: Config, s: Sys, r: Id, m: Id)
    requires Known(c, s) && VotersOk(c, s) && r in c.replicas && Known(c, CountVote(s, r, m))
    requires s.nodes[r].authSent ==> Vote(m, s.nodes[r].authEpoch, r) in s.votes && Ack(m, r, s.nodes[r].authEpoch) !in s.acks
    ensures VotersOk(c, CountVote(s, r, m))
  {}

  lemma CountInv(c: Config, s: Sys, r: Id, m: Id)
    requires Inv(c, s) && r in c.replicas
    requires s.nodes[r].authSent ==> && m !in s.counted[r] && Vote(m, s.nodes[r].authEpoch, r) in s.votes
                                     && Ack(m, r, s.nodes[r].authEpoch) !in s.acks
    ensures Inv(c, CountVote(s, r, m))
  {
    CountKeepsBase(c, s, r, m);
    CountKeepsCount(c, s, r, m);
  }

  lemma AckCounted(c: Config, s: Sys, a: Ack)
    requires Inv(c, s) && a in s.acks && a.candidate in c.replicas && a.epoch <= s.nodes[a.candidate].authEpoch
    requires Inv(c, s.(acks := s.acks - multiset{a}))
    ensures a.epoch >= s.nodes[a.candidate].authEpoch ==> Inv(c, CountVote(s.(acks := s.acks - multiset{a}), a.candidate, a.voter))
  {
    var r := a.candidate;
    if a.epoch >= s.nodes[r].authEpoch {
      assert a == Ack(a.voter, r, s.nodes[r].authEpoch);
      CountInv(c, s.(acks := s.acks - multiset{a}), r, a.voter);
    }
  }

  lemma AckInv(c: Config, s: Sys, a: Ack)
    requires Inv(c, s) && a in s.acks && a.candidate in c.replicas
    ensures Inv(c, OnAck(c, s, a))
  {
    AckNotAhead(c, s, a);
    var r := a.candidate;
    HeaderInv(c, s, r, a.epoch);
    LoseInv(c, OnHeader(s, r, a.epoch), a);
    AckCounted(c, OnHeader(s, r, a.epoch), a);
  }

  /** Every event, whatever its order, keeps the invariant. */
  lemma ApplyInv(c: Config, s: Sys, ev: Event)
    requires Inv(c, s)
    ensures Inv(c, Apply(c, s, ev))
  {
    match ev
    case Header(n, epoch) => HeaderEvent(c, s, n, epoch);
    case Reset(r) => ResetEvent(c, s, r);
    case Start(r) => StartEvent(c, s, r);
    case DeliverRequest(m, r, epoch, ok) => RequestEvent(c, s, m, r, epoch, ok);
    case DeliverAck(a) => AckEvent(c, s, a);
    case LoseAck(a) => LoseEvent(c, s, a);
    case TryWin(r) => WinEvent(c, s, r);
    case Demote(r) => DemoteEvent(c, s, r);
  }

  lemma HeaderEvent(c: Config, s: Sys, n: Id, epoch: nat)
    requires Inv(c, s)
    ensures Inv(c, Apply(c, s, Header(n, epoch))) && Apply(c, s, Header(n, epoch)).stale == s.stale
  {
    if n in s.nodes { HeaderInv(c, s, n, epoch); }
  }

  lemma ResetEvent(c: Config, s: Sys, r: Id)
    requires Inv(c, s)
    ensures Inv(c, Apply(c, s, Reset(r)))
    ensures Apply(c, s, Reset(r)).stale == if r in c.replicas then s.stale[r := 0] else s.stale
  {
    if r in c.replicas { ResetInv(c, s, r); }
  }

  lemma StartEvent(c: Config, s: Sys, r: Id)
    requires Inv(c, s)
    ensures Inv(c, Apply(c, s, Start(r)))
  {
    if r in c.replicas { StartInv(c, s, r); }
  }

  lemma RequestEvent(c: Config, s: Sys, m: Id, r: Id, epoch: nat, ok: bool)
    requires Inv(c, s)
    ensures Inv(c, Apply(c, s, DeliverRequest(m, r, epoch, ok)))
  {
    if m in c.masters && (r, epoch) in s.requests { RequestInv(c, s, m, r, epoch, ok); }
  }

  lemma AckEvent(c: Config, s: Sys, a: Ack)
    requires Inv(c, s)
    ensures Inv(c, Apply(c, s, DeliverAck(a)))
  {
    if a in s.acks && a.candidate in c.replicas { AckInv(c, s, a); }
  }

  lemma LoseEvent(c: Config, s: Sys, a: Ack)
    requires Inv(c, s)
    ensures Inv(c, Apply(c, s, LoseAck(a))) && Apply(c, s, LoseAck(a)).stale == s.stale
  {
    LoseInv(c, s, a);
  }

  lemma WinEvent(c: Config, s: Sys, r: Id)
    requires Inv(c, s)
    ensures Inv(c, Apply(c, s, TryWin(r)))
  {
    if r in c.replicas { WinInv(c, s, r); }
  }

  lemma DemoteEvent(c: Config, s: Sys, r: Id)
    requires Inv(c, s)
    ensures Inv(c, Apply(c, s, Demote(r))) && Apply(c, s, Demote(r)).stale == s.stale
  {
    if r in c.replicas { DemoteInv(c, s, r); }
  }

  // ---------------------------------------------------------------- safety

  /** No acknowledgement of an earlier election is counted: between the reset of the vote count
      and the next epoch, an acknowledgement of the last epoch would be. */
  ghost predicate CleanEvent(c: Config, s: Sys, ev: Event)
    requires Known(c, s)
  {
    ev.DeliverAck? && ev.a in s.acks && ev.a.candidate in c.replicas
    ==> s.nodes[ev.a.candidate].authSent || ev.a.epoch < s.nodes[ev.a.candidate].authEpoch
  }

  ghost predicate NoStale(c: Config, s: Sys)
    requires Known(c, s)
  {
    forall r :: r in c.replicas ==> s.stale[r] == 0
  }

  lemma RequestStale(c: Config, s: Sys, m: Id, r: Id, epoch: nat, ok: bool)
    requires Known(c, s)
    ensures Apply(c, s, DeliverRequest(m, r, epoch, ok)).stale == s.stale
  {}

  lemma StartStale(c: Config, s: Sys, r: Id)
    requires Known(c, s)
    ensures Apply(c, s, Start(r)).stale == s.stale
  {}

  lemma WinStale(c: Config, s: Sys, r: Id)
    requires Known(c, s)
    ensures Apply(c, s, TryWin(r)).stale == s.stale
  {}

  lemma AckClean(c: Config, s: Sys, a: Ack)
    requires Known(c, s) && CleanEvent(c, s, DeliverAck(a))
    ensures Apply(c, s, DeliverAck(a)).stale == s.stale
  {}

  /** Clean events count no stale acknowledgement, and a reset forgets those counted. */
  lemma StaleSame(c: Config, s: Sys, ev: Event)
    requires Inv(c, s) && CleanEvent(c, s, ev)
    ensures Apply(c, s, ev).stale == if ev.Reset? && ev.r in c.replicas then s.stale[ev.r := 0] else s.stale
  {
    match ev
    case Header(n, epoch) => HeaderEvent(c, s, n, epoch);
    case Reset(r) => ResetEvent(c, s, r);
    case Start(r) => StartStale(c, s, r);
    case DeliverRequest(m, r, epoch, ok) => RequestStale(c, s, m, r, epoch, ok);
    case DeliverAck(a) => AckClean(c, s, a);
    case LoseAck(a) => LoseEvent(c, s, a);
    case TryWin(r) => WinStale(c, s, r);
    case Demote(r) => DemoteEvent(c, s, r);
  }

  lemma CleanKeeps(c: Config, s: Sys, ev: Event)
    requires Inv(c, s) && NoStale(c, s) && CleanEvent(c, s, ev) && Known(c, Apply(c, s, ev))
    ensures NoStale(c, Apply(c, s, ev))
  {
    StaleSame(c, s, ev);
  }

  lemma AckStale(c: Config, s: Sys, a: Ack)
    requires Known(c, s) && a in s.acks && a.candidate in c.replicas && a.voter in c.masters
    ensures Apply(c, s, DeliverAck(a)).stale.Keys == s.stale.Keys
    ensures Apply(c, s, DeliverAck(a)).stale[a.candidate]
            == s.stale[a.candidate] + if CleanEvent(c, s, DeliverAck(a)) then 0 else 1
  {}

  /** The vote counter of an election is the number of masters that voted in it exactly as long
      as no stale acknowledgement is delivered. */
  lemma CountExactIffClean(c: Config, s: Sys, a: Ack)
    requires Inv(c, s) && NoStale(c, s) && a in s.acks
    ensures a.candidate in c.replicas && Known(c, Apply(c, s, DeliverAck(a)))
    ensures var s' := Apply(c, s, DeliverAck(a));
            s'.nodes[a.candidate].authCount == |s'.counted[a.candidate]| <==> CleanEvent(c, s, DeliverAck(a))
  {
    AckNotAhead(c, s, a);
    ApplyInv(c, s, DeliverAck(a));
    AckStale(c, s, a);
    CountSplit(c, Apply(c, s, DeliverAck(a)), a.candidate);
  }

  lemma CountSplit(c: Config, s: Sys, r: Id)
    requires Known(c, s) && CountOk(c, s) && r in c.replicas
    ensures s.nodes[r].authCount == |s.counted[r]| + s.stale[r]
  {}

  /** A majority of masters that voted for the winner in its epoch. */
  ghost predicate IsQuorum(c: Config, votes: set<Vote>, w: Win, q: set<Id>) {
    q <= c.masters && |q| >= Quorum(c) && forall m :: m in q ==> Vote(m, w.epoch, w.candidate) in votes
  }

  ghost predicate Backed(c: Config, votes: set<Vote>, w: Win) { exists q :: IsQuorum(c, votes, w, q) }

  ghost predicate WinsOk(c: Config, s: Sys) { forall w :: w in s.wins ==> Backed(c, s.votes, w) }

  lemma VotesGrow(c: Config, s: Sys, ev: Event)
    requires Known(c, s)
    ensures s.votes <= Apply(c, s, ev).votes
    ensures !ev.TryWin? ==> Apply(c, s, ev).wins == s.wins
  {}

  lemma BackedGrows(c: Config, votes: set<Vote>, more: set<Vote>, w: Win)
    requires Backed(c, votes, w) && votes <= more
    ensures Backed(c, more, w)
  {
    var q :| IsQuorum(c, votes, w, q);
    assert IsQuorum(c, more, w, q);
  }

  lemma WinnerBacked(c: Config, s: Sys, r: Id)
    requires Inv(c, s) && NoStale(c, s) && r in c.replicas
    requires s.nodes[r].authCount >= Quorum(c)
    ensures Backed(c, s.votes, Win(r, s.nodes[r].authEpoch))
  {
    var q := s.counted[r];
    forall m | m in q ensures m in c.masters {
      assert Vote(m, s.nodes[r].authEpoch, r) in s.votes;
    }
    assert IsQuorum(c, s.votes, Win(r, s.nodes[r].authEpoch), q);
  }

  lemma WinsKeep(c: Config, s: Sys, ev: Event)
    requires Inv(c, s) && NoStale(c, s) && WinsOk(c, s)
    ensures WinsOk(c, Apply(c, s, ev))
  {
    var s' := Apply(c, s, ev);
    VotesGrow(c, s, ev);
    forall w | w in s'.wins ensures Backed(c, s'.votes, w) {
      if w in s.wins {
        BackedGrows(c, s.votes, s'.votes, w);
      } else {
        WinnerBacked(c, s, ev.r);
      }
    }
  }

  /** Two majorities of the same masters share one. */
  lemma MajoritiesMeet(masters: set<Id>, q1: set<Id>, q2: set<Id>) returns (m: Id)
    requires q1 <= masters && q2 <= masters && |q1| >= |masters| / 2 + 1 && |q2| >= |masters| / 2 + 1
    ensures m in q1 && m in q2
  {
    if q1 !! q2 {
      var both := q1 + q2;
      assert |both| == |q1| + |q2|;
      SubsetSize(both, masters);
    }
    m :| m in q1 && m in q2;
  }

  /** The states of a run, one per event and one more. */
  ghost predicate Trace(c: Config, ss: seq<Sys>, evs: seq<Event>) {
    && |ss| == |evs| + 1 && Known(c, ss[|evs|])
    && forall i :: 0 <= i < |evs| ==> Known(c, ss[i]) && ss[i + 1] == Apply(c, ss[i], evs[i])
  }

  /** No stale acknowledgement is counted in the run. */
  ghost predicate CleanTrace(c: Config, ss: seq<Sys>, evs: seq<Event>) {
    Trace(c, ss, evs) && forall i :: 0 <= i < |evs| ==> CleanEvent(c, ss[i], evs[i])
  }

  function Last(ss: seq<Sys>): Sys
    requires |ss| > 0
  {
    ss[|ss| - 1]
  }

  lemma {:induction false} CleanTraceInv(c: Config, ss: seq<Sys>, evs: seq<Event>, k: nat)
    requires CleanTrace(c, ss, evs) && Init(c, ss[0]) && k <= |evs|
    ensures Inv(c, ss[k]) && NoStale(c, ss[k]) && WinsOk(c, ss[k])
  {
    if k == 0 {
      InitInv(c, ss[0]);
    } else {
      CleanTraceInv(c, ss, evs, k - 1);
      ApplyInv(c, ss[k - 1], evs[k - 1]);
      CleanKeeps(c, ss[k - 1], evs[k - 1]);
      WinsKeep(c, ss[k - 1], evs[k - 1]);
    }
  }

  /** At most one candidate can have a majority of the votes of an epoch. */
  lemma OneBackedPerEpoch(c: Config, s: Sys, w1: Win, w2: Win)
    requires Inv(c, s) && Backed(c, s.votes, w1) && Backed(c, s.votes, w2) && w1.epoch == w2.epoch
    ensures w1 == w2
  {
    var q1 :| IsQuorum(c, s.votes, w1, q1);
    var q2 :| IsQuorum(c, s.votes, w2, q2);
    var m := MajoritiesMeet(c.masters, q1, q2);
    assert Vote(m, w1.epoch, w1.candidate) in s.votes && Vote(m, w2.epoch, w2.candidate) in s.votes;
  }

  /** Election safety: in every run without stale acknowledgements no two replicas win the
      same epoch, under any delay, loss and reordering. */
  lemma ElectionSafety(c: Config, ss: seq<Sys>, evs: seq<Event>, w1: Win, w2: Win)
    requires CleanTrace(c, ss, evs) && Init(c, ss[0])
    requires w1 in Last(ss).wins && w2 in Last(ss).wins && w1.epoch == w2.epoch
    ensures w1.candidate == w2.candidate
  {
    CleanTraceInv(c, ss, evs, |evs|);
    OneBackedPerEpoch(c, Last(ss), w1, w2);
  }
}
