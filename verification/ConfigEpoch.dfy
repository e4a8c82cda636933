/** Collisions of configuration epochs: every master publishes its epochs in the header of each
    packet, and of two masters with the same configuration epoch the one with the smaller name
    moves to a new one. Packets may be delayed, repeated and reordered at will. Masters are
    numbered in the order of their names. */
module ConfigEpoch {
  import opened Sets

  type Id = nat

  datatype Packet = Packet(sender: Id, currentEpoch: nat, configEpoch: nat)

  /** What a master stores: `server.cluster->currentEpoch`, its own configuration epoch and the
      one it believes every other master to have. The last three fields are history: the
      configuration epochs it held before the run and packets may still carry, all it has held, and
      those it moved away from by a collision. */
  datatype Master = Master(
    currentEpoch: nat,
    configEpoch: nat,
    view: map<Id, nat>,
    before: set<nat>,
    held: set<nat>,
    left: seq<nat>)

  datatype Sys = Sys(masters: seq<Master>, sent: set<Packet>)

  datatype Event = Send(from: Id) | Deliver(to: Id, p: Packet)

  function Max(a: nat, b: nat): nat { if a < b then b else a }

  function Believed(x: Master, s: Id): nat { if s in x.view then x.view[s] else 0 }

  /** The header of a packet raises the current epoch and the epoch believed of the sender. */
  function OnHeader(x: Master, p: Packet): Master {
    x.(currentEpoch := Max(x.currentEpoch, p.currentEpoch),
       view := x.view[p.sender := Max(Believed(x, p.sender), p.configEpoch)])
  }

  /** clusterHandleConfigEpochCollision on master `me`. */
  function OnCollision(x: Master, me: Id, sender: Id): Master {
    if Believed(x, sender) != x.configEpoch || sender <= me then x
    else x.(currentEpoch := x.currentEpoch + 1, configEpoch := x.currentEpoch + 1,
            held := x.held + {x.currentEpoch + 1}, left := x.left + [x.configEpoch])
  }

  function Receive(x: Master, me: Id, p: Packet): Master {
    var x1 := OnHeader(x, p);
    if p.configEpoch == x1.configEpoch then OnCollision(x1, me, p.sender) else x1
  }

  function Fresh(s: Sys, from: Id): Packet
    requires from < |s.masters|
  {
    Packet(from, s.masters[from].currentEpoch, s.masters[from].configEpoch)
  }

  /** Nothing but these two steps moves an epoch. */
  function Apply(s: Sys, ev: Event): Sys {
    match ev
    case Send(from) => if from < |s.masters| then s.(sent := s.sent + {Fresh(s, from)}) else s
    case Deliver(to, p) =>
      if to < |s.masters| && p in s.sent && p.sender != to && p.sender < |s.masters|
      then s.(masters := s.masters[to := Receive(s.masters[to], to, p)])
      else s
  }

  /** The run may begin anywhere: epochs may collide, and packets with present and past
      configuration epochs may be under way. */
  ghost predicate Init(s: Sys) {
    && (forall i :: 0 <= i < |s.masters| ==> InitMaster(s, s.masters[i]))
    && (forall p :: p in s.sent && p.sender < |s.masters| ==> p.configEpoch in s.masters[p.sender].before)
  }

  ghost predicate InitMaster(s: Sys, x: Master) {
    && x.configEpoch <= x.currentEpoch && x.held == x.before && x.left == []
    && x.configEpoch in x.before && (forall e :: e in x.before ==> e <= x.configEpoch)
    && forall j :: 0 <= j < |s.masters| ==> Believed(x, j) <= s.masters[j].configEpoch
  }

  // ---------------------------------------------------------------- invariant

  /** Each collision took the master from a smaller epoch to a greater one. */
  ghost predicate MasterOk(x: Master) {
    && x.configEpoch <= x.currentEpoch && x.configEpoch in x.held
    && (forall e :: Accounted(x, e))
    && (if x.left == [] then x.configEpoch in x.before else x.left[0] in x.before)
    && (forall e :: e in x.held ==> e <= x.configEpoch)
    && (forall a :: 0 <= a < |x.left| ==> x.left[a] < x.configEpoch)
    && (forall a, b :: 0 <= a < b < |x.left| ==> x.left[a] != x.left[b])
  }

  /** An epoch held is one from before the run, one that was left, or the present one. */
  ghost predicate Accounted(x: Master, e: nat) {
    e in x.held ==> e in x.before || e in x.left || e == x.configEpoch
  }

  /** Nothing is believed of, or sent by, a master beyond what it held. */
  ghost predicate BeliefsOk(xs: seq<Master>) { forall i, j :: BeliefHeld(xs, i, j) }

  ghost predicate BeliefHeld(xs: seq<Master>, i: nat, j: nat) {
    i < |xs| && j < |xs| ==> Believed(xs[i], j) <= xs[j].configEpoch
  }

  ghost predicate SentOk(s: Sys) {
    forall p :: p in s.sent && p.sender < |s.masters| ==> p.configEpoch in s.masters[p.sender].held
  }

  ghost predicate HeldAbove(xs: seq<Master>, i: nat, e: nat) { exists j :: i < j < |xs| && e in xs[j].held }

  /** Every epoch a master moved away from was held by a master with a greater name. */
  ghost predicate LeftOk(xs: seq<Master>) { forall i, a :: LeftHeld(xs, i, a) }

  ghost predicate LeftHeld(xs: seq<Master>, i: nat, a: nat) {
    i < |xs| && a < |xs[i].left| ==> HeldAbove(xs, i, xs[i].left[a])
  }

  ghost predicate Inv(s: Sys) {
    MastersOk(s.masters) && BeliefsOk(s.masters) && SentOk(s) && LeftOk(s.masters)
  }

  ghost predicate MastersOk(xs: seq<Master>) { forall i :: 0 <= i < |xs| ==> MasterOk(xs[i]) }

  lemma InitInv(s: Sys)
    requires Init(s)
    ensures Inv(s)
  {}

  lemma ReceiveOk(x: Master, me: Id, p: Packet)
    requires MasterOk(x)
    ensures var y := Receive(x, me, p);
      && MasterOk(y) && x.configEpoch <= y.configEpoch && x.held <= y.held && y.before == x.before
      && (y.left == x.left || (me < p.sender && y.left == x.left + [p.configEpoch]))
      && (forall j :: j != p.sender ==> Believed(y, j) == Believed(x, j))
      && Believed(y, p.sender) == Max(Believed(x, p.sender), p.configEpoch)
  {
    var y := Receive(x, me, p);
    forall e ensures Accounted(y, e) { assert Accounted(x, e); }
  }

  lemma HeldAboveGrows(xs: seq<Master>, ys: seq<Master>, i: nat, e: nat)
    requires HeldAbove(xs, i, e) && |xs| == |ys| && forall j :: 0 <= j < |xs| ==> xs[j].held <= ys[j].held
    ensures HeldAbove(ys, i, e)
  {
    var j :| i < j < |xs| && e in xs[j].held;
    assert e in ys[j].held;
  }

  lemma DeliverLeft(xs: seq<Master>, to: Id, y: Master, p: Packet)
    requires LeftOk(xs) && to < |xs| && to != p.sender < |xs| && p.configEpoch in xs[p.sender].held
    requires xs[to].held <= y.held
    requires y.left == xs[to].left || (to < p.sender && y.left == xs[to].left + [p.configEpoch])
    ensures LeftOk(xs[to := y])
  {
    var ys := xs[to := y];
    forall i: nat, a: nat ensures LeftHeld(ys, i, a) {
      assert LeftHeld(xs, i, a);
      if i < |ys| && a < |ys[i].left| {
        if i != to || a < |xs[i].left| {
          HeldAboveGrows(xs, ys, i, ys[i].left[a]);
        } else {
          assert ys[i].left[a] in ys[p.sender].held;
        }
      }
    }
  }

  lemma DeliverBeliefs(xs: seq<Master>, to: Id, y: Master, p: Packet)
    requires BeliefsOk(xs) && MastersOk(xs) && to < |xs| && to != p.sender < |xs|
    requires p.configEpoch in xs[p.sender].held && xs[to].configEpoch <= y.configEpoch
    requires forall j :: j != p.sender ==> Believed(y, j) == Believed(xs[to], j)
    requires Believed(y, p.sender) == Max(Believed(xs[to], p.sender), p.configEpoch)
    ensures BeliefsOk(xs[to := y])
  {
    var ys := xs[to := y];
    assert MasterOk(xs[p.sender]);
    forall i: nat, j: nat ensures BeliefHeld(ys, i, j) { assert BeliefHeld(xs, i, j); }
  }

  lemma DeliverInv(s: Sys, to: Id, p: Packet)
    requires Inv(s) && to < |s.masters| && p in s.sent && p.sender != to && p.sender < |s.masters|
    ensures Inv(Apply(s, Deliver(to, p)))
  {
    var y := Receive(s.masters[to], to, p);
    ReceiveOk(s.masters[to], to, p);
    DeliverBeliefs(s.masters, to, y, p);
    DeliverLeft(s.masters, to, y, p);
  }

  lemma ApplyInv(s: Sys, ev: Event)
    requires Inv(s)
    ensures Inv(Apply(s, ev))
  {
    match ev
    case Send(from) =>
    case Deliver(to, p) =>
      if to < |s.masters| && p in s.sent && p.sender != to && p.sender < |s.masters| {
        DeliverInv(s, to, p);
      }
  }

  function Run(s: Sys, evs: seq<Event>): Sys
    decreases |evs|
  {
    if evs == [] then s else Run(Apply(s, evs[0]), evs[1..])
  }

  lemma {:induction false} RunInv(s: Sys, evs: seq<Event>)
    requires Inv(s)
    ensures Inv(Run(s, evs)) && |Run(s, evs).masters| == |s.masters|
    decreases |evs|
  {
    if evs != [] {
      ApplyInv(s, evs[0]);
      RunInv(Apply(s, evs[0]), evs[1..]);
    }
  }

  // ---------------------------------------------------------------- the bound

  /** All epochs held by the masters from i upwards. */
  ghost function HeldFrom(xs: seq<Master>, i: nat): set<nat>
    requires i <= |xs|
    decreases |xs| - i
  {
    if i == |xs| then {} else xs[i].held + HeldFrom(xs, i + 1)
  }

  lemma {:induction false} HeldFromHas(xs: seq<Master>, i: nat, j: nat, e: nat)
    requires i <= j < |xs| && e in xs[j].held
    ensures e in HeldFrom(xs, i)
    decreases j - i
  {
    if i < j {
      HeldFromHas(xs, i + 1, j, e);
    }
  }

  lemma {:induction false} DistinctWithin(left: seq<nat>, all: set<nat>)
    requires forall a :: 0 <= a < |left| ==> left[a] in all
    requires forall a, b :: 0 <= a < b < |left| ==> left[a] != left[b]
    ensures |left| <= |all|
  {
    if left != [] {
      var k := |left| - 1;
      DistinctWithin(left[..k], all - {left[k]});
    }
  }

  lemma UnionSize(a: set<nat>, b: set<nat>)
    ensures |a + b| <= |a| + |b|
  {
    assert |a + b| + |a * b| == |a| + |b|;
  }

  lemma LeftAbove(s: Sys, i: nat)
    requires Inv(s) && i < |s.masters|
    ensures forall a :: 0 <= a < |s.masters[i].left| ==> s.masters[i].left[a] in HeldFrom(s.masters, i + 1)
  {
    var x := s.masters[i];
    forall a | 0 <= a < |x.left| ensures x.left[a] in HeldFrom(s.masters, i + 1) {
      assert LeftHeld(s.masters, i, a);
      var j :| i < j < |s.masters| && x.left[a] in s.masters[j].held;
      HeldFromHas(s.masters, i + 1, j, x.left[a]);
    }
  }

  /** A master moves at most once away from each epoch held by those with greater names. */
  lemma MovesWithin(s: Sys, i: nat)
    requires Inv(s) && i < |s.masters|
    ensures |s.masters[i].left| <= |HeldFrom(s.masters, i + 1)|
  {
    LeftAbove(s, i);
    assert MasterOk(s.masters[i]);
    DistinctWithin(s.masters[i].left, HeldFrom(s.masters, i + 1));
  }

  /** How many epochs the masters from i upwards had held before the run, each counted for itself. */
  ghost function BeforeFrom(xs: seq<Master>, i: nat): nat
    requires i <= |xs|
    decreases |xs| - i
  {
    if i == |xs| then 0 else |xs[i].before| + BeforeFrom(xs, i + 1)
  }

  /** A master that moved has left an epoch of its own from before, and those above it had held it: it
      adds no more epochs to theirs than it began with. */
  lemma AddsAtMost(s: Sys, i: nat, above: set<nat>)
    requires Inv(s) && i < |s.masters| && above == HeldFrom(s.masters, i + 1)
    ensures |s.masters[i].held + above| <= |s.masters[i].before| + |above|
  {
    var x := s.masters[i];
    assert MasterOk(x);
    LeftAbove(s, i);
    var own := if x.left == [] then x.before else x.before - {x.left[0]} + {x.configEpoch};
    forall e | e in x.held + above ensures e in own + above { assert Accounted(x, e); }
    SubsetSize(x.held + above, own + above);
    UnionSize(own, above);
  }

  ghost predicate AddsFew(xs: seq<Master>, i: nat)
    requires i < |xs|
  {
    |xs[i].held + HeldFrom(xs, i + 1)| <= |xs[i].before| + |HeldFrom(xs, i + 1)|
  }

  lemma {:induction false} HeldFromBound(xs: seq<Master>, i: nat)
    requires i <= |xs| && forall j :: 0 <= j < |xs| ==> AddsFew(xs, j)
    ensures |HeldFrom(xs, i)| <= BeforeFrom(xs, i)
    decreases |xs| - i
  {
    if i < |xs| {
      HeldFromBound(xs, i + 1);
      assert AddsFew(xs, i);
    }
  }

  lemma MovesFew(s: Sys, i: nat)
    requires Inv(s) && i < |s.masters|
    ensures |s.masters[i].left| <= BeforeFrom(s.masters, i + 1)
  {
    var xs := s.masters;
    forall j | 0 <= j < |xs| ensures AddsFew(xs, j) { AddsAtMost(s, j, HeldFrom(xs, j + 1)); }
    HeldFromBound(xs, i + 1);
    MovesWithin(s, i);
  }

  lemma {:induction false} BeforeKept(s: Sys, evs: seq<Event>)
    ensures |Run(s, evs).masters| == |s.masters|
    ensures forall i :: 0 <= i < |s.masters| ==> Run(s, evs).masters[i].before == s.masters[i].before
    decreases |evs|
  {
    if evs != [] { BeforeKept(Apply(s, evs[0]), evs[1..]); }
  }

  lemma {:induction false} BeforeStays(xs: seq<Master>, ys: seq<Master>, i: nat)
    requires |xs| == |ys| && i <= |xs| && forall j :: 0 <= j < |xs| ==> xs[j].before == ys[j].before
    ensures BeforeFrom(xs, i) == BeforeFrom(ys, i)
    decreases |xs| - i
  {
    if i < |xs| { BeforeStays(xs, ys, i + 1); }
  }

  lemma {:induction false} BeforeSingle(xs: seq<Master>, i: nat)
    requires i <= |xs| && forall j :: 0 <= j < |xs| ==> |xs[j].before| == 1
    ensures BeforeFrom(xs, i) == |xs| - i
    decreases |xs| - i
  {
    if i < |xs| { BeforeSingle(xs, i + 1); }
  }

  lemma MovesFewSince(xs: seq<Master>, s: Sys, i: nat)
    requires Inv(s) && |s.masters| == |xs| && i < |xs|
    requires forall j :: 0 <= j < |xs| ==> s.masters[j].before == xs[j].before
    ensures |s.masters[i].left| <= BeforeFrom(xs, i + 1)
  {
    MovesFew(s, i);
    BeforeStays(s.masters, xs, i + 1);
  }

  /** How often the configuration epoch of master i changes in a run. */
  ghost function Moves(s: Sys, evs: seq<Event>, i: nat): nat
    requires i < |s.masters|
    decreases |evs|
  {
    if evs == [] then 0
    else
      var s1 := Apply(s, evs[0]);
      (if s1.masters[i].configEpoch != s.masters[i].configEpoch then 1 else 0) + Moves(s1, evs[1..], i)
  }

  lemma MoveRecorded(s: Sys, ev: Event, i: nat)
    requires Inv(s) && i < |s.masters|
    ensures var x, y := s.masters[i], Apply(s, ev).masters[i];
      |y.left| == |x.left| + if y.configEpoch != x.configEpoch then 1 else 0
  {
    assert MasterOk(s.masters[i]);
  }

  /** The history holds one epoch for every move. */
  lemma {:induction false} MovesRecorded(s: Sys, evs: seq<Event>, i: nat)
    requires Inv(s) && i < |s.masters|
    ensures |Run(s, evs).masters| == |s.masters|
    ensures |Run(s, evs).masters[i].left| == |s.masters[i].left| + Moves(s, evs, i)
    decreases |evs|
  {
    if evs != [] {
      ApplyInv(s, evs[0]);
      MoveRecorded(s, evs[0], i);
      MovesRecorded(Apply(s, evs[0]), evs[1..], i);
    }
  }

  /** Collision handling ends: a master moves at most as often as the masters with greater names have
      epochs, present or still carried by packets under way, when the run begins; whatever the order,
      delay and repetition of packets. */
  lemma MovesBounded(s0: Sys, evs: seq<Event>, i: nat)
    requires Init(s0) && i < |s0.masters|
    ensures Moves(s0, evs, i) <= BeforeFrom(s0.masters, i + 1)
  {
    InitInv(s0);
    RunInv(s0, evs);
    BeforeKept(s0, evs);
    MovesFewSince(s0.masters, Run(s0, evs), i);
    MovesRecorded(s0, evs, i);
  }

  /** With no packet of an earlier epoch under way, a master with k greater names moves at most k times. */
  lemma MovesAtMostNames(s0: Sys, evs: seq<Event>, i: nat)
    requires Init(s0) && i < |s0.masters|
    requires forall j :: 0 <= j < |s0.masters| ==> |s0.masters[j].before| == 1
    ensures Moves(s0, evs, i) <= |s0.masters| - 1 - i
  {
    MovesBounded(s0, evs, i);
    BeforeSingle(s0.masters, i + 1);
  }

  // ---------------------------------------------------------------- states at rest

  /** A packet sent and delivered now would change no configuration epoch. */
  ghost predicate AtRest(s: Sys) {
    forall i, j :: 0 <= i < |s.masters| && 0 <= j < |s.masters| && i != j
      ==> Receive(s.masters[i], i, Fresh(s, j)).configEpoch == s.masters[i].configEpoch
  }

  ghost predicate AllDistinct(s: Sys) {
    forall i, j :: 0 <= i < j < |s.masters| ==> s.masters[i].configEpoch != s.masters[j].configEpoch
  }

  lemma MovesIffCollides(s: Sys, i: nat, j: nat)
    requires Inv(s) && i < |s.masters| && j < |s.masters| && i != j
    ensures Receive(s.masters[i], i, Fresh(s, j)).configEpoch != s.masters[i].configEpoch
            <==> i < j && s.masters[i].configEpoch == s.masters[j].configEpoch
  {
    assert BeliefHeld(s.masters, i, j);
    assert MasterOk(s.masters[i]);
  }

  /** The epoch a collision leads to is beyond everything that the master and the packet know. */
  lemma MovesAbove(x: Master, me: Id, p: Packet)
    requires MasterOk(x) && Receive(x, me, p).configEpoch != x.configEpoch
    ensures var y := Receive(x, me, p);
      && y.configEpoch > x.currentEpoch && y.configEpoch > p.currentEpoch && y.configEpoch > p.configEpoch
      && y.currentEpoch == y.configEpoch && (forall e :: e in x.held ==> e < y.configEpoch)
  {}

  /** In every reachable state: nothing is left to resolve exactly when all epochs differ. */
  lemma AtRestIffDistinct(s0: Sys, evs: seq<Event>)
    requires Init(s0)
    ensures AtRest(Run(s0, evs)) <==> AllDistinct(Run(s0, evs))
  {
    InitInv(s0);
    RunInv(s0, evs);
    var s := Run(s0, evs);
    forall i, j | 0 <= i < |s.masters| && 0 <= j < |s.masters| && i != j
      ensures Receive(s.masters[i], i, Fresh(s, j)).configEpoch != s.masters[i].configEpoch
              <==> i < j && s.masters[i].configEpoch == s.masters[j].configEpoch
    {
      MovesIffCollides(s, i, j);
    }
  }

  // ---------------------------------------------------------------- the handler, as one node runs it

  /** The epochs of `server.cluster` and `myself`, updated in place. */
  class Myself {
    const name: Id
    var currentEpoch: nat
    var configEpoch: nat
    var view: map<Id, nat>
    ghost const before: set<nat>
    ghost var held: set<nat>
    ghost var left: seq<nat>

    constructor (name: Id, currentEpoch: nat, configEpoch: nat, view: map<Id, nat>, ghost before: set<nat>)
      ensures this.name == name
      ensures State() == Master(currentEpoch, configEpoch, view, before, before, [])
    {
      this.name := name;
      this.currentEpoch := currentEpoch;
      this.configEpoch := configEpoch;
      this.view := view;
      this.before, held := before, before;
      left := [];
    }

    ghost function State(): Master
      reads this
    {
      Master(currentEpoch, configEpoch, view, before, held, left)
    }

    method HandleConfigEpochCollision(sender: Id)
      modifies this
      ensures State() == OnCollision(old(State()), name, sender)
      ensures var collides := name < sender && old(configEpoch == if sender in view then view[sender] else 0);
        && currentEpoch == old(currentEpoch) + (if collides then 1 else 0)
        && configEpoch == (if collides then currentEpoch else old(configEpoch))
      ensures view == old(view)
    {
      if (if sender in view then view[sender] else 0) != configEpoch {
        return;
      }
      if sender <= name {
        return;
      }
      left := left + [configEpoch];
      currentEpoch := currentEpoch + 1;
      configEpoch := currentEpoch;
      held := held + {configEpoch};
    }

    method ProcessPacket(p: Packet)
      modifies this
      ensures State() == Receive(old(State()), name, p)
      ensures var top := if p.currentEpoch > old(currentEpoch) then p.currentEpoch else old(currentEpoch);
        var known := old(if p.sender in view then view[p.sender] else 0);
        if p.configEpoch == old(configEpoch) && known <= p.configEpoch && name < p.sender
        then configEpoch == top + 1 && currentEpoch == top + 1
        else configEpoch == old(configEpoch) && currentEpoch == top
      ensures p.sender in view && view.Keys == old(view.Keys) + {p.sender}
      ensures view[p.sender] == if old(p.sender in view && view[p.sender] > p.configEpoch) then old(view[p.sender]) else p.configEpoch
      ensures forall m :: m in view && m != p.sender ==> view[m] == old(view[m])
    {
      if p.currentEpoch > currentEpoch {
        currentEpoch := p.currentEpoch;
      }
      if p.sender !in view || p.configEpoch > view[p.sender] {
        view := view[p.sender := p.configEpoch];
      }
      assert State().view == OnHeader(old(State()), p).view;
      if p.configEpoch == configEpoch {
        HandleConfigEpochCollision(p.sender);
      }
    }
  }
}
