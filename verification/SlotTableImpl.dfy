/** The slot table as the node updates it in place. */
module SlotTableImpl {
  import opened Slots
  import opened SlotTable

  // ---------------------------------------------------------------- one slot at a time

  lemma SameTable(t1: Table, t2: Table)
    requires |t1.slots| == |t2.slots| && t1.peers.Keys == t2.peers.Keys
    requires forall j :: 0 <= j < |t1.slots| ==> t1.slots[j] == t2.slots[j]
    requires forall n :: n in t1.peers ==> t1.peers[n] == t2.peers[n]
    ensures t1 == t2
  {
    assert t1.slots == t2.slots && t1.peers == t2.peers;
  }

  lemma RebindPeerMore(p: Peer, some: set<nat>, j: nat, mine: bool, k: nat)
    ensures RebindPeer(RebindPeer(p, some, mine, k), {j}, mine, k) == RebindPeer(p, some + {j}, mine, k)
  {
    assert BitsAfter(BitsAfter(p.bits, some, mine), {j}, mine) == BitsAfter(p.bits, some + {j}, mine);
    RebindPeerCount(p, some, mine, k);
    RebindPeerCount(RebindPeer(p, some, mine, k), {j}, mine, k);
    RebindPeerCount(p, some + {j}, mine, k);
  }

  lemma RebindMore(t: Table, some: set<nat>, j: nat, to: Owner)
    ensures Rebind(Rebind(t, some, to), {j}, to) == Rebind(t, some + {j}, to)
  {
    forall n | n in t.peers {
      RebindPeerMore(t.peers[n], some, j, to == Owned(n), |t.slots|);
    }
    SameTable(Rebind(Rebind(t, some, to), {j}, to), Rebind(t, some + {j}, to));
  }

  lemma RebindNone(t: Table, to: Owner)
    requires Agree(t)
    ensures Rebind(t, {}, to) == t
  {
    forall n | n in t.peers ensures RebindPeer(t.peers[n], {}, to == Owned(n), |t.slots|) == t.peers[n] {
      assert PeerAgrees(t, n);
      assert BitsAfter(t.peers[n].bits, {}, to == Owned(n)) == t.peers[n].bits;
      RebindPeerCount(t.peers[n], {}, to == Owned(n), |t.slots|);
    }
    SameTable(Rebind(t, {}, to), t);
  }

  lemma RebindPeerTwice(p: Peer, j: nat, mine: bool, k: nat)
    ensures RebindPeer(RebindPeer(p, {j}, false, k), {j}, mine, k) == RebindPeer(p, {j}, mine, k)
  {
    assert BitsAfter(BitsAfter(p.bits, {j}, false), {j}, mine) == BitsAfter(p.bits, {j}, mine);
    RebindPeerCount(p, {j}, false, k);
    RebindPeerCount(RebindPeer(p, {j}, false, k), {j}, mine, k);
    RebindPeerCount(p, {j}, mine, k);
  }

  lemma RebindTwice(t: Table, j: nat, to: Owner)
    ensures Rebind(Rebind(t, {j}, Nobody), {j}, to) == Rebind(t, {j}, to)
  {
    forall n | n in t.peers {
      RebindPeerTwice(t.peers[n], j, to == Owned(n), |t.slots|);
    }
    SameTable(Rebind(Rebind(t, {j}, Nobody), {j}, to), Rebind(t, {j}, to));
  }

  lemma DelThenAdd(t: Table, n: Id, j: nat)
    requires j < |t.slots|
    ensures AddSlot(DelSlot(t, j), n, j) == Rebind(t, {j}, Owned(n))
  {
    RebindTwice(t, j, Owned(n));
  }

  /** The bitmaps of nodes that do not own slot j are left alone. */
  lemma DelSlotPeers(t: Table, j: nat, m: Id)
    requires Agree(t) && j < |t.slots| && m in t.peers && t.slots[j] != Owned(m)
    ensures RebindPeer(t.peers[m], {j}, false, |t.slots|) == t.peers[m]
  {
    assert PeerAgrees(t, m);
    assert !Owns(t.slots, m, j);
    assert t.peers[m].bits - {j} == t.peers[m].bits;
    RebindPeerCount(t.peers[m], {j}, false, |t.slots|);
  }

  lemma DelSlotOwner(t: Table, j: nat, n: Id)
    requires Agree(t) && j < |t.slots| && t.slots[j] == Owned(n)
    ensures n in t.peers && j in t.peers[n].bits && t.peers[n].numslots > 0
    ensures RebindPeer(t.peers[n], {j}, false, |t.slots|)
            == t.peers[n].(bits := t.peers[n].bits - {j}, numslots := t.peers[n].numslots - 1)
  {
    assert PeerAgrees(t, n);
    assert Owns(t.slots, n, j);
    BitCountAdd(t.peers[n].bits - {j}, j, |t.slots|);
    assert t.peers[n].bits - {j} + {j} == t.peers[n].bits;
    RebindPeerCount(t.peers[n], {j}, false, |t.slots|);
  }

  /** The table with one slot taken from n. */
  lemma DelSlotTable(t: Table, j: nat, n: Id, t': Table)
    requires Agree(t) && j < |t.slots| && t.slots[j] == Owned(n) && n in t.peers
    requires t'.slots == t.slots[j := Nobody]
    requires t'.peers == t.peers[n := RebindPeer(t.peers[n], {j}, false, |t.slots|)]
    ensures t' == DelSlot(t, j)
  {
    forall m | m in t.peers ensures t'.peers[m] == DelSlot(t, j).peers[m] {
      if m != n {
        DelSlotPeers(t, j, m);
      }
    }
    SameTable(t', DelSlot(t, j));
  }

  lemma DelSlotNobody(t: Table, j: nat)
    requires Agree(t) && j < |t.slots| && t.slots[j] == Nobody
    ensures DelSlot(t, j) == t
  {
    forall m | m in t.peers {
      DelSlotPeers(t, j, m);
    }
    SameTable(DelSlot(t, j), t);
  }

  lemma AddSlotTable(t: Table, j: nat, n: Id, t': Table)
    requires Agree(t) && j < |t.slots| && t.slots[j] == Nobody && n in t.peers
    requires t'.slots == t.slots[j := Owned(n)]
    requires t'.peers == t.peers[n := t.peers[n].(bits := t.peers[n].bits + {j}, numslots := t.peers[n].numslots + 1)]
    ensures t' == AddSlot(t, n, j)
  {
    assert PeerAgrees(t, n);
    assert !Owns(t.slots, n, j);
    BitCountAdd(t.peers[n].bits, j, |t.slots|);
    RebindPeerCount(t.peers[n], {j}, true, |t.slots|);
    forall m | m in t.peers ensures t'.peers[m] == AddSlot(t, n, j).peers[m] {
      if m != n {
        DelSlotPeers(t, j, m);
      }
    }
    SameTable(t', AddSlot(t, n, j));
  }

  /** Two nodes own no slot together. */
  lemma OwnedApart(t: Table, n: Id, m: Id)
    requires Agree(t) && n in t.peers && m in t.peers && n != m
    ensures t.peers[n].bits * t.peers[m].bits == {} && t.peers[n].bits - t.peers[m].bits == t.peers[n].bits
  {
    forall j: nat ensures !(j in t.peers[n].bits && j in t.peers[m].bits) {
      AgreeBits(t, n, j);
      AgreeBits(t, m, j);
    }
  }

  /** What the nodes have after all slots of n went to another owner: n none, that owner all of them on
      top of its own, the others what they had. */
  lemma AllRebound(t: Table, n: Id, to: Owner, m: Id)
    requires Agree(t) && n in t.peers && m in t.peers && to != Owned(n)
    ensures var p, p' := t.peers[m], Rebind(t, t.peers[n].bits, to).peers[m];
      if m == n then p'.numslots == 0
      else if to == Owned(m) then p'.numslots == p.numslots + t.peers[n].numslots
      else p' == p
  {
    var his, k := t.peers[n].bits, |t.slots|;
    assert PeerAgrees(t, n) && PeerAgrees(t, m);
    if m == n {
      assert his * his == his;
    } else {
      OwnedApart(t, n, m);
      assert t.peers[m].bits - his == t.peers[m].bits;
      BitCountNone(k);
    }
  }

  /** The part of a set of slots below j. */
  ghost function Below(some: set<nat>, j: nat): set<nat> { set i | i in some && i < j }

  lemma BelowStep(some: set<nat>, j: nat)
    ensures Below(some, j + 1) == if j in some then Below(some, j) + {j} else Below(some, j)
  {}

  lemma BelowAll(t: Table, some: set<nat>)
    requires forall j :: j in some ==> j < |t.slots|
    ensures Below(some, |t.slots|) == some
  {}

  lemma OwnedBelow(t: Table, n: Id)
    requires Agree(t) && n in t.peers
    ensures Below(t.peers[n].bits, CLUSTER_SLOTS) == t.peers[n].bits
    ensures t.peers[n].numslots == BitCount(t.peers[n].bits, CLUSTER_SLOTS)
    ensures forall j :: j in t.peers[n].bits ==> j < CLUSTER_SLOTS
  {
    assert PeerAgrees(t, n);
    forall j | j in t.peers[n].bits ensures j < |t.slots| {
      AgreeBits(t, n, j);
    }
    BelowAll(t, t.peers[n].bits);
  }

  /** The slots of `some` that were `me`'s and have keys. */
  ghost predicate Marked(lost: seq<nat>, some: set<nat>, t: Table, me: Id, keys: set<nat>) {
    forall j: nat :: j in lost <==> j in some && Owns(t.slots, me, j) && j in keys
  }

  ghost predicate TakesFrom(some: set<nat>, t: Table, n: Id) { exists j: nat :: j in some && Owns(t.slots, n, j) }

  // ---------------------------------------------------------------- the class

  class ClusterSlots {
    const myself: Id
    const slots: array<Owner>
    const importing: array<Owner>
    var peers: map<Id, Peer>

    ghost function State(): Table
      reads this, slots
    {
      Table(slots[..], peers)
    }

    ghost function Importing(): set<nat>
      reads importing
    {
      set j: nat | j < importing.Length && importing[j].Owned?
    }

    ghost predicate Valid()
      reads this, slots, importing
    {
      Shape() && Agree(State())
    }

    ghost predicate Shape()
      reads this, importing
    {
      slots != importing && importing.Length == CLUSTER_SLOTS
    }

    constructor (myself: Id)
      ensures Valid() && fresh(slots) && fresh(importing) && this.myself == myself
      ensures State() == AddNode(Empty(), myself) && Importing() == {}
    {
      this.myself := myself;
      slots := new Owner[CLUSTER_SLOTS](_ => Nobody);
      importing := new Owner[CLUSTER_SLOTS](_ => Nobody);
      peers := map[myself := Peer({}, 0, 0)];
      new;
      assert Agree(Empty());
      ApplyAgree(Empty(), OpAddNode(myself));
      assert State().slots == Empty().slots;
    }

    method AddSlot(n: Id, j: nat) returns (ok: bool)
      requires Valid() && n in peers && j < CLUSTER_SLOTS
      modifies this, slots
      ensures Valid() && State() == SlotTable.AddSlot(old(State()), n, j)
      ensures ok == old(slots[j] == Nobody)
      ensures forall i :: 0 <= i < CLUSTER_SLOTS ==>
        slots[i] == if i == j && old(slots[i]) == Nobody then Owned(n) else old(slots[i])
      ensures peers[n].numslots == old(peers[n].numslots) + if ok then 1 else 0
      ensures peers.Keys == old(peers.Keys) && forall m :: m in peers ==> peers[m].configEpoch == old(peers[m].configEpoch)
    {
      if slots[j].Owned? {
        return false;
      }
      ghost var t := State();
      var p := peers[n];
      assert PeerAgrees(t, n);
      assert !Owns(t.slots, n, j);
      if j !in p.bits {
        p := p.(bits := p.bits + {j}, numslots := p.numslots + 1);
      }
      peers := peers[n := p];
      slots[j] := Owned(n);
      AddSlotTable(t, j, n, State());
      ApplyAgree(t, OpAddSlot(n, j));
      return true;
    }

    /** The assertion of the source on the owner's bit always holds. */
    method DelSlot(j: nat) returns (ok: bool)
      requires Valid() && j < CLUSTER_SLOTS
      modifies this, slots
      ensures Valid() && State() == SlotTable.DelSlot(old(State()), j)
      ensures ok == old(slots[j].Owned?)
      ensures forall i :: 0 <= i < CLUSTER_SLOTS ==> slots[i] == if i == j then Nobody else old(slots[i])
      ensures peers.Keys == old(peers.Keys) && forall m :: m in peers ==> peers[m].configEpoch == old(peers[m].configEpoch)
    {
      ghost var t := State();
      if slots[j] == Nobody {
        DelSlotNobody(t, j);
        return false;
      }
      var n := slots[j].node;
      DelSlotOwner(t, j, n);
      var p := peers[n];
      var wasSet := j in p.bits;
      p := p.(bits := p.bits - {j});
      if wasSet {
        p := p.(numslots := p.numslots - 1);
      }
      assert wasSet;
      peers := peers[n := p];
      slots[j] := Nobody;
      DelSlotTable(t, j, n, State());
      ApplyAgree(t, OpDelSlot(j));
      return true;
    }

    method MoveSlot(j: nat, n: Id)
      requires Valid() && n in peers && j < CLUSTER_SLOTS
      modifies this, slots
      ensures Valid() && State() == Rebind(old(State()), {j}, Owned(n))
    {
      var _ := DelSlot(j);
      var _ := AddSlot(n, j);
      DelThenAdd(old(State()), n, j);
    }

    /** The slots of `some` below j have been rebound, the others are as in t. */
    ghost predicate Rebound(t: Table, some: set<nat>, j: nat, to: Owner)
      reads this, slots, importing
    {
      Shape() && State() == Rebind(t, Below(some, j), to)
    }

    lemma ReboundValid(t: Table, some: set<nat>, j: nat, to: Owner)
      requires Agree(t) && Rebound(t, some, j, to) && (to.Owned? ==> to.node in t.peers)
      requires forall i :: i in some ==> i < CLUSTER_SLOTS
      ensures Valid()
    {
      RebindAgree(t, Below(some, j), to);
    }

    lemma ReboundNone(some: set<nat>, to: Owner)
      requires Valid()
      ensures Rebound(State(), some, 0, to)
    {
      RebindNone(State(), to);
      assert Below(some, 0) == {};
    }

    /** Slot j has not been looked at yet. */
    lemma Untouched(t: Table, some: set<nat>, j: nat, to: Owner, n: Id)
      requires Agree(t) && Rebound(t, some, j, to) && j < CLUSTER_SLOTS && n in t.peers && Valid()
      ensures n in peers && slots[j] == t.slots[j] && (j in peers[n].bits <==> j in t.peers[n].bits)
      ensures peers[n].configEpoch == t.peers[n].configEpoch
    {
      AgreeBits(t, n, j);
      AgreeBits(State(), n, j);
    }

    lemma Skip(j: nat, t: Table, some: set<nat>, to: Owner)
      requires Rebound(t, some, j, to) && j !in some
      ensures Rebound(t, some, j + 1, to)
    {
      BelowStep(some, j);
    }

    /** One round of the loops that take all slots from n. */
    method ReleaseFrom(n: Id, j: nat, ghost t: Table) returns (hit: bool)
      requires Agree(t) && n in t.peers && j < CLUSTER_SLOTS && Rebound(t, t.peers[n].bits, j, Nobody)
      modifies this, slots
      ensures Rebound(t, t.peers[n].bits, j + 1, Nobody) && hit == (j in t.peers[n].bits)
    {
      ghost var some := t.peers[n].bits;
      OwnedBelow(t, n);
      ReboundValid(t, some, j, Nobody);
      Untouched(t, some, j, Nobody, n);
      hit := j in peers[n].bits;
      if hit {
        BelowStep(some, j);
        RebindMore(t, Below(some, j), j, Nobody);
        var _ := DelSlot(j);
      } else {
        Skip(j, t, some, Nobody);
      }
    }

    method Take(j: nat, n: Id, ghost t: Table, ghost some: set<nat>)
      requires Agree(t) && Rebound(t, some, j, Owned(n)) && j < CLUSTER_SLOTS && j in some && n in peers && Valid()
      modifies this, slots
      ensures Rebound(t, some, j + 1, Owned(n))
    {
      BelowStep(some, j);
      RebindMore(t, Below(some, j), j, Owned(n));
      MoveSlot(j, n);
    }

    method TakeFrom(oldmaster: Id, j: nat, ghost t: Table)
      requires Agree(t) && oldmaster in t.peers && myself in t.peers && j < CLUSTER_SLOTS
      requires Rebound(t, t.peers[oldmaster].bits, j, Owned(myself))
      modifies this, slots
      ensures Rebound(t, t.peers[oldmaster].bits, j + 1, Owned(myself))
    {
      OwnedBelow(t, oldmaster);
      ReboundValid(t, t.peers[oldmaster].bits, j, Owned(myself));
      Untouched(t, t.peers[oldmaster].bits, j, Owned(myself), oldmaster);
      if j in peers[oldmaster].bits {
        Take(j, myself, t, t.peers[oldmaster].bits);
      } else {
        Skip(j, t, t.peers[oldmaster].bits, Owned(myself));
      }
    }

    method DelNodeSlots(n: Id) returns (deleted: nat)
      requires Valid() && n in peers
      modifies this, slots
      ensures Valid() && State() == SlotTable.DelNodeSlots(old(State()), n)
      ensures deleted == old(peers[n].numslots) && peers[n].numslots == 0
      ensures forall j :: 0 <= j < CLUSTER_SLOTS ==>
        slots[j] == if old(slots[j]) == Owned(n) then Nobody else old(slots[j])
      ensures peers.Keys == old(peers.Keys) && forall m :: m in peers ==> peers[m].configEpoch == old(peers[m].configEpoch)
    {
      ghost var t := State();
      ghost var mine := peers[n].bits;
      deleted := 0;
      var j := 0;
      ReboundNone(mine, Nobody);
      while j < CLUSTER_SLOTS
        invariant j <= CLUSTER_SLOTS && Rebound(t, mine, j, Nobody) && deleted == BitCount(mine, j)
      {
        var hit := ReleaseFrom(n, j, t);
        if hit {
          deleted := deleted + 1;
        }
        j := j + 1;
      }
      OwnedBelow(t, n);
      ReboundValid(t, mine, j, Nobody);
      AllRebound(t, n, Nobody, n);
    }

    method DelNode(n: Id)
      requires Valid() && n in peers
      modifies this, slots, importing
      ensures Valid() && State() == SlotTable.DelNode(old(State()), n)
      ensures forall j :: 0 <= j < CLUSTER_SLOTS ==>
        slots[j] == if old(slots[j]) == Owned(n) then Nobody else old(slots[j])
      ensures peers.Keys == old(peers.Keys) - {n} && forall m :: m in peers ==> peers[m] == old(peers[m])
      ensures forall j :: 0 <= j < CLUSTER_SLOTS ==>
        importing[j] == if old(importing[j]) == Owned(n) then Nobody else old(importing[j])
    {
      ghost var t := State();
      ReleaseSlots(n);
      OwnedBelow(t, n);
      DelNodeAgree(t, n);
      forall m | m in t.peers && m != n ensures peers[m] == t.peers[m] { AllRebound(t, n, Nobody, m); }
      peers := map m | m in peers && m != n :: peers[m];
    }

    /** The loop of clusterDelNode: no slot is owned by the node or imported from it any more. */
    method ReleaseSlots(n: Id)
      requires Valid() && n in peers
      modifies this, slots, importing
      ensures Valid() && Rebound(old(State()), old(peers[n].bits), CLUSTER_SLOTS, Nobody)
      ensures forall j :: 0 <= j < CLUSTER_SLOTS ==>
        importing[j] == if old(importing[j]) == Owned(n) then Nobody else old(importing[j])
    {
      ghost var t := State();
      ghost var mine := peers[n].bits;
      var j := 0;
      ReboundNone(mine, Nobody);
      while j < CLUSTER_SLOTS
        invariant j <= CLUSTER_SLOTS && Rebound(t, mine, j, Nobody)
        invariant forall i :: 0 <= i < CLUSTER_SLOTS ==>
          importing[i] == if i < j && old(importing[i]) == Owned(n) then Nobody else old(importing[i])
      {
        if importing[j] == Owned(n) {
          importing[j] := Nobody;
        }
        var _ := ReleaseFrom(n, j, t);
        j := j + 1;
      }
      ReboundValid(t, mine, j, Nobody);
    }

    /** The final part of a failover: this node takes all slots of its master. */
    method FailoverReplaceYourMaster(oldmaster: Id)
      requires Valid() && oldmaster in peers && myself in peers && oldmaster != myself
      modifies this, slots
      ensures Valid() && State() == Takeover(old(State()), oldmaster, myself)
      ensures forall j :: 0 <= j < CLUSTER_SLOTS ==>
        slots[j] == if old(slots[j]) == Owned(oldmaster) then Owned(myself) else old(slots[j])
      ensures peers[oldmaster].numslots == 0
      ensures peers[myself].numslots == old(peers[myself].numslots) + old(peers[oldmaster].numslots)
      ensures peers.Keys == old(peers.Keys) && forall m :: m in peers ==> peers[m].configEpoch == old(peers[m].configEpoch)
    {
      ghost var t := State();
      ghost var his := peers[oldmaster].bits;
      var j := 0;
      ReboundNone(his, Owned(myself));
      while j < CLUSTER_SLOTS
        invariant j <= CLUSTER_SLOTS && Rebound(t, his, j, Owned(myself))
      {
        TakeFrom(oldmaster, j, t);
        j := j + 1;
      }
      OwnedBelow(t, oldmaster);
      ReboundValid(t, his, j, Owned(myself));
      AllRebound(t, oldmaster, Owned(myself), oldmaster);
      AllRebound(t, oldmaster, Owned(myself), myself);
    }

    /** CLUSTER SETSLOT <slot> NODE <n>, after its checks. */
    method SetSlotNode(j: nat, n: Id)
      requires Valid() && n in peers && j < CLUSTER_SLOTS
      modifies this, slots
      ensures Valid() && State() == SlotTable.AddSlot(SlotTable.DelSlot(old(State()), j), n, j)
      ensures forall i :: 0 <= i < CLUSTER_SLOTS ==> slots[i] == if i == j then Owned(n) else old(slots[i])
      ensures peers.Keys == old(peers.Keys) && forall m :: m in peers ==> peers[m].configEpoch == old(peers[m].configEpoch)
    {
      var _ := DelSlot(j);
      var _ := AddSlot(n, j);
    }

    /** The tests of one round of the loop below. */
    method IsTaken(j: nat, sender: Id, epoch: nat, claimed: set<nat>, ghost t: Table) returns (hit: bool)
      requires Agree(t) && j < CLUSTER_SLOTS && sender in t.peers
      requires Rebound(t, Taken(t, sender, epoch, claimed, Importing()), j, Owned(sender)) && Valid()
      ensures hit == (j in Taken(t, sender, epoch, claimed, Importing()))
      ensures sender in peers && slots[j] == t.slots[j]
    {
      Untouched(t, Taken(t, sender, epoch, claimed, Importing()), j, Owned(sender), sender);
      if j !in claimed || slots[j] == Owned(sender) || importing[j].Owned? {
        return false;
      }
      if slots[j] == Nobody {
        return true;
      }
      Untouched(t, Taken(t, sender, epoch, claimed, Importing()), j, Owned(sender), slots[j].node);
      return peers[slots[j].node].configEpoch < epoch;
    }

    /** One round of the loop below: whether slot j goes to the sender, and who had it. */
    method TakeIfNewer(j: nat, sender: Id, epoch: nat, claimed: set<nat>, ghost t: Table)
      returns (hit: bool, owner: Owner)
      requires Agree(t) && j < CLUSTER_SLOTS && sender in t.peers
      requires Rebound(t, Taken(t, sender, epoch, claimed, Importing()), j, Owned(sender))
      modifies this, slots
      ensures Rebound(t, Taken(t, sender, epoch, claimed, Importing()), j + 1, Owned(sender))
      ensures hit == (j in Taken(t, sender, epoch, claimed, Importing())) && owner == t.slots[j]
    {
      ReboundValid(t, Taken(t, sender, epoch, claimed, Importing()), j, Owned(sender));
      hit := IsTaken(j, sender, epoch, claimed, t);
      owner := slots[j];
      if hit {
        Take(j, sender, t, Taken(t, sender, epoch, claimed, Importing()));
      } else {
        Skip(j, t, Taken(t, sender, epoch, claimed, Importing()), Owned(sender));
      }
    }

    /** Rebinds what `sender`, another node, claims under a newer epoch. `lost` are the slots this node owned and
        still holds keys of; `demoted` says that its master, `curmaster`, lost its last slot. */
    method UpdateSlotsConfigWith(sender: Id, epoch: nat, claimed: set<nat>, curmaster: Id, keys: set<nat>)
      returns (lost: seq<nat>, demoted: bool)
      requires Valid() && sender in peers && curmaster in peers
      modifies this, slots
      ensures Valid()
      ensures var taken := if sender == myself then {} else Taken(old(State()), sender, epoch, claimed, old(Importing()));
        && State() == Rebind(old(State()), taken, Owned(sender)) && Marked(lost, taken, old(State()), myself, keys)
        && demoted == (TakesFrom(taken, old(State()), curmaster) && peers[curmaster].numslots == 0)
      ensures forall j :: 0 <= j < CLUSTER_SLOTS ==>
        slots[j] == if sender != myself && j in claimed && importing[j] == Nobody
                       && old(slots[j] == Nobody || peers[slots[j].node].configEpoch < epoch)
                    then Owned(sender) else old(slots[j])
      ensures forall j: nat :: j in lost <==>
        j < CLUSTER_SLOTS && j in keys && old(slots[j]) == Owned(myself) && slots[j] != Owned(myself)
      ensures demoted <==> && peers[curmaster].numslots == 0
                           && exists j :: 0 <= j < CLUSTER_SLOTS && old(slots[j]) == Owned(curmaster) != slots[j]
      ensures peers.Keys == old(peers.Keys) && forall m :: m in peers ==> peers[m].configEpoch == old(peers[m].configEpoch)
    {
      if sender == myself {
        RebindNone(State(), Owned(sender));
        return [], false;
      }
      ghost var t := State();
      ghost var taken := Taken(t, sender, epoch, claimed, Importing());
      var newmaster;
      lost, newmaster := TakeClaimed(sender, epoch, claimed, curmaster, keys, t, taken);
      BelowAll(t, taken);
      ReboundValid(t, taken, CLUSTER_SLOTS, Owned(sender));
      demoted := newmaster && peers[curmaster].numslots == 0;
    }

    /** The loop of clusterUpdateSlotsConfigWith. */
    method TakeClaimed(sender: Id, epoch: nat, claimed: set<nat>, curmaster: Id, keys: set<nat>, ghost t: Table, ghost taken: set<nat>)
      returns (lost: seq<nat>, newmaster: bool)
      requires Valid() && sender in peers && t == State() && taken == Taken(t, sender, epoch, claimed, Importing())
      modifies this, slots
      ensures Rebound(t, taken, CLUSTER_SLOTS, Owned(sender))
      ensures Marked(lost, Below(taken, CLUSTER_SLOTS), t, myself, keys)
      ensures newmaster == TakesFrom(Below(taken, CLUSTER_SLOTS), t, curmaster)
    {
      var j := 0;
      lost, newmaster := [], false;
      ReboundNone(taken, Owned(sender));
      while j < CLUSTER_SLOTS
        invariant j <= CLUSTER_SLOTS && Rebound(t, taken, j, Owned(sender))
        invariant Marked(lost, Below(taken, j), t, myself, keys)
        invariant newmaster == TakesFrom(Below(taken, j), t, curmaster)
      {
        var hit, owner := TakeIfNewer(j, sender, epoch, claimed, t);
        BelowStep(taken, j);
        if hit {
          if owner == Owned(myself) && j in keys {
            lost := lost + [j];
          }
          if owner == Owned(curmaster) {
            newmaster := true;
          }
        }
        j := j + 1;
      }
    }

    /** The epoch and slot part of a packet from a master. */
    method ProcessPacket(sender: Id, epoch: nat, claimed: set<nat>, curmaster: Id, keys: set<nat>)
      returns (lost: seq<nat>, demoted: bool)
      requires Valid() && sender in peers && sender != myself && curmaster in peers
      modifies this, slots
      ensures Valid() && State() == OnPacket(old(State()), sender, epoch, claimed, old(Importing()))
      ensures var t := OnHeader(old(State()), sender, epoch);
        var taken := if t.peers[sender].bits == claimed then {} else Taken(t, sender, epoch, claimed, old(Importing()));
        Marked(lost, taken, t, myself, keys) && demoted == (TakesFrom(taken, t, curmaster) && peers[curmaster].numslots == 0)
      ensures peers.Keys == old(peers.Keys) && forall m :: m in peers ==>
        peers[m].configEpoch == if m == sender && epoch > old(peers[m].configEpoch) then epoch else old(peers[m].configEpoch)
      ensures forall j :: 0 <= j < CLUSTER_SLOTS ==>
        slots[j] == if j in claimed && old(peers[sender].bits) != claimed && importing[j] == Nobody
                       && old(slots[j] != Owned(sender) && (slots[j] == Nobody || peers[slots[j].node].configEpoch < epoch))
                    then Owned(sender) else old(slots[j])
    {
      ghost var t := State();
      HeaderAgree(t, sender, epoch);
      if epoch > peers[sender].configEpoch {
        peers := peers[sender := peers[sender].(configEpoch := epoch)];
      }
      assert peers == OnHeader(t, sender, epoch).peers;
      lost, demoted := [], false;
      if peers[sender].bits != claimed {
        lost, demoted := UpdateSlotsConfigWith(sender, epoch, claimed, curmaster, keys);
      }
    }

    /** The loop of clusterSendFailoverAuthIfNeeded: no claimed slot has an owner with a
        configuration epoch above that of the request. */
    method MayVoteFor(claimed: set<nat>, requestEpoch: nat) returns (ok: bool)
      requires Valid()
      ensures ok <==> forall n, i: nat :: n in peers && i in claimed && i in peers[n].bits
                                          ==> peers[n].configEpoch <= requestEpoch
    {
      var j := 0;
      while j < CLUSTER_SLOTS
        invariant j <= CLUSTER_SLOTS
        invariant forall i :: 0 <= i < j && i in claimed && slots[i].Owned?
                              ==> peers[slots[i].node].configEpoch <= requestEpoch
      {
        if j in claimed && slots[j].Owned? && peers[slots[j].node].configEpoch > requestEpoch {
          AgreeBits(State(), slots[j].node, j);
          return false;
        }
        j := j + 1;
      }
      forall n, i: nat | n in peers && i in claimed && i in peers[n].bits ensures peers[n].configEpoch <= requestEpoch {
        AgreeBits(State(), n, i);
      }
      return true;
    }
  }
}
