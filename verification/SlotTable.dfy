/** Which master serves which hash slot, as one node stores it: the table of owners and, for
    every known node, the bitmap of its slots with their number. Bitmaps are sets of slots. */
module SlotTable {
  import opened Slots

  type Id = nat

  datatype Owner = Nobody | Owned(node: Id)

  datatype Peer = Peer(bits: set<nat>, numslots: int, configEpoch: nat)

  datatype Table = Table(slots: seq<Owner>, peers: map<Id, Peer>)

  /** The number of bits of a bitmap that are set, among the first k. */
  function BitCount(bits: set<nat>, k: nat): nat {
    if k == 0 then 0 else BitCount(bits, k - 1) + if k - 1 in bits then 1 else 0
  }

  lemma {:induction false} BitCountSize(bits: set<nat>, k: nat)
    requires forall j :: j in bits ==> j < k
    ensures BitCount(bits, k) == |bits|
  {
    if k > 0 {
      BitCountSame(bits, bits - {k - 1}, k - 1);
      BitCountSize(bits - {k - 1}, k - 1);
    } else {
      assert bits == {};
    }
  }

  lemma {:induction false} BitCountSame(a: set<nat>, b: set<nat>, k: nat)
    requires forall j: nat :: j < k ==> (j in a <==> j in b)
    ensures BitCount(a, k) == BitCount(b, k)
  {
    if k > 0 {
      BitCountSame(a, b, k - 1);
    }
  }

  lemma {:induction false} BitCountAdd(bits: set<nat>, j: nat, k: nat)
    requires j < k && j !in bits
    ensures BitCount(bits + {j}, k) == BitCount(bits, k) + 1
  {
    if j < k - 1 {
      BitCountAdd(bits, j, k - 1);
    } else {
      BitCountSame(bits + {j}, bits, k - 1);
    }
  }

  // ---------------------------------------------------------------- agreement of the two indexes

  predicate Owns(slots: seq<Owner>, n: Id, j: nat) { j < |slots| && slots[j] == Owned(n) }

  ghost predicate PeerAgrees(t: Table, n: Id)
    requires n in t.peers
  {
    && t.peers[n].numslots == BitCount(t.peers[n].bits, |t.slots|)
    && (forall j: nat :: j in t.peers[n].bits <==> Owns(t.slots, n, j))
  }

  ghost predicate Agree(t: Table) {
    && |t.slots| == CLUSTER_SLOTS
    && (forall j :: 0 <= j < |t.slots| && t.slots[j].Owned? ==> t.slots[j].node in t.peers)
    && (forall n :: n in t.peers ==> PeerAgrees(t, n))
  }

  // ---------------------------------------------------------------- operations

  function BitsAfter(bits: set<nat>, some: set<nat>, mine: bool): set<nat> {
    if mine then bits + some else bits - some
  }

  /** All the slots in `some` go to one owner. */
  function Rebind(t: Table, some: set<nat>, to: Owner): Table {
    Table(seq(|t.slots|, j requires 0 <= j < |t.slots| => if j in some then to else t.slots[j]),
          map n | n in t.peers :: RebindPeer(t.peers[n], some, to == Owned(n), |t.slots|))
  }

  /** The count goes up by the bits newly set, or down by those cleared. */
  function RebindPeer(p: Peer, some: set<nat>, mine: bool, k: nat): Peer {
    p.(bits := BitsAfter(p.bits, some, mine),
       numslots := if mine then p.numslots + BitCount(some - p.bits, k) else p.numslots - BitCount(some * p.bits, k))
  }

  /** The count changes by as much as the number of set bits does. */
  lemma {:induction false} CountChange(bits: set<nat>, some: set<nat>, k: nat)
    ensures BitCount(bits + some, k) == BitCount(bits, k) + BitCount(some - bits, k)
    ensures BitCount(bits - some, k) == BitCount(bits, k) - BitCount(some * bits, k)
  {
    if k > 0 { CountChange(bits, some, k - 1); }
  }

  lemma RebindPeerCount(p: Peer, some: set<nat>, mine: bool, k: nat)
    ensures var p' := RebindPeer(p, some, mine, k);
      p'.numslots - BitCount(p'.bits, k) == p.numslots - BitCount(p.bits, k)
  {
    CountChange(p.bits, some, k);
  }

  function DelSlot(t: Table, j: nat): Table { Rebind(t, {j}, Nobody) }

  /** Refused when the slot has an owner. */
  function AddSlot(t: Table, n: Id, j: nat): Table
    requires j < |t.slots|
  {
    if t.slots[j].Owned? then t else Rebind(t, {j}, Owned(n))
  }

  /** Also what a master turning into a replica loses. */
  function DelNodeSlots(t: Table, n: Id): Table
    requires n in t.peers
  {
    Rebind(t, t.peers[n].bits, Nobody)
  }

  function AddNode(t: Table, n: Id): Table {
    if n in t.peers then t else t.(peers := t.peers[n := Peer({}, 0, 0)])
  }

  function DelNode(t: Table, n: Id): Table
    requires n in t.peers
  {
    var t1 := DelNodeSlots(t, n);
    t1.(peers := map m | m in t1.peers && m != n :: t1.peers[m])
  }

  function Takeover(t: Table, old': Id, n: Id): Table
    requires old' in t.peers
  {
    Rebind(t, t.peers[old'].bits, Owned(n))
  }

  predicate Newer(t: Table, j: nat, epoch: nat) {
    && j < |t.slots|
    && (t.slots[j] == Nobody || (t.slots[j].node in t.peers && t.peers[t.slots[j].node].configEpoch < epoch))
  }

  /** The claimed slots that a claim of n with this epoch takes over. */
  function Taken(t: Table, n: Id, epoch: nat, claimed: set<nat>, importing: set<nat>): set<nat> {
    set j | j in claimed && j < |t.slots| && t.slots[j] != Owned(n) && j !in importing && Newer(t, j, epoch)
  }

  function UpdateSlots(t: Table, n: Id, epoch: nat, claimed: set<nat>, importing: set<nat>): Table {
    Rebind(t, Taken(t, n, epoch, claimed, importing), Owned(n))
  }

  function Max(a: nat, b: nat): nat { if a < b then b else a }

  /** The header of a packet raises the configuration epoch known for its sender. */
  function OnHeader(t: Table, n: Id, epoch: nat): Table
    requires n in t.peers
  {
    t.(peers := t.peers[n := t.peers[n].(configEpoch := Max(t.peers[n].configEpoch, epoch))])
  }

  /** A packet of master n: its slots are looked at only if they differ from those known. */
  function OnPacket(t: Table, n: Id, epoch: nat, claimed: set<nat>, importing: set<nat>): Table
    requires n in t.peers
  {
    var t1 := OnHeader(t, n, epoch);
    if t1.peers[n].bits == claimed then t1 else UpdateSlots(t1, n, epoch, claimed, importing)
  }

  // ---------------------------------------------------------------- every operation keeps the agreement

  lemma RebindPeerAgrees(t: Table, some: set<nat>, to: Owner, n: Id)
    requires n in t.peers && PeerAgrees(t, n)
    requires to.Owned? ==> forall j :: j in some ==> j < |t.slots|
    ensures PeerAgrees(Rebind(t, some, to), n)
  {
    var t' := Rebind(t, some, to);
    RebindPeerCount(t.peers[n], some, to == Owned(n), |t.slots|);
    forall j: nat ensures j in t'.peers[n].bits <==> Owns(t'.slots, n, j) {
      assert j in t.peers[n].bits <==> Owns(t.slots, n, j);
    }
  }

  lemma RebindAgree(t: Table, some: set<nat>, to: Owner)
    requires Agree(t) && (to.Owned? ==> to.node in t.peers)
    requires to.Owned? ==> forall j :: j in some ==> j < |t.slots|
    ensures Agree(Rebind(t, some, to))
  {
    var t' := Rebind(t, some, to);
    forall n | n in t'.peers ensures PeerAgrees(t', n) {
      RebindPeerAgrees(t, some, to, n);
    }
  }

  lemma AgreeBits(t: Table, n: Id, j: nat)
    requires Agree(t) && n in t.peers
    ensures j in t.peers[n].bits <==> j < |t.slots| && t.slots[j] == Owned(n)
  {
    assert PeerAgrees(t, n);
    assert Owns(t.slots, n, j) <==> j < |t.slots| && t.slots[j] == Owned(n);
  }

  /** Rebinding the slots of a node, slot by slot. */
  lemma RebindOwned(t: Table, n: Id, to: Owner, j: nat)
    requires Agree(t) && n in t.peers && j < |t.slots|
    ensures Rebind(t, t.peers[n].bits, to).slots[j] == if t.slots[j] == Owned(n) then to else t.slots[j]
  {
    AgreeBits(t, n, j);
  }

  /** A claim changes a slot exactly when it names it under a newer epoch than its owner's, or the slot
      has no owner, and the slot is not being imported. */
  lemma ClaimedSlot(t: Table, n: Id, epoch: nat, claimed: set<nat>, importing: set<nat>, j: nat)
    requires Agree(t) && n in t.peers && j < |t.slots|
    ensures UpdateSlots(t, n, epoch, claimed, importing).slots[j]
            == if j in claimed && j !in importing
                  && (t.slots[j] == Nobody || t.peers[t.slots[j].node].configEpoch < epoch)
               then Owned(n) else t.slots[j]
  {}

  lemma AgreeCount(t: Table, n: Id)
    requires Agree(t) && n in t.peers
    ensures t.peers[n].numslots == |t.peers[n].bits|
  {
    assert PeerAgrees(t, n);
    BitCountSize(t.peers[n].bits, |t.slots|);
  }

  lemma {:induction false} BitCountNone(k: nat)
    ensures BitCount({}, k) == 0
  {
    if k > 0 {
      BitCountNone(k - 1);
    }
  }

  datatype Op =
    | OpAddNode(n: Id)
    | OpAddSlot(n: Id, j: nat)
    | OpDelSlot(j: nat)
    | OpDelNode(n: Id)
    | OpBecomesReplica(n: Id)
    | OpPacket(n: Id, epoch: nat, claimed: set<nat>, importing: set<nat>)
    | OpUpdate(n: Id, epoch: nat, claimed: set<nat>, importing: set<nat>)
    | OpTakeover(master: Id, n: Id)
    | OpSetSlot(j: nat, n: Id)

  predicate Possible(t: Table, op: Op) {
    match op
    case OpAddNode(n) => true
    case OpAddSlot(n, j) => n in t.peers && j < |t.slots|
    case OpDelSlot(j) => j < |t.slots|
    case OpDelNode(n) => n in t.peers
    case OpBecomesReplica(n) => n in t.peers
    case OpPacket(n, epoch, claimed, importing) => n in t.peers
    case OpUpdate(n, epoch, claimed, importing) => n in t.peers
    case OpTakeover(master, n) => master in t.peers && n in t.peers
    case OpSetSlot(j, n) => n in t.peers && j < |t.slots|
  }

  function Apply(t: Table, op: Op): Table {
    if !Possible(t, op) then t
    else
      match op
      case OpAddNode(n) => AddNode(t, n)
      case OpAddSlot(n, j) => AddSlot(t, n, j)
      case OpDelSlot(j) => DelSlot(t, j)
      case OpDelNode(n) => DelNode(t, n)
      case OpBecomesReplica(n) => DelNodeSlots(t, n)
      case OpPacket(n, epoch, claimed, importing) => OnPacket(t, n, epoch, claimed, importing)
      case OpUpdate(n, epoch, claimed, importing) => UpdateSlots(OnHeader(t, n, epoch), n, epoch, claimed, importing)
      case OpTakeover(master, n) => Takeover(t, master, n)
      case OpSetSlot(j, n) => AddSlot(DelSlot(t, j), n, j)
  }

  lemma HeaderAgree(t: Table, n: Id, epoch: nat)
    requires Agree(t) && n in t.peers
    ensures Agree(OnHeader(t, n, epoch))
  {
    var t' := OnHeader(t, n, epoch);
    forall m | m in t'.peers ensures PeerAgrees(t', m) {
      assert PeerAgrees(t, m);
    }
  }

  lemma UpdateAgree(t: Table, n: Id, epoch: nat, claimed: set<nat>, importing: set<nat>)
    requires Agree(t) && n in t.peers
    ensures Agree(UpdateSlots(t, n, epoch, claimed, importing))
  {
    RebindAgree(t, Taken(t, n, epoch, claimed, importing), Owned(n));
  }

  lemma AddNodeAgree(t: Table, n: Id)
    requires Agree(t)
    ensures Agree(AddNode(t, n))
  {
    var t' := AddNode(t, n);
    forall m | m in t'.peers ensures PeerAgrees(t', m) {
      if m in t.peers {
        assert PeerAgrees(t, m);
      } else {
        assert forall j: nat :: !Owns(t.slots, m, j);
        BitCountNone(|t.slots|);
      }
    }
  }

  lemma DelNodeAgree(t: Table, n: Id)
    requires Agree(t) && n in t.peers
    ensures Agree(DelNode(t, n))
  {
    var t1 := DelNodeSlots(t, n);
    RebindAgree(t, t.peers[n].bits, Nobody);
    var t' := DelNode(t, n);
    assert PeerAgrees(t, n);
    forall m | m in t'.peers ensures PeerAgrees(t', m) {
      assert PeerAgrees(t1, m);
    }
  }

  lemma TakeoverAgree(t: Table, old': Id, n: Id)
    requires Agree(t) && old' in t.peers && n in t.peers
    ensures Agree(Takeover(t, old', n))
  {
    forall j | j in t.peers[old'].bits ensures j < |t.slots| {
      AgreeBits(t, old', j);
    }
    RebindAgree(t, t.peers[old'].bits, Owned(n));
  }

  lemma ApplyAgree(t: Table, op: Op)
    requires Agree(t)
    ensures Agree(Apply(t, op))
  {
    if Possible(t, op) {
      match op
      case OpAddNode(n) => AddNodeAgree(t, n);
      case OpAddSlot(n, j) => RebindAgree(t, {j}, Owned(n));
      case OpDelSlot(j) => RebindAgree(t, {j}, Nobody);
      case OpDelNode(n) => DelNodeAgree(t, n);
      case OpBecomesReplica(n) => RebindAgree(t, t.peers[n].bits, Nobody);
      case OpPacket(n, epoch, claimed, importing) =>
        HeaderAgree(t, n, epoch);
        UpdateAgree(OnHeader(t, n, epoch), n, epoch, claimed, importing);
      case OpUpdate(n, epoch, claimed, importing) =>
        HeaderAgree(t, n, epoch);
        UpdateAgree(OnHeader(t, n, epoch), n, epoch, claimed, importing);
      case OpTakeover(master, n) => TakeoverAgree(t, master, n);
      case OpSetSlot(j, n) =>
        RebindAgree(t, {j}, Nobody);
        RebindAgree(DelSlot(t, j), {j}, Owned(n));
    }
  }

  /** The owner of each slot after an operation, in terms of the owners and epochs before it. */
  lemma OwnerAfter(t: Table, op: Op, j: nat)
    requires Agree(t) && Possible(t, op) && j < |t.slots|
    ensures j < |Apply(t, op).slots|
    ensures Apply(t, op).slots[j] == match op
      case OpAddNode(n) => t.slots[j]
      case OpAddSlot(n, i) => if i == j && t.slots[j] == Nobody then Owned(n) else t.slots[j]
      case OpDelSlot(i) => if i == j then Nobody else t.slots[j]
      case OpDelNode(n) => if t.slots[j] == Owned(n) then Nobody else t.slots[j]
      case OpBecomesReplica(n) => if t.slots[j] == Owned(n) then Nobody else t.slots[j]
      case OpPacket(n, epoch, claimed, importing) =>
        if j in claimed && t.peers[n].bits != claimed && j !in importing && NotNewer(t, j, n, epoch) then Owned(n) else t.slots[j]
      case OpUpdate(n, epoch, claimed, importing) =>
        if j in claimed && j !in importing && NotNewer(t, j, n, epoch) then Owned(n) else t.slots[j]
      case OpTakeover(master, n) => if t.slots[j] == Owned(master) then Owned(n) else t.slots[j]
      case OpSetSlot(i, n) => if i == j then Owned(n) else t.slots[j]
  {
    match op
    case OpDelNode(n) => RebindOwned(t, n, Nobody, j);
    case OpBecomesReplica(n) => RebindOwned(t, n, Nobody, j);
    case OpPacket(n, epoch, claimed, importing) =>
      HeaderAgree(t, n, epoch);
      ClaimedSlot(OnHeader(t, n, epoch), n, epoch, claimed, importing, j);
    case OpUpdate(n, epoch, claimed, importing) =>
      HeaderAgree(t, n, epoch);
      ClaimedSlot(OnHeader(t, n, epoch), n, epoch, claimed, importing, j);
    case OpTakeover(master, n) => RebindOwned(t, master, Owned(n), j);
    case _ =>
  }

  /** The nodes known after an operation, and the configuration epoch known of each. */
  lemma PeersAfter(t: Table, op: Op, m: Id)
    requires Possible(t, op)
    ensures m in Apply(t, op).peers <==> (op.OpAddNode? && m == op.n) || (m in t.peers && !(op.OpDelNode? && m == op.n))
    ensures m in t.peers && m in Apply(t, op).peers ==>
      Apply(t, op).peers[m].configEpoch ==
        if (op.OpPacket? || op.OpUpdate?) && m == op.n && op.epoch > t.peers[m].configEpoch then op.epoch
        else t.peers[m].configEpoch
    ensures m !in t.peers && m in Apply(t, op).peers ==> Apply(t, op).peers[m].configEpoch == 0
  {}

  /** The slot is free, n's own, or its owner has a smaller configuration epoch. */
  predicate NotNewer(t: Table, j: nat, n: Id, epoch: nat)
    requires j < |t.slots| && (t.slots[j].Owned? ==> t.slots[j].node in t.peers)
  {
    t.slots[j] == Nobody || t.slots[j] == Owned(n) || t.peers[t.slots[j].node].configEpoch < epoch
  }

  function Run(t: Table, ops: seq<Op>): Table
    decreases |ops|
  {
    if ops == [] then t else Run(Apply(t, ops[0]), ops[1..])
  }

  function Empty(): Table { Table(seq(CLUSTER_SLOTS, _ => Nobody), map[]) }

  lemma {:induction false} RunAgree(t: Table, ops: seq<Op>)
    requires Agree(t)
    ensures Agree(Run(t, ops))
    decreases |ops|
  {
    if ops != [] {
      ApplyAgree(t, ops[0]);
      RunAgree(Apply(t, ops[0]), ops[1..]);
    }
  }

  /** After every sequence of operations the owner table and the bitmaps tell the same, and
      the number of slots of a node is that of its bits. */
  lemma SlotsAgree(ops: seq<Op>, n: Id, j: nat)
    requires n in Run(Empty(), ops).peers
    ensures |Run(Empty(), ops).slots| == CLUSTER_SLOTS
    ensures var t := Run(Empty(), ops);
      && (j in t.peers[n].bits <==> j < CLUSTER_SLOTS && t.slots[j] == Owned(n))
      && t.peers[n].numslots == |t.peers[n].bits|
  {
    RunAgree(Empty(), ops);
    AgreeBits(Run(Empty(), ops), n, j);
    AgreeCount(Run(Empty(), ops), n);
  }
}
