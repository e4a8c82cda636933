/** Slot claims converge: masters with fixed configurations publish them in packets that a
    receiver sees in any order and any number of times. */
module SlotClaims {
  import opened Slots
  import opened SlotTable

  /** The configuration epoch of a master and the slots it claims under it. */
  datatype Claim = Claim(epoch: nat, slots: set<nat>)

  ghost predicate DistinctEpochs(claims: map<Id, Claim>) {
    forall m, n :: m in claims && n in claims && m != n ==> claims[m].epoch != claims[n].epoch
  }

  /** A receiver that knows the masters but no owner of any slot. */
  ghost predicate Start(t: Table, claims: map<Id, Claim>) {
    && Agree(t) && (forall j :: 0 <= j < |t.slots| ==> t.slots[j] == Nobody)
    && (forall n :: n in claims ==> n in t.peers && t.peers[n].configEpoch <= claims[n].epoch)
  }

  ghost predicate FromMasters(claims: map<Id, Claim>, ds: seq<Id>) {
    forall i :: 0 <= i < |ds| ==> ds[i] in claims
  }

  /** The table after the packets of the masters in `ds`, one after the other. */
  function Deliver(t: Table, claims: map<Id, Claim>, ds: seq<Id>): Table
    decreases |ds|
  {
    if ds == [] then t
    else
      var k := |ds| - 1;
      var before := Deliver(t, claims, ds[..k]);
      if ds[k] in claims && ds[k] in before.peers
      then OnPacket(before, ds[k], claims[ds[k]].epoch, claims[ds[k]].slots, {})
      else before
  }

  predicate Claims(claims: map<Id, Claim>, n: Id, j: nat) { n in claims && j in claims[n].slots }

  /** n is the claimant of slot j with the greatest epoch among those heard. */
  ghost predicate Highest(claims: map<Id, Claim>, heard: set<Id>, j: nat, n: Id) {
    && n in heard && Claims(claims, n, j)
    && forall m :: m in heard && Claims(claims, m, j) ==> claims[m].epoch <= claims[n].epoch
  }

  ghost predicate Unclaimed(claims: map<Id, Claim>, heard: set<Id>, j: nat) {
    forall m :: m in heard ==> !Claims(claims, m, j)
  }

  ghost predicate OwnerOk(claims: map<Id, Claim>, heard: set<Id>, j: nat, o: Owner) {
    match o
    case Nobody => Unclaimed(claims, heard, j)
    case Owned(n) => Highest(claims, heard, j, n)
  }

  /** What the receiver knows of the masters it has heard. */
  ghost predicate EpochsKnown(t: Table, claims: map<Id, Claim>, heard: set<Id>) {
    && heard <= claims.Keys
    && (forall n :: n in claims ==> n in t.peers && t.peers[n].configEpoch <= claims[n].epoch)
    && (forall n :: n in heard ==> t.peers[n].configEpoch == claims[n].epoch)
  }

  lemma PacketEpochs(t: Table, claims: map<Id, Claim>, heard: set<Id>, n: Id)
    requires EpochsKnown(t, claims, heard) && n in claims
    ensures EpochsKnown(OnPacket(t, n, claims[n].epoch, claims[n].slots, {}), claims, heard + {n})
  {}

  /** The owner of one slot after a packet of n. */
  lemma PacketOwner(t: Table, claims: map<Id, Claim>, n: Id, j: nat)
    requires Agree(t) && n in claims && n in t.peers && j < CLUSTER_SLOTS
    requires t.peers[n].configEpoch <= claims[n].epoch
    ensures var t' := OnPacket(t, n, claims[n].epoch, claims[n].slots, {});
      && |t'.slots| == CLUSTER_SLOTS
      && t'.slots[j] == if Claims(claims, n, j) && (t.slots[j] == Nobody ||
                           t.peers[t.slots[j].node].configEpoch < claims[n].epoch)
                        then Owned(n) else t.slots[j]
  {
    var t1 := OnHeader(t, n, claims[n].epoch);
    AgreeBits(t, n, j);
    if t.slots[j].Owned? && t.slots[j].node != n {
      assert t1.peers[t.slots[j].node] == t.peers[t.slots[j].node];
    }
  }

  lemma OwnerStep(claims: map<Id, Claim>, heard: set<Id>, n: Id, j: nat, o: Owner)
    requires DistinctEpochs(claims) && heard <= claims.Keys && n in claims && OwnerOk(claims, heard, j, o)
    ensures var o' := if Claims(claims, n, j) && (o == Nobody || claims[o.node].epoch < claims[n].epoch)
                      then Owned(n) else o;
            OwnerOk(claims, heard + {n}, j, o')
  {}

  lemma PacketSettles(t: Table, claims: map<Id, Claim>, heard: set<Id>, n: Id, j: nat)
    requires Agree(t) && DistinctEpochs(claims) && EpochsKnown(t, claims, heard) && n in claims
    requires j < CLUSTER_SLOTS && OwnerOk(claims, heard, j, t.slots[j])
    ensures var t' := OnPacket(t, n, claims[n].epoch, claims[n].slots, {});
            |t'.slots| == CLUSTER_SLOTS && OwnerOk(claims, heard + {n}, j, t'.slots[j])
  {
    PacketOwner(t, claims, n, j);
    OwnerStep(claims, heard, n, j, t.slots[j]);
  }

  ghost function Heard(ds: seq<Id>): set<Id> { set i | 0 <= i < |ds| :: ds[i] }

  lemma HeardLast(ds: seq<Id>, k: nat)
    requires |ds| == k + 1
    ensures Heard(ds) == Heard(ds[..k]) + {ds[k]}
  {}

  /** Each slot is bound to its claimant with the greatest epoch among those heard, or to nobody
      if it has none. */
  ghost predicate Settled(t: Table, claims: map<Id, Claim>, heard: set<Id>) {
    && Agree(t) && EpochsKnown(t, claims, heard)
    && forall j :: 0 <= j < CLUSTER_SLOTS ==> OwnerOk(claims, heard, j, t.slots[j])
  }

  lemma StaysSettled(t: Table, claims: map<Id, Claim>, heard: set<Id>, n: Id)
    requires DistinctEpochs(claims) && Settled(t, claims, heard) && n in claims
    ensures Settled(OnPacket(t, n, claims[n].epoch, claims[n].slots, {}), claims, heard + {n})
  {
    var t' := OnPacket(t, n, claims[n].epoch, claims[n].slots, {});
    PacketEpochs(t, claims, heard, n);
    ApplyAgree(t, OpPacket(n, claims[n].epoch, claims[n].slots, {}));
    forall j | 0 <= j < CLUSTER_SLOTS ensures OwnerOk(claims, heard + {n}, j, t'.slots[j]) {
      PacketSettles(t, claims, heard, n, j);
    }
  }

  /** Whatever the order and repetition of the packets, the table is settled on those heard. */
  lemma {:induction false} Converges(t: Table, claims: map<Id, Claim>, ds: seq<Id>)
    requires Start(t, claims) && DistinctEpochs(claims) && FromMasters(claims, ds)
    ensures Settled(Deliver(t, claims, ds), claims, Heard(ds))
    decreases |ds|
  {
    if ds != [] {
      var k := |ds| - 1;
      Converges(t, claims, ds[..k]);
      HeardLast(ds, k);
      StaysSettled(Deliver(t, claims, ds[..k]), claims, Heard(ds[..k]), ds[k]);
    }
  }

  lemma OwnerUnique(claims: map<Id, Claim>, heard: set<Id>, j: nat, o1: Owner, o2: Owner)
    requires DistinctEpochs(claims) && OwnerOk(claims, heard, j, o1) && OwnerOk(claims, heard, j, o2)
    ensures o1 == o2
  {}

  /** Two receivers that heard the same masters agree on every slot. */
  lemma ReceiversAgree(t1: Table, t2: Table, claims: map<Id, Claim>, ds1: seq<Id>, ds2: seq<Id>)
    requires Start(t1, claims) && Start(t2, claims) && DistinctEpochs(claims)
    requires FromMasters(claims, ds1) && FromMasters(claims, ds2) && Heard(ds1) == Heard(ds2)
    ensures Deliver(t1, claims, ds1).slots == Deliver(t2, claims, ds2).slots
  {
    Converges(t1, claims, ds1);
    Converges(t2, claims, ds2);
    forall j | 0 <= j < CLUSTER_SLOTS ensures Deliver(t1, claims, ds1).slots[j] == Deliver(t2, claims, ds2).slots[j] {
      OwnerUnique(claims, Heard(ds1), j, Deliver(t1, claims, ds1).slots[j], Deliver(t2, claims, ds2).slots[j]);
    }
  }
}
