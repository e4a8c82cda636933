/** The election fields of one node, updated in place by the handlers of the cluster bus. Each
    handler makes exactly the step of its node in any system the node is part of. */
module ElectionImpl {
  import opened Election

  datatype Outcome = Waiting | Scheduled | Asked | Elected

  class FailoverState {
    const name: Id
    var currentEpoch: nat
    var lastVoteEpoch: nat
    var authEpoch: nat
    var authSent: bool
    var authCount: nat
    var configEpoch: nat
    var promoted: bool

    ghost function State(): Node
      reads this
    {
      Node(currentEpoch, lastVoteEpoch, authEpoch, authSent, authCount, configEpoch, promoted)
    }

    /** This node, as it stands, is the one of that name in the system. */
    ghost predicate In(s: Sys)
      reads this
    {
      name in s.nodes && s.nodes[name] == State()
    }

    constructor (name: Id, currentEpoch: nat, lastVoteEpoch: nat, configEpoch: nat)
      ensures State() == Node(currentEpoch, lastVoteEpoch, 0, false, 0, configEpoch, false) && this.name == name
    {
      this.name := name;
      this.currentEpoch, this.lastVoteEpoch, this.configEpoch := currentEpoch, lastVoteEpoch, configEpoch;
      authEpoch, authSent, authCount, promoted := 0, false, 0, false;
    }

    /** The epoch part of the packet header. */
    method ProcessHeader(epoch: nat, ghost s: Sys)
      requires In(s)
      modifies `currentEpoch
      ensures In(OnHeader(s, name, epoch))
      ensures currentEpoch == if epoch > old(currentEpoch) then epoch else old(currentEpoch)
    {
      if epoch > currentEpoch {
        currentEpoch := epoch;
      }
    }

    /** A vote request of replica r; `ok` stands for the checks that are not about epochs. */
    method SendFailoverAuthIfNeeded(r: Id, epoch: nat, ok: bool, ghost s: Sys) returns (ack: multiset<Ack>)
      requires In(s)
      modifies this
      ensures var s' := OnRequest(s, name, r, epoch, ok); In(s') && s'.acks == s.acks + ack
      ensures var votes := ok && old(currentEpoch) <= epoch && old(lastVoteEpoch) != epoch;
        && ack == (if votes then multiset{Ack(name, r, epoch)} else multiset{})
        && lastVoteEpoch == (if votes then epoch else old(lastVoteEpoch))
      ensures currentEpoch == if epoch > old(currentEpoch) then epoch else old(currentEpoch)
      ensures unchanged(`authEpoch, `authSent, `authCount, `configEpoch, `promoted)
    {
      ProcessHeader(epoch, s);
      if epoch < currentEpoch { return multiset{}; }
      if lastVoteEpoch == currentEpoch { return multiset{}; }
      if !ok { return multiset{}; }
      lastVoteEpoch := currentEpoch;
      return multiset{Ack(name, r, currentEpoch)};
    }

    /** A vote acknowledgement; `master` tells whether the sender is a master that serves slots. */
    method ProcessAuthAck(c: Config, a: Ack, master: bool, ghost s: Sys)
      requires In(s) && Known(c, s) && name in c.replicas && a.candidate == name && master == (a.voter in c.masters)
      modifies this
      ensures In(OnAck(c, s, a))
      ensures authCount == old(authCount) + if a.voter in c.masters && a.epoch >= authEpoch then 1 else 0
      ensures currentEpoch == if a.epoch > old(currentEpoch) then a.epoch else old(currentEpoch)
      ensures unchanged(`lastVoteEpoch, `authEpoch, `authSent, `configEpoch, `promoted)
    {
      ProcessHeader(a.epoch, s);
      if master && a.epoch >= authEpoch {
        authCount := authCount + 1;
      }
    }

    /** clusterSetMaster, as far as elections are concerned: the node is a replica again and may compete. */
    method SetMaster(c: Config, ghost s: Sys)
      requires In(s) && Known(c, s) && name in c.replicas
      modifies `promoted
      ensures In(Apply(c, s, Demote(name))) && !promoted
    {
      promoted := false;
    }

    /** clusterHandleSlaveFailover. `canTry`: this node's master failed, served slots and the data is
        recent enough; the other flags are the outcomes of the time checks. */
    method HandleSlaveFailover(c: Config, canTry: bool, retryDue: bool, delayOver: bool, tooOld: bool, ghost s: Sys)
      returns (o: Outcome)
      requires In(s) && Known(c, s) && name in c.replicas
      modifies this
      ensures In(match o
                 case Waiting => s
                 case Scheduled => Apply(c, s, Reset(name))
                 case Asked => Apply(c, s, Start(name))
                 case Elected => Apply(c, s, TryWin(name)))
      ensures o.Asked? ==> Apply(c, s, Start(name)).requests == s.requests + {(name, currentEpoch)}
      ensures o.Scheduled? <==> canTry && !old(promoted) && retryDue
      ensures o.Asked? <==> canTry && !old(promoted) && !retryDue && delayOver && !tooOld && !old(authSent)
      ensures o.Elected? <==> && canTry && !old(promoted) && !retryDue && delayOver && !tooOld && old(authSent)
                              && 2 * old(authCount) > |c.masters|
      ensures o.Elected? ==> Apply(c, s, TryWin(name)).wins == s.wins + {Win(name, authEpoch)}
      ensures o.Scheduled? ==> authCount == 0 && !authSent
      ensures o.Asked? ==> currentEpoch == old(currentEpoch) + 1 && authEpoch == currentEpoch && authSent
      ensures o.Elected? ==> promoted && configEpoch == if old(configEpoch) < authEpoch then authEpoch else old(configEpoch)
      ensures !o.Asked? ==> unchanged(`currentEpoch, `authEpoch)
      ensures !o.Elected? ==> unchanged(`configEpoch, `promoted)
      ensures unchanged(`lastVoteEpoch) && (o.Waiting? || o.Elected? ==> unchanged(`authSent, `authCount))
    {
      if promoted || !canTry { return Waiting; }
      if retryDue {
        authCount, authSent := 0, false;
        return Scheduled;
      }
      if !delayOver { return Waiting; }
      if tooOld { return Waiting; }
      if !authSent {
        currentEpoch := currentEpoch + 1;
        authEpoch := currentEpoch;
        authSent := true;
        return Asked;
      }
      if authCount >= Quorum(c) {
        if configEpoch < authEpoch {
          configEpoch := authEpoch;
        }
        promoted := true;
        return Elected;
      }
      return Waiting;
    }
  }
}
