/**
 The election handlers of cluster.c as they run on one node: each updates the fields of
 server.cluster in place. `ElectionServers` puts such nodes together.
 */
module ElectionNode {
  import opened Election

  datatype Owner = Unassigned | OwnedAt(configEpoch: nat)

  /** No claimed slot is served by a master with a greater configEpoch than the requester's. */
  ghost predicate SlotsCurrent(claimed: seq<bool>, owners: seq<Owner>, requestConfigEpoch: nat)
    requires |claimed| == |owners|
  {
    forall j :: 0 <= j < |claimed| && claimed[j] && owners[j].OwnedAt? ==> owners[j].configEpoch <= requestConfigEpoch
  }

  class ClusterState {
    var currentEpoch: nat
    var lastVoteEpoch: nat
    var failoverAuthEpoch: nat
    var failoverAuthCount: nat
    var failoverAuthSent: bool

    function State(): Node
      reads this
    {
      Node(currentEpoch, lastVoteEpoch, failoverAuthEpoch, failoverAuthCount, failoverAuthSent)
    }

    constructor ()
      ensures State() == Node(0, 0, 0, 0, false)
    {
      currentEpoch, lastVoteEpoch := 0, 0;
      failoverAuthEpoch, failoverAuthCount, failoverAuthSent := 0, 0, false;
    }

    /** clusterProcessPacket, first part: a newer epoch in the header raises ours. */
    method ProcessHeader(senderCurrentEpoch: nat)
      modifies this
      ensures State() == SeeEpoch(old(State()), senderCurrentEpoch)
      ensures currentEpoch == if senderCurrentEpoch > old(currentEpoch) then senderCurrentEpoch else old(currentEpoch)
      ensures State() == old(State()).(currentEpoch := currentEpoch)
    {
      if senderCurrentEpoch > currentEpoch {
        currentEpoch := senderCurrentEpoch;
      }
    }

    method SendFailoverAuthIfNeeded(requestCurrentEpoch: nat, requestConfigEpoch: nat, view: VoteView,
                                    claimed: seq<bool>, owners: seq<Owner>)
      returns (granted: bool)
      requires |claimed| == |owners|
      modifies this
      // a master with slots votes once in an epoch, for a slave of a failed master, and only if no claimed slot has a newer owner
      ensures granted <==>
                && view.votes && !view.asksAsMaster && view.masterKnown && (view.masterFailed || view.forced) && !view.votedRecently
                && requestCurrentEpoch >= old(currentEpoch) && old(lastVoteEpoch) != old(currentEpoch)
                && forall j :: 0 <= j < |claimed| && claimed[j] && owners[j].OwnedAt? ==> owners[j].configEpoch <= requestConfigEpoch
      ensures State() == old(State()).(lastVoteEpoch := if granted then old(currentEpoch) else old(lastVoteEpoch))
      ensures granted <==> Grants(old(State()), requestCurrentEpoch,
                                  view.(slotsCurrent := SlotsCurrent(claimed, owners, requestConfigEpoch)))
      ensures State() == if granted then Vote(old(State())) else old(State())
    {
      if !view.votes { return false; }
      if requestCurrentEpoch < currentEpoch { return false; }
      if lastVoteEpoch == currentEpoch { return false; }
      if view.asksAsMaster || !view.masterKnown || (!view.masterFailed && !view.forced) { return false; }
      if view.votedRecently { return false; }
      for j := 0 to |claimed|
        invariant State() == old(State())
        invariant forall i :: 0 <= i < j && claimed[i] && owners[i].OwnedAt? ==> owners[i].configEpoch <= requestConfigEpoch
      {
        if !claimed[j] { continue; }
        if owners[j].Unassigned? || owners[j].configEpoch <= requestConfigEpoch { continue; }
        return false;
      }
      lastVoteEpoch := currentEpoch;
      return true;
    }

    method HandleAuthAck(fromMasterWithSlots: bool, senderCurrentEpoch: nat)
      modifies this
      ensures State() == if Counts(old(State()), fromMasterWithSlots, senderCurrentEpoch)
                         then CountAck(old(State())) else old(State())
      // a vote counts exactly if it is one of a master with slots, and not of an epoch before the request
      ensures failoverAuthCount == old(failoverAuthCount) + if fromMasterWithSlots && senderCurrentEpoch >= old(failoverAuthEpoch) then 1 else 0
      ensures State() == old(State()).(authCount := failoverAuthCount)
    {
      if fromMasterWithSlots && senderCurrentEpoch >= failoverAuthEpoch {
        failoverAuthCount := failoverAuthCount + 1;
      }
    }

    method HandleSlaveFailover(view: FailoverView, size: nat) returns (action: Action)
      modifies this
      ensures (State(), action) == SlaveFailover(old(State()), view, size / 2 + 1)
      // a new attempt forgets the votes of the last one
      ensures action.Scheduled? <==> view.eligible && view.dataFresh && view.retry
      ensures action.Scheduled? ==> State() == old(State()).(authCount := 0, authSent := false)
      // a request opens an epoch above every epoch seen so far
      ensures action.Requested? <==> view.eligible && view.dataFresh && !view.retry && !view.delayed && !view.expired && !old(failoverAuthSent)
      ensures action.Requested? ==>
                State() == old(State()).(currentEpoch := old(currentEpoch) + 1, authEpoch := old(currentEpoch) + 1, authSent := true)
      // a win is a request with votes of a majority, in time; it changes nothing here
      ensures action.Won? <==>
                && view.eligible && view.dataFresh && !view.retry && !view.delayed && !view.expired
                && old(failoverAuthSent) && 2 * old(failoverAuthCount) > size
      ensures action.Won? || action.Nothing? ==> State() == old(State())
    {
      var neededQuorum := size / 2 + 1;
      action := Nothing;
      if !view.eligible || !view.dataFresh { return; }
      if view.retry {
        failoverAuthCount := 0;
        failoverAuthSent := false;
        return Scheduled;
      }
      if view.delayed || view.expired { return; }
      if !failoverAuthSent {
        currentEpoch := currentEpoch + 1;
        failoverAuthEpoch := currentEpoch;
        failoverAuthSent := true;
        return Requested;
      }
      if failoverAuthCount >= neededQuorum { return Won; }
    }
  }
}
