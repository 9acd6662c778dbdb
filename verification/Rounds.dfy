/** What holds along every run of a consensus round, proved over the rounds it leads through. */
module Rounds {
  import opened Entries
  import opened Dispute
  import opened Consensus

  // ---- Dead peers and proposal numbers ----

  lemma {:induction false} DeadStep(e: Event, a: Round, b: Round, p: NodeId)
    requires Handled(e, a, b) && !e.SwitchedLcl? && p in a.dead && p !in a.peers
    ensures p in b.dead && p !in b.peers
  {
  }

  /** A peer that bowed out stays dead, without a position, until the ledger is switched. */
  lemma {:induction false} DeadStay(events: seq<Event>, trace: seq<Round>, i: nat, j: nat, p: NodeId)
    requires Traced(events, trace) && NoSwitch(events) && i <= j < |trace|
    requires p in trace[i].dead && p !in trace[i].peers
    ensures p in trace[j].dead && p !in trace[j].peers
    decreases j - i
  {
    if i < j {
      DeadStay(events, trace, i, j - 1, p);
      DeadStep(events[j - 1], trace[j - 1], trace[j], p);
    }
  }

  lemma {:induction false} NumberStep(e: Event, a: Round, b: Round, p: NodeId)
    requires Handled(e, a, b) && p in a.peers
    ensures !Drops(e, p) ==> p in b.peers
    ensures p in b.peers ==> Advanced(a.peers, b.peers, p)
  {
  }

  /** A peer that no event drops keeps its position, or has one with a higher number. */
  lemma {:induction false} NumbersGrow(events: seq<Event>, trace: seq<Round>, i: nat, j: nat, p: NodeId)
    requires Traced(events, trace) && i <= j < |trace|
    requires p in trace[i].peers && forall e | e in events :: !Drops(e, p)
    ensures Advanced(trace[i].peers, trace[j].peers, p)
    decreases j - i
  {
    if i < j {
      NumbersGrow(events, trace, i, j - 1, p);
      assert events[j - 1] in events;
      NumberStep(events[j - 1], trace[j - 1], trace[j], p);
    }
  }

  /** Our own position is kept, or replaced under a higher number, and after a bow-out it is kept. */
  predicate OursAdvanced(a: Round, b: Round) {
    a.ours.Some? ==>
      && b.ours.Some? && a.ours.value.sequence <= b.ours.value.sequence <= SEQ_LEAVE
      && (a.ours.value.sequence == b.ours.value.sequence ==> b.ours == a.ours)
  }

  lemma {:induction false} OursStep(e: Event, a: Round, b: Round)
    requires Handled(e, a, b) && (a.ours.Some? ==> a.ours.value.sequence <= SEQ_LEAVE)
    ensures OursAdvanced(a, b)
  {
  }

  lemma {:induction false} OursGrow(events: seq<Event>, trace: seq<Round>, i: nat, j: nat)
    requires Traced(events, trace) && i <= j < |trace|
    requires trace[i].ours.Some? && trace[i].ours.value.sequence <= SEQ_LEAVE
    ensures OursAdvanced(trace[i], trace[j])
    decreases j - i
  {
    if i < j {
      OursGrow(events, trace, i, j - 1);
      OursStep(events[j - 1], trace[j - 1], trace[j]);
    }
  }

  // ---- Votes that are counted ----

  /** Every peer whose set we hold has its vote on every dispute, as its set says. */
  ghost predicate Counted(a: Round) {
    forall t, p | t in a.disputes && Shows(a.peers, a.acquired, p) :: VoteRight(a, t, p)
  }

  predicate VoteRight(a: Round, t: TxId, p: NodeId)
    requires t in a.disputes && p in a.peers
  {
    p in a.disputes[t].votes && a.disputes[t].votes[p] == (t in a.peers[p].position)
  }

  /** The event is a proposal for a set that is fetched on the spot, and another peer, whose vote is
      missing or old, already takes that set. */
  ghost predicate Misses(e: Event, a: Round) {
    && e.Proposed? && e.inbound && e.proposal.sequence != SEQ_LEAVE && Accepts(a, e.peer, e.proposal)
    && !HoldsSet(a, e.proposal.position)
    && exists t, q | t in a.disputes && q in a.peers ::
         q != e.peer && a.peers[q].position == e.proposal.position && !VoteRight(a, t, q)
  }

  lemma {:induction false} ArrivedCounts(a: Round, b: Round, h: TxSet, usable: bool)
    requires AfterArrived(a, b, h, usable) && Counted(a)
    ensures Counted(b)
  {
    forall t, p | t in b.disputes && Shows(b.peers, b.acquired, p)
      ensures VoteRight(b, t, p)
    {
      if t in a.disputes && Shows(a.peers, a.acquired, p) { assert VoteRight(a, t, p); }
    }
  }

  lemma {:induction false} LeavingCounts(a: Round, b: Round, p: NodeId)
    requires Counted(a) && Booked(a.disputes, a.peers.Keys)
    requires b == a.(peers := a.peers - {p}, dead := a.dead + {p}, disputes := UnvoteEach(a.disputes, p))
    ensures Counted(b)
  {
    UnvoteEachKeeps(a.disputes, p, a.peers.Keys);
    forall t, q | t in b.disputes && Shows(b.peers, b.acquired, q)
      ensures VoteRight(b, t, q)
    {
      assert VoteRight(a, t, q);
    }
  }

  /** The votes after a peer took a position. */
  lemma {:induction false} TakenVotes(a: Round, b: Round, p: NodeId, proposal: Proposal, inbound: bool, t: TxId,
                                      q: NodeId)
    requires AfterProposed(a, b, p, proposal, inbound) && Booked(a.disputes, a.peers.Keys)
    requires Accepts(a, p, proposal) && proposal.sequence != SEQ_LEAVE && t in a.disputes
    ensures b.disputes.Keys == a.disputes.Keys
    ensures q != p && q in a.peers ==>
      q in b.peers && b.peers[q] == a.peers[q] && (VoteRight(b, t, q) <==> VoteRight(a, t, q))
    ensures p in b.peers && (HoldsSet(b, proposal.position) ==> VoteRight(b, t, p))
  {
    VoteEachKeeps(a.disputes, p, proposal.position, a.peers.Keys);
  }

  /** A proposal leaves a vote uncounted exactly when it misses it. */
  lemma {:induction false} ProposedCounts(a: Round, b: Round, p: NodeId, proposal: Proposal, inbound: bool)
    requires AfterProposed(a, b, p, proposal, inbound) && Counted(a) && Booked(a.disputes, a.peers.Keys)
    ensures Counted(b) <==> !Misses(Proposed(p, proposal, inbound), a)
  {
    if !Accepts(a, p, proposal) {
    } else if proposal.sequence == SEQ_LEAVE {
      LeavingCounts(a, b, p);
    } else {
      var e := Proposed(p, proposal, inbound);
      forall t, q | t in a.disputes && q in b.peers
        ensures Shows(b.peers, b.acquired, q) && !VoteRight(b, t, q) ==> Misses(e, a)
      {
        TakenVotes(a, b, p, proposal, inbound, t, q);
      }
      if Misses(e, a) {
        var t, q :| t in a.disputes && q in a.peers && q != p && a.peers[q].position == proposal.position &&
          !VoteRight(a, t, q);
        TakenVotes(a, b, p, proposal, inbound, t, q);
      }
    }
  }

  lemma {:induction false} TimerCounts(a: Round, b: Round, percentTime: int, proposing: bool, stale: set<NodeId>,
                                       closeTime: nat, refresh: bool)
    requires AfterTimer(a, b, percentTime, proposing, stale, closeTime, refresh) && Counted(a)
    ensures Counted(b)
  {
    forall t, p | t in b.disputes && Shows(b.peers, b.acquired, p)
      ensures VoteRight(b, t, p)
    {
      if t in a.disputes && Shows(a.peers, a.acquired, p) { assert VoteRight(a, t, p); }
    }
  }

  lemma {:induction false} StepCounts(e: Event, a: Round, b: Round)
    requires Handled(e, a, b) && Counted(a) && Booked(a.disputes, a.peers.Keys)
    ensures Counted(b) <==> !Misses(e, a)
  {
    match e {
      case Arrived(h, usable) => ArrivedCounts(a, b, h, usable);
      case Proposed(p, proposal, inbound) => ProposedCounts(a, b, p, proposal, inbound);
      case ClosedLedger(initial, closeTime) =>
      case Timer(percentTime, proposing, stale, closeTime, refresh) =>
        TimerCounts(a, b, percentTime, proposing, stale, closeTime, refresh);
      case SwitchedLcl(bowOut) =>
      case Left(proposing) =>
        assert forall t, p | t in b.disputes && p in b.peers :: VoteRight(b, t, p) <==> VoteRight(a, t, p);
    }
  }

  lemma {:induction false} StepCountsAt(events: seq<Event>, trace: seq<Round>, i: nat)
    requires Traced(events, trace) && i < |trace| - 1 && Counted(trace[i])
    ensures Counted(trace[i + 1]) <==> !Misses(events[i], trace[i])
  {
    StepCounts(events[i], trace[i], trace[i + 1]);
  }

  ghost predicate NoneMissed(events: seq<Event>, trace: seq<Round>)
    requires |trace| <= |events| + 1
  {
    forall i {:trigger events[i]} | 0 <= i < |trace| - 1 :: !Misses(events[i], trace[i])
  }

  /** Along a run every vote stays counted if and only if no proposal misses one. */
  lemma {:induction false} RunCounts(events: seq<Event>, trace: seq<Round>)
    requires Traced(events, trace) && Counted(trace[0])
    ensures (forall i | 0 <= i < |trace| :: Counted(trace[i])) <==> NoneMissed(events, trace)
  {
    if forall i | 0 <= i < |trace| :: Counted(trace[i]) {
      forall i | 0 <= i < |trace| - 1
        ensures !Misses(events[i], trace[i])
      {
        assert Counted(trace[i + 1]);
        StepCountsAt(events, trace, i);
      }
    }
    if NoneMissed(events, trace) {
      forall i | 0 <= i < |trace|
        ensures Counted(trace[i])
      {
        CountedUpTo(events, trace, i);
      }
    }
  }

  lemma {:induction false} CountedUpTo(events: seq<Event>, trace: seq<Round>, i: nat)
    requires Traced(events, trace) && Counted(trace[0]) && i < |trace|
    requires NoneMissed(events, trace)
    ensures Counted(trace[i])
  {
    if i > 0 {
      CountedUpTo(events, trace, i - 1);
      StepCountsAt(events, trace, i - 1);
    }
  }

  /** We dispute t; p proposes a set we do not hold; q proposes the same set when the store has it;
      the set arrives.  The vote of p is never counted, although we hold its set. */
  method VoteIsMissed(p: NodeId, q: NodeId, t: TxId, u: TxId) returns (round: LedgerConsensus)
    requires p != q && t != u
    ensures round.Inv() && p in round.peers && round.Have(round.peers[p].position)
    ensures t in round.disputes && p !in round.disputes[t].votes
  {
    round := ProposeUnheld(p, t, u);
    FetchFor(round, p, q, t, u);
    round.MapComplete({u}, true);
  }

  method FetchFor(round: LedgerConsensus, p: NodeId, q: NodeId, t: TxId, u: TxId)
    requires round.Inv() && round.dead == {} && round.peers == map[p := Proposal(0, {u}, 0)] && p != q
    requires t in round.disputes && round.disputes[t].votes == map[]
    modifies round
    ensures round.Inv() && p in round.peers && round.peers[p].position == {u} && round.Have({u})
    ensures t in round.disputes && p !in round.disputes[t].votes
  {
    ghost var ds := round.disputes;
    VoteEachKeeps(ds, q, {u}, round.peers.Keys);
    var relay := round.PeerPosition(q, Proposal(0, {u}, 0), true);
  }

  method ProposeUnheld(p: NodeId, t: TxId, u: TxId) returns (round: LedgerConsensus)
    requires t != u
    ensures fresh(round) && round.Inv() && round.peers == map[p := Proposal(0, {u}, 0)] && round.dead == {}
    ensures round.ours == Some(Proposal(0, {t}, 0)) && t in round.disputes && round.disputes[t].votes == map[]
  {
    round := DisputeAlone(t);
    assert {u} != {t} && {u} != {};
    var relay := round.PeerPosition(p, Proposal(0, {u}, 0), false);
  }

  /** We close with t, and then get the empty set. */
  method DisputeAlone(t: TxId) returns (round: LedgerConsensus)
    ensures fresh(round) && round.Inv() && round.peers == map[] && round.dead == {}
    ensures round.ours == Some(Proposal(0, {t}, 0)) && round.acquired == map[{t} := true, {} := true]
    ensures t in round.disputes && round.disputes[t].votes == map[]
  {
    round := CloseAlone(t);
    round.MapComplete({}, true);
    DiffOfOne(t);
    assert {} in round.compares && t in Diff({t}, {});
  }

  method CloseAlone(t: TxId) returns (round: LedgerConsensus)
    ensures fresh(round) && round.Inv() && round.peers == map[] && round.dead == {} && round.disputes == map[]
    ensures round.ours == Some(Proposal(0, {t}, 0)) && round.acquired == map[{t} := true]
    ensures round.compares == {} && round.largest == 0 && !round.lost
  {
    round := new LedgerConsensus();
    var crashed := round.TakeInitialPosition({t}, 0);
    assert Held(round.peers, round.acquired) == {} && Differences({t}, {}) == {};
  }
}
