/** LedgerConsensus: one round of agreeing on the transaction set of the next ledger.

    A transaction set is identified with its hash: two sets with the same hash are the same
    set.  Times, the network and the store of sets enter as parameters. */
module Consensus {
  import opened Entries
  import opened Dispute

  type TxId = nat
  type TxSet = set<TxId>

  const SEQ_LEAVE := 0xffff_ffff
  const COMPARE_LIMIT := 16384

  datatype Proposal = Proposal(sequence: nat, position: TxSet, closeTime: nat)

  type Disputes = map<TxId, Disputed>

  /** The transactions on which two sets differ. */
  function Diff(a: TxSet, b: TxSet): TxSet {
    (a - b) + (b - a)
  }

  /** SHAMap::compare: every difference, or the first 16384 found. */
  method Compare(a: TxSet, b: TxSet) returns (d: TxSet)
    ensures d <= Diff(a, b)
    ensures |Diff(a, b)| <= COMPARE_LIMIT ==> d == Diff(a, b)
    ensures |Diff(a, b)| > COMPARE_LIMIT ==> |d| == COMPARE_LIMIT
  {
    var rest := Diff(a, b);
    d := {};
    while rest != {} && |d| < COMPARE_LIMIT
      invariant d !! rest && d + rest == Diff(a, b)
      invariant |d| <= COMPARE_LIMIT
      invariant |d| + |rest| == |Diff(a, b)|
      decreases |rest|
    {
      var t :| t in rest;
      rest, d := rest - {t}, d + {t};
    }
  }

  function VoteEach(ds: Disputes, peer: NodeId, s: TxSet): Disputes {
    map t | t in ds :: Voted(ds[t], peer, t in s)
  }

  function UnvoteEach(ds: Disputes, peer: NodeId): Disputes {
    map t | t in ds :: Unvoted(ds[t], peer)
  }

  method SetVoteOnAll(ds: Disputes, peer: NodeId, s: TxSet) returns (r: Disputes)
    ensures r == VoteEach(ds, peer, s)
  {
    r := ds;
    var todo := ds.Keys;
    while todo != {}
      invariant todo <= ds.Keys && r.Keys == ds.Keys
      invariant forall t | t in ds :: r[t] == if t in todo then ds[t] else Voted(ds[t], peer, t in s)
      decreases |todo|
    {
      var t :| t in todo;
      r := r[t := Voted(r[t], peer, t in s)];
      todo := todo - {t};
    }
  }

  method UnVoteOnAll(ds: Disputes, peer: NodeId) returns (r: Disputes)
    ensures r == UnvoteEach(ds, peer)
  {
    r := ds;
    var todo := ds.Keys;
    while todo != {}
      invariant todo <= ds.Keys && r.Keys == ds.Keys
      invariant forall t | t in ds :: r[t] == if t in todo then ds[t] else Unvoted(ds[t], peer)
      decreases |todo|
    {
      var t :| t in todo;
      r := r[t := Unvoted(r[t], peer)];
      todo := todo - {t};
    }
  }

  /** Counters are tallies, and only the given peers have votes. */
  ghost predicate Booked(ds: Disputes, peers: set<NodeId>) {
    forall t | t in ds :: Tallied(ds[t]) && ds[t].votes.Keys <= peers
  }

  /** The votes agree with our set. */
  ghost predicate OursIn(ds: Disputes, s: TxSet) {
    forall t | t in ds :: ds[t].ourVote == (t in s)
  }

  lemma {:induction false} VoteEachKeeps(ds: Disputes, peer: NodeId, s: TxSet, peers: set<NodeId>)
    requires Booked(ds, peers)
    ensures Booked(VoteEach(ds, peer, s), peers + {peer})
    ensures forall t | t in ds :: VoteEach(ds, peer, s)[t].ourVote == ds[t].ourVote
    ensures forall t | t in ds :: VoteEach(ds, peer, s)[t].votes == ds[t].votes[peer := t in s]
  {
    forall t | t in ds
      ensures Tallied(Voted(ds[t], peer, t in s)) && Voted(ds[t], peer, t in s).votes == ds[t].votes[peer := t in s]
      ensures Voted(ds[t], peer, t in s).ourVote == ds[t].ourVote
    {
      VotedTallies(ds[t], peer, t in s);
    }
  }

  lemma {:induction false} UnvoteEachKeeps(ds: Disputes, peer: NodeId, peers: set<NodeId>)
    requires Booked(ds, peers)
    ensures Booked(UnvoteEach(ds, peer), peers - {peer})
    ensures forall t | t in ds :: UnvoteEach(ds, peer)[t].ourVote == ds[t].ourVote
    ensures forall t | t in ds :: UnvoteEach(ds, peer)[t].votes == ds[t].votes - {peer}
  {
    forall t | t in ds
      ensures Tallied(Unvoted(ds[t], peer)) && Unvoted(ds[t], peer).votes == ds[t].votes - {peer}
      ensures Unvoted(ds[t], peer).ourVote == ds[t].ourVote
    {
      UnvotedTallies(ds[t], peer);
    }
  }

  /** Peer p takes a position whose set we hold. */
  predicate Shows(peers: map<NodeId, Proposal>, acquired: map<TxSet, bool>, p: NodeId) {
    p in peers && peers[p].position in acquired && acquired[peers[p].position]
  }

  /** The peers whose sets we hold have a vote on t, each as its set says, and nobody else has. */
  ghost predicate VotesOf(votes: map<NodeId, bool>, peers: map<NodeId, Proposal>, acquired: map<TxSet, bool>, t: TxId) {
    forall p :: (p in votes <==> Shows(peers, acquired, p)) && (p in votes ==> votes[p] == (t in peers[p].position))
  }

  method StartDispute(peers: map<NodeId, Proposal>, acquired: map<TxSet, bool>, t: TxId, ourVote: bool)
      returns (d: Disputed)
    ensures Tallied(d) && VotesOf(d.votes, peers, acquired, t) && d.ourVote == ourVote
  {
    d := Disputed(map[], 0, 0, ourVote);
    var todo := peers.Keys;
    while todo != {}
      invariant todo <= peers.Keys && Tallied(d) && d.ourVote == ourVote
      invariant VotesOf(d.votes, peers - todo, acquired, t)
      decreases |todo|
    {
      var p :| p in todo;
      var s := peers[p].position;
      if s in acquired && acquired[s] {
        VotedTallies(d, p, t in s);
        d := Voted(d, p, t in s);
      }
      todo := todo - {p};
    }
    assert peers - todo == peers;
  }

  /** A new dispute on t: our vote from our set, the votes of the peers whose sets we hold. */
  ghost predicate Starts(d: Disputed, t: TxId, peers: map<NodeId, Proposal>, acquired: map<TxSet, bool>, ours: TxSet) {
    Tallied(d) && VotesOf(d.votes, peers, acquired, t) && d.ourVote == (t in ours)
  }

  /** r is ds with further disputes opened. */
  ghost predicate Opened(ds: Disputes, r: Disputes, peers: map<NodeId, Proposal>, acquired: map<TxSet, bool>,
                         ours: TxSet)
  {
    && (forall t | t in ds :: t in r && r[t] == ds[t])
    && (forall t | t in r && t !in ds :: Starts(r[t], t, peers, acquired, ours))
  }

  lemma {:induction false} OpenedTwice(ds: Disputes, mid: Disputes, r: Disputes, peers: map<NodeId, Proposal>,
                                       acquired: map<TxSet, bool>, ours: TxSet)
    requires Opened(ds, mid, peers, acquired, ours) && Opened(mid, r, peers, acquired, ours)
    ensures Opened(ds, r, peers, acquired, ours)
  {
  }

  /** addDisputedTransaction. */
  method OpenDispute(ds: Disputes, t: TxId, peers: map<NodeId, Proposal>, acquired: map<TxSet, bool>, ours: TxSet)
      returns (r: Disputes)
    ensures r.Keys == ds.Keys + {t} && Opened(ds, r, peers, acquired, ours)
  {
    r := ds;
    if t !in ds {
      var e := StartDispute(peers, acquired, t, t in ours);
      r := ds[t := e];
    }
  }

  /** Open a dispute on every transaction of d. */
  method OpenDisputes(ds: Disputes, d: TxSet, peers: map<NodeId, Proposal>, acquired: map<TxSet, bool>, ours: TxSet)
      returns (r: Disputes)
    ensures r.Keys == ds.Keys + d && Opened(ds, r, peers, acquired, ours)
  {
    r := ds;
    var todo := d;
    while todo != {}
      invariant todo <= d && forall t :: t in r <==> t in ds || (t in d && t !in todo)
      invariant Opened(ds, r, peers, acquired, ours)
      decreases |todo|
    {
      var t :| t in todo;
      ghost var before := r;
      r := OpenDispute(r, t, peers, acquired, ours);
      OpenedTwice(ds, before, r, peers, acquired, ours);
      todo := todo - {t};
    }
  }

  lemma {:induction false} OpenedKeeps(ds: Disputes, r: Disputes, peers: map<NodeId, Proposal>,
                                       acquired: map<TxSet, bool>, ours: TxSet)
    requires Opened(ds, r, peers, acquired, ours)
    ensures Booked(ds, peers.Keys) ==> Booked(r, peers.Keys)
    ensures OursIn(ds, ours) ==> OursIn(r, ours)
  {
  }

  /** createDisputes: open a dispute on every difference found between our set and another.
      All differences are disputed afterwards if there are no more than a comparison reports,
      and not all if more than that were undisputed. */
  method CreateDisputes(ds: Disputes, ours: TxSet, h: TxSet, peers: map<NodeId, Proposal>, acquired: map<TxSet, bool>)
      returns (r: Disputes)
    requires Booked(ds, peers.Keys)
    ensures Booked(r, peers.Keys) && (OursIn(ds, ours) ==> OursIn(r, ours))
    ensures ds.Keys <= r.Keys <= ds.Keys + Diff(ours, h)
    ensures Opened(ds, r, peers, acquired, ours)
    ensures |Diff(ours, h)| <= COMPARE_LIMIT ==> Diff(ours, h) <= r.Keys
    ensures |Diff(ours, h) - ds.Keys| > COMPARE_LIMIT ==> !(Diff(ours, h) <= r.Keys)
  {
    if ours == h {
      return ds;
    }
    var d := Compare(ours, h);
    r := OpenDisputes(ds, d, peers, acquired, ours);
    OpenedKeeps(ds, r, peers, acquired, ours);
    SomeMissed(Diff(ours, h), d, ds.Keys);
  }

  /** A truncated comparison leaves differences undisputed. */
  lemma {:induction false} SomeMissed(diff: TxSet, found: TxSet, known: TxSet)
    requires if |diff| > COMPARE_LIMIT then |found| == COMPARE_LIMIT else found == diff
    ensures |diff - known| > COMPARE_LIMIT ==> !(diff <= known + found)
  {
    SubsetSize(diff - known, diff);
    if diff <= known + found {
      SubsetSize(diff - known, found);
    }
  }

  ghost predicate SameOurVotes(ds: Disputes, r: Disputes) {
    r.Keys == ds.Keys && forall t | t in ds :: r[t].ourVote == ds[t].ourVote
  }

  /** Votes in which the peers ps now all say `yes`. */
  function WithVotes(votes: map<NodeId, bool>, ps: set<NodeId>, yes: bool): map<NodeId, bool> {
    votes + map p | p in ps :: yes
  }

  /** From ds to r the peers ps vote as the set s says, and nothing else changes. */
  ghost predicate Revoted(ds: Disputes, r: Disputes, ps: set<NodeId>, s: TxSet) {
    SameOurVotes(ds, r) && forall t | t in ds :: r[t].votes == WithVotes(ds[t].votes, ps, t in s)
  }

  lemma {:induction false} RevotedByNone(ds: Disputes, s: TxSet)
    ensures Revoted(ds, ds, {}, s)
  {
    assert forall t | t in ds :: WithVotes(ds[t].votes, {}, t in s) == ds[t].votes;
  }

  lemma {:induction false} OneMoreVoter(votes: map<NodeId, bool>, ps: set<NodeId>, yes: bool, p: NodeId)
    ensures WithVotes(votes, ps, yes)[p := yes] == WithVotes(votes, ps + {p}, yes)
  {
  }

  lemma {:induction false} OneMoreVote(ds: Disputes, r: Disputes, ps: set<NodeId>, s: TxSet, p: NodeId)
    requires Revoted(ds, r, ps, s) && forall t | t in r :: Tallied(r[t])
    ensures Revoted(ds, VoteEach(r, p, s), ps + {p}, s)
  {
    forall t | t in ds
      ensures VoteEach(r, p, s)[t].ourVote == ds[t].ourVote
      ensures VoteEach(r, p, s)[t].votes == WithVotes(ds[t].votes, ps + {p}, t in s)
    {
      VotedTallies(r[t], p, t in s);
      OneMoreVoter(ds[t].votes, ps, t in s, p);
    }
  }

  /** adjustCount: the peers ps take the position s on every dispute. */
  method AdjustCount(ds: Disputes, s: TxSet, ps: set<NodeId>, ghost peers: set<NodeId>) returns (r: Disputes)
    requires Booked(ds, peers) && ps <= peers
    ensures Revoted(ds, r, ps, s) && Booked(r, peers)
  {
    r := ds;
    var todo := ps;
    RevotedByNone(ds, s);
    assert ps - todo == {};
    while todo != {}
      invariant todo <= ps && Revoted(ds, r, ps - todo, s) && Booked(r, peers)
      decreases |todo|
    {
      var p :| p in todo;
      VoteEachKeeps(r, p, s, peers);
      assert peers + {p} == peers;
      OneMoreVote(ds, r, ps - todo, s, p);
      assert ps - todo + {p} == ps - (todo - {p});
      r := SetVoteOnAll(r, p, s);
      todo := todo - {p};
    }
    assert ps - todo == ps;
  }

  /** From ds to r the set h was compared with ours and counted: the peers that take it vote as
      it says, and each new dispute is a difference on which the peers we hold sets of vote. */
  ghost predicate Heard(ds: Disputes, r: Disputes, h: TxSet, peers: map<NodeId, Proposal>, acquired: map<TxSet, bool>,
                        ours: TxSet)
  {
    && ds.Keys <= r.Keys <= ds.Keys + Diff(ours, h)
    && (forall t | t in ds ::
          r[t].ourVote == ds[t].ourVote && r[t].votes == WithVotes(ds[t].votes, Takers(peers, h), t in h))
    && (forall t | t in r && t !in ds :: Starts(r[t], t, peers, acquired, ours))
  }

  lemma {:induction false} HeardFrom(ds: Disputes, mid: Disputes, r: Disputes, h: TxSet, peers: map<NodeId, Proposal>,
                                     had: map<TxSet, bool>, ours: TxSet)
    requires ds.Keys <= mid.Keys <= ds.Keys + Diff(ours, h) && Opened(ds, mid, peers, had, ours)
    requires Revoted(mid, r, Takers(peers, h), h) && Booked(r, peers.Keys) && (h in had ==> !had[h])
    ensures Heard(ds, r, h, peers, had[h := true], ours)
  {
    forall t | t in r && t !in ds
      ensures Starts(r[t], t, peers, had[h := true], ours)
    {
      assert Starts(mid[t], t, peers, had, ours);
      TakersJoin(mid[t].votes, peers, had, h, t);
    }
  }

  lemma {:induction false} TakersJoin(votes: map<NodeId, bool>, peers: map<NodeId, Proposal>, had: map<TxSet, bool>,
                                      h: TxSet, t: TxId)
    requires VotesOf(votes, peers, had, t) && (h in had ==> !had[h])
    ensures VotesOf(WithVotes(votes, Takers(peers, h), t in h), peers, had[h := true], t)
  {
  }

  /** The peers that take the position h. */
  function Takers(peers: map<NodeId, Proposal>, h: TxSet): set<NodeId> {
    set p | p in peers && peers[p].position == h
  }

  method CountTakers(peers: map<NodeId, Proposal>, mine: TxSet) returns (agree: nat, disagree: nat)
    ensures agree == |Takers(peers, mine)| && agree + disagree == |peers|
  {
    agree, disagree := 0, 0;
    var todo := peers.Keys;
    while todo != {}
      invariant todo <= peers.Keys
      invariant agree == |Takers(peers, mine) - todo| && agree + disagree + |todo| == |peers.Keys|
      decreases |todo|
    {
      var p :| p in todo;
      if peers[p].position == mine {
        assert Takers(peers, mine) - (todo - {p}) == (Takers(peers, mine) - todo) + {p};
        agree := agree + 1;
      } else {
        assert Takers(peers, mine) - (todo - {p}) == Takers(peers, mine) - todo;
        disagree := disagree + 1;
      }
      todo := todo - {p};
    }
    assert Takers(peers, mine) - todo == Takers(peers, mine);
  }

  /** Each dispute with our vote brought up to date. */
  function Reconsidered(d: Disputed, percentTime: int, proposing: bool): Disputed
    requires Tallied(d)
  {
    d.(ourVote := UpdatedVote(d.yays, d.nays, d.ourVote, percentTime, proposing))
  }

  /** The set s with the disputed transactions taken in or left out as we now vote. */
  ghost predicate FollowsVotes(s: TxSet, next: TxSet, ds: Disputes) {
    forall t :: t in next <==> if t in ds then ds[t].ourVote else t in s
  }

  /** The disputes on which our vote is reversed from ds to r, and those of them on which it was
      out of step with the set s. */
  ghost function Flipped(ds: Disputes, r: Disputes): TxSet {
    set t | t in ds && t in r && r[t].ourVote != ds[t].ourVote
  }

  ghost function OutOfStep(ds: Disputes, r: Disputes, s: TxSet): TxSet {
    set t | t in Flipped(ds, r) && ds[t].ourVote != (t in s)
  }

  /** The set s with the reversed votes followed. */
  ghost predicate Turned(ds: Disputes, r: Disputes, s: TxSet, next: TxSet) {
    forall t :: t in next <==> if t in Flipped(ds, r) then !ds[t].ourVote else t in s
  }

  /** The voting loop of updateOurPositions.  `ok` collects the results of addItem and delItem,
      which the source ignores: they succeed exactly when the reversed votes were in step. */
  method UpdateVotes(ds: Disputes, s: TxSet, percentTime: int, proposing: bool)
      returns (r: Disputes, next: TxSet, changes: bool, ok: bool)
    requires forall t | t in ds :: Tallied(ds[t])
    ensures r.Keys == ds.Keys && forall t | t in ds :: r[t] == Reconsidered(ds[t], percentTime, proposing)
    ensures Turned(ds, r, s, next)
    ensures changes <==> Flipped(ds, r) != {}
    ensures ok <==> OutOfStep(ds, r, s) == {}
  {
    ghost var goal := map t | t in ds :: Reconsidered(ds[t], percentTime, proposing);
    r, next, changes, ok := VoteLoop(ds, s, percentTime, proposing, goal, Flipped(ds, goal), OutOfStep(ds, goal, s));
  }

  /** The loop has still to reach the disputes of `todo`: the votes so far, the set so far. */
  ghost predicate VotesSoFar(ds: Disputes, goal: Disputes, r: Disputes, todo: TxSet) {
    r.Keys == ds.Keys == goal.Keys && forall t | t in ds :: r[t] == if t in todo then ds[t] else goal[t]
  }

  ghost predicate SetSoFar(ds: Disputes, flips: TxSet, s: TxSet, next: TxSet, todo: TxSet) {
    flips <= ds.Keys && forall t :: t in next <==> if t in flips && t !in todo then !ds[t].ourVote else t in s
  }

  lemma {:induction false} OneMoreTurned(ds: Disputes, flips: TxSet, s: TxSet, next: TxSet, todo: TxSet, t: TxId)
    requires SetSoFar(ds, flips, s, next, todo) && t in todo && t in ds
    ensures t in next <==> t in s
    ensures t !in flips ==> SetSoFar(ds, flips, s, next, todo - {t})
    ensures t in flips ==> SetSoFar(ds, flips, s, if ds[t].ourVote then next - {t} else next + {t}, todo - {t})
  {
  }

  /** The loop, with the outcome of the votes named beforehand. */
  method VoteLoop(ds: Disputes, s: TxSet, percentTime: int, proposing: bool, ghost goal: Disputes, ghost flips: TxSet,
                  ghost bad: TxSet)
      returns (r: Disputes, next: TxSet, changes: bool, ok: bool)
    requires forall t | t in ds :: Tallied(ds[t])
    requires goal.Keys == ds.Keys
    requires forall t {:trigger Reconsidered(ds[t], percentTime, proposing)} | t in ds ::
      goal[t] == Reconsidered(ds[t], percentTime, proposing)
    requires forall t :: t in flips <==> t in ds && goal[t].ourVote != ds[t].ourVote
    requires forall t :: t in bad <==> t in flips && ds[t].ourVote != (t in s)
    ensures r == goal && SetSoFar(ds, flips, s, next, {})
    ensures (changes <==> flips != {}) && (ok <==> bad == {})
  {
    r, next, changes, ok := ds, s, false, true;
    var todo := ds.Keys;
    while todo != {}
      invariant todo <= ds.Keys && VotesSoFar(ds, goal, r, todo) && SetSoFar(ds, flips, s, next, todo)
      invariant (changes <==> !(flips <= todo)) && (ok <==> bad <= todo)
      decreases |todo|
    {
      var t :| t in todo;
      OneMoreTurned(ds, flips, s, next, todo, t);
      FlagsStep(flips, bad, todo, t);
      OneMoreVoted(ds, goal, r, todo, t);
      var d;
      d, next, changes, ok := VoteOne(ds[t], t, percentTime, proposing, next, changes, ok, goal[t]);
      r := r[t := d];
      todo := todo - {t};
    }
  }

  lemma {:induction false} OneMoreVoted(ds: Disputes, goal: Disputes, r: Disputes, todo: TxSet, t: TxId)
    requires VotesSoFar(ds, goal, r, todo) && t in todo && t in ds
    ensures VotesSoFar(ds, goal, r[t := goal[t]], todo - {t})
  {
  }

  lemma {:induction false} FlagsStep(flips: TxSet, bad: TxSet, todo: TxSet, t: TxId)
    requires t in todo && bad <= flips
    ensures flips <= todo - {t} <==> flips <= todo && t !in flips
    ensures bad <= todo - {t} <==> bad <= todo && t !in bad
  {
  }

  method VoteOne(d: Disputed, t: TxId, percentTime: int, proposing: bool, s: TxSet, changes: bool, ok: bool,
                 ghost goal: Disputed)
      returns (r: Disputed, next: TxSet, changes': bool, ok': bool)
    requires Tallied(d) && goal == Reconsidered(d, percentTime, proposing)
    ensures r == goal
    ensures goal.ourVote == d.ourVote ==> next == s && changes' == changes && ok' == ok
    ensures goal.ourVote != d.ourVote ==>
      next == (if d.ourVote then s - {t} else s + {t}) && changes' && ok' == (ok && d.ourVote == (t in s))
  {
    r := Reconsidered(d, percentTime, proposing);
    next, changes', ok' := s, changes, ok;
    if r.ourVote != d.ourVote {
      var good;
      next, good := TakeVote(s, t, r.ourVote);
      changes', ok' := true, ok && good;
    }
  }

  /** addItem or delItem, and whether it succeeds. */
  method TakeVote(s: TxSet, t: TxId, yes: bool) returns (next: TxSet, good: bool)
    ensures next == (if yes then s + {t} else s - {t}) && (good <==> yes == (t !in s))
  {
    good := yes == (t !in s);
    next := if yes then s + {t} else s - {t};
  }

  /** The same with votes in step with s: the new set is the one our votes amount to, and no item
      operation fails. */
  method UpdateVotesInStep(ds: Disputes, s: TxSet, percentTime: int, proposing: bool)
      returns (r: Disputes, next: TxSet, changes: bool, ok: bool)
    requires OursIn(ds, s) && forall t | t in ds :: Tallied(ds[t])
    ensures r.Keys == ds.Keys && forall t | t in ds :: r[t] == Reconsidered(ds[t], percentTime, proposing)
    ensures FollowsVotes(s, next, r)
    ensures changes <==> next != s
    ensures ok
  {
    r, next, changes, ok := UpdateVotes(ds, s, percentTime, proposing);
    InStep(ds, r, s, next);
  }

  lemma {:induction false} InStep(ds: Disputes, r: Disputes, s: TxSet, next: TxSet)
    requires OursIn(ds, s) && r.Keys == ds.Keys && Turned(ds, r, s, next)
    ensures FollowsVotes(s, next, r) && OutOfStep(ds, r, s) == {}
    ensures next != s <==> Flipped(ds, r) != {}
  {
    if t :| t in Flipped(ds, r) {
      assert t in next <==> t !in s;
    }
  }

  /** Differences obey a triangle law. */
  lemma {:induction false} DiffTriangle(a: TxSet, b: TxSet, c: TxSet)
    ensures Diff(a, c) <= Diff(a, b) + Diff(b, c)
  {
  }

  /** Taking the voted position keeps the votes in step and the compared sets covered. */
  lemma {:induction false} VotedPositionKeeps(ds: Disputes, r: Disputes, s: TxSet, next: TxSet, compares: set<TxSet>)
    requires r.Keys == ds.Keys && FollowsVotes(s, next, r)
    ensures OursIn(r, next) && Diff(s, next) <= r.Keys
    ensures (forall h | h in compares :: Diff(s, h) <= ds.Keys) ==> forall h | h in compares :: Diff(next, h) <= r.Keys
  {
    if forall h | h in compares :: Diff(s, h) <= ds.Keys {
      forall h | h in compares
        ensures Diff(next, h) <= r.Keys
      {
        DiffTriangle(next, s, h);
        assert Diff(next, s) == Diff(s, next);
      }
    }
  }

  /** From ds to r the peers `gone` lose their votes, and nothing else changes. */
  ghost predicate Withdrawn(ds: Disputes, r: Disputes, gone: set<NodeId>) {
    SameOurVotes(ds, r) && forall t | t in ds :: r[t].votes == ds[t].votes - gone
  }

  lemma {:induction false} OneMoreGone(ds: Disputes, r: Disputes, gone: set<NodeId>, peers: set<NodeId>, p: NodeId)
    requires Withdrawn(ds, r, gone) && Booked(r, peers)
    ensures Withdrawn(ds, UnvoteEach(r, p), gone + {p}) && Booked(UnvoteEach(r, p), peers)
  {
    UnvoteEachKeeps(r, p, peers);
    assert forall t | t in ds :: ds[t].votes - gone - {p} == ds[t].votes - (gone + {p});
  }

  /** unVote on every dispute for every peer of `gone`. */
  method DropVotes(ds: Disputes, gone: set<NodeId>, peers: set<NodeId>) returns (r: Disputes)
    requires Booked(ds, peers)
    ensures Withdrawn(ds, r, gone) && Booked(r, peers - gone)
  {
    r := ds;
    var all := peers * gone;
    var todo := all;
    assert all - todo == {};
    while todo != {}
      invariant todo <= all && Withdrawn(ds, r, all - todo) && Booked(r, peers)
      decreases |todo|
    {
      var p :| p in todo;
      OneMoreGone(ds, r, all - todo, peers, p);
      assert all - todo + {p} == all - (todo - {p});
      r := UnVoteOnAll(r, p);
      todo := todo - {p};
    }
    assert all - todo == all;
    AllGone(ds, r, gone, peers);
  }

  lemma {:induction false} AllGone(ds: Disputes, r: Disputes, gone: set<NodeId>, peers: set<NodeId>)
    requires Booked(ds, peers) && Booked(r, peers) && Withdrawn(ds, r, peers * gone)
    ensures Withdrawn(ds, r, gone) && Booked(r, peers - gone)
  {
    assert forall t | t in ds :: ds[t].votes - peers * gone == ds[t].votes - gone;
  }

  /** A round of voting: from ds to r the peers `gone` lose their votes, we reconsider ours, and
      the peers ps vote as our new set s says. */
  ghost predicate Reviewed(ds: Disputes, r: Disputes, gone: set<NodeId>, ps: set<NodeId>, s: TxSet, percentTime: int,
                           proposing: bool)
  {
    r.Keys == ds.Keys && forall t | t in ds ::
      var left := ds[t].votes - gone;
      && r[t].votes == WithVotes(left, ps, t in s)
      && r[t].ourVote == UpdatedVote(|Voters(left, true)|, |Voters(left, false)|, ds[t].ourVote, percentTime, proposing)
  }

  /** What can happen in a round: a set arrives or is found invalid, a peer proposes, we close and
      take a position, the timer fires, the last closed ledger is switched, we leave. */
  datatype Event =
    | Arrived(txs: TxSet, usable: bool)
    | Proposed(peer: NodeId, proposal: Proposal, inbound: bool)
    | ClosedLedger(txs: TxSet, closeTime: nat)
    | Timer(percentTime: int, proposing: bool, stale: set<NodeId>, closeTime: nat, refresh: bool)
    | SwitchedLcl(bowOut: bool)
    | Left(proposing: bool)

  /** Every transaction the event mentions is in u. */
  predicate Mentions(e: Event, u: TxSet) {
    match e
    case Arrived(txs, _) => txs <= u
    case Proposed(_, proposal, _) => proposal.position <= u
    case ClosedLedger(txs, _) => txs <= u
    case _ => true
  }

  predicate AllMention(events: seq<Event>, u: TxSet) {
    forall e | e in events :: Mentions(e, u)
  }

  /** The event may take away the position of peer p. */
  predicate Drops(e: Event, p: NodeId) {
    match e
    case Proposed(q, proposal, _) => q == p && proposal.sequence == SEQ_LEAVE
    case Timer(_, _, stale, _, _) => p in stale
    case SwitchedLcl(_) => true
    case _ => false
  }

  predicate NoSwitch(events: seq<Event>) {
    forall e | e in events :: !e.SwitchedLcl?
  }

  /** Peer p still holds its proposal, or one with a higher number. */
  predicate Advanced(before: map<NodeId, Proposal>, after: map<NodeId, Proposal>, p: NodeId) {
    p in before && p in after && (after[p] == before[p] || after[p].sequence > before[p].sequence)
  }

  function Max(a: nat, b: nat): nat {
    if a < b then b else a
  }

  /** Some peer takes a position recorded as invalid, other than s. */
  predicate Poisoned(peers: map<NodeId, Proposal>, acquired: map<TxSet, bool>, s: TxSet) {
    exists p | p in peers :: peers[p].position != s && peers[p].position in acquired && !acquired[peers[p].position]
  }

  lemma {:induction false} DiffWithin(a: TxSet, b: TxSet, u: TxSet)
    requires a <= u && b <= u
    ensures |Diff(a, b)| <= |u|
  {
    SubsetSize(Diff(a, b), u);
  }

  lemma {:induction false} SubsetSize(a: TxSet, u: TxSet)
    requires a <= u
    ensures |a| <= |u|
  {
    assert u == a + (u - a);
  }

  /** The peer positions whose sets we hold. */
  function Held(peers: map<NodeId, Proposal>, acquired: map<TxSet, bool>): set<TxSet> {
    set p | p in peers && peers[p].position in acquired && acquired[peers[p].position] :: peers[p].position
  }

  lemma {:induction false} HeldHere(peers: map<NodeId, Proposal>, p: NodeId, acquired: map<TxSet, bool>)
    requires p in peers && peers[p].position in acquired && acquired[peers[p].position]
    ensures peers[p].position in Held(peers, acquired)
  {
  }

  lemma {:induction false} DifferencesWithin(s: TxSet, others: set<TxSet>, u: TxSet)
    requires s <= u && forall h | h in others :: h <= u
    ensures Differences(s, others) <= u
  {
  }

  /** What the sets `others` and s differ on. */
  function Differences(s: TxSet, others: set<TxSet>): TxSet {
    set h, t | h in others && t in Diff(s, h) :: t
  }

  /** Every compared set differs from s on known transactions only. */
  ghost predicate CoveredIn(s: TxSet, compares: set<TxSet>, known: TxSet) {
    forall h | h in compares :: Diff(s, h) <= known
  }

  lemma {:induction false} CoverGrows(s: TxSet, compares: set<TxSet>, h: TxSet, known: TxSet, keys: TxSet)
    requires known <= keys
    ensures CoveredIn(s, compares, known) && Diff(s, h) <= keys ==> CoveredIn(s, compares + {h}, keys)
  {
  }

  // ---- Rounds as values ----

  /** The state of a round. */
  datatype Round = Round(
    peers: map<NodeId, Proposal>,
    dead: set<NodeId>,
    disputes: Disputes,
    acquired: map<TxSet, bool>,
    compares: set<TxSet>,
    ours: Option<Proposal>,
    closeTimes: map<nat, nat>)

  predicate HoldsSet(a: Round, h: TxSet) {
    h in a.acquired && a.acquired[h]
  }

  predicate LiveIn(a: Round) {
    a.ours.Some? && a.ours.value.sequence != SEQ_LEAVE
  }

  /** A set arrives: it is compared with ours while we have a position, and the peers that take it
      vote as it says.  The report that our own set is invalid is ignored. */
  ghost predicate AfterArrived(a: Round, b: Round, h: TxSet, usable: bool) {
    if !usable && a.ours.Some? && a.ours.value.position == h then b == a
    else
      && b == a.(acquired := a.acquired[h := usable], disputes := b.disputes, compares := b.compares)
      && (if !usable || HoldsSet(a, h) then b.disputes == a.disputes && b.compares == a.compares
          else if LiveIn(a) && h != a.ours.value.position then
            && b.compares == a.compares + {h}
            && Heard(a.disputes, b.disputes, h, a.peers, b.acquired, a.ours.value.position)
          else b.compares == a.compares && Revoted(a.disputes, b.disputes, Takers(a.peers, h), h))
  }

  /** The proposal is from a live peer and numbered higher than its last one. */
  predicate Accepts(a: Round, p: NodeId, proposal: Proposal) {
    p !in a.dead && (p in a.peers ==> proposal.sequence > a.peers[p].sequence)
  }

  /** A peer proposes: it bows out, or takes a position, on which it votes if we hold the set. */
  predicate AfterProposed(a: Round, b: Round, p: NodeId, proposal: Proposal, inbound: bool) {
    var h, t, times := proposal.position, proposal.closeTime, a.closeTimes;
    if !Accepts(a, p, proposal) then b == a
    else if proposal.sequence == SEQ_LEAVE then
      b == a.(peers := a.peers - {p}, dead := a.dead + {p}, disputes := UnvoteEach(a.disputes, p))
    else
      var acquired := if inbound then a.acquired[h := true] else a.acquired;
      b == a.(
        peers := a.peers[p := proposal],
        acquired := acquired,
        disputes := if h in acquired && acquired[h] then VoteEach(a.disputes, p, h) else a.disputes,
        closeTimes := if proposal.sequence == 0 then times[t := (if t in times then times[t] else 0) + 1] else times)
  }

  /** The ledger closes: we take our first position and compare it with every held one. */
  ghost predicate AfterClose(a: Round, b: Round, initial: TxSet, closeTime: nat) {
    if a.ours.Some? then b == a
    else
      && b == a.(ours := Some(Proposal(0, initial, closeTime)), acquired := a.acquired[initial := true],
                 compares := Held(a.peers, b.acquired), disputes := b.disputes)
      && b.disputes.Keys <= Differences(initial, b.compares)
      && Opened(map[], b.disputes, b.peers, b.acquired, initial)
  }

  /** The disputes of a as they are in b. */
  ghost function Kept(a: Round, b: Round): Disputes {
    map t | t in a.disputes && t in b.disputes :: b.disputes[t]
  }

  /** updateOurPositions.  Stale peers go with their votes, every dispute is reconsidered, and with a
      live position our set follows the votes, and a change or a refresh advances the proposal. */
  ghost predicate AfterReview(a: Round, b: Round, percentTime: int, proposing: bool, stale: set<NodeId>,
                              closeTime: nat, refresh: bool, ds: Disputes)
    requires a.ours.Some?
  {
    && b.ours.Some? && b.peers == a.peers - stale && b.dead == a.dead && b.closeTimes == a.closeTimes
    && b.acquired == a.acquired[b.ours.value.position := true]
    && var mine, next := a.ours.value.position, b.ours.value.position;
       && Reviewed(a.disputes, ds, stale, if HoldsSet(a, next) then {} else Takers(b.peers, next), next, percentTime,
                   proposing)
       && (LiveIn(a) ==> FollowsVotes(mine, next, ds))
       && b.ours == (if LiveIn(a) && (next != mine || refresh)
                     then Some(Proposal(a.ours.value.sequence + 1, next, closeTime))
                     else a.ours)
  }

  /** Our set takes in nothing but disputed transactions. */
  lemma {:induction false} ReviewWithin(a: Round, b: Round, percentTime: int, proposing: bool, stale: set<NodeId>,
                                        closeTime: nat, refresh: bool, u: TxSet)
    requires a.ours.Some? && AfterReview(a, b, percentTime, proposing, stale, closeTime, refresh, b.disputes)
    requires b.disputes.Keys == a.disputes.Keys
    ensures a.ours.value.position <= u && a.disputes.Keys <= u ==> b.ours.value.position <= u
  {
  }

  /** haveConsensus: every held position other than ours is compared. */
  ghost predicate AfterCount(b: Round, ds: Disputes, compares: set<TxSet>)
    requires b.ours.Some?
  {
    var next := b.ours.value.position;
    && Opened(ds, b.disputes, b.peers, b.acquired, next)
    && b.disputes.Keys <= ds.Keys + Differences(next, Held(b.peers, b.acquired))
    && compares <= b.compares
    && (forall p | Shows(b.peers, b.acquired, p) && b.peers[p].position != next :: b.peers[p].position in b.compares)
    && (forall h | h in b.compares && h !in compares :: h in Held(b.peers, b.acquired) && h != next)
  }

  /** The timer does both, once we have a position. */
  ghost predicate AfterTimer(a: Round, b: Round, percentTime: int, proposing: bool, stale: set<NodeId>,
                             closeTime: nat, refresh: bool)
  {
    if a.ours.None? then b == a
    else
      && a.disputes.Keys <= b.disputes.Keys
      && AfterReview(a, b, percentTime, proposing, stale, closeTime, refresh, Kept(a, b))
      && AfterCount(b, Kept(a, b), a.compares)
  }

  lemma {:induction false} TimerFrom(a: Round, mid: Round, b: Round, percentTime: int, proposing: bool,
                                     stale: set<NodeId>, closeTime: nat, refresh: bool)
    requires a.ours.Some? && mid.ours.Some? && mid.compares == a.compares
    requires AfterReview(a, mid, percentTime, proposing, stale, closeTime, refresh, mid.disputes)
    requires b == mid.(disputes := b.disputes, compares := b.compares)
    requires AfterCount(b, mid.disputes, mid.compares)
    ensures AfterTimer(a, b, percentTime, proposing, stale, closeTime, refresh)
  {
    assert Kept(a, b) == mid.disputes;
  }

  function BowOut(ours: Option<Proposal>): Option<Proposal> {
    if ours.Some? then Some(ours.value.(sequence := SEQ_LEAVE)) else None
  }

  /** What an event makes of a round. */
  ghost predicate Handled(e: Event, a: Round, b: Round) {
    match e
    case Arrived(h, usable) => AfterArrived(a, b, h, usable)
    case Proposed(p, proposal, inbound) => AfterProposed(a, b, p, proposal, inbound)
    case ClosedLedger(initial, closeTime) => AfterClose(a, b, initial, closeTime)
    case Timer(percentTime, proposing, stale, closeTime, refresh) =>
      AfterTimer(a, b, percentTime, proposing, stale, closeTime, refresh)
    case SwitchedLcl(bowOut) =>
      b == a.(peers := map[], dead := {}, disputes := map[], closeTimes := map[],
              ours := if bowOut then BowOut(a.ours) else a.ours)
    case Left(proposing) => b == a.(ours := if proposing then BowOut(a.ours) else a.ours)
  }

  /** Closing the ledger on the event follows a null pointer. */
  predicate Crashes(e: Event, a: Round) {
    e.ClosedLedger? && a.ours.None? && Poisoned(a.peers, a.acquired, e.txs)
  }

  /** The rounds that the events lead through. */
  ghost predicate Traced(events: seq<Event>, trace: seq<Round>) {
    && 0 < |trace| <= |events| + 1
    && (forall i | 0 <= i < |trace| :: Booked(trace[i].disputes, trace[i].peers.Keys))
    && (forall i {:trigger events[i]} | 0 <= i < |trace| - 1 :: Handled(events[i], trace[i], trace[i + 1]))
  }

  class LedgerConsensus {
    var peers: map<NodeId, Proposal>
    var dead: set<NodeId>
    var disputes: Disputes
    /** Sets we hold, and sets found to be invalid. */
    var acquired: map<TxSet, bool>
    var compares: set<TxSet>
    var ours: Option<Proposal>
    var closeTimes: map<nat, nat>
    /** The most differences a comparison has met, and whether a switch of the last closed ledger
        dropped disputes on a set that stays recorded as compared. */
    ghost var largest: nat
    ghost var lost: bool

    ghost function Now(): Round
      reads this
    {
      Round(peers, dead, disputes, acquired, compares, ours, closeTimes)
    }

    predicate Have(s: TxSet)
      reads this`acquired
    {
      s in acquired && acquired[s]
    }

    predicate BowedOut()
      reads this`ours
    {
      ours.Some? && ours.value.sequence == SEQ_LEAVE
    }

    predicate Live()
      reads this`ours
    {
      ours.Some? && !BowedOut()
    }

    /** Vote bookkeeping: counters match votes, voters hold a position, peers that bowed out
        hold none. */
    ghost predicate Bookkept()
      reads this`peers, this`dead, this`disputes
    {
      && Booked(disputes, peers.Keys)
      && dead !! peers.Keys
      && forall p | p in peers :: peers[p].sequence != SEQ_LEAVE
    }

    /** We hold our own set, and until we bow out our votes are membership in it. */
    ghost predicate InStepWithOurs()
      reads this`ours, this`acquired, this`disputes, this`compares
    {
      && (ours.None? ==> disputes == map[] && compares == {})
      && (ours.Some? ==> Have(ours.value.position))
      && (Live() ==> OursIn(disputes, ours.value.position))
    }

    /** Every compared set differs from ours on disputed transactions only. */
    ghost predicate Covered(s: TxSet)
      reads this`disputes, this`compares
    {
      CoveredIn(s, compares, disputes.Keys)
    }

    /** Dispute completeness, while no comparison met more differences than it reports. */
    ghost predicate Complete()
      reads this
    {
      Live() && largest <= COMPARE_LIMIT && !lost ==> Covered(ours.value.position)
    }

    ghost predicate Inv()
      reads this
    {
      Bookkept() && InStepWithOurs() && Complete()
    }

    constructor ()
      ensures Inv() && ours == None && peers == map[] && dead == {} && disputes == map[] && acquired == map[]
      ensures compares == {} && closeTimes == map[] && largest == 0 && !lost
    {
      peers, dead, disputes, acquired, compares, ours, closeTimes := map[], {}, map[], map[], {}, None, map[];
      largest, lost := 0, false;
    }

    /** Peers' votes do not matter beyond the bookkeeping: the rest held with the disputes ds. */
    lemma {:induction false} InvFrom(ds: Disputes)
      requires Bookkept() && SameOurVotes(ds, disputes)
      requires (ours.None? ==> ds == map[] && compares == {}) && (ours.Some? ==> Have(ours.value.position))
      requires Live() ==> OursIn(ds, ours.value.position)
      requires Live() && largest <= COMPARE_LIMIT && !lost ==> CoveredIn(ours.value.position, compares, ds.Keys)
      ensures Inv()
    {
    }

    method CompareWith(h: TxSet)
      requires Inv() && ours.Some?
      modifies this`disputes, this`compares, this`largest
      ensures Inv() && compares == old(compares) + {h} && largest == Max(old(largest), |Diff(ours.value.position, h)|)
      ensures old(disputes).Keys <= disputes.Keys <= old(disputes).Keys + Diff(ours.value.position, h)
      ensures Opened(old(disputes), disputes, peers, acquired, ours.value.position)
      ensures |Diff(ours.value.position, h) - old(disputes).Keys| > COMPARE_LIMIT ==>
        !(Diff(ours.value.position, h) <= disputes.Keys)
    {
      var mine := ours.value.position;
      compares := compares + {h};
      largest := Max(largest, |Diff(mine, h)|);
      disputes := CreateDisputes(disputes, mine, h, peers, acquired);
      StillInv(old(disputes), old(compares), old(largest), h);
    }

    lemma {:induction false} StillInv(ds: Disputes, cs: set<TxSet>, n: nat, h: TxSet)
      requires Bookkept() && InStepWithOurs() && ours.Some? && ds.Keys <= disputes.Keys && compares == cs + {h}
      requires Live() && n <= COMPARE_LIMIT && !lost ==> CoveredIn(ours.value.position, cs, ds.Keys)
      requires largest == Max(n, |Diff(ours.value.position, h)|)
      requires |Diff(ours.value.position, h)| <= COMPARE_LIMIT ==> Diff(ours.value.position, h) <= disputes.Keys
      ensures Inv()
    {
      CoverGrows(ours.value.position, cs, h, ds.Keys, disputes.Keys);
    }

    /** mapCompleteInternal: a transaction set has arrived, or turned out to be invalid. */
    method MapComplete(h: TxSet, usable: bool)
      requires Bookkept() && ((ours.Some? && h == ours.value.position) || Inv())
      modifies this`disputes, this`compares, this`acquired, this`largest
      ensures Bookkept() && acquired == old(acquired)[h := usable]
      ensures old(Inv()) && (usable || ours.None? || h != ours.value.position) ==> Inv()
      ensures !usable || old(Have(h)) ==>
        disputes == old(disputes) && compares == old(compares) && largest == old(largest)
      ensures usable && !old(Have(h)) && Live() && h != ours.value.position ==>
        && compares == old(compares) + {h} && largest == Max(old(largest), |Diff(ours.value.position, h)|)
        && Heard(old(disputes), disputes, h, peers, acquired, ours.value.position)
      ensures usable && !old(Have(h)) && !(Live() && h != ours.value.position) ==>
        && compares == old(compares) && largest == old(largest)
        && Revoted(old(disputes), disputes, Takers(peers, h), h)
    {
      if !usable {
        acquired := acquired[h := false];
        return;
      }
      if h in acquired && acquired[h] {
        assert acquired == acquired[h := true];
        return;
      }
      if ours.Some? && !BowedOut() && h != ours.value.position {
        CompareAndCount(h);
      } else {
        CountSet(h);
      }
    }

    method CompareAndCount(h: TxSet)
      requires Inv() && Live() && !Have(h) && h != ours.value.position
      modifies this`disputes, this`compares, this`acquired, this`largest
      ensures Inv() && acquired == old(acquired)[h := true] && compares == old(compares) + {h}
      ensures largest == Max(old(largest), |Diff(ours.value.position, h)|)
      ensures Heard(old(disputes), disputes, h, peers, acquired, ours.value.position)
    {
      CompareWith(h);
      CountCompared(h, old(disputes));
    }

    method CountCompared(h: TxSet, ghost ds: Disputes)
      requires Inv() && ours.Some? && !Have(h)
      requires ds.Keys <= disputes.Keys <= ds.Keys + Diff(ours.value.position, h)
      requires Opened(ds, disputes, peers, acquired, ours.value.position)
      modifies this`disputes, this`acquired
      ensures Inv() && acquired == old(acquired)[h := true]
      ensures Heard(ds, disputes, h, peers, acquired, ours.value.position)
    {
      ghost var had, mid := acquired, disputes;
      CountSet(h);
      HeardFrom(ds, mid, disputes, h, peers, had, ours.value.position);
    }

    /** We hold the set now, and the peers that take it vote as it says. */
    method CountSet(h: TxSet)
      requires Bookkept()
      modifies this`disputes, this`acquired
      ensures Bookkept() && (old(Inv()) ==> Inv())
      ensures acquired == old(acquired)[h := true] && Revoted(old(disputes), disputes, Takers(peers, h), h)
    {
      acquired := acquired[h := true];
      disputes := AdjustCount(disputes, h, Takers(peers, h), peers.Keys);
    }

    /** peerPosition: `inbound` says that the set, if we do not hold it, could be fetched. */
    method PeerPosition(p: NodeId, proposal: Proposal, inbound: bool) returns (relay: bool)
      requires Inv()
      modifies this`peers, this`dead, this`disputes, this`acquired, this`closeTimes
      ensures Inv()
      ensures relay <==> p !in old(dead) && (p in old(peers) ==> proposal.sequence > old(peers)[p].sequence)
      ensures !relay ==>
        && peers == old(peers) && dead == old(dead) && disputes == old(disputes)
        && acquired == old(acquired) && closeTimes == old(closeTimes)
      ensures relay && proposal.sequence == SEQ_LEAVE ==>
        && peers == old(peers) - {p} && dead == old(dead) + {p}
        && acquired == old(acquired) && closeTimes == old(closeTimes)
        && disputes == UnvoteEach(old(disputes), p)
      ensures relay && proposal.sequence != SEQ_LEAVE ==>
        && peers == old(peers)[p := proposal] && dead == old(dead)
        && acquired == (if inbound then old(acquired)[proposal.position := true] else old(acquired))
        && disputes ==
             (if Have(proposal.position) then VoteEach(old(disputes), p, proposal.position) else old(disputes))
        && closeTimes ==
             (var t, times := proposal.closeTime, old(closeTimes);
              if proposal.sequence == 0 then times[t := (if t in times then times[t] else 0) + 1] else times)
    {
      if p in dead {
        return false;
      }
      if p in peers && proposal.sequence <= peers[p].sequence {
        return false;
      }
      if proposal.sequence == 0 {
        var t := proposal.closeTime;
        closeTimes := closeTimes[t := (if t in closeTimes then closeTimes[t] else 0) + 1];
      } else if proposal.sequence == SEQ_LEAVE {
        PeerLeaves(p);
        return true;
      }
      TakePosition(p, proposal, inbound);
      return true;
    }

    /** The peer bowed out: it is dead for the round and its votes are withdrawn. */
    method PeerLeaves(p: NodeId)
      requires Inv()
      modifies this`peers, this`dead, this`disputes
      ensures Inv()
      ensures peers == old(peers) - {p} && dead == old(dead) + {p} && disputes == UnvoteEach(old(disputes), p)
    {
      UnvoteEachKeeps(disputes, p, peers.Keys);
      disputes := UnVoteOnAll(disputes, p);
      peers := peers - {p};
      dead := dead + {p};
    }

    /** The peer's new position, and its votes if we hold the set. */
    method TakePosition(p: NodeId, proposal: Proposal, inbound: bool)
      requires Inv() && p !in dead && proposal.sequence != SEQ_LEAVE
      modifies this`peers, this`disputes, this`acquired
      ensures Inv()
      ensures peers == old(peers)[p := proposal]
      ensures acquired == (if inbound then old(acquired)[proposal.position := true] else old(acquired))
      ensures disputes ==
              if Have(proposal.position) then VoteEach(old(disputes), p, proposal.position) else old(disputes)
    {
      peers := peers[p := proposal];
      if inbound {
        acquired := acquired[proposal.position := true];
      }
      if Have(proposal.position) {
        VoteEachKeeps(disputes, p, proposal.position, peers.Keys);
        assert peers.Keys + {p} == peers.Keys;
        disputes := SetVoteOnAll(disputes, p, proposal.position);
      }
      InvFrom(old(disputes));
    }

    /** takeInitialPosition: our first position of the round; every position already taken by
        a peer whose set we hold is compared with it.  A peer position recorded as invalid is
        followed through a null pointer. */
    method TakeInitialPosition(initial: TxSet, closeTime: nat) returns (crashed: bool)
      requires Inv() && ours.None?
      modifies this`disputes, this`compares, this`acquired, this`ours, this`largest
      ensures crashed <==> Poisoned(peers, old(acquired), initial)
      ensures Inv() && ours == Some(Proposal(0, initial, closeTime)) && acquired == old(acquired)[initial := true]
      ensures OursIn(disputes, initial) && Warranted(map[]) && Met(old(largest))
      ensures !crashed ==> compares == Held(peers, acquired)
    {
      MapComplete(initial, true);
      ours := Some(Proposal(0, initial, closeTime));
      assert disputes == map[];
      crashed := ComparePeers({}, true);
    }

    /** The disputes opened since ds are on differences with sets we hold, and start with the
        votes those sets give. */
    ghost predicate Warranted(ds: Disputes)
      requires ours.Some?
      reads this
    {
      && ds.Keys <= disputes.Keys <= ds.Keys + Differences(ours.value.position, Held(peers, acquired))
      && Opened(ds, disputes, peers, acquired, ours.value.position)
    }

    /** The largest comparison is still n, or one of our set with a held peer position. */
    ghost predicate Met(n: nat)
      requires ours.Some?
      reads this
    {
      largest == n || exists h :: h in Held(peers, acquired) && largest == |Diff(ours.value.position, h)|
    }

    method CompareMore(h: TxSet, ghost ds: Disputes, ghost n: nat)
      requires Inv() && ours.Some? && Warranted(ds) && Met(n) && h in Held(peers, acquired)
      modifies this`disputes, this`compares, this`largest
      ensures Inv() && Warranted(ds) && Met(n) && compares == old(compares) + {h}
    {
      ghost var before := disputes;
      CompareWith(h);
      OpenedTwice(ds, before, disputes, peers, acquired, ours.value.position);
      assert Diff(ours.value.position, h) <= Differences(ours.value.position, Held(peers, acquired));
    }

    /** The sets compared since `before` are peer positions we hold, and none is in `skip`. */
    ghost predicate Compared(before: set<TxSet>, skip: set<TxSet>)
      reads this
    {
      before <= compares && forall h | h in compares && h !in before :: h in Held(peers, acquired) && h !in skip
    }

    /** Compare our set with every peer position whose set we hold and that `skip` does not
        name, each once.  If `strict`, a position recorded as invalid is not checked for. */
    method ComparePeers(skip: set<TxSet>, strict: bool) returns (crashed: bool)
      requires Inv() && ours.Some? && (strict ==> skip == {})
      modifies this`disputes, this`compares, this`largest
      ensures Inv() && Warranted(old(disputes)) && Met(old(largest)) && Compared(old(compares), skip)
      ensures crashed <==> strict && exists p | p in peers :: Invalid(peers[p].position)
      ensures !crashed ==> forall p | p in peers && Have(peers[p].position) :: peers[p].position in compares + skip
    {
      var todo, found := peers.Keys, skip;
      while todo != {}
        invariant todo <= peers.Keys && Inv() && Warranted(old(disputes)) && Met(old(largest))
        invariant Compared(old(compares), skip) && skip <= found <= compares + skip
        invariant forall p | p in peers && p !in todo && Have(peers[p].position) :: peers[p].position in found
        invariant strict ==> forall p | p in peers && p !in todo :: !Invalid(peers[p].position)
        invariant strict ==> forall h | h in found :: Have(h)
        decreases |todo|
      {
        var p :| p in todo;
        var h := peers[p].position;
        if h !in found {
          if Have(h) {
            found := found + {h};
            HeldHere(peers, p, acquired);
            CompareMore(h, old(disputes), old(largest));
          } else if strict && h in acquired {
            return true;
          }
        }
        todo := todo - {p};
      }
      crashed := false;
    }

    predicate Invalid(h: TxSet)
      reads this`acquired
    {
      h in acquired && !acquired[h]
    }

    /** The loop of haveConsensus: count the peers that agree with us, and make sure that
        every set that differs from ours has been compared. */
    method CountAgreement() returns (agree: nat, disagree: nat)
      requires Inv() && ours.Some?
      modifies this`disputes, this`compares, this`largest
      ensures Inv() && Warranted(old(disputes)) && Met(old(largest)) && Compared(old(compares), {ours.value.position})
      ensures agree == |Takers(peers, ours.value.position)| && agree + disagree == |peers|
      ensures forall p | p in peers && Have(peers[p].position) && peers[p].position != ours.value.position ::
        peers[p].position in compares
    {
      agree, disagree := CountTakers(peers, ours.value.position);
      var crashed := ComparePeers(compares + {ours.value.position}, false);
    }

    /** Drop the positions that are no longer fresh, and the votes of those peers. */
    method RemoveStale(stale: set<NodeId>)
      requires Inv()
      modifies this`peers, this`disputes
      ensures Inv() && peers == old(peers) - stale && Withdrawn(old(disputes), disputes, stale)
    {
      disputes := DropVotes(disputes, stale, peers.Keys);
      peers := peers - stale;
    }

    /** The peers whose votes a new position s of ours moves: those that take it, if it is new. */
    ghost function Moves(s: TxSet): set<NodeId>
      reads this
    {
      if Have(s) then {} else Takers(peers, s)
    }

    /** updateOurPositions: forget stale peers, reconsider every dispute, and take the position
        our votes amount to.  `refresh` forces a new proposal with an unchanged set.  After we
        bowed out the votes are reconsidered, and the position stays. */
    method UpdateOurPositions(percentTime: int, proposing: bool, stale: set<NodeId>, closeTime: nat, refresh: bool)
        returns (ok: bool)
      requires Inv() && ours.Some?
      modifies this`peers, this`disputes, this`compares, this`acquired, this`ours, this`largest
      ensures Inv() && ours.Some? && (old(Live()) ==> ok)
      ensures peers == old(peers) - stale && compares == old(compares) && largest == old(largest)
      ensures acquired == old(acquired)[ours.value.position := true]
      ensures var next := ours.value.position;
              var moved := if old(Have(next)) then {} else Takers(peers, next);
              Reviewed(old(disputes), disputes, stale, moved, next, percentTime, proposing)
      ensures old(BowedOut()) ==> ours == old(ours)
      ensures old(BowedOut()) ==> (ok <==> OutOfStep(old(disputes), disputes, ours.value.position) == {})
      ensures old(Live()) ==> FollowsVotes(old(ours).value.position, ours.value.position, disputes)
      ensures old(Live()) ==>
        ours == if ours.value.position != old(ours).value.position || refresh
                then Some(Proposal(old(ours).value.sequence + 1, ours.value.position, closeTime))
                else old(ours)
    {
      RemoveStale(stale);
      ok := TakeVotedPosition(percentTime, proposing, closeTime, refresh);
    }

    method TakeVotedPosition(percentTime: int, proposing: bool, closeTime: nat, refresh: bool) returns (ok: bool)
      requires Inv() && ours.Some?
      modifies this`disputes, this`compares, this`acquired, this`ours, this`largest
      ensures Inv() && ours.Some? && (old(Live()) ==> ok) && compares == old(compares) && largest == old(largest)
      ensures acquired == old(acquired)[ours.value.position := true]
      ensures disputes.Keys == old(disputes).Keys
      ensures var next := ours.value.position;
        forall t | t in old(disputes) ::
          && disputes[t].ourVote == Reconsidered(old(disputes)[t], percentTime, proposing).ourVote
          && disputes[t].votes == WithVotes(old(disputes)[t].votes, old(Moves(next)), t in next)
      ensures old(BowedOut()) ==> ours == old(ours)
      ensures old(BowedOut()) ==> (ok <==> OutOfStep(old(disputes), disputes, ours.value.position) == {})
      ensures old(Live()) ==> FollowsVotes(old(ours).value.position, ours.value.position, disputes)
      ensures old(Live()) ==>
        ours == if ours.value.position != old(ours).value.position || refresh
                then Some(Proposal(old(ours).value.sequence + 1, ours.value.position, closeTime))
                else old(ours)
    {
      if BowedOut() {
        var next, changes;
        disputes, next, changes, ok := UpdateVotes(disputes, ours.value.position, percentTime, proposing);
        RevotedByNone(disputes, ours.value.position);
      } else {
        ok := TakeLivePosition(percentTime, proposing, closeTime, refresh);
      }
    }

    method TakeLivePosition(percentTime: int, proposing: bool, closeTime: nat, refresh: bool) returns (ok: bool)
      requires Inv() && Live()
      modifies this`disputes, this`compares, this`acquired, this`ours, this`largest
      ensures Inv() && ours.Some? && ok && compares == old(compares) && largest == old(largest)
      ensures acquired == old(acquired)[ours.value.position := true]
      ensures disputes.Keys == old(disputes).Keys
      ensures var next := ours.value.position;
        forall t | t in old(disputes) ::
          && disputes[t].ourVote == Reconsidered(old(disputes)[t], percentTime, proposing).ourVote
          && disputes[t].votes == WithVotes(old(disputes)[t].votes, old(Moves(next)), t in next)
      ensures FollowsVotes(old(ours).value.position, ours.value.position, disputes)
      ensures ours == if ours.value.position != old(ours).value.position || refresh
                      then Some(Proposal(old(ours).value.sequence + 1, ours.value.position, closeTime))
                      else old(ours)
    {
      var mine := ours.value.position;
      var next, changes;
      disputes, next, changes, ok := UpdateVotesInStep(disputes, mine, percentTime, proposing);
      RevotedByNone(disputes, mine);
      VotedPositionKeeps(old(disputes), disputes, mine, next, compares);
      if changes || refresh {
        Adopt(next, closeTime);
      }
    }

    /** changePosition, then the new set is ours. */
    method Adopt(next: TxSet, closeTime: nat)
      requires Bookkept() && Live() && OursIn(disputes, next) && (largest <= COMPARE_LIMIT && !lost ==> Covered(next))
      modifies this`disputes, this`compares, this`acquired, this`ours, this`largest
      ensures Inv() && ours == Some(Proposal(old(ours).value.sequence + 1, next, closeTime))
      ensures compares == old(compares) && largest == old(largest) && acquired == old(acquired)[next := true]
      ensures Revoted(old(disputes), disputes, old(Moves(next)), next)
    {
      RevotedByNone(disputes, next);
      ours := Some(Proposal(ours.value.sequence + 1, next, closeTime));
      MapComplete(next, true);
    }

    /** handleLCL drops peers and disputes but keeps the record of compared sets.  Completeness
        survives exactly when we bow out with it, have no position, or compared nothing but
        our own set. */
    method SwitchLcl(bowOut: bool)
      requires Inv()
      modifies this`peers, this`dead, this`disputes, this`closeTimes, this`ours, this`lost
      ensures Inv() && peers == map[] && disputes == map[] && dead == {} && closeTimes == map[]
      ensures ours == if bowOut && old(ours).Some? then Some(old(ours).value.(sequence := SEQ_LEAVE)) else old(ours)
      ensures Live() ==> (Covered(ours.value.position) <==> forall h | h in compares :: h == ours.value.position)
      ensures lost <==> old(lost) || (Live() && !Covered(ours.value.position))
    {
      if bowOut && ours.Some? {
        ours := Some(ours.value.(sequence := SEQ_LEAVE));
      }
      peers, disputes, closeTimes, dead := map[], map[], map[], {};
      if ours.Some? && !BowedOut() {
        assert forall h :: Diff(ours.value.position, h) <= {} <==> h == ours.value.position;
        lost := lost || !Covered(ours.value.position);
      }
    }

    /** leaveConsensus: if we are proposing, bow out of the position we have. */
    method LeaveConsensus(proposing: bool)
      requires Inv()
      modifies this`ours
      ensures Inv()
      ensures ours == if proposing && old(ours).Some? then Some(old(ours).value.(sequence := SEQ_LEAVE)) else old(ours)
    {
      if proposing && ours.Some? && !BowedOut() {
        ours := Some(ours.value.(sequence := SEQ_LEAVE));
      }
    }

    /** All transactions of the round are in u, so no comparison met more differences. */
    ghost predicate Within(u: TxSet)
      reads this
    {
      && disputes.Keys <= u && largest <= |u|
      && (ours.Some? ==> ours.value.position <= u)
      && forall p | p in peers :: peers[p].position <= u
    }

    /** What comparisons with held positions add stays in u. */
    lemma {:induction false} WithinAfter(ds: Disputes, n: nat, u: TxSet)
      requires ours.Some? && ours.value.position <= u && ds.Keys <= u && n <= |u|
      requires forall p | p in peers :: peers[p].position <= u
      requires Warranted(ds) && Met(n)
      ensures Within(u)
    {
      DifferencesWithin(ours.value.position, Held(peers, acquired), u);
      if largest != n {
        var h :| h in Held(peers, acquired) && largest == |Diff(ours.value.position, h)|;
        DiffWithin(ours.value.position, h, u);
      }
    }

    /** One event, in full.  Events that cannot occur are ignored: a second closing of the ledger, the
        timer before we have a position, the report that our own set, which the store was given, is
        invalid. */
    method Handle(e: Event, ghost u: TxSet) returns (crashed: bool)
      requires Inv()
      modifies this
      ensures Inv() && (old(Within(u)) && Mentions(e, u) ==> Within(u))
      ensures crashed <==> Crashes(e, old(Now()))
      ensures !crashed ==> Handled(e, old(Now()), Now())
      ensures !e.SwitchedLcl? ==> lost == old(lost)
      ensures e.SwitchedLcl? ==>
        (lost <==> old(lost) || (Live() && exists h | h in compares :: h != ours.value.position))
    {
      crashed := false;
      match e {
        case Arrived(txs, usable) =>
          HandleArrived(txs, usable, u);
        case Proposed(peer, proposal, inbound) =>
          HandleProposed(peer, proposal, inbound, u);
        case ClosedLedger(txs, closeTime) =>
          crashed := HandleClose(txs, closeTime, u);
        case Timer(percentTime, proposing, stale, closeTime, refresh) =>
          HandleTimer(percentTime, proposing, stale, closeTime, refresh, u);
        case SwitchedLcl(bowOut) =>
          SwitchLcl(bowOut);
        case Left(proposing) =>
          LeaveConsensus(proposing);
      }
    }

    method HandleArrived(txs: TxSet, usable: bool, ghost u: TxSet)
      requires Inv()
      modifies this`disputes, this`compares, this`acquired, this`largest
      ensures Inv() && (old(Within(u)) && txs <= u ==> Within(u))
      ensures AfterArrived(old(Now()), Now(), txs, usable)
    {
      if usable || ours.None? || txs != ours.value.position {
        if ours.Some? && ours.value.position <= u && txs <= u { DiffWithin(ours.value.position, txs, u); }
        MapComplete(txs, usable);
      }
    }

    method HandleProposed(p: NodeId, proposal: Proposal, inbound: bool, ghost u: TxSet)
      requires Inv()
      modifies this`peers, this`dead, this`disputes, this`acquired, this`closeTimes
      ensures Inv() && (old(Within(u)) && proposal.position <= u ==> Within(u))
      ensures AfterProposed(old(Now()), Now(), p, proposal, inbound)
    {
      var relay := PeerPosition(p, proposal, inbound);
    }

    method HandleClose(txs: TxSet, closeTime: nat, ghost u: TxSet) returns (crashed: bool)
      requires Inv()
      modifies this`disputes, this`compares, this`acquired, this`ours, this`largest
      ensures Inv() && (old(Within(u)) && txs <= u ==> Within(u))
      ensures crashed <==> old(ours).None? && Poisoned(peers, old(acquired), txs)
      ensures !crashed ==> AfterClose(old(Now()), Now(), txs, closeTime)
    {
      crashed := false;
      if ours.None? {
        ghost var n, before := largest, Within(u);
        crashed := TakeInitialPosition(txs, closeTime);
        if before && txs <= u { WithinAfter(map[], n, u); }
      }
    }

    method Review(percentTime: int, proposing: bool, stale: set<NodeId>, closeTime: nat, refresh: bool)
      requires Inv() && ours.Some?
      modifies this`peers, this`disputes, this`compares, this`acquired, this`ours, this`largest
      ensures Inv() && ours.Some? && compares == old(compares) && largest == old(largest)
      ensures disputes.Keys == old(disputes).Keys
      ensures AfterReview(old(Now()), Now(), percentTime, proposing, stale, closeTime, refresh, disputes)
    {
      var ok := UpdateOurPositions(percentTime, proposing, stale, closeTime, refresh);
    }

    method CompareRest(ghost u: TxSet)
      requires Inv() && ours.Some?
      modifies this`disputes, this`compares, this`largest
      ensures Inv() && (old(Within(u)) ==> Within(u))
      ensures AfterCount(Now(), old(disputes), old(compares))
    {
      ghost var before, n, ds := Within(u), largest, disputes;
      var agree, disagree := CountAgreement();
      if before { WithinAfter(ds, n, u); }
    }

    method HandleTimer(percentTime: int, proposing: bool, stale: set<NodeId>, closeTime: nat, refresh: bool,
                       ghost u: TxSet)
      requires Inv()
      modifies this`peers, this`disputes, this`compares, this`acquired, this`ours, this`largest
      ensures Inv() && (old(Within(u)) ==> Within(u))
      ensures AfterTimer(old(Now()), Now(), percentTime, proposing, stale, closeTime, refresh)
    {
      if ours.Some? {
        ghost var a := Now();
        Review(percentTime, proposing, stale, closeTime, refresh);
        ghost var mid := Now();
        ReviewWithin(a, mid, percentTime, proposing, stale, closeTime, refresh, u);
        CompareRest(u);
        TimerFrom(a, mid, Now(), percentTime, proposing, stale, closeTime, refresh);
      }
    }

    /** In every run, up to a crash, each event is handled as it should be, and
        - the votes are booked right, and our vote on each dispute is membership in our set until
          we bow out;
        - our set differs from every compared set on disputed transactions only, if the ledger is
          not switched and no comparison met more than 16384 differences, as is the case when at
          most that many transactions are mentioned. */
    method Run(events: seq<Event>, ghost u: TxSet) returns (crashed: bool, ghost trace: seq<Round>)
      requires Inv()
      modifies this
      ensures Inv() && (old(Within(u)) && AllMention(events, u) ==> Within(u))
      ensures Traced(events, trace) && trace[0] == old(Now())
      ensures if crashed then |trace| <= |events| && Crashes(events[|trace| - 1], trace[|trace| - 1])
              else |trace| == |events| + 1 && trace[|events|] == Now()
      ensures NoSwitch(events) ==> lost == old(lost)
      ensures NoSwitch(events) && !old(lost) && Live() && largest <= COMPARE_LIMIT ==> Covered(ours.value.position)
      ensures NoSwitch(events) && !old(lost) && Live() ==>
        old(Within(u)) && AllMention(events, u) && |u| <= COMPARE_LIMIT ==> Covered(ours.value.position)
    {
      crashed, trace := false, [Now()];
      var i := 0;
      while i < |events| && !crashed
        invariant i <= |events| && Inv()
        invariant old(Within(u)) && AllMention(events, u) ==> Within(u)
        invariant NoSwitch(events) ==> lost == old(lost)
        invariant Traced(events, trace) && trace[0] == old(Now())
        invariant if crashed then |trace| == i && Crashes(events[i - 1], trace[i - 1])
                  else |trace| == i + 1 && trace[i] == Now()
      {
        assert events[i] in events;
        crashed := Handle(events[i], u);
        if !crashed { trace := trace + [Now()]; }
        i := i + 1;
      }
    }
  }

  /** A set found invalid, a peer that proposes it, and the close of the ledger: a crash. */
  method InvalidPositionCrashes(h: TxSet, p: NodeId, initial: TxSet) returns (crashed: bool)
    requires h != initial
    ensures crashed
  {
    var round := new LedgerConsensus();
    round.MapComplete(h, false);
    var relay := round.PeerPosition(p, Proposal(0, h, 0), false);
    assert round.peers[p].position == h;
    crashed := round.TakeInitialPosition(initial, 0);
  }

  // ---- Item operations that fail after a bow-out ----

  /** The vote of a single peer decides for a node that does not propose. */
  lemma {:induction false} LoneVote(p: NodeId, yes: bool, percentTime: int)
    ensures var votes := map[p := yes];
            UpdatedVote(|Voters(votes, true)|, |Voters(votes, false)|, !yes, percentTime, false) == yes
  {
    var votes := map[p := yes];
    assert Voters(votes, yes) == {p} && Voters(votes, !yes) == {};
  }

  /** One dispute on t, on which peer p alone has voted. */
  ghost predicate LoneDispute(ds: Disputes, t: TxId, p: NodeId, yes: bool, ourVote: bool) {
    ds.Keys == {t} && ds[t].votes == map[p := yes] && ds[t].ourVote == ourVote
  }

  /** Peer p proposes the empty set. */
  method StartAgainst(p: NodeId) returns (round: LedgerConsensus)
    ensures fresh(round) && round.Inv() && round.ours == None && round.peers == map[p := Proposal(0, {}, 0)]
    ensures round.dead == {} && round.acquired == map[{} := true] && round.largest == 0 && !round.lost
  {
    round := new LedgerConsensus();
    var relay := round.PeerPosition(p, Proposal(0, {}, 0), true);
  }

  /** We close with a transaction that it does not have. */
  method CloseAgainst(p: NodeId, t: TxId) returns (round: LedgerConsensus)
    ensures fresh(round) && round.Inv() && round.ours == Some(Proposal(0, {t}, 0))
    ensures round.peers == map[p := Proposal(0, {}, 0)] && round.dead == {} && round.Have({t})
    ensures LoneDispute(round.disputes, t, p, false, true)
  {
    round := StartAgainst(p);
    var crashed := round.TakeInitialPosition({t}, 0);
    OnlyEmptyHeld(round.peers, round.acquired, p);
    DiffOfOne(t);
    assert round.Covered({t}) && {} in round.compares;
    OpenedLone(round.disputes, round.peers, round.acquired, p, t);
  }

  lemma {:induction false} OnlyEmptyHeld(peers: map<NodeId, Proposal>, acquired: map<TxSet, bool>, p: NodeId)
    requires peers == map[p := Proposal(0, {}, 0)] && {} in acquired && acquired[{}]
    ensures Held(peers, acquired) == {{}} && !Poisoned(peers, acquired, {})
  {
    HeldHere(peers, p, acquired);
  }

  lemma {:induction false} DiffOfOne(t: TxId)
    ensures Diff({t}, {}) == {t} && |Diff({t}, {})| == 1 && Differences({t}, {{}}) == {t}
  {
    assert Diff({t}, {}) == {t};
  }

  lemma {:induction false} OpenedLone(ds: Disputes, peers: map<NodeId, Proposal>, acquired: map<TxSet, bool>, p: NodeId,
                                      t: TxId)
    requires peers == map[p := Proposal(0, {}, 0)] && {} in acquired && acquired[{}]
    requires ds.Keys == {t} && Opened(map[], ds, peers, acquired, {t})
    ensures LoneDispute(ds, t, p, false, true)
  {
    assert Starts(ds[t], t, peers, acquired, {t});
    assert forall q :: Shows(peers, acquired, q) <==> q == p;
    assert ds[t].votes == map[p := false];
  }

  /** A timer turns our vote to that of the peer.  Taking the transaction out of our set succeeds;
      putting it in, where it still is, fails. */
  method Turn(round: LedgerConsensus, p: NodeId, t: TxId, yes: bool, percentTime: int) returns (ok: bool)
    requires round.Inv() && round.BowedOut() && round.ours.value.position == {t}
    requires LoneDispute(round.disputes, t, p, yes, !yes)
    modifies round
    ensures round.Inv() && round.ours == old(round.ours)
    ensures round.peers == old(round.peers) && round.dead == old(round.dead)
    ensures LoneDispute(round.disputes, t, p, yes, yes) && ok == !yes
  {
    LoneVote(p, yes, percentTime);
    ghost var ds := round.disputes;
    ok := round.UpdateOurPositions(percentTime, false, {}, 0, false);
    LoneTurned(ds, round.disputes, p, t, yes, percentTime);
  }

  lemma {:induction false} LoneTurned(ds: Disputes, r: Disputes, p: NodeId, t: TxId, yes: bool, percentTime: int)
    requires LoneDispute(ds, t, p, yes, !yes) && Reviewed(ds, r, {}, {}, {t}, percentTime, false)
    ensures LoneDispute(r, t, p, yes, yes) && (OutOfStep(ds, r, {t}) == {} <==> !yes)
  {
    LoneVote(p, yes, percentTime);
    assert ds[t].votes - {} == ds[t].votes && WithVotes(ds[t].votes, {}, true) == ds[t].votes;
    assert t in Flipped(ds, r);
    if yes { assert t in OutOfStep(ds, r, {t}); }
  }

  /** Close, leave, a timer that takes our vote down, the peer comes round, a timer that takes our
      vote up again: the transaction is still in our set, so adding it fails. */
  method FailsAfterBowOut(p: NodeId, t: TxId, percentTime: int) returns (ok: bool)
    ensures !ok
  {
    var round := CloseAgainst(p, t);
    round.LeaveConsensus(true);
    ok := Turn(round, p, t, false, percentTime);
    ComeRound(round, p, t);
    ok := Turn(round, p, t, true, percentTime);
  }

  method ComeRound(round: LedgerConsensus, p: NodeId, t: TxId)
    requires round.Inv() && round.BowedOut() && round.ours.value.position == {t} && round.dead == {}
    requires round.peers == map[p := Proposal(0, {}, 0)] && LoneDispute(round.disputes, t, p, false, false)
    modifies round
    ensures round.Inv() && round.ours == old(round.ours) && LoneDispute(round.disputes, t, p, true, false)
  {
    VotedTallies(round.disputes[t], p, true);
    var relay := round.PeerPosition(p, Proposal(1, {t}, 0), false);
  }
}
