/** The choice of the close time in updateOurPositions. */
module CloseTime {
  import opened Dispute

  const AV_CT_CONSENSUS_PCT := 75

  /** How many of `size` participants make `percent`, rounded, at least one. */
  function ComputePercent(size: nat, percent: nat): nat {
    var result := (size * percent + percent / 2) / 100;
    if result == 0 then 1 else result
  }

  /** x of n participants are enough for the percentage p, give or take one and half a percent. */
  predicate Enough(x: int, n: nat, p: nat) {
    x >= 1 && 100 * (x + 1) > n * p + p / 2
  }

  /** The number computed is the least that is enough. */
  lemma {:induction false} PercentExactly(n: nat, p: nat, x: int)
    ensures x >= ComputePercent(n, p) <==> Enough(x, n, p)
    ensures var r := ComputePercent(n, p);
            r >= 1 && n * p + p / 2 < 100 * (r + 1) && (r > 1 ==> 100 * r <= n * p + p / 2)
  {
    var total := n * p + p / 2;
    assert 100 * (total / 100) <= total < 100 * (total / 100) + 100;
  }

  lemma {:induction false} EnoughExactly(n: nat, p: nat)
    ensures ComputePercent(n, p) >= 1 && forall x :: Enough(x, n, p) <==> x >= ComputePercent(n, p)
  {
    forall x
      ensures Enough(x, n, p) <==> x >= ComputePercent(n, p)
    {
      PercentExactly(n, p, x);
    }
  }

  /** Votes by close time; a time nobody named has none. */
  function VotesFor(m: map<nat, nat>, t: nat): nat {
    if t in m then m[t] else 0
  }

  /** Count the votes of the participants. */
  method Tally(times: seq<nat>) returns (m: map<nat, nat>)
    ensures forall t :: VotesFor(m, t) == multiset(times)[t]
  {
    m := map[];
    for i := 0 to |times|
      invariant forall t :: VotesFor(m, t) == multiset(times[..i])[t]
    {
      m := m[times[i] := VotesFor(m, times[i]) + 1];
      assert times[..i + 1] == times[..i] + [times[i]];
    }
    assert times[..|times|] == times;
  }

  lemma {:induction false} Least(s: set<nat>) returns (t: nat)
    requires s != {}
    ensures t in s && forall u | u in s :: t <= u
  {
    var x :| x in s;
    var rest := s - {x};
    assert s == rest + {x};
    t := x;
    if rest != {} {
      var w := Least(rest);
      if w < x { t := w; }
      assert forall u | u in s :: u == x || u in rest;
    }
  }

  /** t is the latest of the times with the most votes. */
  ghost predicate LatestBest(m: map<nat, nat>, t: nat) {
    && t in m
    && (forall u | u in m :: m[u] <= m[t])
    && (forall u | u in m && m[u] == m[t] :: u <= t)
  }

  /** Some time has at least n votes. */
  ghost predicate Reaches(m: map<nat, nat>, n: nat) {
    exists t :: t in m && m[t] >= n
  }

  /** The loop over the times in ascending order.  The threshold rises with each better time,
      so the last time to pass it is the latest of those with the most votes. */
  method BestTime(m: map<nat, nat>, threshVote: nat, threshConsensus: nat) returns (closeTime: nat, have: bool)
    ensures Reaches(m, threshVote) ==> LatestBest(m, closeTime)
    ensures !Reaches(m, threshVote) ==> closeTime == 0
    ensures have <==> Reaches(m, threshVote) && Reaches(m, threshConsensus)
  {
    closeTime, have := 0, false;
    var bar, todo := threshVote, m.Keys;
    ghost var seen, from := false, 0;
    while todo != {}
      invariant forall u :: u in todo <==> u in m && from <= u
      invariant forall u | u in m && u < from :: if seen then m[u] <= bar else m[u] < bar
      invariant seen ==> closeTime in m && closeTime < from && m[closeTime] == bar && threshVote <= bar
      invariant seen ==> forall u | u in m && u < from && m[u] == bar :: u <= closeTime
      invariant !seen ==> closeTime == 0 && bar == threshVote
      invariant have <==> seen && bar >= threshConsensus
      decreases |todo|
    {
      ghost var least := Least(todo);
      var t :| t in todo && forall u | u in todo :: t <= u;
      if m[t] >= bar {
        closeTime, bar, seen := t, m[t], true;
        if bar >= threshConsensus {
          have := true;
        }
      }
      todo, from := todo - {t}, t + 1;
    }
    assert forall u | u in m :: u !in todo && u < from;
  }

  /** The choice among the times named, with the two thresholds as numbers of votes. */
  method ChooseBy(times: seq<nat>, needed: nat, agreed: nat) returns (closeTime: nat, have: bool)
    requires needed > 0 && agreed > 0
    ensures var votes := multiset(times);
            && (forall t | votes[t] >= needed :: Latest(votes, closeTime))
            && ((forall t :: votes[t] < needed) ==> closeTime == 0)
            && (have <==> ((exists t :: votes[t] >= needed && votes[t] >= agreed) || votes[0] > agreed))
  {
    var m := Tally(times);
    ghost var votes := multiset(times);
    closeTime, have := BestTime(m, needed, agreed);
    ReachesVotes(m, votes, needed);
    ReachesVotes(m, votes, agreed);
    if Reaches(m, needed) { BestIsLatest(m, votes, closeTime); }
    if !have && VotesFor(m, 0) > agreed {
      closeTime, have := 0, true;
    }
  }

  /** The close time we move to, and whether it is agreed; `peers` are the rounded times of the
      peers, `ours` our own. */
  method ChooseCloseTime(peers: seq<nat>, ours: nat, proposing: bool, closePercent: int)
      returns (closeTime: nat, have: bool)
    ensures peers == [] ==> closeTime == ours && have
    ensures peers != [] ==>
      var votes := multiset(peers) + (if proposing then multiset{ours} else multiset{});
      var n, percent := |votes|, Threshold(closePercent);
      && (forall t | Enough(votes[t], n, percent) :: Latest(votes, closeTime))
      && ((forall t :: !Enough(votes[t], n, percent)) ==> closeTime == 0)
      && (have <==>
            || (exists t :: Enough(votes[t], n, percent) && Enough(votes[t], n, 75))
            || Enough(votes[0] as int - 1, n, 75))
  {
    if peers == [] {
      return ours, true;
    }
    var times := if proposing then peers + [ours] else peers;
    assert multiset(times) == multiset(peers) + (if proposing then multiset{ours} else multiset{});
    var needed := ComputePercent(|times|, Threshold(closePercent));
    var agreed := ComputePercent(|times|, AV_CT_CONSENSUS_PCT);
    EnoughExactly(|times|, Threshold(closePercent));
    EnoughExactly(|times|, AV_CT_CONSENSUS_PCT);
    closeTime, have := ChooseBy(times, needed, agreed);
  }

  /** t has the most votes, and no later time has as many. */
  ghost predicate Latest(votes: multiset<nat>, t: nat) {
    && (forall u :: votes[u] <= votes[t])
    && (forall u | votes[u] == votes[t] :: u <= t)
  }

  lemma {:induction false} ReachesVotes(m: map<nat, nat>, votes: multiset<nat>, n: nat)
    requires n > 0 && forall t :: VotesFor(m, t) == votes[t]
    ensures Reaches(m, n) <==> exists t :: votes[t] >= n
  {
    if t :| votes[t] >= n {
      assert VotesFor(m, t) == votes[t];
      assert t in m && m[t] >= n;
    }
    if Reaches(m, n) {
      var t :| t in m && m[t] >= n;
      assert VotesFor(m, t) == votes[t];
    }
  }

  lemma {:induction false} BestIsLatest(m: map<nat, nat>, votes: multiset<nat>, t: nat)
    requires LatestBest(m, t) && m[t] > 0 && forall u :: VotesFor(m, u) == votes[u]
    ensures Latest(votes, t)
  {
    assert VotesFor(m, t) == votes[t];
    forall u: nat
      ensures votes[u] <= votes[t] && (votes[u] == votes[t] ==> u <= t)
    {
      assert VotesFor(m, u) == votes[u];
    }
  }

  /** Two different times are both agreed on exactly when two participants name one each. */
  lemma {:induction false} TwoAgreedTimes(votes: multiset<nat>, t: nat, u: nat)
    requires t != u
    ensures Enough(votes[t], |votes|, 75) && Enough(votes[u], |votes|, 75) <==> votes == multiset{t, u}
  {
    var rest := votes - multiset{t}[t := votes[t]] - multiset{u}[u := votes[u]];
    assert votes == rest + multiset{t}[t := votes[t]] + multiset{u}[u := votes[u]];
    assert |votes| >= votes[t] + votes[u];
    if Enough(votes[t], |votes|, 75) && Enough(votes[u], |votes|, 75) {
      assert |votes| == 2;
      assert rest == multiset{};
    }
  }
}
