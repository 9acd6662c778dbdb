/** DisputedTx: the votes on one disputed transaction and our own position on it. */
module Dispute {

  type NodeId = nat

  const AV_INIT_CONSENSUS_PCT := 50
  const AV_MID_CONSENSUS_TIME := 50
  const AV_MID_CONSENSUS_PCT := 65
  const AV_LATE_CONSENSUS_TIME := 85
  const AV_LATE_CONSENSUS_PCT := 70
  const AV_STUCK_CONSENSUS_TIME := 200
  const AV_STUCK_CONSENSUS_PCT := 95

  /** The state of one dispute. */
  datatype Disputed = Disputed(votes: map<NodeId, bool>, yays: int, nays: int, ourVote: bool)

  function Voters(votes: map<NodeId, bool>, yes: bool): set<NodeId> {
    set p | p in votes && votes[p] == yes
  }

  /** The counters are the tallies of the votes. */
  predicate Tallied(d: Disputed) {
    d.yays == |Voters(d.votes, true)| && d.nays == |Voters(d.votes, false)|
  }

  /** A vote recorded, with the counters moved as setVote moves them. */
  function Voted(d: Disputed, peer: NodeId, yes: bool): Disputed {
    if peer !in d.votes then
      (if yes then d.(votes := d.votes[peer := yes], yays := d.yays + 1)
       else d.(votes := d.votes[peer := yes], nays := d.nays + 1))
    else if yes && !d.votes[peer] then
      d.(votes := d.votes[peer := true], yays := d.yays + 1, nays := d.nays - 1)
    else if !yes && d.votes[peer] then
      d.(votes := d.votes[peer := false], yays := d.yays - 1, nays := d.nays + 1)
    else d
  }

  function Unvoted(d: Disputed, peer: NodeId): Disputed {
    if peer !in d.votes then d
    else if d.votes[peer] then d.(votes := d.votes - {peer}, yays := d.yays - 1)
    else d.(votes := d.votes - {peer}, nays := d.nays - 1)
  }

  /** setVote records the vote and keeps the counters equal to the tallies. */
  lemma {:induction false} VotedTallies(d: Disputed, peer: NodeId, yes: bool)
    requires Tallied(d)
    ensures Tallied(Voted(d, peer, yes))
    ensures Voted(d, peer, yes).votes == d.votes[peer := yes] && Voted(d, peer, yes).ourVote == d.ourVote
  {
    if peer !in d.votes {
      NewVoter(d.votes, peer, yes);
    } else if d.votes[peer] != yes {
      NewVoter(d.votes - {peer}, peer, yes);
      LostVoter(d.votes, peer);
      assert d.votes[peer := yes] == (d.votes - {peer})[peer := yes];
    } else {
      assert d.votes[peer := yes] == d.votes;
    }
  }

  lemma {:induction false} NewVoter(votes: map<NodeId, bool>, peer: NodeId, yes: bool)
    requires peer !in votes
    ensures |Voters(votes[peer := yes], yes)| == |Voters(votes, yes)| + 1
    ensures |Voters(votes[peer := yes], !yes)| == |Voters(votes, !yes)|
  {
    assert Voters(votes[peer := yes], yes) == Voters(votes, yes) + {peer};
    assert Voters(votes[peer := yes], !yes) == Voters(votes, !yes);
  }

  lemma {:induction false} LostVoter(votes: map<NodeId, bool>, peer: NodeId)
    requires peer in votes
    ensures |Voters(votes - {peer}, votes[peer])| == |Voters(votes, votes[peer])| - 1
    ensures |Voters(votes - {peer}, !votes[peer])| == |Voters(votes, !votes[peer])|
  {
    assert Voters(votes - {peer}, votes[peer]) == Voters(votes, votes[peer]) - {peer};
    assert Voters(votes - {peer}, !votes[peer]) == Voters(votes, !votes[peer]);
  }

  lemma {:induction false} UnvotedTallies(d: Disputed, peer: NodeId)
    requires Tallied(d)
    ensures Tallied(Unvoted(d, peer))
    ensures Unvoted(d, peer).votes == d.votes - {peer} && Unvoted(d, peer).ourVote == d.ourVote
  {
    if peer in d.votes {
      LostVoter(d.votes, peer);
    } else {
      assert d.votes - {peer} == d.votes;
    }
  }

  // ---- Our own vote ----

  function Threshold(percentTime: int): int {
    if percentTime < AV_MID_CONSENSUS_TIME then AV_INIT_CONSENSUS_PCT
    else if percentTime < AV_LATE_CONSENSUS_TIME then AV_MID_CONSENSUS_PCT
    else if percentTime < AV_STUCK_CONSENSUS_TIME then AV_LATE_CONSENSUS_PCT
    else AV_STUCK_CONSENSUS_PCT
  }

  /** The percentage of nodes voting yes, counting us. */
  function Weight(yays: nat, nays: nat, ourVote: bool): int {
    (yays * 100 + if ourVote then 100 else 0) / (nays + yays + 1)
  }

  /** The rule without its shortcuts. */
  function Decide(yays: nat, nays: nat, ourVote: bool, percentTime: int, proposing: bool): bool {
    if proposing then Weight(yays, nays, ourVote) > Threshold(percentTime) else yays > nays
  }

  /** updateVote as written: unanimous opinions that match ours are settled at once. */
  function UpdatedVote(yays: nat, nays: nat, ourVote: bool, percentTime: int, proposing: bool): bool {
    if ourVote && nays == 0 then ourVote
    else if !ourVote && yays == 0 then ourVote
    else Decide(yays, nays, ourVote, percentTime, proposing)
  }

  lemma {:induction false} WeightRange(yays: nat, nays: nat, ourVote: bool)
    ensures 0 <= Weight(yays, nays, ourVote) <= 100
    ensures Weight(yays, nays, false) <= Weight(yays, nays, true)
    ensures ourVote && nays == 0 ==> Weight(yays, nays, ourVote) == 100
    ensures !ourVote && yays == 0 ==> Weight(yays, nays, ourVote) == 0
  {
    var n := nays + yays + 1;
    var low, high, all := yays * 100, yays * 100 + 100, n * 100;
    assert Weight(yays, nays, false) == low / n && Weight(yays, nays, true) == high / n;
    assert 0 <= low / n <= high / n <= all / n == 100 by {
      DivideMonotone(low, high, n);
      DivideMonotone(high, all, n);
      DivideExact(n);
    }
    assert nays == 0 ==> high == all;
  }

  lemma {:induction false} DivideMonotone(a: nat, b: nat, n: nat)
    requires a <= b && n > 0
    ensures 0 <= a / n <= b / n
  {
    QuotientOrder(n, a / n, a % n, b / n, b % n);
  }

  lemma {:induction false} MultipleAbove(n: nat, p: nat, q: nat)
    requires p > q
    ensures n * p >= n * q + n
  {
    assert n * p == n * q + n * (p - q);
    assert p - q >= 1;
  }

  lemma {:induction false} QuotientOrder(n: nat, p: nat, x: nat, q: nat, y: nat)
    requires n > 0 && x < n && y < n && n * p + x <= n * q + y
    ensures p <= q
  {
    if p > q {
      MultipleAbove(n, p, q);
    }
  }

  lemma {:induction false} DivideExact(n: nat)
    requires n > 0
    ensures n * 100 / n == 100
  {
  }

  /** The share of the nodes, ourselves included, that must vote yes while we propose: over 50, 65, 70
      or 95 percent, in whole percents, as time goes on. */
  function ShareNeeded(percentTime: int): nat {
    if percentTime < 50 then 51 else if percentTime < 85 then 66 else if percentTime < 200 then 71 else 96
  }

  lemma {:induction false} QuotientReaches(x: nat, n: nat, q: nat)
    requires n > 0
    ensures x / n >= q <==> x >= n * q
  {
    if x >= n * q {
      QuotientOrder(n, q, 0, x / n, x % n);
    } else if x / n >= q {
      QuotientOrder(n, q, 0, x / n, x % n);
      if x / n > q { MultipleAbove(n, x / n, q); }
    }
  }

  /** A proposing node says yes exactly when the share is reached, any other node exactly when most
      voters do. */
  lemma {:induction false} DecidesExactly(yays: nat, nays: nat, ourVote: bool, percentTime: int, proposing: bool)
    ensures Decide(yays, nays, ourVote, percentTime, proposing) <==>
            if proposing
            then 100 * (yays + if ourVote then 1 else 0) >= (yays + nays + 1) * ShareNeeded(percentTime)
            else yays > nays
  {
    if proposing {
      var n, x := nays + yays + 1, yays * 100 + if ourVote then 100 else 0;
      QuotientReaches(x, n, ShareNeeded(percentTime));
      assert Weight(yays, nays, ourVote) == x / n;
    }
  }

  /** While proposing, the shortcuts agree with the threshold rule; otherwise they differ
      exactly when we vote yes and no peer has voted at all. */
  lemma {:induction false} ShortcutsAgree(yays: nat, nays: nat, ourVote: bool, percentTime: int, proposing: bool)
    ensures (UpdatedVote(yays, nays, ourVote, percentTime, proposing) ==
             Decide(yays, nays, ourVote, percentTime, proposing)) <==>
            (proposing || !(ourVote && yays == 0 && nays == 0))
  {
    WeightRange(yays, nays, ourVote);
  }

  /** Our vote after each of a series of updates with the peers' votes fixed. */
  function Avalanche(yays: nat, nays: nat, ourVote: bool, percents: seq<int>): (votes: seq<bool>)
    ensures |votes| == |percents|
    decreases |percents|
  {
    if percents == [] then []
    else
      var v := UpdatedVote(yays, nays, ourVote, percents[0], true);
      [v] + Avalanche(yays, nays, v, percents[1..])
  }

  predicate NonDecreasing(s: seq<int>) {
    forall i, j | 0 <= i < j < |s| :: s[i] <= s[j]
  }

  /** Once an update leaves us at no, every later one does. */
  lemma {:induction false} NoIsFinal(yays: nat, nays: nat, ourVote: bool, percents: seq<int>, i: nat, j: nat)
    requires NonDecreasing(percents) && i <= j < |percents|
    requires !Avalanche(yays, nays, ourVote, percents)[i]
    ensures !Avalanche(yays, nays, ourVote, percents)[j]
    decreases |percents|, j
  {
    var v := UpdatedVote(yays, nays, ourVote, percents[0], true);
    WeightRange(yays, nays, ourVote);
    WeightRange(yays, nays, v);
    if i > 0 {
      NoIsFinal(yays, nays, v, percents[1..], i - 1, j - 1);
    } else if j > 0 {
      StaysNo(yays, nays, percents[1..], percents[0], j - 1);
    }
  }

  lemma {:induction false} StaysNo(yays: nat, nays: nat, percents: seq<int>, since: int, j: nat)
    requires Weight(yays, nays, false) <= Threshold(since)
    requires forall i | 0 <= i < |percents| :: since <= percents[i]
    requires j < |percents|
    ensures !Avalanche(yays, nays, false, percents)[j]
  {
    WeightRange(yays, nays, false);
    if j > 0 {
      assert forall i | 0 <= i < |percents[1..]| :: percents[1..][i] == percents[i + 1];
      StaysNo(yays, nays, percents[1..], since, j - 1);
    }
  }

  function Changes(from: bool, votes: seq<bool>): nat
    decreases |votes|
  {
    if votes == [] then 0
    else (if votes[0] != from then 1 else 0) + Changes(votes[0], votes[1..])
  }

  lemma {:induction false} ChangesOfNoes(votes: seq<bool>)
    requires forall i | 0 <= i < |votes| :: !votes[i]
    ensures Changes(false, votes) == 0
  {
    if votes != [] {
      ChangesOfNoes(votes[1..]);
    }
  }

  /** Avalanche stability: with fixed peer votes and time moving forward we change our vote at
      most twice, at most once when we start at yes, and a yes given up never returns. */
  lemma {:induction false} AvalancheStable(yays: nat, nays: nat, ourVote: bool, percents: seq<int>)
    requires NonDecreasing(percents)
    ensures Changes(ourVote, Avalanche(yays, nays, ourVote, percents)) <= if ourVote then 1 else 2
    ensures var votes := Avalanche(yays, nays, ourVote, percents);
            forall i, j | 0 <= i < j < |votes| && !votes[i] :: !votes[j]
    decreases |percents|
  {
    var votes := Avalanche(yays, nays, ourVote, percents);
    forall i, j | 0 <= i < j < |votes| && !votes[i]
      ensures !votes[j]
    {
      NoIsFinal(yays, nays, ourVote, percents, i, j);
    }
    if percents != [] {
      if votes[0] {
        AvalancheStable(yays, nays, true, percents[1..]);
      } else {
        assert forall i | 0 <= i < |votes[1..]| :: votes[1..][i] == votes[i + 1];
        ChangesOfNoes(votes[1..]);
      }
    }
  }

  class DisputedTx {
    var votes: map<NodeId, bool>
    var yays: int
    var nays: int
    var ourVote: bool

    function Value(): Disputed
      reads this
    {
      Disputed(votes, yays, nays, ourVote)
    }

    constructor (ourVote: bool)
      ensures Value() == Disputed(map[], 0, 0, ourVote) && Tallied(Value())
    {
      this.ourVote := ourVote;
      votes, yays, nays := map[], 0, 0;
    }

    method SetVote(peer: NodeId, yes: bool)
      requires Tallied(Value())
      modifies this
      ensures Value() == Voted(old(Value()), peer, yes)
      ensures Tallied(Value()) && votes == old(votes)[peer := yes] && ourVote == old(ourVote)
    {
      VotedTallies(Value(), peer, yes);
      if peer !in votes {
        votes := votes[peer := yes];
        if yes { yays := yays + 1; } else { nays := nays + 1; }
      } else if yes && !votes[peer] {
        nays, yays := nays - 1, yays + 1;
        votes := votes[peer := true];
      } else if !yes && votes[peer] {
        nays, yays := nays + 1, yays - 1;
        votes := votes[peer := false];
      }
    }

    method UnVote(peer: NodeId)
      requires Tallied(Value())
      modifies this
      ensures Value() == Unvoted(old(Value()), peer)
      ensures Tallied(Value()) && votes == old(votes) - {peer} && ourVote == old(ourVote)
    {
      UnvotedTallies(Value(), peer);
      if peer in votes {
        if votes[peer] { yays := yays - 1; } else { nays := nays - 1; }
        votes := votes - {peer};
      }
    }

    method UpdateVote(percentTime: int, proposing: bool) returns (changed: bool)
      requires Tallied(Value())
      modifies this`ourVote
      ensures ourVote == UpdatedVote(yays, nays, old(ourVote), percentTime, proposing)
      ensures changed <==> ourVote != old(ourVote)
    {
      if ourVote && nays == 0 {
        return false;
      }
      if !ourVote && yays == 0 {
        return false;
      }
      var position;
      if proposing {
        var weight := (yays * 100 + if ourVote then 100 else 0) / (nays + yays + 1);
        if percentTime < AV_MID_CONSENSUS_TIME {
          position := weight > AV_INIT_CONSENSUS_PCT;
        } else if percentTime < AV_LATE_CONSENSUS_TIME {
          position := weight > AV_MID_CONSENSUS_PCT;
        } else if percentTime < AV_STUCK_CONSENSUS_TIME {
          position := weight > AV_LATE_CONSENSUS_PCT;
        } else {
          position := weight > AV_STUCK_CONSENSUS_PCT;
        }
      } else {
        position := yays > nays;
      }
      if position == ourVote {
        return false;
      }
      ourVote := position;
      return true;
    }
  }
}
