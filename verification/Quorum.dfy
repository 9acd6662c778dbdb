/** The 80% rule: when a node declares consensus, and when two nodes cannot disagree. */
module Quorum {
  import opened Dispute
  import opened Consensus

  const LEDGER_MIN_CONSENSUS := 2000

  /** The outcomes of ContinuousLedgerTiming::haveConsensus: no consensus yet, consensus, or
      the others have moved on without us. */
  datatype Verdict = NotYet | Normal | MovedOn

  function HaveConsensus(previousProposers: nat, currentProposers: nat, currentAgree: nat, currentFinished: nat,
                         previousAgreeTime: int, currentAgreeTime: int): Verdict
  {
    if currentAgreeTime <= LEDGER_MIN_CONSENSUS then NotYet
    else if && currentProposers < previousProposers * 3 / 4
            && currentAgreeTime < previousAgreeTime + LEDGER_MIN_CONSENSUS
    then NotYet
    else if (currentAgree * 100 + 100) / (currentProposers + 1) > 80 then Normal
    else if currentFinished * 100 / (currentProposers + 1) > 80 then MovedOn
    else NotYet
  }

  /** The verdict in full.  We wait for two seconds, and for two seconds beyond the last round while
      fewer than three quarters of its proposers have shown up; then 81 percent, ourselves included,
      decide for our set, and 81 percent that have finished without us that they moved on. */
  lemma {:induction false} VerdictExactly(previousProposers: nat, currentProposers: nat, currentAgree: nat,
                                          currentFinished: nat, previousAgreeTime: int, currentAgreeTime: int)
    ensures var verdict := HaveConsensus(previousProposers, currentProposers, currentAgree, currentFinished,
                                         previousAgreeTime, currentAgreeTime);
            var n, missing := currentProposers + 1, 4 * (currentProposers + 1) <= 3 * previousProposers;
            var waits := currentAgreeTime <= 2000 || (missing && currentAgreeTime < previousAgreeTime + 2000);
            && (verdict == Normal <==> !waits && 100 * (currentAgree + 1) >= n * 81)
            && (verdict == MovedOn <==>
                  !waits && 100 * (currentAgree + 1) < n * 81 && 100 * currentFinished >= n * 81)
  {
    QuotientReaches(currentAgree * 100 + 100, currentProposers + 1, 81);
    QuotientReaches(currentFinished * 100, currentProposers + 1, 81);
  }

  /** What one node sees: the peers' proposals and its own set. */
  datatype View = View(self: NodeId, peers: map<NodeId, Proposal>, mine: TxSet)

  /** The node decides on the counts haveConsensus gathers, at some point of some round. */
  ghost predicate Decided(v: View) {
    exists previous: nat, finished: nat, before: int, now: int ::
      HaveConsensus(previous, |v.peers|, |Takers(v.peers, v.mine)|, finished, before, now) == Normal
  }

  function Participants(v: View): set<NodeId> {
    v.peers.Keys + {v.self}
  }

  function Shown(v: View, p: NodeId): TxSet
    requires p in Participants(v)
  {
    if p == v.self then v.mine else v.peers[p].position
  }

  /** The participants a node counts for its own set. */
  function Supporters(v: View): set<NodeId> {
    Takers(v.peers, v.mine) + {v.self}
  }

  /** Whoever takes part in both rounds shows both nodes the same position. */
  ghost predicate Consistent(v: View, w: View) {
    forall p | p in Participants(v) && p in Participants(w) :: Shown(v, p) == Shown(w, p)
  }

  /** A normal verdict means that at least 81% of the participants support the set. */
  lemma {:induction false} DecidedSupport(v: View)
    requires Decided(v) && v.self !in v.peers
    ensures 100 * |Supporters(v)| >= 81 * |Participants(v)|
  {
    var a, n := |Takers(v.peers, v.mine)|, |v.peers|;
    assert |Supporters(v)| == a + 1;
    assert |Participants(v)| == n + 1;
    QuotientReaches(a * 100 + 100, n + 1, 81);
  }

  lemma {:induction false} SupportWithin(v: View)
    ensures Supporters(v) <= Participants(v)
  {
  }

  lemma {:induction false} SupporterShows(v: View, p: NodeId)
    requires p in Supporters(v)
    ensures p in Participants(v) && Shown(v, p) == v.mine
  {
  }

  /** Nodes with different sets share no supporter. */
  lemma {:induction false} SupportersDisjoint(v: View, w: View)
    requires Consistent(v, w) && v.mine != w.mine
    ensures Supporters(v) !! Supporters(w)
  {
    forall p | p in Supporters(v)
      ensures p !in Supporters(w)
    {
      SupporterShows(v, p);
      if p in Supporters(w) { SupporterShows(w, p); }
    }
  }

  /** No conflicting consensus: two nodes that both reach a normal verdict have the same set
      whenever more than 19% of the sum of their participants is shared. */
  lemma {:induction false} NoConflictingConsensus(v: View, w: View)
    requires v.self !in v.peers && w.self !in w.peers
    requires Decided(v) && Decided(w) && Consistent(v, w)
    requires 100 * |Participants(v) * Participants(w)| > 19 * (|Participants(v)| + |Participants(w)|)
    ensures v.mine == w.mine
  {
    if v.mine != w.mine {
      SupportersDisjoint(v, w);
      SupportBound(v, w);
    }
  }

  lemma {:induction false} SupportBound(v: View, w: View)
    requires v.self !in v.peers && w.self !in w.peers
    requires Decided(v) && Decided(w) && Supporters(v) !! Supporters(w)
    ensures 100 * |Participants(v) * Participants(w)| <= 19 * (|Participants(v)| + |Participants(w)|)
  {
    var p, q, s, t := Participants(v), Participants(w), Supporters(v), Supporters(w);
    DecidedSupport(v);
    DecidedSupport(w);
    SupportWithin(v);
    SupportWithin(w);
    SubsetSize(s + t, p + q);
    assert |s + t| == |s| + |t|;
    assert |p + q| == |p| + |q| - |p * q|;
  }

  // ---- The bound is tight ----

  function Interval(lo: nat, hi: nat): (s: set<nat>)
    requires lo <= hi
    ensures |s| == hi - lo
    ensures forall i :: i in s <==> lo <= i < hi
    decreases hi - lo
  {
    if lo == hi then {} else Interval(lo, hi - 1) + {hi - 1}
  }

  lemma {:induction false} IntervalsMeet(a: nat, b: nat, c: nat, d: nat)
    requires a <= b <= c <= d
    ensures Interval(a, c) * Interval(b, d) == Interval(b, c)
  {
  }

  /** Nodes below 81 k propose nothing, the others propose one transaction. */
  function Split(k: nat, p: NodeId): TxSet {
    if p < 81 * k then {} else {1}
  }

  /** A node whose participants are the nodes from lo up to hi. */
  function Seen(k: nat, self: NodeId, lo: nat, hi: nat): View
    requires lo <= hi
  {
    View(self, map p | p in Interval(lo, hi) && p != self :: Proposal(0, Split(k, p), 0), Split(k, self))
  }

  lemma {:induction false} SeenCounts(k: nat, self: NodeId, lo: nat, hi: nat, own: set<nat>)
    requires lo <= self < hi && own <= Interval(lo, hi) && self in own
    requires forall p | p in Interval(lo, hi) :: p in own <==> Split(k, p) == Split(k, self)
    ensures var v := Seen(k, self, lo, hi);
            && v.self !in v.peers && Participants(v) == Interval(lo, hi)
            && |v.peers| == hi - lo - 1 && |Takers(v.peers, v.mine)| == |own| - 1
  {
    var v := Seen(k, self, lo, hi);
    assert v.peers.Keys == Interval(lo, hi) - {self};
    assert Takers(v.peers, v.mine) == own - {self};
  }

  lemma {:induction false} ExactQuotient(m: nat, q: nat)
    requires m > 0
    ensures m * q / m == q
  {
    var x := m * q;
    QuotientOrder(m, q, 0, x / m, x % m);
    QuotientOrder(m, x / m, x % m, q, 0);
  }

  /** Two such nodes see each shared participant alike. */
  lemma {:induction false} SeenConsistent(k: nat, self: NodeId, lo: nat, hi: nat, self': NodeId, lo': nat, hi': nat)
    requires lo <= self < hi && lo' <= self' < hi'
    ensures Consistent(Seen(k, self, lo, hi), Seen(k, self', lo', hi'))
  {
  }

  /** 81 of 100 is a normal verdict, at any scale. */
  lemma {:induction false} EightyOneDecides(k: nat, v: View)
    requires k > 0 && |v.peers| == 100 * k - 1 && |Takers(v.peers, v.mine)| == 81 * k - 1
    ensures Decided(v)
  {
    var agree, n := 81 * k - 1, 100 * k - 1;
    assert agree * 100 + 100 == (n + 1) * 81;
    ExactQuotient(n + 1, 81);
    assert HaveConsensus(0, n, agree, 0, 0, 3000) == Normal;
  }

  lemma {:induction false} LowDecides(k: nat)
    requires k > 0
    ensures var v := Seen(k, 0, 0, 100 * k);
            v.self !in v.peers && Decided(v) && Participants(v) == Interval(0, 100 * k)
  {
    SeenCounts(k, 0, 0, 100 * k, Interval(0, 81 * k));
    EightyOneDecides(k, Seen(k, 0, 0, 100 * k));
  }

  lemma {:induction false} HighDecides(k: nat)
    requires k > 0
    ensures var w := Seen(k, 162 * k - 1, 62 * k, 162 * k);
            w.self !in w.peers && Decided(w) && Participants(w) == Interval(62 * k, 162 * k)
  {
    SeenCounts(k, 162 * k - 1, 62 * k, 162 * k, Interval(81 * k, 162 * k));
    EightyOneDecides(k, Seen(k, 162 * k - 1, 62 * k, 162 * k));
  }

  /** With exactly 19% shared, two nodes can decide on different sets, however many there are. */
  lemma {:induction false} BoundIsTight(k: nat)
    requires k > 0
    ensures var v, w := Seen(k, 0, 0, 100 * k), Seen(k, 162 * k - 1, 62 * k, 162 * k);
            && v.self !in v.peers && w.self !in w.peers
            && Decided(v) && Decided(w) && Consistent(v, w) && v.mine != w.mine
            && 100 * |Participants(v) * Participants(w)| == 19 * (|Participants(v)| + |Participants(w)|)
  {
    LowDecides(k);
    HighDecides(k);
    SeenConsistent(k, 0, 0, 100 * k, 162 * k - 1, 62 * k, 162 * k);
    IntervalsMeet(0, 62 * k, 100 * k, 162 * k);
  }
}
