/** The record of ancestor hashes each ledger carries: the last 256 of them, and every 256th
    grouped by 256. */
module SkipList {
  import opened Entries

  /** A ledger hash; zero stands for "not available". */
  type Hash = nat

  const WINDOW := 256
  const INDEX_LIMIT := 0x1_0000_0000

  /** The ltLEDGER_HASHES entry: hashes in order, ending with that of ledger `last`. */
  datatype HashNode = HashNode(hashes: seq<Hash>, last: nat)

  /** A closed ledger: its header, and the two kinds of hash entry in its state.  Flag ledgers
      are grouped under the high bits of their sequence number, as in getLedgerHashIndex. */
  datatype Closed = Closed(
    sequence: nat, hash: Hash, parentHash: Hash, recent: Option<HashNode>, flags: map<nat, HashNode>)

  function Group(index: nat): nat {
    index / 0x1_0000
  }

  /** One more hash at the end of a node, without its first when there are 256 already. */
  function Slid(node: Option<HashNode>, hash: Hash, last: nat): HashNode {
    var hashes := if node.Some? then node.value.hashes else [];
    HashNode((if |hashes| == WINDOW then hashes[1..] else hashes) + [hash], last)
  }

  function Extended(flags: map<nat, HashNode>, hash: Hash, last: nat): map<nat, HashNode> {
    var g := Group(last);
    flags[g := HashNode((if g in flags then flags[g].hashes else []) + [hash], last)]
  }

  /** A ledger under construction: a copy of its parent's state. */
  class Ledger {
    const sequence: nat
    const parentHash: Hash
    var recent: Option<HashNode>
    var flags: map<nat, HashNode>

    constructor (parent: Closed)
      ensures sequence == parent.sequence + 1 && parentHash == parent.hash
      ensures recent == parent.recent && flags == parent.flags
    {
      sequence, parentHash := parent.sequence + 1, parent.hash;
      recent, flags := parent.recent, parent.flags;
    }

    /** updateSkipList. */
    method UpdateSkipList()
      modifies this
      ensures sequence == 0 ==> recent == old(recent) && flags == old(flags)
      ensures sequence != 0 ==> recent == Some(Slid(old(recent), parentHash, sequence - 1))
      ensures sequence != 0 ==>
        flags == if (sequence - 1) % WINDOW == 0 then Extended(old(flags), parentHash, sequence - 1) else old(flags)
    {
      if sequence == 0 {
        return;
      }
      var previous := sequence - 1;
      if previous % WINDOW == 0 {
        var g := Group(previous);
        var hashes: seq<Hash> := [];
        if g in flags {
          hashes := flags[g].hashes;
        }
        hashes := hashes + [parentHash];
        flags := flags[g := HashNode(hashes, previous)];
      }
      var hashes: seq<Hash> := [];
      if recent.Some? {
        hashes := recent.value.hashes;
      }
      if |hashes| == WINDOW {
        hashes := hashes[1..];
      }
      hashes := hashes + [parentHash];
      recent := Some(HashNode(hashes, previous));
    }
  }

  /** Ledger l follows p, built as consensus builds it. */
  predicate Follows(p: Closed, l: Closed) {
    && l.sequence == p.sequence + 1
    && l.parentHash == p.hash
    && l.recent == Some(Slid(p.recent, p.hash, p.sequence))
    && l.flags == if p.sequence % WINDOW == 0 then Extended(p.flags, p.hash, p.sequence) else p.flags
  }

  /** How consensus closes the next ledger: copy the parent's state, update the record, hash. */
  method CloseNext(p: Closed, hash: Hash) returns (l: Closed)
    ensures Follows(p, l) && l.hash == hash
  {
    var ledger := new Ledger(p);
    ledger.UpdateSkipList();
    l := Closed(ledger.sequence, hash, ledger.parentHash, ledger.recent, ledger.flags);
  }

  /** A chain of ledgers each built on the one before; the first carries no record. */
  predicate Chain(c: seq<Closed>) {
    && c != []
    && c[0].recent == None && c[0].flags == map[]
    && (forall i | 0 <= i < |c| :: c[i].hash != 0)
    && (forall i | 0 <= i < |c| - 1 :: Follows(c[i], c[i + 1]))
  }

  lemma {:induction false} SequenceAt(c: seq<Closed>, i: nat)
    requires Chain(c) && i < |c|
    ensures c[i].sequence == c[0].sequence + i
  {
    if i > 0 {
      SequenceAt(c, i - 1);
      assert Follows(c[i - 1], c[i - 1 + 1]);
    }
  }

  /** The hash of the true ancestor with sequence number m. */
  function HashAt(c: seq<Closed>, m: nat): Hash
    requires c != [] && c[0].sequence <= m < c[0].sequence + |c|
  {
    c[m - c[0].sequence].hash
  }

  // ---- The recent window ----

  ghost predicate RecentRight(c: seq<Closed>, i: nat)
    requires c != [] && i < |c|
  {
    if i == 0 then c[0].recent.None? else
    && c[i].recent.Some?
    && c[i].recent.value.last == c[0].sequence + i - 1
    && var hashes := c[i].recent.value.hashes;
       && |hashes| == (if i < WINDOW then i else WINDOW)
       && forall t | 0 <= t < |hashes| :: hashes[t] == c[i - |hashes| + t].hash
  }

  lemma {:induction false} RecentAt(c: seq<Closed>, i: nat)
    requires Chain(c) && i < |c|
    ensures RecentRight(c, i)
  {
    if i > 0 {
      RecentAt(c, i - 1);
      SequenceAt(c, i - 1);
      assert Follows(c[i - 1], c[i - 1 + 1]);
      var h, was := c[i].recent.value.hashes, if i > 1 then c[i - 1].recent.value.hashes else [];
      var cut := if |was| == WINDOW then 1 else 0;
      assert h == was[cut..] + [c[i - 1].hash];
      forall t | 0 <= t < |h|
        ensures h[t] == c[i - |h| + t].hash
      {
        if t < |h| - 1 {
          assert h[t] == was[t + cut];
        }
      }
    }
  }

  // ---- The flag ledgers ----

  function Ceil(m: nat): nat {
    (m + 255) / 256
  }

  /** Group g of a chain starting at s, seen from ledger n, holds the flag ledgers 256 * q for
      q from FirstQ up to EndQ. */
  function FirstQ(s: nat, g: nat): nat {
    if Ceil(s) > 256 * g then Ceil(s) else 256 * g
  }

  function EndQ(n: nat, g: nat): nat {
    if Ceil(n) < 256 * (g + 1) then Ceil(n) else 256 * (g + 1)
  }

  /** The entry of one group: the hashes of flag ledgers 256 * from, ..., 256 * (to - 1). */
  ghost predicate NodeRight(c: seq<Closed>, n: nat, node: HashNode, from: nat, to: nat)
    requires c != []
  {
    && from < to && c[0].sequence <= n <= c[0].sequence + |c|
    && |node.hashes| == to - from
    && node.last == 256 * (to - 1)
    && c[0].sequence <= 256 * from && 256 * (to - 1) < n
    && forall t | 0 <= t < |node.hashes| :: node.hashes[t] == HashAt(c, 256 * (from + t))
  }

  ghost predicate GroupRight(c: seq<Closed>, i: nat, g: nat)
    requires c != [] && i < |c|
  {
    var s, flags := c[0].sequence, c[i].flags;
    var from, to := FirstQ(s, g), EndQ(s + i, g);
    (g in flags <==> from < to) && (g in flags ==> NodeRight(c, s + i, flags[g], from, to))
  }

  lemma {:induction false} NodeGrows(c: seq<Closed>, n: nat, flags: map<nat, HashNode>, g: nat, from: nat)
    requires c != [] && c[0].sequence <= n < c[0].sequence + |c| && n % 256 == 0
    requires from <= n / 256 && c[0].sequence <= 256 * from
    requires g in flags <==> from < n / 256
    requires g in flags ==> NodeRight(c, n, flags[g], from, n / 256)
    ensures var hashes := (if g in flags then flags[g].hashes else []) + [HashAt(c, n)];
            NodeRight(c, n + 1, HashNode(hashes, n), from, n / 256 + 1)
  {
  }

  lemma {:induction false} CeilStep(n: nat)
    ensures n % 256 == 0 ==> Ceil(n) == n / 256 && Ceil(n + 1) == n / 256 + 1
    ensures n % 256 != 0 ==> Ceil(n + 1) == Ceil(n)
  {
  }

  lemma {:induction false} GroupStep(s: nat, n: nat, g: nat)
    requires s <= n && n % 256 == 0
    ensures Group(n) == n / 256 / 256
    ensures g != Group(n) ==> (FirstQ(s, g) < EndQ(n, g) <==> FirstQ(s, g) < EndQ(n + 1, g))
    ensures g != Group(n) && FirstQ(s, g) < EndQ(n, g) ==> EndQ(n + 1, g) == EndQ(n, g)
    ensures g == Group(n) ==> FirstQ(s, g) <= EndQ(n, g) == n / 256 && EndQ(n + 1, g) == n / 256 + 1
  {
    CeilStep(n);
    var q := n / 256;
    assert n == 256 * q;
    assert Group(n) == q / 256;
    assert Ceil(s) <= q;
  }

  lemma {:induction false} GroupsStep(c: seq<Closed>, i: nat, g: nat)
    requires Chain(c) && i + 1 < |c| && GroupRight(c, i, g)
    requires (c[0].sequence + i) % 256 == 0
    ensures GroupRight(c, i + 1, g)
  {
    var s, n := c[0].sequence, c[0].sequence + i;
    SequenceAt(c, i);
    assert Follows(c[i], c[i + 1]);
    GroupStep(s, n, g);
    if g == Group(n) {
      NodeGrows(c, n, c[i].flags, g, FirstQ(s, g));
    }
  }

  lemma {:induction false} GroupsAt(c: seq<Closed>, i: nat, g: nat)
    requires Chain(c) && i < |c|
    ensures GroupRight(c, i, g)
  {
    var s := c[0].sequence;
    if i > 0 {
      GroupsAt(c, i - 1, g);
      if (s + i - 1) % 256 == 0 {
        GroupsStep(c, i - 1, g);
      } else {
        SequenceAt(c, i - 1);
        assert Follows(c[i - 1], c[i - 1 + 1]);
        CeilStep(s + i - 1);
      }
    }
  }

  /** No list of hashes ever exceeds 256 entries. */
  lemma {:induction false} ListsBounded(c: seq<Closed>, i: nat, g: nat)
    requires Chain(c) && i < |c|
    ensures c[i].recent.Some? ==> |c[i].recent.value.hashes| <= WINDOW
    ensures g in c[i].flags ==> |c[i].flags[g].hashes| <= WINDOW
  {
    RecentAt(c, i);
    GroupsAt(c, i, g);
  }

  // ---- Lookup ----

  function FlagLookup(flags: map<nat, HashNode>, index: nat): Hash {
    if Group(index) !in flags then 0
    else
      var node := flags[Group(index)];
      if node.last < index || |node.hashes| <= (node.last - index) / 256 then 0
      else node.hashes[|node.hashes| - (node.last - index) / 256 - 1]
  }

  /** Ledger::getLedgerHash. */
  function GetLedgerHash(l: Closed, index: nat): Hash {
    if index > l.sequence then 0
    else if index == l.sequence then l.hash
    else if index == l.sequence - 1 then l.parentHash
    else
      var diff := l.sequence - index;
      if diff <= WINDOW && l.recent.Some? && |l.recent.value.hashes| >= diff then
        l.recent.value.hashes[|l.recent.value.hashes| - diff]
      else if index % 256 != 0 then 0
      else FlagLookup(l.flags, index)
  }

  lemma {:induction false} FlagLookupExact(c: seq<Closed>, i: nat, index: nat)
    requires Chain(c) && i < |c| && index % 256 == 0 && index < c[0].sequence + i
    ensures FlagLookup(c[i].flags, index) == if c[0].sequence <= index then HashAt(c, index) else 0
  {
    var s, q, g := c[0].sequence, index / 256, Group(index);
    GroupsAt(c, i, g);
    assert index == 256 * q && g == q / 256;
    assert 256 * g <= q < 256 * (g + 1);
    assert q < Ceil(s + i);
    var from, to := FirstQ(s, g), EndQ(s + i, g);
    if s <= index {
      assert Ceil(s) <= q;
    } else {
      assert q < Ceil(s);
    }
    if g in c[i].flags {
      var node := c[i].flags[g];
      assert node.last - index == 256 * (to - 1 - q);
    }
  }

  /** getLedgerHash answers with the hash of the true ancestor for the recorded last 256
      ancestors and for every recorded multiple of 256, and with zero for everything else. */
  lemma {:induction false} LookupExact(c: seq<Closed>, i: nat, index: nat)
    requires Chain(c) && i < |c|
    ensures var s, n := c[0].sequence, c[0].sequence + i;
            GetLedgerHash(c[i], index) ==
              if s <= index <= n && (n - index <= WINDOW || index % 256 == 0) then HashAt(c, index)
              else if index + 1 == n then c[i].parentHash
              else 0
  {
    var s, n := c[0].sequence, c[0].sequence + i;
    SequenceAt(c, i);
    if i > 0 && index == n - 1 {
      assert Follows(c[i - 1], c[i - 1 + 1]);
    } else if index < n - 1 {
      RecentAt(c, i);
      if index % 256 == 0 {
        FlagLookupExact(c, i, index);
      }
    }
  }

  // ---- Two hops ----

  /** (index + 255) & ~255 in 32-bit arithmetic. */
  function RoundUp(index: nat): nat {
    (index + 255) % INDEX_LIMIT / 256 * 256
  }

  /** walkHashBySeq: look in the reference ledger, then in the flag ledger above the index,
      if it can be fetched from the store. */
  function WalkHashBySeq(reference: Closed, store: map<Hash, Closed>, index: nat): Hash {
    if reference.sequence < index then 0
    else
      var direct := GetLedgerHash(reference, index);
      if direct != 0 then direct
      else
        var refHash := GetLedgerHash(reference, RoundUp(index));
        if refHash != 0 && refHash in store then GetLedgerHash(store[refHash], index) else 0
  }

  /** A ledger fetched under the hash of a ledger of the chain is that ledger. */
  ghost predicate Genuine(c: seq<Closed>, store: map<Hash, Closed>) {
    forall i | 0 <= i < |c| && c[i].hash in store :: store[c[i].hash] == c[i]
  }

  lemma {:induction false} RoundUpWithin(index: nat, n: nat)
    requires index + WINDOW < n < INDEX_LIMIT
    ensures index <= RoundUp(index) <= index + 255 && RoundUp(index) % 256 == 0 && RoundUp(index) < n
  {
    var a := index + 255;
    assert a % INDEX_LIMIT == a;
    assert a == a / 256 * 256 + a % 256;
  }

  /** The ancestors that ledger n answers for by itself. */
  predicate Direct(n: nat, index: nat)
    requires index <= n
  {
    n - index <= WINDOW || index % 256 == 0
  }

  /** A direct lookup misses an ancestor exactly when it is neither among the last 256 nor a
      multiple of 256. The flag ledger above it is then recorded, and nothing else need be
      fetched: its own window covers the index. */
  lemma {:induction false} TwoHopsExactly(c: seq<Closed>, i: nat, store: map<Hash, Closed>, index: nat)
    requires Chain(c) && i < |c| && Genuine(c, store)
    requires c[0].sequence <= index <= c[0].sequence + i < INDEX_LIMIT
    ensures Direct(c[0].sequence + i, index) || index < RoundUp(index) < c[0].sequence + i
    ensures WalkHashBySeq(c[i], store, index) ==
            if Direct(c[0].sequence + i, index) || HashAt(c, RoundUp(index)) in store then HashAt(c, index) else 0
    ensures HashAt(c, index) != 0
  {
    var s, n := c[0].sequence, c[0].sequence + i;
    SequenceAt(c, i);
    LookupExact(c, i, index);
    if GetLedgerHash(c[i], index) == 0 {
      RoundUpWithin(index, n);
      var m := RoundUp(index);
      LookupExact(c, i, m);
      LookupExact(c, m - s, index);
      assert HashAt(c, m) == c[m - s].hash;
    }
  }

  /** LedgerMaster::getLedgerHash rounds with a remainder instead of a mask. */
  function RemainderLookup(known: Closed, store: map<Hash, Closed>, index: nat): Hash {
    var direct := GetLedgerHash(known, index);
    if direct != 0 then direct
    else
      var hop := GetLedgerHash(known, (index + 255) % 256);
      if hop != 0 && hop in store then GetLedgerHash(store[hop], index) else 0
  }

  /** Its second hop lands below the index, so it never adds to a direct lookup: it finds a
      recorded ancestor exactly when the ancestor is among the last 256 or a multiple of 256. */
  lemma {:induction false} RemainderLookupExactly(c: seq<Closed>, i: nat, store: map<Hash, Closed>, index: nat)
    requires Chain(c) && i < |c| && Genuine(c, store)
    requires c[0].sequence <= index < c[0].sequence + i
    ensures RemainderLookup(c[i], store, index) == GetLedgerHash(c[i], index)
    ensures RemainderLookup(c[i], store, index) != 0 <==> c[0].sequence + i - index <= WINDOW || index % 256 == 0
  {
    var s := c[0].sequence;
    LookupExact(c, i, index);
    if GetLedgerHash(c[i], index) == 0 {
      var m := (index + 255) % 256;
      assert m < index;
      LookupExact(c, i, m);
      if GetLedgerHash(c[i], m) != 0 {
        assert HashAt(c, m) == c[m - s].hash;
        LookupExact(c, m - s, index);
      }
    }
  }
}
