/** LedgerMaster: advancing the validated ledger and publishing the stream of validated
    ledgers in order. */
module Publish {
  import opened Entries
  import opened SkipList

  const MAX_LEDGER_GAP := 100

  class LedgerMaster {
    var valid: Option<Closed>
    var validSeq: nat
    var pub: Option<Closed>
    var pubSeq: nat
    /** Ledgers at hand, and ledgers that can be acquired, both by hash. */
    var history: map<Hash, Closed>
    var inbound: map<Hash, Closed>

    ghost predicate Valid()
      reads this
    {
      && (valid.Some? ==> validSeq == valid.value.sequence)
      && (valid.None? ==> validSeq == 0)
      && (pub.Some? ==> pubSeq == pub.value.sequence && pubSeq <= validSeq)
      && (pub.None? ==> pubSeq == 0)
    }

    constructor (history: map<Hash, Closed>, inbound: map<Hash, Closed>)
      ensures Valid() && valid == None && pub == None
    {
      valid, validSeq, pub, pubSeq := None, 0, None, 0;
      this.history, this.inbound := history, inbound;
    }

    method SetValidLedger(l: Closed)
      modifies this`valid, this`validSeq
      ensures valid == Some(l) && validSeq == l.sequence
    {
      valid, validSeq := Some(l), l.sequence;
    }

    method SetPubLedger(l: Closed)
      modifies this`pub, this`pubSeq
      ensures pub == Some(l) && pubSeq == l.sequence
    {
      pub, pubSeq := Some(l), l.sequence;
    }

    /** checkAccept: `count` trusted validations against the `needed` quorum. */
    method CheckAccept(l: Closed, count: int, needed: int)
      requires Valid()
      modifies this`valid, this`validSeq, this`pub, this`pubSeq
      ensures Valid() && old(validSeq) <= validSeq && old(pubSeq) <= pubSeq
      ensures l.sequence > old(validSeq) && count >= needed <==> validSeq > old(validSeq)
      ensures validSeq > old(validSeq) ==> valid == Some(l)
      ensures validSeq == old(validSeq) ==> valid == old(valid) && pub == old(pub)
      ensures pub == if validSeq > old(validSeq) && old(pub).None? then Some(l) else old(pub)
    {
      if l.sequence <= validSeq || count < needed {
        return;
      }
      SetValidLedger(l);
      if pub.None? {
        SetPubLedger(l);
      }
    }

    /** setFullLedger: a ledger accepted as part of the trusted chain, in any order. */
    method SetFullLedger(l: Closed)
      requires Valid()
      modifies this`valid, this`validSeq, this`pub, this`pubSeq
      ensures Valid()
      ensures old(validSeq) <= validSeq && old(pubSeq) <= pubSeq
      ensures validSeq == if l.sequence > old(validSeq) then l.sequence else old(validSeq)
      ensures valid == if l.sequence > old(validSeq) then Some(l) else old(valid)
      ensures pub == if old(pub).None? then Some(l) else old(pub)
    {
      if l.sequence > validSeq {
        SetValidLedger(l);
      }
      if pub.None? {
        SetPubLedger(l);
      }
    }

    /** c is a chain that ends with l and reaches back to the published ledger, and the stores
        return what was asked for: the chain's ledger with that hash. */
    ghost predicate OnChain(c: seq<Closed>, l: Closed)
      reads this
    {
      && Chain(c) && l == c[|c| - 1] && c[0].sequence <= pubSeq + 1 <= l.sequence + 1 == c[0].sequence + |c|
      && Genuine(c, history) && Genuine(c, inbound)
    }

    /** findNewLedgersToPublish.  Outside the gap case the numbers run on from the published one;
        on a chain the ledgers are its own, and no hash is missing. */
    method FindNewLedgersToPublish(ghost c: seq<Closed>) returns (ret: seq<Closed>, missing: bool)
      requires Valid()
      modifies this`pub, this`pubSeq
      ensures Valid() && old(pubSeq) <= pubSeq
      ensures valid.None? ==> ret == [] && pub == old(pub)
      ensures valid.Some? && old(pub).None? ==> ret == [valid.value] && pub == old(pub)
      ensures valid.Some? && old(pub).Some? && validSeq > old(pubSeq) + MAX_LEDGER_GAP ==>
        ret == [valid.value] && pub == valid
      ensures valid.Some? && old(pub).Some? && validSeq <= old(pubSeq) + MAX_LEDGER_GAP ==>
        && pub == old(pub) && pubSeq == old(pubSeq) && |ret| <= validSeq - pubSeq
        && (forall k | 0 <= k < |ret| :: ret[k].sequence == pubSeq + 1 + k)
        && (OnChain(c, valid.value) ==> !missing && Ancestors(c, ret) && Longest(c, |ret|))
    {
      ret, missing := [], false;
      if valid.None? {
        return;
      }
      if pub.None? {
        ret := [valid.value];
      } else if validSeq > pubSeq + MAX_LEDGER_GAP {
        ret := [valid.value];
        SetPubLedger(valid.value);
      } else if validSeq > pubSeq {
        ret, missing := CollectLedgers(c, valid.value);
      }
    }

    /** The ledgers of the chain that follow the published one. */
    ghost predicate Ancestors(c: seq<Closed>, ledgers: seq<Closed>)
      requires c != [] && c[0].sequence <= pubSeq + 1
      reads this
    {
      forall k | 0 <= k < |ledgers| ::
        pubSeq + 1 + k - c[0].sequence < |c| && ledgers[k] == c[pubSeq + 1 + k - c[0].sequence]
    }

    /** How many ledgers of the chain follow the published one. */
    ghost function Left(c: seq<Closed>): int
      reads this
    {
      if c == [] then 0 else c[0].sequence + |c| - 1 - pubSeq
    }

    /** How many of the first n of them have to be fetched. */
    ghost function Fetches(c: seq<Closed>, n: nat): nat
      requires c != [] && c[0].sequence <= pubSeq + 1 && n <= Left(c)
      reads this
    {
      if n == 0 then 0
      else Fetches(c, n - 1) + if c[pubSeq + n - c[0].sequence].hash in history then 0 else 1
    }

    /** The next one after the first n is not at hand and cannot be fetched, or three were. */
    ghost predicate Unavailable(c: seq<Closed>, n: nat)
      requires c != [] && c[0].sequence <= pubSeq + 1 && n < Left(c)
      reads this
    {
      var hash := c[pubSeq + 1 + n - c[0].sequence].hash;
      hash !in history && (hash !in inbound || Fetches(c, n) >= 3)
    }

    /** None of the first n, except perhaps the last of the chain, which is at hand, is unavailable. */
    ghost predicate Reachable(c: seq<Closed>, n: nat)
      requires c != [] && c[0].sequence <= pubSeq + 1 && n <= Left(c)
      reads this
    {
      forall k | 0 <= k < n && k < Left(c) - 1 :: !Unavailable(c, k)
    }

    /** The first n of them are those before the first that is unavailable. */
    ghost predicate Longest(c: seq<Closed>, n: nat)
      requires c != [] && c[0].sequence <= pubSeq + 1
      reads this
    {
      n <= Left(c) && Reachable(c, n) && (n < Left(c) ==> n < Left(c) - 1 && Unavailable(c, n))
    }

    /** The ledger with number `index`, if it is at hand or can be fetched.  At most three are. */
    method LedgerAt(last: Closed, index: nat, acquired: nat)
        returns (ledger: Option<Closed>, zero: bool, acquired': nat)
      ensures index == last.sequence ==> ledger == Some(last) && !zero && acquired' == acquired
      ensures index != last.sequence ==>
        var hash := GetLedgerHash(last, index);
        && zero == (hash == 0)
        && (hash in history ==> ledger == Some(history[hash]) && acquired' == acquired)
        && (hash !in history ==>
              && acquired' == acquired + 1
              && ledger == if acquired < 3 && hash in inbound then Some(inbound[hash]) else None)
    {
      var hash := GetLedgerHash(last, index);
      zero, acquired' := false, acquired;
      if index == last.sequence {
        ledger := Some(last);
      } else {
        zero := hash == 0;
        ledger := if hash in history then Some(history[hash]) else None;
      }
      if ledger.None? {
        acquired' := acquired + 1;
        if acquired' < 4 && hash in inbound {
          ledger := Some(inbound[hash]);
        }
      }
    }

    /** Everything was collected so far, with the fetches counted, or the first n are all there are. */
    ghost predicate SoFar(c: seq<Closed>, n: nat, acquired: nat, inTurn: bool)
      requires c != [] && c[0].sequence <= pubSeq + 1
      reads this
    {
      if inTurn then n <= Left(c) && Reachable(c, n) && (n < Left(c) ==> acquired == Fetches(c, n)) else Longest(c, n)
    }

    /** The gap bound keeps every hash looked for in the recorded window. */
    lemma {:induction false} OnTheWay(c: seq<Closed>, last: Closed, index: nat)
      requires OnChain(c, last) && pubSeq + 1 <= index <= last.sequence <= pubSeq + MAX_LEDGER_GAP
      ensures var i := index - c[0].sequence;
              && i < |c| && c[i].sequence == index
              && (index < last.sequence ==> GetLedgerHash(last, index) == c[i].hash && c[i].hash != 0)
              && (index == last.sequence ==> c[i] == last)
    {
      SequenceAt(c, |c| - 1);
      LookupExact(c, |c| - 1, index);
      SequenceAt(c, index - c[0].sequence);
    }

    lemma {:induction false} OneMore(c: seq<Closed>, last: Closed, n: nat, acquired: nat, index: nat,
                                     ledger: Option<Closed>, acquired': nat)
      requires OnChain(c, last) && pubSeq + 1 + n <= index <= last.sequence <= pubSeq + MAX_LEDGER_GAP
      requires SoFar(c, n, acquired, pubSeq + 1 + n == index)
      requires index == last.sequence ==> ledger == Some(last) && acquired' == acquired
      requires index != last.sequence ==>
        var hash := c[index - c[0].sequence].hash;
        && (hash in history ==> ledger == Some(history[hash]) && acquired' == acquired)
        && (hash !in history ==>
              && acquired' == acquired + 1
              && ledger == if acquired < 3 && hash in inbound then Some(inbound[hash]) else None)
      ensures ledger.Some? ==> ledger.value == c[index - c[0].sequence]
      ensures var took := ledger.Some? && pubSeq + 1 + n == index;
              if took then SoFar(c, n + 1, acquired', true) else SoFar(c, n, acquired', false)
    {
      OnTheWay(c, last, index);
    }

    /** What was collected when `index` is next. */
    ghost predicate Gathered(c: seq<Closed>, last: Closed, ret: seq<Closed>, index: nat, acquired: nat, missing: bool)
      reads this
    {
      && pubSeq + 1 + |ret| <= index
      && (forall k | 0 <= k < |ret| :: ret[k].sequence == pubSeq + 1 + k)
      && (OnChain(c, last) ==>
            !missing && Ancestors(c, ret) && SoFar(c, |ret|, acquired, pubSeq + 1 + |ret| == index))
    }

    lemma {:induction false} Joined(c: seq<Closed>, ret: seq<Closed>, l: Closed)
      requires c != [] && c[0].sequence <= pubSeq + 1 && Ancestors(c, ret)
      requires pubSeq + 1 + |ret| < c[0].sequence + |c| && l == c[pubSeq + 1 + |ret| - c[0].sequence]
      ensures Ancestors(c, ret + [l])
    {
    }

    /** One turn of the loop.  A ledger out of turn is dropped. */
    method CollectOne(ghost c: seq<Closed>, last: Closed, ret: seq<Closed>, index: nat, acquired: nat, missing: bool)
        returns (ret': seq<Closed>, acquired': nat, missing': bool)
      requires pubSeq + 1 <= index <= last.sequence <= pubSeq + MAX_LEDGER_GAP
      requires Gathered(c, last, ret, index, acquired, missing)
      ensures Gathered(c, last, ret', index + 1, acquired', missing')
    {
      var ledger, zero;
      ledger, zero, acquired' := LedgerAt(last, index, acquired);
      if OnChain(c, last) {
        OnTheWay(c, last, index);
        OneMore(c, last, |ret|, acquired, index, ledger, acquired');
        if ledger.Some? && index == pubSeq + 1 + |ret| { Joined(c, ret, ledger.value); }
      }
      missing', ret' := missing || zero, ret;
      if ledger.Some? && ledger.value.sequence == pubSeq + 1 + |ret| {
        ret' := ret + [ledger.value];
      }
    }

    /** The loop over the missing sequence numbers. */
    method CollectLedgers(ghost c: seq<Closed>, last: Closed) returns (ret: seq<Closed>, missing: bool)
      requires pubSeq + 1 <= last.sequence <= pubSeq + MAX_LEDGER_GAP
      ensures |ret| <= last.sequence - pubSeq
      ensures forall k | 0 <= k < |ret| :: ret[k].sequence == pubSeq + 1 + k
      ensures OnChain(c, last) ==> !missing && Ancestors(c, ret) && Longest(c, |ret|)
    {
      ret, missing := [], false;
      var acquired, index := 0, pubSeq + 1;
      while index <= last.sequence
        invariant pubSeq + 1 <= index <= last.sequence + 1
        invariant Gathered(c, last, ret, index, acquired, missing)
      {
        ret, acquired, missing := CollectOne(c, last, ret, index, acquired, missing);
        index := index + 1;
      }
    }

    /** doAdvance: publish what was found, in order.  Outside the gap case the published
        stream is extended by true ancestors of the validated ledger without a hole. */
    method Advance(ghost c: seq<Closed>) returns (published: seq<Closed>)
      requires Valid()
      modifies this`valid, this`validSeq, this`pub, this`pubSeq
      ensures Valid() && valid == old(valid) && validSeq == old(validSeq) && old(pubSeq) <= pubSeq
      ensures old(valid).Some? && old(pub).Some? && validSeq <= old(pubSeq) + MAX_LEDGER_GAP ==>
        && pubSeq == old(pubSeq) + |published|
        && (forall k | 0 <= k < |published| :: published[k].sequence == old(pubSeq) + 1 + k)
        && (old(OnChain(c, valid.value)) ==> old(Ancestors(c, published)) && old(Longest(c, |published|)))
      ensures old(valid).Some? && (old(pub).None? || validSeq > old(pubSeq) + MAX_LEDGER_GAP) ==>
        published == [valid.value] && pub == valid
    {
      var missing;
      published, missing := FindNewLedgersToPublish(c);
      ghost var found := pub;
      for k := 0 to |published|
        invariant Valid() && valid == old(valid) && validSeq == old(validSeq) && old(pubSeq) <= pubSeq
        invariant pub == if k == 0 then found else Some(published[k - 1])
      {
        SetFullLedger(published[k]);
        SetPubLedger(published[k]);
      }
    }
  }

  /** What the threads of the server do to the ledger master: a ledger gets validations or is
      accepted, and the one advancing thread searches or publishes the next ledger it found.  The
      chain is what the search is compared with. */
  datatype Step =
    | Validations(ledger: Closed, count: int, needed: int)
    | Accepted(ledger: Closed)
    | Search(chain: seq<Closed>)
    | PublishNext

  /** Numbers that rise one by one. */
  predicate Consecutive(s: seq<Closed>) {
    forall i | 0 <= i < |s| :: s[i].sequence == s[0].sequence + i
  }

  /** Ledger l may follow number n in the published stream: it is the next, or beyond the gap. */
  predicate MayFollow(n: nat, l: Closed) {
    l.sequence == n + 1 || l.sequence > n + MAX_LEDGER_GAP
  }

  /** A stream without repetitions or holes, but for jumps over the gap. */
  predicate Streamed(s: seq<Closed>) {
    forall i | 0 <= i < |s| - 1 :: MayFollow(s[i].sequence, s[i + 1])
  }

  /** A ledger that got enough validations, or was accepted, and so is behind the validated one. */
  predicate Passed(step: Step, validSeq: nat) {
    match step
    case Validations(l, count, needed) => count >= needed ==> l.sequence <= validSeq
    case Accepted(l) => l.sequence <= validSeq
    case _ => true
  }

  /** The advancing thread: the ledgers it has found and not yet published, and those published. */
  class Advancing {
    const master: LedgerMaster
    var pending: seq<Closed>
    var published: seq<Closed>

    constructor (master: LedgerMaster)
      requires master.Valid() && master.valid.None?
      ensures this.master == master && pending == [] && published == [] && Inv()
    {
      this.master, pending, published := master, [], [];
    }

    ghost predicate Inv()
      reads this, master
    {
      && master.Valid() && (master.valid.Some? ==> master.pub.Some?)
      && (pending != [] ==> master.pub.Some?) && Consecutive(pending)
      && (forall k | 0 <= k < |pending| :: master.pubSeq <= pending[k].sequence <= master.validSeq)
      && Streamed(published)
      && (published != [] ==>
            var last := published[|published| - 1].sequence;
            if pending == [] then master.pub.Some? && master.pubSeq == last else MayFollow(last, pending[0]))
    }

    /** One step, in full. */
    method Perform(step: Step)
      requires Inv()
      modifies this, master
      ensures Inv() && old(master.validSeq) <= master.validSeq && old(master.pubSeq) <= master.pubSeq
      ensures Passed(step, master.validSeq)
      ensures step.Validations? || step.Accepted? ==>
        && pending == old(pending) && published == old(published)
        && var later := step.ledger.sequence > old(master.validSeq);
           var taken := later && (step.Validations? ==> step.count >= step.needed);
           && master.valid == (if taken then Some(step.ledger) else old(master.valid))
           && (old(master.pub).Some? ==> master.pub == old(master.pub))
           && (old(master.pub).None? ==> master.pub == if taken || step.Accepted? then Some(step.ledger) else None)
      ensures step.Search? ==> published == old(published) && master.valid == old(master.valid)
      ensures step.Search? && old(pending) != [] ==> pending == old(pending) && master.pub == old(master.pub)
      ensures step.Search? && old(pending) == [] && old(master.valid).Some? ==>
        if master.validSeq > old(master.pubSeq) + MAX_LEDGER_GAP
        then pending == [master.valid.value] && master.pub == master.valid
        else
          && master.pub == old(master.pub) && master.pubSeq == old(master.pubSeq)
          && (forall k | 0 <= k < |pending| :: pending[k].sequence == master.pubSeq + 1 + k)
          && (master.OnChain(step.chain, master.valid.value) ==>
                master.Ancestors(step.chain, pending) && master.Longest(step.chain, |pending|))
      ensures step.PublishNext? ==>
        && master.valid == old(master.valid)
        && (if old(pending) == [] then pending == [] && published == old(published) && master.pub == old(master.pub)
            else && master.pub == Some(old(pending)[0]) && pending == old(pending)[1..]
                 && published == old(published) + [old(pending)[0]])
    {
      match step {
        case Validations(l, count, needed) =>
          master.CheckAccept(l, count, needed);
        case Accepted(l) =>
          master.SetFullLedger(l);
        case Search(chain) =>
          SearchNext(chain);
        case PublishNext =>
          PublishOne();
      }
    }

    method SearchNext(ghost chain: seq<Closed>)
      requires Inv()
      modifies this`pending, master
      ensures Inv() && old(master.pubSeq) <= master.pubSeq
      ensures master.valid == old(master.valid) && master.validSeq == old(master.validSeq)
      ensures old(pending) != [] ==> pending == old(pending) && master.pub == old(master.pub)
      ensures old(pending) == [] && old(master.valid).Some? ==>
        if master.validSeq > old(master.pubSeq) + MAX_LEDGER_GAP
        then pending == [master.valid.value] && master.pub == master.valid
        else
          && master.pub == old(master.pub) && master.pubSeq == old(master.pubSeq)
          && (forall k | 0 <= k < |pending| :: pending[k].sequence == master.pubSeq + 1 + k)
          && (master.OnChain(chain, master.valid.value) ==>
                master.Ancestors(chain, pending) && master.Longest(chain, |pending|))
    {
      if pending == [] {
        var missing;
        pending, missing := master.FindNewLedgersToPublish(chain);
      }
    }

    method PublishOne()
      requires Inv()
      modifies this`pending, this`published, master
      ensures Inv() && master.valid == old(master.valid) && master.validSeq == old(master.validSeq)
      ensures old(master.pubSeq) <= master.pubSeq
      ensures old(pending) == [] ==> pending == [] && published == old(published) && master.pub == old(master.pub)
      ensures old(pending) != [] ==>
        && master.pub == Some(old(pending)[0]) && pending == old(pending)[1..]
        && published == old(published) + [old(pending)[0]]
    {
      if pending != [] {
        master.SetFullLedger(pending[0]);
        master.SetPubLedger(pending[0]);
        published, pending := published + [pending[0]], pending[1..];
      }
    }

    /** However the threads interleave: the validated and published numbers never decrease, every
        ledger that passed is behind the validated one, and the published stream, which only grows,
        has no repetitions and no holes but for jumps over the gap. */
    method Run(steps: seq<Step>)
      requires Inv()
      modifies this, master
      ensures Inv() && old(master.validSeq) <= master.validSeq && old(master.pubSeq) <= master.pubSeq
      ensures forall s | s in steps :: Passed(s, master.validSeq)
      ensures old(published) <= published && Streamed(published)
    {
      for i := 0 to |steps|
        invariant Inv() && old(master.validSeq) <= master.validSeq && old(master.pubSeq) <= master.pubSeq
        invariant forall k | 0 <= k < i :: Passed(steps[k], master.validSeq)
        invariant old(published) <= published
      {
        Perform(steps[i]);
      }
    }
  }
}
