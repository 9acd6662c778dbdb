/** DeferredCredits: while credits are deferred, what an account received is not spendable. */
module Deferred {
  import opened Entries
  import opened TrustLines

  /** The pair of totals kept for two accounts: sent by the high account to the low one, and
      by the low account to the high one. */
  datatype Totals = Totals(toLow: int, toHigh: int)

  type Ledger = map<Key, Totals>

  /** A credit over the line of its two accounts. */
  datatype Transfer = Transfer(sender: Account, receiver: Account, currency: Currency, amount: int)

  predicate Proper(c: Transfer) {
    c.sender != c.receiver && c.amount >= 0
  }

  function Noted(m: Ledger, c: Transfer): Ledger {
    var k := LineOf(c.sender, c.receiver, c.currency);
    var t := if k in m then m[k] else Totals(0, 0);
    m[k := if c.sender < c.receiver then t.(toHigh := t.toHigh + c.amount) else t.(toLow := t.toLow + c.amount)]
  }

  function NotedAll(m: Ledger, run: seq<Transfer>): Ledger
    decreases |run|
  {
    if run == [] then m else NotedAll(Noted(m, run[0]), run[1..])
  }

  class DeferredCredits {
    var totals: Ledger

    constructor ()
      ensures totals == map[]
    {
      totals := map[];
    }

    method Credit(sender: Account, receiver: Account, currency: Currency, amount: int)
      requires sender != receiver && amount >= 0
      modifies this
      ensures totals == Noted(old(totals), Transfer(sender, receiver, currency, amount))
    {
      var k := LineOf(sender, receiver, currency);
      if k !in totals {
        totals := totals[k := if sender < receiver then Totals(0, amount) else Totals(amount, 0)];
      } else {
        var t := totals[k];
        t := if sender < receiver then t.(toHigh := t.toHigh + amount) else t.(toLow := t.toLow + amount);
        totals := totals[k := t];
      }
    }
  }

  /** adjustedBalance: the balance of `main` toward `other` without what `other` sent. */
  function AdjustedBalance(m: Ledger, main: Account, other: Account, currency: Currency, balance: int): int {
    var k := LineOf(main, other, currency);
    if k !in m then balance
    else if main < other then balance - m[k].toLow
    else balance - m[k].toHigh
  }

  /** What a sent b in a run. */
  function SentBy(run: seq<Transfer>, a: Account, b: Account, currency: Currency): int {
    if run == [] then 0
    else (if run[0].sender == a && run[0].receiver == b && run[0].currency == currency then run[0].amount else 0)
         + SentBy(run[1..], a, b, currency)
  }

  /** The deduction kept for a is exactly what b sent it. */
  lemma {:induction false} DeductionIsReceived(m: Ledger, run: seq<Transfer>, a: Account, b: Account,
                                               currency: Currency, balance: int)
    requires a != b && forall c | c in run :: Proper(c)
    ensures AdjustedBalance(NotedAll(m, run), a, b, currency, balance) ==
            AdjustedBalance(m, a, b, currency, balance) - SentBy(run, b, a, currency)
    decreases |run|
  {
    if run != [] {
      assert run[0] in run && Proper(run[0]);
      DeductionIsReceived(Noted(m, run[0]), run[1..], a, b, currency, balance);
    }
  }

  // ---- What the credit operations note ----

  /** A credit is noted when it goes over an existing line or creates one. */
  function CreditNoted(v: State, m: Ledger, s: Account, r: Account, currency: Currency, amount: int): Ledger
    requires HasAccount(v, s) && HasAccount(v, r)
  {
    if LineOf(s, r, currency) in v || CreditResult(v, s, r, currency, amount) == tesSUCCESS
    then Noted(m, Transfer(s, r, currency, amount))
    else m
  }

  /** redeem_iou notes nothing without a line. */
  function RedeemNoted(v: State, m: Ledger, s: Account, r: Account, currency: Currency, amount: int): Ledger {
    if LineOf(s, r, currency) in v then Noted(m, Transfer(s, r, currency, amount)) else m
  }

  /** trustCreate notes its balance from source to destination, whichever of them is set. */
  function CreateNoted(v: State, m: Ledger, src: Account, dst: Account, currency: Currency, balance: int): Ledger
    requires src != dst
  {
    if TrustCreateResult(v, LineOf(src, dst, currency)) == tesSUCCESS
    then Noted(m, Transfer(src, dst, currency, balance))
    else m
  }

  function StepNoted(v: State, m: Ledger, op: TrustOp): Ledger
    requires Legal(v, op)
  {
    match op
    case CreditOp(s, r, c, x) => CreditNoted(v, m, s, r, c, x)
    case IssueOp(a, i, c, x) => CreditNoted(v, m, i, a, c, x)
    case RedeemOp(a, i, c, x) => RedeemNoted(v, m, a, i, c, x)
    case CreateOp(src, dst, _, c, x, _) => CreateNoted(v, m, src, dst, c, x)
  }

  /** The totals after a run; a failed operation is discarded with what it noted. */
  function NotedRun(v: State, m: Ledger, ops: seq<TrustOp>): Ledger
    decreases |ops|
  {
    if ops == [] then m
    else if !Legal(v, ops[0]) then NotedRun(v, m, ops[1..])
    else
      var noted := if StepResult(v, ops[0]) == tesSUCCESS then StepNoted(v, m, ops[0]) else m;
      NotedRun(TrustStep(v, ops[0]), noted, ops[1..])
  }

  /** What a successful operation moves. */
  function MovedBy(op: TrustOp): Transfer {
    Transfer(Ends(op).0, Ends(op).1, op.currency, op.amount)
  }

  /** The movements of the successful operations of a run. */
  function Transfers(v: State, ops: seq<TrustOp>): seq<Transfer>
    decreases |ops|
  {
    if ops == [] then []
    else if !Legal(v, ops[0]) then Transfers(v, ops[1..])
    else if StepResult(v, ops[0]) != tesSUCCESS then Transfers(TrustStep(v, ops[0]), ops[1..])
    else [MovedBy(ops[0])] + Transfers(TrustStep(v, ops[0]), ops[1..])
  }

  /** What a successful operation notes. */
  function NoteOf(op: TrustOp): Transfer {
    if op.CreateOp? then Transfer(op.src, op.dst, op.currency, op.amount) else MovedBy(op)
  }

  /** The notes of the successful operations of a run. */
  function Notes(v: State, ops: seq<TrustOp>): seq<Transfer>
    decreases |ops|
  {
    if ops == [] then []
    else if !Legal(v, ops[0]) then Notes(v, ops[1..])
    else if StepResult(v, ops[0]) != tesSUCCESS then Notes(TrustStep(v, ops[0]), ops[1..])
    else [NoteOf(ops[0])] + Notes(TrustStep(v, ops[0]), ops[1..])
  }

  lemma {:induction false} StepNotes(v: State, m: Ledger, op: TrustOp)
    requires Legal(v, op) && StepResult(v, op) == tesSUCCESS
    ensures StepNoted(v, m, op) == Noted(m, NoteOf(op))
  {
    var (s, r) := Ends(op);
    LineOfOk(s, r, op.currency);
  }

  lemma {:induction false} RunNotes(v: State, m: Ledger, ops: seq<TrustOp>)
    ensures NotedRun(v, m, ops) == NotedAll(m, Notes(v, ops))
    decreases |ops|
  {
    if ops != [] {
      var op := ops[0];
      if Legal(v, op) {
        if StepResult(v, op) == tesSUCCESS {
          StepNotes(v, m, op);
          RunNotes(TrustStep(v, op), Noted(m, NoteOf(op)), ops[1..]);
          assert Notes(v, ops)[1..] == Notes(TrustStep(v, op), ops[1..]);
        } else {
          RunNotes(TrustStep(v, op), m, ops[1..]);
        }
      } else {
        RunNotes(v, m, ops[1..]);
      }
    }
  }

  // ---- Whether the note is right ----

  predicate NotesRight(op: TrustOp) {
    op.CreateOp? && !op.setDst ==> op.amount == 0
  }

  lemma {:induction false} OpMoves(v: State, op: TrustOp, a: Account, b: Account, currency: Currency)
    requires Typed(v) && Legal(v, op) && StepResult(v, op) == tesSUCCESS && a != b
    ensures Position(TrustStep(v, op), a, b, currency) ==
      Position(v, a, b, currency) + Moved(Ends(op).0, Ends(op).1, op.currency, op.amount, a, b, currency)
  {
    var (s, r) := Ends(op);
    LineOfOk(s, r, op.currency);
    if op.CreateOp? {
      CreatePositions(v, LineFor(op), r > s, op.amount, op.terms, a, b, currency);
    } else {
      CreditMoves(v, s, r, op.currency, op.amount, a, b, currency);
    }
  }

  /** trustCreate notes what it moves exactly when the destination is the account being set or
      nothing is moved. */
  lemma {:induction false} CreateNotesRight(v: State, op: TrustOp)
    requires Typed(v) && Legal(v, op) && op.CreateOp? && StepResult(v, op) == tesSUCCESS
    ensures NotesRight(op) <==> forall a, b, c | a != b ::
      Position(TrustStep(v, op), a, b, c) ==
      Position(v, a, b, c) + Moved(op.src, op.dst, op.currency, op.amount, a, b, c)
  {
    forall a, b, c | a != b
      ensures Position(TrustStep(v, op), a, b, c) ==
        Position(v, a, b, c) + Moved(Ends(op).0, Ends(op).1, op.currency, op.amount, a, b, c)
    {
      OpMoves(v, op, a, b, c);
    }
    assert Moved(op.src, op.dst, op.currency, op.amount, op.src, op.dst, op.currency) == -op.amount;
    assert Moved(op.dst, op.src, op.currency, op.amount, op.src, op.dst, op.currency) == op.amount;
  }

  /** With right notes, what is noted as sent was sent. */
  lemma {:induction false} RightNotes(v: State, ops: seq<TrustOp>, a: Account, b: Account, currency: Currency)
    requires forall op | op in ops :: NotesRight(op)
    ensures SentBy(Notes(v, ops), a, b, currency) == SentBy(Transfers(v, ops), a, b, currency)
    decreases |ops|
  {
    if ops != [] {
      var op := ops[0];
      assert op in ops;
      if Legal(v, op) {
        RightNotes(TrustStep(v, op), ops[1..], a, b, currency);
        if StepResult(v, op) == tesSUCCESS {
          assert Notes(v, ops)[1..] == Notes(TrustStep(v, op), ops[1..]);
          assert Transfers(v, ops)[1..] == Transfers(TrustStep(v, op), ops[1..]);
        }
      } else {
        RightNotes(v, ops[1..], a, b, currency);
      }
    }
  }

  // ---- Runs ----

  /** Positions after a run: what was received less what was sent. */
  lemma {:induction false} RunMoves(v: State, ops: seq<TrustOp>, a: Account, b: Account, currency: Currency)
    requires Typed(v) && a != b
    ensures Position(TrustRun(v, ops).0, a, b, currency) ==
            Position(v, a, b, currency)
            - SentBy(Transfers(v, ops), a, b, currency) + SentBy(Transfers(v, ops), b, a, currency)
    decreases |ops|
  {
    if ops != [] {
      var op := ops[0];
      if Legal(v, op) {
        StepKeepsLines(v, op);
        RunMoves(TrustStep(v, op), ops[1..], a, b, currency);
        if StepResult(v, op) == tesSUCCESS {
          OpMoves(v, op, a, b, currency);
          assert Transfers(v, ops)[1..] == Transfers(TrustStep(v, op), ops[1..]);
        }
      } else {
        RunMoves(v, ops[1..], a, b, currency);
      }
    }
  }

  lemma {:induction false} NotesProper(v: State, ops: seq<TrustOp>)
    requires forall op | op in ops :: op.amount >= 0
    ensures forall c | c in Notes(v, ops) :: Proper(c)
    decreases |ops|
  {
    if ops != [] {
      assert ops[0] in ops;
      NotesProper(if Legal(v, ops[0]) then TrustStep(v, ops[0]) else v, ops[1..]);
    }
  }

  /** What skywellHolds reports of a's balance toward b, with the freeze ignored, at the end of a
      run of the credit operations inside a deferral scope. */
  function Reported(v: State, ops: seq<TrustOp>, a: Account, b: Account, currency: Currency): int {
    AdjustedBalance(NotedRun(v, map[], ops), a, b, currency, Position(TrustRun(v, ops).0, a, b, currency))
  }

  /** Over every run: the starting balance, less what was sent, plus what was received, less what
      was noted as received. */
  lemma {:induction false} ReportedBalance(v: State, ops: seq<TrustOp>, a: Account, b: Account, currency: Currency)
    requires Typed(v) && a != b && forall op | op in ops :: op.amount >= 0
    ensures Reported(v, ops, a, b, currency) ==
            Position(v, a, b, currency) - SentBy(Transfers(v, ops), a, b, currency)
            + SentBy(Transfers(v, ops), b, a, currency) - SentBy(Notes(v, ops), b, a, currency)
  {
    RunNotes(v, map[], ops);
    RunMoves(v, ops, a, b, currency);
    NotesProper(v, ops);
    DeductionIsReceived(map[], Notes(v, ops), a, b, currency, Position(TrustRun(v, ops).0, a, b, currency));
  }

  lemma {:induction false} OneOp(v: State, op: TrustOp)
    requires Legal(v, op) && StepResult(v, op) == tesSUCCESS
    ensures Transfers(v, [op]) == [MovedBy(op)] && Notes(v, [op]) == [NoteOf(op)]
  {
    var w := TrustStep(v, op);
    assert Transfers(w, []) == [] && Notes(w, []) == [] && [op][1..] == [];
    assert Transfers(v, [op]) == [MovedBy(op)] + Transfers(w, [op][1..]);
    assert Notes(v, [op]) == [NoteOf(op)] + Notes(w, [op][1..]);
  }

  /** The balance of a new line is spendable at once exactly when the source was set, and is then
      held against the other account twice. */
  lemma {:induction false} CreateReported(v: State, op: TrustOp)
    requires Typed(v) && Legal(v, op) && op.CreateOp? && StepResult(v, op) == tesSUCCESS && op.amount >= 0
    ensures var (peer, set_) := Ends(op);
            && Reported(v, [op], set_, peer, op.currency) == (if op.setDst then 0 else op.amount)
            && Reported(v, [op], peer, set_, op.currency) == -op.amount - (if op.setDst then 0 else op.amount)
  {
    var (peer, set_) := Ends(op);
    LineOfOk(peer, set_, op.currency);
    OneOp(v, op);
    ReportedBalance(v, [op], set_, peer, op.currency);
    ReportedBalance(v, [op], peer, set_, op.currency);
  }

  /** So when every trustCreate sets its destination or moves nothing, nothing received in the scope
      can be spent: the balance reported is the starting one less everything sent. */
  lemma {:induction false} NothingReceivedIsSpendable(v: State, ops: seq<TrustOp>, a: Account, b: Account,
                                                      currency: Currency)
    requires Typed(v) && a != b
    requires forall op | op in ops :: op.amount >= 0 && NotesRight(op)
    ensures Reported(v, ops, a, b, currency) ==
            Position(v, a, b, currency) - SentBy(Transfers(v, ops), a, b, currency)
  {
    ReportedBalance(v, ops, a, b, currency);
    RightNotes(v, ops, b, a, currency);
  }
}
