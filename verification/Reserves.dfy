/** What the settings of a trust line decide: when a reserve is released, when a line goes, what a
    new line says, and what is left when a line cannot be listed or unlisted. */
module Reserves {
  import opened Entries
  import opened Directory
  import opened TrustLines

  // ---- Releasing a reserve ----

  /** Nothing the account could set on its side differs from the default. */
  predicate AtDefaults(side: Side, noSkywell: bool) {
    side.limit == 0 && side.qualityIn == 0 && side.qualityOut == 0 && !side.freeze && side.noSkywell == noSkywell
  }

  /** With `after` left of its balance, s has no more need of its reserve on the line. */
  predicate Releases(v: State, s: Account, r: Account, currency: Currency, after: int)
    requires HasAccount(v, s) && LineOf(s, r, currency) in v && v[LineOf(s, r, currency)].TrustLine?
  {
    var mine := SideOf(v[LineOf(s, r, currency)], s > r);
    mine.reserve && Position(v, s, r, currency) > 0 && after <= 0 && AtDefaults(mine, DefaultSkywell(v, s))
  }

  lemma {:induction false} ClearsExactly(v: State, s: Account, r: Account, currency: Currency, amount: int)
    requires HasAccount(v, s) && LineOf(s, r, currency) in v && v[LineOf(s, r, currency)].TrustLine?
    ensures CreditClears(v, s, r, currency, amount) <==>
            Releases(v, s, r, currency, Position(v, s, r, currency) - amount)
  {
  }

  lemma {:induction false} AdjustedSides(v: State, s: Account, r: Account, currency: Currency, amount: int)
    requires HasAccount(v, s) && s != r && LineOf(s, r, currency) in v && v[LineOf(s, r, currency)].TrustLine?
    ensures var u, k := Adjusted(v, s, r, currency, amount), LineOf(s, r, currency);
            var mine, count := SideOf(v[k], s > r), v[AccountKey(s)].ownerCount;
            var clears := CreditClears(v, s, r, currency, amount);
            && k in u && u[k].TrustLine? && SideOf(u[k], r > s) == SideOf(v[k], r > s)
            && SideOf(u[k], s > r) == mine.(reserve := mine.reserve && !clears)
            && HasAccount(u, s) && u[AccountKey(s)].ownerCount == count - if clears && count > 0 then 1 else 0
  {
  }

  /** What a credit over a line does to it and to the sender's owner count: the reserve goes if
      released, the line if it is then at zero without a reserve, and no other setting changes. */
  ghost predicate Settles(v: State, w: State, s: Account, r: Account, currency: Currency, released: bool, after: int)
    requires HasAccount(v, s) && s != r && LineOf(s, r, currency) in v && v[LineOf(s, r, currency)].TrustLine?
  {
    var k, count := LineOf(s, r, currency), v[AccountKey(s)].ownerCount;
    var mine, theirs := SideOf(v[k], s > r), SideOf(v[k], r > s);
    && (k !in w <==> released && after == 0 && !theirs.reserve)
    && (k in w ==>
          && w[k].TrustLine? && SideOf(w[k], r > s) == theirs
          && SideOf(w[k], s > r) == mine.(reserve := mine.reserve && !released))
    && HasAccount(w, s) && w[AccountKey(s)].ownerCount == count - if released && count > 0 then 1 else 0
  }

  lemma {:induction false} CreditSettles(v: State, s: Account, r: Account, currency: Currency, amount: int)
    requires HasAccount(v, s) && HasAccount(v, r) && s != r
    requires LineOf(s, r, currency) in v && v[LineOf(s, r, currency)].TrustLine?
    ensures Settles(v, Credited(v, s, r, currency, amount), s, r, currency, CreditClears(v, s, r, currency, amount),
                    Position(v, s, r, currency) - amount)
  {
    var u, k := Adjusted(v, s, r, currency, amount), LineOf(s, r, currency);
    LineOfOk(s, r, currency);
    AdjustedSides(v, s, r, currency, amount);
    if CreditDeletes(v, s, r, currency, amount) {
      UnlistedFrame(u, k);
      assert SameEntry(u - {k}, TrustDeleted(u, k), AccountKey(s)) && SameEntry(u - {k}, TrustDeleted(u, k), k);
    }
  }

  /** The sender's reserve goes exactly when its balance went from positive to zero or below with
      its side at the defaults. */
  lemma {:induction false} ReleasedExactly(v: State, w: State, s: Account, r: Account, currency: Currency, amount: int)
    requires HasAccount(v, s) && HasAccount(v, r) && s != r && w == Credited(v, s, r, currency, amount)
    requires LineOf(s, r, currency) in v && v[LineOf(s, r, currency)].TrustLine?
    ensures var after := Position(w, s, r, currency);
            Settles(v, w, s, r, currency, Releases(v, s, r, currency, after), after)
  {
    CreditSettles(v, s, r, currency, amount);
    ClearsExactly(v, s, r, currency, amount);
    CreditMoves(v, s, r, currency, amount, s, r, currency);
  }

  // ---- Reserves that are never released ----

  function OwnerOf(k: Key, high: bool): Account
    requires k.LineKey?
  {
    if high then k.high else k.low
  }

  /** One side of a line has a reserve and a setting that is not the default. */
  predicate Held(v: State, k: Key, high: bool) {
    && k.LineKey? && k.low < k.high && k in v && v[k].TrustLine? && HasAccount(v, OwnerOf(k, high))
    && SideOf(v[k], high).reserve && !AtDefaults(SideOf(v[k], high), DefaultSkywell(v, OwnerOf(k, high)))
  }

  /** The side and its account's flags are the same in both states. */
  predicate SameSide(v: State, w: State, k: Key, high: bool)
    requires Held(v, k, high)
  {
    && k in w && w[k].TrustLine? && SideOf(w[k], high) == SideOf(v[k], high)
    && HasAccount(w, OwnerOf(k, high))
    && w[AccountKey(OwnerOf(k, high))].flags == v[AccountKey(OwnerOf(k, high))].flags
  }

  lemma {:induction false} CreditKeepsHeld(v: State, s: Account, r: Account, currency: Currency, amount: int,
                                           high: bool)
    requires HasAccount(v, s) && HasAccount(v, r) && s != r && Held(v, LineOf(s, r, currency), high)
    ensures var w, k := Credited(v, s, r, currency, amount), LineOf(s, r, currency);
            k in w && w[k].TrustLine? && SideOf(w[k], high) == SideOf(v[k], high)
  {
    LineOfOk(s, r, currency);
    CreditSettles(v, s, r, currency, amount);
    ClearsExactly(v, s, r, currency, amount);
  }

  lemma {:induction false} StepKeepsHeld(v: State, op: TrustOp, k: Key, high: bool)
    requires Typed(v) && Legal(v, op) && Held(v, k, high)
    ensures SameSide(v, TrustStep(v, op), k, high)
  {
    var (s, r) := Ends(op);
    LineOfOk(s, r, op.currency);
    StepKeepsLines(v, op);
    if StepResult(v, op) == tesSUCCESS {
      if op.CreateOp? {
        CreatedFrame(v, LineFor(op), r > s, op.amount, op.terms);
      } else {
        CreditKeepsAccounts(v, s, r, op.currency, op.amount, OwnerOf(k, high));
        if k == LineFor(op) { CreditKeepsHeld(v, s, r, op.currency, op.amount, high); }
      }
    }
  }

  /** In every run a side with a limit, a quality, a freeze or a no-ripple flag unlike its account's
      default keeps its reserve and all its settings, and its line is never deleted. */
  lemma {:induction false} HeldForever(v: State, ops: seq<TrustOp>, k: Key, high: bool)
    requires Typed(v) && Held(v, k, high)
    ensures Held(TrustRun(v, ops).0, k, high) && SameSide(v, TrustRun(v, ops).0, k, high)
    decreases |ops|
  {
    if ops != [] {
      if Legal(v, ops[0]) {
        StepKeepsLines(v, ops[0]);
        StepKeepsHeld(v, ops[0], k, high);
        HeldForever(TrustStep(v, ops[0]), ops[1..], k, high);
      } else {
        HeldForever(v, ops[1..], k, high);
      }
    }
  }

  // ---- The flag test that never holds ----

  /** The masked flag is never 1. */
  lemma {:induction false} FlagTestFails(v: State, a: Account)
    requires HasAccount(v, a)
    ensures !DefaultSkywellEqualsOne(v, a)
  {
    var flags := v[AccountKey(a)].flags;
    assert flags & lsfDefaultSkywell != 1;
  }

  /** The side has a reserve, lacks the no-ripple flag, and its account has the default flag. */
  predicate Stuck(v: State, k: Key, high: bool) {
    && k.LineKey? && k.low < k.high && k in v && v[k].TrustLine?
    && SideOf(v[k], high).reserve && !SideOf(v[k], high).noSkywell
    && HasAccount(v, OwnerOf(k, high)) && DefaultSkywell(v, OwnerOf(k, high))
  }

  /** The line a credit makes for an account with the default flag is stuck. */
  lemma {:induction false} CreditSticks(v: State, s: Account, r: Account, currency: Currency, amount: int)
    requires HasAccount(v, s) && HasAccount(v, r) && s != r && LineOf(s, r, currency) !in v && DefaultSkywell(v, r)
    requires CreditResult(v, s, r, currency, amount) == tesSUCCESS
    ensures Stuck(Credited(v, s, r, currency, amount), LineOf(s, r, currency), r > s)
  {
    LineOfOk(s, r, currency);
    FlagTestFails(v, r);
    CreatedFrame(v, LineOf(s, r, currency), r > s, amount, DefaultTerms(v, r));
  }

  /** In every run a stuck side keeps its reserve, and its line is never deleted. */
  lemma {:induction false} StuckForever(v: State, ops: seq<TrustOp>, k: Key, high: bool)
    requires Typed(v) && Stuck(v, k, high)
    ensures Stuck(TrustRun(v, ops).0, k, high)
  {
    HeldForever(v, ops, k, high);
  }

  // ---- What a new line says ----

  /** The account being set gets its terms and the reserve; the other side is blank. */
  lemma {:induction false} CreatedAs(v: State, k: Key, setHigh: bool, balance: int, terms: Terms)
    requires k.LineKey? && k.low < k.high && TrustCreateResult(v, k) == tesSUCCESS
    ensures var w := TrustCreated(v, k, setHigh, balance, terms);
            && k in w && w[k].TrustLine?
            && var mine, theirs := SideOf(w[k], setHigh), SideOf(w[k], !setHigh);
               && mine.limit == terms.limit && mine.qualityIn == terms.qualityIn && mine.qualityOut == terms.qualityOut
               && mine.reserve && mine.auth == terms.auth && mine.freeze == terms.freeze
               && mine.noSkywell == terms.noSkywell
               && theirs.limit == 0 && theirs.qualityIn == 0 && theirs.qualityOut == 0
               && !theirs.reserve && !theirs.auth && !theirs.freeze && !theirs.noSkywell
               && (if setHigh then -w[k].balance else w[k].balance) == balance
  {
    CreatedFrame(v, k, setHigh, balance, terms);
    var v3, peer := LineEntered(v, k), if setHigh then k.low else k.high;
    if HasAccount(v3, peer) { FlagTestFails(v3, peer); }
  }

  /** A line that a credit makes asks for nothing: no limit, no qualities, no flags but the
      receiver's reserve. */
  lemma {:induction false} CreditMakes(v: State, s: Account, r: Account, currency: Currency, amount: int)
    requires HasAccount(v, s) && HasAccount(v, r) && s != r && LineOf(s, r, currency) !in v
    requires CreditResult(v, s, r, currency, amount) == tesSUCCESS
    ensures var w, k := Credited(v, s, r, currency, amount), LineOf(s, r, currency);
            && k in w && w[k].TrustLine?
            && AtDefaults(SideOf(w[k], r > s), false) && SideOf(w[k], r > s).reserve && !SideOf(w[k], r > s).auth
            && AtDefaults(SideOf(w[k], s > r), false) && !SideOf(w[k], s > r).reserve && !SideOf(w[k], s > r).auth
            && Position(w, r, s, currency) == amount
  {
    LineOfOk(s, r, currency);
    FlagTestFails(v, r);
    CreatedAs(v, LineOf(s, r, currency), r > s, amount, DefaultTerms(v, r));
  }

  /** Redeeming never makes a line. */
  lemma {:induction false} RedeemMakesNone(v: State, account: Account, issuer: Account, currency: Currency, amount: int,
                                           k: Key)
    requires HasAccount(v, account) && HasAccount(v, issuer) && account != issuer && Typed(v) && k.LineKey?
    ensures k in Redeemed(v, account, issuer, currency, amount) ==> k in v
    ensures LineOf(account, issuer, currency) !in v <==>
            RedeemResult(v, account, issuer, currency, amount) == tefINTERNAL
  {
    if LineOf(account, issuer, currency) in v && k != LineOf(account, issuer, currency) {
      CreditKeepsLines(v, account, issuer, currency, amount, k);
    }
  }

  // ---- What a failure leaves ----

  /** A line that could not be created stays behind blank, listed at most in the low account's
      directory: exactly when that has room. */
  lemma {:induction false} FailedCreateLeaves(v: State, k: Key, setHigh: bool, balance: int, terms: Terms)
    requires k.LineKey? && k.low < k.high && DirOk(v, OwnerDir(k.low)) && DirOk(v, OwnerDir(k.high))
    requires TrustCreateResult(v, k) != tesSUCCESS
    ensures var w, low, high := TrustCreated(v, k, setHigh, balance, terms), OwnerDir(k.low), OwnerDir(k.high);
            && PagesOnly(v[k := TrustLine(0, BlankSide, BlankSide)], w) && DirOk(w, low) && DirOk(w, high)
            && Contents(w, low) == Contents(v, low) + (if DirAddResult(v, low) == tesSUCCESS then [k] else [])
            && Contents(w, high) == Contents(v, high)
  {
    var v1, low, high := v[k := BlankLine], OwnerDir(k.low), OwnerDir(k.high);
    EnteredFrame(v, k);
    DirFrame(v, v1, low);
    DirFrame(v, v1, high);
    AddResultFrame(v, v1, low);
    DirAddRefinesAppend(v1, low, k);
    if DirAddResult(v1, low) == tesSUCCESS {
      var v2 := DirAdded(v1, low, k);
      DirFrame(v1, v2, high);
      DirAddRefinesAppend(v2, high, k);
    }
  }

  /** The line is listed where its side says, or, if it does not say, on a page up to 20. */
  ghost predicate Findable(v: State, k: Key, node: Option<nat>, a: Account) {
    exists n: nat :: k in Indexes(v, OwnerDir(a), n) && if node.Some? then n == node.value else n <= 20
  }

  lemma {:induction false} HalfLocatedExactly(v: State, k: Key, line: Entry, high: bool)
    requires k.LineKey? && line.TrustLine?
    ensures HalfLocated(v, k, line, high).Some? <==> Findable(v, k, SideOf(line, high).node, OwnerOf(k, high))
  {
    var node := SideOf(line, high).node;
    LocatedExactly(v, OwnerDir(OwnerOf(k, high)), node.GetOr(0), k, node.None?);
    if n: nat :| k in Indexes(v, OwnerDir(OwnerOf(k, high)), n) && (if node.Some? then n == node.value else n <= 20) {
      assert n == node.GetOr(0) || (node.None? && node.GetOr(0) <= n <= SOFT_LIMIT);
    }
  }

  /** The line is taken off one page, whose last entry takes its place. */
  ghost predicate TakenOff(v: State, w: State, r: Root, k: Key)
    requires DirOk(v, r) && DirOk(w, r)
  {
    && RemovedOnce(Contents(v, r), Contents(w, r), k, false)
    && exists n :: Taken(Indexes(v, r, n), Indexes(w, r, n), k, false)
  }

  lemma {:induction false} UnlistHalf(v: State, k: Key, line: Entry, high: bool, other: Account)
    requires k.LineKey? && line.TrustLine? && OwnerOf(k, high) != other
    requires DirOk(v, OwnerDir(OwnerOf(k, high))) && DirOk(v, OwnerDir(other))
    ensures var w, r := HalfUnlisted(v, k, line, high), OwnerDir(OwnerOf(k, high));
            && DirOk(w, r) && DirOk(w, OwnerDir(other)) && Contents(w, OwnerDir(other)) == Contents(v, OwnerDir(other))
            && (forall n :: Indexes(w, OwnerDir(other), n) == Indexes(v, OwnerDir(other), n))
            && (if HalfLocated(v, k, line, high).Some? then TakenOff(v, w, r, k) else w == v)
  {
    var node, r := SideOf(line, high).node, OwnerDir(OwnerOf(k, high));
    DirDeleteRefinesRemove(v, false, node.GetOr(0), r, k, false, node.None?);
    DirFrame(v, HalfUnlisted(v, k, line, high), OwnerDir(other));
  }

  lemma {:induction false} TakenOffFrame(v: State, v': State, w: State, w': State, r: Root, k: Key)
    requires DirOk(v, r) && DirOk(w, r) && SamePages(v, v', r) && SamePages(w, w', r)
    ensures DirOk(v', r) && DirOk(w', r)
    ensures TakenOff(v, w, r, k) ==> TakenOff(v', w', r, k)
    ensures Contents(w, r) == Contents(v, r) ==> Contents(w', r) == Contents(v', r)
  {
    DirFrame(v, v', r);
    DirFrame(w, w', r);
  }

  /** What becomes of one directory of a deleted line. */
  ghost predicate Unlists(v: State, w: State, r: Root, k: Key, found: bool)
    requires DirOk(v, r)
  {
    DirOk(w, r) && if found then TakenOff(v, w, r, k) else Contents(w, r) == Contents(v, r)
  }

  lemma {:induction false} HalvesLocated(v: State, k: Key)
    requires k.LineKey? && k.low < k.high && k in v && v[k].TrustLine?
    requires DirOk(v, OwnerDir(k.low)) && DirOk(v, OwnerDir(k.high))
    ensures HalfLocated(v, k, v[k], false).Some? <==> Findable(v, k, v[k].low.node, k.low)
    ensures HalfLocated(HalfUnlisted(v, k, v[k], false), k, v[k], true).Some? <==>
            Findable(v, k, v[k].high.node, k.high)
  {
    var v1 := HalfUnlisted(v, k, v[k], false);
    UnlistHalf(v, k, v[k], false, k.high);
    HalfLocatedExactly(v, k, v[k], false);
    HalfLocatedExactly(v1, k, v[k], true);
  }

  lemma {:induction false} HalfPages(v: State, k: Key, line: Entry, high: bool, other: Account)
    requires k.LineKey? && line.TrustLine? && OwnerOf(k, high) != other
    ensures SamePages(v, HalfUnlisted(v, k, line, high), OwnerDir(other))
    ensures SamePages(HalfUnlisted(v, k, line, high), v, OwnerDir(other))
  {
    var node := SideOf(line, high).node;
    DirDeletedOutside(v, false, node.GetOr(0), OwnerDir(OwnerOf(k, high)), k, false, node.None?);
  }

  lemma {:induction false} UnlistsLow(v: State, w: State, k: Key)
    requires k.LineKey? && k.low < k.high && k in v && v[k].TrustLine? && w == TrustDeleted(v, k)
    requires DirOk(v, OwnerDir(k.low)) && DirOk(v, OwnerDir(k.high))
    ensures Unlists(v, w, OwnerDir(k.low), k, HalfLocated(v, k, v[k], false).Some?)
  {
    var v1 := HalfUnlisted(v, k, v[k], false);
    UnlistHalf(v, k, v[k], false, k.high);
    HalfPages(v1, k, v[k], true, k.low);
    assert SamePages(v1, w, OwnerDir(k.low));
    TakenOffFrame(v, v, v1, w, OwnerDir(k.low), k);
  }

  lemma {:induction false} UnlistsHigh(v: State, v1: State, w: State, k: Key)
    requires k.LineKey? && k.low < k.high && k in v && v[k].TrustLine? && w == TrustDeleted(v, k)
    requires v1 == HalfUnlisted(v, k, v[k], false)
    requires DirOk(v1, OwnerDir(k.low)) && DirOk(v1, OwnerDir(k.high)) && SamePages(v1, v, OwnerDir(k.high))
    ensures DirOk(v, OwnerDir(k.high)) && Unlists(v, w, OwnerDir(k.high), k, TrustDeleteResult(v, k) == tesSUCCESS)
  {
    var high := OwnerDir(k.high);
    DirFrame(v1, v, high);
    if HalfLocated(v, k, v[k], false).Some? {
      var v2 := HalfUnlisted(v1, k, v[k], true);
      UnlistHalf(v1, k, v[k], true, k.low);
      assert SamePages(v2, w, high);
      TakenOffFrame(v1, v, v2, w, high, k);
    } else {
      assert SamePages(v1, w, high);
      TakenOffFrame(v1, v, v1, w, high, k);
    }
  }

  /** trustDelete succeeds exactly when both directories list the line where they are searched;
      the line goes in any case, the low directory's entry if found there, the high one's if both
      are. */
  lemma {:induction false} DeletesExactly(v: State, k: Key)
    requires k.LineKey? && k.low < k.high && k in v && v[k].TrustLine?
    requires DirOk(v, OwnerDir(k.low)) && DirOk(v, OwnerDir(k.high))
    ensures var inLow, inHigh := Findable(v, k, v[k].low.node, k.low), Findable(v, k, v[k].high.node, k.high);
            && (TrustDeleteResult(v, k) == tesSUCCESS <==> inLow && inHigh)
            && PagesOnly(v - {k}, TrustDeleted(v, k))
            && Unlists(v, TrustDeleted(v, k), OwnerDir(k.low), k, inLow)
            && Unlists(v, TrustDeleted(v, k), OwnerDir(k.high), k, inLow && inHigh)
  {
    UnlistedFrame(v, k);
    HalvesLocated(v, k);
    UnlistsLow(v, TrustDeleted(v, k), k);
    HalfPages(v, k, v[k], false, k.high);
    UnlistHalf(v, k, v[k], false, k.high);
    UnlistsHigh(v, HalfUnlisted(v, k, v[k], false), TrustDeleted(v, k), k);
  }

  // ---- Owner directories that empty ----

  lemma {:induction false} TidyFrame(v: State, w: State, r: Root)
    requires Tidy(v, r) && SamePages(v, w, r)
    ensures Tidy(w, r) && PagesOf(w, r) == PagesOf(v, r)
  {
    DirFrame(v, w, r);
  }

  lemma {:induction false} AddTidies(v: State, b: Account, x: Key, a: Account)
    requires Tidy(v, OwnerDir(a)) && DirOk(v, OwnerDir(b))
    ensures Tidy(DirAdded(v, OwnerDir(b), x), OwnerDir(a))
  {
    if a == b {
      StepTidy(v, OwnerDir(b), Enter(x));
    } else {
      AddOutside(v, OwnerDir(b), x);
      TidyFrame(v, DirAdded(v, OwnerDir(b), x), OwnerDir(a));
    }
  }

  lemma {:induction false} HalfTidies(v: State, k: Key, line: Entry, high: bool, a: Account)
    requires k.LineKey? && line.TrustLine? && DirOk(v, OwnerDir(OwnerOf(k, high)))
    requires Tidy(v, OwnerDir(a)) && |PagesOf(v, OwnerDir(a))| <= 2
    ensures Tidy(HalfUnlisted(v, k, line, high), OwnerDir(a))
    ensures OwnerOf(k, high) != a ==> PagesOf(HalfUnlisted(v, k, line, high), OwnerDir(a)) == PagesOf(v, OwnerDir(a))
  {
    var node, b := SideOf(line, high).node, OwnerOf(k, high);
    if a == b {
      StepTidy(v, OwnerDir(b), Leave(k, node.GetOr(0), false, false, node.None?));
    } else {
      DirDeletedOutside(v, false, node.GetOr(0), OwnerDir(b), k, false, node.None?);
      TidyFrame(v, HalfUnlisted(v, k, line, high), OwnerDir(a));
    }
  }

  lemma {:induction false} EnterTidies(v: State, k: Key, a: Account)
    requires k.LineKey? && Tidy(v, OwnerDir(a)) && DirOk(v, OwnerDir(k.low)) && DirOk(v, OwnerDir(k.high))
    ensures Tidy(LineEntered(v, k), OwnerDir(a))
  {
    var v1 := v[k := BlankLine];
    TidyFrame(v, v1, OwnerDir(a));
    DirFrame(v, v1, OwnerDir(k.low));
    DirFrame(v, v1, OwnerDir(k.high));
    AddTidies(v1, k.low, k, a);
    AddKeepsDirs(v1, k.low, k, k.high);
    AddTidies(DirAdded(v1, OwnerDir(k.low), k), k.high, k, a);
  }

  lemma {:induction false} DeleteTidies(v: State, k: Key, a: Account)
    requires k.LineKey? && k.low < k.high && k in v && v[k].TrustLine?
    requires DirOk(v, OwnerDir(k.low)) && DirOk(v, OwnerDir(k.high))
    requires Tidy(v, OwnerDir(a)) && |PagesOf(v, OwnerDir(a))| <= 2
    ensures Tidy(TrustDeleted(v, k), OwnerDir(a))
  {
    var v1 := HalfUnlisted(v, k, v[k], false);
    HalfTidies(v, k, v[k], false, a);
    HalfKeepsDirs(v, k, v[k], false, k.high);
    if HalfLocated(v, k, v[k], false).Some? {
      var v2 := HalfUnlisted(v1, k, v[k], true);
      if a == k.low {
        DirDeletedOutside(v1, false, v[k].high.node.GetOr(0), OwnerDir(k.high), k, false, v[k].high.node.None?);
        TidyFrame(v1, v2, OwnerDir(a));
      } else {
        HalfTidies(v1, k, v[k], true, a);
      }
      TidyFrame(v2, v2 - {k}, OwnerDir(a));
    } else {
      TidyFrame(v1, v1 - {k}, OwnerDir(a));
    }
  }

  lemma {:induction false} AdjustedPages(v: State, u: State, s: Account, r: Account, currency: Currency, amount: int,
                                         a: Account)
    requires LineOf(s, r, currency) in v && v[LineOf(s, r, currency)].TrustLine? && HasAccount(v, s) && s != r
    requires u == Adjusted(v, s, r, currency, amount)
    ensures SamePages(v, u, OwnerDir(a))
    ensures LineOf(s, r, currency) in u && u[LineOf(s, r, currency)].TrustLine?
  {
    AdjustedFrame(v, s, r, currency, amount);
  }

  lemma {:induction false} CreditTidies(v: State, s: Account, r: Account, currency: Currency, amount: int, a: Account)
    requires CreditReady(v, s, r, currency) && Tidy(v, OwnerDir(a)) && |PagesOf(v, OwnerDir(a))| <= 2
    ensures Tidy(Credited(v, s, r, currency, amount), OwnerDir(a))
  {
    var k, w := LineOf(s, r, currency), Credited(v, s, r, currency, amount);
    LineOfOk(s, r, currency);
    if k !in v {
      EnterTidies(v, k, a);
      TidyFrame(LineEntered(v, k), w, OwnerDir(a));
    } else {
      var u := Adjusted(v, s, r, currency, amount);
      AdjustedPages(v, u, s, r, currency, amount, a);
      AdjustedPages(v, u, s, r, currency, amount, s);
      AdjustedPages(v, u, s, r, currency, amount, r);
      TidyFrame(v, u, OwnerDir(a));
      DirFrame(v, u, OwnerDir(s));
      DirFrame(v, u, OwnerDir(r));
      DeleteTidies(u, k, a);
    }
  }

  /** The owner directory of a never has more than two pages along the run. */
  ghost predicate RunNarrow(v: State, ops: seq<TrustOp>, a: Account)
    decreases |ops|
  {
    && DirOk(v, OwnerDir(a)) && |PagesOf(v, OwnerDir(a))| <= 2
    && (ops != [] ==> RunNarrow(if Legal(v, ops[0]) then TrustStep(v, ops[0]) else v, ops[1..], a))
  }

  lemma {:induction false} StepTidies(v: State, op: TrustOp, a: Account)
    requires Listed(v) && Legal(v, op) && Tidy(v, OwnerDir(a)) && |PagesOf(v, OwnerDir(a))| <= 2
    ensures Tidy(TrustStep(v, op), OwnerDir(a))
  {
    var (s, r) := Ends(op);
    LineOfOk(s, r, op.currency);
    assert ListedRight(v, s) && ListedRight(v, r);
    if LineFor(op) in v { assert LineOk(v, LineFor(op)); }
    if StepResult(v, op) == tesSUCCESS {
      if op.CreateOp? {
        EnterTidies(v, LineFor(op), a);
        TidyFrame(LineEntered(v, LineFor(op)), TrustStep(v, op), OwnerDir(a));
      } else {
        CreditTidies(v, s, r, op.currency, op.amount, a);
      }
    }
  }

  /** In every run an owner directory of at most two pages is reported empty exactly when it lists
      nothing. */
  lemma {:induction false} OwnerDirEmpties(v: State, ops: seq<TrustOp>, a: Account)
    requires Listed(v) && Tidy(v, OwnerDir(a)) && RunNarrow(v, ops, a)
    ensures var w := TrustRun(v, ops).0;
            Tidy(w, OwnerDir(a)) && (DirIsEmpty(w, OwnerDir(a)) <==> Contents(w, OwnerDir(a)) == [])
    decreases |ops|
  {
    if ops == [] {
      DirIsEmptyExactly(v, OwnerDir(a));
    } else if Legal(v, ops[0]) {
      TrustStepKeeps(v, ops[0]);
      StepTidies(v, ops[0], a);
      OwnerDirEmpties(TrustStep(v, ops[0]), ops[1..], a);
    } else {
      OwnerDirEmpties(v, ops[1..], a);
    }
  }
}
