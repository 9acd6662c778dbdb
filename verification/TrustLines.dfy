/** Trust lines and the credits that create, adjust and delete them, as functions of the
    ledger state.  A line stores one balance, in the terms of its low account. */
module TrustLines {
  import opened Entries
  import opened Directory

  const MAX_OWNER_COUNT := 0xffff_ffff
  const lsfDefaultSkywell: bv32 := 0x0080_0000

  function LineOf(a: Account, b: Account, currency: Currency): Key {
    if a < b then LineKey(a, b, currency) else LineKey(b, a, currency)
  }

  /** What a holds of b's obligations: positive when b owes a. */
  function Position(v: State, a: Account, b: Account, currency: Currency): int {
    var k := LineOf(a, b, currency);
    if k in v && v[k].TrustLine? then (if a < b then v[k].balance else -v[k].balance) else 0
  }

  function SideOf(line: Entry, high: bool): Side
    requires line.TrustLine?
  {
    if high then line.high else line.low
  }

  function WithSide(line: Entry, high: bool, side: Side): Entry
    requires line.TrustLine?
  {
    if high then line.(high := side) else line.(low := side)
  }

  predicate HasAccount(v: State, a: Account) {
    AccountKey(a) in v && v[AccountKey(a)].AccountRoot?
  }

  predicate DefaultSkywell(v: State, a: Account)
    requires HasAccount(v, a)
  {
    v[AccountKey(a)].flags & lsfDefaultSkywell != 0
  }

  /** The test the source uses when a line is created; it compares the masked flags with 1. */
  predicate DefaultSkywellEqualsOne(v: State, a: Account)
    requires HasAccount(v, a)
  {
    v[AccountKey(a)].flags & lsfDefaultSkywell == 1
  }

  // ---- Owner counts ----

  function CountUp(v: State, a: Account): State {
    if HasAccount(v, a) && v[AccountKey(a)].ownerCount != MAX_OWNER_COUNT then
      v[AccountKey(a) := v[AccountKey(a)].(ownerCount := v[AccountKey(a)].ownerCount + 1)]
    else v
  }

  function CountDown(v: State, a: Account): State {
    if HasAccount(v, a) && v[AccountKey(a)].ownerCount != 0 then
      v[AccountKey(a) := v[AccountKey(a)].(ownerCount := v[AccountKey(a)].ownerCount - 1)]
    else v
  }

  // ---- trustCreate, trustDelete ----

  /** The settings of the account that asks for a line. */
  datatype Terms = Terms(auth: bool, noSkywell: bool, freeze: bool, limit: int, qualityIn: nat, qualityOut: nat)

  const BlankSide := Side(0, 0, 0, false, false, false, false, None)
  const BlankLine := TrustLine(0, BlankSide, BlankSide)

  function SetSide(terms: Terms, node: nat): Side {
    Side(terms.limit, terms.qualityIn, terms.qualityOut, true, terms.auth, terms.noSkywell, terms.freeze, Some(node))
  }

  /** The line written by trustCreate: `setHigh` tells which account is being set, `balance`
      is in that account's terms. */
  function NewLine(setHigh: bool, balance: int, terms: Terms, peerNoSkywell: bool, lowNode: nat, highNode: nat): Entry {
    if setHigh then
      TrustLine(-balance, BlankSide.(noSkywell := peerNoSkywell, node := Some(lowNode)), SetSide(terms, highNode))
    else
      TrustLine(balance, SetSide(terms, lowNode), BlankSide.(noSkywell := peerNoSkywell, node := Some(highNode)))
  }

  /** The line entered in both owner directories, not yet filled in; a full low directory ends it. */
  function LineEntered(v: State, k: Key): State
    requires k.LineKey?
  {
    var v1 := v[k := BlankLine];
    if !DirAddResult(v1, OwnerDir(k.low)).tesSUCCESS? then v1
    else DirAdded(DirAdded(v1, OwnerDir(k.low), k), OwnerDir(k.high), k)
  }

  function TrustCreateResult(v: State, k: Key): Ter
    requires k.LineKey?
  {
    var v1 := v[k := BlankLine];
    if !DirAddResult(v1, OwnerDir(k.low)).tesSUCCESS? then DirAddResult(v1, OwnerDir(k.low))
    else DirAddResult(DirAdded(v1, OwnerDir(k.low), k), OwnerDir(k.high))
  }

  /** trustCreate: with a full directory the entry is left as it is so far. */
  function TrustCreated(v: State, k: Key, setHigh: bool, balance: int, terms: Terms): State
    requires k.LineKey?
  {
    if !TrustCreateResult(v, k).tesSUCCESS? then LineEntered(v, k)
    else CountUp(LineWritten(v, k, setHigh, balance, terms), if setHigh then k.high else k.low)
  }

  function HalfUnlisted(v: State, k: Key, line: Entry, high: bool): State
    requires k.LineKey? && line.TrustLine?
  {
    var node := SideOf(line, high).node;
    DirDeleted(v, false, node.GetOr(0), OwnerDir(if high then k.high else k.low), k, false, node.None?)
  }

  function HalfLocated(v: State, k: Key, line: Entry, high: bool): Option<nat>
    requires k.LineKey? && line.TrustLine?
  {
    var node := SideOf(line, high).node;
    Located(v, OwnerDir(if high then k.high else k.low), node.GetOr(0), k, node.None?)
  }

  /** trustDelete: the second directory is left alone when the first deletion fails. */
  function TrustDeleted(v: State, k: Key): State
    requires k.LineKey? && k in v && v[k].TrustLine?
  {
    var v1 := HalfUnlisted(v, k, v[k], false);
    (if HalfLocated(v, k, v[k], false).Some? then HalfUnlisted(v1, k, v[k], true) else v1) - {k}
  }

  function TrustDeleteResult(v: State, k: Key): Ter
    requires k.LineKey? && k in v && v[k].TrustLine?
  {
    if HalfLocated(v, k, v[k], false).None? then tefBAD_LEDGER
    else if HalfLocated(HalfUnlisted(v, k, v[k], false), k, v[k], true).None? then tefBAD_LEDGER
    else tesSUCCESS
  }

  // ---- Credits on an existing line ----

  /** The sender's side no longer needs its reserve: its balance went from positive to zero
      or below and everything else it could set is at its default. */
  predicate ClearsReserve(side: Side, before: int, after: int, senderDefault: bool) {
    && before > 0
    && after <= 0
    && side.reserve
    && side.noSkywell == senderDefault
    && !side.freeze
    && side.limit == 0
    && side.qualityIn == 0
    && side.qualityOut == 0
  }

  predicate CreditClears(v: State, s: Account, r: Account, currency: Currency, amount: int)
    requires LineOf(s, r, currency) in v && v[LineOf(s, r, currency)].TrustLine? && HasAccount(v, s)
  {
    var before := Position(v, s, r, currency);
    ClearsReserve(SideOf(v[LineOf(s, r, currency)], s > r), before, before - amount, DefaultSkywell(v, s))
  }

  /** The line after s sent `amount` to r over it. */
  function AdjustedLine(v: State, s: Account, r: Account, currency: Currency, amount: int): Entry
    requires LineOf(s, r, currency) in v && v[LineOf(s, r, currency)].TrustLine? && HasAccount(v, s)
  {
    var line, high := v[LineOf(s, r, currency)], s > r;
    var after := Position(v, s, r, currency) - amount;
    var cleared := if CreditClears(v, s, r, currency, amount)
                   then WithSide(line, high, SideOf(line, high).(reserve := false))
                   else line;
    cleared.(balance := if high then -after else after)
  }

  function Adjusted(v: State, s: Account, r: Account, currency: Currency, amount: int): State
    requires LineOf(s, r, currency) in v && v[LineOf(s, r, currency)].TrustLine? && HasAccount(v, s)
  {
    var v1 := if CreditClears(v, s, r, currency, amount) then CountDown(v, s) else v;
    v1[LineOf(s, r, currency) := AdjustedLine(v, s, r, currency, amount)]
  }

  /** The line goes when its balance is zero and the receiver has no reserve on it either. */
  predicate CreditDeletes(v: State, s: Account, r: Account, currency: Currency, amount: int)
    requires LineOf(s, r, currency) in v && v[LineOf(s, r, currency)].TrustLine? && HasAccount(v, s)
  {
    && CreditClears(v, s, r, currency, amount)
    && Position(v, s, r, currency) == amount
    && !SideOf(v[LineOf(s, r, currency)], r > s).reserve
  }

  function DefaultTerms(v: State, receiver: Account): Terms
    requires HasAccount(v, receiver)
  {
    Terms(false, DefaultSkywellEqualsOne(v, receiver), false, 0, 0, 0)
  }

  /** skywellCredit as a function of the state. */
  function Credited(v: State, s: Account, r: Account, currency: Currency, amount: int): State
    requires HasAccount(v, s) && HasAccount(v, r)
  {
    var k := LineOf(s, r, currency);
    if k !in v then TrustCreated(v, k, r > s, amount, DefaultTerms(v, r))
    else if !v[k].TrustLine? then v
    else if CreditDeletes(v, s, r, currency, amount) then TrustDeleted(Adjusted(v, s, r, currency, amount), k)
    else Adjusted(v, s, r, currency, amount)
  }

  function CreditResult(v: State, s: Account, r: Account, currency: Currency, amount: int): Ter
    requires HasAccount(v, s) && HasAccount(v, r)
  {
    var k := LineOf(s, r, currency);
    if k !in v then TrustCreateResult(v, k)
    else if !v[k].TrustLine? then tesSUCCESS
    else if CreditDeletes(v, s, r, currency, amount) then TrustDeleteResult(Adjusted(v, s, r, currency, amount), k)
    else tesSUCCESS
  }

  // ---- The invariant ----

  /** The page of a's owner directory the line is recorded on. */
  function NodeOf(v: State, k: Key, a: Account): Option<nat> {
    if !(k.LineKey? && k in v && v[k].TrustLine?) then None
    else if a == k.low then v[k].low.node
    else if a == k.high then v[k].high.node
    else None
  }

  predicate ReservedBy(v: State, k: Key, a: Account) {
    && k.LineKey? && k in v && v[k].TrustLine?
    && ((a == k.low && v[k].low.reserve) || (a == k.high && v[k].high.reserve))
  }

  function ReservedLines(v: State, a: Account): set<Key> {
    set k | k in v && ReservedBy(v, k, a)
  }

  /** What the owner count of a covers besides trust lines. */
  function OtherOwned(v: State, a: Account): int {
    if HasAccount(v, a) then v[AccountKey(a)].ownerCount - |ReservedLines(v, a)| else 0
  }

  ghost predicate LineOk(v: State, k: Key)
    requires k in v
  {
    k.LineKey? ==>
      && v[k].TrustLine?
      && k.low < k.high
      && HasAccount(v, k.low) && HasAccount(v, k.high)
      && v[k].low.node.Some? && v[k].high.node.Some?
  }

  /** Every live line is listed once on each side, on the page it records; no other line is
      listed anywhere. */
  ghost predicate ListedRight(v: State, a: Account) {
    && DirOk(v, OwnerDir(a))
    && forall n: nat, k: Key | k.LineKey? ::
         Count(Indexes(v, OwnerDir(a), n), k) == if NodeOf(v, k, a) == Some(n) then 1 else 0
  }

  /** Every line is well formed and listed right. */
  ghost predicate Listed(v: State) {
    && (forall k | k in v :: LineOk(v, k))
    && (forall a :: ListedRight(v, a))
  }

  /** And owner counts cover at least the reserved lines. */
  ghost predicate TrustOk(v: State) {
    Listed(v) && forall a :: OtherOwned(v, a) >= 0
  }

  lemma {:induction false} ListedFrame(v: State, w: State, a: Account)
    requires ListedRight(v, a) && SamePages(v, w, OwnerDir(a))
    requires forall k: Key | k.LineKey? :: NodeOf(w, k, a) == NodeOf(v, k, a)
    ensures ListedRight(w, a)
  {
    DirFrame(v, w, OwnerDir(a));
  }

  // ---- An adjusted line ----

  /** Everything but the line and the sender's owner count is as before. */
  lemma {:induction false} AdjustedFrame(v: State, s: Account, r: Account, currency: Currency, amount: int)
    requires LineOf(s, r, currency) in v && v[LineOf(s, r, currency)].TrustLine? && HasAccount(v, s) && s != r
    ensures var w, k := Adjusted(v, s, r, currency, amount), LineOf(s, r, currency);
            && (forall j | j != k && j != AccountKey(s) :: (j in w <==> j in v) && (j in v ==> w[j] == v[j]))
            && HasAccount(w, s)
            && w[k] == AdjustedLine(v, s, r, currency, amount)
  {
  }

  lemma {:induction false} AdjustedPositions(v: State, s: Account, r: Account, currency: Currency, amount: int,
                                             a: Account, b: Account, c: Currency)
    requires LineOf(s, r, currency) in v && v[LineOf(s, r, currency)].TrustLine? && HasAccount(v, s) && s != r && a != b
    ensures var w := Adjusted(v, s, r, currency, amount);
            Position(w, a, b, c) == Position(v, a, b, c) + Moved(s, r, currency, amount, a, b, c)
  {
  }

  /** How a credit from s to r moves what a holds of b. */
  function Moved(s: Account, r: Account, currency: Currency, amount: int, a: Account, b: Account, c: Currency): int {
    if c != currency then 0
    else if a == s && b == r then -amount
    else if a == r && b == s then amount
    else 0
  }

  lemma {:induction false} AdjustedReserved(v: State, s: Account, r: Account, currency: Currency, amount: int,
                                            a: Account)
    requires LineOf(s, r, currency) in v && v[LineOf(s, r, currency)].TrustLine? && HasAccount(v, s) && s != r
    ensures var w := Adjusted(v, s, r, currency, amount);
            ReservedLines(w, a) ==
              ReservedLines(v, a) -
              (if a == s && CreditClears(v, s, r, currency, amount) then {LineOf(s, r, currency)} else {})
  {
    var w, k := Adjusted(v, s, r, currency, amount), LineOf(s, r, currency);
    AdjustedFrame(v, s, r, currency, amount);
    forall j
      ensures ReservedBy(w, j, a) <==>
        ReservedBy(v, j, a) && !(j == k && a == s && CreditClears(v, s, r, currency, amount))
    {
    }
  }

  /** A cleared reserve is paid for by one unit of the sender's owner count, unless that is
      already zero; it is not if the count covers the reserved lines. */
  lemma {:induction false} AdjustedOwned(v: State, s: Account, r: Account, currency: Currency, amount: int, a: Account)
    requires LineOf(s, r, currency) in v && v[LineOf(s, r, currency)].TrustLine? && HasAccount(v, s) && s != r
    ensures OtherOwned(Adjusted(v, s, r, currency, amount), a) ==
            OtherOwned(v, a) +
            if a == s && CreditClears(v, s, r, currency, amount) && v[AccountKey(s)].ownerCount == 0 then 1 else 0
    ensures CreditClears(v, s, r, currency, amount) && OtherOwned(v, s) >= 0 ==> v[AccountKey(s)].ownerCount > 0
  {
    var k := LineOf(s, r, currency);
    AdjustedReserved(v, s, r, currency, amount, a);
    if CreditClears(v, s, r, currency, amount) {
      assert ReservedBy(v, k, s);
      assert k in ReservedLines(v, s);
    }
  }

  lemma {:induction false} AdjustedLines(v: State, s: Account, r: Account, currency: Currency, amount: int, j: Key)
    requires LineOf(s, r, currency) in v && v[LineOf(s, r, currency)].TrustLine? && HasAccount(v, s) && s != r
    requires j in v && LineOk(v, j)
    ensures j in Adjusted(v, s, r, currency, amount) && LineOk(Adjusted(v, s, r, currency, amount), j)
  {
  }

  lemma {:induction false} AdjustedListed(v: State, s: Account, r: Account, currency: Currency, amount: int, a: Account)
    requires LineOf(s, r, currency) in v && v[LineOf(s, r, currency)].TrustLine? && HasAccount(v, s) && s != r
    requires ListedRight(v, a)
    ensures ListedRight(Adjusted(v, s, r, currency, amount), a)
  {
    var w := Adjusted(v, s, r, currency, amount);
    AdjustedFrame(v, s, r, currency, amount);
    forall k: Key | k.LineKey?
      ensures NodeOf(w, k, a) == NodeOf(v, k, a)
    {
    }
    assert SamePages(v, w, OwnerDir(a));
    ListedFrame(v, w, a);
  }

  lemma {:induction false} AdjustedOk(v: State, s: Account, r: Account, currency: Currency, amount: int)
    requires Listed(v) && LineOf(s, r, currency) in v && s != r && HasAccount(v, s)
    ensures v[LineOf(s, r, currency)].TrustLine?
    ensures Listed(Adjusted(v, s, r, currency, amount))
  {
    assert LineOk(v, LineOf(s, r, currency));
    forall j | j in Adjusted(v, s, r, currency, amount)
      ensures LineOk(Adjusted(v, s, r, currency, amount), j)
    {
      AdjustedLines(v, s, r, currency, amount, j);
    }
    forall a
      ensures ListedRight(Adjusted(v, s, r, currency, amount), a)
    {
      AdjustedListed(v, s, r, currency, amount, a);
    }
  }

  // ---- A deleted line ----

  /** Nothing outside the owner directories of a and b differs. */
  ghost predicate SameButDirs(v: State, w: State, a: Account, b: Account) {
    forall j: Key | !(j.PageKey? && (j.root == OwnerDir(a) || j.root == OwnerDir(b))) ::
      (j in w <==> j in v) && (j in v ==> w[j] == v[j])
  }

  /** In w, a's directory lists the lines of v except k. */
  ghost predicate ListedBut(v: State, w: State, a: Account, k: Key) {
    && DirOk(w, OwnerDir(a))
    && forall n: nat, j: Key | j.LineKey? ::
         Count(Indexes(w, OwnerDir(a), n), j) == if j != k && NodeOf(v, j, a) == Some(n) then 1 else 0
  }

  lemma {:induction false} UnlistOne(v: State, u: State, w: State, a: Account, m: nat, k: Key)
    requires ListedRight(v, a) && k.LineKey? && NodeOf(v, k, a) == Some(m)
    requires SamePages(v, u, OwnerDir(a)) && Deleted(u, w, OwnerDir(a), m, k, false)
    ensures ListedBut(v, w, a, k)
  {
    DirFrame(v, u, OwnerDir(a));
    forall n: nat, j: Key | j.LineKey?
      ensures Count(Indexes(w, OwnerDir(a), n), j) == if j != k && NodeOf(v, j, a) == Some(n) then 1 else 0
    {
      assert Count(Indexes(v, OwnerDir(a), n), j) == if NodeOf(v, j, a) == Some(n) then 1 else 0;
      if n == m { RemoveOneCount(Indexes(u, OwnerDir(a), m), k, false, j); }
    }
  }

  lemma {:induction false} ListedButFrame(v: State, u: State, w: State, a: Account, k: Key)
    requires ListedBut(v, u, a, k) && SamePages(u, w, OwnerDir(a))
    ensures ListedBut(v, w, a, k)
  {
    DirFrame(u, w, OwnerDir(a));
  }

  lemma {:induction false} UnlistedRight(v: State, w: State, a: Account, k: Key)
    requires ListedBut(v, w, a, k) && k !in w
    requires forall j: Key | j.LineKey? && j != k :: NodeOf(w, j, a) == NodeOf(v, j, a)
    ensures ListedRight(w, a)
  {
    forall n: nat, j: Key | j.LineKey?
      ensures Count(Indexes(w, OwnerDir(a), n), j) == if NodeOf(w, j, a) == Some(n) then 1 else 0
    {
      assert NodeOf(w, k, a) == None;
    }
  }

  /** A listed line is found on its recorded page. */
  lemma {:induction false} RecordedPageLists(v: State, a: Account, k: Key, m: nat)
    requires ListedRight(v, a) && k.LineKey? && NodeOf(v, k, a) == Some(m)
    ensures k in Indexes(v, OwnerDir(a), m)
  {
    assert Count(Indexes(v, OwnerDir(a), m), k) == 1;
  }

  /** One half of trustDelete finds the line and takes it off that owner's directory. */
  lemma {:induction false} HalfUnlistedRight(v: State, u: State, k: Key, line: Entry, high: bool)
    requires k.LineKey? && line.TrustLine? && SideOf(line, high).node.Some?
    requires var a := if high then k.high else k.low;
             ListedRight(v, a) && SamePages(v, u, OwnerDir(a)) && NodeOf(v, k, a) == SideOf(line, high).node
    ensures HalfLocated(u, k, line, high).Some?
    ensures var a, w := if high then k.high else k.low, HalfUnlisted(u, k, line, high);
            ListedBut(v, w, a, k) && SameOutside(u, w, OwnerDir(a))
  {
    var a, m := if high then k.high else k.low, SideOf(line, high).node.value;
    RecordedPageLists(v, a, k, m);
    DirFrame(v, u, OwnerDir(a));
    DirDeleteRefinesRemove(u, false, m, OwnerDir(a), k, false, false);
    UnlistOne(v, u, HalfUnlisted(u, k, line, high), a, m, k);
  }

  /** Both deletions succeed, and each takes the line off one owner's directory. */
  lemma {:induction false} TrustDeletedListed(v: State, k: Key)
    requires k in v && k.LineKey? && LineOk(v, k) && ListedRight(v, k.low) && ListedRight(v, k.high)
    ensures TrustDeleteResult(v, k) == tesSUCCESS
    ensures var w := HalfUnlisted(HalfUnlisted(v, k, v[k], false), k, v[k], true);
            && TrustDeleted(v, k) == w - {k}
            && ListedBut(v, w, k.low, k) && ListedBut(v, w, k.high, k)
            && SameButDirs(v, w, k.low, k.high)
  {
    HalfUnlistedRight(v, v, k, v[k], false);
    var u := HalfUnlisted(v, k, v[k], false);
    assert SamePages(v, u, OwnerDir(k.high));
    HalfUnlistedRight(v, u, k, v[k], true);
    var w := HalfUnlisted(u, k, v[k], true);
    assert SamePages(u, w, OwnerDir(k.low));
    ListedButFrame(v, u, w, k.low, k);
  }

  /** The state a deletion leaves, from what it did to the directories. */
  lemma {:induction false} DeletedListed(v: State, w: State, k: Key, a: Account)
    requires k in v && k.LineKey? && LineOk(v, k) && ListedRight(v, a)
    requires ListedBut(v, w, k.low, k) && ListedBut(v, w, k.high, k) && SameButDirs(v, w, k.low, k.high)
    ensures ListedRight(w - {k}, a)
  {
    var x := w - {k};
    forall j: Key | j.LineKey? && j != k
      ensures NodeOf(x, j, a) == NodeOf(v, j, a)
    {
      assert (j in x <==> j in v) && (j in v ==> x[j] == v[j]);
    }
    if a != k.low && a != k.high {
      DeletedElsewhere(v, w, x, k, a);
    } else {
      assert SamePages(w, x, OwnerDir(a));
      ListedButFrame(v, w, x, a, k);
      UnlistedRight(v, x, a, k);
    }
  }

  lemma {:induction false} DeletedElsewhere(v: State, w: State, x: State, k: Key, a: Account)
    requires k in v && k.LineKey? && ListedRight(v, a) && a != k.low && a != k.high
    requires x == w - {k} && SameButDirs(v, w, k.low, k.high)
    requires forall j: Key | j.LineKey? && j != k :: NodeOf(x, j, a) == NodeOf(v, j, a)
    ensures ListedRight(x, a)
  {
    assert SamePages(v, x, OwnerDir(a));
    assert NodeOf(x, k, a) == NodeOf(v, k, a);
    ListedFrame(v, x, a);
  }

  lemma {:induction false} DeletedOwned(v: State, w: State, k: Key, a: Account)
    requires k in v && k.LineKey? && v[k].TrustLine? && !v[k].low.reserve && !v[k].high.reserve
    requires SameButDirs(v, w, k.low, k.high)
    ensures OtherOwned(w - {k}, a) == OtherOwned(v, a)
  {
    assert ReservedLines(w - {k}, a) == ReservedLines(v, a);
  }

  /** Deleting a line without reserves keeps the invariant and every owner count. */
  lemma {:induction false} TrustDeletedOk(v: State, k: Key)
    requires Listed(v) && k in v && k.LineKey?
    requires LineOk(v, k) && !v[k].low.reserve && !v[k].high.reserve
    ensures TrustDeleteResult(v, k) == tesSUCCESS
    ensures Listed(TrustDeleted(v, k))
    ensures forall a :: OtherOwned(TrustDeleted(v, k), a) == OtherOwned(v, a)
    ensures SameButDirs(v - {k}, TrustDeleted(v, k), k.low, k.high)
  {
    TrustDeletedListed(v, k);
    var w := HalfUnlisted(HalfUnlisted(v, k, v[k], false), k, v[k], true);
    forall j | j in w - {k}
      ensures LineOk(w - {k}, j)
    {
      if j.LineKey? { assert LineOk(v, j); }
    }
    forall a
      ensures ListedRight(w - {k}, a)
    {
      DeletedListed(v, w, k, a);
    }
    forall a
      ensures OtherOwned(w - {k}, a) == OtherOwned(v, a)
    {
      DeletedOwned(v, w, k, a);
    }
  }

  // ---- A created line ----

  /** In w, a's directory lists the lines of v, and k on page m. */
  ghost predicate ListedPlus(v: State, w: State, a: Account, k: Key, m: nat) {
    && DirOk(w, OwnerDir(a))
    && forall n: nat, j: Key | j.LineKey? ::
         Count(Indexes(w, OwnerDir(a), n), j) ==
         if (if j == k then Some(m) else NodeOf(v, j, a)) == Some(n) then 1 else 0
  }

  lemma {:induction false} ListOne(v: State, u: State, a: Account, k: Key)
    requires ListedRight(v, a) && k.LineKey? && k !in v
    requires SamePages(v, u, OwnerDir(a)) && DirAddResult(u, OwnerDir(a)).tesSUCCESS?
    ensures ListedPlus(v, DirAdded(u, OwnerDir(a), k), a, k, DirAddPage(u, OwnerDir(a)))
    ensures SameOutside(u, DirAdded(u, OwnerDir(a), k), OwnerDir(a))
  {
    DirFrame(v, u, OwnerDir(a));
    DirAddRefinesAppend(u, OwnerDir(a), k);
    var w, m := DirAdded(u, OwnerDir(a), k), DirAddPage(u, OwnerDir(a));
    forall n: nat, j
      ensures Count(Indexes(w, OwnerDir(a), n), j) ==
        Count(Indexes(v, OwnerDir(a), n), j) + if n == m && j == k then 1 else 0
    {
      AppendCount(Indexes(v, OwnerDir(a), n), k, j);
      assert n != m ==> Indexes(w, OwnerDir(a), n) == Indexes(v, OwnerDir(a), n);
    }
    ListedAfterAppend(v, w, a, k, m);
  }

  lemma {:induction false} ListedAfterAppend(v: State, w: State, a: Account, k: Key, m: nat)
    requires ListedRight(v, a) && k.LineKey? && k !in v && DirOk(w, OwnerDir(a))
    requires forall n: nat, j ::
      Count(Indexes(w, OwnerDir(a), n), j) == Count(Indexes(v, OwnerDir(a), n), j) + if n == m && j == k then 1 else 0
    ensures ListedPlus(v, w, a, k, m)
  {
  }

  lemma {:induction false} ListedPlusFrame(v: State, u: State, w: State, a: Account, k: Key, m: nat)
    requires ListedPlus(v, u, a, k, m) && SamePages(u, w, OwnerDir(a))
    ensures ListedPlus(v, w, a, k, m)
  {
    DirFrame(u, w, OwnerDir(a));
  }

  /** Entering a new line lists it once in each owner's directory. */
  lemma {:induction false} LineEnteredListed(v: State, k: Key)
    requires k !in v && k.LineKey? && k.low < k.high && ListedRight(v, k.low) && ListedRight(v, k.high)
    requires TrustCreateResult(v, k) == tesSUCCESS
    ensures var v1 := v[k := BlankLine];
            var v2 := DirAdded(v1, OwnerDir(k.low), k);
            && ListedPlus(v, LineEntered(v, k), k.low, k, DirAddPage(v1, OwnerDir(k.low)))
            && ListedPlus(v, LineEntered(v, k), k.high, k, DirAddPage(v2, OwnerDir(k.high)))
            && SameButDirs(v1, LineEntered(v, k), k.low, k.high)
  {
    var v1 := v[k := BlankLine];
    assert SamePages(v, v1, OwnerDir(k.low));
    ListOne(v, v1, k.low, k);
    var v2 := DirAdded(v1, OwnerDir(k.low), k);
    assert SamePages(v, v2, OwnerDir(k.high));
    ListOne(v, v2, k.high, k);
    var v3 := DirAdded(v2, OwnerDir(k.high), k);
    assert SamePages(v2, v3, OwnerDir(k.low));
    ListedPlusFrame(v, v2, v3, k.low, k, DirAddPage(v1, OwnerDir(k.low)));
  }

  /** A state with one more line, from what was done to the directories. */
  ghost predicate Grew(v: State, w: State, k: Key, line: Entry, lowNode: nat, highNode: nat)
    requires k.LineKey?
  {
    && line.TrustLine? && line.low.node == Some(lowNode) && line.high.node == Some(highNode)
    && ListedPlus(v, w, k.low, k, lowNode) && ListedPlus(v, w, k.high, k, highNode)
    && SameButDirs(v[k := line], w, k.low, k.high)
  }

  lemma {:induction false} GrewListed(v: State, w: State, k: Key, line: Entry, lowNode: nat, highNode: nat, a: Account)
    requires k !in v && k.LineKey? && k.low < k.high && ListedRight(v, a)
    requires Grew(v, w, k, line, lowNode, highNode)
    ensures ListedRight(w, a)
  {
    GrewNodes(v, w, k, line, a);
    if a == k.low {
      PlusListed(v, w, a, k, lowNode);
    } else if a == k.high {
      PlusListed(v, w, a, k, highNode);
    } else {
      assert SamePages(v, w, OwnerDir(a));
      ListedFrame(v, w, a);
    }
  }

  lemma {:induction false} PlusListed(v: State, w: State, a: Account, k: Key, m: nat)
    requires k.LineKey? && ListedPlus(v, w, a, k, m) && NodeOf(w, k, a) == Some(m)
    requires forall j: Key | j.LineKey? && j != k :: NodeOf(w, j, a) == NodeOf(v, j, a)
    ensures ListedRight(w, a)
  {
  }

  lemma {:induction false} GrewNodes(v: State, w: State, k: Key, line: Entry, a: Account)
    requires k.LineKey? && SameButDirs(v[k := line], w, k.low, k.high)
    ensures k in w && w[k] == line
    ensures forall j: Key | j.LineKey? && j != k :: NodeOf(w, j, a) == NodeOf(v, j, a)
  {
    forall j: Key | j.LineKey? && j != k
      ensures NodeOf(w, j, a) == NodeOf(v, j, a)
    {
      assert (j in w <==> j in v) && (j in v ==> w[j] == v[j]);
    }
  }

  lemma {:induction false} GrewReserved(v: State, w: State, k: Key, line: Entry, a: Account)
    requires k !in v && k.LineKey? && k.low < k.high && line.TrustLine?
    requires SameButDirs(v[k := line], w, k.low, k.high)
    ensures ReservedLines(w, a) == ReservedLines(v, a) + (if ReservedBy(w, k, a) then {k} else {})
    ensures ReservedBy(w, k, a) <==> (a == k.low && line.low.reserve) || (a == k.high && line.high.reserve)
    ensures k !in ReservedLines(v, a)
  {
    assert k in w && w[k] == line;
    forall j: Key | j != k
      ensures ReservedBy(w, j, a) <==> ReservedBy(v, j, a)
    {
      if j.LineKey? { assert (j in w <==> j in v) && (j in v ==> w[j] == v[j]); }
    }
  }

  /** The state before the owner count goes up. */
  function LineWritten(v: State, k: Key, setHigh: bool, balance: int, terms: Terms): State
    requires k.LineKey?
  {
    var v1 := v[k := BlankLine];
    var v2 := DirAdded(v1, OwnerDir(k.low), k);
    var v3 := LineEntered(v, k);
    var peer := if setHigh then k.low else k.high;
    var peerNoSkywell := HasAccount(v3, peer) && DefaultSkywellEqualsOne(v3, peer);
    var lowNode, highNode := DirAddPage(v1, OwnerDir(k.low)), DirAddPage(v2, OwnerDir(k.high));
    v3[k := NewLine(setHigh, balance, terms, peerNoSkywell, lowNode, highNode)]
  }

  /** The line trustCreate wrote, as read back from the state it left. */
  lemma {:induction false} LineWrittenGrew(v: State, k: Key, setHigh: bool, balance: int, terms: Terms)
    requires k !in v && k.LineKey? && k.low < k.high && ListedRight(v, k.low) && ListedRight(v, k.high)
    requires TrustCreateResult(v, k) == tesSUCCESS
    ensures var w := LineWritten(v, k, setHigh, balance, terms);
            && k in w && w[k].TrustLine? && w[k].low.node.Some? && w[k].high.node.Some?
            && Grew(v, w, k, w[k], w[k].low.node.value, w[k].high.node.value)
            && w[k].balance == (if setHigh then -balance else balance)
            && w[k].low.reserve == !setHigh && w[k].high.reserve == setHigh
  {
    LineEnteredListed(v, k);
    var v1 := v[k := BlankLine];
    var v2, v3 := DirAdded(v1, OwnerDir(k.low), k), LineEntered(v, k);
    var w := LineWritten(v, k, setHigh, balance, terms);
    assert SamePages(v3, w, OwnerDir(k.low)) && SamePages(v3, w, OwnerDir(k.high));
    ListedPlusFrame(v, v3, w, k.low, k, DirAddPage(v1, OwnerDir(k.low)));
    ListedPlusFrame(v, v3, w, k.high, k, DirAddPage(v2, OwnerDir(k.high)));
    assert SameButDirs(v[k := w[k]], w, k.low, k.high);
  }

  lemma {:induction false} GrewLines(v: State, w: State, k: Key, line: Entry, lowNode: nat, highNode: nat, j: Key)
    requires k !in v && k.LineKey? && k.low < k.high && HasAccount(v, k.low) && HasAccount(v, k.high)
    requires Grew(v, w, k, line, lowNode, highNode) && j in w && (j in v ==> LineOk(v, j))
    ensures LineOk(w, j)
  {
    assert k in w && w[k] == line;
    if j.LineKey? && j != k {
      assert j in v && w[j] == v[j];
      assert HasAccount(w, j.low) && HasAccount(w, j.high);
    }
  }

  /** Writing an owner count touches neither lines nor directories. */
  lemma {:induction false} AccountWritten(v: State, a: Account, e: Entry)
    requires HasAccount(v, a) && e.AccountRoot?
    ensures var w := v[AccountKey(a) := e];
            && (forall k | k in v && LineOk(v, k) :: LineOk(w, k))
            && (forall b | ListedRight(v, b) :: ListedRight(w, b))
            && (forall b :: ReservedLines(w, b) == ReservedLines(v, b))
  {
    var w := v[AccountKey(a) := e];
    forall b | ListedRight(v, b)
      ensures ListedRight(w, b)
    {
      ListedFrame(v, w, b);
    }
    forall b
      ensures ReservedLines(w, b) == ReservedLines(v, b)
    {
      assert forall k :: ReservedBy(w, k, b) <==> ReservedBy(v, k, b);
    }
  }

  lemma {:induction false} GrewAccounts(v: State, w: State, k: Key, line: Entry, a: Account)
    requires k.LineKey? && SameButDirs(v[k := line], w, k.low, k.high)
    ensures AccountKey(a) in w <==> AccountKey(a) in v
    ensures AccountKey(a) in v ==> w[AccountKey(a)] == v[AccountKey(a)]
  {
  }

  /** A new line takes one unit of what its owner's count covers besides lines. */
  lemma {:induction false} GrewOwned(v: State, w: State, k: Key, line: Entry, a: Account)
    requires k !in v && k.LineKey? && k.low < k.high && line.TrustLine? && line.high.reserve == !line.low.reserve
    requires SameButDirs(v[k := line], w, k.low, k.high) && HasAccount(v, k.low) && HasAccount(v, k.high)
    ensures OtherOwned(w, a) == OtherOwned(v, a) - if a == (if line.high.reserve then k.high else k.low) then 1 else 0
  {
    GrewAccounts(v, w, k, line, a);
    GrewReserved(v, w, k, line, a);
  }

  lemma {:induction false} CountUpOwned(v: State, b: Account, a: Account)
    requires HasAccount(v, b)
    ensures OtherOwned(CountUp(v, b), a) ==
      OtherOwned(v, a) + if a == b && v[AccountKey(b)].ownerCount != MAX_OWNER_COUNT then 1 else 0
  {
    if v[AccountKey(b)].ownerCount != MAX_OWNER_COUNT {
      AccountWritten(v, b, v[AccountKey(b)].(ownerCount := v[AccountKey(b)].ownerCount + 1));
    }
  }

  /** The owner count of the account being set covers the new line, unless it is at its cap. */
  lemma {:induction false} TrustCreatedOwned(v: State, k: Key, setHigh: bool, balance: int, terms: Terms, a: Account)
    requires k !in v && k.LineKey? && k.low < k.high && ListedRight(v, k.low) && ListedRight(v, k.high)
    requires HasAccount(v, k.low) && HasAccount(v, k.high)
    requires TrustCreateResult(v, k) == tesSUCCESS
    ensures var w, set_ := TrustCreated(v, k, setHigh, balance, terms), if setHigh then k.high else k.low;
            OtherOwned(w, a) ==
              OtherOwned(v, a) -
              if a == set_ && v[AccountKey(set_)].ownerCount == MAX_OWNER_COUNT then 1 else 0
  {
    var u, set_ := LineWritten(v, k, setHigh, balance, terms), if setHigh then k.high else k.low;
    LineWrittenGrew(v, k, setHigh, balance, terms);
    GrewOwned(v, u, k, u[k], a);
    GrewAccounts(v, u, k, u[k], set_);
    CountUpOwned(u, set_, a);
  }

  lemma {:induction false} LineWrittenOk(v: State, k: Key, setHigh: bool, balance: int, terms: Terms)
    requires Listed(v) && k !in v && k.LineKey? && k.low < k.high && HasAccount(v, k.low) && HasAccount(v, k.high)
    requires TrustCreateResult(v, k) == tesSUCCESS
    ensures var u := LineWritten(v, k, setHigh, balance, terms);
            Listed(u) && HasAccount(u, k.low) && HasAccount(u, k.high)
  {
    var u := LineWritten(v, k, setHigh, balance, terms);
    LineWrittenGrew(v, k, setHigh, balance, terms);
    var p, q := u[k].low.node.value, u[k].high.node.value;
    forall j | j in u
      ensures LineOk(u, j)
    {
      GrewLines(v, u, k, u[k], p, q, j);
    }
    forall a
      ensures ListedRight(u, a)
    {
      GrewListed(v, u, k, u[k], p, q, a);
    }
  }

  lemma {:induction false} TrustCreatedOk(v: State, k: Key, setHigh: bool, balance: int, terms: Terms)
    requires Listed(v) && k !in v && k.LineKey? && k.low < k.high && HasAccount(v, k.low) && HasAccount(v, k.high)
    requires TrustCreateResult(v, k) == tesSUCCESS
    ensures Listed(TrustCreated(v, k, setHigh, balance, terms))
  {
    var u, set_ := LineWritten(v, k, setHigh, balance, terms), if setHigh then k.high else k.low;
    LineWrittenOk(v, k, setHigh, balance, terms);
    var e := u[AccountKey(set_)];
    if e.ownerCount != MAX_OWNER_COUNT {
      AccountWritten(u, set_, e.(ownerCount := e.ownerCount + 1));
    }
  }

  // ---- Credits ----

  lemma {:induction false} LineOfOk(a: Account, b: Account, currency: Currency)
    requires a != b
    ensures var k := LineOf(a, b, currency);
            && k.LineKey? && k.low < k.high && k == LineOf(b, a, currency)
            && (a > b ==> k.high == a) && (a < b ==> k.low == a)
  {
  }

  /** Two states that differ at most in directory pages. */
  ghost predicate PagesOnly(v: State, w: State) {
    forall k: Key | !k.PageKey? :: SameEntry(v, w, k)
  }

  /** The entry at k is the same in both states. */
  predicate SameEntry(v: State, w: State, k: Key) {
    (k in w <==> k in v) && (k in v ==> w[k] == v[k])
  }

  lemma {:induction false} EnteredFrame(v: State, k: Key)
    requires k.LineKey?
    ensures PagesOnly(v[k := BlankLine], LineEntered(v, k))
  {
    var v1 := v[k := BlankLine];
    AddOutside(v1, OwnerDir(k.low), k);
    AddOutside(DirAdded(v1, OwnerDir(k.low), k), OwnerDir(k.high), k);
  }

  lemma {:induction false} UnlistedFrame(v: State, k: Key)
    requires k.LineKey? && k in v && v[k].TrustLine?
    ensures PagesOnly(v - {k}, TrustDeleted(v, k))
  {
    HalfUnlistedFrame(v, k, v[k], false);
    HalfUnlistedFrame(HalfUnlisted(v, k, v[k], false), k, v[k], true);
  }

  lemma {:induction false} HalfUnlistedFrame(v: State, k: Key, line: Entry, high: bool)
    requires k.LineKey? && line.TrustLine?
    ensures PagesOnly(v, HalfUnlisted(v, k, line, high))
  {
    var node, a := SideOf(line, high).node, if high then k.high else k.low;
    DirDeletedOutside(v, false, node.GetOr(0), OwnerDir(a), k, false, node.None?);
  }

  /** What a new line leaves alone, and what it says. */
  lemma {:induction false} CreatedFrame(v: State, k: Key, setHigh: bool, balance: int, terms: Terms)
    requires k.LineKey? && TrustCreateResult(v, k) == tesSUCCESS
    ensures var w := TrustCreated(v, k, setHigh, balance, terms);
            && k in w && w[k].TrustLine? && w[k].balance == (if setHigh then -balance else balance)
            && SideOf(w[k], setHigh).reserve && SideOf(w[k], setHigh).noSkywell == terms.noSkywell
            && (forall j: Key | !j.PageKey? && !j.AccountKey? && j != k :: SameEntry(v, w, j))
            && (forall a | HasAccount(v, a) :: HasAccount(w, a) && w[AccountKey(a)].flags == v[AccountKey(a)].flags)
  {
    EnteredFrame(v, k);
    var v3, u := LineEntered(v, k), LineWritten(v, k, setHigh, balance, terms);
    assert forall a :: SameEntry(v[k := BlankLine], v3, AccountKey(a));
    assert u == v3[k := u[k]];
  }

  /** The same for a line that a credit adjusts and deletes. */
  lemma {:induction false} DeletedFrame(v: State, s: Account, r: Account, currency: Currency, amount: int)
    requires s != r && HasAccount(v, s) && LineOf(s, r, currency) in v && v[LineOf(s, r, currency)].TrustLine?
    ensures var u, k := Adjusted(v, s, r, currency, amount), LineOf(s, r, currency);
            && k.LineKey? && u[k].TrustLine?
            && k !in TrustDeleted(u, k)
            && (forall j: Key | !j.PageKey? && !j.AccountKey? && j != k :: SameEntry(v, TrustDeleted(u, k), j))
            && (forall a | HasAccount(v, a) ::
                  && HasAccount(TrustDeleted(u, k), a)
                  && TrustDeleted(u, k)[AccountKey(a)].flags == v[AccountKey(a)].flags)
  {
    var u, k := Adjusted(v, s, r, currency, amount), LineOf(s, r, currency);
    LineOfOk(s, r, currency);
    AdjustedFrame(v, s, r, currency, amount);
    UnlistedFrame(u, k);
    assert SameEntry(u - {k}, TrustDeleted(u, k), k);
    assert forall a :: SameEntry(u - {k}, TrustDeleted(u, k), AccountKey(a));
  }

  lemma {:induction false} CreatePositions(v: State, k: Key, setHigh: bool, balance: int, terms: Terms, a: Account,
                                           b: Account, c: Currency)
    requires k !in v && k.LineKey? && k.low < k.high && TrustCreateResult(v, k) == tesSUCCESS && a != b
    ensures var set_, peer := if setHigh then k.high else k.low, if setHigh then k.low else k.high;
            Position(TrustCreated(v, k, setHigh, balance, terms), a, b, c) ==
            Position(v, a, b, c) + Moved(peer, set_, k.currency, balance, a, b, c)
  {
    CreatedFrame(v, k, setHigh, balance, terms);
    LineOfOk(a, b, c);
    assert LineOf(a, b, c) != k ==> SameEntry(v, TrustCreated(v, k, setHigh, balance, terms), LineOf(a, b, c));
  }

  lemma {:induction false} DeletePositions(v: State, s: Account, r: Account, currency: Currency, amount: int,
                                           a: Account, b: Account, c: Currency)
    requires HasAccount(v, s) && HasAccount(v, r) && s != r && a != b
    requires LineOf(s, r, currency) in v && v[LineOf(s, r, currency)].TrustLine?
    requires CreditDeletes(v, s, r, currency, amount)
    ensures Position(Credited(v, s, r, currency, amount), a, b, c) ==
            Position(v, a, b, c) + Moved(s, r, currency, amount, a, b, c)
  {
    DeletedFrame(v, s, r, currency, amount);
    LineOfOk(a, b, c);
    var k := LineOf(s, r, currency);
    assert LineOf(a, b, c) != k ==> SameEntry(v, Credited(v, s, r, currency, amount), LineOf(a, b, c));
  }

  /** There is a line to credit, or it can be created. */
  predicate CreditGoes(v: State, s: Account, r: Account, currency: Currency, amount: int)
    requires HasAccount(v, s) && HasAccount(v, r)
  {
    var k := LineOf(s, r, currency);
    if k in v then v[k].TrustLine? else CreditResult(v, s, r, currency, amount) == tesSUCCESS
  }

  /** Every credit over a line lowers what the sender holds of the receiver by exactly the
      amount, raises the receiver's holding by the same, and moves no other position,
      whether it creates, adjusts or deletes the line and whichever account is the low one. */
  lemma {:induction false} CreditMoves(v: State, s: Account, r: Account, currency: Currency, amount: int, a: Account,
                                       b: Account, c: Currency)
    requires HasAccount(v, s) && HasAccount(v, r) && s != r && a != b && CreditGoes(v, s, r, currency, amount)
    ensures Position(Credited(v, s, r, currency, amount), a, b, c) ==
            Position(v, a, b, c) + Moved(s, r, currency, amount, a, b, c)
  {
    var k := LineOf(s, r, currency);
    LineOfOk(s, r, currency);
    if k !in v {
      CreatePositions(v, k, r > s, amount, DefaultTerms(v, r), a, b, c);
    } else if CreditDeletes(v, s, r, currency, amount) {
      DeletePositions(v, s, r, currency, amount, a, b, c);
    } else {
      AdjustedPositions(v, s, r, currency, amount, a, b, c);
    }
  }

  /** Room for the reserve of a new line in the receiver's 32-bit owner count. */
  predicate CreditFits(v: State, s: Account, r: Account, currency: Currency)
    requires HasAccount(v, r)
  {
    LineOf(s, r, currency) !in v ==> v[AccountKey(r)].ownerCount != MAX_OWNER_COUNT
  }

  /** By how much a credit changes what a's owner count covers besides reserved lines: a new line
      is not counted at the cap, and a reserve released at count zero is not counted down. */
  function Drift(v: State, s: Account, r: Account, currency: Currency, amount: int, a: Account): int
    requires HasAccount(v, s) && HasAccount(v, r)
  {
    var k := LineOf(s, r, currency);
    if k !in v then (if a == r && v[AccountKey(r)].ownerCount == MAX_OWNER_COUNT then -1 else 0)
    else
      var clears := v[k].TrustLine? && CreditClears(v, s, r, currency, amount);
      if clears && a == s && v[AccountKey(s)].ownerCount == 0 then 1 else 0
  }

  /** There is no drift while counts cover the reserved lines and the cap is not met. */
  lemma {:induction false} NoDrift(v: State, s: Account, r: Account, currency: Currency, amount: int, a: Account)
    requires TrustOk(v) && HasAccount(v, s) && HasAccount(v, r) && s != r && CreditFits(v, s, r, currency)
    ensures Drift(v, s, r, currency, amount, a) == 0
  {
    if LineOf(s, r, currency) in v {
      assert LineOk(v, LineOf(s, r, currency));
      AdjustedOwned(v, s, r, currency, amount, a);
    }
  }

  /** What every credit keeps.  A credit never meets a broken directory: it succeeds, or the
      directory of a new line is full. */
  lemma {:induction false} CreditKeeps(v: State, s: Account, r: Account, currency: Currency, amount: int)
    requires Listed(v) && HasAccount(v, s) && HasAccount(v, r) && s != r
    ensures CreditResult(v, s, r, currency, amount) in {tesSUCCESS, tecDIR_FULL}
    ensures CreditResult(v, s, r, currency, amount) == tesSUCCESS ==>
      && Listed(Credited(v, s, r, currency, amount))
      && forall a ::
           OtherOwned(Credited(v, s, r, currency, amount), a) == OtherOwned(v, a) + Drift(v, s, r, currency, amount, a)
  {
    var k := LineOf(s, r, currency);
    LineOfOk(s, r, currency);
    if k !in v {
      if TrustCreateResult(v, k) == tesSUCCESS {
        TrustCreatedOk(v, k, r > s, amount, DefaultTerms(v, r));
        forall a
          ensures OtherOwned(Credited(v, s, r, currency, amount), a) ==
            OtherOwned(v, a) + Drift(v, s, r, currency, amount, a)
        {
          TrustCreatedOwned(v, k, r > s, amount, DefaultTerms(v, r), a);
        }
      }
    } else {
      assert LineOk(v, k);
      AdjustedKeeps(v, s, r, currency, amount);
      if CreditDeletes(v, s, r, currency, amount) {
        var u := Adjusted(v, s, r, currency, amount);
        AdjustedFrame(v, s, r, currency, amount);
        assert LineOk(u, k);
        TrustDeletedOk(u, k);
      }
    }
  }

  lemma {:induction false} AdjustedKeeps(v: State, s: Account, r: Account, currency: Currency, amount: int)
    requires Listed(v) && LineOf(s, r, currency) in v && s != r && HasAccount(v, s) && HasAccount(v, r)
    requires v[LineOf(s, r, currency)].TrustLine?
    ensures Listed(Adjusted(v, s, r, currency, amount))
    ensures forall a ::
      OtherOwned(Adjusted(v, s, r, currency, amount), a) == OtherOwned(v, a) + Drift(v, s, r, currency, amount, a)
  {
    AdjustedOk(v, s, r, currency, amount);
    forall a
      ensures OtherOwned(Adjusted(v, s, r, currency, amount), a) ==
        OtherOwned(v, a) + Drift(v, s, r, currency, amount, a)
    {
      AdjustedOwned(v, s, r, currency, amount, a);
    }
  }

  // ---- Other lines ----

  /** A credit changes no line but its own. */
  lemma {:induction false} CreditKeepsLines(v: State, s: Account, r: Account, currency: Currency, amount: int, j: Key)
    requires HasAccount(v, s) && HasAccount(v, r) && s != r && CreditGoes(v, s, r, currency, amount)
    requires j.LineKey? && j != LineOf(s, r, currency)
    ensures SameEntry(v, Credited(v, s, r, currency, amount), j)
  {
    var k := LineOf(s, r, currency);
    LineOfOk(s, r, currency);
    if k !in v {
      CreatedFrame(v, k, r > s, amount, DefaultTerms(v, r));
    } else {
      AdjustedFrame(v, s, r, currency, amount);
      DeletedFrame(v, s, r, currency, amount);
    }
  }

  /** Nothing is owed over the line, and neither side holds a reserve for it. */
  predicate Spent(line: Entry) {
    line.TrustLine? && line.balance == 0 && !line.low.reserve && !line.high.reserve
  }

  /** A line that a credit removes is its own, and as last written it was spent. */
  lemma {:induction false} DeletedOnlyWhenSettled(v: State, s: Account, r: Account, currency: Currency, amount: int,
                                                  j: Key)
    requires HasAccount(v, s) && HasAccount(v, r) && s != r && CreditGoes(v, s, r, currency, amount)
    requires j.LineKey? && j in v && j !in Credited(v, s, r, currency, amount)
    ensures j == LineOf(s, r, currency) && Spent(AdjustedLine(v, s, r, currency, amount))
  {
    if j != LineOf(s, r, currency) {
      CreditKeepsLines(v, s, r, currency, amount, j);
    }
  }

  /** A credit keeps every account and its flags. */
  lemma {:induction false} CreditKeepsAccounts(v: State, s: Account, r: Account, currency: Currency, amount: int,
                                               a: Account)
    requires HasAccount(v, s) && HasAccount(v, r) && s != r && CreditGoes(v, s, r, currency, amount) && HasAccount(v, a)
    ensures HasAccount(Credited(v, s, r, currency, amount), a)
    ensures Credited(v, s, r, currency, amount)[AccountKey(a)].flags == v[AccountKey(a)].flags
  {
    var k := LineOf(s, r, currency);
    LineOfOk(s, r, currency);
    if k !in v {
      CreatedFrame(v, k, r > s, amount, DefaultTerms(v, r));
    } else {
      AdjustedFrame(v, s, r, currency, amount);
      DeletedFrame(v, s, r, currency, amount);
    }
  }

  // ---- Intact directories ----

  /** What a caller of the credit operations must have: the accounts, intact owner directories,
      and a line under the index of the two, if anything. */
  ghost predicate CreditReady(v: State, s: Account, r: Account, currency: Currency) {
    && s != r && HasAccount(v, s) && HasAccount(v, r)
    && DirOk(v, OwnerDir(s)) && DirOk(v, OwnerDir(r))
    && (LineOf(s, r, currency) in v ==> v[LineOf(s, r, currency)].TrustLine?)
  }

  lemma {:induction false} AddKeepsDirs(v: State, b: Account, x: Key, a: Account)
    requires DirOk(v, OwnerDir(a)) && DirOk(v, OwnerDir(b))
    ensures DirOk(DirAdded(v, OwnerDir(b), x), OwnerDir(a))
  {
    if a == b {
      DirAddRefinesAppend(v, OwnerDir(b), x);
    } else {
      AddOutside(v, OwnerDir(b), x);
      DirFrame(v, DirAdded(v, OwnerDir(b), x), OwnerDir(a));
    }
  }

  lemma {:induction false} HalfKeepsDirs(v: State, k: Key, line: Entry, high: bool, a: Account)
    requires k.LineKey? && line.TrustLine?
    requires DirOk(v, OwnerDir(a)) && DirOk(v, OwnerDir(if high then k.high else k.low))
    ensures DirOk(HalfUnlisted(v, k, line, high), OwnerDir(a))
  {
    var node, b := SideOf(line, high).node, if high then k.high else k.low;
    DirDeleteRefinesRemove(v, false, node.GetOr(0), OwnerDir(b), k, false, node.None?);
    DirDeletedOutside(v, false, node.GetOr(0), OwnerDir(b), k, false, node.None?);
    if a != b {
      DirFrame(v, HalfUnlisted(v, k, line, high), OwnerDir(a));
    }
  }

  lemma {:induction false} EnteredKeepsDirs(v: State, k: Key, a: Account)
    requires k.LineKey? && DirOk(v, OwnerDir(k.low)) && DirOk(v, OwnerDir(k.high)) && DirOk(v, OwnerDir(a))
    ensures DirOk(LineEntered(v, k), OwnerDir(a))
  {
    var v1 := v[k := BlankLine];
    DirFrame(v, v1, OwnerDir(a));
    DirFrame(v, v1, OwnerDir(k.low));
    DirFrame(v, v1, OwnerDir(k.high));
    AddKeepsDirs(v1, k.low, k, a);
    AddKeepsDirs(v1, k.low, k, k.high);
    AddKeepsDirs(DirAdded(v1, OwnerDir(k.low), k), k.high, k, a);
  }

  lemma {:induction false} DeletedKeepsDirs(v: State, k: Key, a: Account)
    requires k.LineKey? && k in v && v[k].TrustLine?
    requires DirOk(v, OwnerDir(k.low)) && DirOk(v, OwnerDir(k.high)) && DirOk(v, OwnerDir(a))
    ensures DirOk(TrustDeleted(v, k), OwnerDir(a))
  {
    var v1 := HalfUnlisted(v, k, v[k], false);
    HalfKeepsDirs(v, k, v[k], false, a);
    HalfKeepsDirs(v, k, v[k], false, k.high);
    HalfKeepsDirs(v1, k, v[k], true, a);
    var v2 := if HalfLocated(v, k, v[k], false).Some? then HalfUnlisted(v1, k, v[k], true) else v1;
    DirFrame(v2, v2 - {k}, OwnerDir(a));
  }

  /** A credit, successful or not, keeps every owner directory intact. */
  lemma {:induction false} CreditKeepsDirs(v: State, s: Account, r: Account, currency: Currency, amount: int,
                                           a: Account)
    requires CreditReady(v, s, r, currency) && DirOk(v, OwnerDir(a))
    ensures DirOk(Credited(v, s, r, currency, amount), OwnerDir(a))
  {
    var k, w := LineOf(s, r, currency), Credited(v, s, r, currency, amount);
    LineOfOk(s, r, currency);
    if k !in v {
      EnteredKeepsDirs(v, k, a);
      DirFrame(LineEntered(v, k), w, OwnerDir(a));
    } else {
      var u := Adjusted(v, s, r, currency, amount);
      AdjustedFrame(v, s, r, currency, amount);
      DirFrame(v, u, OwnerDir(a));
      DirFrame(v, u, OwnerDir(s));
      DirFrame(v, u, OwnerDir(r));
      DeletedKeepsDirs(u, k, a);
    }
  }

  // ---- When a credit fails ----

  lemma {:induction false} AddResultFrame(v: State, w: State, r: Root)
    requires SamePages(v, w, r)
    ensures DirAddResult(w, r) == DirAddResult(v, r)
  {
    assert PageKey(r, 0) in v ==> v[PageKey(r, 0)] == w[PageKey(r, 0)];
  }

  /** A line cannot be created exactly when one of the two directories is full. */
  lemma {:induction false} CreateFailsExactly(v: State, k: Key)
    requires k.LineKey? && k.low < k.high
    ensures TrustCreateResult(v, k) != tesSUCCESS <==>
      DirAddResult(v, OwnerDir(k.low)) != tesSUCCESS || DirAddResult(v, OwnerDir(k.high)) != tesSUCCESS
  {
    var v1 := v[k := BlankLine];
    AddResultFrame(v, v1, OwnerDir(k.low));
    AddOutside(v1, OwnerDir(k.low), k);
    AddResultFrame(v, DirAdded(v1, OwnerDir(k.low), k), OwnerDir(k.high));
  }

  /** With lines listed right, a credit fails exactly when it needs a line and a directory is full. */
  lemma {:induction false} CreditFailsExactly(v: State, s: Account, r: Account, currency: Currency, amount: int)
    requires Listed(v) && HasAccount(v, s) && HasAccount(v, r) && s != r
    ensures CreditResult(v, s, r, currency, amount) != tesSUCCESS <==>
      && LineOf(s, r, currency) !in v
      && (DirAddResult(v, OwnerDir(s)) != tesSUCCESS || DirAddResult(v, OwnerDir(r)) != tesSUCCESS)
  {
    LineOfOk(s, r, currency);
    CreateFailsExactly(v, LineOf(s, r, currency));
    CreditKeeps(v, s, r, currency, amount);
    if LineOf(s, r, currency) in v {
      assert LineOk(v, LineOf(s, r, currency));
      if CreditDeletes(v, s, r, currency, amount) {
        AdjustedOk(v, s, r, currency, amount);
        AdjustedFrame(v, s, r, currency, amount);
        assert LineOk(Adjusted(v, s, r, currency, amount), LineOf(s, r, currency));
        TrustDeletedOk(Adjusted(v, s, r, currency, amount), LineOf(s, r, currency));
      }
    }
  }

  /** So a direct send, which reports success in any case, moves its amount exactly when there is
      nothing to move, a line, or room for one. */
  lemma {:induction false} DirectSendExactly(v: State, s: Account, r: Account, currency: Currency, amount: int)
    requires CreditReady(v, s, r, currency)
    ensures Position(Credited(v, s, r, currency, amount), s, r, currency) == Position(v, s, r, currency) - amount <==>
      || amount == 0 || LineOf(s, r, currency) in v
      || (DirAddResult(v, OwnerDir(s)) == tesSUCCESS && DirAddResult(v, OwnerDir(r)) == tesSUCCESS)
  {
    var k := LineOf(s, r, currency);
    LineOfOk(s, r, currency);
    CreateFailsExactly(v, k);
    if CreditGoes(v, s, r, currency, amount) {
      CreditMoves(v, s, r, currency, amount, s, r, currency);
    } else {
      EnteredFrame(v, k);
      assert SameEntry(v[k := BlankLine], LineEntered(v, k), k);
    }
  }

  // ---- issue_iou, redeem_iou: the same credit from the issuer's and the holder's end ----

  function RedeemResult(v: State, account: Account, issuer: Account, currency: Currency, amount: int): Ter
    requires HasAccount(v, account) && HasAccount(v, issuer)
  {
    if LineOf(account, issuer, currency) !in v then tefINTERNAL
    else CreditResult(v, account, issuer, currency, amount)
  }

  function Redeemed(v: State, account: Account, issuer: Account, currency: Currency, amount: int): State
    requires HasAccount(v, account) && HasAccount(v, issuer)
  {
    if LineOf(account, issuer, currency) !in v then v
    else Credited(v, account, issuer, currency, amount)
  }

  // ---- Runs ----

  /** `setDst` says that the destination is the account being set, whose terms and balance the
      new line gets. */
  datatype TrustOp =
    | CreditOp(sender: Account, receiver: Account, currency: Currency, amount: int)
    | IssueOp(account: Account, issuer: Account, currency: Currency, amount: int)
    | RedeemOp(account: Account, issuer: Account, currency: Currency, amount: int)
    | CreateOp(src: Account, dst: Account, setDst: bool, currency: Currency, amount: int, terms: Terms)

  /** Who gives and who gets the amount. */
  function Ends(op: TrustOp): (Account, Account) {
    match op
    case CreditOp(s, r, _, _) => (s, r)
    case IssueOp(a, i, _, _) => (i, a)
    case RedeemOp(a, i, _, _) => (a, i)
    case CreateOp(src, dst, setDst, _, _, _) => if setDst then (src, dst) else (dst, src)
  }

  function LineFor(op: TrustOp): Key {
    LineOf(Ends(op).0, Ends(op).1, op.currency)
  }

  /** What the callers of these operations guarantee. */
  predicate Legal(v: State, op: TrustOp) {
    var (s, r) := Ends(op);
    && HasAccount(v, s) && HasAccount(v, r) && s != r
    && (op.CreateOp? ==> LineFor(op) !in v)
  }

  function StepResult(v: State, op: TrustOp): Ter
    requires Legal(v, op)
  {
    var (s, r) := Ends(op);
    if op.CreateOp? then TrustCreateResult(v, LineFor(op))
    else if op.RedeemOp? then RedeemResult(v, s, r, op.currency, op.amount)
    else CreditResult(v, s, r, op.currency, op.amount)
  }

  /** One operation; a failed one is discarded with its overlay. */
  function TrustStep(v: State, op: TrustOp): State
    requires Legal(v, op)
  {
    var (s, r) := Ends(op);
    if StepResult(v, op) != tesSUCCESS then v
    else if op.CreateOp? then TrustCreated(v, LineFor(op), r > s, op.amount, op.terms)
    else Credited(v, s, r, op.currency, op.amount)
  }

  function TrustRun(v: State, ops: seq<TrustOp>): (State, seq<Ter>)
    decreases |ops|
  {
    if ops == [] then (v, [])
    else if !Legal(v, ops[0]) then TrustRun(v, ops[1..])
    else
      var (w, ters) := TrustRun(TrustStep(v, ops[0]), ops[1..]);
      (w, [StepResult(v, ops[0])] + ters)
  }

  function StepDrift(v: State, op: TrustOp, a: Account): int
    requires Legal(v, op)
  {
    if StepResult(v, op) != tesSUCCESS then 0 else Drift(v, Ends(op).0, Ends(op).1, op.currency, op.amount, a)
  }

  function RunDrift(v: State, ops: seq<TrustOp>, a: Account): int
    decreases |ops|
  {
    if ops == [] then 0
    else if !Legal(v, ops[0]) then RunDrift(v, ops[1..], a)
    else StepDrift(v, ops[0], a) + RunDrift(TrustStep(v, ops[0]), ops[1..], a)
  }

  /** Every line the step removes was spent as last written, and lines it does not name stay. */
  ghost predicate StepSettles(v: State, op: TrustOp)
    requires Legal(v, op)
  {
    var (s, r) := Ends(op);
    && (forall j: Key | j.LineKey? && j != LineFor(op) :: SameEntry(v, TrustStep(v, op), j))
    && (LineFor(op) in v && LineFor(op) !in TrustStep(v, op) ==>
          v[LineFor(op)].TrustLine? && Spent(AdjustedLine(v, s, r, op.currency, op.amount)))
  }

  ghost predicate RunSettles(v: State, ops: seq<TrustOp>)
    decreases |ops|
  {
    if ops == [] then true
    else if !Legal(v, ops[0]) then RunSettles(v, ops[1..])
    else StepSettles(v, ops[0]) && RunSettles(TrustStep(v, ops[0]), ops[1..])
  }

  /** No step creates a line for an account whose owner count is at its cap. */
  predicate RunFits(v: State, ops: seq<TrustOp>)
    decreases |ops|
  {
    if ops == [] then true
    else if !Legal(v, ops[0]) then RunFits(v, ops[1..])
    else
      && (StepResult(v, ops[0]) == tesSUCCESS ==> CreditFits(v, Ends(ops[0]).0, Ends(ops[0]).1, ops[0].currency))
      && RunFits(TrustStep(v, ops[0]), ops[1..])
  }

  lemma {:induction false} TrustStepKeeps(v: State, op: TrustOp)
    requires Listed(v) && Legal(v, op)
    ensures Listed(TrustStep(v, op)) && StepResult(v, op) != tefBAD_LEDGER
    ensures forall a :: OtherOwned(TrustStep(v, op), a) == OtherOwned(v, a) + StepDrift(v, op, a)
  {
    var (s, r) := Ends(op);
    LineOfOk(s, r, op.currency);
    if op.CreateOp? {
      if StepResult(v, op) == tesSUCCESS {
        TrustCreatedOk(v, LineFor(op), r > s, op.amount, op.terms);
        forall a
          ensures OtherOwned(TrustStep(v, op), a) == OtherOwned(v, a) + StepDrift(v, op, a)
        {
          TrustCreatedOwned(v, LineFor(op), r > s, op.amount, op.terms, a);
        }
      }
    } else {
      CreditKeeps(v, s, r, op.currency, op.amount);
    }
  }

  /** Whatever is recorded under the index of a line is one. */
  ghost predicate Typed(v: State) {
    forall k: Key | k.LineKey? && k in v :: v[k].TrustLine?
  }

  lemma {:induction false} StepKeepsLines(v: State, op: TrustOp)
    requires Typed(v) && Legal(v, op)
    ensures StepSettles(v, op) && Typed(TrustStep(v, op))
  {
    var (s, r) := Ends(op);
    LineOfOk(s, r, op.currency);
    if StepResult(v, op) == tesSUCCESS {
      if op.CreateOp? {
        CreatedFrame(v, LineFor(op), r > s, op.amount, op.terms);
      } else {
        forall j: Key | j.LineKey? && j != LineFor(op)
          ensures SameEntry(v, TrustStep(v, op), j)
        {
          CreditKeepsLines(v, s, r, op.currency, op.amount, j);
        }
        OwnLineTyped(v, s, r, op.currency, op.amount);
      }
      if LineFor(op) in v && LineFor(op) !in TrustStep(v, op) {
        DeletedOnlyWhenSettled(v, s, r, op.currency, op.amount, LineFor(op));
      }
    }
  }

  lemma {:induction false} OwnLineTyped(v: State, s: Account, r: Account, currency: Currency, amount: int)
    requires HasAccount(v, s) && HasAccount(v, r) && s != r && CreditGoes(v, s, r, currency, amount)
    ensures var w, k := Credited(v, s, r, currency, amount), LineOf(s, r, currency);
            k in w ==> w[k].TrustLine?
  {
    LineOfOk(s, r, currency);
    if LineOf(s, r, currency) !in v {
      CreatedFrame(v, LineOf(s, r, currency), r > s, amount, DefaultTerms(v, r));
    } else {
      AdjustedFrame(v, s, r, currency, amount);
      DeletedFrame(v, s, r, currency, amount);
    }
  }

  /** In every run, from any state with well-typed lines, a line is deleted only at zero balance
      without reserves, and each step leaves the other lines alone. */
  lemma {:induction false} RunKeepsLines(v: State, ops: seq<TrustOp>)
    requires Typed(v)
    ensures RunSettles(v, ops) && Typed(TrustRun(v, ops).0)
    decreases |ops|
  {
    if ops != [] {
      if Legal(v, ops[0]) {
        StepKeepsLines(v, ops[0]);
        RunKeepsLines(TrustStep(v, ops[0]), ops[1..]);
      } else {
        RunKeepsLines(v, ops[1..]);
      }
    }
  }

  /** In every run each live line stays listed once on each side at its recorded page, a line is
      deleted only at zero balance without reserves, no operation reports a broken directory, and
      owner counts move with the reserved lines but for the drift at the two ends of their range. */
  lemma {:induction false} TrustRunKeeps(v: State, ops: seq<TrustOp>)
    requires Listed(v)
    ensures Listed(TrustRun(v, ops).0) && RunSettles(v, ops)
    ensures tefBAD_LEDGER !in TrustRun(v, ops).1
    ensures forall a :: OtherOwned(TrustRun(v, ops).0, a) == OtherOwned(v, a) + RunDrift(v, ops, a)
    decreases |ops|
  {
    assert forall k: Key | k.LineKey? && k in v :: LineOk(v, k);
    RunKeepsLines(v, ops);
    if ops != [] {
      if Legal(v, ops[0]) {
        TrustStepKeeps(v, ops[0]);
        TrustRunKeeps(TrustStep(v, ops[0]), ops[1..]);
      } else {
        TrustRunKeeps(v, ops[1..]);
      }
    }
  }

  /** Below the cap there is no drift: owner counts keep covering exactly the reserved lines
      besides what else is owned, so no count is ever taken down from zero. */
  lemma {:induction false} TrustRunCounts(v: State, ops: seq<TrustOp>, a: Account)
    requires TrustOk(v) && RunFits(v, ops)
    ensures TrustOk(TrustRun(v, ops).0) && RunDrift(v, ops, a) == 0
    ensures OtherOwned(TrustRun(v, ops).0, a) == OtherOwned(v, a)
    decreases |ops|
  {
    if ops != [] {
      var op := ops[0];
      if Legal(v, op) {
        TrustStepKeeps(v, op);
        forall b
          ensures StepDrift(v, op, b) == 0
        {
          if StepResult(v, op) == tesSUCCESS { NoDrift(v, Ends(op).0, Ends(op).1, op.currency, op.amount, b); }
        }
        TrustRunCounts(TrustStep(v, op), ops[1..], a);
      } else {
        TrustRunCounts(v, ops[1..], a);
      }
    }
  }

  // ---- skywellSend through a third party's obligations ----

  /** The issuer's obligations to a list of holders. */
  function Obligations(v: State, issuer: Account, currency: Currency, holders: seq<Account>): int {
    if holders == [] then 0
    else Position(v, holders[0], issuer, currency) + Obligations(v, issuer, currency, holders[1..])
  }

  predicate Distinct(s: seq<Account>) {
    forall i, j | 0 <= i < j < |s| :: s[i] != s[j]
  }

  /** A credit between the issuer and one of distinct holders changes the total by it. */
  lemma {:induction false} CreditObligations(v: State, s: Account, r: Account, currency: Currency, amount: int,
                                             issuer: Account, holders: seq<Account>)
    requires HasAccount(v, s) && HasAccount(v, r) && s != r && CreditGoes(v, s, r, currency, amount)
    requires Distinct(holders) && issuer !in holders && (issuer == s || issuer == r)
    ensures Obligations(Credited(v, s, r, currency, amount), issuer, currency, holders) ==
            Obligations(v, issuer, currency, holders) +
            (if s == issuer then (if r in holders then amount else 0) else (if s in holders then -amount else 0))
  {
    if holders != [] {
      CreditObligations(v, s, r, currency, amount, issuer, holders[1..]);
      CreditMoves(v, s, r, currency, amount, holders[0], issuer, currency);
    }
  }

  /** The state after a credit, if it goes through. */
  function CreditTo(v: State, s: Account, r: Account, currency: Currency, amount: int): Option<State> {
    if HasAccount(v, s) && HasAccount(v, r) && s != r && CreditGoes(v, s, r, currency, amount)
    then Some(Credited(v, s, r, currency, amount))
    else None
  }

  /** A send by way of v1 to v2, for which the sender pays the amount and the fee: the receiver
      gains the amount, the sender loses what it paid, and no other holder's position moves. */
  lemma {:induction false} SendMoves(v: State, v1: State, v2: State, s: Account, r: Account, issuer: Account,
                                     currency: Currency, amount: int, paid: int, h: Account)
    requires CreditTo(v, issuer, r, currency, amount) == Some(v1) && h != issuer
    requires CreditTo(v1, s, issuer, currency, paid) == Some(v2)
    ensures Position(v2, h, issuer, currency) ==
            Position(v, h, issuer, currency) + (if h == r then amount else 0) - (if h == s then paid else 0)
  {
    CreditMoves(v, issuer, r, currency, amount, h, issuer, currency);
    CreditMoves(v1, s, issuer, currency, paid, h, issuer, currency);
  }

  /** It lowers the issuer's obligations by exactly the fee. */
  lemma {:induction false} SendBurnsFee(v: State, v1: State, v2: State, s: Account, r: Account, issuer: Account,
                                        currency: Currency, amount: int, paid: int, holders: seq<Account>)
    requires CreditTo(v, issuer, r, currency, amount) == Some(v1)
    requires CreditTo(v1, s, issuer, currency, paid) == Some(v2)
    requires Distinct(holders) && issuer !in holders && s in holders && r in holders
    ensures Obligations(v2, issuer, currency, holders) == Obligations(v, issuer, currency, holders) - (paid - amount)
  {
    CreditObligations(v, issuer, r, currency, amount, issuer, holders);
    CreditObligations(v1, s, issuer, currency, paid, issuer, holders);
  }
}
