/** The trust-line operations of LedgerEntrySet on the objects an overlay hands out, each
    proved to change the view as the functions of module TrustLines say, and to note in the
    deferred credits, if these are enabled, what module Deferred says. */
module TrustOps {
  import opened Entries
  import opened Directory
  import opened Overlay
  import opened DirectoryOps
  import opened TrustLines
  import opened Deferred

  method WriteEntry(les: LedgerEntrySet, k: Key, e: Entry)
    requires les.Good() && k in les.View()
    modifies les, les.Own()
    ensures les.Good() && les.KeptBut(k)
    ensures les.View() == old(les.View())[k := e]
  {
    var s := les.EntryCache(k);
    les.Update(s, e);
  }

  method IncrementOwnerCount(les: LedgerEntrySet, a: Account)
    requires les.Good() && HasAccount(les.View(), a)
    modifies les, les.Own()
    ensures les.Good() && les.Framed()
    ensures les.View() == CountUp(old(les.View()), a)
  {
    var s := les.EntryCache(AccountKey(a));
    var count := s.entry.ownerCount;
    if count != MAX_OWNER_COUNT {
      les.Update(s, s.entry.(ownerCount := count + 1));
    }
  }

  method DecrementOwnerCount(les: LedgerEntrySet, a: Account)
    requires les.Good() && HasAccount(les.View(), a)
    modifies les, les.Own()
    ensures les.Good() && les.Framed()
    ensures les.View() == CountDown(old(les.View()), a)
  {
    var s := les.EntryCache(AccountKey(a));
    var count := s.entry.ownerCount;
    if count != 0 {
      les.Update(s, s.entry.(ownerCount := count - 1));
    }
  }

  method WriteAdjusted(les: LedgerEntrySet, s: Account, clears: bool, k: Key, line: Entry)
    requires les.Good() && HasAccount(les.View(), s) && k in les.View()
    modifies les, les.Own()
    ensures les.Good() && les.Framed()
    ensures les.View() == (if clears then CountDown(old(les.View()), s) else old(les.View()))[k := line]
  {
    if clears {
      DecrementOwnerCount(les, s);
    }
    WriteEntry(les, k, line);
  }

  /** Neither the new line nor its entry in one directory disturbs the other directory. */
  lemma {:induction false} EnterDirs(v: State, k: Key)
    requires k.LineKey? && k.low != k.high
    requires DirOk(v, OwnerDir(k.low)) && DirOk(v, OwnerDir(k.high))
    ensures var v1 := v[k := BlankLine];
            DirOk(v1, OwnerDir(k.low)) && DirOk(DirAdded(v1, OwnerDir(k.low), k), OwnerDir(k.high))
  {
    var v1 := v[k := BlankLine];
    DirFrame(v, v1, OwnerDir(k.low));
    AddOutside(v1, OwnerDir(k.low), k);
    DirFrame(v, DirAdded(v1, OwnerDir(k.low), k), OwnerDir(k.high));
  }

  /** Enter a new line in the directory of each owner. */
  method EnterLine(les: LedgerEntrySet, k: Key) returns (ter: Ter, lowNode: nat, highNode: nat)
    requires les.Good() && k.LineKey? && k.low < k.high && k !in les.View()
    requires DirOk(les.View(), OwnerDir(k.low)) && DirOk(les.View(), OwnerDir(k.high))
    modifies les, les.Own()
    ensures les.Good() && les.Framed()
    ensures ter == TrustCreateResult(old(les.View()), k)
    ensures les.View() == LineEntered(old(les.View()), k)
    ensures ter.tesSUCCESS? ==>
      var v1 := old(les.View())[k := BlankLine];
      && lowNode == DirAddPage(v1, OwnerDir(k.low))
      && highNode == DirAddPage(DirAdded(v1, OwnerDir(k.low), k), OwnerDir(k.high))
  {
    EnterDirs(les.View(), k);
    highNode := 0;
    var state, threw := les.EntryCreate(k, BlankLine);
    ter, lowNode := DirAdd(les, OwnerDir(k.low), k);
    if ter.tesSUCCESS? {
      ter, highNode := DirAdd(les, OwnerDir(k.high), k);
    }
  }

  /** cacheCredit. */
  method CacheCredit(deferred: DeferredCredits?, s: Account, r: Account, currency: Currency, amount: int)
    requires deferred != null ==> s != r && amount >= 0
    modifies deferred
    ensures deferred != null ==> deferred.totals == Noted(old(deferred.totals), Transfer(s, r, currency, amount))
  {
    if deferred != null {
      deferred.Credit(s, r, currency, amount);
    }
  }

  /** trustCreate.  `setDst` says that the limit is the destination's, which makes it the
      account being set; `balance` is in that account's terms. */
  method TrustCreate(les: LedgerEntrySet, deferred: DeferredCredits?, src: Account, dst: Account, currency: Currency,
                     setDst: bool, balance: int, terms: Terms)
      returns (ter: Ter)
    requires les.Good() && src != dst && LineOf(src, dst, currency) !in les.View()
    requires HasAccount(les.View(), src) && HasAccount(les.View(), dst)
    requires DirOk(les.View(), OwnerDir(src)) && DirOk(les.View(), OwnerDir(dst))
    requires deferred != null ==> balance >= 0
    modifies les, les.Own(), deferred
    ensures les.Good() && les.Framed()
    ensures ter == TrustCreateResult(old(les.View()), LineOf(src, dst, currency))
    ensures les.View() ==
      TrustCreated(old(les.View()), LineOf(src, dst, currency), (src > dst) != setDst, balance, terms)
    ensures deferred != null ==>
      deferred.totals == CreateNoted(old(les.View()), old(deferred.totals), src, dst, currency, balance)
  {
    ter := CreateLine(les, LineOf(src, dst, currency), (src > dst) != setDst, balance, terms);
    if ter.tesSUCCESS? {
      CacheCredit(deferred, src, dst, currency, balance);
    }
  }

  /** All of trustCreate but the note. */
  method CreateLine(les: LedgerEntrySet, k: Key, setHigh: bool, balance: int, terms: Terms) returns (ter: Ter)
    requires les.Good() && k.LineKey? && k.low < k.high && k !in les.View()
    requires HasAccount(les.View(), k.low) && HasAccount(les.View(), k.high)
    requires DirOk(les.View(), OwnerDir(k.low)) && DirOk(les.View(), OwnerDir(k.high))
    modifies les, les.Own()
    ensures les.Good() && les.Framed()
    ensures ter == TrustCreateResult(old(les.View()), k)
    ensures les.View() == TrustCreated(old(les.View()), k, setHigh, balance, terms)
  {
    ghost var v := les.View();
    var lowNode, highNode;
    ter, lowNode, highNode := EnterLine(les, k);
    if ter.tesSUCCESS? {
      EnteredAccounts(v, k);
      FillLine(les, k, setHigh, balance, terms, lowNode, highNode);
    }
  }

  lemma {:induction false} EnteredAccounts(v: State, k: Key)
    requires k.LineKey? && HasAccount(v, k.low) && HasAccount(v, k.high)
    ensures k in LineEntered(v, k) && HasAccount(LineEntered(v, k), k.low) && HasAccount(LineEntered(v, k), k.high)
  {
    AddOutside(v[k := BlankLine], OwnerDir(k.low), k);
    AddOutside(DirAdded(v[k := BlankLine], OwnerDir(k.low), k), OwnerDir(k.high), k);
  }

  /** Write the fields of an entered line and count it for the account being set. */
  method FillLine(les: LedgerEntrySet, k: Key, setHigh: bool, balance: int, terms: Terms, lowNode: nat, highNode: nat)
    requires les.Good() && k.LineKey? && k in les.View()
    requires HasAccount(les.View(), k.low) && HasAccount(les.View(), k.high)
    modifies les, les.Own()
    ensures les.Good() && les.Framed()
    ensures var v3, peer, set_ := old(les.View()), if setHigh then k.low else k.high, if setHigh then k.high else k.low;
            var peerNoSkywell := HasAccount(v3, peer) && DefaultSkywellEqualsOne(v3, peer);
            les.View() == CountUp(v3[k := NewLine(setHigh, balance, terms, peerNoSkywell, lowNode, highNode)], set_)
  {
    var peer := les.EntryCache(AccountKey(if setHigh then k.low else k.high));
    var peerNoSkywell := peer.entry.flags & lsfDefaultSkywell == 1;
    WriteEntry(les, k, NewLine(setHigh, balance, terms, peerNoSkywell, lowNode, highNode));
    IncrementOwnerCount(les, if setHigh then k.high else k.low);
  }

  lemma {:induction false} HalfUnlistedOutside(v: State, k: Key, line: Entry, high: bool)
    requires k.LineKey? && line.TrustLine? && k.low != k.high && k in v
    requires DirOk(v, OwnerDir(k.low)) && DirOk(v, OwnerDir(k.high))
    ensures var w := HalfUnlisted(v, k, line, high);
            k in w && w[k] == v[k] && DirOk(w, OwnerDir(k.low)) && DirOk(w, OwnerDir(k.high))
  {
    var a, b := if high then k.high else k.low, if high then k.low else k.high;
    var w, node := HalfUnlisted(v, k, line, high), SideOf(line, high).node;
    DirDeleteRefinesRemove(v, false, node.GetOr(0), OwnerDir(a), k, false, node.None?);
    assert SameOutside(v, w, OwnerDir(a));
    DirFrame(v, w, OwnerDir(b));
  }

  method UnlistHalf(les: LedgerEntrySet, k: Key, line: Entry, high: bool) returns (ter: Ter)
    requires les.Good() && k.LineKey? && line.TrustLine?
    requires DirOk(les.View(), OwnerDir(if high then k.high else k.low))
    modifies les, les.Own()
    ensures les.Good() && les.Framed()
    ensures ter == if HalfLocated(old(les.View()), k, line, high).Some? then tesSUCCESS else tefBAD_LEDGER
    ensures les.View() == HalfUnlisted(old(les.View()), k, line, high)
  {
    var node := if high then line.high.node else line.low.node;
    ter := DirDelete(les, false, node.GetOr(0), OwnerDir(if high then k.high else k.low), k, false, node.None?);
  }

  /** trustDelete.  The line goes even when a directory deletion fails. */
  method TrustDelete(les: LedgerEntrySet, k: Key) returns (ter: Ter)
    requires les.Good() && k.LineKey? && k.low != k.high && k in les.View() && les.View()[k].TrustLine?
    requires DirOk(les.View(), OwnerDir(k.low)) && DirOk(les.View(), OwnerDir(k.high))
    modifies les, les.Own()
    ensures les.Good() && les.Framed()
    ensures ter == TrustDeleteResult(old(les.View()), k)
    ensures les.View() == TrustDeleted(old(les.View()), k)
  {
    var state := les.EntryCache(k);
    ter := UnlistBoth(les, k, state.entry);
    DeleteEntry(les, k);
  }

  method UnlistBoth(les: LedgerEntrySet, k: Key, line: Entry) returns (ter: Ter)
    requires les.Good() && k.LineKey? && k.low != k.high && k in les.View() && line.TrustLine?
    requires DirOk(les.View(), OwnerDir(k.low)) && DirOk(les.View(), OwnerDir(k.high))
    modifies les, les.Own()
    ensures les.Good() && les.Framed() && k in les.View()
    ensures var v := old(les.View());
            var v1 := HalfUnlisted(v, k, line, false);
            && les.View() == (if HalfLocated(v, k, line, false).Some? then HalfUnlisted(v1, k, line, true) else v1)
            && ter == (if HalfLocated(v, k, line, false).None? || HalfLocated(v1, k, line, true).None?
                       then tefBAD_LEDGER
                       else tesSUCCESS)
  {
    HalfUnlistedOutside(les.View(), k, line, false);
    ter := UnlistHalf(les, k, line, false);
    if ter.tesSUCCESS? {
      HalfUnlistedOutside(les.View(), k, line, true);
      ter := UnlistHalf(les, k, line, true);
    }
  }

  // ---- Credits ----

  /** Whether the account lets its lines ripple by default. */
  method DefaultOf(les: LedgerEntrySet, a: Account) returns (b: bool)
    requires les.Good() && HasAccount(les.View(), a)
    modifies les
    ensures les.Good() && les.Framed() && les.View() == old(les.View())
    ensures b == DefaultSkywell(les.View(), a)
  {
    var account := les.EntryCache(AccountKey(a));
    b := account.entry.flags & lsfDefaultSkywell != 0;
  }

  /** checkState: release the sender's reserve if nothing on its side needs it any more, and
      tell whether the line can go. */
  method CheckState(les: LedgerEntrySet, s: Account, r: Account, currency: Currency, before: int, after: int)
      returns (delete: bool)
    requires les.Good() && s != r && HasAccount(les.View(), s)
    requires var k := LineOf(s, r, currency);
             k in les.View() && les.View()[k].TrustLine?
    modifies les, les.Own()
    ensures les.Good() && les.Framed()
    ensures var v, k := old(les.View()), LineOf(s, r, currency);
            var side := SideOf(v[k], s > r);
            var clears := ClearsReserve(side, before, after, DefaultSkywell(v, s));
            && les.View() == (if clears
                              then CountDown(v, s)[k := WithSide(v[k], s > r, side.(reserve := false))]
                              else v)
            && delete == (clears && after == 0 && !SideOf(v[k], r > s).reserve)
  {
    var k, senderHigh := LineOf(s, r, currency), s > r;
    var state := les.EntryCache(k);
    var line := state.entry;
    var default := DefaultOf(les, s);
    var side := if senderHigh then line.high else line.low;
    var other := if senderHigh then line.low else line.high;
    delete := false;
    if before > 0 && after <= 0 && side.reserve
      && side.noSkywell == default
      && !side.freeze && side.limit == 0 && side.qualityIn == 0 && side.qualityOut == 0
    {
      DecrementOwnerCount(les, s);
      var released := side.(reserve := false);
      WriteEntry(les, k, if senderHigh then line.(high := released) else line.(low := released));
      delete := after == 0 && !other.reserve;
    }
  }

  /** Adjusting a line leaves both directories alone. */
  lemma {:induction false} AdjustedDirs(v: State, s: Account, r: Account, currency: Currency, amount: int)
    requires CreditReady(v, s, r, currency) && LineOf(s, r, currency) in v
    ensures var u, k := Adjusted(v, s, r, currency, amount), LineOf(s, r, currency);
            k.LineKey? && k.low < k.high && u[k].TrustLine? && DirOk(u, OwnerDir(k.low)) && DirOk(u, OwnerDir(k.high))
  {
    var u := Adjusted(v, s, r, currency, amount);
    LineOfOk(s, r, currency);
    AdjustedFrame(v, s, r, currency, amount);
    DirFrame(v, u, OwnerDir(s));
    DirFrame(v, u, OwnerDir(r));
  }

  /** Delete the adjusted line, or keep it. */
  method FinishCredit(les: LedgerEntrySet, ghost v: State, s: Account, r: Account, currency: Currency, amount: int,
                      delete: bool)
      returns (ter: Ter)
    requires CreditReady(v, s, r, currency) && LineOf(s, r, currency) in v
    requires les.Good() && les.View() == Adjusted(v, s, r, currency, amount)
    requires delete == CreditDeletes(v, s, r, currency, amount)
    modifies les, les.Own()
    ensures les.Good() && les.Framed()
    ensures ter == CreditResult(v, s, r, currency, amount)
    ensures les.View() == Credited(v, s, r, currency, amount)
  {
    ter := tesSUCCESS;
    if delete {
      AdjustedDirs(v, s, r, currency, amount);
      ter := TrustDelete(les, LineOf(s, r, currency));
    }
  }

  /** The first credit between two accounts creates the line for the receiver. */
  method CreateForReceiver(les: LedgerEntrySet, deferred: DeferredCredits?, s: Account, r: Account, currency: Currency,
                           amount: int)
      returns (ter: Ter)
    requires les.Good() && CreditReady(les.View(), s, r, currency) && LineOf(s, r, currency) !in les.View()
    requires deferred != null ==> amount >= 0
    modifies les, les.Own(), deferred
    ensures les.Good() && les.Framed()
    ensures ter == CreditResult(old(les.View()), s, r, currency, amount)
    ensures les.View() == Credited(old(les.View()), s, r, currency, amount)
    ensures deferred != null ==>
      deferred.totals == CreditNoted(old(les.View()), old(deferred.totals), s, r, currency, amount)
  {
    var account := les.EntryCache(AccountKey(r));
    var noSkywell := account.entry.flags & lsfDefaultSkywell == 1;
    ter := TrustCreate(les, deferred, s, r, currency, true, amount, Terms(false, noSkywell, false, 0, 0, 0));
  }

  /** skywellCredit. */
  method SkywellCredit(les: LedgerEntrySet, deferred: DeferredCredits?, s: Account, r: Account, currency: Currency,
                       amount: int)
      returns (ter: Ter)
    requires les.Good() && CreditReady(les.View(), s, r, currency)
    requires deferred != null ==> amount >= 0
    modifies les, les.Own(), deferred
    ensures les.Good() && les.Framed()
    ensures ter == CreditResult(old(les.View()), s, r, currency, amount)
    ensures les.View() == Credited(old(les.View()), s, r, currency, amount)
    ensures deferred != null ==>
      deferred.totals == CreditNoted(old(les.View()), old(deferred.totals), s, r, currency, amount)
  {
    var state := les.EntryCache(LineOf(s, r, currency));
    if state == null {
      ter := CreateForReceiver(les, deferred, s, r, currency, amount);
    } else {
      ter := CreditOverLine(les, deferred, s, r, currency, amount, state.entry);
    }
  }

  method CreditOverLine(les: LedgerEntrySet, deferred: DeferredCredits?, s: Account, r: Account, currency: Currency,
                        amount: int, line: Entry)
      returns (ter: Ter)
    requires les.Good() && CreditReady(les.View(), s, r, currency)
    requires LineOf(s, r, currency) in les.View() && les.View()[LineOf(s, r, currency)] == line
    requires deferred != null ==> amount >= 0
    modifies les, les.Own(), deferred
    ensures les.Good() && les.Framed()
    ensures ter == CreditResult(old(les.View()), s, r, currency, amount)
    ensures les.View() == Credited(old(les.View()), s, r, currency, amount)
    ensures deferred != null ==>
      deferred.totals == CreditNoted(old(les.View()), old(deferred.totals), s, r, currency, amount)
  {
    CacheCredit(deferred, s, r, currency, amount);
    ter := AdjustAndFinish(les, s, r, currency, amount, line);
  }

  method AdjustAndFinish(les: LedgerEntrySet, s: Account, r: Account, currency: Currency, amount: int, line: Entry)
      returns (ter: Ter)
    requires les.Good() && CreditReady(les.View(), s, r, currency)
    requires LineOf(s, r, currency) in les.View() && les.View()[LineOf(s, r, currency)] == line
    modifies les, les.Own()
    ensures les.Good() && les.Framed()
    ensures ter == CreditResult(old(les.View()), s, r, currency, amount)
    ensures les.View() == Credited(old(les.View()), s, r, currency, amount)
  {
    ghost var v := les.View();
    var delete := AdjustLine(les, s, r, currency, amount, line);
    ter := FinishCredit(les, v, s, r, currency, amount, delete);
  }

  lemma {:induction false} AdjustedAs(v: State, s: Account, r: Account, currency: Currency, amount: int)
    requires s != r && LineOf(s, r, currency) in v && v[LineOf(s, r, currency)].TrustLine? && HasAccount(v, s)
    ensures var k, high := LineOf(s, r, currency), s > r;
            var before := if high then -v[k].balance else v[k].balance;
            var clears := ClearsReserve(SideOf(v[k], high), before, before - amount, DefaultSkywell(v, s));
            var line := if clears then WithSide(v[k], high, SideOf(v[k], high).(reserve := false)) else v[k];
            var after := before - amount;
            && Adjusted(v, s, r, currency, amount) ==
                 (if clears then CountDown(v, s) else v)[k := line.(balance := if high then -after else after)]
            && CreditDeletes(v, s, r, currency, amount) == (clears && after == 0 && !SideOf(v[k], !high).reserve)
  {
  }

  /** The adjusting branch of skywellCredit, up to the deletion. */
  method AdjustLine(les: LedgerEntrySet, s: Account, r: Account, currency: Currency, amount: int, line: Entry)
      returns (delete: bool)
    requires les.Good() && s != r && HasAccount(les.View(), s)
    requires LineOf(s, r, currency) in les.View() && les.View()[LineOf(s, r, currency)] == line && line.TrustLine?
    modifies les, les.Own()
    ensures les.Good() && les.Framed()
    ensures les.View() == Adjusted(old(les.View()), s, r, currency, amount)
    ensures delete == CreditDeletes(old(les.View()), s, r, currency, amount)
  {
    AdjustedAs(les.View(), s, r, currency, amount);
    var senderHigh := s > r;
    var before := if senderHigh then -line.balance else line.balance;
    var after := before - amount;
    var side, other := SideOf(line, senderHigh), SideOf(line, !senderHigh);
    var default := DefaultOf(les, s);
    var clears := ClearsReserve(side, before, after, default);
    var changed := if clears then WithSide(line, senderHigh, side.(reserve := false)) else line;
    delete := clears && after == 0 && !other.reserve;
    WriteAdjusted(les, s, clears, LineOf(s, r, currency), changed.(balance := if senderHigh then -after else after));
  }

  /** checkState and then the new balance: what skywellCredit does in one go. */
  lemma {:induction false} CheckedThenSet(v: State, s: Account, r: Account, currency: Currency, amount: int)
    requires LineOf(s, r, currency) in v && v[LineOf(s, r, currency)].TrustLine? && HasAccount(v, s)
    ensures var k, after := LineOf(s, r, currency), Position(v, s, r, currency) - amount;
            var side := SideOf(v[k], s > r);
            var u := if CreditClears(v, s, r, currency, amount)
                     then CountDown(v, s)[k := WithSide(v[k], s > r, side.(reserve := false))]
                     else v;
            && u[k].TrustLine?
            && u[k := u[k].(balance := if s > r then -after else after)] == Adjusted(v, s, r, currency, amount)
  {
  }

  /** The shared tail of issue_iou and redeem_iou on an existing line. */
  method MoveOverLine(les: LedgerEntrySet, deferred: DeferredCredits?, s: Account, r: Account, currency: Currency,
                      amount: int, line: Entry)
      returns (ter: Ter)
    requires les.Good() && CreditReady(les.View(), s, r, currency)
    requires LineOf(s, r, currency) in les.View() && les.View()[LineOf(s, r, currency)] == line
    requires deferred != null ==> amount >= 0
    modifies les, les.Own(), deferred
    ensures les.Good() && les.Framed()
    ensures ter == CreditResult(old(les.View()), s, r, currency, amount)
    ensures les.View() == Credited(old(les.View()), s, r, currency, amount)
    ensures deferred != null ==> deferred.totals == Noted(old(deferred.totals), Transfer(s, r, currency, amount))
  {
    CacheCredit(deferred, s, r, currency, amount);
    ter := CheckAndFinish(les, s, r, currency, amount, line);
  }

  method CheckAndFinish(les: LedgerEntrySet, s: Account, r: Account, currency: Currency, amount: int, line: Entry)
      returns (ter: Ter)
    requires les.Good() && CreditReady(les.View(), s, r, currency)
    requires LineOf(s, r, currency) in les.View() && les.View()[LineOf(s, r, currency)] == line
    modifies les, les.Own()
    ensures les.Good() && les.Framed()
    ensures ter == CreditResult(old(les.View()), s, r, currency, amount)
    ensures les.View() == Credited(old(les.View()), s, r, currency, amount)
  {
    ghost var v := les.View();
    var delete := CheckAndSet(les, s, r, currency, amount, line);
    ter := FinishCredit(les, v, s, r, currency, amount, delete);
  }

  method CheckAndSet(les: LedgerEntrySet, s: Account, r: Account, currency: Currency, amount: int, line: Entry)
      returns (delete: bool)
    requires les.Good() && s != r && HasAccount(les.View(), s)
    requires LineOf(s, r, currency) in les.View() && les.View()[LineOf(s, r, currency)] == line && line.TrustLine?
    modifies les, les.Own()
    ensures les.Good() && les.Framed()
    ensures les.View() == Adjusted(old(les.View()), s, r, currency, amount)
    ensures delete == CreditDeletes(old(les.View()), s, r, currency, amount)
  {
    var k, senderHigh := LineOf(s, r, currency), s > r;
    var start := if senderHigh then -line.balance else line.balance;
    var final := start - amount;
    CheckedThenSet(les.View(), s, r, currency, amount);
    delete := CheckState(les, s, r, currency, start, final);
    SetBalance(les, k, if senderHigh then -final else final);
  }

  method SetBalance(les: LedgerEntrySet, k: Key, balance: int)
    requires les.Good() && k in les.View() && les.View()[k].TrustLine?
    modifies les, les.Own()
    ensures les.Good() && les.Framed()
    ensures les.View() == old(les.View())[k := old(les.View())[k].(balance := balance)]
  {
    var state := les.EntryCache(k);
    les.Update(state, state.entry.(balance := balance));
  }

  /** issue_iou reaches the state of a credit from the issuer to the account. */
  method IssueIou(les: LedgerEntrySet, deferred: DeferredCredits?, account: Account, issuer: Account,
                  currency: Currency, amount: int)
      returns (ter: Ter)
    requires les.Good() && CreditReady(les.View(), issuer, account, currency)
    requires deferred != null ==> amount >= 0
    modifies les, les.Own(), deferred
    ensures les.Good() && les.Framed()
    ensures ter == CreditResult(old(les.View()), issuer, account, currency, amount)
    ensures les.View() == Credited(old(les.View()), issuer, account, currency, amount)
    ensures deferred != null ==>
      deferred.totals == CreditNoted(old(les.View()), old(deferred.totals), issuer, account, currency, amount)
  {
    var state := les.EntryCache(LineOf(issuer, account, currency));
    if state == null {
      ter := CreateForReceiver(les, deferred, issuer, account, currency, amount);
    } else {
      ter := MoveOverLine(les, deferred, issuer, account, currency, amount, state.entry);
    }
  }

  /** redeem_iou reaches the state of a credit from the account to the issuer, and refuses
      when there is no line. */
  method RedeemIou(les: LedgerEntrySet, deferred: DeferredCredits?, account: Account, issuer: Account,
                   currency: Currency, amount: int)
      returns (ter: Ter)
    requires les.Good() && CreditReady(les.View(), account, issuer, currency)
    requires deferred != null ==> amount >= 0
    modifies les, les.Own(), deferred
    ensures les.Good() && les.Framed()
    ensures ter == RedeemResult(old(les.View()), account, issuer, currency, amount)
    ensures les.View() == Redeemed(old(les.View()), account, issuer, currency, amount)
    ensures deferred != null ==>
      deferred.totals == RedeemNoted(old(les.View()), old(deferred.totals), account, issuer, currency, amount)
  {
    var state := les.EntryCache(LineOf(account, issuer, currency));
    if state == null {
      ter := tefINTERNAL;
    } else {
      ter := MoveOverLine(les, deferred, account, issuer, currency, amount, state.entry);
    }
  }

  /** The account that stands for "no issuer". */
  const NO_ACCOUNT: Account := 1

  /** A send that involves the issuer itself, or none. */
  predicate Direct(s: Account, r: Account, issuer: Account) {
    s == issuer || r == issuer || issuer == NO_ACCOUNT
  }

  /** After a credit from the issuer to r, one from another account to the issuer can follow. */
  lemma {:induction false} StillReady(v: State, issuer: Account, r: Account, currency: Currency, amount: int,
                                      s: Account)
    requires CreditReady(v, issuer, r, currency) && CreditReady(v, s, issuer, currency) && s != r
    requires CreditResult(v, issuer, r, currency, amount) == tesSUCCESS
    ensures CreditReady(Credited(v, issuer, r, currency, amount), s, issuer, currency)
  {
    CreditKeepsAccounts(v, issuer, r, currency, amount, s);
    CreditKeepsAccounts(v, issuer, r, currency, amount, issuer);
    CreditKeepsDirs(v, issuer, r, currency, amount, s);
    CreditKeepsDirs(v, issuer, r, currency, amount, issuer);
    LineOfOk(issuer, r, currency);
    LineOfOk(s, issuer, currency);
    CreditKeepsLines(v, issuer, r, currency, amount, LineOf(s, issuer, currency));
  }

  /** skywellSend.  A direct send reports success whatever the credit reported; a send of a
      third party's obligations charges the sender the fee. */
  method SkywellSend(les: LedgerEntrySet, deferred: DeferredCredits?, s: Account, r: Account, issuer: Account,
                     currency: Currency, amount: int, fee: int)
      returns (ter: Ter, actual: int)
    requires les.Good() && s != r
    requires Direct(s, r, issuer) ==> CreditReady(les.View(), s, r, currency)
    requires !Direct(s, r, issuer) ==>
      CreditReady(les.View(), issuer, r, currency) && CreditReady(les.View(), s, issuer, currency)
    requires deferred != null ==> amount >= 0 && fee >= 0
    modifies les, les.Own(), deferred
    ensures les.Good() && les.Framed()
    ensures Direct(s, r, issuer) ==>
      && ter == tesSUCCESS && actual == amount
      && les.View() == Credited(old(les.View()), s, r, currency, amount)
      && (deferred != null ==>
        deferred.totals == CreditNoted(old(les.View()), old(deferred.totals), s, r, currency, amount))
    ensures !Direct(s, r, issuer) ==> actual == amount + fee
    ensures !Direct(s, r, issuer) && CreditResult(old(les.View()), issuer, r, currency, amount) != tesSUCCESS ==>
      && ter == CreditResult(old(les.View()), issuer, r, currency, amount)
      && les.View() == Credited(old(les.View()), issuer, r, currency, amount)
    ensures !Direct(s, r, issuer) && CreditResult(old(les.View()), issuer, r, currency, amount) == tesSUCCESS ==>
      var v1 := Credited(old(les.View()), issuer, r, currency, amount);
      && HasAccount(v1, s) && HasAccount(v1, issuer)
      && ter == CreditResult(v1, s, issuer, currency, actual)
      && les.View() == Credited(v1, s, issuer, currency, actual)
      && (deferred != null ==>
            var m1 := CreditNoted(old(les.View()), old(deferred.totals), issuer, r, currency, amount);
            deferred.totals == CreditNoted(v1, m1, s, issuer, currency, actual))
  {
    if Direct(s, r, issuer) {
      var ignored := SkywellCredit(les, deferred, s, r, currency, amount);
      return tesSUCCESS, amount;
    }
    ghost var v := les.View();
    actual := amount + fee;
    ter := SkywellCredit(les, deferred, issuer, r, currency, amount);
    if ter.tesSUCCESS? {
      StillReady(v, issuer, r, currency, amount, s);
      ter := SkywellCredit(les, deferred, s, issuer, currency, actual);
    }
  }
}
