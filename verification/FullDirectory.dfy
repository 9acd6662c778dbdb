/** An owner directory with no room left, and a direct send that loses its amount there. */
module FullDirectory {
  import opened Entries
  import opened Directory
  import opened Overlay
  import opened TrustLines
  import opened TrustOps
  import opened Deferred
  import opened Reserves

  const LAST_PAGE: nat := PAGE_LIMIT - 1

  /** The accounts s and r; the last possible page of r's directory is full. */
  function Full(s: Account, r: Account): State {
    map[
      AccountKey(s) := AccountRoot(0, 0),
      AccountKey(r) := AccountRoot(DIR_NODE_MAX, 0),
      PageKey(OwnerDir(r), 0) := DirNode([], LAST_PAGE, LAST_PAGE),
      PageKey(OwnerDir(r), LAST_PAGE) := DirNode(seq(DIR_NODE_MAX, (i: nat) => OtherKey(i)), 0, 0)
    ]
  }

  lemma {:induction false} FullLinked(s: Account, r: Account)
    ensures Chain(Full(s, r), OwnerDir(r), [0, LAST_PAGE])
  {
  }

  lemma {:induction false} FullDirOk(s: Account, r: Account, a: Account)
    ensures DirOk(Full(s, r), OwnerDir(a))
  {
    if a == r {
      FullLinked(s, r);
    } else {
      assert Chain(Full(s, r), OwnerDir(a), []);
    }
  }

  lemma {:induction false} NoLineListed(s: Account, r: Account, a: Account, n: nat, k: Key)
    requires k.LineKey?
    ensures Count(Indexes(Full(s, r), OwnerDir(a), n), k) == 0
  {
    assert forall x | x in Indexes(Full(s, r), OwnerDir(a), n) :: x.OtherKey?;
  }

  /** The state has no lines, listed or not; everything else is in order. */
  lemma {:induction false} FullListed(s: Account, r: Account)
    ensures Listed(Full(s, r))
  {
    var v := Full(s, r);
    forall a
      ensures ListedRight(v, a)
    {
      FullDirOk(s, r, a);
      forall n: nat, k: Key | k.LineKey?
        ensures Count(Indexes(v, OwnerDir(a), n), k) == if NodeOf(v, k, a) == Some(n) then 1 else 0
      {
        NoLineListed(s, r, a, n, k);
      }
    }
  }

  /** Everything is in order, and no line to r can be created. */
  lemma {:induction false} NoRoom(s: Account, r: Account, currency: Currency, amount: int)
    requires s != r
    ensures var v := Full(s, r);
            && Listed(v) && CreditReady(v, s, r, currency)
            && LineOf(s, r, currency) !in v && DirAddResult(v, OwnerDir(r)) == tecDIR_FULL
            && CreditResult(v, s, r, currency, amount) != tesSUCCESS
  {
    FullListed(s, r);
    FullDirOk(s, r, s);
    FullDirOk(s, r, r);
    CreditFailsExactly(Full(s, r), s, r, currency, amount);
  }

  /** The issuer s sends its own obligations to r: the send reports success and moves nothing, and a
      line stays behind that r's directory does not list.  Nothing is noted. */
  method SendIsLost(deferred: DeferredCredits?, s: Account, r: Account, currency: Currency, amount: int)
      returns (les: LedgerEntrySet, ter: Ter, actual: int)
    requires s != r && (deferred != null ==> amount >= 0)
    modifies deferred
    ensures deferred != null ==> deferred.totals == old(deferred.totals)
    ensures ter == tesSUCCESS && actual == amount
    ensures Position(les.View(), s, r, currency) == Position(Full(s, r), s, r, currency)
    ensures LineOf(s, r, currency) in les.View() && DirOk(les.View(), OwnerDir(r))
    ensures LineOf(s, r, currency) !in Contents(les.View(), OwnerDir(r))
  {
    NoRoom(s, r, currency, amount);
    les := new LedgerEntrySet(Full(s, r));
    ter, actual := SkywellSend(les, deferred, s, r, s, currency, amount, 0);
    LineLeft(s, r, currency, amount);
  }

  lemma {:induction false} LineLeft(s: Account, r: Account, currency: Currency, amount: int)
    requires s != r
    ensures var w, k := Credited(Full(s, r), s, r, currency, amount), LineOf(s, r, currency);
            && Position(w, s, r, currency) == 0 && k in w
            && DirOk(w, OwnerDir(r)) && k !in Contents(w, OwnerDir(r))
  {
    var v, k := Full(s, r), LineOf(s, r, currency);
    NoRoom(s, r, currency, amount);
    LineOfOk(s, r, currency);
    FailedCreateLeaves(v, k, r > s, amount, DefaultTerms(v, r));
    assert SameEntry(v[k := TrustLine(0, BlankSide, BlankSide)], Credited(v, s, r, currency, amount), k);
    FullContents(s, r);
  }

  lemma {:induction false} FullContents(s: Account, r: Account)
    ensures DirOk(Full(s, r), OwnerDir(r)) && forall x | x in Contents(Full(s, r), OwnerDir(r)) :: x.OtherKey?
  {
    var v := Full(s, r);
    FullLinked(s, r);
    ContentsBy(v, OwnerDir(r), [0, LAST_PAGE]);
    assert [0, LAST_PAGE][1..] == [LAST_PAGE];
    FlatSingle(v, OwnerDir(r), LAST_PAGE);
  }
}
