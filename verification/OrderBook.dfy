/** Walking an overlay by ledger index, and the offers of an order book in that order.

    `rank` gives the 256-bit number of a key; keys have distinct non-zero numbers.  A book is
    the range of directories numbered from `base` up to `end`, one per quality. */
module OrderBook {
  import opened Entries
  import opened Directory
  import opened DirectoryOps
  import opened Overlay

  type Ranking = Key -> nat

  /** `name` recovers a key from its number. */
  ghost predicate Numbering(rank: Ranking, name: nat -> Key) {
    forall k :: rank(k) > 0 && name(rank(k)) == k
  }

  /** k is the key of `keys` with the least number above h, or there is none. */
  ghost predicate IsNext(keys: set<Key>, rank: Ranking, h: nat, k: Option<Key>) {
    if k.None? then forall j | j in keys :: rank(j) <= h
    else && k.value in keys && rank(k.value) > h
         && forall j | j in keys && rank(j) > h :: rank(k.value) <= rank(j)
  }

  /** The search both maps are asked for: Ledger::getNextLedgerIndex, and upper_bound on the
      overlay's own entries. */
  method LeastAbove(keys: set<Key>, rank: Ranking, h: nat) returns (k: Option<Key>)
    ensures IsNext(keys, rank, h, k)
  {
    k := None;
    var todo := keys;
    while todo != {}
      invariant todo <= keys && IsNext(keys - todo, rank, h, k)
      decreases |todo|
    {
      var j :| j in todo;
      if rank(j) > h && (k.None? || rank(j) < rank(k.value)) {
        k := Some(j);
      }
      todo := todo - {j};
    }
    assert keys - todo == keys;
  }

  ghost function LiveBase(les: LedgerEntrySet): set<Key>
    reads les
  {
    set j | j in les.base && les.Live(j)
  }

  ghost function LiveSlots(les: LedgerEntrySet): set<Key>
    reads les
  {
    set j | j in les.slots && les.Live(j)
  }

  function AtOrAbove(keys: set<Key>, rank: Ranking, n: nat): set<Key> {
    set j | j in keys && rank(j) >= n
  }

  lemma {:induction false} FewerAbove(keys: set<Key>, rank: Ranking, j: Key, n: nat)
    requires j in keys && n > rank(j)
    ensures |AtOrAbove(keys, rank, n)| < |AtOrAbove(keys, rank, rank(j))|
  {
    var a, b := AtOrAbove(keys, rank, n), AtOrAbove(keys, rank, rank(j));
    assert b == a + (b - a) && j in b - a;
  }

  /** The next key of the base above h that the overlay did not delete. */
  method NextInBase(les: LedgerEntrySet, rank: Ranking, ghost name: nat -> Key, h: nat) returns (k: Option<Key>)
    requires Numbering(rank, name)
    ensures IsNext(LiveBase(les), rank, h, k)
  {
    k := LeastAbove(les.base.Keys, rank, h);
    while k.Some? && k.value in les.slots && les.slots[k.value].action.Delete?
      invariant k.Some? ==> k.value in les.base && rank(k.value) > h
      invariant forall j | j in LiveBase(les) && rank(j) > h :: k.Some? && rank(k.value) <= rank(j)
      decreases if k.Some? then |AtOrAbove(les.base.Keys, rank, rank(k.value))| + 1 else 0
    {
      var deleted := k.value;
      k := LeastAbove(les.base.Keys, rank, rank(deleted));
      if k.Some? {
        FewerAbove(les.base.Keys, rank, deleted, rank(k.value));
      }
      forall j | j in LiveBase(les) && rank(j) > h
        ensures k.Some? && rank(k.value) <= rank(j)
      {
        assert rank(deleted) <= rank(j) && name(rank(j)) == j != deleted == name(rank(deleted));
      }
    }
  }

  /** The next entry of the overlay itself above h that is not deleted. */
  method NextInSlots(les: LedgerEntrySet, rank: Ranking, ghost name: nat -> Key, h: nat) returns (k: Option<Key>)
    requires Numbering(rank, name)
    ensures IsNext(LiveSlots(les), rank, h, k)
  {
    k := LeastAbove(les.slots.Keys, rank, h);
    while k.Some? && les.slots[k.value].action.Delete?
      invariant k.Some? ==> k.value in les.slots && rank(k.value) > h
      invariant forall j | j in LiveSlots(les) && rank(j) > h :: k.Some? && rank(k.value) <= rank(j)
      decreases if k.Some? then |AtOrAbove(les.slots.Keys, rank, rank(k.value))| + 1 else 0
    {
      var deleted := k.value;
      k := LeastAbove(les.slots.Keys, rank, rank(deleted));
      if k.Some? {
        FewerAbove(les.slots.Keys, rank, deleted, rank(k.value));
      }
      forall j | j in LiveSlots(les) && rank(j) > h
        ensures k.Some? && rank(k.value) <= rank(j)
      {
        assert rank(deleted) <= rank(j) && name(rank(j)) == j != deleted == name(rank(deleted));
      }
    }
  }

  /** getNextLedgerIndex: the least live key above h in the base and the overlay together. */
  method GetNextLedgerIndex(les: LedgerEntrySet, rank: Ranking, ghost name: nat -> Key, h: nat) returns (k: Option<Key>)
    requires Numbering(rank, name)
    ensures IsNext(les.View().Keys, rank, h, k)
  {
    var ledgerNext := NextInBase(les, rank, name, h);
    var ownNext := NextInSlots(les, rank, name, h);
    assert les.View().Keys == LiveBase(les) + LiveSlots(les);
    if ownNext.Some? {
      k := if ledgerNext.Some? && rank(ledgerNext.value) < rank(ownNext.value) then ledgerNext else ownNext;
    } else {
      k := ledgerNext;
    }
  }

  /** The ranged form includes `end` itself. */
  method GetNextInRange(les: LedgerEntrySet, rank: Ranking, ghost name: nat -> Key, h: nat, end: nat)
      returns (k: Option<Key>)
    requires Numbering(rank, name)
    ensures IsNext(set j | j in les.View() && rank(j) <= end :: j, rank, h, k)
  {
    k := GetNextLedgerIndex(les, rank, name, h);
    if k.Some? && rank(k.value) > end {
      k := None;
    }
  }

  // ---- Books ----

  /** The offers of the directories numbered above lo and up to hi, in ascending order. */
  ghost function BookList(v: State, lo: nat, hi: nat): seq<Key>
    requires forall n :: DirOk(v, BookDir(n))
    decreases hi - lo
  {
    if lo >= hi then [] else Contents(v, BookDir(lo + 1)) + BookList(v, lo + 1, hi)
  }

  lemma {:induction false} NoRootNoOffers(v: State, r: Root)
    requires DirOk(v, r) && PageKey(r, 0) !in v
    ensures Contents(v, r) == []
  {
    DirIsEmptyExactly(v, r);
  }

  lemma {:induction false} SkipOne(v: State, lo: nat, next: nat, hi: nat)
    requires forall n :: DirOk(v, BookDir(n))
    requires next == lo + 1 <= hi && BookRoot(next) !in v
    ensures BookList(v, lo, hi) == BookList(v, next, hi)
  {
    NoRootNoOffers(v, BookDir(next));
  }

  /** Numbers without a directory contribute nothing. */
  lemma {:induction false} SkipNumbers(v: State, lo: nat, m: nat, hi: nat)
    requires forall n :: DirOk(v, BookDir(n))
    requires lo <= m && NoneBetween(v, lo, m + 1)
    ensures BookList(v, lo, hi) == BookList(v, m, hi)
    decreases m - lo
  {
    if lo < m && lo < hi {
      SkipOne(v, lo, lo + 1, hi);
      SkipNumbers(v, lo + 1, m, hi);
    }
  }

  /** The range from base to end holds book directories only, `end` itself nothing. */
  ghost predicate BookOk(v: State, rank: Ranking, base: nat, end: nat) {
    && (forall n :: DirOk(v, BookDir(n)))
    && base > 0
    && (forall n {:trigger BookRoot(n)} | base < n <= end :: rank(BookRoot(n)) == n)
    && (forall k {:trigger InBook(v, rank, base, end, k)} | InBook(v, rank, base, end, k) ::
          k == BookRoot(rank(k)) && rank(k) < end)
  }

  function BookRoot(n: nat): Key {
    PageKey(BookDir(n), 0)
  }

  predicate InBook(v: State, rank: Ranking, base: nat, end: nat, k: Key) {
    k in v && base < rank(k) <= end
  }

  /** The place of page n in a chain. */
  ghost function Place(c: seq<nat>, n: nat): (i: nat)
    requires n in c
    ensures i < |c| && c[i] == n
  {
    var i :| 0 <= i < |c| && c[i] == n;
    i
  }

  /** What is left of a directory when entry e of page n is next. */
  ghost predicate Inside(v: State, r: Root, n: nat, e: nat) {
    DirOk(v, r) && n in PagesOf(v, r) && e <= |Indexes(v, r, n)|
  }

  ghost function RestFrom(v: State, r: Root, n: nat, e: nat): seq<Key>
    requires Inside(v, r, n, e)
  {
    Rest(v, r, PagesOf(v, r), Place(PagesOf(v, r), n), e)
  }

  /** Where the entry iterator is: at an entry of a page of directory `dir`, or past the last. */
  datatype Cursor = Exhausted | At(dir: nat, node: Sle, entry: nat)

  /** Where resync starts looking: just below the current directory, so that it is found again. */
  function Before(base: nat, index: nat): nat {
    if index == 0 then base else if index != base then index - 1 else index
  }

  /** No directory of the book is live with a number above lo and below hi. */
  ghost predicate NoneBetween(v: State, lo: nat, hi: nat) {
    forall n {:trigger BookRoot(n)} | lo < n < hi :: BookRoot(n) !in v
  }

  /** OrderBookIterator with the directory and entry iterators it is made of.  `index` is the
      number of the current directory, zero past the end of the book. */
  class BookIterator {
    const les: LedgerEntrySet
    const rank: Ranking
    ghost const name: nat -> Key
    const base: nat
    const end: nat
    var index: nat
    var offerDir: Sle?
    var cursor: Cursor

    constructor (les: LedgerEntrySet, rank: Ranking, ghost name: nat -> Key, base: nat, end: nat)
      ensures this.les == les && this.rank == rank && this.name == name && this.base == base && this.end == end
      ensures index == base && cursor == Exhausted
    {
      this.les, this.rank, this.name, this.base, this.end := les, rank, name, base, end;
      index, offerDir, cursor := base, null, Exhausted;
    }

    /** The book is well formed in the state v the overlay shows. */
    ghost predicate Bound(v: State)
      reads les, les.Sles()
    {
      les.Good() && les.View() == v && Numbering(rank, name) && BookOk(v, rank, base, end)
    }

    /** The cursor is on a page of its directory. */
    ghost predicate OnPage(v: State)
      reads this, les
    {
      cursor.At? ==> Pointing(les, BookDir(cursor.dir), cursor.node, cursor.entry, v)
    }

    /** The directory iterator holds the root of the live directory `index` of the book. */
    ghost predicate OnRoot(v: State)
      reads this, les
    {
      && base < index < end && BookRoot(index) in v
      && offerDir != null && les.Holds(offerDir) && offerDir.key == BookRoot(index)
    }

    ghost predicate Valid(v: State)
      reads this, les, les.Sles()
    {
      Bound(v) && OnPage(v) && (index == 0 || base <= index <= end)
    }

    /** What the entry iterator has still to visit, and the whole iterator. */
    ghost function Here(v: State): seq<Key>
      requires OnPage(v)
      reads this, les
    {
      if cursor.Exhausted? then [] else RestFrom(v, BookDir(cursor.dir), cursor.node.key.page, cursor.entry)
    }

    ghost function Remaining(v: State): seq<Key>
      requires Valid(v)
      reads this, les, les.Sles()
    {
      Here(v) + if index == 0 then [] else BookList(v, index, end)
    }

    /** BookDirIterator::nextDirectory: the least live directory of the book above the current
        one.  The entry iterator stays where it is. */
    method NextDirectory(ghost v: State) returns (found: bool)
      requires Bound(v) && (index == 0 || base <= index <= end)
      modifies this`index, this`offerDir, les
      ensures Bound(v) && les.Framed() && (old(OnPage(v)) ==> OnPage(v))
      ensures found ==> old(index) < index && OnRoot(v) && NoneBetween(v, old(index), index)
      ensures found ==> BookList(v, old(index), end) == Contents(v, BookDir(index)) + BookList(v, index, end)
      ensures !found ==> index == 0
      ensures !found && old(index) != 0 ==> NoneBetween(v, old(index), end + 1) && BookList(v, old(index), end) == []
      ensures old(index) == 0 ==> !found
    {
      found := DirectoryAfter(v, index);
    }

    /** nextDirectory once mIndex is set to `from`. */
    method DirectoryAfter(ghost v: State, from: nat) returns (found: bool)
      requires Bound(v) && (from == 0 || base <= from <= end)
      modifies this`index, this`offerDir, les
      ensures Bound(v) && les.Framed() && (old(OnPage(v)) ==> OnPage(v))
      ensures found ==> from < index && OnRoot(v) && NoneBetween(v, from, index)
      ensures found ==> BookList(v, from, end) == Contents(v, BookDir(index)) + BookList(v, index, end)
      ensures !found ==> index == 0
      ensures !found && from != 0 ==> NoneBetween(v, from, end + 1) && BookList(v, from, end) == []
      ensures from == 0 ==> !found
    {
      index, found := 0, false;
      if from == 0 {
        return;
      }
      var k := GetNextInRange(les, rank, name, from, end);
      if k.None? {
        NoneLeft(v, rank, base, end, from);
      } else {
        NextFound(v, rank, base, end, from, k.value);
        HoldDirectory(v, k.value);
        found := true;
      }
    }

    method HoldDirectory(ghost v: State, k: Key)
      requires Bound(v) && base < rank(k) < end && k == BookRoot(rank(k)) && k in v
      modifies this`index, this`offerDir, les
      ensures Bound(v) && les.Framed() && (old(OnPage(v)) ==> OnPage(v))
      ensures index == rank(k) && OnRoot(v)
    {
      var s := HoldPage(v, k);
      index, offerDir := rank(k), s;
    }

    method HoldPage(ghost v: State, k: Key) returns (s: Sle)
      requires Bound(v) && k in v
      modifies les
      ensures Bound(v) && les.Framed() && (old(OnPage(v)) ==> OnPage(v))
      ensures les.Holds(s) && s.key == k
    {
      s := les.EntryCache(k);
    }

    /** getOfferIterator: before the first entry of the current directory. */
    method GetOfferIterator(ghost v: State)
      requires Bound(v) && OnRoot(v)
      modifies this`cursor
      ensures Valid(v) && cursor == At(index, offerDir, 0) && Here(v) == Contents(v, BookDir(index))
    {
      StartOfDirectory(v, BookDir(index));
      cursor := At(index, offerDir, 0);
    }

    /** DirectoryEntryIterator::nextEntry on the directory it was built from. */
    method NextEntry(ghost v: State) returns (x: Option<Key>)
      requires Valid(v)
      modifies this`cursor, les
      ensures Valid(v) && les.Framed()
      ensures x.Some? ==> [x.value] + Remaining(v) == old(Remaining(v))
      ensures x.None? ==> cursor.Exhausted? && Remaining(v) == old(Remaining(v))
    {
      x := None;
      if cursor.At? {
        ghost var here, later := Here(v), if index == 0 then [] else BookList(v, index, end);
        x := Step(v);
        if x.Some? { ConsAppend(x.value, Here(v), later); }
      }
    }

    method Step(ghost v: State) returns (x: Option<Key>)
      requires Valid(v) && cursor.At?
      modifies this`cursor, les
      ensures Valid(v) && les.Framed()
      ensures x.Some? ==> [x.value] + Here(v) == old(Here(v))
      ensures x.None? ==> cursor.Exhausted? && old(Here(v)) == []
    {
      var dir := cursor.dir;
      var node, e;
      x, node, e := AdvanceEntry(les, BookDir(dir), cursor.node, cursor.entry, v);
      cursor := if x.Some? then At(dir, node, e) else Exhausted;
    }

    /** OrderBookIterator::nextOffer: the next offer of the book, possibly in a later directory. */
    method NextOffer(ghost v: State) returns (x: Option<Key>)
      requires Valid(v)
      modifies this, les
      ensures Valid(v) && les.Framed()
      ensures x.Some? ==> [x.value] + Remaining(v) == old(Remaining(v))
      ensures x.None? ==> old(Remaining(v)) == [] && cursor.Exhausted? && index == 0
    {
      ghost var whole := Remaining(v);
      var ended := false;
      x := NextEntry(v);
      while x.None? && !ended
        invariant Valid(v) && les.Framed()
        invariant x.Some? ==> [x.value] + Remaining(v) == whole
        invariant x.None? ==> cursor.Exhausted? && Remaining(v) == whole
        invariant ended ==> whole == [] && index == 0
        decreases if ended then 0 else 1, if index == 0 then 0 else end - index + 1
      {
        x, ended := OfferInNextDirectory(v, whole);
      }
    }

    /** One turn of that loop, once the current directory is used up. */
    method OfferInNextDirectory(ghost v: State, ghost whole: seq<Key>) returns (x: Option<Key>, ended: bool)
      requires Valid(v) && cursor.Exhausted? && Remaining(v) == whole
      modifies this, les
      ensures Valid(v) && les.Framed()
      ensures x.Some? ==> [x.value] + Remaining(v) == whole
      ensures x.None? ==> cursor.Exhausted? && Remaining(v) == whole
      ensures if ended then x.None? && whole == [] && index == 0 else old(index) != 0 && old(index) < index < end
    {
      var found := EnterNextDirectory(v, whole);
      ended := !found;
      x := None;
      if found {
        x := NextEntry(v);
      }
    }

    method EnterNextDirectory(ghost v: State, ghost whole: seq<Key>) returns (found: bool)
      requires Valid(v) && cursor.Exhausted? && Remaining(v) == whole
      modifies this, les
      ensures Valid(v) && les.Framed() && Remaining(v) == whole
      ensures found ==> old(index) != 0 && old(index) < index < end
      ensures !found ==> cursor.Exhausted? && whole == [] && index == 0
    {
      found := NextDirectory(v);
      if found {
        GetOfferIterator(v);
      }
    }

    /** OrderBookIterator::firstOffer: start over at the first directory of the book.  When the
        book has no directory the entry iterator is left where it was. */
    method FirstOffer(ghost v: State) returns (x: Option<Key>)
      requires Bound(v) && base <= end
      modifies this, les
      ensures Bound(v) && les.Framed()
      ensures x.Some? ==> Valid(v) && [x.value] + Remaining(v) == BookList(v, base, end)
      ensures x.None? ==> BookList(v, base, end) == [] && index == 0
      ensures x.None? ==> if NoneBetween(v, base, end + 1) then cursor == old(cursor) else cursor.Exhausted?
    {
      var found := DirectoryAfter(v, base);
      x := None;
      if found {
        GetOfferIterator(v);
        x := NextOffer(v);
      }
    }

    /** Note offer x, the next one of the book, and go on with nextOffer until it fails. */
    method VisitFrom(ghost v: State, offers: seq<Key>, x: Key, ghost book: seq<Key>) returns (all: seq<Key>)
      requires Valid(v) && offers + [x] + Remaining(v) == book
      modifies this, les
      ensures Valid(v) && les.Framed()
      ensures all == book
      decreases |Remaining(v)|
    {
      ghost var rest := Remaining(v);
      all := offers + [x];
      var y := NextOffer(v);
      if y.Some? {
        Shift(all, y.value, Remaining(v), rest);
        all := VisitFrom(v, all, y.value, book);
      }
    }

    /** firstOffer, then nextOffer until it fails: every offer of the book once, directories in
        ascending order and each directory in its own order. */
    method VisitAll(ghost v: State) returns (offers: seq<Key>)
      requires Bound(v) && base <= end
      modifies this, les
      ensures Bound(v) && les.Framed()
      ensures offers == BookList(v, base, end)
    {
      ghost var book := BookList(v, base, end);
      offers := [];
      var x := FirstOffer(v);
      if x.Some? {
        offers := VisitFrom(v, [], x.value, book);
      }
    }

    /** BookDirIterator::resync after the overlay changed: the least live directory at or above
        the current one, the first one of the book when there was none. */
    method Resync(ghost v: State) returns (found: bool)
      requires Bound(v) && (index == 0 || base <= index <= end) && base <= end
      modifies this`index, this`offerDir, les
      ensures Bound(v) && les.Framed() && (old(OnPage(v)) ==> OnPage(v))
      ensures found ==> Before(base, old(index)) < index && OnRoot(v) && NoneBetween(v, Before(base, old(index)), index)
      ensures !found ==> index == 0 && NoneBetween(v, Before(base, old(index)), end + 1)
      ensures base < old(index) && BookRoot(old(index)) in v ==> found && index == old(index)
    {
      found := DirectoryAfter(v, Before(base, index));
    }
  }

  /** The page and entry a cursor stands for, in the state v. */
  ghost predicate Pointing(les: LedgerEntrySet, r: Root, node: Sle, e: nat, v: State)
    reads les
  {
    les.Holds(node) && node.key.PageKey? && node.key.root == r && Inside(v, r, node.key.page, e)
  }

  /** dirNext in terms of what is left of the directory. */
  method AdvanceEntry(les: LedgerEntrySet, r: Root, node: Sle, e: nat, ghost v: State)
      returns (x: Option<Key>, next: Sle, e': nat)
    requires les.Good() && les.View() == v && Pointing(les, r, node, e, v)
    modifies les
    ensures les.Good() && les.Framed() && les.View() == v
    ensures Pointing(les, r, next, e', v)
    ensures x.Some? ==> [x.value] + RestFrom(v, r, next.key.page, e') == RestFrom(v, r, node.key.page, e)
    ensures x.None? ==> RestFrom(v, r, node.key.page, e) == []
  {
    ghost var c := PagesOf(v, r);
    ghost var i := Place(c, node.key.page);
    var more;
    ghost var i';
    more, next, e', x, i' := DirNext(les, r, node, e, c, i);
    PlaceUnique(v, r, c, i');
  }

  lemma {:induction false} Shift(done: seq<Key>, x: Key, later: seq<Key>, rest: seq<Key>)
    requires rest == [x] + later
    ensures done + rest == done + [x] + later
  {
  }

  lemma {:induction false} ConsAppend(x: Key, s: seq<Key>, t: seq<Key>)
    ensures [x] + (s + t) == ([x] + s) + t
  {
  }

  lemma {:induction false} PlaceUnique(v: State, r: Root, c: seq<nat>, i: nat)
    requires Chain(v, r, c) && i < |c|
    ensures Place(c, c[i]) == i
  {
  }

  lemma {:induction false} StartOfDirectory(v: State, r: Root)
    requires DirOk(v, r) && PageKey(r, 0) in v
    ensures Inside(v, r, 0, 0) && RestFrom(v, r, 0, 0) == Contents(v, r)
  {
    var c := PagesOf(v, r);
    assert 0 in c && c[0] == 0;
    var i := Place(c, 0);
    assert i == 0;
    assert c == [c[0]] + c[1..];
  }

  lemma {:induction false} NoneLeft(v: State, rank: Ranking, base: nat, end: nat, index: nat)
    requires BookOk(v, rank, base, end) && base <= index <= end
    requires IsNext(set j | j in v && rank(j) <= end :: j, rank, index, None)
    ensures BookList(v, index, end) == [] && NoneBetween(v, index, end + 1)
  {
    forall n | index < n < end + 1
      ensures BookRoot(n) !in v
    {
      assert rank(BookRoot(n)) == n;
    }
    SkipNumbers(v, index, end, end);
  }

  lemma {:induction false} NextFound(v: State, rank: Ranking, base: nat, end: nat, index: nat, k: Key)
    requires BookOk(v, rank, base, end) && base <= index <= end
    requires IsNext(set j | j in v && rank(j) <= end :: j, rank, index, Some(k))
    ensures base < rank(k) < end && k == BookRoot(rank(k)) && NoneBetween(v, index, rank(k))
    ensures BookList(v, index, end) == Contents(v, BookDir(rank(k))) + BookList(v, rank(k), end)
  {
    assert InBook(v, rank, base, end, k);
    NoneSkipped(v, rank, base, end, index, k);
    SkipTo(v, index, rank(k), end);
  }

  lemma {:induction false} SkipTo(v: State, index: nat, n: nat, end: nat)
    requires forall m :: DirOk(v, BookDir(m))
    requires index < n < end && NoneBetween(v, index, n)
    ensures BookList(v, index, end) == Contents(v, BookDir(n)) + BookList(v, n, end)
  {
    var m := n - 1;
    SkipNumbers(v, index, m, end);
    assert BookList(v, m, end) == Contents(v, BookDir(m + 1)) + BookList(v, m + 1, end);
  }

  lemma {:induction false} NoneSkipped(v: State, rank: Ranking, base: nat, end: nat, index: nat, k: Key)
    requires BookOk(v, rank, base, end) && base <= index < rank(k) <= end
    requires IsNext(set j | j in v && rank(j) <= end :: j, rank, index, Some(k))
    ensures NoneBetween(v, index, rank(k))
  {
    forall n | index < n < rank(k)
      ensures BookRoot(n) !in v
    {
      assert rank(BookRoot(n)) == n;
    }
  }
}
