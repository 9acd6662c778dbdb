/** How a directory without entries comes to keep two empty pages: 65 keys are listed, and those on
    the root, on the last page and then on the middle page are deleted. */
module EmptyPages {
  import opened Entries
  import opened Directory

  /** The keys numbered from lo up to hi. */
  function Keys(lo: nat, hi: nat): seq<Key>
    requires lo <= hi
  {
    seq(hi - lo, (i: nat) => OtherKey(lo + i))
  }

  // ---- The states on the way ----

  const FULL: nat := DIR_NODE_MAX
  const TWO_FULL: nat := 2 * DIR_NODE_MAX

  function OnePage(r: Root, n: nat): State {
    map[PageKey(r, 0) := DirNode(Keys(0, n), 0, 0)]
  }

  function TwoPages(r: Root, n: nat): State
    requires FULL <= n
  {
    map[PageKey(r, 0) := DirNode(Keys(0, FULL), 1, 1), PageKey(r, 1) := DirNode(Keys(FULL, n), 0, 0)]
  }

  /** The root is left with the keys from a on, the middle page from b on, the last page from c on. */
  function ThreePages(r: Root, a: nat, b: nat, c: nat): State
    requires a <= FULL <= b <= TWO_FULL <= c <= TWO_FULL + 1
  {
    map[
      PageKey(r, 0) := DirNode(Keys(a, FULL), 1, 2),
      PageKey(r, 1) := DirNode(Keys(b, TWO_FULL), 2, 0),
      PageKey(r, 2) := DirNode(Keys(c, TWO_FULL + 1), 0, 1)
    ]
  }

  function TwoEmptyPages(r: Root): State {
    map[PageKey(r, 0) := DirNode([], 2, 2), PageKey(r, 2) := DirNode([], 0, 0)]
  }

  // ---- One step ----

  function LeaveFrom(n: nat, page: nat): PageOp {
    Leave(OtherKey(n), page, true, false, false)
  }

  lemma {:induction false} KeysGrow(lo: nat, hi: nat)
    requires lo <= hi
    ensures Keys(lo, hi) + [OtherKey(hi)] == Keys(lo, hi + 1) && Keys(hi, hi + 1) == [OtherKey(hi)]
  {
  }

  lemma {:induction false} KeysShrink(lo: nat, hi: nat)
    requires lo < hi
    ensures OtherKey(lo) in Keys(lo, hi) && RemoveOne(Keys(lo, hi), OtherKey(lo), true) == Keys(lo + 1, hi)
  {
    assert Keys(lo, hi)[0] == OtherKey(lo);
  }

  lemma {:induction false} EnterFirst(r: Root)
    ensures DirAdded(map[], r, OtherKey(0)) == OnePage(r, 1)
  {
    KeysGrow(0, 0);
  }

  lemma {:induction false} EnterRoot(r: Root, n: nat)
    requires 0 < n < FULL
    ensures DirAdded(OnePage(r, n), r, OtherKey(n)) == OnePage(r, n + 1)
  {
    KeysGrow(0, n);
  }

  lemma {:induction false} EnterSecond(r: Root)
    ensures DirAdded(OnePage(r, FULL), r, OtherKey(FULL)) == TwoPages(r, FULL + 1)
  {
    KeysGrow(FULL, FULL);
  }

  lemma {:induction false} EnterMiddle(r: Root, n: nat)
    requires FULL < n < TWO_FULL
    ensures DirAdded(TwoPages(r, n), r, OtherKey(n)) == TwoPages(r, n + 1)
  {
    KeysGrow(FULL, n);
  }

  lemma {:induction false} EnterThird(r: Root)
    ensures DirAdded(TwoPages(r, TWO_FULL), r, OtherKey(TWO_FULL)) == ThreePages(r, 0, FULL, TWO_FULL)
  {
    KeysGrow(TWO_FULL, TWO_FULL);
  }

  lemma {:induction false} LeaveRoot(r: Root, a: nat)
    requires a < FULL
    ensures PageStep(ThreePages(r, a, FULL, TWO_FULL), r, LeaveFrom(a, 0)) == ThreePages(r, a + 1, FULL, TWO_FULL)
  {
    KeysShrink(a, FULL);
    assert Located(ThreePages(r, a, FULL, TWO_FULL), r, 0, OtherKey(a), false) == Some(0);
  }

  lemma {:induction false} LeaveLast(r: Root)
    ensures PageStep(ThreePages(r, FULL, FULL, TWO_FULL), r, LeaveFrom(TWO_FULL, 2)) ==
            ThreePages(r, FULL, FULL, TWO_FULL + 1)
  {
    KeysShrink(TWO_FULL, TWO_FULL + 1);
    assert Located(ThreePages(r, FULL, FULL, TWO_FULL), r, 2, OtherKey(TWO_FULL), false) == Some(2);
  }

  lemma {:induction false} LeaveMiddle(r: Root, b: nat)
    requires FULL <= b < TWO_FULL - 1
    ensures PageStep(ThreePages(r, FULL, b, TWO_FULL + 1), r, LeaveFrom(b, 1)) ==
            ThreePages(r, FULL, b + 1, TWO_FULL + 1)
  {
    KeysShrink(b, TWO_FULL);
    assert Located(ThreePages(r, FULL, b, TWO_FULL + 1), r, 1, OtherKey(b), false) == Some(1);
  }

  lemma {:induction false} LeaveEmpties(r: Root)
    ensures PageStep(ThreePages(r, FULL, TWO_FULL - 1, TWO_FULL + 1), r, LeaveFrom(TWO_FULL - 1, 1)) == TwoEmptyPages(r)
  {
    KeysShrink(TWO_FULL - 1, TWO_FULL);
    assert Keys(FULL, FULL) == [] && Keys(TWO_FULL, TWO_FULL) == [] && Keys(TWO_FULL + 1, TWO_FULL + 1) == [];
    assert Located(ThreePages(r, FULL, TWO_FULL - 1, TWO_FULL + 1), r, 1, OtherKey(TWO_FULL - 1), false) == Some(1);
  }

  // ---- The run ----

  function Entering(n: nat): seq<PageOp> {
    seq(n, (i: nat) => Enter(OtherKey(i)))
  }

  /** Delete the keys numbered from lo up to hi, all on one page. */
  function Leaving(lo: nat, hi: nat, page: nat): seq<PageOp>
    requires lo <= hi
  {
    seq(hi - lo, (i: nat) => LeaveFrom(lo + i, page))
  }

  lemma {:induction false} OneMore(v: State, r: Root, ops: seq<PageOp>, op: PageOp)
    ensures PageRun(v, r, ops + [op]) == PageStep(PageRun(v, r, ops), r, op)
  {
    PageRunAppend(v, r, ops, [op]);
    var w := PageRun(v, r, ops);
    assert PageRun(w, r, [op]) == PageRun(PageStep(w, r, op), r, []);
  }

  lemma {:induction false} EnteringGrows(n: nat)
    ensures Entering(n + 1) == Entering(n) + [Enter(OtherKey(n))]
  {
  }

  lemma {:induction false} LeavingGrows(lo: nat, hi: nat, page: nat)
    requires lo <= hi
    ensures Leaving(lo, hi + 1, page) == Leaving(lo, hi, page) + [LeaveFrom(hi, page)]
  {
  }

  lemma {:induction false} FillRoot(r: Root, n: nat)
    requires 0 < n <= FULL
    ensures PageRun(map[], r, Entering(n)) == OnePage(r, n)
  {
    EnteringGrows(n - 1);
    OneMore(map[], r, Entering(n - 1), Enter(OtherKey(n - 1)));
    if n == 1 {
      EnterFirst(r);
    } else {
      FillRoot(r, n - 1);
      EnterRoot(r, n - 1);
    }
  }

  lemma {:induction false} FillMiddle(r: Root, n: nat)
    requires FULL < n <= TWO_FULL
    ensures PageRun(map[], r, Entering(n)) == TwoPages(r, n)
  {
    EnteringGrows(n - 1);
    OneMore(map[], r, Entering(n - 1), Enter(OtherKey(n - 1)));
    if n == FULL + 1 {
      FillRoot(r, FULL);
      EnterSecond(r);
    } else {
      FillMiddle(r, n - 1);
      EnterMiddle(r, n - 1);
    }
  }

  lemma {:induction false} FillThree(r: Root)
    ensures PageRun(map[], r, Entering(TWO_FULL + 1)) == ThreePages(r, 0, FULL, TWO_FULL)
  {
    EnteringGrows(TWO_FULL);
    OneMore(map[], r, Entering(TWO_FULL), Enter(OtherKey(TWO_FULL)));
    FillMiddle(r, TWO_FULL);
    EnterThird(r);
  }

  lemma {:induction false} DrainRoot(r: Root, n: nat)
    requires n <= FULL
    ensures PageRun(ThreePages(r, 0, FULL, TWO_FULL), r, Leaving(0, n, 0)) == ThreePages(r, n, FULL, TWO_FULL)
  {
    if n > 0 {
      LeavingGrows(0, n - 1, 0);
      OneMore(ThreePages(r, 0, FULL, TWO_FULL), r, Leaving(0, n - 1, 0), LeaveFrom(n - 1, 0));
      DrainRoot(r, n - 1);
      LeaveRoot(r, n - 1);
    }
  }

  lemma {:induction false} DrainMiddle(r: Root, n: nat)
    requires FULL <= n < TWO_FULL
    ensures PageRun(ThreePages(r, FULL, FULL, TWO_FULL + 1), r, Leaving(FULL, n, 1)) ==
            ThreePages(r, FULL, n, TWO_FULL + 1)
  {
    if n > FULL {
      LeavingGrows(FULL, n - 1, 1);
      OneMore(ThreePages(r, FULL, FULL, TWO_FULL + 1), r, Leaving(FULL, n - 1, 1), LeaveFrom(n - 1, 1));
      DrainMiddle(r, n - 1);
      LeaveMiddle(r, n - 1);
    }
  }

  lemma {:induction false} DrainAll(r: Root)
    ensures PageRun(ThreePages(r, FULL, FULL, TWO_FULL + 1), r, Leaving(FULL, TWO_FULL, 1)) == TwoEmptyPages(r)
  {
    LeavingGrows(FULL, TWO_FULL - 1, 1);
    OneMore(ThreePages(r, FULL, FULL, TWO_FULL + 1), r, Leaving(FULL, TWO_FULL - 1, 1), LeaveFrom(TWO_FULL - 1, 1));
    DrainMiddle(r, TWO_FULL - 1);
    LeaveEmpties(r);
  }

  /** 65 keys are added, and each is deleted from its page: root, last page, middle page. */
  function Emptying(): seq<PageOp> {
    Entering(TWO_FULL + 1) + (Leaving(0, FULL, 0) + ([LeaveFrom(TWO_FULL, 2)] + Leaving(FULL, TWO_FULL, 1)))
  }

  /** From no pages at all, the run lists nothing in the end, and dirIsEmpty denies it. */
  lemma {:induction false} EmptyPagesSurvive(r: Root)
    ensures var w := PageRun(map[], r, Emptying());
            DirOk(w, r) && Contents(w, r) == [] && !DirIsEmpty(w, r)
  {
    var b, c, d := Leaving(0, FULL, 0), [LeaveFrom(TWO_FULL, 2)], Leaving(FULL, TWO_FULL, 1);
    FillThree(r);
    DrainRoot(r, FULL);
    LeaveLast(r);
    OneMore(ThreePages(r, FULL, FULL, TWO_FULL), r, [], LeaveFrom(TWO_FULL, 2));
    assert [] + c == c;
    DrainAll(r);
    PageRunAppend(map[], r, Entering(TWO_FULL + 1), b + (c + d));
    PageRunAppend(ThreePages(r, 0, FULL, TWO_FULL), r, b, c + d);
    PageRunAppend(ThreePages(r, FULL, FULL, TWO_FULL), r, c, d);
    TwoPagesLinked(r);
    ContentsBy(TwoEmptyPages(r), r, [0, 2]);
    DirIsEmptyExactly(TwoEmptyPages(r), r);
  }

  lemma {:induction false} TwoPagesLinked(r: Root)
    ensures Chain(TwoEmptyPages(r), r, [0, 2])
  {
  }
}
