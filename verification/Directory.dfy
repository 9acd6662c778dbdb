/** Paged directories: the pages as values, and what adding and deleting do to them.

    A directory is a doubly linked chain of pages of at most 32 indexes.  Page 0 is the
    root; the root's previous link holds the number of the last page. */
module Directory {
  import opened Entries

  const DIR_NODE_MAX := 32
  const PAGE_LIMIT := 0x1_0000_0000_0000_0000
  const SOFT_LIMIT := 20

  /** The indexes listed on page n, none when the page does not exist. */
  function Indexes(v: State, r: Root, n: nat): seq<Key> {
    if PageKey(r, n) in v && v[PageKey(r, n)].DirNode? then v[PageKey(r, n)].indexes else []
  }

  /** Page c[i] is linked to its neighbours in the chain c. */
  ghost predicate Linked(v: State, r: Root, c: seq<nat>, i: nat)
    requires i < |c|
  {
    var k := PageKey(r, c[i]);
    && k in v && v[k].DirNode?
    && c[i] < PAGE_LIMIT
    && |v[k].indexes| <= DIR_NODE_MAX
    && v[k].next == (if i + 1 < |c| then c[i + 1] else 0)
    && v[k].previous == (if i == 0 then c[|c| - 1] else c[i - 1])
    && (0 < i < |c| - 1 ==> v[k].indexes != [])
  }

  /** c lists the pages of directory r in order: numbers increase from the root, every live
      page is on the chain, and only the root or the last page may be empty. */
  ghost predicate Chain(v: State, r: Root, c: seq<nat>) {
    && (c != [] ==> c[0] == 0)
    && (forall i, j | 0 <= i < j < |c| :: c[i] < c[j])
    && (forall i | 0 <= i < |c| :: Linked(v, r, c, i))
    && (forall n: nat | PageKey(r, n) in v :: n in c)
    && (|c| == 1 ==> Indexes(v, r, 0) != [])
  }

  ghost predicate DirOk(v: State, r: Root) {
    exists c :: Chain(v, r, c)
  }

  /** The plain list a chain of pages stands for. */
  function Flat(v: State, r: Root, c: seq<nat>): seq<Key> {
    if c == [] then [] else Indexes(v, r, c[0]) + Flat(v, r, c[1..])
  }

  ghost function PagesOf(v: State, r: Root): seq<nat>
    requires DirOk(v, r)
    ensures Chain(v, r, PagesOf(v, r))
  {
    var c :| Chain(v, r, c);
    c
  }

  ghost function Contents(v: State, r: Root): seq<Key>
    requires DirOk(v, r)
  {
    Flat(v, r, PagesOf(v, r))
  }

  // ---- dirAdd ----

  function DirAddResult(v: State, r: Root): Ter
  {
    if PageKey(r, 0) !in v || !v[PageKey(r, 0)].DirNode? then tesSUCCESS else
    var last := v[PageKey(r, 0)].previous;
    if |Indexes(v, r, last)| != DIR_NODE_MAX || last + 1 != PAGE_LIMIT then tesSUCCESS else tecDIR_FULL
  }

  function DirAddPage(v: State, r: Root): nat
  {
    if PageKey(r, 0) !in v || !v[PageKey(r, 0)].DirNode? then 0 else
    var last := v[PageKey(r, 0)].previous;
    if |Indexes(v, r, last)| != DIR_NODE_MAX then last else last + 1
  }

  function SetNext(e: Entry, n: nat): Entry {
    if e.DirNode? then e.(next := n) else e
  }

  function SetPrevious(e: Entry, n: nat): Entry {
    if e.DirNode? then e.(previous := n) else e
  }

  /** A full last page is followed by a new one; the root learns the new last page. */
  function WithNewPage(v: State, r: Root, last: nat, x: Key): State
  {
    if PageKey(r, 0) !in v || PageKey(r, last) !in v then v else
    var v1 := v[PageKey(r, last) := SetNext(v[PageKey(r, last)], last + 1)];
    var v2 := v1[PageKey(r, 0) := SetPrevious(v1[PageKey(r, 0)], last + 1)];
    v2[PageKey(r, last + 1) := DirNode([x], 0, last)]
  }

  function DirAdded(v: State, r: Root, x: Key): State
  {
    if PageKey(r, 0) !in v then v[PageKey(r, 0) := DirNode([x], 0, 0)]
    else if !v[PageKey(r, 0)].DirNode? then v
    else
      var last := v[PageKey(r, 0)].previous;
      if PageKey(r, last) !in v || !v[PageKey(r, last)].DirNode? then v
      else if |Indexes(v, r, last)| != DIR_NODE_MAX then
        var e := v[PageKey(r, last)];
        v[PageKey(r, last) := e.(indexes := e.indexes + [x])]
      else if last + 1 == PAGE_LIMIT then v
      else WithNewPage(v, r, last, x)
  }

  lemma {:induction false} FlatConcat(v: State, r: Root, c: seq<nat>, d: seq<nat>)
    ensures Flat(v, r, c + d) == Flat(v, r, c) + Flat(v, r, d)
  {
    if c == [] {
      assert c + d == d;
    } else {
      FlatConcat(v, r, c[1..], d);
      assert (c + d)[1..] == c[1..] + d;
    }
  }

  lemma {:induction false} FlatSame(v: State, w: State, r: Root, c: seq<nat>)
    requires forall n | n in c :: Indexes(v, r, n) == Indexes(w, r, n)
    ensures Flat(v, r, c) == Flat(w, r, c)
  {
    if c != [] {
      FlatSame(v, w, r, c[1..]);
    }
  }

  lemma {:induction false} LastPage(v: State, r: Root, c: seq<nat>)
    requires Chain(v, r, c) && c != []
    ensures PageKey(r, 0) in v && v[PageKey(r, 0)].DirNode?
    ensures v[PageKey(r, 0)].previous == c[|c| - 1]
    ensures Linked(v, r, c, |c| - 1)
    ensures PageKey(r, c[|c| - 1] + 1) !in v
  {
    assert Linked(v, r, c, 0);
    assert Linked(v, r, c, |c| - 1);
  }

  /** The chain after an insertion. */
  function ChainAdded(v: State, r: Root, c: seq<nat>): seq<nat> {
    if c == [] then [0]
    else if |Indexes(v, r, c[|c| - 1])| != DIR_NODE_MAX || c[|c| - 1] + 1 == PAGE_LIMIT then c
    else c + [c[|c| - 1] + 1]
  }

  lemma {:induction false} AddKeepsChain(v: State, r: Root, x: Key, c: seq<nat>)
    requires Chain(v, r, c)
    ensures Chain(DirAdded(v, r, x), r, ChainAdded(v, r, c))
  {
    var w, d := DirAdded(v, r, x), ChainAdded(v, r, c);
    if c != [] {
      LastPage(v, r, c);
      forall i | 0 <= i < |d|
        ensures Linked(w, r, d, i)
      {
        if i < |c| {
          assert Linked(v, r, c, i);
        }
      }
    }
  }

  lemma {:induction false} NewPagePlaces(v: State, r: Root, last: nat, x: Key, n: nat)
    requires PageKey(r, 0) in v && v[PageKey(r, 0)].DirNode?
    requires PageKey(r, last) in v && v[PageKey(r, last)].DirNode? && PageKey(r, last + 1) !in v
    ensures Indexes(WithNewPage(v, r, last, x), r, n) == Indexes(v, r, n) + (if n == last + 1 then [x] else [])
  {
  }

  /** Only the page reported by dirAdd changes what it lists, and it gains x at its end. */
  lemma {:induction false} AddPlaces(v: State, r: Root, x: Key, c: seq<nat>, n: nat)
    requires Chain(v, r, c) && DirAddResult(v, r).tesSUCCESS?
    ensures Indexes(DirAdded(v, r, x), r, n) == Indexes(v, r, n) + (if n == DirAddPage(v, r) then [x] else [])
  {
    if c != [] {
      LastPage(v, r, c);
      NewPagePlaces(v, r, c[|c| - 1], x, n);
    }
  }

  /** If one page of a chain changes, the list changes in that place only. */
  lemma {:induction false} FlatAround(v: State, w: State, r: Root, c: seq<nat>, i: nat)
    requires i < |c|
    requires forall j | 0 <= j < |c| && j != i :: Indexes(w, r, c[j]) == Indexes(v, r, c[j])
    ensures Flat(v, r, c) == Flat(v, r, c[..i]) + Indexes(v, r, c[i]) + Flat(v, r, c[i + 1..])
    ensures Flat(w, r, c) == Flat(v, r, c[..i]) + Indexes(w, r, c[i]) + Flat(v, r, c[i + 1..])
  {
    FlatAt(v, r, c, i);
    FlatAt(w, r, c, i);
    FlatSame(v, w, r, c[..i]);
    FlatSame(v, w, r, c[i + 1..]);
  }

  lemma {:induction false} FlatAt(v: State, r: Root, c: seq<nat>, i: nat)
    requires i < |c|
    ensures Flat(v, r, c) == Flat(v, r, c[..i]) + Indexes(v, r, c[i]) + Flat(v, r, c[i + 1..])
  {
    assert c == c[..i] + c[i..];
    assert c[i..][1..] == c[i + 1..];
    FlatConcat(v, r, c[..i], c[i..]);
  }

  lemma {:induction false} FlatSingle(v: State, r: Root, n: nat)
    ensures Flat(v, r, [n]) == Indexes(v, r, n)
  {
    assert [n][1..] == [];
  }

  lemma {:induction false} AppendToLast(v: State, w: State, r: Root, c: seq<nat>, x: Key)
    requires c != []
    requires forall j | 0 <= j < |c| - 1 :: Indexes(w, r, c[j]) == Indexes(v, r, c[j])
    requires Indexes(w, r, c[|c| - 1]) == Indexes(v, r, c[|c| - 1]) + [x]
    ensures Flat(w, r, c) == Flat(v, r, c) + [x]
  {
    FlatAround(v, w, r, c, |c| - 1);
    assert Flat(v, r, c[|c|..]) == [];
  }

  lemma {:induction false} AppendPage(v: State, w: State, r: Root, c: seq<nat>, n: nat, x: Key)
    requires forall j | 0 <= j < |c| :: Indexes(w, r, c[j]) == Indexes(v, r, c[j])
    requires Indexes(w, r, n) == [x]
    ensures Flat(w, r, c + [n]) == Flat(v, r, c) + [x]
  {
    FlatSame(v, w, r, c);
    FlatConcat(w, r, c, [n]);
    FlatSingle(w, r, n);
  }

  /** The page a chain gains an index on, when it is the last page or a new one. */
  lemma {:induction false} AppendsWithin(v: State, w: State, r: Root, c: seq<nat>, d: seq<nat>, p: nat, x: Key)
    requires forall n :: Indexes(w, r, n) == Indexes(v, r, n) + (if n == p then [x] else [])
    requires p !in c ==> d == c + [p] && Indexes(v, r, p) == []
    requires p in c ==> d == c && c[|c| - 1] == p && p !in c[..|c| - 1]
    ensures Flat(w, r, d) == Flat(v, r, c) + [x]
  {
    if p in c {
      forall j | 0 <= j < |c| - 1
        ensures Indexes(w, r, c[j]) == Indexes(v, r, c[j])
      {
        assert c[j] in c[..|c| - 1];
      }
      AppendToLast(v, w, r, c, x);
    } else {
      AppendPage(v, w, r, c, p, x);
    }
  }

  lemma {:induction false} AddedPage(v: State, r: Root, c: seq<nat>)
    requires Chain(v, r, c) && DirAddResult(v, r).tesSUCCESS?
    ensures var p, d := DirAddPage(v, r), ChainAdded(v, r, c);
            && (p !in c ==> d == c + [p] && Indexes(v, r, p) == [])
            && (p in c ==> d == c && c[|c| - 1] == p && p !in c[..|c| - 1])
  {
    if c != [] { LastPage(v, r, c); }
  }

  /** dirAdd appends to the list. */
  lemma {:induction false} AddAppends(v: State, r: Root, x: Key, c: seq<nat>)
    requires Chain(v, r, c) && DirAddResult(v, r).tesSUCCESS?
    ensures Flat(DirAdded(v, r, x), r, ChainAdded(v, r, c)) == Flat(v, r, c) + [x]
  {
    forall n: nat
      ensures Indexes(DirAdded(v, r, x), r, n) == Indexes(v, r, n) + (if n == DirAddPage(v, r) then [x] else [])
    {
      AddPlaces(v, r, x, c, n);
    }
    AddedPage(v, r, c);
    AppendsWithin(v, DirAdded(v, r, x), r, c, ChainAdded(v, r, c), DirAddPage(v, r), x);
  }

  // ---- dirDelete ----

  /** The page on which a deletion started at page p finds x: a hard deletion looks at page
      p alone, a soft one goes on to page 20. */
  function Located(v: State, r: Root, p: nat, x: Key, soft: bool): Option<nat>
    decreases SOFT_LIMIT - p
  {
    if x in Indexes(v, r, p) then Some(p)
    else if soft && p < SOFT_LIMIT then Located(v, r, p + 1, x, soft)
    else None
  }

  lemma {:induction false} LocatedExactly(v: State, r: Root, p: nat, x: Key, soft: bool)
    ensures Located(v, r, p, x, soft).Some? <==>
            exists n: nat :: x in Indexes(v, r, n) && (n == p || (soft && p <= n <= SOFT_LIMIT))
    ensures Located(v, r, p, x, soft).Some? ==>
            var m := Located(v, r, p, x, soft).value;
            && x in Indexes(v, r, m) && (m == p || (soft && p < m <= SOFT_LIMIT))
            && forall n: nat | p <= n < m :: x !in Indexes(v, r, n)
    decreases SOFT_LIMIT - p
  {
    if x !in Indexes(v, r, p) && soft && p < SOFT_LIMIT {
      LocatedExactly(v, r, p + 1, x, soft);
    }
  }

  function FirstIndex(s: seq<Key>, x: Key): (j: nat)
    requires x in s
    ensures j < |s| && s[j] == x && x !in s[..j]
  {
    if s[0] == x then 0 else 1 + FirstIndex(s[1..], x)
  }

  /** Erase the first x, or overwrite it with the last element and drop that. */
  function RemoveOne(s: seq<Key>, x: Key, stable: bool): (t: seq<Key>)
    requires x in s
    ensures |t| == |s| - 1
  {
    var j, m := FirstIndex(s, x), |s| - 1;
    if stable then s[..j] + s[j + 1..] else s[j := s[m]][..m]
  }

  /** t is s without its element j; the rest moves up if `stable`, else the last takes its place. */
  ghost predicate TakenAt(s: seq<Key>, t: seq<Key>, j: nat, stable: bool) {
    && j <= |t| == |s| - 1
    && forall i | 0 <= i < |t| ::
         t[i] == if i < j then s[i] else if stable then s[i + 1] else if i == j then s[|t|] else s[i]
  }

  /** The first x is taken. */
  ghost predicate Taken(s: seq<Key>, t: seq<Key>, x: Key, stable: bool) {
    exists j :: 0 <= j < |s| && s[j] == x && x !in s[..j] && TakenAt(s, t, j, stable)
  }

  lemma {:induction false} RemoveOneTakes(s: seq<Key>, x: Key, stable: bool)
    requires x in s
    ensures Taken(s, RemoveOne(s, x, stable), x, stable)
  {
    assert TakenAt(s, RemoveOne(s, x, stable), FirstIndex(s, x), stable);
  }

  lemma {:induction false} EraseMultiset(s: seq<Key>, j: nat)
    requires j < |s|
    ensures multiset(s[..j] + s[j + 1..]) == multiset(s) - multiset{s[j]}
  {
    assert s == s[..j] + [s[j]] + s[j + 1..];
  }

  lemma {:induction false} SwapMultiset(a: seq<Key>, y: Key, b: seq<Key>, z: Key)
    ensures multiset(a + [z] + b) == multiset(a + [y] + b + [z]) - multiset{y}
  {
    assert multiset(a + [z] + b) == multiset(a) + multiset{z} + multiset(b);
    assert multiset(a + [y] + b + [z]) == multiset(a) + multiset{y} + multiset(b) + multiset{z};
  }

  lemma {:induction false} OverwriteParts(s: seq<Key>, j: nat, m: nat)
    requires j < m == |s| - 1
    ensures s[j := s[m]][..m] == s[..j] + [s[m]] + s[j + 1..m]
    ensures s == s[..j] + [s[j]] + s[j + 1..m] + [s[m]]
  {
  }

  lemma {:induction false} OverwriteMultiset(s: seq<Key>, j: nat)
    requires j < |s|
    ensures multiset(s[j := s[|s| - 1]][..|s| - 1]) == multiset(s) - multiset{s[j]}
  {
    var m := |s| - 1;
    if j == m {
      EraseMultiset(s, j);
      assert s[j := s[m]][..m] == s[..j] + s[j + 1..];
    } else {
      OverwriteParts(s, j, m);
      SwapMultiset(s[..j], s[j], s[j + 1..m], s[m]);
    }
  }

  lemma {:induction false} RemoveOneMultiset(s: seq<Key>, x: Key, stable: bool)
    requires x in s
    ensures multiset(RemoveOne(s, x, stable)) == multiset(s) - multiset{x}
  {
    if stable {
      EraseMultiset(s, FirstIndex(s, x));
    } else {
      OverwriteMultiset(s, FirstIndex(s, x));
    }
  }

  /** What becomes of the pages once page p holds `ix`. */
  function Shrunk(v: State, keepRoot: bool, p: nat, r: Root): State
    requires PageKey(r, p) in v && v[PageKey(r, p)].DirNode?
  {
    var node := v[PageKey(r, p)];
    if node.indexes != [] then v
    else if p == 0 then
      if node.previous == 0 then v - {PageKey(r, 0)}
      else if keepRoot || node.previous != node.next then v
      else if Indexes(v, r, node.next) == [] then v - {PageKey(r, 0), PageKey(r, node.next)}
      else v
    else if node.next != 0 then
      Unlinked(v, r, p, node.previous, node.next)
    else if keepRoot || node.previous != 0 then v
    else if Indexes(v, r, 0) == [] then v - {PageKey(r, 0), PageKey(r, p)}
    else v
  }

  function Unlinked(v: State, r: Root, p: nat, previous: nat, next: nat): State {
    if PageKey(r, previous) !in v || PageKey(r, next) !in v then v else
    var v1 := v[PageKey(r, previous) := SetNext(v[PageKey(r, previous)], next)];
    var v2 := v1[PageKey(r, next) := SetPrevious(v1[PageKey(r, next)], previous)];
    v2 - {PageKey(r, p)}
  }

  function Removed(v: State, p: nat, r: Root, x: Key, stable: bool): State
    requires x in Indexes(v, r, p)
  {
    v[PageKey(r, p) := v[PageKey(r, p)].(indexes := RemoveOne(Indexes(v, r, p), x, stable))]
  }

  function DirDeleted(v: State, keepRoot: bool, p: nat, r: Root, x: Key, stable: bool, soft: bool): State
  {
    match Located(v, r, p, x, soft)
    case None => v
    case Some(n) =>
      if x !in Indexes(v, r, n) then v
      else Shrunk(Removed(v, n, r, x, stable), keepRoot, n, r)
  }

  lemma {:induction false} DirDeletedStep(v: State, keepRoot: bool, p: nat, r: Root, x: Key, stable: bool, soft: bool)
    ensures x in Indexes(v, r, p) ==>
      && Located(v, r, p, x, soft) == Some(p)
      && DirDeleted(v, keepRoot, p, r, x, stable, soft) == Shrunk(Removed(v, p, r, x, stable), keepRoot, p, r)
    ensures x !in Indexes(v, r, p) && soft && p < SOFT_LIMIT ==>
      && Located(v, r, p, x, soft) == Located(v, r, p + 1, x, soft)
      && DirDeleted(v, keepRoot, p, r, x, stable, soft) == DirDeleted(v, keepRoot, p + 1, r, x, stable, soft)
    ensures x !in Indexes(v, r, p) && !(soft && p < SOFT_LIMIT) ==>
      Located(v, r, p, x, soft).None? && DirDeleted(v, keepRoot, p, r, x, stable, soft) == v
  {
  }

  /** The chain after page p was left with the indexes it has in v. */
  function ChainShrunk(v: State, keepRoot: bool, r: Root, c: seq<nat>, i: nat): seq<nat>
    requires i < |c|
  {
    if Indexes(v, r, c[i]) != [] then c
    else if i == 0 then
      if |c| == 1 then []
      else if |c| == 2 && !keepRoot && Indexes(v, r, c[1]) == [] then []
      else c
    else if i < |c| - 1 then c[..i] + c[i + 1..]
    else if |c| == 2 && !keepRoot && Indexes(v, r, 0) == [] then []
    else c
  }

  /** The links of the chain c hold in u; page c[i] alone may have been emptied. */
  ghost predicate ChainBut(u: State, r: Root, c: seq<nat>, i: nat)
    requires i < |c|
  {
    && c[0] == 0
    && (forall j, k | 0 <= j < k < |c| :: c[j] < c[k])
    && (forall j | 0 <= j < |c| && j != i :: Linked(u, r, c, j))
    && (forall n: nat | PageKey(r, n) in u :: n in c)
    && PageKey(r, c[i]) in u && u[PageKey(r, c[i])].DirNode?
    && c[i] < PAGE_LIMIT
    && |Indexes(u, r, c[i])| <= DIR_NODE_MAX
    && u[PageKey(r, c[i])].next == (if i + 1 < |c| then c[i + 1] else 0)
    && u[PageKey(r, c[i])].previous == (if i == 0 then c[|c| - 1] else c[i - 1])
  }

  lemma {:induction false} RemovedChainBut(v: State, p: nat, r: Root, x: Key, stable: bool, c: seq<nat>, i: nat)
    requires Chain(v, r, c) && i < |c| && p == c[i] && x in Indexes(v, r, p)
    ensures ChainBut(Removed(v, p, r, x, stable), r, c, i)
  {
    var u := Removed(v, p, r, x, stable);
    assert Linked(v, r, c, i);
    forall j | 0 <= j < |c| && j != i
      ensures Linked(u, r, c, j)
    {
      assert Linked(v, r, c, j);
    }
  }

  /** Emptied interior pages leave the chain; their neighbours close the gap. */
  lemma {:induction false} UnlinkKeepsChain(u: State, r: Root, c: seq<nat>, i: nat)
    requires 0 < i < |c| - 1 && ChainBut(u, r, c, i)
    ensures Chain(Unlinked(u, r, c[i], c[i - 1], c[i + 1]), r, c[..i] + c[i + 1..])
  {
    var w, d := Unlinked(u, r, c[i], c[i - 1], c[i + 1]), c[..i] + c[i + 1..];
    assert Linked(u, r, c, i - 1) && Linked(u, r, c, i + 1);
    forall j | 0 <= j < |d|
      ensures Linked(w, r, d, j)
    {
      UnlinkedLink(u, r, c, i, j);
    }
    forall n: nat | PageKey(r, n) in w
      ensures n in d
    {
      StillListed(c, i, n);
    }
    SkipAscends(c, i);
  }

  lemma {:induction false} StillListed(c: seq<nat>, i: nat, n: nat)
    requires i < |c| && n in c && n != c[i]
    ensures n in c[..i] + c[i + 1..]
  {
    var k :| 0 <= k < |c| && c[k] == n;
    assert n == (c[..i] + c[i + 1..])[if k < i then k else k - 1];
  }

  lemma {:induction false} SkipAscends(c: seq<nat>, i: nat)
    requires 0 < i < |c| && forall j, k | 0 <= j < k < |c| :: c[j] < c[k]
    ensures var d := c[..i] + c[i + 1..];
            d[0] == c[0] && forall j, k | 0 <= j < k < |d| :: d[j] < d[k]
  {
  }

  lemma {:induction false} UnlinkedLink(u: State, r: Root, c: seq<nat>, i: nat, j: nat)
    requires 0 < i < |c| - 1 && ChainBut(u, r, c, i)
    requires j < |c| - 1
    ensures Linked(Unlinked(u, r, c[i], c[i - 1], c[i + 1]), r, c[..i] + c[i + 1..], j)
  {
    assert Linked(u, r, c, i - 1) && Linked(u, r, c, i + 1);
    var k := if j < i then j else j + 1;
    assert Linked(u, r, c, k);
    SkipAt(c, i, j);
    UnlinkedPage(u, r, c[i], c[i - 1], c[i + 1], c[k]);
  }

  /** Element j of a sequence without its element i, and its neighbours there. */
  lemma {:induction false} SkipAt(c: seq<nat>, i: nat, j: nat)
    requires 0 < i < |c| - 1 && j < |c| - 1
    ensures var d, k := c[..i] + c[i + 1..], if j < i then j else j + 1;
            && |d| == |c| - 1 && d[j] == c[k] && d[|d| - 1] == c[|c| - 1]
            && (j + 1 < |d| ==> d[j + 1] == if j == i - 1 then c[i + 1] else c[k + 1])
            && (j > 0 ==> d[j - 1] == if j == i then c[i - 1] else c[k - 1])
  {
  }

  lemma {:induction false} UnlinkedPage(u: State, r: Root, p: nat, a: nat, b: nat, n: nat)
    requires a < p < b && PageKey(r, a) in u && PageKey(r, b) in u && PageKey(r, n) in u && n != p
    ensures var w := Unlinked(u, r, p, a, b);
            && PageKey(r, n) in w
            && w[PageKey(r, n)] ==
              var e := u[PageKey(r, n)]; if n == a then SetNext(e, b) else if n == b then SetPrevious(e, a) else e
  {
  }

  /** Every run of deletions keeps the chain. */
  lemma {:induction false} DeleteKeepsChain(u: State, keepRoot: bool, r: Root, c: seq<nat>, i: nat)
    requires i < |c| && ChainBut(u, r, c, i)
    ensures Chain(Shrunk(u, keepRoot, c[i], r), r, ChainShrunk(u, keepRoot, r, c, i))
  {
    var w, d := Shrunk(u, keepRoot, c[i], r), ChainShrunk(u, keepRoot, r, c, i);
    if |c| == 2 { assert Linked(u, r, c, 1 - i); }
    if 0 < i < |c| - 1 && Indexes(u, r, c[i]) == [] {
      UnlinkKeepsChain(u, r, c, i);
    } else if d == c {
      assert w == u;
      assert Linked(u, r, c, i);
    } else {
      assert d == [];
    }
  }

  /** Dropping pages never drops an index: only empty pages leave the chain. */
  lemma {:induction false} ShrinkPlaces(u: State, keepRoot: bool, r: Root, c: seq<nat>, i: nat, n: nat)
    requires i < |c| && ChainBut(u, r, c, i)
    ensures Indexes(Shrunk(u, keepRoot, c[i], r), r, n) == Indexes(u, r, n)
  {
    if |c| == 2 { assert Linked(u, r, c, 1 - i); }
    if 0 < i < |c| - 1 { assert Linked(u, r, c, i - 1) && Linked(u, r, c, i + 1); }
  }

  lemma {:induction false} ShrinkFlat(u: State, keepRoot: bool, r: Root, c: seq<nat>, i: nat)
    requires i < |c| && ChainBut(u, r, c, i)
    ensures Flat(Shrunk(u, keepRoot, c[i], r), r, ChainShrunk(u, keepRoot, r, c, i)) == Flat(u, r, c)
  {
    var w, d := Shrunk(u, keepRoot, c[i], r), ChainShrunk(u, keepRoot, r, c, i);
    forall j | 0 <= j < |c| { ShrinkPlaces(u, keepRoot, r, c, i, c[j]); }
    FlatSame(u, w, r, c);
    if d == [] && c != [] {
      assert forall j | 0 <= j < |c| :: Indexes(w, r, c[j]) == [];
      FlatEmpty(w, r, c);
    } else if d != c {
      FlatDrop(w, r, c, i);
    }
  }

  lemma {:induction false} FlatDrop(v: State, r: Root, c: seq<nat>, i: nat)
    requires i < |c| && Indexes(v, r, c[i]) == []
    ensures Flat(v, r, c[..i] + c[i + 1..]) == Flat(v, r, c)
  {
    FlatAt(v, r, c, i);
    FlatConcat(v, r, c[..i], c[i + 1..]);
  }

  lemma {:induction false} FlatEmpty(v: State, r: Root, c: seq<nat>)
    requires forall j | 0 <= j < |c| :: Indexes(v, r, c[j]) == []
    ensures Flat(v, r, c) == []
  {
    if c != [] {
      FlatEmpty(v, r, c[1..]);
    }
  }

  /** A list without one occurrence of x; `stable` keeps the order of the rest. */
  ghost predicate RemovedOnce(before: seq<Key>, after: seq<Key>, x: Key, stable: bool) {
    && multiset(after) == multiset(before) - multiset{x}
    && x in before
    && (stable ==> exists j :: 0 <= j < |before| && before[j] == x && after == before[..j] + before[j + 1..])
  }

  lemma {:induction false} OrderKept(pre: seq<Key>, s: seq<Key>, post: seq<Key>, x: Key)
    requires x in s
    ensures var before, j := pre + s + post, |pre| + FirstIndex(s, x);
            before[j] == x && pre + RemoveOne(s, x, true) + post == before[..j] + before[j + 1..]
  {
    var j := FirstIndex(s, x);
    var a, b := pre + s[..j], s[j + 1..] + post;
    assert pre + s + post == a + [x] + b;
    assert pre + RemoveOne(s, x, true) + post == a + b;
  }

  lemma {:induction false} RemovedOnceWithin(pre: seq<Key>, s: seq<Key>, post: seq<Key>, x: Key, stable: bool)
    requires x in s
    ensures RemovedOnce(pre + s + post, pre + RemoveOne(s, x, stable) + post, x, stable)
  {
    var before, after := pre + s + post, pre + RemoveOne(s, x, stable) + post;
    OrderKept(pre, s, post, x);
    RemoveOneMultiset(s, x, stable);
    assert multiset(before) == multiset(pre) + multiset(s) + multiset(post);
    assert multiset(after) == multiset(pre) + multiset(RemoveOne(s, x, stable)) + multiset(post);
    assert before[|pre| + FirstIndex(s, x)] == x;
  }

  /** The chain and the list after x was taken off page c[i]. */
  lemma {:induction false} DeleteFlat(v: State, keepRoot: bool, r: Root, x: Key, stable: bool, c: seq<nat>, i: nat)
    requires Chain(v, r, c) && i < |c| && x in Indexes(v, r, c[i])
    ensures var u := Removed(v, c[i], r, x, stable);
            var w, d := Shrunk(u, keepRoot, c[i], r), ChainShrunk(u, keepRoot, r, c, i);
            && Chain(w, r, d)
            && Flat(v, r, c) == Flat(v, r, c[..i]) + Indexes(v, r, c[i]) + Flat(v, r, c[i + 1..])
            && Flat(w, r, d) == Flat(v, r, c[..i]) + RemoveOne(Indexes(v, r, c[i]), x, stable) + Flat(v, r, c[i + 1..])
  {
    var u := Removed(v, c[i], r, x, stable);
    RemovedChainBut(v, c[i], r, x, stable, c, i);
    DeleteKeepsChain(u, keepRoot, r, c, i);
    ShrinkFlat(u, keepRoot, r, c, i);
    RemovedFlat(v, r, x, stable, c, i);
  }

  lemma {:induction false} RemovedFlat(v: State, r: Root, x: Key, stable: bool, c: seq<nat>, i: nat)
    requires Chain(v, r, c) && i < |c| && x in Indexes(v, r, c[i])
    ensures Flat(v, r, c) == Flat(v, r, c[..i]) + Indexes(v, r, c[i]) + Flat(v, r, c[i + 1..])
    ensures Flat(Removed(v, c[i], r, x, stable), r, c) ==
      Flat(v, r, c[..i]) + RemoveOne(Indexes(v, r, c[i]), x, stable) + Flat(v, r, c[i + 1..])
  {
    var u := Removed(v, c[i], r, x, stable);
    assert Indexes(u, r, c[i]) == RemoveOne(Indexes(v, r, c[i]), x, stable);
    FlatAround(v, u, r, c, i);
  }

  lemma {:induction false} ChainPrefix(v: State, r: Root, c: seq<nat>, d: seq<nat>, i: nat)
    requires Chain(v, r, c) && Chain(v, r, d) && i < |c|
    ensures i < |d| && c[i] == d[i]
  {
    if i == 0 {
      assert Linked(v, r, c, 0);
      assert 0 in d;
    } else {
      ChainPrefix(v, r, c, d, i - 1);
      assert Linked(v, r, c, i - 1) && Linked(v, r, d, i - 1);
    }
  }

  lemma {:induction false} ChainUnique(v: State, r: Root, c: seq<nat>, d: seq<nat>)
    requires Chain(v, r, c) && Chain(v, r, d)
    ensures c == d
  {
    if c != [] { ChainPrefix(v, r, c, d, |c| - 1); }
    if d != [] { ChainPrefix(v, r, d, c, |d| - 1); }
    forall i | 0 <= i < |c|
      ensures c[i] == d[i]
    {
      ChainPrefix(v, r, c, d, i);
    }
  }

  lemma {:induction false} ContentsBy(v: State, r: Root, c: seq<nat>)
    requires Chain(v, r, c)
    ensures DirOk(v, r) && PagesOf(v, r) == c && Contents(v, r) == Flat(v, r, c)
  {
    assert DirOk(v, r);
    ChainUnique(v, r, c, PagesOf(v, r));
  }

  // ---- The directory as a list ----

  /** Two states that differ at most in the pages of directory r. */
  ghost predicate SameOutside(v: State, w: State, r: Root) {
    forall k: Key | !(k.PageKey? && k.root == r) :: (k in w <==> k in v) && (k in v ==> w[k] == v[k])
  }

  /** dirAdd appends x and reports the page that now lists it; other pages are unchanged. */
  lemma {:induction false} DirAddRefinesAppend(v: State, r: Root, x: Key)
    requires DirOk(v, r)
    ensures DirOk(DirAdded(v, r, x), r)
    ensures DirAddResult(v, r).tesSUCCESS? ==>
      && Contents(DirAdded(v, r, x), r) == Contents(v, r) + [x]
      && forall n :: Indexes(DirAdded(v, r, x), r, n) == Indexes(v, r, n) + (if n == DirAddPage(v, r) then [x] else [])
    ensures !DirAddResult(v, r).tesSUCCESS? ==> DirAdded(v, r, x) == v
    ensures SameOutside(v, DirAdded(v, r, x), r)
  {
    var c := PagesOf(v, r);
    AddKeepsChain(v, r, x, c);
    ContentsBy(DirAdded(v, r, x), r, ChainAdded(v, r, c));
    AddOutside(v, r, x);
    if DirAddResult(v, r).tesSUCCESS? {
      AddAppends(v, r, x, c);
      forall n: nat
        ensures Indexes(DirAdded(v, r, x), r, n) == Indexes(v, r, n) + (if n == DirAddPage(v, r) then [x] else [])
      {
        AddPlaces(v, r, x, c, n);
      }
    } else {
      LastPage(v, r, c);
    }
  }

  lemma {:induction false} AddOutside(v: State, r: Root, x: Key)
    ensures SameOutside(v, DirAdded(v, r, x), r)
  {
  }

  /** What taking x off page m leaves: one occurrence fewer in the list and on that page. */
  ghost predicate Deleted(v: State, w: State, r: Root, m: nat, x: Key, stable: bool) {
    && DirOk(v, r) && DirOk(w, r)
    && RemovedOnce(Contents(v, r), Contents(w, r), x, stable)
    && x in Indexes(v, r, m)
    && (forall n :: Indexes(w, r, n) == if n == m then RemoveOne(Indexes(v, r, m), x, stable) else Indexes(v, r, n))
    && SameOutside(v, w, r)
  }

  lemma {:induction false} DeleteList(v: State, keepRoot: bool, m: nat, r: Root, x: Key, stable: bool)
    requires DirOk(v, r) && x in Indexes(v, r, m)
    ensures var w := Shrunk(Removed(v, m, r, x, stable), keepRoot, m, r);
            DirOk(w, r) && RemovedOnce(Contents(v, r), Contents(w, r), x, stable)
  {
    var c := PagesOf(v, r);
    var i :| 0 <= i < |c| && c[i] == m;
    var u := Removed(v, m, r, x, stable);
    DeleteFlat(v, keepRoot, r, x, stable, c, i);
    ContentsBy(Shrunk(u, keepRoot, m, r), r, ChainShrunk(u, keepRoot, r, c, i));
    RemovedOnceWithin(Flat(v, r, c[..i]), Indexes(v, r, m), Flat(v, r, c[i + 1..]), x, stable);
  }

  lemma {:induction false} DeletePlaces(v: State, keepRoot: bool, m: nat, r: Root, x: Key, stable: bool, n: nat)
    requires DirOk(v, r) && x in Indexes(v, r, m)
    ensures var w := Shrunk(Removed(v, m, r, x, stable), keepRoot, m, r);
            Indexes(w, r, n) == if n == m then RemoveOne(Indexes(v, r, m), x, stable) else Indexes(v, r, n)
  {
    var c := PagesOf(v, r);
    var i :| 0 <= i < |c| && c[i] == m;
    var u := Removed(v, m, r, x, stable);
    RemovedChainBut(v, m, r, x, stable, c, i);
    ShrinkPlaces(u, keepRoot, r, c, i, n);
  }

  lemma {:induction false} DeleteOutside(v: State, keepRoot: bool, m: nat, r: Root, x: Key, stable: bool)
    requires x in Indexes(v, r, m)
    ensures SameOutside(v, Shrunk(Removed(v, m, r, x, stable), keepRoot, m, r), r)
  {
  }

  lemma {:induction false} DirDeletedOutside(v: State, keepRoot: bool, p: nat, r: Root, x: Key, stable: bool,
                                             soft: bool)
    ensures SameOutside(v, DirDeleted(v, keepRoot, p, r, x, stable, soft), r)
  {
    LocatedExactly(v, r, p, x, soft);
    if Located(v, r, p, x, soft).Some? {
      DeleteOutside(v, keepRoot, Located(v, r, p, x, soft).value, r, x, stable);
    }
  }

  lemma {:induction false} DeletedAt(v: State, keepRoot: bool, m: nat, r: Root, x: Key, stable: bool)
    requires DirOk(v, r) && x in Indexes(v, r, m)
    ensures Deleted(v, Shrunk(Removed(v, m, r, x, stable), keepRoot, m, r), r, m, x, stable)
  {
    var w := Shrunk(Removed(v, m, r, x, stable), keepRoot, m, r);
    DeleteList(v, keepRoot, m, r, x, stable);
    DeleteOutside(v, keepRoot, m, r, x, stable);
    forall n: nat
      ensures Indexes(w, r, n) == if n == m then RemoveOne(Indexes(v, r, m), x, stable) else Indexes(v, r, n)
    {
      DeletePlaces(v, keepRoot, m, r, x, stable, n);
    }
  }

  /** dirDelete removes one occurrence of x from the list and from the page it was found on;
      other pages list what they listed before. */
  lemma {:induction false} DirDeleteRefinesRemove(v: State, keepRoot: bool, p: nat, r: Root, x: Key, stable: bool,
                                                  soft: bool)
    requires DirOk(v, r)
    ensures Located(v, r, p, x, soft).None? ==> DirDeleted(v, keepRoot, p, r, x, stable, soft) == v
    ensures Located(v, r, p, x, soft).Some? ==>
      var w, m := DirDeleted(v, keepRoot, p, r, x, stable, soft), Located(v, r, p, x, soft).value;
      Deleted(v, w, r, m, x, stable) && Taken(Indexes(v, r, m), Indexes(w, r, m), x, stable)
  {
    if Located(v, r, p, x, soft).Some? {
      LocatedExactly(v, r, p, x, soft);
      var m := Located(v, r, p, x, soft).value;
      DeletedAt(v, keepRoot, m, r, x, stable);
      RemoveOneTakes(Indexes(v, r, m), x, stable);
    }
  }

  // ---- Which pages there are ----

  /** dirAdd puts x on the last page, on a new one after it only if that page is full, and fails
      exactly when the full page is the last there can be. */
  lemma {:induction false} DirAddPages(v: State, r: Root, x: Key)
    requires DirOk(v, r)
    ensures var c, w := PagesOf(v, r), DirAdded(v, r, x);
            var full := c != [] && |Indexes(v, r, c[|c| - 1])| == 32;
            && DirOk(w, r)
            && (DirAddResult(v, r) != tesSUCCESS <==> full && c[|c| - 1] == 0xffff_ffff_ffff_ffff)
            && (DirAddResult(v, r) == tesSUCCESS ==>
                  && PagesOf(w, r) == (if c == [] then [0] else if full then c + [c[|c| - 1] + 1] else c)
                  && DirAddPage(v, r) == PagesOf(w, r)[|PagesOf(w, r)| - 1])
  {
    var c := PagesOf(v, r);
    AddKeepsChain(v, r, x, c);
    ContentsBy(DirAdded(v, r, x), r, ChainAdded(v, r, c));
    if c != [] {
      LastPage(v, r, c);
    }
  }

  lemma {:induction false} EmptyFlat(v: State, r: Root, c: seq<nat>, j: nat)
    requires Flat(v, r, c) == [] && j < |c|
    ensures Indexes(v, r, c[j]) == []
  {
    FlatAt(v, r, c, j);
  }

  /** The chain a deletion leaves, in terms of what is listed afterwards. */
  lemma {:induction false} ShrunkBy(u: State, keepRoot: bool, r: Root, c: seq<nat>, i: nat)
    requires i < |c| && ChainBut(u, r, c, i)
    ensures var d := ChainShrunk(u, keepRoot, r, c, i);
            var gone := Flat(u, r, c) == [] && (|c| == 1 || (|c| == 2 && !keepRoot));
            d == if gone then []
                 else if Indexes(u, r, c[i]) == [] && 0 < i < |c| - 1 then c[..i] + c[i + 1..]
                 else c
  {
    if Flat(u, r, c) == [] {
      EmptyFlat(u, r, c, i);
      if |c| == 2 { EmptyFlat(u, r, c, 1 - i); }
    } else if |c| <= 2 && forall j | 0 <= j < |c| :: Indexes(u, r, c[j]) == [] {
      FlatEmpty(u, r, c);
    }
  }

  lemma {:induction false} SkipMembers(c: seq<nat>, i: nat, n: nat)
    requires i < |c| && forall j, k | 0 <= j < k < |c| :: c[j] < c[k]
    ensures n in c[..i] + c[i + 1..] <==> n in c && n != c[i]
  {
    if n in c && n != c[i] {
      StillListed(c, i, n);
    }
  }

  /** An untouched page stays whether or not it is between two others. */
  lemma {:induction false} PageLeft(v: State, w: State, r: Root, c: seq<nat>, i: nat, gone: bool, d: seq<nat>, n: nat)
    requires Chain(v, r, c) && i < |c| && (n != c[i] ==> Indexes(w, r, n) == Indexes(v, r, n))
    requires d == if gone then []
                  else if Indexes(w, r, c[i]) == [] && 0 < i < |c| - 1 then c[..i] + c[i + 1..]
                  else c
    ensures n in d <==> n in c && !gone && (Indexes(w, r, n) != [] || n == 0 || n == c[|c| - 1])
  {
    SkipMembers(c, i, n);
    if n in c {
      var j :| 0 <= j < |c| && c[j] == n;
      assert Linked(v, r, c, j);
    }
  }

  lemma {:induction false} DeletePagesAt(v: State, keepRoot: bool, r: Root, x: Key, stable: bool, c: seq<nat>, i: nat)
    requires Chain(v, r, c) && i < |c| && x in Indexes(v, r, c[i])
    ensures var w := Shrunk(Removed(v, c[i], r, x, stable), keepRoot, c[i], r);
            && DirOk(w, r)
            && var gone := Contents(w, r) == [] && (|c| == 1 || (|c| == 2 && !keepRoot));
               PagesOf(w, r) == if gone then []
                                else if Indexes(w, r, c[i]) == [] && 0 < i < |c| - 1 then c[..i] + c[i + 1..]
                                else c
  {
    var u := Removed(v, c[i], r, x, stable);
    RemovedChainBut(v, c[i], r, x, stable, c, i);
    DeleteKeepsChain(u, keepRoot, r, c, i);
    ContentsBy(Shrunk(u, keepRoot, c[i], r), r, ChainShrunk(u, keepRoot, r, c, i));
    ShrinkFlat(u, keepRoot, r, c, i);
    ShrinkPlaces(u, keepRoot, r, c, i, c[i]);
    ShrunkBy(u, keepRoot, r, c, i);
  }

  /** The pages a deletion leaves.  All go when nothing is listed any more, if the root was the
      only page, or one of two and neither is to be kept; otherwise all stay but a page emptied
      between two others. */
  ghost predicate LeavesPages(v: State, w: State, r: Root, keepRoot: bool)
    requires DirOk(v, r) && DirOk(w, r)
  {
    var c := PagesOf(v, r);
    && c != []
    && var gone := Contents(w, r) == [] && (|c| == 1 || (|c| == 2 && !keepRoot));
       forall n :: n in PagesOf(w, r) <==>
         n in c && !gone && (Indexes(w, r, n) != [] || n == 0 || n == c[|c| - 1])
  }

  lemma {:induction false} PagesLeft(v: State, w: State, keepRoot: bool, r: Root, x: Key, stable: bool, c: seq<nat>,
                                     i: nat)
    requires DirOk(v, r) && c == PagesOf(v, r) && i < |c| && x in Indexes(v, r, c[i])
    requires w == Shrunk(Removed(v, c[i], r, x, stable), keepRoot, c[i], r)
    ensures DirOk(w, r) && LeavesPages(v, w, r, keepRoot)
  {
    DeletePagesAt(v, keepRoot, r, x, stable, c, i);
    var gone := Contents(w, r) == [] && (|c| == 1 || (|c| == 2 && !keepRoot));
    forall n
      ensures n in PagesOf(w, r) <==> n in c && !gone && (Indexes(w, r, n) != [] || n == 0 || n == c[|c| - 1])
    {
      DeletePlaces(v, keepRoot, c[i], r, x, stable, n);
      PageLeft(v, w, r, c, i, gone, PagesOf(w, r), n);
    }
  }

  lemma {:induction false} DirDeletePages(v: State, keepRoot: bool, p: nat, r: Root, x: Key, stable: bool, soft: bool)
    requires DirOk(v, r) && Located(v, r, p, x, soft).Some?
    ensures var w := DirDeleted(v, keepRoot, p, r, x, stable, soft);
            DirOk(w, r) && LeavesPages(v, w, r, keepRoot)
  {
    LocatedExactly(v, r, p, x, soft);
    var m := Located(v, r, p, x, soft).value;
    var c, w := PagesOf(v, r), DirDeleted(v, keepRoot, p, r, x, stable, soft);
    var i :| 0 <= i < |c| && c[i] == m;
    assert w == Shrunk(Removed(v, m, r, x, stable), keepRoot, m, r);
    PagesLeft(v, w, keepRoot, r, x, stable, c, i);
  }

  ghost predicate SamePages(v: State, w: State, r: Root) {
    forall n: nat ::
      (PageKey(r, n) in v <==> PageKey(r, n) in w) && (PageKey(r, n) in v ==> v[PageKey(r, n)] == w[PageKey(r, n)])
  }

  /** A directory depends on its own pages only. */
  lemma {:induction false} DirFrame(v: State, w: State, r: Root)
    requires DirOk(v, r) && SamePages(v, w, r)
    ensures DirOk(w, r) && Contents(w, r) == Contents(v, r) && PagesOf(w, r) == PagesOf(v, r)
    ensures forall n :: Indexes(w, r, n) == Indexes(v, r, n)
  {
    var c := PagesOf(v, r);
    forall i | 0 <= i < |c|
      ensures Linked(w, r, c, i)
    {
      assert Linked(v, r, c, i);
    }
    assert Chain(w, r, c);
    ContentsBy(w, r, c);
    FlatSame(v, w, r, c);
  }

  // ---- dirIsEmpty ----

  predicate DirIsEmpty(v: State, r: Root) {
    PageKey(r, 0) !in v || (Indexes(v, r, 0) == [] && v[PageKey(r, 0)].DirNode? && v[PageKey(r, 0)].next == 0)
  }

  /** A directory reported empty lists nothing.  The converse fails exactly when an emptied
      root is left linked to an emptied last page. */
  lemma {:induction false} DirIsEmptyExactly(v: State, r: Root)
    requires DirOk(v, r)
    ensures DirIsEmpty(v, r) <==> PagesOf(v, r) == []
    ensures DirIsEmpty(v, r) ==> Contents(v, r) == []
    ensures var c := PagesOf(v, r);
            Contents(v, r) == [] && !DirIsEmpty(v, r) <==>
            |c| == 2 && Indexes(v, r, c[0]) == [] && Indexes(v, r, c[1]) == []
  {
    var c := PagesOf(v, r);
    if c != [] {
      assert Linked(v, r, c, 0);
      if |c| == 2 {
        FlatConcat(v, r, [c[0]], [c[1]]);
        FlatSingle(v, r, c[0]);
        FlatSingle(v, r, c[1]);
        assert c == [c[0]] + [c[1]];
      } else {
        var i := if |c| == 1 then 0 else 1;
        assert Linked(v, r, c, i);
        FlatAt(v, r, c, i);
      }
    }
  }

  // ---- Runs ----

  datatype DirOp = AddOp(x: Key) | DropOp(x: Key, stable: bool, keepRoot: bool)

  /** A directory together with the page its user recorded for each listed entry. */
  datatype Tracked = Tracked(state: State, hints: map<Key, nat>)

  /** Entries are listed once and deleted with the page number dirAdd reported. */
  function Step(t: Tracked, r: Root, op: DirOp): (Tracked, Ter) {
    match op
    case AddOp(x) =>
      if x in t.hints then (t, tesSUCCESS)
      else if DirAddResult(t.state, r).tesSUCCESS? then
        (Tracked(DirAdded(t.state, r, x), t.hints[x := DirAddPage(t.state, r)]), tesSUCCESS)
      else (t, tecDIR_FULL)
    case DropOp(x, stable, keepRoot) =>
      if x !in t.hints then (t, tesSUCCESS)
      else if Located(t.state, r, t.hints[x], x, false).None? then (t, tefBAD_LEDGER)
      else (Tracked(DirDeleted(t.state, keepRoot, t.hints[x], r, x, stable, false), t.hints - {x}), tesSUCCESS)
  }

  function Run(t: Tracked, r: Root, ops: seq<DirOp>): (Tracked, seq<Ter>)
    decreases |ops|
  {
    if ops == [] then (t, []) else
    var (t1, ter) := Step(t, r, ops[0]);
    var (t2, ters) := Run(t1, r, ops[1..]);
    (t2, [ter] + ters)
  }

  /** Every recorded entry is listed exactly once, on its recorded page, and nothing else is. */
  ghost predicate HintsRight(t: Tracked, r: Root) {
    DirOk(t.state, r) && Counted(t.state, r, t.hints, Contents(t.state, r))
  }

  function Count(list: seq<Key>, x: Key): nat {
    multiset(list)[x]
  }

  ghost predicate Counted(v: State, r: Root, hints: map<Key, nat>, list: seq<Key>) {
    PagesCounted(v, r, hints) && ListCounted(list, hints)
  }

  ghost predicate PagesCounted(v: State, r: Root, hints: map<Key, nat>) {
    forall n, x :: Count(Indexes(v, r, n), x) == if x in hints && hints[x] == n then 1 else 0
  }

  ghost predicate ListCounted(list: seq<Key>, hints: map<Key, nat>) {
    forall x :: Count(list, x) == if x in hints then 1 else 0
  }

  lemma {:induction false} CountedAdd(v: State, w: State, r: Root, hints: map<Key, nat>, list: seq<Key>, x: Key, p: nat)
    requires Counted(v, r, hints, list) && x !in hints
    requires forall n :: Indexes(w, r, n) == Indexes(v, r, n) + (if n == p then [x] else [])
    ensures Counted(w, r, hints[x := p], list + [x])
  {
    forall n: nat, y
      ensures Count(Indexes(w, r, n), y) == if y in hints[x := p] && hints[x := p][y] == n then 1 else 0
    {
      assert Count(Indexes(v, r, n), y) == if y in hints && hints[y] == n then 1 else 0;
    }
    forall y
      ensures Count(list + [x], y) == if y in hints[x := p] then 1 else 0
    {
      assert Count(list, y) == if y in hints then 1 else 0;
    }
  }

  lemma {:induction false} AppendCount(s: seq<Key>, x: Key, y: Key)
    ensures Count(s + [x], y) == Count(s, y) + if y == x then 1 else 0
  {
  }

  lemma {:induction false} RemoveOneCount(s: seq<Key>, x: Key, stable: bool, y: Key)
    requires x in s
    ensures Count(RemoveOne(s, x, stable), y) == Count(s, y) - if y == x then 1 else 0
  {
    RemoveOneMultiset(s, x, stable);
  }

  lemma {:induction false} PagesCountedDrop(v: State, w: State, r: Root, hints: map<Key, nat>, x: Key)
    requires PagesCounted(v, r, hints) && x in hints
    requires forall n, y ::
      Count(Indexes(w, r, n), y) == Count(Indexes(v, r, n), y) - if n == hints[x] && y == x then 1 else 0
    ensures PagesCounted(w, r, hints - {x})
  {
  }

  lemma {:induction false} ListCountedDrop(list: seq<Key>, list': seq<Key>, hints: map<Key, nat>, x: Key)
    requires ListCounted(list, hints) && x in hints
    requires multiset(list') == multiset(list) - multiset{x}
    ensures ListCounted(list', hints - {x})
  {
    forall y
      ensures Count(list', y) == if y in hints - {x} then 1 else 0
    {
      assert Count(list, y) == if y in hints then 1 else 0;
    }
  }

  lemma {:induction false} AddStepRight(t: Tracked, r: Root, x: Key)
    requires HintsRight(t, r)
    ensures HintsRight(Step(t, r, AddOp(x)).0, r) && Step(t, r, AddOp(x)).1 != tefBAD_LEDGER
  {
    var v, w := t.state, DirAdded(t.state, r, x);
    if x !in t.hints && DirAddResult(v, r).tesSUCCESS? {
      DirAddRefinesAppend(v, r, x);
      CountedAdd(v, w, r, t.hints, Contents(v, r), x, DirAddPage(v, r));
    }
  }

  lemma {:induction false} DropCounts(v: State, w: State, r: Root, p: nat, x: Key, stable: bool)
    requires Deleted(v, w, r, p, x, stable)
    ensures forall n, y ::
      Count(Indexes(w, r, n), y) == Count(Indexes(v, r, n), y) - if n == p && y == x then 1 else 0
  {
    forall n: nat, y
      ensures Count(Indexes(w, r, n), y) == Count(Indexes(v, r, n), y) - if n == p && y == x then 1 else 0
    {
      RemoveOneCount(Indexes(v, r, p), x, stable, y);
    }
  }

  lemma {:induction false} DropStepRight(t: Tracked, r: Root, x: Key, stable: bool, keepRoot: bool)
    requires HintsRight(t, r)
    ensures HintsRight(Step(t, r, DropOp(x, stable, keepRoot)).0, r)
    ensures Step(t, r, DropOp(x, stable, keepRoot)).1 == tesSUCCESS
  {
    if x in t.hints {
      var v, p := t.state, t.hints[x];
      assert Count(Indexes(v, r, p), x) == 1;
      assert x in Indexes(v, r, p);
      var w := DirDeleted(v, keepRoot, p, r, x, stable, false);
      DirDeleteRefinesRemove(v, keepRoot, p, r, x, stable, false);
      DropCounts(v, w, r, p, x, stable);
      PagesCountedDrop(v, w, r, t.hints, x);
      ListCountedDrop(Contents(v, r), Contents(w, r), t.hints, x);
    }
  }

  /** In every run the recorded page numbers stay right, so no deletion reports tefBAD_LEDGER. */
  lemma {:induction false} RunsKeepHints(t: Tracked, r: Root, ops: seq<DirOp>)
    requires HintsRight(t, r)
    ensures HintsRight(Run(t, r, ops).0, r)
    ensures tefBAD_LEDGER !in Run(t, r, ops).1
    decreases |ops|
  {
    if ops != [] {
      match ops[0] {
        case AddOp(x) => AddStepRight(t, r, x);
        case DropOp(x, stable, keepRoot) => DropStepRight(t, r, x, stable, keepRoot);
      }
      RunsKeepHints(Step(t, r, ops[0]).0, r, ops[1..]);
    }
  }

  /** Any calls of dirAdd and dirDelete, with any page number. */
  datatype PageOp = Enter(x: Key) | Leave(x: Key, page: nat, stable: bool, keepRoot: bool, soft: bool)

  function PageStep(v: State, r: Root, op: PageOp): State {
    match op
    case Enter(x) => DirAdded(v, r, x)
    case Leave(x, p, stable, keepRoot, soft) => DirDeleted(v, keepRoot, p, r, x, stable, soft)
  }

  function PageRun(v: State, r: Root, ops: seq<PageOp>): State
    decreases |ops|
  {
    if ops == [] then v else PageRun(PageStep(v, r, ops[0]), r, ops[1..])
  }

  /** How many more times the step lists x than before, by what it reported. */
  function StepNet(v: State, r: Root, op: PageOp, x: Key): int {
    if op.x != x then 0 else
    match op
    case Enter(_) => if DirAddResult(v, r).tesSUCCESS? then 1 else 0
    case Leave(_, p, _, _, soft) => if Located(v, r, p, x, soft).Some? then -1 else 0
  }

  function RunNet(v: State, r: Root, ops: seq<PageOp>, x: Key): int
    decreases |ops|
  {
    if ops == [] then 0 else StepNet(v, r, ops[0], x) + RunNet(PageStep(v, r, ops[0]), r, ops[1..], x)
  }

  lemma {:induction false} PageRunAppend(v: State, r: Root, first: seq<PageOp>, second: seq<PageOp>)
    ensures PageRun(v, r, first + second) == PageRun(PageRun(v, r, first), r, second)
    decreases |first|
  {
    if first == [] {
      assert first + second == second;
    } else {
      PageRunAppend(PageStep(v, r, first[0]), r, first[1..], second);
      assert (first + second)[1..] == first[1..] + second;
    }
  }

  lemma {:induction false} EnterConserves(v: State, r: Root, y: Key, x: Key)
    requires DirOk(v, r)
    ensures var w := DirAdded(v, r, y);
            && DirOk(w, r) && SameOutside(v, w, r)
            && Count(Contents(w, r), x) ==
                 Count(Contents(v, r), x) + if x == y && DirAddResult(v, r).tesSUCCESS? then 1 else 0
  {
    DirAddRefinesAppend(v, r, y);
    AppendCount(Contents(v, r), y, x);
  }

  lemma {:induction false} RemovedOnceCount(before: seq<Key>, after: seq<Key>, y: Key, stable: bool, x: Key)
    requires RemovedOnce(before, after, y, stable)
    ensures Count(after, x) == Count(before, x) - if x == y then 1 else 0
  {
  }

  lemma {:induction false} LeaveConserves(v: State, keepRoot: bool, p: nat, r: Root, y: Key, stable: bool, soft: bool,
                                          x: Key)
    requires DirOk(v, r)
    ensures var w := DirDeleted(v, keepRoot, p, r, y, stable, soft);
            && DirOk(w, r) && SameOutside(v, w, r)
            && Count(Contents(w, r), x) ==
                 Count(Contents(v, r), x) - if x == y && Located(v, r, p, y, soft).Some? then 1 else 0
  {
    var w := DirDeleted(v, keepRoot, p, r, y, stable, soft);
    DirDeleteRefinesRemove(v, keepRoot, p, r, y, stable, soft);
    if Located(v, r, p, y, soft).Some? {
      RemovedOnceCount(Contents(v, r), Contents(w, r), y, stable, x);
    }
  }

  lemma {:induction false} PageStepConserves(v: State, r: Root, op: PageOp, x: Key)
    requires DirOk(v, r)
    ensures DirOk(PageStep(v, r, op), r) && SameOutside(v, PageStep(v, r, op), r)
    ensures Count(Contents(PageStep(v, r, op), r), x) == Count(Contents(v, r), x) + StepNet(v, r, op, x)
  {
    match op {
      case Enter(y) => EnterConserves(v, r, y, x);
      case Leave(y, p, stable, keepRoot, soft) => LeaveConserves(v, keepRoot, p, r, y, stable, soft, x);
    }
  }

  /** Every run of additions and deletions, whatever page numbers it names, keeps the pages one
      chain, touches nothing else, and leaves each key listed as often as the successful
      additions exceed the successful deletions. */
  lemma {:induction false} PageRunConserves(v: State, r: Root, ops: seq<PageOp>, x: Key)
    requires DirOk(v, r)
    ensures DirOk(PageRun(v, r, ops), r) && SameOutside(v, PageRun(v, r, ops), r)
    ensures Count(Contents(PageRun(v, r, ops), r), x) == Count(Contents(v, r), x) + RunNet(v, r, ops, x)
    decreases |ops|
  {
    if ops != [] {
      PageStepConserves(v, r, ops[0], x);
      PageRunConserves(PageStep(v, r, ops[0]), r, ops[1..], x);
    }
  }

  /** A directory that lists nothing has no page. */
  ghost predicate Tidy(v: State, r: Root) {
    DirOk(v, r) && (Contents(v, r) == [] ==> PagesOf(v, r) == [])
  }

  /** There are never more than two pages, and no deletion is asked to keep the root. */
  ghost predicate RunSmall(v: State, r: Root, ops: seq<PageOp>)
    decreases |ops|
  {
    && DirOk(v, r) && |PagesOf(v, r)| <= 2
    && (ops != [] ==>
          && (ops[0].Leave? ==> !ops[0].keepRoot)
          && RunSmall(PageStep(v, r, ops[0]), r, ops[1..]))
  }

  /** A deletion leaves empty pages behind exactly when it takes the last entry, and the pages
      were more than two, or two of which the root is to be kept. */
  lemma {:induction false} LeaveTidy(v: State, w: State, r: Root, keepRoot: bool)
    requires DirOk(v, r) && DirOk(w, r) && LeavesPages(v, w, r, keepRoot)
    ensures var c := PagesOf(v, r);
            && (Tidy(w, r) <==> !(Contents(w, r) == [] && (|c| > 2 || (|c| == 2 && keepRoot))))
            && (Contents(w, r) == [] ==> (PagesOf(w, r) == [] <==> |c| == 1 || (|c| == 2 && !keepRoot)))
  {
    var c, d := PagesOf(v, r), PagesOf(w, r);
    assert c[0] == 0;
    assert 0 in d <==> d != [];
  }

  lemma {:induction false} StepTidy(v: State, r: Root, op: PageOp)
    requires Tidy(v, r)
    ensures var c, w := PagesOf(v, r), PageStep(v, r, op);
            DirOk(w, r) && (op.Enter? || |c| < 2 || (|c| == 2 && !op.keepRoot) ==> Tidy(w, r))
  {
    match op {
      case Enter(x) =>
        DirAddRefinesAppend(v, r, x);
      case Leave(x, p, stable, keepRoot, soft) =>
        DirDeleteRefinesRemove(v, keepRoot, p, r, x, stable, soft);
        if Located(v, r, p, x, soft).Some? {
          DirDeletePages(v, keepRoot, p, r, x, stable, soft);
          LeaveTidy(v, PageStep(v, r, op), r, keepRoot);
        }
    }
  }

  /** So a directory that never had a third page is reported empty exactly when it lists nothing,
      after every run that need not keep the root. */
  lemma {:induction false} SmallRunsTidy(v: State, r: Root, ops: seq<PageOp>)
    requires Tidy(v, r) && RunSmall(v, r, ops)
    ensures Tidy(PageRun(v, r, ops), r)
    ensures DirIsEmpty(PageRun(v, r, ops), r) <==> Contents(PageRun(v, r, ops), r) == []
    decreases |ops|
  {
    if ops == [] {
      DirIsEmptyExactly(v, r);
    } else {
      StepTidy(v, r, ops[0]);
      SmallRunsTidy(PageStep(v, r, ops[0]), r, ops[1..]);
    }
  }

  // ---- dirFirst, dirNext ----

  /** What is left to visit when entry e of page c[i] is next. */
  function Rest(v: State, r: Root, c: seq<nat>, i: nat, e: nat): seq<Key>
    requires i < |c| && e <= |Indexes(v, r, c[i])|
  {
    Indexes(v, r, c[i])[e..] + Flat(v, r, c[i + 1..])
  }

  lemma {:induction false} RestAdvances(v: State, r: Root, c: seq<nat>, i: nat, e: nat)
    requires i < |c| && e <= |Indexes(v, r, c[i])|
    ensures e < |Indexes(v, r, c[i])| ==>
      Rest(v, r, c, i, e) == [Indexes(v, r, c[i])[e]] + Rest(v, r, c, i, e + 1)
    ensures e == |Indexes(v, r, c[i])| && i + 1 < |c| ==> Rest(v, r, c, i, e) == Rest(v, r, c, i + 1, 0)
    ensures e == |Indexes(v, r, c[i])| && i + 1 == |c| ==> Rest(v, r, c, i, e) == []
  {
    if e == |Indexes(v, r, c[i])| && i + 1 < |c| {
      assert c[i + 1..][1..] == c[i + 2..];
    }
  }
}
