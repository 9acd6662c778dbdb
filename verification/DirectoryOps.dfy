/** The directory operations of LedgerEntrySet, carried out on the entry objects an overlay
    hands out, each proved to change the view as the functions of module Directory say. */
module DirectoryOps {
  import opened Entries
  import opened Directory
  import opened Overlay

  /** dirAdd.  The new page is created without a lookup; its index is never live. */
  method DirAdd(les: LedgerEntrySet, r: Root, x: Key) returns (ter: Ter, page: nat)
    requires les.Good() && DirOk(les.View(), r)
    modifies les, les.Own()
    ensures les.Good() && les.Framed()
    ensures ter == DirAddResult(old(les.View()), r)
    ensures ter.tesSUCCESS? ==> page == DirAddPage(old(les.View()), r)
    ensures les.View() == DirAdded(old(les.View()), r, x)
  {
    ghost var v, c := les.View(), PagesOf(les.View(), r);
    if c != [] { LastPage(v, r, c); }
    var root := les.EntryCache(PageKey(r, 0));
    if root == null {
      var s, threw := les.EntryCreate(PageKey(r, 0), DirNode([x], 0, 0));
      ter, page := tesSUCCESS, 0;
    } else {
      ter, page := AddToExisting(les, r, root, x);
    }
  }

  method AddToExisting(les: LedgerEntrySet, r: Root, root: Sle, x: Key) returns (ter: Ter, page: nat)
    requires les.Good() && les.Holds(root) && root.key == PageKey(r, 0) && root.entry.DirNode?
    requires PageKey(r, root.entry.previous) in les.View()
    requires les.View()[PageKey(r, root.entry.previous)].DirNode?
    requires PageKey(r, root.entry.previous + 1) !in les.View()
    modifies les, les.Own()
    ensures les.Good() && les.Framed()
    ensures ter == DirAddResult(old(les.View()), r)
    ensures ter.tesSUCCESS? ==> page == DirAddPage(old(les.View()), r)
    ensures les.View() == DirAdded(old(les.View()), r, x)
  {
    page := root.entry.previous;
    var node := root;
    if page != 0 {
      node := les.EntryCache(PageKey(r, page));
    }
    if |node.entry.indexes| != DIR_NODE_MAX {
      les.Update(node, node.entry.(indexes := node.entry.indexes + [x]));
      ter := tesSUCCESS;
    } else if page + 1 == PAGE_LIMIT {
      ter, page := tecDIR_FULL, 0;
    } else {
      AddPage(les, r, root, node, page, x);
      ter, page := tesSUCCESS, page + 1;
    }
  }

  /** The overflow branch of dirAdd. */
  method AddPage(les: LedgerEntrySet, r: Root, root: Sle, node: Sle, last: nat, x: Key)
    requires les.Good() && les.Holds(root) && les.Holds(node)
    requires root.key == PageKey(r, 0) && node.key == PageKey(r, last)
    requires root.entry.DirNode? && node.entry.DirNode?
    requires PageKey(r, last + 1) !in les.View()
    modifies les, les.Own()
    ensures les.Good() && les.Framed()
    ensures les.View() == WithNewPage(old(les.View()), r, last, x)
  {
    SetNextOf(les, node.key, last + 1);
    SetPreviousOf(les, root.key, last + 1);
    var page, threw := les.EntryCreate(PageKey(r, last + 1), DirNode([x], 0, if last + 1 != 1 then last else 0));
    assert !threw;
  }

  /** dirDelete.  A soft deletion that does not find the entry tries the next page, up to
      page 20. */
  method DirDelete(les: LedgerEntrySet, keepRoot: bool, p: nat, r: Root, x: Key, stable: bool, soft: bool)
      returns (ter: Ter)
    requires les.Good() && DirOk(les.View(), r)
    modifies les, les.Own()
    ensures les.Good() && les.Framed()
    ensures ter == if Located(old(les.View()), r, p, x, soft).Some? then tesSUCCESS else tefBAD_LEDGER
    ensures les.View() == DirDeleted(old(les.View()), keepRoot, p, r, x, stable, soft)
    decreases SOFT_LIMIT - p
  {
    DirDeletedStep(les.View(), keepRoot, p, r, x, stable, soft);
    var found := DeleteOnPage(les, keepRoot, p, r, x, stable);
    if found {
      ter := tesSUCCESS;
    } else if soft && p < SOFT_LIMIT {
      ter := DirDelete(les, keepRoot, p + 1, r, x, stable, true);
    } else {
      ter := tefBAD_LEDGER;
    }
  }

  method DeleteOnPage(les: LedgerEntrySet, keepRoot: bool, p: nat, r: Root, x: Key, stable: bool) returns (found: bool)
    requires les.Good() && DirOk(les.View(), r)
    modifies les, les.Own()
    ensures les.Good() && les.Framed()
    ensures found <==> x in Indexes(old(les.View()), r, p)
    ensures les.View() == if found
                          then Shrunk(Removed(old(les.View()), p, r, x, stable), keepRoot, p, r)
                          else old(les.View())
  {
    ghost var v, c := les.View(), PagesOf(les.View(), r);
    found := false;
    var node := les.EntryCache(PageKey(r, p));
    if node != null {
      ghost var i :| 0 <= i < |c| && c[i] == p;
      assert Linked(v, r, c, i);
      if x in node.entry.indexes {
        RemoveFromPage(les, keepRoot, p, r, node, x, stable, c, i);
        found := true;
      }
    }
  }

  method RemoveFromPage(les: LedgerEntrySet, keepRoot: bool, p: nat, r: Root, node: Sle, x: Key, stable: bool,
                        ghost c: seq<nat>, ghost i: nat)
    requires les.Good() && les.Holds(node) && node.key == PageKey(r, p)
    requires Chain(les.View(), r, c) && i < |c| && c[i] == p
    requires node.entry.DirNode? && x in node.entry.indexes
    requires x in Indexes(les.View(), r, p)
    modifies les, les.Own()
    ensures les.Good() && les.Framed()
    ensures les.View() == Shrunk(Removed(old(les.View()), p, r, x, stable), keepRoot, p, r)
  {
    ghost var v := les.View();
    RemovedChainBut(v, p, r, x, stable, c, i);
    les.Update(node, node.entry.(indexes := RemoveOne(node.entry.indexes, x, stable)));
    assert les.View() == Removed(v, p, r, x, stable);
    if node.entry.indexes == [] {
      DropPages(les, keepRoot, p, r, node, c, i);
    }
  }

  /** The page `node` was just emptied: delete what the links allow. */
  method DropPages(les: LedgerEntrySet, keepRoot: bool, p: nat, r: Root, node: Sle, ghost c: seq<nat>, ghost i: nat)
    requires les.Good() && les.Holds(node) && node.key == PageKey(r, p)
    requires i < |c| && c[i] == p && ChainBut(les.View(), r, c, i)
    requires node.entry == les.View()[PageKey(r, p)] && node.entry.indexes == []
    modifies les, les.Own()
    ensures les.Good() && les.Framed()
    ensures les.View() == Shrunk(old(les.View()), keepRoot, p, r)
  {
    ghost var v := les.View();
    var previous, next := node.entry.previous, node.entry.next;
    if p == 0 {
      if previous == 0 {
        les.EntryDelete(node);
      } else if !keepRoot && previous == next {
        assert Linked(v, r, c, 1);
        DropBothIfEmpty(les, r, node, next);
      }
    } else if next != 0 {
      assert Linked(v, r, c, i - 1) && Linked(v, r, c, i + 1);
      Unlink(les, r, node, p, previous, next);
    } else if !keepRoot && previous == 0 {
      assert Linked(v, r, c, 0);
      DropBothIfEmpty(les, r, node, 0);
    }
  }

  /** Root and last page are the only pages; both go once both are empty. */
  method DropBothIfEmpty(les: LedgerEntrySet, r: Root, node: Sle, other: nat)
    requires les.Good() && les.Holds(node) && node.key != PageKey(r, other)
    requires PageKey(r, other) in les.View() && les.View()[PageKey(r, other)].DirNode?
    modifies les, les.Own()
    ensures les.Good() && les.Framed()
    ensures les.View() == if Indexes(old(les.View()), r, other) == []
                          then old(les.View()) - {node.key, PageKey(r, other)}
                          else old(les.View())
  {
    var s := les.EntryCache(PageKey(r, other));
    if s.entry.indexes == [] {
      DeleteBoth(les, node, s);
    }
  }

  method DeleteBoth(les: LedgerEntrySet, a: Sle, b: Sle)
    requires les.Good() && les.Holds(a) && les.Holds(b) && a.key != b.key
    modifies les
    ensures les.Good() && les.Framed()
    ensures les.View() == old(les.View()) - {a.key, b.key}
  {
    les.EntryDelete(a);
    les.EntryDelete(b);
  }

  method DeleteEntry(les: LedgerEntrySet, k: Key)
    requires les.Good() && k in les.View()
    modifies les, les.Own()
    ensures les.Good() && les.KeptBut(k)
    ensures les.View() == old(les.View()) - {k}
  {
    var s := les.EntryCache(k);
    les.EntryDelete(s);
  }

  method SetNextOf(les: LedgerEntrySet, k: Key, next: nat)
    requires les.Good() && k in les.View() && les.View()[k].DirNode?
    modifies les, les.Own()
    ensures les.Good() && les.KeptBut(k)
    ensures les.View() == old(les.View())[k := SetNext(old(les.View())[k], next)]
  {
    var s := les.EntryCache(k);
    les.Update(s, s.entry.(next := next));
  }

  method SetPreviousOf(les: LedgerEntrySet, k: Key, previous: nat)
    requires les.Good() && k in les.View() && les.View()[k].DirNode?
    modifies les, les.Own()
    ensures les.Good() && les.KeptBut(k)
    ensures les.View() == old(les.View())[k := SetPrevious(old(les.View())[k], previous)]
  {
    var s := les.EntryCache(k);
    les.Update(s, s.entry.(previous := previous));
  }

  /** Link two pages to each other, past the page node. */
  method Relink(les: LedgerEntrySet, r: Root, node: Sle, previous: nat, next: nat)
    requires les.Good() && les.Holds(node) && previous < next
    requires PageKey(r, previous) in les.View() && PageKey(r, next) in les.View()
    requires les.View()[PageKey(r, previous)].DirNode? && les.View()[PageKey(r, next)].DirNode?
    requires node.key != PageKey(r, previous) && node.key != PageKey(r, next)
    modifies les, les.Own()
    ensures les.Good() && les.Framed() && les.Holds(node)
    ensures var v := old(les.View());
            les.View() == v[PageKey(r, previous) := SetNext(v[PageKey(r, previous)], next)]
                           [PageKey(r, next) := SetPrevious(v[PageKey(r, next)], previous)]
  {
    SetNextOf(les, PageKey(r, previous), next);
    SetPreviousOf(les, PageKey(r, next), previous);
  }

  /** Take an interior page out of the chain. */
  method Unlink(les: LedgerEntrySet, r: Root, node: Sle, p: nat, previous: nat, next: nat)
    requires les.Good() && les.Holds(node) && node.key == PageKey(r, p)
    requires previous < p < next && PageKey(r, previous) in les.View() && PageKey(r, next) in les.View()
    requires les.View()[PageKey(r, previous)].DirNode? && les.View()[PageKey(r, next)].DirNode?
    modifies les, les.Own()
    ensures les.Good() && les.Framed()
    ensures les.View() == Unlinked(old(les.View()), r, p, previous, next)
  {
    Relink(les, r, node, previous, next);
    les.EntryDelete(node);
  }

  method NextPage(les: LedgerEntrySet, r: Root, next: nat, ghost v: State, ghost c: seq<nat>, ghost i: nat)
      returns (s: Sle)
    requires les.Good() && les.View() == v && Chain(v, r, c) && i < |c| && next == c[i]
    modifies les
    ensures les.Good() && les.Framed() && les.View() == v
    ensures les.Holds(s) && s.key == PageKey(r, c[i])
  {
    assert Linked(v, r, c, i);
    s := les.EntryCache(PageKey(r, next));
  }

  /** dirNext: return the entry the cursor is at and advance, moving to the next page when
      this one is exhausted.  The chain c and the position i of the current page are ghosts. */
  method DirNext(les: LedgerEntrySet, r: Root, node: Sle, e: nat, ghost c: seq<nat>, ghost i: nat)
      returns (more: bool, node': Sle, e': nat, x: Option<Key>, ghost i': nat)
    requires les.Good() && Chain(les.View(), r, c) && i < |c|
    requires les.Holds(node) && node.key == PageKey(r, c[i]) && e <= |Indexes(les.View(), r, c[i])|
    modifies les
    ensures les.Good() && les.Framed() && les.View() == old(les.View())
    ensures i' < |c| && les.Holds(node') && node'.key == PageKey(r, c[i']) && e' <= |Indexes(old(les.View()), r, c[i'])|
    ensures more ==> x.Some? && Rest(old(les.View()), r, c, i, e) == [x.value] + Rest(old(les.View()), r, c, i', e')
    ensures !more ==> x.None? && Rest(old(les.View()), r, c, i, e) == []
    decreases |c| - i
  {
    ghost var v := les.View();
    RestAdvances(v, r, c, i, e);
    assert Linked(v, r, c, i);
    var indexes := node.entry.indexes;
    if e < |indexes| {
      return true, node, e + 1, Some(indexes[e]), i;
    }
    var next := node.entry.next;
    if next == 0 {
      return false, node, e, None, i;
    }
    var sleNext := NextPage(les, r, next, v, c, i + 1);
    more, node', e', x, i' := DirNext(les, r, sleNext, 0, c, i + 1);
  }

  /** Visiting a directory with dirFirst and dirNext yields its list and ends. */
  method Traverse(les: LedgerEntrySet, r: Root) returns (list: seq<Key>)
    requires les.Good() && DirOk(les.View(), r)
    modifies les
    ensures les.Good() && les.Framed() && les.View() == old(les.View())
    ensures list == Contents(old(les.View()), r)
  {
    ghost var v, c := les.View(), PagesOf(les.View(), r);
    if c != [] { assert Linked(v, r, c, 0); }
    list := [];
    var root := les.EntryCache(PageKey(r, 0));
    if root != null {
      list := TraverseFrom(les, r, root, 0, c, 0);
    }
  }

  /** Repeated dirNext from a cursor, until it reports no further entry. */
  method TraverseFrom(les: LedgerEntrySet, r: Root, node: Sle, e: nat, ghost c: seq<nat>, ghost i: nat)
      returns (list: seq<Key>)
    requires les.Good() && Chain(les.View(), r, c) && i < |c|
    requires les.Holds(node) && node.key == PageKey(r, c[i]) && e <= |Indexes(les.View(), r, c[i])|
    modifies les
    ensures les.Good() && les.Framed() && les.View() == old(les.View())
    ensures list == Rest(old(les.View()), r, c, i, e)
    decreases |Rest(les.View(), r, c, i, e)|
  {
    var more, node', e', x, i' := DirNext(les, r, node, e, c, i);
    if more {
      var later := TraverseFrom(les, r, node', e', c, i');
      list := [x.value] + later;
    } else {
      list := [];
    }
  }

  /** dirCount: the length of the list; a broken link cannot be met. */
  method DirCount(les: LedgerEntrySet, r: Root) returns (ter: Ter, count: nat)
    requires les.Good() && DirOk(les.View(), r)
    modifies les
    ensures les.Good() && les.Framed() && les.View() == old(les.View())
    ensures ter == tesSUCCESS && count == |Contents(old(les.View()), r)|
  {
    ghost var v, c := les.View(), PagesOf(les.View(), r);
    var page := 0;
    count := 0;
    ghost var i := 0;
    assert c[0..] == c;
    while true
      invariant les.Good() && les.Framed() && les.View() == v
      invariant if c == [] then i == 0 && page == 0 else i < |c| && page == c[i] && Linked(v, r, c, i)
      invariant count + |Flat(v, r, c[i..])| == |Flat(v, r, c)|
      decreases |c| - i
    {
      var node := les.EntryCache(PageKey(r, page));
      if node != null {
        assert c[i..][1..] == c[i + 1..];
        count := count + |node.entry.indexes|;
        page := node.entry.next;
        i := i + 1;
      } else if page != 0 {
        return tefBAD_LEDGER, count;
      }
      if page == 0 {
        assert c[i..] == [];
        break;
      }
    }
    ter := tesSUCCESS;
  }
}
