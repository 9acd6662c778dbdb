/** LedgerEntrySet: a copy-on-read overlay over a base ledger.

    The overlay maps an index to a slot holding a shared ledger-entry object, the action
    recorded for it and the checkpoint number at which the object was cloned.  Duplicating
    an overlay copies the map but shares the objects. */
module Overlay {
  import opened Entries

  /** A ledger entry object.  Overlays hold references to these and share them. */
  class Sle {
    const key: Key
    var entry: Entry

    constructor (key: Key, entry: Entry)
      ensures this.key == key && this.entry == entry
    {
      this.key := key;
      this.entry := entry;
    }
  }

  datatype Action = Cached | Modify | Delete | Create

  datatype Slot = Slot(sle: Sle, action: Action, stamp: nat)

  /** The steps a caller can take on an overlay: look an entry up, change a handed-out object in
      place, report it modified, create an entry without looking it up, delete an entry. */
  datatype Op =
    | Read(key: Key)
    | Change(key: Key, entry: Entry)
    | Report(key: Key)
    | Create(key: Key, entry: Entry)
    | Remove(key: Key)

  /** The steps as they act on a plain map. */
  function ApplyOp(state: State, op: Op): State {
    match op
    case Read(_) => state
    case Change(k, e) => if k in state then state[k := e] else state
    case Report(_) => state
    case Create(k, e) => state[k := e]
    case Remove(k) => state - {k}
  }

  function ApplyOps(state: State, ops: seq<Op>): State
    decreases |ops|
  {
    if ops == [] then state else ApplyOps(ApplyOp(state, ops[0]), ops[1..])
  }

  /** Only missing entries are created. */
  predicate Legal(state: State, ops: seq<Op>)
    decreases |ops|
  {
    ops == [] || (LegalOp(state, ops[0]) && Legal(ApplyOp(state, ops[0]), ops[1..]))
  }

  predicate LegalOp(state: State, op: Op) {
    op.Create? ==> op.key !in state
  }

  /** The keys with a change in place that was neither reported nor deleted since. */
  function Unreported(ops: seq<Op>, keys: set<Key>): set<Key>
    decreases |ops|
  {
    if ops == [] then keys else Unreported(ops[1..], UnreportedStep(ops[0], keys))
  }

  function UnreportedStep(op: Op, keys: set<Key>): set<Key> {
    match op
    case Read(_) => keys
    case Change(k, _) => keys + {k}
    case Report(k) => keys - {k}
    case Create(_, _) => keys
    case Remove(k) => keys - {k}
  }

  /** What recorded slots show on top of a base. */
  ghost function Shown(base: State, slots: map<Key, Slot>): State
    reads set k | k in slots :: slots[k].sle
  {
    map k | k in slots.Keys + base.Keys && (k in slots ==> !slots[k].action.Delete?) ::
      if k in slots then slots[k].sle.entry else base[k]
  }

  lemma {:induction false} ShownWith(base: State, slots: map<Key, Slot>, s: Sle, action: Action, stamp: nat)
    ensures Shown(base, slots[s.key := Slot(s, action, stamp)]) ==
      if action.Delete? then Shown(base, slots) - {s.key} else Shown(base, slots)[s.key := s.entry]
  {
  }

  lemma {:induction false} ShownWithout(base: State, slots: map<Key, Slot>, k: Key)
    ensures Shown(base, slots - {k}) ==
      if k in base then Shown(base, slots)[k := base[k]] else Shown(base, slots) - {k}
  {
  }

  /** The objects recorded at one checkpoint. */
  ghost function OwnIn(slots: map<Key, Slot>, stamp: nat): set<Sle> {
    set k | k in slots && slots[k].stamp == stamp :: slots[k].sle
  }

  /** A created entry is missing from the base and every other recorded entry is in it. */
  ghost predicate Proper(base: State, slots: map<Key, Slot>) {
    forall k | k in slots :: slots[k].action.Create? <==> k !in base
  }

  lemma {:induction false} OwnWith(slots: map<Key, Slot>, s: Sle, action: Action, stamp: nat)
    ensures OwnIn(slots[s.key := Slot(s, action, stamp)], stamp) <= OwnIn(slots, stamp) + {s}
  {
  }

  lemma {:induction false} ProperWith(base: State, slots: map<Key, Slot>, s: Sle, action: Action, stamp: nat)
    requires Proper(base, slots)
    ensures Proper(base, slots[s.key := Slot(s, action, stamp)]) <==> (action.Create? <==> s.key !in base)
  {
    var added := slots[s.key := Slot(s, action, stamp)];
    assert s.key in added && added[s.key].action == action;
  }

  /** The keys recorded as unmodified whose value differs from the base. */
  ghost function Off(base: State, slots: map<Key, Slot>): set<Key>
    reads set k | k in slots :: slots[k].sle
  {
    set k | k in slots && slots[k].action.Cached? && !(k in base && slots[k].sle.entry == base[k])
  }

  lemma {:induction false} OffWithout(base: State, before: map<Key, Slot>, after: map<Key, Slot>, k: Key)
    requires forall j | j in after && j != k :: j in before && after[j] == before[j]
    requires k in after ==> !after[k].action.Cached?
    ensures Off(base, after) <= Off(base, before) - {k}
  {
  }

  class LedgerEntrySet {
    var base: State
    var slots: map<Key, Slot>
    var stamp: nat

    /** The objects reachable from the overlay, and those it may change: only objects
        cloned at the current checkpoint number are ever handed out. */
    ghost function Sles(): set<Sle>
      reads this
    {
      set k | k in slots :: slots[k].sle
    }

    ghost function Own(): set<Sle>
      reads this
    {
      OwnIn(slots, stamp)
    }

    /** Entries are recorded under their own keys, at checkpoints up to the current one. */
    ghost predicate Keyed()
      reads this
    {
      forall k | k in slots :: slots[k].sle.key == k && slots[k].stamp <= stamp
    }

    ghost predicate Valid()
      reads this
    {
      Keyed() && Proper(base, slots)
    }

    predicate Live(k: Key)
      reads this
    {
      if k in slots then !slots[k].action.Delete? else k in base
    }

    /** The state a reader of the overlay sees. */
    ghost function View(): State
      reads this, Sles()
    {
      Shown(base, slots)
    }

    /** Every entry recorded as unmodified has the value it has in the base. */
    ghost predicate Settled()
      reads this, Sles()
    {
      forall k | k in slots && slots[k].action.Cached? :: k in base && slots[k].sle.entry == base[k]
    }

    ghost predicate Good()
      reads this, Sles()
    {
      Valid() && Settled()
    }

    ghost predicate SettledBut(k: Key)
      reads this, Sles()
    {
      forall j | j in slots && slots[j].action.Cached? && j != k :: j in base && slots[j].sle.entry == base[j]
    }

    /** The keys whose change in place is unreported. */
    ghost predicate OffBase(k: Key)
      reads this, Sles()
    {
      k in slots && slots[k].action.Cached? && !(k in base && slots[k].sle.entry == base[k])
    }

    ghost function OffKeys(): set<Key>
      reads this, Sles()
    {
      Off(base, slots)
    }

    /** `s` is the object this overlay currently hands out for its key. */
    ghost predicate Holds(s: Sle)
      reads this
    {
      s.key in slots && slots[s.key].sle == s && slots[s.key].stamp == stamp && !slots[s.key].action.Delete?
    }

    /** What every operation keeps: the base, the checkpoint number, and its hands off every
        object that existed before and that the overlay did not own. */
    twostate predicate Framed()
      reads this
    {
      base == old(base) && stamp == old(stamp) && forall s | s in Own() && s !in old(Own()) :: fresh(s)
    }

    /** What every operation on the entry `k` leaves alone. */
    twostate predicate KeptBut(k: Key)
      reads this
    {
      Framed() && OthersKept(k)
    }

    twostate predicate OthersKept(k: Key)
      reads this
    {
      && base == old(base)
      && stamp == old(stamp)
      && (forall j | j in old(slots) && j != k :: j in slots && slots[j] == old(slots[j]))
      && (forall j | j in slots && j != k :: j in old(slots))
    }

    constructor (base: State)
      ensures this.base == base && slots == map[] && stamp == 0
      ensures Valid() && Settled() && Own() == {} && View() == base
    {
      this.base := base;
      slots := map[];
      stamp := 0;
    }

    /** Record `s` with an action under its key, at this checkpoint. */
    method Record(s: Sle, action: Action)
      requires Keyed()
      modifies this
      ensures slots == old(slots)[s.key := Slot(s, action, stamp)]
      ensures Keyed() && OthersKept(s.key) && Own() <= old(Own()) + {s}
      ensures old(Valid()) ==> (Valid() <==> (action.Create? <==> s.key !in base))
      ensures View() == if action.Delete? then old(View()) - {s.key} else old(View())[s.key := s.entry]
      ensures old(SettledBut(s.key)) && (action.Cached? ==> s.key in base && s.entry == base[s.key]) ==> Settled()
    {
      ShownWith(base, slots, s, action, stamp);
      OwnWith(slots, s, action, stamp);
      if Proper(base, slots) {
        ProperWith(base, slots, s, action, stamp);
      }
      slots := slots[s.key := Slot(s, action, stamp)];
    }

    /** Forget what is recorded for a key: the base shows through, if it has the key. */
    method Forget(k: Key)
      requires Keyed()
      modifies this
      ensures slots == old(slots) - {k}
      ensures Keyed() && OthersKept(k) && Own() <= old(Own())
      ensures old(Valid()) ==> Valid()
      ensures View() == if k in base then old(View())[k := base[k]] else old(View()) - {k}
      ensures old(Settled()) ==> Settled()
    {
      ShownWithout(base, slots, k);
      slots := slots - {k};
    }

    /** getEntry: clones an entry that belongs to an older checkpoint before handing it out. */
    method GetEntry(k: Key) returns (s: Sle?, action: Option<Action>)
      requires Keyed()
      modifies this
      ensures Keyed() && KeptBut(k) && View() == old(View())
      ensures old(Valid()) ==> Valid()
      ensures slots.Keys == old(slots.Keys)
      ensures s == null <==> k !in slots
      ensures action.None? <==> k !in slots
      ensures s != null ==> slots[k] == Slot(s, action.value, stamp) && action.value == old(slots[k].action)
      ensures s != null ==> s.entry == old(slots[k].sle.entry)
      ensures s == null || old(slots[k].stamp) == stamp ==> slots == old(slots)
      ensures old(Settled()) ==> Settled()
    {
      if k !in slots {
        return null, None;
      }
      if slots[k].stamp != stamp {
        var clone := new Sle(k, slots[k].sle.entry);
        Record(clone, slots[k].action);
      }
      s, action := slots[k].sle, Some(slots[k].action);
    }

    /** The lookup in the base ledger: a first read gets an object of its own. */
    method CacheFromBase(k: Key) returns (s: Sle?)
      requires Keyed() && k !in slots
      modifies this
      ensures Keyed() && KeptBut(k) && View() == old(View())
      ensures old(Valid()) ==> Valid()
      ensures s == null <==> k !in base
      ensures s == null ==> slots == old(slots)
      ensures s != null ==> Holds(s) && s.key == k && s.entry == base[k] && slots[k].action.Cached?
      ensures old(Settled()) ==> Settled()
    {
      if k !in base {
        return null;
      }
      s := new Sle(k, base[k]);
      Record(s, Cached);
    }

    /** entryCache (by index). */
    method EntryCache(k: Key) returns (s: Sle?)
      requires Keyed()
      modifies this
      ensures Keyed() && KeptBut(k) && View() == old(View())
      ensures old(Valid()) ==> Valid()
      ensures s == null <==> k !in View()
      ensures s != null ==> Holds(s) && s.key == k && s.entry == View()[k]
      ensures k in old(slots) ==> k in slots && slots[k].action == old(slots[k].action)
      ensures k in old(slots) && old(slots[k].stamp) == stamp ==> slots[k] == old(slots[k])
      ensures k !in old(slots) && s != null ==> slots[k].action.Cached?
      ensures OffBase(k) ==> old(OffBase(k))
      ensures old(Settled()) ==> Settled()
    {
      var action;
      s, action := GetEntry(k);
      if s == null {
        s := CacheFromBase(k);
      } else if action.value.Delete? {
        s := null;
      }
    }

    /** An in-place change of an object handed out by this overlay. */
    method Store(s: Sle, e: Entry)
      requires Keyed() && Holds(s)
      modifies s
      ensures Keyed() && Holds(s) && s.entry == e
      ensures old(Valid()) ==> Valid()
      ensures View() == old(View())[s.key := e]
      ensures old(Settled()) && !slots[s.key].action.Cached? ==> Settled()
      ensures forall t | t in Sles() && t != s :: t.entry == old(t.entry)
    {
      s.entry := e;
    }

    /** entryModify.  Throws on an entry recorded as deleted; an entry recorded nowhere becomes a
        modified one, which is wrong if the base does not have it. */
    method EntryModify(s: Sle) returns (threw: bool)
      requires Keyed()
      requires s.key in slots ==> slots[s.key].sle == s && slots[s.key].stamp == stamp
      modifies this
      ensures Keyed() && OthersKept(s.key) && Own() <= old(Own()) + {s}
      ensures threw <==> s.key in old(slots) && old(slots[s.key].action).Delete?
      ensures threw ==> slots == old(slots)
      ensures !threw ==> Holds(s) && !slots[s.key].action.Cached? && View() == old(View())[s.key := s.entry]
      ensures old(Valid()) ==> (Valid() <==> s.key in old(slots) || s.key in base)
      ensures !threw && old(SettledBut(s.key)) ==> Settled()
    {
      if s.key in slots && slots[s.key].action.Delete? {
        return true;
      }
      var action := if s.key in slots && slots[s.key].action.Create? then Action.Create else Modify;
      Record(s, action);
      threw := false;
    }

    /** The idiom of every caller: change a handed-out object, then report it modified. */
    method Update(s: Sle, e: Entry)
      requires Valid() && Holds(s)
      modifies this, s
      ensures Valid() && KeptBut(s.key) && Holds(s) && !slots[s.key].action.Cached? && s.entry == e
      ensures View() == old(View())[s.key := e]
      ensures old(Settled()) ==> Settled()
    {
      s.entry := e;
      var threw := EntryModify(s);
    }

    /** entryCreate.  An index that was deleted in this overlay becomes modified; an index
        already cached, created or modified throws.  An index recorded nowhere is recorded as
        created even if the base has it: then, and only then, the record is wrong. */
    method EntryCreate(k: Key, e: Entry) returns (s: Sle, threw: bool)
      requires Keyed()
      modifies this
      ensures Keyed() && KeptBut(k)
      ensures threw <==> k in old(slots) && !old(slots[k].action).Delete?
      ensures threw ==> slots == old(slots)
      ensures fresh(s) && s.key == k && s.entry == e
      ensures !threw ==> Holds(s) && !slots[k].action.Cached? && View() == old(View())[k := e]
      ensures old(Valid()) ==> (Valid() <==> k in old(slots) || k !in base)
      ensures k !in old(View()) && old(Valid()) ==> !threw && Valid()
      ensures !threw && old(Settled()) ==> Settled()
    {
      s := new Sle(k, e);
      threw := false;
      if k !in slots {
        Record(s, Action.Create);
      } else if slots[k].action.Delete? {
        Record(s, Modify);
      } else {
        threw := true;
      }
    }

    /** entryDelete.  Deleting an entry created here forgets it. */
    method EntryDelete(s: Sle)
      requires Keyed()
      requires s.key in slots && slots[s.key].sle == s && slots[s.key].stamp == stamp
      modifies this
      ensures Keyed() && KeptBut(s.key)
      ensures s.key in slots ==> slots[s.key].action.Delete?
      ensures old(Valid()) ==> Valid() && View() == old(View()) - {s.key}
      ensures old(Settled()) ==> Settled()
    {
      if slots[s.key].action.Create? {
        Forget(s.key);
      } else {
        Record(s, Delete);
      }
    }

    /** duplicate: the copy shares every object and starts one checkpoint later, so it owns
        none of them. */
    method Duplicate() returns (d: LedgerEntrySet)
      requires Keyed()
      ensures fresh(d) && d.Keyed() && d.base == base && d.slots == slots && d.stamp == stamp + 1
      ensures d.Own() == {} && d.View() == old(View()) && d.OffKeys() == OffKeys()
      ensures (Valid() ==> d.Valid()) && (Settled() ==> d.Settled())
    {
      d := new LedgerEntrySet(base);
      d.slots := slots;
      d.stamp := stamp + 1;
    }

    method SwapWith(e: LedgerEntrySet)
      modifies this, e
      ensures base == old(e.base) && slots == old(e.slots) && stamp == old(e.stamp)
      ensures e.base == old(base) && e.slots == old(slots) && e.stamp == old(stamp)
      ensures View() == old(e.View()) && e.View() == old(View())
    {
      var ledger, entries, mark := base, slots, stamp;
      base, slots, stamp := e.base, e.slots, e.stamp;
      e.base, e.slots, e.stamp := ledger, entries, mark;
    }

    /** One caller step.  Whatever it is, only owned and new objects change; a legal one acts on
        the view as on a plain map. */
    method Perform(op: Op)
      requires Keyed()
      modifies this, Own()
      ensures Keyed() && Framed()
      ensures old(Valid()) && LegalOp(old(View()), op) ==> Valid() && View() == ApplyOp(old(View()), op)
      ensures OffKeys() <= UnreportedStep(op, old(OffKeys()))
    {
      match op {
        case Read(k) =>
          var s := EntryCache(k);
        case Change(k, e) =>
          PerformChange(k, e);
        case Report(k) =>
          PerformReport(k);
        case Create(k, e) =>
          var s, threw := EntryCreate(k, e);
        case Remove(k) =>
          PerformRemove(k);
      }
    }

    method PerformChange(k: Key, e: Entry)
      requires Keyed()
      modifies this, Own()
      ensures Keyed() && Framed()
      ensures old(Valid()) ==> Valid()
      ensures View() == ApplyOp(old(View()), Change(k, e))
      ensures OffKeys() <= old(OffKeys()) + {k}
    {
      var s := EntryCache(k);
      if s != null {
        Store(s, e);
      }
    }

    /** Reporting an object that is handed out changes nothing a reader sees. */
    method Report(s: Sle)
      requires Keyed() && Holds(s)
      modifies this
      ensures Keyed() && KeptBut(s.key) && View() == old(View())
      ensures s.key in slots && !slots[s.key].action.Cached?
      ensures old(Valid()) ==> Valid()
    {
      ghost var seen := View();
      assert seen[s.key := s.entry] == seen;
      var threw := EntryModify(s);
    }

    method PerformReport(k: Key)
      requires Keyed()
      modifies this
      ensures Keyed() && Framed() && View() == old(View())
      ensures old(Valid()) ==> Valid()
      ensures OffKeys() <= old(OffKeys()) - {k}
    {
      ghost var before := slots;
      var s := EntryCache(k);
      if s != null {
        Report(s);
      }
      OffWithout(base, before, slots, k);
    }

    method PerformRemove(k: Key)
      requires Keyed()
      modifies this
      ensures Keyed() && Framed()
      ensures old(Valid()) ==> Valid() && View() == old(View()) - {k}
      ensures OffKeys() <= old(OffKeys()) - {k}
    {
      ghost var before := slots;
      var s := EntryCache(k);
      if s != null {
        EntryDelete(s);
      }
      OffWithout(base, before, slots, k);
    }

    /** Any run of steps changes no object the overlay did not own at the start; a legal run
        refines the same run on a plain map, and only keys with a change still unreported can be
        off the base. */
    method PerformAll(ops: seq<Op>)
      requires Keyed()
      modifies this, Own()
      ensures Keyed() && Framed()
      ensures old(Valid()) && Legal(old(View()), ops) ==> Valid() && View() == ApplyOps(old(View()), ops)
      ensures OffKeys() <= Unreported(ops, old(OffKeys()))
      decreases |ops|
    {
      if ops != [] {
        ghost var before := OffKeys();
        Perform(ops[0]);
        UnreportedMonotone(ops[1..], OffKeys(), UnreportedStep(ops[0], before));
        PerformAll(ops[1..]);
      }
    }
  }

  lemma {:induction false} UnreportedMonotone(ops: seq<Op>, a: set<Key>, b: set<Key>)
    requires a <= b
    ensures Unreported(ops, a) <= Unreported(ops, b)
    decreases |ops|
  {
    if ops != [] {
      UnreportedMonotone(ops[1..], UnreportedStep(ops[0], a), UnreportedStep(ops[0], b));
    }
  }

  /** Checkpoint isolation.  The method has no modifies clause: whatever is done through the
      duplicate, no overlay and no entry object that existed before changes. */
  method RunOnDuplicate(original: LedgerEntrySet, ops: seq<Op>) returns (d: LedgerEntrySet)
    requires original.Keyed()
    ensures fresh(d) && d.Keyed()
    ensures original.View() == old(original.View())
    ensures original.Valid() && Legal(old(original.View()), ops) ==>
      d.Valid() && d.View() == ApplyOps(old(original.View()), ops)
    ensures d.OffKeys() <= Unreported(ops, old(original.OffKeys()))
  {
    d := original.Duplicate();
    ghost var keys := d.OffKeys();
    assert keys == old(original.OffKeys());
    d.PerformAll(ops);
  }

  /** Isolation is one-way: an object the original still owns is shared with the duplicate
      until the duplicate reads it, so a change made through the original reaches the
      duplicate exactly when the duplicate still refers to that object. */
  method StoreThroughOriginal(original: LedgerEntrySet, d: LedgerEntrySet, s: Sle, e: Entry)
    requires original.Valid() && original.Holds(s) && d.Valid()
    modifies s
    ensures original.View() == old(original.View())[s.key := e]
    ensures s in d.Sles() && d.Live(s.key) ==> d.View() == old(d.View())[s.key := e]
    ensures s !in d.Sles() || !d.Live(s.key) ==> d.View() == old(d.View())
  {
    assert s in d.Sles() ==> s.key in d.slots && d.slots[s.key].sle == s;
    original.Store(s, e);
  }

  method LeakAfterDuplicate(original: LedgerEntrySet, s: Sle, e: Entry) returns (d: LedgerEntrySet)
    requires original.Valid() && original.Holds(s)
    modifies s
    ensures d.Valid() && d.stamp == original.stamp + 1
    ensures d.View() == old(original.View())[s.key := e]
  {
    d := original.Duplicate();
    assert d.slots[s.key].sle == s;
    StoreThroughOriginal(original, d, s, e);
  }

  /** The view with every unreported change undone. */
  ghost function Written(les: LedgerEntrySet): State
    requires les.Valid()
    reads les, les.Sles()
  {
    map k | k in les.View() :: if les.OffBase(k) then les.base[k] else les.View()[k]
  }

  lemma {:induction false} WrittenExactly(les: LedgerEntrySet)
    requires les.Valid()
    ensures Written(les) == les.View() <==> les.Settled()
    ensures les.Settled() <==> les.OffKeys() == {}
  {
    if k :| les.OffBase(k) {
      assert k in les.OffKeys() && k in les.View() && Written(les)[k] != les.View()[k];
    } else {
      forall k | k in les.slots && les.slots[k].action.Cached?
        ensures k in les.base && les.slots[k].sle.entry == les.base[k]
      {
        assert !les.OffBase(k);
      }
    }
  }

  /** TransactionEngine::txnWrite: write the recorded actions back to the base ledger.  No
      write-back reports an error; the result is the view with unreported changes undone. */
  method TxnWrite(les: LedgerEntrySet) returns (ledger: State, ok: bool)
    requires les.Valid()
    ensures ok && ledger == Written(les)
    ensures ledger == les.View() <==> les.Settled()
  {
    ledger, ok := les.base, true;
    var todo := les.slots.Keys;
    while todo != {}
      invariant ok && todo <= les.slots.Keys
      invariant forall k | k in todo || k !in les.slots ::
        (k in ledger <==> k in les.base) && (k in ledger ==> ledger[k] == les.base[k])
      invariant forall k | k in les.slots && k !in todo ::
        && (k in ledger <==> les.Live(k))
        && (k in ledger ==> ledger[k] == if les.slots[k].action.Cached? then les.base[k] else les.slots[k].sle.entry)
    {
      var k :| k in todo;
      var slot := les.slots[k];
      match slot.action {
        case Cached =>
        case Create =>
          ledger := ledger[k := slot.sle.entry];
        case Modify =>
          ok := ok && k in ledger;
          ledger := ledger[k := slot.sle.entry];
        case Delete =>
          ok := ok && k in ledger;
          ledger := ledger - {k};
      }
      todo := todo - {k};
    }
    WrittenExactly(les);
  }

  /** A legal run on a fresh overlay, and the write-back: the ledger is the run applied to the
      base if nothing changed in place is left unreported. */
  method RunAndWrite(base: State, ops: seq<Op>) returns (ledger: State)
    requires Legal(base, ops)
    ensures Unreported(ops, {}) == {} ==> ledger == ApplyOps(base, ops)
  {
    var les := new LedgerEntrySet(base);
    assert les.OffKeys() == {};
    les.PerformAll(ops);
    var ok;
    ledger, ok := TxnWrite(les);
    WrittenExactly(les);
  }

  /** A change in place that is not reported is seen by readers of the overlay, and is neither
      written back nor listed in the metadata. */
  method LostWithoutReport(base: State, k: Key, e: Entry)
      returns (les: LedgerEntrySet, ledger: State, affected: map<Key, Change>)
    requires k in base && base[k] != e
    ensures les.View() == base[k := e] && ledger == base && affected == map[]
  {
    les := ChangedOnly(base, k, e);
    ledger, affected := WriteBack(les);
    NoDelta(base);
  }

  method WriteBack(les: LedgerEntrySet) returns (ledger: State, affected: map<Key, Change>)
    requires les.Valid()
    ensures ledger == Written(les) && affected == Delta(les.base, ledger)
  {
    var ok;
    ledger, ok := TxnWrite(les);
    affected, ok := CalcRawMeta(les);
  }

  lemma {:induction false} NoDelta(state: State)
    ensures Delta(state, state) == map[]
  {
  }

  method ChangedOnly(base: State, k: Key, e: Entry) returns (les: LedgerEntrySet)
    requires k in base && base[k] != e
    ensures fresh(les) && les.Valid() && les.base == base && les.View() == base[k := e] && Written(les) == base
  {
    les := new LedgerEntrySet(base);
    var s := les.EntryCache(k);
    assert s in les.Own();
    les.Store(s, e);
    assert les.OffBase(k);
  }

  /** What the metadata of a transaction says of an entry. */
  datatype Change = CreatedNode | ModifiedNode | DeletedNode

  /** The difference between two states. */
  function Delta(before: State, after: State): map<Key, Change> {
    map k | k in before.Keys + after.Keys && !(k in before && k in after && before[k] == after[k]) ::
      if k !in before then CreatedNode else if k !in after then DeletedNode else ModifiedNode
  }

  /** calcRawMeta: the affected nodes.  No node-presence assertion fails (`ok`), and the nodes
      are the difference between the base and what is written back. */
  method CalcRawMeta(les: LedgerEntrySet) returns (affected: map<Key, Change>, ok: bool)
    requires les.Valid()
    ensures ok && affected == Delta(les.base, Written(les))
    ensures affected == Delta(les.base, les.View()) <==> les.Settled()
  {
    affected, ok := map[], true;
    var todo := les.slots.Keys;
    while todo != {}
      invariant ok && todo <= les.slots.Keys
      invariant forall k :: k in affected <==> k in les.slots && k !in todo && Affects(les, k)
      invariant forall k | k in affected :: affected[k] == ChangeOf(les.slots[k].action)
    {
      var k :| k in todo;
      var slot := les.slots[k];
      match slot.action {
        case Cached =>
        case Modify =>
          ok := ok && k in les.base;
          if k in les.base && slot.sle.entry != les.base[k] {
            affected := affected[k := ModifiedNode];
          }
        case Delete =>
          ok := ok && k in les.base;
          affected := affected[k := DeletedNode];
        case Create =>
          ok := ok && k !in les.base;
          affected := affected[k := CreatedNode];
      }
      todo := todo - {k};
    }
    AffectedIsDelta(les, affected);
    DeltaExactly(les);
  }

  ghost predicate Affects(les: LedgerEntrySet, k: Key)
    requires k in les.slots
    reads les, les.Sles()
  {
    match les.slots[k].action
    case Cached => false
    case Modify => k in les.base && les.slots[k].sle.entry != les.base[k]
    case Delete => true
    case Create => true
  }

  function ChangeOf(action: Action): Change {
    if action.Create? then CreatedNode else if action.Delete? then DeletedNode else ModifiedNode
  }

  lemma {:induction false} AffectedIsDelta(les: LedgerEntrySet, affected: map<Key, Change>)
    requires les.Valid()
    requires forall k :: k in affected <==> k in les.slots && Affects(les, k)
    requires forall k | k in affected :: affected[k] == ChangeOf(les.slots[k].action)
    ensures affected == Delta(les.base, Written(les))
  {
  }

  /** The difference to the view misses nothing written exactly when nothing is unreported. */
  lemma {:induction false} DeltaExactly(les: LedgerEntrySet)
    requires les.Valid()
    ensures Delta(les.base, Written(les)) == Delta(les.base, les.View()) <==> les.Settled()
  {
    WrittenExactly(les);
    if k :| les.OffBase(k) {
      assert k in Delta(les.base, les.View()) && k !in Delta(les.base, Written(les));
    }
  }
}
