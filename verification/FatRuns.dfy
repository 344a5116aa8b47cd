/** Runs of operations on one directory, with the cached entries that dirlookup asks before it
    scans (kernel/fat32.c 568-727, 918-961). */
module FatRuns {
  import opened FatData
  import opened FatNames
  import opened FatListing
  import opened FatChanges

  /** The slots on the disk, and for the names with a valid cached entry the slot that its field
      off names. */
  datatype Dir = Dir(slots: seq<Slot>, cached: map<seq<byte>, int>)

  /** A creation or removal; a lookup; a cached entry is recycled. */
  datatype Act = Do(op: Op) | Lookup(name: seq<byte>) | Evict(name: seq<byte>)

  /** What ealloc may be asked to store: a name formatname has trimmed, with its short form. */
  ghost predicate Storable(it: Item)
  {
    && it.Long? && it.r.Valid() && |it.short| == CHAR_SHORT_NAME && it.short[0] != END_OF_ENTRY && it.r.attr != ATTR_LONG_NAME
    && Ordinary(it.r.name)
  }

  /** The slots emake stores. */
  ghost function Run(it: Item, k: int): seq<Slot>
    requires it.Long? && it.r.Valid() && |it.short| == CHAR_SHORT_NAME
  {
    if k <= 1 then [DotSlot(k, it.r.clus)]
    else LongRun(it.r, it.sum, it.r.Longs()) + [ShortSlot(it.short, it.r.attr, it.r.clus, it.r.size)]
  }

  // ---- dirlookup with the cache ----

  ghost predicate Answers(d: Dir, name: seq<byte>)
  {
    name in d.cached || Look(d.slots, 0, name).Hit?
  }

  ghost function Where(d: Dir, name: seq<byte>): int
    requires Answers(d, name)
  {
    if name in d.cached then d.cached[name] else Look(d.slots, 0, name).k
  }

  ghost predicate Next(d: Dir, act: Act, d': Dir)
  {
    match act
    case Lookup(name) =>
      Ordinary(name) && d' == if Answers(d, name) then d.(cached := d.cached[name := Where(d, name)]) else d
    case Evict(name) => d' == d.(cached := d.cached - {name})
    case Do(Create(it)) =>
      Storable(it) &&
      if Answers(d, it.r.name) then d' == d.(cached := d.cached[it.r.name := Where(d, it.r.name)])
      else
        (match Look(d.slots, 0, it.r.name)
         case Absent(t) => Overwritten(d.slots, d'.slots, t, Run(it, t)) && d'.cached == d.cached[it.r.name := t]
         case _ => d' == d)
    case Do(Remove(name)) =>
      Ordinary(name) &&
      if !Answers(d, name) then d' == d
      else
        var k := Where(d, name);
        0 <= k < |d.slots| && Erased(d.slots, d'.slots, k, RemoveCount(d.slots[k])) && d'.cached == d.cached - {name}
  }

  /** The cache answers as the scan does. */
  ghost predicate Truthful(d: Dir)
  {
    forall name :: name in d.cached ==>
      Ordinary(name) && Look(d.slots, 0, name).Hit? && Look(d.slots, 0, name).k == d.cached[name]
  }

  /** A creation after which no scan finds the name: the place is one of the first two slots, or
      the short name begins with the mark of a free slot. */
  ghost predicate Loses(d: Dir, act: Act)
  {
    && act.Do? && act.op.Create? && act.op.it.Long? && !Answers(d, act.op.it.r.name)
    && (match Look(d.slots, 0, act.op.it.r.name)
        case Absent(t) => t < 2 || (|act.op.it.short| > 0 && act.op.it.short[0] == EMPTY_ENTRY)
        case _ => false)
  }

  ghost predicate ListNext(l: seq<Entry>, act: Act, l': seq<Entry>)
  {
    if act.Do? then ListStep(l, act.op, l') else l' == l
  }

  /** A well-formed directory made by emake, no name in it twice. */
  ghost predicate Proper(slots: seq<Slot>, items: Items)
  {
    Holds(slots, 0, items) && Made(items, 0) && DistinctNames(List(items, 0))
  }

  // ---- places ----

  /** Records start at different slots. */
  lemma {:induction false} Places(slots: seq<Slot>, k: int, items: Items)
    requires Holds(slots, k, items)
    ensures forall e :: e in List(items, k) ==> k <= e.k
    ensures forall i, j :: 0 <= i < j < |List(items, k)| ==> List(items, k)[i].k != List(items, k)[j].k
    decreases items
  {
    hide Item.Slots, Item.Ok;
    if items.Cons? {
      HeldIn(slots, k, items.head);
      Places(slots, k + items.head.Count(), items.tail);
      var rest := List(items.tail, k + items.head.Count());
      if !items.head.Hole? {
        EntryPlace(items.head, k);
        assert forall j :: 0 <= j < |rest| ==> rest[j] in rest;
      } else {
        assert List(items, k) == rest;
      }
    }
  }

  lemma {:induction false} StaysIn(l: seq<Entry>, at: int, e: Entry)
    requires e in l && e.k != at
    ensures e in Without(l, at)
    decreases l
  {
    if e != l[0] { StaysIn(l[1..], at, e); }
  }

  /** A scan finds a name at a slot exactly if the list has it there. */
  lemma ScanIs(slots: seq<Slot>, items: Items, name: seq<byte>)
    requires Holds(slots, 0, items) && DistinctNames(List(items, 0)) && name != []
    ensures Look(slots, 0, name).Hit? <==> Named(List(items, 0), name)
    ensures !Look(slots, 0, name).Hit? ==> Look(slots, 0, name) == Absent(Tail(items, 0))
    ensures forall e :: e in List(items, 0) && e.name == name ==> Look(slots, 0, name).Hit? && Look(slots, 0, name).k == e.k
    ensures Look(slots, 0, name).Hit? ==> exists e :: e in List(items, 0) && e.name == name && e.k == Look(slots, 0, name).k
  {
    hide Holds, Look, FirstOf, List;
    LookFinds(slots, 0, items, name);
    FirstListed(items, 0, name);
  }

  ghost predicate ListedAt(l: seq<Entry>, name: seq<byte>, k: int)
  {
    exists e :: e in l && e.name == name && e.k == k
  }

  ghost predicate AllListed(cached: map<seq<byte>, int>, l: seq<Entry>)
  {
    forall name :: name in cached ==> Ordinary(name) && ListedAt(l, name, cached[name])
  }

  /** A truthful cache has records of the list only. */
  lemma TruthIs(d: Dir, items: Items)
    requires Proper(d.slots, items)
    ensures Truthful(d) <==> AllListed(d.cached, List(items, 0))
  {
    hide Holds, Made, Look, List, DistinctNames;
    forall name | Ordinary(name)
      ensures forall k :: (Look(d.slots, 0, name).Hit? && Look(d.slots, 0, name).k == k) <==> ListedAt(List(items, 0), name, k)
    {
      ScanIs(d.slots, items, name);
    }
  }

  // ---- one step ----

  lemma StoresRun(it: Item, t: int)
    requires Storable(it) && it.Ok()
    ensures Emade(it, t).Ok() && Emade(it, t).Slots() == Run(it, t) && !Emade(it, t).Hole?
  {
    DotName(t, it.r.clus);
  }

  /** With a truthful cache a step is what the scan alone would do. */
  lemma AsScanned(d: Dir, items: Items, op: Op, d': Dir)
    requires Proper(d.slots, items) && Truthful(d) && Next(d, Do(op), d') && (op.Create? ==> op.it.Ok())
    ensures ScanStep(d.slots, op, d'.slots)
  {
    hide Holds, Made, Look, List, DistinctNames, Run, Emade, DotSlot;
    if op.Create? {
      var t := Look(d.slots, 0, op.it.r.name);
      if t.Absent? { StoresRun(op.it, t.k); }
    }
  }

  /** What the step leaves in the cache is in the list afterwards. */
  lemma CacheKept(d: Dir, items: Items, op: Op, d': Dir, l': seq<Entry>)
    requires Proper(d.slots, items) && Truthful(d) && Next(d, Do(op), d') && !Loses(d, Do(op)) && ListStep(List(items, 0), op, l')
    ensures AllListed(d'.cached, l')
  {
    var l := List(items, 0);
    TruthIs(d, items);
    Places(d.slots, 0, items);
    EndIsTail(items, 0);
    hide Holds, Made, Look, List, DistinctNames, Run, Truthful, Overwritten, Erased, Tail;
    match op {
      case Create(it) =>
        ScanIs(d.slots, items, it.r.name);
        if !Answers(d, it.r.name) {
          CreatedKept(d.cached, l, it, EndOf(l), l');
        }
      case Remove(name) =>
        ScanIs(d.slots, items, name);
        if Answers(d, name) { RemovedKept(d.cached, l, name, Where(d, name), l'); }
    }
  }

  lemma CreatedKept(cached: map<seq<byte>, int>, l: seq<Entry>, it: Item, t: int, l': seq<Entry>)
    requires AllListed(cached, l) && it.Long? && it.Ok() && Ordinary(it.r.name) && t >= 2 && l' == l + [EntryOf(Emade(it, t), t)]
    ensures AllListed(cached[it.r.name := t], l')
  {
    EntryName(it, t);
    EntryPlace(it, t);
    hide EntryOf, Ordinary;
    var e := EntryOf(Emade(it, t), t);
    assert e in l' && e.name == it.r.name && e.k == t;
  }

  lemma RemovedKept(cached: map<seq<byte>, int>, l: seq<Entry>, name: seq<byte>, k: int, l': seq<Entry>)
    requires AllListed(cached, l) && DistinctNames(l) && ListedAt(l, name, k)
    requires forall i, j :: 0 <= i < j < |l| ==> l[i].k != l[j].k
    requires exists e :: e in l && e.name == name && l' == Without(l, e.k)
    ensures AllListed(cached - {name}, l')
  {
    var e :| e in l && e.name == name && l' == Without(l, e.k);
    forall m | m in cached && m != name ensures ListedAt(l', m, cached[m]) {
      var f :| f in l && f.name == m && f.k == cached[m];
      StaysIn(l, e.k, f);
    }
    hide Without, Ordinary;
  }

  /** The records in front of what was stored are still there. */
  lemma {:induction false} BeginsKept(slots: seq<Slot>, slots': seq<Slot>, k: int, items: Items, run: seq<Slot>)
    requires Holds(slots, k, items) && k <= |slots| && Overwritten(slots, slots', Tail(items, k), run)
    ensures Begins(slots', k, items)
    decreases items
  {
    hide HeldAt, Overwritten;
    if !AllHoles(items) {
      var c := items.head.Count();
      HeldIn(slots, k, items.head);
      TailBounds(slots, k + c, items.tail);
      BeginsKept(slots, slots', k + c, items.tail, run);
      HeldBefore(slots, slots', k, items.head, Tail(items, k), run);
    }
  }

  /** Such a creation leaves a cached entry that no scan confirms. */
  lemma LosesTruth(d: Dir, items: Items, it: Item, d': Dir)
    requires Proper(d.slots, items) && Next(d, Do(Create(it)), d') && Loses(d, Do(Create(it)))
    ensures it.r.name in d'.cached && !Look(d'.slots, 0, it.r.name).Hit?
  {
    var name, t := it.r.name, Look(d.slots, 0, it.r.name).k;
    ScanIs(d.slots, items, name);
    if t < 2 {
      LosesEarly(d, items, it, d', t);
    } else {
      LosesMark(d, items, it, d', t);
    }
  }

  lemma LosesEarly(d: Dir, items: Items, it: Item, d': Dir, t: int)
    requires Proper(d.slots, items) && Storable(it) && Look(d.slots, 0, it.r.name) == Absent(t) && t == Tail(items, 0) < 2
    requires Overwritten(d.slots, d'.slots, t, Run(it, t)) && !Named(List(items, 0), it.r.name)
    ensures !Look(d'.slots, 0, it.r.name).Hit?
  {
    var plain := Long(it.r, it.sum, it.short[0 := 0x41]);
    StoresRun(plain, t);
    hide Holds, Made, Look, List, DistinctNames, DotSlot, Overwritten, Tail, Emade, Run;
    SameRun(it, plain, t);
    var items' := CreateHolds(d.slots, items, plain, d'.slots);
    var items2 := CreateListed(d.slots, items, plain, d'.slots);
    ScanLists(d'.slots, 0, items');
    ScanLists(d'.slots, 0, items2);
    ScanIs(d'.slots, items', it.r.name);
  }

  lemma SameRun(it: Item, plain: Item, t: int)
    requires Storable(it) && plain == Long(it.r, it.sum, it.short[0 := 0x41]) && t < 2
    ensures Run(plain, t) == Run(it, t)
  {
  }

  lemma StandsAt(slots: seq<Slot>, it: Item, t: int)
    requires Storable(it) && t >= 2 && t + |Run(it, t)| <= |slots| && slots[t..t + |Run(it, t)|] == Run(it, t)
    ensures Stands(slots, t, it.r, it.sum, it.short)
  {
    hide LongRun, ShortSlot;
    var n := it.r.Longs();
    var run := Run(it, t);
    assert run[..n] == LongRun(it.r, it.sum, n) && run[n] == ShortSlot(it.short, it.r.attr, it.r.clus, it.r.size);
    assert slots[t..t + n] == slots[t..t + |run|][..n];
    assert slots[t + n] == slots[t..t + |run|][n];
  }

  lemma LosesMark(d: Dir, items: Items, it: Item, d': Dir, t: int)
    requires Proper(d.slots, items) && Storable(it) && t == Tail(items, 0) >= 2 && it.short[0] == EMPTY_ENTRY
    requires Overwritten(d.slots, d'.slots, t, Run(it, t)) && !Named(List(items, 0), it.r.name)
    ensures !Look(d'.slots, 0, it.r.name).Hit?
  {
    hide Look, Run, FirstOf, List, Tail, Stands, Made;
    BeginsKept(d.slots, d'.slots, 0, items, Run(it, t));
    FirstListed(items, 0, it.r.name);
    LookThrough(d'.slots, 0, items, it.r.name);
    StandsAt(d'.slots, it, t);
    LookLost(d'.slots, t, it.r, it.sum, it.short, it.r.name);
  }

  /** One step: the cache stays truthful exactly if it is no creation that loses its name, and
      then the list changes by exactly what the step says. */
  lemma StepTruthful(d: Dir, items: Items, act: Act, d': Dir) returns (items': Items)
    requires Proper(d.slots, items) && Truthful(d) && Next(d, act, d')
    ensures Truthful(d') <==> !Loses(d, act)
    ensures !Loses(d, act) ==>
      && Proper(d'.slots, items') && (Dotted(items) ==> Dotted(items')) && ListNext(List(items, 0), act, List(items', 0))
      && (act.Do? && act.op.Create? ==> Named(List(items', 0), act.op.it.r.name))
  {
    hide Holds, Made, Look, List, DistinctNames, Run, Overwritten, Erased, Emade, DotSlot, Dotted;
    items' := items;
    if Loses(d, act) {
      LosesTruth(d, items, act.op.it, d');
    } else if act.Do? {
      items' := DoTruthful(d, items, act.op, d');
    } else if act.Lookup? {
      TruthKept(d, act.name, d');
    }
  }

  lemma TruthKept(d: Dir, name: seq<byte>, d': Dir)
    requires Truthful(d) && Next(d, Lookup(name), d')
    ensures Truthful(d')
  {
    hide Look;
  }

  lemma DoTruthful(d: Dir, items: Items, op: Op, d': Dir) returns (items': Items)
    requires Proper(d.slots, items) && Truthful(d) && Next(d, Do(op), d') && !Loses(d, Do(op))
    ensures Truthful(d') && Proper(d'.slots, items') && (Dotted(items) ==> Dotted(items')) && ListStep(List(items, 0), op, List(items', 0))
    ensures op.Create? ==> Named(List(items', 0), op.it.r.name)
  {
    hide Holds, Made, Look, List, DistinctNames, Run, Overwritten, Erased, Emade, DotSlot, Dotted, Truthful;
    if op.Create? && (Answers(d, op.it.r.name) || !Look(d.slots, 0, op.it.r.name).Absent?) {
      items' := items;
      FoundAgain(d, items, op.it, d');
    } else {
      AsScanned(d, items, op, d');
      items' := StepHolds(d.slots, items, op, d'.slots);
      CacheKept(d, items, op, d', List(items', 0));
      TruthIs(d', items');
      if op.Create? { NewEnd(d, items, op.it); }
    }
  }

  lemma NewEnd(d: Dir, items: Items, it: Item)
    requires Proper(d.slots, items) && !Loses(d, Do(Create(it))) && it.Long? && !Answers(d, it.r.name) && it.r.name != []
    ensures EndOf(List(items, 0)) >= 2
  {
    hide Holds, Made, Look, List, DistinctNames, Tail;
    ScanIs(d.slots, items, it.r.name);
    EndIsTail(items, 0);
  }

  /** ealloc of a name that is there. */
  lemma FoundAgain(d: Dir, items: Items, it: Item, d': Dir)
    requires Proper(d.slots, items) && Truthful(d) && Next(d, Do(Create(it)), d')
    requires Answers(d, it.r.name) || !Look(d.slots, 0, it.r.name).Absent?
    ensures Answers(d, it.r.name) && d'.slots == d.slots && Truthful(d') && Named(List(items, 0), it.r.name)
  {
    hide Holds, Made, Look, List, DistinctNames;
    ScanIs(d.slots, items, it.r.name);
  }

  // ---- whole runs ----

  ghost predicate AsRun(trace: seq<Dir>, acts: seq<Act>)
  {
    |trace| == |acts| + 1 && forall i :: 0 <= i < |acts| ==> Next(trace[i], acts[i], trace[i + 1])
  }

  /** The directory stands for the list: enext yields it, and dirlookup, with its cache, finds
      exactly the listed names, where the list has them. */
  ghost predicate Faithful(d: Dir, l: seq<Entry>)
  {
    && Scan(d.slots, 0) == l && DistinctNames(l)
    && forall name :: Ordinary(name) ==> (Answers(d, name) <==> Named(l, name)) && (Answers(d, name) ==> ListedAt(l, name, Where(d, name)))
  }

  lemma ProperFaithful(d: Dir, items: Items)
    requires Proper(d.slots, items) && Truthful(d)
    ensures Faithful(d, List(items, 0))
  {
    hide Holds, Look, Scan, FirstOf, List, Made, DistinctNames;
    ScanLists(d.slots, 0, items);
    TruthIs(d, items);
    forall name | Ordinary(name)
      ensures (Answers(d, name) <==> Named(List(items, 0), name)) && (Answers(d, name) ==> ListedAt(List(items, 0), name, Where(d, name)))
    {
      ScanIs(d.slots, items, name);
    }
  }

  /** Over any run of creations, removals, lookups and recycled entries in which no creation loses
      its name, the directory stands for the list that the same run produces. */
  lemma {:induction false} RunFaithful(trace: seq<Dir>, acts: seq<Act>, items: Items) returns (lists: seq<seq<Entry>>)
    requires AsRun(trace, acts) && Proper(trace[0].slots, items) && Truthful(trace[0])
    requires forall i :: 0 <= i < |acts| ==> !Loses(trace[i], acts[i])
    ensures |lists| == |trace| && lists[0] == List(items, 0)
    ensures forall i :: 0 <= i < |acts| ==> ListNext(lists[i], acts[i], lists[i + 1])
    ensures forall i :: 0 <= i < |trace| ==> Faithful(trace[i], lists[i]) && Truthful(trace[i])
    ensures forall i :: 0 <= i < |acts| && acts[i].Do? && acts[i].op.Create? ==> Named(lists[i + 1], acts[i].op.it.r.name)
    decreases |acts|
  {
    hide *;
    OnlyOne(trace, acts);
    ProperFaithful(trace[0], items);
    if acts == [] {
      return [List(items, 0)];
    }
    FirstStep(trace, acts);
    var items' := StepTruthful(trace[0], items, acts[0], trace[1]);
    var rest := RunFaithful(trace[1..], acts[1..], items');
    lists := [List(items, 0)] + rest;
  }

  lemma OnlyOne(trace: seq<Dir>, acts: seq<Act>)
    requires AsRun(trace, acts)
    ensures |trace| == |acts| + 1
  {
  }

  lemma FirstStep(trace: seq<Dir>, acts: seq<Act>)
    requires AsRun(trace, acts) && acts != []
    ensures |trace| == |acts| + 1 && Next(trace[0], acts[0], trace[1]) && AsRun(trace[1..], acts[1..])
  {
    hide Next;
  }

  /** The cache agrees with the scan throughout a run if and only if no creation in it loses its
      name. */
  lemma {:induction false} RunTruthful(trace: seq<Dir>, acts: seq<Act>, items: Items)
    requires AsRun(trace, acts) && Proper(trace[0].slots, items) && Truthful(trace[0])
    ensures (forall i :: 0 <= i < |trace| ==> Truthful(trace[i])) <==> (forall i :: 0 <= i < |acts| ==> !Loses(trace[i], acts[i]))
    decreases |acts|
  {
    hide *;
    OnlyOne(trace, acts);
    if acts != [] {
      FirstStep(trace, acts);
      var items' := StepTruthful(trace[0], items, acts[0], trace[1]);
      if Loses(trace[0], acts[0]) {
        assert !Truthful(trace[1]);
      } else {
        RunTruthful(trace[1..], acts[1..], items');
        ShiftTruth(trace, acts);
      }
    }
  }

  lemma ShiftTruth(trace: seq<Dir>, acts: seq<Act>)
    requires |trace| == |acts| + 1 && acts != [] && Truthful(trace[0]) && !Loses(trace[0], acts[0])
    ensures (forall i :: 0 <= i < |trace| ==> Truthful(trace[i])) <==> (forall i :: 0 <= i < |trace[1..]| ==> Truthful(trace[1..][i]))
    ensures (forall i :: 0 <= i < |acts| ==> !Loses(trace[i], acts[i])) <==> (forall i :: 0 <= i < |acts[1..]| ==> !Loses(trace[1..][i], acts[1..][i]))
  {
    hide Truthful, Loses;
    if forall i :: 0 <= i < |trace[1..]| ==> Truthful(trace[1..][i]) {
      forall i | 0 <= i < |trace| ensures Truthful(trace[i]) { if i > 0 { assert trace[i] == trace[1..][i - 1]; } }
    }
    if forall i :: 0 <= i < |acts[1..]| ==> !Loses(trace[1..][i], acts[1..][i]) {
      forall i | 0 <= i < |acts| ensures !Loses(trace[i], acts[i]) {
        if i > 0 { assert trace[i] == trace[1..][i - 1] && acts[i] == acts[1..][i - 1]; }
      }
    }
    assert forall i :: 0 <= i < |trace[1..]| ==> trace[1..][i] == trace[i + 1];
    assert forall i :: 0 <= i < |acts[1..]| ==> acts[1..][i] == acts[i + 1];
  }

  /** The creation of a name whose short form begins with 0xe5. */
  predicate Marked(act: Act)
  {
    act.Do? && act.op.Create? && act.op.it.Long? && |act.op.it.short| > 0 && act.op.it.short[0] == EMPTY_ENTRY
  }

  /** In a directory that began with its two dot entries the only names lost are those whose short
      form begins with 0xe5. */
  lemma {:induction false} DottedRun(trace: seq<Dir>, acts: seq<Act>, items: Items)
    requires AsRun(trace, acts) && Proper(trace[0].slots, items) && Truthful(trace[0]) && Dotted(items)
    requires forall i :: 0 <= i < |acts| ==> !Marked(acts[i])
    ensures forall i :: 0 <= i < |acts| ==> !Loses(trace[i], acts[i])
    decreases |acts|
  {
    hide *;
    OnlyOne(trace, acts);
    if acts != [] {
      FirstStep(trace, acts);
      DottedFirst(trace[0], items, acts[0], trace[1]);
      var items' := StepTruthful(trace[0], items, acts[0], trace[1]);
      assert forall i :: 0 <= i < |acts[1..]| ==> acts[1..][i] == acts[i + 1];
      DottedRun(trace[1..], acts[1..], items');
      assert forall i :: 0 < i < |acts| ==> trace[i] == trace[1..][i - 1] && acts[i] == acts[1..][i - 1];
    }
  }

  lemma DottedFirst(d: Dir, items: Items, act: Act, d': Dir)
    requires Proper(d.slots, items) && Dotted(items) && Next(d, act, d') && !Marked(act)
    ensures !Loses(d, act)
  {
    hide Holds, Look, List, Tail, Made, DistinctNames;
    if act.Do? && act.op.Create? {
      ScanIs(d.slots, items, act.op.it.r.name);
      DottedTail(d.slots, items);
    }
  }

  // ---- eremove at the offset of a cached entry ----

  /** eremove at the place ealloc stored a record marks exactly the record's slots if and only if
      that is not one of the first two; there it takes the dot's code for a count. */
  lemma RemoveExact(it: Item, t: int)
    requires Storable(it) && 0 <= t
    ensures |Run(it, t)| >= 1 && (RemoveCount(Run(it, t)[0]) == |Run(it, t)| <==> t >= 2)
    ensures t < 2 ==> RemoveCount(Run(it, t)[0]) == 47
  {
    if t < 2 {
      DotSlotByte(t, it.r.clus);
    } else {
      LongRunCons(it.r, it.sum, it.r.Longs());
      var s := LongSlot(it.r, it.sum, it.r.Longs());
      assert Run(it, t)[0] == s;
      assert s[0] == LongByte(it.r, it.sum, it.r.Longs(), 0);
      OrderByte(it.r.Longs(), true);
    }
  }

  lemma DotSlotByte(t: int, clus: int)
    requires 0 <= clus < 0x1_0000_0000
    ensures DotSlot(t, clus)[0] == 0x2e
  {
    var short := (if t == 0 then DOT else DOTDOT) + seq<byte>(if t == 0 then 10 else 9, _ => 0x20);
    ShortSlotFields(short, ATTR_DIRECTORY, clus, 0);
    hide ShortSlot;
  }

  function EndSlot(): Slot { Zeros(SLOT) }

  /** An empty directory of n slots. */
  function EndSlots(n: nat): (s: seq<Slot>)
    ensures |s| == n && forall i :: 0 <= i < n ==> s[i][0] == END_OF_ENTRY
  {
    seq(n, _ => EndSlot())
  }

  ghost function Put(slots: seq<Slot>, t: int, run: seq<Slot>): (s: seq<Slot>)
    requires 0 <= t && t + |run| <= |slots|
    ensures Overwritten(slots, s, t, run)
  {
    slots[..t] + run + slots[t + |run|..]
  }

  ghost function Rub(slots: seq<Slot>, k: int, n: int): (s: seq<Slot>)
    requires 0 <= k && 0 <= n && k + n <= |slots|
    ensures Erased(slots, s, k, n)
  {
    seq(|slots|, i requires 0 <= i < |slots| => if k <= i < k + n then slots[i][0 := EMPTY_ENTRY] else slots[i])
  }

  lemma EmptyRoot(n: nat) returns (items: Items)
    ensures items == Nil && Proper(EndSlots(n), items) && Tail(items, 0) == 0 && List(items, 0) == []
  {
    items := Nil;
  }

  /** A name that is not there is made at the end of a directory that has room for it. */
  lemma MakeOne(d: Dir, items: Items, it: Item, t: int) returns (d': Dir, items': Items)
    requires Proper(d.slots, items) && Storable(it) && it.Ok() && t == Tail(items, 0) && 0 <= t && t + |Run(it, t)| <= |d.slots|
    requires !Named(List(items, 0), it.r.name) && it.r.name !in d.cached
    ensures Next(d, Do(Create(it)), d') && d' == Dir(Put(d.slots, t, Run(it, t)), d.cached[it.r.name := t]) && Proper(d'.slots, items')
    ensures List(items', 0) == List(items, 0) + [EntryOf(Emade(it, t), t)] && Tail(items', 0) == t + |Run(it, t)|
  {
    hide Holds, Look, List, DistinctNames, Made, Run, Emade, Overwritten, EntryOf, DotSlot, Tail;
    ScanIs(d.slots, items, it.r.name);
    d' := Dir(Put(d.slots, t, Run(it, t)), d.cached[it.r.name := t]);
    AsMade(d, items, it, d');
    var l := List(items, 0);
    items' := CreateHolds(d.slots, items, it, d'.slots);
    EndIsTail(items, 0);
    EndIsTail(items', 0);
    StoresRun(it, t);
    EntryPlace(Emade(it, t), t);
    NewLast(l, EntryOf(Emade(it, t), t));
    assert Emade(it, t).Count() == |Run(it, t)|;
    if l == [] { EmptyEnd(); }
  }

  lemma EmptyEnd()
    ensures EndOf([]) == 0
  {
  }

  lemma NewLast(l: seq<Entry>, e: Entry)
    ensures l + [e] != [] && EndOf(l + [e]) == e.k + e.count
  {
  }

  lemma AsMade(d: Dir, items: Items, it: Item, d': Dir)
    requires Proper(d.slots, items) && Storable(it) && it.Ok() && !Named(List(items, 0), it.r.name) && it.r.name !in d.cached
    requires d'.cached == d.cached[it.r.name := Tail(items, 0)] && Overwritten(d.slots, d'.slots, Tail(items, 0), Run(it, Tail(items, 0)))
    ensures Next(d, Do(Create(it)), d') && ScanStep(d.slots, Create(it), d'.slots)
  {
    hide Holds, Look, List, DistinctNames, Made, Run, Emade, Overwritten, DotSlot;
    ScanIs(d.slots, items, it.r.name);
    StoresRun(it, Tail(items, 0));
  }

  lemma RunSize(it: Item, t: int)
    requires Storable(it)
    ensures |Run(it, t)| == (if t <= 1 then 1 else it.r.Longs() + 1) && 1 <= it.r.Longs() <= 20
    ensures t <= 1 ==> Run(it, t) == [DotSlot(t, it.r.clus)]
  {
  }

  /** The slots after three files have been made in an empty directory. */
  lemma ThreeMade(n: nat, a: Item, b: Item, c: Item) returns (d1: Dir, d2: Dir, d3: Dir)
    requires n >= 47 && Storable(a) && a.Ok() && Storable(b) && b.Ok() && Storable(c) && c.Ok()
    requires a.r.name != b.r.name && a.r.name != c.r.name && b.r.name != c.r.name
    ensures Next(Dir(EndSlots(n), map[]), Do(Create(a)), d1) && Next(d1, Do(Create(b)), d2) && Next(d2, Do(Create(c)), d3)
    ensures Look(d3.slots, 0, c.r.name).Hit? && a.r.name in d3.cached && d3.cached[a.r.name] == 0
    ensures |d3.slots| == n && d3.slots[0] == DotSlot(0, a.r.clus) && forall j :: 47 <= j < n ==> d3.slots[j][0] == END_OF_ENTRY
  {
    hide Proper, Holds, Look, List, DistinctNames, Made, Run, Emade, EntryOf, DotSlot, Tail, Next, Scan;
    var d0 := Dir(EndSlots(n), map[]);
    var items0 := EmptyRoot(n);
    RunSize(a, 0);
    RunSize(b, 1);
    RunSize(c, 2);
    var items1, items2, items3;
    DotEntry(a, 0);
    DotEntry(b, 1);
    DotEntry(c, 2);
    d1, items1 := MakeOne(d0, items0, a, 0);
    assert List(items1, 0) == [EntryOf(Emade(a, 0), 0)];
    d2, items2 := MakeOne(d1, items1, b, 1);
    assert List(items2, 0) == [EntryOf(Emade(a, 0), 0), EntryOf(Emade(b, 1), 1)];
    d3, items3 := MakeOne(d2, items2, c, 2);
    assert EntryOf(Emade(c, 2), 2) in List(items3, 0);
    ProperScan(d3.slots, items3, c.r.name);
  }

  lemma ProperScan(slots: seq<Slot>, items: Items, name: seq<byte>)
    requires Proper(slots, items) && Named(List(items, 0), name) && name != []
    ensures Look(slots, 0, name).Hit?
  {
    ScanIs(slots, items, name);
    hide *;
  }

  lemma DotEntry(it: Item, t: int)
    requires Storable(it) && it.Ok() && 0 <= t <= 2
    ensures !Emade(it, t).Hole? && EntryOf(Emade(it, t), t).name == if t == 0 then DOT else if t == 1 then DOTDOT else it.r.name
  {
    if t < 2 { DotName(t, it.r.clus); } else { EntryName(it, t); }
    hide EntryOf;
  }

  /** 47 free slots and then end markers hold nothing. */
  lemma AllRubbed(slots: seq<Slot>, name: seq<byte>)
    requires |slots| >= 47 && name != []
    requires forall j :: 0 <= j < |slots| ==> slots[j][0] == if j < 47 then EMPTY_ENTRY else END_OF_ENTRY
    ensures Look(slots, 0, name) == Absent(0) && Scan(slots, 0) == []
  {
    var items := Freed(slots, 0, 47, Nil);
    HoldsFreed(slots, 0, 47, Nil);
    FreedHoles(slots, 0, 47);
    hide Look, Scan, Holds, Freed;
    NoneFirst(items, 0, name);
    LookFinds(slots, 0, items, name);
    ScanLists(slots, 0, items);
  }

  lemma {:induction false} FreedHoles(slots: seq<Slot>, k: int, n: int)
    requires 0 <= k && k + n <= |slots|
    ensures AllHoles(Freed(slots, k, n, Nil))
    decreases n
  {
    if n > 0 { FreedHoles(slots, k + 1, n - 1); }
  }

  lemma OrdinaryName(it: Item)
    requires Storable(it)
    ensures Ordinary(it.r.name) && it.r.name != [] && 0 <= it.r.clus < 0x1_0000_0000
  {
  }

  lemma RubFirst(d: Dir, name: seq<byte>) returns (d': Dir)
    requires |d.slots| >= 47 && Ordinary(name) && name in d.cached && d.cached[name] == 0 && d.slots[0][0] == 0x2e
    ensures Next(d, Do(Remove(name)), d') && |d'.slots| == |d.slots|
    ensures forall j :: 0 <= j < |d'.slots| ==> d'.slots[j][0] == if j < 47 then EMPTY_ENTRY else d.slots[j][0]
  {
    hide Look;
    d' := Dir(Rub(d.slots, 0, 47), d.cached - {name});
  }

  lemma FourSteps(d0: Dir, d1: Dir, d2: Dir, d3: Dir, d4: Dir, a0: Act, a1: Act, a2: Act, a3: Act) returns (trace: seq<Dir>)
    requires Next(d0, a0, d1) && Next(d1, a1, d2) && Next(d2, a2, d3) && Next(d3, a3, d4)
    ensures trace == [d0, d1, d2, d3, d4] && AsRun(trace, [a0, a1, a2, a3])
  {
    hide Next;
    trace := [d0, d1, d2, d3, d4];
  }

  /** In an empty root directory of 47 slots or more: three files are made and the first of them is
      removed.  The third is found before, and is gone afterwards. */
  lemma RootLoses(n: nat, a: Item, b: Item, c: Item) returns (trace: seq<Dir>)
    requires n >= 47 && Storable(a) && a.Ok() && Storable(b) && b.Ok() && Storable(c) && c.Ok()
    requires a.r.name != b.r.name && a.r.name != c.r.name && b.r.name != c.r.name
    ensures AsRun(trace, [Do(Create(a)), Do(Create(b)), Do(Create(c)), Do(Remove(a.r.name))]) && trace[0] == Dir(EndSlots(n), map[])
    ensures Look(trace[3].slots, 0, c.r.name).Hit? && Look(trace[4].slots, 0, c.r.name) == Absent(0) && Scan(trace[4].slots, 0) == []
  {
    OrdinaryName(a);
    OrdinaryName(c);
    hide *;
    var d1, d2, d3 := ThreeMade(n, a, b, c);
    DotSlotByte(0, a.r.clus);
    var d4 := RubFirst(d3, a.r.name);
    AllRubbed(d4.slots, c.r.name);
    trace := FourSteps(Dir(EndSlots(n), map[]), d1, d2, d3, d4, Do(Create(a)), Do(Create(b)), Do(Create(c)), Do(Remove(a.r.name)));
  }
}
