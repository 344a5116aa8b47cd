/** What creating and removing records does to the list a directory stands for. */
module FatChanges {
  import opened FatData
  import opened FatNames
  import opened FatListing

  /** slots' is slots with run stored from slot t on; new slots behind that are end markers. */
  ghost predicate Overwritten(slots: seq<Slot>, slots': seq<Slot>, t: int, run: seq<Slot>)
  {
    && 0 <= t && t + |run| <= |slots'| && |slots| <= |slots'|
    && (forall j :: 0 <= j < t && j < |slots| ==> slots'[j] == slots[j])
    && slots'[t..t + |run|] == run
    && (forall j :: t + |run| <= j < |slots'| ==> if j < |slots| then slots'[j] == slots[j] else slots'[j][0] == END_OF_ENTRY)
  }

  /** slots' is slots with the n slots from k on marked free. */
  ghost predicate Erased(slots: seq<Slot>, slots': seq<Slot>, k: int, n: int)
  {
    && 0 <= k && 0 <= n && k + n <= |slots| == |slots'|
    && (forall j :: 0 <= j < |slots| && !(k <= j < k + n) ==> slots'[j] == slots[j])
    && (forall j :: k <= j < k + n ==> slots'[j][0] == EMPTY_ENTRY)
  }

  ghost function Drop(items: Items, n: int): Items
  {
    if n <= 0 || items.Nil? then items else Drop(items.tail, n - 1)
  }

  /** The items after a record was stored behind the last one: it takes the place of the free
      slots there, and those it does not reach stay free. */
  ghost function Appended(items: Items, it: Item): Items
  {
    if AllHoles(items) then Cons(it, Drop(items, it.Count()))
    else Cons(items.head, Appended(items.tail, it))
  }

  lemma {:induction false} TailBounds(slots: seq<Slot>, k: int, items: Items)
    requires Holds(slots, k, items) && k <= |slots|
    ensures k <= Tail(items, k) <= |slots|
    decreases items
  {
    hide Item.Slots, Item.Ok;
    if !AllHoles(items) {
      TailBounds(slots, k + items.head.Count(), items.tail);
    }
  }

  lemma HeldAgain(slots: seq<Slot>, slots': seq<Slot>, k: int, it: Item)
    requires HeldAt(slots, k, it) && |slots| <= |slots'|
    requires forall j :: k <= j < k + it.Count() ==> slots'[j] == slots[j]
    ensures HeldAt(slots', k, it)
  {
    assert slots'[k..k + it.Count()] == slots[k..k + it.Count()];
  }

  lemma HeldBefore(slots: seq<Slot>, slots': seq<Slot>, k: int, it: Item, t: int, run: seq<Slot>)
    requires HeldAt(slots, k, it) && k + it.Count() <= t && Overwritten(slots, slots', t, run)
    ensures HeldAt(slots', k, it)
  {
    HeldAgain(slots, slots', k, it);
  }

  lemma HeldIn(slots: seq<Slot>, k: int, it: Item)
    requires HeldAt(slots, k, it)
    ensures it.Ok() && 0 <= k && k + it.Count() <= |slots|
  {
  }

  /** Behind n of the free slots that end a directory the others are still free. */
  lemma {:induction false} HolesKeep(slots: seq<Slot>, slots': seq<Slot>, k: int, items: Items, n: int)
    requires Holds(slots, k, items) && AllHoles(items) && 0 <= n && k + n <= |slots'| && |slots| <= |slots'|
    requires forall j :: k + n <= j < |slots'| ==> if j < |slots| then slots'[j] == slots[j] else slots'[j][0] == END_OF_ENTRY
    ensures Holds(slots', k + n, Drop(items, n))
    decreases items
  {
    hide HeldAt, List, EntryOf;
    if items.Cons? {
      HeldIn(slots, k, items.head);
      if n == 0 {
        HolesKeep(slots, slots', k + 1, items.tail, 0);
        HeldAgain(slots, slots', k, items.head);
      } else {
        HolesKeep(slots, slots', k + 1, items.tail, n - 1);
      }
    }
  }

  lemma {:induction false} ListHoles(items: Items, k: int, n: int)
    requires AllHoles(items)
    ensures List(items, k) == [] && AllHoles(Drop(items, n))
    decreases items
  {
    if items.Cons? {
      ListHoles(items.tail, k + 1, n - 1);
    }
  }

  /** Storing a record at the place dirlookup's scan ended leaves a well-formed directory ... */
  lemma {:induction false} AppendHolds(slots: seq<Slot>, slots': seq<Slot>, k: int, items: Items, it: Item)
    requires Holds(slots, k, items) && k <= |slots| && it.Ok() && !it.Hole?
    requires Overwritten(slots, slots', Tail(items, k), it.Slots())
    ensures Holds(slots', k, Appended(items, it))
    decreases items
  {
    hide HeldAt, List, EntryOf, Overwritten;
    if AllHoles(items) {
      AppendLast(slots, slots', k, items, it);
    } else {
      var c := items.head.Count();
      HeldIn(slots, k, items.head);
      TailBounds(slots, k + c, items.tail);
      AppendHolds(slots, slots', k + c, items.tail, it);
      HeldBefore(slots, slots', k, items.head, Tail(items, k), it.Slots());
    }
  }

  lemma AppendLast(slots: seq<Slot>, slots': seq<Slot>, k: int, items: Items, it: Item)
    requires Holds(slots, k, items) && AllHoles(items) && it.Ok() && !it.Hole?
    requires Overwritten(slots, slots', k, it.Slots())
    ensures Holds(slots', k, Appended(items, it))
  {
    hide Item.Slots, List, EntryOf;
    assert HeldAt(slots', k, it);
    HolesKeep(slots, slots', k, items, it.Count());
  }

  /** ... with exactly that record added behind the others. */
  lemma {:induction false} AppendList(items: Items, k: int, it: Item)
    requires !it.Hole?
    ensures List(Appended(items, it), k) == List(items, k) + [EntryOf(it, Tail(items, k))]
    decreases items
  {
    hide EntryOf;
    if AllHoles(items) {
      ListHoles(items, k, 0);
      ListHoles(items, k, it.Count());
      ListHoles(Drop(items, it.Count()), k + it.Count(), 0);
    } else {
      AppendList(items.tail, k + items.head.Count(), it);
    }
  }

  // ---- removal ----

  /** n free slots, those of slots from k on, in front of rest. */
  ghost function Freed(slots: seq<Slot>, k: int, n: int, rest: Items): Items
    requires 0 <= k && k + n <= |slots|
    decreases n
  {
    if n <= 0 then rest else Cons(Hole(slots[k]), Freed(slots, k + 1, n - 1, rest))
  }

  /** The record at slot at, among items that start at slot k. */
  ghost function ItemAt(items: Items, k: int, at: int): Items
  {
    if items.Nil? || k >= at then items else ItemAt(items.tail, k + items.head.Count(), at)
  }

  /** A record starts at slot at. */
  ghost predicate ListedAt(items: Items, k: int, at: int)
  {
    items.Cons? && if k == at then !items.head.Hole? else k < at && ListedAt(items.tail, k + items.head.Count(), at)
  }

  ghost function CountAt(items: Items, k: int, at: int): int
    requires ListedAt(items, k, at)
  {
    if k == at then items.head.Count() else CountAt(items.tail, k + items.head.Count(), at)
  }

  /** The items after the slots of the record at slot at were marked free. */
  ghost function Removed(items: Items, k: int, at: int, slots': seq<Slot>): Items
    requires ListedAt(items, k, at) && 0 <= k && at + CountAt(items, k, at) <= |slots'|
  {
    if k == at then Freed(slots', k, items.head.Count(), items.tail)
    else Cons(items.head, Removed(items.tail, k + items.head.Count(), at, slots'))
  }

  /** The list without the record at slot at. */
  ghost function Without(l: seq<Entry>, at: int): seq<Entry>
  {
    if l == [] then [] else (if l[0].k == at then [] else [l[0]]) + Without(l[1..], at)
  }

  lemma WithoutNone(at: int)
    ensures Without([], at) == []
  {
  }

  lemma {:induction false} WithoutLater(items: Items, k: int, at: int)
    requires at < k
    ensures Without(List(items, k), at) == List(items, k)
    decreases items
  {
    hide EntryOf, Without;
    if items == Nil {
      WithoutNone(at);
    } else {
      WithoutLater(items.tail, k + items.head.Count(), at);
      WithoutCons(items, k, at);
    }
  }

  lemma WithoutCons(items: Items, k: int, at: int)
    requires items.Cons?
    ensures var rest := Without(List(items.tail, k + items.head.Count()), at);
            Without(List(items, k), at) == if items.head.Hole? || k == at then rest else [EntryOf(items.head, k)] + rest
  {
    var l, rest := List(items, k), List(items.tail, k + items.head.Count());
    if items.head.Hole? {
      assert l == rest;
    } else {
      assert l[0] == EntryOf(items.head, k) && l[1..] == rest;
    }
  }

  lemma {:induction false} HoldsKeep(slots: seq<Slot>, slots': seq<Slot>, k: int, items: Items)
    requires Holds(slots, k, items) && |slots| == |slots'| && forall j :: k <= j < |slots| ==> slots'[j] == slots[j]
    ensures Holds(slots', k, items)
    decreases items
  {
    if items.Cons? {
      HoldsKeep(slots, slots', k + items.head.Count(), items.tail);
      HeldAgain(slots, slots', k, items.head);
    }
  }

  lemma HoleHeld(slots: seq<Slot>, k: int)
    requires 0 <= k < |slots| && slots[k][0] == EMPTY_ENTRY
    ensures HeldAt(slots, k, Hole(slots[k]))
  {
    assert slots[k..k + 1] == [slots[k]];
  }

  /** Free slots in front of the rest of a directory. */
  lemma {:induction false} HoldsFreed(slots: seq<Slot>, k: int, n: int, rest: Items)
    requires 0 <= k && 0 <= n && k + n <= |slots| && Holds(slots, k + n, rest)
    requires forall j :: k <= j < k + n ==> slots[j][0] == EMPTY_ENTRY
    ensures Holds(slots, k, Freed(slots, k, n, rest))
    ensures List(Freed(slots, k, n, rest), k) == List(rest, k + n)
    decreases n
  {
    hide HeldAt;
    if n > 0 {
      HoldsFreed(slots, k + 1, n - 1, rest);
      HoleHeld(slots, k);
    }
  }

  /** Marking a record's slots free removes exactly that record and moves no other. */
  lemma {:induction false} RemoveHolds(slots: seq<Slot>, slots': seq<Slot>, k: int, items: Items, at: int)
    requires Holds(slots, k, items) && ListedAt(items, k, at) && Erased(slots, slots', at, CountAt(items, k, at))
    ensures Holds(slots', k, Removed(items, k, at, slots'))
    ensures List(Removed(items, k, at, slots'), k) == Without(List(items, k), at)
    decreases items
  {
    hide HeldAt, EntryOf, Without;
    var c := items.head.Count();
    WithoutCons(items, k, at);
    if k == at {
      HoldsKeep(slots, slots', k + c, items.tail);
      HoldsFreed(slots', k, c, items.tail);
      WithoutLater(items.tail, k + c, at);
    } else {
      RemoveHolds(slots, slots', k + c, items.tail, at);
      BeforeAt(items.tail, k + c, at);
      HeldAgain(slots, slots', k, items.head);
    }
  }

  lemma {:induction false} BeforeAt(items: Items, k: int, at: int)
    requires ListedAt(items, k, at)
    ensures k <= at
  {
  }

  // ---- runs ----

  const DOT: seq<byte> := [0x2e]
  const DOTDOT: seq<byte> := [0x2e, 0x2e]
  const ATTR_DIRECTORY: byte := 0x10

  /** The entries emake writes at the start of a directory, whatever it was asked to write:
      "." at offset 0 and ".." at offset 32. */
  function DotSlot(t: int, clus: int): Slot
    requires 0 <= clus < 0x1_0000_0000
  {
    ShortSlot((if t == 0 then DOT else DOTDOT) + seq<byte>(if t == 0 then 10 else 9, _ => 0x20), ATTR_DIRECTORY, clus, 0)
  }

  /** What emake stores at slot t. */
  ghost function Emade(it: Item, t: int): Item
    requires it.Long? && it.Ok()
  {
    if t <= 1 then Short(DotSlot(t, it.r.clus)) else it
  }

  lemma DotName(t: int, clus: int)
    requires 0 <= clus < 0x1_0000_0000
    ensures var it := Short(DotSlot(t, clus));
            it.Ok() && forall k :: EntryOf(it, k).name == if t == 0 then DOT else DOTDOT
  {
    var short := (if t == 0 then DOT else DOTDOT) + seq<byte>(if t == 0 then 10 else 9, _ => 0x20);
    var s := DotSlot(t, clus);
    ShortSlotFields(short, ATTR_DIRECTORY, clus, 0);
    hide ShortSlot;
    var base := s[..8];
    assert base == short[..8];
    assert base[0] == 0x2e && base[1] == (if t == 0 then 0x20 else 0x2e) && base[2] == 0x20;
    assert base[1..][0] == base[1] && base[1..][1..][0] == base[2];
    assert Word0(base[1..][1..]) == [];
    assert Word0(base[1..]) == if t == 0 then [] else [0x2e];
    assert s[..11][8] == short[8];
    assert s[8] == 0x20;
    assert ShortName(s) == if t == 0 then DOT else DOTDOT;
    assert CStr(DOT) == DOT && CStr(DOTDOT) == DOTDOT by {
      assert DOT[1..] == [] && DOTDOT[1..] == DOT;
    }
  }

  /** Every record was written by emake: long-named, or a dot entry in its place. */
  ghost predicate Made(items: Items, k: int)
  {
    items.Cons? ==>
      && (items.head.Short? ==> 0 <= k <= 1 && EntryOf(items.head, k).name == if k == 0 then DOT else DOTDOT)
      && Made(items.tail, k + items.head.Count())
  }

  /** The number of slots eremove marks free, read off the first slot of the record. */
  function RemoveCount(s: Slot): int { ClearLast(s[0]) + 1 }

  /** Creating a file (ealloc finds its name or stores a record where dirlookup ended), or
      removing one (dirlookup, then eremove). */
  datatype Op = Create(it: Item) | Remove(name: seq<byte>)

  /** Names the file layer handles before it scans the directory. */
  ghost predicate Ordinary(name: seq<byte>)
  {
    IsName(name) && name != DOT && name != DOTDOT
  }

  /** One such operation where dirlookup goes by its scan alone. */
  ghost predicate ScanStep(slots: seq<Slot>, op: Op, slots': seq<Slot>)
  {
    match op
    case Create(it) =>
      it.Long? && it.Ok() && Ordinary(it.r.name) &&
      (match Look(slots, 0, it.r.name)
       case Absent(t) => Emade(it, t).Ok() && Overwritten(slots, slots', t, Emade(it, t).Slots())
       case _ => slots' == slots)
    case Remove(name) =>
      Ordinary(name) &&
      (match Look(slots, 0, name)
       case Hit(k, _) => 0 <= k < |slots| && Erased(slots, slots', k, RemoveCount(slots[k]))
       case _ => slots' == slots)
  }

  ghost predicate Named(l: seq<Entry>, name: seq<byte>)
  {
    exists e :: e in l && e.name == name
  }

  /** The slot behind the last record of a list. */
  ghost function EndOf(l: seq<Entry>): int
  {
    if l == [] then 0 else l[|l| - 1].k + l[|l| - 1].count
  }

  /** The same operation on the list of records: what is created is added behind the last
      record, as a dot entry if that is in one of the first two slots. */
  ghost predicate ListStep(l: seq<Entry>, op: Op, l': seq<Entry>)
  {
    match op
    case Create(it) =>
      it.Long? &&
      if Named(l, it.r.name) then l' == l else it.Ok() && l' == l + [EntryOf(Emade(it, EndOf(l)), EndOf(l))]
    case Remove(name) =>
      if Named(l, name) then exists e :: e in l && e.name == name && l' == Without(l, e.k) else l' == l
  }

  /** No two records have the same name. */
  ghost predicate DistinctNames(l: seq<Entry>)
  {
    forall i, j :: 0 <= i < j < |l| ==> l[i].name != l[j].name
  }

  /** A directory ealloc made starts with its two dot entries. */
  ghost predicate Dotted(items: Items)
  {
    && items.Cons? && items.head.Short? && items.tail.Cons? && items.tail.head.Short?
    && Made(items, 0)
  }

  lemma DottedTail(slots: seq<Slot>, items: Items)
    requires Holds(slots, 0, items) && Dotted(items)
    ensures Tail(items, 0) >= 2
  {
    hide HeldAt;
    HeldIn(slots, 0, items.head);
    HeldIn(slots, 1, items.tail.head);
    TailBounds(slots, 2, items.tail.tail);
  }

  /** A created name is listed afterwards exactly if the scan for it did not end in the first
      two slots: there emake writes a dot entry instead. */
  lemma CreateListed(slots: seq<Slot>, items: Items, it: Item, slots': seq<Slot>) returns (items': Items)
    requires Holds(slots, 0, items) && it.Long? && it.Ok() && Ordinary(it.r.name)
    requires !Named(List(items, 0), it.r.name) && ScanStep(slots, Create(it), slots')
    ensures Holds(slots', 0, items') && (Named(List(items', 0), it.r.name) <==> Tail(items, 0) >= 2)
  {
    assert it.r.Valid();
    hide Holds, Look, FirstOf, EntryOf, List, Item.Slots, Item.Ok, DotSlot;
    LookFinds(slots, 0, items, it.r.name);
    FirstListed(items, 0, it.r.name);
    var t := Tail(items, 0);
    var made := Emade(it, t);
    items' := Appended(items, made);
    AppendHolds(slots, slots', 0, items, made);
    AppendList(items, 0, made);
    DotName(t, it.r.clus);
    EntryName(it, t);
    assert EntryOf(made, t) in List(items', 0);
    if t <= 1 {
      TailBounds(slots, 0, items);
      forall e | e in List(items', 0) ensures e.name != it.r.name {
        assert e in List(items, 0) || e == EntryOf(made, t);
      }
    }
  }

  /** The list's end is where the scan for a new name ends. */
  lemma {:induction false} EndIsTail(items: Items, k: int)
    ensures Tail(items, k) == if List(items, k) == [] then k else EndOf(List(items, k))
    decreases items
  {
    hide EntryOf;
    if AllHoles(items) {
      ListHoles(items, k, 0);
    } else {
      var rest := List(items.tail, k + items.head.Count());
      EndIsTail(items.tail, k + items.head.Count());
      if items.head.Hole? {
        NotEmptyList(items.tail, k + items.head.Count());
        assert List(items, k) == rest;
      } else {
        EntryPlace(items.head, k);
        EndCons(EntryOf(items.head, k), rest);
      }
    }
  }

  lemma EndCons(e: Entry, rest: seq<Entry>)
    ensures EndOf([e] + rest) == if rest == [] then e.k + e.count else EndOf(rest)
  {
  }

  lemma EntryPlace(it: Item, k: int)
    requires !it.Hole?
    ensures EntryOf(it, k).k == k && EntryOf(it, k).count == it.Count()
  {
  }

  lemma {:induction false} NotEmptyList(items: Items, k: int)
    requires !AllHoles(items)
    ensures List(items, k) != []
    decreases items
  {
    if items.head.Hole? { NotEmptyList(items.tail, k + 1); }
  }

  lemma {:induction false} MadeAppended(items: Items, k: int, it: Item)
    requires Made(items, k) && it.Long? && it.Ok() && 0 <= k && Emade(it, Tail(items, k)).Ok()
    ensures Made(Appended(items, Emade(it, Tail(items, k))), k)
    decreases items
  {
    var made := Emade(it, Tail(items, k));
    if AllHoles(items) {
      MadeHoles(items, k + made.Count(), made.Count());
      DotName(k, it.r.clus);
    } else {
      MadeAppended(items.tail, k + items.head.Count(), it);
    }
  }

  lemma {:induction false} MadeHoles(items: Items, k: int, n: int)
    requires AllHoles(items)
    ensures Made(items, k) && AllHoles(Drop(items, n)) && Made(Drop(items, n), k)
    decreases items
  {
    if items.Cons? {
      MadeHoles(items.tail, k + 1, n - 1);
      MadeHoles(items.tail, k, n - 1);
    }
  }

  lemma {:induction false} MadeFreed(slots: seq<Slot>, k: int, n: int, rest: Items)
    requires 0 <= k && 0 <= n && k + n <= |slots| && Made(rest, k + n)
    ensures Made(Freed(slots, k, n, rest), k)
    decreases n
  {
    if n > 0 {
      MadeFreed(slots, k + 1, n - 1, rest);
    }
  }

  lemma {:induction false} MadeRemoved(items: Items, k: int, at: int, slots': seq<Slot>)
    requires Made(items, k) && ListedAt(items, k, at) && 0 <= k && at + CountAt(items, k, at) <= |slots'|
    ensures Made(Removed(items, k, at, slots'), k)
    decreases items
  {
    if k == at {
      MadeFreed(slots', k, items.head.Count(), items.tail);
    } else {
      MadeRemoved(items.tail, k + items.head.Count(), at, slots');
    }
  }

  /** An ordinary name dirlookup found is a record emake wrote, and eremove's reading of its
      first slot gives the number of slots it has. */
  lemma {:induction false} FoundLong(slots: seq<Slot>, k: int, items: Items, name: seq<byte>)
    requires Holds(slots, k, items) && Made(items, k) && Ordinary(name) && FirstOf(items, k, name).First?
    ensures var at := FirstOf(items, k, name).e.k;
            (items.head.Short? ==> k < at) && k <= at < |slots| && ListedAt(items, k, at) && CountAt(items, k, at) == RemoveCount(slots[at])
    decreases items
  {
    hide Item.Slots, Item.Ok;
    var it := items.head;
    if !it.Hole? && EntryOf(it, k).name == name {
      LongCount(slots, k, it);
    } else {
      FoundLong(slots, k + it.Count(), items.tail, name);
    }
  }

  lemma {:induction false} ListedInside(slots: seq<Slot>, k: int, items: Items, at: int)
    requires Holds(slots, k, items) && ListedAt(items, k, at)
    ensures 0 <= at && at + CountAt(items, k, at) <= |slots|
    decreases items
  {
    hide Item.Slots, Item.Ok;
    HeldIn(slots, k, items.head);
    if k != at { ListedInside(slots, k + items.head.Count(), items.tail, at); }
  }

  lemma LongCount(slots: seq<Slot>, k: int, it: Item)
    requires HeldAt(slots, k, it) && it.Long?
    ensures 0 <= k < |slots| && RemoveCount(slots[k]) == it.Count()
  {
    FirstSlot(slots, k, it);
    assert slots[k] == slots[k..k + it.Count()][0] == it.Slots()[0];
    LongRunCons(it.r, it.sum, it.r.Longs());
    assert slots[k][0] == LongByte(it.r, it.sum, it.r.Longs(), 0);
    OrderByte(it.r.Longs(), true);
  }

  /** A record stored where the scan ended has a name nobody has. */
  lemma CreateHolds(slots: seq<Slot>, items: Items, it: Item, slots': seq<Slot>) returns (items': Items)
    requires Holds(slots, 0, items) && Made(items, 0) && DistinctNames(List(items, 0)) && it.Long? && it.Ok() && Ordinary(it.r.name)
    requires !Named(List(items, 0), it.r.name) && ScanStep(slots, Create(it), slots')
    ensures Holds(slots', 0, items') && Made(items', 0) && DistinctNames(List(items', 0)) && (Dotted(items) ==> Dotted(items'))
    ensures ListStep(List(items, 0), Create(it), List(items', 0))
    ensures EndOf(List(items, 0)) >= 2 ==> Named(List(items', 0), it.r.name)
  {
    assert it.r.Valid();
    hide Holds, Made, Look, FirstOf, EntryOf, List, Item.Slots, Item.Ok, DotSlot, Tail, Appended, Emade, DistinctNames;
    var l, t := List(items, 0), Tail(items, 0);
    LookFinds(slots, 0, items, it.r.name);
    FirstListed(items, 0, it.r.name);
    EndIsTail(items, 0);
    TailBounds(slots, 0, items);
    var made := Emade(it, t);
    items' := Appended(items, made);
    AppendHolds(slots, slots', 0, items, made);
    AppendList(items, 0, made);
    MadeAppended(items, 0, it);
    if Dotted(items) {
      DottedTail(slots, items);
      DottedAppended(items, it);
    }
    NewName(slots, items, it, t);
    DistinctMore(l, EntryOf(made, t));
  }

  lemma NewName(slots: seq<Slot>, items: Items, it: Item, t: int)
    requires Holds(slots, 0, items) && Made(items, 0) && it.Long? && it.Ok() && t == Tail(items, 0) && !Named(List(items, 0), it.r.name)
    ensures forall e :: e in List(items, 0) ==> e.name != EntryOf(Emade(it, t), t).name
    ensures t >= 2 ==> EntryOf(Emade(it, t), t).name == it.r.name
  {
    if t >= 2 {
      EntryName(it, t);
    } else {
      TailBounds(slots, 0, items);
      DotName(t, it.r.clus);
      NoDotYet(slots, items, 0, t);
    }
    hide *;
  }

  lemma DistinctMore(l: seq<Entry>, e: Entry)
    requires DistinctNames(l) && forall x :: x in l ==> x.name != e.name
    ensures DistinctNames(l + [e]) && e in l + [e]
  {
  }

  /** While the records end at slot t, one of the first two, there is no dot entry for it. */
  lemma NoDotYet(slots: seq<Slot>, items: Items, k: int, t: int)
    requires Holds(slots, k, items) && Made(items, k) && Tail(items, k) == t <= 1 && k == 0
    ensures forall e :: e in List(items, k) ==> e.name != if t == 0 then DOT else DOTDOT
  {
    hide Item.Slots, Item.Ok;
    if AllHoles(items) {
      ListHoles(items, 0, 0);
    } else {
      HeldIn(slots, 0, items.head);
      TailBounds(slots, items.head.Count(), items.tail);
      if AllHoles(items.tail) {
        ListHoles(items.tail, 1, 0);
        NotAllHoles(items);
      } else {
        LaterTail(slots, items.tail, items.head.Count());
      }
    }
  }

  lemma NotAllHoles(items: Items)
    requires !AllHoles(items) && AllHoles(items.tail)
    ensures !items.head.Hole?
  {
  }

  lemma {:induction false} LaterTail(slots: seq<Slot>, items: Items, k: int)
    requires Holds(slots, k, items) && !AllHoles(items)
    ensures Tail(items, k) >= k + 1
    decreases items
  {
    hide Item.Slots, Item.Ok;
    HeldIn(slots, k, items.head);
    TailBounds(slots, k + items.head.Count(), items.tail);
  }

  /** One creation or removal does to the list exactly what it says. */
  lemma StepHolds(slots: seq<Slot>, items: Items, op: Op, slots': seq<Slot>) returns (items': Items)
    requires Holds(slots, 0, items) && Made(items, 0) && DistinctNames(List(items, 0)) && ScanStep(slots, op, slots')
    ensures Holds(slots', 0, items') && Made(items', 0) && DistinctNames(List(items', 0)) && (Dotted(items) ==> Dotted(items'))
    ensures ListStep(List(items, 0), op, List(items', 0))
    ensures op.Create? && EndOf(List(items, 0)) >= 2 ==> op.it.Long? && Named(List(items', 0), op.it.r.name)
  {
    hide Holds, Made, Look, FirstOf, EntryOf, List, Item.Slots, Item.Ok, ListedAt, CountAt, Tail, Emade;
    var name := if op.Create? then op.it.r.name else op.name;
    LookFinds(slots, 0, items, name);
    FirstListed(items, 0, name);
    var l := List(items, 0);
    match op {
      case Create(it) =>
        if FirstOf(items, 0, name).NoMatch? {
          items' := CreateHolds(slots, items, it, slots');
        } else {
          items' := items;
        }
      case Remove(_) =>
        if FirstOf(items, 0, name).First? {
          var at := FirstOf(items, 0, name).e.k;
          FoundLong(slots, 0, items, name);
          items' := Removed(items, 0, at, slots');
          RemoveHolds(slots, slots', 0, items, at);
          MadeRemoved(items, 0, at, slots');
          if Dotted(items) {
            FoundBehindDots(slots, items, name);
            DottedRemoved(items, at, slots');
          }
          DistinctWithout(l, at);
        } else {
          items' := items;
        }
    }
  }

  lemma FoundBehindDots(slots: seq<Slot>, items: Items, name: seq<byte>)
    requires Holds(slots, 0, items) && Dotted(items) && Made(items, 0) && Ordinary(name) && FirstOf(items, 0, name).First?
    ensures FirstOf(items, 0, name).e.k >= 2
  {
    hide HeldAt;
    FoundLong(slots, 0, items, name);
    FoundLong(slots, 1, items.tail, name);
  }

  lemma DottedAppended(items: Items, it: Item)
    requires Dotted(items) && it.Long? && it.Ok() && Tail(items, 0) >= 2 && Made(Appended(items, Emade(it, Tail(items, 0))), 0)
    ensures Dotted(Appended(items, Emade(it, Tail(items, 0))))
  {
  }

  lemma DottedRemoved(items: Items, at: int, slots': seq<Slot>)
    requires Dotted(items) && at >= 2 && ListedAt(items, 0, at) && at + CountAt(items, 0, at) <= |slots'|
    requires Made(Removed(items, 0, at, slots'), 0)
    ensures Dotted(Removed(items, 0, at, slots'))
  {
  }

  lemma EntryName(it: Item, k: int)
    requires it.Long?
    ensures EntryOf(it, k).name == it.r.name
  {
  }

  lemma {:induction false} DistinctWithout(l: seq<Entry>, at: int)
    requires DistinctNames(l)
    ensures DistinctNames(Without(l, at)) && forall e :: e in Without(l, at) ==> e in l
    decreases l
  {
    if l != [] {
      var rest := Without(l[1..], at);
      DistinctWithout(l[1..], at);
      assert forall i :: 0 <= i < |l[1..]| ==> l[1..][i] == l[i + 1];
      forall i | 0 <= i < |rest| ensures rest[i].name != l[0].name {
        assert rest[i] in l[1..];
      }
    }
  }
}
