/** The map from names to files that EntryCache works on is what the slots of the directories
    stand for, and its operations change it as creating and removing records does. */
module FatTree {
  import opened FatData
  import opened FatNames
  import opened FatListing
  import opened FatChanges
  import opened FatRuns
  import EntryCache
  import FatEncode

  /** dirlookup's scan finds this record under this name. */
  ghost predicate Finds(slots: seq<Slot>, name: seq<byte>, e: Entry)
  {
    Look(slots, 0, name).Hit? && Look(slots, 0, name).k == e.k && Matches(Look(slots, 0, name).f, e)
  }

  // ---- what a change does to the scan for one name ----

  lemma FindsListed(slots: seq<Slot>, items: Items, name: seq<byte>, e: Entry)
    requires Holds(slots, 0, items) && DistinctNames(List(items, 0)) && name != []
    ensures Finds(slots, name, e) <==> e in List(items, 0) && e.name == name
  {
    hide Holds, Look, FirstOf, List;
    LookFinds(slots, 0, items, name);
    FirstListed(items, 0, name);
  }

  /** The scan for a name that one of the records has ends there, whatever comes behind them. */
  lemma {:induction false} LookEarly(slots: seq<Slot>, k: int, items: Items, name: seq<byte>)
    requires Begins(slots, k, items) && name != [] && FirstOf(items, k, name).First?
    ensures Agrees(Look(slots, k, name), FirstOf(items, k, name), 0)
    decreases items
  {
    hide Look, HeldAt, Matches, Agrees, EntryOf;
    if AllHoles(items) {
      NoneFirst(items, k, name);
    } else if items.head.Hole? {
      LookHole(slots, k, items, name);
      LookEarly(slots, k + 1, items.tail, name);
    } else {
      LookRecord(slots, k, items.head, name, 0);
      if EntryOf(items.head, k).name != name {
        LookEarly(slots, k + items.head.Count(), items.tail, name);
      }
    }
  }

  /** The other names of a directory after a creation: each leads where it led before. */
  ghost predicate Others(slots: seq<Slot>, slots': seq<Slot>, name: seq<byte>)
  {
    forall m :: Ordinary(m) && m != name ==> SameFind(slots, slots', m)
  }

  ghost predicate SameFind(slots: seq<Slot>, slots': seq<Slot>, m: seq<byte>)
  {
    (Look(slots, 0, m).Hit? <==> Look(slots', 0, m).Hit?) && forall e :: Finds(slots, m, e) <==> Finds(slots', m, e)
  }

  lemma ListsSame(slots: seq<Slot>, items: Items, slots': seq<Slot>, items': Items, m: seq<byte>)
    requires Holds(slots, 0, items) && DistinctNames(List(items, 0)) && Holds(slots', 0, items') && DistinctNames(List(items', 0)) && m != []
    requires forall e: Entry :: e.name == m ==> (e in List(items, 0) <==> e in List(items', 0))
    ensures SameFind(slots, slots', m)
  {
    ScanIs(slots, items, m);
    ScanIs(slots', items', m);
    hide Holds, Look, List, DistinctNames, Finds;
    forall e ensures Finds(slots, m, e) <==> Finds(slots', m, e) {
      FindsListed(slots, items, m, e);
      FindsListed(slots', items', m, e);
    }
  }

  /** What is stored in front of a record that is lost is still found, and nothing behind it. */
  lemma MarkSame(slots: seq<Slot>, slots': seq<Slot>, items: Items, it: Item, m: seq<byte>)
    requires Proper(slots, items) && Storable(it) && Tail(items, 0) >= 2 && it.short[0] == EMPTY_ENTRY && m != []
    requires Overwritten(slots, slots', Tail(items, 0), Run(it, Tail(items, 0)))
    ensures SameFind(slots, slots', m)
  {
    hide Holds, Look, Run, FirstOf, List, Tail, Stands, Made, Matches, DistinctNames;
    BeginsKept(slots, slots', 0, items, Run(it, Tail(items, 0)));
    LookFinds(slots, 0, items, m);
    if FirstOf(items, 0, m).First? {
      LookEarly(slots', 0, items, m);
      SameMatch(slots, slots', m, FirstOf(items, 0, m).e);
    } else {
      LookThrough(slots', 0, items, m);
      StandsAt(slots', it, Tail(items, 0));
      LookLost(slots', Tail(items, 0), it.r, it.sum, it.short, m);
    }
  }

  lemma SameMatch(slots: seq<Slot>, slots': seq<Slot>, m: seq<byte>, e: Entry)
    requires Finds(slots, m, e) && Finds(slots', m, e)
    ensures SameFind(slots, slots', m)
  {
    hide Look;
  }

  lemma AsCreated(d: Dir, items: Items, it: Item, d': Dir)
    requires Proper(d.slots, items) && Next(d, Do(Create(it)), d') && !Answers(d, it.r.name) && it.Ok()
    ensures ScanStep(d.slots, Create(it), d'.slots) && !Named(List(items, 0), it.r.name)
  {
    hide Holds, Look, List, DistinctNames, Made, Run, Emade, Overwritten, DotSlot;
    ScanIs(d.slots, items, it.r.name);
    StoresRun(it, Tail(items, 0));
  }

  /** A creation: the new name leads to the new record exactly if it is kept, and every other name
      to where it led. */
  lemma CreateFinds(d: Dir, items: Items, it: Item, d': Dir)
    requires Proper(d.slots, items) && Next(d, Do(Create(it)), d') && !Answers(d, it.r.name)
    ensures Look(d.slots, 0, it.r.name) == Absent(Tail(items, 0)) && Others(d.slots, d'.slots, it.r.name)
    ensures !Loses(d, Do(Create(it))) ==> exists e :: Finds(d'.slots, it.r.name, e) && e.clus == it.r.clus && e.size == it.r.size && e.attr == it.r.attr
    ensures Loses(d, Do(Create(it))) ==> !Look(d'.slots, 0, it.r.name).Hit?
  {
    var t := Tail(items, 0);
    hide Holds, Look, List, DistinctNames, Made, Run, Emade, Overwritten, DotSlot, Finds, Tail, SameFind;
    ScanIs(d.slots, items, it.r.name);
    if Loses(d, Do(Create(it))) { LosesTruth(d, items, it, d'); }
    if t >= 2 && it.short[0] == EMPTY_ENTRY {
      forall m | Ordinary(m) && m != it.r.name ensures SameFind(d.slots, d'.slots, m) {
        MarkSame(d.slots, d'.slots, items, it, m);
      }
    } else {
      CreateKept(d, items, it, d');
    }
  }

  lemma CreateKept(d: Dir, items: Items, it: Item, d': Dir)
    requires Proper(d.slots, items) && Next(d, Do(Create(it)), d') && !Answers(d, it.r.name)
    requires Tail(items, 0) < 2 || it.short[0] != EMPTY_ENTRY
    ensures Others(d.slots, d'.slots, it.r.name)
    ensures Tail(items, 0) >= 2 ==> exists e :: Finds(d'.slots, it.r.name, e) && e.clus == it.r.clus && e.size == it.r.size && e.attr == it.r.attr
  {
    var t := Tail(items, 0);
    hide Holds, Look, List, DistinctNames, Made, Run, Emade, Overwritten, DotSlot, Finds, Tail, SameFind, EntryOf;
    ScanIs(d.slots, items, it.r.name);
    var plain := if t < 2 then Long(it.r, it.sum, it.short[0 := 0x41]) else it;
    if t < 2 { SameRun(it, plain, t); }
    AsCreated(d, items, plain, d');
    var items' := CreateHolds(d.slots, items, plain, d'.slots);
    EndIsTail(items, 0);
    TailBounds(d.slots, 0, items);
    NewEntry(plain, t);
    var e := EntryOf(Emade(plain, t), t);
    forall m | Ordinary(m) && m != it.r.name ensures SameFind(d.slots, d'.slots, m) {
      ListsSame(d.slots, items, d'.slots, items', m);
    }
    if t >= 2 { FindsListed(d'.slots, items', it.r.name, e); }
  }

  lemma NewEntry(it: Item, t: int)
    requires Storable(it) && it.Ok() && t >= 0
    ensures !Emade(it, t).Hole? && (!Ordinary(EntryOf(Emade(it, t), t).name) <==> t < 2)
    ensures t >= 2 ==> EntryOf(Emade(it, t), t) == Entry(t, it.Count(), it.r.name, it.r.attr, it.r.clus, it.r.size)
  {
    if t < 2 { DotName(t, it.r.clus); }
  }

  lemma {:induction false} WithoutGone(l: seq<Entry>, at: int)
    ensures forall e :: e in Without(l, at) <==> e in l && e.k != at
    decreases l
  {
    if l != [] {
      WithoutGone(l[1..], at);
      assert forall e :: e in l <==> e == l[0] || e in l[1..];
    }
  }

  /** A removal: the name is gone, and every other name leads to where it led. */
  lemma RemoveFinds(d: Dir, items: Items, name: seq<byte>, d': Dir)
    requires Proper(d.slots, items) && Truthful(d) && Next(d, Do(Remove(name)), d') && Answers(d, name)
    ensures Look(d.slots, 0, name).Hit? && !Look(d'.slots, 0, name).Hit? && Others(d.slots, d'.slots, name)
  {
    hide Holds, Look, List, DistinctNames, Made, Truthful, Without, SameFind, Answers, Next;
    Answered(d, name, d');
    var items' := DoTruthful(d, items, Remove(name), d');
    var l, l' := List(items, 0), List(items', 0);
    ScanIs(d.slots, items, name);
    var e :| e in l && e.name == name && l' == Without(l, e.k);
    WithoutGone(l, e.k);
    Places(d.slots, 0, items);
    OneEach(l, e);
    ScanIs(d'.slots, items', name);
    forall m | Ordinary(m) && m != name ensures SameFind(d.slots, d'.slots, m) {
      ListsSame(d.slots, items, d'.slots, items', m);
    }
  }

  lemma Answered(d: Dir, name: seq<byte>, d': Dir)
    requires Truthful(d) && Answers(d, name) && Next(d, Do(Remove(name)), d')
    ensures Ordinary(name) && Look(d.slots, 0, name).Hit? && !Loses(d, Do(Remove(name)))
  {
    hide Look, Erased;
  }

  /** Names and places pick records. */
  lemma OneEach(l: seq<Entry>, e: Entry)
    requires DistinctNames(l) && e in l && forall i, j :: 0 <= i < j < |l| ==> l[i].k != l[j].k
    ensures forall f :: f in l && (f.name == e.name || f.k == e.k) ==> f == e
  {
    var i :| 0 <= i < |l| && l[i] == e;
    forall f | f in l && (f.name == e.name || f.k == e.k) ensures f == e {
      var j :| 0 <= j < |l| && l[j] == f;
      assert i == j;
    }
  }

  // ---- the whole tree ----

  /** The slots of every directory, and the first cluster that a file's record gives. */
  datatype Store = Store(dirs: map<int, seq<Slot>>, starts: map<int, int>)

  /** A name the cache's map has in directory n leads to the record of that file, unless it is
      lost; any other name is not found. */
  ghost predicate KeyAt(s: Store, disk: EntryCache.Disk, lost: set<(int, seq<byte>)>, n: int, name: seq<byte>)
  {
    n in s.dirs && Ordinary(name) ==>
      if (n, name) in disk && (n, name) !in lost then
        disk[(n, name)] in s.starts && exists e :: Finds(s.dirs[n], name, e) && e.clus == s.starts[disk[(n, name)]]
      else !Look(s.dirs[n], 0, name).Hit?
  }

  ghost predicate StandFor(s: Store, disk: EntryCache.Disk, lost: set<(int, seq<byte>)>)
  {
    forall n, name {:trigger KeyAt(s, disk, lost, n, name)} :: KeyAt(s, disk, lost, n, name)
  }

  ghost predicate Trimmed(name: seq<byte>)
  {
    IsName(name) && name[0] != FatEncode.BLANK && name[0] != FatEncode.DOT_CHAR
  }

  lemma MarkOf(name: seq<byte>)
    requires Trimmed(name)
    ensures FatEncode.ShortForm(name)[0] == EMPTY_ENTRY <==> name[0] == EMPTY_ENTRY
  {
    FatEncode.ShortForms(name);
    hide FatEncode.ShortForm;
  }

  lemma KeySame(s: Store, s': Store, disk: EntryCache.Disk, disk': EntryCache.Disk, lost: set<(int, seq<byte>)>, lost': set<(int, seq<byte>)>,
                n: int, name: seq<byte>)
    requires KeyAt(s, disk, lost, n, name) && ((n, name) in disk <==> (n, name) in disk') && ((n, name) in lost <==> (n, name) in lost')
    requires n in s.dirs <==> n in s'.dirs
    requires n in s.dirs && Ordinary(name) ==> SameFind(s.dirs[n], s'.dirs[n], name)
    requires (n, name) in disk ==> disk'[(n, name)] == disk[(n, name)]
    requires (n, name) in disk && disk[(n, name)] in s.starts ==> disk[(n, name)] in s'.starts && s'.starts[disk[(n, name)]] == s.starts[disk[(n, name)]]
    ensures KeyAt(s', disk', lost', n, name)
  {
    hide Look, Finds, Ordinary;
  }

  lemma SameSlots(slots: seq<Slot>, m: seq<byte>)
    ensures SameFind(slots, slots, m)
  {
  }

  /** The slots after a record for the file was stored in directory n. */
  ghost function Stored(s: Store, n: int, d': Dir, it: Item, file: int): Store
    requires it.Long?
  {
    Store(s.dirs[n := d'.slots], s.starts[file := it.r.clus])
  }

  /** The lost names after that, as EntryCache.Cache.CreateChild has them. */
  ghost function LostBy(lost: set<(int, seq<byte>)>, n: int, name: seq<byte>, place: int): set<(int, seq<byte>)>
  {
    if EntryCache.Kept(name, place) then lost - {(n, name)} else lost + {(n, name)}
  }

  /** A name that is not there is made in directory n. */
  ghost predicate Makes(s: Store, n: int, d: Dir, items: Items, it: Item, d': Dir)
  {
    && n in s.dirs && d.slots == s.dirs[n] && Proper(d.slots, items) && Next(d, Do(Create(it)), d') && !Answers(d, it.r.name)
    && Trimmed(it.r.name) && it.short == FatEncode.ShortForm(it.r.name)
  }

  lemma MakesKept(s: Store, n: int, d: Dir, items: Items, it: Item, d': Dir)
    requires Makes(s, n, d, items, it, d')
    ensures it.Long? && it.r.name != [] && Look(d.slots, 0, it.r.name) == Absent(Tail(items, 0))
    ensures Loses(d, Do(Create(it))) <==> !EntryCache.Kept(it.r.name, Tail(items, 0))
  {
    hide Proper, Look, FatEncode.ShortForm, Overwritten, Run, Tail;
    CreateFinds(d, items, it, d');
    MarkOf(it.r.name);
  }

  lemma MakeKey(s: Store, disk: EntryCache.Disk, lost: set<(int, seq<byte>)>, n: int, d: Dir, items: Items, it: Item, file: int, d': Dir,
                m: int, name: seq<byte>)
    requires Makes(s, n, d, items, it, d') && it.Long?
    requires (m, name) != (n, it.r.name) ==> KeyAt(s, disk, lost, m, name) && ((m, name) in disk ==> disk[(m, name)] != file)
    ensures KeyAt(Stored(s, n, d', it, file), disk[(n, it.r.name) := file], LostBy(lost, n, it.r.name, Tail(items, 0)), m, name)
  {
    MakesKept(s, n, d, items, it, d');
    CreateFinds(d, items, it, d');
    hide Next, Proper, Look, Answers, Finds, SameFind, FatEncode.ShortForm, Tail, EntryCache.Kept, Loses, Ordinary, Trimmed;
    if (m, name) != (n, it.r.name) {
      if m in s.dirs { SameSlots(s.dirs[m], name); }
      KeySame(s, Stored(s, n, d', it, file), disk, disk[(n, it.r.name) := file], lost, LostBy(lost, n, it.r.name, Tail(items, 0)), m, name);
    }
  }

  /** Creating a new file: the map that EntryCache.Cache.CreateChild makes is what the slots stand
      for that emake leaves, the two names a scan loses included. */
  lemma CreateStands(s: Store, disk: EntryCache.Disk, lost: set<(int, seq<byte>)>, n: int, d: Dir, items: Items, it: Item, file: int, d': Dir)
    requires StandFor(s, disk, lost) && Makes(s, n, d, items, it, d') && forall k :: k in disk ==> disk[k] != file
    ensures it.Long? && Look(d.slots, 0, it.r.name) == Absent(Tail(items, 0))
    ensures StandFor(Stored(s, n, d', it, file), disk[(n, it.r.name) := file], LostBy(lost, n, it.r.name, Tail(items, 0)))
  {
    hide Makes, Look, KeyAt, Stored, LostBy, Tail;
    MakesKept(s, n, d, items, it, d');
    var s', disk', lost' := Stored(s, n, d', it, file), disk[(n, it.r.name) := file], LostBy(lost, n, it.r.name, Tail(items, 0));
    forall m, name ensures KeyAt(s', disk', lost', m, name) {
      assert KeyAt(s, disk, lost, m, name);
      MakeKey(s, disk, lost, n, d, items, it, file, d', m, name);
    }
  }

  /** The record of a name is removed from directory n. */
  ghost predicate Unmakes(s: Store, n: int, d: Dir, items: Items, name: seq<byte>, d': Dir)
  {
    n in s.dirs && d.slots == s.dirs[n] && Proper(d.slots, items) && Truthful(d) && Next(d, Do(Remove(name)), d') && Answers(d, name)
  }

  lemma UnmakeKey(s: Store, disk: EntryCache.Disk, lost: set<(int, seq<byte>)>, n: int, d: Dir, items: Items, gone: seq<byte>, d': Dir,
                  m: int, name: seq<byte>)
    requires Unmakes(s, n, d, items, gone, d') && ((m, name) != (n, gone) ==> KeyAt(s, disk, lost, m, name))
    ensures KeyAt(s.(dirs := s.dirs[n := d'.slots]), disk - {(n, gone)}, lost, m, name)
  {
    hide Next, Proper, Look, Answers, Finds, SameFind, Ordinary, Truthful;
    RemoveFinds(d, items, gone, d');
    if (m, name) != (n, gone) {
      if m in s.dirs { SameSlots(s.dirs[m], name); }
      KeySame(s, s.(dirs := s.dirs[n := d'.slots]), disk, disk - {(n, gone)}, lost, lost, m, name);
    }
  }

  /** Removing a file: the same for EntryCache.Cache.ERemove, whose condition holds. */
  lemma RemoveStands(s: Store, disk: EntryCache.Disk, lost: set<(int, seq<byte>)>, n: int, d: Dir, items: Items, name: seq<byte>, d': Dir)
    requires StandFor(s, disk, lost) && Unmakes(s, n, d, items, name, d')
    ensures (n, name) in disk && (n, name) !in lost
    ensures StandFor(s.(dirs := s.dirs[n := d'.slots]), disk - {(n, name)}, lost)
  {
    UnmadeListed(s, disk, lost, n, d, items, name, d');
    hide Unmakes, KeyAt;
    var s', disk' := s.(dirs := s.dirs[n := d'.slots]), disk - {(n, name)};
    forall m, nm ensures KeyAt(s', disk', lost, m, nm) {
      assert KeyAt(s, disk, lost, m, nm);
      UnmakeKey(s, disk, lost, n, d, items, name, d', m, nm);
    }
  }

  lemma UnmadeListed(s: Store, disk: EntryCache.Disk, lost: set<(int, seq<byte>)>, n: int, d: Dir, items: Items, name: seq<byte>, d': Dir)
    requires StandFor(s, disk, lost) && Unmakes(s, n, d, items, name, d')
    ensures (n, name) in disk && (n, name) !in lost
  {
    hide Proper, Look, Finds;
    assert KeyAt(s, disk, lost, n, name);
  }

  /** Renaming: a record under the new name, then the old one removed.  If both are in one
      directory the new name has to be one that a scan finds. */
  lemma RenameStands(s: Store, disk: EntryCache.Disk, lost: set<(int, seq<byte>)>, n: int, d: Dir, items: Items, it: Item, d': Dir,
                     from: int, f: Dir, fitems: Items, old': seq<byte>, f': Dir)
    requires StandFor(s, disk, lost) && EntryCache.DiskTree(disk) && (from, old') in disk
    requires Makes(s, n, d, items, it, d') && it.Long? && (from, old') != (n, it.r.name)
    requires Unmakes(Stored(s, n, d', it, disk[(from, old')]), from, f, fitems, old', f')
    ensures var file, key := disk[(from, old')], (n, it.r.name);
            var s' := Stored(s, n, d', it, file);
            StandFor(s'.(dirs := s'.dirs[from := f'.slots]), EntryCache.MovedDisk(disk, (from, old'), key, file), LostBy(lost, n, it.r.name, Tail(items, 0)))
  {
    var file := disk[(from, old')];
    var s', lost' := Stored(s, n, d', it, file), LostBy(lost, n, it.r.name, Tail(items, 0));
    var disk' := disk[(n, it.r.name) := file];
    assert disk' - {(from, old')} == EntryCache.MovedDisk(disk, (from, old'), (n, it.r.name), file);
    hide Makes, Unmakes, KeyAt, Stored, LostBy, Tail;
    var s2, disk2 := s'.(dirs := s'.dirs[from := f'.slots]), disk' - {(from, old')};
    forall m, name ensures KeyAt(s2, disk2, lost', m, name) {
      if (m, name) != (from, old') {
        assert KeyAt(s, disk, lost, m, name);
        MakeKey(s, disk, lost, n, d, items, it, file, d', m, name);
      }
      UnmakeKey(s', disk', lost', from, f, fitems, old', f', m, name);
    }
  }

  /** A directory as FatDirectory.MakeDirectory leaves it stands for no names. */
  lemma DirStands(s: Store, disk: EntryCache.Disk, lost: set<(int, seq<byte>)>, n: int, slots: seq<Slot>, items: Items)
    requires StandFor(s, disk, lost) && EntryCache.Childless(disk, n) && Proper(slots, items)
    requires forall e :: e in List(items, 0) ==> e.name == DOT || e.name == DOTDOT
    ensures StandFor(s.(dirs := s.dirs[n := slots]), disk, lost)
  {
    hide Look, Proper, Finds;
    var s' := s.(dirs := s.dirs[n := slots]);
    forall m, name ensures KeyAt(s', disk, lost, m, name) {
      assert KeyAt(s, disk, lost, m, name);
      if m == n && Ordinary(name) { NoNames(slots, items, name); }
    }
  }

  lemma NoNames(slots: seq<Slot>, items: Items, name: seq<byte>)
    requires Proper(slots, items) && Ordinary(name) && forall e :: e in List(items, 0) ==> e.name == DOT || e.name == DOTDOT
    ensures !Look(slots, 0, name).Hit?
  {
    ScanIs(slots, items, name);
    hide *;
  }
}
