/** A FAT32 directory as kernel/fat32.c scans it: enext and dirlookup over a stream of slots,
    and the list of records that stream stands for. */
module FatListing {
  import opened FatData
  import opened FatNames

  /** The outcome of enext; Fault is a store through a null pointer or outside the name buffer. */
  datatype Found =
    | End
    | Fault
    | Empty(count: int, buf: seq<byte>)
    | File(count: int, buf: seq<byte>, attr: byte, clus: int, size: int)

  function CStr(buf: seq<byte>): (s: seq<byte>)
    ensures |s| <= |buf|
  {
    if buf == [] || buf[0] == 0 then [] else [buf[0]] + CStr(buf[1..])
  }

  /** The leading bytes of s that are not blanks. */
  function Word0(s: seq<byte>): (w: seq<byte>)
    ensures |w| <= |s|
  {
    if s == [] || s[0] == 0x20 then [] else [s[0]] + Word0(s[1..])
  }

  /** The name of a short entry: base, then a dot and the extension if there is one. */
  function ShortName(s: Slot): (n: seq<byte>)
    ensures |n| <= CHAR_SHORT_NAME + 1
  {
    Word0(s[..8]) + (if s[8] != 0x20 then [0x2e] + Word0(s[8..11]) else [])
  }

  /** read_entry_name, short entry branch. */
  function ReadShort(buf: seq<byte>, s: Slot): (r: seq<byte>)
    requires |buf| == NAME_BUF
    ensures |r| == NAME_BUF
  {
    Patched(Patched(buf, 0, Zeros(CHAR_SHORT_NAME + 2)), 0, ShortName(s))
  }

  function Clus(s: Slot): int { 0x1_0000 * Word(s, 20) + Word(s, 26) }

  function Size(s: Slot): int { Word(s, 28) + 0x1_0000 * Word(s, 30) }

  /** enext from slot k on, cnt free slots into the scan and, once the last long entry was
      seen (want > 0), with its count already stored. */
  function Enext(slots: seq<Slot>, k: int, cnt: int, want: int, buf: seq<byte>): (f: Found)
    requires 0 <= k && 0 <= cnt && 0 <= want && |buf| == NAME_BUF
    ensures f.Empty? || f.File? ==> f.count >= 1 && |f.buf| == NAME_BUF
    decreases |slots| - k
  {
    if k >= |slots| || slots[k][0] == END_OF_ENTRY then End
    else if slots[k][0] == EMPTY_ENTRY then Enext(slots, k + 1, cnt + 1, want, buf)
    else if cnt > 0 then (if want > 0 then Fault else Empty(cnt, buf))
    else if slots[k][11] == ATTR_LONG_NAME then
      var lcnt := ClearLast(slots[k][0]);
      if (HasLast(slots[k][0]) && want > 0) || !(1 <= lcnt <= 20) then Fault
      else Enext(slots, k + 1, cnt, if HasLast(slots[k][0]) then lcnt + 1 else want, ReadLong(buf, (lcnt - 1) * CHAR_LONG_NAME, slots[k]))
    else
      File(if want > 0 then want else 1, if want > 0 then buf else ReadShort(buf, slots[k]), slots[k][11], Clus(slots[k]), Size(slots[k]))
  }

  /** The buffer enext starts with: the filename field is cleared, the bytes behind it are not. */
  ghost predicate Cleared(buf: seq<byte>)
  {
    |buf| == NAME_BUF && forall i :: 0 <= i <= FAT32_MAX_FILENAME ==> buf[i] == 0
  }

  // ---- what a directory holds ----

  datatype Item =
    | Hole(s: Slot)
    | Short(s: Slot)
    | Long(r: Record, sum: byte, short: seq<byte>)
  {
    /** Items that enext reads back as themselves. */
    ghost predicate Ok() {
      match this
      case Hole(s) => s[0] == EMPTY_ENTRY
      case Short(s) => s[0] != EMPTY_ENTRY && s[0] != END_OF_ENTRY && s[11] != ATTR_LONG_NAME
      case Long(r, _, short) => r.Valid() && |short| == CHAR_SHORT_NAME && short[0] != EMPTY_ENTRY
                                && short[0] != END_OF_ENTRY && r.attr != ATTR_LONG_NAME
    }

    ghost function Slots(): (s: seq<Slot>)
      requires Ok()
      ensures |s| == Count() >= 1
    {
      match this
      case Hole(s) => [s]
      case Short(s) => [s]
      case Long(r, sum, short) => LongRun(r, sum, r.Longs()) + [ShortSlot(short, r.attr, r.clus, r.size)]
    }

    /** The number of slots. */
    function Count(): int {
      if Long? then r.Longs() + 1 else 1
    }
  }

  /** Long entries i down to 1 of a record. */
  ghost function LongRun(r: Record, sum: byte, i: int): (s: seq<Slot>)
    requires i <= r.Longs() <= 20
    ensures |s| == if i < 0 then 0 else i
    decreases i
  {
    if i <= 0 then [] else [LongSlot(r, sum, i)] + LongRun(r, sum, i - 1)
  }

  lemma CStrOf(buf: seq<byte>, name: seq<byte>)
    requires |name| < |buf| && buf[..|name|] == name && buf[|name|] == 0 && forall i :: 0 <= i < |name| ==> name[i] != 0
    ensures CStr(buf) == name
  {
    if name != [] {
      assert buf[0] == name[0] != 0;
      assert buf[1..][..|name| - 1] == name[1..];
      CStrOf(buf[1..], name[1..]);
    }
  }

  /** enext found a file with this record, in count slots. */
  ghost predicate ReadsAs(f: Found, r: Record, count: int)
  {
    f.File? && f.count == count && CStr(f.buf) == r.name && f.attr == r.attr && f.clus == r.clus && f.size == r.size
  }

  /** A record's long entries from slot k on, then its short entry. */
  ghost predicate Stands(slots: seq<Slot>, k: int, r: Record, sum: byte, short: seq<byte>)
  {
    && r.Valid() && |short| == CHAR_SHORT_NAME && 0 <= k && k + r.Longs() < |slots|
    && slots[k..k + r.Longs()] == LongRun(r, sum, r.Longs())
    && slots[k + r.Longs()] == ShortSlot(short, r.attr, r.clus, r.size)
  }

  /** The round trip of the long-name codec, exactly: what emake wrote for a record is read
      back by enext, whatever follows in the directory, if and only if the short name does
      not begin with 0xe5, the mark of a free slot. */
  lemma RoundTrip(slots: seq<Slot>, k: int, r: Record, sum: byte, short: seq<byte>, buf: seq<byte>)
    requires Stands(slots, k, r, sum, short) && Cleared(buf) && short[0] != END_OF_ENTRY && r.attr != ATTR_LONG_NAME
    ensures ReadsAs(Enext(slots, k, 0, 0, buf), r, r.Longs() + 1) <==> short[0] != EMPTY_ENTRY
  {
    hide LongRun, ReadLong, CStr, ReadShort;
    var n := r.Longs();
    var buf' := EnextRun(slots, k, r, sum, n, 0, buf);
    ShortSlotFields(short, r.attr, r.clus, r.size);
    if short[0] != EMPTY_ENTRY {
      EnextTail(slots, k + n, r, short, buf');
    } else {
      NeverFile(slots, k + n + 1, 1, n + 1, buf');
    }
  }

  /** With long entries pending, a free slot makes enext end or fault: no file comes back. */
  lemma {:induction false} NeverFile(slots: seq<Slot>, k: int, cnt: int, want: int, buf: seq<byte>)
    requires 0 <= k && cnt > 0 && want > 0 && |buf| == NAME_BUF
    ensures var f := Enext(slots, k, cnt, want, buf); f.End? || f.Fault?
    decreases |slots| - k
  {
    if k < |slots| && slots[k][0] == EMPTY_ENTRY {
      NeverFile(slots, k + 1, cnt + 1, want, buf);
    }
  }

  /** A name that begins with 0xe5 is lost: behind an otherwise correct record enext
      reports the end of the directory. */
  lemma LostName(sum: byte)
    ensures var r := Record([0xe5, 0x61], 0x20, 5, 7);
            var short: seq<byte> := [0xe5, 0x41, 0x20, 0x20, 0x20, 0x20, 0x20, 0x20, 0x20, 0x20, 0x20];
            var slots := LongRun(r, sum, r.Longs()) + [ShortSlot(short, r.attr, r.clus, r.size)];
            Stands(slots, 0, r, sum, short) && Enext(slots, 0, 0, 0, Zeros(NAME_BUF)) == End
  {
    var r := Record([0xe5, 0x61], 0x20, 5, 7);
    var short: seq<byte> := [0xe5, 0x41, 0x20, 0x20, 0x20, 0x20, 0x20, 0x20, 0x20, 0x20, 0x20];
    var slots := LongRun(r, sum, r.Longs()) + [ShortSlot(short, r.attr, r.clus, r.size)];
    assert slots[0..1] == LongRun(r, sum, r.Longs());
    ShortSlotFields(short, r.attr, r.clus, r.size);
    var buf' := EnextRun(slots, 0, r, sum, 1, 0, Zeros(NAME_BUF));
  }

  /** enext runs through the long entries i down to 1 of a record and has its name then. */
  lemma {:induction false} EnextRun(slots: seq<Slot>, k: int, r: Record, sum: byte, i: int, want: int, buf: seq<byte>) returns (buf': seq<byte>)
    requires r.Valid() && 0 <= k && 0 <= i <= r.Longs() && 1 <= r.Longs() <= 20 && |buf| == NAME_BUF
    requires want == (if i == r.Longs() then 0 else r.Longs() + 1)
    requires k + i <= |slots| && slots[k..k + i] == LongRun(r, sum, i)
    requires HoldsFrom(buf, r.name, i * CHAR_LONG_NAME) && buf[|r.name|] == 0
    ensures |buf'| == NAME_BUF && HoldsFrom(buf', r.name, 0)
    ensures Enext(slots, k, 0, want, buf) == Enext(slots, k + i, 0, r.Longs() + 1, buf')
    decreases i
  {
    hide *;
    if i == 0 {
      return buf;
    }
    LongRunCons(r, sum, i);
    assert slots[k] == slots[k..k + i][0];
    assert slots[k + 1..k + 1 + (i - 1)] == slots[k..k + i][1..];
    EnextStep(slots, k, r, sum, i, want, buf);
    buf' := EnextRun(slots, k + 1, r, sum, i - 1, r.Longs() + 1, ReadLong(buf, (i - 1) * CHAR_LONG_NAME, slots[k]));
  }

  lemma LongRunCons(r: Record, sum: byte, i: int)
    requires 1 <= i <= r.Longs() <= 20
    ensures LongRun(r, sum, i) == [LongSlot(r, sum, i)] + LongRun(r, sum, i - 1)
  {
  }

  /** enext reads the short entry behind the long ones. */
  lemma EnextTail(slots: seq<Slot>, k: int, r: Record, short: seq<byte>, buf: seq<byte>)
    requires r.Valid() && |short| == CHAR_SHORT_NAME && short[0] != EMPTY_ENTRY && short[0] != END_OF_ENTRY && r.attr != ATTR_LONG_NAME
    requires 0 <= k < |slots| && |buf| == NAME_BUF && slots[k] == ShortSlot(short, r.attr, r.clus, r.size)
    requires HoldsFrom(buf, r.name, 0)
    ensures ReadsAs(Enext(slots, k, 0, r.Longs() + 1, buf), r, r.Longs() + 1)
  {
    ShortSlotFields(short, r.attr, r.clus, r.size);
    assert buf[..|r.name|] == r.name;
    CStrOf(buf, r.name);
  }

  /** enext reads long entry i: it puts its part of the name in place and moves on. */
  lemma EnextStep(slots: seq<Slot>, k: int, r: Record, sum: byte, i: int, want: int, buf: seq<byte>)
    requires r.Valid() && 0 <= k < |slots| && 1 <= i <= r.Longs() && |buf| == NAME_BUF
    requires want == (if i == r.Longs() then 0 else r.Longs() + 1) && slots[k] == LongSlot(r, sum, i)
    requires HoldsFrom(buf, r.name, i * CHAR_LONG_NAME) && buf[|r.name|] == 0
    ensures 0 <= (i - 1) * CHAR_LONG_NAME && (i - 1) * CHAR_LONG_NAME + CHAR_LONG_NAME <= |buf|
    ensures var buf' := ReadLong(buf, (i - 1) * CHAR_LONG_NAME, slots[k]);
            && Enext(slots, k, 0, want, buf) == Enext(slots, k + 1, 0, r.Longs() + 1, buf')
            && HoldsFrom(buf', r.name, (i - 1) * CHAR_LONG_NAME) && buf'[|r.name|] == 0
  {
    var s := slots[k];
    assert s[0] == LongByte(r, sum, i, 0) && s[11] == LongByte(r, sum, i, 11);
    OrderByte(i, i == r.Longs());
    ReadLongSlot(buf, r, sum, i);
  }

  lemma OrderByte(i: int, last: bool)
    requires 1 <= i <= 20
    ensures var o: byte := if last then i + LAST_LONG_ENTRY else i;
            HasLast(o) == last && ClearLast(o) == i && o != EMPTY_ENTRY && o != END_OF_ENTRY
  {
  }

  lemma ShortSlotFields(short: seq<byte>, attr: byte, clus: int, size: int)
    requires |short| == CHAR_SHORT_NAME && 0 <= clus < 0x1_0000_0000 && 0 <= size < 0x1_0000_0000
    ensures var s := ShortSlot(short, attr, clus, size);
            s[0] == short[0] && s[..11] == short && s[11] == attr && Clus(s) == clus && Size(s) == size
  {
    var s := ShortSlot(short, attr, clus, size);
    assert s[20] == clus / 0x1_0000 % 0x100 && s[21] == clus / 0x1_0000 / 0x100;
    assert s[26] == clus % 0x1_0000 % 0x100 && s[27] == clus % 0x1_0000 / 0x100;
    assert s[28] == size % 0x1_0000 % 0x100 && s[29] == size % 0x1_0000 / 0x100;
    assert s[30] == size / 0x1_0000 % 0x100 && s[31] == size / 0x1_0000 / 0x100;
  }

  // ---- the list of records ----

  /** The items of a directory in order. */
  datatype Items = Nil | Cons(head: Item, tail: Items)

  /** From slot k on the directory holds these items and then only end markers. */
  ghost predicate Holds(slots: seq<Slot>, k: int, items: Items)
    decreases items
  {
    0 <= k &&
    match items
    case Nil => forall j :: k <= j < |slots| ==> slots[j][0] == END_OF_ENTRY
    case Cons(it, rest) => HeldAt(slots, k, it) && Holds(slots, k + it.Count(), rest)
  }

  ghost predicate HeldAt(slots: seq<Slot>, k: int, it: Item)
  {
    it.Ok() && 0 <= k && k + it.Count() <= |slots| && slots[k..k + it.Count()] == it.Slots()
  }

  /** A record as dirlookup finds it: where it starts, how many slots it has, what it says. */
  datatype Entry = Entry(k: int, count: int, name: seq<byte>, attr: byte, clus: int, size: int)

  ghost function EntryOf(it: Item, k: int): Entry
    requires !it.Hole?
  {
    if it.Long? then Entry(k, it.Count(), it.r.name, it.r.attr, it.r.clus, it.r.size)
    else Entry(k, 1, CStr(ShortName(it.s)), it.s[11], Clus(it.s), Size(it.s))
  }

  /** The records of the directory in order. */
  ghost function List(items: Items, k: int): seq<Entry>
  {
    match items
    case Nil => []
    case Cons(it, rest) => (if it.Hole? then [] else [EntryOf(it, k)]) + List(rest, k + it.Count())
  }

  datatype Match = NoMatch | First(e: Entry)

  /** The first record with this name. */
  ghost function FirstOf(items: Items, k: int, name: seq<byte>): Match
  {
    match items
    case Nil => NoMatch
    case Cons(it, rest) =>
      if !it.Hole? && EntryOf(it, k).name == name then First(EntryOf(it, k)) else FirstOf(rest, k + it.Count(), name)
  }

  ghost predicate AllHoles(items: Items)
  {
    items.Cons? ==> items.head.Hole? && AllHoles(items.tail)
  }

  /** The slot behind the last record: free slots behind it do not count. */
  ghost function Tail(items: Items, k: int): int
  {
    if AllHoles(items) then k else Tail(items.tail, k + items.head.Count())
  }

  /** What enext and dirlookup compare a record with: the entry they found. */
  ghost predicate Matches(f: Found, e: Entry)
  {
    f.File? && f.count == e.count && CStr(f.buf) == e.name && f.attr == e.attr && f.clus == e.clus && f.size == e.size
  }

  datatype Lookup = Absent(k: int) | Hit(k: int, f: Found) | Crash

  /** dirlookup's scan from slot k on.  Free slots come back from enext with an empty name,
      and are compared and skipped like a file. */
  function Look(slots: seq<Slot>, k: int, name: seq<byte>): Lookup
    requires 0 <= k
    decreases |slots| - k
  {
    var f := Enext(slots, k, 0, 0, Zeros(NAME_BUF));
    if k >= |slots| || f.End? then Absent(k)
    else if f.Fault? then Crash
    else if CStr(f.buf) == name then Hit(k, f)
    else Look(slots, k + f.count, name)
  }

  ghost function Leading(items: Items): (n: int)
    ensures n >= 0
  {
    if items.Nil? || !items.head.Hole? then 0 else 1 + Leading(items.tail)
  }

  /** The first slot of an item. */
  lemma FirstSlot(slots: seq<Slot>, k: int, it: Item)
    requires HeldAt(slots, k, it)
    ensures 0 <= k < |slots|
    ensures it.Hole? || it.Short? ==> slots[k] == it.s
    ensures slots[k][0] == EMPTY_ENTRY <==> it.Hole?
    ensures slots[k][0] != END_OF_ENTRY
  {
    assert slots[k] == slots[k..k + it.Count()][0] == it.Slots()[0];
    if it.Long? {
      var s := LongSlot(it.r, it.sum, it.r.Longs());
      assert s[0] == LongByte(it.r, it.sum, it.r.Longs(), 0);
      LongRunCons(it.r, it.sum, it.r.Longs());
    }
  }

  /** From slot k on the directory holds these items up to the last record; what comes behind
      that is left open. */
  ghost predicate Begins(slots: seq<Slot>, k: int, items: Items)
    decreases items
  {
    0 <= k && (!AllHoles(items) ==> HeldAt(slots, k, items.head) && Begins(slots, k + items.head.Count(), items.tail))
  }

  lemma {:induction false} HoldsBegins(slots: seq<Slot>, k: int, items: Items)
    requires Holds(slots, k, items)
    ensures Begins(slots, k, items)
    decreases items
  {
    hide HeldAt;
    if items.Cons? { HoldsBegins(slots, k + items.head.Count(), items.tail); }
  }

  /** enext skips free slots in front of a record, counts them and reports them. */
  lemma {:induction false} EnextGap(slots: seq<Slot>, k: int, items: Items, cnt: int, buf: seq<byte>)
    requires Begins(slots, k, items) && !AllHoles(items) && 0 <= cnt && |buf| == NAME_BUF && cnt + Leading(items) > 0
    ensures Enext(slots, k, cnt, 0, buf) == Empty(cnt + Leading(items), buf)
    decreases items
  {
    hide Item.Slots;
    FirstSlot(slots, k, items.head);
    if items.head.Hole? {
      EnextGap(slots, k + 1, items.tail, cnt + 1, buf);
    }
  }

  /** enext skips free slots, and reports them only if something follows. */
  lemma {:induction false} EnextHoles(slots: seq<Slot>, k: int, items: Items, cnt: int, buf: seq<byte>)
    requires Holds(slots, k, items) && 0 <= cnt && |buf| == NAME_BUF && cnt + Leading(items) > 0
    ensures Enext(slots, k, cnt, 0, buf) == if AllHoles(items) then End else Empty(cnt + Leading(items), buf)
    decreases items
  {
    hide Item.Slots;
    if !AllHoles(items) {
      HoldsBegins(slots, k, items);
      EnextGap(slots, k, items, cnt, buf);
    } else if items.Cons? {
      FirstSlot(slots, k, items.head);
      EnextHoles(slots, k + 1, items.tail, cnt + 1, buf);
    }
  }

  lemma EnextLong(slots: seq<Slot>, k: int, it: Item, buf: seq<byte>)
    requires HeldAt(slots, k, it) && it.Long? && Cleared(buf)
    ensures ReadsAs(Enext(slots, k, 0, 0, buf), it.r, it.r.Longs() + 1)
  {
    hide LongRun, Enext, ReadsAs, ShortSlot, Cleared;
    var n := it.r.Longs();
    assert slots[k..k + n] == slots[k..k + it.Count()][..n] == LongRun(it.r, it.sum, n);
    assert slots[k + n] == slots[k..k + it.Count()][n];
    RoundTrip(slots, k, it.r, it.sum, it.short, buf);
  }

  lemma EnextShort(slots: seq<Slot>, k: int, it: Item, buf: seq<byte>)
    requires HeldAt(slots, k, it) && it.Short? && Cleared(buf)
    ensures Matches(Enext(slots, k, 0, 0, buf), EntryOf(it, k))
  {
    FirstSlot(slots, k, it);
    CStrShort(ReadShort(buf, it.s), ShortName(it.s));
  }

  /** At the start of a record enext returns it. */
  lemma EnextRecord(slots: seq<Slot>, k: int, it: Item, buf: seq<byte>)
    requires HeldAt(slots, k, it) && !it.Hole? && Cleared(buf)
    ensures Matches(Enext(slots, k, 0, 0, buf), EntryOf(it, k))
  {
    hide Enext, CStr, HeldAt;
    if it.Long? { EnextLong(slots, k, it, buf); } else { EnextShort(slots, k, it, buf); }
  }

  /** A string stored in front of a zero reads back up to its own first zero. */
  lemma CStrShort(buf: seq<byte>, name: seq<byte>)
    requires |name| < |buf| && buf[..|name|] == name && buf[|name|] == 0
    ensures CStr(buf) == CStr(name)
  {
    if name != [] {
      assert buf[0] == name[0];
      if name[0] != 0 {
        assert buf[1..][..|name| - 1] == name[1..];
        CStrShort(buf[1..], name[1..]);
      }
    }
  }

  /** The scan ended at the first match, or behind the last record if there is none. */
  ghost predicate Agrees(l: Lookup, m: Match, tail: int)
  {
    if m.NoMatch? then l == Absent(tail) else l.Hit? && l.k == m.e.k && Matches(l.f, m.e)
  }

  /** dirlookup finds exactly the first record with the name, and otherwise ends behind the
      last record: free slots in between are never offered for a new name. */
  lemma {:induction false} LookFinds(slots: seq<Slot>, k: int, items: Items, name: seq<byte>)
    requires Holds(slots, k, items) && name != []
    ensures Agrees(Look(slots, k, name), FirstOf(items, k, name), Tail(items, k))
    decreases items
  {
    hide Matches, Agrees, Look, Enext, CStr, HeldAt;
    if AllHoles(items) {
      NoneFirst(items, k, name);
      LookEnd(slots, k, items, name);
    } else if items.head.Hole? {
      HoldsBegins(slots, k, items);
      LookHole(slots, k, items, name);
      LookFinds(slots, k + 1, items.tail, name);
    } else {
      LookRecord(slots, k, items.head, name, Tail(items, k));
      if EntryOf(items.head, k).name != name {
        LookFinds(slots, k + items.head.Count(), items.tail, name);
      }
    }
  }

  lemma LookEnd(slots: seq<Slot>, k: int, items: Items, name: seq<byte>)
    requires Holds(slots, k, items) && AllHoles(items)
    ensures Agrees(Look(slots, k, name), NoMatch, k)
  {
    if items.Cons? {
      EnextHoles(slots, k, items, 0, Zeros(NAME_BUF));
    }
  }

  lemma LookRecord(slots: seq<Slot>, k: int, it: Item, name: seq<byte>, tail: int)
    requires HeldAt(slots, k, it) && !it.Hole?
    ensures 0 <= k && if EntryOf(it, k).name == name then Agrees(Look(slots, k, name), First(EntryOf(it, k)), tail)
                      else Look(slots, k, name) == Look(slots, k + it.Count(), name)
  {
    hide Enext, CStr, HeldAt, Clus, Size, ShortName;
    EnextRecord(slots, k, it, Zeros(NAME_BUF));
    FirstSlot(slots, k, it);
  }

  /** A free slot in front of a record makes no difference to the scan. */
  lemma LookHole(slots: seq<Slot>, k: int, items: Items, name: seq<byte>)
    requires Begins(slots, k, items) && !AllHoles(items) && items.head.Hole? && name != []
    ensures Look(slots, k, name) == Look(slots, k + 1, name)
  {
    hide Enext, CStr, HeldAt, Look, Begins, Zeros;
    var buf := Zeros(NAME_BUF);
    NoName();
    BeginsTwo(slots, k, items);
    EnextGap(slots, k, items, 0, buf);
    LookStep(slots, k, name);
    if items.tail.head.Hole? {
      EnextGap(slots, k + 1, items.tail, 0, buf);
      LookStep(slots, k + 1, name);
    }
  }

  /** The scan for a name that none of the records has goes on behind the last of them. */
  lemma {:induction false} LookThrough(slots: seq<Slot>, k: int, items: Items, name: seq<byte>)
    requires Begins(slots, k, items) && name != [] && FirstOf(items, k, name).NoMatch?
    ensures Tail(items, k) >= 0 && Look(slots, k, name) == Look(slots, Tail(items, k), name)
    decreases items
  {
    hide Look, HeldAt;
    if !AllHoles(items) {
      if items.head.Hole? { LookHole(slots, k, items, name); } else { LookRecord(slots, k, items.head, name, 0); }
      LookThrough(slots, k + items.head.Count(), items.tail, name);
    }
  }

  /** Behind a record whose short name begins with 0xe5 no scan that starts at it finds anything. */
  lemma LookLost(slots: seq<Slot>, k: int, r: Record, sum: byte, short: seq<byte>, name: seq<byte>)
    requires Stands(slots, k, r, sum, short) && short[0] == EMPTY_ENTRY
    ensures !Look(slots, k, name).Hit?
  {
    hide LongRun, ReadLong, CStr, ReadShort;
    var n := r.Longs();
    var buf' := EnextRun(slots, k, r, sum, n, 0, Zeros(NAME_BUF));
    ShortSlotFields(short, r.attr, r.clus, r.size);
    NeverFile(slots, k + n + 1, 1, n + 1, buf');
  }

  lemma NoName()
    ensures CStr(Zeros(NAME_BUF)) == []
  {
  }

  lemma BeginsTwo(slots: seq<Slot>, k: int, items: Items)
    requires Begins(slots, k, items) && !AllHoles(items) && items.head.Hole?
    ensures items.tail.Cons? && !AllHoles(items.tail) && 0 <= k && k + 1 < |slots| && Begins(slots, k + 1, items.tail)
  {
    hide HeldAt;
    FirstSlot(slots, k, items.head);
    FirstSlot(slots, k + 1, items.tail.head);
  }

  /** One round of dirlookup's scan. */
  lemma LookStep(slots: seq<Slot>, k: int, name: seq<byte>)
    requires 0 <= k < |slots|
    ensures var f := Enext(slots, k, 0, 0, Zeros(NAME_BUF));
            Look(slots, k, name) == if f.End? then Absent(k) else if f.Fault? then Crash
                                    else if CStr(f.buf) == name then Hit(k, f) else Look(slots, k + f.count, name)
  {
    hide Enext, CStr;
  }

  lemma {:induction false} NoneFirst(items: Items, k: int, name: seq<byte>)
    requires AllHoles(items)
    ensures FirstOf(items, k, name) == NoMatch
    decreases items
  {
    if items.Cons? {
      NoneFirst(items.tail, k + 1, name);
    }
  }

  /** The first match is listed, and there is one exactly if the name is listed. */
  lemma {:induction false} FirstListed(items: Items, k: int, name: seq<byte>)
    ensures var l := List(items, k);
            match FirstOf(items, k, name)
            case NoMatch => forall e :: e in l ==> e.name != name
            case First(e) => e in l && e.name == name
    decreases items
  {
    hide EntryOf;
    if items.Cons? {
      FirstListed(items.tail, k + items.head.Count(), name);
    }
  }

  // ---- the whole scan ----

  /** Every file enext reports, called from slot k on until it reports the end. */
  function Scan(slots: seq<Slot>, k: int): seq<Entry>
    requires 0 <= k
    decreases |slots| - k
  {
    var f := Enext(slots, k, 0, 0, Zeros(NAME_BUF));
    if k >= |slots| || f.End? || f.Fault? then []
    else (if f.Empty? then [] else [Entry(k, f.count, CStr(f.buf), f.attr, f.clus, f.size)]) + Scan(slots, k + f.count)
  }

  /** The enext scan yields exactly the records of the directory. */
  lemma {:induction false} ScanLists(slots: seq<Slot>, k: int, items: Items)
    requires Holds(slots, k, items)
    ensures Scan(slots, k) == List(items, k)
    decreases items
  {
    hide Enext, CStr, HeldAt, Clus, Size, ShortName;
    if AllHoles(items) {
      NoneListed(items, k);
      if items.Cons? {
        EnextHoles(slots, k, items, 0, Zeros(NAME_BUF));
      } else {
        EnextEnd(slots, k, Zeros(NAME_BUF));
      }
    } else if items.head.Hole? {
      ScanHole(slots, k, items);
      ScanLists(slots, k + 1, items.tail);
    } else {
      EnextRecord(slots, k, items.head, Zeros(NAME_BUF));
      FirstSlot(slots, k, items.head);
      ScanLists(slots, k + items.head.Count(), items.tail);
    }
  }

  lemma EnextEnd(slots: seq<Slot>, k: int, buf: seq<byte>)
    requires Holds(slots, k, Nil) && |buf| == NAME_BUF
    ensures Enext(slots, k, 0, 0, buf) == End
  {
  }

  lemma HoldsTail(slots: seq<Slot>, k: int, items: Items)
    requires Holds(slots, k, items) && items.Cons?
    ensures Holds(slots, k + items.head.Count(), items.tail)
  {
  }

  lemma ScanHole(slots: seq<Slot>, k: int, items: Items)
    requires Holds(slots, k, items) && !AllHoles(items) && items.head.Hole?
    ensures Scan(slots, k) == Scan(slots, k + 1)
  {
    hide Enext, CStr, HeldAt, Holds;
    HoldsBegins(slots, k, items);
    BeginsTwo(slots, k, items);
    HoldsTail(slots, k, items);
    EnextHoles(slots, k, items, 0, Zeros(NAME_BUF));
    if items.tail.head.Hole? {
      EnextHoles(slots, k + 1, items.tail, 0, Zeros(NAME_BUF));
    }
  }

  lemma {:induction false} NoneListed(items: Items, k: int)
    requires AllHoles(items)
    ensures List(items, k) == []
    decreases items
  {
    if items.Cons? {
      NoneListed(items.tail, k + 1);
    }
  }
}
