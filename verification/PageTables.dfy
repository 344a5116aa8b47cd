/** Three-level Sv39 page tables (kernel/vm.c, section 4.4 of the RISC-V Privileged
    Architecture) over physical pages, and the flat map from virtual pages to entries
    that a table stands for. */
module PageTables {

  const PGSIZE := 4096
  const ENTRIES := 512
  const PTE_V := 1
  const PTE_R := 2
  const PTE_W := 4
  const PTE_X := 8
  const PTE_U := 16
  const MAXVPN := 0x400_0000        // MAXVA / PGSIZE
  const ALLVPN := 0x800_0000        // page numbers the nine bits of a level-2 index can reach
  const STACKINDEX := 251           // PX(2, VKSTACK): where a kernel table keeps its stack
  const NOPAGE := -1

  // ---- entries and indices ----

  /** PA2PTE(pa) | flags for the page at pa == PGSIZE * ppn. */
  function Word(ppn: int, flags: int): int { ppn * 1024 + flags }

  /** PTE2PA(e) / PGSIZE */
  function Ppn(e: int): int { e / 1024 }

  function Flags(e: int): int { e % 1024 }

  function IsValid(e: int): bool { e % 2 == 1 }

  /** One of R, W and X is set. */
  function IsLeaf(e: int): bool { e / 2 % 8 != 0 }

  function IsUser(e: int): bool { e / 16 % 2 == 1 }

  /** PX(level, va) for the page number v of va. */
  function PX(level: int, v: int): int
  {
    if level == 2 then v / 0x4_0000 % ENTRIES else if level == 1 then v / 0x200 % ENTRIES else v % ENTRIES
  }

  /** The index macro applied to a whole address gives the index of its page number. */
  lemma IndexOfAddress(va: int)
    requires 0 <= va
    ensures va / 0x1000 % 0x200 == PX(0, va / PGSIZE)
    ensures va / 0x20_0000 % 0x200 == PX(1, va / PGSIZE)
    ensures va / 0x4000_0000 % 0x200 == PX(2, va / PGSIZE)
  {
    var v, r := va / PGSIZE, va % PGSIZE;
    assert va / 0x20_0000 == v / 0x200 by {
      var a, b := v / 0x200, v % 0x200;
      assert va == 0x20_0000 * a + (PGSIZE * b + r) && 0 <= PGSIZE * b + r < 0x20_0000;
    }
    assert va / 0x4000_0000 == v / 0x4_0000 by {
      var a, b := v / 0x4_0000, v % 0x4_0000;
      assert va == 0x4000_0000 * a + (PGSIZE * b + r) && 0 <= PGSIZE * b + r < 0x4000_0000;
    }
  }

  /** PA2PTE and PTE2PA on whole addresses, and the flags by their bits. */
  lemma EntryOfAddress(pa: int, flags: int)
    requires 0 <= pa && pa % 0x1000 == 0 && 0 <= flags < 0x400
    ensures Word(pa / PGSIZE, flags) == pa / 0x1000 * 0x400 + flags
    ensures Ppn(Word(pa / PGSIZE, flags)) * PGSIZE == pa && Flags(Word(pa / PGSIZE, flags)) == flags
    ensures IsValid(flags) <==> flags / PTE_V % 2 == 1
    ensures IsLeaf(flags) <==> flags / PTE_R % 2 == 1 || flags / PTE_W % 2 == 1 || flags / PTE_X % 2 == 1
    ensures IsUser(flags) <==> flags / PTE_U % 2 == 1
  {
    hide Word, Ppn, Flags, IsValid, IsLeaf, IsUser;
    EntryParts(pa / PGSIZE, flags);
    WordValue(pa / PGSIZE, flags);
    FlagBits(flags);
  }

  lemma WordValue(ppn: int, flags: int)
    ensures Word(ppn, flags) == ppn * 0x400 + flags
  {
  }

  lemma FlagBits(flags: int)
    requires 0 <= flags
    ensures IsValid(flags) <==> flags / PTE_V % 2 == 1
    ensures IsLeaf(flags) <==> flags / PTE_R % 2 == 1 || flags / PTE_W % 2 == 1 || flags / PTE_X % 2 == 1
    ensures IsUser(flags) <==> flags / PTE_U % 2 == 1
  {
    var h := flags / 2;
    assert flags / 4 == h / 2 && flags / 8 == h / 4;
    assert h == 8 * (h / 8) + h % 8 && h % 8 == h % 2 + 2 * (h / 2 % 2) + 4 * (h / 4 % 2);
  }

  /** PX is injective on page numbers. */
  lemma IndexInjective(v: int, w: int)
    requires 0 <= v < ALLVPN && 0 <= w < ALLVPN
    requires PX(2, v) == PX(2, w) && PX(1, v) == PX(1, w) && PX(0, v) == PX(0, w)
    ensures v == w
  {
    IndexSum(v);
    IndexSum(w);
    hide PX;
  }

  /** The three indices are the digits of the page number. */
  lemma IndexSum(v: int)
    requires 0 <= v < ALLVPN
    ensures v == PX(2, v) * 0x4_0000 + PX(1, v) * 0x200 + PX(0, v)
  {
    var a, b := v / 0x200, v % 0x200;
    var c, d := a / 0x200, a % 0x200;
    assert v == 0x4_0000 * c + (0x200 * d + b) && 0 <= 0x200 * d + b < 0x4_0000;
    assert v / 0x4_0000 == c < 0x200;
  }

  lemma By2(m: int, x: int)
    ensures (m * 2 + x) % 2 == x % 2 && (m * 2 + x) / 2 == m + x / 2
  {
  }

  lemma By8(m: int, x: int)
    ensures (m * 8 + x) % 8 == x % 8
  {
  }

  lemma By16(m: int, x: int)
    ensures (m * 16 + x) / 16 == m + x / 16
  {
  }

  lemma By1024(m: int, x: int)
    ensures (m * 1024 + x) % 1024 == x % 1024 && (m * 1024 + x) / 1024 == m + x / 1024
  {
  }

  lemma WordPage(ppn: int, flags: int)
    requires 0 <= ppn && 0 <= flags < 1024
    ensures Ppn(Word(ppn, flags)) == ppn && Flags(Word(ppn, flags)) == flags && Word(ppn, flags) >= 0
  {
    By1024(ppn, flags);
  }

  lemma WordBits(ppn: int, flags: int)
    ensures IsValid(Word(ppn, flags)) == IsValid(flags)
    ensures IsLeaf(Word(ppn, flags)) == IsLeaf(flags)
    ensures IsUser(Word(ppn, flags)) == IsUser(flags)
  {
    By2(ppn * 512, flags);
    By8(ppn * 64, flags / 2);
    By16(ppn * 64, flags);
    By2(ppn * 32, flags / 16);
  }

  /** PTE2PA undoes PA2PTE whatever the flags. */
  lemma EntryParts(ppn: int, flags: int)
    requires 0 <= ppn && 0 <= flags < 1024
    ensures Ppn(Word(ppn, flags)) == ppn && Flags(Word(ppn, flags)) == flags && Word(ppn, flags) >= 0
    ensures IsValid(Word(ppn, flags)) == IsValid(flags)
    ensures IsLeaf(Word(ppn, flags)) == IsLeaf(flags)
    ensures IsUser(Word(ppn, flags)) == IsUser(flags)
  {
    hide *;
    WordPage(ppn, flags);
    WordBits(ppn, flags);
  }

  /** perm | PTE_V */
  function WithValid(perm: int): int { if perm % 2 == 1 then perm else perm + 1 }

  lemma ValidBit(perm: int)
    ensures IsValid(WithValid(perm)) && WithValid(perm) / 2 == perm / 2
  {
  }

  /** e & ~PTE_U, for a whole entry or for its flags. */
  function NoUser(e: int): int { if IsUser(e) then e - PTE_U else e }

  /** Clearing PTE_U keeps the page and every other flag. */
  lemma NoUserParts(e: int)
    requires 0 <= e
    ensures Ppn(NoUser(e)) == Ppn(e) && IsValid(NoUser(e)) == IsValid(e) && IsLeaf(NoUser(e)) == IsLeaf(e)
    ensures !IsUser(NoUser(e)) && 0 <= NoUser(e) && (e != 0 && IsValid(e) ==> NoUser(e) != 0)
  {
    if IsUser(e) {
      SamePage(e);
      By2(-8, e);
      By8(-1, e / 2);
      By16(-1, e);
      By2(-1, e / 16 + 1);
      hide Ppn;
    }
  }

  lemma SamePage(e: int)
    requires 0 <= e && IsUser(e)
    ensures Ppn(e - PTE_U) == Ppn(e) && 16 <= e
  {
    var q, r := e / 1024, e % 1024;
    assert e / 16 == 64 * q + r / 16;
    assert 16 <= r;
    assert e - 16 == 1024 * q + (r - 16);
  }

  lemma NoUserWord(ppn: int, flags: int)
    requires 0 <= ppn && 0 <= flags < 1024
    ensures NoUser(Word(ppn, flags)) == Word(ppn, NoUser(flags)) && 0 <= NoUser(flags) < 1024
  {
    EntryParts(ppn, flags);
  }

  // ---- tables in physical memory ----

  /** What a physical page is for.  Root is the top page of a tree of tables: own are the
      entries that belong to the tree; the others point into tables shared with the kernel,
      and shared says what some of them hold.
      A whole page table has a Root of level 2; a subtree being taken down a lower one.
      Frame(t, v) holds the memory of page v of table t, and goes when that mapping goes.
      Other is any page some running code or structure holds by its address. */
  datatype Role =
    | Free
    | Root(level: int, own: set<int>, shared: map<int, int>)
    | Sub(level: int, parent: int, idx: int)
    | Frame(table: int, v: int)
    | Other

  type Memory = map<int, seq<int>>
  type Roles = map<int, Role>

  function Level(r: Role): int
  {
    match r
    case Root(level, _, _) => level
    case Sub(level, _, _) => level
    case _ => -1
  }

  predicate IsEntry(i: int) { 0 <= i < ENTRIES }

  function AllEntries(): set<int> { set i | 0 <= i < ENTRIES && IsEntry(i) }

  /** Entry i of table page p is its own (not one shared with other tables). */
  ghost predicate Owns(role: Roles, p: int, i: int)
  {
    p in role && 0 <= Level(role[p]) && 0 <= i < ENTRIES && (role[p].Root? ==> i in role[p].own)
  }

  ghost predicate PageAt(mem: Memory, role: Roles, p: int)
  {
    p in role ==>
      && 0 < p && p in mem && |mem[p]| == ENTRIES
      && (role[p].Root? ==> 0 <= role[p].level <= 2)
      && (role[p].Sub? ==>
            && 0 <= role[p].level <= 1
            && Owns(role, role[p].parent, role[p].idx) && Level(role[role[p].parent]) == role[p].level + 1
            && Entry(mem, role[p].parent, role[p].idx) == Word(p, PTE_V))
  }

  ghost predicate SlotAt(mem: Memory, role: Roles, p: int, i: int)
  {
    && (p in role && role[p].Root? && i in role[p].shared ==>
          0 <= i < ENTRIES && i !in role[p].own && Entry(mem, p, i) == role[p].shared[i])
    && (Owns(role, p, i) ==>
          var e := Entry(mem, p, i);
          e == 0 ||
          (&& e > 0 && IsValid(e)
           && (Level(role[p]) > 0 ==> e == Word(Ppn(e), PTE_V) && Ppn(e) in role && role[Ppn(e)] == Sub(Level(role[p]) - 1, p, i))
           && (Level(role[p]) == 0 ==> IsLeaf(e))))
  }

  /** The table pages form disjoint trees: each page below a root hangs from exactly the
      entry its role names, and every owned entry is empty, or points to such a page, or (at
      the bottom) is a leaf.  Shared entries hold what they are said to hold. */
  ghost predicate Trees(mem: Memory, role: Roles)
  {
    && (forall p {:trigger PageAt(mem, role, p)} :: PageAt(mem, role, p))
    && (forall p, i {:trigger SlotAt(mem, role, p, i)} :: SlotAt(mem, role, p, i))
  }

  /** The page number v can be translated through entries the table at t owns. */
  ghost predicate InTable(role: Roles, t: int, v: int)
  {
    t in role && role[t].Root? && role[t].level == 2 && 0 <= v < ALLVPN && PX(2, v) in role[t].own
  }

  function Entry(mem: Memory, p: int, i: int): int
  {
    if p in mem && 0 <= i < |mem[p]| then mem[p][i] else 0
  }

  /** The page an entry of a table page points to. */
  function Next(mem: Memory, p: int, i: int): int
  {
    var e := Entry(mem, p, i);
    if IsValid(e) then Ppn(e) else NOPAGE
  }

  /** The bottom-level table page for v, or NOPAGE. */
  function Low(mem: Memory, t: int, v: int): int
  {
    var m := Next(mem, t, PX(2, v));
    if m == NOPAGE then NOPAGE else Next(mem, m, PX(1, v))
  }

  /** The flat map: the entry for page number v, 0 if there is none. */
  function Pte(mem: Memory, t: int, v: int): int
  {
    var l := Low(mem, t, v);
    if l == NOPAGE then 0 else Entry(mem, l, PX(0, v))
  }

  /** The indices are in range. */
  lemma IndexRange(v: int)
    requires 0 <= v
    ensures 0 <= PX(0, v) < ENTRIES && 0 <= PX(1, v) < ENTRIES && 0 <= PX(2, v) < ENTRIES
  {
  }

  /** Going down one level stays inside the tree. */
  lemma Down(mem: Memory, role: Roles, p: int, i: int)
    requires Trees(mem, role) && Owns(role, p, i) && Level(role[p]) > 0
    ensures p in mem && |mem[p]| == ENTRIES
    ensures var n := Next(mem, p, i);
            if n == NOPAGE then Entry(mem, p, i) == 0 else n in role && role[n] == Sub(Level(role[p]) - 1, p, i) && n > 0
  {
    assert PageAt(mem, role, p) && SlotAt(mem, role, p, i);
    assert PageAt(mem, role, Ppn(Entry(mem, p, i)));
  }

  /** Where the bottom page of v hangs: its roles give back the table and the upper indices. */
  lemma LowPlace(mem: Memory, role: Roles, t: int, v: int)
    requires Trees(mem, role) && InTable(role, t, v)
    ensures var l := Low(mem, t, v);
            l != NOPAGE ==>
              && l in role && role[l].Sub? && role[l].level == 0 && role[l].idx == PX(1, v)
              && role[l].parent in role && role[role[l].parent] == Sub(1, t, PX(2, v)) && l in mem && |mem[l]| == ENTRIES
  {
    IndexRange(v);
    hide IsValid, Ppn, IsLeaf, Word, PX;
    Down(mem, role, t, PX(2, v));
    var m := Next(mem, t, PX(2, v));
    if m != NOPAGE {
      Down(mem, role, m, PX(1, v));
      var l := Next(mem, m, PX(1, v));
      if l != NOPAGE { assert PageAt(mem, role, l); }
    }
  }

  /** Conversely, a bottom page hanging there is the one found. */
  lemma LowFound(mem: Memory, role: Roles, t: int, v: int, l: int)
    requires Trees(mem, role) && InTable(role, t, v)
    requires l in role && role[l].Sub? && role[l].level == 0 && role[l].idx == PX(1, v)
    requires role[l].parent in role && role[role[l].parent] == Sub(1, t, PX(2, v))
    ensures Low(mem, t, v) == l
  {
    var m := role[l].parent;
    assert PageAt(mem, role, l) && PageAt(mem, role, m);
    EntryParts(l, PTE_V);
    EntryParts(m, PTE_V);
    hide PX, Word, Ppn;
  }

  /** An entry that is there is a valid leaf. */
  lemma LeafFound(mem: Memory, role: Roles, t: int, v: int)
    requires Trees(mem, role) && InTable(role, t, v)
    ensures var e := Pte(mem, t, v); e == 0 || (e > 0 && IsValid(e) && IsLeaf(e) && Flags(e) != PTE_V)
  {
    LowPlace(mem, role, t, v);
    IndexRange(v);
    var l := Low(mem, t, v);
    if l != NOPAGE { assert SlotAt(mem, role, l, PX(0, v)); }
    hide PX, Low;
  }

  /** Every table translates as before. */
  ghost predicate SameMaps(mem: Memory, mem': Memory, role: Roles)
  {
    forall t, v {:trigger Pte(mem', t, v)} :: InTable(role, t, v) ==> Pte(mem', t, v) == Pte(mem, t, v)
  }

  /** Table t translates v to e now, and everything else is as before. */
  ghost predicate MapSet(mem: Memory, mem': Memory, role: Roles, t: int, v: int, e: int)
  {
    forall u, w {:trigger Pte(mem', u, w)} :: InTable(role, u, w) ==>
      Pte(mem', u, w) == if u == t && w == v then e else Pte(mem, u, w)
  }

  /** Changing only bottom-level pages moves no bottom-level page. */
  lemma SameLow(mem: Memory, mem': Memory, role: Roles, u: int, w: int)
    requires Trees(mem, role) && InTable(role, u, w)
    requires forall p :: p in role && Level(role[p]) > 0 ==> p in mem && p in mem' && mem'[p] == mem[p]
    ensures Low(mem', u, w) == Low(mem, u, w)
  {
    IndexRange(w);
    hide IsValid, Ppn, IsLeaf, Word, PX;
    Down(mem, role, u, PX(2, w));
    var m := Next(mem, u, PX(2, w));
    if m != NOPAGE {
      Down(mem, role, m, PX(1, w));
    }
  }

  /** Writing a bottom-level entry changes the translation of one page of one table. */
  lemma WriteLow(mem: Memory, role: Roles, t: int, v: int, e: int)
    requires Trees(mem, role) && InTable(role, t, v) && Low(mem, t, v) != NOPAGE
    requires e == 0 || (e > 0 && IsValid(e) && IsLeaf(e))
    ensures var l := Low(mem, t, v);
            0 <= PX(0, v) < ENTRIES && l in mem && |mem[l]| == ENTRIES &&
            var mem' := mem[l := mem[l][PX(0, v) := e]];
            Trees(mem', role) && MapSet(mem, mem', role, t, v, e) && Low(mem', t, v) == l
  {
    var l := Low(mem, t, v);
    LowPlace(mem, role, t, v);
    IndexRange(v);
    var mem' := mem[l := mem[l][PX(0, v) := e]];
    hide IsValid, IsLeaf, Ppn, Word, PX;
    forall p ensures PageAt(mem', role, p) {
      assert PageAt(mem, role, p);
      if p in role && role[p].Sub? { assert PageAt(mem, role, role[p].parent); }
    }
    forall p, i ensures SlotAt(mem', role, p, i) {
      assert SlotAt(mem, role, p, i);
      assert PageAt(mem, role, p);
    }
    forall u, w | InTable(role, u, w)
      ensures Low(mem', u, w) == Low(mem, u, w)
      ensures Pte(mem', u, w) == if u == t && w == v then e else Pte(mem, u, w)
    {
      forall p | p in role && Level(role[p]) > 0 ensures p in mem && mem'[p] == mem[p] { assert PageAt(mem, role, p); }
      SameLow(mem, mem', role, u, w);
      LowPlace(mem, role, u, w);
      if Low(mem, u, w) == l && PX(0, w) == PX(0, v) {
        IndexInjective(v, w);
      }
    }
  }

  // ---- pages changing hands ----

  /** A page that is in no tree may hold anything. */
  lemma Scratch(mem: Memory, role: Roles, q: int, words: seq<int>)
    requires Trees(mem, role) && q in role && Level(role[q]) < 0 && |words| == ENTRIES
    ensures Trees(mem[q := words], role) && SameMaps(mem, mem[q := words], role)
  {
    var mem' := mem[q := words];
    hide IsValid, IsLeaf, Ppn, Word, PX;
    forall p ensures PageAt(mem', role, p) {
      assert PageAt(mem, role, p);
    }
    forall p, i ensures SlotAt(mem', role, p, i) {
      assert SlotAt(mem, role, p, i) && PageAt(mem, role, p);
    }
    forall u, w | InTable(role, u, w) ensures Pte(mem', u, w) == Pte(mem, u, w) {
      forall p | p in role && Level(role[p]) > 0 ensures p in mem && mem'[p] == mem[p] { assert PageAt(mem, role, p); }
      SameLow(mem, mem', role, u, w);
      LowPlace(mem, role, u, w);
    }
  }

  /** A page outside the trees may be given any other use outside the trees. */
  lemma Recast(mem: Memory, role: Roles, q: int, r: Role)
    requires Trees(mem, role) && q in role && Level(role[q]) < 0 && Level(r) < 0
    requires !r.Root? && !r.Sub?
    ensures Trees(mem, role[q := r])
  {
    var role' := role[q := r];
    hide IsValid, IsLeaf, Ppn, Word;
    assert forall p, i :: Owns(role', p, i) == Owns(role, p, i);
    forall p ensures PageAt(mem, role', p) {
      assert PageAt(mem, role, p);
      assert !role[q].Root? && !role[q].Sub? by { assert PageAt(mem, role, q); }
    }
    forall p, i ensures SlotAt(mem, role', p, i) {
      assert SlotAt(mem, role, p, i);
    }
  }

  lemma PointerWord(q: int)
    requires 0 < q
    ensures Ppn(Word(q, PTE_V)) == q && IsValid(Word(q, PTE_V)) && Word(q, PTE_V) > 0 && !IsValid(0)
  {
    EntryParts(q, PTE_V);
  }

  /** Hanging a zeroed page below an empty entry adds a table and changes no translation. */
  lemma AddTable(mem: Memory, role: Roles, p: int, i: int, q: int)
    requires Trees(mem, role) && Owns(role, p, i) && Level(role[p]) > 0 && Entry(mem, p, i) == 0
    requires q in role && role[q].Other? && q in mem && mem[q] == Zeros()
    ensures p in mem && |mem[p]| == ENTRIES && q > 0
    ensures var mem' := mem[p := mem[p][i := Word(q, PTE_V)]];
            var role' := role[q := Sub(Level(role[p]) - 1, p, i)];
            Trees(mem', role') && SameMaps(mem, mem', role) && Next(mem', p, i) == q
  {
    assert PageAt(mem, role, p) && PageAt(mem, role, q);
    var mem' := mem[p := mem[p][i := Word(q, PTE_V)]];
    var role' := role[q := Sub(Level(role[p]) - 1, p, i)];
    assert q > 0;
    PointerWord(q);
    hide IsValid, IsLeaf, IsUser, Ppn, Flags, Word, PX;
    forall a ensures PageAt(mem', role', a) {
      assert PageAt(mem, role, a);
      if a in role && role[a].Sub? {
        var up := role[a].parent;
        assert PageAt(mem, role, up);
        if up == p && role[a].idx == i { PointerWord(a); assert false; }
        assert Owns(role', up, role[a].idx);
      }
    }
    forall a, j ensures SlotAt(mem', role', a, j) {
      assert SlotAt(mem, role, a, j);
      assert PageAt(mem, role, a);
      if a == q { assert Entry(mem', q, j) == 0; }
    }
    forall u, w | InTable(role, u, w) ensures Pte(mem', u, w) == Pte(mem, u, w) {
      AddedMap(mem, mem', role, p, i, q, u, w);
    }
  }

  lemma AddedMap(mem: Memory, mem': Memory, role: Roles, p: int, i: int, q: int, u: int, w: int)
    requires Trees(mem, role) && Owns(role, p, i) && Level(role[p]) > 0 && Entry(mem, p, i) == 0 && InTable(role, u, w)
    requires q in role && role[q].Other? && q in mem && mem[q] == Zeros() && p in mem && |mem[p]| == ENTRIES
    requires mem' == mem[p := mem[p][i := Word(q, PTE_V)]]
    ensures Pte(mem', u, w) == Pte(mem, u, w)
  {
    EntryParts(q, PTE_V);
    IndexRange(w);
    assert IsValid(PTE_V) && !IsValid(0) && q > 0 by { assert PageAt(mem, role, q); }
    assert forall j :: Entry(mem', q, j) == 0;
    hide IsValid, IsLeaf, IsUser, Ppn, Flags, Word, PX;
    Down(mem, role, u, PX(2, w));
    var m := Next(mem, u, PX(2, w));
    if m != NOPAGE {
      Down(mem, role, m, PX(1, w));
      assert Next(mem', u, PX(2, w)) == m;
      var l := Next(mem, m, PX(1, w));
      if l != NOPAGE { assert Next(mem', m, PX(1, w)) == l; }
    }
  }

  function Zeros(): seq<int> { seq(ENTRIES, i => 0) }

  /** A subtree may be cut off: its top becomes a root, the entry above it is given up. */
  lemma Detach(mem: Memory, role: Roles, p: int, i: int)
    requires Trees(mem, role) && p in role && role[p].Root? && i in role[p].own && 0 <= i < ENTRIES
    requires role[p].level > 0 && Entry(mem, p, i) != 0
    ensures var c := Next(mem, p, i);
            && c in role && role[c] == Sub(role[p].level - 1, p, i) && c != p
            && Trees(mem, role[c := Root(role[p].level - 1, AllEntries(), map[])][p := Root(role[p].level, role[p].own - {i}, role[p].shared)])
  {
    Down(mem, role, p, i);
    var c := Next(mem, p, i);
    var role' := role[c := Root(role[p].level - 1, AllEntries(), map[])][p := Root(role[p].level, role[p].own - {i}, role[p].shared)];
    hide IsLeaf, IsUser, Flags, PX;
    forall a ensures PageAt(mem, role', a) {
      assert PageAt(mem, role, a);
      if a in role && role[a].Sub? {
        if role[a].parent == p && role[a].idx == i { EntryParts(a, PTE_V); assert a == c; }
        assert IsEntry(role[a].idx);
      }
    }
    forall a, j ensures SlotAt(mem, role', a, j) {
      assert SlotAt(mem, role, a, j);
    }
  }

  /** An entry a root does not own may be overwritten. */
  lemma Unowned(mem: Memory, role: Roles, p: int, i: int, e: int)
    requires Trees(mem, role) && p in role && role[p].Root? && i !in role[p].own && 0 <= i < ENTRIES
    requires i !in role[p].shared
    ensures p in mem && |mem[p]| == ENTRIES
    ensures Trees(mem[p := mem[p][i := e]], role) && SameMaps(mem, mem[p := mem[p][i := e]], role)
  {
    assert PageAt(mem, role, p);
    var mem' := mem[p := mem[p][i := e]];
    hide IsValid, IsLeaf, Ppn, Word, PX;
    forall a ensures PageAt(mem', role, a) {
      assert PageAt(mem, role, a);
      if a in role && role[a].Sub? { assert PageAt(mem, role, role[a].parent); }
    }
    forall a, j ensures SlotAt(mem', role, a, j) {
      assert SlotAt(mem, role, a, j);
      assert PageAt(mem, role, a);
    }
    forall u, w | InTable(role, u, w) ensures Pte(mem', u, w) == Pte(mem, u, w) {
      IndexRange(w);
      Down(mem, role, u, PX(2, w));
      var m := Next(mem, u, PX(2, w));
      if m != NOPAGE { Down(mem, role, m, PX(1, w)); }
    }
  }

  /** A root whose owned entries are all empty, or at the bottom, is no table any more. */
  lemma Retire(mem: Memory, role: Roles, p: int, r: Role)
    requires Trees(mem, role) && p in role && role[p].Root? && !r.Root? && !r.Sub?
    requires forall i :: i in role[p].own ==> role[p].level == 0 || Entry(mem, p, i) == 0
    ensures Trees(mem, role[p := r])
  {
    var role' := role[p := r];
    hide IsLeaf, IsUser, Ppn, Flags, PX;
    forall a ensures PageAt(mem, role', a) {
      assert PageAt(mem, role, a);
      if a in role && role[a].Sub? && role[a].parent == p { EntryParts(a, PTE_V); assert false; }
    }
    forall a, j ensures SlotAt(mem, role', a, j) {
      assert SlotAt(mem, role, a, j);
    }
  }

  /** The subtree below entry i passes from one top-level page to another that has the same entry. */
  lemma Inherit(mem: Memory, role: Roles, p: int, q: int, i: int)
    requires Trees(mem, role) && p in role && role[p].Root? && i in role[p].own && 0 <= i < ENTRIES && role[p].level > 0
    requires q in role && role[q].Root? && i !in role[q].own && role[q].level == role[p].level && q != p
    requires Entry(mem, p, i) != 0 && Entry(mem, q, i) == Entry(mem, p, i)
    ensures var c := Next(mem, p, i);
            c in role && role[c] == Sub(role[p].level - 1, p, i) && c != p && c != q &&
            Trees(mem, Inherited(role, p, q, i, c))
  {
    Down(mem, role, p, i);
    var c := Next(mem, p, i);
    var role' := Inherited(role, p, q, i, c);
    hide IsLeaf, IsUser, Flags, PX;
    forall a ensures PageAt(mem, role', a) {
      assert PageAt(mem, role, a);
      if a in role && role[a].Sub? {
        if role[a].parent == p && role[a].idx == i { EntryParts(a, PTE_V); assert a == c; }
      }
    }
    forall a, j ensures SlotAt(mem, role', a, j) {
      assert SlotAt(mem, role, a, j);
      if a == q && j == i { assert SlotAt(mem, role, p, i); }
    }
  }

  ghost function Inherited(role: Roles, p: int, q: int, i: int, c: int): Roles
    requires p in role && role[p].Root? && q in role && role[q].Root?
  {
    role[c := Sub(role[p].level - 1, q, i)]
        [p := Root(role[p].level, role[p].own - {i}, role[p].shared)][q := Root(role[q].level, role[q].own + {i}, role[q].shared - {i})]
  }
}
