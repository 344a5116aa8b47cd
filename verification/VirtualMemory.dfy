/** Physical page allocation and the page-table operations of the kernel (kernel/kalloc.c,
    kernel/vm.c).  Addresses are kept as page numbers wherever the code keeps them aligned. */
module VirtualMemory {
  import opened PageTables

  const FIRSTPAGE := 0x8_0020        // KERNBASE / PGSIZE: no free page lies below
  const STOPPAGE := 0x8_0600         // PHYSTOP / PGSIZE
  const USERPAGES := 0x8_0000        // MAXUVA / PGSIZE

  type Bytes = map<int, seq<int>>

  // ---- invariants, over values ----

  ghost predicate FrameAt(mem: Memory, role: Roles, p: int)
  {
    p in role && role[p].Frame? ==>
      InTable(role, role[p].table, role[p].v) &&
      var e := Pte(mem, role[p].table, role[p].v); e != 0 && Ppn(e) == p
  }

  /** A page that holds user memory is mapped where its role says. */
  ghost predicate Frames(mem: Memory, role: Roles)
  {
    forall p {:trigger FrameAt(mem, role, p)} :: FrameAt(mem, role, p)
  }

  /** The free list starting at head is exactly the sequence free. */
  ghost predicate Chain(next: map<int, int>, head: int, free: seq<int>)
    decreases free
  {
    if free == [] then head == 0
    else head == free[0] && head in next && Chain(next, next[head], free[1..])
  }

  ghost predicate FreeAt(free: seq<int>, role: Roles, p: int)
  {
    (p in free <==> p in role && role[p].Free?) && (p in role ==> FIRSTPAGE <= p < STOPPAGE)
  }

  ghost predicate Distinct(free: seq<int>)
  {
    forall i, j :: 0 <= i < j < |free| ==> free[i] != free[j]
  }

  /** The free list holds each free page once, and nothing else. */
  ghost predicate Pool(next: map<int, int>, head: int, npage: int, free: seq<int>, role: Roles)
  {
    && Chain(next, head, free) && Distinct(free) && npage == |free|
    && (forall p {:trigger FreeAt(free, role, p)} :: FreeAt(free, role, p))
  }

  ghost predicate Sized(data: Bytes, role: Roles)
  {
    forall p {:trigger p in role} :: p in role ==> p in data && |data[p]| == PGSIZE
  }

  lemma ChainKept(next: map<int, int>, head: int, free: seq<int>, p: int, x: int)
    requires Chain(next, head, free) && p !in free
    ensures Chain(next[p := x], head, free)
    decreases free
  {
    if free != [] {
      ChainKept(next, next[head], free[1..], p, x);
    }
  }

  lemma Pushed(next: map<int, int>, head: int, npage: int, free: seq<int>, role: Roles, p: int)
    requires Pool(next, head, npage, free, role) && p in role && !role[p].Free?
    ensures Pool(next[p := head], p, npage + 1, [p] + free, role[p := Free]) && FIRSTPAGE <= p < STOPPAGE
  {
    assert FreeAt(free, role, p);
    ChainKept(next, head, free, p, head);
    assert ([p] + free)[1..] == free;
    var free', role' := [p] + free, role[p := Free];
    forall q ensures FreeAt(free', role', q) {
      assert FreeAt(free, role, q);
    }
  }

  lemma Popped(next: map<int, int>, head: int, npage: int, free: seq<int>, role: Roles)
    requires Pool(next, head, npage, free, role) && head != 0
    ensures free != [] && head == free[0] && head in next && head in role && role[head].Free?
    ensures Pool(next, next[head], npage - 1, free[1..], role[head := Other])
  {
    assert head in free;
    assert FreeAt(free, role, head);
    var free', role' := free[1..], role[head := Other];
    forall q ensures FreeAt(free', role', q) {
      assert FreeAt(free, role, q);
      assert q in free <==> q == head || q in free[1..];
    }
  }

  lemma HeadZero(next: map<int, int>, head: int, npage: int, free: seq<int>, role: Roles)
    requires Pool(next, head, npage, free, role)
    ensures head == 0 <==> free == []
  {
    if free != [] {
      assert free[0] in free;
      assert FreeAt(free, role, head);
    }
  }

  /** Giving a page that is not free another role leaves the pool alone. */
  lemma PoolKept(next: map<int, int>, head: int, npage: int, free: seq<int>, role: Roles, p: int, r: Role)
    requires Pool(next, head, npage, free, role) && p in role && !role[p].Free? && !r.Free?
    ensures Pool(next, head, npage, free, role[p := r])
  {
    var role' := role[p := r];
    forall q ensures FreeAt(free, role', q) {
      assert FreeAt(free, role, q);
    }
  }

  // ---- what a step may do to roles, maps and bytes ----

  ghost predicate KeptAt(role: Roles, role': Roles, p: int)
  {
    (p in role <==> p in role') && (p in role ==> role'[p] == role[p] || (role[p].Free? && role'[p].Sub?))
  }

  /** No page changes hands, except free pages that become table pages of existing tables. */
  ghost predicate Kept(role: Roles, role': Roles)
  {
    forall p {:trigger KeptAt(role, role', p)} :: KeptAt(role, role', p)
  }

  lemma KeptTrans(a: Roles, b: Roles, c: Roles)
    requires Kept(a, b) && Kept(b, c)
    ensures Kept(a, c)
  {
    forall p ensures KeptAt(a, c, p) {
      assert KeptAt(a, b, p) && KeptAt(b, c, p);
    }
  }

  lemma KeptTables(role: Roles, role': Roles, t: int, v: int)
    requires Kept(role, role')
    ensures InTable(role, t, v) <==> InTable(role', t, v)
  {
    assert KeptAt(role, role', t);
    hide PX;
  }

  /** Tables of role are tables of role'. */
  ghost predicate RootsIn(role: Roles, role': Roles)
  {
    forall u :: u in role && role[u].Root? ==> u in role' && role'[u] == role[u]
  }

  lemma KeptRoots(role: Roles, role': Roles)
    requires Kept(role, role')
    ensures RootsIn(role, role')
  {
    forall u | u in role && role[u].Root? ensures u in role' && role'[u] == role[u] {
      assert KeptAt(role, role', u);
    }
  }

  lemma MapsTrans(a: Memory, b: Memory, c: Memory, role: Roles, role1: Roles, role2: Roles)
    requires SameMaps(a, b, role1) && SameMaps(b, c, role2) && RootsIn(role, role1) && RootsIn(role, role2)
    ensures SameMaps(a, c, role)
  {
    hide Pte, PX;
    forall t, v | InTable(role, t, v) ensures Pte(c, t, v) == Pte(a, t, v) {
      assert InTable(role1, t, v) && InTable(role2, t, v);
      assert Pte(b, t, v) == Pte(a, t, v);
    }
  }

  ghost predicate BuiltAt(t: int, kt: int, role: Roles, role': Roles, p: int)
  {
    p in role ==>
      && p in role' && (Level(role[p]) >= 0 ==> role'[p] == role[p])
      && (role'[p].Sub? && role'[p] != role[p] ==>
            && role'[p].parent in role' && Level(role'[role'[p].parent]) >= 0
            && (role'[role'[p].parent].Root? ==> role'[p].parent in {t, kt})
            && (role'[role'[p].parent].Sub? ==> role'[role'[p].parent].parent in {t, kt}))
  }

  /** Table pages stay what they are, and pages that became table pages hang below t or kt. */
  ghost predicate Built(t: int, kt: int, role: Roles, role': Roles)
  {
    forall p {:trigger BuiltAt(t, kt, role, role', p)} :: BuiltAt(t, kt, role, role', p)
  }

  lemma BuiltTrans(t: int, kt: int, a: Roles, b: Roles, c: Roles)
    requires Built(t, kt, a, b) && Built(t, kt, b, c)
    ensures Built(t, kt, a, c)
  {
    forall p ensures BuiltAt(t, kt, a, c, p) {
      assert BuiltAt(t, kt, a, b, p) && BuiltAt(t, kt, b, c, p);
      if p in b && b[p].Sub? { assert BuiltAt(t, kt, b, c, b[p].parent); }
    }
  }

  /** A page that is in no table, before or after. */
  lemma BuiltOne(t: int, kt: int, role: Roles, q: int, r: Role)
    requires q in role && Level(role[q]) < 0 && !r.Sub? && !r.Root?
    ensures Built(t, kt, role, role[q := r])
  {
  }

  lemma BuiltNone(t: int, kt: int, role: Roles)
    ensures Built(t, kt, role, role)
  {
  }

  lemma BuiltMore(t: int, kt: int, u: int, ku: int, role: Roles, role': Roles)
    requires Built(t, kt, role, role') && t in {u, ku} && kt in {u, ku}
    ensures Built(u, ku, role, role')
  {
    forall p ensures BuiltAt(u, ku, role, role', p) {
      assert BuiltAt(t, kt, role, role', p);
    }
  }

  /** Pages that were in use keep their bytes. */
  ghost predicate Undisturbed(data: Bytes, data': Bytes, role: Roles)
  {
    forall p {:trigger p in role} :: p in role && !role[p].Free? && p in data ==> p in data' && data'[p] == data[p]
  }

  lemma FramesSame(mem: Memory, mem': Memory, role: Roles, role': Roles)
    requires Frames(mem, role) && SameMaps(mem, mem', role)
    requires forall p :: p in role' && role'[p].Frame? ==> p in role && role'[p] == role[p]
    requires forall p :: p in role && role[p].Root? ==> p in role' && role'[p] == role[p]
    ensures Frames(mem', role')
  {
    hide Pte, PX, Ppn;
    forall p ensures FrameAt(mem', role', p) {
      assert FrameAt(mem, role, p);
    }
  }

  function Junk(w: int): (s: seq<int>)
    ensures |s| == ENTRIES
  {
    seq(ENTRIES, i => w)
  }

  function Fill(b: int): (s: seq<int>)
    ensures |s| == PGSIZE
  {
    seq(PGSIZE, i => b)
  }

  /** A page that is free, or held by its address, may be overwritten and change between the two. */
  lemma Unuse(mem: Memory, data: Bytes, role: Roles, p: int, words: seq<int>, bytes: seq<int>, r: Role)
    requires Trees(mem, role) && Frames(mem, role) && Sized(data, role) && |words| == ENTRIES && |bytes| == PGSIZE
    requires p in role && (role[p].Free? || role[p].Other?) && (r.Free? || r.Other?)
    ensures Trees(mem[p := words], role[p := r]) && Frames(mem[p := words], role[p := r])
    ensures Sized(data[p := bytes], role[p := r]) && SameMaps(mem, mem[p := words], role[p := r])
  {
    Scratch(mem, role, p, words);
    Recast(mem[p := words], role, p, r);
    hide Trees, Pte, PX;
    FramesSame(mem, mem[p := words], role, role[p := r]);
  }

  /** Zeroing a page held by its address and hanging it below an empty entry. */
  lemma Hung(mem: Memory, role: Roles, p: int, i: int, q: int)
    requires Trees(mem, role) && Frames(mem, role) && Owns(role, p, i) && Level(role[p]) > 0 && Entry(mem, p, i) == 0
    requires q in role && role[q].Other?
    ensures p in mem && |mem[p]| == ENTRIES && q > 0 && p != q
    ensures var mem' := HungMem(mem, p, i, q);
            var role' := role[q := Sub(Level(role[p]) - 1, p, i)];
            Trees(mem', role') && Frames(mem', role') && SameMaps(mem, mem', role) && Next(mem', p, i) == q
  {
    assert PageAt(mem, role, p);
    var zero := mem[q := Zeros()];
    Scratch(mem, role, q, Zeros());
    AddTable(zero, role, p, i, q);
    hide Trees, Pte, PX, Word;
    FramesSame(mem, HungMem(mem, p, i, q), role, role[q := Sub(Level(role[p]) - 1, p, i)]);
  }

  ghost function HungMem(mem: Memory, p: int, i: int, q: int): Memory
    requires p in mem && p != q && 0 <= i < |mem[p]|
  {
    mem[q := Zeros()][p := mem[p][i := Word(q, PTE_V)]]
  }

  lemma HungSized(data: Bytes, next: map<int, int>, head: int, npage: int, free: seq<int>, role: Roles, q: int, r: Role)
    requires Sized(data, role) && Pool(next, head, npage, free, role) && q in role && role[q].Other? && !r.Free?
    ensures Sized(data, role[q := r]) && Pool(next, head, npage, free, role[q := r])
  {
    PoolKept(next, head, npage, free, role, q, r);
    hide Pool;
  }

  /** From the free list to a table page. */
  lemma KeptAdd(role: Roles, mid: Roles, role': Roles, q: int)
    requires q in role && role[q].Free? && mid == role[q := Other] && q in role' && role' == mid[q := role'[q]] && role'[q].Sub?
    ensures Kept(role, role')
  {
  }

  /** The walk for v from t is at table page p of this level. */
  ghost predicate OnPath(mem: Memory, role: Roles, t: int, v: int, level: int, p: int)
  {
    && Owns(role, p, PX(level, v)) && Level(role[p]) == level && 0 <= level <= 2
    && (level == 2 ==> p == t)
    && (level == 1 ==> role[p] == Sub(1, t, PX(2, v)) && p == Next(mem, t, PX(2, v)) && p > 0)
    && (level == 0 ==> p == Low(mem, t, v) && p > 0)
  }

  lemma PathStart(mem: Memory, role: Roles, t: int, v: int)
    requires InTable(role, t, v)
    ensures OnPath(mem, role, t, v, 2, t)
  {
    IndexRange(v);
  }

  lemma PathEnd(mem: Memory, role: Roles, t: int, v: int, p: int)
    requires OnPath(mem, role, t, v, 0, p)
    ensures p == Low(mem, t, v) && p > 0
  {
  }

  lemma PathDown(mem: Memory, role: Roles, t: int, v: int, level: int, p: int)
    requires Trees(mem, role) && InTable(role, t, v) && OnPath(mem, role, t, v, level, p) && level > 0
    ensures Owns(role, p, PX(level, v)) && Level(role[p]) > 0
    ensures IsValid(Entry(mem, p, PX(level, v))) ==> OnPath(mem, role, t, v, level - 1, Ppn(Entry(mem, p, PX(level, v))))
    ensures !IsValid(Entry(mem, p, PX(level, v))) ==> Entry(mem, p, PX(level, v)) == 0 && Low(mem, t, v) == NOPAGE
  {
    Down(mem, role, p, PX(level, v));
    IndexRange(v);
    hide PX, IsValid, Ppn, Trees;
  }

  lemma PathBuilt(mem: Memory, role: Roles, t: int, v: int, level: int, p: int, q: int)
    requires Trees(mem, role) && InTable(role, t, v) && OnPath(mem, role, t, v, level, p) && level > 0 && q in role && role[q].Free?
    ensures p in role && Built(t, t, role, role[q := Sub(Level(role[p]) - 1, p, PX(level, v))])
  {
    hide PX, IsValid, Ppn, Trees, Next, Low;
    var role' := role[q := Sub(Level(role[p]) - 1, p, PX(level, v))];
    forall a ensures BuiltAt(t, t, role, role', a) {
    }
  }

  lemma PathAdd(mem: Memory, mem': Memory, role: Roles, t: int, v: int, level: int, p: int, q: int)
    requires Trees(mem, role) && InTable(role, t, v) && OnPath(mem, role, t, v, level, p) && level > 0
    requires q in role && Level(role[q]) < 0 && q > 0 && q in mem' && p in mem' && p in mem && q != p && mem' == mem[q := mem'[q]][p := mem'[p]]
    requires Next(mem', p, PX(level, v)) == q
    ensures OnPath(mem', role[q := Sub(level - 1, p, PX(level, v))], t, v, level - 1, q)
    ensures p in role && Level(role[p]) == level && InTable(role[q := Sub(level - 1, p, PX(level, v))], t, v)
  {
    assert PageAt(mem, role, t) && PageAt(mem, role, p);
    IndexRange(v);
    hide PX, IsValid, Ppn, Trees, Word;
  }

  /** How many table pages the way to v in table t still lacks. */
  ghost function Missing(mem: Memory, t: int, v: int): nat
  {
    var m := Next(mem, t, PX(2, v));
    if m == NOPAGE then 2 else if Next(mem, m, PX(1, v)) == NOPAGE then 1 else 0
  }

  /** The same seen from table page p of some level on the way. */
  ghost function Lacking(mem: Memory, p: int, level: int, v: int): nat
  {
    if level == 2 then Missing(mem, p, v) else if level == 1 && Next(mem, p, PX(1, v)) == NOPAGE then 1 else 0
  }

  /** How many are lacking for page w of a table once none is for page v. */
  ghost function Way(mem: Memory, t: int, v: int, w: int): nat
  {
    if PX(2, w) != PX(2, v) then Missing(mem, t, w)
    else if PX(1, w) == PX(1, v) then 0
    else if Missing(mem, t, w) == 2 then 1 else Missing(mem, t, w)
  }

  /** The table pages for page v of the given tables have been added, and no others. */
  ghost predicate WaySet(mem: Memory, mem': Memory, role: Roles, tables: set<int>, v: int)
  {
    forall u, w {:trigger Missing(mem', u, w)} :: InTable(role, u, w) ==>
      Missing(mem', u, w) == if u in tables then Way(mem, u, v, w) else Missing(mem, u, w)
  }

  /** The same, down to some level. */
  ghost predicate WayTo(mem: Memory, mem': Memory, role: Roles, t: int, v: int, level: int)
  {
    forall u, w {:trigger Missing(mem', u, w)} :: InTable(role, u, w) ==>
      Missing(mem', u, w) ==
        if u == t && PX(2, w) == PX(2, v) && level < 2 then
          (if level == 0 && PX(1, w) == PX(1, v) then 0 else if Missing(mem, u, w) == 2 then 1 else Missing(mem, u, w))
        else Missing(mem, u, w)
  }

  lemma WayEnds(mem: Memory, mem': Memory, role: Roles, t: int, v: int)
    ensures WayTo(mem, mem, role, t, v, 2)
    ensures WayTo(mem, mem', role, t, v, 0) ==> WaySet(mem, mem', role, {t}, v)
  {
    hide PX, Missing;
  }

  /** Next of a table page that is not being written. */
  lemma NextSame(mem: Memory, mem': Memory, p: int, i: int)
    requires p in mem && p in mem' && mem'[p] == mem[p]
    ensures Next(mem', p, i) == Next(mem, p, i)
  {
  }

  /** Writing a page that is not a table page of the upper two levels. */
  lemma WaysKept(mem: Memory, mem': Memory, role: Roles, q: int, v: int)
    requires Trees(mem, role) && (q in role ==> Level(role[q]) <= 0) && q in mem' && mem' == mem[q := mem'[q]]
    ensures WaySet(mem, mem', role, {}, v)
  {
    forall u, w | InTable(role, u, w) ensures Missing(mem', u, w) == Missing(mem, u, w) {
      IndexRange(w);
      Down(mem, role, u, PX(2, w));
      hide PX, Trees, IsValid, Ppn, Next;
      NextSame(mem, mem', u, PX(2, w));
      var m := Next(mem, u, PX(2, w));
      if m != NOPAGE {
        SubPage(mem, role, m);
        NextSame(mem, mem', m, PX(1, w));
      }
    }
  }

  lemma SubPage(mem: Memory, role: Roles, p: int)
    requires Trees(mem, role) && p in role
    ensures p in mem
  {
    assert PageAt(mem, role, p);
  }

  lemma WayJoin(a: Memory, b: Memory, c: Memory, role: Roles, role': Roles, s: set<int>, s': set<int>, v: int)
    requires WaySet(a, b, role, s, v) && WaySet(b, c, role', s', v) && s !! s' && RootsIn(role, role')
    ensures WaySet(a, c, role, s + s', v)
  {
    hide PX, Missing;
    forall u, w | InTable(role, u, w) ensures Missing(c, u, w) == if u in s + s' then Way(a, u, v, w) else Missing(a, u, w) {
      assert InTable(role', u, w);
      assert Missing(b, u, w) == if u in s then Way(a, u, v, w) else Missing(a, u, w);
    }
  }

  /** A page that was free is no table. */
  lemma WayDrop(mem: Memory, mem': Memory, role: Roles, t: int, v: int)
    requires WaySet(mem, mem', role, {t}, v) && t in role && role[t].Free?
    ensures WaySet(mem, mem', role, {}, v)
  {
    hide PX, Missing;
  }

  /** One level down where the page is there already. */
  lemma WayFound(mem0: Memory, mem: Memory, role0: Roles, role: Roles, t: int, v: int, level: int, p: int)
    requires WayTo(mem0, mem, role0, t, v, level) && OnPath(mem, role, t, v, level, p) && level > 0
    requires var e := Entry(mem, p, PX(level, v)); IsValid(e) && Ppn(e) > 0
    ensures WayTo(mem0, mem, role0, t, v, level - 1)
  {
    hide PX, IsValid, Ppn;
    forall u, w | InTable(role0, u, w)
      ensures Missing(mem, u, w) ==
        if u == t && PX(2, w) == PX(2, v) then
          (if level == 1 && PX(1, w) == PX(1, v) then 0 else if Missing(mem0, u, w) == 2 then 1 else Missing(mem0, u, w))
        else Missing(mem0, u, w)
    {
      if u == t && PX(2, w) == PX(2, v) { assert Next(mem, t, PX(2, w)) != NOPAGE; }
    }
  }

  /** One level down where a page is added. */
  lemma WayAdded(mem0: Memory, mem: Memory, mem': Memory, role0: Roles, role: Roles, t: int, v: int, level: int, p: int, q: int)
    requires WayTo(mem0, mem, role0, t, v, level) && OnPath(mem, role, t, v, level, p) && level > 0 && Trees(mem, role) && RootsIn(role0, role)
    requires InTable(role, t, v) && Entry(mem, p, PX(level, v)) == 0
    requires q in role && Level(role[q]) < 0 && q > 0 && q != p && p in mem && p in mem' && q in mem'
    requires mem' == mem[q := mem'[q]][p := mem'[p]] && mem'[q] == Zeros() && Next(mem', p, PX(level, v)) == q
    requires 0 <= PX(level, v) < |mem[p]| && mem'[p] == mem[p][PX(level, v) := mem'[p][PX(level, v)]]
    ensures WayTo(mem0, mem', role0, t, v, level - 1)
  {
    forall u, w | InTable(role0, u, w)
      ensures Missing(mem', u, w) ==
        if u == t && PX(2, w) == PX(2, v) then
          (if level == 1 && PX(1, w) == PX(1, v) then 0 else if Missing(mem0, u, w) == 2 then 1 else Missing(mem0, u, w))
        else Missing(mem0, u, w)
    {
      WayAddedAt(mem, mem', role, t, v, level, p, q, u, w);
      hide PX, IsValid, Ppn, Trees, Next, OnPath, Missing;
    }
  }

  lemma WayAddedAt(mem: Memory, mem': Memory, role: Roles, t: int, v: int, level: int, p: int, q: int, u: int, w: int)
    requires OnPath(mem, role, t, v, level, p) && level > 0 && Trees(mem, role) && InTable(role, u, w) && InTable(role, t, v)
    requires Entry(mem, p, PX(level, v)) == 0
    requires q in role && Level(role[q]) < 0 && q > 0 && q != p && p in mem && p in mem' && q in mem'
    requires mem' == mem[q := mem'[q]][p := mem'[p]] && mem'[q] == Zeros() && Next(mem', p, PX(level, v)) == q
    requires 0 <= PX(level, v) < |mem[p]| && mem'[p] == mem[p][PX(level, v) := mem'[p][PX(level, v)]]
    ensures Missing(mem', u, w) ==
      if u == t && PX(2, w) == PX(2, v) && level == 2 then 1
      else if u == t && PX(2, w) == PX(2, v) && PX(1, w) == PX(1, v) then 0 else Missing(mem, u, w)
    ensures u == t && PX(2, w) == PX(2, v) ==> if level == 2 then Missing(mem, u, w) == 2 else Missing(mem, u, w) < 2
  {
    IndexRange(w);
    Down(mem, role, u, PX(2, w));
    var m := Next(mem, u, PX(2, w));
    if m != NOPAGE { SubPage(mem, role, m); }
    assert !IsValid(0);
    assert Entry(mem', q, PX(1, w)) == 0;
    hide PX, IsValid, Ppn, Trees;
  }

  lemma LackingDown(mem: Memory, v: int, level: int, p: int)
    requires 0 < level <= 2
    requires var e := Entry(mem, p, PX(level, v)); IsValid(e) ==> Ppn(e) > 0
    ensures var e := Entry(mem, p, PX(level, v));
      Lacking(mem, p, level, v) == if IsValid(e) then Lacking(mem, Ppn(e), level - 1, v) else level
  {
    hide PX, IsValid, Ppn;
  }

  lemma PathPage(mem: Memory, role: Roles, t: int, v: int, level: int, p: int)
    requires 0 < level <= 2 && (IsValid(Entry(mem, p, PX(level, v))) ==> OnPath(mem, role, t, v, level - 1, Ppn(Entry(mem, p, PX(level, v)))))
    ensures IsValid(Entry(mem, p, PX(level, v))) ==> Ppn(Entry(mem, p, PX(level, v))) > 0
  {
    hide PX, IsValid, Ppn, Next, Low;
  }

  lemma LackingEnds(mem: Memory, p: int, v: int)
    ensures Lacking(mem, p, 2, v) == Missing(mem, p, v) && Lacking(mem, p, 0, v) == 0
  {
  }

  lemma LackingZeros(mem: Memory, q: int, level: int, v: int)
    requires q in mem && mem[q] == Zeros() && 0 <= level <= 1
    ensures Lacking(mem, q, level, v) == level
  {
    assert Entry(mem, q, PX(1, v)) == 0;
    assert !IsValid(0);
    hide PX;
  }

  ghost predicate Vacant(mem: Memory, role: Roles, t: int, v: int)
  {
    InTable(role, t, v) && Pte(mem, t, v) == 0
  }

  /** Pages v0 .. v0 + k of table t now translate to consecutive physical pages; everything
      else translates as before. */
  ghost predicate Mapped(mem: Memory, mem': Memory, role: Roles, t: int, v0: int, k: int, ppn: int, flags: int)
  {
    forall u, w {:trigger Pte(mem', u, w)} :: InTable(role, u, w) ==>
      Pte(mem', u, w) == if u == t && v0 <= w < v0 + k then Word(ppn + (w - v0), flags) else Pte(mem, u, w)
  }

  /** Pages v0 .. v0 + k of table t translate to nothing now; everything else as before. */
  ghost predicate Unmapped(mem: Memory, mem': Memory, role: Roles, t: int, v0: int, k: int)
  {
    forall u, w {:trigger Pte(mem', u, w)} :: InTable(role, u, w) ==>
      Pte(mem', u, w) == if u == t && v0 <= w < v0 + k then 0 else Pte(mem, u, w)
  }

  /** An entry may be rewritten when no page is held through it. */
  lemma FramesSet(mem: Memory, mem': Memory, role: Roles, t: int, v: int, e: int)
    requires Frames(mem, role) && MapSet(mem, mem', role, t, v, e)
    requires forall p :: p in role ==> role[p] != Frame(t, v)
    ensures Frames(mem', role)
  {
    hide Pte, PX, Ppn;
    forall p ensures FrameAt(mem', role, p) {
      assert FrameAt(mem, role, p);
    }
  }

  lemma NoFrame(mem: Memory, role: Roles, t: int, v: int)
    requires Frames(mem, role) && Pte(mem, t, v) == 0
    ensures forall p :: p in role ==> role[p] != Frame(t, v)
  {
    hide Pte, PX, Ppn;
    forall p | p in role ensures role[p] != Frame(t, v) {
      assert FrameAt(mem, role, p);
    }
  }

  /** One more page of a range. */
  lemma MappedMore(mem: Memory, mem1: Memory, mem2: Memory, role: Roles, role': Roles,
                   t: int, v0: int, k: nat, ppn: int, flags: int)
    requires Mapped(mem, mem1, role, t, v0, k, ppn, flags) && Kept(role, role')
    requires MapSet(mem1, mem2, role', t, v0 + k, Word(ppn + k, flags))
    ensures Mapped(mem, mem2, role, t, v0, k + 1, ppn, flags)
  {
    hide Pte, PX, Word;
    forall u, w | InTable(role, u, w)
      ensures Pte(mem2, u, w) == if u == t && v0 <= w < v0 + k + 1 then Word(ppn + (w - v0), flags) else Pte(mem, u, w)
    {
      assert KeptAt(role, role', u);
      assert InTable(role', u, w);
      assert Pte(mem1, u, w) == if u == t && v0 <= w < v0 + k then Word(ppn + (w - v0), flags) else Pte(mem, u, w);
    }
  }

  lemma MappedSame(mem: Memory, mem1: Memory, mem2: Memory, role: Roles, role': Roles,
                   t: int, v0: int, k: nat, ppn: int, flags: int)
    requires Mapped(mem, mem1, role, t, v0, k, ppn, flags) && Kept(role, role') && SameMaps(mem1, mem2, role')
    ensures Mapped(mem, mem2, role, t, v0, k, ppn, flags)
  {
    hide Pte, PX, Word;
    forall u, w | InTable(role, u, w)
      ensures Pte(mem2, u, w) == if u == t && v0 <= w < v0 + k then Word(ppn + (w - v0), flags) else Pte(mem, u, w)
    {
      assert KeptAt(role, role', u);
      assert InTable(role', u, w);
      assert Pte(mem1, u, w) == if u == t && v0 <= w < v0 + k then Word(ppn + (w - v0), flags) else Pte(mem, u, w);
    }
  }

  /** The next page of the range is still vacant when its turn comes. */
  lemma MappedNext(mem: Memory, mem1: Memory, role: Roles, role': Roles, t: int, v0: int, k: nat, ppn: int, flags: int)
    requires Mapped(mem, mem1, role, t, v0, k, ppn, flags) && Kept(role, role') && Vacant(mem, role, t, v0 + k)
    ensures Vacant(mem1, role', t, v0 + k)
  {
    KeptTables(role, role', t, v0 + k);
    hide Pte, PX, Word;
    assert Pte(mem1, t, v0 + k) == Pte(mem, t, v0 + k);
  }

  lemma Still(mem: Memory, data: Bytes, role: Roles, t: int, v0: int, ppn: int, flags: int)
    ensures Mapped(mem, mem, role, t, v0, 0, ppn, flags) && Kept(role, role) && Undisturbed(data, data, role) && SameMaps(mem, mem, role)
  {
    hide Pte, PX, Word;
  }

  lemma KeptOn(r: Roles, s: Roles, u: Roles, x: Bytes, y: Bytes, z: Bytes)
    requires Kept(r, s) && Undisturbed(x, y, r) && Kept(s, u) && Undisturbed(y, z, s)
    ensures Kept(r, u) && Undisturbed(x, z, r)
  {
    KeptTrans(r, s, u);
    forall p | p in r && !r[p].Free? && p in x ensures p in z && z[p] == x[p] {
      assert KeptAt(r, s, p);
    }
  }

  lemma WordEntry(ppn: int, perm: int)
    requires 0 < ppn && 0 <= perm < 1024 && IsLeaf(perm)
    ensures var e := Word(ppn, WithValid(perm)); e > 0 && IsValid(e) && IsLeaf(e) && Ppn(e) == ppn && Flags(e) == WithValid(perm) && WithValid(perm) < 1024
  {
    EntryParts(ppn, WithValid(perm));
  }

  /** Page v of table t is mapped to a frame that goes when the mapping goes. */
  ghost predicate Holds(mem: Memory, role: Roles, t: int, v: int)
  {
    InTable(role, t, v) && Pte(mem, t, v) != 0 && Ppn(Pte(mem, t, v)) in role && role[Ppn(Pte(mem, t, v))] == Frame(t, v)
  }

  /** What vmunmap needs of a page it is to unmap, freeing its frame or not. */
  ghost predicate Ready(mem: Memory, role: Roles, t: int, v: int, free: bool)
  {
    InTable(role, t, v) && Pte(mem, t, v) != 0 && v < MAXVPN && (Holds(mem, role, t, v) <==> free)
  }

  ghost predicate FreedAt(role: Roles, role': Roles, t: int, v0: int, k: int, free: bool, p: int)
  {
    (p in role <==> p in role') &&
    (p in role ==> role'[p] == if free && role[p].Frame? && role[p].table == t && v0 <= role[p].v < v0 + k then Free else role[p])
  }

  /** The frames of pages v0 .. v0 + k of table t are free now (if they were to be freed); no
      other page changed hands. */
  ghost predicate Freed(role: Roles, role': Roles, t: int, v0: int, k: int, free: bool)
  {
    forall p {:trigger FreedAt(role, role', t, v0, k, free, p)} :: FreedAt(role, role', t, v0, k, free, p)
  }

  lemma BuiltFreed(a: int, b: int, role: Roles, role': Roles, t: int, v0: int, k: int, free: bool)
    requires Freed(role, role', t, v0, k, free)
    ensures Built(a, b, role, role')
  {
    forall p ensures BuiltAt(a, b, role, role', p) {
      assert FreedAt(role, role', t, v0, k, free, p);
    }
  }

  lemma FreedStart(mem: Memory, data: Bytes, role: Roles, t: int, v0: int, free: bool)
    ensures Freed(role, role, t, v0, 0, free) && Unmapped(mem, mem, role, t, v0, 0) && Undisturbed(data, data, role)
  {
    hide Pte, PX;
  }

  lemma ReadyStill(mem: Memory, mem': Memory, role: Roles, role': Roles, t: int, v0: int, k: nat, free: bool)
    requires Ready(mem, role, t, v0 + k, free) && Freed(role, role', t, v0, k, free) && Unmapped(mem, mem', role, t, v0, k)
    ensures Ready(mem', role', t, v0 + k, free)
  {
    assert FreedAt(role, role', t, v0, k, free, t);
    hide Pte, PX, Ppn;
    var e := Pte(mem, t, v0 + k);
    assert Pte(mem', t, v0 + k) == e;
    assert FreedAt(role, role', t, v0, k, free, Ppn(e));
  }

  /** The frame behind an entry is taken out of the tables, then freed. */
  lemma Released(mem: Memory, data: Bytes, next: map<int, int>, head: int, npage: int, free: seq<int>, role: Roles, p: int)
    requires Trees(mem, role) && Frames(mem, role) && Pool(next, head, npage, free, role) && Sized(data, role)
    requires p in role && role[p].Frame?
    ensures var role' := role[p := Other];
      Trees(mem, role') && Frames(mem, role') && Pool(next, head, npage, free, role') && Sized(data, role')
  {
    Recast(mem, role, p, Other);
    PoolKept(next, head, npage, free, role, p, Other);
    FramesSame(mem, mem, role, role[p := Other]) by { hide Pte, PX; }
  }

  /** Only one frame is held through an entry. */
  lemma OneFrame(mem: Memory, role: Roles, t: int, v: int, q: int)
    requires Frames(mem, role) && q in role && role[q] == Frame(t, v)
    ensures forall p :: p in role && role[p] == Frame(t, v) ==> p == q
  {
    assert FrameAt(mem, role, q);
    hide Pte, PX, Ppn;
    forall p | p in role && role[p] == Frame(t, v) ensures p == q {
      assert FrameAt(mem, role, p);
    }
  }

  /** Without a frame to free, no page is held through the entry. */
  lemma NotHeld(mem: Memory, role: Roles, t: int, v: int)
    requires Frames(mem, role) && !Holds(mem, role, t, v)
    ensures forall p :: p in role ==> role[p] != Frame(t, v)
  {
    hide Pte, PX, Ppn;
    forall p | p in role ensures role[p] != Frame(t, v) {
      assert FrameAt(mem, role, p);
    }
  }

  lemma PteFound(mem: Memory, t: int, v: int)
    requires Pte(mem, t, v) != 0
    ensures Low(mem, t, v) != NOPAGE && Pte(mem, t, v) == Entry(mem, Low(mem, t, v), PX(0, v))
  {
  }

  lemma SameThenSet(a: Memory, b: Memory, c: Memory, role: Roles, t: int, v: int, e: int)
    requires SameMaps(a, b, role) && MapSet(b, c, role, t, v, e)
    ensures MapSet(a, c, role, t, v, e)
  {
    hide Pte, PX;
    forall u, w | InTable(role, u, w) ensures Pte(c, u, w) == if u == t && w == v then e else Pte(a, u, w) {
      assert Pte(b, u, w) == Pte(a, u, w);
    }
  }

  /** One more page unmapped. */
  lemma UnmappedMore(mem: Memory, mem1: Memory, mem2: Memory, role: Roles, role1: Roles, role2: Roles, t: int, v0: int, k: nat, free: bool)
    requires Unmapped(mem, mem1, role, t, v0, k) && Freed(role, role1, t, v0, k, free)
    requires RootsIn(role1, role2)
    requires MapSet(mem1, mem2, role2, t, v0 + k, 0)
    ensures Unmapped(mem, mem2, role, t, v0, k + 1)
  {
    hide Pte, PX;
    forall u, w | InTable(role, u, w)
      ensures Pte(mem2, u, w) == if u == t && v0 <= w < v0 + k + 1 then 0 else Pte(mem, u, w)
    {
      assert FreedAt(role, role1, t, v0, k, free, u);
      assert InTable(role2, u, w);
      assert Pte(mem1, u, w) == if u == t && v0 <= w < v0 + k then 0 else Pte(mem, u, w);
    }
  }

  lemma FreedMore(role: Roles, role1: Roles, role2: Roles, t: int, v0: int, k: nat, free: bool, q: int)
    requires Freed(role, role1, t, v0, k, free)
    requires if free then q in role1 && role1[q] == Frame(t, v0 + k) && role2 == role1[q := Free] && forall p :: p in role1 && role1[p] == Frame(t, v0 + k) ==> p == q
             else role2 == role1
    ensures Freed(role, role2, t, v0, k + 1, free)
  {
    var k' := k + 1;
    forall p ensures FreedAt(role, role2, t, v0, k', free, p) {
      assert FreedAt(role, role1, t, v0, k, free, p);
    }
  }

  predicate InRam(p: int) { p < STOPPAGE }

  /** The same for every page from first on. */
  function EachPage<T>(first: int, x: T): (m: map<int, T>)
    ensures forall p :: (p in m <==> first <= p < STOPPAGE) && (p in m ==> m[p] == x)
  {
    map p | first <= p < STOPPAGE && InRam(p) :: x
  }

  lemma NoneFree(role: Roles, data: Bytes)
    requires forall p :: p in role ==> role[p] == Other && FIRSTPAGE <= p < STOPPAGE && p in data && |data[p]| == PGSIZE
    ensures Pool(map[], 0, 0, [], role) && Sized(data, role)
  {
    forall p ensures FreeAt([], role, p) {
    }
  }

  /** Before any table exists. */
  lemma Unowned0(mem: Memory, role: Roles)
    requires forall p :: p in role ==> role[p] == Other && p > 0 && p in mem && |mem[p]| == ENTRIES
    ensures Trees(mem, role) && Frames(mem, role)
  {
    hide Pte, PX, Word, Ppn;
    forall p ensures PageAt(mem, role, p) {
    }
    forall p, i ensures SlotAt(mem, role, p, i) {
    }
    forall p ensures FrameAt(mem, role, p) {
    }
  }

  /** The physical memory of the kernel: words of table pages, bytes of data pages, the free list. */
  class Kernel {
    var mem: Memory
    var data: Bytes
    var next: map<int, int>
    var head: int
    var npage: int
    ghost var free: seq<int>
    ghost var role: Roles

    ghost predicate Valid()
      reads this
    {
      Trees(mem, role) && Frames(mem, role) && Pool(next, head, npage, free, role) && Sized(data, role)
    }

    /** kinit: freerange hands every page from first on to kfree. */
    constructor (first: int)
      requires FIRSTPAGE <= first <= STOPPAGE
      ensures Valid() && forall p :: (p in role <==> first <= p < STOPPAGE) && (p in role ==> role[p].Free?)
      ensures |free| == STOPPAGE - first
    {
      mem := EachPage(first, Junk(0));
      data := EachPage(first, Fill(0));
      next := map[];
      head := 0;
      npage := 0;
      free := [];
      role := EachPage(first, Other);
      new;
      Unowned0(mem, role);
      NoneFree(role, data);
      var p := first;
      while p < STOPPAGE
        invariant first <= p <= STOPPAGE && Valid() && |free| == p - first
        invariant forall q :: q in role <==> first <= q < STOPPAGE
        invariant forall q :: q in role ==> role[q] == if q < p then Free else Other
      {
        hide Trees, Frames, Pool, Sized, SameMaps;
        KFree(p);
        p := p + 1;
      }
    }

    method KAlloc() returns (p: int)
      requires Valid()
      modifies this
      ensures Valid()
      ensures p == 0 <==> old(free) == []
      ensures p == 0 ==> mem == old(mem) && data == old(data) && role == old(role) && free == old(free)
      ensures p != 0 ==>
        && p == old(free)[0] && free == old(free)[1..]
        && p in old(role) && old(role)[p].Free? && role == old(role)[p := Other]
        && SameMaps(old(mem), mem, role)
        && p in mem && |mem[p]| == ENTRIES && p in data && |data[p]| == PGSIZE
        && mem == old(mem)[p := mem[p]] && data == old(data)[p := data[p]]
    {
      hide Trees, Frames, Pool, Sized, SameMaps;
      p := head;
      HeadZero(next, head, npage, free, role);
      if p != 0 {
        Popped(next, head, npage, free, role);
        Unuse(mem, data, role, p, Junk(0x0505_0505_0505_0505), Fill(5), Other);
        head := next[p];
        npage := npage - 1;
        free := free[1..];
        role := role[p := Other];
        mem := mem[p := Junk(0x0505_0505_0505_0505)];
        data := data[p := Fill(5)];
      }
    }

    method KFree(p: int)
      requires Valid() && p in role && role[p].Other?
      modifies this
      ensures Valid()
      ensures role == old(role)[p := Free] && free == [p] + old(free)
      ensures SameMaps(old(mem), mem, role)
      ensures p in mem && p in data && mem == old(mem)[p := mem[p]] && data == old(data)[p := data[p]]
    {
      hide Trees, Frames, Pool, Sized, SameMaps;
      Pushed(next, head, npage, free, role, p);
      Unuse(mem, data, role, p, Junk(0x0101_0101_0101_0101), Fill(1), Free);
      mem := mem[p := Junk(0x0101_0101_0101_0101)];
      data := data[p := Fill(1)];
      next := next[p := head];
      head := p;
      npage := npage + 1;
      free := [p] + free;
      role := role[p := Free];
    }

    /** The allocating arm of walk's loop: a zeroed page is hung below entry i of p. */
    method AddPage(p: int, i: int) returns (q: int)
      requires Valid() && Owns(role, p, i) && Level(role[p]) > 0 && Entry(mem, p, i) == 0
      modifies this
      ensures Valid() && Kept(old(role), role) && SameMaps(old(mem), mem, old(role)) && Undisturbed(old(data), data, old(role))
      ensures q == 0 <==> old(free) == []
      ensures q == 0 ==> mem == old(mem) && data == old(data) && role == old(role) && free == old(free)
      ensures q != 0 ==>
        && q > 0 && q != p && Next(mem, p, i) == q && q in old(role) && old(role)[q].Free?
        && role == old(role)[q := Sub(Level(old(role)[p]) - 1, p, i)]
        && p in mem && q in mem && mem == old(mem)[q := mem[q]][p := mem[p]]
        && p in old(mem) && 0 <= i < |old(mem)[p]| && mem[p] == old(mem)[p][i := Word(q, PTE_V)]
        && free == old(free)[1..] && mem[q] == Zeros()
    {
      hide Trees, Frames, Pool, Sized, Word, Ppn, IsValid, Pte, PX, InTable, Zeros;
      q := KAlloc();
      if q != 0 {
        ghost var m1 := mem;
        Hung(mem, role, p, i, q);
        HungSized(data, next, head, npage, free, role, q, Sub(Level(role[p]) - 1, p, i));
        mem := mem[q := Zeros()];
        mem := mem[p := mem[p][i := Word(q, PTE_V)]];
        role := role[q := Sub(Level(role[p]) - 1, p, i)];
        KeptAdd(old(role), old(role)[q := Other], role, q);
        MapsTrans(old(mem), m1, mem, old(role), old(role)[q := Other], old(role)[q := Other]);
      }
    }

    /** The table page and entry for page number v, or NOPAGE. */
    method Walk(t: int, v: int, alloc: bool) returns (l: int)
      requires Valid() && InTable(role, t, v) && v < MAXVPN
      modifies this
      ensures Valid() && Kept(old(role), role) && SameMaps(old(mem), mem, old(role)) && Undisturbed(old(data), data, old(role))
      ensures l != NOPAGE ==> l == Low(mem, t, v)
      ensures Built(t, t, old(role), role)
      ensures !alloc ==> l == Low(mem, t, v) && mem == old(mem) && data == old(data) && role == old(role) && free == old(free)
      ensures alloc && l == NOPAGE ==> free == []
      ensures alloc ==> (l != NOPAGE <==> Missing(old(mem), t, v) <= |old(free)|)
      ensures alloc && l != NOPAGE ==> |free| == |old(free)| - Missing(old(mem), t, v) && WaySet(old(mem), mem, old(role), {t}, v)
    {
      hide Trees, Frames, Pool, Sized, Word, Ppn, IsValid, Pte, PX, InTable, Zeros, OnPath, Owns, Built, Lacking, Missing, Next, WayTo, WaySet, RootsIn;
      var p, level := t, 2;
      BuiltNone(t, t, role);
      PathStart(mem, role, t, v);
      LackingEnds(mem, t, v);
      WayEnds(mem, mem, role, t, v);
      while level > 0
        invariant 0 <= level <= 2
        invariant |free| - Lacking(mem, p, level, v) == |old(free)| - Missing(old(mem), t, v)
        invariant WayTo(old(mem), mem, old(role), t, v, level)
        invariant Valid() && InTable(role, t, v) && OnPath(mem, role, t, v, level, p)
        invariant Kept(old(role), role) && SameMaps(old(mem), mem, old(role)) && Undisturbed(old(data), data, old(role))
        invariant !alloc ==> mem == old(mem) && data == old(data) && role == old(role) && free == old(free)
        invariant Built(t, t, old(role), role)
      {
        var pte := Entry(mem, p, PX(level, v));
        PathDown(mem, role, t, v, level, p);
        PathPage(mem, role, t, v, level, p);
        LackingDown(mem, v, level, p);
        if IsValid(pte) {
          WayFound(old(mem), mem, old(role), role, t, v, level, p);
          p := Ppn(pte);
        } else {
          if !alloc { return NOPAGE; }
          ghost var role1, mem1, data1 := role, mem, data;
          var q := AddPage(p, PX(level, v));
          if q == 0 { return NOPAGE; }
          LackingZeros(mem, q, level - 1, v);
          KeptRoots(old(role), role1);
          WayAdded(old(mem), mem1, mem, old(role), role1, t, v, level, p, q);
          PathAdd(mem1, mem, role1, t, v, level, p, q);
          PathBuilt(mem1, role1, t, v, level, p, q);
          BuiltTrans(t, t, old(role), role1, role);
          Since(old(mem), mem1, mem, old(data), data1, data, old(role), role1, role);
          p := q;
        }
        level := level - 1;
      }
      PathEnd(mem, role, t, v, p);
      LackingEnds(mem, p, v);
      WayEnds(old(mem), mem, old(role), t, v);
      l := p;
    }

    /** The body of mappages' loop after walk: one empty entry is filled in. */
    method SetEntry(t: int, v: int, l: int, e: int)
      requires Valid() && InTable(role, t, v) && l == Low(mem, t, v) && l != NOPAGE
      requires e == 0 || (e > 0 && IsValid(e) && IsLeaf(e))
      requires forall p :: p in role ==> role[p] != Frame(t, v)
      modifies `mem
      ensures Valid() && MapSet(old(mem), mem, role, t, v, e) && WaySet(old(mem), mem, role, {}, v)
    {
      hide Trees, Frames, Pool, Sized, Word, Ppn, IsValid, IsLeaf, Pte, PX, InTable, Low, WaySet;
      WriteLow(mem, role, t, v, e);
      LowPlace(mem, role, t, v);
      ghost var mem0 := mem;
      mem := mem[l := mem[l][PX(0, v) := e]];
      FramesSet(mem0, mem, role, t, v, e);
      WaysKept(mem0, mem, role, l, v);
    }

    /** mappages: all pages that [va, va + size) touches are mapped to consecutive physical
        pages, or a table page was missing and only some of them are. */
    method MapPages(t: int, va: int, size: int, ppn: int, perm: int) returns (r: int)
      requires Valid() && 0 <= va && 0 < size && va + size - 1 < MAXVPN * PGSIZE && 0 < ppn && 0 <= perm < 1024 && IsLeaf(perm)
      requires forall w :: va / PGSIZE <= w <= (va + size - 1) / PGSIZE ==> Vacant(mem, role, t, w)
      modifies this
      ensures Valid() && Kept(old(role), role) && Undisturbed(old(data), data, old(role))
      ensures Built(t, t, old(role), role)
      ensures r == 0 || r == -1
      ensures var n := (va + size - 1) / PGSIZE - va / PGSIZE + 1;
        && (r == 0 ==> Mapped(old(mem), mem, old(role), t, va / PGSIZE, n, ppn, WithValid(perm)))
        && (n == 1 ==> (r == 0 <==> Missing(old(mem), t, va / PGSIZE) <= |old(free)|))
        && (n == 1 && r == 0 ==> |free| == |old(free)| - Missing(old(mem), t, va / PGSIZE) && WaySet(old(mem), mem, old(role), {t}, va / PGSIZE))
        && (r == -1 ==> free == [] && exists k :: 0 <= k < n && Mapped(old(mem), mem, old(role), t, va / PGSIZE, k, ppn, WithValid(perm)))
    {
      hide Trees, Frames, Pool, Sized, Word, Ppn, IsValid, IsLeaf, Pte, PX, InTable, Low, Kept, Undisturbed, SameMaps, MapSet, Mapped, WithValid, Built, Missing, WaySet, RootsIn;
      BuiltNone(t, t, role);
      var a, last, pp := va / PGSIZE, (va + size - 1) / PGSIZE, ppn;
      ghost var v0, flags := a, WithValid(perm);
      Still(mem, data, role, t, v0, ppn, flags);
      while true
        invariant v0 <= a <= last < MAXVPN && pp == ppn + (a - v0)
        invariant Valid() && Kept(old(role), role) && Undisturbed(old(data), data, old(role))
        invariant Mapped(old(mem), mem, old(role), t, v0, a - v0, ppn, flags) && Built(t, t, old(role), role)
        invariant a == v0 ==> mem == old(mem) && free == old(free) && role == old(role)
        decreases last - a
      {
        ghost var role1, mem1, data1 := role, mem, data;
        assert Vacant(old(mem), old(role), t, v0 + (a - v0));
        MappedNext(old(mem), mem, old(role), role, t, v0, a - v0, ppn, flags);
        var l := Walk(t, a, true);
        BuiltTrans(t, t, old(role), role1, role);
        KeptOn(old(role), role1, role, old(data), data1, data);
        MappedSame(old(mem), mem1, mem, old(role), role1, t, v0, a - v0, ppn, flags);
        if l == NOPAGE { return -1; }
        MappedNext(old(mem), mem, old(role), role, t, v0, a - v0, ppn, flags);
        NoFrame(mem, role, t, a);
        WordEntry(pp, perm);
        ghost var mem2 := mem;
        SetEntry(t, a, l, Word(pp, WithValid(perm)));
        if a == v0 {
          KeptRoots(old(role), role);
          WayJoin(old(mem), mem2, mem, old(role), role, {t}, {}, a);
          assert {t} + {} == {t};
        }
        MappedMore(old(mem), mem2, mem, old(role), role, t, v0, a - v0, ppn, flags);
        if a == last { break; }
        a, pp := a + 1, pp + 1;
      }
      r := 0;
    }

    /** One turn of vmunmap's loop, which panics at a page that is not mapped. */
    method UnmapPage(t: int, v: int, doFree: bool) returns (panicked: bool)
      requires Valid() && v < MAXVPN && (Vacant(mem, role, t, v) || Ready(mem, role, t, v, doFree))
      modifies this
      ensures Valid() && (panicked <==> Vacant(old(mem), old(role), t, v))
      ensures panicked ==> mem == old(mem) && data == old(data) && role == old(role) && free == old(free)
      ensures !panicked ==>
        && Undisturbed(old(data), data, role) && MapSet(old(mem), mem, role, t, v, 0)
        && var q := Ppn(Pte(old(mem), t, v));
          if doFree then
            && q in old(role) && old(role)[q] == Frame(t, v) && role == old(role)[q := Free] && free == [q] + old(free)
            && forall p :: p in old(role) && old(role)[p] == Frame(t, v) ==> p == q
          else role == old(role) && free == old(free)
    {
      hide Trees, Frames, Pool, Sized, Word, IsValid, IsLeaf, Flags, Ppn, PX, Low, SameMaps, MapSet;
      var l := Walk(t, v, false);
      NotThere(mem, role, t, v);
      if l == NOPAGE || !IsValid(Entry(mem, l, PX(0, v))) { return true; }
      hide Pte;
      var pte := Entry(mem, l, PX(0, v));
      assert Flags(pte) != PTE_V;
      ghost var mem0 := mem;
      if doFree {
        var pa := Ppn(pte);
        OneFrame(mem, role, t, v, pa);
        Released(mem, data, next, head, npage, free, role, pa);
        role := role[pa := Other];
        KFree(pa);
        StillLow(mem0, mem, old(role), t, v, pa);
      } else {
        NotHeld(mem, role, t, v);
        Still(mem, data, role, t, v, 0, 0);
      }
      ghost var mem1 := mem;
      SetEntry(t, v, l, 0);
      SameThenSet(mem0, mem1, mem, role, t, v, 0);
      panicked := false;
    }

    /** vmunmap: exactly the pages of [va, va + npages * PGSIZE) lose their translation, and
        with doFree exactly their frames become free.  If only the first m pages are mapped, that
        happens to those, and then the kernel panics. */
    method VmUnmap(t: int, va: int, npages: nat, doFree: bool, ghost m: nat) returns (panicked: bool)
      requires Valid() && 0 <= va && va % PGSIZE == 0 && m <= npages
      requires forall w :: va / PGSIZE <= w < va / PGSIZE + m ==> Ready(mem, role, t, w, doFree)
      requires m < npages ==> Vacant(mem, role, t, va / PGSIZE + m) && va / PGSIZE + m < MAXVPN
      modifies this
      ensures panicked <==> m < npages
      ensures Valid() && Undisturbed(old(data), data, role)
      ensures Unmapped(old(mem), mem, old(role), t, va / PGSIZE, m)
      ensures Freed(old(role), role, t, va / PGSIZE, m, doFree)
    {
      hide Trees, Frames, Pool, Sized, Word, IsValid, IsLeaf, Flags, Ppn, Pte, PX, Low, SameMaps, MapSet, Unmapped, Freed, Ready, Undisturbed, Vacant;
      var a, end := va / PGSIZE, va / PGSIZE + npages;
      ghost var v0 := a;
      FreedStart(mem, data, role, t, v0, doFree);
      while a < end
        invariant v0 <= a <= v0 + m
        invariant Valid() && Undisturbed(old(data), data, role)
        invariant Unmapped(old(mem), mem, old(role), t, v0, a - v0) && Freed(old(role), role, t, v0, a - v0, doFree)
      {
        ghost var role1, mem1, data1 := role, mem, data;
        if a < v0 + m {
          assert Ready(old(mem), old(role), t, v0 + (a - v0), doFree);
          ReadyStill(old(mem), mem, old(role), role, t, v0, a - v0, doFree);
        } else {
          VacantStill(old(mem), mem, old(role), role, t, v0, m, doFree);
        }
        ReadyOrVacant(mem, role, t, a, doFree);
        panicked := UnmapPage(t, a, doFree);
        if panicked { return; }
        UnmappedMore(old(mem), mem1, mem, old(role), role1, role, t, v0, a - v0, doFree);
        FreedMore(old(role), role1, role, t, v0, a - v0, doFree, Ppn(Pte(mem1, t, a)));
        UndisturbedOn(old(data), data1, data, role1, role);
        a := a + 1;
      }
      panicked := false;
    }
  }

  lemma ReadyOrVacant(mem: Memory, role: Roles, t: int, v: int, free: bool)
    ensures Ready(mem, role, t, v, free) ==> !Vacant(mem, role, t, v) && v < MAXVPN && InTable(role, t, v)
    ensures Vacant(mem, role, t, v) ==> InTable(role, t, v)
  {
  }

  /** walk and the check of PTE_V find a page mapped exactly if it is. */
  lemma NotThere(mem: Memory, role: Roles, t: int, v: int)
    requires Trees(mem, role) && InTable(role, t, v)
    ensures Pte(mem, t, v) == 0 <==> Low(mem, t, v) == NOPAGE || !IsValid(Entry(mem, Low(mem, t, v), PX(0, v)))
    ensures Pte(mem, t, v) != 0 ==> Pte(mem, t, v) == Entry(mem, Low(mem, t, v), PX(0, v)) && Flags(Pte(mem, t, v)) != PTE_V
  {
    LeafFound(mem, role, t, v);
    assert !IsValid(0);
  }

  lemma VacantStill(mem: Memory, mem': Memory, role: Roles, role': Roles, t: int, v0: int, k: nat, free: bool)
    requires Vacant(mem, role, t, v0 + k) && Freed(role, role', t, v0, k, free) && Unmapped(mem, mem', role, t, v0, k)
    ensures Vacant(mem', role', t, v0 + k)
  {
    assert FreedAt(role, role', t, v0, k, free, t);
    hide Pte, PX;
    assert Pte(mem', t, v0 + k) == Pte(mem, t, v0 + k);
  }

  lemma UndisturbedOn(x: Bytes, y: Bytes, z: Bytes, r: Roles, s: Roles)
    requires Undisturbed(x, y, r) && Undisturbed(y, z, s)
    requires forall p :: p in s && !s[p].Free? ==> p in r && !r[p].Free?
    ensures Undisturbed(x, z, s)
  {
  }

  lemma OnlyPage(x: Bytes, y: Bytes, r: Roles, p: int)
    requires p in y && y == x[p := y[p]] && (p in r ==> r[p].Free?)
    ensures Undisturbed(x, y, r)
  {
  }

  lemma Untouched(x: Bytes, r: Roles)
    ensures Undisturbed(x, x, r)
  {
  }

  /** Overwriting a page outside the tables leaves the bottom pages where they are. */
  lemma StillLow(mem: Memory, mem': Memory, role: Roles, t: int, v: int, q: int)
    requires Trees(mem, role) && InTable(role, t, v) && q in role && Level(role[q]) < 0
    requires q in mem' && mem' == mem[q := mem'[q]]
    ensures Low(mem', t, v) == Low(mem, t, v)
  {
    forall p | p in role && Level(role[p]) > 0 ensures p in mem && mem'[p] == mem[p] { assert PageAt(mem, role, p); }
    SameLow(mem, mem', role, t, v);
  }

  /** What happened up to a point and what happened since then, taken together. */
  lemma Since(a: Memory, b: Memory, c: Memory, x: Bytes, y: Bytes, z: Bytes, r: Roles, s: Roles, u: Roles)
    requires Kept(r, s) && SameMaps(a, b, r) && Undisturbed(x, y, r)
    requires Kept(s, u) && SameMaps(b, c, s) && Undisturbed(y, z, s)
    ensures Kept(r, u) && SameMaps(a, c, r) && Undisturbed(x, z, r)
  {
    KeptTrans(r, s, u);
    hide Pte, PX;
    forall t, v | InTable(r, t, v) ensures Pte(c, t, v) == Pte(a, t, v) {
      assert KeptAt(r, s, t);
      assert InTable(s, t, v);
      assert Pte(b, t, v) == Pte(a, t, v);
    }
    forall p | p in r && !r[p].Free? && p in x ensures p in z && z[p] == x[p] {
      assert KeptAt(r, s, p);
    }
  }
}
