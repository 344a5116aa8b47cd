/** User memory and the two page tables that map it: the table the process runs on and the
    kernel table that lets the kernel reach user addresses directly (kernel/vm.c 285-490). */
module AddressSpaces {
  import opened PageTables
  import opened VirtualMemory

  /** PGROUNDUP(sz) / PGSIZE */
  function Pages(sz: int): int { (sz + (PGSIZE - 1)) / PGSIZE }

  // ---- the two tables in lockstep ----

  ghost predicate UserTable(role: Roles, t: int)
  {
    t in role && role[t] == Root(2, AllEntries(), map[])
  }

  /** The user part of a kernel table is its own; its other entries are shared, except perhaps
      the one for the kernel stack. */
  ghost predicate KernelTable(role: Roles, t: int)
  {
    t in role && role[t].Root? && role[t].level == 2 && {0, 1} <= role[t].own <= {0, 1, STACKINDEX}
  }

  ghost predicate PairAt(mem: Memory, role: Roles, t: int, kt: int, n: int, v: int)
  {
    0 <= v < USERPAGES ==>
      if v < n then Holds(mem, role, t, v) && Pte(mem, kt, v) == NoUser(Pte(mem, t, v))
      else Pte(mem, t, v) == 0 && Pte(mem, kt, v) == 0
  }

  /** Both tables map exactly the pages below n, to the same frames, which the user table holds;
      the kernel's copy of an entry differs only in that PTE_U is absent. */
  ghost predicate Lockstep(mem: Memory, role: Roles, t: int, kt: int, n: int)
  {
    && UserTable(role, t) && KernelTable(role, kt) && t != kt && 0 <= n <= USERPAGES
    && forall v {:trigger PairAt(mem, role, t, kt, n, v)} :: PairAt(mem, role, t, kt, n, v)
  }

  lemma LowIndex(v: int)
    requires 0 <= v < USERPAGES
    ensures PX(2, v) == 0 || PX(2, v) == 1
    ensures PX(2, v) in AllEntries()
  {
    assert IsEntry(PX(2, v));
  }

  lemma InUser(role: Roles, t: int, v: int)
    requires UserTable(role, t) && 0 <= v < ALLVPN
    ensures InTable(role, t, v)
  {
    IndexRange(v);
    assert IsEntry(PX(2, v));
    hide PX;
  }

  lemma InKernel(role: Roles, kt: int, v: int)
    requires KernelTable(role, kt) && 0 <= v < USERPAGES
    ensures InTable(role, kt, v)
  {
    LowIndex(v);
    hide PX;
  }

  // ---- there are fewer pages than user addresses ----

  ghost function Used(mem: Memory, t: int, n: nat): set<int>
  {
    if n == 0 then {} else Used(mem, t, n - 1) + {Ppn(Pte(mem, t, n - 1))}
  }

  lemma {:induction false} UsedSize(mem: Memory, role: Roles, t: int, n: nat)
    requires forall v :: 0 <= v < n ==> Holds(mem, role, t, v)
    ensures |Used(mem, t, n)| == n
    ensures forall p :: p in Used(mem, t, n) ==> p in role && role[p].Frame? && 0 <= role[p].v < n
  {
    hide Pte, PX, Ppn;
    if n > 0 {
      UsedSize(mem, role, t, n - 1);
      assert Holds(mem, role, t, n - 1);
    }
  }

  /** A process never has more pages than there is physical memory. */
  lemma FewPages(mem: Memory, next: map<int, int>, head: int, npage: int, free: seq<int>, role: Roles, t: int, n: nat)
    requires Pool(next, head, npage, free, role)
    requires forall v :: 0 <= v < n ==> Holds(mem, role, t, v)
    ensures n <= STOPPAGE - FIRSTPAGE
  {
    UsedSize(mem, role, t, n);
    forall p | p in Used(mem, t, n) ensures FIRSTPAGE <= p < STOPPAGE {
      assert FreeAt(free, role, p);
    }
    Bounded(Used(mem, t, n), FIRSTPAGE, STOPPAGE);
  }

  lemma {:induction false} Bounded(s: set<int>, a: int, b: int)
    requires a <= b && forall p :: p in s ==> a <= p < b
    ensures |s| <= b - a
    decreases b - a
  {
    if a < b {
      Bounded(s - {a}, a + 1, b);
    } else {
      assert forall p :: p !in s;
      assert s == {};
    }
  }

  lemma {:induction false} SetSize(free: seq<int>)
    requires Distinct(free)
    ensures |set p | p in free| == |free|
    decreases |free|
  {
    var s := set p | p in free;
    if free != [] {
      var rest := free[..|free| - 1];
      SetSize(rest);
      assert s == (set p | p in rest) + {free[|free| - 1]};
    }
  }

  /** Nor are there more free pages than that. */
  lemma FreeFew(next: map<int, int>, head: int, npage: int, free: seq<int>, role: Roles)
    requires Pool(next, head, npage, free, role)
    ensures |free| <= STOPPAGE - FIRSTPAGE
  {
    var s := set p | p in free;
    forall p | p in s ensures FIRSTPAGE <= p < STOPPAGE {
      assert FreeAt(free, role, p);
    }
    Bounded(s, FIRSTPAGE, STOPPAGE);
    SetSize(free);
  }

  // ---- one page, in both tables ----

  lemma OnePage(v: int)
    requires 0 <= v
    ensures v * PGSIZE / PGSIZE == v == (v * PGSIZE + PGSIZE - 1) / PGSIZE && v * PGSIZE % PGSIZE == 0
  {
  }

  lemma MappedOne(mem: Memory, mem': Memory, role: Roles, t: int, v: int, k: int, ppn: int, flags: int)
    requires Mapped(mem, mem', role, t, v, k, ppn, flags) && 0 <= k <= 1
    ensures k == 0 ==> SameMaps(mem, mem', role)
    ensures k == 1 ==> MapSet(mem, mem', role, t, v, Word(ppn, flags))
  {
    hide Pte, PX, Word;
  }

  /** Page v is mapped in both tables (or only in t) to the frame q, everything else as before. */
  ghost predicate Paired(mem: Memory, mem': Memory, role: Roles, t: int, kt: int, v: int, e: int, ke: int)
  {
    forall u, w {:trigger Pte(mem', u, w)} :: InTable(role, u, w) ==>
      Pte(mem', u, w) == if u == t && w == v then e else if u == kt && w == v then ke else Pte(mem, u, w)
  }

  method MapOne(k: Kernel, t: int, v: int, q: int, perm: int) returns (r: int)
    requires k.Valid() && 0 <= v < MAXVPN && 0 < q && 0 <= perm < 1024 && IsLeaf(perm) && Vacant(k.mem, k.role, t, v)
    modifies k
    ensures k.Valid() && Kept(old(k.role), k.role) && Undisturbed(old(k.data), k.data, old(k.role))
    ensures r == 0 || r == -1
    ensures Built(t, t, old(k.role), k.role)
    ensures r == 0 ==> MapSet(old(k.mem), k.mem, old(k.role), t, v, Word(q, WithValid(perm)))
    ensures r == -1 ==> SameMaps(old(k.mem), k.mem, old(k.role)) && k.free == []
    ensures r == 0 <==> Missing(old(k.mem), t, v) <= |old(k.free)|
    ensures r == 0 ==> |k.free| == |old(k.free)| - Missing(old(k.mem), t, v) && WaySet(old(k.mem), k.mem, old(k.role), {t}, v)
  {
    hide Trees, Frames, Pool, Sized, Word, IsValid, IsLeaf, Pte, PX, Low, SameMaps, MapSet, Kept, Undisturbed, Vacant, Mapped, WithValid, Built, Missing, WaySet;
    OnePage(v);
    r := k.MapPages(t, v * PGSIZE, PGSIZE, q, perm);
    forall n | 0 <= n <= 1 && Mapped(old(k.mem), k.mem, old(k.role), t, v, n, q, WithValid(perm))
      ensures n == 0 ==> SameMaps(old(k.mem), k.mem, old(k.role))
      ensures n == 1 ==> MapSet(old(k.mem), k.mem, old(k.role), t, v, Word(q, WithValid(perm)))
    {
      MappedOne(old(k.mem), k.mem, old(k.role), t, v, n, q, WithValid(perm));
    }
  }

  /** A page held by its address becomes the frame of the entry that points to it. */
  lemma Adopted(mem: Memory, data: Bytes, next: map<int, int>, head: int, npage: int, free: seq<int>, role: Roles, t: int, v: int, q: int)
    requires Trees(mem, role) && Frames(mem, role) && Pool(next, head, npage, free, role) && Sized(data, role)
    requires q in role && role[q].Other? && InTable(role, t, v) && Pte(mem, t, v) != 0 && Ppn(Pte(mem, t, v)) == q
    ensures var role' := role[q := Frame(t, v)];
      Trees(mem, role') && Frames(mem, role') && Pool(next, head, npage, free, role') && Sized(data, role') && Holds(mem, role', t, v)
  {
    Recast(mem, role, q, Frame(t, v));
    PoolKept(next, head, npage, free, role, q, Frame(t, v));
    var role' := role[q := Frame(t, v)];
    hide Pte, PX, Ppn;
    forall p ensures FrameAt(mem, role', p) {
      assert FrameAt(mem, role, p);
    }
  }

  lemma KeptWith(role: Roles, role': Roles, q: int, r: Role)
    requires Kept(role, role') && q in role && role[q].Other?
    ensures q in role' && role'[q].Other? && Kept(role[q := r], role'[q := r])
  {
    assert KeptAt(role, role', q);
    var a, b := role[q := r], role'[q := r];
    forall p ensures KeptAt(a, b, p) {
      assert KeptAt(role, role', p);
    }
  }

  lemma SetTwice(a: Memory, b: Memory, c: Memory, role: Roles, role': Roles, t: int, kt: int, v: int, e: int, ke: int)
    requires MapSet(a, b, role, t, v, e) && MapSet(b, c, role', kt, v, ke) && t != kt
    requires RootsIn(role, role')
    ensures Paired(a, c, role, t, kt, v, e, ke)
  {
    hide Pte, PX;
    forall u, w | InTable(role, u, w)
      ensures Pte(c, u, w) == if u == t && w == v then e else if u == kt && w == v then ke else Pte(a, u, w)
    {
      assert InTable(role', u, w);
      assert Pte(b, u, w) == if u == t && w == v then e else Pte(a, u, w);
    }
  }

  lemma SetThenSame(a: Memory, b: Memory, c: Memory, role: Roles, role': Roles, t: int, v: int, e: int)
    requires MapSet(a, b, role, t, v, e) && SameMaps(b, c, role')
    requires RootsIn(role, role')
    ensures MapSet(a, c, role, t, v, e)
  {
    hide Pte, PX;
    forall u, w | InTable(role, u, w)
      ensures Pte(c, u, w) == if u == t && w == v then e else Pte(a, u, w)
    {
      assert InTable(role', u, w);
      assert Pte(b, u, w) == if u == t && w == v then e else Pte(a, u, w);
    }
  }

  lemma AfterFirst(mem: Memory, mem': Memory, role: Roles, role': Roles, t: int, kt: int, v: int, q: int, perm: int)
    requires Kept(role, role') && Vacant(mem, role, t, v) && Vacant(mem, role, kt, v) && t != kt
    requires 0 < q && 0 <= perm < 1024 && IsLeaf(perm) && MapSet(mem, mem', role, t, v, Word(q, WithValid(perm)))
    ensures InTable(role', t, v) && InTable(role', kt, v) && Pte(mem', t, v) != 0 && Ppn(Pte(mem', t, v)) == q && Pte(mem', kt, v) == 0
  {
    WordEntry(q, perm);
    KeptTables(role, role', t, v);
    KeptTables(role, role', kt, v);
    hide PX, IsValid, IsLeaf, Word, Ppn;
  }

  lemma UndisturbedBut(x: Bytes, y: Bytes, role: Roles, q: int, r: Role)
    requires q in role && !role[q].Free? && !r.Free? && Undisturbed(x, y, role[q := r])
    ensures Undisturbed(x, y, role)
  {
    forall p | p in role && !role[p].Free? && p in x ensures p in y && y[p] == x[p] {
      assert p in role[q := r];
    }
  }

  lemma OtherWay(mem: Memory, mem': Memory, role: Roles, tables: set<int>, v: int, u: int, w: int)
    requires WaySet(mem, mem', role, tables, v) && InTable(role, u, w) && u !in tables
    ensures Missing(mem', u, w) == Missing(mem, u, w)
  {
    hide Missing, PX;
  }

  /** The two mappages calls that uvmalloc and uvmcopy make for the page q they have just
      allocated: 0 if both succeeded; 1 if the user table could not be extended, q being freed;
      2 if the kernel table could not, page v being left in the user table. */
  method MapPair(k: Kernel, t: int, kt: int, v: int, q: int, perm: int, kperm: int) returns (code: int)
    requires k.Valid() && 0 <= v < USERPAGES && 0 < q && q in k.role && k.role[q].Other?
    requires 0 <= perm < 1024 && IsLeaf(perm) && 0 <= kperm < 1024 && IsLeaf(kperm)
    requires Vacant(k.mem, k.role, t, v) && Vacant(k.mem, k.role, kt, v) && t != kt
    modifies k
    ensures k.Valid() && 0 <= code <= 2 && Built(t, kt, old(k.role), k.role)
    ensures code == 0 ==> Paired(old(k.mem), k.mem, old(k.role), t, kt, v, Word(q, WithValid(perm)), Word(q, WithValid(kperm)))
    ensures code == 1 ==> SameMaps(old(k.mem), k.mem, old(k.role)) && Kept(old(k.role)[q := Free], k.role) && Undisturbed(old(k.data), k.data, old(k.role)[q := Free])
    ensures code == 2 ==> MapSet(old(k.mem), k.mem, old(k.role), t, v, Word(q, WithValid(perm)))
    ensures code != 1 ==> Kept(old(k.role)[q := Frame(t, v)], k.role) && Undisturbed(old(k.data), k.data, old(k.role))
    ensures code == 0 <==> Missing(old(k.mem), t, v) + Missing(old(k.mem), kt, v) <= |old(k.free)|
    ensures code == 0 ==>
      && |k.free| == |old(k.free)| - Missing(old(k.mem), t, v) - Missing(old(k.mem), kt, v)
      && WaySet(old(k.mem), k.mem, old(k.role), {t, kt}, v)
  {
    hide Trees, Frames, Pool, Sized, Word, IsValid, IsLeaf, Pte, PX, Low, Ppn, SameMaps, MapSet, Kept, Paired, WithValid, Built, Missing, WaySet;
    ghost var role0, mem0, data0 := k.role, k.mem, k.data;
    var r := MapOne(k, t, v, q, perm);
    BuiltMore(t, t, t, kt, role0, k.role);
    ghost var role1, mem1, data1 := k.role, k.mem, k.data;
    KeptRoots(role0, role1);
    if r != 0 {
      KeptWith(role0, role1, q, Free);
      k.KFree(q);
      BuiltOne(t, kt, role1, q, Free);
      BuiltTrans(t, kt, role0, role1, k.role);
      MapsTrans(mem0, mem1, k.mem, role0, role0, k.role);
      return 1;
    }
    AfterFirst(mem0, mem1, role0, role1, t, kt, v, q, perm);
    OtherWay(mem0, mem1, role0, {t}, v, kt, v);
    KeptWith(role0, role1, q, Frame(t, v));
    Adopted(mem1, data1, k.next, k.head, k.npage, k.free, role1, t, v, q);
    k.role := k.role[q := Frame(t, v)];
    BuiltOne(t, kt, role1, q, Frame(t, v));
    BuiltTrans(t, kt, role0, role1, k.role);
    ghost var role2 := k.role;
    r := MapOne(k, kt, v, q, kperm);
    BuiltMore(kt, kt, t, kt, role2, k.role);
    BuiltTrans(t, kt, role0, role2, k.role);
    KeptOn(role0[q := Frame(t, v)], role1[q := Frame(t, v)], k.role, data0, data1, k.data);
    UndisturbedBut(data0, k.data, role0, q, Frame(t, v));
    if r != 0 {
      SetThenSame(mem0, mem1, k.mem, role0, role1[q := Frame(t, v)], t, v, Word(q, WithValid(perm)));
      return 2;
    }
    SetTwice(mem0, mem1, k.mem, role0, role1[q := Frame(t, v)], t, kt, v, Word(q, WithValid(perm)), Word(q, WithValid(kperm)));
    WayJoin(mem0, mem1, k.mem, role0, role1[q := Frame(t, v)], {t}, {kt}, v);
    assert {t} + {kt} == {t, kt};
    code := 0;
  }

  // ---- shrinking ----

  /** The pages n1 .. n0 of both tables translate to nothing, everything else as before. */
  ghost predicate Cleared(mem: Memory, mem': Memory, role: Roles, t: int, kt: int, n1: int, n0: int)
  {
    forall u, w {:trigger Pte(mem', u, w)} :: InTable(role, u, w) ==>
      Pte(mem', u, w) == if (u == t || u == kt) && n1 <= w < n0 then 0 else Pte(mem, u, w)
  }

  lemma ReadyBoth(mem: Memory, role: Roles, t: int, kt: int, n: int, w: int)
    requires Trees(mem, role) && Lockstep(mem, role, t, kt, n) && 0 <= w < n
    ensures Ready(mem, role, t, w, true) && Ready(mem, role, kt, w, false)
  {
    assert PairAt(mem, role, t, kt, n, w);
    InUser(role, t, w);
    InKernel(role, kt, w);
    LeafFound(mem, role, t, w);
    NoUserParts(Pte(mem, t, w));
    hide Pte, PX, Ppn, IsValid, NoUser, IsLeaf, IsUser, Trees;
  }

  lemma FreedNone(role: Roles, role': Roles, t: int, v0: int, k: int)
    requires Freed(role, role', t, v0, k, false)
    ensures role' == role
  {
    forall p ensures (p in role <==> p in role') && (p in role ==> role'[p] == role[p]) {
      assert FreedAt(role, role', t, v0, k, false, p);
    }
  }

  lemma ReadyAfter(mem: Memory, mem': Memory, role: Roles, t: int, kt: int, v0: int, k: int, w: int)
    requires Ready(mem, role, t, w, true) && Unmapped(mem, mem', role, kt, v0, k) && t != kt
    ensures Ready(mem', role, t, w, true)
  {
    hide Pte, PX, Ppn;
    assert Pte(mem', t, w) == Pte(mem, t, w);
  }

  lemma ClearedBoth(a: Memory, b: Memory, c: Memory, role: Roles, t: int, kt: int, v0: int, k: int)
    requires Unmapped(a, b, role, kt, v0, k) && Unmapped(b, c, role, t, v0, k)
    ensures Cleared(a, c, role, t, kt, v0, v0 + k)
  {
    hide Pte, PX;
    forall u, w | InTable(role, u, w)
      ensures Pte(c, u, w) == if (u == t || u == kt) && v0 <= w < v0 + k then 0 else Pte(a, u, w)
    {
      assert Pte(b, u, w) == if u == kt && v0 <= w < v0 + k then 0 else Pte(a, u, w);
    }
  }

  lemma LockstepDown(mem: Memory, mem': Memory, role: Roles, role': Roles, t: int, kt: int, n1: int, n0: int)
    requires Lockstep(mem, role, t, kt, n0) && 0 <= n1 <= n0
    requires Cleared(mem, mem', role, t, kt, n1, n0) && Freed(role, role', t, n1, n0 - n1, true)
    ensures Lockstep(mem', role', t, kt, n1)
  {
    assert FreedAt(role, role', t, n1, n0 - n1, true, t) && FreedAt(role, role', t, n1, n0 - n1, true, kt);
    forall v ensures PairAt(mem', role', t, kt, n1, v) {
      assert PairAt(mem, role, t, kt, n0, v);
      if 0 <= v < USERPAGES {
        InUser(role, t, v);
        InKernel(role, kt, v);
        InUser(role', t, v);
        assert Pte(mem', t, v) == if n1 <= v < n0 then 0 else Pte(mem, t, v);
        assert Pte(mem', kt, v) == if n1 <= v < n0 then 0 else Pte(mem, kt, v);
        assert FreedAt(role, role', t, n1, n0 - n1, true, Ppn(Pte(mem, t, v)));
      }
      hide Pte, PX, Ppn, NoUser, InTable, UserTable, KernelTable, Cleared, Freed;
    }
  }

  /** The two vmunmap calls of uvmdealloc. */
  method UnmapBoth(k: Kernel, t: int, kt: int, ghost n: int, n1: int, n0: int) returns (panicked: bool)
    requires k.Valid() && Lockstep(k.mem, k.role, t, kt, n) && 0 <= n1 < n0 && n1 < USERPAGES
    modifies k
    ensures panicked <==> n < n0
    ensures k.Valid() && Undisturbed(old(k.data), k.data, k.role)
    ensures !panicked ==>
      && Cleared(old(k.mem), k.mem, old(k.role), t, kt, n1, n0) && Freed(old(k.role), k.role, t, n1, n0 - n1, true)
      && (n0 == n ==> Lockstep(k.mem, k.role, t, kt, n1))
    ensures panicked ==> k.role == old(k.role) && Unmapped(old(k.mem), k.mem, old(k.role), kt, n1, if n1 < n then n - n1 else 0)
  {
    hide Trees, Frames, Pool, Sized, Lockstep, Cleared, Freed, Undisturbed, Unmapped, Ready, Vacant;
    ghost var mem0, role0, data0 := k.mem, k.role, k.data;
    OnePage(n1);
    Distinct'(mem0, role0, t, kt, n);
    ghost var m := if n0 <= n then n0 - n1 else if n1 < n then n - n1 else 0;
    forall w | n1 <= w < n1 + m ensures Ready(mem0, role0, t, w, true) && Ready(mem0, role0, kt, w, false) {
      ReadyBoth(mem0, role0, t, kt, n, w);
    }
    HeldBelow(mem0, role0, t, kt, n);
    FewPages(mem0, k.next, k.head, k.npage, k.free, role0, t, n);
    if n < n0 { VacantBoth(mem0, role0, t, kt, n, n1 + m); }
    panicked := k.VmUnmap(kt, n1 * PGSIZE, n0 - n1, false, m);
    ghost var mem1, data1 := k.mem, k.data;
    FreedNone(role0, k.role, kt, n1, m);
    if panicked { return; }
    forall w | n1 <= w < n0 ensures Ready(mem1, role0, t, w, true) {
      assert Ready(mem0, role0, t, w, true);
      ReadyAfter(mem0, mem1, role0, t, kt, n1, n0 - n1, w);
    }
    panicked := k.VmUnmap(t, n1 * PGSIZE, n0 - n1, true, n0 - n1);
    ClearedBoth(mem0, mem1, k.mem, role0, t, kt, n1, n0 - n1);
    if n0 == n { LockstepDown(mem0, k.mem, role0, k.role, t, kt, n1, n0); }
    UndisturbedFreed(data0, data1, k.data, role0, k.role, t, n1, n0 - n1);
  }

  lemma Distinct'(mem: Memory, role: Roles, t: int, kt: int, n: int)
    requires Lockstep(mem, role, t, kt, n)
    ensures t != kt && 0 <= n <= USERPAGES
  {
  }

  lemma UndisturbedFreed(x: Bytes, y: Bytes, z: Bytes, r: Roles, s: Roles, t: int, v0: int, k: int)
    requires Undisturbed(x, y, r) && Undisturbed(y, z, s) && Freed(r, s, t, v0, k, true)
    ensures Undisturbed(x, z, s)
  {
    forall p | p in s && !s[p].Free? ensures p in r && !r[p].Free? {
      assert FreedAt(r, s, t, v0, k, true, p);
    }
    UndisturbedOn(x, y, z, r, s);
  }

  /** uvmdealloc, for tables that map n pages.  It panics exactly if it is to unmap a page that is
      not there, having taken back only the kernel table's copies of the pages that are. */
  method UvmDealloc(k: Kernel, t: int, kt: int, ghost n: int, oldsz: int, newsz: int) returns (r: int, panicked: bool)
    requires k.Valid() && 0 <= oldsz && 0 <= newsz && Lockstep(k.mem, k.role, t, kt, n)
    requires newsz < oldsz ==> Pages(newsz) < USERPAGES && Pages(oldsz) - Pages(newsz) < 0x8000_0000
    modifies k
    ensures r == if newsz >= oldsz then oldsz else newsz
    ensures panicked <==> newsz < oldsz && Pages(newsz) < Pages(oldsz) && n < Pages(oldsz)
    ensures k.Valid() && Undisturbed(old(k.data), k.data, k.role)
    ensures !panicked ==>
      && Cleared(old(k.mem), k.mem, old(k.role), t, kt, Pages(r), Pages(oldsz))
      && Freed(old(k.role), k.role, t, Pages(r), Pages(oldsz) - Pages(r), true)
      && (n == Pages(oldsz) ==> Lockstep(k.mem, k.role, t, kt, Pages(r)))
    ensures panicked ==>
      && k.role == old(k.role)
      && Unmapped(old(k.mem), k.mem, old(k.role), kt, Pages(newsz), if Pages(newsz) < n then n - Pages(newsz) else 0)
  {
    hide Trees, Frames, Pool, Sized, Lockstep, Pte, PX, InTable, Unmapped;
    if newsz >= oldsz {
      return oldsz, false;
    }
    panicked := false;
    if Pages(newsz) < Pages(oldsz) {
      panicked := UnmapBoth(k, t, kt, n, Pages(newsz), Pages(oldsz));
    }
    r := newsz;
  }

  // ---- growing ----

  ghost predicate GrewAt(role: Roles, role': Roles, t: int, n0: int, m: int, p: int)
  {
    (p in role <==> p in role') &&
    (p in role ==>
      && (role[p].Frame? && role[p].table == t ==> !(n0 <= role[p].v < m))
      && (role'[p] == role[p] ||
          (role[p].Free? && (role'[p].Sub? || (role'[p].Frame? && role'[p].table == t && n0 <= role'[p].v < m)))))
  }

  /** Free pages became table pages, or the frames of pages n0 .. m of table t; no other page
      changed hands. */
  ghost predicate Grew(role: Roles, role': Roles, t: int, n0: int, m: int)
  {
    forall p {:trigger GrewAt(role, role', t, n0, m, p)} :: GrewAt(role, role', t, n0, m, p)
  }

  /** Outside the pages n0 .. m of the two tables everything translates as before. */
  ghost predicate Extended(mem: Memory, mem': Memory, role: Roles, t: int, kt: int, n0: int, m: int)
  {
    forall u, w {:trigger Pte(mem', u, w)} :: InTable(role, u, w) ==>
      (((u == t || u == kt) && n0 <= w < m) || Pte(mem', u, w) == Pte(mem, u, w))
  }

  /** One more page in both tables. */
  lemma PairMore(mem0: Memory, mem2: Memory, role0: Roles, role2: Roles, t: int, kt: int, a: int, q: int, e: int)
    requires Lockstep(mem0, role0, t, kt, a) && a < USERPAGES
    requires q in role0 && role0[q].Free? && Kept(role0[q := Frame(t, a)], role2)
    requires Paired(mem0, mem2, role0, t, kt, a, e, NoUser(e)) && e != 0 && Ppn(e) == q
    ensures Lockstep(mem2, role2, t, kt, a + 1)
  {
    var role1 := role0[q := Frame(t, a)];
    assert KeptAt(role1, role2, t) && KeptAt(role1, role2, kt) && KeptAt(role1, role2, q);
    hide Pte, PX, Ppn, NoUser;
    var a' := a + 1;
    forall v ensures PairAt(mem2, role2, t, kt, a', v) {
      assert PairAt(mem0, role0, t, kt, a, v);
      if 0 <= v < USERPAGES {
        InUser(role0, t, v);
        InKernel(role0, kt, v);
        assert Pte(mem2, t, v) == if v == a then e else Pte(mem0, t, v);
        assert Pte(mem2, kt, v) == if v == a then NoUser(e) else Pte(mem0, kt, v);
        InUser(role2, t, v);
        assert KeptAt(role1, role2, Ppn(Pte(mem0, t, v)));
      }
    }
  }

  lemma GrewMore(role: Roles, role0: Roles, role2: Roles, t: int, n0: int, a: int, q: int)
    requires Grew(role, role0, t, n0, a) && q in role0 && role0[q].Free? && Kept(role0[q := Frame(t, a)], role2) && n0 <= a
    requires forall p :: p in role0 ==> role0[p] != Frame(t, a)
    ensures Grew(role, role2, t, n0, a + 1)
  {
    var a' := a + 1;
    forall p ensures GrewAt(role, role2, t, n0, a', p) {
      assert GrewAt(role, role0, t, n0, a, p) && KeptAt(role0[q := Frame(t, a)], role2, p);
    }
  }

  lemma ExtendedMore(mem: Memory, mem0: Memory, mem2: Memory, role: Roles, role0: Roles, t: int, kt: int, n0: int, a: int, e: int, ke: int)
    requires Extended(mem, mem0, role, t, kt, n0, a) && n0 <= a && Grew(role, role0, t, n0, a)
    requires Paired(mem0, mem2, role0, t, kt, a, e, ke)
    ensures Extended(mem, mem2, role, t, kt, n0, a + 1)
  {
    hide Pte, PX;
    forall u, w | InTable(role, u, w)
      ensures ((u == t || u == kt) && n0 <= w < a + 1) || Pte(mem2, u, w) == Pte(mem, u, w)
    {
      assert GrewAt(role, role0, t, n0, a, u);
      assert InTable(role0, u, w);
    }
  }

  lemma GrowStart(mem: Memory, data: Bytes, role: Roles, t: int, kt: int, n: int)
    ensures Extended(mem, mem, role, t, kt, n, n) && Grew(role, role, t, n, n) && Undisturbed(data, data, role)
  {
    hide Pte, PX;
  }

  lemma VacantBoth(mem: Memory, role: Roles, t: int, kt: int, n: int, v: int)
    requires Lockstep(mem, role, t, kt, n) && n <= v < USERPAGES
    ensures Vacant(mem, role, t, v) && Vacant(mem, role, kt, v) && t != kt
  {
    assert PairAt(mem, role, t, kt, n, v);
    InUser(role, t, v);
    InKernel(role, kt, v);
    hide Pte, PX;
  }

  lemma HeldBelow(mem: Memory, role: Roles, t: int, kt: int, n: int)
    requires Lockstep(mem, role, t, kt, n)
    ensures forall v :: 0 <= v < n ==> Holds(mem, role, t, v)
  {
    hide Pte, PX, Holds;
    forall v | 0 <= v < n ensures Holds(mem, role, t, v) {
      assert PairAt(mem, role, t, kt, n, v);
    }
  }

  lemma SameThenPaired(a: Memory, b: Memory, c: Memory, role: Roles, role': Roles, t: int, kt: int, v: int, e: int, ke: int)
    requires SameMaps(a, b, role') && Paired(b, c, role', t, kt, v, e, ke) && RootsIn(role, role')
    ensures Paired(a, c, role, t, kt, v, e, ke)
  {
    hide Pte, PX;
    forall u, w | InTable(role, u, w)
      ensures Pte(c, u, w) == if u == t && w == v then e else if u == kt && w == v then ke else Pte(a, u, w)
    {
      assert InTable(role', u, w);
      assert Pte(b, u, w) == Pte(a, u, w);
    }
  }

  lemma SetInRole(a: Memory, b: Memory, c: Memory, role: Roles, role': Roles, t: int, v: int, e: int)
    requires SameMaps(a, b, role') && MapSet(b, c, role', t, v, e) && RootsIn(role, role')
    ensures MapSet(a, c, role, t, v, e)
  {
    hide Pte, PX;
    forall u, w | InTable(role, u, w) ensures Pte(c, u, w) == if u == t && w == v then e else Pte(a, u, w) {
      assert InTable(role', u, w);
      assert Pte(b, u, w) == Pte(a, u, w);
    }
  }

  /** kalloc, memset or memmove, and the two mappages calls, as the loops of uvmalloc and uvmcopy
      make them: 0 if page v is now in both tables; 1 if there was no page to have or the user
      table could not be extended, and nothing is left mapped; 2 if the kernel table could not
      be extended, and page v is left in the user table alone. */
  method NewPage(k: Kernel, t: int, kt: int, v: int, bytes: seq<int>, perm: int, kperm: int) returns (code: int, ghost q: int)
    requires k.Valid() && 0 <= v < USERPAGES && |bytes| == PGSIZE
    requires 0 <= perm < 1024 && IsLeaf(perm) && 0 <= kperm < 1024 && IsLeaf(kperm)
    requires Vacant(k.mem, k.role, t, v) && Vacant(k.mem, k.role, kt, v) && t != kt
    modifies k
    ensures k.Valid() && 0 <= code <= 2 && Undisturbed(old(k.data), k.data, old(k.role)) && Built(t, kt, old(k.role), k.role)
    ensures code == 1 ==> SameMaps(old(k.mem), k.mem, old(k.role)) && Kept(old(k.role), k.role)
    ensures code != 1 ==>
      && q > 0 && q in old(k.role) && old(k.role)[q].Free? && Kept(old(k.role)[q := Frame(t, v)], k.role)
      && q in k.data && k.data[q] == bytes
    ensures code == 0 ==> Paired(old(k.mem), k.mem, old(k.role), t, kt, v, Word(q, WithValid(perm)), Word(q, WithValid(kperm)))
    ensures code == 2 ==> MapSet(old(k.mem), k.mem, old(k.role), t, v, Word(q, WithValid(perm)))
    ensures code == 0 <==> 1 + Missing(old(k.mem), t, v) + Missing(old(k.mem), kt, v) <= |old(k.free)|
    ensures code == 0 ==>
      && |k.free| == |old(k.free)| - 1 - Missing(old(k.mem), t, v) - Missing(old(k.mem), kt, v)
      && WaySet(old(k.mem), k.mem, old(k.role), {t, kt}, v)
  {
    hide Trees, Frames, Pool, Sized, Word, IsValid, IsLeaf, Pte, PX, Low, Ppn, SameMaps, MapSet, Kept, Paired, WithValid, Built, Missing, WaySet;
    ghost var role0, mem0, data0 := k.role, k.mem, k.data;
    BuiltNone(t, kt, role0);
    var p := k.KAlloc();
    q := p;
    if p == 0 {
      Still(mem0, data0, role0, t, v, 0, 0);
      return 1, q;
    }
    NewIsPage(k.mem, k.role, p);
    NewSized(k.data, k.role, p, bytes);
    k.data := k.data[p := bytes];
    ghost var mem1, role1, data1 := k.mem, k.role, k.data;
    VacantKept(mem0, mem1, role0, role1, t, v);
    VacantKept(mem0, mem1, role0, role1, kt, v);
    WaysKept(mem0, mem1, role0, p, v);
    OtherWay(mem0, mem1, role0, {}, v, t, v);
    OtherWay(mem0, mem1, role0, {}, v, kt, v);
    code := MapPair(k, t, kt, v, p, perm, kperm);
    BuiltOne(t, kt, role0, p, Other);
    BuiltTrans(t, kt, role0, role1, k.role);
    assert role1[p := Frame(t, v)] == role0[p := Frame(t, v)] && role1[p := Free] == role0;
    if code == 0 {
      SameThenPaired(mem0, mem1, k.mem, role0, role1, t, kt, v, Word(p, WithValid(perm)), Word(p, WithValid(kperm)));
      WayJoin(mem0, mem1, k.mem, role0, role1, {}, {t, kt}, v);
      assert {} + {t, kt} == {t, kt};
    } else if code == 1 {
      MapsTrans(mem0, mem1, k.mem, role0, role1, role1);
    } else {
      SetInRole(mem0, mem1, k.mem, role0, role1, t, v, Word(p, WithValid(perm)));
    }
    assert code != 1 ==> p in role1 && p in k.data && k.data[p] == data1[p];
    NewUndisturbed(data0, data1, k.data, role0, p);
  }

  lemma NewIsPage(mem: Memory, role: Roles, p: int)
    requires Trees(mem, role) && p in role
    ensures p > 0
  {
    assert PageAt(mem, role, p);
  }

  lemma NewSized(data: Bytes, role: Roles, p: int, bytes: seq<int>)
    requires Sized(data, role) && |bytes| == PGSIZE
    ensures Sized(data[p := bytes], role)
  {
  }

  lemma VacantKept(mem: Memory, mem': Memory, role: Roles, role': Roles, t: int, v: int)
    requires Vacant(mem, role, t, v) && SameMaps(mem, mem', role') && RootsIn(role, role')
    ensures Vacant(mem', role', t, v)
  {
    hide Pte, PX;
    assert Pte(mem', t, v) == Pte(mem, t, v);
  }

  lemma NewUndisturbed(x: Bytes, y: Bytes, z: Bytes, role: Roles, p: int)
    requires p in role && role[p].Free? && forall q :: q in x && q != p ==> q in y && y[q] == x[q]
    requires Undisturbed(y, z, role[p := Other]) || Undisturbed(y, z, role)
    ensures Undisturbed(x, z, role)
  {
    forall q | q in role && !role[q].Free? && q in x ensures q in z && z[q] == x[q] {
      assert q in role[p := Other];
    }
  }

  // ---- giving a failed growth back ----

  /** The frames that came are free again: nothing changed hands but new table pages. */
  lemma UnGrew(role: Roles, role1: Roles, role2: Roles, t: int, n0: int, m: int)
    requires Grew(role, role1, t, n0, m) && Freed(role1, role2, t, n0, m - n0, true)
    ensures Kept(role, role2)
  {
    forall p ensures KeptAt(role, role2, p) {
      assert GrewAt(role, role1, t, n0, m, p) && FreedAt(role1, role2, t, n0, m - n0, true, p);
    }
  }

  /** Pages n0 .. m1 of t1 and n0 .. m2 of t2 translate to nothing, everything else as before. */
  ghost predicate Cut(mem: Memory, mem': Memory, role: Roles, n0: int, t1: int, m1: int, t2: int, m2: int)
  {
    forall u, w {:trigger Pte(mem', u, w)} :: InTable(role, u, w) ==>
      Pte(mem', u, w) == if n0 <= w && ((u == t1 && w < m1) || (u == t2 && w < m2)) then 0 else Pte(mem, u, w)
  }

  lemma TwoUnmaps(a: Memory, b: Memory, c: Memory, role: Roles, role': Roles, n0: int, t1: int, k1: int, t2: int, k2: int)
    requires Unmapped(a, b, role, t1, n0, k1) && Unmapped(b, c, role', t2, n0, k2) && RootsIn(role, role')
    ensures Cut(a, c, role, n0, t1, n0 + k1, t2, n0 + k2) && Cut(a, c, role, n0, t2, n0 + k2, t1, n0 + k1)
  {
    hide Pte, PX;
    forall u, w | InTable(role, u, w)
      ensures Pte(c, u, w) == if n0 <= w && ((u == t1 && w < n0 + k1) || (u == t2 && w < n0 + k2)) then 0 else Pte(a, u, w)
    {
      assert InTable(role', u, w);
      assert Pte(b, u, w) == if u == t1 && n0 <= w < n0 + k1 then 0 else Pte(a, u, w);
    }
  }

  lemma FreedRoots(role: Roles, role': Roles, t: int, v0: int, k: int)
    requires Freed(role, role', t, v0, k, true)
    ensures RootsIn(role, role')
  {
    forall u | u in role && role[u].Root? ensures u in role' && role'[u] == role[u] {
      assert FreedAt(role, role', t, v0, k, true, u);
    }
  }

  lemma GrewRoots(role: Roles, role': Roles, t: int, n0: int, m: int)
    requires Grew(role, role', t, n0, m)
    ensures RootsIn(role, role')
  {
    forall u | u in role && role[u].Root? ensures u in role' && role'[u] == role[u] {
      assert GrewAt(role, role', t, n0, m, u);
    }
  }

  /** With the new pages gone, every table translates as it did at the start. */
  lemma Restored(mem: Memory, mem1: Memory, mem2: Memory, role: Roles, role1: Roles, t: int, kt: int, n0: int, a: int, m1: int, m2: int)
    requires Lockstep(mem, role, t, kt, n0) && Extended(mem, mem1, role, t, kt, n0, m1) && Grew(role, role1, t, n0, a)
    requires Cut(mem1, mem2, role1, n0, t, m1, kt, m2) && n0 <= m2 <= m1 <= USERPAGES
    requires forall w :: m2 <= w < m1 ==> Pte(mem1, kt, w) == 0
    ensures SameMaps(mem, mem2, role)
  {
    hide Pte, PX, NoUser, Holds;
    GrewRoots(role, role1, t, n0, a);
    forall u, w | InTable(role, u, w) ensures Pte(mem2, u, w) == Pte(mem, u, w) {
      assert InTable(role1, u, w);
      assert PairAt(mem, role, t, kt, n0, w);
      assert ((u == t || u == kt) && n0 <= w < m1) || Pte(mem1, u, w) == Pte(mem, u, w);
    }
  }

  /** After the kernel table could not be extended, the pages to be taken back are all there. */
  lemma ReadyHalf(mem0: Memory, mem2: Memory, role0: Roles, role2: Roles, t: int, kt: int, a: int, q: int, e: int, w: int)
    requires Trees(mem0, role0) && Lockstep(mem0, role0, t, kt, a) && a < USERPAGES && 0 <= w <= a
    requires q in role0 && role0[q].Free? && Kept(role0[q := Frame(t, a)], role2)
    requires MapSet(mem0, mem2, role0, t, a, e) && e != 0 && Ppn(e) == q
    ensures Ready(mem2, role2, t, w, true) && (w < a ==> Ready(mem2, role2, kt, w, false))
    ensures Pte(mem2, kt, a) == 0
  {
    var role1 := role0[q := Frame(t, a)];
    assert KeptAt(role1, role2, t) && KeptAt(role1, role2, kt) && KeptAt(role1, role2, q);
    if w < a { ReadyBoth(mem0, role0, t, kt, a, w); }
    assert PairAt(mem0, role0, t, kt, a, a);
    InUser(role0, t, w);
    InKernel(role0, kt, w);
    InKernel(role0, kt, a);
    hide Pte, PX, Ppn, NoUser, Trees;
    assert Pte(mem2, t, w) == if w == a then e else Pte(mem0, t, w);
    assert Pte(mem2, kt, w) == Pte(mem0, kt, w) && Pte(mem2, kt, a) == Pte(mem0, kt, a);
    assert KeptAt(role1, role2, Ppn(Pte(mem0, t, w))) && KeptAt(role1, role2, Ppn(Pte(mem0, kt, w)));
  }

  lemma ReadyKernelAfter(mem: Memory, mem': Memory, role: Roles, role': Roles, t: int, kt: int, v0: int, k: int, w: int)
    requires Ready(mem, role, kt, w, false) && Unmapped(mem, mem', role, t, v0, k) && Freed(role, role', t, v0, k, true) && t != kt
    ensures Ready(mem', role', kt, w, false)
  {
    hide Pte, PX, Ppn;
    assert Pte(mem', kt, w) == Pte(mem, kt, w);
    assert FreedAt(role, role', t, v0, k, true, kt) && FreedAt(role, role', t, v0, k, true, Ppn(Pte(mem, kt, w)));
  }

  lemma ExtendedHalf(mem: Memory, mem0: Memory, mem2: Memory, role: Roles, role0: Roles, t: int, kt: int, n0: int, a: int, e: int)
    requires Extended(mem, mem0, role, t, kt, n0, a) && n0 <= a && Grew(role, role0, t, n0, a) && MapSet(mem0, mem2, role0, t, a, e)
    ensures Extended(mem, mem2, role, t, kt, n0, a + 1)
  {
    hide Pte, PX;
    GrewRoots(role, role0, t, n0, a);
    forall u, w | InTable(role, u, w)
      ensures ((u == t || u == kt) && n0 <= w < a + 1) || Pte(mem2, u, w) == Pte(mem, u, w)
    {
      assert InTable(role0, u, w);
    }
  }

  lemma ExtendedSame(mem: Memory, mem0: Memory, mem2: Memory, role: Roles, role0: Roles, t: int, kt: int, n0: int, a: int)
    requires Extended(mem, mem0, role, t, kt, n0, a) && Grew(role, role0, t, n0, a) && SameMaps(mem0, mem2, role0)
    ensures Extended(mem, mem2, role, t, kt, n0, a)
  {
    hide Pte, PX;
    GrewRoots(role, role0, t, n0, a);
    forall u, w | InTable(role, u, w)
      ensures ((u == t || u == kt) && n0 <= w < a) || Pte(mem2, u, w) == Pte(mem, u, w)
    {
      assert InTable(role0, u, w);
    }
  }

  lemma LockstepSame(mem: Memory, mem': Memory, role: Roles, role': Roles, t: int, kt: int, n: int)
    requires Lockstep(mem, role, t, kt, n) && SameMaps(mem, mem', role) && Kept(role, role')
    ensures Lockstep(mem', role', t, kt, n)
  {
    assert KeptAt(role, role', t) && KeptAt(role, role', kt);
    hide Pte, PX, Ppn, NoUser;
    forall v ensures PairAt(mem', role', t, kt, n, v) {
      assert PairAt(mem, role, t, kt, n, v);
      if 0 <= v < USERPAGES {
        InUser(role, t, v);
        InKernel(role, kt, v);
        InUser(role', t, v);
        assert Pte(mem', t, v) == Pte(mem, t, v) && Pte(mem', kt, v) == Pte(mem, kt, v);
        assert KeptAt(role, role', Ppn(Pte(mem, t, v)));
      }
    }
  }

  lemma UndisturbedBack(x: Bytes, y: Bytes, z: Bytes, r: Roles, s: Roles, u: Roles)
    requires Undisturbed(x, y, r) && Undisturbed(y, z, u) && Kept(r, u)
    ensures Undisturbed(x, z, r)
  {
    forall p | p in r && !r[p].Free? && p in x ensures p in z && z[p] == x[p] {
      assert KeptAt(r, u, p);
    }
  }

  // ---- how many pages growing takes ----

  /** Table pages lacking for page w of table t once pages n0 .. a are mapped in it. */
  ghost function Ahead(mem: Memory, t: int, n0: int, a: int, w: int): nat
  {
    if n0 < a && w / 0x200 == (a - 1) / 0x200 then 0
    else if n0 < a && w / 0x4_0000 == (a - 1) / 0x4_0000 && Missing(mem, t, w) == 2 then 1 else Missing(mem, t, w)
  }

  /** The pages it takes to map the pages n0 .. a in both tables: each its frame and the table
      pages it is the first to need. */
  ghost function Cost(mem: Memory, t: int, kt: int, n0: int, a: int): nat
    decreases a - n0
  {
    if a <= n0 then 0
    else Cost(mem, t, kt, n0, a - 1) + 1 + Ahead(mem, t, n0, a - 1, a - 1) + Ahead(mem, kt, n0, a - 1, a - 1)
  }

  ghost predicate Ways(mem0: Memory, mem: Memory, t: int, n0: int, a: int)
  {
    forall w {:trigger Missing(mem, t, w)} :: a <= w < USERPAGES ==> Missing(mem, t, w) == Ahead(mem0, t, n0, a, w)
  }

  lemma WaysNone(mem: Memory, t: int, n0: int)
    ensures Ways(mem, mem, t, n0, n0)
  {
    hide Missing;
  }

  /** The digits of page numbers, in order. */
  lemma Digits(a: int, w: int)
    requires 0 <= a <= w < USERPAGES
    ensures PX(2, w) == PX(2, a) <==> w / 0x4_0000 == a / 0x4_0000
    ensures PX(2, w) == PX(2, a) && PX(1, w) == PX(1, a) <==> w / 0x200 == a / 0x200
    ensures w / 0x200 == (a - 1) / 0x200 ==> w / 0x200 == a / 0x200
    ensures w / 0x4_0000 == (a - 1) / 0x4_0000 ==> w / 0x4_0000 == a / 0x4_0000
    ensures w / 0x200 == a / 0x200 ==> w / 0x4_0000 == a / 0x4_0000
  {
    IndexSum(w);
    IndexSum(a);
  }

  lemma WaysMore(mem0: Memory, mem1: Memory, mem2: Memory, role: Roles, t: int, tables: set<int>, n0: int, a: int)
    requires Ways(mem0, mem1, t, n0, a) && WaySet(mem1, mem2, role, tables, a) && t in tables && 0 <= n0 <= a
    requires forall w :: 0 <= w < USERPAGES ==> InTable(role, t, w)
    ensures Ways(mem0, mem2, t, n0, a + 1)
  {
    forall w | a + 1 <= w < USERPAGES ensures Missing(mem2, t, w) == Ahead(mem0, t, n0, a + 1, w) {
      assert InTable(role, t, w);
      assert Missing(mem1, t, w) == Ahead(mem0, t, n0, a, w);
      assert Missing(mem2, t, w) == Way(mem1, t, a, w);
      Digits(a, w);
      hide Missing, PX, InTable;
    }
  }

  lemma {:induction false} CostGrows(mem: Memory, t: int, kt: int, n0: int, a: int, b: int)
    requires n0 <= a <= b
    ensures Cost(mem, t, kt, n0, a) + (b - a) <= Cost(mem, t, kt, n0, b)
    decreases b - a
  {
    if a < b { CostGrows(mem, t, kt, n0, a, b - 1); }
    hide Ahead;
  }

  lemma CostNone(mem: Memory, t: int, kt: int, n0: int)
    ensures Cost(mem, t, kt, n0, n0) == 0
  {
  }

  /** What the next page costs. */
  lemma CostNext(mem0: Memory, mem: Memory, t: int, kt: int, n0: int, a: int)
    requires Ways(mem0, mem, t, n0, a) && Ways(mem0, mem, kt, n0, a) && n0 <= a < USERPAGES
    ensures Cost(mem0, t, kt, n0, a + 1) == Cost(mem0, t, kt, n0, a) + 1 + Missing(mem, t, a) + Missing(mem, kt, a)
  {
    hide Missing;
  }

  lemma InBoth(mem: Memory, role: Roles, t: int, kt: int, n: int)
    requires Lockstep(mem, role, t, kt, n)
    ensures forall w :: 0 <= w < USERPAGES ==> InTable(role, t, w)
    ensures forall w :: 0 <= w < USERPAGES ==> InTable(role, kt, w)
  {
    forall w | 0 <= w < USERPAGES ensures InTable(role, t, w) && InTable(role, kt, w) {
      InUser(role, t, w);
      InKernel(role, kt, w);
    }
  }

  /** Nothing hangs in the user part of table t. */
  ghost predicate Bare(mem: Memory, t: int)
  {
    forall w {:trigger Missing(mem, t, w)} :: 0 <= w < USERPAGES ==> Missing(mem, t, w) == 2
  }

  lemma BareStays(mem: Memory, mem': Memory, role: Roles, tables: set<int>, v: int, t: int)
    requires Bare(mem, t) && WaySet(mem, mem', role, tables, v) && (t !in tables || USERPAGES <= v < ALLVPN)
    requires forall w :: 0 <= w < USERPAGES ==> InTable(role, t, w)
    ensures Bare(mem', t)
  {
    forall w | 0 <= w < USERPAGES ensures Missing(mem', t, w) == 2 {
      assert InTable(role, t, w);
      LowIndex(w);
      hide Missing, InTable;
      assert Missing(mem', t, w) == if t in tables then Way(mem, t, v, w) else Missing(mem, t, w);
    }
  }

  /** How many groups of m the first n pages touch. */
  function Groups(n: int, m: int): int
    requires m > 0
  {
    (n + (m - 1)) / m
  }

  function First(w: int, m: int): int
    requires m > 0
  {
    if w % m == 0 then 1 else 0
  }

  lemma OneGroup(n: int, m: int)
    requires 0 < n && (m == 0x200 || m == 0x4_0000)
    ensures Groups(n, m) == Groups(n - 1, m) + First(n - 1, m)
    ensures First(n - 1, m) == 0 <==> 1 < n && (n - 1) / m == (n - 2) / m
  {
  }

  lemma NoGroup(m: int)
    requires 0 < m
    ensures Groups(0, m) == 0
  {
  }

  lemma Aligned(w: int)
    ensures w % 0x4_0000 == 0 ==> w % 0x200 == 0
  {
    assert w == 0x200 * (0x200 * (w / 0x4_0000)) + w % 0x4_0000;
  }

  lemma AheadBare(mem: Memory, t: int, w: int)
    requires 0 <= w && Missing(mem, t, w) == 2
    ensures Ahead(mem, t, 0, w, w) == First(w, 0x200) + First(w, 0x4_0000)
  {
    OneGroup(w + 1, 0x200);
    OneGroup(w + 1, 0x4_0000);
    Aligned(w);
    hide Missing, Groups;
  }

  /** What a first growth takes: a frame each, and in both tables one page for every 512 pages
      and one for every 2^18. */
  lemma {:induction false} CostBare(mem: Memory, t: int, kt: int, n: int)
    requires Bare(mem, t) && Bare(mem, kt) && 0 <= n <= USERPAGES
    ensures Cost(mem, t, kt, 0, n) == n + 2 * (Groups(n, 0x200) + Groups(n, 0x4_0000))
  {
    hide Missing, Ahead, First, Groups;
    if n == 0 {
      NoGroup(0x200);
      NoGroup(0x4_0000);
    } else {
      CostBare(mem, t, kt, n - 1);
      assert Missing(mem, t, n - 1) == 2 && Missing(mem, kt, n - 1) == 2;
      AheadBare(mem, t, n - 1);
      AheadBare(mem, kt, n - 1);
      OneGroup(n, 0x200);
      OneGroup(n, 0x4_0000);
    }
  }

  // ---- one growth after the other ----

  /** Pages 0 .. n have been mapped in both tables since the state memE, which had freeE free
      pages, and took nothing but what that costs. */
  ghost predicate Grown(memE: Memory, freeE: int, mem: Memory, free: int, t: int, kt: int, n: int)
  {
    Ways(memE, mem, t, 0, n) && Ways(memE, mem, kt, 0, n) && free == freeE - Cost(memE, t, kt, 0, n)
  }

  lemma AheadThen(memE: Memory, mem: Memory, t: int, n: int, a: int, w: int)
    requires Ways(memE, mem, t, 0, n) && 0 <= n <= a <= w < USERPAGES
    ensures Ahead(mem, t, n, a, w) == Ahead(memE, t, 0, a, w)
  {
    hide Missing;
    assert Missing(mem, t, w) == Ahead(memE, t, 0, n, w);
    if 0 < n < a {
      Digits(a - 1, w);
      Digits(n - 1, a - 1);
      hide PX;
    }
  }

  lemma WaysThen(memE: Memory, mem0: Memory, mem1: Memory, t: int, n: int, a: int)
    requires Ways(memE, mem0, t, 0, n) && Ways(mem0, mem1, t, n, a) && 0 <= n <= a
    ensures Ways(memE, mem1, t, 0, a)
  {
    hide Missing, Ahead;
    forall w | a <= w < USERPAGES ensures Missing(mem1, t, w) == Ahead(memE, t, 0, a, w) {
      AheadThen(memE, mem0, t, n, a, w);
    }
  }

  lemma {:induction false} CostThen(memE: Memory, mem: Memory, t: int, kt: int, n: int, b: int)
    requires Ways(memE, mem, t, 0, n) && Ways(memE, mem, kt, 0, n) && 0 <= n <= b <= USERPAGES
    ensures Cost(memE, t, kt, 0, b) == Cost(memE, t, kt, 0, n) + Cost(mem, t, kt, n, b)
    decreases b - n
  {
    hide Ahead, Ways;
    if n < b {
      CostThen(memE, mem, t, kt, n, b - 1);
      AheadThen(memE, mem, t, n, b - 1, b - 1);
      AheadThen(memE, mem, kt, n, b - 1, b - 1);
    }
  }

  /** Whether the next growth fits can be read off the state before the first one. */
  lemma GrowsOn(memE: Memory, freeE: int, mem: Memory, free: int, t: int, kt: int, n: int, b: int)
    requires Grown(memE, freeE, mem, free, t, kt, n) && 0 <= n <= b && freeE <= STOPPAGE - FIRSTPAGE
    ensures Cost(mem, t, kt, n, b) <= free <==> Cost(memE, t, kt, 0, b) <= freeE
  {
    hide Cost, Ways;
    if b <= USERPAGES {
      CostThen(memE, mem, t, kt, n, b);
    } else {
      CostGrows(mem, t, kt, n, n, b);
      CostGrows(memE, t, kt, 0, 0, n);
      CostGrows(memE, t, kt, 0, 0, b);
    }
  }

  lemma GrownOn(memE: Memory, freeE: int, mem: Memory, free: int, mem1: Memory, t: int, kt: int, n: int, b: int)
    requires Grown(memE, freeE, mem, free, t, kt, n) && 0 <= n <= b <= USERPAGES
    requires Ways(mem, mem1, t, n, b) && Ways(mem, mem1, kt, n, b)
    ensures Grown(memE, freeE, mem1, free - Cost(mem, t, kt, n, b), t, kt, b)
  {
    WaysThen(memE, mem, mem1, t, n, b);
    WaysThen(memE, mem, mem1, kt, n, b);
    CostThen(memE, mem, t, kt, n, b);
    hide Cost, Ways;
  }

  // ---- uvmalloc ----

  const HEAPFLAGS := PTE_V + PTE_R + PTE_W + PTE_X + PTE_U

  /** Page v is a heap page as uvmalloc leaves it. */
  ghost predicate ZeroAt(mem: Memory, data: Bytes, t: int, v: int)
  {
    Flags(Pte(mem, t, v)) == HEAPFLAGS && Ppn(Pte(mem, t, v)) in data && data[Ppn(Pte(mem, t, v))] == Fill(0)
  }

  ghost predicate Zeroed(mem: Memory, data: Bytes, t: int, n0: int, m: int)
  {
    forall v {:trigger ZeroAt(mem, data, t, v)} :: n0 <= v < m ==> ZeroAt(mem, data, t, v)
  }

  lemma ZeroNone(mem: Memory, data: Bytes, t: int, n0: int)
    ensures Zeroed(mem, data, t, n0, n0)
  {
  }

  lemma ZeroMore(mem0: Memory, mem2: Memory, data0: Bytes, data2: Bytes, role0: Roles, t: int, kt: int, n0: int, a: int, q: int, e: int, ke: int)
    requires Lockstep(mem0, role0, t, kt, a) && Zeroed(mem0, data0, t, n0, a) && 0 <= n0 && a < USERPAGES
    requires Paired(mem0, mem2, role0, t, kt, a, e, ke) && Ppn(e) == q && Undisturbed(data0, data2, role0)
    requires q in data2 && data2[q] == Fill(0) && Flags(e) == HEAPFLAGS
    ensures Zeroed(mem2, data2, t, n0, a + 1)
  {
    hide Pte, PX, Ppn, Flags, NoUser;
    var a' := a + 1;
    forall v | n0 <= v < a' ensures ZeroAt(mem2, data2, t, v) {
      InUser(role0, t, v);
      assert Pte(mem2, t, v) == if v == a then e else Pte(mem0, t, v);
      if v < a {
        assert PairAt(mem0, role0, t, kt, a, v) && ZeroAt(mem0, data0, t, v);
      }
    }
  }

  lemma PagesExact(a: int, sz: int)
    requires (a - 1) * PGSIZE < sz <= a * PGSIZE
    ensures Pages(sz) == a
  {
  }

  lemma PagesOf(sz: int)
    requires 0 <= sz
    ensures (Pages(sz) - 1) * PGSIZE < sz <= Pages(sz) * PGSIZE && 0 <= Pages(sz)
  {
  }

  /** The user permissions uvmalloc gives, and the kernel's. */
  lemma HeapPerms(q: int)
    requires 0 < q
    ensures IsLeaf(PTE_W + PTE_X + PTE_R + PTE_U) && IsLeaf(PTE_W + PTE_X + PTE_R)
    ensures var e := Word(q, WithValid(PTE_W + PTE_X + PTE_R + PTE_U));
      NoUser(e) == Word(q, WithValid(PTE_W + PTE_X + PTE_R)) && e != 0 && Ppn(e) == q && Flags(e) == HEAPFLAGS
  {
    EntryParts(q, HEAPFLAGS);
    WordEntry(q, PTE_W + PTE_X + PTE_R + PTE_U);
    NoUserWord(q, 31);
  }

  /** The unwinding of uvmalloc when the kernel table cannot be extended: the user table loses
      one page more than the kernel table. */
  method UnwindGrow(k: Kernel, t: int, kt: int, n0: int, a: int)
    requires k.Valid() && 0 <= n0 <= a && t != kt
    requires forall w :: n0 <= w <= a ==> Ready(k.mem, k.role, t, w, true)
    requires forall w :: n0 <= w < a ==> Ready(k.mem, k.role, kt, w, false)
    modifies k
    ensures k.Valid() && Freed(old(k.role), k.role, t, n0, a + 1 - n0, true) && Undisturbed(old(k.data), k.data, k.role)
    ensures Cut(old(k.mem), k.mem, old(k.role), n0, t, a + 1, kt, a)
  {
    hide Trees, Frames, Pool, Sized, Freed, Undisturbed, Unmapped, Ready, Cut, RootsIn;
    ghost var mem0, role0, data0 := k.mem, k.role, k.data;
    OnePage(n0);
    var npages := a - n0;
    var _ := k.VmUnmap(t, n0 * PGSIZE, npages + 1, true, npages + 1);
    ghost var mem1, role1, data1 := k.mem, k.role, k.data;
    forall w | n0 <= w < a ensures Ready(mem1, role1, kt, w, false) {
      assert Ready(mem0, role0, kt, w, false);
      ReadyKernelAfter(mem0, mem1, role0, role1, t, kt, n0, npages + 1, w);
    }
    var _ := k.VmUnmap(kt, n0 * PGSIZE, npages, false, npages);
    FreedNone(role1, k.role, kt, n0, npages);
    FreedRoots(role0, role1, t, n0, npages + 1);
    TwoUnmaps(mem0, mem1, k.mem, role0, role1, n0, t, npages + 1, kt, npages);
    UndisturbedSame(data0, data1, k.data, role1);
  }

  lemma UndisturbedSame(x: Bytes, y: Bytes, z: Bytes, r: Roles)
    requires Undisturbed(x, y, r) && Undisturbed(y, z, r)
    ensures Undisturbed(x, z, r)
  {
  }

  /** uvmalloc: on success both tables map exactly the pages of newsz, the new ones zeroed and
      with every permission; on failure every table translates as it did, and no page has changed
      hands except into table pages.  newsz may be anything: physical memory runs out before user
      addresses do. */
  method UvmAlloc(k: Kernel, t: int, kt: int, oldsz: int, newsz: int) returns (r: int)
    requires k.Valid() && 0 <= oldsz && 0 <= newsz && Lockstep(k.mem, k.role, t, kt, Pages(oldsz))
    modifies k
    ensures k.Valid() && Undisturbed(old(k.data), k.data, old(k.role)) && Built(t, kt, old(k.role), k.role)
    ensures newsz < oldsz ==> r == oldsz && k.mem == old(k.mem) && k.role == old(k.role) && k.free == old(k.free)
    ensures newsz >= oldsz ==> r == newsz || r == 0
    ensures newsz >= oldsz ==> (r == newsz <==> Cost(old(k.mem), t, kt, Pages(oldsz), Pages(newsz)) <= |old(k.free)|)
    ensures newsz >= oldsz && r == newsz ==>
      && Lockstep(k.mem, k.role, t, kt, Pages(newsz)) && Pages(newsz) <= STOPPAGE - FIRSTPAGE
      && Extended(old(k.mem), k.mem, old(k.role), t, kt, Pages(oldsz), Pages(newsz))
      && Grew(old(k.role), k.role, t, Pages(oldsz), Pages(newsz))
      && Zeroed(k.mem, k.data, t, Pages(oldsz), Pages(newsz))
      && Ways(old(k.mem), k.mem, t, Pages(oldsz), Pages(newsz)) && Ways(old(k.mem), k.mem, kt, Pages(oldsz), Pages(newsz))
      && |k.free| == |old(k.free)| - Cost(old(k.mem), t, kt, Pages(oldsz), Pages(newsz))
    ensures newsz >= oldsz && r != newsz ==>
      && SameMaps(old(k.mem), k.mem, old(k.role)) && Kept(old(k.role), k.role)
      && Lockstep(k.mem, k.role, t, kt, Pages(oldsz))
  {
    hide Trees, Frames, Pool, Sized, Lockstep, Pte, PX, InTable, Freed, Undisturbed, Unmapped, Ready, Cut, Cleared, RootsIn, Word, WithValid, NoUser, IsLeaf, Ppn, Flags,
      Grew, Extended, Zeroed, Kept, SameMaps, MapSet, Paired, Holds, Built, Missing, Cost, Ways, WaySet;
    BuiltNone(t, kt, k.role);
    ghost var mem0, role0, data0 := k.mem, k.role, k.data;
    var n0 := Pages(oldsz);
    GrowStart(mem0, data0, role0, t, kt, n0);
    if newsz < oldsz {
      return oldsz;
    }
    PagesOf(oldsz);
    PagesOf(newsz);
    ghost var free0 := |k.free|;
    WaysNone(mem0, t, n0);
    WaysNone(mem0, kt, n0);
    CostNone(mem0, t, kt, n0);
    var a := n0;
    ZeroNone(k.mem, k.data, t, n0);
    HeldBelow(k.mem, k.role, t, kt, a);
    FewPages(k.mem, k.next, k.head, k.npage, k.free, k.role, t, a);
    while a * PGSIZE < newsz
      invariant n0 <= a <= STOPPAGE - FIRSTPAGE && (a - 1) * PGSIZE < newsz
      invariant k.Valid() && Lockstep(k.mem, k.role, t, kt, a) && Undisturbed(data0, k.data, role0)
      invariant Extended(mem0, k.mem, role0, t, kt, n0, a) && Grew(role0, k.role, t, n0, a)
      invariant Zeroed(k.mem, k.data, t, n0, a) && Built(t, kt, role0, k.role)
      invariant Ways(mem0, k.mem, t, n0, a) && Ways(mem0, k.mem, kt, n0, a) && |k.free| == free0 - Cost(mem0, t, kt, n0, a)
      decreases newsz - a * PGSIZE
    {
      ghost var mem1, role1, data1 := k.mem, k.role, k.data;
      VacantBoth(mem1, role1, t, kt, a, a);
      NoFrame(mem1, role1, t, a);
      HeapPerms(1);
      InBoth(mem1, role1, t, kt, a);
      CostNext(mem0, mem1, t, kt, n0, a);
      CostGrows(mem0, t, kt, n0, a + 1, Pages(newsz));
      var code, q := NewPage(k, t, kt, a, Fill(0), PTE_W + PTE_X + PTE_R + PTE_U, PTE_W + PTE_X + PTE_R);
      UndisturbedGrew(data0, data1, k.data, role0, role1, t, n0, a);
      BuiltTrans(t, kt, role0, role1, k.role);
      ghost var role2 := k.role;
      if code == 1 {
        AllocFailed(k, t, kt, n0, a, mem0, mem1, role0, role1, data0);
        BuiltTrans(t, kt, role0, role2, k.role);
        return 0;
      }
      HeapPerms(q);
      GrewMore(role0, role1, k.role, t, n0, a, q);
      ghost var e := Word(q, WithValid(PTE_W + PTE_X + PTE_R + PTE_U));
      if code == 2 {
        MapFailed(k, t, kt, n0, a, q, e, mem0, mem1, role0, role1, data0);
        BuiltTrans(t, kt, role0, role2, k.role);
        return 0;
      }
      WaysMore(mem0, mem1, k.mem, role1, t, {t, kt}, n0, a);
      WaysMore(mem0, mem1, k.mem, role1, kt, {t, kt}, n0, a);
      PairMore(mem1, k.mem, role1, k.role, t, kt, a, q, e);
      ExtendedMore(mem0, mem1, k.mem, role0, role1, t, kt, n0, a, e, NoUser(e));
      ZeroMore(mem1, k.mem, data1, k.data, role1, t, kt, n0, a, q, e, NoUser(e));
      a := a + 1;
      HeldBelow(k.mem, k.role, t, kt, a);
      FewPages(k.mem, k.next, k.head, k.npage, k.free, k.role, t, a);
    }
    PagesExact(a, newsz);
    r := newsz;
  }

  lemma UndisturbedGrew(x: Bytes, y: Bytes, z: Bytes, r: Roles, s: Roles, t: int, n0: int, a: int)
    requires Undisturbed(x, y, r) && Undisturbed(y, z, s) && Grew(r, s, t, n0, a)
    ensures Undisturbed(x, z, r)
  {
    forall p | p in r && !r[p].Free? && p in x ensures p in z && z[p] == x[p] {
      assert GrewAt(r, s, t, n0, a, p);
    }
  }

  lemma GrewKept(r: Roles, s: Roles, u: Roles, t: int, n0: int, a: int)
    requires Grew(r, s, t, n0, a) && Kept(s, u)
    ensures Grew(r, u, t, n0, a)
  {
    forall p ensures GrewAt(r, u, t, n0, a, p) {
      assert GrewAt(r, s, t, n0, a, p) && KeptAt(s, u, p);
    }
  }

  lemma CutOfCleared(a: Memory, b: Memory, role: Roles, t: int, kt: int, n0: int, n1: int)
    requires Cleared(a, b, role, t, kt, n0, n1)
    ensures Cut(a, b, role, n0, t, n1, kt, n1)
  {
    hide Pte, PX;
  }

  /** uvmalloc's first two exits: what was mapped so far goes through uvmdealloc. */
  method AllocFailed(k: Kernel, t: int, kt: int, n0: int, a: int, ghost mem0: Memory, ghost mem1: Memory, ghost role0: Roles, ghost role1: Roles, ghost data0: Bytes)
    requires k.Valid() && 0 <= n0 <= a && Lockstep(mem0, role0, t, kt, n0) && Lockstep(mem1, role1, t, kt, a)
    requires Extended(mem0, mem1, role0, t, kt, n0, a) && Grew(role0, role1, t, n0, a)
    requires SameMaps(mem1, k.mem, role1) && Kept(role1, k.role) && Undisturbed(data0, k.data, role0)
    modifies k
    ensures k.Valid() && SameMaps(mem0, k.mem, role0) && Kept(role0, k.role) && Undisturbed(data0, k.data, role0)
    ensures Lockstep(k.mem, k.role, t, kt, n0)
    ensures Built(t, kt, old(k.role), k.role)
  {
    hide Trees, Frames, Pool, Sized, Lockstep, Pte, PX, InTable, Freed, Undisturbed, Unmapped, Ready, Cut, Cleared, RootsIn, Word, WithValid, NoUser, IsLeaf, Ppn,
      Grew, Extended, Kept, SameMaps, Holds, Built;
    ghost var mem2, role2, data2 := k.mem, k.role, k.data;
    LockstepSame(mem1, mem2, role1, role2, t, kt, a);
    ExtendedSame(mem0, mem1, mem2, role0, role1, t, kt, n0, a);
    GrewKept(role0, role1, role2, t, n0, a);
    OnePage(n0);
    OnePage(a);
    Distinct'(mem2, role2, t, kt, a);
    var _, _ := UvmDealloc(k, t, kt, a, a * PGSIZE, n0 * PGSIZE);
    BuiltFreed(t, kt, role2, k.role, t, n0, a - n0, true);
    CutOfCleared(mem2, k.mem, role2, t, kt, n0, a);
    UnGrew(role0, role2, k.role, t, n0, a);
    Restored(mem0, mem2, k.mem, role0, role2, t, kt, n0, a, a, a);
    UndisturbedBack(data0, data2, k.data, role0, role2, k.role);
    LockstepSame(mem0, k.mem, role0, k.role, t, kt, n0);
  }

  /** uvmalloc's last exit. */
  method MapFailed(k: Kernel, t: int, kt: int, n0: int, a: int, ghost q: int, ghost e: int, ghost mem0: Memory, ghost mem1: Memory, ghost role0: Roles, ghost role1: Roles, ghost data0: Bytes)
    requires k.Valid() && 0 <= n0 <= a < USERPAGES && Lockstep(mem0, role0, t, kt, n0) && Lockstep(mem1, role1, t, kt, a) && Trees(mem1, role1)
    requires Extended(mem0, mem1, role0, t, kt, n0, a) && Grew(role0, role1, t, n0, a) && Grew(role0, k.role, t, n0, a + 1)
    requires q in role1 && role1[q].Free? && Kept(role1[q := Frame(t, a)], k.role) && e != 0 && Ppn(e) == q
    requires MapSet(mem1, k.mem, role1, t, a, e) && Undisturbed(data0, k.data, role0)
    modifies k
    ensures k.Valid() && SameMaps(mem0, k.mem, role0) && Kept(role0, k.role) && Undisturbed(data0, k.data, role0)
    ensures Lockstep(k.mem, k.role, t, kt, n0)
    ensures Built(t, kt, old(k.role), k.role)
  {
    hide Trees, Frames, Pool, Sized, Lockstep, Pte, PX, InTable, Freed, Undisturbed, Unmapped, Ready, Cut, RootsIn, NoUser, IsLeaf, Ppn,
      Grew, Extended, Kept, SameMaps, MapSet, Holds, Built;
    ghost var mem2, role2, data2 := k.mem, k.role, k.data;
    Distinct'(mem1, role1, t, kt, a);
    forall w | 0 <= w <= a
      ensures Ready(mem2, role2, t, w, true) && (w < a ==> Ready(mem2, role2, kt, w, false)) && Pte(mem2, kt, a) == 0
    {
      ReadyHalf(mem1, mem2, role1, role2, t, kt, a, q, e, w);
    }
    ReadyHalf(mem1, mem2, role1, role2, t, kt, a, q, e, a);
    ExtendedHalf(mem0, mem1, mem2, role0, role1, t, kt, n0, a, e);
    UnwindGrow(k, t, kt, n0, a);
    BuiltFreed(t, kt, role2, k.role, t, n0, a + 1 - n0, true);
    UnGrew(role0, role2, k.role, t, n0, a + 1);
    Restored(mem0, mem2, k.mem, role0, role2, t, kt, n0, a + 1, a + 1, a);
    UndisturbedBack(data0, data2, k.data, role0, role2, k.role);
    LockstepSame(mem0, k.mem, role0, k.role, t, kt, n0);
  }

  // ---- uvmclear ----

  lemma ClearFrames(mem: Memory, mem': Memory, role: Roles, t: int, v: int)
    requires Trees(mem, role) && Frames(mem, role) && InTable(role, t, v) && Pte(mem, t, v) != 0
    requires MapSet(mem, mem', role, t, v, NoUser(Pte(mem, t, v)))
    ensures Frames(mem', role)
  {
    LeafFound(mem, role, t, v);
    NoUserParts(Pte(mem, t, v));
    hide Trees, Pte, PX, Ppn, NoUser, IsValid, IsLeaf, IsUser;
    forall p ensures FrameAt(mem', role, p) {
      assert FrameAt(mem, role, p);
    }
  }

  lemma ClearLockstep(mem: Memory, mem': Memory, role: Roles, t: int, kt: int, n: int, v: int)
    requires Trees(mem, role) && Lockstep(mem, role, t, kt, n) && 0 <= v < n
    requires MapSet(mem, mem', role, t, v, NoUser(Pte(mem, t, v)))
    ensures Lockstep(mem', role, t, kt, n)
  {
    ReadyBoth(mem, role, t, kt, n, v);
    LeafFound(mem, role, t, v);
    NoUserParts(Pte(mem, t, v));
    assert NoUser(NoUser(Pte(mem, t, v))) == NoUser(Pte(mem, t, v));
    hide Trees, Pte, PX, Ppn, NoUser, IsValid, IsLeaf, IsUser;
    forall w ensures PairAt(mem', role, t, kt, n, w) {
      assert PairAt(mem, role, t, kt, n, w);
      if 0 <= w < USERPAGES {
        InUser(role, t, w);
        InKernel(role, kt, w);
        assert Pte(mem', t, w) == if w == v then NoUser(Pte(mem, t, v)) else Pte(mem, t, w);
        assert Pte(mem', kt, w) == Pte(mem, kt, w);
      }
    }
  }

  lemma SetHere(mem: Memory, mem': Memory, role: Roles, t: int, v: int, e: int)
    requires MapSet(mem, mem', role, t, v, e) && InTable(role, t, v)
    ensures Pte(mem', t, v) == e
  {
  }

  /** uvmclear: page v can no longer be touched by a user; both tables still agree on it. */
  method UvmClear(k: Kernel, t: int, ghost kt: int, ghost n: int, v: int)
    requires k.Valid() && Lockstep(k.mem, k.role, t, kt, n) && 0 <= v < n
    modifies k
    ensures k.Valid() && Lockstep(k.mem, k.role, t, kt, n) && k.role == old(k.role) && k.data == old(k.data) && k.free == old(k.free)
    ensures MapSet(old(k.mem), k.mem, k.role, t, v, NoUser(Pte(old(k.mem), t, v))) && !IsUser(Pte(k.mem, t, v))
  {
    hide Trees, Frames, Pool, Sized, Lockstep, Pte, PX, Ppn, NoUser, IsValid, IsLeaf, IsUser, MapSet, Low;
    ghost var mem0 := k.mem;
    ReadyBoth(k.mem, k.role, t, kt, n, v);
    LeafFound(k.mem, k.role, t, v);
    NoUserParts(Pte(k.mem, t, v));
    var l := k.Walk(t, v, false);
    PteFound(k.mem, t, v);
    var pte := Entry(k.mem, l, PX(0, v));
    WriteLow(k.mem, k.role, t, v, NoUser(pte));
    k.mem := k.mem[l := k.mem[l][PX(0, v) := NoUser(pte)]];
    ClearFrames(mem0, k.mem, k.role, t, v);
    ClearLockstep(mem0, k.mem, k.role, t, kt, n, v);
    SetHere(mem0, k.mem, k.role, t, v, NoUser(pte));
  }

  // ---- uvmcopy ----

  /** The unwinding of uvmcopy: ki pages leave the kernel table, then i pages the user table. */
  method UnwindCopy(k: Kernel, t: int, kt: int, ki: int, i: int)
    requires k.Valid() && 0 <= ki <= i && t != kt
    requires forall w :: 0 <= w < i ==> Ready(k.mem, k.role, t, w, true)
    requires forall w :: 0 <= w < ki ==> Ready(k.mem, k.role, kt, w, false)
    modifies k
    ensures k.Valid() && Freed(old(k.role), k.role, t, 0, i, true) && Undisturbed(old(k.data), k.data, k.role)
    ensures Cut(old(k.mem), k.mem, old(k.role), 0, t, i, kt, ki)
  {
    hide Trees, Frames, Pool, Sized, Freed, Undisturbed, Unmapped, Ready, Cut;
    ghost var mem0, role0, data0 := k.mem, k.role, k.data;
    OnePage(0);
    var _ := k.VmUnmap(kt, 0, ki, false, ki);
    ghost var mem1, data1 := k.mem, k.data;
    FreedNone(role0, k.role, kt, 0, ki);
    forall w | 0 <= w < i ensures Ready(mem1, role0, t, w, true) {
      assert Ready(mem0, role0, t, w, true);
      ReadyAfter(mem0, mem1, role0, t, kt, 0, ki, w);
    }
    var _ := k.VmUnmap(t, 0, i, true, i);
    TwoUnmaps(mem0, mem1, k.mem, role0, role0, 0, kt, ki, t, i);
    UndisturbedFreed(data0, data1, k.data, role0, k.role, t, 0, i);
  }

  ghost predicate CopiedAt(mem: Memory, data: Bytes, t: int, t': int, v: int)
  {
    var p, p' := Ppn(Pte(mem, t, v)), Ppn(Pte(mem, t', v));
    Flags(Pte(mem, t', v)) == Flags(Pte(mem, t, v)) && p in data && p' in data && data[p'] == data[p]
  }

  /** The first n pages of t' have the flags and the bytes of those of t. */
  ghost predicate Copied(mem: Memory, data: Bytes, t: int, t': int, n: int)
  {
    forall v {:trigger CopiedAt(mem, data, t, t', v)} :: 0 <= v < n ==> CopiedAt(mem, data, t, t', v)
  }

  /** A table pair that is not being grown stays as it is. */
  lemma LockstepStays(mem: Memory, mem': Memory, role: Roles, role': Roles, t: int, kt: int, n: int, u: int, ku: int, n0: int, a: int)
    requires Lockstep(mem, role, t, kt, n) && Extended(mem, mem', role, u, ku, n0, a) && Grew(role, role', u, n0, a)
    requires t != u && t != ku && kt != u && kt != ku
    ensures Lockstep(mem', role', t, kt, n)
  {
    assert GrewAt(role, role', u, n0, a, t) && GrewAt(role, role', u, n0, a, kt);
    hide Pte, PX, Ppn, NoUser;
    forall v ensures PairAt(mem', role', t, kt, n, v) {
      assert PairAt(mem, role, t, kt, n, v);
      if 0 <= v < USERPAGES {
        InUser(role, t, v);
        InKernel(role, kt, v);
        InUser(role', t, v);
        assert Pte(mem', t, v) == Pte(mem, t, v) && Pte(mem', kt, v) == Pte(mem, kt, v);
        assert GrewAt(role, role', u, n0, a, Ppn(Pte(mem, t, v)));
      }
    }
  }

  /** What uvmcopy finds at a page of the parent, and the entries it makes of it. */
  lemma CopyPerms(mem: Memory, role: Roles, data: Bytes, t: int, kt: int, n: int, v: int, q: int)
    requires Trees(mem, role) && Lockstep(mem, role, t, kt, n) && 0 <= v < n && Sized(data, role) && 0 < q
    ensures InTable(role, t, v) && Pte(mem, t, v) != 0 && IsValid(Pte(mem, t, v)) && v < MAXVPN
    ensures var e := Pte(mem, t, v); var f := Flags(e);
      && Ppn(e) in role && role[Ppn(e)].Frame? && Ppn(e) in data && |data[Ppn(e)]| == PGSIZE
      && 0 <= f < 1024 && IsLeaf(f) && 0 <= NoUser(f) < 1024 && IsLeaf(NoUser(f))
      && var c := Word(q, WithValid(f)); NoUser(c) == Word(q, WithValid(NoUser(f))) && c != 0 && Ppn(c) == q && Flags(c) == f
  {
    assert PairAt(mem, role, t, kt, n, v);
    InUser(role, t, v);
    LeafFound(mem, role, t, v);
    var e := Pte(mem, t, v);
    var f := Flags(e);
    FlagsOf(e);
    hide Pte, PX, Ppn, IsValid, IsLeaf, IsUser, NoUser, Word, Flags, Trees;
    NoUserParts(f);
    assert WithValid(f) == f && WithValid(NoUser(f)) == NoUser(f);
    WordEntry(q, f);
    NoUserWord(q, f);
  }

  lemma FlagsOf(e: int)
    requires 0 <= e
    ensures 0 <= Flags(e) < 1024 && IsValid(Flags(e)) == IsValid(e) && IsLeaf(Flags(e)) == IsLeaf(e)
  {
    assert e == Word(Ppn(e), Flags(e));
    EntryParts(Ppn(e), Flags(e));
    hide IsValid, IsLeaf, Word, Ppn;
  }

  lemma CopiedMore(mem0: Memory, mem2: Memory, data0: Bytes, data2: Bytes, role0: Roles, t: int, kt: int, n: int, u: int, ku: int, a: int, q: int, e: int, ke: int)
    requires Lockstep(mem0, role0, u, ku, a) && Lockstep(mem0, role0, t, kt, n) && Copied(mem0, data0, t, u, a) && a < n && Sized(data0, role0)
    requires Paired(mem0, mem2, role0, u, ku, a, e, ke) && Ppn(e) == q && Undisturbed(data0, data2, role0) && t != u && t != ku
    requires Flags(e) == Flags(Pte(mem0, t, a)) && q in data2 && Ppn(Pte(mem0, t, a)) in data0 && data2[q] == data0[Ppn(Pte(mem0, t, a))]
    ensures Copied(mem2, data2, t, u, a + 1)
  {
    hide Pte, PX, Ppn, NoUser, Flags;
    var a' := a + 1;
    forall v | 0 <= v < a' ensures CopiedAt(mem2, data2, t, u, v) {
      InUser(role0, u, v);
      InUser(role0, t, v);
      assert Pte(mem2, u, v) == if v == a then e else Pte(mem0, u, v);
      assert Pte(mem2, t, v) == Pte(mem0, t, v);
      assert PairAt(mem0, role0, t, kt, n, v) && PairAt(mem0, role0, u, ku, a, v);
      if v < a { assert CopiedAt(mem0, data0, t, u, v); }
    }
  }

  lemma CopiedNone(mem: Memory, data: Bytes, t: int, u: int)
    ensures Copied(mem, data, t, u, 0)
  {
  }

  /** uvmcopy: on success the child's pair of tables maps the parent's pages to frames of its
      own, with the same flags and bytes; on failure every table translates as it did, and no
      page has changed hands except into table pages. */
  method UvmCopy(k: Kernel, t: int, ghost kt: int, u: int, ku: int, sz: int) returns (r: int)
    requires k.Valid() && 0 <= sz && Lockstep(k.mem, k.role, t, kt, Pages(sz)) && Lockstep(k.mem, k.role, u, ku, 0)
    requires t != u && t != ku && kt != u && kt != ku
    modifies k
    ensures k.Valid() && Undisturbed(old(k.data), k.data, old(k.role)) && (r == 0 || r == -1)
    ensures Built(u, ku, old(k.role), k.role)
    ensures r == 0 <==> Cost(old(k.mem), u, ku, 0, Pages(sz)) <= |old(k.free)|
    ensures r == 0 ==>
      && Lockstep(k.mem, k.role, u, ku, Pages(sz)) && Copied(k.mem, k.data, t, u, Pages(sz))
      && Lockstep(k.mem, k.role, t, kt, Pages(sz))
      && Extended(old(k.mem), k.mem, old(k.role), u, ku, 0, Pages(sz)) && Grew(old(k.role), k.role, u, 0, Pages(sz))
    ensures r == -1 ==>
      && SameMaps(old(k.mem), k.mem, old(k.role)) && Kept(old(k.role), k.role)
      && Lockstep(k.mem, k.role, t, kt, Pages(sz)) && Lockstep(k.mem, k.role, u, ku, 0)
  {
    hide Trees, Frames, Pool, Sized, Lockstep, Pte, PX, Freed, Undisturbed, Unmapped, Ready, Cut, RootsIn, Word, WithValid, NoUser, IsLeaf, IsValid, Ppn, Flags, Low,
      Grew, Extended, Copied, Kept, SameMaps, MapSet, Paired, Holds, Built, Missing, Cost, Ways, WaySet;
    BuiltNone(u, ku, k.role);
    ghost var mem0, role0, data0 := k.mem, k.role, k.data;
    ghost var n := Pages(sz);
    GrowStart(mem0, data0, role0, u, ku, 0);
    CopiedNone(mem0, data0, t, u);
    PagesOf(sz);
    ghost var free0 := |k.free|;
    WaysNone(mem0, u, 0);
    WaysNone(mem0, ku, 0);
    CostNone(mem0, u, ku, 0);
    Distinct'(mem0, role0, t, kt, n);
    var a := 0;
    while a * PGSIZE < sz
      invariant 0 <= a <= n && (a - 1) * PGSIZE < sz
      invariant k.Valid() && Lockstep(k.mem, k.role, u, ku, a) && Lockstep(k.mem, k.role, t, kt, n) && Undisturbed(data0, k.data, role0)
      invariant Extended(mem0, k.mem, role0, u, ku, 0, a) && Grew(role0, k.role, u, 0, a)
      invariant Copied(k.mem, k.data, t, u, a) && Built(u, ku, role0, k.role)
      invariant Ways(mem0, k.mem, u, 0, a) && Ways(mem0, k.mem, ku, 0, a) && |k.free| == free0 - Cost(mem0, u, ku, 0, a)
      decreases sz - a * PGSIZE
    {
      ghost var mem1, role1, data1 := k.mem, k.role, k.data;
      CopyPerms(mem1, role1, data1, t, kt, n, a, 1);
      var l := k.Walk(t, a, false);
      PteFound(mem1, t, a);
      var pte := Entry(k.mem, l, PX(0, a));
      var pa, flags := Ppn(pte), Flags(pte);
      VacantBoth(mem1, role1, u, ku, a, a);
      NoFrame(mem1, role1, u, a);
      InBoth(mem1, role1, u, ku, a);
      CostNext(mem0, mem1, u, ku, 0, a);
      CostGrows(mem0, u, ku, 0, a + 1, n);
      var code, q := NewPage(k, u, ku, a, k.data[pa], flags, NoUser(flags));
      UndisturbedGrew(data0, data1, k.data, role0, role1, u, 0, a);
      BuiltTrans(u, ku, role0, role1, k.role);
      ghost var role2 := k.role;
      if code == 1 {
        CopyFailed(k, u, ku, a, mem0, mem1, role0, role1, data0);
        BuiltTrans(u, ku, role0, role2, k.role);
        LockstepSame(mem0, k.mem, role0, k.role, t, kt, n);
        return -1;
      }
      CopyPerms(mem1, role1, data1, t, kt, n, a, q);
      GrewMore(role0, role1, k.role, u, 0, a, q);
      ghost var e := Word(q, WithValid(flags));
      if code == 2 {
        MapCopyFailed(k, u, ku, a, q, e, mem0, mem1, role0, role1, data0);
        BuiltTrans(u, ku, role0, role2, k.role);
        LockstepSame(mem0, k.mem, role0, k.role, t, kt, n);
        return -1;
      }
      WaysMore(mem0, mem1, k.mem, role1, u, {u, ku}, 0, a);
      WaysMore(mem0, mem1, k.mem, role1, ku, {u, ku}, 0, a);
      PairMore(mem1, k.mem, role1, k.role, u, ku, a, q, e);
      ExtendedMore(mem0, mem1, k.mem, role0, role1, u, ku, 0, a, e, NoUser(e));
      CopiedMore(mem1, k.mem, data1, k.data, role1, t, kt, n, u, ku, a, q, e, NoUser(e));
      a := a + 1;
      LockstepStays(mem0, k.mem, role0, k.role, t, kt, n, u, ku, 0, a);
    }
    PagesExact(a, sz);
    r := 0;
  }

  /** The err exit of uvmcopy when nothing of the current page is mapped. */
  method CopyFailed(k: Kernel, u: int, ku: int, a: int, ghost mem0: Memory, ghost mem1: Memory, ghost role0: Roles, ghost role1: Roles, ghost data0: Bytes)
    requires k.Valid() && 0 <= a && Lockstep(mem0, role0, u, ku, 0) && Lockstep(mem1, role1, u, ku, a)
    requires Extended(mem0, mem1, role0, u, ku, 0, a) && Grew(role0, role1, u, 0, a)
    requires SameMaps(mem1, k.mem, role1) && Kept(role1, k.role) && Undisturbed(data0, k.data, role0)
    modifies k
    ensures k.Valid() && SameMaps(mem0, k.mem, role0) && Kept(role0, k.role) && Undisturbed(data0, k.data, role0)
    ensures Lockstep(k.mem, k.role, u, ku, 0)
    ensures Built(u, ku, old(k.role), k.role)
  {
    hide Trees, Frames, Pool, Sized, Lockstep, Pte, PX, InTable, Freed, Undisturbed, Unmapped, Ready, Cut, RootsIn, NoUser, Ppn,
      Grew, Extended, Kept, SameMaps, Holds, Built;
    ghost var mem2, role2, data2 := k.mem, k.role, k.data;
    LockstepSame(mem1, mem2, role1, role2, u, ku, a);
    ExtendedSame(mem0, mem1, mem2, role0, role1, u, ku, 0, a);
    GrewKept(role0, role1, role2, u, 0, a);
    Distinct'(mem2, role2, u, ku, a);
    forall w | 0 <= w < a ensures Ready(mem2, role2, u, w, true) && Ready(mem2, role2, ku, w, false) {
      ReadyBoth(mem2, role2, u, ku, a, w);
    }
    UnwindCopy(k, u, ku, a, a);
    BuiltFreed(u, ku, role2, k.role, u, 0, a, true);
    UnGrew(role0, role2, k.role, u, 0, a);
    Restored(mem0, mem2, k.mem, role0, role2, u, ku, 0, a, a, a);
    UndisturbedBack(data0, data2, k.data, role0, role2, k.role);
    LockstepSame(mem0, k.mem, role0, k.role, u, ku, 0);
  }

  /** The err exit of uvmcopy when the current page is in the user table only. */
  method MapCopyFailed(k: Kernel, u: int, ku: int, a: int, ghost q: int, ghost e: int, ghost mem0: Memory, ghost mem1: Memory, ghost role0: Roles, ghost role1: Roles, ghost data0: Bytes)
    requires k.Valid() && 0 <= a < USERPAGES && Lockstep(mem0, role0, u, ku, 0) && Lockstep(mem1, role1, u, ku, a) && Trees(mem1, role1)
    requires Extended(mem0, mem1, role0, u, ku, 0, a) && Grew(role0, role1, u, 0, a) && Grew(role0, k.role, u, 0, a + 1)
    requires q in role1 && role1[q].Free? && Kept(role1[q := Frame(u, a)], k.role) && e != 0 && Ppn(e) == q
    requires MapSet(mem1, k.mem, role1, u, a, e) && Undisturbed(data0, k.data, role0)
    modifies k
    ensures k.Valid() && SameMaps(mem0, k.mem, role0) && Kept(role0, k.role) && Undisturbed(data0, k.data, role0)
    ensures Lockstep(k.mem, k.role, u, ku, 0)
    ensures Built(u, ku, old(k.role), k.role)
  {
    hide Trees, Frames, Pool, Sized, Lockstep, Pte, PX, InTable, Freed, Undisturbed, Unmapped, Ready, Cut, RootsIn, NoUser, Ppn,
      Grew, Extended, Kept, SameMaps, MapSet, Holds, Built;
    ghost var mem2, role2, data2 := k.mem, k.role, k.data;
    Distinct'(mem1, role1, u, ku, a);
    forall w | 0 <= w <= a
      ensures Ready(mem2, role2, u, w, true) && (w < a ==> Ready(mem2, role2, ku, w, false)) && Pte(mem2, ku, a) == 0
    {
      ReadyHalf(mem1, mem2, role1, role2, u, ku, a, q, e, w);
    }
    ReadyHalf(mem1, mem2, role1, role2, u, ku, a, q, e, a);
    ExtendedHalf(mem0, mem1, mem2, role0, role1, u, ku, 0, a, e);
    UnwindCopy(k, u, ku, a, a + 1);
    BuiltFreed(u, ku, role2, k.role, u, 0, a + 1, true);
    UnGrew(role0, role2, k.role, u, 0, a + 1);
    Restored(mem0, mem2, k.mem, role0, role2, u, ku, 0, a + 1, a + 1, a);
    UndisturbedBack(data0, data2, k.data, role0, role2, k.role);
    LockstepSame(mem0, k.mem, role0, k.role, u, ku, 0);
  }

  // ---- growproc ----

  const UINT := 0x1_0000_0000

  lemma SmallSize(k: Kernel, t: int, kt: int, sz: int)
    requires k.Valid() && 0 <= sz && Lockstep(k.mem, k.role, t, kt, Pages(sz))
    ensures sz <= (STOPPAGE - FIRSTPAGE) * PGSIZE && Pages(sz) <= STOPPAGE - FIRSTPAGE
  {
    PagesOf(sz);
    HeldBelow(k.mem, k.role, t, kt, Pages(sz));
    FewPages(k.mem, k.next, k.head, k.npage, k.free, k.role, t, Pages(sz));
  }

  lemma SameCleared(mem: Memory, mem': Memory, role: Roles, t: int, kt: int, n: int)
    requires Cleared(mem, mem', role, t, kt, n, n)
    ensures SameMaps(mem, mem', role)
  {
    hide Pte, PX;
    forall u, w | InTable(role, u, w) ensures Pte(mem', u, w) == Pte(mem, u, w) {
    }
  }

  /** growproc: the size, an unsigned int, moves by n and both tables with it.  A decrease beyond
      zero wraps around, so that nothing happens and it counts as a success; with n > 0 the one
      failure leaves every translation as it was.  uvmdealloc never gets to panic. */
  method GrowProc(k: Kernel, t: int, kt: int, sz: int, n: int) returns (r: int, sz': int)
    requires k.Valid() && 0 <= sz && Lockstep(k.mem, k.role, t, kt, Pages(sz)) && -0x8000_0000 <= n < 0x8000_0000
    modifies k
    ensures k.Valid() && Lockstep(k.mem, k.role, t, kt, Pages(sz'))
    ensures r == if n <= 0 || Cost(old(k.mem), t, kt, Pages(sz), Pages(sz + n)) <= |old(k.free)| then 0 else -1
    ensures sz' == if r == 0 && sz + n >= 0 then sz + n else sz
    ensures r == -1 || n == 0 || sz + n < 0 ==> SameMaps(old(k.mem), k.mem, old(k.role))
    ensures r == 0 && n > 0 ==>
      && Extended(old(k.mem), k.mem, old(k.role), t, kt, Pages(sz), Pages(sz')) && Grew(old(k.role), k.role, t, Pages(sz), Pages(sz'))
      && Zeroed(k.mem, k.data, t, Pages(sz), Pages(sz')) && Undisturbed(old(k.data), k.data, old(k.role))
    ensures n < 0 && sz + n >= 0 ==>
      && Cleared(old(k.mem), k.mem, old(k.role), t, kt, Pages(sz'), Pages(sz))
      && Freed(old(k.role), k.role, t, Pages(sz'), Pages(sz) - Pages(sz'), true) && Undisturbed(old(k.data), k.data, k.role)
  {
    hide Trees, Frames, Pool, Sized, Lockstep, Pte, PX, InTable, Freed, Undisturbed, Cleared, Grew, Extended, Zeroed, SameMaps, Kept, Holds, Built, Cost;
    SmallSize(k, t, kt, sz);
    Still(k.mem, k.data, k.role, 0, 0, 0, 0);
    sz' := sz;
    if n > 0 {
      var s := UvmAlloc(k, t, kt, sz, (sz + n) % UINT);
      if s == 0 { return -1, sz; }
      sz' := s;
    } else if n < 0 {
      var panicked: bool;
      sz', panicked := UvmDealloc(k, t, kt, Pages(sz), sz, (sz + n) % UINT);
      assert !panicked;
      if sz + n < 0 { SameCleared(old(k.mem), k.mem, old(k.role), t, kt, Pages(sz)); }
    }
    r := 0;
  }
}
