/** The memory of a process from birth to death: its trapframe, its two page tables and its
    kernel stack (kernel/proc.c 126-237, 335-353; kernel/vm.c 250-259, 560-581). */
module ProcessPages {
  import opened PageTables
  import opened VirtualMemory
  import opened AddressSpaces
  import opened PageOwnership

  const TRAMPVPN := MAXVPN - 1       // TRAMPOLINE / PGSIZE
  const TRAPVPN := MAXVPN - 2        // TRAPFRAME / PGSIZE

  // ---- what a process owns ----

  function UpperEntry(tf: int, tramp: int, v: int): int
  {
    if v == TRAMPVPN then Word(tramp, PTE_R + PTE_X + PTE_V)
    else if v == TRAPVPN then Word(tf, PTE_R + PTE_W + PTE_V)
    else 0
  }

  /** Above user memory the user table maps the trapframe and the trampoline, and nothing else. */
  ghost predicate Upper(mem: Memory, t: int, tf: int, tramp: int)
  {
    forall v {:trigger Pte(mem, t, v)} :: USERPAGES <= v < ALLVPN ==> Pte(mem, t, v) == UpperEntry(tf, tramp, v)
  }

  /** A whole kernel table: the user part and the stack are its own. */
  ghost predicate KernelRoot(role: Roles, kt: int)
  {
    kt in role && role[kt].Root? && role[kt].level == 2 && role[kt].own == {0, 1, STACKINDEX}
  }

  /** The kernel's own mappings, as the top page at p has them. */
  ghost function KernelPart(mem: Memory, p: int): map<int, int>
  {
    map i | 0 <= i < ENTRIES && i !in {0, 1, STACKINDEX} :: Entry(mem, p, i)
  }

  /** The kernel's mappings in the table at kt are those at kp. */
  ghost predicate KernelSame(mem: Memory, kp: int, mem': Memory, kt: int)
  {
    forall i :: 0 <= i < ENTRIES && i !in {0, 1, STACKINDEX} ==> Entry(mem', kt, i) == Entry(mem, kp, i)
  }

  /** A table keeps what it shares. */
  lemma SharedKept(mem0: Memory, kp: int, mem: Memory, role: Roles, kt: int)
    requires Trees(mem, role) && kt in role && role[kt].Root? && role[kt].shared == KernelPart(mem0, kp)
    ensures KernelSame(mem0, kp, mem, kt)
  {
    forall i | 0 <= i < ENTRIES && i !in {0, 1, STACKINDEX} ensures Entry(mem, kt, i) == Entry(mem0, kp, i) {
      assert SlotAt(mem, role, kt, i);
      hide Entry;
    }
  }

  /** A process with n user pages: its tables t and kt, its trapframe tf, and (unless it has yet
      to take it over) its stack. */
  ghost predicate ProcMem(mem: Memory, role: Roles, t: int, kt: int, tf: int, tramp: int, n: int, stack: bool)
  {
    && Lockstep(mem, role, t, kt, n) && KernelFrames(role, kt, stack)
    && (if stack then KernelRoot(role, kt) && Holds(mem, role, kt, VKVPN) && Flags(Pte(mem, kt, VKVPN)) == PTE_V + PTE_R + PTE_W
        else role[kt].own == {0, 1})
    && tf in role && role[tf].Other? && 0 < tramp && tramp !in role && Upper(mem, t, tf, tramp)
  }

  // ---- new tables ----

  /** A page held by its address becomes a whole table. */
  lemma NewTable(mem: Memory, data: Bytes, next: map<int, int>, head: int, npage: int, free: seq<int>, role: Roles, q: int, own: set<int>, shared: map<int, int>)
    requires Trees(mem, role) && Frames(mem, role) && Pool(next, head, npage, free, role) && Sized(data, role)
    requires q in role && role[q].Other? && own <= AllEntries() && forall i :: i in own ==> Entry(mem, q, i) == 0
    requires forall i :: i in shared ==> 0 <= i < ENTRIES && i !in own && Entry(mem, q, i) == shared[i]
    ensures var role' := role[q := Root(2, own, shared)];
      Trees(mem, role') && Frames(mem, role') && Pool(next, head, npage, free, role') && Sized(data, role')
  {
    var role' := role[q := Root(2, own, shared)];
    PoolKept(next, head, npage, free, role, q, Root(2, own, shared));
    forall p ensures PageAt(mem, role', p) {
      assert PageAt(mem, role, p);
    }
    forall p, i ensures SlotAt(mem, role', p, i) {
      assert SlotAt(mem, role, p, i);
    }
    hide Pte, PX, Ppn, Trees, Pool;
    forall p ensures FrameAt(mem, role', p) {
      assert FrameAt(mem, role, p);
    }
  }

  /** A new table translates nothing. */
  lemma NewMap(mem: Memory, q: int, own: set<int>, v: int)
    requires forall i :: i in own ==> Entry(mem, q, i) == 0
    requires PX(2, v) in own
    ensures Pte(mem, q, v) == 0
  {
    hide PX;
    assert !IsValid(0);
  }

  /** uvmcreate */
  method UvmCreate(k: Kernel) returns (t: int)
    requires k.Valid()
    modifies k
    ensures k.Valid() && Undisturbed(old(k.data), k.data, old(k.role)) && SameMaps(old(k.mem), k.mem, old(k.role))
    ensures t == 0 ==> k.role == old(k.role)
    ensures t != 0 ==>
      && t > 0 && t in old(k.role) && old(k.role)[t].Free? && k.role == old(k.role)[t := Root(2, AllEntries(), map[])]
      && |k.free| == |old(k.free)| - 1 && (forall v :: 0 <= v < ALLVPN ==> Pte(k.mem, t, v) == 0)
      && t in k.mem && k.mem[t] == Zeros() && k.mem == old(k.mem)[t := Zeros()]
    ensures t == 0 <==> |old(k.free)| == 0
  {
    hide Trees, Frames, Pool, Sized, SameMaps, Pte, PX;
    ghost var mem0, role0, data0 := k.mem, k.role, k.data;
    Still(mem0, data0, role0, 0, 0, 0, 0);
    t := k.KAlloc();
    if t == 0 { return; }
    NewIsPage(k.mem, k.role, t);
    ghost var mem1, role1 := k.mem, k.role;
    Scratch(k.mem, k.role, t, Zeros());
    FramesSame(k.mem, k.mem[t := Zeros()], k.role, k.role);
    k.mem := k.mem[t := Zeros()];
    MapsTrans(mem0, mem1, k.mem, role0, role1, role1);
    NewTable(k.mem, k.data, k.next, k.head, k.npage, k.free, k.role, t, AllEntries(), map[]);
    k.role := k.role[t := Root(2, AllEntries(), map[])];
    forall v | 0 <= v < ALLVPN ensures Pte(k.mem, t, v) == 0 {
      AnyIndex(v);
      NewMap(k.mem, t, AllEntries(), v);
    }
  }

  lemma AnyIndex(v: int)
    requires 0 <= v < ALLVPN
    ensures PX(2, v) in AllEntries()
  {
    IndexRange(v);
    assert IsEntry(PX(2, v));
  }

  // ---- pages that a new process has taken ----

  ghost predicate NewAt(role0: Roles, role: Roles, t: int, kt: int, held: set<int>, p: int)
  {
    (p in role0 <==> p in role) &&
    (p in role0 ==> role[p] == role0[p] || (role0[p].Free? && (p in held || Belongs(role, p, t) || Belongs(role, p, kt))))
  }

  /** Since role0, only free pages have changed hands, and each belongs to table t or kt, or is
      among the pages held by their address. */
  ghost predicate NewTo(role0: Roles, role: Roles, t: int, kt: int, held: set<int>)
  {
    forall p {:trigger NewAt(role0, role, t, kt, held, p)} :: NewAt(role0, role, t, kt, held, p)
  }

  lemma NewNone(role: Roles, t: int, kt: int)
    ensures NewTo(role, role, t, kt, {})
  {
  }

  lemma NewTaken(role0: Roles, role: Roles, t: int, kt: int, held: set<int>, q: int)
    requires NewTo(role0, role, t, kt, held) && q in role && role[q].Free?
    ensures NewTo(role0, role[q := Other], t, kt, held + {q})
  {
    var role', held' := role[q := Other], held + {q};
    forall p ensures NewAt(role0, role', t, kt, held', p) {
      assert NewAt(role0, role, t, kt, held, p) && NewAt(role0, role, t, kt, held, q);
    }
  }

  /** A page held becomes one of the tables, or a frame of one. */
  lemma NewUse(role0: Roles, role: Roles, t: int, kt: int, held: set<int>, q: int, r: Role)
    requires NewTo(role0, role, t, kt, held) && q in role && role[q].Other? && q in held && q in role0 && role0[q].Free?
    requires (r.Root? && (q == t || q == kt)) || (r.Frame? && (r.table == t || r.table == kt))
    ensures NewTo(role0, role[q := r], t, kt, held - {q})
  {
    var role', held' := role[q := r], held - {q};
    forall p ensures NewAt(role0, role', t, kt, held', p) {
      assert NewAt(role0, role, t, kt, held, p);
      if p in role && p != q && role[p].Sub? && role[p].parent == q { assert !role[q].Sub?; }
    }
  }

  /** Tables grow: new table pages hang below t or kt. */
  lemma NewGrow(role0: Roles, role: Roles, role': Roles, t: int, kt: int, held: set<int>)
    requires NewTo(role0, role, t, kt, held) && Kept(role, role') && Built(t, kt, role, role')
    requires forall p :: p in held ==> p in role && !role[p].Free?
    ensures NewTo(role0, role', t, kt, held)
  {
    forall p ensures NewAt(role0, role', t, kt, held, p) {
      assert NewAt(role0, role, t, kt, held, p) && KeptAt(role, role', p) && BuiltAt(t, kt, role, role', p);
      if p in role && role[p].Sub? { assert KeptAt(role, role', role[p].parent) && BuiltAt(t, kt, role, role', role[p].parent); }
    }
  }

  ghost predicate ReclaimedAt(role: Roles, role': Roles, t: int, kt: int, held: set<int>, p: int)
  {
    (p in role <==> p in role') &&
    (p in role ==> role'[p] == if p in held || Belongs(role, p, t) || Belongs(role, p, kt) then Free else role[p])
  }

  /** Every page of the tables t and kt, and every page held, is free; nothing else changed hands. */
  ghost predicate Reclaimed(role: Roles, role': Roles, t: int, kt: int, held: set<int>)
  {
    forall p {:trigger ReclaimedAt(role, role', t, kt, held, p)} :: ReclaimedAt(role, role', t, kt, held, p)
  }

  /** Reclaiming what a new process has taken leaves every page as it was before the process. */
  lemma Conserved(mem0: Memory, role0: Roles, role: Roles, role': Roles, t: int, kt: int, held: set<int>)
    requires Trees(mem0, role0) && Frames(mem0, role0) && NewTo(role0, role, t, kt, held) && Reclaimed(role, role', t, kt, held)
    requires t in role0 ==> role0[t].Free?
    requires kt in role0 ==> role0[kt].Free?
    requires forall p :: p in held ==> p in role0 && role0[p].Free?
    ensures role' == role0
  {
    forall p ensures (p in role' <==> p in role0) && (p in role0 ==> role'[p] == role0[p]) {
      assert NewAt(role0, role, t, kt, held, p) && ReclaimedAt(role, role', t, kt, held, p);
      if p in role0 && !role0[p].Free? {
        assert PageAt(mem0, role0, p) && FrameAt(mem0, role0, p);
        if role0[p].Sub? {
          var m := role0[p].parent;
          assert PageAt(mem0, role0, m) && NewAt(role0, role, t, kt, held, m);
        }
      }
    }
  }

  lemma Reclaim1(role: Roles, role': Roles, t: int)
    requires Surrendered(role, role', t)
    ensures Reclaimed(role, role', t, t, {})
  {
    forall p ensures ReclaimedAt(role, role', t, t, {}, p) {
      assert SurrenderedAt(role, role', t, p);
    }
  }

  // ---- proc_pagetable ----

  lemma UpperWords(tf: int, tramp: int)
    requires 0 < tf && 0 < tramp
    ensures WithValid(PTE_R + PTE_X) == PTE_R + PTE_X + PTE_V && WithValid(PTE_R + PTE_W) == PTE_R + PTE_W + PTE_V
    ensures IsLeaf(PTE_R + PTE_X) && IsLeaf(PTE_R + PTE_W)
    ensures Word(tramp, WithValid(PTE_R + PTE_X)) != 0 && Ppn(Word(tramp, WithValid(PTE_R + PTE_X))) == tramp
    ensures Word(tf, WithValid(PTE_R + PTE_W)) != 0 && Ppn(Word(tf, WithValid(PTE_R + PTE_W))) == tf
  {
    WordEntry(tramp, PTE_R + PTE_X);
    WordEntry(tf, PTE_R + PTE_W);
  }

  lemma SetOthers(mem: Memory, mem': Memory, role: Roles, t: int, v: int, e: int)
    requires MapSet(mem, mem', role, t, v, e)
    ensures OtherMaps(mem, mem', role, t)
  {
    hide Pte, PX;
  }

  lemma SameOthers(mem: Memory, mem': Memory, role: Roles, t: int)
    requires SameMaps(mem, mem', role)
    ensures OtherMaps(mem, mem', role, t)
  {
    hide Pte, PX;
  }

  lemma OthersSelf(mem: Memory, role: Roles, t: int)
    ensures OtherMaps(mem, mem, role, t)
  {
  }

  /** Tables that were there before t are among the others. */
  lemma OldMaps(a: Memory, b: Memory, c: Memory, role0: Roles, role: Roles, t: int)
    requires SameMaps(a, b, role0) && OtherMaps(b, c, role, t) && RootsIn(role0, role) && !(t in role0 && role0[t].Root?)
    ensures SameMaps(a, c, role0)
  {
    hide Pte, PX;
    forall u, w | InTable(role0, u, w) ensures Pte(c, u, w) == Pte(a, u, w) {
      assert InTable(role, u, w);
      assert Pte(b, u, w) == Pte(a, u, w);
    }
  }

  lemma FreshRoots(role0: Roles, role: Roles, t: int, kt: int, held: set<int>)
    requires NewTo(role0, role, t, kt, held)
    ensures RootsIn(role0, role)
  {
    forall u | u in role0 && role0[u].Root? ensures u in role && role[u] == role0[u] {
      assert NewAt(role0, role, t, kt, held, u);
    }
  }

  lemma UndisturbedNew(x: Bytes, y: Bytes, z: Bytes, role0: Roles, role: Roles, t: int, kt: int, held: set<int>)
    requires NewTo(role0, role, t, kt, held) && Undisturbed(x, y, role0) && Undisturbed(y, z, role)
    ensures Undisturbed(x, z, role0)
  {
    forall p | p in role0 && !role0[p].Free? && p in x ensures p in z && z[p] == x[p] {
      assert NewAt(role0, role, t, kt, held, p);
    }
  }

  lemma UndisturbedEnd(x: Bytes, y: Bytes, z: Bytes, role0: Roles)
    requires Undisturbed(x, y, role0) && Undisturbed(y, z, role0)
    ensures Undisturbed(x, z, role0)
  {
  }

  /** Taking a new user table down again, whatever has been hung below it. */
  method Undo(k: Kernel, t: int, ghost mem0: Memory, ghost role0: Roles, ghost data0: Bytes)
    requires k.Valid() && Trees(mem0, role0) && Frames(mem0, role0) && t in role0 && role0[t].Free? && UserTable(k.role, t)
    requires NewTo(role0, k.role, t, t, {}) && SameMaps(mem0, k.mem, role0) && Undisturbed(data0, k.data, role0)
    requires forall v :: 0 <= v < ALLVPN ==> Pte(k.mem, t, v) == 0
    modifies k
    ensures k.Valid() && k.role == role0 && SameMaps(mem0, k.mem, role0) && Undisturbed(data0, k.data, role0)
  {
    hide Trees, Frames, Pool, Sized, SameMaps, Pte, PX, Undisturbed, NewTo;
    ghost var mem1, role1, data1 := k.mem, k.role, k.data;
    FreshRoots(role0, role1, t, t, {});
    UvmFree(k, t, 0);
    Reclaim1(role1, k.role, t);
    Conserved(mem0, role0, role1, k.role, t, t, {});
    OldMaps(mem0, mem1, k.mem, role0, role1, t);
    UndisturbedEnd(data0, data1, k.data, role0);
  }

  /** Where a table under construction stands against the state before it was begun. */
  ghost predicate Since0(mem0: Memory, role0: Roles, data0: Bytes, mem: Memory, role: Roles, data: Bytes, t: int, kt: int, held: set<int>)
  {
    NewTo(role0, role, t, kt, held) && SameMaps(mem0, mem, role0) && Undisturbed(data0, data, role0)
  }

  /** One page mapped in one of the new tables (or not), seen from the state before. */
  lemma OneMore(mem0: Memory, role0: Roles, data0: Bytes, mem: Memory, role: Roles, data: Bytes, mem': Memory, role': Roles, data': Bytes,
                t: int, kt: int, held: set<int>, u: int)
    requires Since0(mem0, role0, data0, mem, role, data, t, kt, held) && !(u in role0 && role0[u].Root?)
    requires Kept(role, role') && Built(u, u, role, role') && u in {t, kt} && OtherMaps(mem, mem', role, u) && Undisturbed(data, data', role)
    requires forall p :: p in held ==> p in role && !role[p].Free?
    ensures Since0(mem0, role0, data0, mem', role', data', t, kt, held)
  {
    BuiltMore(u, u, t, kt, role, role');
    NewGrow(role0, role, role', t, kt, held);
    FreshRoots(role0, role, t, kt, held);
    OldMaps(mem0, mem, mem', role0, role, u);
    UndisturbedNew(data0, data, data', role0, role, t, kt, held);
  }

  lemma VacantUser(mem: Memory, role: Roles, t: int, v: int)
    requires UserTable(role, t) && 0 <= v < ALLVPN && Pte(mem, t, v) == 0
    ensures Vacant(mem, role, t, v)
  {
    InUser(role, t, v);
  }

  lemma UserKept(role: Roles, role': Roles, t: int)
    requires UserTable(role, t) && Kept(role, role')
    ensures UserTable(role', t)
  {
    assert KeptAt(role, role', t);
  }

  lemma EmptySame(mem: Memory, mem': Memory, role: Roles, t: int)
    requires UserTable(role, t) && SameMaps(mem, mem', role) && forall v :: 0 <= v < ALLVPN ==> Pte(mem, t, v) == 0
    ensures forall v :: 0 <= v < ALLVPN ==> Pte(mem', t, v) == 0
  {
    hide Pte, PX;
    forall v | 0 <= v < ALLVPN ensures Pte(mem', t, v) == 0 {
      InUser(role, t, v);
      assert Pte(mem', t, v) == Pte(mem, t, v);
    }
  }

  /** The map of t after the trampoline, and after the trapframe. */
  lemma UpperSet(mem: Memory, mem1: Memory, mem2: Memory, role: Roles, role1: Roles, t: int, tf: int, tramp: int)
    requires UserTable(role, t) && UserTable(role1, t) && 0 < tf && 0 < tramp && forall v :: 0 <= v < ALLVPN ==> Pte(mem, t, v) == 0
    requires MapSet(mem, mem1, role, t, TRAMPVPN, Word(tramp, WithValid(PTE_R + PTE_X)))
    requires MapSet(mem1, mem2, role1, t, TRAPVPN, Word(tf, WithValid(PTE_R + PTE_W)))
    ensures Upper(mem2, t, tf, tramp) && forall v :: 0 <= v < USERPAGES ==> Pte(mem2, t, v) == 0
  {
    UpperWords(tf, tramp);
    hide Pte, PX, Word;
    forall v | 0 <= v < ALLVPN ensures Pte(mem2, t, v) == UpperEntry(tf, tramp, v) {
      InUser(role, t, v);
      InUser(role1, t, v);
      assert Pte(mem1, t, v) == if v == TRAMPVPN then Word(tramp, WithValid(PTE_R + PTE_X)) else 0;
      assert Pte(mem2, t, v) == if v == TRAPVPN then Word(tf, WithValid(PTE_R + PTE_W)) else Pte(mem1, t, v);
    }
  }

  lemma EmptyBut(mem: Memory, mem1: Memory, role: Roles, role1: Roles, t: int, e: int)
    requires UserTable(role, t) && UserTable(role1, t) && (forall v :: 0 <= v < ALLVPN ==> Pte(mem, t, v) == 0)
    requires MapSet(mem, mem1, role, t, TRAMPVPN, e)
    ensures Vacant(mem1, role1, t, TRAPVPN)
  {
    hide Pte, PX;
    InUser(role, t, TRAPVPN);
    InUser(role1, t, TRAPVPN);
    assert Pte(mem1, t, TRAPVPN) == Pte(mem, t, TRAPVPN);
  }

  /** Trampoline and trapframe lie in the same bottom table. */
  lemma SharedTables(mem: Memory, mem1: Memory, role: Roles, t: int, e: int)
    requires UserTable(role, t) && MapSet(mem, mem1, role, t, TRAMPVPN, e) && e != 0
    ensures Missing(mem1, t, TRAPVPN) == 0
  {
    InUser(role, t, TRAMPVPN);
    assert Pte(mem1, t, TRAMPVPN) == e;
    PteFound(mem1, t, TRAMPVPN);
    assert PX(2, TRAMPVPN) == PX(2, TRAPVPN) && PX(1, TRAMPVPN) == PX(1, TRAPVPN);
  }

  lemma NoEntry(mem: Memory, t: int, i: int)
    requires t in mem && mem[t] == Zeros()
    ensures Entry(mem, t, i) == 0
  {
  }

  lemma NewMissing(mem: Memory, t: int, v: int)
    requires Entry(mem, t, PX(2, v)) == 0
    ensures Missing(mem, t, v) == 2
  {
    assert !IsValid(0);
    hide PX;
  }

  lemma InAll(role: Roles, t: int)
    requires UserTable(role, t)
    ensures forall w :: 0 <= w < ALLVPN ==> InTable(role, t, w)
  {
    forall w | 0 <= w < ALLVPN ensures InTable(role, t, w) {
      InUser(role, t, w);
    }
  }

  lemma BareZeros(mem: Memory, t: int)
    requires t in mem && |mem[t]| == ENTRIES && Entry(mem, t, 0) == 0 && Entry(mem, t, 1) == 0
    ensures Bare(mem, t)
  {
    forall w | 0 <= w < USERPAGES ensures Missing(mem, t, w) == 2 {
      LowIndex(w);
      NewMissing(mem, t, w);
    }
  }

  /** A table that is new adds nothing to the ways of the others. */
  lemma OtherWays(mem0: Memory, mem1: Memory, mem2: Memory, role0: Roles, role1: Roles, t: int, v: int, w: int)
    requires WaySet(mem0, mem1, role0, {}, v) && WaySet(mem1, mem2, role1, {t}, w) && RootsIn(role0, role1) && t in role0 && role0[t].Free?
    ensures WaySet(mem0, mem2, role0, {}, v)
  {
    hide PX, Missing;
    forall u, x | InTable(role0, u, x) ensures Missing(mem2, u, x) == Missing(mem0, u, x) {
      assert InTable(role1, u, x);
      assert Missing(mem1, u, x) == Missing(mem0, u, x);
    }
  }

  /** proc_pagetable: a user table with trampoline and trapframe, which takes three pages, or
      every page as it was. */
  method ProcPagetable(k: Kernel, tf: int, tramp: int) returns (t: int)
    requires k.Valid() && 0 < tf && 0 < tramp && tramp !in k.role
    modifies k
    ensures k.Valid() && SameMaps(old(k.mem), k.mem, old(k.role)) && Undisturbed(old(k.data), k.data, old(k.role))
    ensures t == 0 ==> k.role == old(k.role)
    ensures t == 0 <==> |old(k.free)| < 3
    ensures t != 0 ==>
      && t > 0 && t in old(k.role) && old(k.role)[t].Free? && UserTable(k.role, t) && NewTo(old(k.role), k.role, t, t, {})
      && |k.free| == |old(k.free)| - 3 && Bare(k.mem, t) && WaySet(old(k.mem), k.mem, old(k.role), {}, TRAPVPN)
      && Upper(k.mem, t, tf, tramp) && forall v :: 0 <= v < USERPAGES ==> Pte(k.mem, t, v) == 0
  {
    hide Trees, Frames, Pool, Sized, SameMaps, Pte, PX, Undisturbed, NewTo, Kept, Built, MapSet, Vacant, OtherMaps, Upper, Word, IsLeaf, WithValid, Missing, WaySet, Bare;
    ghost var mem0, role0, data0 := k.mem, k.role, k.data;
    UpperWords(tf, tramp);
    t := UvmCreate(k);
    if t == 0 { return; }
    NewNone(role0, t, t);
    NewTaken(role0, role0, t, t, {}, t);
    NewUse(role0, role0[t := Other], t, t, {} + {t}, t, Root(2, AllEntries(), map[]));
    assert role0[t := Other][t := Root(2, AllEntries(), map[])] == k.role;
    assert {} + {t} - {t} == {};
    ghost var mem1, role1, data1 := k.mem, k.role, k.data;
    VacantUser(mem1, role1, t, TRAMPVPN);
    NoEntry(mem1, t, PX(2, TRAMPVPN));
    NewMissing(mem1, t, TRAMPVPN);
    BareZeros(mem1, t);
    InAll(role1, t);
    var r := MapOne(k, t, TRAMPVPN, tramp, PTE_R + PTE_X);
    UserKept(role1, k.role, t);
    ghost var mem2, role2, data2 := k.mem, k.role, k.data;
    if r != 0 {
      SameOthers(mem1, mem2, role1, t);
      OneMore(mem0, role0, data0, mem1, role1, data1, mem2, role2, data2, t, t, {}, t);
      EmptySame(mem1, mem2, role1, t);
      Undo(k, t, mem0, role0, data0);
      return 0;
    }
    SetOthers(mem1, mem2, role1, t, TRAMPVPN, Word(tramp, WithValid(PTE_R + PTE_X)));
    OneMore(mem0, role0, data0, mem1, role1, data1, mem2, role2, data2, t, t, {}, t);
    BareStays(mem1, mem2, role1, {t}, TRAMPVPN, t);
    WaysKept(mem0, mem1, role0, t, TRAPVPN) by { assert role0[t].Free?; }
    OtherWays(mem0, mem1, mem2, role0, role1, t, TRAPVPN, TRAMPVPN);
    EmptyBut(mem1, mem2, role1, role2, t, Word(tramp, WithValid(PTE_R + PTE_X)));
    r := MapOne(k, t, TRAPVPN, tf, PTE_R + PTE_W);
    UserKept(role2, k.role, t);
    ghost var mem3, role3, data3 := k.mem, k.role, k.data;
    SharedTables(mem1, mem2, role1, t, Word(tramp, WithValid(PTE_R + PTE_X)));
    assert r == 0; // with the trampoline mapped no table page is missing for the trapframe
    InAll(role2, t);
    BareStays(mem2, mem3, role2, {t}, TRAPVPN, t);
    FreshRoots(role0, role2, t, t, {});
    OtherWays(mem0, mem2, mem3, role0, role2, t, TRAPVPN, TRAPVPN);
    SetOthers(mem2, mem3, role2, t, TRAPVPN, Word(tf, WithValid(PTE_R + PTE_W)));
    OneMore(mem0, role0, data0, mem2, role2, data2, mem3, role3, data3, t, t, {}, t);
    UpperSet(mem1, mem2, mem3, role1, role2, t, tf, tramp);
  }

  lemma SameDomain(role0: Roles, role: Roles, t: int, kt: int, held: set<int>, p: int)
    requires NewTo(role0, role, t, kt, held)
    ensures p in role0 <==> p in role
  {
    assert NewAt(role0, role, t, kt, held, p);
  }

  // ---- proc_kpagetable ----

  datatype Outcome = Done | NoMemory | Panic

  /** The page kp serves as kernel_pagetable: nothing hangs at the user entries nor at the
      stack's, so a copy of it starts with those entries empty. */
  ghost predicate Template(role: Roles, kp: int)
  {
    && kp in role && role[kp].Root? && role[kp].level == 2 && role[kp].own == AllEntries()
    && forall p :: p in role && role[p].Sub? && role[p].parent == kp ==> role[p].idx !in {0, 1, STACKINDEX}
  }

  lemma TemplateWords(mem: Memory, role: Roles, kp: int)
    requires Trees(mem, role) && Template(role, kp)
    ensures kp in mem && |mem[kp]| == ENTRIES
    ensures Entry(mem, kp, 0) == 0 && Entry(mem, kp, 1) == 0 && Entry(mem, kp, STACKINDEX) == 0
  {
    assert PageAt(mem, role, kp);
    forall i | i in {0, 1, STACKINDEX} ensures Entry(mem, kp, i) == 0 {
      assert IsEntry(i);
      Down(mem, role, kp, i);
    }
    hide Trees, Ppn, IsValid;
  }

  lemma TemplateStays(role0: Roles, role: Roles, kp: int, t: int, kt: int, held: set<int>)
    requires Template(role0, kp) && NewTo(role0, role, t, kt, held) && t != kp && kt != kp
    requires forall p :: p in held + {t, kt} && p in role ==> !role[p].Sub?
    ensures Template(role, kp)
  {
    assert NewAt(role0, role, t, kt, held, kp);
    forall p | p in role && role[p].Sub? && role[p].parent == kp ensures role[p].idx !in {0, 1, STACKINDEX} {
      assert NewAt(role0, role, t, kt, held, p);
    }
  }

  /** No entry of kernel_pagetable changes while no page comes to hang from it. */
  lemma TemplateSame(mem: Memory, mem': Memory, role: Roles, role': Roles, kp: int)
    requires Trees(mem, role) && Trees(mem', role') && Template(role, kp) && Template(role', kp)
    requires forall c :: c in role' && role'[c].Sub? && role'[c].parent == kp ==> c in role && role[c] == role'[c]
    requires forall c :: c in role && role[c].Sub? && role[c].parent == kp ==> c in role' && role'[c] == role[c]
    ensures KernelPart(mem', kp) == KernelPart(mem, kp)
  {
    hide Word, Ppn, IsValid, IsLeaf;
    forall i | 0 <= i < ENTRIES ensures Entry(mem', kp, i) == Entry(mem, kp, i) {
      assert IsEntry(i);
      assert SlotAt(mem, role, kp, i) && SlotAt(mem', role', kp, i);
      assert PageAt(mem, role, Ppn(Entry(mem', kp, i))) && PageAt(mem', role', Ppn(Entry(mem, kp, i)));
    }
  }

  /** What hangs from another table than the new one has not changed. */
  lemma NewHangs(role: Roles, role': Roles, t: int, kp: int)
    requires NewTo(role, role', t, t, {}) && kp != t && kp in role && role[kp].Root? && t in role' && role'[t].Root?
    ensures forall c :: c in role' && role'[c].Sub? && role'[c].parent == kp ==> c in role && role[c] == role'[c]
    ensures forall c :: c in role && role[c].Sub? && role[c].parent == kp ==> c in role' && role'[c] == role[c]
  {
    assert NewAt(role, role', t, t, {}, kp);
    forall c | c in role' && role'[c].Sub? && role'[c].parent == kp ensures c in role && role[c] == role'[c] {
      assert NewAt(role, role', t, t, {}, c);
    }
    forall c | c in role && role[c].Sub? && role[c].parent == kp ensures c in role' && role'[c] == role[c] {
      assert NewAt(role, role', t, t, {}, c);
    }
  }

  lemma Copying(mem: Memory, role: Roles, q: int, words: seq<int>)
    requires Trees(mem, role) && Frames(mem, role) && q in role && role[q].Other? && |words| == ENTRIES
    ensures Trees(mem[q := words], role) && Frames(mem[q := words], role) && SameMaps(mem, mem[q := words], role)
  {
    Scratch(mem, role, q, words);
    FramesSame(mem, mem[q := words], role, role) by { hide Trees, Pte; }
  }

  lemma KernelEmpty(mem: Memory, role: Roles, kt: int, v: int)
    requires KernelRoot(role, kt) && (0 <= v < USERPAGES || v == VKVPN)
    requires Entry(mem, kt, 0) == 0 && Entry(mem, kt, 1) == 0 && Entry(mem, kt, STACKINDEX) == 0
    ensures Vacant(mem, role, kt, v)
  {
    StackIndex();
    if v < USERPAGES { LowIndex(v); }
    NewMap(mem, kt, {0, 1, STACKINDEX}, v);
    hide PX, Pte;
  }

  lemma StackOnly(mem: Memory, role0: Roles, role: Roles, kt: int, r: Role, q: int)
    requires Frames(mem, role0) && kt in role0 && role0[kt].Free? && q in role && r.Root?
    requires Kept(role0[kt := r][q := Other], role)
    ensures KernelFrames(role[q := Frame(kt, VKVPN)], kt, true)
  {
    var role', mid := role[q := Frame(kt, VKVPN)], role0[kt := r][q := Other];
    hide Pte, PX;
    forall p | p in role' && role'[p].Frame? && role'[p].table == kt ensures role'[p].v == VKVPN {
      assert KeptAt(mid, role, p);
      assert FrameAt(mem, role0, p);
    }
  }

  lemma KernelSet(mem: Memory, mem': Memory, role: Roles, kt: int, e: int)
    requires KernelRoot(role, kt) && MapSet(mem, mem', role, kt, VKVPN, e)
    requires forall v :: 0 <= v < USERPAGES || v == VKVPN ==> Vacant(mem, role, kt, v)
    ensures Pte(mem', kt, VKVPN) == e && forall v :: 0 <= v < USERPAGES ==> Pte(mem', kt, v) == 0
  {
    hide Pte, PX;
    assert Vacant(mem, role, kt, VKVPN);
    forall v | 0 <= v < USERPAGES ensures Pte(mem', kt, v) == 0 {
      assert Vacant(mem, role, kt, v);
      assert Pte(mem', kt, v) == Pte(mem, kt, v);
    }
  }

  lemma VacantSame(mem: Memory, mem': Memory, role: Roles, role': Roles, kt: int)
    requires SameMaps(mem, mem', role') && RootsIn(role, role') && forall v :: 0 <= v < USERPAGES || v == VKVPN ==> Vacant(mem, role, kt, v)
    ensures forall v :: 0 <= v < USERPAGES || v == VKVPN ==> Vacant(mem', role', kt, v)
  {
    hide Pte, PX, Vacant;
    forall v | 0 <= v < USERPAGES || v == VKVPN ensures Vacant(mem', role', kt, v) {
      assert Vacant(mem, role, kt, v);
      VacantKept(mem, mem', role, role', kt, v);
    }
  }

  lemma StillVacant(mem: Memory, mem': Memory, role: Roles, role': Roles, t: int, v: int)
    requires Vacant(mem, role, t, v) && SameMaps(mem, mem', role) && Kept(role, role')
    ensures Vacant(mem', role', t, v)
  {
    KeptTables(role, role', t, v);
    hide Pte, PX;
    assert Pte(mem', t, v) == Pte(mem, t, v);
  }

  /** kvmfree with a stack to free and none mapped: its vmunmap panics. */
  method NoStack(k: Kernel, kt: int) returns (panicked: bool)
    requires k.Valid() && Vacant(k.mem, k.role, kt, VKVPN)
    modifies k
    ensures panicked
  {
    hide Trees, Frames, Pool, Sized, Pte, PX, Vacant;
    StackIndex();
    OnePage(VKVPN);
    panicked := k.VmUnmap(kt, VKVPN * PGSIZE, 1, true, 0);
  }

  lemma InLow(role: Roles, kt: int)
    requires KernelRoot(role, kt)
    ensures forall w :: 0 <= w < USERPAGES ==> InTable(role, kt, w)
  {
    forall w | 0 <= w < USERPAGES ensures InTable(role, kt, w) {
      InKernel(role, kt, w);
    }
  }

  lemma NoOtherWays(mem0: Memory, mem1: Memory, mem2: Memory, mem3: Memory, role0: Roles, role1: Roles, role2: Roles, kt: int)
    requires WaySet(mem0, mem1, role0, {}, VKVPN) && WaySet(mem1, mem2, role1, {}, VKVPN) && WaySet(mem2, mem3, role2, {kt}, VKVPN)
    requires RootsIn(role0, role1) && RootsIn(role0, role2) && kt in role0 && role0[kt].Free?
    ensures WaySet(mem0, mem3, role0, {}, VKVPN)
  {
    WayJoin(mem0, mem1, mem2, role0, role1, {}, {}, VKVPN);
    WayJoin(mem0, mem2, mem3, role0, role2, {} + {}, {kt}, VKVPN);
    assert {} + {} + {kt} == {kt};
    WayDrop(mem0, mem3, role0, kt, VKVPN);
  }

  /** proc_kpagetable takes four pages: the table, the stack and two table pages for the stack.
      With none it fails; with one to three it has kvmfree unmap a stack that is not there, and
      vmunmap panics. */
  method ProcKpagetable(k: Kernel, kp: int) returns (outcome: Outcome, kt: int)
    requires k.Valid() && Template(k.role, kp)
    modifies k
    ensures outcome == NoMemory ==> k.Valid() && k.role == old(k.role) && SameMaps(old(k.mem), k.mem, old(k.role)) && Undisturbed(old(k.data), k.data, old(k.role))
    ensures outcome == NoMemory <==> |old(k.free)| == 0
    ensures outcome == Panic <==> 1 <= |old(k.free)| <= 3
    ensures outcome == Done ==>
      && |k.free| == |old(k.free)| - 4 && Bare(k.mem, kt) && WaySet(old(k.mem), k.mem, old(k.role), {}, VKVPN)
      && k.Valid() && Since0(old(k.mem), old(k.role), old(k.data), k.mem, k.role, k.data, kt, kt, {})
      && kt > 0 && kt in old(k.role) && old(k.role)[kt].Free? && KernelRoot(k.role, kt) && k.role[kt].shared == KernelPart(old(k.mem), kp) && KernelSame(old(k.mem), kp, k.mem, kt)
      && KernelFrames(k.role, kt, true) && Holds(k.mem, k.role, kt, VKVPN) && Flags(Pte(k.mem, kt, VKVPN)) == PTE_V + PTE_R + PTE_W
      && forall v :: 0 <= v < USERPAGES ==> Pte(k.mem, kt, v) == 0
  {
    hide Trees, Frames, Pool, Sized, SameMaps, Pte, PX, Undisturbed, NewTo, Kept, Built, MapSet, Vacant, OtherMaps, Word, IsLeaf, WithValid, KernelFrames, Ppn, Missing, WaySet, Bare;
    ghost var mem0, role0, data0 := k.mem, k.role, k.data;
    Still(mem0, data0, role0, 0, 0, 0, 0);
    TemplateWords(mem0, role0, kp);
    kt := k.KAlloc();
    if kt == 0 { return NoMemory, 0; }
    NewIsPage(k.mem, k.role, kt);
    ghost var own := {0, 1, STACKINDEX};
    OnlyPage(data0, k.data, role0, kt);
    Beginning(k, kt, kp, mem0, role0, data0);
    ghost var mem1, role1, data1 := k.mem, k.role, k.data;
    var pstack := k.KAlloc();
    if pstack == 0 {
      StackIndex();
      assert Vacant(mem1, role1, kt, VKVPN);
      var panicked := NoStack(k, kt);
      return if panicked then Panic else NoMemory, kt;
    }
    ghost var mem2, role2, data2 := k.mem, k.role, k.data;
    NewIsPage(mem2, role2, pstack);
    NewTaken(role0, role1, kt, kt, {}, pstack);
    FreshRoots(role0, role1, kt, kt, {});
    MapsTrans(mem0, mem1, mem2, role0, role0, role2);
    VacantSame(mem1, mem2, role1, role2, kt);
    StackIndex();
    assert Vacant(mem2, role2, kt, VKVPN);
    UndisturbedNew(data0, data1, data2, role0, role1, kt, kt, {});
    UpperWords(pstack, 1);
    NewMissing(mem2, kt, VKVPN);
    WaysKept(mem0, mem1, role0, kt, VKVPN);
    WaysKept(mem1, mem2, role1, pstack, VKVPN);
    InLow(role1, kt);
    InLow(role2, kt);
    BareStays(mem1, mem2, role1, {}, VKVPN, kt);
    var r := MapOne(k, kt, VKVPN, pstack, PTE_R + PTE_W);
    if r != 0 {
      StillVacant(mem2, k.mem, role2, k.role, kt, VKVPN);
      var panicked := NoStack(k, kt);
      return if panicked then Panic else NoMemory, kt;
    }
    ghost var mem3, role3, data3 := k.mem, k.role, k.data;
    BareStays(mem2, mem3, role2, {kt}, VKVPN, kt);
    NoOtherWays(mem0, mem1, mem2, mem3, role0, role1, role2, kt);
    SetOthers(mem2, mem3, role2, kt, VKVPN, Word(pstack, WithValid(PTE_R + PTE_W)));
    OneMore(mem0, role0, data0, mem2, role2, data2, mem3, role3, data3, kt, kt, {} + {pstack}, kt);
    KernelSet(mem2, mem3, role2, kt, Word(pstack, WithValid(PTE_R + PTE_W)));
    KeptWith(role2, role3, pstack, Frame(kt, VKVPN));
    KernelStays(role2, role3, kt);
    Adopted(mem3, data3, k.next, k.head, k.npage, k.free, role3, kt, VKVPN, pstack);
    StackOnly(mem0, role0, role3, kt, role1[kt], pstack);
    NewUse(role0, role3, kt, kt, {} + {pstack}, pstack, Frame(kt, VKVPN));
    assert {} + {pstack} - {pstack} == {};
    k.role := k.role[pstack := Frame(kt, VKVPN)];
    SharedKept(mem0, kp, k.mem, k.role, kt);
    StackFlags(pstack);
    outcome := Done;
  }

  lemma StackFlags(q: int)
    requires 0 <= q
    ensures Flags(Word(q, WithValid(PTE_R + PTE_W))) == PTE_V + PTE_R + PTE_W
  {
    EntryParts(q, PTE_V + PTE_R + PTE_W);
  }

  lemma KernelStays(role: Roles, role': Roles, kt: int)
    requires KernelRoot(role, kt) && Kept(role, role')
    ensures kt in role' && role'[kt] == role[kt] && InTable(role', kt, VKVPN)
  {
    StackIndex();
    hide PX;
    assert KeptAt(role, role', kt);
  }

  /** The copy of kernel_pagetable becomes the new kernel table. */
  method Beginning(k: Kernel, kt: int, kp: int, ghost mem0: Memory, ghost role0: Roles, ghost data0: Bytes)
    requires k.Valid() && Template(role0, kp) && Trees(mem0, role0) && kt in role0 && role0[kt].Free? && k.role == role0[kt := Other]
    requires kt in k.mem && k.mem == mem0[kt := k.mem[kt]] && SameMaps(mem0, k.mem, k.role) && Undisturbed(data0, k.data, role0)
    modifies k`mem, k`role
    ensures k.Valid() && k.role == role0[kt := Root(2, {0, 1, STACKINDEX}, KernelPart(mem0, kp))]
    ensures Since0(mem0, role0, data0, k.mem, k.role, k.data, kt, kt, {})
    ensures forall v :: 0 <= v < USERPAGES || v == VKVPN ==> Vacant(k.mem, k.role, kt, v)
    ensures kt in k.mem && k.mem == mem0[kt := k.mem[kt]] && Bare(k.mem, kt)
    ensures Entry(k.mem, kt, STACKINDEX) == 0
  {
    hide Trees, Frames, Pool, Sized, SameMaps, Pte, PX, Undisturbed, NewTo, Vacant, Bare;
    TemplateWords(mem0, role0, kp);
    ghost var mem1, role1 := k.mem, k.role;
    Copying(k.mem, k.role, kt, k.mem[kp]);
    k.mem := k.mem[kt := k.mem[kp]];
    MapsTrans(mem0, mem1, k.mem, role0, role1, role1);
    assert IsEntry(0) && IsEntry(1) && IsEntry(STACKINDEX);
    BareZeros(k.mem, kt);
    ghost var top := Root(2, {0, 1, STACKINDEX}, KernelPart(mem0, kp));
    NewTable(k.mem, k.data, k.next, k.head, k.npage, k.free, k.role, kt, top.own, top.shared);
    NewNone(role0, kt, kt);
    NewTaken(role0, role0, kt, kt, {}, kt);
    NewUse(role0, role1, kt, kt, {} + {kt}, kt, top);
    assert {} + {kt} - {kt} == {};
    k.role := k.role[kt := top];
    forall v | 0 <= v < USERPAGES || v == VKVPN ensures Vacant(k.mem, k.role, kt, v) {
      KernelEmpty(k.mem, k.role, kt, v);
    }
  }

  // ---- freeproc ----

  /** A user table with n pages below, trampoline and trapframe above. */
  ghost predicate UserFull(mem: Memory, role: Roles, t: int, tf: int, tramp: int, n: int)
  {
    && UserTable(role, t) && Upper(mem, t, tf, tramp) && 0 <= n <= USERPAGES
    && 0 < tramp && tramp !in role && 0 < tf && tf in role && !role[tf].Frame?
    && (forall v :: 0 <= v < n ==> Holds(mem, role, t, v))
    && (forall v :: n <= v < USERPAGES ==> Pte(mem, t, v) == 0)
  }

  ghost predicate KernelFull(mem: Memory, role: Roles, kt: int)
  {
    KernelRoot(role, kt) && KernelFrames(role, kt, true) && Holds(mem, role, kt, VKVPN) && Flags(Pte(mem, kt, VKVPN)) == PTE_V + PTE_R + PTE_W
  }

  lemma UpperReady(mem: Memory, role: Roles, t: int, tf: int, tramp: int, n: int)
    requires UserFull(mem, role, t, tf, tramp, n)
    ensures Ready(mem, role, t, TRAMPVPN, false) && Ready(mem, role, t, TRAPVPN, false)
  {
    UpperWords(tf, tramp);
    InUser(role, t, TRAMPVPN);
    InUser(role, t, TRAPVPN);
    hide Pte, PX, Word, Ppn;
    assert Pte(mem, t, TRAMPVPN) == UpperEntry(tf, tramp, TRAMPVPN) && Pte(mem, t, TRAPVPN) == UpperEntry(tf, tramp, TRAPVPN);
  }

  lemma UpperOff(mem: Memory, mem1: Memory, mem2: Memory, role: Roles, t: int, tf: int, tramp: int, n: int)
    requires UserFull(mem, role, t, tf, tramp, n)
    requires Unmapped(mem, mem1, role, t, TRAMPVPN, 1) && Unmapped(mem1, mem2, role, t, TRAPVPN, 1)
    ensures forall v :: 0 <= v < n ==> Holds(mem2, role, t, v)
    ensures forall v :: n <= v < ALLVPN ==> Pte(mem2, t, v) == 0
  {
    hide Pte, PX, Word, Ppn;
    forall v | 0 <= v < ALLVPN ensures Pte(mem2, t, v) == if v == TRAMPVPN || v == TRAPVPN then 0 else Pte(mem, t, v) {
      InUser(role, t, v);
      assert Pte(mem1, t, v) == if v == TRAMPVPN then 0 else Pte(mem, t, v);
      assert Pte(mem2, t, v) == if v == TRAPVPN then 0 else Pte(mem1, t, v);
    }
    forall v | 0 <= v < n ensures Holds(mem2, role, t, v) {
      assert Holds(mem, role, t, v);
    }
    forall v | n <= v < ALLVPN ensures Pte(mem2, t, v) == 0 {
      if v >= USERPAGES { assert Pte(mem, t, v) == UpperEntry(tf, tramp, v); }
    }
  }

  lemma ReadyStays(mem: Memory, mem': Memory, role: Roles, t: int, v: int, v0: int)
    requires Ready(mem, role, t, v, false) && Unmapped(mem, mem', role, t, v0, 1) && v != v0
    ensures Ready(mem', role, t, v, false)
  {
    hide Pte, PX, Ppn;
    assert Pte(mem', t, v) == Pte(mem, t, v);
  }

  /** proc_freepagetable */
  method ProcFreePagetable(k: Kernel, t: int, ghost tf: int, ghost tramp: int, sz: int)
    requires k.Valid() && 0 <= sz && UserFull(k.mem, k.role, t, tf, tramp, Pages(sz))
    modifies k
    ensures k.Valid() && Surrendered(old(k.role), k.role, t) && OtherMaps(old(k.mem), k.mem, old(k.role), t)
    ensures Undisturbed(old(k.data), k.data, k.role)
  {
    hide Trees, Frames, Pool, Sized, Pte, PX, Undisturbed, Freed, Unmapped, Ready, OtherMaps, Surrendered, Holds, Word, Upper;
    ghost var mem0, role0, data0 := k.mem, k.role, k.data;
    UpperReady(mem0, role0, t, tf, tramp, Pages(sz));
    OnePage(TRAMPVPN);
    OnePage(TRAPVPN);
    var _ := k.VmUnmap(t, TRAMPVPN * PGSIZE, 1, false, 1);
    ghost var mem1, data1 := k.mem, k.data;
    FreedNone(role0, k.role, t, TRAMPVPN, 1);
    ReadyStays(mem0, mem1, role0, t, TRAPVPN, TRAMPVPN);
    var _ := k.VmUnmap(t, TRAPVPN * PGSIZE, 1, false, 1);
    ghost var mem2, data2 := k.mem, k.data;
    FreedNone(role0, k.role, t, TRAPVPN, 1);
    UpperOff(mem0, mem1, mem2, role0, t, tf, tramp, Pages(sz));
    UvmFree(k, t, sz);
    UnmappedOthers(mem0, mem1, role0, t, TRAMPVPN, 1);
    UnmappedOthers(mem1, mem2, role0, t, TRAPVPN, 1);
    OtherMapsTrans(mem0, mem1, mem2, role0, role0, t);
    OtherMapsTrans(mem0, mem2, k.mem, role0, role0, t);
    UndisturbedSame(data0, data1, data2, role0);
    SurrenderedFree(role0, k.role, t);
    UndisturbedOn(data0, data2, k.data, role0, k.role);
  }

  lemma SurrenderedFree(role: Roles, role': Roles, t: int)
    requires Surrendered(role, role', t)
    ensures forall p :: p in role' && !role'[p].Free? ==> p in role && !role[p].Free?
  {
    forall p | p in role' && !role'[p].Free? ensures p in role && !role[p].Free? {
      assert SurrenderedAt(role, role', t, p);
    }
  }

  /** Every table but t and kt translates as before. */
  ghost predicate RestSame(mem: Memory, mem': Memory, role: Roles, t: int, kt: int)
  {
    forall u, w {:trigger Pte(mem', u, w)} :: InTable(role, u, w) && u != t && u != kt ==> Pte(mem', u, w) == Pte(mem, u, w)
  }

  lemma RestOfOther(a: Memory, b: Memory, c: Memory, role: Roles, role': Roles, t: int, kt: int, u: int)
    requires RestSame(a, b, role, t, kt) && OtherMaps(b, c, role', u) && u in {t, kt}
    requires forall r :: r in role && role[r].Root? && r != t && r != kt ==> r in role' && role'[r] == role[r]
    ensures RestSame(a, c, role, t, kt)
  {
    hide Pte, PX;
    forall r, w | InTable(role, r, w) && r != t && r != kt ensures Pte(c, r, w) == Pte(a, r, w) {
      assert InTable(role', r, w);
      assert Pte(b, r, w) == Pte(a, r, w);
    }
  }

  lemma SurrenderedRoots(role: Roles, role': Roles, t: int)
    requires Surrendered(role, role', t)
    ensures forall r :: r in role && role[r].Root? && r != t ==> r in role' && role'[r] == role[r]
  {
    forall r | r in role && role[r].Root? && r != t ensures r in role' && role'[r] == role[r] {
      assert SurrenderedAt(role, role', t, r);
    }
  }

  /** The trapframe page, then table kt, then table t. */
  lemma ReclaimAll(role: Roles, role1: Roles, role2: Roles, role3: Roles, t: int, kt: int, tf: int)
    requires tf in role && role[tf].Other? && role1 == role[tf := Free] && (t != kt || t !in role)
    requires Surrendered(role1, role2, kt) && Surrendered(role2, role3, t)
    requires t in role ==> role[t].Root?
    requires kt in role ==> role[kt].Root?
    ensures Reclaimed(role, role3, t, kt, {tf})
  {
    forall p ensures ReclaimedAt(role, role3, t, kt, {tf}, p) {
      assert SurrenderedAt(role1, role2, kt, p) && SurrenderedAt(role2, role3, t, p);
      if p in role && role[p].Sub? {
        assert SurrenderedAt(role1, role2, kt, role[p].parent);
      }
    }
  }

  /** A null table has no pages. */
  lemma NullTable(mem: Memory, role: Roles)
    requires Trees(mem, role) && Frames(mem, role)
    ensures Surrendered(role, role, 0) && 0 !in role
  {
    forall p ensures SurrenderedAt(role, role, 0, p) {
      assert PageAt(mem, role, p) && FrameAt(mem, role, p) && PageAt(mem, role, 0);
      if p in role && role[p].Sub? { assert PageAt(mem, role, role[p].parent) && PageAt(mem, role, 0); }
    }
    assert PageAt(mem, role, 0);
  }

  /** User memory is untouched when the trapframe page and the kernel table go. */
  lemma UserStays(mem: Memory, mem1: Memory, mem2: Memory, role: Roles, role1: Roles, role2: Roles, t: int, kt: int, tf: int, tramp: int, n: int)
    requires UserFull(mem, role, t, tf, tramp, n) && role[tf].Other? && role1 == role[tf := Free] && SameMaps(mem, mem1, role1)
    requires Surrendered(role1, role2, kt) && OtherMaps(mem1, mem2, role1, kt) && t != kt && (kt in role1 ==> role1[kt].Root?)
    ensures UserFull(mem2, role2, t, tf, tramp, n)
  {
    hide Pte, PX, Ppn, Word;
    assert SurrenderedAt(role1, role2, kt, t) && SurrenderedAt(role1, role2, kt, tf) && SurrenderedAt(role1, role2, kt, tramp);
    forall v | 0 <= v < ALLVPN ensures Pte(mem2, t, v) == Pte(mem, t, v) {
      InUser(role1, t, v);
      assert Pte(mem1, t, v) == Pte(mem, t, v);
    }
    forall v | 0 <= v < n ensures Holds(mem2, role2, t, v) {
      assert Holds(mem, role, t, v);
      InUser(role2, t, v);
      assert SurrenderedAt(role1, role2, kt, Ppn(Pte(mem, t, v)));
    }
  }

  lemma KernelStill(mem: Memory, mem1: Memory, role: Roles, kt: int, tf: int)
    requires KernelFull(mem, role, kt) && tf in role && role[tf].Other? && SameMaps(mem, mem1, role[tf := Free])
    ensures KernelFull(mem1, role[tf := Free], kt)
  {
    hide Pte, PX, Ppn;
    assert Pte(mem1, kt, VKVPN) == Pte(mem, kt, VKVPN);
  }

  /** freeproc: the trapframe page, all that belongs to the kernel table and all that belongs to
      the user table is free afterwards, each page once; nothing else changes hands. */
  method FreeProc(k: Kernel, t: int, kt: int, tf: int, ghost tramp: int, sz: int)
    requires k.Valid() && tf in k.role && k.role[tf].Other? && (t != kt || t == 0) && 0 <= sz
    requires kt == 0 || KernelFull(k.mem, k.role, kt)
    requires t == 0 || UserFull(k.mem, k.role, t, tf, tramp, Pages(sz))
    modifies k
    ensures k.Valid() && Reclaimed(old(k.role), k.role, t, kt, {tf}) && RestSame(old(k.mem), k.mem, old(k.role), t, kt)
    ensures Undisturbed(old(k.data), k.data, k.role)
  {
    hide Trees, Frames, Pool, Sized, Pte, PX, Undisturbed, OtherMaps, Surrendered, Holds, Word, Upper, SameMaps, RestSame, KernelFrames;
    ghost var mem0, role0, data0 := k.mem, k.role, k.data;
    NullTable(mem0, role0);
    k.KFree(tf);
    ghost var mem1, role1, data1 := k.mem, k.role, k.data;
    OnlyPage(data0, data1, role1, tf);
    RestStart(mem0, mem1, role0, role1, t, kt);
    OthersSelf(mem1, role1, kt);
    NullTable(mem1, role1);
    if kt != 0 {
      KernelStill(mem0, mem1, role0, kt, tf);
      KvmFree(k, kt, true);
    } else {
      Untouched(data1, role1);
    }
    ghost var mem2, role2, data2 := k.mem, k.role, k.data;
    RestOfOther(mem0, mem1, mem2, role0, role1, t, kt, kt);
    SurrenderedRoots(role1, role2, kt);
    SurrenderedFree(role1, role2, kt);
    UndisturbedOn(data0, data1, data2, role1, role2);
    NullTable(mem2, role2);
    OthersSelf(mem2, role2, t);
    if t != 0 {
      UserStays(mem0, mem1, mem2, role0, role1, role2, t, kt, tf, tramp, Pages(sz));
      ProcFreePagetable(k, t, tf, tramp, sz);
    } else {
      Untouched(data2, role2);
    }
    RestOfOther(mem0, mem2, k.mem, role0, role2, t, kt, t);
    SurrenderedFree(role2, k.role, t);
    UndisturbedOn(data0, data2, k.data, role2, k.role);
    ReclaimAll(role0, role1, role2, k.role, t, kt, tf);
  }

  lemma RestStart(mem: Memory, mem1: Memory, role: Roles, role1: Roles, t: int, kt: int)
    requires SameMaps(mem, mem1, role1) && RootsIn(role, role1)
    ensures RestSame(mem, mem1, role, t, kt)
  {
    hide Pte, PX;
    forall u, w | InTable(role, u, w) ensures Pte(mem1, u, w) == Pte(mem, u, w) {
      assert InTable(role1, u, w);
    }
  }

  // ---- allocproc ----

  /** The trapframe first, then table t, then table kt. */
  lemma NewJoin(role0: Roles, role1: Roles, role2: Roles, role3: Roles, t: int, kt: int, tf: int)
    requires tf in role0 && role0[tf].Free? && role1 == role0[tf := Other]
    requires NewTo(role1, role2, t, t, {}) && NewTo(role2, role3, kt, kt, {})
    ensures NewTo(role0, role3, t, kt, {tf})
  {
    forall p ensures NewAt(role0, role3, t, kt, {tf}, p) {
      assert NewAt(role1, role2, t, t, {}, p) && NewAt(role2, role3, kt, kt, {}, p);
      if p in role2 && role2[p].Sub? { assert NewAt(role2, role3, kt, kt, {}, role2[p].parent); }
    }
  }

  /** What the tables of a process are when nothing but new pages has changed hands. */
  lemma FullStays(mem: Memory, mem': Memory, role: Roles, role': Roles, t: int, tf: int, tramp: int, u: int, ku: int, held: set<int>)
    requires UserTable(role, t) && Upper(mem, t, tf, tramp) && (forall v :: 0 <= v < USERPAGES ==> Pte(mem, t, v) == 0)
    requires NewTo(role, role', u, ku, held) && SameMaps(mem, mem', role)
    ensures UserTable(role', t) && Upper(mem', t, tf, tramp) && forall v :: 0 <= v < USERPAGES ==> Pte(mem', t, v) == 0
  {
    hide Pte, PX, Word;
    assert NewAt(role, role', u, ku, held, t);
    forall v | 0 <= v < ALLVPN ensures Pte(mem', t, v) == Pte(mem, t, v) {
      InUser(role, t, v);
    }
  }

  lemma LockstepEmpty(mem: Memory, role: Roles, t: int, kt: int)
    requires UserTable(role, t) && KernelTable(role, kt) && t != kt
    requires forall v :: 0 <= v < USERPAGES ==> Pte(mem, t, v) == 0 && Pte(mem, kt, v) == 0
    ensures Lockstep(mem, role, t, kt, 0)
  {
    hide Pte, NoUser, Holds;
    forall v ensures PairAt(mem, role, t, kt, 0, v) {
    }
  }

  /** allocproc, as far as memory goes: an empty process, which takes eight pages, or every page as
      it was, or a panic. */
  method AllocProc(k: Kernel, kp: int, tramp: int) returns (outcome: Outcome, tf: int, t: int, kt: int)
    requires k.Valid() && Template(k.role, kp) && 0 < tramp && tramp !in k.role
    modifies k
    ensures outcome == NoMemory ==> k.Valid() && k.role == old(k.role) && SameMaps(old(k.mem), k.mem, old(k.role)) && Undisturbed(old(k.data), k.data, old(k.role))
    ensures outcome == NoMemory <==> |old(k.free)| <= 4
    ensures outcome == Panic <==> 5 <= |old(k.free)| <= 7
    ensures outcome == Done ==>
      && |k.free| == |old(k.free)| - 8 && Bare(k.mem, t) && Bare(k.mem, kt)
      && k.Valid() && ProcMem(k.mem, k.role, t, kt, tf, tramp, 0, true)
      && k.role[kt].shared == KernelPart(old(k.mem), kp) && KernelSame(old(k.mem), kp, k.mem, kt)
      && t in old(k.role) && old(k.role)[t].Free? && kt in old(k.role) && old(k.role)[kt].Free? && tf in old(k.role) && old(k.role)[tf].Free?
      && Since0(old(k.mem), old(k.role), old(k.data), k.mem, k.role, k.data, t, kt, {tf})
  {
    hide Trees, Frames, Pool, Sized, SameMaps, Pte, PX, Undisturbed, NewTo, Word, KernelFrames, Holds, Upper, Template, Reclaimed, RestSame, Lockstep, Bare, WaySet;
    ghost var mem0, role0, data0 := k.mem, k.role, k.data;
    Still(mem0, data0, role0, 0, 0, 0, 0);
    tf := k.KAlloc();
    t, kt := 0, 0;
    if tf == 0 { return NoMemory, tf, t, kt; }
    NewIsPage(k.mem, k.role, tf);
    ghost var mem1, role1, data1 := k.mem, k.role, k.data;
    OnlyPage(data0, data1, role0, tf);
    MapsTrans(mem0, mem0, mem1, role0, role0, role1);
    t := ProcPagetable(k, tf, tramp);
    ghost var mem2, role2, data2 := k.mem, k.role, k.data;
    MapsTrans(mem0, mem1, mem2, role0, role0, role1);
    UndisturbedOpen(data0, data1, data2, role0, tf);
    NewNone(role1, t, t);
    NewNone(role2, 0, 0);
    NullTable(mem0, role0);
    NewJoin(role0, role1, role2, role2, t, 0, tf);
    SameHeld(role1, role2, t, t, {}, tf);
    SameDomain(role1, role2, t, t, {}, tramp);
    if t == 0 {
      FreeProc(k, 0, 0, tf, tramp, 0);
      Discard(mem0, mem2, k.mem, data0, data2, k.data, role0, role2, k.role, 0, 0, tf);
      return NoMemory, tf, t, kt;
    }
    TemplateAlloc(role0, role1, kp, tf);
    NotNew(role1, kp, t);
    TemplateStays(role1, role2, kp, t, t, {});
    TemplateSame(mem0, mem1, role0, role1, kp);
    NewHangs(role1, role2, t, kp);
    TemplateSame(mem1, mem2, role1, role2, kp);
    outcome, kt := ProcKpagetable(k, kp);
    if outcome == Panic { return; }
    ghost var mem3, role3, data3 := k.mem, k.role, k.data;
    FreshRoots(role0, role2, t, 0, {tf});
    MapsTrans(mem0, mem2, mem3, role0, role0, role2);
    UndisturbedNew(data0, data2, data3, role0, role2, t, 0, {tf});
    if outcome == NoMemory {
      NewNone(role2, t, t);
      FullStays(mem2, mem3, role2, role3, t, tf, tramp, t, t, {});
      FreeProc(k, t, 0, tf, tramp, 0);
      Discard(mem0, mem3, k.mem, data0, data3, k.data, role0, role3, k.role, t, 0, tf);
      return;
    }
    FullStays(mem2, mem3, role2, role3, t, tf, tramp, kt, kt, {});
    SameHeld(role2, role3, kt, kt, {}, tf);
    SameDomain(role2, role3, kt, kt, {}, tramp);
    NewJoin(role0, role1, role2, role3, t, kt, tf);
    WasFree(role0, role1, role2, tf, t, kt);
    LockstepEmpty(mem3, role3, t, kt);
    SharedKept(mem0, kp, mem3, role3, kt);
    InAll(role2, t);
    BareStays(mem2, mem3, role2, {}, VKVPN, t);
  }

  /** A page table just made can serve as the kernel's. */
  lemma TemplateFirst(role: Roles, role': Roles, kp: int)
    requires kp in role && (forall p :: p in role ==> role[p].Free?) && role' == role[kp := Root(2, AllEntries(), map[])]
    ensures Template(role', kp)
  {
    assert IsEntry(0) && IsEntry(1) && IsEntry(STACKINDEX);
  }

  /** allocproc on a machine where n pages are free once the kernel's table is made: with five,
      six or seven it panics. */
  method AllocWith(n: nat) returns (outcome: Outcome)
    requires n < STOPPAGE - FIRSTPAGE
    ensures outcome == if n <= 4 then NoMemory else if n <= 7 then Panic else Done
  {
    hide Trees, Frames, Pool, Sized, SameMaps, Pte, PX, Undisturbed, Template;
    var k := new Kernel(STOPPAGE - n - 1);
    ghost var role := k.role;
    var kp := UvmCreate(k);
    TemplateFirst(role, k.role, kp);
    var tf, t, kt;
    outcome, tf, t, kt := AllocProc(k, kp, 1);
  }

  lemma UndisturbedOpen(x: Bytes, y: Bytes, z: Bytes, role: Roles, q: int)
    requires Undisturbed(x, y, role) && Undisturbed(y, z, role[q := Other]) && q in role && role[q].Free?
    ensures Undisturbed(x, z, role)
  {
    forall p | p in role && !role[p].Free? && p in x ensures p in z && z[p] == x[p] {
      assert p in role[q := Other];
    }
  }

  lemma SameHeld(role: Roles, role': Roles, t: int, kt: int, held: set<int>, tf: int)
    requires NewTo(role, role', t, kt, held) && tf in role && !role[tf].Free?
    ensures tf in role' && role'[tf] == role[tf]
  {
    assert NewAt(role, role', t, kt, held, tf);
  }

  lemma TemplateAlloc(role: Roles, role': Roles, kp: int, q: int)
    requires Template(role, kp) && q in role && role[q].Free? && role' == role[q := Other]
    ensures Template(role', kp)
  {
  }

  lemma NotNew(role: Roles, kp: int, t: int)
    requires Template(role, kp) && t in role && role[t].Free?
    ensures t != kp
  {
  }

  lemma WasFree(role0: Roles, role1: Roles, role2: Roles, tf: int, t: int, kt: int)
    requires tf in role0 && role0[tf].Free? && role1 == role0[tf := Other] && NewTo(role1, role2, t, t, {}) && t in role1 && role1[t].Free?
    requires kt in role2 && role2[kt].Free? && UserTable(role2, t)
    ensures kt in role0 && role0[kt].Free? && t in role0 && role0[t].Free? && kt != t
  {
    assert NewAt(role1, role2, t, t, {}, kt);
  }

  /** After freeproc of a process that was never finished, nothing is left of it. */
  lemma Discard(mem0: Memory, mem: Memory, mem': Memory, data0: Bytes, data: Bytes, data': Bytes, role0: Roles, role: Roles, role': Roles, t: int, kt: int, tf: int)
    requires Trees(mem0, role0) && Frames(mem0, role0) && NewTo(role0, role, t, kt, {tf}) && Reclaimed(role, role', t, kt, {tf})
    requires t in role0 ==> role0[t].Free?
    requires kt in role0 ==> role0[kt].Free?
    requires tf in role0 && role0[tf].Free?
    requires SameMaps(mem0, mem, role0) && RestSame(mem, mem', role, t, kt) && Undisturbed(data0, data, role0) && Undisturbed(data, data', role')
    ensures role' == role0 && SameMaps(mem0, mem', role0) && Undisturbed(data0, data', role0)
  {
    Conserved(mem0, role0, role, role', t, kt, {tf});
    FreshRoots(role0, role, t, kt, {tf});
    hide Trees, Frames, Pte, PX;
    forall u, w | InTable(role0, u, w) ensures Pte(mem', u, w) == Pte(mem0, u, w) {
      assert InTable(role, u, w);
      assert Pte(mem, u, w) == Pte(mem0, u, w);
    }
  }

  // ---- fork ----

  lemma LockstepNew(mem: Memory, mem': Memory, role: Roles, role': Roles, t: int, kt: int, n: int, u: int, ku: int, held: set<int>)
    requires Lockstep(mem, role, t, kt, n) && SameMaps(mem, mem', role) && NewTo(role, role', u, ku, held)
    ensures Lockstep(mem', role', t, kt, n)
  {
    assert NewAt(role, role', u, ku, held, t) && NewAt(role, role', u, ku, held, kt);
    hide Pte, PX, Ppn, NoUser;
    forall v ensures PairAt(mem', role', t, kt, n, v) {
      assert PairAt(mem, role, t, kt, n, v);
      if 0 <= v < USERPAGES {
        InUser(role, t, v);
        InKernel(role, kt, v);
        InUser(role', t, v);
        assert Pte(mem', t, v) == Pte(mem, t, v) && Pte(mem', kt, v) == Pte(mem, kt, v);
        assert NewAt(role, role', u, ku, held, Ppn(Pte(mem, t, v)));
      }
    }
  }

  lemma StackHere(role: Roles, kt: int)
    requires KernelRoot(role, kt)
    ensures InTable(role, kt, VKVPN)
  {
    StackIndex();
  }

  /** A process keeps its upper half and its stack while its user memory grows. */
  lemma ProcGrew(mem: Memory, mem': Memory, role: Roles, role': Roles, t: int, kt: int, tf: int, tramp: int, n0: int, n: int, stack: bool)
    requires ProcMem(mem, role, t, kt, tf, tramp, n0, stack) && 0 <= n <= USERPAGES
    requires Extended(mem, mem', role, t, kt, n0, n) && Grew(role, role', t, n0, n) && Lockstep(mem', role', t, kt, n)
    ensures ProcMem(mem', role', t, kt, tf, tramp, n, stack)
  {
    assert GrewAt(role, role', t, n0, n, kt) && GrewAt(role, role', t, n0, n, tf) && GrewAt(role, role', t, n0, n, tramp);
    if stack {
      StackHere(role, kt);
      StackHere(role', kt);
    }
    StackIndex();
    hide Pte, PX, Ppn, Word, PairAt;
    if stack {
      assert Pte(mem', kt, VKVPN) == Pte(mem, kt, VKVPN);
      assert GrewAt(role, role', t, n0, n, Ppn(Pte(mem, kt, VKVPN)));
    }
    forall q | q in role' && role'[q].Frame? && role'[q].table == kt ensures stack && role'[q].v == VKVPN {
      assert GrewAt(role, role', t, n0, n, q);
    }
    forall v | USERPAGES <= v < ALLVPN ensures Pte(mem', t, v) == UpperEntry(tf, tramp, v) {
      InUser(role, t, v);
      assert Pte(mem', t, v) == Pte(mem, t, v);
    }
  }

  /** And while nothing but table pages is added. */
  lemma ProcKept(mem: Memory, mem': Memory, role: Roles, role': Roles, t: int, kt: int, tf: int, tramp: int, n: int, stack: bool)
    requires ProcMem(mem, role, t, kt, tf, tramp, n, stack) && Kept(role, role') && SameMaps(mem, mem', role)
    ensures ProcMem(mem', role', t, kt, tf, tramp, n, stack)
  {
    LockstepSame(mem, mem', role, role', t, kt, n);
    assert KeptAt(role, role', kt) && KeptAt(role, role', tf) && KeptAt(role, role', tramp);
    if stack {
      StackHere(role, kt);
      StackHere(role', kt);
    }
    hide Pte, PX, Ppn, Word, PairAt;
    if stack {
      assert Pte(mem', kt, VKVPN) == Pte(mem, kt, VKVPN);
      assert KeptAt(role, role', Ppn(Pte(mem, kt, VKVPN)));
    }
    forall q | q in role' && role'[q].Frame? && role'[q].table == kt ensures stack && role'[q].v == VKVPN {
      assert KeptAt(role, role', q);
    }
    forall v | USERPAGES <= v < ALLVPN ensures Pte(mem', t, v) == UpperEntry(tf, tramp, v) {
      InUser(role, t, v);
      assert Pte(mem', t, v) == Pte(mem, t, v);
    }
  }

  lemma ProcParts(mem: Memory, role: Roles, t: int, kt: int, tf: int, tramp: int, n: int, stack: bool)
    requires Trees(mem, role) && ProcMem(mem, role, t, kt, tf, tramp, n, stack)
    ensures UserFull(mem, role, t, tf, tramp, n) && t != kt && (stack ==> KernelFull(mem, role, kt))
    ensures kt in role && role[kt].Root? && role[kt].level == 2 && KernelFrames(role, kt, stack)
  {
    HeldBelow(mem, role, t, kt, n);
    assert PageAt(mem, role, tf);
    hide Pte, PX, Ppn, Word, Holds, Trees;
    forall v | n <= v < USERPAGES ensures Pte(mem, t, v) == 0 {
      assert PairAt(mem, role, t, kt, n, v);
    }
  }

  lemma OldExtended(a: Memory, b: Memory, c: Memory, role0: Roles, role: Roles, t: int, kt: int, n0: int, n: int)
    requires SameMaps(a, b, role0) && Extended(b, c, role, t, kt, n0, n) && RootsIn(role0, role)
    requires !(t in role0 && role0[t].Root?) && !(kt in role0 && role0[kt].Root?)
    ensures SameMaps(a, c, role0)
  {
    hide Pte, PX;
    forall u, w | InTable(role0, u, w) ensures Pte(c, u, w) == Pte(a, u, w) {
      assert InTable(role, u, w);
      assert Pte(b, u, w) == Pte(a, u, w);
    }
  }

  /** fork, as far as memory goes: a child with a copy of the parent's pages, or every physical
      page as it was and every table translating as it did, or (with five to seven free pages) a
      panic.  A copy of n pages takes eight pages for the process, n frames and twice the table
      pages that n pages need. */
  method Fork(k: Kernel, t: int, ghost kt: int, sz: int, kp: int, tramp: int) returns (outcome: Outcome, tf: int, u: int, ku: int)
    requires k.Valid() && Template(k.role, kp) && 0 < tramp && tramp !in k.role && 0 <= sz
    requires Lockstep(k.mem, k.role, t, kt, Pages(sz))
    modifies k
    ensures outcome == NoMemory ==> k.Valid() && k.role == old(k.role) && SameMaps(old(k.mem), k.mem, old(k.role)) && Undisturbed(old(k.data), k.data, old(k.role))
    ensures outcome == Panic <==> 5 <= |old(k.free)| <= 7
    ensures var n := Pages(sz);
      outcome == Done <==> 8 + n + 2 * (Groups(n, 0x200) + Groups(n, 0x4_0000)) <= |old(k.free)|
    ensures outcome == Done ==>
      && k.Valid() && ProcMem(k.mem, k.role, u, ku, tf, tramp, Pages(sz), true) && Copied(k.mem, k.data, t, u, Pages(sz))
      && Lockstep(k.mem, k.role, t, kt, Pages(sz)) && KernelSame(old(k.mem), kp, k.mem, ku)
      && SameMaps(old(k.mem), k.mem, old(k.role)) && Undisturbed(old(k.data), k.data, old(k.role))
  {
    hide Trees, Frames, Pool, Sized, SameMaps, Pte, PX, Undisturbed, NewTo, Word, KernelFrames, Holds, Upper, Template, Reclaimed, RestSame, Lockstep, Kept, Built, Grew, Extended, Copied, Bare, Cost, Groups;
    ghost var mem0, role0, data0 := k.mem, k.role, k.data;
    PagesOf(sz);
    Distinct'(mem0, role0, t, kt, Pages(sz));
    SomeGroups(Pages(sz));
    outcome, tf, u, ku := AllocProc(k, kp, tramp);
    if outcome != Done { return; }
    ghost var mem1, role1, data1 := k.mem, k.role, k.data;
    LockstepNew(mem0, mem1, role0, role1, t, kt, Pages(sz), u, ku, {tf});
    Apart(mem0, role0, t, kt, Pages(sz), u, ku);
    CostBare(mem1, u, ku, Pages(sz));
    var r := UvmCopy(k, t, kt, u, ku, sz);
    ghost var mem2, role2, data2 := k.mem, k.role, k.data;
    FreshRoots(role0, role1, u, ku, {tf});
    UndisturbedNew(data0, data1, data2, role0, role1, u, ku, {tf});
    if r < 0 {
      MapsTrans(mem0, mem1, mem2, role0, role0, role1);
      NewGrow(role0, role1, role2, u, ku, {tf});
      ProcKept(mem1, mem2, role1, role2, u, ku, tf, tramp, 0, true);
      ProcParts(mem2, role2, u, ku, tf, tramp, 0, true);
      FreeProc(k, u, ku, tf, tramp, 0);
      Discard(mem0, mem2, k.mem, data0, data2, k.data, role0, role2, k.role, u, ku, tf);
      return NoMemory, tf, u, ku;
    }
    PagesOf(sz);
    Distinct'(mem2, role2, t, kt, Pages(sz));
    ProcGrew(mem1, mem2, role1, role2, u, ku, tf, tramp, 0, Pages(sz), true);
    OldExtended(mem0, mem1, mem2, role0, role1, u, ku, 0, Pages(sz));
    GrewRoots(role1, role2, u, 0, Pages(sz));
    SharedKept(mem0, kp, mem2, role2, ku);
  }

  lemma SomeGroups(n: int)
    requires 0 <= n
    ensures 0 <= Groups(n, 0x200) && 0 <= Groups(n, 0x4_0000)
  {
  }

  lemma Apart(mem: Memory, role: Roles, t: int, kt: int, n: int, u: int, ku: int)
    requires Lockstep(mem, role, t, kt, n) && u in role && role[u].Free? && ku in role && role[ku].Free?
    ensures t != u && t != ku && kt != u && kt != ku
  {
  }
}
