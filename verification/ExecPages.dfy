/** Exchanging one program image for another: who owns the pages of the old and the new page
    tables on exec's commit path and on its bad path (kernel/exec.c 56-64, 79-115, 152-178). */
module ExecPages {
  import opened PageTables
  import opened VirtualMemory
  import opened AddressSpaces
  import opened PageOwnership
  import opened ProcessPages

  // ---- the new kernel table ----

  /** The new table still shares the stack's entry with the old one. */
  ghost predicate SharesStack(mem: Memory, role: Roles, kt: int, nk: int)
  {
    && nk in role && role[nk].Root? && role[nk].level == 2 && role[nk].own == {0, 1}
    && STACKINDEX in role[nk].shared && role[nk].shared[STACKINDEX] == Entry(mem, kt, STACKINDEX) && Entry(mem, kt, STACKINDEX) != 0
  }

  lemma StackWord(mem: Memory, role: Roles, kt: int)
    requires Trees(mem, role) && KernelFull(mem, role, kt)
    ensures kt in mem && |mem[kt]| == ENTRIES && Entry(mem, kt, STACKINDEX) != 0
    ensures var c := Next(mem, kt, STACKINDEX);
      c in role && role[c] == Sub(1, kt, STACKINDEX) && Entry(mem, kt, STACKINDEX) == Word(c, PTE_V)
  {
    StackIndex();
    StackHere(role, kt);
    assert PageAt(mem, role, kt) && SlotAt(mem, role, kt, STACKINDEX);
    PteFound(mem, kt, VKVPN);
    Down(mem, role, kt, STACKINDEX);
    assert PageAt(mem, role, Next(mem, kt, STACKINDEX));
    hide PX, Word, Ppn, IsValid, Trees;
  }

  /** All entries of the page at kt but those of user memory. */
  ghost function AllButUser(mem: Memory, kt: int): map<int, int>
  {
    map i | 0 <= i < ENTRIES && i !in {0, 1} :: Entry(mem, kt, i)
  }

  /** The table at nk has the same entries outside user memory as kt had. */
  ghost predicate SameButUser(mem: Memory, kt: int, mem': Memory, nk: int)
  {
    forall i :: 2 <= i < ENTRIES ==> Entry(mem', nk, i) == Entry(mem, kt, i)
  }

  lemma CopiedEmpty(mem: Memory, role: Roles, nk: int, v: int)
    requires nk in role && role[nk].Root? && role[nk].level == 2 && role[nk].own == {0, 1} && 0 <= v < USERPAGES
    requires Entry(mem, nk, 0) == 0 && Entry(mem, nk, 1) == 0
    ensures Vacant(mem, role, nk, v)
  {
    LowIndex(v);
    NewMap(mem, nk, {0, 1}, v);
    hide PX, Pte;
  }

  /** The first lines of exec: a copy of the kernel table without its user part. */
  method CopyKernelTable(k: Kernel, kt: int) returns (nk: int)
    requires k.Valid() && KernelFull(k.mem, k.role, kt)
    modifies k
    ensures k.Valid()
    ensures nk == 0 ==> k.role == old(k.role) && SameMaps(old(k.mem), k.mem, old(k.role)) && Undisturbed(old(k.data), k.data, old(k.role))
    ensures nk == 0 <==> |old(k.free)| == 0
    ensures nk != 0 ==>
      && |k.free| == |old(k.free)| - 1 && Bare(k.mem, nk) && SameButUser(old(k.mem), kt, k.mem, nk)
      && nk > 0 && nk in old(k.role) && old(k.role)[nk].Free?
      && k.role == old(k.role)[nk := Root(2, {0, 1}, AllButUser(old(k.mem), kt))] && Entry(old(k.mem), kt, STACKINDEX) != 0
      && Since0(old(k.mem), old(k.role), old(k.data), k.mem, k.role, k.data, nk, nk, {})
      && forall v :: 0 <= v < USERPAGES ==> Vacant(k.mem, k.role, nk, v)
  {
    hide Trees, Frames, Pool, Sized, SameMaps, Pte, PX, Undisturbed, NewTo, Vacant, Word, Bare;
    ghost var mem0, role0, data0 := k.mem, k.role, k.data;
    Still(mem0, data0, role0, 0, 0, 0, 0);
    StackWord(mem0, role0, kt);
    ghost var shared := AllButUser(mem0, kt);
    nk := k.KAlloc();
    if nk == 0 { return; }
    NewIsPage(k.mem, k.role, nk);
    ghost var mem1, role1, data1 := k.mem, k.role, k.data;
    OnlyPage(data0, data1, role0, nk);
    var words := k.mem[kt][0 := 0][1 := 0];
    Copying(k.mem, k.role, nk, words);
    k.mem := k.mem[nk := words];
    MapsTrans(mem0, mem1, k.mem, role0, role1, role1);
    assert IsEntry(0) && IsEntry(1);
    NewTable(k.mem, k.data, k.next, k.head, k.npage, k.free, k.role, nk, {0, 1}, shared);
    BareZeros(k.mem, nk);
    NewNone(role0, nk, nk);
    NewTaken(role0, role0, nk, nk, {}, nk);
    NewUse(role0, role1, nk, nk, {} + {nk}, nk, Root(2, {0, 1}, shared));
    assert {} + {nk} - {nk} == {};
    k.role := k.role[nk := Root(2, {0, 1}, shared)];
    forall v | 0 <= v < USERPAGES ensures Vacant(k.mem, k.role, nk, v) {
      CopiedEmpty(k.mem, k.role, nk, v);
    }
  }

  // ---- growing the new image ----

  lemma NewGrew(role0: Roles, role: Roles, role': Roles, t: int, kt: int, n0: int, n: int)
    requires NewTo(role0, role, t, kt, {}) && Grew(role, role', t, n0, n) && Built(t, kt, role, role')
    ensures NewTo(role0, role', t, kt, {})
  {
    forall p ensures NewAt(role0, role', t, kt, {}, p) {
      assert NewAt(role0, role, t, kt, {}, p) && GrewAt(role, role', t, n0, n, p) && BuiltAt(t, kt, role, role', p);
      if p in role && role[p].Sub? { assert GrewAt(role, role', t, n0, n, role[p].parent) && BuiltAt(t, kt, role, role', role[p].parent); }
    }
  }

  /** One uvmalloc for the new image, seen from the state before exec. */
  method GrowImage(k: Kernel, nt: int, nk: int, ghost tf: int, ghost tramp: int, sz: int, newsz: int,
                   ghost mem0: Memory, ghost role0: Roles, ghost data0: Bytes, ghost memE: Memory, ghost freeE: int) returns (sz1: int)
    requires k.Valid() && 0 <= sz && 0 <= newsz && ProcMem(k.mem, k.role, nt, nk, tf, tramp, Pages(sz), false)
    requires Since0(mem0, role0, data0, k.mem, k.role, k.data, nt, nk, {}) && nt in role0 && role0[nt].Free? && nk in role0 && role0[nk].Free?
    requires Grown(memE, freeE, k.mem, |k.free|, nt, nk, Pages(sz)) && freeE <= STOPPAGE - FIRSTPAGE
    modifies k
    ensures newsz >= sz ==> (sz1 == newsz <==> Cost(memE, nt, nk, 0, Pages(newsz)) <= freeE)
    ensures sz1 == (if newsz < sz then sz else newsz) ==> Grown(memE, freeE, k.mem, |k.free|, nt, nk, Pages(sz1)) && Pages(sz1) <= USERPAGES
    ensures k.Valid() && Since0(mem0, role0, data0, k.mem, k.role, k.data, nt, nk, {}) && 0 <= sz1
    ensures newsz < sz ==> sz1 == sz
    ensures newsz >= sz ==> sz1 == newsz || sz1 == 0
    ensures ProcMem(k.mem, k.role, nt, nk, tf, tramp, Pages(if sz1 == 0 then sz else sz1), false)
    ensures nk in old(k.role) && nk in k.role && k.role[nk] == old(k.role)[nk]
  {
    hide Trees, Frames, Pool, Sized, SameMaps, Pte, PX, Undisturbed, NewTo, Kept, Built, Grew, Extended, Lockstep, Zeroed, Upper, KernelFrames, Cost, Ways, Grown;
    ghost var mem1, role1, data1, free1 := k.mem, k.role, k.data, |k.free|;
    PagesOf(sz);
    PagesOf(newsz);
    InUserHalf(mem1, role1, nt, nk, tf, tramp, Pages(sz));
    if newsz >= sz { GrowsOn(memE, freeE, mem1, free1, nt, nk, Pages(sz), Pages(newsz)); }
    FreshRoots(role0, role1, nt, nk, {});
    Distinct'(mem1, role1, nt, nk, Pages(sz));
    IsTable(mem1, role1, nt, nk, Pages(sz));
    sz1 := UvmAlloc(k, nt, nk, sz, newsz);
    ghost var mem2, role2, data2 := k.mem, k.role, k.data;
    UndisturbedNew(data0, data1, data2, role0, role1, nt, nk, {});
    if newsz < sz {
    } else if sz1 == newsz {
      GrownOn(memE, freeE, mem1, free1, k.mem, nt, nk, Pages(sz), Pages(newsz));
      Distinct'(mem2, role2, nt, nk, Pages(newsz));
      ProcGrew(mem1, mem2, role1, role2, nt, nk, tf, tramp, Pages(sz), Pages(newsz), false);
      NewGrew(role0, role1, role2, nt, nk, Pages(sz), Pages(newsz));
      OldExtended(mem0, mem1, mem2, role0, role1, nt, nk, Pages(sz), Pages(newsz));
      GrewRoots(role1, role2, nt, Pages(sz), Pages(newsz));
      if newsz == 0 { assert Pages(newsz) == Pages(sz) == 0; }
    } else {
      ProcKept(mem1, mem2, role1, role2, nt, nk, tf, tramp, Pages(sz), false);
      NewGrow(role0, role1, role2, nt, nk, {});
      MapsTrans(mem0, mem1, mem2, role0, role0, role1);
      KeptRoots(role1, role2);
    }
  }

  lemma IsTable(mem: Memory, role: Roles, t: int, kt: int, n: int)
    requires Lockstep(mem, role, t, kt, n)
    ensures kt in role && role[kt].Root? && t in role && role[t].Root?
  {
  }

  // ---- the bad path ----

  lemma ReclaimTwo(role: Roles, role1: Roles, role2: Roles, t: int, kt: int)
    requires Surrendered(role, role1, t) && Surrendered(role1, role2, kt) && t != kt
    requires t in role && role[t].Root? && kt in role && role[kt].Root?
    ensures Reclaimed(role, role2, t, kt, {})
  {
    forall p ensures ReclaimedAt(role, role2, t, kt, {}, p) {
      assert SurrenderedAt(role, role1, t, p) && SurrenderedAt(role1, role2, kt, p);
      if p in role && role[p].Sub? {
        assert SurrenderedAt(role, role1, t, role[p].parent);
      }
    }
  }

  lemma FramesLeft(role: Roles, role1: Roles, t: int, kt: int, stack: bool)
    requires KernelFrames(role, kt, stack) && Surrendered(role, role1, t) && kt != t && kt in role && role[kt].Root?
    ensures KernelFrames(role1, kt, stack) && kt in role1 && role1[kt] == role[kt]
  {
    assert SurrenderedAt(role, role1, t, kt);
    forall q | q in role1 && role1[q].Frame? && role1[q].table == kt ensures stack && role1[q].v == VKVPN {
      assert SurrenderedAt(role, role1, t, q);
    }
  }

  lemma RestTwo(a: Memory, b: Memory, c: Memory, role: Roles, role1: Roles, t: int, kt: int)
    requires OtherMaps(a, b, role, t) && OtherMaps(b, c, role1, kt)
    requires forall r :: r in role && role[r].Root? && r != t ==> r in role1 && role1[r] == role[r]
    ensures RestSame(a, c, role, t, kt)
  {
    hide Pte, PX;
    forall r, w | InTable(role, r, w) && r != t && r != kt ensures Pte(c, r, w) == Pte(a, r, w) {
      assert InTable(role1, r, w);
      assert Pte(b, r, w) == Pte(a, r, w);
    }
  }

  lemma RestHere(mem: Memory, mem': Memory, role: Roles, t: int, kt: int, u: int, v: int)
    requires RestSame(mem, mem', role, t, kt) && InTable(role, u, v) && u != t && u != kt
    ensures Pte(mem', u, v) == Pte(mem, u, v)
  {
  }

  /** proc_freepagetable and then kvmfree without the stack, as both ends of exec call them. */
  method FreeTables(k: Kernel, t: int, kt: int, ghost tf: int, ghost tramp: int, sz: int)
    requires k.Valid() && 0 <= sz && UserFull(k.mem, k.role, t, tf, tramp, Pages(sz)) && t != kt
    requires kt in k.role && k.role[kt].Root? && k.role[kt].level == 2 && k.role[kt].own == {0, 1} && KernelFrames(k.role, kt, false)
    modifies k
    ensures k.Valid() && Reclaimed(old(k.role), k.role, t, kt, {}) && RestSame(old(k.mem), k.mem, old(k.role), t, kt)
    ensures Undisturbed(old(k.data), k.data, k.role)
  {
    hide Trees, Frames, Pool, Sized, Pte, PX, Undisturbed, OtherMaps, Surrendered, Holds, Upper, KernelFrames, RestSame, Reclaimed;
    ghost var mem0, role0, data0 := k.mem, k.role, k.data;
    ProcFreePagetable(k, t, tf, tramp, sz);
    ghost var mem1, role1, data1 := k.mem, k.role, k.data;
    FramesLeft(role0, role1, t, kt, false);
    KvmFree(k, kt, false);
    ReclaimTwo(role0, role1, k.role, t, kt);
    SurrenderedRoots(role0, role1, t);
    RestTwo(mem0, mem1, k.mem, role0, role1, t, kt);
    SurrenderedFree(role1, k.role, kt);
    UndisturbedOn(data0, data1, k.data, role1, k.role);
  }

  /** After the tables of an image that was never finished are gone, nothing is left of it. */
  lemma Dropped(mem0: Memory, mem: Memory, mem': Memory, data0: Bytes, data: Bytes, data': Bytes, role0: Roles, role: Roles, role': Roles, t: int, kt: int)
    requires Trees(mem0, role0) && Frames(mem0, role0) && Reclaimed(role, role', t, kt, {})
    requires Since0(mem0, role0, data0, mem, role, data, t, kt, {})
    requires t in role0 ==> role0[t].Free?
    requires kt in role0 ==> role0[kt].Free?
    requires RestSame(mem, mem', role, t, kt) && Undisturbed(data, data', role')
    ensures role' == role0 && SameMaps(mem0, mem', role0) && Undisturbed(data0, data', role0)
  {
    Conserved(mem0, role0, role, role', t, kt, {});
    FreshRoots(role0, role, t, kt, {});
    hide Trees, Frames, Pte, PX;
    forall u, w | InTable(role0, u, w) ensures Pte(mem', u, w) == Pte(mem0, u, w) {
      assert InTable(role, u, w);
      assert Pte(mem, u, w) == Pte(mem0, u, w);
    }
  }

  // ---- the commit path ----

  /** The stack's tables and frame now belong to the new kernel table. */
  ghost function Moved(mem: Memory, role: Roles, kt: int, nk: int): Roles
    requires kt in role && role[kt].Root? && nk in role && role[nk].Root?
  {
    Inherited(role, kt, nk, STACKINDEX, Next(mem, kt, STACKINDEX))[Ppn(Pte(mem, kt, VKVPN)) := Frame(nk, VKVPN)]
  }

  /** Both tables lead to the same stack. */
  lemma SameStack(mem: Memory, role: Roles, kt: int, nk: int)
    requires Trees(mem, role) && SharesStack(mem, role, kt, nk)
    ensures Entry(mem, nk, STACKINDEX) == Entry(mem, kt, STACKINDEX) && Pte(mem, nk, VKVPN) == Pte(mem, kt, VKVPN)
  {
    StackIndex();
    assert SlotAt(mem, role, nk, STACKINDEX);
    hide PX, Trees;
  }

  lemma MovedTrees(mem: Memory, role: Roles, kt: int, nk: int)
    requires Trees(mem, role) && KernelFull(mem, role, kt) && SharesStack(mem, role, kt, nk) && kt != nk
    ensures Trees(mem, Moved(mem, role, kt, nk))
  {
    StackWord(mem, role, kt);
    SameStack(mem, role, kt, nk);
    Inherit(mem, role, kt, nk, STACKINDEX);
    hide Trees, Pte, Ppn, Next;
    Recast(mem, Inherited(role, kt, nk, STACKINDEX, Next(mem, kt, STACKINDEX)), Ppn(Pte(mem, kt, VKVPN)), Frame(nk, VKVPN));
  }

  lemma MovedFrames(mem: Memory, role: Roles, kt: int, nk: int)
    requires Trees(mem, role) && Frames(mem, role) && KernelFull(mem, role, kt) && SharesStack(mem, role, kt, nk) && kt != nk && KernelFrames(role, nk, false)
    ensures Frames(mem, Moved(mem, role, kt, nk)) && KernelFrames(Moved(mem, role, kt, nk), kt, false) && KernelFrames(Moved(mem, role, kt, nk), nk, true)
    ensures nk in Moved(mem, role, kt, nk) && kt in Moved(mem, role, kt, nk)
    ensures KernelRoot(Moved(mem, role, kt, nk), nk) && Moved(mem, role, kt, nk)[nk].shared == role[nk].shared - {STACKINDEX}
    ensures Moved(mem, role, kt, nk)[kt].own == {0, 1}
    ensures Moved(mem, role, kt, nk)[kt].Root? && Moved(mem, role, kt, nk)[kt].level == 2
  {
    StackWord(mem, role, kt);
    SameStack(mem, role, kt, nk);
    StackIndex();
    var role', ps := Moved(mem, role, kt, nk), Ppn(Pte(mem, kt, VKVPN));
    OneFrame(mem, role, kt, VKVPN, ps);
    assert {0, 1} + {STACKINDEX} == {0, 1, STACKINDEX};
    assert {0, 1, STACKINDEX} - {STACKINDEX} == {0, 1};
    hide Trees, Pte, Ppn, Next, PX;
    forall q ensures FrameAt(mem, role', q) {
      assert FrameAt(mem, role, q);
    }
  }

  lemma MovedPool(mem: Memory, data: Bytes, next: map<int, int>, head: int, npage: int, free: seq<int>, role: Roles, kt: int, nk: int)
    requires Trees(mem, role) && Pool(next, head, npage, free, role) && Sized(data, role) && KernelFull(mem, role, kt) && nk in role && role[nk].Root?
    ensures Pool(next, head, npage, free, Moved(mem, role, kt, nk)) && Sized(data, Moved(mem, role, kt, nk))
  {
    StackWord(mem, role, kt);
    hide Trees, Pte, Ppn, Next, PX;
    var role' := Moved(mem, role, kt, nk);
    forall q ensures FreeAt(free, role', q) {
      assert FreeAt(free, role, q);
    }
  }

  /** The new process, now with the stack. */
  lemma MovedProc(mem: Memory, role: Roles, kt: int, nt: int, nk: int, tf: int, tramp: int, n: int)
    requires Trees(mem, role) && Frames(mem, role) && KernelFull(mem, role, kt) && SharesStack(mem, role, kt, nk)
    requires ProcMem(mem, role, nt, nk, tf, tramp, n, false) && kt != nk && kt != nt
    ensures ProcMem(mem, Moved(mem, role, kt, nk), nt, nk, tf, tramp, n, true)
  {
    StackWord(mem, role, kt);
    SameStack(mem, role, kt, nk);
    MovedFrames(mem, role, kt, nk);
    var role' := Moved(mem, role, kt, nk);
    StackHere(role', nk);
    hide Trees, Pte, Ppn, Next, PX, Word, NoUser;
    forall v ensures PairAt(mem, role', nt, nk, n, v) {
      assert PairAt(mem, role, nt, nk, n, v);
    }
  }

  lemma MovedUser(mem: Memory, role: Roles, t: int, kt: int, nk: int, tf: int, tramp: int, n: int)
    requires Trees(mem, role) && KernelFull(mem, role, kt) && UserFull(mem, role, t, tf, tramp, n) && nk in role && role[nk].Root? && t != kt && t != nk && role[tf].Other?
    ensures UserFull(mem, Moved(mem, role, kt, nk), t, tf, tramp, n)
  {
    StackWord(mem, role, kt);
    hide Trees, Pte, Ppn, Next, PX, Word;
    var role' := Moved(mem, role, kt, nk);
    forall v | 0 <= v < n ensures Holds(mem, role', t, v) {
      assert Holds(mem, role, t, v);
    }
  }

  /** The old process is as it was while the new image was built. */
  lemma ProcNew(mem: Memory, mem': Memory, role: Roles, role': Roles, t: int, kt: int, tf: int, tramp: int, n: int, u: int, ku: int)
    requires ProcMem(mem, role, t, kt, tf, tramp, n, true) && NewTo(role, role', u, ku, {}) && SameMaps(mem, mem', role)
    requires u in role && role[u].Free? && ku in role && role[ku].Free? && Trees(mem', role') && Frames(mem', role') && Frames(mem, role)
    requires u in role' && role'[u].Root? && ku in role' && role'[ku].Root?
    ensures ProcMem(mem', role', t, kt, tf, tramp, n, true)
  {
    LockstepNew(mem, mem', role, role', t, kt, n, u, ku, {});
    assert NewAt(role, role', u, ku, {}, kt) && NewAt(role, role', u, ku, {}, tf) && NewAt(role, role', u, ku, {}, tramp);
    StackHere(role, kt);
    StackHere(role', kt);
    hide Trees, Pte, PX, Ppn, Word, PairAt;
    assert NewAt(role, role', u, ku, {}, Ppn(Pte(mem, kt, VKVPN)));
    forall q | q in role' && role'[q].Frame? && role'[q].table == kt ensures role'[q].v == VKVPN {
      assert NewAt(role, role', u, ku, {}, q);
    }
    forall v | USERPAGES <= v < ALLVPN ensures Pte(mem', t, v) == UpperEntry(tf, tramp, v) {
      InUser(role, t, v);
      assert Pte(mem', t, v) == Pte(mem, t, v);
    }
  }

  /** A process does not notice another's tables going. */
  lemma ProcOther(mem: Memory, mem': Memory, role: Roles, role': Roles, nt: int, nk: int, tf: int, tramp: int, n: int, t: int, kt: int)
    requires ProcMem(mem, role, nt, nk, tf, tramp, n, true) && Reclaimed(role, role', t, kt, {}) && RestSame(mem, mem', role, t, kt)
    requires t in role && role[t].Root? && kt in role && role[kt].Root? && nt != t && nt != kt && nk != t && nk != kt
    ensures ProcMem(mem', role', nt, nk, tf, tramp, n, true)
  {
    assert ReclaimedAt(role, role', t, kt, {}, nt) && ReclaimedAt(role, role', t, kt, {}, nk) && ReclaimedAt(role, role', t, kt, {}, tf) && ReclaimedAt(role, role', t, kt, {}, tramp);
    StackHere(role, nk);
    StackHere(role', nk);
    hide Pte, PX, Ppn, Word, NoUser;
    assert Pte(mem', nk, VKVPN) == Pte(mem, nk, VKVPN);
    assert ReclaimedAt(role, role', t, kt, {}, Ppn(Pte(mem, nk, VKVPN)));
    forall q | q in role' && role'[q].Frame? && role'[q].table == nk ensures role'[q].v == VKVPN {
      assert ReclaimedAt(role, role', t, kt, {}, q);
    }
    forall v | 0 <= v < ALLVPN ensures Pte(mem', nt, v) == Pte(mem, nt, v) {
      InUser(role, nt, v);
    }
    forall v ensures PairAt(mem', role', nt, nk, n, v) {
      assert PairAt(mem, role, nt, nk, n, v);
      if 0 <= v < USERPAGES {
        InKernel(role, nk, v);
        InUser(role', nt, v);
        assert Pte(mem', nk, v) == Pte(mem, nk, v);
        assert ReclaimedAt(role, role', t, kt, {}, Ppn(Pte(mem, nt, v)));
      }
    }
  }

  /** Once the stack has changed hands too, the new table has every entry of the old one outside
      user memory. */
  lemma AllShared(mem0: Memory, role0: Roles, mem1: Memory, role1: Roles, mem: Memory, role: Roles, t: int, kt: int, nk: int)
    requires Trees(mem0, role0) && KernelFull(mem0, role0, kt) && Trees(mem1, role1) && SharesStack(mem1, role1, kt, nk) && kt != nk
    requires KernelFull(mem1, role1, kt) && Entry(mem1, kt, STACKINDEX) == Entry(mem0, kt, STACKINDEX)
    requires role1[nk].shared == AllButUser(mem0, kt) && t in role1 && role1[t].Root? && t != nk
    requires Trees(mem, role) && Reclaimed(Moved(mem1, role1, kt, nk), role, t, kt, {})
    ensures SameButUser(mem0, kt, mem, nk)
  {
    StackWord(mem0, role0, kt);
    StackWord(mem1, role1, kt);
    var c, role2 := Next(mem1, kt, STACKINDEX), Moved(mem1, role1, kt, nk);
    hide Trees, Pte, PX, Ppn, Word;
    StackMoved(mem1, role1, kt, nk);
    assert ReclaimedAt(role2, role, t, kt, {}, nk) && ReclaimedAt(role2, role, t, kt, {}, c);
    forall i | 2 <= i < ENTRIES ensures Entry(mem, nk, i) == Entry(mem0, kt, i) {
      if i == STACKINDEX { PageKept(mem, role, c); } else { EntryKept(mem, role, nk, i); }
      hide Entry;
    }
  }

  lemma StackMoved(mem: Memory, role: Roles, kt: int, nk: int)
    requires Trees(mem, role) && KernelFull(mem, role, kt) && SharesStack(mem, role, kt, nk) && kt != nk
    ensures var c, role2 := Next(mem, kt, STACKINDEX), Moved(mem, role, kt, nk);
      && c in role2 && role2[c] == Sub(1, nk, STACKINDEX) && nk in role2 && role2[nk].Root?
      && role2[nk].shared == role[nk].shared - {STACKINDEX} && Entry(mem, kt, STACKINDEX) == Word(c, PTE_V)
  {
    StackWord(mem, role, kt);
    hide Trees, Pte, PX, Ppn, Word;
  }

  lemma EntryKept(mem: Memory, role: Roles, p: int, i: int)
    requires Trees(mem, role) && p in role && role[p].Root? && i in role[p].shared
    ensures Entry(mem, p, i) == role[p].shared[i]
  {
    assert SlotAt(mem, role, p, i);
  }

  lemma PageKept(mem: Memory, role: Roles, c: int)
    requires Trees(mem, role) && c in role && role[c].Sub?
    ensures Entry(mem, role[c].parent, role[c].idx) == Word(c, PTE_V)
  {
    assert PageAt(mem, role, c);
  }

  /** A page of the kernel stack: its frame, or one of the table pages that lead to it alone. */
  ghost predicate StackPart(role: Roles, p: int, kt: int)
  {
    p in role && ((p != kt && Under(role, p, kt) && Via(role, p, kt) == STACKINDEX) || role[p] == Frame(kt, VKVPN))
  }

  ghost predicate ExchangedAt(role: Roles, role': Roles, t: int, kt: int, nt: int, nk: int, p: int)
  {
    (p in role <==> p in role') &&
    (p in role ==>
      if StackPart(role, p, kt) then Belongs(role', p, nk)
      else if Belongs(role, p, t) || Belongs(role, p, kt) then role'[p].Free?
      else role'[p] == role[p] || (role[p].Free? && (Belongs(role', p, nt) || Belongs(role', p, nk))))
  }

  /** The old image is gone but for the stack, which has passed to the new one; the new image
      took only pages that were free. */
  ghost predicate Exchanged(role: Roles, role': Roles, t: int, kt: int, nt: int, nk: int)
  {
    forall p {:trigger ExchangedAt(role, role', t, kt, nt, nk, p)} :: ExchangedAt(role, role', t, kt, nt, nk, p)
  }

  /** c is the one page below the stack's entry. */
  lemma StackTop(mem: Memory, role: Roles, kt: int, q: int)
    requires Trees(mem, role) && KernelFull(mem, role, kt) && q in role && role[q] == Sub(1, kt, STACKINDEX)
    ensures q == Next(mem, kt, STACKINDEX)
  {
    ViaEntry(mem, role, kt, STACKINDEX, q);
  }

  lemma ExchangedOld(mem0: Memory, role0: Roles, mem1: Memory, role1: Roles, role3: Roles, t: int, kt: int, nt: int, nk: int, p: int)
    requires Trees(mem0, role0) && NewTo(role0, role1, nt, nk, {}) && Trees(mem1, role1) && Frames(mem1, role1) && KernelFull(mem1, role1, kt)
    requires t in role0 && role0[t].Root? && kt in role0 && role0[kt].Root? && nt in role0 && role0[nt].Free? && nk in role0 && role0[nk].Free? && t != kt
    requires nt in role1 && role1[nt].Root? && nk in role1 && role1[nk].Root?
    requires Reclaimed(Moved(mem1, role1, kt, nk), role3, t, kt, {})
    requires p in role0 && !role0[p].Free?
    ensures ExchangedAt(role0, role3, t, kt, nt, nk, p)
  {
    var role2, c, ps := Moved(mem1, role1, kt, nk), Next(mem1, kt, STACKINDEX), Ppn(Pte(mem1, kt, VKVPN));
    StackWord(mem1, role1, kt);
    OneFrame(mem1, role1, kt, VKVPN, ps);
    assert PageAt(mem0, role0, p) && PageAt(mem1, role1, c);
    if role0[p].Sub? {
      assert PageAt(mem0, role0, role0[p].parent);
      if role0[p] == Sub(1, kt, STACKINDEX) { StackTop(mem1, role1, kt, p) by { assert NewAt(role0, role1, nt, nk, {}, p); } }
    }
    hide Trees, Pte, Ppn, Next, PX;
    assert NewAt(role0, role1, nt, nk, {}, p) && ReclaimedAt(role2, role3, t, kt, {}, p);
    assert NewAt(role0, role1, nt, nk, {}, t) && NewAt(role0, role1, nt, nk, {}, kt);
    assert ReclaimedAt(role2, role3, t, kt, {}, c);
    if role0[p].Sub? {
      var m := role0[p].parent;
      assert NewAt(role0, role1, nt, nk, {}, m) && ReclaimedAt(role2, role3, t, kt, {}, m);
      if m in role0 && role0[m] == Sub(1, kt, STACKINDEX) { StackTop(mem1, role1, kt, m); }
    }
  }

  lemma ExchangedNew(mem1: Memory, role0: Roles, role1: Roles, role3: Roles, t: int, kt: int, nt: int, nk: int, p: int)
    requires NewTo(role0, role1, nt, nk, {}) && Trees(mem1, role1) && Frames(mem1, role1) && KernelFull(mem1, role1, kt)
    requires t in role0 && role0[t].Root? && kt in role0 && role0[kt].Root? && nt in role0 && role0[nt].Free? && nk in role0 && role0[nk].Free? && t != kt
    requires nt in role1 && role1[nt].Root? && nk in role1 && role1[nk].Root?
    requires Reclaimed(Moved(mem1, role1, kt, nk), role3, t, kt, {})
    requires p in role0 && role0[p].Free?
    ensures ExchangedAt(role0, role3, t, kt, nt, nk, p)
  {
    var role2, c, ps := Moved(mem1, role1, kt, nk), Next(mem1, kt, STACKINDEX), Ppn(Pte(mem1, kt, VKVPN));
    StackWord(mem1, role1, kt);
    assert PageAt(mem1, role1, p);
    assert NewAt(role0, role1, nt, nk, {}, p);
    if role1[p].Sub? { assert PageAt(mem1, role1, role1[p].parent); }
    hide Trees, Pte, Ppn, Next, PX;
    assert NewAt(role0, role1, nt, nk, {}, p) && ReclaimedAt(role2, role3, t, kt, {}, p);
    assert NewAt(role0, role1, nt, nk, {}, t) && NewAt(role0, role1, nt, nk, {}, kt);
    if role1[p].Sub? {
      var m := role1[p].parent;
      assert NewAt(role0, role1, nt, nk, {}, m) && ReclaimedAt(role2, role3, t, kt, {}, m);
    }
  }

  /** The whole exchange. */
  lemma Exchanging(mem0: Memory, role0: Roles, mem1: Memory, role1: Roles, role3: Roles, t: int, kt: int, nt: int, nk: int)
    requires Trees(mem0, role0) && NewTo(role0, role1, nt, nk, {}) && Trees(mem1, role1) && Frames(mem1, role1) && KernelFull(mem1, role1, kt)
    requires t in role0 && role0[t].Root? && kt in role0 && role0[kt].Root? && nt in role0 && role0[nt].Free? && nk in role0 && role0[nk].Free? && t != kt
    requires nt in role1 && role1[nt].Root? && nk in role1 && role1[nk].Root?
    requires Reclaimed(Moved(mem1, role1, kt, nk), role3, t, kt, {})
    ensures Exchanged(role0, role3, t, kt, nt, nk)
  {
    forall p ensures ExchangedAt(role0, role3, t, kt, nt, nk, p) {
      if p in role0 {
        if role0[p].Free? { ExchangedNew(mem1, role0, role1, role3, t, kt, nt, nk, p); }
        else { ExchangedOld(mem0, role0, mem1, role1, role3, t, kt, nt, nk, p); }
      } else {
        StackWord(mem1, role1, kt);
        hide Trees, Pte, Ppn, Next, PX;
        assert NewAt(role0, role1, nt, nk, {}, p) && ReclaimedAt(Moved(mem1, role1, kt, nk), role3, t, kt, {}, p);
      }
    }
  }

  // ---- exec ----

  /** Where exec stands while it builds the new image. */
  ghost predicate Building(mem0: Memory, role0: Roles, data0: Bytes, mem: Memory, role: Roles, data: Bytes, kt: int, nt: int, nk: int, tf: int, tramp: int, n: int)
  {
    && Since0(mem0, role0, data0, mem, role, data, nt, nk, {}) && ProcMem(mem, role, nt, nk, tf, tramp, n, false)
    && nt in role0 && role0[nt].Free? && nk in role0 && role0[nk].Free?
    && nk in role && role[nk] == Root(2, {0, 1}, AllButUser(mem0, kt)) && Entry(mem0, kt, STACKINDEX) != 0
  }

  /** The bad label once both new tables exist. */
  method Bad(k: Kernel, ghost kt: int, nt: int, nk: int, ghost tf: int, ghost tramp: int, sz: int, ghost mem0: Memory, ghost role0: Roles, ghost data0: Bytes)
    requires k.Valid() && 0 <= sz && Trees(mem0, role0) && Frames(mem0, role0)
    requires Building(mem0, role0, data0, k.mem, k.role, k.data, kt, nt, nk, tf, tramp, Pages(sz))
    modifies k
    ensures k.Valid() && k.role == role0 && SameMaps(mem0, k.mem, role0) && Undisturbed(data0, k.data, role0)
  {
    hide Trees, Frames, Pool, Sized, SameMaps, Pte, PX, Undisturbed, NewTo, Lockstep, Upper, KernelFrames, Reclaimed, RestSame, Holds;
    ghost var mem1, role1, data1 := k.mem, k.role, k.data;
    ProcParts(mem1, role1, nt, nk, tf, tramp, Pages(sz), false);
    FreeTables(k, nt, nk, tf, tramp, sz);
    Dropped(mem0, mem1, k.mem, data0, data1, k.data, role0, role1, k.role, nt, nk);
  }

  /** The lines after "Commit to the user image". */
  method Commit(k: Kernel, t: int, kt: int, nt: int, nk: int, ghost tf: int, ghost tramp: int, oldsz: int, ghost sz: int, ghost mem0: Memory, ghost role0: Roles, ghost data0: Bytes)
    requires k.Valid() && 0 <= sz && 0 <= oldsz && Trees(mem0, role0) && Frames(mem0, role0)
    requires ProcMem(mem0, role0, t, kt, tf, tramp, Pages(oldsz), true)
    requires Building(mem0, role0, data0, k.mem, k.role, k.data, kt, nt, nk, tf, tramp, Pages(sz))
    modifies k
    ensures k.Valid() && ProcMem(k.mem, k.role, nt, nk, tf, tramp, Pages(sz), true) && Exchanged(role0, k.role, t, kt, nt, nk)
    ensures Ppn(Pte(k.mem, nk, VKVPN)) == Ppn(Pte(mem0, kt, VKVPN)) && SameButUser(mem0, kt, k.mem, nk)
    ensures forall v :: 0 <= v < USERPAGES ==> Pte(k.mem, nt, v) == Pte(old(k.mem), nt, v)
  {
    hide Trees, Frames, Pool, Sized, SameMaps, Pte, PX, Undisturbed, NewTo, Lockstep, Upper, KernelFrames, Reclaimed, RestSame, Holds, Ppn, Exchanged, Moved;
    ghost var mem1, role1 := k.mem, k.role;
    IsTable(mem0, role0, t, kt, Pages(oldsz));
    IsTable(mem1, role1, nt, nk, Pages(sz));
    ProcNew(mem0, mem1, role0, role1, t, kt, tf, tramp, Pages(oldsz), nt, nk);
    ProcParts(mem1, role1, t, kt, tf, tramp, Pages(oldsz), true);
    StackWord(mem0, role0, kt) by { ProcParts(mem0, role0, t, kt, tf, tramp, Pages(oldsz), true); }
    StackWord(mem1, role1, kt);
    SameTop(mem0, role0, mem1, role1, kt, nt, nk);
    SameStack(mem1, role1, kt, nk);
    StackFrame(mem0, role0, mem1, kt);
    MovedTrees(mem1, role1, kt, nk);
    MovedFrames(mem1, role1, kt, nk);
    MovedPool(mem1, k.data, k.next, k.head, k.npage, k.free, role1, kt, nk);
    MovedProc(mem1, role1, kt, nt, nk, tf, tramp, Pages(sz));
    MovedUser(mem1, role1, t, kt, nk, tf, tramp, Pages(oldsz));
    k.role := Moved(mem1, role1, kt, nk);
    ghost var role2 := k.role;
    IsTable(mem1, role2, nt, nk, Pages(sz));
    FreeTables(k, t, kt, tf, tramp, oldsz);
    ProcOther(mem1, k.mem, role2, k.role, nt, nk, tf, tramp, Pages(sz), t, kt);
    Exchanging(mem0, role0, mem1, role1, k.role, t, kt, nt, nk);
    AllShared(mem0, role0, mem1, role1, k.mem, k.role, t, kt, nk);
    StackHere(role2, nk);
    RestHere(mem1, k.mem, role2, t, kt, nk, VKVPN);
    forall v | 0 <= v < USERPAGES ensures Pte(k.mem, nt, v) == Pte(mem1, nt, v) {
      RestUser(mem1, k.mem, role2, t, kt, nt, nk, Pages(sz), v);
    }
  }

  lemma RestUser(mem: Memory, mem': Memory, role: Roles, t: int, kt: int, nt: int, nk: int, n: int, v: int)
    requires RestSame(mem, mem', role, t, kt) && Lockstep(mem, role, nt, nk, n) && nt != t && nt != kt && 0 <= v < USERPAGES
    ensures Pte(mem', nt, v) == Pte(mem, nt, v)
  {
    InUser(role, nt, v);
    hide Pte, PX;
  }

  lemma SameTop(mem0: Memory, role0: Roles, mem1: Memory, role1: Roles, kt: int, nt: int, nk: int)
    requires Trees(mem0, role0) && Trees(mem1, role1) && KernelFull(mem0, role0, kt) && KernelFull(mem1, role1, kt) && NewTo(role0, role1, nt, nk, {})
    ensures Entry(mem1, kt, STACKINDEX) == Entry(mem0, kt, STACKINDEX)
  {
    StackWord(mem0, role0, kt);
    StackWord(mem1, role1, kt);
    var c := Next(mem0, kt, STACKINDEX);
    assert NewAt(role0, role1, nt, nk, {}, c);
    StackTop(mem1, role1, kt, c);
    hide Trees, Pte, PX, Next, Word;
  }

  lemma StackFrame(mem0: Memory, role0: Roles, mem1: Memory, kt: int)
    requires SameMaps(mem0, mem1, role0) && KernelFull(mem0, role0, kt)
    ensures Pte(mem1, kt, VKVPN) == Pte(mem0, kt, VKVPN)
  {
    StackHere(role0, kt);
    hide Pte, PX;
  }

  /** The kernel table first, then the user table. */
  lemma JoinTwo(mem0: Memory, role0: Roles, role1: Roles, role2: Roles, nt: int, nk: int, shared: map<int, int>)
    requires Frames(mem0, role0) && nk in role0 && role0[nk].Free? && role1 == role0[nk := Root(2, {0, 1}, shared)]
    requires NewTo(role0, role1, nk, nk, {}) && NewTo(role1, role2, nt, nt, {}) && nt in role1 && role1[nt].Free? && UserTable(role2, nt)
    ensures NewTo(role0, role2, nt, nk, {}) && nt in role0 && role0[nt].Free? && nt != nk
    ensures KernelFrames(role2, nk, false) && nk in role2 && role2[nk] == role1[nk]
  {
    assert NewAt(role1, role2, nt, nt, {}, nk);
    forall p ensures NewAt(role0, role2, nt, nk, {}, p) {
      assert NewAt(role0, role1, nk, nk, {}, p) && NewAt(role1, role2, nt, nt, {}, p);
    }
    hide Pte, PX;
    forall q | q in role2 && role2[q].Frame? ensures role2[q].table != nk {
      assert NewAt(role1, role2, nt, nt, {}, q) && FrameAt(mem0, role0, q);
    }
  }

  lemma VacantThen(mem: Memory, mem': Memory, role: Roles, nk: int)
    requires SameMaps(mem, mem', role) && forall v :: 0 <= v < USERPAGES ==> Vacant(mem, role, nk, v)
    ensures forall v :: 0 <= v < USERPAGES ==> Pte(mem', nk, v) == 0
  {
    hide Pte, PX;
    forall v | 0 <= v < USERPAGES ensures Pte(mem', nk, v) == 0 {
      assert Vacant(mem, role, nk, v);
    }
  }

  /** The bad label when there is no user table yet. */
  method BadEarly(k: Kernel, nk: int, ghost mem0: Memory, ghost role0: Roles, ghost data0: Bytes)
    requires k.Valid() && Trees(mem0, role0) && Frames(mem0, role0) && nk in role0 && role0[nk].Free?
    requires Since0(mem0, role0, data0, k.mem, k.role, k.data, nk, nk, {})
    requires nk in k.role && k.role[nk].Root? && k.role[nk].level == 2 && k.role[nk].own == {0, 1} && KernelFrames(k.role, nk, false)
    modifies k
    ensures k.Valid() && k.role == role0 && SameMaps(mem0, k.mem, role0) && Undisturbed(data0, k.data, role0)
  {
    hide Trees, Frames, Pool, Sized, SameMaps, Pte, PX, Undisturbed, NewTo, KernelFrames, Surrendered;
    ghost var mem1, role1, data1 := k.mem, k.role, k.data;
    KvmFree(k, nk, false);
    Reclaim1(role1, k.role, nk);
    OneRest(mem1, k.mem, role1, nk);
    Dropped(mem0, mem1, k.mem, data0, data1, k.data, role0, role1, k.role, nk, nk);
  }

  lemma OneRest(mem: Memory, mem': Memory, role: Roles, t: int)
    requires OtherMaps(mem, mem', role, t)
    ensures RestSame(mem, mem', role, t, t)
  {
    hide Pte, PX;
  }

  lemma NoKernelFrames(mem0: Memory, role0: Roles, nk: int, shared: map<int, int>)
    requires Frames(mem0, role0) && nk in role0 && role0[nk].Free?
    ensures KernelFrames(role0[nk := Root(2, {0, 1}, shared)], nk, false)
  {
    hide Pte, PX;
    forall q | q in role0 && role0[q].Frame? ensures role0[q].table != nk { assert FrameAt(mem0, role0, q); }
  }

  lemma InCopy(role: Roles, nk: int)
    requires nk in role && role[nk].Root? && role[nk].level == 2 && role[nk].own == {0, 1}
    ensures forall w :: 0 <= w < USERPAGES ==> InTable(role, nk, w)
  {
    forall w | 0 <= w < USERPAGES ensures InTable(role, nk, w) {
      LowIndex(w);
      hide PX;
    }
  }

  /** exec's new tables, empty, if there is memory for them. */
  method NewTables(k: Kernel, ghost t: int, kt: int, tf: int, tramp: int, ghost n: int, stop: int) returns (ok: bool, nt: int, nk: int)
    requires k.Valid() && ProcMem(k.mem, k.role, t, kt, tf, tramp, n, true)
    modifies k
    ensures k.Valid()
    ensures !ok ==> k.role == old(k.role) && SameMaps(old(k.mem), k.mem, old(k.role)) && Undisturbed(old(k.data), k.data, old(k.role))
    ensures ok <==> stop >= 0 && |old(k.free)| >= 4
    ensures ok ==>
      && Building(old(k.mem), old(k.role), old(k.data), k.mem, k.role, k.data, kt, nt, nk, tf, tramp, 0)
      && |k.free| == |old(k.free)| - 4 && Bare(k.mem, nt) && Bare(k.mem, nk)
  {
    hide Trees, Frames, Pool, Sized, SameMaps, Pte, PX, Undisturbed, NewTo, Lockstep, Upper, KernelFrames, Holds, Vacant, Bare, WaySet;
    ghost var mem0, role0, data0 := k.mem, k.role, k.data;
    ProcParts(mem0, role0, t, kt, tf, tramp, n, true);
    nt := 0;
    nk := CopyKernelTable(k, kt);
    if nk == 0 { return false, nt, nk; }
    ghost var mem1, role1, data1 := k.mem, k.role, k.data;
    ghost var shared := AllButUser(mem0, kt);
    NoKernelFrames(mem0, role0, nk, shared);
    if stop < 0 {
      BadEarly(k, nk, mem0, role0, data0);
      return false, nt, nk;
    }
    SameDomain(role0, role1, nk, nk, {}, tramp);
    SameHeld(role0, role1, nk, nk, {}, tf);
    nt := ProcPagetable(k, tf, tramp);
    ghost var mem2, role2, data2 := k.mem, k.role, k.data;
    FreshRoots(role0, role1, nk, nk, {});
    MapsTrans(mem0, mem1, mem2, role0, role0, role1);
    UndisturbedNew(data0, data1, data2, role0, role1, nk, nk, {});
    if nt == 0 {
      BadEarly(k, nk, mem0, role0, data0);
      return false, nt, nk;
    }
    JoinTwo(mem0, role0, role1, role2, nt, nk, shared);
    VacantThen(mem1, mem2, role1, nk);
    InCopy(role1, nk);
    BareStays(mem1, mem2, role1, {}, TRAPVPN, nk);
    SameHeld(role1, role2, nt, nt, {}, tf);
    SameDomain(role1, role2, nt, nt, {}, tramp);
    LockstepEmpty(mem2, role2, nt, nk);
    ok := true;
  }

  /** The stack guard page. */
  method GuardPage(k: Kernel, ghost kt: int, nt: int, ghost nk: int, ghost tf: int, ghost tramp: int, ghost n: int, v: int, ghost mem0: Memory, ghost role0: Roles, ghost data0: Bytes)
    requires k.Valid() && Building(mem0, role0, data0, k.mem, k.role, k.data, kt, nt, nk, tf, tramp, n) && 0 <= v < n
    modifies k
    ensures k.Valid() && Building(mem0, role0, data0, k.mem, k.role, k.data, kt, nt, nk, tf, tramp, n) && !IsUser(Pte(k.mem, nt, v))
  {
    hide Trees, Frames, Pool, Sized, SameMaps, Pte, PX, Undisturbed, NewTo, Lockstep, Upper, KernelFrames, Holds, MapSet, NoUser, IsUser;
    ghost var mem1, role1 := k.mem, k.role;
    UvmClear(k, nt, nk, n, v);
    SetOthers(mem1, k.mem, role1, nt, v, NoUser(Pte(mem1, nt, v)));
    FreshRoots(role0, role1, nt, nk, {});
    OldMaps(mem0, mem1, k.mem, role0, role1, nt);
    UpperCleared(mem1, k.mem, role1, nt, nk, n, tf, tramp, v, NoUser(Pte(mem1, nt, v)));
  }

  lemma UpperCleared(mem: Memory, mem': Memory, role: Roles, t: int, kt: int, n: int, tf: int, tramp: int, v: int, e: int)
    requires Lockstep(mem, role, t, kt, n) && Upper(mem, t, tf, tramp) && MapSet(mem, mem', role, t, v, e) && v < n
    ensures Upper(mem', t, tf, tramp)
  {
    hide Pte, PX, Word;
    forall w | USERPAGES <= w < ALLVPN ensures Pte(mem', t, w) == UpperEntry(tf, tramp, w) {
      InUser(role, t, w);
      assert Pte(mem', t, w) == Pte(mem, t, w);
    }
  }

  /** The same for the image under construction. */
  method GrowBuilding(k: Kernel, ghost kt: int, nt: int, nk: int, ghost tf: int, ghost tramp: int, sz: int, newsz: int,
                      ghost mem0: Memory, ghost role0: Roles, ghost data0: Bytes, ghost memE: Memory, ghost freeE: int) returns (sz1: int)
    requires k.Valid() && 0 <= sz && 0 <= newsz && Building(mem0, role0, data0, k.mem, k.role, k.data, kt, nt, nk, tf, tramp, Pages(sz))
    requires Grown(memE, freeE, k.mem, |k.free|, nt, nk, Pages(sz)) && freeE <= STOPPAGE - FIRSTPAGE
    modifies k
    ensures k.Valid() && Building(mem0, role0, data0, k.mem, k.role, k.data, kt, nt, nk, tf, tramp, Pages(if sz1 == 0 then sz else sz1)) && 0 <= sz1
    ensures newsz < sz ==> sz1 == sz
    ensures newsz >= sz ==> sz1 == newsz || sz1 == 0
    ensures newsz >= sz ==> (sz1 == newsz <==> Cost(memE, nt, nk, 0, Pages(newsz)) <= freeE)
    ensures sz1 != 0 ==> Grown(memE, freeE, k.mem, |k.free|, nt, nk, Pages(sz1))
  {
    hide Since0, ProcMem, Grown, Cost, Trees, Frames, Pool, Sized;
    sz1 := GrowImage(k, nt, nk, tf, tramp, sz, newsz, mem0, role0, data0, memE, freeE);
  }

  method CommitBuilt(k: Kernel, t: int, kt: int, nt: int, nk: int, ghost tf: int, ghost tramp: int, oldsz: int, sz: int, ghost mem0: Memory, ghost role0: Roles, ghost data0: Bytes)
    requires k.Valid() && 0 <= oldsz && Trees(mem0, role0) && Frames(mem0, role0) && 2 <= Pages(sz) && 0 <= sz
    requires ProcMem(mem0, role0, t, kt, tf, tramp, Pages(oldsz), true) && !IsUser(Pte(k.mem, nt, Pages(sz) - 2))
    requires Building(mem0, role0, data0, k.mem, k.role, k.data, kt, nt, nk, tf, tramp, Pages(sz))
    modifies k
    ensures k.Valid() && ProcMem(k.mem, k.role, nt, nk, tf, tramp, Pages(sz), true) && Exchanged(role0, k.role, t, kt, nt, nk)
    ensures Ppn(Pte(k.mem, nk, VKVPN)) == Ppn(Pte(mem0, kt, VKVPN)) && SameButUser(mem0, kt, k.mem, nk) && !IsUser(Pte(k.mem, nt, Pages(sz) - 2))
  {
    hide Trees, Frames, Pool, Sized, Pte, PX, ProcMem, Since0, IsUser, Ppn, Exchanged;
    InUserHalf(k.mem, k.role, nt, nk, tf, tramp, Pages(sz));
    Commit(k, t, kt, nt, nk, tf, tramp, oldsz, sz, mem0, role0, data0);
  }

  /** The highest of some addresses, or 0. */
  function Top(ends: seq<int>): int
  {
    if ends == [] then 0
    else
      var below, last := Top(ends[..|ends| - 1]), ends[|ends| - 1];
      if last < below then below else last
  }

  lemma {:induction false} TopAt(ends: seq<int>, i: int)
    requires 0 <= i < |ends| && forall j :: 0 <= j < |ends| ==> 0 <= ends[j]
    ensures 0 <= ends[i] <= Top(ends) && 0 <= Top(ends[..i]) <= Top(ends)
    ensures Top(ends[..i + 1]) == if ends[i] < Top(ends[..i]) then Top(ends[..i]) else ends[i]
    decreases |ends|
  {
    TopNone(ends);
    assert ends[..i + 1][..i] == ends[..i];
    if i < |ends| - 1 {
      TopAt(ends[..|ends| - 1], i);
      assert ends[..|ends| - 1][..i] == ends[..i];
    }
  }

  lemma {:induction false} TopNone(ends: seq<int>)
    requires forall j :: 0 <= j < |ends| ==> 0 <= ends[j]
    ensures 0 <= Top(ends) && forall i :: 0 <= i < |ends| ==> 0 <= Top(ends[..i])
    decreases |ends|
  {
    if ends != [] {
      TopNone(ends[..|ends| - 1]);
      forall i | 0 <= i < |ends| ensures 0 <= Top(ends[..i]) {
        if i < |ends| - 1 { assert ends[..|ends| - 1][..i] == ends[..i]; }
      }
    }
  }

  // ---- how many pages it takes ----

  /** The pages of a new image: the kernel table, the user table with the two table pages for
      trampoline and trapframe, n frames, and in both tables a page for every 512 of them and one
      for every 2^18. */
  function ImageCost(n: int): int
  {
    4 + n + 2 * (Groups(n, 0x200) + Groups(n, 0x4_0000))
  }

  lemma ImageFits(memE: Memory, freeE: int, nt: int, nk: int, n: int)
    requires Bare(memE, nt) && Bare(memE, nk) && 0 <= n && freeE <= STOPPAGE - FIRSTPAGE
    ensures Cost(memE, nt, nk, 0, n) <= freeE <==> ImageCost(n) <= freeE + 4
  {
    SomeGroups(n);
    hide Bare, Cost, Groups;
    if n <= USERPAGES {
      CostBare(memE, nt, nk, n);
    } else {
      CostGrows(memE, nt, nk, 0, 0, n);
    }
  }

  /** A segment that does not fit makes the whole image one that does not fit. */
  lemma NoImage(memE: Memory, freeE: int, nt: int, nk: int, ends: seq<int>, i: int)
    requires Bare(memE, nt) && Bare(memE, nk) && freeE <= STOPPAGE - FIRSTPAGE
    requires 0 <= i < |ends| && (forall j :: 0 <= j < |ends| ==> 0 <= ends[j]) && Cost(memE, nt, nk, 0, Pages(ends[i])) > freeE
    ensures ImageCost(Pages(Top(ends)) + 2) > freeE + 4
  {
    hide Bare, Cost, Groups, ImageCost, Top;
    TopAt(ends, i);
    PagesOf(ends[i]);
    PagesOf(Top(ends));
    CostGrows(memE, nt, nk, 0, Pages(ends[i]), Pages(Top(ends)) + 2);
    ImageFits(memE, freeE, nt, nk, Pages(Top(ends)) + 2);
  }

  lemma NothingGrown(memE: Memory, freeE: int, nt: int, nk: int)
    ensures Grown(memE, freeE, memE, freeE, nt, nk, 0)
  {
    WaysNone(memE, nt, 0);
    WaysNone(memE, nk, 0);
    CostNone(memE, nt, nk, 0);
  }

  /** exec, as far as pages go.  ends are the ends of the segments to load; at step `stop` of the
      load something else goes wrong (a bad header, a short read, too many arguments).  Either
      the old image is exchanged for the new one, which keeps the trapframe and the stack, or
      every page is as it was.  It works out exactly if nothing else goes wrong, the first segment
      does not end at address 0 (uvmalloc's answer is then taken for a failure) and the pages of
      the new image are free beside the old one's. */
  method Exec(k: Kernel, t: int, kt: int, tf: int, tramp: int, oldsz: int, ends: seq<int>, stop: int) returns (ok: bool, nt: int, nk: int, sz: int)
    requires k.Valid() && 0 <= oldsz && ProcMem(k.mem, k.role, t, kt, tf, tramp, Pages(oldsz), true)
    requires forall i :: 0 <= i < |ends| ==> 0 <= ends[i]
    modifies k
    ensures k.Valid()
    ensures ok <==> stop > |ends| && (ends == [] || ends[0] > 0) && ImageCost(Pages(Top(ends)) + 2) <= |old(k.free)|
    ensures !ok ==> k.role == old(k.role) && SameMaps(old(k.mem), k.mem, old(k.role)) && Undisturbed(old(k.data), k.data, old(k.role))
    ensures ok ==>
      && ProcMem(k.mem, k.role, nt, nk, tf, tramp, Pages(sz), true) && Exchanged(old(k.role), k.role, t, kt, nt, nk)
      && Ppn(Pte(k.mem, nk, VKVPN)) == Ppn(Pte(old(k.mem), kt, VKVPN)) && SameButUser(old(k.mem), kt, k.mem, nk)
      && sz == (Pages(Top(ends)) + 2) * PGSIZE && Pages(sz) >= 2 && !IsUser(Pte(k.mem, nt, Pages(sz) - 2))
  {
    hide Trees, Frames, Pool, Sized, SameMaps, Pte, PX, Undisturbed, NewTo, ProcMem, Since0, IsUser, Ppn, Exchanged, Building, Grown, Bare, Cost, ImageCost, Top;
    ghost var mem0, role0, data0 := k.mem, k.role, k.data;
    FreeFew(k.next, k.head, k.npage, k.free, k.role);
    NoSegments(ends);
    sz := 0;
    ok, nt, nk := NewTables(k, t, kt, tf, tramp, Pages(oldsz), stop);
    if !ok { return; }
    ghost var memE, freeE := k.mem, |k.free|;
    NothingGrown(memE, freeE, nt, nk);
    var i := 0;
    while i < |ends|
      invariant 0 <= i <= |ends| && 0 <= sz == Top(ends[..i]) && k.Valid() && stop >= i && (i > 0 ==> ends[0] > 0 && sz > 0)
      invariant Building(mem0, role0, data0, k.mem, k.role, k.data, kt, nt, nk, tf, tramp, Pages(sz))
      invariant Grown(memE, freeE, k.mem, |k.free|, nt, nk, Pages(sz))
    {
      TopAt(ends, i);
      if stop == i {
        Bad(k, kt, nt, nk, tf, tramp, sz, mem0, role0, data0);
        return false, nt, nk, sz;
      }
      var sz1 := GrowBuilding(k, kt, nt, nk, tf, tramp, sz, ends[i], mem0, role0, data0, memE, freeE);
      if sz1 == 0 {
        if ends[i] > 0 { NoImage(memE, freeE, nt, nk, ends, i); }
        Bad(k, kt, nt, nk, tf, tramp, sz, mem0, role0, data0);
        return false, nt, nk, sz;
      }
      sz := sz1;
      i := i + 1;
    }
    assert ends[..i] == ends;
    sz := Pages(sz) * PGSIZE;
    StackPages(Top(ends));
    var sz1 := GrowBuilding(k, kt, nt, nk, tf, tramp, sz, sz + 2 * PGSIZE, mem0, role0, data0, memE, freeE);
    ImageFits(memE, freeE, nt, nk, Pages(Top(ends)) + 2);
    if sz1 == 0 {
      Bad(k, kt, nt, nk, tf, tramp, sz, mem0, role0, data0);
      return false, nt, nk, sz;
    }
    sz := sz1;
    GuardPage(k, kt, nt, nk, tf, tramp, Pages(sz), Pages(sz) - 2, mem0, role0, data0);
    if stop == |ends| {
      Bad(k, kt, nt, nk, tf, tramp, sz, mem0, role0, data0);
      return false, nt, nk, sz;
    }
    CommitBuilt(k, t, kt, nt, nk, tf, tramp, oldsz, sz, mem0, role0, data0);
    ok := true;
  }

  lemma NoSegments(ends: seq<int>)
    ensures Top(ends[..0]) == 0 && Pages(0) == 0 && ImageCost(Pages(Top(ends)) + 2) >= 4
  {
  }

  lemma StackPages(top: int)
    requires 0 <= top
    ensures Pages(Pages(top) * PGSIZE) == Pages(top) >= 0 && Pages(Pages(top) * PGSIZE + 2 * PGSIZE) == Pages(top) + 2
  {
  }
  lemma InUserHalf(mem: Memory, role: Roles, nt: int, nk: int, tf: int, tramp: int, n: int)
    requires ProcMem(mem, role, nt, nk, tf, tramp, n, false)
    ensures n <= USERPAGES
  {
  }
}
