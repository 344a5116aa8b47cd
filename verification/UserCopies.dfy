/** Moving bytes between the kernel and user memory: copyin and copyout walk the user table,
    copyin2 and copyout2 go straight through the kernel table (kernel/vm.c 138-156, 423-490). */
module UserCopies {
  import opened PageTables
  import opened VirtualMemory
  import opened AddressSpaces
  import opened ProcessPages

  const U64 := 0x1_0000_0000_0000_0000

  /** What walkaddr answers for page v: its physical page if a user may touch it, else 0. */
  function UserPage(mem: Memory, t: int, v: int): int
  {
    if v >= MAXVPN then 0
    else var e := Pte(mem, t, v); if IsValid(e) && IsUser(e) then Ppn(e) else 0
  }

  /** Every page a user may touch is a frame of the table. */
  ghost predicate UserHeldAt(mem: Memory, role: Roles, t: int, v: int)
  {
    0 <= v && UserPage(mem, t, v) != 0 ==> Holds(mem, role, t, v)
  }

  ghost predicate UserHeld(mem: Memory, role: Roles, t: int)
  {
    forall v {:trigger UserHeldAt(mem, role, t, v)} :: UserHeldAt(mem, role, t, v)
  }

  /** It is so when the tables are in lockstep and nothing above user memory has PTE_U. */
  lemma LockstepHeld(mem: Memory, role: Roles, t: int, kt: int, n: int)
    requires Lockstep(mem, role, t, kt, n)
    requires forall v :: USERPAGES <= v < MAXVPN ==> UserPage(mem, t, v) == 0
    ensures UserHeld(mem, role, t)
  {
    hide Pte, PX, Ppn, IsUser, NoUser, Holds;
    assert !IsValid(0);
    forall v ensures UserHeldAt(mem, role, t, v) {
      assert PairAt(mem, role, t, kt, n, v);
    }
    hide IsValid;
  }

  lemma UpperNotUser(tf: int, tramp: int, v: int)
    requires 0 < tf && 0 < tramp
    ensures !(IsValid(UpperEntry(tf, tramp, v)) && IsUser(UpperEntry(tf, tramp, v)))
  {
    EntryParts(tf, PTE_R + PTE_W + PTE_V);
    EntryParts(tramp, PTE_R + PTE_X + PTE_V);
    assert !IsUser(PTE_R + PTE_W + PTE_V) && !IsUser(PTE_R + PTE_X + PTE_V) && !IsValid(0);
    hide IsValid, IsUser, Word;
  }

  /** It is so for every process: neither trampoline nor trapframe has PTE_U. */
  lemma ProcessHeld(mem: Memory, role: Roles, t: int, kt: int, tf: int, tramp: int, n: int, stack: bool)
    requires Trees(mem, role) && ProcMem(mem, role, t, kt, tf, tramp, n, stack)
    ensures UserTable(role, t) && UserHeld(mem, role, t)
  {
    assert PageAt(mem, role, tf);
    forall v | USERPAGES <= v < MAXVPN ensures UserPage(mem, t, v) == 0 {
      UpperNotUser(tf, tramp, v);
      hide Trees, Pte, PX, Word, Ppn, IsValid, IsUser, Lockstep, Holds;
      assert Pte(mem, t, v) == UpperEntry(tf, tramp, v);
    }
    LockstepHeld(mem, role, t, kt, n);
  }

  /** The byte that table t finds at a virtual address. */
  function ByteAt(mem: Memory, data: Bytes, t: int, a: int): int
  {
    var p := Ppn(Pte(mem, t, a / PGSIZE));
    if p in data && a % PGSIZE < |data[p]| then data[p][a % PGSIZE] else 0
  }

  ghost predicate ReachableAt(mem: Memory, t: int, a: int, i: int)
  {
    UserPage(mem, t, (a + i) / PGSIZE) != 0
  }

  /** A user may touch every page of [a, a + len). */
  ghost predicate Reachable(mem: Memory, t: int, a: int, len: int)
  {
    forall i {:trigger ReachableAt(mem, t, a, i)} :: 0 <= i < len ==> ReachableAt(mem, t, a, i)
  }

  lemma HeldThere(mem: Memory, role: Roles, t: int, v: int)
    requires UserHeld(mem, role, t) && 0 <= v && UserPage(mem, t, v) != 0
    ensures Holds(mem, role, t, v)
  {
    assert UserHeldAt(mem, role, t, v);
  }

  /** walkaddr, on page numbers. */
  method WalkAddr(k: Kernel, t: int, v: int) returns (pa: int)
    requires k.Valid() && UserTable(k.role, t) && 0 <= v && UserHeld(k.mem, k.role, t)
    modifies k
    ensures k.Valid() && k.mem == old(k.mem) && k.data == old(k.data) && k.role == old(k.role) && k.free == old(k.free)
    ensures pa == UserPage(k.mem, t, v)
    ensures pa != 0 ==> Holds(k.mem, k.role, t, v) && pa == Ppn(Pte(k.mem, t, v)) && pa in k.data && |k.data[pa]| == PGSIZE
  {
    hide Trees, Frames, Pool, PX, Ppn, IsUser, NoUser, Low, UserHeld;
    if v >= MAXVPN { return 0; }
    InUser(k.role, t, v);
    var l := k.Walk(t, v, false);
    assert !IsValid(0);
    if l == NOPAGE { return 0; }
    var pte := Entry(k.mem, l, PX(0, v));
    if !IsValid(pte) { return 0; }
    if !IsUser(pte) { return 0; }
    pa := Ppn(pte);
    if pa != 0 { HeldThere(k.mem, k.role, t, v); }
  }

  lemma InPage(a: int, i: int)
    requires 0 <= a && 0 <= i && a % PGSIZE + i < PGSIZE
    ensures (a + i) / PGSIZE == a / PGSIZE && (a + i) % PGSIZE == a % PGSIZE + i
  {
  }

  lemma NextPage(a: int)
    requires 0 <= a
    ensures a + (PGSIZE - a % PGSIZE) == (a / PGSIZE + 1) * PGSIZE && a == a / PGSIZE * PGSIZE + a % PGSIZE && 0 <= a % PGSIZE < PGSIZE
  {
  }

  /** The first bytes of dst are those at address a. */
  ghost predicate ReadsAt(mem: Memory, data: Bytes, t: int, a: int, dst: seq<int>, i: int)
  {
    0 <= i < |dst| ==> dst[i] == ByteAt(mem, data, t, a + i) && UserPage(mem, t, (a + i) / PGSIZE) != 0
  }

  ghost predicate Reads(mem: Memory, data: Bytes, t: int, a: int, dst: seq<int>)
  {
    forall i {:trigger ReadsAt(mem, data, t, a, dst, i)} :: ReadsAt(mem, data, t, a, dst, i)
  }

  lemma ReadNothing(mem: Memory, data: Bytes, t: int, a: int)
    ensures Reads(mem, data, t, a, [])
  {
  }

  lemma ReadsMore(mem: Memory, data: Bytes, t: int, a: int, dst: seq<int>, p: int, n: int)
    requires Reads(mem, data, t, a, dst) && 0 <= a && 0 <= n
    requires p in data && |data[p]| == PGSIZE && (a + |dst|) % PGSIZE + n <= PGSIZE
    requires p != 0 && p == UserPage(mem, t, (a + |dst|) / PGSIZE) && p == Ppn(Pte(mem, t, (a + |dst|) / PGSIZE))
    ensures Reads(mem, data, t, a, dst + data[p][(a + |dst|) % PGSIZE..(a + |dst|) % PGSIZE + n])
  {
    hide Pte, Ppn, UserPage;
    var off := (a + |dst|) % PGSIZE;
    var dst' := dst + data[p][off..off + n];
    forall i ensures ReadsAt(mem, data, t, a, dst', i) {
      assert ReadsAt(mem, data, t, a, dst, i);
      if |dst| <= i < |dst'| { InPage(a + |dst|, i - |dst|); }
    }
  }

  lemma ReadsAll(mem: Memory, data: Bytes, t: int, a: int, dst: seq<int>)
    requires Reads(mem, data, t, a, dst)
    ensures Reachable(mem, t, a, |dst|)
  {
    hide Pte, Ppn, UserPage;
    forall i | 0 <= i < |dst| ensures ReachableAt(mem, t, a, i) {
      assert ReadsAt(mem, data, t, a, dst, i);
    }
  }

  /** copyin: it succeeds exactly when a user may touch every page of the range, and then dst is
      what those addresses hold. */
  method CopyIn(k: Kernel, t: int, srcva: int, len: int) returns (r: int, dst: seq<int>)
    requires k.Valid() && UserTable(k.role, t) && 0 <= srcva && 0 <= len && UserHeld(k.mem, k.role, t)
    modifies k
    ensures k.Valid() && k.mem == old(k.mem) && k.data == old(k.data) && k.role == old(k.role) && k.free == old(k.free)
    ensures r == 0 <==> Reachable(k.mem, t, srcva, len)
    ensures r == 0 || r == -1
    ensures Reads(k.mem, k.data, t, srcva, dst) && (r == 0 ==> |dst| == len)
  {
    hide Trees, Frames, Pool, Sized, Pte, PX, Ppn, UserPage, UserHeld, Holds, Reads;
    var va, rest := srcva, len;
    dst := [];
    ReadNothing(k.mem, k.data, t, srcva);
    while rest > 0
      invariant k.Valid() && k.mem == old(k.mem) && k.data == old(k.data) && k.role == old(k.role) && k.free == old(k.free)
      invariant 0 <= rest && rest + |dst| == len && (rest > 0 ==> va == srcva + |dst|)
      invariant Reads(k.mem, k.data, t, srcva, dst)
      decreases rest
    {
      NextPage(va);
      var va0 := va / PGSIZE;
      var pa := WalkAddr(k, t, va0);
      if pa == 0 {
        assert !ReachableAt(k.mem, t, srcva, |dst|);
        return -1, dst;
      }
      var n := PGSIZE - va % PGSIZE;
      if n > rest { n := rest; }
      ReadsMore(k.mem, k.data, t, srcva, dst, pa, n);
      dst := dst + k.data[pa][va % PGSIZE..va % PGSIZE + n];
      rest := rest - n;
      va := (va0 + 1) * PGSIZE;
    }
    ReadsAll(k.mem, k.data, t, srcva, dst);
    r := 0;
  }

  // ---- writing user memory ----

  /** Byte i of page p holds address x of table t. */
  ghost predicate Houses(role: Roles, t: int, p: int, i: int, x: int)
  {
    p in role && role[p].Frame? && role[p].table == t && x == role[p].v * PGSIZE + i
  }

  ghost function Place(role: Roles, p: int, i: int): int
  {
    if p in role && role[p].Frame? then role[p].v * PGSIZE + i else -1
  }

  ghost predicate StoredAt(data: Bytes, data': Bytes, role: Roles, t: int, dst: int, src: seq<int>, p: int, i: int)
  {
    p in data && 0 <= i < |data[p]| ==>
      p in data' && |data'[p]| == |data[p]| &&
      var x := Place(role, p, i) - dst;
      data'[p][i] == if Houses(role, t, p, i, dst + x) && 0 <= x < |src| then src[x] else data[p][i]
  }

  /** The bytes of all pages after src has been stored at address dst of table t: exactly those
      addresses changed, whichever frames they lie in. */
  ghost predicate Stored(data: Bytes, data': Bytes, role: Roles, t: int, dst: int, src: seq<int>)
  {
    && (forall p :: (p in data <==> p in data') && (p in data ==> |data'[p]| == |data[p]|))
    && (forall p, i {:trigger StoredAt(data, data', role, t, dst, src, p, i)} :: StoredAt(data, data', role, t, dst, src, p, i))
  }

  lemma StoredOnce(data: Bytes, a: Bytes, b: Bytes, role: Roles, t: int, dst: int, src: seq<int>)
    requires Stored(data, a, role, t, dst, src) && Stored(data, b, role, t, dst, src)
    ensures a == b
  {
    forall p ensures (p in a <==> p in b) && (p in a ==> a[p] == b[p]) {
      assert (p in data <==> p in a) && (p in data <==> p in b);
      if p in data {
        forall i | 0 <= i < |data[p]| ensures a[p][i] == b[p][i] {
          assert StoredAt(data, a, role, t, dst, src, p, i) && StoredAt(data, b, role, t, dst, src, p, i);
        }
      }
    }
  }

  lemma StoredNone(data: Bytes, role: Roles, t: int, dst: int)
    ensures Stored(data, data, role, t, dst, [])
  {
  }

  /** A run of bytes within one page. */
  ghost function Patched(data: Bytes, p: int, off: int, bytes: seq<int>): Bytes
    requires p in data && 0 <= off && off + |bytes| <= |data[p]|
  {
    data[p := data[p][..off] + bytes + data[p][off + |bytes|..]]
  }

  lemma StoredMore(data: Bytes, data1: Bytes, role: Roles, t: int, dst: int, src: seq<int>, p: int, v: int, off: int, bytes: seq<int>)
    requires Stored(data, data1, role, t, dst, src) && p in data1 && 0 <= off && off + |bytes| <= |data1[p]|
    requires p in role && role[p] == Frame(t, v) && v * PGSIZE + off == dst + |src| && |data1[p]| == PGSIZE
    requires forall q :: q in role && role[q].Frame? && role[q].table == t && role[q].v == v ==> q == p
    requires forall q :: q in data1 && q in role && role[q].Frame? ==> |data1[q]| == PGSIZE
    ensures Stored(data, Patched(data1, p, off, bytes), role, t, dst, src + bytes)
  {
    var data2, src2 := Patched(data1, p, off, bytes), src + bytes;
    forall q, i ensures StoredAt(data, data2, role, t, dst, src2, q, i) {
      assert StoredAt(data, data1, role, t, dst, src, q, i);
      if q in data && 0 <= i < |data[q]| && q in role && role[q].Frame? && role[q].table == t {
        SamePlace(role[q].v, i, v, off, |bytes|);
        var x := Place(role, q, i) - dst;
        if q == p && off <= i < off + |bytes| {
          assert data2[p][i] == bytes[i - off];
        }
      }
    }
  }

  /** Addresses in a run that stays within page v are in page v. */
  lemma SamePlace(w: int, i: int, v: int, off: int, n: int)
    requires 0 <= i < PGSIZE && 0 <= off && off + n <= PGSIZE
    ensures v * PGSIZE + off <= w * PGSIZE + i < v * PGSIZE + off + n ==> w == v && off <= i < off + n
  {
  }

  /** copyout: it succeeds exactly when a user may touch every page of the range, and then
      exactly those bytes of user memory are src; otherwise a prefix of src was stored. */
  method CopyOut(k: Kernel, t: int, dstva: int, src: seq<int>) returns (r: int)
    requires k.Valid() && UserTable(k.role, t) && 0 <= dstva && UserHeld(k.mem, k.role, t)
    modifies k
    ensures k.Valid() && k.mem == old(k.mem) && k.role == old(k.role) && k.free == old(k.free)
    ensures r == 0 <==> Reachable(k.mem, t, dstva, |src|)
    ensures r == 0 ==> Stored(old(k.data), k.data, k.role, t, dstva, src)
    ensures r == 0 || (r == -1 && exists n :: 0 <= n <= |src| && Stored(old(k.data), k.data, k.role, t, dstva, src[..n]))
  {
    hide Trees, Pool, Pte, PX, Ppn, UserPage, UserHeld, Frames, Stored, Reachable;
    var va, done := dstva, 0;
    StoredNone(k.data, k.role, t, dstva);
    assert src[..0] == [];
    Untouched(k.mem, t, dstva);
    while done < |src|
      invariant 0 <= done <= |src| && (done < |src| ==> va == dstva + done)
      invariant k.Valid() && k.mem == old(k.mem) && k.role == old(k.role) && k.free == old(k.free)
      invariant Stored(old(k.data), k.data, k.role, t, dstva, src[..done])
      invariant Reachable(k.mem, t, dstva, done)
    {
      NextPage(va);
      var va0 := va / PGSIZE;
      var pa := WalkAddr(k, t, va0);
      if pa == 0 {
        NotReached(k.mem, t, dstva, |src|, done);
        return -1;
      }
      var n := PGSIZE - va % PGSIZE;
      if n > |src| - done { n := |src| - done; }
      OneFrame(k.mem, k.role, t, va0, pa);
      StoredMore(old(k.data), k.data, k.role, t, dstva, src[..done], pa, va0, va % PGSIZE, src[done..done + n]);
      ReachedMore(k.mem, t, dstva, done, n);
      NewSized(k.data, k.role, pa, k.data[pa][..va % PGSIZE] + src[done..done + n] + k.data[pa][va % PGSIZE + n..]);
      assert src[..done] + src[done..done + n] == src[..done + n];
      k.data := k.data[pa := k.data[pa][..va % PGSIZE] + src[done..done + n] + k.data[pa][va % PGSIZE + n..]];
      done := done + n;
      va := (va0 + 1) * PGSIZE;
    }
    assert src[..done] == src;
    r := 0;
  }

  lemma Untouched(mem: Memory, t: int, a: int)
    ensures Reachable(mem, t, a, 0)
  {
  }

  lemma NotReached(mem: Memory, t: int, a: int, len: int, i: int)
    requires 0 <= i < len && UserPage(mem, t, (a + i) / PGSIZE) == 0
    ensures !Reachable(mem, t, a, len)
  {
    hide UserPage;
    assert !ReachableAt(mem, t, a, i);
  }

  lemma ReachedMore(mem: Memory, t: int, a: int, done: int, n: int)
    requires Reachable(mem, t, a, done) && 0 <= a && 0 <= done && UserPage(mem, t, (a + done) / PGSIZE) != 0 && (a + done) % PGSIZE + n <= PGSIZE
    ensures Reachable(mem, t, a, done + n)
  {
    hide UserPage;
    forall i | 0 <= i < done + n ensures ReachableAt(mem, t, a, i) {
      if i < done { assert ReachableAt(mem, t, a, i); } else { InPage(a + done, i - done); }
    }
  }

  // ---- the direct versions ----

  /** The guard of copyin2 and copyout2, with its 64-bit sum. */
  predicate Accepts(va: int, len: int, sz: int)
  {
    !((va + len) % U64 > sz || va >= sz)
  }

  /** An accepted range lies within the process exactly when its end does not wrap around. */
  lemma AcceptsInside(va: int, len: int, sz: int)
    requires 0 <= va < U64 && 0 <= len < U64 && 0 <= sz < U64 && Accepts(va, len, sz)
    ensures va + len <= sz <==> va + len < U64
  {
  }

  /** The kernel table leads to the same byte of the same frame. */
  lemma SameByte(mem: Memory, role: Roles, data: Bytes, t: int, kt: int, n: int, v: int)
    requires Trees(mem, role) && Lockstep(mem, role, t, kt, n) && Sized(data, role) && 0 <= v < n
    ensures Holds(mem, role, t, v) && Pte(mem, kt, v) != 0 && Ppn(Pte(mem, kt, v)) == Ppn(Pte(mem, t, v))
    ensures Ppn(Pte(mem, t, v)) in data && |data[Ppn(Pte(mem, t, v))]| == PGSIZE
  {
    assert PairAt(mem, role, t, kt, n, v);
    InUser(role, t, v);
    LeafFound(mem, role, t, v);
    NoUserParts(Pte(mem, t, v));
    hide Pte, PX, Ppn, IsValid, IsLeaf, IsUser, NoUser, Trees;
  }

  /** Behind the last page of a process the kernel table maps nothing. */
  lemma Behind(k: Kernel, t: int, kt: int, sz: int, v: int)
    requires k.Valid() && 0 <= sz && Lockstep(k.mem, k.role, t, kt, Pages(sz)) && 0 <= v <= Pages(sz)
    ensures Pte(k.mem, kt, v) == 0 <==> v == Pages(sz)
    ensures sz <= Pages(sz) * PGSIZE <= (STOPPAGE - FIRSTPAGE) * PGSIZE
  {
    PagesOf(sz);
    SmallSize(k, t, kt, sz);
    assert PairAt(k.mem, k.role, t, kt, Pages(sz), v);
    if v < Pages(sz) { SameByte(k.mem, k.role, k.data, t, kt, Pages(sz), v); }
    hide Pte, Ppn, NoUser, Holds;
  }

  /** An accepted range that wraps around is longer than user memory even after memmove has taken
      its length for an unsigned int. */
  lemma WrapsFar(va: int, len: int, sz: int)
    requires 0 <= va && 0 <= len < U64 && Accepts(va, len, sz) && 0 <= sz < UINT && U64 <= va + len
    ensures va + len % UINT >= UINT
  {
    var e := (va + len) % U64;
    assert va + len == U64 + e && e < va;
    var d := va - e;
    assert len == UINT * (UINT - 1) + (UINT - d) && 0 < d < UINT;
    assert len % UINT == UINT - d;
  }

  /** copyin2: bytes are loaded through the kernel table the CPU is running on, up to the first
      page fault, which stops the kernel. */
  method CopyIn2(k: Kernel, ghost t: int, kt: int, sz: int, srcva: int, len: int) returns (r: int, dst: seq<int>, fault: bool)
    requires k.Valid() && 0 <= sz < U64 && 0 <= srcva < U64 && 0 <= len < U64
    requires Lockstep(k.mem, k.role, t, kt, Pages(sz))
    ensures r == if Accepts(srcva, len, sz) then 0 else -1
    ensures fault <==> Accepts(srcva, len, sz) && U64 <= srcva + len
    ensures r == 0 && !fault ==> |dst| == len && forall i :: 0 <= i < len ==> dst[i] == ByteAt(k.mem, k.data, t, srcva + i)
  {
    hide Trees, Frames, Pool, Sized, Pte, PX, Ppn, Lockstep;
    dst := [];
    if (srcva + len) % U64 > sz || srcva >= sz {
      return -1, dst, false;
    }
    Behind(k, t, kt, sz, 0);
    if U64 <= srcva + len { WrapsFar(srcva, len, sz); }
    var n := len % UINT;
    while |dst| < n
      invariant |dst| <= n && srcva + |dst| <= Pages(sz) * PGSIZE
      invariant forall i :: 0 <= i < |dst| ==> dst[i] == ByteAt(k.mem, k.data, t, srcva + i)
    {
      var a := srcva + |dst|;
      NextPage(a);
      Behind(k, t, kt, sz, a / PGSIZE);
      if Pte(k.mem, kt, a / PGSIZE) == 0 {
        return 0, dst, true;
      }
      SameByte(k.mem, k.role, k.data, t, kt, Pages(sz), a / PGSIZE);
      dst := dst + [k.data[Ppn(Pte(k.mem, kt, a / PGSIZE))][a % PGSIZE]];
    }
    r, fault := 0, false;
  }

  /** copyout2: bytes are stored through the kernel table the CPU is running on, up to the first
      page fault, which stops the kernel. */
  method CopyOut2(k: Kernel, ghost t: int, kt: int, sz: int, dstva: int, src: seq<int>) returns (r: int, fault: bool)
    requires k.Valid() && 0 <= sz < U64 && 0 <= dstva < U64 && |src| < U64
    requires Lockstep(k.mem, k.role, t, kt, Pages(sz))
    modifies k`data
    ensures k.Valid()
    ensures r == if Accepts(dstva, |src|, sz) then 0 else -1
    ensures fault <==> Accepts(dstva, |src|, sz) && U64 <= dstva + |src|
    ensures r == 0 && !fault ==> Stored(old(k.data), k.data, k.role, t, dstva, src)
    ensures r == -1 ==> k.data == old(k.data)
  {
    hide Trees, Frames, Pool, Pte, PX, Ppn, Lockstep, Stored;
    if (dstva + |src|) % U64 > sz || dstva >= sz {
      return -1, false;
    }
    Behind(k, t, kt, sz, 0);
    if U64 <= dstva + |src| { WrapsFar(dstva, |src|, sz); }
    StoredNone(k.data, k.role, t, dstva);
    assert src[..0] == [];
    var n := |src| % UINT;
    var done := 0;
    while done < n
      invariant 0 <= done <= n <= |src| && dstva + done <= Pages(sz) * PGSIZE && k.Valid()
      invariant Stored(old(k.data), k.data, k.role, t, dstva, src[..done])
    {
      var a := dstva + done;
      NextPage(a);
      Behind(k, t, kt, sz, a / PGSIZE);
      if Pte(k.mem, kt, a / PGSIZE) == 0 {
        return 0, true;
      }
      SameByte(k.mem, k.role, k.data, t, kt, Pages(sz), a / PGSIZE);
      var p := Ppn(Pte(k.mem, kt, a / PGSIZE));
      OneFrame(k.mem, k.role, t, a / PGSIZE, p);
      StoredMore(old(k.data), k.data, k.role, t, dstva, src[..done], p, a / PGSIZE, a % PGSIZE, [src[done]]);
      NewSized(k.data, k.role, p, k.data[p][..a % PGSIZE] + [src[done]] + k.data[p][a % PGSIZE + 1..]);
      assert src[..done] + [src[done]] == src[..done + 1];
      k.data := k.data[p := k.data[p][..a % PGSIZE] + [src[done]] + k.data[p][a % PGSIZE + 1..]];
      done := done + 1;
    }
    assert src[..done] == src;
    r, fault := 0, false;
  }

  ghost predicate OpenAt(mem: Memory, t: int, a: int, i: int)
  {
    IsUser(Pte(mem, t, (a + i) / PGSIZE))
  }

  /** No page of the range has been through uvmclear. */
  ghost predicate NoneCleared(mem: Memory, t: int, a: int, len: int)
  {
    forall i {:trigger OpenAt(mem, t, a, i)} :: 0 <= i < len ==> OpenAt(mem, t, a, i)
  }

  /** On a range that copyin2 and copyout2 accept, the walking versions succeed exactly when no
      page of it has been through uvmclear. */
  lemma DirectIsWalking(mem: Memory, role: Roles, t: int, kt: int, sz: int, va: int, len: int)
    requires Trees(mem, role) && 0 <= sz < U64 && 0 <= va && 0 <= len && va + len < U64
    requires Lockstep(mem, role, t, kt, Pages(sz)) && Accepts(va, len, sz)
    ensures Reachable(mem, t, va, len) <==> NoneCleared(mem, t, va, len)
  {
    PagesOf(sz);
    hide Pte, PX, Ppn, IsValid, IsLeaf, IsUser, NoUser;
    forall i | 0 <= i < len
      ensures ReachableAt(mem, t, va, i) <==> OpenAt(mem, t, va, i)
    {
      NextPage(va + i);
      var v := (va + i) / PGSIZE;
      assert PairAt(mem, role, t, kt, Pages(sz), v);
      InUser(role, t, v);
      LeafFound(mem, role, t, v);
      assert PageAt(mem, role, Ppn(Pte(mem, t, v)));
    }
  }

  /** What copyin and copyin2 promise of the bytes they read leaves no room for a difference;
      StoredOnce says the same of copyout and copyout2. */
  lemma ReadsOnce(mem: Memory, data: Bytes, t: int, a: int, walked: seq<int>, direct: seq<int>)
    requires Reads(mem, data, t, a, walked) && |direct| == |walked|
    requires forall i :: 0 <= i < |direct| ==> direct[i] == ByteAt(mem, data, t, a + i)
    ensures walked == direct
  {
    hide ByteAt, UserPage;
    forall i | 0 <= i < |direct| ensures walked[i] == direct[i] {
      assert ReadsAt(mem, data, t, a, walked, i);
    }
  }
}
