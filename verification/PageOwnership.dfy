/** Who owns each physical page: building and taking down page tables (kernel/vm.c 248-259,
    335-363, 560-624) without losing a page or freeing one twice. */
module PageOwnership {
  import opened PageTables
  import opened VirtualMemory
  import opened AddressSpaces

  /** Page q is table page p or hangs below it. */
  ghost predicate Under(role: Roles, q: int, p: int)
  {
    q in role &&
    (q == p || (role[q].Sub? && (role[q].parent == p ||
                                 (role[q].parent in role && role[role[q].parent].Sub? && role[role[q].parent].parent == p))))
  }

  /** The entry of p below which q hangs. */
  ghost function Via(role: Roles, q: int, p: int): int
  {
    if q in role && role[q].Sub? then
      if role[q].parent == p then role[q].idx
      else if role[q].parent in role && role[role[q].parent].Sub? then role[role[q].parent].idx else -1
    else -1
  }

  /** q hangs below one of the entries s of p. */
  ghost predicate Gone(role: Roles, q: int, p: int, s: set<int>)
  {
    q != p && Under(role, q, p) && Via(role, q, p) in s
  }

  ghost predicate ClearedAt(role: Roles, role': Roles, p: int, s: set<int>, q: int)
  {
    (q in role <==> q in role') &&
    (q in role && q != p ==> role'[q] == if Gone(role, q, p, s) then Free else role[q])
  }

  /** The table pages below the entries s of p are free; no other page but p changed hands. */
  ghost predicate ClearedTo(role: Roles, role': Roles, p: int, s: set<int>)
  {
    forall q {:trigger ClearedAt(role, role', p, s, q)} :: ClearedAt(role, role', p, s, q)
  }

  ghost predicate WordsAt(mem: Memory, mem': Memory, role: Roles, p: int, s: set<int>, q: int)
  {
    q in role && q != p && !Gone(role, q, p, s) && q in mem ==> q in mem' && mem'[q] == mem[q]
  }

  ghost predicate WordsTo(mem: Memory, mem': Memory, role: Roles, p: int, s: set<int>)
  {
    && (forall q {:trigger WordsAt(mem, mem', role, p, s, q)} :: WordsAt(mem, mem', role, p, s, q))
    && (forall j :: 0 <= j < ENTRIES && j !in s ==> Entry(mem', p, j) == Entry(mem, p, j))
  }

  ghost predicate ReleasedAt(role: Roles, role': Roles, p: int, q: int)
  {
    (q in role <==> q in role') && (q in role ==> role'[q] == if Under(role, q, p) then Free else role[q])
  }

  /** The pages of the table at p are free now; no other page changed hands. */
  ghost predicate Released(role: Roles, role': Roles, p: int)
  {
    forall q {:trigger ReleasedAt(role, role', p, q)} :: ReleasedAt(role, role', p, q)
  }

  ghost predicate NoFrames(role: Roles, p: int)
  {
    forall q :: q in role && role[q].Frame? ==> role[q].table != p
  }

  ghost predicate NoLeafAt(mem: Memory, role: Roles, p: int, q: int, j: int)
  {
    Under(role, q, p) && Level(role[q]) == 0 && 0 <= j < ENTRIES ==> Entry(mem, q, j) == 0
  }

  ghost predicate NoLeaf(mem: Memory, role: Roles, p: int)
  {
    forall q, j {:trigger NoLeafAt(mem, role, p, q, j)} :: NoLeafAt(mem, role, p, q, j)
  }

  /** Words of pages outside the table at p stay. */
  ghost predicate WordsKept(mem: Memory, mem': Memory, role: Roles, p: int)
  {
    forall q {:trigger Under(role, q, p)} :: q in role && !Under(role, q, p) && q in mem ==> q in mem' && mem'[q] == mem[q]
  }

  /** Frames stay frames when only tables that hold none of them change. */
  lemma FramesKeep(mem: Memory, mem': Memory, role: Roles, role': Roles)
    requires Frames(mem, role)
    requires forall q :: q in role' && role'[q].Frame? ==>
               q in role && role'[q] == role[q] && role[q].table in role && role[q].table in role' && role'[role[q].table] == role[role[q].table]
               && Pte(mem', role[q].table, role[q].v) == Pte(mem, role[q].table, role[q].v)
    ensures Frames(mem', role')
  {
    hide Pte, PX, Ppn;
    forall q ensures FrameAt(mem', role', q) {
      assert FrameAt(mem, role, q);
    }
  }

  /** The path of another table does not go through the pages below p. */
  lemma OtherPath(mem: Memory, mem': Memory, role: Roles, p: int, u: int, w: int)
    requires Trees(mem, role) && InTable(role, u, w) && u != p && p in role && role[p].Root? && WordsKept(mem, mem', role, p)
    ensures Pte(mem', u, w) == Pte(mem, u, w)
  {
    IndexRange(w);
    hide PX, IsValid, Ppn, Trees;
    Down(mem, role, u, PX(2, w));
    assert !Under(role, u, p);
    var m := Next(mem, u, PX(2, w));
    if m != NOPAGE {
      Down(mem, role, m, PX(1, w));
      assert !Under(role, m, p);
      var l := Next(mem, m, PX(1, w));
      if l != NOPAGE {
        assert !Under(role, l, p);
        LowPlace(mem, role, u, w);
      }
    }
  }

  /** Cutting off the subtree below entry i. */
  lemma Cutting(mem: Memory, data: Bytes, next: map<int, int>, head: int, npage: int, free: seq<int>, role: Roles, p: int, i: int)
    requires Trees(mem, role) && Frames(mem, role) && Pool(next, head, npage, free, role) && Sized(data, role)
    requires p in role && role[p].Root? && i in role[p].own && 0 <= i < ENTRIES && role[p].level > 0 && Entry(mem, p, i) != 0 && NoFrames(role, p)
    ensures var c := Next(mem, p, i);
      c in role && role[c] == Sub(role[p].level - 1, p, i) && c != p
    ensures var role' := CutOff(role, p, i, Next(mem, p, i));
      && Trees(mem, role') && Frames(mem, role') && Pool(next, head, npage, free, role') && Sized(data, role')
      && NoFrames(role', p) && NoFrames(role', Next(mem, p, i))
  {
    Detach(mem, role, p, i);
    var c := Next(mem, p, i);
    var role1 := role[c := Root(role[p].level - 1, AllEntries(), map[])];
    PoolKept(next, head, npage, free, role, c, Root(role[p].level - 1, AllEntries(), map[]));
    PoolKept(next, head, npage, free, role1, p, Root(role[p].level, role[p].own - {i}, role[p].shared));
    NoFramesOfSub(mem, role, c);
    hide Trees, Pool, Next, Pte;
    FramesKeep(mem, mem, role, CutOff(role, p, i, c)) by {
      forall q | q in role && role[q].Frame? ensures role[q].table in role { assert FrameAt(mem, role, q); }
    }
  }

  /** Only whole tables hold frames. */
  lemma NoFramesOfSub(mem: Memory, role: Roles, c: int)
    requires Frames(mem, role) && c in role && !(role[c].Root? && role[c].level == 2)
    ensures NoFrames(role, c)
  {
    hide Pte, PX;
    forall q | q in role && role[q].Frame? ensures role[q].table != c {
      assert FrameAt(mem, role, q);
    }
  }

  ghost function CutOff(role: Roles, p: int, i: int, c: int): Roles
    requires p in role && role[p].Root?
  {
    role[c := Root(role[p].level - 1, AllEntries(), map[])][p := Root(role[p].level, role[p].own - {i}, role[p].shared)]
  }

  /** Which pages hang below entry i. */
  lemma ViaEntry(mem: Memory, role: Roles, p: int, i: int, q: int)
    requires Trees(mem, role) && p in role && role[p].Root? && q in role && role[q].Sub? && role[q].parent == p && role[q].idx == i
    ensures Entry(mem, p, i) != 0 && Next(mem, p, i) == q
  {
    assert PageAt(mem, role, q);
    EntryParts(q, PTE_V);
    hide Ppn, IsValid, Word;
    assert IsValid(PTE_V) && !IsValid(0);
  }

  /** Below a page that was cut off, levels run out. */
  lemma NotThree(mem: Memory, role: Roles, q: int, c: int)
    requires Trees(mem, role) && c in role && role[c].Root? && role[c].level <= 1 && q in role && role[q].Sub? && role[q].parent in role && role[role[q].parent].Sub?
    ensures role[role[q].parent].parent != c
  {
    assert PageAt(mem, role, q) && PageAt(mem, role, role[q].parent);
  }

  /** The pages below c after the cut are those that hung below entry i. */
  lemma CutUnder(mem: Memory, role0: Roles, role: Roles, p: int, s: set<int>, i: int, c: int, q: int)
    requires Trees(mem, role) && ClearedTo(role0, role, p, s) && p in role && role[p].Root? && q != p && i !in s
    requires Entry(mem, p, i) != 0 && c == Next(mem, p, i) && c in role && role[c] == Sub(role[p].level - 1, p, i) && c != p
    requires Trees(mem, CutOff(role, p, i, c)) && p in role0 && role0[p].Root?
    ensures Under(CutOff(role, p, i, c), q, c) <==> q in role && Under(role0, q, p) && Via(role0, q, p) == i
  {
    var role1 := CutOff(role, p, i, c);
    assert PageAt(mem, role, p);
    hide Trees, PX, Next;
    assert ClearedAt(role0, role, p, s, q) && ClearedAt(role0, role, p, s, c);
    if q in role {
      if Under(role1, q, c) {
        if q != c && role1[q].parent != c { NotThree(mem, role1, q, c); }
      }
      if Under(role0, q, p) && Via(role0, q, p) == i {
        assert role[q] == role0[q];
        if role0[q].parent == p {
          ViaEntry(mem, role, p, i, q);
        } else {
          var m := role0[q].parent;
          assert ClearedAt(role0, role, p, s, m);
          ViaEntry(mem, role, p, i, m);
        }
      }
    }
  }

  /** With the subtree below entry i gone too. */
  lemma ClearedMore(mem: Memory, role0: Roles, role: Roles, role2: Roles, p: int, s: set<int>, i: int, c: int)
    requires Trees(mem, role) && ClearedTo(role0, role, p, s) && p in role && role[p].Root? && p in role0 && role0[p].Root? && i !in s
    requires Entry(mem, p, i) != 0 && c == Next(mem, p, i) && c in role && role[c] == Sub(role[p].level - 1, p, i) && c != p
    requires Trees(mem, CutOff(role, p, i, c)) && Released(CutOff(role, p, i, c), role2, c)
    ensures ClearedTo(role0, role2, p, s + {i}) && p in role2 && role2[p] == Root(role[p].level, role[p].own - {i}, role[p].shared)
  {
    var role1, s' := CutOff(role, p, i, c), s + {i};
    assert ReleasedAt(role1, role2, c, p);
    hide Trees, Next;
    forall q ensures ClearedAt(role0, role2, p, s', q) {
      assert ClearedAt(role0, role, p, s, q) && ReleasedAt(role1, role2, c, q);
      if q != p { CutUnder(mem, role0, role, p, s, i, c, q); }
    }
  }

  lemma WordsMore(mem0: Memory, mem: Memory, mem2: Memory, role0: Roles, role: Roles, p: int, s: set<int>, i: int, c: int)
    requires Trees(mem, role) && ClearedTo(role0, role, p, s) && p in role && role[p].Root? && p in role0 && role0[p].Root? && i !in s
    requires Entry(mem, p, i) != 0 && c == Next(mem, p, i) && c in role && role[c] == Sub(role[p].level - 1, p, i) && c != p
    requires Trees(mem, CutOff(role, p, i, c)) && WordsTo(mem0, mem, role0, p, s) && WordsKept(mem, mem2, CutOff(role, p, i, c), c)
    ensures WordsTo(mem0, mem2, role0, p, s + {i})
  {
    var role1, s' := CutOff(role, p, i, c), s + {i};
    assert PageAt(mem, role, p);
    hide Trees, Next;
    assert !Under(role1, p, c);
    forall q ensures WordsAt(mem0, mem2, role0, p, s', q) {
      assert WordsAt(mem0, mem, role0, p, s, q) && ClearedAt(role0, role, p, s, q);
      if q != p { CutUnder(mem, role0, role, p, s, i, c, q); }
    }
  }

  /** Everything below p is gone when every entry with something below it has been dealt with. */
  lemma ClearedAll(mem: Memory, role: Roles, role': Roles, p: int, s: set<int>)
    requires Trees(mem, role) && p in role && role[p].Root? && ClearedTo(role, role', p, s) && p in role'
    requires role[p].level == 0 || forall j :: Owns(role, p, j) && Entry(mem, p, j) != 0 ==> j in s
    ensures Released(role, role'[p := Free], p)
  {
    var done := role'[p := Free];
    forall q ensures ReleasedAt(role, done, p, q) {
      assert ClearedAt(role, role', p, s, q) && PageAt(mem, role, q);
      if q in role && role[q].Sub? {
        var m := role[q].parent;
        assert PageAt(mem, role, m);
        if m == p { ViaEntry(mem, role, p, role[q].idx, q); }
        else if m in role && role[m].Sub? && role[m].parent == p { ViaEntry(mem, role, p, role[m].idx, m); }
      }
    }
  }

  lemma WordsDone(mem: Memory, mem1: Memory, mem2: Memory, role: Roles, p: int, s: set<int>)
    requires WordsTo(mem, mem1, role, p, s) && p in mem2 && mem2 == mem1[p := mem2[p]] && p in role
    ensures WordsKept(mem, mem2, role, p)
  {
    forall q | q in role && !Under(role, q, p) && q in mem ensures q in mem2 && mem2[q] == mem[q] {
      assert WordsAt(mem, mem1, role, p, s, q);
    }
  }

  lemma WordsStart(mem: Memory, role: Roles, p: int)
    ensures WordsTo(mem, mem, role, p, {})
  {
  }

  lemma ClearedNone(role: Roles, p: int)
    ensures ClearedTo(role, role, p, {})
  {
  }

  /** Words and roles when p's entry i, dealt with already, is overwritten. */
  lemma WordsZeroed(mem: Memory, mem1: Memory, mem2: Memory, role: Roles, p: int, s: set<int>, i: int)
    requires WordsTo(mem, mem1, role, p, s) && i in s && p in mem1 && |mem1[p]| == ENTRIES && 0 <= i < ENTRIES && mem2 == mem1[p := mem1[p][i := 0]]
    ensures WordsTo(mem, mem2, role, p, s)
  {
    forall q ensures WordsAt(mem, mem2, role, p, s, q) {
      assert WordsAt(mem, mem1, role, p, s, q);
    }
  }

  /** A pruned root can be handed to kfree. */
  lemma Retiring(mem: Memory, data: Bytes, next: map<int, int>, head: int, npage: int, free: seq<int>, role: Roles, p: int)
    requires Trees(mem, role) && Frames(mem, role) && Pool(next, head, npage, free, role) && Sized(data, role)
    requires p in role && role[p].Root? && NoFrames(role, p)
    requires forall i :: i in role[p].own ==> role[p].level == 0 || Entry(mem, p, i) == 0
    ensures var role' := role[p := Other];
      Trees(mem, role') && Frames(mem, role') && Pool(next, head, npage, free, role') && Sized(data, role')
  {
    Retire(mem, role, p, Other);
    PoolKept(next, head, npage, free, role, p, Other);
    hide Trees, Pool, Pte;
    FramesKeep(mem, mem, role, role[p := Other]) by {
      forall q | q in role && role[q].Frame? ensures role[q].table in role { assert FrameAt(mem, role, q); }
    }
  }

  /** The kind of entry found in an owned slot. */
  lemma SlotKind(mem: Memory, role: Roles, p: int, i: int)
    requires Trees(mem, role) && p in role && role[p].Root? && i in role[p].own && 0 <= i < ENTRIES
    ensures var e := Entry(mem, p, i);
      && p in mem && |mem[p]| == ENTRIES && 0 <= role[p].level <= 2
      && (e == 0 || IsValid(e)) && !IsValid(0)
      && (e != 0 && role[p].level > 0 ==> !IsLeaf(e) && Ppn(e) == Next(mem, p, i))
      && (e != 0 && role[p].level == 0 ==> IsLeaf(e))
  {
    assert !IsValid(0) && !IsLeaf(PTE_V);
    assert PageAt(mem, role, p) && SlotAt(mem, role, p, i);
    hide IsValid, IsLeaf, Word, Ppn;
    var e := Entry(mem, p, i);
    if e != 0 && role[p].level > 0 {
      assert PageAt(mem, role, Ppn(e));
      EntryParts(Ppn(e), PTE_V);
    }
  }

  lemma LeaflessBelow(mem0: Memory, mem: Memory, role0: Roles, role: Roles, p: int, s: set<int>, i: int, c: int)
    requires Trees(mem, role) && ClearedTo(role0, role, p, s) && WordsTo(mem0, mem, role0, p, s) && NoLeaf(mem0, role0, p)
    requires Trees(mem0, role0) && i !in s
    requires p in role && role[p].Root? && p in role0 && role0[p].Root? && Entry(mem, p, i) != 0 && c == Next(mem, p, i)
    requires c in role && role[c] == Sub(role[p].level - 1, p, i) && c != p && Trees(mem, CutOff(role, p, i, c)) && role[p].level == role0[p].level
    ensures NoLeaf(mem, CutOff(role, p, i, c), c)
  {
    var role1 := CutOff(role, p, i, c);
    hide Next;
    forall q, j ensures NoLeafAt(mem, role1, c, q, j) {
      assert ClearedAt(role0, role, p, s, q) && WordsAt(mem0, mem, role0, p, s, q) && NoLeafAt(mem0, role0, p, q, j);
      assert PageAt(mem0, role0, q);
      if q != p {
        hide Trees;
        CutUnder(mem, role0, role, p, s, i, c, q);
      }
    }
  }

  lemma NoLeafHere(mem0: Memory, mem: Memory, role0: Roles, p: int, s: set<int>, i: int)
    requires NoLeaf(mem0, role0, p) && WordsTo(mem0, mem, role0, p, s) && p in role0 && role0[p].Root? && 0 <= i < ENTRIES && i !in s
    ensures role0[p].level == 0 ==> Entry(mem, p, i) == 0
  {
    assert NoLeafAt(mem0, role0, p, p, i);
  }

  lemma NoFramesAfter(role1: Roles, role2: Roles, p: int, c: int)
    requires NoFrames(role1, p) && Released(role1, role2, c)
    ensures NoFrames(role2, p)
  {
    forall q | q in role2 && role2[q].Frame? ensures role2[q].table != p {
      assert ReleasedAt(role1, role2, c, q);
    }
  }

  lemma UndisturbedReleased(x: Bytes, y: Bytes, z: Bytes, role: Roles, role1: Roles, role2: Roles, p: int, i: int, c: int)
    requires Undisturbed(x, y, role) && Undisturbed(y, z, role2) && p in role && role[p].Root? && c in role && role[c].Sub?
    requires role1 == CutOff(role, p, i, c) && Released(role1, role2, c)
    ensures Undisturbed(x, z, role2)
  {
    forall q | q in role2 && !role2[q].Free? ensures q in role && !role[q].Free? {
      assert ReleasedAt(role1, role2, c, q);
    }
    UndisturbedOn(x, y, z, role, role2);
  }

  // ---- freewalk and kfreewalk ----

  /** How far the taking down of the table at p has come: the subtrees below the entries s are
      gone, and everything else is as it was. */
  ghost predicate Stripped(mem0: Memory, role0: Roles, data0: Bytes, mem: Memory, role: Roles, data: Bytes, p: int, s: set<int>)
  {
    && p in role0 && role0[p].Root? && p in role && role[p] == Root(role0[p].level, role0[p].own - s, role0[p].shared) && NoFrames(role, p)
    && ClearedTo(role0, role, p, s) && WordsTo(mem0, mem, role0, p, s) && Undisturbed(data0, data, role)
  }

  lemma StripStart(mem: Memory, role: Roles, data: Bytes, p: int)
    requires p in role && role[p].Root? && NoFrames(role, p)
    ensures Stripped(mem, role, data, mem, role, data, p, {})
  {
    ClearedNone(role, p);
    WordsStart(mem, role, p);
    assert role[p].own - {} == role[p].own;
  }

  /** The subtree c below entry i has just been freed. */
  lemma StripMore(mem0: Memory, role0: Roles, data0: Bytes, mem1: Memory, role1: Roles, data1: Bytes,
                  mem2: Memory, role2: Roles, data2: Bytes, p: int, s: set<int>, i: int, c: int)
    requires Stripped(mem0, role0, data0, mem1, role1, data1, p, s) && i !in s && Trees(mem1, role1)
    requires Entry(mem1, p, i) != 0 && c == Next(mem1, p, i) && c in role1 && role1[c] == Sub(role1[p].level - 1, p, i) && c != p
    requires Trees(mem1, CutOff(role1, p, i, c)) && Released(CutOff(role1, p, i, c), role2, c) && NoFrames(CutOff(role1, p, i, c), p)
    requires WordsKept(mem1, mem2, CutOff(role1, p, i, c), c) && Undisturbed(data1, data2, role2)
    ensures Stripped(mem0, role0, data0, mem2, role2, data2, p, s + {i})
  {
    hide Trees, ClearedTo, WordsTo, Released, WordsKept, NoFrames, Undisturbed, Next, Entry;
    ClearedMore(mem1, role0, role1, role2, p, s, i, c);
    WordsMore(mem0, mem1, mem2, role0, role1, p, s, i, c);
    NoFramesAfter(CutOff(role1, p, i, c), role2, p, c);
    UndisturbedReleased(data0, data1, data2, role1, CutOff(role1, p, i, c), role2, p, i, c);
    assert role0[p].own - s - {i} == role0[p].own - (s + {i});
  }

  lemma NotShared(mem: Memory, role: Roles, p: int, i: int)
    requires Trees(mem, role) && p in role && role[p].Root? && i in role[p].own
    ensures i !in role[p].shared
  {
    assert SlotAt(mem, role, p, i);
  }

  lemma NothingShared(mem: Memory, role: Roles, p: int)
    requires Trees(mem, role) && p in role && role[p].Root? && role[p].own == AllEntries()
    ensures role[p].shared == map[]
  {
    forall i ensures i !in role[p].shared {
      assert SlotAt(mem, role, p, i);
      if 0 <= i < ENTRIES { assert IsEntry(i); }
    }
  }

  /** pagetable[i] = 0, for an entry that was dealt with. */
  method ClearEntry(k: Kernel, p: int, i: int)
    requires k.Valid() && p in k.role && k.role[p].Root? && 0 <= i < ENTRIES && i !in k.role[p].own
    requires i !in k.role[p].shared
    modifies k`mem
    ensures k.Valid() && SameMaps(old(k.mem), k.mem, k.role)
    ensures p in old(k.mem) && |old(k.mem)[p]| == ENTRIES && k.mem == old(k.mem)[p := old(k.mem)[p][i := 0]]
  {
    hide Trees, Frames, Pool, Sized, SameMaps;
    Unowned(k.mem, k.role, p, i, 0);
    FramesSame(k.mem, k.mem[p := k.mem[p][i := 0]], k.role, k.role);
    k.mem := k.mem[p := k.mem[p][i := 0]];
  }

  /** kfree of a page whose entries have all been dealt with. */
  method FreeRoot(k: Kernel, p: int, ghost mem0: Memory, ghost role0: Roles, ghost data0: Bytes, ghost s: set<int>)
    requires k.Valid() && Trees(mem0, role0) && Stripped(mem0, role0, data0, k.mem, k.role, k.data, p, s)
    requires role0[p].level == 0 || forall j :: Owns(role0, p, j) && j !in s ==> Entry(mem0, p, j) == 0
    requires role0[p].own <= AllEntries()
    modifies k
    ensures k.Valid() && Released(role0, k.role, p) && WordsKept(mem0, k.mem, role0, p) && Undisturbed(data0, k.data, k.role)
  {
    assert PageAt(mem0, role0, p);
    hide Trees, Frames, Pool, Sized, SameMaps, NoFrames, Entry, ClearedTo, Released, WordsKept, Undisturbed;
    forall i | i in k.role[p].own ensures k.role[p].level == 0 || Entry(k.mem, p, i) == 0 {
      assert IsEntry(i);
      assert Owns(role0, p, i);
    }
    Retiring(k.mem, k.data, k.next, k.head, k.npage, k.free, k.role, p);
    ghost var mem1, role1, data1 := k.mem, k.role, k.data;
    ClearedAll(mem0, role0, role1, p, s);
    hide WordsTo;
    k.role := k.role[p := Other];
    k.KFree(p);
    WordsDone(mem0, mem1, k.mem, role0, p, s);
    assert k.role == role1[p := Free];
    UndisturbedOn(data0, data1, k.data, role1, k.role);
  }

  /** The turn of freewalk's loop that frees a subtree, up to the call; the rest is StripMore. */
  method CutChild(k: Kernel, p: int, i: int) returns (child: int)
    requires k.Valid() && p in k.role && k.role[p].Root? && i in k.role[p].own && 0 <= i < ENTRIES && k.role[p].level > 0
    requires Entry(k.mem, p, i) != 0 && NoFrames(k.role, p)
    modifies k`role
    ensures k.Valid() && child == Next(k.mem, p, i)
    ensures child in old(k.role) && old(k.role)[child] == Sub(old(k.role)[p].level - 1, p, i) && child != p
    ensures k.role == CutOff(old(k.role), p, i, child) && NoFrames(k.role, p) && NoFrames(k.role, child)
  {
    hide Trees, Frames, Pool, Sized, NoFrames, Ppn, IsValid, IsLeaf;
    SlotKind(k.mem, k.role, p, i);
    child := Ppn(Entry(k.mem, p, i));
    Cutting(k.mem, k.data, k.next, k.head, k.npage, k.free, k.role, p, i);
    k.role := CutOff(k.role, p, i, child);
  }

  /** freewalk: every page of a table without leaves is freed, and no other page is touched. */
  method FreeWalk(k: Kernel, p: int)
    requires k.Valid() && p in k.role && k.role[p].Root? && k.role[p].own == AllEntries()
    requires NoFrames(k.role, p) && NoLeaf(k.mem, k.role, p)
    modifies k
    ensures k.Valid() && Released(old(k.role), k.role, p) && WordsKept(old(k.mem), k.mem, old(k.role), p)
    ensures Undisturbed(old(k.data), k.data, k.role)
    decreases k.role[p].level
  {
    hide Trees, Frames, Pool, Sized, Word, IsValid, IsLeaf, Pte, PX, Next, ClearedTo, Released, WordsKept, NoFrames, NoLeaf, Undisturbed;
    ghost var mem0, role0, data0 := k.mem, k.role, k.data;
    ghost var s: set<int> := {};
    StripStart(mem0, role0, data0, p);
    NothingShared(mem0, role0, p);
    var i := 0;
    while i < ENTRIES
      invariant 0 <= i <= ENTRIES && k.Valid() && Stripped(mem0, role0, data0, k.mem, k.role, k.data, p, s)
      invariant (forall j :: j in s ==> 0 <= j < i) && (forall j :: 0 <= j < i && j !in s ==> Entry(mem0, p, j) == 0)
    {
      assert IsEntry(i);
      SlotKind(k.mem, k.role, p, i);
      NoLeafHere(mem0, k.mem, role0, p, s, i);
      var pte := Entry(k.mem, p, i);
      if IsValid(pte) && !IsLeaf(pte) {
        ghost var mem1, role1, data1 := k.mem, k.role, k.data;
        var child := CutChild(k, p, i);
        LeaflessBelow(mem0, mem1, role0, role1, p, s, i, child);
        FreeWalk(k, child);
        StripMore(mem0, role0, data0, mem1, role1, data1, k.mem, k.role, k.data, p, s, i, child);
        ghost var mem2 := k.mem;
        s := s + {i};
        ClearEntry(k, p, i);
        WordsZeroed(mem0, mem2, k.mem, role0, p, s, i);
      } else if IsValid(pte) {
        assert false;
      }
      i := i + 1;
    }
    FreeRoot(k, p, mem0, role0, data0, s);
  }

  /** kfreewalk: the same for a subtree whose leaves are to be left alone. */
  method KFreeWalk(k: Kernel, p: int)
    requires k.Valid() && p in k.role && k.role[p].Root? && k.role[p].own == AllEntries() && NoFrames(k.role, p)
    modifies k
    ensures k.Valid() && Released(old(k.role), k.role, p) && WordsKept(old(k.mem), k.mem, old(k.role), p)
    ensures Undisturbed(old(k.data), k.data, k.role)
    decreases k.role[p].level
  {
    hide Trees, Frames, Pool, Sized, Word, IsValid, IsLeaf, Pte, PX, Next, ClearedTo, Released, WordsKept, NoFrames, Undisturbed;
    ghost var mem0, role0, data0 := k.mem, k.role, k.data;
    ghost var s: set<int> := {};
    StripStart(mem0, role0, data0, p);
    NothingShared(mem0, role0, p);
    var i := 0;
    while i < ENTRIES
      invariant 0 <= i <= ENTRIES && k.Valid() && Stripped(mem0, role0, data0, k.mem, k.role, k.data, p, s)
      invariant (forall j :: j in s ==> 0 <= j < i) && (forall j :: 0 <= j < i && j !in s ==> Entry(mem0, p, j) == 0)
    {
      assert IsEntry(i);
      SlotKind(k.mem, k.role, p, i);
      var pte := Entry(k.mem, p, i);
      if IsValid(pte) && !IsLeaf(pte) {
        ghost var mem1, role1, data1 := k.mem, k.role, k.data;
        var child := CutChild(k, p, i);
        KFreeWalk(k, child);
        StripMore(mem0, role0, data0, mem1, role1, data1, k.mem, k.role, k.data, p, s, i, child);
        ghost var mem2 := k.mem;
        s := s + {i};
        ClearEntry(k, p, i);
        WordsZeroed(mem0, mem2, k.mem, role0, p, s, i);
      } else if IsValid(pte) {
        break;
      }
      i := i + 1;
    }
    FreeRoot(k, p, mem0, role0, data0, s);
  }

  // ---- whole tables ----

  /** Page q belongs to table t: one of its table pages, or a frame it holds. */
  ghost predicate Belongs(role: Roles, q: int, t: int)
  {
    Under(role, q, t) || (q in role && role[q].Frame? && role[q].table == t)
  }

  ghost predicate SurrenderedAt(role: Roles, role': Roles, t: int, q: int)
  {
    (q in role <==> q in role') && (q in role ==> role'[q] == if Belongs(role, q, t) then Free else role[q])
  }

  /** Every page that belonged to table t is free; no other page changed hands. */
  ghost predicate Surrendered(role: Roles, role': Roles, t: int)
  {
    forall q {:trigger SurrenderedAt(role, role', t, q)} :: SurrenderedAt(role, role', t, q)
  }

  /** Every table but t translates as before. */
  ghost predicate OtherMaps(mem: Memory, mem': Memory, role: Roles, t: int)
  {
    forall u, w {:trigger Pte(mem', u, w)} :: InTable(role, u, w) && u != t ==> Pte(mem', u, w) == Pte(mem, u, w)
  }

  lemma Indices(a: int, b: int, c: int)
    requires 0 <= a < ENTRIES && 0 <= b < ENTRIES && 0 <= c < ENTRIES
    ensures var v := a * 0x4_0000 + b * 0x200 + c;
      0 <= v < ALLVPN && PX(2, v) == a && PX(1, v) == b && PX(0, v) == c
  {
    var v := a * 0x4_0000 + b * 0x200 + c;
    assert v / 0x200 == a * 0x200 + b;
  }

  /** A table that translates nothing has no leaves. */
  lemma EmptyMap(mem: Memory, role: Roles, t: int)
    requires Trees(mem, role) && UserTable(role, t)
    requires forall v :: 0 <= v < ALLVPN ==> Pte(mem, t, v) == 0
    ensures NoLeaf(mem, role, t)
  {
    forall q, j ensures NoLeafAt(mem, role, t, q, j) {
      assert PageAt(mem, role, q) && PageAt(mem, role, t);
      if Under(role, q, t) && Level(role[q]) == 0 && 0 <= j < ENTRIES {
        var m := role[q].parent;
        assert PageAt(mem, role, m);
        var v := role[m].idx * 0x4_0000 + role[q].idx * 0x200 + j;
        Indices(role[m].idx, role[q].idx, j);
        InUser(role, t, v);
        hide PX, Trees, Ppn, IsValid, Word;
        LowFound(mem, role, t, v, q);
        assert PageAt(mem, role, q);
        assert Pte(mem, t, v) == Entry(mem, q, j);
      }
    }
  }

  lemma MapsBut(mem: Memory, mem': Memory, role: Roles, t: int)
    requires Trees(mem, role) && t in role && role[t].Root? && WordsKept(mem, mem', role, t)
    ensures OtherMaps(mem, mem', role, t)
  {
    hide Trees, Pte, PX;
    forall u, w | InTable(role, u, w) && u != t ensures Pte(mem', u, w) == Pte(mem, u, w) {
      OtherPath(mem, mem', role, t, u, w);
    }
  }

  lemma OtherMapsTrans(a: Memory, b: Memory, c: Memory, role: Roles, role': Roles, t: int)
    requires OtherMaps(a, b, role, t) && OtherMaps(b, c, role', t) && RootsIn(role, role')
    ensures OtherMaps(a, c, role, t)
  {
    hide Pte, PX;
    forall u, w | InTable(role, u, w) && u != t ensures Pte(c, u, w) == Pte(a, u, w) {
      assert InTable(role', u, w);
      assert Pte(b, u, w) == Pte(a, u, w);
    }
  }

  lemma UnmappedOthers(mem: Memory, mem': Memory, role: Roles, t: int, v0: int, n: int)
    requires Unmapped(mem, mem', role, t, v0, n)
    ensures OtherMaps(mem, mem', role, t)
  {
    hide Pte, PX;
  }

  /** First the frames in one range, which were all there were, then the table pages. */
  lemma Surrendering(role: Roles, role1: Roles, role2: Roles, t: int, v0: int, n: int)
    requires Freed(role, role1, t, v0, n, true) && Released(role1, role2, t)
    requires forall q :: q in role && role[q].Frame? && role[q].table == t ==> v0 <= role[q].v < v0 + n
    ensures Surrendered(role, role2, t)
  {
    forall q ensures SurrenderedAt(role, role2, t, q) {
      assert FreedAt(role, role1, t, v0, n, true, q) && ReleasedAt(role1, role2, t, q);
      if q in role && role[q].Sub? {
        assert FreedAt(role, role1, t, v0, n, true, role[q].parent);
      }
    }
  }

  lemma FramesWithin(mem: Memory, role: Roles, t: int, n: int)
    requires Frames(mem, role) && forall v :: n <= v < ALLVPN ==> Pte(mem, t, v) == 0
    ensures forall q :: q in role && role[q].Frame? && role[q].table == t ==> 0 <= role[q].v < 0 + n
  {
    hide Pte, PX;
    forall q | q in role && role[q].Frame? && role[q].table == t ensures 0 <= role[q].v < 0 + n {
      assert FrameAt(mem, role, q);
    }
  }

  lemma NoFramesFreed(role: Roles, role1: Roles, t: int, v0: int, n: int)
    requires Freed(role, role1, t, v0, n, true)
    requires forall q :: q in role && role[q].Frame? && role[q].table == t ==> v0 <= role[q].v < v0 + n
    ensures NoFrames(role1, t)
  {
    forall q | q in role1 && role1[q].Frame? ensures role1[q].table != t {
      assert FreedAt(role, role1, t, v0, n, true, q);
    }
  }

  lemma NowEmpty(mem: Memory, mem1: Memory, role: Roles, role1: Roles, t: int, n: int)
    requires UserTable(role, t) && Unmapped(mem, mem1, role, t, 0, n) && Freed(role, role1, t, 0, n, true)
    requires forall v :: n <= v < ALLVPN ==> Pte(mem, t, v) == 0
    ensures UserTable(role1, t) && forall v :: 0 <= v < ALLVPN ==> Pte(mem1, t, v) == 0
  {
    hide Pte, PX;
    assert FreedAt(role, role1, t, 0, n, true, t);
    forall v | 0 <= v < ALLVPN ensures Pte(mem1, t, v) == 0 {
      InUser(role, t, v);
      assert Pte(mem1, t, v) == if 0 <= v < n then 0 else Pte(mem, t, v);
    }
  }

  lemma ReadyHeld(mem: Memory, role: Roles, t: int, v: int)
    requires Holds(mem, role, t, v) && v < MAXVPN
    ensures Ready(mem, role, t, v, true)
  {
  }

  /** uvmfree: all that belongs to a user table is free afterwards, nothing else is. */
  method UvmFree(k: Kernel, t: int, sz: int)
    requires k.Valid() && UserTable(k.role, t) && 0 <= sz && Pages(sz) <= USERPAGES
    requires forall v :: 0 <= v < Pages(sz) ==> Holds(k.mem, k.role, t, v)
    requires forall v :: Pages(sz) <= v < ALLVPN ==> Pte(k.mem, t, v) == 0
    modifies k
    ensures k.Valid() && Surrendered(old(k.role), k.role, t) && OtherMaps(old(k.mem), k.mem, old(k.role), t)
    ensures Undisturbed(old(k.data), k.data, k.role)
  {
    hide Trees, Frames, Pool, Sized, Pte, PX, Released, WordsKept, NoFrames, NoLeaf, Undisturbed, Freed, Unmapped, Ready, OtherMaps, Surrendered, Holds;
    ghost var mem0, role0, data0 := k.mem, k.role, k.data;
    PagesOf(sz);
    var n := Pages(sz);
    forall v | 0 <= v < n ensures Ready(mem0, role0, t, v, true) {
      assert Holds(mem0, role0, t, v);
      ReadyHeld(mem0, role0, t, v);
    }
    FramesWithin(mem0, role0, t, n);
    FreedStart(mem0, data0, role0, t, 0, true);
    if sz > 0 {
      var _ := k.VmUnmap(t, 0, n, true, n);
    }
    ghost var mem1, role1, data1 := k.mem, k.role, k.data;
    NowEmpty(mem0, mem1, role0, role1, t, n);
    EmptyMap(mem1, role1, t);
    NoFramesFreed(role0, role1, t, 0, n);
    FreeWalk(k, t);
    Surrendering(role0, role1, k.role, t, 0, n);
    MapsBut(mem1, k.mem, role1, t);
    UnmappedOthers(mem0, mem1, role0, t, 0, n);
    FreedRoots(role0, role1, t, 0, n);
    OtherMapsTrans(mem0, mem1, k.mem, role0, role1, t);
    ReleasedFree(role1, k.role, t);
    UndisturbedOn(data0, data1, k.data, role1, k.role);
  }

  lemma ReleasedFree(role: Roles, role': Roles, t: int)
    requires Released(role, role', t)
    ensures forall p :: p in role' && !role'[p].Free? ==> p in role && !role[p].Free?
  {
    forall p | p in role' && !role'[p].Free? ensures p in role && !role[p].Free? {
      assert ReleasedAt(role, role', t, p);
    }
  }

  const VKVPN := 0x3EC_0000          // VKSTACK / PGSIZE

  lemma StackIndex()
    ensures PX(2, VKVPN) == STACKINDEX && VKVPN < MAXVPN && USERPAGES <= VKVPN && VKVPN * PGSIZE == 0x3E_C000_0000
  {
  }

  /** The only frame a kernel table holds is the stack, if it is to go too. */
  ghost predicate KernelFrames(role: Roles, kt: int, stack: bool)
  {
    forall q :: q in role && role[q].Frame? && role[q].table == kt ==> stack && role[q].v == VKVPN
  }

  lemma Owning(mem: Memory, role: Roles, p: int, s: set<int>)
    requires Trees(mem, role) && p in role && role[p].Root?
    requires forall j :: j in role[p].own && j !in s ==> Entry(mem, p, j) == 0
    ensures forall j :: Owns(role, p, j) && j !in s ==> Entry(mem, p, j) == 0
  {
  }

  /** The body of kvmfreeusr's loop, also used for the stack: a subtree is freed if there is one. */
  method DropSubtree(k: Kernel, p: int, i: int, clear: bool, ghost mem0: Memory, ghost role0: Roles, ghost data0: Bytes, ghost s: set<int>) returns (ghost s': set<int>)
    requires k.Valid() && Stripped(mem0, role0, data0, k.mem, k.role, k.data, p, s)
    requires i in role0[p].own && i !in s && 0 <= i < ENTRIES && role0[p].level == 2
    modifies k
    ensures k.Valid() && Stripped(mem0, role0, data0, k.mem, k.role, k.data, p, s')
    ensures s' == (if Entry(mem0, p, i) != 0 then s + {i} else s)
  {
    hide Trees, Frames, Pool, Sized, Word, IsValid, IsLeaf, Pte, PX, Next, ClearedTo, Released, WordsKept, NoFrames, Undisturbed;
    s' := s;
    SlotKind(k.mem, k.role, p, i);
    NotShared(k.mem, k.role, p, i);
    var pte := Entry(k.mem, p, i);
    if IsValid(pte) && !IsLeaf(pte) {
      ghost var mem1, role1, data1 := k.mem, k.role, k.data;
      var child := CutChild(k, p, i);
      KFreeWalk(k, child);
      StripMore(mem0, role0, data0, mem1, role1, data1, k.mem, k.role, k.data, p, s, i, child);
      s' := s + {i};
      if clear {
        ghost var mem2 := k.mem;
        ClearEntry(k, p, i);
        WordsZeroed(mem0, mem2, k.mem, role0, p, s', i);
      }
    }
  }

  /** kvmfree: all that belongs to a kernel table is free afterwards, nothing else is: not the
      frames of the user pages it maps, and not the subtables it shares. */
  method KvmFree(k: Kernel, kt: int, stackFree: bool)
    requires k.Valid() && kt in k.role && k.role[kt].Root? && k.role[kt].level == 2 && k.role[kt].own == (if stackFree then {0, 1, STACKINDEX} else {0, 1})
    requires KernelFrames(k.role, kt, stackFree) && (stackFree ==> Holds(k.mem, k.role, kt, VKVPN))
    modifies k
    ensures k.Valid() && Surrendered(old(k.role), k.role, kt) && OtherMaps(old(k.mem), k.mem, old(k.role), kt)
    ensures Undisturbed(old(k.data), k.data, k.role)
  {
    hide Trees, Frames, Pool, Sized, Pte, PX, Released, WordsKept, NoFrames, Undisturbed, Freed, Unmapped, Ready, OtherMaps, Surrendered, Holds, ClearedTo, WordsTo, IsLeaf, IsValid;
    ghost var mem0, role0, data0 := k.mem, k.role, k.data;
    StackIndex();
    FreedStart(mem0, data0, role0, kt, VKVPN, true);
    if stackFree {
      ReadyHeld(mem0, role0, kt, VKVPN);
      var _ := k.VmUnmap(kt, VKVPN * PGSIZE, 1, true, 1);
    }
    ghost var n := if stackFree then 1 else 0;
    ghost var mem1, role1, data1 := k.mem, k.role, k.data;
    KernelFramesFreed(role0, role1, kt, stackFree, n);
    StripStart(mem1, role1, data1, kt);
    ghost var s: set<int> := {};
    if stackFree {
      s := DropSubtree(k, kt, STACKINDEX, false, mem1, role1, data1, s);
    }
    s := DropSubtree(k, kt, 0, true, mem1, role1, data1, s);
    s := DropSubtree(k, kt, 1, true, mem1, role1, data1, s);
    Owning(mem1, role1, kt, s);
    assert IsEntry(0) && IsEntry(1) && IsEntry(STACKINDEX);
    FreeRoot(k, kt, mem1, role1, data1, s);
    Surrendering(role0, role1, k.role, kt, VKVPN, n);
    MapsBut(mem1, k.mem, role1, kt);
    UnmappedOthers(mem0, mem1, role0, kt, VKVPN, n);
    FreedRoots(role0, role1, kt, VKVPN, n);
    OtherMapsTrans(mem0, mem1, k.mem, role0, role1, kt);
    ReleasedFree(role1, k.role, kt);
    UndisturbedOn(data0, data1, k.data, role1, k.role);
  }

  lemma KernelFramesFreed(role: Roles, role1: Roles, kt: int, stack: bool, n: int)
    requires KernelFrames(role, kt, stack) && Freed(role, role1, kt, VKVPN, n, true) && n == (if stack then 1 else 0)
    requires kt in role && role[kt].Root?
    ensures NoFrames(role1, kt) && kt in role1 && role1[kt] == role[kt]
  {
    assert FreedAt(role, role1, kt, VKVPN, n, true, kt);
    forall q | q in role1 && role1[q].Frame? ensures role1[q].table != kt {
      assert FreedAt(role, role1, kt, VKVPN, n, true, q);
    }
  }
}
