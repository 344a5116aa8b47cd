/** The cache of directory entries (kernel/fat32.c 440-482, 632-686, 708-727, 761-798, 918-961)
    and renaming within it (kernel/sysfile.c 418-496).  Each operation is one atomic step. */
module EntryCache {
  import opened Rings
  import FatChanges
  import FatData
  import FatNames

  type Name = seq<FatData.byte>

  const DOT := FatChanges.DOT
  const DOTDOT := FatChanges.DOTDOT

  /** A slot of ecache.entries; slot 0 is the root directory.  A valid of 0 means nothing is
      cached, 1 a file or directory, -1 one that has been removed. */
  datatype Entry = Entry(valid: int, refs: int, parent: int, name: Name)

  type Entries = seq<Entry>

  /** The directory tree on the disk: which file a name in a directory leads to. */
  type Disk = map<(int, Name), int>

  /** Whether a scan finds the record that emake stores for this name at the given slot. */
  predicate Kept(name: Name, place: int)
  {
    name != [] && name[0] != FatNames.EMPTY_ENTRY && place >= 2
  }

  const NULL := -1
  const ROOTNODE := 0

  // ---- reference counts ----

  /** x is in use and so holds a reference to e. */
  ghost predicate Kid(es: Entries, x: int, e: int)
  {
    1 <= x < |es| && es[x].refs > 0 && es[x].valid != 0 && es[x].parent == e
  }

  /** How many of the slots 1 .. n hold a reference to e. */
  ghost function Kids(es: Entries, e: int, n: int): nat
  {
    if n <= 0 then 0 else Kids(es, e, n - 1) + if Kid(es, n, e) then 1 else 0
  }

  lemma {:induction false} KidsBut(es: Entries, es': Entries, e: int, x: int, n: int)
    requires 1 <= x && forall y :: y != x ==> Kid(es', y, e) == Kid(es, y, e)
    ensures n < x ==> Kids(es', e, n) == Kids(es, e, n)
    ensures x <= n ==> Kids(es', e, n) + (if Kid(es, x, e) then 1 else 0) == Kids(es, e, n) + if Kid(es', x, e) then 1 else 0
  {
    if n > 0 { KidsBut(es, es', e, x, n - 1); }
  }

  lemma {:induction false} KidCounts(es: Entries, e: int, x: int, n: int)
    requires Kid(es, x, e) && x <= n
    ensures Kids(es, e, n) > 0
  {
    if x < n { KidCounts(es, e, x, n - 1); }
  }

  ghost predicate RefAt(es: Entries, handles: seq<int>, extra: int, e: int)
  {
    0 <= e < |es| && e < |handles| ==>
      handles[e] >= 0 && es[e].refs == handles[e] + Kids(es, e, |es| - 1) + if e == extra then 1 else 0
  }

  /** Each count is the number of outside handles and of cached children in use (and one more
      for extra, while that is being given up). */
  ghost predicate Refs(es: Entries, handles: seq<int>, extra: int)
  {
    |handles| == |es| && forall e {:trigger RefAt(es, handles, extra, e)} :: RefAt(es, handles, extra, e)
  }

  // ---- the tree of parents ----

  /** Slots whose parent field means something. */
  ghost predicate Live(es: Entries, e: int)
  {
    0 <= e < |es| && (e == 0 || es[e].valid == 1 || (es[e].valid != 0 && es[e].refs > 0))
  }

  ghost predicate LiveAt(es: Entries, e: int)
  {
    Live(es, e) && e != 0 ==> Live(es, es[e].parent) && (es[e].valid == 1 ==> es[es[e].parent].valid == 1)
  }

  /** Following parents n times from e leads to the root, and not before. */
  ghost predicate Climbs(es: Entries, e: int, n: nat)
    decreases n
  {
    if n == 0 then e == 0 else 1 <= e < |es| && Climbs(es, es[e].parent, n - 1)
  }

  ghost predicate RootedAt(es: Entries, e: int)
  {
    Live(es, e) ==> exists n: nat :: Climbs(es, e, n)
  }

  ghost predicate Tree(es: Entries)
  {
    && |es| > 0 && es[0].valid == 1 && es[0].parent == NULL
    && (forall e {:trigger LiveAt(es, e)} :: LiveAt(es, e))
    && (forall e {:trigger RootedAt(es, e)} :: RootedAt(es, e))
  }

  // ---- the order of use ----

  ghost predicate OrderAt(es: Entries, order: seq<int>, e: int)
  {
    1 <= e < |es| && es[e].valid == 1 && es[e].refs == 0 && 1 <= es[e].parent < |es| && es[es[e].parent].refs == 0 ==>
      Place(order, es[e].parent) < Place(order, e)
  }

  /** An unreferenced child was put away before its unreferenced parent. */
  ghost predicate Aged(es: Entries, order: seq<int>)
  {
    forall e {:trigger OrderAt(es, order, e)} :: OrderAt(es, order, e)
  }

  // ---- what the slots stand for ----

  ghost predicate NodeAt(es: Entries, node: seq<int>, disk: Disk, e: int)
  {
    1 <= e < |es| && es[e].valid == 1 && 0 <= es[e].parent < |node| && e < |node| ==>
      (node[es[e].parent], es[e].name) in disk && disk[(node[es[e].parent], es[e].name)] == node[e]
  }

  ghost predicate UniqueAt(es: Entries, node: seq<int>, e: int, f: int)
  {
    0 <= e < |es| && 0 <= f < |es| && e != f && es[e].valid == 1 && es[f].valid == 1 && e < |node| && f < |node| ==> node[e] != node[f]
  }

  /** The disk is a tree: no file is in two places, and the root in none. */
  ghost predicate DiskTree(disk: Disk)
  {
    forall k :: k in disk ==> disk[k] != ROOTNODE && forall j :: j in disk && disk[j] == disk[k] ==> j == k
  }

  /** Every cached entry is what the disk has under its name in its parent, and no file is
      cached twice. */
  ghost predicate Mirrors(es: Entries, node: seq<int>, disk: Disk)
  {
    && |node| == |es| && |es| > 0 && node[0] == ROOTNODE && DiskTree(disk)
    && (forall e {:trigger NodeAt(es, node, disk, e)} :: NodeAt(es, node, disk, e))
    && (forall e, f {:trigger UniqueAt(es, node, e, f)} :: UniqueAt(es, node, e, f))
  }

  // ---- giving a reference back ----

  /** What eput does to the counts: the entry's, and if that was the last reference its
      parent's in turn. */
  ghost function PutEntries(es: Entries, e: int, n: nat): Entries
    requires 0 <= e < |es| && (es[e].valid != 0 ==> Climbs(es, e, n))
    decreases n
  {
    if e == 0 || es[e].valid == 0 || es[e].refs != 1 then es[e := es[e].(refs := es[e].refs - 1)]
    else
      ClimbsRefs(es, e, 0, es[e].parent, n - 1);
      ClimbsInside(es, es[e].parent, n - 1);
      PutEntries(es[e := es[e].(refs := 0)], es[e].parent, n - 1)
  }

  /** And to the order of use. */
  ghost function PutOrder(es: Entries, order: seq<int>, e: int, n: nat): seq<int>
    requires 0 <= e < |es| && (es[e].valid != 0 ==> Climbs(es, e, n))
    decreases n
  {
    if e == 0 || es[e].valid == 0 || es[e].refs != 1 then order
    else
      ClimbsRefs(es, e, 0, es[e].parent, n - 1);
      ClimbsInside(es, es[e].parent, n - 1);
      PutOrder(es[e := es[e].(refs := 0)], ToFront(order, e), es[e].parent, n - 1)
  }

  lemma ClimbsInside(es: Entries, e: int, n: nat)
    requires Climbs(es, e, n) && |es| > 0
    ensures 0 <= e < |es|
  {
  }

  /** Counts do not matter for climbing. */
  lemma {:induction false} ClimbsRefs(es: Entries, x: int, r: int, e: int, n: nat)
    requires Climbs(es, e, n) && 0 <= x < |es|
    ensures Climbs(es[x := es[x].(refs := r)], e, n)
    decreases n
  {
    if n > 0 { ClimbsRefs(es, x, r, es[e].parent, n - 1); }
  }

  const NOBODY := -2

  lemma RootedRefs(es: Entries, es': Entries, x: int, r: int)
    requires Tree(es) && 0 <= x < |es| && es' == es[x := es[x].(refs := r)]
    requires forall e :: Live(es', e) ==> Live(es, e)
    ensures forall e :: RootedAt(es', e)
  {
    forall e ensures RootedAt(es', e) {
      assert RootedAt(es, e);
      if Live(es', e) {
        var n: nat :| Climbs(es, e, n);
        ClimbsRefs(es, x, r, e, n);
      }
    }
  }

  /** The last reference to e goes: its parent has one to give up now. */
  lemma LastRefs(es: Entries, handles: seq<int>, e: int)
    requires Refs(es, handles, e) && 1 <= e < |es| && es[e].refs == 1 && es[e].valid != 0 && es[e].parent != e
    ensures Refs(es[e := es[e].(refs := 0)], handles, es[e].parent)
    ensures 0 <= es[e].parent < |es| ==> es[es[e].parent].refs > 0
  {
    var es', p := es[e := es[e].(refs := 0)], es[e].parent;
    forall f ensures RefAt(es', handles, p, f) {
      assert RefAt(es, handles, e, f);
      KidsBut(es, es', f, e, |es| - 1);
    }
    if 0 <= p < |es| {
      assert RefAt(es, handles, e, p);
      KidCounts(es, p, e, |es| - 1);
    }
  }

  lemma LastTree(es: Entries, handles: seq<int>, e: int)
    requires Refs(es, handles, e) && Tree(es) && 1 <= e < |es| && es[e].refs == 1 && es[e].valid != 0
    ensures Tree(es[e := es[e].(refs := 0)])
  {
    var es' := es[e := es[e].(refs := 0)];
    RootedRefs(es, es', e, 0);
    forall f ensures LiveAt(es', f) {
      assert LiveAt(es, f);
      if Live(es, f) && f != 0 && es[f].parent == e && es[f].valid != 1 {
        assert RefAt(es, handles, e, e);
        KidCounts(es, e, f, |es| - 1);
      }
    }
  }

  lemma LastAged(es: Entries, order: seq<int>, e: int)
    requires Aged(es, order) && Tree(es) && 1 <= e < |es| && es[e].refs == 1 && (forall x :: 1 <= x < |es| ==> x in order)
    requires 0 < es[e].parent < |es| ==> es[es[e].parent].refs > 0
    requires es[e].parent != e
    ensures Aged(es[e := es[e].(refs := 0)], ToFront(order, e))
  {
    var es', order' := es[e := es[e].(refs := 0)], ToFront(order, e);
    forall f ensures OrderAt(es', order', f) {
      assert OrderAt(es, order, f);
      if 1 <= f < |es| && 1 <= es[f].parent < |es| {
        ToFrontKeeps(order, e, es[f].parent, f);
      }
    }
  }

  lemma RefsMirror(es: Entries, node: seq<int>, disk: Disk, e: int, r: int)
    requires Mirrors(es, node, disk) && 0 <= e < |es|
    ensures Mirrors(es[e := es[e].(refs := r)], node, disk)
  {
    var es' := es[e := es[e].(refs := r)];
    forall f ensures NodeAt(es', node, disk, f) { assert NodeAt(es, node, disk, f); }
    forall f, g ensures UniqueAt(es', node, f, g) { assert UniqueAt(es, node, f, g); }
  }

  /** A reference goes that was not the last, or was to the root, or to an empty slot. */
  lemma LessRefs(es: Entries, handles: seq<int>, e: int)
    requires Refs(es, handles, e) && 0 <= e < |es| && (e == 0 || es[e].valid == 0 || es[e].refs != 1)
    ensures es[e].refs >= 1 && Refs(es[e := es[e].(refs := es[e].refs - 1)], handles, NOBODY)
  {
    var es' := es[e := es[e].(refs := es[e].refs - 1)];
    assert RefAt(es, handles, e, e);
    forall f ensures RefAt(es', handles, NOBODY, f) {
      assert RefAt(es, handles, e, f);
      KidsBut(es, es', f, if e == 0 then 1 else e, |es| - 1);
    }
  }

  lemma LessTree(es: Entries, e: int)
    requires Tree(es) && 0 <= e < |es| && es[e].refs >= 1 && (e == 0 || es[e].valid == 0 || es[e].refs != 1)
    ensures Tree(es[e := es[e].(refs := es[e].refs - 1)])
  {
    var es' := es[e := es[e].(refs := es[e].refs - 1)];
    RootedRefs(es, es', e, es[e].refs - 1);
    forall f ensures LiveAt(es', f) { assert LiveAt(es, f); }
  }

  lemma LessAged(es: Entries, order: seq<int>, e: int)
    requires Tree(es) && Aged(es, order) && 0 <= e < |es| && es[e].refs >= 1 && (e == 0 || es[e].valid == 0 || es[e].refs != 1)
    ensures Aged(es[e := es[e].(refs := es[e].refs - 1)], order)
  {
    var es' := es[e := es[e].(refs := es[e].refs - 1)];
    forall f ensures OrderAt(es', order, f) { assert OrderAt(es, order, f) && LiveAt(es, f); }
  }

  // ---- a hit ----

  ghost function HitEntries(es: Entries, e: int): Entries
    requires 0 <= e < |es|
  {
    var es1 := es[e := es[e].(refs := es[e].refs + 1)];
    if es[e].refs == 0 && 0 <= es[e].parent < |es| then
      es1[es[e].parent := es1[es[e].parent].(refs := es1[es[e].parent].refs + 1)]
    else es1
  }

  lemma HitRefs(es: Entries, handles: seq<int>, e: int)
    requires Refs(es, handles, NOBODY) && 1 <= e < |es| && es[e].valid == 1 && 0 <= es[e].parent < |es| && es[e].parent != e
    requires es[e].refs == 0 ==> es[es[e].parent].refs > 0
    ensures Refs(HitEntries(es, e), handles[e := handles[e] + 1], NOBODY) && es[e].refs >= 0
  {
    var es', handles', p := HitEntries(es, e), handles[e := handles[e] + 1], es[e].parent;
    assert RefAt(es, handles, NOBODY, e);
    forall f ensures RefAt(es', handles', NOBODY, f) {
      assert RefAt(es, handles, NOBODY, f);
      KidsBut(es, es', f, e, |es| - 1);
    }
  }

  lemma MoreRefs(es: Entries, es': Entries, order: seq<int>, node: seq<int>, disk: Disk)
    requires |es'| == |es| && forall f :: 0 <= f < |es| ==> es'[f] == es[f].(refs := es'[f].refs) && es'[f].refs >= es[f].refs
    requires Tree(es) && Aged(es, order) && Mirrors(es, node, disk)
    requires forall f :: Live(es', f) ==> Live(es, f)
    requires forall f :: 0 <= f < |es| ==> es[f].refs >= 0
    ensures Tree(es') && Aged(es', order) && Mirrors(es', node, disk)
  {
    forall f ensures LiveAt(es', f) { assert LiveAt(es, f); }
    forall f ensures RootedAt(es', f) {
      assert RootedAt(es, f);
      if Live(es', f) {
        var n: nat :| Climbs(es, f, n);
        ClimbsSame(es, es', f, n);
      }
    }
    forall f ensures OrderAt(es', order, f) { assert OrderAt(es, order, f); }
    forall f ensures NodeAt(es', node, disk, f) { assert NodeAt(es, node, disk, f); }
    forall f, g ensures UniqueAt(es', node, f, g) { assert UniqueAt(es, node, f, g); }
  }

  /** The way to the root runs through live slots only. */
  lemma {:induction false} ClimbsBut(es: Entries, es': Entries, e: int, n: nat)
    requires Climbs(es, e, n) && |es'| == |es| && Live(es, e)
    requires forall f :: Live(es, f) && f != 0 ==> Live(es, es[f].parent)
    requires forall f :: Live(es, f) && f != 0 ==> es'[f].parent == es[f].parent
    ensures Climbs(es', e, n)
    decreases n
  {
    if n > 0 { ClimbsBut(es, es', es[e].parent, n - 1); }
  }

  lemma {:induction false} ClimbsSame(es: Entries, es': Entries, e: int, n: nat)
    requires Climbs(es, e, n) && |es'| == |es| && forall f :: 0 <= f < |es| ==> es'[f].parent == es[f].parent
    ensures Climbs(es', e, n)
    decreases n
  {
    if n > 0 { ClimbsSame(es, es', es[e].parent, n - 1); }
  }

  // ---- recycling ----

  /** The slot nearest the tail that nobody uses. */
  ghost predicate Oldest(es: Entries, order: seq<int>, x: int)
  {
    1 <= x < |es| && es[x].refs == 0 && forall y :: 1 <= y < |es| && Place(order, x) < Place(order, y) ==> es[y].refs != 0
  }

  /** It is never a slot that a valid entry still names as its parent. */
  lemma Orphanless(es: Entries, handles: seq<int>, order: seq<int>, x: int)
    requires Refs(es, handles, NOBODY) && Aged(es, order) && Oldest(es, order, x)
    ensures forall f :: 1 <= f < |es| && Live(es, f) ==> es[f].parent != x
  {
    forall f | 1 <= f < |es| && Live(es, f) ensures es[f].parent != x {
      assert RefAt(es, handles, NOBODY, f) && RefAt(es, handles, NOBODY, x) && OrderAt(es, order, f);
      if es[f].parent == x && es[f].refs > 0 { KidCounts(es, x, f, |es| - 1); }
    }
  }

  ghost function Recycled(es: Entries, x: int): Entries
    requires 0 <= x < |es|
  {
    es[x := es[x].(valid := 0, refs := 1)]
  }

  lemma RecycledRefs(es: Entries, handles: seq<int>, x: int)
    requires Refs(es, handles, NOBODY) && 1 <= x < |es| && es[x].refs == 0
    ensures Refs(Recycled(es, x), handles[x := 1], NOBODY) && handles[x] == 0
  {
    var es', handles' := Recycled(es, x), handles[x := 1];
    assert RefAt(es, handles, NOBODY, x);
    forall f ensures RefAt(es', handles', NOBODY, f) {
      assert RefAt(es, handles, NOBODY, f);
      KidsBut(es, es', f, x, |es| - 1);
    }
  }

  lemma RecycledRest(es: Entries, handles: seq<int>, order: seq<int>, node: seq<int>, disk: Disk, x: int)
    requires Refs(es, handles, NOBODY) && Tree(es) && Aged(es, order) && Mirrors(es, node, disk) && Oldest(es, order, x)
    ensures Tree(Recycled(es, x)) && Aged(Recycled(es, x), order) && Mirrors(Recycled(es, x), node, disk)
  {
    var es' := Recycled(es, x);
    Orphanless(es, handles, order, x);
    assert forall f :: Live(es', f) ==> Live(es, f) && f != x;
    forall f ensures LiveAt(es', f) { assert LiveAt(es, f); }
    assert forall f :: Live(es', f) && f != 0 ==> Live(es', es'[f].parent) by {
      forall f | Live(es', f) && f != 0 ensures Live(es', es'[f].parent) { assert LiveAt(es', f); }
    }
    forall f ensures RootedAt(es', f) {
      assert RootedAt(es, f);
      if Live(es', f) {
        var n: nat :| Climbs(es, f, n);
        ClimbsSame(es, es', f, n);
      }
    }
    forall f ensures OrderAt(es', order, f) { assert OrderAt(es, order, f) && LiveAt(es, f); }
    forall f ensures NodeAt(es', node, disk, f) { assert NodeAt(es, node, disk, f); }
    forall f, g ensures UniqueAt(es', node, f, g) { assert UniqueAt(es, node, f, g); }
  }

  // ---- a slot takes on a file ----

  ghost function Adopted(es: Entries, x: int, dp: int, name: Name): Entries
    requires 0 <= x < |es| && 0 <= dp < |es|
  {
    es[x := Entry(1, es[x].refs, dp, name)][dp := es[dp].(refs := es[dp].refs + 1)]
  }

  /** x is a fresh slot, about to stand for name in the directory dp. */
  ghost predicate Blank(es: Entries, x: int, dp: int)
  {
    1 <= x < |es| && 0 <= dp < |es| && x != dp && es[x].valid == 0 && es[x].refs == 1 && es[dp].valid == 1 && es[dp].refs > 0
  }

  lemma AdoptedRefs(es: Entries, handles: seq<int>, x: int, dp: int, name: Name)
    requires Refs(es, handles, NOBODY) && Blank(es, x, dp)
    ensures Refs(Adopted(es, x, dp, name), handles, NOBODY)
  {
    var es' := Adopted(es, x, dp, name);
    forall f ensures RefAt(es', handles, NOBODY, f) {
      assert RefAt(es, handles, NOBODY, f);
      KidsBut(es, es', f, x, |es| - 1);
    }
  }

  lemma AdoptedTree(es: Entries, order: seq<int>, x: int, dp: int, name: Name)
    requires Tree(es) && Aged(es, order) && Blank(es, x, dp)
    ensures Tree(Adopted(es, x, dp, name)) && Aged(Adopted(es, x, dp, name), order)
  {
    var es' := Adopted(es, x, dp, name);
    assert forall f :: Live(es', f) ==> f == x || Live(es, f);
    assert forall f :: Live(es, f) && f != 0 ==> Live(es, es[f].parent) by {
      forall f | Live(es, f) && f != 0 ensures Live(es, es[f].parent) { assert LiveAt(es, f); }
    }
    forall f ensures LiveAt(es', f) { assert LiveAt(es, f); }
    forall f ensures RootedAt(es', f) {
      assert RootedAt(es, f) && RootedAt(es, dp);
      if Live(es, f) {
        var n: nat :| Climbs(es, f, n);
        ClimbsBut(es, es', f, n);
      } else if Live(es', f) {
        var n: nat :| Climbs(es, dp, n);
        ClimbsBut(es, es', dp, n);
        assert Climbs(es', x, n + 1);
      }
    }
    forall f ensures OrderAt(es', order, f) { assert OrderAt(es, order, f) && LiveAt(es, f); }
  }

  /** Nothing valid in the cache goes by this name in dp. */
  ghost predicate Missed(es: Entries, dp: int, name: Name)
  {
    forall f :: 1 <= f < |es| && es[f].valid == 1 ==> !(es[f].parent == dp && es[f].name == name)
  }

  /** A file on the disk that was missed is nowhere in the cache. */
  lemma NotCached(es: Entries, node: seq<int>, disk: Disk, dp: int, name: Name, f: int)
    requires Tree(es) && Mirrors(es, node, disk) && Missed(es, dp, name) && 0 <= dp < |es| && es[dp].valid == 1
    requires (node[dp], name) in disk && 0 <= f < |es| && es[f].valid == 1
    ensures node[f] != disk[(node[dp], name)]
  {
    assert NodeAt(es, node, disk, f) && LiveAt(es, f);
    if f != 0 {
      assert UniqueAt(es, node, es[f].parent, dp);
    }
  }

  lemma AdoptedMirror(es: Entries, node: seq<int>, disk: Disk, x: int, dp: int, name: Name)
    requires Tree(es) && Mirrors(es, node, disk) && Blank(es, x, dp) && Missed(es, dp, name) && (node[dp], name) in disk
    ensures Mirrors(Adopted(es, x, dp, name), node[x := disk[(node[dp], name)]], disk)
  {
    var es', node' := Adopted(es, x, dp, name), node[x := disk[(node[dp], name)]];
    forall f ensures NodeAt(es', node', disk, f) { assert NodeAt(es, node, disk, f) && LiveAt(es, f); }
    forall f, g ensures UniqueAt(es', node', f, g) {
      assert UniqueAt(es, node, f, g);
      if 0 <= f < |es| && es[f].valid == 1 { NotCached(es, node, disk, dp, name, f); }
      if 0 <= g < |es| && es[g].valid == 1 { NotCached(es, node, disk, dp, name, g); }
    }
  }

  /** A new file on the disk, under a name that is not cached. */
  lemma Created(es: Entries, node: seq<int>, disk: Disk, dp: int, name: Name, n: int)
    requires Tree(es) && Mirrors(es, node, disk) && 0 <= dp < |es| && es[dp].valid == 1 && Missed(es, dp, name)
    requires n != ROOTNODE && forall k :: k in disk ==> disk[k] != n
    ensures Mirrors(es, node, disk[(node[dp], name) := n])
  {
    var disk' := disk[(node[dp], name) := n];
    forall f ensures NodeAt(es, node, disk', f) {
      assert NodeAt(es, node, disk, f) && LiveAt(es, f);
      if 1 <= f < |es| && es[f].valid == 1 { assert UniqueAt(es, node, es[f].parent, dp); }
    }
  }

  // ---- removing ----

  ghost predicate Childless(disk: Disk, n: int)
  {
    forall k :: k in disk ==> k.0 != n
  }

  /** No other valid slot goes by the key of e. */
  lemma OwnKey(es: Entries, node: seq<int>, disk: Disk, e: int, f: int)
    requires Tree(es) && Mirrors(es, node, disk) && 1 <= e < |es| && es[e].valid == 1 && 1 <= f < |es| && es[f].valid == 1 && e != f
    ensures 0 <= es[e].parent < |es| && 0 <= es[f].parent < |es|
    ensures (node[es[f].parent], es[f].name) != (node[es[e].parent], es[e].name)
  {
    assert LiveAt(es, e) && LiveAt(es, f) && NodeAt(es, node, disk, e) && NodeAt(es, node, disk, f) && UniqueAt(es, node, e, f);
  }

  lemma RemovedRefs(es: Entries, handles: seq<int>, e: int)
    requires Refs(es, handles, NOBODY) && 1 <= e < |es| && es[e].valid == 1
    ensures Refs(es[e := es[e].(valid := -1)], handles, NOBODY)
  {
    var es' := es[e := es[e].(valid := -1)];
    forall f ensures RefAt(es', handles, NOBODY, f) {
      assert RefAt(es, handles, NOBODY, f);
      KidsBut(es, es', f, e, |es| - 1);
    }
  }

  lemma RemovedRest(es: Entries, order: seq<int>, node: seq<int>, disk: Disk, e: int)
    requires Tree(es) && Aged(es, order) && Mirrors(es, node, disk) && 1 <= e < |es| && es[e].valid == 1 && es[e].refs > 0
    requires 0 <= es[e].parent < |es| && Childless(disk, node[e])
    ensures Tree(es[e := es[e].(valid := -1)]) && Aged(es[e := es[e].(valid := -1)], order)
    ensures Mirrors(es[e := es[e].(valid := -1)], node, disk - {(node[es[e].parent], es[e].name)})
  {
    var es', disk' := es[e := es[e].(valid := -1)], disk - {(node[es[e].parent], es[e].name)};
    assert forall f :: Live(es', f) <==> Live(es, f);
    forall f ensures LiveAt(es', f) {
      assert LiveAt(es, f) && NodeAt(es, node, disk, f);
    }
    forall f ensures RootedAt(es', f) {
      assert RootedAt(es, f);
      if Live(es', f) {
        var n: nat :| Climbs(es, f, n);
        ClimbsSame(es, es', f, n);
      }
    }
    forall f ensures OrderAt(es', order, f) { assert OrderAt(es, order, f); }
    forall f ensures NodeAt(es', node, disk', f) {
      assert NodeAt(es, node, disk, f);
      if 1 <= f < |es| && es[f].valid == 1 && f != e { OwnKey(es, node, disk, e, f); }
    }
    forall f, g ensures UniqueAt(es', node, f, g) { assert UniqueAt(es, node, f, g); }
  }

  // ---- renaming ----

  /** x lies on the way from e to the root. */
  ghost predicate OnWay(es: Entries, e: int, x: int, n: nat)
    decreases n
  {
    e == x || (n > 0 && 0 <= e < |es| && OnWay(es, es[e].parent, x, n - 1))
  }

  ghost function Moved(es: Entries, src: int, pdst: int, name: Name): Entries
    requires 0 <= src < |es| && 0 <= pdst < |es|
  {
    var es1 := es[pdst := es[pdst].(refs := es[pdst].refs + 1)];
    es1[src := es1[src].(parent := pdst, name := name)]
  }

  lemma {:induction false} ClimbsAway(es: Entries, es': Entries, x: int, e: int, n: nat)
    requires Climbs(es, e, n) && !OnWay(es, e, x, n) && |es'| == |es|
    requires forall f :: 0 <= f < |es| && f != x ==> es'[f].parent == es[f].parent
    ensures Climbs(es', e, n)
    decreases n
  {
    if n > 0 { ClimbsAway(es, es', x, es[e].parent, n - 1); }
  }

  /** After the move everything still leads to the root. */
  lemma {:induction false} ClimbsMoved(es: Entries, es': Entries, src: int, pdst: int, np: nat, e: int, m: nat)
    requires Climbs(es, e, m) && Climbs(es', src, np) && |es'| == |es|
    requires forall f :: 0 <= f < |es| && f != src ==> es'[f].parent == es[f].parent
    ensures exists k: nat :: Climbs(es', e, k)
    decreases m
  {
    if e == src {
    } else if m > 0 {
      ClimbsMoved(es, es', src, pdst, np, es[e].parent, m - 1);
      var k: nat :| Climbs(es', es[e].parent, k);
      assert Climbs(es', e, k + 1);
    } else {
      assert Climbs(es', e, 0);
    }
  }

  lemma MovedTree(es: Entries, order: seq<int>, src: int, pdst: int, name: Name, n: nat)
    requires Tree(es) && Aged(es, order) && 1 <= src < |es| && es[src].valid == 1 && es[src].refs > 0
    requires 0 <= pdst < |es| && es[pdst].valid == 1 && es[pdst].refs > 0 && src != pdst
    requires Climbs(es, pdst, n) && !OnWay(es, pdst, src, n)
    ensures Tree(Moved(es, src, pdst, name)) && Aged(Moved(es, src, pdst, name), order)
  {
    var es' := Moved(es, src, pdst, name);
    assert forall f :: Live(es', f) <==> Live(es, f);
    forall f ensures LiveAt(es', f) { assert LiveAt(es, f); }
    ClimbsAway(es, es', src, pdst, n);
    assert Climbs(es', src, n + 1);
    forall f ensures RootedAt(es', f) {
      assert RootedAt(es, f);
      if Live(es', f) {
        var m: nat :| Climbs(es, f, m);
        ClimbsMoved(es, es', src, pdst, n + 1, f, m);
      }
    }
    forall f ensures OrderAt(es', order, f) { assert OrderAt(es, order, f); }
  }

  /** The reference src held to its old parent is now one to give up. */
  lemma MovedRefs(es: Entries, handles: seq<int>, src: int, pdst: int, name: Name)
    requires Refs(es, handles, NOBODY) && 1 <= src < |es| && es[src].valid == 1 && es[src].refs > 0 && 0 <= pdst < |es| && src != pdst && es[pdst].refs > 0
    requires 0 <= es[src].parent < |es| && es[src].parent != src
    ensures Refs(Moved(es, src, pdst, name), handles, es[src].parent)
  {
    var es' := Moved(es, src, pdst, name);
    forall f ensures RefAt(es', handles, es[src].parent, f) {
      assert RefAt(es, handles, NOBODY, f);
      KidsBut(es, es', f, src, |es| - 1);
    }
  }

  ghost function MovedDisk(disk: Disk, old': (int, Name), new': (int, Name), n: int): Disk
  {
    (disk - {old'})[new' := n]
  }

  lemma MovedMirror(es: Entries, node: seq<int>, disk: Disk, src: int, pdst: int, name: Name)
    requires Tree(es) && Mirrors(es, node, disk) && 1 <= src < |es| && es[src].valid == 1 && 0 <= pdst < |es| && src != pdst
    requires 0 <= es[src].parent < |es| && es[pdst].valid == 1 && Missed(es, pdst, name)
    ensures Mirrors(Moved(es, src, pdst, name), node, MovedDisk(disk, (node[es[src].parent], es[src].name), (node[pdst], name), node[src]))
  {
    var es', disk' := Moved(es, src, pdst, name), MovedDisk(disk, (node[es[src].parent], es[src].name), (node[pdst], name), node[src]);
    assert NodeAt(es, node, disk, src);
    forall f ensures NodeAt(es', node, disk', f) {
      assert NodeAt(es, node, disk, f) && LiveAt(es, f);
      if 1 <= f < |es| && es[f].valid == 1 && f != src {
        OwnKey(es, node, disk, src, f);
        assert UniqueAt(es, node, es[f].parent, pdst);
      }
    }
    forall f, g ensures UniqueAt(es', node, f, g) { assert UniqueAt(es, node, f, g); }
  }

  // ---- the cache itself ----

  datatype Lookup = Hit(ep: int) | Missing | NoSlot

  lemma NoRefs(es: Entries, handles: seq<int>)
    requires Refs(es, handles, NOBODY)
    ensures forall f :: 0 <= f < |es| ==> es[f].refs >= handles[f] >= 0
  {
    forall f | 0 <= f < |es| ensures es[f].refs >= handles[f] >= 0 { assert RefAt(es, handles, NOBODY, f); }
  }

  /** A slot in use that is not empty has a parent in use. */
  lemma ParentInUse(es: Entries, handles: seq<int>, e: int)
    requires Refs(es, handles, NOBODY) && Tree(es) && 1 <= e < |es| && es[e].valid != 0 && es[e].refs > 0
    ensures 0 <= es[e].parent < |es| && es[es[e].parent].refs > 0 && es[e].parent != e
  {
    assert LiveAt(es, e) && RefAt(es, handles, NOBODY, es[e].parent);
    KidCounts(es, es[e].parent, e, |es| - 1);
    NotOwnParent(es, e);
  }

  lemma NotOwnParent(es: Entries, e: int)
    requires Tree(es) && Live(es, e) && e != 0
    ensures es[e].parent != e && 0 <= es[e].parent < |es|
  {
    assert LiveAt(es, e) && RootedAt(es, e);
    var n: nat :| Climbs(es, e, n);
    if es[e].parent == e { Cycle(es, e, n); }
  }

  lemma {:induction false} Cycle(es: Entries, e: int, n: nat)
    requires Climbs(es, e, n) && 1 <= e < |es| && es[e].parent == e
    ensures false
    decreases n
  {
    if n > 0 { Cycle(es, e, n - 1); }
  }

  function EmptySlots(n: nat): (es: Entries)
    ensures |es| == n + 1 && es[0] == Entry(1, 0, NULL, []) && forall i :: 1 <= i <= n ==> es[i] == Entry(0, 0, NULL, [])
  {
    seq(n + 1, i => Entry(if i == 0 then 1 else 0, 0, NULL, []))
  }

  lemma NothingCached(n: nat, order: seq<int>, disk: Disk)
    requires DiskTree(disk)
    ensures var es := EmptySlots(n);
      Refs(es, seq(n + 1, i => 0), NOBODY) && Tree(es) && Aged(es, order) && Mirrors(es, seq(n + 1, i => ROOTNODE), disk)
  {
    var es, zeros := EmptySlots(n), seq(n + 1, i => 0);
    forall e ensures RefAt(es, zeros, NOBODY, e) {
      NoKids(es, e, n);
    }
    forall e ensures RootedAt(es, e) {
      if Live(es, e) { assert Climbs(es, 0, 0); }
    }
  }

  lemma {:induction false} NoKids(es: Entries, e: int, n: nat)
    requires forall i :: 1 <= i < |es| ==> es[i].refs == 0
    ensures Kids(es, e, n) == 0
  {
    if n > 0 { NoKids(es, e, n - 1); }
  }

  class Cache {
    var entries: Entries
    var next: Links
    var prev: Links
    var node: seq<int>          // which file a slot stands for
    var disk: Disk
    var lost: set<(int, Name)>  // names in disk that no scan finds
    ghost var order: seq<int>
    ghost var handles: seq<int>

    ghost predicate Inv(extra: int)
      reads this
    {
      |entries| > 0 && Ring(next, prev, order, |entries| - 1)
      && Refs(entries, handles, extra) && Tree(entries) && Aged(entries, order) && Mirrors(entries, node, disk)
    }

    ghost predicate Valid()
      reads this
    {
      Inv(NOBODY)
    }

    /** The end of fat32_init: n empty slots are put on the ring. */
    constructor (n: nat, disk: Disk)
      requires DiskTree(disk)
      ensures Valid() && |entries| == n + 1 && this.disk == disk && lost == {} && handles == seq(n + 1, i => 0)
    {
      entries := EmptySlots(n);
      next, prev := seq(n + 1, i => 0), seq(n + 1, i => 0);
      node := seq(n + 1, i => ROOTNODE);
      this.disk, lost := disk, {};
      order, handles := [], seq(n + 1, i => 0);
      new;
      assert [0] + order == [0];
      var de := 1;
      while de <= n
        invariant 1 <= de <= n + 1 && entries == EmptySlots(n) && this.disk == disk
        invariant |next| == n + 1 && Round(next, prev, [0] + order) && (forall x :: x in order <==> 1 <= x < de)
        invariant node == seq(n + 1, i => ROOTNODE) && handles == seq(n + 1, i => 0)
        modifies `next, `prev, `order
      {
        PushFront(de);
        de := de + 1;
      }
      NothingCached(n, order, disk);
      hide Refs, Tree, Aged, Mirrors, Round;
    }

    /** The list surgery of fat32_init. */
    method PushFront(de: int)
      requires 1 <= de < |next| && Round(next, prev, [0] + order) && de !in order
      modifies `next, `prev, `order
      ensures |next| == old(|next|) && Round(next, prev, [0] + order) && order == [de] + old(order)
    {
      Rings.Pushed(next, prev, [0] + order, de);
      assert [0, de] + ([0] + order)[1..] == [0] + ([de] + order);
      hide Round;
      order := [de] + order;
      next := next[de := next[0]];
      prev := prev[de := 0];
      prev := prev[next[0] := de];
      next := next[0 := de];
    }

    /** The list surgery of eput. */
    method MoveToFront(e: int)
      requires |entries| > 0 && Ring(next, prev, order, |entries| - 1) && 1 <= e < |entries|
      modifies `next, `prev, `order
      ensures Ring(next, prev, order, |entries| - 1) && order == ToFront(old(order), e)
    {
      MovedToFront(next, prev, order, |entries| - 1, e);
      order := ToFront(order, e);
      var after, before := next[e], prev[e];
      prev := prev[after := before];
      next := next[before := after];
      next := next[e := next[0]];
      prev := prev[e := 0];
      prev := prev[next[0] := e];
      next := next[0 := e];
    }

    /** eput, for a reference that is counted as extra: the entry's count drops; if that was the
        last one the entry moves to the front and its parent is put in turn. */
    method Put(e: int, ghost n: nat)
      requires 0 <= e < |entries| && Inv(e) && (entries[e].valid != 0 ==> Climbs(entries, e, n))
      modifies `entries, `next, `prev, `order
      ensures Valid()
      ensures entries == PutEntries(old(entries), e, n) && order == PutOrder(old(entries), old(order), e, n)
      decreases n
    {
      hide Ring, Refs, Tree, Aged, Mirrors;
      if e != 0 && entries[e].valid != 0 && entries[e].refs == 1 {
        LivePut(entries, handles, e);
        MoveToFront(e);
        var eparent := entries[e].parent;
        LastRefs(entries, handles, e);
        LastTree(entries, handles, e);
        OnRing(old(next), old(prev), old(order), |entries| - 1);
        LastAged(entries, old(order), e);
        RefsMirror(entries, node, disk, e, 0);
        ClimbsRefs(entries, e, 0, eparent, n - 1);
        entries := entries[e := entries[e].(refs := entries[e].refs - 1)];
        if entries[e].refs == 0 {
          Put(eparent, n - 1);
        }
        return;
      }
      LessRefs(entries, handles, e);
      LessTree(entries, e);
      LessAged(entries, order, e);
      RefsMirror(entries, node, disk, e, entries[e].refs - 1);
      entries := entries[e := entries[e].(refs := entries[e].refs - 1)];
    }

    /** eput by a holder of e. */
    method EPut(e: int)
      requires Valid() && 0 <= e < |entries| && |handles| == |entries| && handles[e] > 0
      modifies `entries, `next, `prev, `order, `handles
      ensures Valid() && handles == old(handles)[e := old(handles)[e] - 1]
      ensures OnlyRefs(old(entries), entries)
    {
      hide Ring, Refs, Tree, Aged, Mirrors;
      HandleGone(entries, handles, e);
      ghost var n: nat := 0;
      if entries[e].valid != 0 {
        n := WayUp(entries, handles, e);
      }
      handles := handles[e := handles[e] - 1];
      ghost var es := entries;
      Put(e, n);
      PutOnlyRefs(es, e, n);
    }

    /** edup */
    method EDup(e: int)
      requires Valid() && 0 <= e < |entries| && |handles| == |entries| && entries[e].refs > 0
      modifies `entries, `handles
      ensures Valid() && handles == old(handles)[e := old(handles)[e] + 1]
      ensures entries == old(entries)[e := old(entries)[e].(refs := old(entries)[e].refs + 1)]
    {
      hide Ring, Refs, Tree, Aged, Mirrors;
      DupRefs(entries, handles, e);
      NoRefs(entries, handles);
      MoreRefs(entries, entries[e := entries[e].(refs := entries[e].refs + 1)], order, node, disk);
      handles := handles[e := handles[e] + 1];
      entries := entries[e := entries[e].(refs := entries[e].refs + 1)];
    }

    /** eget's first loop, from the most recently used slot on. */
    method FindCached(dp: int, name: Name) returns (ep: int)
      requires |entries| > 0 && Ring(next, prev, order, |entries| - 1)
      ensures ep != 0 ==> 1 <= ep < |entries| && entries[ep].valid == 1 && entries[ep].parent == dp && entries[ep].name == name
      ensures ep == 0 ==> Missed(entries, dp, name)
    {
      ghost var i := 0;
      ep := next[0];
      First(next, prev, order, |entries| - 1);
      while ep != 0
        invariant 0 <= i <= |order| && ep == (if i < |order| then order[i] else 0) && (ep == 0 ==> i == |order|)
        invariant forall j :: 0 <= j < i ==> 0 <= order[j] < |entries| && !(entries[order[j]].valid == 1 && entries[order[j]].parent == dp && entries[order[j]].name == name)
        decreases |order| - i
      {
        Along(next, prev, order, |entries| - 1, i);
        if entries[ep].valid == 1 && entries[ep].parent == dp && entries[ep].name == name {
          return;
        }
        ep := next[ep];
        i := i + 1;
      }
      forall f | 1 <= f < |entries| ensures !(entries[f].valid == 1 && entries[f].parent == dp && entries[f].name == name) {
        PlaceOf(order, f);
      }
    }

    /** Its second loop, from the least recently used slot on. */
    method FindUnused() returns (ep: int)
      requires |entries| > 0 && Ring(next, prev, order, |entries| - 1)
      ensures ep != 0 ==> Oldest(entries, order, ep)
      ensures ep == 0 ==> forall f :: 1 <= f < |entries| ==> entries[f].refs != 0
    {
      ghost var i := |order| - 1;
      ep := prev[0];
      Last(next, prev, order, |entries| - 1);
      while ep != 0
        invariant -1 <= i < |order| && ep == (if 0 <= i then order[i] else 0) && (ep == 0 ==> i == -1)
        invariant forall j :: i < j < |order| ==> 0 <= order[j] < |entries| && entries[order[j]].refs != 0
        decreases i
      {
        Along(next, prev, order, |entries| - 1, i);
        if entries[ep].refs == 0 {
          OldestHere(entries, next, prev, order, i);
          return;
        }
        ep := prev[ep];
        i := i - 1;
      }
      forall f | 1 <= f < |entries| ensures entries[f].refs != 0 {
        PlaceOf(order, f);
      }
    }

    /** eget: the cached entry for name in dp, with one more reference, or else a blank slot. */
    method EGet(dp: int, name: Name) returns (ep: int, hit: bool)
      requires Valid() && 0 <= dp < |entries| && entries[dp].refs > 0
      modifies `entries, `handles
      ensures Valid() && |entries| == |old(entries)|
      ensures ep == 0 ==> !hit && entries == old(entries) && handles == old(handles) && forall f :: 1 <= f < |entries| ==> entries[f].refs != 0
      ensures ep != 0 ==> 1 <= ep < |entries| && |handles| == |old(handles)| == |entries| && handles == old(handles)[ep := old(handles)[ep] + 1]
      ensures hit ==>
        && ep != 0 && old(entries)[ep].valid == 1 && old(entries)[ep].parent == dp && old(entries)[ep].name == name
        && OnlyRefs(old(entries), entries) && entries[ep].refs > 0
      ensures ep != 0 && !hit ==>
        && entries == Recycled(old(entries), ep) && Missed(old(entries), dp, name) && Oldest(old(entries), order, ep)
    {
      hide Ring, Refs, Tree, Aged, Mirrors;
      ep := FindCached(dp, name);
      if ep != 0 {
        HitReady(entries, handles, dp, ep);
        HitRefs(entries, handles, ep);
        NoRefs(entries, handles);
        MoreRefs(entries, HitEntries(entries, ep), order, node, disk);
        var first := entries[ep].refs == 0;
        handles := handles[ep := handles[ep] + 1];
        entries := entries[ep := entries[ep].(refs := entries[ep].refs + 1)];
        if first {
          var p := entries[ep].parent;
          entries := entries[p := entries[p].(refs := entries[p].refs + 1)];
        }
        return ep, true;
      }
      ep := FindUnused();
      hit := false;
      if ep != 0 {
        RecycledRefs(entries, handles, ep);
        RecycledRest(entries, handles, order, node, disk, ep);
        HandleCount(entries, handles);
        handles := handles[ep := 1];
        entries := entries[ep := entries[ep].(refs := 1, valid := 0)];
      }
    }

    /** dirlookup: the disk's answer, from the cache if it is there. */
    method DirLookup(dp: int, name: Name) returns (r: Lookup)
      requires Valid() && 0 <= dp < |entries| && |handles| == |entries| && handles[dp] > 0 && entries[dp].valid != 0
      modifies `entries, `next, `prev, `order, `handles, `node
      ensures Valid() && |entries| == |old(entries)| && entries[dp].valid == old(entries)[dp].valid
      ensures HeldSame(old(entries), entries, old(handles))
      ensures |node| == |old(node)| && (forall f :: 0 <= f < |entries| && old(handles)[f] > 0 ==> node[f] == old(node)[f])
      ensures r == NoSlot ==> forall f :: 1 <= f < |entries| ==> old(entries)[f].refs != 0
      ensures r != Missing ==> r == NoSlot || (0 <= r.ep < |entries| && handles == old(handles)[r.ep := old(handles)[r.ep] + 1])
      ensures r == Missing || r == NoSlot ==> handles == old(handles)
      ensures name == DOT ==> r == Hit(dp)
      ensures name == DOTDOT ==> r == Hit(if dp == 0 then 0 else old(entries)[dp].parent)
      ensures name != DOT && name != DOTDOT && old(entries)[dp].valid != 1 ==> r == Missing
      ensures name != DOT && name != DOTDOT && old(entries)[dp].valid == 1 && r != NoSlot ==>
        (r.Hit? <==> !Missed(old(entries), dp, name) || ((node[dp], name) in disk && (node[dp], name) !in lost))
        && (r.Hit? ==> (node[dp], name) in disk && node[r.ep] == disk[(node[dp], name)] && 1 <= r.ep && entries[r.ep].valid == 1 && entries[r.ep].parent == dp && entries[r.ep].name == name)
    {
      hide Ring, Refs, Tree, Aged, Mirrors;
      HeldRefs(entries, handles, dp);
      MirrorSize(entries, node, disk);
      if name == DOT {
        EDup(dp);
        return Hit(dp);
      } else if name == DOTDOT {
        if dp == 0 {
          EDup(0);
          return Hit(0);
        }
        ParentInUse(entries, handles, dp);
        var p := entries[dp].parent;
        EDup(p);
        return Hit(p);
      }
      if entries[dp].valid != 1 {
        return Missing;
      }
      r := LookupChild(dp, name);
    }

    /** ep->parent = edup(dp), and the fields filled in. */
    method Adopt(ep: int, dp: int, name: Name)
      requires Valid() && Blank(entries, ep, dp) && Missed(entries, dp, name) && |node| == |entries| && (node[dp], name) in disk
      modifies `entries, `node
      ensures Valid() && entries == Adopted(old(entries), ep, dp, name) && node == old(node)[ep := disk[(old(node)[dp], name)]]
    {
      hide Ring, Refs, Tree, Aged, Mirrors;
      AdoptedRefs(entries, handles, ep, dp, name);
      AdoptedTree(entries, order, ep, dp, name);
      AdoptedMirror(entries, node, disk, ep, dp, name);
      ghost var es := entries;
      node := node[ep := disk[(node[dp], name)]];
      entries := entries[dp := entries[dp].(refs := entries[dp].refs + 1)];
      entries := entries[ep := entries[ep].(parent := dp)];
      entries := entries[ep := entries[ep].(name := name)];
      entries := entries[ep := entries[ep].(valid := 1)];
      assert entries == Adopted(es, ep, dp, name);
    }

    /** dirlookup for a name other than "." and "..". */
    method LookupChild(dp: int, name: Name) returns (r: Lookup)
      requires Valid() && 0 <= dp < |entries| && |handles| == |entries| && entries[dp].refs > 0 && entries[dp].valid == 1 && |node| == |entries|
      modifies `entries, `next, `prev, `order, `handles, `node
      ensures Valid() && |entries| == |old(entries)| && entries[dp].valid == 1
      ensures |node| == |old(node)| && (forall f :: 0 <= f < |entries| && old(handles)[f] > 0 ==> node[f] == old(node)[f])
      ensures node[dp] == old(node)[dp] && HeldSame(old(entries), entries, old(handles))
      ensures r == NoSlot ==> entries == old(entries) && forall f :: 1 <= f < |entries| ==> old(entries)[f].refs != 0
      ensures r == Missing ==> Emptied(old(entries), entries, old(handles)) && node == old(node) && Missed(entries, dp, name)
      ensures r.Hit? ==> 0 <= r.ep < |entries| && handles == old(handles)[r.ep := old(handles)[r.ep] + 1]
      ensures !r.Hit? ==> handles == old(handles)
      ensures r != NoSlot ==> (r.Hit? <==> !Missed(old(entries), dp, name) || ((node[dp], name) in disk && (node[dp], name) !in lost))
      ensures r.Hit? ==> (node[dp], name) in disk && node[r.ep] == disk[(node[dp], name)] && 1 <= r.ep && entries[r.ep].valid == 1 && entries[r.ep].parent == dp && entries[r.ep].name == name
    {
      hide Ring, Refs, Tree, Aged, Mirrors, Oldest;
      ghost var es0, handles0 := entries, handles;
      NoRefs(es0, handles0);
      var ep, hit := EGet(dp, name);
      if ep == 0 { return NoSlot; }
      if hit {
        HitNode(entries, node, disk, ep);
        return Hit(ep);
      }
      OldestUnheld(es0, handles0, order, ep);
      BlankNow(es0, dp, ep);
      MissedStill(es0, dp, name, ep);
      if (node[dp], name) in disk && (node[dp], name) !in lost {
        Adopt(ep, dp, name);
        return Hit(ep);
      }
      ghost var es1 := entries;
      EPut(ep);
      assert handles == handles0;
      MissedAfter(es1, entries, dp, name);
      EmptiedOne(es0, es1, entries, handles0, ep);
      r := Missing;
    }

    /** ealloc: the file of that name in dp, created on the disk if dirlookup does not find it.
        place is the slot at which its scan ends. */
    method EAlloc(dp: int, name: Name, file: int, place: int) returns (r: Lookup)
      requires Valid() && 0 <= dp < |entries| && |handles| == |entries| && handles[dp] > 0 && entries[dp].valid != 0 && |node| == |entries|
      requires name != DOT && name != DOTDOT && file != ROOTNODE
      requires forall k :: k in disk ==> disk[k] != file
      modifies this
      ensures Valid() && |entries| == |old(entries)|
      ensures HeldSame(old(entries), entries, old(handles)) && HeldNodes(old(node), node, old(handles))
      ensures old(entries)[dp].valid != 1 ==> r == Missing
      ensures old(entries)[dp].valid == 1 ==> r != Missing && |node| == |old(node)| && node[dp] == old(node)[dp]
      ensures r.Hit? ==>
        && (var key := (node[dp], name);
            if !Missed(old(entries), dp, name) || (key in old(disk) && key !in old(lost)) then disk == old(disk) && lost == old(lost)
            else disk == old(disk)[key := file] && lost == if Kept(name, place) then old(lost) - {key} else old(lost) + {key})
        && 1 <= r.ep < |entries| && (node[dp], name) in disk && node[r.ep] == disk[(node[dp], name)]
        && handles == old(handles)[r.ep := old(handles)[r.ep] + 1]
        && entries[r.ep].valid == 1 && entries[r.ep].parent == dp && entries[r.ep].name == name
      ensures !r.Hit? ==> disk == old(disk) && lost == old(lost) && handles == old(handles)
      ensures r == NoSlot ==> forall f :: 1 <= f < |entries| ==> entries[f].refs != 0
    {
      hide Ring, Refs, Tree, Aged, Mirrors, Oldest, Missed;
      if entries[dp].valid != 1 { return Missing; }
      HeldRefs(entries, handles, dp);
      r := LookupChild(dp, name);
      if r != Missing { return; }
      HandleCount(entries, handles);
      HeldRefs(entries, handles, dp);
      MirrorSize(entries, node, disk);
      r := CreateChild(dp, name, file, place);
    }

    /** The rest of ealloc, when dirlookup has found nothing. */
    method CreateChild(dp: int, name: Name, file: int, place: int) returns (r: Lookup)
      requires Valid() && 0 <= dp < |entries| && |handles| == |entries| && entries[dp].refs > 0 && entries[dp].valid == 1 && |node| == |entries|
      requires Missed(entries, dp, name) && file != ROOTNODE && forall k :: k in disk ==> disk[k] != file
      modifies this
      ensures Valid() && |entries| == |old(entries)| && |node| == |old(node)| && node[dp] == old(node)[dp] && r != Missing
      ensures HeldSame(old(entries), entries, old(handles)) && HeldNodes(old(node), node, old(handles))
      ensures r.Hit? ==>
        && disk == old(disk)[(node[dp], name) := file] && 1 <= r.ep < |entries| && node[r.ep] == file
        && lost == (if Kept(name, place) then old(lost) - {(node[dp], name)} else old(lost) + {(node[dp], name)})
        && handles == old(handles)[r.ep := old(handles)[r.ep] + 1]
        && entries[r.ep].valid == 1 && entries[r.ep].parent == dp && entries[r.ep].name == name
      ensures !r.Hit? ==> disk == old(disk) && lost == old(lost) && handles == old(handles)
      ensures r == NoSlot ==> forall f :: 1 <= f < |entries| ==> entries[f].refs != 0
    {
      hide Ring, Refs, Tree, Aged, Mirrors, Oldest;
      ghost var es0, handles0 := entries, handles;
      NoRefs(es0, handles);
      var ep, hit := EGet(dp, name);
      if ep == 0 { return NoSlot; }
      assert !hit;
      OldestUnheld(es0, handles0, order, ep);
      BlankNow(es0, dp, ep);
      MissedStill(es0, dp, name, ep);
      MirrorSize(entries, node, disk);
      Created(entries, node, disk, dp, name, file);
      var key := (node[dp], name);
      disk := disk[key := file];
      lost := if Kept(name, place) then lost - {key} else lost + {key};
      Adopt(ep, dp, name);
      r := Hit(ep);
    }

    /** eremove, of a file or of an empty directory. */
    method ERemove(e: int)
      requires Valid() && 1 <= e < |entries| && |handles| == |entries| && handles[e] > 0 && |node| == |entries|
      requires entries[e].valid == 1 ==> Childless(disk, node[e])
      requires entries[e].valid == 1 && 0 <= entries[e].parent < |node| ==> (node[entries[e].parent], entries[e].name) !in lost
      modifies `entries, `disk
      ensures Valid() && (old(entries)[e].valid != 1 ==> entries == old(entries) && disk == old(disk))
      ensures old(entries)[e].valid == 1 ==>
        && 0 <= old(entries)[e].parent < |node| && entries == old(entries)[e := old(entries)[e].(valid := -1)]
        && disk == old(disk) - {(node[old(entries)[e].parent], old(entries)[e].name)}
    {
      hide Ring, Refs, Tree, Aged, Mirrors;
      if entries[e].valid != 1 { return; }
      HeldRefs(entries, handles, e);
      HitNode(entries, node, disk, e);
      RemovedRefs(entries, handles, e);
      RemovedRest(entries, order, node, disk, e);
      disk := disk - {(node[entries[e].parent], entries[e].name)};
      entries := entries[e := entries[e].(valid := -1)];
    }

    /** The loop of sys_rename that climbs from the new parent to the root. */
    method Above(src: int, pdst: int, ghost n: nat) returns (found: bool)
      requires |entries| > 0 && entries[0].parent == NULL && Climbs(entries, pdst, n) && src >= 0
      ensures found <==> OnWay(entries, pdst, src, n)
    {
      var ep := pdst;
      ghost var m := n;
      while ep != NULL
        invariant ep == NULL || Climbs(entries, ep, m)
        invariant OnWay(entries, pdst, src, n) <==> ep != NULL && OnWay(entries, ep, src, m)
        decreases ep != NULL, m
      {
        if ep == src { return true; }
        ep := entries[ep].parent;
        if m > 0 { m := m - 1; }
      }
      found := false;
    }

    /** eput of the new parent and of the source, at the end of sys_rename. */
    method PutBoth(src: int, pdst: int)
      requires Valid() && |handles| == |entries| && 0 <= src < |entries| && 0 <= pdst < |entries|
      requires handles[src] > 0 && handles[pdst] > 0 && (src == pdst ==> handles[src] > 1)
      modifies `entries, `next, `prev, `order, `handles
      ensures Valid() && Returned(old(handles), handles, src, pdst) && OnlyRefs(old(entries), entries)
    {
      hide Ring, Refs, Tree, Aged, Mirrors;
      EPut(pdst);
      EPut(src);
    }

    /** sys_rename, given the source and the new parent it has found, for a target name that is
        not there.  A directory is never moved below itself, whatever its name.  place is the slot
        at which the scan of the new parent ends. */
    method Rename(src: int, pdst: int, name: Name, place: int) returns (r: int)
      requires Valid() && |handles| == |entries| && |node| == |entries| && 0 <= src < |entries| && 0 <= pdst < |entries|
      requires handles[src] > 0 && handles[pdst] > 0 && (src == pdst ==> handles[src] > 1)
      requires entries[src].valid == 1 && entries[pdst].valid == 1 && name != DOT && name != DOTDOT
      requires 0 <= entries[src].parent < |node| ==> (node[entries[src].parent], entries[src].name) !in lost
      modifies this
      ensures -2 <= r <= 0 && (r != -2 ==> Valid()) && |entries| == |old(entries)|
      ensures r == 0 ==>
        && src != 0 && 0 <= old(entries)[src].parent < |node|
        && Missed(old(entries), pdst, name) && ((old(node)[pdst], name) !in old(disk) || (old(node)[pdst], name) in old(lost))
        && disk == MovedDisk(old(disk), (old(node)[old(entries)[src].parent], old(entries)[src].name), (old(node)[pdst], name), old(node)[src])
        && lost == (if Kept(name, place) then old(lost) - {(old(node)[pdst], name)} else old(lost) + {(old(node)[pdst], name)})
        && (forall n: nat :: Climbs(old(entries), pdst, n) ==> !OnWay(old(entries), pdst, src, n))
        && entries[src].valid == 1 && entries[src].parent == pdst && entries[src].name == name && node[src] == old(node)[src]
      ensures r != 0 ==> disk == old(disk) && lost == old(lost)
      // the references to the source and to the new parent have been given back, in both cases
      ensures r != -2 ==> Returned(old(handles), handles, src, pdst)
      ensures r == -2 ==> handles == old(handles)
      // nothing else that is held has changed but its count
      ensures |node| == |old(node)| && forall f :: 0 <= f < |entries| && old(handles)[f] > 0 ==>
        node[f] == old(node)[f] && (f != src || r != 0 ==> SameBut(old(entries), entries, f))
      ensures r == -1 ==> (exists n: nat :: Climbs(old(entries), pdst, n) && OnWay(old(entries), pdst, src, n)) || (old(node)[pdst], name) in disk
      ensures r == -2 ==> forall f :: 1 <= f < |entries| ==> entries[f].refs != 0
    {
      hide Ring, Refs, Tree, Aged, Mirrors, Missed, HeldSame, OthersSame, MovedDisk;
      HeldRefs(entries, handles, src);
      HeldRefs(entries, handles, pdst);
      RootSlot(entries);
      ghost var n := WayUp(entries, handles, pdst);
      ghost var es0, handles0 := entries, handles;
      var below := Above(src, pdst, n);
      if below {
        PutBoth(src, pdst);
        return -1;
      }
      WayUnique(entries, pdst, n);
      EndsAtRoot(entries, pdst, n);
      NoRefs(entries, handles);
      var dst := LookupChild(pdst, name);
      if dst == NoSlot { return -2; }
      if dst.Hit? {
        ghost var es2 := entries;
        EPut(dst.ep);
        PutBoth(src, pdst);
        HeldOn(es0, es2, entries, handles0);
        return -1;
      }
      EmptiedWay(es0, entries, handles0, pdst, src, n);
      ghost var es1 := entries;
      MoveEntry(src, pdst, name, n, place);
      ghost var es2 := entries;
      PutBoth(src, pdst);
      MovedOn(es0, es1, es2, entries, handles0, src);
      r := 0;
    }

    /** From emake on: the new name is written, the old one removed, and the parent exchanged. */
    method MoveEntry(src: int, pdst: int, name: Name, ghost n: nat, place: int)
      requires Valid() && |handles| == |entries| && |node| == |entries| && 0 < src < |entries| && 0 <= pdst < |entries|
      requires handles[src] > 0 && handles[pdst] > 0 && src != pdst && entries[src].valid == 1 && entries[pdst].valid == 1
      requires Missed(entries, pdst, name) && Climbs(entries, pdst, n) && !OnWay(entries, pdst, src, n)
      requires 0 <= entries[src].parent < |node| ==> (node[entries[src].parent], entries[src].name) !in lost
      modifies `entries, `next, `prev, `order, `disk, `lost
      ensures Valid() && 0 <= old(entries)[src].parent < |node| && |entries| == |old(entries)|
      ensures disk == MovedDisk(old(disk), (node[old(entries)[src].parent], old(entries)[src].name), (node[pdst], name), node[src])
      ensures lost == if Kept(name, place) then old(lost) - {(node[pdst], name)} else old(lost) + {(node[pdst], name)}
      ensures entries[src].valid == 1 && entries[src].parent == pdst && entries[src].name == name
      ensures entries[pdst].valid == 1 && OthersSame(old(entries), entries, src)
    {
      hide Ring, Refs, Tree, Aged, Mirrors, Moved, MovedDisk;
      HeldRefs(entries, handles, src);
      HeldRefs(entries, handles, pdst);
      HitNode(entries, node, disk, src);
      NewKey(entries, node, disk, src, pdst, name);
      ParentInUse(entries, handles, src);
      MovedRefs(entries, handles, src, pdst, name);
      MovedTree(entries, order, src, pdst, name, n);
      MovedMirror(entries, node, disk, src, pdst, name);
      ParentValid(entries, src);
      lost := if Kept(name, place) then lost - {(node[pdst], name)} else lost + {(node[pdst], name)};
      var psrc := Relink(src, pdst, name);
      ghost var m := WayUp(entries, handles, psrc);
      ghost var es1 := entries;
      Put(psrc, m);
      PutOnlyRefs(es1, psrc, m);
      MovedOne(old(entries), entries, src, pdst, name);
    }

    method Relink(src: int, pdst: int, name: Name) returns (psrc: int)
      requires 0 < src < |entries| && 0 <= pdst < |entries| && src != pdst && |node| == |entries| && entries[src].valid == 1
      requires 0 <= entries[src].parent < |entries| && (node[entries[src].parent], entries[src].name) in disk
      requires (node[pdst], name) != (node[entries[src].parent], entries[src].name)
      modifies `entries, `disk
      ensures entries == Moved(old(entries), src, pdst, name) && psrc == old(entries)[src].parent && |entries| == |old(entries)|
      ensures disk == MovedDisk(old(disk), (node[old(entries)[src].parent], old(entries)[src].name), (node[pdst], name), node[src])
      ensures entries[src].valid == 1 && entries[src].parent == pdst && entries[src].name == name
      ensures forall f :: 0 <= f < |entries| ==> entries[f].valid == old(entries)[f].valid && entries[f].refs >= old(entries)[f].refs
    {
      var oldKey, newKey := (node[entries[src].parent], entries[src].name), (node[pdst], name);
      entries := entries[src := entries[src].(name := name)];
      disk := disk[newKey := node[src]];
      disk := disk - {oldKey};
      entries := entries[src := entries[src].(valid := -1)];
      psrc := entries[src].parent;
      entries := entries[pdst := entries[pdst].(refs := entries[pdst].refs + 1)];
      entries := entries[src := entries[src].(parent := pdst)];
      entries := entries[src := entries[src].(valid := 1)];
    }
  }

  /** One handle to src and one to pdst less. */
  ghost predicate Returned(handles: seq<int>, handles': seq<int>, src: int, pdst: int)
  {
    && |handles'| == |handles|
    && forall f :: 0 <= f < |handles| ==> handles'[f] == handles[f] - (if f == src then 1 else 0) - if f == pdst then 1 else 0
  }

  /** No slot that is held has changed but its count. */
  ghost predicate HeldSame(es: Entries, es': Entries, handles: seq<int>)
  {
    |es'| == |es| && forall f :: 0 <= f < |es| && f < |handles| && handles[f] > 0 ==> SameBut(es, es', f)
  }

  ghost predicate HeldNodes(node: seq<int>, node': seq<int>, handles: seq<int>)
  {
    |node'| == |node| && forall f :: 0 <= f < |node| && f < |handles| && handles[f] > 0 ==> node'[f] == node[f]
  }

  lemma HeldOn(es: Entries, es1: Entries, es2: Entries, handles: seq<int>)
    requires HeldSame(es, es1, handles) && OnlyRefs(es1, es2)
    ensures HeldSame(es, es2, handles)
  {
  }

  lemma MovedOne(es: Entries, es': Entries, src: int, pdst: int, name: Name)
    requires 0 <= src < |es| && 0 <= pdst < |es| && OnlyRefs(Moved(es, src, pdst, name), es')
    ensures OthersSame(es, es', src)
  {
  }

  /** No other slot than src has changed but its count. */
  ghost predicate OthersSame(es: Entries, es': Entries, src: int)
  {
    |es'| == |es| && forall f :: 0 <= f < |es| && f != src ==> SameBut(es, es', f)
  }

  lemma MovedOn(es: Entries, es1: Entries, es2: Entries, es3: Entries, handles: seq<int>, src: int)
    requires HeldSame(es, es1, handles) && OthersSame(es1, es2, src) && OnlyRefs(es2, es3) && |handles| == |es|
    ensures forall f :: 0 <= f < |es3| && handles[f] > 0 && f != src ==> SameBut(es, es3, f)
  {
    forall f | 0 <= f < |es3| && handles[f] > 0 && f != src ensures SameBut(es, es3, f) {
      assert SameBut(es, es1, f) && SameBut(es1, es2, f);
    }
  }

  ghost predicate SameBut(es: Entries, es': Entries, f: int)
  {
    0 <= f < |es| && f < |es'| && es'[f] == es[f].(refs := es'[f].refs)
  }

  lemma OldestHere(es: Entries, next: Links, prev: Links, order: seq<int>, i: int)
    requires |es| > 0 && Ring(next, prev, order, |es| - 1) && 0 <= i < |order| && 0 <= order[i] < |es| && es[order[i]].refs == 0
    requires forall j :: i < j < |order| ==> 0 <= order[j] < |es| && es[order[j]].refs != 0
    ensures Oldest(es, order, order[i])
  {
    Along(next, prev, order, |es| - 1, i);
    PlaceAt(next, prev, order, |es| - 1, i);
    forall y | 1 <= y < |es| && Place(order, order[i]) < Place(order, y) ensures es[y].refs != 0 {
      PlaceOf(order, y);
    }
  }

  lemma HandleCount(es: Entries, handles: seq<int>)
    requires Refs(es, handles, NOBODY)
    ensures |handles| == |es|
  {
  }

  lemma HitReady(es: Entries, handles: seq<int>, dp: int, ep: int)
    requires Refs(es, handles, NOBODY) && Tree(es) && 1 <= ep < |es| && es[ep].valid == 1 && es[ep].parent == dp
    ensures dp != ep && |handles| == |es|
  {
    NotOwnParent(es, ep);
  }

  lemma HeldRefs(es: Entries, handles: seq<int>, e: int)
    requires Refs(es, handles, NOBODY) && 0 <= e < |es| && handles[e] > 0
    ensures es[e].refs > 0
  {
    assert RefAt(es, handles, NOBODY, e);
  }

  lemma MirrorSize(es: Entries, node: seq<int>, disk: Disk)
    requires Mirrors(es, node, disk)
    ensures |node| == |es|
  {
  }

  lemma HitNode(es: Entries, node: seq<int>, disk: Disk, e: int)
    requires Mirrors(es, node, disk) && Tree(es) && 1 <= e < |es| && es[e].valid == 1
    ensures 0 <= es[e].parent < |es| && (node[es[e].parent], es[e].name) in disk && disk[(node[es[e].parent], es[e].name)] == node[e]
  {
    assert NodeAt(es, node, disk, e) && LiveAt(es, e);
  }

  /** The new name is not the old one. */
  lemma NewKey(es: Entries, node: seq<int>, disk: Disk, src: int, pdst: int, name: Name)
    requires Tree(es) && Mirrors(es, node, disk) && 1 <= src < |es| && es[src].valid == 1 && 0 <= pdst < |es| && es[pdst].valid == 1
    requires Missed(es, pdst, name) && 0 <= es[src].parent < |es|
    ensures (node[pdst], name) != (node[es[src].parent], es[src].name)
  {
    assert LiveAt(es, src) && UniqueAt(es, node, es[src].parent, pdst);
  }

  lemma BlankNow(es: Entries, dp: int, x: int)
    requires 0 <= dp < |es| && es[dp].valid == 1 && es[dp].refs > 0 && 1 <= x < |es| && es[x].refs == 0
    ensures Blank(Recycled(es, x), x, dp)
  {
  }

  lemma MissedStill(es: Entries, dp: int, name: Name, x: int)
    requires Missed(es, dp, name) && 0 <= x < |es|
    ensures Missed(Recycled(es, x), dp, name)
  {
  }

  lemma MissedAfter(es: Entries, es': Entries, dp: int, name: Name)
    requires Missed(es, dp, name) && OnlyRefs(es, es')
    ensures Missed(es', dp, name)
  {
  }

  lemma OldestUnheld(es: Entries, handles: seq<int>, order: seq<int>, x: int)
    requires Refs(es, handles, NOBODY) && Oldest(es, order, x)
    ensures handles[x] == 0 && 1 <= x < |es| && es[x].refs == 0
  {
    assert RefAt(es, handles, NOBODY, x);
  }

  /** Nothing but counts has changed. */
  ghost predicate OnlyRefs(es: Entries, es': Entries)
  {
    |es'| == |es| && forall f :: 0 <= f < |es| ==> es'[f] == es[f].(refs := es'[f].refs)
  }

  lemma {:induction false} PutOnlyRefs(es: Entries, e: int, n: nat)
    requires 0 <= e < |es| && (es[e].valid != 0 ==> Climbs(es, e, n))
    ensures OnlyRefs(es, PutEntries(es, e, n))
    decreases n
  {
    if e != 0 && es[e].valid != 0 && es[e].refs == 1 {
      ClimbsRefs(es, e, 0, es[e].parent, n - 1);
      ClimbsInside(es, es[e].parent, n - 1);
      PutOnlyRefs(es[e := es[e].(refs := 0)], es[e].parent, n - 1);
    }
  }

  lemma LivePut(es: Entries, handles: seq<int>, e: int)
    requires Refs(es, handles, e) && Tree(es) && 1 <= e < |es| && es[e].valid != 0 && es[e].refs == 1
    ensures es[e].parent != e && 0 <= es[e].parent < |es|
  {
    NotOwnParent(es, e);
  }

  lemma HandleGone(es: Entries, handles: seq<int>, e: int)
    requires Refs(es, handles, NOBODY) && 0 <= e < |es| && handles[e] > 0
    ensures Refs(es, handles[e := handles[e] - 1], e) && es[e].refs > 0
  {
    var handles' := handles[e := handles[e] - 1];
    assert RefAt(es, handles, NOBODY, e);
    forall f ensures RefAt(es, handles', e, f) { assert RefAt(es, handles, NOBODY, f); }
  }

  lemma DupRefs(es: Entries, handles: seq<int>, e: int)
    requires Refs(es, handles, NOBODY) && 0 <= e < |es| && es[e].refs > 0
    ensures Refs(es[e := es[e].(refs := es[e].refs + 1)], handles[e := handles[e] + 1], NOBODY)
  {
    var es', handles' := es[e := es[e].(refs := es[e].refs + 1)], handles[e := handles[e] + 1];
    forall f ensures RefAt(es', handles', NOBODY, f) {
      assert RefAt(es, handles, NOBODY, f);
      KidsBut(es, es', f, if e == 0 then 1 else e, |es| - 1);
    }
  }

  /** How far it is from a slot in use to the root. */
  lemma WayUp(es: Entries, handles: seq<int>, e: int) returns (n: nat)
    requires Tree(es) && 0 <= e < |es| && es[e].valid != 0 && es[e].refs > 0
    ensures Climbs(es, e, n)
  {
    assert RootedAt(es, e);
    n :| Climbs(es, e, n);
  }

  lemma RootSlot(es: Entries)
    requires Tree(es)
    ensures |es| > 0 && es[0].valid == 1 && es[0].parent == NULL
  {
  }

  /** There is one way up, so what lies on it does not depend on how it is measured. */
  lemma {:induction false} WayUnique(es: Entries, e: int, n: nat)
    requires Climbs(es, e, n)
    ensures forall m: nat :: Climbs(es, e, m) ==> m == n
    decreases n
  {
    if n > 0 {
      WayUnique(es, es[e].parent, n - 1);
    }
  }

  lemma {:induction false} EndsAtRoot(es: Entries, e: int, n: nat)
    requires Climbs(es, e, n)
    ensures OnWay(es, e, 0, n)
    decreases n
  {
    if n > 0 { EndsAtRoot(es, es[e].parent, n - 1); }
  }

  /** A slot is in use exactly while someone outside holds it or a cached child of it is in use. */
  lemma InUse(es: Entries, handles: seq<int>, e: int)
    requires Refs(es, handles, NOBODY) && 0 <= e < |es|
    ensures es[e].refs > 0 <==> handles[e] > 0 || exists x :: Kid(es, x, e)
  {
    assert RefAt(es, handles, NOBODY, e);
    if x :| Kid(es, x, e) { KidCounts(es, e, x, |es| - 1); }
    if Kids(es, e, |es| - 1) > 0 { SomeKid(es, e, |es| - 1); }
  }

  lemma {:induction false} SomeKid(es: Entries, e: int, n: int)
    requires Kids(es, e, n) > 0
    ensures exists x :: Kid(es, x, e)
  {
    if !Kid(es, n, e) { SomeKid(es, e, n - 1); }
  }

  lemma ParentValid(es: Entries, e: int)
    requires Tree(es) && 1 <= e < |es| && es[e].valid == 1
    ensures 0 <= es[e].parent < |es| && es[es[e].parent].valid == 1
  {
    assert LiveAt(es, e);
  }

  /** At most a slot nobody held has been emptied. */
  ghost predicate Emptied(es: Entries, es': Entries, handles: seq<int>)
  {
    |es'| == |es| && |handles| == |es| &&
    forall f :: 0 <= f < |es| ==>
      es'[f].parent == es[f].parent && es'[f].name == es[f].name && (handles[f] > 0 ==> es'[f].valid == es[f].valid)
  }

  lemma EmptiedOne(es: Entries, es1: Entries, es2: Entries, handles: seq<int>, x: int)
    requires 0 <= x < |es| && |handles| == |es| && handles[x] == 0 && es1 == Recycled(es, x) && OnlyRefs(es1, es2)
    ensures Emptied(es, es2, handles)
  {
  }

  lemma {:induction false} EmptiedWay(es: Entries, es': Entries, handles: seq<int>, e: int, x: int, n: nat)
    requires Emptied(es, es', handles) && Climbs(es, e, n) && !OnWay(es, e, x, n)
    ensures Climbs(es', e, n) && !OnWay(es', e, x, n)
    decreases n
  {
    if n > 0 { EmptiedWay(es, es', handles, es[e].parent, x, n - 1); }
  }
}
