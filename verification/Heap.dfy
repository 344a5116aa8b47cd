/** The user-level allocator of user/umalloc.c: a circular, address-ordered,
    coalescing free list.

    Memory is indexed in header units.  ptr[a] and size[a] are the two fields of
    the header stored in unit a; unit 0 is the static header `base`, which lies
    below every unit sbrk ever returns.  NULL is modelled by -1. */
module Heap {

  const HEADER_BYTES := 16
  const MIN_GROW := 4096
  const NULL := -1

  /** malloc's rounding of a byte count to header units, one unit being the header itself. */
  function Units(nbytes: nat): int
  {
    (nbytes + HEADER_BYTES - 1) / HEADER_BYTES + 1
  }

  /** The fewest units that hold the header and the bytes. */
  lemma UnitsExact(nbytes: nat)
    ensures HEADER_BYTES * (Units(nbytes) - 2) < nbytes <= HEADER_BYTES * (Units(nbytes) - 1)
  {
  }

  /** A 32-bit unsigned value passed where the C code declares an int. */
  function ToInt32(x: int): (r: int)
    ensures -0x8000_0000 <= r < 0x8000_0000 && (x - r) % 0x1_0000_0000 == 0
  {
    var w := x % 0x1_0000_0000;
    if w < 0x8000_0000 then w else w - 0x1_0000_0000
  }

  /** The byte count that reaches sbrk(int) when a request for nu units grows the heap. */
  function SbrkArgument(nu: int): int
  {
    ToInt32((if nu < MIN_GROW then MIN_GROW else nu) * HEADER_BYTES)
  }

  /** morecore asks sbrk for exactly the bytes it then assumes it owns if and
      only if the request is below this bound; above it the int parameter of
      sbrk truncates the amount. */
  lemma SbrkExact(nbytes: nat)
    requires nbytes < 0x1_0000_0000
    ensures SbrkArgument(Units(nbytes)) == (if Units(nbytes) < MIN_GROW then MIN_GROW else Units(nbytes)) * HEADER_BYTES
       <==> nbytes <= 0x8000_0000 - 32
  {
    var nu := if Units(nbytes) < MIN_GROW then MIN_GROW else Units(nbytes);
    assert 0 < nu * HEADER_BYTES < 0x1_0000_0000 + 64;
  }

  /** Unit u is tagged a exactly when it is one of the units block a announces. */
  ghost predicate UnitAt(blocks: map<int, int>, tag: map<int, int>, a: int, u: int)
  {
    && (a in blocks ==> blocks[a] >= 1 && (u in tag && tag[u] == a <==> a <= u < a + blocks[a]))
    && (u in tag ==> tag[u] in blocks)
  }

  /** Every obtained unit is in exactly one block, and a block is exactly the run
      of units its header announces.  tag names the block each unit is in. */
  ghost predicate Tiling(blocks: map<int, int>, tag: map<int, int>)
  {
    forall a, u {:trigger UnitAt(blocks, tag, a, u)} :: UnitAt(blocks, tag, a, u)
  }

  ghost function Retag(tag: map<int, int>, from: int, to: int, a: int): map<int, int>
  {
    map x | x in tag :: if from <= x < to then a else tag[x]
  }

  lemma TilingApart(blocks: map<int, int>, tag: map<int, int>, a: int, b: int)
    requires Tiling(blocks, tag) && a in blocks && b in blocks && a < b
    ensures a + blocks[a] <= b
  {
    assert UnitAt(blocks, tag, b, b) && UnitAt(blocks, tag, a, b);
  }

  /** Absorbing the block that starts where a ends. */
  lemma TilingMerge(blocks: map<int, int>, tag: map<int, int>, a: int, b: int)
    requires Tiling(blocks, tag) && a in blocks && b in blocks && a + blocks[a] == b
    ensures Tiling((blocks - {b})[a := blocks[a] + blocks[b]], Retag(tag, b, b + blocks[b], a))
  {
    var blocks', tag' := (blocks - {b})[a := blocks[a] + blocks[b]], Retag(tag, b, b + blocks[b], a);
    forall x, u ensures UnitAt(blocks', tag', x, u) {
      assert UnitAt(blocks, tag, x, u) && UnitAt(blocks, tag, a, u) && UnitAt(blocks, tag, b, u);
    }
  }

  /** Cutting the last n units off block a. */
  lemma TilingSplit(blocks: map<int, int>, tag: map<int, int>, a: int, n: int)
    requires Tiling(blocks, tag) && a in blocks && 1 <= n < blocks[a]
    ensures a + blocks[a] - n !in blocks
    ensures Tiling(blocks[a := blocks[a] - n][a + blocks[a] - n := n], Retag(tag, a + blocks[a] - n, a + blocks[a], a + blocks[a] - n))
  {
    var c := a + blocks[a] - n;
    assert UnitAt(blocks, tag, a, c) && UnitAt(blocks, tag, c, c);
    var blocks', tag' := blocks[a := blocks[a] - n][c := n], Retag(tag, c, a + blocks[a], c);
    forall x, u ensures UnitAt(blocks', tag', x, u) {
      assert UnitAt(blocks, tag, x, u) && UnitAt(blocks, tag, a, u) && UnitAt(blocks, tag, c, u);
    }
  }

  /** The nu units from hp on, all tagged hp. */
  ghost function Run(hp: int, nu: int): (r: map<int, int>)
    ensures forall u :: u in r <==> hp <= u < hp + nu
    ensures forall u :: u in r ==> r[u] == hp
  {
    if nu <= 0 then map[] else Run(hp, nu - 1)[hp + nu - 1 := hp]
  }

  /** A new block of fresh units. */
  lemma TilingAdd(blocks: map<int, int>, tag: map<int, int>, hp: int, nu: int)
    requires Tiling(blocks, tag) && nu >= 1
    requires forall a :: a in blocks ==> a + blocks[a] <= hp
    ensures hp !in blocks && tag.Keys !! Run(hp, nu).Keys
    ensures Tiling(blocks[hp := nu], tag + Run(hp, nu))
  {
    assert UnitAt(blocks, tag, hp, hp);
    forall u | u in tag ensures u < hp {
      assert UnitAt(blocks, tag, tag[u], u);
    }
    var blocks', tag' := blocks[hp := nu], tag + Run(hp, nu);
    forall x, u ensures UnitAt(blocks', tag', x, u) {
      assert UnitAt(blocks, tag, x, u);
    }
  }

  /** n is the ring successor of a: the next free address above a, or base past the last. */
  ghost predicate Succ(free: set<int>, a: int, n: int)
  {
    if n == 0 then forall b :: b in free ==> b <= a
    else a < n && n in free && forall b :: b in free ==> b <= a || n <= b
  }

  /** Unlinking the successor u of p leaves every other node's successor alone. */
  lemma SuccUnlink(free: set<int>, p: int, u: int, n: int)
    requires u in free && (p == 0 || p in free) && u > 0 && Succ(free, p, u) && Succ(free, u, n)
    requires forall a :: a in free ==> a > 0
    ensures Succ(free - {u}, p, n)
    ensures forall a, m :: a != p && a != u && (a == 0 || a in free) && Succ(free, a, m) ==> Succ(free - {u}, a, m)
  {
  }

  /** Linking b in between p and p's successor n. */
  lemma SuccLink(free: set<int>, p: int, b: int, n: int)
    requires (p == 0 || p in free) && Succ(free, p, n) && 0 <= p < b && (n == 0 || b < n)
    requires forall a :: a in free ==> a > 0
    ensures Succ(free + {b}, p, b) && Succ(free + {b}, b, n)
    ensures forall a, m :: 0 <= a != p && (a == 0 || a in free) && Succ(free, a, m) ==> Succ(free + {b}, a, m)
  {
  }

  /** A ring node is base or a free block. */
  ghost predicate OnRing(free: set<int>, a: int)
  {
    a == 0 || a in free
  }

  /** a is linked to its ring successor and does not touch it. */
  ghost predicate Linked(free: set<int>, ptr: seq<int>, size: seq<int>, a: int)
  {
    && 0 <= a < |ptr| == |size|
    && Succ(free, a, ptr[a])
    && (ptr[a] == 0 || a + size[a] < ptr[a])
  }

  /** Every ring node except possibly p is linked. */
  ghost predicate RingBut(free: set<int>, ptr: seq<int>, size: seq<int>, p: int)
  {
    && 0 < |ptr| == |size| && size[0] == 0
    && (forall a :: a in free ==> a > 0)
    && (forall a {:trigger OnRing(free, a)} :: OnRing(free, a) && a != p ==> Linked(free, ptr, size, a))
  }

  /** Every block is recorded in its header and lies below the break. */
  ghost predicate HeaderAt(blocks: map<int, int>, size: seq<int>, a: int)
  {
    a in blocks ==> 1 <= a && a + blocks[a] <= |size| && 1 <= blocks[a] == size[a]
  }

  ghost predicate Headers(blocks: map<int, int>, size: seq<int>)
  {
    |size| >= 1 && forall a {:trigger HeaderAt(blocks, size, a)} :: HeaderAt(blocks, size, a)
  }

  /** The allocator's invariant with ring node p's link pending; with p == NULL no link
      is pending, and the ring is one cycle in address order with a single wrap. */
  ghost predicate State(blocks: map<int, int>, tag: map<int, int>, free: set<int>, ptr: seq<int>, size: seq<int>, p: int)
  {
    && |ptr| == |size|
    && Headers(blocks, size) && Tiling(blocks, tag) && free <= blocks.Keys
    && RingBut(free, ptr, size, p)
  }

  /** free's upper coalescing: b takes over the free block u that starts where it ends
      and learns u's successor; only p's link is left to repair. */
  lemma JoinUpper(blocks: map<int, int>, tag: map<int, int>, free: set<int>, ptr: seq<int>, size: seq<int>, p: int, b: int)
    requires State(blocks, tag, free, ptr, size, NULL)
    requires OnRing(free, p) && b in blocks && b !in free && 0 <= p < |ptr| && b < |size|
    requires p < b < b + size[b] == ptr[p]
    ensures var u := ptr[p];
            && u in free && u in blocks && 0 <= u < |size|
            && State((blocks - {u})[b := size[b] + size[u]], Retag(tag, u, u + size[u], b), free - {u},
                     ptr[b := ptr[u]], size[b := size[b] + size[u]], p)
            && Succ(free - {u}, p, ptr[u])
            && (ptr[u] == 0 || u + size[u] < ptr[u])
  {
    assert Linked(free, ptr, size, p);
    var u := ptr[p];
    assert OnRing(free, u) && Linked(free, ptr, size, u);
    assert HeaderAt(blocks, size, u) && HeaderAt(blocks, size, b);
    SuccUnlink(free, p, u, ptr[u]);
    TilingMerge(blocks, tag, b, u);
    var blocks', size' := (blocks - {u})[b := size[b] + size[u]], size[b := size[b] + size[u]];
    forall a ensures HeaderAt(blocks', size', a) {
      assert HeaderAt(blocks, size, a);
    }
    forall a | OnRing(free - {u}, a) && a != p
      ensures Linked(free - {u}, ptr[b := ptr[u]], size', a)
    {
      assert OnRing(free, a) && Linked(free, ptr, size, a);
    }
  }

  /** No upper neighbour: b's own link is not part of the ring yet. */
  lemma SkipUpper(blocks: map<int, int>, tag: map<int, int>, free: set<int>, ptr: seq<int>, size: seq<int>, p: int, b: int, n: int)
    requires State(blocks, tag, free, ptr, size, NULL) && 0 < b < |ptr| && b !in free
    ensures State(blocks, tag, free, ptr[b := n], size, p)
  {
    forall a | OnRing(free, a) && a != p ensures Linked(free, ptr[b := n], size, a) {
      assert Linked(free, ptr, size, a);
    }
  }

  /** free's lower coalescing: ring node p takes over b. */
  lemma JoinLower(blocks: map<int, int>, tag: map<int, int>, free: set<int>, ptr: seq<int>, size: seq<int>, p: int, b: int)
    requires State(blocks, tag, free, ptr, size, p)
    requires p in free && b in blocks && b !in free && 0 <= p < b < |ptr| && b == p + size[p]
    requires Succ(free, p, ptr[b]) && (ptr[b] == 0 || b + size[b] < ptr[b])
    ensures State((blocks - {b})[p := size[p] + size[b]], Retag(tag, b, b + size[b], p), free,
                  ptr[p := ptr[b]], size[p := size[p] + size[b]], NULL)
  {
    assert HeaderAt(blocks, size, p) && HeaderAt(blocks, size, b);
    TilingMerge(blocks, tag, p, b);
    var blocks', size' := (blocks - {b})[p := size[p] + size[b]], size[p := size[p] + size[b]];
    forall a ensures HeaderAt(blocks', size', a) {
      assert HeaderAt(blocks, size, a);
    }
    forall a | OnRing(free, a) && a != NULL ensures Linked(free, ptr[p := ptr[b]], size', a) {
      assert a != p ==> Linked(free, ptr, size, a);
    }
  }

  /** No lower neighbour: b joins the ring between p and p's successor. */
  lemma LinkAbove(blocks: map<int, int>, tag: map<int, int>, free: set<int>, ptr: seq<int>, size: seq<int>, p: int, b: int)
    requires State(blocks, tag, free, ptr, size, p)
    requires OnRing(free, p) && b in blocks && b !in free && 0 <= p < b < |ptr| && p + size[p] < b
    requires Succ(free, p, ptr[b]) && (ptr[b] == 0 || b + size[b] < ptr[b])
    ensures State(blocks, tag, free + {b}, ptr[p := b], size, NULL)
  {
    assert HeaderAt(blocks, size, b);
    SuccLink(free, p, b, ptr[b]);
    forall a | OnRing(free + {b}, a) && a != NULL ensures Linked(free + {b}, ptr[p := b], size, a) {
      assert a != p && a != b ==> OnRing(free, a) && Linked(free, ptr, size, a);
    }
  }

  ghost function Grown(nunits: int): int
  {
    if nunits < MIN_GROW then MIN_GROW else nunits
  }

  /** sbrk returned nu fresh units at hp, and morecore made them one block. */
  lemma Grow(blocks: map<int, int>, tag: map<int, int>, free: set<int>, ptr: seq<int>, size: seq<int>, hp: int, nu: int)
    requires State(blocks, tag, free, ptr, size, NULL)
    requires hp >= |size| && nu >= 1
    ensures hp !in blocks && tag.Keys !! Run(hp, nu).Keys
    ensures State(blocks[hp := nu], tag + Run(hp, nu), free,
                  ptr + seq(hp + nu - |ptr|, _ => 0), (size + seq(hp + nu - |size|, _ => 0))[hp := nu], NULL)
  {
    var ptr', size' := ptr + seq(hp + nu - |ptr|, _ => 0), (size + seq(hp + nu - |size|, _ => 0))[hp := nu];
    forall a | a in blocks ensures a + blocks[a] <= hp {
      assert HeaderAt(blocks, size, a);
    }
    TilingAdd(blocks, tag, hp, nu);
    var blocks' := blocks[hp := nu];
    forall a ensures HeaderAt(blocks', size', a) {
      assert HeaderAt(blocks, size, a);
    }
    forall a | OnRing(free, a) && a != NULL ensures Linked(free, ptr', size', a) {
      assert Linked(free, ptr, size, a);
    }
  }

  /** malloc's exact fit: p leaves the ring, its predecessor q takes its successor. */
  lemma Unlink(blocks: map<int, int>, tag: map<int, int>, free: set<int>, ptr: seq<int>, size: seq<int>, q: int, p: int)
    requires State(blocks, tag, free, ptr, size, NULL)
    requires OnRing(free, q) && 0 <= q < |ptr| && ptr[q] == p && p in free && 0 <= p < |ptr|
    ensures q != p && State(blocks, tag, free - {p}, ptr[q := ptr[p]], size, NULL)
  {
    assert Linked(free, ptr, size, q);
    assert OnRing(free, p) && Linked(free, ptr, size, p);
    SuccUnlink(free, q, p, ptr[p]);
    forall a | OnRing(free - {p}, a) && a != NULL ensures Linked(free - {p}, ptr[q := ptr[p]], size, a) {
      assert OnRing(free, a) && Linked(free, ptr, size, a);
      assert HeaderAt(blocks, size, p);
    }
  }

  /** malloc's split: the last n units of p become the block that is handed out. */
  lemma Carve(blocks: map<int, int>, tag: map<int, int>, free: set<int>, ptr: seq<int>, size: seq<int>, p: int, n: int)
    requires State(blocks, tag, free, ptr, size, NULL)
    requires p in free && 0 <= p < |size| && 1 <= n < size[p]
    ensures var c := p + size[p] - n;
            && p < c < |size| && c !in blocks
            && State(blocks[p := size[p] - n][c := n], Retag(tag, c, p + size[p], c), free, ptr,
                     size[p := size[p] - n][c := n], NULL)
  {
    assert HeaderAt(blocks, size, p);
    var c := p + size[p] - n;
    TilingSplit(blocks, tag, p, n);
    var blocks', size' := blocks[p := size[p] - n][c := n], size[p := size[p] - n][c := n];
    forall a ensures HeaderAt(blocks', size', a) {
      assert HeaderAt(blocks, size, a);
    }
    forall a | OnRing(free, a) && a != NULL ensures Linked(free, ptr, size', a) {
      assert Linked(free, ptr, size, a);
    }
  }

  /** The ring nodes malloc has yet to look at when q is the last one it looked at
      (or, with q == f, when it has looked at none). */
  ghost function Todo(free: set<int>, q: int, f: int): set<int>
  {
    var ring := free + {0};
    if q == f then ring
    else if q < f then set a | a in ring && q < a <= f
    else set a | a in ring && (q < a || a <= f)
  }

  /** One step of the search takes exactly the node looked at out of the ones to do,
      and the step that looks at f is the last. */
  lemma TodoStep(free: set<int>, q: int, p: int, f: int)
    requires OnRing(free, q) && OnRing(free, p) && OnRing(free, f) && Succ(free, q, p)
    requires forall a :: a in free ==> a > 0
    ensures p in Todo(free, q, f)
    ensures p != f ==> Todo(free, p, f) == Todo(free, q, f) - {p}
    ensures p == f ==> forall a :: a in Todo(free, q, f) ==> a == f
  {
  }

  ghost function NodesAbove(free: set<int>, a: int): set<int>
  {
    set b | b in free && b > a
  }

  /** The ring nodes met by following ptr from ring node a until it wraps to base. */
  ghost function Follow(free: set<int>, ptr: seq<int>, size: seq<int>, a: int): (c: seq<int>)
    requires RingBut(free, ptr, size, NULL) && OnRing(free, a) && a != NULL
    ensures |c| >= 1 && c[0] == a
    decreases NodesAbove(free, a)
  {
    assert Linked(free, ptr, size, a);
    if ptr[a] == 0 then [a]
    else
      assert ptr[a] in NodesAbove(free, a) && ptr[a] !in NodesAbove(free, ptr[a]);
      [a] + Follow(free, ptr, size, ptr[a])
  }

  /** c lists the ring nodes from a up, once each and in address order, linked by ptr and
      not touching, with the wrap to base after the last. */
  ghost predicate OneLap(free: set<int>, ptr: seq<int>, size: seq<int>, a: int, c: seq<int>)
  {
    && (forall b :: b in c <==> b == a || (b in free && b > a))
    && (forall i, j :: 0 <= i < j < |c| ==> c[i] < c[j])
    && (forall i :: 0 <= i < |c| ==> 0 <= c[i] < |ptr| == |size|)
    && (forall i, j :: 0 <= i < j < |c| && j == i + 1 ==> ptr[c[i]] == c[j] && c[i] + size[c[i]] < c[j])
    && |c| > 0 && ptr[c[|c| - 1]] == 0
  }

  /** The free list is one cycle: from base, ptr visits every free block exactly once, in
      address order and without two of them touching, and then returns to base. */
  lemma OneCycle(blocks: map<int, int>, tag: map<int, int>, free: set<int>, ptr: seq<int>, size: seq<int>)
    requires State(blocks, tag, free, ptr, size, NULL)
    ensures OneLap(free, ptr, size, 0, Follow(free, ptr, size, 0))
    ensures forall b :: b in free ==> b > 0
  {
    assert OnRing(free, 0);
    FollowAll(free, ptr, size, 0);
  }

  lemma {:induction false} FollowAll(free: set<int>, ptr: seq<int>, size: seq<int>, a: int)
    requires RingBut(free, ptr, size, NULL) && OnRing(free, a) && a != NULL
    ensures OneLap(free, ptr, size, a, Follow(free, ptr, size, a))
    decreases NodesAbove(free, a)
  {
    assert Linked(free, ptr, size, a);
    var n := ptr[a];
    if n != 0 {
      assert OnRing(free, n);
      assert n in NodesAbove(free, a) && n !in NodesAbove(free, n);
      FollowAll(free, ptr, size, n);
      LapCons(free, ptr, size, a, n, Follow(free, ptr, size, n));
    }
  }

  lemma LapCons(free: set<int>, ptr: seq<int>, size: seq<int>, a: int, n: int, d: seq<int>)
    requires OneLap(free, ptr, size, n, d) && d[0] == n
    requires Linked(free, ptr, size, a) && ptr[a] == n && n != 0
    ensures OneLap(free, ptr, size, a, [a] + d)
  {
    var c := [a] + d;
    forall b ensures b in c <==> b == a || (b in free && b > a) {
      assert b in c <==> b == a || b in d;
    }
    forall i, j | 0 <= i < j < |c|
      ensures c[i] < c[j]
      ensures j == i + 1 ==> ptr[c[i]] == c[j] && c[i] + size[c[i]] < c[j]
    {
      assert c[j] == d[j - 1] && d[j - 1] in d;
      assert i > 0 ==> c[i] == d[i - 1];
    }
    assert c[|c| - 1] == d[|d| - 1];
  }

  /** Conservation and disjointness: a unit was obtained from sbrk exactly if it lies in
      some block, free or live, and then in only one. */
  lemma EveryUnitOnce(blocks: map<int, int>, tag: map<int, int>, u: int)
    requires Tiling(blocks, tag)
    ensures u in tag <==> exists a :: a in blocks && a <= u < a + blocks[a]
    ensures forall a, b :: a in blocks && b in blocks && a <= u < a + blocks[a] && b <= u < b + blocks[b] ==> a == b
  {
    assert UnitAt(blocks, tag, 0, u);
    if u in tag {
      assert UnitAt(blocks, tag, tag[u], u);
    }
    forall a | a in blocks && a <= u < a + blocks[a] ensures u in tag && tag[u] == a {
      assert UnitAt(blocks, tag, a, u);
    }
  }

  /** The ring nodes still to be passed when the search for b's place has reached p. */
  ghost function Ahead(free: set<int>, p: int, b: int): set<int>
  {
    var ring := free + {0};
    if p < b then set a | a in ring && p < a < b else set a | a in ring && (p < a || a < b)
  }

  lemma AheadStep(free: set<int>, p: int, n: int, b: int)
    requires OnRing(free, p) && Succ(free, p, n) && b > 0 && b !in free
    requires forall a :: a in free ==> a > 0
    requires !(p < b && (n == 0 || b < n))
    ensures Ahead(free, n, b) < Ahead(free, p, b)
  {
    assert n in Ahead(free, p, b) && n !in Ahead(free, n, b);
  }

  class Allocator {
    var ptr: seq<int>
    var size: seq<int>
    var freep: int

    ghost var blocks: map<int, int>  // header address of every block, and its units
    ghost var free: set<int>         // header addresses of the free blocks, base excluded
    ghost var tag: map<int, int>     // every unit obtained from sbrk, and the block it is in

    /** The blocks in the hands of the client. */
    ghost function Live(): map<int, int>
      reads this
    {
      blocks - free
    }

    ghost predicate Valid()
      reads this
    {
      if freep == NULL then
        |ptr| == |size| >= 1 && blocks == map[] && free == {} && tag == map[]
      else
        State(blocks, tag, free, ptr, size, NULL) && OnRing(free, freep)
    }

    constructor ()
      ensures Valid() && freep == NULL && Live() == map[] && tag == map[]
    {
      ptr, size, freep := [0], [0], NULL;
      blocks, free, tag := map[], {}, map[];
    }

    /** The client may write anything into the units of a block it owns, except its header. */
    method ClientWrite(a: int, u: int, p: int, s: int)
      requires Valid() && a in Live() && a < u < a + Live()[a]
      modifies this
      ensures Valid() && Live() == old(Live()) && tag == old(tag)
      ensures 0 <= u < |old(ptr)| && u < |old(size)| && ptr == old(ptr)[u := p] && size == old(size)[u := s]
    {
      assert HeaderAt(blocks, size, a);
      assert UnitAt(blocks, tag, a, u) && UnitAt(blocks, tag, u, u);
      ghost var size' := size[u := s];
      forall b ensures HeaderAt(blocks, size', b) {
        assert HeaderAt(blocks, size, b);
      }
      forall b | OnRing(free, b) && b != NULL ensures Linked(free, ptr[u := p], size[u := s], b) {
        assert Linked(free, ptr, size, b);
      }
      ptr, size := ptr[u := p], size[u := s];
    }

    /** free's search: the ring node below b whose successor is above b or base. */
    method FindPlace(b: int) returns (p: int)
      requires Valid() && freep != NULL && b in Live()
      ensures OnRing(free, p) && 0 <= p < |ptr| && p < b && (ptr[p] == 0 || b < ptr[p])
    {
      p := freep;
      assert HeaderAt(blocks, size, b);
      assert Linked(free, ptr, size, p);
      while !(b > p && b < ptr[p])
        invariant OnRing(free, p) && Linked(free, ptr, size, p)
        decreases Ahead(free, p, b)
      {
        if p >= ptr[p] && (b > p || b < ptr[p]) {
          break;
        }
        AheadStep(free, p, ptr[p], b);
        p := ptr[p];
        assert OnRing(free, p);
      }
    }

    /** The n units from b on are part of the free block f. */
    ghost predicate Holds(f: int, b: int, n: int)
      reads this
    {
      f in free && f in blocks && f <= b && b + n <= f + blocks[f]
    }

    /** free's test of the upper neighbour; p's link to b is still missing afterwards. */
    method MeetUpper(p: int, b: int)
      requires Valid() && freep != NULL && b in Live() && b < |size|
      requires OnRing(free, p) && 0 <= p < |ptr| && p < b && (ptr[p] == 0 || b < ptr[p])
      modifies this
      ensures State(blocks, tag, free, ptr, size, p) && OnRing(free, p)
      ensures |size| == old(|size|) && old(size[b]) <= size[b] && b + size[b] <= |size|
      ensures b in Live() && Live() == old(Live())[b := size[b]] && tag.Keys == old(tag).Keys
      ensures Succ(free, p, ptr[b]) && (ptr[b] == 0 || b + size[b] < ptr[b])
    {
      assert HeaderAt(blocks, size, b) && Linked(free, ptr, size, p);
      if ptr[p] != 0 { TilingApart(blocks, tag, b, ptr[p]); }
      if b + size[b] == ptr[p] {
        JoinUpper(blocks, tag, free, ptr, size, p, b);
        ghost var u := ptr[p];
        assert HeaderAt(blocks, size, u);
        tag, blocks, free := Retag(tag, u, u + size[u], b), (blocks - {u})[b := size[b] + size[u]], free - {u};
        size, ptr := size[b := size[b] + size[ptr[p]]], ptr[b := ptr[ptr[p]]];
        assert State(blocks, tag, free, ptr, size, p);
        assert HeaderAt(blocks, size, b);
      } else {
        SkipUpper(blocks, tag, free, ptr, size, p, b, ptr[p]);
        ptr := ptr[b := ptr[p]];
        assert State(blocks, tag, free, ptr, size, p);
      }
    }

    /** free's test of the lower neighbour, which completes the ring. */
    method MeetLower(p: int, b: int)
      requires State(blocks, tag, free, ptr, size, p) && OnRing(free, p) && b in Live() && 0 <= p < b < |size|
      requires Succ(free, p, ptr[b]) && (ptr[b] == 0 || b + size[b] < ptr[b])
      modifies this
      ensures Valid() && freep == p && |size| == old(|size|)
      ensures Live() == old(Live()) - {b} && tag.Keys == old(tag).Keys
      ensures Holds(if b in free then b else p, b, old(size[b]))
    {
      assert HeaderAt(blocks, size, p) && HeaderAt(blocks, size, b);
      if p != 0 { TilingApart(blocks, tag, p, b); }
      if p + size[p] == b {
        JoinLower(blocks, tag, free, ptr, size, p, b);
        tag, blocks := Retag(tag, b, b + size[b], p), (blocks - {b})[p := size[p] + size[b]];
        size, ptr := size[p := size[p] + size[b]], ptr[p := ptr[b]];
      } else {
        LinkAbove(blocks, tag, free, ptr, size, p, b);
        ptr, free := ptr[p := b], free + {b};
      }
      freep := p;
      assert State(blocks, tag, free, ptr, size, NULL);
    }

    method Free(ap: int) returns (ghost f: int)
      requires Valid() && ap - 1 in Live()
      modifies this
      ensures Valid() && freep != NULL && |size| == old(|size|)
      ensures Live() == old(Live()) - {ap - 1} && tag.Keys == old(tag).Keys
      ensures Holds(f, ap - 1, old(Live()[ap - 1]))
    {
      var bp := ap - 1;
      assert HeaderAt(blocks, size, bp);
      var p := FindPlace(bp);
      MeetUpper(p, bp);
      MeetLower(p, bp);
      f := if bp in free then bp else p;
    }

    /** grant is what sbrk returns: NULL when it fails, and otherwise the first of nu
        fresh units, all at or above the old break (the client may have called sbrk too). */
    method MoreCore(nunits: int, grant: int) returns (p: int)
      requires Valid() && freep != NULL && 1 <= nunits
      requires grant == NULL || grant >= |size|
      modifies this
      ensures Valid() && freep != NULL && Live() == old(Live()) && p == (if grant == NULL then NULL else freep)
      ensures grant == NULL ==> free == old(free) && blocks == old(blocks) && tag == old(tag) && freep == old(freep)
      ensures grant != NULL ==> exists f :: f in free && f in blocks && blocks[f] >= nunits
      ensures grant != NULL ==> tag.Keys == old(tag).Keys + Run(grant, Grown(nunits)).Keys
    {
      var nu := nunits;
      if nu < MIN_GROW {
        nu := MIN_GROW;
      }
      if grant == NULL {
        return NULL;
      }
      var hp := grant;
      Grow(blocks, tag, free, ptr, size, hp, nu);
      ghost var live := Live();
      ptr := ptr + seq(hp + nu - |ptr|, _ => 0);
      size := (size + seq(hp + nu - |size|, _ => 0))[hp := nu];
      blocks, tag := blocks[hp := nu], tag + Run(hp, nu);
      assert State(blocks, tag, free, ptr, size, NULL) && Live() == live[hp := nu];
      ghost var f := Free(hp + 1);
      return freep;
    }

    /** Hands out nunits of the free block at, from its tail if it is larger. */
    method Take(prevp: int, at: int, nunits: int) returns (r: int)
      requires Valid() && freep != NULL && OnRing(free, prevp) && at in free
      requires 0 <= prevp < |ptr| && 0 <= at < |size| && ptr[prevp] == at && 1 <= nunits <= size[at]
      modifies this
      ensures Valid() && freep == prevp && r != NULL
      ensures r - 1 !in old(Live()) && Live() == old(Live())[r - 1 := nunits] && tag.Keys == old(tag).Keys
    {
      var p := at;
      assert HeaderAt(blocks, size, p);
      freep := prevp;
      if size[p] == nunits {
        Unlink(blocks, tag, free, ptr, size, prevp, p);
        ptr, free := ptr[prevp := ptr[p]], free - {p};
        assert State(blocks, tag, free, ptr, size, NULL);
      } else {
        Carve(blocks, tag, free, ptr, size, p, nunits);
        ghost var c := p + size[p] - nunits;
        blocks, tag := blocks[p := size[p] - nunits][c := nunits], Retag(tag, c, p + size[p], c);
        size := size[p := size[p] - nunits];
        p := p + size[p];
        size := size[p := nunits];
        assert State(blocks, tag, free, ptr, size, NULL);
      }
      return p + 1;
    }

    method Malloc(nbytes: nat, grant: int) returns (r: int)
      requires Valid() && nbytes <= 0x8000_0000 - 32
      requires grant == NULL || grant >= |size|
      modifies this
      ensures Valid() && freep != NULL
      // NULL only if no free block fits and sbrk refused; nothing is lost then
      ensures r == NULL <==> grant == NULL && !old(Fits(Units(nbytes)))
      ensures r == NULL ==> Live() == old(Live()) && tag == old(tag)
      // otherwise one new block, its header before r, with room for nbytes
      ensures r != NULL ==> r - 1 !in old(Live()) && Live() == old(Live())[r - 1 := Units(nbytes)]
      ensures nbytes <= (Units(nbytes) - 1) * HEADER_BYTES
      // no unit is lost, and the heap grows only when no free block fits
      ensures tag.Keys == old(tag).Keys + (if r == NULL || old(Fits(Units(nbytes))) then {} else Run(grant, Grown(Units(nbytes))).Keys)
    {
      var nunits := Units(nbytes);
      ghost var fits, before := Fits(nunits), tag.Keys;
      var prevp := freep;
      if prevp == NULL {
        ptr, size, freep, prevp := ptr[0 := 0], size[0 := 0], 0, 0;
        assert Tiling(blocks, tag);
      }
      assert Linked(free, ptr, size, prevp);
      var p := ptr[prevp];
      ghost var grown := false;
      while true
        invariant Valid() && freep != NULL && OnRing(free, prevp)
        invariant 0 <= prevp < |ptr| && p == ptr[prevp] && Succ(free, prevp, p)
        invariant Live() == old(Live())
        invariant forall a :: a in free && a !in Todo(free, prevp, freep) ==> blocks[a] < nunits
        invariant grown ==> grant != NULL && Fits(nunits) && !fits && tag.Keys == before + Run(grant, Grown(nunits)).Keys
        invariant !grown ==> |size| == old(|size|) && free == old(free) && blocks == old(blocks) && tag == old(tag)
        decreases !grown, Todo(free, prevp, freep)
      {
        assert OnRing(free, p) && Linked(free, ptr, size, p);
        TodoStep(free, prevp, p, freep);
        assert HeaderAt(blocks, size, p);
        if size[p] >= nunits {
          r := Take(prevp, p, nunits);
          return;
        }
        if p == freep {
          p := MoreCore(nunits, grant);
          if p == NULL {
            return NULL;
          }
          grown := true;
        }
        assert Linked(free, ptr, size, p);
        prevp, p := p, ptr[p];
      }
    }

    ghost predicate Fits(nunits: int)
      reads this
    {
      exists a :: a in free && a in blocks && blocks[a] >= nunits
    }
  }
}
