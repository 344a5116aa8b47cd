/** The buffer cache (kernel/bio.c).  Each method is one atomic step of a client: a critical
    section of bget or brelse, taking or giving up a buffer's sleep lock, or work done while
    holding it; steps of different clients may come in any order. */
module BufferCache {
  import opened Rings

  type Key = (int, int)             // device and sector number
  type Data = seq<int>
  type Disk = map<Key, Data>

  /** ~0, ~0: what binit puts in every buffer; no client asks for it. */
  const UNUSED: Key := (0xffff_ffff, 0xffff_ffff)
  const NOBODY := -1

  /** A struct buf: the client that holds its sleep lock is owner. */
  datatype Buf = Buf(valid: bool, key: Key, refcnt: int, owner: int, data: Data)

  type Bufs = seq<Buf>

  /** A disk holds something in every sector. */
  function Sector(disk: Disk, key: Key): Data
  {
    if key in disk then disk[key] else []
  }

  // ---- invariants; slot 0 is bcache.head and carries no buffer ----

  ghost predicate BufAt(bs: Bufs, disk: Disk, users: seq<set<int>>, dirty: seq<bool>, b: int)
  {
    1 <= b < |bs| && b < |users| && b < |dirty| ==>
      && bs[b].refcnt == |users[b]|
      && (bs[b].owner != NOBODY ==> bs[b].owner in users[b])
      && (dirty[b] ==> bs[b].owner != NOBODY && bs[b].valid)
      && (bs[b].valid && !dirty[b] ==> bs[b].data == Sector(disk, bs[b].key))
      && (bs[b].key == UNUSED ==> bs[b].refcnt == 0 && !bs[b].valid)
  }

  ghost predicate KeyAt(bs: Bufs, b: int, c: int)
  {
    1 <= b < |bs| && 1 <= c < |bs| && b != c && bs[b].key == bs[c].key ==> bs[b].key == UNUSED
  }

  /** Counts are the numbers of users; whoever holds a lock is one of them; a valid buffer is
      its sector unless its owner has changed it and not yet written it; and no two buffers
      are for the same sector. */
  ghost predicate Coherent(bs: Bufs, disk: Disk, users: seq<set<int>>, dirty: seq<bool>)
  {
    && |users| == |bs| && |dirty| == |bs|
    && (forall b {:trigger BufAt(bs, disk, users, dirty, b)} :: BufAt(bs, disk, users, dirty, b))
    && (forall b, c {:trigger KeyAt(bs, b, c)} :: KeyAt(bs, b, c))
  }

  ghost predicate LaterAt(order: seq<int>, stamp: seq<nat>, b: int, c: int)
  {
    0 <= b < |stamp| && 0 <= c < |stamp| && b in order && c in order && Place(order, b) < Place(order, c) ==> stamp[b] >= stamp[c]
  }

  /** The ring is in the order of last release, the latest first. */
  ghost predicate ByRelease(order: seq<int>, stamp: seq<nat>, clock: nat)
  {
    && (forall b, c {:trigger LaterAt(order, stamp, b, c)} :: LaterAt(order, stamp, b, c))
    && (forall b :: 0 <= b < |stamp| ==> stamp[b] <= clock)
  }

  // ---- the steps keep them ----

  lemma Updated(bs: Bufs, disk: Disk, users: seq<set<int>>, dirty: seq<bool>, b: int, buf: Buf, us: set<int>, d: bool)
    requires Coherent(bs, disk, users, dirty) && 1 <= b < |bs|
    requires BufAt(bs[b := buf], disk, users[b := us], dirty[b := d], b)
    requires buf.key == bs[b].key || forall c :: 1 <= c < |bs| ==> bs[c].key != buf.key
    ensures Coherent(bs[b := buf], disk, users[b := us], dirty[b := d])
  {
    var bs', users', dirty' := bs[b := buf], users[b := us], dirty[b := d];
    forall c ensures BufAt(bs', disk, users', dirty', c) { assert BufAt(bs, disk, users, dirty, c); }
    forall c, e ensures KeyAt(bs', c, e) { assert KeyAt(bs, c, e); }
  }

  /** Writing a sector concerns its one buffer only. */
  lemma Written(bs: Bufs, disk: Disk, users: seq<set<int>>, dirty: seq<bool>, b: int)
    requires Coherent(bs, disk, users, dirty) && 1 <= b < |bs| && bs[b].owner != NOBODY && bs[b].valid
    ensures Coherent(bs, disk[bs[b].key := bs[b].data], users, dirty[b := false])
  {
    var disk', dirty' := disk[bs[b].key := bs[b].data], dirty[b := false];
    assert BufAt(bs, disk, users, dirty, b);
    forall c ensures BufAt(bs, disk', users, dirty', c) {
      assert BufAt(bs, disk, users, dirty, c) && KeyAt(bs, b, c);
    }
  }

  lemma Released(order: seq<int>, stamp: seq<nat>, clock: nat, b: int)
    requires ByRelease(order, stamp, clock) && 1 <= b < |stamp| && b in order
    ensures ByRelease(ToFront(order, b), stamp[b := clock + 1], clock + 1)
  {
    var order', stamp' := ToFront(order, b), stamp[b := clock + 1];
    forall c, e ensures LaterAt(order', stamp', c, e) {
      assert LaterAt(order, stamp, c, e);
      if c in order' && e in order' && c != b {
        ToFrontKeeps(order, b, c, e);
        if e == b { FirstPlace(order', b); }
      }
    }
  }

  lemma FirstPlace(s: seq<int>, b: int)
    requires |s| > 0 && s[0] == b
    ensures Place(s, b) == 0
  {
  }

  function EmptyBufs(n: nat): (bs: Bufs)
    ensures |bs| == n + 1 && forall b :: 0 <= b <= n ==> bs[b] == Buf(false, UNUSED, 0, NOBODY, [])
  {
    seq(n + 1, i => Buf(false, UNUSED, 0, NOBODY, []))
  }

  /** A buffer without an owner has nothing unwritten in it; one without users has no owner. */
  lemma Idle(bs: Bufs, disk: Disk, users: seq<set<int>>, dirty: seq<bool>, b: int)
    requires Coherent(bs, disk, users, dirty) && 1 <= b < |bs|
    ensures bs[b].owner == NOBODY ==> !dirty[b]
    ensures bs[b].refcnt == 0 ==> bs[b].owner == NOBODY
  {
    assert BufAt(bs, disk, users, dirty, b);
  }

  class Cache {
    var bufs: Bufs
    var next: Links
    var prev: Links
    var disk: Disk
    ghost var order: seq<int>
    ghost var users: seq<set<int>>     // the clients that hold a reference
    ghost var dirty: seq<bool>         // changed by the owner and not written
    ghost var stamp: seq<nat>          // when a buffer was last put back
    ghost var clock: nat

    ghost predicate Valid()
      reads this
    {
      && |bufs| > 0 && Ring(next, prev, order, |bufs| - 1) && |stamp| == |bufs|
      && Coherent(bufs, disk, users, dirty) && ByRelease(order, stamp, clock)
    }

    /** binit: n buffers on the ring, none of them for any sector. */
    constructor (n: nat, disk: Disk)
      ensures Valid() && |bufs| == n + 1 && this.disk == disk && |users| == n + 1 && forall b :: 0 <= b <= n ==> users[b] == {}
    {
      bufs := EmptyBufs(n);
      next, prev := seq(n + 1, i => 0), seq(n + 1, i => 0);
      this.disk := disk;
      order, users, dirty := [], seq(n + 1, i => {}), seq(n + 1, i => false);
      stamp, clock := seq(n + 1, i => 0), 0;
      new;
      assert [0] + order == [0];
      var b := 1;
      while b <= n
        invariant 1 <= b <= n + 1
        invariant |next| == n + 1 && Round(next, prev, [0] + order) && (forall x :: x in order <==> 1 <= x < b)
        modifies `next, `prev, `order
      {
        hide Round;
        Rings.Pushed(next, prev, [0] + order, b);
        assert [0, b] + ([0] + order)[1..] == [0] + ([b] + order);
        order := [b] + order;
        next := next[b := next[0]];
        prev := prev[b := 0];
        prev := prev[next[0] := b];
        next := next[0 := b];
        b := b + 1;
      }
      hide Round;
    }

    /** bread up to acquiresleep: whoever finds another client owning the block's buffer waits
        there, as a user of the buffer; the others get it at once. */
    method BRead(client: int, dev: int, sectorno: int) returns (b: int, waits: bool)
      requires Valid() && client != NOBODY && (dev, sectorno) != UNUSED
      requires forall c :: 1 <= c < |bufs| && c < |users| && bufs[c].key == (dev, sectorno) ==> client !in users[c]
      modifies `bufs, `users
      ensures Valid() && |bufs| == |old(bufs)|
      ensures b == 0 <==> forall c :: 1 <= c < |bufs| ==> old(bufs)[c].refcnt > 0 && old(bufs)[c].key != (dev, sectorno)
      ensures waits <==> exists c :: 1 <= c < |bufs| && old(bufs)[c].key == (dev, sectorno) && old(bufs)[c].owner != NOBODY
      ensures b != 0 ==>
        && 1 <= b < |bufs| && b < |users| && client in users[b] && bufs[b].key == (dev, sectorno)
        && if waits then bufs[b].owner == old(bufs)[b].owner
           else bufs[b].owner == client && bufs[b].valid && bufs[b].data == Sector(disk, (dev, sectorno))
    {
      hide Coherent, ByRelease, Ring;
      Sizes(bufs, disk, users, dirty);
      ghost var bs, us := bufs, users;
      b := Get(client, dev, sectorno);
      if b == 0 { return b, false; }
      Idle(bs, disk, us, dirty, b);
      OneBuffer(bufs, disk, users, dirty, b);
      assert forall c :: 1 <= c < |bufs| && bs[c].key == (dev, sectorno) ==> c == b || bufs[c] == bs[c];
      assert bs[b].owner != NOBODY ==> bs[b].key == (dev, sectorno);
      waits := bufs[b].owner != NOBODY;
      if !waits { Awoken(client, b); }
    }

    /** The rest of bread, at once or when the owner has released the lock: the caller owns the
        buffer and sees what was written last. */
    method Awoken(client: int, b: int)
      requires Valid() && client != NOBODY && 1 <= b < |bufs| && |users| == |bufs| && client in users[b] && bufs[b].owner == NOBODY
      modifies `bufs
      ensures Valid() && bufs == old(bufs)[b := old(bufs)[b].(owner := client, valid := true, data := Sector(disk, old(bufs)[b].key))]
    {
      hide Coherent, ByRelease, Ring;
      Sizes(bufs, disk, users, dirty);
      Idle(bufs, disk, users, dirty, b);
      Lock(client, b);
      Fill(client, b);
      assert bufs[b] == old(bufs)[b].(owner := client, valid := true, data := Sector(disk, old(bufs)[b].key));
    }

    /** brelse by a client that has written what it changed. */
    method BRelse(client: int, b: int)
      requires Valid() && client != NOBODY && 1 <= b < |bufs| && |users| == |bufs| && client in users[b] && bufs[b].owner == client && |dirty| == |bufs| && !dirty[b]
      modifies `bufs, `users, `next, `prev, `order, `stamp, `clock
      ensures Valid() && |users| == |old(users)| && users == old(users)[b := old(users)[b] - {client}]
    {
      hide Coherent, ByRelease, Ring;
      Unlock(client, b);
      Drop(client, b);
    }

    /** bget's critical section.  A buffer in use keeps its identity; the one recycled is the
        one put back longest ago. */
    method Get(client: int, dev: int, sectorno: int) returns (b: int)
      requires Valid() && client != NOBODY && (dev, sectorno) != UNUSED
      requires forall c :: 1 <= c < |bufs| && c < |users| && bufs[c].key == (dev, sectorno) ==> client !in users[c]
      modifies `bufs, `users
      ensures Valid() && |bufs| == |old(bufs)|
      ensures b == 0 ==> bufs == old(bufs) && users == old(users) && (forall c :: 1 <= c < |bufs| ==> bufs[c].refcnt > 0 && bufs[c].key != (dev, sectorno))
      ensures b != 0 ==>
        && 1 <= b < |bufs| && b < |users| && |users| == |old(users)| && users == old(users)[b := old(users)[b] + {client}]
        && bufs[b].key == (dev, sectorno) && bufs[b].refcnt == old(bufs)[b].refcnt + 1 && bufs == old(bufs)[b := bufs[b]]
        && (bufs[b].owner == old(bufs)[b].owner) && (old(bufs)[b].refcnt > 0 ==> bufs[b] == old(bufs)[b].(refcnt := bufs[b].refcnt))
        && (old(bufs)[b].key != (dev, sectorno) ==>
              && (forall c :: 1 <= c < |bufs| ==> old(bufs)[c].key != (dev, sectorno))
              && old(bufs)[b].refcnt == 0 && forall c :: 1 <= c < |bufs| && c < |stamp| && old(bufs)[c].refcnt == 0 ==> stamp[b] <= stamp[c])
    {
      hide Coherent, ByRelease;
      Sizes(bufs, disk, users, dirty);
      b := FindCached((dev, sectorno));
      if b != 0 {
        Joined(bufs, disk, users, dirty, b, client);
        users := users[b := users[b] + {client}];
        bufs := bufs[b := bufs[b].(refcnt := bufs[b].refcnt + 1)];
        return;
      }
      b := FindUnused();
      if b != 0 {
        Retagged(bufs, disk, users, dirty, b, client, (dev, sectorno));
        OldestStamp(bufs, next, prev, order, stamp, clock, b);
        users := users[b := users[b] + {client}];
        bufs := bufs[b := bufs[b].(key := (dev, sectorno))];
        bufs := bufs[b := bufs[b].(valid := false)];
        bufs := bufs[b := bufs[b].(refcnt := 1)];
        assert bufs == old(bufs)[b := old(bufs)[b].(key := (dev, sectorno), valid := false, refcnt := 1)];
      }
    }

    /** Is the block already cached? */
    method FindCached(key: Key) returns (b: int)
      requires |bufs| > 0 && Ring(next, prev, order, |bufs| - 1)
      ensures b != 0 ==> 1 <= b < |bufs| && bufs[b].key == key
      ensures b == 0 ==> forall c :: 1 <= c < |bufs| ==> bufs[c].key != key
    {
      ghost var i := 0;
      b := next[0];
      First(next, prev, order, |bufs| - 1);
      while b != 0
        invariant 0 <= i <= |order| && b == (if i < |order| then order[i] else 0) && (b == 0 ==> i == |order|)
        invariant forall j :: 0 <= j < i ==> 0 <= order[j] < |bufs| && bufs[order[j]].key != key
        decreases |order| - i
      {
        Along(next, prev, order, |bufs| - 1, i);
        if bufs[b].key == key { return; }
        b := next[b];
        i := i + 1;
      }
      forall c | 1 <= c < |bufs| ensures bufs[c].key != key { PlaceOf(order, c); }
    }

    /** The least recently used buffer that nobody uses. */
    method FindUnused() returns (b: int)
      requires |bufs| > 0 && Ring(next, prev, order, |bufs| - 1)
      ensures b != 0 ==> LeastRecent(bufs, order, b)
      ensures b == 0 ==> forall c :: 1 <= c < |bufs| ==> bufs[c].refcnt != 0
    {
      ghost var i := |order| - 1;
      b := prev[0];
      Last(next, prev, order, |bufs| - 1);
      while b != 0
        invariant -1 <= i < |order| && b == (if 0 <= i then order[i] else 0) && (b == 0 ==> i == -1)
        invariant forall j :: i < j < |order| ==> 0 <= order[j] < |bufs| && bufs[order[j]].refcnt != 0
        decreases i
      {
        Along(next, prev, order, |bufs| - 1, i);
        if bufs[b].refcnt == 0 {
          PlaceAt(next, prev, order, |bufs| - 1, i);
          forall c | 1 <= c < |bufs| && Place(order, b) < Place(order, c) ensures bufs[c].refcnt != 0 { PlaceOf(order, c); }
          return;
        }
        b := prev[b];
        i := i - 1;
      }
      forall c | 1 <= c < |bufs| ensures bufs[c].refcnt != 0 { PlaceOf(order, c); }
    }

    /** acquiresleep, when it returns: nobody else owns the lock then (SleepLocks.OneSleepHolder). */
    method Lock(client: int, b: int)
      requires Valid() && client != NOBODY && 1 <= b < |bufs| && |users| == |bufs| && client in users[b] && bufs[b].owner == NOBODY
      modifies `bufs
      ensures Valid() && bufs == old(bufs)[b := old(bufs)[b].(owner := client)]
    {
      hide Coherent, ByRelease;
      Locked(bufs, disk, users, dirty, b, client);
      bufs := bufs[b := bufs[b].(owner := client)];
    }

    /** The rest of bread: afterwards the owner sees what is on the disk. */
    method Fill(client: int, b: int)
      requires Valid() && client != NOBODY && 1 <= b < |bufs| && bufs[b].owner == client && |dirty| == |bufs| && !dirty[b]
      modifies `bufs
      ensures Valid() && bufs == old(bufs)[b := old(bufs)[b].(valid := true, data := Sector(disk, old(bufs)[b].key))]
    {
      hide Ring, ByRelease, Coherent;
      Seen(bufs, disk, users, dirty, b);
      if !bufs[b].valid {
        Filled(bufs, disk, users, dirty, b);
        bufs := bufs[b := bufs[b].(data := Sector(disk, bufs[b].key))];
        bufs := bufs[b := bufs[b].(valid := true)];
        assert bufs == old(bufs)[b := old(bufs)[b].(data := Sector(disk, old(bufs)[b].key), valid := true)];
      }
      assert bufs[b] == old(bufs)[b].(valid := true, data := Sector(disk, old(bufs)[b].key));
    }

    /** The owner changes the contents. */
    method Edit(client: int, b: int, data: Data)
      requires Valid() && client != NOBODY && 1 <= b < |bufs| && bufs[b].owner == client && bufs[b].valid && |dirty| == |bufs|
      modifies `bufs, `dirty
      ensures Valid() && bufs == old(bufs)[b := old(bufs)[b].(data := data)] && dirty == old(dirty)[b := true]
    {
      hide Coherent, ByRelease;
      Edited(bufs, disk, users, dirty, b, data);
      dirty := dirty[b := true];
      bufs := bufs[b := bufs[b].(data := data)];
    }

    /** bwrite */
    method Write(client: int, b: int)
      requires Valid() && client != NOBODY && 1 <= b < |bufs| && bufs[b].owner == client && bufs[b].valid && |dirty| == |bufs|
      modifies `disk, `dirty
      ensures Valid() && disk == old(disk)[bufs[b].key := bufs[b].data] && dirty == old(dirty)[b := false]
    {
      hide Coherent, ByRelease;
      Written(bufs, disk, users, dirty, b);
      disk := disk[bufs[b].key := bufs[b].data];
      dirty := dirty[b := false];
    }

    /** releasesleep, by a client that has written what it changed. */
    method Unlock(client: int, b: int)
      requires Valid() && client != NOBODY && 1 <= b < |bufs| && bufs[b].owner == client && |dirty| == |bufs| && !dirty[b]
      modifies `bufs
      ensures Valid() && bufs == old(bufs)[b := old(bufs)[b].(owner := NOBODY)]
    {
      hide Coherent, ByRelease;
      Unlocked(bufs, disk, users, dirty, b);
      bufs := bufs[b := bufs[b].(owner := NOBODY)];
    }

    /** brelse's critical section. */
    method Drop(client: int, b: int)
      requires Valid() && client != NOBODY && 1 <= b < |bufs| && |users| == |bufs| && client in users[b] && bufs[b].owner != client
      modifies `bufs, `users, `next, `prev, `order, `stamp, `clock
      ensures Valid() && |users| == |old(users)| && users == old(users)[b := old(users)[b] - {client}]
      ensures bufs == old(bufs)[b := old(bufs)[b].(refcnt := old(bufs)[b].refcnt - 1)]
      ensures order == if bufs[b].refcnt == 0 then ToFront(old(order), b) else old(order)
    {
      hide Coherent, ByRelease, Ring;
      Left(bufs, disk, users, dirty, b, client);
      users := users[b := users[b] - {client}];
      bufs := bufs[b := bufs[b].(refcnt := bufs[b].refcnt - 1)];
      if bufs[b].refcnt == 0 {
        OnRing(next, prev, order, |bufs| - 1);
        Released(order, stamp, clock, b);
        MoveToFront(b);
        clock := clock + 1;
        stamp := stamp[b := clock];
      }
    }

    /** The list surgery of brelse. */
    method MoveToFront(b: int)
      requires |bufs| > 0 && Ring(next, prev, order, |bufs| - 1) && 1 <= b < |bufs|
      modifies `next, `prev, `order
      ensures Ring(next, prev, order, |bufs| - 1) && order == ToFront(old(order), b)
    {
      MovedToFront(next, prev, order, |bufs| - 1, b);
      order := ToFront(order, b);
      var after, before := next[b], prev[b];
      prev := prev[after := before];
      next := next[before := after];
      next := next[b := next[0]];
      prev := prev[b := 0];
      prev := prev[next[0] := b];
      next := next[0 := b];
    }
  }

  lemma Sizes(bs: Bufs, disk: Disk, users: seq<set<int>>, dirty: seq<bool>)
    requires Coherent(bs, disk, users, dirty)
    ensures |users| == |bs| && |dirty| == |bs| && forall b :: 1 <= b < |bs| ==> bs[b].refcnt >= 0
  {
    forall b | 1 <= b < |bs| ensures bs[b].refcnt >= 0 { assert BufAt(bs, disk, users, dirty, b); }
  }

  /** No other buffer is for the same sector. */
  lemma OneBuffer(bs: Bufs, disk: Disk, users: seq<set<int>>, dirty: seq<bool>, b: int)
    requires Coherent(bs, disk, users, dirty) && 1 <= b < |bs| && bs[b].key != UNUSED
    ensures forall c :: 1 <= c < |bs| && bs[c].key == bs[b].key ==> c == b
  {
    forall c | 1 <= c < |bs| && bs[c].key == bs[b].key ensures c == b { assert KeyAt(bs, b, c); }
  }

  lemma Seen(bs: Bufs, disk: Disk, users: seq<set<int>>, dirty: seq<bool>, b: int)
    requires Coherent(bs, disk, users, dirty) && 1 <= b < |bs| && !dirty[b]
    ensures bs[b].valid ==> bs[b].data == Sector(disk, bs[b].key)
  {
    assert BufAt(bs, disk, users, dirty, b);
  }

  ghost predicate LeastRecent(bs: Bufs, order: seq<int>, b: int)
  {
    1 <= b < |bs| && bs[b].refcnt == 0 && forall c :: 1 <= c < |bs| && Place(order, b) < Place(order, c) ==> bs[c].refcnt != 0
  }

  lemma OldestStamp(bs: Bufs, next: Links, prev: Links, order: seq<int>, stamp: seq<nat>, clock: nat, b: int)
    requires |bs| > 0 && Ring(next, prev, order, |bs| - 1) && ByRelease(order, stamp, clock) && LeastRecent(bs, order, b) && |stamp| == |bs|
    ensures forall c :: 1 <= c < |bs| && bs[c].refcnt == 0 ==> stamp[b] <= stamp[c]
  {
    forall c | 1 <= c < |bs| && bs[c].refcnt == 0 ensures stamp[b] <= stamp[c] {
      assert LaterAt(order, stamp, c, b);
      PlaceOf(order, b);
      PlaceOf(order, c);
    }
  }

  lemma Joined(bs: Bufs, disk: Disk, users: seq<set<int>>, dirty: seq<bool>, b: int, client: int)
    requires Coherent(bs, disk, users, dirty) && 1 <= b < |bs| && client !in users[b] && bs[b].key != UNUSED
    ensures Coherent(bs[b := bs[b].(refcnt := bs[b].refcnt + 1)], disk, users[b := users[b] + {client}], dirty)
  {
    assert BufAt(bs, disk, users, dirty, b);
    assert dirty[b := dirty[b]] == dirty;
    Updated(bs, disk, users, dirty, b, bs[b].(refcnt := bs[b].refcnt + 1), users[b] + {client}, dirty[b]);
  }

  lemma Retagged(bs: Bufs, disk: Disk, users: seq<set<int>>, dirty: seq<bool>, b: int, client: int, key: Key)
    requires Coherent(bs, disk, users, dirty) && 1 <= b < |bs| && bs[b].refcnt == 0 && key != UNUSED && forall c :: 1 <= c < |bs| ==> bs[c].key != key
    ensures Coherent(bs[b := bs[b].(key := key, valid := false, refcnt := 1)], disk, users[b := users[b] + {client}], dirty)
    ensures bs[b].owner == NOBODY && client !in users[b] && |users| == |bs|
  {
    assert BufAt(bs, disk, users, dirty, b);
    assert dirty[b := dirty[b]] == dirty;
    assert users[b] == {};
    Updated(bs, disk, users, dirty, b, bs[b].(key := key, valid := false, refcnt := 1), users[b] + {client}, dirty[b]);
  }

  lemma Locked(bs: Bufs, disk: Disk, users: seq<set<int>>, dirty: seq<bool>, b: int, client: int)
    requires Coherent(bs, disk, users, dirty) && 1 <= b < |bs| && client in users[b] && bs[b].owner == NOBODY && client != NOBODY
    ensures Coherent(bs[b := bs[b].(owner := client)], disk, users, dirty)
  {
    assert BufAt(bs, disk, users, dirty, b);
    assert dirty[b := dirty[b]] == dirty && users[b := users[b]] == users;
    Updated(bs, disk, users, dirty, b, bs[b].(owner := client), users[b], dirty[b]);
  }

  lemma Filled(bs: Bufs, disk: Disk, users: seq<set<int>>, dirty: seq<bool>, b: int)
    requires Coherent(bs, disk, users, dirty) && 1 <= b < |bs| && bs[b].owner != NOBODY && !dirty[b] && !bs[b].valid
    ensures Coherent(bs[b := bs[b].(data := Sector(disk, bs[b].key), valid := true)], disk, users, dirty)
  {
    assert BufAt(bs, disk, users, dirty, b);
    assert dirty[b := dirty[b]] == dirty && users[b := users[b]] == users;
    Updated(bs, disk, users, dirty, b, bs[b].(data := Sector(disk, bs[b].key), valid := true), users[b], dirty[b]);
  }

  lemma Edited(bs: Bufs, disk: Disk, users: seq<set<int>>, dirty: seq<bool>, b: int, data: Data)
    requires Coherent(bs, disk, users, dirty) && 1 <= b < |bs| && bs[b].owner != NOBODY && bs[b].valid
    ensures Coherent(bs[b := bs[b].(data := data)], disk, users, dirty[b := true])
  {
    assert BufAt(bs, disk, users, dirty, b);
    assert users[b := users[b]] == users;
    Updated(bs, disk, users, dirty, b, bs[b].(data := data), users[b], true);
  }

  lemma Unlocked(bs: Bufs, disk: Disk, users: seq<set<int>>, dirty: seq<bool>, b: int)
    requires Coherent(bs, disk, users, dirty) && 1 <= b < |bs| && !dirty[b]
    ensures Coherent(bs[b := bs[b].(owner := NOBODY)], disk, users, dirty)
  {
    assert BufAt(bs, disk, users, dirty, b);
    assert dirty[b := dirty[b]] == dirty && users[b := users[b]] == users;
    Updated(bs, disk, users, dirty, b, bs[b].(owner := NOBODY), users[b], dirty[b]);
  }

  lemma Left(bs: Bufs, disk: Disk, users: seq<set<int>>, dirty: seq<bool>, b: int, client: int)
    requires Coherent(bs, disk, users, dirty) && 1 <= b < |bs| && client in users[b] && bs[b].owner != client
    ensures Coherent(bs[b := bs[b].(refcnt := bs[b].refcnt - 1)], disk, users[b := users[b] - {client}], dirty)
  {
    assert BufAt(bs, disk, users, dirty, b);
    assert dirty[b := dirty[b]] == dirty;
    Updated(bs, disk, users, dirty, b, bs[b].(refcnt := bs[b].refcnt - 1), users[b] - {client}, dirty[b]);
  }
}
