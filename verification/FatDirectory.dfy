/** emake, enext, eremove and dirlookup's scan of kernel/fat32.c on the volume. */
module FatDirectory {
  import opened FatChains
  import opened FatData
  import opened FatVolume
  import opened FatNames
  import opened FatListing
  import opened FatChanges
  import opened FatRuns
  import opened FatEncode

  const SLOTS_PER_SEC := 16   // BSIZE / 32

  /** Slot k of a byte stream. */
  ghost function StreamSlot(disk: seq<Sector>, g: Geometry, ch: seq<int>, k: int): Slot
  {
    Bytes(disk, g, ch, SLOT * k, SLOT * k + SLOT)
  }

  /** The slots a directory's clusters hold. */
  ghost function DirSlots(disk: seq<Sector>, g: Geometry, ch: seq<int>): (s: seq<Slot>)
    requires g.Valid()
    ensures |s| == |ch| * (g.spc * SLOTS_PER_SEC)
    ensures forall k :: 0 <= k < |s| ==> s[k] == StreamSlot(disk, g, ch, k)
  {
    Area(|ch|, g.spc * SLOTS_PER_SEC);
    seq<Slot>(|ch| * (g.spc * SLOTS_PER_SEC), k => StreamSlot(disk, g, ch, k))
  }

  lemma Area(x: int, y: int)
    requires x >= 0 && y >= 0
    ensures x * y >= 0
  {
  }

  lemma Scaled(q: int, b: int)
    ensures q * (SLOT * b) == SLOT * (q * b)
  {
  }

  /** Where slot k lies: in cluster q of the chain, wholly inside it. */
  lemma SlotPlace(k: int, spc: int, n: int) returns (q: int, r: int)
    requires spc >= 1 && 0 <= k
    ensures q == SLOT * k / (spc * BSIZE) && r == SLOT * k % (spc * BSIZE) && 0 <= q && 0 <= r
    ensures SLOT * k == q * (spc * BSIZE) + r && r % SLOT == 0 && r + SLOT <= spc * BSIZE
    ensures q < n <==> k < n * (spc * SLOTS_PER_SEC)
  {
    q, r := Split(SLOT * k, spc * BSIZE);
    var b := spc * SLOTS_PER_SEC;
    assert spc * BSIZE == SLOT * b;
    Scaled(q, b);
    hide *;
    assert r == SLOT * (k - q * b);
    if q < n {
      if q + 1 < n { Gap(b, q + 1, n); }
      assert (q + 1) * b == q * b + b;
    } else if n < q {
      Gap(b, n, q);
    }
  }

  ghost function Flat(run: seq<Slot>): (b: seq<byte>)
    ensures |b| == SLOT * |run|
  {
    if run == [] then [] else run[0] + Flat(run[1..])
  }

  lemma Behind(first: seq<byte>, rest: seq<byte>, m: int, n: int)
    requires |first| == m && 0 <= n && n + SLOT <= |rest|
    ensures (first + rest)[m + n..m + n + SLOT] == rest[n..n + SLOT]
  {
  }

  lemma {:induction false} FlatAt(run: seq<Slot>, j: int)
    requires 0 <= j < |run|
    ensures Flat(run)[SLOT * j..SLOT * j + SLOT] == run[j]
    decreases run
  {
    var first: seq<byte>, rest: seq<byte> := run[0], Flat(run[1..]);
    assert Flat(run) == first + rest;
    if j > 0 {
      FlatAt(run[1..], j - 1);
      hide Flat;
      assert run[1..][j - 1] == run[j];
      Behind(first, rest, SLOT, SLOT * (j - 1));
    }
  }

  lemma {:induction false} FlatSnoc(run: seq<Slot>, s: Slot)
    ensures Flat(run + [s]) == Flat(run) + s
    decreases run
  {
    if run == [] {
      assert run + [s] == [s];
      assert Flat([s]) == s + Flat([s][1..]);
    } else {
      FlatSnoc(run[1..], s);
      assert (run + [s])[1..] == run[1..] + [s];
      assert run[0] + (Flat(run[1..]) + s) == (run[0] + Flat(run[1..])) + s;
    }
  }

  lemma FlatByte(run: seq<Slot>, j: int, i: int)
    requires 0 <= j < |run| && 0 <= i < SLOT
    ensures Flat(run)[SLOT * j + i] == run[j][i]
  {
    FlatAt(run, j);
    var flat := Flat(run);
    hide Flat;
    assert flat[SLOT * j..SLOT * j + SLOT][i] == flat[SLOT * j + i];
  }

  /** Storing slots in the stream is overwriting them in the directory. */
  lemma StoredSlots(disk: seq<Sector>, disk': seq<Sector>, g: Geometry, ch: seq<int>, ch': seq<int>, t: int, run: seq<Slot>)
    requires g.Valid() && |ch| <= |ch'| && 0 <= t && t + |run| <= |ch'| * (g.spc * SLOTS_PER_SEC)
    requires Stored(disk, disk', g, ch, ch', SLOT * t, Flat(run))
    ensures Overwritten(DirSlots(disk, g, ch), DirSlots(disk', g, ch'), t, run)
  {
    hide Stored, StreamSlot, Flat;
    var a, b := DirSlots(disk, g, ch), DirSlots(disk', g, ch');
    if |ch| < |ch'| { Gap(g.spc * SLOTS_PER_SEC, |ch|, |ch'|); }
    forall j | 0 <= j < |b|
      ensures j < t && j < |a| ==> b[j] == a[j]
      ensures t <= j < t + |run| ==> b[j] == run[j - t]
      ensures t + |run| <= j ==> if j < |a| then b[j] == a[j] else b[j][0] == END_OF_ENTRY
    {
      StoredSlot(disk, disk', g, ch, ch', t, run, j);
      if j >= |a| { PastEnd(disk, g, ch, j); }
    }
    assert b[t..t + |run|] == run;
  }

  lemma StoredSlot(disk: seq<Sector>, disk': seq<Sector>, g: Geometry, ch: seq<int>, ch': seq<int>, t: int, run: seq<Slot>, j: int)
    requires 0 <= t && 0 <= j && Stored(disk, disk', g, ch, ch', SLOT * t, Flat(run))
    ensures t <= j < t + |run| ==> StreamSlot(disk', g, ch', j) == run[j - t]
    ensures !(t <= j < t + |run|) ==> StreamSlot(disk', g, ch', j) == StreamSlot(disk, g, ch, j)
  {
    hide StreamSlot, Flat, Stored;
    if t <= j < t + |run| {
      forall i | 0 <= i < SLOT ensures StreamSlot(disk', g, ch', j)[i] == run[j - t][i] {
        NewByte(disk, disk', g, ch, ch', t, run, j, i);
      }
    } else {
      forall i | 0 <= i < SLOT ensures StreamSlot(disk', g, ch', j)[i] == StreamSlot(disk, g, ch, j)[i] {
        KeptByte(disk, disk', g, ch, ch', t, run, j, i);
      }
    }
  }

  lemma NewByte(disk: seq<Sector>, disk': seq<Sector>, g: Geometry, ch: seq<int>, ch': seq<int>, t: int, run: seq<Slot>, j: int, i: int)
    requires 0 <= t <= j < t + |run| && 0 <= i < SLOT && Stored(disk, disk', g, ch, ch', SLOT * t, Flat(run))
    ensures StreamSlot(disk', g, ch', j)[i] == run[j - t][i]
  {
    hide StreamSlot, Flat, Stored, FileByte;
    FlatByte(run, j - t, i);
    SlotByte(disk', g, ch', j, i);
    ByteStored(disk, disk', g, ch, ch', SLOT * t, Flat(run), SLOT * j + i);
  }

  lemma KeptByte(disk: seq<Sector>, disk': seq<Sector>, g: Geometry, ch: seq<int>, ch': seq<int>, t: int, run: seq<Slot>, j: int, i: int)
    requires 0 <= t && 0 <= j && !(t <= j < t + |run|) && 0 <= i < SLOT && Stored(disk, disk', g, ch, ch', SLOT * t, Flat(run))
    ensures StreamSlot(disk', g, ch', j)[i] == StreamSlot(disk, g, ch, j)[i]
  {
    hide StreamSlot, Flat, Stored, FileByte;
    SlotByte(disk', g, ch', j, i);
    SlotByte(disk, g, ch, j, i);
    ByteStored(disk, disk', g, ch, ch', SLOT * t, Flat(run), SLOT * j + i);
  }

  lemma SlotByte(disk: seq<Sector>, g: Geometry, ch: seq<int>, j: int, i: int)
    requires 0 <= i < SLOT
    ensures StreamSlot(disk, g, ch, j)[i] == FileByte(disk, g, ch, SLOT * j + i)
  {
  }

  lemma ByteStored(disk: seq<Sector>, disk': seq<Sector>, g: Geometry, ch: seq<int>, ch': seq<int>, off: int, bytes: seq<byte>, k: int)
    requires Stored(disk, disk', g, ch, ch', off, bytes)
    ensures FileByte(disk', g, ch', k) == if off <= k < off + |bytes| then bytes[k - off] else FileByte(disk, g, ch, k)
  {
  }

  /** Past the end of the chain the stream is zero. */
  lemma PastEnd(disk: seq<Sector>, g: Geometry, ch: seq<int>, k: int)
    requires g.Valid() && 0 <= k && |ch| * (g.spc * SLOTS_PER_SEC) <= k
    ensures StreamSlot(disk, g, ch, k)[0] == 0
  {
    var q, r := SlotPlace(k, g.spc, |ch|);
    At(disk, g, ch, SLOT * k, q, r);
  }

  /** A directory whose clusters the volume holds, with a valid cursor. */
  ghost predicate DirOk(v: Volume, dp: Dirent)
    reads v, dp
  {
    && v.Valid() && dp.id != TEMP && dp.firstClus != 0
    && CursorAt(v.chains, dp.id, dp.firstClus, dp.curClus, dp.clusCnt)
  }

  /** The slots of directory dp. */
  ghost function SlotsOf(v: Volume, dp: Dirent): seq<Slot>
    requires DirOk(v, dp)
    reads v, dp
  {
    DirSlots(v.disk, v.g, v.chains[dp.id])
  }

  /** reloc_clus and rw_clus together: slot k of the directory, if it has one. */
  method ReadSlot(v: Volume, dp: Dirent, k: int) returns (ok: bool, s: Slot)
    requires DirOk(v, dp) && 0 <= k
    modifies v, dp`curClus, dp`clusCnt
    ensures DirOk(v, dp) && v.fat == old(v.fat) && v.disk == old(v.disk) && v.chains == old(v.chains)
    ensures ok <==> k < |SlotsOf(v, dp)|
    ensures ok ==> s == SlotsOf(v, dp)[k]
  {
    hide Linked, Sized, OnlyGrew, Stored, FileByte, ClusByte;
    ghost var ch := v.chains[dp.id];
    GeometryOf(v);
    ghost var q, r := SlotPlace(k, v.g.spc, |ch|);
    var off2, panicked := v.RelocClus(dp, SLOT * k, false);
    if off2 == -1 {
      return false, Zeros(SLOT);
    }
    ClusterOf(v, dp.id, q);
    var tot, out := v.ReadClus(dp.curClus, SLOT, off2, SLOT);
    SlotRead(v.disk, v.g, ch, k, q, r, out);
    return true, out;
  }

  lemma GeometryOf(v: Volume)
    requires v.Valid()
    ensures v.g.Valid()
  {
  }

  lemma ClusterOf(v: Volume, f: FileId, q: int)
    requires v.Valid() && f in v.chains && 0 <= q < |v.chains[f]|
    ensures 2 <= v.chains[f][q] <= v.g.last && Sized(v.disk, v.g)
  {
    assert LinkAt(v.fat, v.chains, v.own, v.g.last, f, q);
  }

  lemma SlotRead(disk: seq<Sector>, g: Geometry, ch: seq<int>, k: int, q: int, r: int, out: seq<byte>)
    requires g.Valid() && 0 <= q < |ch| && 0 <= r && r + SLOT <= g.Bpc() && SLOT * k == q * g.Bpc() + r && |out| == SLOT
    requires forall i :: 0 <= i < SLOT ==> out[i] == ClusByte(disk, g, ch[q], r + i)
    ensures out == StreamSlot(disk, g, ch, k)
  {
    forall i | 0 <= i < SLOT ensures out[i] == FileByte(disk, g, ch, SLOT * k + i) {
      At(disk, g, ch, SLOT * k + i, q, r + i);
    }
  }

  /** reloc_clus and rw_clus together: stores slot k in the middle of a write that has stored
      b so far, growing the directory if need be. */
  method PutSlot(ghost fat0: seq<int>, ghost disk0: seq<Sector>, ghost chains0: Chains, ghost start: int, ghost b: seq<byte>,
                 v: Volume, dp: Dirent, k: int, s: Slot) returns (panicked: bool)
    requires v.Written(fat0, disk0, chains0, dp.id, start, b) && SLOT * k == start + |b| && 0 <= k
    requires CursorAt(v.chains, dp.id, dp.firstClus, dp.curClus, dp.clusCnt)
    modifies v, dp`curClus, dp`clusCnt
    ensures panicked ==> v.g.Valid() && Clusters(SLOT * k + 1, v.g.Bpc()) - |ChainOf(chains0, dp.id)| > |FreeSlots(fat0)|
    ensures !panicked ==>
      && v.Written(fat0, disk0, chains0, dp.id, start, b + s)
      && CursorAt(v.chains, dp.id, dp.firstClus, dp.curClus, dp.clusCnt)
      && k < |v.chains[dp.id]| * (v.g.spc * SLOTS_PER_SEC) && v.chains[dp.id] != []
  {
    hide Linked, Sized, Stored, OthersKept, FreeSlots, Elements;
    GeometryOf(v);
    var off := SLOT * k;
    ghost var q, r := SlotPlace(k, v.g.spc, |v.chains[dp.id]|);
    ClustersAt(off + 1, v.g.Bpc(), q, r + 1);
    panicked := v.RelocForWrite(fat0, disk0, chains0, start, b, dp, off);
    if panicked {
      return;
    }
    ghost var q', r' := SlotPlace(k, v.g.spc, |v.chains[dp.id]|);
    var t := v.StoreChunk(fat0, disk0, chains0, start, b, dp.id, q, dp.curClus, s, off % v.g.Bpc(), SLOT);
    assert s[..t] == s;
  }

  /** emake: the entry r of directory dp at slot k (offset 32 * k).  it is what was stored. */
  method Emake(v: Volume, dp: Dirent, r: Record, k: int) returns (panicked: bool, ghost it: Item)
    requires DirOk(v, dp) && r.Valid() && 0 <= k
    modifies v, dp`curClus, dp`clusCnt
    ensures it == Long(r, Checksum(ShortForm(r.name), CHAR_SHORT_NAME), ShortForm(r.name)) && it.short[0] != END_OF_ENTRY
    ensures r.name[0] != BLANK && r.name[0] != DOT_CHAR ==> it.short[0] == ShortChar(r.name[0])
    ensures panicked ==> v.g.Valid() && Clusters(SLOT * (k + |Run(it, k)|), v.g.Bpc()) - |old(v.chains)[dp.id]| > |FreeSlots(old(v.fat))|
    ensures !panicked ==>
      && DirOk(v, dp)
      && Overwritten(old(SlotsOf(v, dp)), SlotsOf(v, dp), k, Run(it, k))
      && OnlyGrew(old(v.fat), v.fat, old(v.disk), v.disk, old(v.chains), v.chains, v.g, dp.id)
  {
    hide Linked, Sized, OnlyGrew, Stored, OthersKept, FreeSlots, Elements, DirSlots, LongRun, ShortSlot, Clusters, Flat, DotSlot;
    v.WrittenStart(dp.id, SLOT * k);
    GeometryOf(v);
    var short := GenerateShortname(r.name);
    ShortForms(r.name);
    var sum := CalChecksum(short);
    it := Long(r, sum, short);
    ghost var run: seq<Slot> := [];
    FlatNil();
    if k <= 1 {
      panicked := PutSlot(old(v.fat), old(v.disk), old(v.chains), SLOT * k, Flat(run), v, dp, k, DotSlot(k, r.clus));
      ClustersMono(SLOT * k + 1, SLOT * (k + 1), v.g.Bpc());
      FlatSnoc(run, DotSlot(k, r.clus));
      run := run + [DotSlot(k, r.clus)];
    } else {
      var at := k;
      panicked, at := EmakeLongs(old(v.fat), old(v.disk), old(v.chains), v, dp, r, sum, k);
      if panicked {
        ClustersMono(SLOT * (k + r.Longs()), SLOT * (k + r.Longs() + 1), v.g.Bpc());
        return;
      }
      run := LongRun(r, sum, r.Longs());
      panicked := PutSlot(old(v.fat), old(v.disk), old(v.chains), SLOT * k, Flat(run), v, dp, at, ShortSlot(short, r.attr, r.clus, r.size));
      ClustersMono(SLOT * at + 1, SLOT * (at + 1), v.g.Bpc());
      FlatSnoc(run, ShortSlot(short, r.attr, r.clus, r.size));
      run := run + [ShortSlot(short, r.attr, r.clus, r.size)];
    }
    if !panicked {
      PrefixLength(old(v.fat), v.fat, old(v.disk), v.disk, old(v.chains), v.chains, v.g, dp.id);
      StoredSlots(old(v.disk), v.disk, v.g, old(v.chains)[dp.id], v.chains[dp.id], k, run);
    }
  }

  lemma FlatNil()
    ensures Flat([]) == []
  {
  }

  lemma PrefixLength(fat: seq<int>, fat': seq<int>, disk: seq<Sector>, disk': seq<Sector>, chains: Chains, chains': Chains, g: Geometry, f: FileId)
    requires OnlyGrew(fat, fat', disk, disk', chains, chains', g, f) && f in chains && f in chains'
    ensures |chains[f]| <= |chains'[f]|
  {
  }

  /** emake's loop over the long entries. */
  method EmakeLongs(ghost fat0: seq<int>, ghost disk0: seq<Sector>, ghost chains0: Chains,
                    v: Volume, dp: Dirent, r: Record, sum: byte, k: int) returns (panicked: bool, at: int)
    requires v.Written(fat0, disk0, chains0, dp.id, SLOT * k, []) && r.Valid() && 0 <= k
    requires CursorAt(v.chains, dp.id, dp.firstClus, dp.curClus, dp.clusCnt)
    modifies v, dp`curClus, dp`clusCnt
    ensures panicked ==> v.g.Valid() && Clusters(SLOT * (k + r.Longs()), v.g.Bpc()) - |ChainOf(chains0, dp.id)| > |FreeSlots(fat0)|
    ensures !panicked ==>
      && at == k + r.Longs()
      && v.Written(fat0, disk0, chains0, dp.id, SLOT * k, Flat(LongRun(r, sum, r.Longs())))
      && CursorAt(v.chains, dp.id, dp.firstClus, dp.curClus, dp.clusCnt)
  {
    hide Volume.Written, CursorAt, LongRun, Clusters, Flat, LongSlot;
    var de: Slot := Zeros(SLOT)[13 := sum][11 := ATTR_LONG_NAME];
    var i := r.Longs();
    ghost var run: seq<Slot> := [];
    FlatNil();
    GeometryIn(v, fat0, disk0, chains0, dp.id, SLOT * k, []);
    at, panicked := k, false;
    while i > 0
      invariant 0 <= i <= r.Longs() && at == k + |run| && |run| == r.Longs() - i
      invariant run + LongRun(r, sum, i) == LongRun(r, sum, r.Longs())
      invariant de[11] == ATTR_LONG_NAME && de[12] == 0 && de[13] == sum && de[26] == 0 && de[27] == 0
      invariant v.Written(fat0, disk0, chains0, dp.id, SLOT * k, Flat(run))
      invariant CursorAt(v.chains, dp.id, dp.firstClus, dp.curClus, dp.clusCnt)
    {
      LongRunCons(r, sum, i);
      de := FillLong(de, r, sum, i);
      FixedBytes(r, sum, i);
      panicked := PutSlot(fat0, disk0, chains0, SLOT * k, Flat(run), v, dp, at, de);
      if panicked {
        ClustersMono(SLOT * at + 1, SLOT * (k + r.Longs()), v.g.Bpc());
        return;
      }
      FlatSnoc(run, de);
      assert run + ([de] + LongRun(r, sum, i - 1)) == (run + [de]) + LongRun(r, sum, i - 1);
      run := run + [de];
      at, i := at + 1, i - 1;
    }
    LongRunNil(r, sum);
    assert run + [] == run;
  }

  lemma LongRunNil(r: Record, sum: byte)
    requires r.Longs() <= 20 && 0 <= r.Longs()
    ensures LongRun(r, sum, 0) == []
  {
  }

  lemma FixedBytes(r: Record, sum: byte, i: int)
    requires 1 <= i <= r.Longs() <= 20
    ensures var s := LongSlot(r, sum, i); s[11] == ATTR_LONG_NAME && s[12] == 0 && s[13] == sum && s[26] == 0 && s[27] == 0
  {
  }

  lemma GeometryIn(v: Volume, fat0: seq<int>, disk0: seq<Sector>, chains0: Chains, f: FileId, off: int, b: seq<byte>)
    requires v.Written(fat0, disk0, chains0, f, off, b)
    ensures v.g.Valid()
  {
  }

  /** enext from byte off of the directory. */
  method ENext(v: Volume, dp: Dirent, off: int) returns (f: Found)
    requires DirOk(v, dp) && 0 <= off && off % SLOT == 0
    modifies v, dp`curClus, dp`clusCnt
    ensures DirOk(v, dp) && v.fat == old(v.fat) && v.disk == old(v.disk) && v.chains == old(v.chains)
    ensures f == Enext(SlotsOf(v, dp), off / SLOT, 0, 0, Zeros(NAME_BUF))
  {
    hide DirOk, Linked, DirSlots, ReadLong, ReadShort, Clus, Size, Zeros;
    ghost var slots := SlotsOf(v, dp);
    var k, cnt, want := off / SLOT, 0, 0;
    var buf: seq<byte> := Zeros(NAME_BUF);
    var ok, de := ReadSlot(v, dp, k);
    while ok
      invariant DirOk(v, dp) && v.fat == old(v.fat) && v.disk == old(v.disk) && v.chains == old(v.chains)
      invariant SlotsOf(v, dp) == slots && 0 <= k && 0 <= cnt && 0 <= want && |buf| == NAME_BUF
      invariant (ok <==> k < |slots|) && (ok ==> de == slots[k])
      invariant Enext(slots, k, cnt, want, buf) == Enext(slots, off / SLOT, 0, 0, Zeros(NAME_BUF))
      decreases |slots| - k
    {
      if de[0] == END_OF_ENTRY {
        return End;
      }
      if de[0] == EMPTY_ENTRY {
        cnt := cnt + 1;
      } else if cnt > 0 {
        return if want > 0 then Fault else Empty(cnt, buf);
      } else if de[11] == ATTR_LONG_NAME {
        var lcnt := ClearLast(de[0]);
        if HasLast(de[0]) {
          if want > 0 {
            return Fault;
          }
          want := lcnt + 1;
        }
        if !(1 <= lcnt <= 20) {
          return Fault;
        }
        buf := ReadEntryName(buf, (lcnt - 1) * CHAR_LONG_NAME, de);
      } else {
        var count := want;
        if want == 0 {
          count := 1;
          buf := ReadEntryName(buf, 0, de);
        }
        return File(count, buf, de[11], Clus(de), Size(de));
      }
      k := k + 1;
      ok, de := ReadSlot(v, dp, k);
    }
    return End;
  }

  /** The scan of dirlookup. */
  method FindName(v: Volume, dp: Dirent, name: seq<byte>) returns (l: Lookup)
    requires DirOk(v, dp) && IsName(name)
    modifies v, dp`curClus, dp`clusCnt
    ensures DirOk(v, dp) && v.fat == old(v.fat) && v.disk == old(v.disk) && v.chains == old(v.chains)
    ensures l == Look(SlotsOf(v, dp), 0, name)
  {
    hide DirOk, Linked, DirSlots, Enext;
    ghost var slots := SlotsOf(v, dp);
    var off := 0;
    var f := ENext(v, dp, off);
    while !f.End?
      invariant DirOk(v, dp) && v.fat == old(v.fat) && v.disk == old(v.disk) && v.chains == old(v.chains)
      invariant SlotsOf(v, dp) == slots && 0 <= off && off % SLOT == 0
      invariant f == Enext(slots, off / SLOT, 0, 0, Zeros(NAME_BUF))
      invariant Look(slots, off / SLOT, name) == Look(slots, 0, name)
      decreases |slots| - off / SLOT
    {
      EnextInside(slots, off / SLOT, Zeros(NAME_BUF));
      LookStep(slots, off / SLOT, name);
      if f.Fault? {
        return Crash;
      }
      if CStr(f.buf) == name {
        return Hit(off / SLOT, f);
      }
      off := off + SLOT * f.count;
      f := ENext(v, dp, off);
    }
    return Absent(off / SLOT);
  }

  lemma EnextInside(slots: seq<Slot>, k: int, buf: seq<byte>)
    requires 0 <= k && |buf| == NAME_BUF && !Enext(slots, k, 0, 0, buf).End?
    ensures k < |slots|
  {
  }

  /** One byte stored at the start of slot j. */
  lemma StoredByte(disk: seq<Sector>, disk': seq<Sector>, g: Geometry, ch: seq<int>, j: int, b: byte)
    requires g.Valid() && 0 <= j < |DirSlots(disk, g, ch)| && Stored(disk, disk', g, ch, ch, SLOT * j, [b])
    ensures DirSlots(disk', g, ch) == DirSlots(disk, g, ch)[j := DirSlots(disk, g, ch)[j][0 := b]]
  {
    hide StreamSlot, Stored, FileByte;
    var s, t := DirSlots(disk, g, ch), DirSlots(disk', g, ch);
    forall k | 0 <= k < |s| ensures t[k] == if k == j then s[j][0 := b] else s[k] {
      forall i | 0 <= i < SLOT ensures t[k][i] == if k == j && i == 0 then b else s[k][i] {
        SlotByte(disk', g, ch, k, i);
        SlotByte(disk, g, ch, k, i);
        ByteStored(disk, disk', g, ch, ch, SLOT * j, [b], SLOT * k + i);
      }
    }
  }

  /** Marks slot j free, if the directory has one. */
  method FreeSlot(v: Volume, dp: Dirent, j: int) returns (ok: bool)
    requires DirOk(v, dp) && 0 <= j
    modifies v, dp`curClus, dp`clusCnt
    ensures DirOk(v, dp) && v.fat == old(v.fat) && v.chains == old(v.chains)
    ensures ok <==> j < |old(SlotsOf(v, dp))|
    ensures !ok ==> v.disk == old(v.disk)
    ensures ok ==> SlotsOf(v, dp) == old(SlotsOf(v, dp))[j := old(SlotsOf(v, dp))[j][0 := EMPTY_ENTRY]]
    ensures OthersKept(old(v.disk), v.disk, v.chains, v.g, dp.id)
  {
    hide Linked, Sized, Stored, OthersKept, FreeSlots, Elements, DirSlots;
    GeometryOf(v);
    ghost var q, r := SlotPlace(j, v.g.spc, |v.chains[dp.id]|);
    var off2, panicked := v.RelocClus(dp, SLOT * j, false);
    if off2 == -1 {
      OthersSame(v.disk, v.chains, v.g, dp.id);
      return false;
    }
    ok := true;
    v.WrittenStart(dp.id, SLOT * j);
    ghost var disk := v.disk;
    var t := v.StoreChunk(v.fat, v.disk, v.chains, SLOT * j, [], dp.id, q, dp.curClus, [EMPTY_ENTRY], off2, 1);
    assert [] + [EMPTY_ENTRY][..t] == [EMPTY_ENTRY];
    StoredByte(disk, v.disk, v.g, v.chains[dp.id], j, EMPTY_ENTRY);
  }

  /** eremove: the record at byte off of the directory.  If the count read from its first slot
      reaches past the directory, all slots up to the end are marked free, and then the code
      writes to an offset of -1. */
  method ERemove(v: Volume, dp: Dirent, off: int) returns (stray: bool)
    requires DirOk(v, dp) && 0 <= off && off % SLOT == 0 && off / SLOT < |SlotsOf(v, dp)|
    modifies v, dp`curClus, dp`clusCnt
    ensures DirOk(v, dp) && v.fat == old(v.fat) && v.chains == old(v.chains)
    ensures var slots, k := old(SlotsOf(v, dp)), off / SLOT;
      && (stray <==> k + RemoveCount(slots[k]) > |slots|)
      && Erased(slots, SlotsOf(v, dp), k, if stray then |slots| - k else RemoveCount(slots[k]))
    ensures OthersKept(old(v.disk), v.disk, v.chains, v.g, dp.id)
  {
    hide DirOk, Linked, Sized, Stored, OthersKept, DirSlots;
    ghost var slots, disk := SlotsOf(v, dp), v.disk;
    OthersSame(v.disk, v.chains, v.g, dp.id);
    var ok, first := ReadSlot(v, dp, off / SLOT);
    var entcnt := ClearLast(first[0]);
    var k := off / SLOT;
    for i := 0 to entcnt + 1
      invariant DirOk(v, dp) && v.fat == old(v.fat) && v.chains == old(v.chains) && k == off / SLOT + i
      invariant Erased(slots, SlotsOf(v, dp), off / SLOT, i)
      invariant OthersKept(disk, v.disk, v.chains, v.g, dp.id)
    {
      ghost var was := v.disk;
      ok := FreeSlot(v, dp, k);
      if !ok { return true; }
      OthersKeptTrans(disk, was, v.disk, v.chains, v.chains, v.g, dp.id);
      k := k + 1;
    }
    stray := false;
  }

  lemma OthersSame(disk: seq<Sector>, chains: Chains, g: Geometry, f: FileId)
    ensures OthersKept(disk, disk, chains, g, f)
  {
  }

  /** The directory part of ealloc for a formatted name, with the names that have a cached entry: a
      record at the place dirlookup's scan ended, unless the name is there already. */
  method CreateEntry(v: Volume, dp: Dirent, r: Record, cached: map<seq<byte>, int>) returns (panicked: bool, cached': map<seq<byte>, int>, ghost it: Item)
    requires DirOk(v, dp) && r.Valid() && Ordinary(r.name) && r.attr != ATTR_LONG_NAME
    requires r.name[0] != BLANK && r.name[0] != DOT_CHAR
    modifies v, dp`curClus, dp`clusCnt
    ensures it == Long(r, Checksum(ShortForm(r.name), CHAR_SHORT_NAME), ShortForm(r.name)) && it.short[0] == ShortChar(r.name[0])
    ensures it.Ok() <==> r.name[0] != EMPTY_ENTRY
    ensures !panicked ==>
      && DirOk(v, dp) && Next(Dir(old(SlotsOf(v, dp)), cached), Do(Create(it)), Dir(SlotsOf(v, dp), cached'))
      && OnlyGrew(old(v.fat), v.fat, old(v.disk), v.disk, old(v.chains), v.chains, v.g, dp.id)
    ensures panicked ==>
      && v.g.Valid() && r.name !in cached && Look(old(SlotsOf(v, dp)), 0, r.name).Absent?
      && var k := Look(old(SlotsOf(v, dp)), 0, r.name).k;
         0 <= k && Clusters(SLOT * (k + |Run(it, k)|), v.g.Bpc()) - |old(v.chains)[dp.id]| > |FreeSlots(old(v.fat))|
  {
    hide DirOk, Look, DirSlots, OnlyGrew, Overwritten, DotSlot, LongRun, ShortSlot, Run;
    ghost var slots := SlotsOf(v, dp);
    NothingGrew(v.fat, v.disk, v.chains, v.g, dp.id);
    ShortForms(r.name);
    it := Long(r, Checksum(ShortForm(r.name), CHAR_SHORT_NAME), ShortForm(r.name));
    panicked, cached' := false, cached;
    if r.name in cached { return; }
    var l := FindName(v, dp, r.name);
    if l.Absent? {
      AbsentAt(slots, 0, r.name);
      panicked, it := Emake(v, dp, r, l.k);
      cached' := cached[r.name := l.k];
    } else if l.Hit? {
      cached' := cached[r.name := l.k];
    }
  }

  lemma DotFields(t: int, clus: int)
    requires 0 <= clus < 0x1_0000_0000
    ensures var it := Short(DotSlot(t, clus));
      it.Ok() && EntryOf(it, t) == Entry(t, 1, if t == 0 then DOT else DOTDOT, ATTR_DIRECTORY, clus, 0)
  {
    var short := (if t == 0 then DOT else DOTDOT) + seq<byte>(if t == 0 then 10 else 9, _ => 0x20);
    DotName(t, clus);
    ShortSlotFields(short, ATTR_DIRECTORY, clus, 0);
    hide ShortSlot;
  }

  ghost function TwoDots(clus: int, parent: int): Items
    requires 0 <= clus < 0x1_0000_0000 && 0 <= parent < 0x1_0000_0000
  {
    Cons(Short(DotSlot(0, clus)), Cons(Short(DotSlot(1, parent)), Nil))
  }

  lemma DotsListed(clus: int, parent: int)
    requires 0 <= clus < 0x1_0000_0000 && 0 <= parent < 0x1_0000_0000
    ensures var items := TwoDots(clus, parent);
      && Dotted(items) && DistinctNames(List(items, 0))
      && List(items, 0) == [Entry(0, 1, DOT, ATTR_DIRECTORY, clus, 0), Entry(1, 1, DOTDOT, ATTR_DIRECTORY, parent, 0)]
  {
    DotFields(0, clus);
    DotFields(1, parent);
    hide DotSlot, EntryOf;
    var items := TwoDots(clus, parent);
    assert List(items.tail.tail, 2) == [] && List(items.tail, 1) == [EntryOf(items.tail.head, 1)];
    assert List(items, 0) == [EntryOf(items.head, 0)] + List(items.tail, 1);
    assert DOT != DOTDOT;
    assert Made(items.tail.tail, 2);
    assert Made(items.tail, 1);
  }

  lemma HoldsCons(slots: seq<Slot>, k: int, it: Item, rest: Items)
    requires HeldAt(slots, k, it) && Holds(slots, k + it.Count(), rest)
    ensures Holds(slots, k, Cons(it, rest))
  {
  }

  /** What the two calls of emake leave in a directory that was all end markers. */
  lemma TwoStored(s0: seq<Slot>, s1: seq<Slot>, s2: seq<Slot>, s3: seq<Slot>, clus: int, parent: int)
    requires 0 <= clus < 0x1_0000_0000 && 0 <= parent < 0x1_0000_0000 && s0 == []
    requires Overwritten(s0, s1, 0, []) && Overwritten(s1, s2, 0, [DotSlot(0, clus)]) && Overwritten(s2, s3, 1, [DotSlot(1, parent)])
    ensures Holds(s3, 0, TwoDots(clus, parent))
  {
    DotFields(0, clus);
    DotFields(1, parent);
    hide DotSlot, EntryOf;
    var a, b := DotSlot(0, clus), DotSlot(1, parent);
    assert s2[0..1] == [a] && s3[1..2] == [b];
    assert s2[0] == s2[0..1][0] && s3[1] == s3[1..2][0];
    assert s3[0..1] == [a];
    assert Holds(s3, 2, Nil);
    assert HeldAt(s3, 1, Short(b)) && HeldAt(s3, 0, Short(a));
    HoldsCons(s3, 1, Short(b), Nil);
    HoldsCons(s3, 0, Short(a), Cons(Short(b), Nil));
  }

  /** ealloc's two calls of emake in a new directory. */
  method PutDots(v: Volume, d: Dirent, name: seq<byte>, parent: Record) returns (ghost mid: seq<Slot>)
    requires DirOk(v, d) && |v.chains[d.id]| == 1 && IsName(name) && parent.Valid() && 0 <= d.firstClus < 0x1_0000_0000
    modifies v, d`curClus, d`clusCnt
    ensures DirOk(v, d) && Overwritten(old(SlotsOf(v, d)), mid, 0, [DotSlot(0, d.firstClus)])
    ensures Overwritten(mid, SlotsOf(v, d), 1, [DotSlot(1, parent.clus)])
    ensures OnlyGrew(old(v.fat), v.fat, old(v.disk), v.disk, old(v.chains), v.chains, v.g, d.id)
  {
    hide Linked, Sized, OnlyGrew, Stored, OthersKept, FreeSlots, Elements, DirSlots, LongRun, ShortSlot, Overwritten, DotSlot, Clusters, Checksum, ShortForm;
    GeometryOf(v);
    OneCluster(v.g.Bpc());
    ghost var it, fat0, disk0, chains0 := Hole(EndSlot()), v.fat, v.disk, v.chains;
    var panicked;
    panicked, it := Emake(v, d, Record(name, ATTR_DIRECTORY, d.firstClus, 0), 0);
    mid := SlotsOf(v, d);
    ghost var fat1, disk1, chains1 := v.fat, v.disk, v.chains;
    PrefixLength(fat0, fat1, disk0, disk1, chains0, chains1, v.g, d.id);
    panicked, it := Emake(v, d, parent, 1);
    OnlyGrewTrans(fat0, fat1, v.fat, disk0, disk1, v.disk, chains0, chains1, v.chains, v.g, d.id);
  }

  /** The part of ealloc that makes a directory: a cluster of its own, "." and "..". */
  method MakeDirectory(v: Volume, d: Dirent, name: seq<byte>, parent: Record) returns (panicked: bool, ghost items: Items)
    requires v.Valid() && v.FileOk(d) && d.firstClus == 0 && IsName(name) && parent.Valid()
    modifies v, d`firstClus, d`curClus, d`clusCnt, d`dirty
    ensures panicked <==> FreeSlots(old(v.fat)) == {}
    ensures !panicked ==>
      && DirOk(v, d) && Proper(SlotsOf(v, d), items) && Dotted(items)
      && List(items, 0) == [Entry(0, 1, DOT, ATTR_DIRECTORY, d.firstClus, 0), Entry(1, 1, DOTDOT, ATTR_DIRECTORY, parent.clus, 0)]
      && OnlyGrew(old(v.fat), v.fat, old(v.disk), v.disk, old(v.chains), v.chains, v.g, d.id)
  {
    hide Linked, Sized, OnlyGrew, Stored, OthersKept, FreeSlots, Elements, DirSlots, LongRun, ShortSlot, Overwritten, DotSlot, Clusters, List, Holds, DistinctNames, TwoDots;
    items := Nil;
    ghost var fat0, disk0, chains0 := v.fat, v.disk, v.chains;
    panicked := v.FirstCluster(d, 0);
    if panicked { return; }
    GeometryOf(v);
    FirstSlots(v, d, disk0, chains0);
    ghost var s1, fat1, disk1, chains1 := SlotsOf(v, d), v.fat, v.disk, v.chains;
    ghost var mid := PutDots(v, d, name, parent);
    OnlyGrewTrans(fat0, fat1, v.fat, disk0, disk1, v.disk, chains0, chains1, v.chains, v.g, d.id);
    items := TwoDots(d.firstClus, parent.clus);
    TwoStored([], s1, mid, SlotsOf(v, d), d.firstClus, parent.clus);
    DotsListed(d.firstClus, parent.clus);
  }

  lemma OneCluster(b: int)
    requires b >= 2 * SLOT
    ensures Clusters(SLOT, b) == 1 && Clusters(2 * SLOT, b) == 1
  {
    ClustersAt(SLOT, b, 0, SLOT);
    ClustersAt(2 * SLOT, b, 0, 2 * SLOT);
  }

  /** A cluster just allocated is a directory of end markers. */
  lemma FirstSlots(v: Volume, d: Dirent, disk0: seq<Sector>, chains0: Chains)
    requires DirOk(v, d) && v.g.Valid() && d.id !in chains0 && Stored(disk0, v.disk, v.g, [], v.chains[d.id], 0, [])
    ensures Overwritten([], SlotsOf(v, d), 0, []) && 2 <= d.firstClus <= v.g.last < FAT32_EOC
  {
    hide Stored;
    StoredSlots(disk0, v.disk, v.g, [], v.chains[d.id], 0, []);
    assert LinkAt(v.fat, v.chains, v.own, v.g.last, d.id, 0);
  }

  lemma NothingGrew(fat: seq<int>, disk: seq<Sector>, chains: Chains, g: Geometry, f: FileId)
    ensures OnlyGrew(fat, fat, disk, disk, chains, chains, g, f)
  {
    var ch := ChainOf(chains, f);
    assert ch[|ch|..] == [] && Elements([]) == {};
    if f in chains { assert chains[f := chains[f]] == chains; }
  }

  /** dirlookup and then eremove, at the offset of the cached entry if there is one. */
  method RemoveEntry(v: Volume, dp: Dirent, name: seq<byte>, cached: map<seq<byte>, int>) returns (stray: bool, cached': map<seq<byte>, int>)
    requires DirOk(v, dp) && Ordinary(name) && (name in cached ==> 0 <= cached[name] < |SlotsOf(v, dp)|)
    modifies v, dp`curClus, dp`clusCnt
    ensures DirOk(v, dp) && v.fat == old(v.fat) && v.chains == old(v.chains)
    ensures var d := Dir(old(SlotsOf(v, dp)), cached);
      && (stray ==> Answers(d, name) && 0 <= Where(d, name) < |d.slots| && Where(d, name) + RemoveCount(d.slots[Where(d, name)]) > |d.slots|)
      && (!stray ==> Next(d, Do(Remove(name)), Dir(SlotsOf(v, dp), cached')))
    ensures OthersKept(old(v.disk), v.disk, v.chains, v.g, dp.id)
  {
    hide DirOk, Look, DirSlots, OthersKept, Erased, RemoveCount;
    ghost var slots := SlotsOf(v, dp);
    OthersSame(v.disk, v.chains, v.g, dp.id);
    stray, cached' := false, cached - {name};
    if name in cached {
      stray := ERemove(v, dp, SLOT * cached[name]);
      return;
    }
    var l := FindName(v, dp, name);
    if l.Hit? {
      HitInside(slots, 0, name);
      stray := ERemove(v, dp, SLOT * l.k);
    } else {
      assert cached - {name} == cached;
    }
  }

  lemma {:induction false} HitInside(slots: seq<Slot>, k: int, name: seq<byte>)
    requires 0 <= k
    ensures var l := Look(slots, k, name); l.Hit? ==> k <= l.k < |slots|
    decreases |slots| - k
  {
    hide Enext, CStr;
    if k < |slots| {
      LookStep(slots, k, name);
      var f := Enext(slots, k, 0, 0, Zeros(NAME_BUF));
      if f.File? || f.Empty? { HitInside(slots, k + f.count, name); }
    }
  }

  /** With a truthful cache eremove stays inside the directory. */
  lemma NeverStray(d: Dir, items: Items, name: seq<byte>)
    requires Proper(d.slots, items) && Truthful(d) && Ordinary(name) && Answers(d, name)
    ensures 0 <= Where(d, name) < |d.slots| && Where(d, name) + RemoveCount(d.slots[Where(d, name)]) <= |d.slots|
  {
    hide Look, Holds, Made, List, DistinctNames, RemoveCount;
    LookFinds(d.slots, 0, items, name);
    FoundLong(d.slots, 0, items, name);
    ListedInside(d.slots, 0, items, Look(d.slots, 0, name).k);
  }

  lemma {:induction false} AbsentAt(slots: seq<Slot>, k: int, name: seq<byte>)
    requires 0 <= k
    ensures var l := Look(slots, k, name); l.Absent? ==> l.k >= k
    decreases |slots| - k
  {
    hide Enext, CStr;
    if k < |slots| {
      LookStep(slots, k, name);
      var f := Enext(slots, k, 0, 0, Zeros(NAME_BUF));
      if f.File? || f.Empty? { AbsentAt(slots, k + f.count, name); }
    }
  }
}
