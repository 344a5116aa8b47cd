/** The volume of kernel/fat32.c as it is mutated: the FAT, the data sectors and the
    cursor of an open entry, and reading and writing a file through them. */
module FatVolume {
  import opened FatChains
  import opened FatData

  const TEMP: FileId := -1   // names a cluster between its allocation and its linking

  /** The fields of struct dirent that the file layer uses. */
  class Dirent {
    ghost const id: FileId
    var readOnly: bool
    var directory: bool
    var firstClus: int
    var curClus: int
    var clusCnt: int
    var fileSize: int
    var dirty: bool

    constructor (ghost id: FileId, firstClus: int, fileSize: int, directory: bool, readOnly: bool)
      ensures this.id == id && this.firstClus == curClus == firstClus && clusCnt == 0
      ensures this.fileSize == fileSize && this.directory == directory && this.readOnly == readOnly && !dirty
    {
      this.id := id;
      this.firstClus, this.curClus, this.clusCnt := firstClus, firstClus, 0;
      this.fileSize, this.directory, this.readOnly, this.dirty := fileSize, directory, readOnly, false;
    }
  }

  /** The clusters of f; a file without any has no entry in chains. */
  ghost function ChainOf(chains: Chains, f: FileId): seq<int>
  {
    if f in chains then chains[f] else []
  }

  /** The cursor agrees with walking the chain from its start.  It means nothing while
      firstClus is 0, because etrunc does not reset it. */
  ghost predicate CursorAt(chains: Chains, f: FileId, firstClus: int, curClus: int, clusCnt: int)
  {
    && (firstClus == 0 <==> f !in chains)
    && (f in chains ==>
          && 0 <= clusCnt < |chains[f]|
          && firstClus == chains[f][0] && curClus == chains[f][clusCnt])
  }

  ghost function Elements(s: seq<int>): set<int>
  {
    set x | x in s
  }

  /** A chain keeps its clusters and grows by formerly free ones; the rest stay free. */
  ghost predicate Grew(fat: seq<int>, fat': seq<int>, ch: seq<int>, ch': seq<int>)
  {
    && ch <= ch'
    && FreeSlots(fat) == FreeSlots(fat') + Elements(ch'[|ch|..])
    && |FreeSlots(fat)| == |FreeSlots(fat')| + |ch'| - |ch|
  }

  lemma GrewTrans(fat: seq<int>, fat1: seq<int>, fat2: seq<int>, ch: seq<int>, ch1: seq<int>, ch2: seq<int>)
    requires Grew(fat, fat1, ch, ch1) && Grew(fat1, fat2, ch1, ch2)
    ensures Grew(fat, fat2, ch, ch2)
  {
    var a, b, c := ch1[|ch|..], ch2[|ch1|..], ch2[|ch|..];
    assert c == a + b;
    assert Elements(c) == Elements(a) + Elements(b);
  }

  /** No byte of another file's stream changed. */
  ghost predicate OthersKept(disk: seq<Sector>, disk': seq<Sector>, chains: Chains, g: Geometry, f: FileId)
  {
    forall h {:trigger h in chains} :: h in chains && h != f ==> Stored(disk, disk', g, chains[h], chains[h], 0, [])
  }

  lemma OthersKeptTrans(disk: seq<Sector>, disk1: seq<Sector>, disk2: seq<Sector>, chains: Chains, chains1: Chains, g: Geometry, f: FileId)
    requires OthersKept(disk, disk1, chains, g, f) && OthersKept(disk1, disk2, chains1, g, f)
    requires forall h :: h != f && h in chains ==> h in chains1 && chains1[h] == chains[h]
    ensures OthersKept(disk, disk2, chains, g, f)
  {
    forall h | h in chains && h != f ensures Stored(disk, disk2, g, chains[h], chains[h], 0, []) {
      assert h in chains1;
      StoredTrans(disk, disk1, disk2, g, chains[h], chains[h], chains[h], 0, [], []);
    }
  }

  /** Only file f changed, and its chain only grew. */
  ghost predicate OnlyGrew(fat: seq<int>, fat': seq<int>, disk: seq<Sector>, disk': seq<Sector>,
                           chains: Chains, chains': Chains, g: Geometry, f: FileId)
  {
    && chains' == (if f in chains' then chains[f := chains'[f]] else chains)
    && Grew(fat, fat', ChainOf(chains, f), ChainOf(chains', f))
    && OthersKept(disk, disk', chains, g, f)
  }

  lemma OnlyGrewTrans(fat: seq<int>, fat1: seq<int>, fat2: seq<int>, disk: seq<Sector>, disk1: seq<Sector>, disk2: seq<Sector>,
                      chains: Chains, chains1: Chains, chains2: Chains, g: Geometry, f: FileId)
    requires OnlyGrew(fat, fat1, disk, disk1, chains, chains1, g, f)
    requires OnlyGrew(fat1, fat2, disk1, disk2, chains1, chains2, g, f)
    ensures OnlyGrew(fat, fat2, disk, disk2, chains, chains2, g, f)
  {
    GrewTrans(fat, fat1, fat2, ChainOf(chains, f), ChainOf(chains1, f), ChainOf(chains2, f));
    OthersKeptTrans(disk, disk1, disk2, chains, chains1, g, f);
  }

  lemma StoredTrans(disk: seq<Sector>, disk1: seq<Sector>, disk2: seq<Sector>, g: Geometry,
                    ch: seq<int>, ch1: seq<int>, ch2: seq<int>, off: int, b1: seq<byte>, b2: seq<byte>)
    requires Stored(disk, disk1, g, ch, ch1, off, b1)
    requires Stored(disk1, disk2, g, ch1, ch2, off + |b1|, b2)
    ensures Stored(disk, disk2, g, ch, ch2, off, b1 + b2)
  {
    forall k
      ensures FileByte(disk2, g, ch2, k) == if off <= k < off + |b1 + b2| then (b1 + b2)[k - off] else FileByte(disk, g, ch, k)
    {
      assert FileByte(disk1, g, ch1, k) == if off <= k < off + |b1| then b1[k - off] else FileByte(disk, g, ch, k);
    }
  }

  lemma ChainDistinct(fat: seq<int>, chains: Chains, own: Owners, g: Geometry, f: FileId)
    requires Linked(fat, chains, own, g.last) && f in chains
    ensures Distinct(chains[f], g)
  {
    forall i | 0 <= i < |chains[f]| ensures 2 <= chains[f][i] <= g.last {
      assert LinkAt(fat, chains, own, g.last, f, i);
    }
    forall i, j | 0 <= i < j < |chains[f]| ensures chains[f][i] != chains[f][j] {
      Disjoint(fat, chains, own, g.last, f, i, f, j);
    }
  }

  /** Bytes stored in cluster c of file f change no other file's stream. */
  lemma StoreOthers(fat: seq<int>, chains: Chains, own: Owners, disk: seq<Sector>, disk': seq<Sector>, g: Geometry,
                    f: FileId, q: int, off: int, bytes: seq<byte>)
    requires g.Valid() && Linked(fat, chains, own, g.last) && f in chains && 0 <= q < |chains[f]|
    requires Wrote(disk, disk', g, chains[f][q], off, bytes)
    ensures OthersKept(disk, disk', chains, g, f)
  {
    forall h | h in chains && h != f ensures Stored(disk, disk', g, chains[h], chains[h], 0, []) {
      ChainDistinct(fat, chains, own, g, h);
      forall i | 0 <= i < |chains[h]| ensures chains[h][i] != chains[f][q] {
        Disjoint(fat, chains, own, g.last, h, i, f, q);
      }
      StoreElsewhere(disk, disk', g, chains[h], chains[f][q], off, bytes);
    }
  }

  /** A cluster that alloc_clus took and zeroed, linked behind the end of f's chain. */
  lemma FreshLinked(fat: seq<int>, fat1: seq<int>, disk: seq<Sector>, disk': seq<Sector>, chains: Chains, own1: Owners,
                    g: Geometry, f: FileId, clus: int)
    requires g.Valid() && f in chains && TEMP !in chains && chains[f] != []
    requires clus in FreeSlots(fat) && fat1 == fat[clus := FAT32_EOC + 7]
    requires Linked(fat1, chains[TEMP := [clus]], own1, g.last) && FreeSlots(fat1) == FreeSlots(fat) - {clus}
    requires Wrote(disk, disk', g, clus, 0, Zeros(g.Bpc()))
    ensures var ch := chains[f];
            var end := ch[|ch| - 1];
            && 2 <= end <= g.last && 2 <= clus <= g.last < |fat|
            && Linked(fat1[end := clus], chains[f := ch + [clus]], own1[clus := (f, |ch|)], g.last)
            && OnlyGrew(fat, fat1[end := clus], disk, disk', chains, chains[f := ch + [clus]], g, f)
            && Stored(disk, disk', g, ch, ch + [clus], 0, [])
  {
    var ch, chains1 := chains[f], chains[TEMP := [clus]];
    var end := ch[|ch| - 1];
    assert LinkAt(fat1, chains1, own1, g.last, f, |ch| - 1) && LinkAt(fat1, chains1, own1, g.last, TEMP, 0);
    StoreOthers(fat1, chains1, own1, disk, disk', g, TEMP, 0, 0, Zeros(g.Bpc()));
    Append(fat1, chains1, own1, g.last, f, TEMP, clus);
    var chains2 := chains[f := ch + [clus]];
    assert (chains1 - {TEMP})[f := ch + [clus]] == chains2;
    ChainDistinct(fat1[end := clus], chains2, own1[clus := (f, |ch|)], g, f);
    StoreZeros(disk, disk', g, ch, clus);
    FewerOthers(disk, disk', chains, chains1, g, f, TEMP);
    assert (ch + [clus])[|ch|..] == [clus];
    assert Elements([clus]) == {clus};
  }

  /** n bytes of cluster c from byte off on. */
  function ClusBytes(disk: seq<Sector>, g: Geometry, c: int, off: int, n: int): (b: seq<byte>)
    requires 0 <= n
    ensures |b| == n && forall i :: 0 <= i < n ==> b[i] == ClusByte(disk, g, c, off + i)
  {
    seq<byte>(n, i => ClusByte(disk, g, c, off + i))
  }

  /** A piece of a sector is a piece of its cluster. */
  lemma SectorChunk(disk: seq<Sector>, g: Geometry, c: int, pos: int, m: int, s: int, o: int)
    requires Sized(disk, g) && 2 <= c <= g.last && 0 <= pos && 0 < m && o + m <= BSIZE && pos + m <= g.Bpc()
    requires s == g.Sec(c) + pos / BSIZE && o == pos % BSIZE
    ensures 0 <= s < |disk| && 0 <= o && disk[s][o..o + m] == ClusBytes(disk, g, c, pos, m)
  {
    SectorInRange(disk, g, c, pos / BSIZE);
    forall i | 0 <= i < m ensures disk[s][pos % BSIZE..pos % BSIZE + m][i] == ClusBytes(disk, g, c, pos, m)[i] {
      assert (pos + i) / BSIZE == pos / BSIZE && (pos + i) % BSIZE == pos % BSIZE + i;
    }
  }

  lemma ClusBytesMore(disk: seq<Sector>, g: Geometry, c: int, off: int, n: int, m: int)
    requires 0 <= n && 0 <= m
    ensures ClusBytes(disk, g, c, off, n) + ClusBytes(disk, g, c, off + n, m) == ClusBytes(disk, g, c, off, n + m)
  {
  }

  /** Where the loop of rw_clus stands when pos is the place in the cluster it has come to. */
  ghost predicate Lined(pos: int, off: int, sec: int, first: int)
  {
    off % BSIZE == pos % BSIZE && sec == first + pos / BSIZE
  }

  lemma LinedNow(pos: int, off: int, sec: int, first: int)
    requires Lined(pos, off, sec, first)
    ensures off % BSIZE == pos % BSIZE && sec == first + pos / BSIZE
  {
  }

  lemma LinedStart(start: int, first: int)
    ensures Lined(start, start % BSIZE, first + start / BSIZE, first)
  {
  }

  /** A full piece ends where the next sector begins. */
  lemma LinedNext(pos: int, off: int, sec: int, first: int, m: int)
    requires Lined(pos, off, sec, first) && 0 <= pos && 0 <= off && m == BSIZE - off % BSIZE
    ensures Lined(pos + m, off + m, sec + 1, first) && OnSector(pos + m)
  {
  }

  ghost predicate OnSector(pos: int) { pos % BSIZE == 0 }

  // ---- how far a copy gets whose address goes bad ----

  /** Of len bytes from start on, those in front of the last multiple of b that is reached. */
  ghost function Reach(start: int, len: int, b: int): int
    requires b >= 1
  {
    var e := (start + len) / b * b;
    if e > start then e - start else 0
  }

  /** A copy in pieces that end at multiples of b has got tot bytes far when the next piece
      is longer than what is left. */
  lemma ReachAt(start: int, len: int, b: int, tot: int)
    requires b >= 1 && 0 <= start && 0 <= tot <= len && (tot == 0 || (start + tot) % b == 0) && len < tot + (b - (start + tot) % b)
    ensures Reach(start, len, b) == tot
  {
    var q, r := Split(start + tot, b);
    Quotient(start + len, b, q, r + len - tot);
  }

  lemma Quotient(x: int, b: int, q: int, r: int)
    requires b >= 1 && 0 <= r < b && x == q * b + r && 0 <= x
    ensures x / b == q && x % b == r
  {
    var q', r' := Split(x, b);
    if q < q' { Gap(b, q, q'); } else if q' < q { Gap(b, q', q); }
  }

  /** Where rw_clus stops when the next piece is longer than what can be copied. */
  lemma CopyStops(start: int, len: int, tot: int, n: int)
    requires 0 <= start && 0 <= tot <= len && tot < n && (tot == 0 || OnSector(start + tot))
    requires tot + (if n - tot < BSIZE - (start + tot) % BSIZE then n - tot else BSIZE - (start + tot) % BSIZE) > len
    ensures len < n ==> tot == Reach(start, len, BSIZE)
  {
    if len < n { ReachAt(start, len, BSIZE, tot); }
  }

  /** Sector boundaries are the same in a cluster as in the file. */
  lemma ReachShift(q: int, r: int, len: int, spc: int)
    requires spc >= 1 && 0 <= q && 0 <= r && 0 <= len
    ensures Reach(q * (spc * BSIZE) + r, len, BSIZE) == Reach(r, len, BSIZE)
  {
    assert q * (spc * BSIZE) == (q * spc) * BSIZE;
    Whole(q * spc, r + len);
  }

  lemma Whole(p: int, x: int)
    ensures (p * BSIZE + x) / BSIZE == p + x / BSIZE && (p * BSIZE + x) % BSIZE == x % BSIZE
  {
  }

  /** From a boundary on the rest can be counted by itself. */
  lemma ReachMore(start: int, len: int, tot: int)
    requires 0 <= start && 0 <= tot <= len && (tot == 0 || (start + tot) % BSIZE == 0)
    ensures Reach(start, len, BSIZE) == tot + Reach(start + tot, len - tot, BSIZE)
  {
    var e := (start + len) / BSIZE * BSIZE;
    assert tot > 0 ==> e >= start + tot;
  }

  /** A multiple of the cluster size is one of the sector size. */
  lemma SectorsIn(x: int, spc: int)
    requires spc >= 1 && 0 <= x && x % (spc * BSIZE) == 0
    ensures x % BSIZE == 0
  {
    var k, r := Split(x, spc * BSIZE);
    assert k * (spc * BSIZE) == (k * spc) * BSIZE;
    Whole(k * spc, 0);
  }

  /** What is left of a transfer, as far as the cluster of off goes. */
  function Piece(off: int, left: int, b: int): int
    requires b >= 1
  {
    if left < b - off % b then left else b - off % b
  }

  lemma PieceEnds(off: int, left: int, b: int)
    requires b >= 1 && 0 <= off && 0 < left
    ensures 0 < Piece(off, left, b) <= left && (Piece(off, left, b) < left ==> (off + Piece(off, left, b)) % b == 0)
  {
    var q, r := Split(off, b);
    assert (q + 1) * b == q * b + b;
    Quotient((q + 1) * b, b, q + 1, 0);
  }

  /** Where the count and the copy stand when a piece could not be copied whole. */
  lemma CopyEnds(start: int, len: int, tot: int, spc: int, m: int, left: int)
    requires spc >= 1 && 0 <= start && 0 <= tot <= len < tot + m && (tot == 0 || (start + tot) % (spc * BSIZE) == 0)
    requires m == Piece(start + tot, left, spc * BSIZE)
    ensures tot == Reach(start, len, spc * BSIZE)
    ensures tot + Reach(start + tot, len - tot, BSIZE) == Reach(start, len, BSIZE)
  {
    ReachAt(start, len, spc * BSIZE, tot);
    if tot > 0 { SectorsIn(start + tot, spc); }
    ReachMore(start, len, tot);
  }

  /** Whole clusters are counted, whole sectors are copied: the count falls short exactly if the
      last sector boundary reached lies behind both the start and the last cluster boundary. */
  lemma CountShort(start: int, len: int, spc: int)
    requires spc >= 1 && 0 <= start && 0 <= len
    ensures Reach(start, len, spc * BSIZE) <= Reach(start, len, BSIZE)
    ensures Reach(start, len, spc * BSIZE) < Reach(start, len, BSIZE) <==>
      var s := (start + len) / BSIZE * BSIZE; s > start && s > (start + len) / (spc * BSIZE) * (spc * BSIZE)
  {
    var k, r := Split(start + len, spc * BSIZE);
    assert k * (spc * BSIZE) == (k * spc) * BSIZE;
    Whole(k * spc, r);
  }

  /** Bytes [from, to) of a stream. */
  ghost function Bytes(disk: seq<Sector>, g: Geometry, ch: seq<int>, from: int, to: int): (b: seq<byte>)
    requires from <= to
    ensures |b| == to - from && forall i :: 0 <= i < to - from ==> b[i] == FileByte(disk, g, ch, from + i)
  {
    seq<byte>(to - from, i => FileByte(disk, g, ch, from + i))
  }

  /** The bytes of a file after data was stored at off <= size. */
  lemma Spliced(disk: seq<Sector>, disk': seq<Sector>, g: Geometry, ch: seq<int>, ch': seq<int>, off: int, data: seq<byte>, size: int)
    requires Stored(disk, disk', g, ch, ch', off, data) && 0 <= off <= size
    ensures var end := off + |data|;
            var was := Bytes(disk, g, ch, 0, size);
            Bytes(disk', g, ch', 0, if end > size then end else size)
              == was[..off] + data + (if end > size then [] else was[end..])
  {
  }

  /** How many clusters of b bytes it takes to hold end bytes. */
  ghost function Clusters(end: int, b: int): int
    requires b >= 1
    decreases if end <= 0 then 0 else end
  {
    if end <= 0 then 0 else 1 + Clusters(end - b, b)
  }

  lemma {:induction false} ClustersAt(end: int, b: int, q: int, r: int)
    requires b >= 1 && 0 <= q && 1 <= r <= b && end == q * b + r
    ensures Clusters(end, b) == q + 1
    decreases q
  {
    if q == 0 {
      assert end <= b;
    } else {
      assert end - b == (q - 1) * b + r;
      assert (q - 1) * b >= 0;
      ClustersAt(end - b, b, q - 1, r);
    }
  }

  lemma {:induction false} ClustersMono(x: int, y: int, b: int)
    requires b >= 1 && x <= y
    ensures 0 <= Clusters(x, b) <= Clusters(y, b)
    decreases if y <= 0 then 0 else y
  {
    if y > 0 {
      ClustersMono(x - b, y - b, b);
    }
  }

  /** The clusters a file needs once ewrite stored n bytes at off. */
  ghost function Needed(had: int, off: int, n: int, b: int): int
    requires b >= 1
  {
    var one := if had == 0 then 1 else had;
    if n > 0 && Clusters(off + n, b) > one then Clusters(off + n, b) else one
  }

  lemma NeededSome(had: int, off: int, n: int, b: int)
    requires b >= 1 && had >= 0
    ensures Needed(had, off, n, b) >= 1
  {
  }

  /** A round that reaches into cluster q raises the number of clusters needed to q + 1 at most. */
  lemma RoundDone(had: int, start: int, tot: int, m: int, q: int, r: int, b: int)
    requires b >= 1 && 0 <= start && 0 <= tot && start + tot == q * b + r && 0 <= q && 0 <= r && 0 < m && r + m <= b
    ensures Needed(had, start, tot + m, b) == if q + 1 > Needed(had, start, tot, b) then q + 1 else Needed(had, start, tot, b)
  {
    ClustersAt(start + tot + m, b, q, r + m);
    ClustersMono(start + tot, start + tot + m, b);
  }

  lemma RoundNeeds(had: int, start: int, tot: int, n: int, q: int, r: int, b: int)
    requires b >= 1 && 0 <= start && 0 <= tot < n && start + tot == q * b + r && 0 <= q && 0 <= r < b
    ensures Needed(had, start, n, b) >= q + 1
  {
    ClustersAt(start + tot + 1, b, q, r + 1);
    ClustersMono(start + tot + 1, start + n, b);
  }

  lemma ChunkEnd(off: int, q: int, r: int, m: int, len: int, b: int)
    requires off == q * b + r && r + m <= b && q < len && b >= 1
    ensures off + m <= len * b
  {
    Gap(b, q, len);
  }

  lemma Within(off: int, q: int, r: int, len: int, b: int)
    requires off == q * b + r && 0 <= r && b >= 1 && off < len * b
    ensures q < len
  {
    if len < q {
      Gap(b, len, q);
    }
  }

  lemma NotEmpty(fat: seq<int>, chains: Chains, own: Owners, last: int, f: FileId)
    requires Linked(fat, chains, own, last) && f in chains
    ensures chains[f] != []
  {
  }

  lemma ClusBytesPlace(disk: seq<Sector>, g: Geometry, c: int, off: int, n: int)
    requires Sized(disk, g) && 2 <= c <= g.last && 0 <= off && 0 <= n && off + n <= g.Bpc()
    ensures |ClusBytes(disk, g, c, off, n)| == n && LiesAt(disk, (c - 2) * g.Bpc() + off, ClusBytes(disk, g, c, off, n))
  {
    hide ClusByte, DiskByte;
    forall i | 0 <= i < n ensures ClusBytes(disk, g, c, off, n)[i] == DiskByte(disk, (c - 2) * g.Bpc() + off + i) {
      ClusPlace(disk, g, c, off + i);
    }
  }

  lemma ClusterIn(fat: seq<int>, chains: Chains, own: Owners, last: int, f: FileId, i: int)
    requires Linked(fat, chains, own, last) && f in chains && 0 <= i < |chains[f]|
    ensures 2 <= chains[f][i] <= last < FAT32_EOC
  {
    assert LinkAt(fat, chains, own, last, f, i);
  }

  lemma Sliced(disk: seq<Sector>, g: Geometry, ch: seq<int>, size: int, start: int, out: seq<byte>)
    requires 0 <= start && start + |out| <= size
    requires forall i :: 0 <= i < |out| ==> out[i] == FileByte(disk, g, ch, start + i)
    ensures out == Bytes(disk, g, ch, 0, size)[start..start + |out|]
  {
  }

  lemma StoredMore(disk: seq<Sector>, disk1: seq<Sector>, disk2: seq<Sector>, g: Geometry,
                   ch: seq<int>, ch1: seq<int>, ch2: seq<int>, off: int, b: seq<byte>)
    requires Stored(disk, disk1, g, ch, ch1, off, b) && Stored(disk1, disk2, g, ch1, ch2, 0, [])
    ensures Stored(disk, disk2, g, ch, ch2, off, b)
  {
    forall k ensures FileByte(disk2, g, ch2, k) == if off <= k < off + |b| then b[k - off] else FileByte(disk, g, ch, k) {
      assert FileByte(disk1, g, ch1, k) == if off <= k < off + |b| then b[k - off] else FileByte(disk, g, ch, k);
    }
  }

  /** The word of a cluster in a chain is the next one. */
  lemma NextCluster(fat: seq<int>, chains: Chains, own: Owners, last: int, f: FileId, i: int)
    requires Linked(fat, chains, own, last) && f in chains && 0 <= i < |chains[f]| - 1
    ensures 2 <= chains[f][i] <= last < |fat| && fat[chains[f][i]] == chains[f][i + 1] && 2 <= chains[f][i + 1] <= last < FAT32_EOC
  {
    assert LinkAt(fat, chains, own, last, f, i) && LinkAt(fat, chains, own, last, f, i + 1);
  }

  /** The first cluster of a file that had none. */
  lemma FirstLinked(fat: seq<int>, fat1: seq<int>, disk: seq<Sector>, disk': seq<Sector>, chains: Chains, own1: Owners,
                    g: Geometry, f: FileId, clus: int)
    requires g.Valid() && f !in chains
    requires clus in FreeSlots(fat) && FreeSlots(fat1) == FreeSlots(fat) - {clus}
    requires Linked(fat1, chains[f := [clus]], own1, g.last)
    requires Wrote(disk, disk', g, clus, 0, Zeros(g.Bpc()))
    ensures OnlyGrew(fat, fat1, disk, disk', chains, chains[f := [clus]], g, f)
    ensures Stored(disk, disk', g, [], [clus], 0, [])
  {
    hide Linked, Stored, Wrote, FreeSlots, OthersKept, Distinct;
    var chains1 := chains[f := [clus]];
    StoreOthers(fat1, chains1, own1, disk, disk', g, f, 0, 0, Zeros(g.Bpc()));
    ChainDistinct(fat1, chains1, own1, g, f);
    assert [] + [clus] == [clus];
    StoreZeros(disk, disk', g, [], clus);
    assert [clus][0..] == [clus] && Elements([clus]) == {clus};
    FewerOthers(disk, disk', chains, chains1, g, f, f);
  }

  /** Other files kept their streams; so did those among fewer chains. */
  lemma FewerOthers(disk: seq<Sector>, disk': seq<Sector>, chains: Chains, more: Chains, g: Geometry, f: FileId, t: FileId)
    requires OthersKept(disk, disk', more, g, t)
    requires forall h :: h in chains && h != f ==> h != t && h in more && more[h] == chains[h]
    ensures OthersKept(disk, disk', chains, g, f)
  {
    forall h | h in chains && h != f ensures Stored(disk, disk', g, chains[h], chains[h], 0, []) {
      assert h in more;
    }
  }

  lemma Capacity(g: Geometry)
    requires g.Valid()
    ensures (g.last - 1) * g.spc >= 0
  {
  }

  lemma WroteNothing(disk: seq<Sector>, g: Geometry, c: int, off: int)
    ensures Wrote(disk, disk, g, c, off, [])
  {
  }

  lemma ZeroStart(disk: seq<Sector>, g: Geometry, c: int)
    ensures Wrote(disk, disk, g, c, 0, Zeros(0))
  {
  }

  /** One more sector of a cluster cleared. */
  lemma ZeroStep(disk0: seq<Sector>, disk: seq<Sector>, g: Geometry, c: int, i: int)
    requires Sized(disk, g) && 2 <= c <= g.last && 0 <= i < g.spc && Wrote(disk0, disk, g, c, 0, Zeros(i * BSIZE))
    ensures var s := g.Sec(c) + i;
            0 <= s < |disk| && Wrote(disk0, disk[s := Zeros(BSIZE)], g, c, 0, Zeros((i + 1) * BSIZE))
  {
    hide Wrote, ClusByte, Sized, Patch, Zeros, Geometry.Sec;
    SectorZeros(i);
    var s := g.Sec(c) + i;
    assert i * BSIZE / BSIZE == i && i * BSIZE % BSIZE == 0;
    WriteSector(disk, g, c, i * BSIZE, Zeros(BSIZE));
    WholeSector(disk[s]);
    WroteMore(disk0, disk, disk[s := Zeros(BSIZE)], g, c, 0, Zeros(i * BSIZE), Zeros(BSIZE));
  }

  lemma SectorZeros(i: int)
    requires 0 <= i
    ensures Zeros(i * BSIZE) + Zeros(BSIZE) == Zeros((i + 1) * BSIZE)
  {
  }

  lemma WholeSector(s: Sector)
    ensures Patch(s, 0, Zeros(BSIZE)) == Zeros(BSIZE)
  {
  }

  /** What a change of file f leaves of every other open file: its cursor and its bytes. */
  lemma OtherFiles(fat: seq<int>, fat': seq<int>, disk: seq<Sector>, disk': seq<Sector>, chains: Chains, chains': Chains,
                   g: Geometry, f: FileId, h: FileId, firstClus: int, curClus: int, clusCnt: int, size: int)
    requires OnlyGrew(fat, fat', disk, disk', chains, chains', g, f) && h != f && 0 <= size
    requires CursorAt(chains, h, firstClus, curClus, clusCnt)
    ensures CursorAt(chains', h, firstClus, curClus, clusCnt) && ChainOf(chains', h) == ChainOf(chains, h)
    ensures Bytes(disk', g, ChainOf(chains', h), 0, size) == Bytes(disk, g, ChainOf(chains, h), 0, size)
  {
    hide Stored, FreeSlots, Elements;
    var ch := ChainOf(chains, h);
    assert ChainOf(chains', h) == ch;
    var a, b := Bytes(disk, g, ch, 0, size), Bytes(disk', g, ch, 0, size);
    if h in chains {
      forall k ensures FileByte(disk', g, ch, k) == FileByte(disk, g, ch, k) {
        SameByte(disk, disk', g, ch, k);
      }
    }
    assert forall i :: 0 <= i < size ==> b[i] == a[i];
  }

  lemma SameByte(disk: seq<Sector>, disk': seq<Sector>, g: Geometry, ch: seq<int>, k: int)
    requires Stored(disk, disk', g, ch, ch, 0, [])
    ensures FileByte(disk', g, ch, k) == FileByte(disk, g, ch, k)
  {
  }

  class Volume {
    const g: Geometry
    const fatSz: int
    var fat: seq<int>
    var disk: seq<Sector>
    ghost var chains: Chains
    ghost var own: Owners

    ghost predicate Valid()
      reads this
    {
      && Sized(disk, g)
      && |fat| == fatSz * ENT_PER_SEC
      && Linked(fat, chains, own, g.last)
      && TEMP !in chains
    }

    /** A freshly formatted volume: every data cluster is free. */
    constructor (g: Geometry, fatSz: nat)
      requires g.Valid() && g.last < fatSz * ENT_PER_SEC && g.last < FAT32_EOC - 1
      ensures Valid() && this.g == g && chains == map[] && forall c :: c in FreeSlots(fat) <==> 2 <= c <= g.last
    {
      Capacity(g);
      this.g := g;
      this.fatSz := fatSz;
      fat := seq(fatSz * ENT_PER_SEC, i => if 2 <= i <= g.last then 0 else FAT32_EOC + 7);
      disk := seq((g.last - 1) * g.spc, _ => Zeros(BSIZE));
      chains, own := map[], map[];
    }

    /** read_fat */
    method ReadFat(cluster: int) returns (next: int)
      requires |fat| == fatSz * ENT_PER_SEC && g.last < |fat| && 0 <= cluster
      ensures next == if cluster >= FAT32_EOC then cluster else if cluster > g.last then 0 else fat[cluster]
    {
      if cluster >= FAT32_EOC {
        return cluster;
      }
      if cluster > g.last {
        return 0;
      }
      var sec, off := 4 * cluster / BSIZE, 4 * cluster % BSIZE;
      next := fat[sec * ENT_PER_SEC + off / 4];
    }

    /** write_fat */
    method WriteFat(cluster: int, content: int) returns (r: int)
      requires |fat| == fatSz * ENT_PER_SEC && g.last < |fat| && 0 <= cluster
      modifies this`fat
      ensures r == (if cluster > g.last then -1 else 0)
      ensures fat == if r == 0 then old(fat)[cluster := content] else old(fat)
    {
      if cluster > g.last {
        return -1;
      }
      var sec, off := 4 * cluster / BSIZE, 4 * cluster % BSIZE;
      fat := fat[sec * ENT_PER_SEC + off / 4 := content];
      return 0;
    }

    /** zero_clus */
    method ZeroClus(cluster: int)
      requires Sized(disk, g) && 2 <= cluster <= g.last
      modifies this`disk
      ensures Sized(disk, g) && Wrote(old(disk), disk, g, cluster, 0, Zeros(g.Bpc()))
    {
      hide Wrote, ClusByte;
      ZeroStart(disk, g, cluster);
      var sec := g.Sec(cluster);
      for i := 0 to g.spc
        invariant Sized(disk, g) && sec == g.Sec(cluster) + i
        invariant Wrote(old(disk), disk, g, cluster, 0, Zeros(i * BSIZE))
      {
        ZeroStep(old(disk), disk, g, cluster, i);
        disk := disk[sec := Zeros(BSIZE)];
        sec := sec + 1;
      }
    }

    /** alloc_clus; panicked is its panic("no clusters").  f names the new cluster. */
    method AllocClus(ghost f: FileId) returns (clus: int, panicked: bool)
      requires Sized(disk, g) && |fat| == fatSz * ENT_PER_SEC && Linked(fat, chains, own, g.last) && f !in chains
      modifies this
      ensures panicked <==> FreeSlots(old(fat)) == {}
      ensures !panicked ==>
        && clus in FreeSlots(old(fat)) && 2 <= clus <= g.last && (forall c :: 0 <= c < clus ==> old(fat)[c] != 0)
        && fat == old(fat)[clus := FAT32_EOC + 7] && chains == old(chains)[f := [clus]]
        && Sized(disk, g) && Linked(fat, chains, own, g.last) && FreeSlots(fat) == FreeSlots(old(fat)) - {clus}
        && Wrote(old(disk), disk, g, clus, 0, Zeros(g.Bpc()))
    {
      for i := 0 to fatSz
        invariant fat == old(fat) && disk == old(disk) && chains == old(chains) && own == old(own)
        invariant forall c :: 0 <= c < i * ENT_PER_SEC ==> fat[c] != 0
      {
        for j := 0 to ENT_PER_SEC
          invariant fat == old(fat) && disk == old(disk) && chains == old(chains) && own == old(own)
          invariant forall c :: 0 <= c < i * ENT_PER_SEC + j ==> fat[c] != 0
        {
          if fat[i * ENT_PER_SEC + j] == 0 {
            clus := i * ENT_PER_SEC + j;
            assert clus in FreeSlots(fat);
            assert SlotAt(fat, chains, own, g.last, clus);
            AddChain(fat, chains, own, g.last, f, clus);
            fat := fat[i * ENT_PER_SEC + j := FAT32_EOC + 7];
            chains, own := chains[f := [clus]], own[clus := (f, 0)];
            ZeroClus(clus);
            return clus, false;
          }
        }
      }
      return 0, true;
    }

    /** The growth of a chain inside reloc_clus: a fresh cluster is linked behind cur. */
    method LinkFresh(ghost f: FileId, cur: int) returns (clus: int, panicked: bool)
      requires Valid() && f in chains && cur == chains[f][|chains[f]| - 1]
      modifies this
      ensures panicked <==> FreeSlots(old(fat)) == {}
      ensures !panicked ==>
        && Valid() && f in chains && f in old(chains) && chains[f] == old(chains)[f] + [clus] && 2 <= clus <= g.last
        && OnlyGrew(old(fat), fat, old(disk), disk, old(chains), chains, g, f)
        && Stored(old(disk), disk, g, old(chains)[f], chains[f], 0, [])
    {
      hide Linked, OnlyGrew, Stored, Wrote, Elements, FreeSlots, Sized;
      NotEmpty(fat, chains, own, g.last, f);
      ClusterIn(fat, chains, own, g.last, f, |chains[f]| - 1);
      clus, panicked := AllocClus(TEMP);
      if panicked {
        return;
      }
      FreshLinked(old(fat), fat, old(disk), disk, old(chains), own, g, f, clus);
      assert FreeSlots(old(fat)) != {};
      ghost var ch := old(chains)[f];
      var r := WriteFat(cur, clus);
      chains, own := old(chains)[f := ch + [clus]], own[clus := (f, |ch|)];
      assert Linked(fat, chains, own, g.last);
      assert OnlyGrew(old(fat), fat, old(disk), disk, old(chains), chains, g, f);
    }

    /** Everything reloc_clus promises about the volume at any point of its run. */
    ghost predicate Extending(fat0: seq<int>, disk0: seq<Sector>, chains0: Chains, f: FileId)
      reads this
    {
      && Valid() && f in chains0 && f in chains
      && OnlyGrew(fat0, fat, disk0, disk, chains0, chains, g, f)
      && Stored(disk0, disk, g, chains0[f], chains[f], 0, [])
    }

    lemma ExtendingStart(f: FileId)
      requires Valid() && f in chains
      ensures Extending(fat, disk, chains, f)
    {
      assert chains[f := chains[f]] == chains;
      assert chains[f][|chains[f]|..] == [];
    }

    method ExtendOn(ghost fat0: seq<int>, ghost disk0: seq<Sector>, ghost chains0: Chains, ghost f: FileId, cur: int)
      returns (clus: int, panicked: bool)
      requires Extending(fat0, disk0, chains0, f) && cur == chains[f][|chains[f]| - 1]
      modifies this
      ensures panicked <==> FreeSlots(old(fat)) == {}
      ensures !panicked ==> Extending(fat0, disk0, chains0, f) && chains[f] == old(chains)[f] + [clus] && 2 <= clus <= g.last
    {
      clus, panicked := LinkFresh(f, cur);
      if !panicked {
        OnlyGrewTrans(fat0, old(fat), fat, disk0, old(disk), disk, chains0, old(chains), chains, g, f);
        StoredTrans(disk0, old(disk), disk, g, chains0[f], old(chains)[f], chains[f], 0, [], []);
      }
    }

    /** The first loop of reloc_clus: forward, at most to cluster clusNum. */
    method Forward(entry: Dirent, clusNum: int, alloc: bool) returns (short: bool, panicked: bool)
      requires Valid() && entry.firstClus != 0 && 0 <= clusNum
      requires CursorAt(chains, entry.id, entry.firstClus, entry.curClus, entry.clusCnt)
      modifies this, entry`curClus, entry`clusCnt
      ensures panicked <==> alloc && clusNum + 1 - |old(chains)[entry.id]| > |FreeSlots(old(fat))|
      ensures !panicked ==>
        && Extending(old(fat), old(disk), old(chains), entry.id)
        && CursorAt(chains, entry.id, entry.firstClus, entry.curClus, entry.clusCnt)
        && var n := |old(chains)[entry.id]|;
        && |chains[entry.id]| == (if alloc && clusNum >= n then clusNum + 1 else n)
        && (!alloc ==> fat == old(fat) && disk == old(disk) && chains == old(chains))
        && (short <==> clusNum >= |chains[entry.id]|)
        && (if short then entry.clusCnt == 0 else entry.clusCnt >= clusNum)
    {
      ghost var f, ch := entry.id, chains[entry.id];
      ExtendingStart(f);
      while clusNum > entry.clusCnt
        invariant Extending(old(fat), old(disk), old(chains), f)
        invariant CursorAt(chains, f, entry.firstClus, entry.curClus, entry.clusCnt)
        invariant !alloc ==> fat == old(fat) && disk == old(disk) && chains == old(chains)
        invariant |chains[f]| > |ch| ==> alloc && |chains[f]| == entry.clusCnt + 1 <= clusNum + 1
        decreases clusNum - entry.clusCnt
      {
        ghost var i := entry.clusCnt;
        assert LinkAt(fat, chains, own, g.last, f, i) && LinkAt(fat, chains, own, g.last, f, i + 1);
        var clus := ReadFat(entry.curClus);
        if clus >= FAT32_EOC {
          if alloc {
            clus, panicked := ExtendOn(old(fat), old(disk), old(chains), f, entry.curClus);
            if panicked {
              return false, true;
            }
          } else {
            entry.curClus := entry.firstClus;
            entry.clusCnt := 0;
            return true, false;
          }
        }
        entry.curClus := clus;
        entry.clusCnt := entry.clusCnt + 1;
      }
      return false, false;
    }

    /** reloc_clus: moves the cursor to the cluster of byte off, growing the chain if
        alloc is set.  The result is the place of off in that cluster, or -1. */
    method RelocClus(entry: Dirent, off: int, alloc: bool) returns (r: int, panicked: bool)
      requires Valid() && 0 <= off && entry.firstClus != 0
      requires CursorAt(chains, entry.id, entry.firstClus, entry.curClus, entry.clusCnt)
      modifies this, entry`curClus, entry`clusCnt
      ensures panicked <==> alloc && off / g.Bpc() + 1 - |old(chains)[entry.id]| > |FreeSlots(old(fat))|
      ensures !panicked ==> Relocated(old(fat), old(disk), old(chains), entry, off, alloc, r)
    {
      ghost var q, rest := Split(off, g.Bpc());
      var clusNum := off / g.Bpc();
      ghost var f := entry.id;
      hide Linked, OnlyGrew, Stored, FreeSlots;
      var short;
      short, panicked := Forward(entry, clusNum, alloc);
      if short || panicked {
        return -1, panicked;
      }
      if clusNum < entry.clusCnt {
        entry.curClus := entry.firstClus;
        entry.clusCnt := 0;
        while entry.clusCnt < clusNum
          invariant 0 <= entry.clusCnt <= clusNum < |chains[f]| && entry.curClus == chains[f][entry.clusCnt]
          modifies entry`curClus, entry`clusCnt
        {
          NextCluster(fat, chains, own, g.last, f, entry.clusCnt);
          entry.curClus := ReadFat(entry.curClus);
          assert entry.curClus < FAT32_EOC;   // the panic("reloc_clus") is never reached
          entry.clusCnt := entry.clusCnt + 1;
        }
      }
      return off % g.Bpc(), false;
    }

    /** What reloc_clus has done when it returns: the cursor is on the cluster of off, the
        chain is as long as it was or as long as off needs. */
    ghost predicate Relocated(fat0: seq<int>, disk0: seq<Sector>, chains0: Chains, entry: Dirent, off: int, alloc: bool, r: int)
      reads this, entry
    {
      var f := entry.id;
      && Extending(fat0, disk0, chains0, f)
      && (!alloc ==> fat == fat0 && disk == disk0 && chains == chains0)
      && CursorAt(chains, f, entry.firstClus, entry.curClus, entry.clusCnt)
      && var q := off / g.Bpc();
      && |chains[f]| == (if alloc && q >= |chains0[f]| then q + 1 else |chains0[f]|)
      && if q < |chains[f]| then r == off % g.Bpc() && entry.clusCnt == q else r == -1 && entry.clusCnt == 0
    }

    /** rw_clus with write set: n bytes of src to byte off of a cluster.  src is what can be
        read at the source address; a sector whose bytes reach past it is not copied. */
    method WriteClus(cluster: int, src: seq<byte>, start: int, n: int) returns (tot: int)
      requires Sized(disk, g) && 2 <= cluster <= g.last && 0 <= start && 0 <= n && start + n <= g.Bpc()
      modifies this`disk
      ensures Sized(disk, g) && 0 <= tot <= n && tot <= |src| && (|src| >= n ==> tot == n)
      ensures |src| < n ==> tot == Reach(start, |src|, BSIZE)
      ensures Wrote(old(disk), disk, g, cluster, start, src[..tot])
      ensures DiskWrote(old(disk), disk, (cluster - 2) * g.Bpc() + start, src[..tot])
    {
      hide DiskWrote, Wrote, ClusByte, Patch, Reach, Lined, OnSector;
      WroteNothing(disk, g, cluster, start);
      assert src[..0] == [];
      var sec := g.Sec(cluster) + start / BSIZE;
      var off := start % BSIZE;
      LinedStart(start, g.Sec(cluster));
      tot := 0;
      while tot < n
        invariant Sized(disk, g) && 0 <= tot <= n && tot <= |src| && 0 <= off
        invariant tot == 0 || tot == n || OnSector(start + tot)
        invariant tot < n ==> Lined(start + tot, off, sec, g.Sec(cluster))
        invariant Wrote(old(disk), disk, g, cluster, start, src[..tot])
      {
        LinedNow(start + tot, off, sec, g.Sec(cluster));
        var m := BSIZE - off % BSIZE;
        if n - tot < m {
          m := n - tot;
        }
        if tot + m > |src| {
          CopyStops(start, |src|, tot, n);
          break;
        }
        var chunk := src[tot..tot + m];
        WriteSector(disk, g, cluster, start + tot, chunk);
        ghost var was := disk;
        disk := disk[sec := Patch(disk[sec], off % BSIZE, chunk)];
        WroteMore(old(disk), was, disk, g, cluster, start, src[..tot], chunk);
        assert src[..tot] + chunk == src[..tot + m];
        if tot + m < n { LinedNext(start + tot, off, sec, g.Sec(cluster), m); }
        tot, off, sec := tot + m, off + m, sec + 1;
      }
      WrotePlace(old(disk), disk, g, cluster, start, src[..tot]);
    }

    /** rw_clus with write clear: n bytes from byte off of a cluster, of which at most room
        can be stored at the destination address. */
    method ReadClus(cluster: int, room: nat, start: int, n: int) returns (tot: int, out: seq<byte>)
      requires Sized(disk, g) && 2 <= cluster <= g.last && 0 <= start && 0 <= n && start + n <= g.Bpc()
      ensures 0 <= tot <= n && tot <= room && (room >= n ==> tot == n)
      ensures room < n ==> tot == Reach(start, room, BSIZE)
      ensures out == ClusBytes(disk, g, cluster, start, tot)
      ensures |out| == tot && LiesAt(disk, (cluster - 2) * g.Bpc() + start, out)
    {
      hide LiesAt, Reach, Sized, ClusBytes, Lined, OnSector;
      var sec := g.Sec(cluster) + start / BSIZE;
      var off := start % BSIZE;
      LinedStart(start, g.Sec(cluster));
      tot, out := 0, [];
      while tot < n
        invariant 0 <= tot <= n && tot <= room && 0 <= off
        invariant tot == 0 || tot == n || OnSector(start + tot)
        invariant tot < n ==> Lined(start + tot, off, sec, g.Sec(cluster))
        invariant out == ClusBytes(disk, g, cluster, start, tot)
      {
        LinedNow(start + tot, off, sec, g.Sec(cluster));
        var m := BSIZE - off % BSIZE;
        if n - tot < m {
          m := n - tot;
        }
        if tot + m > room {
          CopyStops(start, room, tot, n);
          break;
        }
        var o := off % BSIZE;
        SectorChunk(disk, g, cluster, start + tot, m, sec, o);
        out := out + disk[sec][o..o + m];
        ClusBytesMore(disk, g, cluster, start, tot, m);
        if tot + m < n { LinedNext(start + tot, off, sec, g.Sec(cluster), m); }
        tot, off, sec := tot + m, off + m, sec + 1;
      }
      ClusBytesPlace(disk, g, cluster, start, tot);
    }

    /** File f holds its old stream with bytes stored at off, and only f changed. */
    ghost predicate Written(fat0: seq<int>, disk0: seq<Sector>, chains0: Chains, f: FileId, off: int, bytes: seq<byte>)
      reads this
    {
      && Valid() && f in chains
      && OnlyGrew(fat0, fat, disk0, disk, chains0, chains, g, f)
      && Stored(disk0, disk, g, ChainOf(chains0, f), chains[f], off, bytes)
    }

    /** Where byte k of a file lies on the disk. */
    lemma ContentPlace(entry: Dirent, k: int)
      requires Valid() && FileOk(entry) && 0 <= k < entry.fileSize
      ensures 0 <= k / g.Bpc() < |ChainOf(chains, entry.id)| && |Content(entry)| == entry.fileSize
      ensures Content(entry)[k] == DiskByte(disk, (ChainOf(chains, entry.id)[k / g.Bpc()] - 2) * g.Bpc() + k % g.Bpc())
    {
      hide Linked, FileByte, DiskByte;
      var ch := ChainOf(chains, entry.id);
      forall i | 0 <= i < |ch| ensures 2 <= ch[i] <= g.last { ClusterIn(fat, chains, own, g.last, entry.id, i); }
      FilePlace(disk, g, ch, k);
    }

    /** Before anything is stored. */
    lemma WrittenStart(f: FileId, off: int)
      requires Valid() && f in chains
      ensures Written(fat, disk, chains, f, off, [])
    {
      ExtendingStart(f);
    }

    /** The file layer's invariant of an entry: its cursor, and a size its chain can hold. */
    ghost predicate FileOk(entry: Dirent)
      reads this, entry
    {
      && g.Valid() && entry.id != TEMP
      && CursorAt(chains, entry.id, entry.firstClus, entry.curClus, entry.clusCnt)
      && 0 <= entry.fileSize < 0x1_0000_0000
      && entry.fileSize <= |ChainOf(chains, entry.id)| * g.Bpc()
    }

    /** The bytes of the file. */
    ghost function Content(entry: Dirent): seq<byte>
      requires 0 <= entry.fileSize
      reads this, entry
    {
      Bytes(disk, g, ChainOf(chains, entry.id), 0, entry.fileSize)
    }

    /** ewrite's first allocation for a file that has no cluster yet. */
    method FirstCluster(entry: Dirent, ghost start: int) returns (panicked: bool)
      requires Valid() && FileOk(entry) && entry.firstClus == 0
      modifies this, entry`firstClus, entry`curClus, entry`clusCnt, entry`dirty
      ensures panicked <==> FreeSlots(old(fat)) == {}
      ensures !panicked ==>
        && Writing(old(fat), old(disk), old(chains), entry, start, [], 0)
        && entry.dirty && FreeSlots(old(fat)) != {}
    {
      var clus;
      clus, panicked := AllocClus(entry.id);
      if panicked {
        return;
      }
      ghost var f := entry.id;
      FirstLinked(old(fat), fat, old(disk), disk, old(chains), own, g, f, clus);
      entry.firstClus, entry.curClus := clus, clus;
      entry.clusCnt := 0;
      entry.dirty := true;
      assert Written(old(fat), old(disk), old(chains), f, 0, []);
    }

    /** Before its first round ewrite has stored nothing. */
    lemma StartWriting(entry: Dirent, start: int)
      requires Valid() && FileOk(entry) && entry.firstClus != 0
      ensures Writing(fat, disk, chains, entry, start, [], 0)
    {
      ExtendingStart(entry.id);
    }

    /** One round of ewrite after reloc_clus: m bytes from byte r of the cursor's cluster on. */
    method StoreChunk(ghost fat0: seq<int>, ghost disk0: seq<Sector>, ghost chains0: Chains, ghost off0: int, ghost b: seq<byte>,
                      ghost f: FileId, ghost q: int, cur: int, src: seq<byte>, r: int, m: int) returns (t: int)
      requires Written(fat0, disk0, chains0, f, off0, b) && off0 + |b| == q * g.Bpc() + r
      requires 0 <= q < |chains[f]| && cur == chains[f][q]
      requires 0 <= r && 0 <= m && r + m <= g.Bpc()
      modifies this`disk
      ensures 0 <= t <= m && t <= |src| && (|src| >= m ==> t == m) && (|src| < m ==> t == Reach(off0 + |b|, |src|, BSIZE))
      ensures Written(fat0, disk0, chains0, f, off0, b + src[..t])
    {
      hide Reach, Linked, Stored, OthersKept, FreeSlots, Elements, Wrote;
      ChainDistinct(fat, chains, own, g, f);
      t := WriteClus(cur, src, r, m);
      ReachShift(q, r, |src|, g.spc);
      ghost var data := src[..t];
      StoreInCluster(old(disk), disk, g, chains[f], off0 + |b|, q, r, data);
      StoredTrans(disk0, old(disk), disk, g, ChainOf(chains0, f), chains[f], chains[f], off0, b, data);
      StoreOthers(fat, chains, own, old(disk), disk, g, f, q, r, data);
      OthersKeptTrans(disk0, old(disk), disk, chains0, chains, g, f);
    }

    /** ewrite.  src is what can be read at the source address (all n bytes, unless it is a
        bad user address).  r is the returned count; w counts the bytes really stored, which
        include those of the cluster in which a failing copy stopped. */
    method EWrite(entry: Dirent, src: seq<byte>, start: int, n: int) returns (r: int, ghost w: int, panicked: bool)
      requires Valid() && FileOk(entry) && 0 <= start < 0x1_0000_0000 && 0 <= n < 0x1_0000_0000
      modifies this, entry
      // refused, with nothing changed
      ensures !panicked ==> (start > old(entry.fileSize) || start + n >= 0x1_0000_0000 || old(entry.readOnly) <==> r == -1)
      ensures !panicked && r == -1 ==> fat == old(fat) && disk == old(disk) && chains == old(chains) && unchanged(entry)
      // the directory entry is to be written back exactly if the file's first cluster or its size is new
      ensures !panicked && r != -1 ==> entry.dirty == (old(entry.dirty) || old(entry.firstClus) == 0 || entry.fileSize != old(entry.fileSize))
      ensures entry.readOnly == old(entry.readOnly) && entry.directory == old(entry.directory)
      // out of clusters exactly when the volume has fewer free ones than the write needs
      ensures panicked ==> Needed(|ChainOf(old(chains), entry.id)|, start, n, g.Bpc()) - |ChainOf(old(chains), entry.id)| > |FreeSlots(old(fat))|
      ensures !panicked && r == n ==>
        && Needed(|ChainOf(old(chains), entry.id)|, start, n, g.Bpc()) - |ChainOf(old(chains), entry.id)| <= |FreeSlots(old(fat))|
        && |ChainOf(chains, entry.id)| == Needed(|ChainOf(old(chains), entry.id)|, start, n, g.Bpc())
      // whole clusters are counted and whole sectors stored when the source address goes bad
      ensures !panicked && r != -1 && |src| < n ==> r == Reach(start, |src|, g.Bpc()) && w == Reach(start, |src|, BSIZE)
      // the stream has the data stored in it, no other file changed, and the size is right
      ensures !panicked && r != -1 ==>
        && 0 <= r <= w <= |src| && w <= n && (|src| >= n ==> r == n)
        && Written(old(fat), old(disk), old(chains), entry.id, start, src[..w])
        && FileOk(entry)
        && entry.fileSize == (if start + r > old(entry.fileSize) then start + r else old(entry.fileSize))
      ensures !panicked && r == n ==>
        Content(entry) == old(Content(entry))[..start] + src[..n]
                          + (if start + n > old(entry.fileSize) then [] else old(Content(entry))[start + n..])
    {
      hide Needed, Stored, Elements, FreeSlots, OthersKept, Linked, Sized, Bytes, Reach;
      if start > entry.fileSize || start + n >= 0x1_0000_0000 || entry.readOnly {
        return -1, 0, false;
      }
      if entry.firstClus == 0 {
        panicked := FirstCluster(entry, start);
        if panicked {
          NeededSome(|ChainOf(old(chains), entry.id)|, start, n, g.Bpc());
          return 0, 0, true;
        }
      } else {
        StartWriting(entry, start);
      }
      assert src[..0] == [];
      ghost var reach;
      r, w, reach, panicked := WriteLoop(old(fat), old(disk), old(chains), entry, src, start, n);
      if panicked {
        return 0, w, true;
      }
      EWriteDone(old(fat), old(disk), old(chains), entry, src, start, r, w, reach);
      if n > 0 && start + r > entry.fileSize {
        entry.fileSize := start + r;
        entry.dirty := true;
      }
    }

    lemma EWriteDone(fat0: seq<int>, disk0: seq<Sector>, chains0: Chains, entry: Dirent, src: seq<byte>, start: int, r: int, w: int, reach: int)
      requires 0 <= start <= entry.fileSize && 0 <= r <= w <= |src| && w <= reach
      requires Writing(fat0, disk0, chains0, entry, start, src[..w], reach)
      requires entry.fileSize <= |ChainOf(chains0, entry.id)| * g.Bpc()
      ensures entry.fileSize <= |chains[entry.id]| * g.Bpc()
      ensures r > 0 ==> start + r <= |chains[entry.id]| * g.Bpc()
      ensures Needed(|ChainOf(chains0, entry.id)|, start, reach, g.Bpc()) - |ChainOf(chains0, entry.id)| <= |FreeSlots(fat0)|
      ensures r == w ==>
        Bytes(disk, g, chains[entry.id], 0, if start + r > entry.fileSize then start + r else entry.fileSize)
          == Bytes(disk0, g, ChainOf(chains0, entry.id), 0, entry.fileSize)[..start] + src[..r]
             + (if start + r > entry.fileSize then [] else Bytes(disk0, g, ChainOf(chains0, entry.id), 0, entry.fileSize)[start + r..])
    {
      hide Stored, Elements, FreeSlots, OthersKept, Linked;
      if |ChainOf(chains0, entry.id)| < |chains[entry.id]| {
        Gap(g.Bpc(), |ChainOf(chains0, entry.id)|, |chains[entry.id]|);
      }
      if r == w {
        Spliced(disk0, disk, g, ChainOf(chains0, entry.id), chains[entry.id], start, src[..r], entry.fileSize);
      }
    }

    /** reloc_clus as ewrite calls it, in the middle of a write that has stored b so far. */
    method RelocForWrite(ghost fat0: seq<int>, ghost disk0: seq<Sector>, ghost chains0: Chains, ghost start: int, ghost b: seq<byte>,
                         entry: Dirent, off: int) returns (panicked: bool)
      requires Written(fat0, disk0, chains0, entry.id, start, b) && off == start + |b| && 0 <= off
      requires CursorAt(chains, entry.id, entry.firstClus, entry.curClus, entry.clusCnt)
      modifies this, entry`curClus, entry`clusCnt
      ensures panicked <==> off / g.Bpc() + 1 - |old(chains)[entry.id]| > |FreeSlots(old(fat))|
      ensures !panicked ==>
        && Written(fat0, disk0, chains0, entry.id, start, b)
        && CursorAt(chains, entry.id, entry.firstClus, entry.curClus, entry.clusCnt)
        && |chains[entry.id]| == (if off / g.Bpc() >= |old(chains)[entry.id]| then off / g.Bpc() + 1 else |old(chains)[entry.id]|)
        && entry.clusCnt == off / g.Bpc()
    {
      ghost var f := entry.id;
      var r;
      r, panicked := RelocClus(entry, off, true);
      if !panicked {
        OnlyGrewTrans(fat0, old(fat), fat, disk0, old(disk), disk, chains0, old(chains), chains, g, f);
        StoredMore(disk0, old(disk), disk, g, ChainOf(chains0, f), old(chains)[f], chains[f], start, b);
      }
    }

    /** The state of ewrite's loop: bytes are stored at start, the chain is as long as a write
        of reach bytes needs. */
    ghost predicate Writing(fat0: seq<int>, disk0: seq<Sector>, chains0: Chains, entry: Dirent, start: int, bytes: seq<byte>, reach: int)
      reads this, entry
    {
      && Written(fat0, disk0, chains0, entry.id, start, bytes)
      && CursorAt(chains, entry.id, entry.firstClus, entry.curClus, entry.clusCnt)
      && |chains[entry.id]| == Needed(|ChainOf(chains0, entry.id)|, start, reach, g.Bpc())
      && (reach > 0 ==> start + reach <= |chains[entry.id]| * g.Bpc())
    }

    /** One round of ewrite: t of the next m bytes are stored in one cluster. */
    method WriteRound(ghost fat0: seq<int>, ghost disk0: seq<Sector>, ghost chains0: Chains, ghost start: int, tot: int,
                      entry: Dirent, src: seq<byte>, off: int, left: int) returns (m: int, t: int, panicked: bool)
      requires 0 <= tot <= |src| && off == start + tot && 0 <= start && 0 < left
      requires Writing(fat0, disk0, chains0, entry, start, src[..tot], tot)
      modifies this, entry`curClus, entry`clusCnt
      ensures panicked ==> Needed(|ChainOf(chains0, entry.id)|, start, tot + left, g.Bpc()) - |ChainOf(chains0, entry.id)| > |FreeSlots(fat0)|
      ensures !panicked ==> 0 <= t <= m <= left && 0 < m && tot + t <= |src| && (|src| >= tot + m ==> t == m)
      ensures !panicked ==> m == Piece(off, left, g.Bpc()) && (|src| < tot + m ==> t == Reach(off, |src| - tot, BSIZE))
      ensures !panicked ==> Writing(fat0, disk0, chains0, entry, start, src[..tot + t], tot + m)
    {
      hide Reach, Linked, Stored, OthersKept, FreeSlots, Elements, Needed, Clusters;
      ghost var f := entry.id;
      ghost var had := |ChainOf(chains0, f)|;
      ghost var q, rest := Split(off, g.Bpc());
      RoundNeeds(had, start, tot, tot + left, q, rest, g.Bpc());
      panicked := RelocForWrite(fat0, disk0, chains0, start, src[..tot], entry, off);
      if panicked {
        return 0, 0, true;
      }
      m := g.Bpc() - off % g.Bpc();
      if left < m {
        m := left;
      }
      RoundDone(had, start, tot, m, q, rest, g.Bpc());
      ChunkEnd(off, q, rest, m, |chains[f]|, g.Bpc());
      t := StoreChunk(fat0, disk0, chains0, start, src[..tot], f, q, entry.curClus, src[tot..], off % g.Bpc(), m);
      assert src[..tot] + src[tot..][..t] == src[..tot + t];
    }

    /** The loop of ewrite; reach is how far the chain was grown. */
    method WriteLoop(ghost fat0: seq<int>, ghost disk0: seq<Sector>, ghost chains0: Chains,
                     entry: Dirent, src: seq<byte>, start: int, n: int) returns (tot: int, ghost w: int, ghost reach: int, panicked: bool)
      requires g.Valid() && Writing(fat0, disk0, chains0, entry, start, [], 0) && 0 <= start && 0 <= n
      modifies this, entry`curClus, entry`clusCnt
      ensures panicked ==> Needed(|ChainOf(chains0, entry.id)|, start, n, g.Bpc()) - |ChainOf(chains0, entry.id)| > |FreeSlots(fat0)|
      ensures !panicked ==> 0 <= tot <= w <= |src| && w <= reach <= n && (|src| >= n ==> tot == n)
      ensures !panicked && |src| < n ==> tot == Reach(start, |src|, g.Bpc()) && w == Reach(start, |src|, BSIZE)
      ensures !panicked ==> Writing(fat0, disk0, chains0, entry, start, src[..w], reach)
    {
      hide Written, CursorAt, Needed, Reach;
      var off, m := start, 0;
      tot, w, reach, panicked := 0, 0, 0, false;
      assert src[..0] == [];
      while tot < n
        invariant 0 <= tot == w == reach <= |src| && w <= n && off == start + tot
        invariant tot == 0 || tot == n || (start + tot) % g.Bpc() == 0
        invariant Writing(fat0, disk0, chains0, entry, start, src[..w], tot)
        decreases n - tot
      {
        var t;
        m, t, panicked := WriteRound(fat0, disk0, chains0, start, tot, entry, src, off, n - tot);
        if panicked {
          return;
        }
        w, reach := w + t, reach + m;
        assert Writing(fat0, disk0, chains0, entry, start, src[..w], reach);
        if t != m {
          CopyEnds(start, |src|, tot, g.spc, m, n - tot);
          return;
        }
        PieceEnds(off, n - tot, g.Bpc());
        tot, off := tot + m, off + m;
      }
    }

    /** eread.  room is how many bytes can be stored at the destination address (at least n,
        unless it is a bad user address).  The count leaves out the bytes of the cluster in
        which a failing copy stopped; out does not. */
    method ERead(entry: Dirent, start: int, count: int, room: nat) returns (tot: int, out: seq<byte>)
      requires Valid() && FileOk(entry) && 0 <= start < 0x1_0000_0000 && 0 <= count < 0x1_0000_0000
      modifies this, entry`curClus, entry`clusCnt
      ensures fat == old(fat) && disk == old(disk) && chains == old(chains) && Valid() && FileOk(entry)
      ensures start > entry.fileSize || start + count >= 0x1_0000_0000 || entry.directory ==> tot == 0 && out == []
      ensures !(start > entry.fileSize || start + count >= 0x1_0000_0000 || entry.directory) ==>
        var end := if start + count > entry.fileSize then entry.fileSize else start + count;
        && 0 <= tot <= |out| <= end - start && out == Content(entry)[start..start + |out|]
        && (room >= end - start ==> tot == end - start && out == Content(entry)[start..end])
        // whole clusters are counted and whole sectors delivered when the destination goes bad
        && (room < end - start ==> tot == Reach(start, room, g.Bpc()) && |out| == Reach(start, room, BSIZE))
    {
      hide Reach, Linked, FileByte;
      tot, out := 0, [];
      if start > entry.fileSize || start + count >= 0x1_0000_0000 || entry.directory {
        return;
      }
      var n := count;
      if start + n > entry.fileSize {
        n := entry.fileSize - start;
      }
      var off := start;
      ghost var f := entry.id;
      while entry.curClus < FAT32_EOC && tot < n
        invariant Valid() && FileOk(entry) && fat == old(fat) && disk == old(disk) && chains == old(chains)
        invariant 0 <= tot == |out| <= n && off == start + tot && tot <= room
        invariant tot == 0 || tot == n || (start + tot) % g.Bpc() == 0
        invariant forall i :: 0 <= i < tot ==> out[i] == FileByte(disk, g, ChainOf(chains, f), start + i)
        decreases n - tot
      {
        var m, part, got;
        m, got, part := ReadRound(entry, off, n - tot, room - tot);
        out := out + part;
        if got != m {
          Sliced(disk, g, ChainOf(chains, f), entry.fileSize, start, out);
          CopyEnds(start, room, tot, g.spc, m, n - tot);
          return;
        }
        PieceEnds(off, n - tot, g.Bpc());
        tot, off := tot + m, off + m;
      }
      if f in chains && 0 <= entry.clusCnt < |chains[f]| { ClusterIn(fat, chains, own, g.last, f, entry.clusCnt); }
      Sliced(disk, g, ChainOf(chains, f), entry.fileSize, start, out);
    }

    /** One round of eread: got of the next m bytes. */
    method ReadRound(entry: Dirent, off: int, left: int, room: nat) returns (m: int, got: int, part: seq<byte>)
      requires Valid() && FileOk(entry) && 0 <= off && 0 < left && off + left <= entry.fileSize
      modifies this, entry`curClus, entry`clusCnt
      ensures fat == old(fat) && disk == old(disk) && chains == old(chains) && Valid() && FileOk(entry)
      ensures 0 <= got <= m <= left && 0 < m && |part| == got <= room && (room >= m ==> got == m)
      ensures m == Piece(off, left, g.Bpc()) && (room < m ==> got == Reach(off, room, BSIZE))
      ensures forall i :: 0 <= i < got ==> part[i] == FileByte(disk, g, ChainOf(chains, entry.id), off + i)
    {
      hide Linked, FreeSlots, Reach, FileByte, Sized;
      ghost var f := entry.id;
      ghost var q, rest := Split(off, g.Bpc());
      Within(off, q, rest, |ChainOf(chains, f)|, g.Bpc());
      ClusterIn(fat, chains, own, g.last, f, q);
      var r, panicked := RelocClus(entry, off, false);
      m := g.Bpc() - off % g.Bpc();
      if left < m {
        m := left;
      }
      got, part := ReadClus(entry.curClus, room, off % g.Bpc(), m);
      ReachShift(q, rest, room, g.spc);
      forall i | 0 <= i < got ensures part[i] == FileByte(disk, g, chains[f], off + i) {
        At(disk, g, chains[f], off + i, q, rest + i);
      }
    }

    /** etrunc */
    method ETrunc(entry: Dirent)
      requires Valid() && FileOk(entry)
      modifies this, entry
      ensures Valid() && FileOk(entry) && entry.firstClus == 0 && entry.fileSize == 0 && entry.dirty
      ensures entry.readOnly == old(entry.readOnly) && entry.directory == old(entry.directory)
      ensures chains == old(chains) - {entry.id} && disk == old(disk)
      ensures FreeSlots(fat) == FreeSlots(old(fat)) + Elements(ChainOf(old(chains), entry.id))
    {
      ghost var f, ch, fat0 := entry.id, ChainOf(chains, entry.id), fat;
      ghost var k := 0;
      if f in chains { FirstFreed(fat, chains, own, g, f); }
      hide Linked, FreeSlots, Elements, Freed, Sized;
      LinkedSize(fat, chains, own, g.last);
      var clus := entry.firstClus;
      while 2 <= clus < FAT32_EOC
        invariant 0 <= k <= |ch| && g.last < |fat| == |fat0| && (f in chains ==> Freed(fat0, fat, ch, k))
        invariant f !in chains ==> fat == fat0 && clus == 0
        invariant f in chains ==> if k < |ch| then clus == ch[k] else !(2 <= clus < FAT32_EOC) && 0 <= clus
        decreases |ch| - k
        modifies this`fat
      {
        NextFreed(fat0, fat, chains, own, g, f, k);
        var next := ReadFat(clus);
        var r := WriteFat(clus, 0);
        clus := next;
        k := k + 1;
      }
      if f in chains {
        AllFreed(fat0, chains, own, g, f, k);
        DropChain(fat0, fat, chains, own, g.last, f);
        DroppedElements(chains[f]);
        chains, own := chains - {f}, map c | c in own && own[c].0 != f :: own[c];
      } else {
        NoElements();
      }
      entry.fileSize := 0;
      entry.firstClus := 0;
      entry.dirty := true;
    }
  }

  /** A call whose count leaves stored bytes out: of 1000 bytes only 600 can be read, so one
      sector of an empty file is stored, none is counted, and the size stays 0. */
  method HalfStored() returns (count: int, size: int, stored: seq<byte>)
    ensures count == 0 && size == 0 && stored == seq<byte>(BSIZE, _ => 7)
  {
    hide Linked, Sized, Distinct;
    var g := Geometry(2, 5);
    var v := new Volume(g, 1);
    var entry := new Dirent(0, 0, 0, false, false);
    var src: seq<byte> := seq<byte>(600, _ => 7);
    ghost var fat0, disk0, chains0 := v.fat, v.disk, v.chains;
    EnoughForOne(v.fat);
    ghost var w;
    var panicked;
    count, w, panicked := v.EWrite(entry, src, 0, 1000);
    size := entry.fileSize;
    stored := ClusBytes(v.disk, v.g, entry.firstClus, 0, BSIZE);
    FirstSector(v.disk, disk0, v.g, ChainOf(chains0, 0), v.chains[0], src[..w], entry.firstClus);
    assert stored == src[..w];
  }

  lemma EnoughForOne(fat: seq<int>)
    requires 2 in FreeSlots(fat)
    ensures Needed(0, 0, 1000, 1024) <= |FreeSlots(fat)|
  {
    assert FreeSlots(fat) != {};
  }

  lemma FirstSector(disk: seq<Sector>, disk0: seq<Sector>, g: Geometry, ch0: seq<int>, ch: seq<int>, b: seq<byte>, c: int)
    requires Stored(disk0, disk, g, ch0, ch, 0, b) && g.Valid() && ch != [] && ch[0] == c && |b| == BSIZE <= g.Bpc()
    ensures ClusBytes(disk, g, c, 0, BSIZE) == b
  {
    forall i | 0 <= i < BSIZE ensures ClusByte(disk, g, c, i) == b[i] {
      At(disk, g, ch, i, 0, i);
      StoredHere(disk, disk0, g, ch0, ch, b, i);
    }
  }

  lemma StoredHere(disk: seq<Sector>, disk0: seq<Sector>, g: Geometry, ch0: seq<int>, ch: seq<int>, b: seq<byte>, i: int)
    requires Stored(disk0, disk, g, ch0, ch, 0, b) && 0 <= i < |b|
    ensures FileByte(disk, g, ch, i) == b[i]
  {
  }

  lemma LinkedSize(fat: seq<int>, chains: Chains, own: Owners, last: int)
    requires Linked(fat, chains, own, last)
    ensures last < |fat|
  {
  }

  lemma FirstFreed(fat: seq<int>, chains: Chains, own: Owners, g: Geometry, f: FileId)
    requires Linked(fat, chains, own, g.last) && f in chains
    ensures Freed(fat, fat, chains[f], 0) && chains[f] != []
  {
  }

  /** Reading a cluster's word before freeing it yields the next one of the chain. */
  lemma NextFreed(fat0: seq<int>, fat: seq<int>, chains: Chains, own: Owners, g: Geometry, f: FileId, k: int)
    requires Linked(fat0, chains, own, g.last) && f in chains && 0 <= k < |chains[f]| && Freed(fat0, fat, chains[f], k)
    ensures var ch := chains[f];
            && 2 <= ch[k] <= g.last && ch[k] < |fat| == |fat0|
            && Freed(fat0, fat[ch[k] := 0], ch, k + 1)
            && (if k + 1 < |ch| then fat[ch[k]] == ch[k + 1] else FAT32_EOC <= fat[ch[k]])
  {
    var ch := chains[f];
    ChainDistinct(fat0, chains, own, g, f);
    assert LinkAt(fat0, chains, own, g.last, f, k);
    assert ch[k] !in ch[..k];
    assert ch[..k + 1] == ch[..k] + [ch[k]];
  }

  lemma AllFreed(fat0: seq<int>, chains: Chains, own: Owners, g: Geometry, f: FileId, k: int)
    requires Linked(fat0, chains, own, g.last) && f in chains && 0 <= k <= |chains[f]|
    ensures k < |chains[f]| ==> 2 <= chains[f][k] < FAT32_EOC
  {
    assert LinkAt(fat0, chains, own, g.last, f, k);
  }

  lemma DroppedElements(ch: seq<int>)
    ensures Elements(ch) == set c | c in ch
  {
  }

  lemma NoElements()
    ensures Elements([]) == {}
  {
  }
}
