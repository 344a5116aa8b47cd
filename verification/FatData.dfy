/** The data region of the volume in kernel/fat32.c: sectors, clusters and the byte
    stream a chain of clusters holds. */
module FatData {

  const BSIZE := 512

  type byte = b: int | 0 <= b < 256
  type Sector = s: seq<byte> | |s| == BSIZE witness seq(BSIZE, _ => 0)

  function Zeros(n: int): (z: seq<byte>)
    requires n >= 0
    ensures |z| == n && forall i :: 0 <= i < n ==> z[i] == 0
  {
    seq(n, _ => 0)
  }

  /** spc sectors a cluster, and data clusters numbered from 2 to last. */
  datatype Geometry = Geometry(spc: int, last: int) {
    ghost predicate Valid() { spc >= 1 && last >= 2 }

    /** Bytes per cluster. */
    function Bpc(): int { spc * BSIZE }

    /** first_sec_of_clus, counted from the first data sector. */
    function Sec(c: int): int { (c - 2) * spc }
  }

  /** Byte r of cluster c; 0 outside the region. */
  function ClusByte(disk: seq<Sector>, g: Geometry, c: int, r: int): byte
  {
    var s := g.Sec(c) + r / BSIZE;
    if 0 <= s < |disk| then disk[s][r % BSIZE] else 0
  }

  /** disk' is disk with bytes stored from byte off of cluster c on, and nothing else changed. */
  ghost predicate Wrote(disk: seq<Sector>, disk': seq<Sector>, g: Geometry, c: int, off: int, bytes: seq<byte>)
  {
    && |disk'| == |disk|
    && forall d, r {:trigger ClusByte(disk', g, d, r)} :: 2 <= d <= g.last && 0 <= r < g.Bpc() ==>
         ClusByte(disk', g, d, r) == if d == c && off <= r < off + |bytes| then bytes[r - off] else ClusByte(disk, g, d, r)
  }

  ghost predicate Sized(disk: seq<Sector>, g: Geometry)
  {
    g.Valid() && |disk| == (g.last - 1) * g.spc
  }

  /** A sector number determines the cluster and the sector's place in it. */
  lemma SameSector(spc: int, c: int, a: int, d: int, b: int)
    requires spc >= 1 && 0 <= a < spc && 0 <= b < spc && c * spc + a == d * spc + b
    ensures c == d && a == b
  {
    if c < d {
      Gap(spc, c, d);
    } else if d < c {
      Gap(spc, d, c);
    }
  }

  lemma Gap(spc: int, c: int, d: int)
    requires spc >= 1 && c < d
    ensures c * spc + spc <= d * spc
  {
    assert (d - c - 1) * spc >= 0;
    assert d * spc == c * spc + spc + (d - c - 1) * spc;
  }

  lemma SectorInRange(disk: seq<Sector>, g: Geometry, c: int, j: int)
    requires Sized(disk, g) && 2 <= c <= g.last && 0 <= j < g.spc
    ensures 0 <= g.Sec(c) + j < |disk|
  {
    assert (g.last - c) * g.spc >= 0;
    assert (c - 2) * g.spc >= 0;
    assert (g.last - 1) * g.spc == (g.last - c) * g.spc + (c - 2) * g.spc + g.spc;
  }

  /** A sector with bytes stored from byte o on. */
  function Patch(s: Sector, o: int, bytes: seq<byte>): (t: Sector)
    requires 0 <= o && o + |bytes| <= BSIZE
    ensures forall i :: 0 <= i < BSIZE ==> t[i] == if o <= i < o + |bytes| then bytes[i - o] else s[i]
  {
    s[..o] + bytes + s[o + |bytes|..]
  }

  /** Rewriting one sector changes only the bytes of its place in its cluster. */
  lemma WriteSector(disk: seq<Sector>, g: Geometry, c: int, off: int, bytes: seq<byte>)
    requires Sized(disk, g) && 2 <= c <= g.last && 0 <= off < g.Bpc() && off % BSIZE + |bytes| <= BSIZE
    ensures var s := g.Sec(c) + off / BSIZE;
            && 0 <= s < |disk|
            && Wrote(disk, disk[s := Patch(disk[s], off % BSIZE, bytes)], g, c, off, bytes)
  {
    var s := g.Sec(c) + off / BSIZE;
    SectorInRange(disk, g, c, off / BSIZE);
    var disk' := disk[s := Patch(disk[s], off % BSIZE, bytes)];
    forall d, r | 2 <= d <= g.last && 0 <= r < g.Bpc()
      ensures ClusByte(disk', g, d, r) == if d == c && off <= r < off + |bytes| then bytes[r - off] else ClusByte(disk, g, d, r)
    {
      SectorInRange(disk, g, d, r / BSIZE);
      if g.Sec(d) + r / BSIZE == s {
        SameSector(g.spc, d - 2, r / BSIZE, c - 2, off / BSIZE);
      }
    }
  }

  lemma WroteMore(disk: seq<Sector>, disk1: seq<Sector>, disk2: seq<Sector>, g: Geometry, c: int, off: int,
                  b1: seq<byte>, b2: seq<byte>)
    requires Wrote(disk, disk1, g, c, off, b1) && Wrote(disk1, disk2, g, c, off + |b1|, b2)
    ensures Wrote(disk, disk2, g, c, off, b1 + b2)
  {
    forall d, r | 2 <= d <= g.last && 0 <= r < g.Bpc()
      ensures ClusByte(disk2, g, d, r) == if d == c && off <= r < off + |b1 + b2| then (b1 + b2)[r - off] else ClusByte(disk, g, d, r)
    {
      assert ClusByte(disk1, g, d, r) == if d == c && off <= r < off + |b1| then b1[r - off] else ClusByte(disk, g, d, r);
    }
  }

  /** Byte k of the stream held by the chain ch, continued with zeros past its end. */
  function FileByte(disk: seq<Sector>, g: Geometry, ch: seq<int>, k: int): byte
    decreases |ch|
  {
    if k < 0 || ch == [] then 0
    else if k < g.Bpc() then ClusByte(disk, g, ch[0], k)
    else FileByte(disk, g, ch[1..], k - g.Bpc())
  }

  /** Byte q * Bpc + r of the stream is byte r of the q-th cluster. */
  lemma {:induction false} At(disk: seq<Sector>, g: Geometry, ch: seq<int>, k: int, q: int, r: int)
    requires g.Valid() && 0 <= q && 0 <= r < g.Bpc() && k == q * g.Bpc() + r
    ensures FileByte(disk, g, ch, k) == if q < |ch| then ClusByte(disk, g, ch[q], r) else 0
    decreases q
  {
    if q > 0 && ch != [] {
      OneLess(k, q, r, g.Bpc());
      At(disk, g, ch[1..], k - g.Bpc(), q - 1, r);
    }
  }

  lemma OneLess(k: int, q: int, r: int, b: int)
    requires 1 <= q && 0 <= r < b && k == q * b + r
    ensures b <= k && k - b == (q - 1) * b + r
  {
    Gap(b, 0, q);
  }

  /** Every stream position lies in exactly one cluster. */
  lemma Split(k: int, b: int) returns (q: int, r: int)
    requires 0 <= k && 1 <= b
    ensures 0 <= q && 0 <= r < b && k == q * b + r && q == k / b && r == k % b
  {
    q, r := k / b, k % b;
  }

  /** The stream of ch' is the stream of ch with bytes stored at off. */
  ghost predicate Stored(disk: seq<Sector>, disk': seq<Sector>, g: Geometry, ch: seq<int>, ch': seq<int>, off: int, bytes: seq<byte>)
  {
    forall k {:trigger FileByte(disk', g, ch', k)} ::
      FileByte(disk', g, ch', k) == if off <= k < off + |bytes| then bytes[k - off] else FileByte(disk, g, ch, k)
  }

  ghost predicate Distinct(ch: seq<int>, g: Geometry)
  {
    && (forall i :: 0 <= i < |ch| ==> 2 <= ch[i] <= g.last)
    && (forall i, j :: 0 <= i < j < |ch| ==> ch[i] != ch[j])
  }

  // ---- where the bytes lie ----

  /** Byte x of the data region: sectors follow each other from the first data sector on. */
  function DiskByte(disk: seq<Sector>, x: int): byte
  {
    if 0 <= x < |disk| * BSIZE then disk[x / BSIZE][x % BSIZE] else 0
  }

  /** These bytes lie at byte x of the data region. */
  ghost predicate LiesAt(disk: seq<Sector>, x: int, bytes: seq<byte>)
  {
    forall i :: 0 <= i < |bytes| ==> bytes[i] == DiskByte(disk, x + i)
  }

  lemma InSector(s: int, r: int)
    ensures (s * BSIZE + r) / BSIZE == s + r / BSIZE && (s * BSIZE + r) % BSIZE == r % BSIZE
  {
  }

  /** Cluster 2 begins where the data region does, and each cluster where the one before ends. */
  lemma ClusPlace(disk: seq<Sector>, g: Geometry, c: int, r: int)
    requires Sized(disk, g) && 2 <= c <= g.last && 0 <= r < g.Bpc()
    ensures 0 <= (c - 2) * g.Bpc() + r < |disk| * BSIZE
    ensures ClusByte(disk, g, c, r) == DiskByte(disk, (c - 2) * g.Bpc() + r)
  {
    SectorInRange(disk, g, c, r / BSIZE);
    assert (c - 2) * g.Bpc() == g.Sec(c) * BSIZE;
    InSector(g.Sec(c), r);
  }

  /** The clusters take up the whole of the data region. */
  lemma SomeCluster(disk: seq<Sector>, g: Geometry, x: int) returns (c: int, r: int)
    requires Sized(disk, g) && 0 <= x < |disk| * BSIZE
    ensures 2 <= c <= g.last && 0 <= r < g.Bpc() && x == (c - 2) * g.Bpc() + r
  {
    var q;
    q, r := Split(x, g.Bpc());
    c := q + 2;
    assert |disk| * BSIZE == (g.last - 1) * g.Bpc();
    if g.last - 1 < q { Gap(g.Bpc(), g.last - 1, q); }
  }

  /** disk' is disk with bytes stored from byte x of the data region on. */
  ghost predicate DiskWrote(disk: seq<Sector>, disk': seq<Sector>, x: int, bytes: seq<byte>)
  {
    |disk'| == |disk|
    && forall y {:trigger DiskByte(disk', y)} :: 0 <= y < |disk| * BSIZE ==>
         DiskByte(disk', y) == if x <= y < x + |bytes| then bytes[y - x] else DiskByte(disk, y)
  }

  /** A write to a cluster is a write to the region at the cluster's place. */
  lemma WrotePlace(disk: seq<Sector>, disk': seq<Sector>, g: Geometry, c: int, off: int, bytes: seq<byte>)
    requires Sized(disk, g) && Wrote(disk, disk', g, c, off, bytes) && 2 <= c <= g.last && 0 <= off && off + |bytes| <= g.Bpc()
    ensures DiskWrote(disk, disk', (c - 2) * g.Bpc() + off, bytes)
  {
    var base := (c - 2) * g.Bpc() + off;
    forall y | 0 <= y < |disk| * BSIZE
      ensures DiskByte(disk', y) == if base <= y < base + |bytes| then bytes[y - base] else DiskByte(disk, y)
    {
      var d, r := SomeCluster(disk, g, y);
      ClusPlace(disk, g, d, r);
      ClusPlace(disk', g, d, r);
      SamePlace(y, d - 2, r, g.Bpc(), base, c - 2, off, |bytes|);
      hide ClusByte, DiskByte;
    }
  }

  /** Byte k of a file lies in the cluster at position k / Bpc of its chain. */
  lemma FilePlace(disk: seq<Sector>, g: Geometry, ch: seq<int>, k: int)
    requires Sized(disk, g) && 0 <= k < |ch| * g.Bpc() && forall i :: 0 <= i < |ch| ==> 2 <= ch[i] <= g.last
    ensures 0 <= k / g.Bpc() < |ch|
    ensures FileByte(disk, g, ch, k) == DiskByte(disk, (ch[k / g.Bpc()] - 2) * g.Bpc() + k % g.Bpc())
  {
    var q, r := Split(k, g.Bpc());
    if |ch| < q { Gap(g.Bpc(), |ch|, q); }
    At(disk, g, ch, k, q, r);
    ClusPlace(disk, g, ch[q], r);
  }

  /** A write inside one cluster of the chain is a write of the stream. */
  lemma StoreInCluster(disk: seq<Sector>, disk': seq<Sector>, g: Geometry, ch: seq<int>, off: int, q: int, r: int, bytes: seq<byte>)
    requires g.Valid() && Distinct(ch, g) && 0 <= q < |ch| && 0 <= r && off == q * g.Bpc() + r
    requires r + |bytes| <= g.Bpc() && Wrote(disk, disk', g, ch[q], r, bytes)
    ensures Stored(disk, disk', g, ch, ch, off, bytes)
  {
    forall k
      ensures FileByte(disk', g, ch, k) == if off <= k < off + |bytes| then bytes[k - off] else FileByte(disk, g, ch, k)
    {
      assert q * g.Bpc() >= 0;
      if k >= 0 {
        var kq, kr := Split(k, g.Bpc());
        At(disk, g, ch, k, kq, kr);
        At(disk', g, ch, k, kq, kr);
        SamePlace(k, kq, kr, g.Bpc(), off, q, r, |bytes|);
        assert kq < |ch| && kq != q ==> ch[kq] != ch[q];
      }
    }
  }

  /** Position k lies in [off, off + n), a part of cluster q, exactly if it lies in q there. */
  lemma SamePlace(k: int, kq: int, kr: int, b: int, off: int, q: int, r: int, n: int)
    requires 0 <= kr < b && 0 <= r && r + n <= b && k == kq * b + kr && off == q * b + r
    ensures off <= k < off + n <==> kq == q && r <= kr < r + n
    ensures off <= k < off + n ==> kr - r == k - off
  {
    if off <= k < off + n {
      SameSector(b, kq, kr, q, r + k - off);
    }
  }

  /** A write to a cluster the chain does not contain leaves its stream alone. */
  lemma StoreElsewhere(disk: seq<Sector>, disk': seq<Sector>, g: Geometry, ch: seq<int>, c: int, off: int, bytes: seq<byte>)
    requires g.Valid() && Distinct(ch, g) && c !in ch && Wrote(disk, disk', g, c, off, bytes)
    ensures Stored(disk, disk', g, ch, ch, 0, [])
  {
    forall k ensures FileByte(disk', g, ch, k) == FileByte(disk, g, ch, k) {
      if k >= 0 {
        var kq, kr := Split(k, g.Bpc());
        At(disk, g, ch, k, kq, kr);
        At(disk', g, ch, k, kq, kr);
        assert kq < |ch| ==> ch[kq] in ch;
      }
    }
  }

  /** Appending a zeroed cluster does not change the stream. */
  lemma StoreZeros(disk: seq<Sector>, disk': seq<Sector>, g: Geometry, ch: seq<int>, c: int)
    requires g.Valid() && Distinct(ch + [c], g) && Wrote(disk, disk', g, c, 0, Zeros(g.Bpc()))
    ensures Stored(disk, disk', g, ch, ch + [c], 0, [])
  {
    var ch' := ch + [c];
    assert ch'[|ch|] == c;
    forall k ensures FileByte(disk', g, ch', k) == FileByte(disk, g, ch, k) {
      if k >= 0 {
        var kq, kr := Split(k, g.Bpc());
        At(disk, g, ch, k, kq, kr);
        At(disk', g, ch', k, kq, kr);
        assert kq < |ch| ==> ch'[kq] == ch[kq] != c;
      }
    }
  }
}
