/** The file allocation table of kernel/fat32.c: cluster chains as values.

    fat[c] is the 32-bit word of cluster c (the FAT sectors of the first table,
    128 words each, laid end to end).  A file is named by a number, and chains
    gives the clusters of every file that has any. */
module FatChains {

  const FAT32_EOC := 0x0fff_fff8
  const BAD_CLUSTER := 0x0fff_fff7
  const FAT_LIMIT := 0x1000_0000   // the code never sets the four reserved bits
  const ENT_PER_SEC := 128         // BSIZE / sizeof(uint32)

  type FileId = int
  type Chains = map<FileId, seq<int>>
  type Owners = map<int, (FileId, int)>

  /** Used slot c is where its owner's chain says it is.  A data slot without an owner is
      free or marked bad; the slots that name no data cluster (0, 1 and those past the last) are
      never free. */
  ghost predicate SlotAt(fat: seq<int>, chains: Chains, own: Owners, last: int, c: int)
  {
    if c in own then
      && 2 <= c <= last < |fat| && fat[c] != 0 && fat[c] != BAD_CLUSTER
      && own[c].0 in chains && 0 <= own[c].1 < |chains[own[c].0]| && chains[own[c].0][own[c].1] == c
    else
      0 <= c < |fat| ==> if 2 <= c <= last then fat[c] == 0 || fat[c] == BAD_CLUSTER else fat[c] != 0
  }

  /** The i-th cluster of file f owns its slot and links to the next one, the last to EOC. */
  ghost predicate LinkAt(fat: seq<int>, chains: Chains, own: Owners, last: int, f: FileId, i: int)
  {
    f in chains && 0 <= i < |chains[f]| ==>
      var ch := chains[f];
      && 2 <= ch[i] <= last && ch[i] < |fat|
      && ch[i] in own && own[ch[i]] == (f, i)
      && (if i + 1 < |ch| then fat[ch[i]] == ch[i + 1] else FAT32_EOC <= fat[ch[i]] < FAT_LIMIT)
  }

  /** Chains are acyclic, EOC-terminated and pairwise disjoint, and every used slot of a
      data cluster is in exactly one of them. */
  ghost predicate Linked(fat: seq<int>, chains: Chains, own: Owners, last: int)
  {
    && last < |fat| && 2 <= last < FAT32_EOC - 1
    && (forall f :: f in chains ==> chains[f] != [])
    && (forall c {:trigger SlotAt(fat, chains, own, last, c)} :: SlotAt(fat, chains, own, last, c))
    && (forall f, i {:trigger LinkAt(fat, chains, own, last, f, i)} :: LinkAt(fat, chains, own, last, f, i))
  }

  /** The free clusters. */
  ghost function FreeSlots(fat: seq<int>): set<int>
  {
    set c: int | 0 <= c < |fat| && fat[c] == 0
  }

  /** Two positions of chains hold different clusters: chains are disjoint and acyclic. */
  lemma Disjoint(fat: seq<int>, chains: Chains, own: Owners, last: int, f: FileId, i: int, g: FileId, j: int)
    requires Linked(fat, chains, own, last)
    requires f in chains && 0 <= i < |chains[f]| && g in chains && 0 <= j < |chains[g]| && (f, i) != (g, j)
    ensures chains[f][i] != chains[g][j]
  {
    assert LinkAt(fat, chains, own, last, f, i) && LinkAt(fat, chains, own, last, g, j);
  }

  ghost predicate InChain(chains: Chains, f: FileId, i: int, c: int)
  {
    f in chains && 0 <= i < |chains[f]| && chains[f][i] == c
  }

  /** A data cluster that is not marked bad is free exactly if it is in no chain, and otherwise it
      is in one place of one chain; one marked bad is neither free nor in a chain, and slots that
      name no data cluster are never free. */
  lemma EveryCluster(fat: seq<int>, chains: Chains, own: Owners, last: int, c: int)
    requires Linked(fat, chains, own, last) && 0 <= c < |fat|
    ensures c in FreeSlots(fat) <==> 2 <= c <= last && fat[c] != BAD_CLUSTER && !exists f, i :: InChain(chains, f, i, c)
    ensures fat[c] == BAD_CLUSTER && c <= last ==> !exists f, i :: InChain(chains, f, i, c)
    ensures forall f, i, g, j :: InChain(chains, f, i, c) && InChain(chains, g, j, c) ==> f == g && i == j
  {
    assert SlotAt(fat, chains, own, last, c);
    if c in own { assert InChain(chains, own[c].0, own[c].1, c); }
    forall f, i | InChain(chains, f, i, c) ensures c in own && own[c] == (f, i) {
      assert LinkAt(fat, chains, own, last, f, i);
    }
  }

  /** The word alloc_clus stores makes the free cluster c a chain of its own. */
  lemma AddChain(fat: seq<int>, chains: Chains, own: Owners, last: int, f: FileId, c: int)
    requires Linked(fat, chains, own, last) && f !in chains && c in FreeSlots(fat)
    ensures c !in own
    ensures Linked(fat[c := FAT32_EOC + 7], chains[f := [c]], own[c := (f, 0)], last)
    ensures FreeSlots(fat[c := FAT32_EOC + 7]) == FreeSlots(fat) - {c}
  {
    var fat', chains', own' := fat[c := FAT32_EOC + 7], chains[f := [c]], own[c := (f, 0)];
    assert SlotAt(fat, chains, own, last, c);
    forall d ensures SlotAt(fat', chains', own', last, d) {
      assert SlotAt(fat, chains, own, last, d);
    }
    forall g, i: int ensures LinkAt(fat', chains', own', last, g, i) {
      assert LinkAt(fat, chains, own, last, g, i);
    }
  }

  /** Writing the new cluster's number into the last word of f appends it to f's chain. */
  lemma Append(fat: seq<int>, chains: Chains, own: Owners, last: int, f: FileId, t: FileId, c: int)
    requires Linked(fat, chains, own, last) && f in chains && t in chains && f != t && chains[t] == [c]
    ensures var ch := chains[f]; var end := ch[|ch| - 1];
            && 2 <= end < |fat| && 2 <= c < |fat|
            && Linked(fat[end := c], (chains - {t})[f := ch + [c]], own[c := (f, |ch|)], last)
            && FreeSlots(fat[end := c]) == FreeSlots(fat)
  {
    var ch := chains[f];
    var n := |ch|;
    assert LinkAt(fat, chains, own, last, f, n - 1) && LinkAt(fat, chains, own, last, t, 0);
    var end := ch[n - 1];
    var fat', chains', own' := fat[end := c], (chains - {t})[f := ch + [c]], own[c := (f, n)];
    forall d ensures SlotAt(fat', chains', own', last, d) {
      assert SlotAt(fat, chains, own, last, d);
    }
    forall g, i: int ensures LinkAt(fat', chains', own', last, g, i) {
      assert LinkAt(fat, chains, own, last, g, i);
      if g != f || i < n - 1 {
        if g in chains && 0 <= i < |chains[g]| && g != t { Disjoint(fat, chains, own, last, g, i, f, n - 1); }
      }
    }
  }

  /** fat with the first k clusters of ch freed. */
  ghost predicate Freed(fat: seq<int>, fat': seq<int>, ch: seq<int>, k: int)
    requires 0 <= k <= |ch|
  {
    |fat'| == |fat| && forall c :: 0 <= c < |fat| ==> fat'[c] == if c in ch[..k] then 0 else fat[c]
  }

  /** Truncation frees exactly the clusters of the chain and leaves every other chain alone. */
  lemma DropChain(fat: seq<int>, fat': seq<int>, chains: Chains, own: Owners, last: int, f: FileId)
    requires Linked(fat, chains, own, last) && f in chains && Freed(fat, fat', chains[f], |chains[f]|)
    ensures Linked(fat', chains - {f}, map c | c in own && own[c].0 != f :: own[c], last)
    ensures FreeSlots(fat') == FreeSlots(fat) + (set c | c in chains[f])
  {
    var ch := chains[f];
    var chains', own' := chains - {f}, map c | c in own && own[c].0 != f :: own[c];
    assert ch[..|ch|] == ch;
    forall c | c in ch ensures c in own && own[c].0 == f && 2 <= c <= last {
      var i :| 0 <= i < |ch| && ch[i] == c;
      assert LinkAt(fat, chains, own, last, f, i);
    }
    forall c | c in own && own[c].0 == f ensures c in ch {
      assert SlotAt(fat, chains, own, last, c);
    }
    forall d ensures SlotAt(fat', chains', own', last, d) {
      assert SlotAt(fat, chains, own, last, d);
    }
    forall g, i: int ensures LinkAt(fat', chains', own', last, g, i) {
      assert LinkAt(fat, chains, own, last, g, i);
    }
  }
}
