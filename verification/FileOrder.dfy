/** File-order independence: how far the arrangement of the same blocks over the numbered files, with
    whatever magic-free bytes between them, matters to the index. */
module FileOrder {
  import opened Bytes
  import opened BlockIndexModel
  import opened Common
  import opened Ancestry
  import opened BlockFileScan
  import opened ScanEntries
  import opened ScanPipeline
  import opened QuietScan
  import opened BlockWire

  datatype FileLayout = FileLayout(placed: seq<Placed>, tail: seq<Byte>)

  type Arrangement = seq<FileLayout>

  function DiskOf(arr: Arrangement): (d: Disk)
    ensures |d| == |arr| && forall i :: 0 <= i < |arr| ==> d[i] == Layout(arr[i].placed, arr[i].tail)
  {
    seq(|arr|, i requires 0 <= i < |arr| => Layout(arr[i].placed, arr[i].tail))
  }

  function Head(block: seq<Byte>): seq<Byte> {
    block[..ReadSize(|block|)]
  }

  ghost predicate Parses(block: seq<Byte>, hashOf: HashOf) {
    ParseHeader(Head(block)).Some?
  }

  /** Gaps without magic and whole blocks that parse. */
  ghost predicate GoodArrangement(arr: Arrangement, hashOf: HashOf) {
    && Readable(DiskOf(arr))
    && forall i :: 0 <= i < |arr| ==>
         && GoodLayout(arr[i].placed, arr[i].tail)
         && (forall j :: 0 <= j < |arr[i].placed| ==> Parses(arr[i].placed[j].block, hashOf))
  }

  /** The blocks of the files the listing finds. */
  ghost function BlocksOf(arr: Arrangement): set<seq<Byte>> {
    set i, j | 0 <= i < |arr| && Listed(DiskOf(arr), i) && 0 <= j < |arr[i].placed| :: arr[i].placed[j].block
  }

  ghost function AllBlocks(arr: Arrangement): set<seq<Byte>> {
    set i, j | 0 <= i < |arr| && 0 <= j < |arr[i].placed| :: arr[i].placed[j].block
  }

  /** The scan misses no block if and only if every block of a file it does not list lies in one it
      lists as well. */
  lemma AllBlocksFound(arr: Arrangement)
    ensures BlocksOf(arr) == AllBlocks(arr) <==>
              forall i, j :: 0 <= i < |arr| && !Listed(DiskOf(arr), i) && 0 <= j < |arr[i].placed| ==>
                FoundElsewhere(arr, arr[i].placed[j].block)
  {
    hide Listed;
    if forall i, j :: 0 <= i < |arr| && !Listed(DiskOf(arr), i) && 0 <= j < |arr[i].placed| ==>
         FoundElsewhere(arr, arr[i].placed[j].block)
    {
      forall b | b in AllBlocks(arr) ensures b in BlocksOf(arr) {
        var i, j :| 0 <= i < |arr| && 0 <= j < |arr[i].placed| && arr[i].placed[j].block == b;
        assert !Listed(DiskOf(arr), i) ==> FoundElsewhere(arr, b);
      }
    }
    if BlocksOf(arr) == AllBlocks(arr) {
      forall i, j | 0 <= i < |arr| && !Listed(DiskOf(arr), i) && 0 <= j < |arr[i].placed|
        ensures FoundElsewhere(arr, arr[i].placed[j].block)
      {
        assert arr[i].placed[j].block in AllBlocks(arr);
      }
    }
  }

  ghost predicate FoundElsewhere(arr: Arrangement, block: seq<Byte>) {
    exists i, j :: 0 <= i < |arr| && Listed(DiskOf(arr), i) && 0 <= j < |arr[i].placed| && arr[i].placed[j].block == block
  }

  lemma GapHides(disk: Disk, gap: nat, g: nat)
    requires gap + 3 <= |disk| && Missing(disk, gap) && Missing(disk, gap + 1) && Missing(disk, gap + 2)
    ensures Listed(disk, g) ==> g < gap
  {
    if g >= gap + 3 {
      assert Missing(disk, gap) && Missing(disk, gap + 1) && Missing(disk, gap + 2);
    }
  }

  lemma ListedBelow(disk: Disk, other: Disk, g: nat)
    requires |disk| == |other| && forall i :: 0 <= i <= g && i < |disk| ==> disk[i] == other[i]
    ensures Listed(disk, g) ==> Listed(other, g)
  {
    if Listed(disk, g) {
      forall i | 0 <= i && i + 2 < g
        ensures !(Missing(other, i) && Missing(other, i + 1) && Missing(other, i + 2))
      {
        assert Missing(disk, i) == Missing(other, i);
        assert Missing(disk, i + 1) == Missing(other, i + 1);
        assert Missing(disk, i + 2) == Missing(other, i + 2);
      }
    }
  }

  /** The catalog does not depend on what a file holds that lies behind three missing files. */
  lemma HiddenFile(disk: Disk, gap: nat, f: nat, bytes: seq<Byte>, hashOf: HashOf, recs: Catalog)
    requires gap + 3 <= f < |disk| && Missing(disk, gap) && Missing(disk, gap + 1) && Missing(disk, gap + 2)
    requires IsCatalog(disk, hashOf, recs)
    ensures !Listed(disk[f := bytes], f) && IsCatalog(disk[f := bytes], hashOf, recs)
  {
    hide Missing, ScanFrom;
    var other := disk[f := bytes];
    SameListing(disk, gap, f, bytes);
    forall g: nat, m | Listed(other, g) && m in Metas(other, g, hashOf)
      ensures m.hash in recs && recs[m.hash] == RecordOf(m)
    {
      assert Listed(disk, g) && other[g] == disk[g];
      assert m in Metas(disk, g, hashOf);
    }
    forall h | h in recs ensures exists g: nat, m :: Listed(other, g) && m in Metas(other, g, hashOf) && m.hash == h {
      var g: nat, m :| Listed(disk, g) && m in Metas(disk, g, hashOf) && m.hash == h;
      assert Listed(other, g) && m in Metas(other, g, hashOf);
    }
  }

  lemma SameListing(disk: Disk, gap: nat, f: nat, bytes: seq<Byte>)
    requires gap + 3 <= f < |disk| && Missing(disk, gap) && Missing(disk, gap + 1) && Missing(disk, gap + 2)
    ensures !Listed(disk[f := bytes], f)
    ensures forall g: nat :: Listed(disk[f := bytes], g) <==> Listed(disk, g)
    ensures forall g: nat :: Listed(disk, g) ==> g < f
  {
    hide Listed;
    var other := disk[f := bytes];
    GapHides(other, gap, f);
    forall g: nat
      ensures Listed(other, g) <==> Listed(disk, g)
      ensures Listed(disk, g) ==> g < f
    {
      GapHides(disk, gap, g);
      GapHides(other, gap, g);
      if g < gap {
        ListedBelow(disk, other, g);
        ListedBelow(other, disk, g);
      }
    }
  }

  /** A report that says of a block what its bytes say; only the position is its own. */
  ghost predicate Describes(m: Meta, block: seq<Byte>, hashOf: HashOf) {
    ParseBlock(Head(block), m.dataPos, hashOf) == Some(m)
  }

  /** recs has exactly the records of the given blocks. */
  ghost predicate CatalogOfBlocks(bs: set<seq<Byte>>, hashOf: HashOf, recs: Catalog) {
    && (forall b, m :: b in bs && Describes(m, b, hashOf) ==> m.hash in recs && recs[m.hash] == RecordOf(m))
    && (forall h :: h in recs ==> exists b, m :: b in bs && Describes(m, b, hashOf) && m.hash == h)
  }

  lemma {:induction false} PlacementsDescribe(ps: seq<Placed>, pos: nat, hashOf: HashOf, j: nat)
    requires forall i :: 0 <= i < |ps| ==> Parses(ps[i].block, hashOf)
    requires j < |ps|
    ensures |Placements(ps, pos, 0, hashOf)| == |ps| && Describes(Placements(ps, pos, 0, hashOf)[j], ps[j].block, hashOf)
    decreases |ps|
  {
    hide ParseHeader, TxCount;
    var start := pos + |ps[0].gap| + 8;
    assert Parses(ps[0].block, hashOf);
    if |ps| == 1 {
    } else {
      var rest := ps[1..];
      assert forall i :: 0 <= i < |rest| ==> rest[i] == ps[i + 1];
      PlacementsDescribe(rest, start + |ps[0].block|, hashOf, if j > 0 then j - 1 else 0);
    }
  }

  /** What the scan reports of file f of an arrangement. */
  lemma ArrangedReports(arr: Arrangement, hashOf: HashOf, f: nat)
    requires GoodArrangement(arr, hashOf) && f < |arr|
    ensures Metas(DiskOf(arr), f, hashOf) == Placements(arr[f].placed, 0, 0, hashOf)
  {
    hide ScanFrom, Placements, Listed;
    var ps, tail := arr[f].placed, arr[f].tail;
    ScanInvertsFraming([], ps, tail, 0, hashOf);
    assert [] + Layout(ps, tail) == Layout(ps, tail);
  }

  /** Two reports of the same block differ in position only. */
  lemma SameBlockSameRecord(m: Meta, m': Meta, block: seq<Byte>, hashOf: HashOf)
    requires Describes(m, block, hashOf) && Describes(m', block, hashOf)
    ensures m.hash == m'.hash && RecordOf(m) == RecordOf(m')
  {
    hide ParseHeader, TxCount;
  }

  /** The record of a block that was written as blocks are: its header's parent and bits, and its
      transaction count. */
  lemma WrittenInCatalog(bs: set<seq<Byte>>, hashOf: HashOf, recs: Catalog, w: Written)
    requires CatalogOfBlocks(bs, hashOf, recs) && WrittenOk(w) && BlockBytes(w) in bs
    ensures hashOf(w.header) in recs
    ensures recs[hashOf(w.header)] ==
              Record(w.header.prev, w.header.bits, if 1 <= w.count <= 100000 then w.count else 1)
  {
    hide BlockBytes, ParseBlock;
    BlockReads(w, 0, hashOf);
    assert Describes(MetaOf(w, 0, hashOf), BlockBytes(w), hashOf);
  }

  /** The catalog of an arrangement is the catalog of its blocks. */
  lemma ArrangementCatalog(arr: Arrangement, hashOf: HashOf, recs: Catalog)
    requires GoodArrangement(arr, hashOf) && CatalogOfBlocks(BlocksOf(arr), hashOf, recs)
    ensures IsCatalog(DiskOf(arr), hashOf, recs)
  {
    hide Placements, Metas, Missing, Describes, GoodArrangement, BlocksOf;
    var disk := DiskOf(arr);
    forall f: nat, m | Listed(disk, f) && m in Metas(disk, f, hashOf)
      ensures m.hash in recs && recs[m.hash] == RecordOf(m)
    {
      ArrangedReports(arr, hashOf, f);
      ReportHasBlock(arr, hashOf, f, m);
    }
    forall h | h in recs
      ensures exists f: nat, m :: Listed(disk, f) && m in Metas(disk, f, hashOf) && m.hash == h
    {
      var b, m :| b in BlocksOf(arr) && Describes(m, b, hashOf) && m.hash == h;
      var f, m' := BlockIsReported(arr, hashOf, b, m);
    }
  }

  lemma BlockIsReported(arr: Arrangement, hashOf: HashOf, b: seq<Byte>, m: Meta) returns (f: nat, m': Meta)
    requires GoodArrangement(arr, hashOf) && b in BlocksOf(arr) && Describes(m, b, hashOf)
    ensures Listed(DiskOf(arr), f) && m' in Metas(DiskOf(arr), f, hashOf) && m'.hash == m.hash
  {
    hide Placements, Metas, Missing, Describes, GoodLayout, Readable, Parses;
    var j;
    f, j :| 0 <= f < |arr| && Listed(DiskOf(arr), f) && 0 <= j < |arr[f].placed| && arr[f].placed[j].block == b;
    ArrangedReports(arr, hashOf, f);
    PlacementsDescribe(arr[f].placed, 0, hashOf, j);
    m' := Placements(arr[f].placed, 0, 0, hashOf)[j];
    SameBlockSameRecord(m, m', b, hashOf);
  }

  lemma ReportHasBlock(arr: Arrangement, hashOf: HashOf, f: nat, m: Meta)
    requires GoodArrangement(arr, hashOf) && f < |arr| && m in Placements(arr[f].placed, 0, 0, hashOf)
    requires Listed(DiskOf(arr), f)
    ensures exists b :: b in BlocksOf(arr) && Describes(m, b, hashOf)
  {
    hide Describes, Listed, GoodLayout, Readable;
    var ps := arr[f].placed;
    assert ps != [];
    PlacementsDescribe(ps, 0, hashOf, 0);
    var j :| 0 <= j < |Placements(ps, 0, 0, hashOf)| && Placements(ps, 0, 0, hashOf)[j] == m;
    PlacementsDescribe(ps, 0, hashOf, j);
    assert ps[j].block in BlocksOf(arr);
  }

  /** Following the links of both catalogs from h meets the same blocks up to genesis, after k steps. */
  ghost predicate SameChain(c: Catalog, d: Catalog, gh: Hash, h: Hash, k: nat)
    decreases k
  {
    if k == 0 then h == gh
    else h != gh && h in c && h in d && c[h].prev == d[h].prev && SameChain(c, d, gh, c[h].prev, k - 1)
  }

  /** The same chain carries the same work and counts, wherever the stale places lead. */
  lemma SameChainLabels(s: Start, pow: Proof, disk1: Disk, disk2: Disk, h: Hash, k: nat)
    requires s.gh in Joined(s, disk1) && s.gh in Joined(s, disk2)
    requires SameChain(Joined(s, disk1), Joined(s, disk2), s.gh, h, k)
    ensures Leads(Joined(s, disk1), s.gh, h, k) && Leads(Joined(s, disk2), s.gh, h, k)
    ensures HashWork(Joined(s, disk1), pow, s.gh, h, k) == HashWork(Joined(s, disk2), pow, s.gh, h, k)
    ensures HashTx(Joined(s, disk1), GenesisCount(s), s.gh, h, k) == HashTx(Joined(s, disk2), GenesisCount(s), s.gh, h, k)
  {
    hide Joined, HashProofs, HashTxs, GenesisCount;
    SameChainSums(s, pow, disk1, disk2, h, k);
  }

  lemma {:induction false} SameChainSums(s: Start, pow: Proof, disk1: Disk, disk2: Disk, h: Hash, k: nat)
    requires s.gh in Joined(s, disk1) && s.gh in Joined(s, disk2)
    requires SameChain(Joined(s, disk1), Joined(s, disk2), s.gh, h, k)
    ensures Leads(Joined(s, disk1), s.gh, h, k) && Leads(Joined(s, disk2), s.gh, h, k)
    ensures HashProofs(Joined(s, disk1), pow, h, k + 1) == HashProofs(Joined(s, disk2), pow, h, k + 1)
    ensures HashTxs(Joined(s, disk1), h, k) == HashTxs(Joined(s, disk2), h, k)
    decreases k
  {
    hide LinkHash, Bits, Txs;
    var c, d := Joined(s, disk1), Joined(s, disk2);
    if k == 0 {
      assert HashProofs(c, pow, c[h].prev, 0) == HashProofs(d, pow, d[h].prev, 0) == 0;
    } else {
      SameChainSums(s, pow, disk1, disk2, c[h].prev, k - 1);
    }
  }

  /** The bytes at the stale places name the same parents on both disks, or nobody looks. */
  ghost predicate StaleAgree(s: Start, disk1: Disk, disk2: Disk) {
    OrphanPass(s) ==> forall h :: Stale(s, h) ==> StalePrev(s, disk1, h) == StalePrev(s, disk2, h)
  }

  /** Stale places are all the two catalogs can differ in. */
  lemma JoinedAgree(s: Start, disk1: Disk, disk2: Disk)
    ensures Joined(s, disk1) == Joined(s, disk2) <==> StaleAgree(s, disk1, disk2)
  {
    hide OrphanPass, BytesAt, StalePrev;
    if Joined(s, disk1) == Joined(s, disk2) && OrphanPass(s) {
      forall h | Stale(s, h) ensures StalePrev(s, disk1, h) == StalePrev(s, disk2, h) {
        assert h in Joined(s, disk1) <==> LinkHash(s, disk1, h).Some?;
        assert h in Joined(s, disk2) <==> LinkHash(s, disk2, h).Some?;
      }
    }
  }

  /** Two arrangements of the same blocks, scanned into the same index. When the blocks give the scan
      something to do, every block that leads to genesis carries its distance and, if genesis is firm,
      its work along the links of its own disk, and its count too if and only if no count under a child
      wraps to zero. They are the same in both along every chain the two disks agree on, and the disks
      agree on every chain if and only if the bytes at the stale places do. When the blocks give it
      nothing to do, settled entries get the labels that follow from the index before the scan, and
      an unsettled one gets different labels if one arrangement begins with its block and the other
      with its parent's. */
  method ScanTwoArrangements(a: BlockIndex, b: BlockIndex, arr1: Arrangement, arr2: Arrangement, hashOf: HashOf, gh: Hash,
                             ghost recs: Catalog)
    returns (ghost s: Start)
    requires a != b && a.pow == b.pow && a.mem == b.mem && a.table == b.table
    requires ValidIndex(a.mem, a.table) && gh in a.table
    requires GoodArrangement(arr1, hashOf) && GoodArrangement(arr2, hashOf) && BlocksOf(arr1) == BlocksOf(arr2)
    requires CatalogOfBlocks(BlocksOf(arr1), hashOf, recs)
    modifies a, b
    ensures s == Start(old(a.mem), old(a.table), recs, gh) && gh in Joined(s, DiskOf(arr1)) && gh in Joined(s, DiskOf(arr2))
    ensures Joined(s, DiskOf(arr1)) == Joined(s, DiskOf(arr2)) <==> StaleAgree(s, DiskOf(arr1), DiskOf(arr2))
    ensures (exists h :: Stirs(s, h)) && Firm(s, a.pow) ==>
              && (AllLabelled(a.mem, a.table, a.pow, Joined(s, DiskOf(arr1)), gh, GenesisCount(s)) <==>
                   NoWrap(Joined(s, DiskOf(arr1)), GenesisCount(s), gh))
              && (AllLabelled(b.mem, b.table, a.pow, Joined(s, DiskOf(arr2)), gh, GenesisCount(s)) <==>
                   NoWrap(Joined(s, DiskOf(arr2)), GenesisCount(s), gh))
    ensures (exists h :: Stirs(s, h)) && Firm(s, a.pow) &&
            NoWrap(Joined(s, DiskOf(arr1)), GenesisCount(s), gh) &&
            NoWrap(Joined(s, DiskOf(arr2)), GenesisCount(s), gh) ==>
              forall h, k: nat :: SameChain(Joined(s, DiskOf(arr1)), Joined(s, DiskOf(arr2)), gh, h, k) ==>
                LabelsAgree(a.mem, a.table, b.mem, b.table, h, k)
    ensures (exists h :: Stirs(s, h)) && Firm(s, a.pow) ==>
              forall h, k: nat :: SameChain(Joined(s, DiskOf(arr1)), Joined(s, DiskOf(arr2)), gh, h, k) ==>
                WorkAgrees(a.mem, a.table, b.mem, b.table, h, k)
    ensures (exists h :: Stirs(s, h)) ==>
              && AllAtHeight(a.mem, a.table, Joined(s, DiskOf(arr1)), gh)
              && AllAtHeight(b.mem, b.table, Joined(s, DiskOf(arr2)), gh)
              && forall h, k: nat :: SameChain(Joined(s, DiskOf(arr1)), Joined(s, DiskOf(arr2)), gh, h, k) ==>
                HeightsAgree(a.mem, a.table, b.mem, b.table, h, k)
    ensures Quiet(s) ==> AllSettled(s, a.pow, a.mem, a.table) && AllSettled(s, a.pow, b.mem, b.table)
    ensures Quiet(s) ==> forall h :: OrderTold(s, a.pow, arr1, arr2, hashOf, h) ==> LabelsDiffer(s, a.mem, b.mem, h)
  {
    hide *;
    ArrangementCatalog(arr1, hashOf, recs);
    ArrangementCatalog(arr2, hashOf, recs);
    ArrangementReadable(arr1, hashOf);
    ArrangementReadable(arr2, hashOf);
    var m1, c1, m2, c2;
    ghost var s2;
    m1, c1, s := ScanBlockFiles(a, DiskOf(arr1), hashOf, gh, recs);
    m2, c2, s2 := ScanBlockFiles(b, DiskOf(arr2), hashOf, gh, recs);
    JoinedAgree(s, DiskOf(arr1), DiskOf(arr2));
    if m1 > 0 {
      BothAtHeight(a.mem, a.table, b.mem, b.table, a.pow, s, DiskOf(arr1), DiskOf(arr2));
    }
    if m1 > 0 && Firm(s, a.pow) {
      BothWeighed(a.mem, a.table, b.mem, b.table, a.pow, s, DiskOf(arr1), DiskOf(arr2));
    }
    if m1 > 0 && Firm(s, a.pow) && NoWrap(Joined(s, DiskOf(arr1)), GenesisCount(s), gh) &&
       NoWrap(Joined(s, DiskOf(arr2)), GenesisCount(s), gh)
    {
      BothLabelled(a.mem, a.table, b.mem, b.table, a.pow, s, DiskOf(arr1), DiskOf(arr2));
    }
    if Quiet(s) {
      QuietParts(s);
      QuietPair(s, a.pow, a.mem, a.table, b.mem, b.table, arr1, arr2, hashOf);
    }
  }

  lemma QuietParts(s: Start)
    requires Quiet(s)
    ensures forall h :: !Stirs(s, h)
  {
  }

  /** A block has height k in both indexes. */
  ghost predicate HeightsAgree(m1: Memory, t1: map<Hash, Ptr>, m2: Memory, t2: map<Hash, Ptr>, h: Hash, k: nat) {
    && h in t1 && t1[h] in m1 && h in t2 && t2[h] in m2
    && m1[t1[h]].height == k && m2[t2[h]].height == k
  }

  /** And the same work. */
  ghost predicate WorkAgrees(m1: Memory, t1: map<Hash, Ptr>, m2: Memory, t2: map<Hash, Ptr>, h: Hash, k: nat) {
    HeightsAgree(m1, t1, m2, t2, h, k) && m1[t1[h]].work == m2[t2[h]].work
  }

  /** And the same count. */
  ghost predicate LabelsAgree(m1: Memory, t1: map<Hash, Ptr>, m2: Memory, t2: map<Hash, Ptr>, h: Hash, k: nat) {
    HeightsAgree(m1, t1, m2, t2, h, k) && SameLabels(m1[t1[h]], m2[t2[h]])
  }

  lemma BothWeighed(m1: Memory, t1: map<Hash, Ptr>, m2: Memory, t2: map<Hash, Ptr>, pow: Proof, s: Start,
                    disk1: Disk, disk2: Disk)
    requires s.gh in Joined(s, disk1) && AllWeighed(m1, t1, pow, Joined(s, disk1), s.gh)
    requires s.gh in Joined(s, disk2) && AllWeighed(m2, t2, pow, Joined(s, disk2), s.gh)
    ensures forall h, k: nat :: SameChain(Joined(s, disk1), Joined(s, disk2), s.gh, h, k) ==> WorkAgrees(m1, t1, m2, t2, h, k)
  {
    hide Leads, HashWork, Joined, SameChain;
    forall h, k: nat | SameChain(Joined(s, disk1), Joined(s, disk2), s.gh, h, k) ensures WorkAgrees(m1, t1, m2, t2, h, k) {
      SameChainLabels(s, pow, disk1, disk2, h, k);
    }
  }

  lemma BothAtHeight(m1: Memory, t1: map<Hash, Ptr>, m2: Memory, t2: map<Hash, Ptr>, pow: Proof, s: Start,
                     disk1: Disk, disk2: Disk)
    requires s.gh in Joined(s, disk1) && AllAtHeight(m1, t1, Joined(s, disk1), s.gh)
    requires s.gh in Joined(s, disk2) && AllAtHeight(m2, t2, Joined(s, disk2), s.gh)
    ensures forall h, k: nat :: SameChain(Joined(s, disk1), Joined(s, disk2), s.gh, h, k) ==> HeightsAgree(m1, t1, m2, t2, h, k)
  {
    hide Leads, Joined, SameChain;
    forall h, k: nat | SameChain(Joined(s, disk1), Joined(s, disk2), s.gh, h, k) ensures HeightsAgree(m1, t1, m2, t2, h, k) {
      SameChainLabels(s, pow, disk1, disk2, h, k);
    }
  }

  lemma BothLabelled(m1: Memory, t1: map<Hash, Ptr>, m2: Memory, t2: map<Hash, Ptr>, pow: Proof, s: Start,
                     disk1: Disk, disk2: Disk)
    requires s.gh in Joined(s, disk1) && AllLabelled(m1, t1, pow, Joined(s, disk1), s.gh, GenesisCount(s))
    requires s.gh in Joined(s, disk2) && AllLabelled(m2, t2, pow, Joined(s, disk2), s.gh, GenesisCount(s))
    ensures forall h, k: nat :: SameChain(Joined(s, disk1), Joined(s, disk2), s.gh, h, k) ==> LabelsAgree(m1, t1, m2, t2, h, k)
  {
    hide Leads, HashWork, HashTx, Joined, SameChain, GenesisCount;
    forall h, k: nat | SameChain(Joined(s, disk1), Joined(s, disk2), s.gh, h, k) ensures LabelsAgree(m1, t1, m2, t2, h, k) {
      SameChainLabels(s, pow, disk1, disk2, h, k);
      assert LabelledAt(m1, t1, pow, Joined(s, disk1), s.gh, GenesisCount(s), h, k);
      assert LabelledAt(m2, t2, pow, Joined(s, disk2), s.gh, GenesisCount(s), h, k);
    }
  }

  /** The scan meets the block h before any other. */
  ghost predicate FirstMet(arr: Arrangement, hashOf: HashOf, h: Hash) {
    ScanReports(DiskOf(arr), hashOf) != [] && ScanReports(DiskOf(arr), hashOf)[0].meta.hash == h
  }

  /** One arrangement begins with the unsettled block h, the other with its parent. */
  ghost predicate OrderTold(s: Start, pow: Proof, arr1: Arrangement, arr2: Arrangement, hashOf: HashOf, h: Hash) {
    h in s.table && !Settled(s, pow, h) && h in s.recs && FirstMet(arr1, hashOf, h) && FirstMet(arr2, hashOf, s.recs[h].prev)
  }

  ghost predicate LabelsDiffer(s: Start, m1: Memory, m2: Memory, h: Hash) {
    && h in s.table && s.table[h] in m1 && s.table[h] in m2
    && (m1[s.table[h]].height != m2[s.table[h]].height || m1[s.table[h]].work != m2[s.table[h]].work)
  }

  lemma QuietPair(s: Start, pow: Proof, m1: Memory, t1: map<Hash, Ptr>, m2: Memory, t2: map<Hash, Ptr>,
                  arr1: Arrangement, arr2: Arrangement, hashOf: HashOf)
    requires Quiet(s) && t1 == s.table && t2 == s.table
    requires Readable(DiskOf(arr1)) && IsCatalog(DiskOf(arr1), hashOf, s.recs)
    requires Readable(DiskOf(arr2)) && IsCatalog(DiskOf(arr2), hashOf, s.recs)
    requires MetOnDisk(s.mem, m1, t1, pow, DiskOf(arr1), hashOf, Listing(DiskOf(arr1), |DiskOf(arr1)|))
    requires MetOnDisk(s.mem, m2, t2, pow, DiskOf(arr2), hashOf, Listing(DiskOf(arr2), |DiskOf(arr2)|))
    ensures AllSettled(s, pow, m1, t1) && AllSettled(s, pow, m2, t2)
    ensures forall h :: OrderTold(s, pow, arr1, arr2, hashOf, h) ==> LabelsDiffer(s, m1, m2, h)
  {
    hide Quiet, Readable, IsCatalog, MetOnDisk, AllSettled, Covers, Settled, QuietScanned, DiskOf, ScanReports;
    QuietIs(s, pow, m1, DiskOf(arr1), hashOf);
    QuietIs(s, pow, m2, DiskOf(arr2), hashOf);
    QuietSettles(s, pow, ScanReports(DiskOf(arr1), hashOf));
    QuietSettles(s, pow, ScanReports(DiskOf(arr2), hashOf));
    forall h | OrderTold(s, pow, arr1, arr2, hashOf, h) ensures LabelsDiffer(s, m1, m2, h) {
      Told(s, pow, arr1, arr2, hashOf, h);
    }
  }

  lemma ArrangementReadable(arr: Arrangement, hashOf: HashOf)
    requires GoodArrangement(arr, hashOf)
    ensures Readable(DiskOf(arr))
  {
    hide Readable;
  }

  /** The links the index came with are those the blocks on disk name, and an entry without one is at
      height 0, unless the orphan pass runs and finds it anyway. */
  ghost predicate Compatible(s: Start) {
    forall h :: h in s.recs && h != s.gh ==>
      if OldLink(s, h) == 0 then OldHeight(s, h) == 0 || OrphanPass(s)
      else s.recs[h].prev in s.table && OldLink(s, h) == s.table[s.recs[h].prev]
  }

  /** In a compatible index every block whose hashPrevBlock chain leads to genesis leads to genesis by
      its links. */
  lemma {:induction false} HashChainLeads(s: Start, disk: Disk, h: Hash, k: nat)
    requires StartOk(s) && Compatible(s) && Leads(s.recs, s.gh, h, k)
    ensures Leads(Joined(s, disk), s.gh, h, k)
    decreases k
  {
    hide OrphanPass;
    if k == 0 {
    } else {
      var prev := s.recs[h].prev;
      HashChainLeads(s, disk, prev, k - 1);
      assert prev in Known(s) by { LeadsKnown(s, prev, k - 1); }
      assert LinkHash(s, disk, h) == Some(prev);
      assert h in Joined(s, disk) && Joined(s, disk)[h].prev == prev;
    }
  }

  lemma LeadsKnown(s: Start, h: Hash, k: nat)
    requires StartOk(s) && Leads(s.recs, s.gh, h, k)
    ensures h in Known(s)
  {
  }

  /** The disk with one more file, which holds no block and carries x where a header at position 8 has
      its parent's hash. */
  function WithBytes(disk: Disk, x: Hash): Disk {
    disk + [seq(12, _ => 0) + x]
  }

  /** Stale places matter: an entry that is not on disk and claims to lie at position 8 of a file that
      is not there yet follows whatever block a new file names at that place, though the new file
      holds no block. */
  lemma StalePlaceFollowsBytes(s: Start, disk: Disk, hashOf: HashOf, h: Hash, x: Hash, k: nat)
    requires StartOk(s) && OrphanPass(s) && Readable(disk) && |disk| < 256 && IsCatalog(disk, hashOf, s.recs)
    requires Stale(s, h) && Old(s, h).file == |disk| && Old(s, h).dataPos == 8
    requires |x| == 32 && Leads(Joined(s, disk), s.gh, x, k)
    ensures Readable(WithBytes(disk, x)) && IsCatalog(WithBytes(disk, x), hashOf, s.recs)
    ensures Leads(Joined(s, WithBytes(disk, x)), s.gh, h, k + 1)
  {
    hide OrphanPass, IsCatalog, Leads, Joined, BytesAt;
    var bytes: seq<Byte> := seq(12, _ => 0) + x;
    ShortFile(disk, bytes, hashOf, s.recs);
    LeadsOn(s, disk, bytes, x, k);
    NamedAt(disk, x);
    StaleLinked(s, WithBytes(disk, x), h, x);
    LeadsNext(Joined(s, WithBytes(disk, x)), s.gh, h, x, k);
  }

  lemma NamedAt(disk: Disk, x: Hash)
    requires |x| == 32
    ensures BytesAt(WithBytes(disk, x), |disk|, 8) == Some(x)
  {
    assert WithBytes(disk, x)[|disk|][12..44] == x;
  }

  lemma StaleLinked(s: Start, disk: Disk, h: Hash, x: Hash)
    requires OrphanPass(s) && Stale(s, h) && BytesAt(disk, Old(s, h).file, Old(s, h).dataPos) == Some(x) && x in Known(s)
    ensures h in Joined(s, disk) && Joined(s, disk)[h].prev == x
  {
    hide OrphanPass, BytesAt;
    assert LinkHash(s, disk, h) == Some(x);
  }

  lemma LeadsNext(cat: Catalog, gh: Hash, h: Hash, x: Hash, k: nat)
    requires h != gh && h in cat && cat[h].prev == x && Leads(cat, gh, x, k)
    ensures Leads(cat, gh, h, k + 1)
  {
  }

  /** One more file breaks no chain. */
  lemma {:induction false} LeadsOn(s: Start, disk: Disk, bytes: seq<Byte>, x: Hash, k: nat)
    requires StartOk(s) && Leads(Joined(s, disk), s.gh, x, k)
    ensures x in Known(s) && Leads(Joined(s, disk + [bytes]), s.gh, x, k)
    decreases k
  {
    hide OrphanPass;
    if k == 0 {
    } else {
      LeadsOn(s, disk, bytes, Joined(s, disk)[x].prev, k - 1);
      assert LinkHash(s, disk + [bytes], x) == LinkHash(s, disk, x);
    }
  }

  /** Scanned with two such files, which hold the same blocks, the entry ends up at two heights. */
  method ScanStalePlace(a: BlockIndex, b: BlockIndex, disk: Disk, hashOf: HashOf, gh: Hash, h: Hash, x: Hash, y: Hash,
                        ghost recs: Catalog, ghost i: nat, ghost j: nat)
    returns (ghost s: Start)
    requires a != b && a.pow == b.pow && a.mem == b.mem && a.table == b.table
    requires ValidIndex(a.mem, a.table) && gh in a.table
    requires Readable(disk) && |disk| < 256 && IsCatalog(disk, hashOf, recs)
    requires StaleAt(Start(a.mem, a.table, recs, gh), disk, h) && |x| == 32 && |y| == 32
    requires Leads(Joined(Start(a.mem, a.table, recs, gh), disk), gh, x, i)
    requires Leads(Joined(Start(a.mem, a.table, recs, gh), disk), gh, y, j)
    modifies a, b
    ensures s == Start(old(a.mem), old(a.table), recs, gh)
    ensures IsCatalog(WithBytes(disk, x), hashOf, recs) && IsCatalog(WithBytes(disk, y), hashOf, recs)
    ensures h in a.table && a.table[h] in a.mem && a.mem[a.table[h]].height == i + 1
    ensures h in b.table && b.table[h] in b.mem && b.mem[b.table[h]].height == j + 1
  {
    hide *;
    s := Start(a.mem, a.table, recs, gh);
    StaleParts(s, disk, h);
    StalePlaceFollowsBytes(s, disk, hashOf, h, x, i);
    StalePlaceFollowsBytes(s, disk, hashOf, h, y, j);
    var m1, c1, m2, c2;
    ghost var s1, s2;
    m1, c1, s1 := ScanBlockFiles(a, WithBytes(disk, x), hashOf, gh, recs);
    m2, c2, s2 := ScanBlockFiles(b, WithBytes(disk, y), hashOf, gh, recs);
    HeightIs(a.mem, a.table, Joined(s, WithBytes(disk, x)), gh, h, i + 1);
    HeightIs(b.mem, b.table, Joined(s, WithBytes(disk, y)), gh, h, j + 1);
  }

  /** The orphan pass runs, and h claims position 8 of the first file that is not there. */
  ghost predicate StaleAt(s: Start, disk: Disk, h: Hash) {
    OrphanPass(s) && Stale(s, h) && Old(s, h).file == |disk| && Old(s, h).dataPos == 8
  }

  lemma StaleParts(s: Start, disk: Disk, h: Hash)
    requires ValidIndex(s.mem, s.table) && s.gh in s.table && StaleAt(s, disk, h)
    ensures StartOk(s) && OrphanPass(s) && Stale(s, h) && Old(s, h).file == |disk| && Old(s, h).dataPos == 8
    ensures exists k :: Stirs(s, k)
  {
    var k :| k in s.recs && k !in s.table;
    assert Stirs(s, k);
  }

  lemma HeightIs(mem: Memory, table: map<Hash, Ptr>, cat: Catalog, gh: Hash, h: Hash, k: nat)
    requires AllAtHeight(mem, table, cat, gh) && Leads(cat, gh, h, k)
    ensures h in table && table[h] in mem && mem[table[h]].height == k
  {
    hide Leads;
  }

  /** A file too short for a block adds nothing to the catalog. */
  lemma ShortFile(disk: Disk, bytes: seq<Byte>, hashOf: HashOf, recs: Catalog)
    requires IsCatalog(disk, hashOf, recs) && 0 < |bytes| < 148
    ensures IsCatalog(disk + [bytes], hashOf, recs)
  {
    hide Metas, Missing;
    var other := disk + [bytes];
    forall f: nat, m | Listed(other, f) && m in Metas(other, f, hashOf)
      ensures m.hash in recs && recs[m.hash] == RecordOf(m)
    {
      if f < |disk| {
        ListedPrefix(disk, bytes, f);
        MetasPrefix(disk, bytes, f, hashOf);
      } else {
        NothingShort(other, f, hashOf);
      }
    }
    forall h | h in recs ensures exists f: nat, m :: Listed(other, f) && m in Metas(other, f, hashOf) && m.hash == h {
      var f: nat, m :| Listed(disk, f) && m in Metas(disk, f, hashOf) && m.hash == h;
      ListedPrefix(disk, bytes, f);
      MetasPrefix(disk, bytes, f, hashOf);
      assert m in Metas(other, f, hashOf);
    }
  }

  lemma MetasPrefix(disk: Disk, bytes: seq<Byte>, f: nat, hashOf: HashOf)
    requires f < |disk|
    ensures Metas(disk + [bytes], f, hashOf) == Metas(disk, f, hashOf)
  {
    hide ScanFrom;
  }

  lemma NothingShort(disk: Disk, f: nat, hashOf: HashOf)
    requires f < |disk| && |disk[f]| < 148
    ensures Metas(disk, f, hashOf) == []
  {
    hide BlockAt;
  }

  lemma ListedPrefix(disk: Disk, bytes: seq<Byte>, f: nat)
    requires f < |disk|
    ensures Listed(disk + [bytes], f) <==> Listed(disk, f)
  {
    var other := disk + [bytes];
    assert forall i: nat :: i <= f ==> (Missing(disk, i) <==> Missing(other, i));
  }

  /** The file holding block b alone, before all others. */
  function Prefixed(b: seq<Byte>, arr: Arrangement): Arrangement {
    [FileLayout([Placed([], b)], [])] + arr
  }

  /** A file put before all others shifts the listing by one. */
  lemma ShiftedListing(disk: Disk, bytes: seq<Byte>, f: nat)
    requires bytes != []
    ensures Listed([bytes] + disk, 0) && (Listed([bytes] + disk, f + 1) <==> Listed(disk, f))
  {
    var other := [bytes] + disk;
    assert forall i: nat :: i < |disk| ==> (Missing(other, i + 1) <==> Missing(disk, i));
    if Listed(disk, f) {
      forall i | 0 <= i && i + 2 < f + 1 ensures !(Missing(other, i) && Missing(other, i + 1) && Missing(other, i + 2)) {
        assert i > 0 ==> !(Missing(disk, i - 1) && Missing(disk, i - 1 + 1) && Missing(disk, i - 1 + 2));
      }
    }
    if Listed(other, f + 1) {
      forall i | 0 <= i && i + 2 < f ensures !(Missing(disk, i) && Missing(disk, i + 1) && Missing(disk, i + 2)) {
        assert !(Missing(other, i + 1) && Missing(other, i + 1 + 1) && Missing(other, i + 1 + 2));
      }
    }
  }

  /** The layout of a file that holds the block b and nothing else. */
  lemma LoneLayout(b: seq<Byte>)
    ensures Layout([Placed([], b)], []) == Frame(b)
  {
    hide Frame;
    assert [Placed([], b)][1..] == [];
    assert [] + Frame(b) + [] == Frame(b);
  }

  lemma PrefixedDisk(b: seq<Byte>, arr: Arrangement)
    ensures DiskOf(Prefixed(b, arr)) == [Frame(b)] + DiskOf(arr)
  {
    hide Frame, Layout, DiskOf;
    LoneLayout(b);
    var d, e := DiskOf(Prefixed(b, arr)), [Frame(b)] + DiskOf(arr);
    assert |d| == |e|;
    forall i | 0 <= i < |d| ensures d[i] == e[i] {
      if i > 0 {
        assert Prefixed(b, arr)[i] == arr[i - 1];
      }
    }
  }

  lemma PrefixedGood(b: seq<Byte>, arr: Arrangement, hashOf: HashOf)
    requires GoodArrangement(arr, hashOf) && |arr| < 256 && 140 <= |b| <= 2000000 && Parses(b, hashOf)
    ensures GoodArrangement(Prefixed(b, arr), hashOf)
  {
    hide Layout, Parses, Frame;
    PrefixedDisk(b, arr);
    var d := DiskOf(Prefixed(b, arr));
    forall f | 0 <= f < |d| ensures |d[f]| < COUNT_MODULUS {
      if f > 0 {
        assert d[f] == DiskOf(arr)[f - 1];
      }
    }
    forall i | 0 <= i < |arr| + 1
      ensures GoodLayout(Prefixed(b, arr)[i].placed, Prefixed(b, arr)[i].tail)
      ensures forall j :: 0 <= j < |Prefixed(b, arr)[i].placed| ==> Parses(Prefixed(b, arr)[i].placed[j].block, hashOf)
    {
      if i > 0 {
        assert Prefixed(b, arr)[i] == arr[i - 1];
      }
    }
  }

  lemma PrefixedBlocks(b: seq<Byte>, arr: Arrangement)
    requires b in BlocksOf(arr)
    ensures BlocksOf(Prefixed(b, arr)) == BlocksOf(arr)
  {
    hide Listed, Frame, Layout, DiskOf;
    var arr' := Prefixed(b, arr);
    PrefixedDisk(b, arr);
    forall f: nat ensures Listed(DiskOf(arr'), f + 1) <==> Listed(DiskOf(arr), f) {
      ShiftedListing(DiskOf(arr), Frame(b), f);
    }
    forall x | x in BlocksOf(arr') ensures x in BlocksOf(arr) {
      var i, j :| 0 <= i < |arr'| && Listed(DiskOf(arr'), i) && 0 <= j < |arr'[i].placed| && arr'[i].placed[j].block == x;
      if i > 0 {
        var f: nat := i - 1;
        assert Listed(DiskOf(arr'), f + 1) && arr'[i] == arr[f];
      }
    }
    forall x | x in BlocksOf(arr) ensures x in BlocksOf(arr') {
      var i: nat, j :| i < |arr| && Listed(DiskOf(arr), i) && 0 <= j < |arr[i].placed| && arr[i].placed[j].block == x;
      assert arr'[i + 1] == arr[i] && Listed(DiskOf(arr'), i + 1);
    }
  }

  lemma {:induction false} ListingFirst(disk: Disk, n: nat)
    requires 0 < n <= |disk| && Listed(disk, 0)
    ensures Listing(disk, n) != [] && Listing(disk, n)[0] == 0
    decreases n
  {
    hide Listed;
    if n == 1 {
    } else {
      ListingFirst(disk, n - 1);
    }
  }

  lemma {:induction false} ReportsFirst(disk: Disk, hashOf: HashOf, files: seq<nat>)
    requires files != [] && (forall i :: 0 <= i < |files| ==> files[i] < |disk|) && Metas(disk, files[0], hashOf) != []
    ensures Reports(disk, hashOf, files) != []
    ensures Reports(disk, hashOf, files)[0].meta == Metas(disk, files[0], hashOf)[0]
    decreases |files|
  {
    hide Metas;
    if |files| == 1 {
      assert files[..0] == [];
    } else {
      ReportsFirst(disk, hashOf, files[..|files| - 1]);
    }
  }

  /** Any block can be put where the scan meets it first, without changing the blocks. */
  lemma PutFirst(arr: Arrangement, hashOf: HashOf, recs: Catalog, h: Hash) returns (arr': Arrangement)
    requires GoodArrangement(arr, hashOf) && |arr| < 256 && CatalogOfBlocks(BlocksOf(arr), hashOf, recs) && h in recs
    ensures GoodArrangement(arr', hashOf) && BlocksOf(arr') == BlocksOf(arr) && FirstMet(arr', hashOf, h)
  {
    hide GoodArrangement, Listed, DiskOf, Describes, Parses, Metas, Layout, Frame, Placements, BlocksOf;
    var b, m :| b in BlocksOf(arr) && Describes(m, b, hashOf) && m.hash == h;
    BlockFits(arr, hashOf, b);
    arr' := Prefixed(b, arr);
    PrefixedGood(b, arr, hashOf);
    PrefixedBlocks(b, arr);
    PrefixedDisk(b, arr);
    ShiftedListing(DiskOf(arr), Frame(b), 0);
    var disk := DiskOf(arr');
    ListingFirst(disk, |disk|);
    ArrangedReports(arr', hashOf, 0);
    PlacementsDescribe(arr'[0].placed, 0, hashOf, 0);
    SameBlockSameRecord(m, Placements(arr'[0].placed, 0, 0, hashOf)[0], b, hashOf);
    ReportsFirst(disk, hashOf, Listing(disk, |disk|));
  }

  lemma BlockFits(arr: Arrangement, hashOf: HashOf, b: seq<Byte>)
    requires GoodArrangement(arr, hashOf) && b in BlocksOf(arr)
    ensures 140 <= |b| <= 2000000 && Parses(b, hashOf)
  {
    hide Listed, DiskOf, Readable, Parses;
  }

  /** When the files hold nothing new, the labels of an unsettled block are a matter of arrangement: the
      same blocks can be arranged so that one scan meets the block first and another its parent. */
  lemma RelinkOrderMatters(s: Start, pow: Proof, arr: Arrangement, hashOf: HashOf, h: Hash)
    returns (arr1: Arrangement, arr2: Arrangement)
    requires GoodArrangement(arr, hashOf) && |arr| < 256 && CatalogOfBlocks(BlocksOf(arr), hashOf, s.recs)
    requires Quiet(s) && h in s.table && !Settled(s, pow, h)
    ensures GoodArrangement(arr1, hashOf) && GoodArrangement(arr2, hashOf)
    ensures BlocksOf(arr1) == BlocksOf(arr) && BlocksOf(arr2) == BlocksOf(arr)
    ensures OrderTold(s, pow, arr1, arr2, hashOf, h)
    ensures var rs1, rs2 := ScanReports(DiskOf(arr1), hashOf), ScanReports(DiskOf(arr2), hashOf);
            && Covers(s, rs1) && Covers(s, rs2)
            && LabelsDiffer(s, QuietScanned(s, pow, s.mem, rs1), QuietScanned(s, pow, s.mem, rs2), h)
  {
    hide *;
    UnsettledParts(s, pow, h);
    arr1 := PutFirst(arr, hashOf, s.recs, h);
    arr2 := PutFirst(arr, hashOf, s.recs, s.recs[h].prev);
    ArrangementCovers(s, arr1, hashOf);
    ArrangementCovers(s, arr2, hashOf);
    Told(s, pow, arr1, arr2, hashOf, h);
  }

  lemma ArrangementCovers(s: Start, arr: Arrangement, hashOf: HashOf)
    requires GoodArrangement(arr, hashOf) && CatalogOfBlocks(BlocksOf(arr), hashOf, s.recs)
    ensures Covers(s, ScanReports(DiskOf(arr), hashOf))
  {
    hide *;
    ArrangementCatalog(arr, hashOf, s.recs);
    ArrangementReadable(arr, hashOf);
    PassCovers(s, DiskOf(arr), hashOf);
  }

  lemma Told(s: Start, pow: Proof, arr1: Arrangement, arr2: Arrangement, hashOf: HashOf, h: Hash)
    requires Quiet(s) && h in s.table && !Settled(s, pow, h) && h in s.recs
    requires FirstMet(arr1, hashOf, h) && FirstMet(arr2, hashOf, s.recs[h].prev)
    requires Covers(s, ScanReports(DiskOf(arr1), hashOf)) && Covers(s, ScanReports(DiskOf(arr2), hashOf))
    ensures OrderTold(s, pow, arr1, arr2, hashOf, h)
    ensures LabelsDiffer(s, QuietScanned(s, pow, s.mem, ScanReports(DiskOf(arr1), hashOf)),
                            QuietScanned(s, pow, s.mem, ScanReports(DiskOf(arr2), hashOf)), h)
  {
    hide Quiet, Covers, Settled, QuietScanned, DiskOf, ScanReports;
    UnsettledDiffers(s, pow, ScanReports(DiskOf(arr1), hashOf), ScanReports(DiskOf(arr2), hashOf), h);
  }
}
