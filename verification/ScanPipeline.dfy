/** The second half of scan_block_files_mark_data: orphan links are re-read from disk, and heights, work
    and counts recomputed from genesis. What the whole scan leaves is stated in terms of the index it
    started from and of what the files say. */
module ScanPipeline {
  import opened Bytes
  import opened Ancestry
  import opened BlockIndexModel
  import opened Common
  import opened BlockFileScan
  import opened GenesisRecompute
  import opened Propagation
  import opened HeightWalk
  import opened ScanEntries

  /** Entries in the order the block map yields them: any order, each once. */
  method MapOrder(table: map<Hash, Ptr>) returns (order: seq<Ptr>)
    ensures NoDup(order) && Elems(order) == Entries(table)
  {
    order := SortPointers(Entries(table));
  }

  /** The entry still lacks a parent after the blocks have been met, at height 0 and with a file
      number: on disk because no block with its parent's hash is known, otherwise as it was. */
  predicate Waits(s: Start, h: Hash) {
    if h in s.recs then OldLink(s, h) == 0 && OldHeight(s, h) == 0 && s.recs[h].prev !in Known(s)
    else Had(s, h) && Old(s, h).pprev == 0 && Old(s, h).height == 0 && Old(s, h).file >= 0
  }

  /** The orphan pass runs: a block was new, and some entry waits for a parent. */
  ghost predicate OrphanPass(s: Start) {
    !(s.recs.Keys <= s.table.Keys) && exists h :: h in Known(s) && Waits(s, h)
  }

  /** The 32 bytes that lie where a header at this place would carry its parent's hash, if the file
      reaches that far. */
  function BytesAt(disk: Disk, file: int, pos: nat): Option<Hash> {
    if 0 <= file < |disk| && pos + 36 <= |disk[file]| then Some(disk[file][pos + 4..pos + 36]) else None
  }

  /** An entry without a parent, other than genesis, that claims a place in the numbered files at which
      no block of its own is found. */
  predicate Stale(s: Start, h: Hash) {
    && h != s.gh && h !in s.recs && Had(s, h) && Old(s, h).pprev == 0
    && Old(s, h).dataPos != 0 && 0 <= Old(s, h).file < 256
  }

  /** The parent the bytes at a stale place name, if it is known. */
  function StalePrev(s: Start, disk: Disk, h: Hash): Option<Hash>
    requires Stale(s, h)
  {
    var prev := BytesAt(disk, Old(s, h).file, Old(s, h).dataPos);
    if prev.Some? && prev.value in Known(s) then prev else None
  }

  /** The parent the orphan pass finds for a block that came without one: the one its header names, or
      for a stale place whatever the bytes there name. */
  function DiskPrev(s: Start, disk: Disk, h: Hash): Option<Hash> {
    if h == s.gh || OldLink(s, h) != 0 then None
    else if h in s.recs then if s.recs[h].prev in Known(s) then Some(s.recs[h].prev) else None
    else if Stale(s, h) then StalePrev(s, disk, h)
    else None
  }

  /** The parent a block is linked to in the end. A link it had stays, even one that leaves the index;
      a block on disk at height 0 without a link gets the one its header names, if that is known; and
      the orphan pass, if it runs, gives the others what it finds. */
  ghost function LinkHash(s: Start, disk: Disk, h: Hash): Option<Hash> {
    if OldLink(s, h) != 0 then
      var q := OldLink(s, h);
      if q in s.mem && s.mem[q].hash in s.table && s.table[s.mem[q].hash] == q then Some(s.mem[q].hash) else None
    else if h in s.recs && s.recs[h].prev in Known(s) && OldHeight(s, h) == 0 then Some(s.recs[h].prev)
    else if OrphanPass(s) then DiskPrev(s, disk, h)
    else None
  }

  /** The records of all linked blocks, of the index and of the files together. */
  ghost function Joined(s: Start, disk: Disk): Catalog {
    map h | h in Known(s) && (h == s.gh || LinkHash(s, disk, h).Some?) ::
      Record(if LinkHash(s, disk, h).Some? then LinkHash(s, disk, h).value else [], Bits(s, h), Txs(s, h))
  }

  /** The count genesis starts from: the one it has, else its transactions. */
  function GenesisCount(s: Start): Count {
    if Had(s, s.gh) && Old(s, s.gh).chainTx != 0 then Old(s, s.gh).chainTx
    else if Txs(s, s.gh) > 0 then Txs(s, s.gh) else 1
  }

  /** Genesis is linked to no block, or has work of its own. */
  ghost predicate Firm(s: Start, pow: Proof) {
    || pow(Bits(s, s.gh)) != 0
    || (OldLink(s, s.gh) == 0 && (s.gh in s.recs && OldHeight(s, s.gh) == 0 ==> s.recs[s.gh].prev !in Known(s)))
  }

  /** An entry during the orphan pass. */
  ghost predicate ResolveOk(s: Start, table: map<Hash, Ptr>, disk: Disk, h: Hash, n: Node) {
    && n.hash == h && n.bits == Bits(s, h) && n.nTx == Txs(s, h)
    && (OldLink(s, h) != 0 ==> n.pprev == OldLink(s, h))
    && if h == s.gh then Had(s, h) && n.chainTx == Old(s, h).chainTx && (n.pprev == 0 || OldLink(s, h) != 0 ||
                           (h in s.recs && OldHeight(s, h) == 0 && s.recs[h].prev in table))
       else
         && (if h in s.recs then OnDisk(disk, n.file, n.dataPos, s.recs[h].prev)
             else Had(s, h) && n.file == Old(s, h).file && n.dataPos == Old(s, h).dataPos)
         && (OldLink(s, h) == 0 && n.pprev != 0 ==> LinkedTo(table, DiskPrev(s, disk, h), n.pprev))
  }

  predicate LinkedTo(table: map<Hash, Ptr>, prev: Option<Hash>, pprev: Ptr) {
    prev.Some? && prev.value in table && pprev == table[prev.value]
  }

  ghost predicate Resolving(s: Start, mem: Memory, table: map<Hash, Ptr>, disk: Disk) {
    && Extends(s, mem, table, s.recs.Keys)
    && forall h :: h in table ==> ResolveOk(s, table, disk, h, mem[table[h]])
  }

  lemma ScannedResolving(s: Start, mem: Memory, table: map<Hash, Ptr>, disk: Disk)
    requires Scanned(s, mem, table, disk, s.recs.Keys, s.recs.Keys) && OrphanPass(s)
    ensures Resolving(s, mem, table, disk)
  {
    hide OnDisk, OrphanPass;
    forall h | h in table ensures ResolveOk(s, table, disk, h, mem[table[h]]) {
      assert EntryOk(s, table, disk, s.recs.Keys, s.recs.Keys, h, mem[table[h]]);
    }
  }

  /** A block for which the orphan pass can find a parent is not linked to it yet. */
  ghost predicate Unlinked(s: Start, mem: Memory, table: map<Hash, Ptr>, disk: Disk, h: Hash)
    requires h in table && table[h] in mem
  {
    DiskPrev(s, disk, h).Some? && mem[table[h]].pprev == 0
  }

  /** An orphan of the file gets the parent named at its place there, if that is indexed. */
  function LinkFromDisk(mem: Memory, table: map<Hash, Ptr>, disk: Disk, gh: Hash, file: nat, p: Ptr): Node
    requires p in mem
  {
    var n := mem[p];
    if n.pprev != 0 || n.file != file || n.dataPos == 0 || n.hash == gh then n
    else
      var prev := BytesAt(disk, file, n.dataPos);
      if prev.Some? && prev.value in table then n.(pprev := table[prev.value]) else n
  }

  /** One step of the link pass: only the parent of p may change, and p stays unlinked only if
      its block lies in another file. */
  ghost predicate LinkStep(s: Start, m: Memory, m1: Memory, table: map<Hash, Ptr>, disk: Disk, file: nat, p: Ptr)
    requires forall h :: h in table ==> table[h] in m && table[h] in m1
  {
    && p in m && m1.Keys == m.Keys && (forall q :: q in m ==> m1[q] == m[q].(pprev := m1[q].pprev))
    && forall h :: h in table && Unlinked(s, m1, table, disk, h) ==>
         Unlinked(s, m, table, disk, h) && (table[h] == p ==> m[p].file != file)
  }

  /** What the link pass makes of one entry is fine. */
  lemma LinkedOk(s: Start, mem: Memory, table: map<Hash, Ptr>, disk: Disk, file: nat, h: Hash)
    requires Resolving(s, mem, table, disk) && h in table && file < 256
    ensures var n := LinkFromDisk(mem, table, disk, s.gh, file, table[h]);
            ResolveOk(s, table, disk, h, n) && (n.pprev == 0 || n.pprev in mem) && n == mem[table[h]].(pprev := n.pprev)
  {
    assert ResolveOk(s, table, disk, h, mem[table[h]]);
  }

  lemma LinkFromDiskOk(s: Start, mem: Memory, table: map<Hash, Ptr>, disk: Disk, file: nat, p: Ptr)
    requires Resolving(s, mem, table, disk) && p in Entries(table) && file < 256
    ensures Resolving(s, mem[p := LinkFromDisk(mem, table, disk, s.gh, file, p)], table, disk)
  {
    hide LinkFromDisk, ResolveOk;
    var h :| h in table && table[h] == p;
    var n := LinkFromDisk(mem, table, disk, s.gh, file, p);
    LinkedOk(s, mem, table, disk, file, h);
    ResolveHash(s, table, disk, h, n);
    assert forall k :: k in table && k != h ==> table[k] != p;
    assert table[h := p] == table;
    ExtendsMem(s, mem, table, h, n);
  }

  lemma ResolveHash(s: Start, table: map<Hash, Ptr>, disk: Disk, h: Hash, n: Node)
    requires ResolveOk(s, table, disk, h, n)
    ensures n.hash == h
  {
  }

  lemma ExtendsMem(s: Start, mem: Memory, table: map<Hash, Ptr>, h: Hash, n: Node)
    requires Extends(s, mem, table, s.recs.Keys) && h in table && n.hash == h && (n.pprev == 0 || n.pprev in mem)
    ensures Extends(s, mem[table[h] := n], table, s.recs.Keys)
  {
    assert forall k :: k in table && k != h ==> table[k] != table[h];
  }

  lemma LinkFromDiskLinks(s: Start, mem: Memory, table: map<Hash, Ptr>, disk: Disk, file: nat, p: Ptr)
    requires Resolving(s, mem, table, disk) && p in Entries(table) && file < 256
    ensures LinkStep(s, mem, mem[p := LinkFromDisk(mem, table, disk, s.gh, file, p)], table, disk, file, p)
  {
    hide ResolveOk, LinkFromDisk, LinkStep, DiskPrev;
    var h :| h in table && table[h] == p;
    LinkedOk(s, mem, table, disk, file, h);
    if DiskPrev(s, disk, h).Some? && LinkFromDisk(mem, table, disk, s.gh, file, p).pprev == 0 {
      LeftUnlinked(s, mem, table, disk, file, h);
    }
    OneLinked(s, mem, table, disk, file, h, LinkFromDisk(mem, table, disk, s.gh, file, p));
  }

  lemma OneLinked(s: Start, m: Memory, table: map<Hash, Ptr>, disk: Disk, file: nat, h: Hash, n: Node)
    requires ValidIndex(m, table) && h in table && n == m[table[h]].(pprev := n.pprev)
    requires DiskPrev(s, disk, h).Some? && n.pprev == 0 ==> m[table[h]].pprev == 0 && m[table[h]].file != file
    ensures LinkStep(s, m, m[table[h] := n], table, disk, file, table[h])
  {
    hide DiskPrev;
    var p, m1 := table[h], m[table[h] := n];
    forall k | k in table && Unlinked(s, m1, table, disk, k)
      ensures Unlinked(s, m, table, disk, k) && (table[k] == p ==> m[p].file != file)
    {
      assert k != h ==> table[k] != p;
    }
  }

  /** A block that the pass over a file leaves unlinked was unlinked and claims another place. */
  lemma LeftUnlinked(s: Start, mem: Memory, table: map<Hash, Ptr>, disk: Disk, file: nat, h: Hash)
    requires Resolving(s, mem, table, disk) && h in table && DiskPrev(s, disk, h).Some?
    requires LinkFromDisk(mem, table, disk, s.gh, file, table[h]).pprev == 0
    ensures mem[table[h]].pprev == 0 && mem[table[h]].file != file
  {
    assert ResolveOk(s, table, disk, h, mem[table[h]]);
    assert table.Keys == Known(s);
  }

  /** The link pass has been over the entries of done: those of the file are no longer unlinked. */
  ghost predicate FileLinked(s: Start, m0: Memory, m: Memory, table: map<Hash, Ptr>, disk: Disk, file: nat, done: set<Ptr>)
    requires forall h :: h in table ==> table[h] in m0 && table[h] in m
  {
    && m.Keys == m0.Keys && (forall q :: q in m0 ==> m[q] == m0[q].(pprev := m[q].pprev))
    && forall h :: h in table && Unlinked(s, m, table, disk, h) ==>
         Unlinked(s, m0, table, disk, h) && (table[h] in done ==> m0[table[h]].file != file)
  }

  lemma FileLinkedStep(s: Start, m0: Memory, m: Memory, m1: Memory, table: map<Hash, Ptr>, disk: Disk, file: nat,
                       done: set<Ptr>, p: Ptr)
    requires forall h :: h in table ==> table[h] in m0 && table[h] in m && table[h] in m1
    requires FileLinked(s, m0, m, table, disk, file, done) && LinkStep(s, m, m1, table, disk, file, p)
    ensures FileLinked(s, m0, m1, table, disk, file, done + {p})
  {
    hide Unlinked;
  }

  /** The entries without a parent before that have one now. */
  ghost function NewlyLinked(m0: Memory, m: Memory): set<Ptr> {
    set q | q in m0 && q in m && m0[q].pprev == 0 && m[q].pprev != 0
  }

  /** No link is lost. */
  ghost predicate LinksKept(m0: Memory, m: Memory) {
    m.Keys == m0.Keys && forall q :: q in m0 && m0[q].pprev != 0 ==> m[q].pprev == m0[q].pprev
  }

  lemma OneMoreLinked(m0: Memory, m: Memory, table: map<Hash, Ptr>, disk: Disk, gh: Hash, file: nat, p: Ptr)
    requires LinksKept(m0, m) && p in m && ValidIndex(m, table)
    ensures var n := LinkFromDisk(m, table, disk, gh, file, p);
            && LinksKept(m0, m[p := n])
            && |NewlyLinked(m0, m[p := n])| == |NewlyLinked(m0, m)| + if n != m[p] then 1 else 0
  {
    var n := LinkFromDisk(m, table, disk, gh, file, p);
    if n != m[p] {
      assert NewlyLinked(m0, m[p := n]) == NewlyLinked(m0, m) + {p};
      assert p !in NewlyLinked(m0, m);
    } else {
      assert m[p := n] == m;
    }
  }

  lemma NoneLinked(m: Memory)
    ensures LinksKept(m, m) && NewlyLinked(m, m) == {}
  {
  }

  lemma LinkedInTurn(m0: Memory, m1: Memory, m2: Memory)
    requires LinksKept(m0, m1) && LinksKept(m1, m2)
    ensures LinksKept(m0, m2) && |NewlyLinked(m0, m2)| == |NewlyLinked(m0, m1)| + |NewlyLinked(m1, m2)|
  {
    assert NewlyLinked(m0, m2) == NewlyLinked(m0, m1) + NewlyLinked(m1, m2);
    assert NewlyLinked(m0, m1) !! NewlyLinked(m1, m2);
  }

  /** The link pass of resolve_orphan_pprev_from_disk over one file. */
  method ResolveFile(idx: BlockIndex, disk: Disk, gh: Hash, file: nat, order: seq<Ptr>, ghost s: Start)
    returns (resolved: nat)
    requires Resolving(s, idx.mem, idx.table, disk) && gh == s.gh && Elems(order) == Entries(idx.table) && file < 256
    modifies idx`mem
    ensures Resolving(s, idx.mem, idx.table, disk) && idx.mem.Keys == old(idx.mem.Keys)
    ensures FileLinked(s, old(idx.mem), idx.mem, idx.table, disk, file, Entries(idx.table))
    ensures LinksKept(old(idx.mem), idx.mem) && resolved == |NewlyLinked(old(idx.mem), idx.mem)|
  {
    hide ResolveOk, Unlinked, LinkStep, LinkFromDisk, FileLinked, Resolving, LinksKept, NewlyLinked;
    resolved := 0;
    ghost var m0 := idx.mem;
    NoneLinked(m0);
    ResolvingValid(s, m0, idx.table, disk);
    NothingLinked(s, m0, idx.table, disk, file);
    assert Elems(order[..0]) == {};
    for i := 0 to |order|
      invariant Resolving(s, idx.mem, idx.table, disk) && idx.mem.Keys == m0.Keys
      invariant FileLinked(s, m0, idx.mem, idx.table, disk, file, Elems(order[..i]))
      invariant LinksKept(m0, idx.mem) && resolved == |NewlyLinked(m0, idx.mem)|
    {
      var p := order[i];
      assert p in Elems(order);
      ResolvingValid(s, idx.mem, idx.table, disk);
      EntriesIndexed(idx.mem, idx.table);
      var n := LinkFromDisk(idx.mem, idx.table, disk, gh, file, p);
      OneMoreLinked(m0, idx.mem, idx.table, disk, gh, file, p);
      LinkFromDiskOk(s, idx.mem, idx.table, disk, file, p);
      LinkFromDiskLinks(s, idx.mem, idx.table, disk, file, p);
      FileLinkedStep(s, m0, idx.mem, idx.mem[p := n], idx.table, disk, file, Elems(order[..i]), p);
      assert order[..i + 1] == order[..i] + [p];
      ElemsPush(order[..i], p);
      if n != idx.mem[p] {
        resolved := resolved + 1;
      }
      idx.mem := idx.mem[p := n];
    }
    assert order[..|order|] == order;
  }

  lemma ResolvingValid(s: Start, mem: Memory, table: map<Hash, Ptr>, disk: Disk)
    requires Resolving(s, mem, table, disk)
    ensures ValidIndex(mem, table) && table.Keys == Known(s)
  {
    hide ResolveOk;
  }

  lemma NothingLinked(s: Start, m: Memory, table: map<Hash, Ptr>, disk: Disk, file: nat)
    requires forall h :: h in table ==> table[h] in m
    ensures FileLinked(s, m, m, table, disk, file, {})
  {
    hide Unlinked;
  }

  /** The link pass over all file numbers. */
  method ResolveLinks(idx: BlockIndex, disk: Disk, gh: Hash, ghost s: Start) returns (resolved: nat)
    requires Readable(disk) && Resolving(s, idx.mem, idx.table, disk) && gh == s.gh
    modifies idx`mem
    ensures Resolving(s, idx.mem, idx.table, disk) && ValidIndex(idx.mem, idx.table)
    ensures forall h :: h in idx.table ==> !Unlinked(s, idx.mem, idx.table, disk, h)
    ensures LinksKept(old(idx.mem), idx.mem) && resolved == |NewlyLinked(old(idx.mem), idx.mem)|
  {
    hide ResolveOk, Resolving, DiskPrev, LinksKept, NewlyLinked;
    resolved := 0;
    ghost var m0 := idx.mem;
    NoneLinked(m0);
    var order := MapOrder(idx.table);
    ResolvingValid(s, idx.mem, idx.table, disk);
    PlacesFit(s, idx.mem, idx.table, disk);
    for file := 0 to 256
      invariant Resolving(s, idx.mem, idx.table, disk) && ValidIndex(idx.mem, idx.table)
      invariant LinksKept(m0, idx.mem) && resolved == |NewlyLinked(m0, idx.mem)|
      invariant forall h :: h in idx.table && Unlinked(s, idx.mem, idx.table, disk, h) ==> idx.mem[idx.table[h]].file >= file
    {
      ghost var m1 := idx.mem;
      var r := ResolveFile(idx, disk, gh, file, order, s);
      LinkedInTurn(m0, m1, idx.mem);
      ResolvingValid(s, idx.mem, idx.table, disk);
      resolved := resolved + r;
    }
    PlacesFit(s, idx.mem, idx.table, disk);
  }

  /** A block for which a parent can be found claims a place in one of the numbered files. */
  lemma PlacesFit(s: Start, mem: Memory, table: map<Hash, Ptr>, disk: Disk)
    requires Readable(disk) && Resolving(s, mem, table, disk)
    ensures forall h :: h in table && table[h] in mem && Unlinked(s, mem, table, disk, h) ==> 0 <= mem[table[h]].file < 256
  {
    hide ResolveOk, DiskPrev;
    forall h | h in table && table[h] in mem && Unlinked(s, mem, table, disk, h) ensures 0 <= mem[table[h]].file < 256 {
      FoundFile(s, table, disk, h, mem[table[h]]);
    }
  }

  lemma FoundFile(s: Start, table: map<Hash, Ptr>, disk: Disk, h: Hash, n: Node)
    requires Readable(disk) && ResolveOk(s, table, disk, h, n) && DiskPrev(s, disk, h).Some?
    ensures 0 <= n.file < 256
  {
  }

  /** The entries counted before orphans are resolved: no parent, height 0, file number set. */
  predicate LooksOrphan(n: Node) {
    n.pprev == 0 && n.height == 0 && n.file >= 0
  }

  ghost function Orphans(mem: Memory, es: set<Ptr>): set<Ptr> {
    set p | p in es && p in mem && LooksOrphan(mem[p])
  }

  method CountOrphans(mem: Memory, table: map<Hash, Ptr>) returns (count: nat)
    requires ValidIndex(mem, table)
    ensures count == |Orphans(mem, Entries(table))|
    ensures count == 0 <==> forall h :: h in table ==> !LooksOrphan(mem[table[h]])
  {
    hide LooksOrphan;
    count := 0;
    var order := MapOrder(table);
    assert forall i :: 0 <= i < |order| ==> order[i] in Elems(order);
    EntriesIndexed(mem, table);
    assert Orphans(mem, Elems(order[..0])) == {};
    for i := 0 to |order|
      invariant count == |Orphans(mem, Elems(order[..i]))|
    {
      OrphanStep(mem, order, i);
      if LooksOrphan(mem[order[i]]) {
        count := count + 1;
      }
    }
    assert order[..|order|] == order;
    OrphansIn(mem, table);
  }

  lemma OrphanStep(mem: Memory, order: seq<Ptr>, i: nat)
    requires NoDup(order) && i < |order| && order[i] in mem
    ensures |Orphans(mem, Elems(order[..i + 1]))| ==
              |Orphans(mem, Elems(order[..i]))| + if LooksOrphan(mem[order[i]]) then 1 else 0
  {
    hide LooksOrphan;
    PrefixElems(order, i);
    assert order[i] !in Elems(order[..i]);
    if LooksOrphan(mem[order[i]]) {
      assert Orphans(mem, Elems(order[..i + 1])) == Orphans(mem, Elems(order[..i])) + {order[i]};
    } else {
      assert Orphans(mem, Elems(order[..i + 1])) == Orphans(mem, Elems(order[..i]));
    }
  }

  lemma OrphansIn(mem: Memory, table: map<Hash, Ptr>)
    requires ValidIndex(mem, table)
    ensures |Orphans(mem, Entries(table))| == 0 <==> forall h :: h in table ==> !LooksOrphan(mem[table[h]])
  {
    hide LooksOrphan;
    if forall h :: h in table ==> !LooksOrphan(mem[table[h]]) {
      assert Orphans(mem, Entries(table)) == {};
    } else {
      var h :| h in table && LooksOrphan(mem[table[h]]);
      assert table[h] in Orphans(mem, Entries(table));
    }
  }

  /** The entries counted are exactly those that wait for a parent. */
  lemma OrphansWait(s: Start, mem: Memory, table: map<Hash, Ptr>, disk: Disk, h: Hash)
    requires Scanned(s, mem, table, disk, s.recs.Keys, s.recs.Keys) && h in table
    ensures LooksOrphan(mem[table[h]]) <==> Waits(s, h)
  {
    assert EntryOk(s, table, disk, s.recs.Keys, s.recs.Keys, h, mem[table[h]]);
  }

  /** The index holds the blocks of the catalog as it describes them, linked as it says; the other
      entries lead nowhere. genesisTx is the count genesis starts from. */
  ghost predicate Structured(mem: Memory, table: map<Hash, Ptr>, cat: Catalog, gh: Hash, genesisTx: Count) {
    && ValidIndex(mem, table) && gh in cat && cat.Keys <= table.Keys && GenesisTx(mem[table[gh]]) == genesisTx
    && (forall h :: h in cat ==> mem[table[h]].bits == cat[h].bits && mem[table[h]].nTx == cat[h].nTx)
    && forall h :: h in table && h != gh ==> LinkedAs(table, cat, h, mem[table[h]].pprev)
  }

  ghost predicate LinkedAs(table: map<Hash, Ptr>, cat: Catalog, h: Hash, pprev: Ptr) {
    if h in cat then cat[h].prev in table && pprev == table[cat[h].prev] else pprev == 0 || pprev !in Entries(table)
  }

  /** A link the index came with is the one the joined records name, or leads out of the index. */
  lemma OldLinked(s: Start, mem: Memory, table: map<Hash, Ptr>, disk: Disk, h: Hash)
    requires Extends(s, mem, table, s.recs.Keys) && h in table && OldLink(s, h) != 0 && h != s.gh
    ensures LinkedAs(table, Joined(s, disk), h, OldLink(s, h))
  {
    hide OrphanPass;
    var q := OldLink(s, h);
    if LinkHash(s, disk, h).None? {
      forall x | x in table ensures table[x] != q {
        if x in s.table {
          assert s.mem[s.table[x]].hash == x;
        }
      }
    }
  }

  lemma ResolvedStructured(s: Start, mem: Memory, table: map<Hash, Ptr>, disk: Disk)
    requires Resolving(s, mem, table, disk) && OrphanPass(s)
    requires forall h :: h in table ==> table[h] in mem && !Unlinked(s, mem, table, disk, h)
    ensures Structured(mem, table, Joined(s, disk), s.gh, GenesisCount(s))
  {
    hide OnDisk, OrphanPass;
    forall h | h in table && h != s.gh ensures LinkedAs(table, Joined(s, disk), h, mem[table[h]].pprev) {
      assert ResolveOk(s, table, disk, h, mem[table[h]]);
      assert !Unlinked(s, mem, table, disk, h);
      if OldLink(s, h) != 0 {
        OldLinked(s, mem, table, disk, h);
      }
    }
    assert ResolveOk(s, table, disk, s.gh, mem[table[s.gh]]);
  }

  lemma ScannedLinked(s: Start, mem: Memory, table: map<Hash, Ptr>, disk: Disk, h: Hash)
    requires Extends(s, mem, table, s.recs.Keys) && !OrphanPass(s) && h in table && h != s.gh
    requires EntryOk(s, table, disk, s.recs.Keys, s.recs.Keys, h, mem[table[h]])
    ensures LinkedAs(table, Joined(s, disk), h, mem[table[h]].pprev)
  {
    hide OnDisk, OrphanPass, DiskPrev;
    if OldLink(s, h) != 0 {
      OldLinked(s, mem, table, disk, h);
    }
  }

  /** Without an orphan pass the links the blocks got when they were met are all they get. */
  lemma ScannedStructured(s: Start, mem: Memory, table: map<Hash, Ptr>, disk: Disk)
    requires Scanned(s, mem, table, disk, s.recs.Keys, s.recs.Keys) && !OrphanPass(s)
    ensures Structured(mem, table, Joined(s, disk), s.gh, GenesisCount(s))
  {
    hide OnDisk, OrphanPass, LinkHash, LinkedAs, LinkOk;
    forall h | h in table && h != s.gh ensures LinkedAs(table, Joined(s, disk), h, mem[table[h]].pprev) {
      ScannedLinked(s, mem, table, disk, h);
    }
    forall h | h in Joined(s, disk) ensures mem[table[h]].bits == Bits(s, h) && mem[table[h]].nTx == Txs(s, h) {
      assert EntryOk(s, table, disk, s.recs.Keys, s.recs.Keys, h, mem[table[h]]);
    }
    assert EntryOk(s, table, disk, s.recs.Keys, s.recs.Keys, s.gh, mem[table[s.gh]]);
  }

  lemma SameLinksStructured(m: Memory, m': Memory, table: map<Hash, Ptr>, cat: Catalog, gh: Hash, genesisTx: Count)
    requires Structured(m, table, cat, gh, genesisTx) && SameLinks(m, m')
    ensures Structured(m', table, cat, gh, genesisTx)
  {
    assert forall p :: p in m ==> m'[p] == m[p].(height := m'[p].height, work := m'[p].work);
  }

  /** Genesis with a parent has work of its own. */
  lemma ScannedFirm(s: Start, mem: Memory, table: map<Hash, Ptr>, disk: Disk, pow: Proof)
    requires Scanned(s, mem, table, disk, s.recs.Keys, s.recs.Keys) && Firm(s, pow)
    ensures s.gh in table && table[s.gh] in mem && FirmGenesis(mem, pow, table[s.gh])
  {
    hide OnDisk;
    assert EntryOk(s, table, disk, s.recs.Keys, s.recs.Keys, s.gh, mem[table[s.gh]]);
  }

  lemma ResolvedFirm(s: Start, mem: Memory, table: map<Hash, Ptr>, disk: Disk, pow: Proof)
    requires Resolving(s, mem, table, disk) && Firm(s, pow)
    ensures s.gh in table && table[s.gh] in mem && FirmGenesis(mem, pow, table[s.gh])
  {
    assert ResolveOk(s, table, disk, s.gh, mem[table[s.gh]]);
  }

  /** resolve_orphan_pprev_from_disk: links, then the height repair. */
  method ResolveOrphans(idx: BlockIndex, disk: Disk, gh: Hash, ghost s: Start) returns (resolved: nat)
    requires Readable(disk) && Resolving(s, idx.mem, idx.table, disk) && OrphanPass(s) && gh == s.gh
    modifies idx`mem
    ensures ValidIndex(idx.mem, idx.table)
    ensures Structured(idx.mem, idx.table, Joined(s, disk), s.gh, GenesisCount(s))
    ensures Firm(s, idx.pow) ==> gh in idx.table && FirmGenesis(idx.mem, idx.pow, idx.table[gh])
    ensures resolved == |NewlyLinked(old(idx.mem), idx.mem)|
  {
    hide NewlyLinked, Resolving, Structured, RepairTo, Unlinked, Firm, OrphanPass, Joined;
    resolved := ResolveLinks(idx, disk, gh, s);
    ResolvedStructured(s, idx.mem, idx.table, disk);
    if Firm(s, idx.pow) {
      ResolvedFirm(s, idx.mem, idx.table, disk, idx.pow);
    }
    EntriesIndexed(idx.mem, idx.table);
    var order := MapOrder(idx.table);
    assert AllIn(order, idx.mem) by {
      forall i | 0 <= i < |order| ensures order[i] in idx.mem {
        assert order[i] in Elems(order);
      }
    }
    ghost var m := idx.mem;
    var fixed := RepairHeights(idx, order);
    SameLinksValid(m, idx.mem, idx.table);
    SameLinksStructured(m, idx.mem, idx.table, Joined(s, disk), s.gh, GenesisCount(s));
    SameNewlyLinked(old(idx.mem), m, idx.mem);
  }

  lemma SameNewlyLinked(m0: Memory, m: Memory, m': Memory)
    requires SameLinks(m, m')
    ensures NewlyLinked(m0, m') == NewlyLinked(m0, m)
  {
    forall q | q in m ensures m'[q].pprev == m[q].pprev {
      SameLinksAt(m, m', q);
    }
  }

  lemma SameLinksValid(m: Memory, m': Memory, table: map<Hash, Ptr>)
    requires ValidIndex(m, table) && SameLinks(m, m')
    ensures ValidIndex(m', table)
  {
    assert forall p :: p in m ==> m'[p] == m[p].(height := m'[p].height, work := m'[p].work);
  }

  /** Following the links of the catalog from h meets genesis after k steps. */
  ghost predicate Leads(cat: Catalog, gh: Hash, h: Hash, k: nat)
    decreases k
  {
    if k == 0 then h == gh else h != gh && h in cat && Leads(cat, gh, cat[h].prev, k - 1)
  }

  /** The proofs of the k blocks from h upwards, from the records alone. */
  ghost function HashProofs(cat: Catalog, pow: Proof, h: Hash, k: nat): nat
    decreases k
  {
    if k == 0 || h !in cat then 0 else pow(cat[h].bits) + HashProofs(cat, pow, cat[h].prev, k - 1)
  }

  /** The transactions of the k blocks from h upwards, at least one each. */
  ghost function HashTxs(cat: Catalog, h: Hash, k: nat): nat
    decreases k
  {
    if k == 0 || h !in cat then 0
    else (if cat[h].nTx > 0 then cat[h].nTx else 1) + HashTxs(cat, cat[h].prev, k - 1)
  }

  /** Cumulative work of a block k links above genesis: the sum of its proofs, genesis included. */
  ghost function HashWork(cat: Catalog, pow: Proof, gh: Hash, h: Hash, k: nat): Work
    requires gh in cat && Leads(cat, gh, h, k)
  {
    HashProofs(cat, pow, h, k + 1) % WORK_MODULUS
  }

  /** Cumulative transactions of such a block, on top of the count genesis starts from. */
  ghost function HashTx(cat: Catalog, genesisTx: Count, gh: Hash, h: Hash, k: nat): Count
    requires Leads(cat, gh, h, k)
  {
    (genesisTx + HashTxs(cat, h, k)) % 0x1_0000_0000
  }

  lemma HashStart(cat: Catalog, pow: Proof, gh: Hash, genesisTx: Count)
    requires gh in cat
    ensures Leads(cat, gh, gh, 0)
    ensures HashWork(cat, pow, gh, gh, 0) == pow(cat[gh].bits) && HashTx(cat, genesisTx, gh, gh, 0) == genesisTx
  {
    assert HashProofs(cat, pow, cat[gh].prev, 0) == 0;
  }

  /** One link further the sums grow by one block. */
  lemma HashStep(cat: Catalog, pow: Proof, gh: Hash, genesisTx: Count, h: Hash, k: nat)
    requires gh in cat && k > 0 && Leads(cat, gh, h, k)
    ensures Leads(cat, gh, cat[h].prev, k - 1)
    ensures HashWork(cat, pow, gh, h, k) == Add256(HashWork(cat, pow, gh, cat[h].prev, k - 1), pow(cat[h].bits))
    ensures HashTx(cat, genesisTx, gh, h, k) ==
              Add32(HashTx(cat, genesisTx, gh, cat[h].prev, k - 1), if cat[h].nTx > 0 then cat[h].nTx else 1)
  {
    CutTwice256(HashProofs(cat, pow, cat[h].prev, k), pow(cat[h].bits));
    CutTwice32(genesisTx + HashTxs(cat, cat[h].prev, k - 1), if cat[h].nTx > 0 then cat[h].nTx else 1);
  }

  /** The pointer graph of a structured index is the hash graph of the records. */
  lemma {:induction false} HashLabels(mem: Memory, table: map<Hash, Ptr>, pow: Proof, cat: Catalog, gh: Hash, genesisTx: Count,
                                      h: Hash, k: nat)
    requires Structured(mem, table, cat, gh, genesisTx) && Leads(cat, gh, h, k)
    ensures h in table && gh in table && Entries(table) <= mem.Keys && 0 !in Entries(table)
    ensures var l := LinksOf(mem, Entries(table));
            var g, p := table[gh], table[h];
            && g in l && p in l && Iter(l, g, p, k) == g
            && WorkSum(mem, pow, l, g, p, k) == HashWork(cat, pow, gh, h, k)
            && TxSum(mem, l, g, p, k) == HashTx(cat, genesisTx, gh, h, k)
    decreases k
  {
    hide Add256, Add32, HashWork, HashTx;
    EntriesIndexed(mem, table);
    var es := Entries(table);
    var l := LinksOf(mem, es);
    assert h in table && table[h] in es && table[gh] in es;
    if k == 0 {
      HashStart(cat, pow, gh, genesisTx);
    } else {
      var prev := cat[h].prev;
      HashLabels(mem, table, pow, cat, gh, genesisTx, prev, k - 1);
      HashStep(cat, pow, gh, genesisTx, h, k);
      assert table[h] != table[gh];
      assert LinkedAs(table, cat, h, mem[table[h]].pprev);
      assert Up(l, table[gh], table[h]) == table[prev];
    }
  }

  lemma {:induction false} RootedLeads(mem: Memory, table: map<Hash, Ptr>, cat: Catalog, gh: Hash, genesisTx: Count,
                                       h: Hash, k: nat)
    requires Structured(mem, table, cat, gh, genesisTx) && h in table && Entries(table) <= mem.Keys && 0 !in Entries(table)
    requires Iter(LinksOf(mem, Entries(table)), table[gh], table[h], k) == table[gh]
    ensures Leads(cat, gh, h, k)
    decreases k
  {
    var l := LinksOf(mem, Entries(table));
    var g, p := table[gh], table[h];
    assert g in l && p in l;
    if k > 0 {
      Chained(l, g, p, k);
      assert LinkedAs(table, cat, h, mem[p].pprev);
      RootedLeads(mem, table, cat, gh, genesisTx, cat[h].prev, k - 1);
    } else {
      assert mem[p].hash == h && mem[g].hash == gh;
    }
  }

  /** A block of the catalog other than genesis is linked to h. */
  ghost predicate HasHeir(cat: Catalog, gh: Hash, h: Hash) {
    exists c :: c in cat && c != gh && cat[c].prev == h
  }

  /** No block with a child has a count that wraps to zero, but for heights that wrap to zero too. */
  ghost predicate NoWrap(cat: Catalog, genesisTx: Count, gh: Hash) {
    forall h, k: nat :: Leads(cat, gh, h, k) && HasHeir(cat, gh, h) && k % COUNT_MODULUS != 0 ==>
      HashTx(cat, genesisTx, gh, h, k) != 0
  }

  /** Every block that leads to genesis is indexed and carries its distance and its sums. */
  ghost predicate AllLabelled(mem: Memory, table: map<Hash, Ptr>, pow: Proof, cat: Catalog, gh: Hash, genesisTx: Count)
    requires gh in cat
  {
    forall h, k: nat :: Leads(cat, gh, h, k) ==> LabelledAt(mem, table, pow, cat, gh, genesisTx, h, k)
  }

  /** Every block that leads to genesis is indexed at its distance. */
  ghost predicate AllAtHeight(mem: Memory, table: map<Hash, Ptr>, cat: Catalog, gh: Hash) {
    forall h, k: nat :: Leads(cat, gh, h, k) ==> h in table && table[h] in mem && mem[table[h]].height == k
  }

  /** And has its work. */
  ghost predicate AllWeighed(mem: Memory, table: map<Hash, Ptr>, pow: Proof, cat: Catalog, gh: Hash)
    requires gh in cat
  {
    forall h, k: nat :: Leads(cat, gh, h, k) ==>
      h in table && table[h] in mem && mem[table[h]].height == k && mem[table[h]].work == HashWork(cat, pow, gh, h, k)
  }

  ghost predicate LabelledAt(mem: Memory, table: map<Hash, Ptr>, pow: Proof, cat: Catalog, gh: Hash, genesisTx: Count,
                             h: Hash, k: nat)
    requires gh in cat && Leads(cat, gh, h, k)
  {
    && h in table && table[h] in mem
    && var n := mem[table[h]];
       && n.height == k && n.work == HashWork(cat, pow, gh, h, k)
       && n.chainTx == HashTx(cat, genesisTx, gh, h, k)
  }

  /** The records of a recompute are the labels the catalog determines. */
  lemma RecomputedLabel(m0: Memory, table: map<Hash, Ptr>, pow: Proof, cat: Catalog, gh: Hash, genesisTx: Count, h: Hash, k: nat)
    requires Structured(m0, table, cat, gh, genesisTx) && Leads(cat, gh, h, k)
    ensures h in table && gh in table && Entries(table) <= m0.Keys && 0 !in Entries(table)
    ensures table[h] in Entries(table) && table[gh] in Entries(table)
    ensures Rooted(LinksOf(m0, Entries(table)), table[gh], table[h])
    ensures LabelledAt(Recomputed(m0, pow, Entries(table), table[gh]), table, pow, cat, gh, genesisTx, h, k)
  {
    hide Structured, WorkSum, TxSum, HashWork, HashTx, Leads;
    HashLabels(m0, table, pow, cat, gh, genesisTx, h, k);
    var l := LinksOf(m0, Entries(table));
    DistanceUnique(l, table[gh], table[h], k, Distance(l, table[gh], table[h]));
  }

  /** Carrying the recomputed records and being labelled from the catalog are the same. */
  lemma RerootedIsLabelled(m0: Memory, m: Memory, table: map<Hash, Ptr>, pow: Proof, cat: Catalog, gh: Hash, genesisTx: Count)
    requires Structured(m0, table, cat, gh, genesisTx) && gh in table && Entries(table) <= m0.Keys && 0 !in Entries(table)
    requires table[gh] in Entries(table) && gh in cat
    requires SameShape(Recomputed(m0, pow, Entries(table), table[gh]), m) && LinksAllocated(m0)
    ensures Rerooted(m0, pow, Entries(table), table[gh], m) <==> AllLabelled(m, table, pow, cat, gh, genesisTx)
  {
    hide Structured, Recomputed, Rooted, Leads, SameShape, HashWork, HashTx;
    var es, g := Entries(table), table[gh];
    var r := Recomputed(m0, pow, es, g);
    RecomputedShape(m0, pow, es, g);
    ShapeKeys(r, m, g);
    if Rerooted(m0, pow, es, g, m) {
      forall h, k: nat | Leads(cat, gh, h, k) ensures LabelledAt(m, table, pow, cat, gh, genesisTx, h, k) {
        RecomputedLabel(m0, table, pow, cat, gh, genesisTx, h, k);
        ShapeKeys(r, m, table[h]);
      }
    }
    if AllLabelled(m, table, pow, cat, gh, genesisTx) {
      forall p | p in es && Rooted(LinksOf(m0, es), g, p) ensures m[p] == r[p] {
        var h, k := EntryLeads(m0, table, cat, gh, genesisTx, p);
        RecomputedLabel(m0, table, pow, cat, gh, genesisTx, h, k);
        assert LabelledAt(m, table, pow, cat, gh, genesisTx, h, k);
        ShapeKeys(r, m, p);
      }
    }
  }

  /** What the passes change of a recomputed index is not the heights. */
  lemma HeightsStand(m0: Memory, m: Memory, table: map<Hash, Ptr>, pow: Proof, cat: Catalog, gh: Hash, genesisTx: Count)
    requires Structured(m0, table, cat, gh, genesisTx) && gh in table && Entries(table) <= m0.Keys && 0 !in Entries(table)
    requires table[gh] in Entries(table) && LinksAllocated(m0) && SameShape(Recomputed(m0, pow, Entries(table), table[gh]), m)
    ensures AllAtHeight(m, table, cat, gh)
  {
    hide Structured, Recomputed, Rooted, Leads, SameShape, HashWork, HashTx;
    RecomputedShape(m0, pow, Entries(table), table[gh]);
    forall h, k: nat | Leads(cat, gh, h, k) ensures h in table && table[h] in m && m[table[h]].height == k {
      RecomputedLabel(m0, table, pow, cat, gh, genesisTx, h, k);
      ShapeKeys(Recomputed(m0, pow, Entries(table), table[gh]), m, table[h]);
    }
  }

  /** Nor is it the work, with a firm genesis. */
  lemma WeightsStand(m0: Memory, m: Memory, table: map<Hash, Ptr>, pow: Proof, cat: Catalog, gh: Hash, genesisTx: Count)
    requires Structured(m0, table, cat, gh, genesisTx) && gh in table && Entries(table) <= m0.Keys && 0 !in Entries(table)
    requires table[gh] in Entries(table) && gh in cat && WorkRerooted(m0, pow, Entries(table), table[gh], m)
    ensures AllWeighed(m, table, pow, cat, gh)
  {
    hide Structured, Recomputed, Rooted, Leads, SameShape, HashWork, HashTx;
    RecomputedShape(m0, pow, Entries(table), table[gh]);
    forall h, k: nat | Leads(cat, gh, h, k)
      ensures h in table && table[h] in m && m[table[h]].height == k && m[table[h]].work == HashWork(cat, pow, gh, h, k)
    {
      RecomputedLabel(m0, table, pow, cat, gh, genesisTx, h, k);
      ShapeKeys(Recomputed(m0, pow, Entries(table), table[gh]), m, table[h]);
    }
  }

  lemma ShapeKeys(r: Memory, m: Memory, p: Ptr)
    requires SameShape(r, m) && p in r
    ensures m.Keys == r.Keys && OnlySums(r[p], m[p])
  {
  }

  /** A rooted entry is the entry of a block that leads to genesis. */
  lemma EntryLeads(m0: Memory, table: map<Hash, Ptr>, cat: Catalog, gh: Hash, genesisTx: Count, p: Ptr) returns (h: Hash, k: nat)
    requires Structured(m0, table, cat, gh, genesisTx) && Entries(table) <= m0.Keys && 0 !in Entries(table)
    requires gh in table && p in Entries(table) && Rooted(LinksOf(m0, Entries(table)), table[gh], p)
    ensures h in table && table[h] == p && Leads(cat, gh, h, k)
  {
    hide Structured, Leads;
    h :| h in table && table[h] == p;
    k :| Iter(LinksOf(m0, Entries(table)), table[gh], p, k) == table[gh];
    RootedLeads(m0, table, cat, gh, genesisTx, h, k);
  }

  /** The list the propagation works on holds every entry with a parent. */
  ghost predicate ListsLinked(m0: Memory, es: set<Ptr>, s: seq<Ptr>) {
    Elems(s) <= es && forall p :: p in es && p in m0 && m0[p].pprev != 0 ==> p in Elems(s)
  }

  lemma StarvedWraps(m0: Memory, table: map<Hash, Ptr>, pow: Proof, cat: Catalog, gh: Hash, genesisTx: Count, s: seq<Ptr>, q: Ptr)
    requires Structured(m0, table, cat, gh, genesisTx) && Entries(table) <= m0.Keys && 0 !in Entries(table) && gh in table
    requires table[gh] in Entries(table) && ListsLinked(m0, Entries(table), s)
    requires Starved(m0, pow, Entries(table), table[gh], s, q)
    ensures !NoWrap(cat, genesisTx, gh)
  {
    hide Recomputed, Leads, HashWork, HashTx, Rooted;
    var es, g := Entries(table), table[gh];
    var h, k := EntryLeads(m0, table, cat, gh, genesisTx, q);
    RecomputedLabel(m0, table, pow, cat, gh, genesisTx, h, k);
    StarvedNotGenesis(m0, pow, es, g, s, q);
    LeadsUp(cat, gh, h, k);
    var i :| 0 <= i < |s| && s[i] != g && s[i] in m0 && m0[s[i]].pprev == q;
    assert s[i] in Elems(s);
    var c :| c in table && table[c] == s[i];
    assert LinkedAs(table, cat, c, m0[table[c]].pprev);
    assert cat[c].prev == h;
    assert HasHeir(cat, gh, h);
  }

  lemma LeadsUp(cat: Catalog, gh: Hash, h: Hash, k: nat)
    requires Leads(cat, gh, h, k) && h != gh
    ensures k > 0
  {
  }

  lemma WrapStarves(m0: Memory, table: map<Hash, Ptr>, pow: Proof, cat: Catalog, gh: Hash, genesisTx: Count, s: seq<Ptr>,
                    h: Hash, k: nat)
    requires Structured(m0, table, cat, gh, genesisTx) && Entries(table) <= m0.Keys && 0 !in Entries(table) && gh in table
    requires table[gh] in Entries(table) && ListsLinked(m0, Entries(table), s)
    requires Leads(cat, gh, h, k) && HasHeir(cat, gh, h) && k % COUNT_MODULUS != 0 && HashTx(cat, genesisTx, gh, h, k) == 0
    ensures h in table && Starved(m0, pow, Entries(table), table[gh], s, table[h])
  {
    hide Recomputed, Leads, HashWork, HashTx, Rooted;
    RecomputedLabel(m0, table, pow, cat, gh, genesisTx, h, k);
    var c :| c in cat && c != gh && cat[c].prev == h;
    assert LinkedAs(table, cat, c, m0[table[c]].pprev);
    assert table[c] in Elems(s);
    var i :| 0 <= i < |s| && s[i] == table[c];
  }

  lemma {:induction false} LowestExists(mem: Memory, s: set<Ptr>) returns (m: Ptr)
    requires s != {} && s <= mem.Keys
    ensures m in s && forall q :: q in s ==> mem[m].height <= mem[q].height
    decreases |s|
  {
    m :| m in s;
    var t := s - {m};
    if t != {} {
      var n := LowestExists(mem, t);
      ghost var first := m;
      if mem[n].height < mem[m].height {
        m := n;
      }
      forall q | q in s ensures mem[m].height <= mem[q].height {
        assert q == first || q in t;
      }
    } else {
      assert s == {m};
    }
  }

  /** Sorted so far: what was taken out, none of it above what is left. */
  ghost predicate SortedSoFar(mem: Memory, all: set<Ptr>, sorted: seq<Ptr>, rest: set<Ptr>) {
    && rest <= all <= mem.Keys && Elems(sorted) == all - rest && HeightSorted(mem, sorted)
    && forall p, q :: p in sorted && q in rest ==> mem[p].height <= mem[q].height
  }

  lemma SortHeightStep(mem: Memory, all: set<Ptr>, sorted: seq<Ptr>, rest: set<Ptr>, m: Ptr)
    requires SortedSoFar(mem, all, sorted, rest) && m in rest
    requires forall q :: q in rest ==> q in mem && mem[m].height <= mem[q].height
    ensures SortedSoFar(mem, all, sorted + [m], rest - {m})
  {
    var next := sorted + [m];
    ElemsPush(sorted, m);
    assert m !in Elems(sorted);
    assert forall i :: 0 <= i < |sorted| ==> sorted[i] in sorted;
    forall p, q | p in next && q in rest - {m} ensures mem[p].height <= mem[q].height {
      assert p in sorted || p == m;
    }
  }

  /** qsort by height over the entries with a parent or with data. */
  method SortByHeight(mem: Memory, es: set<Ptr>) returns (sorted: seq<Ptr>)
    requires es <= mem.Keys
    ensures HeightSorted(mem, sorted)
    ensures Elems(sorted) == set p | p in es && (mem[p].pprev != 0 || mem[p].haveData)
  {
    var rest := set p | p in es && (mem[p].pprev != 0 || mem[p].haveData);
    ghost var all := rest;
    sorted := [];
    while rest != {}
      invariant SortedSoFar(mem, all, sorted, rest)
      decreases |rest|
    {
      ghost var lowest := LowestExists(mem, rest);
      var m :| m in rest && forall q :: q in rest ==> mem[m].height <= mem[q].height;
      SortHeightStep(mem, all, sorted, rest, m);
      sorted := sorted + [m];
      rest := rest - {m};
    }
  }

  /** Recompute and propagation over a structured index: every block that leads to genesis carries its
      labels if and only if no count under a child wraps to zero. */
  method Relabel(idx: BlockIndex, gh: Hash, ghost cat: Catalog, ghost genesisTx: Count)
    requires ValidIndex(idx.mem, idx.table) && gh in idx.table && gh in cat
    modifies idx`mem
    ensures Structured(old(idx.mem), idx.table, cat, gh, genesisTx) && FirmGenesis(old(idx.mem), idx.pow, idx.table[gh]) ==>
              (AllLabelled(idx.mem, idx.table, idx.pow, cat, gh, genesisTx) <==> NoWrap(cat, genesisTx, gh))
    ensures Structured(old(idx.mem), idx.table, cat, gh, genesisTx) && FirmGenesis(old(idx.mem), idx.pow, idx.table[gh]) ==>
              AllWeighed(idx.mem, idx.table, idx.pow, cat, gh)
    ensures Structured(old(idx.mem), idx.table, cat, gh, genesisTx) ==> AllAtHeight(idx.mem, idx.table, cat, gh)
  {
    hide Recomputed, NoWrap, AllLabelled, AllAtHeight, AllWeighed, WorkRerooted, Rerooted, RecomputeDone, Passes, Starved, FirmGenesis;
    hide HeightSorted, SameShape, Structured;
    ghost var m0 := idx.mem;
    ghost var es := Entries(idx.table);
    EntriesIndexed(idx.mem, idx.table);
    var changed, st, pushed := RecomputeFromGenesis(idx, gh);
    ghost var g := idx.table[gh];
    RecomputedIs(m0, idx.mem, idx.pow, es, g, st, pushed);
    RecomputedShape(m0, idx.pow, es, g);
    var sorted := SortByHeight(idx.mem, Entries(idx.table));
    SortedLists(m0, idx.mem, es, sorted);
    SortedIn(idx.mem, sorted);
    ghost var m1 := idx.mem;
    var total, passes := Propagate(idx, sorted);
    if Structured(m0, idx.table, cat, gh, genesisTx) {
      HeightsStand(m0, idx.mem, idx.table, idx.pow, cat, gh, genesisTx);
    }
    if Structured(m0, idx.table, cat, gh, genesisTx) && FirmGenesis(m0, idx.pow, g) {
      PassesKeepWork(m0, idx.pow, es, g, sorted, passes);
      WeightsStand(m0, idx.mem, idx.table, idx.pow, cat, gh, genesisTx);
      RerootedIsLabelled(m0, idx.mem, idx.table, idx.pow, cat, gh, genesisTx);
      PassesKeepRerooted(m0, idx.pow, es, g, sorted, passes);
      StarvedIffWraps(m0, idx.table, idx.pow, cat, gh, genesisTx, sorted);
    }
  }

  lemma StarvedIffWraps(m0: Memory, table: map<Hash, Ptr>, pow: Proof, cat: Catalog, gh: Hash, genesisTx: Count, s: seq<Ptr>)
    requires Structured(m0, table, cat, gh, genesisTx) && Entries(table) <= m0.Keys && 0 !in Entries(table) && gh in table
    requires table[gh] in Entries(table) && ListsLinked(m0, Entries(table), s)
    ensures (forall q :: !Starved(m0, pow, Entries(table), table[gh], s, q)) <==> NoWrap(cat, genesisTx, gh)
  {
    hide Structured, Starved, ListsLinked, Leads, HasHeir, HashTx;
    if q :| Starved(m0, pow, Entries(table), table[gh], s, q) {
      StarvedWraps(m0, table, pow, cat, gh, genesisTx, s, q);
    } else {
      forall h, k: nat | Leads(cat, gh, h, k) && HasHeir(cat, gh, h) && k % COUNT_MODULUS != 0
        ensures HashTx(cat, genesisTx, gh, h, k) != 0
      {
        if HashTx(cat, genesisTx, gh, h, k) == 0 {
          WrapStarves(m0, table, pow, cat, gh, genesisTx, s, h, k);
        }
      }
    }
  }

  lemma SortedIn(m: Memory, s: seq<Ptr>)
    requires HeightSorted(m, s)
    ensures AllIn(s, m)
  {
  }

  lemma SortedLists(m0: Memory, m: Memory, es: set<Ptr>, s: seq<Ptr>)
    requires es <= m.Keys && m.Keys == m0.Keys && forall p :: p in m0 ==> m[p].pprev == m0[p].pprev
    requires Elems(s) == set p | p in es && (m[p].pprev != 0 || m[p].haveData)
    ensures ListsLinked(m0, es, s)
  {
  }

  lemma RecomputedIs(m0: Memory, m: Memory, pow: Proof, es: set<Ptr>, g: Ptr, st: Stats, pushed: seq<Ptr>)
    requires es <= m0.Keys && 0 !in es && g in es && RecomputeDone(m0, m, pow, es, g, st, pushed)
    ensures m == Recomputed(m0, pow, es, g)
  {
  }

  /** scan_block_files_mark_data, from any index that holds genesis. Whichever files the blocks lie in,
      every block that leads to genesis ends up with the height and, if genesis is firm, the work that
      the index and the records determine, and with their counts too if and only if no count under a
      child wraps to zero. When the files hold nothing new
      no label is recomputed: the entries are those the blocks, met in file order, leave. */
  method ScanBlockFiles(idx: BlockIndex, disk: Disk, hashOf: HashOf, gh: Hash, ghost recs: Catalog)
    returns (marked: nat, created: nat, ghost s: Start)
    requires ValidIndex(idx.mem, idx.table) && gh in idx.table
    requires Readable(disk) && IsCatalog(disk, hashOf, recs)
    modifies idx`mem, idx`table
    ensures s == Start(old(idx.mem), old(idx.table), recs, gh) && gh in Joined(s, disk)
    ensures created == |recs.Keys - old(idx.table.Keys)|
    ensures marked > 0 <==> exists h :: Stirs(s, h)
    ensures marked > 0 && Firm(s, idx.pow) ==>
              (AllLabelled(idx.mem, idx.table, idx.pow, Joined(s, disk), gh, GenesisCount(s)) <==>
                NoWrap(Joined(s, disk), GenesisCount(s), gh))
    ensures marked > 0 && Firm(s, idx.pow) ==> AllWeighed(idx.mem, idx.table, idx.pow, Joined(s, disk), gh)
    ensures marked > 0 ==> AllAtHeight(idx.mem, idx.table, Joined(s, disk), gh)
    ensures marked == 0 ==>
              && idx.table == old(idx.table)
              && MetOnDisk(old(idx.mem), idx.mem, idx.table, idx.pow, disk, hashOf, Listing(disk, |disk|))
  {
    hide *;
    s := Start(idx.mem, idx.table, recs, gh);
    ghost var full := recs.Keys <= idx.table.Keys;
    StartScanned(s, disk);
    var files, parsed := ParseFiles(disk, hashOf);
    var t := ApplyPass(idx, files, parsed, s, disk, hashOf, {}, {}, full);
    PassDone(s, idx.mem, idx.table, disk, {}, {}, full, |s.table.Keys|, t);
    CountedAll(s, t);
    CreatedAll(s, idx.mem, idx.table, disk, if full then recs.Keys else {}, t);
    marked, created := t.marked + t.headerFixed, t.created;
    if created > 0 {
      var more := RetryPasses(idx, files, parsed, s, disk, hashOf);
      marked := marked + more;
    }
    Settle(idx, disk, gh, s, created, marked);
  }

  lemma StartScanned(s: Start, disk: Disk)
    requires ValidIndex(s.mem, s.table) && s.gh in s.table
    ensures Scanned(s, s.mem, s.table, disk, {}, {})
    ensures s.recs.Keys <= s.table.Keys ==> s.table.Keys == Known(s)
  {
  }

  lemma CountedAll(s: Start, t: Tally)
    requires Counted(s, {}, s.recs.Keys, t)
    ensures t.marked + t.headerFixed > 0 <==> exists h :: Stirs(s, h)
  {
  }

  lemma CreatedAll(s: Start, mem: Memory, table: map<Hash, Ptr>, disk: Disk, firm: set<Hash>, t: Tally)
    requires Scanned(s, mem, table, disk, s.recs.Keys, firm) && |table.Keys| == |s.table.Keys| + t.created
    ensures t.created == |s.recs.Keys - s.table.Keys| && (t.created == 0 <==> s.recs.Keys <= s.table.Keys)
  {
    hide EntryOk;
    assert table.Keys == s.table.Keys + (s.recs.Keys - s.table.Keys);
    assert s.table.Keys !! (s.recs.Keys - s.table.Keys);
    if t.created == 0 {
      assert s.recs.Keys - s.table.Keys == {};
    }
  }

  /** The rest of the scan, once every block has been met: orphans, labels. */
  method Settle(idx: BlockIndex, disk: Disk, gh: Hash, ghost s: Start, created: nat, marked: nat)
    requires Readable(disk) && gh == s.gh && Scanned(s, idx.mem, idx.table, disk, s.recs.Keys, s.recs.Keys)
    requires (created == 0 <==> s.recs.Keys <= s.table.Keys) && (created > 0 ==> marked > 0)
    modifies idx`mem
    ensures gh in Joined(s, disk)
    ensures marked > 0 && Firm(s, idx.pow) ==>
              (AllLabelled(idx.mem, idx.table, idx.pow, Joined(s, disk), gh, GenesisCount(s)) <==>
                NoWrap(Joined(s, disk), GenesisCount(s), gh))
    ensures marked > 0 && Firm(s, idx.pow) ==> AllWeighed(idx.mem, idx.table, idx.pow, Joined(s, disk), gh)
    ensures marked > 0 ==> AllAtHeight(idx.mem, idx.table, Joined(s, disk), gh)
    ensures marked == 0 ==> idx.mem == old(idx.mem)
  {
    hide Scanned, Structured, AllLabelled, AllAtHeight, AllWeighed, NoWrap, Firm, OrphanPass, Resolving, FirmGenesis, GenesisCount;
    ScannedGenesis(s, idx.mem, idx.table, disk);
    ghost var resolved := false;
    if created > 0 {
      var orphans := CountOrphans(idx.mem, idx.table);
      OrphanPassRuns(s, idx.mem, idx.table, disk, orphans);
      if orphans > 0 {
        ScannedResolving(s, idx.mem, idx.table, disk);
        var r := ResolveOrphans(idx, disk, gh, s);
        resolved := true;
      }
    } else {
      NoOrphanPass(s);
    }
    if !resolved {
      ScannedStructured(s, idx.mem, idx.table, disk);
      if Firm(s, idx.pow) {
        ScannedFirm(s, idx.mem, idx.table, disk, idx.pow);
      }
    }
    if marked > 0 {
      Relabel(idx, gh, Joined(s, disk), GenesisCount(s));
    }
  }

  lemma ScannedGenesis(s: Start, mem: Memory, table: map<Hash, Ptr>, disk: Disk)
    requires Scanned(s, mem, table, disk, s.recs.Keys, s.recs.Keys)
    ensures ValidIndex(mem, table) && s.gh in table && s.gh in Joined(s, disk)
  {
    hide EntryOk, LinkHash, Bits, Txs;
  }

  lemma NoOrphanPass(s: Start)
    requires s.recs.Keys <= s.table.Keys
    ensures !OrphanPass(s)
  {
  }

  /** The orphan pass is entered exactly when the index before the scan says so. */
  lemma OrphanPassRuns(s: Start, mem: Memory, table: map<Hash, Ptr>, disk: Disk, orphans: nat)
    requires Scanned(s, mem, table, disk, s.recs.Keys, s.recs.Keys) && !(s.recs.Keys <= s.table.Keys)
    requires ValidIndex(mem, table) && (orphans == 0 <==> forall h :: h in table ==> !LooksOrphan(mem[table[h]]))
    ensures orphans > 0 <==> OrphanPass(s)
  {
    hide EntryOk, LooksOrphan, Waits;
    ScannedFull(s, mem, table, disk, s.recs.Keys);
    forall h | h in table ensures LooksOrphan(mem[table[h]]) <==> Waits(s, h) {
      OrphansWait(s, mem, table, disk, h);
    }
  }
}
