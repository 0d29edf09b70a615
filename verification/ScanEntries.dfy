/** The first half of scan_block_files_mark_data: the numbered block files are listed and parsed, and
    their blocks inserted into an index that may already hold entries of its own, linked and
    marked. What every entry ends up as is stated in terms of the index before the scan. */
module ScanEntries {
  import opened Bytes
  import opened Ancestry
  import opened BlockIndexModel
  import opened Common
  import opened BlockFileScan

  /** blk00000.dat, blk00001.dat, ... A missing file has no bytes. */
  type Disk = seq<seq<Byte>>

  /** What a block contributes to the index, wherever it lies on disk. */
  datatype Record = Record(prev: Hash, bits: Count, nTx: Count)

  type Catalog = map<Hash, Record>

  function RecordOf(m: Meta): Record {
    Record(m.prev, m.bits, m.nTx)
  }

  predicate Missing(disk: Disk, i: nat)
    requires i < |disk|
  {
    disk[i] == []
  }

  /** The listing reaches file f: no three files in a row are missing below it. */
  predicate Listed(disk: Disk, f: nat) {
    && f < |disk| && !Missing(disk, f)
    && forall i :: 0 <= i && i + 2 < f ==> !(Missing(disk, i) && Missing(disk, i + 1) && Missing(disk, i + 2))
  }

  /** The listed files below n, in order. */
  ghost function Listing(disk: Disk, n: nat): (files: seq<nat>)
    requires n <= |disk|
    ensures forall f: nat :: f in files <==> f < n && Listed(disk, f)
    ensures forall i :: 0 <= i < |files| ==> files[i] < n
  {
    if n == 0 then [] else Listing(disk, n - 1) + if Listed(disk, n - 1) then [n - 1] else []
  }

  /** Three misses in a row below n end the listing. */
  lemma {:induction false} ListingEnds(disk: Disk, n: nat, f: nat)
    requires f <= n <= |disk| && forall g: nat :: f <= g < n ==> !Listed(disk, g)
    ensures Listing(disk, n) == Listing(disk, f)
    decreases n
  {
    hide Listed;
    if n == f {
    } else {
      ListingEnds(disk, n - 1, f);
    }
  }

  /** The listing has come to file f: the last misses files are missing and it never met three in a row. */
  ghost predicate ListedUpTo(disk: Disk, f: nat, misses: nat) {
    && f <= |disk| && misses <= 2 && misses <= f
    && (forall i :: f - misses <= i < f ==> Missing(disk, i))
    && (misses < f ==> !Missing(disk, f - misses - 1))
    && forall i :: 0 <= i && i + 2 < f ==> !(Missing(disk, i) && Missing(disk, i + 1) && Missing(disk, i + 2))
  }

  lemma ListStep(disk: Disk, f: nat, misses: nat)
    requires ListedUpTo(disk, f, misses) && f < |disk|
    ensures Listed(disk, f) <==> !Missing(disk, f)
    ensures !Missing(disk, f) ==> ListedUpTo(disk, f + 1, 0)
    ensures Missing(disk, f) && misses < 2 ==> ListedUpTo(disk, f + 1, misses + 1)
    ensures Missing(disk, f) && misses == 2 ==> forall g: nat :: f <= g ==> !Listed(disk, g)
  {
    if misses == 2 {
      assert Missing(disk, f - 2) && Missing(disk, f - 2 + 1);
    }
  }

  /** Numbered files 0 to 255, stopping after three consecutive misses. */
  method ListFiles(disk: Disk) returns (files: seq<nat>)
    requires |disk| <= 256
    ensures files == Listing(disk, |disk|)
  {
    hide ListedUpTo, Listed, Missing;
    files := [];
    var misses := 0;
    var f := 0;
    assert ListedUpTo(disk, 0, 0) by { NothingListed(disk); }
    while f < |disk|
      invariant 0 <= f <= |disk| && 0 <= misses <= 2 && ListedUpTo(disk, f, misses) && files == Listing(disk, f)
    {
      ListStep(disk, f, misses);
      if Missing(disk, f) {
        misses := misses + 1;
        if misses >= 3 {
          ListingEnds(disk, |disk|, f);
          return;
        }
      } else {
        misses := 0;
        files := files + [f];
      }
      f := f + 1;
    }
  }

  lemma NothingListed(disk: Disk)
    ensures ListedUpTo(disk, 0, 0)
  {
  }

  function Metas(disk: Disk, f: nat, hashOf: HashOf): seq<Meta>
    requires f < |disk|
  {
    ScanFrom(disk[f], 0, 0, hashOf)
  }

  /** recs says what every listed file says: one record per hash, whichever file holds it. */
  ghost predicate IsCatalog(disk: Disk, hashOf: HashOf, recs: Catalog) {
    && (forall f: nat, m :: Listed(disk, f) && m in Metas(disk, f, hashOf) ==> m.hash in recs && recs[m.hash] == RecordOf(m))
    && (forall h :: h in recs ==> exists f: nat, m :: Listed(disk, f) && m in Metas(disk, f, hashOf) && m.hash == h)
  }

  /** The bytes at pos in file f carry prev where a header carries its parent's hash. */
  ghost predicate OnDisk(disk: Disk, f: int, pos: nat, prev: Hash) {
    0 <= f < |disk| && 8 <= pos && pos + 36 <= |disk[f]| && disk[f][pos + 4..pos + 36] == prev
  }

  function FreshNode(m: Meta): Node {
    Node(m.hash, 0, 0, 0, 0, 0, m.version, m.time, m.bits, false, false, 0, 0)
  }

  /** The entry for hash prev, as seen while the entry at p holds n. */
  function FindParent(mem: Memory, table: map<Hash, Ptr>, p: Ptr, n: Node, prev: Hash): Option<(Ptr, Node)>
    requires forall h :: h in table ==> table[h] == p || table[h] in mem
  {
    if prev in table then Some((table[prev], if table[prev] == p then n else mem[table[prev]])) else None
  }

  function LinkTo(n: Node, q: Ptr, qn: Node, pow: Proof): Node {
    n.(pprev := q, height := qn.height + 1, work := Add256(qn.work, pow(n.bits)))
  }

  /** create_block_index_fast, once the entry is in the table. */
  function Created(mem: Memory, table: map<Hash, Ptr>, pow: Proof, p: Ptr, m: Meta): Node
    requires forall h :: h in table ==> table[h] == p || table[h] in mem
  {
    var n := FreshNode(m);
    match FindParent(mem, table, p, n, m.prev)
    case Some((q, qn)) => LinkTo(n, q, qn, pow)
    case None => n.(work := pow(n.bits))
  }

  function HeaderIncomplete(n: Node): bool {
    n.version == 0 || n.time == 0 || n.bits == 0
  }

  function HeaderFixed(n: Node, m: Meta): Node {
    if HeaderIncomplete(n) then n.(version := m.version, time := m.time, bits := m.bits) else n
  }

  /** An entry without a parent at height 0 is looked up again. */
  function Relinked(mem: Memory, table: map<Hash, Ptr>, pow: Proof, p: Ptr, n: Node, m: Meta): Node
    requires forall h :: h in table ==> table[h] == p || table[h] in mem
  {
    if n.pprev == 0 && n.height == 0 then
      match FindParent(mem, table, p, n, m.prev)
      case Some((q, qn)) => LinkTo(n, q, qn, pow)
      case None => n
    else n
  }

  /** Data at the given place, and a transaction count if there was none. */
  function Marked(n: Node, f: nat, m: Meta): Node
    requires m.dataPos < COUNT_MODULUS
  {
    n.(haveData := true, file := f, dataPos := m.dataPos, nTx := if n.nTx == 0 then m.nTx else n.nTx)
  }

  /** The entry at p after scan_apply_one_file has met m in file f; table already holds it. */
  function Applied(mem: Memory, table: map<Hash, Ptr>, pow: Proof, p: Ptr, f: nat, m: Meta): Node
    requires forall h :: h in table ==> table[h] == p || table[h] in mem
    requires m.dataPos < COUNT_MODULUS
  {
    var n := if p in mem then mem[p] else Created(mem, table, pow, p, m);
    Marked(Relinked(mem, table, pow, p, HeaderFixed(n, m), m), f, m)
  }

  /** A block the scan has found, and the file it lies in. */
  datatype Report = Report(file: nat, meta: Meta)

  ghost function FileReports(f: nat, ms: seq<Meta>): seq<Report> {
    seq(|ms|, i requires 0 <= i < |ms| => Report(f, ms[i]))
  }

  /** All blocks of the given files, in the order a pass meets them. */
  ghost function Reports(disk: Disk, hashOf: HashOf, files: seq<nat>): seq<Report>
    requires forall i :: 0 <= i < |files| ==> files[i] < |disk|
  {
    if files == [] then []
    else
      var f := files[|files| - 1];
      Reports(disk, hashOf, files[..|files| - 1]) + FileReports(f, Metas(disk, f, hashOf))
  }

  /** Every report is of a block that has an entry. */
  ghost predicate AllKnown(mem: Memory, table: map<Hash, Ptr>, rs: seq<Report>) {
    && (forall h :: h in table ==> table[h] in mem)
    && forall i :: 0 <= i < |rs| ==> rs[i].meta.hash in table && rs[i].meta.dataPos < COUNT_MODULUS
  }

  /** The memory after the reported blocks have been met in order. */
  ghost function MeetAll(mem: Memory, table: map<Hash, Ptr>, pow: Proof, rs: seq<Report>): (mem': Memory)
    requires AllKnown(mem, table, rs)
    ensures mem'.Keys == mem.Keys
  {
    if rs == [] then mem
    else
      var m, r := MeetAll(mem, table, pow, rs[..|rs| - 1]), rs[|rs| - 1];
      var p := table[r.meta.hash];
      m[p := Applied(m, table, pow, p, r.file, r.meta)]
  }

  ghost predicate Met(mem: Memory, mem': Memory, table: map<Hash, Ptr>, pow: Proof, rs: seq<Report>) {
    AllKnown(mem, table, rs) && mem' == MeetAll(mem, table, pow, rs)
  }

  lemma MetNone(mem: Memory, table: map<Hash, Ptr>, pow: Proof)
    requires ValidIndex(mem, table)
    ensures Met(mem, mem, table, pow, [])
  {
  }

  lemma MetOne(mem: Memory, table: map<Hash, Ptr>, pow: Proof, r: Report)
    requires (forall h :: h in table ==> table[h] in mem) && r.meta.hash in table && r.meta.dataPos < COUNT_MODULUS
    ensures var p := table[r.meta.hash];
            Met(mem, mem[p := Applied(mem, table, pow, p, r.file, r.meta)], table, pow, [r])
  {
    hide Applied;
    assert [r][..0] == [];
    assert MeetAll(mem, table, pow, []) == mem;
  }

  lemma {:induction false} MetJoin(mem: Memory, mid: Memory, mem': Memory, table: map<Hash, Ptr>, pow: Proof,
                                   a: seq<Report>, b: seq<Report>)
    requires Met(mem, mid, table, pow, a) && Met(mid, mem', table, pow, b)
    ensures Met(mem, mem', table, pow, a + b)
    decreases |b|
  {
    hide Applied;
    if b == [] {
      assert a + b == a;
    } else {
      var front := b[..|b| - 1];
      MetJoin(mem, mid, MeetAll(mid, table, pow, front), table, pow, a, front);
      assert (a + b)[..|a + b| - 1] == a + front;
    }
  }

  /** What a scan starts from: the index, and what the listed files say. */
  datatype Start = Start(mem: Memory, table: map<Hash, Ptr>, recs: Catalog, gh: Hash)

  ghost predicate StartOk(s: Start) {
    ValidIndex(s.mem, s.table) && s.gh in s.table
  }

  /** Every block the index holds after the scan. */
  function Known(s: Start): set<Hash> {
    s.table.Keys + s.recs.Keys
  }

  predicate Had(s: Start, h: Hash) {
    h in s.table && s.table[h] in s.mem
  }

  function Old(s: Start, h: Hash): Node
    requires Had(s, h)
  {
    s.mem[s.table[h]]
  }

  /** Parent link and height of the entry before the scan; a block without an entry has neither. */
  function OldLink(s: Start, h: Hash): Ptr {
    if Had(s, h) then Old(s, h).pprev else 0
  }

  function OldHeight(s: Start, h: Hash): int {
    if Had(s, h) then Old(s, h).height else 0
  }

  /** The bits and the transaction count an entry ends up with: its own if it has them, else those of
      the block on disk. */
  function Bits(s: Start, h: Hash): Count {
    if Had(s, h) && (h !in s.recs || !HeaderIncomplete(Old(s, h))) then Old(s, h).bits
    else if h in s.recs then s.recs[h].bits
    else 0
  }

  function Txs(s: Start, h: Hash): Count {
    if Had(s, h) && (h !in s.recs || Old(s, h).nTx != 0) then Old(s, h).nTx
    else if h in s.recs then s.recs[h].nTx
    else 0
  }

  /** The parent link of a block met on disk: the one it had, or else none yet and its height as it
      was, or else the entry its header names, which only a block at height 0 gets. */
  ghost predicate LinkOk(s: Start, table: map<Hash, Ptr>, h: Hash, n: Node)
    requires h in s.recs
  {
    var prev := s.recs[h].prev;
    if OldLink(s, h) != 0 then n.pprev == OldLink(s, h)
    else
      || (n.pprev == 0 && n.height == OldHeight(s, h))
      || (OldHeight(s, h) == 0 && prev in table && n.pprev == table[prev])
  }

  predicate SameLabels(n: Node, n': Node) {
    n.height == n'.height && n.work == n'.work && n.chainTx == n'.chainTx
  }

  /** The entry of a block met on disk. Blocks of firm were last met with every block in the index. */
  ghost predicate MetOk(s: Start, table: map<Hash, Ptr>, disk: Disk, firm: set<Hash>, h: Hash, n: Node) {
    && h in s.recs && n.bits == Bits(s, h) && n.nTx == Txs(s, h) && n.nTx != 0 && n.haveData
    && OnDisk(disk, n.file, n.dataPos, s.recs[h].prev)
    && LinkOk(s, table, h, n)
    && (Had(s, h) ==>
          && n.chainTx == Old(s, h).chainTx
          && (!HeaderIncomplete(Old(s, h)) ==> !HeaderIncomplete(n))
          && (n.pprev == OldLink(s, h) ==> SameLabels(Old(s, h), n)))
    && (h in firm && OldLink(s, h) == 0 && OldHeight(s, h) == 0 && s.recs[h].prev in table ==> n.pprev != 0)
  }

  /** An entry between two blocks of the scan: met, or as it was. */
  ghost predicate EntryOk(s: Start, table: map<Hash, Ptr>, disk: Disk, done: set<Hash>, firm: set<Hash>, h: Hash, n: Node) {
    && n.hash == h
    && if h in done then MetOk(s, table, disk, firm, h, n) else Had(s, h) && n == Old(s, h)
  }

  /** The table holds the old entries where they were and new ones outside the old memory. */
  ghost predicate Extends(s: Start, mem: Memory, table: map<Hash, Ptr>, done: set<Hash>) {
    && StartOk(s) && ValidIndex(mem, table) && table.Keys == s.table.Keys + done && done <= s.recs.Keys
    && (forall h :: h in s.table ==> table[h] == s.table[h])
    && (forall h :: h in table && h !in s.table ==> table[h] !in s.mem)
    && s.mem.Keys <= mem.Keys
  }

  /** The index after the blocks of done have been met at least once. */
  ghost predicate Scanned(s: Start, mem: Memory, table: map<Hash, Ptr>, disk: Disk, done: set<Hash>, firm: set<Hash>) {
    && Extends(s, mem, table, done) && firm <= done && (firm != {} ==> table.Keys == Known(s))
    && forall h :: h in table ==> EntryOk(s, table, disk, done, firm, h, mem[table[h]])
  }

  /** The firm blocks after those of hs have been met, with the index complete or not. */
  function NextFirm(full: bool, firm: set<Hash>, hs: set<Hash>): set<Hash> {
    if full then firm + hs else {}
  }

  lemma FirmNext(full: bool, done: set<Hash>, firm: set<Hash>, a: set<Hash>, b: set<Hash>)
    requires !full ==> firm == {}
    ensures done + a + b == done + (a + b) && NextFirm(full, NextFirm(full, firm, a), b) == NextFirm(full, firm, a + b)
    ensures done + {} == done && NextFirm(full, firm, {}) == firm
    ensures !full ==> NextFirm(full, firm, a) == {}
  {
    assert firm + a + b == firm + (a + b);
  }

  /** Another entry stays fine when the block h is met. */
  lemma EntryKept(s: Start, table: map<Hash, Ptr>, disk: Disk, done: set<Hash>, firm: set<Hash>, full: bool,
                  h: Hash, p: Ptr, k: Hash, n: Node)
    requires EntryOk(s, table, disk, done, firm, k, n) && k != h
    requires (full ==> h in table) && (h in table ==> table[h] == p) && (!full ==> firm == {})
    ensures EntryOk(s, table[h := p], disk, done + {h}, NextFirm(full, firm, {h}), k, n)
  {
    hide OnDisk;
    assert h in table ==> table[h := p] == table;
  }

  /** Writing one entry that is fine leaves an index that is fine. */
  lemma ApplyKeeps(s: Start, mem: Memory, table: map<Hash, Ptr>, disk: Disk, done: set<Hash>, firm: set<Hash>, full: bool,
                   h: Hash, p: Ptr, n: Node)
    requires Scanned(s, mem, table, disk, done, firm) && h in s.recs
    requires (full ==> table.Keys == Known(s)) && (!full ==> firm == {})
    requires if h in table then p == table[h] else p !in mem && p != 0
    requires n.pprev == 0 || n.pprev in mem || n.pprev == p
    requires EntryOk(s, table[h := p], disk, done + {h}, NextFirm(full, firm, {h}), h, n)
    ensures Scanned(s, mem[p := n], table[h := p], disk, done + {h}, NextFirm(full, firm, {h}))
  {
    hide EntryOk, MetOk, Extends;
    var mem', table' := mem[p := n], table[h := p];
    EntryHash(s, table', disk, done + {h}, NextFirm(full, firm, {h}), h, n);
    ExtendsKept(s, mem, table, done, h, p, n);
    ExtendsTable(s, mem, table, done);
    ExtendsTable(s, mem', table', done + {h});
    forall k | k in table' ensures EntryOk(s, table', disk, done + {h}, NextFirm(full, firm, {h}), k, mem'[table'[k]]) {
      if k != h {
        assert k in table;
        OtherEntry(mem, table, h, p, k, n);
        EntryKept(s, table, disk, done, firm, full, h, p, k, mem[table[k]]);
      }
    }
    assert full ==> table'.Keys == Known(s);
  }

  lemma ExtendsTable(s: Start, mem: Memory, table: map<Hash, Ptr>, done: set<Hash>)
    requires Extends(s, mem, table, done)
    ensures ValidIndex(mem, table) && table.Keys == s.table.Keys + done && done <= s.recs.Keys
  {
  }

  lemma OtherEntry(mem: Memory, table: map<Hash, Ptr>, h: Hash, p: Ptr, k: Hash, n: Node)
    requires ValidIndex(mem, table) && k in table && k != h && (h in table ==> p == table[h]) && (h !in table ==> p !in mem)
    ensures table[h := p][k] == table[k] && table[k] in mem && mem[p := n][table[k]] == mem[table[k]]
  {
  }

  lemma ExtendsKept(s: Start, mem: Memory, table: map<Hash, Ptr>, done: set<Hash>, h: Hash, p: Ptr, n: Node)
    requires Extends(s, mem, table, done) && h in s.recs && n.hash == h
    requires if h in table then p == table[h] else p !in mem && p != 0
    requires n.pprev == 0 || n.pprev in mem || n.pprev == p
    ensures Extends(s, mem[p := n], table[h := p], done + {h})
  {
    hide ValidIndex;
    assert table[h := p].Keys == s.table.Keys + (done + {h});
    ValidKept(mem, table, h, p, n);
  }

  lemma ValidKept(mem: Memory, table: map<Hash, Ptr>, h: Hash, p: Ptr, n: Node)
    requires ValidIndex(mem, table) && n.hash == h && (n.pprev == 0 || n.pprev in mem || n.pprev == p)
    requires if h in table then p == table[h] else p !in mem && p != 0
    ensures ValidIndex(mem[p := n], table[h := p])
  {
    assert forall k :: k in table && k != h ==> table[k] != p;
  }

  lemma EntryHash(s: Start, table: map<Hash, Ptr>, disk: Disk, done: set<Hash>, firm: set<Hash>, h: Hash, n: Node)
    requires EntryOk(s, table, disk, done, firm, h, n)
    ensures n.hash == h
  {
  }

  /** A block of file f that the catalog describes. */
  ghost predicate GoodMeta(recs: Catalog, disk: Disk, f: nat, m: Meta) {
    && m.hash in recs && recs[m.hash] == RecordOf(m) && m.nTx >= 1 && m.dataPos < COUNT_MODULUS
    && OnDisk(disk, f, m.dataPos, m.prev)
  }

  /** What a block does to the fields of an entry that was there. */
  lemma AppliedFields(mem: Memory, table: map<Hash, Ptr>, pow: Proof, p: Ptr, f: nat, m: Meta)
    requires p in mem && (forall h :: h in table ==> table[h] == p || table[h] in mem) && m.dataPos < COUNT_MODULUS
    ensures var n0, n := mem[p], Applied(mem, table, pow, p, f, m);
            && n.hash == n0.hash && n.chainTx == n0.chainTx && n.haveData && n.file == f && n.dataPos == m.dataPos
            && (HeaderIncomplete(n0) <==> n0.version == 0 || n0.time == 0 || n0.bits == 0)
            && (n.version, n.time, n.bits) ==
                 (if HeaderIncomplete(n0) then (m.version, m.time, m.bits) else (n0.version, n0.time, n0.bits))
            && n.failed == n0.failed
            && (!HeaderIncomplete(n0) ==> !HeaderIncomplete(n))
            && n.nTx == (if n0.nTx == 0 then m.nTx else n0.nTx)
            && if n0.pprev == 0 && n0.height == 0 && m.prev in table then
                 && n.pprev == table[m.prev] && n.height == mem[n.pprev].height + 1
                 && n.work == Add256(mem[n.pprev].work, pow(n.bits))
               else n.pprev == n0.pprev && SameLabels(n0, n)
  {
    hide Add256;
  }

  /** The entry a block that had none gets: its header, its place and its count, a parent if that is in
      the table, with height and work on top of the parent's, and otherwise height 0 and its own proof;
      a block that names itself as its parent starts from nothing. */
  lemma CreatedFields(mem: Memory, table: map<Hash, Ptr>, pow: Proof, p: Ptr, f: nat, m: Meta)
    requires p !in mem && p != 0 && (forall h :: h in table ==> table[h] == p || table[h] in mem) && m.dataPos < COUNT_MODULUS
    requires m.version != 0 && m.time != 0 && m.bits != 0
    ensures var n := Applied(mem, table, pow, p, f, m);
            && n.hash == m.hash && n.version == m.version && n.time == m.time && n.bits == m.bits
            && n.nTx == m.nTx && n.chainTx == 0 && n.haveData && !n.failed && n.file == f && n.dataPos == m.dataPos
            && if m.prev !in table then n.pprev == 0 && n.height == 0 && n.work == pow(m.bits)
               else if table[m.prev] == p then n.pprev == p && n.height == 1 && n.work == pow(m.bits)
               else
                 && n.pprev == table[m.prev] && n.height == mem[n.pprev].height + 1
                 && n.work == (mem[n.pprev].work + pow(m.bits)) % WORK_MODULUS
  {
  }

  /** What one block makes of an entry that was there. */
  lemma MetAgain(s: Start, mem: Memory, table: map<Hash, Ptr>, pow: Proof, disk: Disk, done: set<Hash>, firm: set<Hash>,
                 full: bool, f: nat, m: Meta)
    requires Scanned(s, mem, table, disk, done, firm) && GoodMeta(s.recs, disk, f, m) && m.hash in table
    requires (full ==> table.Keys == Known(s)) && (!full ==> firm == {})
    ensures var p := table[m.hash];
            var n := Applied(mem, table, pow, p, f, m);
            && (n.pprev == 0 || n.pprev in mem)
            && EntryOk(s, table, disk, done + {m.hash}, NextFirm(full, firm, {m.hash}), m.hash, n)
  {
    hide Applied, OnDisk, HeaderIncomplete;
    var h := m.hash;
    assert EntryOk(s, table, disk, done, firm, h, mem[table[h]]);
    AppliedFields(mem, table, pow, table[h], f, m);
  }

  /** What one block makes of its new entry. */
  lemma MetNew(s: Start, mem: Memory, table: map<Hash, Ptr>, pow: Proof, disk: Disk, done: set<Hash>, p: Ptr, f: nat, m: Meta)
    requires Scanned(s, mem, table, disk, done, {}) && GoodMeta(s.recs, disk, f, m) && m.hash !in table
    requires p !in mem && p != 0
    ensures var n := Applied(mem, table[m.hash := p], pow, p, f, m);
            && (n.pprev == 0 || n.pprev in mem || n.pprev == p)
            && EntryOk(s, table[m.hash := p], disk, done + {m.hash}, {}, m.hash, n)
  {
    hide Add256, OnDisk, EntryOk;
    assert !Had(s, m.hash);
    NewEntry(s, mem, table[m.hash := p], pow, disk, p, f, m);
    assert EntryOk(s, table[m.hash := p], disk, done + {m.hash}, {}, m.hash, Applied(mem, table[m.hash := p], pow, p, f, m)) by {
      NewEntryOk(s, table[m.hash := p], disk, done + {m.hash}, m.hash, Applied(mem, table[m.hash := p], pow, p, f, m));
    }
  }

  lemma NewEntry(s: Start, mem: Memory, table: map<Hash, Ptr>, pow: Proof, disk: Disk, p: Ptr, f: nat, m: Meta)
    requires forall h :: h in table ==> table[h] == p || table[h] in mem
    requires GoodMeta(s.recs, disk, f, m) && p !in mem && p != 0 && !Had(s, m.hash)
    ensures var n := Applied(mem, table, pow, p, f, m);
            && n.hash == m.hash && (n.pprev == 0 || n.pprev in mem || n.pprev == p)
            && MetOk(s, table, disk, {}, m.hash, n)
  {
    hide Add256, OnDisk;
  }

  lemma NewEntryOk(s: Start, table: map<Hash, Ptr>, disk: Disk, done: set<Hash>, h: Hash, n: Node)
    requires n.hash == h && h in done && MetOk(s, table, disk, {}, h, n)
    ensures EntryOk(s, table, disk, done, {}, h, n)
  {
  }

  lemma {:induction false} FreshPtr(s: set<Ptr>) returns (p: Ptr)
    ensures p != 0 && p !in s && forall q :: q in s ==> q < p
    decreases |s|
  {
    if s == {} {
      p := 1;
    } else {
      var q :| q in s;
      var r := FreshPtr(s - {q});
      p := if q < r then r else q + 1;
      assert forall x :: x in s ==> x == q || x in s - {q};
    }
  }

  /** scan_apply_one_file's counters. */
  datatype Tally = Tally(marked: nat, created: nat, headerFixed: nat)

  function Plus(a: Tally, b: Tally): Tally {
    Tally(a.marked + b.marked, a.created + b.created, a.headerFixed + b.headerFixed)
  }

  /** The block makes the scan count something: it has no entry, or one without data or header. */
  predicate Stirs(s: Start, h: Hash) {
    h in s.recs && (!Had(s, h) || !Old(s, h).haveData || HeaderIncomplete(Old(s, h)))
  }

  /** One block of scan_apply_one_file. */
  method ApplyBlock(idx: BlockIndex, f: nat, m: Meta,
                    ghost s: Start, ghost disk: Disk, ghost done: set<Hash>, ghost firm: set<Hash>, ghost full: bool)
    returns (t: Tally)
    requires Scanned(s, idx.mem, idx.table, disk, done, firm) && GoodMeta(s.recs, disk, f, m)
    requires (full ==> idx.table.Keys == Known(s)) && (!full ==> firm == {})
    modifies idx`mem, idx`table
    ensures Running(s, idx.mem, idx.table, disk, done, firm, full, old(|idx.table.Keys|), {m.hash}, t)
    ensures m.hash in old(idx.table) ==>
              idx.table == old(idx.table) && Met(old(idx.mem), idx.mem, idx.table, idx.pow, [Report(f, m)])
  {
    hide Met, Applied, Scanned, EntryOk, OnDisk, HeaderIncomplete, Counted;
    var isNew := m.hash !in idx.table;
    ScannedValid(s, idx.mem, idx.table, disk, done, firm);
    TallyFacts(s, idx.mem, idx.table, disk, done, firm, m.hash);
    var p: Ptr;
    ghost var unused := FreshPtr(idx.mem.Keys);
    if isNew {
      p :| p != 0 && p !in idx.mem;
      MetNew(s, idx.mem, idx.table, idx.pow, disk, done, p, f, m);
    } else {
      p := idx.table[m.hash];
      MetAgain(s, idx.mem, idx.table, idx.pow, disk, done, firm, full, f, m);
      assert idx.table[m.hash := p] == idx.table;
      MetOne(idx.mem, idx.table, idx.pow, Report(f, m));
    }
    var n := Applied(idx.mem, idx.table[m.hash := p], idx.pow, p, f, m);
    ApplyKeeps(s, idx.mem, idx.table, disk, done, firm, full, m.hash, p, n);
    t := Tally(if isNew || !idx.mem[p].haveData then 1 else 0, if isNew then 1 else 0,
               if HeaderIncomplete(if isNew then FreshNode(m) else idx.mem[p]) then 1 else 0);
    TableGrows(idx.table, m.hash, p);
    OneCounted(s, done, m.hash, t);
    idx.mem := idx.mem[p := n];
    idx.table := idx.table[m.hash := p];
  }

  /** What the counters of one block see of its entry. */
  lemma TallyFacts(s: Start, mem: Memory, table: map<Hash, Ptr>, disk: Disk, done: set<Hash>, firm: set<Hash>, h: Hash)
    requires Scanned(s, mem, table, disk, done, firm) && h in s.recs
    ensures h !in table ==> Stirs(s, h)
    ensures h in table && h !in done ==>
              (Stirs(s, h) <==> !mem[table[h]].haveData || HeaderIncomplete(mem[table[h]]))
    ensures h in table && !Stirs(s, h) ==> mem[table[h]].haveData && !HeaderIncomplete(mem[table[h]])
  {
    hide OnDisk, LinkOk;
    if h in table {
      assert EntryOk(s, table, disk, done, firm, h, mem[table[h]]);
    }
  }

  lemma TableGrows(table: map<Hash, Ptr>, h: Hash, p: Ptr)
    ensures |table[h := p].Keys| == |table.Keys| + if h in table then 0 else 1
  {
    assert table[h := p].Keys == table.Keys + {h};
  }

  lemma ScannedValid(s: Start, mem: Memory, table: map<Hash, Ptr>, disk: Disk, done: set<Hash>, firm: set<Hash>)
    requires Scanned(s, mem, table, disk, done, firm)
    ensures Extends(s, mem, table, done)
  {
  }

  ghost function HashesOf(ms: seq<Meta>): set<Hash> {
    set m | m in ms :: m.hash
  }

  /** What a run of blocks with hashes hs has counted, the blocks of done having been met before. */
  ghost predicate Counted(s: Start, done: set<Hash>, hs: set<Hash>, t: Tally) {
    && (t.marked + t.headerFixed == 0 ==> forall h :: h in hs && h !in done ==> !Stirs(s, h))
    && ((forall h :: h in hs ==> !Stirs(s, h)) ==> t.marked + t.headerFixed == 0)
  }

  lemma CountedNext(s: Start, done: set<Hash>, hs: set<Hash>, t: Tally, more: set<Hash>, u: Tally)
    requires Counted(s, done, hs, t) && Counted(s, done + hs, more, u)
    ensures Counted(s, done, hs + more, Plus(t, u))
  {
  }

  /** A run of the scan that has met the blocks of met, on top of those of done: the index, which had
      size entries before the run, and what the run has counted. full says that it was complete. */
  ghost predicate Running(s: Start, mem: Memory, table: map<Hash, Ptr>, disk: Disk, done: set<Hash>, firm: set<Hash>,
                          full: bool, size: nat, met: set<Hash>, t: Tally) {
    && Scanned(s, mem, table, disk, done + met, NextFirm(full, firm, met))
    && (full ==> table.Keys == Known(s)) && (!full ==> firm == {})
    && |table.Keys| == size + t.created && t.created <= t.marked && Counted(s, done, met, t)
  }

  lemma RunStart(s: Start, mem: Memory, table: map<Hash, Ptr>, disk: Disk, done: set<Hash>, firm: set<Hash>, full: bool)
    requires Scanned(s, mem, table, disk, done, firm)
    requires (full ==> table.Keys == Known(s)) && (!full ==> firm == {})
    ensures Running(s, mem, table, disk, done, firm, full, |table.Keys|, {}, Tally(0, 0, 0))
  {
    hide Scanned;
    FirmNext(full, done, firm, {}, {});
  }

  /** Two runs in a row are one run. */
  lemma RunJoin(s: Start, mem: Memory, table: map<Hash, Ptr>, disk: Disk, done: set<Hash>, firm: set<Hash>, full: bool,
                size: nat, met: set<Hash>, t: Tally, mid: nat, hs: set<Hash>, u: Tally)
    requires !full ==> firm == {}
    requires mid == size + t.created && t.created <= t.marked && Counted(s, done, met, t)
    requires Running(s, mem, table, disk, done + met, NextFirm(full, firm, met), full, mid, hs, u)
    ensures Running(s, mem, table, disk, done, firm, full, size, met + hs, Plus(t, u))
  {
    hide Scanned, Counted;
    FirmNext(full, done, firm, met, hs);
    CountedNext(s, done, met, t, hs, u);
  }

  lemma RunParts(s: Start, mem: Memory, table: map<Hash, Ptr>, disk: Disk, done: set<Hash>, firm: set<Hash>, full: bool,
                 size: nat, met: set<Hash>, t: Tally)
    requires Running(s, mem, table, disk, done, firm, full, size, met, t)
    ensures Scanned(s, mem, table, disk, done + met, NextFirm(full, firm, met))
    ensures (full ==> table.Keys == Known(s)) && (!full ==> firm == {} && NextFirm(full, firm, met) == {})
    ensures |table.Keys| == size + t.created && t.created <= t.marked && Counted(s, done, met, t)
  {
    hide Scanned, Counted;
  }

  /** scan_apply_one_file over the blocks of file f. */
  method ApplyFile(idx: BlockIndex, f: nat, ms: seq<Meta>,
                   ghost s: Start, ghost disk: Disk, ghost done: set<Hash>, ghost firm: set<Hash>, ghost full: bool)
    returns (t: Tally)
    requires Scanned(s, idx.mem, idx.table, disk, done, firm)
    requires (full ==> idx.table.Keys == Known(s)) && (!full ==> firm == {})
    requires forall i :: 0 <= i < |ms| ==> GoodMeta(s.recs, disk, f, ms[i])
    modifies idx`mem, idx`table
    ensures Running(s, idx.mem, idx.table, disk, done, firm, full, old(|idx.table.Keys|), HashesOf(ms), t)
    ensures HashesOf(ms) <= old(idx.table.Keys) ==>
              idx.table == old(idx.table) && Met(old(idx.mem), idx.mem, idx.table, idx.pow, FileReports(f, ms))
  {
    hide *;
    t := Tally(0, 0, 0);
    ghost var known := HashesOf(ms) <= idx.table.Keys;
    ScannedIndex(s, idx.mem, idx.table, disk, done, firm);
    MetNone(idx.mem, idx.table, idx.pow);
    FileReportsPush(f, ms, 0);
    ghost var size := |idx.table.Keys|;
    RunStart(s, idx.mem, idx.table, disk, done, firm, full);
    NoHashes();
    assert ms[..0] == [];
    for i := 0 to |ms|
      invariant Running(s, idx.mem, idx.table, disk, done, firm, full, size, HashesOf(ms[..i]), t)
      invariant known ==> idx.table == old(idx.table) && Met(old(idx.mem), idx.mem, idx.table, idx.pow, FileReports(f, ms[..i]))
    {
      ghost var met, h := HashesOf(ms[..i]), ms[i].hash;
      ghost var mid := idx.mem;
      FileReportsPush(f, ms, i);
      RunParts(s, idx.mem, idx.table, disk, done, firm, full, size, met, t);
      var u := ApplyBlock(idx, f, ms[i], s, disk, done + met, NextFirm(full, firm, met), full);
      RunJoin(s, idx.mem, idx.table, disk, done, firm, full, size, met, t, size + t.created, {h}, u);
      t := Plus(t, u);
      assert ms[..i + 1] == ms[..i] + [ms[i]];
      HashesPush(ms[..i], ms[i]);
      if known {
        MetJoin(old(idx.mem), mid, idx.mem, idx.table, idx.pow, FileReports(f, ms[..i]), [Report(f, ms[i])]);
      }
    }
    assert ms[..|ms|] == ms;
  }

  lemma ScannedIndex(s: Start, mem: Memory, table: map<Hash, Ptr>, disk: Disk, done: set<Hash>, firm: set<Hash>)
    requires Scanned(s, mem, table, disk, done, firm)
    ensures ValidIndex(mem, table)
  {
  }

  lemma FileReportsPush(f: nat, ms: seq<Meta>, i: nat)
    requires i <= |ms|
    ensures FileReports(f, ms[..0]) == []
    ensures i < |ms| ==> FileReports(f, ms[..i + 1]) == FileReports(f, ms[..i]) + [Report(f, ms[i])]
    ensures i < |ms| ==> ms[i].hash in HashesOf(ms)
  {
  }

  lemma NoHashes()
    ensures HashesOf([]) == {}
  {
  }

  lemma HashesPush(ms: seq<Meta>, m: Meta)
    ensures HashesOf(ms + [m]) == HashesOf(ms) + {m.hash}
  {
    assert forall x :: x in ms + [m] <==> x in ms || x == m;
  }

  lemma OneCounted(s: Start, done: set<Hash>, h: Hash, t: Tally)
    requires h !in done && Stirs(s, h) ==> t.marked + t.headerFixed > 0
    requires !Stirs(s, h) ==> t.marked + t.headerFixed == 0
    ensures Counted(s, done, {h}, t)
  {
  }

  /** Block files stay far below 4 GiB, so positions fit nDataPos. */
  ghost predicate Readable(disk: Disk) {
    |disk| <= 256 && forall f :: 0 <= f < |disk| ==> |disk[f]| < COUNT_MODULUS
  }

  lemma MetaGood(disk: Disk, hashOf: HashOf, recs: Catalog, f: nat, i: nat)
    requires Readable(disk) && IsCatalog(disk, hashOf, recs) && Listed(disk, f) && i < |Metas(disk, f, hashOf)|
    ensures GoodMeta(recs, disk, f, Metas(disk, f, hashOf)[i])
  {
    hide ScanFrom, BlockAt;
    var m := Metas(disk, f, hashOf)[i];
    assert m in Metas(disk, f, hashOf);
    ScanSound(disk[f], 0, 0, hashOf, i);
    BlockAtPos(disk[f], m.dataPos - 8, hashOf);
    BlockAtTx(disk[f], m.dataPos - 8, hashOf);
  }

  lemma BlockAtTx(d: seq<Byte>, pos: nat, hashOf: HashOf)
    requires pos + 8 <= |d| && SizeOk(d, pos)
    ensures BlockAt(d, pos, hashOf).Some? ==> BlockAt(d, pos, hashOf).value.nTx >= 1
  {
    hide ParseBlock;
  }

  /** The parsed blocks of each listed file, in listing order. */
  ghost predicate Parsed(disk: Disk, hashOf: HashOf, files: seq<nat>, parsed: seq<seq<Meta>>) {
    && |parsed| == |files|
    && files == Listing(disk, |disk|)
    && forall i :: 0 <= i < |files| ==> files[i] < |disk| && parsed[i] == Metas(disk, files[i], hashOf)
  }

  method ParseFiles(disk: Disk, hashOf: HashOf) returns (files: seq<nat>, parsed: seq<seq<Meta>>)
    requires Readable(disk)
    ensures Parsed(disk, hashOf, files, parsed) && files == Listing(disk, |disk|)
  {
    hide ScanFrom;
    files := ListFiles(disk);
    parsed := [];
    for i := 0 to |files|
      invariant |parsed| == i
      invariant forall j :: 0 <= j < i ==> files[j] < |disk| && parsed[j] == Metas(disk, files[j], hashOf)
    {
      assert files[i] in files;
      var blocks, skipped, corrupt := ScanFile(disk[files[i]], hashOf);
      parsed := parsed + [blocks];
    }
  }

  /** One pass of scan_apply_one_file over all files. */
  method ApplyPass(idx: BlockIndex, files: seq<nat>, parsed: seq<seq<Meta>>,
                   ghost s: Start, ghost disk: Disk, ghost hashOf: HashOf, ghost done: set<Hash>, ghost firm: set<Hash>,
                   ghost full: bool)
    returns (t: Tally)
    requires Readable(disk) && IsCatalog(disk, hashOf, s.recs) && Parsed(disk, hashOf, files, parsed)
    requires Scanned(s, idx.mem, idx.table, disk, done, firm)
    requires (full ==> idx.table.Keys == Known(s)) && (!full ==> firm == {})
    modifies idx`mem, idx`table
    ensures Running(s, idx.mem, idx.table, disk, done, firm, full, old(|idx.table.Keys|), s.recs.Keys, t)
    ensures s.recs.Keys <= old(idx.table.Keys) ==>
              idx.table == old(idx.table) && MetOnDisk(old(idx.mem), idx.mem, idx.table, idx.pow, disk, hashOf, files)
  {
    hide *;
    ghost var known := s.recs.Keys <= idx.table.Keys;
    ScannedIndex(s, idx.mem, idx.table, disk, done, firm);
    MetStart(idx.mem, idx.table, idx.pow, disk, hashOf);
    assert files[..0] == [];
    t := Tally(0, 0, 0);
    ghost var size := |idx.table.Keys|;
    AllMet(disk, hashOf, s.recs, files, parsed);
    MetByNext(parsed, 0);
    RunStart(s, idx.mem, idx.table, disk, done, firm, full);
    for i := 0 to |files|
      invariant Running(s, idx.mem, idx.table, disk, done, firm, full, size, MetBy(parsed, i), t)
      invariant known ==>
                  && idx.table == old(idx.table)
                  && MetOnDisk(old(idx.mem), idx.mem, idx.table, idx.pow, disk, hashOf, files[..i])
    {
      ghost var met := MetBy(parsed, i);
      ghost var mid := idx.mem;
      FileGood(disk, hashOf, s.recs, files, parsed, i);
      MetByNext(parsed, i);
      RunParts(s, idx.mem, idx.table, disk, done, firm, full, size, met, t);
      var u := ApplyFile(idx, files[i], parsed[i], s, disk, done + met, NextFirm(full, firm, met), full);
      RunJoin(s, idx.mem, idx.table, disk, done, firm, full, size, met, t, size + t.created, HashesOf(parsed[i]), u);
      t := Plus(t, u);
      if known {
        MetNext(old(idx.mem), mid, idx.mem, idx.table, idx.pow, disk, hashOf, files, i);
      }
    }
    assert files[..|files|] == files;
  }

  /** The memory after one pass over the given files, every block of which has an entry. */
  ghost predicate MetOnDisk(mem: Memory, mem': Memory, table: map<Hash, Ptr>, pow: Proof, disk: Disk, hashOf: HashOf,
                            files: seq<nat>) {
    && (forall i :: 0 <= i < |files| ==> files[i] < |disk|)
    && Met(mem, mem', table, pow, Reports(disk, hashOf, files))
  }

  lemma MetStart(mem: Memory, table: map<Hash, Ptr>, pow: Proof, disk: Disk, hashOf: HashOf)
    requires ValidIndex(mem, table)
    ensures MetOnDisk(mem, mem, table, pow, disk, hashOf, [])
  {
    hide Met;
    MetNone(mem, table, pow);
  }

  lemma MetNext(mem: Memory, mid: Memory, mem': Memory, table: map<Hash, Ptr>, pow: Proof, disk: Disk, hashOf: HashOf,
                files: seq<nat>, i: nat)
    requires i < |files| && files[i] < |disk| && MetOnDisk(mem, mid, table, pow, disk, hashOf, files[..i])
    requires Met(mid, mem', table, pow, FileReports(files[i], Metas(disk, files[i], hashOf)))
    ensures MetOnDisk(mem, mem', table, pow, disk, hashOf, files[..i + 1])
  {
    hide Met, FileReports, ScanFrom;
    assert files[..i + 1][..i] == files[..i];
    MetJoin(mem, mid, mem', table, pow, Reports(disk, hashOf, files[..i]), FileReports(files[i], Metas(disk, files[i], hashOf)));
  }

  /** After a whole pass every block on disk has been met. */
  lemma PassDone(s: Start, mem: Memory, table: map<Hash, Ptr>, disk: Disk, done: set<Hash>, firm: set<Hash>, full: bool,
                 size: nat, t: Tally)
    requires Running(s, mem, table, disk, done, firm, full, size, s.recs.Keys, t)
    ensures Scanned(s, mem, table, disk, s.recs.Keys, if full then s.recs.Keys else {})
    ensures |table.Keys| == size + t.created && t.created <= t.marked && Counted(s, done, s.recs.Keys, t)
  {
    hide Counted, EntryOk;
    assert done + s.recs.Keys == s.recs.Keys;
    assert full ==> firm + s.recs.Keys == s.recs.Keys;
  }

  lemma FileGood(disk: Disk, hashOf: HashOf, recs: Catalog, files: seq<nat>, parsed: seq<seq<Meta>>, i: nat)
    requires Readable(disk) && IsCatalog(disk, hashOf, recs) && Parsed(disk, hashOf, files, parsed) && i < |files|
    ensures |parsed| == |files| && files[i] < |disk| && parsed[i] == Metas(disk, files[i], hashOf)
    ensures HashesOf(parsed[i]) <= recs.Keys
    ensures forall k :: 0 <= k < |parsed[i]| ==> GoodMeta(recs, disk, files[i], parsed[i][k])
  {
    hide GoodMeta, IsCatalog, ScanFrom;
    assert files[i] in files;
    forall k | 0 <= k < |parsed[i]| ensures GoodMeta(recs, disk, files[i], parsed[i][k]) {
      MetaGood(disk, hashOf, recs, files[i], k);
    }
    forall m | m in parsed[i] ensures m.hash in recs {
      MetaKnown(disk, hashOf, recs, files[i], m);
    }
  }

  lemma MetaKnown(disk: Disk, hashOf: HashOf, recs: Catalog, f: nat, m: Meta)
    requires IsCatalog(disk, hashOf, recs) && Listed(disk, f) && m in Metas(disk, f, hashOf)
    ensures m.hash in recs
  {
    hide ScanFrom;
  }

  /** The blocks of the first n files. */
  ghost function MetBy(parsed: seq<seq<Meta>>, n: nat): set<Hash>
    requires n <= |parsed|
  {
    if n == 0 then {} else MetBy(parsed, n - 1) + HashesOf(parsed[n - 1])
  }

  lemma MetByNext(parsed: seq<seq<Meta>>, n: nat)
    requires n <= |parsed|
    ensures MetBy(parsed, 0) == {} && (n < |parsed| ==> MetBy(parsed, n + 1) == MetBy(parsed, n) + HashesOf(parsed[n]))
  {
    hide HashesOf;
  }

  lemma {:induction false} MetByHas(parsed: seq<seq<Meta>>, n: nat, j: nat)
    requires j < n <= |parsed|
    ensures HashesOf(parsed[j]) <= MetBy(parsed, n)
    decreases n
  {
    hide HashesOf;
    if j == n - 1 {
    } else {
      MetByHas(parsed, n - 1, j);
    }
  }

  lemma {:induction false} MetByKnown(disk: Disk, hashOf: HashOf, recs: Catalog, files: seq<nat>, parsed: seq<seq<Meta>>, n: nat)
    requires IsCatalog(disk, hashOf, recs) && Parsed(disk, hashOf, files, parsed) && n <= |parsed|
    ensures MetBy(parsed, n) <= recs.Keys
    decreases n
  {
    hide ScanFrom;
    if n == 0 {
    } else {
      MetByKnown(disk, hashOf, recs, files, parsed, n - 1);
      assert files[n - 1] in files;
    }
  }

  lemma AllMet(disk: Disk, hashOf: HashOf, recs: Catalog, files: seq<nat>, parsed: seq<seq<Meta>>)
    requires IsCatalog(disk, hashOf, recs) && Parsed(disk, hashOf, files, parsed)
    ensures |parsed| == |files| && MetBy(parsed, |parsed|) == recs.Keys
  {
    hide ScanFrom, MetBy, Missing;
    MetByKnown(disk, hashOf, recs, files, parsed, |parsed|);
    forall h | h in recs ensures h in MetBy(parsed, |parsed|) {
      var f: nat, m :| Listed(disk, f) && m in Metas(disk, f, hashOf) && m.hash == h;
      assert f in files;
      var j :| 0 <= j < |files| && files[j] == f;
      assert m.hash in HashesOf(parsed[j]);
      MetByHas(parsed, |parsed|, j);
    }
  }

  /** The retry passes: at most three, until one marks nothing new. The index is complete by now, so
      every block at height 0 finds its parent. */
  method RetryPasses(idx: BlockIndex, files: seq<nat>, parsed: seq<seq<Meta>>,
                     ghost s: Start, ghost disk: Disk, ghost hashOf: HashOf)
    returns (marked: nat)
    requires Readable(disk) && IsCatalog(disk, hashOf, s.recs) && Parsed(disk, hashOf, files, parsed)
    requires Scanned(s, idx.mem, idx.table, disk, s.recs.Keys, {})
    modifies idx`mem, idx`table
    ensures Scanned(s, idx.mem, idx.table, disk, s.recs.Keys, s.recs.Keys)
  {
    hide *;
    marked := 0;
    var retry := 0;
    ghost var firm: set<Hash> := {};
    while retry < 3
      invariant 0 <= retry <= 3
      invariant Scanned(s, idx.mem, idx.table, disk, s.recs.Keys, firm)
      invariant firm == if retry == 0 then {} else s.recs.Keys
    {
      ScannedFull(s, idx.mem, idx.table, disk, firm);
      ghost var size := |idx.table.Keys|;
      var t := ApplyPass(idx, files, parsed, s, disk, hashOf, s.recs.Keys, firm, true);
      PassDone(s, idx.mem, idx.table, disk, s.recs.Keys, firm, true, size, t);
      firm := s.recs.Keys;
      marked := marked + t.marked + t.headerFixed;
      if t.marked + t.headerFixed == 0 {
        break;
      }
      retry := retry + 1;
    }
  }

  lemma ScannedFull(s: Start, mem: Memory, table: map<Hash, Ptr>, disk: Disk, firm: set<Hash>)
    requires Scanned(s, mem, table, disk, s.recs.Keys, firm)
    ensures table.Keys == Known(s)
  {
  }
}
