/** How blocks are written to the block files, and that the scan reads exactly that back: the header
    in the order of section 7.6 of the Zcash Protocol Specification, compact sizes, the transaction
    count. The scan keeps the first 1600 bytes of a block, which always reach past the count. */
module BlockWire {
  import opened Bytes
  import opened Common
  import opened BlockIndexModel
  import opened BlockFileScan

  /** stream_write_compact_size */
  function CompactBytes(n: nat): seq<Byte>
    requires n < 0x1_0000_0000_0000_0000
  {
    if n < 253 then [n]
    else if n <= 0xffff then [253] + Le(n, 2)
    else if n <= 0xffff_ffff then [254] + Le(n, 4)
    else [255] + Le(n, 8)
  }

  predicate HeaderOk(h: Header) {
    && -0x8000_0000 <= h.version < 0x8000_0000
    && |h.prev| == 32 && |h.merkle| == 32 && |h.sapling| == 32 && |h.nonce| == 32 && |h.solution| <= 1344
  }

  /** block_header_serialize */
  function HeaderBytes(h: Header): seq<Byte>
    requires HeaderOk(h)
  {
    Le(h.version % 0x1_0000_0000, 4) + h.prev + h.merkle + h.sapling + Le(h.time, 4) + Le(h.bits, 4) + h.nonce
    + CompactBytes(|h.solution|) + h.solution
  }

  lemma TwoBytes()
    ensures Limit(2) == 0x1_0000
  {
  }

  /** A compact size reads back as what was written, wherever it stands. */
  lemma CompactReads(pre: seq<Byte>, n: nat, rest: seq<Byte>)
    requires n < 0x1_0000_0000_0000_0000
    ensures CompactSize(pre + CompactBytes(n) + rest, |pre|) == Some((n, |pre| + |CompactBytes(n)|))
  {
    hide Le, UnLe, Limit;
    var s := pre + CompactBytes(n) + rest;
    TwoBytes();
    Limits();
    assert s[|pre|] == CompactBytes(n)[0];
    if n >= 253 {
      var w := if n <= 0xffff then 2 else if n <= 0xffff_ffff then 4 else 8;
      assert Slice(s, |pre| + 1, w) == Le(n, w);
      LeRoundTrip(n, w);
    }
  }

  /** The fixed fields of a written header, at their offsets. */
  lemma HeaderFields(h: Header, rest: seq<Byte>)
    requires HeaderOk(h)
    ensures var s, c := HeaderBytes(h) + rest, CompactBytes(|h.solution|);
            && |HeaderBytes(h)| == 140 + |c| + |h.solution|
            && s[0..4] == Le(h.version % 0x1_0000_0000, 4) && s[4..36] == h.prev && s[36..68] == h.merkle
            && s[68..100] == h.sapling && s[100..104] == Le(h.time, 4) && s[104..108] == Le(h.bits, 4) && s[108..140] == h.nonce
            && s == s[..140] + c + (h.solution + rest) && s[140 + |c|..140 + |c| + |h.solution|] == h.solution
  {
    hide Le, CompactBytes;
    var s, c := HeaderBytes(h) + rest, CompactBytes(|h.solution|);
    var a := Le(h.version % 0x1_0000_0000, 4) + h.prev + h.merkle + h.sapling;
    var b := Le(h.time, 4) + Le(h.bits, 4) + h.nonce;
    assert |a| == 100 && |b| == 40;
    assert s == a + b + (c + h.solution + rest);
    assert s[..100] == a && s[100..140] == b;
    FirstFields(h, s, a);
    SecondFields(h, s, b);
    assert s[..140] == a + b;
  }

  lemma FirstFields(h: Header, s: seq<Byte>, a: seq<Byte>)
    requires HeaderOk(h) && |s| >= 100 && s[..100] == a
    requires a == Le(h.version % 0x1_0000_0000, 4) + h.prev + h.merkle + h.sapling
    ensures s[0..4] == Le(h.version % 0x1_0000_0000, 4) && s[4..36] == h.prev && s[36..68] == h.merkle && s[68..100] == h.sapling
  {
    hide Le;
    assert a[0..4] == Le(h.version % 0x1_0000_0000, 4) && a[4..36] == h.prev && a[36..68] == h.merkle && a[68..100] == h.sapling;
    SubSlice(s, 0, 100, 0, 4);
    SubSlice(s, 0, 100, 4, 36);
    SubSlice(s, 0, 100, 36, 68);
    SubSlice(s, 0, 100, 68, 100);
  }

  lemma SecondFields(h: Header, s: seq<Byte>, b: seq<Byte>)
    requires HeaderOk(h) && |s| >= 140 && s[100..140] == b && b == Le(h.time, 4) + Le(h.bits, 4) + h.nonce
    ensures s[100..104] == Le(h.time, 4) && s[104..108] == Le(h.bits, 4) && s[108..140] == h.nonce
  {
    hide Le;
    assert b[0..4] == Le(h.time, 4) && b[4..8] == Le(h.bits, 4) && b[8..40] == h.nonce;
    SubSlice(s, 100, 140, 0, 4);
    SubSlice(s, 100, 140, 4, 8);
    SubSlice(s, 100, 140, 8, 40);
  }

  lemma VersionReads(v: int)
    requires -0x8000_0000 <= v < 0x8000_0000
    ensures I32(v % 0x1_0000_0000) == v
  {
  }

  /** A written header reads back, whatever follows it. */
  lemma HeaderReads(h: Header, rest: seq<Byte>)
    requires HeaderOk(h)
    ensures ParseHeader(HeaderBytes(h) + rest) == Some((h, |HeaderBytes(h)|))
  {
    hide Le, HeaderBytes, CompactSize, CompactBytes, U32, I32;
    var s, c := HeaderBytes(h) + rest, CompactBytes(|h.solution|);
    HeaderFields(h, rest);
    CompactReads(s[..140], |h.solution|, h.solution + rest);
    U32RoundTrip(h.version % 0x1_0000_0000);
    U32RoundTrip(h.time);
    U32RoundTrip(h.bits);
    VersionReads(h.version);
  }

  /** A block as it is written: header, transaction count, and the transactions' bytes. */
  datatype Written = Written(header: Header, count: nat, body: seq<Byte>)

  predicate WrittenOk(w: Written) {
    HeaderOk(w.header) && w.count < 0x1_0000_0000_0000_0000
  }

  /** block_serialize */
  function BlockBytes(w: Written): seq<Byte>
    requires WrittenOk(w)
  {
    HeaderBytes(w.header) + CompactBytes(w.count) + w.body
  }

  /** What the scan is to report of a block whose first byte lies at pos: its header's fields and its
      transaction count, one if that is zero or beyond 100000. */
  function MetaOf(w: Written, pos: nat, hashOf: HashOf): Meta {
    Meta(hashOf(w.header), w.header.prev, w.header.version, w.header.time, w.header.bits,
         if 1 <= w.count <= 100000 then w.count else 1, pos)
  }

  lemma HeadReaches(w: Written)
    requires WrittenOk(w)
    ensures |HeaderBytes(w.header) + CompactBytes(w.count)| <= 1600 && |BlockBytes(w)| > 140
    ensures var n := ReadSize(|BlockBytes(w)|);
            exists rest :: BlockBytes(w)[..n] == HeaderBytes(w.header) + CompactBytes(w.count) + rest
  {
    hide Le;
    HeaderFields(w.header, []);
    assert HeaderBytes(w.header) + [] == HeaderBytes(w.header);
    var head, n := HeaderBytes(w.header) + CompactBytes(w.count), ReadSize(|BlockBytes(w)|);
    var rest := w.body[..n - |head|];
    assert BlockBytes(w)[..n] == head + rest;
  }

  /** The first 1600 bytes of a written block parse to what was written. */
  lemma BlockReads(w: Written, pos: nat, hashOf: HashOf)
    requires WrittenOk(w)
    ensures ParseBlock(BlockBytes(w)[..ReadSize(|BlockBytes(w)|)], pos, hashOf) == Some(MetaOf(w, pos, hashOf))
  {
    hide HeaderBytes, CompactBytes, ParseHeader, CompactSize;
    HeadReaches(w);
    var s := BlockBytes(w)[..ReadSize(|BlockBytes(w)|)];
    var rest :| s == HeaderBytes(w.header) + CompactBytes(w.count) + rest;
    assert s == HeaderBytes(w.header) + (CompactBytes(w.count) + rest);
    HeaderReads(w.header, CompactBytes(w.count) + rest);
    CompactReads(HeaderBytes(w.header), w.count, rest);
  }

  /** A written block in a file, behind bytes that are no frame. */
  datatype Laid = Laid(gap: seq<Byte>, block: Written)

  ghost predicate LaidOk(ls: seq<Laid>, tail: seq<Byte>) {
    && NoMagic(tail)
    && forall i :: 0 <= i < |ls| ==>
         NoMagic(ls[i].gap) && WrittenOk(ls[i].block) && |BlockBytes(ls[i].block)| <= 2000000
  }

  /** The blocks as the bytes they are laid down as. */
  function PlacedOf(ls: seq<Laid>): seq<Placed>
    requires forall i :: 0 <= i < |ls| ==> WrittenOk(ls[i].block)
  {
    seq(|ls|, i requires 0 <= i < |ls| => Placed(ls[i].gap, BlockBytes(ls[i].block)))
  }

  /** Where block i begins: behind the gaps and frames before it, its own gap and its eight bytes of
      magic and length. */
  function StartOf(ls: seq<Laid>, i: nat): nat
    requires i < |ls| && forall j :: 0 <= j < |ls| ==> WrittenOk(ls[j].block)
  {
    (if i == 0 then 0 else StartOf(ls, i - 1) + |BlockBytes(ls[i - 1].block)|) + |ls[i].gap| + 8
  }

  /** What is reported from a file of written blocks: one entry per block, in order. */
  lemma ScanReadsBlocks(ls: seq<Laid>, tail: seq<Byte>, hashOf: HashOf)
    requires LaidOk(ls, tail)
    ensures ScanFrom(Layout(PlacedOf(ls), tail), 0, 0, hashOf) ==
              seq(|ls|, i requires 0 <= i < |ls| => MetaOf(ls[i].block, StartOf(ls, i), hashOf))
  {
    hide ScanFrom, Layout, Placements, BlockBytes, StartOf, MetaOf;
    var ps := PlacedOf(ls);
    forall i | 0 <= i < |ls| ensures 140 <= |ps[i].block| <= 2000000 {
      HeadReaches(ls[i].block);
    }
    ScanInvertsFraming([], ps, tail, 0, hashOf);
    assert [] + Layout(ps, tail) == Layout(ps, tail);
    PlacementsRead(ls, 0, hashOf);
    assert ps[0..] == ps;
    assert seq(|ls| - 0, i requires 0 <= i < |ls| - 0 => MetaOf(ls[0 + i].block, StartOf(ls, 0 + i), hashOf)) ==
           seq(|ls|, i requires 0 <= i < |ls| => MetaOf(ls[i].block, StartOf(ls, i), hashOf));
  }

  lemma {:induction false} PlacementsRead(ls: seq<Laid>, k: nat, hashOf: HashOf)
    requires k <= |ls| && forall i :: 0 <= i < |ls| ==> WrittenOk(ls[i].block)
    ensures Placements(PlacedOf(ls)[k..], if k == 0 then 0 else StartOf(ls, k - 1) + |BlockBytes(ls[k - 1].block)|, 0, hashOf)
            == seq(|ls| - k, i requires 0 <= i < |ls| - k => MetaOf(ls[k + i].block, StartOf(ls, k + i), hashOf))
    decreases |ls| - k
  {
    hide BlockBytes, MetaOf, ParseBlock, Placements;
    if k == |ls| {
      NoPlacements(if k == 0 then 0 else StartOf(ls, k - 1) + |BlockBytes(ls[k - 1].block)|, hashOf);
    } else {
      var ps := PlacedOf(ls)[k..];
      assert ps[0] == Placed(ls[k].gap, BlockBytes(ls[k].block)) && ps[1..] == PlacedOf(ls)[k + 1..];
      BlockReads(ls[k].block, StartOf(ls, k), hashOf);
      PlacementsNext(ps, StartOf(ls, k) - 8 - |ls[k].gap|, hashOf, MetaOf(ls[k].block, StartOf(ls, k), hashOf));
      PlacementsRead(ls, k + 1, hashOf);
    }
  }

  lemma NoPlacements(pos: nat, hashOf: HashOf)
    ensures Placements([], pos, 0, hashOf) == []
  {
  }

  lemma PlacementsNext(ps: seq<Placed>, pos: nat, hashOf: HashOf, m: Meta)
    requires ps != [] && ParseBlock(ps[0].block[..ReadSize(|ps[0].block|)], pos + |ps[0].gap| + 8, hashOf) == Some(m)
    ensures Placements(ps, pos, 0, hashOf) ==
              [m] + Placements(ps[1..], pos + |ps[0].gap| + 8 + |ps[0].block|, 0, hashOf)
  {
    hide ParseBlock;
  }
}
