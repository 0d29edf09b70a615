/** scan_parse_one_file: finds framed blocks in the raw bytes of a blk*.dat file. A frame is
    the magic, a little-endian length, and that many bytes of block. */
module BlockFileScan {
  import opened Bytes
  import opened Common
  import opened BlockIndexModel

  /** ZCL_BLOCK_MAGIC 0x6427e924 as it lies on disk. */
  const MAGIC: seq<Byte> := [0x24, 0xe9, 0x27, 0x64]

  const HEADER_READ_SIZE: nat := 1600
  const MAX_SOLUTION_SIZE: nat := 1344

  /** Fixed header fields and the Equihash solution, in wire order (section 7.6 of the Zcash
      Protocol Specification). */
  datatype Header = Header(version: int, prev: Hash, merkle: seq<Byte>, sapling: seq<Byte>, time: Count, bits: Count,
                           nonce: seq<Byte>, solution: seq<Byte>)

  /** What the scan keeps of a block: its hash, the parent's hash, three header fields, the
      transaction count and the position of its first byte in the file. */
  datatype Meta = Meta(hash: Hash, prev: Hash, version: int, time: Count, bits: Count, nTx: Count, dataPos: nat)

  type HashOf = Header -> Hash

  function Slice(s: seq<Byte>, i: nat, n: nat): (r: seq<Byte>)
    requires i + n <= |s|
    ensures |r| == n
  {
    s[i..i + n]
  }

  /** stream_read_compact_size at offset i: the value and the offset after it. */
  function CompactSize(s: seq<Byte>, i: nat): (r: Option<(nat, nat)>)
    ensures r.Some? ==> i < r.value.1 <= |s|
  {
    if i >= |s| then None
    else if s[i] < 253 then Some((s[i], i + 1))
    else
      var n := if s[i] == 253 then 2 else if s[i] == 254 then 4 else 8;
      if i + 1 + n <= |s| then Some((UnLe(Slice(s, i + 1, n)), i + 1 + n)) else None
  }

  function I32(v: nat): int {
    if v < 0x8000_0000 then v else v - 0x1_0000_0000
  }

  /** block_header_deserialize: the header and the offset after it. */
  function ParseHeader(s: seq<Byte>): (r: Option<(Header, nat)>)
    ensures r.Some? ==> 140 < r.value.1 <= |s| && r.value.0.prev == Slice(s, 4, 32)
  {
    if |s| < 140 then None
    else
      match CompactSize(s, 140)
      case None => None
      case Some((n, i)) =>
        if n > MAX_SOLUTION_SIZE || i + n > |s| then None
        else
          Some((Header(I32(U32(Slice(s, 0, 4))), Slice(s, 4, 32), Slice(s, 36, 32), Slice(s, 68, 32),
                       U32(Slice(s, 100, 4)), U32(Slice(s, 104, 4)), Slice(s, 108, 32), Slice(s, i, n)), i + n))
  }

  /** The transaction count after the header: an absent, zero or implausible count reads as one. */
  function TxCount(s: seq<Byte>, i: nat): (c: Count)
    ensures 1 <= c <= 100000
  {
    match CompactSize(s, i)
    case None => 1
    case Some((n, _)) => if n == 0 || n > 100000 then 1 else n
  }

  /** What is kept of a block whose bytes start with s, found at pos. */
  function ParseBlock(s: seq<Byte>, pos: nat, hashOf: HashOf): (r: Option<Meta>)
    ensures r.Some? ==> r.value.dataPos == pos && |s| > 140 && r.value.prev == Slice(s, 4, 32) && r.value.nTx >= 1
  {
    match ParseHeader(s)
    case None => None
    case Some((h, i)) => Some(Meta(hashOf(h), h.prev, h.version, h.time, h.bits, TxCount(s, i), pos))
  }

  /** The magic reads as the network's number. */
  lemma MagicReads()
    ensures |MAGIC| == 4 && U32(MAGIC) == 0x6427_e924
  {
    assert MAGIC[1..] == [0xe9, 0x27, 0x64] && MAGIC[1..][1..] == [0x27, 0x64] && MAGIC[1..][1..][1..] == [0x64];
    assert UnLe([0x64]) == 0x64 by { assert [0x64][1..] == []; }
    assert UnLe([0x27, 0x64]) == 0x6427;
    assert UnLe([0xe9, 0x27, 0x64]) == 0x6427e9;
  }

  predicate MagicAt(d: seq<Byte>, pos: nat) {
    pos + 4 <= |d| && d[pos..pos + 4] == MAGIC
  }

  /** The position of the first frame start at or after pos that leaves room for a header. */
  function NextMagic(d: seq<Byte>, pos: nat): (r: Option<nat>)
    ensures r.Some? ==> pos <= r.value && r.value + 148 <= |d| && MagicAt(d, r.value)
    ensures forall i :: pos <= i < |d| - 147 && (r.None? || i < r.value) ==> !MagicAt(d, i)
    decreases |d| - pos
  {
    if pos + 148 > |d| then None
    else if MagicAt(d, pos) then Some(pos)
    else NextMagic(d, pos + 1)
  }

  /** scan_find_next_magic */
  method FindNextMagic(d: seq<Byte>, start: nat) returns (r: Option<nat>)
    ensures r == NextMagic(d, start)
  {
    var pos := start;
    while pos + 148 <= |d|
      invariant start <= pos && NextMagic(d, start) == NextMagic(d, pos)
    {
      if d[pos..pos + 4] == MAGIC {
        return Some(pos);
      }
      pos := pos + 1;
    }
    return None;
  }

  function SizeAt(d: seq<Byte>, pos: nat): nat
    requires pos + 8 <= |d|
  {
    U32(Slice(d, pos + 4, 4))
  }

  /** The length field is one a block can have and the block lies inside the file. */
  predicate SizeOk(d: seq<Byte>, pos: nat)
    requires pos + 8 <= |d|
  {
    140 <= SizeAt(d, pos) <= 2000000 && pos + 8 + SizeAt(d, pos) <= |d|
  }

  function ReadSize(size: nat): nat {
    if size < HEADER_READ_SIZE then size else HEADER_READ_SIZE
  }

  function BlockAt(d: seq<Byte>, pos: nat, hashOf: HashOf): Option<Meta>
    requires pos + 8 <= |d| && SizeOk(d, pos)
  {
    ParseBlock(Slice(d, pos + 8, ReadSize(SizeAt(d, pos))), pos + 8, hashOf)
  }

  /** The blocks the scan reports from pos on, errs blocks having failed to parse in a row. */
  function ScanFrom(d: seq<Byte>, pos: nat, errs: nat, hashOf: HashOf): seq<Meta>
    decreases |d| - pos
  {
    if pos + 148 > |d| then []
    else if !MagicAt(d, pos) then
      match NextMagic(d, pos + 1)
      case None => []
      case Some(next) => ScanFrom(d, next, errs, hashOf)
    else if !SizeOk(d, pos) then ScanFrom(d, pos + 8, errs, hashOf)
    else
      var next := pos + 8 + SizeAt(d, pos);
      match BlockAt(d, pos, hashOf)
      case None => if errs + 1 > 20 then [] else ScanFrom(d, next, errs + 1, hashOf)
      case Some(m) => [m] + ScanFrom(d, next, 0, hashOf)
  }

  /** One turn of the scan. */
  lemma ScanTurn(d: seq<Byte>, pos: nat, errs: nat, hashOf: HashOf)
    ensures pos + 148 > |d| ==> ScanFrom(d, pos, errs, hashOf) == []
    ensures pos + 148 <= |d| && !MagicAt(d, pos) ==>
              ScanFrom(d, pos, errs, hashOf) ==
              match NextMagic(d, pos + 1) { case None => [] case Some(next) => ScanFrom(d, next, errs, hashOf) }
    ensures pos + 148 <= |d| && MagicAt(d, pos) && !SizeOk(d, pos) ==>
              ScanFrom(d, pos, errs, hashOf) == ScanFrom(d, pos + 8, errs, hashOf)
    ensures pos + 148 <= |d| && MagicAt(d, pos) && SizeOk(d, pos) ==>
              var next := pos + 8 + SizeAt(d, pos);
              ScanFrom(d, pos, errs, hashOf) ==
              match BlockAt(d, pos, hashOf) {
                case None => if errs + 1 > 20 then [] else ScanFrom(d, next, errs + 1, hashOf)
                case Some(m) => [m] + ScanFrom(d, next, 0, hashOf)
              }
  {
    hide NextMagic, BlockAt, MagicAt, SizeOk, SizeAt;
  }

  /** scan_parse_one_file over a mapped file. */
  method ScanFile(d: seq<Byte>, hashOf: HashOf) returns (blocks: seq<Meta>, skipped: nat, corrupt: nat)
    ensures blocks == ScanFrom(d, 0, 0, hashOf)
  {
    hide NextMagic, BlockAt, MagicAt, SizeOk, SizeAt, ScanFrom;
    blocks, skipped, corrupt := [], 0, 0;
    var errs, pos := 0, 0;
    ghost var rest := ScanFrom(d, 0, 0, hashOf);
    while pos + 148 <= |d|
      invariant blocks + rest == ScanFrom(d, 0, 0, hashOf) && rest == ScanFrom(d, pos, errs, hashOf)
    {
      ScanTurn(d, pos, errs, hashOf);
      if !MagicAt(d, pos) {
        var next := FindNextMagic(d, pos + 1);
        if next.None? {
          break;
        }
        pos := next.value;
        skipped := skipped + 1;
      } else if !SizeOk(d, pos) {
        pos := pos + 8;
      } else {
        var m := BlockAt(d, pos, hashOf);
        if m.None? {
          errs := errs + 1;
          corrupt := corrupt + 1;
          if errs > 20 {
            break;
          }
          pos := pos + 8 + SizeAt(d, pos);
        } else {
          errs := 0;
          blocks, rest := blocks + [m.value], rest[1..];
          pos := pos + 8 + SizeAt(d, pos);
        }
      }
    }
    ScanTurn(d, pos, errs, hashOf);
  }

  /** A reported block is a complete frame of the file, and says what its bytes say. */
  ghost predicate Reported(d: seq<Byte>, m: Meta, hashOf: HashOf) {
    && 8 <= m.dataPos <= |d| && MagicAt(d, m.dataPos - 8)
    && SizeOk(d, m.dataPos - 8) && BlockAt(d, m.dataPos - 8, hashOf) == Some(m)
  }

  /** The end of a reported block. */
  ghost function EndOf(d: seq<Byte>, m: Meta): nat
    requires 8 <= m.dataPos <= |d|
  {
    m.dataPos + SizeAt(d, m.dataPos - 8)
  }

  /** On arbitrary bytes every report is a frame inside the file, and the frames reported
      come in file order without overlap. */
  lemma {:induction false} ScanSound(d: seq<Byte>, pos: nat, errs: nat, hashOf: HashOf, i: nat)
    requires i < |ScanFrom(d, pos, errs, hashOf)|
    ensures var s := ScanFrom(d, pos, errs, hashOf);
            && Reported(d, s[i], hashOf) && pos + 8 <= s[i].dataPos
            && (i + 1 < |s| ==> EndOf(d, s[i]) + 8 <= s[i + 1].dataPos)
    decreases |d| - pos
  {
    hide NextMagic, BlockAt, MagicAt, SizeOk, SizeAt, ScanFrom;
    ScanTurn(d, pos, errs, hashOf);
    if !MagicAt(d, pos) {
      ScanSound(d, NextMagic(d, pos + 1).value, errs, hashOf, i);
    } else if !SizeOk(d, pos) {
      ScanSound(d, pos + 8, errs, hashOf, i);
    } else {
      var next := pos + 8 + SizeAt(d, pos);
      var m := BlockAt(d, pos, hashOf);
      if m.None? {
        ScanSound(d, next, errs + 1, hashOf, i);
      } else {
        assert m.value.dataPos == pos + 8 by { BlockAtPos(d, pos, hashOf); }
        if i > 0 {
          ScanSound(d, next, 0, hashOf, i - 1);
        } else if |ScanFrom(d, pos, errs, hashOf)| > 1 {
          ScanSound(d, next, 0, hashOf, 0);
        }
      }
    }
  }

  lemma BlockAtPos(d: seq<Byte>, pos: nat, hashOf: HashOf)
    requires pos + 8 <= |d| && SizeOk(d, pos)
    ensures BlockAt(d, pos, hashOf).Some? ==>
              BlockAt(d, pos, hashOf).value.dataPos == pos + 8 && pos + 44 <= |d|
              && BlockAt(d, pos, hashOf).value.prev == d[pos + 12..pos + 44]
  {
    hide ParseBlock;
    if BlockAt(d, pos, hashOf).Some? {
      var s := Slice(d, pos + 8, ReadSize(SizeAt(d, pos)));
      SubSlice(d, pos + 8, pos + 8 + |s|, 4, 36);
    }
  }

  /** A block in a file, preceded by bytes that are no frame. */
  datatype Placed = Placed(gap: seq<Byte>, block: seq<Byte>)

  function Frame(block: seq<Byte>): (f: seq<Byte>)
    ensures |f| == 8 + |block|
  {
    MAGIC + Le(|block|, 4) + block
  }

  /** The file holding the placed blocks and a last gap. */
  function Layout(ps: seq<Placed>, tail: seq<Byte>): seq<Byte> {
    if ps == [] then tail else ps[0].gap + Frame(ps[0].block) + Layout(ps[1..], tail)
  }

  ghost predicate NoMagic(s: seq<Byte>) {
    forall i :: 0 <= i < |s| ==> !MagicAt(s, i)
  }

  /** Gaps hold no magic and blocks have a length the scan accepts. */
  ghost predicate GoodLayout(ps: seq<Placed>, tail: seq<Byte>) {
    && NoMagic(tail)
    && forall i :: 0 <= i < |ps| ==> NoMagic(ps[i].gap) && 140 <= |ps[i].block| <= 2000000
  }

  /** The records the placed blocks amount to, from offset pos on: each that parses, at the
      start of its bytes, until more than twenty in a row do not. */
  function Placements(ps: seq<Placed>, pos: nat, errs: nat, hashOf: HashOf): seq<Meta> {
    if ps == [] then []
    else
      var start := pos + |ps[0].gap| + 8;
      var next := start + |ps[0].block|;
      match ParseBlock(ps[0].block[..ReadSize(|ps[0].block|)], start, hashOf)
      case None => if errs + 1 > 20 then [] else Placements(ps[1..], next, errs + 1, hashOf)
      case Some(m) => [m] + Placements(ps[1..], next, 0, hashOf)
  }

  /** A gap followed by a frame hides no magic across the seam: the magic has no border. */
  lemma SeamHasNoMagic(pre: seq<Byte>, gap: seq<Byte>, rest: seq<Byte>, i: nat)
    requires NoMagic(gap) && i < |gap| && (rest == [] || (|rest| >= 4 && rest[..4] == MAGIC))
    ensures !MagicAt(pre + gap + rest, |pre| + i)
  {
    var d := pre + gap + rest;
    var at := |pre| + i;
    if i + 4 <= |gap| {
      SliceInside(pre, gap, rest, i);
      assert !MagicAt(gap, i);
    } else if rest != [] {
      var k := |gap| - i;
      assert d[at..at + 4][k] == d[at + k] == rest[0] == rest[..4][0] == MAGIC[0];
      assert MAGIC[k] != MAGIC[0];
    }
  }

  lemma SliceInside(pre: seq<Byte>, gap: seq<Byte>, rest: seq<Byte>, i: nat)
    requires i + 4 <= |gap|
    ensures (pre + gap + rest)[|pre| + i..|pre| + i + 4] == gap[i..i + 4]
  {
    var d := pre + gap + rest;
    assert d[|pre|..|pre| + |gap|] == gap;
    assert d[|pre| + i..|pre| + i + 4] == d[|pre|..|pre| + |gap|][i..i + 4];
  }

  /** Over a gap the search lands on the frame behind it. */
  lemma GapSkipped(pre: seq<Byte>, gap: seq<Byte>, rest: seq<Byte>, errs: nat, hashOf: HashOf)
    requires NoMagic(gap) && (rest == [] || (|rest| >= 148 && rest[..4] == MAGIC))
    ensures var d := pre + gap + rest;
            ScanFrom(d, |pre|, errs, hashOf) == if rest == [] then [] else ScanFrom(d, |pre| + |gap|, errs, hashOf)
  {
    hide ScanFrom, BlockAt, SizeOk, SizeAt;
    var d := pre + gap + rest;
    ScanTurn(d, |pre|, errs, hashOf);
    forall i | |pre| <= i < |pre| + |gap| ensures !MagicAt(d, i) {
      SeamHasNoMagic(pre, gap, rest, i - |pre|);
    }
    if rest != [] {
      var f := |pre| + |gap|;
      assert d[f..f + 4] == rest[..4];
      assert MagicAt(d, f);
      if gap != [] {
        assert NextMagic(d, |pre| + 1) == Some(f);
      }
    } else if gap != [] && |pre| + 148 <= |d| {
      assert NextMagic(d, |pre| + 1).None?;
    }
  }

  lemma FrameFields(pre: seq<Byte>, block: seq<Byte>, rest: seq<Byte>, hashOf: HashOf)
    requires 140 <= |block| <= 2000000
    ensures var d := pre + Frame(block) + rest;
            && MagicAt(d, |pre|) && SizeAt(d, |pre|) == |block| && SizeOk(d, |pre|)
            && BlockAt(d, |pre|, hashOf) == ParseBlock(block[..ReadSize(|block|)], |pre| + 8, hashOf)
  {
    hide ParseBlock;
    var d := pre + Frame(block) + rest;
    var n := |pre|;
    assert d[n..n + 4] == MAGIC;
    assert Slice(d, n + 4, 4) == Le(|block|, 4);
    U32RoundTrip(|block|);
    assert Slice(d, n + 8, ReadSize(|block|)) == block[..ReadSize(|block|)];
  }

  /** The scan inverts the framing: from a file of frames and magic-free gaps it reports
      exactly the blocks placed there, in order, at their positions. */
  lemma {:induction false} ScanInvertsFraming(pre: seq<Byte>, ps: seq<Placed>, tail: seq<Byte>, errs: nat, hashOf: HashOf)
    requires GoodLayout(ps, tail)
    ensures ScanFrom(pre + Layout(ps, tail), |pre|, errs, hashOf) == Placements(ps, |pre|, errs, hashOf)
    decreases |ps|
  {
    hide ScanFrom, BlockAt, ParseBlock, SizeOk, SizeAt, MagicAt, Frame, NextMagic, Layout;
    if ps == [] {
      LayoutEnd(tail);
      assert pre + tail == pre + tail + [];
      GapSkipped(pre, tail, [], errs, hashOf);
    } else {
      var gap, block, more := ps[0].gap, ps[0].block, Layout(ps[1..], tail);
      var d := pre + Layout(ps, tail);
      var pre1 := pre + gap;
      var pre2 := pre1 + Frame(block);
      LayoutSplit(pre, ps, tail);
      FrameStarts(block, more);
      GapSkipped(pre, gap, Frame(block) + more, errs, hashOf);
      FrameFields(pre1, block, more, hashOf);
      ScanTurn(d, |pre1|, errs, hashOf);
      assert GoodLayout(ps[1..], tail);
      var m := ParseBlock(block[..ReadSize(|block|)], |pre1| + 8, hashOf);
      if m.Some? || errs < 20 {
        ScanInvertsFraming(pre2, ps[1..], tail, if m.Some? then 0 else errs + 1, hashOf);
      }
    }
  }

  lemma LayoutEnd(tail: seq<Byte>)
    ensures Layout([], tail) == tail
  {
  }

  lemma LayoutSplit(pre: seq<Byte>, ps: seq<Placed>, tail: seq<Byte>)
    requires ps != []
    ensures var d, gap, frame, more := pre + Layout(ps, tail), ps[0].gap, Frame(ps[0].block), Layout(ps[1..], tail);
      d == pre + gap + (frame + more) && d == pre + gap + frame + more
  {
    hide Frame;
  }

  lemma FrameStarts(block: seq<Byte>, rest: seq<Byte>)
    requires |block| >= 140
    ensures |Frame(block) + rest| >= 148 && (Frame(block) + rest)[..4] == MAGIC
  {
    assert (Frame(block) + rest)[..4] == MAGIC;
  }
}
