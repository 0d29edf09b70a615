/** CRC-32C (Castagnoli) as the event log uses it. Three forms: the bit-serial shift register
    of section 12.1 of RFC 3720, the table-driven loop, and the loop over eight-byte words
    that the SSE4.2 instruction processes. A 32-bit checksum is held in the low half of a
    64-bit word, so that all forms work on one register width. */
module Crc32c {

  const POLY: bv64 := 0x82F6_3B78
  const ONES: bv64 := 0xFFFF_FFFF

  /** Exclusive or. Named, so that proofs can treat it as an operation of its own. */
  function Xor(a: bv64, b: bv64): bv64 {
    a ^ b
  }

  /** One shift of the reflected register. */
  function Shift1(c: bv64): bv64 {
    Xor(c >> 1, Feedback(c & 1))
  }

  function Shift(c: bv64, n: nat): bv64
    decreases n
  {
    if n == 0 then c else Shift(Shift1(c), n - 1)
  }

  /** The low byte, and the rest moved down. */
  function Low(w: bv64): bv64 { w & 0xFF }
  function High(w: bv64): bv64 { w >> 8 }

  function Wide(b: bv8): bv64 { b as bv64 }

  /** A byte without its k lowest bits. */
  function Rest(b: bv8, k: nat): bv64 {
    if k == 0 then Wide(b) else Rest(b, k - 1) >> 1
  }

  /** The register after the first k bits of b, lowest first, have been shifted in one at a time. */
  function BitSerial(c: bv64, b: bv8, k: nat): bv64
    decreases k
  {
    if k == 0 then c else Shift1(Xor(BitSerial(c, b, k - 1), Rest(b, k - 1) & 1))
  }

  /** The register after all of s, bit by bit. */
  function Register(c: bv64, s: seq<bv8>): bv64
    decreases |s|
  {
    if s == [] then c else Register(BitSerial(c, s[0], 8), s[1..])
  }

  /** The checksum. */
  function Crc(s: seq<bv8>): bv64 {
    Xor(Register(ONES, s), ONES)
  }

  lemma RawAssoc(a: bv64, b: bv64, c: bv64)
    ensures (a ^ b) ^ c == a ^ (b ^ c)
  {
  }

  lemma XorAssoc(a: bv64, b: bv64, c: bv64)
    ensures Xor(Xor(a, b), c) == Xor(a, Xor(b, c))
  {
    RawAssoc(a, b, c);
  }

  lemma XorComm(a: bv64, b: bv64)
    ensures Xor(a, b) == Xor(b, a)
  {
    assert a ^ b == b ^ a;
  }

  lemma XorUnit(a: bv64)
    ensures Xor(a, 0) == a && Xor(a, a) == 0
  {
    assert a ^ 0 == a && a ^ a == 0;
  }

  /** Exclusive or of two sums, term by term. */
  lemma XorSwap(a: bv64, p: bv64, b: bv64, q: bv64)
    ensures Xor(Xor(a, p), Xor(b, q)) == Xor(Xor(a, b), Xor(p, q))
  {
    hide Xor;
    XorAssoc(a, p, Xor(b, q));
    XorAssoc(p, b, q);
    XorComm(p, b);
    XorAssoc(b, p, q);
    XorAssoc(a, b, Xor(p, q));
  }

  /** What is fed back when the bit shifted out is 1. */
  function Feedback(bit: bv64): bv64 {
    if bit == 1 then POLY else 0
  }

  lemma FeedbackLinear(x: bv64, y: bv64)
    requires (x == 0 || x == 1) && (y == 0 || y == 1)
    ensures Feedback(Xor(x, y)) == Xor(Feedback(x), Feedback(y))
  {
  }

  lemma HalvesOfXor(x: bv64, y: bv64)
    ensures Xor(x, y) >> 1 == Xor(x >> 1, y >> 1)
    ensures Xor(x, y) & 1 == Xor(x & 1, y & 1)
  {
    calc {
      Xor(x, y) >> 1;
      (x ^ y) >> 1;
      (x >> 1) ^ (y >> 1);
      Xor(x >> 1, y >> 1);
    }
  }

  lemma LastBit(x: bv64)
    ensures x & 1 == 0 || x & 1 == 1
  {
  }

  lemma Shift1Linear(x: bv64, y: bv64)
    ensures Shift1(Xor(x, y)) == Xor(Shift1(x), Shift1(y))
  {
    hide Xor, Feedback;
    HalvesOfXor(x, y);
    LastBit(x);
    LastBit(y);
    FeedbackLinear(x & 1, y & 1);
    XorSwap(x >> 1, Feedback(x & 1), y >> 1, Feedback(y & 1));
  }

  lemma {:induction false} ShiftLinear(x: bv64, y: bv64, n: nat)
    ensures Shift(Xor(x, y), n) == Xor(Shift(x, n), Shift(y, n))
    decreases n
  {
    hide Shift1, Xor;
    if n == 0 {
    } else {
      Shift1Linear(x, y);
      ShiftLinear(Shift1(x), Shift1(y), n - 1);
    }
  }

  lemma ShiftStep(c: bv64, n: nat)
    requires n > 0
    ensures Shift(c, n) == Shift(Shift1(c), n - 1)
  {
    hide Shift1;
  }

  /** Shifting clear bits out only moves the rest down: one, two, four, eight of them. */
  lemma ShiftClear1(y: bv64, n: nat)
    requires y & 1 == 0
    ensures Shift(y, n + 1) == Shift(y >> 1, n)
  {
    hide Shift, Shift1;
    ShiftStep(y, n + 1);
    Shift1Clear(y);
  }

  lemma ShiftClear2(y: bv64, n: nat)
    requires y & 3 == 0
    ensures Shift(y, n + 2) == Shift(y >> 2, n)
  {
    hide Shift;
    assert y & 1 == 0 && (y >> 1) & 1 == 0 && (y >> 1) >> 1 == y >> 2;
    ShiftClear1(y, n + 1);
    ShiftClear1(y >> 1, n);
  }

  lemma ShiftClear4(y: bv64, n: nat)
    requires y & 0xF == 0
    ensures Shift(y, n + 4) == Shift(y >> 4, n)
  {
    hide Shift;
    assert y & 3 == 0 && (y >> 2) & 3 == 0 && (y >> 2) >> 2 == y >> 4;
    ShiftClear2(y, n + 2);
    ShiftClear2(y >> 2, n);
  }

  lemma ShiftClear(y: bv64)
    requires y & 0xFF == 0
    ensures Shift(y, 8) == y >> 8
  {
    hide Shift;
    assert y & 0xF == 0 && (y >> 4) & 0xF == 0 && (y >> 4) >> 4 == y >> 8;
    ShiftClear4(y, 4);
    ShiftClear4(y >> 4, 0);
    ShiftNone(y >> 8);
  }

  lemma ShiftNone(c: bv64)
    ensures Shift(c, 0) == c
  {
  }

  lemma Shift1Clear(y: bv64)
    requires y & 1 == 0
    ensures Shift1(y) == y >> 1
  {
    hide Xor;
    XorUnit(y >> 1);
  }

  lemma SplitWord(w: bv64)
    ensures Xor(Low(w), w & 0xFFFF_FFFF_FFFF_FF00) == w
    ensures (w & 0xFFFF_FFFF_FFFF_FF00) & 0xFF == 0
    ensures (w & 0xFFFF_FFFF_FFFF_FF00) >> 8 == High(w)
  {
    assert (w & 0xFF) ^ (w & 0xFFFF_FFFF_FFFF_FF00) == w;
  }

  /** Eight shifts consume the low byte; what lies above it passes through. */
  lemma ShiftSplit(c: bv64, w: bv64)
    ensures Shift(Xor(c, w), 8) == Xor(Shift(Xor(c, Low(w)), 8), High(w))
  {
    hide Shift, Xor, Low, High;
    var hi := w & 0xFFFF_FFFF_FFFF_FF00;
    SplitWord(w);
    XorAssoc(c, Low(w), hi);
    ShiftLinear(Xor(c, Low(w)), hi, 8);
    ShiftClear(hi);
  }

  lemma {:induction false} ShiftSum(c: bv64, a: nat, b: nat)
    ensures Shift(c, a + b) == Shift(Shift(c, a), b)
    decreases a
  {
    hide Shift1;
    if a == 0 {
    } else {
      ShiftSum(Shift1(c), a - 1, b);
    }
  }

  lemma SplitBit(w: bv64)
    ensures Xor(w & 1, w & 0xFFFF_FFFF_FFFF_FFFE) == w
    ensures (w & 0xFFFF_FFFF_FFFF_FFFE) & 1 == 0 && (w & 0xFFFF_FFFF_FFFF_FFFE) >> 1 == w >> 1
  {
    assert (w & 1) ^ (w & 0xFFFF_FFFF_FFFF_FFFE) == w;
  }

  lemma ShiftOne(c: bv64)
    ensures Shift(c, 1) == Shift1(c)
  {
    hide Shift1;
    ShiftStep(c, 1);
    ShiftNone(Shift1(c));
  }

  /** Feeding a bit in as it is shifted out, or all bits beforehand, comes to the same. */
  lemma {:induction false} BitSerialIsShift(c: bv64, b: bv8, k: nat)
    ensures Xor(BitSerial(c, b, k), Rest(b, k)) == Shift(Xor(c, Wide(b)), k)
    decreases k
  {
    hide Shift, Shift1, Xor, Wide;
    var x := Xor(c, Wide(b));
    if k == 0 {
      ShiftNone(x);
    } else {
      var r := Rest(b, k - 1);
      var up := r & 0xFFFF_FFFF_FFFF_FFFE;
      var prev := BitSerial(c, b, k - 1);
      BitSerialIsShift(c, b, k - 1);
      SplitBit(r);
      XorAssoc(prev, r & 1, up);
      Shift1Linear(Xor(prev, r & 1), up);
      Shift1Clear(up);
      ShiftSum(x, k - 1, 1);
      ShiftOne(Shift(x, k - 1));
    }
  }

  lemma RestStep(b: bv8, k: nat)
    ensures Rest(b, k + 1) == Rest(b, k) >> 1
  {
  }

  lemma RestGone(b: bv8)
    ensures Rest(b, 8) == 0
  {
    hide Rest, Wide;
    RestHalf(b);
    var h := Rest(b, 4);
    RestStep(b, 4);
    RestStep(b, 5);
    RestStep(b, 6);
    RestStep(b, 7);
    assert (((h >> 1) >> 1) >> 1) >> 1 == h >> 4;
  }

  lemma RestHalf(b: bv8)
    ensures Rest(b, 4) >> 4 == 0
  {
    hide Rest;
    var w := Wide(b);
    assert Rest(b, 0) == w by { RestNone(b); }
    RestStep(b, 0);
    RestStep(b, 1);
    RestStep(b, 2);
    RestStep(b, 3);
    assert ((((w >> 1) >> 1) >> 1) >> 1) >> 4 == 0;
  }

  lemma RestNone(b: bv8)
    ensures Rest(b, 0) == Wide(b)
  {
  }

  /** A byte at a time: feed the byte in, shift eight times. */
  lemma ByteStep(c: bv64, b: bv8)
    ensures BitSerial(c, b, 8) == Shift(Xor(c, Wide(b)), 8)
  {
    hide Shift, Xor, BitSerial, Rest;
    BitSerialIsShift(c, b, 8);
    RestGone(b);
    XorUnit(BitSerial(c, b, 8));
  }

  lemma HighOfByte(c: bv64, b: bv8)
    ensures High(Xor(c, Wide(b))) == c >> 8
  {
    assert (c ^ (b as bv64)) >> 8 == c >> 8;
  }

  /** One turn of the table loop. */
  lemma TableStep(c: bv64, b: bv8)
    ensures Xor(c >> 8, Shift(Low(Xor(c, Wide(b))), 8)) == BitSerial(c, b, 8)
  {
    hide Shift, Xor, Low, High, Wide, BitSerial;
    var x := Xor(c, Wide(b));
    ByteStep(c, b);
    XorComm(0, x);
    XorUnit(x);
    XorComm(0, Low(x));
    XorUnit(Low(x));
    ShiftSplit(0, x);
    HighOfByte(c, b);
    XorComm(c >> 8, Shift(Low(x), 8));
  }

  /** crc_init: entry i is the register i after eight shifts. */
  ghost predicate IsTable(tab: seq<bv64>) {
    |tab| == 256 && forall i :: 0 <= i < 256 ==> tab[i] == Shift(i as bv64, 8)
  }

  method CrcInit() returns (tab: seq<bv64>)
    ensures IsTable(tab)
  {
    hide Shift, Shift1;
    tab := [];
    for i := 0 to 256
      invariant |tab| == i && forall j :: 0 <= j < i ==> tab[j] == Shift(j as bv64, 8)
    {
      var c: bv64 := i as bv64;
      ghost var c0 := c;
      var j := 0;
      while j < 8
        invariant 0 <= j <= 8 && Shift(c0, 8) == Shift(c, 8 - j)
      {
        ShiftStep(c, 8 - j);
        c := Shift1(c);
        j := j + 1;
      }
      ShiftNone(c);
      tab := tab + [c];
    }
  }

  lemma RegisterStep(c: bv64, s: seq<bv8>, i: nat)
    requires i < |s|
    ensures Register(c, s[i..]) == Register(BitSerial(c, s[i], 8), s[i + 1..])
  {
    hide BitSerial;
    assert s[i..][0] == s[i] && s[i..][1..] == s[i + 1..];
  }

  lemma RegisterEnd(c: bv64)
    ensures Register(c, []) == c
  {
  }

  lemma TableEntry(tab: seq<bv64>, x: bv64)
    requires IsTable(tab)
    ensures 0 <= Low(x) as int < 256 == |tab| && tab[Low(x) as int] == Shift(Low(x), 8)
  {
    hide Shift;
    assert (Low(x) as int) as bv64 == Low(x);
  }

  /** crc32c_sw: the table-driven loop is the bit-serial checksum, for every length. */
  method Crc32cTable(tab: seq<bv64>, data: seq<bv8>) returns (crc: bv64)
    requires IsTable(tab)
    ensures crc == Crc(data)
  {
    hide Register, Xor, Low, Wide, IsTable, BitSerial, Shift;
    crc := ONES;
    assert data[0..] == data;
    for i := 0 to |data|
      invariant Register(crc, data[i..]) == Register(ONES, data)
    {
      RegisterStep(crc, data, i);
      TableStep(crc, data[i]);
      TableEntry(tab, Xor(crc, Wide(data[i])));
      crc := Xor(crc >> 8, tab[Low(Xor(crc, Wide(data[i]))) as int]);
    }
    assert data[|data|..] == [];
    RegisterEnd(crc);
    crc := Xor(crc, ONES);
  }

  /** Eight bytes loaded little-endian. */
  function Pack(b0: bv8, b1: bv8, b2: bv8, b3: bv8, b4: bv8, b5: bv8, b6: bv8, b7: bv8): bv64 {
    (b0 as bv64) | ((b1 as bv64) << 8) | ((b2 as bv64) << 16) | ((b3 as bv64) << 24) |
    ((b4 as bv64) << 32) | ((b5 as bv64) << 40) | ((b6 as bv64) << 48) | ((b7 as bv64) << 56)
  }

  function Load(s: seq<bv8>): bv64
    requires |s| == 8
  {
    Pack(s[0], s[1], s[2], s[3], s[4], s[5], s[6], s[7])
  }

  lemma PackParts(b0: bv8, b1: bv8, b2: bv8, b3: bv8, b4: bv8, b5: bv8, b6: bv8, b7: bv8)
    ensures Low(Pack(b0, b1, b2, b3, b4, b5, b6, b7)) == Wide(b0)
    ensures High(Pack(b0, b1, b2, b3, b4, b5, b6, b7)) == Pack(b1, b2, b3, b4, b5, b6, b7, 0)
  {
  }

  lemma LoadParts(s: seq<bv8>)
    requires |s| == 8
    ensures Low(Load(s)) == Wide(s[0]) && High(Load(s)) == Load(s[1..] + [0])
  {
    hide Pack, Low, High, Wide;
    PackParts(s[0], s[1], s[2], s[3], s[4], s[5], s[6], s[7]);
  }

  lemma LoadZero(s: seq<bv8>)
    requires |s| == 8 && forall i :: 0 <= i < 8 ==> s[i] == 0
    ensures Load(s) == 0
  {
  }

  /** Dividing a whole word runs the same register as its bytes one by one. */
  lemma {:induction false} ShiftWord(c: bv64, s: seq<bv8>, m: nat)
    requires |s| == 8 && m <= 8 && forall i :: m <= i < 8 ==> s[i] == 0
    ensures Shift(Xor(c, Load(s)), 8 * m) == Register(c, s[..m])
    decreases m
  {
    hide Shift, Xor, Low, High, Wide, Load, BitSerial, Register;
    if m == 0 {
      LoadZero(s);
      XorUnit(c);
      ShiftNone(c);
      RegisterEnd(c);
      assert s[..0] == [];
    } else {
      var t := s[1..] + [0];
      var c1 := BitSerial(c, s[0], 8);
      LoadParts(s);
      ShiftSplit(c, Load(s));
      ByteStep(c, s[0]);
      ShiftSum(Xor(c, Load(s)), 8, 8 * (m - 1));
      ShiftWord(c1, t, m - 1);
      assert t[..m - 1] == s[..m][1..];
      RegisterStep(c, s[..m], 0);
      assert s[..m][0..] == s[..m];
    }
  }

  /** A 32-bit value in a 64-bit word. */
  predicate Fits(c: bv64) {
    c & 0xFFFF_FFFF_0000_0000 == 0
  }

  function Trunc(c: bv64): bv64 {
    c & 0xFFFF_FFFF
  }

  lemma FitsTrunc(c: bv64)
    requires Fits(c)
    ensures Trunc(c) == c
  {
  }

  lemma FitsXor(a: bv64, b: bv64)
    requires Fits(a) && Fits(b)
    ensures Fits(Xor(a, b))
  {
    assert (a ^ b) & 0xFFFF_FFFF_0000_0000 == (a & 0xFFFF_FFFF_0000_0000) ^ (b & 0xFFFF_FFFF_0000_0000);
  }

  lemma FitsHalf(c: bv64)
    requires Fits(c)
    ensures Fits(c >> 1) && Fits(Feedback(c & 1))
  {
  }

  lemma FitsBit(w: bv64)
    ensures Fits(w & 1)
  {
  }

  /** The register stays in its 32 bits. */
  lemma {:induction false} FitsSerial(c: bv64, b: bv8, k: nat)
    requires Fits(c)
    ensures Fits(BitSerial(c, b, k))
    decreases k
  {
    hide Fits, Xor, Rest, Feedback;
    if k == 0 {
    } else {
      FitsSerial(c, b, k - 1);
      FitsBit(Rest(b, k - 1));
      var x := Xor(BitSerial(c, b, k - 1), Rest(b, k - 1) & 1);
      FitsXor(BitSerial(c, b, k - 1), Rest(b, k - 1) & 1);
      FitsHalf(x);
      FitsXor(x >> 1, Feedback(x & 1));
    }
  }

  lemma {:induction false} FitsRegister(c: bv64, s: seq<bv8>)
    requires Fits(c)
    ensures Fits(Register(c, s))
    decreases |s|
  {
    hide Fits, BitSerial;
    if s == [] {
    } else {
      FitsSerial(c, s[0], 8);
      FitsRegister(BitSerial(c, s[0], 8), s[1..]);
    }
  }

  /** The SSE4.2 instruction on a byte and on a word: polynomial division of the operand. */
  function Instruction8(c: bv64, b: bv8): bv64 {
    Trunc(Shift(Xor(c, Wide(b)), 8))
  }

  function Instruction64(c: bv64, v: bv64): bv64 {
    Trunc(Shift(Xor(c, v), 64))
  }

  lemma Instruction8Is(c: bv64, b: bv8)
    requires Fits(c)
    ensures Instruction8(c, b) == BitSerial(c, b, 8) && Fits(BitSerial(c, b, 8))
  {
    hide Fits, Trunc, Shift, Xor, Wide, BitSerial;
    ByteStep(c, b);
    FitsSerial(c, b, 8);
    FitsTrunc(BitSerial(c, b, 8));
  }

  lemma Instruction64Is(c: bv64, s: seq<bv8>)
    requires Fits(c) && |s| == 8
    ensures Instruction64(c, Load(s)) == Register(c, s) && Fits(Register(c, s))
  {
    hide Fits, Trunc, Shift, Xor, Load, Register;
    ShiftWord(c, s, 8);
    assert s[..8] == s;
    FitsRegister(c, s);
    FitsTrunc(Register(c, s));
  }

  lemma {:induction false} RegisterSplit(c: bv64, s: seq<bv8>, t: seq<bv8>)
    ensures Register(c, s + t) == Register(Register(c, s), t)
    decreases |s|
  {
    hide BitSerial;
    if s == [] {
      assert s + t == t;
    } else {
      assert (s + t)[1..] == s[1..] + t;
      RegisterSplit(BitSerial(c, s[0], 8), s[1..], t);
    }
  }

  lemma OnesFit()
    ensures Fits(ONES)
  {
  }

  /** crc32c: words of eight bytes, then the tail byte by byte, is the same checksum, for
      every length. */
  method Crc32cWords(data: seq<bv8>) returns (crc: bv64)
    ensures crc == Crc(data)
  {
    hide Register, Xor, Fits, Instruction8, Instruction64, BitSerial, Load;
    crc := ONES;
    OnesFit();
    var i := 0;
    assert data[0..] == data;
    while |data| - i >= 8
      invariant 0 <= i <= |data| && Fits(crc)
      invariant Register(crc, data[i..]) == Register(ONES, data)
    {
      var word := data[i..i + 8];
      Instruction64Is(crc, word);
      assert data[i..] == word + data[i + 8..];
      RegisterSplit(crc, word, data[i + 8..]);
      crc := Instruction64(crc, Load(word));
      i := i + 8;
    }
    while i < |data|
      invariant 0 <= i <= |data| && Fits(crc)
      invariant Register(crc, data[i..]) == Register(ONES, data)
    {
      RegisterStep(crc, data, i);
      Instruction8Is(crc, data[i]);
      crc := Instruction8(crc, data[i]);
      i := i + 1;
    }
    assert data[|data|..] == [];
    RegisterEnd(crc);
    crc := Xor(crc, ONES);
  }

  /** put_u32_le of a checksum: its four bytes, lowest first, each below 256. */
  function LeBytes(c: bv64): (r: seq<int>)
    ensures |r| == 4 && forall i :: 0 <= i < 4 ==> 0 <= r[i] < 256
  {
    [ByteOf(c), ByteOf(c >> 8), ByteOf(c >> 16), ByteOf(c >> 24)]
  }

  function ByteOf(c: bv64): (r: int)
    ensures 0 <= r < 256
  {
    (c & 0xFF) as int
  }

  /** Nothing is cut off: the checksum has 32 bits. */
  lemma CrcFits(s: seq<bv8>)
    ensures Fits(Crc(s)) && Trunc(Crc(s)) == Crc(s)
  {
    hide Fits, Trunc, Register, Xor;
    OnesFit();
    FitsRegister(ONES, s);
    FitsXor(Register(ONES, s), ONES);
    FitsTrunc(Crc(s));
  }

  /** One byte of a register with known contents: the byte goes in, then eight shifts. */
  lemma KnownByte(c: bv64, b: bv8, x0: bv64, x1: bv64, x2: bv64, x3: bv64, x4: bv64, x5: bv64, x6: bv64, x7: bv64, x8: bv64)
    requires Xor(c, Wide(b)) == x0 && Shift1(x0) == x1 && Shift1(x1) == x2 && Shift1(x2) == x3 && Shift1(x3) == x4
    requires Shift1(x4) == x5 && Shift1(x5) == x6 && Shift1(x6) == x7 && Shift1(x7) == x8
    ensures BitSerial(c, b, 8) == x8
  {
    hide BitSerial, Shift1, Xor, Wide;
    ByteStep(c, b);
    assert Shift(x4, 4) == x8;
  }

  /** The check value: the checksum of "123456789" is E3069283, stored as 83 92 06 E3. */
  lemma CheckValue()
    ensures Crc([0x31, 0x32, 0x33, 0x34, 0x35, 0x36, 0x37, 0x38, 0x39]) == 0xE306_9283
    ensures LeBytes(0xE306_9283) == [0x83, 0x92, 0x06, 0xE3]
  {
    CheckBytes();
    var s: seq<bv8> := [0x31, 0x32, 0x33, 0x34, 0x35, 0x36, 0x37, 0x38, 0x39];
    CheckRegister(s);
    assert Xor(0x1cf9_6d7c, ONES) == 0xE306_9283;
  }

  lemma CheckBytes()
    ensures LeBytes(0xE306_9283) == [0x83, 0x92, 0x06, 0xE3]
  {
  }

  lemma CheckRegister(s: seq<bv8>)
    requires s == [0x31, 0x32, 0x33, 0x34, 0x35, 0x36, 0x37, 0x38, 0x39]
    ensures Register(ONES, s) == 0x1cf9_6d7c
  {
    hide BitSerial;
    assert s == s[0..];
    RegisterStep(ONES, s, 0);
    CheckStep1();
    RegisterStep(0x6f0a661c, s, 1);
    CheckStep2();
    RegisterStep(0x8caa3b9f, s, 2);
    CheckStep3();
    RegisterStep(0xef84d04d, s, 3);
    CheckStep4();
    RegisterStep(0x9c50b11, s, 4);
    CheckStep5();
    RegisterStep(0xe72edcca, s, 5);
    CheckStep6();
    RegisterStep(0xbeca8e79, s, 6);
    CheckStep7();
    RegisterStep(0xedbd6815, s, 7);
    CheckStep8();
    RegisterStep(0x9f787f65, s, 8);
    CheckStep9();
    assert s[9..] == [];
    RegisterEnd(0x1cf9_6d7c);
  }

  lemma CheckStep1()
    ensures BitSerial(0xffffffff, 0x31, 8) == 0x6f0a661c
  {
    hide BitSerial, Shift;
    KnownByte(0xffffffff, 0x31, 0xffffffce, 0x7fffffe7, 0xbd09c48b, 0xdc72d93d, 0xeccf57e6,
              0x7667abf3, 0xb9c5ee81, 0xde14cc38, 0x6f0a661c);
  }

  lemma CheckStep2()
    ensures BitSerial(0x6f0a661c, 0x32, 8) == 0x8caa3b9f
  {
    hide BitSerial, Shift;
    KnownByte(0x6f0a661c, 0x32, 0x6f0a662e, 0x37853317, 0x9934a2f3, 0xce6c6a01, 0xe5c00e78,
              0x72e0073c, 0x3970039e, 0x1cb801cf, 0x8caa3b9f);
  }

  lemma CheckStep3()
    ensures BitSerial(0x8caa3b9f, 0x33, 8) == 0xef84d04d
  {
    hide BitSerial, Shift;
    KnownByte(0x8caa3b9f, 0x33, 0x8caa3bac, 0x46551dd6, 0x232a8eeb, 0x93637c0d, 0xcb47857e,
              0x65a3c2bf, 0xb027da27, 0xdae5d66b, 0xef84d04d);
  }

  lemma CheckStep4()
    ensures BitSerial(0xef84d04d, 0x34, 8) == 0x9c50b11
  {
    hide BitSerial, Shift;
    KnownByte(0xef84d04d, 0x34, 0xef84d079, 0xf5345344, 0x7a9a29a2, 0x3d4d14d1, 0x9c50b110,
              0x4e285888, 0x27142c44, 0x138a1622, 0x9c50b11);
  }

  lemma CheckStep5()
    ensures BitSerial(0x9c50b11, 0x35, 8) == 0xe72edcca
  {
    hide BitSerial, Shift;
    KnownByte(0x9c50b11, 0x35, 0x9c50b24, 0x4e28592, 0x27142c9, 0x83ce9a1c, 0x41e74d0e,
              0x20f3a687, 0x928fe83b, 0xcbb1cf65, 0xe72edcca);
  }

  lemma CheckStep6()
    ensures BitSerial(0xe72edcca, 0x36, 8) == 0xbeca8e79
  {
    hide BitSerial, Shift;
    KnownByte(0xe72edcca, 0x36, 0xe72edcfc, 0x73976e7e, 0x39cbb73f, 0x9e13e0e7, 0xcdffcb0b,
              0xe409defd, 0xf0f2d406, 0x78796a03, 0xbeca8e79);
  }

  lemma CheckStep7()
    ensures BitSerial(0xbeca8e79, 0x37, 8) == 0xedbd6815
  {
    hide BitSerial, Shift;
    KnownByte(0xbeca8e79, 0x37, 0xbeca8e4e, 0x5f654727, 0xad4498eb, 0xd454770d, 0xe8dc00fe,
              0x746e007f, 0xb8c13b47, 0xde96a6db, 0xedbd6815);
  }

  lemma CheckStep8()
    ensures BitSerial(0xedbd6815, 0x38, 8) == 0x9f787f65
  {
    hide BitSerial, Shift;
    KnownByte(0xedbd6815, 0x38, 0xedbd682d, 0xf4288f6e, 0x7a1447b7, 0xbffc18a3, 0xdd083729,
              0xec7220ec, 0x76391076, 0x3b1c883b, 0x9f787f65);
  }

  lemma CheckStep9()
    ensures BitSerial(0x9f787f65, 0x39, 8) == 0x1cf96d7c
  {
    hide BitSerial, Shift;
    KnownByte(0x9f787f65, 0x39, 0x9f787f5c, 0x4fbc3fae, 0x27de1fd7, 0x91193493, 0xca7aa131,
              0xe7cb6be0, 0x73e5b5f0, 0x39f2daf8, 0x1cf96d7c);
  }
}
