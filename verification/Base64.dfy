/** Base64 as section 4 of RFC 4648 defines it, bit by bit, and the repository's two encoders. */
module Base64 {
  import opened Bytes

  /** Table 1 of RFC 4648. */
  function Letter(v: int): char
    requires 0 <= v < 64
  {
    if v < 26 then (v + 65) as char
    else if v < 52 then (v - 26 + 97) as char
    else if v < 62 then (v - 52 + 48) as char
    else if v == 62 then '+'
    else '/'
  }

  function ByteAt(src: seq<Byte>, i: nat): Byte {
    if i < |src| then src[i] else 0
  }

  /** The bits of a from bit k upwards. */
  function Top(a: Byte, k: nat): int {
    a / (if k == 0 then 1 else if k == 1 then 2 else if k == 2 then 4 else if k == 3 then 8
         else if k == 4 then 16 else if k == 5 then 32 else if k == 6 then 64 else 128)
  }

  function Low(n: int): (b: int)
    ensures 0 <= b < 2
  {
    n % 2
  }

  /** Bit j of the input read as a bit string, most significant bit first, followed by zeros. */
  function Bit(src: seq<Byte>, j: nat): int {
    Low(Top(ByteAt(src, j / 8), 7 - j % 8))
  }

  function Sextet(src: seq<Byte>, k: nat): (v: int)
    ensures 0 <= v < 64
  {
    32 * Bit(src, 6 * k) + 16 * Bit(src, 6 * k + 1) + 8 * Bit(src, 6 * k + 2)
    + 4 * Bit(src, 6 * k + 3) + 2 * Bit(src, 6 * k + 4) + Bit(src, 6 * k + 5)
  }

  function Length(n: nat): nat {
    4 * ((n + 2) / 3)
  }

  function CharAt(src: seq<Byte>, k: nat): char {
    if 6 * k < 8 * |src| then Letter(Sextet(src, k)) else '='
  }

  /** One letter for each six bits, the last bits filled up with zeros, then padding up to a
      multiple of four. */
  function Encode(src: seq<Byte>): (s: string)
    ensures |s| == Length(|src|)
  {
    seq(Length(|src|), k requires 0 <= k => CharAt(src, k))
  }

  /** The encoders' table: A to Z, a to z, 0 to 9, then plus and slash. */
  lemma Alphabet(v: int)
    requires 0 <= v < 64
    ensures Letter(0) == 'A' && Letter(25) == 'Z' && Letter(26) == 'a' && Letter(51) == 'z' && Letter(52) == '0'
    ensures Letter(61) == '9' && Letter(62) == '+' && Letter(63) == '/'
    ensures v != 25 && v != 51 && v < 61 ==> Letter(v + 1) as int == Letter(v) as int + 1
  {
  }

  lemma BitIn(src: seq<Byte>, g: nat, i: nat)
    requires i < 24
    ensures Bit(src, 24 * g + i) == Low(Top(ByteAt(src, 3 * g + i / 8), 7 - i % 8))
  {
    hide Top, Low, ByteAt;
    assert (24 * g + i) / 8 == 3 * g + i / 8;
    assert (24 * g + i) % 8 == i % 8;
  }

  lemma TopStep(a: Byte, k: nat)
    requires k <= 7
    ensures Top(a, k) == (if k == 7 then 0 else 2 * Top(a, k + 1)) + Low(Top(a, k))
  {
    assert k == 0 ==> a / 1 == a;
    assert k == 1 ==> a / 2 / 2 == a / 4;
    assert k == 2 ==> a / 4 / 2 == a / 8;
    assert k == 3 ==> a / 8 / 2 == a / 16;
    assert k == 4 ==> a / 16 / 2 == a / 32;
    assert k == 5 ==> a / 32 / 2 == a / 64;
    assert k == 6 ==> a / 64 / 2 == a / 128;
  }

  /** The eight bits of a byte are its binary digits. */
  lemma TopSteps(a: Byte)
    ensures Top(a, 0) == 2 * Top(a, 1) + Low(Top(a, 0)) && Top(a, 1) == 2 * Top(a, 2) + Low(Top(a, 1))
    ensures Top(a, 2) == 2 * Top(a, 3) + Low(Top(a, 2)) && Top(a, 3) == 2 * Top(a, 4) + Low(Top(a, 3))
    ensures Top(a, 4) == 2 * Top(a, 5) + Low(Top(a, 4)) && Top(a, 5) == 2 * Top(a, 6) + Low(Top(a, 5))
    ensures Top(a, 6) == 2 * Top(a, 7) + Low(Top(a, 6)) && Top(a, 7) == Low(Top(a, 7))
  {
    hide Top, Low;
    TopStep(a, 0); TopStep(a, 1); TopStep(a, 2); TopStep(a, 3);
    TopStep(a, 4); TopStep(a, 5); TopStep(a, 6); TopStep(a, 7);
  }

  lemma TopIs(a: Byte)
    ensures Top(a, 0) == a && Top(a, 2) == a / 4 && Top(a, 4) == a / 16 && Top(a, 6) == a / 64
  {
  }

  lemma Split(a: Byte)
    ensures a % 4 == a - 4 * (a / 4) && a % 16 == a - 16 * (a / 16) && a % 64 == a - 64 * (a / 64)
  {
  }

  lemma Sextet0(src: seq<Byte>, g: nat)
    ensures Sextet(src, 4 * g) == ByteAt(src, 3 * g) / 4
  {
    hide Top, Low, ByteAt, Bit;
    BitIn(src, g, 0); BitIn(src, g, 1); BitIn(src, g, 2); BitIn(src, g, 3); BitIn(src, g, 4); BitIn(src, g, 5);
    var a := ByteAt(src, 3 * g);
    TopSteps(a); TopIs(a);
  }

  lemma Sextet1(src: seq<Byte>, g: nat)
    ensures Sextet(src, 4 * g + 1) == ByteAt(src, 3 * g) % 4 * 16 + ByteAt(src, 3 * g + 1) / 16
  {
    hide Top, Low, ByteAt, Bit;
    BitIn(src, g, 6); BitIn(src, g, 7); BitIn(src, g, 8); BitIn(src, g, 9); BitIn(src, g, 10); BitIn(src, g, 11);
    var a, b := ByteAt(src, 3 * g), ByteAt(src, 3 * g + 1);
    TopSteps(a); TopIs(a); Split(a);
    TopSteps(b); TopIs(b);
  }

  lemma Sextet2(src: seq<Byte>, g: nat)
    ensures Sextet(src, 4 * g + 2) == ByteAt(src, 3 * g + 1) % 16 * 4 + ByteAt(src, 3 * g + 2) / 64
  {
    hide Top, Low, ByteAt, Bit;
    BitIn(src, g, 12); BitIn(src, g, 13); BitIn(src, g, 14); BitIn(src, g, 15); BitIn(src, g, 16); BitIn(src, g, 17);
    var b, c := ByteAt(src, 3 * g + 1), ByteAt(src, 3 * g + 2);
    TopSteps(b); TopIs(b); Split(b);
    TopSteps(c); TopIs(c);
  }

  lemma Sextet3(src: seq<Byte>, g: nat)
    ensures Sextet(src, 4 * g + 3) == ByteAt(src, 3 * g + 2) % 64
  {
    hide Top, Low, ByteAt, Bit;
    BitIn(src, g, 18); BitIn(src, g, 19); BitIn(src, g, 20); BitIn(src, g, 21); BitIn(src, g, 22); BitIn(src, g, 23);
    var c := ByteAt(src, 3 * g + 2);
    TopSteps(c); TopIs(c); Split(c);
  }

  /** The four characters of a group of which remain bytes are there. */
  function Quad(a: Byte, b: Byte, c: Byte, remain: int): (q: string)
    ensures |q| == 4
  {
    [Letter(a / 4), Letter(a % 4 * 16 + b / 16),
     if remain > 1 then Letter(b % 16 * 4 + c / 64) else '=',
     if remain > 2 then Letter(c % 64) else '=']
  }

  /** Group g, of whose bytes only the first remain are looked at. */
  function QuadAt(src: seq<Byte>, g: nat, remain: int): (q: string)
    ensures |q| == 4
  {
    Quad(ByteAt(src, 3 * g), if remain > 1 then ByteAt(src, 3 * g + 1) else 0,
         if remain > 2 then ByteAt(src, 3 * g + 2) else 0, remain)
  }

  /** The definition by bits falls into groups of three bytes and four characters. */
  lemma EncodeGroup(src: seq<Byte>, g: nat)
    requires 3 * g < |src|
    ensures 4 * g + 4 <= |Encode(src)|
    ensures Encode(src)[4 * g..4 * g + 4] == QuadAt(src, g, |src| - 3 * g)
  {
    hide Sextet, Letter;
    Sextet0(src, g); Sextet1(src, g); Sextet2(src, g); Sextet3(src, g);
  }

  /** Four characters stored from index j on. */
  method Emit(out: array<char>, j: nat, q: string)
    requires |q| == 4 && j + 4 <= out.Length
    modifies out
    ensures out[..j + 4] == old(out[..j]) + q
    ensures forall k :: j + 4 <= k < out.Length ==> out[k] == old(out[k])
  {
    out[j], out[j + 1], out[j + 2], out[j + 3] := q[0], q[1], q[2], q[3];
  }

  /** b64_encode: whole groups of three, then a tail of one or two bytes. */
  method EncodeTail(src: seq<Byte>, out: array<char>)
    requires out.Length > Length(|src|)
    modifies out
    ensures out[..Length(|src|)] == Encode(src) && out[Length(|src|)] == '\0'
    ensures forall k :: Length(|src|) < k < out.Length ==> out[k] == old(out[k])
  {
    hide Encode, Letter, Length, QuadAt;
    var i, j := 0, 0;
    ghost var g := 0;
    LengthOf(|src|, 0);
    while i + 2 < |src|
      invariant i == 3 * g && j == 4 * g && i <= |src| && j <= Length(|src|)
      invariant i < |src| || j == Length(|src|)
      invariant out[..j] == Encode(src)[..j]
      invariant forall k :: j <= k < out.Length ==> out[k] == old(out[k])
    {
      var a, b, c := src[i], src[i + 1], src[i + 2];
      WholeQuad(src, g);
      EncodeGroup(src, g);
      Emit(out, j, [Letter(a / 4), Letter(a % 4 * 16 + b / 16), Letter(b % 16 * 4 + c / 64), Letter(c % 64)]);
      PrefixGrows(Encode(src), j, QuadAt(src, g, |src| - i));
      i, j, g := i + 3, j + 4, g + 1;
      LengthOf(|src|, g);
    }
    if i < |src| {
      var a := src[i];
      TailQuad(src, g);
      EncodeGroup(src, g);
      if i + 1 < |src| {
        var b := src[i + 1];
        Emit(out, j, [Letter(a / 4), Letter(a % 4 * 16 + b / 16), Letter(b % 16 * 4), '=']);
      } else {
        Emit(out, j, [Letter(a / 4), Letter(a % 4 * 16), '=', '=']);
      }
      PrefixGrows(Encode(src), j, QuadAt(src, g, |src| - i));
      j := j + 4;
      LengthOf(|src|, g + 1);
    }
    assert Encode(src)[..j] == Encode(src);
    out[j] := '\0';
  }

  lemma WholeQuad(src: seq<Byte>, g: nat)
    requires 3 * g + 2 < |src|
    ensures var a, b, c := src[3 * g], src[3 * g + 1], src[3 * g + 2];
      QuadAt(src, g, |src| - 3 * g) ==
        [Letter(a / 4), Letter(a % 4 * 16 + b / 16), Letter(b % 16 * 4 + c / 64), Letter(c % 64)]
  {
  }

  lemma TailQuad(src: seq<Byte>, g: nat)
    requires 3 * g < |src| <= 3 * g + 2
    ensures var a, b := src[3 * g], ByteAt(src, 3 * g + 1);
      QuadAt(src, g, |src| - 3 * g) ==
        if |src| == 3 * g + 2 then [Letter(a / 4), Letter(a % 4 * 16 + b / 16), Letter(b % 16 * 4), '=']
        else [Letter(a / 4), Letter(a % 4 * 16), '=', '=']
  {
  }

  lemma LengthOf(n: nat, g: nat)
    ensures 3 * g < n ==> 4 * g + 4 <= Length(n)
    ensures Length(0) == 0
    ensures n <= 3 * g < n + 3 ==> Length(n) == 4 * g
  {
  }

  lemma PrefixGrows(s: string, j: nat, q: string)
    requires j + 4 <= |s| && s[j..j + 4] == q
    ensures s[..j + 4] == s[..j] + q
  {
  }

  const INT_LIMIT: int := 0x8000_0000

  /** The cast of a size to a 32-bit int. */
  function ToInt(n: nat): int {
    if n % (2 * INT_LIMIT) < INT_LIMIT then n % (2 * INT_LIMIT) else n % (2 * INT_LIMIT) - 2 * INT_LIMIT
  }

  /** The first n groups as the bounded encoder writes them, its remaining count cast to int. */
  function Groups(src: seq<Byte>, n: nat): (s: string)
    ensures |s| == 4 * n
  {
    if n == 0 then [] else Groups(src, n - 1) + QuadAt(src, n - 1, ToInt(Max0(|src| - 3 * (n - 1))))
  }

  function Max0(n: int): nat {
    if n < 0 then 0 else n
  }

  /** How many groups the bounded encoder emits into a buffer of outSize characters. */
  function GroupsEmitted(n: nat, outSize: nat): nat
    requires outSize >= 1
  {
    if (n + 2) / 3 <= (outSize - 1) / 4 then (n + 2) / 3 else (outSize - 1) / 4
  }

  /** The characters of a group of 24 bits. */
  function Unpack(v: int, remain: int): (q: string)
    requires 0 <= v
    ensures |q| == 4
  {
    [Letter(v / 0x40000 % 64), Letter(v / 0x1000 % 64),
     if remain > 1 then Letter(v / 64 % 64) else '=', if remain > 2 then Letter(v % 64) else '=']
  }

  /** base64_encode: groups of 24 bits while the next group and the terminator still fit. */
  method EncodeBounded(src: seq<Byte>, out: array<char>) returns (ghost n: nat)
    requires out.Length >= 1
    modifies out
    ensures n == GroupsEmitted(|src|, out.Length) && 4 * n < out.Length
    ensures out[..4 * n] == Groups(src, n) && out[4 * n] == '\0'
    ensures forall k :: 4 * n < k < out.Length ==> out[k] == old(out[k])
  {
    hide Groups, Unpack, QuadAt;
    var i, o := 0, 0;
    n := 0;
    GroupsStep(src, 0);
    while i < |src| && o + 4 < out.Length
      invariant i == 3 * n && o == 4 * n && o < out.Length && i < |src| + 3
      invariant out[..o] == Groups(src, n)
      invariant forall k :: o <= k < out.Length ==> out[k] == old(out[k])
    {
      var remain := ToInt(|src| - i);
      var v := (src[i] as int) * 0x10000;
      if remain > 1 {
        v := v + (src[i + 1] as int) * 0x100;
      }
      if remain > 2 {
        v := v + src[i + 2];
      }
      UnpackIs(src, n, remain, v);
      Emit(out, o, Unpack(v, remain));
      GroupsStep(src, n);
      i, o, n := i + 3, o + 4, n + 1;
    }
    EmittedIs(|src|, out.Length, n);
    out[o] := '\0';
  }

  lemma EmittedIs(len: nat, outSize: nat, n: nat)
    requires 4 * n < outSize && 3 * n < len + 3 && (3 * n >= len || 4 * n + 4 >= outSize)
    ensures n == GroupsEmitted(len, outSize)
  {
  }

  lemma UnpackIs(src: seq<Byte>, g: nat, remain: int, v: nat)
    requires v == ByteAt(src, 3 * g) as int * 0x10000
                  + (if remain > 1 then ByteAt(src, 3 * g + 1) as int else 0) * 0x100
                  + (if remain > 2 then ByteAt(src, 3 * g + 2) as int else 0)
    ensures Unpack(v, remain) == QuadAt(src, g, remain)
  {
    hide Letter, ByteAt;
    PackDigits(ByteAt(src, 3 * g), if remain > 1 then ByteAt(src, 3 * g + 1) else 0,
               if remain > 2 then ByteAt(src, 3 * g + 2) else 0);
  }

  lemma PackDigits(a: Byte, b: Byte, c: Byte)
    ensures var v := a * 0x10000 + b * 0x100 + c;
      && v / 0x40000 % 64 == a / 4 && v / 0x1000 % 64 == a % 4 * 16 + b / 16
      && v / 64 % 64 == b % 16 * 4 + c / 64 && v % 64 == c % 64
  {
    var v := a * 0x10000 + b * 0x100 + c;
    assert v / 0x40000 == a / 4;
    assert v / 0x1000 == a * 16 + b / 16;
    assert v / 64 == a * 1024 + b * 4 + c / 64;
  }

  lemma GroupsStep(src: seq<Byte>, n: nat)
    ensures Groups(src, 0) == []
    ensures Groups(src, n + 1) == Groups(src, n) + QuadAt(src, n, ToInt(Max0(|src| - 3 * n)))
  {
  }

  /** Group g comes out as the standard has it exactly when the cast has not changed whether one,
      two or three bytes remain. */
  lemma GroupExact(src: seq<Byte>, g: nat)
    requires 3 * g < |src|
    ensures QuadAt(src, g, ToInt(|src| - 3 * g)) == QuadAt(src, g, |src| - 3 * g) <==>
              Min3(ToInt(|src| - 3 * g)) == Min3(|src| - 3 * g)
  {
    LetterIsNotPad();
  }

  /** The three cases remain falls into. */
  function Min3(n: int): int {
    if n <= 1 then 1 else if n == 2 then 2 else 3
  }

  lemma LetterIsNotPad()
    ensures forall v :: 0 <= v < 64 ==> Letter(v) != '='
  {
  }

  /** Below 2 GiB of input the bounded encoder emits the first groups of the standard's encoding. */
  lemma {:induction false} GroupsArePrefix(src: seq<Byte>, n: nat)
    requires |src| < INT_LIMIT && n <= (|src| + 2) / 3
    ensures Groups(src, n) == Encode(src)[..4 * n]
    decreases n
  {
    hide Encode, QuadAt, Groups, ToInt, Max0;
    GroupsStep(src, 0);
    if n == 0 {
    } else {
      var s, q := Encode(src), QuadAt(src, n - 1, |src| - 3 * (n - 1));
      GroupsArePrefix(src, n - 1);
      EncodeGroup(src, n - 1);
      PrefixGrows(s, 4 * (n - 1), q);
      CastKeeps(|src|, n - 1);
      GroupsStep(src, n - 1);
    }
  }

  lemma CastKeeps(len: nat, g: nat)
    requires len < INT_LIMIT && 3 * g < len
    ensures ToInt(Max0(len - 3 * g)) == len - 3 * g
  {
  }

  lemma {:induction false} GroupsAt(src: seq<Byte>, n: nat, g: nat)
    requires g < n
    ensures Groups(src, n)[4 * g..4 * g + 4] == QuadAt(src, g, ToInt(Max0(|src| - 3 * g)))
    decreases n
  {
    hide QuadAt;
    if g == n - 1 {
    } else {
      GroupsAt(src, n - 1, g);
      assert Groups(src, n)[4 * g..4 * g + 4] == Groups(src, n - 1)[4 * g..4 * g + 4];
    }
  }

  /** With room for everything the two encoders agree exactly on inputs below 2 GiB: from there on
      the remaining count turns negative in some group, and the bounded one pads in mid-stream. */
  lemma BoundedExact(src: seq<Byte>)
    ensures Groups(src, (|src| + 2) / 3) == Encode(src) <==> |src| < INT_LIMIT
  {
    hide Encode, QuadAt, Groups, ToInt;
    var n := (|src| + 2) / 3;
    if |src| < INT_LIMIT {
      GroupsArePrefix(src, n);
      assert Encode(src)[..4 * n] == Encode(src);
    } else {
      var g := CastFlips(|src|);
      GroupsAt(src, n, g);
      EncodeGroup(src, g);
      GroupExact(src, g);
    }
  }

  lemma CastFlips(len: nat) returns (g: nat)
    requires len >= INT_LIMIT
    ensures 3 * g < len && g < (len + 2) / 3 && Min3(ToInt(len - 3 * g)) == 1 && Min3(len - 3 * g) == 3
  {
    g := (len - INT_LIMIT) / 3;
    assert INT_LIMIT <= len - 3 * g <= INT_LIMIT + 2;
  }

  /** The value of a letter, and 0 for any other character. */
  function Value(c: char): (v: int)
    ensures 0 <= v < 64
  {
    var x := c as int;
    if 65 <= x <= 90 then x - 65
    else if 97 <= x <= 122 then x - 97 + 26
    else if 48 <= x <= 57 then x - 48 + 52
    else if c == '+' then 62
    else if c == '/' then 63
    else 0
  }

  /** The bytes of one group of four characters. */
  function DecodeQuad(q: string): seq<Byte>
    requires |q| == 4
  {
    var a := Value(q[0]) * 4 + Value(q[1]) / 16;
    var b := Value(q[1]) % 16 * 16 + Value(q[2]) / 4;
    var c := Value(q[2]) % 4 * 64 + Value(q[3]);
    if q[2] == '=' then [a] else if q[3] == '=' then [a, b] else [a, b, c]
  }

  function Decode(s: string): seq<Byte> {
    if |s| < 4 then [] else DecodeQuad(s[..4]) + Decode(s[4..])
  }

  lemma QuadDecodes(a: Byte, b: Byte, c: Byte, remain: int)
    requires remain > 1 || b == 0
    requires remain > 2 || c == 0
    ensures DecodeQuad(Quad(a, b, c, remain)) ==
              if remain > 2 then [a, b, c] else if remain > 1 then [a, b] else [a]
  {
    hide Letter, Value, DecodeQuad;
    var q := Quad(a, b, c, remain);
    LetterIsNotPad();
    LetterValues();
    if remain > 2 {
      QuadOfThree(q, a, b, c);
    } else if remain > 1 {
      QuadOfTwo(q, a, b);
    } else {
      QuadOfOne(q, a);
    }
  }

  lemma QuadOfThree(q: string, a: Byte, b: Byte, c: Byte)
    requires |q| == 4 && q[2] != '=' && q[3] != '=' && Value(q[0]) == a / 4 && Value(q[1]) == a % 4 * 16 + b / 16
    requires Value(q[2]) == b % 16 * 4 + c / 64 && Value(q[3]) == c % 64
    ensures DecodeQuad(q) == [a, b, c]
  {
    hide Value;
  }

  lemma QuadOfTwo(q: string, a: Byte, b: Byte)
    requires |q| == 4 && q[2] != '=' && q[3] == '=' && Value(q[0]) == a / 4 && Value(q[1]) == a % 4 * 16 + b / 16
    requires Value(q[2]) == b % 16 * 4
    ensures DecodeQuad(q) == [a, b]
  {
    hide Value;
  }

  lemma QuadOfOne(q: string, a: Byte)
    requires |q| == 4 && q[2] == '=' && Value(q[0]) == a / 4 && Value(q[1]) == a % 4 * 16
    ensures DecodeQuad(q) == [a]
  {
    hide Value;
  }

  lemma LetterValues()
    ensures forall v :: 0 <= v < 64 ==> Value(Letter(v)) == v
  {
  }

  function From(src: seq<Byte>, i: nat): seq<Byte> {
    if i <= |src| then src[i..] else []
  }

  lemma FromGroup(src: seq<Byte>, g: nat)
    requires 3 * g < |src|
    ensures From(src, 3 * g) == DecodeQuad(QuadAt(src, g, |src| - 3 * g)) + From(src, 3 * g + 3)
  {
    hide Quad, DecodeQuad;
    QuadDecodes(ByteAt(src, 3 * g), ByteAt(src, 3 * g + 1), ByteAt(src, 3 * g + 2), |src| - 3 * g);
  }

  lemma DecodeFront(s: string, i: nat)
    requires i + 4 <= |s|
    ensures Decode(s[i..]) == DecodeQuad(s[i..i + 4]) + Decode(s[i + 4..])
  {
    assert s[i..][..4] == s[i..i + 4] && s[i..][4..] == s[i + 4..];
  }

  lemma {:induction false} DecodesFrom(src: seq<Byte>, g: nat)
    requires 3 * g < |src| + 3
    ensures 4 * g <= |Encode(src)| && Decode(Encode(src)[4 * g..]) == From(src, 3 * g)
    decreases |src| + 3 - 3 * g
  {
    hide Encode, QuadAt, DecodeQuad, From, Decode;
    if 3 * g < |src| {
      EncodeGroup(src, g);
      DecodesFrom(src, g + 1);
      DecodeFront(Encode(src), 4 * g);
      FromGroup(src, g);
    } else {
      DecodeEnd(Encode(src), 4 * g);
      FromEnd(src, 3 * g);
    }
  }

  lemma DecodeEnd(s: string, i: nat)
    requires |s| < i + 4 && i <= |s|
    ensures Decode(s[i..]) == []
  {
  }

  lemma FromEnd(src: seq<Byte>, i: nat)
    requires |src| <= i
    ensures From(src, i) == []
  {
  }

  /** Decoding gives the input back. */
  lemma DecodeEncode(src: seq<Byte>)
    ensures Decode(Encode(src)) == src
  {
    hide Encode, Decode;
    DecodesFrom(src, 0);
    assert Encode(src)[0..] == Encode(src);
    assert src[0..] == src;
  }
}
