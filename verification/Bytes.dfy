/** Bytes and little-endian integers. */
module Bytes {

  type Byte = b: int | 0 <= b < 256

  /** 256 to the n. */
  function Limit(n: nat): nat
    ensures Limit(n) > 0
  {
    if n == 0 then 1 else 256 * Limit(n - 1)
  }

  /** The n low bytes of v, least significant first. */
  function Le(v: nat, n: nat): (s: seq<Byte>)
    ensures |s| == n
    decreases n
  {
    if n == 0 then [] else [v % 256] + Le(v / 256, n - 1)
  }

  /** Byte i of n is the one of weight 256 to the i. */
  lemma {:induction false} LeAt(v: nat, n: nat, i: nat)
    requires i < n
    ensures Le(v, n)[i] == (v / Limit(i)) % 256
    decreases n
  {
    if i == 0 {
    } else {
      LeAt(v / 256, n - 1, i - 1);
      DivTwice(v, Limit(i - 1));
    }
  }

  lemma DivTwice(v: nat, k: nat)
    requires k > 0
    ensures v / (256 * k) == (v / 256) / k
  {
    var q, r := v / 256, v % 256;
    var a, b := q / k, q % k;
    assert v == 256 * (a * k + b) + r == a * (256 * k) + (256 * b + r);
    assert 256 * b + r < 256 * k;
    Quotient(v, 256 * k, a, 256 * b + r);
  }

  lemma Quotient(v: nat, d: nat, a: nat, r: nat)
    requires d > 0 && v == a * d + r && r < d
    ensures v / d == a
  {
    var q := v / d;
    assert v == q * d + v % d;
    MulGap(q, a, d);
    MulGap(a, q, d);
  }

  lemma {:induction false} MulGap(a: nat, b: nat, d: nat)
    ensures a < b ==> a * d + d <= b * d
    decreases b
  {
    if b == 0 {
    } else {
      MulGap(a, b - 1, d);
      assert b * d == (b - 1) * d + d;
    }
  }

  function UnLe(s: seq<Byte>): nat {
    if s == [] then 0 else s[0] + 256 * UnLe(s[1..])
  }

  /** Reading back n bytes gives the value modulo 256^n. */
  lemma {:induction false} LeRoundTrip(v: nat, n: nat)
    requires v < Limit(n)
    ensures UnLe(Le(v, n)) == v
    decreases n
  {
    if n == 0 {
    } else {
      assert Le(v, n)[1..] == Le(v / 256, n - 1);
      LeRoundTrip(v / 256, n - 1);
    }
  }

  lemma {:induction false} UnLeBound(s: seq<Byte>)
    ensures UnLe(s) < Limit(|s|)
    decreases |s|
  {
    if s == [] {
    } else {
      UnLeBound(s[1..]);
    }
  }

  lemma Limits()
    ensures Limit(4) == 0x1_0000_0000 && Limit(8) == 0x1_0000_0000_0000_0000
  {
    assert Limit(1) == 256 && Limit(2) == 0x1_0000 && Limit(3) == 0x100_0000;
    assert Limit(5) == 0x100_0000_0000 && Limit(6) == 0x1_0000_0000_0000 && Limit(7) == 0x100_0000_0000_0000;
  }

  function U32(s: seq<Byte>): (v: nat)
    requires |s| == 4
    ensures v < 0x1_0000_0000
  {
    Limits(); UnLeBound(s);
    UnLe(s)
  }

  lemma U32RoundTrip(v: nat)
    requires v < 0x1_0000_0000
    ensures U32(Le(v, 4)) == v
  {
    Limits();
    LeRoundTrip(v, 4);
  }

  /** Writing back what was read gives the same bytes. */
  lemma {:induction false} UnLeRoundTrip(s: seq<Byte>)
    ensures Le(UnLe(s), |s|) == s
    decreases |s|
  {
    if s == [] {
    } else {
      UnLeRoundTrip(s[1..]);
      assert UnLe(s) % 256 == s[0] && UnLe(s) / 256 == UnLe(s[1..]);
      assert s == [s[0]] + s[1..];
    }
  }

  function U64(s: seq<Byte>): (v: nat)
    requires |s| == 8
    ensures v < 0x1_0000_0000_0000_0000
  {
    Limits(); UnLeBound(s);
    UnLe(s)
  }

  lemma U64RoundTrip(v: nat)
    requires v < 0x1_0000_0000_0000_0000
    ensures U64(Le(v, 8)) == v
  {
    Limits();
    LeRoundTrip(v, 8);
  }
}
