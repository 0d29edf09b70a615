/** The UTXO sidecar: the file the snapshot generator writes and the loader reads back. */
module Sidecar {
  import opened Bytes
  import opened Common

  const HEADER: nat := 104
  const VERSION: nat := 1
  const TWO32: int := 0x1_0000_0000
  const TWO64: int := 0x1_0000_0000_0000_0000

  /** "ZCLUTXO" and a zero byte. */
  const MAGIC: seq<Byte> := [90, 67, 76, 85, 84, 88, 79, 0]

  /** A 256-bit hash of a byte string. */
  type Sha3 = f: seq<Byte> -> seq<Byte> | forall s :: |f(s)| == 32 witness ((s: seq<Byte>) => seq(32, i => 0))

  /** An output of a legacy coins record, with the widths of struct legacy_coins_vout. */
  datatype Vout = Vout(n: nat, value: int, script: seq<Byte>)

  datatype LegacyCoins = LegacyCoins(txid: seq<Byte>, height: int, coinbase: bool, vouts: seq<Vout>)

  /** struct uss_record, as the loader hands it out. */
  datatype Record = Record(txid: seq<Byte>, vout: nat, value: int, script: seq<Byte>, height: nat, coinbase: Byte)

  datatype Header = Header(height: nat, count: nat, supply: int, anchor: seq<Byte>, sha3: seq<Byte>)

  predicate FitsInt64(v: int) {
    -0x8000_0000_0000_0000 <= v < 0x8000_0000_0000_0000
  }

  /** The casts between int64_t and uint64_t. */
  function ToU64(v: int): (r: nat)
    ensures r < TWO64
  {
    v % TWO64
  }

  function ToI64(v: nat): int {
    if v < 0x8000_0000_0000_0000 then v else v - TWO64
  }

  function ToU32(v: int): (r: nat)
    ensures r < TWO32
  {
    v % TWO32
  }

  /** A signed value comes back through the unsigned one exactly when it fits in 64 bits. */
  lemma SignedRoundTrip(v: int)
    ensures ToI64(ToU64(v)) == v <==> FitsInt64(v)
  {
  }

  predicate VoutOk(o: Vout) {
    o.n < TWO32 && FitsInt64(o.value) && |o.script| < TWO32
  }

  predicate CoinsOk(c: LegacyCoins) {
    && |c.txid| == 32 && -0x8000_0000 <= c.height < 0x8000_0000
    && forall i :: 0 <= i < |c.vouts| ==> VoutOk(c.vouts[i])
  }

  predicate RecordOk(r: Record) {
    |r.txid| == 32 && r.vout < TWO32 && FitsInt64(r.value) && |r.script| < TWO32 && r.height < TWO32
  }

  /** The bytes of one record. */
  function Encoded(r: Record): seq<Byte> {
    r.txid + Le(r.vout, 4) + Le(ToU64(r.value), 8) + Le(|r.script|, 4) + r.script + Le(r.height, 4) + [r.coinbase]
  }

  function Body(rs: seq<Record>): seq<Byte> {
    if rs == [] then [] else Body(rs[..|rs| - 1]) + Encoded(rs[|rs| - 1])
  }

  /** The record at the front of s, if one is there whole: the loader's two bounds checks. */
  function First(s: seq<Byte>): Option<Record> {
    if |s| < 48 then None
    else
      var len := U32(s[44..48]);
      if |s| - 48 < len + 5 then None
      else Some(Record(s[..32], U32(s[32..36]), ToI64(U64(s[36..44])), s[48..48 + len],
                       U32(s[48 + len..52 + len]), s[52 + len]))
  }

  /** The first count records of s. */
  function Records(s: seq<Byte>, count: nat): Option<seq<Record>> {
    if count == 0 then Some([])
    else
      var r := First(s);
      if r.None? then None
      else
        FirstFits(s);
        var rest := Records(s[|r.value.script| + 53..], count - 1);
        if rest.None? then None else Some([r.value] + rest.value)
  }

  lemma FirstFits(s: seq<Byte>)
    ensures First(s).Some? ==> |First(s).value.script| + 53 <= |s|
  {
  }

  lemma {:induction false} EncodedParts(r: Record, rest: seq<Byte>)
    requires RecordOk(r)
    ensures var s, len := Encoded(r) + rest, |r.script|;
      && |Encoded(r)| == len + 53 && s[..32] == r.txid && s[32..36] == Le(r.vout, 4)
      && s[36..44] == Le(ToU64(r.value), 8) && s[44..48] == Le(len, 4) && s[48..48 + len] == r.script
      && s[48 + len..52 + len] == Le(r.height, 4) && s[52 + len] == r.coinbase && s[len + 53..] == rest
  {
    hide Le, ToU64;
    var s, len := Encoded(r) + rest, |r.script|;
    var t := r.txid + Le(r.vout, 4) + Le(ToU64(r.value), 8) + Le(len, 4);
    assert |t| == 48;
    assert s == t + (r.script + Le(r.height, 4) + [r.coinbase] + rest);
    assert s[..48] == t;
    assert s[44..48] == t[44..48] && s[36..44] == t[36..44] && s[32..36] == t[32..36] && s[..32] == t[..32];
  }

  /** Reading a record back from the front of any byte string that starts with it. */
  lemma FirstEncoded(r: Record, rest: seq<Byte>)
    requires RecordOk(r)
    ensures First(Encoded(r) + rest) == Some(r)
    ensures (Encoded(r) + rest)[|r.script| + 53..] == rest
  {
    hide Encoded, Le, ToU64, ToI64, U32, U64;
    EncodedParts(r, rest);
    U32RoundTrip(r.vout); U64RoundTrip(ToU64(r.value)); U32RoundTrip(|r.script|); U32RoundTrip(r.height);
    SignedRoundTrip(r.value);
  }

  lemma {:induction false} BodyFront(rs: seq<Record>)
    requires rs != []
    ensures Body(rs) == Encoded(rs[0]) + Body(rs[1..])
    decreases |rs|
  {
    hide Encoded;
    var last := |rs| - 1;
    if last == 0 {
      assert rs[..last] == [] && rs[1..] == [];
    } else {
      BodyFront(rs[..last]);
      assert rs[..last][1..] == rs[1..][..last - 1];
      assert rs[1..][last - 1] == rs[last];
    }
  }

  /** The stream decodes back to the records, whatever follows it. */
  lemma {:induction false} RecordsOfBody(rs: seq<Record>, rest: seq<Byte>)
    requires forall i :: 0 <= i < |rs| ==> RecordOk(rs[i])
    ensures Records(Body(rs) + rest, |rs|) == Some(rs)
    decreases |rs|
  {
    hide Encoded, First, RecordOk, Body;
    if rs == [] {
    } else {
      BodyFront(rs);
      var more := Body(rs[1..]) + rest;
      assert Body(rs) + rest == Encoded(rs[0]) + more;
      FirstEncoded(rs[0], more);
      RecordsOfBody(rs[1..], rest);
      assert rs == [rs[0]] + rs[1..];
    }
  }

  /** Two record lists with the same bytes are the same list: no count is needed to tell them apart. */
  lemma {:induction false} BodyInjective(a: seq<Record>, b: seq<Record>)
    requires forall i :: 0 <= i < |a| ==> RecordOk(a[i])
    requires forall i :: 0 <= i < |b| ==> RecordOk(b[i])
    requires Body(a) == Body(b)
    ensures a == b
    decreases |a|
  {
    hide Encoded, First, RecordOk;
    if a != [] {
      BodyFront(a);
      FirstEncoded(a[0], Body(a[1..]));
    }
    if b != [] {
      BodyFront(b);
      FirstEncoded(b[0], Body(b[1..]));
    }
    assert a == [] <==> b == [] by {
      FirstOfNothing();
    }
    if a == [] {
    } else {
      BodyInjective(a[1..], b[1..]);
      assert a == [a[0]] + a[1..] && b == [b[0]] + b[1..];
    }
  }

  lemma FirstOfNothing()
    ensures First([]) == None
  {
  }

  function RecordAt(c: LegacyCoins, i: nat): Record
    requires i < |c.vouts|
  {
    Record(c.txid, c.vouts[i].n, c.vouts[i].value, c.vouts[i].script, ToU32(c.height), if c.coinbase then 1 else 0)
  }

  /** The records of the first n outputs of a coins record. */
  function RecordsOf(c: LegacyCoins, n: nat): (rs: seq<Record>)
    requires n <= |c.vouts|
    ensures |rs| == n
  {
    seq(n, i requires 0 <= i < n => RecordAt(c, i))
  }

  /** All the records, in the order visited. */
  function AllRecords(cs: seq<LegacyCoins>): seq<Record> {
    if cs == [] then []
    else AllRecords(cs[..|cs| - 1]) + RecordsOf(cs[|cs| - 1], |cs[|cs| - 1].vouts|)
  }

  function Supply(rs: seq<Record>): int {
    if rs == [] then 0 else Supply(rs[..|rs| - 1]) + rs[|rs| - 1].value
  }

  /** The greatest height visited, and at least 0: coins records without outputs count too. */
  function TopHeight(cs: seq<LegacyCoins>): int {
    if cs == [] then 0
    else
      var t := TopHeight(cs[..|cs| - 1]);
      if cs[|cs| - 1].height > t then cs[|cs| - 1].height else t
  }

  function Zeros(n: nat): (s: seq<Byte>)
    ensures |s| == n
  {
    seq(n, i => 0)
  }

  /** The 104 header bytes; the fields that are never set stay zero. */
  function HeaderBytes(h: Header): seq<Byte> {
    MAGIC + Le(VERSION, 4) + Zeros(4) + Le(h.height, 4) + Zeros(4) + Le(h.count, 8) + Le(ToU64(h.supply), 8)
    + h.anchor + h.sha3
  }

  predicate HeaderOk(h: Header) {
    h.height < TWO32 && h.count < TWO64 && FitsInt64(h.supply) && |h.anchor| == 32 && |h.sha3| == 32
  }

  /** uss_open. */
  function Open(file: seq<Byte>, verify: bool, expected: Option<seq<Byte>>, sha3: Sha3): Option<Header> {
    if |file| < HEADER || file[..8] != MAGIC || U32(file[8..12]) != VERSION then None
    else if expected.Some? && expected.value != file[72..104] then None
    else if verify && sha3(file[HEADER..]) != file[72..104] then None
    else Some(Header(U32(file[16..20]), U64(file[24..32]), ToI64(U64(file[32..40])), file[40..72], file[72..104]))
  }

  lemma HeaderParts(h: Header, body: seq<Byte>)
    requires |h.anchor| == 32 && |h.sha3| == 32
    ensures var f := HeaderBytes(h) + body;
      && |HeaderBytes(h)| == HEADER && f[..8] == MAGIC && f[8..12] == Le(VERSION, 4)
      && f[16..20] == Le(h.height, 4) && f[24..32] == Le(h.count, 8) && f[32..40] == Le(ToU64(h.supply), 8)
      && f[40..72] == h.anchor && f[72..104] == h.sha3 && f[104..] == body
  {
    hide Le, ToU64, Zeros;
    var f := HeaderBytes(h) + body;
    var front := MAGIC + Le(VERSION, 4) + Zeros(4) + Le(h.height, 4) + Zeros(4);
    assert |front| == 24 && front[..8] == MAGIC && front[8..12] == Le(VERSION, 4) && front[16..20] == Le(h.height, 4);
    assert f == front + (Le(h.count, 8) + Le(ToU64(h.supply), 8) + h.anchor + h.sha3 + body);
    assert f[..24] == front;
    assert f[..8] == front[..8] && f[8..12] == front[8..12] && f[16..20] == front[16..20];
  }

  /** A file whose header carries the hash of its body is accepted, and its header read back. */
  lemma OpenWritten(h: Header, body: seq<Byte>, verify: bool, expected: Option<seq<Byte>>, sha3: Sha3)
    requires HeaderOk(h) && h.sha3 == sha3(body)
    ensures Open(HeaderBytes(h) + body, verify, expected, sha3) ==
              if expected.Some? && expected.value != h.sha3 then None else Some(h)
  {
    hide HeaderBytes, Le, ToU64, ToI64, U32, U64;
    HeaderParts(h, body);
    U32RoundTrip(VERSION); U32RoundTrip(h.height); U64RoundTrip(h.count); U64RoundTrip(ToU64(h.supply));
    SignedRoundTrip(h.supply);
  }

  /** uss_iter: the records are handed to the visitor up to the first it refuses. On success those
      handed out are the first n, all but the last accepted, and n is the whole count unless the last
      was refused. It fails exactly on reaching a record that is not there whole. */
  method Iterate(file: seq<Byte>, count: nat, visit: Record -> bool) returns (n: int, rs: seq<Record>)
    requires |file| >= HEADER
    ensures |rs| <= count && Records(file[HEADER..], |rs|) == Some(rs)
    ensures forall i :: 0 <= i < |rs| - 1 ==> visit(rs[i])
    ensures if n >= 0 then n == |rs| && (n < count ==> n > 0 && !visit(rs[n - 1]))
            else n == -1 && |rs| < count && Records(file[HEADER..], |rs| + 1) == None && (rs != [] ==> visit(rs[|rs| - 1]))
  {
    hide First, Follows, Records;
    var p := HEADER;
    n, rs := 0, [];
    FollowsStart(file[HEADER..]);
    while n < count
      invariant HEADER <= p <= |file| && 0 <= n == |rs| <= count
      invariant Records(file[HEADER..], |rs|) == Some(rs)
      invariant forall i :: 0 <= i < |rs| ==> visit(rs[i])
      invariant Follows(file[HEADER..], rs, file[p..])
    {
      var r := First(file[p..]);
      FollowsNext(file[HEADER..], rs, file[p..]);
      if r.None? {
        return -1, rs;
      }
      FirstFits(file[p..]);
      assert file[p..][|r.value.script| + 53..] == file[p + |r.value.script| + 53..];
      p := p + |r.value.script| + 53;
      n, rs := n + 1, rs + [r.value];
      if !visit(r.value) {
        return;
      }
    }
  }

  /** rest is what lies behind the records rs at the front of s. */
  ghost predicate Follows(s: seq<Byte>, rs: seq<Record>, rest: seq<Byte>) {
    forall k: nat :: Records(s, |rs| + k) == Prepend(rs, Records(rest, k))
  }

  lemma FollowsStart(s: seq<Byte>)
    ensures Follows(s, [], s) && Records(s, 0) == Some([])
  {
    hide First;
    forall k: nat ensures Prepend([], Records(s, k)) == Records(s, k) {
      if Records(s, k).Some? {
        assert [] + Records(s, k).value == Records(s, k).value;
      }
    }
  }

  /** The next record, or its absence, seen from the front. */
  lemma FollowsNext(s: seq<Byte>, rs: seq<Record>, rest: seq<Byte>)
    requires Follows(s, rs, rest)
    ensures var r := First(rest);
            if r.None? then Records(s, |rs| + 1) == None
            else
              && |r.value.script| + 53 <= |rest| && Follows(s, rs + [r.value], rest[|r.value.script| + 53..])
              && Records(s, |rs| + 1) == Some(rs + [r.value])
  {
    hide First;
    var r := First(rest);
    FirstFits(rest);
    assert Records(s, |rs| + 1) == Prepend(rs, Records(rest, 1));
    if r.Some? {
      var more := rest[|r.value.script| + 53..];
      assert Records(more, 0) == Some([]);
      assert [r.value] + [] == [r.value];
      assert Records(rest, 1) == Some([r.value]);
      forall k: nat ensures Records(s, |rs + [r.value]| + k) == Prepend(rs + [r.value], Records(more, k)) {
        assert Records(s, |rs| + (k + 1)) == Prepend(rs, Records(rest, k + 1));
        assert Records(rest, k + 1) == Prepend([r.value], Records(more, k));
        PrependMore(rs, r.value, Records(more, k));
      }
    }
  }

  function Prepend(rs: seq<Record>, more: Option<seq<Record>>): Option<seq<Record>> {
    if more.None? then None else Some(rs + more.value)
  }

  lemma PrependMore(rs: seq<Record>, r: Record, more: Option<seq<Record>>)
    ensures Prepend(rs, Prepend([r], more)) == Prepend(rs + [r], more)
  {
    if more.Some? {
      assert rs + ([r] + more.value) == rs + [r] + more.value;
    }
  }

  /** struct gen_snap_ctx over a file that can still take room bytes, without the two fields that
      are only printed. */
  class Generator {
    var file: seq<Byte>
    var hashed: seq<Byte>
    var room: nat
    var vouts: nat
    var supply: int
    var maxHeight: int
    var fatal: bool

    constructor (room: nat)
      ensures file == [] && hashed == [] && this.room == room && !fatal
      ensures vouts == 0 && supply == 0 && maxHeight == 0
    {
      file, hashed, this.room := [], [], room;
      vouts, supply, maxHeight, fatal := 0, 0, 0, false;
    }

    /** gen_snap_write: bytes that reach the file are hashed, and a short write is fatal. */
    method Write(p: seq<Byte>) returns (ok: bool)
      requires !fatal
      modifies this`file, this`hashed, this`room, this`fatal
      ensures ok == (|p| <= old(room))
      ensures ok ==> file == old(file) + p && hashed == old(hashed) + p && room == old(room) - |p| && !fatal
      ensures !ok ==> fatal
      ensures old(file) <= file
    {
      if |p| > room {
        file, room, fatal := file + p[..room], 0, true;
        return false;
      }
      file, hashed, room := file + p, hashed + p, room - |p|;
      return true;
    }

    /** The seven writes of one output. */
    method WriteRecord(r: Record) returns (ok: bool)
      requires RecordOk(r) && !fatal
      modifies this`file, this`hashed, this`room, this`fatal
      ensures ok == (|Encoded(r)| <= old(room))
      ensures ok ==> file == old(file) + Encoded(r) && hashed == old(hashed) + Encoded(r)
      ensures ok ==> room == old(room) - |Encoded(r)| && !fatal
      ensures !ok ==> fatal
      ensures old(file) <= file
    {
      hide Le, ToU64, Encoded;
      EncodedParts(r, []);
      ghost var f, s := file, hashed;
      ok := Write(r.txid);
      if !ok { return; }
      ok := Write(Le(r.vout, 4));
      if !ok { return; }
      ok := Write(Le(ToU64(r.value), 8));
      if !ok { return; }
      ok := Write(Le(|r.script|, 4));
      if !ok { return; }
      if |r.script| > 0 {
        ok := Write(r.script);
        if !ok { return; }
      }
      ok := Write(Le(r.height, 4));
      if !ok { return; }
      ok := Write([r.coinbase]);
      if ok {
        WritesJoin(f, r);
        WritesJoin(s, r);
      }
    }

    /** gen_snap_cb: every output of one coins record. */
    method Visit(c: LegacyCoins) returns (ok: bool)
      requires CoinsOk(c)
      modifies this
      ensures ok ==> !fatal && !old(fatal)
      ensures ok ==> file == old(file) + Body(RecordsOf(c, |c.vouts|))
                     && hashed == old(hashed) + Body(RecordsOf(c, |c.vouts|))
      ensures ok ==> vouts == old(vouts) + |c.vouts| && supply == old(supply) + Supply(RecordsOf(c, |c.vouts|))
      ensures ok ==> maxHeight == (if c.height > old(maxHeight) then c.height else old(maxHeight))
      ensures ok ==> room == old(room) - |Body(RecordsOf(c, |c.vouts|))|
      ensures ok == (!old(fatal) && |Body(RecordsOf(c, |c.vouts|))| <= old(room))
      ensures !ok ==> fatal
      ensures old(file) <= file
    {
      hide Encoded, RecordsOf, Body, Supply, CoinsOk, RecordOk;
      if fatal {
        return false;
      }
      if c.height > maxHeight {
        maxHeight := c.height;
      }
      RecordsStart(c);
      for i := 0 to |c.vouts|
        invariant !fatal && room == old(room) - |Body(RecordsOf(c, i))|
        invariant file == old(file) + Body(RecordsOf(c, i)) && hashed == old(hashed) + Body(RecordsOf(c, i))
        invariant vouts == old(vouts) + i && supply == old(supply) + Supply(RecordsOf(c, i))
        invariant maxHeight == (if c.height > old(maxHeight) then c.height else old(maxHeight))
      {
        RecordsStep(c, i);
        ok := WriteRecord(RecordAt(c, i));
        if !ok {
          BodyGrows(c, i + 1, |c.vouts|);
          return;
        }
        supply := supply + c.vouts[i].value;
        vouts := vouts + 1;
      }
      ok := true;
    }
  }

  lemma WritesJoin(f: seq<Byte>, r: Record)
    ensures f + r.txid + Le(r.vout, 4) + Le(ToU64(r.value), 8) + Le(|r.script|, 4) + r.script + Le(r.height, 4)
            + [r.coinbase] == f + Encoded(r)
  {
    hide Le, ToU64;
  }

  lemma RecordsStart(c: LegacyCoins)
    ensures Body(RecordsOf(c, 0)) == [] && Supply(RecordsOf(c, 0)) == 0
  {
  }

  lemma RecordsStep(c: LegacyCoins, i: nat)
    requires CoinsOk(c) && i < |c.vouts|
    ensures RecordOk(RecordAt(c, i))
    ensures Body(RecordsOf(c, i + 1)) == Body(RecordsOf(c, i)) + Encoded(RecordAt(c, i))
    ensures Supply(RecordsOf(c, i + 1)) == Supply(RecordsOf(c, i)) + RecordAt(c, i).value
  {
    hide Encoded;
    assert RecordsOf(c, i + 1)[..i] == RecordsOf(c, i);
  }

  lemma {:induction false} BodyGrows(c: LegacyCoins, i: nat, n: nat)
    requires CoinsOk(c) && i <= n <= |c.vouts|
    ensures |Body(RecordsOf(c, i))| <= |Body(RecordsOf(c, n))|
    decreases n
  {
    hide Body, RecordsOf, CoinsOk;
    if i == n {
    } else {
      BodyGrows(c, i, n - 1);
      RecordsStep(c, n - 1);
    }
  }

  lemma {:induction false} BodyJoin(a: seq<Record>, b: seq<Record>)
    ensures Body(a + b) == Body(a) + Body(b) && Supply(a + b) == Supply(a) + Supply(b)
    decreases |b|
  {
    hide Encoded;
    if b == [] {
      assert a + b == a;
    } else {
      var last := |b| - 1;
      BodyJoin(a, b[..last]);
      assert (a + b)[..|a| + last] == a + b[..last];
      assert (a + b)[|a| + last] == b[last];
    }
  }

  /** With BodyJoin this makes the supply the sum of the values. */
  lemma SupplyOne(r: Record)
    ensures Supply([]) == 0 && Supply([r]) == r.value
  {
    assert [r][..0] == [];
  }

  lemma AllRecordsStep(cs: seq<LegacyCoins>, k: nat)
    requires k < |cs|
    ensures AllRecords(cs[..k + 1]) == AllRecords(cs[..k]) + RecordsOf(cs[k], |cs[k].vouts|)
    ensures TopHeight(cs[..k + 1]) == if cs[k].height > TopHeight(cs[..k]) then cs[k].height else TopHeight(cs[..k])
  {
    assert cs[..k + 1][..k] == cs[..k];
  }

  lemma {:induction false} AllRecordsOk(cs: seq<LegacyCoins>)
    requires forall i :: 0 <= i < |cs| ==> CoinsOk(cs[i])
    ensures forall i :: 0 <= i < |AllRecords(cs)| ==> RecordOk(AllRecords(cs)[i])
    decreases |cs|
  {
    if cs == [] {
    } else {
      var last := |cs| - 1;
      AllRecordsOk(cs[..last]);
      forall i | 0 <= i < |cs[last].vouts| ensures RecordOk(RecordAt(cs[last], i)) {
        RecordsStep(cs[last], i);
      }
    }
  }

  /** The header of a snapshot of cs at block best, before its supply is cut to 64 bits. */
  ghost function HeaderFor(cs: seq<LegacyCoins>, best: seq<Byte>, sha3: Sha3): Header {
    var rs := AllRecords(cs);
    Header(ToU32(TopHeight(cs)), ToU64(|rs|), Supply(rs), best, sha3(Body(rs)))
  }

  /** gen_utxo_snapshot_mode from the open output file on: a zero header, the records, then the
      header written over the zeros. iterOk is the verdict of the chainstate iterator, and put the
      number of header bytes that the final write gets through, none if the seek fails. */
  method Generate(cs: seq<LegacyCoins>, best: seq<Byte>, sha3: Sha3, room: nat, iterOk: bool, put: nat)
    returns (ok: bool, file: seq<Byte>)
    requires |best| == 32 && put <= HEADER && forall i :: 0 <= i < |cs| ==> CoinsOk(cs[i])
    ensures ok <==> iterOk && put == HEADER && HEADER + |Body(AllRecords(cs))| <= room
    ensures ok ==> file == HeaderBytes(HeaderFor(cs, best, sha3)) + Body(AllRecords(cs))
    ensures iterOk && HEADER + |Body(AllRecords(cs))| <= room ==>
              file == HalfWritten(HeaderFor(cs, best, sha3), put) + Body(AllRecords(cs))
    ensures !(iterOk && HEADER + |Body(AllRecords(cs))| <= room) ==> forall verify, expected :: Open(file, verify, expected, sha3) == None
  {
    hide Body, HeaderBytes, Open, AllRecords, TopHeight, CoinsOk, Supply;
    if room < HEADER {
      file := Zeros(room);
      ZerosRefused(file, room, sha3);
      return false, file;
    }
    var g := new Generator(room - HEADER);
    g.file := Zeros(HEADER);
    ok := Stream(g, cs);
    if !ok || !iterOk {
      ZerosRefused(g.file, HEADER, sha3);
      return false, g.file;
    }
    var h := Header(ToU32(g.maxHeight), ToU64(g.vouts), g.supply, best, sha3(g.hashed));
    HeaderParts(h, []);
    file := HeaderBytes(h)[..put] + g.file[put..];
    ok := put == HEADER;
    Overwritten(h, put, Body(AllRecords(cs)));
  }

  /** The header bytes after put of them have been written over zeros. */
  function HalfWritten(h: Header, put: nat): seq<Byte>
    requires |h.anchor| == 32 && |h.sha3| == 32 && put <= HEADER
  {
    HeaderParts(h, []);
    HeaderBytes(h)[..put] + Zeros(HEADER - put)
  }

  lemma Overwritten(h: Header, put: nat, body: seq<Byte>)
    requires |h.anchor| == 32 && |h.sha3| == 32 && put <= HEADER
    ensures |HeaderBytes(h)| == HEADER
    ensures HeaderBytes(h)[..put] + (Zeros(HEADER) + body)[put..] == HalfWritten(h, put) + body
    ensures put == HEADER ==> HalfWritten(h, put) == HeaderBytes(h)
  {
    hide HeaderBytes;
    HeaderParts(h, []);
  }

  /** When a file is opened whose header was written half way: nine bytes, up to the version, are enough
      for the loader, and with verification on the part of the hash that is missing must be zero. */
  lemma HalfWrittenOpens(h: Header, put: nat, body: seq<Byte>, verify: bool, sha3: Sha3)
    requires |h.anchor| == 32 && h.sha3 == sha3(body) && put <= HEADER
    ensures Open(HalfWritten(h, put) + body, verify, None, sha3).Some? <==>
              put >= 9 && (verify ==> forall i :: put <= i + 72 && 0 <= i < 32 ==> h.sha3[i] == 0)
  {
    hide HeaderBytes, Le, ToU64, ToI64, U32, U64;
    var f, b := HalfWritten(h, put) + body, HeaderBytes(h);
    HeaderParts(h, []);
    VersionBytes();
    assert b + [] == b;
    assert f[HEADER..] == body;
    assert forall i :: 0 <= i < HEADER ==> f[i] == if i < put then b[i] else 0;
    assert forall i :: 0 <= i < 8 ==> b[i] == b[..8][i];
    assert forall i :: 0 <= i < 4 ==> b[i + 8] == b[8..12][i];
    assert forall i :: 0 <= i < 32 ==> b[i + 72] == h.sha3[i];
    if put >= 9 {
      assert f[..8] == MAGIC;
      assert f[8..12] == [1, 0, 0, 0];
    } else {
      assert f[8] == 0 && f[8..12][0] != 1;
    }
    assert f[72..104] == h.sha3 <==> forall i :: put <= i + 72 && 0 <= i < 32 ==> h.sha3[i] == 0 by {
      assert forall i :: 0 <= i < 32 ==> f[72..104][i] == f[i + 72];
    }
  }

  /** The magic spells ZCLUTXO, with a zero behind it. */
  lemma MagicSpells()
    ensures MAGIC == ['Z' as int, 'C' as int, 'L' as int, 'U' as int, 'T' as int, 'X' as int, 'O' as int, 0]
  {
  }

  lemma VersionBytes()
    ensures Le(VERSION, 4) == [1, 0, 0, 0] && U32([1, 0, 0, 0]) == VERSION
    ensures forall s: seq<Byte> :: |s| == 4 && s[0] != 1 ==> U32(s) != VERSION
  {
  }

  /** chainstate_legacy_iter over the coins records, up to the first the visitor refuses. */
  method Stream(g: Generator, cs: seq<LegacyCoins>) returns (ok: bool)
    requires forall i :: 0 <= i < |cs| ==> CoinsOk(cs[i])
    requires !g.fatal && g.file == Zeros(HEADER) && g.hashed == []
    requires g.vouts == 0 && g.supply == 0 && g.maxHeight == 0
    modifies g
    ensures ok <==> |Body(AllRecords(cs))| <= old(g.room)
    ensures ok ==> g.file == Zeros(HEADER) + Body(AllRecords(cs)) && g.hashed == Body(AllRecords(cs))
    ensures ok ==> g.vouts == |AllRecords(cs)| && g.supply == Supply(AllRecords(cs)) && g.maxHeight == TopHeight(cs)
    ensures Zeros(HEADER) <= g.file
  {
    hide Body, AllRecords, TopHeight, CoinsOk, Supply, Zeros, RecordsOf;
    StreamStart(cs);
    for k := 0 to |cs|
      invariant !g.fatal && g.room == old(g.room) - |Body(AllRecords(cs[..k]))|
      invariant g.file == Zeros(HEADER) + Body(AllRecords(cs[..k])) && g.hashed == Body(AllRecords(cs[..k]))
      invariant g.vouts == |AllRecords(cs[..k])| && g.supply == Supply(AllRecords(cs[..k]))
      invariant g.maxHeight == TopHeight(cs[..k])
    {
      AllRecordsStep(cs, k);
      BodyJoin(AllRecords(cs[..k]), RecordsOf(cs[k], |cs[k].vouts|));
      ok := g.Visit(cs[k]);
      if !ok {
        StreamGrows(cs, k + 1, |cs|);
        assert cs[..|cs|] == cs;
        return;
      }
    }
    assert cs[..|cs|] == cs;
    ok := true;
  }

  lemma StreamStart(cs: seq<LegacyCoins>)
    ensures AllRecords(cs[..0]) == [] && Body([]) == [] && Supply([]) == 0 && TopHeight(cs[..0]) == 0
  {
  }

  lemma {:induction false} StreamGrows(cs: seq<LegacyCoins>, k: nat, n: nat)
    requires k <= n <= |cs|
    ensures |Body(AllRecords(cs[..k]))| <= |Body(AllRecords(cs[..n]))|
    decreases n
  {
    hide Body, AllRecords, TopHeight;
    if k == n {
    } else {
      StreamGrows(cs, k, n - 1);
      AllRecordsStep(cs, n - 1);
      BodyJoin(AllRecords(cs[..n - 1]), RecordsOf(cs[n - 1], |cs[n - 1].vouts|));
    }
  }

  /** A file that still starts with the zero header is not opened. */
  lemma ZerosRefused(file: seq<Byte>, n: nat, sha3: Sha3)
    requires n <= HEADER && Zeros(n) <= file && (n < HEADER ==> |file| == n)
    ensures forall verify, expected :: Open(file, verify, expected, sha3) == None
  {
    if n == HEADER {
      assert file[0] == Zeros(n)[0];
      assert file[..8][0] != MAGIC[0];
    }
  }

  /** The outputs of the first i coins records. */
  ghost function Before(cs: seq<LegacyCoins>, i: nat): nat
    requires i <= |cs|
  {
    if i == 0 then 0 else Before(cs, i - 1) + |cs[i - 1].vouts|
  }

  /** Record k is the output o of the coins record c, field by field; a height is stored as 32 bits. */
  ghost predicate Carries(rs: seq<Record>, k: nat, c: LegacyCoins, o: Vout) {
    && k < |rs| && rs[k].txid == c.txid && rs[k].vout == o.n && rs[k].value == o.value && rs[k].script == o.script
    && rs[k].height == c.height % 0x1_0000_0000 && rs[k].coinbase == if c.coinbase then 1 else 0
  }

  /** Every output visited is a record, at the place its order gives it. */
  lemma {:induction false} OutputCarried(cs: seq<LegacyCoins>, i: nat, j: nat)
    requires i < |cs| && j < |cs[i].vouts|
    ensures Carries(AllRecords(cs), Before(cs, i) + j, cs[i], cs[i].vouts[j])
    decreases |cs|
  {
    hide RecordsOf;
    var n := |cs| - 1;
    var front, rs := cs[..n], RecordsOf(cs[n], |cs[n].vouts|);
    BeforePrefix(cs, n, i);
    AllBefore(front);
    if i < n {
      OutputCarried(front, i, j);
    } else {
      LastRecord(cs[n], j);
      assert AllRecords(cs)[Before(cs, i) + j] == rs[j];
    }
  }

  /** The records are the outputs visited, in order. */
  ghost predicate CarriesAll(rs: seq<Record>, cs: seq<LegacyCoins>) {
    && |rs| == Before(cs, |cs|)
    && forall i, j :: 0 <= i < |cs| && 0 <= j < |cs[i].vouts| ==> Carries(rs, Before(cs, i) + j, cs[i], cs[i].vouts[j])
  }

  lemma OutputsCarried(cs: seq<LegacyCoins>)
    ensures CarriesAll(AllRecords(cs), cs)
  {
    hide Carries, AllRecords, Before;
    AllBefore(cs);
    forall i, j | 0 <= i < |cs| && 0 <= j < |cs[i].vouts|
      ensures Carries(AllRecords(cs), Before(cs, i) + j, cs[i], cs[i].vouts[j])
    {
      OutputCarried(cs, i, j);
    }
  }

  lemma LastRecord(c: LegacyCoins, j: nat)
    requires j < |c.vouts|
    ensures RecordsOf(c, |c.vouts|)[j] == RecordAt(c, j)
  {
  }

  lemma {:induction false} AllBefore(cs: seq<LegacyCoins>)
    ensures |AllRecords(cs)| == Before(cs, |cs|)
    decreases |cs|
  {
    hide RecordsOf;
    if cs == [] {
    } else {
      AllBefore(cs[..|cs| - 1]);
      BeforePrefix(cs, |cs| - 1, |cs| - 1);
    }
  }

  lemma {:induction false} BeforePrefix(cs: seq<LegacyCoins>, n: nat, i: nat)
    requires i <= n <= |cs|
    ensures Before(cs, i) == Before(cs[..n], i)
    decreases i
  {
    if i == 0 {
    } else {
      BeforePrefix(cs, n, i - 1);
    }
  }

  /** The height in the header: the greatest height visited, at least 0. */
  lemma {:induction false} TopHeightIs(cs: seq<LegacyCoins>)
    ensures TopHeight(cs) >= 0 && (forall i :: 0 <= i < |cs| ==> cs[i].height <= TopHeight(cs))
    ensures TopHeight(cs) == 0 || exists i :: 0 <= i < |cs| && cs[i].height == TopHeight(cs)
    decreases |cs|
  {
    if cs == [] {
    } else {
      TopHeightIs(cs[..|cs| - 1]);
    }
  }

  /** What a generated file loads as: it is accepted with verification on, the loader's records are
      the outputs visited, the count is their number, and the supply is their sum exactly when the
      sum fits in 64 bits. */
  lemma GeneratedLoads(cs: seq<LegacyCoins>, best: seq<Byte>, sha3: Sha3, file: seq<Byte>) returns (h: Header)
    requires |best| == 32 && forall i :: 0 <= i < |cs| ==> CoinsOk(cs[i])
    requires |AllRecords(cs)| < TWO64
    requires file == HeaderBytes(HeaderFor(cs, best, sha3)) + Body(AllRecords(cs))
    ensures Open(file, true, Some(sha3(Body(AllRecords(cs)))), sha3) == Some(h)
    ensures |file| >= HEADER && Records(file[HEADER..], h.count) == Some(AllRecords(cs))
    ensures h.count == |AllRecords(cs)| && h.height == ToU32(TopHeight(cs)) && h.anchor == best
    ensures h.supply == Supply(AllRecords(cs)) <==> FitsInt64(Supply(AllRecords(cs)))
    ensures CarriesAll(AllRecords(cs), cs)
  {
    hide CarriesAll, HeaderBytes, Body, Open, Records, CoinsOk, RecordOk, AllRecords, TopHeight, Supply;
    hide ToU32, ToU64, ToI64, FitsInt64;
    var rs, full := AllRecords(cs), HeaderFor(cs, best, sha3);
    h := full.(supply := ToI64(ToU64(full.supply)));
    CutHeader(full);
    CountFits(|rs|);
    OpenWritten(h, Body(rs), true, Some(sha3(Body(rs))), sha3);
    AllRecordsOk(cs);
    FileRecords(full, rs);
    SignedRoundTrip(Supply(rs));
    OutputsCarried(cs);
  }

  lemma FileRecords(h: Header, rs: seq<Record>)
    requires |h.anchor| == 32 && |h.sha3| == 32 && forall i :: 0 <= i < |rs| ==> RecordOk(rs[i])
    ensures |HeaderBytes(h)| == HEADER
    ensures Records((HeaderBytes(h) + Body(rs))[HEADER..], |rs|) == Some(rs)
  {
    hide HeaderBytes, Body, Records, RecordOk, ToU64, Le;
    HeaderParts(h, Body(rs));
    RecordsOfBody(rs, []);
    assert Body(rs) + [] == Body(rs);
  }

  lemma CountFits(n: nat)
    requires n < TWO64
    ensures ToU64(n) == n
  {
  }

  lemma CutHeader(h: Header)
    ensures HeaderBytes(h.(supply := ToI64(ToU64(h.supply)))) == HeaderBytes(h)
    ensures FitsInt64(ToI64(ToU64(h.supply)))
  {
    hide Le, Zeros;
    assert ToU64(ToI64(ToU64(h.supply))) == ToU64(h.supply);
  }
}
