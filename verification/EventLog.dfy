/** The native event log: framing of events, and the walk that recovery makes over a log it
    opens. An event is a 16-byte header (length, type, flags, CRC-32C), the payload, and a
    16-byte sentinel (magic and the event's own file offset). */
module EventLog {
  import opened Bytes
  import opened Common
  import Crc32c

  /** EVENT_LOG_SENTINEL_MAGIC, "ZCLEVTLG" on disk. */
  const SENTINEL: nat := 0x474C_5456_454C_435A

  /** EVENT_LOG_MAX_PAYLOAD, 256 MiB. */
  const MAX_PAYLOAD: nat := 0x1000_0000

  const U32_LIMIT: nat := 0x1_0000_0000
  const U64_LIMIT: nat := 0x1_0000_0000_0000_0000

  datatype Event = Event(kind: nat, flags: nat, payload: seq<Byte>)

  ghost predicate GoodEvent(e: Event) {
    e.kind < U32_LIMIT && e.flags < U32_LIMIT && |e.payload| <= 0x1000_0000
  }

  function Octets(s: seq<Byte>): (r: seq<bv8>)
    ensures |r| == |s| && forall i :: 0 <= i < |s| ==> r[i] == s[i] as bv8
  {
    seq(|s|, i requires 0 <= i < |s| => s[i] as bv8)
  }

  /** The payload checksum, as the four bytes the header holds. */
  function Checksum(s: seq<Byte>): (c: seq<Byte>)
    ensures |c| == 4
  {
    Crc32c.LeBytes(Crc32c.Crc(Octets(s)))
  }

  function FrameLen(e: Event): nat {
    32 + |e.payload|
  }

  function Header(e: Event): (h: seq<Byte>)
    ensures |h| == 16
  {
    Le(|e.payload|, 4) + Le(e.kind, 4) + Le(e.flags, 4) + Checksum(e.payload)
  }

  /** The bytes of an event that starts at file offset off. */
  function Frame(e: Event, off: nat): (f: seq<Byte>)
    ensures |f| == FrameLen(e)
  {
    Header(e) + e.payload + (Le(SENTINEL, 8) + Le(off, 8))
  }

  /** The log holding the events from file offset off on. */
  function Stream(es: seq<Event>, off: nat): seq<Byte> {
    if es == [] then [] else Frame(es[0], off) + Stream(es[1..], off + FrameLen(es[0]))
  }

  /** The event at cursor, if the file holds all of it and it checks out. */
  function EventAt(f: seq<Byte>, cursor: nat): (r: Option<Event>)
    ensures r.Some? ==> cursor + FrameLen(r.value) <= |f|
  {
    if cursor + 32 > |f| then None
    else
      var plen := U32(f[cursor..cursor + 4]);
      if plen > MAX_PAYLOAD || cursor + 32 + plen > |f| then None
      else
        var payload := f[cursor + 16..cursor + 16 + plen];
        var s := cursor + 16 + plen;
        if U64(f[s..s + 8]) != SENTINEL || U64(f[s + 8..s + 16]) != cursor then None
        else if f[cursor + 12..cursor + 16] != Checksum(payload) then None
        else Some(Event(U32(f[cursor + 4..cursor + 8]), U32(f[cursor + 8..cursor + 12]), payload))
  }

  /** The whole events from cursor on, up to the first that does not check out. */
  function Recovered(f: seq<Byte>, cursor: nat): seq<Event>
    decreases |f| - cursor
  {
    match EventAt(f, cursor)
    case None => []
    case Some(e) => [e] + Recovered(f, cursor + FrameLen(e))
  }

  /** recover_truncate_partial: the end of the last good event, where the file is cut. */
  method Recover(f: seq<Byte>) returns (goodEnd: nat, events: seq<Event>)
    ensures events == Recovered(f, 0) && goodEnd == |Stream(events, 0)| && goodEnd <= |f|
  {
    hide EventAt, Stream, Recovered, Frame;
    goodEnd, events := 0, [];
    StreamEmpty(0);
    ghost var rest := Recovered(f, 0);
    while goodEnd + 32 <= |f|
      invariant goodEnd <= |f| && goodEnd == |Stream(events, 0)|
      invariant events + rest == Recovered(f, 0) && rest == Recovered(f, goodEnd)
      decreases |f| - goodEnd
    {
      RecoveredTurn(f, goodEnd);
      var e := EventAt(f, goodEnd);
      if e.None? {
        return;
      }
      StreamPush(events, 0, e.value);
      events, rest := events + [e.value], rest[1..];
      goodEnd := goodEnd + FrameLen(e.value);
    }
    EventAtEnd(f, goodEnd);
    RecoveredTurn(f, goodEnd);
  }

  lemma RecoveredTurn(f: seq<Byte>, cursor: nat)
    ensures EventAt(f, cursor).None? ==> Recovered(f, cursor) == []
    ensures EventAt(f, cursor).Some? ==>
              var e := EventAt(f, cursor).value; Recovered(f, cursor) == [e] + Recovered(f, cursor + FrameLen(e))
  {
    hide EventAt;
  }

  lemma StreamEmpty(off: nat)
    ensures Stream([], off) == []
  {
  }

  lemma EventAtEnd(f: seq<Byte>, cursor: nat)
    requires cursor + 32 > |f|
    ensures EventAt(f, cursor).None?
  {
  }

  /** Appending an event appends its frame, at the offset the log has reached. */
  lemma {:induction false} StreamPush(es: seq<Event>, off: nat, e: Event)
    ensures Stream(es + [e], off) == Stream(es, off) + Frame(e, off + |Stream(es, off)|)
    decreases |es|
  {
    hide Frame;
    if es == [] {
      assert [e][1..] == [];
    } else {
      var next := off + FrameLen(es[0]);
      assert (es + [e])[1..] == es[1..] + [e];
      StreamPush(es[1..], next, e);
    }
  }

  lemma StreamFront(es: seq<Event>, off: nat)
    requires es != []
    ensures Stream(es, off) == Frame(es[0], off) + Stream(es[1..], off + FrameLen(es[0]))
  {
  }

  lemma JoinedFronts(s: seq<Byte>, f: seq<Byte>, a: seq<Byte>, b: seq<Byte>, fa: seq<Byte>)
    requires s == f + (a + b) && fa == f + a
    ensures s == fa + b
  {
  }

  lemma {:induction false} StreamSplit(es: seq<Event>, k: nat, off: nat)
    requires k <= |es|
    ensures Stream(es, off) == Stream(es[..k], off) + Stream(es[k..], off + |Stream(es[..k], off)|)
    decreases k
  {
    hide Frame, Stream;
    if k == 0 {
      assert es[..0] == [] && es[0..] == es;
      StreamEmpty(off);
    } else {
      var next := off + FrameLen(es[0]);
      var front := es[..k];
      assert es[1..][..k - 1] == front[1..] && es[1..][k - 1..] == es[k..] && front[0] == es[0];
      StreamFront(es, off);
      StreamFront(front, off);
      StreamSplit(es[1..], k - 1, next);
      var mid := next + |Stream(front[1..], next)|;
      assert mid == off + |Stream(front, off)|;
      JoinedFronts(Stream(es, off), Frame(es[0], off), Stream(front[1..], next), Stream(es[k..], mid), Stream(front, off));
    }
  }

  /** The fields of a frame, wherever it lies in a file. */
  lemma FrameFields(f: seq<Byte>, c: nat, e: Event)
    requires c + FrameLen(e) <= |f| && f[c..c + FrameLen(e)] == Frame(e, c)
    ensures f[c..c + 4] == Le(|e.payload|, 4) && f[c + 4..c + 8] == Le(e.kind, 4)
    ensures f[c + 8..c + 12] == Le(e.flags, 4) && f[c + 12..c + 16] == Checksum(e.payload)
    ensures var s := c + 16 + |e.payload|;
            && f[c + 16..s] == e.payload
            && f[s..s + 8] == Le(SENTINEL, 8) && f[s + 8..s + 16] == Le(c, 8)
  {
    hide Checksum, Frame, Le;
    var b := c + FrameLen(e);
    var n := |e.payload|;
    FrameParts(e, c);
    SubSlice(f, c, b, 0, 4);
    SubSlice(f, c, b, 4, 8);
    SubSlice(f, c, b, 8, 12);
    SubSlice(f, c, b, 12, 16);
    SubSlice(f, c, b, 16, 16 + n);
    SubSlice(f, c, b, 16 + n, 24 + n);
    SubSlice(f, c, b, 24 + n, 32 + n);
  }

  lemma HeaderParts(e: Event)
    ensures var h := Header(e);
            h[0..4] == Le(|e.payload|, 4) && h[4..8] == Le(e.kind, 4) && h[8..12] == Le(e.flags, 4) && h[12..16] == Checksum(e.payload)
  {
    hide Checksum, Le;
  }

  lemma FrameParts(e: Event, c: nat)
    ensures var g, n := Frame(e, c), |e.payload|;
            && g[0..4] == Le(n, 4) && g[4..8] == Le(e.kind, 4) && g[8..12] == Le(e.flags, 4) && g[12..16] == Checksum(e.payload)
            && g[16..16 + n] == e.payload
            && g[16 + n..24 + n] == Le(SENTINEL, 8) && g[24 + n..32 + n] == Le(c, 8)
  {
    hide Checksum, Le, Header;
    var g, n, h := Frame(e, c), |e.payload|, Header(e);
    HeaderParts(e);
    assert g[0..4] == h[0..4] && g[4..8] == h[4..8] && g[8..12] == h[8..12] && g[12..16] == h[12..16];
    assert g[16..16 + n] == e.payload;
    assert g[16 + n..24 + n] == Le(SENTINEL, 8) && g[24 + n..32 + n] == Le(c, 8);
  }

  /** The checksum of the payload "123456789" is stored as 83 92 06 E3. */
  lemma ChecksumCheck()
    ensures Checksum([0x31, 0x32, 0x33, 0x34, 0x35, 0x36, 0x37, 0x38, 0x39]) == [0x83, 0x92, 0x06, 0xE3]
  {
    hide Crc32c.Crc, Crc32c.LeBytes;
    Crc32c.CheckValue();
    assert Octets([0x31, 0x32, 0x33, 0x34, 0x35, 0x36, 0x37, 0x38, 0x39]) ==
           [0x31, 0x32, 0x33, 0x34, 0x35, 0x36, 0x37, 0x38, 0x39];
  }

  /** The sentinel on disk spells ZCLEVTLG. */
  lemma SentinelBytes()
    ensures Le(SENTINEL, 8) == [0x5A, 0x43, 0x4C, 0x45, 0x56, 0x54, 0x4C, 0x47]
  {
    assert Le(0x47, 1) == [0x47];
    assert Le(0x474C_54, 3) == [0x54, 0x4C, 0x47];
    assert Le(0x474C_5456_45, 5) == [0x45, 0x56, 0x54, 0x4C, 0x47];
  }

  /** A frame in place is read back as its event. */
  lemma ReadsFrame(f: seq<Byte>, c: nat, e: Event)
    requires GoodEvent(e) && c < U64_LIMIT
    requires c + FrameLen(e) <= |f| && f[c..c + FrameLen(e)] == Frame(e, c)
    ensures EventAt(f, c) == Some(e)
  {
    hide Frame, Checksum, U32, U64;
    FrameFields(f, c, e);
    U32RoundTrip(|e.payload|);
    U32RoundTrip(e.kind);
    U32RoundTrip(e.flags);
    U64RoundTrip(SENTINEL);
    U64RoundTrip(c);
  }

  lemma U32Bytes(s: seq<Byte>)
    requires |s| == 4
    ensures Le(U32(s), 4) == s
  {
    UnLeRoundTrip(s);
  }

  lemma U64Bytes(s: seq<Byte>)
    requires |s| == 8
    ensures Le(U64(s), 8) == s
  {
    UnLeRoundTrip(s);
  }

  /** What is read as an event is that event's frame, byte for byte. */
  lemma ReadIsFrame(f: seq<Byte>, c: nat)
    requires EventAt(f, c).Some?
    ensures var e := EventAt(f, c).value;
            GoodEvent(e) && f[c..c + FrameLen(e)] == Frame(e, c)
  {
    hide Checksum, U32, U64, Le;
    var e := EventAt(f, c).value;
    var s := c + 16 + |e.payload|;
    U32Bytes(f[c..c + 4]);
    U32Bytes(f[c + 4..c + 8]);
    U32Bytes(f[c + 8..c + 12]);
    U64Bytes(f[s..s + 8]);
    U64Bytes(f[s + 8..s + 16]);
    Joined4(f, c, c + 4, c + 8, c + 12, c + 16);
    Joined4(f, c, c + 16, s, s + 8, s + 16);
    assert f[c..c + 16] + f[c + 16..s] + (f[s..s + 8] + f[s + 8..s + 16]) == f[c..s + 16];
  }

  lemma Joined4(f: seq<Byte>, a: nat, b: nat, c: nat, d: nat, e: nat)
    requires a <= b <= c <= d <= e <= |f|
    ensures f[a..b] + f[b..c] + f[c..d] + f[d..e] == f[a..e]
  {
  }

  /** Recovery never invents: the prefix it keeps is the log of the events it reports. */
  lemma {:induction false} RecoveredIsPrefix(f: seq<Byte>, c: nat)
    requires c <= |f|
    ensures var es := Recovered(f, c);
            && (forall i :: 0 <= i < |es| ==> GoodEvent(es[i]))
            && c + |Stream(es, c)| <= |f| && f[c..c + |Stream(es, c)|] == Stream(es, c)
    decreases |f| - c
  {
    hide EventAt, Frame, GoodEvent, Recovered;
    RecoveredTurn(f, c);
    if EventAt(f, c).None? {
    } else {
      var e := EventAt(f, c).value;
      var next := c + FrameLen(e);
      ReadIsFrame(f, c);
      RecoveredIsPrefix(f, next);
      var rest := Recovered(f, next);
      var n := |Stream(rest, next)|;
      assert ([e] + rest)[1..] == rest;
      assert f[c..next + n] == f[c..next] + f[next..next + n];
    }
  }

  /** Recovery never stops early: every log the file begins with is kept whole. */
  lemma {:induction false} RecoveredIsLongest(f: seq<Byte>, c: nat, es: seq<Event>)
    requires |f| < U64_LIMIT && (forall i :: 0 <= i < |es| ==> GoodEvent(es[i]))
    requires c + |Stream(es, c)| <= |f| && f[c..c + |Stream(es, c)|] == Stream(es, c)
    ensures es <= Recovered(f, c)
    decreases |es|
  {
    hide EventAt, Frame, GoodEvent, Recovered;
    if es == [] {
    } else {
      var e, rest := es[0], es[1..];
      var next := c + FrameLen(e);
      var g := f[c..c + |Stream(es, c)|];
      assert g[..FrameLen(e)] == Frame(e, c) && g[FrameLen(e)..] == Stream(rest, next);
      SubSlice(f, c, c + |g|, 0, FrameLen(e));
      SubSlice(f, c, c + |g|, FrameLen(e), |g|);
      ReadsFrame(f, c, e);
      RecoveredTurn(f, c);
      RecoveredIsLongest(f, next, rest);
      assert es == [e] + rest;
    }
  }

  /** How many of the events end at or before byte n. */
  function Whole(es: seq<Event>, off: nat, n: nat): (k: nat)
    ensures k <= |es|
  {
    if es == [] || off + FrameLen(es[0]) > n then 0 else 1 + Whole(es[1..], off + FrameLen(es[0]), n)
  }

  /** A log cut anywhere, as by a torn write, is recovered to its last whole event. */
  lemma {:induction false} TornLogRecovered(f: seq<Byte>, es: seq<Event>, c: nat, n: nat)
    requires (forall i :: 0 <= i < |es| ==> GoodEvent(es[i])) && |f| < U64_LIMIT
    requires c <= n <= c + |Stream(es, c)| && |f| == n && f[c..] == Stream(es, c)[..n - c]
    ensures Recovered(f, c) == es[..Whole(es, c, n)]
    decreases |es|
  {
    hide EventAt, Frame, GoodEvent, Recovered;
    RecoveredTurn(f, c);
    if es == [] {
      EventAtEnd(f, c);
    } else {
      var e, rest := es[0], es[1..];
      var next := c + FrameLen(e);
      var s := Stream(es, c);
      assert s == Frame(e, c) + Stream(rest, next);
      if next <= n {
        assert f[c..next] == f[c..][..FrameLen(e)] == s[..FrameLen(e)] == Frame(e, c);
        ReadsFrame(f, c, e);
        assert f[next..] == f[c..][FrameLen(e)..] == Stream(rest, next)[..n - next];
        TornLogRecovered(f, rest, next, n);
        assert es[..Whole(es, c, n)] == [e] + rest[..Whole(rest, next, n)];
      } else {
        TornFrameUnread(f, c, e, s);
      }
    }
  }

  /** A frame that is cut short is not read as an event. */
  lemma TornFrameUnread(f: seq<Byte>, c: nat, e: Event, s: seq<Byte>)
    requires GoodEvent(e) && c <= |f| < c + FrameLen(e) && |s| >= FrameLen(e) && s[..FrameLen(e)] == Frame(e, c)
    requires f[c..] == s[..|f| - c]
    ensures EventAt(f, c).None?
  {
    hide Checksum, U32, U64;
    if c + 32 <= |f| {
      assert f[c..c + 4] == f[c..][..4] == s[..FrameLen(e)][..4] == Frame(e, c)[..4] == Le(|e.payload|, 4);
      U32RoundTrip(|e.payload|);
    }
  }
}
