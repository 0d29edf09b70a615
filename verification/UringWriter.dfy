/** The bulk event-log writer: eight staging buffers streamed to one file through io_uring.
    The kernel completes writes in any order and may write any prefix of a buffer; the rest
    is then written synchronously. */
module UringWriter {
  import opened Bytes
  import opened EventLog

  const NBUF: nat := 8
  const CAP: nat := 4 * 1024 * 1024

  /** pwrite: bytes at an offset; a gap past the end of the file reads as zeros. */
  function Pwrite(file: seq<Byte>, off: nat, data: seq<Byte>): (r: seq<Byte>)
    ensures data == [] ==> r == file
    ensures data != [] ==> |r| == if |file| < off + |data| then off + |data| else |file|
    ensures forall x :: off <= x < off + |data| ==> r[x] == data[x - off]
    ensures forall x :: 0 <= x < |r| && !(off <= x < off + |data|) ==> r[x] == if x < |file| then file[x] else 0
  {
    if data == [] then file
    else
      seq(if |file| < off + |data| then off + |data| else |file|,
          x requires 0 <= x => if off <= x < off + |data| then data[x - off] else if x < |file| then file[x] else 0)
  }

  /** full_pwrite: repeats short writes until all of data is written. */
  method FullPwrite(file: seq<Byte>, off: nat, data: seq<Byte>) returns (r: seq<Byte>)
    ensures r == Pwrite(file, off, data)
  {
    r := file;
    var done := 0;
    while done < |data|
      invariant 0 <= done <= |data| && r == Pwrite(file, off, data[..done])
    {
      var w: nat :| 1 <= w <= |data| - done;
      PwriteTwice(file, off, data, done, w);
      r := Pwrite(r, off + done, data[done..done + w]);
      done := done + w;
    }
    assert data[..done] == data;
  }

  lemma PwriteTwice(file: seq<Byte>, off: nat, data: seq<Byte>, done: nat, w: nat)
    requires done + w <= |data|
    ensures Pwrite(Pwrite(file, off, data[..done]), off + done, data[done..done + w]) == Pwrite(file, off, data[..done + w])
  {
  }

  /** A completion of res bytes, the remainder written synchronously if it is short. */
  method Complete(file: seq<Byte>, off: nat, data: seq<Byte>, res: nat) returns (r: seq<Byte>)
    requires res <= |data|
    ensures r == Pwrite(file, off, data)
  {
    hide Pwrite;
    r := Pwrite(file, off, data[..res]);
    if res != |data| {
      PwriteTwice(file, off, data, res, |data| - res);
      assert data[res..res + (|data| - res)] == data[res..] && data[..res + (|data| - res)] == data;
      r := FullPwrite(r, off + res, data[res..]);
    } else {
      assert data[..res] == data;
    }
  }

  /** A buffer handed to the kernel: its length and its place in the file. */
  datatype Flight = Flight(len: nat, off: nat)

  ghost predicate InRange(fl: Flight, x: nat) {
    fl.off <= x < fl.off + fl.len
  }

  /** Byte x of the log is on disk, or in a buffer in flight. */
  ghost predicate Accounted(stream: seq<Byte>, file: seq<Byte>, fl: map<nat, Flight>, x: nat)
    requires x < |stream|
  {
    (exists i :: i in fl && InRange(fl[i], x)) || (x < |file| && file[x] == stream[x])
  }

  /** What the pool and the file say of the first base bytes of the log: every byte is on disk
      or in a buffer in flight that holds it, and buffers in flight do not overlap. */
  ghost predicate Core(stream: seq<Byte>, base: nat, file: seq<Byte>, buf: seq<seq<Byte>>, fl: map<nat, Flight>) {
    && |buf| == NBUF && (forall i :: 0 <= i < NBUF ==> |buf[i]| == CAP)
    && base <= |stream| && |file| <= base
    && (forall i :: i in fl ==> i < NBUF && fl[i].len <= CAP && fl[i].off + fl[i].len <= base
                                && buf[i][..fl[i].len] == stream[fl[i].off..fl[i].off + fl[i].len])
    && (forall i, j, x: nat :: i in fl && j in fl && i != j && InRange(fl[i], x) ==> !InRange(fl[j], x))
    && (forall x: nat :: x < base ==> Accounted(stream, file, fl, x))
  }

  /** One completion: the kernel wrote res bytes, the rest follows synchronously. */
  lemma CompletionKeepsCore(stream: seq<Byte>, base: nat, file: seq<Byte>, buf: seq<seq<Byte>>, fl: map<nat, Flight>, i: nat)
    requires Core(stream, base, file, buf, fl) && i in fl
    ensures Core(stream, base, Pwrite(file, fl[i].off, buf[i][..fl[i].len]), buf, fl - {i})
  {
    var data := buf[i][..fl[i].len];
    var file' := Pwrite(file, fl[i].off, data);
    var fl' := fl - {i};
    forall x: nat | x < base ensures Accounted(stream, file', fl', x) {
      assert Accounted(stream, file, fl, x);
      if InRange(fl[i], x) {
        var s := stream[fl[i].off..fl[i].off + fl[i].len];
        assert data != [] && x < |file'| && file'[x] == data[x - fl[i].off];
        assert s[x - fl[i].off] == stream[x];
      } else if j :| j in fl && InRange(fl[j], x) {
        assert j in fl' && InRange(fl'[j], x);
      } else {
        assert x < |file| <= |file'| && file'[x] == file[x];
      }
    }
  }

  /** A full buffer goes out: the kernel takes over its bytes. */
  lemma SubmitKeepsCore(stream: seq<Byte>, base: nat, file: seq<Byte>, buf: seq<seq<Byte>>, fl: map<nat, Flight>, i: nat, len: nat)
    requires Core(stream, base, file, buf, fl) && i < NBUF && i !in fl && len <= CAP
    requires base + len <= |stream| && buf[i][..len] == stream[base..base + len]
    ensures Core(stream, base + len, file, buf, fl[i := Flight(len, base)])
  {
    var fl' := fl[i := Flight(len, base)];
    forall x: nat | x < base + len ensures Accounted(stream, file, fl', x) {
      if x < base {
        assert Accounted(stream, file, fl, x);
        if j :| j in fl && InRange(fl[j], x) {
          assert j in fl' && InRange(fl'[j], x);
        }
      } else {
        assert InRange(fl'[i], x);
      }
    }
    forall j, k, x: nat | j in fl' && k in fl' && j != k && InRange(fl'[j], x) ensures !InRange(fl'[k], x) {
    }
  }

  /** With nothing in flight the file is the log so far. */
  lemma IdleCore(stream: seq<Byte>, base: nat, file: seq<Byte>, buf: seq<seq<Byte>>, fl: map<nat, Flight>)
    requires Core(stream, base, file, buf, fl) && fl == map[]
    ensures file == stream[..base]
  {
    forall x: nat | x < base ensures x < |file| && file[x] == stream[x] {
      assert Accounted(stream, file, fl, x);
    }
    if base > 0 {
      assert Accounted(stream, file, fl, base - 1);
    }
  }

  /** Bytes beyond base may change, and a buffer that is not in flight may be refilled. */
  lemma AppendKeepsCore(stream: seq<Byte>, more: seq<Byte>, base: nat, file: seq<Byte>, buf: seq<seq<Byte>>, fl: map<nat, Flight>,
                        i: nat, b: seq<Byte>)
    requires Core(stream, base, file, buf, fl) && i < NBUF && i !in fl && |b| == CAP
    ensures Core(stream + more, base, file, buf[i := b], fl)
  {
    var stream', buf' := stream + more, buf[i := b];
    forall x: nat | x < base ensures Accounted(stream', file, fl, x) {
      assert Accounted(stream, file, fl, x);
    }
    forall j | j in fl ensures buf'[j][..fl[j].len] == stream'[fl[j].off..fl[j].off + fl[j].len] {
      assert stream'[fl[j].off..fl[j].off + fl[j].len] == stream[fl[j].off..fl[j].off + fl[j].len];
    }
  }

  /** The log of the first k events is x bytes long. */
  ghost predicate Boundary(es: seq<Event>, k: nat, x: nat)
    requires k <= |es|
  {
    |Stream(es[..k], 0)| == x
  }

  ghost predicate OnBoundary(es: seq<Event>, x: nat) {
    exists k: nat :: k <= |es| && Boundary(es, k, x)
  }

  /** A stretch of the log that begins and ends between two events. */
  ghost predicate Aligned(es: seq<Event>, fl: Flight) {
    OnBoundary(es, fl.off) && OnBoundary(es, fl.off + fl.len)
  }

  lemma BoundaryStays(es: seq<Event>, e: Event, x: nat)
    requires OnBoundary(es, x)
    ensures OnBoundary(es + [e], x)
  {
    hide Stream;
    var k: nat :| k <= |es| && Boundary(es, k, x);
    assert (es + [e])[..k] == es[..k];
    assert Boundary(es + [e], k, x);
  }

  lemma AlignedGrows(es: seq<Event>, e: Event, fl: Flight)
    requires Aligned(es, fl)
    ensures Aligned(es + [e], fl)
  {
    hide OnBoundary;
    BoundaryStays(es, e, fl.off);
    BoundaryStays(es, e, fl.off + fl.len);
  }

  lemma PrefixGrows(es: seq<Event>, j: nat, k: nat)
    requires j <= k <= |es|
    ensures |Stream(es[..j], 0)| <= |Stream(es[..k], 0)|
  {
    hide Stream;
    StreamSplit(es[..k], j, 0);
    assert es[..k][..j] == es[..j];
  }

  /** A boundary lies before event k or behind it, never inside. */
  lemma NeverInside(es: seq<Event>, x: nat, k: nat)
    requires OnBoundary(es, x) && k < |es|
    ensures x <= |Stream(es[..k], 0)| || |Stream(es[..k + 1], 0)| <= x
  {
    hide Stream;
    var j: nat :| j <= |es| && Boundary(es, j, x);
    if j <= k {
      PrefixGrows(es, j, k);
    } else {
      PrefixGrows(es, k + 1, j);
    }
  }

  /** No event straddles two buffers: the bytes of event k lie in the stretch or outside it. */
  lemma EventInOneBuffer(es: seq<Event>, fl: Flight, k: nat)
    requires Aligned(es, fl) && k < |es|
    ensures var from, to := |Stream(es[..k], 0)|, |Stream(es[..k + 1], 0)|;
            (fl.off <= from && to <= fl.off + fl.len) || to <= fl.off || fl.off + fl.len <= from
  {
    hide Stream, OnBoundary;
    NeverInside(es, fl.off, k);
    NeverInside(es, fl.off + fl.len, k);
  }

  /** How far the writer is: buffers submitted, and bytes in the current one. */
  datatype Fill = Fill(submitted: nat, cursor: nat)

  /** An event of n bytes goes into the current buffer if it still fits there, else into the next. */
  function Filled(f: Fill, n: nat): Fill {
    if f.cursor + n > CAP then Fill(f.submitted + 1, n) else Fill(f.submitted, f.cursor + n)
  }

  function FillOf(es: seq<Event>): Fill {
    if es == [] then Fill(0, 0) else Filled(FillOf(es[..|es| - 1]), FrameLen(es[|es| - 1]))
  }

  /** The submissions it takes to write the events and finish. */
  function Submissions(es: seq<Event>): nat {
    FillOf(es).submitted + if FillOf(es).cursor > 0 then 1 else 0
  }

  ghost predicate Taken(accepts: nat -> bool, n: nat) {
    forall k :: 0 <= k < n ==> accepts(k)
  }

  /** The events can be appended: each fits a buffer, and the ring takes what is submitted on the way. */
  ghost predicate Writable(es: seq<Event>, accepts: nat -> bool) {
    (forall i :: 0 <= i < |es| ==> FrameLen(es[i]) <= CAP) && Taken(accepts, FillOf(es).submitted)
  }

  lemma WritableStep(es: seq<Event>, e: Event, accepts: nat -> bool)
    requires Writable(es, accepts)
    ensures FillOf(es + [e]) == Filled(FillOf(es), FrameLen(e))
    ensures Writable(es + [e], accepts) <==>
              FrameLen(e) <= CAP && (FillOf(es).cursor + FrameLen(e) > CAP ==> accepts(FillOf(es).submitted))
  {
    var es' := es + [e];
    assert es'[..|es|] == es && es'[|es|] == e;
    assert FrameLen(e) <= CAP ==> forall i :: 0 <= i < |es'| ==> FrameLen(es'[i]) <= CAP;
  }

  /** The events can be appended and the last buffer sent. */
  ghost predicate Writes(es: seq<Event>, accepts: nat -> bool) {
    Writable(es, accepts) && Taken(accepts, Submissions(es))
  }

  /** What cannot be appended cannot be followed by more. */
  lemma {:induction false} WritablePrefix(es: seq<Event>, more: seq<Event>, accepts: nat -> bool)
    requires Writable(es + more, accepts)
    ensures Writable(es, accepts)
    decreases |more|
  {
    if more == [] {
      assert es + more == es;
    } else {
      var last := |more| - 1;
      var shorter := es + more[..last];
      assert es + more == shorter + [more[last]];
      assert (es + more)[..|es + more| - 1] == shorter;
      assert forall i :: 0 <= i < |shorter| ==> shorter[i] == (es + more)[i];
      WritablePrefix(es, more[..last], accepts);
    }
  }

  /** struct uw, with the file it writes. accepts says whether the ring takes each submission.
      flights holds blen and boff of the buffers in
      flight. The ghost fields name what has been appended: the events, and how many of them
      had been appended when the last buffer went out. */
  class Writer {
    var file: seq<Byte>
    var buf: seq<seq<Byte>>
    var flights: map<nat, Flight>
    var cur: nat
    var cursor: nat
    var baseOff: nat
    var total: nat
    var events: nat
    var shortWrites: nat
    var submits: nat
    const accepts: nat -> bool
    ghost var appended: seq<Event>
    ghost var sent: nat

    ghost function Log(): seq<Byte>
      reads `appended
    {
      Stream(appended, 0)
    }

    /** Everything but the buffer being filled. */
    ghost predicate PoolValid()
      reads `file, `buf, `flights, `baseOff, `total, `events, `appended, `sent
    {
      && Core(Log(), baseOff, file, buf, flights) && total == baseOff && events == |appended|
      && sent <= |appended| && baseOff == |Stream(appended[..sent], 0)|
      && (forall i :: 0 <= i < |appended| ==> GoodEvent(appended[i]) && appended[i].flags == 0)
      && forall i :: i in flights ==> Aligned(appended, flights[i])
    }

    /** The buffer being filled is not in flight and holds what is not yet sent. */
    ghost predicate Staged()
      reads this
    {
      && PoolValid() && cur < NBUF && cur !in flights && cursor <= CAP
      && |Log()| == baseOff + cursor && buf[cur][..cursor] == Log()[baseOff..]
    }

    function At(): Fill
      reads `submits, `cursor
    {
      Fill(submits, cursor)
    }

    /** Between two appends the buffers are filled as the events so far fill them. */
    ghost predicate Valid()
      reads this
    {
      Staged() && At() == FillOf(appended) && Writable(appended, accepts)
    }

    /** uw_setup */
    constructor (accepts: nat -> bool)
      ensures Valid() && appended == [] && this.accepts == accepts
    {
      this.accepts := accepts;
      submits := 0;
      file, flights := [], map[];
      buf := seq(NBUF, _ => seq(CAP, _ => 0));
      cur, cursor, baseOff, total, events, shortWrites := 0, 0, 0, 0, 0, 0;
      appended, sent := [], 0;
    }

    /** One completion queue entry: the kernel picks a buffer and a length. */
    method ReapOne()
      requires PoolValid() && flights != map[]
      modifies `file, `flights, `shortWrites
      ensures PoolValid() && flights.Keys < old(flights.Keys) && forall i :: i in flights ==> flights[i] == old(flights)[i]
    {
      hide Stream, Core, Aligned;
      assert flights.Keys != {};
      var idx :| idx in flights.Keys;
      var fl := flights[idx];
      InFlight(Log(), baseOff, file, buf, flights, idx);
      var res: nat :| res <= fl.len;
      CompletionKeepsCore(Log(), baseOff, file, buf, flights, idx);
      file := Complete(file, fl.off, buf[idx][..fl.len], res);
      if res != fl.len {
        shortWrites := shortWrites + 1;
      }
      flights := flights - {idx};
    }

    /** uw_reap: every completion posted so far; a blocking call waits for one. */
    method Reap(block: bool)
      requires PoolValid() && (block ==> flights != map[])
      modifies `file, `flights, `shortWrites
      ensures PoolValid() && flights.Keys <= old(flights.Keys) && (block ==> flights.Keys < old(flights.Keys))
    {
      hide Stream, Core, PoolValid;
      if block {
        ReapOne();
      }
      while flights != map[]
        invariant PoolValid() && flights.Keys <= old(flights.Keys) && (block ==> flights.Keys < old(flights.Keys))
        decreases flights.Keys
      {
        if * {
          break;
        }
        ReapOne();
      }
    }

    /** uw_get_free */
    method GetFree() returns (i: nat)
      requires PoolValid()
      modifies `file, `flights, `shortWrites
      ensures PoolValid() && i < NBUF && i !in flights
    {
      hide Stream, Core, PoolValid;
      while true
        invariant PoolValid()
        decreases flights.Keys
      {
        Reap(false);
        i := 0;
        while i < NBUF
          invariant 0 <= i <= NBUF && forall j :: 0 <= j < i ==> j in flights
        {
          if i !in flights {
            return;
          }
          i := i + 1;
        }
        assert 0 in flights;
        Reap(true);
      }
    }

    /** uw_submit: fails when the ring refuses the entry. */
    method Submit(idx: nat, len: nat, off: nat) returns (ok: bool)
      modifies `flights, `submits
      ensures flights == old(flights)[idx := Flight(len, off)]
      ensures ok == accepts(old(submits)) && submits == old(submits) + 1
    {
      flights := flights[idx := Flight(len, off)];
      ok := accepts(submits);
      submits := submits + 1;
    }

    /** The current buffer goes out whole, at an event boundary. */
    method Send() returns (ok: bool)
      requires Staged() && cursor > 0
      modifies this
      ensures appended == old(appended) && submits == old(submits) + 1 && ok == accepts(old(submits))
      ensures ok ==> PoolValid() && baseOff == |Log()|
      ensures flights == old(flights[cur := Flight(cursor, baseOff)])
    {
      hide Stream, Core, Aligned;
      BufferAligned();
      SubmitKeepsCore(Log(), baseOff, file, buf, flights, cur, cursor);
      ok := Submit(cur, cursor, baseOff);
      baseOff := baseOff + cursor;
      total := total + cursor;
      sent := |appended|;
      assert appended[..sent] == appended;
    }

    /** The buffer being filled holds whole events. */
    lemma BufferAligned()
      requires Staged()
      ensures Aligned(appended, Flight(cursor, baseOff))
    {
      hide Stream, Core;
      assert appended[..|appended|] == appended;
      assert Boundary(appended, sent, baseOff);
      assert Boundary(appended, |appended|, baseOff + cursor);
    }

    /** uw_flush: sends the current buffer and takes a free one. */
    method Flush() returns (ok: bool)
      requires Staged()
      modifies this
      ensures appended == old(appended) && ok == (old(cursor) == 0 || accepts(old(submits)))
      ensures submits == old(submits) + (if old(cursor) == 0 then 0 else 1)
      ensures ok ==> Staged() && cursor == 0
    {
      hide Stream, Core, PoolValid;
      if cursor == 0 {
        return true;
      }
      ok := Send();
      if !ok {
        return;
      }
      cur := GetFree();
      cursor := 0;
      assert PoolValid();
      PoolShape();
      assert buf[cur][..0] == Log()[baseOff..];
    }

    /** uw_append: frames one event into the current buffer, after making room for all of it. It
        succeeds exactly when the event fits a buffer and the ring takes the full buffer it displaces. */
    method Append(kind: nat, payload: seq<Byte>) returns (ok: bool)
      requires Valid() && kind < U32_LIMIT && |payload| + 32 < U32_LIMIT
      modifies this
      ensures ok == Writable(old(appended) + [Event(kind, 0, payload)], accepts)
      ensures ok ==> Valid() && appended == old(appended) + [Event(kind, 0, payload)]
      ensures 32 + |payload| > 4194304 ==> !ok && Valid() && appended == old(appended)
    {
      hide Staged, FillOf, Writable;
      StagedCursor();
      ghost var e := Event(kind, 0, payload);
      WritableStep(appended, e, accepts);
      var size := 16 + |payload| + 16;
      if size > CAP {
        return false;
      }
      if cursor + size > CAP {
        ok := Flush();
        if !ok {
          return;
        }
      }
      Place(Event(kind, 0, payload));
      return true;
    }

    lemma StagedCursor()
      requires Staged()
      ensures cursor <= CAP
    {
    }

    /** The frame of one event copied into the current buffer. */
    method Place(e: Event)
      requires Staged() && GoodEvent(e) && e.flags == 0 && cursor + FrameLen(e) <= CAP
      modifies `buf, `appended, `cursor, `events
      ensures Staged() && appended == old(appended) + [e] && cursor == old(cursor) + FrameLen(e)
    {
      hide Core, Frame, Stream, Aligned;
      var size := FrameLen(e);
      var frame := Frame(e, baseOff + cursor);
      PoolShape();
      var filled := buf[cur][..cursor] + frame + buf[cur][cursor + size..];
      StreamPush(appended, 0, e);
      AppendKeepsCore(Log(), frame, baseOff, file, buf, flights, cur, filled);
      ghost var log := Log();
      assert (appended + [e])[..sent] == appended[..sent];
      assert filled[..cursor + size] == (log + frame)[baseOff..];
      forall i | i in flights ensures Aligned(appended + [e], flights[i]) {
        AlignedGrows(appended, e, flights[i]);
      }
      buf := buf[cur := filled];
      appended := appended + [e];
      cursor := cursor + size;
      events := events + 1;
    }

    /** uw_finish: the last buffer goes out and everything is waited for. */
    method Finish() returns (ok: bool)
      requires Valid()
      modifies this
      ensures appended == old(appended) && ok == Taken(accepts, Submissions(appended))
      ensures ok ==> file == Stream(appended, 0) && total == |file| && flights == map[] && events == |appended|
    {
      hide Stream, Core, PoolValid, FillOf;
      ok := Flush();
      if !ok {
        return;
      }
      for i := 0 to NBUF
        invariant PoolValid() && cursor == 0 && baseOff == |Log()| && appended == old(appended)
        invariant forall j :: 0 <= j < i ==> j !in flights
      {
        while i in flights
          invariant PoolValid() && cursor == 0 && baseOff == |Log()| && appended == old(appended)
          invariant forall j :: 0 <= j < i ==> j !in flights
          decreases flights.Keys
        {
          assert flights != map[];
          Reap(true);
        }
      }
      Drained();
    }

    lemma Drained()
      requires PoolValid() && baseOff == |Log()| && forall j :: 0 <= j < NBUF ==> j !in flights
      ensures flights == map[] && file == Stream(appended, 0) && total == |file| && events == |appended|
    {
      hide Stream;
      assert flights.Keys == {};
      IdleCore(Log(), baseOff, file, buf, flights);
    }

    lemma ValidWritable()
      requires Valid()
      ensures Writable(appended, accepts)
    {
    }

    lemma ValidEvents()
      requires Valid()
      ensures forall i :: 0 <= i < |appended| ==> GoodEvent(appended[i])
    {
      hide Core, Stream;
    }

    lemma PoolShape()
      requires PoolValid()
      ensures |buf| == NBUF && (forall i :: 0 <= i < NBUF ==> |buf[i]| == CAP) && baseOff <= |Log()|
    {
    }
  }

  lemma InFlight(stream: seq<Byte>, base: nat, file: seq<Byte>, buf: seq<seq<Byte>>, fl: map<nat, Flight>, i: nat)
    requires Core(stream, base, file, buf, fl) && i in fl
    ensures i < |buf| && fl[i].len <= |buf[i]|
  {
  }

  /** A whole rebuild: append every event, finish, and read the file back. It succeeds exactly when
      every event fits a buffer and the ring takes every submission. Then, whatever order the kernel
      completed the writes in and however short they were, the file is the log of the events and
      recovery finds exactly those. */
  method WriteLog(es: seq<Event>, accepts: nat -> bool) returns (ok: bool, file: seq<Byte>)
    requires forall i :: 0 <= i < |es| ==> es[i].kind < U32_LIMIT && es[i].flags == 0 && |es[i].payload| + 32 < U32_LIMIT
    ensures ok <==> (forall i :: 0 <= i < |es| ==> 32 + |es[i].payload| <= 4194304) && Taken(accepts, Submissions(es))
    ensures ok ==> file == Stream(es, 0)
    ensures ok && |file| < U64_LIMIT ==> Recovered(file, 0) == es
  {
    hide Stream, Recovered, Whole, Writer.Valid, FillOf, Writable;
    file := [];
    WritableAll(es, accepts);
    var u := new Writer(accepts);
    for i := 0 to |es|
      invariant u.Valid() && u.appended == es[..i] && u.accepts == accepts
    {
      ok := u.Append(es[i].kind, es[i].payload);
      assert es[i] == Event(es[i].kind, 0, es[i].payload);
      assert es[..i + 1] == es[..i] + [es[i]];
      if !ok {
        assert es == es[..i + 1] + es[i + 1..];
        if Writable(es, accepts) {
          WritablePrefix(es[..i + 1], es[i + 1..], accepts);
        }
        return;
      }
    }
    assert es[..|es|] == es;
    u.ValidEvents();
    u.ValidWritable();
    ok := u.Finish();
    file := u.file;
    if ok && |file| < U64_LIMIT {
      WholeLogRecovered(es);
    }
  }

  lemma WritableAll(es: seq<Event>, accepts: nat -> bool)
    ensures (forall i :: 0 <= i < |es| ==> FrameLen(es[i]) <= CAP) && Taken(accepts, Submissions(es)) <==>
              Writable(es, accepts) && Taken(accepts, Submissions(es))
  {
    hide FillOf;
  }

  lemma WholeLogRecovered(es: seq<Event>)
    requires (forall i :: 0 <= i < |es| ==> GoodEvent(es[i])) && |Stream(es, 0)| < U64_LIMIT
    ensures Recovered(Stream(es, 0), 0) == es
  {
    hide Recovered, Stream;
    var f := Stream(es, 0);
    assert f[0..] == f == f[..|f| - 0];
    TornLogRecovered(f, es, 0, |f|);
    AllWhole(es, 0);
    assert es[..|es|] == es;
  }

  lemma {:induction false} AllWhole(es: seq<Event>, off: nat)
    ensures Whole(es, off, off + |Stream(es, off)|) == |es|
    decreases |es|
  {
    hide Frame;
    if es == [] {
    } else {
      AllWhole(es[1..], off + FrameLen(es[0]));
    }
  }
}
