/** rebuild_recent: heights lo to tip are split into contiguous segments, each framed into its
    own log by its own writer. */
module RebuildShards {
  import opened Bytes
  import opened Common
  import opened EventLog
  import opened UringWriter

  const EV_BLOCK_HEADER: nat := 1
  const EV_BLOCK_BODY: nat := 2
  const EV_UTXO_ADD: nat := 5
  const EV_UTXO_SPEND: nat := 6

  /** A transaction by the payloads of the events it gives rise to. */
  datatype Tx = Tx(coinbase: bool, outs: seq<seq<Byte>>, ins: seq<seq<Byte>>)

  datatype Block = Block(header: seq<Byte>, body: seq<Byte>, txs: seq<Tx>)

  /** The block on record at each height, if any. */
  type Heights = seq<Option<Block>>

  datatype Tally = Tally(blocks: nat, tx: nat, add: nat, spend: nat)

  function Plus(a: Tally, b: Tally): Tally {
    Tally(a.blocks + b.blocks, a.tx + b.tx, a.add + b.add, a.spend + b.spend)
  }

  /** The event count the tool reports. */
  function Reported(t: Tally): nat {
    2 * t.blocks + t.add + t.spend
  }

  function Events(kind: nat, payloads: seq<seq<Byte>>): (es: seq<Event>)
    ensures |es| == |payloads|
  {
    seq(|payloads|, i requires 0 <= i < |payloads| => Event(kind, 0, payloads[i]))
  }

  /** Outputs are added; a coinbase spends nothing. */
  function TxEvents(tx: Tx): seq<Event> {
    Events(EV_UTXO_ADD, tx.outs) + (if tx.coinbase then [] else Events(EV_UTXO_SPEND, tx.ins))
  }

  function TxTally(tx: Tx): Tally {
    Tally(0, 1, |tx.outs|, if tx.coinbase then 0 else |tx.ins|)
  }

  function TxsEvents(txs: seq<Tx>, n: nat): seq<Event>
    requires n <= |txs|
  {
    if n == 0 then [] else TxsEvents(txs, n - 1) + TxEvents(txs[n - 1])
  }

  function TxsTally(txs: seq<Tx>, n: nat): Tally
    requires n <= |txs|
  {
    if n == 0 then Tally(0, 0, 0, 0) else Plus(TxsTally(txs, n - 1), TxTally(txs[n - 1]))
  }

  function BlockEvents(b: Block): seq<Event> {
    [Event(EV_BLOCK_HEADER, 0, b.header), Event(EV_BLOCK_BODY, 0, b.body)] + TxsEvents(b.txs, |b.txs|)
  }

  function BlockTally(b: Block): Tally {
    Plus(Tally(1, 0, 0, 0), TxsTally(b.txs, |b.txs|))
  }

  /** The events of heights lo to hi - 1, in height order. */
  function RangeEvents(hs: Heights, lo: nat, hi: nat): seq<Event>
    requires lo <= hi <= |hs|
  {
    if lo == hi then []
    else RangeEvents(hs, lo, hi - 1) + (if hs[hi - 1].Some? then BlockEvents(hs[hi - 1].value) else [])
  }

  function RangeTally(hs: Heights, lo: nat, hi: nat): Tally
    requires lo <= hi <= |hs|
  {
    if lo == hi then Tally(0, 0, 0, 0)
    else Plus(RangeTally(hs, lo, hi - 1), if hs[hi - 1].Some? then BlockTally(hs[hi - 1].value) else Tally(0, 0, 0, 0))
  }

  /** The payloads of the events of one kind, in order. */
  ghost function PayloadsOf(es: seq<Event>, kind: nat): seq<seq<Byte>> {
    if es == [] then []
    else PayloadsOf(es[..|es| - 1], kind) + if es[|es| - 1].kind == kind then [es[|es| - 1].payload] else []
  }

  lemma {:induction false} PayloadsJoin(a: seq<Event>, b: seq<Event>, kind: nat)
    ensures PayloadsOf(a + b, kind) == PayloadsOf(a, kind) + PayloadsOf(b, kind)
    decreases |b|
  {
    if b == [] {
      assert a + b == a;
    } else {
      PayloadsJoin(a, b[..|b| - 1], kind);
      assert (a + b)[..|a + b| - 1] == a + b[..|b| - 1];
    }
  }

  lemma {:induction false} PayloadsOfEvents(k: nat, payloads: seq<seq<Byte>>, kind: nat)
    ensures PayloadsOf(Events(k, payloads), kind) == if k == kind then payloads else []
    decreases |payloads|
  {
    if payloads == [] {
    } else {
      var n := |payloads| - 1;
      PayloadsOfEvents(k, payloads[..n], kind);
      assert Events(k, payloads)[..n] == Events(k, payloads[..n]);
      assert payloads == payloads[..n] + [payloads[n]];
    }
  }

  /** The outputs of the first n transactions, and the inputs of those that are no coinbase. */
  ghost function OutputsOf(txs: seq<Tx>, n: nat): seq<seq<Byte>>
    requires n <= |txs|
  {
    if n == 0 then [] else OutputsOf(txs, n - 1) + txs[n - 1].outs
  }

  ghost function InputsOf(txs: seq<Tx>, n: nat): seq<seq<Byte>>
    requires n <= |txs|
  {
    if n == 0 then [] else InputsOf(txs, n - 1) + if txs[n - 1].coinbase then [] else txs[n - 1].ins
  }

  /** The blocks on record at heights lo to hi - 1. */
  ghost function BlocksIn(hs: Heights, lo: nat, hi: nat): seq<Block>
    requires lo <= hi <= |hs|
  {
    if lo == hi then [] else BlocksIn(hs, lo, hi - 1) + if hs[hi - 1].Some? then [hs[hi - 1].value] else []
  }

  /** Their transactions, in order. */
  ghost function TxsOf(bs: seq<Block>): seq<Tx> {
    if bs == [] then [] else TxsOf(bs[..|bs| - 1]) + bs[|bs| - 1].txs
  }

  /** What the events say, kind by kind (header 1, body 2, output added 5, output spent 6), of the given
      blocks, and what the tally counts of them. */
  ghost predicate Says(es: seq<Event>, bs: seq<Block>, t: Tally) {
    && PayloadsOf(es, 1) == seq(|bs|, i requires 0 <= i < |bs| => bs[i].header)
    && PayloadsOf(es, 2) == seq(|bs|, i requires 0 <= i < |bs| => bs[i].body)
    && PayloadsOf(es, 5) == OutputsOf(TxsOf(bs), |TxsOf(bs)|)
    && PayloadsOf(es, 6) == InputsOf(TxsOf(bs), |TxsOf(bs)|)
    && t == Tally(|bs|, |TxsOf(bs)|, |OutputsOf(TxsOf(bs), |TxsOf(bs)|)|, |InputsOf(TxsOf(bs), |TxsOf(bs)|)|)
  }

  lemma {:induction false} OutputsJoin(a: seq<Tx>, b: seq<Tx>)
    ensures OutputsOf(a + b, |a + b|) == OutputsOf(a, |a|) + OutputsOf(b, |b|)
    ensures InputsOf(a + b, |a + b|) == InputsOf(a, |a|) + InputsOf(b, |b|)
    decreases |b|
  {
    hide OutputsOf, InputsOf;
    if b == [] {
      assert a + b == a;
      NoOutputs();
    } else {
      var front, last := b[..|b| - 1], b[|b| - 1];
      OutputsJoin(a, front);
      OutputsPush(a + front, last);
      OutputsPush(front, last);
      assert a + b == (a + front) + [last] && b == front + [last];
    }
  }

  lemma NoOutputs()
    ensures OutputsOf([], 0) == [] && InputsOf([], 0) == []
  {
  }

  lemma OutputsPush(txs: seq<Tx>, tx: Tx)
    ensures OutputsOf(txs + [tx], |txs + [tx]|) == OutputsOf(txs, |txs|) + tx.outs
    ensures InputsOf(txs + [tx], |txs + [tx]|) == InputsOf(txs, |txs|) + if tx.coinbase then [] else tx.ins
  {
    OutputsPrefix(txs + [tx], txs, |txs|);
  }

  lemma {:induction false} OutputsPrefix(txs: seq<Tx>, front: seq<Tx>, n: nat)
    requires n <= |front| <= |txs| && front == txs[..|front|]
    ensures OutputsOf(txs, n) == OutputsOf(front, n) && InputsOf(txs, n) == InputsOf(front, n)
    decreases n
  {
    if n == 0 {
    } else {
      OutputsPrefix(txs, front, n - 1);
    }
  }

  /** The events of one transaction, kind by kind. */
  lemma TxSays(tx: Tx, kind: nat)
    ensures PayloadsOf(TxEvents(tx), kind) ==
              if kind == 5 then tx.outs else if kind == 6 && !tx.coinbase then tx.ins else []
  {
    hide Events, PayloadsOf;
    PayloadsOfEvents(EV_UTXO_ADD, tx.outs, kind);
    PayloadsOfEvents(EV_UTXO_SPEND, tx.ins, kind);
    PayloadsJoin(Events(EV_UTXO_ADD, tx.outs), if tx.coinbase then [] else Events(EV_UTXO_SPEND, tx.ins), kind);
    assert PayloadsOf([], kind) == [] by { NoPayloads(kind); }
  }

  lemma NoPayloads(kind: nat)
    ensures PayloadsOf([], kind) == []
  {
  }

  /** The events and the tally of the first n transactions, kind by kind. */
  lemma {:induction false} TxsSay(txs: seq<Tx>, n: nat)
    requires n <= |txs|
    ensures PayloadsOf(TxsEvents(txs, n), 1) == [] && PayloadsOf(TxsEvents(txs, n), 2) == []
    ensures PayloadsOf(TxsEvents(txs, n), 5) == OutputsOf(txs, n) && PayloadsOf(TxsEvents(txs, n), 6) == InputsOf(txs, n)
    ensures TxsTally(txs, n) == Tally(0, n, |OutputsOf(txs, n)|, |InputsOf(txs, n)|)
    decreases n
  {
    hide TxEvents, PayloadsOf;
    if n == 0 {
      forall k ensures PayloadsOf([], k) == [] {
        NoPayloads(k);
      }
    } else {
      TxsSay(txs, n - 1);
      forall k: nat
        ensures PayloadsOf(TxsEvents(txs, n), k) == PayloadsOf(TxsEvents(txs, n - 1), k) + PayloadsOf(TxEvents(txs[n - 1]), k)
      {
        PayloadsJoin(TxsEvents(txs, n - 1), TxEvents(txs[n - 1]), k);
      }
      TxSays(txs[n - 1], 1);
      TxSays(txs[n - 1], 2);
      TxSays(txs[n - 1], 5);
      TxSays(txs[n - 1], 6);
    }
  }

  /** The same for one block. */
  lemma BlockSays(b: Block)
    ensures Says(BlockEvents(b), [b], BlockTally(b))
  {
    hide TxsEvents, TxsTally, OutputsOf, InputsOf;
    TxsSay(b.txs, |b.txs|);
    var head := [Event(EV_BLOCK_HEADER, 0, b.header), Event(EV_BLOCK_BODY, 0, b.body)];
    var txs := TxsEvents(b.txs, |b.txs|);
    HeadSays(b, head);
    PayloadsJoin(head, txs, 1);
    PayloadsJoin(head, txs, 2);
    PayloadsJoin(head, txs, 5);
    PayloadsJoin(head, txs, 6);
    assert [b][..0] == [];
    assert TxsOf([b]) == b.txs;
  }

  lemma HeadSays(b: Block, head: seq<Event>)
    requires head == [Event(EV_BLOCK_HEADER, 0, b.header), Event(EV_BLOCK_BODY, 0, b.body)]
    ensures PayloadsOf(head, 1) == [b.header] && PayloadsOf(head, 2) == [b.body]
    ensures PayloadsOf(head, 5) == [] && PayloadsOf(head, 6) == []
  {
    forall k: nat
      ensures PayloadsOf(head, k) == if k == 1 then [b.header] else if k == 2 then [b.body] else []
    {
      PayloadsOfOne(head[0], k);
      PayloadsOfOne(head[1], k);
      PayloadsJoin([head[0]], [head[1]], k);
      assert [head[0]] + [head[1]] == head;
    }
  }

  lemma PayloadsOfOne(e: Event, kind: nat)
    ensures PayloadsOf([e], kind) == if e.kind == kind then [e.payload] else []
  {
    assert [e][..0] == [];
  }

  /** What two stretches say together. */
  lemma SaysJoin(es: seq<Event>, bs: seq<Block>, t: Tally, b: Block, fs: seq<Event>, u: Tally)
    requires Says(es, bs, t) && Says(fs, [b], u)
    ensures Says(es + fs, bs + [b], Plus(t, u))
  {
    hide OutputsOf, InputsOf, PayloadsOf;
    PayloadsJoin(es, fs, 1);
    PayloadsJoin(es, fs, 2);
    PayloadsJoin(es, fs, 5);
    PayloadsJoin(es, fs, 6);
    assert (bs + [b])[..|bs|] == bs && [b][..0] == [];
    assert TxsOf([b]) == TxsOf([]) + b.txs == b.txs;
    assert TxsOf(bs + [b]) == TxsOf(bs) + b.txs;
    OutputsJoin(TxsOf(bs), b.txs);
  }

  /** The events of a range say exactly what its blocks hold: every header and body, every output as
      added, every input of a transaction that is no coinbase as spent, in order, and the tally counts
      them. */
  lemma {:induction false} RangeSays(hs: Heights, lo: nat, hi: nat)
    requires lo <= hi <= |hs|
    ensures Says(RangeEvents(hs, lo, hi), BlocksIn(hs, lo, hi), RangeTally(hs, lo, hi))
    decreases hi
  {
    hide BlockEvents, BlockTally, Says;
    if lo == hi {
      NothingSaid();
    } else {
      RangeSays(hs, lo, hi - 1);
      if hs[hi - 1].Some? {
        BlockSays(hs[hi - 1].value);
        SaysJoin(RangeEvents(hs, lo, hi - 1), BlocksIn(hs, lo, hi - 1), RangeTally(hs, lo, hi - 1), hs[hi - 1].value,
                 BlockEvents(hs[hi - 1].value), BlockTally(hs[hi - 1].value));
      } else {
        assert RangeEvents(hs, lo, hi) == RangeEvents(hs, lo, hi - 1);
        assert BlocksIn(hs, lo, hi) == BlocksIn(hs, lo, hi - 1);
      }
    }
  }

  lemma NothingSaid()
    ensures Says([], [], Tally(0, 0, 0, 0))
  {
  }

  /** Every payload is one the 32-bit event size can describe. */
  predicate PayloadOk(p: seq<Byte>) {
    |p| + 32 < U32_LIMIT
  }

  predicate TxOk(tx: Tx) {
    && (forall j :: 0 <= j < |tx.outs| ==> PayloadOk(tx.outs[j]))
    && forall j :: 0 <= j < |tx.ins| ==> PayloadOk(tx.ins[j])
  }

  predicate BlockOk(b: Block) {
    PayloadOk(b.header) && PayloadOk(b.body) && forall i :: 0 <= i < |b.txs| ==> TxOk(b.txs[i])
  }

  /** Appends one event per payload. */
  method AppendAll(u: Writer, kind: nat, payloads: seq<seq<Byte>>) returns (ok: bool)
    requires u.Valid() && kind < U32_LIMIT && forall j :: 0 <= j < |payloads| ==> PayloadOk(payloads[j])
    modifies u
    ensures ok == Writable(old(u.appended) + Events(kind, payloads), u.accepts)
    ensures ok ==> u.Valid() && u.appended == old(u.appended) + Events(kind, payloads)
  {
    hide Writer.Valid, Writable, Events;
    ok := true;
    ghost var start, all := u.appended, Events(kind, payloads);
    EventsNone(kind, payloads);
    assert start + [] == start;
    for i := 0 to |payloads|
      invariant u.Valid() && u.appended == start + all[..i]
    {
      EventsAt(kind, payloads, i);
      assert start + all[..i] + [all[i]] == start + all[..i + 1];
      ok := u.Append(kind, payloads[i]);
      if !ok {
        assert start + all == start + all[..i + 1] + all[i + 1..];
        if Writable(start + all, u.accepts) {
          WritablePrefix(start + all[..i + 1], all[i + 1..], u.accepts);
        }
        return;
      }
    }
    assert start + all[..|payloads|] == start + all;
    u.ValidWritable();
    ok := true;
  }

  lemma EventsNone(kind: nat, payloads: seq<seq<Byte>>)
    ensures |Events(kind, payloads)| == |payloads| && Events(kind, payloads)[..0] == []
  {
  }

  lemma EventsAt(kind: nat, payloads: seq<seq<Byte>>, i: nat)
    requires i < |payloads|
    ensures Events(kind, payloads)[i] == Event(kind, 0, payloads[i])
  {
  }

  /** The outputs and inputs of one transaction. */
  method FrameTx(u: Writer, tx: Tx) returns (ok: bool)
    requires u.Valid() && TxOk(tx)
    modifies u
    ensures ok == Writable(old(u.appended) + TxEvents(tx), u.accepts)
    ensures ok ==> u.Valid() && u.appended == old(u.appended) + TxEvents(tx)
  {
    hide Writer.Valid, Writable, Events, PayloadOk;
    ghost var start, adds := u.appended, Events(EV_UTXO_ADD, tx.outs);
    ghost var spends := if tx.coinbase then [] else Events(EV_UTXO_SPEND, tx.ins);
    assert start + TxEvents(tx) == start + adds + spends;
    ok := AppendAll(u, EV_UTXO_ADD, tx.outs);
    if !ok {
      if Writable(start + adds + spends, u.accepts) {
        WritablePrefix(start + adds, spends, u.accepts);
      }
      return;
    }
    if !tx.coinbase {
      ok := AppendAll(u, EV_UTXO_SPEND, tx.ins);
    } else {
      assert start + adds + spends == start + adds;
    }
  }

  method FrameTxs(u: Writer, txs: seq<Tx>) returns (ok: bool, t: Tally)
    requires u.Valid() && forall i :: 0 <= i < |txs| ==> TxOk(txs[i])
    modifies u
    ensures ok == Writable(old(u.appended) + TxsEvents(txs, |txs|), u.accepts)
    ensures ok ==> u.Valid() && u.appended == old(u.appended) + TxsEvents(txs, |txs|) && t == TxsTally(txs, |txs|)
  {
    hide Writer.Valid, Writable, TxEvents, TxTally, TxOk;
    ok, t := true, Tally(0, 0, 0, 0);
    ghost var start := u.appended;
    assert start + [] == start;
    for i := 0 to |txs|
      invariant u.Valid() && u.appended == start + TxsEvents(txs, i) && t == TxsTally(txs, i)
    {
      assert start + TxsEvents(txs, i + 1) == start + TxsEvents(txs, i) + TxEvents(txs[i]);
      ok := FrameTx(u, txs[i]);
      if !ok {
        ghost var rest := TxsRest(txs, i + 1);
        assert start + TxsEvents(txs, |txs|) == start + TxsEvents(txs, i + 1) + rest;
        if Writable(start + TxsEvents(txs, |txs|), u.accepts) {
          WritablePrefix(start + TxsEvents(txs, i + 1), rest, u.accepts);
        }
        return;
      }
      t := Plus(t, TxTally(txs[i]));
    }
    u.ValidWritable();
    ok := true;
  }

  /** The events of the transactions from i on. */
  lemma {:induction false} TxsRest(txs: seq<Tx>, i: nat) returns (rest: seq<Event>)
    requires i <= |txs|
    ensures TxsEvents(txs, |txs|) == TxsEvents(txs, i) + rest
    decreases |txs| - i
  {
    hide TxEvents;
    if i == |txs| {
      rest := [];
    } else {
      var more := TxsRest(txs, i + 1);
      rest := TxEvents(txs[i]) + more;
    }
  }

  /** frame_block: header, body, then the transactions. It succeeds exactly when all of it can be
      appended. */
  method FrameBlock(u: Writer, b: Block) returns (ok: bool, t: Tally)
    requires u.Valid() && BlockOk(b)
    modifies u
    ensures ok == Writable(old(u.appended) + BlockEvents(b), u.accepts)
    ensures ok ==> u.Valid() && u.appended == old(u.appended) + BlockEvents(b) && t == BlockTally(b)
    ensures ok ==> Says(BlockEvents(b), [b], t)
  {
    hide Writer.Valid, Writable, TxsEvents, TxsTally, TxOk, Says;
    BlockSays(b);
    t := Tally(1, 0, 0, 0);
    ghost var start := u.appended;
    ghost var head, body, txs := Event(EV_BLOCK_HEADER, 0, b.header), Event(EV_BLOCK_BODY, 0, b.body), TxsEvents(b.txs, |b.txs|);
    assert start + BlockEvents(b) == start + [head] + [body] + txs;
    ok := u.Append(EV_BLOCK_HEADER, b.header);
    if !ok {
      if Writable(start + BlockEvents(b), u.accepts) {
        assert start + BlockEvents(b) == start + [head] + ([body] + txs);
        WritablePrefix(start + [head], [body] + txs, u.accepts);
      }
      return;
    }
    ok := u.Append(EV_BLOCK_BODY, b.body);
    if !ok {
      if Writable(start + BlockEvents(b), u.accepts) {
        WritablePrefix(start + [head] + [body], txs, u.accepts);
      }
      return;
    }
    var c;
    ok, c := FrameTxs(u, b.txs);
    t := Plus(t, c);
  }

  /** run_range: heights lo to hi - 1 into a log of their own. It succeeds exactly when every event
      fits a buffer and the ring takes every submission. */
  method RunRange(hs: Heights, lo: nat, hi: nat, accepts: nat -> bool)
    returns (ok: bool, t: Tally, file: seq<Byte>, ghost es: seq<Event>)
    requires lo <= hi <= |hs| && forall i :: 0 <= i < |hs| && hs[i].Some? ==> BlockOk(hs[i].value)
    ensures es == RangeEvents(hs, lo, hi)
    ensures ok == Writes(es, accepts)
    ensures ok ==> file == Stream(es, 0) && t == RangeTally(hs, lo, hi)
    ensures ok ==> Says(es, BlocksIn(hs, lo, hi), t)
  {
    hide Says, BlocksIn, Stream, BlockEvents, BlockTally, BlockOk, Writer.Valid, Writable, Submissions;
    ok, t, file, es := true, Tally(0, 0, 0, 0), [], RangeEvents(hs, lo, hi);
    var u := new Writer(accepts);
    for h := lo to hi
      invariant u.Valid() && u.appended == RangeEvents(hs, lo, h) && t == RangeTally(hs, lo, h) && u.accepts == accepts
    {
      if hs[h].Some? {
        var c;
        ok, c := FrameBlock(u, hs[h].value);
        if !ok {
          RangeJoin(hs, lo, h + 1, hi);
          if Writable(es, accepts) {
            WritablePrefix(RangeEvents(hs, lo, h + 1), RangeEvents(hs, h + 1, hi), accepts);
          }
          return;
        }
        t := Plus(t, c);
      } else {
        assert RangeEvents(hs, lo, h) + [] == RangeEvents(hs, lo, h);
      }
    }
    u.ValidWritable();
    ok := u.Finish();
    file := u.file;
    RangeSays(hs, lo, hi);
  }

  /** The reported total is the number of events, block by block. */
  lemma {:induction false} TxsCount(txs: seq<Tx>, n: nat)
    requires n <= |txs|
    ensures |TxsEvents(txs, n)| == TxsTally(txs, n).add + TxsTally(txs, n).spend && TxsTally(txs, n).blocks == 0
    decreases n
  {
    if n == 0 {
    } else {
      TxsCount(txs, n - 1);
    }
  }

  lemma {:induction false} RangeCount(hs: Heights, lo: nat, hi: nat)
    requires lo <= hi <= |hs|
    ensures |RangeEvents(hs, lo, hi)| == Reported(RangeTally(hs, lo, hi))
    decreases hi
  {
    hide TxsEvents, TxsTally;
    if lo == hi {
    } else {
      RangeCount(hs, lo, hi - 1);
      if hs[hi - 1].Some? {
        TxsCount(hs[hi - 1].value.txs, |hs[hi - 1].value.txs|);
      }
    }
  }

  lemma {:induction false} RangeJoin(hs: Heights, lo: nat, mid: nat, hi: nat)
    requires lo <= mid <= hi <= |hs|
    ensures RangeEvents(hs, lo, mid) + RangeEvents(hs, mid, hi) == RangeEvents(hs, lo, hi)
    ensures Plus(RangeTally(hs, lo, mid), RangeTally(hs, mid, hi)) == RangeTally(hs, lo, hi)
    decreases hi
  {
    hide BlockEvents, BlockTally;
    if mid == hi {
    } else {
      RangeJoin(hs, lo, mid, hi - 1);
    }
  }

  /** Where the events of one block stand in a log that begins with n others: header, body, then
      transaction by transaction its outputs and, unless it is a coinbase, its inputs. */
  ghost predicate StandsAt(es: seq<Event>, n: nat, b: Block) {
    && n + 2 <= |es| && es[n] == Event(1, 0, b.header) && es[n + 1] == Event(2, 0, b.body)
    && forall t :: 0 <= t < |b.txs| ==>
         TxStandsAt(es, n + 2 + |OutputsOf(b.txs, t)| + |InputsOf(b.txs, t)|, b.txs[t])
  }

  ghost predicate TxStandsAt(es: seq<Event>, n: nat, tx: Tx) {
    && n + |tx.outs| + (if tx.coinbase then 0 else |tx.ins|) <= |es|
    && (forall j :: 0 <= j < |tx.outs| ==> es[n + j] == Event(5, 0, tx.outs[j]))
    && (!tx.coinbase ==> forall j :: 0 <= j < |tx.ins| ==> es[n + |tx.outs| + j] == Event(6, 0, tx.ins[j]))
  }

  lemma TxStands(a: seq<Event>, tx: Tx, rest: seq<Event>)
    ensures TxStandsAt(a + TxEvents(tx) + rest, |a|, tx)
  {
    var es := a + TxEvents(tx) + rest;
    forall j | 0 <= j < |TxEvents(tx)| ensures es[|a| + j] == TxEvents(tx)[j] {
    }
  }

  lemma BlockStands(a: seq<Event>, b: Block, rest: seq<Event>)
    ensures StandsAt(a + BlockEvents(b) + rest, |a|, b)
  {
    hide TxStandsAt, OutputsOf, InputsOf, TxsEvents;
    var es := a + BlockEvents(b) + rest;
    assert es[|a|] == BlockEvents(b)[0] && es[|a| + 1] == BlockEvents(b)[1];
    forall t | 0 <= t < |b.txs|
      ensures TxStandsAt(es, |a| + 2 + |OutputsOf(b.txs, t)| + |InputsOf(b.txs, t)|, b.txs[t])
    {
      TxOfBlockStands(a, b, rest, t);
    }
  }

  lemma TxOfBlockStands(a: seq<Event>, b: Block, rest: seq<Event>, t: nat)
    requires t < |b.txs|
    ensures TxStandsAt(a + BlockEvents(b) + rest, |a| + 2 + |OutputsOf(b.txs, t)| + |InputsOf(b.txs, t)|, b.txs[t])
  {
    hide TxEvents, TxStandsAt, OutputsOf, InputsOf, TxsEvents, PayloadsOf, TxsTally;
    TxsSay(b.txs, t);
    TxsCount(b.txs, t);
    TxsNext(b.txs, t);
    var head := [Event(EV_BLOCK_HEADER, 0, b.header), Event(EV_BLOCK_BODY, 0, b.body)];
    var before, tx := TxsEvents(b.txs, t), TxEvents(b.txs[t]);
    var more := TxsRest(b.txs, t + 1);
    Regrouped(a, head, before, tx, more, rest);
    TxStands(a + head + before, b.txs[t], more + rest);
  }

  lemma Regrouped(a: seq<Event>, head: seq<Event>, before: seq<Event>, tx: seq<Event>, more: seq<Event>, rest: seq<Event>)
    ensures a + (head + (before + tx + more)) + rest == a + head + before + tx + (more + rest)
  {
  }

  lemma TxsNext(txs: seq<Tx>, t: nat)
    requires t < |txs|
    ensures TxsEvents(txs, t + 1) == TxsEvents(txs, t) + TxEvents(txs[t])
  {
  }

  /** Where the events of height h stand among those of the range: behind two for every block below it,
      one for every output and one for every input spent there. */
  lemma EventPlaces(hs: Heights, lo: nat, hi: nat, h: nat)
    requires lo <= h < hi <= |hs| && hs[h].Some?
    ensures var txs := TxsOf(BlocksIn(hs, lo, h));
            StandsAt(RangeEvents(hs, lo, hi), 2 * |BlocksIn(hs, lo, h)| + |OutputsOf(txs, |txs|)| + |InputsOf(txs, |txs|)|,
                     hs[h].value)
  {
    hide BlockEvents, OutputsOf, InputsOf, StandsAt, PayloadsOf;
    RangeSays(hs, lo, h);
    RangeCount(hs, lo, h);
    RangeJoin(hs, lo, h + 1, hi);
    BlockStands(RangeEvents(hs, lo, h), hs[h].value, RangeEvents(hs, h + 1, hi));
  }

  /** Heights per segment. */
  function Span(lo: nat, tip: nat, nt: nat): (s: nat)
    requires lo <= tip && nt >= 1
    ensures s >= 1 && s * nt >= tip - lo + 1
  {
    var n := tip - lo + 1;
    assert ((n + nt - 1) / nt) * nt >= n;
    (n + nt - 1) / nt
  }

  /** Where segment s starts, cut at the end of the range: segment s is Cut(s) to Cut(s + 1) - 1. */
  function Cut(lo: nat, tip: nat, nt: nat, s: nat): (c: nat)
    requires lo <= tip && nt >= 1
    ensures lo <= c <= tip + 1
  {
    var at := lo + s * Span(lo, tip, nt);
    if at <= tip then at else tip + 1
  }

  lemma CutsGrow(lo: nat, tip: nat, nt: nat, s: nat)
    requires lo <= tip && nt >= 1
    ensures Cut(lo, tip, nt, s) <= Cut(lo, tip, nt, s + 1)
    ensures Cut(lo, tip, nt, 0) == lo && Cut(lo, tip, nt, nt) == tip + 1
  {
    var span := Span(lo, tip, nt);
    assert (s + 1) * span == s * span + span;
    assert 0 * span == 0;
  }

  /** Height h lies in segment s, by the bounds the segment loop computes. */
  predicate InSegment(lo: nat, tip: nat, nt: nat, s: nat, h: nat)
    requires lo <= tip && nt >= 1
  {
    var mlo := lo + s * Span(lo, tip, nt);
    var end := mlo + Span(lo, tip, nt) - 1;
    var mhi := if end > tip then tip else end;
    mlo <= tip && mlo <= h <= mhi
  }

  lemma SegmentIsCut(lo: nat, tip: nat, nt: nat, s: nat, h: nat)
    requires lo <= tip && nt >= 1
    ensures InSegment(lo, tip, nt, s, h) <==> Cut(lo, tip, nt, s) <= h < Cut(lo, tip, nt, s + 1)
  {
    var span := Span(lo, tip, nt);
    assert (s + 1) * span == s * span + span;
  }

  /** The heights in some segment are exactly those of the range, and no height is in two. */
  lemma ShardsPartition(lo: nat, tip: nat, nt: nat, h: nat)
    requires lo <= tip && nt >= 1
    ensures (exists s: nat :: s < nt && InSegment(lo, tip, nt, s, h)) <==> lo <= h <= tip
    ensures forall r: nat, s: nat :: InSegment(lo, tip, nt, r, h) && InSegment(lo, tip, nt, s, h) ==> r == s
  {
    hide InSegment, Cut;
    if lo <= h <= tip {
      var s := ShardOf(lo, tip, nt, h);
      SegmentIsCut(lo, tip, nt, s, h);
      forall r: nat | InSegment(lo, tip, nt, r, h) ensures r == s {
        SegmentIsCut(lo, tip, nt, r, h);
      }
    } else {
      forall r: nat ensures !InSegment(lo, tip, nt, r, h) {
        SegmentIsCut(lo, tip, nt, r, h);
      }
    }
  }

  lemma ShardOf(lo: nat, tip: nat, nt: nat, h: nat) returns (s: nat)
    requires lo <= h <= tip && nt >= 1
    ensures s < nt && Cut(lo, tip, nt, s) <= h < Cut(lo, tip, nt, s + 1)
    ensures forall r: nat :: r != s ==> !(Cut(lo, tip, nt, r) <= h < Cut(lo, tip, nt, r + 1))
  {
    var span := Span(lo, tip, nt);
    s := (h - lo) / span;
    assert s * span <= h - lo < s * span + span;
    assert (s + 1) * span == s * span + span;
    if s >= nt {
      MulMono(nt, s, span);
      assert false;
    }
    forall r: nat | r != s ensures !(Cut(lo, tip, nt, r) <= h < Cut(lo, tip, nt, r + 1)) {
      assert (r + 1) * span == r * span + span;
      if r < s {
        MulMono(r + 1, s, span);
      } else {
        MulMono(s + 1, r, span);
      }
    }
  }

  lemma MulMono(a: nat, b: nat, k: nat)
    requires a <= b
    ensures a * k <= b * k
  {
  }

  /** The verdicts of the ring of one segment. */
  function ShardAccepts(accepts: (nat, nat) -> bool, s: nat): nat -> bool {
    (k: nat) => accepts(s, k)
  }

  lemma EmptyWrites(accepts: nat -> bool)
    ensures Writes([], accepts)
  {
  }

  /** The whole rebuild over nt segments: each is a complete log, together they hold the events
      of the range in order, and the reported total counts them. */
  method Rebuild(hs: Heights, lo: nat, tip: nat, nt: nat, accepts: (nat, nat) -> bool)
    returns (ok: bool, total: Tally, files: seq<seq<Byte>>, ghost logs: seq<seq<Event>>)
    requires lo <= tip < |hs| && nt >= 1 && forall i :: 0 <= i < |hs| && hs[i].Some? ==> BlockOk(hs[i].value)
    ensures |files| == |logs| == nt && Flat(logs) == RangeEvents(hs, lo, tip + 1)
    ensures ok <==> forall s :: 0 <= s < nt ==> Writes(logs[s], ShardAccepts(accepts, s))
    ensures ok ==> (forall s :: 0 <= s < nt ==> files[s] == Stream(logs[s], 0)) && Reported(total) == |Flat(logs)|
    ensures ok ==> Says(Flat(logs), BlocksIn(hs, lo, tip + 1), total)
  {
    hide Says, BlocksIn, Stream, RangeEvents, RangeTally, BlockOk, Cut, Writes, ShardAccepts;
    ok, total, files, logs := true, Tally(0, 0, 0, 0), [], [];
    CutsGrow(lo, tip, nt, 0);
    ghost var at := lo;
    RangeEmpty(hs, lo);
    for s := 0 to nt
      invariant |files| == |logs| == s && at == Cut(lo, tip, nt, s)
      invariant ok ==> forall r :: 0 <= r < s ==> files[r] == Stream(logs[r], 0)
      invariant ok <==> forall r :: 0 <= r < s ==> Writes(logs[r], ShardAccepts(accepts, r))
      invariant Flat(logs) == RangeEvents(hs, lo, at) && (ok ==> total == RangeTally(hs, lo, at))
    {
      CutsGrow(lo, tip, nt, s);
      var k, t, f;
      ghost var es;
      if Cut(lo, tip, nt, s) > tip {
        k, t, f, es := true, Tally(0, 0, 0, 0), [], [];
        RangeEmpty(hs, tip + 1);
        StreamEmpty(0);
        EmptyWrites(ShardAccepts(accepts, s));
      } else {
        k, t, f, es := RunRange(hs, Cut(lo, tip, nt, s), Cut(lo, tip, nt, s + 1), ShardAccepts(accepts, s));
      }
      ok := ok && k;
      FlatPush(logs, es);
      RangeJoin(hs, lo, Cut(lo, tip, nt, s), Cut(lo, tip, nt, s + 1));
      total := Plus(total, t);
      files, logs := files + [f], logs + [es];
      at := Cut(lo, tip, nt, s + 1);
    }
    RangeCount(hs, lo, tip + 1);
    RangeSays(hs, lo, tip + 1);
  }

  function Flat(logs: seq<seq<Event>>): seq<Event> {
    if logs == [] then [] else Flat(logs[..|logs| - 1]) + logs[|logs| - 1]
  }

  lemma FlatPush(logs: seq<seq<Event>>, es: seq<Event>)
    ensures Flat(logs + [es]) == Flat(logs) + es
  {
    assert (logs + [es])[..|logs|] == logs;
  }

  lemma RangeEmpty(hs: Heights, lo: nat)
    requires lo <= |hs|
    ensures RangeEvents(hs, lo, lo) == [] && RangeTally(hs, lo, lo) == Tally(0, 0, 0, 0)
  {
  }
}
