/** The coin set as a value, and what connecting transactions and blocks does to it. Nothing here
    knows of a cache or of a database: this is the set a replay is meant to produce. */
module Ledger {
  import opened Common

  /** A transaction id, and a block hash, as opaque names. */
  type Id = nat

  const COIN: int := 100_000_000
  const MAX_MONEY: int := 21_000_000 * COIN
  const COINBASE_MATURITY: nat := 100
  const MAX_TX_OUTPUTS: nat := 65536

  /** A transaction output; unspendable is the verdict of script_is_unspendable on its script. */
  datatype TxOut = TxOut(value: int, script: seq<nat>, unspendable: bool)

  /** struct coins, with its vout array as the map of its outputs that are not null. */
  datatype Coins = Coins(coinbase: bool, height: nat, outs: map<nat, TxOut>)

  datatype OutPoint = OutPoint(id: Id, n: nat)

  datatype Tx = Tx(id: Id, coinbase: bool, ins: seq<OutPoint>, vout: seq<TxOut>)

  datatype Block = Block(hash: Id, prev: Id, txs: seq<Tx>)

  /** The unspent outputs by transaction. A transaction without unspent outputs has no entry. */
  type Utxos = map<Id, Coins>

  datatype Chainstate = Chainstate(coins: Utxos, best: Option<Id>)

  /** The set an operation leaves behind, and whether it succeeded. A failure can leave changes. */
  datatype Outcome = Outcome(coins: Utxos, ok: bool)

  datatype Connected = Connected(state: Chainstate, ok: bool)

  /** How far the transactions of a block have been connected: the set, the records drawn on so far,
      and whether all is well. */
  datatype Progress = Progress(coins: Utxos, spent: seq<Coins>, ok: bool)

  /** What connect_block checks without changing the coins, as functions of what it looks at: the
      block alone, the shielded pools, transaction i of the block with the records drawn on before it
      and by it (signature operations and fees add up over the block), and the whole block with all
      the records it draws on (scripts and reward). */
  datatype Rules = Rules(
    genesis: Id,
    deferBelow: int,
    blockOk: (Block, nat) -> bool,
    turnstileOk: (Block, nat) -> bool,
    txOk: (seq<Coins>, seq<Coins>, Block, nat, nat) -> bool,
    spendsOk: (seq<Coins>, Block, nat) -> bool)

  predicate MoneyRange(v: int) {
    0 <= v <= MAX_MONEY
  }

  /** The set with the outputs of t replaced by those of c. */
  function Put(u: Utxos, t: Id, c: Coins): Utxos {
    if c.outs == map[] then u - {t} else u[t := c]
  }

  predicate Available(u: Utxos, o: OutPoint) {
    o.id in u && o.n in u[o.id].outs
  }

  function Spend(u: Utxos, o: OutPoint): Outcome {
    if !Available(u, o) || !MoneyRange(u[o.id].outs[o.n].value) then Outcome(u, false)
    else Outcome(Put(u, o.id, u[o.id].(outs := u[o.id].outs - {o.n})), true)
  }

  /** The first i inputs spent in order, up to the first that fails. */
  function SpendTo(u: Utxos, ins: seq<OutPoint>, i: nat): Outcome
    requires i <= |ins|
  {
    if i == 0 then Outcome(u, true)
    else
      var p := SpendTo(u, ins, i - 1);
      if p.ok then Spend(p.coins, ins[i - 1]) else p
  }

  lemma {:induction false} SpendStops(u: Utxos, ins: seq<OutPoint>, k: nat, n: nat)
    requires k <= n <= |ins| && !SpendTo(u, ins, k).ok
    ensures SpendTo(u, ins, n) == SpendTo(u, ins, k)
    decreases n
  {
    hide Spend;
    if k == n {
    } else {
      SpendStops(u, ins, k, n - 1);
    }
  }

  /** The record coins_from_transaction builds: unspendable and null outputs never enter the set. */
  function Created(tx: Tx, h: nat): Coins {
    Coins(tx.coinbase, h,
      map n | 0 <= n < |tx.vout| && !tx.vout[n].unspendable && tx.vout[n].value != -1 :: tx.vout[n])
  }

  predicate InRange(c: Coins) {
    forall n :: n in c.outs ==> MoneyRange(c.outs[n].value)
  }

  /** update_coins_with_undo. */
  function UpdateCoins(u: Utxos, tx: Tx, h: nat): Outcome {
    var s := if tx.coinbase then Outcome(u, true) else SpendTo(u, tx.ins, |tx.ins|);
    if !s.ok then s
    else if |tx.vout| > MAX_TX_OUTPUTS then
      Outcome(Put(s.coins, tx.id, Coins(tx.coinbase, h, map[])), false)
    else Outcome(Put(s.coins, tx.id, Created(tx, h)), InRange(Created(tx, h)))
  }

  predicate Immature(c: Coins, h: nat) {
    c.coinbase && h - c.height < COINBASE_MATURITY
  }

  predicate AllMature(u: Utxos, ins: seq<OutPoint>, h: nat) {
    forall i :: 0 <= i < |ins| ==> ins[i].id in u ==> !Immature(u[ins[i].id], h)
  }

  predicate HaveInputs(u: Utxos, ins: seq<OutPoint>) {
    forall i :: 0 <= i < |ins| ==> Available(u, ins[i])
  }

  /** The records the inputs draw on. */
  function SpentBy(u: Utxos, tx: Tx): seq<Coins> {
    if tx.coinbase || !HaveInputs(u, tx.ins) then []
    else seq(|tx.ins|, i requires 0 <= i < |tx.ins| => u[tx.ins[i].id])
  }

  /** Transaction i of the block passes, the earlier ones having drawn on the records of spent. */
  predicate Admitted(p: Rules, u: Utxos, spent: seq<Coins>, b: Block, i: nat, h: nat)
    requires i < |b.txs|
  {
    var tx := b.txs[i];
    && (tx.coinbase || (AllMature(u, tx.ins, h) && HaveInputs(u, tx.ins)))
    && p.txOk(spent, SpentBy(u, tx), b, i, h)
  }

  function ConnectTx(p: Rules, q: Progress, b: Block, i: nat, h: nat): Progress
    requires i < |b.txs|
  {
    if Admitted(p, q.coins, q.spent, b, i, h) then
      var r := UpdateCoins(q.coins, b.txs[i], h);
      Progress(r.coins, q.spent + SpentBy(q.coins, b.txs[i]), r.ok)
    else Progress(q.coins, q.spent, false)
  }

  /** The first i transactions connected in order, up to the first that fails. */
  function ConnectTo(p: Rules, u: Utxos, b: Block, h: nat, i: nat): Progress
    requires i <= |b.txs|
  {
    if i == 0 then Progress(u, [], true)
    else
      var q := ConnectTo(p, u, b, h, i - 1);
      if q.ok then ConnectTx(p, q, b, i - 1, h) else q
  }

  lemma {:induction false} ConnectStops(p: Rules, u: Utxos, b: Block, h: nat, k: nat, n: nat)
    requires k <= n <= |b.txs| && !ConnectTo(p, u, b, h, k).ok
    ensures ConnectTo(p, u, b, h, n) == ConnectTo(p, u, b, h, k)
    decreases n
  {
    hide ConnectTx;
    if k == n {
    } else {
      ConnectStops(p, u, b, h, k, n - 1);
    }
  }

  /** A transaction of the block whose id already holds unspent outputs from another height. */
  predicate Clashes(u: Utxos, tx: Tx, h: nat) {
    tx.id in u && !(u[tx.id].height == h && h > 0)
  }

  predicate Overwrites(p: Rules, u: Utxos, b: Block, h: nat) {
    && !(p.deferBelow >= 0 && h <= p.deferBelow)
    && exists i :: 0 <= i < |b.txs| && Clashes(u, b.txs[i], h)
  }

  /** The checks made before the first transaction is looked at. */
  predicate Refused(p: Rules, s: Chainstate, b: Block, h: nat) {
    || (s.best.Some? && s.best.value != b.prev)
    || !p.turnstileOk(b, h)
    || Overwrites(p, s.coins, b, h)
  }

  /** connect_block: genesis only moves the best block. */
  function ConnectBlock(p: Rules, s: Chainstate, b: Block, h: nat): Connected {
    if !p.blockOk(b, h) then Connected(s, false)
    else if b.hash == p.genesis then Connected(s.(best := Some(b.hash)), true)
    else if Refused(p, s, b, h) then Connected(s, false)
    else
      var r := ConnectTo(p, s.coins, b, h, |b.txs|);
      if r.ok && p.spendsOk(r.spent, b, h)
      then Connected(Chainstate(r.coins, Some(b.hash)), true)
      else Connected(Chainstate(r.coins, s.best), false)
  }

  /** Heights 0 to n - 1 connected in order, with no flush anywhere. None stands for a height whose
      index entry is missing or whose block cannot be read; the replay stops at the first failure. */
  function Replay(p: Rules, s: Chainstate, blocks: seq<Option<Block>>, n: nat): Connected
    requires n <= |blocks|
  {
    if n == 0 then Connected(s, true)
    else
      var q := Replay(p, s, blocks, n - 1);
      if !q.ok || blocks[n - 1].None? then Connected(q.state, false)
      else ConnectBlock(p, q.state, blocks[n - 1].value, n - 1)
  }

  /** A failure is final: the replay keeps the state it stopped in. */
  lemma {:induction false} ReplayStops(p: Rules, s: Chainstate, blocks: seq<Option<Block>>, k: nat, n: nat)
    requires k <= n <= |blocks|
    requires !Replay(p, s, blocks, k).ok
    ensures Replay(p, s, blocks, n) == Replay(p, s, blocks, k)
    decreases n
  {
    hide ConnectBlock;
    if k == n {
    } else {
      ReplayStops(p, s, blocks, k, n - 1);
    }
  }

  /** One unspent output, with what its record says of the transaction that made it. */
  datatype Coin = Coin(out: TxOut, height: nat, coinbase: bool)

  function CoinAt(u: Utxos, o: OutPoint): Option<Coin> {
    if o.id in u && o.n in u[o.id].outs then Some(Coin(u[o.id].outs[o.n], u[o.id].height, u[o.id].coinbase)) else None
  }

  /** The transaction, in a block at height h, makes the coin c at o: a spendable output that is not null. */
  predicate Makes(tx: Tx, h: nat, o: OutPoint, c: Coin) {
    && tx.id == o.id && o.n < |tx.vout| && !tx.vout[o.n].unspendable && tx.vout[o.n].value != -1
    && c == Coin(tx.vout[o.n], h, tx.coinbase)
  }

  predicate Takes(tx: Tx, o: OutPoint) {
    !tx.coinbase && o in tx.ins
  }

  /** After the first n inputs were spent exactly those coins are gone. */
  lemma {:induction false} SpentExact(u: Utxos, ins: seq<OutPoint>, n: nat, o: OutPoint)
    requires n <= |ins| && SpendTo(u, ins, n).ok
    ensures CoinAt(SpendTo(u, ins, n).coins, o) == if o in ins[..n] then None else CoinAt(u, o)
    decreases n
  {
    if n == 0 {
    } else {
      SpentExact(u, ins, n - 1, o);
      assert ins[..n] == ins[..n - 1] + [ins[n - 1]];
      SpendOneExact(SpendTo(u, ins, n - 1).coins, ins[n - 1], o);
    }
  }

  lemma SpendOneExact(u: Utxos, i: OutPoint, o: OutPoint)
    requires Spend(u, i).ok
    ensures CoinAt(Spend(u, i).coins, o) == if o == i then None else CoinAt(u, o)
  {
    var c := u[i.id].(outs := u[i.id].outs - {i.n});
    PutExact(u, i.id, c, o);
    assert o == i <==> o.id == i.id && o.n == i.n;
  }

  /** The inputs can all be spent if and only if each is an unspent coin of a sound value and none is
      named twice. */
  lemma {:induction false} SpendsExact(u: Utxos, ins: seq<OutPoint>, n: nat)
    requires n <= |ins|
    ensures SpendTo(u, ins, n).ok <==>
              && (forall i :: 0 <= i < n ==>
                    CoinAt(u, ins[i]).Some? && 0 <= CoinAt(u, ins[i]).value.out.value <= 2_100_000_000_000_000)
              && (forall i, j :: 0 <= i < j < n ==> ins[i] != ins[j])
    decreases n
  {
    if n == 0 {
    } else {
      SpendsExact(u, ins, n - 1);
      if SpendTo(u, ins, n - 1).ok {
        SpentExact(u, ins, n - 1, ins[n - 1]);
        assert ins[n - 1] in ins[..n - 1] <==> exists i :: 0 <= i < n - 1 && ins[i] == ins[n - 1];
      }
    }
  }

  /** What a transaction leaves of the coins: under its own id what it makes and nothing else, under every
      other id what was there and is not taken. */
  ghost predicate Updated(u: Utxos, u': Utxos, tx: Tx, h: nat) {
    forall o, c :: CoinAt(u', o) == Some(c) <==>
      if o.id == tx.id then Makes(tx, h, o, c) else CoinAt(u, o) == Some(c) && !Takes(tx, o)
  }

  lemma UpdateExact(u: Utxos, tx: Tx, h: nat)
    requires UpdateCoins(u, tx, h).ok
    ensures Updated(u, UpdateCoins(u, tx, h).coins, tx, h)
  {
    hide SpendTo, InRange;
    var s := if tx.coinbase then Outcome(u, true) else SpendTo(u, tx.ins, |tx.ins|);
    var u' := UpdateCoins(u, tx, h).coins;
    forall o, c
      ensures CoinAt(u', o) == Some(c) <==>
                if o.id == tx.id then Makes(tx, h, o, c) else CoinAt(u, o) == Some(c) && !Takes(tx, o)
    {
      if !tx.coinbase {
        SpentExact(u, tx.ins, |tx.ins|, o);
        assert tx.ins[..|tx.ins|] == tx.ins;
      }
      PutExact(s.coins, tx.id, Created(tx, h), o);
    }
  }

  lemma PutExact(u: Utxos, t: Id, c: Coins, o: OutPoint)
    ensures CoinAt(Put(u, t, c), o) ==
              if o.id != t then CoinAt(u, o)
              else if o.n in c.outs then Some(Coin(c.outs[o.n], c.height, c.coinbase)) else None
  {
  }

  /** A transaction goes through if and only if its inputs can be spent, it has at most 65536 outputs and
      every output it adds has a value between nothing and the 21 million coins. */
  lemma UpdatesExact(u: Utxos, tx: Tx, h: nat)
    ensures UpdateCoins(u, tx, h).ok <==>
              && (tx.coinbase || SpendTo(u, tx.ins, |tx.ins|).ok) && |tx.vout| <= 65536
              && forall n :: 0 <= n < |tx.vout| && !tx.vout[n].unspendable && tx.vout[n].value != -1 ==>
                   0 <= tx.vout[n].value <= 2_100_000_000_000_000
  {
    hide SpendTo;
    forall n ensures n in Created(tx, h).outs <==> 0 <= n < |tx.vout| && !tx.vout[n].unspendable && tx.vout[n].value != -1 {
    }
  }

  /** Transaction i is admitted if and only if it is a coinbase, or every input names an unspent output
      whose record, if it is a coinbase's, is at least 100 blocks deep; and the rules accept it with the
      records it draws on. */
  lemma AdmittedExact(p: Rules, u: Utxos, spent: seq<Coins>, b: Block, i: nat, h: nat)
    requires i < |b.txs|
    ensures Admitted(p, u, spent, b, i, h) <==>
              exists drawn: seq<Coins> :: DrawsOn(u, b.txs[i], h, drawn) && p.txOk(spent, drawn, b, i, h)
  {
    var tx := b.txs[i];
    if Admitted(p, u, spent, b, i, h) {
      assert DrawsOn(u, tx, h, SpentBy(u, tx));
    }
    if drawn: seq<Coins> :| DrawsOn(u, tx, h, drawn) && p.txOk(spent, drawn, b, i, h) {
      if !tx.coinbase {
        assert HaveInputs(u, tx.ins);
      }
      assert drawn == SpentBy(u, tx);
    }
  }

  /** The records behind the inputs, in order, all mature. */
  ghost predicate DrawsOn(u: Utxos, tx: Tx, h: nat, drawn: seq<Coins>) {
    if tx.coinbase then drawn == []
    else
      && |drawn| == |tx.ins|
      && forall j :: 0 <= j < |tx.ins| ==>
           && CoinAt(u, tx.ins[j]).Some? && drawn[j] == u[tx.ins[j].id]
           && (drawn[j].coinbase ==> h - drawn[j].height >= 100)
  }

  /** When transaction i of a block goes through behind the first i, and what it leaves: it must draw on
      mature coins that the rules accept together with the records drawn on before, and its coins must
      be sound; then those records stand at the end of the list, and the coins are updated. */
  lemma ConnectStepExact(p: Rules, u: Utxos, b: Block, h: nat, i: nat)
    requires i < |b.txs| && ConnectTo(p, u, b, h, i).ok
    ensures var q, r, tx := ConnectTo(p, u, b, h, i), ConnectTo(p, u, b, h, i + 1), b.txs[i];
            && (r.ok <==> (exists drawn: seq<Coins> :: DrawsOn(q.coins, tx, h, drawn) && p.txOk(q.spent, drawn, b, i, h)) &&
                          UpdateCoins(q.coins, tx, h).ok)
            && (r.ok ==> Updated(q.coins, r.coins, tx, h))
            && (r.ok ==> exists drawn: seq<Coins> :: DrawsOn(q.coins, tx, h, drawn) && r.spent == q.spent + drawn)
  {
    hide UpdateCoins, Updated, DrawsOn;
    var q, tx := ConnectTo(p, u, b, h, i), b.txs[i];
    AdmittedExact(p, q.coins, q.spent, b, i, h);
    if UpdateCoins(q.coins, tx, h).ok {
      UpdateExact(q.coins, tx, h);
    }
    if Admitted(p, q.coins, q.spent, b, i, h) {
      assert DrawsOn(q.coins, tx, h, SpentBy(q.coins, tx)) by { AdmittedDraws(p, q.coins, q.spent, b, i, h); }
    }
  }

  lemma AdmittedDraws(p: Rules, u: Utxos, spent: seq<Coins>, b: Block, i: nat, h: nat)
    requires i < |b.txs| && Admitted(p, u, spent, b, i, h)
    ensures DrawsOn(u, b.txs[i], h, SpentBy(u, b.txs[i]))
  {
  }

  /** When a block connects: it passes its own checks, and unless it is genesis it follows the best block,
      passes the turnstile, overwrites no unspent outputs of another height above the deferred ones,
      and all its transactions go through, with the records they draw on in order. */
  lemma ConnectExact(p: Rules, s: Chainstate, b: Block, h: nat)
    ensures ConnectBlock(p, s, b, h).ok <==>
              && p.blockOk(b, h)
              && (b.hash != p.genesis ==>
                    && (s.best == None || s.best == Some(b.prev)) && p.turnstileOk(b, h)
                    && ((0 <= p.deferBelow && h <= p.deferBelow) ||
                        forall i :: 0 <= i < |b.txs| && b.txs[i].id in s.coins ==> s.coins[b.txs[i].id].height == h > 0)
                    && ConnectTo(p, s.coins, b, h, |b.txs|).ok
                    && p.spendsOk(ConnectTo(p, s.coins, b, h, |b.txs|).spent, b, h))
    ensures ConnectBlock(p, s, b, h).ok ==> ConnectBlock(p, s, b, h).state.best == Some(b.hash)
  {
    hide ConnectTo;
    forall i | 0 <= i < |b.txs|
      ensures Clashes(s.coins, b.txs[i], h) <==> b.txs[i].id in s.coins && !(s.coins[b.txs[i].id].height == h > 0)
    {
    }
  }

  /** A transaction of the chain, and the height of its block. */
  datatype Mined = Mined(tx: Tx, height: nat)

  /** Nothing in the list from i on makes coins under the id of o or takes o. */
  ghost predicate Quiet(es: seq<Mined>, i: nat, o: OutPoint) {
    forall j :: i <= j < |es| ==> es[j].tx.id != o.id && !Takes(es[j].tx, o)
  }

  /** The coin c lies at o after the transactions of es, starting from u: some transaction made it, or it
      was there, and none after that took it or used its id again. */
  ghost predicate Lives(u: Utxos, es: seq<Mined>, o: OutPoint, c: Coin) {
    || (exists i :: 0 <= i < |es| && Makes(es[i].tx, es[i].height, o, c) && Quiet(es, i + 1, o))
    || (CoinAt(u, o) == Some(c) && Quiet(es, 0, o))
  }

  /** u' holds exactly the coins that live. */
  ghost predicate HoldsLiving(u: Utxos, es: seq<Mined>, u': Utxos) {
    forall o, c :: CoinAt(u', o) == Some(c) <==> Lives(u, es, o, c)
  }

  lemma LivesStep(u: Utxos, es: seq<Mined>, e: Mined, o: OutPoint, c: Coin)
    ensures Lives(u, es + [e], o, c) <==>
              if o.id == e.tx.id then Makes(e.tx, e.height, o, c) else Lives(u, es, o, c) && !Takes(e.tx, o)
  {
    var fs := es + [e];
    forall i | 0 <= i <= |es| ensures Quiet(fs, i, o) <==> Quiet(es, i, o) && e.tx.id != o.id && !Takes(e.tx, o) {
      assert fs[|es|] == e;
      if Quiet(fs, i, o) {
        assert forall j :: i <= j < |es| ==> fs[j] == es[j];
      }
    }
    assert Quiet(fs, |fs|, o);
    assert fs[|es|] == e;
    if Lives(u, es, o, c) && o.id != e.tx.id && !Takes(e.tx, o) {
      if i :| 0 <= i < |es| && Makes(es[i].tx, es[i].height, o, c) && Quiet(es, i + 1, o) {
        assert fs[i] == es[i] && Quiet(fs, i + 1, o);
      }
    }
    if Lives(u, fs, o, c) {
      if i :| 0 <= i < |fs| && Makes(fs[i].tx, fs[i].height, o, c) && Quiet(fs, i + 1, o) {
        if i < |es| {
          assert fs[i] == es[i] && Quiet(es, i + 1, o);
        }
      }
    }
  }

  lemma HoldsStep(u: Utxos, es: seq<Mined>, u1: Utxos, u2: Utxos, tx: Tx, h: nat)
    requires HoldsLiving(u, es, u1) && Updated(u1, u2, tx, h)
    ensures HoldsLiving(u, es + [Mined(tx, h)], u2)
  {
    hide Lives, CoinAt, Makes;
    forall o, c ensures CoinAt(u2, o) == Some(c) <==> Lives(u, es + [Mined(tx, h)], o, c) {
      LivesStep(u, es, Mined(tx, h), o, c);
    }
  }

  /** The first i transactions of a block at height h. */
  ghost function MinedIn(b: Block, h: nat, i: nat): seq<Mined>
    requires i <= |b.txs|
  {
    seq(i, j requires 0 <= j < i => Mined(b.txs[j], h))
  }

  /** Connecting a block's transactions leaves the coins that live after them. */
  lemma {:induction false} ConnectHolds(p: Rules, u0: Utxos, es: seq<Mined>, u: Utxos, b: Block, h: nat, i: nat)
    requires HoldsLiving(u0, es, u) && i <= |b.txs| && ConnectTo(p, u, b, h, i).ok
    ensures HoldsLiving(u0, es + MinedIn(b, h, i), ConnectTo(p, u, b, h, i).coins)
    decreases i
  {
    hide HoldsLiving, UpdateCoins, Admitted, SpentBy, Updated;
    if i == 0 {
      assert es + MinedIn(b, h, 0) == es;
    } else {
      var q := ConnectTo(p, u, b, h, i - 1);
      ConnectHolds(p, u0, es, u, b, h, i - 1);
      UpdateExact(q.coins, b.txs[i - 1], h);
      HoldsStep(u0, es + MinedIn(b, h, i - 1), q.coins, ConnectTo(p, u, b, h, i).coins, b.txs[i - 1], h);
      assert es + MinedIn(b, h, i) == es + MinedIn(b, h, i - 1) + [Mined(b.txs[i - 1], h)];
    }
  }

  /** The transactions of heights 0 to n - 1, without those of genesis, which are never connected. */
  ghost function ChainTxs(p: Rules, blocks: seq<Option<Block>>, n: nat): seq<Mined>
    requires n <= |blocks|
  {
    if n == 0 then []
    else
      ChainTxs(p, blocks, n - 1) +
      if blocks[n - 1].Some? && blocks[n - 1].value.hash != p.genesis
      then MinedIn(blocks[n - 1].value, n - 1, |blocks[n - 1].value.txs|) else []
  }

  /** What a replay that went through holds: exactly the outputs that some connected transaction made, or
      that were there, and that no later one spent or replaced; and the last block as the best. */
  lemma {:induction false} ReplayHolds(p: Rules, s: Chainstate, blocks: seq<Option<Block>>, n: nat)
    requires n <= |blocks| && Replay(p, s, blocks, n).ok
    ensures HoldsLiving(s.coins, ChainTxs(p, blocks, n), Replay(p, s, blocks, n).state.coins)
    ensures n > 0 ==> blocks[n - 1].Some? && Replay(p, s, blocks, n).state.best == Some(blocks[n - 1].value.hash)
    decreases n
  {
    hide HoldsLiving, ConnectTo, Refused, MinedIn;
    if n == 0 {
      NothingLived(s.coins);
    } else {
      ReplayHolds(p, s, blocks, n - 1);
      var q, b := Replay(p, s, blocks, n - 1), blocks[n - 1].value;
      if b.hash == p.genesis {
        assert ChainTxs(p, blocks, n) == ChainTxs(p, blocks, n - 1);
      } else {
        ConnectHolds(p, s.coins, ChainTxs(p, blocks, n - 1), q.state.coins, b, n - 1, |b.txs|);
      }
    }
  }

  lemma NothingLived(u: Utxos)
    ensures HoldsLiving(u, [], u)
  {
  }

  /** The shape check_block demands of the transactions, with an id of its own for the coinbase: a
      coinbase, then transactions that are not and that have inputs. */
  ghost predicate WellFormed(b: Block) {
    && |b.txs| > 0 && b.txs[0].coinbase
    && (forall i :: 0 < i < |b.txs| ==> !b.txs[i].coinbase && b.txs[i].ins != [] && b.txs[i].id != b.txs[0].id)
  }

  /** The record a connected transaction leaves under its id; one with too many outputs leaves none. */
  function Placed(tx: Tx, h: nat): Coins {
    if |tx.vout| > MAX_TX_OUTPUTS then Coins(tx.coinbase, h, map[]) else Created(tx, h)
  }

  /** The set shows the record c under t, or nothing if c has no outputs. */
  ghost predicate Shows(u: Utxos, t: Id, c: Coins) {
    if c.outs == map[] then t !in u else t in u && u[t] == c
  }

  /** Spending other transactions' outputs leaves t alone. */
  lemma {:induction false} SpendElsewhere(u: Utxos, ins: seq<OutPoint>, i: nat, t: Id)
    requires i <= |ins|
    requires forall j :: 0 <= j < |ins| ==> ins[j].id != t
    ensures t in SpendTo(u, ins, i).coins <==> t in u
    ensures t in u ==> SpendTo(u, ins, i).coins[t] == u[t]
    decreases i
  {
    if i == 0 {
    } else {
      SpendElsewhere(u, ins, i - 1, t);
    }
  }

  /** A transaction other than t that may not spend t leaves t alone, whether or not it connects. */
  lemma ConnectElsewhere(p: Rules, q: Progress, b: Block, i: nat, h: nat, t: Id, c: Coins)
    requires i < |b.txs| && b.txs[i].id != t && !b.txs[i].coinbase && Immature(c, h) && Shows(q.coins, t, c)
    ensures Shows(ConnectTx(p, q, b, i, h).coins, t, c)
  {
    hide SpendTo, InRange, Created, SpentBy;
    var tx := b.txs[i];
    if Admitted(p, q.coins, q.spent, b, i, h) {
      forall j | 0 <= j < |tx.ins| ensures tx.ins[j].id != t {
        assert Available(q.coins, tx.ins[j]);
      }
      SpendElsewhere(q.coins, tx.ins, |tx.ins|, t);
    }
  }

  lemma ConnectFirst(p: Rules, u: Utxos, b: Block, h: nat)
    requires |b.txs| > 0
    ensures ConnectTo(p, u, b, h, 1) == ConnectTx(p, Progress(u, [], true), b, 0, h)
  {
    hide ConnectTx;
    assert ConnectTo(p, u, b, h, 0) == Progress(u, [], true);
  }

  /** The coinbase of the block being connected cannot be spent inside it: maturity forbids it. */
  lemma {:induction false} CoinbaseStays(p: Rules, u: Utxos, b: Block, h: nat, i: nat)
    requires WellFormed(b) && 1 <= i <= |b.txs| && p.txOk([], [], b, 0, h)
    ensures Shows(ConnectTo(p, u, b, h, i).coins, b.txs[0].id, Placed(b.txs[0], h))
    decreases i
  {
    if i == 1 {
      ConnectFirst(p, u, b, h);
    } else {
      hide ConnectTx, Shows;
      CoinbaseStays(p, u, b, h, i - 1);
      var q := ConnectTo(p, u, b, h, i - 1);
      ConnectElsewhere(p, q, b, i - 1, h, b.txs[0].id, Placed(b.txs[0], h));
    }
  }

  /** The output o is not in the set. */
  ghost predicate Gone(u: Utxos, o: OutPoint) {
    !Available(u, o)
  }

  lemma {:induction false} SpendKeepsGone(u: Utxos, ins: seq<OutPoint>, i: nat, o: OutPoint)
    requires i <= |ins| && Gone(u, o)
    ensures Gone(SpendTo(u, ins, i).coins, o)
    decreases i
  {
    if i == 0 {
    } else {
      SpendKeepsGone(u, ins, i - 1, o);
    }
  }

  /** Nothing in a block brings back an output of a transaction that is not in the block. */
  lemma ConnectKeepsGone(p: Rules, q: Progress, b: Block, i: nat, h: nat, o: OutPoint)
    requires i < |b.txs| && b.txs[i].id != o.id && Gone(q.coins, o)
    ensures Gone(ConnectTx(p, q, b, i, h).coins, o)
  {
    hide SpendTo, InRange, Created, SpentBy;
    SpendKeepsGone(q.coins, b.txs[i].ins, |b.txs[i].ins|, o);
  }

  lemma {:induction false} GoneStays(p: Rules, u: Utxos, b: Block, h: nat, k: nat, n: nat, o: OutPoint)
    requires k <= n <= |b.txs| && (forall i :: k <= i < |b.txs| ==> b.txs[i].id != o.id)
    requires Gone(ConnectTo(p, u, b, h, k).coins, o)
    ensures Gone(ConnectTo(p, u, b, h, n).coins, o)
    decreases n
  {
    hide ConnectTx, Gone;
    if k == n {
    } else {
      GoneStays(p, u, b, h, k, n - 1, o);
      ConnectKeepsGone(p, ConnectTo(p, u, b, h, n - 1), b, n - 1, h, o);
    }
  }

  /** The second transaction does not take its first input from itself or from a later one, which would
      put outputs back under the same id. */
  ghost predicate TakesFromOutside(b: Block) {
    |b.txs| > 1 && b.txs[1].ins != [] ==> forall i :: 1 <= i < |b.txs| ==> b.txs[i].id != b.txs[1].ins[0].id
  }

  /** The second transaction gets as far as taking its first input out of the set. */
  ghost predicate SecondSpends(p: Rules, u: Utxos, b: Block, h: nat) {
    && |b.txs| > 1 && b.txs[1].ins != [] && |b.txs[0].vout| <= MAX_TX_OUTPUTS && InRange(Placed(b.txs[0], h))
    && Admitted(p, u, [], b, 1, h) && Available(u, b.txs[1].ins[0])
    && MoneyRange(u[b.txs[1].ins[0].id].outs[b.txs[1].ins[0].n].value)
  }

  /** What a failed connection leaves. The block's effects are applied in place and never undone, so
      the set is what it was exactly when nothing had been applied: the block was refused before its
      coinbase, or the coinbase changes nothing, because it has no outputs to add or because an
      earlier attempt left them, and the second transaction spends nothing. */
  lemma FailedConnectKeepsCoins(p: Rules, s: Chainstate, b: Block, h: nat)
    requires WellFormed(b) && (Put(s.coins, b.txs[0].id, Placed(b.txs[0], h)) != s.coins || TakesFromOutside(b))
    requires !ConnectBlock(p, s, b, h).ok
    ensures ConnectBlock(p, s, b, h).state.best == s.best
    ensures ConnectBlock(p, s, b, h).state.coins == s.coins <==>
              || !p.blockOk(b, h) || Refused(p, s, b, h) || !p.txOk([], [], b, 0, h)
              || (Put(s.coins, b.txs[0].id, Placed(b.txs[0], h)) == s.coins && !SecondSpends(p, s.coins, b, h))
  {
    hide ConnectTx, ConnectTo, Refused, Placed, SecondSpends, TakesFromOutside;
    if p.blockOk(b, h) && !Refused(p, s, b, h) {
      if !p.txOk([], [], b, 0, h) {
        FailureSticks(p, s.coins, b, h);
      } else if Put(s.coins, b.txs[0].id, Placed(b.txs[0], h)) != s.coins {
        CoinbaseStays(p, s.coins, b, h, |b.txs|);
      } else {
        QuietCoinbase(p, s.coins, b, h);
      }
    }
  }

  lemma FailureSticks(p: Rules, u: Utxos, b: Block, h: nat)
    requires |b.txs| > 0 && b.txs[0].coinbase && !p.txOk([], [], b, 0, h)
    ensures ConnectTo(p, u, b, h, |b.txs|).coins == u
  {
    ConnectFirst(p, u, b, h);
    ConnectStops(p, u, b, h, 1, |b.txs|);
  }

  /** A coinbase that changes nothing: the rest changes nothing exactly when it spends nothing. */
  lemma QuietCoinbase(p: Rules, u: Utxos, b: Block, h: nat)
    requires WellFormed(b) && TakesFromOutside(b) && p.txOk([], [], b, 0, h) && Put(u, b.txs[0].id, Placed(b.txs[0], h)) == u
    ensures ConnectTo(p, u, b, h, |b.txs|).coins == u <==> !SecondSpends(p, u, b, h)
  {
    hide ConnectTo, Admitted;
    ConnectFirst(p, u, b, h);
    var q := ConnectTo(p, u, b, h, 1);
    QuietFirst(p, u, b, h);
    if !q.ok {
      ConnectStops(p, u, b, h, 1, |b.txs|);
    } else if |b.txs| > 1 {
      ConnectSecond(p, u, b, h);
      var o := b.txs[1].ins[0];
      if SecondSpends(p, u, b, h) {
        SecondTakes(p, u, b, h);
        GoneStays(p, u, b, h, 2, |b.txs|, o);
      } else {
        SecondStops(p, u, b, h);
        ConnectStops(p, u, b, h, 2, |b.txs|);
      }
    }
  }

  lemma QuietFirst(p: Rules, u: Utxos, b: Block, h: nat)
    requires WellFormed(b) && p.txOk([], [], b, 0, h) && Put(u, b.txs[0].id, Placed(b.txs[0], h)) == u
    ensures ConnectTx(p, Progress(u, [], true), b, 0, h) ==
              Progress(u, [], |b.txs[0].vout| <= MAX_TX_OUTPUTS && InRange(Placed(b.txs[0], h)))
  {
  }

  lemma ConnectSecond(p: Rules, u: Utxos, b: Block, h: nat)
    requires |b.txs| > 1 && ConnectTo(p, u, b, h, 1) == Progress(u, [], true)
    ensures ConnectTo(p, u, b, h, 2) == ConnectTx(p, Progress(u, [], true), b, 1, h)
  {
    hide ConnectTx;
  }

  /** The first input, once taken, stays out. */
  lemma {:induction false} FirstTaken(u: Utxos, ins: seq<OutPoint>, i: nat)
    requires 1 <= i <= |ins| && Spend(u, ins[0]).ok
    ensures Gone(SpendTo(u, ins, i).coins, ins[0])
    decreases i
  {
    if i == 1 {
      assert SpendTo(u, ins, 0) == Outcome(u, true);
    } else {
      FirstTaken(u, ins, i - 1);
    }
  }

  lemma SecondTakes(p: Rules, u: Utxos, b: Block, h: nat)
    requires WellFormed(b) && TakesFromOutside(b) && SecondSpends(p, u, b, h)
    ensures Gone(ConnectTx(p, Progress(u, [], true), b, 1, h).coins, b.txs[1].ins[0])
  {
    hide SpendTo, Created, InRange, SpentBy, Admitted;
    FirstTaken(u, b.txs[1].ins, |b.txs[1].ins|);
  }

  lemma SecondStops(p: Rules, u: Utxos, b: Block, h: nat)
    requires WellFormed(b) && |b.txs| > 1 && |b.txs[0].vout| <= MAX_TX_OUTPUTS && InRange(Placed(b.txs[0], h))
    requires !SecondSpends(p, u, b, h)
    ensures ConnectTx(p, Progress(u, [], true), b, 1, h).coins == u && !ConnectTx(p, Progress(u, [], true), b, 1, h).ok
  {
    hide SpendTo, Created, InRange, SpentBy;
    var ins := b.txs[1].ins;
    if Admitted(p, u, [], b, 1, h) {
      assert Available(u, ins[0]);
      SpendOne(u, ins);
      SpendStops(u, ins, 1, |ins|);
    }
  }

  lemma SpendOne(u: Utxos, ins: seq<OutPoint>)
    requires ins != []
    ensures SpendTo(u, ins, 1) == Spend(u, ins[0])
  {
    assert SpendTo(u, ins, 0) == Outcome(u, true);
  }

  /** For instance: a block whose second transaction spends an output that does not exist is refused,
      and yet its coinbase is in the set afterwards, under the old best block. */
  lemma FailedConnectLeaks()
    ensures exists p: Rules, s: Chainstate, b: Block, h: nat :: WellFormed(b) &&
              !ConnectBlock(p, s, b, h).ok && ConnectBlock(p, s, b, h).state.coins != s.coins
  {
    hide ConnectTo;
    var p := Rules(0, -1, (b, h) => true, (b, h) => true, (c, d, b, i, h) => true, (c, b, h) => true);
    var s := Chainstate(map[], Some(0));
    var out := TxOut(5, [], false);
    var b := Block(1, 0, [Tx(10, true, [], [out]), Tx(11, false, [OutPoint(99, 0)], [])]);
    assert 0 in Created(b.txs[0], 1).outs;
    ConnectFirst(p, s.coins, b, 1);
    var q := ConnectTo(p, s.coins, b, 1, 1);
    assert q.coins == map[10 := Created(b.txs[0], 1)];
    assert !Available(q.coins, b.txs[1].ins[0]);
    LastFails(p, s.coins, b, 1);
    assert !Refused(p, s, b, 1);
    assert ConnectBlock(p, s, b, 1).state.coins == q.coins;
  }

  lemma LastFails(p: Rules, u: Utxos, b: Block, h: nat)
    requires |b.txs| == 2 && !b.txs[1].coinbase && b.txs[1].ins != []
    requires ConnectTo(p, u, b, h, 1).ok && !Available(ConnectTo(p, u, b, h, 1).coins, b.txs[1].ins[0])
    ensures ConnectTo(p, u, b, h, 2).coins == ConnectTo(p, u, b, h, 1).coins && !ConnectTo(p, u, b, h, 2).ok
  {
  }
}
