/** The write-back coins cache over the persisted set, and the replay of the whole chain through it. */
module Reindex {
  import opened Common
  import opened Ledger

  const FLUSH_INTERVAL: nat := 10000
  const FLUSH_ENTRIES: nat := 200000

  /** struct coins_cache_entry: the record and its dirty flag. */
  datatype Entry = Entry(coins: Coins, dirty: bool)

  type Cache = map<Id, Entry>

  /** The record the cache shows over the database. */
  function Look(cache: Cache, disk: Utxos, t: Id): Coins {
    if t in cache then cache[t].coins
    else if t in disk then disk[t]
    else Coins(false, 0, map[])
  }

  /** The coin set the cache shows over the database. */
  function View(cache: Cache, disk: Utxos): Utxos {
    map t | t in cache.Keys + disk.Keys && Look(cache, disk, t).outs != map[] :: Look(cache, disk, t)
  }

  /** The database holds no spent transaction, and an entry that is not dirty is as the database has it. */
  ghost predicate Coherent(cache: Cache, disk: Utxos) {
    && (forall t :: t in disk ==> disk[t].outs != map[])
    && (forall t :: t in cache && !cache[t].dirty ==> t in disk && cache[t].coins == disk[t])
  }

  /** The database after writing the entries of done: dirty ones replace their rows, a dirty entry
      without outputs deletes them, and the rest are skipped. */
  function Written(cache: Cache, disk: Utxos, done: set<Id>): Utxos {
    map t | t in disk.Keys + (cache.Keys * done) && After(cache, disk, done, t).Some? ::
      After(cache, disk, done, t).value
  }

  function After(cache: Cache, disk: Utxos, done: set<Id>, t: Id): Option<Coins> {
    if t in cache && t in done && cache[t].dirty then
      if cache[t].coins.outs == map[] then None else Some(cache[t].coins)
    else if t in disk then Some(disk[t])
    else None
  }

  lemma InView(cache: Cache, disk: Utxos, t: Id)
    ensures t in View(cache, disk) <==> Look(cache, disk, t).outs != map[]
    ensures t in View(cache, disk) ==> View(cache, disk)[t] == Look(cache, disk, t)
  {
  }

  lemma ViewPut(cache: Cache, disk: Utxos, t: Id, c: Coins)
    ensures View(cache[t := Entry(c, true)], disk) == Put(View(cache, disk), t, c)
  {
    hide View;
    var after := cache[t := Entry(c, true)];
    var put := Put(View(cache, disk), t, c);
    forall x
      ensures x in View(after, disk) <==> x in put
      ensures x in put ==> View(after, disk)[x] == put[x]
    {
      InView(cache, disk, x);
      InView(after, disk, x);
      assert x != t ==> Look(after, disk, x) == Look(cache, disk, x);
    }
  }

  /** Loading an entry, clean or dirty, shows nothing new. */
  lemma ViewLoaded(cache: Cache, disk: Utxos, t: Id, dirty: bool)
    ensures View(cache[t := Entry(Look(cache, disk, t), dirty)], disk) == View(cache, disk)
  {
    hide View;
    var after := cache[t := Entry(Look(cache, disk, t), dirty)];
    forall x
      ensures x in View(after, disk) <==> x in View(cache, disk)
      ensures x in View(cache, disk) ==> View(after, disk)[x] == View(cache, disk)[x]
    {
      InView(cache, disk, x);
      InView(after, disk, x);
      assert Look(after, disk, x) == Look(cache, disk, x);
    }
  }

  /** Writing every entry turns the database into the set the cache showed over it. */
  lemma WrittenIsView(cache: Cache, disk: Utxos)
    requires Coherent(cache, disk)
    ensures Written(cache, disk, cache.Keys) == View(cache, disk)
  {
    forall t ensures t in Written(cache, disk, cache.Keys) <==> t in View(cache, disk) {}
  }

  lemma WrittenNothing(cache: Cache, disk: Utxos)
    ensures Written(cache, disk, {}) == disk
  {
  }

  lemma WrittenStep(cache: Cache, disk: Utxos, done: set<Id>, t: Id)
    requires t in cache && t !in done
    ensures Written(cache, disk, done + {t}) ==
              if cache[t].dirty then Put(Written(cache, disk, done), t, cache[t].coins)
              else Written(cache, disk, done)
  {
    assert forall x :: x != t ==> After(cache, disk, done + {t}, x) == After(cache, disk, done, x);
  }

  lemma EmptyView(disk: Utxos)
    requires Coherent(map[], disk)
    ensures View(map[], disk) == disk
  {
  }

  class ChainState {
    var cache: Cache
    var best: Option<Id>
    var disk: Utxos
    var anchor: Option<Id>

    ghost predicate Valid()
      reads this
    {
      Coherent(cache, disk)
    }

    /** The coin set and best block the cache shows. */
    function State(): Chainstate
      reads this
    {
      Chainstate(View(cache, disk), if best.Some? then best else anchor)
    }

    /** coins_view_cache_get_coins: a miss is loaded into the cache as a clean entry. */
    method Fetch(t: Id) returns (r: Option<Coins>)
      requires Valid()
      modifies this`cache
      ensures Valid() && State() == old(State())
      ensures r == if t in State().coins then Some(State().coins[t]) else None
    {
      InView(cache, disk, t);
      if t in cache {
        return if cache[t].coins.outs == map[] then None else Some(cache[t].coins);
      }
      if t !in disk {
        return None;
      }
      ViewLoaded(cache, disk, t, false);
      cache := cache[t := Entry(disk[t], false)];
      return Some(disk[t]);
    }

    /** coins_view_cache_have_coins: a miss is answered by the database and not loaded. */
    method HaveCoins(t: Id) returns (has: bool)
      requires Valid()
      ensures has <==> t in State().coins
    {
      if t in cache {
        return cache[t].coins.outs != map[];
      }
      return t in disk;
    }

    /** One input spent through coins_view_cache_modify, which marks the entry dirty first. */
    method SpendInput(o: OutPoint) returns (ok: bool)
      requires Valid()
      modifies this`cache
      ensures Valid()
      ensures State() == old(State()).(coins := Spend(old(State().coins), o).coins)
      ensures ok == Spend(old(State().coins), o).ok
    {
      hide View, Put;
      var c := Look(cache, disk, o.id);
      InView(cache, disk, o.id);
      ViewLoaded(cache, disk, o.id, true);
      cache := cache[o.id := Entry(c, true)];
      if o.n !in c.outs || !MoneyRange(c.outs[o.n].value) {
        return false;
      }
      var left := c.(outs := c.outs - {o.n});
      ViewPut(cache, disk, o.id, left);
      cache := cache[o.id := Entry(left, true)];
      return true;
    }

    method SpendInputs(ins: seq<OutPoint>) returns (ok: bool)
      requires Valid()
      modifies this`cache
      ensures Valid()
      ensures State() == old(State()).(coins := SpendTo(old(State().coins), ins, |ins|).coins)
      ensures ok == SpendTo(old(State().coins), ins, |ins|).ok
    {
      hide Spend, View;
      ghost var u := State().coins;
      var i := 0;
      ok := true;
      while i < |ins|
        invariant 0 <= i <= |ins| && Valid()
        invariant State() == old(State()).(coins := SpendTo(u, ins, i).coins)
        invariant ok && SpendTo(u, ins, i).ok
      {
        ok := SpendInput(ins[i]);
        i := i + 1;
        if !ok {
          SpendStops(u, ins, i, |ins|);
          return;
        }
      }
    }

    /** coins_view_cache_modify_new, then the new record. */
    method Store(t: Id, c: Coins)
      requires Valid()
      modifies this`cache
      ensures Valid()
      ensures State() == old(State()).(coins := Put(old(State().coins), t, c))
    {
      ViewPut(cache, disk, t, c);
      cache := cache[t := Entry(c, true)];
    }

    method Update(tx: Tx, h: nat) returns (ok: bool)
      requires Valid()
      modifies this`cache
      ensures Valid()
      ensures State() == old(State()).(coins := UpdateCoins(old(State().coins), tx, h).coins)
      ensures ok == UpdateCoins(old(State().coins), tx, h).ok
      ensures ok ==> Updated(old(State().coins), State().coins, tx, h)
    {
      hide View, SpendTo, Updated;
      ok := true;
      ghost var u := State().coins;
      if !tx.coinbase {
        ok := SpendInputs(tx.ins);
        if !ok {
          return;
        }
      }
      if |tx.vout| > MAX_TX_OUTPUTS {
        Store(tx.id, Coins(tx.coinbase, h, map[]));
        return false;
      }
      var c := Created(tx, h);
      Store(tx.id, c);
      ok := forall n | n in c.outs :: MoneyRange(c.outs[n].value);
      if ok {
        UpdateExact(u, tx, h);
      }
    }

    /** The maturity loop, the input loop and the rules that look at the records spent so far. */
    method Admit(p: Rules, b: Block, i: nat, before: seq<Coins>, h: nat) returns (ok: bool, spent: seq<Coins>)
      requires Valid() && i < |b.txs|
      modifies this`cache
      ensures Valid() && State() == old(State())
      ensures ok == Admitted(p, State().coins, before, b, i, h)
      ensures ok ==> spent == SpentBy(State().coins, b.txs[i])
    {
      hide View;
      ghost var u := State().coins;
      var tx := b.txs[i];
      spent := [];
      if !tx.coinbase {
        var j := 0;
        while j < |tx.ins|
          invariant 0 <= j <= |tx.ins| && Valid() && State() == old(State())
          invariant AllMature(u, tx.ins[..j], h)
        {
          var c := Fetch(tx.ins[j].id);
          assert tx.ins[..j + 1] == tx.ins[..j] + [tx.ins[j]];
          if c.Some? && Immature(c.value, h) {
            return false, [];
          }
          j := j + 1;
        }
        assert tx.ins[..j] == tx.ins;
        j := 0;
        while j < |tx.ins|
          invariant 0 <= j <= |tx.ins| && Valid() && State() == old(State())
          invariant |spent| == j
          invariant forall k :: 0 <= k < j ==> Available(u, tx.ins[k]) && spent[k] == u[tx.ins[k].id]
        {
          var c := Fetch(tx.ins[j].id);
          if c.None? || tx.ins[j].n !in c.value.outs {
            assert !Available(u, tx.ins[j]);
            return false, [];
          }
          spent := spent + [c.value];
          j := j + 1;
        }
      }
      assert spent == SpentBy(u, tx);
      ok := p.txOk(before, spent, b, i, h);
    }

    method ConnectOne(p: Rules, b: Block, i: nat, before: seq<Coins>, h: nat) returns (ok: bool, spent: seq<Coins>)
      requires Valid() && i < |b.txs|
      modifies this`cache
      ensures Valid()
      ensures var r := ConnectTx(p, Progress(old(State().coins), before, true), b, i, h);
              State() == old(State()).(coins := r.coins) && ok == r.ok && (ok ==> before + spent == r.spent)
    {
      hide View, UpdateCoins, Admitted, SpentBy;
      ok, spent := Admit(p, b, i, before, h);
      if ok {
        ok := Update(b.txs[i], h);
      }
    }

    method ConnectAll(p: Rules, b: Block, h: nat) returns (ok: bool, spent: seq<Coins>)
      requires Valid()
      modifies this`cache
      ensures Valid()
      ensures var r := ConnectTo(p, old(State().coins), b, h, |b.txs|);
              State() == old(State()).(coins := r.coins) && ok == r.ok && (ok ==> spent == r.spent)
    {
      hide View, ConnectTx;
      ghost var u := State().coins;
      var i := 0;
      ok, spent := true, [];
      while i < |b.txs|
        invariant 0 <= i <= |b.txs| && Valid() && ok
        invariant ConnectTo(p, u, b, h, i) == Progress(State().coins, spent, true) && State().best == old(State().best)
      {
        var more;
        ok, more := ConnectOne(p, b, i, spent, h);
        i := i + 1;
        if !ok {
          ConnectStops(p, u, b, h, i, |b.txs|);
          return;
        }
        spent := spent + more;
      }
    }

    /** The BIP30 loop. */
    method FindClash(p: Rules, b: Block, h: nat) returns (clash: bool)
      requires Valid()
      modifies this`cache
      ensures Valid() && State() == old(State())
      ensures clash == Overwrites(p, State().coins, b, h)
      ensures clash <==>
                && !(0 <= p.deferBelow && h <= p.deferBelow)
                && exists i :: 0 <= i < |b.txs| && b.txs[i].id in State().coins &&
                     !(State().coins[b.txs[i].id].height == h && h > 0)
    {
      hide View;
      if p.deferBelow >= 0 && h <= p.deferBelow {
        return false;
      }
      var i := 0;
      while i < |b.txs|
        invariant 0 <= i <= |b.txs| && Valid() && State() == old(State())
        invariant forall j :: 0 <= j < i ==> !Clashes(State().coins, b.txs[j], h)
      {
        var has := HaveCoins(b.txs[i].id);
        if has {
          var c := Fetch(b.txs[i].id);
          if c.Some? && !(c.value.height == h && h > 0) {
            assert Clashes(State().coins, b.txs[i], h);
            return true;
          }
        }
        i := i + 1;
      }
      return false;
    }

    method Connect(p: Rules, b: Block, h: nat) returns (ok: bool)
      requires Valid()
      modifies this`cache, this`best
      ensures Valid()
      ensures Connected(State(), ok) == ConnectBlock(p, old(State()), b, h)
    {
      hide View, ConnectTo, Overwrites;
      if !p.blockOk(b, h) {
        return false;
      }
      if b.hash == p.genesis {
        best := Some(b.hash);
        return true;
      }
      if best.None? {
        best := anchor;
      }
      if best.Some? && best.value != b.prev {
        return false;
      }
      if !p.turnstileOk(b, h) {
        return false;
      }
      var clash := FindClash(p, b, h);
      if clash {
        return false;
      }
      var spent;
      ok, spent := ConnectAll(p, b, h);
      if ok {
        ok := p.spendsOk(spent, b, h);
      }
      if ok {
        best := Some(b.hash);
      }
    }

    /** The loop of coins_view_sqlite_batch_write_ex: the dirty entries staged one by one. */
    method Stage() returns (staged: Utxos)
      requires Valid()
      ensures staged == State().coins
    {
      hide View, Written, Put;
      staged := disk;
      var rest := cache.Keys;
      WrittenNothing(cache, disk);
      assert cache.Keys - rest == {};
      while rest != {}
        invariant rest <= cache.Keys && staged == Written(cache, disk, cache.Keys - rest)
        decreases |rest|
      {
        var t :| t in rest;
        WrittenStep(cache, disk, cache.Keys - rest, t);
        assert cache.Keys - (rest - {t}) == cache.Keys - rest + {t};
        if cache[t].dirty {
          staged := Put(staged, t, cache[t].coins);
        }
        rest := rest - {t};
      }
      assert cache.Keys - rest == cache.Keys;
      WrittenIsView(cache, disk);
    }

    /** boot_index_flush_reindex_coins: the staged rows are committed together with the best block
        and the cache is emptied. When any statement fails the transaction is rolled back and the
        cache keeps its entries. */
    method Flush(commits: bool) returns (ok: bool)
      requires Valid()
      modifies this`cache, this`disk, this`anchor
      ensures Valid() && State() == old(State()) && ok == commits
      ensures ok ==> cache == map[] && disk == State().coins && anchor == State().best
      ensures !ok ==> disk == old(disk) && anchor == old(anchor) && cache == old(cache)
    {
      var staged := Stage();
      if !commits {
        return false;
      }
      assert forall t :: t in staged ==> staged[t].outs != map[];
      cache, disk := map[], staged;
      if best.Some? {
        anchor := best;
      }
      EmptyView(disk);
      return true;
    }

    /** reindex_chainstate. first and last tell whether the flushes before and after the replay
        commit, mid whether the flush after a height does, and wipe which parts of the persisted
        state boot_index_clear_coins_state deletes (neither, when the database is not open). */
    method ReindexChainstate(p: Rules, blocks: seq<Option<Block>>, first: bool, mid: nat -> bool, last: bool,
                             wipeCoins: bool, wipeAnchor: bool)
      returns (ok: bool, ghost start: Chainstate, ghost reached: nat)
      requires Valid()
      modifies this
      ensures Valid()
      ensures blocks == [] ==> !ok && unchanged(this)
      ensures !first ==> !ok && State() == old(State())
      ensures blocks != [] && first ==>
        start == Chainstate(if wipeCoins then map[] else old(State().coins),
                            if wipeAnchor then None else old(State().best))
      ensures ok ==> blocks != [] && Replay(p, start, blocks, |blocks|) == Connected(Chainstate(disk, anchor), true)
      ensures ok ==> HoldsLiving(start.coins, ChainTxs(p, blocks, |blocks|), disk)
      ensures ok ==> blocks[|blocks| - 1].Some? && anchor == Some(blocks[|blocks| - 1].value.hash)
      ensures blocks != [] && first && last ==>
        && cache == map[] && reached <= |blocks|
        && Chainstate(disk, anchor) == Replay(p, start, blocks, reached).state
      ensures blocks != [] && first && last && (forall h :: mid(h)) ==>
        Replay(p, start, blocks, |blocks|) == Connected(Chainstate(disk, anchor), ok)
    {
      hide HoldsLiving, ChainTxs, Replay, View;
      start, reached := State(), 0;
      if blocks == [] {
        return false, start, reached;
      }
      ok := Flush(first);
      if !ok {
        return;
      }
      if wipeCoins {
        disk := map[];
      }
      if wipeAnchor {
        anchor := None;
      }
      cache, best := map[], None;
      EmptyView(disk);
      start := State();
      ok, reached := ReplayAll(p, blocks, mid);
      var done := Flush(last);
      ok := ok && done;
      if ok {
        ReplayHolds(p, start, blocks, |blocks|);
      }
    }

    /** The replay loop: every height connected in order, flushed every 10,000 heights or above
        200,000 cached entries, stopping at the first failure. */
    method ReplayAll(p: Rules, blocks: seq<Option<Block>>, mid: nat -> bool) returns (ok: bool, ghost reached: nat)
      requires Valid()
      modifies this
      ensures Valid() && reached <= |blocks|
      ensures State() == Replay(p, old(State()), blocks, reached).state
      ensures ok ==> Connected(State(), true) == Replay(p, old(State()), blocks, |blocks|)
      ensures (forall h :: mid(h)) ==> Connected(State(), ok) == Replay(p, old(State()), blocks, |blocks|)
    {
      hide View, ConnectBlock;
      var h := 0;
      ok, reached := true, 0;
      while h < |blocks|
        invariant reached == h
        invariant 0 <= h <= |blocks| && Valid() && ok
        invariant Connected(State(), true) == Replay(p, old(State()), blocks, h)
      {
        if blocks[h].None? {
          ReplayStops(p, old(State()), blocks, h + 1, |blocks|);
          return false, h;
        }
        ok := Connect(p, blocks[h].value, h);
        h := h + 1;
        reached := h;
        if !ok {
          ReplayStops(p, old(State()), blocks, h, |blocks|);
          return;
        }
        if (h - 1) % FLUSH_INTERVAL == 0 || |cache| > FLUSH_ENTRIES {
          ok := Flush(mid(h - 1));
          if !ok {
            return;
          }
        }
      }
    }
  }
}
