/** propagate_nchaintx: height-ordered passes that carry nChainTx and nChainWork from parent
    to child until a pass changes nothing, at most fifty of them. The block-file scan runs
    the same loop. */
module Propagation {
  import opened Ancestry
  import opened BlockIndexModel
  import opened Common
  import opened GenesisRecompute

  ghost predicate LinksAllocated(m: Memory) {
    0 !in m && forall p :: p in m && m[p].pprev != 0 ==> m[p].pprev in m
  }

  ghost predicate OnlySums(n: Node, n': Node) {
    n' == n.(work := n'.work, chainTx := n'.chainTx)
  }

  /** The pass never moves a link, a height or a header field. */
  ghost predicate SameShape(m: Memory, m': Memory) {
    && m'.Keys == m.Keys
    && forall p :: p in m ==> OnlySums(m[p], m'[p])
  }

  lemma SameShapeTrans(m: Memory, m1: Memory, m2: Memory)
    requires SameShape(m, m1) && SameShape(m1, m2)
    ensures SameShape(m, m2) && (LinksAllocated(m) ==> LinksAllocated(m2))
  {
    forall p | p in m ensures OnlySums(m[p], m2[p]) {
      assert OnlySums(m[p], m1[p]) && OnlySums(m1[p], m2[p]);
    }
  }

  /** A block at height 0 gets its own count and its own work, if it has none. */
  function SeedRoot(n: Node, pow: Proof): (r: (Node, nat)) {
    var n1 := if n.chainTx == 0 then n.(chainTx := TxOf(n)) else n;
    var n2 := if n.work == 0 then n1.(work := pow(n.bits)) else n1;
    (n2, (if n.chainTx == 0 then 1 else 0) + (if n.work == 0 then 1 else 0))
  }

  /** The count forced onto a parent that has none: its height, or its own transactions. */
  function ForcedTx(n: Node): Count {
    if n.height > 0 then n.height % COUNT_MODULUS else TxOf(n)
  }

  /** The work forced onto a parent that has none: its proof, which is stored first and then added
      to the work of the parent's own parent, read back from the same place if that is itself. */
  function ForcedWork(m: Memory, pow: Proof, q: Ptr): Work
    requires q in m
  {
    var n := m[q];
    var above := if n.pprev == q then pow(n.bits) else if n.pprev in m then m[n.pprev].work else 0;
    if n.work != 0 then n.work
    else if n.pprev != 0 && above != 0 then Add256(above, pow(n.bits))
    else pow(n.bits)
  }

  /** The nChainTx part of one loop turn. */
  function PassTx(m: Memory, pow: Proof, b: Ptr): (r: (Memory, nat))
    requires b in m && (m[b].pprev != 0 ==> m[b].pprev in m)
    ensures SameShape(m, r.0)
  {
    var n := m[b];
    var q := n.pprev;
    if n.height == 0 then
      var (n', c) := SeedRoot(n, pow); (m[b := n'], c)
    else if q != 0 && m[q].chainTx > 0 then
      var expected := Add32(m[q].chainTx, TxOf(n));
      if n.chainTx != expected then (m[b := n.(chainTx := expected)], 1) else (m, 0)
    else if q != 0 then
      var m1 := m[q := m[q].(chainTx := ForcedTx(m[q]), work := ForcedWork(m, pow, q))];
      (m1[b := m1[b].(chainTx := Add32(m1[q].chainTx, TxOf(n)))], 2)
    else (m, 0)
  }

  /** The nChainWork part of one loop turn. */
  function PassWork(m: Memory, pow: Proof, b: Ptr): (r: (Memory, nat))
    requires b in m && (m[b].pprev != 0 ==> m[b].pprev in m)
    ensures SameShape(m, r.0)
  {
    var n := m[b];
    if n.pprev != 0 && m[n.pprev].work != 0 && n.work == 0 then
      (m[b := n.(work := Add256(m[n.pprev].work, pow(n.bits)))], 1)
    else (m, 0)
  }

  function PassOne(m: Memory, pow: Proof, b: Ptr): (r: (Memory, nat))
    requires LinksAllocated(m) && b in m
    ensures SameShape(m, r.0) && LinksAllocated(r.0)
  {
    var (m1, c1) := PassTx(m, pow, b);
    var (m2, c2) := PassWork(m1, pow, b);
    SameShapeTrans(m, m1, m2);
    (m2, c1 + c2)
  }

  ghost predicate AllIn(s: seq<Ptr>, m: Memory) {
    forall i :: 0 <= i < |s| ==> s[i] in m
  }

  /** A pass over the first n blocks of s, as a value: the memory it leaves and how many
      changes it counts. */
  function PassTo(m: Memory, pow: Proof, s: seq<Ptr>, n: nat): (r: (Memory, nat))
    requires LinksAllocated(m) && AllIn(s, m) && n <= |s|
    ensures SameShape(m, r.0) && LinksAllocated(r.0)
    decreases n
  {
    if n == 0 then (m, 0)
    else
      var (m1, c1) := PassTo(m, pow, s, n - 1);
      var (m2, c2) := PassOne(m1, pow, s[n - 1]);
      SameShapeTrans(m, m1, m2);
      (m2, c1 + c2)
  }

  /** One pass over the height-sorted entries. */
  method Pass(idx: BlockIndex, sorted: seq<Ptr>) returns (propagated: nat)
    requires LinksAllocated(idx.mem) && AllIn(sorted, idx.mem)
    modifies idx`mem
    ensures (idx.mem, propagated) == PassTo(old(idx.mem), idx.pow, sorted, |sorted|)
  {
    hide PassOne, PassTo;
    propagated := 0;
    PassToStart(idx.mem, idx.pow, sorted);
    for i := 0 to |sorted|
      invariant (idx.mem, propagated) == PassTo(old(idx.mem), idx.pow, sorted, i)
    {
      var (m, c) := PassOne(idx.mem, idx.pow, sorted[i]);
      idx.mem := m;
      propagated := propagated + c;
      PassToStep(old(idx.mem), idx.pow, sorted, i);
    }
  }

  lemma PassToStart(m: Memory, pow: Proof, s: seq<Ptr>)
    requires LinksAllocated(m) && AllIn(s, m)
    ensures PassTo(m, pow, s, 0) == (m, 0)
  {
  }

  lemma PassToStep(m: Memory, pow: Proof, s: seq<Ptr>, i: nat)
    requires LinksAllocated(m) && AllIn(s, m) && i < |s|
    ensures var (m1, c1) := PassTo(m, pow, s, i);
            var (m2, c2) := PassOne(m1, pow, s[i]);
            PassTo(m, pow, s, i + 1) == (m2, c1 + c2)
  {
    hide PassOne;
  }

  /** Heights are consistent with the links: a child is one above its parent. C ints. */
  ghost predicate HeightConsistent(m: Memory) {
    && LinksAllocated(m)
    && forall p :: p in m ==>
         && 0 <= m[p].height < 0x8000_0000
         && (m[p].pprev != 0 ==> m[p].height == m[m[p].pprev].height + 1)
  }

  /** What qsort by height hands to the pass: each block once, no higher block first. */
  ghost predicate HeightSorted(m: Memory, s: seq<Ptr>) {
    && AllIn(s, m) && NoDup(s)
    && forall i, j :: 0 <= i < j < |s| ==> m[s[i]].height <= m[s[j]].height
  }

  /** The count the pass gives a block when it reaches it. */
  function BaseTx(m: Memory, s: seq<Ptr>, p: Ptr): Count
    requires HeightConsistent(m) && p in m
    decreases m[p].height, 0
  {
    var n := m[p];
    if p !in s then n.chainTx
    else if n.height == 0 then (if n.chainTx == 0 then TxOf(n) else n.chainTx)
    else if n.pprev != 0 then Add32(ParentTx(m, s, n.pprev), TxOf(n))
    else n.chainTx
  }

  /** The count a child sees: a parent left with zero is forced first. */
  function ParentTx(m: Memory, s: seq<Ptr>, q: Ptr): (c: Count)
    requires HeightConsistent(m) && q in m
    ensures c != 0
    decreases m[q].height, 1
  {
    if BaseTx(m, s, q) != 0 then BaseTx(m, s, q) else ForcedTx(m[q])
  }

  ghost predicate HasChild(m: Memory, s: seq<Ptr>, n: nat, p: Ptr)
    requires AllIn(s, m) && n <= |s|
  {
    exists i :: 0 <= i < n && m[s[i]].pprev == p
  }

  /** The count of p once the first n blocks have been passed. */
  ghost function TxAt(m: Memory, s: seq<Ptr>, n: nat, p: Ptr): Count
    requires HeightConsistent(m) && AllIn(s, m) && n <= |s| && p in m
  {
    if HasChild(m, s, n, p) then ParentTx(m, s, p)
    else if p in s[..n] then BaseTx(m, s, p)
    else m[p].chainTx
  }

  /** The next block of the pass has not been touched, and its parent has been passed if it
      ever is. */
  lemma NextBlock(m: Memory, s: seq<Ptr>, n: nat)
    requires HeightConsistent(m) && HeightSorted(m, s) && n < |s|
    ensures s[n] !in s[..n] && !HasChild(m, s, n, s[n])
    ensures var q := m[s[n]].pprev; q != 0 ==> q != s[n] && (q in s ==> q in s[..n])
    ensures forall p :: p in s[..n + 1] <==> p in s[..n] || p == s[n]
    ensures forall p :: HasChild(m, s, n + 1, p) <==> HasChild(m, s, n, p) || p == m[s[n]].pprev
  {
    assert s[..n + 1] == s[..n] + [s[n]];
    var q := m[s[n]].pprev;
    if q != 0 && q in s {
      var j :| 0 <= j < |s| && s[j] == q;
      assert j < n;
      assert s[..n][j] == q;
    }
    forall p ensures HasChild(m, s, n + 1, p) <==> HasChild(m, s, n, p) || p == q {
      NextChild(m, s, n, p);
    }
  }

  lemma NextChild(m: Memory, s: seq<Ptr>, n: nat, p: Ptr)
    requires AllIn(s, m) && n < |s|
    ensures HasChild(m, s, n + 1, p) <==> HasChild(m, s, n, p) || p == m[s[n]].pprev
  {
    if HasChild(m, s, n, p) {
      var i :| 0 <= i < n && m[s[i]].pprev == p;
      assert 0 <= i < n + 1 && m[s[i]].pprev == p;
    }
    if p == m[s[n]].pprev {
      assert 0 <= n < n + 1 && m[s[n]].pprev == p;
    }
    if HasChild(m, s, n + 1, p) {
      var i :| 0 <= i < n + 1 && m[s[i]].pprev == p;
      assert i < n ==> HasChild(m, s, n, p);
    }
  }

  /** How the counts move when block n is passed. */
  lemma TxAtStep(m: Memory, s: seq<Ptr>, n: nat, p: Ptr)
    requires HeightConsistent(m) && HeightSorted(m, s) && n < |s| && p in m
    ensures var b := s[n]; var q := m[b].pprev;
            && (p != b && p != q ==> TxAt(m, s, n + 1, p) == TxAt(m, s, n, p))
            && (p == b ==> TxAt(m, s, n, p) == m[p].chainTx && TxAt(m, s, n + 1, p) == BaseTx(m, s, p))
            && (p == q ==>
                  && TxAt(m, s, n + 1, p) == ParentTx(m, s, p)
                  && ParentTx(m, s, p) == if TxAt(m, s, n, p) != 0 then TxAt(m, s, n, p) else ForcedTx(m[p]))
  {
    NextBlock(m, s, n);
  }

  /** Exact counts after every prefix of the first pass, wrap-around included. */
  lemma {:induction false} PassTxAt(m: Memory, pow: Proof, s: seq<Ptr>, n: nat, p: Ptr)
    requires HeightConsistent(m) && HeightSorted(m, s) && n <= |s| && p in m
    ensures PassTo(m, pow, s, n).0[p].chainTx == TxAt(m, s, n, p)
    decreases n, 0
  {
    if n > 0 {
      PassTxAtStep(m, pow, s, n - 1, p);
    } else {
      PassToStart(m, pow, s);
    }
  }

  lemma {:induction false} PassTxAtStep(m: Memory, pow: Proof, s: seq<Ptr>, n: nat, p: Ptr)
    requires HeightConsistent(m) && HeightSorted(m, s) && n < |s| && p in m
    ensures PassTo(m, pow, s, n + 1).0[p].chainTx == TxAt(m, s, n + 1, p)
    decreases n, 1
  {
    hide PassOne, PassTo, TxAt;
    var m1 := PassTo(m, pow, s, n).0;
    var b := s[n];
    var q := m[b].pprev;
    PassToStep(m, pow, s, n);
    NextBlock(m, s, n);
    PassTxAt(m, pow, s, n, p);
    PassTxAt(m, pow, s, n, b);
    TxAtStep(m, s, n, p);
    TxAtStep(m, s, n, b);
    assert OnlySums(m[b], m1[b]);
    PassOneTx(m1, pow, b);
    if q != 0 {
      PassTxAt(m, pow, s, n, q);
      TxAtStep(m, s, n, q);
      assert OnlySums(m[q], m1[q]);
    }
  }

  /** What one turn does to the counts: only the block and its parent move. */
  lemma PassOneTx(m: Memory, pow: Proof, b: Ptr)
    requires LinksAllocated(m) && b in m && m[b].pprev != b
    ensures var m' := PassOne(m, pow, b).0;
            var n := m[b];
            var q := n.pprev;
            && (forall p :: p in m && p != b && p != q ==> m'[p].chainTx == m[p].chainTx)
            && (n.height == 0 ==>
                  && m'[b].chainTx == (if n.chainTx == 0 then TxOf(n) else n.chainTx)
                  && (q != 0 ==> m'[q].chainTx == m[q].chainTx))
            && (n.height != 0 && q == 0 ==> m'[b].chainTx == n.chainTx)
            && (n.height != 0 && q != 0 ==>
                  && m'[q].chainTx == (if m[q].chainTx != 0 then m[q].chainTx else ForcedTx(m[q]))
                  && m'[b].chainTx == Add32(m'[q].chainTx, TxOf(n)))
  {
  }

  /** The counts after one turn in plain numbers: a block at height 0 without a count gets its own
      transactions, at least one; any other block with a parent gets the parent's count plus its own,
      and a parent without a count is first given its height, or its own transactions at height 0. */
  lemma TurnInNumbers(m: Memory, pow: Proof, b: Ptr)
    requires LinksAllocated(m) && b in m && m[b].pprev != b
    ensures var m', n := PassOne(m, pow, b).0, m[b];
            var own := if n.nTx > 0 then n.nTx else 1;
            && (n.height == 0 ==> m'[b].chainTx == if n.chainTx != 0 then n.chainTx else own)
            && (n.height != 0 && n.pprev != 0 ==>
                  var q := m[n.pprev];
                  var c := if q.chainTx != 0 then q.chainTx
                           else if q.height > 0 then q.height % 0x1_0000_0000
                           else if q.nTx > 0 then q.nTx else 1;
                  m'[n.pprev].chainTx == c && m'[b].chainTx == (c + own) % 0x1_0000_0000)
            && (n.height != 0 && n.pprev == 0 ==> m'[b].chainTx == n.chainTx)
  {
    hide PassOne, Add32, TxOf;
    PassOneTx(m, pow, b);
    AddTxIs(PassOne(m, pow, b).0[if m[b].pprev != 0 then m[b].pprev else b].chainTx, m[b]);
    TxOfIs(m[b]);
    if m[b].pprev != 0 {
      TxOfIs(m[m[b].pprev]);
    }
  }

  lemma TxOfIs(n: Node)
    ensures TxOf(n) == if n.nTx > 0 then n.nTx else 1
  {
  }

  /** A pass that reports no change has made none, so the loop stops on a fixpoint only. */
  lemma {:induction false} IdleIsFixpoint(m: Memory, pow: Proof, s: seq<Ptr>, n: nat)
    requires LinksAllocated(m) && AllIn(s, m) && n <= |s| && PassTo(m, pow, s, n).1 == 0
    ensures PassTo(m, pow, s, n).0 == m
    decreases n
  {
    hide PassTo, PassOne;
    if n == 0 {
      PassToStart(m, pow, s);
    } else {
      PassToStep(m, pow, s, n - 1);
      IdleIsFixpoint(m, pow, s, n - 1);
      IdleTurn(m, pow, s[n - 1]);
    }
  }

  lemma IdleTurn(m: Memory, pow: Proof, b: Ptr)
    requires LinksAllocated(m) && b in m && PassOne(m, pow, b).1 == 0
    ensures PassOne(m, pow, b).0 == m
  {
  }

  /** The count a linked block is reached with. */
  lemma BaseTxLinked(m: Memory, s: seq<Ptr>, b: Ptr)
    requires HeightConsistent(m) && b in m && b in s && m[b].pprev != 0
    ensures BaseTx(m, s, b) == Add32(ParentTx(m, s, m[b].pprev), TxOf(m[b]))
  {
  }

  /** After the first pass a linked block's count is its parent's plus its own, exactly when
      that sum did not wrap to zero under a child. */
  lemma PassTxExact(m: Memory, pow: Proof, s: seq<Ptr>, b: Ptr)
    requires HeightConsistent(m) && HeightSorted(m, s) && b in s && m[b].pprev != 0
    ensures var m' := PassTo(m, pow, s, |s|).0;
            m'[b].chainTx == (m'[m[b].pprev].chainTx + if m[b].nTx > 0 then m[b].nTx else 1) % 0x1_0000_0000
            <==> BaseTx(m, s, b) != 0 || !HasChild(m, s, |s|, b)
  {
    hide PassTo, BaseTx, Add32, TxOf, HasChild, TxAt;
    AddTxIs(PassTo(m, pow, s, |s|).0[m[b].pprev].chainTx, m[b]);
    PassTxStands(m, pow, s, b);
  }

  lemma AddTxIs(a: Count, n: Node)
    ensures Add32(a, TxOf(n)) == (a + if n.nTx > 0 then n.nTx else 1) % 0x1_0000_0000
  {
  }

  lemma PassTxStands(m: Memory, pow: Proof, s: seq<Ptr>, b: Ptr)
    requires HeightConsistent(m) && HeightSorted(m, s) && b in s && m[b].pprev != 0
    ensures var m' := PassTo(m, pow, s, |s|).0;
            m'[b].chainTx == Add32(m'[m[b].pprev].chainTx, TxOf(m[b]))
            <==> BaseTx(m, s, b) != 0 || !HasChild(m, s, |s|, b)
  {
    hide PassTo, BaseTx;
    var i :| 0 <= i < |s| && s[i] == b;
    assert s[..|s|] == s;
    PassTxAt(m, pow, s, |s|, b);
    PassTxAt(m, pow, s, |s|, m[b].pprev);
    BaseTxLinked(m, s, b);
  }

  /** A block the pass would leave alone. */
  ghost predicate Stable(m: Memory, b: Ptr)
    requires b in m && (m[b].pprev != 0 ==> m[b].pprev in m)
  {
    var n := m[b];
    var q := n.pprev;
    && (n.height == 0 ==> n.chainTx != 0 && n.work != 0)
    && (n.height != 0 && q != 0 ==> m[q].chainTx != 0 && n.chainTx == Add32(m[q].chainTx, TxOf(n)))
    && (q != 0 && m[q].work != 0 ==> n.work != 0)
  }

  lemma StableOne(m: Memory, pow: Proof, b: Ptr)
    requires LinksAllocated(m) && b in m && Stable(m, b)
    ensures PassOne(m, pow, b) == (m, 0)
  {
    assert m[b := m[b]] == m;
    assert PassTx(m, pow, b) == (m, 0);
  }

  lemma {:induction false} StablePass(m: Memory, pow: Proof, s: seq<Ptr>, n: nat)
    requires LinksAllocated(m) && AllIn(s, m) && n <= |s|
    requires forall i :: 0 <= i < |s| ==> Stable(m, s[i])
    ensures PassTo(m, pow, s, n) == (m, 0)
    decreases n
  {
    hide PassOne, PassTo;
    if n == 0 {
      PassToStart(m, pow, s);
    } else {
      StablePass(m, pow, s, n - 1);
      PassToStep(m, pow, s, n - 1);
      StableOne(m, pow, s[n - 1]);
    }
  }

  /** Work that h + 1 proofs of at most maxP each can add to a start of at most maxW. */
  function Cap(maxW: nat, maxP: nat, h: nat): nat {
    maxW + (h + 1) * maxP
  }

  lemma CapStep(maxW: nat, maxP: nat, h: nat, h': nat)
    requires h <= h'
    ensures Cap(maxW, maxP, h) <= Cap(maxW, maxP, h') && Cap(maxW, maxP, h + 1) == Cap(maxW, maxP, h) + maxP
  {
  }

  /** Every proof is positive and no sum of them can reach 2^256. */
  ghost predicate WorkFits(m: Memory, pow: Proof, maxW: nat, maxP: nat, maxH: nat) {
    && Cap(maxW, maxP, maxH) < WORK_MODULUS
    && forall p :: p in m ==> m[p].work <= maxW && 0 < pow(m[p].bits) <= maxP && m[p].height <= maxH
  }

  ghost predicate WorkCapped(m: Memory, maxW: nat, maxP: nat) {
    forall p :: p in m && m[p].height >= 0 ==> m[p].work <= Cap(maxW, maxP, m[p].height)
  }

  /** What one turn does to the work: only the block and, when forced, its parent move. */
  lemma PassOneWork(m: Memory, pow: Proof, b: Ptr)
    requires LinksAllocated(m) && b in m && m[b].pprev != b
    ensures var m' := PassOne(m, pow, b).0;
            var n := m[b];
            var q := n.pprev;
            && (forall p :: p in m && p != b && p != q ==> m'[p].work == m[p].work)
            && (q != 0 ==> m'[q].work == if n.height != 0 && m[q].chainTx == 0 then ForcedWork(m, pow, q) else m[q].work)
            && (var w := if n.height == 0 && n.work == 0 then pow(n.bits) else n.work;
                m'[b].work == if q != 0 && m'[q].work != 0 && w == 0 then Add256(m'[q].work, pow(n.bits)) else w)
  {
  }

  /** The first n blocks of the pass force a count, and with it work, onto p. */
  ghost predicate Forces(m: Memory, s: seq<Ptr>, n: nat, p: Ptr)
    requires HeightConsistent(m) && AllIn(s, m) && n <= |s| && p in m
  {
    HasChild(m, s, n, p) && BaseTx(m, s, p) == 0
  }

  /** The work of a listed block after n blocks, given its parent's: its own if it had any, else its
      proof on top of its parent's work, else its proof alone if it is a root or gets a count forced
      onto it, else still none. */
  ghost function WorkAfter(m: Memory, m': Memory, pow: Proof, s: seq<Ptr>, n: nat, p: Ptr): Work
    requires HeightConsistent(m) && SameShape(m, m') && AllIn(s, m) && n <= |s| && p in m
  {
    var q := m[p].pprev;
    if m[p].work != 0 then m[p].work
    else if q != 0 && m'[q].work != 0 then Add256(m'[q].work, pow(m[p].bits))
    else if m[p].height == 0 || Forces(m, s, n, p) then pow(m[p].bits)
    else 0
  }

  /** Where the work stands after n blocks: settled for those, untouched for blocks that are neither
      listed among them nor the parent of one. */
  ghost predicate WorkStands(m: Memory, m': Memory, pow: Proof, s: seq<Ptr>, n: nat)
    requires HeightConsistent(m) && AllIn(s, m) && n <= |s|
  {
    && SameShape(m, m')
    && (forall p :: p in m && p in s[..n] ==> m'[p].work == WorkAfter(m, m', pow, s, n, p))
    && (forall p :: p in m && p !in s[..n] && !HasChild(m, s, n, p) ==> m'[p].work == m[p].work)
  }

  /** The turn of a block whose parent is passed or never will be. */
  lemma WorkTurn(m: Memory, m1: Memory, pow: Proof, s: seq<Ptr>, n: nat)
    requires HeightConsistent(m) && HeightSorted(m, s) && n < |s| && WorkStands(m, m1, pow, s, n) && LinksAllocated(m1)
    requires forall p :: p in m ==> m1[p].chainTx == TxAt(m, s, n, p)
    ensures WorkStands(m, PassOne(m1, pow, s[n]).0, pow, s, n + 1)
  {
    hide PassOne, Add256, BaseTx;
    var b: Ptr := s[n];
    var q := m[b].pprev;
    var m2 := PassOne(m1, pow, b).0;
    NextBlock(m, s, n);
    SameShapeTrans(m, m1, m2);
    assert OnlySums(m[b], m1[b]);
    PassOneWork(m1, pow, b);
    if q != 0 {
      ParentWork(m, m1, pow, s, n);
    }
    forall p | p in m && p in s[..n + 1] ensures m2[p].work == WorkAfter(m, m2, pow, s, n + 1, p) {
      if p != b {
        WorkKept(m, m1, m2, pow, s, n, p);
      }
    }
  }

  /** What the turn does to the parent's work: it is forced exactly when this is its first child and it
      has no count. */
  lemma ParentWork(m: Memory, m1: Memory, pow: Proof, s: seq<Ptr>, n: nat)
    requires HeightConsistent(m) && HeightSorted(m, s) && n < |s| && WorkStands(m, m1, pow, s, n) && LinksAllocated(m1)
    requires m[s[n]].pprev != 0 && forall p :: p in m ==> m1[p].chainTx == TxAt(m, s, n, p)
    ensures var q := m[s[n]].pprev;
            && (HasChild(m, s, n, q) ==> m1[q].chainTx != 0)
            && (!HasChild(m, s, n, q) && q in s[..n] ==> (m1[q].chainTx == 0 <==> BaseTx(m, s, q) == 0))
  {
    hide BaseTx;
  }

  /** A block passed before keeps to its equation. */
  lemma WorkKept(m: Memory, m1: Memory, m2: Memory, pow: Proof, s: seq<Ptr>, n: nat, p: Ptr)
    requires HeightConsistent(m) && HeightSorted(m, s) && n < |s| && WorkStands(m, m1, pow, s, n) && LinksAllocated(m1)
    requires forall p :: p in m ==> m1[p].chainTx == TxAt(m, s, n, p)
    requires m2 == PassOne(m1, pow, s[n]).0 && p in m && p in s[..n] && p != s[n]
    ensures SameShape(m, m2) && m2[p].work == WorkAfter(m, m2, pow, s, n + 1, p)
  {
    hide PassOne, Add256, BaseTx, TxAt;
    var b: Ptr := s[n];
    var q := m[b].pprev;
    NextBlock(m, s, n);
    SameShapeTrans(m, m1, m2);
    assert OnlySums(m[b], m1[b]) && OnlySums(m[p], m1[p]);
    PassOneWork(m1, pow, b);
    assert m[p].pprev != b;
    if q != 0 {
      ParentWork(m, m1, pow, s, n);
      if m[p].pprev == q {
        var j :| 0 <= j < n && s[j] == p;
        assert HasChild(m, s, n, q);
      }
    }
  }

  /** Exact work after every prefix of the first pass, wrap-around included. */
  lemma {:induction false} PassWorkExact(m: Memory, pow: Proof, s: seq<Ptr>, n: nat)
    requires HeightConsistent(m) && HeightSorted(m, s) && n <= |s|
    ensures WorkStands(m, PassTo(m, pow, s, n).0, pow, s, n)
    decreases n
  {
    hide PassTo, PassOne, WorkStands, TxAt;
    if n == 0 {
      PassToStart(m, pow, s);
      WorkStart(m, pow, s);
    } else {
      PassWorkExact(m, pow, s, n - 1);
      PassToStep(m, pow, s, n - 1);
      forall p | p in m ensures PassTo(m, pow, s, n - 1).0[p].chainTx == TxAt(m, s, n - 1, p) {
        PassTxAt(m, pow, s, n - 1, p);
      }
      WorkTurn(m, PassTo(m, pow, s, n - 1).0, pow, s, n - 1);
    }
  }

  lemma WorkStart(m: Memory, pow: Proof, s: seq<Ptr>)
    requires HeightConsistent(m) && AllIn(s, m)
    ensures WorkStands(m, m, pow, s, 0)
  {
    SameShapeRefl(m);
  }

  /** Adding a positive proof to capped work stays capped and positive. */
  lemma AddCapped(m: Memory, pow: Proof, maxW: nat, maxP: nat, maxH: nat, w: Work, h: nat, p: Ptr)
    requires WorkFits(m, pow, maxW, maxP, maxH) && p in m && w <= Cap(maxW, maxP, h) && h + 1 == m[p].height
    ensures 0 < Add256(w, pow(m[p].bits)) <= Cap(maxW, maxP, h + 1)
  {
    hide Cap;
    CapStep(maxW, maxP, h, h);
    CapStep(maxW, maxP, h + 1, maxH);
  }

  /** Parents with work have children with work, among the blocks passed. */
  ghost predicate WorkCarried(m: Memory, s: seq<Ptr>, n: nat)
    requires LinksAllocated(m) && AllIn(s, m) && n <= |s|
  {
    forall i :: 0 <= i < n ==>
      var b := m[s[i]];
      && (b.height == 0 ==> b.work != 0)
      && (b.pprev != 0 && m[b.pprev].work != 0 ==> b.work != 0)
  }

  /** One turn keeps the caps. */
  lemma CapKept(m0: Memory, m: Memory, pow: Proof, b: Ptr, maxW: nat, maxP: nat, maxH: nat)
    requires HeightConsistent(m0) && WorkFits(m0, pow, maxW, maxP, maxH) && b in m0
    requires SameShape(m0, m) && LinksAllocated(m) && WorkCapped(m, maxW, maxP)
    ensures WorkCapped(PassOne(m, pow, b).0, maxW, maxP)
    ensures var q := m[b].pprev;
            && (q != 0 ==> ForcedWork(m, pow, q) != 0)
            && var m' := PassOne(m, pow, b).0;
               m'[b].work != 0 || (q != 0 && m'[q].work == 0) || (q == 0 && m[b].height != 0)
  {
    hide PassOne, Cap, Add256;
    var m' := PassOne(m, pow, b).0;
    var q := m[b].pprev;
    assert OnlySums(m0[b], m[b]);
    PassOneWork(m, pow, b);
    RootCap(m0, pow, b, maxW, maxP, maxH);
    if q != 0 {
      assert OnlySums(m0[q], m[q]);
      ForcedCapped(m0, m, pow, q, maxW, maxP, maxH);
      AddCapped(m0, pow, maxW, maxP, maxH, m'[q].work, m[q].height, b);
    }
    forall p | p in m' && m'[p].height >= 0 ensures m'[p].work <= Cap(maxW, maxP, m'[p].height) {
      assert OnlySums(m[p], m'[p]);
    }
  }

  /** A proof alone is capped. */
  lemma RootCap(m: Memory, pow: Proof, p: Ptr, maxW: nat, maxP: nat, maxH: nat)
    requires HeightConsistent(m) && WorkFits(m, pow, maxW, maxP, maxH) && p in m
    ensures 0 < pow(m[p].bits) <= Cap(maxW, maxP, m[p].height)
  {
    CapStep(maxW, maxP, 0, m[p].height);
  }

  lemma ForcedCapped(m0: Memory, m: Memory, pow: Proof, q: Ptr, maxW: nat, maxP: nat, maxH: nat)
    requires HeightConsistent(m0) && WorkFits(m0, pow, maxW, maxP, maxH) && q in m0
    requires SameShape(m0, m) && LinksAllocated(m) && WorkCapped(m, maxW, maxP)
    ensures 0 < ForcedWork(m, pow, q) <= Cap(maxW, maxP, m0[q].height)
  {
    hide Cap, Add256;
    assert OnlySums(m0[q], m[q]);
    RootCap(m0, pow, q, maxW, maxP, maxH);
    var r := m[q].pprev;
    if r != 0 {
      assert OnlySums(m0[r], m[r]);
      AddCapped(m0, pow, maxW, maxP, maxH, m[r].work, m[r].height, q);
    }
  }

  /** After n blocks of the first pass work is capped and carried. */
  lemma {:induction false} PassWorkCarried(m: Memory, pow: Proof, s: seq<Ptr>, n: nat, maxW: nat, maxP: nat, maxH: nat)
    requires HeightConsistent(m) && HeightSorted(m, s) && n <= |s| && WorkFits(m, pow, maxW, maxP, maxH)
    ensures var m' := PassTo(m, pow, s, n).0; WorkCapped(m', maxW, maxP) && WorkCarried(m', s, n)
    decreases n
  {
    hide PassOne, PassTo, Cap, WorkCapped, WorkCarried, SameShape, WorkFits;
    if n == 0 {
      PassToStart(m, pow, s);
      CapStart(m, pow, maxW, maxP, maxH);
      assert WorkCarried(m, s, 0) by { NothingCarried(m, s); }
    } else {
      PassWorkCarried(m, pow, s, n - 1, maxW, maxP, maxH);
      PassToStep(m, pow, s, n - 1);
      CapKept(m, PassTo(m, pow, s, n - 1).0, pow, s[n - 1], maxW, maxP, maxH);
      WorkCarriedStep(m, pow, s, n - 1, maxW, maxP, maxH);
    }
  }

  lemma NothingCarried(m: Memory, s: seq<Ptr>)
    requires LinksAllocated(m) && AllIn(s, m)
    ensures WorkCarried(m, s, 0)
  {
  }

  lemma CapStart(m: Memory, pow: Proof, maxW: nat, maxP: nat, maxH: nat)
    requires WorkFits(m, pow, maxW, maxP, maxH)
    ensures WorkCapped(m, maxW, maxP)
  {
    forall p | p in m && m[p].height >= 0 ensures m[p].work <= Cap(maxW, maxP, m[p].height) {
      CapStep(maxW, maxP, 0, m[p].height);
    }
  }

  lemma WorkCarriedStep(m: Memory, pow: Proof, s: seq<Ptr>, n: nat, maxW: nat, maxP: nat, maxH: nat)
    requires HeightConsistent(m) && HeightSorted(m, s) && n < |s| && WorkFits(m, pow, maxW, maxP, maxH)
    requires var m1 := PassTo(m, pow, s, n).0; WorkCapped(m1, maxW, maxP) && WorkCarried(m1, s, n)
    ensures WorkCarried(PassTo(m, pow, s, n + 1).0, s, n + 1)
  {
    hide PassOne, PassTo, Cap, TxAt;
    var m1 := PassTo(m, pow, s, n).0;
    var b := s[n];
    var q := m[b].pprev;
    var m2 := PassTo(m, pow, s, n + 1).0;
    PassToStep(m, pow, s, n);
    NextBlock(m, s, n);
    assert OnlySums(m[b], m1[b]);
    PassOneWork(m1, pow, b);
    CapKept(m, m1, pow, b, maxW, maxP, maxH);
    forall i | 0 <= i < n + 1
      ensures var c := m2[s[i]];
              (c.height == 0 ==> c.work != 0) && (c.pprev != 0 && m2[c.pprev].work != 0 ==> c.work != 0)
    {
      var c := s[i];
      assert OnlySums(m[c], m1[c]) && OnlySums(m[c], m2[c]);
      if i < n && m[c].pprev == q != 0 {
        TouchedNotForced(m, pow, s, n, q);
      }
    }
  }

  /** A parent with a passed child has a count, so it is never forced again. */
  lemma TouchedNotForced(m: Memory, pow: Proof, s: seq<Ptr>, n: nat, q: Ptr)
    requires HeightConsistent(m) && HeightSorted(m, s) && n < |s| && q in m && HasChild(m, s, n, q)
    ensures PassTo(m, pow, s, n).0[q].chainTx != 0
  {
    hide PassTo;
    PassTxAt(m, pow, s, n, q);
  }

  /** The fixpoint: on a height-consistent index with positive proofs, if no count and no
      work wraps, one pass settles everything and the next changes nothing. */
  lemma SecondPassIdle(m: Memory, pow: Proof, s: seq<Ptr>, maxW: nat, maxP: nat, maxH: nat)
    requires HeightConsistent(m) && HeightSorted(m, s) && WorkFits(m, pow, maxW, maxP, maxH)
    requires forall b :: b in s && m[b].pprev != 0 ==> BaseTx(m, s, b) != 0 || !HasChild(m, s, |s|, b)
    ensures var m' := PassTo(m, pow, s, |s|).0; AllIn(s, m') && PassTo(m', pow, s, |s|) == (m', 0)
  {
    hide PassTo, TxAt;
    var m' := PassTo(m, pow, s, |s|).0;
    PassWorkCarried(m, pow, s, |s|, maxW, maxP, maxH);
    forall i | 0 <= i < |s| ensures Stable(m', s[i]) {
      var b := s[i];
      assert OnlySums(m[b], m'[b]);
      SettledTx(m, pow, s, i);
    }
    StablePass(m', pow, s, |s|);
  }

  lemma SettledTx(m: Memory, pow: Proof, s: seq<Ptr>, i: nat)
    requires HeightConsistent(m) && HeightSorted(m, s) && i < |s|
    requires m[s[i]].pprev != 0 ==> BaseTx(m, s, s[i]) != 0 || !HasChild(m, s, |s|, s[i])
    ensures var m' := PassTo(m, pow, s, |s|).0;
            && (m[s[i]].height == 0 ==> m'[s[i]].chainTx != 0)
            && (m[s[i]].pprev != 0 ==>
                  && m'[m[s[i]].pprev].chainTx != 0
                  && m'[s[i]].chainTx == Add32(m'[m[s[i]].pprev].chainTx, TxOf(m[s[i]])))
  {
    hide PassTo;
    var b := s[i];
    var q := m[b].pprev;
    assert s[..|s|] == s && b in s;
    PassTxAt(m, pow, s, |s|, b);
    if q != 0 {
      assert HasChild(m, s, |s|, q);
      PassTxAt(m, pow, s, |s|, q);
      PassTxExact(m, pow, s, b);
    }
  }

  /** n whole passes in a row, and the changes they count in all. */
  function Passes(m: Memory, pow: Proof, s: seq<Ptr>, n: nat): (r: (Memory, nat))
    requires LinksAllocated(m) && AllIn(s, m)
    ensures SameShape(m, r.0) && LinksAllocated(r.0) && AllIn(s, r.0)
    decreases n
  {
    if n == 0 then SameShapeRefl(m); (m, 0)
    else
      var (m1, c1) := Passes(m, pow, s, n - 1);
      var (m2, c2) := PassTo(m1, pow, s, |s|);
      SameShapeTrans(m, m1, m2);
      (m2, c1 + c2)
  }

  lemma PassesStep(m: Memory, pow: Proof, s: seq<Ptr>, n: nat)
    requires LinksAllocated(m) && AllIn(s, m)
    ensures Passes(m, pow, s, 0) == (m, 0)
    ensures var (m1, c1) := Passes(m, pow, s, n);
            Passes(m, pow, s, n + 1) == (PassTo(m1, pow, s, |s|).0, c1 + PassTo(m1, pow, s, |s|).1)
  {
    hide PassTo;
  }

  /** propagate_nchaintx over the sorted entries: passes until one changes nothing, at most fifty. */
  method Propagate(idx: BlockIndex, sorted: seq<Ptr>) returns (total: nat, passes: nat)
    requires LinksAllocated(idx.mem) && AllIn(sorted, idx.mem)
    modifies idx`mem
    ensures 1 <= passes <= 50 && (idx.mem, total) == Passes(old(idx.mem), idx.pow, sorted, passes)
    ensures passes < 50 ==> total == Passes(old(idx.mem), idx.pow, sorted, passes - 1).1
    ensures forall k :: 0 <= k < passes - 1 ==>
              Passes(old(idx.mem), idx.pow, sorted, k).1 < Passes(old(idx.mem), idx.pow, sorted, k + 1).1
  {
    hide PassTo, Passes, SameShape;
    ghost var m0 := idx.mem;
    total, passes := 0, 0;
    PassesStep(m0, idx.pow, sorted, 0);
    while passes < 50
      invariant passes <= 50 && (idx.mem, total) == Passes(m0, idx.pow, sorted, passes)
      invariant forall k :: 0 <= k < passes ==>
                  Passes(m0, idx.pow, sorted, k).1 < Passes(m0, idx.pow, sorted, k + 1).1
    {
      var propagated := Pass(idx, sorted);
      PassesStep(m0, idx.pow, sorted, passes);
      total := total + propagated;
      passes := passes + 1;
      if propagated == 0 {
        break;
      }
    }
  }

  /** Under the conditions of SecondPassIdle every further pass is idle: whenever the loop stops, it
      has counted what the first pass counted and left what the first pass left. */
  lemma {:induction false} PassesSettle(m: Memory, pow: Proof, s: seq<Ptr>, maxW: nat, maxP: nat, maxH: nat, n: nat)
    requires LinksAllocated(m) && AllIn(s, m) && Settles(m, pow, s, maxW, maxP, maxH) && n >= 1
    ensures Passes(m, pow, s, n) == PassTo(m, pow, s, |s|)
    decreases n
  {
    hide PassTo, Passes, Settles;
    PassesStep(m, pow, s, n - 1);
    if n == 1 {
    } else {
      PassesSettle(m, pow, s, maxW, maxP, maxH, n - 1);
      SettlesIdle(m, pow, s, maxW, maxP, maxH);
    }
  }

  ghost predicate Settles(m: Memory, pow: Proof, s: seq<Ptr>, maxW: nat, maxP: nat, maxH: nat) {
    && HeightConsistent(m) && HeightSorted(m, s) && WorkFits(m, pow, maxW, maxP, maxH)
    && forall b :: b in s && m[b].pprev != 0 ==> BaseTx(m, s, b) != 0 || !HasChild(m, s, |s|, b)
  }

  lemma SettlesIdle(m: Memory, pow: Proof, s: seq<Ptr>, maxW: nat, maxP: nat, maxH: nat)
    requires Settles(m, pow, s, maxW, maxP, maxH) && LinksAllocated(m) && AllIn(s, m)
    ensures var m' := PassTo(m, pow, s, |s|).0; AllIn(s, m') && PassTo(m', pow, s, |s|) == (m', 0)
  {
    hide PassTo;
    SecondPassIdle(m, pow, s, maxW, maxP, maxH);
  }

  lemma SameShapeRefl(m: Memory)
    ensures SameShape(m, m)
  {
  }

  lemma PassOneFrame(m: Memory, pow: Proof, b: Ptr, p: Ptr)
    requires LinksAllocated(m) && b in m && p in m && p != b && p != m[b].pprev
    ensures PassOne(m, pow, b).0[p] == m[p]
  {
  }

  /** m carries, on every entry that m0 roots in genesis, the record a recompute of m0 gives it.
      The rest may carry any count and any work. */
  ghost predicate Rerooted(m0: Memory, pow: Proof, es: set<Ptr>, g: Ptr, m: Memory) {
    && LinksAllocated(m0) && es <= m0.Keys && g in es
    && SameShape(Recomputed(m0, pow, es, g), m)
    && forall p :: p in es && Rooted(LinksOf(m0, es), g, p) ==> m[p] == Recomputed(m0, pow, es, g)[p]
  }

  /** Genesis has no parent to take work from, or has work of its own. */
  ghost predicate FirmGenesis(m0: Memory, pow: Proof, g: Ptr) {
    g in m0 && (m0[g].pprev == 0 || pow(m0[g].bits) != 0)
  }

  /** A rooted block whose recomputed count is zero although a listed child looks at it: the pass
      takes the zero for a missing count and forces another. */
  ghost predicate Starved(m0: Memory, pow: Proof, es: set<Ptr>, g: Ptr, s: seq<Ptr>, q: Ptr)
    requires es <= m0.Keys && 0 !in es && g in es
  {
    && q in es && Rooted(LinksOf(m0, es), g, q)
    && Recomputed(m0, pow, es, g)[q].chainTx == 0 && ForcedTx(Recomputed(m0, pow, es, g)[q]) != 0
    && exists i :: 0 <= i < |s| && s[i] != g && s[i] in m0 && m0[s[i]].pprev == q
  }

  /** What one turn does to a parent that has a count, or a zero nothing is forced onto. */
  lemma TurnKeepsParent(m: Memory, pow: Proof, b: Ptr)
    requires LinksAllocated(m) && b in m && m[b].pprev != b && m[b].pprev != 0
    requires m[m[b].pprev].chainTx != 0 ||
             (ForcedTx(m[m[b].pprev]) == 0 && ForcedWork(m, pow, m[b].pprev) == m[m[b].pprev].work)
    ensures PassOne(m, pow, b).0[m[b].pprev] == m[m[b].pprev]
  {
  }

  /** A block that follows from such a parent is left as it is. */
  lemma TurnKeepsBlock(m: Memory, pow: Proof, b: Ptr)
    requires LinksAllocated(m) && b in m && m[b].pprev != b && m[b].pprev != 0 && m[b].height != 0
    requires m[m[b].pprev].chainTx != 0 ||
             (ForcedTx(m[m[b].pprev]) == 0 && ForcedWork(m, pow, m[b].pprev) == m[m[b].pprev].work)
    requires m[b].chainTx == Add32(m[m[b].pprev].chainTx, TxOf(m[b]))
    requires m[b].work == Add256(m[m[b].pprev].work, pow(m[b].bits))
    ensures PassOne(m, pow, b).0[b] == m[b]
  {
    hide Add256;
  }

  /** The work a recomputed block follows from is the work that would be forced onto it. */
  lemma RecomputedForced(m0: Memory, pow: Proof, es: set<Ptr>, g: Ptr, m: Memory, q: Ptr)
    requires Rerooted(m0, pow, es, g, m) && q in es && Rooted(LinksOf(m0, es), g, q) && m[q].chainTx == 0
    ensures ForcedWork(m, pow, q) == m[q].work
  {
    hide Recomputed, Rooted;
    RecomputedShape(m0, pow, es, g);
    if q == g {
      GenesisLabels(m0, pow, es, g);
    } else {
      RecomputeStep(m0, pow, es, g, q);
      RecomputedHeight(m0, pow, es, g, q);
      var r := m0[q].pprev;
      assert m[q] == FromParent(m0[q], m[r], pow);
      assert OnlySums(Recomputed(m0, pow, es, g)[q], m[q]);
    }
  }

  /** The turn of genesis moves nothing. */
  lemma GenesisTurn(m0: Memory, pow: Proof, es: set<Ptr>, g: Ptr, m: Memory)
    requires Rerooted(m0, pow, es, g, m) && FirmGenesis(m0, pow, g)
    ensures PassOne(m, pow, g).0 == m
  {
    hide Recomputed, Rooted;
    GenesisLabels(m0, pow, es, g);
  }

  /** The turn of another rooted block moves no rooted block, unless its parent is starved. */
  lemma RootedTurn(m0: Memory, pow: Proof, es: set<Ptr>, g: Ptr, m: Memory, b: Ptr, p: Ptr)
    requires Rerooted(m0, pow, es, g, m) && b in es && b != g && Rooted(LinksOf(m0, es), g, b)
    requires LinksAllocated(m) && m[b].pprev in m
    requires m[m[b].pprev].chainTx != 0 || ForcedTx(m[m[b].pprev]) == 0
    requires p in es
    ensures PassOne(m, pow, b).0[p] == m[p]
  {
    hide Recomputed, Rooted, PassOne, ForcedTx, Add256, Add32;
    RecomputedShape(m0, pow, es, g);
    RecomputeStep(m0, pow, es, g, b);
    var q := m0[b].pprev;
    assert OnlySums(Recomputed(m0, pow, es, g)[b], m[b]);
    assert m[b] == FromParent(m0[b], m[q], pow);
    RecomputedHeight(m0, pow, es, g, q);
    if m[q].chainTx == 0 {
      RecomputedForced(m0, pow, es, g, m, q);
    }
    TurnKeepsParent(m, pow, b);
    TurnKeepsBlock(m, pow, b);
    if p != b && p != q {
      PassOneFrame(m, pow, b, p);
    }
  }

  lemma RecomputedHeight(m0: Memory, pow: Proof, es: set<Ptr>, g: Ptr, p: Ptr)
    requires 0 !in es && es <= m0.Keys && g in es && p in es && Rooted(LinksOf(m0, es), g, p)
    ensures Recomputed(m0, pow, es, g)[p].height >= 0
  {
  }

  /** One turn of a pass keeps the rooted records, whatever block it works on, as long as no
      starved parent is involved. */
  lemma PassOneKeepsRerooted(m0: Memory, pow: Proof, es: set<Ptr>, g: Ptr, m: Memory, s: seq<Ptr>, i: nat)
    requires Rerooted(m0, pow, es, g, m) && FirmGenesis(m0, pow, g) && LinksAllocated(m)
    requires i < |s| && s[i] in es && forall q :: !Starved(m0, pow, es, g, s, q)
    ensures Rerooted(m0, pow, es, g, PassOne(m, pow, s[i]).0)
  {
    hide PassOne, Recomputed, Rooted;
    var b := s[i];
    RecomputedShape(m0, pow, es, g);
    var m' := PassOne(m, pow, b).0;
    SameShapeTrans(Recomputed(m0, pow, es, g), m, m');
    if b == g {
      GenesisTurn(m0, pow, es, g, m);
    } else {
      assert OnlySums(Recomputed(m0, pow, es, g)[b], m[b]);
      forall p | p in es && Rooted(LinksOf(m0, es), g, p) ensures m'[p] == m[p] {
        if Rooted(LinksOf(m0, es), g, b) {
          RecomputeStep(m0, pow, es, g, b);
          assert !Starved(m0, pow, es, g, s, m0[b].pprev);
          RootedTurn(m0, pow, es, g, m, b, p);
        } else {
          if p == m0[b].pprev {
            RootedChild(m0, es, g, b);
          }
          PassOneFrame(m, pow, b, p);
        }
      }
    }
  }

  lemma {:induction false} PassKeepsRerooted(m0: Memory, pow: Proof, es: set<Ptr>, g: Ptr, m: Memory, s: seq<Ptr>, n: nat)
    requires Rerooted(m0, pow, es, g, m) && FirmGenesis(m0, pow, g) && LinksAllocated(m) && AllIn(s, m) && n <= |s|
    requires Elems(s) <= es && forall q :: !Starved(m0, pow, es, g, s, q)
    ensures Rerooted(m0, pow, es, g, PassTo(m, pow, s, n).0)
    decreases n
  {
    hide PassTo, PassOne, Rerooted, SameShape, Starved;
    if n == 0 {
      PassToStart(m, pow, s);
    } else {
      PassKeepsRerooted(m0, pow, es, g, m, s, n - 1);
      PassToStep(m, pow, s, n - 1);
      assert s[n - 1] in Elems(s);
      assert AllIn(s, PassTo(m, pow, s, n - 1).0) by { ShapeAllIn(m, PassTo(m, pow, s, n - 1).0, s); }
      PassOneKeepsRerooted(m0, pow, es, g, PassTo(m, pow, s, n - 1).0, s, n - 1);
    }
  }

  lemma ShapeAllIn(m: Memory, m': Memory, s: seq<Ptr>)
    requires SameShape(m, m') && AllIn(s, m)
    ensures AllIn(s, m')
  {
  }

  /** A child of a rooted entry is rooted. */
  lemma RootedChild(m: Memory, es: set<Ptr>, g: Ptr, b: Ptr)
    requires es <= m.Keys && g in es && b in es && m[b].pprev in es && Rooted(LinksOf(m, es), g, m[b].pprev)
    ensures Rooted(LinksOf(m, es), g, b)
  {
    var l := LinksOf(m, es);
    if b == g {
      assert Iter(l, g, b, 0) == g;
    } else {
      var k: nat :| Iter(l, g, m[b].pprev, k) == g;
      assert Up(l, g, b) == m[b].pprev;
      assert Iter(l, g, b, k + 1) == g;
    }
  }

  lemma RecomputedShape(m: Memory, pow: Proof, es: set<Ptr>, g: Ptr)
    requires LinksAllocated(m) && es <= m.Keys && g in es
    ensures var m1 := Recomputed(m, pow, es, g);
            LinksAllocated(m1) && m1.Keys == m.Keys && forall p :: p in m ==> m1[p].pprev == m[p].pprev
  {
  }

  /** A recompute leaves its own records. */
  lemma RecomputedRerooted(m: Memory, pow: Proof, es: set<Ptr>, g: Ptr)
    requires LinksAllocated(m) && es <= m.Keys && g in es
    ensures Rerooted(m, pow, es, g, Recomputed(m, pow, es, g))
  {
    SameShapeRefl(Recomputed(m, pow, es, g));
  }

  /** In the list, q comes before its children. */
  lemma ChildrenLater(m: Memory, s: seq<Ptr>, q: Ptr, i: nat, j: nat)
    requires HeightSorted(m, s) && i < |s| && j < |s| && s[i] == q && q in m
    requires m[s[j]].height == m[q].height + 1
    ensures i < j
  {
  }

  /** One turn on a starved block: a child's turn leaves it with a count, and only its own turn could
      take that away again. */
  lemma StarvedTurn(r: Memory, m: Memory, pow: Proof, g: Ptr, b: Ptr, q: Ptr)
    requires SameShape(r, m) && LinksAllocated(m) && b in m && q in m && b != q && ForcedTx(r[q]) != 0
    requires b != g && m[b].pprev == q ==> m[b].height != 0
    requires b == g ==> m[b].height == 0
    ensures var m' := PassOne(m, pow, b).0;
            (m[q].chainTx != 0 || (b != g && m[b].pprev == q)) ==> m'[q].chainTx != 0
  {
    hide PassOne, Add32;
    assert OnlySums(r[q], m[q]);
    TurnCounts(m, pow, b, q);
  }

  /** What a turn does to the count of another block. */
  lemma TurnCounts(m: Memory, pow: Proof, b: Ptr, q: Ptr)
    requires LinksAllocated(m) && b in m && q in m && b != q
    ensures PassOne(m, pow, b).0[q].chainTx ==
              if m[b].pprev == q && m[b].height != 0 && m[q].chainTx == 0 then ForcedTx(m[q]) else m[q].chainTx
  {
    hide Add32, Add256, ForcedTx, ForcedWork, TxOf;
  }

  /** After a child of the starved block q among the first n has been passed, q has a count. */
  lemma {:induction false} StarvedForced(m0: Memory, pow: Proof, es: set<Ptr>, g: Ptr, m: Memory, s: seq<Ptr>, q: Ptr, n: nat)
    requires LinksAllocated(m0) && es <= m0.Keys && g in es && LinksAllocated(m) && AllIn(s, m) && n <= |s|
    requires SameShape(Recomputed(m0, pow, es, g), m) && HeightSorted(m, s) && Elems(s) <= es
    requires Starved(m0, pow, es, g, s, q)
    ensures (exists j :: 0 <= j < n && s[j] != g && m0[s[j]].pprev == q) ==> PassTo(m, pow, s, n).0[q].chainTx != 0
    decreases n
  {
    hide PassTo, PassOne, Recomputed, Starved, SameShape, HeightSorted;
    if n == 0 {
      PassToStart(m, pow, s);
    } else if j :| 0 <= j < n && s[j] != g && m0[s[j]].pprev == q {
      var m1 := PassTo(m, pow, s, n - 1).0;
      StarvedForced(m0, pow, es, g, m, s, q, n - 1);
      PassToStep(m, pow, s, n - 1);
      SameShapeTrans(Recomputed(m0, pow, es, g), m, m1);
      ShapeSorted(m, m1, s);
      StarvedStep(m0, pow, es, g, m1, s, q, n - 1, j);
    }
  }

  lemma StarvedStep(m0: Memory, pow: Proof, es: set<Ptr>, g: Ptr, m: Memory, s: seq<Ptr>, q: Ptr, n: nat, j: nat)
    requires LinksAllocated(m0) && es <= m0.Keys && g in es && LinksAllocated(m) && n < |s|
    requires SameShape(Recomputed(m0, pow, es, g), m) && HeightSorted(m, s) && Elems(s) <= es
    requires Starved(m0, pow, es, g, s, q) && j <= n && s[j] in m0 && s[j] != g && m0[s[j]].pprev == q
    requires j < n ==> m[q].chainTx != 0
    ensures PassOne(m, pow, s[n]).0[q].chainTx != 0
  {
    hide PassOne, Recomputed, Rooted;
    var r := Recomputed(m0, pow, es, g);
    var b: Ptr := s[n];
    RecomputedShape(m0, pow, es, g);
    GenesisLabels(m0, pow, es, g);
    StarvedNotGenesis(m0, pow, es, g, s, q);
    StarvedChild(m0, pow, es, g, m, s, q, j);
    assert b != q by {
      if b == q {
        ChildrenLater(m, s, q, n, j);
      }
    }
    assert OnlySums(r[b], m[b]) && OnlySums(r[g], m[g]);
    assert b in Elems(s);
    if b != g && m0[b].pprev == q {
      StarvedChild(m0, pow, es, g, m, s, q, n);
    }
    StarvedTurn(r, m, pow, g, b, q);
  }

  lemma StarvedNotGenesis(m0: Memory, pow: Proof, es: set<Ptr>, g: Ptr, s: seq<Ptr>, q: Ptr)
    requires es <= m0.Keys && 0 !in es && g in es && Starved(m0, pow, es, g, s, q)
    ensures q != g
  {
    hide Recomputed, Rooted;
    GenesisLabels(m0, pow, es, g);
  }

  /** A listed child of a starved block is rooted one above it. */
  lemma StarvedChild(m0: Memory, pow: Proof, es: set<Ptr>, g: Ptr, m: Memory, s: seq<Ptr>, q: Ptr, j: nat)
    requires LinksAllocated(m0) && es <= m0.Keys && g in es && Elems(s) <= es && Starved(m0, pow, es, g, s, q)
    requires SameShape(Recomputed(m0, pow, es, g), m) && j < |s| && s[j] in m0 && s[j] != g && m0[s[j]].pprev == q
    ensures s[j] in m && q in m && m[s[j]].height == m[q].height + 1 && m[s[j]].height > 0
  {
    hide Recomputed, Rooted;
    var c := s[j];
    assert c in Elems(s);
    RecomputedShape(m0, pow, es, g);
    RootedChild(m0, es, g, c);
    RecomputeStep(m0, pow, es, g, c);
    RecomputedHeight(m0, pow, es, g, q);
    assert OnlySums(Recomputed(m0, pow, es, g)[c], m[c]) && OnlySums(Recomputed(m0, pow, es, g)[q], m[q]);
  }

  /** The exact condition: after a genesis recompute any number of passes leaves every rooted block as
      it was if and only if none is starved. */
  lemma {:induction false} PassesKeepRerooted(m0: Memory, pow: Proof, es: set<Ptr>, g: Ptr, s: seq<Ptr>, n: nat)
    requires LinksAllocated(m0) && es <= m0.Keys && g in es && FirmGenesis(m0, pow, g) && n >= 1
    requires HeightSorted(Recomputed(m0, pow, es, g), s) && Elems(s) <= es
    ensures LinksAllocated(Recomputed(m0, pow, es, g))
    ensures Rerooted(m0, pow, es, g, Passes(Recomputed(m0, pow, es, g), pow, s, n).0) <==>
              forall q :: !Starved(m0, pow, es, g, s, q)
  {
    hide PassTo, Passes, Rerooted, SameShape, Starved, Recomputed, HeightSorted;
    var r := Recomputed(m0, pow, es, g);
    RecomputedShape(m0, pow, es, g);
    if q :| Starved(m0, pow, es, g, s, q) {
      PassesStarve(m0, pow, es, g, s, q, n);
    } else {
      RecomputedRerooted(m0, pow, es, g);
      PassesKeep(m0, pow, es, g, s, n);
    }
  }

  lemma {:induction false} PassesKeep(m0: Memory, pow: Proof, es: set<Ptr>, g: Ptr, s: seq<Ptr>, n: nat)
    requires LinksAllocated(m0) && es <= m0.Keys && g in es && FirmGenesis(m0, pow, g)
    requires AllIn(s, Recomputed(m0, pow, es, g)) && LinksAllocated(Recomputed(m0, pow, es, g)) && Elems(s) <= es
    requires forall q :: !Starved(m0, pow, es, g, s, q)
    ensures Rerooted(m0, pow, es, g, Passes(Recomputed(m0, pow, es, g), pow, s, n).0)
    decreases n
  {
    hide PassTo, Passes, Rerooted, SameShape, Starved, Recomputed;
    var r := Recomputed(m0, pow, es, g);
    PassesStep(r, pow, s, if n > 0 then n - 1 else 0);
    if n == 0 {
      RecomputedRerooted(m0, pow, es, g);
    } else {
      PassesKeep(m0, pow, es, g, s, n - 1);
      PassKeepsRerooted(m0, pow, es, g, Passes(r, pow, s, n - 1).0, s, |s|);
    }
  }

  lemma PassesStarve(m0: Memory, pow: Proof, es: set<Ptr>, g: Ptr, s: seq<Ptr>, q: Ptr, n: nat)
    requires LinksAllocated(m0) && es <= m0.Keys && g in es && Elems(s) <= es && n >= 1
    requires LinksAllocated(Recomputed(m0, pow, es, g)) && HeightSorted(Recomputed(m0, pow, es, g), s)
    requires Starved(m0, pow, es, g, s, q)
    ensures !Rerooted(m0, pow, es, g, Passes(Recomputed(m0, pow, es, g), pow, s, n).0)
  {
    hide PassTo, Passes, Recomputed, Rooted;
    var r := Recomputed(m0, pow, es, g);
    var m := Passes(r, pow, s, n - 1).0;
    PassesStep(r, pow, s, n - 1);
    ShapeSorted(r, m, s);
    StarvedForced(m0, pow, es, g, m, s, q, |s|);
    var i :| 0 <= i < |s| && s[i] != g && s[i] in m0 && m0[s[i]].pprev == q;
  }

  lemma ShapeSorted(m: Memory, m': Memory, s: seq<Ptr>)
    requires SameShape(m, m') && HeightSorted(m, s)
    ensures HeightSorted(m', s)
  {
    forall i | 0 <= i < |s| ensures s[i] in m' && m'[s[i]].height == m[s[i]].height {
      assert OnlySums(m[s[i]], m'[s[i]]);
    }
  }

  /** m carries the recomputed work on every entry that m0 roots in genesis, and any counts. */
  ghost predicate WorkRerooted(m0: Memory, pow: Proof, es: set<Ptr>, g: Ptr, m: Memory) {
    && LinksAllocated(m0) && es <= m0.Keys && g in es
    && SameShape(Recomputed(m0, pow, es, g), m)
    && forall p :: p in es && Rooted(LinksOf(m0, es), g, p) ==> m[p].work == Recomputed(m0, pow, es, g)[p].work
  }

  /** A turn moves no work when the parent has the work that would be forced onto it and the block
      follows from it. */
  lemma TurnKeepsWork(m: Memory, pow: Proof, b: Ptr, p: Ptr)
    requires LinksAllocated(m) && b in m && m[b].pprev != b && m[b].pprev != 0 && m[b].height != 0 && p in m
    requires ForcedWork(m, pow, m[b].pprev) == m[m[b].pprev].work
    requires m[b].work == Add256(m[m[b].pprev].work, pow(m[b].bits))
    ensures PassOne(m, pow, b).0[p].work == m[p].work
  {
    hide PassOne, Add256, ForcedWork;
    PassOneWork(m, pow, b);
  }

  lemma GenesisTurnWork(m0: Memory, pow: Proof, es: set<Ptr>, g: Ptr, m: Memory, p: Ptr)
    requires WorkRerooted(m0, pow, es, g, m) && FirmGenesis(m0, pow, g) && LinksAllocated(m) && p in m
    ensures PassOne(m, pow, g).0[p].work == m[p].work
  {
    hide Recomputed, Rooted;
    RecomputedShape(m0, pow, es, g);
    GenesisLabels(m0, pow, es, g);
    assert OnlySums(Recomputed(m0, pow, es, g)[g], m[g]);
  }

  /** Each rooted entry other than genesis follows from its parent's work. */
  lemma WorkFollows(m0: Memory, pow: Proof, es: set<Ptr>, g: Ptr, m: Memory, b: Ptr)
    requires WorkRerooted(m0, pow, es, g, m) && LinksAllocated(m) && b in es && b != g && Rooted(LinksOf(m0, es), g, b)
    ensures b in m && m[b].pprev in es && m[b].pprev != 0 && m[b].pprev != b && m[b].height != 0
    ensures m[b].pprev in m && Rooted(LinksOf(m0, es), g, m[b].pprev)
    ensures m[b].work == Add256(m[m[b].pprev].work, pow(m[b].bits))
  {
    hide Recomputed, Rooted, Add256, Add32;
    RecomputedShape(m0, pow, es, g);
    RecomputeStep(m0, pow, es, g, b);
    var q := m0[b].pprev;
    RecomputedHeight(m0, pow, es, g, q);
    assert OnlySums(Recomputed(m0, pow, es, g)[b], m[b]) && OnlySums(Recomputed(m0, pow, es, g)[q], m[q]);
  }

  /** The work of a rooted entry is the work that would be forced onto it. */
  lemma WorkForced(m0: Memory, pow: Proof, es: set<Ptr>, g: Ptr, m: Memory, q: Ptr)
    requires WorkRerooted(m0, pow, es, g, m) && FirmGenesis(m0, pow, g) && LinksAllocated(m)
    requires q in es && Rooted(LinksOf(m0, es), g, q)
    ensures q in m && ForcedWork(m, pow, q) == m[q].work
  {
    hide Recomputed, Rooted;
    RecomputedShape(m0, pow, es, g);
    assert OnlySums(Recomputed(m0, pow, es, g)[q], m[q]);
    if q == g {
      GenesisLabels(m0, pow, es, g);
    } else {
      WorkFollows(m0, pow, es, g, m, q);
    }
  }

  lemma PassOneKeepsWork(m0: Memory, pow: Proof, es: set<Ptr>, g: Ptr, m: Memory, b: Ptr)
    requires WorkRerooted(m0, pow, es, g, m) && FirmGenesis(m0, pow, g) && LinksAllocated(m) && b in es && b in m
    ensures WorkRerooted(m0, pow, es, g, PassOne(m, pow, b).0)
  {
    hide PassOne, Recomputed, Rooted, ForcedWork, Add256;
    RecomputedShape(m0, pow, es, g);
    var m' := PassOne(m, pow, b).0;
    SameShapeTrans(Recomputed(m0, pow, es, g), m, m');
    forall p | p in es && Rooted(LinksOf(m0, es), g, p) ensures p in m && m'[p].work == m[p].work {
      if b == g {
        GenesisTurnWork(m0, pow, es, g, m, p);
      } else if Rooted(LinksOf(m0, es), g, b) {
        WorkFollows(m0, pow, es, g, m, b);
        WorkForced(m0, pow, es, g, m, m[b].pprev);
        TurnKeepsWork(m, pow, b, p);
      } else {
        assert OnlySums(Recomputed(m0, pow, es, g)[b], m[b]);
        if p == m0[b].pprev {
          RootedChild(m0, es, g, b);
        }
        PassOneFrame(m, pow, b, p);
      }
    }
  }

  lemma {:induction false} PassKeepsWork(m0: Memory, pow: Proof, es: set<Ptr>, g: Ptr, m: Memory, s: seq<Ptr>, n: nat)
    requires WorkRerooted(m0, pow, es, g, m) && FirmGenesis(m0, pow, g) && LinksAllocated(m) && AllIn(s, m) && n <= |s|
    requires Elems(s) <= es
    ensures WorkRerooted(m0, pow, es, g, PassTo(m, pow, s, n).0)
    decreases n
  {
    hide PassTo, PassOne, WorkRerooted, SameShape;
    if n == 0 {
      PassToStart(m, pow, s);
    } else {
      PassKeepsWork(m0, pow, es, g, m, s, n - 1);
      PassToStep(m, pow, s, n - 1);
      assert s[n - 1] in Elems(s);
      assert AllIn(s, PassTo(m, pow, s, n - 1).0) by { ShapeAllIn(m, PassTo(m, pow, s, n - 1).0, s); }
      PassOneKeepsWork(m0, pow, es, g, PassTo(m, pow, s, n - 1).0, s[n - 1]);
    }
  }

  /** Run after a genesis recompute, any number of passes leaves every rooted block its height and its
      work, whether or not a count wraps. */
  lemma {:induction false} PassesKeepWork(m0: Memory, pow: Proof, es: set<Ptr>, g: Ptr, s: seq<Ptr>, n: nat)
    requires LinksAllocated(m0) && es <= m0.Keys && g in es && FirmGenesis(m0, pow, g)
    requires AllIn(s, Recomputed(m0, pow, es, g)) && LinksAllocated(Recomputed(m0, pow, es, g)) && Elems(s) <= es
    ensures WorkRerooted(m0, pow, es, g, Passes(Recomputed(m0, pow, es, g), pow, s, n).0)
    decreases n
  {
    hide PassTo, Passes, Rerooted, WorkRerooted, SameShape, Recomputed;
    var r := Recomputed(m0, pow, es, g);
    PassesStep(r, pow, s, if n > 0 then n - 1 else 0);
    if n == 0 {
      RecomputedRerooted(m0, pow, es, g);
      RerootedWork(m0, pow, es, g, r);
    } else {
      PassesKeepWork(m0, pow, es, g, s, n - 1);
      PassKeepsWork(m0, pow, es, g, Passes(r, pow, s, n - 1).0, s, |s|);
    }
  }

  lemma RerootedWork(m0: Memory, pow: Proof, es: set<Ptr>, g: Ptr, m: Memory)
    requires Rerooted(m0, pow, es, g, m)
    ensures WorkRerooted(m0, pow, es, g, m)
  {
    hide Recomputed, Rooted;
  }
}
