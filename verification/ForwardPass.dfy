/** The chain-work pass run when the index is imported from zclassicd: one loop over the
    entries sorted by height recomputes work and transaction counts from the parents and
    picks the tip with the most work. */
module ForwardPass {
  import opened Ancestry
  import opened BlockIndexModel
  import opened Common
  import opened GenesisRecompute
  import opened Propagation

  /** The record a block gets from its parent's record, if it has a parent. */
  function ForwardNode(n: Node, prev: Option<Node>, pow: Proof): Node {
    var work := if prev.Some? then Add256(prev.value.work, pow(n.bits)) else pow(n.bits);
    var chainTx :=
      if n.nTx == 0 then n.chainTx
      else if prev.None? then n.nTx
      else if prev.value.chainTx > 0 then Add32(prev.value.chainTx, n.nTx)
      else n.chainTx;
    n.(work := work, chainTx := chainTx)
  }

  function ParentRecord(m: Memory, b: Ptr): Option<Node>
    requires LinksAllocated(m) && b in m
  {
    if m[b].pprev != 0 then Some(m[m[b].pprev]) else None
  }

  function ForwardOne(m: Memory, pow: Proof, b: Ptr): (m': Memory)
    requires LinksAllocated(m) && b in m
    ensures SameShape(m, m') && LinksAllocated(m')
  {
    m[b := ForwardNode(m[b], ParentRecord(m, b), pow)]
  }

  /** The pass over the first n blocks, as a value. */
  function ForwardTo(m: Memory, pow: Proof, s: seq<Ptr>, n: nat): (m': Memory)
    requires LinksAllocated(m) && AllIn(s, m) && n <= |s|
    ensures SameShape(m, m') && LinksAllocated(m')
    decreases n
  {
    if n == 0 then m
    else
      var m1 := ForwardTo(m, pow, s, n - 1);
      var m2 := ForwardOne(m1, pow, s[n - 1]);
      SameShapeTrans(m, m1, m2);
      m2
  }

  /** A candidate for the tip: connected transactions, data on disk, not failed. */
  predicate Eligible(n: Node) {
    n.chainTx > 0 && n.haveData && !n.failed
  }

  /** Blocks are listed once each and after their parents. Any height order of an index whose
      children are higher than their parents is such a list. */
  ghost predicate ParentsFirst(m: Memory, s: seq<Ptr>) {
    && AllIn(s, m) && NoDup(s)
    && forall i, j :: 0 <= i < |s| && 0 <= j < |s| && m[s[i]].pprev == s[j] ==> j < i
  }

  lemma HeightOrderIsParentsFirst(m: Memory, s: seq<Ptr>)
    requires HeightConsistent(m) && HeightSorted(m, s)
    ensures ParentsFirst(m, s)
  {
  }

  lemma {:induction false} Untouched(m: Memory, pow: Proof, s: seq<Ptr>, n: nat, p: Ptr)
    requires LinksAllocated(m) && AllIn(s, m) && n <= |s| && p in m
    requires forall i :: 0 <= i < n ==> s[i] != p
    ensures ForwardTo(m, pow, s, n)[p] == m[p]
    decreases n
  {
    hide ForwardTo, ForwardNode;
    if n > 0 {
      Untouched(m, pow, s, n - 1, p);
      ForwardStep(m, pow, s, n - 1);
    } else {
      ForwardStart(m, pow, s);
    }
  }

  /** A block's record is final as soon as it has been passed. */
  lemma {:induction false} Final(m: Memory, pow: Proof, s: seq<Ptr>, i: nat, n: nat)
    requires LinksAllocated(m) && AllIn(s, m) && NoDup(s) && i < n <= |s|
    ensures ForwardTo(m, pow, s, n)[s[i]] == ForwardTo(m, pow, s, i + 1)[s[i]]
    decreases n
  {
    hide ForwardTo, ForwardNode, SameShape;
    if n == i + 1 {
    } else {
      Final(m, pow, s, i, n - 1);
      ForwardStep(m, pow, s, n - 1);
      assert s[n - 1] != s[i];
    }
  }

  /** After the pass every listed block follows from its parent's final record. */
  lemma ForwardEquation(m: Memory, pow: Proof, s: seq<Ptr>, i: nat)
    requires LinksAllocated(m) && ParentsFirst(m, s) && i < |s|
    ensures var m' := ForwardTo(m, pow, s, |s|);
            m'[s[i]] == ForwardNode(m[s[i]], ParentRecord(m', s[i]), pow)
  {
    hide ForwardNode, ForwardTo;
    var b := s[i];
    var q := m[b].pprev;
    var m1 := ForwardTo(m, pow, s, i);
    assert ForwardTo(m, pow, s, i + 1) == ForwardOne(m1, pow, b) by { ForwardStep(m, pow, s, i); }
    Final(m, pow, s, i, |s|);
    Untouched(m, pow, s, i, b);
    assert OnlySums(m[b], ForwardTo(m, pow, s, |s|)[b]);
    if q != 0 {
      if q in s {
        var j :| 0 <= j < |s| && s[j] == q;
        Final(m, pow, s, j, i);
        Final(m, pow, s, j, |s|);
      } else {
        Untouched(m, pow, s, i, q);
        Untouched(m, pow, s, |s|, q);
      }
    }
  }

  lemma ForwardStep(m: Memory, pow: Proof, s: seq<Ptr>, i: nat)
    requires LinksAllocated(m) && AllIn(s, m) && i < |s|
    ensures ForwardTo(m, pow, s, i + 1) == ForwardOne(ForwardTo(m, pow, s, i), pow, s[i])
  {
    hide ForwardOne;
  }

  /** The record p has after the first n blocks, by way of its ancestors alone: a listed block follows
      from its parent as that was when the block was passed, any other is as it was. */
  ghost function Carried(m: Memory, pow: Proof, s: seq<Ptr>, n: nat, p: Ptr): Node
    requires LinksAllocated(m) && AllIn(s, m) && n <= |s| && p in m
    decreases n
  {
    if n == 0 then m[p]
    else if s[n - 1] == p then
      ForwardNode(m[p], if m[p].pprev == 0 then None else Some(Carried(m, pow, s, n - 1, m[p].pprev)), pow)
    else Carried(m, pow, s, n - 1, p)
  }

  lemma {:induction false} CarriedIs(m: Memory, pow: Proof, s: seq<Ptr>, n: nat, p: Ptr)
    requires LinksAllocated(m) && AllIn(s, m) && NoDup(s) && n <= |s| && p in m
    ensures ForwardTo(m, pow, s, n)[p] == Carried(m, pow, s, n, p)
    decreases n
  {
    hide ForwardTo, ForwardNode, SameShape, NoDup;
    if n == 0 {
      ForwardStart(m, pow, s);
    } else {
      ForwardStep(m, pow, s, n - 1);
      if s[n - 1] == p {
        assert forall i :: 0 <= i < n - 1 ==> s[i] != p by { Distinct(s, n - 1); }
        Untouched(m, pow, s, n - 1, p);
        if m[p].pprev != 0 {
          CarriedIs(m, pow, s, n - 1, m[p].pprev);
        }
      } else {
        CarriedIs(m, pow, s, n - 1, p);
      }
    }
  }

  lemma Distinct(s: seq<Ptr>, n: nat)
    requires NoDup(s) && n < |s|
    ensures forall i :: 0 <= i < n ==> s[i] != s[n]
  {
  }

  /** What genesis inherits: nothing, unless its entry has a parent. */
  ghost function Inherited(m: Memory, pow: Proof, s: seq<Ptr>, g: Ptr): Option<Node>
    requires LinksAllocated(m) && AllIn(s, m) && g in m
  {
    if m[g].pprev == 0 then None else Some(Carried(m, pow, s, |s|, m[g].pprev))
  }

  ghost function InheritedWork(m: Memory, pow: Proof, s: seq<Ptr>, g: Ptr): Work
    requires LinksAllocated(m) && AllIn(s, m) && g in m
  {
    var n := Inherited(m, pow, s, g);
    if n.Some? then n.value.work else 0
  }

  lemma ForwardGenesis(m: Memory, pow: Proof, s: seq<Ptr>, g: Ptr)
    requires LinksAllocated(m) && ParentsFirst(m, s) && g in s
    ensures ForwardTo(m, pow, s, |s|)[g] == ForwardNode(m[g], Inherited(m, pow, s, g), pow)
  {
    hide ForwardTo, ForwardNode;
    var i :| 0 <= i < |s| && s[i] == g;
    ForwardEquation(m, pow, s, i);
    assert OnlySums(m[g], ForwardTo(m, pow, s, |s|)[g]);
    if m[g].pprev != 0 {
      CarriedIs(m, pow, s, |s|, m[g].pprev);
    }
  }

  lemma AddAssoc(a: Work, b: Work, c: Work)
    ensures Add256(Add256(a, b), c) == Add256(a, Add256(b, c))
  {
  }

  /** One forward pass gives every rooted block the work a genesis recompute gives it, on top of what
      genesis inherits. */
  lemma {:induction false} ForwardWorkAt(m: Memory, pow: Proof, s: seq<Ptr>, g: Ptr, p: Ptr, k: nat)
    requires LinksAllocated(m) && ParentsFirst(m, s) && g in s && p in s
    requires Iter(LinksOf(m, Elems(s)), g, p, k) == g
    ensures ForwardTo(m, pow, s, |s|)[p].work ==
              Add256(InheritedWork(m, pow, s, g), WorkSum(m, pow, LinksOf(m, Elems(s)), g, p, k))
    decreases k
  {
    hide ForwardTo, Add256, Inherited;
    var l := LinksOf(m, Elems(s));
    var i :| 0 <= i < |s| && s[i] == p;
    ForwardEquation(m, pow, s, i);
    assert OnlySums(m[p], ForwardTo(m, pow, s, |s|)[p]);
    if k == 0 {
      ForwardGenesis(m, pow, s, g);
      AddNothing(pow(m[g].bits), 0);
    } else {
      Chained(l, g, p, k);
      ForwardWorkAt(m, pow, s, g, l[p], k - 1);
      AddAssoc(InheritedWork(m, pow, s, g), WorkSum(m, pow, l, g, l[p], k - 1), pow(m[p].bits));
    }
  }

  lemma AddNothing(w: Work, a: Work)
    ensures Add256(a, w) == w <==> a == 0
  {
  }

  /** Every rooted block has the recomputed work after the pass. */
  ghost predicate AllWorked(m: Memory, pow: Proof, s: seq<Ptr>, g: Ptr)
    requires LinksAllocated(m) && AllIn(s, m) && g in s
  {
    forall p, k: nat :: p in s && Iter(LinksOf(m, Elems(s)), g, p, k) == g ==>
      ForwardTo(m, pow, s, |s|)[p].work == WorkSum(m, pow, LinksOf(m, Elems(s)), g, p, k)
  }

  /** The work of one forward pass is the recomputed one on every rooted block if and only if genesis
      inherits none. */
  lemma ForwardWorkIsRecomputedWork(m: Memory, pow: Proof, s: seq<Ptr>, g: Ptr)
    requires LinksAllocated(m) && ParentsFirst(m, s) && g in s
    ensures AllWorked(m, pow, s, g) <==> InheritedWork(m, pow, s, g) == 0
  {
    hide ForwardTo, Add256, ParentsFirst, InheritedWork, WorkSum;
    assert AllIn(s, m) by { ListedIn(m, s); }
    var l := LinksOf(m, Elems(s));
    forall p, k: nat | p in s && Iter(l, g, p, k) == g
      ensures ForwardTo(m, pow, s, |s|)[p].work == WorkSum(m, pow, l, g, p, k) <==> InheritedWork(m, pow, s, g) == 0
    {
      ForwardWorkAt(m, pow, s, g, p, k);
      AddNothing(WorkSum(m, pow, l, g, p, k), InheritedWork(m, pow, s, g));
    }
    assert Iter(l, g, g, 0) == g;
  }

  /** What the count of p before the pass must be for the pass to give it the recomputed one: a block
      without a transaction count keeps what it has, genesis takes its own transactions or adds them
      to what it inherits, and a block whose parent's count is zero keeps what it has too. */
  ghost predicate Tallies(m: Memory, pow: Proof, s: seq<Ptr>, g: Ptr, p: Ptr, k: nat)
    requires LinksAllocated(m) && AllIn(s, m) && g in s && p in s && Iter(LinksOf(m, Elems(s)), g, p, k) == g
  {
    var l := LinksOf(m, Elems(s));
    if m[p].nTx == 0 then m[p].chainTx == TxSum(m, l, g, p, k)
    else if k == 0 then
      var n := Inherited(m, pow, s, g);
      TxSum(m, l, g, p, k) ==
        if n.None? then m[p].nTx else if n.value.chainTx > 0 then Add32(n.value.chainTx, m[p].nTx) else m[p].chainTx
    else
      Chained(l, g, p, k);
      TxSum(m, l, g, Up(l, g, p), k - 1) != 0 || m[p].chainTx == TxSum(m, l, g, p, k)
  }

  ghost predicate ParentCounted(m: Memory, pow: Proof, s: seq<Ptr>, g: Ptr, p: Ptr, k: nat)
    requires LinksAllocated(m) && AllIn(s, m) && g in s && p in s && Iter(LinksOf(m, Elems(s)), g, p, k) == g
  {
    var l := LinksOf(m, Elems(s));
    if k == 0 then true
    else Chained(l, g, p, k); ForwardTo(m, pow, s, |s|)[l[p]].chainTx == TxSum(m, l, g, l[p], k - 1)
  }

  /** A block under a parent with the recomputed count gets its own exactly when it tallies. */
  lemma TalliesExact(m: Memory, pow: Proof, s: seq<Ptr>, g: Ptr, p: Ptr, k: nat)
    requires LinksAllocated(m) && ParentsFirst(m, s) && g in s && p in s
    requires Iter(LinksOf(m, Elems(s)), g, p, k) == g
    requires ParentCounted(m, pow, s, g, p, k)
    ensures ForwardTo(m, pow, s, |s|)[p].chainTx == TxSum(m, LinksOf(m, Elems(s)), g, p, k) <==>
              Tallies(m, pow, s, g, p, k)
  {
    hide ForwardTo, Add256, Inherited;
    var l := LinksOf(m, Elems(s));
    var i :| 0 <= i < |s| && s[i] == p;
    ForwardEquation(m, pow, s, i);
    assert OnlySums(m[p], ForwardTo(m, pow, s, |s|)[p]);
    if k == 0 {
      ForwardGenesis(m, pow, s, g);
    } else {
      Chained(l, g, p, k);
    }
  }

  /** Every rooted block tallies. */
  ghost predicate AllTally(m: Memory, pow: Proof, s: seq<Ptr>, g: Ptr)
    requires LinksAllocated(m) && AllIn(s, m) && g in s
  {
    forall p, k: nat :: p in s && Iter(LinksOf(m, Elems(s)), g, p, k) == g ==> Tallies(m, pow, s, g, p, k)
  }

  /** The block at distance k has the recomputed count after the pass. */
  ghost predicate Counted(m: Memory, pow: Proof, s: seq<Ptr>, g: Ptr, p: Ptr, k: nat)
    requires LinksAllocated(m) && AllIn(s, m) && g in s && p in s && Iter(LinksOf(m, Elems(s)), g, p, k) == g
  {
    ForwardTo(m, pow, s, |s|)[p].chainTx == TxSum(m, LinksOf(m, Elems(s)), g, p, k)
  }

  ghost predicate AllCounted(m: Memory, pow: Proof, s: seq<Ptr>, g: Ptr)
    requires LinksAllocated(m) && AllIn(s, m) && g in s
  {
    forall p, k: nat :: p in s && Iter(LinksOf(m, Elems(s)), g, p, k) == g ==> Counted(m, pow, s, g, p, k)
  }

  lemma {:induction false} TalliesCount(m: Memory, pow: Proof, s: seq<Ptr>, g: Ptr, p: Ptr, k: nat)
    requires LinksAllocated(m) && ParentsFirst(m, s) && g in s && p in s
    requires Iter(LinksOf(m, Elems(s)), g, p, k) == g && AllTally(m, pow, s, g)
    ensures Counted(m, pow, s, g, p, k)
    decreases k
  {
    hide ForwardTo, Tallies, TxSum;
    if k == 0 {
    } else {
      Chained(LinksOf(m, Elems(s)), g, p, k);
      TalliesCount(m, pow, s, g, LinksOf(m, Elems(s))[p], k - 1);
    }
    TalliesExact(m, pow, s, g, p, k);
  }

  lemma CountTallies(m: Memory, pow: Proof, s: seq<Ptr>, g: Ptr, p: Ptr, k: nat)
    requires LinksAllocated(m) && ParentsFirst(m, s) && g in s && p in s
    requires Iter(LinksOf(m, Elems(s)), g, p, k) == g && AllCounted(m, pow, s, g)
    ensures Tallies(m, pow, s, g, p, k)
  {
    hide ForwardTo, Tallies, TxSum;
    if k == 0 {
    } else {
      var l := LinksOf(m, Elems(s));
      Chained(l, g, p, k);
      assert Counted(m, pow, s, g, l[p], k - 1);
    }
    assert Counted(m, pow, s, g, p, k);
    TalliesExact(m, pow, s, g, p, k);
  }

  /** The counts of one forward pass are the recomputed ones on every rooted block if and only if every
      rooted block tallies beforehand. */
  lemma ForwardTxIsRecomputedTx(m: Memory, pow: Proof, s: seq<Ptr>, g: Ptr)
    requires LinksAllocated(m) && ParentsFirst(m, s) && g in s
    ensures AllCounted(m, pow, s, g) <==> AllTally(m, pow, s, g)
  {
    hide Counted, Tallies, Iter, ParentsFirst;
    assert AllIn(s, m) by { ListedIn(m, s); }
    if AllTally(m, pow, s, g) {
      forall p, k: nat | p in s && Iter(LinksOf(m, Elems(s)), g, p, k) == g ensures Counted(m, pow, s, g, p, k) {
        TalliesCount(m, pow, s, g, p, k);
      }
    }
    if AllCounted(m, pow, s, g) {
      forall p, k: nat | p in s && Iter(LinksOf(m, Elems(s)), g, p, k) == g
        ensures Tallies(m, pow, s, g, p, k)
      {
        CountTallies(m, pow, s, g, p, k);
      }
    }
  }

  lemma ListedIn(m: Memory, s: seq<Ptr>)
    requires ParentsFirst(m, s)
    ensures AllIn(s, m)
  {
  }

  /** best (0 for none) is the first of the eligible blocks of greatest work among s[..n]. */
  ghost predicate IsBest(m: Memory, s: seq<Ptr>, n: nat, best: Ptr)
    requires AllIn(s, m) && n <= |s|
  {
    if best == 0 then forall i :: 0 <= i < n ==> !Eligible(m[s[i]])
    else exists k :: 0 <= k < n && s[k] == best && BestAt(m, s, n, k)
  }

  ghost predicate BestAt(m: Memory, s: seq<Ptr>, n: nat, k: nat)
    requires AllIn(s, m) && n <= |s| && k < n
  {
    && Eligible(m[s[k]])
    && (forall i :: 0 <= i < n && Eligible(m[s[i]]) ==> m[s[i]].work <= m[s[k]].work)
    && (forall i :: 0 <= i < k && Eligible(m[s[i]]) ==> m[s[i]].work < m[s[k]].work)
  }

  /** Passing one more block: the earlier records stand, the best one is kept or replaced. */
  lemma BestStep(m: Memory, m': Memory, s: seq<Ptr>, n: nat, best: Ptr)
    requires AllIn(s, m) && AllIn(s, m') && n < |s| && 0 !in m && 0 !in m' && IsBest(m, s, n, best)
    requires best != 0 ==> best in m'
    requires forall i :: 0 <= i < n ==> m'[s[i]] == m[s[i]]
    ensures var b := s[n];
            IsBest(m', s, n + 1, if Eligible(m'[b]) && (best == 0 || m'[b].work > m'[best].work) then b else best)
  {
    hide Eligible;
    var b := s[n];
    if best == 0 {
      if Eligible(m'[b]) {
        assert BestAt(m', s, n + 1, n);
      }
    } else {
      var k :| 0 <= k < n && s[k] == best && BestAt(m, s, n, k);
      if Eligible(m'[b]) && m'[b].work > m'[best].work {
        assert BestAt(m', s, n + 1, n);
      } else {
        assert BestAt(m', s, n + 1, k);
      }
    }
  }

  /** The pass and the tip selection. */
  method ForwardPass(idx: BlockIndex, sorted: seq<Ptr>) returns (best: Ptr)
    requires LinksAllocated(idx.mem) && AllIn(sorted, idx.mem) && NoDup(sorted)
    modifies idx`mem
    ensures idx.mem == ForwardTo(old(idx.mem), idx.pow, sorted, |sorted|)
    ensures AllIn(sorted, idx.mem) && IsBest(idx.mem, sorted, |sorted|, best)
    ensures best == 0 ==>
              forall i :: 0 <= i < |sorted| ==>
                var n := idx.mem[sorted[i]]; n.chainTx == 0 || !n.haveData || n.failed
    ensures best != 0 ==>
              && best in idx.mem && best in sorted
              && idx.mem[best].chainTx > 0 && idx.mem[best].haveData && !idx.mem[best].failed
              && forall i :: 0 <= i < |sorted| ==>
                   var n := idx.mem[sorted[i]];
                   n.chainTx > 0 && n.haveData && !n.failed ==> n.work <= idx.mem[best].work
  {
    hide ForwardTo, ForwardOne, Eligible;
    best := 0;
    ghost var m0 := idx.mem;
    assert ForwardTo(m0, idx.pow, sorted, 0) == m0 by { ForwardStart(m0, idx.pow, sorted); }
    for i := 0 to |sorted|
      invariant idx.mem == ForwardTo(m0, idx.pow, sorted, i)
      invariant IsBest(idx.mem, sorted, i, best) && (best != 0 ==> best in idx.mem)
    {
      var b := sorted[i];
      ghost var m := idx.mem;
      ForwardStep(m0, idx.pow, sorted, i);
      idx.mem := ForwardOne(idx.mem, idx.pow, b);
      ForwardFrame(m, idx.pow, sorted, i);
      BestStep(m, idx.mem, sorted, i, best);
      if Eligible(idx.mem[b]) && (best == 0 || idx.mem[b].work > idx.mem[best].work) {
        best := b;
      }
    }
    BestInWords(idx.mem, sorted, best);
  }

  lemma BestInWords(m: Memory, s: seq<Ptr>, best: Ptr)
    requires AllIn(s, m) && IsBest(m, s, |s|, best)
    ensures best == 0 ==> forall i :: 0 <= i < |s| ==> m[s[i]].chainTx == 0 || !m[s[i]].haveData || m[s[i]].failed
    ensures best != 0 ==>
              && best in m && best in s && m[best].chainTx > 0 && m[best].haveData && !m[best].failed
              && forall i :: 0 <= i < |s| && m[s[i]].chainTx > 0 && m[s[i]].haveData && !m[s[i]].failed ==>
                   m[s[i]].work <= m[best].work
  {
    if best != 0 {
      var k :| 0 <= k < |s| && s[k] == best && BestAt(m, s, |s|, k);
      forall i | 0 <= i < |s| && m[s[i]].chainTx > 0 && m[s[i]].haveData && !m[s[i]].failed
        ensures m[s[i]].work <= m[best].work
      {
        assert Eligible(m[s[i]]);
      }
    }
  }

  lemma ForwardStart(m: Memory, pow: Proof, s: seq<Ptr>)
    requires LinksAllocated(m) && AllIn(s, m)
    ensures ForwardTo(m, pow, s, 0) == m
  {
  }

  lemma ForwardFrame(m: Memory, pow: Proof, s: seq<Ptr>, i: nat)
    requires LinksAllocated(m) && AllIn(s, m) && NoDup(s) && i < |s|
    ensures forall j :: 0 <= j < i ==> ForwardOne(m, pow, s[i])[s[j]] == m[s[j]]
  {
  }
}
