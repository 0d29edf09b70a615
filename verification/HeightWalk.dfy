/** The height repair of resolve_orphan_pprev_from_disk: from each block whose height is not
    its parent's plus one, climb while heights fall, then relabel back down the stack. It
    must end on every pprev graph, cycles included. */
module HeightWalk {
  import opened Ancestry
  import opened BlockIndexModel
  import opened Common
  import opened GenesisRecompute
  import opened Propagation

  /** The block has no parent, or sits one above it. */
  predicate HeightFits(m: Memory, p: Ptr)
    requires LinksAllocated(m) && p in m
  {
    m[p].pprev == 0 || m[p].height == m[m[p].pprev].height + 1
  }

  predicate WorkFitsParent(m: Memory, pow: Proof, p: Ptr)
    requires LinksAllocated(m) && p in m
  {
    m[p].pprev == 0 || m[p].work == Add256(m[m[p].pprev].work, pow(m[p].bits))
  }

  /** The climb goes on from p: its height is wrong and its parent is lower. */
  predicate Climbs(m: Memory, p: Ptr)
    requires LinksAllocated(m) && p in m
  {
    m[p].pprev != 0 && m[m[p].pprev].height < m[p].height && !HeightFits(m, p)
  }

  /** Every link and header field as before; heights and work may differ. */
  ghost predicate SameLinks(m: Memory, m': Memory) {
    && m'.Keys == m.Keys
    && forall p :: p in m ==> m'[p] == m[p].(height := m'[p].height, work := m'[p].work)
  }

  function Relabel(m: Memory, pow: Proof, p: Ptr): (m': Memory)
    requires LinksAllocated(m) && p in m && m[p].pprev != 0
    ensures SameLinks(m, m') && LinksAllocated(m')
  {
    var q := m[m[p].pprev];
    m[p := m[p].(height := q.height + 1, work := Add256(q.work, pow(m[p].bits)))]
  }

  ghost function Below(m: Memory, p: Ptr): set<Ptr>
    requires p in m
  {
    set q | q in m && m[q].height < m[p].height
  }

  lemma BelowShrinks(m: Memory, p: Ptr)
    requires LinksAllocated(m) && p in m && Climbs(m, p)
    ensures Below(m, m[p].pprev) < Below(m, p)
  {
    assert m[p].pprev in Below(m, p) && m[p].pprev !in Below(m, m[p].pprev);
  }

  /** The blocks the climb from p meets, ending with the one it stops on. */
  ghost function Climb(m: Memory, p: Ptr): (s: seq<Ptr>)
    requires LinksAllocated(m) && p in m
    ensures |s| > 0 && s[0] == p && forall i :: 0 <= i < |s| ==> s[i] in m
    decreases Below(m, p)
  {
    if Climbs(m, p) then BelowShrinks(m, p); [p] + Climb(m, m[p].pprev) else [p]
  }

  function Last(s: seq<Ptr>): Ptr
    requires s != []
  {
    s[|s| - 1]
  }

  /** One repair, as a value: repair the climb above p first, then p. */
  ghost function FixUp(m: Memory, pow: Proof, p: Ptr): (m': Memory)
    requires LinksAllocated(m) && p in m
    ensures SameLinks(m, m') && LinksAllocated(m')
    decreases Below(m, p)
  {
    if Climbs(m, p) then
      BelowShrinks(m, p);
      var m1 := FixUp(m, pow, m[p].pprev);
      SameLinksTrans(m, m1, Relabel(m1, pow, p));
      Relabel(m1, pow, p)
    else if !HeightFits(m, p) then Relabel(m, pow, p)
    else m
  }

  lemma SameLinksTrans(m: Memory, m1: Memory, m2: Memory)
    requires SameLinks(m, m1) && SameLinks(m1, m2)
    ensures SameLinks(m, m2)
  {
  }

  lemma SameLinksAt(m: Memory, m': Memory, p: Ptr)
    requires SameLinks(m, m') && p in m
    ensures p in m' && m'[p].pprev == m[p].pprev && m'[p].bits == m[p].bits
  {
  }

  /** One turn of the repair loop, with its explicit stack. */
  method RepairFrom(idx: BlockIndex, bi: Ptr) returns (count: nat)
    requires LinksAllocated(idx.mem) && bi in idx.mem
    modifies idx`mem
    ensures idx.mem == FixUp(old(idx.mem), idx.pow, bi)
    ensures var path := Climb(old(idx.mem), bi);
            count == |path| - (if HeightFits(old(idx.mem), Last(path)) then 1 else 0)
  {
    hide FixUp, Relabel, SameLinks;
    ghost var m0 := idx.mem;
    count := 0;
    var stack: seq<Ptr> := [];
    var cur := bi;
    while Climbs(idx.mem, cur)
      invariant idx.mem == m0 && cur in m0 && (stack == [] ==> cur == bi)
      invariant forall i :: 0 <= i < |stack| ==> stack[i] in m0 && Climbs(m0, stack[i])
      invariant forall i :: 0 < i < |stack| ==> m0[stack[i - 1]].pprev == stack[i]
      invariant |Climb(m0, bi)| == |stack| + |Climb(m0, cur)|
      invariant Last(Climb(m0, bi)) == Last(Climb(m0, cur))
      invariant stack != [] ==> stack[0] == bi && m0[stack[|stack| - 1]].pprev == cur
      decreases Below(m0, cur)
    {
      BelowShrinks(m0, cur);
      stack := stack + [cur];
      cur := idx.mem[cur].pprev;
    }
    assert Climb(m0, cur) == [cur];
    FixUpStop(m0, idx.pow, cur);
    if !HeightFits(idx.mem, cur) {
      idx.mem := Relabel(idx.mem, idx.pow, cur);
      count := count + 1;
    }
    var i := |stack|;
    while i > 0
      invariant 0 <= i <= |stack| && count == (if HeightFits(m0, cur) then 0 else 1) + |stack| - i
      invariant idx.mem == FixUp(m0, idx.pow, if i < |stack| then stack[i] else cur)
    {
      i := i - 1;
      FixUpClimb(m0, idx.pow, stack[i]);
      idx.mem := Relabel(idx.mem, idx.pow, stack[i]);
      count := count + 1;
    }
  }

  lemma FixUpStop(m: Memory, pow: Proof, p: Ptr)
    requires LinksAllocated(m) && p in m && !Climbs(m, p)
    ensures FixUp(m, pow, p) == if HeightFits(m, p) then m else Relabel(m, pow, p)
  {
  }

  lemma FixUpClimb(m: Memory, pow: Proof, p: Ptr)
    requires LinksAllocated(m) && p in m && Climbs(m, p)
    ensures var m1 := FixUp(m, pow, m[p].pprev);
            p in m1 && m1[p].pprev != 0 && FixUp(m, pow, p) == Relabel(m1, pow, p)
  {
  }

  /** The climb: each block is the parent of the one before and lower than it. */
  lemma {:induction false} ClimbShape(m: Memory, p: Ptr, i: nat, j: nat)
    requires LinksAllocated(m) && p in m && i < j < |Climb(m, p)|
    ensures var s := Climb(m, p);
            m[s[i]].pprev == s[i + 1] && m[s[i]].height > m[s[j]].height && s[i] != s[j]
    decreases Below(m, p)
  {
    BelowShrinks(m, p);
    var q := m[p].pprev;
    var t := Climb(m, q);
    assert Climb(m, p) == [p] + t;
    if i > 0 {
      ClimbShape(m, q, i - 1, j - 1);
    } else if j > 1 {
      ClimbShape(m, q, 0, j - 1);
    }
  }

  lemma {:induction false} ClimbStops(m: Memory, p: Ptr)
    requires LinksAllocated(m) && p in m
    ensures !Climbs(m, Last(Climb(m, p)))
    decreases Below(m, p)
  {
    if !Climbs(m, p) {
    } else {
      BelowShrinks(m, p);
      ClimbStops(m, m[p].pprev);
    }
  }

  /** The repair touches nothing off the climb. */
  lemma {:induction false} FixUpFrame(m: Memory, pow: Proof, p: Ptr, q: Ptr)
    requires LinksAllocated(m) && p in m && q in m && q !in Climb(m, p)
    ensures FixUp(m, pow, p)[q] == m[q]
    decreases Below(m, p)
  {
    if !Climbs(m, p) {
    } else {
      BelowShrinks(m, p);
      FixUpFrame(m, pow, m[p].pprev, q);
    }
  }

  /** After the repair every block below the stopping point fits its parent, on any graph. */
  lemma {:induction false} FixUpPath(m: Memory, pow: Proof, p: Ptr, i: nat)
    requires LinksAllocated(m) && p in m && i + 1 < |Climb(m, p)|
    ensures var m', b := FixUp(m, pow, p), Climb(m, p)[i];
            HeightFits(m', b) && WorkFitsParent(m', pow, b)
    decreases Below(m, p)
  {
    hide FixUp;
    BelowShrinks(m, p);
    FixUpClimb(m, pow, p);
    var q := m[p].pprev;
    var s, t := Climb(m, p), Climb(m, q);
    assert s == [p] + t;
    ClimbShape(m, p, 0, 1);
    if i == 0 {
    } else {
      FixUpPath(m, pow, q, i - 1);
      ClimbShape(m, p, 0, i);
      ClimbShape(m, p, 0, i + 1);
      ClimbShape(m, p, i, i + 1);
    }
  }

  /** The block the climb stopped on is relabelled first, and nothing later relabels it. */
  lemma {:induction false} FixUpLast(m: Memory, pow: Proof, p: Ptr)
    requires LinksAllocated(m) && p in m
    ensures var c := Last(Climb(m, p));
            FixUp(m, pow, p)[c] == (if HeightFits(m, c) then m else Relabel(m, pow, c))[c]
    decreases Below(m, p)
  {
    hide FixUp;
    if Climbs(m, p) {
      BelowShrinks(m, p);
      FixUpClimb(m, pow, p);
      FixUpLast(m, pow, m[p].pprev);
      ClimbShape(m, p, 0, |Climb(m, p)| - 1);
    } else {
      FixUpStop(m, pow, p);
    }
  }

  /** Heights rise by one along the repaired climb. */
  lemma {:induction false} FixUpHeights(m: Memory, pow: Proof, p: Ptr, i: nat)
    requires LinksAllocated(m) && p in m && i < |Climb(m, p)|
    ensures var s, m' := Climb(m, p), FixUp(m, pow, p);
            m'[s[i]].height == m'[Last(s)].height + (|s| - 1 - i)
    decreases |Climb(m, p)| - i
  {
    hide FixUp, Climb;
    var s := Climb(m, p);
    if i + 1 == |s| {
    } else {
      FixUpPath(m, pow, p, i);
      ClimbShape(m, p, i, i + 1);
      FixUpHeights(m, pow, p, i + 1);
    }
  }

  /** The stopping block fits its parent afterwards exactly when that parent is not itself on
      the climb, that is, when the climb did not stop inside a pprev cycle. */
  lemma FixUpStopsRight(m: Memory, pow: Proof, p: Ptr)
    requires LinksAllocated(m) && p in m
    ensures var m', s := FixUp(m, pow, p), Climb(m, p);
            var c := Last(s);
            && (HeightFits(m', c) <==> m[c].pprev !in s)
            && (m[c].pprev !in s && !HeightFits(m, c) ==> WorkFitsParent(m', pow, c))
  {
    hide FixUp, Climb, Add256, SameLinks;
    var m', s := FixUp(m, pow, p), Climb(m, p);
    var c := Last(s);
    var q := m[c].pprev;
    SameLinksAt(m, m', c);
    FixUpLast(m, pow, p);
    ClimbStops(m, p);
    if q in s {
      var i :| 0 <= i < |s| && s[i] == q;
      FixUpHeights(m, pow, p, i);
    } else if q != 0 {
      FixUpFrame(m, pow, p, q);
    }
  }

  /** No block is its own ancestor: links go down in some rank. */
  ghost predicate Acyclic(m: Memory, rank: map<Ptr, nat>) {
    && rank.Keys == m.Keys
    && forall p :: p in m && m[p].pprev != 0 && m[p].pprev in m ==> rank[m[p].pprev] < rank[p]
  }

  lemma {:induction false} ClimbRank(m: Memory, rank: map<Ptr, nat>, p: Ptr, i: nat)
    requires LinksAllocated(m) && p in m && Acyclic(m, rank) && i < |Climb(m, p)|
    ensures rank[Last(Climb(m, p))] <= rank[Climb(m, p)[i]]
    decreases |Climb(m, p)| - i
  {
    hide Climb;
    if i + 1 == |Climb(m, p)| {
    } else {
      ClimbShape(m, p, i, i + 1);
      ClimbRank(m, rank, p, i + 1);
    }
  }

  /** On an acyclic graph one repair leaves the whole climb, stopping block included, fitting. */
  lemma RepairAcyclic(m: Memory, pow: Proof, rank: map<Ptr, nat>, p: Ptr, i: nat)
    requires LinksAllocated(m) && p in m && Acyclic(m, rank) && i < |Climb(m, p)|
    ensures var m', b := FixUp(m, pow, p), Climb(m, p)[i];
            HeightFits(m', b) && (m'[b] != m[b] ==> WorkFitsParent(m', pow, b))
  {
    hide FixUp, Climb, Add256, SameLinks;
    var s := Climb(m, p);
    if i + 1 < |s| {
      FixUpPath(m, pow, p, i);
    } else {
      var c := Last(s);
      if m[c].pprev in s {
        var j :| 0 <= j < |s| && s[j] == m[c].pprev;
        ClimbRank(m, rank, p, j);
        assert false;
      }
      FixUpStopsRight(m, pow, p);
      FixUpLast(m, pow, p);
    }
  }

  /** The repair loop over the first n blocks of an iteration order, as a value. */
  ghost function RepairTo(m: Memory, pow: Proof, order: seq<Ptr>, n: nat): (m': Memory)
    requires LinksAllocated(m) && AllIn(order, m) && n <= |order|
    ensures SameLinks(m, m') && LinksAllocated(m')
    decreases n
  {
    if n == 0 then m
    else
      var m1 := RepairTo(m, pow, order, n - 1);
      SameLinksTrans(m, m1, FixUp(m1, pow, order[n - 1]));
      FixUp(m1, pow, order[n - 1])
  }

  /** The repairs one turn counts: none for a block that fits, else its climb, without the stopping
      block when that one fits. */
  ghost function TurnCount(m: Memory, p: Ptr): int
    requires LinksAllocated(m) && p in m
  {
    if HeightFits(m, p) then 0
    else |Climb(m, p)| - (if HeightFits(m, Last(Climb(m, p))) then 1 else 0)
  }

  /** The repairs counted over the first n blocks. */
  ghost function RepairCount(m: Memory, pow: Proof, order: seq<Ptr>, n: nat): int
    requires LinksAllocated(m) && AllIn(order, m) && n <= |order|
    decreases n
  {
    if n == 0 then 0
    else RepairCount(m, pow, order, n - 1) + TurnCount(RepairTo(m, pow, order, n - 1), order[n - 1])
  }

  lemma FixUpFits(m: Memory, pow: Proof, p: Ptr)
    requires LinksAllocated(m) && p in m && HeightFits(m, p)
    ensures FixUp(m, pow, p) == m
  {
  }

  /** The repair loop, in the order the block map yields its entries. */
  method RepairHeights(idx: BlockIndex, order: seq<Ptr>) returns (fixed: nat)
    requires LinksAllocated(idx.mem) && AllIn(order, idx.mem)
    modifies idx`mem
    ensures idx.mem == RepairTo(old(idx.mem), idx.pow, order, |order|)
    ensures fixed == RepairCount(old(idx.mem), idx.pow, order, |order|)
  {
    hide FixUp, RepairTo, Climb;
    fixed := 0;
    RepairStart(idx.mem, idx.pow, order);
    for i := 0 to |order|
      invariant idx.mem == RepairTo(old(idx.mem), idx.pow, order, i)
      invariant fixed == RepairCount(old(idx.mem), idx.pow, order, i)
    {
      RepairStep(old(idx.mem), idx.pow, order, i);
      if HeightFits(idx.mem, order[i]) {
        FixUpFits(idx.mem, idx.pow, order[i]);
      } else {
        var c := RepairFrom(idx, order[i]);
        fixed := fixed + c;
      }
    }
  }

  lemma RepairStart(m: Memory, pow: Proof, order: seq<Ptr>)
    requires LinksAllocated(m) && AllIn(order, m)
    ensures RepairTo(m, pow, order, 0) == m
  {
  }

  lemma RepairStep(m: Memory, pow: Proof, order: seq<Ptr>, n: nat)
    requires LinksAllocated(m) && AllIn(order, m) && n < |order|
    ensures RepairTo(m, pow, order, n + 1) == FixUp(RepairTo(m, pow, order, n), pow, order[n])
  {
    hide FixUp;
  }

  /** A block under a fitting parent is the only one its repair touches. */
  lemma RepairUnderFitting(m: Memory, pow: Proof, b: Ptr, p: Ptr)
    requires LinksAllocated(m) && b in m && p in m && m[b].pprev != b
    requires m[b].pprev != 0 ==> HeightFits(m, m[b].pprev)
    ensures var m' := FixUp(m, pow, b); HeightFits(m', b) && (p != b ==> m'[p] == m[p])
  {
    var q := m[b].pprev;
    if Climbs(m, b) {
      assert FixUp(m, pow, q) == m;
    }
  }

  /** Blocks are listed once each, and a parent that has a parent itself before its children. Where a
      block without a parent stands does not matter: its height is never touched. */
  ghost predicate LinkedParentsFirst(m: Memory, s: seq<Ptr>) {
    && AllIn(s, m) && NoDup(s)
    && forall i :: 0 <= i < |s| ==> ParentBefore(m, s, i)
  }

  ghost predicate ParentBefore(m: Memory, s: seq<Ptr>, i: nat)
    requires AllIn(s, m) && i < |s|
  {
    var q := m[s[i]].pprev;
    q != 0 && q in m && m[q].pprev != 0 ==> q in s[..i]
  }

  lemma LinkedBefore(m: Memory, s: seq<Ptr>, i: nat)
    requires LinksAllocated(m) && LinkedParentsFirst(m, s) && i < |s|
    ensures m[s[i]].pprev != s[i]
    ensures m[s[i]].pprev != 0 && m[m[s[i]].pprev].pprev != 0 ==>
              exists j :: 0 <= j < i && s[j] == m[s[i]].pprev
    ensures forall k :: i < k < |s| && m[s[k]].pprev != 0 ==> m[s[i]].pprev != s[k]
  {
    assert ParentBefore(m, s, i);
  }

  /** If the map yields every parent that has a parent before its children, one pass leaves every height
      right, whatever the heights were. */
  lemma {:induction false} RepairParentsFirst(m: Memory, pow: Proof, s: seq<Ptr>, n: nat, i: nat)
    requires LinksAllocated(m) && LinkedParentsFirst(m, s) && i < n <= |s|
    ensures HeightFits(RepairTo(m, pow, s, n), s[i])
    decreases n
  {
    hide FixUp, RepairTo, SameLinks, LinkedParentsFirst;
    assert AllIn(s, m) by { OrderListed(m, s); }
    var b := s[n - 1];
    var m1 := RepairTo(m, pow, s, n - 1);
    RepairStep(m, pow, s, n - 1);
    LinkedBefore(m, s, n - 1);
    LinkedBefore(m, s, i);
    SameLinksAt(m, m1, b);
    SameLinksAt(m, m1, s[i]);
    var q := m[b].pprev;
    if q != 0 {
      SameLinksAt(m, m1, q);
      if m[q].pprev != 0 {
        var j :| 0 <= j < n - 1 && s[j] == q;
        RepairParentsFirst(m, pow, s, n - 1, j);
      }
    } else {
      FixUpFits(m1, pow, b);
    }
    RepairUnderFitting(m1, pow, b, s[i]);
    if i < n - 1 {
      RepairParentsFirst(m, pow, s, n - 1, i);
      if m[s[i]].pprev != 0 {
        SameLinksAt(m, m1, m[s[i]].pprev);
        RepairUnderFitting(m1, pow, b, m[s[i]].pprev);
      }
      SameLinksAt(m1, RepairTo(m, pow, s, n), s[i]);
    }
  }

  lemma OrderListed(m: Memory, s: seq<Ptr>)
    requires LinkedParentsFirst(m, s)
    ensures AllIn(s, m) && NoDup(s)
  {
  }

  /** The height the stopping block of the climb from p ends up with. */
  ghost function StopHeight(m: Memory, p: Ptr): int
    requires LinksAllocated(m) && p in m
  {
    var c := Last(Climb(m, p));
    if HeightFits(m, c) then m[c].height else m[m[c].pprev].height + 1
  }

  /** The height of every block of the climb after the repair, in terms of the heights before it. */
  lemma FixUpHeightAt(m: Memory, pow: Proof, p: Ptr, i: nat)
    requires LinksAllocated(m) && p in m && i < |Climb(m, p)|
    ensures FixUp(m, pow, p)[Climb(m, p)[i]].height == StopHeight(m, p) + (|Climb(m, p)| - 1 - i)
  {
    hide FixUp, Climb;
    FixUpHeights(m, pow, p, i);
    FixUpLast(m, pow, p);
  }

  /** Which fitting blocks a repair leaves behind: a block off the climb still fits if and only if its
      parent is off the climb too, or already had the height the climb gives it. */
  lemma RepairKeepsChild(m: Memory, pow: Proof, p: Ptr, c: Ptr)
    requires LinksAllocated(m) && p in m && c in m && c !in Climb(m, p) && m[c].pprev != 0 && HeightFits(m, c)
    ensures var s, q := Climb(m, p), m[c].pprev;
            HeightFits(FixUp(m, pow, p), c) <==>
              forall i :: 0 <= i < |s| && s[i] == q ==> m[q].height == StopHeight(m, p) + (|s| - 1 - i)
  {
    hide FixUp, Climb, StopHeight, SameLinks;
    var s, q := Climb(m, p), m[c].pprev;
    SameLinksAt(m, FixUp(m, pow, p), c);
    FixUpFrame(m, pow, p, c);
    if q in s {
      forall i | 0 <= i < |s| && s[i] == q ensures FixUp(m, pow, p)[q].height == StopHeight(m, p) + (|s| - 1 - i) {
        FixUpHeightAt(m, pow, p, i);
      }
    } else {
      FixUpFrame(m, pow, p, q);
    }
  }

  /** Every height is h. From such a start the pass has the least to go by. */
  ghost predicate Flat(m: Memory, h: int) {
    LinksAllocated(m) && forall p :: p in m ==> m[p].height == h
  }

  /** From a flat start the first n turns have raised the linked blocks among them, and no other. */
  ghost predicate RaisedTo(m: Memory, m': Memory, order: seq<Ptr>, n: nat, h: int)
    requires n <= |order|
  {
    SameLinks(m, m') &&
    forall p :: p in m ==> if p in order[..n] && m[p].pprev != 0 then m'[p].height > h else m'[p].height == h
  }

  /** At a block that is still flat the turn never climbs: it takes its parent's height plus one. */
  lemma FlatTurn(m: Memory, m1: Memory, pow: Proof, order: seq<Ptr>, n: nat, h: int)
    requires Flat(m, h) && AllIn(order, m) && NoDup(order) && n < |order| && LinksAllocated(m1) && RaisedTo(m, m1, order, n, h)
    ensures order[n] in m1
    ensures var b, m2 := order[n], FixUp(m1, pow, order[n]);
            && (forall p :: p in m1 && p != b ==> m2[p].height == m1[p].height)
            && m2[b].height == (if m[b].pprev == 0 then h else m1[m[b].pprev].height + 1)
            && RaisedTo(m, m2, order, n + 1, h)
  {
    hide FixUp;
    var b := order[n];
    assert order[..n + 1] == order[..n] + [b];
    assert b !in order[..n];
    assert m1[b].pprev == m[b].pprev;
    if m[b].pprev != 0 {
      assert m1[m[b].pprev].height >= h;
    }
    assert !Climbs(m1, b);
    FixUpStop(m1, pow, b);
    SameLinksTrans(m, m1, FixUp(m1, pow, b));
  }

  lemma NothingRaised(m: Memory, order: seq<Ptr>, h: int)
    requires Flat(m, h)
    ensures RaisedTo(m, m, order, 0, h)
  {
  }

  /** Where the pass stands after n turns. */
  lemma {:induction false} FlatPass(m: Memory, pow: Proof, order: seq<Ptr>, n: nat, h: int)
    requires Flat(m, h) && AllIn(order, m) && NoDup(order) && n <= |order|
    ensures RaisedTo(m, RepairTo(m, pow, order, n), order, n, h)
    decreases n
  {
    hide FixUp, RepairTo, RaisedTo, SameLinks;
    if n == 0 {
      RepairStart(m, pow, order);
      NothingRaised(m, order, h);
    } else {
      FlatPass(m, pow, order, n - 1, h);
      RepairStep(m, pow, order, n - 1);
      FlatTurn(m, RepairTo(m, pow, order, n - 1), pow, order, n - 1, h);
    }
  }

  /** A block visited at turn i keeps the height it got there; one never visited keeps its own. */
  lemma {:induction false} HeightStays(m: Memory, pow: Proof, order: seq<Ptr>, i: nat, n: nat, h: int, p: Ptr)
    requires Flat(m, h) && AllIn(order, m) && NoDup(order) && i <= n <= |order| && p in m
    requires forall j :: i <= j < n ==> order[j] != p
    ensures RepairTo(m, pow, order, n)[p].height == RepairTo(m, pow, order, i)[p].height
    decreases n
  {
    hide FixUp, RepairTo, RaisedTo, SameLinks;
    if i == n {
    } else {
      HeightStays(m, pow, order, i, n - 1, h, p);
      FlatPass(m, pow, order, n - 1, h);
      RepairStep(m, pow, order, n - 1);
      var m1 := RepairTo(m, pow, order, n - 1);
      FlatTurn(m, m1, pow, order, n - 1, h);
      assert p in m1 by { SameLinksAt(m, m1, p); }
    }
  }

  /** From a flat start, with every linked block listed once, the block at position i ends up right if
      and only if it has no parent, or its parent has none, or its parent came before it. */
  lemma FlatRepairExact(m: Memory, pow: Proof, order: seq<Ptr>, h: int, i: nat)
    requires Flat(m, h) && AllIn(order, m) && NoDup(order) && i < |order|
    requires forall p :: p in m && m[p].pprev != 0 ==> p in order
    ensures HeightFits(RepairTo(m, pow, order, |order|), order[i]) <==>
              var q := m[order[i]].pprev; q == 0 || m[q].pprev == 0 || q in order[..i]
  {
    hide FixUp, RepairTo, SameLinks;
    var b := order[i];
    var end, at, next := RepairTo(m, pow, order, |order|), RepairTo(m, pow, order, i), RepairTo(m, pow, order, i + 1);
    SameLinksAt(m, end, b);
    var q := m[b].pprev;
    if q != 0 {
      SameLinksAt(m, at, b);
      SameLinksAt(m, at, q);
      SameLinksAt(m, end, q);
      FlatPass(m, pow, order, i, h);
      FlatPass(m, pow, order, |order|, h);
      RepairStep(m, pow, order, i);
      FlatTurn(m, at, pow, order, i, h);
      HeightStays(m, pow, order, i + 1, |order|, h, b);
      assert order[..|order|] == order;
      if q in order[..i] {
        var j :| 0 <= j < i && order[j] == q;
        HeightStays(m, pow, order, i, |order|, h, q);
      } else if m[q].pprev == 0 {
        assert at[q].height == h && end[q].height == h;
      } else {
        assert at[q].height == h && end[q].height > h;
      }
    }
  }

  /** The order leaves every height of m right. */
  ghost predicate AllFit(m: Memory, pow: Proof, order: seq<Ptr>)
    requires LinksAllocated(m) && AllIn(order, m)
  {
    forall p :: p in m ==> HeightFits(RepairTo(m, pow, order, |order|), p)
  }

  /** One pass from a flat start leaves every height right if and only if every parent that has a
      parent itself comes before its children. */
  lemma FlatRepairAll(m: Memory, pow: Proof, order: seq<Ptr>, h: int)
    requires Flat(m, h) && AllIn(order, m) && NoDup(order)
    requires forall p :: p in m && m[p].pprev != 0 ==> p in order
    ensures AllFit(m, pow, order) <==> LinkedParentsFirst(m, order)
  {
    hide RepairTo, SameLinks, AllFit;
    FitsListed(m, pow, order);
    var end := RepairTo(m, pow, order, |order|);
    forall i | 0 <= i < |order| ensures HeightFits(end, order[i]) <==> ParentBefore(m, order, i) {
      FlatRepairExact(m, pow, order, h, i);
    }
  }

  /** A block without a parent always fits, so the listed ones decide. */
  lemma FitsListed(m: Memory, pow: Proof, order: seq<Ptr>)
    requires LinksAllocated(m) && AllIn(order, m) && forall p :: p in m && m[p].pprev != 0 ==> p in order
    ensures RepairTo(m, pow, order, |order|).Keys == m.Keys
    ensures AllFit(m, pow, order) <==>
              forall i :: 0 <= i < |order| ==> HeightFits(RepairTo(m, pow, order, |order|), order[i])
  {
    hide RepairTo;
    var end := RepairTo(m, pow, order, |order|);
    assert end.Keys == m.Keys;
    forall p | p in m && p !in order ensures HeightFits(end, p) {
      SameLinksAt(m, end, p);
    }
    forall p | p in order ensures exists i :: 0 <= i < |order| && order[i] == p {
    }
  }

  /** The order repairs the graph of m: whatever heights and work the blocks start from. */
  ghost predicate OrderRepairs(m: Memory, pow: Proof, order: seq<Ptr>)
    requires LinksAllocated(m) && AllIn(order, m)
  {
    forall m' :: SameLinks(m, m') && LinksAllocated(m') ==> AllFit(m', pow, order)
  }

  /** m with every height at 0. */
  function Flattened(m: Memory): Memory {
    map p | p in m :: m[p].(height := 0)
  }

  /** With every linked block listed once, one pass leaves every height right from whatever heights it
      starts if and only if every parent that has a parent itself comes before its children. */
  lemma RepairExact(m: Memory, pow: Proof, order: seq<Ptr>)
    requires LinksAllocated(m) && AllIn(order, m) && NoDup(order)
    requires forall p :: p in m && m[p].pprev != 0 ==> p in order
    ensures OrderRepairs(m, pow, order) <==> LinkedParentsFirst(m, order)
  {
    hide RepairTo, AllFit;
    if LinkedParentsFirst(m, order) {
      forall m' | SameLinks(m, m') && LinksAllocated(m') ensures AllFit(m', pow, order) {
        assert forall i :: 0 <= i < |order| && ParentBefore(m, order, i) ==> ParentBefore(m', order, i);
        FirstRepairs(m', pow, order);
      }
    }
    if OrderRepairs(m, pow, order) {
      var m' := Flattened(m);
      assert SameLinks(m, m') && Flat(m', 0);
      FlatRepairAll(m', pow, order, 0);
      assert forall i :: 0 <= i < |order| && ParentBefore(m', order, i) ==> ParentBefore(m, order, i);
    }
  }

  lemma FirstRepairs(m: Memory, pow: Proof, order: seq<Ptr>)
    requires LinksAllocated(m) && LinkedParentsFirst(m, order) && AllIn(order, m)
    requires forall p :: p in m && m[p].pprev != 0 ==> p in order
    ensures AllFit(m, pow, order)
  {
    hide RepairTo, LinkedParentsFirst, AllFit;
    FitsListed(m, pow, order);
    forall i | 0 <= i < |order| ensures HeightFits(RepairTo(m, pow, order, |order|), order[i]) {
      RepairParentsFirst(m, pow, order, |order|, i);
    }
  }

  /** So one pass in an arbitrary order is not enough: here block 3 fits block 2 when it is
      visited and is left behind when block 2 is repaired. */
  lemma RepairOrderMatters(pow: Proof, m: Memory)
    requires m.Keys == {1, 2, 3}
    requires m[1].pprev == 0 && m[2].pprev == 1 && m[3].pprev == 2
    requires m[1].height == 0 && m[2].height == 5 && m[3].height == 6
    ensures LinksAllocated(m) && AllIn([3, 2], m) && !HeightFits(RepairTo(m, pow, [3, 2], 2), 3)
  {
    hide RepairTo, FixUp, Relabel;
    var s := [3, 2];
    RepairStart(m, pow, s);
    RepairStep(m, pow, s, 0);
    RepairStep(m, pow, s, 1);
    FixUpFits(m, pow, 3);
    assert RepairTo(m, pow, s, 1) == m && RepairTo(m, pow, s, 2) == FixUp(m, pow, 2);
    assert Climb(m, 2) == [2, 1];
    RepairKeepsChild(m, pow, 2, 3);
    assert StopHeight(m, 2) == 0 && Climb(m, 2)[0] == 2;
  }
}
