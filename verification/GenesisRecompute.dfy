/** recompute_index_from_genesis: rebuilds height, cumulative work and cumulative
    transaction count of every entry whose pprev chain reaches genesis, over an arbitrary
    pprev graph, with an explicit stack and a four-state mark per entry. */
module GenesisRecompute {
  import opened Ancestry
  import opened BlockIndexModel
  import opened Common

  datatype Mark = Unknown | Visiting | Fixed | Unreachable

  /** How the upward walk stopped: on a fixed entry, on an unreachable one, on an entry of
      the walk itself, or because there is no indexed parent. */
  datatype WalkEnd = Joined | Dead | Looped | Dangling

  datatype Stats = Stats(reachable: nat, heights: nat, work: nat, tx: nat, unresolved: nat, cycles: nat)

  ghost predicate Increasing(s: seq<Ptr>) {
    forall i, j :: 0 <= i < j < |s| ==> s[i] < s[j]
  }

  lemma {:induction false} LeastExists(s: set<Ptr>) returns (m: Ptr)
    requires s != {}
    ensures m in s && forall q :: q in s ==> m <= q
    decreases |s|
  {
    m :| m in s;
    var t := s - {m};
    assert forall q :: q in s ==> q == m || q in t;
    if t == {} {
    } else {
      var n := LeastExists(t);
      if n < m {
        m := n;
      }
    }
  }

  lemma ElemsPush<T>(s: seq<T>, x: T)
    ensures Elems(s + [x]) == Elems(s) + {x}
  {
  }

  lemma PrefixElems<T>(s: seq<T>, i: nat)
    requires i < |s|
    ensures Elems(s[..i + 1]) == Elems(s[..i]) + {s[i]}
  {
    assert s[..i + 1] == s[..i] + [s[i]];
  }

  /** Sorted so far: r holds what was taken out of ps, all of it below what is left. */
  ghost predicate SortedPrefix(ps: set<Ptr>, r: seq<Ptr>, rest: set<Ptr>) {
    && rest <= ps && Elems(r) == ps - rest && Increasing(r)
    && forall p, q :: p in r && q in rest ==> p < q
  }

  lemma SortStep(ps: set<Ptr>, r: seq<Ptr>, rest: set<Ptr>, m: Ptr)
    requires SortedPrefix(ps, r, rest) && m in rest && forall q :: q in rest ==> m <= q
    ensures SortedPrefix(ps, r + [m], rest - {m})
  {
    ElemsPush(r, m);
    assert Increasing(r + [m]) by {
      forall i | 0 <= i < |r| ensures (r + [m])[i] < m {
        assert r[i] in r;
      }
    }
    forall p, q | p in r + [m] && q in rest - {m} ensures p < q {
      assert p in r || p == m;
    }
  }

  /** The entry array after qsort by pointer. */
  method SortPointers(ps: set<Ptr>) returns (r: seq<Ptr>)
    ensures Increasing(r) && Elems(r) == ps && |r| == |ps|
  {
    r := [];
    var rest := ps;
    while rest != {}
      invariant SortedPrefix(ps, r, rest) && |r| + |rest| == |ps|
      decreases |rest|
    {
      ghost var least := LeastExists(rest);
      var m :| m in rest && forall q :: q in rest ==> m <= q;
      SortStep(ps, r, rest, m);
      r := r + [m];
      rest := rest - {m};
    }
  }

  /** boot_index_find_entry */
  method FindEntry(entries: seq<Ptr>, q: Ptr) returns (r: Option<nat>)
    requires Increasing(entries)
    ensures r.None? <==> q !in entries
    ensures r.Some? ==> r.value < |entries| && entries[r.value] == q
  {
    var lo, hi := 0, |entries|;
    while lo < hi
      invariant 0 <= lo <= hi <= |entries|
      invariant forall i :: 0 <= i < lo ==> entries[i] < q
      invariant forall i :: hi <= i < |entries| ==> q <= entries[i]
    {
      var mid := lo + (hi - lo) / 2;
      if entries[mid] < q {
        lo := mid + 1;
      } else {
        hi := mid;
      }
    }
    if lo < |entries| && entries[lo] == q {
      return Some(lo);
    }
    return None;
  }

  function MarkFor(p: Ptr, open: set<Ptr>, fixed: set<Ptr>, dead: set<Ptr>): Mark {
    if p in fixed then Fixed else if p in dead then Unreachable else if p in open then Visiting else Unknown
  }

  ghost predicate MarksAgree(ps: seq<Ptr>, marks: seq<Mark>, open: set<Ptr>, fixed: set<Ptr>, dead: set<Ptr>) {
    && |marks| == |ps|
    && forall i :: 0 <= i < |ps| ==> marks[i] == MarkFor(ps[i], open, fixed, dead)
  }

  /** With every open entry settled, none is open. */
  lemma NoneOpen(ps: seq<Ptr>, marks: seq<Mark>, open: set<Ptr>, fixed: set<Ptr>, dead: set<Ptr>)
    requires MarksAgree(ps, marks, open, fixed, dead) && open <= fixed + dead
    ensures MarksAgree(ps, marks, {}, fixed, dead)
  {
  }

  /** Entries settled so far: every fixed one is rooted and the dead ones are parent-closed. */
  ghost predicate Settled(l: Links, g: Ptr, fixed: set<Ptr>, dead: set<Ptr>) {
    && WellRooted(l, g) && g in fixed
    && fixed <= l.Keys && dead <= l.Keys && fixed !! dead
    && Closed(l, g, dead)
  }

  /** p carries the labels of its distance to genesis. */
  ghost predicate LabelOk(m0: Memory, m: Memory, pow: Proof, l: Links, g: Ptr, p: Ptr)
    requires WellRooted(l, g) && l.Keys <= m0.Keys
  {
    && p in m && p in m0
    && 0 <= m[p].height && Iter(l, g, p, m[p].height) == g
    && m[p] == Labelled(m0, pow, l, g, p, m[p].height)
  }

  /** Labels while the recompute runs: fixed entries carry theirs, the others are untouched. */
  ghost predicate LabelsDone(m0: Memory, m: Memory, pow: Proof, l: Links, g: Ptr, fixed: set<Ptr>)
    requires WellRooted(l, g) && l.Keys <= m0.Keys
  {
    && m.Keys == m0.Keys && fixed <= l.Keys
    && (forall p :: p in m0 && p !in fixed ==> m[p] == m0[p])
    && (forall p {:trigger LabelOk(m0, m, pow, l, g, p)} :: p in fixed ==> LabelOk(m0, m, pow, l, g, p))
  }

  function HeightOf(n: Node): int { n.height }
  function WorkOf(n: Node): int { n.work }
  function ChainTxOf(n: Node): int { n.chainTx }

  /** The entries of s whose label differs between the two memories. */
  ghost function Changes(field: Node -> int, m0: Memory, m: Memory, s: set<Ptr>): set<Ptr> {
    set p | p in s && p in m0 && p in m && field(m0[p]) != field(m[p])
  }

  /** The three counters say how many of the entries in s got a new label. */
  ghost predicate Counts(m0: Memory, m: Memory, s: set<Ptr>, heights: nat, work: nat, tx: nat) {
    && heights == |Changes(HeightOf, m0, m, s)|
    && work == |Changes(WorkOf, m0, m, s)|
    && tx == |Changes(ChainTxOf, m0, m, s)|
  }

  /** stack holds the positions in ps of the entries of a duplicate-free walk that touches
      no settled entry, and the marks say so. */
  ghost predicate Climbing(l: Links, g: Ptr, ps: seq<Ptr>, marks: seq<Mark>, stack: seq<nat>, path: seq<Ptr>,
                           fixed: set<Ptr>, dead: set<Ptr>) {
    && MarksAgree(ps, marks, Elems(path), fixed, dead)
    && |path| == |stack| && (forall i :: 0 <= i < |stack| ==> stack[i] < |ps| && ps[stack[i]] == path[i])
    && Walk(l, g, path) && NoDup(path)
    && (forall i :: 0 <= i < |path| ==> path[i] !in fixed && path[i] !in dead)
  }

  lemma ClimbStep(l: Links, g: Ptr, ps: seq<Ptr>, marks: seq<Mark>, stack: seq<nat>, path: seq<Ptr>,
                  fixed: set<Ptr>, dead: set<Ptr>, cur: nat)
    requires Climbing(l, g, ps, marks, stack, path, fixed, dead) && Increasing(ps) && l.Keys == Elems(ps)
    requires cur < |ps| && marks[cur] == Unknown
    requires path != [] ==> ps[cur] == Up(l, g, path[|path| - 1])
    ensures Climbing(l, g, ps, marks[cur := Visiting], stack + [cur], path + [ps[cur]], fixed, dead)
    ensures ps[cur] in l && ps[cur] !in path && ps[cur] !in fixed
  {
    hide Up, MarksAgree, Increasing, Elems;
    MarkVisit(ps, marks, path, fixed, dead, cur);
  }

  lemma MarkVisit(ps: seq<Ptr>, marks: seq<Mark>, path: seq<Ptr>, fixed: set<Ptr>, dead: set<Ptr>, cur: nat)
    requires MarksAgree(ps, marks, Elems(path), fixed, dead) && Increasing(ps) && cur < |ps| && marks[cur] == Unknown
    ensures MarksAgree(ps, marks[cur := Visiting], Elems(path + [ps[cur]]), fixed, dead)
    ensures ps[cur] !in path && ps[cur] !in fixed && ps[cur] !in dead && ps[cur] in Elems(ps)
  {
    var p := ps[cur];
    ElemsPush(path, p);
    forall i | 0 <= i < |ps|
      ensures marks[cur := Visiting][i] == MarkFor(ps[i], Elems(path + [p]), fixed, dead)
    {
      assert i != cur ==> ps[i] != p;
    }
  }

  lemma ClimbStart(l: Links, g: Ptr, ps: seq<Ptr>, marks: seq<Mark>, fixed: set<Ptr>, dead: set<Ptr>)
    requires MarksAgree(ps, marks, {}, fixed, dead)
    ensures Climbing(l, g, ps, marks, [], [], fixed, dead)
  {
  }

  /** What the mark of an entry says of it. */
  lemma MarkMeans(l: Links, g: Ptr, ps: seq<Ptr>, marks: seq<Mark>, stack: seq<nat>, path: seq<Ptr>,
                  fixed: set<Ptr>, dead: set<Ptr>, cur: nat)
    requires Climbing(l, g, ps, marks, stack, path, fixed, dead) && cur < |ps|
    ensures |marks| == |ps| && marks[cur] == MarkFor(ps[cur], Elems(path), fixed, dead)
  {
  }

  /** The parent link of a stacked entry that is not genesis, as the walk sees it. */
  lemma ParentOf(mem: Memory, ps: seq<Ptr>, l: Links, g: Ptr, fixed: set<Ptr>, dead: set<Ptr>, cur: nat, path: seq<Ptr>)
    requires Elems(ps) <= mem.Keys && l == LinksOf(mem, Elems(ps)) && Settled(l, g, fixed, dead)
    requires cur < |ps| && ps[cur] !in fixed
    ensures ps[cur] in mem && Up(l, g, ps[cur]) == if mem[ps[cur]].pprev in ps then mem[ps[cur]].pprev else 0
    ensures 0 !in ps
  {
    assert ps[cur] in Elems(ps);
  }

  /** What the end of the walk says about the parent of its last entry. */
  ghost predicate Ended(l: Links, g: Ptr, path: seq<Ptr>, end: WalkEnd, at: nat, fixed: set<Ptr>, dead: set<Ptr>)
    requires path != []
  {
    var e := Up(l, g, path[|path| - 1]);
    match end
    case Joined => e in fixed
    case Dead => e in dead
    case Looped => at < |path| && e == path[at]
    case Dangling => e == 0
  }

  /** The upward walk from entry start: marks and stacks unknown entries until it meets one
      already marked or runs out of parents. */
  method Climb(mem: Memory, ps: seq<Ptr>, marks0: seq<Mark>, start: nat,
               ghost l: Links, ghost g: Ptr, ghost fixed: set<Ptr>, ghost dead: set<Ptr>)
    returns (marks: seq<Mark>, stack: seq<nat>, end: WalkEnd, ghost path: seq<Ptr>, ghost at: nat)
    requires Elems(ps) <= mem.Keys && l == LinksOf(mem, Elems(ps)) && Increasing(ps)
    requires Settled(l, g, fixed, dead) && start < |ps|
    requires MarksAgree(ps, marks0, {}, fixed, dead)
    ensures Climbing(l, g, ps, marks, stack, path, fixed, dead)
    ensures path == [] ==> (end == Joined && ps[start] in fixed) || (end == Dead && ps[start] in dead)
    ensures path != [] ==> path[0] == ps[start] && Ended(l, g, path, end, at, fixed, dead)
  {
    hide Climbing, Up, Settled, Increasing;
    marks, stack, path, at := marks0, [], [], 0;
    var cur: nat := start;
    ClimbStart(l, g, ps, marks, fixed, dead);
    MarkMeans(l, g, ps, marks, stack, path, fixed, dead, cur);
    while marks[cur] == Unknown
      invariant cur < |ps| == |marks|
      invariant Climbing(l, g, ps, marks, stack, path, fixed, dead)
      invariant path != [] ==> path[0] == ps[start] && ps[cur] == Up(l, g, path[|path| - 1])
      invariant path == [] ==> cur == start
      decreases l.Keys - Elems(path)
    {
      ClimbStep(l, g, ps, marks, stack, path, fixed, dead, cur);
      ElemsPush(path, ps[cur]);
      ParentOf(mem, ps, l, g, fixed, dead, cur, path);
      marks := marks[cur := Visiting];
      stack, path := stack + [cur], path + [ps[cur]];
      var pprev := mem[ps[cur]].pprev;
      if pprev == 0 {
        return marks, stack, Dangling, path, 0;
      }
      var parent := FindEntry(ps, pprev);
      if parent.None? {
        return marks, stack, Dangling, path, 0;
      }
      cur := parent.value;
      MarkMeans(l, g, ps, marks, stack, path, fixed, dead, cur);
    }
    MarkMeans(l, g, ps, marks, stack, path, fixed, dead, cur);
    end := if marks[cur] == Fixed then Joined else if marks[cur] == Unreachable then Dead else Looped;
    if end == Looped {
      at :| 0 <= at < |path| && path[at] == ps[cur];
    }
  }

  /** The record an entry gets from its parent on the way down. */
  function FromParent(n: Node, prev: Node, pow: Proof): Node {
    n.(height := prev.height + 1, work := Add256(prev.work, pow(n.bits)), chainTx := Add32(prev.chainTx, TxOf(n)))
  }

  /** One step down is one step of the labels. */
  lemma FromParentLabels(m0: Memory, m: Memory, pow: Proof, l: Links, g: Ptr, fixed: set<Ptr>, p: Ptr)
    requires WellRooted(l, g) && l.Keys <= m0.Keys && LabelsDone(m0, m, pow, l, g, fixed)
    requires p in l && p !in fixed && p != g && Up(l, g, p) in fixed
    ensures var m' := m[p := FromParent(m[p], m[Up(l, g, p)], pow)];
            LabelsDone(m0, m', pow, l, g, fixed + {p})
  {
    var q := Up(l, g, p);
    assert LabelOk(m0, m, pow, l, g, q);
    var h := m[q].height;
    assert Iter(l, g, p, h + 1) == g;
    assert FromParent(m[p], m[q], pow) == Labelled(m0, pow, l, g, p, h + 1);
    var m' := m[p := FromParent(m[p], m[q], pow)];
    forall r | r in fixed + {p} ensures LabelOk(m0, m', pow, l, g, r) {
      if r != p {
        assert LabelOk(m0, m, pow, l, g, r);
      }
    }
  }

  /** Relabelling one more entry moves the count by whether that label changed. */
  lemma ChangesStep(field: Node -> int, m0: Memory, m: Memory, s: set<Ptr>, p: Ptr, n: Node)
    requires p !in s && p in m && p in m0
    ensures |Changes(field, m0, m[p := n], s + {p})|
         == |Changes(field, m0, m, s)| + (if field(m0[p]) != field(n) then 1 else 0)
  {
    var c := Changes(field, m0, m, s);
    assert Changes(field, m0, m[p := n], s + {p}) == c + (if field(m0[p]) != field(n) then {p} else {});
    assert p !in c;
  }

  lemma CountsStep(m0: Memory, m: Memory, s: set<Ptr>, p: Ptr, n: Node, heights: nat, work: nat, tx: nat)
    requires Counts(m0, m, s, heights, work, tx) && p !in s && p in m && p in m0
    ensures Counts(m0, m[p := n], s + {p},
                   heights + (if m0[p].height != n.height then 1 else 0),
                   work + (if m0[p].work != n.work then 1 else 0),
                   tx + (if m0[p].chainTx != n.chainTx then 1 else 0))
  {
    ChangesStep(HeightOf, m0, m, s, p, n);
    ChangesStep(WorkOf, m0, m, s, p, n);
    ChangesStep(ChainTxOf, m0, m, s, p, n);
  }

  /** Marking the entry below the fixed part of the stack. */
  lemma DescendMarks(ps: seq<Ptr>, marks: seq<Mark>, path: seq<Ptr>, k: nat, done: set<Ptr>, dead: set<Ptr>)
    requires Increasing(ps) && k < |ps|
    requires MarksAgree(ps, marks, Elems(path), done, dead)
    ensures MarksAgree(ps, marks[k := Fixed], Elems(path), done + {ps[k]}, dead)
  {
    forall i | 0 <= i < |ps|
      ensures marks[k := Fixed][i] == MarkFor(ps[i], Elems(path), done + {ps[k]}, dead)
    {
      assert i != k ==> ps[i] != ps[k];
    }
  }

  /** On the way down the next entry is not fixed yet and its parent is. */
  lemma DescendNext(l: Links, g: Ptr, path: seq<Ptr>, ri: nat, fixed: set<Ptr>)
    requires WellRooted(l, g) && g in fixed && Walk(l, g, path) && NoDup(path) && 0 < ri <= |path|
    requires forall i :: 0 <= i < |path| ==> path[i] !in fixed
    requires Up(l, g, path[|path| - 1]) in fixed && fixed <= l.Keys
    ensures var fix := path[ri - 1];
            var done := fixed + Elems(path[ri..]);
            && fix in l && fix != g && fix !in done && Up(l, g, fix) in done && Up(l, g, fix) == l[fix]
            && fixed + Elems(path[ri - 1..]) == done + {fix}
  {
    var fix := path[ri - 1];
    assert path[ri - 1..] == [fix] + path[ri..];
    assert fix !in path[ri..];
    if ri < |path| {
      assert path[ri] == Up(l, g, fix) && path[ri] == path[ri..][0];
    }
  }

  /** Relabels one entry from its parent and counts the labels that were wrong. */
  method FixEntry(idx: BlockIndex, fix: Ptr, heights: nat, work: nat, tx: nat,
                  ghost m0: Memory, ghost l: Links, ghost g: Ptr, ghost done: set<Ptr>)
    returns (heights': nat, work': nat, tx': nat)
    requires WellRooted(l, g) && l.Keys <= m0.Keys && (forall p :: p in l ==> l[p] == m0[p].pprev)
    requires LabelsDone(m0, idx.mem, idx.pow, l, g, done)
    requires Counts(m0, idx.mem, done - {g}, heights, work, tx)
    requires fix in l && fix != g && fix !in done && Up(l, g, fix) in done && Up(l, g, fix) == l[fix]
    modifies idx`mem
    ensures LabelsDone(m0, idx.mem, idx.pow, l, g, done + {fix})
    ensures Counts(m0, idx.mem, done + {fix} - {g}, heights', work', tx')
  {
    var prev := idx.mem[fix].pprev;
    var next := FromParent(idx.mem[fix], idx.mem[prev], idx.pow);
    FromParentLabels(m0, idx.mem, idx.pow, l, g, done, fix);
    CountsStep(m0, idx.mem, done - {g}, fix, next, heights, work, tx);
    assert done - {g} + {fix} == done + {fix} - {g};
    heights' := if idx.mem[fix].height != next.height then heights + 1 else heights;
    work' := if idx.mem[fix].work != next.work then work + 1 else work;
    tx' := if idx.mem[fix].chainTx != next.chainTx then tx + 1 else tx;
    idx.mem := idx.mem[fix := next];
  }

  /** The downward pass over a stack whose top hangs off a fixed entry. */
  method Descend(idx: BlockIndex, ps: seq<Ptr>, marks0: seq<Mark>, stack: seq<nat>,
                 heights: nat, work: nat, tx: nat,
                 ghost m0: Memory, ghost l: Links, ghost g: Ptr, ghost fixed: set<Ptr>, ghost dead: set<Ptr>,
                 ghost path: seq<Ptr>)
    returns (marks: seq<Mark>, heights': nat, work': nat, tx': nat)
    requires Elems(ps) <= m0.Keys && l == LinksOf(m0, Elems(ps)) && Increasing(ps)
    requires Settled(l, g, fixed, dead) && LabelsDone(m0, idx.mem, idx.pow, l, g, fixed)
    requires Counts(m0, idx.mem, fixed - {g}, heights, work, tx)
    requires Climbing(l, g, ps, marks0, stack, path, fixed, dead)
    requires path != [] ==> Up(l, g, path[|path| - 1]) in fixed
    modifies idx`mem
    ensures MarksAgree(ps, marks, {}, fixed + Elems(path), dead)
    ensures LabelsDone(m0, idx.mem, idx.pow, l, g, fixed + Elems(path))
    ensures Counts(m0, idx.mem, fixed + Elems(path) - {g}, heights', work', tx')
  {
    marks, heights', work', tx' := marks0, heights, work, tx;
    var ri := |stack|;
    ghost var done := fixed;
    assert path[ri..] == [];
    while ri > 0
      invariant 0 <= ri <= |stack| && done == fixed + Elems(path[ri..])
      invariant MarksAgree(ps, marks, Elems(path), done, dead)
      invariant LabelsDone(m0, idx.mem, idx.pow, l, g, done)
      invariant Counts(m0, idx.mem, done - {g}, heights', work', tx')
    {
      DescendNext(l, g, path, ri, fixed);
      DescendMarks(ps, marks, path, stack[ri - 1], done, dead);
      heights', work', tx' := FixEntry(idx, ps[stack[ri - 1]], heights', work', tx', m0, l, g, done);
      marks := marks[stack[ri - 1] := Fixed];
      done := done + {path[ri - 1]};
      ri := ri - 1;
    }
    assert path[0..] == path;
    NoneOpen(ps, marks, Elems(path), done, dead);
  }

  /** Gives the whole stack up. */
  method Abandon(ps: seq<Ptr>, marks0: seq<Mark>, stack: seq<nat>,
                 ghost l: Links, ghost g: Ptr, ghost fixed: set<Ptr>, ghost dead: set<Ptr>, ghost path: seq<Ptr>)
    returns (marks: seq<Mark>)
    requires Increasing(ps) && Climbing(l, g, ps, marks0, stack, path, fixed, dead)
    ensures MarksAgree(ps, marks, {}, fixed, dead + Elems(path))
  {
    marks := marks0;
    var ri := 0;
    assert dead + Elems(path[..0]) == dead;
    while ri < |stack|
      invariant 0 <= ri <= |stack|
      invariant MarksAgree(ps, marks, Elems(path), fixed, dead + Elems(path[..ri]))
    {
      AbandonStep(ps, marks, stack, path, ri, fixed, dead);
      marks := marks[stack[ri] := Unreachable];
      ri := ri + 1;
    }
    assert path[..ri] == path;
    NoneOpen(ps, marks, Elems(path), fixed, dead + Elems(path));
  }

  lemma AbandonStep(ps: seq<Ptr>, marks: seq<Mark>, stack: seq<nat>, path: seq<Ptr>, ri: nat,
                    fixed: set<Ptr>, dead: set<Ptr>)
    requires Increasing(ps) && ri < |path| == |stack| && path[ri] !in fixed
    requires MarksAgree(ps, marks, Elems(path), fixed, dead + Elems(path[..ri]))
    requires stack[ri] < |ps| && ps[stack[ri]] == path[ri]
    ensures MarksAgree(ps, marks[stack[ri] := Unreachable], Elems(path), fixed, dead + Elems(path[..ri + 1]))
  {
    assert path[..ri + 1] == path[..ri] + [path[ri]];
    ElemsPush(path[..ri], path[ri]);
    forall i | 0 <= i < |ps|
      ensures marks[stack[ri] := Unreachable][i] == MarkFor(ps[i], Elems(path), fixed, dead + Elems(path[..ri + 1]))
    {
      assert i != stack[ri] ==> ps[i] != path[ri];
    }
  }

  /** Between two entries of the outer loop: what is settled, what it was relabelled to, and
      what the counters say. pushed lists every entry stacked so far. */
  ghost predicate Sweep(m0: Memory, m: Memory, pow: Proof, l: Links, g: Ptr, ps: seq<Ptr>, marks: seq<Mark>,
                        fixed: set<Ptr>, dead: set<Ptr>, pushed: seq<Ptr>, st: Stats)
  {
    && Settled(l, g, fixed, dead) && l.Keys <= m0.Keys
    && LabelsDone(m0, m, pow, l, g, fixed)
    && MarksAgree(ps, marks, {}, fixed, dead)
    && Counts(m0, m, fixed - {g}, st.heights, st.work, st.tx)
    && st.reachable == |fixed| && st.unresolved == |dead|
    && st.cycles == |CyclesIn(l, g, dead)|
    && NoDup(pushed) && Elems(pushed) == fixed + dead - {g}
  }

  /** Appending a fresh duplicate-free path to the pushed entries. */
  lemma PushedStep(pushed: seq<Ptr>, path: seq<Ptr>, g: Ptr, fixed: set<Ptr>, dead: set<Ptr>)
    requires NoDup(pushed) && Elems(pushed) == fixed + dead - {g} && NoDup(path) && g in fixed
    requires forall i :: 0 <= i < |path| ==> path[i] !in fixed && path[i] !in dead
    ensures NoDup(pushed + path)
    ensures Elems(pushed + path) == (fixed + Elems(path)) + dead - {g} == fixed + (dead + Elems(path)) - {g}
    ensures fixed !! dead ==> (fixed + Elems(path)) !! dead
    ensures |fixed + Elems(path)| == |fixed| + |path| && |dead + Elems(path)| == |dead| + |path|
  {
    NoDupCard(path);
    assert Elems(path) !! fixed && Elems(path) !! dead;
    forall i, j | 0 <= i < |pushed| && 0 <= j < |path| ensures pushed[i] != path[j] {
      assert pushed[i] in Elems(pushed);
    }
    assert Elems(pushed + path) == Elems(pushed) + Elems(path);
    assert (fixed + dead - {g}) + Elems(path) == (fixed + Elems(path)) + dead - {g};
    assert (fixed + dead - {g}) + Elems(path) == fixed + (dead + Elems(path)) - {g};
  }

  /** Giving up a walk keeps the dead entries parent-closed and counts its cycle, if any. */
  lemma AbandonCycles(l: Links, g: Ptr, fixed: set<Ptr>, dead: set<Ptr>, path: seq<Ptr>, end: WalkEnd, at: nat)
    requires Settled(l, g, fixed, dead) && Walk(l, g, path) && NoDup(path)
    requires forall i :: 0 <= i < |path| ==> path[i] !in fixed && path[i] !in dead
    requires end != Joined && (path == [] ==> end == Dead)
    requires path != [] ==> Ended(l, g, path, end, at, fixed, dead)
    ensures Settled(l, g, fixed, dead + Elems(path))
    ensures |CyclesIn(l, g, dead + Elems(path))| == |CyclesIn(l, g, dead)| + (if end == Looped then 1 else 0)
  {
    ExtendClosed(l, g, dead, path);
    WalkCycles(l, g, dead, path, end == Looped, at);
  }

  /** One turn of the outer loop. */
  method SweepEntry(idx: BlockIndex, ps: seq<Ptr>, marks0: seq<Mark>, i: nat, st0: Stats,
                    ghost m0: Memory, ghost l: Links, ghost g: Ptr,
                    ghost fixed0: set<Ptr>, ghost dead0: set<Ptr>, ghost pushed0: seq<Ptr>)
    returns (marks: seq<Mark>, st: Stats, ghost fixed: set<Ptr>, ghost dead: set<Ptr>, ghost pushed: seq<Ptr>)
    requires Increasing(ps) && Elems(ps) <= m0.Keys && l == LinksOf(m0, Elems(ps)) && i < |ps|
    requires Sweep(m0, idx.mem, idx.pow, l, g, ps, marks0, fixed0, dead0, pushed0, st0)
    modifies idx`mem
    ensures Sweep(m0, idx.mem, idx.pow, l, g, ps, marks, fixed, dead, pushed, st)
    ensures fixed0 + dead0 + {ps[i]} <= fixed + dead
  {
    hide Counts, CyclesIn, LabelsDone, Climbing, Ended, Settled, MarksAgree, Sweep, Elems, LinksOf, Increasing, Up, NoDup, Walk;
    marks, st, fixed, dead, pushed := marks0, st0, fixed0, dead0, pushed0;
    SweepParts(m0, idx.mem, idx.pow, l, g, ps, marks, fixed, dead, pushed, st);
    MarkedFixed(ps, marks, fixed, dead, i);
    if marks[i] == Fixed {
      return;
    }
    var stack, end;
    ghost var path, at;
    LinksSettled(m0, idx.mem, idx.pow, l, g, fixed, dead, Elems(ps));
    marks, stack, end, path, at := Climb(idx.mem, ps, marks, i, l, g, fixed, dead);
    ClimbedWalk(l, g, ps, marks, stack, path, fixed, dead);
    FirstIn(path);
    ghost var m := idx.mem;
    if end == Joined {
      JoinedParent(l, g, path, end, at, fixed, dead);
      var heights, work, tx;
      marks, heights, work, tx := Descend(idx, ps, marks, stack, st.heights, st.work, st.tx, m0, l, g, fixed, dead, path);
      SweepJoined(m0, m, idx.mem, idx.pow, l, g, ps, marks0, marks, fixed, dead, pushed, st, path, heights, work, tx);
      fixed := fixed + Elems(path);
      st := st.(reachable := st.reachable + |stack|, heights := heights, work := work, tx := tx);
    } else {
      marks := Abandon(ps, marks, stack, l, g, fixed, dead, path);
      SweepAbandoned(m0, m, idx.pow, l, g, ps, marks0, marks, fixed, dead, pushed, st, path, end, at);
      dead := dead + Elems(path);
      st := st.(unresolved := st.unresolved + |stack|, cycles := st.cycles + (if end == Looped then 1 else 0));
    }
    pushed := pushed + path;
  }

  lemma SweepParts(m0: Memory, m: Memory, pow: Proof, l: Links, g: Ptr, ps: seq<Ptr>, marks: seq<Mark>,
                   fixed: set<Ptr>, dead: set<Ptr>, pushed: seq<Ptr>, st: Stats)
    requires Sweep(m0, m, pow, l, g, ps, marks, fixed, dead, pushed, st)
    ensures Settled(l, g, fixed, dead) && l.Keys <= m0.Keys && WellRooted(l, g) && LabelsDone(m0, m, pow, l, g, fixed)
    ensures MarksAgree(ps, marks, {}, fixed, dead) && Counts(m0, m, fixed - {g}, st.heights, st.work, st.tx)
  {
  }

  lemma FirstIn(path: seq<Ptr>)
    ensures path != [] ==> path[0] in Elems(path)
  {
  }

  lemma MarkedFixed(ps: seq<Ptr>, marks: seq<Mark>, fixed: set<Ptr>, dead: set<Ptr>, i: nat)
    requires MarksAgree(ps, marks, {}, fixed, dead) && i < |ps|
    ensures |marks| == |ps| && (marks[i] == Fixed <==> ps[i] in fixed)
  {
  }

  lemma LinksSettled(m0: Memory, m: Memory, pow: Proof, l: Links, g: Ptr, fixed: set<Ptr>, dead: set<Ptr>, es: set<Ptr>)
    requires Settled(l, g, fixed, dead) && l.Keys <= m0.Keys && es <= m0.Keys && LabelsDone(m0, m, pow, l, g, fixed)
    ensures es <= m.Keys && LinksOf(m, es) == LinksOf(m0, es)
  {
    LinksKept(m0, m, pow, l, g, fixed, es);
  }

  /** The walk is duplicate-free, as long as the stack, and meets nothing settled. */
  lemma ClimbedWalk(l: Links, g: Ptr, ps: seq<Ptr>, marks: seq<Mark>, stack: seq<nat>, path: seq<Ptr>,
                    fixed: set<Ptr>, dead: set<Ptr>)
    requires Climbing(l, g, ps, marks, stack, path, fixed, dead)
    ensures |path| == |stack| && Walk(l, g, path) && NoDup(path)
    ensures forall i :: 0 <= i < |path| ==> path[i] !in fixed && path[i] !in dead
  {
  }

  lemma JoinedParent(l: Links, g: Ptr, path: seq<Ptr>, end: WalkEnd, at: nat, fixed: set<Ptr>, dead: set<Ptr>)
    requires end == Joined && (path != [] ==> Ended(l, g, path, end, at, fixed, dead))
    ensures path != [] ==> Up(l, g, path[|path| - 1]) in fixed
  {
  }

  /** A walk that joined a fixed entry and was labelled down keeps the sweep going. */
  lemma SweepJoined(m0: Memory, m: Memory, m': Memory, pow: Proof, l: Links, g: Ptr, ps: seq<Ptr>,
                    marks: seq<Mark>, marks': seq<Mark>, fixed: set<Ptr>, dead: set<Ptr>, pushed: seq<Ptr>, st: Stats,
                    path: seq<Ptr>, heights: nat, work: nat, tx: nat)
    requires Sweep(m0, m, pow, l, g, ps, marks, fixed, dead, pushed, st) && Walk(l, g, path) && NoDup(path)
    requires forall i :: 0 <= i < |path| ==> path[i] !in fixed && path[i] !in dead
    requires MarksAgree(ps, marks', {}, fixed + Elems(path), dead) && LabelsDone(m0, m', pow, l, g, fixed + Elems(path))
    requires Counts(m0, m', fixed + Elems(path) - {g}, heights, work, tx)
    ensures Sweep(m0, m', pow, l, g, ps, marks', fixed + Elems(path), dead, pushed + path,
                  st.(reachable := st.reachable + |path|, heights := heights, work := work, tx := tx))
  {
    hide Counts, CyclesIn, LabelsDone, MarksAgree, Closed, WellRooted;
    PushedStep(pushed, path, g, fixed, dead);
    WalkIndexed(l, g, path);
  }

  lemma WalkIndexed(l: Links, g: Ptr, path: seq<Ptr>)
    requires Walk(l, g, path)
    ensures Elems(path) <= l.Keys
  {
  }

  /** A walk that was given up keeps it going too. */
  lemma SweepAbandoned(m0: Memory, m: Memory, pow: Proof, l: Links, g: Ptr, ps: seq<Ptr>,
                       marks: seq<Mark>, marks': seq<Mark>, fixed: set<Ptr>, dead: set<Ptr>, pushed: seq<Ptr>, st: Stats,
                       path: seq<Ptr>, end: WalkEnd, at: nat)
    requires Sweep(m0, m, pow, l, g, ps, marks, fixed, dead, pushed, st) && Walk(l, g, path) && NoDup(path)
    requires forall i :: 0 <= i < |path| ==> path[i] !in fixed && path[i] !in dead
    requires MarksAgree(ps, marks', {}, fixed, dead + Elems(path))
    requires end != Joined && (path == [] ==> end == Dead) && (path != [] ==> Ended(l, g, path, end, at, fixed, dead))
    ensures Sweep(m0, m, pow, l, g, ps, marks', fixed, dead + Elems(path), pushed + path,
                  st.(unresolved := st.unresolved + |path|, cycles := st.cycles + (if end == Looped then 1 else 0)))
  {
    hide Counts, CyclesIn, LabelsDone, MarksAgree, Settled, Ended;
    assert g in fixed by { GenesisFixed(l, g, fixed, dead); }
    PushedStep(pushed, path, g, fixed, dead);
    AbandonCycles(l, g, fixed, dead, path, end, at);
  }

  lemma GenesisFixed(l: Links, g: Ptr, fixed: set<Ptr>, dead: set<Ptr>)
    requires Settled(l, g, fixed, dead)
    ensures g in fixed
  {
  }

  /** Relabelling moves no parent link. */
  lemma LinksKept(m0: Memory, m: Memory, pow: Proof, l: Links, g: Ptr, fixed: set<Ptr>, es: set<Ptr>)
    requires WellRooted(l, g) && l.Keys <= m0.Keys && es <= m0.Keys && LabelsDone(m0, m, pow, l, g, fixed)
    ensures es <= m.Keys && LinksOf(m, es) == LinksOf(m0, es)
  {
    forall p | p in es ensures m[p].pprev == m0[p].pprev {
      if p in fixed {
        assert LabelOk(m0, m, pow, l, g, p);
      }
    }
  }

  /** The entries of the block map. */
  function Entries(table: map<Hash, Ptr>): set<Ptr> {
    set h | h in table :: table[h]
  }

  lemma EntriesIndexed(mem: Memory, table: map<Hash, Ptr>)
    requires ValidIndex(mem, table)
    ensures Entries(table) <= mem.Keys && 0 !in Entries(table)
  {
  }

  ghost function RootedEntries(l: Links, g: Ptr): set<Ptr> {
    set p | p in l && Rooted(l, g, p)
  }

  /** What the whole recompute promises, from the memory before to the memory after. */
  ghost predicate RecomputeDone(m0: Memory, m: Memory, pow: Proof, es: set<Ptr>, g: Ptr, st: Stats, pushed: seq<Ptr>)
    requires es <= m0.Keys && 0 !in es && g in es
  {
    var l := LinksOf(m0, es);
    && m == Recomputed(m0, pow, es, g)
    && st.reachable == |RootedEntries(l, g)|
    && st.reachable + st.unresolved == |es|
    && st.cycles == |CyclesIn(l, g, es)|
    && Counts(m0, m, RootedEntries(l, g) - {g}, st.heights, st.work, st.tx)
    && NoDup(pushed) && Elems(pushed) == es - {g}
  }

  /** The sweep starts with genesis alone, labelled. */
  lemma SweepStart(m0: Memory, pow: Proof, ps: seq<Ptr>, gi: nat, marks: seq<Mark>, st: Stats)
    requires Increasing(ps) && Elems(ps) <= m0.Keys && 0 !in Elems(ps) && gi < |ps| == |marks|
    requires forall i :: 0 <= i < |ps| ==> marks[i] == if i == gi then Fixed else Unknown
    requires st == Stats(1, 0, 0, 0, 0, 0)
    ensures var g := ps[gi]; var l := LinksOf(m0, Elems(ps));
            g in m0 && Sweep(m0, m0[g := m0[g].(height := 0, work := pow(m0[g].bits), chainTx := GenesisTx(m0[g]))],
                             pow, l, g, ps, marks, {g}, {}, [], st)
  {
    var g := ps[gi];
    var l := LinksOf(m0, Elems(ps));
    assert g in l;
    var m := m0[g := m0[g].(height := 0, work := pow(m0[g].bits), chainTx := GenesisTx(m0[g]))];
    assert Iter(l, g, g, 0) == g;
    assert LabelOk(m0, m, pow, l, g, g);
    forall i | 0 <= i < |ps| ensures marks[i] == MarkFor(ps[i], {}, {g}, {}) {
      assert i != gi ==> ps[i] != g;
    }
    assert {g} - {g} == {} && CyclesIn(l, g, {}) == {} && {g} + {} - {g} == {};
    assert Changes(HeightOf, m0, m, {}) == {} && Changes(WorkOf, m0, m, {}) == {} && Changes(ChainTxOf, m0, m, {}) == {};
  }

  /** With every entry settled, the fixed ones are exactly the rooted ones. */
  lemma FixedAreRooted(m0: Memory, m: Memory, pow: Proof, l: Links, g: Ptr, fixed: set<Ptr>, dead: set<Ptr>)
    requires Settled(l, g, fixed, dead) && l.Keys <= m0.Keys && LabelsDone(m0, m, pow, l, g, fixed)
    requires fixed + dead == l.Keys
    ensures fixed == RootedEntries(l, g)
  {
    forall p | p in l ensures p in fixed <==> Rooted(l, g, p) {
      if p in fixed {
        assert LabelOk(m0, m, pow, l, g, p);
      } else {
        ClosedUnrooted(l, g, dead, p);
      }
    }
  }

  lemma LabelsComplete(m0: Memory, m: Memory, pow: Proof, es: set<Ptr>, g: Ptr)
    requires es <= m0.Keys && 0 !in es && g in es
    requires var l := LinksOf(m0, es); LabelsDone(m0, m, pow, l, g, RootedEntries(l, g))
    ensures m == Recomputed(m0, pow, es, g)
  {
    var l := LinksOf(m0, es);
    forall p | p in m0 ensures m[p] == Recomputed(m0, pow, es, g)[p] {
      if p in RootedEntries(l, g) {
        assert LabelOk(m0, m, pow, l, g, p);
        DistanceUnique(l, g, p, m[p].height, Distance(l, g, p));
      }
    }
  }

  lemma SweepComplete(m0: Memory, m: Memory, pow: Proof, l: Links, g: Ptr, ps: seq<Ptr>, marks: seq<Mark>,
                      fixed: set<Ptr>, dead: set<Ptr>, pushed: seq<Ptr>, st: Stats)
    requires Elems(ps) <= m0.Keys && l == LinksOf(m0, Elems(ps))
    requires Sweep(m0, m, pow, l, g, ps, marks, fixed, dead, pushed, st)
    requires Elems(ps[..|ps|]) <= fixed + dead
    ensures RecomputeDone(m0, m, pow, Elems(ps), g, st, pushed)
  {
    assert ps[..|ps|] == ps && l.Keys == Elems(ps);
    assert fixed + dead == l.Keys;
    FixedAreRooted(m0, m, pow, l, g, fixed, dead);
    LabelsComplete(m0, m, pow, Elems(ps), g);
    CyclesAreDead(l, g, fixed, dead);
    assert |fixed + dead| == |fixed| + |dead|;
    assert fixed + dead == Elems(ps);
  }

  lemma CyclesAreDead(l: Links, g: Ptr, fixed: set<Ptr>, dead: set<Ptr>)
    requires WellRooted(l, g) && fixed + dead == l.Keys && fixed == RootedEntries(l, g)
    ensures CyclesIn(l, g, l.Keys) == CyclesIn(l, g, dead)
  {
    forall p | p in fixed ensures !OnCycle(l, g, p) {
      RootedNotOnCycle(l, g, p);
    }
  }

  /** The entry array holds one entry whose hash is genesis, if the map does. */
  method FindGenesis(mem: Memory, ps: seq<Ptr>, genesis: Hash) returns (r: Option<nat>)
    requires forall i :: 0 <= i < |ps| ==> ps[i] in mem
    ensures r.None? ==> forall i :: 0 <= i < |ps| ==> mem[ps[i]].hash != genesis
    ensures r.Some? ==> r.value < |ps| && mem[ps[r.value]].hash == genesis
  {
    for i := 0 to |ps|
      invariant forall j :: 0 <= j < i ==> mem[ps[j]].hash != genesis
    {
      if mem[ps[i]].hash == genesis {
        return Some(i);
      }
    }
    return None;
  }

  /** recompute_index_from_genesis. Without genesis nothing happens; with it the memory
      becomes Recomputed of what it was, every other entry is stacked exactly once, and the
      statistics are exact. */
  method RecomputeFromGenesis(idx: BlockIndex, genesis: Hash)
    returns (changed: nat, st: Stats, ghost pushed: seq<Ptr>)
    requires idx.Valid()
    modifies idx`mem
    ensures genesis !in idx.table ==> idx.mem == old(idx.mem) && changed == 0
    ensures genesis in idx.table ==>
              && Entries(idx.table) <= old(idx.mem).Keys && 0 !in Entries(idx.table)
              && RecomputeDone(old(idx.mem), idx.mem, idx.pow, Entries(idx.table), idx.table[genesis], st, pushed)
              && changed == st.heights + st.work + st.tx
              && CarriesSums(old(idx.mem), idx.mem, idx.pow, Entries(idx.table), idx.table[genesis])
  {
    hide Recomputed, CarriesSums;
    changed, st, pushed := 0, Stats(1, 0, 0, 0, 0, 0), [];
    EntriesIndexed(idx.mem, idx.table);
    var ps := SortPointers(Entries(idx.table));
    assert forall i :: 0 <= i < |ps| ==> ps[i] in Elems(ps);
    assert genesis in idx.table ==> idx.table[genesis] in Elems(ps);
    var gi := FindGenesis(idx.mem, ps, genesis);
    if gi.None? {
      return;
    }
    assert ps[gi.value] in Entries(idx.table);
    st, pushed := SweepAll(idx, ps, gi.value);
    changed := st.heights + st.work + st.tx;
    RecomputedSums(old(idx.mem), idx.pow, Elems(ps), ps[gi.value]);
  }

  /** In plain numbers: an entry k links above genesis is at height k, its work is the sum of the k + 1
      proofs modulo 2^256, and its count that of genesis plus the k blocks' transactions, at least one
      each, modulo 2^32. */
  ghost predicate CarriesSums(m0: Memory, m: Memory, pow: Proof, es: set<Ptr>, g: Ptr)
    requires es <= m0.Keys && 0 !in es && g in es
  {
    forall p, k: nat :: p in es && Iter(LinksOf(m0, es), g, p, k) == g ==>
      && p in m && m[p].height == k
      && m[p].work == ProofAlong(m0, pow, p, k + 1) % WORK_MODULUS
      && m[p].chainTx ==
           ((if m0[g].chainTx != 0 then m0[g].chainTx else if m0[g].nTx > 0 then m0[g].nTx else 1) + TxAlong(m0, p, k))
           % 0x1_0000_0000
  }

  lemma RecomputedSums(m: Memory, pow: Proof, es: set<Ptr>, g: Ptr)
    requires es <= m.Keys && 0 !in es && g in es
    ensures CarriesSums(m, Recomputed(m, pow, es, g), pow, es, g)
  {
    hide WorkSum, TxSum;
    var l, m1 := LinksOf(m, es), Recomputed(m, pow, es, g);
    forall p, k: nat | p in es && Iter(l, g, p, k) == g
      ensures m1[p].height == k && m1[p].work == WorkSum(m, pow, l, g, p, k) && m1[p].chainTx == TxSum(m, l, g, p, k)
    {
      DistanceUnique(l, g, p, k, Distance(l, g, p));
    }
    forall p, k: nat | p in es && Iter(l, g, p, k) == g
      ensures WorkSum(m, pow, l, g, p, k) == ProofAlong(m, pow, p, k + 1) % WORK_MODULUS
      ensures TxSum(m, l, g, p, k) ==
                ((if m[g].chainTx != 0 then m[g].chainTx else if m[g].nTx > 0 then m[g].nTx else 1) + TxAlong(m, p, k))
                % 0x1_0000_0000
    {
      TxSumIs(m, l, g, p, k);
      WorkSumIs(m, pow, l, g, p, k);
    }
  }

  /** The sweep over the sorted entries, genesis at position gi. */
  method SweepAll(idx: BlockIndex, ps: seq<Ptr>, gi: nat) returns (st: Stats, ghost pushed: seq<Ptr>)
    requires Increasing(ps) && Elems(ps) <= idx.mem.Keys && 0 !in Elems(ps) && gi < |ps|
    modifies idx`mem
    ensures ps[gi] in Elems(ps)
    ensures RecomputeDone(old(idx.mem), idx.mem, idx.pow, Elems(ps), ps[gi], st, pushed)
  {
    var g := ps[gi];
    st, pushed := Stats(1, 0, 0, 0, 0, 0), [];
    ghost var m0 := idx.mem;
    var marks := seq(|ps|, i requires 0 <= i < |ps| => if i == gi then Fixed else Unknown);
    SweepStart(m0, idx.pow, ps, gi, marks, st);
    idx.mem := idx.mem[g := idx.mem[g].(height := 0, work := idx.pow(idx.mem[g].bits), chainTx := GenesisTx(idx.mem[g]))];
    st, pushed := SweepLoop(idx, ps, marks, st, m0, LinksOf(m0, Elems(ps)), g);
  }

  method SweepLoop(idx: BlockIndex, ps: seq<Ptr>, marks0: seq<Mark>, st0: Stats,
                   ghost m0: Memory, ghost l: Links, ghost g: Ptr)
    returns (st: Stats, ghost pushed: seq<Ptr>)
    requires Increasing(ps) && Elems(ps) <= m0.Keys && l == LinksOf(m0, Elems(ps)) && g in Elems(ps) && 0 !in Elems(ps)
    requires Sweep(m0, idx.mem, idx.pow, l, g, ps, marks0, {g}, {}, [], st0)
    modifies idx`mem
    ensures RecomputeDone(m0, idx.mem, idx.pow, Elems(ps), g, st, pushed)
  {
    var marks := marks0;
    st, pushed := st0, [];
    ghost var fixed, dead, settled := {g}, {}, {};
    for i := 0 to |ps|
      invariant Sweep(m0, idx.mem, idx.pow, l, g, ps, marks, fixed, dead, pushed, st)
      invariant Elems(ps[..i]) == settled && settled <= fixed + dead
    {
      PrefixElems(ps, i);
      settled := settled + {ps[i]};
      marks, st, fixed, dead, pushed := SweepEntry(idx, ps, marks, i, st, m0, l, g, fixed, dead, pushed);
    }
    SweepComplete(m0, idx.mem, idx.pow, l, g, ps, marks, fixed, dead, pushed, st);
  }

  /** The two memories agree on everything the recompute reads: links, nBits, nTx, and the
      transaction count genesis starts from. Heights, work and the other counts may differ. */
  ghost predicate SameStructure(m1: Memory, m2: Memory, es: set<Ptr>, g: Ptr)
    requires es <= m1.Keys && es <= m2.Keys && g in es
  {
    && (forall p :: p in es ==> m1[p].pprev == m2[p].pprev && m1[p].bits == m2[p].bits && m1[p].nTx == m2[p].nTx)
    && GenesisTx(m1[g]) == GenesisTx(m2[g])
  }

  lemma {:induction false} SumsIgnoreLabels(m1: Memory, m2: Memory, pow: Proof, es: set<Ptr>, g: Ptr, p: Ptr, k: nat)
    requires es <= m1.Keys && es <= m2.Keys && 0 !in es && g in es && p in es
    requires SameStructure(m1, m2, es, g)
    requires Iter(LinksOf(m1, es), g, p, k) == g
    ensures LinksOf(m1, es) == LinksOf(m2, es)
    ensures WorkSum(m1, pow, LinksOf(m1, es), g, p, k) == WorkSum(m2, pow, LinksOf(m2, es), g, p, k)
    ensures TxSum(m1, LinksOf(m1, es), g, p, k) == TxSum(m2, LinksOf(m2, es), g, p, k)
    decreases k
  {
    var l := LinksOf(m1, es);
    assert l == LinksOf(m2, es);
    if k == 0 {
    } else {
      Chained(l, g, p, k);
      SumsIgnoreLabels(m1, m2, pow, es, g, l[p], k - 1);
    }
  }

  /** The labels a recompute writes do not depend on the labels it finds. */
  lemma RecomputeIgnoresLabels(m1: Memory, m2: Memory, pow: Proof, es: set<Ptr>, g: Ptr, p: Ptr)
    requires es <= m1.Keys && es <= m2.Keys && 0 !in es && g in es && p in es
    requires SameStructure(m1, m2, es, g)
    ensures Rooted(LinksOf(m1, es), g, p) <==> Rooted(LinksOf(m2, es), g, p)
    ensures Rooted(LinksOf(m1, es), g, p) ==>
              var n1, n2 := Recomputed(m1, pow, es, g)[p], Recomputed(m2, pow, es, g)[p];
              n1.height == n2.height && n1.work == n2.work && n1.chainTx == n2.chainTx
  {
    assert LinksOf(m1, es) == LinksOf(m2, es);
    if Rooted(LinksOf(m1, es), g, p) {
      SumsIgnoreLabels(m1, m2, pow, es, g, p, Distance(LinksOf(m1, es), g, p));
    }
  }

  /** A second recompute changes nothing. */
  lemma RecomputeIdempotent(m: Memory, pow: Proof, es: set<Ptr>, g: Ptr)
    requires es <= m.Keys && 0 !in es && g in es
    ensures Recomputed(Recomputed(m, pow, es, g), pow, es, g) == Recomputed(m, pow, es, g)
  {
    var m1 := Recomputed(m, pow, es, g);
    GenesisLabels(m, pow, es, g);
    assert LinksOf(m1, es) == LinksOf(m, es);
    forall p | p in m ensures Recomputed(m1, pow, es, g)[p] == m1[p] {
      if p in es {
        RecomputeIgnoresLabels(m1, m, pow, es, g, p);
      }
    }
  }

  lemma GenesisLabels(m: Memory, pow: Proof, es: set<Ptr>, g: Ptr)
    requires es <= m.Keys && 0 !in es && g in es
    ensures Recomputed(m, pow, es, g)[g] == m[g].(height := 0, work := pow(m[g].bits), chainTx := GenesisTx(m[g]))
    ensures Rooted(LinksOf(m, es), g, g)
  {
    var l := LinksOf(m, es);
    assert Iter(l, g, g, 0) == g;
    DistanceUnique(l, g, g, Distance(l, g, g), 0);
  }

  lemma RecomputeStep(m: Memory, pow: Proof, es: set<Ptr>, g: Ptr, p: Ptr)
    requires es <= m.Keys && 0 !in es && g in es && p in es && p != g
    requires Rooted(LinksOf(m, es), g, p)
    ensures m[p].pprev in es && Rooted(LinksOf(m, es), g, m[p].pprev)
    ensures var m1 := Recomputed(m, pow, es, g); m1[p] == FromParent(m[p], m1[m[p].pprev], pow)
  {
    var l := LinksOf(m, es);
    var k := Distance(l, g, p);
    Chained(l, g, p, k);
    DistanceUnique(l, g, l[p], Distance(l, g, l[p]), k - 1);
  }

  /** After a recompute every rooted entry above genesis follows from its parent. */
  lemma RecomputeEquations(m: Memory, pow: Proof, es: set<Ptr>, g: Ptr, p: Ptr)
    requires es <= m.Keys && 0 !in es && g in es && p in es && p != g
    requires Rooted(LinksOf(m, es), g, p)
    ensures m[p].pprev in es && Rooted(LinksOf(m, es), g, m[p].pprev)
    ensures var m1 := Recomputed(m, pow, es, g);
            var n, q := m1[p], m1[m[p].pprev];
            && n == m[p].(height := n.height, work := n.work, chainTx := n.chainTx)
            && n.height == q.height + 1
            && n.work == (q.work + pow(m[p].bits)) % WORK_MODULUS
            && n.chainTx == (q.chainTx + if m[p].nTx > 0 then m[p].nTx else 1) % 0x1_0000_0000
  {
    hide Rooted, Recomputed;
    RecomputeStep(m, pow, es, g, p);
  }
}
