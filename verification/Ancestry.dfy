/** The pprev graph of the block index, as a value.

    Every entry has at most one parent, so the graph is a functional graph: it may hold
    cycles, and a parent link may leave the index. Addresses stand for block_index
    pointers and 0 for NULL. */
module Ancestry {
  import opened Common

  type Ptr = nat

  /** Parent link of every indexed entry. The target need not be indexed. */
  type Links = map<Ptr, Ptr>

  ghost predicate WellRooted(l: Links, g: Ptr) {
    0 !in l && g in l
  }

  /** One hop towards genesis g: 0 when the walk stands on genesis, has no parent, or
      the parent is not indexed. */
  function Up(l: Links, g: Ptr, p: Ptr): Ptr {
    if p == g || p !in l || l[p] !in l then 0 else l[p]
  }

  function Iter(l: Links, g: Ptr, p: Ptr, k: nat): Ptr
    decreases k
  {
    if k == 0 then p else Iter(l, g, Up(l, g, p), k - 1)
  }

  /** p's parent chain leads to genesis through indexed entries. */
  ghost predicate Rooted(l: Links, g: Ptr, p: Ptr) {
    exists k: nat :: Iter(l, g, p, k) == g
  }

  ghost predicate OnCycle(l: Links, g: Ptr, p: Ptr) {
    exists k: nat :: Iter(l, g, Up(l, g, p), k) == p
  }

  /** The entries met on the walk from p, p included. */
  ghost function Orbit(l: Links, g: Ptr, p: Ptr): set<Ptr> {
    set q | q in l && exists k: nat :: Iter(l, g, p, k) == q
  }

  /** The distinct pprev cycles that do not pass through genesis, among the entries of s. */
  ghost function CyclesIn(l: Links, g: Ptr, s: set<Ptr>): set<set<Ptr>> {
    set p | p in s && OnCycle(l, g, p) :: Orbit(l, g, p)
  }

  ghost predicate Closed(l: Links, g: Ptr, s: set<Ptr>) {
    forall p :: p in s && Up(l, g, p) != 0 ==> Up(l, g, p) in s
  }

  /** A walk: each entry is the parent of the one before. */
  ghost predicate Walk(l: Links, g: Ptr, path: seq<Ptr>) {
    && (forall i :: 0 <= i < |path| ==> path[i] in l)
    && (forall i :: 0 < i < |path| ==> path[i] == Up(l, g, path[i - 1]))
  }

  ghost function Elems<T>(s: seq<T>): set<T> {
    set x | x in s
  }

  lemma {:induction false} IterNull(l: Links, g: Ptr, k: nat)
    requires WellRooted(l, g)
    ensures Iter(l, g, 0, k) == 0
  {
    if k == 0 {
    } else {
      IterNull(l, g, k - 1);
    }
  }

  lemma {:induction false} IterSum(l: Links, g: Ptr, p: Ptr, a: nat, b: nat)
    ensures Iter(l, g, p, a + b) == Iter(l, g, Iter(l, g, p, a), b)
    decreases a
  {
    if a == 0 {
    } else {
      IterSum(l, g, Up(l, g, p), a - 1, b);
    }
  }

  /** Genesis is met once: the distance of a rooted entry is unique. */
  lemma {:induction false} DistanceUnique(l: Links, g: Ptr, p: Ptr, a: nat, b: nat)
    requires WellRooted(l, g)
    requires Iter(l, g, p, a) == g && Iter(l, g, p, b) == g
    ensures a == b
  {
    if a < b {
      IterSum(l, g, p, a, b - a);
      IterNull(l, g, b - a - 1);
    } else if b < a {
      IterSum(l, g, p, b, a - b);
      IterNull(l, g, a - b - 1);
    }
  }

  lemma {:induction false} ClosedKeeps(l: Links, g: Ptr, s: set<Ptr>, p: Ptr, k: nat)
    requires WellRooted(l, g) && Closed(l, g, s) && p in s
    ensures Iter(l, g, p, k) == 0 || Iter(l, g, p, k) in s
    decreases k
  {
    if k == 0 {
    } else {
      if Up(l, g, p) == 0 {
        IterNull(l, g, k - 1);
      } else {
        ClosedKeeps(l, g, s, Up(l, g, p), k - 1);
      }
    }
  }

  /** A parent-closed set without genesis holds no rooted entry. */
  lemma ClosedUnrooted(l: Links, g: Ptr, s: set<Ptr>, p: Ptr)
    requires WellRooted(l, g) && Closed(l, g, s) && p in s && g !in s
    ensures !Rooted(l, g, p)
  {
    forall k: nat ensures Iter(l, g, p, k) != g {
      ClosedKeeps(l, g, s, p, k);
    }
  }

  /** An entry whose walk enters a parent-closed set that does not hold it is on no cycle. */
  lemma OutsideClosedNotOnCycle(l: Links, g: Ptr, s: set<Ptr>, p: Ptr)
    requires WellRooted(l, g) && Closed(l, g, s) && p in l && p !in s
    requires Up(l, g, p) == 0 || Up(l, g, p) in s
    ensures !OnCycle(l, g, p)
  {
    forall k: nat ensures Iter(l, g, Up(l, g, p), k) != p {
      if Up(l, g, p) == 0 {
        IterNull(l, g, k);
      } else {
        ClosedKeeps(l, g, s, Up(l, g, p), k);
      }
    }
  }

  lemma {:induction false} WalkIter(l: Links, g: Ptr, path: seq<Ptr>, i: nat, k: nat)
    requires Walk(l, g, path) && i + k < |path|
    ensures Iter(l, g, path[i], k) == path[i + k]
    decreases k
  {
    if k == 0 {
    } else {
      assert path[i + 1] == Up(l, g, path[i]);
      WalkIter(l, g, path, i + 1, k - 1);
    }
  }

  /** Appending a walk to a parent-closed set it leads into leaves a parent-closed set. */
  lemma ExtendClosed(l: Links, g: Ptr, s: set<Ptr>, path: seq<Ptr>)
    requires Closed(l, g, s) && Walk(l, g, path)
    requires |path| > 0 ==> var e := Up(l, g, path[|path| - 1]); e == 0 || e in s || e in path
    ensures Closed(l, g, s + Elems(path))
  {
    forall p | p in s + Elems(path) && Up(l, g, p) != 0
      ensures Up(l, g, p) in s + Elems(path)
    {
      if p !in s {
        var i :| 0 <= i < |path| && path[i] == p;
        if i + 1 < |path| {
          assert path[i + 1] == Up(l, g, path[i]);
        }
      }
    }
  }

  /** A walk that ends outside the index or in a parent-closed set s meets no new cycle. */
  lemma {:induction false} StraightWalkNoCycle(l: Links, g: Ptr, s: set<Ptr>, path: seq<Ptr>, i: nat)
    requires WellRooted(l, g) && Closed(l, g, s) && Walk(l, g, path) && NoDup(path)
    requires i < |path|
    requires forall p :: p in path ==> p !in s
    requires var e := Up(l, g, path[|path| - 1]); e == 0 || e in s
    ensures !OnCycle(l, g, path[i])
  {
    var rest := path[i + 1..];
    ExtendClosed(l, g, s, rest);
    var t := s + Elems(rest);
    if i + 1 < |path| {
      assert path[i + 1] == Up(l, g, path[i]) && rest[0] == path[i + 1];
    }
    OutsideClosedNotOnCycle(l, g, t, path[i]);
  }

  /** A walk that bites its own tail at position j: the tail is one cycle, and every entry
      of the tail has it for its orbit. */
  lemma LassoOrbit(l: Links, g: Ptr, path: seq<Ptr>, j: nat, i: nat)
    requires WellRooted(l, g) && Walk(l, g, path)
    requires j <= i < |path| && Up(l, g, path[|path| - 1]) == path[j]
    ensures OnCycle(l, g, path[i])
    ensures Orbit(l, g, path[i]) == Elems(path[j..])
  {
    var n := |path|;
    var tail := path[j..];
    assert Up(l, g, path[n - 1]) in tail;
    ExtendClosed(l, g, {}, tail);
    assert Closed(l, g, Elems(tail)) by { assert {} + Elems(tail) == Elems(tail); }
    assert path[i] == tail[i - j];
    forall q | q in Orbit(l, g, path[i]) ensures q in tail {
      var k: nat :| Iter(l, g, path[i], k) == q;
      ClosedKeeps(l, g, Elems(tail), path[i], k);
    }
    forall x | j <= x < n ensures exists k: nat :: Iter(l, g, path[i], k) == path[x] {
      LassoReach(l, g, path, j, i, x);
    }
    forall q | q in tail ensures q in Orbit(l, g, path[i]) {
      var x :| 0 <= x < |tail| && tail[x] == q;
      assert q == path[j + x];
    }
    LassoReturn(l, g, path, j, i);
  }

  lemma LassoReach(l: Links, g: Ptr, path: seq<Ptr>, j: nat, i: nat, x: nat)
    requires Walk(l, g, path)
    requires j <= i < |path| && j <= x < |path| && Up(l, g, path[|path| - 1]) == path[j]
    ensures exists k: nat :: Iter(l, g, path[i], k) == path[x]
  {
    var n := |path|;
    if i <= x {
      WalkIter(l, g, path, i, x - i);
    } else {
      WalkIter(l, g, path, i, n - 1 - i);
      WalkIter(l, g, path, j, x - j);
      IterSum(l, g, path[i], n - 1 - i, 1 + (x - j));
      assert Iter(l, g, path[n - 1], 1 + (x - j)) == Iter(l, g, path[j], x - j);
      assert Iter(l, g, path[i], n - 1 - i + (1 + (x - j))) == path[x];
    }
  }

  lemma LassoReturn(l: Links, g: Ptr, path: seq<Ptr>, j: nat, i: nat)
    requires Walk(l, g, path)
    requires j <= i < |path| && Up(l, g, path[|path| - 1]) == path[j]
    ensures OnCycle(l, g, path[i])
  {
    if i + 1 < |path| {
      assert path[i + 1] == Up(l, g, path[i]);
      LassoReach(l, g, path, j, i + 1, i);
    } else {
      LassoReach(l, g, path, j, j, i);
    }
  }

  /** New cycles of a walk into a parent-closed set: none when it runs straight, exactly the
      tail when it bites itself at position j. */
  lemma WalkCycles(l: Links, g: Ptr, s: set<Ptr>, path: seq<Ptr>, lasso: bool, j: nat)
    requires WellRooted(l, g) && Closed(l, g, s) && Walk(l, g, path) && NoDup(path)
    requires forall p :: p in path ==> p !in s
    requires lasso ==> j < |path| && Up(l, g, path[|path| - 1]) == path[j]
    requires !lasso && |path| > 0 ==> var e := Up(l, g, path[|path| - 1]); e == 0 || e in s
    ensures CyclesIn(l, g, s + Elems(path)) == CyclesIn(l, g, s) + (if lasso then {Elems(path[j..])} else {})
    ensures lasso ==> Elems(path[j..]) !in CyclesIn(l, g, s)
  {
    var c := if lasso then {Elems(path[j..])} else {};
    var t := s + Elems(path);
    forall i | 0 <= i < |path|
      ensures if lasso && j <= i then OnCycle(l, g, path[i]) && Orbit(l, g, path[i]) == Elems(path[j..])
              else !OnCycle(l, g, path[i])
    {
      if !lasso {
        StraightWalkNoCycle(l, g, s, path, i);
      } else if j <= i {
        LassoOrbit(l, g, path, j, i);
      } else {
        LassoHandle(l, g, path, j, i);
      }
    }
    forall o | o in CyclesIn(l, g, t) ensures o in CyclesIn(l, g, s) + c {
      var p :| p in t && OnCycle(l, g, p) && Orbit(l, g, p) == o;
      if p !in s {
        var i :| 0 <= i < |path| && path[i] == p;
      }
    }
    if lasso {
      assert path[j] in t && OnCycle(l, g, path[j]) && Orbit(l, g, path[j]) == Elems(path[j..]);
      if Elems(path[j..]) in CyclesIn(l, g, s) {
        var p :| p in s && OnCycle(l, g, p) && Orbit(l, g, p) == Elems(path[j..]);
        assert path[j] == path[j..][0];
        assert path[j] in Orbit(l, g, p);
        var k: nat :| Iter(l, g, p, k) == path[j];
        ClosedKeeps(l, g, s, p, k);
      }
    }
  }

  lemma LassoHandle(l: Links, g: Ptr, path: seq<Ptr>, j: nat, i: nat)
    requires WellRooted(l, g) && Walk(l, g, path) && NoDup(path)
    requires i < j < |path| && Up(l, g, path[|path| - 1]) == path[j]
    ensures !OnCycle(l, g, path[i])
  {
    var rest := path[i + 1..];
    assert path[j] == rest[j - i - 1];
    ExtendClosed(l, g, {}, rest);
    assert {} + Elems(rest) == Elems(rest);
    assert path[i + 1] == Up(l, g, path[i]) && rest[0] == path[i + 1];
    OutsideClosedNotOnCycle(l, g, Elems(rest), path[i]);
  }

  lemma {:induction false} NoDupCard<T>(s: seq<T>)
    requires NoDup(s)
    ensures |Elems(s)| == |s|
    decreases |s|
  {
    if s == [] {
    } else {
      var t := s[..|s| - 1];
      var x := s[|s| - 1];
      NoDupCard(t);
      assert s == t + [x];
      assert Elems(s) == Elems(t) + {x};
      assert x !in t;
    }
  }

  /** A rooted entry is on no cycle: going round would reach genesis at two distances. */
  lemma RootedNotOnCycle(l: Links, g: Ptr, p: Ptr)
    requires WellRooted(l, g) && Rooted(l, g, p)
    ensures !OnCycle(l, g, p)
  {
    var d: nat :| Iter(l, g, p, d) == g;
    forall k: nat ensures Iter(l, g, Up(l, g, p), k) != p {
      if Iter(l, g, Up(l, g, p), k) == p {
        IterSum(l, g, p, k + 1, d);
        DistanceUnique(l, g, p, d, k + 1 + d);
      }
    }
  }
}
