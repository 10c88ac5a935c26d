/** The order in which a graph computes the graphs it depends on: a
    depth-first search over the dependency lists, run once when the graph is
    built. Nodes are any values; `D` maps each to its dependency list, in
    the order the graph found them, and `R` ranks them so that a dependency
    ranks lower than its dependent (graphs can only refer to graphs built
    before them). `used` is the set of nodes whose search flag is set. */
module Scheduler {

  predicate Ranked<T(==)>(D: map<T, seq<T>>, R: map<T, nat>)
  {
    forall x :: x in D ==> x in R && forall i :: 0 <= i < |D[x]| ==> D[x][i] in D && D[x][i] in R && R[D[x][i]] < R[x]
  }

  /** Every element of `xs` is a node ranked below `bound`. */
  predicate Below<T(==)>(D: map<T, seq<T>>, R: map<T, nat>, xs: seq<T>, bound: nat)
  {
    forall j :: 0 <= j < |xs| ==> xs[j] in D && xs[j] in R && R[xs[j]] < bound
  }

  /** `_depth_first_search(x)`: flag `x`, search each unflagged dependency
      in turn, then append `x` to the order. */
  function Visit<T(==)>(D: map<T, seq<T>>, R: map<T, nat>, x: T, used: set<T>, ord: seq<T>): (set<T>, seq<T>)
    requires Ranked(D, R) && x in D
    decreases R[x], 1, 0
  {
    var p := VisitList(D, R, D[x], R[x], 0, used + {x}, ord);
    (p.0, p.1 + [x])
  }

  /** The loop over `xs[i..]` that searches every element not yet flagged. */
  function VisitList<T(==)>(D: map<T, seq<T>>, R: map<T, nat>, xs: seq<T>, bound: nat, i: nat, used: set<T>, ord: seq<T>): (set<T>, seq<T>)
    requires Ranked(D, R) && Below(D, R, xs, bound) && i <= |xs|
    decreases bound, 0, |xs| - i
  {
    if i == |xs| then (used, ord)
    else if xs[i] in used then VisitList(D, R, xs, bound, i + 1, used, ord)
    else
      var p := Visit(D, R, xs[i], used, ord);
      VisitList(D, R, xs, bound, i + 1, p.0, p.1)
  }

  /** One turn of the loop: skip a flagged element, search an unflagged one. */
  lemma {:induction false} VisitListStep<T>(D: map<T, seq<T>>, R: map<T, nat>, xs: seq<T>, bound: nat, i: nat, used: set<T>, ord: seq<T>)
    requires Ranked(D, R) && Below(D, R, xs, bound) && i < |xs|
    ensures xs[i] in used ==> VisitList(D, R, xs, bound, i, used, ord) == VisitList(D, R, xs, bound, i + 1, used, ord)
    ensures xs[i] !in used ==>
      var p := Visit(D, R, xs[i], used, ord);
      VisitList(D, R, xs, bound, i, used, ord) == VisitList(D, R, xs, bound, i + 1, p.0, p.1)
  {
  }

  /** `_topological_sort` as written: search the direct dependencies, then
      clear the flags of the direct dependencies only. Returns the flags
      left set and the order. */
  function TopoSort<T(==)>(D: map<T, seq<T>>, R: map<T, nat>, roots: seq<T>, bound: nat, used: set<T>): (set<T>, seq<T>)
    requires Ranked(D, R) && Below(D, R, roots, bound)
  {
    var p := VisitList(D, R, roots, bound, 0, used, []);
    (p.0 - Elems(roots), p.1)
  }

  /** The search with every flag it set cleared afterwards. */
  function TopoSortFixed<T(==)>(D: map<T, seq<T>>, R: map<T, nat>, roots: seq<T>, bound: nat, used: set<T>): (set<T>, seq<T>)
    requires Ranked(D, R) && Below(D, R, roots, bound)
  {
    var p := VisitList(D, R, roots, bound, 0, used, []);
    (p.0 - Elems(p.1), p.1)
  }

  /* ---------------------------------------------------------------------- */
  /* Reachability.                                                          */

  /** The nodes reachable from `x` through dependency lists, `x` included. */
  ghost function Reach<T>(D: map<T, seq<T>>, R: map<T, nat>, x: T): set<T>
    requires Ranked(D, R) && x in D
    decreases R[x], 1, 0
  {
    {x} + ReachList(D, R, D[x], R[x], 0)
  }

  ghost function ReachList<T>(D: map<T, seq<T>>, R: map<T, nat>, xs: seq<T>, bound: nat, i: nat): set<T>
    requires Ranked(D, R) && Below(D, R, xs, bound) && i <= |xs|
    decreases bound, 0, |xs| - i
  {
    if i == |xs| then {} else Reach(D, R, xs[i]) + ReachList(D, R, xs, bound, i + 1)
  }

  /** Reachable nodes are nodes, ranked no higher than where the walk began. */
  lemma {:induction false} ReachRank<T>(D: map<T, seq<T>>, R: map<T, nat>, x: T)
    requires Ranked(D, R) && x in D
    ensures forall y :: y in Reach(D, R, x) ==> y in D && y in R && R[y] <= R[x]
    decreases R[x], 1, 0
  {
    ReachListRank(D, R, D[x], R[x], 0);
  }

  lemma {:induction false} ReachListRank<T>(D: map<T, seq<T>>, R: map<T, nat>, xs: seq<T>, bound: nat, i: nat)
    requires Ranked(D, R) && Below(D, R, xs, bound) && i <= |xs|
    ensures forall y :: y in ReachList(D, R, xs, bound, i) ==> y in D && y in R && R[y] < bound
    decreases bound, 0, |xs| - i
  {
    if i < |xs| {
      ReachRank(D, R, xs[i]);
      ReachListRank(D, R, xs, bound, i + 1);
    }
  }

  /** The reach of a list covers each of its members. */
  lemma {:induction false} ReachListHas<T>(D: map<T, seq<T>>, R: map<T, nat>, xs: seq<T>, bound: nat, i: nat, j: nat)
    requires Ranked(D, R) && Below(D, R, xs, bound) && i <= j < |xs|
    ensures Reach(D, R, xs[j]) <= ReachList(D, R, xs, bound, i)
    decreases j - i
  {
    if i < j {
      ReachListHas(D, R, xs, bound, i + 1, j);
    }
  }

  /* ---------------------------------------------------------------------- */
  /* The search invariant.                                                  */

  function Elems<T>(s: seq<T>): set<T>
  {
    set x | x in s
  }

  predicate NoDup<T(==)>(s: seq<T>)
  {
    forall i, j :: 0 <= i < j < |s| ==> s[i] != s[j]
  }

  /** Post-order: every dependency of a listed node is listed before it. */
  predicate Closed<T(==)>(D: map<T, seq<T>>, s: seq<T>)
  {
    forall i :: 0 <= i < |s| ==> s[i] in D && forall d :: d in D[s[i]] ==> d in s[..i]
  }

  /** A closed order holds everything reachable from its members. */
  lemma {:induction false} ClosedReach<T>(D: map<T, seq<T>>, R: map<T, nat>, s: seq<T>, x: T)
    requires Ranked(D, R) && Closed(D, s) && x in s
    ensures Reach(D, R, x) <= Elems(s)
    decreases R[x], 1, 0
  {
    var k :| 0 <= k < |s| && s[k] == x;
    ClosedDeps(D, s, k);
    ClosedReachList(D, R, s, D[x], R[x], 0);
  }

  lemma {:induction false} ClosedReachList<T>(D: map<T, seq<T>>, R: map<T, nat>, s: seq<T>, xs: seq<T>, bound: nat, i: nat)
    requires Ranked(D, R) && Closed(D, s) && Below(D, R, xs, bound) && i <= |xs|
    requires forall j :: i <= j < |xs| ==> xs[j] in s
    ensures ReachList(D, R, xs, bound, i) <= Elems(s)
    decreases bound, 0, |xs| - i
  {
    if i < |xs| {
      var k :| 0 <= k < |s| && s[k] == xs[i];
      ClosedDeps(D, s, k);
      ClosedReach(D, R, s, xs[i]);
      ClosedReachList(D, R, s, xs, bound, i + 1);
    }
  }

  lemma {:induction false} ClosedDeps<T>(D: map<T, seq<T>>, s: seq<T>, k: nat)
    requires Closed(D, s) && k < |s|
    ensures s[k] in D && forall d :: d in D[s[k]] ==> d in s
  {
    forall d | d in D[s[k]] ensures d in s {
      assert d in s[..k];
    }
  }

  /** The state a search step starts from: the order so far is duplicate
      free, flagged and post-order, and no flagged node outside it can be
      reached from what is still to be searched. */
  predicate Inv<T(==)>(D: map<T, seq<T>>, used: set<T>, ord: seq<T>)
  {
    NoDup(ord) && (forall y :: y in ord ==> y in used) && Closed(D, ord)
  }

  /** Searching from an unflagged `x` appends exactly the nodes reachable
      from `x` that were not yet listed, `x` last, keeps the order a
      duplicate-free post-order, and flags exactly what it appends. */
  lemma {:induction false} VisitCorrect<T>(D: map<T, seq<T>>, R: map<T, nat>, x: T, used: set<T>, ord: seq<T>)
    requires Ranked(D, R) && x in D && x !in used
    requires Inv(D, used, ord)
    requires forall y :: y in used && y !in ord ==> y !in Reach(D, R, x)
    ensures var p := Visit(D, R, x, used, ord);
      && Inv(D, p.0, p.1)
      && ord <= p.1 && p.1[|p.1| - 1] == x
      && Elems(p.1) == Elems(ord) + Reach(D, R, x)
      && p.0 == used + Elems(p.1)
    decreases R[x], 1, 0
  {
    var used1 := used + {x};
    ReachRank(D, R, x);
    ReachListRank(D, R, D[x], R[x], 0);
    forall y | y in used1 && y !in ord ensures y !in ReachList(D, R, D[x], R[x], 0) {
      if y != x {
        assert y !in Reach(D, R, x);
      }
    }
    VisitListCorrect(D, R, D[x], R[x], 0, used1, ord);
    var q := VisitList(D, R, D[x], R[x], 0, used1, ord);
    var o := q.1 + [x];
    assert x !in Elems(ord);
    assert x !in ReachList(D, R, D[x], R[x], 0);
    assert x !in Elems(q.1);
    forall d | d in D[x] ensures d in q.1 {
      var j :| 0 <= j < |D[x]| && D[x][j] == d;
      ReachListHas(D, R, D[x], R[x], 0, j);
    }
    assert o[..|q.1|] == q.1;
    assert Elems(o) == Elems(q.1) + {x};
    forall i | 0 <= i < |o| ensures o[i] in D && forall d :: d in D[o[i]] ==> d in o[..i] {
      if i < |q.1| {
        assert o[..i] == q.1[..i];
      }
    }
  }

  lemma {:induction false} VisitListCorrect<T>(D: map<T, seq<T>>, R: map<T, nat>, xs: seq<T>, bound: nat, i: nat, used: set<T>, ord: seq<T>)
    requires Ranked(D, R) && Below(D, R, xs, bound) && i <= |xs|
    requires Inv(D, used, ord)
    requires forall y :: y in used && y !in ord ==> y !in ReachList(D, R, xs, bound, i)
    ensures var p := VisitList(D, R, xs, bound, i, used, ord);
      && Inv(D, p.0, p.1)
      && ord <= p.1
      && Elems(p.1) == Elems(ord) + ReachList(D, R, xs, bound, i)
      && p.0 == used + Elems(p.1)
    decreases bound, 0, |xs| - i
  {
    if i < |xs| {
      var x := xs[i];
      if x in used {
        assert x in Reach(D, R, x);
        ClosedReach(D, R, ord, x);
        VisitListCorrect(D, R, xs, bound, i + 1, used, ord);
      } else {
        VisitCorrect(D, R, x, used, ord);
        var p := Visit(D, R, x, used, ord);
        forall y | y in p.0 && y !in p.1 ensures y !in ReachList(D, R, xs, bound, i + 1) {
          assert y in used && y !in ord;
        }
        VisitListCorrect(D, R, xs, bound, i + 1, p.0, p.1);
      }
    }
  }

  /** Scheduling, when no reachable node is flagged: the order lists every
      node reachable from the roots exactly once, each after all of its
      dependencies. As written, the flags set during the search stay set,
      except on the roots themselves. */
  lemma {:induction false} TopoSortCorrect<T>(D: map<T, seq<T>>, R: map<T, nat>, roots: seq<T>, bound: nat, used: set<T>)
    requires Ranked(D, R) && Below(D, R, roots, bound)
    requires forall y :: y in used ==> y !in ReachList(D, R, roots, bound, 0)
    ensures var p := TopoSort(D, R, roots, bound, used);
      && NoDup(p.1) && Closed(D, p.1)
      && Elems(p.1) == ReachList(D, R, roots, bound, 0)
      && p.0 == (used + ReachList(D, R, roots, bound, 0)) - Elems(roots)
  {
    VisitListCorrect(D, R, roots, bound, 0, used, []);
  }

  /** Whatever is flagged beforehand, a search appends only nodes reachable
      from where it starts. */
  lemma {:induction false} VisitWithin<T>(D: map<T, seq<T>>, R: map<T, nat>, x: T, used: set<T>, ord: seq<T>)
    requires Ranked(D, R) && x in D
    ensures Elems(Visit(D, R, x, used, ord).1) <= Elems(ord) + Reach(D, R, x)
    decreases R[x], 1, 0
  {
    VisitListWithin(D, R, D[x], R[x], 0, used + {x}, ord);
    var q := VisitList(D, R, D[x], R[x], 0, used + {x}, ord);
    assert Elems(q.1 + [x]) == Elems(q.1) + {x};
  }

  lemma {:induction false} VisitListWithin<T>(D: map<T, seq<T>>, R: map<T, nat>, xs: seq<T>, bound: nat, i: nat, used: set<T>, ord: seq<T>)
    requires Ranked(D, R) && Below(D, R, xs, bound) && i <= |xs|
    ensures Elems(VisitList(D, R, xs, bound, i, used, ord).1) <= Elems(ord) + ReachList(D, R, xs, bound, i)
    decreases bound, 0, |xs| - i
  {
    if i < |xs| {
      if xs[i] in used {
        VisitListWithin(D, R, xs, bound, i + 1, used, ord);
      } else {
        var p := Visit(D, R, xs[i], used, ord);
        VisitWithin(D, R, xs[i], used, ord);
        VisitListWithin(D, R, xs, bound, i + 1, p.0, p.1);
      }
    }
  }

  /** The loop skips every flagged element: over flagged elements only, it
      changes nothing. */
  lemma {:induction false} VisitListFlagged<T>(D: map<T, seq<T>>, R: map<T, nat>, xs: seq<T>, bound: nat, i: nat, used: set<T>, ord: seq<T>)
    requires Ranked(D, R) && Below(D, R, xs, bound) && i <= |xs|
    requires forall j :: i <= j < |xs| ==> xs[j] in used
    ensures VisitList(D, R, xs, bound, i, used, ord) == (used, ord)
    decreases |xs| - i
  {
    if i < |xs| {
      VisitListFlagged(D, R, xs, bound, i + 1, used, ord);
    }
  }

  /** As written and whatever was flagged before, the order lists only
      nodes reachable from the roots; when every root is already flagged
      it is empty, and only the roots' flags are cleared. */
  lemma {:induction false} TopoSortWithin<T>(D: map<T, seq<T>>, R: map<T, nat>, roots: seq<T>, bound: nat, used: set<T>)
    requires Ranked(D, R) && Below(D, R, roots, bound)
    ensures Elems(TopoSort(D, R, roots, bound, used).1) <= ReachList(D, R, roots, bound, 0)
    ensures (forall j :: 0 <= j < |roots| ==> roots[j] in used) ==> TopoSort(D, R, roots, bound, used) == (used - Elems(roots), [])
  {
    VisitListWithin(D, R, roots, bound, 0, used, []);
    if forall j :: 0 <= j < |roots| ==> roots[j] in used {
      VisitListFlagged(D, R, roots, bound, 0, used, []);
    }
  }

  /** The corrected sort orders the same way and leaves every flag as it
      found it, so the next graph built starts from the same flags. */
  lemma {:induction false} TopoSortFixedCorrect<T>(D: map<T, seq<T>>, R: map<T, nat>, roots: seq<T>, bound: nat, used: set<T>)
    requires Ranked(D, R) && Below(D, R, roots, bound)
    requires forall y :: y in used ==> y !in ReachList(D, R, roots, bound, 0)
    ensures var p := TopoSortFixed(D, R, roots, bound, used);
      && p.1 == TopoSort(D, R, roots, bound, used).1
      && NoDup(p.1) && Closed(D, p.1)
      && Elems(p.1) == ReachList(D, R, roots, bound, 0)
      && p.0 == used
  {
    VisitListCorrect(D, R, roots, bound, 0, used, []);
  }

  /* ---------------------------------------------------------------------- */
  /* The stale flag, on three graphs: 1 <- 2 <- 3, then a fourth graph that  */
  /* depends on 1 alone.                                                     */

  const Chain: map<int, seq<int>> := map[1 := [], 2 := [1]]
  const ChainRank: map<int, nat> := map[1 := 0, 2 := 1]

  /** Building graph 3 (which depends on 2) orders 1 then 2, and as written
      leaves 1 flagged; building graph 4 (which depends on 1) then finds 1
      flagged and orders nothing, so running graph 4 never computes 1. The
      corrected sort orders 1 for graph 4. */
  lemma {:induction false} StaleFlag()
    ensures Ranked(Chain, ChainRank)
    ensures TopoSort(Chain, ChainRank, [2], 2, {}) == ({1}, [1, 2])
    ensures TopoSort(Chain, ChainRank, [1], 2, {1}).1 == []
    ensures TopoSortFixed(Chain, ChainRank, [2], 2, {}) == ({}, [1, 2])
    ensures TopoSortFixed(Chain, ChainRank, [1], 2, {}) == ({}, [1])
  {
    assert Ranked(Chain, ChainRank);
    ChainFromTwo();
    ChainFromOne();
    assert Elems([2]) == {2} && Elems([1]) == {1} && Elems([1, 2]) == {1, 2};
    assert ({1, 2} - Elems([2])) == {1};
    assert ({1, 2} - Elems([1, 2])) == {};
    assert ({1} - Elems([1])) == {};
  }

  /** The search from graph 2 with nothing flagged orders 1 then 2. */
  lemma {:induction false} ChainFromTwo()
    ensures VisitList(Chain, ChainRank, [2], 2, 0, {}, []) == ({1, 2}, [1, 2])
  {
    assert Ranked(Chain, ChainRank);
    assert Chain[1] == [] && Chain[2] == [1] && ChainRank[1] == 0 && ChainRank[2] == 1;
    assert VisitList(Chain, ChainRank, [], 0, 0, {2} + {1}, []) == ({2} + {1}, []);
    assert {2} + {1} == {1, 2};
    assert VisitList(Chain, ChainRank, Chain[1], ChainRank[1], 0, {2} + {1}, []) == ({1, 2}, []);
    assert [] + [1] == [1];
    assert Visit(Chain, ChainRank, 1, {2}, []) == ({1, 2}, [1]);
    assert VisitList(Chain, ChainRank, [1], 1, 1, {1, 2}, [1]) == ({1, 2}, [1]);
    assert [1][0] == 1 && 1 !in {2};
    assert VisitList(Chain, ChainRank, [1], 1, 0, {2}, []) == ({1, 2}, [1]);
    assert {} + {2} == {2};
    assert VisitList(Chain, ChainRank, Chain[2], ChainRank[2], 0, {} + {2}, []) == ({1, 2}, [1]);
    assert [1] + [2] == [1, 2];
    assert Visit(Chain, ChainRank, 2, {}, []) == ({1, 2}, [1, 2]);
  }

  /** The search from graph 1 orders 1 when it is not flagged, and nothing
      when it is. */
  lemma {:induction false} ChainFromOne()
    ensures VisitList(Chain, ChainRank, [1], 2, 0, {}, []) == ({1}, [1])
    ensures VisitList(Chain, ChainRank, [1], 2, 0, {1}, []) == ({1}, [])
  {
    assert Ranked(Chain, ChainRank);
    assert Chain[1] == [] && ChainRank[1] == 0;
    assert VisitList(Chain, ChainRank, [], 0, 0, {} + {1}, []) == ({} + {1}, []);
    assert {} + {1} == {1};
    assert VisitList(Chain, ChainRank, Chain[1], ChainRank[1], 0, {} + {1}, []) == ({1}, []);
    assert [] + [1] == [1];
    assert Visit(Chain, ChainRank, 1, {}, []) == ({1}, [1]);
  }
}
