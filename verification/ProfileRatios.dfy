/** Ratio computation and the memoised propagation of totals along the calls of a profile. */
module ProfileRatios {
  import opened CallGraph
  import opened CallRatios
  import opened Lists
  import opened ProfileCycles
  import opened RealSums

  // ----- cycle objects

  /** Two functions share a cycle object exactly if they call each other; a function outside all cycles has none. */
  ghost predicate Grouped(g: Graph, cycle: map<Id, Cycle>)
  {
    && (forall x, y :: x in g && y in g && x != y ==>
          (x in cycle && y in cycle && cycle[x] == cycle[y] <==> Mutual(g, x, y)))
    && (forall x :: x in g ==> (x in cycle <==> HasMate(g, x)))
  }

  /** The test both passes make on a call: does it enter a cycle from outside? */
  predicate EntersCycle(cycle: map<Id, Cycle>, f: Id, callee: Id)
  {
    callee in cycle && !(f in cycle && cycle[f] == cycle[callee])
  }

  lemma EntersIff(g: Graph, cycle: map<Id, Cycle>, f: Id, callee: Id)
    requires Grouped(g, cycle) && f in g && callee in g && f != callee
    ensures EntersCycle(cycle, f, callee) <==> HasMate(g, callee) && !Mutual(g, f, callee)
  {
  }

  /** Whether a call stays within the component of its caller. */
  predicate StaysInside(cycle: map<Id, Cycle>, f: Id, callee: Id)
  {
    if f in cycle then callee in cycle && cycle[callee] == cycle[f] else callee == f
  }

  lemma StaysIff(g: Graph, cycle: map<Id, Cycle>, f: Id, callee: Id)
    requires Grouped(g, cycle) && f in g && callee in g
    ensures StaysInside(cycle, f, callee) <==> Mutual(g, f, callee)
  {
    ReachSelf(g, f);
    if f != callee && Mutual(g, f, callee) { assert HasMate(g, f); }
  }

  // ----- the calls seen so far

  ghost function Seen(g: Graph, x: Id, n: nat): (ys: set<Id>)
    requires x in g && n <= |g[x]|
  {
    set j | 0 <= j < n && g[x][j] != x :: g[x][j]
  }

  lemma SeenNext(g: Graph, w: map<Arc, real>, x: Id, n: nat)
    requires WellFormed(g, w) && x in g && n < |g[x]|
    ensures Seen(g, x, n + 1) == if g[x][n] == x then Seen(g, x, n) else Seen(g, x, n) + {g[x][n]}
    ensures g[x][n] !in Seen(g, x, n) && g[x][n] in g && g[x][n] in g[x]
  {
  }

  lemma SeenAll(g: Graph, x: Id)
    requires x in g
    ensures Seen(g, x, 0) == {} && Seen(g, x, |g[x]|) == Callees(g, x)
  {
  }

  /** All calls of the functions in `done`, and those of f to the functions in `callees`. */
  ghost function ArcsSeen(g: Graph, done: set<Id>, f: Id, callees: set<Id>): (s: set<Arc>)
    ensures s <= Arcs(g)
  {
    set e | e in Arcs(g) && (e.0 in done || (e.0 == f && e.1 in callees))
  }

  lemma ArcsNext(g: Graph, done: set<Id>, f: Id, callees: set<Id>, y: Id)
    requires f in g && f !in done && y in Callees(g, f) - callees
    ensures (f, y) in Arcs(g) && (f, y) !in ArcsSeen(g, done, f, callees)
    ensures ArcsSeen(g, done, f, callees + {y}) == ArcsSeen(g, done, f, callees) + {(f, y)}
  {
    assert IsCall(g, (f, y));
  }

  lemma ArcsOfNext(g: Graph, done: set<Id>, f: Id, x: Id)
    requires f in g
    ensures ArcsSeen(g, done, f, Callees(g, f)) == ArcsSeen(g, done + {f}, x, {})
    ensures ArcsSeen(g, done, f, {}) == ArcsSeen(g, done, x, {})
    ensures ArcsSeen(g, g.Keys, x, {}) == Arcs(g) && ArcsSeen(g, {}, x, {}) == {}
  {
  }

  // ----- pass one: function totals and cycle totals

  ghost predicate TotalsFor(g: Graph, w: map<Arc, real>, seen: set<Arc>, totals: map<Id, real>)
    requires seen <= Arcs(g)
  {
    totals.Keys == g.Keys && forall y :: y in g ==> totals[y] == Total(Into(g, y) * seen, Weights(g, w))
  }

  ghost predicate CycleTotalsFor(g: Graph, w: map<Arc, real>, cycle: map<Id, Cycle>, seen: set<Arc>,
                                 totals: map<Cycle, real>)
    requires seen <= Arcs(g)
  {
    forall x :: x in g && x in cycle ==>
      cycle[x] in totals && totals[cycle[x]] == Total(Gate(g, x) * seen, Weights(g, w))
  }

  lemma SeeArc(g: Graph, w: map<Arc, real>, s: set<Arc>, seen: set<Arc>, e: Arc)
    requires s <= Arcs(g) && seen <= Arcs(g) && e in Arcs(g) - seen
    ensures Total(s * (seen + {e}), Weights(g, w))
            == Total(s * seen, Weights(g, w)) + if e in s then Weights(g, w)[e] else 0.0
  {
    if e in s {
      assert s * (seen + {e}) == s * seen + {e};
      TotalNext(s * seen, Weights(g, w), e);
    } else {
      assert s * (seen + {e}) == s * seen;
    }
  }

  lemma TotalsSee(g: Graph, w: map<Arc, real>, seen: set<Arc>, totals: map<Id, real>, e: Arc)
    requires seen <= Arcs(g) && TotalsFor(g, w, seen, totals) && e in Arcs(g) - seen && e.1 in g
    ensures TotalsFor(g, w, seen + {e}, totals[e.1 := totals[e.1] + Weights(g, w)[e]])
  {
    hide Total, Weights;
    forall y | y in g
      ensures Total(Into(g, y) * (seen + {e}), Weights(g, w))
              == Total(Into(g, y) * seen, Weights(g, w)) + if e.1 == y then Weights(g, w)[e] else 0.0
    {
      SeeArc(g, w, Into(g, y), seen, e);
    }
  }

  lemma CycleTotalsSee(g: Graph, w: map<Arc, real>, cycle: map<Id, Cycle>, seen: set<Arc>, totals: map<Cycle, real>,
                       e: Arc)
    requires seen <= Arcs(g) && CycleTotalsFor(g, w, cycle, seen, totals) && e in Arcs(g) - seen && e.0 in g && e.1 in g
    requires Grouped(g, cycle) && e.0 != e.1
    ensures EntersCycle(cycle, e.0, e.1) ==>
      cycle[e.1] in totals
      && CycleTotalsFor(g, w, cycle, seen + {e}, totals[cycle[e.1] := totals[cycle[e.1]] + Weights(g, w)[e]])
    ensures !EntersCycle(cycle, e.0, e.1) ==> CycleTotalsFor(g, w, cycle, seen + {e}, totals)
  {
    EntersIff(g, cycle, e.0, e.1);
    hide Total, Weights, Mutual, HasMate;
    forall x | x in g && x in cycle
      ensures Total(Gate(g, x) * (seen + {e}), Weights(g, w))
              == Total(Gate(g, x) * seen, Weights(g, w))
                 + if EntersCycle(cycle, e.0, e.1) && cycle[x] == cycle[e.1] then Weights(g, w)[e] else 0.0
    {
      SeeArc(g, w, Gate(g, x), seen, e);
      GateHas(g, cycle, x, e);
    }
  }

  lemma GateHas(g: Graph, cycle: map<Id, Cycle>, x: Id, e: Arc)
    requires Grouped(g, cycle) && x in g && x in cycle && e in Arcs(g) && e.0 in g && e.1 in g && e.0 != e.1
    ensures e in Gate(g, x) <==> EntersCycle(cycle, e.0, e.1) && cycle[x] == cycle[e.1]
  {
    EntersIff(g, cycle, e.0, e.1);
    MutualEquivalence(g, e.1, x, x);
    MutualEquivalence(g, x, e.1, e.1);
    assert IsCall(g, e);
    if x != e.1 && Mutual(g, e.1, x) { assert HasMate(g, e.1); }
  }

  lemma StartTotals(g: Graph, w: map<Arc, real>, cycle: map<Id, Cycle>, cycles: seq<Cycle>, totals: map<Cycle, real>)
    requires forall x :: x in g && x in cycle ==> cycle[x] in cycles
    requires forall c :: c in cycles ==> c in totals && totals[c] == 0.0
    ensures TotalsFor(g, w, {}, map y | y in g :: 0.0) && CycleTotalsFor(g, w, cycle, {}, totals)
  {
    assert forall y :: Into(g, y) * {} == {} && Gate(g, y) * {} == {};
  }

  lemma AllTotals(g: Graph, w: map<Arc, real>, cycle: map<Id, Cycle>, totals: map<Id, real>,
                  cycleTotals: map<Cycle, real>)
    requires TotalsFor(g, w, Arcs(g), totals) && CycleTotalsFor(g, w, cycle, Arcs(g), cycleTotals)
    ensures forall y :: y in g ==> totals[y] == InTotal(g, w, y)
    ensures forall x :: x in g && x in cycle ==> cycle[x] in cycleTotals && cycleTotals[cycle[x]] == GateTotal(g, w, x)
  {
    hide Total;
    assert forall y :: Into(g, y) * Arcs(g) == Into(g, y) && Gate(g, y) * Arcs(g) == Gate(g, y);
  }

  // ----- pass two: ratios

  /** The ratios of the calls seen so far. */
  ghost predicate RatiosFor(g: Graph, w: map<Arc, real>, seen: set<Arc>, r: map<Arc, real>)
  {
    r.Keys == seen && forall e :: e in r ==> r[e] == RatioOf(g, w, e)
  }

  lemma RatiosSeen(g: Graph, w: map<Arc, real>, seen: set<Arc>, r: map<Arc, real>)
    requires RatiosFor(g, w, seen, r)
    ensures r.Keys == seen
  {
  }

  lemma RatiosNext(g: Graph, w: map<Arc, real>, seen: set<Arc>, r: map<Arc, real>, e: Arc)
    requires RatiosFor(g, w, seen, r)
    ensures RatiosFor(g, w, seen + {e}, r[e := RatioOf(g, w, e)])
  {
    hide RatioOf;
  }

  // ----- the memo tables of the propagation

  ghost function ReachSet(g: Graph, x: Id): (s: set<Id>) { set y | y in g && Reach(g, x, y) }

  /** Calls between components lead to functions that reach strictly less. */
  lemma CallReachesLess(g: Graph, f: Id, e: Arc)
    requires Closed(g) && f in g && e in OutArcs(g, f)
    ensures e.1 in g && |ReachSet(g, e.1)| < |ReachSet(g, f)|
  {
    assert IsCall(g, e) && Edge(g, e.0, e.1);
    ReachEdge(g, e.0, e.1);
    ReachTrans(g, f, e.0, e.1);
    ReachSelf(g, f);
    if Reach(g, e.1, f) { ReachTrans(g, e.1, f, e.0); }
    forall z | z in ReachSet(g, e.1) ensures z in ReachSet(g, f) { ReachTrans(g, f, e.1, z); }
    assert f in ReachSet(g, f) && f !in ReachSet(g, e.1);
    SmallerSet(ReachSet(g, e.1), ReachSet(g, f), f);
  }

  lemma SmallerSet(a: set<Id>, b: set<Id>, x: Id)
    requires a <= b && x in b && x !in a
    ensures |a| < |b|
  {
    SubsetSize(a, b - {x});
  }

  lemma {:induction false} SubsetSize(a: set<Id>, b: set<Id>)
    requires a <= b
    ensures |a| <= |b|
    decreases |a|
  {
    if a != {} {
      var x :| x in a;
      SubsetSize(a - {x}, b - {x});
    }
  }

  ghost predicate Above(g: Graph, busy: set<Id>, f: Id) { forall x :: x in busy ==> Reach(g, x, f) }

  /** A component that is being integrated is never entered again further down. */
  lemma NotBusy(g: Graph, busy: set<Id>, f: Id, e: Arc)
    requires Closed(g) && f in g && e in OutArcs(g, f) && Above(g, busy, f) && Comp(g, f) !! busy
    ensures e.1 in g && Comp(g, e.1) !! busy + Comp(g, f) && Above(g, busy + Comp(g, f), e.1)
  {
    assert IsCall(g, e) && Edge(g, e.0, e.1);
    ReachEdge(g, e.0, e.1);
    ReachTrans(g, f, e.0, e.1);
    forall x | x in busy + Comp(g, f) ensures Reach(g, x, e.1) { ReachTrans(g, x, f, e.1); }
    forall z | z in Comp(g, e.1) ensures z !in busy + Comp(g, f) {
      if z in busy + Comp(g, f) {
        ReachTrans(g, f, e.1, z);
        ReachTrans(g, e.1, z, f);
        ReachTrans(g, e.1, f, e.0);
      }
    }
  }

  /** Every finished component is balanced, and exactly its outgoing calls, and some of the busy ones', have a value. */
  ghost predicate Settled(g: Graph, r: map<Arc, real>, own: map<Id, real>, t: map<Id, real>, ct: map<Arc, real>,
                          busy: set<Id>)
    requires own.Keys == g.Keys
  {
    && t.Keys <= g.Keys && t.Keys !! busy
    && (forall x :: x in t ==> Balanced(g, r, own, t, x))
    && (forall e :: External(g, e) && e.0 in t ==> e in ct && e.1 in t && ct[e] == Times(Share(r, e), t[e.1]))
    && (forall e :: e in ct ==> External(g, e) && (e.0 in t || e.0 in busy))
  }

  /** Finished components keep their totals, and the calls of busy ones are left alone. */
  ghost predicate Grown(t: map<Id, real>, ct: map<Arc, real>, t': map<Id, real>, ct': map<Arc, real>, busy: set<Id>)
  {
    && (forall x :: x in t ==> x in t' && t'[x] == t[x])
    && (forall e: Arc :: e.0 in busy ==> (e in ct <==> e in ct') && (e in ct ==> ct'[e] == ct[e]))
  }

  /** Halfway through the component of f: the own values of `members` and the calls in `done` have been added. */
  ghost predicate Progress(g: Graph, r: map<Arc, real>, own: map<Id, real>, t: map<Id, real>, ct: map<Arc, real>,
                           f: Id, members: set<Id>, done: set<Arc>, sum: real)
    requires own.Keys == g.Keys && f in g
  {
    && members <= Comp(g, f) && done <= OutArcs(g, f)
    && (forall e: Arc :: e.0 in Comp(g, f) ==> (e in ct <==> e in done))
    && (forall e :: e in done ==> e.1 in t && e in ct && ct[e] == Times(Share(r, e), t[e.1]))
    && sum == Total(members, own) + Total(done, Flow(g, r, t))
  }

  /** Later totals do not disturb the flow along calls whose callee was finished before. */
  lemma FlowStays(g: Graph, r: map<Arc, real>, t: map<Id, real>, t': map<Id, real>, s: set<Arc>)
    requires s <= Arcs(g) && (forall e :: e in s ==> e.1 in t) && forall y :: y in t ==> y in t' && t'[y] == t[y]
    ensures Total(s, Flow(g, r, t)) == Total(s, Flow(g, r, t'))
  {
    hide Total, Times, Share, Arcs;
    TotalSame(s, Flow(g, r, t), Flow(g, r, t'));
  }

  lemma BalancedStays(g: Graph, r: map<Arc, real>, own: map<Id, real>, t: map<Id, real>, t': map<Id, real>, x: Id)
    requires own.Keys == g.Keys && x in g && Balanced(g, r, own, t, x)
    requires forall y :: y in t ==> y in t' && t'[y] == t[y]
    ensures Balanced(g, r, own, t', x)
  {
    FlowStays(g, r, t, t', OutArcs(g, x));
  }

  /** Components are finished as a whole. */
  lemma FinishedWhole(g: Graph, r: map<Arc, real>, own: map<Id, real>, t: map<Id, real>, f: Id, y: Id)
    requires own.Keys == g.Keys && f in g && y in Comp(g, f) && (y in t ==> Balanced(g, r, own, t, y)) && f !in t
    ensures y !in t
  {
    MutualEquivalence(g, f, y, y);
    assert f in Comp(g, y);
  }

  lemma NoSum(g: Graph, r: map<Arc, real>, own: map<Id, real>, t: map<Id, real>)
    ensures Total({}, own) + Total({}, Flow(g, r, t)) == 0.0
  {
    hide Flow;
  }

  lemma Begin(g: Graph, r: map<Arc, real>, own: map<Id, real>, t: map<Id, real>, ct: map<Arc, real>, busy: set<Id>,
              f: Id)
    requires own.Keys == g.Keys && Settled(g, r, own, t, ct, busy) && f in g && Comp(g, f) !! busy && f !in t
    ensures Settled(g, r, own, t, ct, busy + Comp(g, f)) && Progress(g, r, own, t, ct, f, {}, {}, 0.0)
  {
    hide Balanced, External, Comp, Total, Flow, OutArcs, Times, Share;
    forall y | y in Comp(g, f) ensures y !in t { FinishedWhole(g, r, own, t, f, y); }
    NoSum(g, r, own, t);
  }

  lemma AddOwn(g: Graph, r: map<Arc, real>, own: map<Id, real>, t: map<Id, real>, ct: map<Arc, real>,
               f: Id, members: set<Id>, done: set<Arc>, sum: real, m: Id)
    requires own.Keys == g.Keys && f in g && Progress(g, r, own, t, ct, f, members, done, sum)
             && m in Comp(g, f) - members
    ensures Progress(g, r, own, t, ct, f, members + {m}, done, sum + own[m])
  {
    hide Total, Flow, Mutual;
    TotalNext(members, own, m);
  }

  lemma CallDone(g: Graph, r: map<Arc, real>, own: map<Id, real>, t: map<Id, real>, ct: map<Arc, real>,
                 t': map<Id, real>, ct': map<Arc, real>, busy: set<Id>, f: Id, members: set<Id>, done: set<Arc>,
                 sum: real, e: Arc, sub: real)
    requires own.Keys == g.Keys && f in g && Comp(g, f) <= busy && Progress(g, r, own, t, ct, f, members, done, sum)
    requires Settled(g, r, own, t', ct', busy) && Grown(t, ct, t', ct', busy) && e in OutArcs(g, f) - done && e.1 in t'
    requires e.0 in Comp(g, f) && sub == Times(Share(r, e), t'[e.1])
    ensures Settled(g, r, own, t', ct'[e := sub], busy)
    ensures Progress(g, r, own, t', ct'[e := sub], f, members, done + {e}, sum + sub)
    ensures Grown(t, ct, t', ct'[e := sub], busy - Comp(g, f))
  {
    hide Settled, Progress, Grown, Comp, OutArcs;
    SettledCall(g, r, own, t', ct', busy, f, e, sub);
    ProgressCall(g, r, own, t, ct, t', ct', busy, f, members, done, sum, e, sub);
    GrownCall(t, ct, t', ct', busy, Comp(g, f), e, sub);
  }

  lemma GrownCall(t: map<Id, real>, ct: map<Arc, real>, t': map<Id, real>, ct': map<Arc, real>, busy: set<Id>,
                  comp: set<Id>, e: Arc, sub: real)
    requires Grown(t, ct, t', ct', busy) && e.0 in comp
    ensures Grown(t, ct, t', ct'[e := sub], busy - comp)
  {
  }

  lemma ProgressCall(g: Graph, r: map<Arc, real>, own: map<Id, real>, t: map<Id, real>, ct: map<Arc, real>,
                     t': map<Id, real>, ct': map<Arc, real>, busy: set<Id>, f: Id, members: set<Id>, done: set<Arc>,
                     sum: real, e: Arc, sub: real)
    requires own.Keys == g.Keys && f in g && Comp(g, f) <= busy && Progress(g, r, own, t, ct, f, members, done, sum)
    requires Grown(t, ct, t', ct', busy) && e in OutArcs(g, f) - done && e.1 in t'
    requires e.0 in Comp(g, f) && sub == Times(Share(r, e), t'[e.1])
    ensures Progress(g, r, own, t', ct'[e := sub], f, members, done + {e}, sum + sub)
  {
    hide Total, Times, Share, Comp, OutArcs, Arcs, Flow;
    SumCall(g, r, t, t', done, e);
    forall d | d in done ensures d in ct' && d in ct && ct'[d] == ct[d] { DoneInside(g, f, d); }
  }

  lemma DoneInside(g: Graph, f: Id, d: Arc)
    requires d in OutArcs(g, f)
    ensures d.0 in Comp(g, f)
  {
    assert IsCall(g, d);
    MutualEquivalence(g, d.0, f, f);
  }

  lemma SettledCall(g: Graph, r: map<Arc, real>, own: map<Id, real>, t: map<Id, real>, ct: map<Arc, real>,
                    busy: set<Id>, f: Id, e: Arc, sub: real)
    requires own.Keys == g.Keys && Settled(g, r, own, t, ct, busy) && e in OutArcs(g, f) && e.0 in busy
    ensures Settled(g, r, own, t, ct[e := sub], busy)
  {
    assert External(g, e);
    hide Balanced, Times, Share, External, OutArcs;
  }

  lemma SumCall(g: Graph, r: map<Arc, real>, t: map<Id, real>, t': map<Id, real>, done: set<Arc>, e: Arc)
    requires done <= Arcs(g) && e in Arcs(g) - done && e.1 in t' && (forall d :: d in done ==> d.1 in t)
    requires forall y :: y in t ==> y in t' && t'[y] == t[y]
    ensures Total(done + {e}, Flow(g, r, t')) == Total(done, Flow(g, r, t)) + Times(Share(r, e), t'[e.1])
  {
    hide Total, Times, Share, Arcs;
    TotalNext(done, Flow(g, r, t'), e);
    FlowStays(g, r, t, t', done);
  }

  /** The totals with one more component. */
  ghost function With(g: Graph, t: map<Id, real>, f: Id, sum: real): (t': map<Id, real>)
  {
    t + map y | y in Comp(g, f) :: sum
  }

  lemma CompDone(g: Graph, r: map<Arc, real>, own: map<Id, real>, t: map<Id, real>, ct: map<Arc, real>, busy: set<Id>,
                 f: Id, sum: real)
    requires own.Keys == g.Keys && f in g && Comp(g, f) !! busy && Settled(g, r, own, t, ct, busy + Comp(g, f))
    requires Progress(g, r, own, t, ct, f, Comp(g, f), OutArcs(g, f), sum)
    ensures Settled(g, r, own, With(g, t, f, sum), ct, busy)
    ensures forall y :: y in t ==> y in With(g, t, f, sum) && With(g, t, f, sum)[y] == t[y]
  {
    hide Balanced, Total, Times, Share, Flow, External, Comp, OutArcs;
    var t' := With(g, t, f, sum);
    assert forall y :: y in t ==> y in t' && t'[y] == t[y];
    forall x | x in t ensures Balanced(g, r, own, t', x) { BalancedStays(g, r, own, t, t', x); }
    forall x | x in Comp(g, f) ensures x in g && Balanced(g, r, own, t', x) {
      CompIn(g, f, x);
      NewlyBalanced(g, r, own, t, f, sum, x);
    }
    forall e | External(g, e) && e.0 in Comp(g, f) ensures e in OutArcs(g, f) { LeavesComp(g, f, e); }
  }

  lemma CompIn(g: Graph, f: Id, x: Id)
    requires x in Comp(g, f)
    ensures x in g
  {
  }

  lemma LeavesComp(g: Graph, f: Id, e: Arc)
    requires External(g, e) && e.0 in Comp(g, f)
    ensures e in OutArcs(g, f)
  {
    MutualEquivalence(g, f, e.0, e.0);
  }

  lemma WithIs(g: Graph, t: map<Id, real>, f: Id, sum: real)
    requires Comp(g, f) !! t.Keys
    ensures forall y :: y in t ==> y in With(g, t, f, sum) && With(g, t, f, sum)[y] == t[y]
    ensures forall y :: y in Comp(g, f) ==> y in With(g, t, f, sum) && With(g, t, f, sum)[y] == sum
  {
    hide Comp;
  }

  lemma NewlyBalanced(g: Graph, r: map<Arc, real>, own: map<Id, real>, t: map<Id, real>, f: Id, sum: real, x: Id)
    requires own.Keys == g.Keys && f in g && x in g && x in Comp(g, f) && Comp(g, f) !! t.Keys
    requires forall e :: e in OutArcs(g, f) ==> e.1 in t
    requires sum == Total(Comp(g, f), own) + Total(OutArcs(g, f), Flow(g, r, t))
    ensures Balanced(g, r, own, With(g, t, f, sum), x)
  {
    assert Mutual(g, f, x);
    hide Comp, OutArcs, Total, Flow, Mutual, With, Balanced;
    BalancedFirst(g, r, own, t, f, sum);
    BalancedMate(g, r, own, With(g, t, f, sum), f, x);
  }

  lemma BalancedFirst(g: Graph, r: map<Arc, real>, own: map<Id, real>, t: map<Id, real>, f: Id, sum: real)
    requires own.Keys == g.Keys && f in g && Comp(g, f) !! t.Keys && forall e :: e in OutArcs(g, f) ==> e.1 in t
    requires sum == Total(Comp(g, f), own) + Total(OutArcs(g, f), Flow(g, r, t))
    ensures Balanced(g, r, own, With(g, t, f, sum), f)
  {
    hide Comp, OutArcs, Total, Flow, With;
    InOwnComp(g, f);
    WithIs(g, t, f, sum);
    FlowStays(g, r, t, With(g, t, f, sum), OutArcs(g, f));
  }

  lemma BalancedMate(g: Graph, r: map<Arc, real>, own: map<Id, real>, t: map<Id, real>, f: Id, x: Id)
    requires own.Keys == g.Keys && f in g && x in g && Mutual(g, f, x) && Balanced(g, r, own, t, f)
    ensures Balanced(g, r, own, t, x)
  {
    hide Comp, OutArcs, Total, Flow, Mutual;
    SameComp(g, f, x);
    SameOut(g, f, x);
    InOwnComp(g, x);
  }

  lemma SameOut(g: Graph, x: Id, y: Id)
    requires Mutual(g, x, y)
    ensures OutArcs(g, x) == OutArcs(g, y)
  {
    hide Mutual, IsCall;
    forall e | e in Arcs(g) ensures Mutual(g, e.0, x) <==> Mutual(g, e.0, y) {
      MutualEquivalence(g, e.0, x, y);
      MutualEquivalence(g, x, y, e.0);
      MutualEquivalence(g, e.0, y, x);
    }
  }

  /** The calls seen so far that leave their component. */
  ghost function ExtSeen(g: Graph, done: set<Id>, m: Id, callees: set<Id>): (s: set<Arc>)
    ensures s <= Arcs(g)
  {
    set e | e in ArcsSeen(g, done, m, callees) && External(g, e)
  }

  lemma ExtNext(g: Graph, f: Id, done: set<Id>, m: Id, callees: set<Id>, y: Id)
    requires f in g && m in Comp(g, f) && m !in done && y in Callees(g, m) - callees
    ensures !Mutual(g, m, y) ==>
      && (m, y) in OutArcs(g, f) && (m, y) !in ExtSeen(g, done, m, callees)
      && ExtSeen(g, done, m, callees + {y}) == ExtSeen(g, done, m, callees) + {(m, y)}
    ensures Mutual(g, m, y) ==> ExtSeen(g, done, m, callees + {y}) == ExtSeen(g, done, m, callees)
  {
    ArcsNext(g, done, m, callees, y);
    assert IsCall(g, (m, y));
  }

  lemma ExtOfNext(g: Graph, done: set<Id>, m: Id, x: Id)
    requires m in g
    ensures ExtSeen(g, done, m, Callees(g, m)) == ExtSeen(g, done + {m}, x, {})
    ensures ExtSeen(g, done, m, {}) == ExtSeen(g, done, x, {})
  {
    ArcsOfNext(g, done, m, x);
  }

  lemma ExtOfAll(g: Graph, f: Id, x: Id)
    requires f in g
    ensures ExtSeen(g, Comp(g, f), x, {}) == OutArcs(g, f) && ExtSeen(g, {}, x, {}) == {}
  {
    forall e | External(g, e) ensures e.0 in Comp(g, f) <==> Mutual(g, e.0, f) {
      MutualEquivalence(g, e.0, f, f);
      MutualEquivalence(g, f, e.0, f);
    }
  }

  /** The totals as the two tables hold them: a function in a cycle has the total of its cycle. */
  ghost function ViewOf(g: Graph, cycle: map<Id, Cycle>, total: map<Id, real>,
                        cycleTotal: map<Cycle, real>): (t: map<Id, real>)
  {
    map x | x in g && (if x in cycle then cycle[x] in cycleTotal else x in total) ::
      if x in cycle then cycleTotal[cycle[x]] else total[x]
  }

  lemma ViewWithFunction(g: Graph, cycle: map<Id, Cycle>, total: map<Id, real>, cycleTotal: map<Cycle, real>, f: Id,
                         sum: real)
    requires Grouped(g, cycle) && f in g && f !in cycle
    ensures Comp(g, f) == {f} && ViewOf(g, cycle, total[f := sum], cycleTotal)
            == With(g, ViewOf(g, cycle, total, cycleTotal), f, sum)
  {
    InOwnComp(g, f);
    assert forall y :: y in Comp(g, f) && y != f ==> HasMate(g, f);
    assert Comp(g, f) == {f};
  }

  lemma ViewWithCycle(g: Graph, cycle: map<Id, Cycle>, total: map<Id, real>, cycleTotal: map<Cycle, real>, f: Id,
                      sum: real)
    requires Grouped(g, cycle) && f in g && f in cycle
    ensures ViewOf(g, cycle, total, cycleTotal[cycle[f] := sum]) == With(g, ViewOf(g, cycle, total, cycleTotal), f, sum)
  {
    InOwnComp(g, f);
    forall y | y in g ensures y in Comp(g, f) <==> y in cycle && cycle[y] == cycle[f] {
      if y != f { assert Mutual(g, f, y) <==> f in cycle && y in cycle && cycle[f] == cycle[y]; }
    }
    hide Mutual, HasMate, Comp;
  }

  class Profile {
    const functions: seq<Id>
    const calls: Graph
    // The cycle object of each function that has one, and all of them, as find_cycles leaves them.
    const cycle: map<Id, Cycle>
    const cycles: seq<Cycle>
    // The event that weighs the calls, where a call carries it, and each function's own value.
    const weight: map<Arc, real>
    const own: map<Id, real>
    // What the passes compute: ratios, totals of functions, cycles and calls, and the total of the profile.
    var ratios: map<Arc, real>
    var total: map<Id, real>
    var cycleTotal: map<Cycle, real>
    var callTotal: map<Arc, real>
    var whole: real

    constructor (functions: seq<Id>, calls: Graph, cycle: map<Id, Cycle>, cycles: seq<Cycle>,
                 weight: map<Arc, real>, own: map<Id, real>)
      requires Distinct(functions) && (forall x :: x in functions <==> x in calls)
      requires WellFormed(calls, weight) && own.Keys == calls.Keys
      requires Grouped(calls, cycle) && forall x :: x in calls && x in cycle ==> cycle[x] in cycles
      ensures Ok() && ratios == map[] && total == map[] && cycleTotal == map[] && callTotal == map[]
      ensures this.functions == functions && this.calls == calls && this.cycle == cycle && this.cycles == cycles
      ensures this.weight == weight && this.own == own
    {
      this.functions, this.calls, this.cycle, this.cycles := functions, calls, cycle, cycles;
      this.weight, this.own := weight, own;
      ratios, total, cycleTotal, callTotal, whole := map[], map[], map[], map[], 0.0;
    }

    ghost predicate Ok()
    {
      && Distinct(functions) && (forall x :: x in functions <==> x in calls)
      && WellFormed(calls, weight) && own.Keys == calls.Keys
      && Grouped(calls, cycle) && forall x :: x in calls && x in cycle ==> cycle[x] in cycles
    }


    /** Both passes: the totals that come into functions and cycles first, then every call's share of them. */
    method CallRatios()
      requires Ok() && ratios == map[]
      modifies this`ratios
      ensures RatiosOf(calls, weight, ratios)
    {
      hide RatioOf, WellFormed, Grouped, InTotal, GateTotal, Firsts, Arcs, ArcsSeen;
      FirstsAll(functions, calls.Keys);
      var totals, cycleTotals := IncomingTotals();
      ArcsEnds(calls);
      for i := 0 to |functions|
        invariant RatiosFor(calls, weight, ArcsSeen(calls, Firsts(functions, i), 0, {}), ratios)
      {
        FirstsNext(functions, i);
        ArcsOfNext(calls, Firsts(functions, i), functions[i], 0);
        SetRatios(functions[i], totals, cycleTotals, Firsts(functions, i));
      }
    }

    method IncomingTotals() returns (totals: map<Id, real>, cycleTotals: map<Cycle, real>)
      requires Ok()
      ensures totals.Keys == calls.Keys && forall y :: y in calls ==> totals[y] == InTotal(calls, weight, y)
      ensures forall x :: x in calls && x in cycle ==>
        cycle[x] in cycleTotals && cycleTotals[cycle[x]] == GateTotal(calls, weight, x)
    {
      hide TotalsFor, CycleTotalsFor, WellFormed, Grouped, Firsts, Arcs, ArcsSeen;
      FirstsAll(functions, calls.Keys);
      cycleTotals := map c | c in cycles :: 0.0;
      totals := map y | y in calls :: 0.0;
      StartTotals(calls, weight, cycle, cycles, cycleTotals);
      ArcsEnds(calls);
      for i := 0 to |functions|
        invariant totals.Keys == calls.Keys
        invariant TotalsFor(calls, weight, ArcsSeen(calls, Firsts(functions, i), 0, {}), totals)
        invariant CycleTotalsFor(calls, weight, cycle, ArcsSeen(calls, Firsts(functions, i), 0, {}), cycleTotals)
      {
        FirstsNext(functions, i);
        ArcsOfNext(calls, Firsts(functions, i), functions[i], 0);
        totals, cycleTotals := AddCalls(functions[i], totals, cycleTotals, Firsts(functions, i));
      }
      AllTotals(calls, weight, cycle, totals, cycleTotals);
    }

    /** The calls of one function add to the totals of their callees and of the cycles they enter. */
    method AddCalls(f: Id, before: map<Id, real>, cyclesBefore: map<Cycle, real>, ghost done: set<Id>)
      returns (totals: map<Id, real>, cycleTotals: map<Cycle, real>)
      requires Ok() && f in calls && f !in done && before.Keys == calls.Keys
      requires TotalsFor(calls, weight, ArcsSeen(calls, done, f, {}), before)
      requires CycleTotalsFor(calls, weight, cycle, ArcsSeen(calls, done, f, {}), cyclesBefore)
      ensures totals.Keys == calls.Keys
      ensures TotalsFor(calls, weight, ArcsSeen(calls, done, f, Callees(calls, f)), totals)
      ensures CycleTotalsFor(calls, weight, cycle, ArcsSeen(calls, done, f, Callees(calls, f)), cycleTotals)
    {
      hide TotalsFor, CycleTotalsFor, Grouped, Arcs, ArcsSeen, Seen;
      totals, cycleTotals := before, cyclesBefore;
      SeenAll(calls, f);
      for j := 0 to |calls[f]|
        invariant totals.Keys == calls.Keys
        invariant TotalsFor(calls, weight, ArcsSeen(calls, done, f, Seen(calls, f, j)), totals)
        invariant CycleTotalsFor(calls, weight, cycle, ArcsSeen(calls, done, f, Seen(calls, f, j)), cycleTotals)
      {
        var callee := calls[f][j];
        SeenNext(calls, weight, f, j);
        if callee != f {
          ghost var seen := ArcsSeen(calls, done, f, Seen(calls, f, j));
          ArcsNext(calls, done, f, Seen(calls, f, j), callee);
          TotalsSee(calls, weight, seen, totals, (f, callee));
          CycleTotalsSee(calls, weight, cycle, seen, cycleTotals, (f, callee));
          if (f, callee) in weight {
            totals := totals[callee := totals[callee] + weight[(f, callee)]];
            if EntersCycle(cycle, f, callee) {
              cycleTotals := cycleTotals[cycle[callee] := cycleTotals[cycle[callee]] + weight[(f, callee)]];
            }
          } else {
            assert totals[callee := totals[callee] + 0.0] == totals;
            assert EntersCycle(cycle, f, callee) ==>
              cycleTotals[cycle[callee] := cycleTotals[cycle[callee]] + 0.0] == cycleTotals;
          }
        }
      }
    }

    /** Each call of f gets its ratio once: of the cycle total if it enters a cycle, of the function total otherwise. */
    method SetRatios(f: Id, totals: map<Id, real>, cycleTotals: map<Cycle, real>, ghost done: set<Id>)
      requires Ok() && f in calls && f !in done && RatiosFor(calls, weight, ArcsSeen(calls, done, f, {}), ratios)
      requires totals.Keys == calls.Keys && forall y :: y in calls ==> totals[y] == InTotal(calls, weight, y)
      requires forall x :: x in calls && x in cycle ==>
        cycle[x] in cycleTotals && cycleTotals[cycle[x]] == GateTotal(calls, weight, x)
      modifies this`ratios
      ensures RatiosFor(calls, weight, ArcsSeen(calls, done, f, Callees(calls, f)), ratios)
    {
      hide RatiosFor, InTotal, GateTotal, Ratio, Arcs, ArcsSeen, Seen, Grouped, HasMate, Mutual;
      SeenAll(calls, f);
      for j := 0 to |calls[f]|
        invariant RatiosFor(calls, weight, ArcsSeen(calls, done, f, Seen(calls, f, j)), ratios)
      {
        var callee := calls[f][j];
        SeenNext(calls, weight, f, j);
        if callee != f {
          ArcsNext(calls, done, f, Seen(calls, f, j), callee);
          RatiosSeen(calls, weight, ArcsSeen(calls, done, f, Seen(calls, f, j)), ratios);
          assert (f, callee) !in ratios;
          EntersIff(calls, cycle, f, callee);
          var e := (f, callee);
          ghost var v := RatioOf(calls, weight, e);
          RatiosNext(calls, weight, ArcsSeen(calls, done, f, Seen(calls, f, j)), ratios, e);
          if e in weight {
            var all := if EntersCycle(cycle, f, callee) then cycleTotals[cycle[callee]] else totals[callee];
            ratios := ratios[e := Ratio(weight[e], all)];
          } else {
            ratios := ratios[e := 0.0];
          }
          assert ratios[e] == v;
        }
      }
    }

    // ----- propagation

    ghost predicate Ready()
      reads this`ratios, cycle.Values
    {
      && Ok() && RatiosOf(calls, weight, ratios)
      && forall x :: x in calls && x in cycle ==> forall y :: y in cycle[x].functions <==> Mutual(calls, x, y)
    }

    ghost function View(): (t: map<Id, real>)
      reads this`total, this`cycleTotal
    {
      ViewOf(calls, cycle, total, cycleTotal)
    }

    ghost predicate Memo(busy: set<Id>)
      requires own.Keys == calls.Keys
      reads this`ratios, this`total, this`cycleTotal, this`callTotal
    {
      Settled(calls, ratios, own, View(), callTotal, busy)
    }

    ghost predicate Halfway(f: Id, members: set<Id>, done: set<Arc>, sum: real)
      requires own.Keys == calls.Keys && f in calls
      reads this`ratios, this`total, this`cycleTotal, this`callTotal
    {
      Progress(calls, ratios, own, View(), callTotal, f, members, done, sum)
    }

    /** Every function is integrated; each call between components gets its value exactly once. */
    method Integrate()
      requires Ready() && total == map[] && cycleTotal == map[] && callTotal == map[]
      modifies this`total, this`cycleTotal, this`callTotal, this`whole
      ensures Solved(calls, ratios, own, View()) && whole == Total(calls.Keys, own)
      ensures forall e :: e in callTotal <==> External(calls, e)
      ensures forall e :: e in callTotal ==> e.1 in View() && callTotal[e] == Times(Share(ratios, e), View()[e.1])
      ensures NonNegative(weight) ==>
        Total(Unentered(calls, weight), View()) == whole + Total(Doubtful(calls, weight), Excess(calls, weight, View()))
    {
      hide Total, Settled, Firsts, RatioOf, Times, Share, Solved, Unentered, Doubtful, Excess, NonNegative, ViewOf,
          Grouped, Mutual;
      FirstsAll(functions, calls.Keys);
      NothingSettled(calls, ratios, own, cycle);
      whole := 0.0;
      for i := 0 to |functions|
        invariant Memo({}) && Firsts(functions, i) <= View().Keys
        invariant whole == Total(Firsts(functions, i), own)
      {
        FirstsNext(functions, i);
        TotalNext(Firsts(functions, i), own, functions[i]);
        whole := whole + own[functions[i]];
        var _ := IntegrateFunction(functions[i], {});
      }
      AllSettled(calls, ratios, own, View(), callTotal);
      if NonNegative(weight) { RootsHoldOwn(calls, weight, ratios, own, View()); }
    }

    /** The total of f, or of its cycle, computed only the first time; `busy` are the functions whose calls led here. */
    method IntegrateFunction(f: Id, ghost busy: set<Id>) returns (v: real)
      requires Ready() && f in calls && Comp(calls, f) !! busy && Above(calls, busy, f) && Memo(busy)
      modifies this`total, this`cycleTotal, this`callTotal
      ensures Memo(busy) && f in View() && v == View()[f]
      ensures Grown(old(View()), old(callTotal), View(), callTotal, busy)
      decreases |ReachSet(calls, f)|, 3
    {
      hide Settled, Progress, RatiosOf, Above, Grouped, WellFormed, Comp, Mutual, ExtSeen, OutArcs, Callees;
      if f in cycle {
        v := IntegrateCycle(cycle[f], f, busy);
      } else {
        if f !in total {
          Begin(calls, ratios, own, View(), callTotal, busy, f);
          ViewWithFunction(calls, cycle, total, cycleTotal, f, 0.0);
          AddOwn(calls, ratios, own, View(), callTotal, f, {}, {}, 0.0, f);
          ExtOfAll(calls, f, f);
          ghost var none: set<Id> := {};
          assert none + {f} == {f};
          var sum := IntegrateCalls(f, f, busy, {f}, none, 0.0);
          ExtOfNext(calls, none, f, f);
          CompDone(calls, ratios, own, View(), callTotal, busy, f, sum);
          ViewWithFunction(calls, cycle, total, cycleTotal, f, sum);
          total := total[f := sum];
        }
        v := total[f];
      }
    }

    /** The total of a cycle: the own values of its functions and their shares of what they call outside it. */
    method IntegrateCycle(c: Cycle, ghost f: Id, ghost busy: set<Id>) returns (v: real)
      requires Ready() && f in calls && f in cycle && cycle[f] == c
      requires Comp(calls, f) !! busy && Above(calls, busy, f) && Memo(busy)
      modifies this`total, this`cycleTotal, this`callTotal
      ensures Memo(busy) && f in View() && v == View()[f]
      ensures Grown(old(View()), old(callTotal), View(), callTotal, busy)
      decreases |ReachSet(calls, f)|, 2
    {
      hide Settled, Progress, RatiosOf, Above, Grouped, WellFormed, OutArcs, Mutual, Comp;
      if c !in cycleTotal {
        Begin(calls, ratios, own, View(), callTotal, busy, f);
        var sum := SumCycle(c, f, busy);
        CompDone(calls, ratios, own, View(), callTotal, busy, f, sum);
        ViewWithCycle(calls, cycle, total, cycleTotal, f, sum);
        InOwnComp(calls, f);
        cycleTotal := cycleTotal[c := sum];
      }
      v := cycleTotal[c];
    }

    method SumCycle(c: Cycle, ghost f: Id, ghost busy: set<Id>) returns (sum: real)
      requires Ready() && f in calls && f in cycle && cycle[f] == c
      requires Comp(calls, f) !! busy && Above(calls, busy, f) && Memo(busy + Comp(calls, f)) && Halfway(f, {}, {}, 0.0)
      modifies this`total, this`cycleTotal, this`callTotal
      ensures Memo(busy + Comp(calls, f)) && Halfway(f, Comp(calls, f), OutArcs(calls, f), sum)
      ensures Grown(old(View()), old(callTotal), View(), callTotal, busy)
      decreases |ReachSet(calls, f)|, 1, 1
    {
      hide Settled, Progress, RatiosOf, Above, Grouped, WellFormed, ExtSeen, OutArcs, Firsts, Callees, Mutual, Comp,
          ViewOf;
      var members := Listed(c.functions);
      CycleMembers(calls, weight, f, members);
      ExtOfAll(calls, f, f);
      sum := 0.0;
      for i := 0 to |members|
        invariant Memo(busy + Comp(calls, f))
        invariant Halfway(f, Firsts(members, i), ExtSeen(calls, Firsts(members, i), f, {}), sum)
        invariant Grown(old(View()), old(callTotal), View(), callTotal, busy)
      {
        FirstsNext(members, i);
        CompIn(calls, f, members[i]);
        ghost var before := Firsts(members, i);
        AddOwn(calls, ratios, own, View(), callTotal, f, before, ExtSeen(calls, before, f, {}), sum, members[i]);
        ExtOfNext(calls, before, members[i], f);
        var subtotal := IntegrateCalls(members[i], f, busy, before + {members[i]}, before, sum);
        sum := sum + subtotal;
      }
    }

    /** The own value of one function, and its shares of what it calls outside its component. */
    method IntegrateCalls(m: Id, ghost f: Id, ghost busy: set<Id>, ghost members: set<Id>, ghost before: set<Id>,
                          ghost base: real)
      returns (subtotal: real)
      requires Ready() && f in calls && m in calls && m in Comp(calls, f) && m !in before
      requires Comp(calls, f) !! busy && Above(calls, busy, f) && Memo(busy + Comp(calls, f))
      requires Halfway(f, members, ExtSeen(calls, before, m, {}), base + own[m])
      modifies this`total, this`cycleTotal, this`callTotal
      ensures Memo(busy + Comp(calls, f))
      ensures Halfway(f, members, ExtSeen(calls, before, m, Callees(calls, m)), base + subtotal)
      ensures Grown(old(View()), old(callTotal), View(), callTotal, busy)
      decreases |ReachSet(calls, f)|, 1, 0
    {
      hide Settled, Progress, RatiosOf, Above, Grouped, Comp, Mutual, ExtSeen, OutArcs, Seen, ViewOf;
      SeenAll(calls, m);
      subtotal := own[m];
      for j := 0 to |calls[m]|
        invariant Memo(busy + Comp(calls, f))
        invariant Halfway(f, members, ExtSeen(calls, before, m, Seen(calls, m, j)), base + subtotal)
        invariant Grown(old(View()), old(callTotal), View(), callTotal, busy)
      {
        SeenNext(calls, weight, m, j);
        var callee := calls[m][j];
        StaysIff(calls, cycle, m, callee);
        if callee != m { ExtNext(calls, f, before, m, Seen(calls, m, j), callee); }
        if !StaysInside(cycle, m, callee) {
          ghost var done := ExtSeen(calls, before, m, Seen(calls, m, j));
          StaysSelf(calls, cycle, m, callee);
          var sub := IntegrateCall(m, callee, f, busy, members, done, base + subtotal);
          subtotal := subtotal + sub;
        }
      }
    }

    /** One call to another component, never integrated before. */
    method IntegrateCall(m: Id, callee: Id, ghost f: Id, ghost busy: set<Id>, ghost members: set<Id>,
                         ghost done: set<Arc>, ghost sum: real)
      returns (sub: real)
      requires Ready() && f in calls && m in Comp(calls, f) && (m, callee) in OutArcs(calls, f) - done
      requires Comp(calls, f) !! busy && Above(calls, busy, f) && Memo(busy + Comp(calls, f))
               && Halfway(f, members, done, sum)
      modifies this`total, this`cycleTotal, this`callTotal
      ensures Memo(busy + Comp(calls, f)) && Halfway(f, members, done + {(m, callee)}, sum + sub)
      ensures Grown(old(View()), old(callTotal), View(), callTotal, busy)
      decreases |ReachSet(calls, f)|, 0
    {
      hide Settled, RatioOf, Above, Grouped, Comp, Mutual, OutArcs, ViewOf, Grown, Times, Share;
      var call := (m, callee);
      assert call !in callTotal;
      hide Progress;
      CallReachesLess(calls, f, call);
      NotBusy(calls, busy, f, call);
      ghost var t, ct := View(), callTotal;
      var v := IntegrateFunction(callee, busy + Comp(calls, f));
      sub := ratios[call] * v;
      IsTimes(ratios, call, v);
      CallDone(calls, ratios, own, t, ct, View(), callTotal, busy + Comp(calls, f), f, members, done, sum, call, sub);
      assert busy + Comp(calls, f) - Comp(calls, f) == busy;
      callTotal := callTotal[call := sub];
    }
  }

  lemma StaysSelf(g: Graph, cycle: map<Id, Cycle>, f: Id, callee: Id)
    requires !StaysInside(cycle, f, callee)
    ensures f != callee
  {
  }

  lemma IsTimes(r: map<Arc, real>, e: Arc, v: real)
    requires e in r
    ensures r[e] * v == Times(Share(r, e), v)
  {
  }

  lemma CycleMembers(g: Graph, w: map<Arc, real>, f: Id, members: seq<Id>)
    requires WellFormed(g, w) && f in g && forall y :: y in members <==> Mutual(g, f, y)
    ensures Firsts(members, |members|) == Comp(g, f) && Firsts(members, 0) == {}
    ensures forall y :: y in members ==> y in Comp(g, f)
  {
    forall y | Mutual(g, f, y) ensures y in g {
      if y !in g {
        var a, b := Crossing(g, g.Keys, f, y);
      }
    }
    FirstsAll(members, Comp(g, f));
  }

  lemma NothingSettled(g: Graph, r: map<Arc, real>, own: map<Id, real>, cycle: map<Id, Cycle>)
    requires own.Keys == g.Keys
    ensures Settled(g, r, own, ViewOf(g, cycle, map[], map[]), map[], {}) && Total({}, own) == 0.0
    ensures forall f :: Above(g, {}, f)
  {
  }

  lemma AllSettled(g: Graph, r: map<Arc, real>, own: map<Id, real>, t: map<Id, real>, ct: map<Arc, real>)
    requires own.Keys == g.Keys && Settled(g, r, own, t, ct, {}) && g.Keys <= t.Keys
    ensures Solved(g, r, own, t) && (forall e :: e in ct <==> External(g, e))
    ensures forall e :: e in ct ==> e.1 in t && ct[e] == Times(Share(r, e), t[e.1])
  {
    hide Balanced, Times, Share;
    assert forall e :: External(g, e) ==> e.0 in g;
  }

  lemma SameBalance(g: Graph, r: map<Arc, real>, own: map<Id, real>, t: map<Id, real>, u: map<Id, real>, x: Id)
    requires own.Keys == g.Keys && x in g && Balanced(g, r, own, t, x) && Balanced(g, r, own, u, x)
    requires forall e :: e in OutArcs(g, x) ==> e.1 in t && e.1 in u && t[e.1] == u[e.1]
    ensures t[x] == u[x]
  {
    hide Total, Times, Share, OutArcs, Arcs, Comp;
    TotalSame(OutArcs(g, x), Flow(g, r, t), Flow(g, r, u));
  }

  /** The balance determines every total, on every profile. */
  lemma {:induction false} OneSolution(g: Graph, r: map<Arc, real>, own: map<Id, real>, t: map<Id, real>,
                                       u: map<Id, real>, x: Id)
    requires Closed(g) && own.Keys == g.Keys && Solved(g, r, own, t) && Solved(g, r, own, u) && x in g
    ensures t[x] == u[x]
    decreases |ReachSet(g, x)|
  {
    hide Closed, Balanced, OutArcs, ReachSet;
    forall e | e in OutArcs(g, x) ensures e.1 in g && t[e.1] == u[e.1] {
      CallReachesLess(g, x, e);
      OneSolution(g, r, own, t, u, e.1);
    }
    SameBalance(g, r, own, t, u, x);
  }

  lemma ArcsEnds(g: Graph)
    ensures ArcsSeen(g, g.Keys, 0, {}) == Arcs(g) && ArcsSeen(g, {}, 0, {}) == {}
  {
  }
}
