/**
 How the total of a cycle is divided among its functions, once for every function at which the cycle
 is entered: ranks by distance from the entry, the cycle opened at the entry, and when the assertions
 of that division hold.
 */
module CyclePartials {
  import opened CallGraph
  import opened CallRatios
  import opened OpenedCycles
  import opened ProfileRatios
  import opened RealSums

  // ----- ranks inside a cycle

  /** The calls of x that stay in the cycle. */
  ghost function Inner(g: Graph, cycle: set<Id>, x: Id): (ys: set<Id>)
    requires x in g
  {
    Callees(g, x) * cycle
  }

  /** Called within the cycle by a function of lower rank than n. */
  ghost predicate CalledBelow(g: Graph, ranks: map<Id, nat>, x: Id, n: nat)
  {
    exists q :: q in ranks && q in g && x in Callees(g, q) && ranks[q] < n
  }

  /** Every function that x calls is at most one further away. */
  ghost predicate Relaxed(g: Graph, cycle: set<Id>, ranks: map<Id, nat>, x: Id)
    requires x in g
  {
    x in ranks && forall z :: z in Inner(g, cycle, x) ==> z in ranks && ranks[z] <= ranks[x] + 1
  }

  /**
   The entry has rank zero, every other function is called by one of lower rank, and no call raises
   it by more than one.
   */
  ghost predicate Ranked(g: Graph, cycle: set<Id>, y: Id, ranks: map<Id, nat>)
    requires cycle <= g.Keys
  {
    && ranks.Keys == cycle && y in cycle && ranks[y] == 0
    && (forall x :: x in cycle && x != y ==> CalledBelow(g, ranks, x, ranks[x]))
    && forall x :: x in cycle ==> Relaxed(g, cycle, ranks, x)
  }

  /** Reached from y by at most n calls within the cycle. */
  ghost predicate Within(g: Graph, cycle: set<Id>, y: Id, x: Id, n: nat)
    requires cycle <= g.Keys
    decreases n
  {
    x == y || (n > 0 && exists q :: q in cycle && x in Inner(g, cycle, q) && Within(g, cycle, y, q, n - 1))
  }

  lemma LowerCaller(g: Graph, cycle: set<Id>, y: Id, ranks: map<Id, nat>, x: Id) returns (q: Id)
    requires cycle <= g.Keys && Ranked(g, cycle, y, ranks) && x in cycle && x != y
    ensures q in cycle && x in Inner(g, cycle, q) && ranks[q] < ranks[x]
  {
    assert CalledBelow(g, ranks, x, ranks[x]);
    q :| q in ranks && q in g && x in Callees(g, q) && ranks[q] < ranks[x];
  }

  lemma OneFurther(g: Graph, cycle: set<Id>, ranks: map<Id, nat>, q: Id, x: Id)
    requires q in g && Relaxed(g, cycle, ranks, q) && x in Inner(g, cycle, q)
    ensures x in ranks && q in ranks && ranks[x] <= ranks[q] + 1
  {
  }

  /** Ranks are distances. */
  lemma {:induction false} RankIsDistance(g: Graph, cycle: set<Id>, y: Id, ranks: map<Id, nat>, x: Id, n: nat)
    requires cycle <= g.Keys && Ranked(g, cycle, y, ranks) && x in cycle
    ensures ranks[x] <= n <==> Within(g, cycle, y, x, n)
    decreases n
  {
    hide CalledBelow, Relaxed, Inner;
    if x != y {
      var caller := LowerCaller(g, cycle, y, ranks, x);
      if ranks[x] <= n { RankIsDistance(g, cycle, y, ranks, caller, n - 1); }
      if Within(g, cycle, y, x, n) {
        var q :| q in cycle && x in Inner(g, cycle, q) && Within(g, cycle, y, q, n - 1);
        RankIsDistance(g, cycle, y, ranks, q, n - 1);
        OneFurther(g, cycle, ranks, q, x);
      }
    }
  }

  lemma RanksUnique(g: Graph, cycle: set<Id>, y: Id, ranks: map<Id, nat>, others: map<Id, nat>)
    requires cycle <= g.Keys && Ranked(g, cycle, y, ranks) && Ranked(g, cycle, y, others)
    ensures ranks == others
  {
    hide Ranked, Within;
    assert ranks.Keys == cycle == others.Keys by { SameKeys(g, cycle, y, ranks); SameKeys(g, cycle, y, others); }
    forall x | x in cycle ensures ranks[x] == others[x] {
      RankIsDistance(g, cycle, y, ranks, x, ranks[x]);
      RankIsDistance(g, cycle, y, others, x, ranks[x]);
      RankIsDistance(g, cycle, y, ranks, x, others[x]);
      RankIsDistance(g, cycle, y, others, x, others[x]);
    }
  }

  lemma SameKeys(g: Graph, cycle: set<Id>, y: Id, ranks: map<Id, nat>)
    requires cycle <= g.Keys && Ranked(g, cycle, y, ranks)
    ensures ranks.Keys == cycle
  {
  }

  /** While ranking: `busy` are the functions whose calls led here. */
  ghost predicate Ranking(g: Graph, cycle: set<Id>, y: Id, ranks: map<Id, nat>, busy: set<Id>)
    requires cycle <= g.Keys
  {
    && ranks.Keys <= cycle && (y in ranks ==> ranks[y] == 0)
    && (forall x :: x in ranks && x != y ==> CalledBelow(g, ranks, x, ranks[x]))
    && (forall x :: x in ranks && x !in busy ==> Relaxed(g, cycle, ranks, x))
  }

  lemma BelowStays(g: Graph, ranks: map<Id, nat>, f: Id, k: nat, x: Id, n: nat)
    requires CalledBelow(g, ranks, x, n) && (f in ranks ==> ranks[f] > k)
    ensures CalledBelow(g, ranks[f := k], x, n)
  {
    var q :| q in ranks && q in g && x in Callees(g, q) && ranks[q] < n;
    assert q in ranks[f := k] && ranks[f := k][q] < n;
  }

  lemma RankSet(g: Graph, cycle: set<Id>, y: Id, ranks: map<Id, nat>, busy: set<Id>, f: Id, k: nat)
    requires cycle <= g.Keys && Ranking(g, cycle, y, ranks, busy) && f in cycle
    requires (f == y && k == 0) || (y in ranks && CalledBelow(g, ranks, f, k))
    requires f in ranks ==> ranks[f] > k
    ensures Ranking(g, cycle, y, ranks[f := k], busy + {f})
  {
    hide CalledBelow, Inner;
    var ranks' := ranks[f := k];
    forall x | x in ranks' && x != y ensures CalledBelow(g, ranks', x, ranks'[x]) {
      BelowStays(g, ranks, f, k, x, ranks'[x]);
    }
  }

  /** Everything in the cycle is found from the entry. */
  lemma RankedAll(g: Graph, y: Id, ranks: map<Id, nat>)
    requires Closed(g) && y in g && y in ranks && Ranking(g, Comp(g, y), y, ranks, {})
    ensures Ranked(g, Comp(g, y), y, ranks)
  {
    hide CalledBelow;
    InOwnComp(g, y);
    hide Comp, Mutual;
    forall x | x in Comp(g, y) ensures x in ranks { Found(g, y, ranks, x); }
  }

  lemma Found(g: Graph, y: Id, ranks: map<Id, nat>, x: Id)
    requires Closed(g) && y in g && y in ranks && x in Comp(g, y)
    requires forall a :: a in ranks ==> a in Comp(g, y) && Inner(g, Comp(g, y), a) <= ranks.Keys
    ensures x in ranks
  {
    ReachSelf(g, x);
    var s := ranks.Keys + set z | z in g && !Reach(g, z, x);
    if x !in s {
      var a, b := Crossing(g, s, y, x);
      OnTheWay(g, y, a, b, x);
    }
  }

  /** A call from a, on a way from y back to y, stays in the cycle of y. */
  lemma OnTheWay(g: Graph, y: Id, a: Id, b: Id, x: Id)
    requires Closed(g) && x in Comp(g, y) && Edge(g, a, b)
    ensures b in g && (Reach(g, b, x) ==> Reach(g, a, x))
    ensures a in Comp(g, y) && Reach(g, b, x) ==> b in Comp(g, y)
  {
    ReachEdge(g, a, b);
    if Reach(g, b, x) {
      ReachTrans(g, a, b, x);
      ReachTrans(g, b, x, y);
      if a in Comp(g, y) { ReachTrans(g, y, a, b); }
    }
  }

  lemma RankedCaller(g: Graph, ranks: map<Id, nat>, f: Id, callee: Id)
    requires f in g && f in ranks && callee in g[f] && callee != f
    ensures CalledBelow(g, ranks, callee, ranks[f] + 1)
  {
    assert callee in Callees(g, f);
  }

  lemma RankDone(g: Graph, cycle: set<Id>, y: Id, ranks: map<Id, nat>, busy: set<Id>, f: Id)
    requires cycle <= g.Keys && f in g && Ranking(g, cycle, y, ranks, busy + {f}) && f in ranks
    requires forall z :: z in Callees(g, f) * cycle ==> z in ranks && ranks[z] <= ranks[f] + 1
    ensures Ranking(g, cycle, y, ranks, busy)
  {
    hide CalledBelow, Callees;
  }

  /** The distances from y in its cycle. */
  ghost function Ranks(g: Graph, y: Id): (m: map<Id, nat>)
  {
    if exists m :: Ranked(g, Comp(g, y), y, m) then var m :| Ranked(g, Comp(g, y), y, m); m else map[]
  }

  lemma RanksAre(g: Graph, y: Id, m: map<Id, nat>)
    requires Ranked(g, Comp(g, y), y, m)
    ensures Ranks(g, y) == m
  {
    hide Ranked;
    RanksUnique(g, Comp(g, y), y, m, Ranks(g, y));
  }

  // ----- the cycle opened at an entry

  /** The calls of x that leave its cycle. */
  ghost function Leaving(g: Graph, x: Id): (s: set<Arc>)
    ensures s <= Arcs(g)
  {
    set e | e in Arcs(g) && External(g, e) && e.0 == x
  }

  /** The own value of a function, and what its calls out of the cycle pass to it. */
  ghost function Brings(g: Graph, own: map<Id, real>, ct: map<Arc, real>, cycle: set<Id>): (f: map<Id, real>)
    requires cycle <= own.Keys && forall e :: External(g, e) ==> e in ct
    ensures f.Keys == cycle
  {
    map x | x in cycle :: own[x] + Total(Leaving(g, x), ct)
  }

  ghost function RisingArcs(g: Graph, ranks: map<Id, nat>): (s: set<Arc>)
    ensures s <= Arcs(g)
  {
    set e | e in Arcs(g) && e.0 in ranks && e.1 in ranks && ranks[e.0] < ranks[e.1]
  }

  ghost function OpenedAt(g: Graph, r: map<Arc, real>, own: map<Id, real>, ct: map<Arc, real>,
                          y: Id, ranks: map<Id, nat>, rho: real): (o: Opened)
    requires r.Keys == Arcs(g) && own.Keys == g.Keys && forall e :: External(g, e) ==> e in ct
  {
    var brings := Brings(g, own, ct, Comp(g, y));
    Opened(Comp(g, y), y, ranks, RisingArcs(g, ranks), map e | e in RisingArcs(g, ranks) :: r[e],
           map x | x in Comp(g, y) :: Times(brings[x], rho))
  }

  /** Opened at y, where the share rho of the cycle's total leaves it. */
  ghost function Opening(g: Graph, r: map<Arc, real>, own: map<Id, real>, ct: map<Arc, real>, y: Id): (o: Opened)
    requires r.Keys == Arcs(g) && own.Keys == g.Keys && forall e :: External(g, e) ==> e in ct
  {
    OpenedAt(g, r, own, ct, y, Ranks(g, y), EntryRatio(g, r, y))
  }

  lemma OpenedValid(g: Graph, r: map<Arc, real>, own: map<Id, real>, ct: map<Arc, real>,
                    y: Id, ranks: map<Id, nat>, rho: real)
    requires r.Keys == Arcs(g) && own.Keys == g.Keys && forall e :: External(g, e) ==> e in ct
    requires Ranked(g, Comp(g, y), y, ranks) && forall e :: e in r ==> r[e] >= 0.0
    ensures Valid(OpenedAt(g, r, own, ct, y, ranks, rho))
  {
    hide Brings, Comp, Relaxed, CalledBelow, External, Times, InArcs;
    var o := OpenedAt(g, r, own, ct, y, ranks, rho);
    forall x | x in Comp(g, y) ensures InArcs(o, x) == {} <==> x == y { CalledUnlessEntry(g, o, y, x); }
  }

  lemma CalledUnlessEntry(g: Graph, o: Opened, y: Id, x: Id)
    requires Ranked(g, Comp(g, y), y, o.rank) && o.rising == RisingArcs(g, o.rank) && x in Comp(g, y)
    ensures InArcs(o, x) == {} <==> x == y
  {
    hide Comp, Relaxed, CalledBelow, Arcs;
    if x != y {
      RisingInto(g, y, o.rank, x);
      var e :| e in RisingArcs(g, o.rank) && e.1 == x;
      assert e in InArcs(o, x);
    }
  }

  lemma RisingInto(g: Graph, y: Id, ranks: map<Id, nat>, x: Id)
    requires Ranked(g, Comp(g, y), y, ranks) && x in Comp(g, y) && x != y
    ensures exists e :: e in RisingArcs(g, ranks) && e.1 == x
  {
    hide Comp, Relaxed;
    assert CalledBelow(g, ranks, x, ranks[x]);
    var q :| q in ranks && q in g && x in Callees(g, q) && ranks[q] < ranks[x];
    assert IsCall(g, (q, x));
    assert (q, x) in RisingArcs(g, ranks);
  }

  // ----- what the cycle brings in

  ghost function CallerOf(g: Graph): (m: map<Arc, Id>) { map e | e in Arcs(g) :: e.0 }

  /** All that the cycle brings in is its total, and the share rho of it comes to the entry. */
  lemma OpenedOwn(g: Graph, r: map<Arc, real>, own: map<Id, real>, t: map<Id, real>, ct: map<Arc, real>,
                  y: Id, ranks: map<Id, nat>, rho: real)
    requires r.Keys == Arcs(g) && own.Keys == g.Keys && y in g && Solved(g, r, own, t) && Propagated(g, r, t, ct)
    ensures Total(Comp(g, y), OpenedAt(g, r, own, ct, y, ranks, rho).own) == Times(t[y], rho)
  {
    var brings := Brings(g, own, ct, Comp(g, y));
    CycleBrings(g, r, own, t, ct, y);
    hide Total, Times, Brings, Comp, External, Propagated, Solved;
    TotalTimes(Comp(g, y), brings, rho, OpenedAt(g, r, own, ct, y, ranks, rho).own);
  }

  /** Every call between components has been given its share of its callee's total. */
  ghost predicate Propagated(g: Graph, r: map<Arc, real>, t: map<Id, real>, ct: map<Arc, real>)
  {
    forall e :: External(g, e) ==> e in ct && e.1 in t && ct[e] == Times(Share(r, e), t[e.1])
  }

  ghost function LeavingTotals(g: Graph, ct: map<Arc, real>, cycle: set<Id>): (f: map<Id, real>)
    requires forall e :: External(g, e) ==> e in ct
    ensures f.Keys == cycle
  {
    map x | x in cycle :: Total(Leaving(g, x), ct)
  }

  lemma CycleBrings(g: Graph, r: map<Arc, real>, own: map<Id, real>, t: map<Id, real>, ct: map<Arc, real>, y: Id)
    requires own.Keys == g.Keys && y in g && Solved(g, r, own, t) && Propagated(g, r, t, ct)
    ensures Total(Comp(g, y), Brings(g, own, ct, Comp(g, y))) == t[y]
  {
    assert Balanced(g, r, own, t, y);
    hide Total, Times, Comp, Flow, Solved, External, OutArcs, Propagated, Leaving;
    var cycle := Comp(g, y);
    OutFlow(g, r, t, ct, y);
    LeavingSum(g, ct, y);
    TotalPlus(cycle, own, LeavingTotals(g, ct, cycle), Brings(g, own, ct, cycle));
  }

  lemma LeavingSum(g: Graph, ct: map<Arc, real>, y: Id)
    requires forall e :: External(g, e) ==> e in ct
    ensures Total(OutArcs(g, y), ct) == Total(Comp(g, y), LeavingTotals(g, ct, Comp(g, y)))
  {
    hide Total, Comp, Leaving, Group, External, Mutual;
    var cycle := Comp(g, y);
    forall e | e in OutArcs(g, y) ensures e.0 in cycle { LeavesFrom(g, y, e); }
    forall x | x in cycle ensures Group(OutArcs(g, y), CallerOf(g), x) == Leaving(g, x) { LeavingGroup(g, y, x); }
    TotalGrouped(OutArcs(g, y), CallerOf(g), cycle, ct, LeavingTotals(g, ct, cycle));
  }

  lemma OutFlow(g: Graph, r: map<Arc, real>, t: map<Id, real>, ct: map<Arc, real>, y: Id)
    requires Propagated(g, r, t, ct)
    ensures OutArcs(g, y) <= ct.Keys && Total(OutArcs(g, y), ct) == Total(OutArcs(g, y), Flow(g, r, t))
  {
    hide Total, Times, Share;
    forall e | e in OutArcs(g, y) ensures e in ct && ct[e] == Flow(g, r, t)[e] {}
    TotalSame(OutArcs(g, y), ct, Flow(g, r, t));
  }

  lemma LeavesFrom(g: Graph, y: Id, e: Arc)
    requires e in OutArcs(g, y)
    ensures e.0 in Comp(g, y)
  {
    assert IsCall(g, e);
    MutualEquivalence(g, e.0, y, y);
  }

  lemma LeavingGroup(g: Graph, y: Id, x: Id)
    requires x in Comp(g, y)
    ensures Group(OutArcs(g, y), CallerOf(g), x) == Leaving(g, x)
  {
    MutualEquivalence(g, y, x, x);
    hide Mutual;
  }

  // ----- the assertions of the division

  function Abs(v: real): (a: real)
    ensures a == v || a == -v
    ensures a >= 0.0
  {
    if v < 0.0 then -v else v
  }

  /**
   No partial total is larger than the entry's, and that is within a thousandth of the share rho of
   the cycle's total; dividing by a share of zero raises an error as well.
   */
  predicate AssertionsHold(total: real, rho: real, partials: map<Id, real>, y: Id)
    requires y in partials
  {
    && (forall x :: x in partials ==> partials[x] <= partials[y])
    && (total == 0.0 || Tolerated(total, rho, partials[y]))
  }

  predicate Tolerated(total: real, rho: real, partial: real)
  {
    rho * total != 0.0 && Abs(1.0 - partial / (rho * total)) <= 0.001
  }

  lemma TolerantIff(total: real, rho: real, partial: real, excess: real)
    requires total > 0.0 && rho >= 0.0 && excess >= 0.0 && partial == Times(total, rho) + excess
    ensures Tolerated(total, rho, partial) <==> rho != 0.0 && 1000.0 * excess <= Times(total, rho)
  {
    if rho != 0.0 {
      var q := rho * total;
      assert q > 0.0;
      QuotientOver(q, excess);
    }
  }

  lemma QuotientOver(q: real, excess: real)
    requires q > 0.0 && excess >= 0.0
    ensures Abs(1.0 - (q + excess) / q) <= 0.001 <==> 1000.0 * excess <= q
  {
    var p := (q + excess) / q;
    assert p * q == q + excess;
    SmallIff(p - 1.0, q, excess);
  }

  lemma SmallIff(d: real, q: real, excess: real)
    requires d * q == excess && q > 0.0 && excess >= 0.0
    ensures d >= 0.0 && (d <= 0.001 <==> 1000.0 * excess <= q)
  {
    assert (d - 0.001) * q == excess - 0.001 * q;
  }

  // ----- nothing negative anywhere

  lemma {:induction false} TotalsPositive(g: Graph, w: map<Arc, real>, r: map<Arc, real>, own: map<Id, real>,
                                          t: map<Id, real>, x: Id)
    requires Closed(g) && RatiosOf(g, w, r) && own.Keys == g.Keys && Solved(g, r, own, t) && x in g
    requires forall z :: z in own ==> own[z] >= 0.0
    ensures t[x] >= 0.0
    decreases |ReachSet(g, x)|
  {
    assert Balanced(g, r, own, t, x);
    hide Total, Times, RatiosOf, Comp, OutArcs, ReachSet, Solved, Closed, Share;
    forall e | e in OutArcs(g, x) ensures Flow(g, r, t)[e] >= 0.0 {
      CallReachesLess(g, x, e);
      TotalsPositive(g, w, r, own, t, e.1);
      SharePositive(g, w, r, e);
      TimesPositive(Share(r, e), t[e.1]);
    }
    TotalPositive(OutArcs(g, x), Flow(g, r, t));
    TotalPositive(Comp(g, x), own);
  }

  lemma SharePositive(g: Graph, w: map<Arc, real>, r: map<Arc, real>, e: Arc)
    requires RatiosOf(g, w, r)
    ensures Share(r, e) >= 0.0 && (e in r ==> r[e] >= 0.0)
  {
    hide Whole, Ratio;
    if e in r { assert r[e] == RatioOf(g, w, e); }
  }

  lemma EntryRatioPositive(g: Graph, w: map<Arc, real>, r: map<Arc, real>, y: Id)
    requires RatiosOf(g, w, r)
    ensures EntryRatio(g, r, y) >= 0.0
  {
    hide RatioOf, Entries;
    forall e | e in r ensures r[e] >= 0.0 { SharePositive(g, w, r, e); }
    TotalPositive(Entries(g, y), r);
  }

  lemma BringsPositive(g: Graph, w: map<Arc, real>, r: map<Arc, real>, own: map<Id, real>,
                       t: map<Id, real>, ct: map<Arc, real>, cycle: set<Id>)
    requires Closed(g) && RatiosOf(g, w, r) && own.Keys == g.Keys && Solved(g, r, own, t) && Propagated(g, r, t, ct)
    requires cycle <= own.Keys && forall z :: z in own ==> own[z] >= 0.0
    ensures forall x :: x in cycle ==> Brings(g, own, ct, cycle)[x] >= 0.0
  {
    hide Total, Times, RatiosOf, Balanced, Closed, Share;
    forall e | External(g, e) ensures ct[e] >= 0.0 {
      assert e.1 in g;
      TotalsPositive(g, w, r, own, t, e.1);
      SharePositive(g, w, r, e);
      TimesPositive(Share(r, e), t[e.1]);
    }
    hide External;
    forall x | x in cycle ensures Brings(g, own, ct, cycle)[x] >= 0.0 { TotalPositive(Leaving(g, x), ct); }
  }

  lemma OpenedPositive(g: Graph, w: map<Arc, real>, r: map<Arc, real>, own: map<Id, real>,
                       t: map<Id, real>, ct: map<Arc, real>, y: Id)
    requires Closed(g) && RatiosOf(g, w, r) && own.Keys == g.Keys && Solved(g, r, own, t) && Propagated(g, r, t, ct)
    requires forall z :: z in own ==> own[z] >= 0.0
    ensures var o := Opening(g, r, own, ct, y); o.own.Keys == o.members && forall x :: x in o.own ==> o.own[x] >= 0.0
  {
    hide RatioOf, Closed, Balanced, Brings, Times, Comp, EntryRatio, External;
    var cycle := Comp(g, y);
    assert cycle <= g.Keys by { CompInGraph(g, y); }
    BringsPositive(g, w, r, own, t, ct, cycle);
    EntryRatioPositive(g, w, r, y);
    forall x | x in cycle ensures Times(Brings(g, own, ct, cycle)[x], EntryRatio(g, r, y)) >= 0.0 {
      TimesPositive(Brings(g, own, ct, cycle)[x], EntryRatio(g, r, y));
    }
  }

  lemma CompInGraph(g: Graph, y: Id)
    ensures Comp(g, y) <= g.Keys
  {
  }

  /** How much more than its share arrives at the entry. */
  ghost function Surplus(o: Opened, partials: map<Id, real>): (v: real)
    requires Valid(o)
  {
    Total(Idle(o), IdleExcess(o, partials))
  }

  /** There is none unless an idle function has several callers. */
  lemma SurplusPositive(o: Opened, partials: map<Id, real>)
    requires Valid(o) && forall x :: x in o.members ==> x in partials && partials[x] >= 0.0
    ensures Surplus(o, partials) >= 0.0
    ensures (forall x :: x in Idle(o) ==> |InArcs(o, x)| == 1) ==> Surplus(o, partials) == 0.0
  {
    hide Total, Times, CallRatio;
    var f := IdleExcess(o, partials);
    forall x | x in Idle(o) ensures f[x] >= 0.0 && (|InArcs(o, x)| == 1 ==> f[x] == 0.0) {
      assert InArcs(o, x) != {};
      TimesPositive(|InArcs(o, x)| as real - 1.0, partials[x]);
      TimesPlus(0.0, 0.0, partials[x]);
    }
    TotalPositive(Idle(o), f);
    if forall x :: x in Idle(o) ==> |InArcs(o, x)| == 1 { TotalZeroIff(Idle(o), f); }
  }

  /**
   On a profile without negative values, the assertions about the entry y hold exactly if the cycle
   has a total of zero, or a part of it leaves through y and the surplus is at most a thousandth of that.
   */
  lemma DivisionHoldsIff(g: Graph, w: map<Arc, real>, r: map<Arc, real>, own: map<Id, real>,
                         t: map<Id, real>, ct: map<Arc, real>, y: Id, partials: map<Id, real>)
    requires Closed(g) && RatiosOf(g, w, r) && own.Keys == g.Keys && Solved(g, r, own, t) && Propagated(g, r, t, ct)
    requires y in g && Ranked(g, Comp(g, y), y, Ranks(g, y)) && forall z :: z in own ==> own[z] >= 0.0
    requires Valid(Opening(g, r, own, ct, y)) && PartialsOf(Opening(g, r, own, ct, y), partials) && y in partials
    ensures var o := Opening(g, r, own, ct, y);
      AssertionsHold(t[y], EntryRatio(g, r, y), partials, y)
      <==> t[y] == 0.0 || (EntryRatio(g, r, y) != 0.0
                           && 1000.0 * Surplus(o, partials) <= Times(t[y], EntryRatio(g, r, y)))
  {
    hide RatioOf, Closed, Balanced, Ranked, Valid, Adds, Total, Times, EntryRatio, Tolerated, OpenedAt, External;
    var o, rho := Opening(g, r, own, ct, y), EntryRatio(g, r, y);
    OpenedPositive(g, w, r, own, t, ct, y);
    TotalsPositive(g, w, r, own, t, y);
    EntryRatioPositive(g, w, r, y);
    EntryHolds(o, partials);
    OpenedEntry(g, r, own, ct, y);
    OpenedOwn(g, r, own, t, ct, y, Ranks(g, y), rho);
    forall x | x in o.members ensures 0.0 <= partials[x] <= partials[y] { EntryIsMost(o, partials, x); }
    SurplusPositive(o, partials);
    if t[y] > 0.0 { TolerantIff(t[y], rho, partials[y], Surplus(o, partials)); }
  }

  lemma OpenedEntry(g: Graph, r: map<Arc, real>, own: map<Id, real>, ct: map<Arc, real>, y: Id)
    requires r.Keys == Arcs(g) && own.Keys == g.Keys && forall e :: External(g, e) ==> e in ct
    ensures var o := Opening(g, r, own, ct, y); o.entry == y && o.members == Comp(g, y)
  {
  }
}
