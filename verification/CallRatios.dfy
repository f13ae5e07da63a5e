/**
 How a call-graph profile divides a total among the callers of a function or of a cycle, and what
 that conserves. A cycle is a strongly connected component of several functions.
 */
module CallRatios {
  import opened CallGraph
  import opened Lists
  import opened RealSums

  type Arc = (Id, Id)

  /** A share of a whole, kept between zero and one; a share of nothing counts as everything. */
  function Ratio(numerator: real, denominator: real): (r: real)
    ensures 0.0 <= r <= 1.0
    ensures 0.0 <= numerator <= denominator && denominator > 0.0 ==> Times(r, denominator) == numerator
    ensures denominator == 0.0 ==> r == 1.0
  {
    if denominator == 0.0 then 1.0
    else
      var q := numerator / denominator;
      if q < 0.0 then 0.0 else if q > 1.0 then 1.0 else q
  }

  /** Of a positive whole, what is below nothing counts as nothing and what is above it as all of it. */
  lemma RatioCutOff(n: real, d: real)
    requires d > 0.0
    ensures n < 0.0 ==> Ratio(n, d) == 0.0
    ensures n > d ==> Ratio(n, d) == 1.0
  {
    var q := n / d;
    assert q * d == n;
    CutOff(q, d);
  }

  lemma CutOff(q: real, d: real)
    requires d > 0.0
    ensures (q * d < 0.0 ==> q < 0.0) && (q * d > d ==> q > 1.0)
  {
    assert (q - 1.0) * d == q * d - d;
  }

  /** The functions that x calls, other than itself. */
  function Callees(g: Graph, x: Id): (ys: set<Id>)
    requires x in g
  {
    set y | y in g[x] && y != x
  }

  predicate IsCall(g: Graph, e: Arc) { e.0 in g && e.1 in Callees(g, e.0) }

  ghost function Arcs(g: Graph): (s: set<Arc>)
    ensures forall e :: e in s <==> IsCall(g, e)
  {
    set x, y | x in g && y in Callees(g, x) :: (x, y)
  }

  /** No dangling callees, one call per callee, and weights only on calls. */
  ghost predicate WellFormed(g: Graph, w: map<Arc, real>)
  {
    Closed(g) && (forall x :: x in g ==> Distinct(g[x])) && forall e :: e in w ==> e.0 in g && e.1 in g[e.0]
  }

  ghost predicate NonNegative(w: map<Arc, real>) { forall e :: e in w ==> w[e] >= 0.0 }

  // ----- components

  /** The functions of the cycle of x, or x alone. */
  ghost function Comp(g: Graph, x: Id): (s: set<Id>) { set y | y in g && Mutual(g, x, y) }

  /** Calls that lead from one component to another. */
  ghost predicate External(g: Graph, e: Arc) { IsCall(g, e) && !Mutual(g, e.0, e.1) }

  ghost function Into(g: Graph, y: Id): (s: set<Arc>)
    ensures s <= Arcs(g)
  {
    set e | e in Arcs(g) && e.1 == y
  }

  /** The calls that enter the component of y from outside. */
  ghost function Gate(g: Graph, y: Id): (s: set<Arc>)
    ensures s <= Arcs(g)
  {
    set e | e in Arcs(g) && External(g, e) && Mutual(g, e.1, y)
  }

  /** The calls that leave the component of x. */
  ghost function OutArcs(g: Graph, x: Id): (s: set<Arc>)
    ensures s <= Arcs(g)
  {
    set e | e in Arcs(g) && External(g, e) && Mutual(g, e.0, x)
  }

  lemma InOwnComp(g: Graph, x: Id)
    requires x in g
    ensures x in Comp(g, x)
  {
    ReachSelf(g, x);
  }

  /** A function outside all cycles is entered by all its calls. */
  lemma LonelyGate(g: Graph, y: Id)
    requires !HasMate(g, y)
    ensures Gate(g, y) == Into(g, y)
  {
    MutualEquivalence(g, y, y, y);
    forall e | e in Arcs(g) ensures e in Gate(g, y) <==> e in Into(g, y) {
      MutualEquivalence(g, e.0, e.1, y);
      MutualEquivalence(g, e.1, y, y);
      assert IsCall(g, e);
    }
  }

  // ----- the ratios

  /** What each call brings in; a call to oneself is no arc and brings nothing. */
  ghost function Weights(g: Graph, w: map<Arc, real>): (f: map<Arc, real>)
    ensures f.Keys == Arcs(g)
  {
    map e | e in Arcs(g) :: if e in w then w[e] else 0.0
  }

  /** The function total and the cycle total. */
  ghost function InTotal(g: Graph, w: map<Arc, real>, y: Id): (v: real) { Total(Into(g, y), Weights(g, w)) }

  ghost function GateTotal(g: Graph, w: map<Arc, real>, y: Id): (v: real) { Total(Gate(g, y), Weights(g, w)) }

  /** What a call is a share of: the cycle total if it enters a cycle, the function total otherwise. */
  ghost function Whole(g: Graph, w: map<Arc, real>, e: Arc): (v: real)
  {
    if HasMate(g, e.1) && !Mutual(g, e.0, e.1) then GateTotal(g, w, e.1) else InTotal(g, w, e.1)
  }

  ghost function RatioOf(g: Graph, w: map<Arc, real>, e: Arc): (r: real)
  {
    if e in w then Ratio(w[e], Whole(g, w, e)) else 0.0
  }

  ghost predicate RatiosOf(g: Graph, w: map<Arc, real>, r: map<Arc, real>)
  {
    r.Keys == Arcs(g) && forall e :: e in r ==> r[e] == RatioOf(g, w, e)
  }

  /** For a call between components the whole is the total that enters the callee's component. */
  lemma ExternalWhole(g: Graph, w: map<Arc, real>, e: Arc, y: Id)
    requires External(g, e) && Mutual(g, e.1, y)
    ensures Whole(g, w, e) == GateTotal(g, w, y)
  {
    hide Total, Weights;
    SameGate(g, e.1, y);
    if !HasMate(g, e.1) { LonelyGate(g, e.1); }
  }

  lemma SameGate(g: Graph, x: Id, y: Id)
    requires Mutual(g, x, y)
    ensures Gate(g, x) == Gate(g, y)
  {
    hide Mutual, IsCall;
    forall e | e in Arcs(g) ensures Mutual(g, e.1, x) <==> Mutual(g, e.1, y) {
      MutualEquivalence(g, e.1, x, y);
      MutualEquivalence(g, x, y, e.1);
      MutualEquivalence(g, e.1, y, x);
    }
  }

  // ----- shares of one whole

  ghost function Carrying(s: set<Arc>, w: map<Arc, real>): (c: set<Arc>) { set e | e in s && e in w }

  /** Calls that are shares of the same whole, no one of them larger than it. */
  ghost predicate SharesOf(g: Graph, w: map<Arc, real>, r: map<Arc, real>, s: set<Arc>, whole: real)
  {
    && s <= Arcs(g) && s <= r.Keys
    && forall e :: e in s ==> 0.0 <= Weights(g, w)[e] <= whole && r[e] == if e in w then Ratio(w[e], whole) else 0.0
  }

  lemma SharesAddUp(g: Graph, w: map<Arc, real>, r: map<Arc, real>, s: set<Arc>, whole: real)
    requires SharesOf(g, w, r, s, whole)
    ensures whole > 0.0 ==> Times(Total(s, r), whole) == Total(s, Weights(g, w))
    ensures whole == 0.0 ==> Total(s, r) == |Carrying(s, w)| as real
  {
    hide Total, Times, Arcs;
    if whole > 0.0 {
      TimesPlus(0.0, 0.0, whole);
      forall e | e in s ensures Weights(g, w)[e] == Times(r[e], whole) {
        assert e in w ==> w[e] == Weights(g, w)[e];
      }
      TotalTimes(s, r, whole, Weights(g, w));
    } else if whole == 0.0 {
      TotalPart(s, Carrying(s, w), r);
      TotalOnes(Carrying(s, w), r);
    }
  }

  lemma WeightBounds(g: Graph, w: map<Arc, real>, s: set<Arc>)
    requires NonNegative(w) && s <= Arcs(g)
    ensures Total(s, Weights(g, w)) >= 0.0
    ensures forall e :: e in s ==> 0.0 <= Weights(g, w)[e] <= Total(s, Weights(g, w))
  {
    TotalPositive(s, Weights(g, w));
  }

  ghost function ShareTotal(g: Graph, r: map<Arc, real>, y: Id): (v: real)
    requires r.Keys == Arcs(g)
  {
    Total(Gate(g, y), r)
  }

  /** The calls from outside that carry the event into the component of y. */
  ghost function Carriers(g: Graph, w: map<Arc, real>, y: Id): (c: set<Arc>) { Carrying(Gate(g, y), w) }

  /**
   For a function outside all cycles, and for a cycle as a whole: the ratios of the calls that enter
   it add up to one exactly when something positive comes in, or just one of them carries the event;
   otherwise every carrier gets the whole of it.
   */
  lemma IncomingShares(g: Graph, w: map<Arc, real>, r: map<Arc, real>, y: Id)
    requires NonNegative(w) && RatiosOf(g, w, r)
    ensures GateTotal(g, w, y) > 0.0 ==> ShareTotal(g, r, y) == 1.0
    ensures GateTotal(g, w, y) == 0.0 ==> ShareTotal(g, r, y) == |Carriers(g, w, y)| as real
    ensures ShareTotal(g, r, y) == 1.0 <==> GateTotal(g, w, y) > 0.0 || |Carriers(g, w, y)| == 1
    ensures GateTotal(g, w, y) >= 0.0
  {
    var s, whole := Gate(g, y), GateTotal(g, w, y);
    WeightBounds(g, w, s);
    forall e | e in s ensures r[e] == if e in w then Ratio(w[e], whole) else 0.0 {
      ExternalWhole(g, w, e, y);
      assert r[e] == RatioOf(g, w, e);
    }
    hide Total, Times, Gate, Weights, RatiosOf;
    SharesAddUp(g, w, r, s, whole);
    if whole > 0.0 { OnlyOne(ShareTotal(g, r, y), whole); }
  }

  lemma OnlyOne(x: real, whole: real)
    requires Times(x, whole) == whole && whole > 0.0
    ensures x == 1.0
  {
  }

  /** Calls from within a cycle are shares of all that comes into their callee, from inside and outside. */
  lemma InsideShares(g: Graph, w: map<Arc, real>, r: map<Arc, real>, y: Id)
    requires NonNegative(w) && RatiosOf(g, w, r) && InTotal(g, w, y) > 0.0
    ensures Times(Total(Into(g, y) - Gate(g, y), r), InTotal(g, w, y)) == Total(Into(g, y) - Gate(g, y), Weights(g, w))
  {
    var s, whole := Into(g, y) - Gate(g, y), InTotal(g, w, y);
    WeightBounds(g, w, Into(g, y));
    MutualEquivalence(g, y, y, y);
    forall e | e in s ensures r[e] == if e in w then Ratio(w[e], whole) else 0.0 {
      assert IsCall(g, e) && Mutual(g, e.0, e.1);
      assert r[e] == RatioOf(g, w, e);
    }
    SharesAddUp(g, w, r, s, whole);
  }

  // ----- where a cycle is entered

  /** The calls from outside the cycle of y that enter it at y. */
  ghost function Entries(g: Graph, y: Id): (s: set<Arc>)
    ensures s <= Arcs(g)
  {
    Gate(g, y) * Into(g, y)
  }

  /** The share of the cycle's total that leaves it through y, by which the division inside the cycle divides. */
  ghost function EntryRatio(g: Graph, r: map<Arc, real>, y: Id): (v: real)
    requires r.Keys == Arcs(g)
  {
    Total(Entries(g, y), r)
  }

  lemma RatioZeroIff(n: real, d: real)
    requires 0.0 <= n <= d
    ensures Ratio(n, d) == 0.0 <==> n == 0.0 && d > 0.0
  {
  }

  /** That share is zero exactly if every such call carries no event, or none of a positive total. */
  lemma EntryRatioZeroIff(g: Graph, w: map<Arc, real>, r: map<Arc, real>, y: Id)
    requires NonNegative(w) && RatiosOf(g, w, r)
    ensures EntryRatio(g, r, y) == 0.0
            <==> forall e :: e in Entries(g, y) ==> e !in w || (w[e] == 0.0 && GateTotal(g, w, y) > 0.0)
  {
    var whole := GateTotal(g, w, y);
    WeightBounds(g, w, Gate(g, y));
    forall e | e in Entries(g, y)
      ensures 0.0 <= r[e] && (r[e] == 0.0 <==> e !in w || (w[e] == 0.0 && whole > 0.0))
    {
      ExternalWhole(g, w, e, y);
      assert r[e] == RatioOf(g, w, e);
      if e in w {
        assert Weights(g, w)[e] == w[e];
        RatioZeroIff(w[e], whole);
      }
    }
    hide Total, Gate, RatiosOf, Ratio;
    TotalZeroIff(Entries(g, y), r);
  }

  // ----- totals that are passed on to callers

  ghost function Share(r: map<Arc, real>, e: Arc): (v: real) { if e in r then r[e] else 0.0 }

  ghost function At(t: map<Id, real>, x: Id): (v: real) { if x in t then t[x] else 0.0 }

  /** What each call passes up to its caller. */
  ghost function Flow(g: Graph, r: map<Arc, real>, t: map<Id, real>): (f: map<Arc, real>)
    ensures f.Keys == Arcs(g)
  {
    map e | e in Arcs(g) :: Times(Share(r, e), At(t, e.1))
  }

  /** The total of a component is the own values of its functions plus its shares of the totals it calls. */
  ghost predicate Balanced(g: Graph, r: map<Arc, real>, own: map<Id, real>, t: map<Id, real>, x: Id)
    requires own.Keys == g.Keys && x in g
  {
    && x in t && (forall y :: y in Comp(g, x) ==> y in t && t[y] == t[x])
    && (forall e :: e in OutArcs(g, x) ==> e.1 in t)
    && t[x] == Total(Comp(g, x), own) + Total(OutArcs(g, x), Flow(g, r, t))
  }

  ghost predicate Solved(g: Graph, r: map<Arc, real>, own: map<Id, real>, t: map<Id, real>)
    requires own.Keys == g.Keys
  {
    t.Keys == g.Keys && forall x :: x in g ==> Balanced(g, r, own, t, x)
  }

  // ----- one representative per component

  ghost function Least(s: set<Id>): (x: Id)
    requires s != {}
    ensures x in s && forall y :: y in s ==> x <= y
    decreases |s|
  {
    var x :| x in s;
    if s == {x} then x
    else
      assert s - {x} != {} by { assert s != {x}; }
      var y := Least(s - {x});
      assert forall z :: z in s ==> z == x || z in s - {x};
      if x <= y then x else y
  }

  ghost function Rep(g: Graph, x: Id): (k: Id)
    requires x in g
    ensures k in g && Mutual(g, x, k)
  {
    InOwnComp(g, x);
    Least(Comp(g, x))
  }

  lemma SameComp(g: Graph, x: Id, y: Id)
    requires Mutual(g, x, y)
    ensures Comp(g, x) == Comp(g, y)
  {
    hide Mutual;
    forall z | z in g ensures Mutual(g, x, z) <==> Mutual(g, y, z) {
      MutualEquivalence(g, x, y, z);
      MutualEquivalence(g, y, x, z);
    }
  }

  lemma RepIffMutual(g: Graph, x: Id, y: Id)
    requires x in g && y in g
    ensures Rep(g, x) == Rep(g, y) <==> Mutual(g, x, y)
    ensures Rep(g, Rep(g, x)) == Rep(g, x)
  {
    hide Mutual;
    var k := Rep(g, x);
    SameComp(g, x, k);
    if Rep(g, y) == k {
      MutualEquivalence(g, y, k, x);
      MutualEquivalence(g, x, k, y);
      MutualEquivalence(g, y, x, x);
    }
    if Mutual(g, x, y) { SameComp(g, x, y); }
  }

  /** One function for each component. */
  ghost function Reps(g: Graph): (ks: set<Id>)
    ensures ks <= g.Keys
  {
    set x | x in g && Rep(g, x) == x
  }

  ghost function RepMap(g: Graph): (m: map<Id, Id>) { map x | x in g :: Rep(g, x) }

  ghost function CallerRep(g: Graph): (m: map<Arc, Id>) { map e | e in Arcs(g) :: Rep(g, e.0) }

  ghost function CalleeRep(g: Graph): (m: map<Arc, Id>)
    requires Closed(g)
  {
    map e | e in Arcs(g) :: Rep(g, e.1)
  }

  ghost function Externals(g: Graph): (s: set<Arc>) { set e | e in Arcs(g) && External(g, e) }

  lemma RepIs(g: Graph, k: Id, x: Id)
    requires k in Reps(g) && x in g
    ensures (Rep(g, x) == k <==> Mutual(g, x, k)) && (Rep(g, x) == k <==> Mutual(g, k, x))
  {
    hide Mutual;
    RepIffMutual(g, x, k);
    MutualEquivalence(g, x, k, k);
    MutualEquivalence(g, k, x, x);
  }

  lemma ArcEnds(g: Graph, e: Arc)
    requires Closed(g) && e in Arcs(g)
    ensures e.0 in g && e.1 in g
  {
    assert IsCall(g, e);
  }

  lemma Groups(g: Graph, k: Id)
    requires Closed(g) && k in Reps(g)
    ensures Group(g.Keys, RepMap(g), k) == Comp(g, k)
    ensures Group(Externals(g), CallerRep(g), k) == OutArcs(g, k)
    ensures Group(Externals(g), CalleeRep(g), k) == Gate(g, k)
  {
    hide Mutual, Rep, External, Closed, Arcs;
    forall x | x in g ensures RepMap(g)[x] == k <==> x in Comp(g, k) { RepIs(g, k, x); }
    forall e | e in Arcs(g)
      ensures (CallerRep(g)[e] == k <==> Mutual(g, e.0, k)) && (CalleeRep(g)[e] == k <==> Mutual(g, e.1, k))
    {
      ArcEnds(g, e);
      RepIs(g, k, e.0);
      RepIs(g, k, e.1);
    }
  }

  lemma RepsCover(g: Graph)
    requires Closed(g)
    ensures forall x :: x in g ==> RepMap(g)[x] in Reps(g)
    ensures forall e :: e in Externals(g) ==> CallerRep(g)[e] in Reps(g) && CalleeRep(g)[e] in Reps(g)
  {
    hide Rep, Mutual, External, Closed, Arcs;
    forall x | x in g ensures Rep(g, x) in Reps(g) { RepIffMutual(g, x, x); }
    forall e | e in Arcs(g) ensures e.0 in g && e.1 in g { ArcEnds(g, e); }
  }

  // ----- conservation

  ghost function OwnSums(g: Graph, own: map<Id, real>): (f: map<Id, real>)
    requires own.Keys == g.Keys
    ensures f.Keys == Reps(g)
  {
    map k | k in Reps(g) :: Total(Comp(g, k), own)
  }

  ghost function OutSums(g: Graph, r: map<Arc, real>, t: map<Id, real>): (f: map<Id, real>)
    ensures f.Keys == Reps(g)
  {
    map k | k in Reps(g) :: Total(OutArcs(g, k), Flow(g, r, t))
  }

  ghost function GateSums(g: Graph, r: map<Arc, real>, t: map<Id, real>): (f: map<Id, real>)
    ensures f.Keys == Reps(g)
  {
    map k | k in Reps(g) :: Total(Gate(g, k), Flow(g, r, t))
  }

  lemma GroupedSums(g: Graph, r: map<Arc, real>, own: map<Id, real>, t: map<Id, real>)
    requires Closed(g) && own.Keys == g.Keys
    ensures Total(Reps(g), OwnSums(g, own)) == Total(g.Keys, own)
    ensures Total(Reps(g), OutSums(g, r, t)) == Total(Externals(g), Flow(g, r, t)) == Total(Reps(g), GateSums(g, r, t))
  {
    RepsCover(g);
    forall k | k in Reps(g)
      ensures Group(g.Keys, RepMap(g), k) == Comp(g, k)
      ensures Group(Externals(g), CallerRep(g), k) == OutArcs(g, k)
      ensures Group(Externals(g), CalleeRep(g), k) == Gate(g, k)
    {
      Groups(g, k);
    }
    hide Total, Group, Comp, OutArcs, Gate, Flow, Rep;
    TotalGrouped(g.Keys, RepMap(g), Reps(g), own, OwnSums(g, own));
    TotalGrouped(Externals(g), CallerRep(g), Reps(g), Flow(g, r, t), OutSums(g, r, t));
    TotalGrouped(Externals(g), CalleeRep(g), Reps(g), Flow(g, r, t), GateSums(g, r, t));
  }

  lemma GateFlow(g: Graph, r: map<Arc, real>, own: map<Id, real>, t: map<Id, real>, k: Id)
    requires Closed(g) && r.Keys == Arcs(g) && own.Keys == g.Keys && Solved(g, r, own, t) && k in g
    ensures Total(Gate(g, k), Flow(g, r, t)) == Times(ShareTotal(g, r, k), t[k])
  {
    assert Balanced(g, r, own, t, k);
    hide Total, Times;
    forall e | e in Gate(g, k) ensures Flow(g, r, t)[e] == Times(r[e], t[k]) {
      assert IsCall(g, e);
      MutualEquivalence(g, e.1, k, k);
      assert e.1 in Comp(g, k);
    }
    TotalTimes(Gate(g, k), r, t[k], Flow(g, r, t));
  }

  /** What is kept by each component: its total, less what its callers take of it. */
  ghost function Kept(g: Graph, r: map<Arc, real>, t: map<Id, real>): (f: map<Id, real>)
    requires t.Keys == g.Keys && r.Keys == Arcs(g)
    ensures f.Keys == Reps(g)
  {
    map k | k in Reps(g) :: t[k] - Times(ShareTotal(g, r, k), t[k])
  }

  /** On any graph, for any ratios: what is kept over all components is what the functions had of their own. */
  lemma KeptIsOwn(g: Graph, r: map<Arc, real>, own: map<Id, real>, t: map<Id, real>)
    requires Closed(g) && r.Keys == Arcs(g) && own.Keys == g.Keys && Solved(g, r, own, t)
    ensures Total(Reps(g), Kept(g, r, t)) == Total(g.Keys, own)
  {
    hide Total, OwnSums, OutSums, GateSums, Kept, Balanced, Reps;
    GroupedSums(g, r, own, t);
    forall k | k in Reps(g)
      ensures t[k] == OwnSums(g, own)[k] + OutSums(g, r, t)[k]
      ensures t[k] == Kept(g, r, t)[k] + GateSums(g, r, t)[k]
    {
      KeptBalance(g, r, own, t, k);
    }
    TotalPlus(Reps(g), OwnSums(g, own), OutSums(g, r, t), t);
    TotalPlus(Reps(g), Kept(g, r, t), GateSums(g, r, t), t);
  }

  lemma KeptBalance(g: Graph, r: map<Arc, real>, own: map<Id, real>, t: map<Id, real>, k: Id)
    requires Closed(g) && r.Keys == Arcs(g) && own.Keys == g.Keys && Solved(g, r, own, t) && k in Reps(g)
    ensures t[k] == OwnSums(g, own)[k] + OutSums(g, r, t)[k]
    ensures t[k] == Kept(g, r, t)[k] + GateSums(g, r, t)[k]
  {
    assert Balanced(g, r, own, t, k);
    hide Total, Times, Gate, Flow, Rep, Reps, Comp, OutArcs;
    GateFlow(g, r, own, t, k);
  }

  /** Components into which no call from outside carries the event. */
  ghost function Unentered(g: Graph, w: map<Arc, real>): (ks: set<Id>)
  {
    set k | k in Reps(g) && Carriers(g, w, k) == {}
  }

  /** Entered, but with nothing coming in. */
  ghost function Doubtful(g: Graph, w: map<Arc, real>): (ks: set<Id>)
  {
    set k | k in Reps(g) && Carriers(g, w, k) != {} && GateTotal(g, w, k) == 0.0
  }

  ghost function Excess(g: Graph, w: map<Arc, real>, t: map<Id, real>): (f: map<Id, real>)
    requires t.Keys == g.Keys
    ensures f.Keys == Doubtful(g, w)
  {
    map k | k in Doubtful(g, w) :: Times(|Carriers(g, w, k)| as real - 1.0, t[k])
  }

  lemma KeptCases(g: Graph, w: map<Arc, real>, r: map<Arc, real>, t: map<Id, real>, k: Id)
    requires NonNegative(w) && RatiosOf(g, w, r) && t.Keys == g.Keys && k in Reps(g)
    ensures k in Unentered(g, w) ==> Kept(g, r, t)[k] == t[k]
    ensures k in Doubtful(g, w) ==> Kept(g, r, t)[k] == -Excess(g, w, t)[k]
    ensures k !in Unentered(g, w) && k !in Doubtful(g, w) ==> Kept(g, r, t)[k] == 0.0
  {
    assert k in g;
    hide ShareTotal, RatiosOf, Total, Carriers, GateTotal, Times, Rep;
    IncomingShares(g, w, r, k);
    TimesCases(|Carriers(g, w, k)| as real, t[k]);
    if k in Unentered(g, w) { NothingIn(g, w, k); }
  }

  lemma TimesCases(n: real, v: real)
    ensures Times(0.0, v) == 0.0 && Times(1.0, v) == v && v - Times(n, v) == -Times(n - 1.0, v)
  {
  }

  lemma NothingIn(g: Graph, w: map<Arc, real>, y: Id)
    requires Carriers(g, w, y) == {}
    ensures GateTotal(g, w, y) == 0.0
  {
    assert forall e :: e in Gate(g, y) ==> e !in Carriers(g, w, y);
    TotalPart(Gate(g, y), {}, Weights(g, w));
  }

  lemma KeptTotal(g: Graph, w: map<Arc, real>, r: map<Arc, real>, t: map<Id, real>)
    requires NonNegative(w) && RatiosOf(g, w, r) && t.Keys == g.Keys
    ensures Total(Reps(g), Kept(g, r, t)) == Total(Unentered(g, w), t) - Total(Doubtful(g, w), Excess(g, w, t))
  {
    hide Total, RatioOf, Carriers, Kept, Excess, NonNegative, GateTotal, Reps, Arcs;
    forall k | k in Reps(g)
      ensures k in Unentered(g, w) ==> Kept(g, r, t)[k] == t[k]
      ensures k in Doubtful(g, w) ==> Kept(g, r, t)[k] == -Excess(g, w, t)[k]
      ensures k !in Unentered(g, w) && k !in Doubtful(g, w) ==> Kept(g, r, t)[k] == 0.0
    {
      KeptCases(g, w, r, t, k);
    }
    TotalInParts(Reps(g), Unentered(g, w), Doubtful(g, w), t, Excess(g, w, t), Kept(g, r, t));
  }

  /**
   Conservation on every profile, with cycles or without: the totals of the functions and cycles
   into which no call carries the event add up to all self values, plus exactly one extra copy of
   the total of a component for every further carrier it has while nothing comes in to it.
   */
  lemma RootsHoldOwn(g: Graph, w: map<Arc, real>, r: map<Arc, real>, own: map<Id, real>, t: map<Id, real>)
    requires Closed(g) && NonNegative(w) && RatiosOf(g, w, r) && own.Keys == g.Keys && Solved(g, r, own, t)
    ensures Total(Unentered(g, w), t) == Total(g.Keys, own) + Total(Doubtful(g, w), Excess(g, w, t))
  {
    hide Total, NonNegative, Balanced, Kept, Closed, Rep, RatioOf;
    KeptIsOwn(g, r, own, t);
    KeptTotal(g, w, r, t);
  }

  // ----- a profile with an excess: two callers, both with an event count of zero

  const TWO_CALLERS: Graph := map[0 := [2], 1 := [2], 2 := []]
  const NO_EVENTS: map<Arc, real> := map[(0, 2) := 0.0, (1, 2) := 0.0]

  lemma TwoCallersApart(x: Id, y: Id)
    requires x in TWO_CALLERS && Mutual(TWO_CALLERS, x, y)
    ensures x == y
  {
    if x != y {
      if y != 2 {
        var a, b := Crossing(TWO_CALLERS, {x, 2}, x, y);
      } else {
        var a, b := Crossing(TWO_CALLERS, {2}, y, x);
      }
    }
  }

  lemma TwoCallersSets()
    ensures Arcs(TWO_CALLERS) == {(0, 2), (1, 2)}
    ensures forall x :: x in TWO_CALLERS ==> Comp(TWO_CALLERS, x) == {x}
    ensures forall e :: e in Arcs(TWO_CALLERS) ==> External(TWO_CALLERS, e)
  {
    forall e: Arc ensures IsCall(TWO_CALLERS, e) <==> e == (0, 2) || e == (1, 2) {}
    forall x | x in TWO_CALLERS ensures Comp(TWO_CALLERS, x) == {x} {
      InOwnComp(TWO_CALLERS, x);
      forall y | y in Comp(TWO_CALLERS, x) ensures y == x { TwoCallersApart(x, y); }
    }
    forall e | e in Arcs(TWO_CALLERS) ensures External(TWO_CALLERS, e) {
      if Mutual(TWO_CALLERS, e.0, e.1) { TwoCallersApart(e.0, e.1); }
    }
  }

  lemma TwoCallersGates()
    ensures Gate(TWO_CALLERS, 2) == {(0, 2), (1, 2)} && Gate(TWO_CALLERS, 0) == {} && Gate(TWO_CALLERS, 1) == {}
    ensures OutArcs(TWO_CALLERS, 2) == {} && OutArcs(TWO_CALLERS, 0) == {(0, 2)} && OutArcs(TWO_CALLERS, 1) == {(1, 2)}
    ensures Reps(TWO_CALLERS) == {0, 1, 2}
  {
    TwoCallersSets();
    forall x, y | x in TWO_CALLERS && y in TWO_CALLERS ensures Mutual(TWO_CALLERS, x, y) <==> x == y {
      if Mutual(TWO_CALLERS, x, y) { TwoCallersApart(x, y); }
      ReachSelf(TWO_CALLERS, x);
    }
    hide Mutual, External, Arcs;
    forall x | x in TWO_CALLERS ensures Rep(TWO_CALLERS, x) == x {}
  }

  lemma TwoCallersGate()
    ensures GateTotal(TWO_CALLERS, NO_EVENTS, 2) == 0.0 && Carriers(TWO_CALLERS, NO_EVENTS, 2) == {(0, 2), (1, 2)}
    ensures Carriers(TWO_CALLERS, NO_EVENTS, 0) == {} && Carriers(TWO_CALLERS, NO_EVENTS, 1) == {}
  {
    TwoCallersGates();
    hide Gate, Arcs;
    TotalPart(Gate(TWO_CALLERS, 2), {}, Weights(TWO_CALLERS, NO_EVENTS));
  }

  lemma TwoCallersRatios(r: map<Arc, real>)
    requires r == map[(0, 2) := 1.0, (1, 2) := 1.0]
    ensures RatiosOf(TWO_CALLERS, NO_EVENTS, r)
  {
    hide Arcs, External, Comp, RatioOf;
    TwoCallersSets();
    assert r.Keys == Arcs(TWO_CALLERS);
    TwoCallersRatio((0, 2));
    TwoCallersRatio((1, 2));
  }

  lemma TwoCallersRatio(e: Arc)
    requires e in Arcs(TWO_CALLERS)
    ensures RatioOf(TWO_CALLERS, NO_EVENTS, e) == 1.0
  {
    ReachSelf(TWO_CALLERS, 2);
    hide Arcs, External, Comp, Whole, GateTotal, Carriers;
    TwoCallersSets();
    TwoCallersGate();
    ExternalWhole(TWO_CALLERS, NO_EVENTS, e, 2);
  }

  lemma TwoCallersBalance(r: map<Arc, real>, own: map<Id, real>, t: map<Id, real>, x: Id)
    requires r == map[(0, 2) := 1.0, (1, 2) := 1.0] && x in TWO_CALLERS
    requires own == map[0 := 0.0, 1 := 0.0, 2 := 1.0] && t == map[0 := 1.0, 1 := 1.0, 2 := 1.0]
    ensures Balanced(TWO_CALLERS, r, own, t, x)
  {
    TwoCallersSets();
    TwoCallersGates();
    hide Arcs, External, Comp, OutArcs, Gate, Reps, Flow;
    SingleTotal(x, own);
    if x == 2 {
      assert Total(OutArcs(TWO_CALLERS, 2), Flow(TWO_CALLERS, r, t)) == 0.0;
    } else {
      SingleTotal((x, 2), Flow(TWO_CALLERS, r, t));
      TwoCallersFlow(r, t, x);
    }
  }

  lemma TwoCallersFlow(r: map<Arc, real>, t: map<Id, real>, x: Id)
    requires r == map[(0, 2) := 1.0, (1, 2) := 1.0] && x in {0, 1} && 2 in t && t[2] == 1.0
             && (x, 2) in Arcs(TWO_CALLERS)
    ensures Flow(TWO_CALLERS, r, t)[(x, 2)] == 1.0
  {
    hide Arcs;
  }

  lemma SingleTotal<T>(x: T, f: map<T, real>)
    requires x in f
    ensures Total({x}, f) == f[x]
  {
    TotalPick({x}, f, x);
    assert {x} - {x} == {};
  }

  lemma TwoCallersOk()
    ensures WellFormed(TWO_CALLERS, NO_EVENTS) && Closed(TWO_CALLERS) && NonNegative(NO_EVENTS)
  {
  }

  lemma TwoCallersSolved(r: map<Arc, real>, own: map<Id, real>, t: map<Id, real>)
    requires r == map[(0, 2) := 1.0, (1, 2) := 1.0]
    requires own == map[0 := 0.0, 1 := 0.0, 2 := 1.0] && t == map[0 := 1.0, 1 := 1.0, 2 := 1.0]
    ensures t.Keys == TWO_CALLERS.Keys == own.Keys && Solved(TWO_CALLERS, r, own, t)
  {
    hide Balanced;
    forall x | x in TWO_CALLERS ensures Balanced(TWO_CALLERS, r, own, t, x) { TwoCallersBalance(r, own, t, x); }
  }

  /** The excess is real: here the roots hold twice what the functions have of their own. */
  lemma ExcessHappens() returns (r: map<Arc, real>, own: map<Id, real>, t: map<Id, real>)
    ensures WellFormed(TWO_CALLERS, NO_EVENTS) && NonNegative(NO_EVENTS) && RatiosOf(TWO_CALLERS, NO_EVENTS, r)
    ensures own.Keys == TWO_CALLERS.Keys && Solved(TWO_CALLERS, r, own, t)
    ensures Total(Unentered(TWO_CALLERS, NO_EVENTS), t) == Total(TWO_CALLERS.Keys, own) + 1.0
  {
    hide RatiosOf, Solved, Total, WellFormed, NonNegative, Unentered, Doubtful, Excess;
    r := map[(0, 2) := 1.0, (1, 2) := 1.0];
    own, t := map[0 := 0.0, 1 := 0.0, 2 := 1.0], map[0 := 1.0, 1 := 1.0, 2 := 1.0];
    TwoCallersOk();
    TwoCallersRatios(r);
    TwoCallersSolved(r, own, t);
    RootsHoldOwn(TWO_CALLERS, NO_EVENTS, r, own, t);
    TwoCallersExcess(t);
  }

  lemma TwoCallersExcess(t: map<Id, real>)
    requires t == map[0 := 1.0, 1 := 1.0, 2 := 1.0]
    ensures Total(Doubtful(TWO_CALLERS, NO_EVENTS), Excess(TWO_CALLERS, NO_EVENTS, t)) == 1.0
  {
    TwoCallersGates();
    TwoCallersGate();
    hide Gate, GateTotal, Reps, Carriers, Total, Arcs;
    assert Doubtful(TWO_CALLERS, NO_EVENTS) == {2};
    assert |{(0, 2), (1, 2)}| == 2;
    SingleTotal(2, Excess(TWO_CALLERS, NO_EVENTS, t));
  }
}
