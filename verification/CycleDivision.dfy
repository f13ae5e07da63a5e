/** The division of a cycle's total among its functions, and the analysis of a whole profile. */
module CycleDivision {
  import opened CallGraph
  import opened CallRatios
  import opened CyclePartials
  import opened Lists
  import opened OpenedCycles
  import opened ProfileCycles
  import opened ProfileRatios
  import opened RealSums

  ghost function Members(p: ProfileRatios.Profile, c: Cycle): (s: set<Id>)
    ensures s <= p.calls.Keys
  {
    set x | x in p.calls && x in p.cycle && p.cycle[x] == c
  }

  lemma MembersAre(p: ProfileRatios.Profile, c: Cycle, y: Id)
    requires p.Ok() && y in Members(p, c)
    ensures Comp(p.calls, y) == Members(p, c)
  {
    InOwnComp(p.calls, y);
    forall x | x in p.calls && x != y ensures x in Comp(p.calls, y) <==> x in Members(p, c) {
      assert y in p.cycle && x in p.cycle && p.cycle[y] == p.cycle[x] <==> Mutual(p.calls, y, x);
    }
  }

  /** The profile after propagation. */
  ghost predicate Integrated(p: ProfileRatios.Profile)
    reads p`ratios, p`total, p`cycleTotal, p`callTotal
  {
    && p.Ok() && RatiosOf(p.calls, p.weight, p.ratios) && Solved(p.calls, p.ratios, p.own, p.View())
    && Propagated(p.calls, p.ratios, p.View(), p.callTotal)
  }

  lemma IntegratedRatios(p: ProfileRatios.Profile)
    requires Integrated(p)
    ensures p.Ok() && p.ratios.Keys == Arcs(p.calls) && forall e :: e in p.ratios ==> p.ratios[e] >= 0.0
    ensures p.own.Keys == p.calls.Keys && forall e :: External(p.calls, e) ==> e in p.callTotal
  {
    hide Solved, RatioOf, WellFormed, Grouped, External;
    forall e | e in p.ratios ensures p.ratios[e] >= 0.0 { SharePositive(p.calls, p.weight, p.ratios, e); }
  }

  // ----- ranks

  /** Ranks only go down, and those up to k stay. */
  ghost predicate Lowered(ranks: map<Id, nat>, next: map<Id, nat>, k: nat)
  {
    forall x :: x in ranks ==> x in next && next[x] <= ranks[x] && (ranks[x] <= k ==> next[x] == ranks[x])
  }

  ghost predicate Near(ranks: map<Id, nat>, s: set<Id>, n: nat) { forall z :: z in s ==> z in ranks && ranks[z] <= n }

  /** The functions whose calls led here have ranks below k. */
  ghost predicate Waits(ranks: map<Id, nat>, busy: set<Id>, k: nat)
  {
    forall b :: b in busy ==> b in ranks && ranks[b] < k
  }

  lemma Unlowered(ranks: map<Id, nat>, k: nat)
    ensures Lowered(ranks, ranks, k)
  {
  }

  lemma LoweredOne(ranks: map<Id, nat>, f: Id, k: nat)
    requires f !in ranks || ranks[f] > k
    ensures Lowered(ranks, ranks[f := k], k)
  {
  }

  lemma NoneNear(ranks: map<Id, nat>, n: nat)
    ensures Near(ranks, {}, n)
  {
  }

  lemma NearIs(ranks: map<Id, nat>, s: set<Id>, n: nat)
    requires Near(ranks, s, n)
    ensures forall z :: z in s ==> z in ranks && ranks[z] <= n
  {
  }

  lemma StillWaits(ranks: map<Id, nat>, next: map<Id, nat>, busy: set<Id>, f: Id, k: nat)
    requires Waits(ranks, busy, k) && Lowered(ranks, next, k) && f in next && next[f] == k
    ensures Waits(next, busy + {f}, k + 1) && f !in busy
  {
  }

  lemma LoweredTwice(ranks: map<Id, nat>, was: map<Id, nat>, next: map<Id, nat>, f: Id, k: nat)
    requires Lowered(ranks, was, k) && Lowered(was, next, k + 1) && f in was && was[f] == k
    ensures Lowered(ranks, next, k) && f in next && next[f] == k
  {
  }

  lemma NearNext(was: map<Id, nat>, next: map<Id, nat>, s: set<Id>, z: Id, k: nat)
    requires Near(was, s, k + 1) && Lowered(was, next, k + 1) && z in next && next[z] <= k + 1
    ensures Near(next, s + {z}, k + 1)
  {
  }

  /** Ranks f with k if that lowers its rank, and then what it calls in the cycle with k + 1. */
  method RankFrom(p: ProfileRatios.Profile, c: Cycle, f: Id, k: nat, ranks: map<Id, nat>,
                  ghost y: Id, ghost busy: set<Id>) returns (next: map<Id, nat>)
    requires p.Ok() && Ranking(p.calls, Members(p, c), y, ranks, busy) && f in Members(p, c) && |busy| == k
    requires Waits(ranks, busy, k)
    requires (f == y && k == 0) || (y in ranks && CalledBelow(p.calls, ranks, f, k))
    ensures Ranking(p.calls, Members(p, c), y, next, busy) && f in next && next[f] <= k
    ensures Lowered(ranks, next, k) && ranks.Keys <= next.Keys
    decreases Members(p, c) - busy
  {
    hide Ranking, CalledBelow, WellFormed, Grouped, Seen, Lowered, Near, Waits;
    ghost var cycle := Members(p, c);
    next := ranks;
    Unlowered(ranks, k);
    if f !in ranks || ranks[f] > k {
      RankSet(p.calls, cycle, y, ranks, busy, f, k);
      next := next[f := k];
      LoweredOne(ranks, f, k);
      NoneNear(next, k + 1);
      assert {} * cycle == {};
      SeenAll(p.calls, f);
      for j := 0 to |p.calls[f]|
        invariant Ranking(p.calls, cycle, y, next, busy + {f}) && f in next && next[f] == k
        invariant y in next && ranks.Keys <= next.Keys
        invariant Near(next, Seen(p.calls, f, j) * cycle, k + 1) && Lowered(ranks, next, k)
      {
        var callee := p.calls[f][j];
        SeenNext(p.calls, p.weight, f, j);
        if callee != f && callee in p.cycle && p.cycle[callee] == c {
          RankedCaller(p.calls, next, f, callee);
          StillWaits(ranks, next, busy, f, k);
          ghost var was := next;
          next := RankFrom(p, c, callee, k + 1, next, y, busy + {f});
          LoweredTwice(ranks, was, next, f, k);
          NearNext(was, next, Seen(p.calls, f, j) * cycle, callee, k);
          assert (Seen(p.calls, f, j) + {callee}) * cycle == Seen(p.calls, f, j) * cycle + {callee};
        } else {
          assert Seen(p.calls, f, j + 1) * cycle == Seen(p.calls, f, j) * cycle;
        }
      }
      NearIs(next, Callees(p.calls, f) * cycle, k + 1);
      RankDone(p.calls, cycle, y, next, busy, f);
    }
  }

  method RankCycle(p: ProfileRatios.Profile, c: Cycle, y: Id) returns (ranks: map<Id, nat>)
    requires p.Ok() && y in Members(p, c)
    ensures Ranked(p.calls, Comp(p.calls, y), y, ranks) && ranks == Ranks(p.calls, y)
  {
    MembersAre(p, c, y);
    hide Members, Comp, Grouped;
    ranks := RankFrom(p, c, y, 0, map[], y, {});
    RankedAll(p.calls, y, ranks);
    RanksAre(p.calls, y, ranks);
  }

  // ----- what comes into each function by the calls that raise the rank

  /** The opened cycle belongs to the profile. */
  ghost predicate Opens(p: ProfileRatios.Profile, c: Cycle, ranks: map<Id, nat>, o: Opened)
    reads p`ratios
  {
    && p.Ok() && p.ratios.Keys == Arcs(p.calls) && Valid(o) && o.members == Members(p, c)
    && o.rank == ranks && o.rising == RisingArcs(p.calls, ranks)
    && forall e :: e in o.rising ==> o.ratio[e] == p.ratios[e]
  }

  lemma RisesIff(p: ProfileRatios.Profile, c: Cycle, ranks: map<Id, nat>, o: Opened, f: Id, callee: Id)
    requires Opens(p, c, ranks, o) && f in o.members && callee in p.calls && callee in p.calls[f] && callee != f
    ensures (f, callee) in Arcs(p.calls) && (callee in p.cycle && p.cycle[callee] == c <==> callee in o.members)
    ensures (f, callee) in o.rising <==> callee in o.members && ranks[callee] > ranks[f]
  {
    assert IsCall(p.calls, (f, callee));
  }

  /** `seen` are the calls counted so far, and `busy` the functions whose calls led here. */
  ghost predicate Collected(o: Opened, incoming: map<Id, real>, visited: set<Id>, busy: set<Id>, seen: set<Arc>)
    requires Valid(o)
  {
    && seen <= o.rising && busy <= visited <= o.members
    && (forall x :: x in o.members ==> At(incoming, x) == Total(InArcs(o, x) * seen, o.ratio))
    && (forall e :: e in seen ==> e.1 in incoming && e.0 in visited)
    && (forall e :: e in o.rising && e.0 in visited && e.0 !in busy ==> e in seen && e.1 in visited)
  }

  lemma CollectArc(o: Opened, incoming: map<Id, real>, visited: set<Id>, busy: set<Id>, seen: set<Arc>, e: Arc)
    requires Valid(o) && Collected(o, incoming, visited, busy, seen) && e in o.rising - seen && e.0 in busy
    ensures Collected(o, incoming[e.1 := At(incoming, e.1) + o.ratio[e]], visited, busy, seen + {e})
  {
    hide Total, InArcs;
    forall x | x in o.members
      ensures Total(InArcs(o, x) * (seen + {e}), o.ratio)
              == Total(InArcs(o, x) * seen, o.ratio) + if x == e.1 then o.ratio[e] else 0.0
    {
      InArcsHave(o, x, e);
      CountOne(InArcs(o, x), seen, e, o.ratio);
    }
  }

  lemma InArcsHave(o: Opened, x: Id, e: Arc)
    requires Valid(o) && e in o.rising
    ensures InArcs(o, x) <= o.ratio.Keys && (e in InArcs(o, x) <==> e.1 == x)
  {
  }

  lemma CountOne<T>(s: set<T>, seen: set<T>, e: T, f: map<T, real>)
    requires s <= f.Keys && e !in seen
    ensures Total(s * (seen + {e}), f) == Total(s * seen, f) + if e in s then f[e] else 0.0
  {
    if e in s {
      assert s * (seen + {e}) == s * seen + {e};
      TotalNext(s * seen, f, e);
    } else {
      assert s * (seen + {e}) == s * seen;
    }
  }

  lemma CollectStart(o: Opened, incoming: map<Id, real>, visited: set<Id>, busy: set<Id>, seen: set<Arc>, f: Id)
    requires Valid(o) && Collected(o, incoming, visited, busy, seen) && f in o.members && f !in visited
    ensures Collected(o, incoming, visited + {f}, busy + {f}, seen) && f !in busy
    ensures forall e :: e in o.rising && e.0 == f ==> e !in seen
  {
    hide Total, InArcs;
  }

  lemma CollectDone(o: Opened, incoming: map<Id, real>, visited: set<Id>, busy: set<Id>, seen: set<Arc>, f: Id)
    requires Valid(o) && Collected(o, incoming, visited, busy + {f}, seen)
    requires forall e :: e in o.rising && e.0 == f ==> e in seen && e.1 in visited
    ensures Collected(o, incoming, visited, busy, seen)
  {
    hide Total, InArcs;
  }

  ghost predicate SameFrom(busy: set<Id>, seen: set<Arc>, seen': set<Arc>)
  {
    forall e: Arc :: e.0 in busy ==> (e in seen <==> e in seen')
  }

  /** Counts the calls of f that raise the rank, and those of the functions they lead to. */
  method CollectFrom(p: ProfileRatios.Profile, c: Cycle, f: Id, ranks: map<Id, nat>, before: map<Id, real>,
                     visitedBefore: set<Id>, ghost o: Opened, ghost busy: set<Id>, ghost seenBefore: set<Arc>)
    returns (incoming: map<Id, real>, visited: set<Id>, ghost seen: set<Arc>)
    requires Opens(p, c, ranks, o) && f in o.members && Collected(o, before, visitedBefore, busy, seenBefore)
    ensures Collected(o, incoming, visited, busy, seen) && visitedBefore + {f} <= visited
    ensures SameFrom(busy, seenBefore, seen)
    decreases o.members - visitedBefore
  {
    hide Collected, RisingArcs, Seen, Valid, Members, WellFormed, Grouped;
    incoming, visited, seen := before, visitedBefore, seenBefore;
    if f !in visited {
      CollectStart(o, incoming, visited, busy, seen, f);
      visited := visited + {f};
      SeenAll(p.calls, f);
      MembersIn(o, p, c, ranks, f);
      for j := 0 to |p.calls[f]|
        invariant Collected(o, incoming, visited, busy + {f}, seen) && visitedBefore + {f} <= visited
        invariant SameFrom(busy, seenBefore, seen)
        invariant forall e :: e in o.rising && e.0 == f ==> (e in seen <==> e.1 in Seen(p.calls, f, j))
        invariant forall e :: e in o.rising && e.0 == f && e in seen ==> e.1 in visited
      {
        var callee := p.calls[f][j];
        SeenNext(p.calls, p.weight, f, j);
        if callee != f {
          RisesIff(p, c, ranks, o, f, callee);
          if callee in p.cycle && p.cycle[callee] == c {
            if ranks[callee] > ranks[f] {
              CollectArc(o, incoming, visited, busy + {f}, seen, (f, callee));
              incoming := incoming[callee := (if callee in incoming then incoming[callee] else 0.0)
                                             + p.ratios[(f, callee)]];
              seen := seen + {(f, callee)};
              incoming, visited, seen := CollectFrom(p, c, callee, ranks, incoming, visited, o, busy + {f}, seen);
            }
          }
        }
      }
      RisingCallees(o, p, c, ranks, f);
      CollectDone(o, incoming, visited, busy, seen, f);
    }
  }

  lemma MembersIn(o: Opened, p: ProfileRatios.Profile, c: Cycle, ranks: map<Id, nat>, f: Id)
    requires Opens(p, c, ranks, o) && f in o.members
    ensures f in p.calls && f in ranks && o.members <= ranks.Keys
  {
  }

  lemma RisingCallees(o: Opened, p: ProfileRatios.Profile, c: Cycle, ranks: map<Id, nat>, f: Id)
    requires Opens(p, c, ranks, o) && f in o.members && f in p.calls
    ensures forall e :: e in o.rising && e.0 == f ==> e.1 in Callees(p.calls, f)
  {
    forall e | e in o.rising && e.0 == f ensures e.1 in Callees(p.calls, f) { assert IsCall(p.calls, e); }
  }

  lemma {:induction false} AllVisited(o: Opened, incoming: map<Id, real>, visited: set<Id>, seen: set<Arc>, x: Id)
    requires Valid(o) && Collected(o, incoming, visited, {}, seen) && o.entry in visited && x in o.members
    ensures x in visited
    decreases o.rank[x]
  {
    hide Total;
    if x != o.entry {
      var e :| e in InArcs(o, x);
      AllVisited(o, incoming, visited, seen, e.0);
    }
  }

  lemma AllCollected(o: Opened, incoming: map<Id, real>, visited: set<Id>, seen: set<Arc>)
    requires Valid(o) && Collected(o, incoming, visited, {}, seen) && o.entry in visited
    ensures forall x :: x in o.members ==> At(incoming, x) == CallRatio(o, x)
    ensures forall e :: e in o.rising ==> e.1 in incoming
  {
    hide Total;
    forall x | x in o.members ensures x in visited { AllVisited(o, incoming, visited, seen, x); }
    assert seen == o.rising;
    forall x | x in o.members ensures At(incoming, x) == CallRatio(o, x) { assert InArcs(o, x) * seen == InArcs(o, x); }
  }

  method CollectRatios(p: ProfileRatios.Profile, c: Cycle, y: Id, ranks: map<Id, nat>, ghost o: Opened)
    returns (incoming: map<Id, real>)
    requires Opens(p, c, ranks, o) && y == o.entry
    ensures forall x :: x in o.members ==> At(incoming, x) == CallRatio(o, x)
    ensures forall e :: e in o.rising ==> e.1 in incoming
  {
    var visited;
    ghost var seen;
    NothingCollected(o);
    hide Collected, RisingArcs, Members, Grouped;
    incoming, visited, seen := CollectFrom(p, c, y, ranks, map[], {}, o, {}, {});
    AllCollected(o, incoming, visited, seen);
  }

  lemma NothingCollected(o: Opened)
    requires Valid(o)
    ensures o.entry in o.members && Collected(o, map[], {}, {}, {})
  {
  }

  // ----- partial totals

  /** The calls of x that leave the cycle, and those that raise the rank, to the functions in s. */
  ghost function LeavingTo(g: Graph, x: Id, s: set<Id>): (a: set<Arc>)
    ensures a <= Arcs(g)
  {
    set e | e in Leaving(g, x) && e.1 in s
  }

  ghost function OutTo(o: Opened, x: Id, s: set<Id>): (a: set<Arc>)
    ensures a <= o.rising
  {
    set e | e in OutFrom(o, x) && e.1 in s
  }

  /** The partial total of x while its calls to the functions in s have been added. */
  ghost predicate Summing(g: Graph, own: map<Id, real>, ct: map<Arc, real>, rho: real, o: Opened,
                          partials: map<Id, real>, x: Id, s: set<Id>, sum: real)
    requires Valid(o) && x in own && forall e :: External(g, e) ==> e in ct
  {
    && sum == Times(own[x] + Total(LeavingTo(g, x, s), ct), rho) + Total(OutTo(o, x, s), Passed(o, partials))
    && forall e :: e in OutTo(o, x, s) ==> e.1 in partials
  }

  /** The finished partial totals add up. */
  ghost predicate Summed(o: Opened, partials: map<Id, real>)
    requires Valid(o)
  {
    && partials.Keys <= o.members
    && forall x :: x in partials ==> SummedAt(o, partials, x)
  }

  ghost predicate SummedAt(o: Opened, partials: map<Id, real>, x: Id)
    requires Valid(o) && x in o.members
  {
    Adds(o, partials, x) && forall e :: e in OutFrom(o, x) ==> e.1 in partials
  }

  ghost predicate Extends(partials: map<Id, real>, partials': map<Id, real>)
  {
    forall x :: x in partials ==> x in partials' && partials'[x] == partials[x]
  }

  lemma PassedStays(o: Opened, s: set<Arc>, partials: map<Id, real>, partials': map<Id, real>)
    requires Valid(o) && s <= o.rising && Extends(partials, partials') && forall e :: e in s ==> e.1 in partials
    ensures Total(s, Passed(o, partials)) == Total(s, Passed(o, partials'))
  {
    hide Total, Times, Shares, Valid;
    TotalSame(s, Passed(o, partials), Passed(o, partials'));
  }

  lemma SumStarts(g: Graph, own: map<Id, real>, ct: map<Arc, real>, rho: real, o: Opened, partials: map<Id, real>,
                  x: Id, sum: real)
    requires Valid(o) && x in own && (forall e :: External(g, e) ==> e in ct) && sum == rho * own[x]
    ensures Summing(g, own, ct, rho, o, partials, x, {}, sum)
  {
    hide Valid, External;
    assert LeavingTo(g, x, {}) == {} && OutTo(o, x, {}) == {};
  }

  lemma LeavingNext(g: Graph, ct: map<Arc, real>, x: Id, s: set<Id>, z: Id)
    requires External(g, (x, z)) && z !in s && forall e :: External(g, e) ==> e in ct
    ensures LeavingTo(g, x, s + {z}) == LeavingTo(g, x, s) + {(x, z)} && (x, z) !in LeavingTo(g, x, s)
    ensures LeavingTo(g, x, s) <= ct.Keys
  {
    assert IsCall(g, (x, z)) && (x, z) in Leaving(g, x);
  }

  /** A call that leaves the cycle. */
  lemma SumLeaves(g: Graph, own: map<Id, real>, ct: map<Arc, real>, rho: real, o: Opened, partials: map<Id, real>,
                  x: Id, s: set<Id>, sum: real, z: Id, next: real)
    requires Valid(o) && x in own && forall e :: External(g, e) ==> e in ct
    requires Summing(g, own, ct, rho, o, partials, x, s, sum) && z !in s && External(g, (x, z)) && (x, z) !in o.rising
    requires next == sum + rho * ct[(x, z)]
    ensures Summing(g, own, ct, rho, o, partials, x, s + {z}, next)
  {
    hide Valid, External, Total, Times, Passed, LeavingTo;
    assert OutTo(o, x, s + {z}) == OutTo(o, x, s);
    LeavingNext(g, ct, x, s, z);
    TotalNext(LeavingTo(g, x, s), ct, (x, z));
    TimesMore(own[x] + Total(LeavingTo(g, x, s), ct), ct[(x, z)], rho);
  }

  lemma TimesMore(a: real, b: real, rho: real)
    ensures Times(a + b, rho) == Times(a, rho) + rho * b
  {
  }

  /** A call that raises the rank; other partial totals may have been finished on the way. */
  lemma SumRises(g: Graph, own: map<Id, real>, ct: map<Arc, real>, rho: real, o: Opened, partials: map<Id, real>,
                 partials': map<Id, real>, x: Id, s: set<Id>, sum: real, z: Id, next: real)
    requires Valid(o) && x in own && forall e :: External(g, e) ==> e in ct
    requires Summing(g, own, ct, rho, o, partials, x, s, sum) && z !in s && (x, z) in o.rising && !External(g, (x, z))
    requires Extends(partials, partials') && z in partials'
    requires next == sum + Passed(o, partials')[(x, z)]
    ensures Summing(g, own, ct, rho, o, partials', x, s + {z}, next)
  {
    hide Total, Times, Passed, Valid, External;
    assert OutTo(o, x, s + {z}) == OutTo(o, x, s) + {(x, z)};
    assert LeavingTo(g, x, s + {z}) == LeavingTo(g, x, s);
    PassedStays(o, OutTo(o, x, s), partials, partials');
    TotalNext(OutTo(o, x, s), Passed(o, partials'), (x, z));
  }

  lemma PassedIs(o: Opened, partials: map<Id, real>, e: Arc, ratio: real, incoming: real, part: real)
    requires Valid(o) && e in o.rising && e.1 in partials
    requires ratio == o.ratio[e] && incoming == CallRatio(o, e.1) && part == partials[e.1]
    ensures Passed(o, partials)[e] == Ratio(ratio, incoming) * part
  {
    hide Ratio, CallRatio, Valid;
  }

  /** A call to oneself, or one within the cycle that does not raise the rank. */
  lemma SumSkips(g: Graph, own: map<Id, real>, ct: map<Arc, real>, rho: real, o: Opened, partials: map<Id, real>,
                 x: Id, s: set<Id>, sum: real, z: Id)
    requires Valid(o) && x in own && forall e :: External(g, e) ==> e in ct
    requires Summing(g, own, ct, rho, o, partials, x, s, sum) && !External(g, (x, z)) && (x, z) !in o.rising
    ensures Summing(g, own, ct, rho, o, partials, x, s + {z}, sum)
  {
    hide Valid, External, Total, Times, Passed;
    assert OutTo(o, x, s + {z}) == OutTo(o, x, s);
    assert LeavingTo(g, x, s + {z}) == LeavingTo(g, x, s);
  }

  lemma SumDone(g: Graph, own: map<Id, real>, ct: map<Arc, real>, rho: real, o: Opened, partials: map<Id, real>,
                x: Id, sum: real)
    requires Valid(o) && x in own && (forall e :: External(g, e) ==> e in ct) && x in g && o.rising <= Arcs(g)
    requires Summing(g, own, ct, rho, o, partials, x, Callees(g, x), sum)
    ensures sum == Times(own[x] + Total(Leaving(g, x), ct), rho) + Total(OutFrom(o, x), Passed(o, partials))
    ensures forall e :: e in OutFrom(o, x) ==> e.1 in partials
  {
    hide Valid, External, Total, Times, Passed;
    forall e | e in Arcs(g) && e.0 == x ensures e.1 in Callees(g, x) { assert IsCall(g, e); }
    assert LeavingTo(g, x, Callees(g, x)) == Leaving(g, x) && OutTo(o, x, Callees(g, x)) == OutFrom(o, x);
  }

  /** One more partial total is finished. */
  lemma SummedNext(o: Opened, partials: map<Id, real>, x: Id, sum: real)
    requires Valid(o) && Summed(o, partials) && x in o.members && x !in partials
    requires sum == o.own[x] + Total(OutFrom(o, x), Passed(o, partials))
    requires forall e :: e in OutFrom(o, x) ==> e.1 in partials
    ensures Summed(o, partials[x := sum]) && Extends(partials, partials[x := sum])
  {
    hide SummedAt, Passed, OutFrom, Valid;
    var next := partials[x := sum];
    SummedNow(o, partials, next, x);
    forall z | z in partials ensures SummedAt(o, next, z) { SummedStays(o, partials, next, z); }
  }

  lemma SummedStays(o: Opened, partials: map<Id, real>, next: map<Id, real>, z: Id)
    requires Valid(o) && z in o.members && SummedAt(o, partials, z) && Extends(partials, next)
    ensures SummedAt(o, next, z)
  {
    hide Total, Passed, Valid;
    PassedStays(o, OutFrom(o, z), partials, next);
  }

  lemma SummedNow(o: Opened, partials: map<Id, real>, next: map<Id, real>, x: Id)
    requires Valid(o) && x in o.members && Extends(partials, next) && x in next
    requires next[x] == o.own[x] + Total(OutFrom(o, x), Passed(o, partials))
    requires forall e :: e in OutFrom(o, x) ==> e.1 in partials
    ensures SummedAt(o, next, x)
  {
    hide Total, Passed, Valid;
    PassedStays(o, OutFrom(o, x), partials, next);
  }

  /** What each function brings to the opened cycle. */
  ghost predicate OwnParts(p: ProfileRatios.Profile, rho: real, o: Opened)
    reads p`callTotal
  {
    && o.members <= p.own.Keys && o.members <= o.own.Keys && (forall e :: External(p.calls, e) ==> e in p.callTotal)
    && forall x :: x in o.members ==> o.own[x] == Times(p.own[x] + Total(Leaving(p.calls, x), p.callTotal), rho)
  }

  /** What each function brings, and what comes into it. */
  ghost predicate Carries(p: ProfileRatios.Profile, rho: real, incoming: map<Id, real>, o: Opened)
    requires Valid(o)
    reads p`callTotal
  {
    && OwnParts(p, rho, o)
    && (forall e :: e in o.rising ==> e.1 in incoming && incoming[e.1] == CallRatio(o, e.1))
  }

  lemma RisingStays(p: ProfileRatios.Profile, c: Cycle, ranks: map<Id, nat>, o: Opened, f: Id, callee: Id)
    requires Opens(p, c, ranks, o) && f in o.members && callee in p.calls && callee in p.calls[f]
    ensures External(p.calls, (f, callee)) <==> callee !in o.members
    ensures (f, callee) in o.rising ==> callee in o.members && Higher(o, callee) < Higher(o, f)
  {
    StaysIff(p.calls, p.cycle, f, callee);
    if callee != f { RisesIff(p, c, ranks, o, f, callee); }
    if (f, callee) in o.rising { assert callee in Higher(o, f) && callee !in Higher(o, callee); }
  }

  /** The partial total of f, computed once: its own part, and its shares of what it calls further from the entry. */
  method PartialFrom(p: ProfileRatios.Profile, c: Cycle, f: Id, rho: real, before: map<Id, real>, ranks: map<Id, nat>,
                     incoming: map<Id, real>, ghost o: Opened) returns (v: real, partials: map<Id, real>)
    requires Opens(p, c, ranks, o) && Carries(p, rho, incoming, o) && f in o.members && Summed(o, before)
    ensures Summed(o, partials) && Extends(before, partials) && f in partials && v == partials[f]
    ensures forall x :: x in partials && x !in before ==> x in o.members && ranks[x] >= ranks[f]
    decreases Higher(o, f)
  {
    hide Summed, Summing, Seen, Valid, WellFormed, External, CallRatio, Higher, Ratio, Opens, Carries;
    partials := before;
    if f !in partials {
      PartialFacts(p, c, ranks, o, rho, incoming, f);
      SeenAll(p.calls, f);
      var sum := rho * p.own[f];
      SumStarts(p.calls, p.own, p.callTotal, rho, o, partials, f, sum);
      for j := 0 to |p.calls[f]|
        invariant Summed(o, partials) && Extends(before, partials) && f !in partials
        invariant forall x :: x in partials && x !in before ==> x in o.members && ranks[x] >= ranks[f]
        invariant Summing(p.calls, p.own, p.callTotal, rho, o, partials, f, Seen(p.calls, f, j), sum)
      {
        var callee := p.calls[f][j];
        SeenNext(p.calls, p.weight, f, j);
        ghost var s := Seen(p.calls, f, j);
        if callee != f {
          CallFacts(p, c, ranks, o, rho, incoming, f, callee);
          if !(callee in p.cycle && p.cycle[callee] == c) {
            var next := sum + rho * p.callTotal[(f, callee)];
            SumLeaves(p.calls, p.own, p.callTotal, rho, o, partials, f, s, sum, callee, next);
            sum := next;
          } else if ranks[callee] > ranks[f] {
            ghost var was := partials;
            var part;
            part, partials := PartialFrom(p, c, callee, rho, partials, ranks, incoming, o);
            var next := sum + Ratio(p.ratios[(f, callee)], incoming[callee]) * part;
            PassedIs(o, partials, (f, callee), p.ratios[(f, callee)], incoming[callee], part);
            SumRises(p.calls, p.own, p.callTotal, rho, o, was, partials, f, s, sum, callee, next);
            sum := next;
          } else {
            SumSkips(p.calls, p.own, p.callTotal, rho, o, partials, f, s, sum, callee);
          }
        }
      }
      PartialIs(p, c, ranks, o, rho, incoming, partials, f, sum);
      SummedNext(o, partials, f, sum);
      partials := partials[f := sum];
    }
    v := partials[f];
  }

  lemma PartialFacts(p: ProfileRatios.Profile, c: Cycle, ranks: map<Id, nat>, o: Opened, rho: real,
                     incoming: map<Id, real>, f: Id)
    requires Opens(p, c, ranks, o) && Carries(p, rho, incoming, o) && f in o.members
    ensures Valid(o) && f in p.calls && f in p.own && o.members <= ranks.Keys && WellFormed(p.calls, p.weight)
    ensures forall e :: External(p.calls, e) ==> e in p.callTotal
  {
    hide External, WellFormed, Grouped, Total, Times, CallRatio;
  }

  lemma CallFacts(p: ProfileRatios.Profile, c: Cycle, ranks: map<Id, nat>, o: Opened, rho: real,
                  incoming: map<Id, real>, f: Id, callee: Id)
    requires Opens(p, c, ranks, o) && Carries(p, rho, incoming, o) && f in o.members
    requires callee in p.calls && callee in p.calls[f] && callee != f
    ensures callee in p.cycle && p.cycle[callee] == c <==> callee in o.members
    ensures callee in o.members <==> !External(p.calls, (f, callee))
    ensures f in ranks && Valid(o) && (callee in o.members ==> callee in ranks)
    ensures (f, callee) in o.rising <==> callee in o.members && ranks[callee] > ranks[f]
    ensures (f, callee) in o.rising ==> (f, callee) in p.ratios && p.ratios[(f, callee)] == o.ratio[(f, callee)]
    ensures (f, callee) in o.rising ==> callee in incoming && incoming[callee] == CallRatio(o, callee)
    ensures (f, callee) in o.rising ==> Higher(o, callee) < Higher(o, f)
  {
    RisesIff(p, c, ranks, o, f, callee);
    RisingStays(p, c, ranks, o, f, callee);
    hide External, WellFormed, Grouped, CallRatio, OwnParts, Higher;
  }

  lemma PartialIs(p: ProfileRatios.Profile, c: Cycle, ranks: map<Id, nat>, o: Opened, rho: real,
                  incoming: map<Id, real>, partials: map<Id, real>, f: Id, sum: real)
    requires Opens(p, c, ranks, o) && Carries(p, rho, incoming, o) && f in o.members && f in p.calls
    requires Summing(p.calls, p.own, p.callTotal, rho, o, partials, f, Callees(p.calls, f), sum)
    ensures sum == o.own[f] + Total(OutFrom(o, f), Passed(o, partials))
    ensures forall e :: e in OutFrom(o, f) ==> e.1 in partials
  {
    hide External, WellFormed, Grouped, CallRatio, Summing, OutFrom, Passed, Total, Times, Valid, RisingArcs, Leaving;
    SumDone(p.calls, p.own, p.callTotal, rho, o, partials, f, sum);
  }

  lemma {:induction false} AllSummed(o: Opened, partials: map<Id, real>, x: Id)
    requires Valid(o) && Summed(o, partials) && o.entry in partials && x in o.members
    ensures x in partials
    decreases o.rank[x]
  {
    hide Adds;
    if x != o.entry {
      var e :| e in InArcs(o, x);
      AllSummed(o, partials, e.0);
      assert e in OutFrom(o, e.0);
    }
  }

  lemma SummedAll(o: Opened, partials: map<Id, real>)
    requires Valid(o) && Summed(o, partials) && o.entry in partials
    ensures PartialsOf(o, partials)
  {
    hide Adds;
    forall x | x in o.members ensures x in partials { AllSummed(o, partials, x); }
  }

  /** The partial totals of the whole cycle, from one of its entries. */
  method PartialTotals(p: ProfileRatios.Profile, c: Cycle, y: Id, rho: real, ranks: map<Id, nat>, ghost o: Opened)
    returns (partials: map<Id, real>)
    requires Opens(p, c, ranks, o) && y == o.entry && OwnParts(p, rho, o)
    ensures PartialsOf(o, partials) && y in partials
  {
    hide OwnParts, CallRatio, RisingArcs, Members, Grouped, WellFormed;
    var incoming := CollectRatios(p, c, y, ranks, o);
    assert Carries(p, rho, incoming, o);
    NothingSummed(o);
    hide Summed, Valid, Adds;
    var _, all := PartialFrom(p, c, y, rho, map[], ranks, incoming, o);
    SummedAll(o, all);
    partials := all;
  }

  lemma NothingSummed(o: Opened)
    requires Valid(o)
    ensures o.entry in o.members && Summed(o, map[])
  {
  }

  // ----- where the cycle is entered

  lemma EntryIff(p: ProfileRatios.Profile, c: Cycle, y: Id, e: Arc)
    requires p.Ok() && y in Members(p, c) && e in Arcs(p.calls)
    ensures e in Entries(p.calls, y) <==> e.1 == y && e.0 !in Members(p, c)
  {
    assert IsCall(p.calls, e);
    MutualEquivalence(p.calls, y, y, y);
    if e.1 == y { EntersIff(p.calls, p.cycle, e.0, y); }
  }

  /** The share of each entered function, over the calls seen so far. */
  ghost predicate Entered(p: ProfileRatios.Profile, c: Cycle, seen: set<Arc>, m: map<Id, real>)
    requires p.ratios.Keys == Arcs(p.calls)
    reads p`ratios
  {
    forall y :: EnteredAt(p, c, seen, m, y)
  }

  ghost predicate EnteredAt(p: ProfileRatios.Profile, c: Cycle, seen: set<Arc>, m: map<Id, real>, y: Id)
    requires p.ratios.Keys == Arcs(p.calls)
    reads p`ratios
  {
    && (y in m <==> y in Members(p, c) && Entries(p.calls, y) * seen != {})
    && (y in m ==> m[y] == Total(Entries(p.calls, y) * seen, p.ratios))
  }

  lemma EnterArc(p: ProfileRatios.Profile, c: Cycle, seen: set<Arc>, m: map<Id, real>, e: Arc)
    requires p.Ok() && p.ratios.Keys == Arcs(p.calls) && Entered(p, c, seen, m) && e in Arcs(p.calls) - seen
    ensures e.1 in Members(p, c) && e.0 !in Members(p, c) ==>
      Entered(p, c, seen + {e}, m[e.1 := At(m, e.1) + p.ratios[e]])
    ensures !(e.1 in Members(p, c) && e.0 !in Members(p, c)) ==> Entered(p, c, seen + {e}, m)
  {
    hide EnteredAt, Members;
    var enters := e.1 in Members(p, c) && e.0 !in Members(p, c);
    var next := if enters then m[e.1 := At(m, e.1) + p.ratios[e]] else m;
    forall y ensures EnteredAt(p, c, seen + {e}, next, y) {
      EnterArcAt(p, c, seen, m, e, y);
    }
  }

  lemma EnterArcAt(p: ProfileRatios.Profile, c: Cycle, seen: set<Arc>, m: map<Id, real>, e: Arc, y: Id)
    requires p.Ok() && p.ratios.Keys == Arcs(p.calls) && EnteredAt(p, c, seen, m, y) && e in Arcs(p.calls) - seen
    ensures var enters := e.1 in Members(p, c) && e.0 !in Members(p, c);
      EnteredAt(p, c, seen + {e}, if enters then m[e.1 := At(m, e.1) + p.ratios[e]] else m, y)
  {
    hide Entries, Members, Total, Grouped, WellFormed;
    if y in Members(p, c) {
      EntryIff(p, c, y, e);
      CountOne(Entries(p.calls, y), seen, e, p.ratios);
      EntriesGrow(Entries(p.calls, y), seen, e);
      NoTotal(p.ratios);
    }
  }

  lemma NoTotal(r: map<Arc, real>)
    ensures Total({}, r) == 0.0
  {
  }

  lemma EntriesGrow<T>(s: set<T>, seen: set<T>, e: T)
    ensures s * (seen + {e}) != {} <==> s * seen != {} || e in s
  {
    if e in s { assert e in s * (seen + {e}); }
    if s * seen != {} {
      var x :| x in s * seen;
      assert x in s * (seen + {e});
    }
  }

  ghost predicate RatioIs(p: ProfileRatios.Profile, y: Id, rho: real)
    reads p`ratios
  {
    p.ratios.Keys == Arcs(p.calls) && rho == EntryRatio(p.calls, p.ratios, y)
  }

  /** For every function at which the cycle is entered, the ratios of the calls that enter there. */
  method EntryRatios(p: ProfileRatios.Profile, c: Cycle) returns (m: map<Id, real>)
    requires Integrated(p)
    ensures forall y :: y in m <==> y in Members(p, c) && Entries(p.calls, y) != {}
    ensures forall y :: y in m ==> RatioIs(p, y, m[y])
  {
    hide Entered, WellFormed, Grouped, Firsts, Arcs, ArcsSeen, Members, Entries, Integrated, RatioIs;
    IntegratedRatios(p);
    FirstsAll(p.functions, p.calls.Keys);
    m := map[];
    ArcsEnds(p.calls);
    NoneEntered(p, c);
    for i := 0 to |p.functions|
      invariant Entered(p, c, ArcsSeen(p.calls, Firsts(p.functions, i), 0, {}), m)
    {
      FirstsNext(p.functions, i);
      ArcsOfNext(p.calls, Firsts(p.functions, i), p.functions[i], 0);
      m := EntriesOf(p, c, p.functions[i], m, Firsts(p.functions, i));
    }
    AllEntered(p, c, m);
  }

  lemma NoneEntered(p: ProfileRatios.Profile, c: Cycle)
    requires p.ratios.Keys == Arcs(p.calls)
    ensures Entered(p, c, {}, map[])
  {
  }

  lemma AllEntered(p: ProfileRatios.Profile, c: Cycle, m: map<Id, real>)
    requires p.ratios.Keys == Arcs(p.calls) && Entered(p, c, Arcs(p.calls), m)
    ensures forall y :: y in m <==> y in Members(p, c) && Entries(p.calls, y) != {}
    ensures forall y :: y in m ==> RatioIs(p, y, m[y])
  {
    hide Total, Entries, Members;
    forall y
      ensures (y in m <==> y in Members(p, c) && Entries(p.calls, y) != {})
              && (y in m ==> RatioIs(p, y, m[y]))
    {
      assert Entries(p.calls, y) * Arcs(p.calls) == Entries(p.calls, y);
      assert EnteredAt(p, c, Arcs(p.calls), m, y);
    }
  }

  method EntriesOf(p: ProfileRatios.Profile, c: Cycle, f: Id, before: map<Id, real>, ghost done: set<Id>)
    returns (m: map<Id, real>)
    requires p.Ok() && p.ratios.Keys == Arcs(p.calls) && f in p.calls && f !in done
    requires Entered(p, c, ArcsSeen(p.calls, done, f, {}), before)
    ensures Entered(p, c, ArcsSeen(p.calls, done, f, Callees(p.calls, f)), m)
  {
    hide Entered, Grouped, Arcs, ArcsSeen, Seen, WellFormed;
    m := before;
    SeenAll(p.calls, f);
    for j := 0 to |p.calls[f]|
      invariant Entered(p, c, ArcsSeen(p.calls, done, f, Seen(p.calls, f, j)), m)
    {
      var callee := p.calls[f][j];
      SeenNext(p.calls, p.weight, f, j);
      if callee != f {
        ArcsNext(p.calls, done, f, Seen(p.calls, f, j), callee);
        EnterArc(p, c, ArcsSeen(p.calls, done, f, Seen(p.calls, f, j)), m, (f, callee));
        if !(f in p.cycle && p.cycle[f] == c) && callee in p.cycle && p.cycle[callee] == c {
          m := m[callee := (if callee in m then m[callee] else 0.0) + p.ratios[(f, callee)]];
        }
      }
    }
  }

  // ----- the whole division

  /** The cycle of y, opened at y. */
  ghost function OpenAt(p: ProfileRatios.Profile, y: Id): (o: Opened)
    requires Integrated(p)
    reads p`ratios, p`total, p`cycleTotal, p`callTotal
  {
    Opening(p.calls, p.ratios, p.own, p.callTotal, y)
  }

  ghost predicate DividedAt(p: ProfileRatios.Profile, y: Id, partials: map<Id, real>)
    reads p`ratios, p`total, p`cycleTotal, p`callTotal
  {
    && Integrated(p) && Ranked(p.calls, Comp(p.calls, y), y, Ranks(p.calls, y)) && Valid(OpenAt(p, y))
    && PartialsOf(OpenAt(p, y), partials) && y in partials
  }

  /** What the source asserts about the partial totals from the entry y. */
  ghost predicate Asserted(p: ProfileRatios.Profile, y: Id, partials: map<Id, real>)
    reads p`ratios, p`total, p`cycleTotal
  {
    && y in p.View() && y in partials && p.ratios.Keys == Arcs(p.calls)
    && AssertionsHold(p.View()[y], EntryRatio(p.calls, p.ratios, y), partials, y)
  }

  ghost predicate AllAsserted(p: ProfileRatios.Profile, parts: map<Id, map<Id, real>>)
    reads p`ratios, p`total, p`cycleTotal
  {
    forall y :: y in parts ==> Asserted(p, y, parts[y])
  }

  lemma NoneAsserted(p: ProfileRatios.Profile)
    ensures AllAsserted(p, map[])
  {
  }

  lemma AssertedNext(p: ProfileRatios.Profile, parts: map<Id, map<Id, real>>, y: Id, partials: map<Id, real>)
    requires y !in parts
    ensures AllAsserted(p, parts[y := partials]) <==> AllAsserted(p, parts) && Asserted(p, y, partials)
  {
    hide Asserted;
    var next := parts[y := partials];
    if AllAsserted(p, next) {
      assert next[y] == partials;
      forall z | z in parts ensures Asserted(p, z, parts[z]) { assert next[z] == parts[z]; }
    }
  }

  lemma AssertedMore(p: ProfileRatios.Profile, parts: map<Id, map<Id, real>>, more: map<Id, map<Id, real>>)
    requires forall y :: y in parts && y in more ==> parts[y] == more[y]
    ensures AllAsserted(p, parts + more) <==> AllAsserted(p, parts) && AllAsserted(p, more)
  {
    hide Asserted;
    var all := parts + more;
    if AllAsserted(p, all) {
      forall y | y in parts ensures Asserted(p, y, parts[y]) { assert all[y] == parts[y]; }
      forall y | y in more ensures Asserted(p, y, more[y]) { assert all[y] == more[y]; }
    }
  }

  /** The division from an entry is determined. */
  lemma DividedOnce(p: ProfileRatios.Profile, y: Id, partials: map<Id, real>, others: map<Id, real>)
    requires DividedAt(p, y, partials) && DividedAt(p, y, others)
    ensures partials == others
  {
    hide Integrated, Ranked, Valid, OpenAt, Adds;
    forall x | x in OpenAt(p, y).members ensures partials[x] == others[x] {
      OnePartial(OpenAt(p, y), partials, others, x);
    }
  }

  lemma OpensAt(p: ProfileRatios.Profile, c: Cycle, y: Id, ranks: map<Id, nat>)
    requires Integrated(p) && y in Members(p, c)
    requires Ranked(p.calls, Comp(p.calls, y), y, ranks) && ranks == Ranks(p.calls, y)
    ensures Opens(p, c, ranks, OpenAt(p, y)) && OpenAt(p, y).entry == y && OpenAt(p, y).members <= p.calls.Keys
  {
    hide Integrated;
    IntegratedRatios(p);
    MembersAre(p, c, y);
    hide Members, Comp, Ranked, EntryRatio, External, Grouped, WellFormed, Valid, Brings;
    OpenedValid(p.calls, p.ratios, p.own, p.callTotal, y, ranks, EntryRatio(p.calls, p.ratios, y));
  }

  lemma OpensWith(p: ProfileRatios.Profile, y: Id)
    requires Integrated(p)
    ensures p.ratios.Keys == Arcs(p.calls) && OwnParts(p, EntryRatio(p.calls, p.ratios, y), OpenAt(p, y))
  {
    hide Integrated, RisingArcs, EntryRatio, External, Grouped, WellFormed, Total, Times, Mutual, Ranks;
    IntegratedRatios(p);
  }

  /** Divides the total of a cycle once for every function at which it is entered. */
  method Divide(p: ProfileRatios.Profile, c: Cycle) returns (parts: map<Id, map<Id, real>>, ok: bool)
    requires Integrated(p)
    ensures forall y :: y in parts <==> y in Members(p, c) && Entries(p.calls, y) != {}
    ensures forall y :: y in parts ==> DividedAt(p, y, parts[y])
    ensures ok <==> AllAsserted(p, parts)
  {
    hide Members, Entries, DividedAt, AllAsserted, Integrated, Firsts, RatioIs;
    NoneAsserted(p);
    var entries := EntryRatios(p, c);
    var list := Listed(entries.Keys);
    parts, ok := map[], true;
    FirstsAll(list, entries.Keys);
    for i := 0 to |list|
      invariant parts.Keys == Firsts(list, i)
      invariant forall y :: y in parts ==> DividedAt(p, y, parts[y])
      invariant ok <==> AllAsserted(p, parts)
    {
      var y := list[i];
      FirstsNext(list, i);
      var partials, holds := DivideFrom(p, c, y, entries[y]);
      AssertedNext(p, parts, y, partials);
      parts := parts[y := partials];
      ok := ok && holds;
    }
  }

  /** The division from one entry, and whether its assertions hold. */
  method DivideFrom(p: ProfileRatios.Profile, c: Cycle, y: Id, rho: real)
    returns (partials: map<Id, real>, holds: bool)
    requires Integrated(p) && y in Members(p, c) && RatioIs(p, y, rho)
    ensures DividedAt(p, y, partials) && (holds <==> Asserted(p, y, partials))
  {
    hide Integrated, Members, Valid, Ranked, Opens, Total, Times, OpenAt, External, Comp, AssertionsHold, Leaving;
    CycleView(p, c, y);
    IntegratedRatios(p);
    var ranks := RankCycle(p, c, y);
    OpensAt(p, c, y, ranks);
    OpensWith(p, y);
    partials := PartialTotals(p, c, y, rho, ranks, OpenAt(p, y));
    OpenedIsValid(p, c, ranks, OpenAt(p, y));
    holds := AssertionsHold(p.cycleTotal[c], rho, partials, y);
  }

  lemma OpenedIsValid(p: ProfileRatios.Profile, c: Cycle, ranks: map<Id, nat>, o: Opened)
    requires Opens(p, c, ranks, o)
    ensures Valid(o)
  {
  }

  lemma CycleView(p: ProfileRatios.Profile, c: Cycle, y: Id)
    requires Integrated(p) && y in Members(p, c)
    ensures y in p.calls && c in p.cycleTotal && y in p.View() && p.View()[y] == p.cycleTotal[c]
  {
    hide Balanced, RatioOf, Propagated;
  }

  // ----- the whole analysis

  /** The functions at which some cycle is entered. */
  ghost predicate IsEntry(g: Graph, y: Id) { y in g && HasMate(g, y) && Entries(g, y) != {} }

  /**
   Find the cycles, compute the ratios, propagate, and divide the totals of the cycles; `ok` tells
   whether the assertions of the division hold, and otherwise the source raises an error.
   */
  method Analyse(functions: seq<Id>, calls: Graph, weight: map<Arc, real>, own: map<Id, real>)
    returns (p: ProfileRatios.Profile, parts: map<Id, map<Id, real>>, ok: bool)
    requires Distinct(functions) && (forall x :: x in functions <==> x in calls)
    requires WellFormed(calls, weight) && own.Keys == calls.Keys
    ensures fresh(p) && p.calls == calls && p.weight == weight && p.own == own
    ensures Integrated(p) && p.whole == Total(calls.Keys, own)
    ensures forall y :: y in parts <==> IsEntry(calls, y)
    ensures forall y :: y in parts ==> DividedAt(p, y, parts[y])
    ensures ok <==> AllAsserted(p, parts)
  {
    hide RatiosOf, Solved, Total, Unentered, Doubtful, Excess, DividedAt, AllAsserted, IsEntry, External, Times,
        Grouped;
    var finder := new ProfileCycles.Profile(functions, calls);
    finder.FindCycles();
    p := new ProfileRatios.Profile(functions, calls, finder.cycle, finder.cycles, weight, own);
    p.CallRatios();
    p.Integrate();
    parts, ok := DivideAll(p);
  }

  method DivideAll(p: ProfileRatios.Profile) returns (parts: map<Id, map<Id, real>>, ok: bool)
    requires Integrated(p)
    ensures forall y :: y in parts <==> IsEntry(p.calls, y)
    ensures forall y :: y in parts ==> DividedAt(p, y, parts[y])
    ensures ok <==> AllAsserted(p, parts)
  {
    hide Entries, DividedAt, AllAsserted, Integrated, IsEntry;
    parts, ok := map[], true;
    NoneAsserted(p);
    for i := 0 to |p.cycles|
      invariant forall y :: y in parts <==> EntryAmong(p, p.cycles[..i], y)
      invariant forall y :: y in parts ==> DividedAt(p, y, parts[y])
      invariant ok <==> AllAsserted(p, parts)
    {
      var more, holds := Divide(p, p.cycles[i]);
      forall y | y in parts && y in more ensures parts[y] == more[y] { DividedOnce(p, y, parts[y], more[y]); }
      AssertedMore(p, parts, more);
      assert p.cycles[..i + 1] == p.cycles[..i] + [p.cycles[i]];
      parts, ok := parts + more, ok && holds;
    }
    assert p.cycles[..|p.cycles|] == p.cycles;
    AllEntries(p);
  }

  ghost predicate EntryAmong(p: ProfileRatios.Profile, cycles: seq<Cycle>, y: Id)
  {
    y in p.calls && y in p.cycle && p.cycle[y] in cycles && Entries(p.calls, y) != {}
  }

  lemma AllEntries(p: ProfileRatios.Profile)
    requires Integrated(p)
    ensures forall y :: EntryAmong(p, p.cycles, y) <==> IsEntry(p.calls, y)
  {
    hide Entries, Solved, RatioOf, Propagated, HasMate;
  }

  /** A part of the cycle's total leaves through y, and hardly more than that arrives there; or there is no total. */
  ghost predicate Sound(p: ProfileRatios.Profile, y: Id, partials: map<Id, real>)
    reads p`ratios, p`total, p`cycleTotal, p`callTotal
  {
    && DividedAt(p, y, partials) && y in p.View()
    && (p.View()[y] == 0.0 || (EntryRatio(p.calls, p.ratios, y) != 0.0
        && 1000.0 * Surplus(OpenAt(p, y), partials) <= Times(p.View()[y], EntryRatio(p.calls, p.ratios, y))))
  }

  /** On a profile without negative values, exactly these entries raise no error. */
  lemma AssertedIffSound(p: ProfileRatios.Profile, y: Id, partials: map<Id, real>)
    requires DividedAt(p, y, partials) && y in p.calls && forall x :: x in p.own ==> p.own[x] >= 0.0
    ensures Asserted(p, y, partials) <==> Sound(p, y, partials)
  {
    hide Ranked, PartialsOf, Valid, Opening, RatioOf, Balanced, AssertionsHold, EntryRatio, Times, Surplus, Propagated;
    assert Closed(p.calls);
    hide WellFormed, Grouped, Closed;
    DivisionHoldsIff(p.calls, p.weight, p.ratios, p.own, p.View(), p.callTotal, y, partials);
  }

  /** So the analysis succeeds exactly if every entry of every cycle is sound. */
  lemma AnalysisHoldsIff(p: ProfileRatios.Profile, parts: map<Id, map<Id, real>>)
    requires forall y :: y in parts ==> y in p.calls && DividedAt(p, y, parts[y])
    requires forall x :: x in p.own ==> p.own[x] >= 0.0
    ensures AllAsserted(p, parts) <==> forall y :: y in parts ==> Sound(p, y, parts[y])
  {
    hide DividedAt, Asserted, Sound;
    forall y | y in parts ensures Asserted(p, y, parts[y]) <==> Sound(p, y, parts[y]) {
      AssertedIffSound(p, y, parts[y]);
    }
  }

  // ----- a cycle that is entered only by a call without data

  const SILENT: Graph := map[0 := [1], 1 := [2], 2 := [1]]
  const SILENT_WEIGHT: map<Arc, real> := map[(1, 2) := 1.0, (2, 1) := 1.0]

  lemma SilentMutual()
    ensures Mutual(SILENT, 1, 2) && !Mutual(SILENT, 0, 1) && !Mutual(SILENT, 0, 2)
  {
    ReachEdge(SILENT, 1, 2);
    ReachEdge(SILENT, 2, 1);
    if Reach(SILENT, 1, 0) {
      var a, b := Crossing(SILENT, {1, 2}, 1, 0);
    }
    if Reach(SILENT, 2, 0) {
      var a, b := Crossing(SILENT, {1, 2}, 2, 0);
    }
  }

  lemma SilentSets()
    ensures Arcs(SILENT) == {(0, 1), (1, 2), (2, 1)} && HasMate(SILENT, 1) && Comp(SILENT, 1) == {1, 2}
    ensures Entries(SILENT, 1) == {(0, 1)} && OutArcs(SILENT, 1) == {}
  {
    SilentMutual();
    forall e: Arc ensures IsCall(SILENT, e) <==> e == (0, 1) || e == (1, 2) || e == (2, 1) {}
    MutualEquivalence(SILENT, 1, 2, 1);
    MutualEquivalence(SILENT, 1, 0, 1);
    hide Mutual;
  }

  lemma SilentShare(r: map<Arc, real>)
    requires RatiosOf(SILENT, SILENT_WEIGHT, r)
    ensures EntryRatio(SILENT, r, 1) == 0.0
  {
    SilentSets();
    hide RatioOf, EntryRatio, Entries, Comp, OutArcs, Arcs, GateTotal;
    EntryRatioZeroIff(SILENT, SILENT_WEIGHT, r, 1);
  }

  lemma SilentTotal(r: map<Arc, real>, own: map<Id, real>, t: map<Id, real>)
    requires own.Keys == SILENT.Keys && Solved(SILENT, r, own, t)
    ensures t[1] == own[1] + own[2]
  {
    assert Balanced(SILENT, r, own, t, 1);
    hide *;
    SilentSets();
    PairTotal(SILENT, r, own, t, 1, 2);
  }

  /** The total of two functions that call nothing else. */
  lemma PairTotal(g: Graph, r: map<Arc, real>, own: map<Id, real>, t: map<Id, real>, x: Id, y: Id)
    requires own.Keys == g.Keys && x in g && y in g && x != y && Balanced(g, r, own, t, x)
    requires Comp(g, x) == {x, y} && OutArcs(g, x) == {}
    ensures t[x] == own[x] + own[y]
  {
    hide Comp, OutArcs, Flow;
    TotalNext({x}, own, y);
    SingleTotal(x, own);
    assert {x} + {y} == {x, y};
  }

  lemma SilentOk()
    ensures WellFormed(SILENT, SILENT_WEIGHT) && NonNegative(SILENT_WEIGHT) && IsEntry(SILENT, 1)
  {
    hide Entries, HasMate;
    SilentSets();
  }

  /**
   The total of this cycle is what its functions have of their own. None of it leaves through the
   entry, so the division by that share raises an error unless the total is zero.
   */
  lemma SilentEntry(r: map<Arc, real>, own: map<Id, real>, t: map<Id, real>, partials: map<Id, real>)
    requires RatiosOf(SILENT, SILENT_WEIGHT, r) && own.Keys == SILENT.Keys && Solved(SILENT, r, own, t) && 1 in partials
    ensures WellFormed(SILENT, SILENT_WEIGHT) && NonNegative(SILENT_WEIGHT) && IsEntry(SILENT, 1)
    ensures EntryRatio(SILENT, r, 1) == 0.0 && t[1] == own[1] + own[2]
    ensures own[1] + own[2] != 0.0 ==> !AssertionsHold(t[1], EntryRatio(SILENT, r, 1), partials, 1)
  {
    hide RatiosOf, Solved, WellFormed, NonNegative, IsEntry, EntryRatio;
    SilentOk();
    SilentShare(r);
    SilentTotal(r, own, t);
  }
}
