/** Cycle detection on a call-graph profile: the recursive search and the cycle objects it builds. */
module ProfileCycles {
  import opened CallGraph
  import opened Lists
  import opened Tarjan

  class Cycle {
    var functions: set<Id>

    constructor ()
      ensures functions == {}
    {
      functions := {};
    }
  }

  class Profile {
    // The functions in iteration order, and the calls of each.
    const functions: seq<Id>
    const calls: Graph
    // The cycle object of each function that has one, and all cycle objects.
    var cycle: map<Id, Cycle>
    var cycles: seq<Cycle>
    // The functions visited by any search, and the state of the current search.
    var visited: set<Id>
    var stack: seq<Id>
    var orders: map<Id, nat>
    var lowlinks: map<Id, nat>

    constructor (functions: seq<Id>, calls: Graph)
      ensures this.functions == functions && this.calls == calls && cycle == map[]
    {
      this.functions := functions;
      this.calls := calls;
      cycle := map[];
      cycles := [];
      visited := {};
      stack := [];
      orders := map[];
      lowlinks := map[];
    }

    ghost function Now(): (s: Search)
      reads this`orders, this`stack
    {
      Search(orders, stack)
    }

    /** A cycle object is shared by exactly the functions of one component, and lists exactly them. */
    ghost predicate CyclesOk()
      reads this`cycle, cycle.Values
    {
      forall x :: x in cycle ==> CycleOk(x)
    }

    ghost predicate CycleOk(x: Id)
      requires x in cycle
      reads this`cycle, cycle.Values
    {
      && HasMate(calls, x)
      && (forall y :: y in cycle && cycle[y] == cycle[x] <==> Mutual(calls, x, y))
      && (forall y :: y in cycle[x].functions <==> Mutual(calls, x, y))
    }

    /** Every finished function that belongs to a cycle has its cycle object. */
    ghost predicate Marked(s: Search)
      reads this`cycle
    {
      forall x :: Finished(s, x) && HasMate(calls, x) ==> x in cycle
    }

    /**
     Put a function in a cycle. The loop over the function's previous cycle is there to merge that
     cycle into this one, but its guard tests the function that has just been added, so the
     recursive call behind it is never made and nothing is merged.
     */
    method AddFunction(c: Cycle, f: Id)
      requires f !in c.functions
      modifies c, this`cycle
      ensures c.functions == old(c.functions) + {f}
      ensures cycle == old(cycle)[f := c]
    {
      c.functions := c.functions + {f};
      if f in cycle {
        var others := Listed(cycle[f].functions);
        for i := 0 to |others|
          invariant c.functions == old(c.functions) + {f} && cycle == old(cycle)
        {
          if f !in c.functions {
            // AddFunction(c, others[i]) would stand here.
            assert false;
          }
        }
      }
      cycle := cycle[f := c];
    }

    /** One new cycle object for the members of a component, replacing any they had before. */
    method MakeCycle(members: seq<Id>) returns (c: Cycle)
      requires forall i, j :: 0 <= i < j < |members| ==> members[i] != members[j]
      modifies this`cycle
      ensures fresh(c) && NewCycle(members, c, old(cycle))
    {
      c := new Cycle();
      for i := 0 to |members|
        invariant fresh(c) && c.functions == (set m | m in members[..i])
        invariant forall x :: x in cycle <==> x in old(cycle) || x in members[..i]
        invariant forall x :: x in cycle ==> cycle[x] == if x in members[..i] then c else old(cycle)[x]
      {
        AddFunction(c, members[i]);
      }
    }

    ghost predicate NewCycle(members: seq<Id>, c: Cycle, before: map<Id, Cycle>)
      reads this`cycle, c
    {
      && (forall x :: x in c.functions <==> x in members)
      && (forall x :: x in cycle <==> x in before || x in members)
      && (forall x :: x in cycle ==> cycle[x] == if x in members then c else before[x])
    }

    method MarkComponent(members: seq<Id>, ghost f: Id)
      requires CyclesOk() && |members| > 1
      requires forall i, j :: 0 <= i < j < |members| ==> members[i] != members[j]
      requires forall z :: z in members <==> Mutual(calls, f, z)
      modifies this`cycle
      ensures CyclesOk() && forall x :: x in cycle <==> x in old(cycle) || x in members
    {
      hide Mutual, HasMate;
      var c := MakeCycle(members);
      forall x | x in cycle ensures CycleOk(x) {
        if x in members {
          MemberOk(calls, members, f, x);
        } else {
          OutsiderOk(calls, members, f, x);
          assert old(CycleOk(x));
          assert cycle[x] == old(cycle)[x] && unchanged(cycle[x]);
        }
      }
    }

    /** Take the component off the stack and, if it has more than one member, give it a cycle object. */
    method PopComponent(pos: nat, ghost f: Id)
      requires pos <= |stack| && CyclesOk()
      requires forall i, j :: 0 <= i < j < |stack| ==> stack[i] != stack[j]
      requires forall z :: z in stack[pos..] <==> Mutual(calls, f, z)
      modifies this`stack, this`cycle
      ensures stack == old(stack)[..pos] && CyclesOk() && old(cycle).Keys <= cycle.Keys
      ensures forall z :: Mutual(calls, f, z) && HasMate(calls, z) ==> z in cycle
    {
      hide Mutual, HasMate;
      var members := stack[pos..];
      stack := stack[..pos];
      if |members| > 1 {
        MarkComponent(members, f);
      } else {
        LonelyComponent(calls, members, f);
      }
    }

    /** What a search may rely on and keeps: the low links, the visited set and the cycle objects. */
    ghost predicate Steady()
      reads this`lowlinks, this`orders, this`stack, this`visited, this`cycle, cycle.Values
    {
      lowlinks.Keys == orders.Keys <= visited && CyclesOk() && Marked(Now())
    }

    /** Visit function f, which has no number yet; numbers from `start` on are free. */
    method Visit(f: Id, start: nat, ghost active: set<Id>) returns (order: nat)
      requires Ready(calls, Now(), active, f, start) && Steady()
      modifies this`visited, this`stack, this`orders, this`lowlinks, this`cycle
      ensures Steady() && f in lowlinks
      ensures Visited(calls, old(Now()), active, f, start, Now(), lowlinks[f], order)
      ensures forall x :: x in old(lowlinks) ==> x in lowlinks && lowlinks[x] == old(lowlinks)[x]
      ensures old(visited) <= visited <= old(visited) + orders.Keys && old(cycle).Keys <= cycle.Keys
      decreases calls.Keys - orders.Keys, 0
    {
      hide Visited, Visiting, Inv, Closed, Tarjan.NumbersBelow, CyclesOk;
      ghost var s0, lows0 := Now(), lowlinks;
      StartVisit(calls, s0, active, f, start);
      visited := visited + {f};
      orders := orders[f := start];
      lowlinks := lowlinks[f := start];
      order := start + 1;
      var pos := |stack|;
      stack := stack + [f];
      assert Now() == Push(s0, f, start);
      for i := 0 to |calls[f]|
        invariant Steady() && f in lowlinks && s0.orders.Keys + {f} <= orders.Keys
        invariant Visiting(calls, s0, active, f, start, Now(), lowlinks[f], order, i)
        invariant forall x :: x in lows0 ==> x in lowlinks && lowlinks[x] == lows0[x]
        invariant old(visited) <= visited <= old(visited) + orders.Keys && old(cycle).Keys <= cycle.Keys
      {
        order := LookAt(f, i, start, order, s0, active);
      }
      NumberOf(calls, s0, active, f, start, Now(), lowlinks[f], order);
      if lowlinks[f] == orders[f] {
        Finish(pos, f, start, order, s0, active);
      } else {
        StayVisited(calls, s0, active, f, start, Now(), lowlinks[f], order);
      }
    }

    /** The i-th callee of f: visit it if it has no number, note its number if it is on the stack. */
    method LookAt(f: Id, i: nat, ghost start: nat, next: nat, ghost s0: Search, ghost active: set<Id>)
        returns (order: nat)
      requires Ready(calls, s0, active, f, start) && Steady() && f in lowlinks && i < |calls[f]|
      requires Visiting(calls, s0, active, f, start, Now(), lowlinks[f], next, i)
      modifies this`visited, this`stack, this`orders, this`lowlinks, this`cycle
      ensures Steady() && f in lowlinks && old(orders).Keys <= orders.Keys
      ensures Visiting(calls, s0, active, f, start, Now(), lowlinks[f], order, i + 1)
      ensures forall x :: x in old(lowlinks) && x != f ==> x in lowlinks && lowlinks[x] == old(lowlinks)[x]
      ensures old(visited) <= visited <= old(visited) + orders.Keys && old(cycle).Keys <= cycle.Keys
      decreases calls.Keys - orders.Keys, 1
    {
      hide Visited, Visiting, Inv, Closed, Tarjan.NumbersBelow, CyclesOk;
      order := next;
      var callee := calls[f][i];
      ghost var s, low := Now(), lowlinks[f];
      if callee !in orders {
        CalleeReady(calls, s0, active, f, start, s, low, next, i);
        order := Visit(callee, next, active + {f});
        CallCallee(calls, s0, active, f, start, s, low, next, i, Now(), lowlinks[callee], order);
        NumbersStay(calls, s, active + {f}, callee, next, Now(), lowlinks[callee], order);
        lowlinks := lowlinks[f := Tarjan.Min(lowlinks[f], lowlinks[callee])];
      } else if callee in stack {
        BackCallee(calls, s0, active, f, start, s, low, next, i);
        lowlinks := lowlinks[f := Tarjan.Min(lowlinks[f], orders[callee])];
      } else {
        SkipCallee(calls, s0, active, f, start, s, low, next, i);
      }
    }

    /** The low link of f is its own number: the stack from f on is a component. */
    method Finish(pos: nat, ghost f: Id, ghost start: nat, ghost order: nat, ghost s0: Search, ghost active: set<Id>)
      requires Ready(calls, s0, active, f, start) && Steady() && f in lowlinks && lowlinks[f] == start
      requires Visiting(calls, s0, active, f, start, Now(), start, order, |calls[f]|) && pos == |s0.stack|
      modifies this`stack, this`cycle
      ensures Steady() && Visited(calls, s0, active, f, start, Now(), start, order) && old(cycle).Keys <= cycle.Keys
    {
      hide Visited, Visiting, Inv, Closed, Tarjan.NumbersBelow, CyclesOk, Mutual, HasMate;
      ghost var s := Now();
      ReadyScanned(calls, s0, active, f, start, s, order);
      SegmentIsComponent(calls, s0, active, f, start, s, order);
      StackPrefix(calls, s0, active, f, start, s, order);
      PopVisited(calls, s0, active, f, start, s, order);
      PopComponent(pos, f);
      assert Now() == Search(s.orders, s0.stack);
      forall x | Finished(Now(), x) && HasMate(calls, x) ensures x in cycle {
        if x in s.stack {
          SegmentMember(calls, s0, active, f, start, s, order, x);
        } else {
          assert Finished(s, x);
        }
      }
    }

    /** One search from f, with numbering, low links and stack started afresh. */
    method SearchFrom(f: Id)
      requires Closed(calls) && f in calls && CyclesOk()
      modifies this`visited, this`stack, this`orders, this`lowlinks, this`cycle
      ensures CyclesOk() && f in visited && old(visited) <= visited && old(cycle).Keys <= cycle.Keys
      ensures forall x :: x in visited && x !in old(visited) && HasMate(calls, x) ==> x in cycle
    {
      hide Closed, CyclesOk, HasMate, Visited;
      stack, orders, lowlinks := [], map[], map[];
      assert Ready(calls, Now(), {}, f, 0);
      var order := Visit(f, 0, {});
      SearchEmptiesStack(calls, f, Now(), lowlinks[f], order);
      assert forall x :: x in orders ==> Finished(Now(), x);
    }

    /**
     Find the cycles. Searches restart from every function not visited yet and may rebuild
     components found before; still, afterwards two distinct functions share a cycle object exactly
     when each reaches the other, a function has one exactly when it is in a cycle with another,
     each object lists exactly its functions, and `cycles` lists every object once.
     */
    method FindCycles()
      requires Closed(calls) && (forall f :: f in functions <==> f in calls) && cycle == map[]
      modifies this
      ensures forall x, y :: x in calls && y in calls && x != y ==>
                (x in cycle && y in cycle && cycle[x] == cycle[y] <==> Mutual(calls, x, y))
      ensures forall x :: x in calls ==> (x in cycle <==> HasMate(calls, x))
      ensures forall x :: x in cycle ==> forall y :: y in cycle[x].functions <==> Mutual(calls, x, y)
      ensures forall i, j :: 0 <= i < j < |cycles| ==> cycles[i] != cycles[j]
      ensures forall c :: c in cycles <==> exists f :: f in calls && f in cycle && cycle[f] == c
    {
      hide Closed, Mutual, HasMate;
      visited := {};
      for i := 0 to |functions|
        invariant CyclesOk() && forall f :: f in functions[..i] ==> f in visited
        invariant forall x :: x in visited && HasMate(calls, x) ==> x in cycle
      {
        if functions[i] !in visited {
          SearchFrom(functions[i]);
        }
      }
      assert functions[..|functions|] == functions;
      ListCycles();
      forall x, y | x in calls && y in calls && x != y
        ensures x in cycle && y in cycle && cycle[x] == cycle[y] <==> Mutual(calls, x, y)
      {
        if Mutual(calls, x, y) {
          MateOf(calls, x, y);
        }
        if x in cycle { assert CycleOk(x); }
      }
      forall x | x in cycle ensures HasMate(calls, x) && forall y :: y in cycle[x].functions <==> Mutual(calls, x, y) {
        assert CycleOk(x);
      }
    }

    ghost predicate Owned(c: Cycle)
      reads this`cycle
    {
      exists f :: f in functions && f in cycle && cycle[f] == c
    }

    method ListCycles()
      modifies this`cycles
      ensures forall i, j :: 0 <= i < j < |cycles| ==> cycles[i] != cycles[j]
      ensures forall c :: c in cycles <==> exists f :: f in functions && f in cycle && cycle[f] == c
    {
      cycles := [];
      for i := 0 to |functions|
        invariant forall j, k :: 0 <= j < k < |cycles| ==> cycles[j] != cycles[k]
        invariant forall j :: 0 <= j < |cycles| ==> Owned(cycles[j])
        invariant forall k :: 0 <= k < i && functions[k] in cycle ==> cycle[functions[k]] in cycles
      {
        var f := functions[i];
        assert f in functions;
        if f in cycle && cycle[f] !in cycles {
          assert Owned(cycle[f]);
          cycles := cycles + [cycle[f]];
        }
      }
    }
  }

  lemma MateOf(g: Graph, x: Id, y: Id)
    requires Mutual(g, x, y) && x != y
    ensures HasMate(g, x) && HasMate(g, y)
  {
    MutualEquivalence(g, x, y, x);
  }

  lemma SearchEmptiesStack(g: Graph, f: Id, s: Search, low: nat, n: nat)
    requires Visited(g, BLANK, {}, f, 0, s, low, n)
    ensures s.stack == [] && f in s.orders
  {
    hide Reach;
    assert forall i :: 0 <= i < |s.stack| ==> s.stack[i] in s.stack;
    assert forall y :: y in s.stack ==> AnchoredInSome(g, s, y, {});
  }

  lemma ReadyScanned(g: Graph, s0: Search, active: set<Id>, f: Id, n: nat, s: Search, n': nat)
    requires Ready(g, s0, active, f, n) && f in g && Visiting(g, s0, active, f, n, s, n, n', |g[f]|)
    ensures Scanned(g, s0, active, f, n, s, n, n')
  {
    hide Visiting, Inv, Closed, Tarjan.NumbersBelow;
  }

  lemma NumberOf(g: Graph, s0: Search, active: set<Id>, f: Id, n: nat, s: Search, low: nat, n': nat)
    requires Ready(g, s0, active, f, n) && f in g && Visiting(g, s0, active, f, n, s, low, n', |g[f]|)
    ensures f in s.orders && s.orders[f] == n && low <= n && Scanned(g, s0, active, f, n, s, low, n')
  {
    hide Inv, Closed, Tarjan.NumbersBelow;
  }

  lemma NumbersStay(g: Graph, s: Search, active: set<Id>, f: Id, n: nat, t: Search, low: nat, n': nat)
    requires Visited(g, s, active, f, n, t, low, n')
    ensures s.orders.Keys <= t.orders.Keys
  {
    hide Inv, Reach;
  }

  lemma StackPrefix(g: Graph, s0: Search, active: set<Id>, f: Id, n: nat, s: Search, n': nat)
    requires Scanned(g, s0, active, f, n, s, n, n')
    ensures |s0.stack| <= |s.stack| && s.stack[..|s0.stack|] == s0.stack
    ensures forall i, j :: 0 <= i < j < |s.stack| ==> s.stack[i] != s.stack[j]
  {
    hide FinishedClosed, AllAnchored, Explored, LowReached, SegmentCovered, Reach, Closed;
  }

  lemma SegmentMember(g: Graph, s0: Search, active: set<Id>, f: Id, n: nat, s: Search, n': nat, x: Id)
    requires Scanned(g, s0, active, f, n, s, n, n') && x in s.stack && x !in s0.stack
    ensures Mutual(g, f, x)
  {
    SegmentIsNew(g, s0, active, f, n, s, n, n', x);
    SegmentIsMutual(g, s0, active, f, n, s, n', x);
  }

  lemma LonelyComponent(g: Graph, members: seq<Id>, f: Id)
    requires |members| <= 1 && forall z :: z in members <==> Mutual(g, f, z)
    ensures forall z :: Mutual(g, f, z) ==> !HasMate(g, z)
  {
    MutualEquivalence(g, f, f, f);
    forall z, y | Mutual(g, f, z) && Mutual(g, z, y) ensures y == z {
      MutualEquivalence(g, f, z, y);
      assert z in members && y in members;
    }
  }

  lemma MemberOk(g: Graph, members: seq<Id>, f: Id, x: Id)
    requires x in members && |members| > 1 && forall z :: z in members <==> Mutual(g, f, z)
    requires forall i, j :: 0 <= i < j < |members| ==> members[i] != members[j]
    ensures HasMate(g, x) && forall y :: Mutual(g, x, y) <==> y in members
  {
    forall y ensures Mutual(g, x, y) <==> y in members {
      MutualEquivalence(g, f, x, y);
      MutualEquivalence(g, x, f, y);
    }
    var y := if members[0] == x then members[1] else members[0];
    assert y in members && y != x;
  }

  lemma OutsiderOk(g: Graph, members: seq<Id>, f: Id, x: Id)
    requires x !in members && forall z :: z in members <==> Mutual(g, f, z)
    ensures forall y :: y in members ==> !Mutual(g, x, y)
  {
    forall y | y in members ensures !Mutual(g, x, y) {
      MutualEquivalence(g, x, y, f);
      MutualEquivalence(g, f, y, x);
      MutualEquivalence(g, y, x, f);
    }
  }
}
