/**
 The search for strongly connected components, on values: what the numbering, the low links and
 the stack of one depth-first search satisfy at each point, and why a popped stack segment is a
 component.
 */
module Tarjan {
  import opened CallGraph

  /** The state of one search; a function is finished when it has a number and is off the stack. */
  datatype Search = Search(orders: map<Id, nat>, stack: seq<Id>)

  const BLANK := Search(map[], [])

  ghost predicate Finished(s: Search, x: Id) { x in s.orders && x !in s.stack }

  ghost predicate StackOk(s: Search)
  {
    && (forall i :: 0 <= i < |s.stack| ==> s.stack[i] in s.orders)
    && (forall i, j :: 0 <= i < j < |s.stack| ==> s.orders[s.stack[i]] < s.orders[s.stack[j]])
  }

  /** y is on the stack above an active function that it reaches. */
  ghost predicate Anchored(g: Graph, s: Search, y: Id, v: Id)
    requires y in s.orders && v in s.orders
  {
    s.orders[v] <= s.orders[y] && Reach(g, y, v)
  }

  /** What holds while exactly the functions in `active` are being visited. */
  ghost predicate Inv(g: Graph, s: Search, active: set<Id>)
  {
    && StackOk(s)
    && s.orders.Keys <= g.Keys
    && (forall v :: v in active ==> v in s.stack)
    && Explored(g, s, active)
    && FinishedClosed(g, s)
    && AllAnchored(g, s, active)
  }

  /** Every callee of a function that is no longer active has been numbered. */
  ghost predicate Explored(g: Graph, s: Search, active: set<Id>)
  {
    forall x :: x in s.orders && x in g && x !in active ==> forall y :: y in g[x] ==> y in s.orders
  }

  /** No call leads from a finished function to one that is not. */
  ghost predicate FinishedClosed(g: Graph, s: Search)
  {
    forall x :: Finished(s, x) && x in g ==> forall y :: y in g[x] ==> Finished(s, y)
  }

  ghost predicate AllAnchored(g: Graph, s: Search, active: set<Id>)
  {
    forall y :: y in s.stack ==> AnchoredInSome(g, s, y, active)
  }

  ghost predicate AnchoredInSome(g: Graph, s: Search, y: Id, active: set<Id>)
  {
    exists v :: v in active && v in s.orders && y in s.orders && Anchored(g, s, y, v)
  }

  /** From s0 the search of f, numbered from n on, has come to s: only new functions, all reached from f. */
  ghost predicate Grown(g: Graph, s0: Search, f: Id, n: nat, s: Search)
  {
    && (forall x :: x in s0.orders ==> x in s.orders && s.orders[x] == s0.orders[x])
    && (forall x :: x in s.orders && x !in s0.orders ==> s.orders[x] >= n && Reach(g, f, x))
    && |s0.stack| <= |s.stack| && s.stack[..|s0.stack|] == s0.stack
    && (forall j :: |s0.stack| <= j < |s.stack| ==> s.stack[j] !in s0.orders)
  }

  /** The low link of f bounds every edge from the new stack segment into the old stack. */
  ghost predicate LowCovers(g: Graph, s0: Search, low: nat, s: Search, x: Id)
    requires x in g
  {
    forall y :: y in g[x] && y in s0.stack ==> y in s.orders && low <= s.orders[y]
  }

  /** The low link of f is the number of an old stack element that f reaches. */
  ghost predicate LowReached(g: Graph, s0: Search, f: Id, low: nat)
  {
    exists y :: y in s0.stack && y in s0.orders && s0.orders[y] == low && Reach(g, f, y)
  }

  ghost predicate NumbersBelow(s: Search, n: nat) { forall x :: x in s.orders ==> s.orders[x] < n }

  /** What visiting f (not active before or after) from s0 with first number n has done, with low link `low`. */
  ghost predicate Visited(g: Graph, s0: Search, active: set<Id>, f: Id, n: nat, s: Search, low: nat, n': nat)
  {
    && Inv(g, s, active) && Grown(g, s0, f, n, s) && NumbersBelow(s, n') && n < n'
    && f in s.orders && s.orders[f] == n && low <= n
    && (low < n ==> LowReached(g, s0, f, low))
    && (low == n ==> s.stack == s0.stack)
    && SegmentCovered(g, s0, low, s, |s0.stack|)
  }

  ghost predicate SegmentCovered(g: Graph, s0: Search, low: nat, s: Search, from: nat)
  {
    forall j :: from <= j < |s.stack| ==> s.stack[j] in g && LowCovers(g, s0, low, s, s.stack[j])
  }

  /** The same while f is active and its first i callees have been looked at. */
  ghost predicate Visiting(g: Graph, s0: Search, active: set<Id>, f: Id, n: nat, s: Search, low: nat, n': nat, i: nat)
  {
    && f in g && i <= |g[f]|
    && Inv(g, s, active + {f}) && Grown(g, s0, f, n, s) && NumbersBelow(s, n') && n < n'
    && f in s.orders && s.orders[f] == n && low <= n
    && |s0.stack| < |s.stack| && s.stack[|s0.stack|] == f
    && (low < n ==> LowReached(g, s0, f, low))
    && (forall k :: 0 <= k < i ==> CalleeCovered(s0, low, s, g[f][k]))
    && SegmentCovered(g, s0, low, s, |s0.stack| + 1)
  }

  ghost predicate CalleeCovered(s0: Search, low: nat, s: Search, c: Id)
  {
    c in s.orders && (c in s0.stack ==> low <= s.orders[c])
  }

  ghost predicate Ready(g: Graph, s0: Search, active: set<Id>, f: Id, n: nat)
  {
    Closed(g) && Inv(g, s0, active) && NumbersBelow(s0, n) && f in g && f !in s0.orders
  }

  function Push(s: Search, f: Id, n: nat): (s': Search)
  {
    Search(s.orders[f := n], s.stack + [f])
  }

  function Min(a: nat, b: nat): (m: nat) { if b < a then b else a }

  lemma StartStack(s0: Search, f: Id, n: nat)
    requires StackOk(s0) && NumbersBelow(s0, n) && f !in s0.orders
    ensures StackOk(Push(s0, f, n))
  {
  }

  lemma StartAnchors(g: Graph, s0: Search, active: set<Id>, f: Id, n: nat)
    requires StackOk(s0) && AllAnchored(g, s0, active) && f !in s0.orders
    ensures AllAnchored(g, Push(s0, f, n), active + {f})
  {
    var s := Push(s0, f, n);
    ReachSelf(g, f);
    forall y | y in s.stack ensures AnchoredInSome(g, s, y, active + {f}) {
      if y == f {
        assert Anchored(g, s, f, f);
      } else {
        assert y in s0.stack && AnchoredInSome(g, s0, y, active);
        var v :| v in active && v in s0.orders && y in s0.orders && Anchored(g, s0, y, v);
        assert Anchored(g, s, y, v);
      }
    }
  }

  lemma StartFinished(g: Graph, s0: Search, f: Id, n: nat)
    requires FinishedClosed(g, s0) && f !in s0.orders
    ensures FinishedClosed(g, Push(s0, f, n))
  {
    var s := Push(s0, f, n);
    forall x | Finished(s, x) && x in g ensures forall y :: y in g[x] ==> Finished(s, y) {
      assert Finished(s0, x);
      forall y | y in g[x] ensures Finished(s, y) { assert Finished(s0, y); }
    }
  }

  lemma StartInv(g: Graph, s0: Search, active: set<Id>, f: Id, n: nat)
    requires Ready(g, s0, active, f, n)
    ensures Inv(g, Push(s0, f, n), active + {f})
  {
    hide StackOk, FinishedClosed, AllAnchored, Closed;
    StartStack(s0, f, n);
    StartAnchors(g, s0, active, f, n);
    StartFinished(g, s0, f, n);
    assert forall v :: v in active ==> v in Push(s0, f, n).stack;
  }

  lemma StartGrown(g: Graph, s0: Search, active: set<Id>, f: Id, n: nat)
    requires Inv(g, s0, active) && f !in s0.orders
    ensures Grown(g, s0, f, n, Push(s0, f, n))
  {
    hide AllAnchored, FinishedClosed, Explored, StackOk;
    var s := Push(s0, f, n);
    assert s.stack[..|s0.stack|] == s0.stack;
    ReachSelf(g, f);
  }

  lemma StartVisit(g: Graph, s0: Search, active: set<Id>, f: Id, n: nat)
    requires Ready(g, s0, active, f, n)
    ensures Visiting(g, s0, active, f, n, Push(s0, f, n), n, n + 1, 0)
  {
    hide Inv, Grown, Closed;
    StartInv(g, s0, active, f, n);
    StartGrown(g, s0, active, f, n);
  }

  // ----- the callees of f, one by one

  lemma OldStackIsPrefix(g: Graph, s0: Search, f: Id, n: nat, s: Search, c: Id)
    requires Grown(g, s0, f, n, s)
    ensures c in s0.stack ==> c in s.stack
    ensures c in s.stack && c in s0.orders ==> c in s0.stack
  {
    if c in s0.stack {
      var j :| 0 <= j < |s0.stack| && s0.stack[j] == c;
      assert s.stack[..|s0.stack|][j] == c;
    }
    if c in s.stack && c in s0.orders {
      var j :| 0 <= j < |s.stack| && s.stack[j] == c;
      assert j < |s0.stack|;
      assert s.stack[..|s0.stack|][j] == c;
    }
  }

  lemma SkipCallee(g: Graph, s0: Search, active: set<Id>, f: Id, n: nat, s: Search, low: nat, n': nat, i: nat)
    requires Visiting(g, s0, active, f, n, s, low, n', i) && i < |g[f]|
    requires g[f][i] in s.orders && g[f][i] !in s.stack
    ensures Visiting(g, s0, active, f, n, s, low, n', i + 1)
  {
    hide Inv, LowReached, SegmentCovered, NumbersBelow, Grown;
    OldStackIsPrefix(g, s0, f, n, s, g[f][i]);
  }

  lemma CoversLower(g: Graph, s0: Search, low: nat, s: Search, from: nat, low': nat)
    requires SegmentCovered(g, s0, low, s, from) && low' <= low
    ensures SegmentCovered(g, s0, low', s, from)
  {
  }

  /** An edge from f to a function on the stack: either it is new, or it is on the old stack and f reaches it. */
  lemma BackEdge(g: Graph, s0: Search, f: Id, n: nat, s: Search, c: Id)
    requires Grown(g, s0, f, n, s) && Edge(g, f, c) && c in s.orders && c in s.stack
    ensures s.orders[c] < n ==> LowReached(g, s0, f, s.orders[c])
  {
    OldStackIsPrefix(g, s0, f, n, s, c);
    ReachEdge(g, f, c);
  }

  lemma BackCallee(g: Graph, s0: Search, active: set<Id>, f: Id, n: nat, s: Search, low: nat, n': nat, i: nat)
    requires Visiting(g, s0, active, f, n, s, low, n', i) && i < |g[f]|
    requires g[f][i] in s.orders && g[f][i] in s.stack
    ensures Visiting(g, s0, active, f, n, s, Min(low, s.orders[g[f][i]]), n', i + 1)
  {
    hide Inv, LowReached, SegmentCovered, NumbersBelow, Grown;
    var low' := Min(low, s.orders[g[f][i]]);
    BackEdge(g, s0, f, n, s, g[f][i]);
    CoversLower(g, s0, low, s, |s0.stack| + 1, low');
  }

  // ----- visiting a callee

  lemma CalleeReady(g: Graph, s0: Search, active: set<Id>, f: Id, n: nat, s: Search, low: nat, n': nat, i: nat)
    requires Closed(g) && Visiting(g, s0, active, f, n, s, low, n', i) && i < |g[f]| && g[f][i] !in s.orders
    ensures Ready(g, s, active + {f}, g[f][i], n')
  {
    hide Inv, LowReached, SegmentCovered, NumbersBelow, Grown;
    assert g[f][i] in g[f];
  }

  lemma GrownTwice(g: Graph, s0: Search, f: Id, n: nat, s: Search, c: Id, n1: nat, t: Search)
    requires Grown(g, s0, f, n, s) && Edge(g, f, c) && n <= n1 && Grown(g, s, c, n1, t)
    ensures Grown(g, s0, f, n, t)
  {
    forall x | x in t.orders && x !in s0.orders ensures t.orders[x] >= n && Reach(g, f, x) {
      if x !in s.orders {
        ReachEdge(g, f, c);
        ReachTrans(g, f, c, x);
      }
    }
    assert t.stack[..|s0.stack|] == t.stack[..|s.stack|][..|s0.stack|];
    forall j | |s0.stack| <= j < |t.stack| ensures t.stack[j] !in s0.orders {
      if j < |s.stack| {
        assert t.stack[j] == t.stack[..|s.stack|][j] == s.stack[j];
      }
    }
  }

  lemma CoveredAfterCallee(g: Graph, s0: Search, f: Id, n: nat, s: Search, low: nat, c: Id, n1: nat, t: Search,
                           lowC: nat)
    requires Grown(g, s0, f, n, s) && Grown(g, s, c, n1, t)
    requires SegmentCovered(g, s0, low, s, |s0.stack| + 1) && SegmentCovered(g, s, lowC, t, |s.stack|)
    requires (forall y :: y in s0.stack ==> y in s0.orders) && |s0.stack| < |s.stack|
    ensures SegmentCovered(g, s0, Min(low, lowC), t, |s0.stack| + 1)
  {
    hide Reach;
    forall j | |s0.stack| + 1 <= j < |t.stack|
      ensures t.stack[j] in g && LowCovers(g, s0, Min(low, lowC), t, t.stack[j])
    {
      if j < |s.stack| {
        assert t.stack[j] == t.stack[..|s.stack|][j] == s.stack[j];
      } else {
        forall y | y in g[t.stack[j]] && y in s0.stack ensures y in t.orders && Min(low, lowC) <= t.orders[y] {
          OldStackIsPrefix(g, s0, f, n, s, y);
        }
      }
    }
  }

  lemma LowAfterCallee(g: Graph, s0: Search, f: Id, n: nat, s: Search, c: Id, lowC: nat)
    requires Grown(g, s0, f, n, s) && Edge(g, f, c) && lowC < n && LowReached(g, s, c, lowC)
    ensures LowReached(g, s0, f, lowC)
  {
    var y :| y in s.stack && y in s.orders && s.orders[y] == lowC && Reach(g, c, y);
    assert y in s0.orders;
    OldStackIsPrefix(g, s0, f, n, s, y);
    ReachEdge(g, f, c);
    ReachTrans(g, f, c, y);
  }

  lemma CalleesStayCovered(g: Graph, s0: Search, f: Id, n: nat, s: Search, low: nat, c: Id, n1: nat, t: Search,
                           low': nat, i: nat)
    requires f in g && i < |g[f]| && g[f][i] == c && low' <= low
    requires Grown(g, s0, f, n, s) && Grown(g, s, c, n1, t) && c in t.orders && c !in s.orders
    requires forall y :: y in s0.stack ==> y in s0.orders
    requires forall k :: 0 <= k < i ==> CalleeCovered(s0, low, s, g[f][k])
    ensures forall k :: 0 <= k < i + 1 ==> CalleeCovered(s0, low', t, g[f][k])
  {
    hide Reach;
  }

  lemma CallCallee(g: Graph, s0: Search, active: set<Id>, f: Id, n: nat, s: Search, low: nat, n1: nat, i: nat,
                   t: Search, lowC: nat, n2: nat)
    requires Inv(g, s0, active) && Visiting(g, s0, active, f, n, s, low, n1, i) && i < |g[f]| && g[f][i] !in s.orders
    requires Visited(g, s, active + {f}, g[f][i], n1, t, lowC, n2)
    ensures Visiting(g, s0, active, f, n, t, Min(low, lowC), n2, i + 1)
  {
    hide LowReached, SegmentCovered, NumbersBelow, Grown, CalleeCovered, Explored, FinishedClosed, AllAnchored, Reach;
    var c, low' := g[f][i], Min(low, lowC);
    GrownTwice(g, s0, f, n, s, c, n1, t);
    CoveredAfterCallee(g, s0, f, n, s, low, c, n1, t, lowC);
    CalleesStayCovered(g, s0, f, n, s, low, c, n1, t, low', i);
    if low' < n && low' != low {
      LowAfterCallee(g, s0, f, n, s, c, lowC);
    }
    FirstOfSegment(g, s0, f, n, s, c, n1, t);
  }

  lemma FirstOfSegment(g: Graph, s0: Search, f: Id, n: nat, s: Search, c: Id, n1: nat, t: Search)
    requires Grown(g, s, c, n1, t) && |s0.stack| < |s.stack| && s.stack[|s0.stack|] == f && f in s.orders
    ensures |s0.stack| < |t.stack| && t.stack[|s0.stack|] == f && f in t.orders && t.orders[f] == s.orders[f]
  {
    assert t.stack[..|s.stack|][|s0.stack|] == f;
  }

  // ----- all callees looked at: a component is found, or f stays on the stack

  /** All callees of f have been looked at. */
  ghost predicate Scanned(g: Graph, s0: Search, active: set<Id>, f: Id, n: nat, s: Search, low: nat, n': nat)
  {
    && Closed(g) && Inv(g, s0, active) && NumbersBelow(s0, n) && f in g && f !in s0.orders
    && Visiting(g, s0, active, f, n, s, low, n', |g[f]|)
  }

  /** What is left when the old stack is taken away: the finished functions and the new segment. */
  ghost function Rest(s0: Search, s: Search): (r: set<Id>) { set x | x in s.orders && x !in s0.stack }

  lemma SegmentIsNew(g: Graph, s0: Search, active: set<Id>, f: Id, n: nat, s: Search, low: nat, n': nat, x: Id)
    requires Scanned(g, s0, active, f, n, s, low, n')
    ensures x in s.stack && x !in s0.stack <==> x in s.stack[|s0.stack|..]
    ensures x in s.stack[|s0.stack|..] ==> x in s.orders && x !in s0.orders && x !in active
  {
    hide FinishedClosed, AllAnchored, Explored, LowReached, SegmentCovered, Reach, Closed;
    PartOfStack(s.stack, |s0.stack|, x);
  }

  /** Without repetition, an element stands above a height exactly if it does not stand below it. */
  lemma PartOfStack(stack: seq<Id>, h: nat, x: Id)
    requires h <= |stack| && forall i, j :: 0 <= i < j < |stack| ==> stack[i] != stack[j]
    ensures x in stack && x !in stack[..h] <==> x in stack[h..]
    ensures x in stack[h..] ==> x in stack
  {
    if x in stack && x !in stack[..h] {
      var j :| 0 <= j < |stack| && stack[j] == x;
      assert stack[h..][j - h] == x;
    }
    if x in stack[h..] {
      var j :| 0 <= j < |stack| - h && stack[h..][j] == x;
      assert stack[h + j] == x;
    }
  }

  /** With low link n, no edge leads from the new segment back to the old stack. */
  lemma NoEscapeFromSegment(g: Graph, s0: Search, active: set<Id>, f: Id, n: nat, s: Search, n': nat, a: Id, b: Id)
    requires Scanned(g, s0, active, f, n, s, n, n') && a in s.stack[|s0.stack|..] && Edge(g, a, b)
    ensures b in s.orders && b !in s0.stack
  {
    hide FinishedClosed, AllAnchored, LowReached, Reach, Closed;
    SegmentIsNew(g, s0, active, f, n, s, n, n', a);
    if a == f {
      var k :| 0 <= k < |g[f]| && g[f][k] == b;
      assert CalleeCovered(s0, n, s, g[f][k]);
    } else {
      var j :| 0 <= j < |s.stack| - |s0.stack| && s.stack[|s0.stack|..][j] == a;
      assert s.stack[|s0.stack| + j] == a;
      assert LowCovers(g, s0, n, s, s.stack[|s0.stack| + j]);
      assert Explored(g, s, active + {f});
    }
  }

  lemma RestClosed(g: Graph, s0: Search, active: set<Id>, f: Id, n: nat, s: Search, n': nat, a: Id, b: Id)
    requires Scanned(g, s0, active, f, n, s, n, n') && a in Rest(s0, s) && Edge(g, a, b)
    ensures b in Rest(s0, s)
  {
    hide AllAnchored, LowReached, Reach, Closed, SegmentCovered, Explored;
    SegmentIsNew(g, s0, active, f, n, s, n, n', a);
    if a in s.stack {
      NoEscapeFromSegment(g, s0, active, f, n, s, n', a, b);
    } else {
      assert Finished(s, a) && Finished(s, b);
      OldStackIsPrefix(g, s0, f, n, s, b);
    }
  }

  lemma ReachStaysInRest(g: Graph, s0: Search, active: set<Id>, f: Id, n: nat, s: Search, n': nat, x: Id, y: Id)
    requires Scanned(g, s0, active, f, n, s, n, n') && x in Rest(s0, s) && Reach(g, x, y)
    ensures y in Rest(s0, s)
  {
    hide Scanned, Reach;
    if y !in Rest(s0, s) {
      var a, b := Crossing(g, Rest(s0, s), x, y);
      RestClosed(g, s0, active, f, n, s, n', a, b);
    }
  }

  lemma ReachStaysFinished(g: Graph, s: Search, active: set<Id>, x: Id, y: Id)
    requires Inv(g, s, active) && Finished(s, x) && Reach(g, x, y)
    ensures Finished(s, y)
  {
    hide AllAnchored, Explored, Reach, StackOk;
    if !Finished(s, y) {
      var finished := set z | z in s.orders && Finished(s, z);
      var a, b := Crossing(g, finished, x, y);
    }
  }

  lemma SegmentReached(g: Graph, s0: Search, active: set<Id>, f: Id, n: nat, s: Search, low: nat, n': nat, z: Id)
    requires Scanned(g, s0, active, f, n, s, low, n') && z in s.stack[|s0.stack|..]
    ensures Reach(g, f, z) && z in Rest(s0, s)
  {
    hide Inv, LowReached, SegmentCovered, Reach, Closed;
    SegmentIsNew(g, s0, active, f, n, s, low, n', z);
  }

  lemma SegmentAnchored(g: Graph, s0: Search, active: set<Id>, f: Id, n: nat, s: Search, low: nat, n': nat, z: Id)
    returns (v: Id)
    requires Scanned(g, s0, active, f, n, s, low, n') && z in s.stack[|s0.stack|..]
    ensures (v == f || v in s0.stack) && Reach(g, z, v)
  {
    hide Grown, FinishedClosed, Explored, LowReached, SegmentCovered, Reach, Closed, StackOk, AllAnchored, NumbersBelow;
    SegmentIsNew(g, s0, active, f, n, s, low, n', z);
    v := AnchorOf(g, s, active + {f}, z);
  }

  lemma AnchorOf(g: Graph, s: Search, active: set<Id>, z: Id) returns (v: Id)
    requires AllAnchored(g, s, active) && z in s.stack
    ensures v in active && Reach(g, z, v)
  {
    assert AnchoredInSome(g, s, z, active);
    v :| v in active && v in s.orders && z in s.orders && Anchored(g, s, z, v);
  }

  lemma SegmentIsMutual(g: Graph, s0: Search, active: set<Id>, f: Id, n: nat, s: Search, n': nat, z: Id)
    requires Scanned(g, s0, active, f, n, s, n, n') && z in s.stack[|s0.stack|..]
    ensures Mutual(g, f, z)
  {
    assert |s0.stack| < |s.stack|;
    hide Scanned, Reach;
    SegmentReached(g, s0, active, f, n, s, n, n', z);
    var v := SegmentAnchored(g, s0, active, f, n, s, n, n', z);
    ReachStaysInRest(g, s0, active, f, n, s, n', z, v);
  }

  lemma MutualIsInSegment(g: Graph, s0: Search, active: set<Id>, f: Id, n: nat, s: Search, n': nat, z: Id)
    requires Scanned(g, s0, active, f, n, s, n, n') && Mutual(g, f, z)
    ensures z in s.stack[|s0.stack|..]
  {
    hide FinishedClosed, Explored, LowReached, SegmentCovered, Reach, Closed, StackOk, AllAnchored;
    SegmentIsNew(g, s0, active, f, n, s, n, n', f);
    assert s.stack[|s0.stack|..][0] == f;
    ReachStaysInRest(g, s0, active, f, n, s, n', f, z);
    SegmentIsNew(g, s0, active, f, n, s, n, n', z);
    if z !in s.stack {
      ReachStaysFinished(g, s, active + {f}, z, f);
    }
  }

  /** The popped segment is exactly the strongly connected component of f. */
  lemma SegmentIsComponent(g: Graph, s0: Search, active: set<Id>, f: Id, n: nat, s: Search, n': nat)
    requires Scanned(g, s0, active, f, n, s, n, n')
    ensures forall z :: z in s.stack[|s0.stack|..] <==> Mutual(g, f, z)
  {
    assert |s0.stack| < |s.stack|;
    hide Scanned, Mutual;
    forall z ensures z in s.stack[|s0.stack|..] <==> Mutual(g, f, z) {
      if z in s.stack[|s0.stack|..] { SegmentIsMutual(g, s0, active, f, n, s, n', z); }
      if Mutual(g, f, z) { MutualIsInSegment(g, s0, active, f, n, s, n', z); }
    }
  }

  lemma ScannedExplored(g: Graph, s0: Search, active: set<Id>, f: Id, n: nat, s: Search, low: nat, n': nat)
    requires Scanned(g, s0, active, f, n, s, low, n')
    ensures forall x :: x in s.orders && x in g && x !in active ==> forall y :: y in g[x] ==> y in s.orders
  {
    hide FinishedClosed, AllAnchored, LowReached, Reach, Closed, StackOk, SegmentCovered, NumbersBelow, Grown;
    forall x, y | x in s.orders && x in g && x !in active && y in g[x] ensures y in s.orders {
      if x == f {
        var k :| 0 <= k < |g[f]| && g[f][k] == y;
        assert CalleeCovered(s0, low, s, g[f][k]);
      }
    }
  }

  lemma AnchorsSurvive(g: Graph, s0: Search, active: set<Id>, f: Id, n: nat, s: Search)
    requires AllAnchored(g, s0, active) && Grown(g, s0, f, n, s)
    ensures forall y :: y in s0.stack ==> AnchoredInSome(g, s, y, active)
  {
    hide Reach;
    forall y | y in s0.stack ensures AnchoredInSome(g, s, y, active) {
      assert AnchoredInSome(g, s0, y, active);
      var v :| v in active && v in s0.orders && y in s0.orders && Anchored(g, s0, y, v);
      assert Anchored(g, s, y, v);
    }
  }

  lemma PopAnchors(g: Graph, s0: Search, active: set<Id>, f: Id, n: nat, s: Search)
    requires AllAnchored(g, s0, active) && Grown(g, s0, f, n, s)
    ensures AllAnchored(g, Search(s.orders, s0.stack), active)
  {
    hide Reach, Grown;
    var t := Search(s.orders, s0.stack);
    AnchorsSurvive(g, s0, active, f, n, s);
    forall y | y in t.stack ensures AnchoredInSome(g, t, y, active) {
      assert AnchoredInSome(g, s, y, active);
      var v :| v in active && v in s.orders && y in s.orders && Anchored(g, s, y, v);
      assert Anchored(g, t, y, v);
    }
  }

  lemma PopFinished(g: Graph, s0: Search, active: set<Id>, f: Id, n: nat, s: Search, n': nat)
    requires Scanned(g, s0, active, f, n, s, n, n')
    ensures FinishedClosed(g, Search(s.orders, s0.stack))
  {
    hide Scanned;
    var t := Search(s.orders, s0.stack);
    forall x, y | Finished(t, x) && x in g && y in g[x] ensures Finished(t, y) {
      RestClosed(g, s0, active, f, n, s, n', x, y);
    }
  }

  lemma PopInv(g: Graph, s0: Search, active: set<Id>, f: Id, n: nat, s: Search, n': nat)
    requires Scanned(g, s0, active, f, n, s, n, n')
    ensures Inv(g, Search(s.orders, s0.stack), active)
  {
    hide Reach, Closed, LowReached, SegmentCovered, StackOk, Grown, NumbersBelow, AllAnchored, FinishedClosed,
        CalleeCovered;
    ScannedExplored(g, s0, active, f, n, s, n, n');
    PopAnchors(g, s0, active, f, n, s);
    PopFinished(g, s0, active, f, n, s, n');
    PopStack(g, s0, active, f, n, s, n');
  }

  lemma PopStack(g: Graph, s0: Search, active: set<Id>, f: Id, n: nat, s: Search, n': nat)
    requires Scanned(g, s0, active, f, n, s, n, n')
    ensures StackOk(Search(s.orders, s0.stack)) && s.orders.Keys <= g.Keys
    ensures forall v :: v in active ==> v in s0.stack
  {
    hide FinishedClosed, AllAnchored, LowReached, Reach, Closed, SegmentCovered, Explored;
  }

  lemma PopVisited(g: Graph, s0: Search, active: set<Id>, f: Id, n: nat, s: Search, n': nat)
    requires Scanned(g, s0, active, f, n, s, n, n')
    ensures Visited(g, s0, active, f, n, Search(s.orders, s0.stack), n, n')
  {
    hide Inv, Reach, Closed, LowReached, SegmentCovered;
    PopInv(g, s0, active, f, n, s, n');
    var t := Search(s.orders, s0.stack);
    assert t.stack[..|s0.stack|] == s0.stack;
    NothingToCover(g, s0, n, t);
  }

  lemma NothingToCover(g: Graph, s0: Search, low: nat, t: Search)
    requires t.stack == s0.stack
    ensures SegmentCovered(g, s0, low, t, |s0.stack|)
  {
  }

  /** With a low link below n, everything anchored in f is anchored in what the low link stands for. */
  lemma StayAnchored(g: Graph, s0: Search, active: set<Id>, f: Id, n: nat, s: Search, low: nat)
    requires AllAnchored(g, s, active + {f}) && AllAnchored(g, s0, active) && Grown(g, s0, f, n, s)
    requires f in s.orders && s.orders[f] == n && low < n && LowReached(g, s0, f, low)
    ensures AllAnchored(g, s, active)
  {
    hide Reach;
    var y0 :| y0 in s0.stack && y0 in s0.orders && s0.orders[y0] == low && Reach(g, f, y0);
    assert AnchoredInSome(g, s0, y0, active);
    var v0 :| v0 in active && v0 in s0.orders && Anchored(g, s0, y0, v0);
    ReachTrans(g, f, y0, v0);
    forall y | y in s.stack ensures AnchoredInSome(g, s, y, active) {
      assert AnchoredInSome(g, s, y, active + {f});
      var v :| v in active + {f} && v in s.orders && y in s.orders && Anchored(g, s, y, v);
      if v !in active {
        ReachTrans(g, y, f, v0);
        assert Anchored(g, s, y, v0);
      }
    }
  }

  lemma StayCovered(g: Graph, s0: Search, f: Id, s: Search, low: nat)
    requires f in g && |s0.stack| < |s.stack| && s.stack[|s0.stack|] == f
    requires forall k :: 0 <= k < |g[f]| ==> CalleeCovered(s0, low, s, g[f][k])
    requires SegmentCovered(g, s0, low, s, |s0.stack| + 1)
    ensures SegmentCovered(g, s0, low, s, |s0.stack|)
  {
    assert LowCovers(g, s0, low, s, f) by {
      forall y | y in g[f] && y in s0.stack ensures y in s.orders && low <= s.orders[y] {
        var k :| 0 <= k < |g[f]| && g[f][k] == y;
        assert CalleeCovered(s0, low, s, g[f][k]);
      }
    }
  }

  lemma StayVisited(g: Graph, s0: Search, active: set<Id>, f: Id, n: nat, s: Search, low: nat, n': nat)
    requires Scanned(g, s0, active, f, n, s, low, n') && low < n
    ensures Visited(g, s0, active, f, n, s, low, n')
  {
    hide Reach, Closed, LowReached, SegmentCovered, StackOk, Grown, NumbersBelow, AllAnchored, FinishedClosed,
        CalleeCovered;
    ScannedExplored(g, s0, active, f, n, s, low, n');
    StayAnchored(g, s0, active, f, n, s, low);
    StayCovered(g, s0, f, s, low);
    ActiveOnOldStack(g, s0, active, f, n, s);
  }

  lemma ActiveOnOldStack(g: Graph, s0: Search, active: set<Id>, f: Id, n: nat, s: Search)
    requires Grown(g, s0, f, n, s) && forall v :: v in active ==> v in s0.stack
    ensures forall v :: v in active ==> v in s.stack
  {
    forall v | v in active ensures v in s.stack { OldStackIsPrefix(g, s0, f, n, s, v); }
  }
}
