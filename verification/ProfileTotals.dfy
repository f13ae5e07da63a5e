/**
 Totals of a call-stack profile: the order in which calls are visited, and the bottom-up pass that
 adds up children and folds away the calls that are only linkage stubs.
 */
module ProfileTotals {
  import opened Lists
  import opened Sums
  import opened CallStacks

  type Metric = string
  type Data = map<Metric, int>

  const CALLS: Metric := "calls"
  const STUB: string := ".plt"

  function Plus(a: Data, b: Data): (c: Data)
    ensures c.Keys == a.Keys
  {
    map k | k in a :: if k in b then a[k] + b[k] else a[k]
  }

  /** What a folded child adds to its parent: everything but the number of calls. */
  function PlusFolded(a: Data, b: Data): (c: Data)
    ensures c.Keys == a.Keys
  {
    map k | k in a :: if k in b && k != CALLS then a[k] + b[k] else a[k]
  }

  /** One metric of the calls. */
  ghost function Column(t: map<Stack, Call>, k: Metric): (f: map<Stack, int>)
    ensures f.Keys == t.Keys
  {
    map s | s in t :: if k in t[s].data then t[s].data[k] else 0
  }

  // ----- the order of visits

  /** Every call exactly once, and each call before its parent. */
  ghost predicate ChildrenFirst(calls: set<Stack>, order: seq<Stack>)
  {
    && Distinct(order) && (forall s :: s in order <==> s in calls)
    && forall i, j :: 0 <= i < |order| && 0 <= j < |order| && order[j] == Parent(order[i]) ==> i < j
  }

  function Roots(calls: set<Stack>): (r: set<Stack>) { set s | s in calls && Parent(s) !in calls }

  /**
   What the visits keep: `done` is in order, `todo` is pending, and between them they hold all
   children of what is done.
   */
  ghost predicate Visiting(calls: set<Stack>, done: seq<Stack>, todo: seq<Stack>)
  {
    && Distinct(done + todo) && (forall s :: s in done + todo ==> s in calls)
    && (forall s :: s in Roots(calls) ==> s in done + todo)
    && (forall s :: s in done ==> forall c :: c in Kids(calls, s) ==> c in done + todo)
    && (forall s :: s in done + todo && Parent(s) in calls ==> Parent(s) in done)
    && (forall i, j :: 0 <= i < |done| && 0 <= j < |done| && done[j] == Parent(done[i]) ==> i < j)
  }

  lemma VisitOne(calls: set<Stack>, done: seq<Stack>, todo: seq<Stack>, kids: seq<Stack>)
    requires "" !in calls && Visiting(calls, done, todo) && |todo| > 0
    requires Distinct(kids) && forall c :: c in kids <==> c in Kids(calls, todo[|todo| - 1])
    ensures Visiting(calls, [todo[|todo| - 1]] + done, todo[..|todo| - 1] + kids)
  {
    var s, rest := todo[|todo| - 1], todo[..|todo| - 1];
    var done', todo' := [s] + done, rest + kids;
    assert todo == rest + [s];
    assert forall x :: x in todo <==> x in rest || x == s;
    assert forall x :: x in done' + todo' <==> x in done + todo || x in kids;
    NewOnes(calls, done, todo, kids);
    DistinctMove(done, rest, s, kids);
  }

  /** The children of the call being visited have not been seen before. */
  lemma NewOnes(calls: set<Stack>, done: seq<Stack>, todo: seq<Stack>, kids: seq<Stack>)
    requires "" !in calls && Visiting(calls, done, todo) && |todo| > 0
    requires forall c :: c in kids <==> c in Kids(calls, todo[|todo| - 1])
    ensures todo[|todo| - 1] !in done && forall c :: c in kids ==> c !in done + todo
  {
    var s := todo[|todo| - 1];
    var all := done + todo;
    assert all[|all| - 1] == s && forall i :: 0 <= i < |done| ==> all[i] == done[i];
  }

  lemma DistinctMove(done: seq<Stack>, rest: seq<Stack>, s: Stack, kids: seq<Stack>)
    requires Distinct(done + (rest + [s])) && Distinct(kids) && forall c :: c in kids ==> c !in done + (rest + [s])
    ensures Distinct([s] + done + (rest + kids))
  {
    var all, moved := done + (rest + [s]), [s] + done + (rest + kids);
    var n := |done| + |rest|;
    forall i, j | 0 <= i < j < |moved| ensures moved[i] != moved[j] {
      assert i > n ==> moved[i] == kids[i - n - 1];
      assert 0 < i <= n ==> moved[i] == all[i - 1];
      assert j > n ==> moved[j] == kids[j - n - 1];
      assert j <= n ==> moved[j] == all[j - 1];
      assert all[n] == s;
      assert i <= n ==> moved[i] in all;
    }
  }

  lemma {:induction false} AllVisited(calls: set<Stack>, done: seq<Stack>, s: Stack)
    requires "" !in calls && Visiting(calls, done, []) && s in calls
    ensures s in done
    decreases |s|
  {
    assert done + [] == done;
    if Parent(s) in calls {
      AllVisited(calls, done, Parent(s));
      assert s in Kids(calls, Parent(s));
    } else {
      assert s in Roots(calls);
    }
  }

  lemma {:induction false} DistinctCount(s: seq<Stack>, all: set<Stack>)
    requires Distinct(s) && forall x :: x in s ==> x in all
    ensures |s| <= |all|
    decreases |s|
  {
    if |s| > 0 {
      var n := |s| - 1;
      assert s[n] in s && forall i :: 0 <= i < n ==> s[i] in s;
      DistinctCount(s[..n], all - {s[n]});
    }
  }

  lemma NotTooMany(calls: set<Stack>, done: seq<Stack>, todo: seq<Stack>)
    requires Visiting(calls, done, todo)
    ensures |done| <= |calls|
  {
    DistinctCount(done + todo, calls);
  }

  // ----- the lines of a trace

  datatype Line = Line(stack: Stack, name: string, data: Data)

  /** What the lines say about the given calls, for one metric. */
  ghost function LineSum(lines: seq<Line>, some: set<Stack>, k: Metric): (n: int)
    decreases |lines|
  {
    if lines == [] then 0 else
    var last := lines[|lines| - 1];
    LineSum(lines[..|lines| - 1], some, k) + if last.stack in some && k in last.data then last.data[k] else 0
  }

  lemma {:induction false} LineSumPick(lines: seq<Line>, some: set<Stack>, s: Stack, k: Metric)
    requires s in some
    ensures LineSum(lines, some, k) == LineSum(lines, {s}, k) + LineSum(lines, some - {s}, k)
    decreases |lines|
  {
    if lines != [] { LineSumPick(lines[..|lines| - 1], some, s, k); }
  }

  lemma {:induction false} NoLines(lines: seq<Line>, k: Metric)
    ensures LineSum(lines, {}, k) == 0
    decreases |lines|
  {
    if lines != [] { NoLines(lines[..|lines| - 1], k); }
  }

  lemma {:induction false} Unmentioned(lines: seq<Line>, s: Stack, k: Metric)
    requires forall l :: l in lines ==> l.stack != s
    ensures LineSum(lines, {s}, k) == 0
    decreases |lines|
  {
    if lines != [] {
      assert lines[|lines| - 1] in lines;
      Unmentioned(lines[..|lines| - 1], s, k);
    }
  }

  // ----- the pass over the calls

  /** One call of the profile: its own data, and what the pass leaves with it. */
  datatype Call = Call(name: string, data: Data, total: Data, folded: bool)

  ghost function Stubs(base: map<Stack, Call>): (r: set<Stack>) { set s | s in base && base[s].name == STUB }

  /** One metric, over some of the calls as they were loaded. */
  ghost function Own(base: map<Stack, Call>, some: set<Stack>, k: Metric): (n: int)
    requires some <= base.Keys
  {
    Sum(some, Column(base, k))
  }

  ghost predicate Even(headers: set<Metric>, base: map<Stack, Call>)
  {
    "" !in base && forall s :: s in base ==> base[s].data.Keys == headers
  }

  /** The sum over the swallowed stubs, which leaves out the number of calls. */
  ghost function Folded(base: map<Stack, Call>, some: set<Stack>, k: Metric): (n: int)
    requires some <= base.Keys
  {
    if k == CALLS then 0 else Own(base, some, k)
  }

  /** What the pass leaves with s: whole-subtree totals, the swallowed stubs' data, and the children shown. */
  ghost predicate Built(headers: set<Metric>, base: map<Stack, Call>, s: Stack, call: Call, kids: set<Stack>)
    requires Even(headers, base) && s in base
  {
    && call.name == base[s].name && call.total.Keys == headers && call.data.Keys == headers
    && (call.folded <==> s in Stubs(base))
    && kids == Visible(base.Keys, Stubs(base), s)
    && (forall k :: k in headers ==> call.total[k] == Own(base, Subtree(base.Keys, s), k))
    && (forall k :: k in headers ==>
          call.data[k] == base[s].data[k] + Folded(base, Swallowed(base.Keys, Stubs(base), s), k))
  }

  /** Halfway through the children of s, with those in `some` added: totals, data and children. */
  ghost predicate TotalSoFar(headers: set<Metric>, base: map<Stack, Call>, s: Stack, some: set<Stack>, total: Data)
    requires Even(headers, base) && s in base
  {
    && total.Keys == headers
    && (forall k :: k in headers ==> total[k] == base[s].data[k] + Own(base, Below(base.Keys, some), k))
  }

  ghost predicate DataSoFar(headers: set<Metric>, base: map<Stack, Call>, s: Stack, some: set<Stack>, data: Data)
    requires Even(headers, base) && s in base
  {
    && data.Keys == headers
    && (forall k :: k in headers ==>
          data[k] == base[s].data[k] + Folded(base, Eaten(base.Keys, Stubs(base), s, some), k))
  }

  ghost function KidsSoFar(base: map<Stack, Call>, s: Stack, some: set<Stack>): (kids: set<Stack>)
  {
    Kids(base.Keys, s) - some + Front(base.Keys, Stubs(base), s, some)
  }

  ghost predicate Adding(headers: set<Metric>, base: map<Stack, Call>, s: Stack, some: set<Stack>,
                         total: Data, data: Data, kids: set<Stack>)
    requires Even(headers, base) && s in base
  {
    && TotalSoFar(headers, base, s, some, total) && DataSoFar(headers, base, s, some, data)
    && kids == KidsSoFar(base, s, some)
  }

  lemma StartAdding(headers: set<Metric>, base: map<Stack, Call>, s: Stack)
    requires Even(headers, base) && s in base
    ensures Adding(headers, base, s, {}, base[s].data, base[s].data, Kids(base.Keys, s))
  {
    hide Under, Chain, Visible, Swallowed;
    NoChildYet(base.Keys, Stubs(base), s);
  }

  lemma AddTotal(headers: set<Metric>, base: map<Stack, Call>, s: Stack, some: set<Stack>, total: Data, c: Stack,
                 call: Call)
    requires Even(headers, base) && s in base && some <= Kids(base.Keys, s) && c in Kids(base.Keys, s) - some
    requires TotalSoFar(headers, base, s, some, total)
    requires call.total.Keys == headers
    requires forall k :: k in headers ==> call.total[k] == Own(base, Subtree(base.Keys, c), k)
    ensures TotalSoFar(headers, base, s, some + {c}, Plus(total, call.total))
  {
    hide Under, Kids, Subtree, Below, Own;
    forall k | k in headers
      ensures Own(base, Below(base.Keys, some + {c}), k) == Own(base, Below(base.Keys, some), k)
              + Own(base, Subtree(base.Keys, c), k)
    {
      BelowNext(headers, base, s, some, c, k);
    }
  }

  lemma BelowNext(headers: set<Metric>, base: map<Stack, Call>, s: Stack, some: set<Stack>, c: Stack, k: Metric)
    requires Even(headers, base) && s in base && some <= Kids(base.Keys, s) && c in Kids(base.Keys, s) - some
    ensures Own(base, Below(base.Keys, some + {c}), k) == Own(base, Below(base.Keys, some), k)
            + Own(base, Subtree(base.Keys, c), k)
  {
    hide Under, Kids, Subtree, Below;
    NextChild(base.Keys, Stubs(base), s, some, c);
    SumUnion(Below(base.Keys, some), Subtree(base.Keys, c), Column(base, k));
  }

  /** What a child adds to the data of its parent: nothing, unless it is folded. */
  ghost function Added(base: map<Stack, Call>, c: Stack, k: Metric): (n: int)
    requires c in base && k in base[c].data
  {
    if c in Stubs(base) && k != CALLS
    then base[c].data[k] + Own(base, Swallowed(base.Keys, Stubs(base), c), k)
    else 0
  }

  lemma FoldedChild(headers: set<Metric>, base: map<Stack, Call>, c: Stack, k: Metric)
    requires Even(headers, base) && c in base && k in headers
    ensures Folded(base, EatenOf(base.Keys, Stubs(base), c), k) == Added(base, c, k)
  {
    hide Chain;
    var eaten := Swallowed(base.Keys, Stubs(base), c);
    if c in eaten { ChainUnder(base.Keys, Stubs(base), c, c); }
    SumPick({c} + eaten, Column(base, k), c);
    assert {c} + eaten - {c} == eaten;
  }

  lemma AddData(headers: set<Metric>, base: map<Stack, Call>, s: Stack, some: set<Stack>, data: Data, c: Stack,
                k: Metric)
    requires Even(headers, base) && s in base && some <= Kids(base.Keys, s) && c in Kids(base.Keys, s) - some
    requires DataSoFar(headers, base, s, some, data) && k in headers
    ensures data[k] + Added(base, c, k)
            == base[s].data[k] + Folded(base, Eaten(base.Keys, Stubs(base), s, some + {c}), k)
  {
    hide Under, Chain, FrontOf, EatenOf, Front, Below;
    NextChild(base.Keys, Stubs(base), s, some, c);
    FoldedChild(headers, base, c, k);
    SumUnion(Eaten(base.Keys, Stubs(base), s, some), EatenOf(base.Keys, Stubs(base), c), Column(base, k));
  }

  /** One child: its total is added, and if it is folded, so are its data and its children. */
  lemma AddChild(headers: set<Metric>, base: map<Stack, Call>, s: Stack, some: set<Stack>,
                 total: Data, data: Data, kids: set<Stack>, c: Stack, call: Call, grandkids: set<Stack>)
    requires Even(headers, base) && s in base && some <= Kids(base.Keys, s) && c in Kids(base.Keys, s) - some
    requires Adding(headers, base, s, some, total, data, kids) && Built(headers, base, c, call, grandkids)
    ensures c in kids
    ensures call.folded ==> Adding(headers, base, s, some + {c}, Plus(total, call.total), PlusFolded(data, call.data),
            kids - {c} + grandkids)
    ensures !call.folded ==> Adding(headers, base, s, some + {c}, Plus(total, call.total), data, kids)
  {
    hide Visible, Swallowed, Subtree, Own, Kids, Eaten, TotalSoFar, Plus;
    AddTotal(headers, base, s, some, total, c, call);
    forall k | k in headers
      ensures data[k] + Added(base, c, k)
              == base[s].data[k] + Folded(base, Eaten(base.Keys, Stubs(base), s, some + {c}), k)
    {
      AddData(headers, base, s, some, data, c, k);
    }
    KidsNext(base, s, some, c);
  }

  lemma KidsNext(base: map<Stack, Call>, s: Stack, some: set<Stack>, c: Stack)
    requires s in base && "" !in base && some <= Kids(base.Keys, s) && c in Kids(base.Keys, s) - some
    ensures c in KidsSoFar(base, s, some)
    ensures c !in Stubs(base) ==> KidsSoFar(base, s, some + {c}) == KidsSoFar(base, s, some)
    ensures c in Stubs(base) ==>
      KidsSoFar(base, s, some + {c}) == KidsSoFar(base, s, some) - {c} + Visible(base.Keys, Stubs(base), c)
  {
    hide Under, Chain, Visible, Swallowed, Kids, Below, Subtree;
    NextChild(base.Keys, Stubs(base), s, some, c);
    if c in Stubs(base) { NotShownBySelf(base.Keys, Stubs(base), c); }
  }

  lemma NotShownBySelf(all: set<Stack>, stubs: set<Stack>, c: Stack)
    requires "" !in all && c in stubs
    ensures c !in Visible(all, stubs, c)
  {
  }

  lemma DoneAdding(headers: set<Metric>, base: map<Stack, Call>, s: Stack, total: Data, data: Data, kids: set<Stack>)
    requires Even(headers, base) && s in base && Adding(headers, base, s, Kids(base.Keys, s), total, data, kids)
    ensures Built(headers, base, s, Call(base[s].name, data, total, base[s].name == STUB), kids)
  {
    hide Chain, Visible, Swallowed, Kids, Below;
    AllChildren(base.Keys, Stubs(base), s);
    SubtreeSplit(base.Keys, s);
    assert s in Subtree(base.Keys, s);
    hide Subtree;
    forall k | k in headers ensures total[k] == Own(base, Subtree(base.Keys, s), k) {
      SumPick(Subtree(base.Keys, s), Column(base, k), s);
    }
  }
}
