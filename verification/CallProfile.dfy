/** The profile object: it loads the lines of a routine trace and totals them over the call forest. */
module CallProfile {
  import opened Lists
  import opened Sums
  import opened CallStacks
  import opened ProfileTotals

  function At(children: map<Stack, set<Stack>>, s: Stack): (kids: set<Stack>)
  {
    if s in children then children[s] else {}
  }

  function Got(d: Data, k: Metric): (n: int) { if k in d then d[k] else 0 }

  ghost function Stacks(lines: seq<Line>): (r: set<Stack>) { set l | l in lines :: l.stack }

  /** A call takes its name from the first line that mentions it. */
  ghost function NameOf(lines: seq<Line>, s: Stack): (name: string)
    requires s in Stacks(lines)
    decreases |lines|
  {
    var n := |lines| - 1;
    if s in Stacks(lines[..n]) then NameOf(lines[..n], s) else lines[n].name
  }

  lemma StacksNext(lines: seq<Line>, line: Line)
    ensures Stacks(lines + [line]) == Stacks(lines) + {line.stack} && (lines + [line])[..|lines|] == lines
    ensures forall s :: s in Stacks(lines) ==> NameOf(lines + [line], s) == NameOf(lines, s)
    ensures line.stack !in Stacks(lines) ==> NameOf(lines + [line], line.stack) == line.name
  {
    var next := lines + [line];
    assert next[..|lines|] == lines && next[|lines|] == line;
    assert forall l :: l in next <==> l in lines || l == line;
    forall s | s in Stacks(lines) ensures s in Stacks(next) {
      var l :| l in lines && l.stack == s;
      assert l in next;
    }
    assert line in next;
  }

  ghost predicate LineOk(headers: set<Metric>, line: Line) { line.stack != "" && line.data.Keys == headers }

  /** What has been read: per call the sum of its lines, and per parent the calls one frame deeper. */
  ghost predicate Loaded(headers: set<Metric>, lines: seq<Line>, calls: map<Stack, Call>,
                         children: map<Stack, set<Stack>>)
  {
    && Even(headers, calls) && calls.Keys == Stacks(lines)
    && (forall s :: At(children, s) == Kids(calls.Keys, s))
    && (forall s :: s in calls ==> calls[s].name == NameOf(lines, s))
    && (forall s, k :: s in calls && k in headers ==> calls[s].data[k] == LineSum(lines, {s}, k))
  }

  lemma LineSumNext(lines: seq<Line>, line: Line, s: Stack, k: Metric)
    requires k in line.data
    ensures LineSum(lines + [line], {s}, k) == LineSum(lines, {s}, k) + if s == line.stack then line.data[k] else 0
  {
    assert (lines + [line])[..|lines|] == lines;
  }

  lemma FirstLine(lines: seq<Line>, line: Line, k: Metric)
    requires k in line.data && line.stack !in Stacks(lines)
    ensures LineSum(lines + [line], {line.stack}, k) == line.data[k]
  {
    LineSumNext(lines, line, line.stack, k);
    Unmentioned(lines, line.stack, k);
  }

  lemma LoadedAgain(headers: set<Metric>, lines: seq<Line>, calls: map<Stack, Call>, children: map<Stack, set<Stack>>,
                    line: Line)
    requires Loaded(headers, lines, calls, children) && LineOk(headers, line) && line.stack in calls
    ensures var c := calls[line.stack];
            Loaded(headers, lines + [line], calls[line.stack := c.(data := Plus(c.data, line.data))], children)
  {
    hide NameOf, LineSum, Stacks;
    StacksNext(lines, line);
    forall s, k | s in calls && k in headers
      ensures LineSum(lines + [line], {s}, k) == LineSum(lines, {s}, k) + if s == line.stack then line.data[k] else 0
    {
      LineSumNext(lines, line, s, k);
    }
    var c := calls[line.stack];
    var calls' := calls[line.stack := c.(data := Plus(c.data, line.data))];
    assert calls'.Keys == calls.Keys;
  }

  lemma LoadedNew(headers: set<Metric>, lines: seq<Line>, calls: map<Stack, Call>, children: map<Stack, set<Stack>>,
                  line: Line)
    requires Loaded(headers, lines, calls, children) && LineOk(headers, line) && line.stack !in calls
    ensures Loaded(headers, lines + [line], calls[line.stack := Call(line.name, line.data, map[], false)],
                   children[Parent(line.stack) := At(children, Parent(line.stack)) + {line.stack}])
  {
    hide NameOf, LineSum, Stacks;
    StacksNext(lines, line);
    forall s, k | s in calls && k in headers ensures LineSum(lines + [line], {s}, k) == LineSum(lines, {s}, k) {
      LineSumNext(lines, line, s, k);
    }
    forall k | k in headers ensures LineSum(lines + [line], {line.stack}, k) == line.data[k] {
      FirstLine(lines, line, k);
    }
    var calls' := calls[line.stack := Call(line.name, line.data, map[], false)];
    var children' := children[Parent(line.stack) := At(children, Parent(line.stack)) + {line.stack}];
    forall s ensures At(children', s) == Kids(calls'.Keys, s) {
      assert At(children, s) == Kids(calls.Keys, s);
    }
  }

  /** One metric of every call, straight from the lines. */
  ghost function PerCall(lines: seq<Line>, k: Metric): (f: map<Stack, int>)
    ensures f.Keys == Stacks(lines)
  {
    map s | s in Stacks(lines) :: LineSum(lines, {s}, k)
  }

  lemma {:induction false} PerCallSum(lines: seq<Line>, some: set<Stack>, k: Metric)
    requires some <= Stacks(lines)
    ensures Sum(some, PerCall(lines, k)) == LineSum(lines, some, k)
    decreases |some|
  {
    hide LineSum;
    if some == {} {
      NoLines(lines, k);
    } else {
      var s :| s in some;
      SumPick(some, PerCall(lines, k), s);
      LineSumPick(lines, some, s, k);
      PerCallSum(lines, some - {s}, k);
    }
  }

  /** Over any of the calls, what was loaded adds up to what the lines say. */
  lemma OwnIsLineSum(headers: set<Metric>, lines: seq<Line>, base: map<Stack, Call>,
                     children: map<Stack, set<Stack>>, some: set<Stack>, k: Metric)
    requires Loaded(headers, lines, base, children) && some <= base.Keys && k in headers
    ensures Own(base, some, k) == LineSum(lines, some, k)
  {
    hide LineSum, NameOf, Stacks;
    assert Column(base, k) == PerCall(lines, k);
    PerCallSum(lines, some, k);
  }

  // ----- the pass

  /** The pass has treated the calls in `done` and has not touched the others. */
  ghost predicate Passing(headers: set<Metric>, base: map<Stack, Call>, done: set<Stack>,
                          calls: map<Stack, Call>, children: map<Stack, set<Stack>>, totals: Data)
  {
    && Even(headers, base) && calls.Keys == base.Keys && done <= base.Keys
    && (forall s :: s in done ==> Built(headers, base, s, calls[s], At(children, s)))
    && (forall s :: s in base.Keys - done ==> calls[s] == base[s] && At(children, s) == Kids(base.Keys, s))
    && (forall k :: k in headers ==> Got(totals, k) == Own(base, done, k))
  }

  lemma NotYet(headers: set<Metric>, base: map<Stack, Call>, done: set<Stack>, calls: map<Stack, Call>,
               children: map<Stack, set<Stack>>, totals: Data, s: Stack)
    requires Passing(headers, base, done, calls, children, totals) && s in base.Keys - done
    ensures Even(headers, base) && s in calls && calls[s] == base[s] && At(children, s) == Kids(base.Keys, s)
  {
  }

  lemma Already(headers: set<Metric>, base: map<Stack, Call>, done: set<Stack>, calls: map<Stack, Call>,
                children: map<Stack, set<Stack>>, totals: Data, s: Stack)
    requires Passing(headers, base, done, calls, children, totals) && s in done
    ensures Even(headers, base) && s in calls && s in base && Built(headers, base, s, calls[s], At(children, s))
  {
  }

  lemma NonePassed(headers: set<Metric>, base: map<Stack, Call>, children: map<Stack, set<Stack>>)
    requires Even(headers, base) && forall s :: At(children, s) == Kids(base.Keys, s)
    ensures Passing(headers, base, {}, base, children, map[])
  {
  }

  lemma PassedOne(headers: set<Metric>, base: map<Stack, Call>, done: set<Stack>, calls: map<Stack, Call>,
                  children: map<Stack, set<Stack>>, totals: Data, s: Stack, call: Call, kids: set<Stack>, totals': Data)
    requires Passing(headers, base, done, calls, children, totals) && s in base.Keys - done
    requires Built(headers, base, s, call, kids)
    requires forall k :: k in headers ==> Got(totals', k) == Got(totals, k) + base[s].data[k]
    ensures Passing(headers, base, done + {s}, calls[s := call], children[s := kids], totals')
  {
    hide Built, Kids, Own;
    forall k | k in headers ensures Own(base, done + {s}, k) == Own(base, done, k) + base[s].data[k] {
      OwnNext(headers, base, done, s, k);
    }
  }

  lemma OwnNext(headers: set<Metric>, base: map<Stack, Call>, done: set<Stack>, s: Stack, k: Metric)
    requires Even(headers, base) && done <= base.Keys && s in base.Keys - done && k in headers
    ensures Own(base, done + {s}, k) == Own(base, done, k) + base[s].data[k]
  {
    SumPick(done + {s}, Column(base, k), s);
    assert done + {s} - {s} == done;
  }

  // ----- what the finished profile says

  ghost function Stubbed(lines: seq<Line>): (r: set<Stack>)
  {
    set s | s in Stacks(lines) && NameOf(lines, s) == ".plt"
  }

  /** The lines whose values the profile shows as a call's own: its own lines, and those of the stubs folded into it. */
  ghost function Self(lines: seq<Line>, s: Stack, k: Metric): (r: set<Stack>)
  {
    if k == "calls" then {s} else {s} + Swallowed(Stacks(lines), Stubbed(lines), s)
  }

  ghost predicate ShapeRight(headers: set<Metric>, lines: seq<Line>, calls: map<Stack, Call>,
                             children: map<Stack, set<Stack>>)
  {
    && calls.Keys == Stacks(lines)
    && (forall s :: s in calls ==> calls[s].name == NameOf(lines, s) && (calls[s].folded <==> s in Stubbed(lines)))
    && (forall s :: s in calls ==> calls[s].total.Keys == headers && calls[s].data.Keys == headers)
    && (forall s :: s in calls ==> At(children, s) == Visible(Stacks(lines), Stubbed(lines), s))
  }

  /** A call's total counts every line at or below it, its data its own lines and those of the stubs folded into it. */
  ghost predicate CallRight(lines: seq<Line>, s: Stack, call: Call, k: Metric)
    requires k in call.total && k in call.data
  {
    && call.total[k] == LineSum(lines, Subtree(Stacks(lines), s), k)
    && call.data[k] == LineSum(lines, Self(lines, s, k), k)
  }

  /** The finished profile of a trace, in terms of its lines alone. */
  ghost predicate Finished(headers: set<Metric>, lines: seq<Line>, calls: map<Stack, Call>,
                           children: map<Stack, set<Stack>>, totals: Data)
  {
    && ShapeRight(headers, lines, calls, children)
    && (forall s, k :: s in calls && k in headers ==>
          k in calls[s].total && k in calls[s].data && CallRight(lines, s, calls[s], k))
    && (forall k :: k in headers ==> Got(totals, k) == LineSum(lines, Stacks(lines), k))
  }

  lemma ShapeFinished(headers: set<Metric>, lines: seq<Line>, base: map<Stack, Call>, children0: map<Stack, set<Stack>>,
                      calls: map<Stack, Call>, children: map<Stack, set<Stack>>, totals: Data)
    requires Loaded(headers, lines, base, children0) && Passing(headers, base, base.Keys, calls, children, totals)
    ensures ShapeRight(headers, lines, calls, children) && Stubs(base) == Stubbed(lines)
  {
    hide LineSum, Visible, Swallowed, Subtree, NameOf, Stacks, At, Got, Own, Folded;
    assert Stubs(base) == Stubbed(lines);
    forall s | s in calls ensures Built(headers, base, s, calls[s], At(children, s)) {}
  }

  lemma CallFinished(headers: set<Metric>, lines: seq<Line>, base: map<Stack, Call>, children0: map<Stack, set<Stack>>,
                     s: Stack, call: Call, kids: set<Stack>, k: Metric)
    requires Loaded(headers, lines, base, children0) && s in base && Built(headers, base, s, call, kids) && k in headers
    ensures CallRight(lines, s, call, k)
  {
    hide LineSum, Visible, Swallowed, Subtree, NameOf, Stacks, Own, Folded, Self;
    OwnIsLineSum(headers, lines, base, children0, Subtree(base.Keys, s), k);
    SelfIsLineSum(headers, lines, base, children0, s, k);
  }

  lemma PassFinished(headers: set<Metric>, lines: seq<Line>, base: map<Stack, Call>, children0: map<Stack, set<Stack>>,
                     calls: map<Stack, Call>, children: map<Stack, set<Stack>>, totals: Data)
    requires Loaded(headers, lines, base, children0) && Passing(headers, base, base.Keys, calls, children, totals)
    ensures Finished(headers, lines, calls, children, totals)
  {
    hide LineSum, NameOf, Stacks, At, Got, Own, Built, CallRight, ShapeRight;
    forall k | k in headers ensures Got(totals, k) == LineSum(lines, Stacks(lines), k) {
      OwnIsLineSum(headers, lines, base, children0, base.Keys, k);
    }
    ShapeFinished(headers, lines, base, children0, calls, children, totals);
    forall s, k | s in calls && k in headers
      ensures k in calls[s].total && k in calls[s].data && CallRight(lines, s, calls[s], k)
    {
      ShapeKeys(headers, lines, calls, children, s);
      CallFinished(headers, lines, base, children0, s, calls[s], At(children, s), k);
    }
  }

  lemma ShapeKeys(headers: set<Metric>, lines: seq<Line>, calls: map<Stack, Call>, children: map<Stack, set<Stack>>,
                  s: Stack)
    requires ShapeRight(headers, lines, calls, children) && s in calls
    ensures calls[s].total.Keys == headers && calls[s].data.Keys == headers
  {
  }

  lemma SelfIsLineSum(headers: set<Metric>, lines: seq<Line>, base: map<Stack, Call>, children0: map<Stack, set<Stack>>,
                      s: Stack, k: Metric)
    requires Loaded(headers, lines, base, children0) && s in base && k in headers
    ensures base[s].data[k] + Folded(base, Swallowed(base.Keys, Stubs(base), s), k)
            == LineSum(lines, Self(lines, s, k), k)
  {
    hide LineSum, NameOf, Stacks, Chain;
    assert Stubs(base) == Stubbed(lines);
    var eaten := Swallowed(base.Keys, Stubs(base), s);
    if s in eaten { ChainUnder(base.Keys, Stubs(base), s, s); }
    if k != CALLS {
      OwnIsLineSum(headers, lines, base, children0, eaten, k);
      LineSumPick(lines, {s} + eaten, s, k);
      assert {s} + eaten - {s} == eaten;
    }
  }

  ghost function Unclaimed(all: set<Stack>, parents: seq<Stack>, i: nat): (r: set<Stack>)
    requires i <= |parents|
  {
    set s | s in all && forall j :: 0 <= j < i ==> parents[j] != Parent(s)
  }

  lemma ClaimNext(all: set<Stack>, parents: seq<Stack>, i: nat)
    requires i < |parents| && Distinct(parents)
    ensures Kids(all, parents[i]) <= Unclaimed(all, parents, i)
    ensures Unclaimed(all, parents, i + 1) == Unclaimed(all, parents, i) - Kids(all, parents[i])
  {
  }

  class Profile {
    const headers: set<Metric>
    var calls: map<Stack, Call>
    var children: map<Stack, set<Stack>>
    var roots: set<Stack>
    var totals: Data

    /** Reads a whole trace. */
    constructor (headers: set<Metric>, lines: seq<Line>)
      requires forall l :: l in lines ==> LineOk(headers, l)
      ensures this.headers == headers && Finished(headers, lines, calls, children, totals)
      ensures roots == Roots(calls.Keys)
    {
      this.headers := headers;
      calls, children, roots, totals := map[], map[], {}, map[];
      new;
      for i := 0 to |lines|
        invariant Loaded(headers, lines[..i], calls, children) && totals == map[]
      {
        AddLine(lines[i], lines[..i]);
        assert lines[..i + 1] == lines[..i] + [lines[i]];
      }
      assert lines[..|lines|] == lines;
      FindRoots();
      BuildTotals(lines);
    }

    /** One line: a new call under its parent, or more data for a known call. */
    method AddLine(line: Line, ghost lines: seq<Line>)
      requires Loaded(headers, lines, calls, children) && LineOk(headers, line)
      modifies this`calls, this`children
      ensures Loaded(headers, lines + [line], calls, children)
    {
      if line.stack in calls {
        LoadedAgain(headers, lines, calls, children, line);
        var c := calls[line.stack];
        calls := calls[line.stack := c.(data := Plus(c.data, line.data))];
      } else {
        LoadedNew(headers, lines, calls, children, line);
        var parent := Parent(line.stack);
        calls := calls[line.stack := Call(line.name, line.data, map[], false)];
        children := children[parent := At(children, parent) + {line.stack}];
      }
    }

    /** Every call that is no child of a call; each child is still there when it is removed. */
    method FindRoots()
      requires forall s :: At(children, s) == Kids(calls.Keys, s)
      modifies this`roots
      ensures roots == Roots(calls.Keys)
    {
      var parents := Listed(calls.Keys);
      roots := calls.Keys;
      for i := 0 to |parents|
        invariant roots == Unclaimed(calls.Keys, parents, i)
      {
        var kids := At(children, parents[i]);
        ClaimNext(calls.Keys, parents, i);
        assert kids <= roots;
        roots := roots - kids;
      }
    }

    /** The worklist: pop a call, put it in front, push its children. */
    method VisitOrder() returns (order: seq<Stack>)
      requires "" !in calls && roots == Roots(calls.Keys) && forall s :: At(children, s) == Kids(calls.Keys, s)
      ensures ChildrenFirst(calls.Keys, order)
    {
      var all := calls.Keys;
      order := [];
      var todo := Listed(roots);
      assert [] + todo == todo;
      while todo != []
        invariant Visiting(all, order, todo)
        decreases |all| - |order|
      {
        var s := todo[|todo| - 1];
        var kids := Listed(At(children, s));
        VisitOne(all, order, todo, kids);
        order, todo := [s] + order, todo[..|todo| - 1] + kids;
        NotTooMany(all, order, todo);
      }
      forall s | s in all ensures s in order { AllVisited(all, order, s); }
      assert order + [] == order;
    }

    /** Every call once, its children before it. */
    method BuildTotals(ghost lines: seq<Line>)
      requires Loaded(headers, lines, calls, children) && roots == Roots(calls.Keys) && totals == map[]
      modifies this`calls, this`children, this`totals
      ensures Finished(headers, lines, calls, children, totals)
    {
      hide Passing, Finished, Kids, NameOf, LineSum, Stacks, ChildrenFirst;
      ghost var base, children0 := calls, children;
      var order := VisitOrder();
      NonePassed(headers, base, children);
      ghost var done := {};
      for i := 0 to |order|
        invariant Passing(headers, base, done, calls, children, totals)
        invariant done == Firsts(order, i)
      {
        KidsDone(base.Keys, order, i);
        BuildTotal(order[i], base, done);
        done := done + {order[i]};
      }
      AllDone(base.Keys, order);
      PassFinished(headers, lines, base, children0, calls, children, totals);
    }

    /** One call, once its children have been treated. */
    method BuildTotal(s: Stack, ghost base: map<Stack, Call>, ghost done: set<Stack>)
      requires Passing(headers, base, done, calls, children, totals)
      requires s in base.Keys - done && Kids(base.Keys, s) <= done
      modifies this`calls, this`children, this`totals
      ensures Passing(headers, base, done + {s}, calls, children, totals)
    {
      hide Passing, Adding, Built, Kids;
      NotYet(headers, base, done, calls, children, totals, s);
      var call := calls[s];
      var totals' := map k | k in totals.Keys + call.data.Keys :: Got(totals, k) + Got(call.data, k);
      var total, data, kids := AddChildren(s, base, done);
      DoneAdding(headers, base, s, total, data, kids);
      call := Call(call.name, data, total, call.name == STUB);
      PassedOne(headers, base, done, calls, children, totals, s, call, kids, totals');
      calls, children, totals := calls[s := call], children[s := kids], totals';
    }

    /** The loop over a copy of the children: totals add up, folded children are replaced by their own children. */
    method AddChildren(s: Stack, ghost base: map<Stack, Call>, ghost done: set<Stack>)
      returns (total: Data, data: Data, kids: set<Stack>)
      requires Passing(headers, base, done, calls, children, totals)
      requires s in base.Keys - done && Kids(base.Keys, s) <= done
      ensures Even(headers, base) && Adding(headers, base, s, Kids(base.Keys, s), total, data, kids)
    {
      hide Passing, Adding, Built, Kids;
      NotYet(headers, base, done, calls, children, totals, s);
      total, data, kids := calls[s].data, calls[s].data, At(children, s);
      var copy := Listed(kids);
      StartAdding(headers, base, s);
      ghost var some := {};
      for i := 0 to |copy|
        invariant Adding(headers, base, s, some, total, data, kids)
        invariant some == Firsts(copy, i)
      {
        var c := copy[i];
        Already(headers, base, done, calls, children, totals, c);
        FirstsNext(copy, i);
        AddChild(headers, base, s, some, total, data, kids, c, calls[c], At(children, c));
        total := Plus(total, calls[c].total);
        if calls[c].folded {
          data := PlusFolded(data, calls[c].data);
          kids := kids - {c} + At(children, c);
        }
        some := some + {c};
      }
      assert some == Kids(base.Keys, s);
    }
  }

  lemma KidsDone(all: set<Stack>, order: seq<Stack>, i: nat)
    requires ChildrenFirst(all, order) && i < |order|
    ensures order[i] in all && Kids(all, order[i]) <= Firsts(order, i)
    ensures order[i] !in Firsts(order, i) && Firsts(order, i + 1) == Firsts(order, i) + {order[i]}
  {
    FirstsNext(order, i);
    forall c | c in Kids(all, order[i]) ensures c in Firsts(order, i) {
      assert c in order;
      var j :| 0 <= j < |order| && order[j] == c;
    }
  }

  lemma AllDone(all: set<Stack>, order: seq<Stack>)
    requires ChildrenFirst(all, order)
    ensures Firsts(order, |order|) == all
  {
  }

  // ----- conservation

  ghost function TotalColumn(calls: map<Stack, Call>, k: Metric): (f: map<Stack, int>)
    ensures f.Keys == calls.Keys
  {
    map s | s in calls :: Got(calls[s].total, k)
  }

  lemma TotalsBySubtree(headers: set<Metric>, lines: seq<Line>, calls: map<Stack, Call>,
                        children: map<Stack, set<Stack>>, totals: Data, s: Stack, k: Metric)
    requires Finished(headers, lines, calls, children, totals) && s in calls && k in headers
    ensures TotalColumn(calls, k)[s] == Sum(Subtree(Stacks(lines), s), PerCall(lines, k))
    ensures calls[s].total.Keys == headers && calls[s].data.Keys == headers
    ensures calls[s].data[k] == LineSum(lines, Self(lines, s, k), k)
  {
    hide LineSum, NameOf, Stacks, Subtree, At, Self;
    ShapeKeys(headers, lines, calls, children, s);
    assert CallRight(lines, s, calls[s], k);
    PerCallSum(lines, Subtree(Stacks(lines), s), k);
  }

  lemma SelfSplit(lines: seq<Line>, s: Stack, k: Metric)
    requires "" !in Stacks(lines) && s in Stacks(lines)
    ensures LineSum(lines, Self(lines, s, k), k)
            == PerCall(lines, k)[s]
               + if k == CALLS then 0 else Sum(Swallowed(Stacks(lines), Stubbed(lines), s), PerCall(lines, k))
  {
    hide LineSum, NameOf, Stacks, Chain;
    var eaten := Swallowed(Stacks(lines), Stubbed(lines), s);
    if s in eaten { ChainUnder(Stacks(lines), Stubbed(lines), s, s); }
    LineSumPick(lines, {s} + eaten, s, k);
    assert {s} + eaten - {s} == eaten;
    PerCallSum(lines, eaten, k);
  }

  /**
   What a call shows: its total is its own data plus the totals of the children shown under it.
   Only the number of calls falls short, by exactly the calls of the stubs that were folded away.
   */
  lemma TotalIsDataPlusChildren(headers: set<Metric>, lines: seq<Line>, calls: map<Stack, Call>,
                                children: map<Stack, set<Stack>>, totals: Data, s: Stack, k: Metric)
    requires Finished(headers, lines, calls, children, totals) && "" !in Stacks(lines) && s in calls && k in headers
    ensures calls[s].total.Keys == headers && calls[s].data.Keys == headers && At(children, s) <= calls.Keys
    ensures calls[s].total[k]
            == calls[s].data[k] + Sum(At(children, s), TotalColumn(calls, k))
               + if k == CALLS then LineSum(lines, Swallowed(Stacks(lines), Stubbed(lines), s), k) else 0
  {
    var all, stubs := Stacks(lines), Stubbed(lines);
    assert At(children, s) == Visible(all, stubs, s);
    hide LineSum, NameOf, Stacks, Subtree, At, Self, Visible, Swallowed, Finished;
    assert all == calls.Keys by { CallsAreStacks(headers, lines, calls, children, totals); }
    TotalsBySubtree(headers, lines, calls, children, totals, s, k);
    forall v | v in Visible(all, stubs, s) ensures TotalColumn(calls, k)[v] == Sum(Subtree(all, v), PerCall(lines, k)) {
      TotalsBySubtree(headers, lines, calls, children, totals, v, k);
    }
    FoldedSum(all, stubs, s, PerCall(lines, k), TotalColumn(calls, k));
    SelfSplit(lines, s, k);
    PerCallSum(lines, Swallowed(all, stubs, s), k);
  }

  lemma CallsAreStacks(headers: set<Metric>, lines: seq<Line>, calls: map<Stack, Call>,
                       children: map<Stack, set<Stack>>, totals: Data)
    requires Finished(headers, lines, calls, children, totals)
    ensures calls.Keys == Stacks(lines)
  {
  }

  /** Nothing is lost or counted twice over the forest: the grand total is the sum of the roots' totals. */
  lemma RootsHoldTotals(headers: set<Metric>, lines: seq<Line>, calls: map<Stack, Call>,
                        children: map<Stack, set<Stack>>, totals: Data, k: Metric)
    requires Finished(headers, lines, calls, children, totals) && "" !in Stacks(lines) && k in headers
    ensures Got(totals, k) == Sum(Roots(calls.Keys), TotalColumn(calls, k))
  {
    hide LineSum, NameOf, Stacks, Subtree, At, Self;
    var all := Stacks(lines);
    forall r | r in Roots(all) ensures TotalColumn(calls, k)[r] == Sum(Subtree(all, r), PerCall(lines, k)) {
      TotalsBySubtree(headers, lines, calls, children, totals, r, k);
    }
    ForestSum(all, Roots(all), PerCall(lines, k), TotalColumn(calls, k));
    PerCallSum(lines, all, k);
  }

  // ----- totals in terms of the text of the trace

  /** The line's stack is a, or continues it without a gap. */
  ghost predicate Within(lines: seq<Line>, a: Stack, t: Stack)
  {
    t == a || (a + ":" <= t && CutsAreCalls(Stacks(lines), a, t))
  }

  /** The sum of one metric over the first n lines at or below a. */
  ghost function SumWithin(lines: seq<Line>, a: Stack, k: Metric, n: nat): (v: int)
    requires n <= |lines| && forall l :: l in lines ==> k in l.data
  {
    if n == 0 then 0
    else SumWithin(lines, a, k, n - 1) + if Within(lines, a, lines[n - 1].stack) then lines[n - 1].data[k] else 0
  }

  lemma {:induction false} SumWithinIs(lines: seq<Line>, a: Stack, k: Metric, n: nat)
    requires a != "" && n <= |lines| && forall l :: l in lines ==> k in l.data
    ensures LineSum(lines[..n], Subtree(Stacks(lines), a), k) == SumWithin(lines, a, k, n)
    decreases n
  {
    hide CutsAreCalls, Under;
    if n > 0 {
      SumWithinIs(lines, a, k, n - 1);
      assert lines[..n][..n - 1] == lines[..n - 1];
      var l := lines[n - 1];
      assert l in lines && l.stack in Stacks(lines);
      UnderIffPrefix(Stacks(lines), a, l.stack);
    }
  }

  /** The total of a call is the sum over the lines whose stack is its own or continues it. */
  lemma TotalIsSumWithin(headers: set<Metric>, lines: seq<Line>, calls: map<Stack, Call>,
                         children: map<Stack, set<Stack>>, totals: Data, a: Stack, k: Metric)
    requires Finished(headers, lines, calls, children, totals) && (forall l :: l in lines ==> k in l.data)
    requires a in calls && a != "" && k in headers
    ensures k in calls[a].total && calls[a].total[k] == SumWithin(lines, a, k, |lines|)
  {
    hide LineSum, Subtree, Within, Self, ShapeRight;
    assert CallRight(lines, a, calls[a], k);
    SumWithinIs(lines, a, k, |lines|);
    assert lines[..|lines|] == lines;
  }

  /** In a trace that leaves no caller out, that is every line whose text starts with the call's. */
  lemma WithinIffPrefix(lines: seq<Line>, a: Stack, l: Line)
    requires Whole(Stacks(lines)) && a != "" && l in lines
    ensures Within(lines, a, l.stack) <==> l.stack == a || a + ":" <= l.stack
  {
    assert l.stack in Stacks(lines);
  }
}
