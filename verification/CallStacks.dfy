/** Call stacks as colon-separated names, and the forest that their prefixes form. */
module CallStacks {
  import opened Sums

  type Stack = string

  /** The stack without its last frame: everything before the last colon, or the empty string. */
  function Parent(s: Stack): (p: Stack)
    ensures s != "" ==> |p| < |s|
  {
    if |s| == 0 then ""
    else if s[|s| - 1] == ':' then s[..|s| - 1]
    else Parent(s[..|s| - 1])
  }

  /** Dropping the last frame, whatever stands before it. */
  lemma {:induction false} ParentOfFrame(p: Stack, frame: string)
    requires ':' !in frame
    ensures Parent(p + ":" + frame) == p
    decreases |frame|
  {
    var s := p + ":" + frame;
    if frame == "" {
      assert s[..|s| - 1] == p;
    } else {
      var n := |frame| - 1;
      assert s[|s| - 1] == frame[n];
      assert s[..|s| - 1] == p + ":" + frame[..n];
      ParentOfFrame(p, frame[..n]);
    }
  }

  /** A stack of one frame has no parent. */
  lemma {:induction false} ParentOfOne(s: Stack)
    requires ':' !in s
    ensures Parent(s) == ""
    decreases |s|
  {
    if s != "" { ParentOfOne(s[..|s| - 1]); }
  }

  lemma {:induction false} LastFrame(s: Stack) returns (p: Stack, frame: string)
    requires ':' in s
    ensures s == p + ":" + frame && ':' !in frame && Parent(s) == p
    decreases |s|
  {
    var n := |s| - 1;
    if s[n] == ':' {
      p, frame := s[..n], "";
    } else {
      p, frame := LastFrame(s[..n]);
      frame := frame + [s[n]];
    }
    ParentOfFrame(p, frame);
  }

  function Kids(calls: set<Stack>, s: Stack): (k: set<Stack>)
    ensures k <= calls
  {
    set c | c in calls && Parent(c) == s
  }

  /** t is a, or lies below it in the forest of the given calls. */
  ghost predicate Under(calls: set<Stack>, a: Stack, t: Stack)
    decreases |t|
  {
    t == a || (t != "" && Parent(t) in calls && Under(calls, a, Parent(t)))
  }

  ghost function Subtree(calls: set<Stack>, a: Stack): (ts: set<Stack>)
    ensures ts <= calls
  {
    set t | t in calls && Under(calls, a, t)
  }

  lemma {:induction false} UnderLonger(calls: set<Stack>, a: Stack, t: Stack)
    requires Under(calls, a, t)
    ensures t == a || |a| < |t|
    decreases |t|
  {
    if t != a { UnderLonger(calls, a, Parent(t)); }
  }

  lemma {:induction false} UnderTrans(calls: set<Stack>, a: Stack, b: Stack, t: Stack)
    requires Under(calls, a, b) && Under(calls, b, t)
    ensures Under(calls, a, t)
    decreases |t|
  {
    if t != b { UnderTrans(calls, a, b, Parent(t)); }
  }

  /** What lies below a, other than a itself, lies below exactly one child of a. */
  lemma {:induction false} UnderChild(calls: set<Stack>, a: Stack, t: Stack) returns (c: Stack)
    requires t in calls && Under(calls, a, t) && t != a
    ensures c in Kids(calls, a) && Under(calls, c, t)
    decreases |t|
  {
    if Parent(t) == a {
      c := t;
    } else {
      c := UnderChild(calls, a, Parent(t));
    }
  }

  lemma {:induction false} OneChild(calls: set<Stack>, a: Stack, c: Stack, d: Stack, t: Stack)
    requires c in Kids(calls, a) && d in Kids(calls, a) && c != "" && d != ""
    requires Under(calls, c, t) && Under(calls, d, t)
    ensures c == d
    decreases |t|
  {
    if t == c {
      if t != d {
        UnderLonger(calls, d, Parent(t));
      }
    } else if t == d {
      UnderLonger(calls, c, Parent(t));
    } else {
      OneChild(calls, a, c, d, Parent(t));
    }
  }

  lemma KidUnder(calls: set<Stack>, a: Stack, c: Stack)
    requires a in calls && c in Kids(calls, a) && c != ""
    ensures Under(calls, a, c) && !Under(calls, c, a) && c != a
  {
    if Under(calls, c, a) { UnderLonger(calls, c, a); }
  }

  /** Everything below the children in `some`. */
  ghost function Below(calls: set<Stack>, some: set<Stack>): (ts: set<Stack>)
    ensures ts <= calls
  {
    set c, t | c in some && t in Subtree(calls, c) :: t
  }

  /** No call lies below two of them. */
  ghost predicate Apart(calls: set<Stack>, some: set<Stack>)
  {
    forall c, d, t :: c in some && d in some && Under(calls, c, t) && Under(calls, d, t) ==> c == d
  }

  lemma KidsApart(calls: set<Stack>, a: Stack)
    requires "" !in calls
    ensures Apart(calls, Kids(calls, a))
  {
    forall c, d, t | c in Kids(calls, a) && d in Kids(calls, a) && Under(calls, c, t)
        && Under(calls, d, t) ensures c == d {
      OneChild(calls, a, c, d, t);
    }
  }

  lemma {:induction false} OneRoot(calls: set<Stack>, c: Stack, d: Stack, t: Stack)
    requires Parent(c) !in calls && Parent(d) !in calls && Under(calls, c, t) && Under(calls, d, t)
    ensures c == d
    decreases |t|
  {
    if t != c && t != d { OneRoot(calls, c, d, Parent(t)); }
  }

  lemma {:induction false} RootOf(calls: set<Stack>, t: Stack) returns (r: Stack)
    requires "" !in calls && t in calls
    ensures r in calls && Parent(r) !in calls && Under(calls, r, t)
    decreases |t|
  {
    if Parent(t) in calls {
      r := RootOf(calls, Parent(t));
    } else {
      r := t;
    }
  }

  lemma BelowSplit(calls: set<Stack>, some: set<Stack>, c: Stack)
    requires Apart(calls, some) && c in some
    ensures Below(calls, some) == Subtree(calls, c) + Below(calls, some - {c})
    ensures Subtree(calls, c) !! Below(calls, some - {c})
  {
    hide Under;
  }

  lemma {:induction false} SumBelow(calls: set<Stack>, some: set<Stack>, f: map<Stack, int>, g: map<Stack, int>)
    requires calls <= f.Keys && Apart(calls, some) && some <= g.Keys
    requires forall c :: c in some ==> g[c] == Sum(Subtree(calls, c), f)
    ensures Sum(Below(calls, some), f) == Sum(some, g)
    decreases |some|
  {
    hide Under;
    if some == {} {
      assert Below(calls, some) == {};
    } else {
      var c :| c in some;
      var rest := some - {c};
      SumBelow(calls, rest, f, g);
      SumPick(some, g, c);
      BelowSplit(calls, some, c);
      SumUnion(Subtree(calls, c), Below(calls, rest), f);
    }
  }

  lemma SubtreeSplit(calls: set<Stack>, a: Stack)
    requires "" !in calls && a in calls
    ensures Subtree(calls, a) - {a} == Below(calls, Kids(calls, a))
  {
    hide Under, Kids;
    forall t | t in Subtree(calls, a) && t != a ensures t in Below(calls, Kids(calls, a)) {
      var c := UnderChild(calls, a, t);
      assert t in Subtree(calls, c);
    }
    forall t | t in Below(calls, Kids(calls, a)) ensures t in Subtree(calls, a) && t != a {
      var c :| c in Kids(calls, a) && t in Subtree(calls, c);
      KidInCalls(calls, a, c);
      KidUnder(calls, a, c);
      UnderTrans(calls, a, c, t);
    }
  }

  lemma KidInCalls(calls: set<Stack>, a: Stack, c: Stack)
    requires c in Kids(calls, a)
    ensures c in calls && Parent(c) == a
  {
  }

  /** A sum over all calls is the sum over the roots of the sums over their subtrees. */
  lemma ForestSum(calls: set<Stack>, roots: set<Stack>, f: map<Stack, int>, g: map<Stack, int>)
    requires "" !in calls && calls <= f.Keys && roots <= g.Keys
    requires forall r :: r in roots <==> r in calls && Parent(r) !in calls
    requires forall r :: r in roots ==> g[r] == Sum(Subtree(calls, r), f)
    ensures Sum(calls, f) == Sum(roots, g)
  {
    forall c, d, t | c in roots && d in roots && Under(calls, c, t) && Under(calls, d, t) ensures c == d {
      OneRoot(calls, c, d, t);
    }
    forall t | t in calls ensures t in Below(calls, roots) {
      var r := RootOf(calls, t);
      assert t in Subtree(calls, r);
    }
    assert Below(calls, roots) == calls;
    SumBelow(calls, roots, f, g);
  }

  // ----- calls that are folded into their parents

  /** t lies below s, and every call strictly between them is a stub. */
  ghost predicate Chain(calls: set<Stack>, stubs: set<Stack>, s: Stack, t: Stack)
    decreases |t|
  {
    t != "" && (Parent(t) == s || (Parent(t) in calls && Parent(t) in stubs && Chain(calls, stubs, s, Parent(t))))
  }

  /** The calls shown below s when stubs are folded away. */
  ghost function Visible(calls: set<Stack>, stubs: set<Stack>, s: Stack): (v: set<Stack>)
    ensures v <= calls
  {
    set t | t in calls && t !in stubs && Chain(calls, stubs, s, t)
  }

  /** The stubs that are folded into s. */
  ghost function Swallowed(calls: set<Stack>, stubs: set<Stack>, s: Stack): (v: set<Stack>)
    ensures v <= calls
  {
    set t | t in calls && t in stubs && Chain(calls, stubs, s, t)
  }

  lemma {:induction false} ChainUnder(calls: set<Stack>, stubs: set<Stack>, s: Stack, t: Stack)
    requires s in calls && "" !in calls && Chain(calls, stubs, s, t)
    ensures Under(calls, s, t) && t != s
    decreases |t|
  {
    if Parent(t) != s {
      ChainUnder(calls, stubs, s, Parent(t));
      UnderLonger(calls, s, Parent(t));
    }
  }

  /** Within the subtree of a child c of s, what is chained to s is c, or chained to c if c is a stub. */
  lemma {:induction false} ChainVia(calls: set<Stack>, stubs: set<Stack>, s: Stack, c: Stack, t: Stack)
    requires s in calls && "" !in calls && c in Kids(calls, s) && t in calls && Under(calls, c, t)
    ensures Chain(calls, stubs, s, t) <==> t == c || (c in stubs && Chain(calls, stubs, c, t))
    decreases |t|
  {
    if t != c {
      UnderLonger(calls, c, Parent(t));
      ChainVia(calls, stubs, s, c, Parent(t));
    } else {
      if Chain(calls, stubs, c, t) { ChainUnder(calls, stubs, c, t); }
    }
  }

  lemma {:induction false} Linear(calls: set<Stack>, v: Stack, w: Stack, t: Stack)
    requires Under(calls, v, t) && Under(calls, w, t)
    ensures Under(calls, v, w) || Under(calls, w, v)
    decreases |t|
  {
    if t != v && t != w { Linear(calls, v, w, Parent(t)); }
  }

  /** On the way from a chained call up to s there are only stubs. */
  lemma {:induction false} OnlyStubsBetween(calls: set<Stack>, stubs: set<Stack>, s: Stack, v: Stack, t: Stack)
    requires s in calls && "" !in calls
    requires Chain(calls, stubs, s, t) && Chain(calls, stubs, s, v) && Under(calls, v, t) && v != t
    ensures v in stubs
    decreases |t|
  {
    ChainUnder(calls, stubs, s, v);
    UnderLonger(calls, s, v);
    UnderLonger(calls, v, Parent(t));
    if Parent(t) != v {
      OnlyStubsBetween(calls, stubs, s, v, Parent(t));
    }
  }

  /** Everything below s is swallowed by s, or lies below a call that is shown below s. */
  lemma {:induction false} SwallowedOrShown(calls: set<Stack>, stubs: set<Stack>, s: Stack, t: Stack)
    requires s in calls && "" !in calls && t in calls && Under(calls, s, t) && t != s
    ensures t in Swallowed(calls, stubs, s) || t in Below(calls, Visible(calls, stubs, s))
    decreases |t|
  {
    if Parent(t) == s || Parent(t) in Swallowed(calls, stubs, s) {
      assert Chain(calls, stubs, s, t);
      if t !in stubs {
        assert t in Visible(calls, stubs, s) && t in Subtree(calls, t);
      }
    } else {
      if Parent(t) != s { SwallowedOrShown(calls, stubs, s, Parent(t)); }
      var v :| v in Visible(calls, stubs, s) && Parent(t) in Subtree(calls, v);
      assert t in Subtree(calls, v);
    }
  }

  lemma VisibleApart(calls: set<Stack>, stubs: set<Stack>, s: Stack)
    requires s in calls && "" !in calls
    ensures Apart(calls, Visible(calls, stubs, s))
    ensures Swallowed(calls, stubs, s) !! Below(calls, Visible(calls, stubs, s))
  {
    hide Under, Chain;
    var shown := Visible(calls, stubs, s);
    forall v, w, t | v in shown && w in shown && Under(calls, v, t) && Under(calls, w, t) ensures v == w {
      Linear(calls, v, w, t);
      if v != w {
        if Under(calls, v, w) {
          OnlyStubsBetween(calls, stubs, s, v, w);
        } else {
          OnlyStubsBetween(calls, stubs, s, w, v);
        }
      }
    }
    forall t | t in Swallowed(calls, stubs, s) ensures t !in Below(calls, shown) {
      if t in Below(calls, shown) {
        var v :| v in shown && t in Subtree(calls, v);
        OnlyStubsBetween(calls, stubs, s, v, t);
      }
    }
  }

  lemma ShownBelow(calls: set<Stack>, stubs: set<Stack>, s: Stack)
    requires s in calls && "" !in calls
    ensures Subtree(calls, s) - {s} == Swallowed(calls, stubs, s) + Below(calls, Visible(calls, stubs, s))
  {
    hide Under, Chain;
    forall t | t in Subtree(calls, s) && t != s
      ensures t in Swallowed(calls, stubs, s) + Below(calls, Visible(calls, stubs, s))
    {
      SwallowedOrShown(calls, stubs, s, t);
    }
    forall t | t in Swallowed(calls, stubs, s) ensures t in Subtree(calls, s) && t != s {
      ChainUnder(calls, stubs, s, t);
    }
    forall t | t in Below(calls, Visible(calls, stubs, s)) ensures t in Subtree(calls, s) && t != s {
      var v :| v in Visible(calls, stubs, s) && t in Subtree(calls, v);
      ChainUnder(calls, stubs, s, v);
      UnderLonger(calls, s, v);
      UnderLonger(calls, v, t);
      UnderTrans(calls, s, v, t);
    }
  }

  /**
   Folding loses nothing: a sum over a subtree is the value at its root, plus the values of the
   stubs swallowed by it, plus the sums over the subtrees of the calls shown below it.
   */
  lemma FoldedSum(calls: set<Stack>, stubs: set<Stack>, s: Stack, f: map<Stack, int>, g: map<Stack, int>)
    requires s in calls && "" !in calls && calls <= f.Keys && Visible(calls, stubs, s) <= g.Keys
    requires forall v :: v in Visible(calls, stubs, s) ==> g[v] == Sum(Subtree(calls, v), f)
    ensures Sum(Subtree(calls, s), f)
            == f[s] + Sum(Swallowed(calls, stubs, s), f) + Sum(Visible(calls, stubs, s), g)
  {
    hide Chain;
    var eaten, shown := Swallowed(calls, stubs, s), Visible(calls, stubs, s);
    ShownBelow(calls, stubs, s);
    VisibleApart(calls, stubs, s);
    SumBelow(calls, shown, f, g);
    assert s in Subtree(calls, s);
    SumPick(Subtree(calls, s), f, s);
    SumUnion(eaten, Below(calls, shown), f);
  }

  // ----- the same, child by child

  ghost function FrontOf(calls: set<Stack>, stubs: set<Stack>, c: Stack): (v: set<Stack>)
  {
    if c in stubs then Visible(calls, stubs, c) else {c}
  }

  ghost function EatenOf(calls: set<Stack>, stubs: set<Stack>, c: Stack): (v: set<Stack>)
  {
    if c in stubs then {c} + Swallowed(calls, stubs, c) else {}
  }

  /** What s shows, and what it swallows, of the subtrees of its children in `some`. */
  ghost function Front(calls: set<Stack>, stubs: set<Stack>, s: Stack, some: set<Stack>): (v: set<Stack>)
    ensures v <= calls
  {
    Visible(calls, stubs, s) * Below(calls, some)
  }

  ghost function Eaten(calls: set<Stack>, stubs: set<Stack>, s: Stack, some: set<Stack>): (v: set<Stack>)
    ensures v <= calls
  {
    Swallowed(calls, stubs, s) * Below(calls, some)
  }

  lemma ChildPart(calls: set<Stack>, stubs: set<Stack>, s: Stack, c: Stack)
    requires s in calls && "" !in calls && c in Kids(calls, s)
    ensures Visible(calls, stubs, s) * Subtree(calls, c) == FrontOf(calls, stubs, c)
    ensures Swallowed(calls, stubs, s) * Subtree(calls, c) == EatenOf(calls, stubs, c)
  {
    assert Under(calls, c, c);
    hide Under, Chain;
    forall t | t in Subtree(calls, c)
      ensures Chain(calls, stubs, s, t) <==> t == c || (c in stubs && Chain(calls, stubs, c, t))
    {
      ChainVia(calls, stubs, s, c, t);
    }
    forall t | Chain(calls, stubs, c, t) && t in calls ensures t in Subtree(calls, c) {
      ChainUnder(calls, stubs, c, t);
    }
  }

  lemma NextChild(calls: set<Stack>, stubs: set<Stack>, s: Stack, some: set<Stack>, c: Stack)
    requires s in calls && "" !in calls && c in Kids(calls, s) && some <= Kids(calls, s) && c !in some
    ensures Below(calls, some + {c}) == Below(calls, some) + Subtree(calls, c)
    ensures Below(calls, some) !! Subtree(calls, c)
    ensures Front(calls, stubs, s, some + {c}) == Front(calls, stubs, s, some) + FrontOf(calls, stubs, c)
    ensures Eaten(calls, stubs, s, some + {c}) == Eaten(calls, stubs, s, some) + EatenOf(calls, stubs, c)
    ensures EatenOf(calls, stubs, c) !! Eaten(calls, stubs, s, some)
    ensures c !in Below(calls, some) && c in Subtree(calls, c)
  {
    assert Under(calls, c, c);
    hide Under, Chain, Visible, Swallowed, FrontOf, EatenOf;
    KidsApart(calls, s);
    assert Below(calls, some + {c}) == Below(calls, some) + Subtree(calls, c);
    ChildPart(calls, stubs, s, c);
  }

  lemma NoChildYet(calls: set<Stack>, stubs: set<Stack>, s: Stack)
    ensures Below(calls, {}) == {} && Front(calls, stubs, s, {}) == {} && Eaten(calls, stubs, s, {}) == {}
  {
  }

  lemma AllChildren(calls: set<Stack>, stubs: set<Stack>, s: Stack)
    requires s in calls && "" !in calls
    ensures Front(calls, stubs, s, Kids(calls, s)) == Visible(calls, stubs, s)
    ensures Eaten(calls, stubs, s, Kids(calls, s)) == Swallowed(calls, stubs, s)
  {
    hide Under, Chain;
    SubtreeSplit(calls, s);
    forall t | t in calls && Chain(calls, stubs, s, t) ensures t in Below(calls, Kids(calls, s)) {
      ChainUnder(calls, stubs, s, t);
    }
  }

  // ----- the forest in terms of the text of the stacks

  /** Every stack that t passes through from a on, cut at a colon, is a call. */
  ghost predicate CutsAreCalls(calls: set<Stack>, a: Stack, t: Stack)
  {
    forall i :: |a| <= i < |t| && t[i] == ':' ==> t[..i] in calls
  }

  /** What lies below a call: the stacks that continue its text, if no frame between them is missing. */
  lemma {:induction false} UnderIffPrefix(calls: set<Stack>, a: Stack, t: Stack)
    requires a != ""
    ensures Under(calls, a, t) <==> t == a || (a + ":" <= t && CutsAreCalls(calls, a, t))
    decreases |t|
  {
    if t != a {
      if ':' in t {
        var p, frame := LastFrame(t);
        UnderIffPrefix(calls, a, p);
        PrefixOfParent(calls, a, p, frame);
      } else {
        ParentOfOne(t);
        PrefixHasColon(a, t);
      }
    }
  }

  lemma PrefixHasColon(a: Stack, t: Stack)
    ensures a + ":" <= t ==> ':' in t
  {
    if a + ":" <= t { assert t[|a|] == ':'; }
  }

  lemma PrefixOfParent(calls: set<Stack>, a: Stack, p: Stack, frame: string)
    requires a != "" && ':' !in frame && a != p + ":" + frame
    ensures var t := p + ":" + frame;
      a + ":" <= t && CutsAreCalls(calls, a, t)
      <==> p in calls && (p == a || (a + ":" <= p && CutsAreCalls(calls, a, p)))
  {
    var t := p + ":" + frame;
    assert t[|p|] == ':' && t[..|p|] == p;
    forall i | |p| < i < |t| ensures t[i] != ':' { assert t[i] == frame[i - |p| - 1]; }
    forall i | 0 <= i < |p| ensures t[i] == p[i] && t[..i] == p[..i] {}
    if a + ":" <= t {
      assert t[|a|] == ':';
      assert |a| < |p| ==> a + ":" == t[..|a| + 1] == p[..|a| + 1];
      assert |a| == |p| ==> a == p;
    }
  }

  /** With every call, the stack without its last frames is a call too, unless that is empty. */
  ghost predicate Whole(calls: set<Stack>)
  {
    forall t, i :: t in calls && 0 < i < |t| && t[i] == ':' ==> t[..i] in calls
  }

  lemma SubtreeIffPrefix(calls: set<Stack>, a: Stack, t: Stack)
    requires a != "" && Whole(calls)
    ensures t in Subtree(calls, a) <==> t in calls && (t == a || a + ":" <= t)
  {
    UnderIffPrefix(calls, a, t);
  }
}
