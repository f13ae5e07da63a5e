/**
 A cycle of a profile, opened at a function where it is entered: only the calls that lead away from
 the entry are kept, and they carry the own values of the cycle's functions up to the entry.
 */
module OpenedCycles {
  import opened CallGraph
  import opened CallRatios
  import opened RealSums

  datatype Opened = Opened(
    members: set<Id>,
    entry: Id,
    rank: map<Id, nat>,
    // The calls that raise the rank, and the ratio of each as a share of what comes into its callee.
    rising: set<Arc>,
    ratio: map<Arc, real>,
    // What each function brings in: its own value and its calls out of the cycle.
    own: map<Id, real>)

  ghost function InArcs(o: Opened, x: Id): (s: set<Arc>) { set e | e in o.rising && e.1 == x }

  ghost function OutFrom(o: Opened, x: Id): (s: set<Arc>) { set e | e in o.rising && e.0 == x }

  /** Calls lead to higher ranks, and every function but the entry is called. */
  ghost predicate Valid(o: Opened)
  {
    && o.rank.Keys == o.members && o.own.Keys == o.members && o.ratio.Keys == o.rising && o.entry in o.members
    && (forall e :: e in o.rising ==> e.0 in o.members && e.1 in o.members && o.rank[e.0] < o.rank[e.1])
    && (forall x :: x in o.members ==> (InArcs(o, x) == {} <==> x == o.entry))
    && o.rank[o.entry] == 0 && forall e :: e in o.rising ==> o.ratio[e] >= 0.0
  }

  /** What comes into x by the kept calls. */
  ghost function CallRatio(o: Opened, x: Id): (v: real)
    requires Valid(o)
  {
    Total(InArcs(o, x), o.ratio)
  }

  /** The part of x's partial total that each kept call passes to its caller. */
  ghost function Shares(o: Opened): (f: map<Arc, real>)
    requires Valid(o)
    ensures f.Keys == o.rising
  {
    map e | e in o.rising :: Ratio(o.ratio[e], CallRatio(o, e.1))
  }

  ghost function Passed(o: Opened, t: map<Id, real>): (f: map<Arc, real>)
    requires Valid(o)
    ensures f.Keys == o.rising
  {
    map e | e in o.rising :: Times(Shares(o)[e], At(t, e.1))
  }

  /** The partial total of one function. */
  ghost predicate Adds(o: Opened, t: map<Id, real>, x: Id)
    requires Valid(o) && x in o.members
  {
    x in t && t[x] == o.own[x] + Total(OutFrom(o, x), Passed(o, t))
  }

  ghost predicate PartialsOf(o: Opened, t: map<Id, real>)
    requires Valid(o)
  {
    t.Keys == o.members && forall x :: x in o.members ==> Adds(o, t, x)
  }

  // ----- the shares of one function

  ghost function Taken(o: Opened, x: Id): (v: real)
    requires Valid(o)
  {
    Total(InArcs(o, x), Shares(o))
  }

  /** The callers of x take all of its partial total; if nothing comes in, every one of them takes all of it. */
  lemma TakenIs(o: Opened, x: Id)
    requires Valid(o)
    ensures CallRatio(o, x) > 0.0 ==> Taken(o, x) == 1.0
    ensures CallRatio(o, x) == 0.0 ==> Taken(o, x) == |InArcs(o, x)| as real
    ensures CallRatio(o, x) >= 0.0
  {
    var s, whole := InArcs(o, x), CallRatio(o, x);
    TotalPositive(s, o.ratio);
    hide Total, Times;
    if whole > 0.0 {
      forall e | e in s ensures o.ratio[e] == Times(Shares(o)[e], whole) {}
      TotalTimes(s, Shares(o), whole, o.ratio);
      OnlyOne(Taken(o, x), whole);
    } else {
      forall e | e in s ensures Shares(o)[e] == 1.0 {}
      TotalOnes(s, Shares(o));
    }
  }

  // ----- sums by callers and by callees

  ghost function Callers(o: Opened): (m: map<Arc, Id>) { map e | e in o.rising :: e.0 }

  ghost function Called(o: Opened): (m: map<Arc, Id>) { map e | e in o.rising :: e.1 }

  ghost function Out(o: Opened, d: set<Id>): (s: set<Arc>) { set e | e in o.rising && e.0 in d }

  ghost function In(o: Opened, d: set<Id>): (s: set<Arc>) { set e | e in o.rising && e.1 in d }

  ghost function OutPassed(o: Opened, t: map<Id, real>): (f: map<Id, real>)
    requires Valid(o)
    ensures f.Keys == o.members
  {
    map x | x in o.members :: Total(OutFrom(o, x), Passed(o, t))
  }

  ghost function TakenOf(o: Opened, t: map<Id, real>): (f: map<Id, real>)
    requires Valid(o)
    ensures f.Keys == o.members
  {
    map x | x in o.members :: Times(Taken(o, x), At(t, x))
  }

  lemma InPassed(o: Opened, t: map<Id, real>, x: Id)
    requires Valid(o) && x in o.members
    ensures Total(InArcs(o, x), Passed(o, t)) == TakenOf(o, t)[x]
  {
    hide Times, Total;
    TotalTimes(InArcs(o, x), Shares(o), At(t, x), Passed(o, t));
  }

  /** What a set of functions holds: their own, and what they get from their calls. */
  lemma SetHolds(o: Opened, t: map<Id, real>, d: set<Id>)
    requires Valid(o) && PartialsOf(o, t) && d <= o.members
    ensures Total(d, t) == Total(d, o.own) + Total(Out(o, d), Passed(o, t))
    ensures Total(In(o, d), Passed(o, t)) == Total(d, TakenOf(o, t))
  {
    forall x | x in d
      ensures Group(Out(o, d), Callers(o), x) == OutFrom(o, x) && Group(In(o, d), Called(o), x) == InArcs(o, x)
    {
    }
    forall x | x in d ensures t[x] == o.own[x] + OutPassed(o, t)[x] { assert Adds(o, t, x); }
    hide Total, Group, Passed, TakenOf, Valid;
    forall x | x in d ensures Total(InArcs(o, x), Passed(o, t)) == TakenOf(o, t)[x] { InPassed(o, t, x); }
    TotalPlus(d, o.own, OutPassed(o, t), t);
    TotalGrouped(Out(o, d), Callers(o), d, Passed(o, t), OutPassed(o, t));
    TotalGrouped(In(o, d), Called(o), d, Passed(o, t), TakenOf(o, t));
  }

  // ----- what arrives at the entry

  /** Functions with nothing coming in. */
  ghost function Idle(o: Opened): (s: set<Id>)
    requires Valid(o)
  {
    set x | x in o.members && x != o.entry && CallRatio(o, x) == 0.0
  }

  ghost function IdleExcess(o: Opened, t: map<Id, real>): (f: map<Id, real>)
    requires Valid(o)
    ensures f.Keys == Idle(o)
  {
    map x | x in Idle(o) :: Times(|InArcs(o, x)| as real - 1.0, At(t, x))
  }

  ghost function Untaken(o: Opened, t: map<Id, real>): (f: map<Id, real>)
    requires Valid(o)
    ensures f.Keys == o.members
  {
    map x | x in o.members :: At(t, x) - TakenOf(o, t)[x]
  }

  lemma UntakenIs(o: Opened, t: map<Id, real>, x: Id)
    requires Valid(o) && PartialsOf(o, t) && x in o.members
    ensures x == o.entry ==> Untaken(o, t)[x] == t[x]
    ensures x in Idle(o) ==> Untaken(o, t)[x] == -IdleExcess(o, t)[x]
    ensures x != o.entry && x !in Idle(o) ==> Untaken(o, t)[x] == 0.0
  {
    hide Total, Times, CallRatio, Taken, Adds, Valid, InArcs;
    TakenIs(o, x);
    if x == o.entry { NoneTaken(o); }
    TimesCases(Taken(o, x), t[x]);
  }

  lemma UntakenPlus(o: Opened, t: map<Id, real>, x: Id)
    requires Valid(o) && x in o.members && x in t
    ensures t[x] == TakenOf(o, t)[x] + Untaken(o, t)[x]
  {
    hide TakenOf;
  }

  lemma NoneTaken(o: Opened)
    requires Valid(o)
    ensures Taken(o, o.entry) == 0.0
  {
  }

  /**
   The partial total of the entry is all that the cycle brings in, and one more copy of the partial
   total of an idle function for every further caller it has.
   */
  lemma EntryHolds(o: Opened, t: map<Id, real>)
    requires Valid(o) && PartialsOf(o, t)
    ensures t[o.entry] == Total(o.members, o.own) + Total(Idle(o), IdleExcess(o, t))
  {
    hide Total, Untaken, TakenOf, IdleExcess, Passed, Adds, CallRatio, InArcs;
    assert Out(o, o.members) == o.rising == In(o, o.members);
    SetHolds(o, t, o.members);
    hide Valid;
    forall x | x in o.members
      ensures x == o.entry ==> Untaken(o, t)[x] == t[x]
      ensures x in Idle(o) ==> Untaken(o, t)[x] == -IdleExcess(o, t)[x]
      ensures x != o.entry && x !in Idle(o) ==> Untaken(o, t)[x] == 0.0
    {
      UntakenIs(o, t, x);
    }
    forall x | x in o.members ensures t[x] == TakenOf(o, t)[x] + Untaken(o, t)[x] { UntakenPlus(o, t, x); }
    TotalPlus(o.members, TakenOf(o, t), Untaken(o, t), t);
    TotalInParts(o.members, {o.entry}, Idle(o), t, IdleExcess(o, t), Untaken(o, t));
    SingleTotal(o.entry, t);
  }

  // ----- the entry has the largest partial total

  ghost function Higher(o: Opened, x: Id): (s: set<Id>)
    requires Valid(o) && x in o.members
  {
    set z | z in o.members && o.rank[z] > o.rank[x]
  }

  ghost predicate NoneNegative(o: Opened)
    requires Valid(o)
  {
    forall x :: x in o.members ==> o.own[x] >= 0.0
  }

  lemma TimesPositive(a: real, b: real)
    requires a >= 0.0 && b >= 0.0
    ensures Times(a, b) >= 0.0 && (a >= 1.0 ==> Times(a, b) >= b)
  {
  }

  lemma {:induction false} PartialPositive(o: Opened, t: map<Id, real>, x: Id)
    requires Valid(o) && PartialsOf(o, t) && NoneNegative(o) && x in o.members
    ensures t[x] >= 0.0
    decreases Higher(o, x)
  {
    hide Total, Times, CallRatio;
    forall e | e in OutFrom(o, x) ensures Passed(o, t)[e] >= 0.0 {
      assert e.1 in Higher(o, x);
      assert x !in Higher(o, x) && e.1 !in Higher(o, e.1);
      PartialPositive(o, t, e.1);
      TimesPositive(Shares(o)[e], t[e.1]);
    }
    TotalPositive(OutFrom(o, x), Passed(o, t));
    assert Adds(o, t, x);
  }

  lemma PassedPositive(o: Opened, t: map<Id, real>)
    requires Valid(o) && PartialsOf(o, t) && NoneNegative(o)
    ensures (forall x :: x in o.members ==> t[x] >= 0.0) && forall e :: e in o.rising ==> Passed(o, t)[e] >= 0.0
  {
    hide Total, Times, CallRatio, Adds;
    forall x | x in o.members ensures t[x] >= 0.0 { PartialPositive(o, t, x); }
    forall e | e in o.rising ensures Passed(o, t)[e] >= 0.0 { TimesPositive(Shares(o)[e], t[e.1]); }
  }

  lemma TakenAll(o: Opened, t: map<Id, real>, x: Id)
    requires Valid(o) && x in o.members && x in t && t[x] >= 0.0
    ensures TakenOf(o, t)[x] >= 0.0 && (x != o.entry ==> TakenOf(o, t)[x] >= t[x])
  {
    TakenIs(o, x);
    hide Total, Times, CallRatio, Taken;
    if x == o.entry { NoneTaken(o); }
    TimesPositive(Taken(o, x), t[x]);
  }

  lemma {:induction false} TotalAtLeast<T>(s: set<T>, f: map<T, real>, h: map<T, real>)
    requires s <= f.Keys && s <= h.Keys && forall x :: x in s ==> f[x] <= h[x]
    ensures Total(s, f) <= Total(s, h)
    decreases |s|
  {
    if s != {} {
      var x :| x in s;
      TotalPick(s, f, x);
      TotalPick(s, h, x);
      TotalAtLeast(s - {x}, f, h);
    }
  }

  lemma TotalPositivePart<T>(part: set<T>, s: set<T>, f: map<T, real>)
    requires part <= s <= f.Keys && forall x :: x in s ==> f[x] >= 0.0
    ensures Total(part, f) <= Total(s, f)
  {
    TotalPositive(s - part, f);
    TotalUnion(part, s - part, f);
    assert part + (s - part) == s;
  }

  /** The functions ranked below x pass on everything that x gets, and it all arrives at the entry. */
  lemma EntryIsMost(o: Opened, t: map<Id, real>, x: Id)
    requires Valid(o) && PartialsOf(o, t) && NoneNegative(o) && x in o.members
    ensures 0.0 <= t[x] <= t[o.entry]
  {
    PassedPositive(o, t);
    if x != o.entry {
      var d := set z | z in o.members && o.rank[z] < o.rank[x];
      BelowX(o, x, d);
      SetHolds(o, t, d);
      CutHolds(o, t, d);
      hide Total, Passed, PartialsOf, Valid, NoneNegative;
      assert In(o, d) + InArcs(o, x) <= Out(o, d);
      TotalPositivePart(In(o, d) + InArcs(o, x), Out(o, d), Passed(o, t));
      TotalUnion(In(o, d), InArcs(o, x), Passed(o, t));
      InPassed(o, t, x);
      TakenAll(o, t, x);
    }
  }

  lemma BelowX(o: Opened, x: Id, d: set<Id>)
    requires Valid(o) && x in o.members && x != o.entry && d == set z | z in o.members && o.rank[z] < o.rank[x]
    ensures o.entry in d && x !in d && In(o, d) !! InArcs(o, x) && In(o, d) + InArcs(o, x) <= Out(o, d)
  {
    var e :| e in InArcs(o, x);
  }

  lemma CutHolds(o: Opened, t: map<Id, real>, d: set<Id>)
    requires Valid(o) && PartialsOf(o, t) && NoneNegative(o) && o.entry in d && d <= o.members
    requires forall x :: x in o.members ==> t[x] >= 0.0
    ensures Total(d, o.own) >= 0.0 && Total(d, TakenOf(o, t)) >= Total(d, t) - t[o.entry]
  {
    TotalPositive(d, o.own);
    hide Total, TakenOf;
    var rest := d - {o.entry};
    forall z | z in d ensures TakenOf(o, t)[z] >= 0.0 && (z != o.entry ==> TakenOf(o, t)[z] >= t[z]) {
      TakenAll(o, t, z);
    }
    TotalAtLeast(rest, t, TakenOf(o, t));
    TotalPositivePart(rest, d, TakenOf(o, t));
    TotalPick(d, t, o.entry);
  }

  // ----- partial totals are determined

  lemma {:induction false} OnePartial(o: Opened, t: map<Id, real>, u: map<Id, real>, x: Id)
    requires Valid(o) && PartialsOf(o, t) && PartialsOf(o, u) && x in o.members
    ensures t[x] == u[x]
    decreases Higher(o, x)
  {
    hide Total, Times, CallRatio, Shares;
    forall e | e in OutFrom(o, x) ensures Passed(o, t)[e] == Passed(o, u)[e] {
      assert e.1 in Higher(o, x);
      assert x !in Higher(o, x) && e.1 !in Higher(o, e.1);
      OnePartial(o, t, u, e.1);
    }
    TotalSame(OutFrom(o, x), Passed(o, t), Passed(o, u));
    assert Adds(o, t, x) && Adds(o, u, x);
  }
}
