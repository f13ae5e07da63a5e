/**
 The locality scheduler on values: how each event changes the assignment of threads to cores, and
 what every run of events keeps.
 */
module SchedulerModel {
  import opened Lists
  import opened Options

  type Id = nat
  type Core = nat

  /** What a thread's score metric reads at the time of an event. */
  type Metric = Id -> int

  datatype Thread = Thread(core: Option<Core>, runnable: bool, unscheduled: bool, score: int, metricLast: int)

  datatype State = State(threads: map<Id, Thread>, lastCore: nat)

  const NEW_THREAD := Thread(None, false, false, 0, 0)

  // ----- the operations of a thread

  function UpdateScore(t: Thread, now: int): (t': Thread)
  {
    t.(score := t.score + now - t.metricLast, metricLast := now)
  }

  function SetScore(t: Thread, score: int, now: int): (t': Thread) { t.(score := score, metricLast := now) }

  function SetCore(t: Thread, core: Option<Core>, now: int): (t': Thread)
  {
    if core.None? then UpdateScore(t, now).(core := None) else t.(core := core)
  }

  // ----- events

  datatype Event =
    | Start(id: Id)
    | Stall(id: Id, unscheduled: bool)
    | Resume(id: Id)
    | Periodic

  function UsedCores(s: State): (u: set<Core>)
  {
    set id | id in s.threads && s.threads[id].core.Some? :: s.threads[id].core.value
  }

  function CoreSet(cores: seq<Core>): (cs: set<Core>) { set c | c in cores }

  function FreeCores(cores: seq<Core>, s: State): (f: set<Core>) { CoreSet(cores) - UsedCores(s) }

  function Runnable(s: State): (r: set<Id>) { set id | id in s.threads && s.threads[id].runnable }

  /** Runnable threads without a core. */
  function Waiting(s: State): (w: set<Id>)
  {
    set id | id in s.threads && s.threads[id].runnable && s.threads[id].core.None?
  }

  /** A new thread takes the next core of the list that was never handed out, and none when all were. */
  function Started(cores: seq<Core>, s: State, id: Id, m: Metric): (s': State)
  {
    var t := NEW_THREAD.(runnable := true);
    if s.lastCore < |cores| then
      State(s.threads[id := SetCore(t, Some(cores[s.lastCore]), m(id))], s.lastCore + 1)
    else State(s.threads[id := SetCore(t, None, m(id))], s.lastCore)
  }

  function Parked(s: State, id: Id, m: Metric): (s': State)
    requires id in s.threads
  {
    s.(threads := s.threads[id := SetCore(s.threads[id], None, m(id)).(runnable := false)])
  }

  /** The stalled thread's core goes to a waiting thread of least score. */
  ghost predicate Stalled(s: State, id: Id, m: Metric, s': State)
  {
    id in s.threads && HandedOver(Parked(s, id, m), s.threads[id].core, m, s')
  }

  ghost predicate HandedOver(s: State, core: Option<Core>, m: Metric, s': State)
  {
    if Waiting(s) == {} then s' == s
    else exists p :: p in Waiting(s) && (forall q :: q in Waiting(s) ==> s.threads[p].score <= s.threads[q].score)
                     && s' == s.(threads := s.threads[p := SetCore(s.threads[p], core, m(p))])
  }

  function Woken(s: State, id: Id, score: int, m: Metric): (s': State)
    requires id in s.threads
  {
    s.(threads := s.threads[id := SetScore(s.threads[id], score, m(id)).(runnable := true)])
  }

  ghost predicate IsMinScore(s: State, score: int)
  {
    (exists id :: id in s.threads && s.threads[id].score == score)
    && forall id :: id in s.threads ==> score <= s.threads[id].score
  }

  /** A woken thread takes some free core, if there is one; which one depends on set iteration order. */
  ghost predicate Resumed(cores: seq<Core>, s: State, id: Id, m: Metric, s': State)
  {
    id in s.threads && exists score :: IsMinScore(s, score) && TookFreeCore(cores, Woken(s, id, score, m), id, s')
  }

  ghost predicate TookFreeCore(cores: seq<Core>, s: State, id: Id, s': State)
    requires id in s.threads
  {
    if FreeCores(cores, s) == {} then s' == s
    else exists c :: c in FreeCores(cores, s) && s' == s.(threads := s.threads[id := s.threads[id].(core := Some(c))])
  }

  /** Running threads have their scores brought up to date. */
  function Scored(s: State, m: Metric): (s': State)
  {
    s.(threads := map id | id in s.threads ::
         if s.threads[id].core.Some? then UpdateScore(s.threads[id], m(id)) else s.threads[id])
  }

  function Min(a: int, b: int): (r: int) { if a <= b then a else b }

  /** As many runnable threads as there are cores, and of least score among the runnable ones. */
  ghost predicate Selection(cores: seq<Core>, s: State, sel: set<Id>)
  {
    && sel <= Runnable(s) && |sel| == Min(|Runnable(s)|, |cores|)
    && forall a, b :: a in sel && b in Runnable(s) && b !in sel ==> s.threads[a].score <= s.threads[b].score
  }

  /** Cores of the selected threads that are already running. */
  function KeptCores(s: State, sel: set<Id>): (k: set<Core>)
  {
    set id | id in sel && id in s.threads && s.threads[id].core.Some? :: s.threads[id].core.value
  }

  /** Each selected thread without a core is given its own core, among those that no kept thread uses. */
  ghost predicate Placement(cores: seq<Core>, s: State, sel: set<Id>, place: map<Id, Core>)
  {
    && (forall id :: id in place <==> id in sel && id in s.threads && s.threads[id].core.None?)
    && (forall a, b :: a in place && b in place && a != b ==> place[a] != place[b])
    && (forall id :: id in place ==> place[id] in cores && place[id] !in KeptCores(s, sel))
  }

  function Placed(s: State, place: map<Id, Core>, m: Metric): (s': State)
  {
    s.(threads := map id | id in s.threads ::
         if id in place then s.threads[id].(core := Some(place[id]))
         else if s.threads[id].core.Some? && s.threads[id].core.value in place.Values
         then SetCore(s.threads[id], None, m(id))
         else s.threads[id])
  }

  /** Take the core away from one thread that holds it, if any, and give it to another. */
  ghost predicate Moved(s: State, id: Id, c: Core, m: Metric, s': State)
  {
    && id in s.threads
    && var on := set t | t in s.threads && s.threads[t].core == Some(c);
       if on == {} then s' == s.(threads := s.threads[id := SetCore(s.threads[id], Some(c), m(id))])
       else exists t :: t in on && var s1 := s.(threads := s.threads[t := SetCore(s.threads[t], None, m(t))]);
              s' == s1.(threads := s1.threads[id := SetCore(s1.threads[id], Some(c), m(id))])
  }

  lemma MovedKeepsKeys(s: State, id: Id, c: Core, m: Metric, s': State)
    requires Moved(s, id, c, m, s')
    ensures s'.threads.Keys == s.threads.Keys
  {
  }

  /** The first n newcomers have been moved to the first n free cores, one after the other. */
  ghost predicate MovesTo(s: State, news: seq<Id>, free: seq<Core>, n: nat, m: Metric, s': State)
    requires n <= |news| && n <= |free|
    decreases n, news
  {
    if n == 0 then s' == s
    else
      var k := n - 1;
      var id, core := news[k], free[k];
      exists s1 :: MovesTo(s, news, free, k, m, s1) && Moved(s1, id, core, m, s')
  }

  /** Threads in the order of their scores. */
  ghost predicate ByScore(s: State, ids: seq<Id>)
  {
    && (forall i :: 0 <= i < |ids| ==> ids[i] in s.threads)
    && forall i, j :: 0 <= i < j < |ids| ==> s.threads[ids[i]].score <= s.threads[ids[j]].score
  }

  predicate Ascending(cores: seq<Core>) { forall i, j :: 0 <= i < j < |cores| ==> cores[i] < cores[j] }

  /** The selected threads without a core, least score first, and the cores that no other selected thread is on. */
  ghost predicate Turn(cores: seq<Core>, s: State, sel: set<Id>, news: seq<Id>, free: seq<Core>)
  {
    && Distinct(news) && Distinct(free) && |news| <= |free| && ByScore(s, news) && Ascending(free)
    && (forall id :: id in news <==> id in sel && id in s.threads && s.threads[id].core.None?)
    && (forall c :: c in free <==> c in cores && c !in KeptCores(s, sel))
  }

  /** The periodic callback, from any state, even one in which threads share cores. */
  ghost predicate Rebalanced(cores: seq<Core>, s: State, m: Metric, s': State)
  {
    exists sel, news, free ::
      && Selection(cores, Scored(s, m), sel) && Turn(cores, Scored(s, m), sel, news, free)
      && MovesTo(Scored(s, m), news, free, |news|, m, s')
  }

  ghost predicate Step(cores: seq<Core>, s: State, e: Event, m: Metric, s': State)
  {
    match e
    case Start(id) => s' == Started(cores, s, id, m)
    case Stall(id, unscheduled) =>
      if unscheduled then id in s.threads && s' == s.(threads := s.threads[id := s.threads[id].(unscheduled := true)])
      else Stalled(s, id, m, s')
    case Resume(id) =>
      && id in s.threads
      && if s.threads[id].unscheduled
         then s' == s.(threads := s.threads[id := s.threads[id].(unscheduled := false)])
         else Resumed(cores, s, id, m, s')
    case Periodic => Rebalanced(cores, s, m, s')
  }

  // ----- safety

  /** At most one thread per core, only the scheduler's cores, and only runnable threads on cores. */
  ghost predicate Safe(cores: seq<Core>, s: State)
  {
    && (forall a, b :: a in s.threads && b in s.threads && a != b && s.threads[a].core.Some? ==>
          s.threads[a].core != s.threads[b].core)
    && (forall a :: a in s.threads && s.threads[a].core.Some? ==>
          s.threads[a].runnable && s.threads[a].core.value in cores)
  }

  /**
   Starting a thread keeps safety exactly when all cores were handed out or the next one is not
   taken by another thread.
   */
  lemma StartSafeIff(cores: seq<Core>, s: State, id: Id, m: Metric)
    requires Safe(cores, s)
    ensures Safe(cores, Started(cores, s, id, m))
            <==> s.lastCore >= |cores|
                 || (forall a :: a in s.threads && a != id ==> s.threads[a].core != Some(cores[s.lastCore]))
  {
    var s' := Started(cores, s, id, m);
    if s.lastCore < |cores| {
      assert cores[s.lastCore] in cores;
      if Safe(cores, s') {
        forall a | a in s.threads && a != id ensures s.threads[a].core != Some(cores[s.lastCore]) {
          assert s'.threads[a] == s.threads[a] && s'.threads[id].core == Some(cores[s.lastCore]);
        }
      }
    }
  }

  lemma StallSafe(cores: seq<Core>, s: State, id: Id, m: Metric, s': State)
    requires Safe(cores, s) && Stalled(s, id, m, s')
    ensures Safe(cores, s') && s'.lastCore == s.lastCore
  {
  }

  lemma ResumeSafe(cores: seq<Core>, s: State, id: Id, m: Metric, s': State)
    requires Safe(cores, s) && Resumed(cores, s, id, m, s')
    ensures Safe(cores, s') && s'.lastCore == s.lastCore
  {
  }

  /** A placement moves no running thread that was selected, and no two threads end up on one core. */
  lemma PlacedSafe(cores: seq<Core>, s: State, sel: set<Id>, place: map<Id, Core>, m: Metric)
    requires Safe(cores, s) && sel <= Runnable(s) && Placement(cores, s, sel, place)
    ensures Safe(cores, Placed(s, place, m)) && Placed(s, place, m).lastCore == s.lastCore
  {
    var s' := Placed(s, place, m);
    forall a, b | a in s'.threads && b in s'.threads && a != b && s'.threads[a].core.Some?
      ensures s'.threads[a].core != s'.threads[b].core
    {
      if a in place { assert place[a] in place.Values; }
      if b in place { assert place[b] in place.Values; }
    }
  }

  lemma ScoredSafe(cores: seq<Core>, s: State, m: Metric)
    requires Safe(cores, s)
    ensures Safe(cores, Scored(s, m)) && Scored(s, m).lastCore == s.lastCore
  {
  }

  lemma PeriodicSafe(cores: seq<Core>, s: State, m: Metric, s': State)
    requires Safe(cores, s) && Rebalanced(cores, s, m, s')
    ensures Safe(cores, s') && s'.lastCore == s.lastCore
  {
    hide Safe, Placed, Scored, Rebalanced, Placement;
    ScoredSafe(cores, s, m);
    var sel, place := RebalancedIsPlaced(cores, s, m, s');
    PlacedSafe(cores, Scored(s, m), sel, place, m);
  }

  /** Once all initial cores are handed out, every event keeps safety. */
  lemma StepSafe(cores: seq<Core>, s: State, e: Event, m: Metric, s': State)
    requires Safe(cores, s) && s.lastCore >= |cores| && Step(cores, s, e, m, s')
    ensures Safe(cores, s') && s'.lastCore == s.lastCore
  {
    match e
    case Start(id) => StartSafeIff(cores, s, id, m);
    case Stall(id, unscheduled) => if !unscheduled { StallSafe(cores, s, id, m, s'); }
    case Resume(id) => if !s.threads[id].unscheduled { ResumeSafe(cores, s, id, m, s'); }
    case Periodic => PeriodicSafe(cores, s, m, s');
  }

  // ----- while initial cores are being handed out

  /** While cores are left: every runnable thread has a core, and only handed-out cores are in use. */
  ghost predicate HandingOut(cores: seq<Core>, s: State)
  {
    && |s.threads| <= s.lastCore <= |cores|
    && (forall a :: a in s.threads && s.threads[a].runnable ==> s.threads[a].core.Some?)
    && (forall a :: a in s.threads && s.threads[a].core.Some? ==> s.threads[a].core.value in cores[..s.lastCore])
  }

  ghost predicate Good(cores: seq<Core>, s: State)
  {
    Safe(cores, s) && (s.lastCore < |cores| ==> HandingOut(cores, s))
  }

  /** The thread was stalled, and it took the earliest free core of the list. */
  ghost predicate OrderlyResume(cores: seq<Core>, s: State, id: Id, s': State)
  {
    && id in s.threads && !s.threads[id].runnable
    && forall i :: 0 <= i < |cores| && cores[i] !in UsedCores(s) ==>
         exists j :: 0 <= j <= i && id in s'.threads && s'.threads[id].core == Some(cores[j])
  }

  lemma StartHandsOut(cores: seq<Core>, s: State, id: Id, m: Metric)
    requires Distinct(cores) && Good(cores, s)
    ensures Good(cores, Started(cores, s, id, m))
  {
    var s' := Started(cores, s, id, m);
    if s.lastCore < |cores| {
      assert cores[..s.lastCore + 1] == cores[..s.lastCore] + [cores[s.lastCore]];
      assert cores[s.lastCore] !in cores[..s.lastCore];
      StartSafeIff(cores, s, id, m);
      assert s'.threads.Keys == s.threads.Keys + {id};
    } else {
      StartSafeIff(cores, s, id, m);
    }
  }

  lemma StallHandsOut(cores: seq<Core>, s: State, id: Id, m: Metric, s': State)
    requires Good(cores, s) && Stalled(s, id, m, s')
    ensures Good(cores, s')
  {
    StallSafe(cores, s, id, m, s');
    if s.lastCore < |cores| {
      var s1 := Parked(s, id, m);
      assert Waiting(s1) == {};
      assert s1.threads.Keys == s.threads.Keys;
    }
  }

  lemma PeriodicHandsOut(cores: seq<Core>, s: State, m: Metric, s': State)
    requires Good(cores, s) && Rebalanced(cores, s, m, s')
    ensures Good(cores, s')
  {
    hide Safe, Scored, Placed, HandingOut, Rebalanced, Placement;
    PeriodicSafe(cores, s, m, s');
    if s.lastCore < |cores| {
      var sel, place := RebalancedIsPlaced(cores, s, m, s');
      NobodyToPlace(cores, s, m, sel, place);
      SamePlaces(cores, s, m, place);
    }
  }

  lemma NobodyToPlace(cores: seq<Core>, s: State, m: Metric, sel: set<Id>, place: map<Id, Core>)
    requires HandingOut(cores, s) && sel <= Runnable(Scored(s, m)) && Placement(cores, Scored(s, m), sel, place)
    ensures place == map[]
  {
    assert forall id :: id !in place;
  }

  lemma SamePlaces(cores: seq<Core>, s: State, m: Metric, place: map<Id, Core>)
    requires HandingOut(cores, s) && place == map[]
    ensures HandingOut(cores, Placed(Scored(s, m), place, m))
  {
    var s' := Placed(Scored(s, m), place, m);
    assert s'.threads.Keys == s.threads.Keys;
  }

  /** Fewer threads than handed-out cores use cores: one of the handed-out cores is free. */
  lemma {:induction false} SomeCoreFree(cores: seq<Core>, used: set<Core>)
    requires Distinct(cores) && |used| < |cores|
    ensures exists i :: 0 <= i < |cores| && cores[i] !in used
    decreases |cores|
  {
    var n := |cores| - 1;
    if cores[n] in used {
      SomeCoreFree(cores[..n], used - {cores[n]});
      var i :| 0 <= i < n && cores[..n][i] !in used - {cores[n]};
      assert cores[i] !in used;
    }
  }

  /** The cores that the threads in `ids` are on. */
  function CoresOf(s: State, ids: set<Id>): (cs: set<Core>)
  {
    set id | id in ids && id in s.threads && s.threads[id].core.Some? :: s.threads[id].core.value
  }

  lemma {:induction false} CoresAtMost(s: State, ids: set<Id>)
    ensures |CoresOf(s, ids)| <= |ids|
    decreases |ids|
  {
    if ids != {} {
      var x :| x in ids;
      var fewer := ids - {x};
      CoresAtMost(s, fewer);
      if x in s.threads && s.threads[x].core.Some? {
        assert CoresOf(s, ids) == CoresOf(s, fewer) + {s.threads[x].core.value};
      } else {
        assert CoresOf(s, ids) == CoresOf(s, fewer);
      }
    }
  }

  lemma HandedOutCoreFree(cores: seq<Core>, s: State, id: Id) returns (i: nat)
    requires Distinct(cores) && HandingOut(cores, s) && id in s.threads && s.threads[id].core.None?
    ensures i < s.lastCore <= |cores| && cores[i] !in UsedCores(s)
  {
    var others := s.threads.Keys - {id};
    CoresAtMost(s, others);
    assert UsedCores(s) == CoresOf(s, others);
    var handed := cores[..s.lastCore];
    SomeCoreFree(handed, UsedCores(s));
    i :| 0 <= i < |handed| && handed[i] !in UsedCores(s);
  }

  lemma ResumeHandsOut(cores: seq<Core>, s: State, id: Id, m: Metric, s': State)
    requires Distinct(cores) && Good(cores, s) && Resumed(cores, s, id, m, s')
    requires s.lastCore < |cores| ==> OrderlyResume(cores, s, id, s')
    ensures Good(cores, s')
  {
    hide HandingOut, Resumed, UsedCores;
    ResumeSafe(cores, s, id, m, s');
    hide Safe;
    if s.lastCore < |cores| {
      var i := HandedOutCoreFree(cores, s, id);
      var j :| 0 <= j <= i && id in s'.threads && s'.threads[id].core == Some(cores[j]);
      ResumeKeepsOthers(cores, s, id, m, s');
      StillHandingOut(cores, s, id, j, s');
    }
  }

  lemma StillHandingOut(cores: seq<Core>, s: State, id: Id, j: nat, s': State)
    requires HandingOut(cores, s) && j < s.lastCore && id in s'.threads && s'.threads[id].core == Some(cores[j])
    requires s'.threads.Keys == s.threads.Keys && |s'.threads| == |s.threads| && s'.lastCore == s.lastCore
    requires forall a :: a in s.threads && a != id ==> s'.threads[a] == s.threads[a]
    ensures HandingOut(cores, s')
  {
    assert cores[..s.lastCore][j] == cores[j];
  }

  lemma ResumeKeepsOthers(cores: seq<Core>, s: State, id: Id, m: Metric, s': State)
    requires Resumed(cores, s, id, m, s')
    ensures s'.threads.Keys == s.threads.Keys && |s'.threads| == |s.threads| && s'.lastCore == s.lastCore
    ensures forall a :: a in s.threads && a != id ==> s'.threads[a] == s.threads[a]
  {
    hide UsedCores;
    assert |s'.threads| == |s'.threads.Keys| && |s.threads| == |s.threads.Keys|;
  }

  // ----- runs

  ghost predicate IsRun(cores: seq<Core>, states: seq<State>, events: seq<Event>, metrics: seq<Metric>)
  {
    && |states| == |events| + 1 == |metrics| + 1 && states[0] == State(map[], 0)
    && forall i :: 0 <= i < |events| ==> Step(cores, states[i], events[i], metrics[i], states[i + 1])
  }

  /** While cores are left, only stalled threads resume, and they take the earliest free core. */
  ghost predicate Orderly(cores: seq<Core>, states: seq<State>, events: seq<Event>)
    requires |states| == |events| + 1
  {
    forall i :: 0 <= i < |events| && events[i].Resume? && states[i].lastCore < |cores|
                && events[i].id in states[i].threads && !states[i].threads[events[i].id].unscheduled ==>
      OrderlyResume(cores, states[i], events[i].id, states[i + 1])
  }

  lemma StepGood(cores: seq<Core>, s: State, e: Event, m: Metric, s': State)
    requires Distinct(cores) && Good(cores, s) && Step(cores, s, e, m, s')
    requires e.Resume? && s.lastCore < |cores| && e.id in s.threads && !s.threads[e.id].unscheduled ==>
               OrderlyResume(cores, s, e.id, s')
    ensures Good(cores, s')
  {
    hide OrderlyResume, Resumed, Stalled, Rebalanced, Started, Distinct;
    match e
    case Start(id) => StartHandsOut(cores, s, id, m);
    case Stall(id, unscheduled) =>
      if unscheduled { FlagKeepsGood(cores, s, id, true); } else { StallHandsOut(cores, s, id, m, s'); }
    case Resume(id) =>
      if s.threads[id].unscheduled { FlagKeepsGood(cores, s, id, false); } else { ResumeHandsOut(cores, s, id, m, s'); }
    case Periodic => PeriodicHandsOut(cores, s, m, s');
  }

  function Flagged(s: State, id: Id, flag: bool): (s': State)
    requires id in s.threads
  {
    s.(threads := s.threads[id := s.threads[id].(unscheduled := flag)])
  }

  lemma FlagSafe(cores: seq<Core>, s: State, id: Id, flag: bool)
    requires Safe(cores, s) && id in s.threads
    ensures Safe(cores, Flagged(s, id, flag))
  {
  }

  lemma FlagHandsOut(cores: seq<Core>, s: State, id: Id, flag: bool)
    requires HandingOut(cores, s) && id in s.threads
    ensures HandingOut(cores, Flagged(s, id, flag))
  {
    assert Flagged(s, id, flag).threads.Keys == s.threads.Keys;
  }

  lemma FlagKeepsGood(cores: seq<Core>, s: State, id: Id, flag: bool)
    requires Good(cores, s) && id in s.threads
    ensures Good(cores, Flagged(s, id, flag))
  {
    hide Safe, HandingOut;
    FlagSafe(cores, s, id, flag);
    if s.lastCore < |cores| { FlagHandsOut(cores, s, id, flag); }
  }

  /** Safety of every orderly run from the empty scheduler, at every point of it. */
  lemma {:induction false} RunSafe(cores: seq<Core>, states: seq<State>, events: seq<Event>, metrics: seq<Metric>,
                                   i: nat)
    requires Distinct(cores) && IsRun(cores, states, events, metrics) && Orderly(cores, states, events) && i < |states|
    ensures Safe(cores, states[i]) && Good(cores, states[i])
    decreases i
  {
    hide Step, Good, OrderlyResume;
    if i == 0 {
      EmptyGood(cores);
    } else {
      RunSafe(cores, states, events, metrics, i - 1);
      StepGood(cores, states[i - 1], events[i - 1], metrics[i - 1], states[i]);
      GoodIsSafe(cores, states[i]);
    }
  }

  /** A start that hands out a core which another thread already uses. */
  ghost predicate Clashes(cores: seq<Core>, s: State, e: Event)
  {
    && e.Start? && s.lastCore < |cores|
    && exists a :: a in s.threads && a != e.id && s.threads[a].core == Some(cores[s.lastCore])
  }

  /** From a safe state an event leads to a safe state exactly if it is no clashing start. */
  lemma StepSafeIff(cores: seq<Core>, s: State, e: Event, m: Metric, s': State)
    requires Safe(cores, s) && Step(cores, s, e, m, s')
    ensures Safe(cores, s') <==> !Clashes(cores, s, e)
  {
    hide Safe, Stalled, Resumed, Rebalanced, Started;
    match e
    case Start(id) => StartSafeIff(cores, s, id, m);
    case Stall(id, unscheduled) =>
      if unscheduled { FlagSafe(cores, s, id, true); } else { StallSafe(cores, s, id, m, s'); }
    case Resume(id) =>
      if s.threads[id].unscheduled { FlagSafe(cores, s, id, false); } else { ResumeSafe(cores, s, id, m, s'); }
    case Periodic => PeriodicSafe(cores, s, m, s');
  }

  lemma {:induction false} SafeWithoutClash(cores: seq<Core>, states: seq<State>, events: seq<Event>,
          metrics: seq<Metric>, i: nat)
    requires IsRun(cores, states, events, metrics) && i < |states|
    requires forall j :: 0 <= j < i ==> !Clashes(cores, states[j], events[j])
    ensures Safe(cores, states[i])
    decreases i
  {
    hide Step, Safe, Clashes;
    if i == 0 {
      EmptyGood(cores);
    } else {
      SafeWithoutClash(cores, states, events, metrics, i - 1);
      StepSafeIff(cores, states[i - 1], events[i - 1], metrics[i - 1], states[i]);
    }
  }

  /**
   The exact condition over runs: every state of a run from the empty scheduler is safe if and only
   if no start during the hand-out is given a core that another thread already uses.
   */
  lemma RunSafeIff(cores: seq<Core>, states: seq<State>, events: seq<Event>, metrics: seq<Metric>)
    requires IsRun(cores, states, events, metrics)
    ensures (forall i :: 0 <= i < |states| ==> Safe(cores, states[i]))
            <==> forall j :: 0 <= j < |events| ==> !Clashes(cores, states[j], events[j])
  {
    hide Step, Safe, Clashes;
    if forall j :: 0 <= j < |events| ==> !Clashes(cores, states[j], events[j]) {
      forall i | 0 <= i < |states| ensures Safe(cores, states[i]) {
        SafeWithoutClash(cores, states, events, metrics, i);
      }
    } else {
      var j :| 0 <= j < |events| && Clashes(cores, states[j], events[j]);
      if Safe(cores, states[j]) { StepSafeIff(cores, states[j], events[j], metrics[j], states[j + 1]); }
    }
  }

  lemma EmptyGood(cores: seq<Core>)
    ensures Good(cores, State(map[], 0)) && Safe(cores, State(map[], 0))
  {
  }

  lemma GoodIsSafe(cores: seq<Core>, s: State)
    requires Good(cores, s)
    ensures Safe(cores, s)
  {
  }

  /**
   The condition on resumes during hand-out is needed: with two cores, a thread that is resumed
   although it never stalled moves to the core that the next thread is then started on.
   */
  lemma SpuriousResumeBreaksSafety() returns (states: seq<State>, events: seq<Event>, metrics: seq<Metric>)
    ensures IsRun([0, 1], states, events, metrics) && !Safe([0, 1], states[|states| - 1])
  {
    var m: Metric := _ => 0;
    var cores := [0, 1];
    var s0 := State(map[], 0);
    var s1 := Started(cores, s0, 7, m);
    var s2 := s1.(threads := s1.threads[7 := s1.threads[7].(core := Some(1))]);
    var s3 := Started(cores, s2, 8, m);
    states, events, metrics := [s0, s1, s2, s3], [Start(7), Resume(7), Start(8)], [m, m, m];
    assert s1.threads == map[7 := Thread(Some(0), true, false, 0, 0)];
    assert IsMinScore(s1, 0);
    var w := Woken(s1, 7, 0, m);
    assert w == s1;
    assert UsedCores(w) == {0};
    assert 1 in FreeCores(cores, w);
    assert TookFreeCore(cores, w, 7, s2);
    assert Step(cores, s1, Resume(7), m, s2);
    assert s3.threads[7].core == s3.threads[8].core == Some(1);
  }

  // ----- what a periodic rebalance selects

  lemma {:induction false} DistinctSize(cores: seq<Core>)
    requires Distinct(cores)
    ensures |CoreSet(cores)| == |cores|
    decreases |cores|
  {
    if |cores| > 0 {
      var n := |cores| - 1;
      DistinctSize(cores[..n]);
      assert cores == cores[..n] + [cores[n]];
      assert cores[n] !in cores[..n];
      assert CoreSet(cores) == CoreSet(cores[..n]) + {cores[n]};
    }
  }

  lemma {:induction false} CoresExactly(cores: seq<Core>, s: State, ids: set<Id>)
    requires Safe(cores, s) && forall id :: id in ids ==> id in s.threads && s.threads[id].core.Some?
    ensures |CoresOf(s, ids)| == |ids|
    decreases |ids|
  {
    if ids != {} {
      var x :| x in ids;
      var fewer := ids - {x};
      CoresExactly(cores, s, fewer);
      assert CoresOf(s, ids) == CoresOf(s, fewer) + {s.threads[x].core.value};
      assert s.threads[x].core.value !in CoresOf(s, fewer);
    }
  }

  lemma {:induction false} ValuesExactly(place: map<Id, Core>)
    requires forall a, b :: a in place && b in place && a != b ==> place[a] != place[b]
    ensures |place.Values| == |place.Keys|
    decreases |place|
  {
    if place.Keys != {} {
      var x :| x in place.Keys;
      var fewer := place - {x};
      ValuesExactly(fewer);
      assert place.Keys == fewer.Keys + {x};
      assert place.Values == fewer.Values + {place[x]};
      assert place[x] !in fewer.Values;
    } else {
      assert place.Values == {};
    }
  }

  lemma SubsetOfSameSize<T>(a: set<T>, b: set<T>)
    requires a <= b && |a| >= |b|
    ensures a == b
  {
    assert |b - a| == |b| - |a|;
    assert b == a + (b - a);
  }

  lemma TakenCores(cores: seq<Core>, s: State, sel: set<Id>, place: map<Id, Core>)
    requires Safe(cores, s) && sel <= Runnable(s) && Placement(cores, s, sel, place)
    ensures KeptCores(s, sel) == CoresOf(s, sel - place.Keys) && KeptCores(s, sel) !! place.Values
    ensures KeptCores(s, sel) + place.Values <= CoreSet(cores)
    ensures place.Keys <= sel && forall id :: id in sel - place.Keys ==> id in s.threads && s.threads[id].core.Some?
  {
  }

  /** If every core is wanted, kept and newly assigned cores together are all cores. */
  lemma AllCoresTaken(cores: seq<Core>, s: State, sel: set<Id>, place: map<Id, Core>)
    requires Distinct(cores) && Safe(cores, s) && sel <= Runnable(s) && Placement(cores, s, sel, place)
             && |sel| == |cores|
    ensures KeptCores(s, sel) + place.Values == CoreSet(cores)
  {
    ValuesAreDistinct(cores, s, sel, place);
    hide Safe, Runnable, Placement, KeptCores, CoresOf, CoreSet, Distinct;
    TakenCores(cores, s, sel, place);
    CoresExactly(cores, s, sel - place.Keys);
    DistinctSize(cores);
    SubsetOfSameSize(KeptCores(s, sel) + place.Values, CoreSet(cores));
  }

  lemma ValuesAreDistinct(cores: seq<Core>, s: State, sel: set<Id>, place: map<Id, Core>)
    requires Placement(cores, s, sel, place)
    ensures |place.Values| == |place.Keys|
  {
    ValuesExactly(place);
  }

  /**
   After a rebalance the threads that hold cores are exactly the selected ones: as many runnable
   threads as there are cores for, of least score at selection time; and no kept thread has moved.
   */
  lemma HoldersAreSelected(cores: seq<Core>, s: State, sel: set<Id>, place: map<Id, Core>, m: Metric)
    requires Distinct(cores) && Safe(cores, s) && Selection(cores, s, sel) && Placement(cores, s, sel, place)
    ensures forall id :: id in s.threads ==> (Placed(s, place, m).threads[id].core.Some? <==> id in sel)
    ensures forall id :: id in sel && s.threads[id].core.Some? ==>
      Placed(s, place, m).threads[id].core == s.threads[id].core
  {
    var s' := Placed(s, place, m);
    forall id | id in s.threads ensures s'.threads[id].core.Some? <==> id in sel {
      if id !in sel && s.threads[id].core.Some? {
        Displaced(cores, s, sel, place, id);
      }
    }
  }

  lemma Displaced(cores: seq<Core>, s: State, sel: set<Id>, place: map<Id, Core>, id: Id)
    requires Distinct(cores) && Safe(cores, s) && Selection(cores, s, sel) && Placement(cores, s, sel, place)
    requires id in s.threads && id !in sel && s.threads[id].core.Some?
    ensures s.threads[id].core.value in place.Values
  {
    if |sel| == |Runnable(s)| {
      SubsetOfSameSize(sel, Runnable(s));
    }
    AllCoresTaken(cores, s, sel, place);
    assert s.threads[id].core.value in KeptCores(s, sel) + place.Values;
  }

  /** The rebalance of a safe state: its outcome in terms of the scores at selection time. */
  lemma PeriodicSelects(cores: seq<Core>, s: State, m: Metric, s': State) returns (sel: set<Id>)
    requires Distinct(cores) && Safe(cores, s) && Rebalanced(cores, s, m, s')
    ensures Selection(cores, Scored(s, m), sel)
    ensures forall id :: id in s.threads ==> id in s'.threads && (s'.threads[id].core.Some? <==> id in sel)
    ensures forall id :: id in sel && id in s.threads && s.threads[id].core.Some? ==>
      s'.threads[id].core == s.threads[id].core
  {
    hide Rebalanced;
    ScoredSafe(cores, s, m);
    var place: map<Id, Core>;
    sel, place := RebalancedIsPlaced(cores, s, m, s');
    HoldersAreSelected(cores, Scored(s, m), sel, place, m);
  }

  // ----- placing threads one at a time

  /** No thread has the core c yet, in `place` or as one that is to be kept. */
  ghost predicate Vacant(s: State, place: map<Id, Core>, id: Id, c: Core)
  {
    && id in s.threads && s.threads[id].core.None? && id !in place && c !in place.Values
    && forall a :: a in place ==> a in s.threads && s.threads[a].core.None?
  }

  /** One more placement, thread by thread. */
  lemma PlacedThread(s: State, place: map<Id, Core>, id: Id, c: Core, m: Metric, t: Id)
    requires Vacant(s, place, id, c) && t in s.threads
    ensures var p, q := Placed(s, place, m).threads[t], Placed(s, place[id := c], m).threads[t];
      && (p.core == Some(c) <==> s.threads[t].core == Some(c))
      && q == if t == id then p.(core := Some(c)) else if p.core == Some(c) then SetCore(p, None, m(t)) else p
  {
    PlaceValues(place, id, c);
    if t in place { assert place[t] in place.Values; }
  }

  ghost predicate OneMore(p: State, id: Id, c: Core, m: Metric, q: State, t: Id)
    requires t in p.threads && t in q.threads
  {
    q.threads[t] == if t == id then p.threads[t].(core := Some(c))
                    else if p.threads[t].core == Some(c) then SetCore(p.threads[t], None, m(t)) else p.threads[t]
  }

  lemma MovedEquals(p: State, id: Id, c: Core, m: Metric, q: State, s': State)
    requires Moved(p, id, c, m, s') && q.threads.Keys == p.threads.Keys && q.lastCore == p.lastCore
    requires p.threads[id].core != Some(c)
    requires forall t, u :: t in p.threads && u in p.threads && p.threads[t].core == p.threads[u].core == Some(c) ==>
      t == u
    requires forall t :: t in p.threads ==> OneMore(p, id, c, m, q, t)
    ensures s' == q
  {
    var on := set t | t in p.threads && p.threads[t].core == Some(c);
    if on == {} {
      assert forall t :: t in p.threads ==> t !in on;
      assert s'.threads == q.threads;
    } else {
      var t :| t in on && var s1 := p.(threads := p.threads[t := SetCore(p.threads[t], None, m(t))]);
        s' == s1.(threads := s1.threads[id := SetCore(s1.threads[id], Some(c), m(id))]);
      assert s'.threads == q.threads;
    }
  }

  lemma MovedIsPlaced(cores: seq<Core>, s: State, place: map<Id, Core>, id: Id, c: Core, m: Metric, s': State)
    requires Safe(cores, s) && Vacant(s, place, id, c) && Moved(Placed(s, place, m), id, c, m, s')
    ensures s' == Placed(s, place[id := c], m)
  {
    var p, q := Placed(s, place, m), Placed(s, place[id := c], m);
    assert p.threads.Keys == q.threads.Keys == s.threads.Keys && p.lastCore == q.lastCore;
    hide Placed, Moved;
    forall t | t in s.threads
      ensures (p.threads[t].core == Some(c) <==> s.threads[t].core == Some(c)) && OneMore(p, id, c, m, q, t)
    {
      PlacedThread(s, place, id, c, m, t);
    }
    hide OneMore;
    MovedEquals(p, id, c, m, q, s');
  }

  lemma PlaceValues(place: map<Id, Core>, id: Id, c: Core)
    requires id !in place
    ensures place[id := c].Values == place.Values + {c}
  {
    var q := place[id := c];
    assert q[id] == c;
    forall v | v in place.Values + {c} ensures v in q.Values {
      if v != c {
        var k :| k in place && place[k] == v;
        assert q[k] == v;
      }
    }
  }

  /** The i first newcomers on the i first free cores. */
  ghost function Assignment(news: seq<Id>, free: seq<Core>, i: nat): (place: map<Id, Core>)
    requires i <= |news| && i <= |free|
    decreases i, news
  {
    if i == 0 then map[] else Assignment(news, free, i - 1)[news[i - 1] := free[i - 1]]
  }

  lemma {:induction false} AssignmentAt(news: seq<Id>, free: seq<Core>, i: nat)
    requires i <= |news| && i <= |free| && Distinct(news) && Distinct(free)
    ensures forall id :: id in Assignment(news, free, i) <==> id in news[..i]
    ensures forall k :: 0 <= k < i ==> Assignment(news, free, i)[news[k]] == free[k]
    decreases i
  {
    if i > 0 {
      AssignmentAt(news, free, i - 1);
      assert news[..i] == news[..i - 1] + [news[i - 1]];
    }
  }

  lemma NothingPlaced(s: State, news: seq<Id>, free: seq<Core>, m: Metric)
    ensures Placed(s, Assignment(news, free, 0), m) == s
  {
    assert Placed(s, map[], m).threads == s.threads;
  }

  lemma NextVacant(s: State, news: seq<Id>, free: seq<Core>, i: nat)
    requires i < |news| <= |free| && Distinct(news) && Distinct(free)
    requires forall id :: id in news ==> id in s.threads && s.threads[id].core.None?
    ensures Vacant(s, Assignment(news, free, i), news[i], free[i])
    ensures Assignment(news, free, i + 1) == Assignment(news, free, i)[news[i] := free[i]]
  {
    AssignmentAt(news, free, i);
    var place := Assignment(news, free, i);
    forall a | a in place ensures place[a] != free[i] && a in news {
      var k :| 0 <= k < i && news[k] == a;
    }
  }

  lemma AssignmentKeys(news: seq<Id>, free: seq<Core>)
    requires Distinct(news) && Distinct(free) && |news| <= |free|
    ensures forall id :: id in Assignment(news, free, |news|) <==> id in news
  {
    hide Assignment, Distinct;
    AssignmentAt(news, free, |news|);
    assert news[..|news|] == news;
  }

  lemma AssignmentEntry(news: seq<Id>, free: seq<Core>, a: Id) returns (k: nat)
    requires Distinct(news) && Distinct(free) && |news| <= |free| && a in Assignment(news, free, |news|)
    ensures k < |news| && news[k] == a && Assignment(news, free, |news|)[a] == free[k]
  {
    hide Assignment, Distinct;
    AssignmentKeys(news, free);
    k :| 0 <= k < |news| && news[k] == a;
    AssignmentAt(news, free, |news|);
  }

  lemma AssignmentEntries(news: seq<Id>, free: seq<Core>)
    requires Distinct(news) && Distinct(free) && |news| <= |free|
    ensures var place := Assignment(news, free, |news|);
      && (forall id :: id in place <==> id in news)
      && (forall a :: a in place ==> place[a] in free)
      && (forall a, b :: a in place && b in place && a != b ==> place[a] != place[b])
  {
    hide Assignment;
    var place := Assignment(news, free, |news|);
    AssignmentKeys(news, free);
    forall a, b | a in place && b in place && a != b ensures place[a] != place[b] {
      var j := AssignmentEntry(news, free, a);
      var k := AssignmentEntry(news, free, b);
      assert if j < k then free[j] != free[k] else free[k] != free[j];
    }
    forall a | a in place ensures place[a] in free {
      var j := AssignmentEntry(news, free, a);
    }
  }

  lemma AssignmentIsPlacement(cores: seq<Core>, s: State, sel: set<Id>, news: seq<Id>, free: seq<Core>)
    requires Turn(cores, s, sel, news, free)
    ensures Placement(cores, s, sel, Assignment(news, free, |news|))
  {
    hide Assignment, Distinct;
    AssignmentEntries(news, free);
  }

  /** From a safe state, moving one thread at a time comes to the same as placing all at once. */
  lemma {:induction false} MovesArePlacing(cores: seq<Core>, s: State, news: seq<Id>, free: seq<Core>, n: nat,
          m: Metric, s': State)
    requires Safe(cores, s) && Distinct(news) && Distinct(free) && n <= |news| <= |free|
    requires forall id :: id in news ==> id in s.threads && s.threads[id].core.None?
    requires MovesTo(s, news, free, n, m, s')
    ensures s' == Placed(s, Assignment(news, free, n), m)
    decreases n
  {
    hide Safe, Placed, Assignment, Moved, Distinct;
    if n == 0 {
      NothingPlaced(s, news, free, m);
    } else {
      var s1 :| MovesTo(s, news, free, n - 1, m, s1) && Moved(s1, news[n - 1], free[n - 1], m, s');
      MovesArePlacing(cores, s, news, free, n - 1, m, s1);
      NextVacant(s, news, free, n - 1);
      MovedIsPlaced(cores, s, Assignment(news, free, n - 1), news[n - 1], free[n - 1], m, s');
    }
  }

  /** From a safe state the periodic callback is a placement of the selected threads. */
  lemma RebalancedIsPlaced(cores: seq<Core>, s: State, m: Metric, s': State)
      returns (sel: set<Id>, place: map<Id, Core>)
    requires Safe(cores, s) && Rebalanced(cores, s, m, s')
    ensures Selection(cores, Scored(s, m), sel) && Placement(cores, Scored(s, m), sel, place)
    ensures s' == Placed(Scored(s, m), place, m)
  {
    hide Safe, Scored, Placed, Assignment, MovesTo, Placement, Selection;
    ScoredSafe(cores, s, m);
    var news, free;
    sel, news, free :| Selection(cores, Scored(s, m), sel) && Turn(cores, Scored(s, m), sel, news, free)
                       && MovesTo(Scored(s, m), news, free, |news|, m, s');
    AssignmentIsPlacement(cores, Scored(s, m), sel, news, free);
    MovesArePlacing(cores, Scored(s, m), news, free, |news|, m, s');
    place := Assignment(news, free, |news|);
  }
}
