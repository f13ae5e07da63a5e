/** When the locality scheduler lets a core stand idle although a runnable thread waits. */
module SchedulerWork {
  import opened Lists
  import opened Options
  import opened SchedulerModel

  /** No thread waits for a core while one of the scheduler's cores is free. */
  ghost predicate Busy(cores: seq<Core>, s: State) { Waiting(s) == {} || FreeCores(cores, s) == {} }

  /** A new thread after all cores were handed out once, although a core has become free since. */
  ghost predicate LateStart(cores: seq<Core>, s: State, e: Event)
  {
    e.Start? && s.lastCore >= |cores| && FreeCores(cores, s) != {}
  }

  ghost predicate StartsOnce(s: State, e: Event) { e.Start? ==> e.id !in s.threads }

  lemma WaitingIs(s: State, id: Id)
    ensures id in Waiting(s) <==> id in s.threads && s.threads[id].runnable && s.threads[id].core.None?
  {
  }

  /** Where the threads are on the same cores, the same cores are free. */
  lemma SameFree(cores: seq<Core>, s: State, s': State)
    requires s'.threads.Keys == s.threads.Keys && forall x :: x in s.threads ==> s'.threads[x].core == s.threads[x].core
    ensures FreeCores(cores, s') == FreeCores(cores, s)
  {
    assert UsedCores(s') == UsedCores(s);
  }

  lemma NewThreadTakes(cores: seq<Core>, s: State, s': State, id: Id)
    requires id !in s.threads && id in s'.threads && s'.threads == s.threads[id := s'.threads[id]]
    ensures FreeCores(cores, s') <= FreeCores(cores, s)
    ensures s'.threads[id].core.None? ==> FreeCores(cores, s') == FreeCores(cores, s)
  {
    forall c | c in UsedCores(s) ensures c in UsedCores(s') {
      var x :| x in s.threads && s.threads[x].core.Some? && s.threads[x].core.value == c;
      assert s'.threads[x].core.value == c;
    }
  }

  /** Starting: the new thread gets the next core of the first hand-out, and none later on. */
  lemma StartBusyIff(cores: seq<Core>, s: State, id: Id, m: Metric)
    requires Busy(cores, s) && id !in s.threads
    ensures Busy(cores, Started(cores, s, id, m)) <==> !LateStart(cores, s, Start(id))
  {
    var s' := Started(cores, s, id, m);
    hide Waiting, FreeCores;
    forall x ensures (x in Waiting(s') <==> x in Waiting(s) || (x == id && s.lastCore >= |cores|)) {
      WaitingIs(s, x);
      WaitingIs(s', x);
    }
    NewThreadTakes(cores, s, s', id);
    if s.lastCore >= |cores| {
      assert id in Waiting(s');
    } else {
      assert Waiting(s') == Waiting(s);
    }
  }

  lemma SetCoreIs(t: Thread, core: Option<Core>, now: int)
    ensures SetCore(t, core, now).core == core && SetCore(t, core, now).runnable == t.runnable
  {
  }

  lemma ParkedWaits(s: State, id: Id, m: Metric)
    requires id in s.threads
    ensures Waiting(Parked(s, id, m)) == Waiting(s) - {id}
  {
  }

  /** A stall or exit: the core that becomes free goes to a waiting thread. */
  lemma StallKeepsBusy(cores: seq<Core>, s: State, id: Id, m: Metric, s': State)
    requires Busy(cores, s) && Stalled(s, id, m, s')
    ensures Busy(cores, s')
  {
    ParkedWaits(s, id, m);
    var parked, core := Parked(s, id, m), s.threads[id].core;
    assert parked.threads.Keys == s.threads.Keys;
    assert forall x :: x in s.threads && x != id ==> parked.threads[x] == s.threads[x];
    hide Waiting, FreeCores, Parked, SetCore;
    if Waiting(parked) != {} {
      var p :| p in Waiting(parked)
          && s' == parked.(threads := parked.threads[p := SetCore(parked.threads[p], core, m(p))]);
      WaitingIs(s, p);
      SetCoreIs(parked.threads[p], core, m(p));
      CoresPassOn(s, s', id, p);
      StillUsed(cores, s, s');
    }
  }

  /** Every core that was in use is in use: that of id by p, which had none, and the others by the same threads. */
  lemma CoresPassOn(s: State, s': State, id: Id, p: Id)
    requires id in s.threads && p in s.threads && p != id && s.threads[p].core.None?
             && s'.threads.Keys == s.threads.Keys
    requires s'.threads[p].core == s.threads[id].core
    requires forall x :: x in s.threads && x != id && x != p ==> s'.threads[x].core == s.threads[x].core
    ensures forall x :: x in s.threads && s.threads[x].core.Some? ==>
      exists y :: y in s'.threads && s'.threads[y].core == s.threads[x].core
  {
    forall x | x in s.threads && s.threads[x].core.Some?
      ensures exists y :: y in s'.threads && s'.threads[y].core == s.threads[x].core
    {
      var y := if x == id then p else x;
      assert s'.threads[y].core == s.threads[x].core;
    }
  }

  lemma StillUsed(cores: seq<Core>, s: State, s': State)
    requires FreeCores(cores, s) == {}
    requires forall x :: x in s.threads && s.threads[x].core.Some? ==>
      exists y :: y in s'.threads && s'.threads[y].core == s.threads[x].core
    ensures FreeCores(cores, s') == {}
  {
    forall c | c in UsedCores(s) ensures c in UsedCores(s') {
      var x :| x in s.threads && s.threads[x].core.Some? && s.threads[x].core.value == c;
      var y :| y in s'.threads && s'.threads[y].core == s.threads[x].core;
      assert s'.threads[y].core.value == c;
    }
  }

  /** A wakened thread takes a free core if there is one. */
  lemma ResumeKeepsBusy(cores: seq<Core>, s: State, id: Id, m: Metric, s': State)
    requires Busy(cores, s) && Resumed(cores, s, id, m, s')
    ensures Busy(cores, s')
  {
    hide Waiting, FreeCores, IsMinScore;
    var score :| IsMinScore(s, score) && TookFreeCore(cores, Woken(s, id, score, m), id, s');
    var woken := Woken(s, id, score, m);
    SameFree(cores, s, woken);
    if FreeCores(cores, s) != {} {
      forall x ensures x !in Waiting(s') {
        assert x !in Waiting(s);
        WaitingIs(s, x);
        WaitingIs(s', x);
      }
      assert Waiting(s') == {};
    }
  }

  lemma FlagKeepsBusy(cores: seq<Core>, s: State, id: Id, flag: bool)
    requires Busy(cores, s) && id in s.threads
    ensures Busy(cores, Flagged(s, id, flag))
  {
    hide Waiting, FreeCores;
    var s' := Flagged(s, id, flag);
    forall x ensures x in Waiting(s') <==> x in Waiting(s) { WaitingIs(s, x); WaitingIs(s', x); }
    SameFree(cores, s, s');
    assert Waiting(s') == Waiting(s);
  }

  lemma PlacedKeepsRunnable(s: State, place: map<Id, Core>, m: Metric)
    ensures Runnable(Placed(s, place, m)) == Runnable(s) && Placed(s, place, m).threads.Keys == s.threads.Keys
  {
  }

  lemma ScoredKeepsRunnable(s: State, m: Metric)
    ensures Runnable(Scored(s, m)) == Runnable(s) && Scored(s, m).threads.Keys == s.threads.Keys
  {
  }

  /** After rebalancing no core is idle while a thread waits, whatever was the case before. */
  lemma PeriodicMakesBusy(cores: seq<Core>, s: State, m: Metric, s': State)
    requires Distinct(cores) && Safe(cores, s) && Rebalanced(cores, s, m, s')
    ensures Busy(cores, s')
  {
    hide Rebalanced, Placed, Scored, Safe, Placement;
    ScoredSafe(cores, s, m);
    ScoredKeepsRunnable(s, m);
    var sel, place := RebalancedIsPlaced(cores, s, m, s');
    PlacedSafe(cores, Scored(s, m), sel, place, m);
    PlacedKeepsRunnable(Scored(s, m), place, m);
    HoldersAreSelected(cores, Scored(s, m), sel, place, m);
    HoldersKeepBusy(cores, s', sel);
  }

  lemma HoldersKeepBusy(cores: seq<Core>, s: State, sel: set<Id>)
    requires Distinct(cores) && Safe(cores, s) && sel <= Runnable(s)
             && |sel| == SchedulerModel.Min(|Runnable(s)|, |cores|)
    requires forall id :: id in s.threads ==> (s.threads[id].core.Some? <==> id in sel)
    ensures Busy(cores, s)
  {
    hide Distinct;
    if |sel| == |Runnable(s)| {
      SubsetOfSameSize(sel, Runnable(s));
      assert Waiting(s) == {};
    } else {
      CoresExactly(cores, s, sel);
      DistinctSize(cores);
      assert CoresOf(s, sel) <= CoreSet(cores);
      SubsetOfSameSize(CoresOf(s, sel), CoreSet(cores));
      assert CoresOf(s, sel) <= UsedCores(s);
      assert FreeCores(cores, s) == {};
    }
  }

  /** From a safe state without idle cores, exactly a late start lets a core stand idle. */
  lemma StepBusyIff(cores: seq<Core>, s: State, e: Event, m: Metric, s': State)
    requires Distinct(cores) && Safe(cores, s) && Busy(cores, s) && Step(cores, s, e, m, s') && StartsOnce(s, e)
    ensures Busy(cores, s') <==> !LateStart(cores, s, e)
  {
    hide Busy, Safe, Stalled, Resumed, Rebalanced, Started, FreeCores;
    match e
    case Start(id) => StartBusyIff(cores, s, id, m);
    case Stall(id, unscheduled) =>
      if unscheduled { FlagKeepsBusy(cores, s, id, true); } else { StallKeepsBusy(cores, s, id, m, s'); }
    case Resume(id) =>
      if s.threads[id].unscheduled { FlagKeepsBusy(cores, s, id, false); } else
          { ResumeKeepsBusy(cores, s, id, m, s'); }
    case Periodic => PeriodicMakesBusy(cores, s, m, s');
  }

  /** Over every run that is safe and starts each thread once: no core is ever idle for nothing iff no start is late. */
  lemma RunBusyIff(cores: seq<Core>, states: seq<State>, events: seq<Event>, metrics: seq<Metric>)
    requires Distinct(cores) && IsRun(cores, states, events, metrics)
    requires forall i :: 0 <= i < |states| ==> Safe(cores, states[i])
    requires forall i :: 0 <= i < |events| ==> StartsOnce(states[i], events[i])
    ensures (forall i :: 0 <= i < |states| ==> Busy(cores, states[i]))
            <==> forall i :: 0 <= i < |events| ==> !LateStart(cores, states[i], events[i])
  {
    hide Busy, Safe, Step, LateStart, StartsOnce;
    if forall i :: 0 <= i < |states| ==> Busy(cores, states[i]) {
      forall i | 0 <= i < |events| ensures !LateStart(cores, states[i], events[i]) {
        StepBusyIff(cores, states[i], events[i], metrics[i], states[i + 1]);
      }
    }
    if forall i :: 0 <= i < |events| ==> !LateStart(cores, states[i], events[i]) {
      forall i | 0 <= i < |states| ensures Busy(cores, states[i]) { BusyUpTo(cores, states, events, metrics, i); }
    }
  }

  lemma {:induction false} BusyUpTo(cores: seq<Core>, states: seq<State>, events: seq<Event>, metrics: seq<Metric>,
                                    i: nat)
    requires Distinct(cores) && IsRun(cores, states, events, metrics) && i < |states|
    requires forall i :: 0 <= i < |states| ==> Safe(cores, states[i])
    requires forall i :: 0 <= i < |events| ==> StartsOnce(states[i], events[i])
    requires forall i :: 0 <= i < |events| ==> !LateStart(cores, states[i], events[i])
    ensures Busy(cores, states[i])
    decreases i
  {
    hide Safe, Step, LateStart, StartsOnce;
    if i > 0 {
      var k := i - 1;
      BusyUpTo(cores, states, events, metrics, k);
      assert !LateStart(cores, states[k], events[k]);
      StepBusyIff(cores, states[k], events[k], metrics[k], states[i]);
    }
  }

  /** It happens: one core, its thread exits, and the next thread to start waits beside the free core. */
  lemma LateStartHappens(m: Metric) returns (states: seq<State>, events: seq<Event>, metrics: seq<Metric>)
    ensures IsRun([0], states, events, metrics) && |states| == 4
    ensures Waiting(states[3]) == {1} && FreeCores([0], states[3]) == {0}
  {
    var s0 := State(map[], 0);
    var s1 := Started([0], s0, 0, m);
    var s2 := Parked(s1, 0, m);
    var s3 := Started([0], s2, 1, m);
    states, events, metrics := [s0, s1, s2, s3], [Start(0), Stall(0, false), Start(1)], [m, m, m];
    assert Waiting(s2) == {};
    assert Step([0], s0, Start(0), m, s1) && Step([0], s1, Stall(0, false), m, s2) && Step([0], s2, Start(1), m, s3);
    assert UsedCores(s3) == {};
    assert Waiting(s3) == {1};
  }
}
