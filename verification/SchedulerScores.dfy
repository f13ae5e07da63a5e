/** What the scores of the locality scheduler measure: how far a thread's metric has come since it was last woken. */
module SchedulerScores {
  import opened Options
  import opened SchedulerModel

  /** The score, less the metric at which it was last brought up to date. */
  function Base(t: Thread): (b: int) { t.score - t.metricLast }

  ghost predicate KeepsBase(s: State, s': State, id: Id)
  {
    id in s.threads ==> id in s'.threads && Base(s'.threads[id]) == Base(s.threads[id])
  }

  /** The resume of a thread that was not merely scheduled out: it is given the least score. */
  ghost predicate Wakes(s: State, e: Event, id: Id)
  {
    e == Resume(id) && id in s.threads && !s.threads[id].unscheduled
  }

  lemma StallKeepsBase(s: State, id: Id, m: Metric, s': State, x: Id)
    requires Stalled(s, id, m, s')
    ensures KeepsBase(s, s', x)
  {
  }

  lemma ResumeKeepsBase(cores: seq<Core>, s: State, id: Id, m: Metric, s': State, x: Id)
    requires Resumed(cores, s, id, m, s') && x != id
    ensures KeepsBase(s, s', x)
  {
    hide FreeCores, IsMinScore;
  }

  lemma MoveKeepsBase(s: State, id: Id, c: Core, m: Metric, s': State, x: Id)
    requires Moved(s, id, c, m, s')
    ensures KeepsBase(s, s', x)
  {
  }

  lemma {:induction false} MovesKeepBase(s: State, news: seq<Id>, free: seq<Core>, n: nat, m: Metric, s': State, x: Id)
    requires n <= |news| && n <= |free| && MovesTo(s, news, free, n, m, s')
    ensures KeepsBase(s, s', x)
    decreases n
  {
    hide Moved;
    if n > 0 {
      var k := n - 1;
      var id, core := news[k], free[k];
      var s1 :| MovesTo(s, news, free, k, m, s1) && Moved(s1, id, core, m, s');
      MovesKeepBase(s, news, free, k, m, s1, x);
      MoveKeepsBase(s1, id, core, m, s', x);
    }
  }

  lemma MovesOf(cores: seq<Core>, s: State, m: Metric, s': State) returns (news: seq<Id>, free: seq<Core>)
    requires Rebalanced(cores, s, m, s')
    ensures |news| <= |free| && MovesTo(Scored(s, m), news, free, |news|, m, s')
  {
    var sel: set<Id>;
    sel, news, free :| Selection(cores, Scored(s, m), sel) && Turn(cores, Scored(s, m), sel, news, free)
      && MovesTo(Scored(s, m), news, free, |news|, m, s');
  }

  lemma RebalanceKeepsBase(cores: seq<Core>, s: State, m: Metric, s': State, x: Id)
    requires Rebalanced(cores, s, m, s')
    ensures KeepsBase(s, s', x)
  {
    var news, free := MovesOf(cores, s, m, s');
    hide Rebalanced, MovesTo;
    MovesKeepBase(Scored(s, m), news, free, |news|, m, s', x);
  }

  /** Over every step, whatever the thread does: its score grows exactly as its metric does, unless it is woken. */
  lemma StepKeepsBase(cores: seq<Core>, s: State, e: Event, m: Metric, s': State, x: Id)
    requires Step(cores, s, e, m, s') && x in s.threads && e != Start(x) && !Wakes(s, e, x)
    ensures x in s'.threads
    ensures s'.threads[x].score - s'.threads[x].metricLast == s.threads[x].score - s.threads[x].metricLast
  {
    hide Stalled, Resumed, Rebalanced;
    match e
    case Start(id) =>
    case Stall(id, unscheduled) => if !unscheduled { StallKeepsBase(s, id, m, s', x); }
    case Resume(id) => if !s.threads[id].unscheduled { ResumeKeepsBase(cores, s, id, m, s', x); }
    case Periodic => RebalanceKeepsBase(cores, s, m, s', x);
  }

  // ----- when scores are brought up to date

  ghost predicate UpToDate(s: State, m: Metric, x: Id) { x in s.threads && s.threads[x].metricLast == m(x) }

  lemma MoveKeepsDate(s: State, id: Id, c: Core, m: Metric, s': State, x: Id)
    requires Moved(s, id, c, m, s') && UpToDate(s, m, x)
    ensures UpToDate(s', m, x)
  {
  }

  lemma {:induction false} MovesKeepDate(s: State, news: seq<Id>, free: seq<Core>, n: nat, m: Metric, s': State, x: Id)
    requires n <= |news| && n <= |free| && MovesTo(s, news, free, n, m, s') && UpToDate(s, m, x)
    ensures UpToDate(s', m, x)
    decreases n
  {
    hide Moved;
    if n > 0 {
      var k := n - 1;
      var id, core := news[k], free[k];
      var s1 :| MovesTo(s, news, free, k, m, s1) && Moved(s1, id, core, m, s');
      MovesKeepDate(s, news, free, k, m, s1, x);
      MoveKeepsDate(s1, id, core, m, s', x);
    }
  }

  /** After the periodic callback, of every thread that was on a core. */
  lemma PeriodicUpdates(cores: seq<Core>, s: State, m: Metric, s': State, x: Id)
    requires Rebalanced(cores, s, m, s') && x in s.threads && s.threads[x].core.Some?
    ensures UpToDate(s', m, x)
    ensures s'.threads[x].score == s.threads[x].score + m(x) - s.threads[x].metricLast
  {
    RebalanceKeepsBase(cores, s, m, s', x);
    var news, free := MovesOf(cores, s, m, s');
    hide Rebalanced, MovesTo;
    MovesKeepDate(Scored(s, m), news, free, |news|, m, s', x);
  }

  /** After a stall or an exit, of the thread that stalled, which is put out; its score counts what it has run. */
  lemma StallUpdates(s: State, x: Id, m: Metric, s': State)
    requires Stalled(s, x, m, s')
    ensures UpToDate(s', m, x) && s'.threads[x].core.None? && !s'.threads[x].runnable
    ensures s'.threads[x].score == s.threads[x].score + m(x) - s.threads[x].metricLast
  {
  }

  /** A woken thread starts level with the thread that has run least. */
  lemma WakeLevels(cores: seq<Core>, s: State, x: Id, m: Metric, s': State)
    requires Resumed(cores, s, x, m, s')
    ensures UpToDate(s', m, x) && s'.threads[x].runnable
    ensures (forall a :: a in s.threads ==> s'.threads[x].score <= s.threads[a].score)
    ensures exists a :: a in s.threads && s'.threads[x].score == s.threads[a].score
  {
    hide FreeCores;
  }

  // ----- over runs

  ghost predicate NeverWoken(states: seq<State>, events: seq<Event>, i: nat, x: Id)
    requires i <= |events| < |states|
  {
    forall j :: 0 <= j < i ==> !Wakes(states[j], events[j], x)
  }

  /** The score of a thread that was never woken is its metric as last read. */
  lemma {:induction false} NeverWokenScore(cores: seq<Core>, states: seq<State>, events: seq<Event>,
                                           metrics: seq<Metric>, i: nat, x: Id)
    requires IsRun(cores, states, events, metrics) && i <= |events| && NeverWoken(states, events, i, x)
    requires x in states[i].threads
    ensures states[i].threads[x].score == states[i].threads[x].metricLast
    decreases i
  {
    hide Step, Wakes;
    if i > 0 {
      var k := i - 1;
      var s, e, m := states[k], events[k], metrics[k];
      assert Step(cores, s, e, m, states[i]);
      if e == Start(x) {
        FreshScore(cores, s, x, m);
      } else {
        StepKeepsThreads(cores, s, e, m, states[i], x);
        NeverWokenScore(cores, states, events, metrics, k, x);
        StepKeepsBase(cores, s, e, m, states[i], x);
      }
    }
  }

  lemma FreshScore(cores: seq<Core>, s: State, x: Id, m: Metric)
    ensures Started(cores, s, x, m).threads[x].score == Started(cores, s, x, m).threads[x].metricLast
    ensures forall s' :: Step(cores, s, Start(x), m, s') ==> s' == Started(cores, s, x, m)
  {
  }

  /** Only a start brings in a thread. */
  lemma StepKeepsThreads(cores: seq<Core>, s: State, e: Event, m: Metric, s': State, x: Id)
    requires Step(cores, s, e, m, s') && x in s'.threads && e != Start(x)
    ensures x in s.threads
  {
    hide Rebalanced;
    if e.Periodic? { RebalanceKeepsThreads(cores, s, m, s'); }
  }

  lemma RebalanceKeepsThreads(cores: seq<Core>, s: State, m: Metric, s': State)
    requires Rebalanced(cores, s, m, s')
    ensures s'.threads.Keys == s.threads.Keys
  {
    var news, free := MovesOf(cores, s, m, s');
    hide Rebalanced, MovesTo;
    MovesKeepThreads(Scored(s, m), news, free, |news|, m, s');
  }

  lemma {:induction false} MovesKeepThreads(s: State, news: seq<Id>, free: seq<Core>, n: nat, m: Metric, s': State)
    requires n <= |news| && n <= |free| && MovesTo(s, news, free, n, m, s')
    ensures s'.threads.Keys == s.threads.Keys
    decreases n
  {
    hide Moved;
    if n > 0 {
      var k := n - 1;
      var id, core := news[k], free[k];
      var s1 :| MovesTo(s, news, free, k, m, s1) && Moved(s1, id, core, m, s');
      MovesKeepThreads(s, news, free, k, m, s1);
      MovedKeepsKeys(s1, id, core, m, s');
    }
  }
}
