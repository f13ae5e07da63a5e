/** The scheduler object and its thread objects. */
module SchedulerObjects {
  import opened Lists
  import opened Options
  import opened SchedulerModel

  class ThreadObject {
    var core: Option<Core>
    var runnable: bool
    var unscheduled: bool
    var score: int
    var metricLast: int

    constructor ()
      ensures Value() == NEW_THREAD
    {
      core := None;
      runnable := false;
      unscheduled := false;
      score := 0;
      metricLast := 0;
    }

    ghost function Value(): (t: Thread)
      reads this
    {
      Thread(core, runnable, unscheduled, score, metricLast)
    }

    method UpdateScore(now: int)
      modifies this`score, this`metricLast
      ensures Value() == SchedulerModel.UpdateScore(old(Value()), now)
    {
      score := score + (now - metricLast);
      metricLast := now;
    }

    method SetScore(score: int, now: int)
      modifies this`score, this`metricLast
      ensures Value() == SchedulerModel.SetScore(old(Value()), score, now)
    {
      this.score := score;
      metricLast := now;
    }

    method SetCore(core: Option<Core>, now: int)
      modifies this`core, this`score, this`metricLast
      ensures Value() == SchedulerModel.SetCore(old(Value()), core, now)
    {
      this.core := core;
      if core.None? {
        UpdateScore(now);
      }
    }
  }

  ghost predicate Ordered(r: seq<nat>, key: map<nat, int>)
  {
    (forall i :: 0 <= i < |r| ==> r[i] in key) && forall i, j :: 0 <= i < j < |r| ==> key[r[i]] <= key[r[j]]
  }

  lemma InsertAt(r: seq<nat>, k: nat, x: nat, key: map<nat, int>)
    requires Ordered(r, key) && x in key && x !in r && Distinct(r) && k <= |r|
    requires (forall i :: 0 <= i < k ==> key[r[i]] <= key[x]) && (forall i :: k <= i < |r| ==> key[x] <= key[r[i]])
    ensures var r' := r[..k] + [x] + r[k..]; Ordered(r', key) && Distinct(r')
  {
    var r' := r[..k] + [x] + r[k..];
    assert forall i :: 0 <= i < |r'| ==> r'[i] == if i < k then r[i] else if i == k then x else r[i - 1];
  }

  /** Insert x before the first element of greater key. */
  method Insert(r: seq<nat>, x: nat, key: map<nat, int>) returns (r': seq<nat>)
    requires Ordered(r, key) && x in key && x !in r && Distinct(r)
    ensures Ordered(r', key) && Distinct(r') && |r'| == |r| + 1 && forall y :: y in r' <==> y in r || y == x
  {
    var k := 0;
    while k < |r| && key[r[k]] <= key[x]
      invariant 0 <= k <= |r| && forall i :: 0 <= i < k ==> key[r[i]] <= key[x]
    {
      k := k + 1;
    }
    InsertAt(r, k, x, key);
    r' := r[..k] + [x] + r[k..];
    hide Ordered, Distinct;
    assert r == r[..k] + r[k..];
  }

  method SortBy(ids: set<nat>, key: map<nat, int>) returns (r: seq<nat>)
    requires ids <= key.Keys
    ensures Ordered(r, key) && Distinct(r) && |r| == |ids| && forall y :: y in r <==> y in ids
  {
    var list := Listed(ids);
    r := [];
    for i := 0 to |list|
      invariant Ordered(r, key) && Distinct(r) && |r| == i && forall y :: y in r <==> y in list[..i]
    {
      r := Insert(r, list[i], key);
    }
  }

  /** The first of the ids in order of their keys. */
  method First(ids: set<nat>, key: map<nat, int>) returns (p: nat)
    requires ids != {} && ids <= key.Keys
    ensures p in ids && forall q :: q in ids ==> key[p] <= key[q]
  {
    var order := SortBy(ids, key);
    p := order[0];
    forall q | q in ids ensures key[p] <= key[q] {
      var i :| 0 <= i < |order| && order[i] == q;
    }
  }

  lemma FirstTakes(s: State, core: Option<Core>, m: Metric, p: Id, s': State)
    requires p in Waiting(s) && forall q :: q in Waiting(s) ==> s.threads[p].score <= s.threads[q].score
    requires s' == s.(threads := s.threads[p := SchedulerModel.SetCore(s.threads[p], core, m(p))])
    ensures HandedOver(s, core, m, s')
  {
    hide SchedulerModel.SetCore;
  }

  lemma NobodyTakes(s: State, core: Option<Core>, m: Metric)
    requires Waiting(s) == {}
    ensures HandedOver(s, core, m, s)
  {
  }

  class Scheduler {
    const cores: seq<Core>
    var threads: map<Id, ThreadObject>
    var lastCore: nat

    constructor (cores: seq<Core>)
      requires Distinct(cores)
      ensures this.cores == cores && Valid() && View() == State(map[], 0)
    {
      this.cores := cores;
      threads := map[];
      lastCore := 0;
    }

    ghost predicate Valid()
      reads this`threads
    {
      forall a, b :: a in threads && b in threads && a != b ==> threads[a] != threads[b]
    }

    ghost function View(): (s: State)
      reads this`threads, this`lastCore, threads.Values
      ensures s.threads.Keys == threads.Keys && s.lastCore == lastCore
    {
      State(map id | id in threads :: threads[id].Value(), lastCore)
    }

    // Each of the following changes one thread of the view.

    method SetCore(id: Id, core: Option<Core>, m: Metric)
      requires Valid() && id in threads
      modifies threads[id]
      ensures View() == old(View()).(
        threads := old(View()).threads[id := SchedulerModel.SetCore(old(View()).threads[id], core, m(id))])
    {
      threads[id].SetCore(core, m(id));
    }

    method SetRunnable(id: Id, runnable: bool)
      requires Valid() && id in threads
      modifies threads[id]
      ensures View() == old(View()).(
        threads := old(View()).threads[id := old(View()).threads[id].(runnable := runnable)])
    {
      threads[id].runnable := runnable;
    }

    method SetUnscheduled(id: Id, unscheduled: bool)
      requires Valid() && id in threads
      modifies threads[id]
      ensures View() == old(View()).(
        threads := old(View()).threads[id := old(View()).threads[id].(unscheduled := unscheduled)])
    {
      threads[id].unscheduled := unscheduled;
    }

    method SetScore(id: Id, score: int, m: Metric)
      requires Valid() && id in threads
      modifies threads[id]
      ensures View() == old(View()).(
        threads := old(View()).threads[id := SchedulerModel.SetScore(old(View()).threads[id], score, m(id))])
    {
      threads[id].SetScore(score, m(id));
    }

    method UpdateScore(id: Id, m: Metric)
      requires Valid() && id in threads
      modifies threads[id]
      ensures View() == old(View()).(
        threads := old(View()).threads[id := SchedulerModel.UpdateScore(old(View()).threads[id], m(id))])
    {
      threads[id].UpdateScore(m(id));
    }

    method Enter(id: Id, t: ThreadObject)
      requires Valid() && t !in threads.Values
      modifies this`threads
      ensures Valid() && threads == old(threads)[id := t]
      ensures View() == old(View()).(threads := old(View()).threads[id := t.Value()])
    {
      threads := threads[id := t];
    }

    /** Enter a new, runnable thread. */
    method AddThread(id: Id)
      requires Valid()
      modifies this`threads
      ensures Valid() && id in threads && fresh(threads[id]) && fresh(threads.Values - old(threads.Values))
      ensures View() == old(View()).(threads := old(View()).threads[id := NEW_THREAD.(runnable := true)])
    {
      hide View, Valid;
      var t := new ThreadObject();
      t.runnable := true;
      Enter(id, t);
    }

    // Each of the following reads off the view.

    method CoreOf(id: Id) returns (core: Option<Core>)
      requires id in threads
      ensures core == View().threads[id].core
    {
      core := threads[id].core;
    }

    method IsUnscheduled(id: Id) returns (u: bool)
      requires id in threads
      ensures u == View().threads[id].unscheduled
    {
      u := threads[id].unscheduled;
    }

    method RunnableIds() returns (r: set<Id>)
      ensures r == Runnable(View())
    {
      r := set id | id in threads && threads[id].runnable;
    }

    method WaitingIds() returns (w: set<Id>)
      ensures w == Waiting(View())
    {
      w := set id | id in threads && threads[id].runnable && threads[id].core.None?;
    }

    method Scores() returns (key: map<Id, int>)
      ensures key.Keys == View().threads.Keys && forall id :: id in key ==> key[id] == View().threads[id].score
    {
      key := map id | id in threads :: threads[id].score;
    }

    method CoresInUse(ids: set<Id>) returns (used: set<Core>)
      ensures used == CoresOf(View(), ids)
    {
      used := set id | id in ids && id in threads && threads[id].core.Some? :: threads[id].core.value;
    }

    method ThreadsOn(core: Core) returns (on: set<Id>)
      ensures on == set id | id in View().threads && View().threads[id].core == Some(core)
    {
      on := set id | id in threads && threads[id].core == Some(core);
    }

    method CountCore()
      modifies this`lastCore
      ensures View() == old(View()).(lastCore := old(View()).lastCore + 1)
    {
      lastCore := lastCore + 1;
    }

    // ----- the hooks

    method ThreadStart(id: Id, m: Metric)
      requires Valid()
      modifies this, threads.Values
      ensures Valid() && fresh(threads.Values - old(threads.Values))
      ensures Step(cores, old(View()), Start(id), m, View())
    {
      hide View, Valid;
      AddThread(id);
      var core := if lastCore < |cores| then Some(cores[lastCore]) else None;
      SetCore(id, core, m);
      OverwriteTwice(old(View()).threads, id, NEW_THREAD.(runnable := true),
                     SchedulerModel.SetCore(NEW_THREAD.(runnable := true), core, m(id)));
      if core.Some? {
        CountCore();
      }
    }

    /** Stall and exit; a stall because the thread was scheduled out only sets a flag. */
    method ThreadStall(id: Id, unscheduled: bool, m: Metric)
      requires Valid() && id in threads
      modifies threads.Values
      ensures Step(cores, old(View()), Stall(id, unscheduled), m, View())
    {
      hide View, HandedOver;
      if unscheduled {
        SetUnscheduled(id, true);
      } else {
        var core := CoreOf(id);
        SetCore(id, None, m);
        SetRunnable(id, false);
        assert View() == Parked(old(View()), id, m);
        HandOver(core, m);
      }
    }

    /** Give the core to a waiting thread of least score, if any thread is waiting. */
    method HandOver(core: Option<Core>, m: Metric)
      requires Valid()
      modifies threads.Values
      ensures HandedOver(old(View()), core, m, View())
    {
      hide View, HandedOver, SchedulerModel.SetCore;
      var waiting := WaitingIds();
      if waiting != {} {
        var key := Scores();
        var p := First(waiting, key);
        SetCore(p, core, m);
        FirstTakes(old(View()), core, m, p, View());
      } else {
        NobodyTakes(View(), core, m);
      }
    }

    method MinScore() returns (score: int)
      requires threads.Keys != {}
      ensures IsMinScore(View(), score)
    {
      hide View;
      var key := Scores();
      var p := First(key.Keys, key);
      score := key[p];
      assert View().threads[p].score == score;
    }

    /** The thread gets the least score of all and becomes runnable. */
    method Wake(id: Id, m: Metric)
      requires Valid() && id in threads
      modifies threads.Values
      ensures Valid() && exists score :: IsMinScore(old(View()), score) && View() == Woken(old(View()), id, score, m)
    {
      hide View, IsMinScore;
      var score := MinScore();
      SetScore(id, score, m);
      SetRunnable(id, true);
      assert View() == Woken(old(View()), id, score, m);
    }

    /** It takes a core that no thread uses, if there is one. */
    method TakeFreeCore(id: Id, m: Metric)
      requires Valid() && id in threads
      modifies threads.Values
      ensures TookFreeCore(cores, old(View()), id, View())
    {
      hide View;
      var used := CoresInUse(threads.Keys);
      var free := (set c | c in cores) - used;
      assert free == FreeCores(cores, View());
      hide FreeCores;
      if free != {} {
        var c :| c in free;
        SetCore(id, Some(c), m);
      }
    }

    method ThreadResume(id: Id, m: Metric)
      requires Valid() && id in threads
      modifies threads.Values
      ensures Step(cores, old(View()), Resume(id), m, View())
    {
      hide View, IsMinScore, TookFreeCore, Woken;
      var flag := IsUnscheduled(id);
      if flag {
        SetUnscheduled(id, false);
      } else {
        Wake(id, m);
        TakeFreeCore(id, m);
      }
    }

    // ----- the periodic rebalance

    /** Bring the scores of running threads up to date. */
    method RefreshScores(m: Metric)
      requires Valid()
      modifies threads.Values
      ensures View() == Scored(old(View()), m)
    {
      hide View;
      ghost var s := View();
      var todo := threads.Keys;
      while todo != {}
        invariant todo <= threads.Keys && View().threads.Keys == s.threads.Keys && View().lastCore == s.lastCore
        invariant forall id :: id in s.threads ==>
                    View().threads[id] == if id in todo then s.threads[id] else Scored(s, m).threads[id]
        decreases todo
      {
        var id :| id in todo;
        var core := CoreOf(id);
        if core.Some? {
          UpdateScore(id, m);
        }
        todo := todo - {id};
      }
      assert View().threads == Scored(s, m).threads;
    }

    /** As many runnable threads as there are cores, in order of their scores. */
    method Choose() returns (sel: seq<Id>)
      requires Distinct(cores)
      ensures Distinct(sel) && |sel| <= |cores| && Selection(cores, View(), CoreSet(sel)) && ByScore(View(), sel)
    {
      hide View;
      var runnable := RunnableIds();
      var key := Scores();
      var order := SortBy(runnable, key);
      var n := SchedulerModel.Min(|order|, |cores|);
      sel := order[..n];
      ChosenFirst(cores, View(), order, key, n);
    }

    /** The chosen threads that have no core yet, in order. */
    method Newcomers(sel: seq<Id>) returns (news: seq<Id>)
      requires Distinct(sel) && ByScore(View(), sel)
      ensures Distinct(news) && forall id :: id in news <==> id in sel && View().threads[id].core.None?
      ensures ByScore(View(), news)
    {
      hide View;
      news := [];
      for i := 0 to |sel|
        invariant Distinct(news) && forall id :: id in news <==> id in sel[..i] && View().threads[id].core.None?
        invariant ByScore(View(), news)
      {
        forall k | 0 <= k < |news| ensures View().threads[news[k]].score <= View().threads[sel[i]].score {
          assert news[k] in sel[..i];
        }
        var core := CoreOf(sel[i]);
        assert sel[i] !in sel[..i];
        assert sel[..i + 1] == sel[..i] + [sel[i]];
        if core.None? {
          news := news + [sel[i]];
        }
      }
      assert sel[..|sel|] == sel;
    }

    /** Move a thread to a core, putting out the thread that runs there. */
    method Move(id: Id, core: Core, m: Metric)
      requires Valid() && id in threads
      modifies threads.Values
      ensures Moved(old(View()), id, core, m, View())
    {
      hide View;
      var on := ThreadsOn(core);
      if on != {} {
        var t :| t in on;
        SetCore(t, None, m);
      }
      SetCore(id, Some(core), m);
    }

    /** Hand the free cores, in increasing order, to the newcomers. */
    method MoveAll(news: seq<Id>, free: seq<Core>, m: Metric)
      requires Valid() && |news| <= |free| && forall id :: id in news ==> id in threads
      modifies threads.Values
      ensures MovesTo(old(View()), news, free, |news|, m, View())
    {
      hide View, Moved, Valid, MovesTo;
      ghost var s := View();
      NothingMoved(s, news, free, m);
      for i := 0 to |news|
        invariant View().threads.Keys == s.threads.Keys && MovesTo(s, news, free, i, m, View())
      {
        ghost var before := View();
        Move(news[i], free[i], m);
        MovedKeepsKeys(before, news[i], free[i], m, View());
        OneMoved(s, news, free, i, m, before, View());
      }
    }

    /** Keep the chosen threads that run, and move the others to free cores. */
    method PlaceChosen(sel: seq<Id>, m: Metric)
      requires Valid() && Distinct(cores) && Distinct(sel) && |sel| <= |cores| && ByScore(View(), sel)
      modifies threads.Values
      ensures exists news, free ::
                Turn(cores, old(View()), CoreSet(sel), news, free)
                    && MovesTo(old(View()), news, free, |news|, m, View())
    {
      hide View, CoresOf, MovesTo, Turn, CoreSet, KeptCores;
      ghost var s := View();
      var news := Newcomers(sel);
      var used := CoresInUse(CoreSet(sel));
      var free := CoreSet(cores) - used;
      EnoughFreeCores(cores, s, sel, news, free);
      assert |free| >= |news|;
      var key := map c | c in free :: c;
      var sorted := SortBy(free, key);
      SortedAscends(sorted, key);
      TurnHolds(cores, s, sel, news, sorted);
      MoveAll(news, sorted, m);
    }

    /** The periodic callback, from any state. */
    method Rebalance(m: Metric)
      requires Valid() && Distinct(cores)
      modifies threads.Values
      ensures Step(cores, old(View()), Periodic, m, View())
    {
      hide View, Selection, Scored, MovesTo, Turn;
      RefreshScores(m);
      ghost var s := View();
      var sel := Choose();
      SelectionIsRunnable(cores, s, CoreSet(sel));
      PlaceChosen(sel, m);
    }
  }

  lemma NothingMoved(s: State, news: seq<Id>, free: seq<Core>, m: Metric)
    ensures MovesTo(s, news, free, 0, m, s)
  {
  }

  lemma OneMoved(s: State, news: seq<Id>, free: seq<Core>, i: nat, m: Metric, s1: State, s': State)
    requires i < |news| && i < |free| && MovesTo(s, news, free, i, m, s1) && Moved(s1, news[i], free[i], m, s')
    ensures MovesTo(s, news, free, i + 1, m, s')
  {
    hide Moved;
  }

  lemma SortedAscends(r: seq<Core>, key: map<nat, int>)
    requires Ordered(r, key) && Distinct(r) && forall c :: c in key ==> key[c] == c
    ensures Ascending(r)
  {
  }

  lemma TurnHolds(cores: seq<Core>, s: State, sel: seq<Id>, news: seq<Id>, free: seq<Core>)
    requires Distinct(news) && Distinct(free) && |news| <= |free| && ByScore(s, news) && Ascending(free)
    requires forall id :: id in sel ==> id in s.threads
    requires forall id :: id in news <==> id in sel && s.threads[id].core.None?
    requires forall c :: c in free <==> c in CoreSet(cores) - CoresOf(s, CoreSet(sel))
    ensures Turn(cores, s, CoreSet(sel), news, free)
  {
    hide Distinct, ByScore, Ascending;
    assert KeptCores(s, CoreSet(sel)) == CoresOf(s, CoreSet(sel));
  }

  lemma OverwriteTwice(t: map<Id, Thread>, id: Id, a: Thread, b: Thread)
    ensures t[id := a][id := b] == t[id := b]
  {
  }

  lemma ChosenFirst(cores: seq<Core>, s: State, order: seq<Id>, key: map<Id, int>, n: nat)
    requires Ordered(order, key) && Distinct(order) && (forall id :: id in order <==> id in Runnable(s))
    requires |order| == |Runnable(s)| && n == SchedulerModel.Min(|order|, |cores|)
    requires key.Keys == s.threads.Keys && forall id :: id in key ==> key[id] == s.threads[id].score
    ensures Distinct(order[..n]) && Selection(cores, s, CoreSet(order[..n])) && ByScore(s, order[..n])
  {
    var sel := CoreSet(order[..n]);
    DistinctSize(order[..n]);
    forall a, b | a in sel && b in Runnable(s) && b !in sel ensures s.threads[a].score <= s.threads[b].score {
      var i :| 0 <= i < n && order[i] == a;
      var j :| 0 <= j < |order| && order[j] == b;
      assert forall k :: 0 <= k < n ==> order[..n][k] == order[k];
    }
  }

  lemma SelectionIsRunnable(cores: seq<Core>, s: State, sel: set<Id>)
    requires Selection(cores, s, sel)
    ensures sel <= Runnable(s) && forall id :: id in sel ==> id in s.threads
  {
  }

  /** The source's first assertion: there is a free core for every newcomer, safe state or not. */
  lemma EnoughFreeCores(cores: seq<Core>, s: State, sel: seq<Id>, news: seq<Id>, free: set<Core>)
    requires Distinct(cores) && Distinct(sel) && Distinct(news) && |sel| <= |cores|
    requires forall id :: id in sel ==> id in s.threads
    requires forall id :: id in news <==> id in sel && s.threads[id].core.None?
    requires free == CoreSet(cores) - CoresOf(s, CoreSet(sel))
    ensures |free| >= |news|
  {
    DistinctSize(cores);
    DistinctSize(sel);
    DistinctSize(news);
    var kept := CoreSet(sel) - CoreSet(news);
    CoresAtMost(s, kept);
    assert CoresOf(s, CoreSet(sel)) == CoresOf(s, kept);
    assert CoreSet(news) <= CoreSet(sel);
    assert |kept| == |sel| - |news|;
    assert |CoreSet(cores) - CoresOf(s, kept)| >= |CoreSet(cores)| - |CoresOf(s, kept)|;
  }
}
