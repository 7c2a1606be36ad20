/**
 What every tick and every evaluation of the scheduler gets done, and why waiting ends:
 once the context is cancelled, whatever is under way can run to its end.
 */
module Drains {
  import opened Options
  import opened Schedulers

  // ---- What a run has to have done ----

  /** The loop is still in the tick whose snapshot had the name, and has not come to it. */
  ghost predicate Awaits(task: Task, n: string) {
    match task
    case Ticking(due) => n in due
    case Claimed(_, due) => n in due
    case Added(_, due) => n in due
    case _ => false
  }

  lemma StillAwaits(s: Sys, e: Event, t: nat, n: string)
    requires Enabled(s, e) && t in s.tasks && Awaits(s.tasks[t], n)
    ensures var s' := Apply(s, e); t in s'.tasks && (Awaits(s'.tasks[t], n) || n in s'.inflight)
  {
    if e.Claim? && e.t == t {
      var due := s.tasks[t].due;
      assert due == [due[0]] + due[1..];
    }
  }

  /** The name is in flight after some of the run's steps. */
  ghost predicate SometimeInFlight(s: Sys, run: seq<Event>, n: string)
    requires ValidRun(s, run)
    decreases |run|
  {
    n in s.inflight || (run != [] && SometimeInFlight(Apply(s, run[0]), run[1..], n))
  }

  /** No due alert is passed over: by the time the loop is past it, it was in flight, claimed by this tick or before. */
  lemma {:induction false} NoneIsPassedOver(s: Sys, run: seq<Event>, t: nat, n: string)
    requires ValidRun(s, run) && t in s.tasks && Awaits(s.tasks[t], n)
    ensures t in Final(s, run).tasks
    ensures Awaits(Final(s, run).tasks[t], n) || SometimeInFlight(s, run, n)
    decreases |run|
  {
    if run != [] {
      StillAwaits(s, run[0], t, n);
      var s' := Apply(s, run[0]);
      if Awaits(s'.tasks[t], n) {
        NoneIsPassedOver(s', run[1..], t, n);
      } else {
        TasksStay(s', run[1..], t);
      }
    }
  }

  lemma {:induction false} TasksStay(s: Sys, run: seq<Event>, t: nat)
    requires ValidRun(s, run) && t in s.tasks
    ensures t in Final(s, run).tasks
    decreases |run|
  {
    if run != [] {
      TasksStay(Apply(s, run[0]), run[1..], t);
    }
  }

  /** An alert's claim is released only after its evaluation has finished. */
  lemma {:induction false} ReleasedIsFinished(s: Sys, run: seq<Event>, t: nat)
    requires ValidRun(s, run) && t in s.tasks && s.tasks[t].Running?
    ensures t in Final(s, run).tasks
    ensures Final(s, run).tasks[t] == s.tasks[t] || Finish(t) in run
    decreases |run|
  {
    TasksStay(s, run, t);
    if run != [] && run[0] != Finish(t) {
      assert Apply(s, run[0]).tasks[t] == s.tasks[t];
      ReleasedIsFinished(Apply(s, run[0]), run[1..], t);
    }
  }

  ghost predicate Looping(task: Task) {
    task.Idle? || task.Ticking? || task.Claimed? || task.Added?
  }

  /** A loop goes on until the context is cancelled, and a cancelled context stays so. */
  lemma {:induction false} LeavesWhenCancelled(s: Sys, run: seq<Event>, t: nat)
    requires ValidRun(s, run) && t in s.tasks && Looping(s.tasks[t])
    ensures t in Final(s, run).tasks && (Looping(Final(s, run).tasks[t]) || Final(s, run).cancelled)
    decreases |run|
  {
    if run != [] {
      var s' := Apply(s, run[0]);
      if Looping(s'.tasks[t]) {
        LeavesWhenCancelled(s', run[1..], t);
      } else {
        StaysCancelled(s', run[1..]);
        TasksStay(s', run[1..], t);
      }
    }
  }

  lemma {:induction false} StaysCancelled(s: Sys, run: seq<Event>)
    requires ValidRun(s, run) && s.cancelled
    ensures Final(s, run).cancelled
    decreases |run|
  {
    if run != [] {
      StaysCancelled(Apply(s, run[0]), run[1..]);
    }
  }

  // ---- Waiting ends ----

  /** The run starts nothing new: no loop, and no tick. */
  ghost predicate Settling(run: seq<Event>) {
    forall i :: 0 <= i < |run| ==> !run[i].Start? && !run[i].Tick?
  }

  ghost predicate Reaches(s: Sys, s': Sys) {
    exists run :: ValidRun(s, run) && Settling(run) && Final(s, run) == s'
  }

  lemma StaysHere(s: Sys)
    ensures Reaches(s, s)
  {
    assert ValidRun(s, []) && Settling([]) && Final(s, []) == s;
  }

  lemma StepFirst(s: Sys, e: Event, s': Sys)
    requires Enabled(s, e) && !e.Start? && !e.Tick? && Reaches(Apply(s, e), s')
    ensures Reaches(s, s')
  {
    var run :| ValidRun(Apply(s, e), run) && Settling(run) && Final(Apply(s, e), run) == s';
    var whole := [e] + run;
    assert whole[0] == e && whole[1..] == run;
    assert Settling(whole);
    assert ValidRun(s, whole) && Final(s, whole) == s';
  }

  lemma {:induction false} Joined(s: Sys, a: seq<Event>, b: seq<Event>)
    requires ValidRun(s, a) && ValidRun(Final(s, a), b)
    ensures ValidRun(s, a + b) && Final(s, a + b) == Final(Final(s, a), b)
    decreases |a|
  {
    if a == [] {
      assert a + b == b;
    } else {
      assert (a + b)[0] == a[0] && (a + b)[1..] == a[1..] + b;
      Joined(Apply(s, a[0]), a[1..], b);
    }
  }

  lemma Further(s: Sys, m: Sys, s': Sys)
    requires Reaches(s, m) && Reaches(m, s')
    ensures Reaches(s, s')
  {
    var a :| ValidRun(s, a) && Settling(a) && Final(s, a) == m;
    var b :| ValidRun(m, b) && Settling(b) && Final(m, b) == s';
    Joined(s, a, b);
    assert Settling(a + b);
  }

  lemma ReachesInv(s: Sys, s': Sys)
    requires Inv(s) && Reaches(s, s')
    ensures Inv(s')
  {
    var run :| ValidRun(s, run) && Settling(run) && Final(s, run) == s';
    RunsExclude(s, run);
  }

  /** `s'` is `s` with task `t` gone; whatever was started on the way is gone too. */
  ghost predicate Gone(s: Sys, s': Sys, t: nat) {
    && s'.cancelled == s.cancelled && t in s'.tasks && s'.tasks[t].Gone?
    && (forall u :: u in s.tasks && u != t ==> u in s'.tasks && s'.tasks[u] == s.tasks[u])
    && (forall u :: u in s'.tasks && u !in s.tasks ==> s'.tasks[u].Gone?)
  }

  lemma ReleasedEnds(s: Sys, t: nat) returns (s': Sys)
    requires t in s.tasks && s.tasks[t].Released?
    ensures Reaches(s, s') && Gone(s, s', t)
  {
    s' := Apply(s, EvalDone(t));
    StaysHere(s');
    StepFirst(s, EvalDone(t), s');
  }

  lemma EvaluatedEnds(s: Sys, t: nat) returns (s': Sys)
    requires t in s.tasks && s.tasks[t].Evaluated?
    ensures Reaches(s, s') && Gone(s, s', t)
  {
    s' := ReleasedEnds(Apply(s, Release(t)), t);
    StepFirst(s, Release(t), s');
  }

  lemma RunningEnds(s: Sys, t: nat) returns (s': Sys)
    requires t in s.tasks && s.tasks[t].Running?
    ensures Reaches(s, s') && Gone(s, s', t)
  {
    s' := EvaluatedEnds(Apply(s, Finish(t)), t);
    StepFirst(s, Finish(t), s');
  }

  lemma IdleEnds(s: Sys, t: nat) returns (s': Sys)
    requires t in s.tasks && (s.tasks[t].Idle? || s.tasks[t].Leaving?) && s.cancelled
    ensures Reaches(s, s') && Gone(s, s', t)
  {
    var m := if s.tasks[t].Idle? then Apply(s, Exit(t)) else s;
    s' := Apply(m, LoopDone(t));
    StaysHere(s');
    StepFirst(m, LoopDone(t), s');
    if s.tasks[t].Idle? {
      StepFirst(s, Exit(t), s');
    }
  }

  lemma Fresh(tasks: map<nat, Task>) returns (n: nat)
    ensures n !in tasks
  {
    n := Above(tasks.Keys);
    assert forall k :: k in tasks ==> k in tasks.Keys;
  }

  lemma {:induction false} Above(taken: set<nat>) returns (n: nat)
    ensures forall m :: m in taken ==> m < n
  {
    n := 0;
    if taken != {} {
      var last :| last in taken;
      var k := Above(taken - {last});
      n := if last < k then k else last + 1;
      forall m | m in taken
        ensures m < n
      {
        assert m == last || m in taken - {last};
      }
    }
  }

  /** Two goings, one after the other, of a task made on the way and of the one that made it. */
  lemma BothGone(s: Sys, m: Sys, m': Sys, s': Sys, t: nat, child: nat)
    requires child !in s.tasks && t in s.tasks && t != child
    requires m.cancelled == s.cancelled && m.tasks.Keys == s.tasks.Keys + {child}
    requires forall u :: u in s.tasks && u != t ==> u in m.tasks && m.tasks[u] == s.tasks[u]
    requires Gone(m, m', child) && Gone(m', s', t)
    ensures Gone(s, s', t)
  {
  }

  /** The steps of its own a loop has before it is idle again, at most. */
  ghost function Ahead(task: Task): nat {
    match task
    case Ticking(due) => 3 * |due|
    case Claimed(_, due) => 3 * |due| + 2
    case Added(_, due) => 3 * |due| + 1
    case _ => 0
  }

  lemma {:induction false} LoopEnds(s: Sys, t: nat) returns (s': Sys)
    requires t in s.tasks && Looping(s.tasks[t]) && s.cancelled
    ensures Reaches(s, s') && Gone(s, s', t)
    decreases Ahead(s.tasks[t]), 1
  {
    match s.tasks[t]
    case Idle => s' := IdleEnds(s, t);
    case Ticking(due) =>
      if due == [] {
        s' := IdleEnds(Apply(s, EndTick(t)), t);
        StepFirst(s, EndTick(t), s');
      } else {
        s' := LoopEnds(Apply(s, Claim(t)), t);
        StepFirst(s, Claim(t), s');
      }
    case Claimed(_, _) =>
      s' := AddedEnds(Apply(s, Add(t)), t);
      StepFirst(s, Add(t), s');
    case Added(_, _) => s' := AddedEnds(s, t);
  }

  lemma {:induction false} AddedEnds(s: Sys, t: nat) returns (s': Sys)
    requires t in s.tasks && s.tasks[t].Added? && s.cancelled
    ensures Reaches(s, s') && Gone(s, s', t)
    decreases Ahead(s.tasks[t]), 0
  {
    var child := Fresh(s.tasks);
    var m := Apply(s, Spawn(t, child));
    var m' := RunningEnds(m, child);
    s' := LoopEnds(m', t);
    Further(m, m', s');
    StepFirst(s, Spawn(t, child), s');
    BothGone(s, m, m', s', t, child);
  }

  lemma TaskEnds(s: Sys, t: nat) returns (s': Sys)
    requires t in s.tasks && s.cancelled
    ensures Reaches(s, s') && Gone(s, s', t)
  {
    if Looping(s.tasks[t]) {
      s' := LoopEnds(s, t);
    } else if s.tasks[t].Leaving? {
      s' := IdleEnds(s, t);
    } else if s.tasks[t].Running? {
      s' := RunningEnds(s, t);
    } else if s.tasks[t].Evaluated? {
      s' := EvaluatedEnds(s, t);
    } else if s.tasks[t].Released? {
      s' := ReleasedEnds(s, t);
    } else {
      s' := s;
      StaysHere(s);
    }
  }

  lemma {:induction false} AllEnd(s: Sys) returns (s': Sys)
    requires s.cancelled
    ensures Reaches(s, s') && forall t :: t in s'.tasks ==> s'.tasks[t].Gone?
    decreases |Live(s.tasks)|
  {
    if t :| t in Live(s.tasks) {
      var m := TaskEnds(s, t);
      assert Live(m.tasks) == Live(s.tasks) - {t};
      s' := AllEnd(m);
      Further(s, m, s');
    } else {
      s' := s;
      StaysHere(s);
      assert Live(s.tasks) == {};
    }
  }

  /** Waiting ends: from every state a scheduler comes to, cancelling lets everything under way run out. */
  lemma WaitCanReturn(s: Sys) returns (s': Sys)
    requires Inv(s)
    ensures Reaches(s, s') && s'.count == 0 && s'.inflight == {}
  {
    var m := Apply(s, Cancel);
    s' := AllEnd(m);
    StepFirst(s, Cancel, s');
    ReachesInv(s, s');
    DrainedMeansZero(s');
    ZeroMeansDrained(s');
  }
}
