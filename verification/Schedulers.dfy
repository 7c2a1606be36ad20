/**
 The alert scheduler's concurrency: ticking loops claim due alerts and hand each to
 an evaluation, under one mutex and one wait count. A step is one access to the
 claim set, one change of the wait count, or one local move of a goroutine.
 */
module Schedulers {
  import opened Options

  /**
   A goroutine: a loop (`Idle` to `Leaving`) or an evaluation (`Running` to
   `Released`). `due` is what the tick's snapshot of the alerts has left.
   */
  datatype Task =
    | Idle
    | Ticking(due: seq<string>)
    | Claimed(name: string, due: seq<string>)
    | Added(name: string, due: seq<string>)
    | Leaving
    | Running(name: string)
    | Evaluated(name: string)
    | Released
    | Gone

  datatype Sys = Sys(tasks: map<nat, Task>, inflight: set<string>, count: int, cancelled: bool)

  datatype Event =
    | Start(t: nat)
    | Cancel
    | Tick(t: nat, due: seq<string>)
    | Claim(t: nat)
    | Add(t: nat)
    | Spawn(t: nat, child: nat)
    | EndTick(t: nat)
    | Exit(t: nat)
    | LoopDone(t: nat)
    | Finish(t: nat)
    | Release(t: nat)
    | EvalDone(t: nat)

  ghost predicate Enabled(s: Sys, e: Event) {
    match e
    case Start(t) => t !in s.tasks
    case Cancel => true
    case Tick(t, due) => t in s.tasks && s.tasks[t].Idle?
    case Claim(t) => t in s.tasks && s.tasks[t].Ticking? && s.tasks[t].due != []
    case Add(t) => t in s.tasks && s.tasks[t].Claimed?
    case Spawn(t, child) => t in s.tasks && s.tasks[t].Added? && child !in s.tasks
    case EndTick(t) => t in s.tasks && s.tasks[t].Ticking? && s.tasks[t].due == []
    case Exit(t) => t in s.tasks && s.tasks[t].Idle? && s.cancelled
    case LoopDone(t) => t in s.tasks && s.tasks[t].Leaving?
    case Finish(t) => t in s.tasks && s.tasks[t].Running?
    case Release(t) => t in s.tasks && s.tasks[t].Evaluated?
    case EvalDone(t) => t in s.tasks && s.tasks[t].Released?
  }

  ghost function Goes(s: Sys, t: nat, task: Task): Sys {
    s.(tasks := s.tasks[t := task])
  }

  ghost function Apply(s: Sys, e: Event): Sys
    requires Enabled(s, e)
  {
    match e
    case Start(t) => Goes(s.(count := s.count + 1), t, Idle)
    case Cancel => s.(cancelled := true)
    case Tick(t, due) => Goes(s, t, Ticking(due))
    case Claim(t) =>
      var due := s.tasks[t].due;
      if due[0] in s.inflight then Goes(s, t, Ticking(due[1..]))
      else Goes(s.(inflight := s.inflight + {due[0]}), t, Claimed(due[0], due[1..]))
    case Add(t) => Goes(s.(count := s.count + 1), t, Added(s.tasks[t].name, s.tasks[t].due))
    case Spawn(t, child) => Goes(Goes(s, t, Ticking(s.tasks[t].due)), child, Running(s.tasks[t].name))
    case EndTick(t) => Goes(s, t, Idle)
    case Exit(t) => Goes(s, t, Leaving)
    case LoopDone(t) => Goes(s.(count := s.count - 1), t, Gone)
    case Finish(t) => Goes(s, t, Evaluated(s.tasks[t].name))
    case Release(t) => Goes(s.(inflight := s.inflight - {s.tasks[t].name}), t, Released)
    case EvalDone(t) => Goes(s.(count := s.count - 1), t, Gone)
  }

  ghost predicate ValidRun(s: Sys, run: seq<Event>)
    decreases |run|
  {
    run == [] || (Enabled(s, run[0]) && ValidRun(Apply(s, run[0]), run[1..]))
  }

  ghost function Final(s: Sys, run: seq<Event>): Sys
    requires ValidRun(s, run)
    decreases |run|
  {
    if run == [] then s else Final(Apply(s, run[0]), run[1..])
  }

  const INITIAL := Sys(map[], {}, 0, false)

  // ---- Exclusion ----

  /** The alert a goroutine holds, from the claim to the release. */
  ghost function Holds(task: Task): Option<string> {
    match task
    case Claimed(name, _) => Some(name)
    case Added(name, _) => Some(name)
    case Running(name) => Some(name)
    case Evaluated(name) => Some(name)
    case _ => None
  }

  /** A name is in flight exactly when one goroutine holds it. */
  ghost predicate Exclusive(tasks: map<nat, Task>, inflight: set<string>) {
    && (forall t :: t in tasks && Holds(tasks[t]).Some? ==> Holds(tasks[t]).value in inflight)
    && (forall n :: n in inflight ==> exists t :: t in tasks && Holds(tasks[t]) == Some(n))
    && (forall t, u :: t in tasks && u in tasks && Holds(tasks[t]).Some? && Holds(tasks[t]) == Holds(tasks[u]) ==>
       t == u)
  }

  lemma HoldsTheSame(tasks: map<nat, Task>, inflight: set<string>, t: nat, task: Task)
    requires Exclusive(tasks, inflight)
    requires Holds(task) == if t in tasks then Holds(tasks[t]) else None
    ensures Exclusive(tasks[t := task], inflight)
  {
    var next := tasks[t := task];
    forall n | n in inflight
      ensures exists u :: u in next && Holds(next[u]) == Some(n)
    {
      var u :| u in tasks && Holds(tasks[u]) == Some(n);
      assert Holds(next[u]) == Some(n);
    }
  }

  lemma Takes(tasks: map<nat, Task>, inflight: set<string>, t: nat, task: Task)
    requires Exclusive(tasks, inflight) && t in tasks && Holds(tasks[t]).None?
    requires Holds(task).Some? && Holds(task).value !in inflight
    ensures Exclusive(tasks[t := task], inflight + {Holds(task).value})
  {
    var next := tasks[t := task];
    forall n | n in inflight + {Holds(task).value}
      ensures exists u :: u in next && Holds(next[u]) == Some(n)
    {
      if n in inflight {
        var u :| u in tasks && Holds(tasks[u]) == Some(n);
        assert Holds(next[u]) == Some(n);
      } else {
        assert Holds(next[t]) == Some(n);
      }
    }
  }

  lemma Gives(tasks: map<nat, Task>, inflight: set<string>, t: nat, task: Task)
    requires Exclusive(tasks, inflight) && t in tasks && Holds(tasks[t]).Some? && Holds(task).None?
    ensures Exclusive(tasks[t := task], inflight - {Holds(tasks[t]).value})
  {
    var next := tasks[t := task];
    forall n | n in inflight - {Holds(tasks[t]).value}
      ensures exists u :: u in next && Holds(next[u]) == Some(n)
    {
      var u :| u in tasks && Holds(tasks[u]) == Some(n);
      assert Holds(next[u]) == Some(n);
    }
  }

  /** Handing the claim over to the child. */
  lemma HandsOver(tasks: map<nat, Task>, inflight: set<string>, t: nat, child: nat, loop: Task, eval: Task)
    requires Exclusive(tasks, inflight) && t in tasks && child !in tasks
    requires Holds(tasks[t]).Some? && Holds(eval) == Holds(tasks[t]) && Holds(loop).None?
    ensures Exclusive(tasks[t := loop][child := eval], inflight)
  {
    var n := Holds(tasks[t]).value;
    Gives(tasks, inflight, t, loop);
    TakesNew(tasks[t := loop], inflight - {n}, child, eval);
    assert (inflight - {n}) + {n} == inflight;
  }

  lemma TakesNew(tasks: map<nat, Task>, inflight: set<string>, t: nat, task: Task)
    requires Exclusive(tasks, inflight) && t !in tasks
    requires Holds(task).Some? && Holds(task).value !in inflight
    ensures Exclusive(tasks[t := task], inflight + {Holds(task).value})
  {
    var next := tasks[t := task];
    forall n | n in inflight + {Holds(task).value}
      ensures exists u :: u in next && Holds(next[u]) == Some(n)
    {
      if n in inflight {
        var u :| u in tasks && Holds(tasks[u]) == Some(n);
        assert Holds(next[u]) == Some(n);
      } else {
        assert Holds(next[t]) == Some(n);
      }
    }
  }

  lemma StepExcludes(s: Sys, e: Event)
    requires Exclusive(s.tasks, s.inflight) && Enabled(s, e)
    ensures var s' := Apply(s, e); Exclusive(s'.tasks, s'.inflight)
  {
    var s' := Apply(s, e);
    if e.Claim? && s.tasks[e.t].due[0] !in s.inflight {
      Takes(s.tasks, s.inflight, e.t, s'.tasks[e.t]);
    } else if e.Release? {
      Gives(s.tasks, s.inflight, e.t, s'.tasks[e.t]);
    } else if e.Spawn? {
      HandsOver(s.tasks, s.inflight, e.t, e.child, s'.tasks[e.t], s'.tasks[e.child]);
    } else if !e.Cancel? {
      HoldsTheSame(s.tasks, s.inflight, e.t, s'.tasks[e.t]);
    }
  }

  // ---- The wait count ----

  ghost function Live(tasks: map<nat, Task>): (r: set<nat>)
    ensures forall t :: t in r <==> t in tasks && !tasks[t].Gone?
  {
    set t | t in tasks && !tasks[t].Gone?
  }

  /** Loops that have counted a child they have not started yet. */
  ghost function Expecting(tasks: map<nat, Task>): (r: set<nat>)
    ensures forall t :: t in r <==> t in tasks && tasks[t].Added?
  {
    set t | t in tasks && tasks[t].Added?
  }

  ghost predicate Counted(s: Sys) {
    s.count == |Live(s.tasks)| + |Expecting(s.tasks)|
  }

  lemma SetStep<A>(x: set<A>, y: set<A>, a: A, now: bool)
    requires y == if now then x + {a} else x - {a}
    ensures |y| == |x| + (if now && a !in x then 1 else 0) - (if !now && a in x then 1 else 0)
  {
  }

  lemma RecountLive(tasks: map<nat, Task>, t: nat, task: Task)
    ensures |Live(tasks[t := task])| ==
      |Live(tasks)| + (if task.Gone? then 0 else 1) - (if t in Live(tasks) then 1 else 0)
  {
    var x, y := Live(tasks), Live(tasks[t := task]);
    if task.Gone? {
      assert y == x - {t};
    } else {
      assert y == x + {t};
    }
    SetStep(x, y, t, !task.Gone?);
  }

  lemma ExpectingNext(tasks: map<nat, Task>, t: nat, task: Task)
    ensures Expecting(tasks[t := task]) == if task.Added? then Expecting(tasks) + {t} else Expecting(tasks) - {t}
  {
    var next := tasks[t := task];
    forall u: nat
      ensures u in Expecting(next) <==> (if u == t then task.Added? else u in Expecting(tasks))
    {
    }
  }

  lemma RecountExpecting(tasks: map<nat, Task>, t: nat, task: Task)
    ensures |Expecting(tasks[t := task])| ==
            |Expecting(tasks)| + (if task.Added? then 1 else 0) - (if t in Expecting(tasks) then 1 else 0)
  {
    ExpectingNext(tasks, t, task);
    SetStep(Expecting(tasks), Expecting(tasks[t := task]), t, task.Added?);
  }

  lemma Recount(tasks: map<nat, Task>, t: nat, task: Task)
    ensures var next := tasks[t := task];
      |Live(next)| + |Expecting(next)| ==
        |Live(tasks)| + |Expecting(tasks)| + Weight(task) - (if t in tasks then Weight(tasks[t]) else 0)
  {
    RecountLive(tasks, t, task);
    RecountExpecting(tasks, t, task);
  }

  /** What a goroutine contributes to the wait count. */
  ghost function Weight(task: Task): int {
    if task.Gone? then 0 else if task.Added? then 2 else 1
  }

  lemma StepCounts(s: Sys, e: Event)
    requires Counted(s) && Enabled(s, e)
    ensures Counted(Apply(s, e))
  {
    var s' := Apply(s, e);
    if e.Spawn? {
      Recount(s.tasks, e.t, s'.tasks[e.t]);
      Recount(s.tasks[e.t := s'.tasks[e.t]], e.child, s'.tasks[e.child]);
    } else if !e.Cancel? {
      Recount(s.tasks, e.t, s'.tasks[e.t]);
    }
  }

  // ---- Over every run ----

  ghost predicate Inv(s: Sys) {
    Exclusive(s.tasks, s.inflight) && Counted(s)
  }

  /** At most one goroutine per alert between claim and release, and the count never falls short. */
  lemma {:induction false} RunsExclude(s: Sys, run: seq<Event>)
    requires Inv(s) && ValidRun(s, run)
    ensures Inv(Final(s, run)) && Final(s, run).count >= 0
    decreases |run|
  {
    if run != [] {
      StepExcludes(s, run[0]);
      StepCounts(s, run[0]);
      RunsExclude(Apply(s, run[0]), run[1..]);
    }
  }

  /** A wait count of zero means every loop has left and every evaluation is over. */
  lemma ZeroMeansDrained(s: Sys)
    requires Inv(s) && s.count == 0
    ensures (forall t :: t in s.tasks ==> s.tasks[t].Gone?) && s.inflight == {}
  {
  }

  lemma DrainedMeansZero(s: Sys)
    requires Inv(s) && forall t :: t in s.tasks ==> s.tasks[t].Gone?
    ensures s.count == 0
  {
  }

  ghost predicate NoStart(run: seq<Event>) {
    forall i :: 0 <= i < |run| ==> !run[i].Start?
  }

  /** `Wait` returns at a zero count; unless a new loop is started, nothing runs from then on. */
  lemma {:induction false} WaitIsFinal(s: Sys, run: seq<Event>)
    requires Inv(s) && s.count == 0 && ValidRun(s, run) && NoStart(run)
    ensures var t := Final(s, run); t.tasks == s.tasks && t.count == 0 && t.inflight == {}
    decreases |run|
  {
    ZeroMeansDrained(s);
    if run != [] {
      assert run[0].Cancel?;
      WaitIsFinal(Apply(s, run[0]), run[1..]);
    }
  }

  /** From nothing: what every interleaving keeps. */
  lemma EveryRun(run: seq<Event>)
    requires ValidRun(INITIAL, run)
    ensures var s := Final(INITIAL, run);
      && Exclusive(s.tasks, s.inflight)
      && (s.count == 0 <==> forall t :: t in s.tasks ==> s.tasks[t].Gone?)
  {
    assert Live(INITIAL.tasks) == {} && Expecting(INITIAL.tasks) == {};
    RunsExclude(INITIAL, run);
    var s := Final(INITIAL, run);
    if s.count == 0 {
      ZeroMeansDrained(s);
    }
    if forall t :: t in s.tasks ==> s.tasks[t].Gone? {
      DrainedMeansZero(s);
    }
  }

  // ---- The claim set as an object ----

  class ClaimSet {
    var inflight: set<string>

    constructor ()
      ensures inflight == {}
    {
      inflight := {};
    }

    method TryClaim(name: string) returns (ok: bool)
      modifies this
      ensures ok <==> name !in old(inflight)
      ensures inflight == old(inflight) + {name}
    {
      if name in inflight {
        return false;
      }
      inflight := inflight + {name};
      return true;
    }

    method Release(name: string)
      modifies this
      ensures inflight == old(inflight) - {name}
    {
      inflight := inflight - {name};
    }
  }
}
