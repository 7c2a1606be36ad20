/**
 The redo loop among other writers: every execution of it, whatever the other
 writers do before each read and between each read and its commit, is a run of the
 protocol, in which the other writers make exactly the steps they made.
 */
module Loops {
  import opened Tables
  import opened Commits
  import opened Runs
  import opened Serial
  import Dml
  import Merge
  import Merging
  import Rejoins

  /** A statement to stand where any would do. */
  const NOTHING := Delete((r: Row) => false)

  // ---- A statement beside the other writers ----

  ghost function With(o: Sys, id: nat, x: Session): Sys {
    o.(sessions := o.sessions[id := x])
  }

  ghost predicate Others(run: seq<Event>, id: nat) {
    forall i :: 0 <= i < |run| ==> !Of(run[i], id)
  }

  /** The same session, but for the rows it has noted. */
  ghost predicate Alike(x: Session, y: Session) {
    && y.stmt == x.stmt && y.attempts == x.attempts && y.commits == x.commits
    && (if x.phase.Ready? then y.phase.Ready? && y.phase.marks == x.phase.marks && y.phase.rows == x.phase.rows
        else y.phase == x.phase)
  }

  lemma EnabledBeside(o: Sys, e: Event, id: nat, x: Session)
    requires id !in o.sessions && Enabled(o, e) && !Of(e, id)
    ensures Enabled(With(o, id, x), e)
  {
  }

  lemma HideWith(o: Sys, id: nat, x: Session)
    requires id !in o.sessions
    ensures Hide(With(o, id, x), id) == o
  {
    assert o.sessions[id := x] - {id} == o.sessions;
  }

  lemma WithHide(s: Sys, id: nat)
    requires id in s.sessions
    ensures With(Hide(s, id), id, s.sessions[id]) == s
  {
    assert (s.sessions - {id})[id := s.sessions[id]] == s.sessions;
  }

  lemma NotedAlike(sessions: map<nat, Session>, rows: multiset<Row>, id: nat)
    requires id in sessions
    ensures id in NotedAll(sessions, rows) && Alike(sessions[id], NotedAll(sessions, rows)[id])
  {
  }

  lemma CommittedAlike(sessions: map<nat, Session>, other: nat, id: nat)
    requires other in sessions && sessions[other].phase.Ready? && id in sessions && id != other
    ensures id in CommittedSessions(sessions, other) && Alike(sessions[id], CommittedSessions(sessions, other)[id])
  {
    NotedAlike(sessions, sessions[other].phase.rows, id);
  }

  lemma StaysAlike(s: Sys, e: Event, id: nat)
    requires Enabled(s, e) && !Of(e, id) && id in s.sessions
    ensures id in Apply(s, e).sessions && Alike(s.sessions[id], Apply(s, e).sessions[id])
  {
    if e.Insert? {
      NotedAlike(s.sessions, BagOf(e.objs), id);
    } else if e.Commit? {
      CommittedAlike(s.sessions, e.id, id);
    } else if Private(e) {
      PrivateStep(s, e);
    }
  }

  lemma StepBeside(o: Sys, e: Event, id: nat, x: Session) returns (x': Session)
    requires id !in o.sessions && Enabled(o, e) && !Of(e, id)
    ensures Enabled(With(o, id, x), e) && Apply(With(o, id, x), e) == With(Apply(o, e), id, x')
    ensures id !in Apply(o, e).sessions && Alike(x, x')
  {
    var s := With(o, id, x);
    EnabledBeside(o, e, id, x);
    StaysAlike(s, e, id);
    HideWith(o, id, x);
    OtherStepHidden(s, e, id);
    WithHide(Apply(s, e), id);
    x' := Apply(s, e).sessions[id];
  }

  lemma {:induction false} RunBeside(o: Sys, run: seq<Event>, id: nat, x: Session) returns (x': Session)
    requires id !in o.sessions && ValidRun(o, run) && Others(run, id)
    ensures Reaches(With(o, id, x), run, With(Final(o, run), id, x'))
    ensures id !in Final(o, run).sessions && Alike(x, x')
    decreases |run|
  {
    if run == [] {
      x' := x;
    } else {
      var y := StepBeside(o, run[0], id, x);
      x' := RunBeside(Apply(o, run[0]), run[1..], id, y);
    }
  }

  lemma WithoutFirst(e: Event, rest: seq<Event>, id: nat)
    ensures Without([e] + rest, id) == (if Of(e, id) then [] else [e]) + Without(rest, id)
  {
    assert ([e] + rest)[1..] == rest;
  }

  lemma {:induction false} WithoutConcat(a: seq<Event>, b: seq<Event>, id: nat)
    ensures Without(a + b, id) == Without(a, id) + Without(b, id)
    decreases |a|
  {
    if a == [] {
      assert a + b == b;
    } else {
      WithoutConcat(a[1..], b, id);
      HeadTail(a, b);
      WithoutFirst(a[0], a[1..] + b, id);
    }
  }

  lemma {:induction false} WithoutOthers(run: seq<Event>, id: nat)
    requires Others(run, id)
    ensures Without(run, id) == run
    decreases |run|
  {
    if run != [] {
      WithoutOthers(run[1..], id);
    }
  }

  lemma WithoutLast(run: seq<Event>, e: Event, id: nat)
    requires Others(run, id) && Of(e, id)
    ensures Without(run + [e], id) == run
  {
    WithoutConcat(run, [e], id);
    WithoutOthers(run, id);
    assert Without([e], id) == [];
  }

  // ---- One round ----

  /** What the other writers do before an attempt reads, and from there until it commits. */
  datatype Turn = Turn(before: seq<Event>, during: seq<Event>)

  /** One attempt: the table it reads, the one it commits to, and what it decided. */
  datatype Attempt = Attempt(seen: Table, now: Table, marks: set<Addr>, rows: multiset<Row>)

  /** Left to themselves, the other writers bring the table to `a.seen` and then to `a.now`. */
  ghost predicate Leads(o: Sys, id: nat, turn: Turn, a: Attempt) {
    && Others(turn.before, id) && Others(turn.during, id)
    && ValidRun(o, turn.before) && Final(o, turn.before).t == a.seen
    && ValidRun(Final(o, turn.before), turn.during) && After(o, turn).t == a.now
  }

  ghost function After(o: Sys, turn: Turn): Sys
    requires ValidRun(o, turn.before) && ValidRun(Final(o, turn.before), turn.during)
  {
    Final(Final(o, turn.before), turn.during)
  }

  ghost function Steps(turn: Turn, id: nat, stmt: Stmt, a: Attempt, last: Event): seq<Event> {
    (turn.before + [Read(id, stmt, a.marks, a.rows)]) + (turn.during + [last])
  }

  lemma StepsWithout(turn: Turn, id: nat, stmt: Stmt, a: Attempt, last: Event)
    requires Others(turn.before, id) && Others(turn.during, id) && Of(last, id)
    ensures Without(Steps(turn, id, stmt, a, last), id) == turn.before + turn.during
  {
    var read := Read(id, stmt, a.marks, a.rows);
    WithoutConcat(turn.before + [read], turn.during + [last], id);
    WithoutLast(turn.before, read, id);
    WithoutLast(turn.during, last, id);
  }

  lemma WithTwice(o: Sys, id: nat, x: Session, y: Session)
    ensures With(With(o, id, x), id, y) == With(o, id, y)
  {
    assert o.sessions[id := x][id := y] == o.sessions[id := y];
  }

  lemma SameSession(sessions: map<nat, Session>, id: nat, x: Session, e: Event)
    requires Private(e) && !e.Start? && e.id == id
    ensures AfterPrivate(sessions[id := x], e) == AfterPrivate(map[id := x], e)
  {
  }

  /** A statement's own steps, seen from beside it. */
  lemma OwnBeside(o: Sys, id: nat, x: Session, e: Event)
    requires Private(e) && !e.Start? && e.id == id
    ensures Enabled(With(o, id, x), e) ==> Reaches(With(o, id, x), [e], With(o, id, AfterPrivate(map[id := x], e)))
  {
    if Enabled(With(o, id, x), e) {
      OneStep(With(o, id, x), e);
      PrivateStep(With(o, id, x), e);
      SameSession(o.sessions, id, x, e);
      WithTwice(o, id, x, AfterPrivate(map[id := x], e));
    }
  }

  lemma CanRead(o: Sys, id: nat, x: Session, stmt: Stmt, a: Attempt)
    requires x.phase.Idle? && SameStatement(x.stmt, stmt) && Plans(stmt, o.t, a.marks, a.rows)
    ensures Enabled(With(o, id, x), Read(id, stmt, a.marks, a.rows))
  {
    var s := With(o, id, x);
    assert s.t == o.t && id in s.sessions && s.sessions[id] == x;
  }

  /** `y` is the idle session `x` waiting to commit what the attempt decided. */
  ghost predicate Waits(x: Session, stmt: Stmt, a: Attempt, y: Session) {
    && y.phase.Ready? && y.phase.marks == a.marks && y.phase.rows == a.rows
    && y.stmt == stmt && y.attempts == x.attempts + 1 && y.commits == x.commits
  }

  ghost function ReadSession(x: Session, stmt: Stmt, a: Attempt): Session {
    x.(stmt := stmt, attempts := x.attempts + 1, phase := Ready(a.marks, a.rows, multiset{}))
  }

  lemma ReadIfEnabled(o: Sys, id: nat, x: Session, stmt: Stmt, a: Attempt)
    ensures Enabled(With(o, id, x), Read(id, stmt, a.marks, a.rows)) ==>
            Reaches(With(o, id, x), [Read(id, stmt, a.marks, a.rows)], With(o, id, ReadSession(x, stmt, a)))
  {
    assert AfterPrivate(map[id := x], Read(id, stmt, a.marks, a.rows)) == ReadSession(x, stmt, a);
    OwnBeside(o, id, x, Read(id, stmt, a.marks, a.rows));
  }

  lemma ReadBeside(o: Sys, id: nat, x: Session, stmt: Stmt, a: Attempt)
    requires x.phase.Idle? && SameStatement(x.stmt, stmt) && Plans(stmt, o.t, a.marks, a.rows)
    ensures Reaches(With(o, id, x), [Read(id, stmt, a.marks, a.rows)], With(o, id, ReadSession(x, stmt, a)))
  {
    CanRead(o, id, x, stmt, a);
    ReadIfEnabled(o, id, x, stmt, a);
  }

  lemma ReadAlone(o: Sys, id: nat, x: Session, before: seq<Event>, stmt: Stmt, a: Attempt)
    requires id !in o.sessions && x.phase.Idle? && Others(before, id) && ValidRun(o, before)
    requires SameStatement(x.stmt, stmt) && Plans(stmt, Final(o, before).t, a.marks, a.rows)
    ensures id !in Final(o, before).sessions
    ensures Reaches(With(o, id, x), before + [Read(id, stmt, a.marks, a.rows)],
                    With(Final(o, before), id, ReadSession(x, stmt, a)))
  {
    var x' := RunBeside(o, before, id, x);
    var mid := Final(o, before);
    ReadBeside(mid, id, x, stmt, a);
    Then(With(o, id, x), before, With(mid, id, x), [Read(id, stmt, a.marks, a.rows)],
         With(mid, id, ReadSession(x, stmt, a)));
  }

  lemma WaitBeside(mid: Sys, id: nat, x: Session, during: seq<Event>, stmt: Stmt, a: Attempt) returns (y: Session)
    requires id !in mid.sessions && Others(during, id) && ValidRun(mid, during)
    ensures id !in Final(mid, during).sessions && Waits(x, stmt, a, y)
    ensures Reaches(With(mid, id, ReadSession(x, stmt, a)), during, With(Final(mid, during), id, y))
  {
    y := RunBeside(mid, during, id, ReadSession(x, stmt, a));
  }

  ghost predicate Refused(stmt: Stmt, a: Attempt) {
    Plans(stmt, a.seen, a.marks, a.rows) && !CanCommit(a.now, a.marks)
  }

  ghost function RefusedSession(x: Session, stmt: Stmt): Session {
    AfterRefusal(x.(stmt := stmt, attempts := x.attempts + 1))
  }

  lemma RefuseBeside(o: Sys, id: nat, x: Session, stmt: Stmt, a: Attempt, y: Session)
    requires x.phase.Idle? && Waits(x, stmt, a, y) && !CanCommit(o.t, a.marks)
    ensures Reaches(With(o, id, y), [Refuse(id)], With(o, id, RefusedSession(x, stmt)))
  {
    var s := With(o, id, y);
    assert s.t == o.t && id in s.sessions && s.sessions[id] == y;
    OwnBeside(o, id, y, Refuse(id));
  }

  /** A refused attempt: the other writers move as they did, and only the count remembers it. */
  lemma RefusedAttempt(o: Sys, id: nat, x: Session, turn: Turn, stmt: Stmt, a: Attempt)
    requires id !in o.sessions && x.phase.Idle? && Leads(o, id, turn, a)
    requires SameStatement(x.stmt, stmt) && Refused(stmt, a)
    ensures id !in After(o, turn).sessions
    ensures Reaches(With(o, id, x), Steps(turn, id, stmt, a, Refuse(id)),
                    With(After(o, turn), id, RefusedSession(x, stmt)))
  {
    var mid := Final(o, turn.before);
    ReadAlone(o, id, x, turn.before, stmt, a);
    var y := WaitBeside(mid, id, x, turn.during, stmt, a);
    RefuseBeside(After(o, turn), id, x, stmt, a, y);
    var end := With(After(o, turn), id, RefusedSession(x, stmt));
    Then(With(mid, id, ReadSession(x, stmt, a)), turn.during, With(After(o, turn), id, y), [Refuse(id)], end);
    Then(With(o, id, x), turn.before + [Read(id, stmt, a.marks, a.rows)], With(mid, id, ReadSession(x, stmt, a)),
         turn.during + [Refuse(id)], end);
  }

  lemma CanFinish(o: Sys, id: nat, x: Session, stmt: Stmt, a: Attempt, y: Session, objs: map<Path, seq<Row>>)
    requires Waits(x, stmt, a, y) && CanCommit(o.t, a.marks) && Fresh(o.t, objs) && BagOf(objs) == a.rows
    ensures Enabled(With(o, id, y), Commit(id, objs))
  {
    var s := With(o, id, y);
    assert s.t == o.t && id in s.sessions && s.sessions[id] == y;
  }

  ghost function Finished(y: Session): Session {
    y.(commits := y.commits + 1, phase := Succeeded)
  }

  lemma CommitIfEnabled(o: Sys, id: nat, a: Attempt, y: Session, objs: map<Path, seq<Row>>) returns (end: Sys)
    requires y.phase.Ready? && y.phase.marks == a.marks
    ensures Enabled(With(o, id, y), Commit(id, objs)) ==>
      && Reaches(With(o, id, y), [Commit(id, objs)], end) && end.t == Publish(o.t, objs, a.marks)
      && id in end.sessions && end.sessions[id] == Finished(y)
  {
    var s := With(o, id, y);
    end := AfterCommit(s, id, objs);
    if Enabled(s, Commit(id, objs)) {
      OneStep(s, Commit(id, objs));
    }
  }

  /** The attempt that commits. */
  lemma CommittedAttempt(o: Sys, id: nat, x: Session, turn: Turn, stmt: Stmt, a: Attempt, objs: map<Path, seq<Row>>)
    returns (end: Sys)
    requires id !in o.sessions && x.phase.Idle? && Leads(o, id, turn, a)
    requires SameStatement(x.stmt, stmt) && Plans(stmt, a.seen, a.marks, a.rows)
    requires CanCommit(a.now, a.marks) && Fresh(a.now, objs) && BagOf(objs) == a.rows
    ensures Reaches(With(o, id, x), Steps(turn, id, stmt, a, Commit(id, objs)), end)
    ensures end.t == Publish(a.now, objs, a.marks)
    ensures id in end.sessions && Ended(x, end.sessions[id], 1, Succeeded, stmt)
  {
    var mid := Final(o, turn.before);
    ReadAlone(o, id, x, turn.before, stmt, a);
    var y := WaitBeside(mid, id, x, turn.during, stmt, a);
    CanFinish(After(o, turn), id, x, stmt, a, y, objs);
    end := CommitIfEnabled(After(o, turn), id, a, y, objs);
    Then(With(mid, id, ReadSession(x, stmt, a)), turn.during, With(After(o, turn), id, y), [Commit(id, objs)], end);
    Then(With(o, id, x), turn.before + [Read(id, stmt, a.marks, a.rows)], With(mid, id, ReadSession(x, stmt, a)),
         turn.during + [Commit(id, objs)], end);
  }

  /** `y` is `x`, `more` attempts later, in the phase it will stay in; `last` is what it last decided by. */
  ghost predicate Ended(x: Session, y: Session, more: nat, phase: Phase, last: Stmt) {
    y.attempts == x.attempts + more && y.phase == phase && (phase.Failed? || y.stmt == last)
  }

  lemma FailBeside(o: Sys, id: nat, x: Session)
    requires x.phase.Idle?
    ensures Reaches(With(o, id, x), [Fail(id)], With(o, id, x.(phase := Phase.Failed)))
  {
    var s := With(o, id, x);
    assert s.t == o.t && id in s.sessions && s.sessions[id] == x;
    OwnBeside(o, id, x, Fail(id));
  }

  /** The attempt that fails before it has decided anything. */
  lemma FailedAttempt(o: Sys, id: nat, x: Session, turn: Turn, a: Attempt)
    requires id !in o.sessions && x.phase.Idle? && Leads(o, id, turn, a)
    ensures Reaches(With(o, id, x), (turn.before + turn.during) + [Fail(id)],
                    With(After(o, turn), id, x.(phase := Phase.Failed)))
  {
    var mid, end := Final(o, turn.before), After(o, turn);
    var x' := RunBeside(o, turn.before, id, x);
    var x'' := RunBeside(mid, turn.during, id, x);
    FailBeside(end, id, x);
    Then(With(o, id, x), turn.before, With(mid, id, x), turn.during, With(end, id, x));
    Then(With(o, id, x), turn.before + turn.during, With(end, id, x), [Fail(id)],
         With(end, id, x.(phase := Phase.Failed)));
  }

  // ---- The loop ----

  /** Everything the other writers do from turn `k` on. */
  ghost function Moves(turns: seq<Turn>, k: nat): seq<Event>
    decreases |turns| - k
  {
    if k >= |turns| then [] else (turns[k].before + turns[k].during) + Moves(turns, k + 1)
  }

  /** How a loop ends, and what its last attempt then leaves behind. */
  datatype Ending = Committed | GaveUp | Broke

  ghost predicate Ends(stmt: Stmt, a: Attempt, how: Ending, left: Table) {
    match how
    case Committed => Plans(stmt, a.seen, a.marks, a.rows) && Dml.Published(a.now, a.marks, a.rows, left)
    case GaveUp => Refused(stmt, a) && left == a.now
    case Broke => left == a.now
  }

  ghost function PhaseAt(how: Ending): Phase {
    match how case Committed => Succeeded case GaveUp => Exhausted case Broke => Phase.Failed
  }

  /** The other writers' turns from `k` on lead through what the attempts see. */
  ghost predicate Surround(o: Sys, id: nat, turns: seq<Turn>, tries: seq<Attempt>, k: nat)
    decreases |tries| - k
  {
    && |turns| == |tries|
    && (k < |tries| ==> Leads(o, id, turns[k], tries[k]) && Surround(After(o, turns[k]), id, turns, tries, k + 1))
  }

  /** What each attempt decides by: one statement, or a MERGE over the source that attempt read. */
  type Readings = nat -> Stmt

  ghost predicate AllOf(stmt: Stmt, each: Readings) {
    forall k: nat :: SameStatement(stmt, each(k))
  }

  ghost predicate AllRefused(each: Readings, tries: seq<Attempt>, n: nat) {
    n <= |tries| && forall k: nat :: k < n ==> Refused(each(k), tries[k])
  }

  /** Every attempt but the last is refused, and the last ends the loop. */
  ghost predicate Goes(each: Readings, tries: seq<Attempt>, how: Ending, left: Table)
    requires tries != []
  {
    AllRefused(each, tries, |tries| - 1) && Ends(each(|tries| - 1), tries[|tries| - 1], how, left)
  }

  lemma GoesIf(each: Readings, tries: seq<Attempt>, how: Ending, left: Table, last: Stmt, a: Attempt)
    requires tries != [] && each(|tries| - 1) == last && tries[|tries| - 1] == a
    ensures AllRefused(each, tries, |tries| - 1) && Ends(last, a, how, left) ==> Goes(each, tries, how, left)
  {
  }

  lemma RefusedAt(each: Readings, tries: seq<Attempt>, k: nat, how: Ending, left: Table)
    requires k + 1 < |tries|
    ensures Goes(each, tries, how, left) ==> Refused(each(k), tries[k])
  {
  }

  lemma LastEnds(each: Readings, tries: seq<Attempt>, how: Ending, left: Table)
    requires tries != []
    ensures Goes(each, tries, how, left) ==> Ends(each(|tries| - 1), tries[|tries| - 1], how, left)
  {
  }

  /**
   The run is made of the other writers' `moves` and steps of statement `id`; it
   leaves the table `left`, and the statement `more` attempts on, in its last phase.
   */
  ghost predicate Weaves(s: Sys, id: nat, x: Session, run: seq<Event>, moves: seq<Event>,
                         more: nat, how: Ending, left: Table, last: Stmt) {
    && ValidRun(s, run) && Without(run, id) == moves
    && Settles(Final(s, run), id, x, more, how, left, last)
  }

  ghost predicate Settles(end: Sys, id: nat, x: Session, more: nat, how: Ending, left: Table, last: Stmt) {
    end.t == left && id in end.sessions && Ended(x, end.sessions[id], more, PhaseAt(how), last)
  }

  ghost function Counts(how: Ending): nat {
    if how.Broke? then 0 else 1
  }

  lemma LastCommits(o: Sys, id: nat, x: Session, turn: Turn, stmt: Stmt, a: Attempt, left: Table)
    returns (run: seq<Event>)
    requires id !in o.sessions && x.phase.Idle? && Leads(o, id, turn, a)
    requires SameStatement(x.stmt, stmt) && Ends(stmt, a, Committed, left)
    ensures Weaves(With(o, id, x), id, x, run, turn.before + turn.during, 1, Committed, left, stmt)
  {
    var objs: map<Path, seq<Row>> :| Fresh(a.now, objs) && BagOf(objs) == a.rows
      && left == Publish(a.now, objs, a.marks);
    run := Steps(turn, id, stmt, a, Commit(id, objs));
    var end := CommittedAttempt(o, id, x, turn, stmt, a, objs);
    StepsWithout(turn, id, stmt, a, Commit(id, objs));
  }

  lemma LastRefused(o: Sys, id: nat, x: Session, turn: Turn, stmt: Stmt, a: Attempt, left: Table)
    returns (run: seq<Event>)
    requires id !in o.sessions && x.phase.Idle? && Leads(o, id, turn, a)
    requires SameStatement(x.stmt, stmt) && Ends(stmt, a, GaveUp, left)
    requires x.attempts + 1 == DML_COMMIT_ATTEMPTS
    ensures Weaves(With(o, id, x), id, x, run, turn.before + turn.during, 1, GaveUp, left, stmt)
  {
    run := Steps(turn, id, stmt, a, Refuse(id));
    RefusedAttempt(o, id, x, turn, stmt, a);
    StepsWithout(turn, id, stmt, a, Refuse(id));
  }

  lemma LastFails(o: Sys, id: nat, x: Session, turn: Turn, a: Attempt, left: Table, last: Stmt)
    returns (run: seq<Event>)
    requires id !in o.sessions && x.phase.Idle? && Leads(o, id, turn, a) && left == a.now
    ensures Weaves(With(o, id, x), id, x, run, turn.before + turn.during, 0, Broke, left, last)
  {
    run := (turn.before + turn.during) + [Fail(id)];
    FailedAttempt(o, id, x, turn, a);
    WithoutLast(turn.before + turn.during, Fail(id), id);
  }

  lemma LastAttempt(o: Sys, id: nat, x: Session, turn: Turn, stmt: Stmt, a: Attempt, how: Ending, left: Table)
    returns (run: seq<Event>)
    requires id !in o.sessions && x.phase.Idle? && Leads(o, id, turn, a) && SameStatement(x.stmt, stmt)
    requires how.GaveUp? ==> x.attempts + 1 == DML_COMMIT_ATTEMPTS
    ensures Ends(stmt, a, how, left) ==>
      Weaves(With(o, id, x), id, x, run, turn.before + turn.during, Counts(how), how, left, stmt)
  {
    run := [];
    if Ends(stmt, a, how, left) {
      match how
      case Committed => run := LastCommits(o, id, x, turn, stmt, a, left);
      case GaveUp => run := LastRefused(o, id, x, turn, stmt, a, left);
      case Broke => run := LastFails(o, id, x, turn, a, left, stmt);
    }
  }

  lemma WeaveOn(s: Sys, id: nat, x: Session, a: seq<Event>, m: Sys, y: Session, run: seq<Event>, moves: seq<Event>,
                more: nat, how: Ending, left: Table, last: Stmt)
    requires Reaches(s, a, m) && y.attempts == x.attempts + 1
    requires Weaves(m, id, y, run, moves, more, how, left, last)
    ensures Weaves(s, id, x, a + run, Without(a, id) + moves, more + 1, how, left, last)
  {
    Concat(s, a, run);
    WithoutConcat(a, run, id);
  }

  lemma LoopStep(o: Sys, id: nat, x: Session, turn: Turn, stmt: Stmt, a: Attempt, rest: seq<Event>, moves: seq<Event>,
                 more: nat, how: Ending, left: Table, last: Stmt)
    requires id !in o.sessions && x.phase.Idle? && Leads(o, id, turn, a) && SameStatement(x.stmt, stmt)
    ensures var x' := RefusedSession(x, stmt);
      Refused(stmt, a) && Weaves(With(After(o, turn), id, x'), id, x', rest, moves, more, how, left, last) ==>
      Weaves(With(o, id, x), id, x, Steps(turn, id, stmt, a, Refuse(id)) + rest, (turn.before + turn.during) + moves,
             more + 1, how, left, last)
  {
    var x' := RefusedSession(x, stmt);
    var s, m := With(o, id, x), With(After(o, turn), id, x');
    if Refused(stmt, a) && Weaves(m, id, x', rest, moves, more, how, left, last) {
      RefusedAttempt(o, id, x, turn, stmt, a);
      StepsWithout(turn, id, stmt, a, Refuse(id));
      WeaveOn(s, id, x, Steps(turn, id, stmt, a, Refuse(id)), m, x', rest, moves, more, how, left, last);
    }
  }

  lemma StillTheSame(stmt: Stmt, a: Stmt, b: Stmt)
    requires SameStatement(stmt, a) && SameStatement(stmt, b)
    ensures SameStatement(a, b)
  {
  }

  lemma StillAbsent(o: Sys, id: nat, turn: Turn, a: Attempt)
    requires id !in o.sessions && Leads(o, id, turn, a)
    ensures id !in After(o, turn).sessions
  {
    var x := Session(NOTHING, 0, 0, Idle);
    var y := RunBeside(o, turn.before, id, x);
    var z := RunBeside(Final(o, turn.before), turn.during, id, x);
  }

  lemma LoopEnds(o: Sys, id: nat, each: Readings, x: Session, turns: seq<Turn>, tries: seq<Attempt>, how: Ending,
                 left: Table) returns (run: seq<Event>)
    requires tries != [] && Surround(o, id, turns, tries, |tries| - 1)
    requires id !in o.sessions && x.phase.Idle? && SameStatement(x.stmt, each(|tries| - 1))
    requires how.GaveUp? ==> x.attempts + 1 == DML_COMMIT_ATTEMPTS
    ensures Goes(each, tries, how, left) ==>
      Weaves(With(o, id, x), id, x, run, Moves(turns, |tries| - 1), Counts(how), how, left, each(|tries| - 1))
  {
    var k := |tries| - 1;
    LastEnds(each, tries, how, left);
    run := LastAttempt(o, id, x, turns[k], each(k), tries[k], how, left);
    assert Moves(turns, k) == turns[k].before + turns[k].during;
  }

  lemma LoopGoesOn(o: Sys, id: nat, each: Readings, x: Session, turns: seq<Turn>, tries: seq<Attempt>, k: nat,
                   o': Sys, x': Session, rest: seq<Event>, more: nat, how: Ending, left: Table)
    returns (run: seq<Event>)
    requires k + 1 < |tries| && Surround(o, id, turns, tries, k)
    requires o' == After(o, turns[k]) && x' == RefusedSession(x, each(k))
    requires id !in o.sessions && x.phase.Idle? && SameStatement(x.stmt, each(k))
    requires Goes(each, tries, how, left) ==>
      Weaves(With(o', id, x'), id, x', rest, Moves(turns, k + 1), more, how, left, each(|tries| - 1))
    ensures Goes(each, tries, how, left) ==>
      Weaves(With(o, id, x), id, x, run, Moves(turns, k), more + 1, how, left, each(|tries| - 1))
  {
    RefusedAt(each, tries, k, how, left);
    LoopStep(o, id, x, turns[k], each(k), tries[k], rest, Moves(turns, k + 1), more, how, left, each(|tries| - 1));
    run := Steps(turns[k], id, each(k), tries[k], Refuse(id)) + rest;
  }

  lemma LoopNext(o: Sys, id: nat, stmt: Stmt, each: Readings, x: Session, turns: seq<Turn>, tries: seq<Attempt>, k: nat)
    returns (o': Sys, x': Session)
    requires id !in o.sessions && x.phase.Idle? && k + 1 < |tries| && Surround(o, id, turns, tries, k)
    requires AllOf(stmt, each) && x.attempts + 1 < DML_COMMIT_ATTEMPTS
    ensures o' == After(o, turns[k]) && x' == RefusedSession(x, each(k))
    ensures id !in o'.sessions && x'.phase.Idle? && x'.attempts == x.attempts + 1 && SameStatement(stmt, x'.stmt)
    ensures Surround(o', id, turns, tries, k + 1)
  {
    o', x' := After(o, turns[k]), RefusedSession(x, each(k));
    StillAbsent(o, id, turns[k], tries[k]);
  }

  /** The loop from any of its attempts on. */
  lemma {:induction false} LoopFrom(o: Sys, id: nat, stmt: Stmt, each: Readings, x: Session, turns: seq<Turn>,
                                    tries: seq<Attempt>, k: nat, more: nat, how: Ending, left: Table)
    returns (run: seq<Event>)
    requires id !in o.sessions && x.phase.Idle? && x.attempts == k < |tries| && Surround(o, id, turns, tries, k)
    requires |tries| <= DML_COMMIT_ATTEMPTS && (how.GaveUp? ==> |tries| == DML_COMMIT_ATTEMPTS)
    requires AllOf(stmt, each) && SameStatement(stmt, x.stmt) && more == |tries| - 1 - k + Counts(how)
    ensures Goes(each, tries, how, left) ==>
      Weaves(With(o, id, x), id, x, run, Moves(turns, k), more, how, left, each(|tries| - 1))
    decreases |tries| - k
  {
    StillTheSame(stmt, x.stmt, each(k));
    if k + 1 == |tries| {
      run := LoopEnds(o, id, each, x, turns, tries, how, left);
    } else {
      var o', x' := LoopNext(o, id, stmt, each, x, turns, tries, k);
      var rest := LoopFrom(o', id, stmt, each, x', turns, tries, k + 1, more - 1, how, left);
      run := LoopGoesOn(o, id, each, x, turns, tries, k, o', x', rest, more - 1, how, left);
    }
  }

  lemma StartBeside(o: Sys, id: nat, stmt: Stmt)
    requires id !in o.sessions
    ensures Enabled(o, Start(id, stmt)) && Apply(o, Start(id, stmt)) == With(o, id, Session(stmt, 0, 0, Idle))
  {
  }

  /**
   A whole loop is a run: the statement's steps woven into exactly the other writers'
   steps lead the protocol to the table the loop leaves, the statement having
   committed once, used up its attempts, or failed.
   */
  lemma LoopIsRun(o: Sys, id: nat, stmt: Stmt, each: Readings, turns: seq<Turn>, tries: seq<Attempt>, how: Ending,
                  left: Table)
    returns (run: seq<Event>)
    requires id !in o.sessions && tries != [] && Surround(o, id, turns, tries, 0) && AllOf(stmt, each)
    requires |tries| <= DML_COMMIT_ATTEMPTS && (how.GaveUp? ==> |tries| == DML_COMMIT_ATTEMPTS)
    ensures Goes(each, tries, how, left) ==>
      Weaves(o, id, Session(stmt, 0, 0, Idle), run, Moves(turns, 0), |tries| - 1 + Counts(how), how, left,
             each(|tries| - 1))
  {
    var rest := LoopFrom(o, id, stmt, each, Session(stmt, 0, 0, Idle), turns, tries, 0, |tries| - 1 + Counts(how), how,
                         left);
    run := WeaveStart(o, id, stmt, rest, Moves(turns, 0), |tries| - 1 + Counts(how), how, left, each(|tries| - 1));
  }

  lemma WeaveStart(o: Sys, id: nat, stmt: Stmt, rest: seq<Event>, moves: seq<Event>, more: nat, how: Ending,
                   left: Table, last: Stmt) returns (run: seq<Event>)
    requires id !in o.sessions
    ensures var x := Session(stmt, 0, 0, Idle);
      Weaves(With(o, id, x), id, x, rest, moves, more, how, left, last) ==>
      Weaves(o, id, x, run, moves, more, how, left, last)
  {
    var x := Session(stmt, 0, 0, Idle);
    run := [Start(id, stmt)] + rest;
    if Weaves(With(o, id, x), id, x, rest, moves, more, how, left, last) {
      StartBeside(o, id, stmt);
      Extend(o, Start(id, stmt), rest);
      WithoutFirst(Start(id, stmt), rest, id);
    }
  }

  // ---- UPDATE and DELETE ----

  ghost function EndingOf(r: Dml.Outcome): Ending {
    match r case Finished(_) => Committed case GaveUp => GaveUp case Broken => Broke
  }

  /** What the loop attempts in a round; a statement that cannot be answered stops at its read. */
  ghost function TryOf(s: Dml.Statement, r: Dml.Round): Attempt {
    var seen := Dml.Seen(r);
    Attempt(seen, if Dml.Answerable(seen, s) then Dml.At(r.now) else seen, Dml.Hits(seen, s.where), Dml.RowsOf(seen, s))
  }

  ghost function TriesOf(s: Dml.Statement, env: seq<Dml.Round>, attempts: nat): seq<Attempt>
    requires attempts <= |env|
  {
    seq(attempts, k requires 0 <= k < attempts => TryOf(s, env[k]))
  }

  lemma RefusedTry(s: Dml.Statement, r: Dml.Round)
    ensures Dml.RefusedIn(s, r) ==> Refused(Dml.StmtOf(s), TryOf(s, r))
  {
    Dml.ScanIsPlan(Dml.Seen(r), s);
  }

  /** An UPDATE or DELETE decides by itself every time. */
  ghost function ReadingsOf(s: Dml.Statement): Readings {
    (k: nat) => Dml.StmtOf(s)
  }

  lemma RefusedTries(s: Dml.Statement, env: seq<Dml.Round>, attempts: nat)
    requires 1 <= attempts <= |env|
    ensures Dml.RefusedBefore(s, env, attempts - 1) ==>
      AllRefused(ReadingsOf(s), TriesOf(s, env, attempts), attempts - 1)
  {
    if Dml.RefusedBefore(s, env, attempts - 1) {
      forall k: nat | k < attempts - 1
        ensures Refused(ReadingsOf(s)(k), TriesOf(s, env, attempts)[k])
      {
        RefusedTry(s, env[k]);
      }
    }
  }

  lemma LastTry(s: Dml.Statement, r: Dml.Round, out: Dml.Outcome, left: Table)
    ensures Dml.RoundLeaves(s, r, Dml.Last(out), left) ==> Ends(Dml.StmtOf(s), TryOf(s, r), EndingOf(out), left)
  {
    Dml.ScanIsPlan(Dml.Seen(r), s);
  }

  lemma TriesGo(s: Dml.Statement, env: seq<Dml.Round>, attempts: nat, r: Dml.Outcome, left: Table)
    requires 1 <= attempts <= |env|
    ensures Dml.RefusedBefore(s, env, attempts - 1) && Dml.RoundLeaves(s, env[attempts - 1], Dml.Last(r), left) ==>
      Goes(ReadingsOf(s), TriesOf(s, env, attempts), EndingOf(r), left)
  {
    RefusedTries(s, env, attempts);
    LastTry(s, env[attempts - 1], r, left);
    GoesIf(ReadingsOf(s), TriesOf(s, env, attempts), EndingOf(r), left, Dml.StmtOf(s), TryOf(s, env[attempts - 1]));
  }

  /**
   Whatever RetryConflicted does is a run of the protocol. `turns` is what the other
   writers did around its rounds, and the run makes exactly those steps besides its own.
   */
  lemma RetryIsRun(o: Sys, id: nat, s: Dml.Statement, env: seq<Dml.Round>, turns: seq<Turn>,
                   r: Dml.Outcome, attempts: nat, left: Table) returns (run: seq<Event>)
    requires 1 <= attempts <= DML_COMMIT_ATTEMPTS && attempts <= |env| && Dml.RefusedBefore(s, env, attempts - 1)
    requires Dml.RoundLeaves(s, env[attempts - 1], Dml.Last(r), left) && (r.GaveUp? ==> attempts == DML_COMMIT_ATTEMPTS)
    requires id !in o.sessions && Surround(o, id, turns, TriesOf(s, env, attempts), 0)
    ensures Weaves(o, id, Session(Dml.StmtOf(s), 0, 0, Idle), run, Moves(turns, 0),
                   attempts - 1 + Counts(EndingOf(r)), EndingOf(r), left, Dml.StmtOf(s))
  {
    TriesGo(s, env, attempts, r, left);
    run := LoopIsRun(o, id, Dml.StmtOf(s), ReadingsOf(s), turns, TriesOf(s, env, attempts), EndingOf(r), left);
  }

  // ---- MERGE ----

  ghost function MergeEnding(once: Merging.MergeResult): Ending {
    match once case Merged(_) => Committed case Refused => GaveUp case _ => Broke
  }

  /** A MERGE over the source rows a round read. */
  ghost function MergeOf(spec: Merge.Spec, r: Merging.MergeRound): Stmt {
    Merge(Rejoins.JoinOn(spec, r.srcs))
  }

  /** Every attempt of a MERGE decides by the source it read. */
  ghost function MergeReadings(spec: Merge.Spec, env: seq<Merging.MergeRound>): Readings
    requires env != []
  {
    (k: nat) => if k < |env| then MergeOf(spec, env[k]) else MergeOf(spec, env[0])
  }

  /** What a MERGE attempts over the target rows it read; a join that does not plan stops there. */
  ghost function MergeTry(spec: Merge.Spec, r: Merging.MergeRound, tgts: seq<Merge.TargetRow>): Attempt {
    var seen := Dml.Seen(r.round);
    match Merge.OnSources(spec, r.srcs, tgts)
    case Planned(p) =>
      Attempt(seen, Dml.At(r.round.now), Merging.AddrsIn(tgts, p.hit), multiset(Merging.NewRows(p)))
    case _ => Attempt(seen, seen, {}, multiset{})
  }

  lemma MergeRefused(spec: Merge.Spec, r: Merging.MergeRound, tgts: seq<Merge.TargetRow>)
    ensures Merging.RoundMerges(spec, r, tgts, Merging.MergeResult.Refused, Dml.At(r.round.now)) ==>
      Refused(MergeOf(spec, r), MergeTry(spec, r, tgts))
  {
    if Merging.Reads(Dml.Seen(r.round).store, LiveAddrs(Dml.Seen(r.round)), tgts) {
      Rejoins.MergeIsPlan(spec, r.srcs, Dml.Seen(r.round), tgts);
    }
  }

  lemma MergeEnds(spec: Merge.Spec, r: Merging.MergeRound, tgts: seq<Merge.TargetRow>,
                  once: Merging.MergeResult, left: Table)
    ensures Merging.RoundMerges(spec, r, tgts, once, left) ==>
      Ends(MergeOf(spec, r), MergeTry(spec, r, tgts), MergeEnding(once), left)
  {
    if Merging.Reads(Dml.Seen(r.round).store, LiveAddrs(Dml.Seen(r.round)), tgts) {
      Rejoins.MergeIsPlan(spec, r.srcs, Dml.Seen(r.round), tgts);
    }
  }

  /** The tables around each attempt; one whose join did not plan never gets to its commit. */
  ghost function MergeSpans(env: seq<Merging.MergeRound>, attempts: nat, once: Merging.MergeResult): seq<Attempt>
    requires attempts <= |env|
  {
    seq(attempts, k requires 0 <= k < attempts =>
      var seen := Dml.Seen(env[k].round);
      var now := if k + 1 == attempts && MergeEnding(once).Broke? then seen else Dml.At(env[k].round.now);
      Attempt(seen, now, {}, multiset{}))
  }

  ghost predicate SameSpans(a: seq<Attempt>, b: seq<Attempt>) {
    |a| == |b| && forall k :: 0 <= k < |a| ==> a[k].seen == b[k].seen && a[k].now == b[k].now
  }

  lemma LeadsSpan(o: Sys, id: nat, turn: Turn, x: Attempt, y: Attempt)
    requires x.seen == y.seen && x.now == y.now
    ensures Leads(o, id, turn, x) ==> Leads(o, id, turn, y)
  {
  }

  lemma SurroundFirst(o: Sys, id: nat, turns: seq<Turn>, a: seq<Attempt>, k: nat)
    requires |turns| == |a| && k < |a|
    ensures Surround(o, id, turns, a, k) <==>
            Leads(o, id, turns[k], a[k]) && Surround(After(o, turns[k]), id, turns, a, k + 1)
  {
  }

  lemma {:induction false} SurroundSpans(o: Sys, id: nat, turns: seq<Turn>, a: seq<Attempt>, b: seq<Attempt>, k: nat)
    requires SameSpans(a, b) && |turns| == |a|
    ensures Surround(o, id, turns, a, k) ==> Surround(o, id, turns, b, k)
    decreases |a| - k
  {
    if k < |a| {
      SurroundFirst(o, id, turns, a, k);
      SurroundFirst(o, id, turns, b, k);
      LeadsSpan(o, id, turns[k], a[k], b[k]);
      if Leads(o, id, turns[k], a[k]) {
        SurroundSpans(After(o, turns[k]), id, turns, a, b, k + 1);
      }
    }
  }

  ghost function MergeTargets(spec: Merge.Spec, r: Merging.MergeRound, once: Merging.MergeResult,
                              left: Table): seq<Merge.TargetRow>
    requires Merging.MergeLeaves(spec, r, once, left)
  {
    var tgts :| Merging.RoundMerges(spec, r, tgts, once, left); tgts
  }

  /** The attempt of a round that ended in `once`, over the rows it read. */
  ghost function MergeAttempt(spec: Merge.Spec, r: Merging.MergeRound, once: Merging.MergeResult, left: Table): Attempt
    requires Merging.MergeLeaves(spec, r, once, left)
  {
    MergeTry(spec, r, MergeTargets(spec, r, once, left))
  }

  lemma AttemptSpan(spec: Merge.Spec, r: Merging.MergeRound, once: Merging.MergeResult, left: Table)
    requires Merging.MergeLeaves(spec, r, once, left)
    ensures var a := MergeAttempt(spec, r, once, left);
      a.seen == Dml.Seen(r.round) && a.now == if MergeEnding(once).Broke? then a.seen else Dml.At(r.round.now)
  {
    var tgts := MergeTargets(spec, r, once, left);
    assert Merging.RoundMerges(spec, r, tgts, once, left);
  }

  lemma RefusedMerge(spec: Merge.Spec, r: Merging.MergeRound)
    requires Merging.MergeLeaves(spec, r, Merging.MergeResult.Refused, Dml.At(r.round.now))
    ensures Refused(MergeOf(spec, r), MergeAttempt(spec, r, Merging.MergeResult.Refused, Dml.At(r.round.now)))
  {
    MergeRefused(spec, r, MergeTargets(spec, r, Merging.MergeResult.Refused, Dml.At(r.round.now)));
  }

  lemma LastMerge(spec: Merge.Spec, r: Merging.MergeRound, once: Merging.MergeResult, left: Table)
    requires Merging.MergeLeaves(spec, r, once, left)
    ensures Ends(MergeOf(spec, r), MergeAttempt(spec, r, once, left), MergeEnding(once), left)
  {
    MergeEnds(spec, r, MergeTargets(spec, r, once, left), once, left);
  }

  ghost function MergeAttempts(spec: Merge.Spec, env: seq<Merging.MergeRound>, attempts: nat, once: Merging.MergeResult,
                               left: Table): seq<Attempt>
    requires 1 <= attempts <= |env| && Merging.MergeRefusedBefore(spec, env, attempts - 1)
    requires Merging.MergeLeaves(spec, env[attempts - 1], once, left)
  {
    seq(attempts - 1, k requires 0 <= k < attempts - 1 =>
      MergeAttempt(spec, env[k], Merging.MergeResult.Refused, Dml.At(env[k].round.now)))
    + [MergeAttempt(spec, env[attempts - 1], once, left)]
  }

  lemma MergeAttemptsSpan(spec: Merge.Spec, env: seq<Merging.MergeRound>, attempts: nat,
                           once: Merging.MergeResult, left: Table)
    requires 1 <= attempts <= |env| && Merging.MergeRefusedBefore(spec, env, attempts - 1)
    requires Merging.MergeLeaves(spec, env[attempts - 1], once, left)
    ensures SameSpans(MergeSpans(env, attempts, once), MergeAttempts(spec, env, attempts, once, left))
  {
    forall k | 0 <= k < attempts
      ensures MergeSpans(env, attempts, once)[k].now == MergeAttempts(spec, env, attempts, once, left)[k].now
      ensures MergeSpans(env, attempts, once)[k].seen == MergeAttempts(spec, env, attempts, once, left)[k].seen
    {
      if k < attempts - 1 {
        AttemptSpan(spec, env[k], Merging.MergeResult.Refused, Dml.At(env[k].round.now));
      } else {
        AttemptSpan(spec, env[k], once, left);
      }
    }
  }

  lemma MergeAttemptsRefused(spec: Merge.Spec, env: seq<Merging.MergeRound>, attempts: nat,
                             once: Merging.MergeResult, left: Table)
    requires 1 <= attempts <= |env| && Merging.MergeRefusedBefore(spec, env, attempts - 1)
    requires Merging.MergeLeaves(spec, env[attempts - 1], once, left)
    ensures AllRefused(MergeReadings(spec, env), MergeAttempts(spec, env, attempts, once, left), attempts - 1)
  {
    forall k: nat | k < attempts - 1
      ensures Refused(MergeReadings(spec, env)(k), MergeAttempts(spec, env, attempts, once, left)[k])
    {
      RefusedMerge(spec, env[k]);
    }
  }

  lemma MergeGoes(spec: Merge.Spec, env: seq<Merging.MergeRound>, attempts: nat,
                  once: Merging.MergeResult, left: Table) returns (tries: seq<Attempt>)
    requires 1 <= attempts <= |env| && Merging.MergeRefusedBefore(spec, env, attempts - 1)
    requires Merging.MergeLeaves(spec, env[attempts - 1], once, left)
    ensures |tries| == attempts && SameSpans(MergeSpans(env, attempts, once), tries)
    ensures Goes(MergeReadings(spec, env), tries, MergeEnding(once), left)
  {
    tries := MergeAttempts(spec, env, attempts, once, left);
    MergeAttemptsSpan(spec, env, attempts, once, left);
    MergeAttemptsRefused(spec, env, attempts, once, left);
    LastMerge(spec, env[attempts - 1], once, left);
    GoesIf(MergeReadings(spec, env), tries, MergeEnding(once), left, MergeOf(spec, env[attempts - 1]),
           tries[attempts - 1]);
  }

  lemma MergeReadingsAgree(spec: Merge.Spec, env: seq<Merging.MergeRound>, attempts: nat)
    requires 1 <= attempts <= |env|
    ensures AllOf(MergeOf(spec, env[0]), MergeReadings(spec, env))
    ensures MergeReadings(spec, env)(attempts - 1) == MergeOf(spec, env[attempts - 1])
  {
  }

  lemma MergeLoopIsRun(o: Sys, id: nat, spec: Merge.Spec, env: seq<Merging.MergeRound>, turns: seq<Turn>,
                       tries: seq<Attempt>, once: Merging.MergeResult, left: Table) returns (run: seq<Event>)
    requires 1 <= |tries| <= DML_COMMIT_ATTEMPTS && |tries| <= |env|
    requires once.Refused? ==> |tries| == DML_COMMIT_ATTEMPTS
    requires id !in o.sessions && SameSpans(MergeSpans(env, |tries|, once), tries)
    requires Surround(o, id, turns, MergeSpans(env, |tries|, once), 0)
    ensures Goes(MergeReadings(spec, env), tries, MergeEnding(once), left) ==>
      Weaves(o, id, Session(MergeOf(spec, env[0]), 0, 0, Idle), run, Moves(turns, 0),
             |tries| - 1 + Counts(MergeEnding(once)), MergeEnding(once), left, MergeOf(spec, env[|tries| - 1]))
  {
    SurroundSpans(o, id, turns, MergeSpans(env, |tries|, once), tries, 0);
    MergeReadingsAgree(spec, env, |tries|);
    run := LoopIsRun(o, id, MergeOf(spec, env[0]), MergeReadings(spec, env), turns, tries, MergeEnding(once), left);
  }

  /**
   And so is whatever RetryMerge does, each attempt reading a source of its own; the
   statement that ends the run is the MERGE over the source its last attempt read.
   */
  lemma MergeRetryIsRun(o: Sys, id: nat, spec: Merge.Spec, env: seq<Merging.MergeRound>, turns: seq<Turn>,
                        once: Merging.MergeResult, attempts: nat, left: Table) returns (run: seq<Event>)
    requires 1 <= attempts <= DML_COMMIT_ATTEMPTS && attempts <= |env|
    requires Merging.MergeRefusedBefore(spec, env, attempts - 1)
    requires Merging.MergeLeaves(spec, env[attempts - 1], once, left)
      && (once.Refused? ==> attempts == DML_COMMIT_ATTEMPTS)
    requires id !in o.sessions && Surround(o, id, turns, MergeSpans(env, attempts, once), 0)
    ensures Weaves(o, id, Session(MergeOf(spec, env[0]), 0, 0, Idle), run, Moves(turns, 0),
                   attempts - 1 + Counts(MergeEnding(once)), MergeEnding(once), left, MergeOf(spec, env[attempts - 1]))
  {
    var tries := MergeGoes(spec, env, attempts, once, left);
    run := MergeLoopIsRun(o, id, spec, env, turns, tries, once, left);
  }
}
