/**
 The DML commit protocol as a transition system.

 Any number of statements are in flight. Each reads the manifest, matches live
 rows, and tries to commit against whatever the manifest has become; a refused
 attempt is redone whole, five times at most. INSERTs publish files at any
 moment, and compaction passes cut a copy of some files and later swap it in.
 Every step below is one manifest read or one manifest CAS, so a run of events
 is an interleaving of the writers.

 Objects written but not yet published are invisible to every reader, so an
 attempt carries its replacement rows and names their files when it commits.
 */
module Runs {
  import opened Options
  import opened Bags
  import opened Tables
  import opened Commits

  const DML_COMMIT_ATTEMPTS: nat := 5

  /** What a MERGE decides on a table's contents: the rows it takes out and the rows it puts in. */
  datatype Decision = Decision(out: multiset<Row>, rows: multiset<Row>)

  /** A MERGE is a decision on the whole contents, or None when it refuses them. */
  datatype Stmt =
    | Delete(pred: Row -> bool)
    | Update(pred: Row -> bool, assign: Row -> Row)
    | Merge(decide: multiset<Row> -> Option<Decision>)

  datatype Phase =
    | Idle
    | Ready(marks: set<Addr>, rows: multiset<Row>, since: multiset<Row>)
    | Succeeded
    | Exhausted
    | Failed

  /** `since` collects the rows other writers published after this attempt's read. */
  datatype Session = Session(stmt: Stmt, attempts: nat, commits: nat, phase: Phase)

  datatype Effect = Inserted(rows: multiset<Row>) | Ran(stmt: Stmt)

  /**
   `log`, `killed`, `taken`, `published`, `inserted` and `removed` are history:
   the effects in commit order, the addresses ever marked, the rows those marks
   took out, the rows ever published, and the two row counts.
   */
  datatype Sys = Sys(
    t: Table,
    sessions: map<nat, Session>,
    cuts: map<nat, Cut>,
    log: seq<Effect>,
    killed: multiset<Addr>,
    taken: multiset<Row>,
    published: multiset<Row>,
    inserted: nat,
    removed: nat)

  datatype Event =
    | Insert(objs: map<Path, seq<Row>>)
    | Start(id: nat, stmt: Stmt)
    | Read(id: nat, stmt: Stmt, marks: set<Addr>, rows: multiset<Row>)
    | Commit(id: nat, objs: map<Path, seq<Row>>)
    | Refuse(id: nat)
    | Fail(id: nat)
    | BeginCompact(id: nat, inputs: set<Path>)
    | Compact(id: nat, objs: map<Path, seq<Row>>)
    | AbandonCompact(id: nat)

  ghost function Matching(t: Table, pred: Row -> bool): set<Addr> {
    set a | a in LiveAddrs(t) && pred(RowAt(t.store, a))
  }

  /** What one attempt may decide after reading `t`. */
  ghost predicate Plans(stmt: Stmt, t: Table, marks: set<Addr>, rows: multiset<Row>) {
    match stmt
    case Delete(pred) => marks == Matching(t, pred) && rows == multiset{}
    case Update(pred, assign) => marks == Matching(t, pred) && rows == Map(RowsAt(t.store, marks), assign)
    case Merge(decide) => marks <= LiveAddrs(t) && decide(Live(t)) == Some(Decision(RowsAt(t.store, marks), rows))
  }

  /** A MERGE reads its source again with every attempt, so what it decides may change with the source. */
  ghost predicate SameStatement(was: Stmt, now: Stmt) {
    was == now || (was.Merge? && now.Merge?)
  }

  ghost predicate Fresh(t: Table, objs: map<Path, seq<Row>>) {
    objs.Keys !! t.store.Keys
  }

  ghost predicate Waiting(s: Sys, id: nat) {
    id in s.sessions && s.sessions[id].phase.Ready?
  }

  ghost predicate Enabled(s: Sys, e: Event) {
    match e
    case Insert(objs) => Fresh(s.t, objs)
    case Start(id, stmt) => id !in s.sessions
    case Read(id, stmt, marks, rows) =>
      && id in s.sessions && s.sessions[id].phase.Idle?
      && SameStatement(s.sessions[id].stmt, stmt) && Plans(stmt, s.t, marks, rows)
    case Commit(id, objs) =>
      && Waiting(s, id) && Fresh(s.t, objs)
      && CanCommit(s.t, s.sessions[id].phase.marks) && BagOf(objs) == s.sessions[id].phase.rows
    case Refuse(id) => Waiting(s, id) && !CanCommit(s.t, s.sessions[id].phase.marks)
    case Fail(id) => id in s.sessions && (s.sessions[id].phase.Idle? || s.sessions[id].phase.Ready?)
    case BeginCompact(id, inputs) => id !in s.cuts && inputs != {} && inputs <= s.t.files
    case Compact(id, objs) =>
      && id in s.cuts && Fresh(s.t, objs)
      && CanSwap(s.t, s.cuts[id]) && BagOf(objs) == s.cuts[id].rows
    case AbandonCompact(id) => id in s.cuts && !CanSwap(s.t, s.cuts[id])
  }

  ghost function Noted(x: Session, rows: multiset<Row>): Session {
    if x.phase.Ready? then x.(phase := x.phase.(since := x.phase.since + rows)) else x
  }

  /** Every waiting attempt notes the rows another writer has just published. */
  ghost function NotedAll(sessions: map<nat, Session>, rows: multiset<Row>): map<nat, Session> {
    map id | id in sessions :: Noted(sessions[id], rows)
  }

  ghost function CommittedSessions(sessions: map<nat, Session>, id: nat): map<nat, Session>
    requires id in sessions && sessions[id].phase.Ready?
  {
    var x := sessions[id];
    NotedAll(sessions, x.phase.rows)[id := x.(commits := x.commits + 1, phase := Succeeded)]
  }

  ghost function AfterCommit(s: Sys, id: nat, objs: map<Path, seq<Row>>): Sys
    requires Waiting(s, id)
  {
    var x := s.sessions[id];
    var out := RowsAt(s.t.store, x.phase.marks);
    Sys(Publish(s.t, objs, x.phase.marks),
        CommittedSessions(s.sessions, id),
        s.cuts,
        s.log + [Ran(x.stmt)],
        s.killed + multiset(x.phase.marks),
        s.taken + out,
        s.published + x.phase.rows,
        s.inserted + (if x.stmt.Merge? then |x.phase.rows| else 0),
        s.removed + (if x.stmt.Update? then 0 else |x.phase.marks|))
  }

  ghost function AfterInsert(s: Sys, objs: map<Path, seq<Row>>): Sys {
    s.(t := Publish(s.t, objs, {}),
       sessions := NotedAll(s.sessions, BagOf(objs)),
       log := s.log + [Inserted(BagOf(objs))],
       published := s.published + BagOf(objs),
       inserted := s.inserted + |BagOf(objs)|)
  }

  ghost function AfterRefusal(x: Session): Session {
    x.(phase := if x.attempts < DML_COMMIT_ATTEMPTS then Idle else Exhausted)
  }

  /** The steps that touch nothing but their own statement. */
  ghost predicate Private(e: Event) {
    e.Start? || e.Read? || e.Refuse? || e.Fail?
  }

  ghost function AfterPrivate(sessions: map<nat, Session>, e: Event): Session
    requires Private(e) && (e.Start? || e.id in sessions)
  {
    match e
    case Start(id, stmt) => Session(stmt, 0, 0, Idle)
    case Read(id, stmt, marks, rows) =>
      var x := sessions[id];
      x.(stmt := stmt, attempts := x.attempts + 1, phase := Ready(marks, rows, multiset{}))
    case Refuse(id) => AfterRefusal(sessions[id])
    case Fail(id) => sessions[id].(phase := Failed)
  }

  ghost function Apply(s: Sys, e: Event): Sys
    requires Enabled(s, e)
  {
    match e
    case Insert(objs) => AfterInsert(s, objs)
    case Start(id, _) => s.(sessions := s.sessions[id := AfterPrivate(s.sessions, e)])
    case Read(id, _, _, _) => s.(sessions := s.sessions[id := AfterPrivate(s.sessions, e)])
    case Commit(id, objs) => AfterCommit(s, id, objs)
    case Refuse(id) => s.(sessions := s.sessions[id := AfterPrivate(s.sessions, e)])
    case Fail(id) => s.(sessions := s.sessions[id := AfterPrivate(s.sessions, e)])
    case BeginCompact(id, inputs) => s.(cuts := s.cuts[id := CutFrom(s.t, inputs)])
    case Compact(id, objs) => s.(t := Swapped(s.t, s.cuts[id], objs), cuts := s.cuts - {id})
    case AbandonCompact(id) => s.(cuts := s.cuts - {id})
  }

  /** A fresh system over `t`: nothing in flight, no history. */
  ghost function Initial(t: Table): Sys {
    Sys(t, map[], map[], [], multiset{}, multiset{}, multiset{}, 0, 0)
  }

  ghost predicate ValidRun(s: Sys, run: seq<Event>)
    decreases |run|
  {
    run == [] || (Enabled(s, run[0]) && ValidRun(Apply(s, run[0]), run[1..]))
  }

  ghost function Final(s: Sys, run: seq<Event>): Sys
    requires ValidRun(s, run)
    decreases |run|
  {
    if run == [] then s else Final(Apply(s, run[0]), run[1..])
  }

  // ---- What every step keeps ----

  /**
   While every file an attempt marked is still listed, a live row that matches
   its predicate is one it marked or one published after it read.
   */
  ghost predicate Covers(t: Table, pred: Row -> bool, marks: set<Addr>, since: multiset<Row>) {
    (forall a :: a in marks ==> a.path in t.files) ==>
      forall a :: a in LiveAddrs(t) && pred(RowAt(t.store, a)) ==> a in marks || RowAt(t.store, a) in since
  }

  ghost predicate Matched(store: map<Path, seq<Row>>, pred: Row -> bool, marks: set<Addr>) {
    forall a :: a in marks ==> pred(RowAt(store, a))
  }

  ghost predicate PlanHolds(t: Table, stmt: Stmt, p: Phase)
    requires p.Ready?
  {
    && InRange(t.store, p.marks)
    && match stmt
       case Delete(pred) =>
         p.rows == multiset{} && Matched(t.store, pred, p.marks) && Covers(t, pred, p.marks, p.since)
       case Update(pred, assign) =>
         && p.rows == Map(RowsAt(t.store, p.marks), assign)
         && Matched(t.store, pred, p.marks) && Covers(t, pred, p.marks, p.since)
       case Merge(decide) => Decided(decide, RowsAt(t.store, p.marks), p.rows)
  }

  /** Some contents led the MERGE to take `out` and put `rows` in their place. */
  ghost predicate Decided(decide: multiset<Row> -> Option<Decision>, out: multiset<Row>, rows: multiset<Row>) {
    exists was :: decide(was) == Some(Decision(out, rows))
  }

  /** At most five attempts, at most one commit, and a commit exactly when it succeeded. */
  ghost predicate Bounded(x: Session) {
    && x.attempts <= DML_COMMIT_ATTEMPTS
    && x.commits == (if x.phase.Succeeded? then 1 else 0)
    && (x.phase.Idle? ==> x.attempts < DML_COMMIT_ATTEMPTS)
    && (x.phase.Ready? ==> 1 <= x.attempts)
    && (x.phase.Exhausted? ==> x.attempts == DML_COMMIT_ATTEMPTS)
  }

  ghost predicate SessionHolds(t: Table, x: Session) {
    Bounded(x) && (x.phase.Ready? ==> PlanHolds(t, x.stmt, x.phase))
  }

  /** An address is marked at most once, and while its file is listed it stays marked. */
  ghost predicate KilledOnce(t: Table, killed: multiset<Addr>) {
    forall a :: a in killed ==>
      killed[a] == 1 && a.path in t.store && (a.path in t.files ==> a in t.deleted)
  }

  ghost predicate Inv(s: Sys) {
    && Valid(s.t)
    && (forall id :: id in s.sessions ==> SessionHolds(s.t, s.sessions[id]))
    && (forall id :: id in s.cuts ==> Faithful(s.t.store, s.cuts[id]))
    && KilledOnce(s.t, s.killed)
  }

  lemma CoversPublish(t: Table, objs: map<Path, seq<Row>>, out: set<Addr>,
                      pred: Row -> bool, marks: set<Addr>, since: multiset<Row>)
    requires Valid(t) && Fresh(t, objs) && InRange(t.store, marks)
    requires Covers(t, pred, marks, since)
    ensures Covers(Publish(t, objs, out), pred, marks, since + BagOf(objs))
  {
    var t' := Publish(t, objs, out);
    if forall a :: a in marks ==> a.path in t'.files {
      forall a | a in LiveAddrs(t') && pred(RowAt(t'.store, a))
        ensures a in marks || RowAt(t'.store, a) in since + BagOf(objs)
      {
        if a.path in objs {
          MapIn(multiset(Slots(objs, objs.Keys)), (b: Addr) => RowAt(objs, b), a);
        } else {
          assert a in LiveAddrs(t);
        }
      }
    }
  }

  lemma CoversSwap(t: Table, c: Cut, objs: map<Path, seq<Row>>,
                   pred: Row -> bool, marks: set<Addr>, since: multiset<Row>)
    requires Valid(t) && Fresh(t, objs) && InRange(t.store, marks)
    requires CanSwap(t, c) && Faithful(t.store, c) && BagOf(objs) == c.rows
    requires Covers(t, pred, marks, since)
    ensures Covers(Swapped(t, c, objs), pred, marks, since)
  {
    var t' := Swapped(t, c, objs);
    if forall a :: a in marks ==> a.path in t'.files {
      forall a | a in LiveAddrs(t') && pred(RowAt(t'.store, a))
        ensures a in marks || RowAt(t'.store, a) in since
      {
        SwappedAddrs(t, c, objs);
        if a.path in objs {
          MapIn(multiset(Slots(objs, objs.Keys)), (b: Addr) => RowAt(objs, b), a);
          var b := MapWitness(multiset(Slots(t.store, c.inputs) - c.applied),
                              (b: Addr) => RowAt(t.store, b), RowAt(objs, a));
          assert b in LiveAddrs(t) && b !in marks;
        } else {
          assert a in LiveAddrs(t);
        }
      }
    }
  }

  lemma PlanAfterPublish(t: Table, objs: map<Path, seq<Row>>, out: set<Addr>, stmt: Stmt, p: Phase)
    requires p.Ready? && Valid(t) && Fresh(t, objs) && PlanHolds(t, stmt, p)
    ensures PlanHolds(Publish(t, objs, out), stmt, p.(since := p.since + BagOf(objs)))
  {
    var t' := Publish(t, objs, out);
    RowsStable(t.store, t'.store, p.marks);
    if !stmt.Merge? {
      CoversPublish(t, objs, out, stmt.pred, p.marks, p.since);
    }
  }

  lemma PlanAfterSwap(t: Table, c: Cut, objs: map<Path, seq<Row>>, stmt: Stmt, p: Phase)
    requires p.Ready? && Valid(t) && Fresh(t, objs) && PlanHolds(t, stmt, p)
    requires CanSwap(t, c) && Faithful(t.store, c) && BagOf(objs) == c.rows
    ensures PlanHolds(Swapped(t, c, objs), stmt, p)
  {
    var t' := Swapped(t, c, objs);
    RowsStable(t.store, t'.store, p.marks);
    if !stmt.Merge? {
      CoversSwap(t, c, objs, stmt.pred, p.marks, p.since);
    }
  }

  lemma FaithfulStable(store: map<Path, seq<Row>>, store': map<Path, seq<Row>>, c: Cut)
    requires Faithful(store, c) && Grows(store, store')
    ensures Faithful(store', c)
  {
    assert Slots(store', c.inputs) == Slots(store, c.inputs);
    RowsStable(store, store', Slots(store, c.inputs) - c.applied);
  }

  lemma SessionsAfterPublish(s: Sys, objs: map<Path, seq<Row>>, out: set<Addr>)
    requires Inv(s) && Fresh(s.t, objs)
    ensures forall id :: id in s.sessions ==>
      SessionHolds(Publish(s.t, objs, out), NotedAll(s.sessions, BagOf(objs))[id])
  {
    forall id | id in s.sessions
      ensures SessionHolds(Publish(s.t, objs, out), NotedAll(s.sessions, BagOf(objs))[id])
    {
      var x := s.sessions[id];
      if x.phase.Ready? {
        PlanAfterPublish(s.t, objs, out, x.stmt, x.phase);
      }
    }
  }

  lemma CutsAfterGrowth(s: Sys, store': map<Path, seq<Row>>)
    requires Inv(s) && Grows(s.t.store, store')
    ensures forall id :: id in s.cuts ==> Faithful(store', s.cuts[id])
  {
    forall id | id in s.cuts
      ensures Faithful(store', s.cuts[id])
    {
      FaithfulStable(s.t.store, store', s.cuts[id]);
    }
  }

  lemma InsertKeepsInv(s: Sys, objs: map<Path, seq<Row>>)
    requires Inv(s) && Enabled(s, Insert(objs))
    ensures Inv(Apply(s, Insert(objs)))
  {
    CommitConserves(s.t, objs, {});
    SessionsAfterPublish(s, objs, {});
    CutsAfterGrowth(s, Publish(s.t, objs, {}).store);
  }

  lemma CommitKeepsSessions(s: Sys, id: nat, objs: map<Path, seq<Row>>)
    requires Inv(s) && Enabled(s, Commit(id, objs))
    ensures forall i :: i in AfterCommit(s, id, objs).sessions ==>
      SessionHolds(AfterCommit(s, id, objs).t, AfterCommit(s, id, objs).sessions[i])
  {
    var x, s' := s.sessions[id], AfterCommit(s, id, objs);
    SessionsAfterPublish(s, objs, x.phase.marks);
    forall i | i in s'.sessions
      ensures SessionHolds(s'.t, s'.sessions[i])
    {
      if i == id {
        assert Bounded(x);
        DoneHolds(s'.t, x);
      } else {
        assert s'.sessions[i] == NotedAll(s.sessions, BagOf(objs))[i];
      }
    }
  }

  lemma DoneHolds(t: Table, x: Session)
    requires Bounded(x) && x.phase.Ready?
    ensures SessionHolds(t, x.(commits := x.commits + 1, phase := Succeeded))
  {
  }

  lemma CommitKeepsInv(s: Sys, id: nat, objs: map<Path, seq<Row>>)
    requires Inv(s) && Enabled(s, Commit(id, objs))
    ensures Inv(Apply(s, Commit(id, objs)))
  {
    var marks := s.sessions[id].phase.marks;
    assert SessionHolds(s.t, s.sessions[id]);
    PublishedAddrs(s.t, objs, marks);
    CommitKeepsSessions(s, id, objs);
    CutsAfterGrowth(s, Publish(s.t, objs, marks).store);
    MarkedOnce(s.t, objs, marks, s.killed);
  }

  lemma MarkedOnce(t: Table, objs: map<Path, seq<Row>>, marks: set<Addr>, killed: multiset<Addr>)
    requires Valid(t) && KilledOnce(t, killed) && CanCommit(t, marks) && InRange(t.store, marks) && Fresh(t, objs)
    ensures KilledOnce(Publish(t, objs, marks), killed + multiset(marks))
    ensures forall a :: a in marks ==> a !in killed
  {
  }

  lemma CompactKeepsInv(s: Sys, id: nat, objs: map<Path, seq<Row>>)
    requires Inv(s) && Enabled(s, Compact(id, objs))
    ensures Inv(Apply(s, Compact(id, objs)))
  {
    var c := s.cuts[id];
    var t' := Swapped(s.t, c, objs);
    SwapConserves(s.t, c, objs);
    CutsAfterGrowth(s, t'.store);
    forall i | i in s.sessions
      ensures SessionHolds(t', s.sessions[i])
    {
      var x := s.sessions[i];
      if x.phase.Ready? {
        PlanAfterSwap(s.t, c, objs, x.stmt, x.phase);
      }
    }
    forall a | a in s.killed && a.path in t'.files
      ensures a in t'.deleted
    {
      assert a.path !in c.inputs;
    }
  }

  /** A plan is covered the moment it is made. */
  lemma PlanAtRead(t: Table, stmt: Stmt, marks: set<Addr>, rows: multiset<Row>)
    requires Plans(stmt, t, marks, rows)
    ensures PlanHolds(t, stmt, Ready(marks, rows, multiset{}))
  {
  }

  lemma SessionChangeKeepsInv(s: Sys, id: nat, x: Session)
    requires Inv(s) && SessionHolds(s.t, x)
    ensures Inv(s.(sessions := s.sessions[id := x]))
  {
  }

  lemma StatementStepKeepsInv(s: Sys, e: Event)
    requires Inv(s) && Enabled(s, e)
    requires e.Start? || e.Read? || e.Refuse? || e.Fail?
    ensures Inv(Apply(s, e))
    ensures Apply(s, e).t == s.t
  {
    if e.Start? {
      SessionChangeKeepsInv(s, e.id, Session(e.stmt, 0, 0, Idle));
    } else {
      var x, x' := s.sessions[e.id], Apply(s, e).sessions[e.id];
      assert Bounded(x) && Bounded(x');
      if e.Read? {
        PlanAtRead(s.t, e.stmt, e.marks, e.rows);
      }
      SessionChangeKeepsInv(s, e.id, x');
    }
  }

  lemma CutStepKeepsInv(s: Sys, e: Event)
    requires Inv(s) && Enabled(s, e)
    requires e.BeginCompact? || e.AbandonCompact?
    ensures Inv(Apply(s, e))
    ensures Apply(s, e).t == s.t
  {
    if e.BeginCompact? {
      CutIsFaithful(s.t, e.inputs);
    }
    CutChangeKeepsInv(s, Apply(s, e).cuts);
  }

  lemma CutIsFaithful(t: Table, inputs: set<Path>)
    requires Valid(t) && inputs <= t.files
    ensures Faithful(t.store, CutFrom(t, inputs))
  {
  }

  lemma CutChangeKeepsInv(s: Sys, cuts: map<nat, Cut>)
    requires Inv(s) && forall id :: id in cuts ==> Faithful(s.t.store, cuts[id])
    ensures Inv(s.(cuts := cuts))
  {
  }

  lemma StepKeepsInv(s: Sys, e: Event)
    requires Inv(s) && Enabled(s, e)
    ensures Inv(Apply(s, e))
  {
    match e
    case Insert(objs) => InsertKeepsInv(s, objs);
    case Commit(id, objs) => CommitKeepsInv(s, id, objs);
    case Compact(id, objs) => CompactKeepsInv(s, id, objs);
    case BeginCompact(_, _) => CutStepKeepsInv(s, e);
    case AbandonCompact(_) => CutStepKeepsInv(s, e);
    case _ => StatementStepKeepsInv(s, e);
  }
}
