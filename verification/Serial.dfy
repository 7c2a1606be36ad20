/**
 What the commit protocol guarantees over whole runs: which physical rows are
 ever superseded, how the rows add up, that keys stay unique, and that the
 committed statements have a serial order.
 */
module Serial {
  import opened Options
  import opened Bags
  import opened Tables
  import opened Commits
  import opened Runs

  // ---- Safety and conservation ----

  /** The table's rows are the rows it started with, plus those published, less those superseded. */
  ghost predicate Balanced(start: multiset<Row>, s: Sys) {
    Live(s.t) + s.taken == start + s.published
  }

  /** Live rows = initial + inserted - deleted: an UPDATE and a compaction leave the count alone. */
  ghost predicate Counted(start: nat, s: Sys) {
    |Live(s.t)| + s.removed == start + s.inserted
  }

  lemma Rebalance<A>(live: multiset<A>, live': multiset<A>, taken: multiset<A>, start: multiset<A>,
                     published: multiset<A>, out: multiset<A>, rows: multiset<A>)
    requires live + taken == start + published
    requires live' + out == live + rows
    ensures live' + (taken + out) == start + (published + rows)
  {
    assert live' + (taken + out) == (live' + out) + taken;
    assert (live + rows) + taken == (live + taken) + rows;
    assert (start + published) + rows == start + (published + rows);
  }

  lemma InsertCounts(t: Table, objs: map<Path, seq<Row>>)
    requires Valid(t) && Fresh(t, objs)
    ensures |Live(Publish(t, objs, {}))| == |Live(t)| + |BagOf(objs)|
  {
    CommitConserves(t, objs, {});
    assert |Live(Publish(t, objs, {})) + RowsAt(t.store, {})| == |Live(t) + BagOf(objs)|;
  }

  lemma CommitCounts(s: Sys, id: nat, objs: map<Path, seq<Row>>)
    requires Inv(s) && Enabled(s, Commit(id, objs))
    ensures |Live(AfterCommit(s, id, objs).t)| + |s.sessions[id].phase.marks|
            == |Live(s.t)| + |s.sessions[id].phase.rows|
    ensures s.sessions[id].stmt.Delete? ==> |s.sessions[id].phase.rows| == 0
    ensures s.sessions[id].stmt.Update? ==> |s.sessions[id].phase.rows| == |s.sessions[id].phase.marks|
  {
    var x := s.sessions[id];
    assert SessionHolds(s.t, x);
    CommitConserves(s.t, objs, x.phase.marks);
    assert |RowsAt(s.t.store, x.phase.marks)| == |multiset(x.phase.marks)| == |x.phase.marks|;
    assert |Live(AfterCommit(s, id, objs).t) + RowsAt(s.t.store, x.phase.marks)| == |Live(s.t) + BagOf(objs)|;
  }

  /** Only an INSERT, a commit or a swap touches the table or its history. */
  lemma QuietStep(s: Sys, e: Event)
    requires Enabled(s, e) && !e.Insert? && !e.Commit? && !e.Compact?
    ensures Apply(s, e) == s.(sessions := Apply(s, e).sessions, cuts := Apply(s, e).cuts)
  {
  }

  lemma CommitBalances(start: multiset<Row>, s: Sys, id: nat, objs: map<Path, seq<Row>>)
    requires Inv(s) && Enabled(s, Commit(id, objs)) && Balanced(start, s)
    ensures Balanced(start, AfterCommit(s, id, objs))
  {
    var marks, s' := s.sessions[id].phase.marks, AfterCommit(s, id, objs);
    assert SessionHolds(s.t, s.sessions[id]);
    CommitConserves(s.t, objs, marks);
    Rebalance(Live(s.t), Live(s'.t), s.taken, start, s.published, RowsAt(s.t.store, marks), BagOf(objs));
  }

  lemma StepBalances(start: multiset<Row>, s: Sys, e: Event)
    requires Inv(s) && Enabled(s, e) && Balanced(start, s)
    ensures Balanced(start, Apply(s, e))
  {
    match e
    case Insert(objs) =>
      CommitConserves(s.t, objs, {});
      Rebalance(Live(s.t), Live(Apply(s, e).t), s.taken, start, s.published, RowsAt(s.t.store, {}), BagOf(objs));
    case Commit(id, objs) => CommitBalances(start, s, id, objs);
    case Compact(id, objs) => SwapConserves(s.t, s.cuts[id], objs);
    case _ => QuietStep(s, e);
  }

  /** A compaction, and every step that touches no table, leaves the contents and the counts alone. */
  lemma SameContents(s: Sys, e: Event)
    requires Inv(s) && Enabled(s, e) && !e.Insert? && !e.Commit?
    ensures var s' := Apply(s, e);
      Live(s'.t) == Live(s.t) && s'.removed == s.removed && s'.inserted == s.inserted
  {
    if e.Compact? {
      SwapConserves(s.t, s.cuts[e.id], e.objs);
    } else {
      QuietStep(s, e);
    }
  }

  lemma InsertKeepsCount(start: nat, s: Sys, objs: map<Path, seq<Row>>)
    requires Inv(s) && Enabled(s, Insert(objs)) && Counted(start, s)
    ensures Counted(start, Apply(s, Insert(objs)))
  {
    InsertCounts(s.t, objs);
  }

  lemma CommitKeepsCount(start: nat, s: Sys, id: nat, objs: map<Path, seq<Row>>)
    requires Inv(s) && Enabled(s, Commit(id, objs)) && Counted(start, s)
    ensures Counted(start, Apply(s, Commit(id, objs)))
  {
    CommitCounts(s, id, objs);
    assert Apply(s, Commit(id, objs)) == AfterCommit(s, id, objs);
  }

  lemma StepCounts(start: nat, s: Sys, e: Event)
    requires Inv(s) && Enabled(s, e) && Counted(start, s)
    ensures Counted(start, Apply(s, e))
  {
    if e.Insert? {
      InsertKeepsCount(start, s, e.objs);
    } else if e.Commit? {
      CommitKeepsCount(start, s, e.id, e.objs);
    } else {
      SameContents(s, e);
    }
  }

  lemma {:induction false} SafetyFrom(start: multiset<Row>, s: Sys, run: seq<Event>)
    requires Inv(s) && Balanced(start, s) && Counted(|start|, s) && ValidRun(s, run)
    ensures Inv(Final(s, run)) && Balanced(start, Final(s, run)) && Counted(|start|, Final(s, run))
    decreases |run|
  {
    if run != [] {
      StepKeepsInv(s, run[0]);
      StepBalances(start, s, run[0]);
      StepCounts(|start|, s, run[0]);
      SafetyFrom(start, Apply(s, run[0]), run[1..]);
    }
  }

  /**
   Every run from a valid table keeps every marker on a listed file and a row it
   has, marks no physical row twice, accounts for every row, bounds every
   statement to five attempts and one commit, and lets a statement that gave up
   or failed publish nothing.
   */
  lemma RunsAreSafe(t: Table, run: seq<Event>)
    requires Valid(t) && ValidRun(Initial(t), run)
    ensures var s := Final(Initial(t), run);
      && Valid(s.t)
      && (forall a :: s.killed[a] <= 1)
      && Live(s.t) + s.taken == Live(t) + s.published
      && |Live(s.t)| + s.removed == |Live(t)| + s.inserted
      && forall id :: id in s.sessions ==>
           && s.sessions[id].attempts <= DML_COMMIT_ATTEMPTS
           && s.sessions[id].commits <= 1
           && (s.sessions[id].commits == 1 <==> s.sessions[id].phase.Succeeded?)
           && (s.sessions[id].phase.Exhausted? ==> s.sessions[id].attempts == DML_COMMIT_ATTEMPTS)
  {
    SafetyFrom(Live(t), Initial(t), run);
    var s := Final(Initial(t), run);
    forall a
      ensures s.killed[a] <= 1
    {
      assert a in s.killed ==> s.killed[a] == 1;
    }
    forall id | id in s.sessions
      ensures Bounded(s.sessions[id])
    {
    }
  }

  // ---- Runs piece by piece ----

  lemma Extend(s: Sys, e: Event, rest: seq<Event>)
    requires Enabled(s, e) && ValidRun(Apply(s, e), rest)
    ensures ValidRun(s, [e] + rest) && Final(s, [e] + rest) == Final(Apply(s, e), rest)
  {
  }

  /** The run leads from `s` to `s'`. */
  ghost predicate Reaches(s: Sys, run: seq<Event>, s': Sys) {
    ValidRun(s, run) && Final(s, run) == s'
  }

  lemma HeadTail<A>(a: seq<A>, b: seq<A>)
    requires a != []
    ensures a + b == [a[0]] + (a[1..] + b)
  {
  }

  lemma {:induction false} Concat(s: Sys, a: seq<Event>, b: seq<Event>)
    requires ValidRun(s, a) && ValidRun(Final(s, a), b)
    ensures ValidRun(s, a + b) && Final(s, a + b) == Final(Final(s, a), b)
    decreases |a|
  {
    if a == [] {
      assert a + b == b;
    } else {
      Concat(Apply(s, a[0]), a[1..], b);
      Extend(s, a[0], a[1..] + b);
      HeadTail(a, b);
    }
  }

  lemma Then(s: Sys, a: seq<Event>, m: Sys, b: seq<Event>, s': Sys)
    requires Reaches(s, a, m) && Reaches(m, b, s')
    ensures Reaches(s, a + b, s')
  {
    Concat(s, a, b);
  }

  lemma OneStep(s: Sys, e: Event)
    requires Enabled(s, e)
    ensures Reaches(s, [e], Apply(s, e))
  {
    Extend(s, e, []);
    assert [e] + [] == [e];
  }

  // ---- Statements that give up ----

  /** A step of statement `id`. */
  ghost predicate Of(e: Event, id: nat) {
    (e.Start? || e.Read? || e.Commit? || e.Refuse? || e.Fail?) && e.id == id
  }

  /** The run with every step of statement `id` left out. */
  ghost function Without(run: seq<Event>, id: nat): seq<Event> {
    if run == [] then [] else (if Of(run[0], id) then [] else [run[0]]) + Without(run[1..], id)
  }

  ghost function Hide(s: Sys, id: nat): Sys {
    s.(sessions := s.sessions - {id})
  }

  ghost predicate NeverCommits(run: seq<Event>, id: nat) {
    forall i :: 0 <= i < |run| ==> !(run[i].Commit? && run[i].id == id)
  }

  /** A step of its own changes nothing but the statement's session. */
  lemma PrivateStep(s: Sys, e: Event)
    requires Enabled(s, e) && Private(e)
    ensures Apply(s, e) == s.(sessions := s.sessions[e.id := AfterPrivate(s.sessions, e)])
  {
  }

  lemma Overwritten(sessions: map<nat, Session>, id: nat, x: Session)
    ensures sessions[id := x] - {id} == sessions - {id}
  {
  }

  lemma OwnStepHidden(s: Sys, e: Event, id: nat)
    requires Enabled(s, e) && Of(e, id) && !e.Commit?
    ensures Hide(Apply(s, e), id) == Hide(s, id)
  {
    PrivateStep(s, e);
    Overwritten(s.sessions, id, AfterPrivate(s.sessions, e));
  }

  lemma NotedHidden(sessions: map<nat, Session>, rows: multiset<Row>, id: nat)
    ensures NotedAll(sessions - {id}, rows) == NotedAll(sessions, rows) - {id}
  {
  }

  lemma UpdateHidden(sessions: map<nat, Session>, id: nat, other: nat, x: Session)
    requires id != other
    ensures (sessions - {id})[other := x] == sessions[other := x] - {id}
  {
  }

  lemma CommittedHidden(sessions: map<nat, Session>, other: nat, id: nat)
    requires other in sessions && sessions[other].phase.Ready? && other != id
    ensures other in sessions - {id} && (sessions - {id})[other] == sessions[other]
    ensures CommittedSessions(sessions - {id}, other) == CommittedSessions(sessions, other) - {id}
  {
    var x := sessions[other];
    NotedHidden(sessions, x.phase.rows, id);
    UpdateHidden(NotedAll(sessions, x.phase.rows), id, other, x.(commits := x.commits + 1, phase := Succeeded));
  }

  lemma CommitHidden(s: Sys, other: nat, objs: map<Path, seq<Row>>, id: nat)
    requires Waiting(s, other) && other != id
    ensures Waiting(Hide(s, id), other)
      && AfterCommit(Hide(s, id), other, objs) == Hide(AfterCommit(s, other, objs), id)
  {
    CommittedHidden(s.sessions, other, id);
    var x, y := AfterCommit(Hide(s, id), other, objs), AfterCommit(s, other, objs);
    assert x.sessions == y.sessions - {id};
  }

  lemma EnabledHidden(s: Sys, e: Event, id: nat)
    requires Enabled(s, e) && !Of(e, id)
    ensures Enabled(Hide(s, id), e)
  {
    assert forall other :: other != id && other in s.sessions ==> Hide(s, id).sessions[other] == s.sessions[other];
  }

  lemma PrivateHidden(sessions: map<nat, Session>, e: Event, id: nat)
    requires Private(e) && (e.Start? || e.id in sessions) && e.id != id
    ensures (sessions - {id})[e.id := AfterPrivate(sessions - {id}, e)] ==
      sessions[e.id := AfterPrivate(sessions, e)] - {id}
  {
    assert AfterPrivate(sessions - {id}, e) == AfterPrivate(sessions, e);
    UpdateHidden(sessions, id, e.id, AfterPrivate(sessions, e));
  }

  lemma OtherStepHidden(s: Sys, e: Event, id: nat)
    requires Enabled(s, e) && !Of(e, id)
    ensures Enabled(Hide(s, id), e) && Apply(Hide(s, id), e) == Hide(Apply(s, e), id)
  {
    EnabledHidden(s, e, id);
    if e.Insert? {
      NotedHidden(s.sessions, BagOf(e.objs), id);
    } else if e.Commit? {
      CommitHidden(s, e.id, e.objs, id);
    } else if Private(e) {
      PrivateHidden(s.sessions, e, id);
    }
  }

  lemma {:induction false} HiddenRun(s: Sys, run: seq<Event>, id: nat)
    requires ValidRun(s, run) && NeverCommits(run, id)
    ensures ValidRun(Hide(s, id), Without(run, id))
    ensures Final(Hide(s, id), Without(run, id)) == Hide(Final(s, run), id)
    decreases |run|
  {
    if run != [] {
      HiddenRun(Apply(s, run[0]), run[1..], id);
      if Of(run[0], id) {
        OwnStepHidden(s, run[0], id);
        assert Without(run, id) == Without(run[1..], id);
      } else {
        OtherStepHidden(s, run[0], id);
        Extend(Hide(s, id), run[0], Without(run[1..], id));
      }
    }
  }

  lemma {:induction false} SuccessStays(s: Sys, run: seq<Event>, id: nat)
    requires ValidRun(s, run) && id in s.sessions && s.sessions[id].phase.Succeeded?
    ensures id in Final(s, run).sessions && Final(s, run).sessions[id].phase.Succeeded?
    decreases |run|
  {
    if run != [] {
      SuccessStaysNext(s, run[0], id);
      SuccessStays(Apply(s, run[0]), run[1..], id);
    }
  }

  lemma SuccessStaysNext(s: Sys, e: Event, id: nat)
    requires Enabled(s, e) && id in s.sessions && s.sessions[id].phase.Succeeded?
    ensures id in Apply(s, e).sessions && Apply(s, e).sessions[id].phase.Succeeded?
  {
    if !Of(e, id) {
      OtherStepHidden(s, e, id);
    }
  }

  lemma {:induction false} CommittedSucceeds(s: Sys, run: seq<Event>, id: nat)
    requires ValidRun(s, run) && !NeverCommits(run, id)
    ensures id in Final(s, run).sessions && Final(s, run).sessions[id].phase.Succeeded?
    decreases |run|
  {
    var rest := Apply(s, run[0]);
    if run[0].Commit? && run[0].id == id {
      SuccessStays(rest, run[1..], id);
    } else {
      var i :| 0 <= i < |run| && run[i].Commit? && run[i].id == id;
      assert run[1..][i - 1] == run[i];
      CommittedSucceeds(rest, run[1..], id);
    }
  }

  /**
   A statement that was refused until it gave up, or failed, leaves no trace: the
   run without any of its steps is a run, and ends in the same table, the same
   history and the same other statements.
   */
  lemma GivingUpLeavesNoTrace(t: Table, run: seq<Event>, id: nat)
    requires ValidRun(Initial(t), run)
    requires var s := Final(Initial(t), run); id in s.sessions ==> !s.sessions[id].phase.Succeeded?
    ensures ValidRun(Initial(t), Without(run, id))
    ensures Final(Initial(t), Without(run, id)) == Hide(Final(Initial(t), run), id)
  {
    if !NeverCommits(run, id) {
      CommittedSucceeds(Initial(t), run, id);
    }
    assert Hide(Initial(t), id) == Initial(t);
    HiddenRun(Initial(t), run, id);
  }

  // ---- Serial order ----

  /** One statement run alone on the contents `live`. */
  ghost function Solo(live: multiset<Row>, e: Effect): multiset<Row> {
    match e
    case Inserted(rows) => live + rows
    case Ran(Delete(pred)) => live - Filter(live, pred)
    case Ran(Update(pred, assign)) => (live - Filter(live, pred)) + Map(Filter(live, pred), assign)
    case Ran(Merge(decide)) =>
      (match decide(live) case Some(d) => (live - d.out) + d.rows case None => live)
  }

  ghost function Replay(live: multiset<Row>, log: seq<Effect>): multiset<Row> {
    if log == [] then live else Solo(Replay(live, log[..|log| - 1]), log[|log| - 1])
  }

  /**
   No row matching the statement's predicate was published after the attempt read;
   for a MERGE, the contents at the commit still lead to the decision it carries.
   */
  ghost predicate NoPhantom(t: Table, x: Session)
    requires x.phase.Ready?
  {
    match x.stmt
    case Merge(decide) => decide(Live(t)) == Some(Decision(RowsAt(t.store, x.phase.marks), x.phase.rows))
    case _ => forall r :: r in x.phase.since ==> !x.stmt.pred(r)
  }

  ghost predicate Clean(s: Sys, run: seq<Event>)
    requires ValidRun(s, run)
    decreases |run|
  {
    run != [] ==>
      && (run[0].Commit? ==> NoPhantom(s.t, s.sessions[run[0].id]))
      && Clean(Apply(s, run[0]), run[1..])
  }

  lemma RowsHave(store: map<Path, seq<Row>>, addrs: set<Addr>, pred: Row -> bool)
    requires forall a :: a in addrs ==> pred(RowAt(store, a))
    ensures forall r :: r in RowsAt(store, addrs) ==> pred(r)
  {
    forall r | r in RowsAt(store, addrs)
      ensures pred(r)
    {
      var a := MapWitness(multiset(addrs), (a: Addr) => RowAt(store, a), r);
    }
  }

  lemma MatchingRows(t: Table, pred: Row -> bool)
    ensures RowsAt(t.store, Matching(t, pred)) == Filter(Live(t), pred)
  {
    var all, hit := LiveAddrs(t), Matching(t, pred);
    RowsRemove(t.store, all, hit);
    RowsHave(t.store, hit, pred);
    RowsHave(t.store, all - hit, (r: Row) => !pred(r));
    Separate(Live(t), RowsAt(t.store, hit), RowsAt(t.store, all - hit), pred);
  }

  lemma Separate<A(!new)>(all: multiset<A>, hits: multiset<A>, misses: multiset<A>, pred: A -> bool)
    requires misses + hits == all
    requires forall r :: r in hits ==> pred(r)
    requires forall r :: r in misses ==> !pred(r)
    ensures Filter(all, pred) == hits
  {
  }

  lemma Exchange<A>(live: multiset<A>, live': multiset<A>, out: multiset<A>, rows: multiset<A>)
    requires live' + out == live + rows && out <= live
    ensures live' == (live - out) + rows
  {
    assert (live - out) + out == live;
    assert live' + out == ((live - out) + rows) + out;
    forall x
      ensures live'[x] == ((live - out) + rows)[x]
    {
      assert (live' + out)[x] == (((live - out) + rows) + out)[x];
    }
  }

  /** An accepted attempt with no phantom marks exactly the rows a re-run would match. */
  lemma AcceptedMarksAreCurrent(t: Table, stmt: Stmt, p: Phase)
    requires p.Ready? && !stmt.Merge? && PlanHolds(t, stmt, p) && CanCommit(t, p.marks)
    requires forall r :: r in p.since ==> !stmt.pred(r)
    ensures p.marks == Matching(t, stmt.pred)
  {
  }

  lemma SoloOf(live: multiset<Row>, stmt: Stmt, out: multiset<Row>, rows: multiset<Row>)
    requires !stmt.Merge? ==> out == Filter(live, stmt.pred)
    requires stmt.Delete? ==> rows == multiset{}
    requires stmt.Update? ==> rows == Map(out, stmt.assign)
    requires stmt.Merge? ==> stmt.decide(live) == Some(Decision(out, rows))
    ensures Solo(live, Ran(stmt)) == (live - out) + rows
  {
  }

  lemma AcceptedOut(t: Table, stmt: Stmt, p: Phase)
    requires p.Ready? && !stmt.Merge? && PlanHolds(t, stmt, p) && CanCommit(t, p.marks)
    requires forall r :: r in p.since ==> !stmt.pred(r)
    ensures RowsAt(t.store, p.marks) == Filter(Live(t), stmt.pred)
  {
    AcceptedMarksAreCurrent(t, stmt, p);
    MatchingRows(t, stmt.pred);
  }

  /**
   Commit equals re-run: whatever compactions and other commits came between its
   manifest read and its commit, a statement that commits with no phantom leaves
   exactly what the whole statement run alone at its commit point leaves.
   */
  lemma CommitEqualsRerun(s: Sys, id: nat, objs: map<Path, seq<Row>>)
    requires Inv(s) && Enabled(s, Commit(id, objs)) && NoPhantom(s.t, s.sessions[id])
    ensures Live(Apply(s, Commit(id, objs)).t) == Solo(Live(s.t), Ran(s.sessions[id].stmt))
  {
    var x := s.sessions[id];
    assert SessionHolds(s.t, x);
    CommitExchanges(s, id, objs);
    if !x.stmt.Merge? {
      AcceptedOut(s.t, x.stmt, x.phase);
    }
    SoloOf(Live(s.t), x.stmt, RowsAt(s.t.store, x.phase.marks), x.phase.rows);
  }

  lemma StepReplays(start: multiset<Row>, s: Sys, e: Event)
    requires Inv(s) && Enabled(s, e) && Live(s.t) == Replay(start, s.log)
    requires e.Commit? ==> NoPhantom(s.t, s.sessions[e.id])
    ensures Live(Apply(s, e).t) == Replay(start, Apply(s, e).log)
  {
    match e
    case Insert(objs) =>
      CommitConserves(s.t, objs, {});
      assert RowsAt(s.t.store, {}) == multiset{};
      assert Apply(s, e).log[..|s.log|] == s.log;
    case Commit(id, objs) =>
      CommitEqualsRerun(s, id, objs);
      assert Apply(s, e).log[..|s.log|] == s.log;
    case Compact(id, objs) => SwapConserves(s.t, s.cuts[id], objs);
    case _ => QuietStep(s, e);
  }

  lemma {:induction false} SerialFrom(start: multiset<Row>, s: Sys, run: seq<Event>)
    requires Inv(s) && ValidRun(s, run) && Clean(s, run) && Live(s.t) == Replay(start, s.log)
    ensures Live(Final(s, run).t) == Replay(start, Final(s, run).log)
    decreases |run|
  {
    if run != [] {
      StepKeepsInv(s, run[0]);
      StepReplays(start, s, run[0]);
      SerialFrom(start, Apply(s, run[0]), run[1..]);
    }
  }

  /**
   Every phantom-free run leaves the table the committed statements would leave
   if each had run alone, in commit order, from the contents the run started with.
   */
  lemma RunsAreSerial(t: Table, run: seq<Event>)
    requires Valid(t) && ValidRun(Initial(t), run) && Clean(Initial(t), run)
    ensures Live(Final(Initial(t), run).t) == Replay(Live(t), Final(Initial(t), run).log)
  {
    SerialFrom(Live(t), Initial(t), run);
  }

  // ---- Exactly when a commit is a re-run ----

  /** The live rows the statement would match now and did not mark. */
  ghost function Phantoms(t: Table, stmt: Stmt, marks: set<Addr>): set<Addr>
    requires !stmt.Merge?
  {
    Matching(t, stmt.pred) - marks
  }

  /** What the statement makes of a bag of rows it matches. */
  ghost function Rewritten(stmt: Stmt, rows: multiset<Row>): multiset<Row>
    requires !stmt.Merge?
  {
    if stmt.Delete? then multiset{} else Map(rows, stmt.assign)
  }

  lemma Cancel<A>(rest: multiset<A>, seen: multiset<A>, missed: multiset<A>,
                  seen': multiset<A>, missed': multiset<A>, all: multiset<A>)
    requires all == rest + seen + missed
    ensures (all - seen) + seen' == (all - (seen + missed)) + (seen' + missed') <==> missed == missed'
  {
    assert all - seen == rest + missed;
    assert all - (seen + missed) == rest;
    assert rest + missed + seen' == rest + (seen' + missed') <==> missed == missed' by {
      if rest + missed + seen' == rest + (seen' + missed') {
        forall x
          ensures missed[x] == missed'[x]
        {
          assert (rest + missed + seen')[x] == (rest + (seen' + missed'))[x];
        }
      }
    }
  }

  lemma RewrittenUnion(stmt: Stmt, a: multiset<Row>, b: multiset<Row>)
    requires !stmt.Merge?
    ensures Rewritten(stmt, a + b) == Rewritten(stmt, a) + Rewritten(stmt, b)
  {
    if stmt.Update? {
      MapUnion(a, b, stmt.assign);
    }
  }

  /**
   A commit is a re-run if and only if the statement maps the phantoms onto
   themselves; for a DELETE, if and only if there are none.
   */
  lemma RerunExactly(s: Sys, id: nat, objs: map<Path, seq<Row>>)
    requires Inv(s) && Enabled(s, Commit(id, objs)) && !s.sessions[id].stmt.Merge?
    ensures var x := s.sessions[id];
      var missed := RowsAt(s.t.store, Phantoms(s.t, x.stmt, x.phase.marks));
      Live(Apply(s, Commit(id, objs)).t) == Solo(Live(s.t), Ran(x.stmt)) <==> missed == Rewritten(x.stmt, missed)
  {
    var x := s.sessions[id];
    var t, stmt, marks := s.t, x.stmt, x.phase.marks;
    assert SessionHolds(t, x);
    CommitConserves(t, objs, marks);
    var hit := Matching(t, stmt.pred);
    var missed := Phantoms(t, stmt, marks);
    assert marks <= hit;
    var rSeen, rMissed, rRest := RowsAt(t.store, marks), RowsAt(t.store, missed), RowsAt(t.store, LiveAddrs(t) - hit);
    assert hit - marks == missed;
    RowsRemove(t.store, hit, marks);
    RowsRemove(t.store, LiveAddrs(t), hit);
    MatchingRows(t, stmt.pred);
    ExactBags(Live(t), stmt, rRest, rSeen, rMissed, x.phase.rows);
    Exchange(Live(t), Live(Publish(t, objs, marks)), rSeen, x.phase.rows);
  }

  lemma NetEffect<A>(live: multiset<A>, out: multiset<A>, rows: multiset<A>, out': multiset<A>, rows': multiset<A>)
    requires out <= live && out' <= live
    ensures (live - out) + rows == (live - out') + rows' <==> rows + out' == rows' + out
  {
    var x, y := (live - out) + rows, (live - out') + rows';
    if x == y {
      forall a
        ensures (rows + out')[a] == (rows' + out)[a]
      {
        assert x[a] == y[a];
      }
    }
    if rows + out' == rows' + out {
      forall a
        ensures x[a] == y[a]
      {
        assert (rows + out')[a] == (rows' + out)[a];
      }
    }
  }

  /**
   For a MERGE: a commit is a re-run if and only if what the decision at the commit
   takes out and puts in has the same net effect as what the attempt carries; when
   the re-run would refuse, if and only if the attempt puts back what it takes out.
   */
  lemma MergeRerunExactly(s: Sys, id: nat, objs: map<Path, seq<Row>>)
    requires Inv(s) && Enabled(s, Commit(id, objs)) && s.sessions[id].stmt.Merge?
    requires var d := s.sessions[id].stmt.decide(Live(s.t)); d.Some? ==> d.value.out <= Live(s.t)
    ensures var x := s.sessions[id];
      var out := RowsAt(s.t.store, x.phase.marks);
      Live(Apply(s, Commit(id, objs)).t) == Solo(Live(s.t), Ran(x.stmt)) <==>
        match x.stmt.decide(Live(s.t))
        case Some(d) => x.phase.rows + d.out == d.rows + out
        case None => x.phase.rows == out
  {
    var x := s.sessions[id];
    CommitExchanges(s, id, objs);
    MergeNet(Live(s.t), x.stmt, RowsAt(s.t.store, x.phase.marks), x.phase.rows);
  }

  /** A commit takes the marked rows out of the contents and puts the planned rows in. */
  lemma CommitExchanges(s: Sys, id: nat, objs: map<Path, seq<Row>>)
    requires Inv(s) && Enabled(s, Commit(id, objs))
    ensures var x := s.sessions[id];
      var out := RowsAt(s.t.store, x.phase.marks);
      out <= Live(s.t) && Live(Apply(s, Commit(id, objs)).t) == (Live(s.t) - out) + x.phase.rows
  {
    var x := s.sessions[id];
    assert SessionHolds(s.t, x);
    CommitConserves(s.t, objs, x.phase.marks);
    Exchange(Live(s.t), Live(Publish(s.t, objs, x.phase.marks)), RowsAt(s.t.store, x.phase.marks), x.phase.rows);
  }

  lemma MergeNet(live: multiset<Row>, stmt: Stmt, out: multiset<Row>, rows: multiset<Row>)
    requires stmt.Merge? && out <= live && (stmt.decide(live).Some? ==> stmt.decide(live).value.out <= live)
    ensures (live - out) + rows == Solo(live, Ran(stmt)) <==>
      match stmt.decide(live) case Some(d) => rows + d.out == d.rows + out case None => rows == out
  {
    match stmt.decide(live)
    case Some(d) => NetEffect(live, out, rows, d.out, d.rows);
    case None =>
      NetEffect(live, out, rows, multiset{}, multiset{});
      assert rows + multiset{} == rows && multiset{} + out == out && (live - multiset{}) + multiset{} == live;
  }

  lemma Parted<A>(live: multiset<A>, rest: multiset<A>, hit: multiset<A>, seen: multiset<A>, missed: multiset<A>)
    requires missed + seen == hit && rest + hit == live
    ensures hit == seen + missed && live == rest + seen + missed
  {
  }

  lemma ExactBags(live: multiset<Row>, stmt: Stmt, rest: multiset<Row>, seen: multiset<Row>,
                  missed: multiset<Row>, rows: multiset<Row>)
    requires !stmt.Merge? && rows == Rewritten(stmt, seen)
    requires missed + seen == Filter(live, stmt.pred)
    requires rest + Filter(live, stmt.pred) == live
    ensures (live - seen) + rows == Solo(live, Ran(stmt)) <==> missed == Rewritten(stmt, missed)
  {
    var hit := Filter(live, stmt.pred);
    Parted(live, rest, hit, seen, missed);
    RewrittenUnion(stmt, seen, missed);
    SoloOf(live, stmt, hit, Rewritten(stmt, hit));
    Cancel(rest, seen, missed, rows, Rewritten(stmt, missed), live);
  }

  // ---- Keys ----

  /** The statement leaves every row's key alone: a DELETE, or an UPDATE that does not assign it. */
  ghost predicate KeepsKey<K>(stmt: Stmt, key: Row -> K) {
    match stmt
    case Delete(_) => true
    case Update(_, assign) => forall r :: key(assign(r)) == key(r)
    case Merge(_) => false
  }

  ghost predicate KeyKeepingRun<K>(run: seq<Event>, key: Row -> K) {
    forall i :: 0 <= i < |run| ==> !run[i].Insert? && (run[i].Start? ==> KeepsKey(run[i].stmt, key))
  }

  ghost predicate KeyKeepingSessions<K>(s: Sys, key: Row -> K) {
    forall id :: id in s.sessions ==> KeepsKey(s.sessions[id].stmt, key)
  }

  ghost function Keys<K>(t: Table, key: Row -> K): multiset<K> {
    Map(Live(t), key)
  }

  lemma Shrinks<K>(keys: multiset<K>, keys': multiset<K>, out: multiset<K>, rows: multiset<K>)
    requires keys' + out == keys + rows && rows <= out
    ensures keys' <= keys
  {
    forall k
      ensures keys'[k] <= keys[k]
    {
      assert (keys' + out)[k] == (keys + rows)[k];
    }
  }

  lemma CommitKeepsKeys<K>(s: Sys, id: nat, objs: map<Path, seq<Row>>, key: Row -> K)
    requires Inv(s) && Enabled(s, Commit(id, objs)) && KeepsKey(s.sessions[id].stmt, key)
    ensures Keys(Apply(s, Commit(id, objs)).t, key) <= Keys(s.t, key)
  {
    var x := s.sessions[id];
    var out := RowsAt(s.t.store, x.phase.marks);
    var t' := Publish(s.t, objs, x.phase.marks);
    assert SessionHolds(s.t, x);
    CommitConserves(s.t, objs, x.phase.marks);
    KeysBalance(Live(t'), out, Live(s.t), x.phase.rows, key);
    KeysKept(x.stmt, out, x.phase.rows, key);
    Shrinks(Keys(s.t, key), Keys(t', key), Map(out, key), Map(x.phase.rows, key));
  }

  lemma KeysKept<K>(stmt: Stmt, out: multiset<Row>, rows: multiset<Row>, key: Row -> K)
    requires KeepsKey(stmt, key) && rows == Rewritten(stmt, out)
    ensures Map(rows, key) <= Map(out, key)
  {
    if stmt.Update? {
      MapMap(out, stmt.assign, key, key);
    }
  }

  lemma KeysBalance<K>(live': multiset<Row>, out: multiset<Row>, live: multiset<Row>, rows: multiset<Row>,
                       key: Row -> K)
    requires live' + out == live + rows
    ensures Map(live', key) + Map(out, key) == Map(live, key) + Map(rows, key)
  {
    MapUnion(live', out, key);
    MapUnion(live, rows, key);
  }

  lemma StatementsStay(s: Sys, e: Event, id: nat)
    requires Enabled(s, e) && id in Apply(s, e).sessions
    ensures if e.Start? && e.id == id then Apply(s, e).sessions[id].stmt == e.stmt
            else id in s.sessions && SameStatement(s.sessions[id].stmt, Apply(s, e).sessions[id].stmt)
  {
    if e.Insert? {
      NotedStays(s.sessions, BagOf(e.objs), id);
    } else if e.Commit? {
      NotedStays(s.sessions, s.sessions[e.id].phase.rows, id);
    } else if e.Compact? || e.BeginCompact? || e.AbandonCompact? {
      assert Apply(s, e).sessions == s.sessions;
    } else {
      OwnStepStays(s, e, id);
    }
  }

  lemma NotedStays(sessions: map<nat, Session>, rows: multiset<Row>, id: nat)
    ensures id in NotedAll(sessions, rows) <==> id in sessions
    ensures id in sessions ==> NotedAll(sessions, rows)[id].stmt == sessions[id].stmt
  {
  }

  lemma OwnStepStays(s: Sys, e: Event, id: nat)
    requires Enabled(s, e) && (e.Start? || e.Read? || e.Refuse? || e.Fail?) && id in Apply(s, e).sessions
    ensures if e.Start? && e.id == id then Apply(s, e).sessions[id].stmt == e.stmt
            else id in s.sessions && SameStatement(s.sessions[id].stmt, Apply(s, e).sessions[id].stmt)
  {
  }

  lemma StepKeepsKeepers<K>(s: Sys, e: Event, key: Row -> K)
    requires Enabled(s, e) && KeyKeepingSessions(s, key)
    requires e.Start? ==> KeepsKey(e.stmt, key)
    ensures KeyKeepingSessions(Apply(s, e), key)
  {
    forall id | id in Apply(s, e).sessions
      ensures KeepsKey(Apply(s, e).sessions[id].stmt, key)
    {
      StatementsStay(s, e, id);
    }
  }

  lemma StepKeepsKeys<K>(s: Sys, e: Event, key: Row -> K)
    requires Inv(s) && Enabled(s, e) && KeyKeepingSessions(s, key) && !e.Insert?
    ensures Keys(Apply(s, e).t, key) <= Keys(s.t, key)
  {
    if e.Commit? {
      CommitKeepsKeys(s, e.id, e.objs, key);
    } else if e.Compact? {
      SwapConserves(s.t, s.cuts[e.id], e.objs);
    } else {
      QuietStep(s, e);
    }
  }

  lemma {:induction false} KeysFrom<K>(s: Sys, run: seq<Event>, key: Row -> K)
    requires Inv(s) && ValidRun(s, run) && KeyKeepingSessions(s, key) && KeyKeepingRun(run, key)
    ensures Keys(Final(s, run).t, key) <= Keys(s.t, key)
    decreases |run|
  {
    if run != [] {
      StepKeepsInv(s, run[0]);
      StepKeepsKeepers(s, run[0], key);
      StepKeepsKeys(s, run[0], key);
      RestKeepsKeys(run, key);
      KeysFrom(Apply(s, run[0]), run[1..], key);
    }
  }

  lemma RestKeepsKeys<K>(run: seq<Event>, key: Row -> K)
    requires KeyKeepingRun(run, key) && run != []
    ensures KeyKeepingRun(run[1..], key)
  {
  }

  /**
   However DELETEs, UPDATEs that do not assign the key and compactions race and
   redo, no key appears that was not there and no key is duplicated; so a table
   whose keys were unique keeps them unique.
   */
  lemma RunsKeepKeysUnique<K>(t: Table, run: seq<Event>, key: Row -> K)
    requires Valid(t) && ValidRun(Initial(t), run) && KeyKeepingRun(run, key)
    ensures Keys(Final(Initial(t), run).t, key) <= Keys(t, key)
    ensures (forall k :: Keys(t, key)[k] <= 1) ==> (forall k :: Keys(Final(Initial(t), run).t, key)[k] <= 1)
  {
    KeysFrom(Initial(t), run, key);
  }
}
