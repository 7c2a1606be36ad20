/**
 What racing statements can come to: a row that arrives while a DELETE or a MERGE
 waits, and two statements that each read before the other commits.
 */
module Races {
  import opened Bags
  import opened Tables
  import opened Commits
  import opened Runs
  import opened Serial
  import Merge
  import Rejoins

  // ---- A statement waits, and rows arrive ----

  /** The system in which statement 0 alone has read `t` and waits to commit. */
  ghost function Waiter(t: Table, stmt: Stmt, marks: set<Addr>, rows: multiset<Row>): Sys {
    Initial(t).(sessions := map[0 := Session(stmt, 1, 0, Ready(marks, rows, multiset{}))])
  }

  lemma StartsAlone(t: Table, stmt: Stmt)
    ensures Reaches(Initial(t), [Start(0, stmt)], Initial(t).(sessions := map[0 := Session(stmt, 0, 0, Idle)]))
  {
    OneStep(Initial(t), Start(0, stmt));
  }

  lemma LastWins(sessions: map<nat, Session>, id: nat, x: Session, y: Session)
    ensures sessions[id := x][id := y] == sessions[id := y]
  {
  }

  lemma ReadsAlone(t: Table, stmt: Stmt, marks: set<Addr>, rows: multiset<Row>)
    ensures Plans(stmt, t, marks, rows) ==>
      Reaches(Initial(t).(sessions := map[0 := Session(stmt, 0, 0, Idle)]), [Read(0, stmt, marks, rows)],
              Waiter(t, stmt, marks, rows))
  {
    var s := Initial(t).(sessions := map[0 := Session(stmt, 0, 0, Idle)]);
    if Plans(stmt, t, marks, rows) {
      OneStep(s, Read(0, stmt, marks, rows));
      LastWins(map[], 0, Session(stmt, 0, 0, Idle), Session(stmt, 1, 0, Ready(marks, rows, multiset{})));
    }
  }

  /** Statement 0 reads, the rows of `objs` arrive, and statement 0 commits its own rows. */
  ghost function ArrivalRun(stmt: Stmt, marks: set<Addr>, rows: multiset<Row>,
                            objs: map<Path, seq<Row>>, own: map<Path, seq<Row>>): seq<Event> {
    ([Start(0, stmt)] + [Read(0, stmt, marks, rows)]) + ([Insert(objs)] + [Commit(0, own)])
  }

  ghost predicate Arrives(t: Table, stmt: Stmt, marks: set<Addr>, rows: multiset<Row>,
                          objs: map<Path, seq<Row>>, own: map<Path, seq<Row>>) {
    && Valid(t) && Plans(stmt, t, marks, rows) && marks <= LiveAddrs(t)
    && Fresh(t, objs) && Fresh(Publish(t, objs, {}), own) && BagOf(own) == rows
  }

  ghost function Arrived(t: Table, marks: set<Addr>, objs: map<Path, seq<Row>>, own: map<Path, seq<Row>>): Table {
    Publish(Publish(t, objs, {}), own, marks)
  }

  /** Nothing stands in the way of that commit. */
  lemma ArrivedContents(t: Table, marks: set<Addr>, objs: map<Path, seq<Row>>, own: map<Path, seq<Row>>)
    requires Valid(t) && marks <= LiveAddrs(t) && Fresh(t, objs) && Fresh(Publish(t, objs, {}), own)
    ensures CanCommit(Publish(t, objs, {}), marks)
    ensures Live(Publish(t, objs, {})) == Live(t) + BagOf(objs)
    ensures Live(Arrived(t, marks, objs, own)) + RowsAt(t.store, marks) == (Live(t) + BagOf(objs)) + BagOf(own)
    ensures RowsAt(t.store, marks) <= Live(t)
  {
    var t1 := Publish(t, objs, {});
    RowsRemove(t.store, LiveAddrs(t), marks);
    CommitConserves(t, objs, {});
    assert RowsAt(t.store, {}) == multiset{};
    RowsStable(t.store, t1.store, marks);
    CommitConserves(t1, own, marks);
  }

  lemma WaiterCommits(s: Sys, id: nat, stmt: Stmt, marks: set<Addr>, rows: multiset<Row>, own: map<Path, seq<Row>>)
    requires id in s.sessions && s.sessions[id].stmt == stmt && s.sessions[id].phase.Ready?
    requires s.sessions[id].phase.marks == marks && s.sessions[id].phase.rows == rows
    requires CanCommit(s.t, marks) && Fresh(s.t, own) && BagOf(own) == rows
    ensures ValidRun(s, [Commit(id, own)])
    ensures Final(s, [Commit(id, own)]).t == Publish(s.t, own, marks)
    ensures Final(s, [Commit(id, own)]).log == s.log + [Ran(stmt)]
  {
    OneStep(s, Commit(id, own));
  }

  lemma RowsArrive(t: Table, stmt: Stmt, marks: set<Addr>, rows: multiset<Row>, objs: map<Path, seq<Row>>)
    requires Fresh(t, objs)
    ensures var s, s' := Waiter(t, stmt, marks, rows), AfterInsert(Waiter(t, stmt, marks, rows), objs);
      && Reaches(s, [Insert(objs)], s') && s'.t == Publish(t, objs, {}) && s'.log == [Inserted(BagOf(objs))]
      && 0 in s'.sessions && s'.sessions[0] == Noted(s.sessions[0], BagOf(objs))
  {
    OneStep(Waiter(t, stmt, marks, rows), Insert(objs));
  }

  lemma WaiterReads(t: Table, stmt: Stmt, marks: set<Addr>, rows: multiset<Row>)
    ensures Plans(stmt, t, marks, rows) ==>
      Reaches(Initial(t), [Start(0, stmt)] + [Read(0, stmt, marks, rows)], Waiter(t, stmt, marks, rows))
  {
    StartsAlone(t, stmt);
    ReadsAlone(t, stmt, marks, rows);
    var s1 := Initial(t).(sessions := map[0 := Session(stmt, 0, 0, Idle)]);
    if Plans(stmt, t, marks, rows) {
      Then(Initial(t), [Start(0, stmt)], s1, [Read(0, stmt, marks, rows)], Waiter(t, stmt, marks, rows));
    }
  }

  lemma ArrivalEnds(t: Table, stmt: Stmt, marks: set<Addr>, rows: multiset<Row>,
                    objs: map<Path, seq<Row>>, own: map<Path, seq<Row>>) returns (end: Sys)
    requires Valid(t) && marks <= LiveAddrs(t) && Fresh(t, objs) && Fresh(Publish(t, objs, {}), own)
      && BagOf(own) == rows
    ensures Reaches(Waiter(t, stmt, marks, rows), [Insert(objs)] + [Commit(0, own)], end)
    ensures end.t == Arrived(t, marks, objs, own) && end.log == [Inserted(BagOf(objs)), Ran(stmt)]
  {
    var s2 := Waiter(t, stmt, marks, rows);
    var s3 := AfterInsert(s2, objs);
    RowsArrive(t, stmt, marks, rows, objs);
    ArrivedContents(t, marks, objs, own);
    WaiterCommits(s3, 0, stmt, marks, rows, own);
    end := Final(s3, [Commit(0, own)]);
    Then(s2, [Insert(objs)], s3, [Commit(0, own)], end);
  }

  lemma ArrivalRuns(t: Table, stmt: Stmt, marks: set<Addr>, rows: multiset<Row>,
                    objs: map<Path, seq<Row>>, own: map<Path, seq<Row>>)
    requires Arrives(t, stmt, marks, rows, objs, own)
    ensures var run := ArrivalRun(stmt, marks, rows, objs, own);
      && ValidRun(Initial(t), run)
      && Final(Initial(t), run).t == Arrived(t, marks, objs, own)
      && Final(Initial(t), run).log == [Inserted(BagOf(objs)), Ran(stmt)]
  {
    WaiterReads(t, stmt, marks, rows);
    var end := ArrivalEnds(t, stmt, marks, rows, objs, own);
    Then(Initial(t), [Start(0, stmt)] + [Read(0, stmt, marks, rows)], Waiter(t, stmt, marks, rows),
         [Insert(objs)] + [Commit(0, own)], end);
  }

  /** The run ends with these contents and this commit order. */
  ghost predicate Comes(t: Table, run: seq<Event>, log: seq<Effect>, live: multiset<Row>) {
    && ValidRun(Initial(t), run)
    && Final(Initial(t), run).log == log && Live(Final(Initial(t), run).t) == live
  }

  lemma ArrivalComes(t: Table, stmt: Stmt, marks: set<Addr>, rows: multiset<Row>,
                     objs: map<Path, seq<Row>>, own: map<Path, seq<Row>>, live: multiset<Row>)
    requires live == Live(Arrived(t, marks, objs, own))
    ensures Arrives(t, stmt, marks, rows, objs, own) ==>
      Comes(t, ArrivalRun(stmt, marks, rows, objs, own), [Inserted(BagOf(objs)), Ran(stmt)], live)
  {
    if Arrives(t, stmt, marks, rows, objs, own) {
      ArrivalRuns(t, stmt, marks, rows, objs, own);
    }
  }

  lemma ReplayTwo(live: multiset<Row>, a: Effect, b: Effect)
    ensures Replay(live, [a, b]) == Solo(Solo(live, a), b)
  {
    assert [a, b][..1] == [a] && [a][..0] == [];
    assert Replay(live, [a]) == Solo(live, a);
  }

  // ---- A DELETE and rows that match it ----

  lemma FilterSum<A(!new)>(a: multiset<A>, b: multiset<A>, p: A -> bool)
    ensures Filter(a + b, p) == Filter(a, p) + Filter(b, p)
  {
    forall x
      ensures Filter(a + b, p)[x] == (Filter(a, p) + Filter(b, p))[x]
    {
    }
  }

  lemma FilterAll<A(!new)>(m: multiset<A>, p: A -> bool)
    requires forall x :: x in m ==> p(x)
    ensures Filter(m, p) == m
  {
  }

  lemma TakeBoth<A>(live: multiset<A>, gone: multiset<A>, more: multiset<A>)
    ensures (live + more) - (gone + more) == live - gone
  {
  }

  lemma LeftOver<A>(end: multiset<A>, gone: multiset<A>, live: multiset<A>, more: multiset<A>, own: multiset<A>)
    requires end + gone == (live + more) + own && gone <= live && own == multiset{}
    ensures end == (live - gone) + more
  {
    forall x
      ensures end[x] == ((live - gone) + more)[x]
    {
      assert (end + gone)[x] == ((live + more) + own)[x];
    }
  }

  /** The contents without the rows that match. */
  ghost function Rest(live: multiset<Row>, pred: Row -> bool): multiset<Row> {
    live - Filter(live, pred)
  }

  lemma DeletesAll(live: multiset<Row>, more: multiset<Row>, pred: Row -> bool)
    requires forall r :: r in more ==> pred(r)
    ensures Solo(live + more, Ran(Delete(pred))) == Rest(live, pred)
  {
    FilterSum(live, more, pred);
    FilterAll(more, pred);
    TakeBoth(live, Filter(live, pred), more);
  }

  lemma PhantomReplays(live: multiset<Row>, more: multiset<Row>, pred: Row -> bool)
    requires forall r :: r in more ==> pred(r)
    ensures Replay(live, [Inserted(more), Ran(Delete(pred))]) == Rest(live, pred)
    ensures Replay(live, [Ran(Delete(pred)), Inserted(more)]) == Rest(live, pred) + more
  {
    ReplayTwo(live, Inserted(more), Ran(Delete(pred)));
    ReplayTwo(live, Ran(Delete(pred)), Inserted(more));
    DeletesAll(live, more, pred);
  }

  lemma NoObjects(t: Table)
    ensures BagOf(map[]) == multiset{} && Fresh(t, map[])
  {
    assert Slots(map[], {}) == {};
  }

  lemma PhantomContents(t: Table, pred: Row -> bool, objs: map<Path, seq<Row>>)
    requires Valid(t) && Fresh(t, objs)
    ensures Live(Arrived(t, Matching(t, pred), objs, map[])) == Rest(Live(t), pred) + BagOf(objs)
  {
    var marks := Matching(t, pred);
    NoObjects(Publish(t, objs, {}));
    ArrivedContents(t, marks, objs, map[]);
    LeftOver(Live(Arrived(t, marks, objs, map[])), RowsAt(t.store, marks), Live(t), BagOf(objs), BagOf(map[]));
    MatchingRows(t, pred);
  }

  lemma PhantomArrives(t: Table, pred: Row -> bool, objs: map<Path, seq<Row>>)
    requires Valid(t) && Fresh(t, objs)
    ensures Arrives(t, Delete(pred), Matching(t, pred), multiset{}, objs, map[])
  {
    NoObjects(Publish(t, objs, {}));
  }

  /**
   A DELETE marks the rows that match, matching rows arrive, and it commits: they stay.
   The replay in commit order does not have them; the replay in the other order does.
   */
  lemma PhantomSurvives(t: Table, pred: Row -> bool, objs: map<Path, seq<Row>>)
    requires Valid(t) && Matching(t, pred) != {} && Fresh(t, objs)
    requires BagOf(objs) != multiset{} && forall r :: r in BagOf(objs) ==> pred(r)
    ensures var log, rest := [Inserted(BagOf(objs)), Ran(Delete(pred))], Rest(Live(t), pred);
      && Comes(t, ArrivalRun(Delete(pred), Matching(t, pred), multiset{}, objs, map[]), log, rest + BagOf(objs))
      && Replay(Live(t), log) == rest
      && Replay(Live(t), [Ran(Delete(pred)), Inserted(BagOf(objs))]) == rest + BagOf(objs)
  {
    PhantomArrives(t, pred, objs);
    PhantomContents(t, pred, objs);
    ArrivalComes(t, Delete(pred), Matching(t, pred), multiset{}, objs, map[], Rest(Live(t), pred) + BagOf(objs));
    PhantomReplays(Live(t), BagOf(objs), pred);
  }

  // ---- A MERGE and the row it inserts ----

  ghost function InsertIfMissing(row: Row): Stmt {
    Runs.Merge(Rejoins.JoinOn(Rejoins.InsertMissing(), [row]))
  }

  lemma TakesNothing<A>(live: multiset<A>, rows: multiset<A>)
    ensures (live - multiset{}) + rows == live + rows && live + multiset{} == live
  {
  }

  lemma MergesMissing(live: multiset<Row>, row: Row)
    ensures Solo(live, Ran(InsertIfMissing(row))) ==
            if Rejoins.UnmatchedIn(Rejoins.InsertMissing(), live, row) then live + multiset{row} else live
  {
    var rows := if Rejoins.UnmatchedIn(Rejoins.InsertMissing(), live, row) then multiset{row} else multiset{};
    Rejoins.InsertOnlyDecides(row, live);
    SoloOf(live, InsertIfMissing(row), multiset{}, rows);
    TakesNothing(live, rows);
  }

  lemma DoubledReplays(live: multiset<Row>, row: Row)
    requires var spec := Rejoins.InsertMissing();
      Rejoins.UnmatchedIn(spec, live, row) && Merge.MatchByKeys(row, row, spec.keys)
    ensures var stmt, one := InsertIfMissing(row), multiset{row};
      && Replay(live, [Inserted(one), Ran(stmt)]) == live + one
      && Replay(live, [Ran(stmt), Inserted(one)]) == (live + one) + one
  {
    var stmt, one := InsertIfMissing(row), multiset{row};
    assert row in live + one;
    MergesMissing(live, row);
    MergesMissing(live + one, row);
    ReplayTwo(live, Inserted(one), Ran(stmt));
    ReplayTwo(live, Ran(stmt), Inserted(one));
  }

  lemma PlansInsert(t: Table, row: Row)
    requires Rejoins.UnmatchedIn(Rejoins.InsertMissing(), Live(t), row)
    ensures Plans(InsertIfMissing(row), t, {}, multiset{row})
  {
    Rejoins.InsertOnlyDecides(row, Live(t));
    assert RowsAt(t.store, {}) == multiset{};
  }

  lemma DoubledContents(t: Table, objs: map<Path, seq<Row>>, own: map<Path, seq<Row>>)
    requires Valid(t) && Fresh(t, objs) && Fresh(Publish(t, objs, {}), own)
    ensures Live(Arrived(t, {}, objs, own)) == (Live(t) + BagOf(objs)) + BagOf(own)
  {
    ArrivedContents(t, {}, objs, own);
    assert RowsAt(t.store, {}) == multiset{};
    TakesNothing(Live(Arrived(t, {}, objs, own)), multiset{});
  }

  /**
   `MERGE ... WHEN NOT MATCHED THEN INSERT` reads, another writer inserts the row, and
   it commits: the row is there twice. The replay in commit order has it once more only.
   */
  lemma RowDoubled(t: Table, row: Row, objs: map<Path, seq<Row>>, own: map<Path, seq<Row>>)
    requires Valid(t) && Fresh(t, objs) && Fresh(Publish(t, objs, {}), own)
    requires BagOf(objs) == multiset{row} && BagOf(own) == multiset{row}
    requires var spec := Rejoins.InsertMissing();
      Rejoins.UnmatchedIn(spec, Live(t), row) && Merge.MatchByKeys(row, row, spec.keys)
    ensures var stmt, one := InsertIfMissing(row), multiset{row};
      var log := [Inserted(one), Ran(stmt)];
      && Comes(t, ArrivalRun(stmt, {}, one, objs, own), log, (Live(t) + one) + one)
      && Replay(Live(t), log) == Live(t) + one
      && Replay(Live(t), [Ran(stmt), Inserted(one)]) == (Live(t) + one) + one
  {
    var stmt, one := InsertIfMissing(row), multiset{row};
    PlansInsert(t, row);
    DoubledContents(t, objs, own);
    ArrivalComes(t, stmt, {}, one, objs, own, (Live(t) + one) + one);
    DoubledReplays(Live(t), row);
  }

  // ---- Two statements that read before either commits ----

  /** Both statements have read `t` and wait to commit. */
  ghost function Pair(t: Table, a: Stmt, ma: set<Addr>, ra: multiset<Row>,
                      b: Stmt, mb: set<Addr>, rb: multiset<Row>): Sys {
    var first := map[0 := Session(a, 1, 0, Ready(ma, ra, multiset{}))];
    Initial(t).(sessions := first[1 := Session(b, 1, 0, Ready(mb, rb, multiset{}))])
  }

  lemma SecondReads(t: Table, a: Stmt, ma: set<Addr>, ra: multiset<Row>, b: Stmt, mb: set<Addr>, rb: multiset<Row>)
    ensures Plans(b, t, mb, rb) ==>
      Reaches(Waiter(t, a, ma, ra), [Start(1, b)] + [Read(1, b, mb, rb)], Pair(t, a, ma, ra, b, mb, rb))
  {
    var s := Waiter(t, a, ma, ra);
    var idle := Session(b, 0, 0, Idle);
    var s' := s.(sessions := s.sessions[1 := idle]);
    if Plans(b, t, mb, rb) {
      OneStep(s, Start(1, b));
      OneStep(s', Read(1, b, mb, rb));
      LastWins(s.sessions, 1, idle, Session(b, 1, 0, Ready(mb, rb, multiset{})));
      Then(s, [Start(1, b)], s', [Read(1, b, mb, rb)], Pair(t, a, ma, ra, b, mb, rb));
    }
  }

  ghost function Raced(t: Table, ma: set<Addr>, mb: set<Addr>, oa: map<Path, seq<Row>>,
                       ob: map<Path, seq<Row>>): Table {
    Publish(Publish(t, oa, ma), ob, mb)
  }

  lemma TakeTwo<A>(mid: multiset<A>, end: multiset<A>, live: multiset<A>, ha: multiset<A>, hb: multiset<A>,
                   wa: multiset<A>, wb: multiset<A>)
    requires mid + ha == live + wa && end + hb == mid + wb && ha + hb <= live
    ensures end == (live - (ha + hb)) + (wa + wb)
  {
    forall x
      ensures end[x] == ((live - (ha + hb)) + (wa + wb))[x]
    {
      assert (mid + ha)[x] == (live + wa)[x] && (end + hb)[x] == (mid + wb)[x] && (ha + hb)[x] <= live[x];
    }
  }

  /** They mark different rows, so neither commit stands in the other's way. */
  lemma RacedContents(t: Table, ma: set<Addr>, mb: set<Addr>, oa: map<Path, seq<Row>>, ob: map<Path, seq<Row>>)
    requires Valid(t) && ma <= LiveAddrs(t) && mb <= LiveAddrs(t) && ma !! mb
    requires Fresh(t, oa) && Fresh(Publish(t, oa, ma), ob)
    ensures CanCommit(t, ma) && CanCommit(Publish(t, oa, ma), mb)
    ensures var ha, hb := RowsAt(t.store, ma), RowsAt(t.store, mb);
      Live(Raced(t, ma, mb, oa, ob)) == (Live(t) - (ha + hb)) + (BagOf(oa) + BagOf(ob)) && ha + hb <= Live(t)
  {
    var t1, ha, hb := Publish(t, oa, ma), RowsAt(t.store, ma), RowsAt(t.store, mb);
    CommitConserves(t, oa, ma);
    RowsStable(t.store, t1.store, mb);
    CommitConserves(t1, ob, mb);
    RowsUnion(t.store, ma, mb);
    RowsRemove(t.store, LiveAddrs(t), ma + mb);
    TakeTwo(Live(t1), Live(Raced(t, ma, mb, oa, ob)), Live(t), ha, hb, BagOf(oa), BagOf(ob));
  }

  lemma FirstCommits(t: Table, a: Stmt, ma: set<Addr>, ra: multiset<Row>, b: Stmt, mb: set<Addr>, rb: multiset<Row>,
                     oa: map<Path, seq<Row>>) returns (mid: Sys)
    requires CanCommit(t, ma) && Fresh(t, oa) && BagOf(oa) == ra
    ensures Reaches(Pair(t, a, ma, ra, b, mb, rb), [Commit(0, oa)], mid)
    ensures mid.t == Publish(t, oa, ma) && mid.log == [Ran(a)]
    ensures 1 in mid.sessions && mid.sessions[1] == Session(b, 1, 0, Ready(mb, rb, ra))
  {
    var s := Pair(t, a, ma, ra, b, mb, rb);
    OneStep(s, Commit(0, oa));
    mid := AfterCommit(s, 0, oa);
    assert multiset{} + ra == ra;
  }

  lemma BothCommit(t: Table, a: Stmt, ma: set<Addr>, ra: multiset<Row>, b: Stmt, mb: set<Addr>, rb: multiset<Row>,
                   oa: map<Path, seq<Row>>, ob: map<Path, seq<Row>>) returns (end: Sys)
    requires CanCommit(t, ma) && Fresh(t, oa) && BagOf(oa) == ra
    requires CanCommit(Publish(t, oa, ma), mb) && Fresh(Publish(t, oa, ma), ob) && BagOf(ob) == rb
    ensures Reaches(Pair(t, a, ma, ra, b, mb, rb), [Commit(0, oa)] + [Commit(1, ob)], end)
    ensures end.t == Raced(t, ma, mb, oa, ob) && end.log == [Ran(a), Ran(b)]
  {
    var mid := FirstCommits(t, a, ma, ra, b, mb, rb, oa);
    WaiterCommits(mid, 1, b, mb, rb, ob);
    end := Final(mid, [Commit(1, ob)]);
    Then(Pair(t, a, ma, ra, b, mb, rb), [Commit(0, oa)], mid, [Commit(1, ob)], end);
  }

  /** Statement 0 reads, statement 1 reads, and they commit in that order. */
  ghost function RaceRun(a: Stmt, ma: set<Addr>, ra: multiset<Row>, b: Stmt, mb: set<Addr>, rb: multiset<Row>,
                         oa: map<Path, seq<Row>>, ob: map<Path, seq<Row>>): seq<Event> {
    ([Start(0, a)] + [Read(0, a, ma, ra)])
      + (([Start(1, b)] + [Read(1, b, mb, rb)]) + ([Commit(0, oa)] + [Commit(1, ob)]))
  }

  lemma RaceComes(t: Table, a: Stmt, ma: set<Addr>, ra: multiset<Row>, b: Stmt, mb: set<Addr>, rb: multiset<Row>,
                  oa: map<Path, seq<Row>>, ob: map<Path, seq<Row>>, live: multiset<Row>)
    requires live == Live(Raced(t, ma, mb, oa, ob))
    requires CanCommit(t, ma) && Fresh(t, oa) && BagOf(oa) == ra
    requires CanCommit(Publish(t, oa, ma), mb) && Fresh(Publish(t, oa, ma), ob) && BagOf(ob) == rb
    ensures Plans(a, t, ma, ra) && Plans(b, t, mb, rb) ==>
      Comes(t, RaceRun(a, ma, ra, b, mb, rb, oa, ob), [Ran(a), Ran(b)], live)
  {
    if Plans(a, t, ma, ra) && Plans(b, t, mb, rb) {
      var pair := Pair(t, a, ma, ra, b, mb, rb);
      WaiterReads(t, a, ma, ra);
      SecondReads(t, a, ma, ra, b, mb, rb);
      var end := BothCommit(t, a, ma, ra, b, mb, rb, oa, ob);
      Then(Waiter(t, a, ma, ra), [Start(1, b)] + [Read(1, b, mb, rb)], pair, [Commit(0, oa)] + [Commit(1, ob)], end);
      Then(Initial(t), [Start(0, a)] + [Read(0, a, ma, ra)], Waiter(t, a, ma, ra),
           ([Start(1, b)] + [Read(1, b, mb, rb)]) + ([Commit(0, oa)] + [Commit(1, ob)]), end);
    }
  }
}
