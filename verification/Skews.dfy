/**
 When two statements that read before either commits come to one of their serial
 orders, and a pair that comes to neither.
 */
module Skews {
  import opened Bags
  import opened Tables
  import opened Commits
  import opened Runs
  import opened Serial
  import opened Races

  /** The rows a statement matches. */
  ghost function Hits(stmt: Stmt, live: multiset<Row>): multiset<Row>
    requires !stmt.Merge?
  {
    Filter(live, stmt.pred)
  }

  /** The rows a statement writes in their place. */
  ghost function Writes(stmt: Stmt, live: multiset<Row>): multiset<Row>
    requires !stmt.Merge?
  {
    Rewritten(stmt, Hits(stmt, live))
  }

  /** Run on those rows alone, the statement changes nothing. */
  ghost predicate Harmless(stmt: Stmt, rows: multiset<Row>)
    requires !stmt.Merge?
  {
    Writes(stmt, rows) == Hits(stmt, rows)
  }

  ghost predicate MatchApart(a: Stmt, b: Stmt, live: multiset<Row>)
    requires !a.Merge? && !b.Merge?
  {
    forall r :: r in live ==> !(a.pred(r) && b.pred(r))
  }

  /** What is left when each rewrote the rows it read, and saw nothing of the other's. */
  ghost function RacedLive(a: Stmt, b: Stmt, live: multiset<Row>): multiset<Row>
    requires !a.Merge? && !b.Merge?
  {
    (live - (Hits(a, live) + Hits(b, live))) + (Writes(a, live) + Writes(b, live))
  }

  lemma FilterRest<A(!new)>(live: multiset<A>, p: A -> bool, q: A -> bool)
    requires forall x :: x in live ==> !(p(x) && q(x))
    ensures Filter(live - Filter(live, p), q) == Filter(live, q)
  {
    forall x
      ensures Filter(live - Filter(live, p), q)[x] == Filter(live, q)[x]
    {
      assert x in live ==> !(p(x) && q(x));
    }
  }

  lemma FitTogether<A(!new)>(live: multiset<A>, p: A -> bool, q: A -> bool)
    requires forall x :: x in live ==> !(p(x) && q(x))
    ensures Filter(live, p) + Filter(live, q) <= live
  {
    forall x
      ensures (Filter(live, p) + Filter(live, q))[x] <= live[x]
    {
      assert x in live ==> !(p(x) && q(x));
    }
  }

  lemma AloneOn(live: multiset<Row>, stmt: Stmt)
    requires !stmt.Merge?
    ensures Solo(live, Ran(stmt)) == (live - Hits(stmt, live)) + Writes(stmt, live)
  {
    SoloOf(live, stmt, Hits(stmt, live), Writes(stmt, live));
  }

  /** The second of two finds its own rows and those the first wrote that match it. */
  lemma SecondFinds(live: multiset<Row>, a: Stmt, b: Stmt)
    requires !a.Merge? && !b.Merge? && MatchApart(a, b, live)
    ensures var mid, wa := Solo(live, Ran(a)), Writes(a, live);
      && Hits(b, mid) == Hits(b, live) + Hits(b, wa)
      && Writes(b, mid) == Writes(b, live) + Writes(b, wa)
  {
    AloneOn(live, a);
    FilterSum(live - Hits(a, live), Writes(a, live), b.pred);
    FilterRest(live, a.pred, b.pred);
    RewrittenUnion(b, Hits(b, live), Hits(b, Writes(a, live)));
  }

  lemma SameEnd<A>(live: multiset<A>, ha: multiset<A>, wa: multiset<A>, hb: multiset<A>, wb: multiset<A>,
                   p: multiset<A>, p': multiset<A>)
    requires ha + hb <= live && p <= wa
    ensures (((live - ha) + wa) - (hb + p)) + (wb + p') == (live - (ha + hb)) + (wa + wb) <==> p' == p
  {
    var x, y := (((live - ha) + wa) - (hb + p)) + (wb + p'), (live - (ha + hb)) + (wa + wb);
    forall e
      ensures x[e] + p[e] == y[e] + p'[e]
    {
      assert (ha + hb)[e] <= live[e] && p[e] <= wa[e];
    }
    if x == y {
      forall e
        ensures p'[e] == p[e]
      {
        assert x[e] == y[e];
      }
    }
  }

  lemma InOrder(live: multiset<Row>, a: Stmt, b: Stmt)
    requires !a.Merge? && !b.Merge? && MatchApart(a, b, live)
    ensures var wa := Writes(a, live);
      Replay(live, [Ran(a), Ran(b)]) ==
      (((live - Hits(a, live)) + wa) - (Hits(b, live) + Hits(b, wa))) + (Writes(b, live) + Writes(b, wa))
  {
    ReplayTwo(live, Ran(a), Ran(b));
    AloneOn(live, a);
    AloneOn(Solo(live, Ran(a)), b);
    SecondFinds(live, a, b);
  }

  lemma HitsWithin(stmt: Stmt, live: multiset<Row>)
    requires !stmt.Merge?
    ensures Hits(stmt, live) <= live
  {
  }

  /** The race comes to this order exactly when the second would leave alone what the first wrote. */
  lemma OrderIff(live: multiset<Row>, a: Stmt, b: Stmt)
    requires !a.Merge? && !b.Merge? && MatchApart(a, b, live)
    ensures Replay(live, [Ran(a), Ran(b)]) == RacedLive(a, b, live) <==> Harmless(b, Writes(a, live))
  {
    var wa := Writes(a, live);
    InOrder(live, a, b);
    FitTogether(live, a.pred, b.pred);
    HitsWithin(b, wa);
    SameEnd(live, Hits(a, live), wa, Hits(b, live), Writes(b, live), Hits(b, wa), Writes(b, wa));
  }

  lemma OtherWay(live: multiset<Row>, a: Stmt, b: Stmt)
    requires !a.Merge? && !b.Merge?
    ensures RacedLive(a, b, live) == RacedLive(b, a, live)
  {
    assert Hits(a, live) + Hits(b, live) == Hits(b, live) + Hits(a, live);
    assert Writes(a, live) + Writes(b, live) == Writes(b, live) + Writes(a, live);
  }

  /** Some order of the effects leaves these contents. */
  ghost predicate SomeOrder(live: multiset<Row>, log: seq<Effect>, end: multiset<Row>) {
    exists order :: multiset(order) == multiset(log) && Replay(live, order) == end
  }

  lemma TwoOrders<A>(order: seq<A>, x: A, y: A)
    requires multiset(order) == multiset([x, y])
    ensures order == [x, y] || order == [y, x]
  {
    assert |order| == |multiset(order)| == 2;
    assert order == [order[0], order[1]];
    assert multiset([order[0], order[1]]) == multiset{order[0], order[1]};
    assert order[0] in multiset{x, y};
    if order[0] == x {
      assert multiset{order[0], order[1]} - multiset{x} == multiset{order[1]};
      assert multiset{x, y} - multiset{x} == multiset{y};
      assert order[1] in multiset{y};
    } else {
      assert multiset{order[0], order[1]} - multiset{y} == multiset{order[1]};
      assert multiset{x, y} - multiset{y} == multiset{x};
      assert order[1] in multiset{x};
    }
  }

  lemma SomeOrderIff(live: multiset<Row>, x: Effect, y: Effect, end: multiset<Row>)
    ensures SomeOrder(live, [x, y], end) <==> Replay(live, [x, y]) == end || Replay(live, [y, x]) == end
  {
    assert multiset([y, x]) == multiset([x, y]);
    if SomeOrder(live, [x, y], end) {
      var order :| multiset(order) == multiset([x, y]) && Replay(live, order) == end;
      TwoOrders(order, x, y);
    }
  }

  lemma MarksApart(t: Table, a: Stmt, b: Stmt)
    requires !a.Merge? && !b.Merge? && Matching(t, a.pred) !! Matching(t, b.pred)
    ensures MatchApart(a, b, Live(t))
  {
    forall r | r in Live(t)
      ensures !(a.pred(r) && b.pred(r))
    {
      var at := MapWitness(multiset(LiveAddrs(t)), (x: Addr) => RowAt(t.store, x), r);
      assert at in LiveAddrs(t);
      assert at !in Matching(t, a.pred) || at !in Matching(t, b.pred);
    }
  }

  lemma PlansItsWrites(t: Table, stmt: Stmt)
    requires !stmt.Merge?
    ensures Plans(stmt, t, Matching(t, stmt.pred), Writes(stmt, Live(t)))
    ensures RowsAt(t.store, Matching(t, stmt.pred)) == Hits(stmt, Live(t))
  {
    MatchingRows(t, stmt.pred);
  }

  /** The objects hold what the statements write, under paths nobody used. */
  ghost predicate Objects(t: Table, a: Stmt, b: Stmt, oa: map<Path, seq<Row>>, ob: map<Path, seq<Row>>)
    requires !a.Merge? && !b.Merge?
  {
    && Fresh(t, oa) && BagOf(oa) == Writes(a, Live(t))
    && Fresh(Publish(t, oa, Matching(t, a.pred)), ob) && BagOf(ob) == Writes(b, Live(t))
  }

  ghost function Race(t: Table, a: Stmt, b: Stmt, oa: map<Path, seq<Row>>, ob: map<Path, seq<Row>>): seq<Event>
    requires !a.Merge? && !b.Merge?
  {
    RaceRun(a, Matching(t, a.pred), Writes(a, Live(t)), b, Matching(t, b.pred), Writes(b, Live(t)), oa, ob)
  }

  /**
   Two UPDATEs or DELETEs read the same table, mark different rows, and both commit.
   Some serial order of the two leaves what they leave, if and only if one of them
   would change nothing among the rows the other wrote.
   */
  lemma RaceIsSerialIff(t: Table, a: Stmt, b: Stmt, oa: map<Path, seq<Row>>, ob: map<Path, seq<Row>>)
    requires Valid(t) && !a.Merge? && !b.Merge? && Matching(t, a.pred) !! Matching(t, b.pred)
    requires Objects(t, a, b, oa, ob)
    ensures Comes(t, Race(t, a, b, oa, ob), [Ran(a), Ran(b)], RacedLive(a, b, Live(t)))
    ensures SomeOrder(Live(t), [Ran(a), Ran(b)], RacedLive(a, b, Live(t))) <==>
            Harmless(b, Writes(a, Live(t))) || Harmless(a, Writes(b, Live(t)))
  {
    RaceLeaves(t, a, b, oa, ob);
    MarksApart(t, a, b);
    OrdersIff(Live(t), a, b);
  }

  lemma OrdersIff(live: multiset<Row>, a: Stmt, b: Stmt)
    requires !a.Merge? && !b.Merge? && MatchApart(a, b, live)
    ensures SomeOrder(live, [Ran(a), Ran(b)], RacedLive(a, b, live)) <==>
            Harmless(b, Writes(a, live)) || Harmless(a, Writes(b, live))
  {
    SomeOrderIff(live, Ran(a), Ran(b), RacedLive(a, b, live));
    OrderIff(live, a, b);
    OrderIff(live, b, a);
    OtherWay(live, a, b);
  }

  lemma RaceLeaves(t: Table, a: Stmt, b: Stmt, oa: map<Path, seq<Row>>, ob: map<Path, seq<Row>>)
    requires Valid(t) && !a.Merge? && !b.Merge? && Matching(t, a.pred) !! Matching(t, b.pred)
    requires Objects(t, a, b, oa, ob)
    ensures Comes(t, Race(t, a, b, oa, ob), [Ran(a), Ran(b)], RacedLive(a, b, Live(t)))
  {
    var ma, mb := Matching(t, a.pred), Matching(t, b.pred);
    PlansItsWrites(t, a);
    PlansItsWrites(t, b);
    RacedContents(t, ma, mb, oa, ob);
    RaceComes(t, a, ma, Writes(a, Live(t)), b, mb, Writes(b, Live(t)), oa, ob, RacedLive(a, b, Live(t)));
  }

  // ---- Write skew ----

  ghost function Is(row: Row): Row -> bool {
    (r: Row) => r == row
  }

  ghost function To(row: Row): Row -> Row {
    (r: Row) => row
  }

  /** `UPDATE ... SET color = <to's> WHERE color = <from's>`, on a table of one column. */
  ghost function Turn(from: Row, to: Row): Stmt {
    Update(Is(from), To(to))
  }

  lemma TurnsBack(live: multiset<Row>, from: Row, to: Row)
    requires from in live && from != to
    ensures !Harmless(Turn(to, from), Writes(Turn(from, to), live))
  {
    var wrote, back := Writes(Turn(from, to), live), Turn(to, from);
    MapIn(Hits(Turn(from, to), live), To(to), from);
    assert to in Hits(back, wrote);
    if to in Writes(back, wrote) {
      var r := MapWitness(Hits(back, wrote), To(from), to);
    }
  }

  /**
   One statement turns every white row black and the other every black row white. Both
   read, then both commit: no serial order of the two leaves what they leave.
   */
  lemma WriteSkew(t: Table, white: Row, black: Row, oa: map<Path, seq<Row>>, ob: map<Path, seq<Row>>)
    requires Valid(t) && white != black && white in Live(t) && black in Live(t)
    requires Objects(t, Turn(white, black), Turn(black, white), oa, ob)
    ensures var a, b := Turn(white, black), Turn(black, white);
      && Comes(t, Race(t, a, b, oa, ob), [Ran(a), Ran(b)], RacedLive(a, b, Live(t)))
      && !SomeOrder(Live(t), [Ran(a), Ran(b)], RacedLive(a, b, Live(t)))
  {
    var a, b := Turn(white, black), Turn(black, white);
    assert Matching(t, a.pred) !! Matching(t, b.pred);
    RaceIsSerialIff(t, a, b, oa, ob);
    TurnsBack(Live(t), white, black);
    TurnsBack(Live(t), black, white);
  }
}
