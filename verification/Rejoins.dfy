/**
 A MERGE's join as a decision on the table's contents alone: which addresses the
 rows sit at does not matter, so the same join can be asked of the contents at the
 read and of the contents at the commit, and the two answers compared.
 */
module Rejoins {
  import opened Options
  import opened Bags
  import opened Tables
  import opened Merge
  import opened Merging
  import Dml
  import Runs
  import Serial

  // ---- The join on a bag of target rows ----

  ghost predicate UnmatchedIn(spec: Spec, live: multiset<Row>, src: Row) {
    forall r :: r in live ==> !MatchByKeys(src, r, spec.keys)
  }

  ghost predicate SettledIn(spec: Spec, live: multiset<Row>, src: Row) {
    && (forall r :: r in live ==> SettledPair(spec, src, r))
    && (UnmatchedIn(spec, live, src) ==> SettledAlone(spec, src))
  }

  ghost predicate ClashIn(spec: Spec, live: multiset<Row>, x: Row, y: Row) {
    exists r :: r in live && Affects(spec, x, r) && Fires(spec, y, r)
  }

  /** The join ends in a plan: everything has a value and no target row is affected twice. */
  ghost predicate Joins(spec: Spec, srcs: seq<Row>, live: multiset<Row>) {
    && (forall i :: 0 <= i < |srcs| ==> SettledIn(spec, live, srcs[i]))
    && (forall i, j :: 0 <= i < j < |srcs| ==> !ClashIn(spec, live, srcs[i], srcs[j]))
  }

  ghost function Hitting(spec: Spec, bag: multiset<Row>): Row -> bool {
    (r: Row) => exists s :: s in bag && Affects(spec, s, r)
  }

  /** The rows some source row affects. */
  ghost function HitIn(spec: Spec, bag: multiset<Row>, live: multiset<Row>): multiset<Row> {
    Filter(live, Hitting(spec, bag))
  }

  ghost function Updating(spec: Spec, src: Row): Row -> multiset<Row> {
    (r: Row) => UpdatedRow(spec, src, r)
  }

  ghost function UpdatingOn(spec: Spec, live: multiset<Row>): Row -> multiset<Row> {
    (s: Row) => Flat(live, Updating(spec, s))
  }

  /** The replacements the source rows make of `live`. */
  ghost function UpdatesIn(spec: Spec, bag: multiset<Row>, live: multiset<Row>): multiset<Row> {
    Flat(bag, UpdatingOn(spec, live))
  }

  ghost function Inserting(spec: Spec, live: multiset<Row>): Row -> multiset<Row> {
    (s: Row) => if UnmatchedIn(spec, live, s) then NewRow(spec, s) else multiset{}
  }

  /** The rows inserted for source rows that match nothing in `live`. */
  ghost function InsertsIn(spec: Spec, bag: multiset<Row>, live: multiset<Row>): multiset<Row> {
    Flat(bag, Inserting(spec, live))
  }

  /** A MERGE over the source rows `srcs`, as the protocol sees it. */
  ghost function JoinOn(spec: Spec, srcs: seq<Row>): multiset<Row> -> Option<Runs.Decision> {
    (live: multiset<Row>) =>
      if !Joins(spec, srcs, live) then None
      else
        var bag := multiset(srcs);
        Some(Runs.Decision(HitIn(spec, bag, live), UpdatesIn(spec, bag, live) + InsertsIn(spec, bag, live)))
  }

  // ---- The join over addressed rows is that decision ----

  ghost function RowBag(tgts: seq<TargetRow>): multiset<Row> {
    if tgts == [] then multiset{}
    else
      var n := |tgts| - 1;
      RowBag(tgts[..n]) + multiset{tgts[n].row}
  }

  lemma {:induction false} InRowBag(tgts: seq<TargetRow>, x: Row)
    ensures x in RowBag(tgts) <==> exists k :: 0 <= k < |tgts| && tgts[k].row == x
  {
    if tgts != [] {
      var n := |tgts| - 1;
      InRowBag(tgts[..n], x);
      SomeRowLast(tgts, x);
    }
  }

  lemma SomeRowLast(tgts: seq<TargetRow>, x: Row)
    requires tgts != []
    ensures var n := |tgts| - 1;
      (exists k :: 0 <= k < |tgts| && tgts[k].row == x) <==>
      (exists k :: 0 <= k < n && tgts[..n][k].row == x) || tgts[n].row == x
  {
    assert forall k :: 0 <= k < |tgts| - 1 ==> tgts[..|tgts| - 1][k] == tgts[k];
  }

  lemma RowBagHas(tgts: seq<TargetRow>)
    ensures forall x :: x in RowBag(tgts) <==> exists k :: 0 <= k < |tgts| && tgts[k].row == x
  {
    forall x
      ensures x in RowBag(tgts) <==> exists k :: 0 <= k < |tgts| && tgts[k].row == x
    {
      InRowBag(tgts, x);
    }
  }

  lemma UnmatchedAlike(spec: Spec, tgts: seq<TargetRow>, src: Row)
    ensures Unmatched(spec, src, tgts) <==> UnmatchedIn(spec, RowBag(tgts), src)
  {
    RowBagHas(tgts);
    if Unmatched(spec, src, tgts) {
      forall r | r in RowBag(tgts)
        ensures !MatchByKeys(src, r, spec.keys)
      {
        var k :| 0 <= k < |tgts| && tgts[k].row == r;
      }
    }
  }

  lemma SettledAlike(spec: Spec, tgts: seq<TargetRow>, src: Row)
    ensures Settled(spec, tgts, src) <==> SettledIn(spec, RowBag(tgts), src)
  {
    RowBagHas(tgts);
    UnmatchedAlike(spec, tgts, src);
    if Settled(spec, tgts, src) {
      forall r | r in RowBag(tgts)
        ensures SettledPair(spec, src, r)
      {
        var k :| 0 <= k < |tgts| && tgts[k].row == r;
      }
    }
  }

  lemma ClashAlike(spec: Spec, tgts: seq<TargetRow>, x: Row, y: Row)
    ensures Clash(spec, tgts, x, y) <==> ClashIn(spec, RowBag(tgts), x, y)
  {
    RowBagHas(tgts);
    if ClashIn(spec, RowBag(tgts), x, y) {
      var r :| r in RowBag(tgts) && Affects(spec, x, r) && Fires(spec, y, r);
      var k :| 0 <= k < |tgts| && tgts[k].row == r;
    }
  }

  lemma JoinsAlike(spec: Spec, srcs: seq<Row>, tgts: seq<TargetRow>)
    ensures Joins(spec, srcs, RowBag(tgts)) <==> AllSettled(spec, tgts, srcs) && !Clashes(spec, tgts, srcs)
  {
    forall i | 0 <= i < |srcs|
      ensures Settled(spec, tgts, srcs[i]) <==> SettledIn(spec, RowBag(tgts), srcs[i])
    {
      SettledAlike(spec, tgts, srcs[i]);
    }
    forall i, j | 0 <= i < j < |srcs|
      ensures Clash(spec, tgts, srcs[i], srcs[j]) <==> ClashIn(spec, RowBag(tgts), srcs[i], srcs[j])
    {
      ClashAlike(spec, tgts, srcs[i], srcs[j]);
    }
  }

  lemma {:induction false} HitCount(tgts: seq<TargetRow>, hit: set<nat>, p: Row -> bool, x: Row)
    requires forall i: nat :: i < |tgts| ==> (i in hit <==> p(tgts[i].row))
    ensures HitRows(tgts, hit)[x] == if p(x) then RowBag(tgts)[x] else 0
  {
    if tgts != [] {
      HitCount(tgts[..|tgts| - 1], hit, p, x);
    }
  }

  lemma HitRowsAre(tgts: seq<TargetRow>, hit: set<nat>, p: Row -> bool)
    requires forall i: nat :: i < |tgts| ==> (i in hit <==> p(tgts[i].row))
    ensures HitRows(tgts, hit) == Filter(RowBag(tgts), p)
  {
    forall x
      ensures HitRows(tgts, hit)[x] == Filter(RowBag(tgts), p)[x]
    {
      HitCount(tgts, hit, p, x);
    }
  }

  lemma RowBagNext(tgts: seq<TargetRow>, n: nat)
    requires 0 < n <= |tgts|
    ensures RowBag(tgts[..n]) == RowBag(tgts[..n - 1]) + multiset{tgts[n - 1].row}
  {
    assert tgts[..n][..n - 1] == tgts[..n - 1];
  }

  lemma {:induction false} UpdatedByIs(spec: Spec, src: Row, tgts: seq<TargetRow>, n: nat)
    requires n <= |tgts|
    ensures UpdatedBy(spec, src, tgts, n) == Flat(RowBag(tgts[..n]), Updating(spec, src))
  {
    if n == 0 {
      assert tgts[..0] == [];
    } else {
      var row := tgts[n - 1].row;
      RowBagNext(tgts, n);
      UpdatedByIs(spec, src, tgts, n - 1);
      assert Updating(spec, src)(row) == UpdatedRow(spec, src, row);
      FlatAdd(RowBag(tgts[..n - 1]), row, Updating(spec, src));
    }
  }

  lemma UpdatesAlike(spec: Spec, tgts: seq<TargetRow>, bag: multiset<Row>)
    ensures Updates(spec, tgts, bag) == UpdatesIn(spec, bag, RowBag(tgts))
  {
    assert tgts[..|tgts|] == tgts;
    forall s: Row
      ensures UpdatedBy(spec, s, tgts, |tgts|) == UpdatingOn(spec, RowBag(tgts))(s)
    {
      UpdatedByIs(spec, s, tgts, |tgts|);
    }
    FlatAgree(bag, (s: Row) => UpdatedBy(spec, s, tgts, |tgts|), UpdatingOn(spec, RowBag(tgts)));
  }

  lemma InsertsAlike(spec: Spec, tgts: seq<TargetRow>, bag: multiset<Row>)
    ensures Inserts(spec, tgts, bag) == InsertsIn(spec, bag, RowBag(tgts))
  {
    forall s: Row
      ensures InsertedRow(spec, tgts, s) == Inserting(spec, RowBag(tgts))(s)
    {
      UnmatchedAlike(spec, tgts, s);
    }
    FlatAgree(bag, (s: Row) => InsertedRow(spec, tgts, s), Inserting(spec, RowBag(tgts)));
  }

  lemma HitAlike(spec: Spec, tgts: seq<TargetRow>, bag: multiset<Row>)
    ensures HitRows(tgts, Merge.Affected(spec, tgts, bag)) == HitIn(spec, bag, RowBag(tgts))
  {
    HitRowsAre(tgts, Merge.Affected(spec, tgts, bag), Hitting(spec, bag));
  }

  /** The nested loop over addressed rows plans exactly when, and exactly what, the bags decide. */
  lemma JoinIsDecision(spec: Spec, srcs: seq<Row>, tgts: seq<TargetRow>)
    ensures var out, d := OnSources(spec, srcs, tgts), JoinOn(spec, srcs)(RowBag(tgts));
      && (out.Planned? <==> d.Some?)
      && (out.Planned? ==> d.value == Runs.Decision(HitRows(tgts, out.plan.hit), multiset(NewRows(out.plan))))
  {
    var bag := multiset(srcs);
    JoinsAlike(spec, srcs, tgts);
    if OnSources(spec, srcs, tgts).Planned? {
      PlannedIsSettled(spec, srcs, tgts);
    }
    if AllSettled(spec, tgts, srcs) {
      SourcesMean(spec, srcs, tgts);
      HitAlike(spec, tgts, bag);
      UpdatesAlike(spec, tgts, bag);
      InsertsAlike(spec, tgts, bag);
    }
  }

  // ---- A MERGE attempt is a step of the protocol ----

  lemma {:induction false} ReadRows(store: map<Path, seq<Row>>, tgts: seq<TargetRow>)
    requires Holds(store, tgts)
    ensures RowsAt(store, AddrsOf(tgts)) == RowBag(tgts)
  {
    if tgts == [] {
      assert AddrsOf(tgts) == {};
    } else {
      var n := |tgts| - 1;
      ReadRows(store, tgts[..n]);
      AddrsLast(tgts);
      RowsUnion(store, AddrsOf(tgts[..n]), {tgts[n].addr});
      OneRow(store, tgts[n].addr);
    }
  }

  lemma AddrsLast(tgts: seq<TargetRow>)
    requires tgts != [] && Apart(tgts)
    ensures var n := |tgts| - 1;
      AddrsOf(tgts) == AddrsOf(tgts[..n]) + {tgts[n].addr} && tgts[n].addr !in AddrsOf(tgts[..n])
  {
    var n := |tgts| - 1;
    forall a | a in AddrsOf(tgts)
      ensures a in AddrsOf(tgts[..n]) + {tgts[n].addr}
    {
      var k :| 0 <= k < |tgts| && tgts[k].addr == a;
      assert k < n ==> tgts[..n][k].addr == a;
    }
  }

  /** What an attempt decides from the live rows it read is what the protocol lets it decide. */
  lemma MergeIsPlan(spec: Spec, srcs: seq<Row>, t: Table, tgts: seq<TargetRow>)
    requires Reads(t.store, LiveAddrs(t), tgts)
    ensures var out := OnSources(spec, srcs, tgts);
      if out.Planned?
      then Runs.Plans(Runs.Merge(JoinOn(spec, srcs)), t, AddrsIn(tgts, out.plan.hit), multiset(NewRows(out.plan)))
      else JoinOn(spec, srcs)(Live(t)) == None
  {
    ReadRows(t.store, tgts);
    JoinIsDecision(spec, srcs, tgts);
    var out := OnSources(spec, srcs, tgts);
    if out.Planned? {
      MarkedRows(t.store, tgts, out.plan.hit);
      assert AddrsIn(tgts, out.plan.hit) <= AddrsOf(tgts);
    }
  }

  // ---- The join again, at the commit ----

  ghost function Touching(spec: Spec, bag: multiset<Row>): Row -> bool {
    (r: Row) => exists s :: s in bag && MatchByKeys(s, r, spec.keys)
  }

  /** The rows some source row matches on the ON keys. */
  ghost function MatchedIn(spec: Spec, bag: multiset<Row>, live: multiset<Row>): multiset<Row> {
    Filter(live, Touching(spec, bag))
  }

  /** `seen` holds rows of `live`, and all of those `src` matches. */
  ghost predicate Sees(spec: Spec, live: multiset<Row>, seen: multiset<Row>, src: Row) {
    && (forall r :: r in seen ==> r in live)
    && (forall r :: r in live && MatchByKeys(src, r, spec.keys) ==> r in seen)
  }

  lemma SeesMatched(spec: Spec, bag: multiset<Row>, live: multiset<Row>, src: Row)
    requires src in bag
    ensures Sees(spec, live, MatchedIn(spec, bag, live), src)
  {
  }

  lemma JoinsLocally(spec: Spec, srcs: seq<Row>, live: multiset<Row>, seen: multiset<Row>)
    requires forall i :: 0 <= i < |srcs| ==> Sees(spec, live, seen, srcs[i])
    ensures Joins(spec, srcs, live) <==> Joins(spec, srcs, seen)
  {
    forall i | 0 <= i < |srcs|
      ensures SettledIn(spec, live, srcs[i]) <==> SettledIn(spec, seen, srcs[i])
    {
      SettledLocally(spec, live, seen, srcs[i]);
    }
    forall i, j | 0 <= i < j < |srcs|
      ensures ClashIn(spec, live, srcs[i], srcs[j]) <==> ClashIn(spec, seen, srcs[i], srcs[j])
    {
      ClashLocally(spec, live, seen, srcs[i], srcs[j]);
    }
  }

  lemma SettledLocally(spec: Spec, live: multiset<Row>, seen: multiset<Row>, src: Row)
    requires Sees(spec, live, seen, src)
    ensures UnmatchedIn(spec, live, src) <==> UnmatchedIn(spec, seen, src)
    ensures SettledIn(spec, live, src) <==> SettledIn(spec, seen, src)
  {
  }

  lemma ClashLocally(spec: Spec, live: multiset<Row>, seen: multiset<Row>, x: Row, y: Row)
    requires Sees(spec, live, seen, x)
    ensures ClashIn(spec, live, x, y) <==> ClashIn(spec, seen, x, y)
  {
  }

  lemma UpdatingFiltered(spec: Spec, src: Row, live: multiset<Row>, p: Row -> bool)
    requires forall r :: Affects(spec, src, r) ==> p(r)
    ensures UpdatingOn(spec, live)(src) == UpdatingOn(spec, Filter(live, p))(src)
  {
    forall r | !p(r)
      ensures Updating(spec, src)(r) == multiset{}
    {
      assert !Affects(spec, src, r);
    }
    FlatFilter(live, p, Updating(spec, src));
  }

  lemma UpdatesFiltered(spec: Spec, bag: multiset<Row>, live: multiset<Row>, p: Row -> bool)
    requires forall s, r :: s in bag && Affects(spec, s, r) ==> p(r)
    ensures UpdatesIn(spec, bag, live) == UpdatesIn(spec, bag, Filter(live, p))
  {
    forall s | s in bag
      ensures UpdatingOn(spec, live)(s) == UpdatingOn(spec, Filter(live, p))(s)
    {
      UpdatingFiltered(spec, s, live, p);
    }
    FlatAgree(bag, UpdatingOn(spec, live), UpdatingOn(spec, Filter(live, p)));
  }

  lemma InsertsLocally(spec: Spec, bag: multiset<Row>, live: multiset<Row>, seen: multiset<Row>)
    requires forall s :: s in bag ==> Sees(spec, live, seen, s)
    ensures InsertsIn(spec, bag, live) == InsertsIn(spec, bag, seen)
  {
    forall s | s in bag
      ensures Inserting(spec, live)(s) == Inserting(spec, seen)(s)
    {
      SettledLocally(spec, live, seen, s);
    }
    FlatAgree(bag, Inserting(spec, live), Inserting(spec, seen));
  }

  lemma HitFiltered(spec: Spec, bag: multiset<Row>, live: multiset<Row>, p: Row -> bool)
    requires forall s, r :: s in bag && Affects(spec, s, r) ==> p(r)
    ensures HitIn(spec, bag, live) == HitIn(spec, bag, Filter(live, p))
  {
  }

  /** A join looks at nothing but the rows it matches. */
  lemma JoinIsLocal(spec: Spec, srcs: seq<Row>, live: multiset<Row>)
    ensures JoinOn(spec, srcs)(live) == JoinOn(spec, srcs)(MatchedIn(spec, multiset(srcs), live))
  {
    var bag := multiset(srcs);
    var seen := MatchedIn(spec, bag, live);
    forall s | s in bag
      ensures Sees(spec, live, seen, s)
    {
      SeesMatched(spec, bag, live, s);
    }
    JoinsLocally(spec, srcs, live, seen);
    HitFiltered(spec, bag, live, Touching(spec, bag));
    UpdatesFiltered(spec, bag, live, Touching(spec, bag));
    InsertsLocally(spec, bag, live, seen);
  }

  /**
   The contents may change as they like between the read and the commit: while the
   rows matching some source row are the same, the join decides the same.
   */
  lemma SameMatchesSameJoin(spec: Spec, srcs: seq<Row>, was: multiset<Row>, now: multiset<Row>)
    requires MatchedIn(spec, multiset(srcs), was) == MatchedIn(spec, multiset(srcs), now)
    ensures JoinOn(spec, srcs)(was) == JoinOn(spec, srcs)(now)
  {
    JoinIsLocal(spec, srcs, was);
    JoinIsLocal(spec, srcs, now);
  }

  /** So a MERGE whose matching rows are the same at its commit is a serial step. */
  lemma MergeEqualsRerun(s: Runs.Sys, id: nat, objs: map<Path, seq<Row>>, spec: Spec, srcs: seq<Row>,
                         was: multiset<Row>)
    requires Runs.Inv(s) && Runs.Enabled(s, Runs.Commit(id, objs)) && Carries(s, id, spec, srcs, was)
    requires MatchedIn(spec, multiset(srcs), was) == MatchedIn(spec, multiset(srcs), Live(s.t))
    ensures Live(Runs.Apply(s, Runs.Commit(id, objs)).t) == Serial.Solo(Live(s.t), Runs.Ran(s.sessions[id].stmt))
  {
    SameMatchesSameJoin(spec, srcs, was, Live(s.t));
    Serial.CommitEqualsRerun(s, id, objs);
  }

  /** Statement `id` is a MERGE carrying what its join decided on the contents `was`. */
  ghost predicate Carries(s: Runs.Sys, id: nat, spec: Spec, srcs: seq<Row>, was: multiset<Row>) {
    && Runs.Waiting(s, id) && s.sessions[id].stmt == Runs.Merge(JoinOn(spec, srcs))
    && JoinOn(spec, srcs)(was) == Some(Runs.Decision(RowsAt(s.t.store, s.sessions[id].phase.marks),
                                                     s.sessions[id].phase.rows))
  }

  /** Every waiting MERGE carries such a decision. */
  lemma WaitingMergeCarries(s: Runs.Sys, id: nat, spec: Spec, srcs: seq<Row>) returns (was: multiset<Row>)
    requires Runs.Inv(s) && Runs.Waiting(s, id) && s.sessions[id].stmt == Runs.Merge(JoinOn(spec, srcs))
    ensures Carries(s, id, spec, srcs, was)
  {
    var p := s.sessions[id].phase;
    assert Runs.SessionHolds(s.t, s.sessions[id]);
    was :| JoinOn(spec, srcs)(was) == Some(Runs.Decision(RowsAt(s.t.store, p.marks), p.rows));
  }

  lemma UpdatesUnion(spec: Spec, bag: multiset<Row>, a: multiset<Row>, b: multiset<Row>)
    ensures UpdatesIn(spec, bag, a + b) == UpdatesIn(spec, bag, a) + UpdatesIn(spec, bag, b)
  {
    forall s | s in bag
      ensures UpdatingOn(spec, a + b)(s) == UpdatingOn(spec, a)(s) + UpdatingOn(spec, b)(s)
    {
      FlatUnion(a, b, Updating(spec, s));
    }
    FlatSum(bag, UpdatingOn(spec, a), UpdatingOn(spec, b), UpdatingOn(spec, a + b));
  }

  lemma CancelBoth<A>(u: multiset<A>, i: multiset<A>, h: multiset<A>, p: multiset<A>, up: multiset<A>, i': multiset<A>)
    ensures (u + i) + (h + p) == ((u + up) + i') + h <==> i + p == up + i'
  {
    assert (u + i) + (h + p) == (i + p) + (u + h);
    assert ((u + up) + i') + h == (up + i') + (u + h);
    CancelSum(i + p, up + i', u + h);
  }

  lemma CancelSum<A>(a: multiset<A>, b: multiset<A>, c: multiset<A>)
    ensures a + c == b + c <==> a == b
  {
    if a + c == b + c {
      assert a == (a + c) - c && b == (b + c) - c;
    }
  }

  /** The rows the join at the commit would affect and the attempt did not mark. */
  ghost function Missed(spec: Spec, bag: multiset<Row>, was: multiset<Row>, now: multiset<Row>): multiset<Row> {
    HitIn(spec, bag, now) - HitIn(spec, bag, was)
  }

  /** Both joins plan: same net effect exactly when the missed rows and the inserts make up for each other. */
  lemma JoinsNet(spec: Spec, srcs: seq<Row>, was: multiset<Row>, now: multiset<Row>)
    requires Joins(spec, srcs, was) && Joins(spec, srcs, now) && HitIn(spec, multiset(srcs), was) <= now
    ensures var bag := multiset(srcs);
      var d, d' := JoinOn(spec, srcs)(was).value, JoinOn(spec, srcs)(now).value;
      var missed := Missed(spec, bag, was, now);
      d.rows + d'.out == d'.rows + d.out <==>
        InsertsIn(spec, bag, was) + missed == UpdatesIn(spec, bag, missed) + InsertsIn(spec, bag, now)
  {
    var bag := multiset(srcs);
    var h, h', missed := HitIn(spec, bag, was), HitIn(spec, bag, now), Missed(spec, bag, was, now);
    assert h' == h + missed;
    UpdatesFiltered(spec, bag, was, Hitting(spec, bag));
    UpdatesFiltered(spec, bag, now, Hitting(spec, bag));
    UpdatesUnion(spec, bag, h, missed);
    CancelBoth(UpdatesIn(spec, bag, h), InsertsIn(spec, bag, was), h, missed,
               UpdatesIn(spec, bag, missed), InsertsIn(spec, bag, now));
  }

  /** Running the join again at `now` comes to what was decided on `was`. */
  ghost predicate ComesToTheSame(spec: Spec, srcs: seq<Row>, was: multiset<Row>, now: multiset<Row>) {
    var bag := multiset(srcs);
    var missed := Missed(spec, bag, was, now);
    if Joins(spec, srcs, now)
    then InsertsIn(spec, bag, was) + missed == UpdatesIn(spec, bag, missed) + InsertsIn(spec, bag, now)
    else UpdatesIn(spec, bag, was) + InsertsIn(spec, bag, was) == HitIn(spec, bag, was)
  }

  lemma ComesToTheSameNet(spec: Spec, srcs: seq<Row>, was: multiset<Row>, now: multiset<Row>)
    requires Joins(spec, srcs, was) && HitIn(spec, multiset(srcs), was) <= now
    ensures var d := JoinOn(spec, srcs)(was).value;
      ComesToTheSame(spec, srcs, was, now) <==>
        match JoinOn(spec, srcs)(now)
        case Some(d') => d.rows + d'.out == d'.rows + d.out
        case None => d.rows == d.out
  {
    if Joins(spec, srcs, now) {
      JoinsNet(spec, srcs, was, now);
    }
  }

  lemma CarriedRerunIff(s: Runs.Sys, id: nat, objs: map<Path, seq<Row>>, spec: Spec, srcs: seq<Row>, was: multiset<Row>)
    requires Runs.Inv(s) && Runs.Enabled(s, Runs.Commit(id, objs)) && Carries(s, id, spec, srcs, was)
    ensures Live(Runs.Apply(s, Runs.Commit(id, objs)).t) == Serial.Solo(Live(s.t), Runs.Ran(s.sessions[id].stmt)) <==>
            ComesToTheSame(spec, srcs, was, Live(s.t))
  {
    Serial.CommitExchanges(s, id, objs);
    TakesOnlyLive(spec, srcs, Live(s.t));
    Serial.MergeRerunExactly(s, id, objs);
    ComesToTheSameNet(spec, srcs, was, Live(s.t));
  }

  /**
   For any interleaving: the decision a waiting MERGE carries was made on some contents;
   and whichever contents account for it, its commit leaves what running it again at
   that point would, if and only if, when the join there still plans, the rows it would
   insert and the replacements of the rows the attempt missed are the rows the attempt
   inserted and those missed rows; and when it refuses, the attempt puts back exactly
   what it takes out.
   */
  lemma MergeRerunIff(s: Runs.Sys, id: nat, objs: map<Path, seq<Row>>, spec: Spec, srcs: seq<Row>)
    requires Runs.Inv(s) && Runs.Enabled(s, Runs.Commit(id, objs))
    requires s.sessions[id].stmt == Runs.Merge(JoinOn(spec, srcs))
    ensures exists was :: Carries(s, id, spec, srcs, was)
    ensures var same := Live(Runs.Apply(s, Runs.Commit(id, objs)).t) ==
                        Serial.Solo(Live(s.t), Runs.Ran(s.sessions[id].stmt));
      forall was :: Carries(s, id, spec, srcs, was) ==> (same <==> ComesToTheSame(spec, srcs, was, Live(s.t)))
  {
    var some := WaitingMergeCarries(s, id, spec, srcs);
    forall was | Carries(s, id, spec, srcs, was)
      ensures Live(Runs.Apply(s, Runs.Commit(id, objs)).t) == Serial.Solo(Live(s.t), Runs.Ran(s.sessions[id].stmt)) <==>
              ComesToTheSame(spec, srcs, was, Live(s.t))
    {
      CarriedRerunIff(s, id, objs, spec, srcs, was);
    }
  }

  lemma TakesOnlyLive(spec: Spec, srcs: seq<Row>, live: multiset<Row>)
    ensures var d := JoinOn(spec, srcs)(live); d.Some? ==> d.value.out <= live
  {
  }

  // `MERGE ... ON t.id = s.id WHEN NOT MATCHED THEN INSERT ...`: the row arrives while it waits.

  function InsertMissing(): Spec {
    Spec([OnKey("id", "id")],
         [Clause(false, InsertAction, (s: Row, t: Row) => Dml.Eval.Value(true), (s: Row, t: Row) => Dml.Eval.Value(s))])
  }

  lemma NeverMatchedClause(s: Row, r: Row)
    ensures !Fires(InsertMissing(), s, r) && SettledPair(InsertMissing(), s, r)
  {
    assert FirstFiring(InsertMissing().clauses, true, s, r, 1) == Dml.Eval.Value(None);
  }

  lemma InsertsTheRow(s: Row)
    ensures SettledAlone(InsertMissing(), s) && NewRow(InsertMissing(), s) == multiset{s}
  {
    assert FirstFiring(InsertMissing().clauses, false, s, NO_TARGET) == Dml.Eval.Value(Some(0));
  }

  lemma InsertOnlyJoins(row: Row, live: multiset<Row>)
    ensures Joins(InsertMissing(), [row], live)
  {
    InsertsTheRow(row);
    forall r: Row
      ensures SettledPair(InsertMissing(), row, r)
    {
      NeverMatchedClause(row, r);
    }
  }

  lemma InsertOnlyTakesNothing(bag: multiset<Row>, live: multiset<Row>)
    ensures HitIn(InsertMissing(), bag, live) == multiset{}
    ensures UpdatesIn(InsertMissing(), bag, live) == UpdatesIn(InsertMissing(), bag, multiset{})
  {
    var none := (r: Row) => false;
    forall s: Row, r: Row
      ensures !Affects(InsertMissing(), s, r)
    {
      NeverMatchedClause(s, r);
    }
    UpdatesFiltered(InsertMissing(), bag, live, none);
    HitFiltered(InsertMissing(), bag, live, none);
    assert Filter(live, none) == multiset{};
  }

  lemma InsertOnlyPuts(row: Row, live: multiset<Row>)
    ensures UpdatesIn(InsertMissing(), multiset{row}, multiset{}) == multiset{}
    ensures InsertsIn(InsertMissing(), multiset{row}, live) ==
            if UnmatchedIn(InsertMissing(), live, row) then multiset{row} else multiset{}
  {
    FlatOne(row, UpdatingOn(InsertMissing(), multiset{}));
    FlatOne(row, Inserting(InsertMissing(), live));
    InsertsTheRow(row);
  }

  lemma InsertOnlyDecides(row: Row, live: multiset<Row>)
    ensures var rows := if UnmatchedIn(InsertMissing(), live, row) then multiset{row} else multiset{};
      JoinOn(InsertMissing(), [row])(live) == Some(Runs.Decision(multiset{}, rows))
  {
    var bag := multiset{row};
    assert multiset([row]) == bag;
    InsertOnlyJoins(row, live);
    InsertOnlyTakesNothing(bag, live);
    InsertOnlyPuts(row, live);
    NothingMore(InsertsIn(InsertMissing(), bag, live));
  }

  lemma NothingMore<A>(m: multiset<A>)
    ensures multiset{} + m == m
  {
  }

  /** Once the row has arrived the join inserts nothing, and the insert it carries is one too many. */
  lemma ArrivedMeanwhile(row: Row, live: multiset<Row>)
    requires UnmatchedIn(InsertMissing(), live, row) && MatchByKeys(row, row, InsertMissing().keys)
    ensures var spec, one := InsertMissing(), multiset{row};
      && JoinOn(spec, [row])(live) == Some(Runs.Decision(multiset{}, one))
      && JoinOn(spec, [row])(live + one) == Some(Runs.Decision(multiset{}, multiset{}))
      && !ComesToTheSame(spec, [row], live, live + one)
  {
    var spec, one := InsertMissing(), multiset{row};
    InsertOnlyDecides(row, live);
    InsertOnlyDecides(row, live + one);
    assert row in live + one;
    InsertOnlyTakesNothing(one, live);
    assert multiset([row]) == one;
    ComesToTheSameNet(spec, [row], live, live + one);
  }
}
