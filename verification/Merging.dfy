/**
 A MERGE attempt against the catalog: read the live target rows with their
 addresses, join, group the affected addresses into markers, and commit markers
 and new rows together.
 */
module Merging {
  import opened Tables
  import opened Commits
  import opened Catalogs
  import opened Dml
  import opened Merge
  import Runs

  ghost function AddrsOf(rows: seq<TargetRow>): (r: set<Addr>)
    ensures forall a :: a in r <==> exists k :: 0 <= k < |rows| && rows[k].addr == a
  {
    set k | 0 <= k < |rows| :: rows[k].addr
  }

  /** The rows at `addrs`, each once and each with the row its address holds. */
  ghost predicate Reads(store: map<Path, seq<Row>>, addrs: set<Addr>, rows: seq<TargetRow>) {
    && AddrsOf(rows) == addrs
    && (forall j, k :: 0 <= j < k < |rows| ==> rows[j].addr != rows[k].addr)
    && (forall k :: 0 <= k < |rows| ==> rows[k].row == RowAt(store, rows[k].addr))
  }

  lemma ReadsNext(store: map<Path, seq<Row>>, addrs: set<Addr>, rows: seq<TargetRow>, a: Addr)
    requires Reads(store, addrs, rows) && a !in addrs
    ensures Reads(store, addrs + {a}, rows + [TargetRow(RowAt(store, a), a)])
  {
    var next := rows + [TargetRow(RowAt(store, a), a)];
    forall b | b in addrs + {a}
      ensures b in AddrsOf(next)
    {
      if b == a {
        assert next[|rows|].addr == b;
      } else {
        var k :| 0 <= k < |rows| && rows[k].addr == b;
        assert next[k].addr == b;
      }
    }
  }

  /** The live addresses in the files `paths`, and in the first `n` rows of `p`. */
  ghost function LiveUpTo(t: Table, paths: set<Path>, p: Path, n: nat): (r: set<Addr>)
    ensures forall a :: a in r <==> a in LiveAddrs(t) && (a.path in paths || (a.path == p && a.pos < n))
  {
    set a | a in LiveAddrs(t) && (a.path in paths || (a.path == p && a.pos < n))
  }

  lemma LiveUpToNext(t: Table, paths: set<Path>, p: Path, n: nat)
    requires p !in paths && p in t.files && p in t.store && n < |t.store[p]|
    ensures Addr(p, n) !in LiveUpTo(t, paths, p, n)
    ensures LiveUpTo(t, paths, p, n + 1) ==
            LiveUpTo(t, paths, p, n) + (if Addr(p, n) in t.deleted then {} else {Addr(p, n)})
  {
  }

  method ReadFile(store: map<Path, seq<Row>>, gone: set<nat>, p: Path, before: seq<TargetRow>,
                  ghost t: Table, ghost paths: set<Path>) returns (out: seq<TargetRow>)
    requires p in store && p in t.files && t.store == store && p !in paths
    requires forall i: nat :: Addr(p, i) in t.deleted <==> i in gone
    requires Reads(store, LiveUpTo(t, paths, p, 0), before)
    ensures Reads(store, LiveUpTo(t, paths, p, |store[p]|), out)
  {
    out := before;
    for i := 0 to |store[p]|
      invariant Reads(store, LiveUpTo(t, paths, p, i), out)
    {
      LiveUpToNext(t, paths, p, i);
      if i !in gone {
        ReadsNext(store, LiveUpTo(t, paths, p, i), out, Addr(p, i));
        out := out + [TargetRow(store[p][i], Addr(p, i))];
      } else {
        assert LiveUpTo(t, paths, p, i + 1) == LiveUpTo(t, paths, p, i);
      }
    }
  }

  /** A table's live rows in manifest order, each once and carrying where it is. */
  method ReadMergeTarget(store: map<Path, seq<Row>>, m: Manifest) returns (out: seq<TargetRow>)
    requires Sound(store, m)
    ensures Reads(store, LiveAddrs(TableOf(store, m)), out)
  {
    ghost var t := TableOf(store, m);
    var gone := DeletedRowsByFile(m.markers);
    var files := FilesOf(m.partitions);
    FilesOfDistinct(m.partitions);
    out := ReadFiles(store, gone, files, t);
  }

  method ReadFiles(store: map<Path, seq<Row>>, gone: map<Path, set<nat>>, files: seq<Path>, ghost t: Table)
    returns (out: seq<TargetRow>)
    requires t.store == store && Distinct(files) && t.files <= store.Keys
    requires forall p :: p in files <==> p in t.files
    requires forall a: Addr :: a in t.deleted <==> a.path in gone && a.pos in gone[a.path]
    ensures Reads(store, LiveAddrs(t), out)
  {
    out := [];
    for n := 0 to |files|
      invariant Reads(store, LiveUpTo(t, Done(files, n), "", 0), out)
    {
      DoneNext(files, n);
      var p := files[n];
      assert LiveUpTo(t, Done(files, n), p, 0) == LiveUpTo(t, Done(files, n), "", 0);
      out := ReadFile(store, RowsOn(gone, p), p, out, t, Done(files, n));
      assert LiveUpTo(t, Done(files, n + 1), "", 0) == LiveUpTo(t, Done(files, n), p, |store[p]|);
    }
    assert LiveUpTo(t, Done(files, |files|), "", 0) == LiveAddrs(t);
  }

  // ---- The affected rows as markers ----

  ghost function AddrsIn(rows: seq<TargetRow>, hit: set<nat>): (r: set<Addr>)
    ensures forall a :: a in r <==> exists i :: i in hit && i < |rows| && rows[i].addr == a
  {
    set i | i in hit && i < |rows| :: rows[i].addr
  }

  ghost predicate NoRepeat(s: seq<nat>) {
    forall j, k :: 0 <= j < k < |s| ==> s[j] != s[k]
  }

  /** The lists hold exactly `addrs`, none empty and no position twice. */
  ghost predicate Grouped(byFile: map<Path, seq<nat>>, addrs: set<Addr>) {
    && (forall a: Addr :: a in addrs <==> a.path in byFile && a.pos in byFile[a.path])
    && (forall p :: p in byFile ==> byFile[p] != [] && NoRepeat(byFile[p]))
  }

  lemma GroupedNext(byFile: map<Path, seq<nat>>, addrs: set<Addr>, a: Addr)
    requires Grouped(byFile, addrs) && a !in addrs
    ensures var was := if a.path in byFile then byFile[a.path] else [];
      Grouped(byFile[a.path := was + [a.pos]], addrs + {a})
  {
  }

  lemma AddrsInNext(rows: seq<TargetRow>, hit: set<nat>, i: nat)
    requires i < |rows|
    ensures AddrsIn(rows, hit + {i}) == AddrsIn(rows, hit) + {rows[i].addr}
  {
  }

  ghost predicate Apart(rows: seq<TargetRow>) {
    forall j, k :: 0 <= j < k < |rows| ==> rows[j].addr != rows[k].addr
  }

  /** The positions of the affected rows, file by file; the walk over the set has no fixed order. */
  method GroupByFile(rows: seq<TargetRow>, hit: set<nat>) returns (byFile: map<Path, seq<nat>>, order: seq<Path>)
    requires Apart(rows) && forall i :: i in hit ==> i < |rows|
    ensures Grouped(byFile, AddrsIn(rows, hit))
    ensures Distinct(order) && forall p :: p in order <==> p in byFile
  {
    byFile, order := map[], [];
    var left := hit;
    while left != {}
      invariant left <= hit && Grouped(byFile, AddrsIn(rows, hit - left))
      invariant Distinct(order) && forall p :: p in order <==> p in byFile
    {
      var i :| i in left;
      var a := rows[i].addr;
      assert hit - (left - {i}) == (hit - left) + {i};
      AddrsInNext(rows, hit - left, i);
      GroupedNext(byFile, AddrsIn(rows, hit - left), a);
      if a.path !in byFile {
        order := order + [a.path];
      }
      byFile := byFile[a.path := (if a.path in byFile then byFile[a.path] else []) + [a.pos]];
      left := left - {i};
    }
    assert hit - left == hit;
  }

  /** One marker per file, naming exactly the affected addresses and none of them twice. */
  method GroupMarkers(rows: seq<TargetRow>, hit: set<nat>) returns (markers: seq<Marker>)
    requires Apart(rows) && forall i :: i in hit ==> i < |rows|
    ensures MarkedBy(markers) == AddrsIn(rows, hit)
    ensures NoEmptyMarker(markers) && OnePerFile(markers)
    ensures forall k :: 0 <= k < |markers| ==> NoRepeat(markers[k].rows)
  {
    var byFile, order := GroupByFile(rows, hit);
    markers := [];
    for n := 0 to |order|
      invariant |markers| == n
      invariant forall k :: 0 <= k < n ==> markers[k] == Marker(order[k], byFile[order[k]])
    {
      assert order[n] in order;
      markers := markers + [Marker(order[n], byFile[order[n]])];
    }
    GroupedMarks(byFile, order, markers, AddrsIn(rows, hit));
  }

  lemma GroupedMarks(byFile: map<Path, seq<nat>>, order: seq<Path>, markers: seq<Marker>, addrs: set<Addr>)
    requires Grouped(byFile, addrs) && |markers| == |order|
    requires forall p :: p in order <==> p in byFile
    requires forall k :: 0 <= k < |order| ==> order[k] in byFile && markers[k] == Marker(order[k], byFile[order[k]])
    ensures MarkedBy(markers) == addrs
    ensures forall k :: 0 <= k < |markers| ==> markers[k].rows != [] && NoRepeat(markers[k].rows)
  {
  }

  // ---- One attempt ----

  datatype MergeResult = Merged(count: nat) | Refused | TwiceAffected | Broken

  /** The rows a plan writes, replacements first. */
  function NewRows(p: Merge.Plan): seq<Row> {
    p.updates + p.inserts
  }

  ghost predicate PlanFits(p: Merge.Plan, tgts: seq<TargetRow>) {
    forall i :: i in p.hit ==> i < |tgts|
  }

  lemma {:induction false} TargetsFit(spec: Spec, src: Row, tgts: seq<TargetRow>, n: nat, p: Merge.Plan)
    requires n <= |tgts| && PlanFits(p, tgts)
    ensures var r := OnTargets(spec, src, tgts, n, p); r.Planned? ==> PlanFits(r.plan, tgts)
  {
    if n > 0 {
      TargetsFit(spec, src, tgts, n - 1, p);
    }
  }

  lemma {:induction false} SourcesFit(spec: Spec, srcs: seq<Row>, tgts: seq<TargetRow>)
    ensures var r := OnSources(spec, srcs, tgts); r.Planned? ==> PlanFits(r.plan, tgts)
    decreases |srcs|
  {
    if srcs != [] {
      SourcesFit(spec, srcs[..|srcs| - 1], tgts);
      var q := OnSources(spec, srcs[..|srcs| - 1], tgts);
      if q.Planned? {
        TargetsFit(spec, srcs[|srcs| - 1], tgts, |tgts|, q.plan);
      }
    }
  }

  /**
   One MERGE attempt. Nothing is written unless the join ends in a plan, and then
   the affected rows go and the new rows come in one commit, or neither happens.
   */
  method MergeOnce(cat: Catalog, spec: Spec, srcs: seq<Row>, now: Moment)
    returns (r: MergeResult, ghost tgts: seq<TargetRow>, ghost out: Merge.Outcome)
    requires Sound(cat.store, cat.manifest) && Ready(now)
    modifies cat
    ensures Reads(old(cat.store), LiveAddrs(old(cat.Now())), tgts) && out == OnSources(spec, srcs, tgts)
    ensures r.TwiceAffected? <==> out.Cardinality?
    ensures r.Broken? <==> out.Failed?
    ensures !out.Planned? ==> cat.Now() == old(cat.Now())
    ensures r.Refused? ==> cat.store == now.store && cat.manifest == now.manifest
    ensures r.Refused? ==> out.Planned? && !CanCommit(At(now), AddrsIn(tgts, out.plan.hit))
    ensures r.Merged? ==> out.Planned? && r.count == out.plan.affected
    ensures r.Merged? ==>
      Published(At(now), AddrsIn(tgts, out.plan.hit), multiset(NewRows(out.plan)), cat.Now())
  {
    var rows := ReadMergeTarget(cat.store, cat.manifest);
    var joined := JoinRows(spec, srcs, rows);
    tgts, out := rows, joined;
    if joined.Cardinality? {
      return TwiceAffected, tgts, out;
    }
    if joined.Failed? {
      return MergeResult.Broken, tgts, out;
    }
    SourcesFit(spec, srcs, rows);
    var markers := GroupMarkers(rows, joined.plan.hit);
    var ok := CommitPlan(cat, now, markers, NewRows(joined.plan));
    return if ok then MergeResult.Merged(joined.plan.affected) else MergeResult.Refused, tgts, out;
  }

  // ---- The redo loop ----

  /** One round: what an attempt reads of target and source, and what it tries to commit to. */
  datatype MergeRound = MergeRound(round: Round, srcs: seq<Row>)

  /** What an attempt over the target rows `tgts` leaves behind. */
  ghost predicate RoundMerges(spec: Spec, r: MergeRound, tgts: seq<TargetRow>, once: MergeResult, left: Table) {
    var seen, now, out := Seen(r.round), At(r.round.now), OnSources(spec, r.srcs, tgts);
    && Reads(seen.store, LiveAddrs(seen), tgts)
    && match once
       case Merged(count) =>
         && out.Planned? && count == out.plan.affected
         && Published(now, AddrsIn(tgts, out.plan.hit), multiset(NewRows(out.plan)), left)
       case Refused => out.Planned? && !CanCommit(now, AddrsIn(tgts, out.plan.hit)) && left == now
       case TwiceAffected => out.Cardinality? && left == seen
       case Broken => out.Failed? && left == seen
  }

  ghost predicate MergeLeaves(spec: Spec, r: MergeRound, once: MergeResult, left: Table) {
    exists tgts :: RoundMerges(spec, r, tgts, once, left)
  }

  ghost predicate MergeRefusedBefore(spec: Spec, env: seq<MergeRound>, n: nat) {
    n <= |env| && forall k :: 0 <= k < n ==> MergeLeaves(spec, env[k], MergeResult.Refused, At(env[k].round.now))
  }

  lemma MergeRefusedAgain(spec: Spec, env: seq<MergeRound>, n: nat, left: Table)
    requires MergeRefusedBefore(spec, env, n) && n < |env| && MergeLeaves(spec, env[n], MergeResult.Refused, left)
    ensures MergeRefusedBefore(spec, env, n + 1)
  {
    var tgts :| RoundMerges(spec, env[n], tgts, MergeResult.Refused, left);
    assert left == At(env[n].round.now);
  }

  method MergeRoundOnce(cat: Catalog, spec: Spec, r: MergeRound) returns (once: MergeResult)
    requires SoundRound(r.round)
    modifies cat
    ensures MergeLeaves(spec, r, once, cat.Now())
  {
    cat.store, cat.manifest := r.round.store, r.round.manifest;
    ghost var tgts, out;
    once, tgts, out := MergeOnce(cat, spec, r.srcs, r.round.now);
    assert RoundMerges(spec, r, tgts, once, cat.Now());
  }

  /** A MERGE is redone whole like any other statement, its source read again each time. */
  method RetryMerge(cat: Catalog, spec: Spec, env: seq<MergeRound>) returns (once: MergeResult, attempts: nat)
    requires |env| == Runs.DML_COMMIT_ATTEMPTS && forall k :: 0 <= k < |env| ==> SoundRound(env[k].round)
    modifies cat
    ensures 1 <= attempts <= Runs.DML_COMMIT_ATTEMPTS && MergeRefusedBefore(spec, env, attempts - 1)
    ensures MergeLeaves(spec, env[attempts - 1], once, cat.Now())
    ensures once.Refused? ==> attempts == Runs.DML_COMMIT_ATTEMPTS
    ensures attempts <= 5 && (once.Refused? ==> attempts == 5)
  {
    attempts := 1;
    once := MergeRoundOnce(cat, spec, env[0]);
    while once.Refused? && attempts < Runs.DML_COMMIT_ATTEMPTS
      invariant 1 <= attempts <= Runs.DML_COMMIT_ATTEMPTS && MergeRefusedBefore(spec, env, attempts - 1)
      invariant MergeLeaves(spec, env[attempts - 1], once, cat.Now())
      decreases Runs.DML_COMMIT_ATTEMPTS - attempts
    {
      MergeRefusedAgain(spec, env, attempts - 1, cat.Now());
      once := MergeRoundOnce(cat, spec, env[attempts]);
      attempts := attempts + 1;
    }
  }

  // ---- What a committed MERGE leaves ----

  /** The rows of the targets that `hit` names. */
  ghost function HitRows(tgts: seq<TargetRow>, hit: set<nat>): multiset<Row> {
    if tgts == [] then multiset{}
    else
      var n := |tgts| - 1;
      HitRows(tgts[..n], hit) + (if n in hit then multiset{tgts[n].row} else multiset{})
  }

  ghost predicate Holds(store: map<Path, seq<Row>>, tgts: seq<TargetRow>) {
    Apart(tgts) && forall k :: 0 <= k < |tgts| ==> tgts[k].row == RowAt(store, tgts[k].addr)
  }

  lemma AddrsInLast(tgts: seq<TargetRow>, hit: set<nat>)
    requires tgts != [] && Apart(tgts)
    ensures var n := |tgts| - 1;
      && AddrsIn(tgts, hit) == AddrsIn(tgts[..n], hit) + (if n in hit then {tgts[n].addr} else {})
      && tgts[n].addr !in AddrsIn(tgts[..n], hit)
  {
  }

  lemma {:induction false} MarkedRows(store: map<Path, seq<Row>>, tgts: seq<TargetRow>, hit: set<nat>)
    requires Holds(store, tgts)
    ensures RowsAt(store, AddrsIn(tgts, hit)) == HitRows(tgts, hit)
  {
    if tgts == [] {
      assert AddrsIn(tgts, hit) == {};
    } else {
      var n := |tgts| - 1;
      MarkedRows(store, tgts[..n], hit);
      AddrsInLast(tgts, hit);
      if n in hit {
        RowsUnion(store, AddrsIn(tgts[..n], hit), {tgts[n].addr});
        OneRow(store, tgts[n].addr);
      }
    }
  }

  lemma PublishedContents(now: Table, marks: set<Addr>, rows: multiset<Row>, t': Table)
    requires Valid(now) && InRange(now.store, marks) && Published(now, marks, rows, t')
    ensures Valid(t') && Live(t') + RowsAt(now.store, marks) == Live(now) + rows
  {
    var objs: map<Path, seq<Row>> :| Runs.Fresh(now, objs) && BagOf(objs) == rows && t' == Publish(now, objs, marks);
    CommitConserves(now, objs, marks);
  }

  lemma ReadInRange(t: Table, now: Table, tgts: seq<TargetRow>, hit: set<nat>)
    requires Valid(t) && Grows(t.store, now.store) && Reads(t.store, LiveAddrs(t), tgts)
    ensures AddrsIn(tgts, hit) <= LiveAddrs(t) && InRange(now.store, AddrsIn(tgts, hit))
  {
  }

  /**
   A MERGE that commits, as one attempt does it: the rows some source row affects
   leave, their replacements and the inserted rows come, every other row stays, and
   the count is the number of affected rows plus the number of inserts.
   */
  lemma MergeContents(spec: Spec, srcs: seq<Row>, t: Table, tgts: seq<TargetRow>, now: Table, t': Table)
    requires Valid(t) && Valid(now) && Grows(t.store, now.store) && Reads(t.store, LiveAddrs(t), tgts)
    requires OnSources(spec, srcs, tgts).Planned?
    requires var p := OnSources(spec, srcs, tgts).plan;
      Published(now, AddrsIn(tgts, p.hit), multiset(NewRows(p)), t')
    ensures var bag, p := multiset(srcs), OnSources(spec, srcs, tgts).plan;
      && p.hit == Merge.Affected(spec, tgts, bag)
      && p.affected == |p.hit| + |Inserts(spec, tgts, bag)|
      && Live(t') + HitRows(tgts, p.hit) ==
         Live(now) + (Updates(spec, tgts, bag) + Inserts(spec, tgts, bag))
  {
    var p := OnSources(spec, srcs, tgts).plan;
    PlannedIsSettled(spec, srcs, tgts);
    SourcesMean(spec, srcs, tgts);
    SourcesFit(spec, srcs, tgts);
    ReadInRange(t, now, tgts, p.hit);
    RowsStable(t.store, now.store, AddrsIn(tgts, p.hit));
    MarkedRows(t.store, tgts, p.hit);
    PublishedContents(now, AddrsIn(tgts, p.hit), multiset(NewRows(p)), t');
  }

  /** No target row is affected by two source rows of a MERGE that was not refused. */
  lemma AffectedOnce(spec: Spec, srcs: seq<Row>, tgts: seq<TargetRow>, i: nat, j: nat, k: nat)
    requires OnSources(spec, srcs, tgts).Planned?
    requires i < |srcs| && j < |srcs| && k < |tgts|
    requires Affects(spec, srcs[i], tgts[k].row) && Affects(spec, srcs[j], tgts[k].row)
    ensures i == j
  {
    PlannedIsSettled(spec, srcs, tgts);
    SourcesMean(spec, srcs, tgts);
    if i < j {
      assert Clash(spec, tgts, srcs[i], srcs[j]);
    } else if j < i {
      assert Clash(spec, tgts, srcs[j], srcs[i]);
    }
  }
}
