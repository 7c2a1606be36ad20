/**
 The DML executors: the row matcher, the SET applier, the scans that turn a
 manifest into delete markers and replacement rows, and the loop that redoes a
 refused statement.
 */
module Dml {
  import opened Options
  import opened Bags
  import opened Tables
  import opened Commits
  import opened Catalogs
  import opened Runs

  /** The answer of an engine expression: a value, or the panic that fails the statement. */
  datatype Eval<+T> = Value(value: T) | Panic

  /** `None` is a statement with no WHERE. */
  type Where = Option<Row -> Eval<bool>>

  function Selects(where: Where, row: Row): Eval<bool> {
    if where.None? then Value(true) else where.value(row)
  }

  predicate Increasing(s: seq<nat>) {
    forall i, j :: 0 <= i < j < |s| ==> s[i] < s[j]
  }

  /** Visible rows that match, in file order; a deleted row is never put to the predicate. */
  method MatchDMLRows(rows: seq<Row>, where: Where, deleted: set<nat>) returns (r: Eval<seq<nat>>)
    ensures r.Panic? <==> exists i :: 0 <= i < |rows| && i !in deleted && Selects(where, rows[i]).Panic?
    ensures r.Value? ==> Increasing(r.value)
    ensures r.Value? ==> forall i :: i in r.value <==>
                             0 <= i < |rows| && i !in deleted && Selects(where, rows[i]) == Value(true)
    ensures where.None? ==> r.Value? && forall i :: i in r.value <==> 0 <= i < |rows| && i !in deleted
    ensures where.Some? ==>
      if exists i :: 0 <= i < |rows| && i !in deleted && where.value(rows[i]).Panic? then r.Panic?
      else r.Value? && forall i :: i in r.value <==>
                         0 <= i < |rows| && i !in deleted && where.value(rows[i]) == Value(true)
  {
    var matched: seq<nat> := [];
    for i := 0 to |rows|
      invariant Increasing(matched)
      invariant forall k :: k in matched <==> 0 <= k < i && k !in deleted && Selects(where, rows[k]) == Value(true)
      invariant forall k :: 0 <= k < i && k !in deleted ==> Selects(where, rows[k]).Value?
    {
      if i !in deleted {
        var answer := Selects(where, rows[i]);
        if answer.Panic? {
          return Panic;
        }
        if answer.value {
          assert forall j :: 0 <= j < |matched| ==> matched[j] in matched;
          matched := matched + [i];
        }
      }
    }
    return Value(matched);
  }

  /** One resolved SET clause: a constant, or an expression over the row as stored. */
  datatype Assignment =
    | Constant(column: string, constant: Tables.Value)
    | Computed(column: string, expr: Row -> Eval<Tables.Value>)

  function Assigned(a: Assignment, row: Row): Eval<Tables.Value> {
    if a.Constant? then Value(a.constant) else a.expr(row)
  }

  ghost predicate Assigns(row: Row, assigns: seq<Assignment>) {
    forall i :: 0 <= i < |assigns| ==> Assigned(assigns[i], row).Value?
  }

  /** The row with the first `n` assignments applied, each evaluated on the row as stored. */
  ghost function Replaced(row: Row, assigns: seq<Assignment>, n: nat): Row
    requires n <= |assigns|
  {
    if n == 0 then row
    else
      var before := Replaced(row, assigns, n - 1);
      match Assigned(assigns[n - 1], row)
      case Value(v) => Row(before.cells[assigns[n - 1].column := v])
      case Panic => before
  }

  ghost function Replacement(row: Row, assigns: seq<Assignment>): Row {
    Replaced(row, assigns, |assigns|)
  }

  /** The last of the first `n` clauses that names the column. */
  ghost function LastNaming(assigns: seq<Assignment>, n: nat, c: string): (r: Option<nat>)
    requires n <= |assigns|
    ensures r.Some? ==> r.value < n && assigns[r.value].column == c
    ensures forall j :: 0 <= j < n && assigns[j].column == c ==> r.Some? && j <= r.value
  {
    if n == 0 then None else if assigns[n - 1].column == c then Some(n - 1) else LastNaming(assigns, n - 1, c)
  }

  /** A column no SET clause names keeps its stored value; the last clause that names one wins. */
  lemma {:induction false} ReplacementColumns(row: Row, assigns: seq<Assignment>, n: nat, c: string)
    requires n <= |assigns| && Assigns(row, assigns)
    ensures var out := Replaced(row, assigns, n).cells;
      match LastNaming(assigns, n, c)
      case Some(i) =>
        c in out && (match assigns[i] case Constant(_, v) => out[c] == v case Computed(_, e) => Value(out[c]) == e(row))
      case None => (c in out <==> c in row.cells) && (c in out ==> out[c] == row.cells[c])
  {
    if n > 0 {
      ReplacementColumns(row, assigns, n - 1, c);
    }
  }

  method BuildUpdatedRows(rows: seq<Row>, matched: seq<nat>, assigns: seq<Assignment>) returns (r: Eval<seq<Row>>)
    requires forall k :: 0 <= k < |matched| ==> matched[k] < |rows|
    ensures r.Panic? <==> exists k :: 0 <= k < |matched| && !Assigns(rows[matched[k]], assigns)
    ensures r.Panic? <==>
      exists k, i :: 0 <= k < |matched| && 0 <= i < |assigns|
                     && assigns[i].Computed? && assigns[i].expr(rows[matched[k]]).Panic?
    ensures r.Value? ==> |r.value| == |matched|
    ensures r.Value? ==> forall k :: 0 <= k < |matched| ==> r.value[k] == Replacement(rows[matched[k]], assigns)
  {
    var out: seq<Row> := [];
    for k := 0 to |matched|
      invariant |out| == k
      invariant forall j :: 0 <= j < k ==> Assigns(rows[matched[j]], assigns)
      invariant forall j :: 0 <= j < k ==> out[j] == Replacement(rows[matched[j]], assigns)
    {
      var stored := rows[matched[k]];
      var row := stored;
      for i := 0 to |assigns|
        invariant row == Replaced(stored, assigns, i)
        invariant forall j :: 0 <= j < i ==> Assigned(assigns[j], stored).Value?
      {
        var v := Assigned(assigns[i], stored);
        if v.Panic? {
          assert !Assigns(rows[matched[k]], assigns);
          return Panic;
        }
        row := Row(row.cells[assigns[i].column := v.value]);
      }
      out := out + [row];
    }
    return Value(out);
  }

  // ---- Scanning a manifest ----

  ghost predicate Hit(t: Table, where: Where, a: Addr) {
    a in LiveAddrs(t) && Selects(where, RowAt(t.store, a)) == Value(true)
  }

  /** The live rows the statement supersedes. */
  ghost function Hits(t: Table, where: Where): set<Addr> {
    set a | a in LiveAddrs(t) && Hit(t, where, a)
  }

  /** Without a WHERE every live row is superseded; with one, exactly those it is true of. */
  lemma HitsMean(t: Table, where: Where)
    ensures match where
      case None => Hits(t, where) == LiveAddrs(t)
      case Some(pred) =>
        forall a :: a in Hits(t, where) <==> a in LiveAddrs(t) && pred(RowAt(t.store, a)) == Value(true)
  {
  }

  ghost function HitsIn(t: Table, where: Where, paths: set<Path>): (r: set<Addr>)
    ensures forall a :: a in r <==> a in Hits(t, where) && a.path in paths
  {
    set a | a in Hits(t, where) && a.path in paths
  }

  ghost predicate Answers(t: Table, where: Where, paths: set<Path>) {
    forall a :: a in LiveAddrs(t) && a.path in paths ==> Selects(where, RowAt(t.store, a)).Value?
  }

  /** The markers name exactly the hits in the files scanned so far, each once. */
  ghost predicate Scanned(t: Table, where: Where, paths: set<Path>, markers: seq<Marker>, total: nat) {
    && MarkedBy(markers) == HitsIn(t, where, paths)
    && total == |MarkedBy(markers)|
    && WellFormed(markers, paths)
  }

  ghost predicate WellFormed(markers: seq<Marker>, paths: set<Path>) {
    && NoEmptyMarker(markers) && OnePerFile(markers)
    && forall i :: 0 <= i < |markers| ==> markers[i].path in paths
  }

  lemma WellFormedNext(markers: seq<Marker>, paths: set<Path>, m: Marker)
    requires WellFormed(markers, paths) && m.path !in paths && m.rows != []
    ensures WellFormed(markers + [m], paths + {m.path})
  {
  }

  lemma MarkedNext(markers: seq<Marker>, p: Path, rows: seq<nat>)
    ensures MarkedBy(markers + [Marker(p, rows)]) == MarkedBy(markers) + Positions(p, rows)
  {
    MarkedByConcat(markers, [Marker(p, rows)]);
    MarkedOne(p, rows);
  }

  ghost function Positions(p: Path, rows: seq<nat>): (r: set<Addr>)
    ensures forall a :: a in r <==> a.path == p && a.pos in rows
  {
    set i | i in rows :: Addr(p, i)
  }

  lemma {:induction false} PositionCount(p: Path, rows: seq<nat>)
    requires Increasing(rows)
    ensures |Positions(p, rows)| == |rows|
  {
    if rows == [] {
      assert Positions(p, rows) == {};
    } else {
      var init, last := rows[..|rows| - 1], rows[|rows| - 1];
      PositionCount(p, init);
      assert rows == init + [last];
      assert forall k :: 0 <= k < |init| ==> init[k] == rows[k] < last;
      assert last !in init;
      assert Positions(p, rows) == Positions(p, init) + {Addr(p, last)};
    }
  }

  lemma MarkedOne(p: Path, rows: seq<nat>)
    ensures MarkedBy([Marker(p, rows)]) == Positions(p, rows)
  {
    var ms := [Marker(p, rows)];
    forall a | a in Positions(p, rows)
      ensures a in MarkedBy(ms)
    {
      assert Marks(ms[0], a);
    }
  }

  lemma ScannedMark(t: Table, where: Where, paths: set<Path>, p: Path, markers: seq<Marker>, total: nat, rows: seq<nat>)
    requires Scanned(t, where, paths, markers, total) && p !in paths
    requires rows != [] && Increasing(rows)
    requires forall i: nat :: i in rows <==> Addr(p, i) in Hits(t, where)
    ensures Scanned(t, where, paths + {p}, markers + [Marker(p, rows)], total + |rows|)
  {
    WellFormedNext(markers, paths, Marker(p, rows));
    MarkedNext(markers, p, rows);
    PositionCount(p, rows);
    HitsNext(t, where, paths, p, rows);
    DisjointSize(HitsIn(t, where, paths), Positions(p, rows));
  }

  lemma DisjointSize<A>(x: set<A>, y: set<A>)
    requires x !! y
    ensures |x + y| == |x| + |y|
  {
  }

  lemma HitsNext(t: Table, where: Where, paths: set<Path>, p: Path, rows: seq<nat>)
    requires forall i: nat :: i in rows <==> Addr(p, i) in Hits(t, where)
    requires p !in paths
    ensures HitsIn(t, where, paths + {p}) == HitsIn(t, where, paths) + Positions(p, rows)
    ensures HitsIn(t, where, paths) !! Positions(p, rows)
  {
  }

  lemma FileHits(t: Table, where: Where, p: Path, matched: seq<nat>)
    requires p in t.files && p in t.store
    requires forall i :: i in matched <==>
      0 <= i < |t.store[p]| && Addr(p, i) !in t.deleted && Selects(where, t.store[p][i]) == Value(true)
    ensures forall i: nat :: i in matched <==> Addr(p, i) in Hits(t, where)
  {
  }

  /** The manifest's files in scan order: partition by partition. */
  function FilesOf(ps: seq<Partition>): (r: seq<Path>)
    ensures forall p :: p in r <==> p in FileSet(ps)
  {
    if ps == [] then []
    else
      var n := |ps| - 1;
      FileSetSplit(ps);
      FilesOf(ps[..n]) + ps[n].files
  }

  lemma FileSetSplit(ps: seq<Partition>)
    requires ps != []
    ensures forall p :: p in FileSet(ps) <==> p in FileSet(ps[..|ps| - 1]) || p in ps[|ps| - 1].files
  {
  }

  lemma {:induction false} FilesOfDistinct(ps: seq<Partition>)
    requires ListedOnce(ps)
    ensures Distinct(FilesOf(ps))
  {
    if ps != [] {
      var n := |ps| - 1;
      FilesOfDistinct(ps[..n]);
      forall p | p in FilesOf(ps[..n])
        ensures p !in ps[n].files
      {
        var k :| 0 <= k < n && p in ps[..n][k].files;
      }
      DistinctConcat(FilesOf(ps[..n]), ps[n].files);
    }
  }

  lemma DistinctConcat(a: seq<Path>, b: seq<Path>)
    requires Distinct(a) && Distinct(b) && forall p :: p in a ==> p !in b
    ensures Distinct(a + b)
  {
    forall i, j | 0 <= i < j < |a + b|
      ensures (a + b)[i] != (a + b)[j]
    {
      if i < |a| <= j {
        assert a[i] in a && b[j - |a|] in b;
      }
    }
  }

  ghost function Done(files: seq<Path>, n: nat): (r: set<Path>)
    requires n <= |files|
    ensures n == |files| ==> forall p :: p in r <==> p in files
  {
    set k | 0 <= k < n :: files[k]
  }

  lemma DoneNext(files: seq<Path>, n: nat)
    requires Distinct(files) && n < |files|
    ensures files[n] !in Done(files, n)
    ensures Done(files, n + 1) == Done(files, n) + {files[n]}
  {
  }

  /** One file's matched rows, in the table's terms (`scanFileForDeletes`). */
  method ScanFile(store: map<Path, seq<Row>>, gone: map<Path, set<nat>>, where: Where, p: Path, ghost t: Table)
    returns (r: Eval<seq<nat>>)
    requires p in store && p in t.files && t.store == store
    requires forall a: Addr :: a in t.deleted <==> a.path in gone && a.pos in gone[a.path]
    ensures r.Panic? <==> !Answers(t, where, {p})
    ensures r.Value? ==> Increasing(r.value) && forall i: nat :: i in r.value <==> Addr(p, i) in Hits(t, where)
  {
    r := MatchDMLRows(store[p], where, RowsOn(gone, p));
    forall i | 0 <= i < |store[p]|
      ensures Addr(p, i) in LiveAddrs(t) <==> i !in RowsOn(gone, p)
      ensures RowAt(t.store, Addr(p, i)) == store[p][i]
    {
    }
    if r.Panic? {
      var i :| 0 <= i < |store[p]| && i !in RowsOn(gone, p) && Selects(where, store[p][i]).Panic?;
      assert Addr(p, i) in LiveAddrs(t);
    } else {
      FileHits(t, where, p, r.value);
      forall a | a in LiveAddrs(t) && a.path == p
        ensures Selects(where, RowAt(t.store, a)).Value?
      {
        assert a == Addr(p, a.pos);
      }
    }
  }

  datatype DeletePlan = DeletePlan(markers: seq<Marker>, total: nat)

  /** The scan half of a DELETE: markers for exactly the live rows that match, counted once each. */
  method PlanDelete(store: map<Path, seq<Row>>, m: Manifest, where: Where) returns (r: Eval<DeletePlan>)
    requires FileSet(m.partitions) <= store.Keys && ListedOnce(m.partitions)
    ensures var t := TableOf(store, m);
      && (r.Panic? <==> !Answers(t, where, t.files))
      && (r.Value? ==> Scanned(t, where, t.files, r.value.markers, r.value.total))
  {
    ghost var t := TableOf(store, m);
    var gone := DeletedRowsByFile(m.markers);
    var files, markers := FilesOf(m.partitions), [];
    var total: nat := 0;
    FilesOfDistinct(m.partitions);
    for n := 0 to |files|
      invariant Answers(t, where, Done(files, n))
      invariant Scanned(t, where, Done(files, n), markers, total)
    {
      DoneNext(files, n);
      var matched := ScanFile(store, gone, where, files[n], t);
      if matched.Panic? {
        return Panic;
      }
      if |matched.value| > 0 {
        ScannedMark(t, where, Done(files, n), files[n], markers, total, matched.value);
        markers := markers + [Marker(files[n], matched.value)];
        total := total + |matched.value|;
      } else {
        ScannedNothing(t, where, Done(files, n), files[n], markers, total);
      }
    }
    assert Done(files, |files|) == t.files;
    return Value(DeletePlan(markers, total));
  }

  lemma ScannedNothing(t: Table, where: Where, paths: set<Path>, p: Path, markers: seq<Marker>, total: nat)
    requires Scanned(t, where, paths, markers, total)
    requires forall i: nat :: Addr(p, i) !in Hits(t, where)
    ensures Scanned(t, where, paths + {p}, markers, total)
  {
  }

  datatype UpdatePlan = UpdatePlan(markers: seq<Marker>, total: nat, rows: seq<Row>)

  ghost function Rewrite(assigns: seq<Assignment>): Row -> Row {
    (r: Row) => Replacement(r, assigns)
  }

  ghost predicate Settles(t: Table, where: Where, assigns: seq<Assignment>, paths: set<Path>) {
    forall a :: a in HitsIn(t, where, paths) ==> Assigns(RowAt(t.store, a), assigns)
  }

  /** The replacement rows built so far are the scanned hits, rewritten. */
  ghost predicate Rewrites(t: Table, where: Where, assigns: seq<Assignment>, paths: set<Path>, rows: seq<Row>) {
    multiset(rows) == Map(RowsAt(t.store, HitsIn(t, where, paths)), Rewrite(assigns))
  }

  lemma {:induction false} UpdatedRows(store: map<Path, seq<Row>>, p: Path, matched: seq<nat>, updated: seq<Row>,
                                       assigns: seq<Assignment>)
    requires p in store && Increasing(matched) && |updated| == |matched|
    requires forall k :: 0 <= k < |matched| ==> matched[k] < |store[p]|
    requires forall k :: 0 <= k < |matched| ==> updated[k] == Replacement(store[p][matched[k]], assigns)
    ensures multiset(updated) == Map(RowsAt(store, Positions(p, matched)), Rewrite(assigns))
  {
    if matched == [] {
      assert Positions(p, matched) == {};
    } else {
      var n := |matched| - 1;
      var init, last := matched[..n], Addr(p, matched[n]);
      assert updated == updated[..n] + [updated[n]];
      UpdatedRows(store, p, init, updated[..n], assigns);
      PositionsNext(p, matched);
      RowsUnion(store, Positions(p, init), {last});
      OneRow(store, last);
      MapAdd(RowsAt(store, Positions(p, init)), RowAt(store, last), Rewrite(assigns));
    }
  }

  lemma PositionsNext(p: Path, rows: seq<nat>)
    requires Increasing(rows) && rows != []
    ensures Positions(p, rows) == Positions(p, rows[..|rows| - 1]) + {Addr(p, rows[|rows| - 1])}
    ensures Addr(p, rows[|rows| - 1]) !in Positions(p, rows[..|rows| - 1])
  {
  }

  lemma RewritesNext(t: Table, where: Where, assigns: seq<Assignment>, paths: set<Path>, p: Path,
                     rows: seq<Row>, matched: seq<nat>, updated: seq<Row>)
    requires Rewrites(t, where, assigns, paths, rows) && p !in paths
    requires forall i: nat :: i in matched <==> Addr(p, i) in Hits(t, where)
    requires multiset(updated) == Map(RowsAt(t.store, Positions(p, matched)), Rewrite(assigns))
    ensures Rewrites(t, where, assigns, paths + {p}, rows + updated)
  {
    HitsNext(t, where, paths, p, matched);
    RowsUnion(t.store, HitsIn(t, where, paths), Positions(p, matched));
    MapUnion(RowsAt(t.store, HitsIn(t, where, paths)), RowsAt(t.store, Positions(p, matched)), Rewrite(assigns));
  }

  /** One file of an UPDATE's scan: what it matched and what those rows become. */
  method UpdateFile(store: map<Path, seq<Row>>, gone: map<Path, set<nat>>, where: Where, assigns: seq<Assignment>,
                    p: Path, ghost t: Table) returns (matched: Eval<seq<nat>>, updated: Eval<seq<Row>>)
    requires p in store && p in t.files && t.store == store
    requires forall a: Addr :: a in t.deleted <==> a.path in gone && a.pos in gone[a.path]
    ensures matched.Panic? <==> !Answers(t, where, {p})
    ensures matched.Value? ==> (updated.Panic? <==> !Settles(t, where, assigns, {p}))
    ensures matched.Value? ==>
      Increasing(matched.value) && forall i: nat :: i in matched.value <==> Addr(p, i) in Hits(t, where)
    ensures matched.Value? && updated.Value? ==>
      multiset(updated.value) == Map(RowsAt(t.store, Positions(p, matched.value)), Rewrite(assigns))
  {
    matched := ScanFile(store, gone, where, p, t);
    updated := Panic;
    if matched.Value? {
      SettledFile(t, where, assigns, p, matched.value);
      updated := BuildUpdatedRows(store[p], matched.value, assigns);
      if updated.Value? {
        UpdatedRows(store, p, matched.value, updated.value, assigns);
      }
    }
  }

  lemma SettledFile(t: Table, where: Where, assigns: seq<Assignment>, p: Path, matched: seq<nat>)
    requires p in t.store && p in t.files
    requires forall i: nat :: i in matched <==> Addr(p, i) in Hits(t, where)
    ensures forall k :: 0 <= k < |matched| ==> matched[k] < |t.store[p]|
    ensures Settles(t, where, assigns, {p}) <==>
            forall k :: 0 <= k < |matched| ==> Assigns(t.store[p][matched[k]], assigns)
  {
    forall k | 0 <= k < |matched|
      ensures Addr(p, matched[k]) in HitsIn(t, where, {p})
      ensures matched[k] < |t.store[p]| && RowAt(t.store, Addr(p, matched[k])) == t.store[p][matched[k]]
    {
      assert matched[k] in matched;
    }
    forall a | a in HitsIn(t, where, {p})
      ensures exists k :: 0 <= k < |matched| && a == Addr(p, matched[k])
    {
      assert a == Addr(p, a.pos);
      var k :| 0 <= k < |matched| && matched[k] == a.pos;
    }
  }

  /** Everything an UPDATE's scan has established about the files in `paths`. */
  ghost predicate UpdateScanned(t: Table, where: Where, assigns: seq<Assignment>, paths: set<Path>,
                                markers: seq<Marker>, total: nat, rows: seq<Row>) {
    && Answers(t, where, paths) && Settles(t, where, assigns, paths)
    && Scanned(t, where, paths, markers, total)
    && Rewrites(t, where, assigns, paths, rows)
  }

  lemma UpdateScannedNext(t: Table, where: Where, assigns: seq<Assignment>, paths: set<Path>,
                          markers: seq<Marker>, total: nat, rows: seq<Row>,
                          p: Path, matched: seq<nat>, updated: seq<Row>)
    requires UpdateScanned(t, where, assigns, paths, markers, total, rows) && p !in paths
    requires Answers(t, where, {p}) && Settles(t, where, assigns, {p}) && Increasing(matched)
    requires forall i: nat :: i in matched <==> Addr(p, i) in Hits(t, where)
    requires multiset(updated) == Map(RowsAt(t.store, Positions(p, matched)), Rewrite(assigns))
    ensures UpdateScanned(t, where, assigns, paths + {p},
                          if matched == [] then markers else markers + [Marker(p, matched)],
                          total + |matched|, rows + updated)
  {
    RewritesNext(t, where, assigns, paths, p, rows, matched, updated);
    if matched == [] {
      ScannedNothing(t, where, paths, p, markers, total);
    } else {
      ScannedMark(t, where, paths, p, markers, total, matched);
    }
  }

  method UpdateFiles(store: map<Path, seq<Row>>, gone: map<Path, set<nat>>, files: seq<Path>, where: Where,
                     assigns: seq<Assignment>, ghost t: Table) returns (r: Eval<UpdatePlan>)
    requires t.store == store && Distinct(files) && t.files <= store.Keys
    requires forall p :: p in files <==> p in t.files
    requires forall a: Addr :: a in t.deleted <==> a.path in gone && a.pos in gone[a.path]
    ensures r.Panic? ==> !Answers(t, where, t.files) || !Settles(t, where, assigns, t.files)
    ensures r.Value? ==> UpdateScanned(t, where, assigns, t.files, r.value.markers, r.value.total, r.value.rows)
  {
    var markers, rows := [], [];
    var total: nat := 0;
    NothingScanned(t, where, assigns);
    assert Done(files, 0) == {};
    for n := 0 to |files|
      invariant UpdateScanned(t, where, assigns, Done(files, n), markers, total, rows)
    {
      DoneNext(files, n);
      var matched, updated := UpdateFile(store, gone, where, assigns, files[n], t);
      if matched.Panic? || updated.Panic? {
        FailureSpreads(t, where, assigns, files[n]);
        return Panic;
      }
      UpdateScannedNext(t, where, assigns, Done(files, n), markers, total, rows, files[n], matched.value,
                        updated.value);
      if |matched.value| > 0 {
        markers := markers + [Marker(files[n], matched.value)];
        total := total + |matched.value|;
      }
      rows := rows + updated.value;
    }
    assert Done(files, |files|) == t.files;
    return Value(UpdatePlan(markers, total, rows));
  }

  lemma NothingScanned(t: Table, where: Where, assigns: seq<Assignment>)
    ensures UpdateScanned(t, where, assigns, {}, [], 0, [])
  {
    assert HitsIn(t, where, {}) == {};
  }

  lemma FailureSpreads(t: Table, where: Where, assigns: seq<Assignment>, p: Path)
    requires p in t.files
    ensures Answers(t, where, t.files) ==> Answers(t, where, {p})
    ensures Settles(t, where, assigns, t.files) ==> Settles(t, where, assigns, {p})
  {
  }

  /** The scan half of an UPDATE: a DELETE's markers, and each marked row's replacement. */
  method PlanUpdate(store: map<Path, seq<Row>>, m: Manifest, where: Where, assigns: seq<Assignment>)
    returns (r: Eval<UpdatePlan>)
    requires FileSet(m.partitions) <= store.Keys && ListedOnce(m.partitions)
    ensures var t := TableOf(store, m);
      && (r.Panic? <==> !Answers(t, where, t.files) || !Settles(t, where, assigns, t.files))
      && (r.Value? ==> Scanned(t, where, t.files, r.value.markers, r.value.total)
                       && Rewrites(t, where, assigns, t.files, r.value.rows))
  {
    var gone := DeletedRowsByFile(m.markers);
    FilesOfDistinct(m.partitions);
    r := UpdateFiles(store, gone, FilesOf(m.partitions), where, assigns, TableOf(store, m));
  }

  // ---- One attempt, and the redo loop ----

  datatype Statement =
    | DeleteWhere(where: Where)
    | UpdateWhere(where: Where, assigns: seq<Assignment>)

  /** What a statement that can be answered is to the protocol. */
  ghost function StmtOf(s: Statement): Stmt {
    var pred := (r: Row) => Selects(s.where, r) == Value(true);
    if s.DeleteWhere? then Delete(pred) else Update(pred, Rewrite(s.assigns))
  }

  /** Every live row has an answer, and every row to be replaced has a replacement. */
  ghost predicate Answerable(t: Table, s: Statement) {
    Answers(t, s.where, t.files) && (s.UpdateWhere? ==> Settles(t, s.where, s.assigns, t.files))
  }

  ghost function RowsOf(t: Table, s: Statement): multiset<Row> {
    if s.DeleteWhere? then multiset{} else Map(RowsAt(t.store, Hits(t, s.where)), Rewrite(s.assigns))
  }

  /** The scans decide exactly what the protocol lets an attempt decide. */
  lemma ScanIsPlan(t: Table, s: Statement)
    ensures Plans(StmtOf(s), t, Hits(t, s.where), RowsOf(t, s))
  {
    assert Hits(t, s.where) == Matching(t, StmtOf(s).pred);
  }

  /**
   Where the other writers have brought the catalog by the time an attempt commits,
   and the files the ingester writes for a statement's new rows.
   */
  datatype Moment = Moment(store: map<Path, seq<Row>>, manifest: Manifest, ingest: seq<Row> -> seq<PendingFile>)

  ghost predicate Sound(store: map<Path, seq<Row>>, m: Manifest) {
    FileSet(m.partitions) <= store.Keys && ListedOnce(m.partitions)
  }

  /** The ingester writes exactly the rows it is given, under paths never used before. */
  ghost predicate Ingests(now: Moment) {
    forall rows :: Minted(now.store, now.ingest(rows)) && BagOf(Objects(now.ingest(rows))) == multiset(rows)
  }

  ghost predicate Ready(now: Moment) {
    Sound(now.store, now.manifest) && Ingests(now)
  }

  ghost function At(now: Moment): Table {
    TableOf(now.store, now.manifest)
  }

  datatype Once = Affected(count: nat) | Redo | Panicked

  /** `t'` is `now` with `marks` superseded and new files holding `rows` published. */
  ghost predicate Published(now: Table, marks: set<Addr>, rows: multiset<Row>, t': Table) {
    && CanCommit(now, marks)
    && exists objs: map<Path, seq<Row>> :: Fresh(now, objs) && BagOf(objs) == rows && t' == Publish(now, objs, marks)
  }

  /** `t'` is `now` with the statement's rows replaced, as planned on the table `t` it read. */
  ghost predicate Applied(t: Table, s: Statement, now: Table, t': Table) {
    Published(now, Hits(t, s.where), RowsOf(t, s), t')
  }

  lemma HitsInAll(t: Table, where: Where)
    ensures HitsIn(t, where, t.files) == Hits(t, where)
  {
  }

  method Plan(store: map<Path, seq<Row>>, m: Manifest, s: Statement) returns (r: Eval<UpdatePlan>)
    requires Sound(store, m)
    ensures r.Value? <==> Answerable(TableOf(store, m), s)
    ensures r.Value? ==> var t := TableOf(store, m);
      && MarkedBy(r.value.markers) == Hits(t, s.where) && r.value.total == |Hits(t, s.where)|
      && NoEmptyMarker(r.value.markers) && multiset(r.value.rows) == RowsOf(t, s)
  {
    ghost var t := TableOf(store, m);
    HitsInAll(t, s.where);
    match s
    case DeleteWhere(where) =>
      var d := PlanDelete(store, m, where);
      r := if d.Panic? then Panic else Value(UpdatePlan(d.value.markers, d.value.total, []));
    case UpdateWhere(where, assigns) =>
      r := PlanUpdate(store, m, where, assigns);
  }

  lemma MintedIsFresh(t: Table, files: seq<PendingFile>)
    requires Minted(t.store, files)
    ensures Fresh(t, Objects(files))
  {
  }

  lemma NoFiles()
    ensures Objects([]) == map[] && BagOf(map[]) == multiset{}
  {
    var none: map<Path, seq<Row>> := map[];
    assert Slots(none, none.Keys) == {};
  }

  method CommitPlan(cat: Catalog, now: Moment, markers: seq<Marker>, rows: seq<Row>) returns (ok: bool)
    requires Ready(now) && NoEmptyMarker(markers)
    modifies cat
    ensures ok <==> CanCommit(At(now), MarkedBy(markers))
    ensures !ok ==> cat.store == now.store && cat.manifest == now.manifest
    ensures ok ==> Published(At(now), MarkedBy(markers), multiset(rows), cat.Now())
  {
    cat.store, cat.manifest := now.store, now.manifest;
    var pending := if rows == [] then [] else now.ingest(rows);
    NoFiles();
    FitIsCanCommit(At(now), markers);
    MintedIsFresh(At(now), pending);
    var c := cat.CommitDML(pending, markers);
    ok := c.Committed?;
    assert BagOf(Objects(pending)) == multiset(rows);
  }

  /** One attempt: read and match, let the other writers run, then commit or be refused. */
  method RunOnce(cat: Catalog, s: Statement, now: Moment, ghost t: Table) returns (r: Once)
    requires Sound(cat.store, cat.manifest) && Ready(now) && cat.Now() == t
    modifies cat
    ensures r.Panicked? <==> !Answerable(t, s)
    ensures r.Panicked? ==> cat.Now() == t
    ensures r.Redo? ==> cat.store == now.store && cat.manifest == now.manifest && !CanCommit(At(now), Hits(t, s.where))
    ensures r.Affected? ==> Applied(t, s, At(now), cat.Now()) && r.count == |Hits(t, s.where)|
  {
    var plan := Plan(cat.store, cat.manifest, s);
    if plan.Panic? {
      return Panicked;
    }
    var ok := CommitPlan(cat, now, plan.value.markers, plan.value.rows);
    return if ok then Affected(plan.value.total) else Redo;
  }

  datatype Outcome = Finished(count: nat) | GaveUp | Broken

  /** One round of the redo loop: the catalog an attempt reads, and the one it tries to commit to. */
  datatype Round = Round(store: map<Path, seq<Row>>, manifest: Manifest, now: Moment)

  ghost predicate SoundRound(r: Round) {
    Sound(r.store, r.manifest) && Ready(r.now)
  }

  ghost function Seen(r: Round): Table {
    TableOf(r.store, r.manifest)
  }

  ghost predicate RefusedIn(s: Statement, r: Round) {
    Answerable(Seen(r), s) && !CanCommit(At(r.now), Hits(Seen(r), s.where))
  }

  /** What a round of the loop leaves behind. */
  ghost predicate RoundLeaves(s: Statement, r: Round, once: Once, t': Table) {
    match once
    case Affected(count) =>
      Answerable(Seen(r), s) && Applied(Seen(r), s, At(r.now), t') && count == |Hits(Seen(r), s.where)|
    case Redo => RefusedIn(s, r) && t' == At(r.now)
    case Panicked => !Answerable(Seen(r), s) && t' == Seen(r)
  }

  ghost predicate RefusedBefore(s: Statement, env: seq<Round>, n: nat) {
    n <= |env| && forall k :: 0 <= k < n ==> RefusedIn(s, env[k])
  }

  lemma RefusedAgain(s: Statement, env: seq<Round>, n: nat)
    requires RefusedBefore(s, env, n) && n < |env| && RefusedIn(s, env[n])
    ensures RefusedBefore(s, env, n + 1)
  {
  }

  method RunRound(cat: Catalog, s: Statement, r: Round) returns (once: Once)
    requires SoundRound(r)
    modifies cat
    ensures RoundLeaves(s, r, once, cat.Now())
  {
    cat.store, cat.manifest := r.store, r.manifest;
    once := RunOnce(cat, s, r.now, Seen(r));
  }

  /**
   Redoes a refused statement whole, five times at most, whatever the other writers
   do before each read and before each commit. The statement takes effect once, at
   the first attempt that is not refused; when every attempt is refused the table is
   exactly what the other writers made it.
   */
  method RetryConflicted(cat: Catalog, s: Statement, env: seq<Round>) returns (r: Outcome, attempts: nat)
    requires |env| == DML_COMMIT_ATTEMPTS && forall k :: 0 <= k < |env| ==> SoundRound(env[k])
    modifies cat
    ensures 1 <= attempts <= DML_COMMIT_ATTEMPTS && RefusedBefore(s, env, attempts - 1)
    ensures RoundLeaves(s, env[attempts - 1], Last(r), cat.Now())
    ensures r.GaveUp? ==> attempts == DML_COMMIT_ATTEMPTS
    ensures attempts <= 5 && (r.GaveUp? ==> attempts == 5)
  {
    var refusals := 0;
    var once := RunRound(cat, s, env[0]);
    while once.Redo? && refusals + 1 < DML_COMMIT_ATTEMPTS
      invariant refusals < DML_COMMIT_ATTEMPTS && RefusedBefore(s, env, refusals)
      invariant RoundLeaves(s, env[refusals], once, cat.Now())
      decreases DML_COMMIT_ATTEMPTS - refusals
    {
      RefusedAgain(s, env, refusals);
      refusals := refusals + 1;
      once := RunRound(cat, s, env[refusals]);
    }
    LastOutcome(once);
    return OutcomeOf(once), refusals + 1;
  }

  lemma LastOutcome(once: Once)
    ensures Last(OutcomeOf(once)) == once
  {
  }

  function OutcomeOf(once: Once): Outcome {
    match once
    case Affected(count) => Finished(count)
    case Redo => GaveUp
    case Panicked => Broken
  }

  /** How the last round of a loop that ends in `r` went. */
  ghost function Last(r: Outcome): Once {
    match r
    case Finished(count) => Affected(count)
    case GaveUp => Redo
    case Broken => Panicked
  }
}
