/**
 The catalog's manifest record and its conditional transactions, in the form the
 catalog runs them: partitions and markers are lists, and each commit validates a
 decoded manifest, edits the copy and writes it back in one CAS.
 */
module Catalogs {
  import opened Options
  import opened Tables
  import opened Commits

  datatype Partition = Partition(path: string, files: seq<Path>)

  datatype Marker = Marker(path: Path, rows: seq<nat>)

  datatype Manifest = Manifest(partitions: seq<Partition>, markers: seq<Marker>)

  /** A data file written to the object store and not yet in the manifest. */
  datatype PendingFile = PendingFile(part: string, path: Path, rows: seq<Row>)

  datatype CommitError = TargetMoved | RowSuperseded | PathExists

  datatype CommitResult = Committed | Refused(error: CommitError)

  ghost function FileSet(ps: seq<Partition>): (r: set<Path>)
    ensures forall p :: p in r <==> exists i :: 0 <= i < |ps| && p in ps[i].files
  {
    set i, j | 0 <= i < |ps| && 0 <= j < |ps[i].files| :: ps[i].files[j]
  }

  ghost predicate Marks(m: Marker, a: Addr) {
    a.path == m.path && a.pos in m.rows
  }

  ghost function MarkedBy(ms: seq<Marker>): (r: set<Addr>)
    ensures forall a :: a in r <==> exists i :: 0 <= i < |ms| && Marks(ms[i], a)
  {
    set i, j | 0 <= i < |ms| && 0 <= j < |ms[i].rows| :: Addr(ms[i].path, ms[i].rows[j])
  }

  ghost function TableOf(store: map<Path, seq<Row>>, m: Manifest): Table {
    Table(store, FileSet(m.partitions), MarkedBy(m.markers))
  }

  /** The objects a commit publishes; a path listed twice keeps its later contents. */
  ghost function Objects(files: seq<PendingFile>): (r: map<Path, seq<Row>>)
    ensures forall p :: p in r <==> exists i :: 0 <= i < |files| && files[i].path == p
  {
    if files == [] then map[]
    else
      var rest := Objects(files[..|files| - 1]);
      assert files == files[..|files| - 1] + [files[|files| - 1]];
      rest[files[|files| - 1].path := files[|files| - 1].rows]
  }

  /** Freshly minted paths: distinct, and never used before. */
  ghost predicate Minted(store: map<Path, seq<Row>>, files: seq<PendingFile>) {
    && (forall i :: 0 <= i < |files| ==> files[i].path !in store)
    && (forall i, j :: 0 <= i < j < |files| ==> files[i].path != files[j].path)
  }

  ghost predicate Fits(t: Table, m: Marker) {
    m.path in t.files && forall i :: 0 <= i < |m.rows| ==> Addr(m.path, m.rows[i]) !in t.deleted
  }

  ghost predicate AllFit(t: Table, ms: seq<Marker>) {
    forall i :: 0 <= i < |ms| ==> Fits(t, ms[i])
  }

  ghost predicate NoEmptyMarker(ms: seq<Marker>) {
    forall i :: 0 <= i < |ms| ==> ms[i].rows != []
  }

  /** The validation is `CanCommit` for every marker list a DML scan builds. */
  lemma FitIsCanCommit(t: Table, ms: seq<Marker>)
    requires NoEmptyMarker(ms)
    ensures AllFit(t, ms) <==> CanCommit(t, MarkedBy(ms))
  {
    if CanCommit(t, MarkedBy(ms)) {
      forall i, j | 0 <= i < |ms| && 0 <= j < |ms[i].rows|
        ensures ms[i].path in t.files && Addr(ms[i].path, ms[i].rows[j]) !in t.deleted
      {
        assert Marks(ms[i], Addr(ms[i].path, ms[i].rows[j]));
      }
      forall i | 0 <= i < |ms|
        ensures Fits(t, ms[i])
      {
        assert ms[i].rows[0] in ms[i].rows;
      }
    }
  }

  /** The rows of each file that the markers name (`DeletedRowsByFile`). */
  method DeletedRowsByFile(ms: seq<Marker>) returns (out: map<Path, set<nat>>)
    ensures forall a: Addr :: a in MarkedBy(ms) <==> a.path in out && a.pos in out[a.path]
    ensures forall p :: p in out ==> exists i :: 0 <= i < |ms| && ms[i].path == p
  {
    out := map[];
    for n := 0 to |ms|
      invariant forall a: Addr :: (exists i :: 0 <= i < n && Marks(ms[i], a)) <==> a.path in out && a.pos in out[a.path]
      invariant forall p :: p in out ==> exists i :: 0 <= i < n && ms[i].path == p
    {
      var rows := if ms[n].path in out then out[ms[n].path] else {};
      ghost var before := rows;
      for k := 0 to |ms[n].rows|
        invariant forall r :: r in rows <==> r in before || r in ms[n].rows[..k]
      {
        rows := rows + {ms[n].rows[k]};
      }
      assert ms[n].rows[..|ms[n].rows|] == ms[n].rows;
      out := out[ms[n].path := rows];
    }
  }

  method ToSeq(rows: set<nat>) returns (s: seq<nat>)
    ensures forall r :: r in s <==> r in rows
    ensures |s| == |rows|
  {
    s := [];
    var left := rows;
    while left != {}
      invariant left <= rows && |s| + |left| == |rows|
      invariant forall r :: r in rows <==> r in s || r in left
    {
      var r :| r in left;
      left := left - {r};
      s := s + [r];
    }
  }

  ghost predicate OnePerFile(ms: seq<Marker>) {
    forall i, j :: 0 <= i < j < |ms| ==> ms[i].path != ms[j].path
  }

  /** Folds incoming markers into the existing ones, one entry per file (`mergeDeleteMarkers`). */
  method MergeDeleteMarkers(existing: seq<Marker>, incoming: seq<Marker>) returns (out: seq<Marker>)
    ensures MarkedBy(out) == MarkedBy(existing) + MarkedBy(incoming)
    ensures OnePerFile(out)
  {
    var rows := DeletedRowsByFile(existing + incoming);
    out := [];
    var left := rows.Keys;
    while left != {}
      invariant left <= rows.Keys && Gathered(rows, rows.Keys - left, out)
    {
      var p :| p in left;
      var s := ToSeq(rows[p]);
      GatheredNext(rows, rows.Keys - left, out, p, s);
      assert rows.Keys - (left - {p}) == (rows.Keys - left) + {p};
      left := left - {p};
      out := out + [Marker(p, s)];
    }
    assert rows.Keys - {} == rows.Keys;
    MergedMarks(existing, incoming, rows, out);
  }

  /** One marker for each of the files `done`, holding that file's rows. */
  ghost predicate Gathered(rows: map<Path, set<nat>>, done: set<Path>, out: seq<Marker>) {
    && OnePerFile(out)
    && (forall i :: 0 <= i < |out| ==> out[i].path in rows && out[i].path in done)
    && (forall i, r :: 0 <= i < |out| ==> (r in out[i].rows <==> r in rows[out[i].path]))
    && (forall p :: p in done ==> exists i :: 0 <= i < |out| && out[i].path == p)
  }

  lemma GatheredNext(rows: map<Path, set<nat>>, done: set<Path>, out: seq<Marker>, p: Path, s: seq<nat>)
    requires Gathered(rows, done, out) && p in rows && p !in done && forall r :: r in s <==> r in rows[p]
    ensures Gathered(rows, done + {p}, out + [Marker(p, s)])
  {
    var next := out + [Marker(p, s)];
    forall q | q in done + {p}
      ensures exists i :: 0 <= i < |next| && next[i].path == q
    {
      if q == p {
        assert next[|out|].path == q;
      } else {
        var i :| 0 <= i < |out| && out[i].path == q;
        assert next[i].path == q;
      }
    }
  }

  lemma MergedMarks(existing: seq<Marker>, incoming: seq<Marker>, rows: map<Path, set<nat>>, out: seq<Marker>)
    requires forall a: Addr :: a in MarkedBy(existing + incoming) <==> a.path in rows && a.pos in rows[a.path]
    requires forall i :: 0 <= i < |out| ==> out[i].path in rows
    requires forall i, r :: 0 <= i < |out| ==> (r in out[i].rows <==> r in rows[out[i].path])
    requires forall p :: p in rows ==> exists i :: 0 <= i < |out| && out[i].path == p
    ensures MarkedBy(out) == MarkedBy(existing) + MarkedBy(incoming)
  {
    forall a: Addr
      ensures a in MarkedBy(out) <==> a in MarkedBy(existing + incoming)
    {
      if a.path in rows && a.pos in rows[a.path] {
        var i :| 0 <= i < |out| && out[i].path == a.path;
        assert Marks(out[i], a);
      }
    }
    MarkedByConcat(existing, incoming);
  }

  lemma MarkedByConcat(xs: seq<Marker>, ys: seq<Marker>)
    ensures MarkedBy(xs + ys) == MarkedBy(xs) + MarkedBy(ys)
  {
    forall a | a in MarkedBy(xs) + MarkedBy(ys)
      ensures a in MarkedBy(xs + ys)
    {
      if a in MarkedBy(xs) {
        var i :| 0 <= i < |xs| && Marks(xs[i], a);
        assert Marks((xs + ys)[i], a);
      } else {
        var i :| 0 <= i < |ys| && Marks(ys[i], a);
        assert Marks((xs + ys)[|xs| + i], a);
      }
    }
  }

  ghost predicate Distinct(files: seq<Path>) {
    forall i, j :: 0 <= i < j < |files| ==> files[i] != files[j]
  }

  /** No path is listed by two partitions, or twice by one. */
  ghost predicate ListedOnce(ps: seq<Partition>) {
    && (forall i, j, p :: 0 <= i < j < |ps| && p in ps[i].files ==> p !in ps[j].files)
    && (forall i :: 0 <= i < |ps| ==> Distinct(ps[i].files))
  }

  /** The first partition at `part`, or the place after the last when there is none. */
  ghost predicate PartitionAt(ps: seq<Partition>, part: string, i: nat) {
    i <= |ps| && (i < |ps| ==> ps[i].path == part) && forall k :: 0 <= k < i ==> ps[k].path != part
  }

  ghost predicate AlreadyListed(ps: seq<Partition>, pf: PendingFile) {
    exists i: nat :: i < |ps| && PartitionAt(ps, pf.part, i) && pf.path in ps[i].files
  }

  /** The file comes last in its partition, which is made if it was not there; the others stay. */
  ghost predicate AddedAt(ps: seq<Partition>, pf: PendingFile, out: seq<Partition>, i: nat) {
    && PartitionAt(ps, pf.part, i) && |out| == (if i < |ps| then |ps| else |ps| + 1)
    && out[i] == Partition(pf.part, (if i < |ps| then ps[i].files else []) + [pf.path])
    && forall k :: 0 <= k < |ps| && k != i ==> out[k] == ps[k]
  }

  /** Registers one file in its partition, refusing exactly a path the partition already lists. */
  method AddPending(ps: seq<Partition>, pf: PendingFile) returns (ok: bool, out: seq<Partition>)
    ensures !ok <==> AlreadyListed(ps, pf)
    ensures ok ==> exists i: nat :: AddedAt(ps, pf, out, i)
    ensures ok ==> FileSet(out) == FileSet(ps) + {pf.path}
    ensures !ok ==> out == ps && pf.path in FileSet(ps)
    ensures ok && ListedOnce(ps) && pf.path !in FileSet(ps) ==> ListedOnce(out)
  {
    for i := 0 to |ps|
      invariant forall k :: 0 <= k < i ==> ps[k].path != pf.part
    {
      if ps[i].path == pf.part {
        if pf.path in ps[i].files {
          return false, ps;
        }
        out := ps[i := Partition(pf.part, ps[i].files + [pf.path])];
        AddedFile(ps, out, i, pf.path);
        assert AddedAt(ps, pf, out, i);
        return true, out;
      }
    }
    out := ps + [Partition(pf.part, [pf.path])];
    AddedPartition(ps, pf.part, pf.path);
    assert AddedAt(ps, pf, out, |ps|);
    return true, out;
  }

  lemma AddedFile(ps: seq<Partition>, out: seq<Partition>, i: nat, path: Path)
    requires i < |ps| && |out| == |ps|
    requires out[i].files == ps[i].files + [path]
    requires forall k :: 0 <= k < |ps| && k != i ==> out[k].files == ps[k].files
    ensures FileSet(out) == FileSet(ps) + {path}
  {
  }

  lemma AddedPartition(ps: seq<Partition>, part: string, path: Path)
    ensures FileSet(ps + [Partition(part, [path])]) == FileSet(ps) + {path}
  {
    var out := ps + [Partition(part, [path])];
    forall p | p in FileSet(ps) + {path}
      ensures p in FileSet(out)
    {
      if p in FileSet(ps) {
        var k :| 0 <= k < |ps| && p in ps[k].files;
        assert p in out[k].files;
      } else {
        assert p in out[|ps|].files;
      }
    }
  }

  /** What the validation loop answers: the first marker that does not fit decides the refusal. */
  ghost predicate FirstMisfit(t: Table, ms: seq<Marker>, n: nat, error: CommitError) {
    && n < |ms|
    && AllFit(t, ms[..n])
    && if ms[n].path !in t.files then error == TargetMoved
       else !Fits(t, ms[n]) && error == RowSuperseded
  }

  method ListedPaths(ps: seq<Partition>) returns (live: set<Path>)
    ensures live == FileSet(ps)
  {
    live := {};
    for i := 0 to |ps|
      invariant forall p :: p in live <==> exists k :: 0 <= k < i && p in ps[k].files
    {
      live := live + (set p | p in ps[i].files);
    }
  }

  /** The validation half of a commit, marker by marker and row by row. */
  method Validate(m: Manifest, ghost t: Table, ms: seq<Marker>) returns (r: CommitResult)
    requires t.files == FileSet(m.partitions) && t.deleted == MarkedBy(m.markers)
    ensures r.Committed? <==> AllFit(t, ms)
    ensures r.Refused? ==> exists n :: FirstMisfit(t, ms, n, r.error)
  {
    var live := ListedPaths(m.partitions);
    var superseded := DeletedRowsByFile(m.markers);
    for n := 0 to |ms|
      invariant AllFit(t, ms[..n])
    {
      if ms[n].path !in live {
        assert FirstMisfit(t, ms, n, TargetMoved);
        assert !Fits(t, ms[n]);
        return Refused(TargetMoved);
      }
      var gone := if ms[n].path in superseded then superseded[ms[n].path] else {};
      for k := 0 to |ms[n].rows|
        invariant forall j :: 0 <= j < k ==> Addr(ms[n].path, ms[n].rows[j]) !in t.deleted
      {
        if ms[n].rows[k] in gone {
          assert Addr(ms[n].path, ms[n].rows[k]) in t.deleted;
          assert FirstMisfit(t, ms, n, RowSuperseded);
          assert !Fits(t, ms[n]);
          return Refused(RowSuperseded);
        }
        assert Addr(ms[n].path, ms[n].rows[k]) !in t.deleted;
      }
      assert Fits(t, ms[n]);
      assert ms[..n + 1] == ms[..n] + [ms[n]];
    }
    assert ms[..|ms|] == ms;
    return Committed;
  }

  lemma ObjectsNext(files: seq<PendingFile>, n: nat)
    requires n < |files|
    ensures Objects(files[..n + 1]) == Objects(files[..n])[files[n].path := files[n].rows]
  {
    assert files[..n + 1][..n] == files[..n];
  }

  /** A path the manifest lists, or one an earlier file of the same commit carries. */
  ghost predicate Reused(ps: seq<Partition>, files: seq<PendingFile>, n: nat)
    requires n < |files|
  {
    files[n].path in FileSet(ps) || exists k :: 0 <= k < n && files[k].path == files[n].path
  }

  lemma ListedIsReused(ps: seq<Partition>, files: seq<PendingFile>, n: nat, out: seq<Partition>)
    requires n < |files| && FileSet(out) == FileSet(ps) + Objects(files[..n]).Keys
    ensures files[n].path in FileSet(out) ==> Reused(ps, files, n)
  {
    assert files[n].path in Objects(files[..n]) ==> exists k :: 0 <= k < n && files[..n][k].path == files[n].path;
  }

  method AddAll(ps: seq<Partition>, files: seq<PendingFile>)
    returns (ok: bool, out: seq<Partition>, objs: map<Path, seq<Row>>)
    ensures ok ==> FileSet(out) == FileSet(ps) + objs.Keys && objs == Objects(files)
    ensures !ok ==> exists n :: 0 <= n < |files| && Reused(ps, files, n)
    ensures ListedOnce(ps) && (forall n :: 0 <= n < |files| ==> !Reused(ps, files, n)) ==> ListedOnce(out)
  {
    ok, out, objs := true, ps, map[];
    for n := 0 to |files|
      invariant ok && objs == Objects(files[..n])
      invariant FileSet(out) == FileSet(ps) + objs.Keys
      invariant ListedOnce(ps) && (forall k :: 0 <= k < |files| ==> !Reused(ps, files, k)) ==> ListedOnce(out)
    {
      ListedIsReused(ps, files, n, out);
      ok, out := AddPending(out, files[n]);
      if !ok {
        return;
      }
      ObjectsNext(files, n);
      objs := objs[files[n].path := files[n].rows];
    }
    assert files[..|files|] == files;
  }

  class Catalog {
    var store: map<Path, seq<Row>>
    var manifest: Manifest

    constructor (store: map<Path, seq<Row>>, manifest: Manifest)
      ensures this.store == store && this.manifest == manifest
    {
      this.store, this.manifest := store, manifest;
    }

    ghost function Now(): Table
      reads this
    {
      TableOf(store, manifest)
    }

    /** Publishes replacement files and delete markers in one step, or changes nothing. */
    method CommitDML(newFiles: seq<PendingFile>, markers: seq<Marker>) returns (r: CommitResult)
      modifies this
      ensures r.Committed? ==> Now() == Publish(old(Now()), Objects(newFiles), MarkedBy(markers))
      ensures r.Refused? ==> store == old(store) && manifest == old(manifest)
      ensures AllFit(old(Now()), markers) <==> r.Committed? || r.error == PathExists
      ensures r.Refused? && r.error != PathExists ==> exists n :: FirstMisfit(old(Now()), markers, n, r.error)
      ensures Minted(old(store), newFiles) && old(Now()).files <= old(store).Keys ==> r != Refused(PathExists)
      ensures
        Minted(old(store), newFiles) && old(Now()).files <= old(store).Keys && ListedOnce(old(manifest).partitions) ==>
          ListedOnce(manifest.partitions)
    {
      if newFiles == [] && markers == [] {
        assert store + Objects(newFiles) == store;
        return Committed;
      }
      var m := manifest;
      r := Validate(m, Now(), markers);
      if r.Refused? {
        return;
      }
      var ok, parts, objs := AddAll(m.partitions, newFiles);
      if !ok {
        return Refused(PathExists);
      }
      var merged := MergeDeleteMarkers(m.markers, markers);
      store, manifest := store + objs, Manifest(parts, merged);
    }

    /** Swaps a rewritten file in for its inputs and their markers in one step, or changes nothing. */
    method CommitCompaction(part: string, inputs: seq<Path>, output: Option<PendingFile>,
                            applied: map<Path, set<nat>>, ghost rows: multiset<Row>) returns (r: SwapResult)
      requires ListedOnce(manifest.partitions)
      modifies this
      ensures var c := CutOf(inputs, applied, rows);
        && (r.Swap? ==> CanSwap(old(Now()), c) && Now() == Swapped(old(Now()), c, Output(output)))
        && (r.Conflict? ==>
              !(PartitionHolds(old(manifest).partitions, part, inputs) && MarkersOn(old(Now()), c.inputs) == c.applied))
      ensures !r.Swap? ==> store == old(store) && manifest == old(manifest)
      ensures r.NoInputs? <==> inputs == []
      ensures r.DuplicateOutput? ==> output.Some? && output.value.path in old(Now()).files
      ensures (output.Some? ==> output.value.path !in old(Now()).files) ==> ListedOnce(manifest.partitions)
    {
      if inputs == [] {
        return NoInputs;
      }
      var m := manifest;
      var k := FindPartition(m.partitions, part);
      if k == |m.partitions| || !(forall i :: 0 <= i < |inputs| ==> inputs[i] in m.partitions[k].files) {
        return Conflict;
      }
      var same := SnapshotHolds(m.markers, inputs, applied, Now(), rows);
      if !same {
        return Conflict;
      }
      var ok, parts := SwapFiles(m.partitions, k, inputs, output);
      if !ok {
        return DuplicateOutput;
      }
      var markers := KeepMarkers(m.markers, set p | p in inputs);
      var objs := if output.Some? then map[output.value.path := output.value.rows] else map[];
      store, manifest := store + objs, Manifest(parts, markers);
      return Swap;
    }
  }

  /** One partition's file list with the inputs out and the replacement in. */
  method SwapFiles(ps: seq<Partition>, k: nat, inputs: seq<Path>, output: Option<PendingFile>)
    returns (ok: bool, out: seq<Partition>)
    requires ListedOnce(ps) && k < |ps|
    requires forall i :: 0 <= i < |inputs| ==> inputs[i] in ps[k].files
    ensures ok ==> FileSet(out) == (FileSet(ps) - (set p | p in inputs)) + Output(output).Keys
    ensures !ok ==> output.Some? && output.value.path in FileSet(ps)
    ensures ok && (output.Some? ==> output.value.path !in FileSet(ps)) ==> ListedOnce(out)
  {
    var kept := Without(ps[k].files, set p | p in inputs);
    if output.Some? && output.value.path in kept {
      return false, ps;
    }
    var files := if output.Some? then kept + [output.value.path] else kept;
    out := ps[k := Partition(ps[k].path, files)];
    SwappedFiles(ps, out, k, inputs, output);
    return true, out;
  }

  /** The inputs' markers are exactly the ones the output was cut against. */
  method SnapshotHolds(ms: seq<Marker>, inputs: seq<Path>, applied: map<Path, set<nat>>,
                       ghost t: Table, ghost rows: multiset<Row>) returns (same: bool)
    requires t.deleted == MarkedBy(ms)
    ensures same <==> MarkersOn(t, CutOf(inputs, applied, rows).inputs) == CutOf(inputs, applied, rows).applied
  {
    var current := DeletedRowsByFile(ms);
    for i := 0 to |inputs|
      invariant forall j :: 0 <= j < i ==> RowsOn(current, inputs[j]) == RowsOn(applied, inputs[j])
    {
      if RowsOn(current, inputs[i]) != RowsOn(applied, inputs[i]) {
        MarkersDiffer(t, inputs, current, applied, rows, i);
        return false;
      }
    }
    MarkersSame(t, inputs, current, applied, rows);
    return true;
  }

  datatype SwapResult = Swap | Conflict | NoInputs | DuplicateOutput

  ghost function CutOf(inputs: seq<Path>, applied: map<Path, set<nat>>, rows: multiset<Row>): Cut {
    Cut(set p | p in inputs, set p, r | p in inputs && r in RowsOn(applied, p) :: Addr(p, r), rows)
  }

  ghost function Output(output: Option<PendingFile>): map<Path, seq<Row>> {
    if output.Some? then map[output.value.path := output.value.rows] else map[]
  }

  function RowsOn(rows: map<Path, set<nat>>, p: Path): set<nat> {
    if p in rows then rows[p] else {}
  }

  ghost predicate PartitionHolds(ps: seq<Partition>, part: string, inputs: seq<Path>) {
    exists k :: 0 <= k < |ps| && ps[k].path == part && (forall j :: 0 <= j < k ==> ps[j].path != part)
      && forall i :: 0 <= i < |inputs| ==> inputs[i] in ps[k].files
  }

  method FindPartition(ps: seq<Partition>, part: string) returns (k: nat)
    ensures k <= |ps| && forall j :: 0 <= j < k ==> ps[j].path != part
    ensures k < |ps| ==> ps[k].path == part
  {
    k := 0;
    while k < |ps| && ps[k].path != part
      invariant k <= |ps| && forall j :: 0 <= j < k ==> ps[j].path != part
    {
      k := k + 1;
    }
  }

  lemma MarkersDiffer(t: Table, inputs: seq<Path>, current: map<Path, set<nat>>, applied: map<Path, set<nat>>,
                      rows: multiset<Row>, i: nat)
    requires forall a: Addr :: a in t.deleted <==> a.path in current && a.pos in current[a.path]
    requires i < |inputs| && RowsOn(current, inputs[i]) != RowsOn(applied, inputs[i])
    ensures MarkersOn(t, CutOf(inputs, applied, rows).inputs) != CutOf(inputs, applied, rows).applied
  {
    var p, c := inputs[i], CutOf(inputs, applied, rows);
    var r :| (r in RowsOn(current, p)) != (r in RowsOn(applied, p));
    assert Addr(p, r) in MarkersOn(t, c.inputs) <==> r in RowsOn(current, p);
    assert Addr(p, r) in c.applied <==> r in RowsOn(applied, p);
  }

  lemma MarkersSame(t: Table, inputs: seq<Path>, current: map<Path, set<nat>>, applied: map<Path, set<nat>>,
                    rows: multiset<Row>)
    requires forall a: Addr :: a in t.deleted <==> a.path in current && a.pos in current[a.path]
    requires forall j :: 0 <= j < |inputs| ==> RowsOn(current, inputs[j]) == RowsOn(applied, inputs[j])
    ensures MarkersOn(t, CutOf(inputs, applied, rows).inputs) == CutOf(inputs, applied, rows).applied
  {
  }

  function Without(files: seq<Path>, removed: set<Path>): (r: seq<Path>)
    ensures forall p :: p in r <==> p in files && p !in removed
    ensures Distinct(files) ==> Distinct(r)
  {
    if files == [] then []
    else (if files[0] in removed then [] else [files[0]]) + Without(files[1..], removed)
  }

  function KeepMarkers(ms: seq<Marker>, removed: set<Path>): (r: seq<Marker>)
    ensures MarkedBy(r) == set a | a in MarkedBy(ms) && a.path !in removed
  {
    if ms == [] then []
    else
      assert ms == [ms[0]] + ms[1..];
      MarkedByConcat([ms[0]], ms[1..]);
      var head := if ms[0].path in removed then [] else [ms[0]];
      MarkedByConcat(head, KeepMarkers(ms[1..], removed));
      head + KeepMarkers(ms[1..], removed)
  }

  lemma SwappedFiles(ps: seq<Partition>, out: seq<Partition>, k: nat, inputs: seq<Path>, output: Option<PendingFile>)
    requires ListedOnce(ps) && k < |ps| && |out| == |ps|
    requires forall i :: 0 <= i < |inputs| ==> inputs[i] in ps[k].files
    requires forall j :: 0 <= j < |ps| && j != k ==> out[j] == ps[j]
    requires forall p :: p in out[k].files <==>
      (p in ps[k].files && p !in inputs) || (output.Some? && p == output.value.path)
    ensures FileSet(out) == (FileSet(ps) - (set p | p in inputs)) + Output(output).Keys
  {
  }
}
