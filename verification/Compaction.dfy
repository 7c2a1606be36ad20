/**
 A compaction pass: merge the surviving rows of some files into one, let the
 other writers run, then publish the merged file in place of its inputs.
 */
module Compaction {
  import opened Options
  import opened Tables
  import opened Commits
  import opened Catalogs
  import opened Dml

  /** The rows of one file's first `n` positions that no applied marker names. */
  ghost function Survivors(p: Path, n: nat, gone: set<nat>): (r: set<Addr>)
    ensures forall a :: a in r <==> a.path == p && a.pos < n && a.pos !in gone
  {
    set i | 0 <= i < n && i !in gone :: Addr(p, i)
  }

  method MergeFile(rows: seq<Row>, gone: set<nat>, ghost store: map<Path, seq<Row>>, ghost p: Path)
    returns (out: seq<Row>)
    requires p in store && store[p] == rows
    ensures multiset(out) == RowsAt(store, Survivors(p, |rows|, gone))
  {
    out := [];
    assert Survivors(p, 0, gone) == {};
    for i := 0 to |rows|
      invariant multiset(out) == RowsAt(store, Survivors(p, i, gone))
    {
      if i in gone {
        assert Survivors(p, i + 1, gone) == Survivors(p, i, gone);
      } else {
        assert Survivors(p, i + 1, gone) == Survivors(p, i, gone) + {Addr(p, i)};
        RowsUnion(store, Survivors(p, i, gone), {Addr(p, i)});
        OneRow(store, Addr(p, i));
        out := out + [rows[i]];
      }
    }
  }

  /** The addresses of the rows a merge of the first `n` files carries. */
  ghost function Carried(store: map<Path, seq<Row>>, files: seq<Path>, n: nat,
                         gone: map<Path, set<nat>>): (r: set<Addr>)
    requires n <= |files|
    ensures forall a :: a in r <==> a.path in Done(files, n) && a.path in store && a.pos < |store[a.path]|
                                    && a.pos !in RowsOn(gone, a.path)
  {
    set a | a in Slots(store, Done(files, n)) && a.pos !in RowsOn(gone, a.path)
  }

  lemma CarriedNext(store: map<Path, seq<Row>>, files: seq<Path>, n: nat, gone: map<Path, set<nat>>)
    requires Distinct(files) && n < |files| && files[n] in store
    ensures var more := Survivors(files[n], |store[files[n]]|, RowsOn(gone, files[n]));
      Carried(store, files, n + 1, gone) == Carried(store, files, n, gone) + more
        && Carried(store, files, n, gone) !! more
  {
  }

  /** The merge half: every row of the inputs that the snapshot's markers left standing. */
  method MergeFiles(store: map<Path, seq<Row>>, files: seq<Path>, gone: map<Path, set<nat>>) returns (out: seq<Row>)
    requires Distinct(files) && forall i :: 0 <= i < |files| ==> files[i] in store
    ensures multiset(out) == RowsAt(store, Carried(store, files, |files|, gone))
  {
    out := [];
    assert Carried(store, files, 0, gone) == {};
    for n := 0 to |files|
      invariant multiset(out) == RowsAt(store, Carried(store, files, n, gone))
    {
      var more := MergeFile(store[files[n]], RowsOn(gone, files[n]), store, files[n]);
      CarriedNext(store, files, n, gone);
      RowsUnion(store, Carried(store, files, n, gone), Survivors(files[n], |store[files[n]]|, RowsOn(gone, files[n])));
      out := out + more;
    }
  }

  /** What a merge wrote is a faithful cut of its inputs, then and ever after. */
  lemma MergedIsFaithful(store: map<Path, seq<Row>>, store': map<Path, seq<Row>>, files: seq<Path>,
                         gone: map<Path, set<nat>>)
    requires forall i :: 0 <= i < |files| ==> files[i] in store
    requires Grows(store, store')
    ensures Faithful(store', CutOf(files, gone, RowsAt(store, Carried(store, files, |files|, gone))))
  {
    var rows := RowsAt(store, Carried(store, files, |files|, gone));
    var c := CutOf(files, gone, rows);
    assert Slots(store', c.inputs) - c.applied == Carried(store, files, |files|, gone);
    RowsStable(store, store', Carried(store, files, |files|, gone));
  }

  /**
   A whole pass. Whatever the other writers did between its read and its commit,
   it either swaps its output in without changing the table's contents or
   changes nothing at all.
   */
  method CompactOnce(cat: Catalog, part: string, files: seq<Path>, path: Path, now: Moment) returns (r: SwapResult)
    requires Sound(cat.store, cat.manifest) && Sound(now.store, now.manifest) && path !in now.store
    requires Distinct(files) && forall i :: 0 <= i < |files| ==> files[i] in cat.store
    requires Grows(cat.store, now.store) && Valid(At(now))
    modifies cat
    ensures Valid(cat.Now()) && Live(cat.Now()) == Live(At(now))
    ensures !r.Swap? ==> cat.store == now.store && cat.manifest == now.manifest
    ensures r.Swap? ==> cat.Now().files !! (set p | p in files)
  {
    var gone := DeletedRowsByFile(cat.manifest.markers);
    var rows := MergeFiles(cat.store, files, gone);
    MergedIsFaithful(cat.store, now.store, files, gone);
    r := SwapIn(cat, part, files, gone, rows, path, now);
  }

  method SwapIn(cat: Catalog, part: string, files: seq<Path>, gone: map<Path, set<nat>>, rows: seq<Row>, path: Path,
                now: Moment)
    returns (r: SwapResult)
    requires Sound(now.store, now.manifest) && path !in now.store && Valid(At(now))
    requires Faithful(now.store, CutOf(files, gone, multiset(rows)))
    modifies cat
    ensures Valid(cat.Now()) && Live(cat.Now()) == Live(At(now))
    ensures !r.Swap? ==> cat.store == now.store && cat.manifest == now.manifest
    ensures r.Swap? ==> cat.Now().files !! (set p | p in files)
  {
    cat.store, cat.manifest := now.store, now.manifest;
    ghost var t, c := cat.Now(), CutOf(files, gone, multiset(rows));
    NoFiles();
    var output := if rows == [] then None else Some(PendingFile(part, path, rows));
    OneFile(path, rows);
    r := cat.CommitCompaction(part, files, output, gone, multiset(rows));
    if r.Swap? {
      assert BagOf(Output(output)) == c.rows;
      FreshOutput(output, t.store);
      SwapConserves(t, c, Output(output));
    }
  }

  lemma OneFile(path: Path, rows: seq<Row>)
    ensures BagOf(map[path := rows]) == multiset(rows)
  {
    var objs: map<Path, seq<Row>> := map[path := rows];
    assert objs.Keys == {path};
    WholeFile(objs, path);
  }

  lemma FreshOutput(output: Option<PendingFile>, store: map<Path, seq<Row>>)
    requires output.Some? ==> output.value.path !in store
    ensures Output(output).Keys !! store.Keys
  {
  }
}
