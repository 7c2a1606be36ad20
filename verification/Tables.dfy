/**
 A merge-on-read table: immutable files of rows, the manifest's file list, and
 the delete markers that name rows of those files by (file, position).

 `store` holds the contents of every object a manifest has ever named. A file's
 contents never change and its path is never used again, which is what lets a
 statement scan the files its manifest named after the manifest has moved on.
 */
module Tables {
  import opened Bags

  /** The boxes a row carries (`map[string]any` in the engine). */
  datatype Value =
    | Null
    | Bool(b: bool)
    | Int32(i32: int)
    | Int64(i64: int)
    | Float32(f32: real)
    | Float64(f64: real)
    | NaN
    | Text(text: string)

  datatype Row = Row(cells: map<string, Value>)

  type Path = string

  /** One physical row: which file, and which row of it. */
  datatype Addr = Addr(path: Path, pos: nat)

  datatype Table = Table(store: map<Path, seq<Row>>, files: set<Path>, deleted: set<Addr>)

  ghost function Slots(store: map<Path, seq<Row>>, files: set<Path>): (r: set<Addr>)
    ensures forall a :: a in r <==> a.path in files && a.path in store && a.pos < |store[a.path]|
  {
    set p, i | p in files && p in store && 0 <= i < |store[p]| :: Addr(p, i)
  }

  /** The rows a reader of the manifest sees: in a listed file and not marked. */
  ghost function LiveAddrs(t: Table): set<Addr> {
    Slots(t.store, t.files) - t.deleted
  }

  function RowAt(store: map<Path, seq<Row>>, a: Addr): Row {
    if a.path in store && a.pos < |store[a.path]| then store[a.path][a.pos] else Row(map[])
  }

  ghost function RowsAt(store: map<Path, seq<Row>>, addrs: set<Addr>): multiset<Row> {
    Map(multiset(addrs), (a: Addr) => RowAt(store, a))
  }

  /** The table's contents. */
  ghost function Live(t: Table): multiset<Row> {
    RowsAt(t.store, LiveAddrs(t))
  }

  /** Every listed file has contents, and every marker names a row of a listed file. */
  ghost predicate Valid(t: Table) {
    && t.files <= t.store.Keys
    && t.deleted <= Slots(t.store, t.files)
  }

  lemma RowsUnion(store: map<Path, seq<Row>>, a: set<Addr>, b: set<Addr>)
    requires a !! b
    ensures RowsAt(store, a + b) == RowsAt(store, a) + RowsAt(store, b)
  {
    assert multiset(a + b) == multiset(a) + multiset(b);
    MapUnion(multiset(a), multiset(b), (x: Addr) => RowAt(store, x));
  }

  lemma RowsRemove(store: map<Path, seq<Row>>, a: set<Addr>, b: set<Addr>)
    requires b <= a
    ensures RowsAt(store, a - b) + RowsAt(store, b) == RowsAt(store, a)
    ensures RowsAt(store, b) <= RowsAt(store, a)
  {
    assert (a - b) + b == a;
    RowsUnion(store, a - b, b);
  }

  ghost predicate Grows(store: map<Path, seq<Row>>, store': map<Path, seq<Row>>) {
    forall p :: p in store ==> p in store' && store'[p] == store[p]
  }

  lemma RowsStable(store: map<Path, seq<Row>>, store': map<Path, seq<Row>>, addrs: set<Addr>)
    requires Grows(store, store')
    requires forall a :: a in addrs ==> a.path in store
    ensures RowsAt(store', addrs) == RowsAt(store, addrs)
  {
    MapAgree(multiset(addrs), (a: Addr) => RowAt(store', a), (a: Addr) => RowAt(store, a));
  }

  ghost function Prefix(p: Path, n: nat): (r: set<Addr>)
    ensures forall a :: a in r <==> a.path == p && a.pos < n
  {
    set i | 0 <= i < n :: Addr(p, i)
  }

  lemma {:induction false} FileRows(store: map<Path, seq<Row>>, p: Path, n: nat)
    requires p in store && n <= |store[p]|
    ensures RowsAt(store, Prefix(p, n)) == multiset(store[p][..n])
  {
    if n == 0 {
      assert Prefix(p, n) == {};
    } else {
      assert store[p][..n] == store[p][..n - 1] + [store[p][n - 1]];
      FileRows(store, p, n - 1);
      var last := Addr(p, n - 1);
      assert Prefix(p, n) == Prefix(p, n - 1) + {last};
      RowsUnion(store, Prefix(p, n - 1), {last});
      OneRow(store, last);
    }
  }

  lemma OneRow(store: map<Path, seq<Row>>, a: Addr)
    ensures RowsAt(store, {a}) == multiset{RowAt(store, a)}
  {
  }

  /** A file published under a fresh path contributes exactly its rows. */
  lemma WholeFile(store: map<Path, seq<Row>>, p: Path)
    requires p in store
    ensures RowsAt(store, Slots(store, {p})) == multiset(store[p])
  {
    FileRows(store, p, |store[p]|);
    assert Slots(store, {p}) == Prefix(p, |store[p]|);
    assert store[p][..|store[p]|] == store[p];
  }
}
