/**
 The two conditional manifest transactions, as functions on table values:
 a DML commit (replacement files and delete markers together, or neither) and a
 compaction swap (inputs and their markers out, the rewritten file in).
 */
module Commits {
  import opened Tables

  /** Everything the objects about to be published hold. */
  ghost function BagOf(objs: map<Path, seq<Row>>): multiset<Row> {
    RowsAt(objs, Slots(objs, objs.Keys))
  }

  /** No marked file has left the manifest and no marked row is already marked. */
  ghost predicate CanCommit(t: Table, marks: set<Addr>) {
    forall a :: a in marks ==> a.path in t.files && a !in t.deleted
  }

  ghost function Publish(t: Table, objs: map<Path, seq<Row>>, marks: set<Addr>): Table {
    Table(t.store + objs, t.files + objs.Keys, t.deleted + marks)
  }

  ghost predicate InRange(store: map<Path, seq<Row>>, marks: set<Addr>) {
    forall a :: a in marks ==> a.path in store && a.pos < |store[a.path]|
  }

  lemma PublishedAddrs(t: Table, objs: map<Path, seq<Row>>, marks: set<Addr>)
    requires Valid(t) && CanCommit(t, marks) && InRange(t.store, marks)
    requires objs.Keys !! t.store.Keys
    ensures Valid(Publish(t, objs, marks))
    ensures marks <= LiveAddrs(t)
    ensures LiveAddrs(Publish(t, objs, marks)) == (LiveAddrs(t) - marks) + Slots(objs, objs.Keys)
    ensures LiveAddrs(t) !! Slots(objs, objs.Keys)
  {
  }

  /** A commit takes the marked rows out and puts the published rows in, exactly. */
  lemma CommitConserves(t: Table, objs: map<Path, seq<Row>>, marks: set<Addr>)
    requires Valid(t) && CanCommit(t, marks) && InRange(t.store, marks)
    requires objs.Keys !! t.store.Keys
    ensures Valid(Publish(t, objs, marks)) && marks <= LiveAddrs(t)
    ensures Live(Publish(t, objs, marks)) + RowsAt(t.store, marks) == Live(t) + BagOf(objs)
    ensures RowsAt(t.store, marks) <= Live(t)
  {
    PublishedAddrs(t, objs, marks);
    var t' := Publish(t, objs, marks);
    var kept, added := LiveAddrs(t) - marks, Slots(objs, objs.Keys);
    RowsUnion(t'.store, kept, added);
    RowsStable(t.store, t'.store, kept);
    RowsStable(objs, t'.store, added);
    RowsRemove(t.store, LiveAddrs(t), marks);
    Regroup(RowsAt(t.store, kept), RowsAt(t.store, marks), BagOf(objs), Live(t));
  }

  lemma Regroup<A>(kept: multiset<A>, gone: multiset<A>, added: multiset<A>, all: multiset<A>)
    requires kept + gone == all
    ensures (kept + added) + gone == all + added
    ensures gone <= all
  {
  }

  /**
   What a compaction pass read: the files it rewrites, the markers it applied to
   them, and the rows its output carries.
   */
  datatype Cut = Cut(inputs: set<Path>, applied: set<Addr>, rows: multiset<Row>)

  ghost function MarkersOn(t: Table, inputs: set<Path>): (r: set<Addr>) {
    set a | a in t.deleted && a.path in inputs
  }

  ghost function CutFrom(t: Table, inputs: set<Path>): Cut {
    var applied := MarkersOn(t, inputs);
    Cut(inputs, applied, RowsAt(t.store, Slots(t.store, inputs) - applied))
  }

  /** Contents are immutable, so a cut stays a faithful copy however late it commits. */
  ghost predicate Faithful(store: map<Path, seq<Row>>, c: Cut) {
    && c.inputs <= store.Keys
    && c.rows == RowsAt(store, Slots(store, c.inputs) - c.applied)
  }

  ghost predicate CanSwap(t: Table, c: Cut) {
    c.inputs <= t.files && MarkersOn(t, c.inputs) == c.applied
  }

  ghost function Swapped(t: Table, c: Cut, objs: map<Path, seq<Row>>): Table {
    Table(t.store + objs, (t.files - c.inputs) + objs.Keys, t.deleted - c.applied)
  }

  lemma SwappedAddrs(t: Table, c: Cut, objs: map<Path, seq<Row>>)
    requires Valid(t) && CanSwap(t, c) && objs.Keys !! t.store.Keys
    ensures Valid(Swapped(t, c, objs))
    ensures Slots(t.store, c.inputs) - c.applied <= LiveAddrs(t)
    ensures LiveAddrs(Swapped(t, c, objs)) ==
            (LiveAddrs(t) - (Slots(t.store, c.inputs) - c.applied)) + Slots(objs, objs.Keys)
    ensures LiveAddrs(t) !! Slots(objs, objs.Keys)
  {
  }

  /** A swap that passes its two checks leaves the table's contents alone. */
  lemma SwapConserves(t: Table, c: Cut, objs: map<Path, seq<Row>>)
    requires Valid(t) && CanSwap(t, c) && Faithful(t.store, c)
    requires objs.Keys !! t.store.Keys && BagOf(objs) == c.rows
    ensures Valid(Swapped(t, c, objs))
    ensures Live(Swapped(t, c, objs)) == Live(t)
  {
    SwappedAddrs(t, c, objs);
    var t' := Swapped(t, c, objs);
    var moved, added := Slots(t.store, c.inputs) - c.applied, Slots(objs, objs.Keys);
    var kept := LiveAddrs(t) - moved;
    RowsUnion(t'.store, kept, added);
    RowsStable(t.store, t'.store, kept);
    RowsStable(objs, t'.store, added);
    RowsRemove(t.store, LiveAddrs(t), moved);
  }
}
