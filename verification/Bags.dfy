/**
 Images, filters and sums of multisets.

 A table's contents is a multiset of rows, and most of what the DML protocol
 promises is a statement about how such multisets add up.
 */
module Bags {

  ghost function Pick<A>(m: multiset<A>): (x: A)
    requires m != multiset{}
    ensures x in m
  {
    var x :| x in m; x
  }

  /** The multiset of `f(x)` for every occurrence of `x` in `m`. */
  ghost function Map<A, B>(m: multiset<A>, f: A -> B): (r: multiset<B>)
    ensures |r| == |m|
    decreases |m|
  {
    if m == multiset{} then multiset{}
    else Map(m - multiset{Pick(m)}, f) + multiset{f(Pick(m))}
  }

  lemma Swap<A>(m: multiset<A>, x: A, y: A)
    requires x != y && y in m
    ensures m + multiset{x} - multiset{y} == (m - multiset{y}) + multiset{x}
    ensures m == (m - multiset{y}) + multiset{y}
  {
  }

  lemma Commute<A>(m: multiset<A>, x: A, y: A)
    ensures m + multiset{x} + multiset{y} == m + multiset{y} + multiset{x}
  {
  }

  lemma {:induction false} MapAdd<A, B>(m: multiset<A>, x: A, f: A -> B)
    ensures Map(m + multiset{x}, f) == Map(m, f) + multiset{f(x)}
    decreases |m|
  {
    var n := m + multiset{x};
    var y := Pick(n);
    if y == x {
      assert n - multiset{y} == m;
    } else {
      Swap(m, x, y);
      var k := m - multiset{y};
      MapAdd(k, x, f);
      MapAdd(k, y, f);
      Commute(Map(k, f), f(x), f(y));
    }
  }

  lemma {:induction false} MapUnion<A, B>(a: multiset<A>, b: multiset<A>, f: A -> B)
    ensures Map(a + b, f) == Map(a, f) + Map(b, f)
    decreases |b|
  {
    if b == multiset{} {
      assert a + b == a;
    } else {
      var x :| x in b;
      var c := b - multiset{x};
      assert b == c + multiset{x};
      assert a + b == (a + c) + multiset{x};
      MapUnion(a, c, f);
      MapAdd(a + c, x, f);
      MapAdd(c, x, f);
    }
  }

  lemma {:induction false} MapAgree<A, B>(m: multiset<A>, f: A -> B, g: A -> B)
    requires forall x :: x in m ==> f(x) == g(x)
    ensures Map(m, f) == Map(m, g)
    decreases |m|
  {
    if m != multiset{} {
      var x :| x in m;
      var k := m - multiset{x};
      assert m == k + multiset{x};
      MapAgree(k, f, g);
      MapAdd(k, x, f);
      MapAdd(k, x, g);
    }
  }

  lemma {:induction false} MapMap<A, B, C>(m: multiset<A>, f: A -> B, g: B -> C, h: A -> C)
    requires forall x :: x in m ==> h(x) == g(f(x))
    ensures Map(Map(m, f), g) == Map(m, h)
    decreases |m|
  {
    if m != multiset{} {
      var x :| x in m;
      var k := m - multiset{x};
      assert m == k + multiset{x};
      MapMap(k, f, g, h);
      MapAdd(k, x, f);
      MapAdd(k, x, h);
      MapAdd(Map(k, f), f(x), g);
    }
  }

  lemma {:induction false} MapIn<A, B>(m: multiset<A>, f: A -> B, x: A)
    requires x in m
    ensures f(x) in Map(m, f)
  {
    var k := m - multiset{x};
    assert m == k + multiset{x};
    MapAdd(k, x, f);
  }

  lemma {:induction false} MapWitness<A, B>(m: multiset<A>, f: A -> B, y: B) returns (x: A)
    requires y in Map(m, f)
    ensures x in m && f(x) == y
    decreases |m|
  {
    var z := Pick(m);
    if f(z) == y {
      x := z;
    } else {
      x := MapWitness(m - multiset{z}, f, y);
    }
  }

  /** The occurrences in `m` that satisfy `p`. */
  ghost function Filter<A(!new)>(m: multiset<A>, p: A -> bool): (r: multiset<A>)
    ensures forall x :: r[x] == if p(x) then m[x] else 0
    decreases |m|
  {
    if m == multiset{} then multiset{}
    else
      var x := Pick(m);
      Filter(m - multiset{x}, p) + (if p(x) then multiset{x} else multiset{})
  }

  lemma FilterAdd<A(!new)>(m: multiset<A>, x: A, p: A -> bool)
    ensures p(x) ==> Filter(m + multiset{x}, p) == Filter(m, p) + multiset{x}
    ensures !p(x) ==> Filter(m + multiset{x}, p) == Filter(m, p)
  {
    SameCounts(Filter(m + multiset{x}, p), Filter(m, p) + (if p(x) then multiset{x} else multiset{}), m, x, p);
    assert Filter(m, p) + multiset{} == Filter(m, p);
  }

  lemma SameCounts<A(!new)>(a: multiset<A>, b: multiset<A>, m: multiset<A>, x: A, p: A -> bool)
    requires forall y :: a[y] == if p(y) then m[y] + (if y == x then 1 else 0) else 0
    requires forall y :: b[y] == (if p(y) then m[y] else 0) + (if y == x && p(x) then 1 else 0)
    ensures a == b
  {
  }

  /** The multisets `f(x)` of every occurrence of `x` in `m`, added together. */
  ghost function Flat<A, B>(m: multiset<A>, f: A -> multiset<B>): multiset<B>
    decreases |m|
  {
    if m == multiset{} then multiset{}
    else Flat(m - multiset{Pick(m)}, f) + f(Pick(m))
  }

  lemma CommuteBags<A>(m: multiset<A>, x: multiset<A>, y: multiset<A>)
    ensures m + x + y == m + y + x
  {
  }

  lemma {:induction false} FlatAdd<A, B>(m: multiset<A>, x: A, f: A -> multiset<B>)
    ensures Flat(m + multiset{x}, f) == Flat(m, f) + f(x)
    decreases |m|
  {
    var n := m + multiset{x};
    var y := Pick(n);
    if y == x {
      assert n - multiset{y} == m;
    } else {
      Swap(m, x, y);
      var k := m - multiset{y};
      FlatAdd(k, x, f);
      FlatAdd(k, y, f);
      CommuteBags(Flat(k, f), f(x), f(y));
    }
  }

  lemma FlatOne<A, B>(x: A, f: A -> multiset<B>)
    ensures Flat(multiset{x}, f) == f(x)
  {
    assert multiset{} + multiset{x} == multiset{x};
    FlatAdd(multiset{}, x, f);
  }

  lemma {:induction false} FlatUnion<A, B>(a: multiset<A>, b: multiset<A>, f: A -> multiset<B>)
    ensures Flat(a + b, f) == Flat(a, f) + Flat(b, f)
    decreases |b|
  {
    if b == multiset{} {
      assert a + b == a;
    } else {
      var x :| x in b;
      var c := b - multiset{x};
      assert b == c + multiset{x};
      assert a + b == (a + c) + multiset{x};
      FlatUnion(a, c, f);
      FlatAdd(a + c, x, f);
      FlatAdd(c, x, f);
    }
  }

  lemma {:induction false} FlatAgree<A, B>(m: multiset<A>, f: A -> multiset<B>, g: A -> multiset<B>)
    requires forall x :: x in m ==> f(x) == g(x)
    ensures Flat(m, f) == Flat(m, g)
    decreases |m|
  {
    if m != multiset{} {
      var x :| x in m;
      var k := m - multiset{x};
      assert m == k + multiset{x};
      FlatAgree(k, f, g);
      FlatAdd(k, x, f);
      FlatAdd(k, x, g);
    }
  }

  /** Adding two flattenings of one bag occurrence by occurrence. */
  lemma {:induction false} FlatSum<A, B>(m: multiset<A>, f: A -> multiset<B>, g: A -> multiset<B>, h: A -> multiset<B>)
    requires forall x :: x in m ==> h(x) == f(x) + g(x)
    ensures Flat(m, h) == Flat(m, f) + Flat(m, g)
    decreases |m|
  {
    if m != multiset{} {
      var x :| x in m;
      var k := m - multiset{x};
      assert m == k + multiset{x};
      FlatSum(k, f, g, h);
      FlatAdd(k, x, f);
      FlatAdd(k, x, g);
      FlatAdd(k, x, h);
      Interleave(Flat(k, f), Flat(k, g), f(x), g(x));
    }
  }

  lemma Interleave<A>(a: multiset<A>, b: multiset<A>, c: multiset<A>, d: multiset<A>)
    ensures (a + b) + (c + d) == (a + c) + (b + d)
  {
  }

  /** Occurrences that contribute nothing may be filtered away. */
  lemma {:induction false} FlatFilter<A(!new), B>(m: multiset<A>, p: A -> bool, f: A -> multiset<B>)
    requires forall x :: x in m && !p(x) ==> f(x) == multiset{}
    ensures Flat(Filter(m, p), f) == Flat(m, f)
    decreases |m|
  {
    if m != multiset{} {
      var x :| x in m;
      var k := m - multiset{x};
      assert m == k + multiset{x};
      FlatFilter(k, p, f);
      FlatAdd(k, x, f);
      FilterAdd(k, x, p);
      if p(x) {
        FlatAdd(Filter(k, p), x, f);
      } else {
        assert Flat(k, f) + f(x) == Flat(k, f);
      }
    }
  }
}
