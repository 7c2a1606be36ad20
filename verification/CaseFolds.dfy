/**
 The catalog resolves a folded table name by Unicode case folding, while policies
 are compared and keyed under the ASCII fold. The wider fold is a parameter here:
 any map from characters to representatives that puts together at least what the
 ASCII fold does. The lemmas say for exactly which catalogs the two do not part.
 */
module CaseFolds {
  import opened Options
  import opened Names

  type CharFold = char -> char

  ghost predicate Wider(w: CharFold) {
    forall c, d :: FoldChar(c) == FoldChar(d) ==> w(c) == w(d)
  }

  /** Equal under the wider fold, character by character. */
  predicate Alike(w: CharFold, a: string, b: string) {
    |a| == |b| && forall i :: 0 <= i < |a| ==> w(a[i]) == w(b[i])
  }

  ghost function Alikes(w: CharFold, names: seq<string>, ref: string): (r: set<nat>)
    ensures forall i :: i in r <==> 0 <= i < |names| && Alike(w, names[i], ref)
  {
    set i: nat | 0 <= i < |names| && Alike(w, names[i], ref)
  }

  ghost predicate WideDenotes(w: CharFold, names: seq<string>, ref: string, i: nat) {
    && i < |names|
    && if ref in names then names[i] == ref else Folded(ref) && Alikes(w, names, ref) == {i}
  }

  ghost predicate WideResolvable(w: CharFold, names: seq<string>, ref: string) {
    exists i: nat :: WideDenotes(w, names, ref, i)
  }

  ghost function WideResolve(w: CharFold, names: seq<string>, ref: string): (r: string)
    ensures forall i: nat :: WideDenotes(w, names, ref, i) ==> r == names[i]
    ensures !WideResolvable(w, names, ref) ==> r == ref
  {
    if i: nat :| WideDenotes(w, names, ref, i) then OneAnswer(w, names, ref, i); names[i] else ref
  }

  lemma OneAnswer(w: CharFold, names: seq<string>, ref: string, i: nat)
    requires WideDenotes(w, names, ref, i)
    ensures forall j: nat :: WideDenotes(w, names, ref, j) ==> names[j] == names[i]
  {
    forall j: nat | WideDenotes(w, names, ref, j)
      ensures names[j] == names[i]
    {
      if ref !in names {
        assert j in Alikes(w, names, ref);
      }
    }
  }

  /** The catalog's own loop: byte-exact first, then the only case match of a folded reference. */
  method ResolveTableName(w: CharFold, tables: seq<string>, name: string) returns (r: string)
    ensures name != "" ==> r == WideResolve(w, tables, name)
    ensures name == "" ==> r == ""
  {
    if name == "" || name in tables {
      if name in tables {
        ItselfFirst(w, tables, name);
      }
      return name;
    }
    if !Folded(name) {
      return name;
    }
    var found: Option<nat> := None;
    for i := 0 to |tables|
      invariant found.Some? ==> found.value < i && Alike(w, tables[found.value], name)
      invariant forall k :: 0 <= k < i && Alike(w, tables[k], name) ==> found == Some(k)
    {
      if Alike(w, tables[i], name) {
        if found.Some? {
          TwoAlike(w, tables, name, found.value, i);
          return name;
        }
        found := Some(i);
      }
    }
    if found.Some? {
      assert Alikes(w, tables, name) == {found.value};
      assert WideDenotes(w, tables, name, found.value);
      return tables[found.value];
    }
    return name;
  }

  lemma ItselfFirst(w: CharFold, tables: seq<string>, name: string)
    requires name in tables
    ensures WideResolvable(w, tables, name) && WideResolve(w, tables, name) == name
  {
    var i :| 0 <= i < |tables| && tables[i] == name;
    assert WideDenotes(w, tables, name, i);
  }

  lemma TwoAlike(w: CharFold, tables: seq<string>, name: string, i: nat, j: nat)
    requires name !in tables && i < j < |tables| && Alike(w, tables[i], name) && Alike(w, tables[j], name)
    ensures !WideResolvable(w, tables, name)
  {
    assert i in Alikes(w, tables, name) && j in Alikes(w, tables, name);
  }

  // ---- When the two folds part ----

  /** No character outside the ASCII case of `c` shares its fold. */
  ghost predicate Alone(w: CharFold, c: char) {
    forall d :: w(d) == w(c) ==> FoldChar(d) == FoldChar(c)
  }

  ghost predicate AllAlone(w: CharFold, name: string) {
    forall i :: 0 <= i < |name| ==> Alone(w, name[i])
  }

  ghost predicate NoOtherAlike(w: CharFold, tables: seq<string>, i: nat)
    requires i < |tables|
  {
    forall j :: 0 <= j < |tables| && j != i ==> !Alike(w, tables[i], tables[j])
  }

  /** A table that no other is alike is spelled in characters whose only case is ASCII case. */
  ghost predicate PlainlySpelled(w: CharFold, tables: seq<string>) {
    forall i: nat :: i < |tables| && NoOtherAlike(w, tables, i) ==> AllAlone(w, tables[i])
  }

  lemma AloneIsAscii(w: CharFold, t: string, s: string)
    requires Alike(w, t, s) && AllAlone(w, t)
    ensures EqualFold(t, s)
  {
    forall k | 0 <= k < |t|
      ensures FoldChar(t[k]) == FoldChar(s[k])
    {
      assert Alone(w, t[k]);
    }
  }

  /** With plain spellings, what a reference resolves to differs from it in ASCII case alone. */
  lemma PlainResolves(w: CharFold, tables: seq<string>, s: string, i: nat)
    requires PlainlySpelled(w, tables) && WideDenotes(w, tables, s, i)
    ensures EqualFold(tables[i], s)
  {
    if s !in tables {
      assert i in Alikes(w, tables, s);
      forall j | 0 <= j < |tables| && j != i
        ensures !Alike(w, tables[i], tables[j])
      {
        assert j !in Alikes(w, tables, s);
        if Alike(w, tables[i], tables[j]) {
          Through(w, tables[i], tables[j], s);
        }
      }
      AloneIsAscii(w, tables[i], s);
    }
  }

  lemma Through(w: CharFold, t: string, u: string, s: string)
    requires Alike(w, t, u) && Alike(w, t, s)
    ensures Alike(w, u, s)
  {
    forall k | 0 <= k < |u|
      ensures w(u[k]) == w(s[k])
    {
      assert w(t[k]) == w(u[k]) && w(t[k]) == w(s[k]);
    }
  }

  /** A folded spelling that is alike and not the same in ASCII case. */
  ghost function Respelled(t: string, p: nat, d: char): string
    requires p < |t|
  {
    Fold(t)[p := FoldChar(d)]
  }

  lemma FoldedChar(w: CharFold, c: char)
    ensures FoldChar(FoldChar(c)) == FoldChar(c) && !('A' <= FoldChar(c) <= 'Z')
    ensures Wider(w) ==> w(FoldChar(c)) == w(c)
  {
  }

  lemma RespelledAt(t: string, p: nat, d: char, k: nat)
    requires p < |t| && k < |t|
    ensures |Respelled(t, p, d)| == |t| && Respelled(t, p, d)[k] == FoldChar(if k == p then d else t[k])
  {
  }

  lemma RespelledIs(w: CharFold, t: string, p: nat, d: char)
    requires Wider(w) && p < |t| && w(d) == w(t[p]) && FoldChar(d) != FoldChar(t[p])
    ensures Folded(Respelled(t, p, d)) && Alike(w, t, Respelled(t, p, d)) && !EqualFold(t, Respelled(t, p, d))
  {
    var s := Respelled(t, p, d);
    forall k: nat | k < |t|
      ensures |s| == |t| && w(t[k]) == w(s[k]) && !('A' <= s[k] <= 'Z')
    {
      RespelledAt(t, p, d, k);
      FoldedChar(w, if k == p then d else t[k]);
    }
    RespelledAt(t, p, d, p);
    FoldedChar(w, d);
    assert FoldChar(t[p]) != FoldChar(s[p]);
  }

  /** Without them, some spelling resolves to a table that is not its ASCII case. */
  lemma Misspelling(w: CharFold, tables: seq<string>) returns (s: string, i: nat)
    requires Wider(w) && !PlainlySpelled(w, tables)
    ensures s !in tables && WideDenotes(w, tables, s, i) && !EqualFold(tables[i], s)
  {
    i :| i < |tables| && NoOtherAlike(w, tables, i) && !AllAlone(w, tables[i]);
    var t := tables[i];
    var p :| 0 <= p < |t| && !Alone(w, t[p]);
    var d :| w(d) == w(t[p]) && FoldChar(d) != FoldChar(t[p]);
    s := Respelled(t, p, d);
    RespelledIs(w, t, p, d);
    OnlyThatOne(w, tables, s, i);
  }

  lemma OnlyThatOne(w: CharFold, tables: seq<string>, s: string, i: nat)
    requires i < |tables| && NoOtherAlike(w, tables, i) && Folded(s) && Alike(w, tables[i], s)
      && !EqualFold(tables[i], s)
    ensures s !in tables && WideDenotes(w, tables, s, i)
  {
    forall j | 0 <= j < |tables| && Alike(w, tables[j], s)
      ensures j == i
    {
      assert Alike(w, s, tables[i]) && Alike(w, s, tables[j]);
      Through(w, s, tables[i], tables[j]);
    }
    assert Alikes(w, tables, s) == {i};
  }

  // ---- Policies and the resolver ----

  ghost predicate WideKeepsFold(w: CharFold, tables: seq<string>) {
    forall s :: Fold(WideResolve(w, tables, s)) == Fold(s)
  }

  lemma WideIsAscii(w: CharFold, tables: seq<string>, s: string)
    requires PlainlySpelled(w, tables)
    ensures EqualFold(WideResolve(w, tables, s), s)
  {
    if WideResolvable(w, tables, s) {
      var i: nat :| WideDenotes(w, tables, s, i);
      PlainResolves(w, tables, s, i);
    }
  }

  /** Binding a legacy policy keeps its key exactly in the plainly spelled catalogs. */
  lemma WideKeepsFoldIff(w: CharFold, tables: seq<string>)
    requires Wider(w)
    ensures WideKeepsFold(w, tables) <==> PlainlySpelled(w, tables)
  {
    if PlainlySpelled(w, tables) {
      forall s
        ensures Fold(WideResolve(w, tables, s)) == Fold(s)
      {
        WideIsAscii(w, tables, s);
      }
    } else {
      var s, i := Misspelling(w, tables);
      assert Fold(WideResolve(w, tables, s)) != Fold(s);
    }
  }

  /** A condition bound to a table matches a spelling exactly when the catalog takes the spelling for that table. */
  ghost predicate WideComparesByTable(w: CharFold, tables: seq<string>) {
    forall s, r :: WideResolvable(w, tables, s) && r in tables ==>
      (RelationEq(s, r) <==> WideResolve(w, tables, s) == r)
  }

  lemma WideComparedByTable(w: CharFold, tables: seq<string>, s: string, r: string)
    requires Wider(w) && PlainlySpelled(w, tables) && NoFoldedTwin(tables) && WideResolvable(w, tables, s)
      && r in tables
    ensures RelationEq(s, r) <==> WideResolve(w, tables, s) == r
  {
    var i: nat :| WideDenotes(w, tables, s, i);
    PlainResolves(w, tables, s, i);
    AsciiFollows(w, tables, s, i);
    ComparedByTable(tables, s, r);
  }

  lemma AsciiAlike(w: CharFold, a: string, b: string)
    requires Wider(w) && EqualFold(a, b)
    ensures Alike(w, a, b)
  {
    forall k | 0 <= k < |a|
      ensures w(a[k]) == w(b[k])
    {
      assert FoldChar(a[k]) == FoldChar(b[k]);
    }
  }

  /** Then the ASCII resolver gives the same answer. */
  lemma AsciiFollows(w: CharFold, tables: seq<string>, s: string, i: nat)
    requires Wider(w) && WideDenotes(w, tables, s, i) && EqualFold(tables[i], s)
    ensures Denotes(tables, s, i)
  {
    if s !in tables {
      forall j | j in Matches(tables, s)
        ensures j == i
      {
        AsciiAlike(w, tables[j], s);
        assert j in Alikes(w, tables, s);
      }
      assert Matches(tables, s) == {i};
    }
  }

  lemma WideComparesByTableIff(w: CharFold, tables: seq<string>)
    requires Wider(w)
    ensures WideComparesByTable(w, tables) <==> NoFoldedTwin(tables) && PlainlySpelled(w, tables)
  {
    if NoFoldedTwin(tables) && PlainlySpelled(w, tables) {
      forall s, r | WideResolvable(w, tables, s) && r in tables
        ensures RelationEq(s, r) <==> WideResolve(w, tables, s) == r
      {
        WideComparedByTable(w, tables, s, r);
      }
    }
    if !PlainlySpelled(w, tables) {
      NotByTable(w, tables);
    } else if WideComparesByTable(w, tables) {
      MustHaveNoTwin(w, tables);
    }
  }

  lemma NotByTable(w: CharFold, tables: seq<string>)
    requires Wider(w) && !PlainlySpelled(w, tables)
    ensures !WideComparesByTable(w, tables)
  {
    var s, i := Misspelling(w, tables);
    assert !RelationEq(s, tables[i]) && WideResolve(w, tables, s) == tables[i];
  }

  lemma MustHaveNoTwin(w: CharFold, tables: seq<string>)
    requires WideComparesByTable(w, tables)
    ensures NoFoldedTwin(tables)
  {
    forall a, b | a in tables && b in tables && Folded(a) && Fold(b) == a
      ensures a == b
    {
      FoldIsFolded(a);
      ItselfFirst(w, tables, a);
      assert RelationEq(a, b);
    }
  }

  /** A table whose ASCII fold is free and that no other equals in ASCII case is alike to no other either. */
  ghost predicate NoWideTwin(w: CharFold, tables: seq<string>) {
    forall i: nat :: i < |tables| && Fold(tables[i]) !in tables && Matches(tables, Fold(tables[i])) == {i} ==>
      NoOtherAlike(w, tables, i)
  }

  ghost predicate ResolversAgree(w: CharFold, tables: seq<string>) {
    forall s :: WideResolve(w, tables, s) == Resolve(tables, s)
  }

  lemma SameAnswer(w: CharFold, tables: seq<string>, s: string)
    requires Wider(w) && PlainlySpelled(w, tables) && NoWideTwin(w, tables)
    ensures WideResolve(w, tables, s) == Resolve(tables, s)
  {
    if WideResolvable(w, tables, s) {
      var i: nat :| WideDenotes(w, tables, s, i);
      PlainResolves(w, tables, s, i);
      AsciiFollows(w, tables, s, i);
    } else if Resolvable(tables, s) {
      var i: nat :| Denotes(tables, s, i);
      WideFollows(w, tables, s, i);
    } else {
      assert Resolve(tables, s) == s;
    }
  }

  lemma FoldedIs(t: string, s: string)
    requires Folded(s) && EqualFold(t, s)
    ensures s == Fold(t)
  {
    FoldIsFolded(s);
  }

  lemma WideFollows(w: CharFold, tables: seq<string>, s: string, i: nat)
    requires Wider(w) && NoWideTwin(w, tables) && Denotes(tables, s, i)
    ensures WideDenotes(w, tables, s, i)
  {
    if s !in tables {
      assert i in Matches(tables, s);
      FoldedIs(tables[i], s);
      AsciiAlike(w, tables[i], s);
      forall j | j in Alikes(w, tables, s)
        ensures j == i
      {
        assert Alike(w, s, tables[i]) && Alike(w, s, tables[j]);
        Through(w, s, tables[i], tables[j]);
      }
      assert Alikes(w, tables, s) == {i};
    }
  }

  /** The catalog's resolver is the ASCII one exactly when no table's case reaches past ASCII, in either way. */
  lemma ResolversAgreeIff(w: CharFold, tables: seq<string>)
    requires Wider(w)
    ensures ResolversAgree(w, tables) <==> PlainlySpelled(w, tables) && NoWideTwin(w, tables)
  {
    if PlainlySpelled(w, tables) && NoWideTwin(w, tables) {
      forall s
        ensures WideResolve(w, tables, s) == Resolve(tables, s)
      {
        SameAnswer(w, tables, s);
      }
    }
    if ResolversAgree(w, tables) {
      forall s
        ensures Fold(WideResolve(w, tables, s)) == Fold(s)
      {
        ResolveKeepsFold(tables, s);
      }
      WideKeepsFoldIff(w, tables);
      forall i: nat | i < |tables| && Fold(tables[i]) !in tables && Matches(tables, Fold(tables[i])) == {i}
        ensures NoOtherAlike(w, tables, i)
      {
        AgreeNoTwin(w, tables, i);
      }
    }
  }

  lemma AgreeNoTwin(w: CharFold, tables: seq<string>, i: nat)
    requires Wider(w) && ResolversAgree(w, tables)
    requires i < |tables| && Fold(tables[i]) !in tables && Matches(tables, Fold(tables[i])) == {i}
    ensures NoOtherAlike(w, tables, i)
  {
    var s := Fold(tables[i]);
    FoldIsFolded(tables[i]);
    FoldIsFolded(s);
    assert Denotes(tables, s, i);
    assert EqualFold(tables[i], s);
    AsciiAlike(w, tables[i], s);
    forall j | 0 <= j < |tables| && j != i
      ensures !Alike(w, tables[i], tables[j])
    {
      if Alike(w, tables[i], tables[j]) {
        Through(w, tables[i], tables[j], s);
        NeitherOf(w, tables, s, i, j);
      }
    }
  }

  lemma NeitherOf(w: CharFold, tables: seq<string>, s: string, i: nat, j: nat)
    requires s !in tables && i < |tables| && j < |tables| && i != j && Alike(w, tables[i], s) && Alike(w, tables[j], s)
    ensures WideResolve(w, tables, s) == s
  {
    if i < j {
      TwoAlike(w, tables, s, i, j);
    } else {
      TwoAlike(w, tables, s, j, i);
    }
  }

  /** A long s folds with s, so it reads the table `hits` and compares equal to no name of it. */
  lemma LongS(w: CharFold)
    requires Wider(w) && w('\U{017F}') == w('s')
    ensures WideResolve(w, ["hits"], "hit\U{017F}") == "hits" && !RelationEq("hit\U{017F}", "hits")
    ensures !WideComparesByTable(w, ["hits"]) && !WideKeepsFold(w, ["hits"])
  {
    var s, tables := "hit\U{017F}", ["hits"];
    assert tables[0] == "hits" && s[3] == '\U{017F}' && "hits"[3] == 's';
    assert NoOtherAlike(w, tables, 0);
    assert !EqualFold("hits", s);
    OnlyThatOne(w, tables, s, 0);
    assert WideDenotes(w, tables, s, 0);
  }
}
