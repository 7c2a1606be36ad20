/**
 Relation and column names: the identifier fold, the catalog's resolver, and the
 fold-aware comparison a policy is matched with.

 A table may be written in its own spelling or, unquoted, in its folded one. A
 spelling with an upper-case letter that is not byte-exact names nothing.
 */
module Names {
  import opened Options

  function FoldChar(c: char): char {
    if 'A' <= c <= 'Z' then c - 'A' + 'a' else c
  }

  /** The identifier fold: ASCII A-Z only. */
  function Fold(s: string): (r: string)
    ensures |r| == |s| && forall i :: 0 <= i < |s| ==> r[i] == FoldChar(s[i])
  {
    if s == "" then "" else [FoldChar(s[0])] + Fold(s[1..])
  }

  predicate Folded(s: string) {
    forall i :: 0 <= i < |s| ==> !('A' <= s[i] <= 'Z')
  }

  lemma FoldIsFolded(s: string)
    ensures Folded(Fold(s))
    ensures Folded(s) <==> Fold(s) == s
  {
  }

  /** Equal ignoring ASCII case. */
  predicate EqualFold(a: string, b: string)
    ensures EqualFold(a, b) <==> Fold(a) == Fold(b)
  {
    |a| == |b| && forall i :: 0 <= i < |a| ==> FoldChar(a[i]) == FoldChar(b[i])
  }

  /** The positions whose name is a fold-match. */
  ghost function Matches(names: seq<string>, name: string): (r: set<nat>)
    ensures forall i :: i in r <==> 0 <= i < |names| && EqualFold(names[i], name)
  {
    set i: nat | 0 <= i < |names| && EqualFold(names[i], name)
  }

  /** `i` is what the reference names: itself byte-exact, or the one fold-match of a folded reference. */
  ghost predicate Denotes(names: seq<string>, ref: string, i: nat) {
    && i < |names|
    && if ref in names then names[i] == ref else Folded(ref) && Matches(names, ref) == {i}
  }

  ghost predicate Resolvable(names: seq<string>, ref: string) {
    exists i: nat :: Denotes(names, ref, i)
  }

  /** The catalog's spelling of a reference, or the reference itself when nothing resolves. */
  ghost function Resolve(names: seq<string>, ref: string): (r: string)
    ensures r in names <==> Resolvable(names, ref)
    ensures forall i: nat :: Denotes(names, ref, i) ==> r == names[i]
  {
    if i: nat :| Denotes(names, ref, i) then Spelled(names, ref, i); names[i] else Unresolved(names, ref); ref
  }

  lemma Spelled(names: seq<string>, ref: string, i: nat)
    requires Denotes(names, ref, i)
    ensures names[i] in names && forall j: nat :: Denotes(names, ref, j) ==> names[j] == names[i]
  {
  }

  lemma Unresolved(names: seq<string>, ref: string)
    requires !Resolvable(names, ref)
    ensures ref !in names
  {
    forall i: nat | i < |names|
      ensures names[i] != ref
    {
      assert !Denotes(names, ref, i);
    }
  }

  /** Resolution changes a name's case and nothing else. */
  lemma ResolveKeepsFold(names: seq<string>, ref: string)
    ensures Fold(Resolve(names, ref)) == Fold(ref)
  {
  }

  lemma ResolveTwice(names: seq<string>, ref: string)
    requires Resolvable(names, ref)
    ensures Resolve(names, ref) in names && Resolvable(names, Resolve(names, ref))
    ensures Resolve(names, Resolve(names, ref)) == Resolve(names, ref)
  {
    var r := Resolve(names, ref);
    var i :| 0 <= i < |names| && names[i] == r;
    assert Denotes(names, r, i);
  }

  /** `ResolveSchemaIndex` over column names; None is the source's -1. */
  method ResolveIndex(names: seq<string>, ref: string) returns (r: Option<nat>)
    ensures r.Some? ==> Denotes(names, ref, r.value)
    ensures r.None? ==> !Resolvable(names, ref)
  {
    for i := 0 to |names|
      invariant ref !in names[..i]
    {
      if names[i] == ref {
        return Some(i);
      }
    }
    assert names[..|names|] == names;
    if !Folded(ref) {
      return None;
    }
    r := UniqueMatch(names, ref);
    if r.None? {
      forall i: nat | Denotes(names, ref, i)
        ensures false
      {
      }
    }
  }

  /** The only fold-match, if there is exactly one. */
  method UniqueMatch(names: seq<string>, ref: string) returns (found: Option<nat>)
    ensures found.Some? ==> Matches(names, ref) == {found.value}
    ensures found.None? ==> |Matches(names, ref)| != 1
  {
    found := None;
    for i := 0 to |names|
      invariant found.Some? ==> found.value < i && EqualFold(names[found.value], ref)
      invariant forall k :: 0 <= k < i && EqualFold(names[k], ref) ==> found == Some(k)
    {
      if EqualFold(names[i], ref) {
        if found.Some? {
          TwoMatches(names, ref, found.value, i);
          return None;
        }
        found := Some(i);
      }
    }
    if found.None? {
      assert Matches(names, ref) == {};
    }
  }

  lemma TwoMatches(names: seq<string>, ref: string, i: nat, j: nat)
    requires i < j < |names| && EqualFold(names[i], ref) && EqualFold(names[j], ref)
    ensures |Matches(names, ref)| >= 2
  {
    var two := {i, j};
    assert two <= Matches(names, ref);
    Subset(two, Matches(names, ref));
  }

  lemma {:induction false} Subset<A>(a: set<A>, b: set<A>)
    requires a <= b
    ensures |a| <= |b|
    decreases |a|
  {
    if a != {} {
      var x :| x in a;
      Subset(a - {x}, b - {x});
    }
  }

  /** The part before the first dot and the part after it; a name with no dot is all column. */
  function SplitQualifier(name: string, n: nat := 0): (string, string)
    requires n <= |name|
    decreases |name| - n
  {
    if n == |name| then ("", name)
    else if name[n] == '.' then (name[..n], name[n + 1..])
    else SplitQualifier(name, n + 1)
  }

  /** How a folded reference is matched with a schema column: the qualifier byte-exact, the column folded. */
  predicate FoldedNameMatches(schemaName: string, ref: string) {
    var (sq, sc) := SplitQualifier(schemaName);
    var (rq, rc) := SplitQualifier(ref);
    sq == rq && EqualFold(sc, rc)
  }

  lemma {:induction false} NoQualifier(name: string, n: nat)
    requires n <= |name| && '.' !in name
    ensures SplitQualifier(name, n) == ("", name)
    decreases |name| - n
  {
    if n < |name| {
      NoQualifier(name, n + 1);
    }
  }

  /** For names without a dot that is the match the resolver above uses. */
  lemma UnqualifiedFoldWhole(schemaName: string, ref: string)
    requires '.' !in schemaName && '.' !in ref
    ensures FoldedNameMatches(schemaName, ref) <==> EqualFold(schemaName, ref)
  {
    NoQualifier(schemaName, 0);
    NoQualifier(ref, 0);
  }

  method ResolveTableName(tables: seq<string>, name: string) returns (r: string)
    ensures name != "" ==> r == Resolve(tables, name)
    ensures name == "" ==> r == ""
  {
    if name == "" {
      return name;
    }
    var i := ResolveIndex(tables, name);
    return if i.Some? then tables[i.value] else name;
  }

  // ---- Comparing a statement's spelling with a policy's ----

  /** Byte-exact, or equal under the fold when one of the two is folded already. */
  predicate RelationEq(a: string, b: string) {
    a == b || ((Folded(a) || Folded(b)) && EqualFold(a, b))
  }

  lemma QuotedEqualsUnquoted()
    ensures RelationEq("Hits", "hits")
  {
  }

  lemma ShoutedEqualsUnquoted()
    ensures RelationEq("hits", "HITS")
  {
  }

  lemma QuotedDiffersFromShouted()
    ensures !RelationEq("Hits", "HITS")
  {
    assert "Hits"[1] == 'i' && "HITS"[1] == 'I' && "Hits"[0] == 'H' && "HITS"[0] == 'H';
  }

  /** Two delimited spellings of one unquoted name are each equal to it and not to each other. */
  lemma RelationEqIsNotTransitive()
    ensures RelationEq("Hits", "hits") && RelationEq("hits", "HITS") && !RelationEq("Hits", "HITS")
  {
    QuotedEqualsUnquoted();
    ShoutedEqualsUnquoted();
    QuotedDiffersFromShouted();
  }

  ghost predicate NoTwins(tables: seq<string>) {
    forall i, j :: 0 <= i < j < |tables| ==> !EqualFold(tables[i], tables[j])
  }

  /** No table's folded spelling is another table. */
  ghost predicate NoFoldedTwin(tables: seq<string>) {
    forall a, b :: a in tables && b in tables && Folded(a) && Fold(b) == a ==> a == b
  }

  /** A condition bound to a table matches a spelling exactly when the spelling names that table. */
  ghost predicate ComparesByTable(tables: seq<string>) {
    forall s, r :: Resolvable(tables, s) && r in tables ==> (RelationEq(s, r) <==> Resolve(tables, s) == r)
  }

  lemma ComparedByTable(tables: seq<string>, s: string, r: string)
    requires NoFoldedTwin(tables) && Resolvable(tables, s) && r in tables
    ensures RelationEq(s, r) <==> Resolve(tables, s) == r
  {
  }

  /** Bound names mean the relation, exactly in the catalogs where no folded name has a twin. */
  lemma ComparesByTableIff(tables: seq<string>)
    ensures ComparesByTable(tables) <==> NoFoldedTwin(tables)
  {
    if NoFoldedTwin(tables) {
      forall s, r | Resolvable(tables, s) && r in tables
        ensures RelationEq(s, r) <==> Resolve(tables, s) == r
      {
        ComparedByTable(tables, s, r);
      }
    }
    if ComparesByTable(tables) {
      forall a, b | a in tables && b in tables && Folded(a) && Fold(b) == a
        ensures a == b
      {
        FoldIsFolded(a);
        var i :| 0 <= i < |tables| && tables[i] == a;
        assert Denotes(tables, a, i);
        assert RelationEq(a, b);
      }
    }
  }

  /** With tables `hits` and `Hits`, `hits` names the one and compares equal to both. */
  lemma TwinComparesToo()
    ensures RelationEq("hits", "Hits") && Resolve(["hits", "Hits"], "hits") == "hits"
      && !ComparesByTable(["hits", "Hits"])
  {
    var tables := ["hits", "Hits"];
    assert tables[0] == "hits" && tables[1] == "Hits";
    assert Denotes(tables, "hits", 0);
    assert "Hits"[0] == 'H' && "hits"[0] == 'h';
  }

  lemma NoTwinsIsEnough(tables: seq<string>)
    requires NoTwins(tables)
    ensures NoFoldedTwin(tables)
  {
  }

  /** Without twins, two spellings with one fold that both resolve name one table. */
  lemma OneFoldOneTable(tables: seq<string>, s: string, t: string)
    requires NoTwins(tables) && Resolvable(tables, s) && Resolvable(tables, t) && Fold(s) == Fold(t)
    ensures Resolve(tables, s) == Resolve(tables, t)
  {
  }
}
