/**
 Binding a policy set to a catalog: every relation and column name it mentions is
 resolved and rewritten to the catalog's spelling, in a copy, or the whole set is
 refused.
 */
module Bindings {
  import opened Options
  import opened Names
  import opened Policies
  import opened Spaces

  /** The registered tables, and the columns of each one that can be read. */
  datatype Relations = Relations(tables: seq<string>, columns: map<string, seq<string>>)

  // ---- Names ----

  ghost predicate Ambiguous(tables: seq<string>, name: string) {
    Folded(name) && name !in tables && |Matches(tables, name)| >= 2
  }

  ghost function BoundRelation(cat: Relations, name: string): Option<string> {
    var r := Resolve(cat.tables, name);
    if Ambiguous(cat.tables, name) || r !in cat.columns then None else Some(r)
  }

  method ResolveRelation(cat: Relations, name: string) returns (r: Option<string>)
    ensures r == BoundRelation(cat, name)
  {
    var amb := AmbiguousTableNames(cat.tables, name);
    if amb {
      return None;
    }
    var resolved := ResolveTableName(cat.tables, name);
    EmptyName(cat.tables);
    return if resolved in cat.columns then Some(resolved) else None;
  }

  lemma EmptyName(tables: seq<string>)
    ensures Resolve(tables, "") == ""
  {
  }

  /** Whether the catalog declines the reference because two or more tables fold-match it. */
  method AmbiguousTableNames(tables: seq<string>, name: string) returns (amb: bool)
    ensures amb <==> Ambiguous(tables, name)
  {
    if !Folded(name) {
      return false;
    }
    var matches := 0;
    ghost var seen: set<nat> := {};
    for i := 0 to |tables|
      invariant name !in tables[..i]
      invariant seen == Matches(tables[..i], name) && matches == |seen|
    {
      MatchesNext(tables, name, i);
      if tables[i] == name {
        return false;
      }
      if EqualFold(tables[i], name) {
        matches := matches + 1;
        seen := seen + {i};
      }
    }
    assert tables[..|tables|] == tables;
    return matches >= 2;
  }

  lemma MatchesNext(tables: seq<string>, name: string, i: nat)
    requires i < |tables|
    ensures i !in Matches(tables[..i], name)
    ensures Matches(tables[..i + 1], name) ==
            Matches(tables[..i], name) + (if EqualFold(tables[i], name) then {i} else {})
  {
  }

  /** A bound name stays what it is when bound again, and folds as it did before. */
  lemma BoundRelationTwice(cat: Relations, name: string)
    requires BoundRelation(cat, name).Some?
    ensures var r := BoundRelation(cat, name).value;
      BoundRelation(cat, r) == Some(r) && Fold(r) == Fold(name)
  {
  }

  /** The one name every relation gives the column, checked relation by relation. */
  ghost function BoundColumn(cat: Relations, rels: seq<string>, target: string): Option<string> {
    if rels == [] then Some("")
    else
      var rel, prev := rels[|rels| - 1], BoundColumn(cat, rels[..|rels| - 1], target);
      if prev.None? || rel !in cat.columns || !Resolvable(cat.columns[rel], target) then None
      else
        var name := Resolve(cat.columns[rel], target);
        if prev.value != "" && prev.value != name then None else Some(name)
  }

  method ResolveColumn(cat: Relations, rels: seq<string>, target: string) returns (r: Option<string>)
    ensures r == BoundColumn(cat, rels, target)
  {
    var resolved := "";
    for n := 0 to |rels|
      invariant BoundColumn(cat, rels[..n], target) == Some(resolved)
    {
      assert rels[..n + 1][..n] == rels[..n];
      var i: Option<nat> := None;
      if rels[n] in cat.columns {
        i := ResolveIndex(cat.columns[rels[n]], target);
      }
      if i.None? {
        ColumnStops(cat, rels, target, n + 1);
        return None;
      }
      var name := cat.columns[rels[n]][i.value];
      if resolved != "" && resolved != name {
        ColumnStops(cat, rels, target, n + 1);
        return None;
      }
      resolved := name;
    }
    assert rels[..|rels|] == rels;
    return Some(resolved);
  }

  lemma {:induction false} ColumnStops(cat: Relations, rels: seq<string>, target: string, n: nat)
    requires n <= |rels| && BoundColumn(cat, rels[..n], target).None?
    ensures BoundColumn(cat, rels, target).None?
    decreases |rels|
  {
    if n < |rels| {
      assert rels[..|rels| - 1][..n] == rels[..n];
      ColumnStops(cat, rels[..|rels| - 1], target, n);
    } else {
      assert rels[..n] == rels;
    }
  }

  /** A bound column is one every named relation has, spelled as each of them spells it. */
  lemma {:induction false} BoundColumnMeans(cat: Relations, rels: seq<string>, target: string)
    requires BoundColumn(cat, rels, target).Some? && target != ""
    ensures var name := BoundColumn(cat, rels, target).value;
      && (rels != [] ==> Fold(name) == Fold(target) && name != "")
      && forall i :: 0 <= i < |rels| ==> rels[i] in cat.columns && name in cat.columns[rels[i]]
  {
    if rels != [] {
      var init, rel := rels[..|rels| - 1], rels[|rels| - 1];
      BoundColumnMeans(cat, init, target);
      ResolveKeepsFold(cat.columns[rel], target);
      assert forall i :: 0 <= i < |init| ==> init[i] == rels[i];
    }
  }

  lemma {:induction false} BoundColumnTwice(cat: Relations, rels: seq<string>, name: string)
    requires name != "" && rels != []
    requires forall i :: 0 <= i < |rels| ==> rels[i] in cat.columns && name in cat.columns[rels[i]]
    ensures BoundColumn(cat, rels, name) == Some(name)
  {
    var init, rel := rels[..|rels| - 1], rels[|rels| - 1];
    if init != [] {
      BoundColumnTwice(cat, init, name);
    }
    var i :| 0 <= i < |cat.columns[rel]| && cat.columns[rel][i] == name;
    assert Denotes(cat.columns[rel], name, i);
  }

  // ---- Rules ----

  const TABLE := "table"

  /** The rule's type conditions pin it to resources that are not tables. */
  predicate ScopesNonRelation(rule: Rule) {
    && (exists i :: 0 <= i < |rule.resources| && rule.resources[i].attribute == "resource.type")
    && (forall i :: 0 <= i < |rule.resources| && rule.resources[i].attribute == "resource.type" ==>
          PinsOther(rule.resources[i]))
  }

  /** One type condition that says "not a table". */
  predicate PinsOther(c: Condition) {
    match c.op
    case Eq => c.value.Str? && c.value.s != TABLE
    case In => c.value.List? && c.value.strings && c.value.items != [] && TABLE !in c.value.items
    case _ => false
  }

  /** The list with every name but the wildcard bound. */
  ghost function BoundItems(cat: Relations, items: seq<string>): Option<seq<string>> {
    if items == [] then Some([])
    else
      var init, last := BoundItems(cat, items[..|items| - 1]), items[|items| - 1];
      if init.None? then None
      else if last == "*" then Some(init.value + [last])
      else if BoundRelation(cat, last).None? then None
      else Some(init.value + [BoundRelation(cat, last).value])
  }

  function Relational(items: seq<string>): seq<string> {
    if items == [] then []
    else Relational(items[..|items| - 1]) + (if items[|items| - 1] == "*" then [] else [items[|items| - 1]])
  }

  /** A condition that names relations; any other is left as it is. */
  predicate NamesRelations(c: Condition) {
    RelationAttribute(c.attribute)
    && (((c.op.Eq? || c.op.Neq?) && c.value.Str?) || ((c.op.In? || c.op.NotIn?) && c.value.List? && c.value.strings))
  }

  ghost function BoundCondition(cat: Relations, c: Condition): Option<Condition> {
    if !NamesRelations(c) then Some(c)
    else if c.value.Str? then
      var r := BoundRelation(cat, c.value.s);
      if r.None? then None else Some(c.(value := Str(r.value)))
    else
      var items := BoundItems(cat, c.value.items);
      if items.None? then None else Some(c.(value := List(items.value, true)))
  }

  /** The relations a bound condition scopes its rule to. */
  function Scope(c: Condition): seq<string> {
    if !NamesRelations(c) then []
    else if c.op.Eq? then [c.value.s]
    else if c.op.In? then Relational(c.value.items)
    else []
  }

  ghost function BoundConditions(cat: Relations, cs: seq<Condition>): Option<seq<Condition>> {
    if cs == [] then Some([])
    else
      var init, last := BoundConditions(cat, cs[..|cs| - 1]), BoundCondition(cat, cs[|cs| - 1]);
      if init.None? || last.None? then None else Some(init.value + [last.value])
  }

  function Scopes(cs: seq<Condition>): seq<string> {
    if cs == [] then [] else Scopes(cs[..|cs| - 1]) + Scope(cs[|cs| - 1])
  }

  predicate NamesColumn(ob: Obligation) {
    (ob.DenyColumn? || ob.MaskColumn?) && Trim(ob.target) != ""
  }

  ghost function BoundObligation(cat: Relations, named: seq<string>, ob: Obligation): Option<Obligation> {
    if !NamesColumn(ob) then Some(ob)
    else
      var r := BoundColumn(cat, named, Trim(ob.target));
      if r.None? then None else Some(ob.(target := r.value))
  }

  ghost function BoundObligations(cat: Relations, named: seq<string>, obs: seq<Obligation>): Option<seq<Obligation>> {
    if obs == [] || named == [] then Some(obs)
    else
      var init := BoundObligations(cat, named, obs[..|obs| - 1]);
      var last := BoundObligation(cat, named, obs[|obs| - 1]);
      if init.None? || last.None? then None else Some(init.value + [last.value])
  }

  ghost function BoundRule(cat: Relations, rule: Rule): Option<Rule> {
    if ScopesNonRelation(rule) then Some(rule)
    else
      var resources := BoundConditions(cat, rule.resources);
      if resources.None? then None
      else
        var obligations := BoundObligations(cat, Scopes(resources.value), rule.obligations);
        if obligations.None? then None
        else Some(rule.(resources := resources.value, obligations := obligations.value))
  }

  // ---- What binding comes to, from the rule as written ----

  /** The name is found: a table that can be read, and in a catalog of its tables the one the name denotes. */
  lemma BoundRelationMeans(cat: Relations, name: string, t: string)
    requires forall x :: x in cat.columns ==> x in cat.tables
    ensures BoundRelation(cat, name) == Some(t) <==>
            t in cat.columns && exists i: nat :: Denotes(cat.tables, name, i) && cat.tables[i] == t
  {
    var r := Resolve(cat.tables, name);
    if i: nat :| Denotes(cat.tables, name, i) {
      assert r == cat.tables[i];
      if name !in cat.tables {
        assert Matches(cat.tables, name) == {i};
      }
    } else {
      assert r !in cat.tables;
    }
  }

  /** A type condition that leaves tables out: it names other types, and them alone. */
  ghost predicate LeavesTablesOut(c: Condition) {
    || (c.op.Eq? && exists t :: c.value == Str(t) && t != "table")
    || (c.op.In? && c.value.List? && c.value.strings && c.value.items != [] && "table" !in c.value.items)
  }

  /** A rule about resources that are no tables: it says the type, and says it so everywhere. */
  ghost predicate AboutOthers(rule: Rule) {
    && (exists c :: c in rule.resources && c.attribute == "resource.type")
    && (forall c :: c in rule.resources && c.attribute == "resource.type" ==> LeavesTablesOut(c))
  }

  /** The condition names the relation; `eq` and `in` as what the resource is, `neq` and `not_in` as what it is not. */
  ghost predicate Mentions(c: Condition, name: string) {
    && c.attribute in {"resource.name", "resource.table"}
    && (|| ((c.op.Eq? || c.op.Neq?) && c.value == Str(name))
        || ((c.op.In? || c.op.NotIn?) && c.value.List? && c.value.strings && name in c.value.items && name != "*"))
  }

  ghost predicate MentionsAs(c: Condition, name: string) {
    (c.op.Eq? || c.op.In?) && Mentions(c, name)
  }

  /** `t` is a table the rule is scoped to: what a name in one of its `eq` and `in` conditions is bound to. */
  ghost predicate ScopedTo(cat: Relations, cs: seq<Condition>, t: string) {
    exists c, w :: c in cs && MentionsAs(c, w) && BoundRelation(cat, w) == Some(t)
  }

  /** Every table the rule is scoped to has the column, and spells it `name`. */
  ghost predicate OneColumn(cat: Relations, cs: seq<Condition>, target: string, name: string) {
    forall t :: ScopedTo(cat, cs, t) ==> HasColumn(cat, t, target, name)
  }

  ghost predicate HasColumn(cat: Relations, t: string, target: string, name: string) {
    t in cat.columns && exists i: nat :: Denotes(cat.columns[t], target, i) && cat.columns[t][i] == name
  }

  /** The column an obligation is about, if it says so. */
  ghost function Target(ob: Obligation): string {
    match ob
    case DenyColumn(target) => Trim(target)
    case MaskColumn(target, _, _) => Trim(target)
    case _ => ""
  }

  /** Every relation mentioned is found, and every column is one column of all the tables in scope. */
  ghost predicate Binds(cat: Relations, rule: Rule) {
    || AboutOthers(rule)
    || (&& (forall c, w :: c in rule.resources && Mentions(c, w) ==> BoundRelation(cat, w).Some?)
        && (forall ob :: ob in rule.obligations && Target(ob) != "" ==>
              exists name :: OneColumn(cat, rule.resources, Target(ob), name)))
  }

  /** The condition with the names it mentions in the catalog's spelling, the wildcard being none. */
  ghost predicate IsBoundCondition(cat: Relations, c: Condition, d: Condition) {
    && d == c.(value := d.value)
    && match c.value
       case Str(w) => if Mentions(c, w) then d.value.Str? && BoundRelation(cat, w) == Some(d.value.s) else d == c
       case Scalar(_) => d == c
       case List(items, strings) =>
         if c.attribute in {"resource.name", "resource.table"} && (c.op.In? || c.op.NotIn?) && strings
         then
           && d.value.List? && d.value.strings && |d.value.items| == |items|
           && forall k :: 0 <= k < |items| ==>
                if items[k] == "*" then d.value.items[k] == "*"
                else BoundRelation(cat, items[k]) == Some(d.value.items[k])
         else d == c
  }

  /** The obligation with its column in the spelling of the tables in scope; with none in scope, as it was. */
  ghost predicate IsBoundObligation(cat: Relations, cs: seq<Condition>, ob: Obligation, bound: Obligation) {
    if Target(ob) == "" || !(exists t :: ScopedTo(cat, cs, t)) then bound == ob
    else
      match (ob, bound)
      case (DenyColumn(_), DenyColumn(name)) => OneColumn(cat, cs, Target(ob), name)
      case (MaskColumn(_, f, v), MaskColumn(name, g, w)) => f == g && v == w && OneColumn(cat, cs, Target(ob), name)
      case _ => false
  }

  ghost predicate IsBound(cat: Relations, rule: Rule, out: Rule) {
    && out == rule.(resources := out.resources, obligations := out.obligations)
    && |out.resources| == |rule.resources| && |out.obligations| == |rule.obligations|
    && if AboutOthers(rule) then out == rule
       else
         && (forall k :: 0 <= k < |rule.resources| ==> IsBoundCondition(cat, rule.resources[k], out.resources[k]))
         && (forall k :: 0 <= k < |rule.obligations| ==>
               IsBoundObligation(cat, rule.resources, rule.obligations[k], out.obligations[k]))
  }

  lemma AboutOthersMeans(rule: Rule)
    ensures ScopesNonRelation(rule) <==> AboutOthers(rule)
  {
    forall c: Condition
      ensures PinsOther(c) <==> LeavesTablesOut(c)
    {
    }
    if ScopesNonRelation(rule) {
      forall c | c in rule.resources && c.attribute == "resource.type"
        ensures LeavesTablesOut(c)
      {
        var i :| 0 <= i < |rule.resources| && rule.resources[i] == c;
      }
    }
  }

  /** So a bound column is, as it is spelled, a column of every table in scope. */
  lemma BoundTargetIsColumn(cat: Relations, rule: Rule, out: Rule, k: nat, t: string)
    requires IsBound(cat, rule, out) && !AboutOthers(rule)
    requires k < |rule.obligations| && Target(rule.obligations[k]) != ""
    requires ScopedTo(cat, rule.resources, t)
    ensures (out.obligations[k].DenyColumn? || out.obligations[k].MaskColumn?)
      && t in cat.columns && out.obligations[k].target in cat.columns[t]
      && Fold(out.obligations[k].target) == Fold(Target(rule.obligations[k]))
  {
    assert IsBoundObligation(cat, rule.resources, rule.obligations[k], out.obligations[k]);
    var name := out.obligations[k].target;
    assert HasColumn(cat, t, Target(rule.obligations[k]), name);
  }

  /** Nothing is lost by leaving such a rule alone: it speaks about no table. */
  lemma OthersNeverSpeak(rule: Rule, attrs: Attrs, action: Action)
    requires AboutOthers(rule) && "resource.type" in attrs && attrs["resource.type"] == "table"
    ensures !RuleMatches(rule, attrs, action)
  {
    var c :| c in rule.resources && c.attribute == "resource.type";
    var i :| 0 <= i < |rule.resources| && rule.resources[i] == c;
    assert LeavesTablesOut(c);
    assert !MatchCondition(rule.resources[i], attrs);
  }

  lemma {:induction false} ItemsMean(cat: Relations, items: seq<string>)
    ensures BoundItems(cat, items).Some? <==> forall w :: w in items && w != "*" ==> BoundRelation(cat, w).Some?
    ensures BoundItems(cat, items).Some? ==>
      var out := BoundItems(cat, items).value;
      && |out| == |items|
      && forall k :: 0 <= k < |items| ==>
           if items[k] == "*" then out[k] == "*" else BoundRelation(cat, items[k]) == Some(out[k])
  {
    if items != [] {
      var init, last := items[..|items| - 1], items[|items| - 1];
      assert items == init + [last];
      ItemsMean(cat, init);
    }
  }

  lemma ConditionBound(cat: Relations, c: Condition)
    ensures BoundCondition(cat, c).Some? <==> forall w :: Mentions(c, w) ==> BoundRelation(cat, w).Some?
    ensures BoundCondition(cat, c).Some? ==> IsBoundCondition(cat, c, BoundCondition(cat, c).value)
  {
    if NamesRelations(c) {
      if c.value.Str? {
        assert Mentions(c, c.value.s);
      } else {
        ItemsMean(cat, c.value.items);
        assert forall w :: Mentions(c, w) <==> w in c.value.items && w != "*";
      }
    } else {
      assert forall w :: !Mentions(c, w);
    }
  }

  lemma {:induction false} ConditionsBound(cat: Relations, cs: seq<Condition>)
    ensures BoundConditions(cat, cs).Some? <==>
            forall c, w :: c in cs && Mentions(c, w) ==> BoundRelation(cat, w).Some?
    ensures BoundConditions(cat, cs).Some? ==>
      var out := BoundConditions(cat, cs).value;
      |out| == |cs| && forall k :: 0 <= k < |cs| ==> BoundCondition(cat, cs[k]) == Some(out[k])
  {
    if cs != [] {
      var init, last := cs[..|cs| - 1], cs[|cs| - 1];
      assert cs == init + [last];
      ConditionsBound(cat, init);
      ConditionBound(cat, last);
    }
  }

  lemma {:induction false} RelationalMembers(items: seq<string>, t: string)
    ensures t in Relational(items) <==> t in items && t != "*"
  {
    if items != [] {
      var init, last := items[..|items| - 1], items[|items| - 1];
      assert items == init + [last];
      RelationalMembers(init, t);
    }
  }

  /** Only the wildcard is bound to the wildcard. */
  lemma StarIsItself(cat: Relations, w: string)
    ensures BoundRelation(cat, w) == Some("*") ==> w == "*"
  {
    if BoundRelation(cat, w) == Some("*") {
      ResolveKeepsFold(cat.tables, w);
      assert |Fold(w)| == 1 && Fold(w)[0] == FoldChar(w[0]) && Fold("*")[0] == '*';
    }
  }

  lemma ScopeMembers(cat: Relations, c: Condition, t: string)
    requires BoundCondition(cat, c).Some?
    ensures t in Scope(BoundCondition(cat, c).value) <==>
            exists w :: MentionsAs(c, w) && BoundRelation(cat, w) == Some(t)
  {
    var d := BoundCondition(cat, c).value;
    ConditionBound(cat, c);
    if NamesRelations(c) && c.op.Eq? {
      assert MentionsAs(c, c.value.s);
    } else if NamesRelations(c) && c.op.In? {
      RelationalMembers(d.value.items, t);
      InScopeMembers(cat, c, d, t);
    }
  }

  lemma InScopeMembers(cat: Relations, c: Condition, d: Condition, t: string)
    requires NamesRelations(c) && c.op.In? && IsBoundCondition(cat, c, d)
    ensures t in d.value.items && t != "*" <==> exists w :: MentionsAs(c, w) && BoundRelation(cat, w) == Some(t)
  {
    var items := c.value.items;
    if t in d.value.items && t != "*" {
      var k :| 0 <= k < |items| && d.value.items[k] == t;
      assert MentionsAs(c, items[k]);
    }
    if w :| MentionsAs(c, w) && BoundRelation(cat, w) == Some(t) {
      var k :| 0 <= k < |items| && items[k] == w;
      StarIsItself(cat, w);
      assert d.value.items[k] == t;
    }
  }

  lemma {:induction false} ScopesMembers(cat: Relations, cs: seq<Condition>, t: string)
    requires BoundConditions(cat, cs).Some?
    ensures t in Scopes(BoundConditions(cat, cs).value) <==> ScopedTo(cat, cs, t)
  {
    if cs != [] {
      var init, last := cs[..|cs| - 1], cs[|cs| - 1];
      assert cs == init + [last];
      var out := BoundConditions(cat, cs).value;
      assert out[..|out| - 1] == BoundConditions(cat, init).value;
      ScopesMembers(cat, init, t);
      ScopeMembers(cat, last, t);
    }
  }

  /** `out` is the conditions bound one by one, and `named` the relations they scope the rule to. */
  ghost predicate AreBound(cat: Relations, cs: seq<Condition>, out: seq<Condition>, named: seq<string>) {
    && |out| == |cs| && (forall i :: 0 <= i < |cs| ==> IsBoundCondition(cat, cs[i], out[i]))
    && (forall t :: t in named <==> ScopedTo(cat, cs, t))
  }

  lemma BoundConditionsMean(cat: Relations, cs: seq<Condition>)
    requires BoundConditions(cat, cs).Some?
    ensures var out := BoundConditions(cat, cs).value; AreBound(cat, cs, out, Scopes(out))
  {
    ConditionsBound(cat, cs);
    forall i | 0 <= i < |cs|
      ensures IsBoundCondition(cat, cs[i], BoundConditions(cat, cs).value[i])
    {
      ConditionBound(cat, cs[i]);
    }
    forall t
      ensures t in Scopes(BoundConditions(cat, cs).value) <==> ScopedTo(cat, cs, t)
    {
      ScopesMembers(cat, cs, t);
    }
  }

  lemma ColumnResolves(cat: Relations, t: string, target: string, name: string)
    ensures HasColumn(cat, t, target, name) <==>
            t in cat.columns && Resolvable(cat.columns[t], target) && Resolve(cat.columns[t], target) == name
  {
    if t in cat.columns && Resolvable(cat.columns[t], target) {
      var i: nat :| Denotes(cat.columns[t], target, i);
    }
  }

  ghost predicate AllHave(cat: Relations, rels: seq<string>, target: string, name: string) {
    forall t :: t in rels ==> HasColumn(cat, t, target, name)
  }

  lemma AllHaveNext(cat: Relations, init: seq<string>, last: string, target: string, name: string)
    ensures AllHave(cat, init + [last], target, name) <==>
            AllHave(cat, init, target, name) && HasColumn(cat, last, target, name)
  {
    assert forall t :: t in init + [last] <==> t in init || t == last;
  }

  lemma ColumnNext(cat: Relations, init: seq<string>, last: string, target: string, name: string)
    requires target != ""
    ensures BoundColumn(cat, init + [last], target) == Some(name) <==>
            (init == [] || BoundColumn(cat, init, target) == Some(name)) && HasColumn(cat, last, target, name)
  {
    assert (init + [last])[..|init|] == init;
    ColumnResolves(cat, last, target, name);
    if init != [] {
      EarlierName(cat, init, target);
    }
  }

  lemma {:induction false} BoundColumnIff(cat: Relations, rels: seq<string>, target: string, name: string)
    requires rels != [] && target != ""
    ensures BoundColumn(cat, rels, target) == Some(name) <==> AllHave(cat, rels, target, name)
  {
    var init, last := rels[..|rels| - 1], rels[|rels| - 1];
    assert rels == init + [last];
    AllHaveNext(cat, init, last, target, name);
    ColumnNext(cat, init, last, target, name);
    if init != [] {
      BoundColumnIff(cat, init, target, name);
    }
  }

  lemma EarlierName(cat: Relations, init: seq<string>, target: string)
    requires init != [] && target != ""
    ensures BoundColumn(cat, init, target).Some? ==> BoundColumn(cat, init, target).value != ""
  {
    if BoundColumn(cat, init, target).Some? {
      BoundColumnMeans(cat, init, target);
    }
  }

  lemma ColumnInScope(cat: Relations, cs: seq<Condition>, target: string, name: string)
    requires BoundConditions(cat, cs).Some? && Scopes(BoundConditions(cat, cs).value) != [] && target != ""
    ensures BoundColumn(cat, Scopes(BoundConditions(cat, cs).value), target) == Some(name) <==>
            OneColumn(cat, cs, target, name)
  {
    var rels := Scopes(BoundConditions(cat, cs).value);
    forall t
      ensures t in rels <==> ScopedTo(cat, cs, t)
    {
      ScopesMembers(cat, cs, t);
    }
    BoundColumnIff(cat, rels, target, name);
  }

  lemma TargetMeans(ob: Obligation)
    ensures NamesColumn(ob) <==> Target(ob) != ""
    ensures NamesColumn(ob) ==> Target(ob) == Trim(ob.target)
  {
  }

  lemma ObligationBound(cat: Relations, cs: seq<Condition>, ob: Obligation)
    requires BoundConditions(cat, cs).Some? && Scopes(BoundConditions(cat, cs).value) != []
    ensures var r := BoundObligation(cat, Scopes(BoundConditions(cat, cs).value), ob);
      && (r.Some? <==> (Target(ob) != "" ==> exists name :: OneColumn(cat, cs, Target(ob), name)))
      && (r.Some? ==> IsBoundObligation(cat, cs, ob, r.value))
  {
    var rels := Scopes(BoundConditions(cat, cs).value);
    TargetMeans(ob);
    ScopesMembers(cat, cs, rels[0]);
    if NamesColumn(ob) {
      forall name
        ensures BoundColumn(cat, rels, Target(ob)) == Some(name) <==> OneColumn(cat, cs, Target(ob), name)
      {
        ColumnInScope(cat, cs, Target(ob), name);
      }
    }
  }

  lemma {:induction false} ObligationsBound(cat: Relations, named: seq<string>, obs: seq<Obligation>)
    requires named != []
    ensures var r := BoundObligations(cat, named, obs);
      && (r.Some? <==> forall ob :: ob in obs ==> BoundObligation(cat, named, ob).Some?)
      && (r.Some? ==>
            && |r.value| == |obs|
            && forall k :: 0 <= k < |obs| ==> BoundObligation(cat, named, obs[k]) == Some(r.value[k]))
  {
    if obs != [] {
      var init, last := obs[..|obs| - 1], obs[|obs| - 1];
      assert obs == init + [last];
      ObligationsBound(cat, named, init);
    }
  }

  lemma NothingInScope(cat: Relations, cs: seq<Condition>)
    requires BoundConditions(cat, cs).Some? && Scopes(BoundConditions(cat, cs).value) == []
    ensures forall t :: !ScopedTo(cat, cs, t)
  {
    forall t
      ensures !ScopedTo(cat, cs, t)
    {
      ScopesMembers(cat, cs, t);
    }
  }

  lemma ObligationsLoad(cat: Relations, rule: Rule)
    requires BoundConditions(cat, rule.resources).Some?
    ensures var r := BoundObligations(cat, Scopes(BoundConditions(cat, rule.resources).value), rule.obligations);
      && (r.Some? <==> forall ob :: ob in rule.obligations && Target(ob) != "" ==>
                         exists name :: OneColumn(cat, rule.resources, Target(ob), name))
      && (r.Some? ==>
            && |r.value| == |rule.obligations|
            && forall k :: 0 <= k < |rule.obligations| ==>
                 IsBoundObligation(cat, rule.resources, rule.obligations[k], r.value[k]))
  {
    var named := Scopes(BoundConditions(cat, rule.resources).value);
    if named == [] {
      NothingInScope(cat, rule.resources);
      forall ob | ob in rule.obligations
        ensures OneColumn(cat, rule.resources, Target(ob), "")
      {
      }
    } else {
      ObligationsBound(cat, named, rule.obligations);
      forall ob
        ensures var r := BoundObligation(cat, named, ob);
          && (r.Some? <==> (Target(ob) != "" ==> exists name :: OneColumn(cat, rule.resources, Target(ob), name)))
          && (r.Some? ==> IsBoundObligation(cat, rule.resources, ob, r.value))
      {
        ObligationBound(cat, rule.resources, ob);
      }
    }
  }

  /**
   A rule binds if and only if it is about other resources, or every relation it mentions
   is found and every column it polices is one column of all tables in scope; and then
   the bound rule has the catalog's spellings, and is otherwise the rule.
   */
  lemma BoundRuleMeans(cat: Relations, rule: Rule)
    ensures BoundRule(cat, rule).Some? <==> Binds(cat, rule)
    ensures BoundRule(cat, rule).Some? ==> IsBound(cat, rule, BoundRule(cat, rule).value)
  {
    AboutOthersMeans(rule);
    if !AboutOthers(rule) {
      ConditionsBound(cat, rule.resources);
      if BoundConditions(cat, rule.resources).Some? {
        ObligationsLoad(cat, rule);
        forall k | 0 <= k < |rule.resources|
          ensures IsBoundCondition(cat, rule.resources[k], BoundConditions(cat, rule.resources).value[k])
        {
          ConditionBound(cat, rule.resources[k]);
        }
      }
    }
  }

  // ---- Binding twice is binding once ----

  lemma {:induction false} BoundItemsTwice(cat: Relations, items: seq<string>)
    requires BoundItems(cat, items).Some?
    ensures BoundItems(cat, BoundItems(cat, items).value) == BoundItems(cat, items)
  {
    if items != [] {
      var init, last := items[..|items| - 1], items[|items| - 1];
      BoundItemsTwice(cat, init);
      var out := BoundItems(cat, items).value;
      assert out[..|out| - 1] == BoundItems(cat, init).value;
      if last != "*" {
        BoundRelationTwice(cat, last);
      }
    }
  }

  lemma BoundConditionTwice(cat: Relations, c: Condition)
    requires BoundCondition(cat, c).Some?
    ensures BoundCondition(cat, BoundCondition(cat, c).value) == BoundCondition(cat, c)
    ensures BoundCondition(cat, c).value.attribute == c.attribute
    ensures !RelationAttribute(c.attribute) ==> BoundCondition(cat, c).value == c
  {
    if NamesRelations(c) {
      if c.value.Str? {
        BoundRelationTwice(cat, c.value.s);
      } else {
        BoundItemsTwice(cat, c.value.items);
      }
    }
  }

  lemma {:induction false} BoundConditionsTwice(cat: Relations, cs: seq<Condition>)
    requires BoundConditions(cat, cs).Some?
    ensures BoundConditions(cat, BoundConditions(cat, cs).value) == BoundConditions(cat, cs)
  {
    if cs != [] {
      var init := cs[..|cs| - 1];
      BoundConditionsTwice(cat, init);
      BoundConditionTwice(cat, cs[|cs| - 1]);
      var out := BoundConditions(cat, cs).value;
      assert out[..|out| - 1] == BoundConditions(cat, init).value;
    }
  }

  lemma OthersStay(cat: Relations, cs: seq<Condition>)
    requires BoundConditions(cat, cs).Some?
    ensures var out := BoundConditions(cat, cs).value;
      |out| == |cs| && forall i :: 0 <= i < |cs| ==>
        out[i].attribute == cs[i].attribute && (!RelationAttribute(cs[i].attribute) ==> out[i] == cs[i])
  {
    ConditionsBound(cat, cs);
    forall i | 0 <= i < |cs|
      ensures var out := BoundConditions(cat, cs).value;
        out[i].attribute == cs[i].attribute && (!RelationAttribute(cs[i].attribute) ==> out[i] == cs[i])
    {
      BoundConditionTwice(cat, cs[i]);
    }
  }

  lemma BoundObligationTwice(cat: Relations, named: seq<string>, ob: Obligation)
    requires BoundObligation(cat, named, ob).Some? && named != []
    ensures BoundObligation(cat, named, BoundObligation(cat, named, ob).value) == BoundObligation(cat, named, ob)
  {
    if NamesColumn(ob) {
      var target := Trim(ob.target);
      BoundColumnMeans(cat, named, target);
      var name := BoundColumn(cat, named, target).value;
      BoundColumnTwice(cat, named, name);
      TrimmedFold(target, name);
    }
  }

  lemma TrimmedFold(a: string, b: string)
    requires Trimmed(a) && Fold(a) == Fold(b)
    ensures Trimmed(b)
  {
    if b != "" {
      assert |Fold(a)| == |a| && |Fold(b)| == |b|;
      assert FoldChar(a[0]) == FoldChar(b[0]) && FoldChar(a[|a| - 1]) == FoldChar(b[|b| - 1]);
    }
  }

  lemma {:induction false} BoundObligationsTwice(cat: Relations, named: seq<string>, obs: seq<Obligation>)
    requires BoundObligations(cat, named, obs).Some?
    ensures BoundObligations(cat, named, BoundObligations(cat, named, obs).value) == BoundObligations(cat, named, obs)
  {
    if obs != [] && named != [] {
      var init := obs[..|obs| - 1];
      BoundObligationsTwice(cat, named, init);
      BoundObligationTwice(cat, named, obs[|obs| - 1]);
      var out := BoundObligations(cat, named, obs).value;
      assert out[..|out| - 1] == BoundObligations(cat, named, init).value;
    }
  }

  /** A bound rule, bound again, is the same rule. */
  lemma BindRuleTwice(cat: Relations, rule: Rule)
    requires BoundRule(cat, rule).Some?
    ensures BoundRule(cat, BoundRule(cat, rule).value) == BoundRule(cat, rule)
  {
    if !ScopesNonRelation(rule) {
      BoundConditionsTwice(cat, rule.resources);
      OthersStay(cat, rule.resources);
      var out := BoundRule(cat, rule).value;
      assert !ScopesNonRelation(out);
      BoundObligationsTwice(cat, Scopes(out.resources), rule.obligations);
    }
  }

  // ---- In place, on a copy ----

  /** A rule in memory: the two lists a bind rewrites, and the rest of it. */
  class RuleObject {
    const head: Rule
    const resources: array<Condition>
    const obligations: array<Obligation>

    constructor (head: Rule, resources: array<Condition>, obligations: array<Obligation>)
      ensures this.head == head && this.resources == resources && this.obligations == obligations
    {
      this.head, this.resources, this.obligations := head, resources, obligations;
    }

    ghost function Value(): Rule
      reads resources, obligations
    {
      head.(resources := resources[..], obligations := obligations[..])
    }
  }

  method CopyRule(r: RuleObject) returns (copy: RuleObject)
    ensures fresh(copy) && fresh(copy.resources) && fresh(copy.obligations)
    ensures copy.Value() == r.Value()
  {
    var resources := new Condition[r.resources.Length](
      i requires 0 <= i < r.resources.Length reads r.resources => r.resources[i]);
    var obligations := new Obligation[r.obligations.Length](
      i requires 0 <= i < r.obligations.Length reads r.obligations => r.obligations[i]);
    copy := new RuleObject(r.head, resources, obligations);
  }

  /** Rewrites a list's names; the wildcard is not one. */
  method BindItems(cat: Relations, items: seq<string>) returns (r: Option<seq<string>>)
    ensures r == BoundItems(cat, items)
  {
    var out := [];
    for n := 0 to |items|
      invariant BoundItems(cat, items[..n]) == Some(out)
    {
      assert items[..n + 1][..n] == items[..n];
      if items[n] == "*" {
        out := out + [items[n]];
      } else {
        var resolved := ResolveRelation(cat, items[n]);
        if resolved.None? {
          ItemsStop(cat, items, n + 1);
          return None;
        }
        out := out + [resolved.value];
      }
    }
    assert items[..|items|] == items;
    return Some(out);
  }

  lemma {:induction false} ItemsStop(cat: Relations, items: seq<string>, n: nat)
    requires n <= |items| && BoundItems(cat, items[..n]).None?
    ensures BoundItems(cat, items).None?
    decreases |items|
  {
    if n < |items| {
      assert items[..|items| - 1][..n] == items[..n];
      ItemsStop(cat, items[..|items| - 1], n);
    } else {
      assert items[..n] == items;
    }
  }

  method BindCondition(cat: Relations, c: Condition) returns (r: Option<Condition>)
    ensures r == BoundCondition(cat, c)
  {
    if !NamesRelations(c) {
      return Some(c);
    }
    if c.value.Str? {
      var resolved := ResolveRelation(cat, c.value.s);
      return if resolved.None? then None else Some(c.(value := Str(resolved.value)));
    }
    var items := BindItems(cat, c.value.items);
    return if items.None? then None else Some(c.(value := List(items.value, true)));
  }

  lemma {:induction false} ConditionsStop(cat: Relations, cs: seq<Condition>, n: nat)
    requires n <= |cs| && BoundConditions(cat, cs[..n]).None?
    ensures BoundConditions(cat, cs).None?
    decreases |cs|
  {
    if n < |cs| {
      assert cs[..|cs| - 1][..n] == cs[..n];
      ConditionsStop(cat, cs[..|cs| - 1], n);
    } else {
      assert cs[..n] == cs;
    }
  }

  /** The first `n` conditions are bound to `bound`, and scope the rule to `scopes`. */
  ghost predicate BoundSoFar(cat: Relations, cs: seq<Condition>, n: nat, bound: seq<Condition>, scopes: seq<string>) {
    n <= |cs| && |bound| == n && BoundConditions(cat, cs[..n]) == Some(bound) && scopes == Scopes(bound)
  }

  lemma BoundFurther(cat: Relations, cs: seq<Condition>, n: nat, bound: seq<Condition>, scopes: seq<string>)
    requires BoundSoFar(cat, cs, n, bound, scopes) && n < |cs|
    ensures match BoundCondition(cat, cs[n])
      case Some(c) => BoundSoFar(cat, cs, n + 1, bound + [c], scopes + Scope(c))
      case None => BoundConditions(cat, cs).None?
  {
    assert cs[..n + 1][..n] == cs[..n];
    match BoundCondition(cat, cs[n])
    case Some(c) =>
      assert (bound + [c])[..n] == bound;
    case None =>
      ConditionsStop(cat, cs, n + 1);
  }

  lemma BoundToTheEnd(cat: Relations, cs: seq<Condition>, bound: seq<Condition>, scopes: seq<string>)
    requires BoundSoFar(cat, cs, |cs|, bound, scopes)
    ensures BoundConditions(cat, cs) == Some(bound) && AreBound(cat, cs, bound, scopes)
  {
    assert cs[..|cs|] == cs;
    BoundConditionsMean(cat, cs);
  }

  /** Rewrites the conditions one by one and collects the relations they scope the rule to. */
  method BindConditions(cat: Relations, cs: array<Condition>) returns (named: Option<seq<string>>)
    modifies cs
    ensures named.Some? <==> BoundConditions(cat, old(cs[..])).Some?
    ensures named.Some? ==> Some(cs[..]) == BoundConditions(cat, old(cs[..])) && named.value == Scopes(cs[..])
    ensures named.Some? ==> AreBound(cat, old(cs[..]), cs[..], named.value)
  {
    ghost var was := cs[..];
    ghost var bound: seq<Condition> := [];
    var scopes := [];
    for n := 0 to cs.Length
      invariant BoundSoFar(cat, was, n, bound, scopes)
      invariant forall i :: 0 <= i < n ==> cs[i] == bound[i]
      invariant forall i :: n <= i < cs.Length ==> cs[i] == was[i]
    {
      BoundFurther(cat, was, n, bound, scopes);
      var c := BindCondition(cat, cs[n]);
      if c.None? {
        return None;
      }
      cs[n] := c.value;
      bound, scopes := bound + [c.value], scopes + Scope(c.value);
    }
    BoundToTheEnd(cat, was, bound, scopes);
    assert cs[..] == bound;
    return Some(scopes);
  }

  lemma {:induction false} ObligationsStop(cat: Relations, named: seq<string>, obs: seq<Obligation>, n: nat)
    requires n <= |obs| && named != [] && BoundObligations(cat, named, obs[..n]).None?
    ensures BoundObligations(cat, named, obs).None?
    decreases |obs|
  {
    if n < |obs| {
      assert obs[..|obs| - 1][..n] == obs[..n];
      ObligationsStop(cat, named, obs[..|obs| - 1], n);
    } else {
      assert obs[..n] == obs;
    }
  }

  lemma ObligationsNext(cat: Relations, named: seq<string>, obs: seq<Obligation>, n: nat)
    requires n < |obs| && named != []
    ensures var init, last := BoundObligations(cat, named, obs[..n]), BoundObligation(cat, named, obs[n]);
      BoundObligations(cat, named, obs[..n + 1]) == if init.None? || last.None? then None
        else Some(init.value + [last.value])
  {
    assert obs[..n + 1][..n] == obs[..n];
  }

  method BindObligation(cat: Relations, named: seq<string>, ob: Obligation) returns (r: Option<Obligation>)
    ensures r == BoundObligation(cat, named, ob)
  {
    if !NamesColumn(ob) {
      return Some(ob);
    }
    var resolved := ResolveColumn(cat, named, Trim(ob.target));
    return if resolved.None? then None else Some(ob.(target := resolved.value));
  }

  method BindObligations(cat: Relations, named: seq<string>, obs: array<Obligation>) returns (ok: bool)
    modifies obs
    ensures ok <==> BoundObligations(cat, named, old(obs[..])).Some?
    ensures ok ==> Some(obs[..]) == BoundObligations(cat, named, old(obs[..]))
  {
    if named == [] {
      return true;
    }
    ghost var was := obs[..];
    ghost var bound: seq<Obligation> := [];
    for n := 0 to obs.Length
      invariant |bound| == n && forall i :: 0 <= i < n ==> obs[i] == bound[i]
      invariant forall i :: n <= i < obs.Length ==> obs[i] == was[i]
      invariant BoundObligations(cat, named, was[..n]) == Some(bound)
    {
      ObligationsNext(cat, named, was, n);
      var ob := BindObligation(cat, named, obs[n]);
      if ob.None? {
        ObligationsStop(cat, named, was, n + 1);
        return false;
      }
      obs[n] := ob.value;
      bound := bound + [ob.value];
    }
    assert was[..obs.Length] == was && obs[..] == bound;
    return true;
  }

  /** One rule of the copy, its resources first and then the columns its obligations name. */
  method BindRule(cat: Relations, r: RuleObject) returns (ok: bool)
    modifies r.resources, r.obligations
    ensures ok <==> BoundRule(cat, old(r.Value())).Some?
    ensures ok ==> Some(r.Value()) == BoundRule(cat, old(r.Value()))
    ensures ok <==> Binds(cat, old(r.Value()))
    ensures ok ==> IsBound(cat, old(r.Value()), r.Value())
  {
    BoundRuleMeans(cat, r.Value());
    var rule := r.head.(resources := r.resources[..], obligations := r.obligations[..]);
    if ScopesNonRelation(rule) {
      return true;
    }
    var named := BindConditions(cat, r.resources);
    if named.None? {
      return false;
    }
    ok := BindObligations(cat, named.value, r.obligations);
  }

  ghost predicate Separate(rules: seq<RuleObject>) {
    && (forall i, j :: 0 <= i < j < |rules| ==>
          rules[i].resources != rules[j].resources && rules[i].obligations != rules[j].obligations)
  }

  ghost predicate Bindable(cat: Relations, rules: seq<Rule>) {
    forall i :: 0 <= i < |rules| ==> BoundRule(cat, rules[i]).Some?
  }

  method CloneRules(rules: seq<RuleObject>) returns (out: seq<RuleObject>)
    ensures |out| == |rules| && Separate(out)
    ensures forall i :: 0 <= i < |out| ==> out[i].Value() == rules[i].Value()
    ensures forall i :: 0 <= i < |out| ==> fresh(out[i].resources) && fresh(out[i].obligations)
  {
    out := [];
    for n := 0 to |rules|
      invariant |out| == n && Separate(out)
      invariant forall i :: 0 <= i < n ==> fresh(out[i].resources) && fresh(out[i].obligations)
      invariant forall i :: 0 <= i < n ==> out[i].Value() == rules[i].Value()
    {
      var copy := CopyRule(rules[n]);
      out := out + [copy];
    }
  }

  /** One rule of the copy; the others have storage of their own. */
  method BindNext(cat: Relations, rules: seq<RuleObject>, n: nat) returns (ok: bool)
    requires Separate(rules) && n < |rules|
    modifies rules[n].resources, rules[n].obligations
    ensures ok <==> BoundRule(cat, old(rules[n].Value())).Some?
    ensures ok ==> Some(rules[n].Value()) == BoundRule(cat, old(rules[n].Value()))
    ensures forall i :: 0 <= i < |rules| && i != n ==> rules[i].Value() == old(rules[i].Value())
  {
    ok := BindRule(cat, rules[n]);
  }

  /** Every rule of the copy, stopping at the first that does not bind. */
  method BindAll(cat: Relations, rules: seq<RuleObject>, ghost was: seq<Rule>) returns (ok: bool)
    requires Separate(rules) && |was| == |rules| && forall i :: 0 <= i < |rules| ==> rules[i].Value() == was[i]
    modifies set x | x in rules :: x.resources
    modifies set x | x in rules :: x.obligations
    ensures ok <==> Bindable(cat, was)
    ensures ok ==> forall i :: 0 <= i < |rules| ==> BoundRule(cat, was[i]) == Some(rules[i].Value())
  {
    for n := 0 to |rules|
      invariant forall i :: 0 <= i < n ==> BoundRule(cat, was[i]) == Some(rules[i].Value())
      invariant forall i :: n <= i < |rules| ==> rules[i].Value() == was[i]
    {
      ok := BindNext(cat, rules, n);
      if !ok {
        return;
      }
    }
    return true;
  }

  /**
   The bound copy of a rule list, or None when some name does not resolve. Nothing
   that existed before is modified, whether the bind succeeds or stops halfway.
   */
  method BindPolicies(cat: Relations, rules: seq<RuleObject>, ghost was: seq<Rule>) returns (r: Option<seq<RuleObject>>)
    requires |was| == |rules| && forall i :: 0 <= i < |rules| ==> rules[i].Value() == was[i]
    ensures r.Some? <==> Bindable(cat, was)
    ensures r.Some? ==> |r.value| == |rules|
    ensures r.Some? ==> forall i :: 0 <= i < |rules| ==> BoundRule(cat, was[i]) == Some(r.value[i].Value())
    ensures r.Some? <==> forall i :: 0 <= i < |rules| ==> Binds(cat, was[i])
    ensures r.Some? ==> forall i :: 0 <= i < |rules| ==> IsBound(cat, was[i], r.value[i].Value())
    ensures r.Some? ==> forall i :: 0 <= i < |rules| ==> fresh(r.value[i].resources) && fresh(r.value[i].obligations)
    ensures forall i :: 0 <= i < |rules| ==> rules[i].Value() == was[i]
  {
    forall i | 0 <= i < |was|
      ensures BoundRule(cat, was[i]).Some? <==> Binds(cat, was[i])
      ensures BoundRule(cat, was[i]).Some? ==> IsBound(cat, was[i], BoundRule(cat, was[i]).value)
    {
      BoundRuleMeans(cat, was[i]);
    }
    var out := CloneRules(rules);
    var ok := BindAll(cat, out, was);
    return if ok then Some(out) else None;
  }
}
