/**
 The per-statement decision cache, keyed by the lower-cased spelling, and when its
 answer is the answer of a fresh evaluation.
 */
module Resolvers {
  import opened Names
  import opened Policies
  import opened Decisions
  import opened Bindings

  /** The condition compares names with tables only, never with the spelling itself. */
  ghost predicate ByTable(tables: seq<string>, c: Condition) {
    c.attribute == "resource.name" ==>
      match c.op
      case Eq => c.value.Str? && c.value.s in tables
      case Neq => c.value.Str? && c.value.s in tables
      case In => c.value.List? && forall i :: 0 <= i < |c.value.items| ==> c.value.items[i] in tables + ["*"]
      case NotIn => c.value.List? && forall i :: 0 <= i < |c.value.items| ==> c.value.items[i] in tables + ["*"]
      case Exists => true
      case NotExists => true
      case Test(_) => false
  }

  ghost predicate AllByTable(tables: seq<string>, cs: seq<Condition>) {
    forall i :: 0 <= i < |cs| ==> ByTable(tables, cs[i])
  }

  ghost predicate RulesByTable(tables: seq<string>, rules: seq<Rule>) {
    forall i :: 0 <= i < |rules| ==>
      AllByTable(tables, rules[i].subjects) && AllByTable(tables, rules[i].resources)
        && AllByTable(tables, rules[i].environment)
  }

  /** No two delimited names differ in case alone. */
  ghost predicate NoDelimitedTwins(tables: seq<string>) {
    forall a, b :: a in tables && b in tables && !Folded(a) && !Folded(b) && Fold(a) == Fold(b) ==> a == b
  }

  lemma {:induction false} BoundItemsAreTables(cat: Relations, items: seq<string>)
    requires BoundItems(cat, items).Some? && forall t :: t in cat.columns ==> t in cat.tables
    ensures forall i :: 0 <= i < |BoundItems(cat, items).value| ==>
      BoundItems(cat, items).value[i] in cat.tables + ["*"]
  {
    if items != [] {
      BoundItemsAreTables(cat, items[..|items| - 1]);
    }
  }

  /** What a bind leaves of a condition that names relations is a comparison with tables. */
  lemma BoundIsByTable(cat: Relations, c: Condition)
    requires NamesRelations(c) && BoundCondition(cat, c).Some? && forall t :: t in cat.columns ==> t in cat.tables
    ensures ByTable(cat.tables, BoundCondition(cat, c).value)
  {
    if c.value.List? {
      BoundItemsAreTables(cat, c.value.items);
    }
  }

  /** The spellings compare alike with every table. */
  ghost predicate ComparedAlike(tables: seq<string>, s: string, t: string) {
    forall r :: r in tables ==> (RelationEq(s, r) <==> RelationEq(t, r))
  }

  /** No spelling but the wildcard itself compares with the wildcard. */
  lemma StarComparesAlike(s: string, t: string)
    requires Fold(s) == Fold(t)
    ensures RelationEq(s, "*") <==> RelationEq(t, "*")
  {
  }

  /** Two spellings a statement can use for one name compare alike with every table. */
  lemma ResolvableComparedAlike(tables: seq<string>, s: string, t: string)
    requires NoDelimitedTwins(tables) && Resolvable(tables, s) && Resolvable(tables, t) && Fold(s) == Fold(t)
    ensures ComparedAlike(tables, s, t)
  {
  }

  lemma SameMatch(tables: seq<string>, c: Condition, base: Attrs, s: string, t: string)
    requires ComparedAlike(tables, s, t) && Fold(s) == Fold(t)
    requires ByTable(tables, c)
    ensures MatchCondition(c, TableAttrs(base, s)) <==> MatchCondition(c, TableAttrs(base, t))
  {
    if c.attribute == "resource.name" {
      StarComparesAlike(s, t);
      if c.op.In? || c.op.NotIn? {
        forall i | 0 <= i < |c.value.items|
          ensures RelationEq(s, c.value.items[i]) <==> RelationEq(t, c.value.items[i])
        {
          assert c.value.items[i] in tables || c.value.items[i] == "*";
        }
      }
    }
  }

  lemma SameMatches(tables: seq<string>, cs: seq<Condition>, base: Attrs, s: string, t: string)
    requires ComparedAlike(tables, s, t) && Fold(s) == Fold(t)
    requires AllByTable(tables, cs)
    ensures AllMatch(cs, TableAttrs(base, s)) <==> AllMatch(cs, TableAttrs(base, t))
  {
    forall i | 0 <= i < |cs|
      ensures MatchCondition(cs[i], TableAttrs(base, s)) <==> MatchCondition(cs[i], TableAttrs(base, t))
    {
      SameMatch(tables, cs[i], base, s, t);
    }
  }

  lemma {:induction false} SameSelected(rules: seq<Rule>, f: Rule -> bool, g: Rule -> bool)
    requires forall i :: 0 <= i < |rules| ==> f(rules[i]) == g(rules[i])
    ensures Selected(rules, f) == Selected(rules, g)
  {
    if rules != [] {
      SameSelected(rules[..|rules| - 1], f, g);
    }
  }

  /** The decision depends on how a spelling compares with the tables, not on the spelling. */
  lemma SameDecisionForSpellings(tables: seq<string>, rules: seq<Rule>, base: Attrs, s: string, t: string,
                                 action: Action)
    requires ComparedAlike(tables, s, t) && Fold(s) == Fold(t)
    requires RulesByTable(tables, rules)
    ensures Decide(rules, TableAttrs(base, s), action) == Decide(rules, TableAttrs(base, t), action)
  {
    var x, y := TableAttrs(base, s), TableAttrs(base, t);
    forall i, deny | 0 <= i < |rules|
      ensures Speaks(x, action, deny)(rules[i]) == Speaks(y, action, deny)(rules[i])
    {
      SameMatches(tables, rules[i].subjects, base, s, t);
      SameMatches(tables, rules[i].resources, base, s, t);
      SameMatches(tables, rules[i].environment, base, s, t);
    }
    SameSelected(rules, Speaks(x, action, true), Speaks(y, action, true));
    SameSelected(rules, Speaks(x, action, false), Speaks(y, action, false));
  }

  class PolicyResolver {
    const policies: seq<Policy>
    const base: Attrs
    var cache: map<string, TableDecision>
    ghost var asked: map<string, string>

    constructor (policies: seq<Policy>, base: Attrs)
      ensures this.policies == policies && this.base == base && cache == map[] && asked == map[]
    {
      this.policies, this.base, cache, asked := policies, base, map[], map[];
    }

    ghost function Fresh(table: string): TableDecision {
      Decide(ActiveRules(policies), TableAttrs(base, table), Read)
    }

    /** Every entry is the decision for the spelling that was asked first under its key. */
    ghost predicate Valid()
      reads this
    {
      asked.Keys == cache.Keys && forall k :: k in cache ==> Fold(asked[k]) == k && cache[k] == Fresh(asked[k])
    }

    /**
     The remembered decision, or a new one: always that of the first spelling asked
     with this key, and so the fresh one when that spelling compares as this one does.
     */
    method DecideTable(table: string, ghost tables: seq<string>) returns (td: TableDecision)
      requires Valid()
      modifies this
      ensures Valid() && asked == (if Fold(table) in old(asked) then old(asked) else old(asked)[Fold(table) := table])
      ensures td == Fresh(asked[Fold(table)])
      ensures RulesByTable(tables, ActiveRules(policies)) && ComparedAlike(tables, asked[Fold(table)], table) ==>
              td == Fresh(table)
    {
      var key := Fold(table);
      if key in cache {
        td := cache[key];
        if RulesByTable(tables, ActiveRules(policies)) && ComparedAlike(tables, asked[key], table) {
          SameDecisionForSpellings(tables, ActiveRules(policies), base, asked[key], table, Read);
        }
        return;
      }
      td := EvaluateTableAccess(policies, base, table, Read);
      cache, asked := cache[key := td], asked[key := table];
    }
  }

  /** No set of rules over the tables tells the two spellings apart. */
  ghost predicate SpellingsAgree(tables: seq<string>, s: string, t: string) {
    forall rules, base :: RulesByTable(tables, rules) ==>
      Decide(rules, TableAttrs(base, s), Read) == Decide(rules, TableAttrs(base, t), Read)
  }

  /** A rule that allows one table and nothing else, on conditions. */
  function TableRule(a: string, obligations: seq<Obligation>): Rule {
    Rule("only", false, 100, [], [Condition("resource.name", Eq, Str(a))], [], [], obligations)
  }

  function OnlyTable(a: string): Rule {
    TableRule(a, [])
  }

  lemma TableRuleSpeaks(a: string, obligations: seq<Obligation>, base: Attrs, s: string)
    ensures Speaks(TableAttrs(base, s), Read, false)(TableRule(a, obligations)) <==> RelationEq(s, a)
    ensures !Speaks(TableAttrs(base, s), Read, true)(TableRule(a, obligations))
  {
    var attrs, rule := TableAttrs(base, s), TableRule(a, obligations);
    assert RuleMatches(rule, attrs, Read) <==> MatchCondition(rule.resources[0], attrs);
  }

  lemma OnlyTableDecides(a: string, base: Attrs, s: string)
    ensures Decide([OnlyTable(a)], TableAttrs(base, s), Read).allowed <==> RelationEq(s, a)
  {
    var attrs, rule := TableAttrs(base, s), OnlyTable(a);
    assert [rule][..0] == [];
    TableRuleSpeaks(a, [], base, s);
    assert Obligations([rule]) == [];
    assert Selected([rule], Speaks(attrs, Read, true)) == [];
    assert Selected([rule], Speaks(attrs, Read, false)) == if RelationEq(s, a) then [rule] else [];
  }

  /** Any two spellings with one key are decided alike if and only if they compare alike with every table. */
  lemma SpellingsAgreeIff(tables: seq<string>, s: string, t: string)
    requires Fold(s) == Fold(t)
    ensures SpellingsAgree(tables, s, t) <==> ComparedAlike(tables, s, t)
  {
    if ComparedAlike(tables, s, t) {
      forall rules, base | RulesByTable(tables, rules)
        ensures Decide(rules, TableAttrs(base, s), Read) == Decide(rules, TableAttrs(base, t), Read)
      {
        SameDecisionForSpellings(tables, rules, base, s, t, Read);
      }
    }
    if SpellingsAgree(tables, s, t) {
      forall r | r in tables
        ensures RelationEq(s, r) <==> RelationEq(t, r)
      {
        assert RulesByTable(tables, [OnlyTable(r)]);
        OnlyTableDecides(r, map[], s);
        OnlyTableDecides(r, map[], t);
      }
    }
  }

  /** Every two spellings with one key that name a table are decided alike. */
  ghost predicate OneKeyOneDecision(tables: seq<string>) {
    forall s, t :: Resolvable(tables, s) && Resolvable(tables, t) && Fold(s) == Fold(t) ==> SpellingsAgree(tables, s, t)
  }

  /** One key can stand for all the spellings that resolve if and only if no two delimited tables are case twins. */
  lemma OneKeyOneDecisionIff(tables: seq<string>)
    ensures OneKeyOneDecision(tables) <==> NoDelimitedTwins(tables)
  {
    if NoDelimitedTwins(tables) {
      forall s, t | Resolvable(tables, s) && Resolvable(tables, t) && Fold(s) == Fold(t)
        ensures SpellingsAgree(tables, s, t)
      {
        ResolvableComparedAlike(tables, s, t);
        SpellingsAgreeIff(tables, s, t);
      }
    }
    if OneKeyOneDecision(tables) {
      forall a, b | a in tables && b in tables && !Folded(a) && !Folded(b) && Fold(a) == Fold(b)
        ensures a == b
      {
        TwinsMustAgree(tables, a, b);
      }
    }
  }

  lemma TwinsMustAgree(tables: seq<string>, a: string, b: string)
    requires OneKeyOneDecision(tables) && a in tables && b in tables && !Folded(a) && !Folded(b) && Fold(a) == Fold(b)
    ensures a == b
  {
    var i :| 0 <= i < |tables| && tables[i] == a;
    var j :| 0 <= j < |tables| && tables[j] == b;
    assert Denotes(tables, a, i) && Denotes(tables, b, j);
    SpellingsAgreeIff(tables, a, b);
  }

  // ---- Two delimited tables that differ in case alone ----

  ghost predicate DelimitedTwins(tables: seq<string>, a: string, b: string) {
    a in tables && b in tables && !Folded(a) && !Folded(b) && Fold(a) == Fold(b) && a != b
  }

  /** The catalog can hold such a pair, and each of the two names itself. */
  lemma TwinsResolve(tables: seq<string>, a: string, b: string)
    requires DelimitedTwins(tables, a, b)
    ensures Resolve(tables, a) == a && Resolve(tables, b) == b
    ensures !RelationEq(a, b)
  {
    var i :| 0 <= i < |tables| && tables[i] == a;
    var j :| 0 <= j < |tables| && tables[j] == b;
    assert Denotes(tables, a, i) && Denotes(tables, b, j);
  }

  lemma QuotedTwins()
    ensures DelimitedTwins(["Hits", "HITS"], "Hits", "HITS")
  {
    var tables := ["Hits", "HITS"];
    assert tables[0] == "Hits" && tables[1] == "HITS";
    assert EqualFold("Hits", "HITS");
    assert "Hits"[1] == 'i' && "HITS"[1] == 'I' && "Hits"[0] == 'H' && "HITS"[0] == 'H';
  }

  lemma OnePolicy(rules: seq<Rule>)
    ensures ActiveRules([Policy(true, rules)]) == rules
  {
    assert [Policy(true, rules)][..0] == [];
  }

  /** A statement's cache, asked about two spellings with one key: the second gets the first's answer. */
  method AskInTurn(rules: seq<Rule>, a: string, b: string, base: Attrs)
    returns (first: TableDecision, second: TableDecision)
    requires Fold(a) == Fold(b)
    ensures first == Decide(rules, TableAttrs(base, a), Read) && second == first
  {
    OnePolicy(rules);
    var r := new PolicyResolver([Policy(true, rules)], base);
    first := r.DecideTable(a, []);
    second := r.DecideTable(b, []);
  }

  /** One statement reads both, and the policy allows the first: the second is answered with the first's yes. */
  method AskedForItsTwin(tables: seq<string>, a: string, b: string, base: Attrs)
    returns (first: TableDecision, second: TableDecision)
    requires DelimitedTwins(tables, a, b)
    ensures RulesByTable(tables, [OnlyTable(a)])
    ensures first == Decide([OnlyTable(a)], TableAttrs(base, a), Read)
    ensures second == first && second.allowed && !Decide([OnlyTable(a)], TableAttrs(base, b), Read).allowed
  {
    TwinsResolve(tables, a, b);
    OnlyTableDecides(a, base, a);
    OnlyTableDecides(a, base, b);
    first, second := AskInTurn([OnlyTable(a)], a, b, base);
  }

  function OpenAndFiltered(a: string, b: string, filter: string): seq<Rule> {
    [OnlyTable(a), TableRule(b, [RowFilter(filter)])]
  }

  lemma TwoSelected(x: Rule, y: Rule, f: Rule -> bool)
    ensures Selected([x, y], f) == (if f(x) then [x] else []) + (if f(y) then [y] else [])
  {
    assert [x, y][..1] == [x] && [x][..0] == [];
    assert Selected([x], f) == if f(x) then [x] else [];
  }

  lemma OneRuleMerged(a: string, obligations: seq<Obligation>)
    ensures Obligations([TableRule(a, obligations)]) == obligations
  {
    assert [TableRule(a, obligations)][..0] == [];
  }

  lemma FilterMerged(filter: string)
    ensures Merged([]).allowed && Merged([]).filter == NO_FILTER
    ensures Merged([RowFilter(filter)]).allowed && Merged([RowFilter(filter)]).filter == Pred(filter)
  {
    assert [RowFilter(filter)][..0] == [];
  }

  lemma OpenAndFilteredSpeak(a: string, b: string, filter: string, base: Attrs, s: string, deny: bool)
    requires !RelationEq(a, b) && (s == a || s == b)
    ensures Speaking(OpenAndFiltered(a, b, filter), TableAttrs(base, s), Read, deny) ==
            if deny then [] else if s == a then [OnlyTable(a)] else [TableRule(b, [RowFilter(filter)])]
  {
    TableRuleSpeaks(a, [], base, s);
    TableRuleSpeaks(b, [RowFilter(filter)], base, s);
    TwoSelected(OnlyTable(a), TableRule(b, [RowFilter(filter)]), Speaks(TableAttrs(base, s), Read, deny));
  }

  /** When one rule of a set speaks, the decision is what its obligations come to. */
  lemma OneSpeaks(rules: seq<Rule>, attrs: Attrs, a: string, obligations: seq<Obligation>)
    requires Speaking(rules, attrs, Read, true) == []
    requires Speaking(rules, attrs, Read, false) == [TableRule(a, obligations)] && CanEnforce(obligations)
    ensures Decide(rules, attrs, Read) == Merged(obligations)
  {
    OneRuleMerged(a, obligations);
  }

  lemma OpenAndFilteredDecide(a: string, b: string, filter: string, base: Attrs)
    requires !RelationEq(a, b)
    ensures var rules := OpenAndFiltered(a, b, filter);
      var da, db := Decide(rules, TableAttrs(base, a), Read), Decide(rules, TableAttrs(base, b), Read);
      da.allowed && da.filter == NO_FILTER && db.allowed && db.filter == Pred(filter)
  {
    var rules := OpenAndFiltered(a, b, filter);
    OpenAndFilteredSpeak(a, b, filter, base, a, true);
    OpenAndFilteredSpeak(a, b, filter, base, a, false);
    OneSpeaks(rules, TableAttrs(base, a), a, []);
    OpenAndFilteredSpeak(a, b, filter, base, b, true);
    OpenAndFilteredSpeak(a, b, filter, base, b, false);
    OneSpeaks(rules, TableAttrs(base, b), b, [RowFilter(filter)]);
    FilterMerged(filter);
  }

  lemma OpenAndFilteredByTable(tables: seq<string>, a: string, b: string, filter: string)
    requires a in tables && b in tables
    ensures RulesByTable(tables, OpenAndFiltered(a, b, filter))
  {
  }

  /** And a row filter on the second is not there when the first, which has none, was asked about before. */
  method AskedWithoutItsFilter(tables: seq<string>, a: string, b: string, filter: string, base: Attrs)
    returns (first: TableDecision, second: TableDecision)
    requires DelimitedTwins(tables, a, b)
    ensures RulesByTable(tables, OpenAndFiltered(a, b, filter))
    ensures first == Decide(OpenAndFiltered(a, b, filter), TableAttrs(base, a), Read)
    ensures second == first && second.allowed && second.filter == NO_FILTER
    ensures Decide(OpenAndFiltered(a, b, filter), TableAttrs(base, b), Read).filter == Pred(filter)
  {
    TwinsResolve(tables, a, b);
    OpenAndFilteredDecide(a, b, filter, base);
    OpenAndFilteredByTable(tables, a, b, filter);
    first, second := AskInTurn(OpenAndFiltered(a, b, filter), a, b, base);
  }
}
