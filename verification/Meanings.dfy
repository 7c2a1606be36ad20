/**
 What binding does to the meaning of a rule: for every spelling a statement can use,
 nothing; and a bound condition is a condition on the table the spelling names.
 */
module Meanings {
  import opened Options
  import opened Names
  import opened Policies
  import opened Decisions
  import opened Bindings

  /** Every table that can be read is a registered one. */
  ghost predicate Registered(cat: Relations) {
    forall t :: t in cat.columns ==> t in cat.tables
  }

  /** A policy's spelling compares with a statement's as its table does. */
  lemma BoundComparesAlike(cat: Relations, name: string, s: string)
    requires Resolvable(cat.tables, s)
    requires BoundRelation(cat, name).Some?
    ensures RelationEq(s, name) <==> RelationEq(s, BoundRelation(cat, name).value)
  {
  }

  lemma {:induction false} BoundItemsAt(cat: Relations, items: seq<string>, i: nat)
    requires BoundItems(cat, items).Some? && i < |items|
    ensures var out := BoundItems(cat, items).value;
      |out| == |items| && if items[i] == "*" then out[i] == "*" else BoundRelation(cat, items[i]) == Some(out[i])
  {
    var n := |items| - 1;
    if i < n {
      BoundItemsAt(cat, items[..n], i);
    } else if n > 0 {
      BoundItemsAt(cat, items[..n], 0);
    }
  }

  lemma ItemsCompareAlike(cat: Relations, items: seq<string>, s: string)
    requires Resolvable(cat.tables, s)
    requires BoundItems(cat, items).Some?
    ensures RelationIn(s, List(items, true)) <==> RelationIn(s, List(BoundItems(cat, items).value, true))
  {
    var out := BoundItems(cat, items).value;
    forall i | 0 <= i < |items|
      ensures |out| == |items| && (RelationEq(s, items[i]) <==> RelationEq(s, out[i]))
    {
      BoundItemsAt(cat, items, i);
      if items[i] != "*" {
        BoundComparesAlike(cat, items[i], s);
      }
    }
    assert items == [] ==> out == [];
  }

  /** A bound condition holds of a spelling exactly when the condition as written does. */
  lemma BindingKeepsCondition(cat: Relations, c: Condition, base: Attrs, s: string)
    requires Resolvable(cat.tables, s) && "resource.table" !in base
    requires BoundCondition(cat, c).Some?
    ensures MatchCondition(c, TableAttrs(base, s)) <==>
      MatchCondition(BoundCondition(cat, c).value, TableAttrs(base, s))
  {
    if NamesRelations(c) && c.attribute == "resource.name" {
      if c.value.Str? {
        BoundComparesAlike(cat, c.value.s, s);
      } else {
        ItemsCompareAlike(cat, c.value.items, s);
        assert RelationIn(s, c.value) <==> RelationIn(s, List(c.value.items, true));
      }
    }
  }

  lemma {:induction false} BoundConditionsAt(cat: Relations, cs: seq<Condition>, i: nat)
    requires BoundConditions(cat, cs).Some? && i < |cs|
    ensures |BoundConditions(cat, cs).value| == |cs|
      && BoundCondition(cat, cs[i]) == Some(BoundConditions(cat, cs).value[i])
  {
    var n := |cs| - 1;
    if i < n {
      BoundConditionsAt(cat, cs[..n], i);
    } else if n > 0 {
      BoundConditionsAt(cat, cs[..n], 0);
    }
  }

  lemma BindingKeepsConditions(cat: Relations, cs: seq<Condition>, base: Attrs, s: string)
    requires Resolvable(cat.tables, s) && "resource.table" !in base
    requires BoundConditions(cat, cs).Some?
    ensures AllMatch(cs, TableAttrs(base, s)) <==> AllMatch(BoundConditions(cat, cs).value, TableAttrs(base, s))
  {
    var out := BoundConditions(cat, cs).value;
    forall i | 0 <= i < |cs|
      ensures |out| == |cs|
        && (MatchCondition(cs[i], TableAttrs(base, s)) <==> MatchCondition(out[i], TableAttrs(base, s)))
    {
      BoundConditionsAt(cat, cs, i);
      BindingKeepsCondition(cat, cs[i], base, s);
    }
    assert cs == [] ==> out == [];
  }

  /** Binding a rule does not change which statements it speaks about. */
  lemma BindingKeepsMeaning(cat: Relations, rule: Rule, base: Attrs, s: string, action: Action)
    requires Resolvable(cat.tables, s) && "resource.table" !in base
    requires BoundRule(cat, rule).Some?
    ensures RuleMatches(rule, TableAttrs(base, s), action) <==>
      RuleMatches(BoundRule(cat, rule).value, TableAttrs(base, s), action)
    ensures BoundRule(cat, rule).value.deny == rule.deny
  {
    if !ScopesNonRelation(rule) {
      BindingKeepsConditions(cat, rule.resources, base, s);
    }
  }

  /** And what a bound condition says: the spelling names one of its tables. */
  lemma BoundConditionMeans(cat: Relations, c: Condition, base: Attrs, s: string)
    requires NoFoldedTwin(cat.tables) && Registered(cat) && Resolvable(cat.tables, s) && "*" !in cat.tables
    requires c.attribute == "resource.name" && NamesRelations(c) && BoundCondition(cat, c).Some?
    ensures var named := Resolve(cat.tables, s);
      MatchCondition(BoundCondition(cat, c).value, TableAttrs(base, s)) <==>
        match c.op
        case Eq => named == Resolve(cat.tables, c.value.s)
        case Neq => named != Resolve(cat.tables, c.value.s)
        case In => exists i :: 0 <= i < |c.value.items| && NamesItem(cat.tables, c.value.items[i], named)
        case NotIn => !exists i :: 0 <= i < |c.value.items| && NamesItem(cat.tables, c.value.items[i], named)
        case _ => true
  {
    if c.value.Str? {
      ComparedByTable(cat.tables, s, BoundRelation(cat, c.value.s).value);
    } else {
      ItemsMean(cat, c.value.items, s);
    }
  }

  ghost predicate NamesItem(tables: seq<string>, item: string, named: string) {
    item != "*" && named == Resolve(tables, item)
  }

  lemma ItemsMean(cat: Relations, items: seq<string>, s: string)
    requires NoFoldedTwin(cat.tables) && Registered(cat) && Resolvable(cat.tables, s) && "*" !in cat.tables
    requires BoundItems(cat, items).Some?
    ensures RelationIn(s, List(BoundItems(cat, items).value, true)) <==>
      exists i :: 0 <= i < |items| && NamesItem(cat.tables, items[i], Resolve(cat.tables, s))
  {
    var out := BoundItems(cat, items).value;
    forall i | 0 <= i < |items|
      ensures |out| == |items| && (RelationEq(s, out[i]) <==> NamesItem(cat.tables, items[i], Resolve(cat.tables, s)))
    {
      BoundItemsAt(cat, items, i);
      if items[i] == "*" {
        NotTheWildcard(cat.tables, s);
      } else {
        ComparedByTable(cat.tables, s, out[i]);
      }
    }
    assert items == [] ==> out == [];
  }

  lemma NotTheWildcard(tables: seq<string>, s: string)
    requires Resolvable(tables, s) && "*" !in tables
    ensures !RelationEq(s, "*")
  {
    ResolveKeepsFold(tables, s);
    StarAlone(s);
    StarAlone(Resolve(tables, s));
  }

  lemma StarAlone(x: string)
    ensures Fold(x) == Fold("*") <==> x == "*"
  {
  }
}
