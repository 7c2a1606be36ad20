/**
 Access-control policies and their evaluation: deny overrides, and the matching
 allow rules' obligations are merged into one decision about a table.

 Attribute values are kept as the text the engine compares.
 */
module Policies {
  import opened Options
  import opened Names

  datatype Action = Read | Write | Admin | Create | Drop | Describe

  /** A string, some other scalar, or a list; `strings` says whether every item is a string. */
  datatype Operand = Str(s: string) | Scalar(s: string) | List(items: seq<string>, strings: bool)

  function Joined(items: seq<string>): string {
    if items == [] then "" else if |items| == 1 then items[0] else items[0] + " " + Joined(items[1..])
  }

  /** The operand as text. */
  function TextOf(o: Operand): string {
    if o.List? then "[" + Joined(o.items) + "]" else o.s
  }

  /** `Test` is any operator that reads only the value: an ordering, a substring, a pattern. */
  datatype Op = Eq | Neq | In | NotIn | Exists | NotExists | Test(holds: (string, Operand) -> bool)

  datatype Condition = Condition(attribute: string, op: Op, value: Operand)

  /** A cost ceiling, as a `query_limit` obligation that can be read names one. */
  datatype Ceiling = Rows(n: nat) | Bytes(n: nat) | Files(n: nat)

  /** `QueryLimit(None)` is one whose target or value cannot be read; `Unknown` any other type. */
  datatype Obligation =
    | RowFilter(value: string)
    | DenyColumn(target: string)
    | MaskColumn(target: string, maskFunc: string, value: string)
    | QueryLimit(ceiling: Option<Ceiling>)
    | Unknown(kind: string)

  datatype Rule = Rule(
    id: string,
    deny: bool,
    priority: int,
    subjects: seq<Condition>,
    resources: seq<Condition>,
    actions: seq<Action>,
    environment: seq<Condition>,
    obligations: seq<Obligation>)

  datatype Policy = Policy(enabled: bool, rules: seq<Rule>)

  type Attrs = map<string, string>

  predicate RelationAttribute(a: string) {
    a == "resource.name" || a == "resource.table"
  }

  predicate RelationIn(value: string, o: Operand) {
    o.List? && exists i :: 0 <= i < |o.items| && RelationEq(value, o.items[i])
  }

  predicate CompareIn(value: string, o: Operand) {
    o.List? && value in o.items
  }

  predicate MatchCondition(cond: Condition, attrs: Attrs) {
    var there := cond.attribute in attrs;
    if RelationAttribute(cond.attribute) then
      match cond.op
      case Eq => there && RelationEq(attrs[cond.attribute], TextOf(cond.value))
      case Neq => !there || !RelationEq(attrs[cond.attribute], TextOf(cond.value))
      case In => there && RelationIn(attrs[cond.attribute], cond.value)
      case NotIn => !there || !RelationIn(attrs[cond.attribute], cond.value)
      case Exists => there
      case NotExists => !there
      case Test(holds) => there && holds(attrs[cond.attribute], cond.value)
    else
      match cond.op
      case Eq => there && attrs[cond.attribute] == TextOf(cond.value)
      case Neq => !there || attrs[cond.attribute] != TextOf(cond.value)
      case In => there && CompareIn(attrs[cond.attribute], cond.value)
      case NotIn => !there || !CompareIn(attrs[cond.attribute], cond.value)
      case Exists => there
      case NotExists => !there
      case Test(holds) => there && holds(attrs[cond.attribute], cond.value)
  }

  /** An `eq` or `in` on the resource type that affirms it. */
  predicate NamesResourceType(rule: Rule, rtype: string) {
    exists i :: 0 <= i < |rule.resources| && rule.resources[i].attribute == "resource.type"
      && ((rule.resources[i].op.Eq? && TextOf(rule.resources[i].value) == rtype)
          || (rule.resources[i].op.In? && CompareIn(rtype, rule.resources[i].value)))
  }

  predicate AllMatch(conds: seq<Condition>, attrs: Attrs) {
    forall i :: 0 <= i < |conds| ==> MatchCondition(conds[i], attrs)
  }

  /** An allow reaches a resource that is not a table only by naming its type. */
  predicate Reaches(rule: Rule, attrs: Attrs) {
    rule.deny || "resource.type" !in attrs || attrs["resource.type"] in {"", "table"}
    || NamesResourceType(rule, attrs["resource.type"])
  }

  predicate RuleMatches(rule: Rule, attrs: Attrs, action: Action) {
    && Reaches(rule, attrs)
    && (rule.actions == [] || action in rule.actions)
    && AllMatch(rule.subjects, attrs) && AllMatch(rule.resources, attrs) && AllMatch(rule.environment, attrs)
  }

  // ---- What a rule asks of the attributes ----

  /** The printed items of a list are those of its parts, a space between. */
  lemma {:induction false} JoinedConcat(a: seq<string>, b: seq<string>)
    ensures Joined([]) == "" && (|a| == 1 ==> Joined(a) == a[0])
    ensures a != [] && b != [] ==> Joined(a + b) == Joined(a) + " " + Joined(b)
  {
    if a != [] && b != [] {
      assert (a + b)[0] == a[0] && (a + b)[1..] == a[1..] + b;
      if |a| == 1 {
        assert a[1..] + b == b;
      } else {
        JoinedConcat(a[1..], b);
        assert Joined(a + b) == a[0] + " " + Joined(a[1..] + b);
      }
    }
  }

  /** One value, or, for a relation, one name in two spellings, at least one of them the folded one. */
  ghost predicate SameValue(attribute: string, v: string, w: string) {
    || v == w
    || (attribute in {"resource.name", "resource.table"} && Fold(v) == Fold(w) && (Fold(v) == v || Fold(w) == w))
  }

  ghost predicate Equals(attribute: string, v: string, o: Operand) {
    match o
    case List(items, _) => SameValue(attribute, v, "[" + Joined(items) + "]")
    case Str(s) => SameValue(attribute, v, s)
    case Scalar(s) => SameValue(attribute, v, s)
  }

  ghost predicate Among(attribute: string, v: string, o: Operand) {
    o.List? && exists w :: w in o.items && SameValue(attribute, v, w)
  }

  /** The condition holds, operator by operator, of an attribute that has the value `v`. */
  ghost predicate Says(c: Condition, v: string) {
    match c.op
    case Eq => Equals(c.attribute, v, c.value)
    case Neq => !Equals(c.attribute, v, c.value)
    case In => Among(c.attribute, v, c.value)
    case NotIn => !Among(c.attribute, v, c.value)
    case Exists => true
    case NotExists => false
    case Test(holds) => holds(v, c.value)
  }

  /** It holds of the attributes: of the value that is there, or, for the three negations, of none. */
  ghost predicate Met(c: Condition, attrs: Attrs) {
    if c.attribute in attrs then Says(c, attrs[c.attribute]) else c.op.Neq? || c.op.NotIn? || c.op.NotExists?
  }

  lemma RelationEqMeans(attribute: string, v: string, w: string)
    requires RelationAttribute(attribute)
    ensures RelationEq(v, w) <==> SameValue(attribute, v, w)
  {
    FoldIsFolded(v);
    FoldIsFolded(w);
  }

  lemma AmongMeans(attribute: string, v: string, o: Operand)
    ensures (if RelationAttribute(attribute) then RelationIn(v, o) else CompareIn(v, o)) <==> Among(attribute, v, o)
  {
    if o.List? && RelationAttribute(attribute) {
      forall w | w in o.items
        ensures RelationEq(v, w) <==> SameValue(attribute, v, w)
      {
        RelationEqMeans(attribute, v, w);
      }
    }
  }

  lemma ConditionMeans(c: Condition, attrs: Attrs)
    ensures MatchCondition(c, attrs) <==> Met(c, attrs)
  {
    if c.attribute in attrs {
      var v := attrs[c.attribute];
      AmongMeans(c.attribute, v, c.value);
      if RelationAttribute(c.attribute) {
        RelationEqMeans(c.attribute, v, TextOf(c.value));
      }
    }
  }

  /** A condition that says the resource is of type `t`: `eq` to it, or `in` a list with it. */
  ghost predicate Affirms(c: Condition, t: string) {
    && c.attribute == "resource.type"
    && match c.op
       case Eq => Equals(c.attribute, t, c.value)
       case In => Among(c.attribute, t, c.value)
       case _ => false
  }

  /**
   The rule applies: the action is one of its own, every condition of all three lists is
   met, and an allow on a resource that is no table says which type it is about.
   */
  ghost predicate Applies(rule: Rule, attrs: Attrs, action: Action) {
    && (rule.actions != [] ==> action in rule.actions)
    && (forall c :: c in rule.subjects ==> Met(c, attrs))
    && (forall c :: c in rule.resources ==> Met(c, attrs))
    && (forall c :: c in rule.environment ==> Met(c, attrs))
    && (!rule.deny && "resource.type" in attrs && attrs["resource.type"] != "" && attrs["resource.type"] != "table" ==>
          exists c :: c in rule.resources && Affirms(c, attrs["resource.type"]))
  }

  lemma AllMatchMeans(conds: seq<Condition>, attrs: Attrs)
    ensures AllMatch(conds, attrs) <==> forall c :: c in conds ==> Met(c, attrs)
  {
    forall c
      ensures MatchCondition(c, attrs) <==> Met(c, attrs)
    {
      ConditionMeans(c, attrs);
    }
    if AllMatch(conds, attrs) {
      forall c | c in conds
        ensures Met(c, attrs)
      {
        var i :| 0 <= i < |conds| && conds[i] == c;
      }
    }
  }

  lemma NamesTypeMeans(rule: Rule, t: string)
    ensures NamesResourceType(rule, t) <==> exists c :: c in rule.resources && Affirms(c, t)
  {
    forall i | 0 <= i < |rule.resources|
      ensures rule.resources[i].attribute == "resource.type" ==>
        (CompareIn(t, rule.resources[i].value) <==> Among("resource.type", t, rule.resources[i].value))
    {
      AmongMeans("resource.type", t, rule.resources[i].value);
    }
    if NamesResourceType(rule, t) {
      var i :| 0 <= i < |rule.resources| && rule.resources[i].attribute == "resource.type"
        && ((rule.resources[i].op.Eq? && TextOf(rule.resources[i].value) == t)
            || (rule.resources[i].op.In? && CompareIn(t, rule.resources[i].value)));
      assert Affirms(rule.resources[i], t);
    }
  }

  lemma RuleMatchesMeans(rule: Rule, attrs: Attrs, action: Action)
    ensures RuleMatches(rule, attrs, action) <==> Applies(rule, attrs, action)
  {
    AllMatchMeans(rule.subjects, attrs);
    AllMatchMeans(rule.resources, attrs);
    AllMatchMeans(rule.environment, attrs);
    if "resource.type" in attrs {
      NamesTypeMeans(rule, attrs["resource.type"]);
    }
  }

  // ---- Which rules speak ----

  function ActiveRules(policies: seq<Policy>): seq<Rule> {
    if policies == [] then []
    else
      var n := |policies| - 1;
      ActiveRules(policies[..n]) + (if policies[n].enabled then policies[n].rules else [])
  }

  function Selected(rules: seq<Rule>, f: Rule -> bool): seq<Rule> {
    if rules == [] then []
    else
      var n := |rules| - 1;
      Selected(rules[..n], f) + (if f(rules[n]) then [rules[n]] else [])
  }

  function Speaks(attrs: Attrs, action: Action, deny: bool): Rule -> bool {
    (r: Rule) => RuleMatches(r, attrs, action) && r.deny == deny
  }

  /** The rules of one effect that match, in order. */
  function Speaking(rules: seq<Rule>, attrs: Attrs, action: Action, deny: bool): seq<Rule> {
    Selected(rules, Speaks(attrs, action, deny))
  }

  lemma {:induction false} SelectedConcat(a: seq<Rule>, b: seq<Rule>, f: Rule -> bool)
    ensures Selected(a + b, f) == Selected(a, f) + Selected(b, f)
    decreases |b|
  {
    if b == [] {
      assert a + b == a;
    } else {
      assert (a + b)[..|a + b| - 1] == a + b[..|b| - 1];
      SelectedConcat(a, b[..|b| - 1], f);
    }
  }

  lemma {:induction false} SelectedMembers(rules: seq<Rule>, f: Rule -> bool, x: Rule)
    ensures x in Selected(rules, f) <==> x in rules && f(x)
  {
    if rules != [] {
      var n := |rules| - 1;
      assert rules == rules[..n] + [rules[n]];
      SelectedMembers(rules[..n], f, x);
    }
  }

  lemma SpeakingNext(policies: seq<Policy>, n: nat, attrs: Attrs, action: Action, deny: bool)
    requires n < |policies|
    ensures Speaking(ActiveRules(policies[..n + 1]), attrs, action, deny) ==
            Speaking(ActiveRules(policies[..n]), attrs, action, deny)
            + (if policies[n].enabled then Speaking(policies[n].rules, attrs, action, deny) else [])
  {
    assert policies[..n + 1][..n] == policies[..n];
    if policies[n].enabled {
      SelectedConcat(ActiveRules(policies[..n]), policies[n].rules, Speaks(attrs, action, deny));
    } else {
      assert ActiveRules(policies[..n]) + [] == ActiveRules(policies[..n]);
    }
  }

  function Obligations(rules: seq<Rule>): seq<Obligation> {
    if rules == [] then [] else Obligations(rules[..|rules| - 1]) + rules[|rules| - 1].obligations
  }

  lemma {:induction false} ObligationsConcat(a: seq<Rule>, b: seq<Rule>)
    ensures Obligations(a + b) == Obligations(a) + Obligations(b)
    decreases |b|
  {
    if b == [] {
      assert a + b == a;
    } else {
      assert (a + b)[..|a + b| - 1] == a + b[..|b| - 1];
      ObligationsConcat(a, b[..|b| - 1]);
    }
  }

  /** Only the rules that speak bring obligations, and they bring all of theirs. */
  lemma {:induction false} ObligationsMembers(rules: seq<Rule>, ob: Obligation)
    ensures ob in Obligations(rules) <==> exists r :: r in rules && ob in r.obligations
  {
    if rules != [] {
      var n := |rules| - 1;
      assert rules == rules[..n] + [rules[n]];
      ObligationsMembers(rules[..n], ob);
    }
  }

  /** A rule of a policy that is switched on. */
  ghost predicate Standing(policies: seq<Policy>, r: Rule) {
    exists p :: p in policies && p.enabled && r in p.rules
  }

  lemma {:induction false} ActiveIsStanding(policies: seq<Policy>, r: Rule)
    ensures r in ActiveRules(policies) <==> Standing(policies, r)
  {
    if policies != [] {
      var n := |policies| - 1;
      assert policies == policies[..n] + [policies[n]];
      ActiveIsStanding(policies[..n], r);
    }
  }

  /** A standing rule of this effect that applies. */
  ghost predicate Bears(policies: seq<Policy>, attrs: Attrs, action: Action, deny: bool, r: Rule) {
    Standing(policies, r) && r.deny == deny && Applies(r, attrs, action)
  }

  lemma SpeakingMeans(policies: seq<Policy>, attrs: Attrs, action: Action, deny: bool)
    ensures forall r :: r in Speaking(ActiveRules(policies), attrs, action, deny) <==>
                        Bears(policies, attrs, action, deny, r)
  {
    forall r
      ensures r in Speaking(ActiveRules(policies), attrs, action, deny) <==> Bears(policies, attrs, action, deny, r)
    {
      SelectedMembers(ActiveRules(policies), Speaks(attrs, action, deny), r);
      ActiveIsStanding(policies, r);
      RuleMatchesMeans(r, attrs, action);
    }
  }

  /** The decision cites a rule that bears on the request, none of the same effect ranking above it. */
  ghost predicate Cites(policies: seq<Policy>, attrs: Attrs, action: Action, deny: bool, rule: Option<string>) {
    exists r ::
      && Bears(policies, attrs, action, deny, r) && rule == Some(r.id)
      && forall x :: Bears(policies, attrs, action, deny, x) ==> r.priority <= x.priority
  }

  lemma CitedCites(policies: seq<Policy>, attrs: Attrs, action: Action, deny: bool, i: nat)
    requires Cited(Speaking(ActiveRules(policies), attrs, action, deny), i)
    ensures Cites(policies, attrs, action, deny, Some(Speaking(ActiveRules(policies), attrs, action, deny)[i].id))
  {
    var rules := Speaking(ActiveRules(policies), attrs, action, deny);
    SpeakingMeans(policies, attrs, action, deny);
    assert rules[i] in rules;
    forall x | Bears(policies, attrs, action, deny, x)
      ensures rules[i].priority <= x.priority
    {
      var j :| 0 <= j < |rules| && rules[j] == x;
    }
  }

  /**
   The answer, rule by rule: refused when a deny bears on the request or no allow does,
   and otherwise allowed with exactly the obligations of the allows that do.
   */
  ghost predicate Answers(policies: seq<Policy>, attrs: Attrs, action: Action, d: Decision) {
    var denied := exists r :: Bears(policies, attrs, action, true, r);
    var granted := exists r :: Bears(policies, attrs, action, false, r);
    && (d.allowed <==> granted && !denied)
    && (forall ob :: ob in d.obligations <==>
          d.allowed && exists r :: Bears(policies, attrs, action, false, r) && ob in r.obligations)
    && (denied ==> Cites(policies, attrs, action, true, d.rule))
    && (d.allowed ==> Cites(policies, attrs, action, false, d.rule))
    && (!denied && !granted ==> d.rule.None?)
  }

  /** `rule` is the rule the decision cites, if a rule spoke at all. */
  datatype Decision = Decision(allowed: bool, rule: Option<string>, obligations: seq<Obligation>)

  /** The first of the rules no other outranks; a lower number ranks higher. */
  ghost predicate Cited(rules: seq<Rule>, i: nat) {
    && i < |rules|
    && (forall j :: 0 <= j < |rules| ==> rules[i].priority <= rules[j].priority)
    && (forall j :: 0 <= j < i ==> rules[i].priority < rules[j].priority)
  }

  method Cite(rules: seq<Rule>) returns (best: nat)
    requires rules != []
    ensures Cited(rules, best)
  {
    best := 0;
    for k := 1 to |rules|
      invariant best < k && Cited(rules[..k], best)
    {
      if rules[k].priority < rules[best].priority {
        best := k;
      }
    }
    assert rules[..|rules|] == rules;
  }

  lemma NonEmptySpeaking(policies: seq<Policy>, attrs: Attrs, action: Action, deny: bool)
    ensures Speaking(ActiveRules(policies), attrs, action, deny) != [] <==>
            exists r :: Bears(policies, attrs, action, deny, r)
  {
    var rules := Speaking(ActiveRules(policies), attrs, action, deny);
    SpeakingMeans(policies, attrs, action, deny);
    if rules != [] {
      assert rules[0] in rules;
    }
  }

  lemma OwedMembers(policies: seq<Policy>, attrs: Attrs, action: Action)
    ensures forall ob :: ob in Obligations(Speaking(ActiveRules(policies), attrs, action, false)) <==>
                         exists r :: Bears(policies, attrs, action, false, r) && ob in r.obligations
  {
    SpeakingMeans(policies, attrs, action, false);
    forall ob
      ensures ob in Obligations(Speaking(ActiveRules(policies), attrs, action, false)) <==>
              exists r :: Bears(policies, attrs, action, false, r) && ob in r.obligations
    {
      ObligationsMembers(Speaking(ActiveRules(policies), attrs, action, false), ob);
    }
  }

  /** Deny overrides; with no deny, the matching allows' obligations together; otherwise deny. */
  method Evaluate(policies: seq<Policy>, attrs: Attrs, action: Action) returns (d: Decision)
    ensures var rules := ActiveRules(policies);
      var denies, allows := Speaking(rules, attrs, action, true), Speaking(rules, attrs, action, false);
      && (d.allowed <==> denies == [] && allows != [])
      && d.obligations == (if d.allowed then Obligations(allows) else [])
      && (denies != [] ==> exists i: nat :: Cited(denies, i) && d.rule == Some(denies[i].id))
      && (d.allowed ==> exists i: nat :: Cited(allows, i) && d.rule == Some(allows[i].id))
      && (denies == [] && allows == [] ==> d.rule.None?)
    ensures Answers(policies, attrs, action, d)
  {
    NonEmptySpeaking(policies, attrs, action, true);
    NonEmptySpeaking(policies, attrs, action, false);
    OwedMembers(policies, attrs, action);
    var denies, allows := SplitRules(policies, attrs, action);
    if |denies| > 0 {
      var best := Cite(denies);
      CitedCites(policies, attrs, action, true, best);
      return Decision(false, Some(denies[best].id), []);
    }
    if |allows| > 0 {
      var best := Cite(allows);
      CitedCites(policies, attrs, action, false, best);
      var obligations := [];
      for k := 0 to |allows|
        invariant obligations == Obligations(allows[..k])
      {
        assert allows[..k + 1][..k] == allows[..k];
        obligations := obligations + allows[k].obligations;
      }
      assert allows[..|allows|] == allows;
      return Decision(true, Some(allows[best].id), obligations);
    }
    return Decision(false, None, []);
  }

  method SplitRules(policies: seq<Policy>, attrs: Attrs, action: Action) returns (denies: seq<Rule>, allows: seq<Rule>)
    ensures denies == Speaking(ActiveRules(policies), attrs, action, true)
    ensures allows == Speaking(ActiveRules(policies), attrs, action, false)
  {
    denies, allows := [], [];
    for n := 0 to |policies|
      invariant denies == Speaking(ActiveRules(policies[..n]), attrs, action, true)
      invariant allows == Speaking(ActiveRules(policies[..n]), attrs, action, false)
    {
      SpeakingNext(policies, n, attrs, action, true);
      SpeakingNext(policies, n, attrs, action, false);
      if policies[n].enabled {
        var d, a := SplitPolicy(policies[n].rules, attrs, action);
        denies, allows := denies + d, allows + a;
      }
    }
    assert policies[..|policies|] == policies;
  }

  method SplitPolicy(rules: seq<Rule>, attrs: Attrs, action: Action) returns (denies: seq<Rule>, allows: seq<Rule>)
    ensures denies == Speaking(rules, attrs, action, true) && allows == Speaking(rules, attrs, action, false)
  {
    denies, allows := [], [];
    for k := 0 to |rules|
      invariant denies == Speaking(rules[..k], attrs, action, true)
      invariant allows == Speaking(rules[..k], attrs, action, false)
    {
      assert rules[..k + 1][..k] == rules[..k];
      assert forall deny :: Speaks(attrs, action, deny)(rules[k]) <==>
        RuleMatches(rules[k], attrs, action) && rules[k].deny == deny;
      if RuleMatches(rules[k], attrs, action) {
        if rules[k].deny {
          denies := denies + [rules[k]];
        } else {
          allows := allows + [rules[k]];
        }
      }
    }
    assert rules[..|rules|] == rules;
  }
}
