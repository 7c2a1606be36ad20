/**
 The decision about a table: the merged obligations of the allow rules that speak,
 what it lets through, and why neither the order of policies and rules nor an
 extra rule can open it up.
 */
module Decisions {
  import opened Options
  import opened Bags
  import opened Names
  import opened Policies
  import opened Spaces

  /** The row filter's text: empty, one predicate, or "(left) AND (right)". */
  datatype Filter = Pred(text: string) | And(left: Filter, right: string)

  datatype ColumnDecision = ColumnDecision(column: string, allowed: bool, maskFunc: string, maskExpr: string)

  /** The cost ceilings; zero is "no ceiling". */
  datatype Limits = Limits(rows: nat, bytes: nat, files: nat)

  datatype TableDecision = TableDecision(allowed: bool, filter: Filter, columns: seq<ColumnDecision>, limits: Limits)

  const NO_FILTER := Pred("")
  const NO_LIMITS := Limits(0, 0, 0)
  const REFUSED := TableDecision(false, NO_FILTER, [], NO_LIMITS)

  function AddFilter(f: Filter, value: string): Filter {
    if f == NO_FILTER then Pred(value) else And(f, value)
  }

  function Lower(current: nat, n: nat): nat {
    if n > 0 && (current == 0 || n < current) then n else current
  }

  /** Narrows one ceiling; an obligation that cannot be read narrows nothing. */
  function ApplyQueryLimit(lim: Limits, c: Option<Ceiling>): Limits {
    match c
    case None => lim
    case Some(Rows(n)) => lim.(rows := Lower(lim.rows, n))
    case Some(Bytes(n)) => lim.(bytes := Lower(lim.bytes, n))
    case Some(Files(n)) => lim.(files := Lower(lim.files, n))
  }

  function ColumnsOf(ob: Obligation): seq<ColumnDecision> {
    match ob
    case DenyColumn(target) => [ColumnDecision(target, false, "", "")]
    case MaskColumn(target, maskFunc, value) => [ColumnDecision(target, true, maskFunc, value)]
    case _ => []
  }

  function Merge(td: TableDecision, ob: Obligation): TableDecision {
    match ob
    case RowFilter(value) => td.(filter := AddFilter(td.filter, value))
    case QueryLimit(c) => td.(limits := ApplyQueryLimit(td.limits, c))
    case Unknown(_) => td
    case _ => td.(columns := td.columns + ColumnsOf(ob))
  }

  function Merged(obs: seq<Obligation>): TableDecision {
    if obs == [] then TableDecision(true, NO_FILTER, [], NO_LIMITS)
    else Merge(Merged(obs[..|obs| - 1]), obs[|obs| - 1])
  }

  predicate CanEnforce(obs: seq<Obligation>) {
    forall i :: 0 <= i < |obs| ==> !obs[i].Unknown?
  }

  function TableAttrs(base: Attrs, name: string): Attrs {
    base["resource.type" := "table"]["resource.name" := name]
  }

  /** The table's decision: refused unless an allow speaks, no deny does, and every obligation can be enforced. */
  ghost function Decide(rules: seq<Rule>, attrs: Attrs, action: Action): TableDecision {
    var allows := Speaking(rules, attrs, action, false);
    if Speaking(rules, attrs, action, true) == [] && allows != [] && CanEnforce(Obligations(allows))
    then Merged(Obligations(allows)) else REFUSED
  }

  /** Merges obligations in order; None is the refusal of one that cannot be enforced. */
  method MergeObligations(obs: seq<Obligation>) returns (r: Option<TableDecision>)
    ensures r == if CanEnforce(obs) then Some(Merged(obs)) else None
  {
    var td := TableDecision(true, NO_FILTER, [], NO_LIMITS);
    for i := 0 to |obs|
      invariant CanEnforce(obs[..i]) && td == Merged(obs[..i])
    {
      assert obs[..i + 1][..i] == obs[..i];
      match obs[i]
      case RowFilter(value) =>
        td := td.(filter := AddFilter(td.filter, value));
      case DenyColumn(target) =>
        td := td.(columns := td.columns + [ColumnDecision(target, false, "", "")]);
      case MaskColumn(target, maskFunc, value) =>
        td := td.(columns := td.columns + [ColumnDecision(target, true, maskFunc, value)]);
      case QueryLimit(c) =>
        td := td.(limits := ApplyQueryLimit(td.limits, c));
      case Unknown(_) =>
        return None;
    }
    assert obs[..|obs|] == obs;
    return Some(td);
  }

  method EvaluateTableAccess(policies: seq<Policy>, base: Attrs, name: string, action: Action)
    returns (td: TableDecision)
    ensures td == Decide(ActiveRules(policies), TableAttrs(base, name), action)
    ensures AsOwed(policies, base["resource.type" := "table"]["resource.name" := name], action, td)
  {
    DecisionIsOwed(policies, TableAttrs(base, name), action);
    var d := Evaluate(policies, TableAttrs(base, name), action);
    if !d.allowed {
      return REFUSED;
    }
    var merged := MergeObligations(d.obligations);
    return if merged.Some? then merged.value else REFUSED;
  }

  // ---- What a decision lets through ----

  datatype Truth = True | False | Null

  function Both(a: Truth, b: Truth): Truth {
    if a == False || b == False then False else if a == True && b == True then True else Null
  }

  /** The filter's value on a row, given each predicate's. No filter passes every row. */
  function Holds(f: Filter, eval: string -> Truth): Truth {
    match f
    case Pred(text) => if text == "" then True else eval(text)
    case And(left, right) => Both(Holds(left, eval), eval(right))
  }

  ghost predicate Passes(td: TableDecision, eval: string -> Truth) {
    td.allowed && Holds(td.filter, eval) == True
  }

  ghost predicate NoEmptyFilter(bag: multiset<Obligation>) {
    RowFilter("") !in bag
  }

  ghost predicate FiltersHold(bag: multiset<Obligation>, eval: string -> Truth) {
    forall v :: RowFilter(v) in bag ==> eval(v) == True
  }

  lemma FiltersHoldNext(bag: multiset<Obligation>, ob: Obligation, eval: string -> Truth)
    ensures FiltersHold(bag + multiset{ob}, eval) <==>
      FiltersHold(bag, eval) && (ob.RowFilter? ==> eval(ob.value) == True)
  {
  }

  /** A row passes exactly when every filter of every rule that speaks is true of it. */
  lemma {:induction false} FilterMeans(obs: seq<Obligation>, eval: string -> Truth)
    requires NoEmptyFilter(multiset(obs))
    ensures Holds(Merged(obs).filter, eval) == True <==> FiltersHold(multiset(obs), eval)
  {
    if obs != [] {
      var init, last := obs[..|obs| - 1], obs[|obs| - 1];
      assert obs == init + [last];
      assert last in multiset(obs);
      FilterMeans(init, eval);
      FiltersHoldNext(multiset(init), last, eval);
    }
  }

  /**
   One refused entry per `deny_column`, one allowed entry with its mask per `mask_column`,
   and no other: a refused entry carries no mask.
   */
  ghost predicate ColumnsOwed(bag: multiset<Obligation>, columns: multiset<ColumnDecision>) {
    && (forall c :: columns[ColumnDecision(c, false, "", "")] == bag[DenyColumn(c)])
    && (forall c, f, e :: columns[ColumnDecision(c, true, f, e)] == bag[MaskColumn(c, f, e)])
    && (forall d :: d in columns && !d.allowed ==> d.maskFunc == "" && d.maskExpr == "")
  }

  lemma ColumnsOwedNext(bag: multiset<Obligation>, columns: multiset<ColumnDecision>, ob: Obligation)
    requires ColumnsOwed(bag, columns)
    ensures ColumnsOwed(bag + multiset{ob}, columns + multiset(ColumnsOf(ob)))
  {
  }

  lemma {:induction false} ColumnsMean(obs: seq<Obligation>)
    ensures ColumnsOwed(multiset(obs), multiset(Merged(obs).columns))
  {
    if obs != [] {
      var init, last := obs[..|obs| - 1], obs[|obs| - 1];
      assert obs == init + [last];
      ColumnsMean(init);
      MergeColumns(Merged(init), last);
      ColumnsOwedNext(multiset(init), multiset(Merged(init).columns), last);
    }
  }

  lemma MergeColumns(td: TableDecision, ob: Obligation)
    ensures multiset(Merge(td, ob).columns) == multiset(td.columns) + multiset(ColumnsOf(ob))
  {
  }

  /** A bag of obligations owes one bag of column decisions. */
  lemma OneOwed(bag: multiset<Obligation>, a: multiset<ColumnDecision>, b: multiset<ColumnDecision>)
    requires ColumnsOwed(bag, a) && ColumnsOwed(bag, b)
    ensures a == b
  {
    forall d: ColumnDecision
      ensures a[d] == b[d]
    {
      assert d == ColumnDecision(d.column, d.allowed, d.maskFunc, d.maskExpr);
      if !d.allowed && (d.maskFunc != "" || d.maskExpr != "") {
        assert d !in a && d !in b;
      }
    }
  }

  /** `n` is the least positive ceiling in the bag that `of` selects, or zero when there is none. */
  ghost predicate Least(bag: multiset<Obligation>, of: Ceiling -> bool, n: nat) {
    && (forall c :: QueryLimit(Some(c)) in bag && of(c) && c.n > 0 ==> 0 < n <= c.n)
    && (n > 0 ==> exists c :: QueryLimit(Some(c)) in bag && of(c) && c.n == n)
  }

  lemma LeastIsOne(bag: multiset<Obligation>, of: Ceiling -> bool, m: nat, n: nat)
    requires Least(bag, of, m) && Least(bag, of, n)
    ensures m == n
  {
  }

  ghost predicate Ceilings(bag: multiset<Obligation>, lim: Limits) {
    && Least(bag, (c: Ceiling) => c.Rows?, lim.rows)
    && Least(bag, (c: Ceiling) => c.Bytes?, lim.bytes)
    && Least(bag, (c: Ceiling) => c.Files?, lim.files)
  }

  lemma LeastKept(bag: multiset<Obligation>, ob: Obligation, of: Ceiling -> bool, n: nat)
    requires Least(bag, of, n)
    requires ob.QueryLimit? && ob.ceiling.Some? ==> !of(ob.ceiling.value)
    ensures Least(bag + multiset{ob}, of, n)
  {
  }

  lemma LeastLowered(bag: multiset<Obligation>, c: Ceiling, of: Ceiling -> bool, n: nat)
    requires Least(bag, of, n) && of(c)
    ensures Least(bag + multiset{QueryLimit(Some(c))}, of, Lower(n, c.n))
  {
  }

  lemma CeilingsNext(bag: multiset<Obligation>, ob: Obligation, lim: Limits)
    requires Ceilings(bag, lim)
    ensures Ceilings(bag + multiset{ob}, if ob.QueryLimit? then ApplyQueryLimit(lim, ob.ceiling) else lim)
  {
    var rows, bytes, files := (c: Ceiling) => c.Rows?, (c: Ceiling) => c.Bytes?, (c: Ceiling) => c.Files?;
    if ob.QueryLimit? && ob.ceiling.Some? {
      var c := ob.ceiling.value;
      if c.Rows? { LeastLowered(bag, c, rows, lim.rows); } else { LeastKept(bag, ob, rows, lim.rows); }
      if c.Bytes? { LeastLowered(bag, c, bytes, lim.bytes); } else { LeastKept(bag, ob, bytes, lim.bytes); }
      if c.Files? { LeastLowered(bag, c, files, lim.files); } else { LeastKept(bag, ob, files, lim.files); }
    } else {
      LeastKept(bag, ob, rows, lim.rows);
      LeastKept(bag, ob, bytes, lim.bytes);
      LeastKept(bag, ob, files, lim.files);
    }
  }

  lemma {:induction false} LimitsMean(obs: seq<Obligation>)
    ensures Ceilings(multiset(obs), Merged(obs).limits)
  {
    if obs != [] {
      var init, last := obs[..|obs| - 1], obs[|obs| - 1];
      assert obs == init + [last];
      LimitsMean(init);
      CeilingsNext(multiset(init), last, Merged(init).limits);
    }
  }

  // ---- A table's decision, from the policies as written ----

  /** The obligations of a rule that is an allow and applies. */
  ghost function OwedBy(attrs: Attrs, action: Action): Rule -> multiset<Obligation> {
    (r: Rule) => if !r.deny && Applies(r, attrs, action) then multiset(r.obligations) else multiset{}
  }

  /** Those of all allows that apply, in every policy that is switched on. */
  ghost function OwedIn(attrs: Attrs, action: Action): Policy -> multiset<Obligation> {
    (p: Policy) => if p.enabled then Flat(multiset(p.rules), OwedBy(attrs, action)) else multiset{}
  }

  ghost function Owed(policies: seq<Policy>, attrs: Attrs, action: Action): multiset<Obligation> {
    Flat(multiset(policies), OwedIn(attrs, action))
  }

  ghost function Owes(f: Rule -> bool): Rule -> multiset<Obligation> {
    (r: Rule) => if f(r) then multiset(r.obligations) else multiset{}
  }

  lemma ObligationsLast(said: seq<Rule>, last: Rule)
    ensures multiset(Obligations(said + [last])) == multiset(Obligations(said)) + multiset(last.obligations)
  {
    assert (said + [last])[..|said|] == said;
  }

  lemma SelectedOwesLast(init: seq<Rule>, last: Rule, f: Rule -> bool)
    ensures var said := Selected(init, f);
      multiset(Obligations(said + (if f(last) then [last] else []))) == multiset(Obligations(said)) + Owes(f)(last)
  {
    var said := Selected(init, f);
    if f(last) {
      ObligationsLast(said, last);
    } else {
      assert said + [] == said;
    }
  }

  lemma {:induction false} SelectedOwe(rules: seq<Rule>, f: Rule -> bool)
    ensures multiset(Obligations(Selected(rules, f))) == Flat(multiset(rules), Owes(f))
  {
    if rules != [] {
      var init, last := rules[..|rules| - 1], rules[|rules| - 1];
      assert rules == init + [last];
      SelectedOwe(init, f);
      SelectedOwesLast(init, last, f);
      assert Flat(multiset(rules), Owes(f)) == Flat(multiset(init), Owes(f)) + Owes(f)(last) by {
        FlatAdd(multiset(init), last, Owes(f));
      }
    }
  }

  lemma SpeaksOwes(attrs: Attrs, action: Action, r: Rule)
    ensures Owes(Speaks(attrs, action, false))(r) == OwedBy(attrs, action)(r)
  {
    RuleMatchesMeans(r, attrs, action);
  }

  lemma RulesOwe(rules: seq<Rule>, attrs: Attrs, action: Action)
    ensures multiset(Obligations(Speaking(rules, attrs, action, false))) == Flat(multiset(rules), OwedBy(attrs, action))
  {
    SelectedOwe(rules, Speaks(attrs, action, false));
    forall r: Rule
      ensures Owes(Speaks(attrs, action, false))(r) == OwedBy(attrs, action)(r)
    {
      SpeaksOwes(attrs, action, r);
    }
    FlatAgree(multiset(rules), Owes(Speaks(attrs, action, false)), OwedBy(attrs, action));
  }

  lemma MoreOwe(before: seq<Rule>, last: Policy, attrs: Attrs, action: Action)
    ensures var more := if last.enabled then last.rules else [];
      multiset(Obligations(Speaking(before + more, attrs, action, false))) ==
      multiset(Obligations(Speaking(before, attrs, action, false))) + OwedIn(attrs, action)(last)
  {
    if last.enabled {
      SelectedConcat(before, last.rules, Speaks(attrs, action, false));
      ObligationsConcat(Speaking(before, attrs, action, false), Speaking(last.rules, attrs, action, false));
      RulesOwe(last.rules, attrs, action);
    } else {
      assert before + [] == before;
    }
  }

  lemma {:induction false} PoliciesOwe(policies: seq<Policy>, attrs: Attrs, action: Action)
    ensures multiset(Obligations(Speaking(ActiveRules(policies), attrs, action, false))) ==
            Owed(policies, attrs, action)
  {
    if policies != [] {
      var init, last := policies[..|policies| - 1], policies[|policies| - 1];
      assert policies == init + [last];
      PoliciesOwe(init, attrs, action);
      FlatAdd(multiset(init), last, OwedIn(attrs, action));
      MoreOwe(ActiveRules(init), last, attrs, action);
    }
  }

  /**
   The decision the policies owe: allowed when no deny bears on the request, some allow
   does and everything owed can be enforced; then the columns, the ceilings and the rows
   that pass are those of the obligations owed.
   */
  ghost predicate AsOwed(policies: seq<Policy>, attrs: Attrs, action: Action, td: TableDecision) {
    var owed := Owed(policies, attrs, action);
    var denied := exists r :: Bears(policies, attrs, action, true, r);
    var granted := exists r :: Bears(policies, attrs, action, false, r);
    && (td.allowed <==> granted && !denied && forall ob :: ob in owed ==> !ob.Unknown?)
    && (if td.allowed then Carries(owed, td) else td == REFUSED)
  }

  ghost predicate Carries(owed: multiset<Obligation>, td: TableDecision) {
    && ColumnsOwed(owed, multiset(td.columns)) && Ceilings(owed, td.limits)
    && (NoEmptyFilter(owed) ==> forall eval :: Passes(td, eval) <==> FiltersHold(owed, eval))
  }

  lemma MergedCarries(obs: seq<Obligation>)
    ensures Carries(multiset(obs), Merged(obs))
  {
    MergedAllows(obs);
    ColumnsMean(obs);
    LimitsMean(obs);
    if NoEmptyFilter(multiset(obs)) {
      forall eval: string -> Truth
        ensures Holds(Merged(obs).filter, eval) == True <==> FiltersHold(multiset(obs), eval)
      {
        FilterMeans(obs, eval);
      }
    }
  }

  lemma DecisionIsOwed(policies: seq<Policy>, attrs: Attrs, action: Action)
    ensures AsOwed(policies, attrs, action, Decide(ActiveRules(policies), attrs, action))
  {
    var obs := Obligations(Speaking(ActiveRules(policies), attrs, action, false));
    NonEmptySpeaking(policies, attrs, action, true);
    NonEmptySpeaking(policies, attrs, action, false);
    PoliciesOwe(policies, attrs, action);
    Enforceable(obs);
    MergedAllows(obs);
    MergedCarries(obs);
  }

  // ---- The order of policies and rules ----

  lemma {:induction false} SelectedCount(rules: seq<Rule>, f: Rule -> bool, x: Rule)
    ensures multiset(Selected(rules, f))[x] == if f(x) then multiset(rules)[x] else 0
  {
    if rules != [] {
      var init, last := rules[..|rules| - 1], rules[|rules| - 1];
      assert rules == init + [last];
      SelectedCount(init, f, x);
    }
  }

  lemma SelectedBag(a: seq<Rule>, b: seq<Rule>, f: Rule -> bool)
    requires multiset(a) == multiset(b)
    ensures multiset(Selected(a, f)) == multiset(Selected(b, f))
    ensures Selected(a, f) == [] <==> Selected(b, f) == []
  {
    forall x: Rule
      ensures multiset(Selected(a, f))[x] == multiset(Selected(b, f))[x]
    {
      SelectedCount(a, f, x);
      SelectedCount(b, f, x);
    }
    assert |multiset(Selected(a, f))| == |Selected(a, f)| && |multiset(Selected(b, f))| == |Selected(b, f)|;
  }

  ghost function ObligationsIn(bag: multiset<Rule>): multiset<Obligation> {
    Flat(bag, (r: Rule) => multiset(r.obligations))
  }

  lemma {:induction false} ObligationsBag(rules: seq<Rule>)
    ensures multiset(Obligations(rules)) == ObligationsIn(multiset(rules))
  {
    if rules != [] {
      var init, last := rules[..|rules| - 1], rules[|rules| - 1];
      assert rules == init + [last];
      ObligationsBag(init);
      FlatAdd(multiset(init), last, (r: Rule) => multiset(r.obligations));
    }
  }

  ghost function RulesIn(bag: multiset<Policy>): multiset<Rule> {
    Flat(bag, (p: Policy) => if p.enabled then multiset(p.rules) else multiset{})
  }

  lemma {:induction false} ActiveBag(policies: seq<Policy>)
    ensures multiset(ActiveRules(policies)) == RulesIn(multiset(policies))
  {
    if policies != [] {
      var init, last := policies[..|policies| - 1], policies[|policies| - 1];
      assert policies == init + [last];
      ActiveBag(init);
      FlatAdd(multiset(init), last, (p: Policy) => if p.enabled then multiset(p.rules) else multiset{});
    }
  }

  /** Same access, same rows through, same column decisions, same ceilings. */
  ghost predicate SameDecision(a: TableDecision, b: TableDecision) {
    && a.allowed == b.allowed && multiset(a.columns) == multiset(b.columns) && a.limits == b.limits
    && forall eval :: Passes(a, eval) <==> Passes(b, eval)
  }

  lemma MergedBag(a: seq<Obligation>, b: seq<Obligation>)
    requires multiset(a) == multiset(b) && NoEmptyFilter(multiset(a))
    ensures SameDecision(Merged(a), Merged(b))
    ensures CanEnforce(a) <==> CanEnforce(b)
  {
    ColumnsMean(a);
    ColumnsMean(b);
    OneOwed(multiset(a), multiset(Merged(a).columns), multiset(Merged(b).columns));
    SameLimits(a, b);
    MergedAllows(a);
    MergedAllows(b);
    forall eval: string -> Truth
      ensures Passes(Merged(a), eval) <==> Passes(Merged(b), eval)
    {
      FilterMeans(a, eval);
      FilterMeans(b, eval);
    }
    Enforceable(a);
    Enforceable(b);
  }

  lemma {:induction false} MergedAllows(obs: seq<Obligation>)
    ensures Merged(obs).allowed
  {
    if obs != [] {
      MergedAllows(obs[..|obs| - 1]);
    }
  }

  lemma Enforceable(obs: seq<Obligation>)
    ensures CanEnforce(obs) <==> forall ob :: ob in multiset(obs) ==> !ob.Unknown?
  {
  }

  lemma SameLimits(a: seq<Obligation>, b: seq<Obligation>)
    requires multiset(a) == multiset(b)
    ensures Merged(a).limits == Merged(b).limits
  {
    LimitsMean(a);
    LimitsMean(b);
    var bag, x, y := multiset(a), Merged(a).limits, Merged(b).limits;
    LeastIsOne(bag, (c: Ceiling) => c.Rows?, x.rows, y.rows);
    LeastIsOne(bag, (c: Ceiling) => c.Bytes?, x.bytes, y.bytes);
    LeastIsOne(bag, (c: Ceiling) => c.Files?, x.files, y.files);
  }

  /** No allow rule carries an empty row filter, as the loader checks. */
  ghost predicate FiltersWritten(rules: seq<Rule>) {
    forall i :: 0 <= i < |rules| ==> RowFilter("") !in rules[i].obligations
  }

  lemma {:induction false} NoEmptyAmong(rules: seq<Rule>)
    requires FiltersWritten(rules)
    ensures NoEmptyFilter(multiset(Obligations(rules)))
  {
    if rules != [] {
      NoEmptyAmong(rules[..|rules| - 1]);
    }
  }

  lemma SelectedWritten(rules: seq<Rule>, f: Rule -> bool)
    requires FiltersWritten(rules)
    ensures FiltersWritten(Selected(rules, f))
  {
  }

  /** Putting the rules in any other order decides the same. */
  lemma RuleOrderIsFree(a: seq<Rule>, b: seq<Rule>, attrs: Attrs, action: Action)
    requires multiset(a) == multiset(b) && FiltersWritten(a)
    ensures SameDecision(Decide(a, attrs, action), Decide(b, attrs, action))
  {
    var allow := Speaks(attrs, action, false);
    SelectedBag(a, b, Speaks(attrs, action, true));
    SelectedBag(a, b, allow);
    SelectedWritten(a, allow);
    NoEmptyAmong(Selected(a, allow));
    ObligationsBag(Selected(a, allow));
    ObligationsBag(Selected(b, allow));
    MergedBag(Obligations(Selected(a, allow)), Obligations(Selected(b, allow)));
  }

  /** And so does listing the policies in any other order. */
  lemma PolicyOrderIsFree(p: seq<Policy>, q: seq<Policy>, attrs: Attrs, action: Action)
    requires multiset(p) == multiset(q) && FiltersWritten(ActiveRules(p))
    ensures SameDecision(Decide(ActiveRules(p), attrs, action), Decide(ActiveRules(q), attrs, action))
  {
    ActiveBag(p);
    ActiveBag(q);
    RuleOrderIsFree(ActiveRules(p), ActiveRules(q), attrs, action);
  }

  // ---- Sets the loader accepts ----

  /** What the SQL parser says of a row filter, and of a mask beside the columns its rule restricts. */
  datatype Sql = Sql(predicate_: string -> bool, mask: (string, set<string>) -> bool)

  function Restricted(obs: seq<Obligation>): set<string> {
    set i | 0 <= i < |obs| && (obs[i].DenyColumn? || obs[i].MaskColumn?) :: Fold(Trim(obs[i].target))
  }

  predicate Loads(ob: Obligation, restricted: set<string>, sql: Sql) {
    match ob
    case RowFilter(value) => Trim(value) != "" && sql.predicate_(value)
    case DenyColumn(target) => Trim(target) != ""
    case MaskColumn(target, maskFunc, value) =>
      Trim(target) != "" && if value == "" then maskFunc != "" else sql.mask(value, restricted)
    case QueryLimit(c) => c.Some?
    case Unknown(_) => false
  }

  ghost predicate RuleLoads(rule: Rule, sql: Sql) {
    forall i :: 0 <= i < |rule.obligations| ==> Loads(rule.obligations[i], Restricted(rule.obligations), sql)
  }

  /** Every obligation of every rule can be enforced as written, in disabled policies too. */
  ghost predicate SetLoads(policies: seq<Policy>, sql: Sql) {
    forall i, j :: 0 <= i < |policies| && 0 <= j < |policies[i].rules| ==> RuleLoads(policies[i].rules[j], sql)
  }

  /** The loader: every policy, rule by rule and obligation by obligation, up to the first that cannot be enforced. */
  method ValidatePolicies(policies: seq<Policy>, sql: Sql) returns (ok: bool)
    ensures ok <==> SetLoads(policies, sql)
  {
    for i := 0 to |policies|
      invariant forall k, j :: 0 <= k < i && 0 <= j < |policies[k].rules| ==> RuleLoads(policies[k].rules[j], sql)
    {
      for j := 0 to |policies[i].rules|
        invariant forall k :: 0 <= k < j ==> RuleLoads(policies[i].rules[k], sql)
      {
        var rule := policies[i].rules[j];
        var restricted := Restricted(rule.obligations);
        for k := 0 to |rule.obligations|
          invariant forall l :: 0 <= l < k ==> Loads(rule.obligations[l], restricted, sql)
        {
          if !Loads(rule.obligations[k], restricted, sql) {
            assert !RuleLoads(policies[i].rules[j], sql);
            return false;
          }
        }
      }
    }
    return true;
  }

  /** An obligation that can be enforced as it is written, in a rule with these others. */
  ghost predicate Doable(ob: Obligation, beside: seq<Obligation>, sql: Sql) {
    match ob
    case RowFilter(v) => Trim(v) != "" && sql.predicate_(v)
    case DenyColumn(c) => Trim(c) != ""
    case MaskColumn(c, f, v) =>
      && Trim(c) != "" && (v == "" ==> f != "")
      && (v != "" ==> exists taken :: sql.mask(v, taken) && AllTaken(beside, taken))
    case QueryLimit(c) => c.Some?
    case Unknown(_) => false
  }

  /** The mask is checked against every column the rule takes away, however its name is spelled. */
  ghost predicate AllTaken(obs: seq<Obligation>, taken: set<string>) {
    && (forall c :: DenyColumn(c) in obs ==> Fold(Trim(c)) in taken)
    && (forall c, f, v :: MaskColumn(c, f, v) in obs ==> Fold(Trim(c)) in taken)
  }

  lemma RestrictedTaken(obs: seq<Obligation>)
    ensures AllTaken(obs, Restricted(obs))
  {
    forall ob | ob in obs && (ob.DenyColumn? || ob.MaskColumn?)
      ensures Fold(Trim(ob.target)) in Restricted(obs)
    {
      var i :| 0 <= i < |obs| && obs[i] == ob;
    }
    forall c | DenyColumn(c) in obs
      ensures Fold(Trim(c)) in Restricted(obs)
    {
      assert DenyColumn(c).target == c;
    }
    forall c, f, v | MaskColumn(c, f, v) in obs
      ensures Fold(Trim(c)) in Restricted(obs)
    {
      assert MaskColumn(c, f, v).target == c;
    }
  }

  lemma LoadedObligation(rule: Rule, sql: Sql, ob: Obligation)
    requires RuleLoads(rule, sql) && ob in rule.obligations
    ensures Doable(ob, rule.obligations, sql)
  {
    RestrictedTaken(rule.obligations);
    assert Loads(ob, Restricted(rule.obligations), sql);
  }

  /** Whatever a loaded set owes on a request, it can enforce as written. */
  lemma LoadedOwes(policies: seq<Policy>, sql: Sql, attrs: Attrs, action: Action, ob: Obligation)
    requires SetLoads(policies, sql) && ob in Owed(policies, attrs, action)
    ensures exists r ::
      Bears(policies, attrs, action, false, r) && ob in r.obligations && Doable(ob, r.obligations, sql)
  {
    PoliciesOwe(policies, attrs, action);
    OwedMembers(policies, attrs, action);
    assert ob in Obligations(Speaking(ActiveRules(policies), attrs, action, false));
    var r :| Bears(policies, attrs, action, false, r) && ob in r.obligations;
    ActiveIsStanding(policies, r);
    ActiveLoads(policies, sql);
    LoadedObligation(r, sql, ob);
  }

  ghost predicate AllLoad(rules: seq<Rule>, sql: Sql) {
    forall r :: r in rules ==> RuleLoads(r, sql)
  }

  lemma {:induction false} ActiveLoads(policies: seq<Policy>, sql: Sql)
    requires SetLoads(policies, sql)
    ensures AllLoad(ActiveRules(policies), sql)
  {
    if policies != [] {
      var init := policies[..|policies| - 1];
      assert forall i :: 0 <= i < |init| ==> init[i] == policies[i];
      ActiveLoads(init, sql);
    }
  }

  lemma BlankDoesNotLoad(rule: Rule, sql: Sql)
    requires RuleLoads(rule, sql)
    ensures RowFilter("") !in rule.obligations
  {
  }

  lemma LoadedIsWritten(rules: seq<Rule>, sql: Sql)
    requires AllLoad(rules, sql)
    ensures FiltersWritten(rules)
  {
    forall i | 0 <= i < |rules|
      ensures RowFilter("") !in rules[i].obligations
    {
      BlankDoesNotLoad(rules[i], sql);
    }
  }

  /** A set that loads decides the same however its policies are listed. */
  lemma LoadedOrderIsFree(p: seq<Policy>, q: seq<Policy>, sql: Sql, attrs: Attrs, action: Action)
    requires SetLoads(p, sql) && multiset(p) == multiset(q)
    ensures SameDecision(Decide(ActiveRules(p), attrs, action), Decide(ActiveRules(q), attrs, action))
  {
    ActiveLoads(p, sql);
    LoadedIsWritten(ActiveRules(p), sql);
    PolicyOrderIsFree(p, q, attrs, action);
  }

  lemma {:induction false} LoadedCanEnforce(rules: seq<Rule>, sql: Sql)
    requires AllLoad(rules, sql)
    ensures CanEnforce(Obligations(rules))
  {
    if rules != [] {
      LoadedCanEnforce(rules[..|rules| - 1], sql);
      assert RuleLoads(rules[|rules| - 1], sql);
    }
  }

  lemma SelectedFrom(rules: seq<Rule>, f: Rule -> bool)
    ensures forall r :: r in Selected(rules, f) <==> r in rules && f(r)
    ensures Selected(rules, f) == [] <==> forall r :: r in rules ==> !f(r)
  {
    forall r: Rule
      ensures r in Selected(rules, f) <==> r in rules && f(r)
    {
      SelectedMembers(rules, f, r);
    }
    assert Selected(rules, f) != [] ==> Selected(rules, f)[0] in Selected(rules, f);
  }

  /** And refuses a request only for a deny that speaks or for want of an allow. */
  lemma LoadedRefusesIff(policies: seq<Policy>, sql: Sql, attrs: Attrs, action: Action)
    requires SetLoads(policies, sql)
    ensures var rules := ActiveRules(policies);
      Decide(rules, attrs, action).allowed <==>
        (forall r :: r in rules ==> !Speaks(attrs, action, true)(r))
        && exists r :: r in rules && Speaks(attrs, action, false)(r)
  {
    var rules := ActiveRules(policies);
    var allows := Speaks(attrs, action, false);
    ActiveLoads(policies, sql);
    SelectedFrom(rules, Speaks(attrs, action, true));
    SelectedFrom(rules, allows);
    LoadedCanEnforce(Selected(rules, allows), sql);
    MergedAllows(Obligations(Selected(rules, allows)));
  }

  // ---- One more rule ----

  lemma SelectedNext(rules: seq<Rule>, x: Rule, f: Rule -> bool)
    ensures Selected(rules + [x], f) == Selected(rules, f) + (if f(x) then [x] else [])
  {
  }

  lemma ObligationsNext(rules: seq<Rule>, x: Rule)
    ensures Obligations(rules + [x]) == Obligations(rules) + x.obligations
  {
  }

  /** A deny changes nothing where it does not speak, and refuses where it does. */
  lemma DenyOnlyCloses(rules: seq<Rule>, d: Rule, attrs: Attrs, action: Action)
    requires d.deny
    ensures var with := Decide(rules + [d], attrs, action);
      if RuleMatches(d, attrs, action) then with == REFUSED else with == Decide(rules, attrs, action)
  {
    DenySpeaks(rules, d, attrs, action);
  }

  lemma DenySpeaks(rules: seq<Rule>, d: Rule, attrs: Attrs, action: Action)
    requires d.deny
    ensures Speaking(rules + [d], attrs, action, false) == Speaking(rules, attrs, action, false)
    ensures Speaking(rules + [d], attrs, action, true) ==
            Speaking(rules, attrs, action, true) + (if RuleMatches(d, attrs, action) then [d] else [])
  {
    SelectedNext(rules, d, Speaks(attrs, action, false));
    SelectedNext(rules, d, Speaks(attrs, action, true));
    assert Speaking(rules, attrs, action, false) + [] == Speaking(rules, attrs, action, false);
  }

  ghost predicate Tighter(lim: Limits, than: Limits) {
    && (than.rows > 0 ==> 0 < lim.rows <= than.rows)
    && (than.bytes > 0 ==> 0 < lim.bytes <= than.bytes)
    && (than.files > 0 ==> 0 < lim.files <= than.files)
  }

  /** No row, no column and no ceiling is more open in `a` than in `b`. */
  ghost predicate NoWider(a: TableDecision, b: TableDecision) {
    a.allowed ==>
      && b.allowed && multiset(b.columns) <= multiset(a.columns) && Tighter(a.limits, b.limits)
      && forall eval :: Passes(a, eval) ==> Passes(b, eval)
  }

  lemma LeastGrows(small: multiset<Obligation>, big: multiset<Obligation>, of: Ceiling -> bool, m: nat, n: nat)
    requires small <= big && Least(small, of, m) && Least(big, of, n)
    ensures m > 0 ==> 0 < n <= m
  {
  }

  lemma LimitsTighten(a: seq<Obligation>, b: seq<Obligation>)
    requires multiset(a) <= multiset(b)
    ensures Tighter(Merged(b).limits, Merged(a).limits)
  {
    LimitsMean(a);
    LimitsMean(b);
    var x, y := Merged(a).limits, Merged(b).limits;
    LeastGrows(multiset(a), multiset(b), (c: Ceiling) => c.Rows?, x.rows, y.rows);
    LeastGrows(multiset(a), multiset(b), (c: Ceiling) => c.Bytes?, x.bytes, y.bytes);
    LeastGrows(multiset(a), multiset(b), (c: Ceiling) => c.Files?, x.files, y.files);
  }

  lemma {:induction false} ColumnsGrow(obs: seq<Obligation>, more: seq<Obligation>)
    ensures multiset(Merged(obs).columns) <= multiset(Merged(obs + more).columns)
    decreases |more|
  {
    if more == [] {
      assert obs + more == obs;
    } else {
      assert (obs + more)[..|obs + more| - 1] == obs + more[..|more| - 1];
      ColumnsGrow(obs, more[..|more| - 1]);
    }
  }

  lemma MoreObligations(obs: seq<Obligation>, more: seq<Obligation>)
    requires NoEmptyFilter(multiset(obs + more))
    ensures NoWider(Merged(obs + more), Merged(obs))
  {
    assert multiset(obs + more) == multiset(obs) + multiset(more);
    ColumnsGrow(obs, more);
    LimitsTighten(obs, obs + more);
    MergedAllows(obs);
    forall eval: string -> Truth | Passes(Merged(obs + more), eval)
      ensures Passes(Merged(obs), eval)
    {
      FilterMeans(obs, eval);
      FilterMeans(obs + more, eval);
      assert forall v :: RowFilter(v) in multiset(obs) ==> RowFilter(v) in multiset(obs + more);
    }
  }

  lemma NarrowsItself(td: TableDecision)
    ensures NoWider(td, td)
  {
  }

  /** Another allow, on a request already allowed, only narrows it or refuses it. */
  lemma AllowOnlyNarrows(rules: seq<Rule>, a: Rule, attrs: Attrs, action: Action)
    requires !a.deny && FiltersWritten(rules + [a]) && Decide(rules, attrs, action).allowed
    ensures NoWider(Decide(rules + [a], attrs, action), Decide(rules, attrs, action))
  {
    var allow, deny := Speaks(attrs, action, false), Speaks(attrs, action, true);
    SelectedNext(rules, a, allow);
    SelectedNext(rules, a, deny);
    assert !deny(a) && Selected(rules, deny) + [] == Selected(rules, deny);
    SelectedWritten(rules + [a], allow);
    NoEmptyAmong(Selected(rules + [a], allow));
    if allow(a) {
      ObligationsNext(Selected(rules, allow), a);
      MoreObligations(Obligations(Selected(rules, allow)), a.obligations);
    } else {
      assert Selected(rules, allow) + [] == Selected(rules, allow);
      NarrowsItself(Decide(rules, attrs, action));
    }
  }

  // ---- Filters with no text ----

  function Texts(obs: seq<Obligation>): seq<string> {
    if obs == [] then []
    else
      var n := |obs| - 1;
      Texts(obs[..n]) + (if obs[n].RowFilter? then [obs[n].value] else [])
  }

  function Conjoin(texts: seq<string>): Filter {
    if texts == [] then NO_FILTER else AddFilter(Conjoin(texts[..|texts| - 1]), texts[|texts| - 1])
  }

  lemma {:induction false} MergedFilter(obs: seq<Obligation>)
    ensures Merged(obs).filter == Conjoin(Texts(obs))
  {
    if obs != [] {
      var init, last := obs[..|obs| - 1], obs[|obs| - 1];
      MergedFilter(init);
      if last.RowFilter? {
        assert (Texts(init) + [last.value])[..|Texts(init)|] == Texts(init);
      } else {
        assert Texts(init) + [] == Texts(init);
      }
    }
  }

  ghost predicate Lets(texts: seq<string>, eval: string -> Truth) {
    Holds(Conjoin(texts), eval) == True
  }

  /** Some conjunct is "()", which is not a predicate: such a filter is refused, or dropped. */
  predicate Malformed(f: Filter) {
    f.And? && (f.right == "" || Malformed(f.left))
  }

  /** In every order the filters are malformed or not alike, and let the same rows through. */
  ghost predicate TextOrderFree(texts: seq<string>) {
    forall other :: multiset(other) == multiset(texts) ==> SameFilter(texts, other)
  }

  ghost predicate SameFilter(a: seq<string>, b: seq<string>) {
    (Malformed(Conjoin(a)) <==> Malformed(Conjoin(b))) && forall eval :: Lets(a, eval) <==> Lets(b, eval)
  }

  predicate NoneEmpty(texts: seq<string>) {
    forall i :: 0 <= i < |texts| ==> texts[i] != ""
  }

  predicate AllEmpty(texts: seq<string>) {
    forall i :: 0 <= i < |texts| ==> texts[i] == ""
  }

  lemma {:induction false} WrittenTexts(texts: seq<string>, eval: string -> Truth)
    requires NoneEmpty(texts)
    ensures Lets(texts, eval) <==> AllHold(multiset(texts), eval)
    ensures Conjoin(texts) == NO_FILTER <==> texts == []
    ensures !Malformed(Conjoin(texts))
  {
    if texts != [] {
      var init, last := texts[..|texts| - 1], texts[|texts| - 1];
      assert texts == init + [last];
      WrittenTexts(init, eval);
      AllHoldNext(multiset(init), last, eval);
    }
  }

  ghost predicate AllHold(bag: multiset<string>, eval: string -> Truth) {
    forall v :: v in bag ==> eval(v) == True
  }

  lemma AllHoldNext(bag: multiset<string>, v: string, eval: string -> Truth)
    ensures AllHold(bag + multiset{v}, eval) <==> AllHold(bag, eval) && eval(v) == True
  {
  }

  lemma {:induction false} EmptyTexts(texts: seq<string>)
    requires AllEmpty(texts)
    ensures Conjoin(texts) == NO_FILTER
  {
    if texts != [] {
      EmptyTexts(texts[..|texts| - 1]);
    }
  }

  lemma {:induction false} EmptyThenWritten(empty: seq<string>, written: seq<string>)
    requires AllEmpty(empty) && NoneEmpty(written)
    ensures !Malformed(Conjoin(empty + written))
    decreases |written|
  {
    if written == [] {
      assert empty + written == empty;
      EmptyTexts(empty);
    } else {
      var init := written[..|written| - 1];
      assert (empty + written)[..|empty + written| - 1] == empty + init;
      EmptyThenWritten(empty, init);
    }
  }

  /** A filter that follows another is always conjoined, so an empty one is "()" there. */
  lemma {:induction false} WrittenThenAny(first: string, rest: seq<string>)
    requires first != ""
    ensures Conjoin([first] + rest) != NO_FILTER
    ensures "" in rest ==> Malformed(Conjoin([first] + rest))
    decreases |rest|
  {
    if rest == [] {
      assert [first] + rest == [first];
      assert [first][..0] == [];
    } else {
      var init, last := rest[..|rest| - 1], rest[|rest| - 1];
      assert ([first] + rest)[..|rest|] == [first] + init;
      assert rest == init + [last];
      WrittenThenAny(first, init);
    }
  }

  function Kept(texts: seq<string>, empty: bool): (r: seq<string>)
    ensures empty ==> AllEmpty(r)
    ensures !empty ==> NoneEmpty(r)
  {
    if texts == [] then []
    else (if (texts[0] == "") == empty then [texts[0]] else []) + Kept(texts[1..], empty)
  }

  lemma {:induction false} KeptBoth(texts: seq<string>)
    ensures multiset(Kept(texts, true) + Kept(texts, false)) == multiset(texts)
  {
    if texts != [] {
      assert texts == [texts[0]] + texts[1..];
      KeptBoth(texts[1..]);
      assert multiset(Kept(texts, true)) + multiset(Kept(texts, false)) ==
             multiset(Kept(texts[1..], true)) + multiset(Kept(texts[1..], false)) + multiset{texts[0]};
    }
  }

  /** The filters can be written in any order if and only if none is empty, or all are. */
  lemma TextOrderFreeIff(texts: seq<string>)
    ensures TextOrderFree(texts) <==> NoneEmpty(texts) || AllEmpty(texts)
  {
    if NoneEmpty(texts) || AllEmpty(texts) {
      forall other | multiset(other) == multiset(texts)
        ensures SameFilter(texts, other)
      {
        OneKindOneFilter(texts, other);
      }
    } else {
      var i :| 0 <= i < |texts| && texts[i] == "";
      var j :| 0 <= j < |texts| && texts[j] != "";
      TwoKinds(texts, i, j);
    }
  }

  lemma OneKind(texts: seq<string>, other: seq<string>, eval: string -> Truth)
    requires (NoneEmpty(texts) || AllEmpty(texts)) && multiset(other) == multiset(texts)
    ensures !Malformed(Conjoin(texts)) && !Malformed(Conjoin(other))
    ensures Lets(texts, eval) <==> Lets(other, eval)
  {
    forall i | 0 <= i < |other|
      ensures other[i] in multiset(texts) && exists k :: 0 <= k < |texts| && texts[k] == other[i]
    {
      assert other[i] in multiset(other);
    }
    if NoneEmpty(texts) {
      WrittenTexts(texts, eval);
      WrittenTexts(other, eval);
    } else {
      EmptyTexts(texts);
      EmptyTexts(other);
    }
  }

  lemma OneKindOneFilter(texts: seq<string>, other: seq<string>)
    requires (NoneEmpty(texts) || AllEmpty(texts)) && multiset(other) == multiset(texts)
    ensures SameFilter(texts, other)
  {
    OneKind(texts, other, (text: string) => True);
    forall eval: string -> Truth
      ensures Lets(texts, eval) <==> Lets(other, eval)
    {
      OneKind(texts, other, eval);
    }
  }

  lemma TwoKinds(texts: seq<string>, i: nat, j: nat)
    requires i < |texts| && j < |texts| && texts[i] == "" && texts[j] != ""
    ensures !TextOrderFree(texts)
  {
    var open := Kept(texts, true) + Kept(texts, false);
    KeptBoth(texts);
    EmptyThenWritten(Kept(texts, true), Kept(texts, false));
    var rest := MovedFirst(texts, i, j);
    WrittenThenAny(texts[j], rest);
    TwoForms(texts, open, [texts[j]] + rest);
  }

  lemma TwoForms(texts: seq<string>, a: seq<string>, b: seq<string>)
    requires multiset(a) == multiset(texts) == multiset(b) && !Malformed(Conjoin(a)) && Malformed(Conjoin(b))
    ensures !TextOrderFree(texts)
  {
    assert !SameFilter(texts, a) || !SameFilter(texts, b);
  }

  /** A blank filter before a written one vanishes; after it, it spoils the conjunction. */
  lemma BlankFilterMatters(text: string)
    requires text != ""
    ensures Conjoin(["", text]) == Pred(text) && Malformed(Conjoin([text, ""]))
  {
    assert ["", text][..1] == [""] && [""][..0] == [] && [text, ""][..1] == [text] && [text][..0] == [];
  }

  lemma MovedFirst(texts: seq<string>, i: nat, j: nat) returns (rest: seq<string>)
    requires i < |texts| && j < |texts| && i != j
    ensures multiset([texts[j]] + rest) == multiset(texts) && texts[i] in rest
  {
    rest := texts[..j] + texts[j + 1..];
    assert texts == texts[..j] + [texts[j]] + texts[j + 1..];
    assert rest[if i < j then i else i - 1] == texts[i];
  }

  // ---- Ceilings from two relations ----

  /** `NarrowQueryLimits`: the smaller of every ceiling either side sets. */
  function Narrow(a: Limits, b: Limits): Limits {
    Limits(Lower(a.rows, b.rows), Lower(a.bytes, b.bytes), Lower(a.files, b.files))
  }

  /** Narrowing is the greatest lower bound: it binds to both sides and to nothing tighter. */
  lemma NarrowIsMeet(a: Limits, b: Limits, c: Limits)
    ensures Tighter(Narrow(a, b), a) && Tighter(Narrow(a, b), b)
    ensures Tighter(c, a) && Tighter(c, b) ==> Tighter(c, Narrow(a, b))
    ensures Narrow(a, b) == Narrow(b, a) && Narrow(Narrow(a, b), c) == Narrow(a, Narrow(b, c)) && Narrow(a, a) == a
  {
  }
}
