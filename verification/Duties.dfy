/**
 What the migrated policies make a statement do: which columns they hide or mask and
 which rows they let through, read off the cell policies they were made from; and who
 may call a table function.
 */
module Duties {
  import opened Options
  import opened Bags
  import opened Policies
  import opened Decisions
  import opened LegacyPolicies
  import opened Migration
  import opened Names
  import opened Bindings
  import opened Spaces

  // ---- Obligations ----

  /** The cell policy is about the role and the table, in any spelling the policy comparison takes for it. */
  ghost predicate Concerns(cp: CellPolicy, role: string, t: string) {
    cp.role == role && (cp.table == "*" || SameValue("resource.name", t, cp.table))
  }

  /** What a cell policy asks for: a column denied, a column masked by redaction, or its row filter. */
  ghost predicate Asks(cp: CellPolicy, ob: Obligation) {
    match ob
    case DenyColumn(c) => Policed(c, Some(Deny)) in cp.columns
    case MaskColumn(c, f, v) => f == "redact" && v == "" && Policed(c, Some(Mask)) in cp.columns
    case RowFilter(v) => v != "" && v == cp.rowFilter
    case QueryLimit(_) => false
    case Unknown(_) => false
  }

  lemma {:induction false} ColumnsAsk(columns: seq<Policed>, ob: Obligation)
    requires ColumnObligations(columns).Some?
    ensures ob in ColumnObligations(columns).value <==>
      match ob
      case DenyColumn(c) => Policed(c, Some(Deny)) in columns
      case MaskColumn(c, f, v) => f == "redact" && v == "" && Policed(c, Some(Mask)) in columns
      case _ => false
  {
    if columns != [] {
      var init, last := columns[..|columns| - 1], columns[|columns| - 1];
      assert columns == init + [last];
      ColumnsAsk(init, ob);
      assert last == Policed(last.column, Some(last.action.value));
    }
  }

  lemma CellAsks(cp: CellPolicy, ob: Obligation)
    requires CellObligations(cp).Some?
    ensures ob in CellObligations(cp).value <==> Asks(cp, ob)
  {
    ColumnsAsk(cp.columns, ob);
  }

  /** An obligation some cell policy of the role on the table asks for. */
  ghost predicate Due(cells: seq<CellPolicy>, role: string, t: string, ob: Obligation) {
    exists cp :: cp in cells && Concerns(cp, role, t) && Asks(cp, ob)
  }

  lemma {:induction false} AllReadable(cells: seq<CellPolicy>)
    requires CellPolicies(cells).Some?
    ensures forall cp :: cp in cells ==> CellObligations(cp).Some?
  {
    if cells != [] {
      var init, last := cells[..|cells| - 1], cells[|cells| - 1];
      assert cells == init + [last];
      AllReadable(init);
    }
  }

  /** The migrated rule behind an obligation is a cell policy's own. */
  lemma DueBehind(roles: seq<Role>, cells: seq<CellPolicy>, base: Attrs, t: string, a: Action, x: Rule, ob: Obligation)
    requires Migrated(roles, cells).Some? && "subject.role" in base
    requires x in ActiveRules(Migrated(roles, cells).value) && RuleMatches(x, TableAttrs(base, t), a)
    requires ob in x.obligations
    ensures a == Read && Due(cells, base["subject.role"], t, ob)
  {
    MigratedRule(roles, cells, x);
    if i :| 0 <= i < |roles| && RoleBecomes(roles[i], x) {
      RoleIsPlain(roles[i], x);
    } else {
      var i :| 0 <= i < |cells| && CellBecomes(cells[i], x);
      CellRuleMatches(cells[i], x.obligations, base, t, a);
      RelationEqMeans("resource.name", t, cells[i].table);
      CellAsks(cells[i], ob);
      assert cells[i] in cells && Concerns(cells[i], base["subject.role"], t);
    }
  }

  lemma DueComes(roles: seq<Role>, cells: seq<CellPolicy>, base: Attrs, t: string, ob: Obligation) returns (x: Rule)
    requires Migrated(roles, cells).Some? && "subject.role" in base && Due(cells, base["subject.role"], t, ob)
    ensures x in ActiveRules(Migrated(roles, cells).value) && RuleMatches(x, TableAttrs(base, t), Read)
    ensures !x.deny && ob in x.obligations
  {
    var cp :| cp in cells && Concerns(cp, base["subject.role"], t) && Asks(cp, ob);
    AllReadable(cells);
    CellAsks(cp, ob);
    x := CellRule(cp, CellObligations(cp).value);
    CellRuleMatches(cp, CellObligations(cp).value, base, t, Read);
    RelationEqMeans("resource.name", t, cp.table);
    var i :| 0 <= i < |cells| && cells[i] == cp;
    assert CellBecomes(cells[i], x);
    MigratedRule(roles, cells, x);
  }

  /** The obligations of the migrated policies that apply are exactly those due. */
  lemma OwedIsDue(roles: seq<Role>, cells: seq<CellPolicy>, base: Attrs, t: string, a: Action, ob: Obligation)
    requires Migrated(roles, cells).Some? && "subject.role" in base
    ensures ob in Owed(Migrated(roles, cells).value, TableAttrs(base, t), a) <==>
            a == Read && Due(cells, base["subject.role"], t, ob)
  {
    var policies, attrs := Migrated(roles, cells).value, TableAttrs(base, t);
    PoliciesOwe(policies, attrs, a);
    OwedMembers(policies, attrs, a);
    assert ob in Owed(policies, attrs, a) <==> ob in Obligations(Speaking(ActiveRules(policies), attrs, a, false));
    if x :| Bears(policies, attrs, a, false, x) && ob in x.obligations {
      ActiveIsStanding(policies, x);
      RuleMatchesMeans(x, attrs, a);
      DueBehind(roles, cells, base, t, a, x, ob);
    }
    if a == Read && Due(cells, base["subject.role"], t, ob) {
      var x := DueComes(roles, cells, base, t, ob);
      ActiveIsStanding(policies, x);
      RuleMatchesMeans(x, attrs, a);
      assert Bears(policies, attrs, a, false, x);
    }
  }

  ghost predicate Hides(cells: seq<CellPolicy>, role: string, t: string, c: string) {
    exists cp :: cp in cells && Concerns(cp, role, t) && Policed(c, Some(Deny)) in cp.columns
  }

  ghost predicate Masks(cells: seq<CellPolicy>, role: string, t: string, c: string) {
    exists cp :: cp in cells && Concerns(cp, role, t) && Policed(c, Some(Mask)) in cp.columns
  }

  ghost predicate Filters(cells: seq<CellPolicy>, role: string, t: string, v: string) {
    exists cp :: cp in cells && Concerns(cp, role, t) && cp.rowFilter == v && v != ""
  }

  /** What an allowed decision does for the cell policies: hidden and masked columns, row filters, and no ceiling. */
  ghost predicate Enforces(cells: seq<CellPolicy>, role: string, t: string, a: Action, td: TableDecision) {
    && (forall c :: ColumnDecision(c, false, "", "") in td.columns <==> a == Read && Hides(cells, role, t, c))
    && (forall c, f, e :: ColumnDecision(c, true, f, e) in td.columns <==>
          a == Read && f == "redact" && e == "" && Masks(cells, role, t, c))
    && (forall eval :: Passes(td, eval) <==> (a == Read ==> forall v :: Filters(cells, role, t, v) ==> eval(v) == True))
    && td.limits == NO_LIMITS
  }

  lemma OwedEnforces(owed: multiset<Obligation>, cells: seq<CellPolicy>, role: string, t: string, a: Action,
                     td: TableDecision)
    requires forall ob :: ob in owed <==> a == Read && Due(cells, role, t, ob)
    requires Carries(owed, td)
    ensures Enforces(cells, role, t, a, td)
  {
    forall c
      ensures ColumnDecision(c, false, "", "") in td.columns <==> a == Read && Hides(cells, role, t, c)
    {
      assert DenyColumn(c) in owed <==> a == Read && Due(cells, role, t, DenyColumn(c));
      DenyIsDue(cells, role, t, c);
    }
    forall c, f, e
      ensures ColumnDecision(c, true, f, e) in td.columns <==>
              a == Read && f == "redact" && e == "" && Masks(cells, role, t, c)
    {
      assert MaskColumn(c, f, e) in owed <==> a == Read && Due(cells, role, t, MaskColumn(c, f, e));
      MaskIsDue(cells, role, t, c, f, e);
    }
    FiltersAreDue(owed, cells, role, t, a);
    NoCeilingDue(owed, td.limits);
  }

  lemma DenyIsDue(cells: seq<CellPolicy>, role: string, t: string, c: string)
    ensures Due(cells, role, t, DenyColumn(c)) <==> Hides(cells, role, t, c)
  {
    if cp :| cp in cells && Concerns(cp, role, t) && Policed(c, Some(Deny)) in cp.columns {
      assert Asks(cp, DenyColumn(c));
    }
  }

  lemma MaskIsDue(cells: seq<CellPolicy>, role: string, t: string, c: string, f: string, e: string)
    ensures Due(cells, role, t, MaskColumn(c, f, e)) <==> f == "redact" && e == "" && Masks(cells, role, t, c)
  {
    if f == "redact" && e == "" && Masks(cells, role, t, c) {
      var cp :| cp in cells && Concerns(cp, role, t) && Policed(c, Some(Mask)) in cp.columns;
      assert Asks(cp, MaskColumn(c, f, e));
    }
  }

  lemma FilterIsDue(cells: seq<CellPolicy>, role: string, t: string, v: string)
    ensures Due(cells, role, t, RowFilter(v)) <==> Filters(cells, role, t, v)
  {
    if Filters(cells, role, t, v) {
      var cp :| cp in cells && Concerns(cp, role, t) && cp.rowFilter == v && v != "";
      assert Asks(cp, RowFilter(v));
    }
  }

  lemma FiltersAreDue(owed: multiset<Obligation>, cells: seq<CellPolicy>, role: string, t: string, a: Action)
    requires forall ob :: ob in owed <==> a == Read && Due(cells, role, t, ob)
    ensures NoEmptyFilter(owed)
    ensures forall eval :: FiltersHold(owed, eval) <==>
                           (a == Read ==> forall v :: Filters(cells, role, t, v) ==> eval(v) == True)
  {
    forall v
      ensures RowFilter(v) in owed <==> a == Read && Filters(cells, role, t, v)
    {
      FilterIsDue(cells, role, t, v);
    }
  }

  lemma NoCeilingDue(owed: multiset<Obligation>, lim: Limits)
    requires Ceilings(owed, lim) && forall c :: QueryLimit(c) !in owed
    ensures lim == NO_LIMITS
  {
  }

  /**
   A decision of migrated policies that allows enforces exactly what the cell policies of
   the subject's role on the table say; only a read is policed.
   */
  lemma MigratedEnforces(roles: seq<Role>, cells: seq<CellPolicy>, base: Attrs, t: string, a: Action)
    requires Migrated(roles, cells).Some? && "subject.role" in base
    ensures var td := Decide(ActiveRules(Migrated(roles, cells).value), TableAttrs(base, t), a);
      td.allowed ==> Enforces(cells, base["subject.role"], t, a, td)
  {
    var policies, attrs := Migrated(roles, cells).value, TableAttrs(base, t);
    var td := Decide(ActiveRules(policies), attrs, a);
    DecisionIsOwed(policies, attrs, a);
    if td.allowed {
      forall ob
        ensures ob in Owed(policies, attrs, a) <==> a == Read && Due(cells, base["subject.role"], t, ob)
      {
        OwedIsDue(roles, cells, base, t, a, ob);
      }
      OwedEnforces(Owed(policies, attrs, a), cells, base["subject.role"], t, a, td);
    }
  }

  // ---- Table functions ----

  /** The attributes of a request to call a table function. */
  ghost function CallAttrs(base: Attrs, name: string): Attrs {
    base["resource.type" := "table_function"]["resource.name" := name]
  }

  lemma RoleNeverCalls(role: Role, base: Attrs, f: string, a: Action)
    ensures !Applies(RoleRule(role), CallAttrs(base, f), a)
  {
    var other := Condition("resource.type", Neq, Str(TABLE_FUNCTION));
    assert RoleRule(role).resources[|NameConditions(role.tables)|] == other;
    assert !Met(other, CallAttrs(base, f));
  }

  lemma FunctionRuleCalls(role: Role, base: Attrs, f: string, a: Action)
    requires "subject.role" in base
    ensures Applies(FunctionRule(role), CallAttrs(base, f), a) <==> base["subject.role"] == role.name && a == Read
  {
    var rule, attrs := FunctionRule(role), CallAttrs(base, f);
    var mine := Condition("subject.role", Eq, Str(role.name));
    assert rule.subjects == [mine] && rule.resources == [Condition("resource.type", Eq, Str(TABLE_FUNCTION))];
    assert Met(mine, attrs) <==> base["subject.role"] == role.name;
    assert mine in rule.subjects;
    assert Met(rule.resources[0], attrs) && Affirms(rule.resources[0], "table_function");
  }

  lemma CellNeverCalls(cp: CellPolicy, obs: seq<Obligation>, base: Attrs, f: string, a: Action)
    ensures !Applies(CellRule(cp, obs), CallAttrs(base, f), a)
  {
    assert forall c :: c in CellRule(cp, obs).resources ==> c.attribute == "resource.name";
  }

  /** After migration a table function may be called by the roles that hold `admin`, to read, and by nobody else. */
  lemma OnlyAdminsCall(roles: seq<Role>, cells: seq<CellPolicy>, base: Attrs, f: string, a: Action)
    requires Migrated(roles, cells).Some? && "subject.role" in base
    ensures var policies, attrs := Migrated(roles, cells).value, CallAttrs(base, f);
      && !(exists r :: Bears(policies, attrs, a, true, r))
      && ((exists r :: Bears(policies, attrs, a, false, r)) <==>
            a == Read && exists role :: role in roles && role.name == base["subject.role"] && "admin" in role.allow)
  {
    var policies, attrs := Migrated(roles, cells).value, CallAttrs(base, f);
    forall r | Standing(policies, r)
      ensures !r.deny
      ensures Applies(r, attrs, a) ==>
        a == Read && exists role :: role in roles && role.name == base["subject.role"] && "admin" in role.allow
    {
      ActiveIsStanding(policies, r);
      MigratedIsPlain(roles, cells, r);
      CallBehind(roles, cells, base, f, a, r);
    }
    if a == Read {
      forall role | role in roles && role.name == base["subject.role"] && "admin" in role.allow
        ensures Bears(policies, attrs, a, false, FunctionRule(role))
      {
        FunctionRuleCalls(role, base, f, a);
        var i :| 0 <= i < |roles| && roles[i] == role;
        assert RoleBecomes(roles[i], FunctionRule(role));
        MigratedRule(roles, cells, FunctionRule(role));
        ActiveIsStanding(policies, FunctionRule(role));
      }
    }
  }

  lemma CallBehind(roles: seq<Role>, cells: seq<CellPolicy>, base: Attrs, f: string, a: Action, r: Rule)
    requires Migrated(roles, cells).Some? && "subject.role" in base
    requires r in ActiveRules(Migrated(roles, cells).value)
    ensures Applies(r, CallAttrs(base, f), a) ==>
      a == Read && exists role :: role in roles && role.name == base["subject.role"] && "admin" in role.allow
  {
    MigratedRule(roles, cells, r);
    if i :| 0 <= i < |roles| && RoleBecomes(roles[i], r) {
      RoleIsPlain(roles[i], r);
      RoleNeverCalls(roles[i], base, f, a);
      FunctionRuleCalls(roles[i], base, f, a);
      assert r != RoleRule(roles[i]) ==> "admin" in roles[i].allow;
      assert roles[i] in roles;
    } else {
      var i :| 0 <= i < |cells| && CellBecomes(cells[i], r);
      CellNeverCalls(cells[i], r.obligations, base, f, a);
    }
  }

  // ---- Loading the migrated policies ----

  /** Every table a role lists is found, unless it lists them all. */
  ghost predicate TablesFound(cat: Relations, role: Role) {
    "*" in role.tables || forall t :: t in role.tables ==> BoundRelation(cat, t).Some?
  }

  /** The table of a cell policy is found and has every column the policy denies or masks. */
  ghost predicate CellFound(cat: Relations, cp: CellPolicy) {
    cp.table == "*" ||
    match BoundRelation(cat, cp.table)
    case None => false
    case Some(t) =>
      forall c :: (Policed(c, Some(Deny)) in cp.columns || Policed(c, Some(Mask)) in cp.columns) && Trim(c) != "" ==>
        Resolvable(cat.columns[t], Trim(c))
  }

  lemma RoleRuleLoads(cat: Relations, role: Role)
    ensures Binds(cat, RoleRule(role)) <==> TablesFound(cat, role)
  {
    var rule, other := RoleRule(role), Condition("resource.type", Neq, Str(TABLE_FUNCTION));
    var names := NameConditions(role.tables);
    assert rule.resources[|names|] == other && !LeavesTablesOut(other);
    assert !AboutOthers(rule);
    if names != [] {
      assert rule.resources[0] == names[0];
      assert forall w :: Mentions(names[0], w) <==> w in role.tables;
    }
  }

  lemma FunctionRuleLoads(cat: Relations, role: Role)
    ensures Binds(cat, FunctionRule(role))
  {
    var rule := FunctionRule(role);
    assert rule.resources == [Condition("resource.type", Eq, Str(TABLE_FUNCTION))];
    assert LeavesTablesOut(rule.resources[0]) && rule.resources[0] in rule.resources;
  }

  /** The table of a cell policy is all its rule is scoped to. */
  lemma CellScope(cat: Relations, cp: CellPolicy, obs: seq<Obligation>, t: string)
    ensures ScopedTo(cat, CellRule(cp, obs).resources, t) <==>
            cp.table != "*" && BoundRelation(cat, cp.table) == Some(t)
  {
    var cs := CellRule(cp, obs).resources;
    if cp.table != "*" {
      assert cs[0] in cs && MentionsAs(cs[0], cp.table);
    }
  }

  lemma CellMentionsFound(cat: Relations, cp: CellPolicy, obs: seq<Obligation>)
    ensures (forall c, w :: c in CellRule(cp, obs).resources && Mentions(c, w) ==> BoundRelation(cat, w).Some?) <==>
            cp.table == "*" || BoundRelation(cat, cp.table).Some?
  {
    var cs := CellRule(cp, obs).resources;
    if cp.table != "*" {
      assert cs[0] in cs && Mentions(cs[0], cp.table);
    }
  }

  /** With one table in scope, one column is a column of that table. */
  lemma CellColumn(cat: Relations, cp: CellPolicy, obs: seq<Obligation>, target: string, t: string)
    requires cp.table != "*" && BoundRelation(cat, cp.table) == Some(t)
    ensures (exists name :: OneColumn(cat, CellRule(cp, obs).resources, target, name)) <==>
            Resolvable(cat.columns[t], target)
  {
    var cs := CellRule(cp, obs).resources;
    forall u
      ensures ScopedTo(cat, cs, u) <==> u == t
    {
      CellScope(cat, cp, obs, u);
    }
    if Resolvable(cat.columns[t], target) {
      ColumnResolves(cat, t, target, Resolve(cat.columns[t], target));
      assert OneColumn(cat, cs, target, Resolve(cat.columns[t], target));
    }
    if name :| OneColumn(cat, cs, target, name) {
      assert HasColumn(cat, t, target, name);
    }
  }

  /** Without a table in scope, any name will do. */
  lemma AnyColumn(cat: Relations, cp: CellPolicy, obs: seq<Obligation>, target: string)
    requires cp.table == "*" || BoundRelation(cat, cp.table).None?
    ensures OneColumn(cat, CellRule(cp, obs).resources, target, "")
  {
    forall u
      ensures !ScopedTo(cat, CellRule(cp, obs).resources, u)
    {
      CellScope(cat, cp, obs, u);
    }
  }

  lemma CellColumnsFound(cat: Relations, cp: CellPolicy, obs: seq<Obligation>)
    requires CellObligations(cp) == Some(obs) && (cp.table != "*" ==> BoundRelation(cat, cp.table).Some?)
    ensures (forall ob :: ob in obs && Target(ob) != "" ==>
               exists name :: OneColumn(cat, CellRule(cp, obs).resources, Target(ob), name)) <==> CellFound(cat, cp)
  {
    forall ob
      ensures ob in obs <==> Asks(cp, ob)
    {
      CellAsks(cp, ob);
    }
    ColumnsAsked(cp, obs);
    forall ob | ob in obs && Target(ob) != ""
      ensures cp.table == "*" ==> OneColumn(cat, CellRule(cp, obs).resources, Target(ob), "")
      ensures cp.table != "*" ==>
        ((exists name :: OneColumn(cat, CellRule(cp, obs).resources, Target(ob), name)) <==>
         Resolvable(cat.columns[BoundRelation(cat, cp.table).value], Target(ob)))
    {
      if cp.table == "*" {
        AnyColumn(cat, cp, obs, Target(ob));
      } else {
        CellColumn(cat, cp, obs, Target(ob), BoundRelation(cat, cp.table).value);
      }
    }
    forall c
      ensures Target(DenyColumn(c)) == Trim(c) && Target(MaskColumn(c, "redact", "")) == Trim(c)
    {
    }
  }

  lemma CellRuleLoads(cat: Relations, cp: CellPolicy, obs: seq<Obligation>)
    requires CellObligations(cp) == Some(obs)
    ensures Binds(cat, CellRule(cp, obs)) <==> CellFound(cat, cp)
  {
    var rule := CellRule(cp, obs);
    assert forall c :: c in rule.resources ==> c.attribute == "resource.name";
    assert !AboutOthers(rule);
    CellMentionsFound(cat, cp, obs);
    if cp.table == "*" || BoundRelation(cat, cp.table).Some? {
      CellColumnsFound(cat, cp, obs);
    }
  }

  lemma ColumnsAsked(cp: CellPolicy, obs: seq<Obligation>)
    requires forall ob :: ob in obs <==> Asks(cp, ob)
    ensures forall ob :: ob in obs && Target(ob) != "" ==>
      exists c :: Target(ob) == Trim(c)
                  && (Policed(c, Some(Deny)) in cp.columns || Policed(c, Some(Mask)) in cp.columns)
    ensures forall c :: Policed(c, Some(Deny)) in cp.columns ==> DenyColumn(c) in obs
    ensures forall c :: Policed(c, Some(Mask)) in cp.columns ==> MaskColumn(c, "redact", "") in obs
  {
    forall ob | ob in obs && Target(ob) != ""
      ensures exists c :: Target(ob) == Trim(c)
                          && (Policed(c, Some(Deny)) in cp.columns || Policed(c, Some(Mask)) in cp.columns)
    {
      assert Asks(cp, ob);
      assert Target(ob) == Trim(ob.target);
    }
    forall c | Policed(c, Some(Deny)) in cp.columns
      ensures DenyColumn(c) in obs
    {
      assert Asks(cp, DenyColumn(c));
    }
    forall c | Policed(c, Some(Mask)) in cp.columns
      ensures MaskColumn(c, "redact", "") in obs
    {
      assert Asks(cp, MaskColumn(c, "redact", ""));
    }
  }

  ghost predicate AllFound(cat: Relations, roles: seq<Role>, cells: seq<CellPolicy>) {
    && (forall role :: role in roles ==> TablesFound(cat, role))
    && (forall cp :: cp in cells && (exists ob :: Asks(cp, ob)) ==> CellFound(cat, cp))
  }

  /**
   The migrated policies load in a catalog if and only if every table a role lists is
   found, and every cell policy that asks for anything has its table and its columns.
   */
  lemma MigratedLoadsIff(cat: Relations, roles: seq<Role>, cells: seq<CellPolicy>)
    requires Migrated(roles, cells).Some?
    ensures (forall x :: x in ActiveRules(Migrated(roles, cells).value) ==> Binds(cat, x)) <==>
            AllFound(cat, roles, cells)
  {
    var rules := ActiveRules(Migrated(roles, cells).value);
    AllReadable(cells);
    forall role | role in roles
      ensures RoleRule(role) in rules && (Binds(cat, RoleRule(role)) <==> TablesFound(cat, role))
    {
      var i :| 0 <= i < |roles| && roles[i] == role;
      assert RoleBecomes(roles[i], RoleRule(role));
      MigratedRule(roles, cells, RoleRule(role));
      RoleRuleLoads(cat, role);
    }
    forall cp | cp in cells && (exists ob :: Asks(cp, ob))
      ensures var x := CellRule(cp, CellObligations(cp).value); x in rules && (Binds(cat, x) <==> CellFound(cat, cp))
    {
      var ob :| Asks(cp, ob);
      var x := CellRule(cp, CellObligations(cp).value);
      CellAsks(cp, ob);
      var i :| 0 <= i < |cells| && cells[i] == cp;
      assert CellBecomes(cells[i], x);
      MigratedRule(roles, cells, x);
      CellRuleLoads(cat, cp, CellObligations(cp).value);
    }
    forall x | x in rules
      ensures AllFound(cat, roles, cells) ==> Binds(cat, x)
    {
      LoadsBehind(cat, roles, cells, x);
    }
  }

  lemma LoadsBehind(cat: Relations, roles: seq<Role>, cells: seq<CellPolicy>, x: Rule)
    requires Migrated(roles, cells).Some? && x in ActiveRules(Migrated(roles, cells).value)
    ensures AllFound(cat, roles, cells) ==> Binds(cat, x)
  {
    MigratedRule(roles, cells, x);
    if i :| 0 <= i < |roles| && RoleBecomes(roles[i], x) {
      RoleIsPlain(roles[i], x);
      RoleRuleLoads(cat, roles[i]);
      FunctionRuleLoads(cat, roles[i]);
      assert roles[i] in roles;
    } else {
      var i :| 0 <= i < |cells| && CellBecomes(cells[i], x);
      CellAsks(cells[i], x.obligations[0]);
      CellRuleLoads(cat, cells[i], x.obligations);
      assert cells[i] in cells;
    }
  }
}
