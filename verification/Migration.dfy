/**
 Translating role definitions and cell policies into access-control policies, and
 how the decisions of the two forms compare.
 */
module Migration {
  import opened Options
  import opened Names
  import opened Policies
  import opened Decisions
  import opened LegacyPolicies

  datatype Role = Role(name: string, tables: seq<string>, allow: seq<string>)

  /** `columns` in column-name order, each with its action; None is one that cannot be read. */
  datatype CellPolicy = CellPolicy(table: string, role: string, columns: seq<Policed>, rowFilter: string)

  datatype Policed = Policed(column: string, action: Option<ColumnAction>)

  function ActionsOf(perm: string): seq<Action> {
    if perm == "read" then [Read, Describe]
    else if perm == "write" then [Write, Create, Drop]
    else if perm == "admin" then [Read, Write, Admin, Create, Drop, Describe]
    else []
  }

  function Actions(allow: seq<string>): seq<Action> {
    if allow == [] then [] else Actions(allow[..|allow| - 1]) + ActionsOf(allow[|allow| - 1])
  }

  const TABLE_FUNCTION := "table_function"

  function NameConditions(tables: seq<string>): seq<Condition> {
    if "*" !in tables && tables != [] then [Condition("resource.name", In, List(tables, true))] else []
  }

  function HasRole(name: string): seq<Condition> {
    [Condition("subject.role", Eq, Str(name))]
  }

  function RoleRule(role: Role): Rule {
    Rule("migrated-role-" + role.name, false, 100, HasRole(role.name),
         NameConditions(role.tables) + [Condition("resource.type", Neq, Str(TABLE_FUNCTION))],
         Actions(role.allow), [], [])
  }

  function FunctionRule(role: Role): Rule {
    Rule("migrated-role-" + role.name + "-table-functions", false, 100, HasRole(role.name),
         [Condition("resource.type", Eq, Str(TABLE_FUNCTION))], [Read], [], [])
  }

  function RoleRules(role: Role): seq<Rule> {
    [RoleRule(role)] + (if "admin" in role.allow then [FunctionRule(role)] else [])
  }

  function RolePolicies(roles: seq<Role>): (r: seq<Policy>)
    ensures |r| == |roles| && forall i :: 0 <= i < |roles| ==> r[i] == Policy(true, RoleRules(roles[i]))
  {
    if roles == [] then [] else RolePolicies(roles[..|roles| - 1]) + [Policy(true, RoleRules(roles[|roles| - 1]))]
  }

  function ColumnObligation(column: string, a: ColumnAction): seq<Obligation> {
    match a
    case Deny => [DenyColumn(column)]
    case Mask => [MaskColumn(column, "redact", "")]
    case Allow => []
  }

  function ColumnObligations(columns: seq<Policed>): Option<seq<Obligation>> {
    if columns == [] then Some([])
    else
      var init, last := ColumnObligations(columns[..|columns| - 1]), columns[|columns| - 1];
      if init.None? || last.action.None? then None
      else Some(init.value + ColumnObligation(last.column, last.action.value))
  }

  function CellObligations(cp: CellPolicy): Option<seq<Obligation>> {
    var cols := ColumnObligations(cp.columns);
    if cols.None? then None
    else Some(cols.value + (if cp.rowFilter == "" then [] else [RowFilter(cp.rowFilter)]))
  }

  function CellRule(cp: CellPolicy, obs: seq<Obligation>): Rule {
    Rule("migrated-policy-" + cp.table + "-" + cp.role, false, 50, HasRole(cp.role),
         if cp.table == "*" then [] else [Condition("resource.name", Eq, Str(cp.table))], [Read], [], obs)
  }

  /** None when some column action cannot be read: nothing is migrated. */
  function CellPolicies(cells: seq<CellPolicy>): Option<seq<Policy>> {
    if cells == [] then Some([])
    else
      var cp := cells[|cells| - 1];
      var init, obs := CellPolicies(cells[..|cells| - 1]), CellObligations(cp);
      if init.None? || obs.None? then None
      else Some(init.value + (if obs.value == [] then [] else [Policy(true, [CellRule(cp, obs.value)])]))
  }

  function Migrated(roles: seq<Role>, cells: seq<CellPolicy>): Option<seq<Policy>> {
    var c := CellPolicies(cells);
    if c.None? then None else Some(RolePolicies(roles) + c.value)
  }

  // ---- The loops ----

  method MigrateRole(role: Role) returns (rules: seq<Rule>)
    ensures rules == RoleRules(role)
  {
    var hasWildcard := false;
    for i := 0 to |role.tables|
      invariant hasWildcard <==> "*" in role.tables[..i]
    {
      if role.tables[i] == "*" {
        hasWildcard := true;
        break;
      }
    }
    assert role.tables[..|role.tables|] == role.tables;
    var resources := [];
    if !hasWildcard && |role.tables| > 0 {
      resources := [Condition("resource.name", In, List(role.tables, true))];
    }
    var actions := [];
    for i := 0 to |role.allow|
      invariant actions == Actions(role.allow[..i])
    {
      assert role.allow[..i + 1][..i] == role.allow[..i];
      actions := actions + ActionsOf(role.allow[i]);
    }
    assert role.allow[..|role.allow|] == role.allow;
    resources := resources + [Condition("resource.type", Neq, Str(TABLE_FUNCTION))];
    rules := [Rule("migrated-role-" + role.name, false, 100, HasRole(role.name), resources, actions, [], [])];
    if "admin" in role.allow {
      rules := rules + [FunctionRule(role)];
    }
  }

  method MigrateCell(cp: CellPolicy) returns (r: Option<seq<Obligation>>)
    ensures r == CellObligations(cp)
  {
    var obs := [];
    for i := 0 to |cp.columns|
      invariant ColumnObligations(cp.columns[..i]) == Some(obs)
    {
      assert cp.columns[..i + 1][..i] == cp.columns[..i];
      var a := cp.columns[i].action;
      if a.None? {
        ColumnsStop(cp.columns, i + 1);
        return None;
      }
      obs := obs + ColumnObligation(cp.columns[i].column, a.value);
    }
    assert cp.columns[..|cp.columns|] == cp.columns;
    if cp.rowFilter != "" {
      obs := obs + [RowFilter(cp.rowFilter)];
    } else {
      assert obs + [] == obs;
    }
    return Some(obs);
  }

  lemma {:induction false} ColumnsStop(columns: seq<Policed>, n: nat)
    requires n <= |columns| && ColumnObligations(columns[..n]).None?
    ensures ColumnObligations(columns).None?
    decreases |columns|
  {
    if n < |columns| {
      assert columns[..|columns| - 1][..n] == columns[..n];
      ColumnsStop(columns[..|columns| - 1], n);
    } else {
      assert columns[..n] == columns;
    }
  }

  lemma {:induction false} CellsStop(cells: seq<CellPolicy>, n: nat)
    requires n <= |cells| && CellPolicies(cells[..n]).None?
    ensures CellPolicies(cells).None?
    decreases |cells|
  {
    if n < |cells| {
      assert cells[..|cells| - 1][..n] == cells[..n];
      CellsStop(cells[..|cells| - 1], n);
    } else {
      assert cells[..n] == cells;
    }
  }

  /** Some column action of some cell policy cannot be read. */
  ghost predicate Unreadable(cells: seq<CellPolicy>) {
    exists cp, col :: cp in cells && col in cp.columns && col.action.None?
  }

  lemma {:induction false} ColumnsReadable(columns: seq<Policed>)
    ensures ColumnObligations(columns).None? <==> exists col :: col in columns && col.action.None?
  {
    if columns != [] {
      var init, last := columns[..|columns| - 1], columns[|columns| - 1];
      assert columns == init + [last];
      ColumnsReadable(init);
    }
  }

  lemma {:induction false} CellsReadable(cells: seq<CellPolicy>)
    ensures CellPolicies(cells).None? <==> Unreadable(cells)
  {
    if cells != [] {
      var init, last := cells[..|cells| - 1], cells[|cells| - 1];
      assert cells == init + [last];
      CellsReadable(init);
      ColumnsReadable(last.columns);
    }
  }

  method MigrateRBACToABAC(roles: seq<Role>, cells: seq<CellPolicy>) returns (r: Option<seq<Policy>>)
    ensures r == Migrated(roles, cells)
    ensures r.None? <==> Unreadable(cells)
  {
    CellsReadable(cells);
    var policies := [];
    for i := 0 to |roles|
      invariant policies == RolePolicies(roles[..i])
    {
      assert roles[..i + 1][..i] == roles[..i];
      var rules := MigrateRole(roles[i]);
      policies := policies + [Policy(true, rules)];
    }
    assert roles[..|roles|] == roles;
    var cellPolicies := MigrateCells(cells);
    return if cellPolicies.None? then None else Some(policies + cellPolicies.value);
  }

  method MigrateCells(cells: seq<CellPolicy>) returns (r: Option<seq<Policy>>)
    ensures r == CellPolicies(cells)
  {
    var policies := [];
    for i := 0 to |cells|
      invariant CellPolicies(cells[..i]) == Some(policies)
    {
      assert cells[..i + 1][..i] == cells[..i];
      var obs := MigrateCell(cells[i]);
      if obs.None? {
        CellsStop(cells, i + 1);
        return None;
      }
      if obs.value != [] {
        policies := policies + [Policy(true, [CellRule(cells[i], obs.value)])];
      } else {
        assert policies + [] == policies;
      }
    }
    assert cells[..|cells|] == cells;
    return Some(policies);
  }

  // ---- The two forms of one decision ----

  datatype Identity = Identity(role: string, tables: seq<string>, perms: seq<string>)

  function PermissionForAction(action: Action): string {
    match action
    case Read => "read"
    case Describe => "read"
    case Write => "write"
    case Create => "write"
    case Drop => "write"
    case Admin => "admin"
  }

  predicate HasPermission(id: Identity, perm: string) {
    exists i :: 0 <= i < |id.perms| && (id.perms[i] == perm || id.perms[i] == "admin")
  }

  predicate CanAccessTable(id: Identity, table: string) {
    exists i :: 0 <= i < |id.tables| && (id.tables[i] == "*" || id.tables[i] == table)
  }

  /** `tableAccess` past authentication: the role's gate first, then the evaluator or the table list. */
  ghost predicate TableAccess(id: Identity, evaluator: Option<seq<Policy>>, base: Attrs, table: string,
                              action: Action) {
    && HasPermission(id, PermissionForAction(action))
    && match evaluator
       case Some(policies) => Decide(ActiveRules(policies), TableAttrs(base, table), action).allowed
       case None => CanAccessTable(id, table)
  }

  ghost predicate TablesGrant(tables: seq<string>, t: string) {
    "*" in tables || tables == [] || exists i :: 0 <= i < |tables| && RelationEq(t, tables[i])
  }

  /** A cell policy of the role whose own rule lets the read through. */
  ghost predicate CellGrants(cp: CellPolicy, role: string, t: string) {
    cp.role == role && CellObligations(cp).Some? && CellObligations(cp).value != []
      && (cp.table == "*" || RelationEq(t, cp.table))
  }

  ghost predicate SomeCellGrants(cells: seq<CellPolicy>, role: string, t: string) {
    exists i :: 0 <= i < |cells| && CellGrants(cells[i], role, t)
  }

  ghost predicate Subject(base: Attrs, role: string) {
    "subject.role" in base && base["subject.role"] == role
  }

  lemma RoleRuleMatches(role: Role, base: Attrs, t: string, a: Action)
    requires "subject.role" in base
    ensures RuleMatches(RoleRule(role), TableAttrs(base, t), a) <==>
      base["subject.role"] == role.name && (Actions(role.allow) == [] || a in Actions(role.allow))
        && TablesGrant(role.tables, t)
    ensures !RuleMatches(FunctionRule(role), TableAttrs(base, t), a)
  {
    var rule, attrs := RoleRule(role), TableAttrs(base, t);
    var names := NameConditions(role.tables);
    assert rule.resources[|names|] == Condition("resource.type", Neq, Str(TABLE_FUNCTION));
    assert MatchCondition(rule.resources[|names|], attrs);
    assert names != [] ==>
      rule.resources[0] == names[0] && (MatchCondition(names[0], attrs) <==> RelationIn(t, List(role.tables, true)));
    assert MatchCondition(rule.subjects[0], attrs) <==> base["subject.role"] == role.name;
    assert !MatchCondition(FunctionRule(role).resources[0], attrs);
  }

  lemma CellRuleMatches(cp: CellPolicy, obs: seq<Obligation>, base: Attrs, t: string, a: Action)
    requires "subject.role" in base
    ensures RuleMatches(CellRule(cp, obs), TableAttrs(base, t), a) <==>
      base["subject.role"] == cp.role && a == Read && (cp.table == "*" || RelationEq(t, cp.table))
  {
    var rule, attrs := CellRule(cp, obs), TableAttrs(base, t);
    assert MatchCondition(rule.subjects[0], attrs) <==> base["subject.role"] == cp.role;
    assert cp.table != "*" ==> (MatchCondition(rule.resources[0], attrs) <==> RelationEq(t, cp.table));
  }

  lemma {:induction false} ActiveConcat(p: seq<Policy>, q: seq<Policy>)
    ensures ActiveRules(p + q) == ActiveRules(p) + ActiveRules(q)
    decreases |q|
  {
    if q == [] {
      assert p + q == p;
    } else {
      assert (p + q)[..|p + q| - 1] == p + q[..|q| - 1];
      ActiveConcat(p, q[..|q| - 1]);
    }
  }

  ghost predicate RoleBecomes(role: Role, x: Rule) {
    x in RoleRules(role)
  }

  lemma {:induction false} ActiveMembers(policies: seq<Policy>, x: Rule)
    requires forall i :: 0 <= i < |policies| ==> policies[i].enabled
    ensures x in ActiveRules(policies) <==> exists i :: 0 <= i < |policies| && x in policies[i].rules
  {
    if policies != [] {
      var n := |policies| - 1;
      var init := policies[..n];
      ActiveMembers(init, x);
      assert forall i :: 0 <= i < n ==> init[i] == policies[i];
    }
  }

  lemma RolesActive(roles: seq<Role>, x: Rule)
    ensures x in ActiveRules(RolePolicies(roles)) <==> exists i :: 0 <= i < |roles| && RoleBecomes(roles[i], x)
  {
    ActiveMembers(RolePolicies(roles), x);
  }

  lemma OnePolicy(rules: seq<Rule>)
    ensures ActiveRules([Policy(true, rules)]) == rules
  {
  }

  /** The rule a cell policy becomes, if it becomes one. */
  ghost predicate CellBecomes(cp: CellPolicy, x: Rule) {
    CellObligations(cp).Some? && CellObligations(cp).value != [] && x == CellRule(cp, CellObligations(cp).value)
  }

  lemma LastCell(p: seq<Policy>, none: bool, rule: Rule, x: Rule)
    ensures var q := p + (if none then [] else [Policy(true, [rule])]);
      x in ActiveRules(q) <==> x in ActiveRules(p) || (!none && x == rule)
  {
    if none {
      assert p + [] == p;
    } else {
      ActiveConcat(p, [Policy(true, [rule])]);
      OnePolicy([rule]);
    }
  }

  lemma {:induction false} CellsActive(cells: seq<CellPolicy>, x: Rule)
    requires CellPolicies(cells).Some?
    ensures x in ActiveRules(CellPolicies(cells).value) <==> exists i :: 0 <= i < |cells| && CellBecomes(cells[i], x)
  {
    if cells != [] {
      var init, cp := cells[..|cells| - 1], cells[|cells| - 1];
      CellsActive(init, x);
      LastCell(CellPolicies(init).value, CellObligations(cp).value == [], CellRule(cp, CellObligations(cp).value), x);
      assert x in ActiveRules(CellPolicies(cells).value) <==>
        x in ActiveRules(CellPolicies(init).value) || CellBecomes(cp, x);
      SomeCellNext(cells, init, (c: CellPolicy) => CellBecomes(c, x));
    }
  }

  lemma SomeCellNext(cells: seq<CellPolicy>, init: seq<CellPolicy>, f: CellPolicy -> bool)
    requires cells != [] && init == cells[..|cells| - 1]
    ensures (exists i :: 0 <= i < |cells| && f(cells[i])) <==>
      (exists i :: 0 <= i < |init| && f(init[i])) || f(cells[|cells| - 1])
  {
  }

  // ---- What the migrated rules decide ----

  lemma AllowedIff(rules: seq<Rule>, attrs: Attrs, a: Action)
    requires forall x :: x in rules ==> !x.deny && CanEnforce(x.obligations)
    ensures Decide(rules, attrs, a).allowed <==> exists x :: x in rules && RuleMatches(x, attrs, a)
  {
    var allows, denies := Speaking(rules, attrs, a, false), Speaking(rules, attrs, a, true);
    if denies != [] {
      SelectedMembers(rules, Speaks(attrs, a, true), denies[0]);
    }
    forall x | x in rules && RuleMatches(x, attrs, a)
      ensures x in allows
    {
      SelectedMembers(rules, Speaks(attrs, a, false), x);
    }
    forall i | 0 <= i < |allows|
      ensures allows[i] in rules && RuleMatches(allows[i], attrs, a)
    {
      SelectedMembers(rules, Speaks(attrs, a, false), allows[i]);
    }
    AllEnforceable(allows);
    MergedAllows(Obligations(allows));
    assert allows != [] ==> allows[0] in rules;
  }

  lemma {:induction false} AllEnforceable(rules: seq<Rule>)
    requires forall i :: 0 <= i < |rules| ==> CanEnforce(rules[i].obligations)
    ensures CanEnforce(Obligations(rules))
  {
    if rules != [] {
      AllEnforceable(rules[..|rules| - 1]);
    }
  }

  lemma {:induction false} ColumnsEnforceable(columns: seq<Policed>)
    requires ColumnObligations(columns).Some?
    ensures CanEnforce(ColumnObligations(columns).value)
  {
    if columns != [] {
      ColumnsEnforceable(columns[..|columns| - 1]);
    }
  }

  lemma MigratedRule(roles: seq<Role>, cells: seq<CellPolicy>, x: Rule)
    requires Migrated(roles, cells).Some?
    ensures x in ActiveRules(Migrated(roles, cells).value) <==>
      (exists i :: 0 <= i < |roles| && RoleBecomes(roles[i], x))
        || (exists i :: 0 <= i < |cells| && CellBecomes(cells[i], x))
  {
    ActiveConcat(RolePolicies(roles), CellPolicies(cells).value);
    RolesActive(roles, x);
    CellsActive(cells, x);
  }

  /** Nothing migrated denies, and everything migrated can be enforced. */
  lemma MigratedIsPlain(roles: seq<Role>, cells: seq<CellPolicy>, x: Rule)
    requires Migrated(roles, cells).Some? && x in ActiveRules(Migrated(roles, cells).value)
    ensures !x.deny && CanEnforce(x.obligations)
  {
    MigratedRule(roles, cells, x);
    if i :| 0 <= i < |cells| && CellBecomes(cells[i], x) {
      CellIsPlain(cells[i], x);
    } else {
      var i :| 0 <= i < |roles| && RoleBecomes(roles[i], x);
      RoleIsPlain(roles[i], x);
    }
  }

  lemma CellIsPlain(cp: CellPolicy, x: Rule)
    requires CellBecomes(cp, x)
    ensures !x.deny && CanEnforce(x.obligations)
  {
    ColumnsEnforceable(cp.columns);
  }

  lemma RoleIsPlain(role: Role, x: Rule)
    requires RoleBecomes(role, x)
    ensures !x.deny && x.obligations == [] && (x == RoleRule(role) || x == FunctionRule(role))
  {
  }

  /** Role `k` is the identity's, and no other role has its name. */
  ghost predicate HasRoleAt(roles: seq<Role>, k: nat, id: Identity) {
    && k < |roles| && roles[k] == Role(id.role, id.tables, id.perms)
    && forall i :: 0 <= i < |roles| && roles[i].name == id.role ==> i == k
  }

  ghost predicate RoleGrants(role: Role, t: string, a: Action) {
    (Actions(role.allow) == [] || a in Actions(role.allow)) && TablesGrant(role.tables, t)
  }

  /** The migrated policies allow what the identity's role grants, and what its cell policies' rules let through. */
  lemma MigratedAllowsIff(roles: seq<Role>, k: nat, cells: seq<CellPolicy>, id: Identity, base: Attrs, t: string,
                          a: Action)
    requires HasRoleAt(roles, k, id) && Subject(base, id.role) && Migrated(roles, cells).Some?
    ensures Decide(ActiveRules(Migrated(roles, cells).value), TableAttrs(base, t), a).allowed <==>
      RoleGrants(roles[k], t, a) || (a == Read && SomeCellGrants(cells, id.role, t))
  {
    var rules, attrs := ActiveRules(Migrated(roles, cells).value), TableAttrs(base, t);
    forall x | x in rules
      ensures !x.deny && CanEnforce(x.obligations)
    {
      MigratedIsPlain(roles, cells, x);
    }
    AllowedIff(rules, attrs, a);
    if x :| x in rules && RuleMatches(x, attrs, a) {
      GrantBehind(roles, k, cells, id, base, t, a, x);
    }
    if RoleGrants(roles[k], t, a) {
      RoleRuleMatches(roles[k], base, t, a);
      MigratedRule(roles, cells, RoleRule(roles[k]));
      assert RoleBecomes(roles[k], RoleRule(roles[k]));
    }
    if a == Read && SomeCellGrants(cells, id.role, t) {
      var i :| 0 <= i < |cells| && CellGrants(cells[i], id.role, t);
      var x := CellRule(cells[i], CellObligations(cells[i]).value);
      CellRuleMatches(cells[i], CellObligations(cells[i]).value, base, t, a);
      MigratedRule(roles, cells, x);
      assert CellBecomes(cells[i], x);
    }
  }

  lemma GrantBehind(roles: seq<Role>, k: nat, cells: seq<CellPolicy>, id: Identity, base: Attrs, t: string, a: Action,
                    x: Rule)
    requires HasRoleAt(roles, k, id) && Subject(base, id.role) && Migrated(roles, cells).Some?
    requires x in ActiveRules(Migrated(roles, cells).value) && RuleMatches(x, TableAttrs(base, t), a)
    ensures RoleGrants(roles[k], t, a) || (a == Read && SomeCellGrants(cells, id.role, t))
  {
    MigratedRule(roles, cells, x);
    if i :| 0 <= i < |roles| && RoleBecomes(roles[i], x) {
      RoleIsPlain(roles[i], x);
      RoleRuleMatches(roles[i], base, t, a);
    } else {
      var i :| 0 <= i < |cells| && CellBecomes(cells[i], x);
      CellRuleMatches(cells[i], CellObligations(cells[i]).value, base, t, a);
      assert CellGrants(cells[i], id.role, t);
    }
  }

  lemma {:induction false} GateCovers(allow: seq<string>, a: Action)
    requires exists i :: 0 <= i < |allow| && (allow[i] == PermissionForAction(a) || allow[i] == "admin")
    ensures a in Actions(allow)
  {
    var n := |allow| - 1;
    if allow[n] == PermissionForAction(a) || allow[n] == "admin" {
      assert a in ActionsOf(allow[n]);
    } else {
      var i :| 0 <= i < |allow| && (allow[i] == PermissionForAction(a) || allow[i] == "admin");
      assert allow[..n][i] == allow[i];
      GateCovers(allow[..n], a);
    }
  }

  /** How much wider the migrated form may be: an empty list, another spelling, or a cell policy's own grant. */
  ghost predicate Widens(id: Identity, cells: seq<CellPolicy>, t: string, a: Action) {
    id.tables == [] || (exists i :: 0 <= i < |id.tables| && RelationEq(t, id.tables[i]))
      || (a == Read && SomeCellGrants(cells, id.role, t))
  }

  /** The migrated path allows exactly what the legacy path does, plus what `Widens` names within the role's gate. */
  lemma MigrationIsExactly(roles: seq<Role>, k: nat, cells: seq<CellPolicy>, id: Identity, base: Attrs, t: string,
                           a: Action)
    requires HasRoleAt(roles, k, id) && Subject(base, id.role) && Migrated(roles, cells).Some?
    ensures TableAccess(id, Migrated(roles, cells), base, t, a) <==>
      TableAccess(id, None, base, t, a) || (HasPermission(id, PermissionForAction(a)) && Widens(id, cells, t, a))
  {
    MigratedAllowsIff(roles, k, cells, id, base, t, a);
    GrantsUnderGate(roles[k], id, t, a);
    GrantsAre(id, cells, t, a);
  }

  /** Within the gate the role's actions say no more than the gate. */
  lemma GrantsUnderGate(role: Role, id: Identity, t: string, a: Action)
    requires role.allow == id.perms && role.tables == id.tables
    ensures HasPermission(id, PermissionForAction(a)) ==> (RoleGrants(role, t, a) <==> TablesGrant(id.tables, t))
  {
    if HasPermission(id, PermissionForAction(a)) {
      GateCovers(id.perms, a);
    }
  }

  lemma GrantsAre(id: Identity, cells: seq<CellPolicy>, t: string, a: Action)
    ensures TablesGrant(id.tables, t) || (a == Read && SomeCellGrants(cells, id.role, t)) <==>
            CanAccessTable(id, t) || Widens(id, cells, t, a)
  {
  }

  /** A role with an empty table list reads nothing before migration, and every table after. */
  lemma EmptyListOpensUp(base: Attrs, t: string)
    requires Subject(base, "analyst")
    ensures var id, roles := Identity("analyst", [], ["read"]), [Role("analyst", [], ["read"])];
      && Migrated(roles, []).Some? && TableAccess(id, Migrated(roles, []), base, t, Read)
      && !TableAccess(id, None, base, t, Read)
  {
    var id, roles := Identity("analyst", [], ["read"]), [Role("analyst", [], ["read"])];
    assert roles[0] == Role("analyst", [], ["read"]) && id.perms[0] == "read";
    assert HasRoleAt(roles, 0, id) && HasPermission(id, "read");
    MigrationIsExactly(roles, 0, [], id, base, t, Read);
  }

  /** Whatever the lists and the cell policies, migrating never takes access away. */
  lemma LegacyImpliesMigrated(roles: seq<Role>, k: nat, cells: seq<CellPolicy>, id: Identity, base: Attrs, t: string,
                              a: Action)
    requires HasRoleAt(roles, k, id) && Subject(base, id.role) && Migrated(roles, cells).Some?
    requires TableAccess(id, None, base, t, a)
    ensures TableAccess(id, Migrated(roles, cells), base, t, a)
  {
    MigrationIsExactly(roles, k, cells, id, base, t, a);
  }

  /** Non-empty lists in the spelling the statement uses, and cell policies on the role's own tables. */
  ghost predicate Aligned(id: Identity, cells: seq<CellPolicy>, t: string) {
    && id.tables != []
    && (forall i :: 0 <= i < |id.tables| && RelationEq(t, id.tables[i]) ==> t == id.tables[i])
    && (forall i :: 0 <= i < |cells| && CellGrants(cells[i], id.role, t) ==> CanAccessTable(id, t))
  }

  /** Under those, the two paths agree for every identity, table and action. */
  lemma MigrationPreserves(roles: seq<Role>, k: nat, cells: seq<CellPolicy>, id: Identity, base: Attrs, t: string,
                           a: Action)
    requires HasRoleAt(roles, k, id) && Subject(base, id.role) && Migrated(roles, cells).Some? && Aligned(id, cells, t)
    ensures TableAccess(id, Migrated(roles, cells), base, t, a) <==> TableAccess(id, None, base, t, a)
  {
    MigrationIsExactly(roles, k, cells, id, base, t, a);
    if i :| 0 <= i < |id.tables| && RelationEq(t, id.tables[i]) {
      assert CanAccessTable(id, t);
    }
  }

  /** For a read, and a gate that lets it pass, the hypotheses are needed in full: they are the whole difference. */
  lemma MigrationPreservesReadIff(roles: seq<Role>, k: nat, cells: seq<CellPolicy>, id: Identity, base: Attrs,
                                  t: string)
    requires HasRoleAt(roles, k, id) && Subject(base, id.role) && Migrated(roles, cells).Some?
    requires HasPermission(id, "read")
    ensures (TableAccess(id, Migrated(roles, cells), base, t, Read) <==> TableAccess(id, None, base, t, Read)) <==>
      CanAccessTable(id, t) || !Widens(id, cells, t, Read)
  {
    MigrationIsExactly(roles, k, cells, id, base, t, Read);
  }
}
