/**
 The legacy `policies:` set: one access policy per (relation, role), keyed under
 the identifier fold, and its binding to a catalog.
 */
module LegacyPolicies {
  import opened Options
  import opened Names
  import opened Bindings

  datatype ColumnAction = Allow | Mask | Deny

  datatype Access = Access(table: string, role: string, columns: map<string, ColumnAction>, rowFilter: string)

  function PolicyKey(table: string, role: string): string {
    Fold(table) + ":" + role
  }

  class AccessPolicy {
    var table: string
    const role: string
    var columns: map<string, ColumnAction>
    const rowFilter: string

    constructor (a: Access)
      ensures Value() == a
    {
      table, role, columns, rowFilter := a.table, a.role, a.columns, a.rowFilter;
    }

    ghost function Value(): Access
      reads this
    {
      Access(table, role, columns, rowFilter)
    }
  }

  type Policies = map<string, AccessPolicy>

  /** Every policy sits under its own key, as `Add` puts it. */
  ghost predicate Keyed(ps: Policies)
    reads ps.Values
  {
    forall k :: k in ps ==> k == PolicyKey(ps[k].table, ps[k].role)
  }

  /** The policy is the one for the relation, under some spelling of it, and the role. */
  ghost predicate For(a: Access, table: string, role: string) {
    Fold(a.table) == Fold(table) && a.role == role
  }

  /** The pair's key can be read back: the colon between the names is the only one that can be. */
  ghost predicate OneReading(table: string, role: string) {
    ':' !in table && forall i :: 0 <= i < |role| && role[i] == ':' ==> !Folded(role[..i])
  }

  ghost predicate KeyNamesPair(table: string, role: string) {
    forall t, r :: PolicyKey(t, r) == PolicyKey(table, role) ==> Fold(t) == Fold(table) && r == role
  }

  lemma KeyParts(table: string, role: string)
    ensures var k := PolicyKey(table, role);
      |k| == |table| + 1 + |role| && k[..|table|] == Fold(table) && k[|table|] == ':' && k[|table| + 1..] == role
  {
  }

  lemma EarlierColon(table: string, role: string, t: string, r: string)
    requires PolicyKey(t, r) == PolicyKey(table, role) && |t| < |table|
    ensures ':' in table
  {
    KeyParts(table, role);
    KeyParts(t, r);
    assert Fold(table)[|t|] == FoldChar(table[|t|]);
  }

  lemma LaterColon(table: string, role: string, t: string, r: string)
    requires PolicyKey(t, r) == PolicyKey(table, role) && |t| > |table|
    ensures var i := |t| - |table| - 1; i < |role| && role[i] == ':' && Folded(role[..i])
  {
    var k, n, i := PolicyKey(table, role), |table|, |t| - |table| - 1;
    KeyParts(table, role);
    KeyParts(t, r);
    FoldIsFolded(t);
    assert role[..i] == k[n + 1..][..i] == k[..|t|][n + 1..];
  }

  lemma Around(s: string, i: nat)
    requires i < |s| && s[i] == ':'
    ensures s == s[..i] + ":" + s[i + 1..]
  {
  }

  lemma Regroup(a: string, b: string, c: string)
    ensures (a + ":" + b) + ":" + c == a + ":" + (b + ":" + c)
  {
  }

  lemma ColonInTable(table: string, role: string, i: nat)
    requires i < |table| && table[i] == ':'
    ensures !KeyNamesPair(table, role)
  {
    var f := Fold(table);
    FoldIsFolded(table);
    FoldIsFolded(f[..i]);
    Around(f, i);
    Regroup(f[..i], f[i + 1..], role);
    assert PolicyKey(f[..i], f[i + 1..] + ":" + role) == PolicyKey(table, role);
  }

  lemma ColonInRole(table: string, role: string, i: nat)
    requires i < |role| && role[i] == ':' && Folded(role[..i])
    ensures !KeyNamesPair(table, role)
  {
    var t := Fold(table) + ":" + role[..i];
    FoldIsFolded(table);
    FoldIsFolded(t);
    Around(role, i);
    Regroup(Fold(table), role[..i], role[i + 1..]);
    assert PolicyKey(t, role[i + 1..]) == PolicyKey(table, role);
  }

  /** A key names one (relation, role) pair exactly when no other colon in it can be the one between them. */
  lemma KeyNamesPairIff(table: string, role: string)
    ensures KeyNamesPair(table, role) <==> OneReading(table, role)
  {
    if OneReading(table, role) {
      forall t, r | PolicyKey(t, r) == PolicyKey(table, role)
        ensures Fold(t) == Fold(table) && r == role
      {
        KeyParts(table, role);
        KeyParts(t, r);
        if |t| < |table| {
          EarlierColon(table, role, t, r);
        } else if |t| > |table| {
          LaterColon(table, role, t, r);
        }
      }
    } else if ':' in table {
      var i :| 0 <= i < |table| && table[i] == ':';
      ColonInTable(table, role, i);
    } else {
      var i :| 0 <= i < |role| && role[i] == ':' && Folded(role[..i]);
      ColonInRole(table, role, i);
    }
  }

  // ---- Looking a policy up ----

  ghost predicate KeyedBy(was: map<string, Access>) {
    forall k :: k in was ==> k == PolicyKey(was[k].table, was[k].role)
  }

  /** What a lookup answers from the policies of a set. */
  ghost function Find(stored: map<string, Access>, table: string, role: string): Option<Access> {
    if PolicyKey(table, role) in stored then Some(stored[PolicyKey(table, role)])
    else if "*:" + role in stored then Some(stored["*:" + role])
    else None
  }

  ghost predicate Has(stored: map<string, Access>, table: string, role: string, a: Access) {
    exists k :: k in stored && stored[k] == a && For(a, table, role)
  }

  /** The relation's own policy for the role; else the role's wildcard policy; else none. */
  ghost predicate Right(stored: map<string, Access>, table: string, role: string) {
    match Find(stored, table, role)
    case Some(a) =>
      Has(stored, table, role, a) || (Has(stored, "*", role, a) && forall b :: !Has(stored, table, role, b))
    case None => forall b :: !Has(stored, table, role, b) && !Has(stored, "*", role, b)
  }

  ghost predicate AllOneReading(stored: map<string, Access>) {
    forall k :: k in stored ==> OneReading(stored[k].table, stored[k].role)
  }

  lemma StarKey(role: string)
    ensures PolicyKey("*", role) == "*:" + role
  {
    FoldIsFolded("*");
  }

  /** A stored policy is under the key it would be asked with. */
  lemma HasIsUnderKey(stored: map<string, Access>, table: string, role: string, a: Access)
    requires KeyedBy(stored) && Has(stored, table, role, a)
    ensures PolicyKey(table, role) in stored && stored[PolicyKey(table, role)] == a
  {
  }

  lemma UnderKeyIsHas(stored: map<string, Access>, table: string, role: string)
    requires KeyedBy(stored) && AllOneReading(stored) && PolicyKey(table, role) in stored
    ensures Has(stored, table, role, stored[PolicyKey(table, role)])
  {
    var a := stored[PolicyKey(table, role)];
    KeyNamesPairIff(a.table, a.role);
    assert PolicyKey(table, role) == PolicyKey(a.table, a.role);
  }

  lemma OneReadingIsRight(stored: map<string, Access>, table: string, role: string)
    requires KeyedBy(stored) && AllOneReading(stored)
    ensures Right(stored, table, role)
  {
    StarKey(role);
    if PolicyKey(table, role) in stored {
      UnderKeyIsHas(stored, table, role);
    } else {
      forall b | Has(stored, table, role, b)
        ensures false
      {
        HasIsUnderKey(stored, table, role, b);
      }
      if PolicyKey("*", role) in stored {
        UnderKeyIsHas(stored, "*", role);
      } else {
        forall b | Has(stored, "*", role, b)
          ensures false
        {
          HasIsUnderKey(stored, "*", role, b);
        }
      }
    }
  }

  /** Every lookup is right exactly when every stored pair's key can be read only one way. */
  lemma LookupIsRightIff(stored: map<string, Access>)
    requires KeyedBy(stored)
    ensures (forall table, role :: Right(stored, table, role)) <==> AllOneReading(stored)
  {
    if AllOneReading(stored) {
      forall table, role
        ensures Right(stored, table, role)
      {
        OneReadingIsRight(stored, table, role);
      }
    } else {
      var k :| k in stored && !OneReading(stored[k].table, stored[k].role);
      WrongAnswer(stored, k);
    }
  }

  lemma WrongAnswer(stored: map<string, Access>, k: string)
    requires KeyedBy(stored) && k in stored && !OneReading(stored[k].table, stored[k].role)
    ensures exists table, role :: !Right(stored, table, role)
  {
    var a := stored[k];
    KeyNamesPairIff(a.table, a.role);
    var t, r :| PolicyKey(t, r) == PolicyKey(a.table, a.role) && !(Fold(t) == Fold(a.table) && r == a.role);
    assert Find(stored, t, r) == Some(a) && !Has(stored, t, r, a);
    assert !Right(stored, t, r) by {
      if Has(stored, "*", r, a) {
        assert Fold(t) != Fold("*");
        StarKey(r);
        KeyParts(t, r);
        KeyParts("*", r);
      }
    }
  }

  /** The policy of relation `a:b` for role `c` answers for relation `a` and role `b:c`. */
  lemma KeysCollide(a: Access)
    requires a.table == "a:b" && a.role == "c"
    ensures PolicyKey("a:b", "c") == PolicyKey("a", "b:c")
    ensures Find(map[PolicyKey("a:b", "c") := a], "a", "b:c") == Some(a) && !For(a, "a", "b:c") && !For(a, "*", "b:c")
  {
    FoldIsFolded("a:b");
    FoldIsFolded("a");
  }

  class PolicySet {
    var policies: Policies

    constructor ()
      ensures policies == map[]
    {
      policies := map[];
    }

    ghost function View(): map<string, Access>
      reads this, policies.Values
    {
      map k | k in policies :: policies[k].Value()
    }

    /** Replaces the pair's policy; no other pair's, when the pair's key can be read only one way. */
    method Add(p: AccessPolicy)
      requires Keyed(policies)
      modifies this
      ensures policies == old(policies)[PolicyKey(p.table, p.role) := p] && Keyed(policies)
      ensures OneReading(p.table, p.role) ==>
        forall k :: k in old(policies) && !For(old(policies)[k].Value(), p.table, p.role) ==>
          k in policies && policies[k] == old(policies)[k]
    {
      KeyNamesPairIff(p.table, p.role);
      policies := policies[PolicyKey(p.table, p.role) := p];
    }

    /** The relation's policy under any spelling of it, else the role's wildcard policy. */
    method Lookup(table: string, role: string) returns (r: Option<AccessPolicy>)
      requires Keyed(policies)
      ensures r.Some? ==> r.value in policies.Values && Find(View(), table, role) == Some(r.value.Value())
      ensures r.None? ==> Find(View(), table, role).None?
      ensures forall k :: k in policies && For(policies[k].Value(), table, role) ==> r == Some(policies[k])
      ensures AllOneReading(View()) ==> Right(View(), table, role)
    {
      if AllOneReading(View()) {
        OneReadingIsRight(View(), table, role);
      }
      if PolicyKey(table, role) in policies {
        return Some(policies[PolicyKey(table, role)]);
      }
      return if "*:" + role in policies then Some(policies["*:" + role]) else None;
    }
  }

  // ---- What a bound policy is ----

  ghost function BoundName(cat: Relations, table: string, c: string): Option<string> {
    BoundColumn(cat, [table], c)
  }

  /** Every policed column resolves, and the bound map holds exactly the resolved names. */
  ghost predicate BoundColumns(cat: Relations, table: string, was: map<string, ColumnAction>,
                               now: map<string, ColumnAction>) {
    && (forall c :: c in was ==> BoundName(cat, table, c).Some? && BoundName(cat, table, c).value in now)
    && (forall d :: d in now ==> exists c :: c in was && BoundName(cat, table, c) == Some(d) && now[d] == was[c])
  }

  ghost predicate AllResolve(cat: Relations, table: string, was: map<string, ColumnAction>) {
    forall c :: c in was ==> BoundName(cat, table, c).Some?
  }

  ghost predicate CanBind(cat: Relations, was: Access) {
    was.table == "*" ||
    (BoundRelation(cat, was.table).Some? && AllResolve(cat, BoundRelation(cat, was.table).value, was.columns))
  }

  ghost predicate BoundAccess(cat: Relations, was: Access, now: Access) {
    && now.role == was.role && now.rowFilter == was.rowFilter
    && if was.table == "*" then now == was
       else BoundRelation(cat, was.table) == Some(now.table) && BoundColumns(cat, now.table, was.columns, now.columns)
  }

  /** Resolution keeps the fold, so a bound policy keeps its key. */
  lemma BoundKey(cat: Relations, was: Access, now: Access)
    requires BoundAccess(cat, was, now)
    ensures PolicyKey(now.table, now.role) == PolicyKey(was.table, was.role)
  {
  }

  lemma OneRelation(cat: Relations, table: string, c: string)
    ensures BoundName(cat, table, c) ==
      if table in cat.columns && Resolvable(cat.columns[table], c) then Some(Resolve(cat.columns[table], c)) else None
  {
    assert [table][..0] == [];
    assert BoundColumn(cat, [], c) == Some("");
  }

  lemma BoundNameTwice(cat: Relations, table: string, c: string)
    requires BoundName(cat, table, c).Some?
    ensures BoundName(cat, table, BoundName(cat, table, c).value) == BoundName(cat, table, c)
  {
    OneRelation(cat, table, c);
    ResolveTwice(cat.columns[table], c);
    OneRelation(cat, table, Resolve(cat.columns[table], c));
  }

  lemma BoundColumnsTwice(cat: Relations, table: string, was: map<string, ColumnAction>, now: map<string, ColumnAction>)
    requires BoundColumns(cat, table, was, now)
    ensures forall d :: d in now ==> BoundName(cat, table, d) == Some(d)
  {
    forall d | d in now
      ensures BoundName(cat, table, d) == Some(d)
    {
      var c :| c in was && BoundName(cat, table, c) == Some(d) && now[d] == was[c];
      BoundNameTwice(cat, table, c);
    }
  }

  /** Binding is idempotent: a bound policy can be bound again, to itself and to nothing else. */
  lemma BindTwice(cat: Relations, was: Access, now: Access)
    requires BoundAccess(cat, was, now)
    ensures CanBind(cat, now) && BoundAccess(cat, now, now)
    ensures forall again :: BoundAccess(cat, now, again) ==> again == now
  {
    if was.table != "*" {
      BoundRelationTwice(cat, was.table);
      BoundColumnsTwice(cat, now.table, was.columns, now.columns);
      forall again | BoundAccess(cat, now, again)
        ensures again == now
      {
        if now.table != "*" {
          assert again.columns == now.columns;
        }
      }
    }
  }

  ghost predicate Determined(cat: Relations, table: string, was: map<string, ColumnAction>) {
    forall x, y :: BoundColumns(cat, table, was, x) && BoundColumns(cat, table, was, y) ==> x == y
  }

  /** No two policed columns resolve to one column and ask for different things. */
  ghost predicate Agreed(cat: Relations, table: string, was: map<string, ColumnAction>) {
    forall c, d :: c in was && d in was && BoundName(cat, table, c) == BoundName(cat, table, d) ==> was[c] == was[d]
  }

  /** A map walk that favours `last` where two policed columns resolve to one. */
  ghost function Favouring(cat: Relations, table: string, was: map<string, ColumnAction>,
                           last: string): map<string, ColumnAction>
    requires AllResolve(cat, table, was) && last in was
  {
    map d | d in (set c | c in was :: BoundName(cat, table, c).value) ::
      if BoundName(cat, table, last) == Some(d) then was[last]
      else was[Source(cat, table, was, d)]
  }

  ghost function Source(cat: Relations, table: string, was: map<string, ColumnAction>, d: string): (c: string)
    requires exists c :: c in was && BoundName(cat, table, c) == Some(d)
    ensures c in was && BoundName(cat, table, c) == Some(d)
  {
    var c :| c in was && BoundName(cat, table, c) == Some(d);
    c
  }

  lemma FavouringBinds(cat: Relations, table: string, was: map<string, ColumnAction>, last: string)
    requires AllResolve(cat, table, was) && last in was
    ensures BoundColumns(cat, table, was, Favouring(cat, table, was, last))
    ensures var d := BoundName(cat, table, last).value;
      d in Favouring(cat, table, was, last) && Favouring(cat, table, was, last)[d] == was[last]
  {
  }

  /** The bound columns are fixed if and only if fold-alike columns ask for the same. */
  lemma DeterminedIff(cat: Relations, table: string, was: map<string, ColumnAction>)
    requires AllResolve(cat, table, was)
    ensures Determined(cat, table, was) <==> Agreed(cat, table, was)
  {
    if Agreed(cat, table, was) {
      forall x, y | BoundColumns(cat, table, was, x) && BoundColumns(cat, table, was, y)
        ensures x == y
      {
        AgreedIsDetermined(cat, table, was, x, y);
        AgreedIsDetermined(cat, table, was, y, x);
      }
    }
    if Determined(cat, table, was) {
      forall c, d | c in was && d in was && BoundName(cat, table, c) == BoundName(cat, table, d)
        ensures was[c] == was[d]
      {
        DeterminedAgrees(cat, table, was, c, d);
      }
    }
  }

  lemma DeterminedAgrees(cat: Relations, table: string, was: map<string, ColumnAction>, c: string, d: string)
    requires AllResolve(cat, table, was) && Determined(cat, table, was)
    requires c in was && d in was && BoundName(cat, table, c) == BoundName(cat, table, d)
    ensures was[c] == was[d]
  {
    FavouringBinds(cat, table, was, c);
    FavouringBinds(cat, table, was, d);
    assert Favouring(cat, table, was, c) == Favouring(cat, table, was, d);
  }

  lemma AgreedIsDetermined(cat: Relations, table: string, was: map<string, ColumnAction>,
                           x: map<string, ColumnAction>, y: map<string, ColumnAction>)
    requires Agreed(cat, table, was) && BoundColumns(cat, table, was, x) && BoundColumns(cat, table, was, y)
    ensures forall d :: d in x ==> d in y && x[d] == y[d]
  {
  }

  /** Two policed columns that name one column: either action may be the bound one. */
  lemma TwoActions(cat: Relations, table: string, c: string, d: string, e: string, x: ColumnAction, y: ColumnAction)
    requires c != d && BoundName(cat, table, c) == Some(e) == BoundName(cat, table, d)
    ensures var was := map[c := x, d := y];
      BoundColumns(cat, table, was, map[e := x]) && BoundColumns(cat, table, was, map[e := y])
  {
    var was := map[c := x, d := y];
    assert c in was && was[c] == x && d in was && was[d] == y;
  }

  /** As with `Id` and `id` of a policy on a table that has `Id`. */
  lemma FoldAlikeColumnsRace()
    ensures var cat, was := Relations(["t"], map["t" := ["Id"]]), map["Id" := Mask, "id" := Deny];
      && BoundColumns(cat, "t", was, map["Id" := Mask]) && BoundColumns(cat, "t", was, map["Id" := Deny])
      && map["Id" := Mask] != map["Id" := Deny]
  {
    var cat := Relations(["t"], map["t" := ["Id"]]);
    BothNameId();
    OneRelation(cat, "t", "Id");
    OneRelation(cat, "t", "id");
    TwoActions(cat, "t", "Id", "id", "Id", Mask, Deny);
    assert map["Id" := Mask]["Id"] != map["Id" := Deny]["Id"];
  }

  lemma BothNameId()
    ensures Resolvable(["Id"], "Id") && Resolve(["Id"], "Id") == "Id"
    ensures Resolvable(["Id"], "id") && Resolve(["Id"], "id") == "Id"
  {
    var names := ["Id"];
    assert names[0] == "Id" && "Id"[0] == 'I' && "id"[0] == 'i' && "Id"[1] == 'd' && "id"[1] == 'd';
    assert Denotes(names, "Id", 0);
    assert EqualFold(names[0], "id") && Matches(names, "id") == {0};
    assert Denotes(names, "id", 0);
  }

  // ---- In place, on a copy ----

  /** Rewrites one policy's columns; where two resolve to one name, the later of the walk wins. */
  method BindColumns(cat: Relations, table: string, was: map<string, ColumnAction>)
    returns (r: Option<map<string, ColumnAction>>)
    ensures r.Some? <==> AllResolve(cat, table, was)
    ensures r.Some? ==> BoundColumns(cat, table, was, r.value)
  {
    var cols: map<string, ColumnAction> := map[];
    var left := was.Keys;
    while left != {}
      invariant left <= was.Keys
      invariant forall c :: c in was && c !in left ==>
        BoundName(cat, table, c).Some? && BoundName(cat, table, c).value in cols
      invariant FromColumns(cat, table, was, cols)
    {
      var c :| c in left;
      left := left - {c};
      var rc := ResolveColumn(cat, [table], c);
      if rc.None? {
        return None;
      }
      cols := Walked(cat, table, was, cols, c, rc.value);
    }
    return Some(cols);
  }

  ghost predicate FromColumns(cat: Relations, table: string, was: map<string, ColumnAction>,
                              cols: map<string, ColumnAction>) {
    forall d :: d in cols ==> exists c :: c in was && BoundName(cat, table, c) == Some(d) && cols[d] == was[c]
  }

  function Walked(ghost cat: Relations, ghost table: string, was: map<string, ColumnAction>,
                  cols: map<string, ColumnAction>, c: string, rc: string): (r: map<string, ColumnAction>)
    requires c in was && BoundName(cat, table, c) == Some(rc) && FromColumns(cat, table, was, cols)
    ensures FromColumns(cat, table, was, r) && r.Keys == cols.Keys + {rc}
  {
    cols[rc := was[c]]
  }

  method BindPolicy(cat: Relations, p: AccessPolicy) returns (ok: bool)
    modifies p
    ensures ok <==> CanBind(cat, old(p.Value()))
    ensures ok ==> BoundAccess(cat, old(p.Value()), p.Value())
  {
    if p.table == "*" {
      return true;
    }
    var resolved := ResolveRelation(cat, p.table);
    if resolved.None? {
      return false;
    }
    var cols := p.columns;
    if |p.columns| > 0 {
      var bound := BindColumns(cat, resolved.value, p.columns);
      if bound.None? {
        return false;
      }
      cols := bound.value;
    } else {
      NoColumns(cat, resolved.value, p.columns);
    }
    p.table, p.columns := resolved.value, cols;
    return true;
  }

  lemma NoColumns(cat: Relations, table: string, was: map<string, ColumnAction>)
    requires |was| == 0
    ensures AllResolve(cat, table, was) && BoundColumns(cat, table, was, was)
  {
  }

  /** Distinct keys hold distinct objects. */
  ghost predicate Apart(ps: Policies) {
    forall j, k :: j in ps && k in ps && j != k ==> ps[j] != ps[k]
  }

  method ClonePolicySet(ps: Policies) returns (out: Policies)
    ensures out.Keys == ps.Keys && Apart(out)
    ensures forall k :: k in ps ==> fresh(out[k]) && out[k].Value() == ps[k].Value()
  {
    out := map[];
    var left := ps.Keys;
    while left != {}
      invariant left <= ps.Keys && out.Keys == ps.Keys - left && Apart(out)
      invariant forall k :: k in out ==> fresh(out[k]) && out[k].Value() == ps[k].Value()
    {
      var k :| k in left;
      var p := ps[k];
      var copy := new AccessPolicy(Access(p.table, p.role, p.columns, p.rowFilter));
      out := out[k := copy];
      left := left - {k};
    }
  }

  /** The policies outside `left` are bound, the others as they were. */
  ghost predicate BoundBut(cat: Relations, was: map<string, Access>, now: map<string, Access>, left: set<string>) {
    && now.Keys == was.Keys
    && (forall k :: k in was && k in left ==> now[k] == was[k])
    && (forall k :: k in was && k !in left ==> CanBind(cat, was[k]) && BoundAccess(cat, was[k], now[k]))
  }

  lemma BoundButNext(cat: Relations, was: map<string, Access>, now: map<string, Access>, left: set<string>, k: string,
                     a: Access)
    requires KeyedBy(was) && BoundBut(cat, was, now, left) && k in left && k in was && CanBind(cat, was[k])
      && BoundAccess(cat, was[k], a)
    ensures BoundBut(cat, was, now[k := a], left - {k})
    ensures PolicyKey(a.table, a.role) == k
  {
    BoundKey(cat, was[k], a);
  }

  ghost predicate Rebuilt(ps: Policies, rebuilt: Policies, left: set<string>) {
    rebuilt.Keys == ps.Keys - left && forall k :: k in rebuilt ==> rebuilt[k] == ps[k]
  }

  lemma RebuiltNext(ps: Policies, rebuilt: Policies, left: set<string>, k: string)
    requires Rebuilt(ps, rebuilt, left) && k in left && k in ps
    ensures Rebuilt(ps, rebuilt[k := ps[k]], left - {k})
  {
  }

  lemma RebuiltAll(ps: Policies, rebuilt: Policies)
    requires Rebuilt(ps, rebuilt, {})
    ensures rebuilt == ps
  {
  }

  /** One entry of the copy, in place. */
  method BindEntry(cat: Relations, ps: Policies, left: set<string>, k: string, ghost was: map<string, Access>,
                   ghost now: map<string, Access>)
    returns (ok: bool, ghost next: map<string, Access>)
    requires Apart(ps) && KeyedBy(was) && was.Keys == ps.Keys && k in left && k in ps
    requires BoundBut(cat, was, now, left) && forall j :: j in ps ==> ps[j].Value() == now[j]
    modifies ps[k]
    ensures !ok ==> !CanBind(cat, was[k])
    ensures ok ==> BoundBut(cat, was, next, left - {k}) && PolicyKey(ps[k].table, ps[k].role) == k
    ensures ok ==> forall j :: j in ps ==> ps[j].Value() == next[j]
  {
    ok := BindPolicy(cat, ps[k]);
    next := now[k := ps[k].Value()];
    if ok {
      BoundButNext(cat, was, now, left, k, ps[k].Value());
    }
  }

  /** Binds every policy of the copy and rebuilds the map under the bound keys. */
  method BindAllPolicies(cat: Relations, ps: Policies, ghost was: map<string, Access>)
    returns (ok: bool, rebuilt: Policies, ghost now: map<string, Access>)
    requires Apart(ps) && KeyedBy(was) && was.Keys == ps.Keys
    requires forall k :: k in ps ==> ps[k].Value() == was[k]
    modifies ps.Values
    ensures ok ==> rebuilt == ps && BoundBut(cat, was, now, {}) && forall k :: k in ps ==> ps[k].Value() == now[k]
    ensures !ok ==> exists k :: k in was && !CanBind(cat, was[k])
  {
    ok, rebuilt, now := true, map[], was;
    var left := ps.Keys;
    while left != {}
      invariant ok && left <= ps.Keys && Rebuilt(ps, rebuilt, left)
      invariant BoundBut(cat, was, now, left) && forall k :: k in ps ==> ps[k].Value() == now[k]
    {
      var k :| k in left;
      ok, now := BindEntry(cat, ps, left, k, was, now);
      if !ok {
        return;
      }
      RebuiltNext(ps, rebuilt, left, k);
      rebuilt := rebuilt[PolicyKey(ps[k].table, ps[k].role) := ps[k]];
      left := left - {k};
    }
    RebuiltAll(ps, rebuilt);
  }

  lemma BoundKeys(cat: Relations, was: map<string, Access>, now: map<string, Access>)
    requires KeyedBy(was) && BoundBut(cat, was, now, {})
    ensures KeyedBy(now)
  {
    forall k | k in now
      ensures k == PolicyKey(now[k].table, now[k].role)
    {
      BoundKey(cat, was[k], now[k]);
    }
  }

  /** Clones the set and binds the clone. */
  method BindCopy(cat: Relations, ps: Policies, ghost was: map<string, Access>)
    returns (ok: bool, rebuilt: Policies, ghost now: map<string, Access>)
    requires KeyedBy(was) && was.Keys == ps.Keys && forall k :: k in ps ==> ps[k].Value() == was[k]
    ensures ok ==> rebuilt.Keys == ps.Keys && BoundBut(cat, was, now, {})
    ensures ok ==> forall k :: k in rebuilt ==> fresh(rebuilt[k]) && rebuilt[k].Value() == now[k]
    ensures !ok ==> exists k :: k in was && !CanBind(cat, was[k])
  {
    var copy := ClonePolicySet(ps);
    ok, rebuilt, now := BindAllPolicies(cat, copy, was);
  }

  /**
   The bound copy of a legacy set under exactly the same (relation, role) keys, or
   None when a name does not resolve. Nothing that existed before is modified.
   */
  method BindLegacy(cat: Relations, ps: Policies, ghost was: map<string, Access>) returns (r: Option<Policies>)
    requires Keyed(ps) && was.Keys == ps.Keys && forall k :: k in ps ==> ps[k].Value() == was[k]
    ensures r.Some? <==> forall k :: k in was ==> CanBind(cat, was[k])
    ensures r.Some? ==> r.value.Keys == ps.Keys && Keyed(r.value)
    ensures r.Some? ==> forall k :: k in ps ==> fresh(r.value[k]) && BoundAccess(cat, was[k], r.value[k].Value())
    ensures forall k :: k in ps ==> ps[k].Value() == was[k]
  {
    var ok, rebuilt, now := BindCopy(cat, ps, was);
    if !ok {
      return None;
    }
    BoundKeys(cat, was, now);
    return Some(rebuilt);
  }
}
