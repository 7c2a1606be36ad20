/**
 MERGE: join every source row with every live target row on the ON keys, fire the
 first WHEN clause whose condition holds, let no target row be affected twice,
 and turn the affected rows' carried (file, position) into delete markers.
 */
module Merge {
  import opened Options
  import opened Bags
  import opened Tables
  import opened Dml

  datatype OnKey = OnKey(target: string, source: string)

  datatype Action = UpdateAction | DeleteAction | InsertAction

  /**
   One WHEN clause. Its condition and its SET / VALUES expressions see the source
   row and, when `matched`, the target row; a NOT MATCHED clause sees no target.
   */
  datatype Clause = Clause(
    matched: bool,
    action: Action,
    cond: (Row, Row) -> Eval<bool>,
    value: (Row, Row) -> Eval<Row>)

  datatype Spec = Spec(keys: seq<OnKey>, clauses: seq<Clause>)

  const NO_TARGET := Row(map[])

  function Cell(row: Row, column: string): Tables.Value {
    if column in row.cells then row.cells[column] else Null
  }

  /** ON-key equality: one number per integer or float family, NULL equal to NULL only, a NaN to nothing. */
  predicate KeyEqual(a: Tables.Value, b: Tables.Value) {
    match (a, b)
    case (Int32(x), Int64(y)) => x == y
    case (Int64(x), Int32(y)) => x == y
    case (Float32(x), Float64(y)) => x == y
    case (Float64(x), Float32(y)) => x == y
    case (NaN, NaN) => false
    case _ => a == b
  }

  /** The box a key value is compared as: one for the integers, one for the floats. */
  function Canonical(v: Tables.Value): Tables.Value {
    match v
    case Int32(x) => Int64(x)
    case Float32(x) => Float64(x)
    case _ => v
  }

  /** "Compares equal" and "keys alike" are one relation, so it is an equivalence on everything but NaN. */
  lemma KeyEqualIsKeyedAlike(a: Tables.Value, b: Tables.Value)
    ensures KeyEqual(a, b) <==> Canonical(a) == Canonical(b) && !a.NaN?
  {
  }

  predicate MatchByKeys(src: Row, tgt: Row, keys: seq<OnKey>) {
    forall i :: 0 <= i < |keys| ==> KeyEqual(Cell(src, keys[i].source), Cell(tgt, keys[i].target))
  }

  /** Key by key: the source column and the target column hold one box, a column that is not there holding NULL. */
  lemma MatchMeans(src: Row, tgt: Row, keys: seq<OnKey>)
    ensures MatchByKeys(src, tgt, keys) <==>
      forall k :: k in keys ==>
        var a := if k.source in src.cells then src.cells[k.source] else Null;
        var b := if k.target in tgt.cells then tgt.cells[k.target] else Null;
        Canonical(a) == Canonical(b) && a != NaN
  {
    forall i | 0 <= i < |keys|
      ensures var a, b := Cell(src, keys[i].source), Cell(tgt, keys[i].target);
        KeyEqual(a, b) <==> Canonical(a) == Canonical(b) && a != NaN
    {
      KeyEqualIsKeyedAlike(Cell(src, keys[i].source), Cell(tgt, keys[i].target));
    }
    if MatchByKeys(src, tgt, keys) {
      forall k | k in keys
        ensures KeyEqual(Cell(src, k.source), Cell(tgt, k.target))
      {
        var i :| 0 <= i < |keys| && keys[i] == k;
      }
    }
  }

  /** The first clause of the right kind whose condition holds, from clause `from` on. */
  function FirstFiring(clauses: seq<Clause>, matched: bool, src: Row, tgt: Row, from: nat := 0): Eval<Option<nat>>
    decreases |clauses| - from
  {
    if from >= |clauses| then Value(None)
    else if clauses[from].matched != matched then FirstFiring(clauses, matched, src, tgt, from + 1)
    else
      match clauses[from].cond(src, tgt)
      case Panic => Panic
      case Value(true) => Value(Some(from))
      case Value(false) => FirstFiring(clauses, matched, src, tgt, from + 1)
  }

  /** Every clause of the kind in between has a condition that is false. */
  ghost predicate AllFalse(clauses: seq<Clause>, matched: bool, src: Row, tgt: Row, from: nat, to: nat)
    requires to <= |clauses|
  {
    forall i :: from <= i < to && clauses[i].matched == matched ==> clauses[i].cond(src, tgt) == Value(false)
  }

  lemma {:induction false} FirstFiringMeans(clauses: seq<Clause>, matched: bool, src: Row, tgt: Row, from: nat)
    ensures match FirstFiring(clauses, matched, src, tgt, from)
      case Value(Some(c)) =>
        && from <= c < |clauses| && clauses[c].matched == matched && clauses[c].cond(src, tgt) == Value(true)
        && AllFalse(clauses, matched, src, tgt, from, c)
      case Value(None) => AllFalse(clauses, matched, src, tgt, from, |clauses|)
      case Panic =>
        exists c: nat :: from <= c < |clauses| && clauses[c].matched == matched && clauses[c].cond(src, tgt).Panic?
                         && AllFalse(clauses, matched, src, tgt, from, c)
    decreases |clauses| - from
  {
    if from < |clauses| {
      if clauses[from].matched != matched || clauses[from].cond(src, tgt) == Value(false) {
        FirstFiringMeans(clauses, matched, src, tgt, from + 1);
      } else {
        assert AllFalse(clauses, matched, src, tgt, from, from);
      }
    }
  }

  datatype TargetRow = TargetRow(row: Row, addr: Addr)

  /** What a MERGE has decided so far: the affected targets, and the rows it will write. */
  datatype Plan = Plan(hit: set<nat>, updates: seq<Row>, inserts: seq<Row>, affected: nat)

  /** `Cardinality` is SQLSTATE 21000: a target row would be affected a second time. */
  datatype Outcome = Planned(plan: Plan) | Cardinality | Failed

  function OnPair(spec: Spec, src: Row, tgt: Row, i: nat, p: Plan): Outcome {
    if !MatchByKeys(src, tgt, spec.keys) then Planned(p)
    else
      match FirstFiring(spec.clauses, true, src, tgt)
      case Panic => Failed
      case Value(None) => Planned(p)
      case Value(Some(c)) =>
        if i in p.hit then Cardinality
        else
          FirstFiringMeans(spec.clauses, true, src, tgt, 0);
          match spec.clauses[c].action
          case UpdateAction =>
            (match spec.clauses[c].value(src, tgt)
             case Panic => Failed
             case Value(row) =>
               Planned(p.(hit := p.hit + {i}, updates := p.updates + [row], affected := p.affected + 1)))
          case DeleteAction => Planned(p.(hit := p.hit + {i}, affected := p.affected + 1))
          case InsertAction => Planned(p)
  }

  function OnTargets(spec: Spec, src: Row, tgts: seq<TargetRow>, n: nat, p: Plan): Outcome
    requires n <= |tgts|
  {
    if n == 0 then Planned(p)
    else
      match OnTargets(spec, src, tgts, n - 1, p)
      case Planned(q) => OnPair(spec, src, tgts[n - 1].row, n - 1, q)
      case other => other
  }

  predicate Unmatched(spec: Spec, src: Row, tgts: seq<TargetRow>) {
    forall i :: 0 <= i < |tgts| ==> !MatchByKeys(src, tgts[i].row, spec.keys)
  }

  function OnAbsence(spec: Spec, src: Row, p: Plan): Outcome {
    match FirstFiring(spec.clauses, false, src, NO_TARGET)
    case Panic => Failed
    case Value(None) => Planned(p)
    case Value(Some(c)) =>
      FirstFiringMeans(spec.clauses, false, src, NO_TARGET, 0);
      if !spec.clauses[c].action.InsertAction? then Planned(p)
      else
        match spec.clauses[c].value(src, NO_TARGET)
        case Panic => Failed
        case Value(row) => Planned(p.(inserts := p.inserts + [row], affected := p.affected + 1))
  }

  function OnSource(spec: Spec, src: Row, tgts: seq<TargetRow>, p: Plan): Outcome {
    match OnTargets(spec, src, tgts, |tgts|, p)
    case Planned(q) => if Unmatched(spec, src, tgts) then OnAbsence(spec, src, q) else Planned(q)
    case other => other
  }

  const EMPTY_PLAN := Plan({}, [], [], 0)

  function OnSources(spec: Spec, srcs: seq<Row>, tgts: seq<TargetRow>): Outcome {
    if srcs == [] then Planned(EMPTY_PLAN)
    else
      match OnSources(spec, srcs[..|srcs| - 1], tgts)
      case Planned(q) => OnSource(spec, srcs[|srcs| - 1], tgts, q)
      case other => other
  }

  lemma {:induction false} StoppedTargets(spec: Spec, src: Row, tgts: seq<TargetRow>, i: nat, n: nat, p: Plan)
    requires i <= n <= |tgts| && !OnTargets(spec, src, tgts, i, p).Planned?
    ensures OnTargets(spec, src, tgts, n, p) == OnTargets(spec, src, tgts, i, p)
    decreases n
  {
    if i < n {
      StoppedTargets(spec, src, tgts, i, n - 1, p);
    }
  }

  lemma {:induction false} StoppedSources(spec: Spec, srcs: seq<Row>, tgts: seq<TargetRow>, i: nat)
    requires i <= |srcs| && !OnSources(spec, srcs[..i], tgts).Planned?
    ensures OnSources(spec, srcs, tgts) == OnSources(spec, srcs[..i], tgts)
    decreases |srcs|
  {
    if i < |srcs| {
      assert srcs[..|srcs| - 1][..i] == srcs[..i];
      StoppedSources(spec, srcs[..|srcs| - 1], tgts, i);
    } else {
      assert srcs[..i] == srcs;
    }
  }

  /** One source row against every target row, then against their absence. */
  method JoinSource(spec: Spec, src: Row, tgts: seq<TargetRow>, before: Plan) returns (r: Outcome)
    ensures r == OnSource(spec, src, tgts, before)
  {
    var matched, p := false, before;
    for i := 0 to |tgts|
      invariant OnTargets(spec, src, tgts, i, before) == Planned(p)
      invariant matched <==> exists k :: 0 <= k < i && MatchByKeys(src, tgts[k].row, spec.keys)
    {
      if MatchByKeys(src, tgts[i].row, spec.keys) {
        matched := true;
        var next := OnPair(spec, src, tgts[i].row, i, p);
        if !next.Planned? {
          StoppedTargets(spec, src, tgts, i + 1, |tgts|, before);
          return next;
        }
        p := next.plan;
      }
    }
    return if matched then Planned(p) else OnAbsence(spec, src, p);
  }

  /** The join loop of a MERGE. */
  method JoinRows(spec: Spec, srcs: seq<Row>, tgts: seq<TargetRow>) returns (r: Outcome)
    ensures r == OnSources(spec, srcs, tgts)
    ensures match r
      case Planned(p) =>
        AllSettled(spec, tgts, srcs) && !Clashes(spec, tgts, srcs) && Decides(spec, tgts, multiset(srcs), p)
      case Cardinality => Clashes(spec, tgts, srcs)
      case Failed => !AllSettled(spec, tgts, srcs)
  {
    JoinMeans(spec, srcs, tgts);
    r := Planned(EMPTY_PLAN);
    for n := 0 to |srcs|
      invariant r.Planned? && r == OnSources(spec, srcs[..n], tgts)
    {
      assert srcs[..n + 1][..n] == srcs[..n];
      r := JoinSource(spec, srcs[n], tgts, r.plan);
      if !r.Planned? {
        StoppedSources(spec, srcs, tgts, n + 1);
        return;
      }
    }
    assert srcs[..|srcs|] == srcs;
  }

  // ---- What the join decides, without its order ----

  /** The clause a matched pair fires. */
  function Firing(spec: Spec, src: Row, tgt: Row): Option<Clause> {
    if !MatchByKeys(src, tgt, spec.keys) then None
    else
      match FirstFiring(spec.clauses, true, src, tgt)
      case Value(Some(c)) =>
        FirstFiringMeans(spec.clauses, true, src, tgt, 0);
        Some(spec.clauses[c])
      case _ => None
  }

  ghost predicate Fires(spec: Spec, src: Row, tgt: Row) {
    Firing(spec, src, tgt).Some?
  }

  /** Fires a clause that supersedes the target row. A matched INSERT fires and does nothing. */
  ghost predicate Affects(spec: Spec, src: Row, tgt: Row) {
    Fires(spec, src, tgt) && !Firing(spec, src, tgt).value.action.InsertAction?
  }

  ghost function UpdatedRow(spec: Spec, src: Row, tgt: Row): multiset<Row> {
    match Firing(spec, src, tgt)
    case Some(Clause(_, UpdateAction, _, value)) =>
      if value(src, tgt).Value? then multiset{value(src, tgt).value} else multiset{}
    case _ => multiset{}
  }

  /** The clause that fires for a source row no target matches. */
  function FiringAlone(spec: Spec, src: Row): Option<Clause> {
    match FirstFiring(spec.clauses, false, src, NO_TARGET)
    case Value(Some(c)) =>
      FirstFiringMeans(spec.clauses, false, src, NO_TARGET, 0);
      Some(spec.clauses[c])
    case _ => None
  }

  /** The row that clause's VALUES make of the source row; a clause that is no INSERT makes none. */
  ghost function NewRow(spec: Spec, src: Row): multiset<Row> {
    match FiringAlone(spec, src)
    case Some(Clause(_, InsertAction, _, value)) =>
      if value(src, NO_TARGET).Value? then multiset{value(src, NO_TARGET).value} else multiset{}
    case _ => multiset{}
  }

  ghost function InsertedRow(spec: Spec, tgts: seq<TargetRow>, src: Row): multiset<Row> {
    if Unmatched(spec, src, tgts) then NewRow(spec, src) else multiset{}
  }

  /** Every expression the source row needs has a value. */
  ghost predicate Settled(spec: Spec, tgts: seq<TargetRow>, src: Row) {
    && (forall i :: 0 <= i < |tgts| ==> SettledPair(spec, src, tgts[i].row))
    && (Unmatched(spec, src, tgts) ==> SettledAlone(spec, src))
  }

  ghost predicate SettledAlone(spec: Spec, src: Row) {
    && FirstFiring(spec.clauses, false, src, NO_TARGET).Value?
    && match FiringAlone(spec, src)
       case Some(c) => c.action.InsertAction? ==> c.value(src, NO_TARGET).Value?
       case None => true
  }

  ghost predicate SettledPair(spec: Spec, src: Row, tgt: Row) {
    MatchByKeys(src, tgt, spec.keys) ==>
      && FirstFiring(spec.clauses, true, src, tgt).Value?
      && (Fires(spec, src, tgt) ==>
            var c := Firing(spec, src, tgt).value; c.action.UpdateAction? ==> c.value(src, tgt).Value?)
  }

  ghost function AffectedBy(spec: Spec, src: Row, tgts: seq<TargetRow>, n: nat): (r: set<nat>)
    requires n <= |tgts|
    ensures forall i :: i in r <==> 0 <= i < n && Affects(spec, src, tgts[i].row)
  {
    set i: nat | 0 <= i < n && Affects(spec, src, tgts[i].row)
  }

  ghost function UpdatedBy(spec: Spec, src: Row, tgts: seq<TargetRow>, n: nat): multiset<Row>
    requires n <= |tgts|
  {
    if n == 0 then multiset{} else UpdatedBy(spec, src, tgts, n - 1) + UpdatedRow(spec, src, tgts[n - 1].row)
  }

  /** `q` is `p` after the source row has met the target `i`. */
  ghost predicate Met(spec: Spec, src: Row, tgt: Row, i: nat, p: Plan, q: Plan) {
    && q.inserts == p.inserts
    && q.hit == p.hit + Only(Affects(spec, src, tgt), i)
    && q.affected == p.affected + |Only(Affects(spec, src, tgt), i)|
    && multiset(q.updates) == multiset(p.updates) + UpdatedRow(spec, src, tgt)
  }

  lemma PairMeans(spec: Spec, src: Row, tgt: Row, i: nat, p: Plan)
    requires SettledPair(spec, src, tgt)
    ensures var r := OnPair(spec, src, tgt, i, p);
      if i in p.hit && Fires(spec, src, tgt) then r.Cardinality?
      else r.Planned? && Met(spec, src, tgt, i, p, r.plan)
  {
    if Fires(spec, src, tgt) {
      FirstFiringMeans(spec.clauses, true, src, tgt, 0);
      FiredPair(spec, src, tgt, i, p);
    }
  }

  lemma FiredPair(spec: Spec, src: Row, tgt: Row, i: nat, p: Plan)
    requires SettledPair(spec, src, tgt) && Fires(spec, src, tgt)
    ensures var r := OnPair(spec, src, tgt, i, p);
      if i in p.hit then r.Cardinality? else r.Planned? && Met(spec, src, tgt, i, p, r.plan)
  {
    var c := Firing(spec, src, tgt).value;
    if i !in p.hit {
      var q := OnPair(spec, src, tgt, i, p);
      match c.action
      case UpdateAction => assert q.plan.updates == p.updates + [c.value(src, tgt).value];
      case DeleteAction => assert q.plan.updates == p.updates;
      case InsertAction => assert q.plan == p && p.hit + {} == p.hit;
    }
  }

  /** A target already affected that the source row would fire on. */
  ghost predicate Repeats(spec: Spec, src: Row, tgts: seq<TargetRow>, n: nat, hit: set<nat>)
    requires n <= |tgts|
  {
    exists i :: 0 <= i < n && i in hit && Fires(spec, src, tgts[i].row)
  }

  /** `q` is `p` after the source row has met the first `n` targets. */
  ghost predicate Advanced(spec: Spec, src: Row, tgts: seq<TargetRow>, n: nat, p: Plan, q: Plan)
    requires n <= |tgts|
  {
    && q.inserts == p.inserts
    && q.hit == p.hit + AffectedBy(spec, src, tgts, n)
    && q.affected == p.affected + |AffectedBy(spec, src, tgts, n)|
    && multiset(q.updates) == multiset(p.updates) + UpdatedBy(spec, src, tgts, n)
  }

  lemma {:induction false} TargetsMean(spec: Spec, src: Row, tgts: seq<TargetRow>, n: nat, p: Plan)
    requires n <= |tgts| && forall i :: 0 <= i < |tgts| ==> SettledPair(spec, src, tgts[i].row)
    ensures var r := OnTargets(spec, src, tgts, n, p);
      if Repeats(spec, src, tgts, n, p.hit) then r.Cardinality?
      else r.Planned? && Advanced(spec, src, tgts, n, p, r.plan)
  {
    if n == 0 {
      assert AffectedBy(spec, src, tgts, 0) == {};
    } else {
      TargetsMean(spec, src, tgts, n - 1, p);
      RepeatsNext(spec, src, tgts, n, p.hit);
      var r := OnTargets(spec, src, tgts, n - 1, p);
      if r.Planned? {
        PairMeans(spec, src, tgts[n - 1].row, n - 1, r.plan);
        var next := OnPair(spec, src, tgts[n - 1].row, n - 1, r.plan);
        if next.Planned? {
          AdvancedNext(spec, src, tgts, n, p, r.plan, next.plan);
        }
      }
    }
  }

  lemma RepeatsNext(spec: Spec, src: Row, tgts: seq<TargetRow>, n: nat, hit: set<nat>)
    requires 0 < n <= |tgts|
    ensures Repeats(spec, src, tgts, n, hit) <==>
            Repeats(spec, src, tgts, n - 1, hit) || (n - 1 in hit && Fires(spec, src, tgts[n - 1].row))
  {
  }

  ghost function Only(affects: bool, i: nat): set<nat> {
    if affects then {i} else {}
  }

  lemma AffectedLast(spec: Spec, src: Row, tgts: seq<TargetRow>, n: nat)
    requires 0 < n <= |tgts|
    ensures var before, last := AffectedBy(spec, src, tgts, n - 1), Only(Affects(spec, src, tgts[n - 1].row), n - 1);
      AffectedBy(spec, src, tgts, n) == before + last && |before + last| == |before| + |last|
  {
  }

  lemma Assoc<A>(a: multiset<A>, b: multiset<A>, c: multiset<A>)
    ensures (a + b) + c == a + (b + c)
  {
  }

  lemma AssocSets<A>(a: set<A>, b: set<A>, c: set<A>)
    ensures (a + b) + c == a + (b + c)
  {
  }

  lemma AdvancedNext(spec: Spec, src: Row, tgts: seq<TargetRow>, n: nat, p: Plan, q: Plan, r: Plan)
    requires 0 < n <= |tgts| && Advanced(spec, src, tgts, n - 1, p, q)
    requires Met(spec, src, tgts[n - 1].row, n - 1, q, r)
    ensures Advanced(spec, src, tgts, n, p, r)
  {
    AffectedLast(spec, src, tgts, n);
    AssocSets(p.hit, AffectedBy(spec, src, tgts, n - 1), Only(Affects(spec, src, tgts[n - 1].row), n - 1));
    Assoc(multiset(p.updates), UpdatedBy(spec, src, tgts, n - 1), UpdatedRow(spec, src, tgts[n - 1].row));
  }

  /** The later row `y` fires on a target the earlier row `x` has affected. */
  ghost predicate Clash(spec: Spec, tgts: seq<TargetRow>, x: Row, y: Row) {
    exists i :: 0 <= i < |tgts| && Affects(spec, x, tgts[i].row) && Fires(spec, y, tgts[i].row)
  }

  ghost predicate Clashes(spec: Spec, tgts: seq<TargetRow>, srcs: seq<Row>) {
    exists i, j :: 0 <= i < j < |srcs| && Clash(spec, tgts, srcs[i], srcs[j])
  }

  ghost predicate AllSettled(spec: Spec, tgts: seq<TargetRow>, srcs: seq<Row>) {
    forall i :: 0 <= i < |srcs| ==> Settled(spec, tgts, srcs[i])
  }

  /** The targets some row of the bag affects. */
  ghost function Affected(spec: Spec, tgts: seq<TargetRow>, bag: multiset<Row>): (r: set<nat>)
    ensures forall i :: i in r <==> 0 <= i < |tgts| && exists s :: s in bag && Affects(spec, s, tgts[i].row)
  {
    set i: nat | 0 <= i < |tgts| && exists s :: s in bag && Affects(spec, s, tgts[i].row)
  }

  ghost function Updates(spec: Spec, tgts: seq<TargetRow>, bag: multiset<Row>): multiset<Row> {
    Flat(bag, (s: Row) => UpdatedBy(spec, s, tgts, |tgts|))
  }

  ghost function Inserts(spec: Spec, tgts: seq<TargetRow>, bag: multiset<Row>): multiset<Row> {
    Flat(bag, (s: Row) => InsertedRow(spec, tgts, s))
  }

  /** What the plan says, in terms of the bag of source rows alone. */
  ghost predicate Decides(spec: Spec, tgts: seq<TargetRow>, bag: multiset<Row>, p: Plan) {
    && p.hit == Affected(spec, tgts, bag)
    && multiset(p.updates) == Updates(spec, tgts, bag)
    && multiset(p.inserts) == Inserts(spec, tgts, bag)
    && p.affected == |p.hit| + |p.inserts|
  }

  lemma DecidesNext(spec: Spec, src: Row, tgts: seq<TargetRow>, bag: multiset<Row>, p: Plan, q: Plan, r: Plan)
    requires Decides(spec, tgts, bag, p) && Advanced(spec, src, tgts, |tgts|, p, q)
    requires p.hit !! AffectedBy(spec, src, tgts, |tgts|)
    requires r.hit == q.hit && r.updates == q.updates
    requires multiset(r.inserts) == multiset(q.inserts) + InsertedRow(spec, tgts, src)
    requires r.affected == q.affected + |r.inserts| - |q.inserts|
    ensures Decides(spec, tgts, bag + multiset{src}, r)
  {
    AffectedAdd(spec, tgts, bag, src);
    DisjointSize(p.hit, AffectedBy(spec, src, tgts, |tgts|));
    FlatAdd(bag, src, (s: Row) => UpdatedBy(spec, s, tgts, |tgts|));
    FlatAdd(bag, src, (s: Row) => InsertedRow(spec, tgts, s));
  }

  lemma AffectedAdd(spec: Spec, tgts: seq<TargetRow>, bag: multiset<Row>, src: Row)
    ensures Affected(spec, tgts, bag + multiset{src}) == Affected(spec, tgts, bag) + AffectedBy(spec, src, tgts, |tgts|)
  {
  }

  lemma SourceMeans(spec: Spec, src: Row, tgts: seq<TargetRow>, bag: multiset<Row>, p: Plan)
    requires Decides(spec, tgts, bag, p) && Settled(spec, tgts, src)
    ensures var r := OnSource(spec, src, tgts, p);
      if Repeats(spec, src, tgts, |tgts|, p.hit) then r.Cardinality?
      else r.Planned? && Decides(spec, tgts, bag + multiset{src}, r.plan)
  {
    TargetsMean(spec, src, tgts, |tgts|, p);
    if !Repeats(spec, src, tgts, |tgts|, p.hit) {
      var q := OnTargets(spec, src, tgts, |tgts|, p).plan;
      AbsenceMeans(spec, src, tgts, q);
      DecidesNext(spec, src, tgts, bag, p, q, OnSource(spec, src, tgts, p).plan);
    }
  }

  lemma AloneMeans(spec: Spec, src: Row, q: Plan)
    requires SettledAlone(spec, src)
    ensures var r := OnAbsence(spec, src, q);
      && r.Planned? && r.plan.hit == q.hit && r.plan.updates == q.updates
      && multiset(r.plan.inserts) == multiset(q.inserts) + NewRow(spec, src)
      && r.plan.affected == q.affected + |r.plan.inserts| - |q.inserts|
  {
  }

  lemma AbsenceMeans(spec: Spec, src: Row, tgts: seq<TargetRow>, q: Plan)
    requires Settled(spec, tgts, src)
    ensures var r := if Unmatched(spec, src, tgts) then OnAbsence(spec, src, q) else Planned(q);
      && r.Planned? && r.plan.hit == q.hit && r.plan.updates == q.updates
      && multiset(r.plan.inserts) == multiset(q.inserts) + InsertedRow(spec, tgts, src)
      && r.plan.affected == q.affected + |r.plan.inserts| - |q.inserts|
  {
    if Unmatched(spec, src, tgts) {
      AloneMeans(spec, src, q);
    }
  }

  /**
   The join's answer: 21000 exactly when some row fires on a target an earlier
   row has affected, and otherwise a plan fixed by the bag of source rows.
   */
  lemma {:induction false} SourcesMean(spec: Spec, srcs: seq<Row>, tgts: seq<TargetRow>)
    requires AllSettled(spec, tgts, srcs)
    ensures var r := OnSources(spec, srcs, tgts);
      if Clashes(spec, tgts, srcs) then r.Cardinality?
      else r.Planned? && Decides(spec, tgts, multiset(srcs), r.plan)
    decreases |srcs|
  {
    if srcs != [] {
      var n := |srcs| - 1;
      var init := srcs[..n];
      assert srcs == init + [srcs[n]];
      SourcesMean(spec, init, tgts);
      ClashesNext(spec, tgts, srcs);
      if !Clashes(spec, tgts, init) {
        SourceMeans(spec, srcs[n], tgts, multiset(init), OnSources(spec, init, tgts).plan);
      }
    }
  }

  lemma ClashesNext(spec: Spec, tgts: seq<TargetRow>, srcs: seq<Row>)
    requires srcs != []
    ensures var init, last := srcs[..|srcs| - 1], srcs[|srcs| - 1];
      Clashes(spec, tgts, srcs) <==>
        Clashes(spec, tgts, init) || Repeats(spec, last, tgts, |tgts|, Affected(spec, tgts, multiset(init)))
  {
    var n := |srcs| - 1;
    var init, last := srcs[..n], srcs[n];
    if Clashes(spec, tgts, init) {
      var i, j :| 0 <= i < j < n && Clash(spec, tgts, init[i], init[j]);
      assert Clash(spec, tgts, srcs[i], srcs[j]);
    } else if Repeats(spec, last, tgts, |tgts|, Affected(spec, tgts, multiset(init))) {
      var i := RepeatIsClash(spec, tgts, init, last);
      assert Clash(spec, tgts, srcs[i], srcs[n]);
    } else {
      NoClash(spec, tgts, srcs, init, last);
    }
  }

  lemma NoClash(spec: Spec, tgts: seq<TargetRow>, srcs: seq<Row>, init: seq<Row>, last: Row)
    requires srcs == init + [last] && !Clashes(spec, tgts, init)
    requires !Repeats(spec, last, tgts, |tgts|, Affected(spec, tgts, multiset(init)))
    ensures !Clashes(spec, tgts, srcs)
  {
    forall i, j | 0 <= i < j < |srcs|
      ensures !Clash(spec, tgts, srcs[i], srcs[j])
    {
      if j < |init| {
        ClashWithin(spec, tgts, init, i, j);
      } else {
        ClashWithLast(spec, tgts, init, i, last);
      }
    }
  }

  lemma RepeatIsClash(spec: Spec, tgts: seq<TargetRow>, init: seq<Row>, last: Row) returns (i: nat)
    requires Repeats(spec, last, tgts, |tgts|, Affected(spec, tgts, multiset(init)))
    ensures i < |init| && Clash(spec, tgts, init[i], last)
  {
    var k :| 0 <= k < |tgts| && k in Affected(spec, tgts, multiset(init)) && Fires(spec, last, tgts[k].row);
    var s :| s in multiset(init) && Affects(spec, s, tgts[k].row);
    i :| 0 <= i < |init| && init[i] == s;
  }

  lemma ClashWithin(spec: Spec, tgts: seq<TargetRow>, init: seq<Row>, i: nat, j: nat)
    requires i < j < |init|
    ensures Clash(spec, tgts, init[i], init[j]) ==> Clashes(spec, tgts, init)
  {
  }

  lemma ClashWithLast(spec: Spec, tgts: seq<TargetRow>, init: seq<Row>, i: nat, last: Row)
    requires i < |init|
    ensures Clash(spec, tgts, init[i], last) ==> Repeats(spec, last, tgts, |tgts|, Affected(spec, tgts, multiset(init)))
  {
  }

  // ---- A plan is only made of settled rows ----

  lemma PlannedPair(spec: Spec, src: Row, tgt: Row, i: nat, p: Plan)
    requires OnPair(spec, src, tgt, i, p).Planned?
    ensures SettledPair(spec, src, tgt)
  {
  }

  lemma {:induction false} PlannedTargets(spec: Spec, src: Row, tgts: seq<TargetRow>, n: nat, p: Plan)
    requires n <= |tgts| && OnTargets(spec, src, tgts, n, p).Planned?
    ensures forall i :: 0 <= i < n ==> SettledPair(spec, src, tgts[i].row)
  {
    if n > 0 {
      PlannedTargets(spec, src, tgts, n - 1, p);
      PlannedPair(spec, src, tgts[n - 1].row, n - 1, OnTargets(spec, src, tgts, n - 1, p).plan);
    }
  }

  /** A join that ends in a plan has evaluated everything it needed. */
  lemma {:induction false} PlannedIsSettled(spec: Spec, srcs: seq<Row>, tgts: seq<TargetRow>)
    requires OnSources(spec, srcs, tgts).Planned?
    ensures AllSettled(spec, tgts, srcs)
    decreases |srcs|
  {
    if srcs != [] {
      var init, last := srcs[..|srcs| - 1], srcs[|srcs| - 1];
      PlannedIsSettled(spec, init, tgts);
      PlannedSource(spec, last, tgts, OnSources(spec, init, tgts).plan);
      assert srcs == init + [last];
      SettledNext(spec, tgts, init, last);
    }
  }

  lemma PlannedSource(spec: Spec, src: Row, tgts: seq<TargetRow>, p: Plan)
    ensures OnSource(spec, src, tgts, p).Planned? ==> Settled(spec, tgts, src)
  {
    if OnSource(spec, src, tgts, p).Planned? {
      PlannedTargets(spec, src, tgts, |tgts|, p);
      if Unmatched(spec, src, tgts) {
        PlannedAlone(spec, src, OnTargets(spec, src, tgts, |tgts|, p).plan);
      }
    }
  }

  lemma PlannedAlone(spec: Spec, src: Row, p: Plan)
    requires OnAbsence(spec, src, p).Planned?
    ensures SettledAlone(spec, src)
  {
    FirstFiringMeans(spec.clauses, false, src, NO_TARGET, 0);
  }

  // ---- A refusal with 21000 is a clash, whatever else would fail ----

  lemma {:induction false} RefusedTargets(spec: Spec, src: Row, tgts: seq<TargetRow>, n: nat, p: Plan, hit: set<nat>)
    requires n <= |tgts| && OnTargets(spec, src, tgts, n, p).Cardinality?
    requires p.hit == hit
    ensures Repeats(spec, src, tgts, n, hit)
  {
    if OnTargets(spec, src, tgts, n - 1, p).Planned? {
      var q := OnTargets(spec, src, tgts, n - 1, p).plan;
      HitsSoFar(spec, src, tgts, n - 1, p);
      FirstFiringMeans(spec.clauses, true, src, tgts[n - 1].row, 0);
      assert n - 1 in q.hit && Fires(spec, src, tgts[n - 1].row);
    } else {
      RefusedTargets(spec, src, tgts, n - 1, p, hit);
    }
  }

  /** A source row adds none but the targets it has met. */
  lemma {:induction false} HitsSoFar(spec: Spec, src: Row, tgts: seq<TargetRow>, n: nat, p: Plan)
    requires n <= |tgts| && OnTargets(spec, src, tgts, n, p).Planned?
    ensures forall i :: i in OnTargets(spec, src, tgts, n, p).plan.hit ==> i in p.hit || i < n
  {
    if n > 0 {
      HitsSoFar(spec, src, tgts, n - 1, p);
    }
  }

  /** 21000 is never the answer to an expression that fails: some row fires on a target an earlier row affected. */
  lemma {:induction false} RefusedIsClash(spec: Spec, srcs: seq<Row>, tgts: seq<TargetRow>)
    requires OnSources(spec, srcs, tgts).Cardinality?
    ensures Clashes(spec, tgts, srcs)
    decreases |srcs|
  {
    var init, last := srcs[..|srcs| - 1], srcs[|srcs| - 1];
    ClashesNext(spec, tgts, srcs);
    if OnSources(spec, init, tgts).Planned? {
      var p := OnSources(spec, init, tgts).plan;
      PlannedIsSettled(spec, init, tgts);
      SourcesMean(spec, init, tgts);
      RefusedTargets(spec, last, tgts, |tgts|, p, Affected(spec, tgts, multiset(init)));
    } else {
      RefusedIsClash(spec, init, tgts);
    }
  }

  lemma SettledNext(spec: Spec, tgts: seq<TargetRow>, init: seq<Row>, last: Row)
    ensures AllSettled(spec, tgts, init) && Settled(spec, tgts, last) ==> AllSettled(spec, tgts, init + [last])
  {
  }

  /** The join's answer, whatever its expressions do. */
  lemma JoinMeans(spec: Spec, srcs: seq<Row>, tgts: seq<TargetRow>)
    ensures match OnSources(spec, srcs, tgts)
      case Planned(p) =>
        AllSettled(spec, tgts, srcs) && !Clashes(spec, tgts, srcs) && Decides(spec, tgts, multiset(srcs), p)
      case Cardinality => Clashes(spec, tgts, srcs)
      case Failed => !AllSettled(spec, tgts, srcs)
  {
    match OnSources(spec, srcs, tgts)
    case Planned(_) =>
      PlannedIsSettled(spec, srcs, tgts);
      SourcesMean(spec, srcs, tgts);
    case Cardinality => RefusedIsClash(spec, srcs, tgts);
    case Failed =>
      if AllSettled(spec, tgts, srcs) {
        SourcesMean(spec, srcs, tgts);
      }
  }

  // ---- The order of the source rows ----

  /** Both refuse with 21000, or both decide the same rows and the same count. */
  ghost predicate SameAnswer(a: Outcome, b: Outcome) {
    match (a, b)
    case (Cardinality, Cardinality) => true
    case (Planned(p), Planned(q)) =>
      && p.hit == q.hit && p.affected == q.affected
      && multiset(p.updates) == multiset(q.updates) && multiset(p.inserts) == multiset(q.inserts)
    case _ => false
  }

  ghost predicate Permuted(spec: Spec, tgts: seq<TargetRow>, a: seq<Row>, b: seq<Row>) {
    AllSettled(spec, tgts, a) && AllSettled(spec, tgts, b) && multiset(a) == multiset(b)
  }

  ghost predicate OrderFree(spec: Spec, tgts: seq<TargetRow>) {
    forall a, b :: Permuted(spec, tgts, a, b) ==> SameAnswer(OnSources(spec, a, tgts), OnSources(spec, b, tgts))
  }

  ghost predicate Symmetric(spec: Spec, tgts: seq<TargetRow>) {
    forall x, y :: Settled(spec, tgts, x) && Settled(spec, tgts, y) && Clash(spec, tgts, x, y) ==>
      Clash(spec, tgts, y, x)
  }

  /** `x` and `y` are two different occurrences in the bag. */
  ghost predicate Both(bag: multiset<Row>, x: Row, y: Row) {
    x in bag && y in bag && (x == y ==> bag[x] >= 2)
  }

  lemma BothAt(srcs: seq<Row>, i: nat, j: nat)
    requires i < j < |srcs|
    ensures Both(multiset(srcs), srcs[i], srcs[j])
  {
    var a, b := srcs[..j], srcs[j..];
    assert srcs == a + b && srcs[i] == a[i] && srcs[j] == b[0];
    assert multiset(srcs) == multiset(a) + multiset(b);
  }

  lemma PlacesOf(srcs: seq<Row>, x: Row, y: Row) returns (i: nat, j: nat)
    requires Both(multiset(srcs), x, y)
    ensures i < |srcs| && j < |srcs| && i != j && srcs[i] == x && srcs[j] == y
  {
    i :| 0 <= i < |srcs| && srcs[i] == x;
    var rest := srcs[..i] + srcs[i + 1..];
    TakeOut(srcs, i);
    assert y in multiset(rest);
    var k :| 0 <= k < |rest| && rest[k] == y;
    j := if k < i then k else k + 1;
  }

  lemma TakeOut(srcs: seq<Row>, i: nat)
    requires i < |srcs|
    ensures multiset(srcs) == multiset(srcs[..i] + srcs[i + 1..]) + multiset{srcs[i]}
  {
    assert srcs == srcs[..i] + [srcs[i]] + srcs[i + 1..];
  }

  ghost predicate BagClashes(spec: Spec, tgts: seq<TargetRow>, bag: multiset<Row>) {
    exists x, y :: Both(bag, x, y) && Clash(spec, tgts, x, y)
  }

  lemma ClashInBag(spec: Spec, tgts: seq<TargetRow>, srcs: seq<Row>)
    requires Symmetric(spec, tgts) && AllSettled(spec, tgts, srcs)
    ensures Clashes(spec, tgts, srcs) <==> BagClashes(spec, tgts, multiset(srcs))
  {
    if Clashes(spec, tgts, srcs) {
      var i, j :| 0 <= i < j < |srcs| && Clash(spec, tgts, srcs[i], srcs[j]);
      BothAt(srcs, i, j);
    }
    if BagClashes(spec, tgts, multiset(srcs)) {
      var x, y :| Both(multiset(srcs), x, y) && Clash(spec, tgts, x, y);
      var i, j := PlacesOf(srcs, x, y);
      assert Clash(spec, tgts, srcs[j], srcs[i]);
    }
  }

  lemma BagDecides(spec: Spec, tgts: seq<TargetRow>, srcs: seq<Row>)
    requires Symmetric(spec, tgts) && AllSettled(spec, tgts, srcs)
    ensures var r := OnSources(spec, srcs, tgts);
      if BagClashes(spec, tgts, multiset(srcs)) then r.Cardinality?
      else r.Planned? && Decides(spec, tgts, multiset(srcs), r.plan)
  {
    SourcesMean(spec, srcs, tgts);
    ClashInBag(spec, tgts, srcs);
  }

  lemma DecidedOnce(spec: Spec, tgts: seq<TargetRow>, bag: multiset<Row>, p: Plan, q: Plan)
    requires Decides(spec, tgts, bag, p) && Decides(spec, tgts, bag, q)
    ensures SameAnswer(Planned(p), Planned(q))
  {
    assert |multiset(p.inserts)| == |p.inserts| && |multiset(q.inserts)| == |q.inserts|;
  }

  /** With a symmetric clash relation, no order of the source rows changes the answer. */
  lemma SymmetricIsOrderFree(spec: Spec, tgts: seq<TargetRow>, a: seq<Row>, b: seq<Row>)
    requires Symmetric(spec, tgts) && Permuted(spec, tgts, a, b)
    ensures SameAnswer(OnSources(spec, a, tgts), OnSources(spec, b, tgts))
  {
    BagDecides(spec, tgts, a);
    BagDecides(spec, tgts, b);
    var p, q := OnSources(spec, a, tgts), OnSources(spec, b, tgts);
    if p.Planned? && q.Planned? {
      DecidedOnce(spec, tgts, multiset(a), p.plan, q.plan);
    }
  }

  lemma TwoRows(spec: Spec, tgts: seq<TargetRow>, x: Row, y: Row)
    requires Settled(spec, tgts, x) && Settled(spec, tgts, y)
    ensures AllSettled(spec, tgts, [x, y])
    ensures if Clash(spec, tgts, x, y) then OnSources(spec, [x, y], tgts).Cardinality?
            else OnSources(spec, [x, y], tgts).Planned?
  {
    TwoClash(spec, tgts, x, y);
    TwoSettled(spec, tgts, x, y);
    SourcesMean(spec, [x, y], tgts);
  }

  lemma TwoSettled(spec: Spec, tgts: seq<TargetRow>, x: Row, y: Row)
    ensures Settled(spec, tgts, x) && Settled(spec, tgts, y) ==> AllSettled(spec, tgts, [x, y])
  {
  }

  lemma TwoClash(spec: Spec, tgts: seq<TargetRow>, x: Row, y: Row)
    ensures Clashes(spec, tgts, [x, y]) <==> Clash(spec, tgts, x, y)
  {
    var srcs := [x, y];
    if Clashes(spec, tgts, srcs) {
      var i, j :| 0 <= i < j < |srcs| && Clash(spec, tgts, srcs[i], srcs[j]);
      assert i == 0 && j == 1;
    }
    ClashWithin(spec, tgts, srcs, 0, 1);
  }

  /**
   MERGE is independent of the source order exactly when clashing is symmetric:
   whenever `y` fires on a target `x` affects, `x` fires on some target `y` affects.
   */
  lemma OrderFreeIff(spec: Spec, tgts: seq<TargetRow>)
    ensures OrderFree(spec, tgts) <==> Symmetric(spec, tgts)
  {
    if Symmetric(spec, tgts) {
      forall a, b | Permuted(spec, tgts, a, b)
        ensures SameAnswer(OnSources(spec, a, tgts), OnSources(spec, b, tgts))
      {
        SymmetricIsOrderFree(spec, tgts, a, b);
      }
    }
    if OrderFree(spec, tgts) {
      forall x, y | Settled(spec, tgts, x) && Settled(spec, tgts, y) && Clash(spec, tgts, x, y)
        ensures Clash(spec, tgts, y, x)
      {
        Exchanged(spec, tgts, x, y);
      }
    }
  }

  lemma Exchanged(spec: Spec, tgts: seq<TargetRow>, x: Row, y: Row)
    requires Settled(spec, tgts, x) && Settled(spec, tgts, y) && OrderFree(spec, tgts)
    ensures Clash(spec, tgts, x, y) <==> Clash(spec, tgts, y, x)
  {
    TwoRows(spec, tgts, x, y);
    TwoRows(spec, tgts, y, x);
    SwapPermutes(spec, tgts, x, y);
  }

  lemma SwapPermutes(spec: Spec, tgts: seq<TargetRow>, x: Row, y: Row)
    ensures AllSettled(spec, tgts, [x, y]) && AllSettled(spec, tgts, [y, x]) ==> Permuted(spec, tgts, [x, y], [y, x])
  {
  }

  /** UPDATE and DELETE arms alone always meet the condition. */
  lemma NoMatchedInsertIsOrderFree(spec: Spec, tgts: seq<TargetRow>)
    requires forall c :: c in spec.clauses && c.matched ==> !c.action.InsertAction?
    ensures OrderFree(spec, tgts)
  {
    forall x: Row, i | 0 <= i < |tgts| && Fires(spec, x, tgts[i].row)
      ensures Affects(spec, x, tgts[i].row)
    {
      FirstFiringMeans(spec.clauses, true, x, tgts[i].row, 0);
      assert Firing(spec, x, tgts[i].row).value in spec.clauses;
    }
    OrderFreeIff(spec, tgts);
  }

  // `MERGE ... ON t.id = s.id WHEN MATCHED AND s.k THEN INSERT ... WHEN MATCHED THEN DELETE`,
  // and two source rows for one target.

  const FLAGGED := Row(map["id" := Int64(1), "k" := Bool(true)])
  const PLAIN := Row(map["id" := Int64(1), "k" := Bool(false)])
  const TARGET := Row(map["id" := Int64(1)])

  function MatchedInsertSpec(): Spec {
    Spec([OnKey("id", "id")],
         [Clause(true, InsertAction, (s: Row, t: Row) => Value(Cell(s, "k") == Bool(true)),
                 (s: Row, t: Row) => Value(s)),
          Clause(true, DeleteAction, (s: Row, t: Row) => Value(true), (s: Row, t: Row) => Value(s))])
  }

  lemma MatchedInsertFires(t: TargetRow)
    requires t.row == TARGET
    ensures var spec := MatchedInsertSpec();
      && Settled(spec, [t], FLAGGED) && Settled(spec, [t], PLAIN)
      && Fires(spec, FLAGGED, t.row) && !Affects(spec, FLAGGED, t.row) && Affects(spec, PLAIN, t.row)
  {
    var spec := MatchedInsertSpec();
    assert Cell(FLAGGED, "k") == Bool(true) && Cell(PLAIN, "k") == Bool(false);
    assert Cell(FLAGGED, "id") == Cell(PLAIN, "id") == Cell(t.row, "id") == Int64(1);
    assert FirstFiring(spec.clauses, true, FLAGGED, t.row) == Value(Some(0));
    assert FirstFiring(spec.clauses, true, PLAIN, t.row, 1) == Value(Some(1));
    assert MatchByKeys(FLAGGED, [t][0].row, spec.keys) && MatchByKeys(PLAIN, [t][0].row, spec.keys);
  }

  /** A WHEN MATCHED THEN INSERT arm, which the parser accepts, makes the order matter. */
  lemma MatchedInsertDependsOnOrder(t: TargetRow)
    requires t.row == TARGET
    ensures var spec := MatchedInsertSpec();
      && Permuted(spec, [t], [FLAGGED, PLAIN], [PLAIN, FLAGGED])
      && OnSources(spec, [FLAGGED, PLAIN], [t]).Planned?
      && OnSources(spec, [PLAIN, FLAGGED], [t]).Cardinality?
  {
    MatchedInsertFires(t);
    SwapMatters(MatchedInsertSpec(), t, FLAGGED, PLAIN);
  }

  lemma SwapMatters(spec: Spec, t: TargetRow, x: Row, y: Row)
    requires Settled(spec, [t], x) && Settled(spec, [t], y)
    requires Fires(spec, x, t.row) && !Affects(spec, x, t.row) && Affects(spec, y, t.row)
    ensures Permuted(spec, [t], [x, y], [y, x])
    ensures OnSources(spec, [x, y], [t]).Planned? && OnSources(spec, [y, x], [t]).Cardinality?
  {
    assert [t][0] == t;
    assert Clash(spec, [t], y, x) && !Clash(spec, [t], x, y);
    TwoRows(spec, [t], x, y);
    TwoRows(spec, [t], y, x);
  }
}
