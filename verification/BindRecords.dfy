/**
 What the recorded bind error is worth while calls are under way: whether a reader
 who finds a catalog attached and no error on record can take the running set for
 bound, step by step and for exactly which states.
 */
module BindRecords {
  import opened Options
  import opened ProviderRuns

  /** With `c` attached and no error on record, the running set is bound to it. */
  ghost predicate Honest(s: Sys, c: Cat) {
    s.cat == Some(c) && !s.bindErr ==> BoundTo(s.heap, s.state, Some(c))
  }

  ghost predicate AlwaysHonest(s: Sys, c: Cat) {
    forall run :: ValidRun(s, run) && Only(run, c) ==> Honest(Final(s, run), c)
  }

  /** The call is on its way to clear the error, with no look at what runs by then. */
  ghost predicate Clearing(call: Call) {
    call.SwappedBound? || call.SwappedCat? || call.InstallBound? || call.ClearErr?
  }

  ghost predicate NoneClearing(s: Sys) {
    forall id :: id in s.calls ==> !Clearing(s.calls[id])
  }

  /** `c` is the only catalog in use. */
  ghost predicate Uses(s: Sys, c: Cat) {
    && (s.cat.None? || s.cat == Some(c)) && s.state < |s.heap|
    && forall id :: id in s.calls ==> WorksWith(s.heap, s.calls[id], c)
  }

  lemma CopyUses(s: Sys, id: nat, st: nat, c: Cat, call: Call)
    requires Uses(s, c) && st < |s.heap| && WorksWith(Copies(s, st, c).heap, call, c)
    ensures Uses(Moves(Copies(s, st, c), id, call), c)
  {
  }

  lemma BindUses(s: Sys, id: nat, ok: bool, c: Cat)
    requires Uses(s, c) && id in s.calls && Binding(s.calls[id])
    ensures Uses(BindStep(s, id, ok), c)
  {
    var call := s.calls[id];
    if call.BindCopy? && ok {
      CopyUses(s, id, call.st, c, Swap(c, call.attempt, call.st, |s.heap|));
    }
  }

  lemma InstallUses(s: Sys, id: nat, ok: bool, c: Cat)
    requires Uses(s, c) && id in s.calls && !Binding(s.calls[id])
    ensures Uses(InstallStep(s, id, ok), c)
  {
    var call := s.calls[id];
    if call.InstallBind? && ok {
      CopyUses(s, id, call.st, c, InstallState(|s.heap|));
    }
  }

  /** Whatever a fresh provider comes to while `c` is the one catalog attached, it is such a state. */
  lemma {:induction false} RunsUse(s: Sys, run: seq<Event>, c: Cat)
    requires Uses(s, c) && ValidRun(s, run) && Only(run, c)
    ensures Uses(Final(s, run), c)
    decreases |run|
  {
    if run != [] {
      if run[0].Step? {
        if Binding(s.calls[run[0].id]) {
          BindUses(s, run[0].id, run[0].ok, c);
        } else {
          InstallUses(s, run[0].id, run[0].ok, c);
        }
      }
      RunsUse(Apply(s, run[0]), run[1..], c);
    }
  }

  /** The error is on record, and no call that has its bind behind it is about to clear it. */
  ghost predicate OnRecord(s: Sys, c: Cat) {
    Uses(s, c) && s.cat == Some(c) && NoneMissedIt(s) && s.bindErr && NoneClearing(s)
  }

  ghost predicate Sound(s: Sys, c: Cat) {
    (Attached(s, c) && NoneMissedIt(s)) || OnRecord(s, c)
  }

  lemma CopyKeepsRecord(s: Sys, id: nat, st: nat, c: Cat, call: Call)
    requires OnRecord(s, c) && st < |s.heap|
    requires WorksWith(Copies(s, st, c).heap, call, c) && !call.InstallRaw? && !Clearing(call)
    ensures OnRecord(Moves(Copies(s, st, c), id, call), c)
  {
  }

  /** Only a bound set ever takes the place of the one on record. */
  lemma BindFromRecord(s: Sys, id: nat, ok: bool, c: Cat)
    requires OnRecord(s, c) && id in s.calls && Binding(s.calls[id])
    ensures Sound(BindStep(s, id, ok), c)
  {
    var call := s.calls[id];
    if call.BindCopy? && ok {
      CopyKeepsRecord(s, id, call.st, c, Swap(c, call.attempt, call.st, |s.heap|));
    }
  }

  lemma InstallFromRecord(s: Sys, id: nat, ok: bool, c: Cat)
    requires OnRecord(s, c) && id in s.calls && !Binding(s.calls[id])
    ensures Sound(InstallStep(s, id, ok), c)
  {
    var call := s.calls[id];
    if call.InstallBind? && ok {
      CopyKeepsRecord(s, id, call.st, c, InstallState(|s.heap|));
    }
  }

  lemma StepKeepsSound(s: Sys, e: Event, c: Cat)
    requires Sound(s, c) && Enabled(s, e) && (e.Attach? ==> e.cat == c)
    ensures Sound(Apply(s, e), c)
  {
    if Attached(s, c) && NoneMissedIt(s) {
      OneStep(s, e);
      RunsStayBound(s, [e], c);
    } else if e.Step? {
      if Binding(s.calls[e.id]) {
        BindFromRecord(s, e.id, e.ok, c);
      } else {
        InstallFromRecord(s, e.id, e.ok, c);
      }
    }
  }

  lemma {:induction false} RunsStaySound(s: Sys, run: seq<Event>, c: Cat)
    requires Sound(s, c) && ValidRun(s, run) && Only(run, c)
    ensures Sound(Final(s, run), c)
    decreases |run|
  {
    if run != [] {
      StepKeepsSound(s, run[0], c);
      RunsStaySound(Apply(s, run[0]), run[1..], c);
    }
  }

  // ---- The states from which it goes wrong ----

  ghost predicate Strays(s: Sys, c: Cat) {
    exists t :: Reaches(s, t, c) && !Honest(t, c)
  }

  lemma StraysIsNotHonest(s: Sys, c: Cat)
    requires Strays(s, c)
    ensures !AlwaysHonest(s, c)
  {
    var t :| Reaches(s, t, c) && !Honest(t, c);
    var run :| ValidRun(s, run) && Only(run, c) && Final(s, run) == t;
  }

  lemma {:induction false} Unused(taken: set<nat>) returns (n: nat)
    ensures forall m :: m in taken ==> m < n
  {
    n := 0;
    if taken != {} {
      var last :| last in taken;
      var k := Unused(taken - {last});
      n := if last < k then k else last + 1;
      forall m | m in taken
        ensures m < n
      {
        assert m == last || m in taken - {last};
      }
    }
  }

  /** There is always another call to make, and another set to install. */
  lemma Another(s: Sys) returns (id: nat, origin: nat)
    ensures id !in s.calls && Enabled(s, Install(id, origin))
  {
    var origins := set i | 0 <= i < |s.heap| :: s.heap[i].origin;
    id := Unused(s.calls.Keys);
    origin := Unused(origins);
    assert forall k :: k in s.calls ==> k in s.calls.Keys;
    assert forall i :: 0 <= i < |s.heap| ==> s.heap[i].origin in origins;
  }

  /** An error on record does not hold back a call that already has its bind behind it. */
  lemma ClearsUnseen(s: Sys, id: nat, c: Cat)
    requires Uses(s, c) && s.cat == Some(c) && id in s.calls && Clearing(s.calls[id])
    requires !BoundTo(s.heap, s.state, Some(c))
    ensures Strays(s, c)
  {
    match s.calls[id]
    case SwappedBound(_, next) => SwappedBoundEnds(s, id, next, c);
    case SwappedCat(_) => SwappedCatEnds(s, id, c);
    case InstallBound(next) => InstallBoundEnds(s, id, next, c);
    case ClearErr => ClearErrEnds(s, id, c);
  }

  /** A whole install with a catalog attached: its set bound and running, and no error. */
  ghost function LoneInstall(s: Sys, id: nat, origin: nat, c: Cat): Sys {
    var n := |s.heap|;
    s.(heap := s.heap + [AuthState(origin, None)] + [AuthState(origin, Some(c))], state := n + 1, bound := Some(n + 1),
       bindErr := false, calls := s.calls[id := Returned], trail := s.trail + [origin])
  }

  lemma InstallRuns(s: Sys, id: nat, origin: nat, c: Cat)
    requires s.cat == Some(c) && Enabled(s, Install(id, origin))
    ensures Reaches(s, LoneInstall(s, id, origin, c), c)
  {
    var t, s1 := LoneInstall(s, id, origin, c), Apply(s, Install(id, origin));
    LastCall(s.calls, id, InstallLoadCat(|s.heap|), Returned);
    FoundInstallRuns(s1, id, |s.heap|, c);
    Unfold(s, Install(id, origin), t, c);
  }

  lemma FoundInstallRuns(s: Sys, id: nat, st: nat, c: Cat)
    requires s.cat == Some(c) && id in s.calls && s.calls[id] == InstallLoadCat(st) && st < |s.heap|
    ensures var n, origin := |s.heap|, s.heap[st].origin;
      Reaches(s, s.(heap := s.heap + [AuthState(origin, Some(c))], state := n, bound := Some(n), bindErr := false,
                    calls := s.calls[id := Returned], trail := s.trail + [origin]), c)
  {
    var n, origin := |s.heap|, s.heap[st].origin;
    var t := s.(heap := s.heap + [AuthState(origin, Some(c))], state := n, bound := Some(n), bindErr := false,
                calls := s.calls[id := Returned], trail := s.trail + [origin]);
    var s2 := Apply(s, Step(id, true));
    var s3 := Apply(s2, Step(id, true));
    var s4 := Apply(s3, Step(id, true));
    assert s4.calls[id := Returned] == t.calls;
    InstallBoundEnds(s4, id, n, c);
    Unfold(s3, Step(id, true), t, c);
    Unfold(s2, Step(id, true), t, c);
    Unfold(s, Step(id, true), t, c);
  }

  /** The install that missed the attach comes last, and its unbound set runs. */
  lemma MissedLast(s: Sys, id: nat, c: Cat)
    requires s.cat == Some(c) && !s.bindErr && id in s.calls && s.calls[id].InstallRaw?
    requires WorksWith(s.heap, s.calls[id], c)
    ensures Strays(s, c)
  {
    var t := Apply(s, Step(id, true));
    StaysHere(t, c);
    Unfold(s, Step(id, true), t, c);
  }

  lemma StraysFrom(s: Sys, m: Sys, c: Cat)
    requires Reaches(s, m, c) && Strays(m, c)
    ensures Strays(s, c)
  {
    var t :| Reaches(m, t, c) && !Honest(t, c);
    ReachesFurther(s, m, t, c);
  }

  lemma MissedStrays(s: Sys, id: nat, c: Cat)
    requires Uses(s, c) && s.cat == Some(c) && id in s.calls && s.calls[id].InstallRaw?
    ensures Strays(s, c)
  {
    var other, origin := Another(s);
    InstallRuns(s, other, origin, c);
    MissedLast(LoneInstall(s, other, origin, c), id, c);
    StraysFrom(s, LoneInstall(s, other, origin, c), c);
  }

  /** The system once an install has found no catalog. */
  ghost function Missing(s: Sys, id: nat, origin: nat): Sys {
    s.(heap := s.heap + [AuthState(origin, None)], calls := s.calls[id := InstallRaw(|s.heap|)])
  }

  lemma MissingRuns(s: Sys, id: nat, origin: nat, c: Cat)
    requires s.cat.None? && Enabled(s, Install(id, origin))
    ensures Reaches(s, Missing(s, id, origin), c)
  {
    var t := Missing(s, id, origin);
    var s1 := Apply(s, Install(id, origin));
    LastCall(s.calls, id, InstallLoadCat(|s.heap|), InstallRaw(|s.heap|));
    StaysHere(t, c);
    Unfold(s1, Step(id, true), t, c);
    Unfold(s, Install(id, origin), t, c);
  }

  lemma UnattachedStrays(s: Sys, c: Cat)
    requires Uses(s, c) && s.cat.None?
    ensures Strays(s, c)
  {
    var id, origin := Another(s);
    var m := Missing(s, id, origin);
    MissingRuns(s, id, origin, c);
    var other, _ := Another(m);
    AttachRuns(m, other, c);
    MissedLast(LoneAttach(m, other, c), id, c);
    StraysFrom(m, LoneAttach(m, other, c), c);
    StraysFrom(s, m, c);
  }

  /**
   From a state that knows no catalog but `c`, a reader who finds `c` attached and no
   error is always right about the running set, if and only if `c` is attached by then,
   no install that read "no catalog" is in flight, and the running set is bound, or
   else the error is on record and no call is on its way to clear it.
   */
  lemma AlwaysHonestIff(s: Sys, c: Cat)
    requires Uses(s, c)
    ensures AlwaysHonest(s, c) <==>
      && s.cat == Some(c) && NoneMissedIt(s)
      && (BoundTo(s.heap, s.state, Some(c)) || (s.bindErr && NoneClearing(s)))
  {
    if Sound(s, c) {
      forall run | ValidRun(s, run) && Only(run, c)
        ensures Honest(Final(s, run), c)
      {
        RunsStaySound(s, run, c);
      }
    } else {
      UnsoundStrays(s, c);
      StraysIsNotHonest(s, c);
    }
  }

  lemma UnsoundStrays(s: Sys, c: Cat)
    requires Uses(s, c) && !Sound(s, c)
    ensures Strays(s, c)
  {
    if s.cat.None? {
      UnattachedStrays(s, c);
    } else if !NoneMissedIt(s) {
      var id :| id in s.calls && s.calls[id].InstallRaw?;
      MissedStrays(s, id, c);
    } else if !s.bindErr {
      StaysHere(s, c);
    } else {
      var id :| id in s.calls && Clearing(s.calls[id]);
      ClearsUnseen(s, id, c);
    }
  }

  /**
   One attach on a fresh provider, its bind refused: the catalog is stored a step before
   the error, and between the two the unbound set runs with `c` attached and no error.
   */
  lemma RefusedMidway(origin: nat, c: Cat)
    ensures var run := [Attach(0, c), Step(0, true), Step(0, true), Step(0, false), Step(0, true)];
      var s := Initial(origin);
      && ValidRun(s, run) && Only(run, c)
      && var t := Final(s, run); t.cat == Some(c) && !t.bindErr && BoundTo(t.heap, t.state, None) && !Honest(t, c)
  {
    var s := Initial(origin);
    var s1 := Apply(s, Attach(0, c));
    var s2 := Apply(s1, Step(0, true));
    var s3 := Apply(s2, Step(0, true));
    var s4 := Apply(s3, Step(0, false));
    OneStep(s4, Step(0, true));
    Prepended(s3, Step(0, false), [Step(0, true)]);
    Prepended(s2, Step(0, true), [Step(0, false), Step(0, true)]);
    Prepended(s1, Step(0, true), [Step(0, true), Step(0, false), Step(0, true)]);
    Prepended(s, Attach(0, c), [Step(0, true), Step(0, true), Step(0, false), Step(0, true)]);
  }

  lemma Prepended(s: Sys, e: Event, rest: seq<Event>)
    requires Enabled(s, e) && ValidRun(Apply(s, e), rest)
    ensures ValidRun(s, [e] + rest) && Final(s, [e] + rest) == Final(Apply(s, e), rest)
  {
    assert ([e] + rest)[1..] == rest;
  }
}
