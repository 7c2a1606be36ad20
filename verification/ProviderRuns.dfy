/**
 The policy provider under interleaving: every load, store and compare-and-swap
 of `BindToCatalog` and `installState` is one step, and the steps of any number
 of calls are taken in any order.

 A policy set is known by its origin, the install it came from, and by the
 catalog its names have been rewritten for. `heap` holds every set ever made, so
 a set's index is its pointer and no pointer is used twice.
 */
module ProviderRuns {
  import opened Options

  /** A catalog, by identity. */
  type Cat = nat

  datatype AuthState = AuthState(origin: nat, boundTo: Option<Cat>)

  const BIND_SWAP_ATTEMPTS: nat := 32

  /** Where a call is: the next shared access it makes, and what it holds by then. */
  datatype Call =
    // BindToCatalog
    | LoadState(cat: Cat, attempt: nat)
    | LoadCat(cat: Cat, attempt: nat, st: nat)
    | LoadBound(cat: Cat, attempt: nat, st: nat)
    | BindCopy(cat: Cat, attempt: nat, st: nat)
    | Swap(cat: Cat, attempt: nat, st: nat, next: nat)
    | SwappedBound(cat: Cat, next: nat)
    | SwappedCat(cat: Cat)
    | RefusedCat(cat: Cat)
    | StoreErr
    | ClearErr
    // installState
    | InstallLoadCat(st: nat)
    | InstallRaw(st: nat)
    | InstallBind(cat: Cat, st: nat)
    | InstallState(next: nat)
    | InstallBound(next: nat)
    | Returned

  /**
   `trail` is history: the origin of the set running at first, and of every set
   an install has put in its place, in order.
   */
  datatype Sys = Sys(
    heap: seq<AuthState>,
    state: nat,
    cat: Option<Cat>,
    bound: Option<nat>,
    bindErr: bool,
    calls: map<nat, Call>,
    trail: seq<nat>)

  /** `ok` is whether a bind of the names succeeds; only the binding steps look at it. */
  datatype Event =
    | Attach(id: nat, cat: Cat)
    | Install(id: nat, origin: nat)
    | Step(id: nat, ok: bool)

  ghost predicate Enabled(s: Sys, e: Event) {
    match e
    case Attach(id, cat) => id !in s.calls
    case Install(id, origin) => id !in s.calls && forall i :: 0 <= i < |s.heap| ==> s.heap[i].origin != origin
    case Step(id, ok) => id in s.calls && !s.calls[id].Returned?
  }

  ghost function Moves(s: Sys, id: nat, call: Call): Sys {
    s.(calls := s.calls[id := call])
  }

  /** A freshly allocated copy of the set `st`, its names rewritten for `cat`. */
  ghost function Copies(s: Sys, st: nat, cat: Cat): Sys {
    if st < |s.heap| then s.(heap := s.heap + [AuthState(s.heap[st].origin, Some(cat))]) else s
  }

  ghost function Installs(s: Sys, st: nat): Sys {
    s.(state := st, trail := s.trail + (if st < |s.heap| then [s.heap[st].origin] else []))
  }

  ghost function BindStep(s: Sys, id: nat, ok: bool): Sys
    requires id in s.calls
  {
    match s.calls[id]
    case LoadState(c, k) =>
      if k < BIND_SWAP_ATTEMPTS then Moves(s, id, LoadCat(c, k, s.state)) else Moves(s, id, RefusedCat(c))
    case LoadCat(c, k, st) => Moves(s, id, if s.cat == Some(c) then LoadBound(c, k, st) else BindCopy(c, k, st))
    case LoadBound(c, k, st) => Moves(s, id, if s.bound == Some(st) then Returned else BindCopy(c, k, st))
    case BindCopy(c, k, st) =>
      if ok then Moves(Copies(s, st, c), id, Swap(c, k, st, |s.heap|)) else Moves(s, id, RefusedCat(c))
    case Swap(c, k, st, next) =>
      if s.state == st then Moves(s.(state := next), id, SwappedBound(c, next))
      else Moves(s, id, LoadState(c, k + 1))
    case SwappedBound(c, next) => Moves(s.(bound := Some(next)), id, SwappedCat(c))
    case SwappedCat(c) => Moves(s.(cat := Some(c)), id, ClearErr)
    case RefusedCat(c) => Moves(s.(cat := Some(c)), id, StoreErr)
    case _ => s
  }

  ghost function InstallStep(s: Sys, id: nat, ok: bool): Sys
    requires id in s.calls
  {
    match s.calls[id]
    case InstallLoadCat(st) =>
      Moves(s, id, if s.cat.None? then InstallRaw(st) else InstallBind(s.cat.value, st))
    case InstallRaw(st) => Moves(Installs(s, st), id, Returned)
    case InstallBind(c, st) =>
      if ok then Moves(Copies(s, st, c), id, InstallState(|s.heap|)) else Moves(s, id, StoreErr)
    case InstallState(next) => Moves(Installs(s, next), id, InstallBound(next))
    case InstallBound(next) => Moves(s.(bound := Some(next)), id, ClearErr)
    case StoreErr => Moves(s.(bindErr := true), id, Returned)
    case ClearErr => Moves(s.(bindErr := false), id, Returned)
    case _ => s
  }

  ghost predicate Binding(call: Call) {
    call.LoadState? || call.LoadCat? || call.LoadBound? || call.BindCopy? || call.Swap?
    || call.SwappedBound? || call.SwappedCat? || call.RefusedCat?
  }

  ghost function Apply(s: Sys, e: Event): Sys
    requires Enabled(s, e)
  {
    match e
    case Attach(id, cat) => Moves(s, id, LoadState(cat, 0))
    case Install(id, origin) =>
      Moves(s.(heap := s.heap + [AuthState(origin, None)]), id, InstallLoadCat(|s.heap|))
    case Step(id, ok) => if Binding(s.calls[id]) then BindStep(s, id, ok) else InstallStep(s, id, ok)
  }

  ghost predicate ValidRun(s: Sys, run: seq<Event>)
    decreases |run|
  {
    run == [] || (Enabled(s, run[0]) && ValidRun(Apply(s, run[0]), run[1..]))
  }

  ghost function Final(s: Sys, run: seq<Event>): Sys
    requires ValidRun(s, run)
    decreases |run|
  {
    if run == [] then s else Final(Apply(s, run[0]), run[1..])
  }

  ghost function Initial(origin: nat): Sys {
    Sys([AuthState(origin, None)], 0, None, None, false, map[], [origin])
  }

  // ---- Nothing is reverted ----

  /** The set a call has yet to install. */
  ghost function Pending(call: Call): Option<nat> {
    match call
    case InstallLoadCat(st) => Some(st)
    case InstallRaw(st) => Some(st)
    case InstallBind(_, st) => Some(st)
    case InstallState(next) => Some(next)
    case _ => None
  }

  /** The pointers a call holds are allocated, and a copy shares its original's origin. */
  ghost predicate Held(heap: seq<AuthState>, call: Call) {
    && (Pending(call).Some? ==> Pending(call).value < |heap|)
    && match call
       case LoadCat(_, _, st) => st < |heap|
       case LoadBound(_, _, st) => st < |heap|
       case BindCopy(_, _, st) => st < |heap|
       case Swap(_, _, st, next) => st < |heap| && next < |heap| && heap[next].origin == heap[st].origin
       case SwappedBound(_, next) => next < |heap|
       case InstallBound(next) => next < |heap|
       case _ => true
  }

  ghost predicate NoRepeats(trail: seq<nat>) {
    forall i, j :: 0 <= i < j < |trail| ==> trail[i] != trail[j]
  }

  /** Every origin that has run, or is about to, is one the heap has seen. */
  ghost predicate Known(heap: seq<AuthState>, origin: nat) {
    exists i :: 0 <= i < |heap| && heap[i].origin == origin
  }

  ghost predicate Trailing(heap: seq<AuthState>, state: nat, trail: seq<nat>) {
    && state < |heap| && trail != [] && trail[|trail| - 1] == heap[state].origin
    && NoRepeats(trail) && forall i :: 0 <= i < |trail| ==> Known(heap, trail[i])
  }

  /** The origins waiting to be installed are new to the trail and to each other. */
  ghost predicate Waiting(heap: seq<AuthState>, calls: map<nat, Call>, trail: seq<nat>) {
    && (forall i :: i in calls && Pending(calls[i]).Some? ==>
          Pending(calls[i]).value < |heap| && heap[Pending(calls[i]).value].origin !in trail)
    && (forall i, j :: i in calls && j in calls && i != j && Pending(calls[i]).Some? && Pending(calls[j]).Some? ==>
          && Pending(calls[i]).value < |heap| && Pending(calls[j]).value < |heap|
          && heap[Pending(calls[i]).value].origin != heap[Pending(calls[j]).value].origin)
  }

  ghost predicate Inv(s: Sys) {
    && (forall id :: id in s.calls ==> Held(s.heap, s.calls[id]))
    && Trailing(s.heap, s.state, s.trail)
    && Waiting(s.heap, s.calls, s.trail)
  }

  lemma Allocated(s: Sys, x: AuthState)
    requires Inv(s)
    ensures Inv(s.(heap := s.heap + [x]))
  {
    forall i | 0 <= i < |s.trail|
      ensures Known(s.heap + [x], s.trail[i])
    {
      var k :| 0 <= k < |s.heap| && s.heap[k].origin == s.trail[i];
      assert (s.heap + [x])[k].origin == s.trail[i];
    }
  }

  ghost predicate SameOrigin(heap: seq<AuthState>, i: nat, j: nat) {
    i < |heap| && j < |heap| && heap[i].origin == heap[j].origin
  }

  /** A call moves on without touching the running set, and waits to install nothing new. */
  lemma Moved(s: Sys, id: nat, call: Call)
    requires Inv(s) && Held(s.heap, call)
    requires Pending(call).Some? ==> id in s.calls && Pending(s.calls[id]).Some?
    requires Pending(call).Some? ==> SameOrigin(s.heap, Pending(call).value, Pending(s.calls[id]).value)
    ensures Inv(Moves(s, id, call))
  {
  }

  lemma BindKeepsInv(s: Sys, id: nat, ok: bool)
    requires Inv(s) && id in s.calls && Binding(s.calls[id])
    ensures Inv(BindStep(s, id, ok))
    ensures BindStep(s, id, ok).trail == s.trail
  {
    var call, next := s.calls[id], BindStep(s, id, ok).calls[id];
    if call.BindCopy? && ok {
      CopyKeepsInv(s, id, call.st, call.cat, next);
    } else if call.Swap? && s.state == call.st {
      Moved(s.(state := call.next), id, next);
    } else {
      Moved(s, id, next);
    }
  }

  /** A bound copy is allocated, and the call goes on with it. */
  lemma CopyKeepsInv(s: Sys, id: nat, st: nat, c: Cat, call: Call)
    requires Inv(s) && id in s.calls && st < |s.heap|
    requires Held(Copies(s, st, c).heap, call)
    requires Pending(call).Some? ==> Pending(call).value == |s.heap| && Pending(s.calls[id]) == Some(st)
    ensures Inv(Moves(Copies(s, st, c), id, call))
  {
    Allocated(s, AuthState(s.heap[st].origin, Some(c)));
    Moved(Copies(s, st, c), id, call);
  }

  lemma Installed(s: Sys, id: nat, st: nat, call: Call)
    requires Inv(s) && id in s.calls && Pending(s.calls[id]) == Some(st) && Held(s.heap, call) && Pending(call).None?
    ensures Inv(Moves(Installs(s, st), id, call))
  {
    var t := Moves(Installs(s, st), id, call);
    assert Known(s.heap, s.heap[st].origin);
    forall i | i in t.calls && Pending(t.calls[i]).Some?
      ensures t.heap[Pending(t.calls[i]).value].origin !in t.trail
    {
      assert i != id && t.calls[i] == s.calls[i];
    }
  }

  lemma InstallKeepsInv(s: Sys, id: nat, ok: bool)
    requires Inv(s) && id in s.calls && !Binding(s.calls[id])
    ensures Inv(InstallStep(s, id, ok))
  {
    var call := s.calls[id];
    if call.InstallRaw? {
      Installed(s, id, call.st, Returned);
    } else if call.InstallState? {
      Installed(s, id, call.next, InstallBound(call.next));
    } else if call.InstallBind? && ok {
      CopyKeepsInv(s, id, call.st, call.cat, InstallState(|s.heap|));
    } else if !call.Returned? {
      QuietInstallKeepsInv(s, id, ok);
    }
  }

  /** A load, a refusal, or a store that is not of the running set. */
  lemma QuietInstallKeepsInv(s: Sys, id: nat, ok: bool)
    requires Inv(s) && id in s.calls && !Binding(s.calls[id]) && !s.calls[id].Returned?
    requires !s.calls[id].InstallRaw? && !s.calls[id].InstallState? && !(s.calls[id].InstallBind? && ok)
    ensures Inv(InstallStep(s, id, ok)) && InstallStep(s, id, ok).trail == s.trail
  {
    Moved(s, id, InstallStep(s, id, ok).calls[id]);
  }

  lemma SpawnKeepsInv(s: Sys, id: nat, origin: nat)
    requires Inv(s) && Enabled(s, Install(id, origin))
    ensures Inv(Apply(s, Install(id, origin)))
  {
    Allocated(s, AuthState(origin, None));
    NewToTrail(s, origin);
    NewcomerWaits(s.(heap := s.heap + [AuthState(origin, None)]), id, |s.heap|);
  }

  /** A set whose origin nobody has installed or waits to install may wait. */
  lemma NewcomerWaits(s: Sys, id: nat, st: nat)
    requires Inv(s) && id !in s.calls && st < |s.heap| && s.heap[st].origin !in s.trail
    requires forall i :: i in s.calls && Pending(s.calls[i]).Some? ==>
               Pending(s.calls[i]).value < |s.heap| && s.heap[Pending(s.calls[i]).value].origin != s.heap[st].origin
    ensures Inv(Moves(s, id, InstallLoadCat(st)))
  {
  }

  lemma NewToTrail(s: Sys, origin: nat)
    requires Inv(s) && forall i :: 0 <= i < |s.heap| ==> s.heap[i].origin != origin
    ensures origin !in s.trail
  {
  }

  lemma StepKeepsInv(s: Sys, e: Event)
    requires Inv(s) && Enabled(s, e)
    ensures Inv(Apply(s, e))
  {
    match e
    case Attach(id, cat) => Moved(s, id, LoadState(cat, 0));
    case Install(id, origin) => SpawnKeepsInv(s, id, origin);
    case Step(id, ok) =>
      if Binding(s.calls[id]) {
        BindKeepsInv(s, id, ok);
      } else {
        InstallKeepsInv(s, id, ok);
      }
  }

  /** Trails only grow, by installs alone, and no origin ever comes back. */
  lemma {:induction false} RunsNeverRevert(s: Sys, run: seq<Event>)
    requires Inv(s) && ValidRun(s, run)
    ensures var t := Final(s, run);
      && Inv(t) && s.trail <= t.trail && NoRepeats(t.trail)
      && t.heap[t.state].origin == t.trail[|t.trail| - 1]
    decreases |run|
  {
    if run != [] {
      StepKeepsInv(s, run[0]);
      TrailGrows(s, run[0]);
      var t := Apply(s, run[0]);
      RunsNeverRevert(t, run[1..]);
      Longer(s.trail, t.trail, Final(t, run[1..]).trail);
    }
  }

  lemma TrailGrows(s: Sys, e: Event)
    requires Enabled(s, e)
    ensures s.trail <= Apply(s, e).trail
  {
  }

  lemma Longer(a: seq<nat>, b: seq<nat>, c: seq<nat>)
    requires a <= b <= c
    ensures a <= c
  {
  }

  /** A step of `BindToCatalog`, its swap included, runs the same policies it found running. */
  lemma BindKeepsOrigin(s: Sys, id: nat, ok: bool)
    requires Inv(s) && Enabled(s, Step(id, ok)) && Binding(s.calls[id])
    ensures var t := Apply(s, Step(id, ok)); t.state < |t.heap| && t.heap[t.state].origin == s.heap[s.state].origin
  {
    BindKeepsInv(s, id, ok);
  }

  // ---- The running set stays bound ----

  ghost predicate BoundTo(heap: seq<AuthState>, st: nat, c: Option<Cat>) {
    st < |heap| && heap[st].boundTo == c
  }

  /** The call works with the catalog `c`, and a set it is about to run is bound as it should be. */
  ghost predicate WorksWith(heap: seq<AuthState>, call: Call, c: Cat) {
    match call
    case LoadState(x, _) => x == c
    case LoadCat(x, _, st) => x == c && st < |heap|
    case LoadBound(x, _, st) => x == c && st < |heap|
    case BindCopy(x, _, st) => x == c && st < |heap|
    case Swap(x, _, _, next) => x == c && BoundTo(heap, next, Some(c))
    case SwappedBound(x, _) => x == c
    case SwappedCat(x) => x == c
    case RefusedCat(x) => x == c
    case InstallLoadCat(st) => BoundTo(heap, st, None)
    case InstallRaw(st) => BoundTo(heap, st, None)
    case InstallBind(x, st) => x == c && st < |heap|
    case InstallState(next) => BoundTo(heap, next, Some(c))
    case _ => true
  }

  /** `c` is attached, the running set is bound to it, and it is the only catalog in use. */
  ghost predicate Attached(s: Sys, c: Cat) {
    && s.cat == Some(c) && BoundTo(s.heap, s.state, Some(c))
    && forall id :: id in s.calls ==> WorksWith(s.heap, s.calls[id], c)
  }

  /** No install in flight has read the catalog pointer before the attach. */
  ghost predicate NoneMissedIt(s: Sys) {
    forall id :: id in s.calls ==> !s.calls[id].InstallRaw?
  }

  ghost predicate Only(run: seq<Event>, c: Cat) {
    forall i :: 0 <= i < |run| ==> (run[i].Attach? ==> run[i].cat == c)
  }

  lemma BindKeepsAttached(s: Sys, id: nat, ok: bool, c: Cat)
    requires Attached(s, c) && NoneMissedIt(s) && id in s.calls && Binding(s.calls[id])
    ensures Attached(BindStep(s, id, ok), c) && NoneMissedIt(BindStep(s, id, ok))
  {
    var call := s.calls[id];
    if call.BindCopy? && ok {
      CopyKeepsAttached(s, id, call.st, c, Swap(c, call.attempt, call.st, |s.heap|));
    }
  }

  /** A bound copy is allocated, and the call goes on with it. */
  lemma CopyKeepsAttached(s: Sys, id: nat, st: nat, c: Cat, call: Call)
    requires Attached(s, c) && NoneMissedIt(s) && st < |s.heap|
    requires WorksWith(Copies(s, st, c).heap, call, c) && !call.InstallRaw?
    ensures Attached(Moves(Copies(s, st, c), id, call), c) && NoneMissedIt(Moves(Copies(s, st, c), id, call))
  {
  }

  lemma InstallKeepsAttached(s: Sys, id: nat, ok: bool, c: Cat)
    requires Attached(s, c) && NoneMissedIt(s) && id in s.calls && !Binding(s.calls[id])
    ensures Attached(InstallStep(s, id, ok), c) && NoneMissedIt(InstallStep(s, id, ok))
  {
    var call := s.calls[id];
    if call.InstallBind? && ok {
      CopyKeepsAttached(s, id, call.st, c, InstallState(|s.heap|));
    }
  }

  lemma {:induction false} RunsStayBound(s: Sys, run: seq<Event>, c: Cat)
    requires Attached(s, c) && NoneMissedIt(s) && ValidRun(s, run) && Only(run, c)
    ensures Attached(Final(s, run), c) && NoneMissedIt(Final(s, run))
    decreases |run|
  {
    if run != [] {
      var t := Apply(s, run[0]);
      if run[0].Step? {
        if Binding(s.calls[run[0].id]) {
          BindKeepsAttached(s, run[0].id, run[0].ok, c);
        } else {
          InstallKeepsAttached(s, run[0].id, run[0].ok, c);
        }
      }
      RunsStayBound(t, run[1..], c);
    }
  }

  ghost predicate AlwaysBound(s: Sys, c: Cat) {
    forall run :: ValidRun(s, run) && Only(run, c) ==>
      var t := Final(s, run); t.cat == Some(c) && BoundTo(t.heap, t.state, Some(c))
  }

  /**
   With `c` attached, every run of attaches of `c` and of installs keeps the running
   set bound to `c` if and only if no install that read "no catalog" is still in flight.
   */
  lemma AlwaysBoundIff(s: Sys, c: Cat)
    requires Attached(s, c)
    ensures AlwaysBound(s, c) <==> NoneMissedIt(s)
  {
    if NoneMissedIt(s) {
      forall run | ValidRun(s, run) && Only(run, c)
        ensures var t := Final(s, run); t.cat == Some(c) && BoundTo(t.heap, t.state, Some(c))
      {
        RunsStayBound(s, run, c);
      }
    } else {
      var id :| id in s.calls && s.calls[id].InstallRaw?;
      OneStep(s, Step(id, true));
      assert Only([Step(id, true)], c);
      assert !BoundTo(s.heap, s.calls[id].st, Some(c));
    }
  }

  lemma OneStep(s: Sys, e: Event)
    requires Enabled(s, e)
    ensures ValidRun(s, [e]) && Final(s, [e]) == Apply(s, e)
  {
  }

  /** Some run that attaches no catalog but `c` leads from `s` to `t`. */
  ghost predicate Reaches(s: Sys, t: Sys, c: Cat) {
    exists run :: ValidRun(s, run) && Only(run, c) && Final(s, run) == t
  }

  lemma Unfold(s: Sys, e: Event, t: Sys, c: Cat)
    requires Enabled(s, e) && Reaches(Apply(s, e), t, c) && (e.Attach? ==> e.cat == c)
    ensures Reaches(s, t, c)
  {
    var run :| ValidRun(Apply(s, e), run) && Only(run, c) && Final(Apply(s, e), run) == t;
    assert ([e] + run)[0] == e && ([e] + run)[1..] == run;
    OnlyJoined([e], run, c);
    assert ValidRun(s, [e] + run) && Final(s, [e] + run) == t;
  }

  lemma OnlyJoined(r1: seq<Event>, r2: seq<Event>, c: Cat)
    requires Only(r1, c) && Only(r2, c)
    ensures Only(r1 + r2, c)
  {
    forall i | 0 <= i < |r1 + r2|
      ensures (r1 + r2)[i].Attach? ==> (r1 + r2)[i].cat == c
    {
      assert (r1 + r2)[i] == if i < |r1| then r1[i] else r2[i - |r1|];
    }
  }

  lemma StaysHere(s: Sys, c: Cat)
    ensures Reaches(s, s, c)
  {
    assert ValidRun(s, []) && Only([], c) && Final(s, []) == s;
  }

  /** A lone attach whose bind succeeds leaves the set it found, bound, running and no error. */
  ghost function LoneAttach(s: Sys, id: nat, c: Cat): Sys
    requires s.state < |s.heap|
  {
    Sys(s.heap + [AuthState(s.heap[s.state].origin, Some(c))], |s.heap|, Some(c), Some(|s.heap|), false,
        s.calls[id := Returned], s.trail)
  }

  lemma LastCall(calls: map<nat, Call>, id: nat, a: Call, b: Call)
    ensures calls[id := a][id := b] == calls[id := b]
  {
  }

  lemma ClearErrEnds(s: Sys, id: nat, c: Cat)
    requires id in s.calls && s.calls[id] == ClearErr
    ensures Reaches(s, s.(bindErr := false, calls := s.calls[id := Returned]), c)
  {
    var t := s.(bindErr := false, calls := s.calls[id := Returned]);
    StaysHere(t, c);
    Unfold(s, Step(id, true), t, c);
  }

  lemma SwappedCatEnds(s: Sys, id: nat, c: Cat)
    requires id in s.calls && s.calls[id] == SwappedCat(c)
    ensures Reaches(s, s.(cat := Some(c), bindErr := false, calls := s.calls[id := Returned]), c)
  {
    LastCall(s.calls, id, ClearErr, Returned);
    ClearErrEnds(Apply(s, Step(id, true)), id, c);
    Unfold(s, Step(id, true), s.(cat := Some(c), bindErr := false, calls := s.calls[id := Returned]), c);
  }

  lemma SwappedBoundEnds(s: Sys, id: nat, next: nat, c: Cat)
    requires id in s.calls && s.calls[id] == SwappedBound(c, next)
    ensures Reaches(s, s.(bound := Some(next), cat := Some(c), bindErr := false, calls := s.calls[id := Returned]), c)
  {
    var t := s.(bound := Some(next), cat := Some(c), bindErr := false, calls := s.calls[id := Returned]);
    LastCall(s.calls, id, SwappedCat(c), Returned);
    SwappedCatEnds(Apply(s, Step(id, true)), id, c);
    Unfold(s, Step(id, true), t, c);
  }

  lemma InstallBoundEnds(s: Sys, id: nat, next: nat, c: Cat)
    requires id in s.calls && s.calls[id] == InstallBound(next)
    ensures Reaches(s, s.(bound := Some(next), bindErr := false, calls := s.calls[id := Returned]), c)
  {
    LastCall(s.calls, id, ClearErr, Returned);
    ClearErrEnds(Apply(s, Step(id, true)), id, c);
    Unfold(s, Step(id, true), s.(bound := Some(next), bindErr := false, calls := s.calls[id := Returned]), c);
  }

  lemma AttachRuns(s: Sys, id: nat, c: Cat)
    requires s.cat.None? && s.state < |s.heap| && id !in s.calls
    ensures Reaches(s, LoneAttach(s, id, c), c)
  {
    var t := LoneAttach(s, id, c);
    var s1 := Apply(s, Attach(id, c));
    var s2 := Apply(s1, Step(id, true));
    var s3 := Apply(s2, Step(id, true));
    var s4 := Apply(s3, Step(id, true));
    var s5 := Apply(s4, Step(id, true));
    assert s5.calls[id := Returned] == t.calls;
    SwappedBoundEnds(s5, id, |s.heap|, c);
    Unfold(s4, Step(id, true), t, c);
    Unfold(s3, Step(id, true), t, c);
    Unfold(s2, Step(id, true), t, c);
    Unfold(s1, Step(id, true), t, c);
    Unfold(s, Attach(id, c), t, c);
  }

  /**
   The condition is needed from the very first state: an install that looked before the
   attach finishes after it, and an unbound set runs with a catalog attached and no error.
   */
  lemma MissedInstallRunsUnbound(origin: nat, other: nat, c: Cat)
    requires origin != other
    ensures exists t ::
      && Reaches(Initial(origin), t, c)
      && t.cat == Some(c) && !t.bindErr && BoundTo(t.heap, t.state, None)
  {
    var s := Initial(origin);
    var s1 := Apply(s, Install(1, other));
    var s2 := Apply(s1, Step(1, true));
    var s3 := LoneAttach(s2, 0, c);
    var t := Apply(s3, Step(1, true));
    StaysHere(t, c);
    Unfold(s3, Step(1, true), t, c);
    AttachRuns(s2, 0, c);
    ReachesFurther(s2, s3, t, c);
    Unfold(s1, Step(1, true), t, c);
    Unfold(s, Install(1, other), t, c);
  }

  lemma ReachesFurther(a: Sys, b: Sys, t: Sys, c: Cat)
    requires Reaches(a, b, c) && Reaches(b, t, c)
    ensures Reaches(a, t, c)
  {
    var r1 :| ValidRun(a, r1) && Only(r1, c) && Final(a, r1) == b;
    var r2 :| ValidRun(b, r2) && Only(r2, c) && Final(b, r2) == t;
    Joined(a, r1, r2);
    OnlyJoined(r1, r2, c);
  }

  lemma {:induction false} Joined(s: Sys, r1: seq<Event>, r2: seq<Event>)
    requires ValidRun(s, r1) && ValidRun(Final(s, r1), r2)
    ensures ValidRun(s, r1 + r2) && Final(s, r1 + r2) == Final(Final(s, r1), r2)
    decreases |r1|
  {
    if r1 == [] {
      assert r1 + r2 == r2;
    } else {
      assert (r1 + r2)[0] == r1[0] && (r1 + r2)[1..] == r1[1..] + r2;
      Joined(Apply(s, r1[0]), r1[1..], r2);
    }
  }
}
