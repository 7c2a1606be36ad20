/**
 One call of the policy provider with nobody in its way: taking its single loads and
 stores one after another comes to what the whole operation promises.
 */
module LoneCalls {
  import opened Options
  import opened ProviderRuns

  /** Up to `n` steps of the call, `ok` being whether its bind succeeds; it stops when it has returned. */
  ghost function Alone(s: Sys, id: nat, ok: bool, n: nat): Sys
    decreases n
  {
    if n == 0 || id !in s.calls || s.calls[id].Returned? then s else Alone(Apply(s, Step(id, ok)), id, ok, n - 1)
  }

  ghost function Ended(s: Sys, id: nat): Sys {
    s.(calls := s.calls[id := Returned])
  }

  lemma OneMore(s: Sys, id: nat, ok: bool, n: nat)
    requires id in s.calls && !s.calls[id].Returned?
    ensures Alone(s, id, ok, n + 1) == Alone(Apply(s, Step(id, ok)), id, ok, n)
  {
  }

  lemma Stopped(s: Sys, id: nat, ok: bool, n: nat)
    requires id in s.calls && s.calls[id].Returned?
    ensures Alone(s, id, ok, n) == s && Ended(s, id) == s
  {
    assert s.calls[id := Returned] == s.calls;
  }

  lemma Overwritten(s: Sys, id: nat, call: Call)
    ensures Ended(Moves(s, id, call), id) == Ended(s, id)
  {
    LastCall(s.calls, id, call, Returned);
  }

  // ---- Attaching a catalog ----

  /** A refused attach remembers the catalog and the refusal. */
  lemma RefusedAlone(s: Sys, id: nat, c: Cat, ok: bool, n: nat)
    requires id in s.calls && s.calls[id] == RefusedCat(c)
    ensures Alone(s, id, ok, n + 2) == Ended(s.(cat := Some(c), bindErr := true), id)
  {
    OneMore(s, id, ok, n + 1);
    var s1 := Apply(s, Step(id, ok));
    OneMore(s1, id, ok, n);
    var s2 := Apply(s1, Step(id, ok));
    Stopped(s2, id, ok, n);
    LastCall(s.calls, id, StoreErr, Returned);
  }

  /** One whose set was swapped in records it, the catalog, and that there is no error. */
  lemma SwappedAlone(s: Sys, id: nat, c: Cat, next: nat, ok: bool, n: nat)
    requires id in s.calls && s.calls[id] == SwappedBound(c, next)
    ensures Alone(s, id, ok, n + 3) == Ended(s.(bound := Some(next), cat := Some(c), bindErr := false), id)
  {
    OneMore(s, id, ok, n + 2);
    var s1 := Apply(s, Step(id, ok));
    OneMore(s1, id, ok, n + 1);
    var s2 := Apply(s1, Step(id, ok));
    OneMore(s2, id, ok, n);
    var s3 := Apply(s2, Step(id, ok));
    Stopped(s3, id, ok, n);
    LastCall(s.calls, id, SwappedCat(c), ClearErr);
    LastCall(s.calls, id, ClearErr, Returned);
  }

  /** A bound copy of the running set takes its place. */
  ghost function Rebound(s: Sys, c: Cat): Sys
    requires s.state < |s.heap|
  {
    s.(heap := s.heap + [AuthState(s.heap[s.state].origin, Some(c))], state := |s.heap|, bound := Some(|s.heap|),
       cat := Some(c), bindErr := false)
  }

  lemma BindAlone(s: Sys, id: nat, c: Cat, k: nat, ok: bool, n: nat)
    requires s.state < |s.heap| && id in s.calls && s.calls[id] == BindCopy(c, k, s.state)
    ensures Alone(s, id, ok, n + 5) ==
            Ended(if ok then Rebound(s, c) else s.(cat := Some(c), bindErr := true), id)
  {
    OneMore(s, id, ok, n + 4);
    var s1 := Apply(s, Step(id, ok));
    if ok {
      OneMore(s1, id, ok, n + 3);
      var s2 := Apply(s1, Step(id, ok));
      SwappedAlone(s2, id, c, |s.heap|, ok, n);
      Overwritten(s, id, SwappedBound(c, |s.heap|));
      LastCall(s.calls, id, Swap(c, k, s.state, |s.heap|), SwappedBound(c, |s.heap|));
    } else {
      RefusedAlone(s1, id, c, ok, n + 2);
      Overwritten(s, id, RefusedCat(c));
    }
  }

  ghost predicate RecordedAs(s: Sys, c: Cat) {
    s.cat == Some(c) && s.bound == Some(s.state)
  }

  /**
   A lone attach, at any of its attempts: out of attempts, or its bind refused, it
   remembers the catalog and the refusal; recorded as bound already, it writes nothing;
   otherwise a bound copy of the running set runs, and there is no error.
   */
  lemma AttachAlone(s: Sys, id: nat, c: Cat, k: nat, ok: bool, n: nat)
    requires s.state < |s.heap| && id in s.calls && s.calls[id] == LoadState(c, k)
    ensures Alone(s, id, ok, n + 8) ==
      Ended(if k < 32 && RecordedAs(s, c) then s else if k < 32 && ok then Rebound(s, c)
            else s.(cat := Some(c), bindErr := true), id)
  {
    OneMore(s, id, ok, n + 7);
    var s1 := Apply(s, Step(id, ok));
    if k >= 32 {
      RefusedAlone(s1, id, c, ok, n + 5);
      Overwritten(s, id, RefusedCat(c));
    } else {
      LookAlone(s1, s, id, c, k, ok, n);
    }
  }

  /** The first comparison of a look: the catalog. */
  lemma LooksAtCatalog(s: Sys, id: nat, c: Cat, k: nat, ok: bool, n: nat)
    ensures Alone(Moves(s, id, LoadCat(c, k, s.state)), id, ok, n + 1) ==
            Alone(Moves(s, id, if s.cat == Some(c) then LoadBound(c, k, s.state) else BindCopy(c, k, s.state)),
                  id, ok, n)
  {
    OneMore(Moves(s, id, LoadCat(c, k, s.state)), id, ok, n);
    var next := if s.cat == Some(c) then LoadBound(c, k, s.state) else BindCopy(c, k, s.state);
    LastCall(s.calls, id, LoadCat(c, k, s.state), next);
  }

  /** The second: the set on record as bound. */
  lemma LooksAtRecord(s: Sys, id: nat, c: Cat, k: nat, ok: bool, n: nat)
    ensures Alone(Moves(s, id, LoadBound(c, k, s.state)), id, ok, n + 1) ==
            Alone(Moves(s, id, if s.bound == Some(s.state) then Returned else BindCopy(c, k, s.state)), id, ok, n)
  {
    OneMore(Moves(s, id, LoadBound(c, k, s.state)), id, ok, n);
    var next := if s.bound == Some(s.state) then Returned else BindCopy(c, k, s.state);
    LastCall(s.calls, id, LoadBound(c, k, s.state), next);
  }

  lemma LookAlone(s1: Sys, s: Sys, id: nat, c: Cat, k: nat, ok: bool, n: nat)
    requires s.state < |s.heap| && s1 == Moves(s, id, LoadCat(c, k, s.state))
    ensures Alone(s1, id, ok, n + 7) ==
      Ended(if RecordedAs(s, c) then s else if ok then Rebound(s, c) else s.(cat := Some(c), bindErr := true), id)
  {
    LooksAtCatalog(s, id, c, k, ok, n + 6);
    if s.cat != Some(c) {
      BindFrom(s, id, c, k, ok, n + 1);
    } else {
      LooksAtRecord(s, id, c, k, ok, n + 5);
      if s.bound != Some(s.state) {
        BindFrom(s, id, c, k, ok, n);
      } else {
        Stopped(Moves(s, id, Returned), id, ok, n + 5);
      }
    }
  }

  lemma BindFrom(s: Sys, id: nat, c: Cat, k: nat, ok: bool, n: nat)
    requires s.state < |s.heap|
    ensures Alone(Moves(s, id, BindCopy(c, k, s.state)), id, ok, n + 5) ==
            Ended(if ok then Rebound(s, c) else s.(cat := Some(c), bindErr := true), id)
  {
    BindAlone(Moves(s, id, BindCopy(c, k, s.state)), id, c, k, ok, n);
    BoundEnds(s, id, c, k, ok);
  }

  lemma BoundEnds(s: Sys, id: nat, c: Cat, k: nat, ok: bool)
    requires s.state < |s.heap|
    ensures var m := Moves(s, id, BindCopy(c, k, s.state));
      Ended(if ok then Rebound(m, c) else m.(cat := Some(c), bindErr := true), id) ==
      Ended(if ok then Rebound(s, c) else s.(cat := Some(c), bindErr := true), id)
  {
    LastCall(s.calls, id, BindCopy(c, k, s.state), Returned);
  }

  /** An attach that finds the set replaced under it changes nothing and looks again, one attempt on. */
  lemma LostSwapTriesAgain(s: Sys, id: nat, c: Cat, k: nat, st: nat, next: nat, ok: bool)
    requires id in s.calls && s.calls[id] == Swap(c, k, st, next) && s.state != st
    ensures Apply(s, Step(id, ok)) == s.(calls := s.calls[id := LoadState(c, k + 1)])
  {
  }

  // ---- Installing a set ----

  /** A lone install: unbound with no catalog, bound to the one attached, or refused and remembered. */
  lemma InstallAlone(s: Sys, id: nat, st: nat, ok: bool, n: nat)
    requires st < |s.heap| && id in s.calls && s.calls[id] == InstallLoadCat(st)
    ensures var origin := s.heap[st].origin;
      Alone(s, id, ok, n + 5) ==
      Ended(match s.cat
            case None => s.(state := st, trail := s.trail + [origin])
            case Some(c) =>
              if ok
              then s.(heap := s.heap + [AuthState(origin, Some(c))], state := |s.heap|, bound := Some(|s.heap|),
                      bindErr := false, trail := s.trail + [origin])
              else s.(bindErr := true), id)
  {
    OneMore(s, id, ok, n + 4);
    var s1 := Apply(s, Step(id, ok));
    OneMore(s1, id, ok, n + 3);
    var s2 := Apply(s1, Step(id, ok));
    if s.cat.None? {
      Stopped(s2, id, ok, n + 3);
      LastCall(s.calls, id, InstallRaw(st), Returned);
    } else if !ok {
      OneMore(s2, id, ok, n + 2);
      Stopped(Apply(s2, Step(id, ok)), id, ok, n + 2);
      LastCall(s.calls, id, InstallBind(s.cat.value, st), StoreErr);
      LastCall(s.calls, id, StoreErr, Returned);
    } else {
      InstallGoesOn(s, s2, id, st, ok, n);
    }
  }

  lemma InstallGoesOn(s: Sys, s2: Sys, id: nat, st: nat, ok: bool, n: nat)
    requires st < |s.heap| && s.cat.Some? && id in s.calls && ok
    requires var c := s.cat.value;
      s2 == Moves(Copies(Moves(s, id, InstallBind(c, st)), st, c), id, InstallState(|s.heap|))
    ensures Alone(s2, id, ok, n + 3) ==
            Ended(s.(heap := s.heap + [AuthState(s.heap[st].origin, s.cat)], state := |s.heap|, bound := Some(|s.heap|),
                     bindErr := false, trail := s.trail + [s.heap[st].origin]), id)
  {
    OneMore(s2, id, ok, n + 2);
    var s3 := Apply(s2, Step(id, ok));
    OneMore(s3, id, ok, n + 1);
    var s4 := Apply(s3, Step(id, ok));
    OneMore(s4, id, ok, n);
    var s5 := Apply(s4, Step(id, ok));
    Stopped(s5, id, ok, n);
    assert s5.calls == s.calls[id := Returned];
  }
}
