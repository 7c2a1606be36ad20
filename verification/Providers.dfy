/**
 The policy provider as an object: whole attach and install operations over its
 four fields. What the operations do under a finer interleaving is the subject of
 ProviderRuns; here other installs land only where the bind's window is, between
 the copy and the swap.
 */
module Providers {
  import opened Options
  import opened ProviderRuns

  /** An immutable policy set; a copy made by a bind is another object. */
  class AuthSet {
    const origin: nat
    const boundTo: Option<Cat>

    constructor (origin: nat, boundTo: Option<Cat>)
      ensures this.origin == origin && this.boundTo == boundTo
    {
      this.origin, this.boundTo := origin, boundTo;
    }
  }

  /** An install by someone else: the set it brings, and whether that set can be bound. */
  datatype Landing = Landing(origin: nat, ok: bool)

  /** Whether the install puts its set in place. */
  predicate Replaces(cat: Option<Cat>, l: Option<Landing>) {
    l.Some? && (cat.None? || l.value.ok)
  }

  /** The origin running once the first `n` landings are over. */
  ghost function OriginAfter(origin: nat, cat: Option<Cat>, landings: seq<Option<Landing>>, n: nat): nat
    requires n <= |landings|
  {
    if n == 0 then origin
    else if Replaces(cat, landings[n - 1]) then landings[n - 1].value.origin
    else OriginAfter(origin, cat, landings, n - 1)
  }

  class Provider {
    var state: AuthSet
    var cat: Option<Cat>
    var bound: AuthSet?
    var bindErr: bool

    constructor (origin: nat)
      ensures state.origin == origin && state.boundTo.None? && cat.None? && bound == null && !bindErr
      ensures Remembers()
    {
      state := new AuthSet(origin, None);
      cat, bound, bindErr := None, null, false;
    }

    /** With a catalog attached and no error on record, the running set is bound to it. */
    ghost predicate Remembers()
      reads this
    {
      cat.Some? && !bindErr ==> state.boundTo == cat
    }

    /** Binds a new set to the attached catalog and runs it, or keeps the previous one and records the refusal. */
    method InstallState(origin: nat, ok: bool) returns (err: bool)
      modifies this
      ensures err <==> cat.Some? && !ok
      ensures cat == old(cat)
      ensures err ==> state == old(state) && bound == old(bound) && bindErr
      ensures !err ==> fresh(state) && state.origin == origin && state.boundTo == cat
      ensures !err && cat.Some? ==> bound == state && !bindErr
      ensures !err && cat.None? ==> bound == old(bound) && bindErr == old(bindErr)
      ensures Remembers()
    {
      var st := new AuthSet(origin, None);
      if cat.None? {
        state := st;
        return false;
      }
      if !ok {
        bindErr := true;
        return true;
      }
      var next := new AuthSet(st.origin, cat);
      state := next;
      bound := next;
      bindErr := false;
      return false;
    }

    /**
     Attaches `c`: binds a copy of the running set and swaps it in. `verdicts[k]` is
     whether the bind of attempt `k` succeeds, `landings[k]` the install that lands
     inside its window.
     */
    method BindToCatalog(c: Cat, verdicts: seq<bool>, landings: seq<Option<Landing>>)
      returns (err: bool, attempts: nat)
      requires |verdicts| == |landings| == BIND_SWAP_ATTEMPTS
      requires Remembers()
      modifies this
      ensures Remembers() && attempts <= BIND_SWAP_ATTEMPTS
      ensures state.origin == OriginAfter(old(state.origin), old(cat), landings, attempts)
      ensures forall k :: 0 <= k < attempts ==> verdicts[k]
      ensures attempts == 0 ==> state == old(state) && bound == old(bound)
      ensures old(cat) == Some(c) && old(bound) == old(state) ==> !err && attempts == 0
      ensures attempts == 0 && !err ==> cat == old(cat) && bindErr == old(bindErr)
      ensures err ==> bindErr && cat == Some(c)
      ensures err && attempts == BIND_SWAP_ATTEMPTS ==>
        forall k :: 0 <= k < attempts ==> Replaces(old(cat), landings[k])
      ensures err && attempts < BIND_SWAP_ATTEMPTS ==> !verdicts[attempts]
      ensures !err ==> cat == Some(c) && bound == state && (attempts > 0 ==> !bindErr)
      ensures !err ==>
        (state.boundTo != Some(c) <==>
           old(cat) == Some(c) && old(bound) == old(state) && old(state.boundTo) != Some(c))
      ensures !err && state.boundTo != Some(c) ==> bindErr && state == old(state)
    {
      for k := 0 to BIND_SWAP_ATTEMPTS
        invariant cat == old(cat) && Remembers()
        invariant state.origin == OriginAfter(old(state.origin), old(cat), landings, k)
        invariant k == 0 ==> state == old(state) && bound == old(bound) && bindErr == old(bindErr)
        invariant forall j :: 0 <= j < k ==> verdicts[j] && Replaces(old(cat), landings[j])
        invariant k > 0 ==> state.boundTo == cat && (cat.Some? ==> !bindErr)
        invariant k > 0 ==> !(old(cat) == Some(c) && old(bound) == old(state))
      {
        var st := state;
        if cat == Some(c) && bound == st {
          return false, k;
        }
        if !verdicts[k] {
          cat := Some(c);
          bindErr := true;
          return true, k;
        }
        var next := new AuthSet(st.origin, Some(c));
        if landings[k].Some? {
          var _ := InstallState(landings[k].value.origin, landings[k].value.ok);
        }
        if state == st {
          state := next;
          bound := next;
          cat := Some(c);
          bindErr := false;
          return false, k + 1;
        }
      }
      cat := Some(c);
      bindErr := true;
      return true, BIND_SWAP_ATTEMPTS;
    }
  }

  datatype Op =
    | AttachOp(cat: Cat, verdicts: seq<bool>, landings: seq<Option<Landing>>)
    | InstallOp(origin: nat, ok: bool)

  predicate WellFormed(op: Op) {
    op.AttachOp? ==> |op.verdicts| == |op.landings| == BIND_SWAP_ATTEMPTS
  }

  /** Over every sequence of operations, whatever their catalogs and whatever fails. */
  method AnySequence(p: Provider, ops: seq<Op>)
    requires p.Remembers() && forall i :: 0 <= i < |ops| ==> WellFormed(ops[i])
    modifies p
    ensures p.cat.Some? && !p.bindErr ==> p.state.boundTo == p.cat
  {
    for i := 0 to |ops|
      invariant p.Remembers()
    {
      match ops[i]
      case AttachOp(c, verdicts, landings) =>
        var _, _ := p.BindToCatalog(c, verdicts, landings);
      case InstallOp(origin, ok) =>
        var _ := p.InstallState(origin, ok);
    }
  }

  /**
   Attaching a second catalog that refuses the set, and then attaching it again,
   returns no error although the running set is bound to the first. The recorded
   error is what still refuses every statement.
   */
  method ReattachAfterRefusal(origin: nat, c1: Cat, c2: Cat) returns (p: Provider, err: bool)
    requires c1 != c2
    ensures fresh(p) && !err && p.cat == Some(c2) && p.state.boundTo == Some(c1) && p.bindErr
  {
    p := new Provider(origin);
    var all, none := seq(BIND_SWAP_ATTEMPTS, i => true), seq(BIND_SWAP_ATTEMPTS, i => false);
    var quiet := seq(BIND_SWAP_ATTEMPTS, i => None);
    var e1, n1 := p.BindToCatalog(c1, all, quiet);
    assert !Replaces(None, quiet[0]);
    assert !none[0];
    var e2, n2 := p.BindToCatalog(c2, none, quiet);
    var n3;
    err, n3 := p.BindToCatalog(c2, all, quiet);
  }
}
