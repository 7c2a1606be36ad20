/**
 Per-identity token buckets, the sweep that evicts idle ones, and what they promise
 over every sequence of calls. Time and tokens are real numbers and the clock never
 goes back.
 */
module RateLimits {

  datatype Config = Config(rate: real, burst: nat, interval: real)

  ghost predicate Sane(c: Config) {
    c.rate >= 0.0 && c.burst >= 1 && c.interval > 0.0
  }

  datatype Bucket = Bucket(tokens: real, last: real)

  function Capped(tokens: real, burst: nat): real {
    if tokens > burst as real then burst as real else tokens
  }

  function Gain(c: Config, from: real, to: real): real {
    (to - from) * c.rate
  }

  /** What the bucket holds at `now`, before a call is charged. */
  function Refilled(c: Config, b: Bucket, now: real): real {
    Capped(b.tokens + Gain(c, b.last, now), c.burst)
  }

  predicate Admits(c: Config, b: Bucket, now: real) {
    Refilled(c, b, now) >= 1.0
  }

  function Charged(c: Config, b: Bucket, now: real): Bucket {
    Bucket(Refilled(c, b, now) - (if Admits(c, b, now) then 1.0 else 0.0), now)
  }

  ghost predicate InBounds(c: Config, b: Bucket) {
    0.0 <= b.tokens <= c.burst as real
  }

  lemma GainNonnegative(c: Config, from: real, to: real)
    requires c.rate >= 0.0 && from <= to
    ensures Gain(c, from, to) >= 0.0
  {
  }

  lemma GainAdds(c: Config, x: real, y: real, z: real)
    ensures Gain(c, x, z) == Gain(c, x, y) + Gain(c, y, z)
  {
  }

  lemma RefilledInBounds(c: Config, b: Bucket, now: real)
    requires Sane(c) && InBounds(c, b) && b.last <= now
    ensures 0.0 <= Refilled(c, b, now) <= c.burst as real
  {
    GainNonnegative(c, b.last, now);
    assert Refilled(c, b, now) == Capped(b.tokens + Gain(c, b.last, now), c.burst);
  }

  /** Every call leaves between none and `burst` tokens. */
  lemma ChargedInBounds(c: Config, b: Bucket, now: real)
    requires Sane(c) && InBounds(c, b) && b.last <= now
    ensures InBounds(c, Charged(c, b, now))
  {
    RefilledInBounds(c, b, now);
    var r := Refilled(c, b, now);
    assert Charged(c, b, now).tokens == r - (if r >= 1.0 then 1.0 else 0.0);
  }

  // ---- Admissions in a window ----

  ghost predicate Timely(times: seq<real>, from: real) {
    && (forall i :: 0 <= i < |times| ==> from <= times[i])
    && (forall i, j :: 0 <= i < j < |times| ==> times[i] <= times[j])
  }

  /** The calls of one identity that are admitted at times in [t1, t2]. */
  ghost function AdmittedIn(c: Config, b: Bucket, times: seq<real>, t1: real, t2: real): nat
    decreases |times|
  {
    if times == [] then 0
    else
      (if t1 <= times[0] <= t2 && Admits(c, b, times[0]) then 1 else 0)
      + AdmittedIn(c, Charged(c, b, times[0]), times[1..], t1, t2)
  }

  /** What the bucket can still pay for inside the window. */
  ghost function Budget(c: Config, b: Bucket, t1: real, t2: real): real {
    if b.last <= t1 then Refilled(c, b, t1) + Gain(c, t1, t2)
    else if b.last <= t2 then b.tokens + Gain(c, b.last, t2)
    else 0.0
  }

  lemma CapTwice(tokens: real, g: real, h: real, cost: real, burst: nat)
    requires h >= 0.0 && cost >= 0.0
    ensures Capped(Capped(tokens + g, burst) - cost + h, burst) <= Capped(tokens + (g + h), burst)
    ensures Capped(tokens + (g + h), burst) <= Capped(tokens + g, burst) + h
  {
  }

  ghost function Cost(c: Config, b: Bucket, t: real): real {
    if Admits(c, b, t) then 1.0 else 0.0
  }

  lemma PaysBefore(c: Config, b: Bucket, t: real, t1: real, t2: real)
    requires Sane(c) && b.last <= t < t1 <= t2
    ensures Budget(c, Charged(c, b, t), t1, t2) <= Budget(c, b, t1, t2)
  {
    GainAdds(c, b.last, t, t1);
    GainNonnegative(c, t, t1);
    CapTwice(b.tokens, Gain(c, b.last, t), Gain(c, t, t1), Cost(c, b, t), c.burst);
    assert Charged(c, b, t) == Bucket(Refilled(c, b, t) - Cost(c, b, t), t);
  }

  lemma PaysInside(c: Config, b: Bucket, t: real, t1: real, t2: real)
    requires Sane(c) && InBounds(c, b) && b.last <= t && t1 <= t <= t2
    ensures Budget(c, Charged(c, b, t), t1, t2) + Cost(c, b, t) <= Budget(c, b, t1, t2)
  {
    var after := Charged(c, b, t);
    ChargedInBounds(c, b, t);
    assert after == Bucket(Refilled(c, b, t) - Cost(c, b, t), t);
    PaidInside(c, after, t1, t2);
    if b.last <= t1 {
      GainAdds(c, b.last, t1, t);
      GainAdds(c, t1, t, t2);
      GainNonnegative(c, t1, t);
      CapTwice(b.tokens, Gain(c, b.last, t1), Gain(c, t1, t), 0.0, c.burst);
    } else {
      GainAdds(c, b.last, t, t2);
      GainNonnegative(c, b.last, t);
      CapTwice(b.tokens, 0.0, Gain(c, b.last, t), 0.0, c.burst);
    }
  }

  /** A bucket charged inside the window has its tokens and the gain up to the end. */
  lemma PaidInside(c: Config, b: Bucket, t1: real, t2: real)
    requires InBounds(c, b) && t1 <= b.last <= t2
    ensures Budget(c, b, t1, t2) == b.tokens + Gain(c, b.last, t2)
  {
    if b.last == t1 {
      assert Gain(c, t1, t1) == 0.0;
    }
  }

  /** One call costs the budget what it admits. */
  lemma BudgetPays(c: Config, b: Bucket, t: real, t1: real, t2: real)
    requires Sane(c) && InBounds(c, b) && b.last <= t && t1 <= t2
    ensures Budget(c, Charged(c, b, t), t1, t2) + (if t1 <= t <= t2 then Cost(c, b, t) else 0.0) <= Budget(c, b, t1, t2)
  {
    if t < t1 {
      PaysBefore(c, b, t, t1, t2);
    } else if t <= t2 {
      PaysInside(c, b, t, t1, t2);
    } else {
      BudgetNonnegative(c, b, t1, t2);
    }
  }

  lemma BudgetNonnegative(c: Config, b: Bucket, t1: real, t2: real)
    requires Sane(c) && InBounds(c, b) && t1 <= t2
    ensures Budget(c, b, t1, t2) >= 0.0
  {
    if b.last <= t1 {
      RefilledInBounds(c, b, t1);
      GainNonnegative(c, t1, t2);
    } else if b.last <= t2 {
      GainNonnegative(c, b.last, t2);
    }
  }

  lemma {:induction false} AdmittedWithinBudget(c: Config, b: Bucket, times: seq<real>, t1: real, t2: real)
    requires Sane(c) && InBounds(c, b) && Timely(times, b.last) && t1 <= t2
    ensures AdmittedIn(c, b, times, t1, t2) as real <= Budget(c, b, t1, t2)
    decreases |times|
  {
    if times == [] {
      BudgetNonnegative(c, b, t1, t2);
    } else {
      ChargedInBounds(c, b, times[0]);
      AdmittedWithinBudget(c, Charged(c, b, times[0]), times[1..], t1, t2);
      BudgetPays(c, b, times[0], t1, t2);
    }
  }

  /** In every window, at most `burst + rate * length` calls are admitted. */
  lemma WindowBound(c: Config, b: Bucket, times: seq<real>, t1: real, t2: real)
    requires Sane(c) && InBounds(c, b) && Timely(times, b.last) && t1 <= t2
    ensures AdmittedIn(c, b, times, t1, t2) as real <= c.burst as real + Gain(c, t1, t2)
  {
    AdmittedWithinBudget(c, b, times, t1, t2);
    BudgetIsBounded(c, b, t1, t2);
  }

  // ---- Eviction ----

  type Buckets = map<string, Bucket>

  datatype Event = Call(id: string, at: real) | Sweep(at: real)

  /** The bucket a call is charged to; an identity not seen, or evicted, gets a full one. */
  function Holding(c: Config, bs: Buckets, id: string, now: real): Bucket {
    if id in bs then bs[id] else Bucket(c.burst as real, now)
  }

  /** The buckets a sweep keeps: those used within the interval. */
  function Swept(c: Config, bs: Buckets, now: real): Buckets {
    map id | id in bs && !(bs[id].last < now - c.interval) :: bs[id]
  }

  ghost function After(c: Config, bs: Buckets, e: Event, evicting: bool): Buckets {
    match e
    case Call(id, at) => bs[id := Charged(c, Holding(c, bs, id, at), at)]
    case Sweep(at) => if evicting then Swept(c, bs, at) else bs
  }

  /** The answers to the calls of a run, by a limiter that sweeps or by one that never does. */
  ghost function Answers(c: Config, bs: Buckets, run: seq<Event>, evicting: bool): seq<bool>
    decreases |run|
  {
    if run == [] then []
    else
      (match run[0] case Call(id, at) => [Admits(c, Holding(c, bs, id, at), at)] case Sweep(_) => [])
      + Answers(c, After(c, bs, run[0], evicting), run[1..], evicting)
  }

  ghost predicate Ordered(run: seq<Event>, from: real)
    decreases |run|
  {
    run == [] || (from <= run[0].at && Ordered(run[1..], run[0].at))
  }

  ghost predicate Full(c: Config, b: Bucket, now: real) {
    b.tokens + Gain(c, b.last, now) >= c.burst as real
  }

  /** `a` has swept what `b` has kept: only buckets that are full by now. */
  ghost predicate Simulates(c: Config, a: Buckets, b: Buckets, now: real) {
    && (forall id :: id in a ==> id in b && a[id] == b[id])
    && (forall id :: id in b && id !in a ==> Full(c, b[id], now))
    && (forall id :: id in b ==> InBounds(c, b[id]) && b[id].last <= now)
  }

  /** An idle bucket refills before it can be swept. */
  ghost predicate RefillsInTime(c: Config) {
    c.interval * c.rate >= c.burst as real
  }

  lemma SimulatesLater(c: Config, a: Buckets, b: Buckets, now: real, later: real)
    requires Sane(c) && Simulates(c, a, b, now) && now <= later
    ensures Simulates(c, a, b, later)
  {
    forall id | id in b && id !in a
      ensures Full(c, b[id], later)
    {
      GainAdds(c, b[id].last, now, later);
      GainNonnegative(c, now, later);
    }
  }

  lemma IdleIsFull(c: Config, b: Bucket, now: real)
    requires Sane(c) && RefillsInTime(c) && InBounds(c, b) && b.last < now - c.interval
    ensures Full(c, b, now)
  {
    GainAdds(c, b.last, now - c.interval, now);
    GainNonnegative(c, b.last, now - c.interval);
    assert Gain(c, now - c.interval, now) == c.interval * c.rate;
  }

  lemma SweepSimulates(c: Config, a: Buckets, b: Buckets, now: real)
    requires Sane(c) && RefillsInTime(c) && Simulates(c, a, b, now)
    ensures Simulates(c, Swept(c, a, now), b, now)
  {
    forall id | id in b && id !in Swept(c, a, now)
      ensures Full(c, b[id], now)
    {
      if id in a {
        IdleIsFull(c, b[id], now);
      }
    }
  }

  lemma CallSimulates(c: Config, a: Buckets, b: Buckets, id: string, now: real)
    requires Sane(c) && Simulates(c, a, b, now)
    ensures Admits(c, Holding(c, a, id, now), now) <==> Admits(c, Holding(c, b, id, now), now)
    ensures Simulates(c, a[id := Charged(c, Holding(c, a, id, now), now)],
                      b[id := Charged(c, Holding(c, b, id, now), now)], now)
  {
    var x, y := Holding(c, a, id, now), Holding(c, b, id, now);
    assert InBounds(c, y) && y.last <= now;
    if id !in a {
      assert Gain(c, now, now) == 0.0;
      assert Refilled(c, x, now) == c.burst as real == Refilled(c, y, now);
    }
    assert Charged(c, x, now) == Charged(c, y, now);
    ChargedInBounds(c, y, now);
  }

  lemma {:induction false} SweptAnswers(c: Config, a: Buckets, b: Buckets, run: seq<Event>, now: real)
    requires Sane(c) && RefillsInTime(c) && Simulates(c, a, b, now) && Ordered(run, now)
    ensures Answers(c, a, run, true) == Answers(c, b, run, false)
    decreases |run|
  {
    if run != [] {
      var at := run[0].at;
      SimulatesLater(c, a, b, now, at);
      if run[0].Call? {
        CallSimulates(c, a, b, run[0].id, at);
      } else {
        SweepSimulates(c, a, b, at);
      }
      SweptAnswers(c, After(c, a, run[0], true), After(c, b, run[0], false), run[1..], at);
    }
  }

  // ---- When eviction shows ----

  /** No run of calls and sweeps tells the two limiters apart. */
  ghost predicate Unobservable(c: Config) {
    forall run :: Ordered(run, 0.0) ==> Answers(c, map[], run, true) == Answers(c, map[], run, false)
  }

  function Calls(at: real, n: nat): seq<Event> {
    if n == 0 then [] else [Call("", at)] + Calls(at, n - 1)
  }

  lemma CallsFirst(at: real, n: nat, rest: seq<Event>)
    requires n > 0
    ensures var run := Calls(at, n) + rest; run[0] == Call("", at) && run[1..] == Calls(at, n - 1) + rest
  {
  }

  ghost function Left(c: Config, bs: Buckets, at: real): real {
    Refilled(c, Holding(c, bs, "", at), at)
  }

  ghost function AfterCalls(c: Config, bs: Buckets, at: real, n: nat): Buckets
    decreases n
  {
    if n == 0 then bs else AfterCalls(c, After(c, bs, Call("", at), true), at, n - 1)
  }

  lemma CallLeaves(c: Config, bs: Buckets, at: real)
    requires Sane(c)
    ensures var next := After(c, bs, Call("", at), true);
      next[""] == Bucket(Left(c, bs, at) - (if Left(c, bs, at) >= 1.0 then 1.0 else 0.0), at)
      && Left(c, next, at) == next[""].tokens
  {
    assert Gain(c, at, at) == 0.0;
  }

  ghost function CallAnswers(c: Config, bs: Buckets, at: real, n: nat): (r: seq<bool>)
    ensures |r| == n
    decreases n
  {
    if n == 0 then []
    else [Left(c, bs, at) >= 1.0] + CallAnswers(c, After(c, bs, Call("", at), true), at, n - 1)
  }

  lemma {:induction false} CallsAnswer(c: Config, bs: Buckets, at: real, n: nat, rest: seq<Event>, evicting: bool)
    ensures Answers(c, bs, Calls(at, n) + rest, evicting) ==
            CallAnswers(c, bs, at, n) + Answers(c, AfterCalls(c, bs, at, n), rest, evicting)
    decreases n
  {
    if n == 0 {
      assert Calls(at, n) + rest == rest;
    } else {
      var run := Calls(at, n) + rest;
      CallsFirst(at, n, rest);
      CallsAnswer(c, After(c, bs, Call("", at), true), at, n - 1, rest, evicting);
    }
  }

  predicate AllTrue(s: seq<bool>) {
    forall i :: 0 <= i < |s| ==> s[i]
  }

  /** `n` calls at one moment are all admitted exactly when `n` tokens are there, and then they are spent. */
  lemma {:induction false} CallsSpend(c: Config, bs: Buckets, at: real, n: nat)
    requires Sane(c) && n >= 1
    ensures AllTrue(CallAnswers(c, bs, at, n)) <==> Left(c, bs, at) >= n as real
    ensures Left(c, bs, at) >= n as real ==>
      "" in AfterCalls(c, bs, at, n) && AfterCalls(c, bs, at, n)[""] == Bucket(Left(c, bs, at) - n as real, at)
    decreases n
  {
    var next := After(c, bs, Call("", at), true);
    CallLeaves(c, bs, at);
    var out := CallAnswers(c, bs, at, n);
    assert out == [Left(c, bs, at) >= 1.0] + CallAnswers(c, next, at, n - 1);
    if n == 1 {
      assert out == [Left(c, bs, at) >= 1.0] && out[0] == (Left(c, bs, at) >= 1.0);
      assert AfterCalls(c, next, at, 0) == next;
    } else {
      CallsSpend(c, next, at, n - 1);
      assert AllTrue(out) <==> out[0] && AllTrue(out[1..]);
    }
  }

  /** A moment after the interval at which a drained bucket is not yet full again. */
  lemma TooSoon(c: Config) returns (t: real)
    requires Sane(c) && !RefillsInTime(c)
    ensures t > c.interval && 0.0 <= Gain(c, 0.0, t) < c.burst as real
  {
    if c.rate == 0.0 {
      t := c.interval + 1.0;
    } else {
      var full := c.burst as real / c.rate;
      assert full * c.rate == c.burst as real;
      t := (c.interval + full) / 2.0;
      assert Gain(c, 0.0, t) == (c.interval * c.rate + full * c.rate) / 2.0;
    }
  }

  /** Drain the bucket, let the sweep take it, and call again: the sweeping limiter admits more. */
  lemma SweepShows(c: Config)
    requires Sane(c) && !RefillsInTime(c)
    ensures !Unobservable(c)
  {
    var t := TooSoon(c);
    var n, again := c.burst, [Sweep(t)] + Calls(t, c.burst);
    OrderedCalls(t, n, []);
    assert again[0] == Sweep(t) && again[1..] == Calls(t, n) == Calls(t, n) + [];
    OrderedCalls(0.0, n, again);
    assert Gain(c, 0.0, 0.0) == 0.0 && Left(c, map[], 0.0) == n as real;
    CallsSpend(c, map[], 0.0, n);
    var drained := AfterCalls(c, map[], 0.0, n);
    SecondRound(c, drained, t);
    CallsAnswer(c, map[], 0.0, n, again, true);
    CallsAnswer(c, map[], 0.0, n, again, false);
    Cancel(CallAnswers(c, map[], 0.0, n), Answers(c, drained, again, true), Answers(c, drained, again, false));
  }

  lemma Cancel(a: seq<bool>, x: seq<bool>, y: seq<bool>)
    requires x != y
    ensures a + x != a + y
  {
    assert (a + x)[|a|..] == x && (a + y)[|a|..] == y;
  }

  lemma {:induction false} OrderedCalls(at: real, n: nat, rest: seq<Event>)
    requires Ordered(rest, at)
    ensures Ordered(Calls(at, n) + rest, at)
    decreases n
  {
    if n == 0 {
      assert Calls(at, n) + rest == rest;
    } else {
      var run := Calls(at, n) + rest;
      CallsFirst(at, n, rest);
      OrderedCalls(at, n - 1, rest);
    }
  }

  lemma SecondRound(c: Config, drained: Buckets, t: real)
    requires Sane(c) && "" in drained && drained[""] == Bucket(0.0, 0.0)
    requires t > c.interval && 0.0 <= Gain(c, 0.0, t) < c.burst as real
    ensures var again := [Sweep(t)] + Calls(t, c.burst);
      Answers(c, drained, again, true) != Answers(c, drained, again, false)
  {
    var n, swept := c.burst, Swept(c, drained, t);
    var again := [Sweep(t)] + Calls(t, n);
    assert again[0] == Sweep(t) && again[1..] == Calls(t, n) == Calls(t, n) + [];
    assert "" !in swept && Gain(c, t, t) == 0.0;
    assert Left(c, swept, t) == n as real;
    assert Left(c, drained, t) == Gain(c, 0.0, t);
    CallsSpend(c, swept, t, n);
    CallsSpend(c, drained, t, n);
    CallsAnswer(c, swept, t, n, [], true);
    CallsAnswer(c, drained, t, n, [], false);
    var x, y := CallAnswers(c, swept, t, n), CallAnswers(c, drained, t, n);
    assert Answers(c, drained, again, true) == x + [] == x;
    assert Answers(c, drained, again, false) == y + [] == y;
    assert AllTrue(x) && !AllTrue(y);
  }

  /** Eviction is unobservable exactly when an idle bucket refills before it can be swept. */
  lemma UnobservableIff(c: Config)
    requires Sane(c)
    ensures Unobservable(c) <==> RefillsInTime(c)
  {
    if RefillsInTime(c) {
      forall run | Ordered(run, 0.0)
        ensures Answers(c, map[], run, true) == Answers(c, map[], run, false)
      {
        SweptAnswers(c, map[], map[], run, 0.0);
      }
    } else {
      SweepShows(c);
    }
  }

  // ---- One identity of a limiter, over whole runs ----

  /** The calls of `id` that a run admits at times in [t1, t2]. */
  ghost function AdmittedFor(c: Config, bs: Buckets, run: seq<Event>, id: string, t1: real, t2: real,
                             evicting: bool): nat
    decreases |run|
  {
    if run == [] then 0
    else
      (if run[0].Call? && run[0].id == id && t1 <= run[0].at <= t2
        && Admits(c, Holding(c, bs, id, run[0].at), run[0].at) then 1 else 0)
      + AdmittedFor(c, After(c, bs, run[0], evicting), run[1..], id, t1, t2, evicting)
  }

  ghost predicate AllInBounds(c: Config, bs: Buckets, now: real) {
    forall id :: id in bs ==> InBounds(c, bs[id]) && bs[id].last <= now
  }

  /** What the identity can still be admitted for inside the window. */
  ghost function BudgetFor(c: Config, bs: Buckets, id: string, t1: real, t2: real): real {
    if id in bs then Budget(c, bs[id], t1, t2) else c.burst as real + Gain(c, t1, t2)
  }

  lemma BudgetIsBounded(c: Config, b: Bucket, t1: real, t2: real)
    requires Sane(c) && InBounds(c, b) && t1 <= t2
    ensures 0.0 <= Budget(c, b, t1, t2) <= c.burst as real + Gain(c, t1, t2)
  {
    BudgetNonnegative(c, b, t1, t2);
    GainNonnegative(c, t1, t2);
    if b.last <= t1 {
      RefilledInBounds(c, b, t1);
    } else if b.last <= t2 {
      GainAdds(c, t1, b.last, t2);
      GainNonnegative(c, t1, b.last);
    }
  }

  lemma CallPays(c: Config, bs: Buckets, id: string, at: real, t1: real, t2: real)
    requires Sane(c) && AllInBounds(c, bs, at) && t1 <= t2
    ensures var b := Holding(c, bs, id, at);
      Budget(c, Charged(c, b, at), t1, t2) + (if t1 <= at <= t2 then Cost(c, b, at) else 0.0) <=
        BudgetFor(c, bs, id, t1, t2)
  {
    var b := Holding(c, bs, id, at);
    assert InBounds(c, b) && b.last <= at;
    BudgetPays(c, b, at, t1, t2);
    BudgetIsBounded(c, b, t1, t2);
  }

  lemma {:induction false} AdmittedForWithin(c: Config, bs: Buckets, run: seq<Event>, now: real, id: string, t1: real,
                                             t2: real)
    requires Sane(c) && AllInBounds(c, bs, now) && Ordered(run, now) && t1 <= t2
    ensures AdmittedFor(c, bs, run, id, t1, t2, false) as real <= BudgetFor(c, bs, id, t1, t2)
    decreases |run|
  {
    if run == [] {
      BudgetIsBounded(c, Holding(c, bs, id, now), t1, t2);
      GainNonnegative(c, t1, t2);
    } else {
      var next := After(c, bs, run[0], false);
      if run[0].Call? {
        ChargedInBounds(c, Holding(c, bs, run[0].id, run[0].at), run[0].at);
        CallPays(c, bs, id, run[0].at, t1, t2);
      }
      AdmittedForWithin(c, next, run[1..], run[0].at, id, t1, t2);
    }
  }

  lemma {:induction false} SweptAdmits(c: Config, a: Buckets, b: Buckets, run: seq<Event>, now: real, id: string,
                                       t1: real, t2: real)
    requires Sane(c) && RefillsInTime(c) && Simulates(c, a, b, now) && Ordered(run, now)
    ensures AdmittedFor(c, a, run, id, t1, t2, true) == AdmittedFor(c, b, run, id, t1, t2, false)
    decreases |run|
  {
    if run != [] {
      var at := run[0].at;
      SimulatesLater(c, a, b, now, at);
      if run[0].Call? {
        CallSimulates(c, a, b, run[0].id, at);
      } else {
        SweepSimulates(c, a, b, at);
      }
      SweptAdmits(c, After(c, a, run[0], true), After(c, b, run[0], false), run[1..], at, id, t1, t2);
    }
  }

  /** Whatever else is called and whenever the sweep runs, no identity exceeds its window. */
  lemma LimiterWindowBound(c: Config, run: seq<Event>, id: string, t1: real, t2: real)
    requires Sane(c) && RefillsInTime(c) && Ordered(run, 0.0) && t1 <= t2
    ensures AdmittedFor(c, map[], run, id, t1, t2, true) as real <= c.burst as real + Gain(c, t1, t2)
  {
    SweptAdmits(c, map[], map[], run, 0.0, id, t1, t2);
    AdmittedForWithin(c, map[], run, 0.0, id, t1, t2);
  }

  /** No run admits any identity for more than `burst + rate * length` in any window. */
  ghost predicate WindowsHold(c: Config) {
    forall run, id, t1, t2 :: Ordered(run, 0.0) && t1 <= t2 ==>
      AdmittedFor(c, map[], run, id, t1, t2, true) as real <= c.burst as real + Gain(c, t1, t2)
  }

  lemma AdmittedFirst(c: Config, bs: Buckets, run: seq<Event>, t1: real, t2: real)
    requires run != [] && run[0].Call? && run[0].id == "" && t1 <= run[0].at <= t2 && Left(c, bs, run[0].at) >= 1.0
    ensures AdmittedFor(c, bs, run, "", t1, t2, true) ==
            1 + AdmittedFor(c, After(c, bs, run[0], true), run[1..], "", t1, t2, true)
  {
  }

  lemma {:induction false} CallsAdmitted(c: Config, bs: Buckets, at: real, n: nat, rest: seq<Event>, t1: real, t2: real)
    requires Sane(c) && t1 <= at <= t2 && (n > 0 ==> Left(c, bs, at) >= n as real)
    ensures AdmittedFor(c, bs, Calls(at, n) + rest, "", t1, t2, true) ==
            n + AdmittedFor(c, AfterCalls(c, bs, at, n), rest, "", t1, t2, true)
    decreases n
  {
    if n == 0 {
      assert Calls(at, n) + rest == rest;
    } else {
      var run := Calls(at, n) + rest;
      CallsFirst(at, n, rest);
      CallLeaves(c, bs, at);
      CallsAdmitted(c, After(c, bs, Call("", at), true), at, n - 1, rest, t1, t2);
      AdmittedFirst(c, bs, run, t1, t2);
    }
  }

  /** Drain, sweep, drain again: two bursts in a window too short to refill one. */
  ghost function TwoBursts(c: Config, t: real): seq<Event> {
    Calls(0.0, c.burst) + ([Sweep(t)] + Calls(t, c.burst))
  }

  lemma TwoBurstsOrdered(c: Config, t: real)
    requires t >= 0.0
    ensures Ordered(TwoBursts(c, t), 0.0)
  {
    var again := [Sweep(t)] + Calls(t, c.burst);
    OrderedCalls(t, c.burst, []);
    assert again[0] == Sweep(t) && again[1..] == Calls(t, c.burst) == Calls(t, c.burst) + [];
    OrderedCalls(0.0, c.burst, again);
  }

  lemma SecondBurst(c: Config, drained: Buckets, t: real)
    requires Sane(c) && "" in drained && drained[""].last == 0.0 && t > c.interval
    ensures AdmittedFor(c, drained, [Sweep(t)] + Calls(t, c.burst), "", 0.0, t, true) == c.burst
  {
    var n, swept := c.burst, Swept(c, drained, t);
    var again := [Sweep(t)] + Calls(t, n);
    assert again[0] == Sweep(t) && again[1..] == Calls(t, n) == Calls(t, n) + [];
    assert "" !in swept && Gain(c, t, t) == 0.0;
    assert Left(c, swept, t) == n as real;
    CallsAdmitted(c, swept, t, n, [], 0.0, t);
  }

  lemma TwoBurstsAdmitted(c: Config, t: real)
    requires Sane(c) && t > c.interval
    ensures AdmittedFor(c, map[], TwoBursts(c, t), "", 0.0, t, true) == 2 * c.burst
  {
    var n := c.burst;
    assert Gain(c, 0.0, 0.0) == 0.0 && Left(c, map[], 0.0) == n as real;
    CallsSpend(c, map[], 0.0, n);
    CallsAdmitted(c, map[], 0.0, n, [Sweep(t)] + Calls(t, n), 0.0, t);
    SecondBurst(c, AfterCalls(c, map[], 0.0, n), t);
  }

  /** A limiter that sweeps keeps its windows exactly when an idle bucket refills before it can be swept. */
  lemma LimiterWindowBoundIff(c: Config)
    requires Sane(c)
    ensures WindowsHold(c) <==> RefillsInTime(c)
  {
    if RefillsInTime(c) {
      forall run, id, t1, t2 | Ordered(run, 0.0) && t1 <= t2
        ensures AdmittedFor(c, map[], run, id, t1, t2, true) as real <= c.burst as real + Gain(c, t1, t2)
      {
        LimiterWindowBound(c, run, id, t1, t2);
      }
    } else {
      var t := TooSoon(c);
      TwoBurstsOrdered(c, t);
      TwoBurstsAdmitted(c, t);
    }
  }

  // ---- The limiter as an object ----

  class TokenBucket {
    var tokens: real
    var lastTime: real
    const rate: real
    const burst: nat

    constructor (tokens: real, lastTime: real, rate: real, burst: nat)
      ensures this.tokens == tokens && this.lastTime == lastTime && this.rate == rate && this.burst == burst
    {
      this.tokens, this.lastTime, this.rate, this.burst := tokens, lastTime, rate, burst;
    }

    ghost function Value(): Bucket
      reads this
    {
      Bucket(tokens, lastTime)
    }

    method Allow(now: real, ghost c: Config) returns (ok: bool)
      requires c.rate == rate && c.burst == burst
      modifies this
      ensures ok == Admits(c, old(Value()), now) && Value() == Charged(c, old(Value()), now)
    {
      var elapsed := now - lastTime;
      lastTime := now;
      tokens := tokens + elapsed * rate;
      if tokens > burst as real {
        tokens := burst as real;
      }
      if tokens < 1.0 {
        return false;
      }
      tokens := tokens - 1.0;
      return true;
    }
  }

  /** A bucket made a moment before its first call is as full at the call. */
  lemma BornFull(c: Config, born: real, now: real)
    requires Sane(c) && born <= now
    ensures var b := Bucket(c.burst as real, born);
      Charged(c, b, now) == Charged(c, Bucket(c.burst as real, now), now)
        && (Admits(c, b, now) <==> Admits(c, Bucket(c.burst as real, now), now))
  {
    GainNonnegative(c, born, now);
    assert Gain(c, now, now) == 0.0;
  }

  class RateLimiter {
    var buckets: map<string, TokenBucket>
    const rate: real
    const burst: nat

    constructor (rate: real, burst: nat)
      ensures this.rate == rate && this.burst == burst && buckets == map[]
    {
      this.rate, this.burst, buckets := rate, burst, map[];
    }

    /** Each identity has a bucket of its own, made with the limiter's settings. */
    ghost predicate Valid(c: Config)
      reads this
    {
      && Sane(c) && c.rate == rate && c.burst == burst
      && (forall i :: i in buckets ==> buckets[i].rate == rate && buckets[i].burst == burst)
      && (forall i, j :: i in buckets && j in buckets && i != j ==> buckets[i] != buckets[j])
    }

    ghost function View(): Buckets
      reads this, buckets.Values
    {
      map i | i in buckets :: buckets[i].Value()
    }

    /** `born` and `now` are the two readings of the clock a first call makes. */
    method Allow(id: string, born: real, now: real, ghost c: Config) returns (ok: bool)
      requires Valid(c) && born <= now
      modifies this, buckets.Values
      ensures Valid(c) && ok == Admits(c, Holding(c, old(View()), id, now), now)
      ensures View() == After(c, old(View()), Call(id, now), true)
    {
      ghost var was := View();
      BornFull(c, born, now);
      if id !in buckets {
        var b := new TokenBucket(burst as real, born, rate, burst);
        buckets := buckets[id := b];
      }
      ok := buckets[id].Allow(now, c);
      assert View() == was[id := buckets[id].Value()];
    }

    /** One pass of the clean-up loop. */
    method CleanUp(now: real, interval: real, ghost c: Config)
      requires Valid(c) && c.interval == interval
      modifies this
      ensures Valid(c) && View() == After(c, old(View()), Sweep(now), true)
    {
      var cutoff := now - interval;
      var left := buckets.Keys;
      ghost var was := buckets;
      while left != {}
        invariant left <= was.Keys && Valid(c)
        invariant buckets.Keys <= was.Keys && forall i :: i in buckets ==> buckets[i] == was[i]
        invariant forall i :: i in was ==> (i in buckets <==> i in left || !(was[i].lastTime < cutoff))
      {
        var k :| k in left;
        left := left - {k};
        if buckets[k].lastTime < cutoff {
          buckets := buckets - {k};
        }
      }
    }
  }
}
