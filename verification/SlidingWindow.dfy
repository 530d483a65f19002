/**
 * The sliding-window rate limiter of ddcommon/src/rate_limiter.rs. Time is in
 * nanoseconds and passed in; a hit weighs one granularity, and the counter
 * drains by the limit for every nanosecond that passes.
 */
module SlidingWindow {
  import opened Arith

  const TIME_PER_SECOND: nat := 1_000_000_000

  /** The fields of a limiter as a value. */
  datatype State = State(hits: int, lastUpdate: nat, lastLimit: nat)

  /** Division that truncates toward zero. */
  function TruncDiv(a: int, b: int): int
    requires 0 < b
  {
    if 0 <= a then a / b else -((-a) / b)
  }

  /** What one call drains from the counter. */
  function Drain(s: State, limit: nat, now: nat): int {
    (now - s.lastUpdate) * Max(limit, s.lastLimit)
  }

  /** The counter was lower than what is to be taken off it. */
  predicate Underflows(s: State, g: nat, limit: nat, now: nat) {
    s.hits < Drain(s, limit, now) - g
  }

  /** The hits `update` reports: those before draining, or at most zero when the counter ran dry. */
  function Previous(s: State, g: nat, limit: nat, now: nat): int {
    if Underflows(s, g, limit, now) then Min0(s.hits) else s.hits
  }

  function Min0(x: int): int { if x < 0 then x else 0 }

  /** Whether a call of `inc` is accepted. */
  predicate Accepts(s: State, g: nat, limit: nat, now: nat)
    requires 0 < g
  {
    TruncDiv(Previous(s, g, limit, now), g) < limit
  }

  /** The counter once the time that passed is drained, a dry counter restarting at zero. */
  function Drained(s: State, g: nat, limit: nat, now: nat): int {
    if Underflows(s, g, limit, now) then Min0(s.hits) else s.hits - Drain(s, limit, now)
  }

  /** The state after a call of `inc`. */
  function Inc(s: State, g: nat, limit: nat, now: nat): State
    requires 0 < g
  {
    if Accepts(s, g, limit, now)
    then State(Drained(s, g, limit, now) + g, now, limit)
    else State(Drained(s, g, limit, now), now, s.lastLimit)
  }

  function Fresh(now: nat): State { State(0, now, 0) }

  // ---------- The limiter as an object ----------

  class LocalLimiter {
    var hitCount: int
    var lastUpdate: nat
    var lastLimit: nat
    var granularity: nat

    ghost function View(): State
      reads this
    {
      State(hitCount, lastUpdate, lastLimit)
    }

    constructor (seconds: nat, now: nat)
      ensures View() == Fresh(now) && granularity == TIME_PER_SECOND * seconds
    {
      hitCount, lastUpdate, lastLimit, granularity := 0, now, 0, TIME_PER_SECOND * seconds;
    }

    method Reset(seconds: nat, now: nat)
      modifies this
      ensures View() == Fresh(now) && granularity == TIME_PER_SECOND * seconds
    {
      lastUpdate, hitCount, lastLimit, granularity := now, 0, 0, TIME_PER_SECOND * seconds;
    }

    /** Drains the time that passed, adds `inc`, and reports the hits the decision is made on. */
    method Update(limit: nat, inc: nat, now: nat) returns (previous: int)
      modifies this`hitCount, this`lastUpdate
      ensures previous == Previous(old(View()), inc, limit, now)
      ensures View() == old(View()).(hits := Drained(old(View()), inc, limit, now) + inc, lastUpdate := now)
    {
      var last := lastUpdate;
      lastUpdate := now;
      var clearLimit := Max(limit, lastLimit);
      var clearCounter := (now - last) * clearLimit;
      var subtract := clearCounter - inc;
      previous := hitCount;
      hitCount := hitCount - subtract;
      if previous < subtract {
        var add := clearCounter - Max(previous, 0);
        hitCount := hitCount + add;
        previous := previous + (add - clearCounter);
      }
    }

    method TryInc(limit: nat, now: nat) returns (ok: bool)
      requires 0 < granularity
      modifies this
      ensures granularity == old(granularity)
      ensures ok == Accepts(old(View()), granularity, limit, now)
      ensures View() == Inc(old(View()), granularity, limit, now)
    {
      var previous := Update(limit, granularity, now);
      if TruncDiv(previous, granularity) >= limit {
        hitCount := hitCount - granularity;
        ok := false;
      } else {
        lastLimit := limit;
        ok := true;
      }
    }
  }

  // ---------- Runs ----------

  /** A call of `inc`: the limit asked for, and the time of the call. */
  datatype Call = Call(limit: nat, now: nat)

  function Run(s: State, g: nat, calls: seq<Call>): State
    requires 0 < g
  {
    if calls == [] then s
    else
      var k := |calls| - 1;
      Inc(Run(s, g, calls[..k]), g, calls[k].limit, calls[k].now)
  }

  function Accepted(s: State, g: nat, calls: seq<Call>): nat
    requires 0 < g
  {
    if calls == [] then 0
    else
      var k := |calls| - 1;
      Accepted(s, g, calls[..k]) + if Accepts(Run(s, g, calls[..k]), g, calls[k].limit, calls[k].now) then 1 else 0
  }

  /** Time does not run backwards. */
  predicate Ordered(s: State, calls: seq<Call>) {
    && (forall i | 0 <= i < |calls| :: s.lastUpdate <= calls[i].now)
    && (forall i, j | 0 <= i < j < |calls| :: calls[i].now <= calls[j].now)
  }

  predicate LimitsAtMost(calls: seq<Call>, m: nat) {
    forall i | 0 <= i < |calls| :: calls[i].limit <= m
  }

  /** The counter stays between minus one hit and one hit above the limit last granted. */
  predicate InRange(s: State, g: nat) {
    0 <= s.hits + g && s.hits < (s.lastLimit + 1) * g
  }

  lemma TruncDivBelow(a: int, g: nat, limit: nat)
    requires 0 < g
    ensures 0 < limit ==> (TruncDiv(a, g) < limit <==> a < limit * g)
    ensures TruncDiv(a, g) < limit ==> a < limit * g
  {
    if 0 <= a {
      var q, r := a / g, a % g;
      assert a == q * g + r;
      if q < limit {
        MulMonotone(q, limit - 1, g);
        assert (limit - 1) * g == limit * g - g;
      } else {
        MulMonotone(limit, q, g);
      }
    } else {
      MulNonNegative(limit, g);
      DivNonNegative(-a, g);
      if limit == 0 {
        assert -a >= 1;
      }
    }
  }

  /**
   * A call in any state: with `d` the elapsed time times the larger of the
   * limit and the one last granted, a call with a positive limit is accepted
   * when `d` outweighs the counter with one more hit, or when the counter is
   * below the limit. The counter loses `d`, or restarts at zero when it ran
   * dry, and an accepted call adds one hit and its limit.
   */
  lemma IncMeans(s: State, g: nat, limit: nat, now: nat, d: int)
    requires 0 < g
    requires d == (now - s.lastUpdate) * (if limit < s.lastLimit then s.lastLimit else limit)
    ensures 0 < limit ==> (Accepts(s, g, limit, now) <==> s.hits + g < d || s.hits < limit * g)
    ensures
      var left := if d <= s.hits + g then s.hits - d else if s.hits < 0 then s.hits else 0;
      Inc(s, g, limit, now) ==
      if Accepts(s, g, limit, now) then State(left + g, now, limit) else State(left, now, s.lastLimit)
  {
    TruncDivBelow(Previous(s, g, limit, now), g, limit);
    if 0 < limit {
      MulMonotone(1, limit, g);
    }
  }

  /** The same for a limit of one, on a limiter whose limit was at most one. */
  lemma LimitOne(s: State, g: nat, now: nat)
    requires 0 < g && s.lastLimit <= 1
    ensures
      var d := now - s.lastUpdate;
      var left := if d <= s.hits + g then s.hits - d else if s.hits < 0 then s.hits else 0;
      && (Accepts(s, g, 1, now) <==> s.hits + g < d || s.hits < g)
      && Inc(s, g, 1, now) ==
         if s.hits + g < d || s.hits < g then State(left + g, now, 1) else State(left, now, s.lastLimit)
  {
    hide Inc, Accepts;
    IncMeans(s, g, 1, now, now - s.lastUpdate);
  }

  lemma DivNonNegative(a: int, g: nat)
    requires 0 < g && 0 <= a
    ensures 0 <= a / g
  {
  }

  lemma DrainBounds(s: State, limit: nat, now: nat, m: nat)
    requires s.lastUpdate <= now && limit <= m && s.lastLimit <= m
    ensures 0 <= Drain(s, limit, now) <= (now - s.lastUpdate) * m
  {
    var d := now - s.lastUpdate;
    MulNonNegative(d, Max(limit, s.lastLimit));
    MulMonotone(Max(limit, s.lastLimit), m, d);
    assert Drain(s, limit, now) == Max(limit, s.lastLimit) * d && d * m == m * d;
  }

  /** Whatever limits are asked for, the counter stays in range. */
  lemma IncKeepsRange(s: State, g: nat, limit: nat, now: nat)
    requires 0 < g && InRange(s, g) && s.lastUpdate <= now
    ensures InRange(Inc(s, g, limit, now), g)
  {
    DrainBounds(s, limit, now, Max(limit, s.lastLimit));
    if Accepts(s, g, limit, now) {
      TruncDivBelow(Previous(s, g, limit, now), g, limit);
      MulNonNegative(limit, g);
      assert (limit + 1) * g == limit * g + g;
    }
  }

  lemma {:induction false} RunInRange(s: State, g: nat, calls: seq<Call>)
    requires 0 < g && InRange(s, g) && Ordered(s, calls)
    ensures InRange(Run(s, g, calls), g)
    ensures Run(s, g, calls).lastUpdate == if calls == [] then s.lastUpdate else calls[|calls| - 1].now
  {
    if calls != [] {
      var k := |calls| - 1;
      RunInRange(s, g, calls[..k]);
      IncKeepsRange(Run(s, g, calls[..k]), g, calls[k].limit, calls[k].now);
    }
  }

  // ---------- Throughput ----------

  /** An accepted call adds one granularity; no call takes off more than the limit allows. */
  lemma IncSpends(s: State, g: nat, limit: nat, now: nat, m: nat)
    requires 0 < g && s.lastUpdate <= now && limit <= m && s.lastLimit <= m
    ensures
      var gained := if Accepts(s, g, limit, now) then g else 0;
      gained <= Inc(s, g, limit, now).hits - s.hits + (now - s.lastUpdate) * m
    ensures Inc(s, g, limit, now).lastLimit <= m && Inc(s, g, limit, now).lastUpdate == now
  {
    DrainBounds(s, limit, now, m);
  }

  lemma AddUp(n: nat, n': nat, g: nat, m: nat, d: nat, e: nat, x: int, y: int)
    requires n * g <= x + d * m && n <= n' <= n + 1 && (if n' == n then 0 else g) <= y + e * m
    ensures n' * g <= x + y + (d + e) * m
  {
    assert (d + e) * m == d * m + e * m;
    assert (n + 1) * g == n * g + g;
  }

  lemma {:induction false} RunSpends(s: State, g: nat, calls: seq<Call>, m: nat)
    requires 0 < g && Ordered(s, calls) && LimitsAtMost(calls, m) && s.lastLimit <= m
    ensures Run(s, g, calls).lastLimit <= m && s.lastUpdate <= Run(s, g, calls).lastUpdate
    ensures calls != [] ==> Run(s, g, calls).lastUpdate == calls[|calls| - 1].now
    ensures
      Accepted(s, g, calls) * g <=
      Run(s, g, calls).hits - s.hits + (Run(s, g, calls).lastUpdate - s.lastUpdate) * m
  {
    hide Inc, Accepts;
    if calls != [] {
      var k := |calls| - 1;
      var mid := Run(s, g, calls[..k]);
      RunSpends(s, g, calls[..k], m);
      IncSpends(mid, g, calls[k].limit, calls[k].now, m);
      AddUp(Accepted(s, g, calls[..k]), Accepted(s, g, calls), g, m, mid.lastUpdate - s.lastUpdate,
            calls[k].now - mid.lastUpdate, mid.hits - s.hits, Run(s, g, calls).hits - mid.hits);
    }
  }

  /**
   * In any window of any run with limits at most `m`, the accepted calls weigh
   * less than `m + 2` granularities plus what drains in the window.
   */
  lemma {:induction false} WindowThroughput(s: State, g: nat, calls: seq<Call>, m: nat)
    requires 0 < g && InRange(s, g) && Ordered(s, calls) && LimitsAtMost(calls, m) && s.lastLimit <= m
    ensures Accepted(s, g, calls) * g < (m + 2) * g + m * (Run(s, g, calls).lastUpdate - s.lastUpdate)
  {
    RunSpends(s, g, calls, m);
    RunInRange(s, g, calls);
    Bounded(Run(s, g, calls), g, m);
    assert (m + 2) * g == (m + 1) * g + g;
  }

  /** From a fresh limiter the accepted calls weigh less than `m + 1` granularities plus what drains. */
  lemma {:induction false} FreshThroughput(start: nat, g: nat, calls: seq<Call>, m: nat)
    requires 0 < g && Ordered(Fresh(start), calls) && LimitsAtMost(calls, m)
    ensures Accepted(Fresh(start), g, calls) * g < (m + 1) * g + m * (Run(Fresh(start), g, calls).lastUpdate - start)
  {
    var s := Fresh(start);
    RunSpends(s, g, calls, m);
    RunInRange(s, g, calls);
    Bounded(Run(s, g, calls), g, m);
    assert m * (Run(s, g, calls).lastUpdate - start) == (Run(s, g, calls).lastUpdate - start) * m;
  }

  lemma Bounded(s: State, g: nat, m: nat)
    requires InRange(s, g) && s.lastLimit <= m
    ensures s.hits < (m + 1) * g
  {
    MulMonotone(s.lastLimit + 1, m + 1, g);
  }

  /** `n` calls with limit `m` at time zero. */
  function Repeat(m: nat, n: nat): (calls: seq<Call>)
    ensures |calls| == n && forall i | 0 <= i < n :: calls[i] == Call(m, 0)
  {
    seq(n, _ => Call(m, 0))
  }

  lemma {:induction false} FillUp(m: nat, g: nat, n: nat)
    requires 0 < g && 0 < m && n <= m
    ensures Run(Fresh(0), g, Repeat(m, n)) == State(n * g, 0, if n == 0 then 0 else m)
    ensures Accepted(Fresh(0), g, Repeat(m, n)) == n
  {
    hide Inc, Accepts;
    if n > 0 {
      FillUp(m, g, n - 1);
      assert Repeat(m, n)[..n - 1] == Repeat(m, n - 1);
      MulNonNegative(n - 1, g);
      MulMonotone(n, m, g);
      assert n * g == (n - 1) * g + g;
      IncMeans(Run(Fresh(0), g, Repeat(m, n - 1)), g, m, 0, 0);
    }
  }

  /** The bound is attained: one call more than the limit can be accepted within a nanosecond. */
  lemma {:induction false} BurstIsAttained(m: nat, g: nat) returns (calls: seq<Call>)
    requires 0 < m <= g
    ensures Ordered(Fresh(0), calls) && LimitsAtMost(calls, m)
    ensures Run(Fresh(0), g, calls).lastUpdate == 1 && Accepted(Fresh(0), g, calls) == m + 1
  {
    hide Inc, Accepts;
    FillUp(m, g, m);
    var a, b := Repeat(m, m), Repeat(m, m) + [Call(m, 1)];
    calls := b + [Call(m, 1)];
    assert b[..m] == a && calls[..m + 1] == b;
    var full := m * g;
    MulMonotone(1, m, g);
    IncMeans(State(full, 0, m), g, m, 1, m);
    IncMeans(State(full - m, 1, m), g, m, 1, 0);
  }

  // ---------- Recovery ----------

  /** A call is accepted once the limit in force has had time to drain the counter and two more hits. */
  lemma Recovers(s: State, g: nat, limit: nat, now: nat)
    requires 0 < g && InRange(s, g) && s.lastUpdate <= now && 0 < limit
    requires (Max(limit, s.lastLimit) + 2) * g <= Drain(s, limit, now)
    ensures Accepts(s, g, limit, now)
  {
    var m := Max(limit, s.lastLimit);
    MulMonotone(s.lastLimit + 1, m + 1, g);
    assert (m + 2) * g == (m + 1) * g + g;
    assert Underflows(s, g, limit, now);
    TruncDivBelow(Min0(s.hits), g, limit);
    MulMonotone(1, limit, g);
  }

  /** After three granularities of silence any call with a positive limit is accepted. */
  lemma RecoversAfterThree(s: State, g: nat, limit: nat, now: nat)
    requires 0 < g && InRange(s, g) && 0 < limit && s.lastUpdate + 3 * g <= now
    ensures Accepts(s, g, limit, now)
  {
    var m := Max(limit, s.lastLimit);
    MulMonotone(3 * g, now - s.lastUpdate, m);
    MulMonotone(m + 2, 3 * m, g);
    assert (3 * m) * g == (3 * g) * m;
    Recovers(s, g, limit, now);
  }

  /** Three granularities are needed: one nanosecond less, and a run exists whose next call is rejected. */
  lemma {:induction false} ThreeIsTight(g: nat) returns (calls: seq<Call>)
    requires 1 < g
    ensures Ordered(Fresh(0), calls) && calls != []
    ensures
      var s := Run(Fresh(0), g, calls);
      InRange(s, g) && s.lastUpdate == 1 && !Accepts(s, g, 1, s.lastUpdate + 3 * g - 1)
  {
    assert InRange(State(2 * g - 1, 1, 1), g);
    calls := [Call(1, 0), Call(1, 1), Call(1, 1)];
    var s1, s2, s3 := State(g, 0, 1), State(g - 1, 1, 1), State(2 * g - 1, 1, 1);
    hide Inc, Accepts, InRange;
    LimitOne(Fresh(0), g, 0);
    LimitOne(s1, g, 1);
    LimitOne(s2, g, 1);
    LimitOne(s3, g, 3 * g);
    assert calls[..2][..1] == calls[..1] && calls[..1][..0] == [];
    assert Run(Fresh(0), g, calls[..1]) == s1;
    assert Run(Fresh(0), g, calls[..2]) == s2;
    assert Run(Fresh(0), g, calls) == s3;
  }

  // ---------- A limit of zero ----------

  /** With limit zero, a call is accepted exactly when the counter is a whole hit below zero. */
  lemma ZeroLimitAcceptedIff(s: State, g: nat, now: nat)
    requires 0 < g && InRange(s, g) && s.lastUpdate <= now
    ensures Accepts(s, g, 0, now) <==> s.hits + g == 0
  {
    DrainBounds(s, 0, now, Max(0, s.lastLimit));
    var p := Previous(s, g, 0, now);
    if p < 0 {
      assert p == s.hits;
      if p + g == 0 {
        DivModUnique(g, 1, 0, g);
      } else {
        DivModUnique(-p, 0, -p, g);
      }
    } else {
      DivNonNegative(p, g);
    }
  }

  /** Such a counter is reachable: after silence of exactly two granularities. */
  lemma {:induction false} ZeroLimitCanBeAccepted(g: nat) returns (calls: seq<Call>)
    requires 0 < g
    ensures Ordered(Fresh(0), calls) && Run(Fresh(0), g, calls).lastUpdate == 2 * g
    ensures Accepts(Run(Fresh(0), g, calls), g, 0, 2 * g)
  {
    calls := [Call(1, 0), Call(1, 2 * g)];
    var s1, s2 := State(g, 0, 1), State(0 - g, 2 * g, 1);
    hide Inc, Accepts;
    LimitOne(Fresh(0), g, 0);
    LimitOne(s1, g, 2 * g);
    assert calls[..1][..0] == [];
    assert Run(Fresh(0), g, calls[..1]) == s1;
    assert Run(Fresh(0), g, calls) == s2;
    ZeroLimitAcceptedIff(s2, g, 2 * g);
  }

  // ---------- Machine integers ----------

  const I64_MAX: int := 0x7FFF_FFFF_FFFF_FFFF

  predicate FitsI64(x: int) { -I64_MAX - 1 <= x <= I64_MAX }

  /** Every intermediate value of `update` fits a signed 64-bit integer. */
  predicate UpdateFits(s: State, g: nat, limit: nat, now: nat) {
    var clear := Drain(s, limit, now);
    && FitsI64(now) && FitsI64(s.lastUpdate) && FitsI64(now - s.lastUpdate)
    && FitsI64(clear)
    && FitsI64(clear - g)
    && FitsI64(s.hits - (clear - g))
    && (Underflows(s, g, limit, now) ==> FitsI64(clear - Max(s.hits, 0)) && FitsI64(Min0(s.hits) + g))
  }

  /**
   * No intermediate value overflows exactly when the time fits, elapsed time
   * times limit does, and the counter with the new hit does.
   */
  lemma UpdateFitsIff(s: State, g: nat, limit: nat, now: nat)
    requires InRange(s, g) && s.lastUpdate <= now && g <= I64_MAX
    ensures UpdateFits(s, g, limit, now) <==>
            now <= I64_MAX && Drain(s, limit, now) <= I64_MAX && s.hits + g - Drain(s, limit, now) <= I64_MAX
  {
    DrainBounds(s, limit, now, Max(limit, s.lastLimit));
  }
}
