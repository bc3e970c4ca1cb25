/** Retrying with exponential backoff (pkg/internal/retry and its wait package).  Durations are
    whole nanoseconds and factors whole numbers, where the code's floating-point arithmetic is
    exact; `random` gives the numbers in [0, 1) that rand.Float64 returned. */
module Backoff {
  import opened Common

  /** The fields that never change. */
  datatype Params = Params(factor: nat, jitter: real, cap: nat)

  /** A random part of `amount`. */
  function Share(random: real, amount: real): (extra: real)
    requires 0.0 <= random < 1.0 && 0.0 <= amount
    ensures 0.0 <= extra <= amount && extra == random * amount
  {
    ProductIsPositive(random, amount);
    ProductIsPositive(1.0 - random, amount);
    assert (1.0 - random) * amount == amount - random * amount;
    random * amount
  }

  lemma ProductIsPositive(x: real, y: real)
    requires 0.0 <= x && 0.0 <= y
    ensures 0.0 <= x * y
  {
  }

  /** wait.Jitter: between the duration and the duration stretched by the factor, and there as far up as
      the random number says, in whole nanoseconds. */
  function Jitter(duration: nat, maxFactor: real, random: real): (wait: nat)
    requires 0.0 <= random < 1.0
    ensures duration <= wait
    ensures wait as real <= duration as real + (if maxFactor <= 0.0 then 1.0 else maxFactor) * duration as real
    ensures var extra := random * ((if maxFactor <= 0.0 then 1.0 else maxFactor) * duration as real);
            wait as real <= duration as real + extra < wait as real + 1.0
  {
    var most := (if maxFactor <= 0.0 then 1.0 else maxFactor) * duration as real;
    ProductIsPositive(if maxFactor <= 0.0 then 1.0 else maxFactor, duration as real);
    duration + Share(random, most).Floor
  }

  /** (1 + jitter) times the planned sleep: the longest that jitter can make of it. */
  function Stretched(p: Params, planned: nat): real {
    planned as real + if p.jitter > 0.0 then p.jitter * planned as real else 0.0
  }

  /** The sleep that a duration becomes. */
  function Sleep(p: Params, duration: nat, random: real): (sleep: nat)
    requires 0.0 <= random < 1.0
    ensures duration <= sleep && sleep as real <= Stretched(p, duration)
  {
    if p.jitter > 0.0 then Jitter(duration, p.jitter, random) else duration
  }

  lemma StretchedSum(p: Params, a: nat, b: nat)
    ensures Stretched(p, a + b) == Stretched(p, a) + Stretched(p, b)
    ensures p.jitter > 0.0 ==> Stretched(p, a) == (1.0 + p.jitter) * a as real
    ensures p.jitter <= 0.0 ==> Stretched(p, a) == a as real
  {
  }

  datatype Progress = Progress(duration: nat, steps: int)

  /** What one Step leaves behind. */
  function Advance(p: Params, s: Progress): Progress {
    if s.steps < 1 then s
    else if p.factor == 0 then s.(steps := s.steps - 1)
    else if p.cap > 0 && s.duration * p.factor > p.cap then Progress(p.cap, 0)
    else Progress(s.duration * p.factor, s.steps - 1)
  }

  class Backoff {
    const params: Params
    var duration: nat
    var steps: int

    function State(): Progress
      reads this
    {
      Progress(duration, steps)
    }

    constructor (p: Params, start: Progress)
      ensures params == p && State() == start
    {
      params, duration, steps := p, start.duration, start.steps;
    }

    /** Backoff.Step: the sleep is the old duration, with jitter. */
    method Step(random: real) returns (sleep: nat)
      requires 0.0 <= random < 1.0
      modifies this
      ensures State() == Advance(params, old(State()))
      ensures sleep == Sleep(params, old(duration), random)
    {
      if steps < 1 {
        return if params.jitter > 0.0 then Jitter(duration, params.jitter, random) else duration;
      }
      steps := steps - 1;
      sleep := duration;
      if params.factor != 0 {
        duration := duration * params.factor;
        if params.cap > 0 && duration > params.cap {
          duration := params.cap;
          steps := 0;
        }
      }
      if params.jitter > 0.0 {
        sleep := Jitter(sleep, params.jitter, random);
      }
    }
  }

  // ---------------------------------------------------------------- the schedule

  /** How often the condition is checked when it never holds. */
  function MaxCalls(p: Params, s: Progress): nat
    decreases if s.steps < 0 then 0 else s.steps
  {
    if s.steps <= 0 then 0 else if s.steps == 1 then 1 else 1 + MaxCalls(p, Advance(p, s))
  }

  /** The sleeps in between, without jitter. */
  function Schedule(p: Params, s: Progress): seq<nat>
    decreases if s.steps < 0 then 0 else s.steps
  {
    if s.steps <= 1 then [] else [s.duration] + Schedule(p, Advance(p, s))
  }

  /** `slept` are the sleeps of the schedule's beginning, each with its jitter. */
  ghost predicate Jittered(p: Params, planned: seq<nat>, slept: seq<nat>) {
    && |slept| <= |planned|
    && forall i :: 0 <= i < |slept| ==>
         && planned[i] <= slept[i]
         && slept[i] as real <= Stretched(p, planned[i])
  }

  /** After `n` sleeps the backoff stands at `now`. */
  predicate Stands(p: Params, start: Progress, n: nat, now: Progress) {
    && n <= |Schedule(p, start)| && Schedule(p, start)[n..] == Schedule(p, now)
    && n + MaxCalls(p, now) == MaxCalls(p, start)
  }

  lemma StandsAtStart(p: Params, start: Progress)
    ensures Stands(p, start, 0, start) && Jittered(p, Schedule(p, start), [])
  {
  }

  lemma StandsNext(p: Params, start: Progress, n: nat, now: Progress)
    requires Stands(p, start, n, now)
    ensures now.steps > 1 ==>
      && Stands(p, start, n + 1, Advance(p, now))
      && n < |Schedule(p, start)| && Schedule(p, start)[n] == now.duration && n + 1 < MaxCalls(p, start) + 1
    ensures now.steps == 1 ==> n == |Schedule(p, start)| && n + 1 == MaxCalls(p, start)
    ensures now.steps <= 0 ==> n == |Schedule(p, start)| && n == MaxCalls(p, start)
    ensures now.steps >= 1 ==> n < MaxCalls(p, start) && 0 <= Advance(p, now).steps < now.steps
  {
    var planned := Schedule(p, start);
    assert now.steps > 1 ==> planned[n..][0] == now.duration && planned[n + 1..] == planned[n..][1..];
  }

  lemma OneMoreSleep(p: Params, planned: seq<nat>, slept: seq<nat>, sleep: nat)
    requires Jittered(p, planned, slept) && |slept| < |planned|
    requires planned[|slept|] <= sleep && sleep as real <= Stretched(p, planned[|slept|])
    ensures Jittered(p, planned, slept + [sleep])
  {
    hide Stretched;
  }

  /** wait.ExponentialBackoff with a condition that is retry.Retry's closure around `f` and
      `again`: f's n-th result decides whether to go on.  `calls` counts the calls of f. */
  method Retry<E(==)>(f: nat -> Option<E>, again: Option<E> -> bool, p: Params, start: Progress, random: nat -> real)
    returns (err: Option<E>, calls: nat, slept: seq<nat>)
    requires forall n :: 0.0 <= random(n) < 1.0
    ensures calls <= MaxCalls(p, start)
    ensures start.steps >= 1 ==> calls >= 1 && err == f(calls - 1)
    ensures start.steps < 1 ==> calls == 0 && err == None
    ensures forall n :: 0 <= n < calls - 1 ==> again(f(n))
    ensures calls < MaxCalls(p, start) ==> !again(f(calls - 1))
    ensures calls > 0 && !again(f(calls - 1)) ==> |slept| == calls - 1
    ensures start.steps >= 1 && again(f(calls - 1)) ==> |slept| == |Schedule(p, start)|
    ensures Jittered(p, Schedule(p, start), slept)
  {
    hide Stands, Stretched, Schedule, MaxCalls, Jittered, Jitter, Advance, Sleep, Share;
    var backoff := new Backoff(p, start);
    err, calls, slept := None, 0, [];
    StandsAtStart(p, start);
    StandsNext(p, start, 0, start);
    while backoff.steps > 0
      invariant backoff.params == p && calls == |slept|
      invariant Stands(p, start, calls, backoff.State())
      invariant calls == 0 ==> err == None && backoff.State() == start
      invariant calls > 0 ==> err == f(calls - 1) && again(err) && start.steps >= 1
      invariant forall n :: 0 <= n < calls ==> again(f(n))
      invariant Jittered(p, Schedule(p, start), slept)
      decreases backoff.steps
    {
      ghost var before := backoff.State();
      StandsNext(p, start, calls, before);
      err := f(calls);
      calls := calls + 1;
      if !again(err) {
        return;
      }
      if backoff.steps == 1 {
        break;
      }
      var sleep := backoff.Step(random(|slept|));
      OneMoreSleep(p, Schedule(p, start), slept, sleep);
      slept := slept + [sleep];
    }
    if backoff.steps <= 0 {
      StandsNext(p, start, calls, backoff.State());
    }
  }

  // ---------------------------------------------------------------- bounds

  function Pow(b: nat, e: nat): nat { if e == 0 then 1 else b * Pow(b, e - 1) }

  function Sum(s: seq<nat>): nat { if s == [] then 0 else Sum(s[..|s| - 1]) + s[|s| - 1] }

  lemma PowGrows(b: nat, e: nat)
    requires b >= 1
    ensures 1 <= Pow(b, e) <= Pow(b, e + 1)
  {
    if e > 0 {
      PowGrows(b, e - 1);
      assert b * Pow(b, e - 1) >= Pow(b, e - 1);
    }
    assert b * Pow(b, e) >= Pow(b, e);
  }

  /** The n-th planned sleep is the initial duration times the factor to the n. */
  lemma {:induction false} ScheduleIsGeometric(p: Params, s: Progress, n: nat)
    requires p.factor >= 1 && n < |Schedule(p, s)|
    ensures Schedule(p, s)[n] == s.duration * Pow(p.factor, n)
    decreases n
  {
    if n > 0 {
      var next := Advance(p, s);
      ScheduleIsGeometric(p, next, n - 1);
      assert next.duration == s.duration * p.factor;
      MulAssociates(s.duration, p.factor, Pow(p.factor, n - 1));
    }
  }

  lemma MulAssociates(a: nat, b: nat, c: nat)
    ensures a * b * c == a * (b * c)
  {
  }

  /** Planned sleeps never shrink and never exceed a positive cap that the initial duration
      respects; a duration the cap has cut is not slept at all. */
  lemma ScheduleGrowsWithinCap(p: Params, s: Progress, i: nat, j: nat)
    requires p.factor >= 1 && i <= j < |Schedule(p, s)|
    ensures Schedule(p, s)[i] <= Schedule(p, s)[j]
    ensures p.cap > 0 && s.duration <= p.cap ==> Schedule(p, s)[j] <= p.cap
    decreases j
  {
    if i < j {
      ScheduleGrowsWithinCap(p, s, i, j - 1);
      ScheduleIsGeometric(p, s, j - 1);
      ScheduleIsGeometric(p, s, j);
      PowGrows(p.factor, j - 1);
      MulGrows(s.duration, Pow(p.factor, j - 1), Pow(p.factor, j));
    }
    if p.cap > 0 && s.duration <= p.cap {
      CapHolds(p, s, j);
    }
  }

  lemma MulGrows(a: nat, b: nat, c: nat)
    requires b <= c
    ensures a * b <= a * c
  {
  }

  lemma {:induction false} CapHolds(p: Params, s: Progress, n: nat)
    requires p.factor >= 1 && n < |Schedule(p, s)| && p.cap > 0 && s.duration <= p.cap
    ensures Schedule(p, s)[n] <= p.cap
    decreases n
  {
    if n > 0 {
      CapHolds(p, Advance(p, s), n - 1);
    }
  }

  /** Calls are bounded by the steps; with whole factors a positive cap can only stop earlier,
      at the first sleep whose successor would exceed it. */
  lemma {:induction false} CallsAreBounded(p: Params, s: Progress)
    ensures MaxCalls(p, s) <= if s.steps < 0 then 0 else s.steps
    ensures |Schedule(p, s)| <= MaxCalls(p, s) <= |Schedule(p, s)| + 1
    ensures s.steps >= 1 ==> MaxCalls(p, s) >= 1
    ensures p.cap == 0 && s.steps >= 1 ==> MaxCalls(p, s) == s.steps == |Schedule(p, s)| + 1
    decreases if s.steps < 0 then 0 else s.steps
  {
    if s.steps > 1 {
      CallsAreBounded(p, Advance(p, s));
    }
  }

  /** Whether the durations of the first `n` multiplications stay within the cap. */
  predicate WithinCap(p: Params, duration: nat, n: nat) {
    n == 0 || p.cap == 0 || duration * Pow(p.factor, n) <= p.cap
  }

  lemma PowStep(b: nat, e: nat, a: nat)
    requires e > 0
    ensures a * Pow(b, e) == (a * b) * Pow(b, e - 1)
  {
    MulAssociates(a, b, Pow(b, e - 1));
  }

  /** With whole factors there can be more than `n` calls exactly when there are more than `n`
      steps and the duration, multiplied `n` times, stays within the cap. */
  lemma {:induction false} CallsExactly(p: Params, s: Progress, n: nat)
    requires p.factor >= 1
    ensures n < MaxCalls(p, s) <==> n < s.steps && WithinCap(p, s.duration, n)
    decreases n
  {
    if n > 0 && s.steps > 1 {
      var next := Advance(p, s);
      PowStep(p.factor, n, s.duration);
      if p.cap > 0 && s.duration * p.factor > p.cap {
        PowGrows(p.factor, n - 1);
        MulGrows(s.duration * p.factor, 1, Pow(p.factor, n - 1));
      } else {
        CallsExactly(p, next, n - 1);
        assert Pow(p.factor, 0) == 1;
      }
    }
  }

  /** When the cap cuts a duration, the schedule is over: the sleeps that are made are durations
      that were not cut, none of them above the cap, and there is no sleep for the cut one. */
  lemma CutDurationIsNotSlept(p: Params, s: Progress, n: nat)
    requires p.factor >= 1 && p.cap > 0 && 0 < n < s.steps && s.duration <= p.cap
    requires s.duration * Pow(p.factor, n) > p.cap
    ensures |Schedule(p, s)| <= n
    ensures forall k :: 0 <= k < |Schedule(p, s)| ==> Schedule(p, s)[k] == s.duration * Pow(p.factor, k) <= p.cap
  {
    CallsExactly(p, s, n);
    CallsAreBounded(p, s);
    forall k | 0 <= k < |Schedule(p, s)|
      ensures Schedule(p, s)[k] == s.duration * Pow(p.factor, k) <= p.cap
    {
      ScheduleIsGeometric(p, s, k);
      CapHolds(p, s, k);
    }
    hide Schedule, Pow;
  }

  /** Doubling from 2 with a cap of 3: there is one sleep, of 2, and 3 is never slept. */
  lemma CapOfThreeIsNotSlept(jitter: real)
    ensures var p, s := Params(2, jitter, 3), Progress(2, 5);
            Schedule(p, s) == [2] && 3 !in Schedule(p, s) && MaxCalls(p, s) == 1
  {
    var p, s := Params(2, jitter, 3), Progress(2, 5);
    assert Advance(p, s) == Progress(3, 0);
  }

  lemma {:induction false} SumOfGeometric(p: Params, s: Progress, n: nat)
    requires p.factor >= 1 && n <= |Schedule(p, s)|
    ensures (p.factor - 1) * Sum(Schedule(p, s)[..n]) == s.duration * (Pow(p.factor, n) - 1)
  {
    if n > 0 {
      var planned := Schedule(p, s);
      SumOfGeometric(p, s, n - 1);
      ScheduleIsGeometric(p, s, n - 1);
      assert planned[..n][..n - 1] == planned[..n - 1];
      var a, b, q := Sum(planned[..n - 1]), s.duration, Pow(p.factor, n - 1);
      assert (p.factor - 1) * (a + b * q) == b * (p.factor * q - 1) by {
        GeometricStep(p.factor, a, b, q);
      }
    }
  }

  lemma GeometricStep(f: nat, a: nat, b: nat, q: nat)
    requires f >= 1 && (f - 1) * a == b * (q - 1)
    ensures (f - 1) * (a + b * q) == b * (f * q - 1)
  {
    assert (f - 1) * (a + b * q) == (f - 1) * a + (f - 1) * (b * q);
    assert (f - 1) * (b * q) == f * (b * q) - b * q;
    assert f * (b * q) == b * (f * q);
  }

  lemma {:induction false} JitteredSum(p: Params, planned: seq<nat>, slept: seq<nat>)
    requires Jittered(p, planned, slept)
    ensures Sum(slept) as real <= Stretched(p, Sum(planned[..|slept|]))
  {
    if slept != [] {
      var n := |slept| - 1;
      JitteredSum(p, planned, slept[..n]);
      assert planned[..|slept|][..n] == planned[..n];
      StretchedSum(p, Sum(planned[..n]), planned[n]);
    } else {
      assert planned[..0] == [];
    }
  }

  /** Total sleep stays within (1 + jitter) times the geometric sum over the sleeps taken. */
  lemma TotalSleepIsBounded(p: Params, s: Progress, slept: seq<nat>)
    requires p.factor >= 1 && Jittered(p, Schedule(p, s), slept)
    ensures var geometric := Sum(Schedule(p, s)[..|slept|]);
            && (p.factor - 1) * geometric == s.duration * (Pow(p.factor, |slept|) - 1)
            && Sum(slept) as real <= Stretched(p, geometric)
  {
    hide Schedule, Sum, Stretched, Pow;
    SumOfGeometric(p, s, |slept|);
    JitteredSum(p, Schedule(p, s), slept);
  }
}
