/**
 The sliding-window restart budget. Times and options are real numbers; a clock reading is an argument
 of each call, and the clock never runs backwards.
 */
module RestartBudget {
  import opened Json

  const MAX_RESTART_DELAY_MS: int := 2_147_483_647

  datatype Verdict = Verdict(allowed: bool, attempt: nat, delayMs: int)

  /** An option is absent when it is not a finite number. */
  datatype Options = Options(
    windowMs: Option<real>, maxRestarts: Option<real>, baseDelayMs: Option<real>, delayFactor: Option<real>)

  function AtLeast(floor: real, option: Option<real>, fallback: real): (r: real)
    ensures r >= floor
  {
    var value := if option.Some? then option.value else fallback;
    if value < floor then floor else value
  }

  function Pow(x: real, n: nat): real {
    if n == 0 then 1.0 else x * Pow(x, n - 1)
  }

  /** Rounding to the nearest integer, halves upwards. */
  function Round(x: real): int {
    (x + 0.5).Floor
  }

  // ---------------------------------------------------------------- counting

  /** The attempts less than one window old, in their order. */
  function Recent(attempts: seq<real>, at: real, window: real): (r: seq<real>)
    ensures |r| <= |attempts|
  {
    if attempts == [] then []
    else Recent(attempts[..|attempts| - 1], at, window)
         + if at - attempts[|attempts| - 1] < window then [attempts[|attempts| - 1]] else []
  }

  /** The number of attempts in the half-open interval from `from` on. */
  function CountWithin(attempts: seq<real>, from: real, window: real): nat {
    if attempts == [] then 0
    else CountWithin(attempts[..|attempts| - 1], from, window)
         + if from <= attempts[|attempts| - 1] < from + window then 1 else 0
  }

  ghost predicate Ascending(times: seq<real>) {
    forall i, j :: 0 <= i < j < |times| ==> times[i] <= times[j]
  }

  ghost predicate NotAfter(times: seq<real>, at: real) {
    forall i :: 0 <= i < |times| ==> times[i] <= at
  }

  /** Whether one more attempt may be made, by the full history of allowed attempts. */
  predicate Admits(history: seq<real>, at: real, window: real, max: real) {
    (|Recent(history, at, window)| as real) < max
  }

  /** The allowed attempts among requests made at some times. */
  function AllowedAmong(requests: seq<real>, window: real, max: real): seq<real> {
    if requests == [] then []
    else
      var history := AllowedAmong(requests[..|requests| - 1], window, max);
      var at := requests[|requests| - 1];
      if Admits(history, at, window, max) then history + [at] else history
  }

  // ---------------------------------------------------------------- the budget

  class RestartBudget {
    const windowMs: real
    const maxRestarts: real
    const baseDelayMs: real
    const delayFactor: real
    var attempts: seq<real>
    /** Every allowed attempt since the last reset, and the last clock reading. */
    ghost var history: seq<real>
    ghost var clock: real

    ghost predicate Valid()
      reads this
    {
      && windowMs >= 1.0 && maxRestarts >= 1.0 && baseDelayMs >= 0.0 && delayFactor >= 1.0
      && NotAfter(history, clock) && attempts == Recent(history, clock, windowMs)
    }

    constructor (options: Options, now: real)
      ensures Valid() && history == [] && clock == now
      ensures windowMs == AtLeast(1.0, options.windowMs, 60000.0)
              && maxRestarts == AtLeast(1.0, options.maxRestarts, 3.0)
      ensures baseDelayMs == AtLeast(0.0, options.baseDelayMs, 1000.0)
              && delayFactor == AtLeast(1.0, options.delayFactor, 3.0)
    {
      windowMs := AtLeast(1.0, options.windowMs, 60000.0);
      maxRestarts := AtLeast(1.0, options.maxRestarts, 3.0);
      baseDelayMs := AtLeast(0.0, options.baseDelayMs, 1000.0);
      delayFactor := AtLeast(1.0, options.delayFactor, 3.0);
      attempts, history, clock := [], [], now;
    }

    /** The delay before the cap. */
    function Backoff(attempt: nat): int
      requires attempt > 0
    {
      Round(baseDelayMs * Pow(delayFactor, attempt - 1))
    }

    function Delay(attempt: nat): int
      requires attempt > 0
    {
      if Backoff(attempt) < MAX_RESTART_DELAY_MS then Backoff(attempt) else MAX_RESTART_DELAY_MS
    }

    /** The pruned list decides as the full history does, and an allowed attempt is recorded. */
    method Note(at: real) returns (v: Verdict)
      requires Valid() && at >= clock
      modifies this`attempts, this`history, this`clock
      ensures Valid() && clock == at
      ensures v.allowed <==> Admits(old(history), at, windowMs, maxRestarts)
      ensures history == if v.allowed then old(history) + [at] else old(history)
      ensures v.attempt == |Recent(history, at, windowMs)|
      ensures v.delayMs == if v.allowed then Delay(v.attempt) else 0
    {
      RecentTwice(history, clock, at, windowMs);
      attempts := Prune(at);
      clock := at;
      if |attempts| as real >= maxRestarts {
        return Verdict(false, |attempts|, 0);
      }
      assert (history + [at])[..|history|] == history;
      attempts := attempts + [at];
      history := history + [at];
      return Verdict(true, |attempts|, Delay(|attempts|));
    }

    /** The filter, as a loop over the recorded attempts. */
    method Prune(at: real) returns (kept: seq<real>)
      ensures kept == Recent(attempts, at, windowMs)
    {
      kept := [];
      for i := 0 to |attempts|
        invariant kept == Recent(attempts[..i], at, windowMs)
      {
        assert attempts[..i + 1][..i] == attempts[..i];
        if at - attempts[i] < windowMs {
          kept := kept + [attempts[i]];
        }
      }
      assert attempts[..|attempts|] == attempts;
    }

    method Reset()
      requires Valid()
      modifies this`attempts, this`history
      ensures Valid() && attempts == [] && history == []
    {
      attempts, history := [], [];
    }
  }

  // ---------------------------------------------------------------- laws

  /** Pruning twice with a later clock is pruning once. */
  lemma {:induction false} RecentTwice(history: seq<real>, earlier: real, later: real, window: real)
    requires earlier <= later
    ensures Recent(Recent(history, earlier, window), later, window) == Recent(history, later, window)
  {
    if history != [] {
      var init, last := history[..|history| - 1], history[|history| - 1];
      RecentTwice(init, earlier, later, window);
      if earlier - last < window {
        var r := Recent(init, earlier, window);
        assert (r + [last])[..|r + [last]| - 1] == r;
      } else {
        assert Recent(history, earlier, window) == Recent(init, earlier, window);
      }
    }
  }

  lemma {:induction false} RecentIsCount(history: seq<real>, at: real, window: real)
    requires NotAfter(history, at) && window > 0.0
    ensures forall from: real :: from <= at < from + window ==>
            CountWithin(history, from, window) <= |Recent(history, at, window)|
  {
    if history != [] {
      var init := history[..|history| - 1];
      forall i | 0 <= i < |init| ensures init[i] <= at {
        assert init[i] == history[i];
      }
      RecentIsCount(init, at, window);
    }
  }

  /** The least integer not below a number. */
  function Ceil(x: real): int {
    if x == x.Floor as real then x.Floor else x.Floor + 1
  }

  predicate IsWhole(x: real) {
    x == x.Floor as real
  }

  lemma {:induction false} AllowedNotAfter(requests: seq<real>, window: real, max: real, at: real)
    requires NotAfter(requests, at)
    ensures NotAfter(AllowedAmong(requests, window, max), at)
  {
    if requests != [] {
      AllowedNotAfter(requests[..|requests| - 1], window, max, at);
    }
  }

  /** No window-long interval holds more allowed attempts than the budget, rounded up. */
  lemma {:induction false} WindowBound(requests: seq<real>, window: real, max: real, from: real)
    requires Ascending(requests) && window > 0.0 && max >= 1.0
    ensures CountWithin(AllowedAmong(requests, window, max), from, window) <= Ceil(max)
  {
    if requests != [] {
      var init, at := requests[..|requests| - 1], requests[|requests| - 1];
      var history := AllowedAmong(init, window, max);
      WindowBound(init, window, max, from);
      if Admits(history, at, window, max) {
        assert (history + [at])[..|history|] == history;
        AllowedNotAfter(init, window, max, at);
        if from <= at < from + window {
          RecentIsCount(history, at, window);
        }
      }
    }
  }

  function Repeated(at: real, n: nat): (r: seq<real>)
    ensures |r| == n && forall i :: 0 <= i < n ==> r[i] == at
  {
    if n == 0 then [] else Repeated(at, n - 1) + [at]
  }

  /** Requests made at one moment are allowed until the budget, rounded up, is used. */
  lemma {:induction false} Saturates(at: real, n: nat, window: real, max: real)
    requires window > 0.0 && max >= 1.0 && n <= Ceil(max)
    ensures AllowedAmong(Repeated(at, n), window, max) == Repeated(at, n)
    ensures CountWithin(Repeated(at, n), at, window) == n && |Recent(Repeated(at, n), at, window)| == n
  {
    if n > 0 {
      Saturates(at, n - 1, window, max);
      assert Repeated(at, n)[..n - 1] == Repeated(at, n - 1);
    }
  }

  /** The budget as announced: never more than `max` allowed attempts in any window. */
  ghost predicate NeverExceeds(window: real, max: real) {
    forall requests: seq<real>, from: real :: Ascending(requests) ==>
      CountWithin(AllowedAmong(requests, window, max), from, window) as real <= max
  }

  /** It holds exactly when the budget is a whole number; a fraction allows one attempt more. */
  lemma NeverExceedsIff(window: real, max: real)
    requires window > 0.0 && max >= 1.0
    ensures NeverExceeds(window, max) <==> IsWhole(max)
  {
    if IsWhole(max) {
      forall requests: seq<real>, from: real | Ascending(requests)
        ensures CountWithin(AllowedAmong(requests, window, max), from, window) as real <= max
      {
        WindowBound(requests, window, max, from);
      }
    } else {
      var requests := Repeated(0.0, Ceil(max));
      Saturates(0.0, Ceil(max), window, max);
      assert CountWithin(AllowedAmong(requests, window, max), 0.0, window) as real > max;
    }
  }

  /** A budget of two and a half: three attempts at one moment are all allowed. */
  method FractionAllowsOneMore() returns (first: Verdict, second: Verdict, third: Verdict, fourth: Verdict)
    ensures first.allowed && second.allowed && third.allowed && !fourth.allowed
  {
    var budget := new RestartBudget(Options(None, Some(2.5), None, None), 0.0);
    RecentOfThree(0.0, 0.0, 0.0, 0.0, 60000.0);
    assert [] + [0.0] == [0.0];
    first := budget.Note(0.0);
    second := budget.Note(0.0);
    third := budget.Note(0.0);
    fourth := budget.Note(0.0);
  }

  // ---------------------------------------------------------------- delays

  lemma {:induction false} PowGrows(x: real, m: nat, n: nat)
    requires x >= 1.0 && m <= n
    ensures 1.0 <= Pow(x, m) <= Pow(x, n)
    decreases n
  {
    if m < n {
      PowGrows(x, m, n - 1);
      Scale(x, 1.0, Pow(x, n - 1));
    } else if m > 0 {
      PowGrows(x, m - 1, m - 1);
      Scale(x, 1.0, Pow(x, m - 1));
    }
  }

  lemma Scale(x: real, y: real, z: real)
    requires x >= y >= 0.0 && z >= 0.0
    ensures x * z >= y * z
  {}

  lemma ScaleRight(b: real, x: real, y: real)
    requires b >= 0.0 && x <= y
    ensures b * x <= b * y
  {}

  /** Delays grow with the attempt number, from zero up to the cap. */
  lemma DelayGrows(budget: RestartBudget, m: nat, n: nat)
    requires budget.Valid() && 0 < m <= n
    ensures 0 <= budget.Delay(m) <= budget.Delay(n) <= MAX_RESTART_DELAY_MS
  {
    PowGrows(budget.delayFactor, m - 1, n - 1);
    ScaleRight(budget.baseDelayMs, 0.0, Pow(budget.delayFactor, m - 1));
    ScaleRight(budget.baseDelayMs, Pow(budget.delayFactor, m - 1), Pow(budget.delayFactor, n - 1));
  }

  /**
   The delay differs from that of an earlier number exactly if the earlier one is below the cap and the
   powers are a rounding step apart. One whole millisecond between the first two delays is enough.
   */
  lemma DelayDiffersIff(budget: RestartBudget, m: nat, n: nat)
    requires budget.Valid() && 0 < m < n
    ensures budget.Delay(m) < budget.Delay(n) <==>
              budget.Backoff(m) < MAX_RESTART_DELAY_MS && budget.Backoff(m) < budget.Backoff(n)
    ensures budget.baseDelayMs * (budget.delayFactor - 1.0) >= 1.0 ==> budget.Backoff(m) < budget.Backoff(n)
    ensures budget.baseDelayMs == 0.0 || budget.delayFactor == 1.0 ==> budget.Backoff(m) == budget.Backoff(n)
  {
    DelayGrows(budget, m, n);
    var f := budget.delayFactor;
    if budget.baseDelayMs * (f - 1.0) >= 1.0 {
      PowGrows(f, 0, m - 1);
      PowGrows(f, m, n - 1);
      Apart(budget.baseDelayMs, f, Pow(f, m - 1), Pow(f, n - 1));
    }
    if budget.delayFactor == 1.0 {
      PowOfOne(m - 1);
      PowOfOne(n - 1);
    }
    if budget.baseDelayMs == 0.0 {
      TimesZero(Pow(budget.delayFactor, m - 1));
      TimesZero(Pow(budget.delayFactor, n - 1));
    }
  }

  lemma Apart(b: real, f: real, p: real, q: real)
    requires b >= 0.0 && b * (f - 1.0) >= 1.0 && p >= 1.0 && f * p <= q
    ensures Round(b * p) < Round(b * q)
  {
    StepAtLeast(b, f, p);
    ScaleRight(b, f * p, q);
    RoundApart(b * p, b * q);
  }

  lemma TimesZero(x: real)
    ensures 0.0 * x == 0.0
  {}

  lemma RoundApart(x: real, y: real)
    requires x + 1.0 <= y
    ensures Round(x) < Round(y)
  {}

  lemma StepAtLeast(b: real, f: real, p: real)
    requires b * (f - 1.0) >= 1.0 && p >= 1.0
    ensures b * (f * p) >= b * p + 1.0
  {
    Scale(b * (f - 1.0), 1.0, p);
    Distribute(b, f, p);
  }

  lemma Distribute(b: real, f: real, p: real)
    ensures b * (f * p) == b * p + (b * (f - 1.0)) * p
  {}

  lemma {:induction false} PowOfOne(n: nat)
    ensures Pow(1.0, n) == 1.0
  {
    if n > 0 {
      PowOfOne(n - 1);
    }
  }

  /** How many times lie after one moment and not after another. */
  function CountBetween(times: seq<real>, after: real, upTo: real): nat {
    if times == [] then 0
    else CountBetween(times[..|times| - 1], after, upTo)
         + if after < times[|times| - 1] <= upTo then 1 else 0
  }

  ghost predicate Between(times: seq<real>, i: int, after: real, upTo: real) {
    0 <= i < |times| && after < times[i] <= upTo
  }

  ghost predicate OneBetween(times: seq<real>, after: real, upTo: real) {
    exists i :: Between(times, i, after, upTo)
  }

  ghost predicate TwoBetween(times: seq<real>, after: real, upTo: real) {
    exists i, j :: i < j && Between(times, i, after, upTo) && Between(times, j, after, upTo)
  }

  lemma BetweenSnoc(times: seq<real>, after: real, upTo: real)
    requires times != []
    ensures var init, last := times[..|times| - 1], Between(times, |times| - 1, after, upTo);
            && (OneBetween(times, after, upTo) <==> OneBetween(init, after, upTo) || last)
            && (TwoBetween(times, after, upTo) <==>
                 TwoBetween(init, after, upTo) || (OneBetween(init, after, upTo) && last))
  {
    var init := times[..|times| - 1];
    assert forall i :: Between(times, i, after, upTo) && i < |times| - 1 ==> Between(init, i, after, upTo);
    assert forall i :: Between(init, i, after, upTo) ==> Between(times, i, after, upTo);
  }

  lemma {:induction false} CountsBetween(times: seq<real>, after: real, upTo: real)
    ensures CountBetween(times, after, upTo) >= 1 <==> OneBetween(times, after, upTo)
    ensures CountBetween(times, after, upTo) >= 2 <==> TwoBetween(times, after, upTo)
  {
    if times != [] {
      CountsBetween(times[..|times| - 1], after, upTo);
      BetweenSnoc(times, after, upTo);
    }
  }

  /** What leaves the window between two moments are the attempts of that stretch. */
  lemma {:induction false} LeavesWindow(times: seq<real>, first: real, second: real, window: real)
    requires first <= second
    ensures |Recent(times, first, window)| - |Recent(times, second, window)|
         == CountBetween(times, first - window, second - window)
  {
    if times != [] {
      LeavesWindow(times[..|times| - 1], first, second, window);
    }
  }

  /**
   The attempt number falls from one allowed attempt to the next exactly when at least two attempts lie
   in the stretch by which the window moved.
   */
  lemma AttemptNumberFallsIff(history: seq<real>, first: real, second: real, window: real)
    requires window > 0.0 && first <= second
    ensures var before, after := history + [first], history + [first, second];
            |Recent(after, second, window)| < |Recent(before, first, window)| <==>
              TwoBetween(before, first - window, second - window)
  {
    var before, after := history + [first], history + [first, second];
    assert after[..|after| - 1] == before;
    LeavesWindow(before, first, second, window);
    CountsBetween(before, first - window, second - window);
  }

  /**
   The delay falls from one allowed attempt to the next exactly when at least two attempts left the
   window in between and the later number has a smaller backoff, below the cap. If the first two delays
   are a millisecond or more apart, the backoffs always differ.
   */
  lemma DelayFallsIff(budget: RestartBudget, history: seq<real>, first: real, second: real)
    requires budget.Valid() && first <= second
    ensures var before, after := history + [first], history + [first, second];
            var m, n := |Recent(before, first, budget.windowMs)|, |Recent(after, second, budget.windowMs)|;
            && m > 0 && n > 0
            && (budget.Delay(n) < budget.Delay(m) <==>
                  && TwoBetween(before, first - budget.windowMs, second - budget.windowMs)
                  && budget.Backoff(n) < MAX_RESTART_DELAY_MS && budget.Backoff(n) < budget.Backoff(m))
            && (budget.baseDelayMs * (budget.delayFactor - 1.0) >= 1.0 ==>
                  (budget.Delay(n) < budget.Delay(m) <==>
                    && TwoBetween(before, first - budget.windowMs, second - budget.windowMs)
                    && budget.Backoff(n) < MAX_RESTART_DELAY_MS))
  {
    var before, after := history + [first], history + [first, second];
    RecentSnoc(history, first, first, budget.windowMs);
    assert after == before + [second];
    RecentSnoc(before, second, second, budget.windowMs);
    var m, n := |Recent(before, first, budget.windowMs)|, |Recent(after, second, budget.windowMs)|;
    AttemptNumberFallsIff(history, first, second, budget.windowMs);
    if n < m {
      DelayDiffersIff(budget, n, m);
    } else {
      DelayGrows(budget, m, n);
    }
  }

  lemma RecentSnoc(history: seq<real>, time: real, at: real, window: real)
    ensures Recent(history + [time], at, window) ==
            Recent(history, at, window) + if at - time < window then [time] else []
  {
    assert (history + [time])[..|history|] == history;
  }

  lemma RecentOfThree(a: real, b: real, c: real, at: real, window: real)
    ensures Recent([a] + [b] + [c], at, window)
         == (if at - a < window then [a] else []) + (if at - b < window then [b] else [])
            + (if at - c < window then [c] else [])
    ensures Recent([a] + [b], at, window) == (if at - a < window then [a] else [])
            + (if at - b < window then [b] else [])
    ensures Recent([a], at, window) == if at - a < window then [a] else []
  {
    assert [a] == [] + [a];
    RecentSnoc([], a, at, window);
    RecentSnoc([a], b, at, window);
    RecentSnoc([a] + [b], c, at, window);
  }

  lemma DefaultCounts()
    ensures |Recent([], 0.0, 60000.0)| == 0 && |Recent([0.0], 0.0, 60000.0)| == 1
    ensures |Recent([0.0] + [0.0], 0.0, 60000.0)| == 2 && |Recent([0.0] + [0.0], 1.0, 60000.0)| == 2
    ensures var history := [0.0] + [0.0] + [1.0];
            && |Recent(history, 1.0, 60000.0)| == 3 && |Recent(history, 60000.0, 60000.0)| == 1
            && |Recent(history + [60000.0], 60000.0, 60000.0)| == 2
  {
    hide Recent;
    RecentOfThree(0.0, 0.0, 1.0, 0.0, 60000.0);
    RecentOfThree(0.0, 0.0, 1.0, 1.0, 60000.0);
    RecentOfThree(0.0, 0.0, 1.0, 60000.0, 60000.0);
    RecentSnoc([0.0] + [0.0] + [1.0], 60000.0, 60000.0, 60000.0);
  }

  lemma DefaultDelays(budget: RestartBudget)
    requires budget.baseDelayMs == 1000.0 && budget.delayFactor == 3.0
    ensures budget.Delay(2) == 3000 && budget.Delay(3) == 9000
  {
    assert Pow(3.0, 1) == 3.0 && Pow(3.0, 2) == 9.0;
  }

  /**
   At the defaults: four attempts, of which the first two leave the window together. The last two lie
   within one window, and the delay falls from nine seconds to three.
   */
  method DelayFallsAtDefaults() returns (earlier: real, third: Verdict, later: real, fourth: Verdict)
    ensures third == Verdict(true, 3, 9000) && fourth == Verdict(true, 2, 3000)
    ensures earlier <= later < earlier + 60000.0
  {
    var budget := new RestartBudget(Options(None, None, None, None), 0.0);
    DefaultCounts();
    DefaultDelays(budget);
    assert [] + [0.0] == [0.0];
    var _ := budget.Note(0.0);
    var _ := budget.Note(0.0);
    earlier, later := 1.0, 60000.0;
    third := budget.Note(earlier);
    fourth := budget.Note(later);
  }
}
