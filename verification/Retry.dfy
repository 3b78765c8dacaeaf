/**
  RetryHelper of utils.go. The outcomes of the calls of fn and what the context does during each
  wait are given; a wait is recorded by its length. The product of a delay and the backoff factor is
  rounded as float64 arithmetic rounds, then truncated; a product outside int64 becomes the smallest
  int64, which is what the conversion yields on amd64 (Go leaves it to the implementation).
 */
module Retry {
  import opened Common

  /** What one call of fn returns. */
  datatype Attempt = Success | Failure(error: string)

  /** RetryConfig, and the rounding of the machine that runs it. */
  datatype Config = Config(
    maxRetries: int,
    initialDelay: int,
    maxDelay: int,
    backoffFactor: real,
    retryable: string -> bool,
    round: real -> real)

  function Truncated(x: real): int {
    if x >= 0.0 then x.Floor else -((-x).Floor)
  }

  function Times(x: real, y: real): real {
    x * y
  }

  /** The product of a delay and the backoff factor as float64 holds it. */
  function Product(cfg: Config, delay: int): real {
    cfg.round(Times(cfg.round(delay as real), cfg.backoffFactor))
  }

  function Scaled(cfg: Config, delay: int): int {
    var x := Truncated(Product(cfg, delay));
    if MIN_INT64 <= x <= MAX_INT64 then x else MIN_INT64
  }

  function NextDelay(cfg: Config, delay: int): int {
    var d := Scaled(cfg, delay);
    if d > cfg.maxDelay then cfg.maxDelay else d
  }

  /** The length of the k-th wait, counting from 0. */
  function Delay(cfg: Config, k: nat): int {
    if k == 0 then cfg.initialDelay else NextDelay(cfg, Delay(cfg, k - 1))
  }

  function Waits(cfg: Config, n: nat): (w: seq<int>)
    ensures |w| == n && forall k :: 0 <= k < n ==> w[k] == Delay(cfg, k)
  {
    if n == 0 then [] else Waits(cfg, n - 1) + [Delay(cfg, n - 1)]
  }

  /** No further call follows this outcome. */
  predicate Stops(cfg: Config, a: Attempt) {
    a.Success? || !cfg.retryable(a.error)
  }

  function ErrorOf(a: Attempt): Option<string> {
    match a
    case Success => None
    case Failure(e) => Some(e)
  }

  /** How often Do calls fn from the given attempt on. */
  function Calls(cfg: Config, outcomes: nat -> Attempt, attempt: nat): nat
    decreases cfg.maxRetries - attempt
  {
    if attempt > cfg.maxRetries then 0
    else if Stops(cfg, outcomes(attempt)) then 1
    else 1 + Calls(cfg, outcomes, attempt + 1)
  }

  function LastOutcome(outcomes: nat -> Attempt, n: nat): Option<string> {
    if n == 0 then None else ErrorOf(outcomes(n - 1))
  }

  /** What Do returns: the outcome of its last call. */
  function Result(cfg: Config, outcomes: nat -> Attempt): Option<string> {
    LastOutcome(outcomes, Calls(cfg, outcomes, 0))
  }

  method Do(cfg: Config, outcomes: nat -> Attempt) returns (result: Option<string>, calls: nat, waits: seq<int>)
    ensures calls == Calls(cfg, outcomes, 0)
    ensures result == Result(cfg, outcomes)
    ensures waits == Waits(cfg, if calls == 0 then 0 else calls - 1)
  {
    var lastErr := None;
    var delay := cfg.initialDelay;
    var attempt := 0;
    calls, waits := 0, [];
    while attempt <= cfg.maxRetries
      invariant calls == attempt && Calls(cfg, outcomes, 0) == attempt + Calls(cfg, outcomes, attempt)
      invariant waits == Waits(cfg, if attempt == 0 then 0 else attempt - 1)
      invariant delay == Delay(cfg, if attempt == 0 then 0 else attempt - 1)
      invariant lastErr == LastOutcome(outcomes, attempt)
      decreases cfg.maxRetries - attempt
    {
      if attempt > 0 {
        waits := waits + [delay];
        delay := NextDelay(cfg, delay);
      }
      var err := outcomes(attempt);
      calls := calls + 1;
      if err.Success? {
        return None, calls, waits;
      }
      lastErr := Some(err.error);
      if !cfg.retryable(err.error) {
        break;
      }
      attempt := attempt + 1;
    }
    return lastErr, calls, waits;
  }

  /** The number of waits, up to n, that end before the context gives up. */
  function WaitsKept(givesUp: nat -> Option<string>, n: nat): (k: nat)
    ensures k <= n && (forall i :: 0 <= i < k ==> givesUp(i).None?) && (k < n ==> givesUp(k).Some?)
  {
    if n == 0 then 0
    else
      var k := WaitsKept(givesUp, n - 1);
      if k < n - 1 || givesUp(k).Some? then k else n
  }

  /** The first wait that the context ends is the last one. */
  lemma {:induction false} WaitsKeptIs(givesUp: nat -> Option<string>, k: nat, n: nat)
    requires k < n && WaitsKept(givesUp, k) == k && givesUp(k).Some?
    ensures WaitsKept(givesUp, n) == k
    decreases n
  {
    if n > k + 1 {
      WaitsKeptIs(givesUp, k, n - 1);
    }
  }

  /** How often DoWithContext calls fn when Do would call it n times. */
  function CallsKept(givesUp: nat -> Option<string>, n: nat): nat {
    if n == 0 then 0 else 1 + WaitsKept(givesUp, n - 1)
  }

  lemma CallsKeptIs(givesUp: nat -> Option<string>, k: nat, n: nat)
    requires 0 < k < n && CallsKept(givesUp, k) == k && givesUp(k - 1).Some?
    ensures CallsKept(givesUp, n) == k
  {
    WaitsKeptIs(givesUp, k - 1, n - 1);
  }

  lemma CallsKeptGrow(givesUp: nat -> Option<string>, k: nat)
    requires CallsKept(givesUp, k) == k && (k > 0 ==> givesUp(k - 1).None?)
    ensures CallsKept(givesUp, k + 1) == k + 1
  {
  }

  lemma CallsFrom(cfg: Config, outcomes: nat -> Attempt, attempt: nat)
    requires attempt <= cfg.maxRetries
    ensures Calls(cfg, outcomes, attempt) == 1 + if Stops(cfg, outcomes(attempt)) then 0 else Calls(cfg, outcomes, attempt + 1)
  {
  }

  /**
    givesUp(k) is the context's error when the select of the k-th wait leaves through ctx.Done().
    The calls of fn are those of Do, cut off at the first wait that the context ends; the result is
    then the context's error, and otherwise that of Do.
   */
  method DoWithContext(cfg: Config, outcomes: nat -> Attempt, givesUp: nat -> Option<string>)
    returns (result: Option<string>, calls: nat, waits: seq<int>)
    ensures calls == CallsKept(givesUp, Calls(cfg, outcomes, 0))
    ensures 0 < calls < Calls(cfg, outcomes, 0) ==> result == givesUp(calls - 1)
    ensures calls == Calls(cfg, outcomes, 0) ==> result == Result(cfg, outcomes)
    ensures waits == Waits(cfg, if calls == 0 then 0 else calls - 1)
  {
    var lastErr := None;
    var delay := cfg.initialDelay;
    var attempt := 0;
    calls, waits := 0, [];
    while attempt <= cfg.maxRetries
      invariant calls == attempt && Calls(cfg, outcomes, 0) == attempt + Calls(cfg, outcomes, attempt)
      invariant waits == Waits(cfg, if attempt == 0 then 0 else attempt - 1)
      invariant delay == Delay(cfg, if attempt == 0 then 0 else attempt - 1)
      invariant lastErr == LastOutcome(outcomes, attempt)
      invariant CallsKept(givesUp, attempt) == attempt
      decreases cfg.maxRetries - attempt
    {
      CallsFrom(cfg, outcomes, attempt);
      if attempt > 0 {
        if givesUp(attempt - 1).Some? {
          CallsKeptIs(givesUp, attempt, Calls(cfg, outcomes, 0));
          return givesUp(attempt - 1), calls, waits;
        }
        waits := waits + [delay];
        delay := NextDelay(cfg, delay);
      }
      CallsKeptGrow(givesUp, attempt);
      var err := outcomes(attempt);
      calls := calls + 1;
      if err.Success? {
        return None, calls, waits;
      }
      lastErr := Some(err.error);
      if !cfg.retryable(err.error) {
        break;
      }
      attempt := attempt + 1;
    }
    return lastErr, calls, waits;
  }

  /* ---- How often fn is called ---- */

  /**
    With MaxRetries not negative, fn is called up to the first outcome that is a success or an error
    that is not retryable, and at most MaxRetries + 1 times; with a negative MaxRetries it is never
    called, and Do reports success.
   */
  lemma {:induction false} CallsUpToFirstStop(cfg: Config, outcomes: nat -> Attempt, attempt: nat)
    ensures var n := Calls(cfg, outcomes, attempt);
            && (n == 0 <==> attempt > cfg.maxRetries)
            && (n > 0 ==> attempt + n <= cfg.maxRetries + 1)
            && (forall k: nat :: attempt <= k < attempt + n - 1 ==> outcomes(k).Failure? && cfg.retryable(outcomes(k).error))
            && (n > 0 ==>
                  || outcomes(attempt + n - 1).Success?
                  || !cfg.retryable(outcomes(attempt + n - 1).error)
                  || attempt + n == cfg.maxRetries + 1)
    decreases cfg.maxRetries - attempt
  {
    if attempt <= cfg.maxRetries && !Stops(cfg, outcomes(attempt)) {
      CallsUpToFirstStop(cfg, outcomes, attempt + 1);
    }
  }

  /** What Do returns is what its last call returned: nil for a success, and otherwise that call's error. */
  lemma ResultIs(cfg: Config, outcomes: nat -> Attempt)
    ensures var n := Calls(cfg, outcomes, 0);
            && (n == 0 ==> Result(cfg, outcomes) == None)
            && (n > 0 && outcomes(n - 1).Success? ==> Result(cfg, outcomes) == None)
            && (n > 0 && outcomes(n - 1).Failure? ==> Result(cfg, outcomes) == Some(outcomes(n - 1).error))
  {
  }

  /** Do reports success exactly when one of its calls succeeded, or when it made none at all. */
  lemma NilIffSomeSuccess(cfg: Config, outcomes: nat -> Attempt)
    ensures Result(cfg, outcomes).None?
            <==> cfg.maxRetries < 0 || exists k: nat :: k < Calls(cfg, outcomes, 0) && outcomes(k).Success?
  {
    CallsUpToFirstStop(cfg, outcomes, 0);
    var n := Calls(cfg, outcomes, 0);
    assert forall k: nat :: k < n && outcomes(k).Success? ==> k == n - 1;
  }

  /**
    DoWithContext refines Do: its calls are a non-empty prefix of those of Do, a strict one exactly
    when the context ends one of the waits of Do; without that, Do and DoWithContext agree.
   */
  lemma ContextCutsShort(cfg: Config, outcomes: nat -> Attempt, givesUp: nat -> Option<string>)
    requires cfg.maxRetries >= 0
    ensures var n := Calls(cfg, outcomes, 0);
            var calls := CallsKept(givesUp, n);
            && 1 <= calls <= n
            && (calls < n <==> exists k: nat :: k < n - 1 && givesUp(k).Some?)
            && (forall k: nat :: k < calls - 1 ==> givesUp(k).None?) && (calls < n ==> givesUp(calls - 1).Some?)
            && Waits(cfg, calls - 1) == Waits(cfg, n - 1)[..calls - 1]
  {
    CallsUpToFirstStop(cfg, outcomes, 0);
  }

  /* ---- How long it waits ---- */

  function Sum(s: seq<int>): int
    decreases |s|
  {
    if s == [] then 0 else Sum(s[..|s| - 1]) + s[|s| - 1]
  }

  /** Only the first wait can exceed the cap, for every configuration. */
  lemma OnlyFirstExceeds(cfg: Config, k: nat)
    requires k > 0
    ensures Delay(cfg, k) <= cfg.maxDelay
  {
  }

  lemma {:induction false} SumBound(w: seq<int>, m: int)
    requires w != [] && forall k :: 1 <= k < |w| ==> w[k] <= m
    ensures Sum(w) <= w[0] + (|w| - 1) * m
    decreases |w|
  {
    var init := w[..|w| - 1];
    if init == [] {
      assert Sum(init) == 0;
    } else {
      SumBound(init, m);
      assert (|w| - 1) * m == (|w| - 2) * m + m;
    }
  }

  function Max(a: int, b: int): int {
    if a >= b then a else b
  }

  function Min(a: int, b: int): int {
    if a <= b then a else b
  }

  /** The time spent in waits: a wait that is not positive ends at once. */
  function Elapsed(waits: seq<int>): (t: seq<int>)
    ensures |t| == |waits| && forall k :: 0 <= k < |t| ==> t[k] == Max(0, waits[k])
  {
    seq(|waits|, k requires 0 <= k < |waits| => Max(0, waits[k]))
  }

  /**
    The total of n waits, for every configuration: of their lengths, and of the time they take, which
    differs where a length is negative.
   */
  lemma TotalWait(cfg: Config, n: nat)
    requires n > 0
    ensures Sum(Waits(cfg, n)) <= cfg.initialDelay + (n - 1) * cfg.maxDelay
    ensures Sum(Elapsed(Waits(cfg, n))) <= Max(0, cfg.initialDelay) + (n - 1) * Max(0, cfg.maxDelay)
  {
    var w := Waits(cfg, n);
    forall k | 1 <= k < n ensures w[k] <= cfg.maxDelay {
      OnlyFirstExceeds(cfg, k);
    }
    SumBound(w, cfg.maxDelay);
    SumBound(Elapsed(w), Max(0, cfg.maxDelay));
  }

  /** 2^53: every integer up to here is a float64. */
  const EXACT := 0x20_0000_0000_0000

  predicate InOrder(round: real -> real, x: real, y: real) {
    round(x) <= round(y)
  }

  predicate Keeps(round: real -> real, n: int) {
    round(n as real) == n as real
  }

  predicate Idempotent(round: real -> real, x: real) {
    round(round(x)) == round(x)
  }

  /** round is off by at most one part in 2^53 of x; beyond 2^64 nothing is used but that it loses no more. */
  predicate Near(round: real -> real, x: real) {
    && x - x / EXACT as real <= round(x)
    && (x <= 18446744073709551616.0 ==> round(x) <= x + x / EXACT as real)
  }

  /** What is used of the rounding of IEEE 754 binary64, to nearest. */
  ghost predicate Binary64(round: real -> real) {
    && (forall x: real, y: real :: x <= y ==> InOrder(round, x, y))
    && (forall n: int :: -EXACT <= n <= EXACT ==> Keeps(round, n))
    && (forall x: real :: Idempotent(round, x))
    && (forall x: real :: x >= 1.0 ==> Near(round, x))
  }

  /** float64(d) * BackoffFactor < 1<<63 */
  predicate BelowTop(cfg: Config, d: int) {
    Product(cfg, d) < (MAX_INT64 + 1) as real
  }

  /** The product of the cap is not too large for an int64. */
  predicate CapConverts(cfg: Config) {
    BelowTop(cfg, cfg.maxDelay)
  }

  ghost predicate NeverDecreases(cfg: Config) {
    forall k: nat :: Delay(cfg, k) <= Delay(cfg, k + 1)
  }

  lemma TimesNotNegative(a: real, b: real)
    requires a >= 0.0 && b >= 0.0
    ensures Times(a, b) >= 0.0
  {
  }

  lemma TimesGrows(a: real, b: real, x: real, y: real)
    requires 0.0 <= a <= b && 0.0 <= x <= y
    ensures 0.0 <= Times(a, x) <= Times(a, y) <= Times(b, y)
  {
    TimesNotNegative(a, x);
    TimesNotNegative(a, y - x);
    TimesNotNegative(b - a, y);
    assert a * y == a * x + a * (y - x);
    assert b * y == a * y + (b - a) * y;
  }

  lemma TimesKeepsOrder(x: real, y: real, f: real)
    requires x <= y && f >= 0.0
    ensures Times(x, f) <= Times(y, f)
  {
    TimesNotNegative(y - x, f);
    assert y * f == x * f + (y - x) * f;
  }

  lemma TruncatedKeepsOrder(x: real, y: real)
    requires x <= y
    ensures Truncated(x) <= Truncated(y)
  {
  }

  lemma ProductOfZero(cfg: Config)
    requires Binary64(cfg.round)
    ensures Product(cfg, 0) == 0.0
  {
    assert Keeps(cfg.round, 0);
    assert Times(0 as real, cfg.backoffFactor) == 0 as real;
  }

  /** With a factor that is not negative, products grow with the delay. */
  lemma ProductsGrow(cfg: Config, d: int, e: int)
    requires Binary64(cfg.round) && cfg.backoffFactor >= 0.0 && d <= e
    ensures Product(cfg, d) <= Product(cfg, e)
  {
    var x, y, f := cfg.round(d as real), cfg.round(e as real), cfg.backoffFactor;
    assert InOrder(cfg.round, d as real, e as real);
    TimesKeepsOrder(x, y, f);
    assert InOrder(cfg.round, Times(x, f), Times(y, f));
  }

  /** And so do the next delays, up to one whose product is not too large to convert. */
  lemma NextKeepsOrder(cfg: Config, d: int, e: int)
    requires Binary64(cfg.round) && cfg.backoffFactor >= 0.0 && d <= e && BelowTop(cfg, e)
    ensures BelowTop(cfg, d) && NextDelay(cfg, d) <= NextDelay(cfg, e)
  {
    ProductsGrow(cfg, d, e);
    TruncatedKeepsOrder(Product(cfg, d), Product(cfg, e));
  }

  /** From an initial delay that does not shrink at once, the delays grow up to any bound they cannot pass. */
  lemma {:induction false} GrowsUpTo(cfg: Config, top: int, k: nat)
    requires Binary64(cfg.round) && cfg.backoffFactor >= 0.0 && BelowTop(cfg, top)
    requires cfg.initialDelay <= NextDelay(cfg, cfg.initialDelay) && cfg.initialDelay <= top && NextDelay(cfg, top) <= top
    ensures cfg.initialDelay <= Delay(cfg, k) <= Delay(cfg, k + 1) <= top
  {
    var d := Delay(cfg, k);
    if k > 0 {
      GrowsUpTo(cfg, top, k - 1);
      NextKeepsOrder(cfg, d, top);
      NextKeepsOrder(cfg, Delay(cfg, k - 1), d);
    }
    NextKeepsOrder(cfg, d, top);
  }

  /**
    For every factor that is not negative, and every cap whose product can be converted, the waits
    never decrease if and only if neither the cap nor the first product is shorter than the initial delay.
   */
  lemma NeverDecreasesIff(cfg: Config)
    requires Binary64(cfg.round) && cfg.backoffFactor >= 0.0 && CapConverts(cfg)
    ensures NeverDecreases(cfg)
            <==> cfg.initialDelay <= cfg.maxDelay && cfg.initialDelay <= Scaled(cfg, cfg.initialDelay)
  {
    assert Delay(cfg, 0) == cfg.initialDelay && Delay(cfg, 0 + 1) == NextDelay(cfg, cfg.initialDelay);
    if cfg.initialDelay <= NextDelay(cfg, cfg.initialDelay) {
      forall k: nat ensures Delay(cfg, k) <= Delay(cfg, k + 1) {
        GrowsUpTo(cfg, cfg.maxDelay, k);
      }
    }
  }

  /** A delay that is its own successor has a product that can be converted. */
  lemma FixedConverts(cfg: Config, d: int)
    requires Binary64(cfg.round) && cfg.backoffFactor >= 0.0 && NextDelay(cfg, d) == d
    ensures BelowTop(cfg, d)
  {
    ProductOfZero(cfg);
    if d <= 0 {
      ProductsGrow(cfg, d, 0);
    }
  }

  lemma {:induction false} GrowsUntilRepeated(cfg: Config, n: nat)
    requires forall k: nat :: k < n ==> Delay(cfg, k) < Delay(cfg, k + 1)
    ensures Delay(cfg, n) >= cfg.initialDelay + n
  {
    if n > 0 {
      GrowsUntilRepeated(cfg, n - 1);
      assert Delay(cfg, n - 1) < Delay(cfg, n - 1 + 1);
    }
  }

  /** Waits that never decrease come to a delay that is its own successor. */
  lemma Repeats(cfg: Config) returns (d: int)
    requires NeverDecreases(cfg)
    ensures cfg.initialDelay <= d <= cfg.maxDelay && NextDelay(cfg, d) == d
  {
    assert Delay(cfg, 0) <= Delay(cfg, 0 + 1);
    OnlyFirstExceeds(cfg, 1);
    var n: nat := cfg.maxDelay - cfg.initialDelay + 1;
    if forall k: nat :: k < n ==> Delay(cfg, k) < Delay(cfg, k + 1) {
      GrowsUntilRepeated(cfg, n);
      OnlyFirstExceeds(cfg, n);
      assert false;
    }
    var k: nat :| k < n && Delay(cfg, k) >= Delay(cfg, k + 1);
    assert Delay(cfg, k) <= Delay(cfg, k + 1);
    NotBelowFirst(cfg, k);
    OnlyFirstExceeds(cfg, k + 1);
    d := Delay(cfg, k);
  }

  lemma {:induction false} NotBelowFirst(cfg: Config, k: nat)
    requires NeverDecreases(cfg)
    ensures cfg.initialDelay <= Delay(cfg, k)
  {
    if k > 0 {
      NotBelowFirst(cfg, k - 1);
      assert Delay(cfg, k - 1) <= Delay(cfg, k - 1 + 1);
    }
  }

  /**
    For every factor that is not negative and every pair of delays, whether or not products can be
    converted: the waits never decrease if and only if the second is not shorter than the first and
    some delay from the first up to the cap is its own successor.
   */
  lemma NeverDecreasesIffFixed(cfg: Config)
    requires Binary64(cfg.round) && cfg.backoffFactor >= 0.0
    ensures NeverDecreases(cfg)
            <==> cfg.initialDelay <= NextDelay(cfg, cfg.initialDelay)
                 && exists d :: cfg.initialDelay <= d <= cfg.maxDelay && NextDelay(cfg, d) == d
  {
    if NeverDecreases(cfg) {
      assert Delay(cfg, 0) <= Delay(cfg, 0 + 1);
      var d := Repeats(cfg);
    }
    if cfg.initialDelay <= NextDelay(cfg, cfg.initialDelay) {
      if d :| cfg.initialDelay <= d <= cfg.maxDelay && NextDelay(cfg, d) == d {
        FixedConverts(cfg, d);
        forall k: nat ensures Delay(cfg, k) <= Delay(cfg, k + 1) {
          GrowsUpTo(cfg, d, k);
        }
      }
    }
  }

  /** A negative factor turns the sign, or leaves int64. */
  lemma NegativeFactorTurns(cfg: Config, d: int)
    requires Binary64(cfg.round) && cfg.backoffFactor < 0.0
    ensures d > 0 ==> Scaled(cfg, d) <= 0
    ensures d == 0 ==> Scaled(cfg, d) == 0
    ensures d < 0 ==> Scaled(cfg, d) >= 0 || Scaled(cfg, d) == MIN_INT64
  {
    var x, f := cfg.round(d as real), cfg.backoffFactor;
    ProductOfZero(cfg);
    assert Keeps(cfg.round, 0);
    if d > 0 {
      assert InOrder(cfg.round, 0 as real, d as real);
      TimesKeepsOrder(0.0, x, -f);
      assert InOrder(cfg.round, Times(x, f), 0 as real);
    } else if d < 0 {
      assert InOrder(cfg.round, d as real, 0 as real);
      TimesKeepsOrder(x, 0.0, -f);
      assert InOrder(cfg.round, 0 as real, Times(x, f));
    }
  }

  lemma {:induction false} StaysAtSecond(cfg: Config, k: nat)
    requires Delay(cfg, 1) == Delay(cfg, 2)
    ensures Delay(cfg, k + 1) == Delay(cfg, 1)
  {
    if k > 0 {
      StaysAtSecond(cfg, k - 1);
    }
  }

  /** For a negative factor, the waits never decrease if and only if they stay at the second. */
  lemma NegativeFactorIff(cfg: Config)
    requires Binary64(cfg.round) && cfg.backoffFactor < 0.0
    requires cfg.initialDelay >= MIN_INT64 && cfg.maxDelay >= MIN_INT64
    ensures NeverDecreases(cfg) <==> Delay(cfg, 0) <= Delay(cfg, 1) == Delay(cfg, 2)
  {
    NegativeFactorTurns(cfg, Delay(cfg, 0));
    NegativeFactorTurns(cfg, Delay(cfg, 1));
    if NeverDecreases(cfg) {
      assert Delay(cfg, 0) <= Delay(cfg, 0 + 1) && Delay(cfg, 1) <= Delay(cfg, 1 + 1);
    }
    if Delay(cfg, 0) <= Delay(cfg, 1) == Delay(cfg, 2) {
      forall k: nat ensures Delay(cfg, k) <= Delay(cfg, k + 1) {
        StaysAtSecond(cfg, k);
        if k > 0 {
          StaysAtSecond(cfg, k - 1);
        }
      }
    }
  }

  /* ---- The next wait, for every factor ---- */

  /**
    The next wait is the product of the wait and the factor, truncated and capped, for every factor:
    here for a wait that float64 holds and a product that needs no rounding. t is that product without
    its fraction.
   */
  lemma NextWaitExact(cfg: Config, k: nat, x: real, t: int)
    requires Binary64(cfg.round) && -EXACT <= Delay(cfg, k) <= EXACT
    requires x == Delay(cfg, k) as real * cfg.backoffFactor && cfg.round(x) == x
    requires if x >= 0.0 then t as real <= x < (t + 1) as real else (t - 1) as real < x <= t as real
    ensures Delay(cfg, 0) == cfg.initialDelay
    ensures -0x8000_0000_0000_0000 <= t < 0x8000_0000_0000_0000 ==> Delay(cfg, k + 1) == Min(t, cfg.maxDelay)
    ensures t < -0x8000_0000_0000_0000 || t >= 0x8000_0000_0000_0000 ==> Delay(cfg, k + 1) == Min(-0x8000_0000_0000_0000, cfg.maxDelay)
  {
    var d := Delay(cfg, k);
    assert Keeps(cfg.round, d);
    assert Times(d as real, cfg.backoffFactor) == x;
    assert Truncated(x) == t;
  }

  /** And where the product is rounded, it is off by one part in 2^53 at most, before it is truncated and capped. */
  lemma NextWaitNear(cfg: Config, k: nat, x: real)
    requires Binary64(cfg.round) && 0 <= Delay(cfg, k) <= EXACT
    requires x == Delay(cfg, k) as real * cfg.backoffFactor && 1.0 <= x <= 4611686018427387904.0
    ensures Min((x - x / EXACT as real).Floor, cfg.maxDelay) <= Delay(cfg, k + 1) <= Min((x + x / EXACT as real).Floor, cfg.maxDelay)
  {
    var d := Delay(cfg, k);
    assert Keeps(cfg.round, d) && Near(cfg.round, x);
    assert Times(d as real, cfg.backoffFactor) == x;
    TruncatedKeepsOrder(x - x / EXACT as real, cfg.round(x));
    TruncatedKeepsOrder(cfg.round(x), x + x / EXACT as real);
  }

  /* ---- Factors from 1 on ---- */

  /** float64(d) >= d. */
  predicate NotRoundedDown(cfg: Config, d: int) {
    d as real <= cfg.round(d as real)
  }

  lemma ProductAtLeast(cfg: Config, d: int)
    requires Binary64(cfg.round) && cfg.backoffFactor >= 1.0 && d >= 0 && NotRoundedDown(cfg, d)
    ensures d as real <= Product(cfg, d)
  {
    var x := cfg.round(d as real);
    TimesGrows(x, x, 1.0, cfg.backoffFactor);
    assert Times(x, 1.0) == x;
    assert Idempotent(cfg.round, d as real) && InOrder(cfg.round, x, Times(x, cfg.backoffFactor));
  }

  lemma Converts(x: real, d: int)
    requires 0 <= d && d as real <= x < (MAX_INT64 + 1) as real
    ensures d <= Truncated(x) <= MAX_INT64 && Truncated(x) == x.Floor
  {
  }

  /**
    For every factor from 1 on, the waits never decrease and never exceed the cap if the initial delay
    is not rounded down, as no integer up to 2^53 is.
   */
  lemma WaitsGrow(cfg: Config, k: nat)
    requires Binary64(cfg.round) && cfg.backoffFactor >= 1.0 && CapConverts(cfg)
    requires 0 <= cfg.initialDelay <= cfg.maxDelay
    requires cfg.initialDelay <= EXACT || NotRoundedDown(cfg, cfg.initialDelay)
    ensures cfg.initialDelay <= Delay(cfg, k) <= Delay(cfg, k + 1) <= cfg.maxDelay
  {
    var d := cfg.initialDelay;
    assert d <= EXACT ==> Keeps(cfg.round, d);
    ProductAtLeast(cfg, d);
    ProductsGrow(cfg, d, cfg.maxDelay);
    Converts(Product(cfg, d), d);
    GrowsUpTo(cfg, cfg.maxDelay, k);
  }

  /** With the factor 1, the waits never decrease if and only if float64(InitialDelay) >= InitialDelay. */
  lemma FactorOneIff(cfg: Config)
    requires Binary64(cfg.round) && cfg.backoffFactor == 1.0 && CapConverts(cfg)
    requires 0 <= cfg.initialDelay <= cfg.maxDelay
    ensures NeverDecreases(cfg) <==> NotRoundedDown(cfg, cfg.initialDelay)
  {
    var d := cfg.initialDelay;
    assert Times(cfg.round(d as real), 1.0) == cfg.round(d as real) && Idempotent(cfg.round, d as real);
    NeverDecreasesIff(cfg);
    ProductOfZero(cfg);
    ProductsGrow(cfg, 0, d);
    ProductsGrow(cfg, d, cfg.maxDelay);
    Converts(Product(cfg, d), 0);
  }

  /** 2^53 + 1 ns, about 104 days, is rounded down: then the second wait is shorter than the first. */
  lemma BeyondExactShrinks(cfg: Config)
    requires Binary64(cfg.round) && cfg.round((EXACT + 1) as real) == EXACT as real
    requires cfg.backoffFactor == 1.0 && cfg.initialDelay == cfg.maxDelay == EXACT + 1
    ensures CapConverts(cfg) && Delay(cfg, 1) == EXACT < Delay(cfg, 0) && !NeverDecreases(cfg)
  {
    assert Keeps(cfg.round, EXACT);
    assert Times(EXACT as real, 1.0) == EXACT as real;
    FactorOneIff(cfg);
  }

  /* ---- Natural factors ---- */

  /** A backoff that never leaves the exact integers before it is capped. */
  ghost predicate InRange(cfg: Config) {
    && Binary64(cfg.round)
    && cfg.backoffFactor >= 1.0
    && 0 <= cfg.initialDelay <= cfg.maxDelay <= EXACT
    && CapConverts(cfg)
  }

  lemma ScaledGrows(cfg: Config, d: int)
    requires InRange(cfg) && 0 <= d <= cfg.maxDelay
    ensures Scaled(cfg, d) == Product(cfg, d).Floor >= d
  {
    assert Keeps(cfg.round, d);
    ProductsGrow(cfg, d, cfg.maxDelay);
    ProductAtLeast(cfg, d);
    Converts(Product(cfg, d), d);
  }

  function Power(f: nat, k: nat): nat {
    if k == 0 then 1 else f * Power(f, k - 1)
  }

  lemma CappedProduct(x: int, f: nat, m: int)
    requires 0 <= x && f >= 1 && 0 <= m
    ensures Min(Min(x, m) * f, m) == Min(x * f, m)
  {
    if x > m {
      assert m * (f - 1) >= 0 && (x - m) * f >= 0;
    }
  }

  lemma CappedPower(d: nat, f: nat, q: nat, m: nat)
    requires f >= 1
    ensures Min(Min(d * q, m) * f, m) == Min(d * (f * q), m)
  {
    assert d * (f * q) == (d * q) * f;
    CappedProduct(d * q, f, m);
  }

  lemma ExactProduct(cfg: Config, f: nat, d: nat)
    requires Binary64(cfg.round) && cfg.backoffFactor == f as real && d <= EXACT
    ensures Product(cfg, d) == cfg.round((d * f) as real)
  {
    assert Keeps(cfg.round, d);
    assert Times(d as real, f as real) == (d * f) as real;
  }

  /** A product that is rounded beyond 2^53 is capped anyway. */
  lemma RoundedIsCapped(round: real -> real, p: nat, m: nat)
    requires Binary64(round) && m <= EXACT && round(p as real) < (MAX_INT64 + 1) as real
    ensures Min(round(p as real).Floor, m) == Min(p, m)
  {
    if p <= EXACT {
      assert Keeps(round, p);
    } else {
      assert Keeps(round, EXACT) && InOrder(round, EXACT as real, p as real);
    }
  }

  /** With a natural factor the next delay is exact, or capped. */
  lemma NextIsExact(cfg: Config, f: nat, d: nat)
    requires InRange(cfg) && cfg.backoffFactor == f as real && d <= cfg.maxDelay
    ensures NextDelay(cfg, d) == Min(d * f, cfg.maxDelay)
  {
    ScaledGrows(cfg, d);
    ProductsGrow(cfg, d, cfg.maxDelay);
    ExactProduct(cfg, f, d);
    RoundedIsCapped(cfg.round, d * f, cfg.maxDelay);
  }

  /** The k-th wait, from 0, is the smaller of initialDelay * f^k and the cap. */
  lemma {:induction false} WaitsAreCappedGeometric(cfg: Config, f: nat, k: nat)
    requires InRange(cfg) && cfg.backoffFactor == f as real
    ensures Delay(cfg, k) == Min(cfg.initialDelay * Power(f, k), cfg.maxDelay)
  {
    if k == 0 {
      assert cfg.initialDelay * 1 == cfg.initialDelay;
    } else {
      WaitsAreCappedGeometric(cfg, f, k - 1);
      WaitsGrow(cfg, k - 1);
      NextIsExact(cfg, f, Delay(cfg, k - 1));
      CappedPower(cfg.initialDelay, f, Power(f, k - 1), cfg.maxDelay);
    }
  }

  /* ---- Factors from 2 on ---- */

  /** A schedule with a factor from 2 on, and a positive initial delay within the cap. */
  ghost predicate Doubling(cfg: Config) {
    Binary64(cfg.round) && cfg.backoffFactor >= 2.0 && 0 < cfg.initialDelay <= cfg.maxDelay <= MAX_INT64
  }

  /** Rounding does not keep such a schedule from growing. */
  lemma ProductIsLarger(cfg: Config, d: int)
    requires Doubling(cfg) && d >= 1
    ensures Product(cfg, d) >= (d + 1) as real
  {
    var y := cfg.round(d as real);
    assert Keeps(cfg.round, 1) && Keeps(cfg.round, 2);
    assert InOrder(cfg.round, 1 as real, d as real) && Near(cfg.round, d as real);
    TimesGrows(y, y, 2.0, cfg.backoffFactor);
    assert Near(cfg.round, Times(y, 2.0)) && InOrder(cfg.round, Times(y, 2.0), Times(y, cfg.backoffFactor));
    if d == 1 {
      assert Times(y, 2.0) == 2 as real;
    }
  }

  lemma NextIsLarger(cfg: Config, d: int)
    requires Doubling(cfg) && 1 <= d <= cfg.maxDelay
    ensures NextDelay(cfg, d) == MIN_INT64 || Min(d + 1, cfg.maxDelay) <= NextDelay(cfg, d) <= cfg.maxDelay
    ensures CapConverts(cfg) ==> NextDelay(cfg, d) != MIN_INT64
  {
    ProductIsLarger(cfg, d);
    ProductsGrow(cfg, d, cfg.maxDelay);
    if Product(cfg, d) < (MAX_INT64 + 1) as real {
      Converts(Product(cfg, d), d + 1);
    }
  }

  /** As long as no wait is negative the next one is not smaller. */
  lemma {:induction false} NotNegativeGrows(cfg: Config, k: nat)
    requires Doubling(cfg) && forall i: nat :: Delay(cfg, i) >= 0
    ensures 1 <= Delay(cfg, k) <= Delay(cfg, k + 1) && Delay(cfg, k) <= cfg.maxDelay
  {
    if k > 0 {
      NotNegativeGrows(cfg, k - 1);
      OnlyFirstExceeds(cfg, k);
    }
    assert Delay(cfg, k + 1) >= 0;
    NextIsLarger(cfg, Delay(cfg, k));
  }

  /**
    For every factor from 2 on and a positive initial delay within the cap, the waits never decrease
    if and only if float64(MaxDelay) * BackoffFactor is below 2^63; otherwise one of them is negative.
   */
  lemma WaitsGrowIff(cfg: Config)
    requires Doubling(cfg)
    ensures NeverDecreases(cfg) <==> CapConverts(cfg)
    ensures !CapConverts(cfg) ==> exists k: nat :: Delay(cfg, k) < 0
  {
    NextIsLarger(cfg, cfg.initialDelay);
    if CapConverts(cfg) {
      NeverDecreasesIff(cfg);
    }
    if NeverDecreases(cfg) {
      var d := Repeats(cfg);
      NextIsLarger(cfg, d);
      FixedConverts(cfg, d);
    }
    if forall k: nat :: Delay(cfg, k) >= 0 {
      forall k: nat ensures Delay(cfg, k) <= Delay(cfg, k + 1) {
        NotNegativeGrows(cfg, k);
      }
    }
  }

  /** DefaultRetryConfig, whose durations are in nanoseconds. */
  function DefaultConfig(round: real -> real): Config {
    Config(3, 100_000_000, 5_000_000_000, 2.0, e => true, round)
  }

  lemma DefaultInRange(round: real -> real)
    requires Binary64(round)
    ensures InRange(DefaultConfig(round))
  {
    assert Keeps(round, 5_000_000_000) && Keeps(round, 10_000_000_000);
    assert Times(5_000_000_000 as real, 2.0) == 10_000_000_000 as real;
  }

  lemma Powers()
    ensures Power(2, 0) == 1 && Power(2, 1) == 2 && Power(2, 2) == 4 && Power(2, 3) == 8
    ensures Power(2, 4) == 16 && Power(2, 5) == 32 && Power(2, 6) == 64 && Power(2, 7) == 128
  {
  }

  /**
    With the default configuration a function that always fails is called four times, 100, 200 and
    400 ms apart; with more retries the waits would double up to 5 s.
   */
  lemma DefaultSchedule(outcomes: nat -> Attempt, round: real -> real)
    requires Binary64(round) && forall k: nat :: outcomes(k).Failure?
    ensures Calls(DefaultConfig(round), outcomes, 0) == 4
    ensures Waits(DefaultConfig(round), 8)
            == [100_000_000, 200_000_000, 400_000_000, 800_000_000, 1_600_000_000, 3_200_000_000, 5_000_000_000, 5_000_000_000]
  {
    var cfg := DefaultConfig(round);
    CallsUpToFirstStop(cfg, outcomes, 0);
    var n := Calls(cfg, outcomes, 0);
    assert outcomes(n - 1).Failure? && cfg.retryable(outcomes(n - 1).error);
    DefaultInRange(round);
    Powers();
    forall k: nat | k < 8 ensures Delay(cfg, k) == Min(100_000_000 * Power(2, k), 5_000_000_000) {
      WaitsAreCappedGeometric(cfg, 2, k);
    }
  }
}
