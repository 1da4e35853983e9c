/** Retry with exponential backoff and fallback, behind the circuit breaker. */
module QueueResilience {
  import opened Wrappers
  import opened CircuitBreaker
  import opened FallbackQueues

  /** The error classifier's verdict. */
  datatype ErrorInfo = ErrorInfo(retryable: bool, useFallback: bool)

  /** The executor's settings, with its error classifier. */
  datatype RetryConfig = RetryConfig(maxRetries: int, initialDelay: int, maxDelay: int, factor: real,
                                     fallback: bool, classify: string -> ErrorInfo)

  /** What one attempt meets: cancellation, memory pressure, the operation's outcome, cancellation during the wait. */
  datatype Attempt = Attempt(canceled: bool, pressure: bool, error: Option<string>, canceledWaiting: bool)

  datatype Failure =
    | Canceled
    | MemoryPressure
    | OperationFailed(attempts: int)
    | FallbackCanceled
    | Refused

  // ---------------------------------------------------------------- delays

  function NextDelay(cfg: RetryConfig, delay: int): int {
    var grown := (delay as real * cfg.factor).Floor;
    if grown > cfg.maxDelay then cfg.maxDelay else grown
  }

  /** The n-th wait of a retry loop. */
  function Backoff(cfg: RetryConfig, n: nat): int {
    if n == 0 then cfg.initialDelay else NextDelay(cfg, Backoff(cfg, n - 1))
  }

  lemma GrowsByFactor(delay: int, factor: real)
    requires delay >= 0 && factor >= 1.0
    ensures (delay as real * factor).Floor >= delay
  {
    assert delay as real * factor >= delay as real * 1.0;
  }

  lemma NextDelayGrows(cfg: RetryConfig, delay: int)
    requires 0 <= delay <= cfg.maxDelay && cfg.factor >= 1.0
    ensures delay <= NextDelay(cfg, delay) <= cfg.maxDelay
  {
    GrowsByFactor(delay, cfg.factor);
  }

  /** From an initial delay within the cap and with a factor of at least one, waits never shrink and never exceed the cap. */
  lemma {:induction false} BackoffClimbsToTheCap(cfg: RetryConfig, n: nat)
    requires 0 <= cfg.initialDelay <= cfg.maxDelay && cfg.factor >= 1.0
    ensures 0 <= Backoff(cfg, n) <= Backoff(cfg, n + 1) <= cfg.maxDelay
  {
    if n > 0 {
      BackoffClimbsToTheCap(cfg, n - 1);
    }
    NextDelayGrows(cfg, Backoff(cfg, n));
  }

  /** All waits respect the cap exactly when the initial one does: the first wait is not capped. */
  lemma CappedExactlyWhenInitialIs(cfg: RetryConfig)
    ensures (forall n: nat :: Backoff(cfg, n) <= cfg.maxDelay) <==> cfg.initialDelay <= cfg.maxDelay
  {
    assert Backoff(cfg, 0) == cfg.initialDelay;
  }

  function Power(f: nat, n: nat): nat {
    if n == 0 then 1 else f * Power(f, n - 1)
  }

  function Capped(cap: int, a: int): int {
    if a > cap then cap else a
  }

  lemma NextDelayOfWholeFactor(cfg: RetryConfig, f: nat, b: int)
    requires cfg.factor == f as real
    ensures NextDelay(cfg, b) == Capped(cfg.maxDelay, f * b)
  {
    assert b as real * f as real == (f * b) as real;
  }

  lemma CappedProduct(cap: int, f: nat, a: nat)
    requires f >= 1 && cap >= 0
    ensures Capped(cap, f * Capped(cap, a)) == Capped(cap, f * a)
  {
    if a > cap {
      assert f * a >= a && f * cap >= cap;
    }
  }

  lemma ProductRegroups(a: nat, f: nat, p: nat)
    ensures a * (f * p) == f * (a * p)
  {
  }

  /** With a whole factor the n-th wait is the initial delay times the n-th power of the factor, up to the cap. */
  lemma {:induction false} BackoffIsExponential(cfg: RetryConfig, f: nat, n: nat)
    requires 0 <= cfg.initialDelay <= cfg.maxDelay && f >= 1 && cfg.factor == f as real
    ensures Backoff(cfg, n) == Capped(cfg.maxDelay, cfg.initialDelay * Power(f, n))
  {
    if n > 0 {
      BackoffIsExponential(cfg, f, n - 1);
      ProductRegroups(cfg.initialDelay, f, Power(f, n - 1));
      NextDelayOfWholeFactor(cfg, f, Backoff(cfg, n - 1));
      CappedProduct(cfg.maxDelay, f, cfg.initialDelay * Power(f, n - 1));
    }
  }

  // ---------------------------------------------------------------- the retry loop

  /**
   A request: the operation's name, the function it runs, and what it will meet: every attempt in turn, whether it is
   cancelled when it comes to the fallback, and the clock reading when it is parked there.
   */
  datatype Request = Request(name: string, work: nat, script: nat -> Attempt, fallbackCanceled: bool, parkedAt: int)

  /** What a finished loop reports. */
  datatype Report = Report(failure: Option<Failure>, calls: nat, parked: bool, delays: seq<int>)

  /** The operation was called and its last call succeeded. */
  predicate LastCallSucceeded(q: Request, calls: nat) {
    calls > 0 && q.script(calls).error.None?
  }

  /** The i-th call failed in a way that is retried. */
  predicate RetriedCall(cfg: RetryConfig, q: Request, i: nat) {
    q.script(i).error.Some? && cfg.classify(q.script(i).error.value).retryable
  }

  /** The first n waits. */
  function Schedule(cfg: RetryConfig, n: nat): (s: seq<int>)
    ensures |s| == n
  {
    if n == 0 then [] else Schedule(cfg, n - 1) + [Backoff(cfg, n - 1)]
  }

  /** How one attempt continues. */
  datatype Verdict = Done | Fallback | GiveUp(failure: Failure) | WaitAndRetry

  /** What an attempt's error leads to. */
  function Judge(cfg: RetryConfig, attempt: int, error: Option<string>): Verdict {
    if error.None? then Done else
    var info := cfg.classify(error.value);
    if info.retryable && attempt != cfg.maxRetries then WaitAndRetry
    else if cfg.fallback && info.useFallback then Fallback
    else GiveUp(OperationFailed(attempt))
  }

  ghost predicate AllRetried(cfg: RetryConfig, q: Request, n: nat) {
    forall i :: 0 < i <= n ==> RetriedCall(cfg, q, i)
  }

  /** The report of a loop that comes to attempt n, if it ends there. */
  ghost function EndsAt(cfg: RetryConfig, q: Request, n: nat): Option<Report>
    requires n > 0
  {
    var waits := Schedule(cfg, n - 1);
    if n > cfg.maxRetries then Some(Report(Some(OperationFailed(cfg.maxRetries)), n - 1, false, waits))
    else if q.script(n).canceled then Some(Report(Some(Canceled), n - 1, false, waits))
    else if q.script(n).pressure then Some(Report(Some(MemoryPressure), n - 1, false, waits))
    else match Judge(cfg, n, q.script(n).error)
      case Done => Some(Report(None, n, false, waits))
      case Fallback =>
        Some(if q.fallbackCanceled then Report(Some(FallbackCanceled), n, false, waits) else Report(None, n, true, waits))
      case GiveUp(failure) => Some(Report(Some(failure), n, false, waits))
      case WaitAndRetry =>
        if q.script(n).canceledWaiting then Some(Report(Some(Canceled), n, false, Schedule(cfg, n))) else None
  }

  /** The loop ends in attempt n with the report r, and in no earlier one. */
  ghost predicate FirstEnd(cfg: RetryConfig, q: Request, n: nat, r: Report) {
    && n > 0 && EndsAt(cfg, q, n) == Some(r)
    && forall i :: 0 < i < n ==> EndsAt(cfg, q, i) == None
  }

  /** What follows from where the loop ends: how often the operation ran, and what a missing error means. */
  lemma EndMeans(cfg: RetryConfig, q: Request, n: nat, r: Report)
    requires FirstEnd(cfg, q, n, r)
    ensures r.calls == 0 || r.calls <= cfg.maxRetries
    ensures r.failure.None? <==> LastCallSucceeded(q, r.calls) || r.parked
    ensures r.parked ==>
              && cfg.fallback && !q.fallbackCanceled && r.calls > 0 && q.script(r.calls).error.Some?
              && cfg.classify(q.script(r.calls).error.value).useFallback
              && (r.calls == cfg.maxRetries || !RetriedCall(cfg, q, r.calls))
    ensures AllRetried(cfg, q, if r.calls == 0 then 0 else r.calls - 1)
    ensures r.calls <= |r.delays| + 1 && r.delays == Schedule(cfg, |r.delays|)
    // what must be retried is: only cancellation and memory pressure end the loop before
    ensures r.calls < cfg.maxRetries && (r.calls > 0 ==> RetriedCall(cfg, q, r.calls)) ==>
              || (r.failure == Some(Canceled) && r.calls > 0 && q.script(r.calls).canceledWaiting)
              || (r.failure == Some(Canceled) && q.script(r.calls + 1).canceled)
              || (r.failure == Some(MemoryPressure) && q.script(r.calls + 1).pressure)
    // what is final goes to the fallback queue exactly if there is one and the error recommends it
    ensures r.calls > 0 && q.script(r.calls).error.Some?
            && (r.calls == cfg.maxRetries || !cfg.classify(q.script(r.calls).error.value).retryable) ==>
              if cfg.fallback && cfg.classify(q.script(r.calls).error.value).useFallback
              then if q.fallbackCanceled then r.failure == Some(FallbackCanceled) else r.parked
              else r.failure == Some(OperationFailed(r.calls))
    ensures cfg.maxRetries <= 0 ==> r.failure == Some(OperationFailed(cfg.maxRetries))
  {
    forall i | 0 < i < n ensures RetriedCall(cfg, q, i) && i < cfg.maxRetries {
      assert EndsAt(cfg, q, i) == None;
    }
    assert n > 1 ==> RetriedCall(cfg, q, n - 1);
  }

  /** The script determines the report: a loop has one first end. */
  lemma ReportUnique(cfg: RetryConfig, q: Request, n: nat, r: Report, n': nat, r': Report)
    requires FirstEnd(cfg, q, n, r) && FirstEnd(cfg, q, n', r')
    ensures n == n' && r == r'
  {
  }

  /** What the fallback queue holds after a request: one operation more exactly if the request was parked. */
  function Contents(before: Operations, q: Request, ttl: nat, parked: bool): Operations {
    if parked then AfterCall(before, Park(q.name, q.parkedAt, ttl, q.work)) else before
  }

  // ---------------------------------------------------------------- the executor

  /** The clock readings around one request. */
  datatype Moments = Moments(start: int, startToken: int, end: int, endToken: int)

  class QueueResilientExecutor {
    const config: RetryConfig
    const breaker: CircuitBreaker
    const fallback: FallbackQueue?

    predicate Valid() {
      config.fallback <==> fallback != null
    }

    function Queues(): set<object> {
      if fallback == null then {} else {fallback}
    }

    constructor (config: RetryConfig, breakerConfig: Config, fallbackTTL: nat)
      ensures Valid() && this.config == config && fresh(breaker) && fresh(Queues())
      ensures breaker.cfg == breakerConfig && breaker.Value() == Breaker(Closed, ZERO, 0)
      ensures fallback != null ==> fallback.ttl == fallbackTTL && fallback.operations == map[]
    {
      this.config := config;
      breaker := new CircuitBreaker(breakerConfig);
      if config.fallback {
        fallback := new FallbackQueue(fallbackTTL);
      } else {
        fallback := null;
      }
    }

    /** executeFallback: parks the operation unless the request is cancelled by then. */
    method ExecuteFallback(q: Request) returns (failure: Option<Failure>)
      requires Valid() && fallback != null
      modifies fallback
      ensures failure == if q.fallbackCanceled then Some(FallbackCanceled) else None
      ensures fallback.operations == Contents(old(fallback.operations), q, fallback.ttl, failure.None?)
    {
      if q.fallbackCanceled {
        return Some(FallbackCanceled);
      }
      fallback.Store(q.name, q.parkedAt, q.work);
      return None;
    }

    /**
     executeWithRetry ends in the first attempt that can end it. So there are at most maxRetries calls; no error exactly when
     the last call succeeded or the operation was parked, and the fallback queue holds it exactly in that case.
     */
    method ExecuteWithRetry(q: Request) returns (r: Report, ghost n: nat)
      requires Valid()
      modifies Queues()
      ensures FirstEnd(config, q, n, r)
      ensures r.calls == 0 || r.calls <= config.maxRetries
      ensures r.failure.None? <==> LastCallSucceeded(q, r.calls) || r.parked
      ensures r.parked ==> fallback != null
      ensures fallback != null ==> fallback.operations == Contents(old(fallback.operations), q, fallback.ttl, r.parked)
    {
      r, n := Retry(q);
      EndMeans(config, q, n, r);
    }

    /** The loop of executeWithRetry. */
    method Retry(q: Request) returns (r: Report, ghost n: nat)
      requires Valid()
      modifies Queues()
      ensures FirstEnd(config, q, n, r)
      ensures fallback != null ==> fallback.operations == Contents(old(fallback.operations), q, fallback.ttl, r.parked)
    {
      var delay := config.initialDelay;
      var delays: seq<int> := [];
      var attempt := 1;
      while attempt <= config.maxRetries
        invariant 1 <= attempt
        invariant delays == Schedule(config, attempt - 1) && delay == Backoff(config, attempt - 1)
        invariant forall i :: 0 < i < attempt ==> EndsAt(config, q, i) == None
        invariant fallback != null ==> fallback.operations == old(fallback.operations)
        decreases config.maxRetries - attempt
      {
        n := attempt;
        if q.script(attempt).canceled {
          return Report(Some(Canceled), attempt - 1, false, delays), n;
        }
        if q.script(attempt).pressure {
          return Report(Some(MemoryPressure), attempt - 1, false, delays), n;
        }
        match Judge(config, attempt, q.script(attempt).error) {
          case Done => return Report(None, attempt, false, delays), n;
          case Fallback =>
            var failure := ExecuteFallback(q);
            return Report(failure, attempt, failure.None?, delays), n;
          case GiveUp(failure) => return Report(Some(failure), attempt, false, delays), n;
          case WaitAndRetry =>
        }
        delays := delays + [delay];
        if q.script(attempt).canceledWaiting {
          return Report(Some(Canceled), attempt, false, delays), n;
        }
        delay := NextDelay(config, delay);
        attempt := attempt + 1;
      }
      return Report(Some(OperationFailed(config.maxRetries)), attempt - 1, false, delays), attempt;
    }

    /**
     ExecuteWithResilience: a refused request runs nothing and only settles the breaker; an admitted one reports to the
     breaker as a success exactly when it returns no error, which includes the case that the operation was only parked.
     */
    method ExecuteWithResilience(q: Request, canceled: bool, at: Moments) returns (r: Report)
      requires Valid()
      modifies breaker, Queues()
      ensures breaker.Value() == BreakerAfter(breaker.cfg, old(breaker.Value()), r.failure.None?, at)
      ensures !Admits(Settle(old(breaker.Value()), at.start)) ==> r == Report(Some(Refused), 0, false, [])
      ensures Admits(Settle(old(breaker.Value()), at.start)) ==>
                if canceled then r == Report(Some(Canceled), 0, false, []) else exists n :: FirstEnd(config, q, n, r)
      ensures r.calls == 0 || r.calls <= config.maxRetries
      ensures r.failure.None? <==> LastCallSucceeded(q, r.calls) || r.parked
      ensures r.parked ==> fallback != null
      ensures fallback != null ==> fallback.operations == Contents(old(fallback.operations), q, fallback.ttl, r.parked)
    {
      var generation, admitted := breaker.BeforeRequest(at.start, at.startToken);
      if !admitted {
        return Report(Some(Refused), 0, false, []);
      }
      if canceled {
        breaker.AfterRequest(generation, false, at.end, at.endToken);
        return Report(Some(Canceled), 0, false, []);
      }
      ghost var n;
      r, n := ExecuteWithRetry(q);
      breaker.AfterRequest(generation, r.failure.None?, at.end, at.endToken);
    }
  }

  /** The breaker after one request: settled only if it refuses, otherwise counted and told the outcome. */
  function BreakerAfter(cfg: Config, before: Breaker, success: bool, at: Moments): Breaker {
    var settled := Settle(before, at.start);
    if Admits(settled)
    then After(cfg, Before(before, at.start), Generation(settled, at.startToken), success, at.end, at.endToken)
    else settled
  }
}
