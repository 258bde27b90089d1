/** Retry with exponential backoff. The function retried is a function of
    the attempt index; the sleeps are recorded as a list of requested
    delays in milliseconds. */
module Retry {
  import opened Wrappers

  /** What the retried function can throw: an HTTP response status, when
      the error carries a response, and an error code. */
  datatype RetryError = RetryError(responseStatus: Option<int>, code: string, message: string)

  datatype Outcome<T> = Success(value: T) | Failure(error: RetryError)

  /** The caller's options; a missing option takes its default. */
  datatype RetryOptions = RetryOptions(
    maxAttempts: Option<int>,
    initialDelay: Option<nat>,
    maxDelay: Option<nat>,
    factor: Option<nat>,
    retryOn: Option<RetryError -> bool>
  )

  datatype RetryConfig = RetryConfig(
    maxAttempts: int,
    initialDelay: nat,
    maxDelay: nat,
    factor: nat,
    retryOn: RetryError -> bool
  )

  /** Retry on a 5xx or 429 response; without a response, on the network
      error codes ECONNRESET, ETIMEDOUT and ENOTFOUND. */
  predicate DefaultRetryOn(e: RetryError) {
    match e.responseStatus
    case Some(status) => status >= 500 || status == 429
    case None => e.code == "ECONNRESET" || e.code == "ETIMEDOUT" || e.code == "ENOTFOUND"
  }

  /** A response decides alone: its code is not consulted. */
  lemma DefaultRetryOnCases(status: int, code: string, message: string)
    ensures DefaultRetryOn(RetryError(Some(status), code, message)) <==> status >= 500 || status == 429
    ensures DefaultRetryOn(RetryError(None, code, message)) <==>
      code in ["ECONNRESET", "ETIMEDOUT", "ENOTFOUND"]
    ensures !DefaultRetryOn(RetryError(Some(404), "ETIMEDOUT", message))
  {
  }

  /** The options with their defaults: 3 attempts, 1000 ms, 10000 ms,
      factor 2, and the default retry condition. */
  function Resolve(opts: RetryOptions): (c: RetryConfig)
    ensures c.maxAttempts == opts.maxAttempts.GetOr(3)
    ensures c.initialDelay == opts.initialDelay.GetOr(1000)
    ensures c.maxDelay == opts.maxDelay.GetOr(10000)
    ensures c.factor == opts.factor.GetOr(2)
    ensures c.retryOn == opts.retryOn.GetOr(DefaultRetryOn)
  {
    RetryConfig(opts.maxAttempts.GetOr(3), opts.initialDelay.GetOr(1000), opts.maxDelay.GetOr(10000),
                opts.factor.GetOr(2), opts.retryOn.GetOr(DefaultRetryOn))
  }

  function Pow(b: nat, e: nat): nat {
    if e == 0 then 1 else b * Pow(b, e - 1)
  }

  /** The delay after failed attempt `a`: `initialDelay * factor^a`, capped
      at `maxDelay`. */
  function Delay(cfg: RetryConfig, a: nat): (d: nat)
    ensures d <= cfg.maxDelay
    ensures d <= cfg.initialDelay * Pow(cfg.factor, a)
    ensures d == cfg.maxDelay || d == cfg.initialDelay * Pow(cfg.factor, a)
  {
    var raw := cfg.initialDelay * Pow(cfg.factor, a);
    if raw < cfg.maxDelay then raw else cfg.maxDelay
  }

  /** What a call of `retry` ends with: a returned value, or a thrown error
      (`None` for the undefined last error). */
  datatype RetryResult<T> = Returned(value: T) | Threw(error: Option<RetryError>)

  /** The result, the number of calls made and the delays slept. */
  datatype Trace<T> = Trace(result: RetryResult<T>, calls: nat, delays: seq<nat>)

  /** The attempts from `attempt` on, after `lastError`. */
  function RetryFrom<T>(fn: nat -> Outcome<T>, cfg: RetryConfig, attempt: nat, lastError: Option<RetryError>): Trace<T>
    decreases if cfg.maxAttempts > attempt then cfg.maxAttempts - attempt else 0
  {
    if attempt >= cfg.maxAttempts then Trace(Threw(lastError), 0, [])
    else
      match fn(attempt)
      case Success(v) => Trace(Returned(v), 1, [])
      case Failure(e) =>
        if attempt == cfg.maxAttempts - 1 || !cfg.retryOn(e) then Trace(Threw(Some(e)), 1, [])
        else
          var t := RetryFrom(fn, cfg, attempt + 1, Some(e));
          Trace(t.result, t.calls + 1, [Delay(cfg, attempt)] + t.delays)
  }

  /** The whole run of `retry`. */
  function RetryRun<T>(fn: nat -> Outcome<T>, cfg: RetryConfig): Trace<T> {
    RetryFrom(fn, cfg, 0, None)
  }

  /** Attempt `i` failed with an error the condition accepts. */
  predicate RetryableFailure<T>(fn: nat -> Outcome<T>, cfg: RetryConfig, i: nat) {
    fn(i).Failure? && cfg.retryOn(fn(i).error)
  }

  /** The shape of every run from `attempt`: at most the remaining attempts
      are made, one delay sits between consecutive calls, the delays follow
      the schedule, every call but the last failed retryably, and the last
      call decides the result. */
  lemma {:induction false} RetryFromShape<T>(fn: nat -> Outcome<T>, cfg: RetryConfig, attempt: nat, lastError: Option<RetryError>)
    ensures var t := RetryFrom(fn, cfg, attempt, lastError);
      && (attempt >= cfg.maxAttempts ==> t == Trace(Threw(lastError), 0, []))
      && (attempt < cfg.maxAttempts ==> 1 <= t.calls <= cfg.maxAttempts - attempt)
      && (t.calls >= 1 ==> |t.delays| == t.calls - 1)
      && (forall i :: 0 <= i < |t.delays| ==> t.delays[i] == Delay(cfg, attempt + i))
      && (forall i :: attempt <= i < attempt + t.calls - 1 ==> RetryableFailure(fn, cfg, i))
      && (t.calls >= 1 && t.result.Returned? ==> fn(attempt + t.calls - 1) == Success(t.result.value))
      && (t.calls >= 1 && t.result.Threw? ==>
            && t.result.error.Some?
            && fn(attempt + t.calls - 1) == Failure(t.result.error.value)
            && (attempt + t.calls == cfg.maxAttempts || !cfg.retryOn(t.result.error.value)))
    decreases if cfg.maxAttempts > attempt then cfg.maxAttempts - attempt else 0
  {
    if attempt < cfg.maxAttempts && fn(attempt).Failure? {
      var e := fn(attempt).error;
      if !(attempt == cfg.maxAttempts - 1 || !cfg.retryOn(e)) {
        RetryFromShape(fn, cfg, attempt + 1, Some(e));
        var t := RetryFrom(fn, cfg, attempt + 1, Some(e));
        var u := RetryFrom(fn, cfg, attempt, lastError);
        assert u.delays == [Delay(cfg, attempt)] + t.delays;
        assert forall i :: 1 <= i < |u.delays| ==> u.delays[i] == t.delays[i - 1];
      }
    }
  }

  /** The loop of `retry`: it tries, records the last error, throws on the
      last attempt or on an error the condition rejects, and otherwise
      sleeps for the scheduled delay. */
  method RetryLoop<T>(fn: nat -> Outcome<T>, cfg: RetryConfig) returns (result: RetryResult<T>, calls: nat, delays: seq<nat>)
    ensures Trace(result, calls, delays) == RetryRun(fn, cfg)
  {
    var lastError: Option<RetryError> := None;
    calls := 0;
    delays := [];
    var attempt: nat := 0;
    while attempt < cfg.maxAttempts
      invariant calls == attempt
      invariant attempt == 0 ==> lastError.None?
      invariant var t := RetryFrom(fn, cfg, attempt, lastError);
        Trace(t.result, calls + t.calls, delays + t.delays) == RetryRun(fn, cfg)
      decreases cfg.maxAttempts - attempt
    {
      var outcome := fn(attempt);
      calls := calls + 1;
      match outcome {
        case Success(v) =>
          return Returned(v), calls, delays;
        case Failure(e) =>
          lastError := Some(e);
          if attempt == cfg.maxAttempts - 1 || !cfg.retryOn(e) {
            return Threw(Some(e)), calls, delays;
          }
          var t := RetryFrom(fn, cfg, attempt + 1, lastError);
          assert delays + ([Delay(cfg, attempt)] + t.delays) == (delays + [Delay(cfg, attempt)]) + t.delays;
          delays := delays + [Delay(cfg, attempt)];
      }
      attempt := attempt + 1;
    }
    return Threw(lastError), calls, delays;
  }

  /** `retry(fn, options)`. */
  method RetryWith<T>(fn: nat -> Outcome<T>, opts: RetryOptions) returns (result: RetryResult<T>, calls: nat, delays: seq<nat>)
    ensures Trace(result, calls, delays) == RetryRun(fn, Resolve(opts))
    ensures calls <= if Resolve(opts).maxAttempts > 0 then Resolve(opts).maxAttempts else 0
    ensures calls >= 1 ==> |delays| == calls - 1
    ensures calls == 0 ==> delays == [] && result == Threw(None)
  {
    result, calls, delays := RetryLoop(fn, Resolve(opts));
    RetryFromShape(fn, Resolve(opts), 0, None);
  }

  /** At most `maxAttempts` calls, and one sleep fewer than calls. */
  lemma RetryCounts<T>(fn: nat -> Outcome<T>, cfg: RetryConfig)
    ensures cfg.maxAttempts <= 0 ==> RetryRun(fn, cfg) == Trace(Threw(None), 0, [])
    ensures cfg.maxAttempts > 0 ==> 1 <= RetryRun(fn, cfg).calls <= cfg.maxAttempts
    ensures cfg.maxAttempts > 0 ==> |RetryRun(fn, cfg).delays| == RetryRun(fn, cfg).calls - 1
    ensures forall a :: 0 <= a < |RetryRun(fn, cfg).delays| ==> RetryRun(fn, cfg).delays[a] == Delay(cfg, a)
  {
    RetryFromShape(fn, cfg, 0, None);
  }

  /** The first success is returned after the calls that preceded it, each
      a retryable failure; no further call is made. */
  lemma {:induction false} RetryReturnsFirstSuccess<T>(fn: nat -> Outcome<T>, cfg: RetryConfig, k: nat, attempt: nat, lastError: Option<RetryError>)
    requires attempt <= k < cfg.maxAttempts && fn(k).Success?
    requires forall i :: attempt <= i < k ==> RetryableFailure(fn, cfg, i)
    ensures RetryFrom(fn, cfg, attempt, lastError).result == Returned(fn(k).value)
    ensures RetryFrom(fn, cfg, attempt, lastError).calls == k - attempt + 1
    decreases k - attempt
  {
    if attempt < k {
      assert RetryableFailure(fn, cfg, attempt);
      RetryReturnsFirstSuccess(fn, cfg, k, attempt + 1, Some(fn(attempt).error));
    }
  }

  /** An error the condition rejects is thrown after that single call,
      without sleeping. */
  lemma RetryNonRetryable<T>(fn: nat -> Outcome<T>, cfg: RetryConfig)
    requires cfg.maxAttempts >= 1 && fn(0).Failure? && !cfg.retryOn(fn(0).error)
    ensures RetryRun(fn, cfg) == Trace(Threw(Some(fn(0).error)), 1, [])
  {
  }

  /** When every attempt fails retryably, the last attempt's error is
      thrown after `maxAttempts` calls. */
  lemma RetryExhausted<T>(fn: nat -> Outcome<T>, cfg: RetryConfig)
    requires cfg.maxAttempts >= 1
    requires forall i :: 0 <= i < cfg.maxAttempts ==> RetryableFailure(fn, cfg, i)
    ensures fn(cfg.maxAttempts - 1).Failure? &&
      RetryRun(fn, cfg).result == Threw(Some(fn(cfg.maxAttempts - 1).error))
    ensures RetryRun(fn, cfg).calls == cfg.maxAttempts
  {
    RetryFromShape(fn, cfg, 0, None);
    var t := RetryRun(fn, cfg);
    assert RetryableFailure(fn, cfg, t.calls - 1);
    assert RetryableFailure(fn, cfg, cfg.maxAttempts - 1);
  }

  /** With the default options and an always-retryable failure, three calls
      are made and the sleeps are 1000 ms and then 2000 ms. */
  lemma RetryDefaultSchedule<T>(fn: nat -> Outcome<T>)
    requires forall i :: 0 <= i < 3 ==> RetryableFailure(fn, Resolve(RetryOptions(None, None, None, None, None)), i)
    ensures RetryRun(fn, Resolve(RetryOptions(None, None, None, None, None))).calls == 3
    ensures RetryRun(fn, Resolve(RetryOptions(None, None, None, None, None))).delays == [1000, 2000]
  {
    var cfg := Resolve(RetryOptions(None, None, None, None, None));
    RetryExhausted(fn, cfg);
    RetryCounts(fn, cfg);
    var d := RetryRun(fn, cfg).delays;
    assert Pow(2, 1) == 2;
    assert d[0] == Delay(cfg, 0) && d[1] == Delay(cfg, 1);
  }
}
