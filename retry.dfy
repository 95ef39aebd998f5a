/** The bounded retry policy with exponential backoff that open-ai-app.py
    repeats in transcribe_with_retry, correct_spelling and generate_email.

    The external service is an oracle: on attempt `a` (0-based) of request
    `req` it answers `service(req, a)`.  `time.sleep` is not executed; each
    wait is recorded, in order, in the `delays` of a `Run`. */
module Retry {

  /** What one call to the external service does. */
  datatype Outcome =
    | Success(text: string)           // the call returns this text
    | RateLimited(message: string)    // the call raises RateLimitError
    | Failed(message: string)         // the call raises any other exception

  /** The request an invocation sends, identical on every attempt. */
  datatype Request =
    | Transcription(filePath: string)
    | ChatCompletion(system: string, user: string)

  type Service = (Request, nat) -> Outcome

  /** An exception that leaves the retry function. */
  datatype Error = RateLimitError(message: string) | OtherError(message: string)

  /** How an invocation ends: with a return value, with an exception, or by
      falling off the end of the loop, which returns Python's `None`. */
  datatype Completion = Returned(text: string) | Raised(error: Error) | ReturnedNone

  /** All that can be observed of one invocation: how it ended, how many
      calls it made to the service and the waits it slept, in order. */
  datatype Run = Run(completion: Completion, calls: nat, delays: seq<nat>)

  /** `2 ** n` */
  function Pow2(n: nat): nat
  {
    if n == 0 then 1 else 2 * Pow2(n - 1)
  }

  /** The waits before the retries of attempts 1..n: 1, 2, 4, ..., 2^(n-1). */
  function Backoff(n: nat): seq<nat>
  {
    if n == 0 then [] else Backoff(n - 1) + [Pow2(n - 1)]
  }

  /** The total time slept. */
  function Total(s: seq<nat>): nat
  {
    if s == [] then 0 else Total(s[..|s| - 1]) + s[|s| - 1]
  }

  /** The observable run of the loop `for attempt in range(max_retries)`
      from `attempt` on: the reference definition of the policy. */
  function RunFrom(service: Service, req: Request, maxRetries: int, attempt: nat): Run
    decreases maxRetries - attempt
  {
    if attempt >= maxRetries then Run(ReturnedNone, 0, [])
    else match service(req, attempt)
      case Success(text) => Run(Returned(text), 1, [])
      case Failed(message) => Run(Raised(OtherError(message)), 1, [])
      case RateLimited(message) =>
        if attempt < maxRetries - 1 then
          var rest := RunFrom(service, req, maxRetries, attempt + 1);
          Run(rest.completion, rest.calls + 1, [Pow2(attempt)] + rest.delays)
        else
          Run(Raised(RateLimitError(message)), 1, [])
  }

  /** The run of a whole invocation. */
  function Policy(service: Service, req: Request, maxRetries: int): Run
  {
    RunFrom(service, req, maxRetries, 0)
  }

  /** How an invocation ends when `o` is the answer to its last call. */
  function Final(o: Outcome): Completion
  {
    match o
    case Success(text) => Returned(text)
    case Failed(message) => Raised(OtherError(message))
    case RateLimited(message) => Raised(RateLimitError(message))
  }

  /** A run that has already made `k` rate-limited calls and slept their
      waits before continuing as `rest`. */
  function After(k: nat, rest: Run): Run
  {
    Run(rest.completion, k + rest.calls, Backoff(k) + rest.delays)
  }

  /** One invocation, step by step as the Python loop runs it. */
  method RetryCall(service: Service, req: Request, maxRetries: int) returns (run: Run)
    ensures run == Policy(service, req, maxRetries)
  {
    ghost var spec := Policy(service, req, maxRetries);
    var calls := 0;
    var slept: seq<nat> := [];
    var attempt := 0;
    while attempt < maxRetries
      invariant calls == attempt
      invariant slept == Backoff(attempt)
      invariant attempt == 0 || attempt < maxRetries
      invariant spec == After(attempt, RunFrom(service, req, maxRetries, attempt))
    {
      ghost var now := RunFrom(service, req, maxRetries, attempt);
      var outcome := service(req, attempt);
      calls := calls + 1;
      match outcome {
        case Success(text) =>
          assert now == Run(Returned(text), 1, []);
          assert slept + [] == slept;
          return Run(Returned(text), calls, slept);
        case Failed(message) =>
          assert now == Run(Raised(OtherError(message)), 1, []);
          assert slept + [] == slept;
          return Run(Raised(OtherError(message)), calls, slept);
        case RateLimited(message) =>
          if attempt < maxRetries - 1 {
            var wait := Pow2(attempt);
            ghost var rest := RunFrom(service, req, maxRetries, attempt + 1);
            assert now == Run(rest.completion, rest.calls + 1, [wait] + rest.delays);
            assert slept + ([wait] + rest.delays) == (slept + [wait]) + rest.delays;
            slept := slept + [wait];
          } else {
            assert now == Run(Raised(RateLimitError(message)), 1, []);
            assert slept + [] == slept;
            return Run(Raised(RateLimitError(message)), calls, slept);
          }
      }
      attempt := attempt + 1;
    }
    assert slept + [] == slept;
    run := Run(ReturnedNone, calls, slept);
  }

  // ---------------------------------------------------------------------
  // Properties of the policy

  /** The `i`-th recorded wait is `2 ** i`. */
  lemma {:induction false} BackoffAt(n: nat, i: nat)
    requires i < n
    ensures |Backoff(n)| == n && Backoff(n)[i] == Pow2(i)
  {
    BackoffLength(n - 1);
    if i < n - 1 {
      BackoffAt(n - 1, i);
    }
  }

  /** The first wait is one second and each later wait doubles the one
      before it. */
  lemma BackoffDoubles(n: nat, i: nat)
    requires i < n
    ensures |Backoff(n)| == n
    ensures i == 0 ==> Backoff(n)[i] == 1
    ensures i > 0 ==> Backoff(n)[i] == 2 * Backoff(n)[i - 1]
  {
    BackoffAt(n, i);
    if i > 0 {
      BackoffAt(n, i - 1);
    }
  }

  lemma {:induction false} BackoffLength(n: nat)
    ensures |Backoff(n)| == n
  {
    if n > 0 {
      BackoffLength(n - 1);
    }
  }

  /** The waits of `n` retries add up to `2 ** n - 1` seconds. */
  lemma {:induction false} BackoffTotal(n: nat)
    ensures Total(Backoff(n)) == Pow2(n) - 1
  {
    if n > 0 {
      BackoffTotal(n - 1);
      var b := Backoff(n - 1) + [Pow2(n - 1)];
      assert b[..|b| - 1] == Backoff(n - 1);
    }
  }

  /** After `k` rate-limited attempts that were not the last, the run is
      those `k` calls and their waits followed by the run from attempt `k`. */
  lemma {:induction false} SkipRateLimited(service: Service, req: Request, maxRetries: int, k: nat)
    requires k < maxRetries
    requires forall i :: 0 <= i < k ==> service(req, i).RateLimited?
    ensures Policy(service, req, maxRetries) == After(k, RunFrom(service, req, maxRetries, k))
  {
    if k > 0 {
      SkipRateLimited(service, req, maxRetries, k - 1);
      var rest := RunFrom(service, req, maxRetries, k);
      assert Backoff(k - 1) + ([Pow2(k - 1)] + rest.delays) == Backoff(k) + rest.delays;
    }
  }

  /** The shape of every run from an attempt inside the loop: between 1
      and the remaining attempts are made, every call but the last was
      rate-limited and slept `2 ** attempt` after it, and the last call
      decides the ending. */
  lemma {:induction false} RunFromShape(service: Service, req: Request, maxRetries: int, attempt: nat)
    requires attempt < maxRetries
    decreases maxRetries - attempt
    ensures var r := RunFrom(service, req, maxRetries, attempt);
      && 1 <= r.calls <= maxRetries - attempt
      && (forall i :: attempt <= i < attempt + r.calls - 1 ==> service(req, i).RateLimited?)
      && |r.delays| == r.calls - 1
      && (forall i :: 0 <= i < |r.delays| ==> r.delays[i] == Pow2(attempt + i))
      && r.completion == Final(service(req, attempt + r.calls - 1))
      && (service(req, attempt + r.calls - 1).RateLimited? ==> attempt + r.calls == maxRetries)
  {
    if service(req, attempt).RateLimited? && attempt < maxRetries - 1 {
      RunFromShape(service, req, maxRetries, attempt + 1);
    }
  }

  /** The whole behaviour of an invocation with a positive budget: `calls`
      is at most `max_retries`; all calls before the last were rate-limited;
      one wait of `2 ** i` follows each of them and none follows the last;
      the last call's answer is returned or its exception is raised, and a
      rate limit escapes only from attempt `max_retries - 1`. */
  lemma PolicyCharacterized(service: Service, req: Request, maxRetries: int)
    requires maxRetries >= 1
    ensures var r := Policy(service, req, maxRetries);
      && 1 <= r.calls <= maxRetries
      && (forall i :: 0 <= i < r.calls - 1 ==> service(req, i).RateLimited?)
      && r.delays == Backoff(r.calls - 1)
      && r.completion == Final(service(req, r.calls - 1))
      && (r.completion.Raised? && r.completion.error.RateLimitError? ==> r.calls == maxRetries)
  {
    var r := Policy(service, req, maxRetries);
    RunFromShape(service, req, maxRetries, 0);
    BackoffLength(r.calls - 1);
    forall i | 0 <= i < |r.delays|
      ensures r.delays[i] == Backoff(r.calls - 1)[i]
    {
      BackoffAt(r.calls - 1, i);
    }
  }

  /** With `max_retries <= 0` the loop body never runs: no call, no wait,
      and the function returns `None`. */
  lemma NoBudget(service: Service, req: Request, maxRetries: int)
    requires maxRetries <= 0
    ensures Policy(service, req, maxRetries) == Run(ReturnedNone, 0, [])
  {
  }

  /** `None` is returned exactly when the budget is not positive. */
  lemma ReturnsNoneIff(service: Service, req: Request, maxRetries: int)
    ensures Policy(service, req, maxRetries).completion == ReturnedNone <==> maxRetries <= 0
  {
    if maxRetries >= 1 {
      PolicyCharacterized(service, req, maxRetries);
    }
  }

  /** A returned text is the answer of the last call made. */
  lemma ReturnedText(service: Service, req: Request, maxRetries: int)
    ensures var r := Policy(service, req, maxRetries);
      r.completion.Returned? ==> r.calls >= 1 && service(req, r.calls - 1) == Success(r.completion.text)
  {
    if maxRetries >= 1 {
      PolicyCharacterized(service, req, maxRetries);
    }
  }

  /** If attempt `k` (1-based) is the first success, exactly `k` calls are
      made, its text is returned and no wait follows it. */
  lemma FirstSuccess(service: Service, req: Request, maxRetries: int, k: nat, text: string)
    requires 1 <= k <= maxRetries
    requires forall i :: 0 <= i < k - 1 ==> service(req, i).RateLimited?
    requires service(req, k - 1) == Success(text)
    ensures Policy(service, req, maxRetries) == Run(Returned(text), k, Backoff(k - 1))
  {
    SkipRateLimited(service, req, maxRetries, k - 1);
  }

  /** An exception other than RateLimitError escapes from the attempt that
      raised it, after no further call and no further wait. */
  lemma OtherErrorEscapes(service: Service, req: Request, maxRetries: int, k: nat, message: string)
    requires 1 <= k <= maxRetries
    requires forall i :: 0 <= i < k - 1 ==> service(req, i).RateLimited?
    requires service(req, k - 1) == Failed(message)
    ensures Policy(service, req, maxRetries) == Run(Raised(OtherError(message)), k, Backoff(k - 1))
  {
    SkipRateLimited(service, req, maxRetries, k - 1);
  }

  /** When every attempt is rate-limited, `max_retries` calls are made,
      `max_retries - 1` waits totalling `2 ** (max_retries - 1) - 1` seconds
      are slept, and the last attempt's RateLimitError is re-raised. */
  lemma AllRateLimited(service: Service, req: Request, maxRetries: int)
    requires maxRetries >= 1
    requires forall i :: 0 <= i < maxRetries ==> service(req, i).RateLimited?
    ensures var r := Policy(service, req, maxRetries);
      && r.calls == maxRetries
      && r.completion == Raised(RateLimitError(service(req, maxRetries - 1).message))
      && r.delays == Backoff(maxRetries - 1)
      && |r.delays| == maxRetries - 1
      && Total(r.delays) == Pow2(maxRetries - 1) - 1
  {
    SkipRateLimited(service, req, maxRetries, maxRetries - 1);
    BackoffLength(maxRetries - 1);
    BackoffTotal(maxRetries - 1);
  }
}
