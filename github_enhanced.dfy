/**
 * lib/github-enhanced.ts: requests with retries and exponential backoff, and
 * the fallbacks to built-in sample data when GitHub cannot be reached.
 *
 * The network is a function from the attempt number (0, 1, ...) to what that
 * attempt produced; sleeping is recorded as the list of delays requested.
 */
module GithubEnhanced {
  import opened Wrappers
  import opened Types
  import Seqs
  import Mocks

  /**
   * What one `fetch` attempt produced: a rejected request (network failure or
   * timeout abort), or a response with its status, its
   * `X-RateLimit-Remaining` header and its body parsed as JSON (`None` when
   * `response.json()` rejects).
   */
  datatype Attempt<T> = NetworkError | Reply(status: int, rateLimitRemaining: Option<string>, body: Option<T>)

  /** The errors `fetchWithRetry` throws. */
  datatype FetchError =
    | RateLimitExceeded
    | ServerError(status: int)
    | ApiError(status: int)
    | RequestFailed
    | InvalidJson
    | RetryLoopEnded

  /** The retry options; the source's defaults are 3 retries, 1000 ms base delay and 10000 ms cap. */
  datatype RetryConfig = RetryConfig(maxRetries: int, baseDelay: int, maxDelay: int)

  const DefaultRetry := RetryConfig(3, 1000, 10000)

  /** `checkGitHubAPIStatus` overrides only `maxRetries`. */
  const StatusRetry := RetryConfig(1, 1000, 10000)

  /** The outcome of one attempt: its data, or the error thrown inside the `try`. */
  function Classify<T>(a: Attempt<T>): (r: Result<T, FetchError>)
    ensures r == Failure(RateLimitExceeded) <==>
      a.Reply? && a.status == 403 && a.rateLimitRemaining == Some("0")
    ensures r.Failure? && r.error.ServerError? <==> a.Reply? && !IsOk(a.status) && a.status >= 500
    ensures r.Failure? && r.error.ApiError? <==>
      a.Reply? && !IsOk(a.status) && a.status < 500 && !(a.status == 403 && a.rateLimitRemaining == Some("0"))
    ensures r.Success? <==> a.Reply? && IsOk(a.status) && a.body.Some?
    ensures r.Success? ==> r.value == a.body.value
    ensures r.Failure? ==> r.error != RetryLoopEnded
  {
    match a
    case NetworkError => Failure(RequestFailed)
    case Reply(status, remaining, body) =>
      if !IsOk(status) then
        if status == 403 && remaining == Some("0") then Failure(RateLimitExceeded)
        else if status >= 500 then Failure(ServerError(status))
        else Failure(ApiError(status))
      else
        match body
        case None => Failure(InvalidJson)
        case Some(data) => Success(data)
  }

  function Pow2(k: nat): (r: nat)
    ensures r >= 1
  {
    if k == 0 then 1 else 2 * Pow2(k - 1)
  }

  /** The delay after failed attempt `k`: `Math.min(baseDelay * 2^k, maxDelay)`. */
  function Backoff(cfg: RetryConfig, k: nat): (d: int)
    ensures d <= cfg.maxDelay && d <= cfg.baseDelay * Pow2(k)
    ensures d == cfg.maxDelay || d == cfg.baseDelay * Pow2(k)
  {
    var d := cfg.baseDelay * Pow2(k);
    if d < cfg.maxDelay then d else cfg.maxDelay
  }

  /** With a nonnegative base delay the delays never shrink from one retry to a later one. */
  lemma {:induction false} BackoffNondecreasing(cfg: RetryConfig, i: nat, j: nat)
    requires cfg.baseDelay >= 0 && i <= j
    ensures Backoff(cfg, i) <= Backoff(cfg, j)
  {
    Pow2Monotone(i, j);
    MulMonotone(cfg.baseDelay, Pow2(i), Pow2(j));
  }

  lemma {:induction false} Pow2Monotone(i: nat, j: nat)
    requires i <= j
    ensures Pow2(i) <= Pow2(j)
    decreases j
  {
    if i < j {
      Pow2Monotone(i, j - 1);
    }
  }

  lemma MulMonotone(a: int, x: int, y: int)
    requires a >= 0 && x <= y
    ensures a * x <= a * y
  {
    assert a * y - a * x == a * (y - x);
  }

  /** What a run of `fetchWithRetry` comes to: the result, the attempts made and the delays slept. */
  datatype RetryRun<T> = RetryRun(result: Result<T, FetchError>, attempts: nat, delays: seq<int>)

  /** The retry loop from attempt `k` on. */
  function RetryFrom<T>(cfg: RetryConfig, network: nat -> Attempt<T>, k: nat): RetryRun<T>
    decreases if k <= cfg.maxRetries then cfg.maxRetries - k + 1 else 0
  {
    if k > cfg.maxRetries then RetryRun(Failure(RetryLoopEnded), 0, [])
    else
      var outcome := Classify(network(k));
      if outcome.Success? || k == cfg.maxRetries then RetryRun(outcome, 1, [])
      else
        var rest := RetryFrom(cfg, network, k + 1);
        RetryRun(rest.result, rest.attempts + 1, [Backoff(cfg, k)] + rest.delays)
  }

  /** `fetchWithRetry(url, options, cfg)` against `network`. */
  function Retry<T>(cfg: RetryConfig, network: nat -> Attempt<T>): RetryRun<T> {
    RetryFrom(cfg, network, 0)
  }

  predicate Succeeds<T>(network: nat -> Attempt<T>, k: nat) {
    Classify(network(k)).Success?
  }

  /** Facts about the loop from attempt `k`, proved by induction on the attempts left. */
  lemma {:induction false} RetryFromFacts<T>(cfg: RetryConfig, network: nat -> Attempt<T>, k: nat)
    requires k <= cfg.maxRetries
    ensures var run := RetryFrom(cfg, network, k);
      && 1 <= run.attempts <= cfg.maxRetries - k + 1
      && |run.delays| == run.attempts - 1
      && (forall i :: 0 <= i < |run.delays| ==> run.delays[i] == Backoff(cfg, k + i))
      && (forall i :: k <= i < k + run.attempts - 1 ==> !Succeeds(network, i))
      && run.result == Classify(network(k + run.attempts - 1))
      && (run.result.Success? <==> Succeeds(network, k + run.attempts - 1))
      && (run.result.Failure? ==> k + run.attempts - 1 == cfg.maxRetries)
    decreases cfg.maxRetries - k
  {
    var outcome := Classify(network(k));
    if !(outcome.Success? || k == cfg.maxRetries) {
      RetryFromFacts(cfg, network, k + 1);
      var rest := RetryFrom(cfg, network, k + 1);
      var run := RetryFrom(cfg, network, k);
      assert run.delays == [Backoff(cfg, k)] + rest.delays;
      forall i | 0 <= i < |run.delays| ensures run.delays[i] == Backoff(cfg, k + i) {
        if i > 0 {
          assert run.delays[i] == rest.delays[i - 1];
        }
      }
    }
  }

  /**
   * At most `maxRetries + 1` attempts. The result is that of the last attempt
   * made; every earlier attempt failed, and each failure but the last was
   * followed by the backoff delay of its number.
   */
  lemma RetryAttempts<T>(cfg: RetryConfig, network: nat -> Attempt<T>)
    requires cfg.maxRetries >= 0
    ensures var run := Retry(cfg, network);
      && 1 <= run.attempts <= cfg.maxRetries + 1
      && |run.delays| == run.attempts - 1
      && (forall i :: 0 <= i < |run.delays| ==> run.delays[i] == Backoff(cfg, i))
      && run.result == Classify(network(run.attempts - 1))
  {
    RetryFromFacts(cfg, network, 0);
  }

  /** The data of the first successful attempt is returned, and no attempt follows it. */
  lemma RetryReturnsFirstSuccess<T>(cfg: RetryConfig, network: nat -> Attempt<T>, j: nat)
    requires j <= cfg.maxRetries && Succeeds(network, j)
    requires forall i :: 0 <= i < j ==> !Succeeds(network, i)
    ensures Retry(cfg, network).result == Classify(network(j))
    ensures Retry(cfg, network).result.Success?
    ensures Retry(cfg, network).attempts == j + 1
  {
    RetryFromFacts(cfg, network, 0);
    var last := Retry(cfg, network).attempts - 1;
    if last < j {
      assert false;
    } else if last > j {
      assert false;
    }
  }

  /**
   * When every attempt fails, all `maxRetries + 1` are made, no delay follows
   * the last, and the last attempt's error is what is thrown.
   */
  lemma RetryExhausted<T>(cfg: RetryConfig, network: nat -> Attempt<T>)
    requires cfg.maxRetries >= 0
    requires forall i :: 0 <= i <= cfg.maxRetries ==> !Succeeds(network, i)
    ensures Retry(cfg, network).attempts == cfg.maxRetries + 1
    ensures |Retry(cfg, network).delays| == cfg.maxRetries
    ensures Retry(cfg, network).result == Classify(network(cfg.maxRetries))
    ensures Retry(cfg, network).result.Failure?
  {
    RetryFromFacts(cfg, network, 0);
    assert !Succeeds(network, Retry(cfg, network).attempts - 1);
  }

  /** A negative retry count skips the loop and throws the end-of-loop error without an attempt. */
  lemma RetryWithoutAttempts<T>(cfg: RetryConfig, network: nat -> Attempt<T>)
    requires cfg.maxRetries < 0
    ensures Retry(cfg, network) == RetryRun(Failure(RetryLoopEnded), 0, [])
  {
  }

  /** The retry loop of `fetchWithRetry`; `delays` are the sleeps it requests. */
  method FetchWithRetry<T>(cfg: RetryConfig, network: nat -> Attempt<T>)
    returns (result: Result<T, FetchError>, attempts: nat, delays: seq<int>)
    ensures RetryRun(result, attempts, delays) == Retry(cfg, network)
  {
    var attempt: nat := 0;
    delays := [];
    while attempt <= cfg.maxRetries
      invariant attempt == |delays|
      invariant attempt <= cfg.maxRetries + 1 || attempt == 0
      invariant RetriedUpTo(cfg, network, attempt, delays)
      invariant attempt > cfg.maxRetries ==> cfg.maxRetries < 0
      decreases cfg.maxRetries + 1 - attempt
    {
      var outcome := Classify(network(attempt));
      if outcome.Success? || attempt == cfg.maxRetries {
        LastAttempt(cfg, network, attempt, delays);
        return outcome, attempt + 1, delays;
      }
      NextAttempt(cfg, network, attempt, delays);
      delays := delays + [Backoff(cfg, attempt)];
      attempt := attempt + 1;
    }
    return Failure(RetryLoopEnded), 0, [];
  }

  /** The loop invariant of `FetchWithRetry`: attempts `0 .. attempt - 1` failed after sleeping `delays`. */
  ghost predicate RetriedUpTo<T>(cfg: RetryConfig, network: nat -> Attempt<T>, attempt: nat, delays: seq<int>) {
    attempt <= cfg.maxRetries ==>
      var rest := RetryFrom(cfg, network, attempt);
      Retry(cfg, network) == RetryRun(rest.result, rest.attempts + attempt, delays + rest.delays)
  }

  lemma NextAttempt<T>(cfg: RetryConfig, network: nat -> Attempt<T>, attempt: nat, delays: seq<int>)
    requires attempt < cfg.maxRetries && RetriedUpTo(cfg, network, attempt, delays)
    requires !Classify(network(attempt)).Success?
    ensures RetriedUpTo(cfg, network, attempt + 1, delays + [Backoff(cfg, attempt)])
  {
    var rest := RetryFrom(cfg, network, attempt + 1);
    assert RetryFrom(cfg, network, attempt) == RetryRun(rest.result, rest.attempts + 1, [Backoff(cfg, attempt)] + rest.delays);
    assert delays + ([Backoff(cfg, attempt)] + rest.delays) == (delays + [Backoff(cfg, attempt)]) + rest.delays;
  }

  lemma LastAttempt<T>(cfg: RetryConfig, network: nat -> Attempt<T>, attempt: nat, delays: seq<int>)
    requires attempt <= cfg.maxRetries && RetriedUpTo(cfg, network, attempt, delays)
    requires Classify(network(attempt)).Success? || attempt == cfg.maxRetries
    ensures Retry(cfg, network) == RetryRun(Classify(network(attempt)), attempt + 1, delays)
  {
    assert RetryFrom(cfg, network, attempt) == RetryRun(Classify(network(attempt)), 1, []);
    assert delays + [] == delays;
  }

  // ------------------------------------------------------------ fallbacks

  predicate IsPublicSource(repo: Repo) {
    !repo.fork && !repo.isPrivate
  }

  /**
   * `fetchGitHubRepositories()`; `username` is `GITHUB_USERNAME`, empty when
   * unset. Never fails: any problem yields the sample repositories.
   */
  function FetchGitHubRepositories(username: string, network: nat -> Attempt<Json<Repo>>): (r: seq<Repo>)
    ensures username == "" ==> r == Mocks.MockRepositories
    ensures username != "" && !(Retry(DefaultRetry, network).result.Success?
                                && Retry(DefaultRetry, network).result.value.JArray?) ==>
      r == Mocks.MockRepositories
    ensures username != "" && Retry(DefaultRetry, network).result.Success?
            && Retry(DefaultRetry, network).result.value.JArray? ==>
      var repos := Retry(DefaultRetry, network).result.value.items;
      && (forall i :: 0 <= i < |r| ==> IsPublicSource(r[i]) && r[i] in repos)
      && (forall i :: 0 <= i < |repos| && IsPublicSource(repos[i]) ==> repos[i] in r)
  {
    if username == "" then Mocks.MockRepositories
    else
      var fetched := Retry(DefaultRetry, network).result;
      if fetched.Success? && fetched.value.JArray? then Seqs.Filter(fetched.value.items, IsPublicSource)
      else Mocks.MockRepositories
  }

  /** `fetchGitHubUserEvents()`: the fetched array unchanged, or the sample events. */
  function FetchGitHubUserEvents(username: string, network: nat -> Attempt<Json<Event>>): (r: seq<Event>)
    ensures username != "" && Retry(DefaultRetry, network).result.Success?
            && Retry(DefaultRetry, network).result.value.JArray? ==>
      r == Retry(DefaultRetry, network).result.value.items
    ensures username == "" || !(Retry(DefaultRetry, network).result.Success?
                                && Retry(DefaultRetry, network).result.value.JArray?) ==>
      r == Mocks.MockUserEvents
  {
    if username == "" then Mocks.MockUserEvents
    else
      var fetched := Retry(DefaultRetry, network).result;
      if fetched.Success? && fetched.value.JArray? then fetched.value.items
      else Mocks.MockUserEvents
  }

  /** `checkGitHubAPIStatus()`: whether the rate-limit endpoint answers within one retry. */
  function CheckGitHubAPIStatus<T>(network: nat -> Attempt<T>): bool {
    Retry(StatusRetry, network).result.Success?
  }

  /** The status check makes at most two attempts and is up iff one of them succeeds. */
  lemma CheckStatusWithinTwoAttempts<T>(network: nat -> Attempt<T>)
    ensures CheckGitHubAPIStatus(network) <==> Succeeds(network, 0) || Succeeds(network, 1)
    ensures 1 <= Retry(StatusRetry, network).attempts <= 2
  {
    RetryFromFacts(StatusRetry, network, 0);
    if Succeeds(network, 0) {
      RetryReturnsFirstSuccess(StatusRetry, network, 0);
    } else if Succeeds(network, 1) {
      RetryReturnsFirstSuccess(StatusRetry, network, 1);
    } else {
      RetryExhausted(StatusRetry, network);
    }
  }
}
