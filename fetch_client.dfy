/**
  The play-by-play client (nhlGamePlayByPlay in src/cron/fetchGameResults.js).

  The network is replaced by the sequence of responses the provider would give
  to successive requests; running out of responses stands for a request that
  rejects (a network error). The sleeps between attempts are recorded as the
  list of delays rather than performed.
 */
module FetchClient {

  /** Default of GAME_SYNC_MAX_RETRIES. */
  const DefaultMaxRetries429: int := 5
  /** Upper bound of the exponential backoff, in milliseconds. */
  const MaxBackoffMs: int := 16000

  /** One HTTP response: its status, the Retry-After header read with
      parseInt (0 when absent or unreadable) and the parsed body. */
  datatype Response<P> = Response(status: int, retryAfter: int, body: P)

  datatype FetchError =
    | HttpError(status: int)           // a non-2xx status other than 429
    | RateLimitExhausted(retries: int)  // 429 on the last permitted attempt
    | NoResponse                        // the request itself rejected

  datatype Result<T> = Success(value: T) | Failure(error: FetchError)

  /** What one call did: its result, the delays slept and the responses received
      (a request that got no response is not counted). */
  datatype Fetched<P> = Fetched(result: Result<P>, delays: seq<int>, requests: nat)

  function Pow2(k: nat): (r: nat)
    ensures r >= 1
  {
    if k == 0 then 1 else 2 * Pow2(k - 1)
  }

  predicate IsOk(status: int) {
    200 <= status < 300
  }

  /** The wait before retrying after a 429 on attempt number attempt. */
  function BackoffDelay(attempt: int, retryAfter: int): (d: int)
    requires attempt >= 1
    ensures retryAfter > 0 ==> d == retryAfter * 1000
    ensures retryAfter <= 0 ==> 1000 <= d <= MaxBackoffMs
    ensures retryAfter <= 0 && attempt <= 5 ==> d == 1000 * Pow2(attempt - 1)
    ensures retryAfter <= 0 && attempt >= 5 ==> d == MaxBackoffMs
  {
    if retryAfter > 0 then retryAfter * 1000
    else
      var exp := 1000 * Pow2(attempt - 1);
      Pow2Grows(attempt - 1);
      if exp < MaxBackoffMs then exp else MaxBackoffMs
  }

  lemma {:induction false} Pow2Grows(k: nat)
    ensures k >= 4 ==> Pow2(k) >= 16
    ensures k <= 4 ==> Pow2(k) <= 16
  {
    if k > 0 {
      Pow2Grows(k - 1);
    }
  }

  /** How many requests the retry bound allows from attempt number attempt on. */
  function AllowedRequests(attempt: int, maxRetries: int): (n: nat)
    ensures n >= 1
  {
    if attempt <= maxRetries then maxRetries - attempt + 2 else 1
  }

  /** The request loop from attempt number attempt: on 429 it sleeps, then retries
      while attempt <= maxRetries and otherwise fails; a non-2xx status fails at once;
      a 2xx status yields the body. */
  function FetchPlayByPlay<P>(responses: seq<Response<P>>, attempt: int, maxRetries: int): (f: Fetched<P>)
    requires attempt >= 1
    ensures f.requests <= |responses| && f.requests <= AllowedRequests(attempt, maxRetries)
    ensures responses != [] ==> 1 <= f.requests
    ensures responses == [] ==> f.result == Failure(NoResponse)
    // one sleep per 429, each after the request that got it
    ensures |f.delays| <= f.requests
    ensures forall i :: 0 <= i < |f.delays| ==>
              responses[i].status == 429 &&
              f.delays[i] == BackoffDelay(attempt + i, responses[i].retryAfter)
    // a body is returned only from the first non-429 response, when it is 2xx
    ensures f.result.Success? ==>
              f.requests >= 1 && |f.delays| == f.requests - 1 &&
              IsOk(responses[f.requests - 1].status) &&
              f.result.value == responses[f.requests - 1].body
    ensures f.result.Failure? && f.result.error.HttpError? ==>
              f.requests >= 1 && |f.delays| == f.requests - 1 &&
              f.result.error.status == responses[f.requests - 1].status &&
              f.result.error.status != 429 && !IsOk(f.result.error.status)
    ensures f.result.Failure? && f.result.error.RateLimitExhausted? ==>
              |f.delays| == f.requests == AllowedRequests(attempt, maxRetries)
    decreases |responses|
  {
    if responses == [] then Fetched(Failure(NoResponse), [], 0)
    else
      var res := responses[0];
      if res.status == 429 then
        var delay := BackoffDelay(attempt, res.retryAfter);
        if attempt <= maxRetries then
          var rest := FetchPlayByPlay(responses[1..], attempt + 1, maxRetries);
          Fetched(rest.result, [delay] + rest.delays, rest.requests + 1)
        else
          Fetched(Failure(RateLimitExhausted(attempt - 1)), [delay], 1)
      else if !IsOk(res.status) then Fetched(Failure(HttpError(res.status)), [], 1)
      else Fetched(Success(res.body), [], 1)
  }

  /** The call gives up on rate limiting exactly when every permitted attempt got a 429,
      and it then reports maxRetries retries (none when maxRetries < 1). */
  lemma {:induction false} ExhaustedIff<P>(responses: seq<Response<P>>, attempt: int, maxRetries: int)
    requires attempt >= 1
    ensures var f := FetchPlayByPlay(responses, attempt, maxRetries);
            var n := AllowedRequests(attempt, maxRetries);
            (f.result.Failure? && f.result.error.RateLimitExhausted?) <==>
            (|responses| >= n && forall i :: 0 <= i < n ==> responses[i].status == 429)
    ensures var f := FetchPlayByPlay(responses, attempt, maxRetries);
            f.result.Failure? && f.result.error.RateLimitExhausted? ==>
            f.result.error.retries == (if maxRetries >= attempt - 1 then maxRetries else attempt - 1)
    decreases |responses|
  {
    var n := AllowedRequests(attempt, maxRetries);
    if responses != [] && responses[0].status == 429 && attempt <= maxRetries {
      ExhaustedIff(responses[1..], attempt + 1, maxRetries);
      var m := AllowedRequests(attempt + 1, maxRetries);
      assert n == m + 1;
      if |responses| >= n && forall i :: 0 <= i < n ==> responses[i].status == 429 {
        assert forall i :: 0 <= i < m ==> responses[1..][i].status == 429 by {
          forall i | 0 <= i < m ensures responses[1..][i].status == 429 {
            assert responses[1..][i] == responses[i + 1];
          }
        }
      }
      if |responses[1..]| >= m && forall i :: 0 <= i < m ==> responses[1..][i].status == 429 {
        forall i | 0 <= i < n ensures responses[i].status == 429 {
          if i > 0 {
            assert responses[i] == responses[1..][i - 1];
          }
        }
      }
    }
  }

  /** The first response that is not a 429, when it comes within the permitted number
      of requests, decides the call: its body when it is 2xx, its status otherwise,
      after exactly k + 1 requests and k sleeps. */
  lemma {:induction false} FirstNon429Decides<P>(responses: seq<Response<P>>, attempt: int, maxRetries: int, k: nat)
    requires attempt >= 1
    requires k < AllowedRequests(attempt, maxRetries) && k < |responses|
    requires forall i :: 0 <= i < k ==> responses[i].status == 429
    requires responses[k].status != 429
    ensures var f := FetchPlayByPlay(responses, attempt, maxRetries);
            && f.requests == k + 1
            && |f.delays| == k
            && f.result == (if IsOk(responses[k].status) then Success(responses[k].body)
                            else Failure(HttpError(responses[k].status)))
    decreases k
  {
    if k > 0 {
      assert attempt <= maxRetries;
      forall i | 0 <= i < k - 1 ensures responses[1..][i].status == 429 {
        assert responses[1..][i] == responses[i + 1];
      }
      assert responses[1..][k - 1] == responses[k];
      FirstNon429Decides(responses[1..], attempt + 1, maxRetries, k - 1);
    }
  }
}
