/** Fetching one page: two retry budgets against any stream of replies. */
module RestClient {
  import opened Tables

  const MAX_RETRIES := 6
  const MAX_RATE_LIMIT_WAITS := 100
  const DEFAULT_RETRY_AFTER := 5
  const MAX_REQUESTS := MAX_RATE_LIMIT_WAITS + MAX_RETRIES + 1

  datatype Reply = Reply(status: int, retryAfter: Option<nat>)

  /** Waiting: the replies given ran out before the page was settled. */
  datatype Outcome = Page | RateLimitedOut | TransientOut | Rejected(status: int) | Waiting

  predicate RateLimited(r: Reply) { r.status == 429 }
  predicate Transient(r: Reply) { 500 <= r.status < 600 }
  predicate Refused(r: Reply) { 400 <= r.status < 500 && r.status != 429 }

  /** raise_for_status lets every other status through, and the loop asks again uncounted. */
  predicate Uncounted(r: Reply) { r.status != 200 && !(400 <= r.status < 600) }

  ghost predicate AllCounted(replies: seq<Reply>) { forall r :: r in replies ==> !Uncounted(r) }

  ghost predicate NoneCounted(replies: seq<Reply>) { forall r :: r in replies ==> Uncounted(r) }

  /** How many of the first `n` replies satisfy `p`. */
  function Count(replies: seq<Reply>, n: nat, p: Reply -> bool): nat
    requires n <= |replies|
  {
    if n == 0 then 0 else Count(replies, n - 1, p) + if p(replies[n - 1]) then 1 else 0
  }

  function Power2(n: nat): nat { if n == 0 then 1 else 2 * Power2(n - 1) }

  /** What the first `n` backoff sleeps take together: 1, 2, 4, ... seconds and the random parts. */
  function BackoffTime(jitter: seq<real>, n: nat): real
    requires n <= |jitter|
  {
    if n == 0 then 0.0 else BackoffTime(jitter, n - 1) + Power2(n - 1) as real + jitter[n - 1]
  }

  /** The time the first `n` replies make a client sleep for 429s. */
  function Slept(replies: seq<Reply>, n: nat): nat
    requires n <= |replies|
  {
    if n == 0 then 0
    else
      var r := replies[n - 1];
      Slept(replies, n - 1) +
      if !RateLimited(r) then 0 else if r.retryAfter.Some? then r.retryAfter.value else DEFAULT_RETRY_AFTER
  }

  /** The replies that end the page: a success, a refusal, or a budget overdrawn. */
  ghost predicate Settles(replies: seq<Reply>) {
    || (exists r :: r in replies && (r.status == 200 || Refused(r)))
    || Count(replies, |replies|, RateLimited) > MAX_RATE_LIMIT_WAITS
    || Count(replies, |replies|, Transient) > MAX_RETRIES
  }

  /** Each of the first `n` replies asks for another request. */
  ghost predicate PassedOver(replies: seq<Reply>, n: nat)
    requires n <= |replies|
  {
    forall i :: 0 <= i < n ==> replies[i].status != 200 && !Refused(replies[i])
  }

  /** After the reply `last` the outcome is what that reply, or a budget it overdrew, made it. */
  ghost predicate Means(outcome: Outcome, last: Reply, waits: nat, attempts: nat) {
    && (outcome.Page? <==> last.status == 200)
    && (outcome.Rejected? <==> Refused(last)) && (outcome.Rejected? ==> outcome.status == last.status)
    && waits <= MAX_RATE_LIMIT_WAITS + 1 && attempts <= MAX_RETRIES + 1
    && (outcome.RateLimitedOut? <==> waits == MAX_RATE_LIMIT_WAITS + 1)
    && (outcome.TransientOut? <==> attempts == MAX_RETRIES + 1)
  }

  /** `outcome` is what the first `n` replies, of which only the last can have ended the page, made it. */
  ghost predicate Consumed(replies: seq<Reply>, n: nat, outcome: Outcome) {
    && n <= |replies| && (n == 0 ==> outcome.Waiting?)
    && (n > 0 ==>
          && PassedOver(replies, n - 1)
          && Means(outcome, replies[n - 1], Count(replies, n, RateLimited), Count(replies, n, Transient)))
  }

  /** What a reply makes of the page, with the two counts including it. */
  function Judged(r: Reply, waits: nat, attempts: nat): Outcome {
    if r.status == 200 then Page
    else if r.status == 429 then (if waits > MAX_RATE_LIMIT_WAITS then RateLimitedOut else Waiting)
    else if 500 <= r.status < 600 then (if attempts > MAX_RETRIES then TransientOut else Waiting)
    else if 400 <= r.status < 600 then Rejected(r.status)
    else Waiting
  }

  lemma JudgedMeans(r: Reply, waits: nat, attempts: nat)
    requires waits <= MAX_RATE_LIMIT_WAITS && attempts <= MAX_RETRIES
    ensures var (w, a) := (waits + if RateLimited(r) then 1 else 0, attempts + if Transient(r) then 1 else 0);
      Means(Judged(r, w, a), r, w, a)
  {
  }

  lemma ConsumedNext(replies: seq<Reply>, n: nat, outcome: Outcome)
    requires n < |replies| && Consumed(replies, n, Waiting)
    requires outcome == Judged(replies[n], Count(replies, n + 1, RateLimited), Count(replies, n + 1, Transient))
    ensures Consumed(replies, n + 1, outcome)
  {
    JudgedMeans(replies[n], Count(replies, n, RateLimited), Count(replies, n, Transient));
    assert PassedOver(replies, n);
  }

  /** What follows once the loop has stopped. */
  lemma Stopped(replies: seq<Reply>, n: nat, outcome: Outcome)
    requires Consumed(replies, n, outcome) && (outcome.Waiting? ==> n == |replies|)
    ensures outcome.Waiting? <==> !Settles(replies)
    ensures Count(replies, |replies|, RateLimited) <= MAX_RATE_LIMIT_WAITS ==> !outcome.RateLimitedOut?
    ensures AllCounted(replies) ==> n <= MAX_REQUESTS && (|replies| >= MAX_REQUESTS ==> !outcome.Waiting?)
    ensures NoneCounted(replies) ==> outcome.Waiting?
  {
    CountGrows(replies, n, |replies|, RateLimited);
    CountGrows(replies, n, |replies|, Transient);
    if n > 0 {
      assert replies[n - 1] in replies;
      EachCounted(replies, n - 1);
    }
    Unsettled(replies);
  }

  /** `jitter` are the random parts of the backoff sleeps. `requests` replies are consumed;
      `backoff` is the time slept for 5xx replies, `waited` for 429s. */
  method GetPage(replies: seq<Reply>, jitter: seq<real>)
    returns (outcome: Outcome, requests: nat, backoff: real, waited: nat)
    requires |jitter| >= MAX_RETRIES && forall i :: 0 <= i < |jitter| ==> 0.0 <= jitter[i] <= 0.5
    ensures requests <= |replies| && (!outcome.Waiting? ==> requests > 0)
    ensures outcome.Waiting? ==> requests == |replies|
    // what the outcome means, which budget ran out, and that the two never mix
    ensures Consumed(replies, requests, outcome)
    // exactly which replies settle the page
    ensures outcome.Waiting? <==> !Settles(replies)
    ensures Count(replies, |replies|, RateLimited) <= MAX_RATE_LIMIT_WAITS ==> !outcome.RateLimitedOut?
    // what is slept: a backoff for every 5xx and what the server asked for at every 429, except for
    // the reply that exhausts a budget
    ensures Count(replies, requests, Transient) <= MAX_RETRIES + 1
    ensures backoff == BackoffTime(jitter, Count(replies, requests, Transient) - if outcome.TransientOut? then 1 else 0)
    ensures 0.0 <= backoff <= 66.0
    ensures waited == Slept(replies, if outcome.RateLimitedOut? then requests - 1 else requests)
    // without uncounted statuses the page is settled within 107 requests; with nothing else, never
    ensures AllCounted(replies) ==> requests <= MAX_REQUESTS && (|replies| >= MAX_REQUESTS ==> !outcome.Waiting?)
    ensures NoneCounted(replies) ==> outcome.Waiting?
  {
    var waits, attempts := 0, 0;
    outcome, requests, backoff, waited := Waiting, 0, 0.0, 0;
    while requests < |replies| && outcome.Waiting?
      invariant Consumed(replies, requests, outcome)
      invariant waits == Count(replies, requests, RateLimited) && attempts == Count(replies, requests, Transient)
      invariant waited == Slept(replies, if outcome.RateLimitedOut? then requests - 1 else requests)
      invariant attempts <= if outcome.TransientOut? then MAX_RETRIES + 1 else MAX_RETRIES
      invariant outcome.TransientOut? ==> attempts > 0
      invariant backoff == BackoffTime(jitter, if outcome.TransientOut? then attempts - 1 else attempts)
    {
      var resp := replies[requests];
      requests := requests + 1;
      if resp.status == 200 {
        outcome := Page;
      } else if resp.status == 429 {
        waits := waits + 1;
        if waits > MAX_RATE_LIMIT_WAITS {
          outcome := RateLimitedOut;
        } else {
          waited := waited + if resp.retryAfter.Some? then resp.retryAfter.value else DEFAULT_RETRY_AFTER;
        }
      } else if 500 <= resp.status < 600 {
        attempts := attempts + 1;
        if attempts > MAX_RETRIES {
          outcome := TransientOut;
        } else {
          backoff := backoff + Power2(attempts - 1) as real + jitter[attempts - 1];
        }
      } else if 400 <= resp.status < 600 {
        outcome := Rejected(resp.status);
      }
      ConsumedNext(replies, requests - 1, outcome);
    }
    Stopped(replies, requests, outcome);
    BackoffIsCapped(jitter, if outcome.TransientOut? then attempts - 1 else attempts);
  }

  /** Replies that neither succeed nor refuse are counted in one budget or the other, or in none. */
  lemma {:induction false} EachCounted(replies: seq<Reply>, n: nat)
    requires n <= |replies| && PassedOver(replies, n)
    ensures AllCounted(replies) ==> Count(replies, n, RateLimited) + Count(replies, n, Transient) == n
    ensures NoneCounted(replies) ==> Count(replies, n, RateLimited) + Count(replies, n, Transient) == 0
  {
    if n > 0 {
      EachCounted(replies, n - 1);
      assert replies[n - 1] in replies;
    }
  }

  /** Enough counted replies settle a page, uncounted ones alone never do. */
  lemma Unsettled(replies: seq<Reply>)
    ensures AllCounted(replies) && |replies| >= MAX_REQUESTS ==> Settles(replies)
    ensures NoneCounted(replies) ==> !Settles(replies)
  {
    if forall r :: r in replies ==> r.status != 200 && !Refused(r) {
      EachCounted(replies, |replies|);
    }
  }

  lemma {:induction false} CountGrows(replies: seq<Reply>, m: nat, n: nat, p: Reply -> bool)
    requires m <= n <= |replies|
    ensures Count(replies, m, p) <= Count(replies, n, p)
  {
    if m < n {
      CountGrows(replies, m, n - 1, p);
    }
  }

  lemma {:induction false} PowersOfTwo(n: nat)
    requires n <= MAX_RETRIES
    ensures Power2(n) == [1, 2, 4, 8, 16, 32, 64][n]
  {
    if n > 0 {
      PowersOfTwo(n - 1);
    }
  }

  lemma {:induction false} BackoffIsCapped(jitter: seq<real>, n: nat)
    requires n <= MAX_RETRIES <= |jitter| && forall i :: 0 <= i < |jitter| ==> 0.0 <= jitter[i] <= 0.5
    ensures 0.0 <= BackoffTime(jitter, n) <= [0.0, 1.5, 4.0, 8.5, 17.0, 33.5, 66.0][n] <= 66.0
  {
    if n > 0 {
      PowersOfTwo(n - 1);
      BackoffIsCapped(jitter, n - 1);
    }
  }
}
