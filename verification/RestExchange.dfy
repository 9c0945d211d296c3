/** One page fetched by the client from the rate-limited server, the client being its only caller. */
module RestExchange {
  import opened Tables
  import opened RateLimiter
  import opened RestClient

  /** What the server does with an admitted request, and how long passes before the next one
      besides the sleep after a 429: latency, and the backoff after a 5xx. */
  datatype Round = Round(status: int, delay: real)

  ghost predicate Served(rounds: seq<Round>) {
    forall r :: r in rounds ==>
      r.delay >= 0.0 && (r.status == 200 || (400 <= r.status < 500 && r.status != 429) || 500 <= r.status < 600)
  }

  /** The sleep after a 429: the server's answer if the client gets to see it, else the default. */
  function Sleep(w: Window, now: real, heard: bool): (seconds: nat)
    requires now - w.start < 60.0
    ensures heard ==> now + seconds as real - w.start > 60.0
    ensures !heard ==> seconds == 5
  {
    if heard then RetryAfter(w, now) else DEFAULT_RETRY_AFTER
  }

  /** The replies to one page's requests, until the page is settled or the rounds run out. */
  function Exchange(limit: int, w: Window, now: real, rounds: seq<Round>, attempts: nat, heard: bool): seq<Reply>
    decreases |rounds|
  {
    if rounds == [] then []
    else
      var w' := After(w, now);
      if w'.count > limit then
        var sleep := Sleep(w', now, heard);
        [Reply(429, if heard then Some(sleep) else None)]
        + Exchange(limit, w', now + rounds[0].delay + sleep as real, rounds[1..], attempts, heard)
      else
        [Reply(rounds[0].status, None)]
        + if 500 <= rounds[0].status < 600 && attempts < MAX_RETRIES
          then Exchange(limit, w', now + rounds[0].delay, rounds[1..], attempts + 1, heard)
          else []
  }

  function Waits(limit: int, w: Window, now: real, rounds: seq<Round>, attempts: nat, heard: bool): nat {
    var replies := Exchange(limit, w, now, rounds, attempts, heard);
    Count(replies, |replies|, RateLimited)
  }

  lemma {:induction false} CountOfCons(first: Reply, rest: seq<Reply>, n: nat)
    requires n <= |rest|
    ensures Count([first] + rest, n + 1, RateLimited) ==
      (if RateLimited(first) then 1 else 0) + Count(rest, n, RateLimited)
  {
    if n > 0 {
      CountOfCons(first, rest, n - 1);
    }
  }

  /** One request: a 429 and its sleep, or an admitted request that settles or backs off. */
  lemma WaitsOfNext(limit: int, w: Window, now: real, rounds: seq<Round>, attempts: nat, heard: bool)
    requires rounds != [] && Served(rounds)
    ensures var w' := After(w, now);
      Waits(limit, w, now, rounds, attempts, heard) ==
      if w'.count > limit then
        1 + Waits(limit, w', now + rounds[0].delay + Sleep(w', now, heard) as real, rounds[1..], attempts, heard)
      else if 500 <= rounds[0].status < 600 && attempts < MAX_RETRIES then
        Waits(limit, w', now + rounds[0].delay, rounds[1..], attempts + 1, heard)
      else 0
  {
    var w' := After(w, now);
    assert rounds[0] in rounds;
    if w'.count > limit {
      var sleep := Sleep(w', now, heard);
      var rest := Exchange(limit, w', now + rounds[0].delay + sleep as real, rounds[1..], attempts, heard);
      CountOfCons(Reply(429, if heard then Some(sleep) else None), rest, |rest|);
    } else if 500 <= rounds[0].status < 600 && attempts < MAX_RETRIES {
      var rest := Exchange(limit, w', now + rounds[0].delay, rounds[1..], attempts + 1, heard);
      CountOfCons(Reply(rounds[0].status, None), rest, |rest|);
    } else {
      CountOfCons(Reply(rounds[0].status, None), [], 0);
    }
  }

  /** Sleeping what the server answers always reaches a fresh window, whatever the latency. */
  lemma HeardWaitOpensWindow(w: Window, now: real, delay: real)
    requires delay >= 0.0
    ensures var w' := After(w, now);
      After(w', now + delay + Sleep(w', now, true) as real).count == 1
  {
  }

  /** ... so a client that hears it waits at most once per admitted request: 7 times a page. */
  lemma {:induction false} WaitsWhenHeard(limit: int, w: Window, now: real, rounds: seq<Round>, attempts: nat)
    requires limit >= 1 && Served(rounds) && attempts <= MAX_RETRIES
    ensures Waits(limit, w, now, rounds, attempts, true) <=
      (if After(w, now).count > limit then 1 else 0) + MAX_RETRIES - attempts
    decreases |rounds|
  {
    if rounds != [] {
      var w', rest := After(w, now), rounds[1..];
      WaitsOfNext(limit, w, now, rounds, attempts, true);
      assert rounds[0] in rounds;
      if w'.count > limit {
        HeardWaitOpensWindow(w, now, rounds[0].delay);
        WaitsWhenHeard(limit, w', now + rounds[0].delay + Sleep(w', now, true) as real, rest, attempts);
      } else if 500 <= rounds[0].status < 600 && attempts < MAX_RETRIES {
        WaitsWhenHeard(limit, w', now + rounds[0].delay, rest, attempts + 1);
      }
    }
  }

  /** Deaf waits of 5 s: the window has at most 12 polls left, and each failed attempt can open
      at most one more window. `polls` bounds the polls left in the current one. */
  lemma {:induction false} WaitsWhenDeaf(
      limit: int, w: Window, now: real, rounds: seq<Round>, attempts: nat, polls: nat)
    requires limit >= 1 && Served(rounds) && attempts <= MAX_RETRIES
    requires w.start <= now && 60.0 - (now - w.start) <= 5.0 * polls as real
    ensures Waits(limit, w, now, rounds, attempts, false) <= polls + 12 * (MAX_RETRIES - attempts)
    decreases |rounds|
  {
    if rounds != [] {
      var w', rest := After(w, now), rounds[1..];
      WaitsOfNext(limit, w, now, rounds, attempts, false);
      assert rounds[0] in rounds;
      if w'.count > limit {
        WaitsWhenDeaf(limit, w', now + rounds[0].delay + 5.0, rest, attempts, polls - 1);
      } else if 500 <= rounds[0].status < 600 && attempts < MAX_RETRIES {
        WaitsWhenDeaf(limit, w', now + rounds[0].delay, rest, attempts + 1, 12);
      }
    }
  }

  /** Once a window opened during the page, a limit of 7 is never exhausted by it. */
  lemma {:induction false} NoWaitsInOwnWindow(limit: int, w: Window, now: real, rounds: seq<Round>, attempts: nat)
    requires limit >= MAX_RETRIES + 1 && Served(rounds) && w.count <= attempts <= MAX_RETRIES && w.start <= now
    ensures Waits(limit, w, now, rounds, attempts, false) == 0
    decreases |rounds|
  {
    if rounds != [] {
      WaitsOfNext(limit, w, now, rounds, attempts, false);
      assert rounds[0] in rounds;
      if 500 <= rounds[0].status < 600 && attempts < MAX_RETRIES {
        NoWaitsInOwnWindow(limit, After(w, now), now + rounds[0].delay, rounds[1..], attempts + 1);
      }
    }
  }

  lemma {:induction false} WaitsWithRoom(
      limit: int, w: Window, now: real, rounds: seq<Round>, attempts: nat, polls: nat)
    requires limit >= MAX_RETRIES + 1 && Served(rounds) && attempts <= MAX_RETRIES
    requires w.start <= now && 60.0 - (now - w.start) <= 5.0 * polls as real
    ensures Waits(limit, w, now, rounds, attempts, false) <= polls
    decreases |rounds|
  {
    if rounds != [] {
      var w', rest := After(w, now), rounds[1..];
      WaitsOfNext(limit, w, now, rounds, attempts, false);
      assert rounds[0] in rounds;
      if w'.count > limit {
        WaitsWithRoom(limit, w', now + rounds[0].delay + 5.0, rest, attempts, polls - 1);
      } else if 500 <= rounds[0].status < 600 && attempts < MAX_RETRIES {
        if w'.start == w.start {
          WaitsWithRoom(limit, w', now + rounds[0].delay, rest, attempts + 1, polls);
        } else {
          NoWaitsInOwnWindow(limit, w', now + rounds[0].delay, rest, attempts + 1);
        }
      }
    }
  }

  lemma {:induction false} AlwaysRefused(
      limit: int, w: Window, now: real, rounds: seq<Round>, attempts: nat, heard: bool)
    requires limit <= 0 && Served(rounds)
    ensures Waits(limit, w, now, rounds, attempts, heard) == |rounds|
    decreases |rounds|
  {
    if rounds != [] {
      var w' := After(w, now);
      WaitsOfNext(limit, w, now, rounds, attempts, heard);
      AlwaysRefused(limit, w', now + rounds[0].delay + Sleep(w', now, heard) as real, rounds[1..], attempts, heard);
    }
  }

  /** The composition: the 100-wait cap is out of reach of every exchange exactly when the server
      admits anything at all, whether or not the client hears the header; with a limit of at
      least 7 a deaf client meets at most 12 refusals a page. */
  lemma CapIsUnreachable(limit: int, w: Window, now: real, rounds: seq<Round>, heard: bool)
    requires Served(rounds) && w.start <= now
    ensures limit >= 1 ==> Waits(limit, w, now, rounds, 0, heard) <= if heard then 7 else 84
    ensures limit >= 7 && !heard ==> Waits(limit, w, now, rounds, 0, heard) <= 12
    ensures |rounds| > MAX_RATE_LIMIT_WAITS ==>
      (limit >= 1 <==> Waits(limit, w, now, rounds, 0, heard) <= MAX_RATE_LIMIT_WAITS)
  {
    if limit >= 1 {
      if heard {
        WaitsWhenHeard(limit, w, now, rounds, 0);
      } else {
        WaitsWhenDeaf(limit, w, now, rounds, 0, 12);
      }
    } else {
      AlwaysRefused(limit, w, now, rounds, 0, heard);
    }
    if limit >= 7 && !heard {
      WaitsWithRoom(limit, w, now, rounds, 0, 12);
    }
  }

  // ---------------------------------------------------------------- pages one after the other

  /** The limiter's window and the time once the exchange is over. */
  function Clock(limit: int, w: Window, now: real, rounds: seq<Round>, attempts: nat, heard: bool): (Window, real)
    decreases |rounds|
  {
    if rounds == [] then (w, now)
    else
      var w' := After(w, now);
      if w'.count > limit then
        Clock(limit, w', now + rounds[0].delay + Sleep(w', now, heard) as real, rounds[1..], attempts, heard)
      else if 500 <= rounds[0].status < 600 && attempts < MAX_RETRIES then
        Clock(limit, w', now + rounds[0].delay, rounds[1..], attempts + 1, heard)
      else (w', now + rounds[0].delay)
  }

  lemma {:induction false} ClockMovesOn(
      limit: int, w: Window, now: real, rounds: seq<Round>, attempts: nat, heard: bool)
    requires Served(rounds) && w.start <= now
    ensures var c := Clock(limit, w, now, rounds, attempts, heard); c.0.start <= c.1 && now <= c.1
    decreases |rounds|
  {
    if rounds != [] {
      var w' := After(w, now);
      assert rounds[0] in rounds && Served(rounds[1..]);
      if w'.count > limit {
        ClockMovesOn(limit, w', now + rounds[0].delay + Sleep(w', now, heard) as real, rounds[1..], attempts, heard);
      } else if 500 <= rounds[0].status < 600 && attempts < MAX_RETRIES {
        ClockMovesOn(limit, w', now + rounds[0].delay, rounds[1..], attempts + 1, heard);
      }
    }
  }

  /** The time spent besides sleeping after 429s. */
  ghost function Delays(rounds: seq<Round>, n: nat): real
    requires n <= |rounds|
  {
    if n == 0 then 0.0 else Delays(rounds, n - 1) + rounds[n - 1].delay
  }

  /** When request `i` is made: after every delay before it and whatever the 429s before it cost. */
  ghost function TimeOf(now: real, rounds: seq<Round>, replies: seq<Reply>, i: nat): real
    requires i <= |rounds| && i <= |replies|
  {
    now + Delays(rounds, i) + Slept(replies, i) as real
  }

  ghost function Times(now: real, rounds: seq<Round>, replies: seq<Reply>): (times: seq<real>)
    requires |replies| <= |rounds|
    ensures |times| == |replies| && forall i :: 0 <= i < |times| ==> times[i] == TimeOf(now, rounds, replies, i)
  {
    seq(|replies|, i requires 0 <= i < |replies| => TimeOf(now, rounds, replies, i))
  }

  /** Each request gets what the limiter says at its time: a refusal with the wait, if it is heard,
      or what the server does with it. */
  ghost predicate Answered(limit: int, w: Window, at: real, round: Round, heard: bool, reply: Reply) {
    if !Admits(limit, w, at) then
      reply == Reply(429, if heard then Some(Sleep(After(w, at), at, true)) else None)
    else reply == Reply(round.status, None)
  }

  /** Requests made at `times` to a limiter in window `w` draw `replies` and leave `w'`. */
  ghost predicate Draws(
      limit: int, w: Window, times: seq<real>, rounds: seq<Round>, heard: bool, replies: seq<Reply>, w': Window)
    requires |times| == |replies| <= |rounds|
  {
    var windows := Windows(w, times);
    && w' == windows[|times|]
    && forall i :: 0 <= i < |times| ==> Answered(limit, windows[i], times[i], rounds[i], heard, replies[i])
  }

  lemma {:induction false} DelaysOfNext(rounds: seq<Round>, n: nat)
    requires rounds != [] && n < |rounds|
    ensures Delays(rounds, n + 1) == rounds[0].delay + Delays(rounds[1..], n)
  {
    if n > 0 {
      DelaysOfNext(rounds, n - 1);
    }
  }

  lemma {:induction false} SleptOfCons(first: Reply, rest: seq<Reply>, n: nat)
    requires n <= |rest|
    ensures Slept([first] + rest, n + 1) == Slept([first], 1) + Slept(rest, n)
  {
    if n > 0 {
      SleptOfCons(first, rest, n - 1);
    }
  }

  lemma TimeOfCons(now: real, rounds: seq<Round>, first: Reply, rest: seq<Reply>, i: nat)
    requires i <= |rest| < |rounds|
    ensures TimeOf(now, rounds, [first] + rest, i + 1)
         == TimeOf(now + rounds[0].delay + Slept([first], 1) as real, rounds[1..], rest, i)
  {
    DelaysOfNext(rounds, i);
    SleptOfCons(first, rest, i);
    var head, tail := Slept([first], 1), Slept(rest, i);
    assert (head + tail) as real == head as real + tail as real;
  }

  lemma TimesOfCons(now: real, rounds: seq<Round>, first: Reply, rest: seq<Reply>)
    requires |rest| < |rounds|
    ensures var later := now + rounds[0].delay + Slept([first], 1) as real;
      && Times(now, rounds, [first] + rest) == [now] + Times(later, rounds[1..], rest)
      && TimeOf(now, rounds, [first] + rest, |rest| + 1) == TimeOf(later, rounds[1..], rest, |rest|)
  {
    var later := now + rounds[0].delay + Slept([first], 1) as real;
    TimeOfCons(now, rounds, first, rest, |rest|);
    var all, tail := Times(now, rounds, [first] + rest), Times(later, rounds[1..], rest);
    forall i | 0 <= i < |rest| + 1
      ensures all[i] == ([now] + tail)[i]
    {
      if i > 0 {
        TimeOfCons(now, rounds, first, rest, i - 1);
        assert all[i] == TimeOf(now, rounds, [first] + rest, i);
        assert tail[i - 1] == TimeOf(later, rounds[1..], rest, i - 1);
      }
    }
    assert |all| == |[now] + tail|;
  }

  lemma DrawsNext(
      limit: int, w: Window, now: real, times: seq<real>, rounds: seq<Round>, heard: bool,
      first: Reply, rest: seq<Reply>, w': Window)
    requires |times| == |rest| < |rounds| && Answered(limit, w, now, rounds[0], heard, first)
    requires Draws(limit, After(w, now), times, rounds[1..], heard, rest, w')
    ensures Draws(limit, w, [now] + times, rounds, heard, [first] + rest, w')
  {
    assert ([now] + times)[1..] == times;
    var windows, later := Windows(w, [now] + times), Windows(After(w, now), times);
    forall i | 0 <= i < |times| + 1
      ensures Answered(limit, windows[i], ([now] + times)[i], rounds[i], heard, ([first] + rest)[i])
    {
      if i > 0 {
        assert Answered(limit, later[i - 1], times[i - 1], rounds[1..][i - 1], heard, rest[i - 1]);
      }
    }
  }

  /** The replies are those of a run of the limiter: the requests are as far apart as the delays and
      the waits make them, each is answered by the limiter at its time, and the window and the time
      left behind are those after the last. */
  ghost predicate IsLimited(
      limit: int, w: Window, now: real, rounds: seq<Round>, heard: bool, replies: seq<Reply>, c: (Window, real)) {
    && |replies| <= |rounds|
    && Draws(limit, w, Times(now, rounds, replies), rounds, heard, replies, c.0)
    && c.1 == TimeOf(now, rounds, replies, |replies|)
  }

  lemma LimitedNothing(limit: int, w: Window, now: real, rounds: seq<Round>, heard: bool)
    ensures IsLimited(limit, w, now, rounds, heard, [], (w, now))
  {
  }

  lemma LimitedNext(
      limit: int, w: Window, now: real, rounds: seq<Round>, heard: bool, first: Reply, rest: seq<Reply>,
      later: real, replies: seq<Reply>, c: (Window, real))
    requires rounds != [] && replies == [first] + rest && Answered(limit, w, now, rounds[0], heard, first)
    requires later == now + rounds[0].delay + Slept([first], 1) as real
    requires IsLimited(limit, After(w, now), later, rounds[1..], heard, rest, c)
    ensures IsLimited(limit, w, now, rounds, heard, replies, c)
  {
    TimesOfCons(now, rounds, first, rest);
    DrawsNext(limit, w, now, Times(later, rounds[1..], rest), rounds, heard, first, rest, c.0);
  }

  lemma SleptOfOne(r: Reply)
    ensures Slept([r], 1) == if r.status != 429 then 0 else if r.retryAfter.Some? then r.retryAfter.value else 5
  {
    assert Slept([r], 0) == 0;
  }

  /** A refused request, and what follows it. */
  lemma RefusedStep(limit: int, w: Window, now: real, rounds: seq<Round>, attempts: nat, heard: bool)
    returns (first: Reply, later: real)
    requires rounds != [] && !Admits(limit, w, now)
    ensures Answered(limit, w, now, rounds[0], heard, first)
    ensures later == now + rounds[0].delay + Slept([first], 1) as real
    ensures Exchange(limit, w, now, rounds, attempts, heard)
         == [first] + Exchange(limit, After(w, now), later, rounds[1..], attempts, heard)
    ensures Clock(limit, w, now, rounds, attempts, heard)
         == Clock(limit, After(w, now), later, rounds[1..], attempts, heard)
  {
    var sleep := Sleep(After(w, now), now, heard);
    first, later := Reply(429, if heard then Some(sleep) else None), now + rounds[0].delay + sleep as real;
    SleptOfOne(first);
  }

  /** An admitted one, and what follows unless it settles the page. */
  lemma AdmittedStep(limit: int, w: Window, now: real, rounds: seq<Round>, attempts: nat, heard: bool)
    returns (first: Reply, later: real, goesOn: bool)
    requires rounds != [] && Admits(limit, w, now) && rounds[0].status != 429
    ensures Answered(limit, w, now, rounds[0], heard, first)
    ensures later == now + rounds[0].delay + Slept([first], 1) as real
    ensures Exchange(limit, w, now, rounds, attempts, heard)
         == [first] + if goesOn then Exchange(limit, After(w, now), later, rounds[1..], attempts + 1, heard) else []
    ensures Clock(limit, w, now, rounds, attempts, heard)
         == if goesOn then Clock(limit, After(w, now), later, rounds[1..], attempts + 1, heard)
            else (After(w, now), later)
  {
    first, later := Reply(rounds[0].status, None), now + rounds[0].delay;
    goesOn := 500 <= rounds[0].status < 600 && attempts < MAX_RETRIES;
    SleptOfOne(first);
  }

  /** The exchange is such a run, and Clock is what it leaves behind. */
  lemma {:induction false} ExchangeIsLimited(
      limit: int, w: Window, now: real, rounds: seq<Round>, attempts: nat, heard: bool)
    requires Served(rounds)
    ensures IsLimited(limit, w, now, rounds, heard, Exchange(limit, w, now, rounds, attempts, heard),
                      Clock(limit, w, now, rounds, attempts, heard))
    decreases |rounds|
  {
    if rounds == [] {
      LimitedNothing(limit, w, now, rounds, heard);
      return;
    }
    var w', tail := After(w, now), rounds[1..];
    assert rounds[0] in rounds && Served(tail);
    var first, later, rest;
    if Admits(limit, w, now) {
      var goesOn;
      first, later, goesOn := AdmittedStep(limit, w, now, rounds, attempts, heard);
      if goesOn {
        ExchangeIsLimited(limit, w', later, tail, attempts + 1, heard);
        rest := Exchange(limit, w', later, tail, attempts + 1, heard);
      } else {
        LimitedNothing(limit, w', later, tail, heard);
        rest := [];
      }
    } else {
      first, later := RefusedStep(limit, w, now, rounds, attempts, heard);
      ExchangeIsLimited(limit, w', later, tail, attempts, heard);
      rest := Exchange(limit, w', later, tail, attempts, heard);
    }
    LimitedNext(limit, w, now, rounds, heard, first, rest, later,
                Exchange(limit, w, now, rounds, attempts, heard), Clock(limit, w, now, rounds, attempts, heard));
  }

  /** An exchange goes on until a success, a refusal or a seventh 5xx, or until the rounds end. */
  ghost predicate Shaped(replies: seq<Reply>, rounds: nat, attempts: nat) {
    && AllCounted(replies)
    && (forall i :: 0 <= i < |replies| - 1 ==> replies[i].status != 200 && !Refused(replies[i]))
    && (|replies| == rounds ||
        (|replies| > 0 && var last := replies[|replies| - 1];
         last.status == 200 || Refused(last) ||
         Count(replies, |replies|, Transient) + attempts > MAX_RETRIES))
  }

  lemma {:induction false} TransientsOfCons(first: Reply, rest: seq<Reply>, n: nat)
    requires n <= |rest|
    ensures Count([first] + rest, n + 1, Transient) == (if Transient(first) then 1 else 0) + Count(rest, n, Transient)
  {
    if n > 0 {
      TransientsOfCons(first, rest, n - 1);
    }
  }

  lemma ShapedNext(first: Reply, rest: seq<Reply>, rounds: nat, attempts: nat)
    requires first.status == 429 || Transient(first)
    requires Shaped(rest, rounds, if Transient(first) then attempts + 1 else attempts)
    ensures Shaped([first] + rest, rounds + 1, attempts)
  {
    var replies := [first] + rest;
    TransientsOfCons(first, rest, |rest|);
    forall r | r in replies
      ensures !Uncounted(r)
    {
      assert r == first || r in rest;
    }
    forall i | 0 <= i < |replies| - 1
      ensures replies[i].status != 200 && !Refused(replies[i])
    {
      assert i > 0 ==> replies[i] == rest[i - 1];
    }
    assert |rest| > 0 ==> replies[|replies| - 1] == rest[|rest| - 1];
  }

  lemma ShapedLast(last: Reply, rounds: nat, attempts: nat)
    requires !Uncounted(last) && (last.status == 200 || Refused(last) || (Transient(last) && attempts >= MAX_RETRIES))
    ensures Shaped([last], rounds, attempts)
  {
    TransientsOfCons(last, [], 0);
    assert [last] + [] == [last];
  }

  lemma {:induction false} ExchangeIsShaped(
      limit: int, w: Window, now: real, rounds: seq<Round>, attempts: nat, heard: bool)
    requires Served(rounds)
    ensures Shaped(Exchange(limit, w, now, rounds, attempts, heard), |rounds|, attempts)
    decreases |rounds|
  {
    if rounds != [] {
      var w', rest := After(w, now), rounds[1..];
      assert rounds[0] in rounds && Served(rest);
      if w'.count > limit {
        var sleep := Sleep(w', now, heard);
        var later := now + rounds[0].delay + sleep as real;
        ExchangeIsShaped(limit, w', later, rest, attempts, heard);
        ShapedNext(Reply(429, if heard then Some(sleep) else None), Exchange(limit, w', later, rest, attempts, heard),
                   |rest|, attempts);
      } else if 500 <= rounds[0].status < 600 && attempts < MAX_RETRIES {
        var later := now + rounds[0].delay;
        ExchangeIsShaped(limit, w', later, rest, attempts + 1, heard);
        ShapedNext(Reply(rounds[0].status, None), Exchange(limit, w', later, rest, attempts + 1, heard),
                   |rest|, attempts);
      } else {
        ShapedLast(Reply(rounds[0].status, None), |rounds|, attempts);
      }
    }
  }

  /** The admitted requests draw at most six 5xx and no refusal. */
  ghost predicate Arrives(replies: seq<Reply>) {
    Count(replies, |replies|, Transient) <= MAX_RETRIES && forall r :: r in replies ==> !Refused(r)
  }

  /** Whatever a client made of such an exchange: short of the rate-limit cap, it got the page
      exactly if the exchange lets it arrive. */
  lemma PageExactlyIfArrives(replies: seq<Reply>, rounds: nat, n: nat, outcome: Outcome)
    requires Shaped(replies, rounds, 0) && rounds >= MAX_REQUESTS
    requires Consumed(replies, n, outcome) && (outcome.Waiting? ==> n == |replies|) && !outcome.RateLimitedOut?
    ensures outcome.Page? <==> Arrives(replies)
  {
    Stopped(replies, n, outcome);
    CountGrows(replies, n, |replies|, Transient);
    if n > 0 {
      assert replies[n - 1] in replies;
    }
    if |replies| > 0 {
      assert replies[|replies| - 1] in replies;
    }
  }

  /** The client loop run against the server's limiter; `w'` and `now'` are the limiter's window and
      the time it leaves behind. */
  method FetchPage(limit: int, w: Window, now: real, rounds: seq<Round>, heard: bool, jitter: seq<real>)
    returns (outcome: Outcome, w': Window, now': real)
    requires Served(rounds) && w.start <= now
    requires |jitter| >= MAX_RETRIES && forall i :: 0 <= i < |jitter| ==> 0.0 <= jitter[i] <= 0.5
    ensures (w', now') == Clock(limit, w, now, rounds, 0, heard) && w'.start <= now' && now <= now'
    // what it leaves behind is what the limiter makes of the requests at their times
    ensures IsLimited(limit, w, now, rounds, heard, Exchange(limit, w, now, rounds, 0, heard), (w', now'))
    ensures limit >= 1 ==> !outcome.RateLimitedOut?
    ensures limit <= 0 && |rounds| > MAX_RATE_LIMIT_WAITS ==> outcome.RateLimitedOut?
    // as long as the server answers, the page is fetched exactly if no seventh 5xx and no refusal comes
    ensures limit >= 1 && |rounds| >= MAX_REQUESTS ==>
      (outcome.Page? <==> Arrives(Exchange(limit, w, now, rounds, 0, heard)))
  {
    var replies := Exchange(limit, w, now, rounds, 0, heard);
    CapIsUnreachable(limit, w, now, rounds, heard);
    if limit <= 0 {
      AllRefusals(limit, w, now, rounds, 0, heard);
    }
    var requests, backoff, waited;
    outcome, requests, backoff, waited := GetPage(replies, jitter);
    if limit <= 0 && |rounds| > MAX_RATE_LIMIT_WAITS {
      AllRateLimited(replies, requests);
    }
    if limit >= 1 && |rounds| >= MAX_REQUESTS {
      ExchangeIsShaped(limit, w, now, rounds, 0, heard);
      PageExactlyIfArrives(replies, |rounds|, requests, outcome);
    }
    ClockMovesOn(limit, w, now, rounds, 0, heard);
    ExchangeIsLimited(limit, w, now, rounds, 0, heard);
    var c := Clock(limit, w, now, rounds, 0, heard);
    w', now' := c.0, c.1;
  }

  /** A sync's connection: the limiter as it finds it, and for every page the rounds the server is
      ready to answer and the random parts of the backoff. */
  datatype Link = Link(
    limit: int, w: Window, now: real, rounds: seq<seq<Round>>, jitter: seq<seq<real>>, heard: bool)

  /** The first `n` pages can be asked for as often as it takes. */
  ghost predicate Serves(link: Link, n: nat) {
    && n <= |link.rounds| && n <= |link.jitter| && link.w.start <= link.now
    && (forall k :: 0 <= k < n ==> Served(link.rounds[k]) && |link.rounds[k]| >= MAX_REQUESTS)
    && (forall k :: 0 <= k < n ==> |link.jitter[k]| >= MAX_RETRIES)
    && (forall k, i :: 0 <= k < n && 0 <= i < |link.jitter[k]| ==> 0.0 <= link.jitter[k][i] <= 0.5)
  }

  /** The window and the time when page `k` (from 0) is asked for. */
  function At(link: Link, k: nat): (Window, real)
    requires k <= |link.rounds|
  {
    if k == 0 then (link.w, link.now)
    else
      var c := At(link, k - 1);
      Clock(link.limit, c.0, c.1, link.rounds[k - 1], 0, link.heard)
  }

  ghost predicate PageArrives(link: Link, k: nat)
    requires k < |link.rounds|
  {
    Arrives(Exchange(link.limit, At(link, k).0, At(link, k).1, link.rounds[k], 0, link.heard))
  }

  ghost predicate AllArrive(link: Link, n: nat)
    requires n <= |link.rounds|
  {
    forall k: nat :: k < n ==> PageArrives(link, k)
  }

  /** Fetches page `k`, every page before it having arrived. */
  method FetchNext(link: Link, k: nat, w: Window, now: real) returns (arrived: bool, w': Window, now': real)
    requires Serves(link, k + 1) && (w, now) == At(link, k) && w.start <= now
    requires AllArrive(link, k) || link.limit <= 0
    ensures (w', now') == At(link, k + 1) && w'.start <= now'
    ensures arrived ==> link.limit >= 1 && AllArrive(link, k + 1)
    ensures !arrived ==> link.limit <= 0 || !PageArrives(link, k)
  {
    var outcome;
    outcome, w', now' := FetchPage(link.limit, w, now, link.rounds[k], link.heard, link.jitter[k]);
    arrived := outcome.Page?;
  }

  lemma {:induction false} AllRefusals(limit: int, w: Window, now: real, rounds: seq<Round>, attempts: nat, heard: bool)
    requires limit <= 0 && Served(rounds)
    ensures var replies := Exchange(limit, w, now, rounds, attempts, heard);
      |replies| == |rounds| && forall r :: r in replies ==> r.status == 429
    decreases |rounds|
  {
    if rounds != [] {
      var w' := After(w, now);
      AllRefusals(limit, w', now + rounds[0].delay + Sleep(w', now, heard) as real, rounds[1..], attempts, heard);
    }
  }

  lemma {:induction false} AllRateLimited(replies: seq<Reply>, n: nat)
    requires n <= |replies| && forall r :: r in replies ==> r.status == 429
    ensures Count(replies, n, RateLimited) == n && Count(replies, n, Transient) == 0
  {
    if n > 0 {
      AllRateLimited(replies, n - 1);
    }
  }
}
