/** The mock API's fixed-window rate limiter over whole runs of requests. */
module RateLimiter {
  import opened Tables

  datatype Window = Window(start: real, count: nat)

  /** The window a request at `now` falls into, with the request counted. */
  function After(w: Window, now: real): Window {
    if now - w.start >= 60.0 then Window(now, 1) else w.(count := w.count + 1)
  }

  predicate Admits(limit: int, w: Window, now: real) {
    After(w, now).count <= limit
  }

  /** The seconds a refused request is told to wait. */
  function RetryAfter(w: Window, now: real): int {
    (60.0 - (now - w.start)).Floor + 1
  }

  /** The answer is the least whole number of seconds that reaches beyond the window's end, and at
      most 61 unless the clock went back. */
  lemma RetryAfterIsLeast(w: Window, now: real)
    requires now - w.start < 60.0
    ensures now + (RetryAfter(w, now) - 1) as real <= w.start + 60.0 < now + RetryAfter(w, now) as real
    ensures RetryAfter(w, now) >= 1
    ensures w.start <= now ==> RetryAfter(w, now) <= 61
  {
  }

  class Limiter {
    const limit: int
    var start: real
    var count: nat

    function View(): Window
      reads this
    {
      Window(start, count)
    }

    constructor (limit: int, now: real)
      ensures this.limit == limit && View() == Window(now, 0)
    {
      this.limit, start, count := limit, now, 0;
    }

    method Check(now: real) returns (wait: Option<int>)
      modifies this
      ensures View() == After(old(View()), now)
      ensures wait == if Admits(limit, old(View()), now) then None else Some(RetryAfter(View(), now))
    {
      if now - start >= 60.0 {
        start, count := now, 0;
      }
      count := count + 1;
      if count > limit {
        return Some((60.0 - (now - start)).Floor + 1);
      }
      return None;
    }
  }

  // ---------------------------------------------------------------- runs

  ghost predicate Nondecreasing(times: seq<real>) {
    forall i, j :: 0 <= i < j < |times| ==> times[i] <= times[j]
  }

  function Budget(limit: int): nat { if limit > 0 then limit else 0 }

  function Remaining(limit: int, w: Window): nat { Budget(limit - w.count) }

  /** Requests admitted between `from` (inclusive) and `to` (exclusive). */
  function AdmittedIn(limit: int, w: Window, times: seq<real>, from: real, to: real): nat
    decreases |times|
  {
    if times == [] then 0
    else
      (if from <= times[0] < to && Admits(limit, w, times[0]) then 1 else 0)
      + AdmittedIn(limit, After(w, times[0]), times[1..], from, to)
  }

  /** Requests admitted in the window that starts at `start`. */
  function AdmittedInWindow(limit: int, w: Window, times: seq<real>, start: real): nat
    decreases |times|
  {
    if times == [] then 0
    else
      (if After(w, times[0]).start == start && Admits(limit, w, times[0]) then 1 else 0)
      + AdmittedInWindow(limit, After(w, times[0]), times[1..], start)
  }

  lemma NextWindow(w: Window, now: real)
    ensures After(w, now).start == w.start || After(w, now).start >= w.start + 60.0
    ensures After(w, now).start == w.start || After(w, now).start == now
  {
  }

  /** The windows a run goes through, one before each request and one after the last. */
  function Windows(w: Window, times: seq<real>): (ws: seq<Window>)
    ensures |ws| == |times| + 1
    decreases |times|
  {
    if times == [] then [w] else [w] + Windows(After(w, times[0]), times[1..])
  }

  /** Any two windows of a run are the same or start at least 60 s apart, whatever the clock does. */
  lemma {:induction false} WindowsAreApart(w: Window, times: seq<real>, i: nat, j: nat)
    requires i <= j <= |times|
    ensures var ws := Windows(w, times); ws[j].start == ws[i].start || ws[j].start >= ws[i].start + 60.0
    decreases |times|
  {
    if times != [] && j > 0 {
      WindowsAreApart(After(w, times[0]), times[1..], if i == 0 then 0 else i - 1, j - 1);
      assert Windows(After(w, times[0]), times[1..])[0] == After(w, times[0]);
      NextWindow(w, times[0]);
    }
  }

  /** No window admits more than the limit. */
  lemma {:induction false} AtMostLimitPerWindow(limit: int, w: Window, times: seq<real>, start: real)
    ensures AdmittedInWindow(limit, w, times, start) <=
      if w.start == start then Remaining(limit, w) else if w.start < start then Budget(limit) else 0
    decreases |times|
  {
    if times != [] {
      NextWindow(w, times[0]);
      AtMostLimitPerWindow(limit, After(w, times[0]), times[1..], start);
    }
  }

  lemma {:induction false} NoneAfter(limit: int, w: Window, times: seq<real>, from: real, to: real)
    requires Nondecreasing(times) && times != [] && times[0] >= to
    ensures AdmittedIn(limit, w, times, from, to) == 0
    decreases |times|
  {
    if |times| > 1 {
      assert times[1] >= times[0];
      NoneAfter(limit, After(w, times[0]), times[1..], from, to);
    }
  }

  lemma {:induction false} NoneSince(limit: int, w: Window, times: seq<real>, from: real)
    requires Nondecreasing(times) && w.start >= from
    ensures AdmittedIn(limit, w, times, from, from + 60.0) <= Remaining(limit, w)
    decreases |times|
  {
    if times != [] {
      if times[0] >= from + 60.0 {
        NoneAfter(limit, w, times, from, from + 60.0);
      } else {
        NoneSince(limit, After(w, times[0]), times[1..], from);
      }
    }
  }

  /** From `from` on, a 60-second span meets at most two windows: what was left of one, and a
      fresh one. */
  lemma {:induction false} SpanFrom(limit: int, w: Window, times: seq<real>, from: real)
    requires Nondecreasing(times) && forall i :: 0 <= i < |times| ==> times[i] >= from
    ensures AdmittedIn(limit, w, times, from, from + 60.0) <= Remaining(limit, w) + Budget(limit)
    decreases |times|
  {
    if times != [] {
      var w' := After(w, times[0]);
      if times[0] >= from + 60.0 {
        NoneAfter(limit, w, times, from, from + 60.0);
      } else if w'.start >= from {
        NoneSince(limit, w', times[1..], from);
      } else {
        SpanFrom(limit, w', times[1..], from);
      }
    }
  }

  /** For every run from every state: at most twice the limit in any 60 seconds. */
  lemma {:induction false} TwiceTheLimitPerMinute(limit: int, w: Window, times: seq<real>, from: real)
    requires Nondecreasing(times)
    ensures AdmittedIn(limit, w, times, from, from + 60.0) <= 2 * Budget(limit)
    decreases |times|
  {
    if times == [] || times[0] >= from {
      SpanFrom(limit, w, times, from);
    } else {
      TwiceTheLimitPerMinute(limit, After(w, times[0]), times[1..], from);
    }
  }

  function Burst(n: nat, at: real): seq<real> { seq(n, _ => at) }

  lemma {:induction false} BurstIsAdmitted(
      limit: int, w: Window, n: nat, at: real, more: seq<real>, from: real, to: real)
    requires at - w.start < 60.0 && w.count + n <= limit && from <= at < to
    ensures AdmittedIn(limit, w, Burst(n, at) + more, from, to)
         == n + AdmittedIn(limit, w.(count := w.count + n), more, from, to)
    decreases n
  {
    if n == 0 {
      assert Burst(n, at) + more == more;
    } else {
      var times := Burst(n, at) + more;
      assert times[1..] == Burst(n - 1, at) + more;
      BurstIsAdmitted(limit, After(w, at), n - 1, at, more, from, to);
    }
  }

  /** ... and that many are reached: a full window just before it ends and another right after. */
  lemma TwiceTheLimitIsReached(limit: nat) returns (times: seq<real>, from: real)
    requires limit > 0
    ensures Nondecreasing(times) && (forall i :: 0 <= i < |times| ==> from <= times[i] < from + 60.0)
    ensures AdmittedIn(limit, Window(0.0, 0), times, from, from + 60.0) == 2 * limit
  {
    from := 59.0;
    var second := Burst(limit - 1, 60.0);
    times := Burst(limit, 59.0) + ([60.0] + second);
    BurstIsAdmitted(limit, Window(0.0, 0), limit, 59.0, [60.0] + second, from, from + 60.0);
    assert ([60.0] + second)[1..] == second + [];
    BurstIsAdmitted(limit, Window(60.0, 1), limit - 1, 60.0, [], from, from + 60.0);
  }
}
