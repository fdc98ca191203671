/** What the limiter grants: the exact condition under which a request is denied. */
module RateGuarantee {
  import opened Common
  import opened RateLimiter

  /** The whole tokens that a stretch of time earns; none if the clock reading is an earlier one. */
  function Whole(elapsed: real, speed: real): nat {
    if elapsed * speed >= 1.0 then (elapsed * speed).Floor else 0
  }

  /** When the bucket was last refilled before the n-th request: a refill that earns nothing leaves that time. */
  function LastRefill(start: real, times: seq<real>, speed: real, n: nat): real
    requires n <= |times|
  {
    if n == 0 then start
    else
      var last := LastRefill(start, times, speed, n - 1);
      if Whole(times[n - 1] - last, speed) > 0 then times[n - 1] else last
  }

  /** What the refill at the n-th request earns. */
  function Earned(start: real, times: seq<real>, speed: real, n: nat): nat
    requires n < |times|
  {
    Whole(times[n] - LastRefill(start, times, speed, n), speed)
  }

  /** What the refills after the i-th request earn, up to the one at the n-th. */
  function EarnedAfter(start: real, times: seq<real>, speed: real, i: nat, n: nat): nat
    requires i <= n < |times|
  {
    if i == n then 0 else EarnedAfter(start, times, speed, i, n - 1) + Earned(start, times, speed, n)
  }

  /** The bucket that the n-th request meets. */
  function Met(b: Bucket, times: seq<real>, rate: int, speed: real, n: nat): Bucket
    requires n <= |times|
  {
    if n == 0 then b else Taken(Met(b, times, rate, speed, n - 1), times[n - 1], rate, speed).0
  }

  predicate Passes(b: Bucket, times: seq<real>, rate: int, speed: real, n: nat)
    requires n < |times|
  {
    Taken(Met(b, times, rate, speed, n), times[n], rate, speed).1
  }

  /** How many of the requests from the i-th on, up to but not including the n-th, are let through. */
  function Passed(b: Bucket, times: seq<real>, rate: int, speed: real, i: nat, n: nat): nat
    requires i <= n <= |times|
  {
    if i == n then 0 else Passed(b, times, rate, speed, i, n - 1) + if Passes(b, times, rate, speed, n - 1) then 1 else 0
  }

  /** The tokens in the bucket once it is refilled for the n-th request. */
  function TokensAt(b: Bucket, times: seq<real>, rate: int, speed: real, n: nat): int
    requires n < |times|
  {
    Refilled(Met(b, times, rate, speed, n), times[n], rate, speed).tokens
  }

  lemma WholeIsTrunc(elapsed: real, speed: real)
    ensures Whole(elapsed, speed) == Max(0, Trunc(Worth(elapsed, speed)))
  {
  }

  lemma {:induction false} MetIsRefilled(b: Bucket, times: seq<real>, rate: int, speed: real, n: nat)
    requires n <= |times| && Level(b, rate)
    ensures Met(b, times, rate, speed, n).lastRefill == LastRefill(b.lastRefill, times, speed, n)
    ensures Level(Met(b, times, rate, speed, n), rate)
  {
    if n > 0 {
      MetIsRefilled(b, times, rate, speed, n - 1);
      WholeIsTrunc(times[n - 1] - LastRefill(b.lastRefill, times, speed, n - 1), speed);
    }
  }

  /** From one request to the next: what was left, and what is earned, up to the rate. */
  lemma NextTokens(b: Bucket, times: seq<real>, rate: int, speed: real, n: nat)
    requires n < |times| && Level(b, rate)
    ensures var left := if n == 0 then b.tokens
                        else TokensAt(b, times, rate, speed, n - 1) - if Passes(b, times, rate, speed, n - 1) then 1 else 0;
            TokensAt(b, times, rate, speed, n) == Min(left + Earned(b.lastRefill, times, speed, n), rate)
    ensures Passes(b, times, rate, speed, n) <==> TokensAt(b, times, rate, speed, n) > 0
  {
    MetIsRefilled(b, times, rate, speed, n);
    WholeIsTrunc(times[n] - LastRefill(b.lastRefill, times, speed, n), speed);
  }

  /** Tokens that would be there had the bucket never been full since before the first request. */
  function Since(b: Bucket, times: seq<real>, rate: int, speed: real, n: nat): int
    requires n < |times|
  {
    b.tokens + Earned(b.lastRefill, times, speed, 0) + EarnedAfter(b.lastRefill, times, speed, 0, n) - Passed(b, times, rate, speed, 0, n)
  }

  /** Tokens that would be there had the bucket been full at the i-th request and never since. */
  function SinceFull(b: Bucket, times: seq<real>, rate: int, speed: real, i: nat, n: nat): int
    requires i <= n < |times|
  {
    rate + EarnedAfter(b.lastRefill, times, speed, i, n) - Passed(b, times, rate, speed, i, n)
  }

  /** Both move by what is earned and taken at the next request. */
  lemma NextSince(b: Bucket, times: seq<real>, rate: int, speed: real, i: nat, n: nat)
    requires i <= n && n + 1 < |times|
    ensures var gain := Earned(b.lastRefill, times, speed, n + 1) - if Passes(b, times, rate, speed, n) then 1 else 0;
            && Since(b, times, rate, speed, n + 1) == Since(b, times, rate, speed, n) + gain
            && SinceFull(b, times, rate, speed, i, n + 1) == SinceFull(b, times, rate, speed, i, n) + gain
  {
  }

  lemma {:induction false} TokensAreAtMost(b: Bucket, times: seq<real>, rate: int, speed: real, i: nat, n: nat)
    requires i <= n < |times| && Level(b, rate)
    ensures TokensAt(b, times, rate, speed, n) <= Since(b, times, rate, speed, n)
    ensures TokensAt(b, times, rate, speed, n) <= SinceFull(b, times, rate, speed, i, n)
    decreases n
  {
    NextTokens(b, times, rate, speed, n);
    if n > 0 {
      TokensAreAtMost(b, times, rate, speed, if i < n then i else 0, n - 1);
      NextSince(b, times, rate, speed, if i < n then i else 0, n - 1);
    }
  }

  /** The tokens are one of these. */
  lemma {:induction false} TokensAreOneOf(b: Bucket, times: seq<real>, rate: int, speed: real, n: nat) returns (i: int)
    requires n < |times| && Level(b, rate)
    ensures -1 <= i <= n
    ensures TokensAt(b, times, rate, speed, n) == if i < 0 then Since(b, times, rate, speed, n) else SinceFull(b, times, rate, speed, i, n)
  {
    NextTokens(b, times, rate, speed, n);
    if TokensAt(b, times, rate, speed, n) == rate {
      return n;
    }
    i := -1;
    if n > 0 {
      i := TokensAreOneOf(b, times, rate, speed, n - 1);
      NextSince(b, times, rate, speed, if i < 0 then 0 else i, n - 1);
    }
  }

  /** At least as many requests were let through from the i-th on as a full bucket had at most to give, together with
      what was earned since. */
  predicate Spent(b: Bucket, times: seq<real>, rate: int, speed: real, i: int, n: nat)
    requires n < |times|
  {
    0 <= i <= n && Passed(b, times, rate, speed, i, n) >= rate + EarnedAfter(b.lastRefill, times, speed, i, n)
  }

  /** A request is denied exactly when at least as many were let through before it, counted from the first one or
      from some other, as the bucket held and has earned at the first one, or could hold at most at the other, and
      has earned from then on. */
  lemma DeniedExactly(b: Bucket, times: seq<real>, rate: int, speed: real, n: nat)
    requires n < |times| && Level(b, rate)
    ensures !Passes(b, times, rate, speed, n) <==>
            || Passed(b, times, rate, speed, 0, n) >=
               b.tokens + Earned(b.lastRefill, times, speed, 0) + EarnedAfter(b.lastRefill, times, speed, 0, n)
            || (exists i :: Spent(b, times, rate, speed, i, n))
  {
    NextTokens(b, times, rate, speed, n);
    TokensAreAtMost(b, times, rate, speed, 0, n);
    if i :| Spent(b, times, rate, speed, i, n) {
      TokensAreAtMost(b, times, rate, speed, i, n);
    }
    var i := TokensAreOneOf(b, times, rate, speed, n);
    assert i >= 0 && TokensAt(b, times, rate, speed, n) <= 0 ==> Spent(b, times, rate, speed, i, n);
  }

  /// ---------------------------------------------------------------------
  /// The whole limiter
  /// ---------------------------------------------------------------------

  /** The answers to the requests for one key. */
  function AnswersTo(events: seq<Event>, answers: seq<bool>, key: string): seq<bool>
    decreases |events|
  {
    if events == [] || answers == [] then []
    else if events[0].Cleanup? then AnswersTo(events[1..], answers, key)
    else (if events[0].key == key then [answers[0]] else []) + AnswersTo(events[1..], answers[1..], key)
  }

  ghost predicate AllTrue(answers: seq<bool>) {
    forall i :: 0 <= i < |answers| ==> answers[i]
  }

  /** The bucket of a key, if there is one, holds at least so many tokens. */
  ghost predicate Holds(m: Buckets, key: string, rate: int, tokens: nat) {
    key in m ==> Level(m[key], rate) && m[key].tokens >= tokens
  }

  lemma TakenLeaves(b: Bucket, now: real, rate: int, speed: real)
    requires Level(b, rate) && b.tokens > 0
    ensures var (b', ok) := Taken(b, now, rate, speed); ok && Level(b', rate) && b'.tokens >= b.tokens - 1
  {
  }

  lemma FirstOfAnswers(m: Buckets, events: seq<Event>, rates: string -> int, window: nat, key: string, collects: bool)
    requires window > 0 && events != [] && events[0].Request?
    ensures var (m', ok) := Checked(m, events[0].key, rates(events[0].key), events[0].now, window);
            AnswersTo(events, Answers(m, events, rates, window, collects), key) ==
            (if events[0].key == key then [ok] else []) + AnswersTo(events[1..], Answers(m', events[1..], rates, window, collects), key)
  {
    var (m', ok) := Checked(m, events[0].key, rates(events[0].key), events[0].now, window);
    var rest := Answers(m', events[1..], rates, window, collects);
    assert Answers(m, events, rates, window, collects) == [ok] + rest && ([ok] + rest)[1..] == rest;
  }

  /** As many requests for a key as its bucket holds tokens are let through, whatever the readings, the other keys
      and the cleanups. */
  lemma {:induction false} HeldAreGranted(m: Buckets, events: seq<Event>, key: string, rates: string -> int, window: nat)
    requires window > 0 && |TimesOf(events, key)| <= rates(key) && Holds(m, key, rates(key), |TimesOf(events, key)|)
    ensures var answers := AnswersTo(events, Answers(m, events, rates, window, true), key);
            |answers| == |TimesOf(events, key)| && AllTrue(answers)
    decreases |events|
  {
    if events != [] {
      match events[0]
      case Request(k, now) =>
        FirstOfAnswers(m, events, rates, window, key, true);
        if k == key {
          TakenLeaves(BucketOr(m, key, now, rates(key)), now, rates(key), Speed(rates(key), window));
        }
        HeldAreGranted(Checked(m, k, rates(k), now, window).0, events[1..], key, rates, window);
      case Cleanup(now) =>
        HeldAreGranted(Cleaned(m, now, window), events[1..], key, rates, window);
    }
  }

  /** Of the requests for a key with rate R the first R are let through. */
  lemma FirstAreGranted(events: seq<Event>, key: string, rates: string -> int, window: nat)
    requires window > 0 && |TimesOf(events, key)| <= rates(key)
    ensures var answers := AnswersTo(events, Answers(map[], events, rates, window, true), key);
            |answers| == |TimesOf(events, key)| && AllTrue(answers)
  {
    HeldAreGranted(map[], events, key, rates, window);
  }

  /** The answers to a sequence of requests for one key. */
  function PassesAll(b: Bucket, times: seq<real>, rate: int, speed: real): seq<bool> {
    seq(|times|, n requires 0 <= n < |times| => Passes(b, times, rate, speed, n))
  }

  lemma {:induction false} MetLater(b: Bucket, times: seq<real>, rate: int, speed: real, n: nat)
    requires n < |times|
    ensures Met(b, times, rate, speed, n + 1) == Met(Taken(b, times[0], rate, speed).0, times[1..], rate, speed, n)
  {
    if n > 0 {
      MetLater(b, times, rate, speed, n - 1);
    }
  }

  lemma PassesFirst(b: Bucket, times: seq<real>, rate: int, speed: real)
    requires times != []
    ensures var (b', ok) := Taken(b, times[0], rate, speed);
            PassesAll(b, times, rate, speed) == [ok] + PassesAll(b', times[1..], rate, speed)
  {
    var (b', ok) := Taken(b, times[0], rate, speed);
    var all, rest := PassesAll(b, times, rate, speed), PassesAll(b', times[1..], rate, speed);
    forall n | 0 <= n < |times| ensures all[n] == ([ok] + rest)[n] {
      if n > 0 {
        MetLater(b, times, rate, speed, n - 1);
      }
    }
  }

  /** Without deletions a key's answers are those of its bucket. */
  lemma {:induction false} AnswersAreOfBucket(m: Buckets, events: seq<Event>, key: string, rates: string -> int, window: nat)
    requires window > 0
    ensures var times := TimesOf(events, key);
            AnswersTo(events, Answers(m, events, rates, window, false), key) ==
            PassesAll(BucketAt(m, key, times, rates(key)), times, rates(key), Speed(rates(key), window))
    decreases |events|
  {
    var times := TimesOf(events, key);
    if events != [] {
      match events[0]
      case Request(k, now) =>
        var m' := Checked(m, k, rates(k), now, window).0;
        FirstOfAnswers(m, events, rates, window, key, false);
        AnswersAreOfBucket(m', events[1..], key, rates, window);
        if k == key {
          assert times[0] == now && times[1..] == TimesOf(events[1..], key);
          var b := BucketOr(m, key, now, rates(key));
          PassesFirst(b, times, rates(key), Speed(rates(key), window));
          assert BucketAt(m', key, times[1..], rates(key)) == Taken(b, now, rates(key), Speed(rates(key), window)).0;
        }
      case Cleanup(_) =>
        AnswersAreOfBucket(m, events[1..], key, rates, window);
    }
  }

  /** How many of the answers from the i-th on, up to but not including the n-th, let a request through. */
  function Granted(answers: seq<bool>, i: nat, n: nat): nat
    requires i <= n <= |answers|
  {
    if i == n then 0 else Granted(answers, i, n - 1) + if answers[n - 1] then 1 else 0
  }

  lemma {:induction false} GrantedIsPassed(b: Bucket, times: seq<real>, rate: int, speed: real, i: nat, n: nat)
    requires i <= n <= |times|
    ensures Granted(PassesAll(b, times, rate, speed), i, n) == Passed(b, times, rate, speed, i, n)
  {
    if i < n {
      GrantedIsPassed(b, times, rate, speed, i, n - 1);
    }
  }

  /** From the i-th request on at least R were let through, and as many more as were earned since. */
  predicate UsedUp(answers: seq<bool>, times: seq<real>, rate: int, window: nat, i: int, n: nat)
    requires n < |times| == |answers| && window > 0
  {
    0 <= i <= n && Granted(answers, i, n) >= rate + EarnedAfter(times[0], times, rate as real / window as real, i, n)
  }

  /** In every timely run from the empty limiter: the n-th request for a key of rate R is denied exactly when, counted
      from some request for it on, at least R were let through, and as many more as were earned since. */
  lemma RunDeniesExactly(events: seq<Event>, key: string, rates: string -> int, window: nat, start: real, n: nat)
    requires window > 0 && rates(key) >= 0 && Timely(events, window, start) && n < |TimesOf(events, key)|
    ensures var times, answers := TimesOf(events, key), AnswersTo(events, Answers(map[], events, rates, window, true), key);
            && |answers| == |times|
            && (!answers[n] <==> exists i :: UsedUp(answers, times, rates(key), window, i, n))
  {
    var times, speed := TimesOf(events, key), Speed(rates(key), window);
    var b := Bucket(rates(key), times[0]);
    var answers := PassesAll(b, times, rates(key), speed);
    TimelyIsBrimful(map[], map[], events, rates, window, start);
    CleanupIsUnobservable(map[], map[], events, rates, window);
    AnswersAreOfBucket(map[], events, key, rates, window);
    DeniedExactly(b, times, rates(key), speed, n);
    assert times[0] - times[0] == 0.0 && Earned(times[0], times, speed, 0) == 0;
    forall i ensures UsedUp(answers, times, rates(key), window, i, n) <==> Spent(b, times, rates(key), speed, i, n) {
      if 0 <= i <= n {
        GrantedIsPassed(b, times, rates(key), speed, i, n);
      }
    }
    if Passed(b, times, rates(key), speed, 0, n) >= rates(key) + EarnedAfter(times[0], times, speed, 0, n) {
      assert Spent(b, times, rates(key), speed, 0, n);
    }
  }

  /** A cleanup deletes the buckets not refilled for two windows, and no others. */
  lemma CleansExactly(m: Buckets, now: real, window: nat, key: string)
    ensures key in Cleaned(m, now, window) <==> key in m && now - m[key].lastRefill <= 2.0 * window as real
    ensures key in Cleaned(m, now, window) ==> Cleaned(m, now, window)[key] == m[key]
  {
  }

  /** A request for one key leaves the buckets of the others alone. */
  lemma OthersStay(m: Buckets, key: string, rate: int, now: real, window: nat, other: string)
    requires window > 0 && other != key
    ensures var m' := Checked(m, key, rate, now, window).0;
            key in m' && (other in m' <==> other in m) && (other in m ==> m'[other] == m[other])
  {
  }
}
