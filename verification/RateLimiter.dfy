/** The in-memory token-bucket rate limiter and its garbage collector. Time is real-valued. */
module RateLimiter {
  import opened Common

  datatype Bucket = Bucket(tokens: int, lastRefill: real)

  type Buckets = map<string, Bucket>

  /** Conversion to an integer truncates toward zero. */
  function Trunc(x: real): int {
    if x >= 0.0 then x.Floor else -((-x).Floor)
  }

  /** Tokens per second. */
  function Speed(rate: int, window: nat): real
    requires window > 0
  {
    rate as real / window as real
  }

  /** What a stretch of time earns. */
  function Worth(elapsed: real, speed: real): real {
    elapsed * speed
  }

  /** Refill a bucket that holds at most `rate` tokens. */
  function Refilled(b: Bucket, now: real, rate: int, speed: real): Bucket {
    var earned := Trunc(Worth(now - b.lastRefill, speed));
    if earned > 0 then Bucket(Min(b.tokens + earned, rate), now) else b
  }

  /** The bucket after a request, and whether the request was let through. */
  function Taken(b: Bucket, now: real, rate: int, speed: real): (Bucket, bool) {
    var r := Refilled(b, now, rate, speed);
    if r.tokens > 0 then (r.(tokens := r.tokens - 1), true) else (r, false)
  }

  function BucketOr(m: Buckets, key: string, now: real, rate: int): Bucket {
    if key in m then m[key] else Bucket(rate, now)
  }

  function Checked(m: Buckets, key: string, rate: int, now: real, window: nat): (Buckets, bool)
    requires window > 0
  {
    var (b, ok) := Taken(BucketOr(m, key, now, rate), now, rate, Speed(rate, window));
    (m[key := b], ok)
  }

  /** The buckets not refilled within the last two windows are dropped. */
  function Cleaned(m: Buckets, now: real, window: nat): Buckets {
    map k | k in m && m[k].lastRefill >= now - 2.0 * window as real :: m[k]
  }

  class Limiter {
    var buckets: Buckets
    const window: nat

    constructor (window: nat)
      ensures this.window == window && buckets == map[]
    {
      this.window := window;
      buckets := map[];
    }

    /** check_rate_limit, with the clock reading passed in. */
    method Check(key: string, maxRequests: int, now: real) returns (allowed: bool)
      requires window > 0
      modifies this
      ensures (buckets, allowed) == Checked(old(buckets), key, maxRequests, now, window)
    {
      if key !in buckets {
        buckets := buckets[key := Bucket(maxRequests, now)];
      }
      var bucket := buckets[key];
      var speed := Speed(maxRequests, window);
      var earned := Trunc(Worth(now - bucket.lastRefill, speed));
      ghost var before := bucket;
      if earned > 0 {
        bucket := Bucket(Min(bucket.tokens + earned, maxRequests), now);
      }
      assert bucket == Refilled(before, now, maxRequests, speed);
      allowed := bucket.tokens > 0;
      if allowed {
        bucket := bucket.(tokens := bucket.tokens - 1);
      }
      assert (bucket, allowed) == Taken(before, now, maxRequests, speed);
      buckets := buckets[key := bucket];
      assert buckets == old(buckets)[key := bucket];
    }

    /** _cleanup_expired: collect the stale keys, then delete them one by one. */
    method CleanupExpired(now: real)
      modifies this
      ensures buckets == Cleaned(old(buckets), now, window)
    {
      var cutoff := now - 2.0 * window as real;
      var expired := set k | k in buckets && buckets[k].lastRefill < cutoff;
      ghost var all := expired;
      while expired != {}
        invariant expired <= all
        invariant buckets == map k | k in old(buckets) && k !in all - expired :: old(buckets)[k]
        decreases expired
      {
        var k :| k in expired;
        buckets := buckets - {k};
        expired := expired - {k};
      }
      assert all - expired == all;
    }
  }

  /// ---------------------------------------------------------------------
  /// The window bound
  /// ---------------------------------------------------------------------

  /** How many of a sequence of requests for one key are let through. */
  function Admitted(b: Bucket, times: seq<real>, rate: int, speed: real): nat
    decreases |times|
  {
    if times == [] then 0
    else
      var (b', ok) := Taken(b, times[0], rate, speed);
      (if ok then 1 else 0) + Admitted(b', times[1..], rate, speed)
  }

  /** Tokens stay between none and the rate. */
  ghost predicate Level(b: Bucket, rate: int) {
    0 <= b.tokens <= rate
  }

  lemma TruncBounds(x: real)
    requires x >= 0.0
    ensures 0 <= Trunc(x) && Trunc(x) as real <= x < Trunc(x) as real + 1.0
  {
  }

  lemma EarnedGrows(a: real, b: real, speed: real)
    requires a <= b && speed >= 0.0
    ensures Worth(a, speed) <= Worth(b, speed)
  {
  }

  lemma NothingInNoTime(speed: real)
    ensures Worth(0.0, speed) == 0.0
  {
  }

  /** What is earned from c to a is earned from c to b and then from b to a. */
  lemma EarnedSplits(a: real, b: real, c: real, speed: real)
    ensures Worth(a - c, speed) == Worth(a - b, speed) + Worth(b - c, speed)
  {
  }

  /** Time earns a non-negative amount, of which a refill credits the whole part. */
  lemma EarnedBounds(b: Bucket, now: real, speed: real)
    requires speed >= 0.0 && b.lastRefill <= now
    ensures var x := Worth(now - b.lastRefill, speed);
            0.0 <= x && 0 <= Trunc(x) && Trunc(x) as real <= x < Trunc(x) as real + 1.0
  {
    EarnedGrows(0.0, now - b.lastRefill, speed);
    NothingInNoTime(speed);
    TruncBounds(Worth(now - b.lastRefill, speed));
  }

  lemma TakenKeepsLevel(b: Bucket, now: real, rate: int, speed: real)
    requires Level(b, rate)
    ensures Level(Taken(b, now, rate, speed).0, rate)
  {
  }

  /** The tokens at hand and those that time earns from the last refill to `last`. */
  function Credit(b: Bucket, last: real, speed: real): real {
    b.tokens as real + if b.lastRefill <= last then Worth(last - b.lastRefill, speed) else 0.0
  }

  /** A reading before the last refill earns nothing. */
  lemma NothingEarnedBefore(b: Bucket, now: real, speed: real)
    requires speed >= 0.0 && now <= b.lastRefill
    ensures Trunc(Worth(now - b.lastRefill, speed)) <= 0
  {
    EarnedGrows(now - b.lastRefill, 0.0, speed);
    NothingInNoTime(speed);
  }

  lemma TakenIsPaidFor(b: Bucket, now: real, rate: int, speed: real, last: real)
    requires speed >= 0.0 && Level(b, rate) && now <= last
    ensures var (b', ok) := Taken(b, now, rate, speed);
            (if ok then 1.0 else 0.0) + Credit(b', last, speed) <= Credit(b, last, speed)
  {
    if b.lastRefill <= now {
      EarnedBounds(b, now, speed);
      EarnedSplits(last, now, b.lastRefill, speed);
    } else {
      NothingEarnedBefore(b, now, speed);
    }
  }

  /** Requests are paid for by the tokens at hand and by those earned from the last refill to the latest reading,
      in whatever order they are read. */
  lemma {:induction false} AdmittedIsPaidFor(b: Bucket, times: seq<real>, rate: int, speed: real, last: real)
    requires speed >= 0.0 && Level(b, rate) && forall i :: 0 <= i < |times| ==> times[i] <= last
    ensures Admitted(b, times, rate, speed) as real <= Credit(b, last, speed)
    decreases |times|
  {
    if times == [] {
      if b.lastRefill <= last {
        EarnedBounds(b, last, speed);
      }
    } else {
      TakenKeepsLevel(b, times[0], rate, speed);
      TakenIsPaidFor(b, times[0], rate, speed, last);
      AdmittedIsPaidFor(Taken(b, times[0], rate, speed).0, times[1..], rate, speed, last);
    }
  }

  /** Right after a refill less than one token is still owed. */
  lemma OwedAfterRefill(b: Bucket, now: real, rate: int, speed: real)
    requires speed >= 0.0 && Level(b, rate) && b.lastRefill <= now
    ensures var r := Refilled(b, now, rate, speed);
            Level(r, rate) && b.lastRefill <= r.lastRefill <= now && Worth(now - r.lastRefill, speed) < 1.0
  {
    EarnedBounds(b, now, speed);
    NothingInNoTime(speed);
    assert now - now == 0.0;
  }

  /** A second refill at the same time adds nothing. */
  lemma RefillFirst(b: Bucket, times: seq<real>, rate: int, speed: real)
    requires times != []
    ensures Admitted(b, times, rate, speed) == Admitted(Refilled(b, times[0], rate, speed), times, rate, speed)
  {
    NothingInNoTime(speed);
    var r := Refilled(b, times[0], rate, speed);
    assert Refilled(r, times[0], rate, speed) == r;
  }

  /** Requests for one key whose readings lie in [t0, t1], in whatever order, and however full the bucket and
      whenever it was refilled: fewer than rate + Worth(t1 - t0, speed) + 1 are let through. */
  lemma AdmittedBound(b: Bucket, times: seq<real>, rate: int, speed: real, t0: real, t1: real)
    requires speed >= 0.0 && Level(b, rate)
    requires t0 <= t1 && forall i :: 0 <= i < |times| ==> t0 <= times[i] <= t1
    ensures Admitted(b, times, rate, speed) as real < rate as real + Worth(t1 - t0, speed) + 1.0
  {
    EarnedBounds(Bucket(0, t0), t1, speed);
    if b.lastRefill >= t0 {
      AdmittedIsPaidFor(b, times, rate, speed, t1);
      EarnedGrows(t1 - b.lastRefill, t1 - t0, speed);
    } else if times != [] {
      var t := times[0];
      var r := Refilled(b, t, rate, speed);
      OwedAfterRefill(b, t, rate, speed);
      RefillFirst(b, times, rate, speed);
      AdmittedIsPaidFor(r, times, rate, speed, t1);
      EarnedSplits(t1, t, r.lastRefill, speed);
      EarnedGrows(t1 - t, t1 - t0, speed);
    }
  }

  lemma InverseQuotients(x: real, y: real)
    requires x > 0.0 && y > 0.0
    ensures (x / y) * (y / x) == 1.0
  {
    var p, q := x / y, y / x;
    assert p * y == x && q * x == y;
    assert (p * q) * x == p * (q * x);
  }

  lemma SpeedTimesWindow(rate: int, window: nat)
    requires window > 0 && rate >= 0
    ensures Speed(rate, window) >= 0.0
    ensures Worth(window as real, Speed(rate, window)) == rate as real
    ensures rate > 0 ==> Worth(window as real / rate as real, Speed(rate, window)) == 1.0
  {
    if rate > 0 {
      InverseQuotients(window as real, rate as real);
    }
  }

  /** The window bound of one bucket at a fixed rate R per window W: of requests whose readings all lie in [t0, t1]
      fewer than R + (t1 - t0) * (R / W) + 1 are let through. */
  lemma WindowBound(b: Bucket, times: seq<real>, rate: int, window: nat, t0: real, t1: real)
    requires window > 0 && Level(b, rate)
    requires t0 <= t1 && forall i :: 0 <= i < |times| ==> t0 <= times[i] <= t1
    ensures Admitted(b, times, rate, Speed(rate, window)) as real <
            rate as real + Worth(t1 - t0, Speed(rate, window)) + 1.0
  {
    SpeedTimesWindow(rate, window);
    AdmittedBound(b, times, rate, Speed(rate, window), t0, t1);
  }

  /** A refill that earned at least one token leaves one. */
  lemma EarnedTokenIsThere(b: Bucket, now: real, rate: int, speed: real)
    requires rate >= 1 && Level(b, rate) && Worth(now - b.lastRefill, speed) >= 1.0
    ensures Taken(b, now, rate, speed).1
  {
    TruncBounds(Worth(now - b.lastRefill, speed));
  }

  /** A request at least W / R after the last refill is always let through. */
  lemma PatientRequestIsAdmitted(b: Bucket, now: real, rate: int, window: nat)
    requires window > 0 && rate >= 1 && Level(b, rate)
    requires now - b.lastRefill >= window as real / rate as real
    ensures Taken(b, now, rate, Speed(rate, window)).1
  {
    SpeedTimesWindow(rate, window);
    EarnedGrows(window as real / rate as real, now - b.lastRefill, Speed(rate, window));
    EarnedTokenIsThere(b, now, rate, Speed(rate, window));
  }

  /// ---------------------------------------------------------------------
  /// Cleanup is unobservable
  /// ---------------------------------------------------------------------

  datatype Event = Request(key: string, now: real) | Cleanup(now: real)

  /** The answers of a limiter to the requests among the events; unless it collects, it skips cleanups. */
  function Answers(m: Buckets, events: seq<Event>, rates: string -> int, window: nat, collects: bool): seq<bool>
    requires window > 0
    decreases |events|
  {
    if events == [] then []
    else
      match events[0]
      case Request(key, now) =>
        var (m', ok) := Checked(m, key, rates(key), now, window);
        [ok] + Answers(m', events[1..], rates, window, collects)
      case Cleanup(now) =>
        Answers(if collects then Cleaned(m, now, window) else m, events[1..], rates, window, collects)
  }

  /** Clock readings are taken before the lock, so they need not be in order; but no request's reading
      lags an earlier cleanup's reading by a whole window. `swept` is the greatest cleanup reading so far. */
  ghost predicate Timely(events: seq<Event>, window: nat, swept: real)
    decreases |events|
  {
    events != [] ==>
      match events[0]
      case Request(key, now) => now > swept - window as real && Timely(events[1..], window, swept)
      case Cleanup(now) => Timely(events[1..], window, if now > swept then now else swept)
  }

  /** One key of the collecting limiter against the one that never deletes: nothing in either; the same
      bucket; a bucket that was collected when it was stale; or buckets that never let anything through. */
  ghost predicate Alike(m: Buckets, full: Buckets, key: string, rate: int, window: nat, swept: real) {
    || (key !in m && key !in full)
    || (rate >= 1 && key in full && Level(full[key], rate) &&
        if key in m then m[key] == full[key] else full[key].lastRefill < swept - 2.0 * window as real)
    || (rate <= 0 && key in full && full[key].tokens <= 0 && (key in m ==> m[key].tokens <= 0))
  }

  lemma EnoughEarnedIsFull(b: Bucket, now: real, rate: int, speed: real)
    requires rate >= 1 && Level(b, rate) && Worth(now - b.lastRefill, speed) >= rate as real
    ensures Refilled(b, now, rate, speed) == Bucket(rate, now)
  {
    TruncBounds(Worth(now - b.lastRefill, speed));
  }

  /** At a rate of zero or less nothing is ever earned. */
  lemma NothingEarned(b: Bucket, now: real, rate: int, window: nat)
    requires window > 0 && rate <= 0 && b.tokens <= 0
    ensures var (b', ok) := Taken(b, now, rate, Speed(rate, window)); !ok && b'.tokens <= 0
  {
  }

  /** One key of the two limiters when nothing is known about when buckets were collected. */
  ghost predicate Kept(m: Buckets, full: Buckets, key: string, rate: int) {
    || (key !in m && key !in full)
    || (rate >= 1 && key in full && Level(full[key], rate) && (key in m ==> m[key] == full[key]))
    || (rate <= 0 && key in full && full[key].tokens <= 0 && (key in m ==> m[key].tokens <= 0))
  }

  /** A request at this reading, if its bucket was collected, finds that the kept one would be refilled to the brim. */
  ghost predicate Brim(m: Buckets, full: Buckets, key: string, now: real, rate: int, window: nat)
    requires window > 0
  {
    key !in m && key in full && rate >= 1 ==> Refilled(full[key], now, rate, Speed(rate, window)) == Bucket(rate, now)
  }

  /** So does every request among the events. */
  ghost predicate Brimful(m: Buckets, full: Buckets, events: seq<Event>, rates: string -> int, window: nat)
    requires window > 0
    decreases |events|
  {
    events != [] ==>
      match events[0]
      case Request(key, now) =>
        && Brim(m, full, key, now, rates(key), window)
        && Brimful(Checked(m, key, rates(key), now, window).0, Checked(full, key, rates(key), now, window).0, events[1..], rates, window)
      case Cleanup(now) => Brimful(Cleaned(m, now, window), full, events[1..], rates, window)
  }

  lemma BrimAgrees(m: Buckets, full: Buckets, key: string, rate: int, now: real, window: nat)
    requires window > 0 && Kept(m, full, key, rate) && Brim(m, full, key, now, rate, window)
    ensures var ((m', ok), (full', ok')) := (Checked(m, key, rate, now, window), Checked(full, key, rate, now, window));
            ok == ok' && Kept(m', full', key, rate)
  {
    var b, c, speed := BucketOr(m, key, now, rate), BucketOr(full, key, now, rate), Speed(rate, window);
    if rate <= 0 {
      NothingEarned(b, now, rate, window);
      NothingEarned(c, now, rate, window);
    } else {
      NothingInNoTime(speed);
      assert now - now == 0.0;
      TakenKeepsLevel(c, now, rate, speed);
    }
  }

  /** For any schedule of cleanups, every answer equals that of a limiter that never deletes a bucket, if each
      request whose bucket was collected finds that the kept one would be refilled to the brim. */
  lemma {:induction false} CleanupIsUnobservable(m: Buckets, full: Buckets, events: seq<Event>, rates: string -> int, window: nat)
    requires window > 0 && Brimful(m, full, events, rates, window)
    requires forall k :: Kept(m, full, k, rates(k))
    ensures Answers(m, events, rates, window, true) == Answers(full, events, rates, window, false)
    decreases |events|
  {
    if events != [] {
      match events[0]
      case Request(key, now) =>
        var m', full' := Checked(m, key, rates(key), now, window).0, Checked(full, key, rates(key), now, window).0;
        BrimAgrees(m, full, key, rates(key), now, window);
        forall k ensures Kept(m', full', k, rates(k)) {
          assert Kept(m, full, k, rates(k));
        }
        CleanupIsUnobservable(m', full', events[1..], rates, window);
      case Cleanup(now) =>
        var m' := Cleaned(m, now, window);
        forall k ensures Kept(m', full, k, rates(k)) {
          assert Kept(m, full, k, rates(k));
        }
        CleanupIsUnobservable(m', full, events[1..], rates, window);
    }
  }

  /** A bucket collected when it was stale is full by any reading that lags the cleanup by less than a window. */
  lemma StaleIsBrim(m: Buckets, full: Buckets, key: string, rate: int, now: real, window: nat, swept: real)
    requires window > 0 && now > swept - window as real && Alike(m, full, key, rate, window, swept)
    ensures Brim(m, full, key, now, rate, window)
  {
    if key !in m && key in full && rate >= 1 {
      var speed := Speed(rate, window);
      SpeedTimesWindow(rate, window);
      EarnedGrows(window as real, now - full[key].lastRefill, speed);
      EnoughEarnedIsFull(full[key], now, rate, speed);
    }
  }

  lemma RequestKeepsAllAlike(m: Buckets, full: Buckets, key: string, now: real, rates: string -> int, window: nat, swept: real)
    requires window > 0 && now > swept - window as real
    requires forall k :: Alike(m, full, k, rates(k), window, swept)
    ensures forall k :: Alike(Checked(m, key, rates(key), now, window).0, Checked(full, key, rates(key), now, window).0, k, rates(k), window, swept)
  {
    StaleIsBrim(m, full, key, rates(key), now, window, swept);
    BrimAgrees(m, full, key, rates(key), now, window);
    var m', full' := Checked(m, key, rates(key), now, window).0, Checked(full, key, rates(key), now, window).0;
    forall k ensures Alike(m', full', k, rates(k), window, swept) {
      assert Alike(m, full, k, rates(k), window, swept);
    }
  }

  lemma CleanupKeepsAllAlike(m: Buckets, full: Buckets, now: real, rates: string -> int, window: nat, swept: real)
    requires forall k :: Alike(m, full, k, rates(k), window, swept)
    ensures forall k :: Alike(Cleaned(m, now, window), full, k, rates(k), window, if now > swept then now else swept)
  {
    forall k ensures Alike(Cleaned(m, now, window), full, k, rates(k), window, if now > swept then now else swept) {
      assert Alike(m, full, k, rates(k), window, swept);
    }
  }

  /** In timely runs that is always so. */
  lemma {:induction false} TimelyIsBrimful(m: Buckets, full: Buckets, events: seq<Event>, rates: string -> int, window: nat, swept: real)
    requires window > 0 && Timely(events, window, swept)
    requires forall k :: Alike(m, full, k, rates(k), window, swept)
    ensures Brimful(m, full, events, rates, window)
    decreases |events|
  {
    if events != [] {
      match events[0]
      case Request(key, now) =>
        StaleIsBrim(m, full, key, rates(key), now, window, swept);
        RequestKeepsAllAlike(m, full, key, now, rates, window, swept);
        TimelyIsBrimful(Checked(m, key, rates(key), now, window).0, Checked(full, key, rates(key), now, window).0, events[1..], rates, window, swept);
      case Cleanup(now) =>
        CleanupKeepsAllAlike(m, full, now, rates, window, swept);
        TimelyIsBrimful(Cleaned(m, now, window), full, events[1..], rates, window, if now > swept then now else swept);
    }
  }

  function ReadingOf(e: Event): real {
    e.now
  }

  /** Readings in the order of the events are timely. */
  lemma {:induction false} InOrderIsTimely(events: seq<Event>, window: nat, swept: real)
    requires window > 0 && forall i :: 0 <= i < |events| ==> swept <= ReadingOf(events[i])
    requires forall i, j :: 0 <= i < j < |events| ==> ReadingOf(events[i]) <= ReadingOf(events[j])
    ensures Timely(events, window, swept)
    decreases |events|
  {
    if events != [] {
      var now, rest := ReadingOf(events[0]), events[1..];
      forall i | 0 <= i < |rest| ensures now <= ReadingOf(rest[i]) {
        assert rest[i] == events[i + 1];
      }
      InOrderIsTimely(rest, window, if events[0].Cleanup? then now else swept);
    }
  }

  /** A request on a collected key is answered as if it had been kept exactly when the kept bucket holds a token
      or has earned one by that reading. */
  lemma CollectionGoesUnnoticed(m: Buckets, full: Buckets, key: string, rate: int, now: real, window: nat)
    requires window > 0 && rate >= 1 && key !in m && key in full && Level(full[key], rate)
    ensures Checked(m, key, rate, now, window).1 == Checked(full, key, rate, now, window).1 <==>
            full[key].tokens > 0 || Trunc(Worth(now - full[key].lastRefill, Speed(rate, window))) > 0
  {
    var speed := Speed(rate, window);
    NothingInNoTime(speed);
    assert now - now == 0.0;
    assert Refilled(Bucket(rate, now), now, rate, speed) == Bucket(rate, now);
  }

  /** A reading that lags a cleanup by more than a window can notice it: the new bucket lets the request
      through, the old one would not. */
  lemma LateReadingIsObservable()
    ensures var m, rates := map["k" := Bucket(0, 0.0)], (k: string) => 1;
            var events := [Cleanup(3.0), Request("k", 0.5)];
            Answers(m, events, rates, 1, true) == [true] && Answers(m, events, rates, 1, false) == [false]
  {
    var m, rates := map["k" := Bucket(0, 0.0)], (k: string) => 1;
    var request := [Request("k", 0.5)];
    assert [Cleanup(3.0), Request("k", 0.5)][1..] == request && request[1..] == [];
    assert Cleaned(m, 3.0, 1) == map[];
    assert Speed(1, 1) == 1.0;
    assert Answers(map[], request, rates, 1, true) == [true] + Answers(Checked(map[], "k", 1, 0.5, 1).0, [], rates, 1, true);
    assert Answers(m, request, rates, 1, false) == [false] + Answers(Checked(m, "k", 1, 0.5, 1).0, [], rates, 1, false);
  }

  /// ---------------------------------------------------------------------
  /// The window bound of the whole limiter
  /// ---------------------------------------------------------------------

  /** The readings of the requests for one key. */
  function TimesOf(events: seq<Event>, key: string): seq<real> {
    if events == [] then []
    else if events[0].Request? && events[0].key == key then [events[0].now] + TimesOf(events[1..], key)
    else TimesOf(events[1..], key)
  }

  /** How many requests for one key were let through, from the answers given. */
  function LetThrough(events: seq<Event>, answers: seq<bool>, key: string): nat
    decreases |events|
  {
    if events == [] || answers == [] then 0
    else if events[0].Cleanup? then LetThrough(events[1..], answers, key)
    else (if events[0].key == key && answers[0] then 1 else 0) + LetThrough(events[1..], answers[1..], key)
  }

  /** The bucket the first of these requests meets. */
  function BucketAt(m: Buckets, key: string, times: seq<real>, rate: int): Bucket {
    BucketOr(m, key, if times == [] then 0.0 else times[0], rate)
  }

  function AdmittedFor(m: Buckets, times: seq<real>, key: string, rate: int, speed: real): nat {
    Admitted(BucketAt(m, key, times, rate), times, rate, speed)
  }

  lemma NextRequest(m: Buckets, times: seq<real>, key: string, rate: int, window: nat)
    requires window > 0 && times != []
    ensures var (m', ok) := Checked(m, key, rate, times[0], window);
            AdmittedFor(m, times, key, rate, Speed(rate, window)) ==
            (if ok then 1 else 0) + AdmittedFor(m', times[1..], key, rate, Speed(rate, window))
  {
    var b := Taken(BucketOr(m, key, times[0], rate), times[0], rate, Speed(rate, window)).0;
    var m' := Checked(m, key, rate, times[0], window).0;
    assert key in m' && m'[key] == b;
    assert BucketAt(m', key, times[1..], rate) == b;
  }

  /** Requests for other keys do not count against a key. */
  lemma {:induction false} KeysAreIndependent(m: Buckets, events: seq<Event>, key: string, rates: string -> int, window: nat)
    requires window > 0
    ensures LetThrough(events, Answers(m, events, rates, window, false), key) ==
            AdmittedFor(m, TimesOf(events, key), key, rates(key), Speed(rates(key), window))
    decreases |events|
  {
    if events != [] {
      match events[0]
      case Request(k, now) =>
        var m', ok := Checked(m, k, rates(k), now, window).0, Checked(m, k, rates(k), now, window).1;
        KeysAreIndependent(m', events[1..], key, rates, window);
        var rest := Answers(m', events[1..], rates, window, false);
        assert Answers(m, events, rates, window, false) == [ok] + rest;
        assert ([ok] + rest)[1..] == rest;
        if k == key {
          var times := TimesOf(events, key);
          assert times[0] == now && times[1..] == TimesOf(events[1..], key);
          NextRequest(m, times, key, rates(key), window);
        }
      case Cleanup(_) =>
        KeysAreIndependent(m, events[1..], key, rates, window);
    }
  }

  /** Fewer than R + (t1 - t0) * (R / W) + 1. */
  ghost predicate WithinBound(n: nat, rate: int, window: nat, t0: real, t1: real)
    requires window > 0
  {
    n as real < rate as real + Worth(t1 - t0, Speed(rate, window)) + 1.0
  }

  lemma NoneIsWithinBound(rate: int, window: nat, t0: real, t1: real)
    requires window > 0 && rate >= 0 && t0 <= t1
    ensures WithinBound(0, rate, window, t0, t1)
  {
    SpeedTimesWindow(rate, window);
    EarnedBounds(Bucket(0, t0), t1, Speed(rate, window));
  }

  lemma StartIsWithin(full: Buckets, times: seq<real>, key: string, rate: int, window: nat, t0: real, t1: real)
    requires window > 0 && rate >= 0 && times != [] && t0 <= t1
    requires key in full ==> Level(full[key], rate)
    requires forall t :: t in times ==> t0 <= t <= t1
    ensures WithinBound(AdmittedFor(full, times, key, rate, Speed(rate, window)), rate, window, t0, t1)
  {
    var b := BucketAt(full, key, times, rate);
    forall i | 0 <= i < |times| ensures t0 <= times[i] <= t1 {
      assert times[i] in times;
    }
    WindowBound(b, times, rate, window, t0, t1);
  }

  /** The requests for one key and the cleanups. */
  function Of(events: seq<Event>, key: string): seq<Event> {
    if events == [] then []
    else if events[0].Request? && events[0].key != key then Of(events[1..], key)
    else [events[0]] + Of(events[1..], key)
  }

  /** Two limiters have the same bucket for a key, or neither has one. */
  ghost predicate Match(m: Buckets, n: Buckets, key: string) {
    (key in m <==> key in n) && (key in m ==> m[key] == n[key])
  }

  lemma {:induction false} OfKeepsTimes(events: seq<Event>, key: string)
    ensures TimesOf(Of(events, key), key) == TimesOf(events, key)
  {
    if events != [] {
      OfKeepsTimes(events[1..], key);
      assert ([events[0]] + Of(events[1..], key))[1..] == Of(events[1..], key);
    }
  }

  /** What becomes of a key depends on its own requests and the cleanups only. */
  lemma {:induction false} OnlyItsRequestsMatter(m: Buckets, n: Buckets, events: seq<Event>, key: string, rates: string -> int, window: nat, collects: bool)
    requires window > 0 && Match(m, n, key)
    ensures LetThrough(events, Answers(m, events, rates, window, collects), key) ==
            LetThrough(Of(events, key), Answers(n, Of(events, key), rates, window, collects), key)
    decreases |events|
  {
    if events != [] {
      var rest, own := events[1..], Of(events[1..], key);
      match events[0]
      case Request(k, now) =>
        var m', ok := Checked(m, k, rates(k), now, window).0, Checked(m, k, rates(k), now, window).1;
        var answers := Answers(m', rest, rates, window, collects);
        assert Answers(m, events, rates, window, collects) == [ok] + answers && ([ok] + answers)[1..] == answers;
        if k != key {
          OnlyItsRequestsMatter(m', n, rest, key, rates, window, collects);
        } else {
          var n' := Checked(n, k, rates(k), now, window).0;
          OnlyItsRequestsMatter(m', n', rest, key, rates, window, collects);
          assert Of(events, key)[1..] == own;
          var owns := Answers(n', own, rates, window, collects);
          assert Answers(n, Of(events, key), rates, window, collects) == [ok] + owns && ([ok] + owns)[1..] == owns;
        }
      case Cleanup(now) =>
        assert Of(events, key)[1..] == own;
        OnlyItsRequestsMatter(if collects then Cleaned(m, now, window) else m, if collects then Cleaned(n, now, window) else n,
                              rest, key, rates, window, collects);
    }
  }

  /** Buckets that can be reached: between none and the rate, or never any token. */
  ghost predicate AllLevel(m: Buckets, rates: string -> int) {
    forall k :: k in m ==> if rates(k) >= 0 then Level(m[k], rates(k)) else m[k].tokens <= 0
  }

  /** The window bound of the limiter: requests for one key whose readings lie in [t0, t1], in whatever order, and
      none of which lags an earlier cleanup among the events by a whole window, stay within the bound; whatever
      the buckets hold, whatever other keys do and whatever is deleted. */
  lemma LimiterWindowBound(m: Buckets, events: seq<Event>, key: string, rates: string -> int,
                           window: nat, start: real, t0: real, t1: real)
    requires window > 0 && AllLevel(m, rates) && Timely(Of(events, key), window, start)
    requires rates(key) >= 0 && t0 <= t1
    requires forall t :: t in TimesOf(events, key) ==> t0 <= t <= t1
    ensures WithinBound(LetThrough(events, Answers(m, events, rates, window, true), key), rates(key), window, t0, t1)
  {
    var own, times := Of(events, key), TimesOf(events, key);
    OfKeepsTimes(events, key);
    OnlyItsRequestsMatter(m, m, events, key, rates, window, true);
    forall k ensures Alike(m, m, k, rates(k), window, start) {
      if k in m && rates(k) >= 0 {
        assert Level(m[k], rates(k));
      }
    }
    TimelyIsBrimful(m, m, own, rates, window, start);
    forall k ensures Kept(m, m, k, rates(k)) {
      assert Alike(m, m, k, rates(k), window, start);
    }
    CleanupIsUnobservable(m, m, own, rates, window);
    KeysAreIndependent(m, own, key, rates, window);
    if times == [] {
      NoneIsWithinBound(rates(key), window, t0, t1);
    } else {
      StartIsWithin(m, times, key, rates(key), window, t0, t1);
    }
  }

  /// ---------------------------------------------------------------------
  /// Runs from the empty limiter
  /// ---------------------------------------------------------------------

  /** The buckets after a run. */
  function After(m: Buckets, events: seq<Event>, rates: string -> int, window: nat, collects: bool): Buckets
    requires window > 0
    decreases |events|
  {
    if events == [] then m
    else
      match events[0]
      case Request(key, now) => After(Checked(m, key, rates(key), now, window).0, events[1..], rates, window, collects)
      case Cleanup(now) => After(if collects then Cleaned(m, now, window) else m, events[1..], rates, window, collects)
  }

  /** The greatest cleanup reading after a run. */
  function SweptAfter(events: seq<Event>, swept: real): real
    decreases |events|
  {
    if events == [] then swept
    else if events[0].Cleanup? && events[0].now > swept then SweptAfter(events[1..], events[0].now)
    else SweptAfter(events[1..], swept)
  }

  lemma {:induction false} AnswersAppend(m: Buckets, pre: seq<Event>, mid: seq<Event>, rates: string -> int, window: nat, collects: bool)
    requires window > 0
    ensures Answers(m, pre + mid, rates, window, collects) ==
            Answers(m, pre, rates, window, collects) + Answers(After(m, pre, rates, window, collects), mid, rates, window, collects)
    decreases |pre|
  {
    if pre == [] {
      assert pre + mid == mid;
    } else {
      assert (pre + mid)[1..] == pre[1..] + mid;
      match pre[0]
      case Request(key, now) =>
        AnswersAppend(Checked(m, key, rates(key), now, window).0, pre[1..], mid, rates, window, collects);
      case Cleanup(now) =>
        AnswersAppend(if collects then Cleaned(m, now, window) else m, pre[1..], mid, rates, window, collects);
    }
  }

  /** In every timely run the limiter stays alike, key by key, to one that never deletes a bucket. */
  lemma {:induction false} AlikeInRuns(m: Buckets, full: Buckets, events: seq<Event>, rates: string -> int, window: nat, swept: real)
    requires window > 0 && Timely(events, window, swept)
    requires forall k :: Alike(m, full, k, rates(k), window, swept)
    ensures forall k :: Alike(After(m, events, rates, window, true), After(full, events, rates, window, false), k, rates(k), window, SweptAfter(events, swept))
    decreases |events|
  {
    if events != [] {
      match events[0]
      case Request(key, now) =>
        RequestKeepsAllAlike(m, full, key, now, rates, window, swept);
        AlikeInRuns(Checked(m, key, rates(key), now, window).0, Checked(full, key, rates(key), now, window).0, events[1..], rates, window, swept);
      case Cleanup(now) =>
        CleanupKeepsAllAlike(m, full, now, rates, window, swept);
        AlikeInRuns(Cleaned(m, now, window), full, events[1..], rates, window, if now > swept then now else swept);
    }
  }

  /** In every run, with cleanups or without, every bucket holds between 0 and its rate. */
  lemma {:induction false} LevelsInRuns(m: Buckets, events: seq<Event>, rates: string -> int, window: nat, collects: bool)
    requires window > 0 && AllLevel(m, rates)
    ensures AllLevel(After(m, events, rates, window, collects), rates)
    decreases |events|
  {
    if events != [] {
      match events[0]
      case Request(key, now) =>
        if rates(key) < 0 {
          NothingEarned(BucketOr(m, key, now, rates(key)), now, rates(key), window);
        } else {
          TakenKeepsLevel(BucketOr(m, key, now, rates(key)), now, rates(key), Speed(rates(key), window));
        }
        LevelsInRuns(Checked(m, key, rates(key), now, window).0, events[1..], rates, window, collects);
      case Cleanup(now) =>
        LevelsInRuns(if collects then Cleaned(m, now, window) else m, events[1..], rates, window, collects);
    }
  }

  /** The window bound of the limiter at any point of any run from the empty limiter: of the requests for one key
      read in [t0, t1], with none read outside in between and none lagging a cleanup in between by a whole window,
      fewer than R + (t1 - t0) * (R / W) + 1 are let through; whatever came before, in whatever order they take
      the lock, and whatever other keys do. */
  lemma RunWindowBound(pre: seq<Event>, mid: seq<Event>, key: string, rates: string -> int, window: nat, start: real, t0: real, t1: real)
    requires window > 0 && rates(key) >= 0 && t0 <= t1 && Timely(Of(mid, key), window, start)
    requires forall t :: t in TimesOf(mid, key) ==> t0 <= t <= t1
    ensures var before, all := Answers(map[], pre, rates, window, true), Answers(map[], pre + mid, rates, window, true);
            before <= all && WithinBound(LetThrough(mid, all[|before|..], key), rates(key), window, t0, t1)
  {
    var m := After(map[], pre, rates, window, true);
    LevelsInRuns(map[], pre, rates, window, true);
    LimiterWindowBound(m, mid, key, rates, window, start, t0, t1);
    AnswersAppend(map[], pre, mid, rates, window, true);
    var before := Answers(map[], pre, rates, window, true);
    assert Answers(map[], pre + mid, rates, window, true)[|before|..] == Answers(m, mid, rates, window, true);
  }

  /** The first answer, from the bucket the request meets. */
  lemma FirstAnswer(m: Buckets, events: seq<Event>, b: Bucket, rates: string -> int, window: nat)
    requires window > 0 && events != [] && events[0].Request? && "k" == events[0].key
    requires b == BucketOr(m, "k", events[0].now, rates("k"))
    ensures var (b', ok) := Taken(b, events[0].now, rates("k"), Speed(rates("k"), window));
            Answers(m, events, rates, window, true) == [ok] + Answers(m["k" := b'], events[1..], rates, window, true)
  {
  }

  lemma FourTakes()
    ensures Taken(Bucket(2, 0.0), 0.0, 2, 1.0) == (Bucket(1, 0.0), true)
    ensures Taken(Bucket(1, 0.0), 0.0, 2, 1.0) == (Bucket(0, 0.0), true)
    ensures Taken(Bucket(0, 0.0), 100.0, 2, 1.0) == (Bucket(1, 100.0), true)
    ensures Taken(Bucket(1, 100.0), 0.0, 2, 1.0) == (Bucket(0, 100.0), true)
  {
  }

  lemma {:induction false} WithoutCleanupsIsTimely(events: seq<Event>, window: nat, start: real)
    requires window > 0 && forall i :: 0 <= i < |events| ==> events[i].Request? && start <= events[i].now
    ensures Timely(events, window, start)
    decreases |events|
  {
    if events != [] {
      WithoutCleanupsIsTimely(events[1..], window, start);
    }
  }

  const BACK_AND_FORTH: seq<Event> := [Request("k", 0.0), Request("k", 0.0), Request("k", 100.0), Request("k", 0.0)]

  lemma BackAndForthIsTimely()
    ensures Timely(BACK_AND_FORTH, 2, 0.0)
  {
    WithoutCleanupsIsTimely(BACK_AND_FORTH, 2, 0.0);
  }

  /** Two tokens in two seconds; every request is let through, three of them read at 0, where the bound for [0, 0]
      allows two: a reading outside the interval comes between. */
  lemma OutsideReadingBreaksBound()
    ensures Answers(map[], BACK_AND_FORTH, (k: string) => 2, 2, true) == [true, true, true, true]
    ensures !WithinBound(3, 2, 2, 0.0, 0.0)
  {
    var rates, r, q := (k: string) => 2, Request("k", 0.0), Request("k", 100.0);
    assert Speed(2, 2) == 1.0;
    FourTakes();
    var m1, m2, m3 := map["k" := Bucket(1, 0.0)], map["k" := Bucket(0, 0.0)], map["k" := Bucket(1, 100.0)];
    FirstAnswer(map[], [r, r, q, r], Bucket(2, 0.0), rates, 2);
    assert [r, r, q, r][1..] == [r, q, r];
    FirstAnswer(m1, [r, q, r], Bucket(1, 0.0), rates, 2);
    assert [r, q, r][1..] == [q, r] && m1["k" := Bucket(0, 0.0)] == m2;
    FirstAnswer(m2, [q, r], Bucket(0, 0.0), rates, 2);
    assert [q, r][1..] == [r] && m2["k" := Bucket(1, 100.0)] == m3;
    FirstAnswer(m3, [r], Bucket(1, 100.0), rates, 2);
    assert [r][1..] == [];
  }

  /** One token a second; readings that lag the cleanups before them by more than a window are let through without
      limit, one for each cleanup. */
  lemma LateReadingsBreakBound()
    ensures var events := [Request("k", 0.5), Cleanup(3.0), Request("k", 0.5), Cleanup(3.0), Request("k", 0.5)];
            Answers(map[], events, (k: string) => 1, 1, true) == [true, true, true] && !WithinBound(3, 1, 1, 0.5, 0.5)
  {
    var rates, r, c := (k: string) => 1, Request("k", 0.5), Cleanup(3.0);
    assert Speed(1, 1) == 1.0;
    assert [r, c, r, c, r][1..] == [c, r, c, r] && [c, r, c, r][1..] == [r, c, r] && [r, c, r][1..] == [c, r];
    assert [c, r][1..] == [r] && [r][1..] == [];
    var used := Checked(map[], "k", 1, 0.5, 1).0;
    assert used == map["k" := Bucket(0, 0.5)] && Cleaned(used, 3.0, 1) == map[];
    assert Answers(map[], [r], rates, 1, true) == [true] + Answers(used, [], rates, 1, true);
    assert Answers(used, [c, r], rates, 1, true) == [true];
    assert Answers(map[], [r, c, r], rates, 1, true) == [true] + Answers(used, [c, r], rates, 1, true);
    assert Answers(used, [c, r, c, r], rates, 1, true) == [true, true];
    assert Answers(map[], [r, c, r, c, r], rates, 1, true) == [true] + Answers(used, [c, r, c, r], rates, 1, true);
  }
}
