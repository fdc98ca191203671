/** When deleting a bucket goes unnoticed by every later sequence of requests for its key, exactly. */
module RateCollection {
  import opened Common
  import opened RateLimiter

  /** The answers to a sequence of requests for one key. */
  function Granted(b: Bucket, times: seq<real>, rate: int, speed: real): seq<bool>
    decreases |times|
  {
    if times == [] then []
    else [Taken(b, times[0], rate, speed).1] + Granted(Taken(b, times[0], rate, speed).0, times[1..], rate, speed)
  }

  /** The bucket after them. */
  function Left(b: Bucket, times: seq<real>, rate: int, speed: real): Bucket
    decreases |times|
  {
    if times == [] then b else Left(Taken(b, times[0], rate, speed).0, times[1..], rate, speed)
  }

  ghost predicate Ordered(times: seq<real>) {
    forall i, j :: 0 <= i < j < |times| ==> times[i] <= times[j]
  }

  /** Requests in order, the first of them at r. */
  ghost predicate From(times: seq<real>, r: real) {
    times != [] && times[0] == r && Ordered(times)
  }

  /** No later requests tell the kept bucket from the one created anew at reading r. */
  ghost predicate Indistinguishable(b: Bucket, r: real, rate: int, speed: real) {
    forall times :: From(times, r) ==> Granted(b, times, rate, speed) == Granted(Bucket(rate, r), times, rate, speed)
  }

  lemma RefilledOnce(b: Bucket, r: real, rate: int, speed: real)
    ensures var b' := Refilled(b, r, rate, speed);
            Refilled(b', r, rate, speed) == b' && Taken(b', r, rate, speed) == Taken(b, r, rate, speed)
  {
    NothingInNoTime(speed);
    assert r - r == 0.0;
  }

  lemma GrantedAfterRefill(b: Bucket, times: seq<real>, rate: int, speed: real)
    requires times != []
    ensures Granted(b, times, rate, speed) == Granted(Refilled(b, times[0], rate, speed), times, rate, speed)
  {
    RefilledOnce(b, times[0], rate, speed);
  }

  lemma {:induction false} GrantedAppend(b: Bucket, a: seq<real>, c: seq<real>, rate: int, speed: real)
    ensures Granted(b, a + c, rate, speed) == Granted(b, a, rate, speed) + Granted(Left(b, a, rate, speed), c, rate, speed)
    decreases |a|
  {
    if a == [] {
      assert a + c == c;
    } else {
      assert (a + c)[1..] == a[1..] + c;
      GrantedAppend(Taken(b, a[0], rate, speed).0, a[1..], c, rate, speed);
    }
  }

  function Repeat(r: real, n: nat): seq<real> {
    if n == 0 then [] else [r] + Repeat(r, n - 1)
  }

  lemma {:induction false} RepeatIs(r: real, n: nat)
    ensures |Repeat(r, n)| == n && forall i :: 0 <= i < n ==> Repeat(r, n)[i] == r
  {
    if n > 0 {
      RepeatIs(r, n - 1);
    }
  }

  /** At one reading, a bucket that earns nothing grants as many requests as it holds tokens. */
  lemma {:induction false} Drained(b: Bucket, r: real, n: nat, rate: int, speed: real)
    requires Level(b, rate) && Trunc(Worth(r - b.lastRefill, speed)) <= 0
    ensures |Granted(b, Repeat(r, n), rate, speed)| == n
    ensures forall i :: 0 <= i < n ==> Granted(b, Repeat(r, n), rate, speed)[i] == (i < b.tokens)
    ensures Left(b, Repeat(r, n), rate, speed) == Bucket(if n < b.tokens then b.tokens - n else 0, b.lastRefill)
    decreases n
  {
    if n > 0 {
      var b' := Taken(b, r, rate, speed).0;
      assert b' == Bucket(if b.tokens > 0 then b.tokens - 1 else 0, b.lastRefill);
      assert Repeat(r, n)[1..] == Repeat(r, n - 1);
      Drained(b', r, n - 1, rate, speed);
    }
  }

  lemma NewBucketEarnsNothing(r: real, speed: real)
    ensures Trunc(Worth(r - r, speed)) <= 0
  {
    NothingInNoTime(speed);
    assert r - r == 0.0;
  }

  lemma RefilledEarnsNothing(b: Bucket, r: real, rate: int, speed: real)
    ensures Trunc(Worth(r - Refilled(b, r, rate, speed).lastRefill, speed)) <= 0
  {
    NewBucketEarnsNothing(r, speed);
  }

  lemma RepeatIsFrom(r: real, n: nat)
    requires n > 0
    ensures From(Repeat(r, n), r)
  {
    RepeatIs(r, n);
  }

  /** A bucket that is not full again is told apart by a burst of requests. */
  lemma BurstTells(b: Bucket, r: real, rate: int, speed: real)
    requires rate >= 1 && Level(b, rate) && Refilled(b, r, rate, speed).tokens < rate
    ensures !Indistinguishable(b, r, rate, speed)
  {
    var b', times := Refilled(b, r, rate, speed), Repeat(r, rate);
    RepeatIs(r, rate);
    RepeatIsFrom(r, rate);
    GrantedAfterRefill(b, times, rate, speed);
    RefilledEarnsNothing(b, r, rate, speed);
    NewBucketEarnsNothing(r, speed);
    TakenKeepsLevel(b, r, rate, speed);
    Drained(b', r, rate, rate, speed);
    Drained(Bucket(rate, r), r, rate, rate, speed);
    assert Granted(b', times, rate, speed)[b'.tokens] != Granted(Bucket(rate, r), times, rate, speed)[b'.tokens];
  }

  /** One more request after a burst is answered by what was earned meanwhile. */
  lemma AfterBurst(b: Bucket, r: real, t: real, rate: int, speed: real)
    requires rate >= 1 && b.tokens == rate && Trunc(Worth(r - b.lastRefill, speed)) <= 0
    ensures Granted(b, Repeat(r, rate) + [t], rate, speed) ==
            Granted(b, Repeat(r, rate), rate, speed) + [Trunc(Worth(t - b.lastRefill, speed)) > 0]
  {
    Drained(b, r, rate, rate, speed);
    GrantedAppend(b, Repeat(r, rate), [t], rate, speed);
  }

  lemma BurstThenFrom(r: real, t: real, n: nat)
    requires n > 0 && r <= t
    ensures From(Repeat(r, n) + [t], r)
  {
    RepeatIs(r, n);
  }

  lemma OneTokensTime(speed: real)
    requires speed > 0.0
    ensures Worth(1.0 / speed, speed) == 1.0
  {
  }

  lemma SomeTimeEarns(elapsed: real, speed: real)
    requires speed > 0.0
    ensures elapsed > 0.0 ==> Worth(elapsed, speed) > 0.0
    ensures elapsed < 0.0 ==> Worth(elapsed, speed) < 0.0
  {
  }

  /** A full bucket with another refill time is told apart by a burst and one more request. */
  lemma PatienceTells(b: Bucket, r: real, rate: int, speed: real)
    requires rate >= 1 && speed > 0.0 && b.tokens == rate && b.lastRefill != r
    requires Trunc(Worth(r - b.lastRefill, speed)) <= 0
    ensures !Indistinguishable(b, r, rate, speed)
  {
    var first := if b.lastRefill < r then b.lastRefill else r;
    var t := first + 1.0 / speed;
    OneTokensTime(speed);
    SomeTimeEarns(r - b.lastRefill, speed);
    EarnedSplits(t, r, b.lastRefill, speed);
    assert t - first == 1.0 / speed;
    if t < r {
      SomeTimeEarns(t - r, speed);
    }
    NewBucketEarnsNothing(r, speed);
    AfterBurst(b, r, t, rate, speed);
    AfterBurst(Bucket(rate, r), r, t, rate, speed);
    Drained(b, r, rate, rate, speed);
    Drained(Bucket(rate, r), r, rate, rate, speed);
    BurstThenFrom(r, t, rate);
    var times := Repeat(r, rate) + [t];
    assert Granted(b, times, rate, speed)[rate] != Granted(Bucket(rate, r), times, rate, speed)[rate];
  }

  /** Deleting a bucket whose key is next requested at reading r goes unnoticed, whatever is requested from then
      on, exactly when the kept bucket would by that reading have been refilled to the brim. */
  lemma DeletionGoesUnnoticedExactly(b: Bucket, r: real, rate: int, window: nat)
    requires window > 0 && rate >= 1 && Level(b, rate)
    ensures Indistinguishable(b, r, rate, Speed(rate, window)) <==> Refilled(b, r, rate, Speed(rate, window)) == Bucket(rate, r)
  {
    var speed := Speed(rate, window);
    var b' := Refilled(b, r, rate, speed);
    SpeedIsPositive(rate, window);
    if b' == Bucket(rate, r) {
      forall times | From(times, r) ensures Granted(b, times, rate, speed) == Granted(Bucket(rate, r), times, rate, speed) {
        GrantedAfterRefill(b, times, rate, speed);
      }
    } else if b'.tokens < rate {
      BurstTells(b, r, rate, speed);
    } else {
      RefilledEarnsNothing(b, r, rate, speed);
      assert b' == b;
      PatienceTells(b, r, rate, speed);
    }
  }

  lemma SpeedIsPositive(rate: int, window: nat)
    requires window > 0 && rate >= 1
    ensures Speed(rate, window) > 0.0
  {
  }
}
