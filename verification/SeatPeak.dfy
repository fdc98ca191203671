/** The exact monthly peak of concurrently open license seats: a sweep over interval ends. */
module SeatPeak {
  import Sorting
  import opened Common

  /** A seat is occupied in [reservedAt, releasedAt), without end while it is open. */
  datatype Interval = Interval(reservedAt: int, releasedAt: Option<int>)
  {
    predicate Covers(t: int) {
      reservedAt <= t && (releasedAt.Some? ==> t < releasedAt.value)
    }
  }

  /** How many seats are occupied at an instant. */
  function OpenAt(seats: seq<Interval>, t: int): nat {
    if seats == [] then 0
    else OpenAt(seats[..|seats| - 1], t) + if seats[|seats| - 1].Covers(t) then 1 else 0
  }

  lemma OpenOfAppend(seats: seq<Interval>, s: Interval, t: int)
    ensures OpenAt(seats + [s], t) == OpenAt(seats, t) + if s.Covers(t) then 1 else 0
  {
    assert (seats + [s])[..|seats|] == seats;
  }

  /** The greatest occupancy over the instants of the window [from, upto). */
  ghost predicate IsPeak(seats: seq<Interval>, from: int, upto: int, peak: nat) {
    && (forall t :: from <= t < upto ==> OpenAt(seats, t) <= peak)
    && (exists t :: from <= t < upto && OpenAt(seats, t) == peak)
  }

  lemma PeakIsUnique(seats: seq<Interval>, from: int, upto: int, p: nat, q: nat)
    requires IsPeak(seats, from, upto, p) && IsPeak(seats, from, upto, q)
    ensures p == q
  {
    var t :| from <= t < upto && OpenAt(seats, t) == p;
    var u :| from <= u < upto && OpenAt(seats, u) == q;
  }

  /// ---------------------------------------------------------------------
  /// Events
  /// ---------------------------------------------------------------------

  /** A start (+1) or an end (-1) of an interval clipped to the window. */
  datatype Event = Event(ts: int, delta: int)

  /** The sort key of the sweep: by time, and ends before starts at the same time. */
  predicate Before(a: Event, b: Event) {
    a.ts < b.ts || (a.ts == b.ts && a.delta <= b.delta)
  }

  ghost predicate Sorted(events: seq<Event>) {
    Sorting.Sorted(events, Before)
  }

  function Sort(events: seq<Event>): seq<Event> {
    Sorting.Sort(events, Before)
  }

  function Sum(events: seq<Event>): int {
    if events == [] then 0 else Sum(events[..|events| - 1]) + events[|events| - 1].delta
  }

  /** The balance of the events up to and including an instant. */
  function BalanceAt(events: seq<Event>, t: int): int {
    if events == [] then 0
    else
      var e := events[|events| - 1];
      BalanceAt(events[..|events| - 1], t) + if e.ts <= t then e.delta else 0
  }

  lemma {:induction false} BalanceOfConcat(a: seq<Event>, b: seq<Event>, t: int)
    ensures BalanceAt(a + b, t) == BalanceAt(a, t) + BalanceAt(b, t)
  {
    if b == [] {
      assert a + b == a;
    } else {
      assert (a + b)[..|a + b| - 1] == a + b[..|b| - 1];
      BalanceOfConcat(a, b[..|b| - 1], t);
    }
  }

  /** Every event steps by one, and starts lie inside the window. */
  ghost predicate Steps(events: seq<Event>, from: int, upto: int) {
    forall i :: 0 <= i < |events| ==>
                  (events[i].delta == 1 && from <= events[i].ts < upto) || events[i].delta == -1
  }

  lemma SortSorts(events: seq<Event>, from: int, upto: int)
    requires Steps(events, from, upto)
    ensures Sorted(Sort(events)) && Steps(Sort(events), from, upto)
  {
    var sorted := Sort(events);
    Sorting.SortSorts(events, Before);
    Sorting.SortKeeps(events, Before);
    forall i | 0 <= i < |sorted| ensures sorted[i] in events {
      assert sorted[i] in multiset(sorted);
    }
  }

  lemma {:induction false} InsertKeepsBalance(e: Event, sorted: seq<Event>, t: int)
    ensures BalanceAt(Sorting.Insert(e, sorted, Before), t) == BalanceAt(sorted, t) + if e.ts <= t then e.delta else 0
  {
    if sorted != [] && !Before(sorted[|sorted| - 1], e) {
      var n := |sorted| - 1;
      var rest := Sorting.Insert(e, sorted[..n], Before);
      InsertKeepsBalance(e, sorted[..n], t);
      assert (rest + [sorted[n]])[..|rest|] == rest;
    } else {
      assert (sorted + [e])[..|sorted|] == sorted;
    }
  }

  lemma {:induction false} SortKeepsBalance(events: seq<Event>, t: int)
    ensures BalanceAt(Sort(events), t) == BalanceAt(events, t)
  {
    if events != [] {
      SortKeepsBalance(events[..|events| - 1], t);
      InsertKeepsBalance(events[|events| - 1], Sort(events[..|events| - 1]), t);
    }
  }

  /// ---------------------------------------------------------------------
  /// The sweep
  /// ---------------------------------------------------------------------

  /** The number of events not after t: in sorted order they come first. */
  function Upto(events: seq<Event>, t: int): (n: nat)
    ensures n <= |events|
  {
    if events == [] then 0
    else if events[|events| - 1].ts <= t then |events| else Upto(events[..|events| - 1], t)
  }

  /** At every instant the running total passes through the balance. */
  lemma {:induction false} BalanceIsPrefixSum(events: seq<Event>, t: int)
    requires Sorted(events)
    ensures BalanceAt(events, t) == Sum(events[..Upto(events, t)])
  {
    if events != [] {
      var n := |events| - 1;
      if events[n].ts <= t {
        AllUpto(events, t);
        assert events[..|events|] == events;
      } else {
        BalanceIsPrefixSum(events[..n], t);
        assert events[..n][..Upto(events[..n], t)] == events[..Upto(events[..n], t)];
      }
    }
  }

  lemma {:induction false} AllUpto(events: seq<Event>, t: int)
    requires forall i :: 0 <= i < |events| ==> events[i].ts <= t
    ensures BalanceAt(events, t) == Sum(events)
  {
    if events != [] {
      AllUpto(events[..|events| - 1], t);
    }
  }

  /** Just after a start the running total is at most the balance of that instant: every end of the
      same instant was already counted, later starts of it may still come. */
  lemma {:induction false} StartWithinBalance(events: seq<Event>, n: nat, k: nat)
    requires Sorted(events) && n < k <= |events|
    requires events[n].delta == 1
    ensures Sum(events[..n + 1]) <= BalanceAt(events[..k], events[n].ts)
    decreases k
  {
    var t := events[n].ts;
    if k == n + 1 {
      AllUpto(events[..k], t);
    } else {
      StartWithinBalance(events, n, k - 1);
      assert events[..k][..k - 1] == events[..k - 1];
      assert Before(events[n], events[k - 1]);
    }
  }

  /** Clipped events of one seat; none when it lies outside the window. */
  function EventsOf(s: Interval, from: int, upto: int): seq<Event> {
    var start := Max(s.reservedAt, from);
    var end := Min(if s.releasedAt.Some? then s.releasedAt.value else upto, upto);
    if start >= end then [] else [Event(start, 1), Event(end, -1)]
  }

  function AllEvents(seats: seq<Interval>, from: int, upto: int): seq<Event> {
    if seats == [] then []
    else AllEvents(seats[..|seats| - 1], from, upto) + EventsOf(seats[|seats| - 1], from, upto)
  }

  lemma {:induction false} EventsInWindow(seats: seq<Interval>, from: int, upto: int)
    ensures Steps(AllEvents(seats, from, upto), from, upto)
  {
    if seats != [] {
      EventsInWindow(seats[..|seats| - 1], from, upto);
    }
  }

  lemma EventsOfOne(s: Interval, from: int, upto: int, t: int)
    requires from <= t < upto
    ensures BalanceAt(EventsOf(s, from, upto), t) == if s.Covers(t) then 1 else 0
  {
    var es := EventsOf(s, from, upto);
    if es != [] {
      assert es == [es[0]] + [es[1]];
      BalanceOfConcat([es[0]], [es[1]], t);
      BalanceOfOne(es[0], t);
      BalanceOfOne(es[1], t);
    }
  }

  lemma BalanceOfOne(e: Event, t: int)
    ensures BalanceAt([e], t) == if e.ts <= t then e.delta else 0
  {
    assert [e][..0] == [];
  }

  /** Inside the window the balance of the events is the number of open seats. */
  lemma {:induction false} BalanceIsOpenSeats(seats: seq<Interval>, from: int, upto: int, t: int)
    requires from <= t < upto
    ensures BalanceAt(AllEvents(seats, from, upto), t) == OpenAt(seats, t)
  {
    if seats != [] {
      var n := |seats| - 1;
      BalanceIsOpenSeats(seats[..n], from, upto, t);
      BalanceOfConcat(AllEvents(seats[..n], from, upto), EventsOf(seats[n], from, upto), t);
      EventsOfOne(seats[n], from, upto, t);
    }
  }

  /** _peak_from_intervals: the sweep returns the maximum occupancy over the window. */
  method PeakFromIntervals(seats: seq<Interval>, monthStart: int, nextMonthStart: int) returns (peak: nat)
    requires monthStart < nextMonthStart
    ensures IsPeak(seats, monthStart, nextMonthStart, peak)
  {
    var events: seq<Event> := [];
    for n := 0 to |seats|
      invariant events == AllEvents(seats[..n], monthStart, nextMonthStart)
    {
      assert seats[..n + 1][..n] == seats[..n];
      var s := seats[n].reservedAt;
      var e := if seats[n].releasedAt.Some? then seats[n].releasedAt.value else nextMonthStart;
      if s < monthStart {
        s := monthStart;
      }
      if e > nextMonthStart {
        e := nextMonthStart;
      }
      if s >= e {
        continue;
      }
      events := events + [Event(s, 1), Event(e, -1)];
    }
    assert seats[..|seats|] == seats;
    EventsInWindow(seats, monthStart, nextMonthStart);
    SortSorts(events, monthStart, nextMonthStart);
    peak := Sweep(Sort(events), seats, monthStart, nextMonthStart);
  }

  ghost predicate PrefixSumsBelow(events: seq<Event>, n: nat, bound: int)
    requires n <= |events|
  {
    forall m :: 0 <= m <= n ==> Sum(events[..m]) <= bound
  }

  lemma OneMoreEvent(events: seq<Event>, n: nat)
    requires n < |events|
    ensures Sum(events[..n + 1]) == Sum(events[..n]) + events[n].delta
  {
    assert events[..n + 1][..n] == events[..n];
  }

  lemma PrefixSumsExtend(events: seq<Event>, n: nat, bound: int, bound': int)
    requires n < |events| && PrefixSumsBelow(events, n, bound) && bound <= bound' && Sum(events[..n + 1]) <= bound'
    ensures PrefixSumsBelow(events, n + 1, bound')
  {
  }

  /** The running total over the sorted events, and the greatest value it takes. */
  method Sweep(sorted: seq<Event>, ghost seats: seq<Interval>, ghost from: int, ghost upto: int) returns (peak: nat)
    requires from < upto && sorted == Sort(AllEvents(seats, from, upto))
    requires Sorted(sorted) && Steps(sorted, from, upto)
    ensures IsPeak(seats, from, upto, peak)
  {
    var current := 0;
    peak := 0;
    ghost var at := from;
    for n := 0 to |sorted|
      invariant current == Sum(sorted[..n])
      invariant PrefixSumsBelow(sorted, n, peak)
      invariant from <= at < upto && peak <= OpenAt(seats, at)
    {
      OneMoreEvent(sorted, n);
      ghost var before := peak;
      current := current + sorted[n].delta;
      if current > peak {
        peak := current;
        at := sorted[n].ts;
        StartWithinOpenSeats(sorted, n, seats, from, upto);
      }
      PrefixSumsExtend(sorted, n, before, peak);
    }
    PrefixSumsBoundOpenSeats(sorted, peak, seats, from, upto);
  }

  lemma PrefixSumsBoundOpenSeats(sorted: seq<Event>, peak: nat, seats: seq<Interval>, from: int, upto: int)
    requires sorted == Sort(AllEvents(seats, from, upto)) && Sorted(sorted)
    requires PrefixSumsBelow(sorted, |sorted|, peak)
    ensures forall t :: from <= t < upto ==> OpenAt(seats, t) <= peak
  {
    forall t | from <= t < upto ensures OpenAt(seats, t) <= peak {
      BalanceIsOpenSeats(seats, from, upto, t);
      SortKeepsBalance(AllEvents(seats, from, upto), t);
      BalanceIsPrefixSum(sorted, t);
    }
  }

  lemma StartWithinOpenSeats(sorted: seq<Event>, n: nat, seats: seq<Interval>, from: int, upto: int)
    requires sorted == Sort(AllEvents(seats, from, upto)) && Sorted(sorted) && Steps(sorted, from, upto)
    requires n < |sorted| && sorted[n].delta == 1
    ensures Sum(sorted[..n + 1]) <= OpenAt(seats, sorted[n].ts)
  {
    StartWithinBalance(sorted, n, |sorted|);
    assert sorted[..|sorted|] == sorted;
    SortKeepsBalance(AllEvents(seats, from, upto), sorted[n].ts);
    BalanceIsOpenSeats(seats, from, upto, sorted[n].ts);
  }

  /// ---------------------------------------------------------------------
  /// The query and its overlap filter
  /// ---------------------------------------------------------------------

  /** A row of the seat ledger. */
  datatype SeatRow = SeatRow(license: string, device: string, period: Interval)

  /** The WHERE clause: the license's intervals that overlap the window. */
  predicate Overlaps(r: SeatRow, license: string, from: int, upto: int) {
    && r.license == license
    && r.period.reservedAt < upto
    && (r.period.releasedAt.None? || r.period.releasedAt.value > from)
  }

  function Filtered(rows: seq<SeatRow>, license: string, from: int, upto: int): seq<Interval> {
    if rows == [] then []
    else
      var r := rows[|rows| - 1];
      var before := Filtered(rows[..|rows| - 1], license, from, upto);
      if Overlaps(r, license, from, upto) then before + [r.period] else before
  }

  /** The whole seat history of a license. */
  function History(rows: seq<SeatRow>, license: string): seq<Interval> {
    if rows == [] then []
    else
      var r := rows[|rows| - 1];
      var before := History(rows[..|rows| - 1], license);
      if r.license == license then before + [r.period] else before
  }

  /** Rows outside the window are never open inside it, so leaving them out changes nothing. */
  lemma {:induction false} FilterKeepsOccupancy(rows: seq<SeatRow>, license: string, from: int, upto: int, t: int)
    requires from <= t < upto
    ensures OpenAt(Filtered(rows, license, from, upto), t) == OpenAt(History(rows, license), t)
  {
    if rows != [] {
      var n := |rows| - 1;
      FilterKeepsOccupancy(rows[..n], license, from, upto, t);
      OpenOfAppend(Filtered(rows[..n], license, from, upto), rows[n].period, t);
      OpenOfAppend(History(rows[..n], license), rows[n].period, t);
    }
  }

  /** peak_seats_for_month: the peak of the filtered rows is the peak of the whole history. */
  method PeakSeatsForMonth(rows: seq<SeatRow>, license: string, monthStart: int, nextMonthStart: int) returns (peak: nat)
    requires monthStart < nextMonthStart
    ensures IsPeak(History(rows, license), monthStart, nextMonthStart, peak)
  {
    var seats := Filtered(rows, license, monthStart, nextMonthStart);
    peak := PeakFromIntervals(seats, monthStart, nextMonthStart);
    forall t | monthStart <= t < nextMonthStart ensures OpenAt(seats, t) == OpenAt(History(rows, license), t) {
      FilterKeepsOccupancy(rows, license, monthStart, nextMonthStart, t);
    }
  }

  /** Handing a seat over at one instant is one seat, not two: the end is counted before the start. */
  lemma HandoverIsOneSeat(a: int, b: int, c: int, from: int, upto: int, peak: nat)
    requires from <= a < b < c <= upto
    requires IsPeak([Interval(a, Some(b)), Interval(b, Some(c))], from, upto, peak)
    ensures peak == 1
  {
    var seats := [Interval(a, Some(b)), Interval(b, Some(c))];
    forall t ensures OpenAt(seats, t) == (if a <= t < b then 1 else 0) + (if b <= t < c then 1 else 0) {
      assert seats == [] + [seats[0]] + [seats[1]];
      OpenOfAppend([], seats[0], t);
      OpenOfAppend([] + [seats[0]], seats[1], t);
    }
    assert OpenAt(seats, a) == 1;
  }
}
