/** What each call of the approval workflow does, in the terms of the tables, and what an approval request books. */
module CampaignAnswers {
  import opened Common
  import opened Slots
  import opened InventoryBooks
  import opened InventoryTerms
  import opened CampaignLifecycle
  import Runs = InventoryRuns

  /// ---------------------------------------------------------------------
  /// Which calls move a campaign
  /// ---------------------------------------------------------------------

  /** The campaign has moved to the status, which its history records; no other campaign has changed. */
  ghost predicate MovedOn(w: World, w': World, id: string, target: Status) {
    && id in w.campaigns
    && w'.campaigns == w.campaigns[id := Campaign(target, w.campaigns[id].history + [Move(Some(w.campaigns[id].status), target)])]
  }

  predicate Is(w: World, id: string, status: Status) {
    id in w.campaigns && w.campaigns[id].status == status
  }

  predicate Ended(f: Flight, now: int) {
    f.endAt.Some? && f.endAt.value < now
  }

  /** Archiving, activating, pausing and completing: each moves a campaign that has just the status for it, completing
      only when there are flights and all of them have ended; otherwise nothing changes, and no booking ever does. */
  lemma MovesExactly(w: World, id: string, flights: seq<Flight>, now: int)
    ensures var w' := Step(w, Archive(id));
            if Is(w, id, Draft) || Is(w, id, Rejected) then MovedOn(w, w', id, Archived) && w'.books == w.books else w' == w
    ensures var w' := Step(w, Activate(id));
            if Is(w, id, Approved) then MovedOn(w, w', id, Active) && w'.books == w.books else w' == w
    ensures var w' := Step(w, Pause(id));
            if Is(w, id, Active) then MovedOn(w, w', id, Paused) && w'.books == w.books else w' == w
    ensures var w' := Step(w, Complete(id, flights, now));
            if Is(w, id, Active) && flights != [] && (forall f :: f in flights ==> Ended(f, now))
            then MovedOn(w, w', id, Completed) && w'.books == w.books else w' == w
  {
    if forall f :: f in flights ==> Ended(f, now) {
      assert forall i :: 0 <= i < |flights| ==> Ended(flights[i], now);
    } else {
      var f :| f in flights && !Ended(f, now);
      var i :| 0 <= i < |flights| && flights[i] == f;
    }
  }

  /** A new campaign is a draft, with its creation on record; an existing one stays as it is. */
  lemma CreatesDraft(w: World, id: string)
    ensures Step(w, Create(id)).books == w.books
    ensures Step(w, Create(id)).campaigns ==
            if id in w.campaigns then w.campaigns else w.campaigns[id := Campaign(Draft, [Move(None, Draft)])]
  {
  }

  /** An expiry touches no campaign, and expires the overdue reservations of all. */
  lemma ExpiresOverdue(w: World, now: int)
    ensures var w' := Step(w, ExpireTick(now));
            && w'.campaigns == w.campaigns && |w'.books.rows| == |w.books.rows|
            && forall i :: 0 <= i < |w.books.rows| ==>
                 w'.books.rows[i] == if w.books.rows[i].status == Reserved && w.books.rows[i].reservedUntil < now
                                     then w.books.rows[i].(status := Expired) else w.books.rows[i]
  {
  }

  /** Runs can be continued. */
  lemma {:induction false} RunsContinue(w: World, ops: seq<Op>, more: seq<Op>)
    ensures Run(w, ops + more) == Run(Run(w, ops), more) && Run(w, []) == w
    decreases |ops|
  {
    if ops == [] {
      assert ops + more == more;
    } else {
      assert (ops + more)[1..] == ops[1..] + more;
      RunsContinue(Step(w, ops[0]), ops[1..], more);
    }
  }

  lemma RunOfOne(w: World, op: Op)
    ensures Run(w, [op]) == Step(w, op)
  {
    assert [op][1..] == [];
  }

  /** The bookings of the campaign in one of these statuses take a new one; the others stay. */
  ghost predicate Restatused(rows: seq<Booking>, rows': seq<Booking>, id: string, from: set<BookingStatus>, status: BookingStatus) {
    && |rows| == |rows'|
    && forall i :: 0 <= i < |rows| ==>
         rows'[i] == if rows[i].campaign == id && rows[i].status in from then rows[i].(status := status) else rows[i]
  }

  /** Approving and rejecting: a pending campaign whose request is on record, and for an approval one that is still
      ready, moves, and its reservations are committed or released with it; otherwise nothing changes. */
  lemma DecidesExactly(w: World, id: string, ready: bool)
    ensures var w', pending := Step(w, Approve(id, ready)), Is(w, id, PendingApproval) && Move(Some(Draft), PendingApproval) in w.campaigns[id].history;
            if pending && ready then MovedOn(w, w', id, Approved) && Restatused(w.books.rows, w'.books.rows, id, {Reserved}, Committed) else w' == w
    ensures var w', pending := Step(w, Reject(id)), Is(w, id, PendingApproval) && Move(Some(Draft), PendingApproval) in w.campaigns[id].history;
            if pending then MovedOn(w, w', id, Rejected) && Restatused(w.books.rows, w'.books.rows, id, {Reserved, Committed}, Released) else w' == w
  {
  }

  /// ---------------------------------------------------------------------
  /// What an approval request asks for
  /// ---------------------------------------------------------------------

  /** The share of voice of a placement: all of it, if the placement does not say. */
  function ShareOf(p: Placement): int {
    if p.sov == None || p.sov == Some(0) then 100 else p.sov.value
  }

  predicate Dated(f: Flight) {
    f.startAt.Some? && f.endAt.Some?
  }

  /** A placement is reserved on its surface, for its share of voice, from the start of the flight to its end. */
  function Wish(p: Placement, f: Flight, env: Env): Ask
    requires p.surface.Some? && Dated(f)
  {
    Ask(p.surface.value, f.startAt.value, f.endAt.value, None, Some(ShareOf(p)), env.slotCapacity)
  }

  lemma WishIsAsked(p: Placement, f: Flight, env: Env)
    requires p.surface.Some? && Dated(f)
    ensures AskFor(p, f, env) == Wish(p, f, env)
  {
  }

  /** The reservation for the m-th flight of a placement, once those before it are made, meets nothing against it. */
  ghost predicate FlightGoes(b: Books, id: string, p: Placement, flights: seq<Flight>, env: Env, m: int)
    requires p.surface.Some?
  {
    0 <= m < |flights| && Dated(flights[m]) ==>
      exists now :: HoldFlights(b, id, p, flights[..m], env) == Some(now) && Goes(now, Wish(p, flights[m], env), env)
  }

  ghost predicate Goes(b: Books, ask: Ask, env: Env) {
    Sensible(ask) && !Hindered(env.dir, b.slots, ask, env.now)
  }

  lemma ReservesExactly(b: Books, id: string, p: Placement, f: Flight, env: Env)
    requires p.surface.Some? && Dated(f)
    ensures ReserveOutcome(b, env.dir, env.now, id, p.id, AskFor(p, f, env), env.until).1.Ok? <==> Goes(b, Wish(p, f, env), env)
  {
    WishIsAsked(p, f, env);
    RefusedExactly(b, env.dir, env.now, id, p.id, Wish(p, f, env), env.until);
  }

  /** A placement is reserved exactly when each reservation in turn meets nothing against it. */
  lemma {:induction false} FlightsGoExactly(b: Books, id: string, p: Placement, flights: seq<Flight>, env: Env)
    requires p.surface.Some?
    ensures HoldFlights(b, id, p, flights, env).Some? <==> forall m :: FlightGoes(b, id, p, flights, env, m)
  {
    if flights != [] {
      var last, front := |flights| - 1, flights[..|flights| - 1];
      FlightsGoExactly(b, id, p, front, env);
      forall m | m != last ensures FlightGoes(b, id, p, flights, env, m) <==> FlightGoes(b, id, p, front, env, m) {
        if 0 <= m < last {
          assert front[..m] == flights[..m];
        }
      }
      LastFlightGoes(b, id, p, flights, env);
      if HoldFlights(b, id, p, front, env).None? {
        var m :| !FlightGoes(b, id, p, front, env, m);
        assert !FlightGoes(b, id, p, flights, env, m);
      }
    }
  }

  lemma LastFlightGoes(b: Books, id: string, p: Placement, flights: seq<Flight>, env: Env)
    requires p.surface.Some? && flights != []
    ensures var last := |flights| - 1;
            HoldFlights(b, id, p, flights[..last], env).Some? ==>
              (HoldFlights(b, id, p, flights, env).Some? <==> FlightGoes(b, id, p, flights, env, last))
  {
    var last := |flights| - 1;
    var held := HoldFlights(b, id, p, flights[..last], env);
    if held.Some? && Dated(flights[last]) {
      ReservesExactly(held.value, id, p, flights[last], env);
    }
  }

  /** All reservations for the n-th placement, once those before it are reserved, meet nothing against them. */
  ghost predicate PlacementGoes(b: Books, id: string, placements: seq<Placement>, flights: seq<Flight>, env: Env, n: int) {
    0 <= n < |placements| && placements[n].surface.Some? ==>
      exists before :: HoldPlacements(b, id, placements[..n], flights, env) == Some(before) && AllFlightsGo(before, id, placements[n], flights, env)
  }

  ghost predicate AllFlightsGo(b: Books, id: string, p: Placement, flights: seq<Flight>, env: Env)
    requires p.surface.Some?
  {
    forall m :: FlightGoes(b, id, p, flights, env, m)
  }

  lemma {:induction false} PlacementsGoExactly(b: Books, id: string, placements: seq<Placement>, flights: seq<Flight>, env: Env)
    ensures HoldPlacements(b, id, placements, flights, env).Some? <==> forall n :: PlacementGoes(b, id, placements, flights, env, n)
  {
    if placements != [] {
      var last, front := |placements| - 1, placements[..|placements| - 1];
      PlacementsGoExactly(b, id, front, flights, env);
      forall n | n != last ensures PlacementGoes(b, id, placements, flights, env, n) <==> PlacementGoes(b, id, front, flights, env, n) {
        if 0 <= n < last {
          assert front[..n] == placements[..n];
        }
      }
      var held := HoldPlacements(b, id, front, flights, env);
      if held.None? {
        var n :| !PlacementGoes(b, id, front, flights, env, n);
        assert !PlacementGoes(b, id, placements, flights, env, n);
      } else {
        LastPlacementGoes(b, id, placements, flights, env);
      }
    }
  }

  lemma LastPlacementGoes(b: Books, id: string, placements: seq<Placement>, flights: seq<Flight>, env: Env)
    requires placements != [] && HoldPlacements(b, id, placements[..|placements| - 1], flights, env).Some?
    ensures HoldPlacements(b, id, placements, flights, env).Some? <==> PlacementGoes(b, id, placements, flights, env, |placements| - 1)
  {
    var last := |placements| - 1;
    var held := HoldPlacements(b, id, placements[..last], flights, env);
    if placements[last].surface.Some? {
      FlightsGoExactly(held.value, id, placements[last], flights, env);
      assert PlacementGoes(b, id, placements, flights, env, last) <==> AllFlightsGo(held.value, id, placements[last], flights, env);
    }
  }

  /** A request has something to run and passes the checks of its creatives and contract. */
  predicate WellFilled(form: Form) {
    form.flights != [] && form.placements != [] && form.hasCreatives && form.checksPass
  }

  /** A draft that is complete moves to pending exactly when all of its reservations, made one after the other on the
      books without the campaign's former ones, go through; otherwise nothing changes. */
  lemma RequestMovesExactly(w: World, id: string, form: Form, env: Env)
    ensures var (w', answer) := Requested(w, id, form, env);
            && (answer == NoChange <==> !Is(w, id, Draft))
            && (answer == Moved <==>
                  && Is(w, id, Draft) && WellFilled(form)
                  && forall n :: PlacementGoes(Runs.Step(w.books, Runs.ReleaseOp(id)), id, form.placements, form.flights, env, n))
            && (if answer == Moved then MovedOn(w, w', id, PendingApproval) else w' == w)
            && w' == Step(w, RequestApproval(id, form, env))
  {
    var b := Runs.Step(w.books, Runs.ReleaseOp(id));
    assert b == Updated(w.books, Release(id));
    PlacementsGoExactly(b, id, form.placements, form.flights, env);
  }

  /** A pending campaign with its request on record that is approved, activated and completed. */
  lemma PendingLife(w: World, id: string, flights: seq<Flight>, now: int)
    requires id in w.campaigns && flights != [] && forall f :: f in flights ==> Ended(f, now)
    requires w.campaigns[id] == Campaign(PendingApproval, [Move(None, Draft), Move(Some(Draft), PendingApproval)])
    ensures var w' := Step(Step(Step(w, Approve(id, true)), Activate(id)), Complete(id, flights, now));
            && id in w'.campaigns
            && w'.campaigns[id] == Campaign(Completed,
                 [Move(None, Draft), Move(Some(Draft), PendingApproval), Move(Some(PendingApproval), Approved),
                  Move(Some(Approved), Active), Move(Some(Active), Completed)])
  {
    var w3 := Step(w, Approve(id, true));
    DecidesExactly(w, id, true);
    MovesExactly(w3, id, flights, now);
    MovesExactly(Step(w3, Activate(id)), id, flights, now);
  }

  /** Five events in a run are five steps. */
  lemma RunOfFive(w: World, a: Op, b: Op, c: Op, d: Op, e: Op)
    ensures Run(w, [a] + ([b] + ([c] + ([d] + [e])))) == Step(Step(Step(Step(Step(w, a), b), c), d), e)
  {
    var w1 := Step(w, a);
    var w2 := Step(w1, b);
    var w3 := Step(w2, c);
    RunOfOne(w, a);
    RunOfOne(w1, b);
    RunOfOne(w2, c);
    RunOfOne(w3, d);
    RunOfOne(Step(w3, d), e);
    RunsContinue(w3, [d], [e]);
    RunsContinue(w2, [c], [d] + [e]);
    RunsContinue(w1, [b], [c] + ([d] + [e]));
    RunsContinue(w, [a], [b] + ([c] + ([d] + [e])));
  }

  /** The life of a campaign that is asked for, approved, activated and completed, whatever the run before. */
  lemma FullLifeIsReached(w: World, id: string, form: Form, env: Env, flights: seq<Flight>, now: int)
    requires id !in w.campaigns && flights != [] && forall f :: f in flights ==> Ended(f, now)
    requires Requested(Step(w, Create(id)), id, form, env).1 == Moved
    ensures var w' := Run(w, [Create(id)] + ([RequestApproval(id, form, env)] + ([Approve(id, true)] + ([Activate(id)] + [Complete(id, flights, now)]))));
            && id in w'.campaigns
            && w'.campaigns[id] == Campaign(Completed,
                 [Move(None, Draft), Move(Some(Draft), PendingApproval), Move(Some(PendingApproval), Approved),
                  Move(Some(Approved), Active), Move(Some(Active), Completed)])
  {
    var w1 := Step(w, Create(id));
    RunOfFive(w, Create(id), RequestApproval(id, form, env), Approve(id, true), Activate(id), Complete(id, flights, now));
    CreatesDraft(w, id);
    RequestMovesExactly(w1, id, form, env);
    PendingLife(Step(w1, RequestApproval(id, form, env)), id, flights, now);
  }

  /// ---------------------------------------------------------------------
  /// What it books
  /// ---------------------------------------------------------------------

  /** The position of the first flight with both dates; the number of flights if there is none. */
  function FirstDated(flights: seq<Flight>): nat {
    if flights == [] then 0
    else
      var first := FirstDated(flights[..|flights| - 1]);
      if first < |flights| - 1 || Dated(flights[|flights| - 1]) then first else |flights|
  }

  lemma {:induction false} FirstDatedIsFirst(flights: seq<Flight>)
    ensures var m := FirstDated(flights);
            m <= |flights| && (m < |flights| ==> Dated(flights[m])) && forall i :: 0 <= i < m ==> !Dated(flights[i])
  {
    if flights != [] {
      FirstDatedIsFirst(flights[..|flights| - 1]);
    }
  }

  /** The bookings added for a placement: one for each hour of its first dated flight, for the share that it asks of
      that hour. */
  ghost predicate BooksFlight(added: seq<Booking>, slots: SlotTable, id: string, p: Placement, f: Flight, env: Env)
    requires p.surface.Some? && Dated(f)
  {
    && (forall i :: 0 <= i < |added| ==> Holds(added[i], slots, id, p.id, Wish(p, f, env), env.until))
    && (forall i, j :: 0 <= i < j < |added| ==> added[i].slot != added[j].slot)
    && forall k :: InRange(Wish(p, f, env), k) ==> exists i :: 0 <= i < |added| && added[i].slot == k
  }

  /** The capacities are what they were, and slots created meanwhile have the configured one. */
  ghost predicate SameCapacity(slots: SlotTable, slots': SlotTable, env: Env) {
    && (forall k :: k in slots ==> k in slots' && slots'[k].total == slots[k].total)
    && (forall k :: k in slots' && k !in slots ==> slots'[k].total == env.slotCapacity)
  }

  lemma SameCapacityAsks(slots: SlotTable, slots': SlotTable, k: SlotKey, ask: Ask, env: Env)
    requires SameCapacity(slots, slots', env) && ask.defaultTotal == env.slotCapacity
    ensures CapacityAt(slots', k, ask) == CapacityAt(slots, k, ask)
  {
  }

  lemma ReserveKeepsCapacities(b: Books, env: Env, id: string, placement: string, ask: Ask)
    requires ask.defaultTotal == env.slotCapacity
    ensures SameCapacity(b.slots, ReserveOutcome(b, env.dir, env.now, id, placement, ask, env.until).0.slots, env)
  {
    WithHoursOnlyCreates(b.slots, ask.Keys(), ask.defaultTotal);
    var slots := WithHours(b.slots, ask.Keys(), ask.defaultTotal);
    assert SameCapacity(b.slots, slots, env);
  }

  /** While a request is processed, another reservation of a placement that has bookings adds none. */
  lemma ReservingAgainAddsNothing(b0: Books, b: Books, id: string, owner: string -> string, p: Placement, ask: Ask, env: Env)
    requires Requesting(b0, b, id, owner) && owner(p.id) == id && HasRows(b.rows, p.id)
    ensures ReserveOutcome(b, env.dir, env.now, id, p.id, ask, env.until).0.rows == b.rows
  {
    NothingToReactivate(b0, b, id, owner, p.id, env.until);
  }

  /** The range of the flight has a whole hour, so something is booked. */
  lemma SomethingIsBooked(b: Books, id: string, p: Placement, f: Flight, env: Env, added: seq<Booking>)
    requires p.surface.Some? && Dated(f) && Goes(b, Wish(p, f, env), env) && BooksFlight(added, b.slots, id, p, f, env)
    ensures added != [] && added[0].placement == p.id
  {
    var k :| InRange(Wish(p, f, env), k);
    assert exists i :: 0 <= i < |added| && added[i].slot == k;
    assert Holds(added[0], b.slots, id, p.id, Wish(p, f, env), env.until);
  }

  /** A placement without bookings, reserved for all flights: its first dated flight is booked, and nothing else. */
  ghost predicate Booked(b: Books, b': Books, id: string, p: Placement, flights: seq<Flight>, env: Env)
    requires p.surface.Some?
  {
    && |b.rows| <= |b'.rows| && b'.rows[..|b.rows|] == b.rows && SameCapacity(b.slots, b'.slots, env)
    && var m, added := FirstDated(flights), b'.rows[|b.rows|..];
       if m < |flights| && Dated(flights[m]) then BooksFlight(added, b.slots, id, p, flights[m], env) && HasRows(b'.rows, p.id) else added == []
  }

  lemma FirstFlightIsBooked(b: Books, b1: Books, id: string, p: Placement, f: Flight, env: Env)
    requires p.surface.Some? && Dated(f) && !HasRows(b.rows, p.id) && b1.rows == b.rows && SameCapacity(b.slots, b1.slots, env)
    requires Goes(b1, Wish(p, f, env), env)
    ensures var b2 := ReserveOutcome(b1, env.dir, env.now, id, p.id, AskFor(p, f, env), env.until).0;
            && |b.rows| <= |b2.rows| && b2.rows[..|b.rows|] == b.rows && SameCapacity(b.slots, b2.slots, env)
            && BooksFlight(b2.rows[|b.rows|..], b.slots, id, p, f, env) && HasRows(b2.rows, p.id)
  {
    var ask := Wish(p, f, env);
    WishIsAsked(p, f, env);
    BooksEachHour(b1, env.dir, env.now, id, p.id, ask, env.until);
    ReserveKeepsCapacities(b1, env, id, p.id, ask);
    var b2 := ReserveOutcome(b1, env.dir, env.now, id, p.id, ask, env.until).0;
    var added := b2.rows[|b.rows|..];
    assert BooksFlight(added, b1.slots, id, p, f, env);
    SomethingIsBooked(b1, id, p, f, env, added);
    assert b2.rows[|b.rows|] == added[0];
    forall i | 0 <= i < |added| ensures Holds(added[i], b.slots, id, p.id, ask, env.until) {
      SameCapacityAsks(b.slots, b1.slots, added[i].slot, ask, env);
    }
  }

  lemma {:induction false} PlacementIsBooked(b0: Books, b: Books, id: string, owner: string -> string, p: Placement, flights: seq<Flight>, env: Env)
    requires Requesting(b0, b, id, owner) && owner(p.id) == id && p.surface.Some? && !HasRows(b.rows, p.id)
    requires HoldFlights(b, id, p, flights, env).Some?
    ensures Booked(b, HoldFlights(b, id, p, flights, env).value, id, p, flights, env)
  {
    if flights == [] {
      assert b.rows[..|b.rows|] == b.rows;
    } else {
      var last, front := |flights| - 1, flights[..|flights| - 1];
      PlacementIsBooked(b0, b, id, owner, p, front, env);
      HoldFlightsRequesting(b0, b, id, owner, p, front, env);
      FirstDatedIsFirst(front);
      var b1 := HoldFlights(b, id, p, front, env).value;
      if Dated(flights[last]) {
        NextFlightIsBooked(b0, b, b1, id, owner, p, flights, env);
      }
    }
  }

  lemma LaterFlightAddsNothing(b0: Books, b: Books, b1: Books, id: string, owner: string -> string, p: Placement, flights: seq<Flight>, env: Env)
    requires flights != [] && p.surface.Some? && Dated(flights[|flights| - 1]) && owner(p.id) == id
    requires Requesting(b0, b1, id, owner) && Booked(b, b1, id, p, flights[..|flights| - 1], env)
    requires FirstDated(flights[..|flights| - 1]) < |flights| - 1
    ensures Booked(b, ReserveOutcome(b1, env.dir, env.now, id, p.id, AskFor(p, flights[|flights| - 1], env), env.until).0, id, p, flights, env)
  {
    var last, front := |flights| - 1, flights[..|flights| - 1];
    FirstDatedIsFirst(front);
    assert FirstDated(flights) == FirstDated(front) && flights[FirstDated(front)] == front[FirstDated(front)];
    ReservingAgainAddsNothing(b0, b1, id, owner, p, AskFor(p, flights[last], env), env);
    ReserveKeepsCapacities(b1, env, id, p.id, AskFor(p, flights[last], env));
  }

  lemma NextFlightIsBooked(b0: Books, b: Books, b1: Books, id: string, owner: string -> string, p: Placement, flights: seq<Flight>, env: Env)
    requires flights != [] && p.surface.Some? && Dated(flights[|flights| - 1]) && owner(p.id) == id && !HasRows(b.rows, p.id)
    requires Requesting(b0, b1, id, owner) && Booked(b, b1, id, p, flights[..|flights| - 1], env)
    requires ReserveOutcome(b1, env.dir, env.now, id, p.id, AskFor(p, flights[|flights| - 1], env), env.until).1.Ok?
    ensures Booked(b, ReserveOutcome(b1, env.dir, env.now, id, p.id, AskFor(p, flights[|flights| - 1], env), env.until).0, id, p, flights, env)
  {
    var last, front := |flights| - 1, flights[..|flights| - 1];
    if FirstDated(front) < last {
      LaterFlightAddsNothing(b0, b, b1, id, owner, p, flights, env);
    } else {
      FirstDatedIsFirst(front);
      ReservesExactly(b1, id, p, flights[last], env);
      assert b1.rows == b1.rows[..|b.rows|] + b1.rows[|b.rows|..];
      FirstFlightIsBooked(b, b1, id, p, flights[last], env);
    }
  }

  /** The booking is one that the n-th placement asks for: of an hour of the first dated flight. */
  ghost predicate AskedBy(r: Booking, slots: SlotTable, id: string, placements: seq<Placement>, flights: seq<Flight>, env: Env, n: int) {
    && 0 <= n < |placements| && placements[n].surface.Some?
    && var m := FirstDated(flights);
       m < |flights| && Dated(flights[m]) && Holds(r, slots, id, placements[n].id, Wish(placements[n], flights[m], env), env.until)
  }

  ghost predicate AskedFor(r: Booking, slots: SlotTable, id: string, placements: seq<Placement>, flights: seq<Flight>, env: Env) {
    exists n :: AskedBy(r, slots, id, placements, flights, env, n)
  }

  ghost predicate HourBooked(added: seq<Booking>, placement: string, k: SlotKey) {
    exists i :: 0 <= i < |added| && added[i].placement == placement && added[i].slot == k
  }

  /** Each hour that the n-th placement asks for is booked for it. */
  ghost predicate Served(added: seq<Booking>, placements: seq<Placement>, flights: seq<Flight>, env: Env, n: nat)
    requires n < |placements|
  {
    var p, m := placements[n], FirstDated(flights);
    p.surface.Some? && m < |flights| && Dated(flights[m]) ==>
      forall k :: InRange(Wish(p, flights[m], env), k) ==> HourBooked(added, p.id, k)
  }

  /** Rows were added, each asked for by a placement, and each placement has all it asks for. */
  ghost predicate BookedAll(b: Books, b': Books, id: string, placements: seq<Placement>, flights: seq<Flight>, env: Env) {
    && |b.rows| <= |b'.rows| && b'.rows[..|b.rows|] == b.rows && SameCapacity(b.slots, b'.slots, env)
    && var added := b'.rows[|b.rows|..];
       && (forall i :: 0 <= i < |added| ==> AskedFor(added[i], b.slots, id, placements, flights, env))
       && forall n :: 0 <= n < |placements| ==> Served(added, placements, flights, env, n)
  }

  ghost predicate DistinctPlacements(placements: seq<Placement>) {
    forall i, j :: 0 <= i < j < |placements| ==> placements[i].id != placements[j].id
  }

  lemma AskedForMore(r: Booking, slots: SlotTable, id: string, placements: seq<Placement>, p: Placement, flights: seq<Flight>, env: Env)
    requires AskedFor(r, slots, id, placements, flights, env)
    ensures AskedFor(r, slots, id, placements + [p], flights, env)
  {
    var n :| AskedBy(r, slots, id, placements, flights, env, n);
    assert (placements + [p])[n] == placements[n];
    assert AskedBy(r, slots, id, placements + [p], flights, env, n);
  }

  lemma ServedByMore(added: seq<Booking>, more: seq<Booking>, placements: seq<Placement>, p: Placement, flights: seq<Flight>, env: Env, n: nat)
    requires n < |placements| && Served(added, placements, flights, env, n)
    ensures Served(added + more, placements + [p], flights, env, n)
  {
    forall placement, k | HourBooked(added, placement, k) ensures HourBooked(added + more, placement, k) {
      var i :| 0 <= i < |added| && added[i].placement == placement && added[i].slot == k;
      assert (added + more)[i] == added[i];
    }
  }

  /** What the last placement adds. */
  lemma LastIsServed(b: Books, b1: Books, b2: Books, id: string, placements: seq<Placement>, flights: seq<Flight>, env: Env)
    requires placements != [] && placements[|placements| - 1].surface.Some? && SameCapacity(b.slots, b1.slots, env)
    requires Booked(b1, b2, id, placements[|placements| - 1], flights, env)
    ensures var added := b2.rows[|b1.rows|..];
            && (forall i :: 0 <= i < |added| ==> AskedBy(added[i], b.slots, id, placements, flights, env, |placements| - 1))
            && Served(added, placements, flights, env, |placements| - 1)
  {
    var n, m, added := |placements| - 1, FirstDated(flights), b2.rows[|b1.rows|..];
    FirstDatedIsFirst(flights);
    if m < |flights| {
      var ask := Wish(placements[n], flights[m], env);
      forall i | 0 <= i < |added| ensures AskedBy(added[i], b.slots, id, placements, flights, env, n) {
        assert Holds(added[i], b1.slots, id, placements[n].id, ask, env.until);
        SameCapacityAsks(b.slots, b1.slots, added[i].slot, ask, env);
      }
      forall k | InRange(ask, k) ensures HourBooked(added, placements[n].id, k) {
        var i :| 0 <= i < |added| && added[i].slot == k;
        assert Holds(added[i], b1.slots, id, placements[n].id, ask, env.until);
      }
    }
  }

  lemma ServedByRest(added: seq<Booking>, more: seq<Booking>, placements: seq<Placement>, flights: seq<Flight>, env: Env, n: nat)
    requires n < |placements| && Served(more, placements, flights, env, n)
    ensures Served(added + more, placements, flights, env, n)
  {
    forall placement, k | HourBooked(more, placement, k) ensures HourBooked(added + more, placement, k) {
      var i :| 0 <= i < |more| && more[i].placement == placement && more[i].slot == k;
      assert (added + more)[|added| + i] == more[i];
    }
  }

  lemma AllAskedFor(sofar: seq<Booking>, more: seq<Booking>, slots: SlotTable, id: string, front: seq<Placement>, p: Placement, flights: seq<Flight>, env: Env)
    requires forall i :: 0 <= i < |sofar| ==> AskedFor(sofar[i], slots, id, front, flights, env)
    requires forall i :: 0 <= i < |more| ==> AskedBy(more[i], slots, id, front + [p], flights, env, |front|)
    ensures forall i :: 0 <= i < |sofar + more| ==> AskedFor((sofar + more)[i], slots, id, front + [p], flights, env)
  {
    forall i | 0 <= i < |sofar| ensures AskedFor(sofar[i], slots, id, front + [p], flights, env) {
      AskedForMore(sofar[i], slots, id, front, p, flights, env);
    }
  }

  lemma AllServed(sofar: seq<Booking>, more: seq<Booking>, front: seq<Placement>, p: Placement, flights: seq<Flight>, env: Env)
    requires forall n :: 0 <= n < |front| ==> Served(sofar, front, flights, env, n)
    requires Served(more, front + [p], flights, env, |front|)
    ensures forall n :: 0 <= n < |front| + 1 ==> Served(sofar + more, front + [p], flights, env, n)
  {
    forall n | 0 <= n < |front| + 1 ensures Served(sofar + more, front + [p], flights, env, n) {
      if n < |front| {
        ServedByMore(sofar, more, front, p, flights, env, n);
      } else {
        ServedByRest(sofar, more, front + [p], flights, env, n);
      }
    }
  }

  lemma BookedNext(b: Books, b1: Books, b2: Books, id: string, placements: seq<Placement>, flights: seq<Flight>, env: Env)
    requires placements != [] && placements[|placements| - 1].surface.Some?
    requires BookedAll(b, b1, id, placements[..|placements| - 1], flights, env) && Booked(b1, b2, id, placements[|placements| - 1], flights, env)
    ensures BookedAll(b, b2, id, placements, flights, env)
  {
    var front, p := placements[..|placements| - 1], placements[|placements| - 1];
    var sofar, more := b1.rows[|b.rows|..], b2.rows[|b1.rows|..];
    assert front + [p] == placements;
    LastIsServed(b, b1, b2, id, placements, flights, env);
    AllAskedFor(sofar, more, b.slots, id, front, p, flights, env);
    AllServed(sofar, more, front, p, flights, env);
    assert b2.rows == b1.rows + more && b2.rows[|b.rows|..] == sofar + more;
  }

  lemma BookedSame(b: Books, b1: Books, id: string, placements: seq<Placement>, flights: seq<Flight>, env: Env)
    requires placements != [] && placements[|placements| - 1].surface.None?
    requires BookedAll(b, b1, id, placements[..|placements| - 1], flights, env)
    ensures BookedAll(b, b1, id, placements, flights, env)
  {
    var front, p, added := placements[..|placements| - 1], placements[|placements| - 1], b1.rows[|b.rows|..];
    assert front + [p] == placements && added + [] == added;
    forall i | 0 <= i < |added| ensures AskedFor(added[i], b.slots, id, placements, flights, env) {
      AskedForMore(added[i], b.slots, id, front, p, flights, env);
    }
    forall n | 0 <= n < |placements| ensures Served(added, placements, flights, env, n) {
      if n < |front| {
        ServedByMore(added, [], front, p, flights, env, n);
      }
    }
  }

  /** No booking so far is of a placement still to come. */
  lemma NoRowsYet(b: Books, b1: Books, id: string, owner: string -> string, placements: seq<Placement>, p: Placement, flights: seq<Flight>, env: Env)
    requires Requesting(b, b, id, owner) && owner(p.id) == id && BookedAll(b, b1, id, placements, flights, env)
    requires DistinctPlacements(placements + [p])
    ensures !HasRows(b1.rows, p.id)
  {
    var added := b1.rows[|b.rows|..];
    forall i | 0 <= i < |b1.rows| ensures b1.rows[i].placement != p.id {
      if i < |b.rows| {
        assert b1.rows[i] == b1.rows[..|b.rows|][i] == b.rows[i];
      } else {
        assert b1.rows[i] == added[i - |b.rows|];
        assert AskedFor(added[i - |b.rows|], b.slots, id, placements, flights, env);
        var n :| AskedBy(added[i - |b.rows|], b.slots, id, placements, flights, env, n);
        assert (placements + [p])[n] == placements[n] && (placements + [p])[|placements|] == p;
      }
    }
  }

  lemma {:induction false} PlacementsAreBooked(b: Books, id: string, owner: string -> string, placements: seq<Placement>, flights: seq<Flight>, env: Env)
    requires Requesting(b, b, id, owner) && DistinctPlacements(placements)
    requires forall i :: 0 <= i < |placements| ==> owner(placements[i].id) == id
    requires HoldPlacements(b, id, placements, flights, env).Some?
    ensures BookedAll(b, HoldPlacements(b, id, placements, flights, env).value, id, placements, flights, env)
  {
    if placements == [] {
      assert b.rows[..|b.rows|] == b.rows;
    } else {
      var front, p := placements[..|placements| - 1], placements[|placements| - 1];
      PlacementsAreBooked(b, id, owner, front, flights, env);
      HoldPlacementsRequesting(b, b, id, owner, front, flights, env);
      var b1 := HoldPlacements(b, id, front, flights, env).value;
      if p.surface.None? {
        BookedSame(b, b1, id, placements, flights, env);
      } else {
        assert front + [p] == placements;
        NoRowsYet(b, b1, id, owner, front, p, flights, env);
        PlacementIsBooked(b, b1, id, owner, p, flights, env);
        BookedNext(b, b1, HoldFlights(b1, id, p, flights, env).value, id, placements, flights, env);
      }
    }
  }

  lemma SoundRequestBooks(w: World, owner: string -> string, id: string, form: Form, env: Env, b: Books)
    requires Sound(w, owner) && id in w.campaigns && w.campaigns[id].status == Draft && DistinctPlacements(form.placements)
    requires forall i :: 0 <= i < |form.placements| ==> owner(form.placements[i].id) == id
    requires HoldPlacements(w.books, id, form.placements, form.flights, env) == Some(b) && Requesting(w.books, w.books, id, owner)
    ensures BookedAll(w.books, b, id, form.placements, form.flights, env)
  {
    PlacementsAreBooked(w.books, id, owner, form.placements, form.flights, env);
  }

  /** In every run from the empty system: an approval request that goes through books, for every placement with a
      surface, each hour of its first dated flight, for its share of voice of that hour, and nothing else; the
      bookings that were there stay. */
  lemma RequestBooks(ops: seq<Op>, w: World, owner: string -> string, id: string, form: Form, env: Env)
    requires w == Run(EMPTY, ops) && forall i :: 0 <= i < |ops| ==> OwnsForm(ops[i], owner)
    requires OwnsForm(RequestApproval(id, form, env), owner) && DistinctPlacements(form.placements)
    requires Requested(w, id, form, env).1 == Moved
    ensures BookedAll(w.books, Requested(w, id, form, env).0.books, id, form.placements, form.flights, env)
  {
    RunKeepsSound(EMPTY, ops, owner);
    RequestBooksFrom(w, owner, id, form, env);
  }

  lemma RequestBooksFrom(w: World, owner: string -> string, id: string, form: Form, env: Env)
    requires Sound(w, owner) && OwnsForm(RequestApproval(id, form, env), owner) && DistinctPlacements(form.placements)
    requires Requested(w, id, form, env).1 == Moved
    ensures BookedAll(w.books, Requested(w, id, form, env).0.books, id, form.placements, form.flights, env)
  {
    MovedHolds(w, id, form, env);
    RequestStarts(w, id, owner);
    DraftHoldsNothing(w, id, owner);
    SoundRequestBooks(w, owner, id, form, env, Requested(w, id, form, env).0.books);
  }

  lemma MovedHolds(w: World, id: string, form: Form, env: Env)
    requires Requested(w, id, form, env).1 == Moved
    ensures HoldPlacements(Updated(w.books, Release(id)), id, form.placements, form.flights, env) == Some(Requested(w, id, form, env).0.books)
    ensures id in w.campaigns && w.campaigns[id].status == Draft
  {
  }

  lemma DraftHoldsNothing(w: World, id: string, owner: string -> string)
    requires Sound(w, owner) && id in w.campaigns && w.campaigns[id].status == Draft
    ensures Updated(w.books, Release(id)) == w.books
  {
    assert Release(id).Rewrite(w.books.rows) == w.books.rows;
    SettleNothing(w.books.slots, w.books.rows);
  }
}
