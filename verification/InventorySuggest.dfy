/** Alternatives for a request that does not fit, and the agreement of the suggestion engine with
    the reserve path. */
module InventorySuggest {
  import opened Common
  import opened Slots
  import opened InventoryBooks
  import opened InventoryLedger
  import Terms = InventoryTerms
  import Sorting

  datatype Kind = SameStoreSurface | SameSurfaceTime | LowerSov | LaterTime

  datatype Alternative = Alternative(kind: Kind, ask: Ask, score: int)

  /** The request moved in time. */
  function Shifted(ask: Ask, hours: int): Ask {
    ask.(startsAt := ask.startsAt + hours * MICROS_PER_HOUR, endsAt := ask.endsAt + hours * MICROS_PER_HOUR)
  }

  /** The surface can take the request: every hour fits, or the free units of all hours together do. */
  ghost predicate CanSatisfy(slots: SlotTable, ask: Ask) {
    && !ask.Malformed() && ask.Keys() != []
    && (|| AllFit(slots, ask)
        || (var free := FreeUnits(slots, ask.Keys(), ask.defaultTotal);
            free > 0 && ask.units.Some? && ask.units.value > 0 && free >= ask.units.value))
  }

  /** Another active surface of the same store. */
  predicate Sibling(dir: Directory, surface: string, other: string) {
    && surface in dir.surfaces && other in dir.surfaces && other != surface
    && dir.surfaces[other].active && dir.surfaces[other].store == dir.surfaces[surface].store
  }

  /** What the query for such surfaces returns: distinct ones, in any order, and all of them unless it hits its limit
      of twice the results wanted. */
  ghost predicate Listed(dir: Directory, surface: string, listing: seq<string>, max: nat) {
    && Distinct(listing) && |listing| <= 2 * max
    && (forall other :: other in listing ==> Sibling(dir, surface, other))
    && (|listing| < 2 * max ==> forall other :: Sibling(dir, surface, other) ==> other in listing)
  }

  /// Candidates, in the order they are tried.

  function StoreCandidates(ask: Ask, listing: seq<string>): seq<Alternative> {
    seq(|listing|, i requires 0 <= i < |listing| => Alternative(SameStoreSurface, ask.(surface := listing[i]), 100))
  }

  /** Only the later ones of the offsets +1, +2, -1, -2 hours. */
  function TimeCandidates(ask: Ask): seq<Alternative> {
    [Alternative(SameSurfaceTime, Shifted(ask, 1), 80), Alternative(SameSurfaceTime, Shifted(ask, 2), 80)]
  }

  function LowerCandidates(ask: Ask): seq<Alternative> {
    if ask.units.Some? && ask.units.value > 1
    then [Alternative(LowerSov, ask.(units := Some(ask.units.value / 2), sov := None), 60)]
    else []
  }

  function LaterCandidates(ask: Ask): seq<Alternative> {
    [Alternative(LaterTime, Shifted(ask, 24), 40), Alternative(LaterTime, Shifted(ask, 48), 40), Alternative(LaterTime, Shifted(ask, 72), 40)]
  }

  function Candidates(ask: Ask, listing: seq<string>): seq<Alternative> {
    StoreCandidates(ask, listing) + TimeCandidates(ask) + LowerCandidates(ask) + LaterCandidates(ask)
  }

  /** A candidate is proposed when it has no conflict; a later day is proposed only when, besides,
      the requested hours themselves could be satisfied. */
  ghost predicate Accepted(dir: Directory, slots: SlotTable, ask: Ask, now: int, c: Alternative) {
    && !HasConflict(dir, slots, c.ask, now)
    && (c.kind.LaterTime? ==> CanSatisfy(slots, ask))
  }

  /** The accepted candidates, in order, until there are max of them. */
  ghost function Collected(dir: Directory, slots: SlotTable, ask: Ask, now: int, cands: seq<Alternative>, max: nat): (found: seq<Alternative>)
    ensures |found| <= max
    ensures forall a :: a in found ==> a in cands && Accepted(dir, slots, ask, now, a)
  {
    if cands == [] then []
    else
      var n := |cands| - 1;
      var found := Collected(dir, slots, ask, now, cands[..n], max);
      if |found| < max && Accepted(dir, slots, ask, now, cands[n]) then found + [cands[n]] else found
  }

  /// Sorting by score, best first; equal scores keep their order.

  predicate NoWorse(a: Alternative, b: Alternative) {
    a.score >= b.score
  }

  function SortByScore(alts: seq<Alternative>): seq<Alternative> {
    Sorting.Sort(alts, NoWorse)
  }

  ghost predicate BestFirst(alts: seq<Alternative>) {
    forall i, j :: 0 <= i < j < |alts| ==> alts[i].score >= alts[j].score
  }

  lemma {:induction false} CollectedKeepsOrder(dir: Directory, slots: SlotTable, ask: Ask, now: int, cands: seq<Alternative>, max: nat)
    requires BestFirst(cands)
    ensures BestFirst(Collected(dir, slots, ask, now, cands, max))
  {
    if cands != [] {
      var n := |cands| - 1;
      var found := Collected(dir, slots, ask, now, cands[..n], max);
      CollectedKeepsOrder(dir, slots, ask, now, cands[..n], max);
      forall i | 0 <= i < |found| ensures found[i].score >= cands[n].score {
        assert found[i] in cands[..n];
      }
    }
  }

  lemma CandidatesBestFirst(ask: Ask, listing: seq<string>)
    ensures BestFirst(Candidates(ask, listing))
  {
    var a, b, c, d := StoreCandidates(ask, listing), TimeCandidates(ask), LowerCandidates(ask), LaterCandidates(ask);
    var all := a + b + c + d;
    forall i | 0 <= i < |all|
      ensures all[i].score == if i < |a| then 100 else if i < |a| + |b| then 80 else if i < |a| + |b| + |c| then 60 else 40
    {
    }
  }

  /** Creating slots between the checks does not matter. */
  lemma AcceptedIgnoresCreatedSlots(dir: Directory, slots: SlotTable, slots': SlotTable, ask: Ask, now: int, c: Alternative)
    requires OnlyCreated(slots, slots', ask.defaultTotal) && c.ask.defaultTotal == ask.defaultTotal
    ensures Accepted(dir, slots', ask, now, c) <==> Accepted(dir, slots, ask, now, c)
  {
    ConflictsIgnoreCreatedSlots(dir, slots, slots', c.ask, now);
    SatisfiableIgnoresCreatedSlots(slots, slots', ask);
  }

  lemma {:induction false} FreeUnitsIgnoreCreatedSlots(slots: SlotTable, slots': SlotTable, keys: seq<SlotKey>, total: nat)
    requires OnlyCreated(slots, slots', total)
    ensures FreeUnits(slots', keys, total) == FreeUnits(slots, keys, total)
  {
    if keys != [] {
      FreeUnitsIgnoreCreatedSlots(slots, slots', keys[..|keys| - 1], total);
    }
  }

  lemma SatisfiableIgnoresCreatedSlots(slots: SlotTable, slots': SlotTable, ask: Ask)
    requires OnlyCreated(slots, slots', ask.defaultTotal)
    ensures CanSatisfy(slots', ask) <==> CanSatisfy(slots, ask)
  {
    if !ask.Malformed() {
      FreeUnitsIgnoreCreatedSlots(slots, slots', ask.Keys(), ask.defaultTotal);
      FitIgnoresCreatedSlots(slots, slots', ask);
    }
  }

  /// The engine.

  method Satisfiable(inv: Inventory, ask: Ask) returns (ok: bool)
    modifies inv`slots
    ensures ok <==> CanSatisfy(old(inv.slots), ask)
    ensures OnlyCreated(old(inv.slots), inv.slots, ask.defaultTotal)
  {
    WithHoursOnlyCreates(inv.slots, ask.Keys(), ask.defaultTotal);
    var avail := inv.ComputeAvailability(ask);
    match avail
    case Err(_) => ok := false;
    case Ok(a) =>
      ok := a.allAvailable
            || (a.totalAvailable > 0 && ask.units.Some? && ask.units.value > 0 && a.totalAvailable >= ask.units.value);
  }

  method Conflicting(inv: Inventory, ask: Ask, now: int) returns (found: bool)
    modifies inv`slots
    ensures found <==> HasConflict(inv.dir, old(inv.slots), ask, now)
    ensures OnlyCreated(old(inv.slots), inv.slots, ask.defaultTotal)
  {
    WithHoursOnlyCreates(inv.slots, ask.Keys(), ask.defaultTotal);
    var blocking, _ := inv.DetectConflicts(ask, now);
    found := blocking != [];
  }

  /** Try one candidate with the checks of its kind, in the order the kind makes them. */
  method Try(inv: Inventory, ask: Ask, c: Alternative, now: int) returns (ok: bool)
    requires c.ask.defaultTotal == ask.defaultTotal
    modifies inv`slots
    ensures ok <==> Accepted(inv.dir, old(inv.slots), ask, now, c)
    ensures OnlyCreated(old(inv.slots), inv.slots, ask.defaultTotal)
  {
    ghost var start := inv.slots;
    match c.kind
    case SameStoreSurface =>
      var conflict := Conflicting(inv, c.ask, now);
      SatisfiableIgnoresCreatedSlots(start, inv.slots, c.ask);
      if conflict {
        return false;
      }
      ok := Satisfiable(inv, c.ask);
    case SameSurfaceTime =>
      WithHoursOnlyCreates(inv.slots, c.ask.Keys(), ask.defaultTotal);
      var avail := inv.ComputeAvailability(c.ask);
      ConflictsIgnoreCreatedSlots(inv.dir, start, inv.slots, c.ask, now);
      if avail.Err? || !avail.value.allAvailable {
        return false;
      }
      var conflict := Conflicting(inv, c.ask, now);
      ok := !conflict;
    case LowerSov =>
      var fits := Satisfiable(inv, c.ask);
      ConflictsIgnoreCreatedSlots(inv.dir, start, inv.slots, c.ask, now);
      if !fits {
        return false;
      }
      var conflict := Conflicting(inv, c.ask, now);
      ok := !conflict;
    case LaterTime =>
      // The range checked here is the requested one, not the shifted one.
      var fits := Satisfiable(inv, ask);
      ConflictsIgnoreCreatedSlots(inv.dir, start, inv.slots, c.ask, now);
      if !fits {
        return false;
      }
      var conflict := Conflicting(inv, c.ask, now);
      ok := !conflict;
  }

  /** The candidate loops: stop adding once there are maxResults. */
  method Collect(inv: Inventory, ask: Ask, cands: seq<Alternative>, maxResults: nat, now: int) returns (alts: seq<Alternative>)
    requires forall c :: c in cands ==> c.ask.defaultTotal == ask.defaultTotal
    modifies inv`slots
    ensures alts == Collected(inv.dir, old(inv.slots), ask, now, cands, maxResults)
    ensures OnlyCreated(old(inv.slots), inv.slots, ask.defaultTotal)
  {
    ghost var start := inv.slots;
    alts := [];
    var n := 0;
    while n < |cands|
      invariant 0 <= n <= |cands|
      invariant alts == Collected(inv.dir, start, ask, now, cands[..n], maxResults)
      invariant OnlyCreated(start, inv.slots, ask.defaultTotal)
    {
      assert cands[..n + 1][..n] == cands[..n];
      if |alts| < maxResults {
        assert cands[n] in cands;
        AcceptedIgnoresCreatedSlots(inv.dir, start, inv.slots, ask, now, cands[n]);
        var ok := Try(inv, ask, cands[n], now);
        if ok {
          alts := alts + [cands[n]];
        }
      }
      n := n + 1;
    }
    assert cands[..n] == cands;
  }

  /** The request moved by so many hours. */
  predicate MovedBy(ask: Ask, a: Ask, hours: int) {
    a == ask.(startsAt := ask.startsAt + hours * 3_600_000_000, endsAt := ask.endsAt + hours * 3_600_000_000)
  }

  /** An alternative moves the request to a sibling surface; or keeps it on its surface, one or two hours later, or for
      half its units, or one, two or three days later. The less it changes, the higher it scores. */
  ghost predicate InPlace(dir: Directory, ask: Ask, a: Alternative) {
    match a.kind
    case SameStoreSurface =>
      && a.ask.surface in dir.surfaces && dir.surfaces[a.ask.surface].active && a.ask.surface != ask.surface
      && ask.surface in dir.surfaces && dir.surfaces[a.ask.surface].store == dir.surfaces[ask.surface].store
      && a.ask == ask.(surface := a.ask.surface) && a.score == 100
    case SameSurfaceTime => (MovedBy(ask, a.ask, 1) || MovedBy(ask, a.ask, 2)) && a.score == 80
    case LowerSov =>
      ask.units.Some? && ask.units.value > 1 && a.ask == ask.(units := Some(ask.units.value / 2), sov := None) && a.score == 60
    case LaterTime => (MovedBy(ask, a.ask, 24) || MovedBy(ask, a.ask, 48) || MovedBy(ask, a.ask, 72)) && a.score == 40
  }

  lemma CandidatesInPlace(dir: Directory, ask: Ask, listing: seq<string>, max: nat)
    requires Listed(dir, ask.surface, listing, max)
    ensures forall c :: c in Candidates(ask, listing) ==> InPlace(dir, ask, c)
  {
    forall c | c in Candidates(ask, listing) ensures InPlace(dir, ask, c) {
      if c in StoreCandidates(ask, listing) {
        assert c.ask.surface in listing;
      }
    }
  }

  /** Suggest at most maxResults alternatives, best first. The listing is what the query for other
      active surfaces of the same store returned, in its order. */
  method SuggestAlternatives(inv: Inventory, ask: Ask, listing: seq<string>, maxResults: nat, now: int)
    returns (r: Result<seq<Alternative>, ReserveError>)
    requires ask.surface in inv.dir.surfaces ==> Listed(inv.dir, ask.surface, listing, maxResults)
    modifies inv`slots
    ensures r.Err? <==> ask.units.Some? && ask.sov.Some?
    ensures r.Ok? ==> r.value ==
                      if ask.surface !in inv.dir.surfaces then []
                      else Collected(inv.dir, old(inv.slots), ask, now, Candidates(ask, listing), maxResults)
    ensures r.Ok? ==> |r.value| <= maxResults && BestFirst(r.value)
    ensures r.Ok? ==> forall a :: a in r.value ==> InPlace(inv.dir, ask, a)
    ensures OnlyCreated(old(inv.slots), inv.slots, ask.defaultTotal)
  {
    if ask.units.Some? && ask.sov.Some? {
      return Err(BadRequest);
    }
    if ask.surface !in inv.dir.surfaces {
      return Ok([]);
    }
    var cands := Candidates(ask, listing);
    var alts := Collect(inv, ask, cands, maxResults, now);
    CandidatesBestFirst(ask, listing);
    CandidatesInPlace(inv.dir, ask, listing, maxResults);
    CollectedKeepsOrder(inv.dir, old(inv.slots), ask, now, cands, maxResults);
    Sorting.SortedStays(alts, NoWorse);
    alts := SortByScore(alts);
    return Ok(alts[..Min(|alts|, maxResults)]);
  }

  /// What the caller may rely on.

  /** Every alternative, given back to reserve in the same state for a placement without bookings,
      succeeds and books every hour of its range. */
  lemma SuggestionsAreReservable(b: Books, dir: Directory, ask: Ask, listing: seq<string>, max: nat, now: int,
                                 slots': SlotTable, a: Alternative, campaign: string, placement: string, until: int)
    requires a in Collected(dir, b.slots, ask, now, Candidates(ask, listing), max)
    requires OnlyCreated(b.slots, slots', ask.defaultTotal)
    requires !HasRows(b.rows, placement)
    ensures var (b', r) := ReserveOutcome(Books(slots', b.rows), dir, now, campaign, placement, a.ask, until);
            var keys := a.ask.Keys();
            && keys != [] && r == Ok(Reservation(|keys|, 0))
            && |b'.rows| == |b.rows| + |keys|
            && forall i :: 0 <= i < |keys| ==>
                             var row := b'.rows[|b.rows| + i];
                             row.slot == keys[i] && row.status == Reserved && row.campaign == campaign && row.placement == placement
  {
    assert Accepted(dir, b.slots, ask, now, a);
    assert a.ask.defaultTotal == ask.defaultTotal by {
      assert a in Candidates(ask, listing);
    }
    ConflictsIgnoreCreatedSlots(dir, b.slots, slots', a.ask, now);
  }

  /** The units free in all these hours together. */
  function FreeInAll(slots: SlotTable, keys: seq<SlotKey>, ask: Ask): nat {
    if keys == [] then 0
    else
      var k := keys[|keys| - 1];
      FreeInAll(slots, keys[..|keys| - 1], ask) + if Terms.EmergencyAt(slots, k) then 0 else Max(0, Terms.FreeAt(slots, k, ask))
  }

  lemma {:induction false} FreeUnitsAreFreeInAll(slots: SlotTable, keys: seq<SlotKey>, ask: Ask)
    ensures FreeUnits(slots, keys, ask.defaultTotal) == FreeInAll(slots, keys, ask)
  {
    if keys != [] {
      FreeUnitsAreFreeInAll(slots, keys[..|keys| - 1], ask);
    }
  }

  /** The units asked of all these hours together. */
  ghost predicate AsksInAll(slots: SlotTable, keys: seq<SlotKey>, ask: Ask, units: nat) {
    if keys == [] then units == 0
    else
      var k := keys[|keys| - 1];
      exists n: nat :: n <= units && Terms.Asks(ask, Terms.CapacityAt(slots, k, ask), n) && AsksInAll(slots, keys[..|keys| - 1], ask, units - n)
  }

  lemma {:induction false} AskedUnitsAreAsked(slots: SlotTable, keys: seq<SlotKey>, ask: Ask)
    requires !ask.Malformed()
    ensures AsksInAll(slots, keys, ask, AskedUnits(slots, keys, ask))
  {
    if keys != [] {
      var k := keys[|keys| - 1];
      AskedUnitsAreAsked(slots, keys[..|keys| - 1], ask);
      Terms.RequestedIsAsked(ask, SlotOr(slots, k, ask.defaultTotal));
      assert Terms.Asks(ask, Terms.CapacityAt(slots, k, ask), ask.Requested(SlotOr(slots, k, ask.defaultTotal)));
    }
  }

  lemma {:induction false} AsksInAllOnce(slots: SlotTable, keys: seq<SlotKey>, ask: Ask, m: nat, n: nat)
    requires AsksInAll(slots, keys, ask, m) && AsksInAll(slots, keys, ask, n)
    ensures m == n
  {
    if keys != [] {
      var k, front := keys[|keys| - 1], keys[..|keys| - 1];
      var a: nat :| a <= m && Terms.Asks(ask, Terms.CapacityAt(slots, k, ask), a) && AsksInAll(slots, front, ask, m - a);
      var b: nat :| b <= n && Terms.Asks(ask, Terms.CapacityAt(slots, k, ask), b) && AsksInAll(slots, front, ask, n - b);
      Terms.AskedOnce(ask, Terms.CapacityAt(slots, k, ask), a, b);
      AsksInAllOnce(slots, front, ask, m - a, n - b);
    }
  }

  /** The warning is due exactly for a percentage that asks for more units in all than are free in all, and for more
      than one. */
  lemma WarnedExactly(slots: SlotTable, ask: Ask, units: nat)
    requires !ask.Malformed() && AsksInAll(slots, ask.Keys(), ask, units)
    ensures OverDemand(slots, ask) <==> ask.sov.Some? && units > FreeInAll(slots, ask.Keys(), ask) && units > 1
  {
    AskedUnitsAreAsked(slots, ask.Keys(), ask);
    AsksInAllOnce(slots, ask.Keys(), ask, units, AskedUnits(slots, ask.Keys(), ask));
    FreeUnitsAreFreeInAll(slots, ask.Keys(), ask);
  }

  /** Some hour is asked for, and either each has enough left or all together have as many units as are asked for. */
  ghost predicate CouldBeMet(slots: SlotTable, ask: Ask) {
    && Terms.Sensible(ask) && (exists k :: Terms.InRange(ask, k))
    && (|| (forall k :: Terms.InRange(ask, k) ==> !Terms.TooLittle(slots, k, ask))
        || (ask.units.Some? && 0 < ask.units.value <= FreeInAll(slots, ask.Keys(), ask)))
  }

  lemma CouldBeMetExactly(slots: SlotTable, ask: Ask)
    ensures CanSatisfy(slots, ask) <==> CouldBeMet(slots, ask)
  {
    if Terms.Sensible(ask) {
      FreeUnitsAreFreeInAll(slots, ask.Keys(), ask);
      forall k ensures k in ask.Keys() <==> Terms.InRange(ask, k) {
        Terms.InRangeIsKey(ask, k);
      }
      forall k ensures HourFits(slots, k, ask) <==> !Terms.TooLittle(slots, k, ask) {
        Terms.FitsExactly(slots, k, ask);
      }
      if ask.Keys() != [] {
        assert ask.Keys()[0] in ask.Keys();
      }
    }
  }

  /** An alternative is proposed exactly when it makes sense and nothing speaks against it, and for a later day only
      when, besides, the requested hours could be met. */
  lemma ProposedExactly(dir: Directory, slots: SlotTable, ask: Ask, now: int, c: Alternative)
    ensures Accepted(dir, slots, ask, now, c) <==>
            Terms.Sensible(c.ask) && !Terms.Hindered(dir, slots, c.ask, now) && (c.kind == LaterTime ==> CouldBeMet(slots, ask))
  {
    CouldBeMetExactly(slots, ask);
    if Terms.Sensible(c.ask) {
      Terms.ConflictExactly(dir, slots, c.ask, now);
    }
  }

  /** Some candidate moves the request by so many hours. */
  ghost predicate TriesMoved(cands: seq<Alternative>, ask: Ask, kind: Kind, hours: int) {
    exists c :: c in cands && c.kind == kind && MovedBy(ask, c.ask, hours)
  }

  ghost predicate TriesSurface(cands: seq<Alternative>, ask: Ask, surface: string) {
    exists c :: c in cands && c.kind == SameStoreSurface && c.ask == ask.(surface := surface)
  }

  /** Tried are the siblings returned, the request one and two hours later, for half its units if it asks for more than
      one, and one, two and three days later. */
  lemma TriesAll(ask: Ask, listing: seq<string>)
    ensures var cands := Candidates(ask, listing);
            && (forall s :: s in listing ==> TriesSurface(cands, ask, s))
            && TriesMoved(cands, ask, SameSurfaceTime, 1) && TriesMoved(cands, ask, SameSurfaceTime, 2)
            && (ask.units.Some? && ask.units.value > 1 ==> exists c :: c in cands && c.kind == LowerSov)
            && TriesMoved(cands, ask, LaterTime, 24) && TriesMoved(cands, ask, LaterTime, 48) && TriesMoved(cands, ask, LaterTime, 72)
  {
    var cands := Candidates(ask, listing);
    forall s | s in listing ensures TriesSurface(cands, ask, s) {
      var i :| 0 <= i < |listing| && listing[i] == s;
      assert StoreCandidates(ask, listing)[i] in cands;
    }
    assert TimeCandidates(ask)[0] in cands && TimeCandidates(ask)[1] in cands;
    if ask.units.Some? && ask.units.value > 1 {
      assert LowerCandidates(ask)[0] in cands;
    }
    assert LaterCandidates(ask)[0] in cands && LaterCandidates(ask)[1] in cands && LaterCandidates(ask)[2] in cands;
  }

  lemma {:induction false} NothingCollectedExactly(dir: Directory, slots: SlotTable, ask: Ask, now: int, cands: seq<Alternative>, max: nat)
    ensures Collected(dir, slots, ask, now, cands, max) == [] <==>
            max == 0 || forall c :: c in cands ==> !Accepted(dir, slots, ask, now, c)
  {
    if cands != [] {
      var n := |cands| - 1;
      NothingCollectedExactly(dir, slots, ask, now, cands[..n], max);
      assert cands == cands[..n] + [cands[n]];
    }
  }

  /** If nothing is suggested although something was wanted and the query was not cut short, no other active surface of
      the store fits the request. */
  lemma NoSuggestionMeansNoSibling(dir: Directory, slots: SlotTable, ask: Ask, listing: seq<string>, max: nat, now: int, other: string)
    requires 0 < max && Listed(dir, ask.surface, listing, max) && |listing| < 2 * max && Sibling(dir, ask.surface, other)
    requires Collected(dir, slots, ask, now, Candidates(ask, listing), max) == []
    ensures HasConflict(dir, slots, ask.(surface := other), now)
  {
    NothingCollectedExactly(dir, slots, ask, now, Candidates(ask, listing), max);
    var i :| 0 <= i < |listing| && listing[i] == other;
    var c := StoreCandidates(ask, listing)[i];
    assert c in Candidates(ask, listing);
    assert !Accepted(dir, slots, ask, now, c);
  }

  /** When the requested hours cannot be satisfied, no later day is ever proposed, however free it is. */
  lemma LaterNeedsTheOriginal(dir: Directory, slots: SlotTable, ask: Ask, listing: seq<string>, max: nat, now: int)
    requires !CanSatisfy(slots, ask)
    ensures forall a :: a in Collected(dir, slots, ask, now, Candidates(ask, listing), max) ==> !a.kind.LaterTime?
  {
  }
}
