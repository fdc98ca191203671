/** The inventory tables and the repository functions that update them row by row. */
module InventoryLedger {
  import opened Common
  import opened Slots
  import opened InventoryBooks

  datatype Availability = Availability(allAvailable: bool, totalRequested: nat, totalAvailable: nat, conflicts: seq<SlotKey>)

  function AskedUnits(slots: SlotTable, keys: seq<SlotKey>, ask: Ask): nat
    requires !ask.Malformed()
  {
    if keys == [] then 0
    else AskedUnits(slots, keys[..|keys| - 1], ask) + ask.Requested(SlotOr(slots, keys[|keys| - 1], ask.defaultTotal))
  }

  function FreeUnits(slots: SlotTable, keys: seq<SlotKey>, total: nat): nat {
    if keys == [] then 0
    else FreeUnits(slots, keys[..|keys| - 1], total) + SlotOr(slots, keys[|keys| - 1], total).AvailableCapacity()
  }

  /** The hours of a request that do not fit, in order. */
  function ShortHours(slots: SlotTable, keys: seq<SlotKey>, ask: Ask): seq<SlotKey>
    requires !ask.Malformed()
  {
    if keys == [] then []
    else
      var k := keys[|keys| - 1];
      ShortHours(slots, keys[..|keys| - 1], ask) + if HourFits(slots, k, ask) then [] else [k]
  }

  lemma {:induction false} ShortHoursExact(slots: SlotTable, keys: seq<SlotKey>, ask: Ask, k: SlotKey)
    requires !ask.Malformed()
    ensures k in ShortHours(slots, keys, ask) <==> k in keys && !HourFits(slots, k, ask)
  {
    if keys != [] {
      ShortHoursExact(slots, keys[..|keys| - 1], ask, k);
      assert keys == keys[..|keys| - 1] + [keys[|keys| - 1]];
    }
  }

  lemma NoShortHours(slots: SlotTable, ask: Ask)
    requires !ask.Malformed()
    ensures ShortHours(slots, ask.Keys(), ask) == [] <==> AllFit(slots, ask)
  {
    var short := ShortHours(slots, ask.Keys(), ask);
    forall k ensures k in short <==> k in ask.Keys() && !HourFits(slots, k, ask) {
      ShortHoursExact(slots, ask.Keys(), ask, k);
    }
    if short != [] {
      assert short[0] in short;
    }
  }

  /** The loop's step: the next hour's slot is the one the table held at the start, or the default one. */
  lemma OneMoreHour(start: SlotTable, keys: seq<SlotKey>, n: nat, ask: Ask)
    requires n < |keys| && !ask.Malformed()
    ensures var s, slots := SlotOr(start, keys[n], ask.defaultTotal), WithHours(start, keys[..n], ask.defaultTotal);
            && SlotOr(slots, keys[n], ask.defaultTotal) == s
            && WithHours(start, keys[..n + 1], ask.defaultTotal) == slots[keys[n] := s]
            && AskedUnits(start, keys[..n + 1], ask) == AskedUnits(start, keys[..n], ask) + ask.Requested(s)
            && FreeUnits(start, keys[..n + 1], ask.defaultTotal) == FreeUnits(start, keys[..n], ask.defaultTotal) + s.AvailableCapacity()
            && ShortHours(start, keys[..n + 1], ask) ==
               ShortHours(start, keys[..n], ask) + if s.AvailableCapacity() < ask.Requested(s) then [keys[n]] else []
  {
    assert keys[..n + 1][..n] == keys[..n];
    WithHoursOnlyCreates(start, keys[..n], ask.defaultTotal);
  }

  /** If every hour fits, no more is asked for in all than is free in all. */
  lemma {:induction false} FittingDemand(slots: SlotTable, keys: seq<SlotKey>, ask: Ask)
    requires !ask.Malformed() && forall k :: k in keys ==> HourFits(slots, k, ask)
    ensures AskedUnits(slots, keys, ask) <= FreeUnits(slots, keys, ask.defaultTotal)
  {
    if keys != [] {
      var front, k := keys[..|keys| - 1], keys[|keys| - 1];
      assert k in keys && forall j :: j in front ==> j in keys;
      FittingDemand(slots, front, ask);
    }
  }

  /** More is asked for, in percent of what is free, than there is. */
  predicate OverDemand(slots: SlotTable, ask: Ask)
    requires !ask.Malformed()
  {
    ask.sov.Some? && AskedUnits(slots, ask.Keys(), ask) > Max(FreeUnits(slots, ask.Keys(), ask.defaultTotal), 1)
  }

  /** One blocking conflict per hour that is short. */
  method AddOverbooked(ruled: seq<Conflict>, short: seq<SlotKey>) returns (blocking: seq<Conflict>)
    ensures blocking == [] <==> ruled == [] && short == []
    ensures forall c :: c in blocking <==> c in ruled || (c.Overbooked? && c.slot in short)
  {
    blocking := ruled;
    var n := 0;
    while n < |short|
      invariant 0 <= n <= |short|
      invariant blocking == [] <==> ruled == [] && n == 0
      invariant forall c :: c in blocking <==> c in ruled || (c.Overbooked? && c.slot in short[..n])
    {
      assert short[..n + 1] == short[..n] + [short[n]];
      blocking := blocking + [Overbooked(short[n])];
      n := n + 1;
    }
    assert short[..n] == short;
  }

  class Inventory {
    var slots: SlotTable
    var rows: seq<Booking>
    const dir: Directory

    constructor (dir: Directory)
      ensures this.dir == dir && Books() == InventoryBooks.Books(map[], [])
      ensures Consistent(Books()) && WithinCapacity(slots)
    {
      this.dir := dir;
      slots, rows := map[], [];
    }

    function Books(): Books
      reads this
    {
      InventoryBooks.Books(slots, rows)
    }

    /** get_or_create_inventory_slot */
    method GetOrCreateSlot(k: SlotKey, total: nat) returns (s: Slot)
      modifies this`slots
      ensures s == SlotOr(old(slots), k, total)
      ensures slots == old(slots)[k := s]
    {
      if k in slots {
        s := slots[k];
        assert slots == slots[k := s];
      } else {
        s := NewSlot(total);
        slots := slots[k := s];
      }
    }

    /** Expand the range into hours, create the missing slots, compare each with the request. */
    method ComputeAvailability(ask: Ask) returns (r: Result<Availability, ReserveError>)
      modifies this`slots
      ensures r.Err? <==> ask.Malformed() || ask.Keys() == []
      ensures r.Err? ==> slots == old(slots)
      ensures r.Ok? ==> slots == WithHours(old(slots), ask.Keys(), ask.defaultTotal)
      ensures r.Ok? ==> (r.value.allAvailable <==> AllFit(old(slots), ask))
      ensures r.Ok? ==> r.value.totalRequested == AskedUnits(old(slots), ask.Keys(), ask)
      ensures r.Ok? ==> r.value.totalAvailable == FreeUnits(old(slots), ask.Keys(), ask.defaultTotal)
      ensures r.Ok? ==> r.value.conflicts == ShortHours(old(slots), ask.Keys(), ask)
    {
      if ask.Malformed() {
        return Err(BadRequest);
      }
      var keys := ExpandHours(ask.surface, ask.startsAt, ask.endsAt);
      if keys == [] {
        return Err(BadRequest);
      }
      var allAvailable, asked: nat, free: nat, conflicts := true, 0, 0, [];
      var n := 0;
      ghost var start := slots;
      while n < |keys|
        invariant 0 <= n <= |keys|
        invariant slots == WithHours(start, keys[..n], ask.defaultTotal)
        invariant allAvailable <==> conflicts == []
        invariant asked == AskedUnits(start, keys[..n], ask)
        invariant free == FreeUnits(start, keys[..n], ask.defaultTotal)
        invariant conflicts == ShortHours(start, keys[..n], ask)
      {
        OneMoreHour(start, keys, n, ask);
        var s := GetOrCreateSlot(keys[n], ask.defaultTotal);
        var requested := ask.Requested(s);
        var available := s.AvailableCapacity();
        if available < requested {
          allAvailable := false;
          conflicts := conflicts + [keys[n]];
        }
        asked, free := asked + requested, free + available;
        n := n + 1;
      }
      assert keys[..n] == keys;
      NoShortHours(start, ask);
      return Ok(Availability(allAvailable, asked, free, conflicts));
    }

    /** The conflicts that the rules raise, by position. */
    method RuleConflicts(ask: Ask, now: int) returns (blocking: seq<Conflict>)
      ensures forall c :: c in blocking <==>
                            && c.RuleConflict? && c.rule < |dir.rules|
                            && dir.rules[c.rule].Applies(ask.surface, now) && dir.rules[c.rule].Forbids(ask.sov)
      ensures blocking != [] <==> RuleForbids(dir, ask, now)
    {
      blocking := [];
      var n := 0;
      while n < |dir.rules|
        invariant 0 <= n <= |dir.rules|
        invariant forall c :: c in blocking <==>
                                && c.RuleConflict? && c.rule < n
                                && dir.rules[c.rule].Applies(ask.surface, now) && dir.rules[c.rule].Forbids(ask.sov)
      {
        var rule := dir.rules[n];
        if rule.Applies(ask.surface, now) && rule.Forbids(ask.sov) {
          blocking := blocking + [RuleConflict(n)];
        }
        n := n + 1;
      }
      if blocking != [] {
        assert blocking[0] in blocking;
      }
      if RuleForbids(dir, ask, now) {
        var r :| 0 <= r < |dir.rules| && dir.rules[r].Applies(ask.surface, now) && dir.rules[r].Forbids(ask.sov);
        assert RuleConflict(r) in blocking;
      }
    }

    /** The blocking conflicts of a request, found in the order surface, rules, capacity, and the warning of a
        share of voice that exceeds what is free. The warning never comes without a blocking conflict. */
    method DetectConflicts(ask: Ask, now: int) returns (blocking: seq<Conflict>, warned: bool)
      modifies this`slots
      ensures forall c :: c in blocking <==> IsConflict(dir, old(slots), ask, now, c)
      ensures blocking != [] <==> HasConflict(dir, old(slots), ask, now)
      ensures warned <==> SurfaceUsable(dir, ask.surface) && !ask.Malformed() && ask.Keys() != [] && OverDemand(old(slots), ask)
      ensures warned ==> blocking != []
      ensures slots == if SurfaceUsable(dir, ask.surface) && !ask.Malformed()
                       then WithHours(old(slots), ask.Keys(), ask.defaultTotal) else old(slots)
    {
      if ask.surface !in dir.surfaces || !dir.surfaces[ask.surface].active {
        return [SurfaceInactive], false;
      }
      ghost var start := slots;
      var ruled := RuleConflicts(ask, now);
      var avail := ComputeAvailability(ask);
      match avail
      case Err(_) =>
        blocking, warned := ruled + [BadRange], false;
      case Ok(a) =>
        forall k ensures k in a.conflicts <==> k in ask.Keys() && !HourFits(start, k, ask) {
          ShortHoursExact(start, ask.Keys(), ask, k);
        }
        NoShortHours(start, ask);
        blocking := AddOverbooked(ruled, a.conflicts);
        warned := ask.sov.Some? && a.totalRequested > Max(a.totalAvailable, 1);
        if a.allAvailable {
          FittingDemand(start, ask.Keys(), ask);
        }
    }

    /** Reserve a surface for a placement: refuse on conflicts, reuse or reactivate the placement's
        bookings when it has any, otherwise hold every hour of the range. */
    method Reserve(campaign: string, placement: string, ask: Ask, now: int, until: int)
      returns (r: Result<Reservation, ReserveError>)
      requires Consistent(Books())
      modifies this`slots, this`rows
      ensures (Books(), r) == ReserveOutcome(old(Books()), dir, now, campaign, placement, ask, until)
    {
      if ask.Malformed() {
        return Err(BadRequest);
      }
      var blocking, _ := DetectConflicts(ask, now);
      if blocking != [] {
        return Err(BlockedRequest);
      }
      WithHoursOnlyCreates(old(slots), ask.Keys(), ask.defaultTotal);
      CreatedSlotsAreConserved(old(slots), slots, rows, ask.defaultTotal);
      var existing := Select(OfPlacement(placement));
      if existing != [] {
        assert HasRows(rows, placement) by { assert existing[0] < |rows|; }
        var reused := ReactivatePlacement(existing, placement, until);
        r := Ok(Reservation(0, reused));
      } else {
        FitIgnoresCreatedSlots(old(slots), slots, ask);
        var created := HoldHours(campaign, placement, ask, until);
        r := Ok(Reservation(created, 0));
      }
    }

    /** Between two rows of an update that began with the books `from`. */
    ghost predicate InStep(from: Books)
      reads this
    {
      && |rows| == |from.rows| && slots == Settle(from.slots, from.rows, rows)
      && (forall i :: 0 <= i < |rows| ==> rows[i].slot in from.slots)
    }

    /** Store one booking row and its slot. */
    method WriteRow(i: nat, b: Booking, slot: Slot, ghost from: Books)
      requires InStep(from) && i < |rows| && rows[i] == from.rows[i] != b && b.slot == rows[i].slot
      requires slot == Adjusted(slots[b.slot], rows[i], b)
      modifies this`slots, this`rows
      ensures InStep(from) && rows == old(rows)[i := b]
    {
      SettleRow(from.slots, from.rows, rows, i, b);
      rows := rows[i := b];
      slots := slots[b.slot := slot];
    }

    /** Move one reserved booking's units from the reserved to the booked counter. */
    method CommitRow(i: nat, ghost from: Books)
      requires InStep(from) && i < |rows| && rows[i] == from.rows[i] && rows[i].status == Reserved
      modifies this`slots, this`rows
      ensures InStep(from) && rows == old(rows)[i := old(rows)[i].(status := Committed)]
    {
      HeldIsCounted(from.slots, from.rows, rows, i);
      var b := rows[i];
      var slot := slots[b.slot];
      slot := slot.(reserved := Max(0, slot.reserved - b.units), booked := slot.booked + b.units);
      WriteRow(i, b.(status := Committed), slot.Stamped(), from);
    }

    /** Give one active booking's units back to its slot. */
    method ReleaseRow(i: nat, ghost from: Books)
      requires InStep(from) && i < |rows| && rows[i] == from.rows[i] && rows[i].status in {Reserved, Committed}
      modifies this`slots, this`rows
      ensures InStep(from) && rows == old(rows)[i := old(rows)[i].(status := Released)]
    {
      HeldIsCounted(from.slots, from.rows, rows, i);
      var b := rows[i];
      var slot := slots[b.slot];
      if b.status == Reserved {
        slot := slot.(reserved := Max(0, slot.reserved - b.units));
      } else if b.status == Committed {
        slot := slot.(booked := Max(0, slot.booked - b.units));
      }
      WriteRow(i, b.(status := Released), slot.Stamped(), from);
    }

    /** Give one overdue reservation's units back to its slot. */
    method ExpireRow(i: nat, ghost from: Books)
      requires InStep(from) && i < |rows| && rows[i] == from.rows[i] && rows[i].status == Reserved
      modifies this`slots, this`rows
      ensures InStep(from) && rows == old(rows)[i := old(rows)[i].(status := Expired)]
    {
      HeldIsCounted(from.slots, from.rows, rows, i);
      var b := rows[i];
      var slot := slots[b.slot];
      slot := slot.(reserved := Max(0, slot.reserved - b.units));
      WriteRow(i, b.(status := Expired), slot.Stamped(), from);
    }

    /** Leave an active booking alone; take an inactive one's units from its slot again. */
    method ReactivateRow(i: nat, until: int, ghost from: Books)
      requires InStep(from) && i < |rows| && rows[i] == from.rows[i]
      modifies this`slots, this`rows
      ensures InStep(from)
      ensures rows == old(rows)[i := if old(rows)[i].status in {Released, Expired}
                                     then old(rows)[i].(status := Reserved, reservedUntil := until) else old(rows)[i]]
    {
      var b := rows[i];
      if b.status != Reserved && b.status != Committed {
        var slot := slots[b.slot];
        slot := slot.(reserved := slot.reserved + b.units);
        WriteRow(i, b.(status := Reserved, reservedUntil := until), slot.Stamped(), from);
      }
    }

    /** The idempotent branch: report active bookings, reactivate released and expired ones. */
    method ReactivatePlacement(existing: seq<nat>, ghost placement: string, until: int) returns (reused: nat)
      requires Conserved(slots, rows) && Found(OfPlacement(placement), existing)
      modifies this`slots, this`rows
      ensures Books() == Updated(old(Books()), Reactivate(placement, until))
      ensures reused == |existing|
    {
      ghost var from, to := Books(), Reactivate(placement, until).Rewrite(rows);
      reused := 0;
      SettleNothing(slots, rows);
      while reused < |existing|
        invariant reused <= |existing| && InStep(from) && Halfway(rows, from.rows, to, existing, reused)
      {
        HalfwayStep(rows, from.rows, to, existing, reused);
        assert existing[reused] in existing;
        ReactivateRow(existing[reused], until, from);
        reused := reused + 1;
      }
      HalfwayDone(rows, from.rows, to, existing);
    }

    /** Phase 1 of a fresh reservation: the units each hour needs. The check repeats the one already
        made for the same slots, so it cannot fail. */
    method NeededUnits(ask: Ask, keys: seq<SlotKey>) returns (needed: seq<nat>)
      requires !ask.Malformed() && forall k :: k in keys ==> k in slots && HourFits(slots, k, ask)
      modifies this`slots
      ensures slots == old(slots) && |needed| == |keys|
      ensures forall i :: 0 <= i < |keys| ==> needed[i] == ask.Requested(slots[keys[i]])
    {
      needed := [];
      while |needed| < |keys|
        invariant |needed| <= |keys| && slots == old(slots)
        invariant forall i :: 0 <= i < |needed| ==> needed[i] == ask.Requested(slots[keys[i]])
      {
        var k := keys[|needed|];
        assert HourFits(old(slots), k, ask);
        var s := GetOrCreateSlot(k, ask.defaultTotal);
        var requested := ask.Requested(s);
        assert s.AvailableCapacity() >= requested;
        needed := needed + [requested];
      }
    }

    /** Add one reserved booking and raise its slot's reserved counter. */
    method HoldSlot(b: Booking, ghost from: Books)
      requires b.status == Reserved && b.slot in from.slots && |from.rows| <= |rows|
      requires slots == Settle(from.slots, from.rows, rows)
      modifies this`slots, this`rows
      ensures rows == old(rows) + [b] && slots == Settle(from.slots, from.rows, rows)
    {
      SettleAppend(from.slots, from.rows, slots, rows, b);
      var slot := slots[b.slot];
      rows := rows + [b];
      slots := slots[b.slot := slot.(reserved := slot.reserved + b.units).Stamped()];
    }

    /** Phase 2 of a fresh reservation: store the bookings one by one. */
    method HoldAll(holds: seq<Booking>)
      requires Conserved(slots, rows)
      requires forall i :: 0 <= i < |holds| ==> holds[i].status == Reserved && holds[i].slot in slots
      modifies this`slots, this`rows
      ensures rows == old(rows) + holds && slots == Settle(old(slots), old(rows), rows)
    {
      ghost var from := Books();
      var n := 0;
      SettleNothing(slots, rows);
      while n < |holds|
        invariant 0 <= n <= |holds| && rows == from.rows + holds[..n]
        invariant slots == Settle(from.slots, from.rows, rows)
      {
        assert holds[..n + 1] == holds[..n] + [holds[n]];
        HoldSlot(holds[n], from);
        n := n + 1;
      }
      assert holds[..n] == holds;
    }

    /** The fresh branch: one booking per hour of the range. */
    method HoldHours(campaign: string, placement: string, ask: Ask, until: int) returns (created: nat)
      requires Conserved(slots, rows) && !ask.Malformed()
      requires (forall k :: k in ask.Keys() ==> k in slots) && AllFit(slots, ask)
      modifies this`slots, this`rows
      ensures rows == old(rows) + HoldRows(old(slots), campaign, placement, ask, ask.Keys(), until)
      ensures slots == Settle(old(slots), old(rows), rows)
      ensures created == |ask.Keys()|
    {
      var keys := ExpandHours(ask.surface, ask.startsAt, ask.endsAt);
      assert keys == ask.Keys();
      var needed := NeededUnits(ask, keys);
      var holds := seq(|keys|, i requires 0 <= i < |keys| => Booking(campaign, placement, keys[i], needed[i], Reserved, until));
      assert holds == HoldRows(slots, campaign, placement, ask, keys, until);
      HoldAll(holds);
      created := |holds|;
    }

    /** The positions of exactly the rows that match, each once. */
    ghost predicate Found(q: Query, found: seq<nat>)
      reads this
    {
      && Distinct(found)
      && (forall m :: 0 <= m < |found| ==> found[m] < |rows| && q.Matches(rows[found[m]]))
      && (forall i :: 0 <= i < |rows| && q.Matches(rows[i]) ==> i in found)
    }

    /** The rows a query returns, by position, in no promised order. */
    method Select(q: Query) returns (found: seq<nat>)
      ensures Found(q, found) && |found| == q.Count(rows)
    {
      found := [];
      var i := 0;
      while i < |rows|
        invariant 0 <= i <= |rows|
        invariant Distinct(found)
        invariant forall m :: 0 <= m < |found| ==> found[m] < i && q.Matches(rows[found[m]])
        invariant forall j :: 0 <= j < i && q.Matches(rows[j]) ==> j in found
        invariant |found| == q.Count(rows[..i])
      {
        assert rows[..i + 1][..i] == rows[..i];
        if q.Matches(rows[i]) {
          found := found + [i];
        }
        i := i + 1;
      }
      assert rows[..i] == rows;
    }

    /** Commit every reserved booking of a campaign. */
    method CommitForCampaign(campaign: string) returns (committed: nat)
      requires Conserved(slots, rows)
      modifies this`slots, this`rows
      ensures Books() == Updated(old(Books()), Commit(campaign))
      ensures committed == ForUpdate(Commit(campaign)).Count(old(rows))
    {
      ghost var from, to := Books(), Commit(campaign).Rewrite(rows);
      var found := Select(ForUpdate(Commit(campaign)));
      committed := 0;
      SettleNothing(slots, rows);
      while committed < |found|
        invariant committed <= |found| && InStep(from) && Halfway(rows, from.rows, to, found, committed)
      {
        HalfwayStep(rows, from.rows, to, found, committed);
        CommitRow(found[committed], from);
        committed := committed + 1;
      }
      HalfwayDone(rows, from.rows, to, found);
    }

    /** Release every reserved or committed booking of a campaign. */
    method ReleaseForCampaign(campaign: string) returns (released: nat)
      requires Conserved(slots, rows)
      modifies this`slots, this`rows
      ensures Books() == Updated(old(Books()), Release(campaign))
      ensures released == ForUpdate(Release(campaign)).Count(old(rows))
    {
      ghost var from, to := Books(), Release(campaign).Rewrite(rows);
      var found := Select(ForUpdate(Release(campaign)));
      released := 0;
      SettleNothing(slots, rows);
      while released < |found|
        invariant released <= |found| && InStep(from) && Halfway(rows, from.rows, to, found, released)
      {
        HalfwayStep(rows, from.rows, to, found, released);
        ReleaseRow(found[released], from);
        released := released + 1;
      }
      HalfwayDone(rows, from.rows, to, found);
    }

    /** Expire every reservation past its deadline. */
    method ExpireReservations(now: int) returns (expired: nat)
      requires Conserved(slots, rows)
      modifies this`slots, this`rows
      ensures Books() == Updated(old(Books()), Expire(now))
      ensures expired == ForUpdate(Expire(now)).Count(old(rows))
    {
      ghost var from, to := Books(), Expire(now).Rewrite(rows);
      var found := Select(ForUpdate(Expire(now)));
      expired := 0;
      SettleNothing(slots, rows);
      while expired < |found|
        invariant expired <= |found| && InStep(from) && Halfway(rows, from.rows, to, found, expired)
      {
        HalfwayStep(rows, from.rows, to, found, expired);
        ExpireRow(found[expired], from);
        expired := expired + 1;
      }
      HalfwayDone(rows, from.rows, to, found);
    }
  }
}
