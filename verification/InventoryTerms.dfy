/** Reservations in the terms of the tables: what a request asks of each hour, when it is refused, what it books,
    and what the shares of voice sold on one slot come to. */
module InventoryTerms {
  import opened Common
  import opened Slots
  import opened InventoryBooks
  import opened InventoryRuns

  /** The least number of units that reaches a percentage of a capacity. */
  ghost predicate IsShare(total: nat, percent: int, units: nat) {
    100 * units >= total * percent && forall n: nat :: 100 * n >= total * percent ==> units <= n
  }

  /** The request asks for this many units of a slot of this capacity. */
  ghost predicate Asks(ask: Ask, total: nat, units: nat) {
    match ask.units
    case Some(n) => units == n
    case None => if ask.sov.Some? then IsShare(total, ask.sov.value, units) else units == 0
  }

  /** The hour of the slot lies between the hour in which the request starts and the one in which it ends. */
  predicate InRange(ask: Ask, k: SlotKey) {
    && k.surface == ask.surface && 0 <= k.hour < 24
    && ask.startsAt - ask.startsAt % MICROS_PER_HOUR <= (24 * k.date + k.hour) * MICROS_PER_HOUR < ask.endsAt - ask.endsAt % MICROS_PER_HOUR
  }

  /** The capacity that a percentage is taken of: the slot's, or the default one if that is zero or there is no slot. */
  function CapacityAt(slots: SlotTable, k: SlotKey, ask: Ask): nat {
    if k in slots && slots[k].total != 0 then slots[k].total else ask.defaultTotal
  }

  function FreeAt(slots: SlotTable, k: SlotKey, ask: Ask): int {
    if k in slots then slots[k].total - slots[k].booked - slots[k].reserved - slots[k].internalBlocked else ask.defaultTotal
  }

  predicate EmergencyAt(slots: SlotTable, k: SlotKey) {
    k in slots && slots[k].emergencyBlocked > 0
  }

  /** The hour has too little left, or none because of an emergency, of what the request asks for. */
  ghost predicate TooLittle(slots: SlotTable, k: SlotKey, ask: Ask) {
    exists n: nat :: Asks(ask, CapacityAt(slots, k, ask), n) && n > 0 && (n > FreeAt(slots, k, ask) || EmergencyAt(slots, k))
  }

  /** A rule in force on the surface at this time that speaks against the request. */
  predicate Against(r: Rule, ask: Ask, now: int) {
    && r.active && (r.startsAt.None? || r.startsAt.value <= now) && (r.endsAt.None? || r.endsAt.value >= now)
    && (r.scope == GlobalScope || r.scope == SurfaceScope(ask.surface))
    && (r.kind == Blackout || r.kind == InternalBlock || (r.kind.MaxSov? && ask.sov.Some? && ask.sov.value != 0 && ask.sov.value > r.kind.percent))
  }

  /** A range of time, and units or a percentage but not both. */
  predicate Sensible(ask: Ask) {
    ask.startsAt < ask.endsAt && (ask.units.None? || ask.sov.None?) && (ask.sov.Some? ==> 1 <= ask.sov.value <= 100)
  }

  /// ---------------------------------------------------------------------
  /// When a reservation is refused, and what it books
  /// ---------------------------------------------------------------------

  lemma RequestedIsAsked(ask: Ask, s: Slot)
    requires !ask.Malformed()
    ensures Asks(ask, if s.total == 0 then ask.defaultTotal else s.total, ask.Requested(s))
  {
    var total := if s.total == 0 then ask.defaultTotal else s.total;
    if ask.units.None? && ask.sov.Some? {
      forall n: nat ensures 100 * n >= total * ask.sov.value ==> ask.Requested(s) <= n {
        CeilPercentIsLeast(total, ask.sov.value, n);
      }
      CeilPercentIsLeast(total, ask.sov.value, 0);
    }
  }

  lemma AskedOnce(ask: Ask, total: nat, m: nat, n: nat)
    requires Asks(ask, total, m) && Asks(ask, total, n)
    ensures m == n
  {
  }

  lemma InRangeIsKey(ask: Ask, k: SlotKey)
    ensures k in ask.Keys() <==> InRange(ask, k)
  {
    HourKeysExact(ask.surface, HourOf(ask.startsAt), HourOf(ask.endsAt), k);
    StartOfHour(ask.startsAt);
    StartOfHour(ask.endsAt);
  }

  lemma StartOfHour(t: int)
    ensures t - t % MICROS_PER_HOUR == HourOf(t) * MICROS_PER_HOUR
  {
  }

  lemma FitsExactly(slots: SlotTable, k: SlotKey, ask: Ask)
    requires !ask.Malformed()
    ensures HourFits(slots, k, ask) <==> !TooLittle(slots, k, ask)
  {
    var s, total := SlotOr(slots, k, ask.defaultTotal), CapacityAt(slots, k, ask);
    RequestedIsAsked(ask, s);
    assert Asks(ask, total, ask.Requested(s));
    if TooLittle(slots, k, ask) {
      var n: nat :| Asks(ask, total, n) && n > 0 && (n > FreeAt(slots, k, ask) || EmergencyAt(slots, k));
      AskedOnce(ask, total, n, ask.Requested(s));
    }
  }

  lemma ForbidsExactly(dir: Directory, ask: Ask, now: int)
    requires Sensible(ask)
    ensures RuleForbids(dir, ask, now) <==> exists r :: r in dir.rules && Against(r, ask, now)
  {
    if RuleForbids(dir, ask, now) {
      var i :| 0 <= i < |dir.rules| && dir.rules[i].Applies(ask.surface, now) && dir.rules[i].Forbids(ask.sov);
      assert Against(dir.rules[i], ask, now);
    }
    if r :| r in dir.rules && Against(r, ask, now) {
      var i :| 0 <= i < |dir.rules| && dir.rules[i] == r;
      assert dir.rules[i].Applies(ask.surface, now) && dir.rules[i].Forbids(ask.sov);
    }
  }

  /** What a reservation is blocked by: a surface that is unknown or inactive, a rule, a range without a whole hour,
      or an hour with too little left. */
  ghost predicate Hindered(dir: Directory, slots: SlotTable, ask: Ask, now: int) {
    || ask.surface !in dir.surfaces || !dir.surfaces[ask.surface].active
    || (exists r :: r in dir.rules && Against(r, ask, now))
    || (forall k :: !InRange(ask, k))
    || (exists k :: InRange(ask, k) && TooLittle(slots, k, ask))
  }

  lemma ConflictExactly(dir: Directory, slots: SlotTable, ask: Ask, now: int)
    requires Sensible(ask)
    ensures HasConflict(dir, slots, ask, now) <==> Hindered(dir, slots, ask, now)
  {
    ForbidsExactly(dir, ask, now);
    forall k ensures k in ask.Keys() <==> InRange(ask, k) {
      InRangeIsKey(ask, k);
    }
    forall k ensures HourFits(slots, k, ask) <==> !TooLittle(slots, k, ask) {
      FitsExactly(slots, k, ask);
    }
    if ask.Keys() != [] {
      assert ask.Keys()[0] in ask.Keys();
    }
  }

  /** What a conflict check reports: for an unusable surface just that; otherwise each rule against the request, a range
      that makes no sense or has no whole hour, and each hour with too little left. */
  lemma ReportedExactly(dir: Directory, slots: SlotTable, ask: Ask, now: int, r: nat, k: SlotKey)
    ensures var usable := ask.surface in dir.surfaces && dir.surfaces[ask.surface].active;
            && (IsConflict(dir, slots, ask, now, SurfaceInactive) <==> !usable)
            && (IsConflict(dir, slots, ask, now, RuleConflict(r)) <==> usable && r < |dir.rules| && Against(dir.rules[r], ask, now))
            && (IsConflict(dir, slots, ask, now, BadRange) <==> usable && (!Sensible(ask) || forall h :: !InRange(ask, h)))
            && (IsConflict(dir, slots, ask, now, Overbooked(k)) <==> usable && Sensible(ask) && InRange(ask, k) && TooLittle(slots, k, ask))
  {
    forall h ensures h in ask.Keys() <==> InRange(ask, h) {
      InRangeIsKey(ask, h);
    }
    if ask.Keys() != [] {
      assert ask.Keys()[0] in ask.Keys();
    }
    if Sensible(ask) {
      FitsExactly(slots, k, ask);
    }
  }

  /** A reservation is a bad request exactly when the request makes no sense, and blocked exactly when something
      speaks against it; otherwise it goes through. */
  lemma RefusedExactly(b: Books, dir: Directory, now: int, campaign: string, placement: string, ask: Ask, until: int)
    ensures var r := ReserveOutcome(b, dir, now, campaign, placement, ask, until).1;
            && (r == Err(BadRequest) <==> !Sensible(ask))
            && (r == Err(BlockedRequest) <==> Sensible(ask) && Hindered(dir, b.slots, ask, now))
  {
    if Sensible(ask) {
      ConflictExactly(dir, b.slots, ask, now);
    }
  }

  /** One booking of one hour, for what the request asks of it. */
  ghost predicate Holds(row: Booking, slots: SlotTable, campaign: string, placement: string, ask: Ask, until: int) {
    && row.campaign == campaign && row.placement == placement && row.status == Reserved && row.reservedUntil == until
    && InRange(ask, row.slot) && Asks(ask, CapacityAt(slots, row.slot, ask), row.units)
  }

  /** A slot whose reservation grew by these units. */
  predicate Raised(slots: SlotTable, slots': SlotTable, k: SlotKey, ask: Ask, units: nat) {
    && k in slots'
    && (if k in slots then slots'[k] == slots[k].(reserved := slots[k].reserved + units, status := slots'[k].status)
        else slots'[k] == Slot(ask.defaultTotal, 0, units, 0, 0, slots'[k].status))
  }

  /** For an hour of the range the slot grew by what the request asks for; any other slot is as it was. */
  ghost predicate Grown(slots: SlotTable, slots': SlotTable, k: SlotKey, ask: Ask) {
    if InRange(ask, k) then exists n: nat :: Asks(ask, CapacityAt(slots, k, ask), n) && Raised(slots, slots', k, ask, n)
    else (k in slots' <==> k in slots) && (k in slots ==> slots'[k] == slots[k])
  }

  lemma FreshOutcome(b: Books, dir: Directory, now: int, campaign: string, placement: string, ask: Ask, until: int)
    requires Sensible(ask) && !Hindered(dir, b.slots, ask, now) && !HasRows(b.rows, placement)
    ensures var slots := WithHours(b.slots, ask.Keys(), ask.defaultTotal);
            && OnlyCreated(b.slots, slots, ask.defaultTotal) && (forall k :: k in ask.Keys() ==> k in slots)
            && var rows := b.rows + HoldRows(slots, campaign, placement, ask, ask.Keys(), until);
            ReserveOutcome(b, dir, now, campaign, placement, ask, until) ==
            (Books(Settle(slots, b.rows, rows), rows), Ok(Reservation(|ask.Keys()|, 0)))
  {
    ConflictExactly(dir, b.slots, ask, now);
    WithHoursOnlyCreates(b.slots, ask.Keys(), ask.defaultTotal);
  }

  /** The rows to be added: one for each hour of the range. */
  lemma HoldsEachHour(slots: SlotTable, slots': SlotTable, campaign: string, placement: string, ask: Ask, until: int)
    requires !ask.Malformed() && OnlyCreated(slots, slots', ask.defaultTotal) && forall k :: k in ask.Keys() ==> k in slots'
    ensures var rows := HoldRows(slots', campaign, placement, ask, ask.Keys(), until);
            && (forall i :: 0 <= i < |rows| ==> Holds(rows[i], slots, campaign, placement, ask, until))
            && (forall i, j :: 0 <= i < j < |rows| ==> rows[i].slot != rows[j].slot)
            && forall k :: InRange(ask, k) ==> exists i :: 0 <= i < |rows| && rows[i].slot == k
  {
    var keys := ask.Keys();
    var rows := HoldRows(slots', campaign, placement, ask, keys, until);
    KeysDistinct(ask);
    forall i | 0 <= i < |rows| ensures Holds(rows[i], slots, campaign, placement, ask, until) {
      assert keys[i] in keys && slots'[keys[i]] == SlotOr(slots, keys[i], ask.defaultTotal);
      InRangeIsKey(ask, keys[i]);
      RequestedIsAsked(ask, slots'[keys[i]]);
    }
    forall k | InRange(ask, k) ensures exists i :: 0 <= i < |rows| && rows[i].slot == k {
      InRangeIsKey(ask, k);
      var i :| 0 <= i < |keys| && keys[i] == k;
      assert rows[i].slot == k;
    }
  }

  /** A reservation that goes through for a placement without bookings adds one booking for each hour of the range,
      for exactly what it asks of that hour, and answers how many. */
  lemma BooksEachHour(b: Books, dir: Directory, now: int, campaign: string, placement: string, ask: Ask, until: int)
    requires Sensible(ask) && !Hindered(dir, b.slots, ask, now) && !HasRows(b.rows, placement)
    ensures var (b', r) := ReserveOutcome(b, dir, now, campaign, placement, ask, until);
            && |b.rows| <= |b'.rows| && b'.rows[..|b.rows|] == b.rows && r == Ok(Reservation(|b'.rows| - |b.rows|, 0))
            && var added := b'.rows[|b.rows|..];
               && (forall i :: 0 <= i < |added| ==> Holds(added[i], b.slots, campaign, placement, ask, until))
               && (forall i, j :: 0 <= i < j < |added| ==> added[i].slot != added[j].slot)
               && forall k :: InRange(ask, k) ==> exists i :: 0 <= i < |added| && added[i].slot == k
  {
    FreshOutcome(b, dir, now, campaign, placement, ask, until);
    var slots := WithHours(b.slots, ask.Keys(), ask.defaultTotal);
    HoldsEachHour(b.slots, slots, campaign, placement, ask, until);
    var holds := HoldRows(slots, campaign, placement, ask, ask.Keys(), until);
    assert (b.rows + holds)[|b.rows|..] == holds;
  }

  lemma HeldSlot(b: Books, campaign: string, placement: string, ask: Ask, until: int, k: SlotKey)
    requires Conserved(b.slots, b.rows) && !ask.Malformed() && k in b.slots && forall j :: j in ask.Keys() ==> j in b.slots
    ensures var rows := b.rows + HoldRows(b.slots, campaign, placement, ask, ask.Keys(), until);
            var s := Settle(b.slots, b.rows, rows)[k];
            if k in ask.Keys() then s == b.slots[k].(reserved := b.slots[k].reserved + ask.Requested(b.slots[k]), status := s.status)
            else s == b.slots[k]
  {
    var holds := HoldRows(b.slots, campaign, placement, ask, ask.Keys(), until);
    UnitsOfConcat(b.rows, holds, k, Reserved);
    UnitsOfConcat(b.rows, holds, k, Committed);
    UnitsOfFreshHolds(b, campaign, placement, ask, until, k);
    if k !in ask.Keys() {
      assert !Touched(b.rows, b.rows + holds, k);
    }
  }

  lemma HeldIsGrown(b: Books, slots: SlotTable, campaign: string, placement: string, ask: Ask, until: int, k: SlotKey)
    requires Conserved(slots, b.rows) && !ask.Malformed() && slots == WithHours(b.slots, ask.Keys(), ask.defaultTotal)
    requires OnlyCreated(b.slots, slots, ask.defaultTotal) && forall j :: j in ask.Keys() ==> j in slots
    ensures Grown(b.slots, Settle(slots, b.rows, b.rows + HoldRows(slots, campaign, placement, ask, ask.Keys(), until)), k, ask)
  {
    InRangeIsKey(ask, k);
    if k in slots {
      HeldSlot(Books(slots, b.rows), campaign, placement, ask, until, k);
    }
    if k in ask.Keys() {
      RequestedIsAsked(ask, slots[k]);
      assert Asks(ask, CapacityAt(b.slots, k, ask), ask.Requested(slots[k]));
    } else {
      OthersAreAsBefore(b.slots, ask.Keys(), ask.defaultTotal, k);
    }
  }

  /** It raises the reserved counter of each hour's slot by what it asks for, and changes nothing else of any slot
      but the status. */
  lemma RaisesEachHour(b: Books, dir: Directory, now: int, campaign: string, placement: string, ask: Ask, until: int, k: SlotKey)
    requires Consistent(b) && Sensible(ask) && !Hindered(dir, b.slots, ask, now) && !HasRows(b.rows, placement)
    ensures Grown(b.slots, ReserveOutcome(b, dir, now, campaign, placement, ask, until).0.slots, k, ask)
  {
    FreshOutcome(b, dir, now, campaign, placement, ask, until);
    var slots := WithHours(b.slots, ask.Keys(), ask.defaultTotal);
    CreatedSlotsAreConserved(b.slots, slots, b.rows, ask.defaultTotal);
    HeldIsGrown(b, slots, campaign, placement, ask, until, k);
  }

  lemma {:induction false} OthersAreAsBefore(slots: SlotTable, keys: seq<SlotKey>, total: nat, k: SlotKey)
    requires k !in keys
    ensures k in WithHours(slots, keys, total) <==> k in slots
    ensures k in slots ==> WithHours(slots, keys, total)[k] == slots[k]
  {
    if keys != [] {
      OthersAreAsBefore(slots, keys[..|keys| - 1], total, k);
    }
  }

  /// ---------------------------------------------------------------------
  /// What the other operations do to a booking
  /// ---------------------------------------------------------------------

  /** Committing, releasing and expiring: which bookings change, and to what. A reservation outlives its deadline
      until an expiry comes after it. */
  lemma EachRowAfter(b: Books, i: nat, campaign: string, now: int)
    requires i < |b.rows|
    ensures var r, committed, released, expired := b.rows[i], Step(b, CommitOp(campaign)).rows, Step(b, ReleaseOp(campaign)).rows, Step(b, ExpireOp(now)).rows;
            && |committed| == |released| == |expired| == |b.rows|
            && committed[i] == (if r.campaign == campaign && r.status == Reserved then r.(status := Committed) else r)
            && released[i] == (if r.campaign == campaign && (r.status == Reserved || r.status == Committed) then r.(status := Released) else r)
            && expired[i] == (if r.status == Reserved && r.reservedUntil < now then r.(status := Expired) else r)
  {
  }

  /** Reserving again for a placement with bookings: released and expired ones are reserved anew, whatever the
      request asks for, and the others stay; it answers how many there are. */
  lemma EachRowReused(b: Books, dir: Directory, now: int, campaign: string, placement: string, ask: Ask, until: int, i: nat)
    requires Sensible(ask) && !Hindered(dir, b.slots, ask, now) && i < |b.rows| && HasRows(b.rows, placement)
    ensures var (b', r) := ReserveOutcome(b, dir, now, campaign, placement, ask, until);
            && |b'.rows| == |b.rows| && r == Ok(Reservation(0, |PositionsOf(b.rows, placement)|))
            && b'.rows[i] == if b.rows[i].placement == placement && (b.rows[i].status == Released || b.rows[i].status == Expired)
                             then b.rows[i].(status := Reserved, reservedUntil := until) else b.rows[i]
  {
    ConflictExactly(dir, b.slots, ask, now);
    CountIsPositions(b.rows, placement);
  }

  function PositionsOf(rows: seq<Booking>, placement: string): set<nat> {
    set i | 0 <= i < |rows| && rows[i].placement == placement
  }

  lemma {:induction false} CountIsPositions(rows: seq<Booking>, placement: string)
    ensures OfPlacement(placement).Count(rows) == |PositionsOf(rows, placement)|
  {
    if rows != [] {
      var front, last := rows[..|rows| - 1], |rows| - 1;
      CountIsPositions(front, placement);
      assert PositionsOf(rows, placement) == PositionsOf(front, placement) + if rows[last].placement == placement then {last} else {};
    }
  }

  /** In every run the status of a slot with some booking tells how much of it the active bookings hold. */
  lemma StatusTells(ops: seq<Op>, k: SlotKey)
    requires k in Run(Books(map[], []), ops).slots && Booked(Run(Books(map[], []), ops).rows, k)
    ensures var b := Run(Books(map[], []), ops);
            var s, held := b.slots[k], Units(b.rows, k, Reserved) + Units(b.rows, k, Committed);
            && s.emergencyBlocked == 0 && s.internalBlocked == 0
            && (s.status == SoldOut <==> held >= s.total)
            && (s.status == Limited <==> 0 < held < s.total)
            && (s.status == Available <==> held == 0 < s.total)
  {
    var empty := Books(map[], []);
    StatusIsTrueExactly(ops, k);
    RunConserves(empty, ops);
    NoBlocks(empty, ops);
  }

  ghost predicate Unblocked(slots: SlotTable) {
    forall k :: k in slots ==> slots[k].emergencyBlocked == 0 && slots[k].internalBlocked == 0
  }

  lemma {:induction false} NoBlocks(b: Books, ops: seq<Op>)
    requires Unblocked(b.slots)
    ensures Unblocked(Run(b, ops).slots)
    decreases |ops|
  {
    if ops != [] {
      StepNoBlocks(b, ops[0]);
      NoBlocks(Step(b, ops[0]), ops[1..]);
    }
  }

  lemma StepNoBlocks(b: Books, op: Op)
    requires Unblocked(b.slots)
    ensures Unblocked(Step(b, op).slots)
  {
    if op.ReserveOp? {
      WithHoursOnlyCreates(b.slots, op.ask.Keys(), op.ask.defaultTotal);
      ReserveNoBlocks(b, op.dir, op.now, op.campaign, op.placement, op.ask, op.until);
    }
  }

  lemma ReserveNoBlocks(b: Books, dir: Directory, now: int, campaign: string, placement: string, ask: Ask, until: int)
    requires Unblocked(b.slots) && OnlyCreated(b.slots, WithHours(b.slots, ask.Keys(), ask.defaultTotal), ask.defaultTotal)
    ensures Unblocked(ReserveOutcome(b, dir, now, campaign, placement, ask, until).0.slots)
  {
    assert Unblocked(WithHours(b.slots, ask.Keys(), ask.defaultTotal));
  }
}
