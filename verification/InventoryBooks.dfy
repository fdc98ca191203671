/** The reservation ledger as a value: slots with cached counters, booking rows, and what each
    operation of the repository does to them. */
module InventoryBooks {
  import opened Common
  import opened Slots

  datatype BookingStatus = Reserved | Committed | Released | Expired

  datatype Booking = Booking(
    campaign: string,
    placement: string,
    slot: SlotKey,
    units: nat,
    status: BookingStatus,
    reservedUntil: int)

  type SlotTable = map<SlotKey, Slot>

  datatype Books = Books(slots: SlotTable, rows: seq<Booking>)

  /// ---------------------------------------------------------------------
  /// What the counters mean
  /// ---------------------------------------------------------------------

  function Held(b: Booking, k: SlotKey, st: BookingStatus): nat {
    if b.slot == k && b.status == st then b.units else 0
  }

  /** Units of the bookings of slot k in status st. */
  function Units(rows: seq<Booking>, k: SlotKey, st: BookingStatus): nat {
    if rows == [] then 0
    else Units(rows[..|rows| - 1], k, st) + Held(rows[|rows| - 1], k, st)
  }

  /** Every booking has its slot, and the cached counters are the sums over the bookings. */
  ghost predicate Conserved(slots: SlotTable, rows: seq<Booking>) {
    && (forall i :: 0 <= i < |rows| ==> rows[i].slot in slots)
    && (forall k :: k in slots ==>
          && slots[k].reserved == Units(rows, k, Reserved)
          && slots[k].booked == Units(rows, k, Committed))
  }

  /** The uniqueness constraint on (placement, slot). */
  ghost predicate UniquePairs(rows: seq<Booking>) {
    forall i, j :: 0 <= i < j < |rows| ==>
                     !(rows[i].placement == rows[j].placement && rows[i].slot == rows[j].slot)
  }

  /** No slot is overbooked. */
  ghost predicate WithinCapacity(slots: SlotTable) {
    forall k :: k in slots ==> slots[k].Taken() <= slots[k].total
  }

  ghost predicate Consistent(b: Books) {
    Conserved(b.slots, b.rows) && UniquePairs(b.rows)
  }

  lemma {:induction false} UnitsOfUpdate(rows: seq<Booking>, i: nat, b: Booking, k: SlotKey, st: BookingStatus)
    requires i < |rows|
    ensures Units(rows[i := b], k, st) == Units(rows, k, st) - Held(rows[i], k, st) + Held(b, k, st)
  {
    var n := |rows| - 1;
    if i == n {
      assert rows[i := b][..n] == rows[..n];
    } else {
      assert rows[i := b][..n] == rows[..n][i := b];
      UnitsOfUpdate(rows[..n], i, b, k, st);
    }
  }

  lemma {:induction false} UnitsOfConcat(a: seq<Booking>, b: seq<Booking>, k: SlotKey, st: BookingStatus)
    ensures Units(a + b, k, st) == Units(a, k, st) + Units(b, k, st)
  {
    if b == [] {
      assert a + b == a;
    } else {
      var n := |b| - 1;
      assert (a + b)[..|a| + n] == a + b[..n];
      UnitsOfConcat(a, b[..n], k, st);
    }
  }

  lemma {:induction false} UnitsAtLeast(rows: seq<Booking>, i: nat, k: SlotKey, st: BookingStatus)
    requires i < |rows|
    ensures Held(rows[i], k, st) <= Units(rows, k, st)
  {
    if i < |rows| - 1 {
      UnitsAtLeast(rows[..|rows| - 1], i, k, st);
    }
  }

  /// ---------------------------------------------------------------------
  /// Settling: the slot table that new rows call for
  /// ---------------------------------------------------------------------

  /** Some booking of slot k was added or rewritten between the two row lists. */
  ghost predicate Touched(before: seq<Booking>, after: seq<Booking>, k: SlotKey)
    requires |before| <= |after|
  {
    exists i :: 0 <= i < |after| && after[i].slot == k && (i < |before| ==> before[i] != after[i])
  }

  /** The slot table once the counters agree with the new rows and the status column of every
      touched slot has been recomputed. */
  ghost function Settle(slots: SlotTable, before: seq<Booking>, after: seq<Booking>): SlotTable
    requires |before| <= |after|
  {
    map k | k in slots :: Settled(slots[k], before, after, k)
  }

  ghost function Settled(s: Slot, before: seq<Booking>, after: seq<Booking>, k: SlotKey): Slot
    requires |before| <= |after|
  {
    var s' := s.(reserved := Units(after, k, Reserved), booked := Units(after, k, Committed));
    if Touched(before, after, k) then s'.Stamped() else s'
  }

  lemma SettleNothing(slots: SlotTable, rows: seq<Booking>)
    requires Conserved(slots, rows)
    ensures Settle(slots, rows, rows) == slots
  {
  }

  lemma TouchedByUpdate(rows0: seq<Booking>, rows: seq<Booking>, i: nat, b: Booking, k: SlotKey)
    requires i < |rows| == |rows0| && rows[i] == rows0[i] && b != rows0[i] && b.slot == rows[i].slot
    ensures Touched(rows0, rows[i := b], k) <==> k == b.slot || Touched(rows0, rows, k)
  {
    var rows' := rows[i := b];
    assert rows'[i] == b;
    if Touched(rows0, rows, k) {
      var j :| 0 <= j < |rows| && rows[j].slot == k && rows0[j] != rows[j];
      assert rows'[j] == rows[j];
    }
    if k != b.slot && Touched(rows0, rows', k) {
      var j :| 0 <= j < |rows'| && rows'[j].slot == k && rows0[j] != rows'[j];
      assert rows[j] == rows'[j];
    }
  }

  /** The slot of a rewritten row, adjusted by the difference. */
  function Adjusted(s: Slot, was: Booking, now: Booking): Slot {
    s.(reserved := s.reserved - Held(was, was.slot, Reserved) + Held(now, was.slot, Reserved),
       booked := s.booked - Held(was, was.slot, Committed) + Held(now, was.slot, Committed)).Stamped()
  }

  lemma SettledByUpdate(s: Slot, rows0: seq<Booking>, rows: seq<Booking>, i: nat, b: Booking, k: SlotKey)
    requires i < |rows| == |rows0| && rows[i] == rows0[i] && b != rows0[i] && b.slot == rows[i].slot
    ensures Settled(s, rows0, rows[i := b], k) ==
            if k == b.slot then Adjusted(Settled(s, rows0, rows, k), rows[i], b) else Settled(s, rows0, rows, k)
  {
    UnitsOfUpdate(rows, i, b, k, Reserved);
    UnitsOfUpdate(rows, i, b, k, Committed);
    TouchedByUpdate(rows0, rows, i, b, k);
  }

  /** A counter is never smaller than one of the bookings it sums, so no subtraction is clamped. */
  lemma HeldIsCounted(slots0: SlotTable, rows0: seq<Booking>, rows: seq<Booking>, i: nat)
    requires i < |rows| == |rows0| && rows[i].slot in slots0
    ensures var slot := Settle(slots0, rows0, rows)[rows[i].slot];
            && (rows[i].status == Reserved ==> rows[i].units <= slot.reserved)
            && (rows[i].status == Committed ==> rows[i].units <= slot.booked)
  {
    UnitsAtLeast(rows, i, rows[i].slot, Reserved);
    UnitsAtLeast(rows, i, rows[i].slot, Committed);
  }

  /** One more row rewritten, and its slot adjusted by the difference. */
  lemma SettleRow(slots0: SlotTable, rows0: seq<Booking>, rows: seq<Booking>, i: nat, b: Booking)
    requires i < |rows| == |rows0| && rows[i] == rows0[i] && b != rows0[i]
    requires b.slot == rows[i].slot && b.slot in slots0
    ensures var slots := Settle(slots0, rows0, rows);
            slots[b.slot := Adjusted(slots[b.slot], rows[i], b)] == Settle(slots0, rows0, rows[i := b])
  {
    forall k | k in slots0
      ensures Settled(slots0[k], rows0, rows[i := b], k) ==
              if k == b.slot then Adjusted(Settled(slots0[k], rows0, rows, k), rows[i], b)
              else Settled(slots0[k], rows0, rows, k)
    {
      SettledByUpdate(slots0[k], rows0, rows, i, b, k);
    }
  }

  lemma TouchedByAppend(rows0: seq<Booking>, rows: seq<Booking>, b: Booking, k: SlotKey)
    requires |rows0| <= |rows|
    ensures Touched(rows0, rows + [b], k) <==> k == b.slot || Touched(rows0, rows, k)
  {
    var rows' := rows + [b];
    assert rows'[|rows|] == b;
    if Touched(rows0, rows, k) {
      var j :| 0 <= j < |rows| && rows[j].slot == k && (j < |rows0| ==> rows0[j] != rows[j]);
      assert rows'[j] == rows[j];
    }
    if k != b.slot && Touched(rows0, rows', k) {
      var j :| 0 <= j < |rows'| && rows'[j].slot == k && (j < |rows0| ==> rows0[j] != rows'[j]);
      assert rows[j] == rows'[j];
    }
  }

  lemma SettledByAppend(s: Slot, rows0: seq<Booking>, rows: seq<Booking>, b: Booking, k: SlotKey)
    requires |rows0| <= |rows| && b.status == Reserved
    ensures var was := Settled(s, rows0, rows, k);
            Settled(s, rows0, rows + [b], k) ==
            if k == b.slot then was.(reserved := was.reserved + b.units).Stamped() else was
  {
    assert (rows + [b])[..|rows|] == rows;
    TouchedByAppend(rows0, rows, b, k);
  }

  /** One more row appended, and its slot raised by its units. */
  lemma SettleAppend(slots0: SlotTable, rows0: seq<Booking>, slots: SlotTable, rows: seq<Booking>, b: Booking)
    requires |rows0| <= |rows| && b.status == Reserved && b.slot in slots0
    requires slots == Settle(slots0, rows0, rows)
    ensures var s := slots[b.slot];
            slots[b.slot := s.(reserved := s.reserved + b.units).Stamped()]
            == Settle(slots0, rows0, rows + [b])
  {
    forall k | k in slots0
      ensures Settled(slots0[k], rows0, rows + [b], k) ==
              if k == b.slot then slots[k].(reserved := slots[k].reserved + b.units).Stamped() else slots[k]
    {
      SettledByAppend(slots0[k], rows0, rows, b, k);
    }
  }

  /// ---------------------------------------------------------------------
  /// Status changes of existing rows
  /// ---------------------------------------------------------------------

  /** The four updates of booking rows: the WHERE clause and the new column values. */
  datatype Change =
    | Commit(campaign: string)
    | Release(campaign: string)
    | Expire(now: int)
    | Reactivate(placement: string, until: int)
  {
    predicate Selects(b: Booking) {
      match this
      case Commit(c) => b.campaign == c && b.status == Reserved
      case Release(c) => b.campaign == c && b.status in {Reserved, Committed}
      case Expire(now) => b.status == Reserved && b.reservedUntil < now
      case Reactivate(p, until) => b.placement == p && b.status in {Released, Expired}
    }

    function Write(b: Booking): Booking {
      match this
      case Commit(c) => b.(status := Committed)
      case Release(c) => b.(status := Released)
      case Expire(now) => b.(status := Expired)
      case Reactivate(p, until) => b.(status := Reserved, reservedUntil := until)
    }

    function Rewrite(rows: seq<Booking>): (rows': seq<Booking>)
    {
      seq(|rows|, i requires 0 <= i < |rows| => if Selects(rows[i]) then Write(rows[i]) else rows[i])
    }
  }

  /** The queries of the repository over booking rows. */
  datatype Query = ForUpdate(ch: Change) | OfPlacement(placement: string)
  {
    predicate Matches(b: Booking) {
      match this
      case ForUpdate(ch) => ch.Selects(b)
      case OfPlacement(p) => b.placement == p
    }

    function Count(rows: seq<Booking>): nat {
      if rows == [] then 0
      else Count(rows[..|rows| - 1]) + (if Matches(rows[|rows| - 1]) then 1 else 0)
    }
  }

  /** The first n of the rows found are as in `to`; everything else is as in `from`. */
  ghost predicate Halfway(rows: seq<Booking>, from: seq<Booking>, to: seq<Booking>, found: seq<nat>, n: nat)
    requires |from| == |to|
  {
    && |rows| == |from|
    && (forall m :: 0 <= m < |found| ==> found[m] < |rows|)
    && (forall m :: 0 <= m < |found| ==> rows[found[m]] == if m < n then to[found[m]] else from[found[m]])
    && (forall i :: 0 <= i < |rows| && i !in found ==> rows[i] == from[i])
  }

  lemma HalfwayStep(rows: seq<Booking>, from: seq<Booking>, to: seq<Booking>, found: seq<nat>, n: nat)
    requires |from| == |to| && Halfway(rows, from, to, found, n) && n < |found|
    requires Distinct(found)
    ensures Halfway(rows[found[n] := to[found[n]]], from, to, found, n + 1)
  {
  }

  lemma HalfwayDone(rows: seq<Booking>, from: seq<Booking>, to: seq<Booking>, found: seq<nat>)
    requires |from| == |to| && Halfway(rows, from, to, found, |found|)
    requires forall i :: 0 <= i < |from| && i !in found ==> to[i] == from[i]
    ensures rows == to
  {
    forall i | 0 <= i < |rows| ensures rows[i] == to[i] {
      if i in found {
        var m :| 0 <= m < |found| && found[m] == i;
      }
    }
  }

  ghost function Updated(b: Books, ch: Change): Books {
    Books(Settle(b.slots, b.rows, ch.Rewrite(b.rows)), ch.Rewrite(b.rows))
  }

  /** A settled table is conserved whenever the rows it was settled to have their slots. */
  lemma UpdateKeepsConsistent(b: Books, ch: Change)
    requires Consistent(b)
    ensures Consistent(Updated(b, ch))
  {
    var rows' := ch.Rewrite(b.rows);
    assert forall i :: 0 <= i < |rows'| ==> rows'[i].slot == b.rows[i].slot && rows'[i].placement == b.rows[i].placement;
  }

  /** Units that a change sets free or takes, per slot. */
  function Moved(rows: seq<Booking>, ch: Change, k: SlotKey): nat {
    if rows == [] then 0
    else
      var b := rows[|rows| - 1];
      Moved(rows[..|rows| - 1], ch, k) + (if ch.Selects(b) && b.slot == k then b.units else 0)
  }

  /** Committing moves units from one counter to the other, releasing and expiring give them back,
      reactivating takes them again. */
  lemma {:induction false} TakenAfterChange(rows: seq<Booking>, ch: Change, k: SlotKey)
    ensures var rows' := ch.Rewrite(rows);
            var before := Units(rows, k, Reserved) + Units(rows, k, Committed);
            var after := Units(rows', k, Reserved) + Units(rows', k, Committed);
            after == match ch
                     case Commit(_) => before
                     case Reactivate(_, _) => before + Moved(rows, ch, k)
                     case _ => before - Moved(rows, ch, k)
  {
    if rows != [] {
      var n := |rows| - 1;
      assert ch.Rewrite(rows)[..n] == ch.Rewrite(rows[..n]);
      TakenAfterChange(rows[..n], ch, k);
    }
  }

  lemma TakenOfUpdated(b: Books, ch: Change, k: SlotKey)
    requires Conserved(b.slots, b.rows) && k in b.slots
    ensures var s, s' := b.slots[k], Updated(b, ch).slots[k];
            && s'.total == s.total
            && s'.Taken() == match ch
                             case Commit(_) => s.Taken()
                             case Reactivate(_, _) => s.Taken() + Moved(b.rows, ch, k)
                             case _ => s.Taken() - Moved(b.rows, ch, k)
  {
    TakenAfterChange(b.rows, ch, k);
  }

  lemma UpdateKeepsCapacity(b: Books, ch: Change)
    requires Consistent(b) && WithinCapacity(b.slots) && !ch.Reactivate?
    ensures WithinCapacity(Updated(b, ch).slots)
  {
    var after := Updated(b, ch).slots;
    forall k | k in after ensures after[k].Taken() <= after[k].total {
      TakenOfUpdated(b, ch, k);
    }
  }

  /// ---------------------------------------------------------------------
  /// Reactivation of a placement's released and expired bookings
  /// ---------------------------------------------------------------------

  lemma {:induction false} MovedIsOneRow(rows: seq<Booking>, p: string, until: int, k: SlotKey, i: nat)
    requires UniquePairs(rows) && i < |rows|
    requires rows[i].slot == k && Reactivate(p, until).Selects(rows[i])
    ensures Moved(rows, Reactivate(p, until), k) == rows[i].units
  {
    var n := |rows| - 1;
    if i == n {
      MovedIsNothing(rows[..n], Reactivate(p, until), k);
    } else {
      assert rows[..n][i] == rows[i];
      MovedIsOneRow(rows[..n], p, until, k, i);
    }
  }

  lemma {:induction false} MovedIsNothing(rows: seq<Booking>, ch: Change, k: SlotKey)
    requires forall i :: 0 <= i < |rows| ==> !(ch.Selects(rows[i]) && rows[i].slot == k)
    ensures Moved(rows, ch, k) == 0
  {
    if rows != [] {
      MovedIsNothing(rows[..|rows| - 1], ch, k);
    }
  }

  /** Every inactive booking of the placement still fits into what its own slot has left. */
  ghost predicate ReactivationFits(b: Books, placement: string)
    requires Conserved(b.slots, b.rows)
  {
    forall i :: 0 <= i < |b.rows| && b.rows[i].placement == placement && b.rows[i].status in {Released, Expired} ==>
                  b.slots[b.rows[i].slot].Taken() + b.rows[i].units <= b.slots[b.rows[i].slot].total
  }

  /** Reactivation takes units without re-reading availability: it stays within capacity exactly
      when each inactive booking fits into its slot. */
  lemma ReactivationCapacity(b: Books, placement: string, until: int)
    requires Consistent(b) && WithinCapacity(b.slots)
    ensures WithinCapacity(Updated(b, Reactivate(placement, until)).slots) <==> ReactivationFits(b, placement)
  {
    var ch := Reactivate(placement, until);
    var after := Updated(b, ch).slots;
    if ReactivationFits(b, placement) {
      forall k | k in after ensures after[k].Taken() <= after[k].total {
        TakenOfUpdated(b, ch, k);
        if i: nat :| i < |b.rows| && ch.Selects(b.rows[i]) && b.rows[i].slot == k {
          MovedIsOneRow(b.rows, placement, until, k, i);
        } else {
          MovedIsNothing(b.rows, ch, k);
        }
      }
    }
    if WithinCapacity(after) {
      forall i | 0 <= i < |b.rows| && ch.Selects(b.rows[i])
        ensures b.slots[b.rows[i].slot].Taken() + b.rows[i].units <= b.slots[b.rows[i].slot].total
      {
        var k := b.rows[i].slot;
        TakenOfUpdated(b, ch, k);
        MovedIsOneRow(b.rows, placement, until, k, i);
        assert k in after;
      }
    }
  }

  /// ---------------------------------------------------------------------
  /// Requests, availability and conflicts
  /// ---------------------------------------------------------------------

  /** A percentage of a capacity, rounded up. */
  function CeilPercent(capacity: nat, percent: int): (n: nat)
    requires 0 <= percent
  {
    assert 0 <= capacity * percent;
    (capacity * percent + 99) / 100
  }

  lemma CeilPercentIsLeast(capacity: nat, percent: nat, n: nat)
    ensures 100 * CeilPercent(capacity, percent) >= capacity * percent
    ensures 100 * n >= capacity * percent ==> CeilPercent(capacity, percent) <= n
  {
  }

  /** A request for a surface over a time range, in units or in per cent of a slot. */
  datatype Ask = Ask(
    surface: string,
    startsAt: int,
    endsAt: int,
    units: Option<nat>,
    sov: Option<int>,
    defaultTotal: nat)
  {
    predicate Malformed() {
      || endsAt <= startsAt
      || (units.Some? && sov.Some?)
      || (sov.Some? && !(0 < sov.value <= 100))
    }

    function Keys(): seq<SlotKey> {
      HourKeys(surface, HourOf(startsAt), HourOf(endsAt))
    }

    /** Units asked of one slot. */
    function Requested(s: Slot): nat
      requires !Malformed()
    {
      match units
      case Some(u) => u
      case None =>
        match sov
        case Some(p) =>
          CeilPercent(if s.total == 0 then defaultTotal else s.total, p)
        case None => 0
    }
  }

  function SlotOr(slots: SlotTable, k: SlotKey, total: nat): Slot {
    if k in slots then slots[k] else NewSlot(total)
  }

  /** The slots of the keys exist; missing ones were created with the default capacity. */
  function WithHours(slots: SlotTable, keys: seq<SlotKey>, total: nat): SlotTable {
    if keys == [] then slots
    else
      var before, k := WithHours(slots, keys[..|keys| - 1], total), keys[|keys| - 1];
      before[k := SlotOr(before, k, total)]
  }

  /** The second table has every slot of the first, and otherwise only slots as they are created. */
  ghost predicate OnlyCreated(slots: SlotTable, slots': SlotTable, total: nat) {
    && slots.Keys <= slots'.Keys
    && forall k :: k in slots' ==> slots'[k] == SlotOr(slots, k, total)
  }

  lemma {:induction false} WithHoursOnlyCreates(slots: SlotTable, keys: seq<SlotKey>, total: nat)
    ensures OnlyCreated(slots, WithHours(slots, keys, total), total)
    ensures forall k :: k in keys ==> k in WithHours(slots, keys, total)
  {
    if keys != [] {
      var n := |keys| - 1;
      WithHoursOnlyCreates(slots, keys[..n], total);
      forall k | k in keys ensures k in WithHours(slots, keys, total) {
        assert k in keys[..n] || k == keys[n];
      }
    }
  }

  lemma KeysDistinct(ask: Ask)
    ensures Distinct(ask.Keys())
  {
    HourKeysDistinct(ask.surface, HourOf(ask.startsAt), HourOf(ask.endsAt));
  }

  predicate HourFits(slots: SlotTable, k: SlotKey, ask: Ask)
    requires !ask.Malformed()
  {
    var s := SlotOr(slots, k, ask.defaultTotal);
    s.AvailableCapacity() >= ask.Requested(s)
  }

  datatype Surface = Surface(store: string, active: bool)

  datatype RuleScope = SurfaceScope(id: string) | GlobalScope | OtherScope

  datatype RuleKind = Blackout | InternalBlock | MaxSov(percent: int) | OtherRule

  datatype Rule = Rule(scope: RuleScope, kind: RuleKind, active: bool, startsAt: Option<int>, endsAt: Option<int>)
  {
    /** Active, inside its time window, and scoped to the surface or to everything. */
    predicate Applies(surface: string, now: int) {
      && active
      && (startsAt.Some? ==> startsAt.value <= now)
      && (endsAt.Some? ==> now <= endsAt.value)
      && (scope.GlobalScope? || scope == SurfaceScope(surface))
    }

    predicate Forbids(sov: Option<int>) {
      match kind
      case Blackout => true
      case InternalBlock => true
      case MaxSov(percent) => sov.Some? && sov.value != 0 && sov.value > percent
      case OtherRule => false
    }
  }

  /** The reference data the checks read. */
  datatype Directory = Directory(surfaces: map<string, Surface>, rules: seq<Rule>)

  datatype Conflict =
    | SurfaceInactive
    | RuleConflict(rule: nat)
    | BadRange
    | Overbooked(slot: SlotKey)

  predicate SurfaceUsable(dir: Directory, surface: string) {
    surface in dir.surfaces && dir.surfaces[surface].active
  }

  /** The blocking conflicts of a request, as a set. */
  ghost predicate IsConflict(dir: Directory, slots: SlotTable, ask: Ask, now: int, c: Conflict) {
    if !SurfaceUsable(dir, ask.surface) then c == SurfaceInactive
    else match c
      case SurfaceInactive => false
      case RuleConflict(r) => r < |dir.rules| && dir.rules[r].Applies(ask.surface, now) && dir.rules[r].Forbids(ask.sov)
      case BadRange => ask.Malformed() || ask.Keys() == []
      case Overbooked(k) => !ask.Malformed() && k in ask.Keys() && !HourFits(slots, k, ask)
  }

  ghost predicate RuleForbids(dir: Directory, ask: Ask, now: int) {
    exists r :: 0 <= r < |dir.rules| && dir.rules[r].Applies(ask.surface, now) && dir.rules[r].Forbids(ask.sov)
  }

  /** Every hour of the request fits its slot. */
  ghost predicate AllFit(slots: SlotTable, ask: Ask)
    requires !ask.Malformed()
  {
    forall k :: k in ask.Keys() ==> HourFits(slots, k, ask)
  }

  /** The request is refused: there is some blocking conflict. */
  ghost predicate HasConflict(dir: Directory, slots: SlotTable, ask: Ask, now: int) {
    || !SurfaceUsable(dir, ask.surface)
    || RuleForbids(dir, ask, now)
    || ask.Malformed()
    || ask.Keys() == []
    || !AllFit(slots, ask)
  }

  /** Creating missing slots never changes the outcome of a conflict check. */
  lemma FitIgnoresCreatedSlots(slots: SlotTable, slots': SlotTable, ask: Ask)
    requires OnlyCreated(slots, slots', ask.defaultTotal) && !ask.Malformed()
    ensures AllFit(slots', ask) <==> AllFit(slots, ask)
  {
    forall k ensures HourFits(slots', k, ask) <==> HourFits(slots, k, ask) {
      assert SlotOr(slots', k, ask.defaultTotal) == SlotOr(slots, k, ask.defaultTotal);
    }
  }

  lemma ConflictsIgnoreCreatedSlots(dir: Directory, slots: SlotTable, slots': SlotTable, ask: Ask, now: int)
    requires OnlyCreated(slots, slots', ask.defaultTotal)
    ensures HasConflict(dir, slots', ask, now) <==> HasConflict(dir, slots, ask, now)
  {
    if !ask.Malformed() {
      FitIgnoresCreatedSlots(slots, slots', ask);
    }
  }

  /// ---------------------------------------------------------------------
  /// Reservation
  /// ---------------------------------------------------------------------

  datatype ReserveError = BadRequest | BlockedRequest

  datatype Reservation = Reservation(created: nat, reused: nat)

  function HoldRows(slots: SlotTable, campaign: string, placement: string, ask: Ask, keys: seq<SlotKey>, until: int): seq<Booking>
    requires !ask.Malformed() && forall k :: k in keys ==> k in slots
  {
    seq(|keys|, i requires 0 <= i < |keys| =>
      Booking(campaign, placement, keys[i], ask.Requested(slots[keys[i]]), Reserved, until))
  }

  predicate HasRows(rows: seq<Booking>, placement: string) {
    exists i :: 0 <= i < |rows| && rows[i].placement == placement
  }

  /** What reserving for a placement leaves behind, and what it answers. */
  ghost function ReserveOutcome(b: Books, dir: Directory, now: int, campaign: string, placement: string, ask: Ask, until: int)
    : (Books, Result<Reservation, ReserveError>)
  {
    if ask.Malformed() then (b, Err(BadRequest))
    else if !SurfaceUsable(dir, ask.surface) then (b, Err(BlockedRequest))
    else
      var b1 := b.(slots := WithHours(b.slots, ask.Keys(), ask.defaultTotal));
      WithHoursOnlyCreates(b.slots, ask.Keys(), ask.defaultTotal);
      if HasConflict(dir, b.slots, ask, now) then (b1, Err(BlockedRequest))
      else if HasRows(b.rows, placement) then
        (Updated(b1, Reactivate(placement, until)), Ok(Reservation(0, OfPlacement(placement).Count(b.rows))))
      else
        var rows := b.rows + HoldRows(b1.slots, campaign, placement, ask, ask.Keys(), until);
        (Books(Settle(b1.slots, b.rows, rows), rows), Ok(Reservation(|ask.Keys()|, 0)))
  }

  /** Untouched hours have no bookings, so a created slot starts with true counters. */
  lemma {:induction false} NoUnitsElsewhere(slots: SlotTable, rows: seq<Booking>, k: SlotKey, st: BookingStatus)
    requires forall i :: 0 <= i < |rows| ==> rows[i].slot in slots
    requires k !in slots
    ensures Units(rows, k, st) == 0
  {
    if rows != [] {
      NoUnitsElsewhere(slots, rows[..|rows| - 1], k, st);
    }
  }

  lemma CreatedSlotsAreConserved(slots: SlotTable, slots': SlotTable, rows: seq<Booking>, total: nat)
    requires Conserved(slots, rows) && OnlyCreated(slots, slots', total)
    ensures Conserved(slots', rows)
    ensures WithinCapacity(slots) ==> WithinCapacity(slots')
  {
    forall k, st | k !in slots ensures Units(rows, k, st) == 0 {
      NoUnitsElsewhere(slots, rows, k, st);
    }
  }

  /** Fresh rows hold exactly what was asked, once per slot. */
  lemma {:induction false} UnitsOfHolds(rows: seq<Booking>, k: SlotKey, st: BookingStatus)
    requires forall i, j :: 0 <= i < j < |rows| ==> rows[i].slot != rows[j].slot
    ensures forall i :: 0 <= i < |rows| && rows[i].slot == k ==> Units(rows, k, st) == Held(rows[i], k, st)
    ensures (forall i :: 0 <= i < |rows| ==> rows[i].slot != k) ==> Units(rows, k, st) == 0
  {
    if rows != [] {
      var n := |rows| - 1;
      UnitsOfHolds(rows[..n], k, st);
      assert forall i :: 0 <= i < n ==> rows[..n][i] == rows[i];
    }
  }

  lemma FreshHoldKeepsConsistent(b: Books, campaign: string, placement: string, ask: Ask, until: int)
    requires Consistent(b) && !ask.Malformed() && !HasRows(b.rows, placement)
    requires forall k :: k in ask.Keys() ==> k in b.slots
    ensures var rows := b.rows + HoldRows(b.slots, campaign, placement, ask, ask.Keys(), until);
            Consistent(Books(Settle(b.slots, b.rows, rows), rows))
  {
    var keys := ask.Keys();
    KeysDistinct(ask);
    var holds := HoldRows(b.slots, campaign, placement, ask, keys, until);
    var rows := b.rows + holds;
    assert forall i :: |b.rows| <= i < |rows| ==> rows[i].slot == keys[i - |b.rows|] && rows[i].placement == placement;
  }

  lemma UnitsOfFreshHolds(b: Books, campaign: string, placement: string, ask: Ask, until: int, k: SlotKey)
    requires !ask.Malformed() && forall k :: k in ask.Keys() ==> k in b.slots
    ensures var holds := HoldRows(b.slots, campaign, placement, ask, ask.Keys(), until);
            && Units(holds, k, Committed) == 0
            && Units(holds, k, Reserved) == if k in ask.Keys() then ask.Requested(b.slots[k]) else 0
  {
    var keys := ask.Keys();
    KeysDistinct(ask);
    var holds := HoldRows(b.slots, campaign, placement, ask, keys, until);
    assert forall i :: 0 <= i < |holds| ==> holds[i].slot == keys[i] && holds[i].status == Reserved;
    UnitsOfHolds(holds, k, Reserved);
    UnitsOfHolds(holds, k, Committed);
    if k in keys {
      var i :| 0 <= i < |keys| && keys[i] == k;
      assert holds[i].slot == k;
    }
  }

  lemma TakenOfHold(b: Books, campaign: string, placement: string, ask: Ask, until: int, k: SlotKey)
    requires Conserved(b.slots, b.rows) && !ask.Malformed() && k in b.slots
    requires forall k :: k in ask.Keys() ==> k in b.slots
    ensures var rows := b.rows + HoldRows(b.slots, campaign, placement, ask, ask.Keys(), until);
            var s' := Settle(b.slots, b.rows, rows)[k];
            && s'.total == b.slots[k].total
            && s'.Taken() == b.slots[k].Taken() + if k in ask.Keys() then ask.Requested(b.slots[k]) else 0
  {
    var holds := HoldRows(b.slots, campaign, placement, ask, ask.Keys(), until);
    UnitsOfConcat(b.rows, holds, k, Reserved);
    UnitsOfConcat(b.rows, holds, k, Committed);
    UnitsOfFreshHolds(b, campaign, placement, ask, until, k);
  }

  /** A fresh reservation takes only what was free. */
  lemma FreshHoldKeepsCapacity(b: Books, campaign: string, placement: string, ask: Ask, until: int)
    requires Consistent(b) && WithinCapacity(b.slots) && !ask.Malformed()
    requires (forall k :: k in ask.Keys() ==> k in b.slots) && AllFit(b.slots, ask)
    ensures var rows := b.rows + HoldRows(b.slots, campaign, placement, ask, ask.Keys(), until);
            WithinCapacity(Settle(b.slots, b.rows, rows))
  {
    var keys := ask.Keys();
    var holds := HoldRows(b.slots, campaign, placement, ask, keys, until);
    var after := Settle(b.slots, b.rows, b.rows + holds);
    forall k | k in after ensures after[k].Taken() <= after[k].total {
      TakenOfHold(b, campaign, placement, ask, until, k);
    }
  }
}
