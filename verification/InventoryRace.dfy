/** Reservations racing on one slot: each reads its row without a lock and writes the counter back later. */
module InventoryRace {
  import opened Common
  import opened Slots

  /** A reservation under way: the row as it was read, and the units asked for. */
  datatype Txn = Txn(seen: Slot, units: nat)

  /** The committed row, the units of the committed bookings of reservations, and the reservations under way. */
  datatype World = World(slot: Slot, bookings: seq<nat>, live: map<nat, Txn>)

  datatype Step =
    | Read(t: nat, units: nat)
    | Write(t: nat)
    | Abort(t: nat)

  function Reserved(seen: Slot, units: nat): Slot {
    seen.(reserved := seen.reserved + units).Stamped()
  }

  /** The update names the columns that the reservation changed, with the values it computed from the row it read. */
  function Updated(stored: Slot, txn: Txn): Slot {
    var next := Reserved(txn.seen, txn.units);
    stored.(reserved := if next.reserved != txn.seen.reserved then next.reserved else stored.reserved,
            status := if next.status != txn.seen.status then next.status else stored.status)
  }

  /** A reservation without room ends at once. An update waits for those before it to commit and then overwrites what
      they wrote, so that update and commit are one step. */
  function Apply(w: World, step: Step): World {
    match step
    case Read(t, units) =>
      if t in w.live || w.slot.AvailableCapacity() < units then w else w.(live := w.live[t := Txn(w.slot, units)])
    case Write(t) =>
      if t !in w.live then w
      else World(Updated(w.slot, w.live[t]), w.bookings + [w.live[t].units], w.live - {t})
    case Abort(t) => w.(live := w.live - {t})
  }

  function Run(w: World, steps: seq<Step>): World {
    if steps == [] then w else Apply(Run(w, steps[..|steps| - 1]), steps[|steps| - 1])
  }

  function Sum(bookings: seq<nat>): nat {
    if bookings == [] then 0 else Sum(bookings[..|bookings| - 1]) + bookings[|bookings| - 1]
  }

  lemma SumAdded(bookings: seq<nat>, units: nat)
    ensures Sum(bookings + [units]) == Sum(bookings) + units
  {
    assert (bookings + [units])[..|bookings|] == bookings;
  }

  /** Units that bookings hold and the counter does not. */
  function Missing(w: World): int {
    Sum(w.bookings) - w.slot.reserved
  }

  /** The bookings fit the slot. */
  predicate Fits(w: World) {
    w.slot.booked + w.slot.internalBlocked + Sum(w.bookings) <= w.slot.total
  }

  /** What a step takes off the counter without any booking having given it back: what others wrote after the read. */
  function Overwritten(w: World, step: Step): int {
    if step.Write? && step.t in w.live && w.live[step.t].units > 0 then w.slot.reserved - w.live[step.t].seen.reserved else 0
  }

  function AllOverwritten(w: World, steps: seq<Step>): int {
    if steps == [] then 0
    else
      var front := steps[..|steps| - 1];
      AllOverwritten(w, front) + Overwritten(Run(w, front), steps[|steps| - 1])
  }

  /** The counter misses exactly what was overwritten: however reservations race, it equals the sum of the bookings
      if and only if the overwritten units add up to none. */
  lemma {:induction false} RaceLosesExactly(w: World, steps: seq<Step>)
    ensures Missing(Run(w, steps)) == Missing(w) + AllOverwritten(w, steps)
  {
    if steps != [] {
      var before, step := Run(w, steps[..|steps| - 1]), steps[|steps| - 1];
      RaceLosesExactly(w, steps[..|steps| - 1]);
      if step.Write? && step.t in before.live {
        SumAdded(before.bookings, before.live[step.t].units);
      }
    }
  }

  /** With a true counter, a write of a reservation that asks for something keeps the bookings within the slot
      exactly when there would still be room, were the row read again. */
  lemma WriteFitsExactly(w: World, t: nat)
    requires t in w.live && w.live[t].units > 0 && Missing(w) == 0 && w.slot.emergencyBlocked == 0
    ensures Fits(Apply(w, Write(t))) <==> w.slot.AvailableCapacity() >= w.live[t].units
  {
    SumAdded(w.bookings, w.live[t].units);
  }

  /** Every write finds the row as its reservation read it. */
  ghost predicate Undisturbed(w: World, steps: seq<Step>) {
    steps != [] ==>
      var before, step := Run(w, steps[..|steps| - 1]), steps[|steps| - 1];
      Undisturbed(w, steps[..|steps| - 1]) && (step.Write? && step.t in before.live ==> before.live[step.t].seen == before.slot)
  }

  /** One reservation at a time: none reads while another is under way, as a lock on the row would have it. */
  ghost predicate Exclusive(w: World, steps: seq<Step>) {
    steps != [] ==>
      var before, step := Run(w, steps[..|steps| - 1]), steps[|steps| - 1];
      Exclusive(w, steps[..|steps| - 1]) && (step.Read? ==> before.live == map[])
  }

  ghost predicate Current(w: World) {
    forall t :: t in w.live ==> w.live == map[t := w.live[t]] && w.live[t].seen == w.slot
  }

  lemma {:induction false} ExclusiveIsUndisturbed(w: World, steps: seq<Step>)
    requires w.live == map[] && Exclusive(w, steps)
    ensures Undisturbed(w, steps) && Current(Run(w, steps))
  {
    if steps != [] {
      var before, step := Run(w, steps[..|steps| - 1]), steps[|steps| - 1];
      ExclusiveIsUndisturbed(w, steps[..|steps| - 1]);
      if !step.Read? && step.t in before.live {
        assert before.live - {step.t} == map[];
      }
    }
  }

  /** What was read had room for what is asked. */
  ghost predicate Checked(w: World) {
    forall t :: t in w.live ==> w.live[t].units <= w.live[t].seen.AvailableCapacity()
  }

  ghost predicate Safe(w: World) {
    Missing(w) == 0 && Fits(w) && Checked(w)
  }

  lemma UndisturbedStepIsSafe(w: World, step: Step)
    requires Safe(w) && (step.Write? && step.t in w.live ==> w.live[step.t].seen == w.slot)
    ensures Safe(Apply(w, step))
  {
    if step.Write? && step.t in w.live {
      SumAdded(w.bookings, w.live[step.t].units);
    }
  }

  /** Undisturbed runs keep the counter equal to the sum of the bookings and the bookings within the slot. */
  lemma {:induction false} UndisturbedIsSafe(w: World, steps: seq<Step>)
    requires Safe(w) && Undisturbed(w, steps)
    ensures Safe(Run(w, steps))
  {
    if steps != [] {
      UndisturbedIsSafe(w, steps[..|steps| - 1]);
      UndisturbedStepIsSafe(Run(w, steps[..|steps| - 1]), steps[|steps| - 1]);
    }
  }

  /** One reservation after another: no units are lost and nothing is overbooked. */
  lemma ExclusiveIsSafe(w: World, steps: seq<Step>)
    requires w.live == map[] && Missing(w) == 0 && Fits(w) && Exclusive(w, steps)
    ensures Missing(Run(w, steps)) == 0 && Fits(Run(w, steps))
  {
    ExclusiveIsUndisturbed(w, steps);
    UndisturbedIsSafe(w, steps);
  }

  lemma RunNext(w: World, steps: seq<Step>, step: Step, next: World)
    requires Apply(Run(w, steps), step) == next
    ensures Run(w, steps + [step]) == next
  {
    assert (steps + [step])[..|steps|] == steps;
  }

  const ONE_UNIT: World := World(NewSlot(1), [], map[])
  const TAKEN: Slot := NewSlot(1).(reserved := 1, status := SoldOut)

  /** Two reservations of the only unit of a new slot, both read before either writes: both are booked, the slot is
      overbooked, and the counter shows one. */
  lemma RaceOverbooks()
    ensures var w := Run(ONE_UNIT, [Read(1, 1), Read(2, 1), Write(1), Write(2)]);
            w == World(TAKEN, [1, 1], map[]) && Missing(w) == 1 && !Fits(w)
  {
    var txn := Txn(NewSlot(1), 1);
    assert Updated(NewSlot(1), txn) == TAKEN && Updated(TAKEN, txn) == TAKEN;
    RunNext(ONE_UNIT, [], Read(1, 1), World(NewSlot(1), [], map[1 := txn]));
    RunNext(ONE_UNIT, [Read(1, 1)], Read(2, 1), World(NewSlot(1), [], map[1 := txn, 2 := txn]));
    assert map[1 := txn, 2 := txn] - {1} == map[2 := txn] && map[2 := txn] - {2} == map[];
    RunNext(ONE_UNIT, [Read(1, 1), Read(2, 1)], Write(1), World(TAKEN, [1], map[2 := txn]));
    RunNext(ONE_UNIT, [Read(1, 1), Read(2, 1), Write(1)], Write(2), World(TAKEN, [1, 1], map[]));
    assert [Read(1, 1), Read(2, 1), Write(1)] + [Write(2)] == [Read(1, 1), Read(2, 1), Write(1), Write(2)];
    SumOfTwo();
  }

  lemma SumOfTwo()
    ensures Sum([1, 1]) == 2
  {
    SumAdded([], 1);
    SumAdded([1], 1);
  }
}
