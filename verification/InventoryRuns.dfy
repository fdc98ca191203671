/** Whole runs of the reservation ledger: the counters always add up, and capacity is exceeded
    exactly when a reactivation takes more than its slots have left. */
module InventoryRuns {
  import opened Common
  import opened Slots
  import opened InventoryBooks

  datatype Op =
    | ReserveOp(dir: Directory, now: int, campaign: string, placement: string, ask: Ask, until: int)
    | CommitOp(campaign: string)
    | ReleaseOp(campaign: string)
    | ExpireOp(now: int)

  ghost function Step(b: Books, op: Op): Books {
    match op
    case ReserveOp(dir, now, campaign, placement, ask, until) =>
      ReserveOutcome(b, dir, now, campaign, placement, ask, until).0
    case CommitOp(campaign) => Updated(b, Commit(campaign))
    case ReleaseOp(campaign) => Updated(b, Release(campaign))
    case ExpireOp(now) => Updated(b, Expire(now))
  }

  ghost function Run(b: Books, ops: seq<Op>): Books
    decreases |ops|
  {
    if ops == [] then b else Run(Step(b, ops[0]), ops[1..])
  }

  /** The reserve call passes its checks and finds bookings of its placement. */
  ghost predicate Reuses(b: Books, op: Op) {
    && op.ReserveOp?
    && !HasConflict(op.dir, b.slots, op.ask, op.now)
    && HasRows(b.rows, op.placement)
  }

  lemma StepConserves(b: Books, op: Op)
    requires Consistent(b)
    ensures Consistent(Step(b, op))
  {
    match op
    case CommitOp(campaign) => UpdateKeepsConsistent(b, Commit(campaign));
    case ReleaseOp(campaign) => UpdateKeepsConsistent(b, Release(campaign));
    case ExpireOp(now) => UpdateKeepsConsistent(b, Expire(now));
    case ReserveOp(dir, now, campaign, placement, ask, until) =>
      if !ask.Malformed() && SurfaceUsable(dir, ask.surface) {
        var b1 := b.(slots := WithHours(b.slots, ask.Keys(), ask.defaultTotal));
        WithHoursOnlyCreates(b.slots, ask.Keys(), ask.defaultTotal);
        CreatedSlotsAreConserved(b.slots, b1.slots, b.rows, ask.defaultTotal);
        if !HasConflict(dir, b.slots, ask, now) {
          if HasRows(b.rows, placement) {
            UpdateKeepsConsistent(b1, Reactivate(placement, until));
          } else {
            FreshHoldKeepsConsistent(b1, campaign, placement, ask, until);
          }
        }
      }
  }

  /** One operation on books within capacity stays within capacity, unless it reactivates bookings
      that no longer fit; then it does not. */
  lemma StepCapacity(b: Books, op: Op)
    requires Consistent(b) && WithinCapacity(b.slots)
    ensures WithinCapacity(Step(b, op).slots) <==> (Reuses(b, op) ==> ReactivationFits(b, op.placement))
  {
    match op
    case CommitOp(campaign) => UpdateKeepsCapacity(b, Commit(campaign));
    case ReleaseOp(campaign) => UpdateKeepsCapacity(b, Release(campaign));
    case ExpireOp(now) => UpdateKeepsCapacity(b, Expire(now));
    case ReserveOp(dir, now, campaign, placement, ask, until) =>
      if !ask.Malformed() && SurfaceUsable(dir, ask.surface) {
        var b1 := b.(slots := WithHours(b.slots, ask.Keys(), ask.defaultTotal));
        WithHoursOnlyCreates(b.slots, ask.Keys(), ask.defaultTotal);
        CreatedSlotsAreConserved(b.slots, b1.slots, b.rows, ask.defaultTotal);
        if !HasConflict(dir, b.slots, ask, now) {
          if HasRows(b.rows, placement) {
            ReactivationCapacity(b1, placement, until);
            assert ReactivationFits(b1, placement) <==> ReactivationFits(b, placement);
          } else {
            FitIgnoresCreatedSlots(b.slots, b1.slots, ask);
            FreshHoldKeepsCapacity(b1, campaign, placement, ask, until);
          }
        }
      }
  }

  /** In every run the cached counters are the sums over the bookings, and (placement, slot) is unique. */
  lemma {:induction false} RunConserves(b: Books, ops: seq<Op>)
    requires Consistent(b)
    ensures Consistent(Run(b, ops))
    decreases |ops|
  {
    if ops != [] {
      StepConserves(b, ops[0]);
      RunConserves(Step(b, ops[0]), ops[1..]);
    }
  }

  /** Every reserve call of the run that reactivates bookings finds room for them. */
  ghost predicate ReactivationsFit(b: Books, ops: seq<Op>)
    requires Consistent(b)
    decreases |ops|
  {
    ops != [] ==>
      && (Reuses(b, ops[0]) ==> ReactivationFits(b, ops[0].placement))
      && (StepConserves(b, ops[0]); ReactivationsFit(Step(b, ops[0]), ops[1..]))
  }

  /** No slot is overbooked at any point of a run exactly when all its reactivations fit. */
  lemma {:induction false} RunCapacity(b: Books, ops: seq<Op>)
    requires Consistent(b) && WithinCapacity(b.slots)
    ensures (forall n :: 0 <= n <= |ops| ==> WithinCapacity(Run(b, ops[..n]).slots)) <==> ReactivationsFit(b, ops)
    decreases |ops|
  {
    if ops != [] {
      var b' := Step(b, ops[0]);
      StepConserves(b, ops[0]);
      StepCapacity(b, ops[0]);
      forall n | 0 < n <= |ops| ensures Run(b, ops[..n]) == Run(b', ops[1..][..n - 1]) {
        assert ops[..n][0] == ops[0] && ops[..n][1..] == ops[1..][..n - 1];
      }
      assert Run(b', ops[1..][..0]) == b';
      if WithinCapacity(b'.slots) {
        RunCapacity(b', ops[1..]);
        if forall n :: 0 <= n <= |ops| ==> WithinCapacity(Run(b, ops[..n]).slots) {
          forall n | 0 <= n <= |ops[1..]| ensures WithinCapacity(Run(b', ops[1..][..n]).slots) {
            assert Run(b, ops[..n + 1]) == Run(b', ops[1..][..n]);
          }
        }
      } else {
        assert Run(b, ops[..1]) == b';
      }
    }
  }

  /** The status column says what recomputing it would say, except on slots of no capacity that were
      never booked: they are created "available" and would recompute to "sold out". */
  ghost predicate StatusTrue(b: Books) {
    forall k :: k in b.slots ==> TrueAt(b.slots[k], b.rows, k)
  }

  ghost predicate TrueAt(s: Slot, rows: seq<Booking>, k: SlotKey) {
    s.status == s.RecomputeStatus() || (s.total == 0 && forall i :: 0 <= i < |rows| ==> rows[i].slot != k)
  }

  lemma SettleKeepsStatus(b: Books, rows: seq<Booking>)
    requires Conserved(b.slots, b.rows) && StatusTrue(b) && |b.rows| <= |rows|
    requires forall i :: 0 <= i < |b.rows| ==> rows[i].slot == b.rows[i].slot
    ensures StatusTrue(Books(Settle(b.slots, b.rows, rows), rows))
  {
    forall k | k in b.slots && !Touched(b.rows, rows, k)
      ensures Settled(b.slots[k], b.rows, rows, k) == b.slots[k]
      ensures (forall i :: 0 <= i < |b.rows| ==> b.rows[i].slot != k) ==> forall i :: 0 <= i < |rows| ==> rows[i].slot != k
    {
      UntouchedUnits(b.rows, rows, k, Reserved);
      UntouchedUnits(b.rows, rows, k, Committed);
    }
  }

  lemma {:induction false} UntouchedUnits(before: seq<Booking>, after: seq<Booking>, k: SlotKey, st: BookingStatus)
    requires |before| <= |after| && !Touched(before, after, k)
    requires forall i :: 0 <= i < |before| ==> after[i].slot == before[i].slot
    ensures Units(after, k, st) == Units(before, k, st)
  {
    if after != [] {
      var n := |after| - 1;
      assert after[n].slot == k ==> n < |before| && before[n] == after[n];
      if |before| == |after| {
        assert !Touched(before[..n], after[..n], k) by {
          forall i | 0 <= i < n && after[..n][i].slot == k ensures before[..n][i] == after[..n][i] {
            assert after[i].slot == k;
          }
        }
        UntouchedUnits(before[..n], after[..n], k, st);
      } else {
        assert !Touched(before, after[..n], k) by {
          forall i | 0 <= i < n && after[..n][i].slot == k ensures i < |before| ==> before[i] == after[..n][i] {
            assert after[i].slot == k;
          }
        }
        UntouchedUnits(before, after[..n], k, st);
      }
    }
  }

  /** A created slot is "available" and, unless it has no capacity, recomputes to that. */
  lemma NewSlotIsTrue(total: nat, rows: seq<Booking>, k: SlotKey)
    requires forall i :: 0 <= i < |rows| ==> rows[i].slot != k
    ensures TrueAt(NewSlot(total), rows, k)
  {
  }

  lemma CreatedSlotsAreTrue(b: Books, slots: SlotTable, total: nat)
    requires StatusTrue(b) && OnlyCreated(b.slots, slots, total)
    requires forall i :: 0 <= i < |b.rows| ==> b.rows[i].slot in b.slots
    ensures StatusTrue(Books(slots, b.rows))
  {
    forall k | k in slots ensures TrueAt(slots[k], b.rows, k) {
      if k in b.slots {
        assert slots[k] == b.slots[k];
      } else {
        NewSlotIsTrue(total, b.rows, k);
      }
    }
  }

  /** A reservation that goes through settles the books to rows that rewrite or extend the old ones. */
  lemma ReservedBooks(b: Books, dir: Directory, now: int, campaign: string, placement: string, ask: Ask, until: int) returns (rows: seq<Booking>)
    requires !ask.Malformed() && SurfaceUsable(dir, ask.surface) && !HasConflict(dir, b.slots, ask, now)
    ensures var b' := ReserveOutcome(b, dir, now, campaign, placement, ask, until).0;
            var slots := WithHours(b.slots, ask.Keys(), ask.defaultTotal);
            |b.rows| <= |rows| && b' == Books(Settle(slots, b.rows, rows), rows)
    ensures forall i :: 0 <= i < |b.rows| ==> rows[i].slot == b.rows[i].slot
  {
    var slots := WithHours(b.slots, ask.Keys(), ask.defaultTotal);
    WithHoursOnlyCreates(b.slots, ask.Keys(), ask.defaultTotal);
    if HasRows(b.rows, placement) {
      rows := Reactivate(placement, until).Rewrite(b.rows);
    } else {
      rows := b.rows + HoldRows(slots, campaign, placement, ask, ask.Keys(), until);
    }
  }

  lemma ReserveKeepsStatus(b: Books, dir: Directory, now: int, campaign: string, placement: string, ask: Ask, until: int)
    requires Consistent(b) && StatusTrue(b)
    ensures StatusTrue(ReserveOutcome(b, dir, now, campaign, placement, ask, until).0)
  {
    if !ask.Malformed() && SurfaceUsable(dir, ask.surface) {
      var slots := WithHours(b.slots, ask.Keys(), ask.defaultTotal);
      WithHoursOnlyCreates(b.slots, ask.Keys(), ask.defaultTotal);
      CreatedSlotsAreConserved(b.slots, slots, b.rows, ask.defaultTotal);
      CreatedSlotsAreTrue(b, slots, ask.defaultTotal);
      if !HasConflict(dir, b.slots, ask, now) {
        var rows := ReservedBooks(b, dir, now, campaign, placement, ask, until);
        SettleKeepsStatus(Books(slots, b.rows), rows);
      }
    }
  }

  lemma StepKeepsStatus(b: Books, op: Op)
    requires Consistent(b) && StatusTrue(b)
    ensures StatusTrue(Step(b, op))
  {
    match op
    case CommitOp(campaign) => SettleKeepsStatus(b, Commit(campaign).Rewrite(b.rows));
    case ReleaseOp(campaign) => SettleKeepsStatus(b, Release(campaign).Rewrite(b.rows));
    case ExpireOp(now) => SettleKeepsStatus(b, Expire(now).Rewrite(b.rows));
    case ReserveOp(dir, now, campaign, placement, ask, until) =>
      ReserveKeepsStatus(b, dir, now, campaign, placement, ask, until);
  }

  /** In every run the status column stays true. */
  lemma {:induction false} RunKeepsStatus(b: Books, ops: seq<Op>)
    requires Consistent(b) && StatusTrue(b)
    ensures StatusTrue(Run(b, ops))
    decreases |ops|
  {
    if ops != [] {
      StepConserves(b, ops[0]);
      StepKeepsStatus(b, ops[0]);
      RunKeepsStatus(Step(b, ops[0]), ops[1..]);
    }
  }

  ghost predicate Booked(rows: seq<Booking>, k: SlotKey) {
    exists i :: 0 <= i < |rows| && rows[i].slot == k
  }

  /** A slot that no booking names is as it was created. */
  ghost predicate UnbookedAreNew(b: Books) {
    forall k :: k in b.slots && !Booked(b.rows, k) ==> b.slots[k] == NewSlot(b.slots[k].total)
  }

  lemma SettleKeepsNew(b: Books, rows: seq<Booking>)
    requires Conserved(b.slots, b.rows) && UnbookedAreNew(b) && |b.rows| <= |rows|
    requires forall i :: 0 <= i < |b.rows| ==> rows[i].slot == b.rows[i].slot
    ensures UnbookedAreNew(Books(Settle(b.slots, b.rows, rows), rows))
  {
    forall k | k in b.slots && !Booked(rows, k) ensures Settled(b.slots[k], b.rows, rows, k) == b.slots[k] && !Booked(b.rows, k) {
      forall i | 0 <= i < |b.rows| ensures b.rows[i].slot != k {
        assert rows[i].slot != k;
      }
      UntouchedUnits(b.rows, rows, k, Reserved);
      UntouchedUnits(b.rows, rows, k, Committed);
    }
  }

  lemma CreatedSlotsAreNew(b: Books, slots: SlotTable, total: nat)
    requires UnbookedAreNew(b) && OnlyCreated(b.slots, slots, total)
    ensures UnbookedAreNew(Books(slots, b.rows))
  {
    forall k | k in slots && !Booked(b.rows, k) ensures slots[k] == NewSlot(slots[k].total) {
      if k in b.slots {
        assert slots[k] == b.slots[k];
      } else {
        assert slots[k] == NewSlot(total);
      }
    }
  }

  lemma ReserveKeepsNew(b: Books, dir: Directory, now: int, campaign: string, placement: string, ask: Ask, until: int)
    requires Consistent(b) && UnbookedAreNew(b)
    ensures UnbookedAreNew(ReserveOutcome(b, dir, now, campaign, placement, ask, until).0)
  {
    if !ask.Malformed() && SurfaceUsable(dir, ask.surface) {
      var slots := WithHours(b.slots, ask.Keys(), ask.defaultTotal);
      WithHoursOnlyCreates(b.slots, ask.Keys(), ask.defaultTotal);
      CreatedSlotsAreConserved(b.slots, slots, b.rows, ask.defaultTotal);
      CreatedSlotsAreNew(b, slots, ask.defaultTotal);
      if !HasConflict(dir, b.slots, ask, now) {
        var rows := ReservedBooks(b, dir, now, campaign, placement, ask, until);
        SettleKeepsNew(Books(slots, b.rows), rows);
      }
    }
  }

  lemma StepKeepsNew(b: Books, op: Op)
    requires Consistent(b) && UnbookedAreNew(b)
    ensures UnbookedAreNew(Step(b, op))
  {
    match op
    case CommitOp(campaign) => SettleKeepsNew(b, Commit(campaign).Rewrite(b.rows));
    case ReleaseOp(campaign) => SettleKeepsNew(b, Release(campaign).Rewrite(b.rows));
    case ExpireOp(now) => SettleKeepsNew(b, Expire(now).Rewrite(b.rows));
    case ReserveOp(dir, now, campaign, placement, ask, until) =>
      ReserveKeepsNew(b, dir, now, campaign, placement, ask, until);
  }

  lemma {:induction false} RunKeepsNew(b: Books, ops: seq<Op>)
    requires Consistent(b) && UnbookedAreNew(b)
    ensures UnbookedAreNew(Run(b, ops))
    decreases |ops|
  {
    if ops != [] {
      StepConserves(b, ops[0]);
      StepKeepsNew(b, ops[0]);
      RunKeepsNew(Step(b, ops[0]), ops[1..]);
    }
  }

  lemma NewSlotStatus(total: nat)
    ensures NewSlot(total).status == NewSlot(total).RecomputeStatus() <==> total > 0
  {
  }

  /** In every run from empty books, the status column of a slot says what recomputing it would say exactly when
      the slot has some capacity or some booking: a slot of no capacity that nobody booked stays "available",
      which is wrong. */
  lemma StatusIsTrueExactly(ops: seq<Op>, k: SlotKey)
    requires k in Run(Books(map[], []), ops).slots
    ensures var b := Run(Books(map[], []), ops);
            b.slots[k].status == b.slots[k].RecomputeStatus() <==> b.slots[k].total > 0 || Booked(b.rows, k)
  {
    var empty := Books(map[], []);
    RunKeepsStatus(empty, ops);
    RunKeepsNew(empty, ops);
    StatusTrueAt(Run(empty, ops), k);
  }

  lemma StatusTrueAt(b: Books, k: SlotKey)
    requires StatusTrue(b) && UnbookedAreNew(b) && k in b.slots
    ensures b.slots[k].status == b.slots[k].RecomputeStatus() <==> b.slots[k].total > 0 || Booked(b.rows, k)
  {
    assert TrueAt(b.slots[k], b.rows, k);
    if !Booked(b.rows, k) {
      NewSlotStatus(b.slots[k].total);
    }
  }

  /** Reactivating never overbooks when the inactive bookings lie in the checked range and are no
      larger than the checked request. */
  lemma CheckedReactivationFits(b: Books, op: Op)
    requires Consistent(b) && Reuses(b, op)
    requires forall i :: 0 <= i < |b.rows| && b.rows[i].placement == op.placement && b.rows[i].status in {Released, Expired} ==>
                           b.rows[i].slot in op.ask.Keys() && b.rows[i].units <= op.ask.Requested(b.slots[b.rows[i].slot])
    requires WithinCapacity(b.slots)
    ensures ReactivationFits(b, op.placement)
  {
    forall i | 0 <= i < |b.rows| && b.rows[i].placement == op.placement && b.rows[i].status in {Released, Expired}
      ensures b.slots[b.rows[i].slot].Taken() + b.rows[i].units <= b.slots[b.rows[i].slot].total
    {
      assert HourFits(b.slots, b.rows[i].slot, op.ask);
    }
  }

  /** A refused reservation changes no counter and no booking; at most it created empty slots. */
  lemma RefusalChangesNothing(b: Books, dir: Directory, now: int, campaign: string, placement: string, ask: Ask, until: int)
    requires ReserveOutcome(b, dir, now, campaign, placement, ask, until).1.Err?
    ensures var b' := ReserveOutcome(b, dir, now, campaign, placement, ask, until).0;
            b'.rows == b.rows && OnlyCreated(b.slots, b'.slots, ask.defaultTotal)
  {
    WithHoursOnlyCreates(b.slots, ask.Keys(), ask.defaultTotal);
  }

  lemma UnitsOfOne(b: Booking, k: SlotKey, st: BookingStatus)
    ensures Units([b], k, st) == Held(b, k, st)
  {
    assert [b][..0] == [];
  }

  /// A refused request for an hour whose default capacity is zero leaves such a slot.

  function ZeroCapacityOp(): Op {
    ReserveOp(Directory(map["s" := Surface("store", true)], []), 0, "c", "p",
              Ask("s", MICROS_PER_HOUR, 2 * MICROS_PER_HOUR, Some(1), None, 0), 24)
  }

  lemma ZeroCapacityKeys()
    ensures ZeroCapacityOp().ask.Keys() == [SlotKey("s", 0, 1)]
  {
    assert HourOf(MICROS_PER_HOUR) == 1 && HourOf(2 * MICROS_PER_HOUR) == 2;
    assert HourKeys("s", 1, 2) == HourKeys("s", 1, 1) + [KeyOfHour("s", 1)];
    assert KeyOfHour("s", 1) == SlotKey("s", 0, 1);
  }

  lemma ZeroCapacityIsRefused()
    ensures var op := ZeroCapacityOp(); !op.ask.Malformed() && HasConflict(op.dir, map[], op.ask, op.now)
  {
    var slots: SlotTable, ask, k := map[], ZeroCapacityOp().ask, SlotKey("s", 0, 1);
    ZeroCapacityKeys();
    assert SlotOr(slots, k, 0) == NewSlot(0);
    assert k in ask.Keys() && !HourFits(slots, k, ask);
  }

  lemma ZeroCapacityStep()
    ensures Step(Books(map[], []), ZeroCapacityOp()) == Books(WithHours(map[], [SlotKey("s", 0, 1)], 0), [])
  {
    ZeroCapacityKeys();
    ZeroCapacityIsRefused();
  }

  lemma WrongStatusIsReached()
    ensures var b, k := Run(Books(map[], []), [ZeroCapacityOp()]), SlotKey("s", 0, 1);
            k in b.slots && b.slots[k].status != b.slots[k].RecomputeStatus()
  {
    var slots: SlotTable, k := map[], SlotKey("s", 0, 1);
    ZeroCapacityStep();
    WithHoursOnlyCreates(slots, [k], 0);
    assert k in [k] && WithHours(slots, [k], 0)[k] == SlotOr(slots, k, 0);
    assert [ZeroCapacityOp()][1..] == [];
    NewSlotStatus(0);
  }

  /// A reactivation outside the checked range can overbook: placement "p" gave its unit of the only
  /// slot back, "q" took it, and asking for another hour brings "p" back.

  function CrowdedBooks(): Books {
    var k := SlotKey("s", 0, 0);
    Books(map[k := Slot(1, 0, 1, 0, 0, SoldOut)],
          [Booking("c", "p", k, 1, Released, 0), Booking("d", "q", k, 1, Reserved, 0)])
  }

  function ReturningOp(): Op {
    ReserveOp(Directory(map["s" := Surface("store", true)], []), 0, "c", "p",
              Ask("s", MICROS_PER_HOUR, 2 * MICROS_PER_HOUR, Some(1), None, 1), 24)
  }

  lemma CrowdedBooksAreSound()
    ensures Consistent(CrowdedBooks()) && WithinCapacity(CrowdedBooks().slots)
  {
    var k, rows := SlotKey("s", 0, 0), CrowdedBooks().rows;
    forall st ensures Units(rows, k, st) == Held(rows[0], k, st) + Held(rows[1], k, st) {
      assert rows == [rows[0]] + [rows[1]];
      UnitsOfConcat([rows[0]], [rows[1]], k, st);
      UnitsOfOne(rows[0], k, st);
      UnitsOfOne(rows[1], k, st);
    }
  }

  lemma ReturningOpKeys()
    ensures ReturningOp().ask.Keys() == [SlotKey("s", 0, 1)]
  {
    assert HourOf(MICROS_PER_HOUR) == 1 && HourOf(2 * MICROS_PER_HOUR) == 2;
    assert HourKeys("s", 1, 2) == HourKeys("s", 1, 1) + [KeyOfHour("s", 1)];
    assert KeyOfHour("s", 1) == SlotKey("s", 0, 1);
  }

  lemma ReturningOpReuses()
    ensures Reuses(CrowdedBooks(), ReturningOp())
  {
    var slots, op := CrowdedBooks().slots, ReturningOp();
    ReturningOpKeys();
    assert SlotOr(slots, SlotKey("s", 0, 1), 1) == NewSlot(1);
    assert CrowdedBooks().rows[0].placement == "p";
  }

  lemma ReactivationCanOverbook()
    ensures var b, op := CrowdedBooks(), ReturningOp();
            Consistent(b) && WithinCapacity(b.slots) && Reuses(b, op) && !WithinCapacity(Step(b, op).slots)
  {
    var b, op := CrowdedBooks(), ReturningOp();
    CrowdedBooksAreSound();
    ReturningOpReuses();
    StepCapacity(b, op);
    assert b.rows[0].placement == "p" && b.slots[b.rows[0].slot].Taken() + b.rows[0].units == 2;
  }
}
