/** Shares of voice over whole runs: what is sold of one slot never comes to more than all of it. */
module InventoryShares {
  import opened Common
  import opened Slots
  import opened InventoryBooks
  import opened InventoryRuns
  import InventoryTerms

  /** The books, and for each booking the percentage it was made with, 0 for one made in units. */
  datatype Sold = Sold(books: Books, shares: seq<nat>)

  function ShareOf(op: Op): nat {
    if op.ReserveOp? && op.ask.sov.Some? && op.ask.sov.value > 0 then op.ask.sov.value else 0
  }

  /** Bookings that an operation adds are made with its percentage. */
  ghost function After(w: Sold, op: Op): Sold {
    var b := Step(w.books, op);
    Sold(b, if |b.rows| > |w.shares| then w.shares + seq(|b.rows| - |w.shares|, _ => ShareOf(op)) else w.shares)
  }

  ghost function RunOf(w: Sold, ops: seq<Op>): Sold
    decreases |ops|
  {
    if ops == [] then w else RunOf(After(w, ops[0]), ops[1..])
  }

  lemma {:induction false} BooksOfRun(w: Sold, ops: seq<Op>)
    ensures RunOf(w, ops).books == Run(w.books, ops)
    decreases |ops|
  {
    if ops != [] {
      BooksOfRun(After(w, ops[0]), ops[1..]);
    }
  }

  predicate Active(r: Booking) {
    r.status == Reserved || r.status == Committed
  }

  /** The percentages of slot k that active bookings were made with. */
  function SharesHeld(rows: seq<Booking>, shares: seq<nat>, k: SlotKey): nat
    requires |rows| == |shares|
  {
    if rows == [] then 0
    else
      var last := |rows| - 1;
      SharesHeld(rows[..last], shares[..last], k) + if rows[last].slot == k && Active(rows[last]) then shares[last] else 0
  }

  predicate Paid(r: Booking, share: nat, slots: SlotTable) {
    r.slot in slots && 100 * r.units >= slots[r.slot].total * share
  }

  /** Every booking holds at least the percentage that it was made with. */
  ghost predicate AllPaid(w: Sold) {
    |w.shares| == |w.books.rows| && forall i :: 0 <= i < |w.shares| ==> Paid(w.books.rows[i], w.shares[i], w.books.slots)
  }

  /** Slots stay, with their capacities. */
  ghost predicate SameTotals(slots: SlotTable, slots': SlotTable) {
    forall k :: k in slots ==> k in slots' && slots'[k].total == slots[k].total
  }

  /** An operation keeps slot and units of every booking. */
  ghost predicate SameHolds(rows: seq<Booking>, rows': seq<Booking>) {
    |rows| <= |rows'| && forall i :: 0 <= i < |rows| ==> rows'[i].slot == rows[i].slot && rows'[i].units == rows[i].units
  }

  lemma StepKeepsHolds(b: Books, op: Op)
    ensures SameTotals(b.slots, Step(b, op).slots) && SameHolds(b.rows, Step(b, op).rows)
    ensures !op.ReserveOp? ==> |Step(b, op).rows| == |b.rows|
  {
    if op.ReserveOp? {
      WithHoursOnlyCreates(b.slots, op.ask.Keys(), op.ask.defaultTotal);
      ReserveKeepsHolds(b, op.dir, op.now, op.campaign, op.placement, op.ask, op.until);
    }
  }

  lemma ReserveKeepsHolds(b: Books, dir: Directory, now: int, campaign: string, placement: string, ask: Ask, until: int)
    requires OnlyCreated(b.slots, WithHours(b.slots, ask.Keys(), ask.defaultTotal), ask.defaultTotal)
    ensures var b' := ReserveOutcome(b, dir, now, campaign, placement, ask, until).0;
            SameTotals(b.slots, b'.slots) && SameHolds(b.rows, b'.rows)
  {
  }

  lemma HeldIsEnough(slots: SlotTable, slots': SlotTable, r: Booking, campaign: string, placement: string, ask: Ask, until: int)
    requires InventoryTerms.Sensible(ask) && InventoryTerms.Holds(r, slots, campaign, placement, ask, until)
    requires InventoryTerms.Grown(slots, slots', r.slot, ask)
    ensures Paid(r, if ask.sov.Some? then ask.sov.value else 0, slots')
  {
  }

  /** A booking that an operation adds holds at least its percentage. */
  lemma AddedIsPaid(b: Books, op: Op, i: nat)
    requires Consistent(b) && |b.rows| <= i < |Step(b, op).rows|
    ensures Paid(Step(b, op).rows[i], ShareOf(op), Step(b, op).slots)
  {
    GoesThrough(b, op);
    var rows := Step(b, op).rows;
    InventoryTerms.BooksEachHour(b, op.dir, op.now, op.campaign, op.placement, op.ask, op.until);
    assert rows[i] == rows[|b.rows|..][i - |b.rows|];
    InventoryTerms.RaisesEachHour(b, op.dir, op.now, op.campaign, op.placement, op.ask, op.until, rows[i].slot);
    HeldIsEnough(b.slots, Step(b, op).slots, rows[i], op.campaign, op.placement, op.ask, op.until);
  }

  /** Only a reservation that goes through, for a placement without bookings, adds any. */
  lemma GoesThrough(b: Books, op: Op)
    requires |b.rows| < |Step(b, op).rows|
    ensures op.ReserveOp? && InventoryTerms.Sensible(op.ask) && !InventoryTerms.Hindered(op.dir, b.slots, op.ask, op.now) && !HasRows(b.rows, op.placement)
  {
    StepKeepsHolds(b, op);
    InventoryTerms.RefusedExactly(b, op.dir, op.now, op.campaign, op.placement, op.ask, op.until);
  }

  lemma StepKeepsPaid(w: Sold, op: Op)
    requires Consistent(w.books) && AllPaid(w)
    ensures AllPaid(After(w, op))
  {
    StepKeepsHolds(w.books, op);
    var w' := After(w, op);
    forall i | 0 <= i < |w'.shares| ensures Paid(w'.books.rows[i], w'.shares[i], w'.books.slots) {
      if i < |w.shares| {
        assert Paid(w.books.rows[i], w.shares[i], w.books.slots);
      } else {
        AddedIsPaid(w.books, op, i);
      }
    }
  }

  lemma {:induction false} RunKeepsPaid(w: Sold, ops: seq<Op>)
    requires Consistent(w.books) && AllPaid(w)
    ensures AllPaid(RunOf(w, ops))
    decreases |ops|
  {
    if ops != [] {
      StepKeepsPaid(w, ops[0]);
      StepConserves(w.books, ops[0]);
      RunKeepsPaid(After(w, ops[0]), ops[1..]);
    }
  }

  lemma OneMoreShare(total: nat, share: nat, units: nat, shares: nat, held: nat)
    requires 100 * units >= total * share && 100 * held >= total * shares
    ensures 100 * (held + units) >= total * (shares + share)
  {
  }

  lemma {:induction false} HeldIsPaid(rows: seq<Booking>, shares: seq<nat>, slots: SlotTable, k: SlotKey)
    requires |rows| == |shares| && k in slots && forall i :: 0 <= i < |rows| ==> Paid(rows[i], shares[i], slots)
    ensures 100 * (Units(rows, k, Reserved) + Units(rows, k, Committed)) >= slots[k].total * SharesHeld(rows, shares, k)
  {
    if rows != [] {
      var last := |rows| - 1;
      var front := rows[..last];
      HeldIsPaid(front, shares[..last], slots, k);
      if rows[last].slot == k && Active(rows[last]) {
        OneMoreShare(slots[k].total, shares[last], rows[last].units, SharesHeld(front, shares[..last], k),
                     Units(front, k, Reserved) + Units(front, k, Committed));
      }
    }
  }

  lemma MoreThanAll(total: nat, shares: nat)
    requires total > 0 && shares > 100
    ensures total * shares > 100 * total
  {
    assert total * shares == total * 100 + total * (shares - 100);
  }

  /** In every run from empty books whose reactivations fit, the percentages that active bookings hold of one slot of
      some capacity, each of another placement, never come to more than 100, at any point of the run. */
  lemma SharesNeverExceed(ops: seq<Op>, k: SlotKey)
    requires ReactivationsFit(Books(map[], []), ops)
    ensures var w := RunOf(Sold(Books(map[], []), []), ops);
            && w.books == Run(Books(map[], []), ops) && |w.shares| == |w.books.rows| && UniquePairs(w.books.rows)
            && (k in w.books.slots && w.books.slots[k].total > 0 ==> SharesHeld(w.books.rows, w.shares, k) <= 100)
  {
    var empty := Books(map[], []);
    var w := RunOf(Sold(empty, []), ops);
    BooksOfRun(Sold(empty, []), ops);
    RunConserves(empty, ops);
    RunKeepsPaid(Sold(empty, []), ops);
    RunCapacity(empty, ops);
    assert ops[..|ops|] == ops;
    assert WithinCapacity(w.books.slots);
    if k in w.books.slots && w.books.slots[k].total > 0 {
      HeldIsPaid(w.books.rows, w.shares, w.books.slots, k);
      NoBlocked(ops, k);
      if SharesHeld(w.books.rows, w.shares, k) > 100 {
        MoreThanAll(w.books.slots[k].total, SharesHeld(w.books.rows, w.shares, k));
      }
    }
  }

  lemma NoBlocked(ops: seq<Op>, k: SlotKey)
    requires k in Run(Books(map[], []), ops).slots
    ensures Run(Books(map[], []), ops).slots[k].internalBlocked == 0
  {
    InventoryTerms.NoBlocks(Books(map[], []), ops);
  }
}
