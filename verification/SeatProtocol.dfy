/** Enrollment, reconciliation and decommission transactions, interleaved statement by statement.

    Enrollments and reconciliations serialize on the row lock of the effective grant; decommissions
    lock only their device, so one may commit between any two statements of the others. */
module SeatProtocol {
  import opened Common
  import opened SeatLedger

  type Tx = nat

  /** Where a transaction that wants the grant lock has got to. */
  datatype Phase =
    | Locked                                  // enrollment: holds the lock, has read the grant
    | Counted(occupied: nat)                  // enrollment: passed the capacity check
    | ReconcileLocked                         // reconciliation: holds the lock
    | Scanned(missing: set<string>)           // reconciliation: has read the unseated devices

  /** The committed tables and the one transaction, if any, that holds the grant lock. */
  datatype System = System(fleet: Fleet, holder: Option<Tx>, phase: Phase)

  datatype Step =
    | EnrollLock(tx: Tx)
    | EnrollCount(tx: Tx, now: int)
    | EnrollCommit(tx: Tx, device: string, now: int)
    | ReconcileLock(tx: Tx)
    | ReconcileScan(tx: Tx)
    | ReconcileCommit(tx: Tx, seats: seq<Seat>, now: int)
    | Abort(tx: Tx)
    | Decommission(device: string, now: int)

  /** Whether a step can be taken: the lock is free for its taker, and later statements belong to the
      holder and come in order. A denied enrollment ends at its count and gives the lock back. */
  ghost predicate Enabled(s: System, grant: Grant, step: Step) {
    match step
    case EnrollLock(tx) => s.holder.None?
    case EnrollCount(tx, now) => s.holder == Some(tx) && s.phase.Locked?
    case EnrollCommit(tx, d, now) => s.holder == Some(tx) && s.phase.Counted? && d !in s.fleet.devices
    case ReconcileLock(tx) => s.holder.None?
    case ReconcileScan(tx) => s.holder == Some(tx) && s.phase.ReconcileLocked?
    case ReconcileCommit(tx, seats, now) =>
      s.holder == Some(tx) && s.phase.Scanned? && SeatsAdded(s.fleet.seats, seats, grant.id, s.phase.missing, now)
    case Abort(tx) => s.holder == Some(tx)
    case Decommission(d, now) => true
  }

  ghost function After(s: System, grant: Grant, step: Step): System
    requires Enabled(s, grant, step)
  {
    match step
    case EnrollLock(tx) => s.(holder := Some(tx), phase := Locked)
    case EnrollCount(tx, now) =>
      var occupied := Occupied(s.fleet.seats, s.fleet.devices);
      if Admission(Some(grant), now, occupied).Denied? then s.(holder := None) else s.(phase := Counted(occupied))
    case EnrollCommit(tx, d, now) => s.(fleet := Enrolled(s.fleet, grant.id, d, now), holder := None)
    case ReconcileLock(tx) => s.(holder := Some(tx), phase := ReconcileLocked)
    case ReconcileScan(tx) => s.(phase := Scanned(Unseated(s.fleet)))
    case ReconcileCommit(tx, seats, now) => s.(fleet := s.fleet.(seats := seats), holder := None)
    case Abort(tx) => s.(holder := None)
    case Decommission(d, now) => s.(fleet := Decommissioned(s.fleet, d, now).0)
  }

  function OccupiedIn(s: System): nat {
    Occupied(s.fleet.seats, s.fleet.devices)
  }

  /** What the lock holder saw is still safe to act on. */
  ghost predicate Inv(s: System, grant: Grant) {
    && WellFormed(s.fleet)
    && (s.holder.Some? && s.phase.Counted? ==> OccupiedIn(s) <= s.phase.occupied < grant.Capacity())
    && (s.holder.Some? && s.phase.Scanned? ==> forall d :: d in s.phase.missing ==> d in s.fleet.devices && !HasOpenSeat(s.fleet.seats, d))
  }

  /** A decommission never raises the occupancy and never opens a seat. */
  lemma DecommissionShrinks(f: Fleet, d: string, now: int)
    requires WellFormed(f)
    ensures var f' := Decommissioned(f, d, now).0;
            && WellFormed(f') && f.devices.Keys == f'.devices.Keys
            && Occupied(f'.seats, f'.devices) <= Occupied(f.seats, f.devices)
            && forall x :: HasOpenSeat(f'.seats, x) ==> HasOpenSeat(f.seats, x)
  {
    var f' := Decommissioned(f, d, now).0;
    OccupiedShrinks(f.seats, f'.seats, f.devices, f'.devices);
    forall x | HasOpenSeat(f'.seats, x) ensures HasOpenSeat(f.seats, x) {
      var i :| 0 <= i < |f'.seats| && f'.seats[i].device == x && f'.seats[i].releasedAt.None?;
      assert f.seats[i].device == x && f.seats[i].releasedAt.None?;
    }
  }

  lemma ReconcileCommitKeepsWellFormed(f: Fleet, seats: seq<Seat>, license: string, missing: set<string>, now: int)
    requires WellFormed(f) && SeatsAdded(f.seats, seats, license, missing, now)
    requires forall d :: d in missing ==> d in f.devices && !HasOpenSeat(f.seats, d)
    ensures WellFormed(f.(seats := seats))
  {
    var n := |f.seats|;
    assert forall i :: 0 <= i < n ==> seats[i] == seats[..n][i];
    forall i, j | 0 <= i < j < |seats| && seats[i].releasedAt.None? && seats[j].releasedAt.None?
      ensures seats[i].device != seats[j].device
    {
      if i < n <= j {
        assert f.seats[i] == seats[i];
        assert !HasOpenSeat(f.seats, seats[j].device);
      }
    }
  }

  /** Every step keeps the invariant. An enrollment commits only when a place is free at that very
      moment; apart from reconciliation nothing else raises the occupancy. */
  lemma StepSafety(s: System, grant: Grant, step: Step)
    requires Inv(s, grant) && Enabled(s, grant, step)
    ensures Inv(After(s, grant, step), grant)
    ensures step.EnrollCommit? ==> OccupiedIn(s) < grant.Capacity() && OccupiedIn(After(s, grant, step)) == OccupiedIn(s) + 1
    ensures !step.EnrollCommit? && !step.ReconcileCommit? ==> OccupiedIn(After(s, grant, step)) <= OccupiedIn(s)
  {
    match step
    case EnrollCommit(tx, d, now) => EnrollmentCounts(s.fleet, grant.id, d, now);
    case Decommission(d, now) => DecommissionShrinks(s.fleet, d, now);
    case ReconcileCommit(tx, seats, now) =>
      ReconcileCommitKeepsWellFormed(s.fleet, seats, grant.id, s.phase.missing, now);
    case _ =>
  }

  /** A run: each step is enabled in the state the previous ones leave. */
  ghost predicate IsRun(s: System, grant: Grant, steps: seq<Step>)
    decreases |steps|
  {
    steps != [] ==> Enabled(s, grant, steps[0]) && IsRun(After(s, grant, steps[0]), grant, steps[1..])
  }

  ghost function EndOf(s: System, grant: Grant, steps: seq<Step>): System
    requires IsRun(s, grant, steps)
    decreases |steps|
  {
    if steps == [] then s else EndOf(After(s, grant, steps[0]), grant, steps[1..])
  }

  lemma {:induction false} RunSafety(s: System, grant: Grant, steps: seq<Step>)
    requires Inv(s, grant) && IsRun(s, grant, steps)
    requires forall i :: 0 <= i < |steps| ==> !steps[i].ReconcileCommit?
    ensures Inv(EndOf(s, grant, steps), grant)
    ensures OccupiedIn(EndOf(s, grant, steps)) <= Max(OccupiedIn(s), grant.Capacity())
    decreases |steps|
  {
    if steps != [] {
      StepSafety(s, grant, steps[0]);
      RunSafety(After(s, grant, steps[0]), grant, steps[1..]);
    }
  }

  /** Never over-admitted: from a ledger within capacity, under any interleaving of enrollments and
      decommissions, the occupied seats never exceed max_devices + overage_allowance. */
  lemma NeverOverAdmitted(f: Fleet, grant: Grant, steps: seq<Step>)
    requires WellFormed(f) && Occupied(f.seats, f.devices) <= grant.Capacity()
    requires IsRun(System(f, None, Locked), grant, steps)
    requires forall i :: 0 <= i < |steps| ==> !steps[i].ReconcileCommit?
    ensures OccupiedIn(EndOf(System(f, None, Locked), grant, steps)) <= grant.Capacity()
  {
    RunSafety(System(f, None, Locked), grant, steps);
  }

  /** Reconciliation may push the ledger over its capacity. In any run, with reconciliations anywhere in
      it, no enrollment commits at a point where the occupancy is not below the capacity. */
  lemma {:induction false} NoEnrollmentWhileFull(s: System, grant: Grant, steps: seq<Step>, n: nat)
    requires Inv(s, grant) && IsRun(s, grant, steps) && n < |steps| && steps[n].EnrollCommit?
    ensures IsRun(s, grant, steps[..n])
    ensures OccupiedIn(EndOf(s, grant, steps[..n])) < grant.Capacity()
    decreases n
  {
    StepSafety(s, grant, steps[0]);
    if n > 0 {
      NoEnrollmentWhileFull(After(s, grant, steps[0]), grant, steps[1..], n - 1);
      assert steps[..n][1..] == steps[1..][..n - 1];
    }
  }

  /** The transaction counted at one of these steps, at a time when the grant was usable. */
  ghost predicate CountedUsable(grant: Grant, steps: seq<Step>, tx: Tx) {
    exists m :: 0 <= m < |steps| && steps[m].EnrollCount? && steps[m].tx == tx && Usable(grant, steps[m].now)
  }

  lemma {:induction false} RunSplits(s: System, grant: Grant, steps: seq<Step>, n: nat)
    requires IsRun(s, grant, steps) && n < |steps|
    ensures IsRun(s, grant, steps[..n]) && Enabled(EndOf(s, grant, steps[..n]), grant, steps[n])
    ensures IsRun(s, grant, steps[..n + 1])
    ensures EndOf(s, grant, steps[..n + 1]) == After(EndOf(s, grant, steps[..n]), grant, steps[n])
    decreases n
  {
    if n == 0 {
      assert steps[..1][1..] == [];
    } else {
      RunSplits(After(s, grant, steps[0]), grant, steps[1..], n - 1);
      assert steps[..n][1..] == steps[1..][..n - 1] && steps[..n + 1][1..] == steps[1..][..n];
    }
  }

  /** Whoever holds the lock with a passed check has counted under a usable grant. */
  lemma {:induction false} HolderCounted(s: System, grant: Grant, steps: seq<Step>, n: nat)
    requires s.holder.None? && IsRun(s, grant, steps) && n <= |steps|
    ensures IsRun(s, grant, steps[..n])
    ensures var e := EndOf(s, grant, steps[..n]);
            e.holder.Some? && e.phase.Counted? ==> CountedUsable(grant, steps[..n], e.holder.value)
    decreases n
  {
    if n > 0 {
      var step, before := steps[n - 1], steps[..n - 1];
      HolderCounted(s, grant, steps, n - 1);
      RunSplits(s, grant, steps, n - 1);
      var e := EndOf(s, grant, before);
      if step.EnrollCount? {
        AdmittedExactly(Some(grant), step.now, OccupiedIn(e));
        assert steps[..n][n - 1] == step;
      }
      if e.holder.Some? && CountedUsable(grant, before, e.holder.value) {
        var m :| 0 <= m < |before| && before[m].EnrollCount? && before[m].tx == e.holder.value && Usable(grant, before[m].now);
        assert steps[..n][m] == before[m];
      }
    }
  }

  /** In every run an enrollment that commits has counted before, at a time when the grant was neither revoked, nor
      yet to come, nor ended; under a grant that is not usable at any of its times nothing is enrolled. */
  lemma NoEnrollmentUnderDeadGrant(s: System, grant: Grant, steps: seq<Step>, n: nat)
    requires s.holder.None? && IsRun(s, grant, steps) && n < |steps| && steps[n].EnrollCommit?
    ensures CountedUsable(grant, steps[..n], steps[n].tx)
    ensures !grant.revoked
  {
    RunSplits(s, grant, steps, n);
    HolderCounted(s, grant, steps, n);
  }
}
