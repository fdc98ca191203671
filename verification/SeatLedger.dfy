/** The license seat ledger: enrollment, reconciliation, decommission and the drift report. */
module SeatLedger {
  import opened Common

  const DAY: int := 86_400_000_000

  datatype DeviceStatus = ActiveDevice | InactiveDevice | OtherDevice

  datatype Seat = Seat(license: string, device: string, reservedAt: int, releasedAt: Option<int>)

  /** The effective grant row; superseded grants are never effective. */
  datatype Grant = Grant(
    id: string,
    revoked: bool,
    validFrom: int,
    validUntil: Option<int>,
    maxDevices: nat,
    overage: nat,
    graceDays: nat)
  {
    function Capacity(): nat {
      maxDevices + overage
    }
  }

  datatype State = Missing | Revoked | Expired | Grace | Valid

  /** compute_effective_state */
  function EffectiveState(grant: Option<Grant>, now: int): State {
    match grant
    case None => Missing
    case Some(g) =>
      if g.revoked then Revoked
      else if now < g.validFrom then Expired
      else if g.validUntil.None? then Valid
      else if now < g.validUntil.value then Valid
      else if now < g.validUntil.value + g.graceDays * DAY then Grace
      else Expired
  }

  datatype Fleet = Fleet(devices: map<string, DeviceStatus>, seats: seq<Seat>)

  predicate IsActive(devices: map<string, DeviceStatus>, d: string) {
    d in devices && devices[d] == ActiveDevice
  }

  /** An open seat on an active device. */
  predicate Occupies(s: Seat, devices: map<string, DeviceStatus>) {
    s.releasedAt.None? && IsActive(devices, s.device)
  }

  /** count_occupied_seats */
  function Occupied(seats: seq<Seat>, devices: map<string, DeviceStatus>): nat {
    if seats == [] then 0
    else Occupied(seats[..|seats| - 1], devices) + if Occupies(seats[|seats| - 1], devices) then 1 else 0
  }

  ghost predicate HasOpenSeat(seats: seq<Seat>, d: string) {
    exists i :: 0 <= i < |seats| && seats[i].device == d && seats[i].releasedAt.None?
  }

  /** The foreign key of seats and the partial unique index on open seats. */
  ghost predicate WellFormed(f: Fleet) {
    && (forall i :: 0 <= i < |f.seats| ==> f.seats[i].device in f.devices)
    && (forall i, j :: 0 <= i < j < |f.seats| && f.seats[i].releasedAt.None? && f.seats[j].releasedAt.None? ==>
          f.seats[i].device != f.seats[j].device)
  }

  /** Active devices that have no open seat. */
  ghost function Unseated(f: Fleet): set<string> {
    set d | d in f.devices && f.devices[d] == ActiveDevice && !HasOpenSeat(f.seats, d)
  }

  /// ---------------------------------------------------------------------
  /// Counting
  /// ---------------------------------------------------------------------

  lemma {:induction false} OccupiedOfConcat(a: seq<Seat>, b: seq<Seat>, devices: map<string, DeviceStatus>)
    ensures Occupied(a + b, devices) == Occupied(a, devices) + Occupied(b, devices)
  {
    if b == [] {
      assert a + b == a;
    } else {
      assert (a + b)[..|a + b| - 1] == a + b[..|b| - 1];
      OccupiedOfConcat(a, b[..|b| - 1], devices);
    }
  }

  /** Minting a device that no seat names changes no occupancy. */
  lemma {:induction false} OccupiedIgnoresNewDevice(seats: seq<Seat>, devices: map<string, DeviceStatus>, d: string, st: DeviceStatus)
    requires forall i :: 0 <= i < |seats| ==> seats[i].device != d
    ensures Occupied(seats, devices[d := st]) == Occupied(seats, devices)
  {
    if seats != [] {
      OccupiedIgnoresNewDevice(seats[..|seats| - 1], devices, d, st);
    }
  }

  /** Closing seats and retiring devices can only lower the occupancy. */
  lemma {:induction false} OccupiedShrinks(before: seq<Seat>, after: seq<Seat>, devices: map<string, DeviceStatus>, devices': map<string, DeviceStatus>)
    requires |before| == |after|
    requires forall i :: 0 <= i < |after| ==> Occupies(after[i], devices') ==> Occupies(before[i], devices)
    ensures Occupied(after, devices') <= Occupied(before, devices)
  {
    if before != [] {
      OccupiedShrinks(before[..|before| - 1], after[..|after| - 1], devices, devices');
    }
  }

  ghost function ActiveDevices(devices: map<string, DeviceStatus>): set<string> {
    set d | d in devices && devices[d] == ActiveDevice
  }

  ghost function SeatedDevices(seats: seq<Seat>, devices: map<string, DeviceStatus>): set<string> {
    set d | d in devices && devices[d] == ActiveDevice && HasOpenSeat(seats, d)
  }

  /** With one open seat per device, occupied seats and seated active devices are equally many. */
  lemma {:induction false} OccupiedIsSeated(seats: seq<Seat>, devices: map<string, DeviceStatus>)
    requires forall i, j :: 0 <= i < j < |seats| && seats[i].releasedAt.None? && seats[j].releasedAt.None? ==>
                              seats[i].device != seats[j].device
    ensures Occupied(seats, devices) == |SeatedDevices(seats, devices)|
  {
    if seats == [] {
      assert SeatedDevices(seats, devices) == {};
    } else {
      var n := |seats| - 1;
      var rest, s := seats[..n], seats[n];
      OccupiedIsSeated(rest, devices);
      forall d ensures HasOpenSeat(seats, d) <==> HasOpenSeat(rest, d) || (s.device == d && s.releasedAt.None?) {
        if HasOpenSeat(rest, d) {
          var i :| 0 <= i < n && rest[i].device == d && rest[i].releasedAt.None?;
          assert seats[i] == rest[i];
        }
      }
      if Occupies(s, devices) {
        assert !HasOpenSeat(rest, s.device);
        assert SeatedDevices(seats, devices) == SeatedDevices(rest, devices) + {s.device};
      } else {
        assert SeatedDevices(seats, devices) == SeatedDevices(rest, devices);
      }
    }
  }

  /// ---------------------------------------------------------------------
  /// Specifications of the operations
  /// ---------------------------------------------------------------------

  datatype Denial = LicenseMissing | LicenseRevoked | LicenseExpired | SeatLimit

  datatype Decision = Allowed(occupied: nat, inGrace: bool) | Denied(code: Denial)

  /** Whether an enrollment is admitted, given the occupancy it counted. */
  function Admission(grant: Option<Grant>, now: int, occupied: nat): Decision {
    match EffectiveState(grant, now)
    case Missing => Denied(LicenseMissing)
    case Revoked => Denied(LicenseRevoked)
    case Expired => Denied(LicenseExpired)
    case st =>
      if occupied >= grant.value.Capacity() then Denied(SeatLimit) else Allowed(occupied + 1, st == Grace)
  }

  /** The grant is neither revoked, nor yet to come, nor ended, days of grace included. */
  predicate Usable(g: Grant, now: int) {
    !g.revoked && g.validFrom <= now && (g.validUntil.None? || now < g.validUntil.value + g.graceDays * DAY)
  }

  /** An enrollment is admitted exactly when there is a usable grant and a place is free; it is reported as in grace
      exactly when the validity proper is over; and each denial has its one reason. */
  lemma AdmittedExactly(grant: Option<Grant>, now: int, occupied: nat)
    ensures var d := Admission(grant, now, occupied);
            && (d.Allowed? <==> grant.Some? && Usable(grant.value, now) && occupied < grant.value.maxDevices + grant.value.overage)
            && (d.Allowed? ==>
                  && d.occupied == occupied + 1
                  && (d.inGrace <==> grant.value.validUntil.Some? && grant.value.validUntil.value <= now))
            && (d == Denied(LicenseMissing) <==> grant.None?)
            && (d == Denied(LicenseRevoked) <==> grant.Some? && grant.value.revoked)
            && (d == Denied(LicenseExpired) <==>
                  && grant.Some? && !grant.value.revoked
                  && (|| now < grant.value.validFrom
                      || (grant.value.validUntil.Some? && grant.value.validUntil.value + grant.value.graceDays * DAY <= now)))
            && (d == Denied(SeatLimit) <==>
                  grant.Some? && Usable(grant.value, now) && grant.value.maxDevices + grant.value.overage <= occupied)
  {
  }

  function Enrolled(f: Fleet, license: string, d: string, now: int): Fleet {
    Fleet(f.devices[d := ActiveDevice], f.seats + [Seat(license, d, now, None)])
  }

  /** Seats were appended, one open seat under the grant for each of the devices. */
  ghost predicate SeatsAdded(before: seq<Seat>, after: seq<Seat>, license: string, devices: set<string>, now: int) {
    && |after| == |before| + |devices|
    && after[..|before|] == before
    && (forall i :: |before| <= i < |after| ==> after[i] == Seat(license, after[i].device, now, None) && after[i].device in devices)
    && (forall i, j :: |before| <= i < j < |after| ==> after[i].device != after[j].device)
  }

  datatype Retirement = NotFound | AlreadyInactive | InvalidTransition | Retired(seatReleased: bool)

  /** The seats after closing the open seat of a device. */
  function Closed(seats: seq<Seat>, d: string, now: int): seq<Seat> {
    seq(|seats|, i requires 0 <= i < |seats| =>
      if seats[i].device == d && seats[i].releasedAt.None? then seats[i].(releasedAt := Some(now)) else seats[i])
  }

  ghost function Decommissioned(f: Fleet, d: string, now: int): (Fleet, Retirement) {
    if d !in f.devices then (f, NotFound)
    else if f.devices[d] == InactiveDevice then (f, AlreadyInactive)
    else if f.devices[d] != ActiveDevice then (f, InvalidTransition)
    else (Fleet(f.devices[d := InactiveDevice], Closed(f.seats, d, now)), Retired(HasOpenSeat(f.seats, d)))
  }

  /** Enrolling adds the device, active, and one open seat for it under the grant from now on. */
  lemma EnrollsOne(f: Fleet, license: string, d: string, now: int)
    ensures Enrolled(f, license, d, now).devices == f.devices[d := ActiveDevice]
    ensures Enrolled(f, license, d, now).seats == f.seats + [Seat(license, d, now, None)]
  {
  }

  /** Decommissioning: an active device becomes inactive and its open seats end now; any other device stays as it is,
      with an answer that says why; nothing else changes. */
  lemma DecommissionsExactly(f: Fleet, d: string, now: int)
    ensures var (f', r) := Decommissioned(f, d, now);
            && (r == NotFound <==> d !in f.devices)
            && (r == AlreadyInactive <==> d in f.devices && f.devices[d] == InactiveDevice)
            && (r == InvalidTransition <==> d in f.devices && f.devices[d] == OtherDevice)
            && (r == Retired(true) <==> d in f.devices && f.devices[d] == ActiveDevice && HasOpenSeat(f.seats, d))
            && (r == Retired(false) <==> d in f.devices && f.devices[d] == ActiveDevice && !HasOpenSeat(f.seats, d))
            && f'.devices == (if r.Retired? then f.devices[d := InactiveDevice] else f.devices)
            && |f'.seats| == |f.seats|
            && forall i :: 0 <= i < |f.seats| ==>
                 f'.seats[i] == if r.Retired? && f.seats[i].device == d && f.seats[i].releasedAt == None
                                then f.seats[i].(releasedAt := Some(now)) else f.seats[i]
  {
  }

  /// ---------------------------------------------------------------------
  /// The drift report
  /// ---------------------------------------------------------------------

  datatype Finding =
    | CurrentGrantMissing
    | OverCapacity
    | ActiveDeviceWithoutSeat(device: string)
    | InactiveDeviceWithSeat(seat: nat)
    | SeatUnderNoncurrentGrant(seat: nat)
    | OccupiedMappingMismatch

  ghost predicate IsFinding(f: Fleet, grant: Option<Grant>, x: Finding) {
    match x
    case CurrentGrantMissing => grant.None?
    case OverCapacity => grant.Some? && Occupied(f.seats, f.devices) > grant.value.Capacity()
    case ActiveDeviceWithoutSeat(d) => d in Unseated(f)
    case InactiveDeviceWithSeat(i) => i < |f.seats| && f.seats[i].releasedAt.None? && !IsActive(f.devices, f.seats[i].device)
    case SeatUnderNoncurrentGrant(i) =>
      grant.Some? && i < |f.seats| && f.seats[i].releasedAt.None? && f.seats[i].license != grant.value.id
    case OccupiedMappingMismatch => Occupied(f.seats, f.devices) != |ActiveDevices(f.devices)|
  }

  /** Each open seat is on an active device, no two on the same one, and each active device has one. */
  ghost predicate SeatsMatchDevices(f: Fleet) {
    && (forall i :: 0 <= i < |f.seats| && f.seats[i].releasedAt.None? ==> IsActive(f.devices, f.seats[i].device))
    && (forall i, j :: 0 <= i < j < |f.seats| && f.seats[i].releasedAt.None? && f.seats[j].releasedAt.None? ==>
          f.seats[i].device != f.seats[j].device)
    && (forall d :: IsActive(f.devices, d) ==> HasOpenSeat(f.seats, d))
  }

  /** What each finding says of devices, seats and grant. */
  lemma FindingsMean(f: Fleet, grant: Option<Grant>, d: string, i: nat)
    ensures IsFinding(f, grant, CurrentGrantMissing) <==> grant == None
    ensures IsFinding(f, grant, OverCapacity) <==>
            grant.Some? && Occupied(f.seats, f.devices) > grant.value.maxDevices + grant.value.overage
    ensures IsFinding(f, grant, ActiveDeviceWithoutSeat(d)) <==>
            && d in f.devices && f.devices[d] == ActiveDevice
            && forall j :: 0 <= j < |f.seats| && f.seats[j].device == d ==> f.seats[j].releasedAt.Some?
    ensures IsFinding(f, grant, InactiveDeviceWithSeat(i)) <==>
            && i < |f.seats| && f.seats[i].releasedAt == None
            && (f.seats[i].device !in f.devices || f.devices[f.seats[i].device] != ActiveDevice)
    ensures IsFinding(f, grant, SeatUnderNoncurrentGrant(i)) <==>
            grant.Some? && i < |f.seats| && f.seats[i].releasedAt == None && f.seats[i].license != grant.value.id
    ensures IsFinding(f, grant, OccupiedMappingMismatch) <==>
            Occupied(f.seats, f.devices) != |set x | x in f.devices && f.devices[x] == ActiveDevice|
  {
    assert ActiveDevices(f.devices) == set x | x in f.devices && f.devices[x] == ActiveDevice;
  }

  /** The report is empty exactly when there is an effective grant, open seats and active devices are in
      bijection, every open seat is under that grant, and the occupancy is within its capacity. */
  lemma ReportIsSoundAndComplete(f: Fleet, grant: Option<Grant>)
    requires WellFormed(f)
    ensures (forall x :: !IsFinding(f, grant, x)) <==>
            && grant.Some?
            && SeatsMatchDevices(f)
            && (forall i :: 0 <= i < |f.seats| && f.seats[i].releasedAt.None? ==> f.seats[i].license == grant.value.id)
            && Occupied(f.seats, f.devices) <= grant.value.Capacity()
  {
    if forall x :: !IsFinding(f, grant, x) {
      assert !IsFinding(f, grant, CurrentGrantMissing) && !IsFinding(f, grant, OverCapacity);
      forall i | 0 <= i < |f.seats| && f.seats[i].releasedAt.None?
        ensures IsActive(f.devices, f.seats[i].device) && f.seats[i].license == grant.value.id
      {
        assert !IsFinding(f, grant, InactiveDeviceWithSeat(i));
        assert !IsFinding(f, grant, SeatUnderNoncurrentGrant(i));
      }
      forall d | IsActive(f.devices, d) ensures HasOpenSeat(f.seats, d) {
        assert !IsFinding(f, grant, ActiveDeviceWithoutSeat(d));
      }
    } else if SeatsMatchDevices(f) {
      OccupiedIsSeated(f.seats, f.devices);
      assert SeatedDevices(f.seats, f.devices) == ActiveDevices(f.devices);
    }
  }

  /// ---------------------------------------------------------------------
  /// The methods
  /// ---------------------------------------------------------------------

  class Ledger {
    var devices: map<string, DeviceStatus>
    var seats: seq<Seat>
    var grant: Option<Grant>

    constructor (grant: Option<Grant>)
      ensures this.grant == grant && devices == map[] && seats == []
    {
      this.grant, devices, seats := grant, map[], [];
    }

    function Snapshot(): Fleet
      reads this
    {
      Fleet(devices, seats)
    }

    method CountOccupied() returns (n: nat)
      ensures n == Occupied(seats, devices)
    {
      n := 0;
      for i := 0 to |seats|
        invariant n == Occupied(seats[..i], devices)
      {
        assert seats[..i + 1][..i] == seats[..i];
        if seats[i].releasedAt.None? && seats[i].device in devices && devices[seats[i].device] == ActiveDevice {
          n := n + 1;
        }
      }
      assert seats[..|seats|] == seats;
    }

    /** Add a device and its open seat. */
    method Enroll(license: string, d: string, now: int)
      modifies this`devices, this`seats
      ensures Snapshot() == Enrolled(old(Snapshot()), license, d, now)
    {
      devices := devices[d := ActiveDevice];
      seats := seats + [Seat(license, d, now, None)];
    }

    /** The enrollment choke-point; d is the identifier the device factory mints. */
    method AuthorizeAndReserve(d: string, now: int) returns (decision: Decision)
      requires WellFormed(Snapshot()) && d !in devices
      modifies this`devices, this`seats
      ensures decision == Admission(grant, now, Occupied(old(seats), old(devices)))
      ensures Snapshot() == if decision.Allowed? then Enrolled(old(Snapshot()), grant.value.id, d, now) else old(Snapshot())
      ensures decision.Allowed? ==> WellFormed(Snapshot()) && Occupied(seats, devices) <= grant.value.Capacity()
      ensures decision.Allowed? <==>
                && grant.Some? && Usable(grant.value, now)
                && Occupied(old(seats), old(devices)) < grant.value.maxDevices + grant.value.overage
    {
      AdmittedExactly(grant, now, Occupied(seats, devices));
      var st := EffectiveState(grant, now);
      if st == Missing {
        return Denied(LicenseMissing);
      }
      if st == Revoked {
        return Denied(LicenseRevoked);
      }
      if st == Expired {
        return Denied(LicenseExpired);
      }
      var occupied := CountOccupied();
      var capacity := grant.value.Capacity();
      if occupied >= capacity {
        return Denied(SeatLimit);
      }
      ghost var fleet := Snapshot();
      EnrollmentCounts(fleet, grant.value.id, d, now);
      Enroll(grant.value.id, d, now);
      assert Snapshot() == Enrolled(fleet, grant.value.id, d, now);
      decision := Allowed(occupied + 1, st == Grace);
    }

    /** Grandfather the fleet: one open seat for every active device that has none. */
    method ReconcileExistingFleet(now: int) returns (created: nat, overage: bool)
      requires WellFormed(Snapshot())
      modifies this`seats
      ensures grant.None? ==> seats == old(seats) && created == 0 && !overage
      ensures grant.Some? ==> SeatsAdded(old(seats), seats, grant.value.id, Unseated(old(Snapshot())), now)
      ensures grant.Some? ==> created == |Unseated(old(Snapshot()))|
      ensures grant.Some? ==> (overage <==> Occupied(seats, devices) > grant.value.Capacity())
      ensures grant.Some? ==> Unseated(Snapshot()) == {}
      ensures WellFormed(Snapshot())
    {
      if grant.None? {
        return 0, false;
      }
      var missing := QueryUnseated();
      created := SeatAll(missing, grant.value.id, now);
      SeatedAfterReconcile(old(Snapshot()), Snapshot(), grant.value.id, now);
      var occupied := CountOccupied();
      overage := occupied > grant.value.Capacity();
    }

    /** The outer join of active devices with open seats, where the seat is missing. */
    method QueryUnseated() returns (missing: set<string>)
      ensures missing == Unseated(Snapshot())
    {
      missing := set d | d in devices && devices[d] == ActiveDevice &&
                         forall i :: 0 <= i < |seats| ==> !(seats[i].device == d && seats[i].releasedAt.None?);
    }

    /** Insert one open seat per device, in any order. */
    method SeatAll(missing: set<string>, license: string, now: int) returns (created: nat)
      modifies this`seats
      ensures SeatsAdded(old(seats), seats, license, missing, now) && created == |missing|
    {
      var todo := missing;
      created := 0;
      while todo != {}
        invariant todo <= missing && created == |missing - todo|
        invariant SeatsAdded(old(seats), seats, license, missing - todo, now)
        decreases todo
      {
        var d :| d in todo;
        assert missing - (todo - {d}) == (missing - todo) + {d};
        seats := seats + [Seat(license, d, now, None)];
        created := created + 1;
        todo := todo - {d};
      }
      assert missing - todo == missing;
    }

    /** Retire a device and release its open seat. */
    method DecommissionDevice(d: string, now: int) returns (r: Retirement)
      requires WellFormed(Snapshot())
      modifies this`devices, this`seats
      ensures (Snapshot(), r) == Decommissioned(old(Snapshot()), d, now)
      ensures WellFormed(Snapshot())
    {
      if d !in devices {
        return NotFound;
      }
      if devices[d] == InactiveDevice {
        return AlreadyInactive;
      }
      if devices[d] != ActiveDevice {
        return InvalidTransition;
      }
      devices := devices[d := InactiveDevice];
      var released := false;
      for i := 0 to |seats|
        invariant devices == old(devices)[d := InactiveDevice] && |seats| == |old(seats)|
        invariant !released ==> seats == old(seats) && forall j :: 0 <= j < i ==> !(seats[j].device == d && seats[j].releasedAt.None?)
        invariant released ==> seats == Closed(old(seats), d, now) && HasOpenSeat(old(seats), d)
      {
        if !released && seats[i].device == d && seats[i].releasedAt.None? {
          seats := seats[i := seats[i].(releasedAt := Some(now))];
          released := true;
          assert seats == Closed(old(seats), d, now);
        }
      }
      assert !released ==> seats == Closed(old(seats), d, now);
      r := Retired(released);
    }

    /** The read-only drift report: the findings of each check in turn. */
    method GetReconciliationReport() returns (findings: seq<Finding>)
      requires WellFormed(Snapshot())
      ensures forall x :: x in findings <==> IsFinding(Snapshot(), grant, x)
    {
      var occupied := CountOccupied();
      var heads := [];
      if grant.None? {
        heads := heads + [CurrentGrantMissing];
      }
      if grant.Some? && occupied > grant.value.Capacity() {
        heads := heads + [OverCapacity];
      }
      var unseated := UnseatedFindings();
      var seatwise := SeatFindings();
      var active := set d | d in devices && devices[d] == ActiveDevice;
      assert active == ActiveDevices(devices);
      findings := heads + unseated + seatwise;
      if |active| != occupied {
        findings := findings + [OccupiedMappingMismatch];
      }
    }

    method UnseatedFindings() returns (findings: seq<Finding>)
      ensures forall x :: x in findings <==> x.ActiveDeviceWithoutSeat? && x.device in Unseated(Snapshot())
    {
      var unseated := QueryUnseated();
      var todo := unseated;
      findings := [];
      while todo != {}
        invariant todo <= unseated
        invariant forall x :: x in findings <==> x.ActiveDeviceWithoutSeat? && x.device in unseated - todo
        decreases todo
      {
        var d :| d in todo;
        findings := findings + [ActiveDeviceWithoutSeat(d)];
        todo := todo - {d};
      }
    }

    method SeatFindings() returns (findings: seq<Finding>)
      ensures forall x :: x in findings <==>
                            (x.InactiveDeviceWithSeat? || x.SeatUnderNoncurrentGrant?) && IsFinding(Snapshot(), grant, x)
    {
      findings := [];
      for i := 0 to |seats|
        invariant forall x :: x in findings <==>
                                (x.InactiveDeviceWithSeat? || x.SeatUnderNoncurrentGrant?) && x.seat < i && IsFinding(Snapshot(), grant, x)
      {
        if seats[i].releasedAt.None? && !IsActive(devices, seats[i].device) {
          findings := findings + [InactiveDeviceWithSeat(i)];
        }
        if grant.Some? && seats[i].releasedAt.None? && seats[i].license != grant.value.id {
          findings := findings + [SeatUnderNoncurrentGrant(i)];
        }
      }
    }
  }

  /** A new device with a new seat is well-formed and takes exactly one place. */
  lemma EnrollmentCounts(f: Fleet, license: string, d: string, now: int)
    requires WellFormed(f) && d !in f.devices
    ensures var f' := Enrolled(f, license, d, now);
            WellFormed(f') && Occupied(f'.seats, f'.devices) == Occupied(f.seats, f.devices) + 1
  {
    var f' := Enrolled(f, license, d, now);
    var seat := Seat(license, d, now, None);
    OccupiedIgnoresNewDevice(f.seats, f.devices, d, ActiveDevice);
    OccupiedOfConcat(f.seats, [seat], f'.devices);
    assert [seat][..0] == [];
    assert Occupies(seat, f'.devices);
  }

  /** After reconciliation every active device is seated, still by one open seat each. */
  lemma SeatedAfterReconcile(f: Fleet, f': Fleet, license: string, now: int)
    requires WellFormed(f) && f'.devices == f.devices
    requires SeatsAdded(f.seats, f'.seats, license, Unseated(f), now)
    ensures WellFormed(f') && Unseated(f') == {}
  {
    var n := |f.seats|;
    assert forall i :: 0 <= i < n ==> f'.seats[i] == f'.seats[..n][i];
    var added := set i | n <= i < |f'.seats| :: f'.seats[i].device;
    AddedDevicesAreAll(f'.seats, n, Unseated(f));
    forall d | IsActive(f'.devices, d) ensures HasOpenSeat(f'.seats, d) {
      if HasOpenSeat(f.seats, d) {
        var i :| 0 <= i < n && f.seats[i].device == d && f.seats[i].releasedAt.None?;
        assert f'.seats[i] == f.seats[i];
      } else {
        assert d in Unseated(f);
        var i :| n <= i < |f'.seats| && f'.seats[i].device == d;
      }
    }
  }

  /** As many distinct devices from a set as the set has cover the set. */
  lemma {:induction false} AddedDevicesAreAll(seats: seq<Seat>, n: nat, devices: set<string>)
    requires n <= |seats| == n + |devices|
    requires forall i :: n <= i < |seats| ==> seats[i].device in devices
    requires forall i, j :: n <= i < j < |seats| ==> seats[i].device != seats[j].device
    ensures forall d :: d in devices ==> exists i :: n <= i < |seats| && seats[i].device == d
    decreases |devices|
  {
    if devices != {} {
      var m := |seats| - 1;
      var last := seats[m].device;
      AddedDevicesAreAll(seats[..m], n, devices - {last});
      forall d | d in devices ensures exists i :: n <= i < |seats| && seats[i].device == d {
        if d != last {
          assert d in devices - {last};
          var i :| n <= i < m && seats[..m][i].device == d;
          assert seats[i].device == d;
        }
      }
    }
  }

  /** Reconciling twice seats nobody the second time. */
  lemma SecondReconcileAddsNothing(f: Fleet, f': Fleet, f'': Fleet, license: string, now: int, later: int)
    requires WellFormed(f) && f'.devices == f.devices
    requires SeatsAdded(f.seats, f'.seats, license, Unseated(f), now)
    requires SeatsAdded(f'.seats, f''.seats, license, Unseated(f'), later)
    ensures f''.seats == f'.seats
  {
    SeatedAfterReconcile(f, f', license, now);
    assert f''.seats[..|f'.seats|] == f''.seats;
  }
}
