/** Generating the delivery manifests of a campaign, one per device, at most once per manifest id. */
module ManifestGeneration {
  import opened Common
  import opened ManifestIds
  import opened DeliveryTargets

  datatype ManifestStatus = Planned | Generated | Failed

  datatype Manifest = Manifest(id: Digest, campaign: string, device: string, version: nat, surfaces: seq<string>, status: ManifestStatus)

  datatype Plan = Plan(campaign: string, hash: Digest)

  /** Outbox rows: a manifest was generated, or generation failed for a device or found no target at all. */
  datatype Notice =
    | ManifestGenerated(id: Digest, campaign: string, device: string, version: nat)
    | ManifestFailed(campaign: string, failedDevice: Option<string>)

  /** The tables, rows in creation order. */
  datatype Ledger = Ledger(manifests: seq<Manifest>, plans: seq<Plan>, outbox: seq<Notice>)

  /** How building one manifest goes: an exception caught per device before or after the row was added, which leaves
      the transaction usable, such as one of the object store; and one that escapes, such as an error of the
      database, after which the failure cannot be marked either. */
  datatype Attempt = Fine | FailsBefore | FailsAfter | Crashes

  /** What a generation run left behind, the manifests it made and whether an exception escaped. */
  datatype Outcome = Outcome(ledger: Ledger, made: nat, raised: bool)

  predicate HasId(ms: seq<Manifest>, id: Digest) {
    exists m :: m in ms && m.id == id
  }

  /** The greatest version of a device's manifests, 0 if it has none. */
  function MaxVersion(ms: seq<Manifest>, device: string): nat {
    if ms == [] then 0
    else
      var m := ms[|ms| - 1];
      var rest := MaxVersion(ms[..|ms| - 1], device);
      if m.device == device then Max(m.version, rest) else rest
  }

  function NextVersion(ms: seq<Manifest>, device: string): nat {
    MaxVersion(ms, device) + 1
  }

  /** UPDATE ... SET status WHERE manifest_id = id AND status IN (from). */
  function Marked(ms: seq<Manifest>, id: Digest, from: set<ManifestStatus>, status: ManifestStatus): seq<Manifest> {
    seq(|ms|, i requires 0 <= i < |ms| => if ms[i].id == id && ms[i].status in from then ms[i].(status := status) else ms[i])
  }

  function IdFor(c: Content, g: Group): Digest {
    ManifestId(c, Sort(g.surfaces), g.device)
  }

  function NewManifest(l: Ledger, c: Content, g: Group, status: ManifestStatus): Manifest {
    Manifest(IdFor(c, g), c.id, g.device, NextVersion(l.manifests, g.device), Sort(g.surfaces), status)
  }

  /// ---------------------------------------------------------------------
  /// Specification
  /// ---------------------------------------------------------------------

  /** One device: an existing id is skipped; otherwise a manifest and its announcement appear together,
      or the failure is recorded. */
  function ForDevice(l: Ledger, c: Content, g: Group, attempt: Attempt): Outcome {
    if HasId(l.manifests, IdFor(c, g)) then Outcome(l, 0, false)
    else
      match attempt
      case Fine =>
        var m := NewManifest(l, c, g, Generated);
        Outcome(l.(manifests := l.manifests + [m], outbox := l.outbox + [ManifestGenerated(m.id, c.id, g.device, m.version)]), 1, false)
      case FailsBefore =>
        Outcome(l.(outbox := l.outbox + [ManifestFailed(c.id, Some(g.device))]), 0, false)
      case FailsAfter =>
        Outcome(l.(manifests := l.manifests + [NewManifest(l, c, g, Failed)], outbox := l.outbox + [ManifestFailed(c.id, Some(g.device))]), 0, false)
      case Crashes =>
        Outcome(l.(manifests := l.manifests + [NewManifest(l, c, g, Planned)]), 0, true)
  }

  /** The devices in turn, up to an exception that escapes. */
  function ForDevices(l: Ledger, c: Content, groups: seq<Group>, attempts: string -> Attempt): Outcome {
    if groups == [] then Outcome(l, 0, false)
    else
      var last := groups[|groups| - 1];
      var before := ForDevices(l, c, groups[..|groups| - 1], attempts);
      if before.raised then before
      else
        var now := ForDevice(before.ledger, c, last, attempts(last.device));
        now.(made := before.made + now.made)
  }

  function Generate(l: Ledger, c: Content, eligible: bool, groups: seq<Group>, attempts: string -> Attempt): Outcome {
    if !eligible then Outcome(l, 0, false)
    else if groups == [] then Outcome(l.(outbox := l.outbox + [ManifestFailed(c.id, None)]), 0, false)
    else
      var o := ForDevices(l, c, groups, attempts);
      if o.raised || o.made == 0 then o
      else o.(ledger := o.ledger.(plans := o.ledger.plans + [Plan(c.id, VersionHash(c))]))
  }

  /// ---------------------------------------------------------------------
  /// The code
  /// ---------------------------------------------------------------------

  lemma MarkedLast(ms: seq<Manifest>, m: Manifest, from: set<ManifestStatus>, status: ManifestStatus)
    requires !HasId(ms, m.id) && m.status in from
    ensures Marked(ms + [m], m.id, from, status) == ms + [m.(status := status)]
  {
  }

  lemma MarkedNone(ms: seq<Manifest>, id: Digest, from: set<ManifestStatus>, status: ManifestStatus)
    requires !HasId(ms, id)
    ensures Marked(ms, id, from, status) == ms
  {
    var r := Marked(ms, id, from, status);
    forall i | 0 <= i < |ms| ensures r[i] == ms[i] {
      assert ms[i] in ms;
    }
  }

  lemma OneMoreDevice(l: Ledger, c: Content, groups: seq<Group>, attempts: string -> Attempt, n: nat)
    requires n < |groups| && !ForDevices(l, c, groups[..n], attempts).raised
    ensures var before := ForDevices(l, c, groups[..n], attempts);
            var now := ForDevice(before.ledger, c, groups[n], attempts(groups[n].device));
            ForDevices(l, c, groups[..n + 1], attempts) == now.(made := before.made + now.made)
  {
    assert groups[..n + 1][..n] == groups[..n];
  }

  lemma {:induction false} RaisedStays(l: Ledger, c: Content, groups: seq<Group>, attempts: string -> Attempt, n: nat)
    requires n <= |groups| && ForDevices(l, c, groups[..n], attempts).raised
    ensures ForDevices(l, c, groups, attempts) == ForDevices(l, c, groups[..n], attempts)
    decreases |groups|
  {
    if n == |groups| {
      assert groups[..n] == groups;
    } else {
      assert groups[..|groups| - 1][..n] == groups[..n];
      RaisedStays(l, c, groups[..|groups| - 1], attempts, n);
    }
  }

  /** A database session. */
  class Session {
    var manifests: seq<Manifest>
    var plans: seq<Plan>
    var outbox: seq<Notice>

    constructor (l: Ledger)
      ensures State() == l
    {
      manifests, plans, outbox := l.manifests, l.plans, l.outbox;
    }

    function State(): Ledger
      reads this
    {
      Ledger(manifests, plans, outbox)
    }

    /** The body of the loop over devices: skip a known id, else build, record, mark and announce. */
    method GenerateForDevice(c: Content, g: Group, attempt: Attempt) returns (made: nat, raised: bool)
      modifies this
      ensures Outcome(State(), made, raised) == ForDevice(old(State()), c, g, attempt)
    {
      made, raised := 0, false;
      var id := ManifestId(c, Sort(g.surfaces), g.device);
      if HasId(manifests, id) {
        return;
      }
      var version := NextVersion(manifests, g.device);
      ghost var was := manifests;
      if attempt != FailsBefore {
        var m := Manifest(id, c.id, g.device, version, Sort(g.surfaces), Planned);
        manifests := manifests + [m];
        if attempt == Crashes {
          return 0, true;
        }
        MarkedLast(was, m, {Planned}, Generated);
        MarkedLast(was, m, {Planned, Generated}, Failed);
      }
      if attempt == Fine {
        manifests := Marked(manifests, id, {Planned}, Generated);
        outbox := outbox + [ManifestGenerated(id, c.id, g.device, version)];
        made := 1;
      } else {
        MarkedNone(was, id, {Planned, Generated}, Failed);
        manifests := Marked(manifests, id, {Planned, Generated}, Failed);
        outbox := outbox + [ManifestFailed(c.id, Some(g.device))];
      }
    }

    /** generate_manifests_for_campaign, on the targets resolved; whether the campaign is eligible is an input. */
    method GenerateManifests(c: Content, eligible: bool, groups: seq<Group>, attempts: string -> Attempt) returns (made: nat, raised: bool)
      modifies this
      ensures Outcome(State(), made, raised) == Generate(old(State()), c, eligible, groups, attempts)
    {
      made, raised := 0, false;
      if !eligible {
        return;
      }
      if groups == [] {
        outbox := outbox + [ManifestFailed(c.id, None)];
        return;
      }
      var n := 0;
      while n < |groups|
        invariant 0 <= n <= |groups| && !raised
        invariant Outcome(State(), made, raised) == ForDevices(old(State()), c, groups[..n], attempts)
      {
        OneMoreDevice(old(State()), c, groups, attempts, n);
        var new', raised' := GenerateForDevice(c, groups[n], attempts(groups[n].device));
        made := made + new';
        if raised' {
          RaisedStays(old(State()), c, groups, attempts, n + 1);
          return made, true;
        }
        n := n + 1;
      }
      assert groups[..n] == groups;
      if made > 0 {
        plans := plans + [Plan(c.id, VersionHash(c))];
      }
    }
  }

  /// ---------------------------------------------------------------------
  /// Invariants of the tables
  /// ---------------------------------------------------------------------

  ghost predicate UniqueIds(ms: seq<Manifest>) {
    forall i, j :: 0 <= i < j < |ms| ==> ms[i].id != ms[j].id
  }

  /** The versions of a device's manifests, in creation order. */
  function VersionsOf(ms: seq<Manifest>, device: string): seq<nat> {
    if ms == [] then []
    else
      var m := ms[|ms| - 1];
      VersionsOf(ms[..|ms| - 1], device) + if m.device == device then [m.version] else []
  }

  /** 1, 2, 3, ... */
  ghost predicate CountsUp(s: seq<nat>) {
    forall i :: 0 <= i < |s| ==> s[i] == i + 1
  }

  ghost predicate VersionsCountUp(ms: seq<Manifest>) {
    forall d :: CountsUp(VersionsOf(ms, d))
  }

  function Announcements(outbox: seq<Notice>): seq<Notice> {
    if outbox == [] then []
    else
      var n := outbox[|outbox| - 1];
      Announcements(outbox[..|outbox| - 1]) + if n.ManifestGenerated? then [n] else []
  }

  function Announced(ms: seq<Manifest>): seq<Notice> {
    if ms == [] then []
    else
      var m := ms[|ms| - 1];
      Announced(ms[..|ms| - 1]) + if m.status == Generated then [ManifestGenerated(m.id, m.campaign, m.device, m.version)] else []
  }

  /** No id twice; every device's versions are 1, 2, 3, ... in creation order; and the manifests generated
      are announced once each, in order. */
  ghost predicate Consistent(l: Ledger) {
    UniqueIds(l.manifests) && VersionsCountUp(l.manifests) && Announcements(l.outbox) == Announced(l.manifests)
  }

  lemma {:induction false} MaxIsCount(ms: seq<Manifest>, device: string)
    requires CountsUp(VersionsOf(ms, device))
    ensures MaxVersion(ms, device) == |VersionsOf(ms, device)|
  {
    if ms != [] {
      var rest := ms[..|ms| - 1];
      var all, before := VersionsOf(ms, device), VersionsOf(rest, device);
      assert forall i :: 0 <= i < |before| ==> before[i] == all[i];
      MaxIsCount(rest, device);
      var m := ms[|ms| - 1];
      if m.device == device {
        assert all == before + [m.version] && all[|before|] == m.version;
      }
    }
  }

  lemma AddedIsUnique(ms: seq<Manifest>, m: Manifest)
    requires UniqueIds(ms) && !HasId(ms, m.id)
    ensures UniqueIds(ms + [m])
  {
    forall i | 0 <= i < |ms| ensures ms[i].id != m.id {
      assert ms[i] in ms;
    }
  }

  lemma AddedVersionCountsUp(ms: seq<Manifest>, m: Manifest)
    requires VersionsCountUp(ms) && m.version == NextVersion(ms, m.device)
    ensures VersionsCountUp(ms + [m])
  {
    assert (ms + [m])[..|ms|] == ms;
    forall d ensures CountsUp(VersionsOf(ms + [m], d)) {
      assert CountsUp(VersionsOf(ms, d));
      MaxIsCount(ms, d);
    }
  }

  lemma AddedIsAnnounced(l: Ledger, m: Manifest, n: Notice)
    requires Announcements(l.outbox) == Announced(l.manifests)
    requires m.status == Generated ==> n == ManifestGenerated(m.id, m.campaign, m.device, m.version)
    requires m.status != Generated ==> n.ManifestFailed?
    ensures Announcements(l.outbox + [n]) == Announced(l.manifests + [m])
    ensures m.status != Generated ==> Announcements(l.outbox) == Announced(l.manifests + [m])
  {
    assert (l.outbox + [n])[..|l.outbox|] == l.outbox;
    assert (l.manifests + [m])[..|l.manifests|] == l.manifests;
  }

  lemma FailureIsNoAnnouncement(outbox: seq<Notice>, n: Notice)
    requires n.ManifestFailed?
    ensures Announcements(outbox + [n]) == Announcements(outbox)
  {
    assert (outbox + [n])[..|outbox|] == outbox;
  }

  lemma AddedKeepsConsistent(l: Ledger, m: Manifest, n: Notice)
    requires Consistent(l) && !HasId(l.manifests, m.id) && m.version == NextVersion(l.manifests, m.device)
    requires m.status == Generated ==> n == ManifestGenerated(m.id, m.campaign, m.device, m.version)
    requires m.status != Generated ==> n.ManifestFailed?
    ensures Consistent(Ledger(l.manifests + [m], l.plans, l.outbox + [n]))
    ensures m.status != Generated ==> Consistent(Ledger(l.manifests + [m], l.plans, l.outbox))
  {
    AddedIsUnique(l.manifests, m);
    AddedVersionCountsUp(l.manifests, m);
    AddedIsAnnounced(l, m, n);
  }

  lemma ForDeviceKeepsConsistent(l: Ledger, c: Content, g: Group, attempt: Attempt)
    requires Consistent(l)
    ensures Consistent(ForDevice(l, c, g, attempt).ledger)
  {
    if !HasId(l.manifests, IdFor(c, g)) {
      var failed := ManifestFailed(c.id, Some(g.device));
      match attempt
      case Fine =>
        var m := NewManifest(l, c, g, Generated);
        AddedKeepsConsistent(l, m, ManifestGenerated(m.id, c.id, g.device, m.version));
      case FailsBefore => FailureIsNoAnnouncement(l.outbox, failed);
      case FailsAfter => AddedKeepsConsistent(l, NewManifest(l, c, g, Failed), failed);
      case Crashes => AddedKeepsConsistent(l, NewManifest(l, c, g, Planned), failed);
    }
  }

  lemma {:induction false} ForDevicesKeepsConsistent(l: Ledger, c: Content, groups: seq<Group>, attempts: string -> Attempt)
    requires Consistent(l)
    ensures Consistent(ForDevices(l, c, groups, attempts).ledger)
  {
    if groups != [] {
      var last, rest := groups[|groups| - 1], groups[..|groups| - 1];
      ForDevicesKeepsConsistent(l, c, rest, attempts);
      ForDeviceKeepsConsistent(ForDevices(l, c, rest, attempts).ledger, c, last, attempts(last.device));
    }
  }

  lemma GenerateKeepsConsistent(l: Ledger, c: Content, eligible: bool, groups: seq<Group>, attempts: string -> Attempt)
    requires Consistent(l)
    ensures Consistent(Generate(l, c, eligible, groups, attempts).ledger)
  {
    ForDevicesKeepsConsistent(l, c, groups, attempts);
    FailureIsNoAnnouncement(l.outbox, ManifestFailed(c.id, None));
  }

  /// ---------------------------------------------------------------------
  /// Once is enough
  /// ---------------------------------------------------------------------

  ghost predicate AllPresent(l: Ledger, c: Content, groups: seq<Group>) {
    forall i :: 0 <= i < |groups| ==> HasId(l.manifests, IdFor(c, groups[i]))
  }

  /** Rows are only ever added. */
  ghost predicate Extends(l: Ledger, l': Ledger) {
    l.manifests <= l'.manifests && l.plans <= l'.plans && l.outbox <= l'.outbox
  }

  lemma ForDeviceExtends(l: Ledger, c: Content, g: Group, attempt: Attempt)
    ensures Extends(l, ForDevice(l, c, g, attempt).ledger)
  {
  }

  lemma {:induction false} ForDevicesExtends(l: Ledger, c: Content, groups: seq<Group>, attempts: string -> Attempt)
    ensures Extends(l, ForDevices(l, c, groups, attempts).ledger)
  {
    if groups != [] {
      var last, rest := groups[|groups| - 1], groups[..|groups| - 1];
      ForDevicesExtends(l, c, rest, attempts);
      ForDeviceExtends(ForDevices(l, c, rest, attempts).ledger, c, last, attempts(last.device));
    }
  }

  lemma GenerateExtends(l: Ledger, c: Content, eligible: bool, groups: seq<Group>, attempts: string -> Attempt)
    ensures Extends(l, Generate(l, c, eligible, groups, attempts).ledger)
  {
    ForDevicesExtends(l, c, groups, attempts);
  }

  lemma ExtendsKeepsIds(l: Ledger, l': Ledger, id: Digest)
    requires Extends(l, l') && HasId(l.manifests, id)
    ensures HasId(l'.manifests, id)
  {
    var m :| m in l.manifests && m.id == id;
    assert m in l'.manifests;
  }

  lemma FineDeviceHasManifest(l: Ledger, c: Content, g: Group)
    ensures HasId(ForDevice(l, c, g, Fine).ledger.manifests, IdFor(c, g))
  {
    if !HasId(l.manifests, IdFor(c, g)) {
      assert NewManifest(l, c, g, Generated) in ForDevice(l, c, g, Fine).ledger.manifests;
    }
  }

  lemma ExtendsKeepsPresent(l: Ledger, l': Ledger, c: Content, groups: seq<Group>)
    requires Extends(l, l') && AllPresent(l, c, groups)
    ensures AllPresent(l', c, groups)
  {
    forall i | 0 <= i < |groups| ensures HasId(l'.manifests, IdFor(c, groups[i])) {
      ExtendsKeepsIds(l, l', IdFor(c, groups[i]));
    }
  }

  /** After a run in which nothing failed every device has its manifest. */
  lemma {:induction false} FineRunMakesAll(l: Ledger, c: Content, groups: seq<Group>, attempts: string -> Attempt)
    requires forall d :: attempts(d) == Fine
    ensures !ForDevices(l, c, groups, attempts).raised && AllPresent(ForDevices(l, c, groups, attempts).ledger, c, groups)
  {
    if groups != [] {
      var last, rest := groups[|groups| - 1], groups[..|groups| - 1];
      FineRunMakesAll(l, c, rest, attempts);
      var l1 := ForDevices(l, c, rest, attempts).ledger;
      var l2 := ForDevice(l1, c, last, Fine).ledger;
      assert ForDevices(l, c, groups, attempts).ledger == l2;
      ForDeviceExtends(l1, c, last, Fine);
      ExtendsKeepsPresent(l1, l2, c, rest);
      FineDeviceHasManifest(l1, c, last);
      forall i | 0 <= i < |groups| ensures HasId(l2.manifests, IdFor(c, groups[i])) {
        if i < |rest| {
          assert HasId(l2.manifests, IdFor(c, rest[i]));
        }
      }
    }
  }

  /** A run that finds every manifest changes nothing, whatever would have failed. */
  lemma {:induction false} PresentRunChangesNothing(l: Ledger, c: Content, groups: seq<Group>, attempts: string -> Attempt)
    requires AllPresent(l, c, groups)
    ensures ForDevices(l, c, groups, attempts) == Outcome(l, 0, false)
  {
    if groups != [] {
      var rest := groups[..|groups| - 1];
      assert AllPresent(l, c, rest);
      PresentRunChangesNothing(l, c, rest, attempts);
    }
  }

  lemma {:induction false} DistinctCount(s: seq<string>, x: string)
    requires Distinct(s)
    ensures multiset(s)[x] == if x in s then 1 else 0
  {
    if s != [] {
      DistinctCount(s[1..], x);
      assert s == [s[0]] + s[1..];
    }
  }

  lemma SameSurfaces(a: seq<string>, b: seq<string>)
    requires Distinct(a) && Distinct(b) && forall x :: x in a <==> x in b
    ensures multiset(a) == multiset(b)
  {
    forall x ensures multiset(a)[x] == multiset(b)[x] {
      DistinctCount(a, x);
      DistinctCount(b, x);
    }
  }

  /** Read again in any order, the same rows give the same devices with the same manifest ids. */
  lemma SameIds(c: Content, c': Content, groups: seq<Group>, groups': seq<Group>, fleet: set<Row>, placements: seq<Placement>, placements': seq<Placement>, i: nat) returns (j: nat)
    requires SameRows(c, c') && Resolves(groups, fleet, placements) && Resolves(groups', fleet, placements')
    requires multiset(placements) == multiset(placements')
    requires i < |groups'|
    ensures j < |groups| && IdFor(c, groups[j]) == IdFor(c', groups'[i]) && groups[j].device == groups'[i].device
  {
    var g' := groups'[i];
    WantedForgetsOrder(fleet, placements, placements');
    assert Serves(groups', g'.surfaces[0], g'.device);
    assert Serves(groups, g'.surfaces[0], g'.device);
    j :| 0 <= j < |groups| && groups[j].device == g'.device && g'.surfaces[0] in groups[j].surfaces;
    var g := groups[j];
    forall s ensures s in g.surfaces <==> s in g'.surfaces {
      ServedByGroup(groups, j, s);
      ServedByGroup(groups', i, s);
    }
    SameSurfaces(g.surfaces, g'.surfaces);
    SortForgetsOrder(g.surfaces, g'.surfaces);
    IdsForgetOrder(c, c', Sort(g.surfaces), Sort(g'.surfaces), g.device);
  }

  lemma WantedForgetsOrder(fleet: set<Row>, p: seq<Placement>, q: seq<Placement>)
    requires multiset(p) == multiset(q)
    ensures forall s, d :: Wanted(fleet, p, s, d) <==> Wanted(fleet, q, s, d)
  {
    forall x ensures x in p <==> x in q {
      assert x in p <==> x in multiset(p);
      assert x in q <==> x in multiset(q);
    }
  }

  lemma ServedByGroup(groups: seq<Group>, i: nat, s: string)
    requires WellGrouped(groups) && i < |groups|
    ensures Serves(groups, s, groups[i].device) <==> s in groups[i].surfaces
  {
  }

  lemma PresentForSameRows(l: Ledger, c: Content, c': Content, groups: seq<Group>, groups': seq<Group>, fleet: set<Row>, placements: seq<Placement>, placements': seq<Placement>)
    requires SameRows(c, c') && Resolves(groups, fleet, placements) && Resolves(groups', fleet, placements')
    requires multiset(placements) == multiset(placements')
    requires AllPresent(l, c, groups)
    ensures AllPresent(l, c', groups') && (groups != [] ==> groups' != [])
  {
    forall i | 0 <= i < |groups'| ensures HasId(l.manifests, IdFor(c', groups'[i])) {
      var j := SameIds(c, c', groups, groups', fleet, placements, placements', i);
    }
    if groups != [] {
      var j := SameIds(c', c, groups', groups, fleet, placements', placements, 0);
    }
  }

  /// ---------------------------------------------------------------------
  /// Which devices end up with a generated manifest
  /// ---------------------------------------------------------------------

  predicate HasGenerated(ms: seq<Manifest>, id: Digest) {
    exists m :: m in ms && m.id == id && m.status == Generated
  }

  /** The rows with an id are the same in both tables. */
  ghost predicate SameFor(id: Digest, ms: seq<Manifest>, ms': seq<Manifest>) {
    forall m: Manifest :: m.id == id ==> (m in ms <==> m in ms')
  }

  /** One device adds no row with a known id, nor with another id than its own, and rewrites none. */
  lemma ForDeviceKeepsRowsOf(l: Ledger, c: Content, g: Group, attempt: Attempt, id: Digest)
    requires HasId(l.manifests, id) || IdFor(c, g) != id
    ensures SameFor(id, l.manifests, ForDevice(l, c, g, attempt).ledger.manifests)
  {
  }

  lemma {:induction false} ForDevicesKeepsRowsOf(l: Ledger, c: Content, groups: seq<Group>, attempts: string -> Attempt, id: Digest)
    requires HasId(l.manifests, id) || forall i :: 0 <= i < |groups| ==> IdFor(c, groups[i]) != id
    ensures SameFor(id, l.manifests, ForDevices(l, c, groups, attempts).ledger.manifests)
  {
    if groups != [] {
      var last, rest := groups[|groups| - 1], groups[..|groups| - 1];
      ForDevicesKeepsRowsOf(l, c, rest, attempts, id);
      ForDeviceKeepsRowsOf(ForDevices(l, c, rest, attempts).ledger, c, last, attempts(last.device), id);
    }
  }

  /** Once a row with an id exists, no generation run changes what rows with that id there are: a manifest that
      failed stays failed, and its device gets no other under that id. */
  lemma KnownIdIsFinal(l: Ledger, c: Content, eligible: bool, groups: seq<Group>, attempts: string -> Attempt, id: Digest)
    requires HasId(l.manifests, id)
    ensures SameFor(id, l.manifests, Generate(l, c, eligible, groups, attempts).ledger.manifests)
  {
    ForDevicesKeepsRowsOf(l, c, groups, attempts, id);
  }

  /** No two groups share a manifest id. */
  ghost predicate DistinctIds(c: Content, groups: seq<Group>) {
    forall i, j :: 0 <= i < j < |groups| ==> IdFor(c, groups[i]) != IdFor(c, groups[j])
  }

  /** Devices whose ids hold no separator have manifest ids of their own. */
  lemma DevicesHaveTheirOwnIds(c: Content, groups: seq<Group>)
    requires WellGrouped(groups) && forall i :: 0 <= i < |groups| ==> Plain(groups[i].device)
    ensures DistinctIds(c, groups)
  {
    forall i, j | 0 <= i < j < |groups| ensures IdFor(c, groups[i]) != IdFor(c, groups[j]) {
      var p := ContentParts(c) + Sort(Sort(groups[i].surfaces));
      var q := ContentParts(c) + Sort(Sort(groups[j].surfaces));
      JoinLast(p, groups[i].device);
      JoinLast(q, groups[j].device);
      if Join(p + [groups[i].device]) == Join(q + [groups[j].device]) {
        LastPartIsUnique(Join(p), Join(q), groups[i].device, groups[j].device);
        assert false;
      }
    }
  }

  /** The device's manifest was generated before, or has no row yet and its attempt goes well. */
  ghost predicate GoesWell(l: Ledger, c: Content, g: Group, attempts: string -> Attempt) {
    HasGenerated(l.manifests, IdFor(c, g)) || (!HasId(l.manifests, IdFor(c, g)) && attempts(g.device) == Fine)
  }

  lemma DeviceOutcome(l: Ledger, c: Content, g: Group, attempt: Attempt)
    requires !ForDevice(l, c, g, attempt).raised
    ensures HasGenerated(ForDevice(l, c, g, attempt).ledger.manifests, IdFor(c, g)) <==>
            HasGenerated(l.manifests, IdFor(c, g)) || (!HasId(l.manifests, IdFor(c, g)) && attempt == Fine)
  {
    var id := IdFor(c, g);
    if !HasId(l.manifests, id) {
      assert forall m :: m in l.manifests ==> m.id != id;
      if attempt == Fine {
        assert NewManifest(l, c, g, Generated) in ForDevice(l, c, g, attempt).ledger.manifests;
      }
    }
  }

  lemma SameForKeeps(id: Digest, ms: seq<Manifest>, ms': seq<Manifest>)
    requires SameFor(id, ms, ms')
    ensures HasId(ms, id) <==> HasId(ms', id)
    ensures HasGenerated(ms, id) <==> HasGenerated(ms', id)
  {
  }

  lemma {:induction false} GroupOutcome(l: Ledger, c: Content, groups: seq<Group>, attempts: string -> Attempt, i: nat)
    requires DistinctIds(c, groups) && i < |groups| && !ForDevices(l, c, groups, attempts).raised
    ensures HasGenerated(ForDevices(l, c, groups, attempts).ledger.manifests, IdFor(c, groups[i])) <==> GoesWell(l, c, groups[i], attempts)
    decreases |groups|
  {
    var last, rest := groups[|groups| - 1], groups[..|groups| - 1];
    var l1 := ForDevices(l, c, rest, attempts).ledger;
    var id := IdFor(c, groups[i]);
    if i < |rest| {
      GroupOutcome(l, c, rest, attempts, i);
      ForDeviceKeepsRowsOf(l1, c, last, attempts(last.device), id);
      SameForKeeps(id, l1.manifests, ForDevice(l1, c, last, attempts(last.device)).ledger.manifests);
    } else {
      ForDevicesKeepsRowsOf(l, c, rest, attempts, id);
      SameForKeeps(id, l.manifests, l1.manifests);
      DeviceOutcome(l1, c, last, attempts(last.device));
    }
  }

  ghost predicate AllGenerated(l: Ledger, c: Content, groups: seq<Group>) {
    forall i :: 0 <= i < |groups| ==> HasGenerated(l.manifests, IdFor(c, groups[i]))
  }

  /** After an eligible run from which no exception escaped, every resolved device has a generated manifest exactly
      when each of them had it before, or had no row yet and its attempt went well. */
  lemma AllGeneratedExactly(l: Ledger, c: Content, groups: seq<Group>, attempts: string -> Attempt)
    requires DistinctIds(c, groups) && !Generate(l, c, true, groups, attempts).raised
    ensures AllGenerated(Generate(l, c, true, groups, attempts).ledger, c, groups) <==>
            forall i :: 0 <= i < |groups| ==> GoesWell(l, c, groups[i], attempts)
  {
    forall i | 0 <= i < |groups|
      ensures HasGenerated(Generate(l, c, true, groups, attempts).ledger.manifests, IdFor(c, groups[i])) <==> GoesWell(l, c, groups[i], attempts)
    {
      GroupOutcome(l, c, groups, attempts, i);
    }
  }
}
