/** Resolving a campaign's placements to the active surfaces of active devices, grouped by device. */
module DeliveryTargets {
  import opened Common
  import opened ManifestIds

  /** A placement row; an absent or empty column is "". */
  datatype Placement = Placement(surface: string, store: string, cluster: string, branch: string)

  /** A surface with its carrier's device (inner joins) and its store's cluster and branch (outer joins). */
  datatype Row = Row(
    surface: string,
    surfaceActive: bool,
    device: string,
    deviceActive: bool,
    store: string,
    cluster: Option<string>,
    branch: Option<string>)

  /** The where clauses of the four queries. */
  datatype Where =
    | SurfaceIn(ids: set<string>)
    | StoreIn(ids: set<string>)
    | ClusterIn(ids: set<string>)
    | BranchIn(ids: set<string>)
  {
    predicate Holds(r: Row) {
      match this
      case SurfaceIn(ids) => r.surface in ids
      case StoreIn(ids) => r.store in ids
      case ClusterIn(ids) => r.cluster.Some? && r.cluster.value in ids
      case BranchIn(ids) => r.branch.Some? && r.branch.value in ids
    }
  }

  datatype Group = Group(device: string, surfaces: seq<string>)

  /// ---------------------------------------------------------------------
  /// What is wanted
  /// ---------------------------------------------------------------------

  /** The most specific column of a placement decides. */
  predicate Picks(p: Placement, r: Row) {
    if p.surface != "" then r.surface == p.surface
    else if p.store != "" then r.store == p.store
    else if p.cluster != "" then r.cluster == Some(p.cluster)
    else p.branch != "" && r.branch == Some(p.branch)
  }

  ghost predicate Wanted(fleet: set<Row>, placements: seq<Placement>, surface: string, device: string) {
    exists r, p :: r in fleet && p in placements && Picks(p, r) && r.surfaceActive && r.deviceActive
                   && r.surface == surface && r.device == device
  }

  /** The primary key of the surfaces. */
  ghost predicate Keyed(fleet: set<Row>) {
    forall r, q :: r in fleet && q in fleet && r.surface == q.surface ==> r == q
  }

  /** A scan returns the rows of the table, in any order. */
  ghost predicate Scans(rows: seq<Row>, fleet: set<Row>) {
    forall r :: r in rows <==> r in fleet
  }

  ghost predicate Serves(groups: seq<Group>, surface: string, device: string) {
    exists i :: 0 <= i < |groups| && groups[i].device == device && surface in groups[i].surfaces
  }

  /** One non-empty group per device, no surface twice in a group. */
  ghost predicate WellGrouped(groups: seq<Group>) {
    && (forall i, j :: 0 <= i < j < |groups| ==> groups[i].device != groups[j].device)
    && (forall i :: 0 <= i < |groups| ==> groups[i].surfaces != [] && Distinct(groups[i].surfaces))
  }

  /** The groups hold exactly the wanted surfaces. */
  ghost predicate Resolves(groups: seq<Group>, fleet: set<Row>, placements: seq<Placement>) {
    WellGrouped(groups) && forall s, d :: Serves(groups, s, d) <==> Wanted(fleet, placements, s, d)
  }

  /// ---------------------------------------------------------------------
  /// resolve_targets
  /// ---------------------------------------------------------------------

  ghost predicate Chosen(fleet: set<Row>, w: Where, surface: string, device: string) {
    exists r :: r in fleet && w.Holds(r) && r.surfaceActive && r.deviceActive && r.surface == surface && r.device == device
  }

  ghost predicate Maps(found: map<string, string>, surface: string, device: string) {
    surface in found && found[surface] == device
  }

  /** Every entry comes from a row. */
  ghost predicate FromFleet(found: map<string, string>, fleet: set<Row>) {
    forall s :: s in found ==> exists r :: r in fleet && r.surface == s && r.device == found[s]
  }

  /** The keys of a dictionary in insertion order. */
  ghost predicate Lists(keys: seq<string>, found: map<string, string>) {
    Distinct(keys) && forall s :: s in keys <==> s in found
  }

  /** Run one query and put its rows into the dictionary. */
  method Collect(found: map<string, string>, keys: seq<string>, rows: seq<Row>, w: Where, ghost fleet: set<Row>)
    returns (found': map<string, string>, keys': seq<string>)
    requires Keyed(fleet) && Scans(rows, fleet) && FromFleet(found, fleet) && Lists(keys, found)
    ensures FromFleet(found', fleet) && Lists(keys', found')
    ensures forall s, d :: Maps(found', s, d) <==> Maps(found, s, d) || Chosen(fleet, w, s, d)
  {
    found', keys' := found, keys;
    for n := 0 to |rows|
      invariant FromFleet(found', fleet) && Lists(keys', found')
      invariant forall s, d :: Maps(found, s, d) ==> Maps(found', s, d)
      invariant forall s, d :: Maps(found', s, d) ==> Maps(found, s, d) || Chosen(fleet, w, s, d)
      invariant forall k :: 0 <= k < n && w.Holds(rows[k]) && rows[k].surfaceActive && rows[k].deviceActive ==>
                  Maps(found', rows[k].surface, rows[k].device)
    {
      var r := rows[n];
      assert r in fleet;
      if w.Holds(r) && r.surfaceActive && r.deviceActive {
        assert Chosen(fleet, w, r.surface, r.device);
        if r.surface in found' {
          ghost var q :| q in fleet && q.surface == r.surface && q.device == found'[r.surface];
          assert q == r;
        } else {
          keys' := keys' + [r.surface];
        }
        found' := found'[r.surface := r.device];
      }
    }
  }

  /** Where a dictionary in insertion order holds a device; its size if nowhere. */
  function IndexOf(groups: seq<Group>, device: string): (i: nat)
    ensures i <= |groups| && (i < |groups| ==> groups[i].device == device)
    ensures forall k :: 0 <= k < i ==> groups[k].device != device
  {
    if groups == [] || groups[0].device == device then 0 else 1 + IndexOf(groups[1..], device)
  }

  /** device_surfaces[device].append(surface), with an empty list as the default. */
  function Appended(groups: seq<Group>, device: string, surface: string): seq<Group> {
    var i := IndexOf(groups, device);
    if i < |groups| then groups[i := Group(device, groups[i].surfaces + [surface])]
    else groups + [Group(device, [surface])]
  }

  lemma AppendedServes(groups: seq<Group>, device: string, surface: string)
    requires WellGrouped(groups) && !Serves(groups, surface, device)
    ensures WellGrouped(Appended(groups, device, surface))
    ensures forall s, d :: Serves(Appended(groups, device, surface), s, d) <==>
                           Serves(groups, s, d) || (s == surface && d == device)
  {
    var i, r := IndexOf(groups, device), Appended(groups, device, surface);
    assert r[i].device == device && surface in r[i].surfaces;
    assert i < |groups| ==> surface !in groups[i].surfaces;
    forall s, d ensures Serves(r, s, d) <==> Serves(groups, s, d) || (s == surface && d == device) {
      if k :| 0 <= k < |groups| && groups[k].device == d && s in groups[k].surfaces {
        assert r[k].device == d && s in r[k].surfaces;
      }
      if k :| 0 <= k < |r| && r[k].device == d && s in r[k].surfaces && k != i {
        assert groups[k] == r[k];
      }
    }
  }

  /** Group the entries of the dictionary by device. */
  method GroupByDevice(found: map<string, string>, keys: seq<string>) returns (groups: seq<Group>)
    requires Lists(keys, found)
    ensures WellGrouped(groups) && forall s, d :: Serves(groups, s, d) <==> Maps(found, s, d)
  {
    groups := [];
    for n := 0 to |keys|
      invariant WellGrouped(groups)
      invariant forall s, d :: Serves(groups, s, d) <==> Maps(found, s, d) && s in keys[..n]
    {
      AppendedServes(groups, found[keys[n]], keys[n]);
      groups := Appended(groups, found[keys[n]], keys[n]);
      assert keys[..n + 1] == keys[..n] + [keys[n]];
    }
    assert keys[..|keys|] == keys;
  }

  /** The id sets the placements fall into: each placement goes by its most specific column. */
  ghost predicate SplitBy(placements: seq<Placement>, bySurface: set<string>, byStore: set<string>, byCluster: set<string>, byBranch: set<string>) {
    forall r: Row ::
      (SurfaceIn(bySurface).Holds(r) || StoreIn(byStore).Holds(r) || ClusterIn(byCluster).Holds(r) || BranchIn(byBranch).Holds(r))
      <==> exists p :: p in placements && Picks(p, r)
  }

  method SplitPlacements(placements: seq<Placement>)
    returns (bySurface: set<string>, byStore: set<string>, byCluster: set<string>, byBranch: set<string>)
    ensures SplitBy(placements, bySurface, byStore, byCluster, byBranch)
  {
    bySurface, byStore, byCluster, byBranch := {}, {}, {}, {};
    for n := 0 to |placements|
      invariant SplitBy(placements[..n], bySurface, byStore, byCluster, byBranch)
    {
      var p := placements[n];
      ghost var a, b, c, d := bySurface, byStore, byCluster, byBranch;
      if p.surface != "" {
        bySurface := bySurface + {p.surface};
      } else if p.store != "" {
        byStore := byStore + {p.store};
      } else if p.cluster != "" {
        byCluster := byCluster + {p.cluster};
      } else if p.branch != "" {
        byBranch := byBranch + {p.branch};
      }
      assert placements[..n + 1] == placements[..n] + [p];
      forall r: Row
        ensures (SurfaceIn(bySurface).Holds(r) || StoreIn(byStore).Holds(r) || ClusterIn(byCluster).Holds(r) || BranchIn(byBranch).Holds(r))
                <==> (SurfaceIn(a).Holds(r) || StoreIn(b).Holds(r) || ClusterIn(c).Holds(r) || BranchIn(d).Holds(r)) || Picks(p, r)
      {
      }
    }
    assert placements[..|placements|] == placements;
  }

  lemma WantedIsChosen(fleet: set<Row>, placements: seq<Placement>, bySurface: set<string>, byStore: set<string>,
                       byCluster: set<string>, byBranch: set<string>, s: string, d: string)
    requires SplitBy(placements, bySurface, byStore, byCluster, byBranch)
    ensures Wanted(fleet, placements, s, d) <==>
            || Chosen(fleet, SurfaceIn(bySurface), s, d) || Chosen(fleet, StoreIn(byStore), s, d)
            || Chosen(fleet, ClusterIn(byCluster), s, d) || Chosen(fleet, BranchIn(byBranch), s, d)
  {
  }

  /** Every query may scan the fleet in an order of its own. */
  method ResolveTargets(placements: seq<Placement>, scan1: seq<Row>, scan2: seq<Row>, scan3: seq<Row>, scan4: seq<Row>, ghost fleet: set<Row>)
    returns (groups: seq<Group>)
    requires Keyed(fleet) && Scans(scan1, fleet) && Scans(scan2, fleet) && Scans(scan3, fleet) && Scans(scan4, fleet)
    ensures Resolves(groups, fleet, placements)
  {
    if placements == [] {
      return [];
    }
    var bySurface, byStore, byCluster, byBranch := SplitPlacements(placements);
    var found, keys := map[], [];
    if bySurface != {} {
      found, keys := Collect(found, keys, scan1, SurfaceIn(bySurface), fleet);
    }
    if byStore != {} {
      found, keys := Collect(found, keys, scan2, StoreIn(byStore), fleet);
    }
    if byCluster != {} {
      found, keys := Collect(found, keys, scan3, ClusterIn(byCluster), fleet);
    }
    if byBranch != {} {
      found, keys := Collect(found, keys, scan4, BranchIn(byBranch), fleet);
    }
    groups := GroupByDevice(found, keys);
    forall s, d ensures Maps(found, s, d) <==> Wanted(fleet, placements, s, d) {
      WantedIsChosen(fleet, placements, bySurface, byStore, byCluster, byBranch, s, d);
    }
  }
}
