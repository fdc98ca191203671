/** Billing reports over the recorded proof-of-play rows: totals, per day and per surface. */
module PopReports {
  import opened Common
  import opened PopIngestion

  /// ---------------------------------------------------------------------
  /// Grouping
  /// ---------------------------------------------------------------------

  /** A row with the value it is grouped by. */
  datatype Item<K> = Item(key: K, duration: int)

  /** A line of a report. */
  datatype Line<K> = Line(key: K, impressions: nat, duration: int)

  function CountOf<K(==)>(items: seq<Item<K>>, key: K): nat {
    if items == [] then 0 else CountOf(items[..|items| - 1], key) + if items[|items| - 1].key == key then 1 else 0
  }

  function SumOf<K(==)>(items: seq<Item<K>>, key: K): int {
    if items == [] then 0 else SumOf(items[..|items| - 1], key) + if items[|items| - 1].key == key then items[|items| - 1].duration else 0
  }

  function Total<K>(items: seq<Item<K>>): int {
    if items == [] then 0 else Total(items[..|items| - 1]) + items[|items| - 1].duration
  }

  function KeySet<K>(items: seq<Item<K>>): set<K> {
    set i | 0 <= i < |items| :: items[i].key
  }

  function Impressions<K>(lines: seq<Line<K>>): nat {
    if lines == [] then 0 else lines[0].impressions + Impressions(lines[1..])
  }

  function Duration<K>(lines: seq<Line<K>>): int {
    if lines == [] then 0 else lines[0].duration + Duration(lines[1..])
  }

  function Without<K(==)>(items: seq<Item<K>>, key: K): seq<Item<K>> {
    if items == [] then []
    else Without(items[..|items| - 1], key) + if items[|items| - 1].key == key then [] else [items[|items| - 1]]
  }

  /** Leaving one key out leaves the other keys alone. */
  lemma {:induction false} WithoutOne<K>(items: seq<Item<K>>, key: K)
    ensures var rest := Without(items, key);
            && |items| == CountOf(items, key) + |rest|
            && Total(items) == SumOf(items, key) + Total(rest)
  {
    if items != [] {
      var last := items[|items| - 1];
      WithoutOne(items[..|items| - 1], key);
      var rest := Without(items[..|items| - 1], key);
      assert rest + [] == rest && (rest + [last])[..|rest|] == rest;
    }
  }

  lemma {:induction false} WithoutKeepsOther<K>(items: seq<Item<K>>, key: K, other: K)
    requires other != key
    ensures CountOf(Without(items, key), other) == CountOf(items, other)
    ensures SumOf(Without(items, key), other) == SumOf(items, other)
  {
    if items != [] {
      var last := items[|items| - 1];
      WithoutKeepsOther(items[..|items| - 1], key, other);
      var rest := Without(items[..|items| - 1], key);
      assert rest + [] == rest && (rest + [last])[..|rest|] == rest;
    }
  }

  lemma KeySetAdded<K>(items: seq<Item<K>>, item: Item<K>)
    ensures KeySet(items + [item]) == KeySet(items) + {item.key}
  {
    var all := items + [item];
    assert all[|items|] == item;
    forall k ensures k in KeySet(all) <==> k in KeySet(items) + {item.key} {
      if k in KeySet(items) {
        var i :| 0 <= i < |items| && items[i].key == k;
        assert all[i].key == k;
      }
    }
  }

  lemma {:induction false} WithoutKeys<K>(items: seq<Item<K>>, key: K)
    ensures KeySet(Without(items, key)) == KeySet(items) - {key}
  {
    if items != [] {
      var front, last := items[..|items| - 1], items[|items| - 1];
      WithoutKeys(front, key);
      assert items == front + [last];
      KeySetAdded(front, last);
      KeySetAdded(Without(front, key), last);
      assert Without(front, key) + [] == Without(front, key);
    }
  }

  /** One line of a report. */
  ghost predicate IsLine<K>(line: Line<K>, items: seq<Item<K>>) {
    line.key in KeySet(items) && line.impressions == CountOf(items, line.key) && line.duration == SumOf(items, line.key)
  }

  ghost predicate HasLine<K>(lines: seq<Line<K>>, key: K) {
    exists i :: 0 <= i < |lines| && lines[i].key == key
  }

  /** SELECT key, COUNT(*), SUM(duration) ... GROUP BY key, in any order: one line for each key that occurs. */
  ghost predicate IsReport<K(!new)>(lines: seq<Line<K>>, items: seq<Item<K>>) {
    && (forall i, j :: 0 <= i < j < |lines| ==> lines[i].key != lines[j].key)
    && (forall i :: 0 <= i < |lines| ==> IsLine(lines[i], items))
    && (forall k :: k in KeySet(items) ==> HasLine(lines, k))
  }

  lemma LineWithout<K>(line: Line<K>, items: seq<Item<K>>, key: K)
    requires IsLine(line, items) && line.key != key
    ensures IsLine(line, Without(items, key))
  {
    WithoutKeys(items, key);
    WithoutKeepsOther(items, key, line.key);
  }

  lemma RestIsReport<K(!new)>(lines: seq<Line<K>>, items: seq<Item<K>>)
    requires IsReport(lines, items) && lines != []
    ensures IsReport(lines[1..], Without(items, lines[0].key))
  {
    var key, others := lines[0].key, lines[1..];
    WithoutKeys(items, key);
    forall i | 0 <= i < |others| ensures IsLine(others[i], Without(items, key)) {
      LineWithout(lines[i + 1], items, key);
    }
    forall k | k in KeySet(items) - {key} ensures HasLine(others, k) {
      assert HasLine(lines, k);
      var i :| 0 <= i < |lines| && lines[i].key == k;
      assert others[i - 1].key == k;
    }
  }

  lemma EmptyReport<K(!new)>(items: seq<Item<K>>)
    requires IsReport([], items)
    ensures items == []
  {
    assert items != [] ==> items[0].key in KeySet(items);
  }

  /** Grouping loses nothing and counts nothing twice: the lines add up to the rows, and there are as many
      lines as there are different keys. */
  lemma {:induction false} ReportConserves<K(!new)>(lines: seq<Line<K>>, items: seq<Item<K>>)
    requires IsReport(lines, items)
    ensures Impressions(lines) == |items| && Duration(lines) == Total(items) && |lines| == |KeySet(items)|
    decreases |lines|
  {
    if lines == [] {
      EmptyReport(items);
    } else {
      var key := lines[0].key;
      assert IsLine(lines[0], items);
      WithoutOne(items, key);
      WithoutKeys(items, key);
      RestIsReport(lines, items);
      ReportConserves(lines[1..], Without(items, key));
      assert |KeySet(items)| == |KeySet(items) - {key}| + 1;
    }
  }

  /// ---------------------------------------------------------------------
  /// Outer joins
  /// ---------------------------------------------------------------------

  /** The rows of a table that a row joins with. */
  function Matching<R>(right: seq<R>, on: R -> bool): seq<R> {
    if right == [] then []
    else Matching(right[..|right| - 1], on) + if on(right[|right| - 1]) then [right[|right| - 1]] else []
  }

  function Paired<L, R>(l: L, right: seq<R>): seq<(L, Option<R>)> {
    if right == [] then [] else Paired(l, right[..|right| - 1]) + [(l, Some(right[|right| - 1]))]
  }

  /** What one row contributes to an outer join. */
  function Joined<L, R>(l: L, right: seq<R>, on: R -> bool): seq<(L, Option<R>)> {
    var rows := Matching(right, on);
    if rows == [] then [(l, None)] else Paired(l, rows)
  }

  /** left LEFT OUTER JOIN right ON on(l, r) */
  function OuterJoin<L, R>(left: seq<L>, right: seq<R>, on: L -> R -> bool): seq<(L, Option<R>)> {
    if left == [] then []
    else
      var l := left[|left| - 1];
      OuterJoin(left[..|left| - 1], right, on) + Joined(l, right, on(l))
  }

  /** Nothing joins with two rows, because the join is on a primary key. */
  ghost predicate ManyToOne<L(!new), R>(right: seq<R>, on: L -> R -> bool) {
    forall l, i, j :: 0 <= i < j < |right| ==> !(on(l)(right[i]) && on(l)(right[j]))
  }

  lemma {:induction false} AtMostOneMatch<R>(right: seq<R>, on: R -> bool)
    requires forall i, j :: 0 <= i < j < |right| ==> !(on(right[i]) && on(right[j]))
    ensures |Matching(right, on)| <= 1
    ensures |Matching(right, on)| == 1 ==> exists i :: 0 <= i < |right| && on(right[i])
  {
    if right != [] {
      AtMostOneMatch(right[..|right| - 1], on);
    }
  }

  lemma JoinedOnce<L, R>(l: L, right: seq<R>, on: R -> bool)
    requires forall i, j :: 0 <= i < j < |right| ==> !(on(right[i]) && on(right[j]))
    ensures |Joined(l, right, on)| == 1 && Joined(l, right, on)[0].0 == l
  {
    AtMostOneMatch(right, on);
    var rows := Matching(right, on);
    if |rows| == 1 {
      assert rows[..0] == [];
      assert Paired(l, rows) == Paired(l, rows[..0]) + [(l, Some(rows[0]))];
    }
  }

  /** A many-to-one outer join keeps each row of the left table exactly once, in order. */
  lemma {:induction false} OuterJoinKeepsRows<L(!new), R>(left: seq<L>, right: seq<R>, on: L -> R -> bool)
    requires ManyToOne(right, on)
    ensures |OuterJoin(left, right, on)| == |left|
    ensures forall i :: 0 <= i < |left| ==> OuterJoin(left, right, on)[i].0 == left[i]
    decreases |left|
  {
    if left != [] {
      OuterJoinKeepsRows(left[..|left| - 1], right, on);
      JoinedOnce(left[|left| - 1], right, on(left[|left| - 1]));
    }
  }

  /// ---------------------------------------------------------------------
  /// The reports
  /// ---------------------------------------------------------------------

  datatype SurfaceRow = SurfaceRow(id: string, store: string)
  datatype StoreRow = StoreRow(id: string, timezone: Option<string>, cluster: Option<string>)
  datatype ClusterRow = ClusterRow(id: string, branch: Option<string>)
  datatype BranchRow = BranchRow(id: string, timezone: Option<string>)

  datatype Places = Places(surfaces: seq<SurfaceRow>, stores: seq<StoreRow>, clusters: seq<ClusterRow>, branches: seq<BranchRow>)
  {
    /** The primary keys. */
    ghost predicate Valid() {
      && (forall i, j :: 0 <= i < j < |surfaces| ==> surfaces[i].id != surfaces[j].id)
      && (forall i, j :: 0 <= i < j < |stores| ==> stores[i].id != stores[j].id)
      && (forall i, j :: 0 <= i < j < |clusters| ==> clusters[i].id != clusters[j].id)
      && (forall i, j :: 0 <= i < j < |branches| ==> branches[i].id != branches[j].id)
    }
  }

  /** The rows that count: accepted, verified and played to the end. */
  function Billed(raw: seq<Row>, campaign: string): seq<Row> {
    if raw == [] then []
    else
      var r := raw[|raw| - 1];
      Billed(raw[..|raw| - 1], campaign) +
      if r.campaign == Some(campaign) && r.status == Accepted && r.verified && r.playback == Success then [r] else []
  }

  datatype Summary = Summary(impressions: nat, duration: int, uniqueDevices: nat, uniqueSurfaces: nat)

  function BySurface(rows: seq<Row>): seq<Item<string>> {
    seq(|rows|, i requires 0 <= i < |rows| => Item(rows[i].surface, rows[i].duration))
  }

  function SurfacesOf(rows: seq<Row>): set<string> {
    set i | 0 <= i < |rows| :: rows[i].surface
  }

  lemma SurfaceKeys(rows: seq<Row>)
    ensures KeySet(BySurface(rows)) == SurfacesOf(rows)
  {
    var items := BySurface(rows);
    forall k ensures k in KeySet(items) <==> k in SurfacesOf(rows) {
      if k in SurfacesOf(rows) {
        var i :| 0 <= i < |rows| && rows[i].surface == k;
        assert items[i].key == k;
      }
    }
  }

  function CampaignSummary(raw: seq<Row>, campaign: string): Summary {
    var rows := Billed(raw, campaign);
    Summary(|rows|, Total(BySurface(rows)),
            |set i | 0 <= i < |rows| :: rows[i].device|, |SurfacesOf(rows)|)
  }

  type WithSurface = (Row, Option<SurfaceRow>)
  type WithStore = (WithSurface, Option<StoreRow>)
  type WithCluster = (WithStore, Option<ClusterRow>)
  type WithBranch = (WithCluster, Option<BranchRow>)

  function OnSurface(r: Row): SurfaceRow -> bool { (s: SurfaceRow) => s.id == r.surface }
  function OnStore(l: WithSurface): StoreRow -> bool { (s: StoreRow) => l.1.Some? && s.id == l.1.value.store }
  function OnCluster(l: WithStore): ClusterRow -> bool { (c: ClusterRow) => l.1.Some? && l.1.value.cluster == Some(c.id) }
  function OnBranch(l: WithCluster): BranchRow -> bool { (b: BranchRow) => l.1.Some? && l.1.value.branch == Some(b.id) }

  const DEFAULT_TIMEZONE: string := "Europe/Moscow"

  /** coalesce(store.timezone, branch.timezone, default) */
  function Timezone(row: WithBranch): string {
    var store, branch := row.0.0.1, row.1;
    if store.Some? && store.value.timezone.Some? then store.value.timezone.value
    else if branch.Some? && branch.value.timezone.Some? then branch.value.timezone.value
    else DEFAULT_TIMEZONE
  }

  function Placed(rows: seq<Row>, p: Places): seq<WithBranch> {
    OuterJoin(OuterJoin(OuterJoin(OuterJoin(rows, p.surfaces, OnSurface), p.stores, OnStore), p.clusters, OnCluster), p.branches, OnBranch)
  }

  /** Rows by the local day of their store; `localDay` is the database's conversion. */
  function ByDay(rows: seq<Row>, p: Places, localDay: (string, int) -> int): seq<Item<int>> {
    var placed := Placed(rows, p);
    seq(|placed|, i requires 0 <= i < |placed| =>
      Item(localDay(Timezone(placed[i]), placed[i].0.0.0.0.renderedAt), placed[i].0.0.0.0.duration))
  }

  /** After the four joins every row is there exactly once, in order. */
  lemma PlacedKeepsRows(rows: seq<Row>, p: Places)
    requires p.Valid()
    ensures |Placed(rows, p)| == |rows|
    ensures forall i :: 0 <= i < |rows| ==> Placed(rows, p)[i].0.0.0.0 == rows[i]
  {
    var a := OuterJoin(rows, p.surfaces, OnSurface);
    var b := OuterJoin(a, p.stores, OnStore);
    var c := OuterJoin(b, p.clusters, OnCluster);
    var d := OuterJoin(c, p.branches, OnBranch);
    OuterJoinKeepsRows(rows, p.surfaces, OnSurface);
    OuterJoinKeepsRows(a, p.stores, OnStore);
    OuterJoinKeepsRows(b, p.clusters, OnCluster);
    OuterJoinKeepsRows(c, p.branches, OnBranch);
    forall i | 0 <= i < |rows| ensures d[i].0.0.0.0 == rows[i] {
      assert d[i].0 == c[i] && c[i].0 == b[i] && b[i].0 == a[i] && a[i].0 == rows[i];
    }
  }

  lemma {:induction false} SameDurations<J, K>(a: seq<Item<J>>, b: seq<Item<K>>)
    requires |a| == |b| && forall i :: 0 <= i < |a| ==> a[i].duration == b[i].duration
    ensures Total(a) == Total(b)
  {
    if a != [] {
      SameDurations(a[..|a| - 1], b[..|b| - 1]);
    }
  }

  lemma {:induction false} MatchIsOn<R>(right: seq<R>, on: R -> bool, r: R)
    ensures r in Matching(right, on) <==> r in right && on(r)
  {
    if right != [] {
      MatchIsOn(right[..|right| - 1], on, r);
      assert right == right[..|right| - 1] + [right[|right| - 1]];
    }
  }

  lemma JoinedIs<L, R>(l: L, right: seq<R>, on: R -> bool)
    requires forall i, j :: 0 <= i < j < |right| ==> !(on(right[i]) && on(right[j]))
    ensures |Joined(l, right, on)| == 1
    ensures match Joined(l, right, on)[0].1
            case Some(r) => r in right && on(r)
            case None => forall r :: r in right ==> !on(r)
  {
    JoinedOnce(l, right, on);
    var rows := Matching(right, on);
    AtMostOneMatch(right, on);
    if rows == [] {
      forall r | r in right ensures !on(r) {
        MatchIsOn(right, on, r);
      }
    } else {
      MatchIsOn(right, on, rows[0]);
      assert rows[..0] == [];
      assert Paired(l, rows) == Paired(l, rows[..0]) + [(l, Some(rows[0]))];
    }
  }

  /** A many-to-one outer join pairs a row with the one it joins with, if there is one. */
  lemma {:induction false} OuterJoinPairs<L(!new), R>(left: seq<L>, right: seq<R>, on: L -> R -> bool, i: nat)
    requires ManyToOne(right, on) && i < |left|
    ensures |OuterJoin(left, right, on)| == |left| && OuterJoin(left, right, on)[i].0 == left[i]
    ensures match OuterJoin(left, right, on)[i].1
            case Some(r) => r in right && on(left[i])(r)
            case None => forall r :: r in right ==> !on(left[i])(r)
    decreases |left|
  {
    OuterJoinKeepsRows(left, right, on);
    var front, last := left[..|left| - 1], |left| - 1;
    OuterJoinKeepsRows(front, right, on);
    if i < last {
      OuterJoinPairs(front, right, on, i);
    } else {
      JoinedIs(left[last], right, on(left[last]));
    }
  }

  /** The store that a surface stands in. */
  ghost predicate StoreOf(p: Places, surface: string, store: StoreRow) {
    store in p.stores && exists s :: s in p.surfaces && s.id == surface && s.store == store.id
  }

  /** The branch that a store belongs to, by way of its cluster. */
  ghost predicate BranchOf(p: Places, store: StoreRow, branch: BranchRow) {
    branch in p.branches && exists c :: c in p.clusters && store.cluster == Some(c.id) && c.branch == Some(branch.id)
  }

  /** The time zone of a surface: its store's, else its branch's, else Moscow's. */
  ghost predicate IsTimezone(p: Places, surface: string, zone: string) {
    if exists st :: StoreOf(p, surface, st) && st.timezone.Some? then exists st :: StoreOf(p, surface, st) && st.timezone == Some(zone)
    else if exists st, b :: StoreOf(p, surface, st) && BranchOf(p, st, b) && b.timezone.Some?
    then exists st, b :: StoreOf(p, surface, st) && BranchOf(p, st, b) && b.timezone == Some(zone)
    else zone == "Europe/Moscow"
  }

  /** A row counts for the day on which it was rendered by the clock of its surface's time zone, with its duration. */
  lemma DayIsLocal(rows: seq<Row>, p: Places, localDay: (string, int) -> int, i: nat)
    requires p.Valid() && i < |rows|
    ensures |ByDay(rows, p, localDay)| == |rows| && ByDay(rows, p, localDay)[i].duration == rows[i].duration
    ensures exists zone :: IsTimezone(p, rows[i].surface, zone) && ByDay(rows, p, localDay)[i].key == localDay(zone, rows[i].renderedAt)
  {
    PlacedKeepsRows(rows, p);
    TimezoneOfPlaced(rows, p, i);
  }

  lemma TimezoneOfPlaced(rows: seq<Row>, p: Places, i: nat)
    requires p.Valid() && i < |rows|
    ensures i < |Placed(rows, p)| && IsTimezone(p, rows[i].surface, Timezone(Placed(rows, p)[i]))
  {
    var a := OuterJoin(rows, p.surfaces, OnSurface);
    var b := OuterJoin(a, p.stores, OnStore);
    var c := OuterJoin(b, p.clusters, OnCluster);
    OuterJoinPairs(rows, p.surfaces, OnSurface, i);
    OuterJoinPairs(a, p.stores, OnStore, i);
    OuterJoinPairs(b, p.clusters, OnCluster, i);
    OuterJoinPairs(c, p.branches, OnBranch, i);
    var placed := Placed(rows, p)[i];
    assert placed.0 == c[i] && c[i].0 == b[i] && b[i].0 == a[i] && a[i].0 == rows[i];
    ZoneFromJoins(p, placed);
  }

  /** What the four joins found, or that there was nothing to find. */
  ghost predicate FoundAll(p: Places, l: WithBranch) {
    && (match l.0.0.0.1 case Some(s) => s in p.surfaces && s.id == l.0.0.0.0.surface case None => forall s :: s in p.surfaces ==> s.id != l.0.0.0.0.surface)
    && (match l.0.0.1 case Some(st) => st in p.stores && OnStore(l.0.0.0)(st) case None => forall st :: st in p.stores ==> !OnStore(l.0.0.0)(st))
    && (match l.0.1 case Some(c) => c in p.clusters && OnCluster(l.0.0)(c) case None => forall c :: c in p.clusters ==> !OnCluster(l.0.0)(c))
    && (match l.1 case Some(b) => b in p.branches && OnBranch(l.0)(b) case None => forall b :: b in p.branches ==> !OnBranch(l.0)(b))
  }

  lemma OneEach(p: Places)
    requires p.Valid()
    ensures forall x, y :: x in p.surfaces && y in p.surfaces && x.id == y.id ==> x == y
    ensures forall x, y :: x in p.stores && y in p.stores && x.id == y.id ==> x == y
    ensures forall x, y :: x in p.clusters && y in p.clusters && x.id == y.id ==> x == y
    ensures forall x, y :: x in p.branches && y in p.branches && x.id == y.id ==> x == y
  {
  }

  lemma ZoneFromJoins(p: Places, l: WithBranch)
    requires p.Valid() && FoundAll(p, l)
    ensures IsTimezone(p, l.0.0.0.0.surface, Timezone(l))
  {
    OneEach(p);
    var surface, store, branch := l.0.0.0.0.surface, l.0.0.1, l.1;
    forall st ensures StoreOf(p, surface, st) <==> store == Some(st) {
      if store == Some(st) {
        assert l.0.0.0.1.value in p.surfaces;
      }
    }
    forall b | store.Some? ensures BranchOf(p, store.value, b) <==> branch == Some(b) {
      if branch == Some(b) {
        assert l.0.1.value in p.clusters;
      }
    }
  }

  /** The summary, any per-day report and any per-surface report of a campaign agree on impressions and on
      duration, and the summary's count of surfaces is the number of per-surface lines. */
  lemma ReportsAgree(raw: seq<Row>, campaign: string, p: Places, localDay: (string, int) -> int, days: seq<Line<int>>, surfaces: seq<Line<string>>)
    requires p.Valid()
    requires IsReport(days, ByDay(Billed(raw, campaign), p, localDay))
    requires IsReport(surfaces, BySurface(Billed(raw, campaign)))
    ensures var s := CampaignSummary(raw, campaign);
            && Impressions(days) == Impressions(surfaces) == s.impressions
            && Duration(days) == Duration(surfaces) == s.duration
            && |surfaces| == s.uniqueSurfaces
  {
    var rows := Billed(raw, campaign);
    PlacedKeepsRows(rows, p);
    ReportConserves(days, ByDay(rows, p, localDay));
    ReportConserves(surfaces, BySurface(rows));
    SameDurations(ByDay(rows, p, localDay), BySurface(rows));
    SurfaceKeys(rows);
  }

  /// ---------------------------------------------------------------------
  /// What is billed
  /// ---------------------------------------------------------------------

  lemma {:induction false} BilledAreRows(raw: seq<Row>, campaign: string, r: Row)
    ensures r in Billed(raw, campaign) <==>
            r in raw && r.campaign == Some(campaign) && r.status == Accepted && r.verified && r.playback == Success
  {
    if raw != [] {
      BilledAreRows(raw[..|raw| - 1], campaign, r);
      assert raw == raw[..|raw| - 1] + [raw[|raw| - 1]];
    }
  }

  /** In the tables an ingestion leaves, exactly the accepted rows of a campaign are billed, and each of them is
      true of a manifest of that campaign. */
  lemma BilledIsTrue(s: Store, cat: Catalog, campaign: string, r: Row)
    requires Sound(cat, s)
    ensures r in Billed(s.raw, campaign) <==> r in s.raw && r.status == Accepted && r.campaign == Some(campaign)
    ensures r in Billed(s.raw, campaign) ==>
              && r.manifest.Some? && r.manifest.value in cat.manifests
              && var m := cat.manifests[r.manifest.value];
              m.campaign == campaign && m.device == r.device && r.surface in m.surfaces && r.asset in m.assets
  {
    BilledAreRows(s.raw, campaign, r);
    if r in s.raw {
      var i :| 0 <= i < |s.raw| && s.raw[i] == r;
    }
  }

  /** Expiring quarantined rows changes no report. */
  lemma {:induction false} ExpiryKeepsReports(raw: seq<Row>, before: int, campaign: string)
    ensures Billed(ExpireRows(raw, before), campaign) == Billed(raw, campaign)
  {
    if raw != [] {
      var front := raw[..|raw| - 1];
      ExpiryKeepsReports(front, before, campaign);
      assert ExpireRows(raw, before)[..|raw| - 1] == ExpireRows(front, before);
    }
  }
}
