/** What generated manifests hold, and how their ids tell contents apart. */
module ManifestContents {
  import opened Common
  import opened ManifestIds
  import opened DeliveryTargets
  import opened ManifestGeneration
  import Sorting

  /// ---------------------------------------------------------------------
  /// The rows of a run
  /// ---------------------------------------------------------------------

  /** The row says for whom it was made and how that went, and lists the group's surfaces in alphabetical order. */
  ghost predicate MadeFor(m: Manifest, c: Content, g: Group, attempt: Attempt) {
    && m.campaign == c.id && m.device == g.device && multiset(m.surfaces) == multiset(g.surfaces) && Sorted(m.surfaces)
    && match attempt
       case Fine => m.status == Generated
       case FailsAfter => m.status == Failed
       case Crashes => m.status == Planned
       case FailsBefore => false
  }

  ghost predicate MadeForSome(m: Manifest, c: Content, groups: seq<Group>, attempts: string -> Attempt) {
    exists i :: 0 <= i < |groups| && MadeFor(m, c, groups[i], attempts(groups[i].device))
  }

  /** A notice announces one of the rows added, or a failure for one of the devices. */
  ghost predicate Accounts(n: Notice, c: Content, added: seq<Manifest>, groups: seq<Group>, attempts: string -> Attempt) {
    match n
    case ManifestGenerated(id, campaign, device, version) =>
      exists m :: m in added && m.status == Generated && m.id == id && m.campaign == campaign && m.device == device && m.version == version
    case ManifestFailed(campaign, failedDevice) =>
      campaign == c.id && exists i :: 0 <= i < |groups| && failedDevice == Some(groups[i].device) && attempts(groups[i].device) in {FailsBefore, FailsAfter}
  }

  function GeneratedAmong(ms: seq<Manifest>): nat {
    if ms == [] then 0 else GeneratedAmong(ms[..|ms| - 1]) + if ms[|ms| - 1].status == Generated then 1 else 0
  }

  lemma NewManifestIsMadeFor(l: Ledger, c: Content, g: Group, attempt: Attempt)
    requires attempt != FailsBefore
    ensures MadeFor(NewManifest(l, c, g, match attempt case Fine => Generated case Crashes => Planned case _ => Failed), c, g, attempt)
  {
    LexOrder();
    Sorting.SortKeeps(g.surfaces, LexLeq);
    Sorting.SortSorts(g.surfaces, LexLeq);
  }

  /** The rows and notices that a run over the devices added, and how many manifests it says it made. */
  ghost predicate Adds(l: Ledger, o: Outcome, c: Content, groups: seq<Group>, attempts: string -> Attempt) {
    && Extends(l, o.ledger) && o.ledger.plans == l.plans
    && var added, notices := o.ledger.manifests[|l.manifests|..], o.ledger.outbox[|l.outbox|..];
       && (forall k :: 0 <= k < |added| ==> MadeForSome(added[k], c, groups, attempts))
       && (forall k :: 0 <= k < |notices| ==> Accounts(notices[k], c, added, groups, attempts))
       && o.made == GeneratedAmong(added)
  }

  lemma SomeOfMore(m: Manifest, c: Content, groups: seq<Group>, g: Group, attempts: string -> Attempt)
    requires MadeForSome(m, c, groups, attempts)
    ensures MadeForSome(m, c, groups + [g], attempts)
  {
    var i :| 0 <= i < |groups| && MadeFor(m, c, groups[i], attempts(groups[i].device));
    assert (groups + [g])[i] == groups[i];
  }

  lemma AccountsForMore(n: Notice, c: Content, added: seq<Manifest>, more: seq<Manifest>, groups: seq<Group>, g: Group, attempts: string -> Attempt)
    requires Accounts(n, c, added, groups, attempts)
    ensures Accounts(n, c, added + more, groups + [g], attempts)
  {
    if n.ManifestFailed? {
      var i :| 0 <= i < |groups| && n.failedDevice == Some(groups[i].device) && attempts(groups[i].device) in {FailsBefore, FailsAfter};
      assert (groups + [g])[i] == groups[i];
    } else {
      var m :| m in added && m.status == Generated && m.id == n.id && m.campaign == n.campaign && m.device == n.device && m.version == n.version;
      assert m in added + more;
    }
  }

  /** What one device adds. */
  lemma DeviceAdds(l: Ledger, c: Content, g: Group, attempts: string -> Attempt)
    ensures Adds(l, ForDevice(l, c, g, attempts(g.device)), c, [g], attempts)
  {
    var attempt, o := attempts(g.device), ForDevice(l, c, g, attempts(g.device));
    var added, notices := o.ledger.manifests[|l.manifests|..], o.ledger.outbox[|l.outbox|..];
    assert [g][0] == g;
    if HasId(l.manifests, IdFor(c, g)) || attempt == FailsBefore {
      assert added == [];
    } else {
      NewManifestIsMadeFor(l, c, g, attempt);
      assert |added| == 1 && added[..0] == [] && added[0] in added;
    }
  }

  lemma {:induction false} GeneratedAppend(a: seq<Manifest>, b: seq<Manifest>)
    ensures GeneratedAmong(a + b) == GeneratedAmong(a) + GeneratedAmong(b)
    decreases |b|
  {
    if b == [] {
      assert a + b == a;
    } else {
      GeneratedAppend(a, b[..|b| - 1]);
      assert (a + b)[..|a + b| - 1] == a + b[..|b| - 1];
    }
  }

  lemma AccountsForLast(n: Notice, c: Content, added: seq<Manifest>, more: seq<Manifest>, groups: seq<Group>, g: Group, attempts: string -> Attempt)
    requires Accounts(n, c, more, [g], attempts)
    ensures Accounts(n, c, added + more, groups + [g], attempts)
  {
    if n.ManifestFailed? {
      assert (groups + [g])[|groups|] == g;
    } else {
      var m :| m in more && m.status == Generated && m.id == n.id && m.campaign == n.campaign && m.device == n.device && m.version == n.version;
      assert m in added + more;
    }
  }

  lemma AllMade(a: seq<Manifest>, b: seq<Manifest>, c: Content, groups: seq<Group>, g: Group, attempts: string -> Attempt)
    requires forall k :: 0 <= k < |a| ==> MadeForSome(a[k], c, groups, attempts)
    requires forall k :: 0 <= k < |b| ==> MadeForSome(b[k], c, [g], attempts)
    ensures forall k :: 0 <= k < |a + b| ==> MadeForSome((a + b)[k], c, groups + [g], attempts)
  {
    forall k | 0 <= k < |a + b| ensures MadeForSome((a + b)[k], c, groups + [g], attempts) {
      if k < |a| {
        SomeOfMore(a[k], c, groups, g, attempts);
      } else {
        assert MadeForSome(b[k - |a|], c, [g], attempts);
        assert (groups + [g])[|groups|] == g;
      }
    }
  }

  lemma AllAccounted(m: seq<Notice>, n: seq<Notice>, c: Content, a: seq<Manifest>, b: seq<Manifest>, groups: seq<Group>, g: Group, attempts: string -> Attempt)
    requires forall k :: 0 <= k < |m| ==> Accounts(m[k], c, a, groups, attempts)
    requires forall k :: 0 <= k < |n| ==> Accounts(n[k], c, b, [g], attempts)
    ensures forall k :: 0 <= k < |m + n| ==> Accounts((m + n)[k], c, a + b, groups + [g], attempts)
  {
    forall k | 0 <= k < |m + n| ensures Accounts((m + n)[k], c, a + b, groups + [g], attempts) {
      if k < |m| {
        AccountsForMore(m[k], c, a, b, groups, g, attempts);
      } else {
        AccountsForLast(n[k - |m|], c, a, b, groups, g, attempts);
      }
    }
  }

  lemma RestsAppend<T>(a: seq<T>, b: seq<T>, c: seq<T>)
    requires a <= b <= c
    ensures c[|a|..] == b[|a|..] + c[|b|..]
  {
  }

  lemma NextAdds(l: Ledger, before: Outcome, now: Outcome, c: Content, groups: seq<Group>, g: Group, attempts: string -> Attempt)
    requires Adds(l, before, c, groups, attempts) && Adds(before.ledger, now, c, [g], attempts)
    ensures Adds(l, now.(made := before.made + now.made), c, groups + [g], attempts)
  {
    var a, b := before.ledger.manifests[|l.manifests|..], now.ledger.manifests[|before.ledger.manifests|..];
    var m, n := before.ledger.outbox[|l.outbox|..], now.ledger.outbox[|before.ledger.outbox|..];
    RestsAppend(l.manifests, before.ledger.manifests, now.ledger.manifests);
    RestsAppend(l.outbox, before.ledger.outbox, now.ledger.outbox);
    GeneratedAppend(a, b);
    AllMade(a, b, c, groups, g, attempts);
    AllAccounted(m, n, c, a, b, groups, g, attempts);
  }

  /** Every row that a run over the devices adds is made for one of them, every notice announces such a row or tells
      of a failure of one of them, and the run says exactly how many manifests it generated. */
  lemma {:induction false} DevicesAdd(l: Ledger, c: Content, groups: seq<Group>, attempts: string -> Attempt)
    ensures Adds(l, ForDevices(l, c, groups, attempts), c, groups, attempts)
  {
    if groups == [] {
      assert l.manifests[|l.manifests|..] == [] && l.outbox[|l.outbox|..] == [];
    } else {
      var front, g := groups[..|groups| - 1], groups[|groups| - 1];
      var before := ForDevices(l, c, front, attempts);
      DevicesAdd(l, c, front, attempts);
      assert front + [g] == groups;
      if before.raised {
        RaisedAdds(l, before, c, front, g, attempts);
      } else {
        DeviceAdds(before.ledger, c, g, attempts);
        NextAdds(l, before, ForDevice(before.ledger, c, g, attempts(g.device)), c, front, g, attempts);
      }
    }
  }

  lemma RaisedAdds(l: Ledger, before: Outcome, c: Content, groups: seq<Group>, g: Group, attempts: string -> Attempt)
    requires Adds(l, before, c, groups, attempts)
    ensures Adds(l, before, c, groups + [g], attempts)
  {
    var added, notices := before.ledger.manifests[|l.manifests|..], before.ledger.outbox[|l.outbox|..];
    forall k | 0 <= k < |added| ensures MadeForSome(added[k], c, groups + [g], attempts) {
      SomeOfMore(added[k], c, groups, g, attempts);
    }
    forall k | 0 <= k < |notices| ensures Accounts(notices[k], c, added, groups + [g], attempts) {
      AccountsForMore(notices[k], c, added, [], groups, g, attempts);
      assert added + [] == added;
    }
  }

  /** A generation run: nothing for a campaign that is not eligible; one notice of failure if there are no devices; and
      a plan row exactly if no exception escaped and at least one manifest was generated. */
  lemma PlanExactly(l: Ledger, c: Content, eligible: bool, groups: seq<Group>, attempts: string -> Attempt)
    ensures var o := Generate(l, c, eligible, groups, attempts);
            && (!eligible ==> o == Outcome(l, 0, false))
            && (eligible && groups == [] ==> o == Outcome(l.(outbox := l.outbox + [ManifestFailed(c.id, None)]), 0, false))
            && (eligible && groups != [] ==>
                  && Adds(l, o.(ledger := o.ledger.(plans := l.plans)), c, groups, attempts)
                  && o.made == GeneratedAmong(o.ledger.manifests[|l.manifests|..])
                  && o.ledger.plans == if !o.raised && o.made > 0 then l.plans + [Plan(c.id, VersionHash(c))] else l.plans)
  {
    DevicesAdd(l, c, groups, attempts);
  }

  /// ---------------------------------------------------------------------
  /// How ids tell contents apart
  /// ---------------------------------------------------------------------

  ghost predicate AllPlain(parts: seq<string>) {
    forall i :: 0 <= i < |parts| ==> Plain(parts[i])
  }

  lemma JoinFirst(x: string, rest: seq<string>)
    requires rest != []
    ensures Join([x] + rest) == x + [SEP] + Join(rest)
  {
    assert ([x] + rest)[1..] == rest;
  }

  /** Equal texts, after as many plain parts: the parts are equal, and so is what follows. */
  lemma {:induction false} PlainPartsAgree(p: seq<string>, q: seq<string>, rest: seq<string>, rest': seq<string>)
    requires |p| == |q| && AllPlain(p) && AllPlain(q) && rest != [] && rest' != [] && Join(p + rest) == Join(q + rest')
    ensures p == q && Join(rest) == Join(rest')
    decreases |p|
  {
    if p == [] {
      assert p + rest == rest && q + rest' == rest';
    } else {
      assert p + rest == [p[0]] + (p[1..] + rest) && q + rest' == [q[0]] + (q[1..] + rest');
      JoinFirst(p[0], p[1..] + rest);
      JoinFirst(q[0], q[1..] + rest');
      FirstPartIsUnique(p[0], q[0], Join(p[1..] + rest), Join(q[1..] + rest'));
      PlainPartsAgree(p[1..], q[1..], rest, rest');
    }
  }

  ghost predicate PlainFlight(f: Flight) {
    Plain(f.id) && Plain(f.startAt) && Plain(f.endAt) && Plain(f.dayparting) && Plain(f.days)
  }

  lemma DataIsFour(f: Flight)
    ensures f.Data() == f.startAt + [SEP] + (f.endAt + [SEP] + (f.dayparting + [SEP] + f.days))
  {
    JoinFirst(f.startAt, [f.endAt, f.dayparting, f.days]);
    JoinFirst(f.endAt, [f.dayparting, f.days]);
    JoinFirst(f.dayparting, [f.days]);
    assert [f.startAt] + [f.endAt, f.dayparting, f.days] == [f.startAt, f.endAt, f.dayparting, f.days];
    assert [f.endAt] + [f.dayparting, f.days] == [f.endAt, f.dayparting, f.days];
    assert [f.dayparting] + [f.days] == [f.dayparting, f.days];
  }

  /** Two flights' data, each followed by a separator and more. */
  lemma DataAgree(f: Flight, g: Flight, a: string, b: string)
    requires PlainFlight(f) && PlainFlight(g) && f.Data() + [SEP] + a == g.Data() + [SEP] + b
    ensures f.Data() == g.Data() && a == b
  {
    DataIsFour(f);
    DataIsFour(g);
    assert f.Data() + [SEP] + a == f.startAt + [SEP] + (f.endAt + [SEP] + (f.dayparting + [SEP] + (f.days + [SEP] + a)));
    assert g.Data() + [SEP] + b == g.startAt + [SEP] + (g.endAt + [SEP] + (g.dayparting + [SEP] + (g.days + [SEP] + b)));
    FirstPartIsUnique(f.startAt, g.startAt, f.endAt + [SEP] + (f.dayparting + [SEP] + (f.days + [SEP] + a)), g.endAt + [SEP] + (g.dayparting + [SEP] + (g.days + [SEP] + b)));
    FirstPartIsUnique(f.endAt, g.endAt, f.dayparting + [SEP] + (f.days + [SEP] + a), g.dayparting + [SEP] + (g.days + [SEP] + b));
    FirstPartIsUnique(f.dayparting, g.dayparting, f.days + [SEP] + a, g.days + [SEP] + b);
    FirstPartIsUnique(f.days, g.days, a, b);
  }

  ghost predicate IsData(x: string) {
    exists f: Flight :: PlainFlight(f) && x == f.Data()
  }

  lemma {:induction false} DataPartsAgree(p: seq<string>, q: seq<string>, rest: seq<string>, rest': seq<string>)
    requires |p| == |q| && (forall i :: 0 <= i < |p| ==> IsData(p[i]) && IsData(q[i]))
    requires rest != [] && rest' != [] && Join(p + rest) == Join(q + rest')
    ensures p == q && Join(rest) == Join(rest')
    decreases |p|
  {
    if p == [] {
      assert p + rest == rest && q + rest' == rest';
    } else {
      assert p + rest == [p[0]] + (p[1..] + rest) && q + rest' == [q[0]] + (q[1..] + rest');
      JoinFirst(p[0], p[1..] + rest);
      JoinFirst(q[0], q[1..] + rest');
      var f: Flight :| PlainFlight(f) && p[0] == f.Data();
      var g: Flight :| PlainFlight(g) && q[0] == g.Data();
      DataAgree(f, g, Join(p[1..] + rest), Join(q[1..] + rest'));
      DataPartsAgree(p[1..], q[1..], rest, rest');
    }
  }

  /** All texts are free of the separator. */
  ghost predicate PlainContent(c: Content) {
    && Plain(c.id) && Plain(c.status) && Plain(c.updatedAt)
    && (forall a :: a in c.assets ==> Plain(a.id) && Plain(a.checksum))
    && (forall f :: f in c.flights ==> PlainFlight(f))
    && AllPlain(c.placements)
  }

  /** The five sorted lists that go into an id. */
  function AssetIds(c: Content): seq<string> { Mapped((a: Asset) => a.id, c.assets) }
  function Checksums(c: Content): seq<string> { Mapped((a: Asset) => a.checksum, c.assets) }
  function FlightIds(c: Content): seq<string> { Mapped((f: Flight) => f.id, c.flights) }
  function FlightData(c: Content): seq<string> { Mapped((f: Flight) => f.Data(), c.flights) }

  lemma SortKeepsAll(s: seq<string>)
    ensures multiset(Sort(s)) == multiset(s) && |Sort(s)| == |s| && forall x :: x in Sort(s) <==> x in s
  {
    Sorting.SortKeeps(s, LexLeq);
    assert |multiset(Sort(s))| == |Sort(s)| && |multiset(s)| == |s|;
    forall x ensures x in Sort(s) <==> x in s {
      assert x in multiset(Sort(s)) <==> x in multiset(s);
    }
  }

  lemma SortedPlain(s: seq<string>)
    requires AllPlain(s)
    ensures AllPlain(Sort(s)) && |Sort(s)| == |s|
  {
    SortKeepsAll(s);
    forall i | 0 <= i < |Sort(s)| ensures Plain(Sort(s)[i]) {
      assert Sort(s)[i] in s;
    }
  }

  lemma EqualSortsEqualSets(s: seq<string>, t: seq<string>)
    requires Sort(s) == Sort(t)
    ensures multiset(s) == multiset(t)
  {
    SortKeepsAll(s);
    SortKeepsAll(t);
  }

  /** Flights sorted by id and then by their data are the data sorted. */
  lemma PartsAre(c: Content)
    ensures ContentParts(c) ==
            [c.id, c.status, c.updatedAt] + Sort(AssetIds(c)) + Sort(Checksums(c)) + Sort(FlightIds(c)) + Sort(FlightData(c)) + Sort(c.placements)
  {
    var data := (f: Flight) => f.Data();
    Sorting.SortKeeps(c.flights, ById);
    MappedForgetsOrder(data, Sorting.Sort(c.flights, ById), c.flights);
    SortForgetsOrder(Mapped(data, Sorting.Sort(c.flights, ById)), Mapped(data, c.flights));
  }

  lemma PlainLists(c: Content)
    requires PlainContent(c)
    ensures AllPlain(Sort(AssetIds(c))) && AllPlain(Sort(Checksums(c))) && AllPlain(Sort(FlightIds(c))) && AllPlain(Sort(c.placements))
    ensures |Sort(AssetIds(c))| == |c.assets| && |Sort(Checksums(c))| == |c.assets|
    ensures |Sort(FlightIds(c))| == |c.flights| && |Sort(FlightData(c))| == |c.flights| && |Sort(c.placements)| == |c.placements|
    ensures forall i :: 0 <= i < |Sort(FlightData(c))| ==> IsData(Sort(FlightData(c))[i])
  {
    forall i | 0 <= i < |c.flights| ensures Plain(FlightIds(c)[i]) {
      assert PlainFlight(c.flights[i]);
    }
    SortedPlain(AssetIds(c));
    SortedPlain(Checksums(c));
    SortedPlain(FlightIds(c));
    SortedPlain(c.placements);
    SortKeepsAll(FlightData(c));
    forall i | 0 <= i < |Sort(FlightData(c))| ensures IsData(Sort(FlightData(c))[i]) {
      assert Sort(FlightData(c))[i] in FlightData(c);
      var j :| 0 <= j < |c.flights| && FlightData(c)[j] == Sort(FlightData(c))[i];
      assert PlainFlight(c.flights[j]);
    }
  }

  /** As many rows of each kind. */
  predicate SameCounts(c: Content, d: Content) {
    |c.assets| == |d.assets| && |c.flights| == |d.flights| && |c.placements| == |d.placements|
  }

  /** The same texts of each kind, in whatever order. */
  ghost predicate SameTexts(c: Content, d: Content) {
    && c.id == d.id && c.status == d.status && c.updatedAt == d.updatedAt
    && multiset(AssetIds(c)) == multiset(AssetIds(d)) && multiset(Checksums(c)) == multiset(Checksums(d))
    && multiset(FlightIds(c)) == multiset(FlightIds(d)) && multiset(FlightData(c)) == multiset(FlightData(d))
    && multiset(c.placements) == multiset(d.placements)
  }

  lemma Grouped(c: Content, rest: seq<string>)
    ensures ContentParts(c) + rest ==
            [c.id, c.status, c.updatedAt] + (Sort(AssetIds(c)) + (Sort(Checksums(c)) + (Sort(FlightIds(c)) + (Sort(FlightData(c)) + (Sort(c.placements) + rest)))))
  {
    PartsAre(c);
  }

  /** Manifest ids that agree were computed for the same device, with the same surfaces, from the same texts: a changed
      asset, checksum, flight, window, placement, status or update time gives another id. */
  lemma IdsTellApart(c: Content, d: Content, surfaces: seq<string>, surfaces': seq<string>, device: string, device': string)
    requires PlainContent(c) && PlainContent(d) && SameCounts(c, d)
    requires AllPlain(surfaces) && AllPlain(surfaces') && |surfaces| == |surfaces'| && Plain(device) && Plain(device')
    ensures ManifestId(c, surfaces, device) == ManifestId(d, surfaces', device') <==>
            SameTexts(c, d) && multiset(surfaces) == multiset(surfaces') && device == device'
  {
    if ManifestId(c, surfaces, device) == ManifestId(d, surfaces', device') {
      EqualIdsEqualTexts(c, d, surfaces, surfaces', device, device');
    }
    if SameTexts(c, d) && multiset(surfaces) == multiset(surfaces') && device == device' {
      SameTextsSameParts(c, d);
      SortForgetsOrder(surfaces, surfaces');
    }
  }

  lemma SameTextsSameParts(c: Content, d: Content)
    requires SameTexts(c, d)
    ensures ContentParts(c) == ContentParts(d)
  {
    PartsAre(c);
    PartsAre(d);
    SortForgetsOrder(AssetIds(c), AssetIds(d));
    SortForgetsOrder(Checksums(c), Checksums(d));
    SortForgetsOrder(FlightIds(c), FlightIds(d));
    SortForgetsOrder(FlightData(c), FlightData(d));
    SortForgetsOrder(c.placements, d.placements);
  }

  lemma EqualIdsEqualTexts(c: Content, d: Content, surfaces: seq<string>, surfaces': seq<string>, device: string, device': string)
    requires PlainContent(c) && PlainContent(d) && SameCounts(c, d)
    requires AllPlain(surfaces) && AllPlain(surfaces') && |surfaces| == |surfaces'| && Plain(device) && Plain(device')
    requires ManifestId(c, surfaces, device) == ManifestId(d, surfaces', device')
    ensures SameTexts(c, d) && multiset(surfaces) == multiset(surfaces') && device == device'
  {
    var a, b := Sort(surfaces) + [device], Sort(surfaces') + [device'];
    assert ContentParts(c) + Sort(surfaces) + [device] == ContentParts(c) + a;
    assert ContentParts(d) + Sort(surfaces') + [device'] == ContentParts(d) + b;
    EqualJoinsEqualTexts(c, d, a, b);
    SortedPlain(surfaces);
    SortedPlain(surfaces');
    PlainPartsAgree(Sort(surfaces), Sort(surfaces'), [device], [device']);
    EqualSortsEqualSets(surfaces, surfaces');
  }

  /** From the placements' end to the front: what follows the flights' ids. */
  lemma FlightPartsAgree(c: Content, d: Content, a: seq<string>, b: seq<string>)
    requires PlainContent(c) && PlainContent(d) && SameCounts(c, d) && a != [] && b != []
    requires Join(Sort(FlightIds(c)) + (Sort(FlightData(c)) + (Sort(c.placements) + a))) == Join(Sort(FlightIds(d)) + (Sort(FlightData(d)) + (Sort(d.placements) + b)))
    ensures Sort(FlightIds(c)) == Sort(FlightIds(d)) && Sort(FlightData(c)) == Sort(FlightData(d)) && Sort(c.placements) == Sort(d.placements)
    ensures Join(a) == Join(b)
  {
    PlainLists(c);
    PlainLists(d);
    var c2, d2 := Sort(c.placements) + a, Sort(d.placements) + b;
    var c1, d1 := Sort(FlightData(c)) + c2, Sort(FlightData(d)) + d2;
    PlainPartsAgree(Sort(FlightIds(c)), Sort(FlightIds(d)), c1, d1);
    DataPartsAgree(Sort(FlightData(c)), Sort(FlightData(d)), c2, d2);
    PlainPartsAgree(Sort(c.placements), Sort(d.placements), a, b);
  }

  lemma HeadsAgree(c: Content, d: Content, rest: seq<string>, rest': seq<string>)
    requires PlainContent(c) && PlainContent(d) && rest != [] && rest' != []
    requires Join([c.id, c.status, c.updatedAt] + rest) == Join([d.id, d.status, d.updatedAt] + rest')
    ensures c.id == d.id && c.status == d.status && c.updatedAt == d.updatedAt && Join(rest) == Join(rest')
  {
    var p, q := [c.id, c.status, c.updatedAt], [d.id, d.status, d.updatedAt];
    PlainPartsAgree(p, q, rest, rest');
    assert p[0] == q[0] && p[1] == q[1] && p[2] == q[2];
  }

  lemma AssetPartsAgree(c: Content, d: Content, a: seq<string>, b: seq<string>)
    requires PlainContent(c) && PlainContent(d) && SameCounts(c, d) && a != [] && b != []
    requires Join(Sort(AssetIds(c)) + (Sort(Checksums(c)) + a)) == Join(Sort(AssetIds(d)) + (Sort(Checksums(d)) + b))
    ensures Sort(AssetIds(c)) == Sort(AssetIds(d)) && Sort(Checksums(c)) == Sort(Checksums(d)) && Join(a) == Join(b)
  {
    PlainLists(c);
    PlainLists(d);
    PlainPartsAgree(Sort(AssetIds(c)), Sort(AssetIds(d)), Sort(Checksums(c)) + a, Sort(Checksums(d)) + b);
    PlainPartsAgree(Sort(Checksums(c)), Sort(Checksums(d)), a, b);
  }

  lemma EqualJoinsEqualTexts(c: Content, d: Content, a: seq<string>, b: seq<string>)
    requires PlainContent(c) && PlainContent(d) && SameCounts(c, d) && a != [] && b != []
    requires Join(ContentParts(c) + a) == Join(ContentParts(d) + b)
    ensures SameTexts(c, d) && Join(a) == Join(b)
  {
    Grouped(c, a);
    Grouped(d, b);
    var c2, d2 := Sort(FlightIds(c)) + (Sort(FlightData(c)) + (Sort(c.placements) + a)), Sort(FlightIds(d)) + (Sort(FlightData(d)) + (Sort(d.placements) + b));
    HeadsAgree(c, d, Sort(AssetIds(c)) + (Sort(Checksums(c)) + c2), Sort(AssetIds(d)) + (Sort(Checksums(d)) + d2));
    AssetPartsAgree(c, d, c2, d2);
    FlightPartsAgree(c, d, a, b);
    EqualSortsEqualSets(AssetIds(c), AssetIds(d));
    EqualSortsEqualSets(Checksums(c), Checksums(d));
    EqualSortsEqualSets(FlightIds(c), FlightIds(d));
    EqualSortsEqualSets(FlightData(c), FlightData(d));
    EqualSortsEqualSets(c.placements, d.placements);
  }

  /// ---------------------------------------------------------------------
  /// Which surfaces a placement picks
  /// ---------------------------------------------------------------------

  /** One placement alone: it stands for the surface that it names; if it names none, for all surfaces of its store;
      if it names no store either, of its cluster; else of its branch; and for nothing if it names none of these. */
  lemma PickedExactly(fleet: set<Row>, p: Placement, surface: string, device: string)
    ensures Wanted(fleet, [p], surface, device) <==>
            exists r :: r in fleet && r.surface == surface && r.device == device && r.surfaceActive && r.deviceActive && StandsFor(p, r)
  {
    assert p in [p];
    if r :| r in fleet && r.surface == surface && r.device == device && r.surfaceActive && r.deviceActive && StandsFor(p, r) {
      assert Picks(p, r);
    }
    if Wanted(fleet, [p], surface, device) {
      var r, q :| r in fleet && q in [p] && Picks(q, r) && r.surfaceActive && r.deviceActive && r.surface == surface && r.device == device;
      assert StandsFor(p, r);
    }
  }

  predicate StandsFor(p: Placement, r: Row) {
    || (p.surface != "" && r.surface == p.surface)
    || (p.surface == "" && p.store != "" && r.store == p.store)
    || (p.surface == "" && p.store == "" && p.cluster != "" && r.cluster.Some? && r.cluster.value == p.cluster)
    || (p.surface == "" && p.store == "" && p.cluster == "" && p.branch != "" && r.branch.Some? && r.branch.value == p.branch)
  }

  /** Several placements stand for what any of them stands for. */
  lemma WantedOfAny(fleet: set<Row>, placements: seq<Placement>, surface: string, device: string)
    ensures Wanted(fleet, placements, surface, device) <==> exists p :: p in placements && Wanted(fleet, [p], surface, device)
  {
    if Wanted(fleet, placements, surface, device) {
      var r, p :| r in fleet && p in placements && Picks(p, r) && r.surfaceActive && r.deviceActive && r.surface == surface && r.device == device;
      assert p in [p] && Wanted(fleet, [p], surface, device);
    }
    if p :| p in placements && Wanted(fleet, [p], surface, device) {
      var r, q :| r in fleet && q in [p] && Picks(q, r) && r.surfaceActive && r.deviceActive && r.surface == surface && r.device == device;
      assert q == p;
    }
  }
}
