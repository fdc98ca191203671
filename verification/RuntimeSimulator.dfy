/** The headless runtime of one device: manifest apply, kill switch, rendering, proof-of-play, offline limit. */
module RuntimeSimulator {
  import opened Common
  import Generation = ManifestGeneration
  import Consumer = DeliveryConsumer

  /** An ISO timestamp field: missing or empty, unreadable or without UTC offset, or an instant. */
  datatype Stamp = Absent | Garbled | At(instant: int) {
    predicate Given() { this != Absent }
    /** _is_past: an unreadable timestamp is not. */
    predicate Past(now: int) { At? && instant < now }
  }

  /** A manifest document; missing text fields are "". `text` is its lower-cased JSON rendering. */
  datatype Manifest = Manifest(
    id: string,
    device: string,
    store: string,
    channel: string,
    version: Option<int>,
    hasSurfaces: bool,
    emergencyFlag: bool,
    algorithm: string,
    signature: string,
    validFrom: Stamp,
    validTo: Stamp,
    ttlHours: int,
    fallbackWhenExpired: bool,
    emitPop: bool,
    text: string)

  const FORBIDDEN_TERMS: seq<string> := [
    "storage_bucket", "storage_key", "access_key",
    "secret_key", "presigned_url", "token",
    "email", "phone", "password"
  ]

  predicate Contains(text: string, term: string) {
    exists i :: 0 <= i <= |text| && term <= text[i..]
  }

  /** What a device is set up with; an empty key accepts unsigned manifests. `verify` is the HMAC check. */
  datatype Config = Config(device: string, signingKey: string, verify: (Manifest, string, string) -> bool)

  datatype KillSwitch = KillSwitch(global: bool, store: bool, device: bool, campaigns: map<string, bool>)

  datatype Level = GlobalLevel | StoreLevel | DeviceLevel | CampaignLevel(campaign: string) | UnknownLevel

  datatype Event = Event(id: string, device: string, manifest: string, campaign: string, asset: string, surface: string, duration: int)

  datatype Sim = Sim(
    current: Option<Manifest>,
    lastGood: Option<Manifest>,
    kill: KillSwitch,
    stale: bool,
    queue: seq<Event>,
    ids: set<string>,
    offlineStart: Option<real>,
    offlineDuration: real)

  const BOOT: Sim := Sim(None, None, KillSwitch(false, false, false, map[]), true, [], {}, None, 0.0)

  datatype Failure =
    | InvalidShape | ForbiddenTerm | WrongDevice | OldVersion | PlaceholderSignature
    | MissingSignature | UnknownAlgorithm | WrongSignature

  datatype Refusal = KillSwitchActive | OfflineTtlExpired | NoManifest | ManifestExpired | NotYetValid

  /** What a render call asks for; `fallback` says that filler content is shown. */
  datatype Request = Request(campaign: string, surface: string, asset: string, duration: int, fallback: bool)

  /** Played with an event (new or already known), played without one, or refused. */
  datatype Rendered = Played(event: Option<string>) | NotPlayed(reason: Refusal)

  /// ---------------------------------------------------------------------
  /// Specification
  /// ---------------------------------------------------------------------

  predicate WellShaped(m: Manifest) {
    m.id != "" && m.device != "" && m.store != "" && m.channel != "" && m.version.Some? && m.hasSurfaces
  }

  predicate Leaks(m: Manifest) {
    exists k :: 0 <= k < |FORBIDDEN_TERMS| && Contains(m.text, FORBIDDEN_TERMS[k])
  }

  /** The first reason to refuse a manifest. */
  function Objection(s: Sim, c: Config, m: Manifest): Option<Failure> {
    if !WellShaped(m) then Some(InvalidShape)
    else if Leaks(m) then Some(ForbiddenTerm)
    else if m.device != c.device then Some(WrongDevice)
    else if s.current.Some? && m.version.value <= VersionOf(s.current.value) && !m.emergencyFlag then Some(OldVersion)
    else SignatureObjection(c, m)
  }

  function SignatureObjection(c: Config, m: Manifest): Option<Failure> {
    if m.signature == "INVALID" then Some(PlaceholderSignature)
    else if c.signingKey == "" then None
    else if m.signature == "" then Some(MissingSignature)
    else if m.algorithm != "HMAC-SHA256" then Some(UnknownAlgorithm)
    else if !c.verify(m, m.signature, c.signingKey) then Some(WrongSignature)
    else None
  }

  function VersionOf(m: Manifest): int {
    if m.version.Some? then m.version.value else 0
  }

  function Applied(s: Sim, m: Manifest): Sim {
    s.(lastGood := s.current, current := Some(m))
  }

  predicate KillActive(s: Sim, campaign: string) {
    || s.stale
    || (campaign != "" && campaign in s.kill.campaigns && s.kill.campaigns[campaign])
    || s.kill.device || s.kill.store || s.kill.global
  }

  function OfflineSeconds(s: Sim, mono: real): real {
    if s.offlineStart.Some? then s.offlineDuration + (mono - s.offlineStart.value) else s.offlineDuration
  }

  predicate TtlExpired(s: Sim, mono: real) {
    s.current.Some? && OfflineSeconds(s, mono) >= (s.current.value.ttlHours * 3600) as real
  }

  function EventFor(c: Config, m: Manifest, r: Request, id: string): Event {
    Event(id, c.device, m.id, r.campaign, r.asset, r.surface, r.duration)
  }

  /** The gates in order; `id` is the event id drawn. */
  function Gated(s: Sim, r: Request, now: int, mono: real): Option<Refusal> {
    if KillActive(s, r.campaign) then Some(KillSwitchActive)
    else if TtlExpired(s, mono) && !r.fallback then Some(OfflineTtlExpired)
    else if s.current.None? then Some(NoManifest)
    else if s.current.value.validTo.Past(now) && (!r.fallback || !s.current.value.fallbackWhenExpired) then Some(ManifestExpired)
    else if s.current.value.validFrom.Given() && !s.current.value.validFrom.Past(now) then Some(NotYetValid)
    else None
  }

  /** A render emits an event: it passes the gates, and filler content only if the manifest says so. */
  predicate Emits(s: Sim, r: Request, now: int, mono: real) {
    Gated(s, r, now, mono).None? && s.current.Some? && (r.fallback ==> s.current.value.emitPop)
  }

  function RenderedSlot(s: Sim, c: Config, r: Request, id: string, now: int, mono: real): (Sim, Rendered) {
    if Gated(s, r, now, mono).Some? then (s, NotPlayed(Gated(s, r, now, mono).value))
    else if !Emits(s, r, now, mono) then (s, Played(None))
    else if id in s.ids then (s, Played(Some(id)))
    else (s.(queue := s.queue + [EventFor(c, s.current.value, r, id)], ids := s.ids + {id}), Played(Some(id)))
  }

  function KillSet(k: KillSwitch, level: Level, active: bool): KillSwitch {
    match level
    case GlobalLevel => k.(global := active)
    case StoreLevel => k.(store := active)
    case DeviceLevel => k.(device := active)
    case CampaignLevel(campaign) => k.(campaigns := k.campaigns[campaign := active])
    case UnknownLevel => k
  }

  function WentOffline(s: Sim, offline: bool, mono: real): Sim {
    if !offline then s.(offlineStart := None)
    else if s.offlineStart.None? then s.(offlineStart := Some(mono))
    else s
  }

  function Advanced(s: Sim, hours: real, mono: real): Sim {
    var duration := s.offlineDuration + hours * 3600.0;
    s.(offlineDuration := duration, offlineStart := if s.offlineStart.Some? then Some(mono - duration) else None)
  }

  /// ---------------------------------------------------------------------
  /// The code
  /// ---------------------------------------------------------------------

  class Simulator {
    const config: Config
    var current: Option<Manifest>
    var lastGood: Option<Manifest>
    var kill: KillSwitch
    var stale: bool
    var queue: seq<Event>
    var ids: set<string>
    var offlineStart: Option<real>
    var offlineDuration: real

    constructor (config: Config)
      ensures this.config == config && Snapshot() == BOOT
    {
      this.config := config;
      current, lastGood, kill, stale := None, None, KillSwitch(false, false, false, map[]), true;
      queue, ids := [], {};
      offlineStart, offlineDuration := None, 0.0;
    }

    function Snapshot(): Sim
      reads this
    {
      Sim(current, lastGood, kill, stale, queue, ids, offlineStart, offlineDuration)
    }

    /** apply_manifest: refused for the first objection and then nothing changes; else current and
        last-known-good move on together. */
    method ApplyManifest(m: Manifest) returns (failure: Option<Failure>)
      modifies this`current, this`lastGood
      ensures failure == Objection(old(Snapshot()), config, m)
      ensures Snapshot() == if failure.None? then Applied(old(Snapshot()), m) else old(Snapshot())
    {
      if !WellShaped(m) {
        return Some(InvalidShape);
      }
      for k := 0 to |FORBIDDEN_TERMS|
        invariant forall j :: 0 <= j < k ==> !Contains(m.text, FORBIDDEN_TERMS[j])
      {
        if Contains(m.text, FORBIDDEN_TERMS[k]) {
          return Some(ForbiddenTerm);
        }
      }
      if m.device != config.device {
        return Some(WrongDevice);
      }
      if current.Some? {
        if m.version.value <= VersionOf(current.value) && !m.emergencyFlag {
          return Some(OldVersion);
        }
      }
      if m.signature == "INVALID" {
        return Some(PlaceholderSignature);
      }
      if config.signingKey != "" {
        if m.signature == "" {
          return Some(MissingSignature);
        }
        if m.algorithm != "HMAC-SHA256" {
          return Some(UnknownAlgorithm);
        }
        if !config.verify(m, m.signature, config.signingKey) {
          return Some(WrongSignature);
        }
      }
      lastGood := current;
      current := Some(m);
      return None;
    }

    method Rollback()
      modifies this`current
      ensures Snapshot() == old(Snapshot()).(current := old(lastGood))
    {
      current := lastGood;
    }

    method SetKillSwitch(level: Level, active: bool)
      modifies this`kill, this`stale
      ensures Snapshot() == old(Snapshot()).(kill := KillSet(old(kill), level, active), stale := false)
    {
      match level {
        case CampaignLevel(campaign) => kill := kill.(campaigns := kill.campaigns[campaign := active]);
        case GlobalLevel => kill := kill.(global := active);
        case StoreLevel => kill := kill.(store := active);
        case DeviceLevel => kill := kill.(device := active);
        case UnknownLevel =>
      }
      stale := false;
    }

    /** clear_kill_switch_cache and refresh_kill_switch. */
    method SetStale(value: bool)
      modifies this`stale
      ensures Snapshot() == old(Snapshot()).(stale := value)
    {
      stale := value;
    }

    /** render_slot; the event id drawn, the wall clock and the monotonic clock are inputs. */
    method RenderSlot(r: Request, id: string, now: int, mono: real) returns (result: Rendered)
      modifies this`queue, this`ids
      ensures (Snapshot(), result) == RenderedSlot(old(Snapshot()), config, r, id, now, mono)
    {
      if KillActive(Snapshot(), r.campaign) {
        return NotPlayed(KillSwitchActive);
      }
      if TtlExpired(Snapshot(), mono) {
        if !r.fallback {
          return NotPlayed(OfflineTtlExpired);
        }
      }
      if current.None? {
        return NotPlayed(NoManifest);
      }
      var manifest := current.value;
      if manifest.validTo.Given() && manifest.validTo.Past(now) {
        if r.fallback && !manifest.fallbackWhenExpired {
          return NotPlayed(ManifestExpired);
        }
        if !r.fallback {
          return NotPlayed(ManifestExpired);
        }
      }
      if manifest.validFrom.Given() && !manifest.validFrom.Past(now) {
        return NotPlayed(NotYetValid);
      }
      if r.fallback {
        if !manifest.emitPop {
          return Played(None);
        }
      }
      if id in ids {
        return Played(Some(id));
      }
      ids := ids + {id};
      queue := queue + [EventFor(config, manifest, r, id)];
      return Played(Some(id));
    }

    method SetOffline(offline: bool, mono: real)
      modifies this`offlineStart
      ensures Snapshot() == WentOffline(old(Snapshot()), offline, mono)
    {
      if offline && offlineStart.None? {
        offlineStart := Some(mono);
      } else if !offline {
        offlineStart := None;
      }
    }

    method AdvanceOfflineClock(hours: real, mono: real)
      modifies this`offlineStart, this`offlineDuration
      ensures Snapshot() == Advanced(old(Snapshot()), hours, mono)
    {
      offlineDuration := offlineDuration + hours * 3600.0;
      if offlineStart.Some? {
        offlineStart := Some(mono - offlineDuration);
      }
    }

    /** pop_events: hand over and clear the queue. */
    method Drain() returns (events: seq<Event>)
      modifies this`queue
      ensures events == old(queue) && Snapshot() == old(Snapshot()).(queue := [])
    {
      events := queue;
      queue := [];
    }

    method Reset()
      modifies this
      ensures Snapshot() == BOOT
    {
      current, lastGood, kill, stale := None, None, KillSwitch(false, false, false, map[]), true;
      queue, ids := [], {};
      offlineStart, offlineDuration := None, 0.0;
    }
  }

  /// ---------------------------------------------------------------------
  /// Runs
  /// ---------------------------------------------------------------------

  datatype Op =
    | Apply(manifest: Manifest)
    | RollBack
    | SetKill(level: Level, active: bool)
    | ClearCache
    | RefreshCache
    | Render(request: Request, id: string, now: int, mono: real)
    | GoOffline(offline: bool, at: real)
    | Advance(hours: real, when: real)
    | DrainQueue
    | ResetAll

  /** An event as it was emitted: under which state, at what times, for which request. */
  datatype Emission = Emission(event: Event, under: Sim, request: Request, now: int, mono: real)

  /** The device, everything it emitted, and the event ids it handed over since the last reset. */
  datatype World = World(sim: Sim, log: seq<Emission>, delivered: seq<string>)

  function EventIds(events: seq<Event>): seq<string> {
    seq(|events|, i requires 0 <= i < |events| => events[i].id)
  }

  function Step(w: World, c: Config, op: Op): World {
    var s := w.sim;
    match op
    case Apply(m) => if Objection(s, c, m).None? then w.(sim := Applied(s, m)) else w
    case RollBack => w.(sim := s.(current := s.lastGood))
    case SetKill(level, active) => w.(sim := s.(kill := KillSet(s.kill, level, active), stale := false))
    case ClearCache => w.(sim := s.(stale := true))
    case RefreshCache => w.(sim := s.(stale := false))
    case Render(r, id, now, mono) =>
      var s' := RenderedSlot(s, c, r, id, now, mono).0;
      if |s'.queue| > |s.queue|
      then w.(sim := s', log := w.log + [Emission(s'.queue[|s'.queue| - 1], s, r, now, mono)])
      else w.(sim := s')
    case GoOffline(offline, at) => w.(sim := WentOffline(s, offline, at))
    case Advance(hours, when) => w.(sim := Advanced(s, hours, when))
    case DrainQueue => w.(sim := s.(queue := []), delivered := w.delivered + EventIds(s.queue))
    case ResetAll => w.(sim := BOOT, delivered := [])
  }

  function Run(w: World, c: Config, ops: seq<Op>): World {
    if ops == [] then w else Step(Run(w, c, ops[..|ops| - 1]), c, ops[|ops| - 1])
  }

  /** An event was lawful when it was emitted: it names the manifest then current, the kill switch was fresh and
      off for its campaign at every level, and unless it is filler (which then had to be asked for by the
      manifest) the manifest had no end of validity, an unreadable one or one not yet past, and the device was within
      its offline limit. */
  ghost predicate Lawful(c: Config, e: Emission) {
    && e.under.current.Some?
    && var m := e.under.current.value;
    && e.event.manifest == m.id && e.event.device == c.device && e.event.campaign == e.request.campaign
    && !e.under.stale && !e.under.kill.global && !e.under.kill.store && !e.under.kill.device
    && (e.event.campaign != "" && e.event.campaign in e.under.kill.campaigns ==> !e.under.kill.campaigns[e.event.campaign])
    && (m.validFrom.At? ==> m.validFrom.instant < e.now) && m.validFrom != Garbled
    && (if e.request.fallback then m.emitPop
        else (m.validTo == Absent || m.validTo == Garbled || e.now <= m.validTo.instant) && OfflineSeconds(e.under, e.mono) < (m.ttlHours * 3600) as real)
  }

  ghost predicate WasEmitted(log: seq<Emission>, e: Event) {
    exists k :: 0 <= k < |log| && log[k].event == e
  }

  /** Every queued event was emitted lawfully; ids are queued or handed over at most once. */
  ghost predicate Inv(w: World, c: Config) {
    && (forall i :: 0 <= i < |w.log| ==> Lawful(c, w.log[i]))
    && (forall i :: 0 <= i < |w.sim.queue| ==> WasEmitted(w.log, w.sim.queue[i]))
    && Distinct(w.delivered + EventIds(w.sim.queue))
    && (forall id :: id in w.delivered + EventIds(w.sim.queue) ==> id in w.sim.ids)
  }

  lemma EmittedIsLawful(s: Sim, c: Config, r: Request, id: string, now: int, mono: real)
    requires Emits(s, r, now, mono)
    ensures Lawful(c, Emission(EventFor(c, s.current.value, r, id), s, r, now, mono))
  {
  }

  lemma RenderKeepsInv(w: World, c: Config, r: Request, id: string, now: int, mono: real)
    requires Inv(w, c)
    ensures Inv(Step(w, c, Render(r, id, now, mono)), c)
  {
    var s := w.sim;
    if Emits(s, r, now, mono) && id !in s.ids {
      var event := EventFor(c, s.current.value, r, id);
      var emission := Emission(event, s, r, now, mono);
      EmittedIsLawful(s, c, r, id, now, mono);
      var w' := Step(w, c, Render(r, id, now, mono));
      assert w'.log == w.log + [emission];
      QueuedIsEmitted(w.log, emission, s.queue);
      var before, after := w.delivered + EventIds(s.queue), w.delivered + EventIds(s.queue + [event]);
      EventIdsAppend(s.queue, event);
      assert after == before + [id];
    }
  }

  lemma EventIdsAppend(queue: seq<Event>, e: Event)
    ensures EventIds(queue + [e]) == EventIds(queue) + [e.id]
  {
    var a, b := EventIds(queue + [e]), EventIds(queue) + [e.id];
    forall i | 0 <= i < |a| ensures a[i] == b[i] {
      assert (queue + [e])[i] == if i < |queue| then queue[i] else e;
    }
  }

  lemma QueuedIsEmitted(log: seq<Emission>, e: Emission, queue: seq<Event>)
    requires forall i :: 0 <= i < |queue| ==> WasEmitted(log, queue[i])
    ensures var queue' := queue + [e.event]; forall i :: 0 <= i < |queue'| ==> WasEmitted(log + [e], queue'[i])
  {
    var log', queue' := log + [e], queue + [e.event];
    assert log'[|log|].event == e.event;
    forall i | 0 <= i < |queue'| ensures WasEmitted(log', queue'[i]) {
      if i < |queue| {
        assert WasEmitted(log, queue[i]);
        var k :| 0 <= k < |log| && log[k].event == queue[i];
        assert log'[k].event == queue'[i];
      }
    }
  }

  lemma StepKeepsInv(w: World, c: Config, op: Op)
    requires Inv(w, c)
    ensures Inv(Step(w, c, op), c)
  {
    match op
    case Render(r, id, now, mono) => RenderKeepsInv(w, c, r, id, now, mono);
    case DrainQueue =>
      var all := w.delivered + EventIds(w.sim.queue);
      assert all + EventIds([]) == all;
    case ResetAll => assert [] + EventIds([]) == [];
    case _ =>
  }

  /** In every run each event ever emitted was lawful at that moment, every queued event is such an event, and
      no event id is handed over twice without a reset in between. */
  lemma {:induction false} PopIsSafe(c: Config, ops: seq<Op>)
    ensures var w := Run(World(BOOT, [], []), c, ops);
            Inv(w, c) && Distinct(w.delivered)
  {
    if ops == [] {
      assert EventIds([]) == [];
    } else {
      PopIsSafe(c, ops[..|ops| - 1]);
      StepKeepsInv(Run(World(BOOT, [], []), c, ops[..|ops| - 1]), c, ops[|ops| - 1]);
    }
    var w := Run(World(BOOT, [], []), c, ops);
    forall i, j | 0 <= i < j < |w.delivered| ensures w.delivered[i] != w.delivered[j] {
      var all := w.delivered + EventIds(w.sim.queue);
      assert all[i] == w.delivered[i] && all[j] == w.delivered[j];
    }
  }

  /** A request is refused as expired exactly when it gets past the gates for kill switch, offline limit and
      manifest, the end of validity is readable and past, and it is not filler that the manifest then allows. */
  lemma ExpiredExactly(s: Sim, c: Config, r: Request, id: string, now: int, mono: real)
    ensures RenderedSlot(s, c, r, id, now, mono).1 == NotPlayed(ManifestExpired) <==>
            && !KillActive(s, r.campaign) && s.current.Some? && (r.fallback || !TtlExpired(s, mono))
            && s.current.value.validTo.At? && s.current.value.validTo.instant < now
            && !(r.fallback && s.current.value.fallbackWhenExpired)
  {
  }

  /** From a reset device: the manifest applied, the kill switch refreshed, one request rendered. */
  function FirstRender(m: Manifest, r: Request, id: string, now: int): seq<Op> {
    [Apply(m), RefreshCache, Render(r, id, now, 0.0)]
  }

  /** A manifest whose end of validity is unreadable or has no UTC offset is applied and never expires: content
      other than filler is shown and billed at whatever time. */
  lemma UnreadableEndNeverExpires(c: Config, m: Manifest, r: Request, id: string, now: int)
    requires Acceptable(c, m) && m.validTo == Garbled && m.validFrom == Absent && m.ttlHours > 0 && !r.fallback
    ensures Run(World(BOOT, [], []), c, FirstRender(m, r, id, now)).sim.queue == [EventFor(c, m, r, id)]
  {
    FirstRenderRuns(c, m, r, id, now);
  }

  lemma FirstRenderRuns(c: Config, m: Manifest, r: Request, id: string, now: int)
    requires Acceptable(c, m)
    ensures Run(World(BOOT, [], []), c, FirstRender(m, r, id, now)) ==
            Step(World(Applied(BOOT, m).(stale := false), [], []), c, Render(r, id, now, 0.0))
  {
    var w, ops := World(BOOT, [], []), FirstRender(m, r, id, now);
    assert ops[..2] == [Apply(m), RefreshCache] && ops[..2][..1] == [Apply(m)] && [Apply(m)][..0] == [];
    assert Run(w, c, [Apply(m)]) == World(Applied(BOOT, m), [], []);
  }

  /** Had its end been readable, it would be shown exactly until then. */
  lemma ReadableEndExpires(c: Config, m: Manifest, r: Request, id: string, now: int)
    requires Acceptable(c, m) && m.validTo.At? && m.validFrom == Absent && m.ttlHours > 0 && !r.fallback
    ensures Run(World(BOOT, [], []), c, FirstRender(m, r, id, now)).sim.queue ==
            if now <= m.validTo.instant then [EventFor(c, m, r, id)] else []
  {
    FirstRenderRuns(c, m, r, id, now);
  }

  /// ---------------------------------------------------------------------
  /// Versions
  /// ---------------------------------------------------------------------

  predicate MayGoBack(op: Op) {
    op.RollBack? || op.ResetAll? || (op.Apply? && op.manifest.emergencyFlag)
  }

  /** The version shown, with nothing before everything. */
  predicate NotOlder(before: Option<Manifest>, after: Option<Manifest>) {
    before.Some? ==> after.Some? && (after == before || VersionOf(before.value) < VersionOf(after.value))
  }

  /** Without rollback, reset or emergency flag the current version never drops, and every change raises it. */
  lemma {:induction false} VersionsOnlyRise(w: World, c: Config, ops: seq<Op>)
    requires forall i :: 0 <= i < |ops| ==> !MayGoBack(ops[i])
    ensures NotOlder(w.sim.current, Run(w, c, ops).sim.current)
  {
    if ops != [] {
      VersionsOnlyRise(w, c, ops[..|ops| - 1]);
      assert !MayGoBack(ops[|ops| - 1]);
    }
  }

  /** A manifest this device accepts whenever its version is new. */
  ghost predicate Acceptable(c: Config, m: Manifest) {
    WellShaped(m) && !Leaks(m) && m.device == c.device && SignatureObjection(c, m).None?
  }

  function Offered(w: World, c: Config, ms: seq<Manifest>): World {
    if ms == [] then w else Step(Offered(w, c, ms[..|ms| - 1]), c, Apply(ms[|ms| - 1]))
  }

  ghost predicate Increasing(versions: seq<nat>) {
    forall i, j :: 0 <= i < j < |versions| ==> versions[i] < versions[j]
  }

  /** The versions of a device's generated manifests, in creation order: what the gateway comes to serve. */
  function GeneratedVersions(rows: seq<Generation.Manifest>, device: string): seq<nat> {
    if rows == [] then []
    else
      var m := rows[|rows| - 1];
      GeneratedVersions(rows[..|rows| - 1], device) + if m.device == device && m.status == Generation.Generated then [m.version] else []
  }

  /** Among versions that count up, those of the generated manifests increase, even where some failed. */
  lemma {:induction false} GeneratedIncrease(rows: seq<Generation.Manifest>, device: string)
    requires Generation.CountsUp(Generation.VersionsOf(rows, device))
    ensures Increasing(GeneratedVersions(rows, device))
    ensures forall i :: 0 <= i < |GeneratedVersions(rows, device)| ==>
              GeneratedVersions(rows, device)[i] <= |Generation.VersionsOf(rows, device)|
  {
    if rows != [] {
      var front, m := rows[..|rows| - 1], rows[|rows| - 1];
      var all, before := Generation.VersionsOf(rows, device), Generation.VersionsOf(front, device);
      forall i | 0 <= i < |before| ensures before[i] == i + 1 {
        assert all[i] == before[i];
      }
      GeneratedIncrease(front, device);
      if m.device == device {
        assert all == before + [m.version] && all[|before|] == m.version;
      }
    }
  }

  /** The manifests the device is offered carry these versions, in order, and nothing else speaks against them. */
  ghost predicate Carry(c: Config, ms: seq<Manifest>, versions: seq<nat>) {
    |ms| == |versions| && forall i :: 0 <= i < |ms| ==> Acceptable(c, ms[i]) && ms[i].version == Some(versions[i])
  }

  lemma {:induction false} AcceptsIncreasing(w: World, c: Config, ms: seq<Manifest>, versions: seq<nat>, n: nat)
    requires w.sim.current.None? && Increasing(versions) && Carry(c, ms, versions) && 0 < n <= |ms|
    ensures Offered(w, c, ms[..n]).sim.current == Some(ms[n - 1])
  {
    var offers := ms[..n];
    assert offers[..n - 1] == ms[..n - 1];
    if n > 1 {
      AcceptsIncreasing(w, c, ms, versions, n - 1);
      assert versions[n - 2] < versions[n - 1];
    } else {
      assert offers[..0] == [];
    }
  }

  const NO_DELIVERIES: Generation.Ledger := Generation.Ledger([], [], [])

  /** After any run of the delivery pipeline, a device offered the manifests generated for it, in creation order,
      accepts each of them: after the n-th offer the n-th is current. */
  lemma AcceptsGenerated(run: seq<Consumer.Delivery>, w: World, c: Config, ms: seq<Manifest>, n: nat)
    requires w.sim.current.None? && 0 < n <= |ms|
    requires Carry(c, ms, GeneratedVersions(Consumer.RunAll(NO_DELIVERIES, run).manifests, c.device))
    ensures Offered(w, c, ms[..n]).sim.current == Some(ms[n - 1])
  {
    var rows := Consumer.RunAll(NO_DELIVERIES, run).manifests;
    Consumer.RunKeepsConsistent(NO_DELIVERIES, run);
    assert Generation.CountsUp(Generation.VersionsOf(rows, c.device));
    GeneratedIncrease(rows, c.device);
    AcceptsIncreasing(w, c, ms, GeneratedVersions(rows, c.device), n);
  }

  /** Then every one of them is refused when it is offered again without an emergency flag. */
  lemma RejectsReplays(run: seq<Consumer.Delivery>, w: World, c: Config, ms: seq<Manifest>, i: nat)
    requires w.sim.current.None? && i < |ms| && !ms[i].emergencyFlag
    requires Carry(c, ms, GeneratedVersions(Consumer.RunAll(NO_DELIVERIES, run).manifests, c.device))
    ensures Objection(Offered(w, c, ms).sim, c, ms[i]) == Some(OldVersion)
  {
    var rows := Consumer.RunAll(NO_DELIVERIES, run).manifests;
    Consumer.RunKeepsConsistent(NO_DELIVERIES, run);
    assert Generation.CountsUp(Generation.VersionsOf(rows, c.device));
    GeneratedIncrease(rows, c.device);
    AcceptsGenerated(run, w, c, ms, |ms|);
    assert ms[..|ms|] == ms;
  }

  /// ---------------------------------------------------------------------
  /// Fail closed; the offline limit
  /// ---------------------------------------------------------------------

  predicate Freshens(op: Op) {
    op.SetKill? || op.RefreshCache?
  }

  /** From the moment the kill-switch cache goes stale nothing is queued until it is fresh again. */
  lemma {:induction false} StaleEmitsNothing(w: World, c: Config, ops: seq<Op>)
    requires w.sim.stale && forall i :: 0 <= i < |ops| ==> !Freshens(ops[i])
    ensures Run(w, c, ops).sim.stale && Run(w, c, ops).log == w.log
  {
    if ops != [] {
      StaleEmitsNothing(w, c, ops[..|ops| - 1]);
      assert !Freshens(ops[|ops| - 1]);
    }
  }

  /** Time advanced while offline counts twice: the limit is reached at half of it. */
  lemma AdvancedTimeCountsTwice(s: Sim, hours: real, mono: real)
    requires s.offlineStart.Some? && s.current.Some?
    ensures TtlExpired(Advanced(s, hours, mono), mono) <==>
            2.0 * (s.offlineDuration + hours * 3600.0) >= (s.current.value.ttlHours * 3600) as real
  {
  }

  predicate ClearsTime(op: Op) {
    op.ResetAll?
  }

  /** Advanced offline time is forgotten by a reset only: being online again does not restore the limit. */
  lemma {:induction false} OfflineTimeStays(w: World, c: Config, ops: seq<Op>)
    requires forall i :: 0 <= i < |ops| ==> !ClearsTime(ops[i]) && (ops[i].Advance? ==> ops[i].hours >= 0.0)
    ensures w.sim.offlineDuration <= Run(w, c, ops).sim.offlineDuration
  {
    if ops != [] {
      OfflineTimeStays(w, c, ops[..|ops| - 1]);
      assert !ClearsTime(ops[|ops| - 1]) && (ops[|ops| - 1].Advance? ==> ops[|ops| - 1].hours >= 0.0);
    }
  }

  /** Back online, a device is still past its limit exactly when the advanced time alone reaches it. */
  lemma OnlineMayStayExpired(s: Sim, mono: real)
    ensures TtlExpired(WentOffline(s, false, mono), mono) <==>
            s.current.Some? && s.offlineDuration >= (s.current.value.ttlHours * 3600) as real
  {
  }
}
