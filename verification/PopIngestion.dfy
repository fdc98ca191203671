/** Proof-of-play ingestion: judging events, recording each event id once, batches and replays. */
module PopIngestion {
  import opened Common

  const STALE_EVENT_DAYS: int := 30
  const CLOCK_DRIFT_MINUTES: int := 5
  const QUARANTINE_TTL_HOURS: int := 72
  const MAX_DURATION_MS: int := 86_400_000
  const SCHEMA_VERSION: string := "1.0"

  const MICROS_PER_MINUTE: int := 60_000_000
  const MICROS_PER_HOUR: int := 60 * MICROS_PER_MINUTE
  const MICROS_PER_DAY: int := 24 * MICROS_PER_HOUR

  datatype Playback = Success | Fallback | Interrupted | Failed

  /** Instants are in microseconds from the start of year 1, UTC; the last one of year 9999. */
  const LAST_INSTANT: int := 3_652_059 * MICROS_PER_DAY - 1

  /** A device's claim to have shown an asset. `renderedAt` is None for a time without UTC offset, `recordedAt` for
      a time of which the database driver can make no instant. */
  datatype Event = Event(
    id: string,
    schemaVersion: string,
    device: string,
    manifest: Option<string>,
    campaign: Option<string>,
    asset: string,
    surface: string,
    renderedAt: Option<int>,
    recordedAt: Option<int>,
    duration: int,
    playback: Playback)

  datatype Manifest = Manifest(id: string, campaign: string, device: string, surfaces: set<string>, assets: set<string>)

  /** The tables that events are checked against, and the key reported when an insert violates both. */
  datatype Catalog = Catalog(devices: set<string>, manifests: map<string, Manifest>, assets: set<string>, reports: Violation)
  {
    /** Manifests are found under their ids, contain known assets only, and come out of columns of these widths. */
    ghost predicate Valid() {
      forall id :: id in manifests ==>
        var m := manifests[id];
        && m.id == id && m.assets <= assets && Column(m.id, 128) && Column(m.campaign, 36) && Column(m.device, 36)
        && (forall x :: x in m.surfaces + m.assets ==> Column(x, 36))
    }
  }

  /** Which unique key the database reports when an event id is already there: that of the dedup index, which
      the ingestion takes for a duplicate, or that of the rows, which it raises again. */
  datatype Violation = OnDedupIndex | OnRows

  datatype Reason =
    | UnsupportedSchema | DeviceMismatch | InvalidDuration | NonSuccess | DeviceNotFound | StaleEvent
    | CampaignMismatch | DeviceManifestMismatch | SurfaceNotInManifest | AssetNotInManifest
    | UnknownManifest | ClockDrift

  datatype Status = Accepted | Quarantined | Expired

  /** A row of pop_events_raw. */
  datatype Row = Row(
    id: string,
    device: string,
    manifest: Option<string>,
    campaign: Option<string>,
    verified: bool,
    asset: string,
    surface: string,
    renderedAt: int,
    recordedAt: int,
    duration: int,
    playback: Playback,
    status: Status,
    expiresAt: Option<int>,
    batch: Option<string>)

  datatype Notice = EventAccepted(id: string) | EventQuarantined(id: string) | BatchIngested(batch: Option<string>, counts: Counts)

  datatype Counts = Counts(accepted: nat, rejected: nat, quarantined: nat, duplicate: nat) {
    function Total(): nat { accepted + rejected + quarantined + duplicate }
  }

  datatype Store = Store(raw: seq<Row>, dedup: set<string>, outbox: seq<Notice>)

  datatype Verdict = Accept | Quarantine(reason: Reason) | Reject(reason: Reason) | Duplicate

  /** What ends an ingestion: a violated constraint, a value that the database cannot take, or a comparison of times
      with and without offset. */
  datatype Failure = IntegrityError | DataError | TypeError

  /** How a savepoint ends. */
  datatype Write = Written | KnownKey | Broken(failure: Failure)

  /// ---------------------------------------------------------------------
  /// Judging an event
  /// ---------------------------------------------------------------------

  /** The instant of a time; -1, which no column can hold, if it has none. */
  function Instant(t: Option<int>): int {
    if t.Some? then t.value else -1
  }

  predicate Stale(e: Event, now: int) {
    Instant(e.renderedAt) < now - STALE_EVENT_DAYS * MICROS_PER_DAY
  }

  predicate Drifted(e: Event, now: int) {
    Instant(e.renderedAt) > now + CLOCK_DRIFT_MINUTES * MICROS_PER_MINUTE
  }

  /** Text that the database accepts as a parameter: it has no NUL character. */
  predicate Clean(text: string) {
    '\0' !in text
  }

  /** What a column keeps of a text: blanks beyond its width are cut off, anything else there is an error. */
  function Kept(text: string, width: nat): string {
    if |text| > width && forall i :: width <= i < |text| ==> text[i] == ' ' then text[..width] else text
  }

  /** The id under which an event is recorded. */
  function Key(e: Event): string {
    Kept(e.id, 36)
  }

  /** The lookup of an id in the dedup index, whose column holds no longer ones. */
  predicate Found(dedup: set<string>, id: string) {
    |id| <= 36 && id in dedup
  }

  function KeptOption(text: Option<string>, width: nat): Option<string> {
    if text.Some? then Some(Kept(text.value, width)) else None
  }

  predicate Column(text: string, width: nat) {
    |text| <= width && Clean(text)
  }

  /** The row fits the columns of its table. */
  predicate Fits(r: Row) {
    && Column(r.id, 36) && Column(r.device, 36) && Column(r.asset, 36) && Column(r.surface, 36)
    && (r.manifest.Some? ==> Column(r.manifest.value, 128)) && (r.campaign.Some? ==> Column(r.campaign.value, 36))
    && 0 <= r.renderedAt <= LAST_INSTANT && 0 <= r.recordedAt <= LAST_INSTANT
  }

  /** The manifest an event names, if it is known; an empty name names none. */
  function Resolved(cat: Catalog, e: Event): Option<Manifest> {
    if e.manifest.Some? && e.manifest.value != "" && e.manifest.value in cat.manifests then Some(cat.manifests[e.manifest.value]) else None
  }

  /** The checks made before the event id is looked up. */
  function FirstObjection(e: Event, jwtDevice: string): Option<Reason> {
    if e.schemaVersion != SCHEMA_VERSION then Some(UnsupportedSchema)
    else if e.device != jwtDevice then Some(DeviceMismatch)
    else None
  }

  /** An event against the manifest it names. */
  function Contradiction(e: Event, m: Manifest): Option<Reason> {
    if e.campaign.Some? && e.campaign.value != "" && e.campaign.value != m.campaign then Some(CampaignMismatch)
    else if e.device != m.device then Some(DeviceManifestMismatch)
    else if e.surface !in m.surfaces then Some(SurfaceNotInManifest)
    else if e.asset !in m.assets then Some(AssetNotInManifest)
    else None
  }

  /** What becomes of an event whose id is new, if no check of it raises an exception. */
  function Judged(cat: Catalog, e: Event, now: int): Verdict {
    if e.duration < 1 || e.duration > MAX_DURATION_MS then Reject(InvalidDuration)
    else if e.playback != Success then Reject(NonSuccess)
    else if e.device !in cat.devices then Reject(DeviceNotFound)
    else if Stale(e, now) then Reject(StaleEvent)
    else
      match Resolved(cat, e)
      case None => Quarantine(UnknownManifest)
      case Some(m) =>
        if Drifted(e, now) then Quarantine(ClockDrift)
        else if Contradiction(e, m).Some? then Reject(Contradiction(e, m).value)
        else Accept
  }

  /** The row written for an accepted event: its manifest and campaign are those of the resolved manifest. */
  function AcceptedRow(e: Event, m: Manifest, batch: Option<string>): Row {
    Row(Key(e), Kept(e.device, 36), Some(Kept(m.id, 128)), Some(Kept(m.campaign, 36)), true, Kept(e.asset, 36), Kept(e.surface, 36),
        Instant(e.renderedAt), Instant(e.recordedAt), e.duration, Success, Accepted, None, batch)
  }

  function QuarantinedRow(e: Event, now: int, batch: Option<string>): Row {
    Row(Key(e), Kept(e.device, 36), KeptOption(e.manifest, 128), KeptOption(e.campaign, 36), false, Kept(e.asset, 36), Kept(e.surface, 36),
        Instant(e.renderedAt), Instant(e.recordedAt), e.duration, e.playback, Quarantined, Some(now + QUARANTINE_TTL_HOURS * MICROS_PER_HOUR), batch)
  }

  function RowFor(cat: Catalog, e: Event, now: int, batch: Option<string>): Row {
    if Judged(cat, e, now) == Accept && Resolved(cat, e).Some? then AcceptedRow(e, Resolved(cat, e).value, batch)
    else QuarantinedRow(e, now, batch)
  }

  /** The exception that judging raises: a lookup by a text with a NUL character, or the comparison of a time
      without offset; if an earlier check rejects the event, none. */
  function Raised(cat: Catalog, e: Event, now: int): Option<Failure> {
    if e.duration < 1 || e.duration > MAX_DURATION_MS || e.playback != Success then None
    else if !Clean(e.device) then Some(DataError)
    else if e.device !in cat.devices then None
    else if e.renderedAt.None? then Some(TypeError)
    else if Stale(e, now) then None
    else if e.manifest.Some? && !Clean(e.manifest.value) then Some(DataError)
    else None
  }

  /** What becomes of an event whose id is new: rejected, to be written, or a failure. The row must fit its columns. */
  function Assessed(cat: Catalog, e: Event, now: int): Result<Verdict, Failure> {
    if Raised(cat, e, now).Some? then Err(Raised(cat, e, now).value)
    else if Judged(cat, e, now).Reject? then Ok(Judged(cat, e, now))
    else if !Fits(RowFor(cat, e, now, None)) then Err(DataError)
    else Ok(Judged(cat, e, now))
  }

  /// ---------------------------------------------------------------------
  /// One event, a batch
  /// ---------------------------------------------------------------------

  /** The insert: a row, its id in the dedup index and its outbox notice are written together. An id that the lookup
      did not find is there nevertheless if the column cuts it to a recorded one. */
  function Inserted(s: Store, cat: Catalog, row: Row, v: Verdict, violation: Violation): Result<(Store, Verdict), Failure> {
    if row.id in s.dedup then (if violation == OnDedupIndex then Ok((s, Duplicate)) else Err(IntegrityError))
    else if row.asset !in cat.assets then Err(IntegrityError)
    else
      var n := if v.Accept? then EventAccepted(row.id) else EventQuarantined(row.id);
      Ok((Store(s.raw + [row], s.dedup + {row.id}, s.outbox + [n]), v))
  }

  function Ingested(s: Store, cat: Catalog, e: Event, jwtDevice: string, now: int, batch: Option<string>): Result<(Store, Verdict), Failure> {
    if FirstObjection(e, jwtDevice).Some? then Ok((s, Reject(FirstObjection(e, jwtDevice).value)))
    else if !Clean(e.id) then Err(DataError)
    else if Found(s.dedup, e.id) then Ok((s, Duplicate))
    else
      match Assessed(cat, e, now)
      case Err(f) => Err(f)
      case Ok(v) => if v.Reject? then Ok((s, v)) else Inserted(s, cat, RowFor(cat, e, now, batch), v, cat.reports)
  }

  function Counted(c: Counts, v: Verdict): Counts {
    match v
    case Accept => c.(accepted := c.accepted + 1)
    case Quarantine(_) => c.(quarantined := c.quarantined + 1)
    case Reject(_) => c.(rejected := c.rejected + 1)
    case Duplicate => c.(duplicate := c.duplicate + 1)
  }

  const NO_COUNTS: Counts := Counts(0, 0, 0, 0)

  function Tally(results: seq<Verdict>): Counts {
    if results == [] then NO_COUNTS else Counted(Tally(results[..|results| - 1]), results[|results| - 1])
  }

  lemma {:induction false} TallyCountsAll(results: seq<Verdict>)
    ensures Tally(results).Total() == |results|
  {
    if results != [] {
      TallyCountsAll(results[..|results| - 1]);
    }
  }

  lemma TallyOneMore(results: seq<Verdict>, v: Verdict)
    ensures Tally(results + [v]) == Counted(Tally(results), v)
  {
    assert (results + [v])[..|results|] == results;
  }

  /** The events in turn, up to one that fails. */
  function IngestedAll(s: Store, cat: Catalog, events: seq<Event>, jwtDevice: string, now: int, batch: Option<string>): Result<(Store, seq<Verdict>), Failure> {
    if events == [] then Ok((s, []))
    else
      match IngestedAll(s, cat, events[..|events| - 1], jwtDevice, now, batch)
      case Err(f) => Err(f)
      case Ok((s', results)) =>
        match Ingested(s', cat, events[|events| - 1], jwtDevice, now, batch)
        case Err(f) => Err(f)
        case Ok((s'', v)) => Ok((s'', results + [v]))
  }

  /** A whole batch: its events, then a summary of the counts. */
  function IngestedBatch(s: Store, cat: Catalog, events: seq<Event>, jwtDevice: string, now: int, batch: Option<string>): Result<(Store, seq<Verdict>), Failure> {
    match IngestedAll(s, cat, events, jwtDevice, now, batch)
    case Err(f) => Err(f)
    case Ok((s', results)) => Ok((s'.(outbox := s'.outbox + [BatchIngested(batch, Tally(results))]), results))
  }

  lemma {:induction false} IngestedPrefix(s: Store, cat: Catalog, events: seq<Event>, jwtDevice: string, now: int, batch: Option<string>, n: nat)
    requires n <= |events| && IngestedAll(s, cat, events[..n], jwtDevice, now, batch).Err?
    ensures IngestedAll(s, cat, events, jwtDevice, now, batch) == IngestedAll(s, cat, events[..n], jwtDevice, now, batch)
    decreases |events|
  {
    if n == |events| {
      assert events[..n] == events;
    } else {
      assert events[..|events| - 1][..n] == events[..n];
      IngestedPrefix(s, cat, events[..|events| - 1], jwtDevice, now, batch, n);
    }
  }

  /** One more event ingested. */
  lemma NextIngested(s: Store, cat: Catalog, events: seq<Event>, jwtDevice: string, now: int, batch: Option<string>, n: nat,
                     before: Store, results: seq<Verdict>, after: Store, v: Verdict)
    requires n < |events| && IngestedAll(s, cat, events[..n], jwtDevice, now, batch) == Ok((before, results))
    requires Ingested(before, cat, events[n], jwtDevice, now, batch) == Ok((after, v))
    ensures IngestedAll(s, cat, events[..n + 1], jwtDevice, now, batch) == Ok((after, results + [v]))
  {
    assert events[..n + 1][..n] == events[..n];
  }

  /** An event that fails, fails the whole batch. */
  lemma NextFails(s: Store, cat: Catalog, events: seq<Event>, jwtDevice: string, now: int, batch: Option<string>, n: nat,
                  before: Store, results: seq<Verdict>)
    requires n < |events| && IngestedAll(s, cat, events[..n], jwtDevice, now, batch) == Ok((before, results))
    requires Ingested(before, cat, events[n], jwtDevice, now, batch).Err?
    ensures IngestedAll(s, cat, events, jwtDevice, now, batch) == Err(Ingested(before, cat, events[n], jwtDevice, now, batch).error)
  {
    assert events[..n + 1][..n] == events[..n];
    IngestedPrefix(s, cat, events, jwtDevice, now, batch, n + 1);
  }

  /** The answer after a savepoint. */
  function Answered(write: Write, v: Verdict): Result<Verdict, Failure> {
    match write
    case Written => Ok(v)
    case KnownKey => Ok(Duplicate)
    case Broken(f) => Err(f)
  }

  /** The tables an ingestion writes to, within the caller's transaction. */
  class Session {
    var raw: seq<Row>
    var dedup: set<string>
    var outbox: seq<Notice>
    const cat: Catalog

    constructor (s: Store, cat: Catalog)
      ensures State() == s && this.cat == cat
    {
      raw, dedup, outbox := s.raw, s.dedup, s.outbox;
      this.cat := cat;
    }

    function State(): Store
      reads this
    {
      Store(raw, dedup, outbox)
    }

    /** _write_pop_event: row and dedup key inside a savepoint, which a failed constraint rolls back. A value that
        does not fit its column is an error that is not caught; a key that is already there is a duplicate or an
        error, depending on the constraint reported; an unknown asset is an error. */
    method WritePopEvent(row: Row, notice: Notice) returns (write: Write)
      modifies this
      ensures write == if !Fits(row) then Broken(DataError)
                       else if row.id in old(dedup) then (if cat.reports == OnDedupIndex then KnownKey else Broken(IntegrityError))
                       else if row.asset in cat.assets then Written else Broken(IntegrityError)
      ensures State() == if write.Written? then Store(old(raw) + [row], old(dedup) + {row.id}, old(outbox) + [notice]) else old(State())
    {
      if !Fits(row) {
        return Broken(DataError);
      }
      var savepoint := (raw, dedup);
      raw := raw + [row];
      if row.id in dedup {
        raw, dedup := savepoint.0, savepoint.1;
        return if cat.reports == OnDedupIndex then KnownKey else Broken(IntegrityError);
      }
      dedup := dedup + {row.id};
      if row.asset !in cat.assets {
        raw, dedup := savepoint.0, savepoint.1;
        return Broken(IntegrityError);
      }
      outbox := outbox + [notice];
      return Written;
    }

    /** ingest_pop_event. */
    method IngestEvent(e: Event, jwtDevice: string, now: int, batch: Option<string>) returns (r: Result<Verdict, Failure>)
      modifies this
      ensures Ingested(old(State()), cat, e, jwtDevice, now, batch) == if r.Ok? then Ok((State(), r.value)) else Err(r.error)
      ensures r.Err? ==> State() == old(State())
    {
      if e.schemaVersion != SCHEMA_VERSION {
        return Ok(Reject(UnsupportedSchema));
      }
      if e.device != jwtDevice {
        return Ok(Reject(DeviceMismatch));
      }
      if !Clean(e.id) {
        return Err(DataError);
      }
      if Found(dedup, e.id) {
        return Ok(Duplicate);
      }
      if e.duration < 1 || e.duration > MAX_DURATION_MS {
        return Ok(Reject(InvalidDuration));
      }
      if e.playback != Success {
        return Ok(Reject(NonSuccess));
      }
      if !Clean(e.device) {
        return Err(DataError);
      }
      if e.device !in cat.devices {
        return Ok(Reject(DeviceNotFound));
      }
      if e.renderedAt.None? {
        return Err(TypeError);
      }
      if e.renderedAt.value < now - STALE_EVENT_DAYS * MICROS_PER_DAY {
        return Ok(Reject(StaleEvent));
      }
      var clockDrift := e.renderedAt.value > now + CLOCK_DRIFT_MINUTES * MICROS_PER_MINUTE;
      if e.manifest.Some? && !Clean(e.manifest.value) {
        return Err(DataError);
      }
      var manifest := Resolved(cat, e);
      if manifest.None? {
        var write := WritePopEvent(QuarantinedRow(e, now, batch), EventQuarantined(Key(e)));
        return Answered(write, Quarantine(UnknownManifest));
      }
      if clockDrift {
        var write := WritePopEvent(QuarantinedRow(e, now, batch), EventQuarantined(Key(e)));
        return Answered(write, Quarantine(ClockDrift));
      }
      var m := manifest.value;
      if e.campaign.Some? && e.campaign.value != "" && e.campaign.value != m.campaign {
        return Ok(Reject(CampaignMismatch));
      }
      if e.device != m.device {
        return Ok(Reject(DeviceManifestMismatch));
      }
      if e.surface !in m.surfaces {
        return Ok(Reject(SurfaceNotInManifest));
      }
      if e.asset !in m.assets {
        return Ok(Reject(AssetNotInManifest));
      }
      var write := WritePopEvent(AcceptedRow(e, m, batch), EventAccepted(Key(e)));
      return Answered(write, Accept);
    }

    /** The loop of ingest_pop_batch, up to the first event that fails. */
    method IngestEvents(events: seq<Event>, jwtDevice: string, now: int, batch: Option<string>)
      returns (failure: Option<Failure>, counts: Counts, results: seq<Verdict>)
      modifies this
      ensures IngestedAll(old(State()), cat, events, jwtDevice, now, batch) ==
              if failure.Some? then Err(failure.value) else Ok((State(), results))
      ensures counts == Tally(results)
      ensures failure.None? ==> |results| == |events|
    {
      failure, counts, results := None, NO_COUNTS, [];
      ghost var start := State();
      for n := 0 to |events|
        invariant IngestedAll(start, cat, events[..n], jwtDevice, now, batch) == Ok((State(), results))
        invariant failure.None? && |results| == n && counts == Tally(results)
      {
        ghost var before := State();
        var result := IngestEvent(events[n], jwtDevice, now, batch);
        if result.Err? {
          NextFails(start, cat, events, jwtDevice, now, batch, n, before, results);
          failure := Some(result.error);
          return;
        }
        NextIngested(start, cat, events, jwtDevice, now, batch, n, before, results, State(), result.value);
        TallyOneMore(results, result.value);
        results := results + [result.value];
        counts := Counted(counts, result.value);
      }
      assert events[..|events|] == events;
    }

    /** ingest_pop_batch; when it fails the caller's transaction is rolled back. */
    method IngestBatch(events: seq<Event>, jwtDevice: string, now: int, batch: Option<string>)
      returns (r: Result<(Counts, seq<Verdict>), Failure>)
      modifies this
      ensures IngestedBatch(old(State()), cat, events, jwtDevice, now, batch) ==
              if r.Ok? then Ok((State(), r.value.1)) else Err(r.error)
      ensures r.Ok? ==> |r.value.1| == |events| && r.value.0 == Tally(r.value.1) && r.value.0.Total() == |events|
    {
      var failure, counts, results := IngestEvents(events, jwtDevice, now, batch);
      if failure.Some? {
        return Err(failure.value);
      }
      ghost var before := State();
      outbox := outbox + [BatchIngested(batch, counts)];
      assert State() == before.(outbox := before.outbox + [BatchIngested(batch, Tally(results))]);
      TallyCountsAll(results);
      r := Ok((counts, results));
    }
  }

  /// ---------------------------------------------------------------------
  /// Exactly once
  /// ---------------------------------------------------------------------

  /** Expire the quarantined rows whose time is over. */
  function ExpireRows(raw: seq<Row>, before: int): seq<Row> {
    seq(|raw|, i requires 0 <= i < |raw| =>
      if raw[i].status == Quarantined && raw[i].expiresAt.Some? && raw[i].expiresAt.value < before then raw[i].(status := Expired) else raw[i])
  }

  ghost predicate UniqueIds(raw: seq<Row>) {
    forall i, j :: 0 <= i < j < |raw| ==> raw[i].id != raw[j].id
  }

  /** The dedup index holds exactly the ids of the rows. */
  ghost predicate Indexed(s: Store) {
    forall id :: id in s.dedup <==> exists i :: 0 <= i < |s.raw| && s.raw[i].id == id
  }

  /** An accepted row is true of the manifest it names. */
  ghost predicate Billable(cat: Catalog, r: Row) {
    && r.manifest.Some? && r.manifest.value in cat.manifests
    && var m := cat.manifests[r.manifest.value];
    && r.campaign == Some(m.campaign) && r.verified && r.device == m.device && r.device in cat.devices
    && r.surface in m.surfaces && r.asset in m.assets
    && r.playback == Success && 1 <= r.duration <= MAX_DURATION_MS
  }

  ghost predicate AllBillable(cat: Catalog, raw: seq<Row>) {
    forall i :: 0 <= i < |raw| && raw[i].status == Accepted ==> Billable(cat, raw[i])
  }

  /** Every row was announced once, in order; an accepted row as accepted. */
  function Announced(outbox: seq<Notice>): seq<string> {
    if outbox == [] then []
    else Announced(outbox[..|outbox| - 1]) + if outbox[|outbox| - 1].BatchIngested? then [] else [outbox[|outbox| - 1].id]
  }

  function Ids(raw: seq<Row>): seq<string> {
    seq(|raw|, i requires 0 <= i < |raw| => raw[i].id)
  }

  ghost predicate Sound(cat: Catalog, s: Store) {
    UniqueIds(s.raw) && Indexed(s) && AllBillable(cat, s.raw) && Announced(s.outbox) == Ids(s.raw)
  }

  lemma AcceptIsBillable(cat: Catalog, e: Event, now: int, batch: Option<string>)
    requires cat.Valid() && Judged(cat, e, now) == Accept
    ensures Billable(cat, RowFor(cat, e, now, batch))
  {
    var m := Resolved(cat, e).value;
    assert e.surface in m.surfaces + m.assets && e.asset in m.surfaces + m.assets;
  }

  lemma AddedIsSound(cat: Catalog, s: Store, row: Row, n: Notice)
    requires Sound(cat, s) && row.id !in s.dedup && !n.BatchIngested? && n.id == row.id
    requires row.status == Accepted ==> Billable(cat, row)
    ensures Sound(cat, Store(s.raw + [row], s.dedup + {row.id}, s.outbox + [n]))
  {
    var raw', outbox' := s.raw + [row], s.outbox + [n];
    assert outbox'[..|s.outbox|] == s.outbox;
    assert Ids(raw') == Ids(s.raw) + [row.id];
    assert raw'[|s.raw|].id == row.id;
    forall id ensures id in s.dedup + {row.id} <==> exists i :: 0 <= i < |raw'| && raw'[i].id == id {
      if i :| 0 <= i < |s.raw| && s.raw[i].id == id {
        assert raw'[i].id == id;
      }
    }
  }

  lemma InsertedKeepsSound(s: Store, cat: Catalog, row: Row, v: Verdict, violation: Violation)
    requires Sound(cat, s) && Inserted(s, cat, row, v, violation).Ok? && (row.status == Accepted ==> Billable(cat, row))
    ensures Sound(cat, Inserted(s, cat, row, v, violation).value.0)
  {
    if row.id !in s.dedup {
      AddedIsSound(cat, s, row, if v.Accept? then EventAccepted(row.id) else EventQuarantined(row.id));
    }
  }

  lemma IngestedKeepsSound(s: Store, cat: Catalog, e: Event, jwtDevice: string, now: int, batch: Option<string>)
    requires cat.Valid() && Sound(cat, s) && Ingested(s, cat, e, jwtDevice, now, batch).Ok?
    ensures Sound(cat, Ingested(s, cat, e, jwtDevice, now, batch).value.0)
  {
    var v := Judged(cat, e, now);
    if FirstObjection(e, jwtDevice).None? && !Found(s.dedup, e.id) && !v.Reject? {
      if v.Accept? {
        AcceptIsBillable(cat, e, now, batch);
      }
      InsertedKeepsSound(s, cat, RowFor(cat, e, now, batch), v, cat.reports);
    }
  }

  lemma {:induction false} IngestedAllKeepsSound(s: Store, cat: Catalog, events: seq<Event>, jwtDevice: string, now: int, batch: Option<string>)
    requires cat.Valid() && Sound(cat, s) && IngestedAll(s, cat, events, jwtDevice, now, batch).Ok?
    ensures Sound(cat, IngestedAll(s, cat, events, jwtDevice, now, batch).value.0)
  {
    if events != [] {
      var rest := events[..|events| - 1];
      IngestedAllKeepsSound(s, cat, rest, jwtDevice, now, batch);
      IngestedKeepsSound(IngestedAll(s, cat, rest, jwtDevice, now, batch).value.0, cat, events[|events| - 1], jwtDevice, now, batch);
    }
  }

  lemma ExpiryKeepsSound(s: Store, cat: Catalog, before: int)
    requires Sound(cat, s)
    ensures Sound(cat, s.(raw := ExpireRows(s.raw, before)))
  {
    var raw' := ExpireRows(s.raw, before);
    assert Ids(raw') == Ids(s.raw);
    assert forall i :: 0 <= i < |s.raw| ==> raw'[i].id == s.raw[i].id;
  }

  /** One transaction after another: batches, which are rolled back when they fail, and expiries. */
  datatype Op =
    | Batch(events: seq<Event>, jwtDevice: string, now: int, batch: Option<string>)
    | ExpireQuarantine(before: int)

  function Step(s: Store, cat: Catalog, op: Op): Store {
    match op
    case Batch(events, jwtDevice, now, batch) =>
      var r := IngestedBatch(s, cat, events, jwtDevice, now, batch);
      if r.Ok? then r.value.0 else s
    case ExpireQuarantine(before) => s.(raw := ExpireRows(s.raw, before))
  }

  function Run(s: Store, cat: Catalog, ops: seq<Op>): Store {
    if ops == [] then s else Step(Run(s, cat, ops[..|ops| - 1]), cat, ops[|ops| - 1])
  }

  /** Over every run each event id has at most one row, the dedup index is exactly the set of recorded ids,
      every accepted row is true of its manifest, and every row is announced exactly once. */
  lemma {:induction false} RunKeepsSound(s: Store, cat: Catalog, ops: seq<Op>)
    requires cat.Valid() && Sound(cat, s)
    ensures Sound(cat, Run(s, cat, ops))
  {
    if ops != [] {
      var before := Run(s, cat, ops[..|ops| - 1]);
      RunKeepsSound(s, cat, ops[..|ops| - 1]);
      match ops[|ops| - 1]
      case Batch(events, jwtDevice, now, batch) =>
        if IngestedAll(before, cat, events, jwtDevice, now, batch).Ok? {
          IngestedAllKeepsSound(before, cat, events, jwtDevice, now, batch);
          var s' := IngestedAll(before, cat, events, jwtDevice, now, batch).value.0;
          var n := BatchIngested(batch, Tally(IngestedAll(before, cat, events, jwtDevice, now, batch).value.1));
          assert (s'.outbox + [n])[..|s'.outbox|] == s'.outbox;
        }
      case ExpireQuarantine(t) => ExpiryKeepsSound(before, cat, t);
    }
  }
}
