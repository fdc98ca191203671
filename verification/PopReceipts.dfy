/** What becomes of an event, in its own terms: when it is accepted, what its row says, and what is billed for it. */
module PopReceipts {
  import opened Common
  import opened PopIngestion
  import PopReports

  /// ---------------------------------------------------------------------
  /// When an event is accepted
  /// ---------------------------------------------------------------------

  const DAYS_30: int := 2_592_000_000_000
  const MINUTES_5: int := 300_000_000
  const HOURS_72: int := 259_200_000_000

  predicate FromThisDevice(e: Event, jwtDevice: string) {
    e.schemaVersion == "1.0" && e.device == jwtDevice
  }

  predicate PlayedInFull(e: Event) {
    1 <= e.duration <= 86_400_000 && e.playback == Success
  }

  /** Rendered no more than 30 days ago. */
  predicate Recent(e: Event, now: int) {
    e.renderedAt.Some? && now - DAYS_30 <= e.renderedAt.value
  }

  /** Rendered no later than in five minutes. */
  predicate NotAhead(e: Event, now: int) {
    e.renderedAt.Some? && e.renderedAt.value <= now + MINUTES_5
  }

  predicate NamesManifest(cat: Catalog, e: Event) {
    e.manifest.Some? && e.manifest.value != "" && e.manifest.value in cat.manifests
  }

  /** The event names this manifest's device, a surface and an asset of it, and its campaign or none. */
  predicate Agrees(e: Event, m: Manifest) {
    && (e.campaign == None || e.campaign == Some("") || e.campaign == Some(m.campaign))
    && e.device == m.device && e.surface in m.surfaces && e.asset in m.assets
  }

  /** The event reaches the check of its manifest. */
  predicate Reaches(cat: Catalog, e: Event, jwtDevice: string, now: int) {
    FromThisDevice(e, jwtDevice) && PlayedInFull(e) && e.device in cat.devices && Recent(e, now)
  }

  /** The verdict on an event that fails no batch, found to be new and not written under its id before. */
  lemma JudgedExactly(s: Store, cat: Catalog, e: Event, jwtDevice: string, now: int, batch: Option<string>)
    requires Ingested(s, cat, e, jwtDevice, now, batch).Ok? && e.id !in s.dedup && Key(e) !in s.dedup
    ensures var v := Ingested(s, cat, e, jwtDevice, now, batch).value.1;
            && (v == Accept <==>
                  Reaches(cat, e, jwtDevice, now) && NamesManifest(cat, e) && NotAhead(e, now) && Agrees(e, cat.manifests[e.manifest.value]))
            && (v == Quarantine(UnknownManifest) <==> Reaches(cat, e, jwtDevice, now) && !NamesManifest(cat, e))
            && (v == Quarantine(ClockDrift) <==> Reaches(cat, e, jwtDevice, now) && NamesManifest(cat, e) && !NotAhead(e, now))
            && (v.Reject? <==> !v.Accept? && !v.Quarantine?)
  {
  }

  /** A rejection names the first check that the event fails. */
  lemma RejectedFor(s: Store, cat: Catalog, e: Event, jwtDevice: string, now: int, batch: Option<string>)
    requires Ingested(s, cat, e, jwtDevice, now, batch).Ok? && Ingested(s, cat, e, jwtDevice, now, batch).value.1.Reject?
    ensures match Ingested(s, cat, e, jwtDevice, now, batch).value.1.reason
            case UnsupportedSchema => e.schemaVersion != "1.0"
            case DeviceMismatch => e.schemaVersion == "1.0" && e.device != jwtDevice
            case InvalidDuration => FromThisDevice(e, jwtDevice) && !(1 <= e.duration <= 86_400_000)
            case NonSuccess => FromThisDevice(e, jwtDevice) && 1 <= e.duration <= 86_400_000 && e.playback != Success
            case DeviceNotFound => FromThisDevice(e, jwtDevice) && PlayedInFull(e) && e.device !in cat.devices
            case StaleEvent => FromThisDevice(e, jwtDevice) && PlayedInFull(e) && e.device in cat.devices && !Recent(e, now)
            case CampaignMismatch =>
              && Reaches(cat, e, jwtDevice, now) && NamesManifest(cat, e) && NotAhead(e, now)
              && e.campaign.Some? && e.campaign.value != "" && e.campaign.value != cat.manifests[e.manifest.value].campaign
            case DeviceManifestMismatch =>
              && Reaches(cat, e, jwtDevice, now) && NamesManifest(cat, e) && NotAhead(e, now)
              && e.device != cat.manifests[e.manifest.value].device
            case SurfaceNotInManifest =>
              && Reaches(cat, e, jwtDevice, now) && NamesManifest(cat, e) && NotAhead(e, now)
              && e.device == cat.manifests[e.manifest.value].device && e.surface !in cat.manifests[e.manifest.value].surfaces
            case AssetNotInManifest =>
              && Reaches(cat, e, jwtDevice, now) && NamesManifest(cat, e) && NotAhead(e, now)
              && e.device == cat.manifests[e.manifest.value].device && e.surface in cat.manifests[e.manifest.value].surfaces
              && e.asset !in cat.manifests[e.manifest.value].assets
            case _ => false
  {
  }

  /// ---------------------------------------------------------------------
  /// When it raises
  /// ---------------------------------------------------------------------

  predicate HasNul(text: string) {
    exists i :: 0 <= i < |text| && text[i] == '\0'
  }

  /** A column of this width does not take the text: it has a NUL character, or more than blanks beyond the width. */
  predicate DoesNotFit(text: string, width: nat) {
    HasNul(text) || exists i :: width <= i < |text| && text[i] != ' '
  }

  predicate OptionDoesNotFit(text: Option<string>, width: nat) {
    text.Some? && DoesNotFit(text.value, width)
  }

  /** The database cannot hold the instant: there is none, or it lies outside the years 1 to 9999. */
  predicate NoInstant(t: Option<int>) {
    t == None || t.value < 0 || t.value >= 3_652_059 * 86_400_000_000
  }

  /** An event that is to be written, as accepted or in quarantine. */
  predicate ToBeWritten(cat: Catalog, e: Event, now: int) {
    !NamesManifest(cat, e) || !NotAhead(e, now) || Agrees(e, cat.manifests[e.manifest.value])
  }

  /** Of an event to be written: a text or time that its columns do not take. An accepted event's manifest and campaign
      are those of the manifest. */
  predicate RowDoesNotFit(cat: Catalog, e: Event, now: int) {
    || DoesNotFit(e.id, 36) || DoesNotFit(e.device, 36) || DoesNotFit(e.asset, 36) || DoesNotFit(e.surface, 36)
    || NoInstant(e.renderedAt) || NoInstant(e.recordedAt)
    || ((!NamesManifest(cat, e) || !NotAhead(e, now)) && (OptionDoesNotFit(e.manifest, 128) || OptionDoesNotFit(e.campaign, 36)))
  }

  lemma ColumnTakes(text: string, width: nat)
    ensures Column(Kept(text, width), width) <==> !DoesNotFit(text, width)
  {
    var kept := Kept(text, width);
    if |text| > width && kept != text {
      assert kept == text[..width] && forall i :: width <= i < |text| ==> text[i] == ' ';
      if HasNul(text) {
        var i :| 0 <= i < |text| && text[i] == '\0';
        assert i < width && kept[i] == '\0';
      }
    } else if |text| > width {
      assert |kept| > width;
    }
    assert Clean(kept) <==> !HasNul(kept);
  }

  lemma CleanExactly(text: string)
    ensures Clean(text) <==> !HasNul(text)
  {
  }

  lemma FitsExactly(cat: Catalog, e: Event, now: int)
    requires cat.Valid() && Raised(cat, e, now).None? && !Judged(cat, e, now).Reject?
    ensures Fits(RowFor(cat, e, now, None)) <==> !RowDoesNotFit(cat, e, now)
  {
    ColumnTakes(e.id, 36);
    ColumnTakes(e.device, 36);
    ColumnTakes(e.asset, 36);
    ColumnTakes(e.surface, 36);
    if Judged(cat, e, now) == Accept {
      ManifestTextsFit(cat, e, now);
    } else {
      if e.manifest.Some? {
        ColumnTakes(e.manifest.value, 128);
      }
      if e.campaign.Some? {
        ColumnTakes(e.campaign.value, 36);
      }
    }
  }

  /** An event, whatever is recorded, raises exactly: a comparison of times, when it gets as far as its age and has no
      UTC offset; an error of the data, when its device or manifest cannot be looked up or its row does not fit. */
  lemma RaisesExactly(cat: Catalog, e: Event, now: int)
    requires cat.Valid()
    ensures var known := PlayedInFull(e) && !HasNul(e.device) && e.device in cat.devices;
            var current := known && Recent(e, now);
            && (Assessed(cat, e, now) == Err(TypeError) <==> known && e.renderedAt == None)
            && (Assessed(cat, e, now) == Err(DataError) <==>
                  || (PlayedInFull(e) && HasNul(e.device))
                  || (current && e.manifest.Some? && HasNul(e.manifest.value))
                  || (current && ToBeWritten(cat, e, now) && RowDoesNotFit(cat, e, now)))
            && Assessed(cat, e, now) != Err(IntegrityError)
  {
    CleanExactly(e.device);
    if e.manifest.Some? {
      CleanExactly(e.manifest.value);
    }
    if Raised(cat, e, now).None? && !Judged(cat, e, now).Reject? {
      FitsExactly(cat, e, now);
    }
  }

  /// ---------------------------------------------------------------------
  /// What its row says
  /// ---------------------------------------------------------------------

  /** The row repeats the event, as far as the columns hold its texts. */
  predicate Repeats(r: Row, e: Event) {
    && r.id == Key(e) && r.device == Kept(e.device, 36) && r.asset == Kept(e.asset, 36) && r.surface == Kept(e.surface, 36)
    && e.renderedAt == Some(r.renderedAt) && e.recordedAt == Some(r.recordedAt)
    && r.duration == e.duration && r.playback == e.playback == Success
  }

  /** An accepted event's row: every text is the event's own, and manifest and campaign are those of the manifest
      that the event names. */
  predicate AcceptReceipt(r: Row, e: Event, cat: Catalog) {
    && Repeats(r, e) && r.device == e.device && r.asset == e.asset && r.surface == e.surface
    && r.status == Accepted && r.verified && r.expiresAt == None
    && NamesManifest(cat, e) && r.manifest == e.manifest && r.campaign == Some(cat.manifests[e.manifest.value].campaign)
  }

  /** A quarantined event's row: unverified, with the manifest and campaign that the event claims, for 72 hours. */
  predicate QuarantineReceipt(r: Row, e: Event, now: int) {
    && Repeats(r, e) && r.status == Quarantined && !r.verified && r.expiresAt == Some(now + HOURS_72)
    && (r.manifest.Some? <==> e.manifest.Some?) && (r.manifest.Some? ==> r.manifest.value == Kept(e.manifest.value, 128))
    && (r.campaign.Some? <==> e.campaign.Some?) && (r.campaign.Some? ==> r.campaign.value == Kept(e.campaign.value, 36))
  }

  predicate Receipt(r: Row, e: Event, v: Verdict, cat: Catalog, now: int, batch: Option<string>) {
    && r.batch == batch
    && match v
       case Accept => AcceptReceipt(r, e, cat)
       case Quarantine(_) => QuarantineReceipt(r, e, now)
       case _ => false
  }

  predicate IsRecorded(v: Verdict) {
    v.Accept? || v.Quarantine?
  }

  /** An event adds one row, its receipt, if it is accepted or put in quarantine; otherwise none. */
  ghost predicate AddsReceipt(raw: seq<Row>, raw': seq<Row>, r: Row, e: Event, v: Verdict, cat: Catalog, now: int, batch: Option<string>) {
    if IsRecorded(v) then raw' == raw + [r] && Receipt(r, e, v, cat, now, batch) else raw' == raw
  }

  lemma OneReceipt(s: Store, cat: Catalog, e: Event, jwtDevice: string, now: int, batch: Option<string>) returns (r: Row)
    requires cat.Valid() && Ingested(s, cat, e, jwtDevice, now, batch).Ok?
    ensures var (s', v) := Ingested(s, cat, e, jwtDevice, now, batch).value;
            AddsReceipt(s.raw, s'.raw, r, e, v, cat, now, batch)
  {
    var v := Ingested(s, cat, e, jwtDevice, now, batch).value.1;
    r := RowFor(cat, e, now, batch);
    if IsRecorded(v) {
      assert Judged(cat, e, now) == v;
      if v.Accept? {
        ManifestTextsFit(cat, e, now);
      }
    }
  }

  /** Texts that agree with a manifest are not cut. */
  lemma ManifestTextsFit(cat: Catalog, e: Event, now: int)
    requires cat.Valid() && Judged(cat, e, now) == Accept
    ensures var m := cat.manifests[e.manifest.value];
            && e.manifest.value == m.id && Kept(m.id, 128) == m.id && Kept(m.campaign, 36) == m.campaign
            && Kept(e.device, 36) == e.device && Kept(e.surface, 36) == e.surface && Kept(e.asset, 36) == e.asset
  {
    var m := Resolved(cat, e).value;
    assert e.surface in m.surfaces + m.assets && e.asset in m.surfaces + m.assets;
  }

  /** The positions of the recorded events of a batch. */
  function RecordedAt(results: seq<Verdict>): seq<nat> {
    if results == [] then []
    else RecordedAt(results[..|results| - 1]) + if IsRecorded(results[|results| - 1]) then [|results| - 1] else []
  }

  lemma {:induction false} RecordedAreThere(results: seq<Verdict>)
    ensures forall k :: 0 <= k < |RecordedAt(results)| ==> RecordedAt(results)[k] < |results| && IsRecorded(results[RecordedAt(results)[k]])
    ensures forall i :: 0 <= i < |results| && IsRecorded(results[i]) ==> i in RecordedAt(results)
    ensures Distinct(RecordedAt(results))
  {
    if results != [] {
      var front, last := results[..|results| - 1], |results| - 1;
      RecordedAreThere(front);
      forall i | 0 <= i < |results| && IsRecorded(results[i]) ensures i in RecordedAt(results) {
        if i < last {
          assert front[i] == results[i];
          assert i in RecordedAt(front);
        }
      }
    }
  }

  /** The k-th row added is the receipt of the k-th recorded event. */
  ghost predicate Receipts(added: seq<Row>, events: seq<Event>, results: seq<Verdict>, cat: Catalog, now: int, batch: Option<string>) {
    && |events| == |results| && |added| == |RecordedAt(results)|
    && forall k :: 0 <= k < |added| ==>
         var i := RecordedAt(results)[k];
         i < |events| && Receipt(added[k], events[i], results[i], cat, now, batch)
  }

  lemma ReceiptAdded(added: seq<Row>, r: Row, events: seq<Event>, e: Event, results: seq<Verdict>, v: Verdict, cat: Catalog, now: int, batch: Option<string>)
    requires Receipts(added, events, results, cat, now, batch) && (IsRecorded(v) ==> Receipt(r, e, v, cat, now, batch))
    ensures Receipts(if IsRecorded(v) then added + [r] else added, events + [e], results + [v], cat, now, batch)
  {
    assert (results + [v])[..|results|] == results;
    RecordedAreThere(results);
  }

  /** One more event: its receipt, if it has one, follows those of the events before it. */
  lemma NextReceipt(raw: seq<Row>, n: nat, raw': seq<Row>, r: Row, events: seq<Event>, results: seq<Verdict>, e: Event, v: Verdict,
                    cat: Catalog, now: int, batch: Option<string>)
    requires n <= |raw| && Receipts(raw[n..], events, results, cat, now, batch) && AddsReceipt(raw, raw', r, e, v, cat, now, batch)
    ensures n <= |raw'| && raw'[..n] == raw[..n] && Receipts(raw'[n..], events + [e], results + [v], cat, now, batch)
  {
    ReceiptAdded(raw[n..], r, events, e, results, v, cat, now, batch);
    assert IsRecorded(v) ==> raw'[n..] == raw[n..] + [r];
  }

  /** After a batch that goes through, the rows added are, in order, the receipts of the events answered as accepted
      or put in quarantine: each has exactly one, and there are no others. */
  lemma {:induction false} BatchReceipts(s: Store, cat: Catalog, events: seq<Event>, jwtDevice: string, now: int, batch: Option<string>)
    requires cat.Valid() && IngestedAll(s, cat, events, jwtDevice, now, batch).Ok?
    ensures var (s', results) := IngestedAll(s, cat, events, jwtDevice, now, batch).value;
            |s.raw| <= |s'.raw| && s'.raw[..|s.raw|] == s.raw && Receipts(s'.raw[|s.raw|..], events, results, cat, now, batch)
  {
    if events != [] {
      var front, e := events[..|events| - 1], events[|events| - 1];
      BatchReceipts(s, cat, front, jwtDevice, now, batch);
      var (t, results) := IngestedAll(s, cat, front, jwtDevice, now, batch).value;
      var (s', v) := Ingested(t, cat, e, jwtDevice, now, batch).value;
      var r := OneReceipt(t, cat, e, jwtDevice, now, batch);
      NextReceipt(t.raw, |s.raw|, s'.raw, r, front, results, e, v, cat, now, batch);
      assert front + [e] == events;
    }
  }

  /** A recorded event is announced as what it is recorded as, under the id of its row; any other is not announced. */
  lemma OneNotice(s: Store, cat: Catalog, e: Event, jwtDevice: string, now: int, batch: Option<string>)
    requires Ingested(s, cat, e, jwtDevice, now, batch).Ok?
    ensures var (s', v) := Ingested(s, cat, e, jwtDevice, now, batch).value;
            && (v.Accept? ==> s'.outbox == s.outbox + [EventAccepted(Key(e))])
            && (v.Quarantine? ==> s'.outbox == s.outbox + [EventQuarantined(Key(e))])
            && (!IsRecorded(v) ==> s'.outbox == s.outbox)
            && s'.dedup == if IsRecorded(v) then s.dedup + {Key(e)} else s.dedup
  {
  }

  function Positions(results: seq<Verdict>, which: Verdict -> bool): set<nat> {
    set i | 0 <= i < |results| && which(results[i])
  }

  lemma PositionsAdded(results: seq<Verdict>, v: Verdict, which: Verdict -> bool)
    ensures |Positions(results + [v], which)| == |Positions(results, which)| + if which(v) then 1 else 0
  {
    assert Positions(results + [v], which) == Positions(results, which) + if which(v) then {|results|} else {};
  }

  /** The four counts of a batch are the numbers of its events answered so. */
  lemma {:induction false} CountsAreNumbers(results: seq<Verdict>)
    ensures var c := Tally(results);
            && c.accepted == |Positions(results, (v: Verdict) => v.Accept?)|
            && c.quarantined == |Positions(results, (v: Verdict) => v.Quarantine?)|
            && c.rejected == |Positions(results, (v: Verdict) => v.Reject?)|
            && c.duplicate == |Positions(results, (v: Verdict) => v.Duplicate?)|
  {
    if results != [] {
      var front, v := results[..|results| - 1], results[|results| - 1];
      CountsAreNumbers(front);
      assert front + [v] == results;
      PositionsAdded(front, v, (v: Verdict) => v.Accept?);
      PositionsAdded(front, v, (v: Verdict) => v.Quarantine?);
      PositionsAdded(front, v, (v: Verdict) => v.Reject?);
      PositionsAdded(front, v, (v: Verdict) => v.Duplicate?);
    }
  }

  /** A batch ends with one summary of its counts, and otherwise leaves what its events left. */
  lemma BatchIsSummarised(s: Store, cat: Catalog, events: seq<Event>, jwtDevice: string, now: int, batch: Option<string>)
    requires IngestedBatch(s, cat, events, jwtDevice, now, batch).Ok?
    ensures IngestedAll(s, cat, events, jwtDevice, now, batch).Ok?
    ensures var (s', results) := IngestedAll(s, cat, events, jwtDevice, now, batch).value;
            IngestedBatch(s, cat, events, jwtDevice, now, batch).value ==
            (Store(s'.raw, s'.dedup, s'.outbox + [BatchIngested(batch, Tally(results))]), results)
  {
  }

  /** Quarantined rows expire once their time is before the expiry's; nothing else changes. */
  lemma ExpiresExactly(s: Store, cat: Catalog, before: int)
    ensures var s' := Step(s, cat, ExpireQuarantine(before));
            && s'.dedup == s.dedup && s'.outbox == s.outbox && |s'.raw| == |s.raw|
            && forall i :: 0 <= i < |s.raw| ==>
                 s'.raw[i] == if s.raw[i].status == Quarantined && s.raw[i].expiresAt.Some? && s.raw[i].expiresAt.value < before
                              then s.raw[i].(status := Expired) else s.raw[i]
  {
  }

  /// ---------------------------------------------------------------------
  /// What is billed
  /// ---------------------------------------------------------------------

  /** The events of a batch that were accepted. */
  function AcceptedOf(events: seq<Event>, results: seq<Verdict>): seq<Event>
    requires |events| == |results|
  {
    if events == [] then []
    else
      var last := |events| - 1;
      AcceptedOf(events[..last], results[..last]) + if results[last].Accept? then [events[last]] else []
  }

  lemma {:induction false} OneResultEach(s: Store, cat: Catalog, events: seq<Event>, jwtDevice: string, now: int, batch: Option<string>)
    requires IngestedAll(s, cat, events, jwtDevice, now, batch).Ok?
    ensures |IngestedAll(s, cat, events, jwtDevice, now, batch).value.1| == |events|
  {
    if events != [] {
      OneResultEach(s, cat, events[..|events| - 1], jwtDevice, now, batch);
    }
  }

  /** The events answered as accepted in the committed batches of a run. */
  function AcceptedIn(s: Store, cat: Catalog, ops: seq<Op>): seq<Event> {
    if ops == [] then []
    else
      var before, op := Run(s, cat, ops[..|ops| - 1]), ops[|ops| - 1];
      AcceptedIn(s, cat, ops[..|ops| - 1]) +
      if op.Batch? && IngestedAll(before, cat, op.events, op.jwtDevice, op.now, op.batch).Ok? then
        OneResultEach(before, cat, op.events, op.jwtDevice, op.now, op.batch);
        AcceptedOf(op.events, IngestedAll(before, cat, op.events, op.jwtDevice, op.now, op.batch).value.1)
      else []
  }

  /** Those that name a manifest of the campaign. */
  function For(cat: Catalog, events: seq<Event>, campaign: string): seq<Event> {
    if events == [] then []
    else
      var e := events[|events| - 1];
      For(cat, events[..|events| - 1], campaign) +
      if NamesManifest(cat, e) && cat.manifests[e.manifest.value].campaign == campaign then [e] else []
  }

  predicate SameAs(r: Row, e: Event) {
    Repeats(r, e) && r.device == e.device && r.surface == e.surface && r.asset == e.asset
  }

  /** The rows repeat these events, one for one. */
  ghost predicate OneForOne(rows: seq<Row>, events: seq<Event>) {
    |rows| == |events| && forall k :: 0 <= k < |rows| ==> SameAs(rows[k], events[k])
  }

  ghost predicate BilledFor(raw: seq<Row>, campaign: string, events: seq<Event>) {
    OneForOne(PopReports.Billed(raw, campaign), events)
  }

  lemma ForAdded(cat: Catalog, events: seq<Event>, e: Event, campaign: string)
    ensures For(cat, events + [e], campaign) == For(cat, events, campaign) +
            if NamesManifest(cat, e) && cat.manifests[e.manifest.value].campaign == campaign then [e] else []
  {
    assert (events + [e])[..|events|] == events;
  }

  lemma OneForOneAdded(rows: seq<Row>, r: Row, events: seq<Event>, e: Event)
    requires OneForOne(rows, events) && SameAs(r, e)
    ensures OneForOne(rows + [r], events + [e])
  {
  }

  lemma BilledAdded(raw: seq<Row>, r: Row, campaign: string)
    ensures PopReports.Billed(raw + [r], campaign) == PopReports.Billed(raw, campaign) +
            if r.campaign == Some(campaign) && r.status == Accepted && r.verified && r.playback == Success then [r] else []
  {
    assert (raw + [r])[..|raw|] == raw;
  }

  lemma OneBilled(raw: seq<Row>, raw': seq<Row>, r: Row, e: Event, v: Verdict, cat: Catalog, now: int, batch: Option<string>,
                  campaign: string, before: seq<Event>)
    requires AddsReceipt(raw, raw', r, e, v, cat, now, batch) && BilledFor(raw, campaign, For(cat, before, campaign))
    ensures BilledFor(raw', campaign, For(cat, before + if v.Accept? then [e] else [], campaign))
  {
    var billed, events := PopReports.Billed(raw, campaign), For(cat, before, campaign);
    assert before + [] == before && billed + [] == billed;
    BilledAdded(raw, r, campaign);
    if v.Accept? {
      ForAdded(cat, before, e, campaign);
      OneForOneAdded(billed, r, events, e);
      assert events + [] == events;
    }
  }

  lemma AcceptedOfAdded(before: seq<Event>, events: seq<Event>, e: Event, results: seq<Verdict>, v: Verdict)
    requires |events| == |results|
    ensures before + AcceptedOf(events + [e], results + [v]) == before + AcceptedOf(events, results) + if v.Accept? then [e] else []
  {
    assert (events + [e])[..|events|] == events && (results + [v])[..|results|] == results;
  }

  lemma {:induction false} BatchBilled(s: Store, cat: Catalog, events: seq<Event>, jwtDevice: string, now: int, batch: Option<string>, campaign: string, before: seq<Event>)
    requires cat.Valid() && IngestedAll(s, cat, events, jwtDevice, now, batch).Ok? && BilledFor(s.raw, campaign, For(cat, before, campaign))
    ensures var (s', results) := IngestedAll(s, cat, events, jwtDevice, now, batch).value;
            |results| == |events| && BilledFor(s'.raw, campaign, For(cat, before + AcceptedOf(events, results), campaign))
  {
    if events == [] {
      assert before + [] == before;
    } else {
      var front, e := events[..|events| - 1], events[|events| - 1];
      BatchBilled(s, cat, front, jwtDevice, now, batch, campaign, before);
      var (t, results) := IngestedAll(s, cat, front, jwtDevice, now, batch).value;
      var (s', v) := Ingested(t, cat, e, jwtDevice, now, batch).value;
      var r := OneReceipt(t, cat, e, jwtDevice, now, batch);
      OneBilled(t.raw, s'.raw, r, e, v, cat, now, batch, campaign, before + AcceptedOf(front, results));
      AcceptedOfAdded(before, front, e, results, v);
      assert front + [e] == events;
    }
  }

  /** In every run of batches and expiries from empty tables, the rows billed to a campaign are, one for one and in
      order, the events answered as accepted that name a manifest of it. */
  lemma {:induction false} BilledAreAccepted(cat: Catalog, ops: seq<Op>, campaign: string)
    requires cat.Valid()
    ensures var empty := Store([], {}, []);
            BilledFor(Run(empty, cat, ops).raw, campaign, For(cat, AcceptedIn(empty, cat, ops), campaign))
  {
    var empty := Store([], {}, []);
    if ops != [] {
      var front, op := ops[..|ops| - 1], ops[|ops| - 1];
      BilledAreAccepted(cat, front, campaign);
      var s, accepted := Run(empty, cat, front), AcceptedIn(empty, cat, front);
      assert accepted + [] == accepted;
      match op
      case Batch(events, jwtDevice, now, batch) =>
        if IngestedAll(s, cat, events, jwtDevice, now, batch).Ok? {
          BatchBilled(s, cat, events, jwtDevice, now, batch, campaign, accepted);
        }
      case ExpireQuarantine(t) => PopReports.ExpiryKeepsReports(s.raw, t, campaign);
    }
  }

  function TotalDuration(events: seq<Event>): int {
    if events == [] then 0 else TotalDuration(events[..|events| - 1]) + events[|events| - 1].duration
  }

  lemma {:induction false} DurationsAddUp(rows: seq<Row>, events: seq<Event>)
    requires |rows| == |events| && forall k :: 0 <= k < |rows| ==> rows[k].duration == events[k].duration
    ensures PopReports.Total(PopReports.BySurface(rows)) == TotalDuration(events)
  {
    if rows != [] {
      var front := rows[..|rows| - 1];
      DurationsAddUp(front, events[..|events| - 1]);
      assert PopReports.BySurface(rows)[..|rows| - 1] == PopReports.BySurface(front);
    }
  }

  function DevicesOf(events: seq<Event>): set<string> {
    set i | 0 <= i < |events| :: events[i].device
  }

  function SurfacesOf(events: seq<Event>): set<string> {
    set i | 0 <= i < |events| :: events[i].surface
  }

  lemma SameNames(rows: seq<Row>, events: seq<Event>)
    requires |rows| == |events| && forall k :: 0 <= k < |rows| ==> rows[k].device == events[k].device && rows[k].surface == events[k].surface
    ensures (set i | 0 <= i < |rows| :: rows[i].device) == DevicesOf(events) && PopReports.SurfacesOf(rows) == SurfacesOf(events)
  {
    var devices, surfaces := set i | 0 <= i < |rows| :: rows[i].device, PopReports.SurfacesOf(rows);
    forall d ensures d in devices <==> d in DevicesOf(events) {
      if d in devices {
        var i :| 0 <= i < |rows| && rows[i].device == d;
        assert events[i].device == d;
      }
      if d in DevicesOf(events) {
        var i :| 0 <= i < |events| && events[i].device == d;
        assert rows[i].device == d;
      }
    }
    forall d ensures d in surfaces <==> d in SurfacesOf(events) {
      if d in surfaces {
        var i :| 0 <= i < |rows| && rows[i].surface == d;
        assert events[i].surface == d;
      }
      if d in SurfacesOf(events) {
        var i :| 0 <= i < |events| && events[i].surface == d;
        assert rows[i].surface == d;
      }
    }
  }

  /** The summary of a campaign counts the events answered as accepted for it, adds up the durations they report, and
      counts their devices and surfaces. */
  lemma SummaryIsOfEvents(cat: Catalog, ops: seq<Op>, campaign: string)
    requires cat.Valid()
    ensures var empty := Store([], {}, []);
            var events := For(cat, AcceptedIn(empty, cat, ops), campaign);
            PopReports.CampaignSummary(Run(empty, cat, ops).raw, campaign) ==
            PopReports.Summary(|events|, TotalDuration(events), |DevicesOf(events)|, |SurfacesOf(events)|)
  {
    var empty := Store([], {}, []);
    var events := For(cat, AcceptedIn(empty, cat, ops), campaign);
    var rows := PopReports.Billed(Run(empty, cat, ops).raw, campaign);
    BilledAreAccepted(cat, ops, campaign);
    DurationsAddUp(rows, events);
    SameNames(rows, events);
  }
}
