/** The rules of the device runtime in the terms of its inputs: which manifests it takes, what it shows and records. */
module RuntimeRules {
  import opened Common
  import opened RuntimeSimulator

  /// ---------------------------------------------------------------------
  /// Which manifests are taken
  /// ---------------------------------------------------------------------

  const TERMS: set<string> := {
    "storage_bucket", "storage_key", "access_key", "secret_key", "presigned_url", "token", "email", "phone", "password"
  }

  /** The term stands somewhere in the text. */
  ghost predicate OccursIn(term: string, text: string) {
    exists before, after :: text == before + term + after
  }

  /** All fields are there, and no forbidden term is. */
  ghost predicate IsClean(m: Manifest) {
    && m.id != "" && m.device != "" && m.store != "" && m.channel != "" && m.version.Some? && m.hasSurfaces
    && forall term :: term in TERMS ==> !OccursIn(term, m.text)
  }

  /** Signed as the device wants it: a device without a key takes anything but the placeholder. */
  predicate IsSigned(c: Config, m: Manifest) {
    m.signature != "INVALID" && (c.signingKey == "" || (m.signature != "" && m.algorithm == "HMAC-SHA256" && c.verify(m, m.signature, c.signingKey)))
  }

  lemma ContainsIsOccursIn(text: string, term: string)
    ensures Contains(text, term) <==> OccursIn(term, text)
  {
    if Contains(text, term) {
      var i :| 0 <= i <= |text| && term <= text[i..];
      assert text == text[..i] + term + text[i + |term|..];
    }
    if before, after :| text == before + term + after {
      assert text[|before|..] == term + after;
    }
  }

  lemma LeaksExactly(m: Manifest)
    ensures Leaks(m) <==> exists term :: term in TERMS && OccursIn(term, m.text)
  {
    forall k | 0 <= k < |FORBIDDEN_TERMS| ensures FORBIDDEN_TERMS[k] in TERMS && (Contains(m.text, FORBIDDEN_TERMS[k]) <==> OccursIn(FORBIDDEN_TERMS[k], m.text)) {
      ContainsIsOccursIn(m.text, FORBIDDEN_TERMS[k]);
    }
    if term :| term in TERMS && OccursIn(term, m.text) {
      assert term in FORBIDDEN_TERMS;
      var k :| 0 <= k < |FORBIDDEN_TERMS| && FORBIDDEN_TERMS[k] == term;
    }
  }

  /** A manifest is taken exactly when it is clean, for this device, signed, and newer than the current one unless it
      is an emergency. */
  lemma TakenExactly(s: Sim, c: Config, m: Manifest)
    ensures Objection(s, c, m).None? <==>
            && IsClean(m) && m.device == c.device && IsSigned(c, m)
            && (s.current.None? || m.emergencyFlag || m.version.value > (if s.current.value.version.Some? then s.current.value.version.value else 0))
  {
    LeaksExactly(m);
  }

  /** Every manifest that the device has is one that it may take. */
  ghost predicate Trusted(c: Config, s: Sim) {
    && (s.current.Some? ==> IsClean(s.current.value) && s.current.value.device == c.device && IsSigned(c, s.current.value))
    && (s.lastGood.Some? ==> IsClean(s.lastGood.value) && s.lastGood.value.device == c.device && IsSigned(c, s.lastGood.value))
  }

  /** In every run the current and the last known good manifest are clean, for this device and signed: whatever is
      offered, a manifest whose signature does not verify is never shown, not even after a rollback. */
  lemma {:induction false} OnlyTrusted(c: Config, ops: seq<Op>)
    ensures Trusted(c, Run(World(BOOT, [], []), c, ops).sim)
  {
    if ops != [] {
      var w, op := Run(World(BOOT, [], []), c, ops[..|ops| - 1]), ops[|ops| - 1];
      OnlyTrusted(c, ops[..|ops| - 1]);
      if op.Apply? {
        TakenExactly(w.sim, c, op.manifest);
      }
    }
  }

  /// ---------------------------------------------------------------------
  /// What is shown and recorded
  /// ---------------------------------------------------------------------

  /** The kill switch holds the campaign back: its state is stale, or it is on for the device, its store, everything or
      the campaign. */
  predicate HeldBack(s: Sim, campaign: string) {
    || s.stale || s.kill.global || s.kill.store || s.kill.device
    || (campaign != "" && campaign in s.kill.campaigns && s.kill.campaigns[campaign])
  }

  /** Time offline so far: what was accumulated, and what has passed since the device went offline. */
  function Offline(s: Sim, mono: real): real {
    s.offlineDuration + if s.offlineStart.Some? then mono - s.offlineStart.value else 0.0
  }

  /** The device has been offline for the hours that its manifest allows. */
  predicate TooLong(s: Sim, mono: real) {
    s.current.Some? && Offline(s, mono) >= 3600.0 * s.current.value.ttlHours as real
  }

  predicate Over(m: Manifest, now: int) {
    m.validTo.At? && m.validTo.instant < now
  }

  /** The start of validity is missing, or readable and past. */
  predicate Begun(m: Manifest, now: int) {
    m.validFrom.Absent? || (m.validFrom.At? && m.validFrom.instant < now)
  }

  /** Each refusal has its reason, the first that applies; a request is played exactly when none does. */
  lemma RefusedFor(s: Sim, c: Config, r: Request, id: string, now: int, mono: real)
    ensures var answer := RenderedSlot(s, c, r, id, now, mono).1;
            && (answer == NotPlayed(KillSwitchActive) <==> HeldBack(s, r.campaign))
            && (answer == NotPlayed(OfflineTtlExpired) <==> !HeldBack(s, r.campaign) && TooLong(s, mono) && !r.fallback)
            && (answer == NotPlayed(NoManifest) <==> !HeldBack(s, r.campaign) && s.current.None?)
            && (answer == NotPlayed(ManifestExpired) <==>
                  && !HeldBack(s, r.campaign) && !(TooLong(s, mono) && !r.fallback) && s.current.Some?
                  && Over(s.current.value, now) && !(r.fallback && s.current.value.fallbackWhenExpired))
            && (answer == NotPlayed(NotYetValid) <==>
                  && !HeldBack(s, r.campaign) && !(TooLong(s, mono) && !r.fallback) && s.current.Some?
                  && !(Over(s.current.value, now) && !(r.fallback && s.current.value.fallbackWhenExpired)) && !Begun(s.current.value, now))
  {
  }

  /** A request that is played is recorded exactly when it is no filler, or filler that the manifest wants recorded, and
      its event id is new; the event says what was asked for, on which device and under which manifest. */
  lemma RecordedExactly(s: Sim, c: Config, r: Request, id: string, now: int, mono: real)
    requires RenderedSlot(s, c, r, id, now, mono).1.Played? && s.current.Some?
    ensures var (s', answer) := RenderedSlot(s, c, r, id, now, mono);
            var m := s.current.value;
            var records := !r.fallback || m.emitPop;
            && answer == Played(if records then Some(id) else None)
            && s' == (if records && id !in s.ids
                      then s.(queue := s.queue + [Event(id, c.device, m.id, r.campaign, r.asset, r.surface, r.duration)], ids := s.ids + {id})
                      else s)
  {
  }

  lemma PlayedHasManifest(s: Sim, c: Config, r: Request, id: string, now: int, mono: real)
    requires RenderedSlot(s, c, r, id, now, mono).1.Played?
    ensures s.current.Some?
  {
  }

  /** In every run each event recorded says what was asked for when it was shown. */
  ghost predicate SaysWhatWasAsked(c: Config, e: Emission) {
    && e.under.current.Some?
    && e.event == Event(e.event.id, c.device, e.under.current.value.id, e.request.campaign, e.request.asset, e.request.surface, e.request.duration)
  }

  lemma {:induction false} EventsSayWhatWasAsked(c: Config, ops: seq<Op>)
    ensures forall k :: 0 <= k < |Run(World(BOOT, [], []), c, ops).log| ==> SaysWhatWasAsked(c, Run(World(BOOT, [], []), c, ops).log[k])
  {
    if ops != [] {
      EventsSayWhatWasAsked(c, ops[..|ops| - 1]);
    }
  }

  /** Setting one level of the kill switch changes that level alone, and makes the state fresh. */
  lemma SetsOneLevel(w: World, c: Config, level: Level, active: bool, campaign: string)
    ensures var s, s' := w.sim, Step(w, c, SetKill(level, active)).sim;
            && !s'.stale && s' == s.(kill := s'.kill, stale := false)
            && s'.kill.global == (if level == GlobalLevel then active else s.kill.global)
            && s'.kill.store == (if level == StoreLevel then active else s.kill.store)
            && s'.kill.device == (if level == DeviceLevel then active else s.kill.device)
            && (if level == CampaignLevel(campaign) then campaign in s'.kill.campaigns && s'.kill.campaigns[campaign] == active
                else (campaign in s'.kill.campaigns <==> campaign in s.kill.campaigns)
                     && (campaign in s.kill.campaigns ==> s'.kill.campaigns[campaign] == s.kill.campaigns[campaign]))
  {
  }

  /** Going offline starts the clock unless it runs already; going online stops it; advancing adds the hours and moves
      the start back by all that was accumulated. */
  lemma OfflineClock(w: World, c: Config, at: real, hours: real)
    ensures var s := w.sim;
            && Step(w, c, GoOffline(true, at)).sim == (if s.offlineStart.None? then s.(offlineStart := Some(at)) else s)
            && Step(w, c, GoOffline(false, at)).sim == s.(offlineStart := None)
            && var total := s.offlineDuration + 3600.0 * hours;
               Step(w, c, Advance(hours, at)).sim ==
               s.(offlineDuration := total, offlineStart := if s.offlineStart.Some? then Some(at - total) else None)
  {
  }

  /** Everything queued is handed over, in order, and nothing stays; nothing else leaves the queue but by a reset. */
  lemma DrainsAll(w: World, c: Config, op: Op)
    ensures var w' := Step(w, c, op);
            match op
            case DrainQueue => w'.sim == w.sim.(queue := []) && w'.delivered == w.delivered + EventIds(w.sim.queue)
            case ResetAll => w'.sim == Sim(None, None, KillSwitch(false, false, false, map[]), true, [], {}, None, 0.0) && w'.delivered == []
            case _ => w.sim.queue <= w'.sim.queue && w'.delivered == w.delivered
  {
  }
}
