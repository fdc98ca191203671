/** The consumer of campaign events: at-least-once messages, one transaction each, effectively-once manifests. */
module DeliveryConsumer {
  import opened Common
  import opened ManifestIds
  import opened DeliveryTargets
  import opened ManifestGeneration

  /** What a message carries: nothing; no JSON, or null; JSON on which the parser gives up otherwise, being nested too
      deep or holding too long a number; JSON that is no object; an object whose fields make the handler raise, an
      event type without hash or a triggering one with an aggregate id that is not text; or an event. An absent
      or empty aggregate id is "". */
  datatype Message =
    | NoData
    | Unparseable
    | Indigestible
    | NotAnObject
    | Malformed
    | Envelope(eventType: string, aggregateId: string)

  const DELIVERY_EVENT_TYPES: set<string> := {
    "campaign.approved",
    "campaign.updated",
    "campaign.scheduled",
    "campaign.activated",
    "campaign.placement.changed",
    "campaign.creative.changed",
    "campaign.flight.changed"
  }

  /** A commit goes through, fails, or takes effect although its reply is lost and an exception is raised. */
  datatype CommitEnd = Commits | Fails | ReplyLost

  /** What the database and the broker do while a message is processed: whether a session can be set up, the
      campaign's rows and its resolved targets, how each manifest goes, how the commit ends, and whether the ack,
      nak or term reaches the broker. */
  datatype Visit = Visit(
    ready: bool,
    content: Content,
    eligible: bool,
    groups: seq<Group>,
    attempts: string -> Attempt,
    commit: CommitEnd,
    signals: bool)

  /** The last two raise out of the processing of the message, the first of them after the nak. */
  datatype Answer = Acked | AckLost | Nakd | Termed | NakdAndRaised | Raised

  /** A message asks for manifests. */
  predicate Triggers(m: Message) {
    m.Envelope? && m.aggregateId != "" && m.eventType in DELIVERY_EVENT_TYPES
  }

  /** The handler: what the transaction holds, and whether processing succeeded. */
  function Handled(l: Ledger, m: Message, v: Visit): (Ledger, bool) {
    if !Triggers(m) then (l, true)
    else
      var o := Generate(l, v.content, v.eligible, v.groups, v.attempts);
      (o.ledger, !o.raised)
  }

  function Delivered(l: Ledger, m: Message, v: Visit): (Ledger, Answer) {
    if m.NoData? || m.Unparseable? then (l, Termed)
    else if m.Indigestible? || !v.ready then (l, Raised)
    else if m.NotAnObject? then (l, NakdAndRaised)
    else if m.Malformed? then (l, Nakd)
    else if Handled(l, m, v).1 && v.commit == Commits then (Handled(l, m, v).0, if v.signals then Acked else AckLost)
    else if Handled(l, m, v).1 && v.commit == ReplyLost then (Handled(l, m, v).0, Nakd)
    else (l, Nakd)
  }

  /** The message is an event of a campaign, of one of the types that change what is to be delivered. */
  predicate AsksForManifests(m: Message) {
    && m.Envelope? && m.aggregateId != ""
    && (|| m.eventType == "campaign.approved" || m.eventType == "campaign.updated" || m.eventType == "campaign.scheduled"
        || m.eventType == "campaign.activated" || m.eventType == "campaign.placement.changed"
        || m.eventType == "campaign.creative.changed" || m.eventType == "campaign.flight.changed")
  }

  /** Each answer has its condition, and the database changes only when manifests are asked for, generating them raises
      nothing, and the commit takes effect. */
  lemma AnsweredExactly(l: Ledger, m: Message, v: Visit)
    ensures var (l', answer) := Delivered(l, m, v);
            var o := Generate(l, v.content, v.eligible, v.groups, v.attempts);
            var goesOn := m.Envelope? && v.ready && !(AsksForManifests(m) && o.raised);
            && (answer == Termed <==> m == NoData || m == Unparseable)
            && (answer == Raised <==> m == Indigestible || ((m.NotAnObject? || m.Malformed? || m.Envelope?) && !v.ready))
            && (answer == NakdAndRaised <==> m == NotAnObject && v.ready)
            && (answer == Acked <==> goesOn && v.commit == Commits && v.signals)
            && (answer == AckLost <==> goesOn && v.commit == Commits && !v.signals)
            && (answer == Nakd <==> v.ready && (m == Malformed || (m.Envelope? && !(goesOn && v.commit == Commits))))
            && l' == if goesOn && AsksForManifests(m) && v.commit != Fails then o.ledger else l
  {
    assert AsksForManifests(m) <==> Triggers(m);
  }

  class Consumer {
    /** The committed state of the database. */
    var committed: Ledger
    var acked: nat
    var nakd: nat
    var terminated: nat
    var errors: nat

    constructor (l: Ledger)
      ensures committed == l && acked == 0 && nakd == 0 && terminated == 0 && errors == 0
    {
      committed := l;
      acked, nakd, terminated, errors := 0, 0, 0, 0;
    }

    method SafeSignal(signals: bool) returns (ok: bool)
      modifies this`errors
      ensures ok == signals && errors == old(errors) + if signals then 0 else 1
    {
      if !signals {
        errors := errors + 1;
      }
      return signals;
    }

    /** _process_one: the handler works in a session of its own; commit, then ack; otherwise roll back and nak.
        Acked implies committed: no manifest was lost to an exception. Anything else implies that the database is
        as it was, whatever the handler had written, unless a commit took effect whose reply was lost. A body that
        is no object raises once more while the first exception is logged. */
    method ProcessOne(m: Message, v: Visit) returns (answer: Answer)
      modifies this
      ensures (committed, answer) == Delivered(old(committed), m, v)
      ensures answer in {Acked, AckLost} && Triggers(m) ==>
                var o := Generate(old(committed), v.content, v.eligible, v.groups, v.attempts);
                !o.raised && committed == o.ledger
      ensures answer in {Termed, NakdAndRaised, Raised} ==> committed == old(committed)
      ensures answer == Nakd ==>
                committed == if v.commit == ReplyLost && Handled(old(committed), m, v).1
                             then Handled(old(committed), m, v).0 else old(committed)
      ensures acked == old(acked) + if answer == Acked then 1 else 0
      ensures nakd == old(nakd) + if answer in {Nakd, NakdAndRaised} then 1 else 0
      ensures terminated == old(terminated) + if answer == Termed then 1 else 0
      ensures errors == old(errors) + if v.signals || answer == Raised then 0 else 1
    {
      if m.NoData? || m.Unparseable? {
        var _ := SafeSignal(v.signals);
        terminated := terminated + 1;
        return Termed;
      }
      if m.Indigestible? || !v.ready {
        return Raised;
      }
      if !m.Envelope? {
        var _ := SafeSignal(v.signals);
        nakd := nakd + 1;
        return if m.NotAnObject? then NakdAndRaised else Nakd;
      }
      var session := new Session(committed);
      var success := HandleEvent(session, m, v);
      if success && v.commit != Fails {
        committed := session.State();
        if v.commit == ReplyLost {
          // The exception leads to a rollback, which finds nothing left to undo.
          var _ := SafeSignal(v.signals);
          nakd := nakd + 1;
          return Nakd;
        }
        var ok := SafeSignal(v.signals);
        if ok {
          acked := acked + 1;
        }
        answer := if ok then Acked else AckLost;
      } else {
        // The session is discarded: nothing of it reaches the committed state.
        var _ := SafeSignal(v.signals);
        nakd := nakd + 1;
        answer := Nakd;
      }
    }

    /** The loop of run over the messages of one fetch: an exception that gets out of a message ends it. */
    method ProcessBatch(batch: seq<Delivery>) returns (answers: seq<Answer>)
      modifies this
      ensures (committed, answers) == Processed(old(committed), batch)
    {
      answers := [];
      ghost var start := committed;
      for n := 0 to |batch|
        invariant (committed, answers) == Processed(start, batch[..n]) && !Ended(answers)
      {
        ghost var before := answers;
        var answer := ProcessOne(batch[n].message, batch[n].visit);
        answers := answers + [answer];
        assert batch[..n + 1][..n] == batch[..n];
        assert (committed, answers) == Processed(start, batch[..n + 1]);
        if answer in {NakdAndRaised, Raised} {
          EndedStays(start, batch, n + 1);
          return;
        }
      }
      assert batch[..|batch|] == batch;
    }
  }

  /** handle_campaign_delivery_event. */
  method HandleEvent(session: Session, m: Message, v: Visit) returns (success: bool)
    requires m.Envelope?
    modifies session
    ensures (session.State(), success) == Handled(old(session.State()), m, v)
  {
    if m.aggregateId == "" {
      return true;
    }
    if m.eventType !in DELIVERY_EVENT_TYPES {
      return true;
    }
    var _, raised := session.GenerateManifests(v.content, v.eligible, v.groups, v.attempts);
    return !raised;
  }

  /// ---------------------------------------------------------------------
  /// Runs
  /// ---------------------------------------------------------------------

  datatype Delivery = Delivery(message: Message, visit: Visit)

  /** Any messages in any order, any number of times. */
  function RunAll(l: Ledger, run: seq<Delivery>): Ledger {
    if run == [] then l
    else
      var d := run[|run| - 1];
      Delivered(RunAll(l, run[..|run| - 1]), d.message, d.visit).0
  }

  /** The loop has ended with its last message. */
  predicate Ended(answers: seq<Answer>) {
    answers != [] && answers[|answers| - 1] in {NakdAndRaised, Raised}
  }

  /** The messages of one fetch, up to one that raises. */
  function Processed(l: Ledger, batch: seq<Delivery>): (Ledger, seq<Answer>) {
    if batch == [] then (l, [])
    else
      var (before, answers) := Processed(l, batch[..|batch| - 1]);
      if Ended(answers) then (before, answers)
      else
        var d := batch[|batch| - 1];
        (Delivered(before, d.message, d.visit).0, answers + [Delivered(before, d.message, d.visit).1])
  }

  lemma {:induction false} EndedStays(l: Ledger, batch: seq<Delivery>, n: nat)
    requires n <= |batch| && Ended(Processed(l, batch[..n]).1)
    ensures Processed(l, batch) == Processed(l, batch[..n])
    decreases |batch|
  {
    if n == |batch| {
      assert batch[..n] == batch;
    } else {
      assert batch[..|batch| - 1][..n] == batch[..n];
      EndedStays(l, batch[..|batch| - 1], n);
    }
  }

  /** A message that takes the consumer down. */
  predicate Breaks(d: Delivery) {
    !d.message.NoData? && !d.message.Unparseable? && (d.message.Indigestible? || d.message.NotAnObject? || !d.visit.ready)
  }

  predicate NoneBreaks(batch: seq<Delivery>) {
    forall i :: 0 <= i < |batch| ==> !Breaks(batch[i])
  }

  lemma BreaksExactly(l: Ledger, d: Delivery)
    ensures Delivered(l, d.message, d.visit).1 in {NakdAndRaised, Raised} <==> Breaks(d)
  {
  }

  lemma {:induction false} LoopEnds(l: Ledger, batch: seq<Delivery>)
    ensures var (after, answers) := Processed(l, batch);
            && |answers| <= |batch| && after == RunAll(l, batch[..|answers|])
            && (if Ended(answers) then NoneBreaks(batch[..|answers| - 1]) && Breaks(batch[|answers| - 1])
                else |answers| == |batch| && NoneBreaks(batch))
  {
    if batch != [] {
      var front, d := batch[..|batch| - 1], batch[|batch| - 1];
      var (before, answers) := Processed(l, front);
      LoopEnds(l, front);
      if Ended(answers) {
        assert batch[..|answers|] == front[..|answers|] && batch[..|answers| - 1] == front[..|answers| - 1];
      } else {
        BreaksExactly(before, d);
        assert front[..|front|] == front && batch[..|batch|] == batch;
        var r := Delivered(before, d.message, d.visit);
        assert Processed(l, batch) == (r.0, answers + [r.1]);
      }
    }
  }

  /** A message of a fetch is processed exactly when none before it breaks the loop; the loop gets through the fetch
      exactly when none breaks it; and those processed are processed as in any other run. */
  lemma LoopEndsExactly(l: Ledger, batch: seq<Delivery>)
    ensures var (after, answers) := Processed(l, batch);
            && |answers| <= |batch| && after == RunAll(l, batch[..|answers|])
            && (forall i :: 0 <= i < |batch| ==> (i < |answers| <==> NoneBreaks(batch[..i])))
            && (Ended(answers) <==> !NoneBreaks(batch))
  {
    LoopEnds(l, batch);
    var answers := Processed(l, batch).1;
    forall i | 0 <= i < |batch| ensures i < |answers| <==> NoneBreaks(batch[..i]) {
      if i < |answers| {
        if Ended(answers) {
          assert forall j :: 0 <= j < i ==> batch[j] == batch[..|answers| - 1][j];
        }
      } else {
        assert batch[..i][|answers| - 1] == batch[|answers| - 1];
      }
    }
  }

  /** Deliveries of one message. */
  function Redelivered(m: Message, visits: seq<Visit>): seq<Delivery> {
    if visits == [] then [] else Redelivered(m, visits[..|visits| - 1]) + [Delivery(m, visits[|visits| - 1])]
  }

  /** The answers to them. */
  function AnswersTo(l: Ledger, m: Message, visits: seq<Visit>): seq<Answer> {
    if visits == [] then []
    else
      var front := visits[..|visits| - 1];
      AnswersTo(l, m, front) + [Delivered(RunAll(l, Redelivered(m, front)), m, visits[|visits| - 1]).1]
  }

  lemma PoisonOnce(l: Ledger, m: Message, v: Visit)
    requires m.Indigestible? || m.NotAnObject? || m.Malformed?
    ensures Delivered(l, m, v).0 == l && Delivered(l, m, v).1 in {Nakd, NakdAndRaised, Raised}
  {
  }

  /** A poisonous message other than one without data or JSON is never taken off the queue: however often it comes,
      it is neither terminated nor acknowledged, and nothing is stored. */
  lemma {:induction false} PoisonIsNeverTerminated(l: Ledger, m: Message, visits: seq<Visit>)
    requires m.Indigestible? || m.NotAnObject? || m.Malformed?
    ensures RunAll(l, Redelivered(m, visits)) == l
    ensures forall a :: a in AnswersTo(l, m, visits) ==> a in {Nakd, NakdAndRaised, Raised}
  {
    if visits != [] {
      var v := visits[|visits| - 1];
      var before := Redelivered(m, visits[..|visits| - 1]);
      PoisonIsNeverTerminated(l, m, visits[..|visits| - 1]);
      PoisonOnce(l, m, v);
      RunOneMore(l, before, Delivery(m, v));
    }
  }

  lemma RunOneMore(l: Ledger, run: seq<Delivery>, d: Delivery)
    ensures RunAll(l, run + [d]) == Delivered(RunAll(l, run), d.message, d.visit).0
  {
    assert (run + [d])[..|run|] == run;
  }

  lemma DeliveredKeepsConsistent(l: Ledger, m: Message, v: Visit)
    requires Consistent(l)
    ensures Consistent(Delivered(l, m, v).0) && Extends(l, Delivered(l, m, v).0)
  {
    GenerateKeepsConsistent(l, v.content, v.eligible, v.groups, v.attempts);
    GenerateExtends(l, v.content, v.eligible, v.groups, v.attempts);
  }

  /** In every run no manifest id occurs twice, each device's versions are 1, 2, 3, ... in creation order,
      and every generated manifest is announced exactly once, in order. */
  lemma {:induction false} RunKeepsConsistent(l: Ledger, run: seq<Delivery>)
    requires Consistent(l)
    ensures Consistent(RunAll(l, run)) && Extends(l, RunAll(l, run))
  {
    if run != [] {
      var d, rest := run[|run| - 1], run[..|run| - 1];
      RunKeepsConsistent(l, rest);
      DeliveredKeepsConsistent(RunAll(l, rest), d.message, d.visit);
    }
  }

  function ManifestsOf(ms: seq<Manifest>, campaign: string): seq<Manifest> {
    if ms == [] then []
    else ManifestsOf(ms[..|ms| - 1], campaign) + if ms[|ms| - 1].campaign == campaign then [ms[|ms| - 1]] else []
  }

  function PlansOf(ps: seq<Plan>, campaign: string): seq<Plan> {
    if ps == [] then []
    else PlansOf(ps[..|ps| - 1], campaign) + if ps[|ps| - 1].campaign == campaign then [ps[|ps| - 1]] else []
  }

  function NoticesOf(ns: seq<Notice>, campaign: string): seq<Notice> {
    if ns == [] then []
    else NoticesOf(ns[..|ns| - 1], campaign) + if ns[|ns| - 1].campaign == campaign then [ns[|ns| - 1]] else []
  }

  /** The rows of one campaign. */
  function Part(l: Ledger, campaign: string): Ledger {
    Ledger(ManifestsOf(l.manifests, campaign), PlansOf(l.plans, campaign), NoticesOf(l.outbox, campaign))
  }

  lemma PartOfAdded(l: Ledger, campaign: string, m: Manifest, p: Plan, n: Notice)
    ensures m.campaign != campaign ==> ManifestsOf(l.manifests + [m], campaign) == ManifestsOf(l.manifests, campaign)
    ensures p.campaign != campaign ==> PlansOf(l.plans + [p], campaign) == PlansOf(l.plans, campaign)
    ensures n.campaign != campaign ==> NoticesOf(l.outbox + [n], campaign) == NoticesOf(l.outbox, campaign)
  {
    assert (l.manifests + [m])[..|l.manifests|] == l.manifests;
    assert (l.plans + [p])[..|l.plans|] == l.plans;
    assert (l.outbox + [n])[..|l.outbox|] == l.outbox;
  }

  lemma OtherDeviceKeepsPart(l: Ledger, c: Content, g: Group, attempt: Attempt, campaign: string)
    requires c.id != campaign
    ensures Part(ForDevice(l, c, g, attempt).ledger, campaign) == Part(l, campaign)
  {
    var status := if attempt == Fine then Generated else if attempt == Crashes then Planned else Failed;
    var m := NewManifest(l, c, g, status);
    var n := if attempt == Fine then ManifestGenerated(m.id, c.id, g.device, m.version) else ManifestFailed(c.id, Some(g.device));
    PartOfAdded(l, campaign, m, Plan(c.id, m.id), n);
  }

  lemma {:induction false} OtherDevicesKeepPart(l: Ledger, c: Content, groups: seq<Group>, attempts: string -> Attempt, campaign: string)
    requires c.id != campaign
    ensures Part(ForDevices(l, c, groups, attempts).ledger, campaign) == Part(l, campaign)
  {
    if groups != [] {
      var last, rest := groups[|groups| - 1], groups[..|groups| - 1];
      OtherDevicesKeepPart(l, c, rest, attempts, campaign);
      OtherDeviceKeepsPart(ForDevices(l, c, rest, attempts).ledger, c, last, attempts(last.device), campaign);
    }
  }

  lemma OtherCampaignKeepsPart(l: Ledger, v: Visit, campaign: string)
    requires v.content.id != campaign
    ensures Part(Generate(l, v.content, v.eligible, v.groups, v.attempts).ledger, campaign) == Part(l, campaign)
  {
    var c := v.content;
    var o := ForDevices(l, c, v.groups, v.attempts);
    OtherDevicesKeepPart(l, c, v.groups, v.attempts, campaign);
    var m := Manifest(VersionHash(c), c.id, "", 0, [], Planned);
    PartOfAdded(l, campaign, m, Plan(c.id, VersionHash(c)), ManifestFailed(c.id, None));
    PartOfAdded(o.ledger, campaign, m, Plan(c.id, VersionHash(c)), ManifestFailed(c.id, None));
  }

  /** A campaign, its placements and the fleet as they are in the database. */
  datatype Scene = Scene(content: Content, placements: seq<Placement>, fleet: set<Row>)

  /** A visit reads the campaign of the message; if that is the scene's campaign it reads the scene's rows,
      in whatever order. */
  ghost predicate Reads(d: Delivery, s: Scene) {
    Triggers(d.message) ==>
      && d.visit.content.id == d.message.aggregateId
      && (d.message.aggregateId == s.content.id ==>
            && SameRows(s.content, d.visit.content)
            && exists p :: multiset(s.placements) == multiset(p) && Resolves(d.visit.groups, s.fleet, p))
  }

  /** Processing succeeded with no failure on the way: every manifest went well and the commit took effect. */
  ghost predicate FailureFree(d: Delivery, s: Scene) {
    && Triggers(d.message) && d.message.aggregateId == s.content.id && Reads(d, s)
    && d.visit.ready && d.visit.eligible && d.visit.groups != [] && d.visit.commit != Fails
    && forall x :: d.visit.attempts(x) == Fine
  }

  /** Every manifest of the scene is there. */
  ghost predicate Done(l: Ledger, s: Scene, groups: seq<Group>) {
    groups != [] && Resolves(groups, s.fleet, s.placements) && AllPresent(l, s.content, groups)
  }

  /** Resolved from the same placements in another order, the targets are still resolved. */
  lemma ResolvesAnyOrder(groups: seq<Group>, fleet: set<Row>, p: seq<Placement>, q: seq<Placement>)
    requires multiset(p) == multiset(q) && Resolves(groups, fleet, p)
    ensures Resolves(groups, fleet, q)
  {
    WantedForgetsOrder(fleet, p, q);
  }

  lemma FailureFreeCommits(l: Ledger, d: Delivery, s: Scene)
    requires FailureFree(d, s)
    ensures Delivered(l, d.message, d.visit).0 == Generate(l, d.visit.content, true, d.visit.groups, d.visit.attempts).ledger
  {
    FineRunMakesAll(l, d.visit.content, d.visit.groups, d.visit.attempts);
  }

  lemma SameRowsSameIds(c: Content, d: Content, groups: seq<Group>)
    requires SameRows(c, d)
    ensures forall i :: 0 <= i < |groups| ==> IdFor(c, groups[i]) == IdFor(d, groups[i])
  {
    forall i | 0 <= i < |groups| ensures IdFor(c, groups[i]) == IdFor(d, groups[i]) {
      var surfaces := Sort(groups[i].surfaces);
      IdsForgetOrder(c, d, surfaces, surfaces, groups[i].device);
    }
  }

  lemma FailureFreeIsDone(l: Ledger, d: Delivery, s: Scene)
    requires FailureFree(d, s)
    ensures Done(Delivered(l, d.message, d.visit).0, s, d.visit.groups)
  {
    var v := d.visit;
    var p :| multiset(s.placements) == multiset(p) && Resolves(v.groups, s.fleet, p);
    ResolvesAnyOrder(v.groups, s.fleet, p, s.placements);
    FineRunMakesAll(l, v.content, v.groups, v.attempts);
    var o := ForDevices(l, v.content, v.groups, v.attempts);
    ExtendsKeepsPresent(o.ledger, Generate(l, v.content, true, v.groups, v.attempts).ledger, v.content, v.groups);
    SameRowsSameIds(s.content, v.content, v.groups);
    FailureFreeCommits(l, d, s);
  }

  /** A message leaves the database as it was or as the generation run left it. */
  lemma DeliveredLedger(l: Ledger, m: Message, v: Visit)
    ensures || Delivered(l, m, v).0 == l
            || (Triggers(m) && Delivered(l, m, v).0 == Generate(l, v.content, v.eligible, v.groups, v.attempts).ledger)
  {
  }

  /** Generating for a finished campaign again changes nothing. */
  lemma DoneRunChangesNothing(l: Ledger, v: Visit, s: Scene, groups: seq<Group>, p: seq<Placement>)
    requires Done(l, s, groups) && SameRows(s.content, v.content)
    requires multiset(s.placements) == multiset(p) && Resolves(v.groups, s.fleet, p)
    ensures Generate(l, v.content, v.eligible, v.groups, v.attempts).ledger == l
  {
    PresentForSameRows(l, s.content, v.content, groups, v.groups, s.fleet, s.placements, p);
    PresentRunChangesNothing(l, v.content, v.groups, v.attempts);
  }

  /** One more delivery of anything leaves a finished campaign's rows as they are. */
  lemma DoneStaysDone(l: Ledger, d: Delivery, s: Scene, groups: seq<Group>)
    requires Done(l, s, groups) && Reads(d, s)
    ensures var l' := Delivered(l, d.message, d.visit).0;
            Done(l', s, groups) && Part(l', s.content.id) == Part(l, s.content.id)
    ensures Triggers(d.message) && d.message.aggregateId == s.content.id ==> Delivered(l, d.message, d.visit).0 == l
  {
    var v := d.visit;
    DeliveredLedger(l, d.message, v);
    if Triggers(d.message) && d.message.aggregateId == s.content.id {
      var p :| multiset(s.placements) == multiset(p) && Resolves(v.groups, s.fleet, p);
      DoneRunChangesNothing(l, v, s, groups, p);
    } else if Triggers(d.message) {
      GenerateExtends(l, v.content, v.eligible, v.groups, v.attempts);
      ExtendsKeepsPresent(l, Generate(l, v.content, v.eligible, v.groups, v.attempts).ledger, s.content, groups);
      OtherCampaignKeepsPart(l, v, s.content.id);
    }
  }

  /** Effectively once: after one failure-free success, however often the campaign's events are delivered
      again, in whatever order their rows are read, whatever fails and whichever other messages come between,
      the campaign's manifests, plans and outbox rows stay as they were. */
  lemma {:induction false} EffectivelyOnce(l: Ledger, first: Delivery, later: seq<Delivery>, s: Scene)
    requires FailureFree(first, s) && forall i :: 0 <= i < |later| ==> Reads(later[i], s)
    ensures var done := Delivered(l, first.message, first.visit).0;
            && Done(RunAll(done, later), s, first.visit.groups)
            && Part(RunAll(done, later), s.content.id) == Part(done, s.content.id)
  {
    var done := Delivered(l, first.message, first.visit).0;
    FailureFreeIsDone(l, first, s);
    if later != [] {
      var rest := later[..|later| - 1];
      EffectivelyOnce(l, first, rest, s);
      assert Reads(later[|later| - 1], s);
      DoneStaysDone(RunAll(done, rest), later[|later| - 1], s, first.visit.groups);
    }
  }

  /** Redelivering that campaign's events alone leaves the whole database as it was. */
  lemma {:induction false} RedeliveryChangesNothing(l: Ledger, first: Delivery, later: seq<Delivery>, s: Scene)
    requires FailureFree(first, s)
    requires forall i :: 0 <= i < |later| ==>
               Reads(later[i], s) && (Triggers(later[i].message) ==> later[i].message.aggregateId == s.content.id)
    ensures RunAll(Delivered(l, first.message, first.visit).0, later) == Delivered(l, first.message, first.visit).0
  {
    FailureFreeIsDone(l, first, s);
    if later != [] {
      var rest := later[..|later| - 1];
      RedeliveryChangesNothing(l, first, rest, s);
      assert Reads(later[|later| - 1], s);
      DoneStaysDone(RunAll(Delivered(l, first.message, first.visit).0, rest), later[|later| - 1], s, first.visit.groups);
    }
  }

  /// ---------------------------------------------------------------------
  /// Failed manifests
  /// ---------------------------------------------------------------------

  /** Rows with a known id are final: over any run of messages there are the same rows with that id. */
  lemma {:induction false} KnownIdIsFinalInRuns(l: Ledger, run: seq<Delivery>, id: Digest)
    requires HasId(l.manifests, id)
    ensures SameFor(id, l.manifests, RunAll(l, run).manifests)
  {
    if run != [] {
      var d, before := run[|run| - 1], RunAll(l, run[..|run| - 1]);
      KnownIdIsFinalInRuns(l, run[..|run| - 1], id);
      SameForKeeps(id, l.manifests, before.manifests);
      KnownIdIsFinal(before, d.visit.content, d.visit.eligible, d.visit.groups, d.visit.attempts, id);
    }
  }

  /** The id has rows, and all of them are failures. */
  ghost predicate OnlyFailed(ms: seq<Manifest>, id: Digest) {
    HasId(ms, id) && forall m :: m in ms && m.id == id ==> m.status == Failed
  }

  /** A manifest that failed is never built again, however often and with whatever outcome events are delivered. */
  lemma FailedIsFinal(l: Ledger, run: seq<Delivery>, id: Digest)
    requires OnlyFailed(l.manifests, id)
    ensures OnlyFailed(RunAll(l, run).manifests, id)
  {
    KnownIdIsFinalInRuns(l, run, id);
    SameForKeeps(id, l.manifests, RunAll(l, run).manifests);
  }

  /** The device ids of the groups hold no separator, as UUIDs do not, and there is one group per device. */
  ghost predicate ProperTargets(groups: seq<Group>) {
    WellGrouped(groups) && forall i :: 0 <= i < |groups| ==> Plain(groups[i].device)
  }

  /** A visit in which building one device's manifest fails after its row was added, with an exception that leaves
      the transaction usable, is acknowledged like any other, and from then on no delivery gives that device its
      manifest. */
  lemma FailedVisitIsAcked(l: Ledger, d: Delivery, i: nat, later: seq<Delivery>)
    requires Triggers(d.message) && d.visit.ready && d.visit.eligible && d.visit.commit == Commits && d.visit.signals
    requires ProperTargets(d.visit.groups) && i < |d.visit.groups|
    requires !HasId(l.manifests, IdFor(d.visit.content, d.visit.groups[i])) && d.visit.attempts(d.visit.groups[i].device) == FailsAfter
    requires forall x :: d.visit.attempts(x) != Crashes
    ensures Delivered(l, d.message, d.visit).1 == Acked
    ensures OnlyFailed(RunAll(Delivered(l, d.message, d.visit).0, later).manifests, IdFor(d.visit.content, d.visit.groups[i]))
  {
    var v := d.visit;
    DevicesHaveTheirOwnIds(v.content, v.groups);
    NothingEscapes(l, v.content, v.groups, v.attempts);
    FailedRowIsLeft(l, v.content, v.groups, v.attempts, i);
    FailedIsFinal(Delivered(l, d.message, d.visit).0, later, IdFor(v.content, v.groups[i]));
  }

  lemma {:induction false} NothingEscapes(l: Ledger, c: Content, groups: seq<Group>, attempts: string -> Attempt)
    requires forall x :: attempts(x) != Crashes
    ensures !ForDevices(l, c, groups, attempts).raised
  {
    if groups != [] {
      NothingEscapes(l, c, groups[..|groups| - 1], attempts);
    }
  }

  lemma {:induction false} FailedRowIsLeft(l: Ledger, c: Content, groups: seq<Group>, attempts: string -> Attempt, i: nat)
    requires DistinctIds(c, groups) && i < |groups| && !ForDevices(l, c, groups, attempts).raised
    requires !HasId(l.manifests, IdFor(c, groups[i])) && attempts(groups[i].device) == FailsAfter
    ensures OnlyFailed(ForDevices(l, c, groups, attempts).ledger.manifests, IdFor(c, groups[i]))
    decreases |groups|
  {
    var last, rest := groups[|groups| - 1], groups[..|groups| - 1];
    var l1 := ForDevices(l, c, rest, attempts).ledger;
    var l2 := ForDevice(l1, c, last, attempts(last.device)).ledger;
    var id := IdFor(c, groups[i]);
    if i < |rest| {
      FailedRowIsLeft(l, c, rest, attempts, i);
      ForDeviceKeepsRowsOf(l1, c, last, attempts(last.device), id);
      SameForKeeps(id, l1.manifests, l2.manifests);
    } else {
      ForDevicesKeepsRowsOf(l, c, rest, attempts, id);
      SameForKeeps(id, l.manifests, l1.manifests);
      assert forall m :: m in l1.manifests ==> m.id != id;
      assert NewManifest(l1, c, last, Failed) in l2.manifests;
    }
  }

  /** After an acknowledged eligible visit every resolved device has a generated manifest exactly when each had it
      before, or had no row yet and building it went well. */
  lemma AckedVisitIsComplete(l: Ledger, m: Message, v: Visit)
    requires Triggers(m) && v.eligible && ProperTargets(v.groups) && Delivered(l, m, v).1 in {Acked, AckLost}
    ensures AllGenerated(Delivered(l, m, v).0, v.content, v.groups) <==>
            forall i :: 0 <= i < |v.groups| ==> GoesWell(l, v.content, v.groups[i], v.attempts)
  {
    DevicesHaveTheirOwnIds(v.content, v.groups);
    AllGeneratedExactly(l, v.content, v.groups, v.attempts);
  }

  /** The condition that targets resolve matters: with none, every redelivery adds an outbox row. */
  lemma NoTargetsIsNotIdempotent(l: Ledger, m: Message, v: Visit)
    requires Triggers(m) && v.ready && v.eligible && v.groups == [] && v.commit != Fails
    ensures Delivered(l, m, v).0.outbox == l.outbox + [ManifestFailed(v.content.id, None)]
    ensures Delivered(Delivered(l, m, v).0, m, v).0 != Delivered(l, m, v).0
  {
    assert |Delivered(l, m, v).0.outbox| == |l.outbox| + 1;
  }
}
