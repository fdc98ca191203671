/** The approval workflow of campaigns, coupled to the reservation ledger. */
module CampaignLifecycle {
  import opened Common
  import opened Slots
  import opened InventoryBooks
  import opened InventoryLedger
  import Runs = InventoryRuns

  datatype Status = Draft | PendingApproval | Approved | Active | Paused | Rejected | Completed | Archived

  /** ALLOWED_TRANSITIONS */
  predicate Allowed(current: Status, target: Status) {
    match current
    case Draft => target == PendingApproval
    case PendingApproval => target == Approved || target == Rejected
    case Approved => target == Active
    case Active => target == Paused || target == Completed
    case _ => false
  }

  /** A row of the status history. */
  datatype Move = Move(from: Option<Status>, target: Status)

  datatype Campaign = Campaign(status: Status, history: seq<Move>)
  {
    function MovedTo(target: Status): Campaign {
      Campaign(target, history + [Move(Some(status), target)])
    }
  }

  const CREATED := Campaign(Draft, [Move(None, Draft)])

  datatype Placement = Placement(id: string, surface: Option<string>, sov: Option<int>)
  datatype Flight = Flight(startAt: Option<int>, endAt: Option<int>)

  /** What request_campaign_approval reads: the campaign's flights, placements, and the outcome of the
      creative and contract checks. */
  datatype Form = Form(placements: seq<Placement>, flights: seq<Flight>, hasCreatives: bool, checksPass: bool)

  /** Clock, configuration and reference data of one call. */
  datatype Env = Env(dir: Directory, now: int, until: int, slotCapacity: nat)

  datatype World = World(campaigns: map<string, Campaign>, books: Books)

  datatype Answer = NoChange | Refused | Moved

  /// ---------------------------------------------------------------------
  /// Reserving for all placements and flights
  /// ---------------------------------------------------------------------

  function AskFor(p: Placement, f: Flight, env: Env): Ask
    requires p.surface.Some? && f.startAt.Some? && f.endAt.Some?
  {
    var sov := if p.sov.None? || p.sov.value == 0 then 100 else p.sov.value;
    Ask(p.surface.value, f.startAt.value, f.endAt.value, None, Some(sov), env.slotCapacity)
  }

  /** The books after reserving the placement for each flight in turn; None once a call is refused. */
  ghost function HoldFlights(b: Books, campaign: string, p: Placement, flights: seq<Flight>, env: Env): Option<Books>
    requires p.surface.Some?
  {
    if flights == [] then Some(b)
    else
      var n := |flights| - 1;
      match HoldFlights(b, campaign, p, flights[..n], env)
      case None => None
      case Some(b1) =>
        if flights[n].startAt.None? || flights[n].endAt.None? then Some(b1)
        else
          var (b2, r) := ReserveOutcome(b1, env.dir, env.now, campaign, p.id, AskFor(p, flights[n], env), env.until);
          if r.Ok? then Some(b2) else None
  }

  ghost function HoldPlacements(b: Books, campaign: string, placements: seq<Placement>, flights: seq<Flight>, env: Env): Option<Books> {
    if placements == [] then Some(b)
    else
      var n := |placements| - 1;
      match HoldPlacements(b, campaign, placements[..n], flights, env)
      case None => None
      case Some(b1) => if placements[n].surface.None? then Some(b1) else HoldFlights(b1, campaign, placements[n], flights, env)
  }

  /// ---------------------------------------------------------------------
  /// Steps
  /// ---------------------------------------------------------------------

  datatype Op =
    | Create(id: string)
    | Archive(id: string)
    | RequestApproval(id: string, form: Form, env: Env)
    | Approve(id: string, ready: bool)
    | Reject(id: string)
    | Activate(id: string)
    | Pause(id: string)
    | Complete(id: string, flights: seq<Flight>, now: int)
    | ExpireTick(now: int)

  predicate FlightsOver(flights: seq<Flight>, now: int) {
    && flights != []
    && forall i :: 0 <= i < |flights| ==> flights[i].endAt.Some? && flights[i].endAt.value < now
  }

  /** A request leaves its transition in the history. */
  predicate WasRequested(c: Campaign) {
    Move(Some(Draft), PendingApproval) in c.history
  }

  ghost function Requested(w: World, id: string, form: Form, env: Env): (World, Answer) {
    if id !in w.campaigns || w.campaigns[id].status != Draft then (w, NoChange)
    else if form.flights == [] || form.placements == [] || !form.hasCreatives || !form.checksPass then (w, Refused)
    else
      match HoldPlacements(Updated(w.books, Release(id)), id, form.placements, form.flights, env)
      case None => (w, Refused)
      case Some(b) => (World(w.campaigns[id := w.campaigns[id].MovedTo(PendingApproval)], b), Moved)
  }

  ghost function Decided(w: World, id: string, target: Status, ch: Change): (World, Answer) {
    if id !in w.campaigns || w.campaigns[id].status != PendingApproval || !WasRequested(w.campaigns[id]) then (w, NoChange)
    else (World(w.campaigns[id := w.campaigns[id].MovedTo(target)], Updated(w.books, ch)), Moved)
  }

  function Advanced(w: World, id: string, from: Status, target: Status): (World, Answer) {
    if id !in w.campaigns || w.campaigns[id].status != from || !Allowed(from, target) then (w, NoChange)
    else (w.(campaigns := w.campaigns[id := w.campaigns[id].MovedTo(target)]), Moved)
  }

  function ArchivedIn(w: World, id: string): (World, Answer) {
    if id !in w.campaigns || w.campaigns[id].status !in {Draft, Rejected} then (w, NoChange)
    else (w.(campaigns := w.campaigns[id := w.campaigns[id].MovedTo(Archived)]), Moved)
  }

  ghost function Step(w: World, op: Op): World {
    match op
    case Create(id) => if id in w.campaigns then w else w.(campaigns := w.campaigns[id := CREATED])
    case Archive(id) => ArchivedIn(w, id).0
    case RequestApproval(id, form, env) => Requested(w, id, form, env).0
    case Approve(id, ready) => if ready then Decided(w, id, Approved, Commit(id)).0 else w
    case Reject(id) => Decided(w, id, Rejected, Release(id)).0
    case Activate(id) => Advanced(w, id, Approved, Active).0
    case Pause(id) => Advanced(w, id, Active, Paused).0
    case Complete(id, flights, now) => if FlightsOver(flights, now) then Advanced(w, id, Active, Completed).0 else w
    case ExpireTick(now) => w.(books := Updated(w.books, Expire(now)))
  }

  ghost function Run(w: World, ops: seq<Op>): World
    decreases |ops|
  {
    if ops == [] then w else Run(Step(w, ops[0]), ops[1..])
  }

  /// ---------------------------------------------------------------------
  /// The methods
  /// ---------------------------------------------------------------------

  class CampaignDesk {
    var campaigns: map<string, Campaign>
    const inventory: Inventory

    constructor (inventory: Inventory)
      ensures this.inventory == inventory && campaigns == map[]
    {
      this.inventory := inventory;
      campaigns := map[];
    }

    function State(): World
      reads this, inventory
    {
      World(campaigns, inventory.Books())
    }

    method CreateCampaign(id: string)
      requires id !in campaigns
      modifies this
      ensures State() == Step(old(State()), Create(id))
    {
      campaigns := campaigns[id := CREATED];
    }

    method ArchiveCampaign(id: string) returns (answer: Answer)
      modifies this
      ensures (State(), answer) == ArchivedIn(old(State()), id)
    {
      if id !in campaigns || (campaigns[id].status != Draft && campaigns[id].status != Rejected) {
        return NoChange;
      }
      campaigns := campaigns[id := campaigns[id].MovedTo(Archived)];
      answer := Moved;
    }

    method ReserveFlights(campaign: string, p: Placement, flights: seq<Flight>, env: Env) returns (ok: bool)
      requires p.surface.Some? && env.dir == inventory.dir && Consistent(inventory.Books())
      modifies inventory
      ensures Consistent(inventory.Books())
      ensures var held := HoldFlights(old(inventory.Books()), campaign, p, flights, env);
              (ok <==> held.Some?) && (ok ==> held.value == inventory.Books())
    {
      ghost var start := inventory.Books();
      var n := 0;
      while n < |flights|
        invariant 0 <= n <= |flights| && Consistent(inventory.Books())
        invariant HoldFlights(start, campaign, p, flights[..n], env) == Some(inventory.Books())
      {
        assert flights[..n + 1][..n] == flights[..n];
        var f := flights[n];
        n := n + 1;
        if f.startAt.Some? && f.endAt.Some? {
          ghost var before := inventory.Books();
          var r := inventory.Reserve(campaign, p.id, AskFor(p, f, env), env.now, env.until);
          Runs.StepConserves(before, Runs.ReserveOp(env.dir, env.now, campaign, p.id, AskFor(p, f, env), env.until));
          if r.Err? {
            RefusedFlight(start, campaign, p, flights, n, env);
            return false;
          }
        }
      }
      assert flights[..n] == flights;
      ok := true;
    }

    method ReservePlacements(campaign: string, placements: seq<Placement>, flights: seq<Flight>, env: Env) returns (ok: bool)
      requires env.dir == inventory.dir && Consistent(inventory.Books())
      modifies inventory
      ensures Consistent(inventory.Books())
      ensures var held := HoldPlacements(old(inventory.Books()), campaign, placements, flights, env);
              (ok <==> held.Some?) && (ok ==> held.value == inventory.Books())
    {
      ghost var start := inventory.Books();
      var n := 0;
      while n < |placements|
        invariant 0 <= n <= |placements| && Consistent(inventory.Books())
        invariant HoldPlacements(start, campaign, placements[..n], flights, env) == Some(inventory.Books())
      {
        assert placements[..n + 1][..n] == placements[..n];
        var p := placements[n];
        n := n + 1;
        if p.surface.Some? {
          ok := ReserveFlights(campaign, p, flights, env);
          if !ok {
            RefusedPlacement(start, campaign, placements, flights, n, env);
            return;
          }
        }
      }
      assert placements[..n] == placements;
      ok := true;
    }

    /** Request approval. A refusal is answered with an error, so the caller's transaction takes back
        the reservations made so far. */
    method RequestApproval(id: string, form: Form, env: Env) returns (answer: Answer)
      requires env.dir == inventory.dir && Consistent(inventory.Books())
      modifies this, inventory
      ensures (State(), answer) == Requested(old(State()), id, form, env)
    {
      if id !in campaigns || campaigns[id].status != Draft || !Allowed(Draft, PendingApproval) {
        return NoChange;
      }
      if form.flights == [] || form.placements == [] || !form.hasCreatives || !form.checksPass {
        return Refused;
      }
      var slots, rows := inventory.slots, inventory.rows;
      UpdateKeepsConsistent(inventory.Books(), Release(id));
      var released := inventory.ReleaseForCampaign(id);
      var ok := ReservePlacements(id, form.placements, form.flights, env);
      if !ok {
        inventory.slots, inventory.rows := slots, rows;
        return Refused;
      }
      campaigns := campaigns[id := campaigns[id].MovedTo(PendingApproval)];
      answer := Moved;
    }

    /** Approve a pending campaign that is still ready: commit its reservations. */
    method ApproveCampaign(id: string, ready: bool) returns (answer: Answer)
      requires Consistent(inventory.Books())
      modifies this, inventory
      ensures (State(), answer) == if ready then Decided(old(State()), id, Approved, Commit(id)) else (old(State()), NoChange)
    {
      if id !in campaigns || campaigns[id].status != PendingApproval || !ready || !WasRequested(campaigns[id]) {
        return NoChange;
      }
      var committed := inventory.CommitForCampaign(id);
      campaigns := campaigns[id := campaigns[id].MovedTo(Approved)];
      answer := Moved;
    }

    /** Reject a pending campaign: release what it holds. */
    method RejectCampaign(id: string) returns (answer: Answer)
      requires Consistent(inventory.Books())
      modifies this, inventory
      ensures (State(), answer) == Decided(old(State()), id, Rejected, Release(id))
    {
      if id !in campaigns || campaigns[id].status != PendingApproval || !WasRequested(campaigns[id]) {
        return NoChange;
      }
      var released := inventory.ReleaseForCampaign(id);
      campaigns := campaigns[id := campaigns[id].MovedTo(Rejected)];
      answer := Moved;
    }

    method ActivateCampaign(id: string) returns (answer: Answer)
      modifies this
      ensures (State(), answer) == Advanced(old(State()), id, Approved, Active)
    {
      if id !in campaigns || campaigns[id].status != Approved {
        return NoChange;
      }
      campaigns := campaigns[id := campaigns[id].MovedTo(Active)];
      answer := Moved;
    }

    method PauseCampaign(id: string) returns (answer: Answer)
      modifies this
      ensures (State(), answer) == Advanced(old(State()), id, Active, Paused)
    {
      if id !in campaigns || campaigns[id].status != Active {
        return NoChange;
      }
      campaigns := campaigns[id := campaigns[id].MovedTo(Paused)];
      answer := Moved;
    }

    method CompleteCampaign(id: string, flights: seq<Flight>, now: int) returns (answer: Answer)
      modifies this
      ensures (State(), answer) == if FlightsOver(flights, now) then Advanced(old(State()), id, Active, Completed)
                                   else (old(State()), NoChange)
    {
      if id !in campaigns || campaigns[id].status != Active || flights == [] {
        return NoChange;
      }
      for n := 0 to |flights|
        invariant forall i :: 0 <= i < n ==> flights[i].endAt.Some? && flights[i].endAt.value < now
      {
        if flights[n].endAt.None? || flights[n].endAt.value >= now {
          return NoChange;
        }
      }
      campaigns := campaigns[id := campaigns[id].MovedTo(Completed)];
      answer := Moved;
    }
  }

  lemma {:induction false} RefusedFlight(b: Books, campaign: string, p: Placement, flights: seq<Flight>, n: nat, env: Env)
    requires p.surface.Some? && n <= |flights| && HoldFlights(b, campaign, p, flights[..n], env).None?
    ensures HoldFlights(b, campaign, p, flights, env).None?
    decreases |flights|
  {
    if n < |flights| {
      assert flights[..|flights| - 1][..n] == flights[..n];
      RefusedFlight(b, campaign, p, flights[..|flights| - 1], n, env);
    } else {
      assert flights[..n] == flights;
    }
  }

  lemma {:induction false} RefusedPlacement(b: Books, campaign: string, placements: seq<Placement>, flights: seq<Flight>, n: nat, env: Env)
    requires n <= |placements| && HoldPlacements(b, campaign, placements[..n], flights, env).None?
    ensures HoldPlacements(b, campaign, placements, flights, env).None?
    decreases |placements|
  {
    if n < |placements| {
      assert placements[..|placements| - 1][..n] == placements[..n];
      RefusedPlacement(b, campaign, placements[..|placements| - 1], flights, n, env);
    } else {
      assert placements[..n] == placements;
    }
  }

  /// ---------------------------------------------------------------------
  /// What every reachable state satisfies
  /// ---------------------------------------------------------------------

  /** The history is the one path to the status; an archived campaign was a draft or was rejected. */
  ghost predicate OnPath(c: Campaign) {
    var created := [Move(None, Draft)];
    var requested := created + [Move(Some(Draft), PendingApproval)];
    var approved := requested + [Move(Some(PendingApproval), Approved)];
    var active := approved + [Move(Some(Approved), Active)];
    var rejected := requested + [Move(Some(PendingApproval), Rejected)];
    match c.status
    case Draft => c.history == created
    case PendingApproval => c.history == requested
    case Approved => c.history == approved
    case Active => c.history == active
    case Paused => c.history == active + [Move(Some(Active), Paused)]
    case Completed => c.history == active + [Move(Some(Active), Completed)]
    case Rejected => c.history == rejected
    case Archived =>
      || c.history == created + [Move(Some(Draft), Archived)]
      || c.history == rejected + [Move(Some(Rejected), Archived)]
  }

  /** Booking statuses a campaign's rows may have. Reservations may expire while the campaign waits. */
  predicate RowAllowed(status: Status, st: BookingStatus) {
    match status
    case Draft => false
    case PendingApproval => st == Reserved || st == Expired
    case Rejected => st == Released || st == Expired
    case Archived => st == Released || st == Expired
    case _ => st == Committed || st == Expired
  }

  /** Placements belong to one campaign each; `owner` names it. */
  ghost predicate Sound(w: World, owner: string -> string) {
    && Consistent(w.books)
    && WithinCapacity(w.books.slots)
    && (forall id :: id in w.campaigns ==> OnPath(w.campaigns[id]))
    && (forall i :: 0 <= i < |w.books.rows| ==>
          var row := w.books.rows[i];
          row.campaign in w.campaigns && owner(row.placement) == row.campaign && RowAllowed(w.campaigns[row.campaign].status, row.status))
  }

  ghost predicate OwnsForm(op: Op, owner: string -> string) {
    op.RequestApproval? ==> forall i :: 0 <= i < |op.form.placements| ==> owner(op.form.placements[i].id) == op.id
  }

  /** While a request is being processed: old rows stay, new ones are reservations of the campaign. */
  ghost predicate Requesting(b0: Books, b: Books, id: string, owner: string -> string) {
    && Consistent(b) && WithinCapacity(b.slots)
    && |b0.rows| <= |b.rows| && b.rows[..|b0.rows|] == b0.rows
    && (forall i :: 0 <= i < |b0.rows| ==> owner(b.rows[i].placement) != id)
    && (forall i :: |b0.rows| <= i < |b.rows| ==>
          b.rows[i].campaign == id && owner(b.rows[i].placement) == id && b.rows[i].status == Reserved)
  }

  /** During a request all bookings of the campaign's placements are reserved. */
  lemma NothingToReactivate(b0: Books, b: Books, id: string, owner: string -> string, placement: string, until: int)
    requires Requesting(b0, b, id, owner) && owner(placement) == id
    ensures forall i :: 0 <= i < |b.rows| ==> !Reactivate(placement, until).Selects(b.rows[i])
    ensures Reactivate(placement, until).Rewrite(b.rows) == b.rows
  {
  }

  /** New reservations of the campaign keep the request going. */
  lemma AddedWhileRequesting(b0: Books, b: Books, b': Books, id: string, owner: string -> string, added: seq<Booking>)
    requires Requesting(b0, b, id, owner) && Consistent(b') && WithinCapacity(b'.slots) && b'.rows == b.rows + added
    requires forall i :: 0 <= i < |added| ==> added[i].campaign == id && owner(added[i].placement) == id && added[i].status == Reserved
    ensures Requesting(b0, b', id, owner)
  {
    assert b'.rows[..|b0.rows|] == b.rows[..|b0.rows|];
    forall i | |b0.rows| <= i < |b'.rows|
      ensures b'.rows[i].campaign == id && owner(b'.rows[i].placement) == id && b'.rows[i].status == Reserved
    {
      assert b'.rows[i] == if i < |b.rows| then b.rows[i] else added[i - |b.rows|];
    }
  }

  /** Reserving during a request never finds an inactive booking to reactivate. */
  lemma ReserveWhileRequesting(b0: Books, b: Books, id: string, owner: string -> string, p: Placement, ask: Ask, env: Env)
    requires Requesting(b0, b, id, owner) && owner(p.id) == id
    ensures var (b', r) := ReserveOutcome(b, env.dir, env.now, id, p.id, ask, env.until);
            r.Ok? ==> Requesting(b0, b', id, owner)
    ensures forall i :: 0 <= i < |b.rows| ==> !Reactivate(p.id, env.until).Selects(b.rows[i])
  {
    var op := Runs.ReserveOp(env.dir, env.now, id, p.id, ask, env.until);
    Runs.StepConserves(b, op);
    Runs.StepCapacity(b, op);
    NothingToReactivate(b0, b, id, owner, p.id, env.until);
    var (b', r) := ReserveOutcome(b, env.dir, env.now, id, p.id, ask, env.until);
    if r.Ok? {
      AddedWhileRequesting(b0, b, b', id, owner, b'.rows[|b.rows|..]);
    }
  }

  lemma {:induction false} HoldFlightsRequesting(b0: Books, b: Books, id: string, owner: string -> string, p: Placement, flights: seq<Flight>, env: Env)
    requires Requesting(b0, b, id, owner) && owner(p.id) == id && p.surface.Some?
    ensures var held := HoldFlights(b, id, p, flights, env);
            held.Some? ==> Requesting(b0, held.value, id, owner)
  {
    if flights != [] {
      var n := |flights| - 1;
      HoldFlightsRequesting(b0, b, id, owner, p, flights[..n], env);
      var held := HoldFlights(b, id, p, flights[..n], env);
      if held.Some? && flights[n].startAt.Some? && flights[n].endAt.Some? {
        ReserveWhileRequesting(b0, held.value, id, owner, p, AskFor(p, flights[n], env), env);
      }
    }
  }

  lemma {:induction false} HoldPlacementsRequesting(b0: Books, b: Books, id: string, owner: string -> string, placements: seq<Placement>, flights: seq<Flight>, env: Env)
    requires Requesting(b0, b, id, owner)
    requires forall i :: 0 <= i < |placements| ==> owner(placements[i].id) == id
    ensures var held := HoldPlacements(b, id, placements, flights, env);
            held.Some? ==> Requesting(b0, held.value, id, owner)
  {
    if placements != [] {
      var n := |placements| - 1;
      HoldPlacementsRequesting(b0, b, id, owner, placements[..n], flights, env);
      var held := HoldPlacements(b, id, placements[..n], flights, env);
      if held.Some? && placements[n].surface.Some? {
        HoldFlightsRequesting(b0, held.value, id, owner, placements[n], flights, env);
      }
    }
  }

  /** A draft has no bookings, so a request starts from the books as they are. */
  lemma RequestStarts(w: World, id: string, owner: string -> string)
    requires Sound(w, owner) && id in w.campaigns && w.campaigns[id].status == Draft
    ensures Requesting(w.books, Updated(w.books, Release(id)), id, owner)
  {
    var b0 := w.books;
    assert Release(id).Rewrite(b0.rows) == b0.rows;
    SettleNothing(b0.slots, b0.rows);
    assert b0.rows[..|b0.rows|] == b0.rows;
  }

  lemma RequestKeepsSound(w: World, id: string, form: Form, env: Env, owner: string -> string)
    requires Sound(w, owner) && OwnsForm(Op.RequestApproval(id, form, env), owner)
    ensures Sound(Requested(w, id, form, env).0, owner)
  {
    if Requested(w, id, form, env).1 == Moved {
      var b0 := w.books;
      RequestStarts(w, id, owner);
      HoldPlacementsRequesting(b0, Updated(b0, Release(id)), id, owner, form.placements, form.flights, env);
      var w' := Requested(w, id, form, env).0;
      forall i | 0 <= i < |w'.books.rows|
        ensures var row := w'.books.rows[i];
                row.campaign in w'.campaigns && owner(row.placement) == row.campaign && RowAllowed(w'.campaigns[row.campaign].status, row.status)
      {
        if i < |b0.rows| {
          assert w'.books.rows[i] == w'.books.rows[..|b0.rows|][i];
        }
      }
    }
  }

  lemma DecisionKeepsSound(w: World, id: string, target: Status, ch: Change, owner: string -> string)
    requires Sound(w, owner)
    requires (target == Approved && ch == Commit(id)) || (target == Rejected && ch == Release(id))
    ensures Sound(Decided(w, id, target, ch).0, owner)
  {
    UpdateKeepsConsistent(w.books, ch);
    UpdateKeepsCapacity(w.books, ch);
  }

  lemma AdvanceKeepsSound(w: World, id: string, from: Status, target: Status, owner: string -> string)
    requires Sound(w, owner) && target != PendingApproval && target != Rejected && target != Approved
    ensures Sound(Advanced(w, id, from, target).0, owner)
  {
  }

  lemma ExpiryKeepsSound(w: World, now: int, owner: string -> string)
    requires Sound(w, owner)
    ensures Sound(w.(books := Updated(w.books, Expire(now))), owner)
  {
    UpdateKeepsConsistent(w.books, Expire(now));
    UpdateKeepsCapacity(w.books, Expire(now));
  }

  lemma StepKeepsSound(w: World, op: Op, owner: string -> string)
    requires Sound(w, owner) && OwnsForm(op, owner)
    ensures Sound(Step(w, op), owner)
  {
    match op
    case RequestApproval(id, form, env) => RequestKeepsSound(w, id, form, env, owner);
    case Approve(id, ready) => DecisionKeepsSound(w, id, Approved, Commit(id), owner);
    case Reject(id) => DecisionKeepsSound(w, id, Rejected, Release(id), owner);
    case ExpireTick(now) => ExpiryKeepsSound(w, now, owner);
    case Activate(id) => AdvanceKeepsSound(w, id, Approved, Active, owner);
    case Pause(id) => AdvanceKeepsSound(w, id, Active, Paused, owner);
    case Complete(id, flights, now) => AdvanceKeepsSound(w, id, Active, Completed, owner);
    case Create(id) =>
    case Archive(id) =>
  }

  lemma {:induction false} RunKeepsSound(w: World, ops: seq<Op>, owner: string -> string)
    requires Sound(w, owner) && forall i :: 0 <= i < |ops| ==> OwnsForm(ops[i], owner)
    ensures Sound(Run(w, ops), owner)
    decreases |ops|
  {
    if ops != [] {
      StepKeepsSound(w, ops[0], owner);
      RunKeepsSound(Step(w, ops[0]), ops[1..], owner);
    }
  }

  /** An unbroken chain of permitted moves that ends at the current status. */
  ghost predicate Chain(c: Campaign) {
    && 1 <= |c.history| <= 5
    && c.history[0] == Move(None, Draft)
    && c.history[|c.history| - 1].target == c.status
    && forall i :: 1 <= i < |c.history| ==>
                     && c.history[i].from == Some(c.history[i - 1].target)
                     && var m := c.history[i];
                        Allowed(m.from.value, m.target) || (m.target == Archived && m.from.value in {Draft, Rejected})
  }

  const EMPTY: World := World(map[], Books(map[], []))

  /** In every run from the empty system: histories are unbroken chains of at most five rows, a pending
      campaign always has its request on record, campaigns past approval hold no reservation, rejected
      and archived ones hold nothing, and no slot is ever overbooked. */
  lemma LifecycleSafety(ops: seq<Op>, owner: string -> string)
    requires forall i :: 0 <= i < |ops| ==> OwnsForm(ops[i], owner)
    ensures var w := Run(EMPTY, ops);
            && WithinCapacity(w.books.slots)
            && (forall id :: id in w.campaigns ==> Chain(w.campaigns[id]))
            && (forall id :: id in w.campaigns && w.campaigns[id].status == PendingApproval ==> WasRequested(w.campaigns[id]))
            && (forall i :: 0 <= i < |w.books.rows| ==>
                  var row := w.books.rows[i];
                  && row.campaign in w.campaigns
                  && (w.campaigns[row.campaign].status in {Approved, Active, Paused, Completed} ==> row.status != Reserved)
                  && (w.campaigns[row.campaign].status in {Rejected, Archived} ==> row.status !in {Reserved, Committed}))
  {
    RunKeepsSound(EMPTY, ops, owner);
    var w := Run(EMPTY, ops);
    forall id | id in w.campaigns ensures Chain(w.campaigns[id]) {
      PathIsChain(w.campaigns[id]);
    }
    forall id | id in w.campaigns && w.campaigns[id].status == PendingApproval ensures WasRequested(w.campaigns[id]) {
      assert w.campaigns[id].history[1] == Move(Some(Draft), PendingApproval);
    }
  }

  lemma PathIsChain(c: Campaign)
    requires OnPath(c)
    ensures Chain(c)
  {
  }

  /** In every run from the empty system a request never reactivates a booking: whichever flight of whichever
      placement it has come to, none of the bookings of that placement was released or has expired. */
  lemma RequestsNeverReactivate(ops: seq<Op>, owner: string -> string, id: string, form: Form, env: Env, n: nat, m: nat, before: Books, now: Books)
    requires forall i :: 0 <= i < |ops| ==> OwnsForm(ops[i], owner)
    requires id in Run(EMPTY, ops).campaigns && Run(EMPTY, ops).campaigns[id].status == Draft
    requires OwnsForm(RequestApproval(id, form, env), owner)
    requires n < |form.placements| && m <= |form.flights| && form.placements[n].surface.Some?
    requires HoldPlacements(Updated(Run(EMPTY, ops).books, Release(id)), id, form.placements[..n], form.flights, env) == Some(before)
    requires HoldFlights(before, id, form.placements[n], form.flights[..m], env) == Some(now)
    ensures forall i :: 0 <= i < |now.rows| ==> !Reactivate(form.placements[n].id, env.until).Selects(now.rows[i])
  {
    var w, p := Run(EMPTY, ops), form.placements[n];
    RunKeepsSound(EMPTY, ops, owner);
    RequestStarts(w, id, owner);
    HoldPlacementsRequesting(w.books, Updated(w.books, Release(id)), id, owner, form.placements[..n], form.flights, env);
    HoldFlightsRequesting(w.books, before, id, owner, p, form.flights[..m], env);
    NothingToReactivate(w.books, now, id, owner, p.id, env.until);
  }
}
