/** Racing ingestions: transactions that look an event up, write it later, and commit or abort in any order. */
module PopRace {
  import opened Common
  import opened PopIngestion

  datatype Answer = Answer(id: string, verdict: Verdict)

  /** An event judged writable, between the lookup and the insert. */
  datatype Pending = Pending(event: Event, now: int)

  /** An open transaction: its uncommitted rows and notices, the answers it has collected, the event in hand. */
  datatype Txn = Txn(rows: seq<Row>, notices: seq<Notice>, answers: seq<Answer>, pending: Option<Pending>)

  /** The committed tables, the open transactions, and the answers sent by committed ones. */
  datatype World = World(store: Store, live: map<nat, Txn>, sent: seq<Answer>)

  datatype Step =
    | Begin(t: nat)
    | Look(t: nat, event: Event, jwtDevice: string, now: int)
    | Write(t: nat, violation: Violation)
    | Commit(t: nat)
    | Abort(t: nat)

  predicate Holds(rows: seq<Row>, id: string) {
    exists r :: r in rows && r.id == id
  }

  /** Another open transaction has inserted the key: an insert of the same key waits for it to end. */
  predicate Blocked(w: World, t: nat, id: string) {
    exists u :: u in w.live && u != t && Holds(w.live[u].rows, id)
  }

  /** The lookup and the checks of one event; None when one of them raises, which ends the transaction. */
  function Looked(w: World, txn: Txn, cat: Catalog, e: Event, jwtDevice: string, now: int): Option<Txn> {
    if FirstObjection(e, jwtDevice).Some? then Some(txn.(answers := txn.answers + [Answer(e.id, Reject(FirstObjection(e, jwtDevice).value))]))
    else if !Clean(e.id) then None
    else if Found(w.store.dedup, e.id) || (|e.id| <= 36 && Holds(txn.rows, e.id)) then Some(txn.(answers := txn.answers + [Answer(e.id, Duplicate)]))
    else if Raised(cat, e, now).Some? then None
    else if Judged(cat, e, now).Reject? then Some(txn.(answers := txn.answers + [Answer(e.id, Judged(cat, e, now))]))
    else Some(txn.(pending := Some(Pending(e, now))))
  }

  /** The insert, with no other open transaction holding the key; None when the transaction fails. */
  function AfterWrite(w: World, txn: Txn, cat: Catalog, violation: Violation): Option<Txn>
    requires txn.pending.Some?
  {
    var e, now := txn.pending.value.event, txn.pending.value.now;
    var v, row := Judged(cat, e, now), RowFor(cat, e, now, None);
    if !Fits(row) then None
    else if row.id in w.store.dedup || Holds(txn.rows, row.id) then
      if violation == OnDedupIndex then Some(txn.(answers := txn.answers + [Answer(e.id, Duplicate)], pending := None)) else None
    else if row.asset !in cat.assets then None
    else Some(Txn(txn.rows + [row],
                  txn.notices + [if v.Accept? then EventAccepted(row.id) else EventQuarantined(row.id)],
                  txn.answers + [Answer(e.id, v)], None))
  }

  function IdSet(rows: seq<Row>): set<string> {
    set i | 0 <= i < |rows| :: rows[i].id
  }

  function Committed(s: Store, txn: Txn): Store {
    Store(s.raw + txn.rows, s.dedup + IdSet(txn.rows), s.outbox + txn.notices)
  }

  /** A step that is not enabled changes nothing. */
  function Apply(w: World, cat: Catalog, step: Step): World {
    match step
    case Begin(t) =>
      if t in w.live then w else w.(live := w.live[t := Txn([], [], [], None)])
    case Look(t, e, jwtDevice, now) =>
      if t !in w.live || w.live[t].pending.Some? then w
      else
        var r := Looked(w, w.live[t], cat, e, jwtDevice, now);
        w.(live := if r.Some? then w.live[t := r.value] else w.live - {t})
    case Write(t, violation) =>
      if t !in w.live || w.live[t].pending.None? || Blocked(w, t, Key(w.live[t].pending.value.event)) then w
      else
        var r := AfterWrite(w, w.live[t], cat, violation);
        w.(live := if r.Some? then w.live[t := r.value] else w.live - {t})
    case Commit(t) =>
      if t !in w.live || w.live[t].pending.Some? then w
      else World(Committed(w.store, w.live[t]), w.live - {t}, w.sent + w.live[t].answers)
    case Abort(t) => w.(live := w.live - {t})
  }

  function Run(w: World, cat: Catalog, steps: seq<Step>): World {
    if steps == [] then w else Apply(Run(w, cat, steps[..|steps| - 1]), cat, steps[|steps| - 1])
  }

  /// ---------------------------------------------------------------------
  /// Invariant
  /// ---------------------------------------------------------------------

  /** The ids of the answers that say an event was recorded, as the column keeps them. */
  function Recorded(answers: seq<Answer>): seq<string> {
    if answers == [] then []
    else
      var a := answers[|answers| - 1];
      Recorded(answers[..|answers| - 1]) + if a.verdict.Accept? || a.verdict.Quarantine? then [Kept(a.id, 36)] else []
  }

  /** An event whose device is told anything but "rejected" is in the tables. */
  ghost predicate Reached(answers: seq<Answer>, dedup: set<string>) {
    forall i :: 0 <= i < |answers| && !answers[i].verdict.Reject? ==> Kept(answers[i].id, 36) in dedup
  }

  /** A transaction on its own: its rows are new, true, announced and answered for. */
  ghost predicate Proper(txn: Txn, cat: Catalog, s: Store) {
    && UniqueIds(txn.rows) && AllBillable(cat, txn.rows)
    && Announced(txn.notices) == Ids(txn.rows) == Recorded(txn.answers)
    && (forall i :: 0 <= i < |txn.rows| ==> txn.rows[i].id !in s.dedup)
    && Reached(txn.answers, s.dedup + IdSet(txn.rows))
    && (txn.pending.Some? ==> !Judged(cat, txn.pending.value.event, txn.pending.value.now).Reject?)
  }

  ghost predicate Disjoint(a: Txn, b: Txn) {
    forall i, j :: 0 <= i < |a.rows| && 0 <= j < |b.rows| ==> a.rows[i].id != b.rows[j].id
  }

  ghost predicate Inv(w: World, cat: Catalog) {
    && Sound(cat, w.store) && Recorded(w.sent) == Ids(w.store.raw) && Reached(w.sent, w.store.dedup)
    && (forall t :: t in w.live ==> Proper(w.live[t], cat, w.store))
    && (forall t, u :: t in w.live && u in w.live && t != u ==> Disjoint(w.live[t], w.live[u]))
  }

  lemma {:induction false} RecordedAppend(a: seq<Answer>, b: seq<Answer>)
    ensures Recorded(a + b) == Recorded(a) + Recorded(b)
    decreases |b|
  {
    if b == [] {
      assert a + b == a;
    } else {
      RecordedAppend(a, b[..|b| - 1]);
      assert (a + b)[..|a + b| - 1] == a + b[..|b| - 1];
    }
  }

  lemma {:induction false} AnnouncedAppend(a: seq<Notice>, b: seq<Notice>)
    ensures Announced(a + b) == Announced(a) + Announced(b)
    decreases |b|
  {
    if b == [] {
      assert a + b == a;
    } else {
      AnnouncedAppend(a, b[..|b| - 1]);
      assert (a + b)[..|a + b| - 1] == a + b[..|b| - 1];
    }
  }

  lemma IdsAppend(a: seq<Row>, b: seq<Row>)
    ensures Ids(a + b) == Ids(a) + Ids(b)
  {
    var x, y := Ids(a + b), Ids(a) + Ids(b);
    forall i | 0 <= i < |x| ensures x[i] == y[i] {
      assert (a + b)[i] == if i < |a| then a[i] else b[i - |a|];
    }
  }

  lemma AnsweredRecorded(answers: seq<Answer>, a: Answer)
    ensures Recorded(answers + [a]) == Recorded(answers) + if a.verdict.Accept? || a.verdict.Quarantine? then [Kept(a.id, 36)] else []
  {
    assert (answers + [a])[..|answers|] == answers;
  }

  lemma AnsweredReached(answers: seq<Answer>, a: Answer, dedup: set<string>, dedup': set<string>)
    requires Reached(answers, dedup) && dedup <= dedup' && (a.verdict.Reject? || Kept(a.id, 36) in dedup')
    ensures Reached(answers + [a], dedup')
  {
  }

  lemma HeldIsWritten(rows: seq<Row>, id: string)
    ensures Holds(rows, id) <==> id in IdSet(rows)
  {
  }

  /** An answer that records nothing. */
  lemma AnswerKeepsProper(txn: Txn, cat: Catalog, s: Store, a: Answer)
    requires Proper(txn, cat, s)
    requires a.verdict.Reject? || (a.verdict.Duplicate? && Kept(a.id, 36) in s.dedup + IdSet(txn.rows))
    ensures Proper(txn.(answers := txn.answers + [a]), cat, s)
    ensures Proper(txn.(answers := txn.answers + [a], pending := None), cat, s)
  {
    var next := txn.(answers := txn.answers + [a]);
    AnsweredRecorded(txn.answers, a);
    AnsweredReached(txn.answers, a, s.dedup + IdSet(txn.rows), s.dedup + IdSet(txn.rows));
    assert next.rows == txn.rows && next.notices == txn.notices;
  }

  lemma LookKeepsProper(w: World, txn: Txn, cat: Catalog, e: Event, jwtDevice: string, now: int)
    requires Proper(txn, cat, w.store) && txn.pending.None? && Looked(w, txn, cat, e, jwtDevice, now).Some?
    ensures Proper(Looked(w, txn, cat, e, jwtDevice, now).value, cat, w.store)
  {
    HeldIsWritten(txn.rows, e.id);
    if FirstObjection(e, jwtDevice).Some? {
      AnswerKeepsProper(txn, cat, w.store, Answer(e.id, Reject(FirstObjection(e, jwtDevice).value)));
    } else if Found(w.store.dedup, e.id) || (|e.id| <= 36 && Holds(txn.rows, e.id)) {
      AnswerKeepsProper(txn, cat, w.store, Answer(e.id, Duplicate));
    } else if Judged(cat, e, now).Reject? {
      AnswerKeepsProper(txn, cat, w.store, Answer(e.id, Judged(cat, e, now)));
    }
  }

  lemma IdSetAdded(rows: seq<Row>, row: Row)
    ensures IdSet(rows + [row]) == IdSet(rows) + {row.id}
  {
    var all := rows + [row];
    assert all[|rows|] == row;
    forall id ensures id in IdSet(all) <==> id in IdSet(rows) + {row.id} {
      if id in IdSet(rows) {
        var i :| 0 <= i < |rows| && rows[i].id == id;
        assert all[i].id == id;
      }
    }
  }

  lemma AddedRowIsNew(txn: Txn, cat: Catalog, row: Row)
    requires UniqueIds(txn.rows) && AllBillable(cat, txn.rows) && !Holds(txn.rows, row.id)
    requires row.status == Accepted ==> Billable(cat, row)
    ensures UniqueIds(txn.rows + [row]) && AllBillable(cat, txn.rows + [row])
  {
    assert forall i :: 0 <= i < |txn.rows| ==> txn.rows[i] in txn.rows;
  }

  lemma AddedRow(txn: Txn, cat: Catalog, s: Store, row: Row, n: Notice, id: string, v: Verdict)
    requires Kept(id, 36) == row.id
    requires Proper(txn, cat, s) && !Holds(txn.rows, row.id) && row.id !in s.dedup
    requires !n.BatchIngested? && n.id == row.id && (v.Accept? || v.Quarantine?)
    requires row.status == Accepted ==> Billable(cat, row)
    ensures Proper(Txn(txn.rows + [row], txn.notices + [n], txn.answers + [Answer(id, v)], None), cat, s)
  {
    AddedRowIsNew(txn, cat, row);
    IdsAppend(txn.rows, [row]);
    assert Ids([row]) == [row.id];
    assert (txn.notices + [n])[..|txn.notices|] == txn.notices;
    AnsweredRecorded(txn.answers, Answer(id, v));
    IdSetAdded(txn.rows, row);
    AnsweredReached(txn.answers, Answer(id, v), s.dedup + IdSet(txn.rows), s.dedup + IdSet(txn.rows + [row]));
  }

  lemma WriteKeepsProper(w: World, txn: Txn, cat: Catalog, violation: Violation)
    requires cat.Valid() && Proper(txn, cat, w.store) && txn.pending.Some? && AfterWrite(w, txn, cat, violation).Some?
    ensures Proper(AfterWrite(w, txn, cat, violation).value, cat, w.store)
  {
    var e, now := txn.pending.value.event, txn.pending.value.now;
    var v, row := Judged(cat, e, now), RowFor(cat, e, now, None);
    HeldIsWritten(txn.rows, row.id);
    if row.id in w.store.dedup || Holds(txn.rows, row.id) {
      AnswerKeepsProper(txn, cat, w.store, Answer(e.id, Duplicate));
    } else {
      if v.Accept? {
        AcceptIsBillable(cat, e, now, None);
      }
      AddedRow(txn, cat, w.store, row, if v.Accept? then EventAccepted(row.id) else EventQuarantined(row.id), e.id, v);
    }
  }

  lemma WriteKeepsDisjoint(w: World, t: nat, u: nat, cat: Catalog, violation: Violation)
    requires t in w.live && u in w.live && t != u && Disjoint(w.live[t], w.live[u])
    requires w.live[t].pending.Some? && !Blocked(w, t, Key(w.live[t].pending.value.event))
    requires AfterWrite(w, w.live[t], cat, violation).Some?
    ensures Disjoint(AfterWrite(w, w.live[t], cat, violation).value, w.live[u])
    ensures Disjoint(w.live[u], AfterWrite(w, w.live[t], cat, violation).value)
  {
    var other := w.live[u].rows;
    assert forall j :: 0 <= j < |other| ==> other[j] in other;
  }

  lemma CommitKeepsIndexed(s: Store, txn: Txn)
    requires Indexed(s)
    ensures Indexed(Committed(s, txn))
  {
    var raw := s.raw + txn.rows;
    forall id ensures id in s.dedup + IdSet(txn.rows) <==> exists i :: 0 <= i < |raw| && raw[i].id == id {
      if id in s.dedup {
        var i :| 0 <= i < |s.raw| && s.raw[i].id == id;
        assert raw[i].id == id;
      }
      if id in IdSet(txn.rows) {
        var i :| 0 <= i < |txn.rows| && txn.rows[i].id == id;
        assert raw[|s.raw| + i].id == id;
      }
      if i :| 0 <= i < |raw| && raw[i].id == id {
        assert if i < |s.raw| then s.raw[i].id == id else txn.rows[i - |s.raw|].id == id;
      }
    }
  }

  lemma CommitKeepsUnique(s: Store, txn: Txn)
    requires Indexed(s) && UniqueIds(s.raw) && UniqueIds(txn.rows)
    requires forall i :: 0 <= i < |txn.rows| ==> txn.rows[i].id !in s.dedup
    ensures UniqueIds(s.raw + txn.rows)
  {
    assert forall i :: 0 <= i < |s.raw| ==> s.raw[i].id in s.dedup;
  }

  lemma CommitKeepsSound(s: Store, txn: Txn, cat: Catalog)
    requires Sound(cat, s) && Proper(txn, cat, s)
    ensures Sound(cat, Committed(s, txn))
  {
    CommitKeepsIndexed(s, txn);
    CommitKeepsUnique(s, txn);
    AnnouncedAppend(s.outbox, txn.notices);
    IdsAppend(s.raw, txn.rows);
  }

  lemma CommitKeepsOthersProper(s: Store, txn: Txn, other: Txn, cat: Catalog)
    requires Proper(other, cat, s) && Disjoint(txn, other)
    ensures Proper(other, cat, Committed(s, txn))
  {
  }

  lemma CommitKeepsInv(w: World, cat: Catalog, t: nat)
    requires Inv(w, cat) && t in w.live && w.live[t].pending.None?
    ensures Inv(Apply(w, cat, Commit(t)), cat)
  {
    var w', txn := Apply(w, cat, Commit(t)), w.live[t];
    CommitKeepsSound(w.store, txn, cat);
    RecordedAppend(w.sent, txn.answers);
    IdsAppend(w.store.raw, txn.rows);
    forall u | u in w'.live ensures Proper(w'.live[u], cat, w'.store) {
      CommitKeepsOthersProper(w.store, txn, w.live[u], cat);
    }
  }

  /** Only one open transaction changes: it must stay proper and apart from the others. */
  lemma OneTxnKeepsInv(w: World, cat: Catalog, t: nat, txn: Txn)
    requires Inv(w, cat) && Proper(txn, cat, w.store)
    requires forall u :: u in w.live && u != t ==> Disjoint(txn, w.live[u]) && Disjoint(w.live[u], txn)
    ensures Inv(w.(live := w.live[t := txn]), cat)
  {
  }

  lemma EndKeepsInv(w: World, cat: Catalog, t: nat)
    requires Inv(w, cat)
    ensures Inv(w.(live := w.live - {t}), cat)
  {
  }

  lemma LookKeepsInv(w: World, cat: Catalog, t: nat, e: Event, jwtDevice: string, now: int)
    requires Inv(w, cat) && t in w.live && w.live[t].pending.None? && Looked(w, w.live[t], cat, e, jwtDevice, now).Some?
    ensures Inv(w.(live := w.live[t := Looked(w, w.live[t], cat, e, jwtDevice, now).value]), cat)
  {
    var txn := Looked(w, w.live[t], cat, e, jwtDevice, now).value;
    LookKeepsProper(w, w.live[t], cat, e, jwtDevice, now);
    assert txn.rows == w.live[t].rows;
    forall u | u in w.live && u != t ensures Disjoint(txn, w.live[u]) && Disjoint(w.live[u], txn) {
      assert Disjoint(w.live[t], w.live[u]) && Disjoint(w.live[u], w.live[t]);
    }
    OneTxnKeepsInv(w, cat, t, txn);
  }

  lemma WriteKeepsInv(w: World, cat: Catalog, t: nat, violation: Violation)
    requires cat.Valid() && Inv(w, cat) && t in w.live && w.live[t].pending.Some?
    requires !Blocked(w, t, Key(w.live[t].pending.value.event))
    requires AfterWrite(w, w.live[t], cat, violation).Some?
    ensures Inv(w.(live := w.live[t := AfterWrite(w, w.live[t], cat, violation).value]), cat)
  {
    var txn := AfterWrite(w, w.live[t], cat, violation).value;
    WriteKeepsProper(w, w.live[t], cat, violation);
    forall u | u in w.live && u != t ensures Disjoint(txn, w.live[u]) && Disjoint(w.live[u], txn) {
      WriteKeepsDisjoint(w, t, u, cat, violation);
    }
    OneTxnKeepsInv(w, cat, t, txn);
  }

  lemma StepKeepsInv(w: World, cat: Catalog, step: Step)
    requires cat.Valid() && Inv(w, cat)
    ensures Inv(Apply(w, cat, step), cat)
  {
    match step
    case Begin(t) =>
      if t !in w.live {
        assert Ids([]) == [];
        OneTxnKeepsInv(w, cat, t, Txn([], [], [], None));
      }
    case Look(t, e, jwtDevice, now) =>
      if t in w.live && w.live[t].pending.None? {
        if Looked(w, w.live[t], cat, e, jwtDevice, now).Some? {
          LookKeepsInv(w, cat, t, e, jwtDevice, now);
        } else {
          EndKeepsInv(w, cat, t);
        }
      }
    case Write(t, violation) =>
      if t in w.live && w.live[t].pending.Some? && !Blocked(w, t, Key(w.live[t].pending.value.event)) {
        if AfterWrite(w, w.live[t], cat, violation).Some? {
          WriteKeepsInv(w, cat, t, violation);
        } else {
          EndKeepsInv(w, cat, t);
        }
      }
    case Commit(t) =>
      if t in w.live && w.live[t].pending.None? {
        CommitKeepsInv(w, cat, t);
      }
    case Abort(t) =>
      EndKeepsInv(w, cat, t);
  }

  lemma {:induction false} RunKeepsInv(w: World, cat: Catalog, steps: seq<Step>)
    requires cat.Valid() && Inv(w, cat)
    ensures Inv(Run(w, cat, steps), cat)
  {
    if steps != [] {
      RunKeepsInv(w, cat, steps[..|steps| - 1]);
      StepKeepsInv(Run(w, cat, steps[..|steps| - 1]), cat, steps[|steps| - 1]);
    }
  }

  /** However ingestions race, starting from empty tables: each event id, as its column keeps it, has at most one
      row; the rows are exactly, in order, the events whose devices were told that they are recorded; and an event
      whose device was told "duplicate" is recorded too. */
  lemma ExactlyOnce(cat: Catalog, steps: seq<Step>)
    requires cat.Valid()
    ensures var w := Run(World(Store([], {}, []), map[], []), cat, steps);
            && UniqueIds(w.store.raw) && Indexed(w.store) && AllBillable(cat, w.store.raw)
            && Ids(w.store.raw) == Recorded(w.sent) == Announced(w.store.outbox)
            && forall i :: 0 <= i < |w.sent| && w.sent[i].verdict == Duplicate ==> Kept(w.sent[i].id, 36) in w.store.dedup
  {
    var w := World(Store([], {}, []), map[], []);
    assert Ids([]) == [];
    RunKeepsInv(w, cat, steps);
  }
}
