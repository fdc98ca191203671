/** Batches of events: when one fails, what cutting one in two changes, and what sending one again adds. */
module PopBatches {
  import opened Common
  import opened PopIngestion

  /// ---------------------------------------------------------------------
  /// When a batch fails
  /// ---------------------------------------------------------------------

  /** An event that passes every check and is to be written. */
  predicate Recordable(cat: Catalog, e: Event, jwtDevice: string, now: int) {
    FirstObjection(e, jwtDevice).None? && Clean(e.id) && Assessed(cat, e, now).Ok? && !Assessed(cat, e, now).value.Reject?
  }

  /** The id is recorded, or one of the first n events is recorded under it. */
  predicate Known(s: Store, cat: Catalog, events: seq<Event>, jwtDevice: string, now: int, n: nat, id: string)
    requires n <= |events|
  {
    id in s.dedup || exists i :: 0 <= i < n && Recordable(cat, events[i], jwtDevice, now) && Key(events[i]) == id
  }

  /** An insert fails: its id is known in spite of the lookup and the database reports the key of the rows, or its
      asset does not exist. */
  predicate InsertFails(cat: Catalog, e: Event, known: bool) {
    if known then cat.reports == OnRows else Kept(e.asset, 36) !in cat.assets
  }

  /** The n-th event passes the first checks, but cannot be looked up, or is new and cannot be assessed or inserted. */
  predicate Breaks(s: Store, cat: Catalog, events: seq<Event>, jwtDevice: string, now: int, n: int) {
    && 0 <= n < |events|
    && var e := events[n];
    && FirstObjection(e, jwtDevice).None?
    && (|| !Clean(e.id)
        || (&& !(|e.id| <= 36 && Known(s, cat, events, jwtDevice, now, n, e.id))
            && (|| Assessed(cat, e, now).Err?
                || (Recordable(cat, e, jwtDevice, now) && InsertFails(cat, e, Known(s, cat, events, jwtDevice, now, n, Key(e)))))))
  }

  /** Some event fails the batch. */
  ghost predicate Broken(s: Store, cat: Catalog, events: seq<Event>, jwtDevice: string, now: int) {
    exists n :: Breaks(s, cat, events, jwtDevice, now, n)
  }

  /** The ids recorded after a batch are the known ones. */
  lemma {:induction false} RecordedIds(s: Store, cat: Catalog, events: seq<Event>, jwtDevice: string, now: int, batch: Option<string>, id: string)
    requires IngestedAll(s, cat, events, jwtDevice, now, batch).Ok?
    ensures id in IngestedAll(s, cat, events, jwtDevice, now, batch).value.0.dedup <==> Known(s, cat, events, jwtDevice, now, |events|, id)
  {
    if events != [] {
      var front, e := events[..|events| - 1], events[|events| - 1];
      RecordedIds(s, cat, front, jwtDevice, now, batch, id);
      KnownInFront(s, cat, events, jwtDevice, now, |front|, id);
      OneMoreId(IngestedAll(s, cat, front, jwtDevice, now, batch).value.0, cat, e, jwtDevice, now, batch, id);
    }
  }

  lemma KnownInFront(s: Store, cat: Catalog, events: seq<Event>, jwtDevice: string, now: int, n: nat, id: string)
    requires n < |events|
    ensures Known(s, cat, events, jwtDevice, now, n, id) <==> Known(s, cat, events[..|events| - 1], jwtDevice, now, n, id)
    ensures Known(s, cat, events, jwtDevice, now, n + 1, id) <==>
            Known(s, cat, events, jwtDevice, now, n, id) || (Recordable(cat, events[n], jwtDevice, now) && Key(events[n]) == id)
  {
    var front := events[..|events| - 1];
    assert forall i :: 0 <= i < n ==> front[i] == events[i];
    if Recordable(cat, events[n], jwtDevice, now) && Key(events[n]) == id {
      assert 0 <= n < n + 1;
    }
  }

  lemma OneMoreId(s: Store, cat: Catalog, e: Event, jwtDevice: string, now: int, batch: Option<string>, id: string)
    requires Ingested(s, cat, e, jwtDevice, now, batch).Ok?
    ensures id in Ingested(s, cat, e, jwtDevice, now, batch).value.0.dedup <==>
            id in s.dedup || (Recordable(cat, e, jwtDevice, now) && Key(e) == id)
  {
  }

  /** A batch fails exactly when one of its events does: its id has a NUL character; or it is new and a check of it
      raises; or it is new, to be written, and does not fit its row, names an unknown asset, or has an id that the
      column cuts to a known one while the database reports the key of the rows. Any other batch goes through. */
  lemma {:induction false} BatchFailsExactly(s: Store, cat: Catalog, events: seq<Event>, jwtDevice: string, now: int, batch: Option<string>)
    ensures IngestedAll(s, cat, events, jwtDevice, now, batch).Err? <==> Broken(s, cat, events, jwtDevice, now)
  {
    if events != [] {
      var front, last := events[..|events| - 1], |events| - 1;
      BatchFailsExactly(s, cat, front, jwtDevice, now, batch);
      forall n | 0 <= n < last ensures Breaks(s, cat, events, jwtDevice, now, n) <==> Breaks(s, cat, front, jwtDevice, now, n) {
        BreaksInFront(s, cat, events, jwtDevice, now, n);
      }
      if IngestedAll(s, cat, front, jwtDevice, now, batch).Ok? {
        LastEventFails(s, cat, events, jwtDevice, now, batch);
      } else {
        var n :| Breaks(s, cat, front, jwtDevice, now, n);
        assert Breaks(s, cat, events, jwtDevice, now, n);
      }
    }
  }

  lemma BreaksInFront(s: Store, cat: Catalog, events: seq<Event>, jwtDevice: string, now: int, n: nat)
    requires n < |events| - 1
    ensures Breaks(s, cat, events, jwtDevice, now, n) <==> Breaks(s, cat, events[..|events| - 1], jwtDevice, now, n)
  {
    KnownInFront(s, cat, events, jwtDevice, now, n, events[n].id);
    KnownInFront(s, cat, events, jwtDevice, now, n, Key(events[n]));
  }

  lemma LastEventFails(s: Store, cat: Catalog, events: seq<Event>, jwtDevice: string, now: int, batch: Option<string>)
    requires events != [] && IngestedAll(s, cat, events[..|events| - 1], jwtDevice, now, batch).Ok?
    ensures IngestedAll(s, cat, events, jwtDevice, now, batch).Err? <==> Breaks(s, cat, events, jwtDevice, now, |events| - 1)
  {
    var front, e := events[..|events| - 1], events[|events| - 1];
    RecordedIds(s, cat, front, jwtDevice, now, batch, e.id);
    RecordedIds(s, cat, front, jwtDevice, now, batch, Key(e));
    KnownInFront(s, cat, events, jwtDevice, now, |front|, e.id);
    KnownInFront(s, cat, events, jwtDevice, now, |front|, Key(e));
  }

  /// ---------------------------------------------------------------------
  /// Batch metadata
  /// ---------------------------------------------------------------------

  function WithoutBatch(raw: seq<Row>): seq<Row> {
    seq(|raw|, i requires 0 <= i < |raw| => raw[i].(batch := None))
  }

  function EventNotices(outbox: seq<Notice>): seq<Notice> {
    if outbox == [] then []
    else EventNotices(outbox[..|outbox| - 1]) + if outbox[|outbox| - 1].BatchIngested? then [] else [outbox[|outbox| - 1]]
  }

  /** The same but for batch metadata. */
  ghost predicate Alike(s: Store, t: Store) {
    WithoutBatch(s.raw) == WithoutBatch(t.raw) && s.dedup == t.dedup && EventNotices(s.outbox) == EventNotices(t.outbox)
  }

  lemma RowAdded(raw: seq<Row>, r: Row)
    ensures WithoutBatch(raw + [r]) == WithoutBatch(raw) + [r.(batch := None)]
  {
    var a, b := WithoutBatch(raw + [r]), WithoutBatch(raw) + [r.(batch := None)];
    forall i | 0 <= i < |a| ensures a[i] == b[i] {
      assert (raw + [r])[i] == if i < |raw| then raw[i] else r;
    }
  }

  lemma NoticeAdded(outbox: seq<Notice>, n: Notice)
    ensures EventNotices(outbox + [n]) == EventNotices(outbox) + if n.BatchIngested? then [] else [n]
  {
    assert (outbox + [n])[..|outbox|] == outbox;
  }

  lemma AddedAlike(s: Store, t: Store, r: Row, q: Row, n: Notice)
    requires Alike(s, t) && r.(batch := None) == q.(batch := None)
    ensures Alike(Store(s.raw + [r], s.dedup + {r.id}, s.outbox + [n]), Store(t.raw + [q], t.dedup + {q.id}, t.outbox + [n]))
  {
    RowAdded(s.raw, r);
    RowAdded(t.raw, q);
    NoticeAdded(s.outbox, n);
    NoticeAdded(t.outbox, n);
    assert r.id == r.(batch := None).id == q.(batch := None).id == q.id;
  }

  lemma InsertDoesNotMatter(s: Store, t: Store, cat: Catalog, r: Row, q: Row, v: Verdict)
    requires Alike(s, t) && r.(batch := None) == q.(batch := None) && (v.Accept? || v.Quarantine?)
    ensures Inserted(s, cat, r, v, cat.reports).Ok? == Inserted(t, cat, q, v, cat.reports).Ok?
    ensures Inserted(s, cat, r, v, cat.reports).Ok? ==>
              var ((s', a), (t', b)) := (Inserted(s, cat, r, v, cat.reports).value, Inserted(t, cat, q, v, cat.reports).value);
              a == b && Alike(s', t')
  {
    assert r.id == q.id && r.asset == q.asset by {
      assert r.(batch := None).id == r.id && q.(batch := None).id == q.id;
      assert r.(batch := None).asset == r.asset && q.(batch := None).asset == q.asset;
    }
    AddedAlike(s, t, r, q, if v.Accept? then EventAccepted(r.id) else EventQuarantined(r.id));
  }

  /** Events do not care which batch they came in: stores alike but for batch metadata stay alike. */
  lemma BatchDoesNotMatter(s: Store, t: Store, cat: Catalog, e: Event, jwtDevice: string, now: int, b: Option<string>, c: Option<string>)
    requires Alike(s, t)
    ensures Ingested(s, cat, e, jwtDevice, now, b).Ok? == Ingested(t, cat, e, jwtDevice, now, c).Ok?
    ensures Ingested(s, cat, e, jwtDevice, now, b).Ok? ==>
              var ((s', v), (t', w)) := (Ingested(s, cat, e, jwtDevice, now, b).value, Ingested(t, cat, e, jwtDevice, now, c).value);
              v == w && Alike(s', t')
  {
    if Recordable(cat, e, jwtDevice, now) {
      InsertDoesNotMatter(s, t, cat, RowFor(cat, e, now, b), RowFor(cat, e, now, c), Assessed(cat, e, now).value);
    }
  }

  lemma {:induction false} BatchesDoNotMatter(s: Store, t: Store, cat: Catalog, events: seq<Event>, jwtDevice: string, now: int, b: Option<string>, c: Option<string>)
    requires Alike(s, t)
    ensures IngestedAll(s, cat, events, jwtDevice, now, b).Ok? == IngestedAll(t, cat, events, jwtDevice, now, c).Ok?
    ensures IngestedAll(s, cat, events, jwtDevice, now, b).Ok? ==>
              var ((s', v), (t', w)) := (IngestedAll(s, cat, events, jwtDevice, now, b).value, IngestedAll(t, cat, events, jwtDevice, now, c).value);
              v == w && Alike(s', t')
  {
    if events != [] {
      var rest := events[..|events| - 1];
      BatchesDoNotMatter(s, t, cat, rest, jwtDevice, now, b, c);
      if IngestedAll(s, cat, rest, jwtDevice, now, b).Ok? {
        BatchDoesNotMatter(IngestedAll(s, cat, rest, jwtDevice, now, b).value.0, IngestedAll(t, cat, rest, jwtDevice, now, c).value.0,
                           cat, events[|events| - 1], jwtDevice, now, b, c);
      }
    }
  }

  lemma {:induction false} IngestedAppend(s: Store, cat: Catalog, xs: seq<Event>, ys: seq<Event>, jwtDevice: string, now: int, batch: Option<string>)
    requires IngestedAll(s, cat, xs, jwtDevice, now, batch).Ok?
    ensures var (s', v) := IngestedAll(s, cat, xs, jwtDevice, now, batch).value;
            IngestedAll(s, cat, xs + ys, jwtDevice, now, batch) ==
            match IngestedAll(s', cat, ys, jwtDevice, now, batch)
            case Err(f) => Err(f)
            case Ok((s'', w)) => Ok((s'', v + w))
    decreases |ys|
  {
    var (s', v) := IngestedAll(s, cat, xs, jwtDevice, now, batch).value;
    if ys == [] {
      assert xs + ys == xs && v + [] == v;
    } else {
      var rest := ys[..|ys| - 1];
      IngestedAppend(s, cat, xs, rest, jwtDevice, now, batch);
      assert (xs + ys)[..|xs + ys| - 1] == xs + rest;
      var after := IngestedAll(s', cat, rest, jwtDevice, now, batch);
      if after.Ok? {
        var r := Ingested(after.value.0, cat, ys[|ys| - 1], jwtDevice, now, batch);
        if r.Ok? {
          assert (v + after.value.1) + [r.value.1] == v + (after.value.1 + [r.value.1]);
        }
      }
    }
  }

  lemma SummaryIsMetadata(s: Store, b: Option<string>, c: Counts)
    ensures Alike(s.(outbox := s.outbox + [BatchIngested(b, c)]), s)
  {
    NoticeAdded(s.outbox, BatchIngested(b, c));
  }

  /// ---------------------------------------------------------------------
  /// What a batch leaves
  /// ---------------------------------------------------------------------

  /** The event raises nothing and is rejected. */
  predicate Dismissed(cat: Catalog, e: Event, now: int) {
    Assessed(cat, e, now).Ok? && Assessed(cat, e, now).value.Reject?
  }

  /** There is nothing to record of the event: it is rejected, or recorded already. */
  ghost predicate Settled(s: Store, cat: Catalog, e: Event, jwtDevice: string, now: int) {
    || FirstObjection(e, jwtDevice).Some?
    || (Clean(e.id) && (Found(s.dedup, e.id) || Dismissed(cat, e, now)))
    || (Recordable(cat, e, jwtDevice, now) && Key(e) in s.dedup)
  }

  lemma RejectedStaysRejected(cat: Catalog, e: Event, now: int, later: int)
    requires Dismissed(cat, e, now) && now <= later
    ensures Dismissed(cat, e, later)
  {
  }

  /** What could be written once can be written later, unless it has become stale. */
  lemma RecordableStays(cat: Catalog, e: Event, jwtDevice: string, now: int, later: int)
    requires cat.Valid() && Recordable(cat, e, jwtDevice, now) && now <= later
    ensures Recordable(cat, e, jwtDevice, later) || Dismissed(cat, e, later)
  {
    var m := Resolved(cat, e);
    if Judged(cat, e, later).Accept? {
      assert m.value.id == e.manifest.value;
      assert Fits(RowFor(cat, e, later, None));
    }
  }

  lemma OneSettles(s: Store, cat: Catalog, e: Event, jwtDevice: string, now: int, batch: Option<string>)
    requires Ingested(s, cat, e, jwtDevice, now, batch).Ok?
    ensures s.dedup <= Ingested(s, cat, e, jwtDevice, now, batch).value.0.dedup
    ensures Settled(Ingested(s, cat, e, jwtDevice, now, batch).value.0, cat, e, jwtDevice, now)
  {
  }

  /** No event of the batch is new and recordable. */
  ghost predicate AllSettled(s: Store, cat: Catalog, events: seq<Event>, jwtDevice: string, now: int) {
    forall i :: 0 <= i < |events| ==> Settled(s, cat, events[i], jwtDevice, now)
  }

  lemma {:induction false} BatchSettles(s: Store, cat: Catalog, events: seq<Event>, jwtDevice: string, now: int, batch: Option<string>)
    requires IngestedAll(s, cat, events, jwtDevice, now, batch).Ok?
    ensures s.dedup <= IngestedAll(s, cat, events, jwtDevice, now, batch).value.0.dedup
    ensures AllSettled(IngestedAll(s, cat, events, jwtDevice, now, batch).value.0, cat, events, jwtDevice, now)
  {
    if events != [] {
      var front, e := events[..|events| - 1], events[|events| - 1];
      BatchSettles(s, cat, front, jwtDevice, now, batch);
      var before, after := IngestedAll(s, cat, front, jwtDevice, now, batch).value.0, IngestedAll(s, cat, events, jwtDevice, now, batch).value.0;
      OneSettles(before, cat, e, jwtDevice, now, batch);
      forall i | 0 <= i < |events| ensures Settled(after, cat, events[i], jwtDevice, now) {
        if i < |front| {
          assert Settled(before, cat, front[i], jwtDevice, now);
        }
      }
    }
  }

  lemma SettledAddsNothing(s: Store, cat: Catalog, e: Event, jwtDevice: string, now: int, batch: Option<string>)
    requires Settled(s, cat, e, jwtDevice, now) && Ingested(s, cat, e, jwtDevice, now, batch).Ok?
    ensures var (s', v) := Ingested(s, cat, e, jwtDevice, now, batch).value; s' == s && (v.Duplicate? || v.Reject?)
  {
  }

  /** A batch with nothing to record adds nothing if it goes through. */
  lemma {:induction false} SettledAddNothing(s: Store, cat: Catalog, events: seq<Event>, jwtDevice: string, now: int, batch: Option<string>)
    requires AllSettled(s, cat, events, jwtDevice, now) && IngestedAll(s, cat, events, jwtDevice, now, batch).Ok?
    ensures var (s', v) := IngestedAll(s, cat, events, jwtDevice, now, batch).value;
            s' == s && |v| == |events| && forall i :: 0 <= i < |v| ==> v[i].Duplicate? || v[i].Reject?
  {
    if events != [] {
      SettledAddNothing(s, cat, events[..|events| - 1], jwtDevice, now, batch);
      SettledAddsNothing(s, cat, events[|events| - 1], jwtDevice, now, batch);
    }
  }

  lemma UnsettledIsAdded(s: Store, t: Store, cat: Catalog, e: Event, jwtDevice: string, now: int)
    requires s.dedup <= t.dedup && !Settled(s, cat, e, jwtDevice, now) && Settled(t, cat, e, jwtDevice, now)
    ensures t.dedup != s.dedup
  {
  }

  /** A batch leaves the tables as they are, apart from batch metadata, exactly when it is rolled back or has
      nothing to record. */
  lemma LeavesTables(s: Store, cat: Catalog, events: seq<Event>, jwtDevice: string, now: int, batch: Option<string>)
    ensures Alike(Step(s, cat, Batch(events, jwtDevice, now, batch)), s) <==>
            Broken(s, cat, events, jwtDevice, now) || AllSettled(s, cat, events, jwtDevice, now)
  {
    BatchFailsExactly(s, cat, events, jwtDevice, now, batch);
    if IngestedAll(s, cat, events, jwtDevice, now, batch).Ok? {
      var (t, v) := IngestedAll(s, cat, events, jwtDevice, now, batch).value;
      SummaryIsMetadata(t, batch, Tally(v));
      BatchSettles(s, cat, events, jwtDevice, now, batch);
      if AllSettled(s, cat, events, jwtDevice, now) {
        SettledAddNothing(s, cat, events, jwtDevice, now, batch);
      } else {
        var i :| 0 <= i < |events| && !Settled(s, cat, events[i], jwtDevice, now);
        UnsettledIsAdded(s, t, cat, events[i], jwtDevice, now);
      }
    }
  }

  lemma StaysSettled(s: Store, cat: Catalog, events: seq<Event>, jwtDevice: string, now: int, later: int)
    requires cat.Valid() && AllSettled(s, cat, events, jwtDevice, now) && now <= later
    ensures AllSettled(s, cat, events, jwtDevice, later)
  {
    forall i | 0 <= i < |events| ensures Settled(s, cat, events[i], jwtDevice, later) {
      assert Settled(s, cat, events[i], jwtDevice, now);
      if Dismissed(cat, events[i], now) {
        RejectedStaysRejected(cat, events[i], now, later);
      }
      if Recordable(cat, events[i], jwtDevice, now) {
        RecordableStays(cat, events[i], jwtDevice, now, later);
      }
    }
  }

  /** A settled event fails exactly when the lookup misses it, the insert does not, and the database then reports
      the key of the rows. */
  predicate Resurfaces(cat: Catalog, e: Event, jwtDevice: string, now: int) {
    |e.id| > 36 && Recordable(cat, e, jwtDevice, now) && cat.reports == OnRows
  }

  lemma {:induction false} SettledFailExactly(s: Store, cat: Catalog, events: seq<Event>, jwtDevice: string, now: int, batch: Option<string>)
    requires AllSettled(s, cat, events, jwtDevice, now)
    ensures IngestedAll(s, cat, events, jwtDevice, now, batch).Err? <==>
            exists i :: 0 <= i < |events| && Resurfaces(cat, events[i], jwtDevice, now)
  {
    if events != [] {
      var front, last := events[..|events| - 1], |events| - 1;
      SettledFailExactly(s, cat, front, jwtDevice, now, batch);
      assert forall i :: 0 <= i < last ==> front[i] == events[i];
      if IngestedAll(s, cat, front, jwtDevice, now, batch).Ok? {
        SettledAddNothing(s, cat, front, jwtDevice, now, batch);
        assert Settled(s, cat, events[last], jwtDevice, now);
      }
    }
  }

  /** A batch that no event fails, sent again, then or later, adds no row, no dedup key and no event notice: every
      event is a duplicate or rejected, unless the second sending fails, which happens exactly when an event still to
      be written has an id longer than its column and the database reports the key of the rows. */
  lemma ReplayAddsNothing(s: Store, cat: Catalog, events: seq<Event>, jwtDevice: string, now: int, batch: Option<string>, later: int, again: Option<string>)
    requires cat.Valid() && !Broken(s, cat, events, jwtDevice, now) && now <= later
    ensures IngestedAll(s, cat, events, jwtDevice, now, batch).Ok?
    ensures var s1 := IngestedAll(s, cat, events, jwtDevice, now, batch).value.0;
            var second := IngestedAll(s1, cat, events, jwtDevice, later, again);
            && (second.Err? <==> exists i :: 0 <= i < |events| && Resurfaces(cat, events[i], jwtDevice, later))
            && (second.Ok? ==> second.value.0 == s1 && forall v :: v in second.value.1 ==> v.Duplicate? || v.Reject?)
  {
    BatchFailsExactly(s, cat, events, jwtDevice, now, batch);
    var s1 := IngestedAll(s, cat, events, jwtDevice, now, batch).value.0;
    BatchSettles(s, cat, events, jwtDevice, now, batch);
    StaysSettled(s1, cat, events, jwtDevice, now, later);
    SettledFailExactly(s1, cat, events, jwtDevice, later, again);
    if IngestedAll(s1, cat, events, jwtDevice, later, again).Ok? {
      SettledAddNothing(s1, cat, events, jwtDevice, later, again);
    }
  }

  /** The second sending of any batch leaves the tables of the first exactly when the first one went through, or
      the second is rolled back, or there is nothing left to record by then. */
  lemma ReplayExactly(s: Store, cat: Catalog, events: seq<Event>, jwtDevice: string, now: int, batch: Option<string>, later: int, again: Option<string>)
    requires cat.Valid() && now <= later
    ensures var s1 := Step(s, cat, Batch(events, jwtDevice, now, batch));
            Alike(Step(s1, cat, Batch(events, jwtDevice, later, again)), s1) <==>
            || !Broken(s, cat, events, jwtDevice, now)
            || Broken(s, cat, events, jwtDevice, later) || AllSettled(s, cat, events, jwtDevice, later)
  {
    var s1 := Step(s, cat, Batch(events, jwtDevice, now, batch));
    BatchFailsExactly(s, cat, events, jwtDevice, now, batch);
    LeavesTables(s1, cat, events, jwtDevice, later, again);
    if !Broken(s, cat, events, jwtDevice, now) {
      BatchSettles(s, cat, events, jwtDevice, now, batch);
      assert AllSettled(s1, cat, events, jwtDevice, now);
      StaysSettled(s1, cat, events, jwtDevice, now, later);
    }
  }

  /// ---------------------------------------------------------------------
  /// Cutting a batch in two
  /// ---------------------------------------------------------------------

  /** A batch that no event fails, cut in two and ingested one part after the other, gives the same verdicts and,
      apart from batch metadata, the same tables. */
  lemma SplitBatch(s: Store, cat: Catalog, xs: seq<Event>, ys: seq<Event>, jwtDevice: string, now: int, whole: Option<string>, first: Option<string>, second: Option<string>)
    requires !Broken(s, cat, xs + ys, jwtDevice, now)
    ensures IngestedBatch(s, cat, xs + ys, jwtDevice, now, whole).Ok? && IngestedBatch(s, cat, xs, jwtDevice, now, first).Ok?
    ensures var (s1, v1) := IngestedBatch(s, cat, xs, jwtDevice, now, first).value;
            && IngestedBatch(s1, cat, ys, jwtDevice, now, second).Ok?
            && var (s2, v2) := IngestedBatch(s1, cat, ys, jwtDevice, now, second).value;
               var (t, v) := IngestedBatch(s, cat, xs + ys, jwtDevice, now, whole).value;
               v == v1 + v2 && Alike(s2, t)
  {
    BatchFailsExactly(s, cat, xs + ys, jwtDevice, now, whole);
    if IngestedAll(s, cat, xs, jwtDevice, now, whole).Err? {
      assert (xs + ys)[..|xs|] == xs;
      IngestedPrefix(s, cat, xs + ys, jwtDevice, now, whole, |xs|);
    }
    IngestedAppend(s, cat, xs, ys, jwtDevice, now, whole);
    var (m, v) := IngestedAll(s, cat, xs, jwtDevice, now, whole).value;
    BatchesDoNotMatter(s, s, cat, xs, jwtDevice, now, whole, first);
    var (m1, v1) := IngestedAll(s, cat, xs, jwtDevice, now, first).value;
    SummaryIsMetadata(m1, first, Tally(v1));
    var s1 := IngestedBatch(s, cat, xs, jwtDevice, now, first).value.0;
    BatchesDoNotMatter(m, s1, cat, ys, jwtDevice, now, whole, second);
    var (t, w) := IngestedAll(m, cat, ys, jwtDevice, now, whole).value;
    var (s2, w2) := IngestedAll(s1, cat, ys, jwtDevice, now, second).value;
    SummaryIsMetadata(t, whole, Tally(v + w));
    SummaryIsMetadata(s2, second, Tally(w2));
  }

  /** When the whole batch fails but its first part does not, the second part fails after it as well. */
  lemma SecondPartFails(s: Store, cat: Catalog, xs: seq<Event>, ys: seq<Event>, jwtDevice: string, now: int, whole: Option<string>, first: Option<string>, second: Option<string>)
    requires Broken(s, cat, xs + ys, jwtDevice, now) && !Broken(s, cat, xs, jwtDevice, now)
    ensures IngestedBatch(s, cat, xs, jwtDevice, now, first).Ok?
    ensures IngestedBatch(IngestedBatch(s, cat, xs, jwtDevice, now, first).value.0, cat, ys, jwtDevice, now, second).Err?
  {
    BatchFailsExactly(s, cat, xs + ys, jwtDevice, now, whole);
    BatchFailsExactly(s, cat, xs, jwtDevice, now, whole);
    BatchFailsExactly(s, cat, xs, jwtDevice, now, first);
    IngestedAppend(s, cat, xs, ys, jwtDevice, now, whole);
    BatchesDoNotMatter(s, s, cat, xs, jwtDevice, now, whole, first);
    var m := IngestedAll(s, cat, xs, jwtDevice, now, whole).value.0;
    var (m1, v1) := IngestedAll(s, cat, xs, jwtDevice, now, first).value;
    SummaryIsMetadata(m1, first, Tally(v1));
    BatchesDoNotMatter(m, IngestedBatch(s, cat, xs, jwtDevice, now, first).value.0, cat, ys, jwtDevice, now, whole, second);
  }

  /** For every batch: cutting it in two leaves the same tables exactly when no event of the batch fails it, or
      what then survives of the two parts records nothing. Otherwise one part is kept that the whole batch
      rolls back. */
  lemma SplitExactly(s: Store, cat: Catalog, xs: seq<Event>, ys: seq<Event>, jwtDevice: string, now: int, whole: Option<string>, first: Option<string>, second: Option<string>)
    ensures var t := Step(s, cat, Batch(xs + ys, jwtDevice, now, whole));
            var s1 := Step(s, cat, Batch(xs, jwtDevice, now, first));
            var s2 := Step(s1, cat, Batch(ys, jwtDevice, now, second));
            Alike(s2, t) <==>
            || !Broken(s, cat, xs + ys, jwtDevice, now)
            || (if Broken(s, cat, xs, jwtDevice, now)
                then Broken(s, cat, ys, jwtDevice, now) || AllSettled(s, cat, ys, jwtDevice, now)
                else AllSettled(s, cat, xs, jwtDevice, now))
  {
    if !Broken(s, cat, xs + ys, jwtDevice, now) {
      SplitBatch(s, cat, xs, ys, jwtDevice, now, whole, first, second);
    } else {
      BatchFailsExactly(s, cat, xs + ys, jwtDevice, now, whole);
      if Broken(s, cat, xs, jwtDevice, now) {
        BatchFailsExactly(s, cat, xs, jwtDevice, now, first);
        LeavesTables(s, cat, ys, jwtDevice, now, second);
      } else {
        SecondPartFails(s, cat, xs, ys, jwtDevice, now, whole, first, second);
        LeavesTables(s, cat, xs, jwtDevice, now, first);
      }
    }
  }

  /// One event that is accepted, and others that fail.

  const EXAMPLE_CATALOG: Catalog := Catalog({"d"}, map["m" := Manifest("m", "c", "d", {"s"}, {"a"})], {"a"}, OnDedupIndex)

  const GOOD_EVENT: Event := Event("e1", SCHEMA_VERSION, "d", Some("m"), None, "a", "s", Some(0), Some(0), 1000, Success)

  const KEPT: Store :=
    Store([AcceptedRow(GOOD_EVENT, EXAMPLE_CATALOG.manifests["m"], None)], {"e1"},
          [EventAccepted("e1"), BatchIngested(None, Counts(1, 0, 0, 0))])

  lemma GoodEventIsKept()
    ensures Step(Store([], {}, []), EXAMPLE_CATALOG, Batch([GOOD_EVENT], "d", 0, None)) == KEPT
  {
    var empty, cat := Store([], {}, []), EXAMPLE_CATALOG;
    assert Judged(cat, GOOD_EVENT, 0) == Accept;
    assert Fits(RowFor(cat, GOOD_EVENT, 0, None));
    assert [GOOD_EVENT][..0] == [];
    assert IngestedAll(empty, cat, [], "d", 0, None) == Ok((empty, []));
    var row := AcceptedRow(GOOD_EVENT, cat.manifests["m"], None);
    assert RowFor(cat, GOOD_EVENT, 0, None) == row && empty.raw + [row] == [row];
    assert empty.dedup + {"e1"} == {"e1"} && empty.outbox + [EventAccepted("e1")] == [EventAccepted("e1")];
    assert Ingested(empty, cat, GOOD_EVENT, "d", 0, None) == Ok((Store([row], {"e1"}, [EventAccepted("e1")]), Accept));
    assert [Accept][..0] == [];
    assert Tally([Accept]) == Counts(1, 0, 0, 0);
  }

  /** Together with the good event it leaves nothing; one after the other, the good event is kept. */
  ghost predicate LosesGoodEvent(bad: Event) {
    var empty, cat := Store([], {}, []), EXAMPLE_CATALOG;
    && Step(empty, cat, Batch([GOOD_EVENT] + [bad], "d", 0, None)) == empty
    && Step(empty, cat, Batch([GOOD_EVENT], "d", 0, None)) == KEPT
    && Step(KEPT, cat, Batch([bad], "d", 0, None)) == KEPT
  }

  /** Any new event that fails takes the good one with it. */
  lemma SplitCanKeepMore(bad: Event)
    requires Breaks(KEPT, EXAMPLE_CATALOG, [bad], "d", 0, 0)
    ensures EXAMPLE_CATALOG.Valid() && LosesGoodEvent(bad)
  {
    var empty, cat := Store([], {}, []), EXAMPLE_CATALOG;
    GoodEventIsKept();
    BatchFailsExactly(KEPT, cat, [bad], "d", 0, None);
    assert Breaks(empty, cat, [GOOD_EVENT] + [bad], "d", 0, 1);
    BatchFailsExactly(empty, cat, [GOOD_EVENT] + [bad], "d", 0, None);
  }

  /** A manifest and an asset that are both unknown. */
  lemma UnknownAssetFailsBatch()
    ensures LosesGoodEvent(GOOD_EVENT.(id := "e2", manifest := None, asset := "b"))
  {
    var bad := GOOD_EVENT.(id := "e2", manifest := None, asset := "b");
    assert Judged(EXAMPLE_CATALOG, bad, 0) == Quarantine(UnknownManifest) && Fits(RowFor(EXAMPLE_CATALOG, bad, 0, None));
    SplitCanKeepMore(bad);
  }

  /** An id of 40 characters in an event that is otherwise acceptable: requests allow 64, rows hold 36. */
  lemma LongIdFailsBatch()
    ensures LosesGoodEvent(GOOD_EVENT.(id := seq(40, _ => 'e')))
  {
    var bad := GOOD_EVENT.(id := seq(40, _ => 'e'));
    assert |bad.id| == 40 && bad.id[36] == 'e';
    assert !Fits(RowFor(EXAMPLE_CATALOG, bad, 0, None));
    SplitCanKeepMore(bad);
  }

  /** A surface of 40 characters in an event that goes to quarantine. */
  lemma LongSurfaceFailsBatch()
    ensures LosesGoodEvent(GOOD_EVENT.(id := "e2", manifest := None, surface := seq(40, _ => 's')))
  {
    var bad := GOOD_EVENT.(id := "e2", manifest := None, surface := seq(40, _ => 's'));
    assert |bad.surface| == 40 && bad.surface[36] == 's';
    assert !Fits(RowFor(EXAMPLE_CATALOG, bad, 0, None));
    SplitCanKeepMore(bad);
  }

  /** A rendering time without UTC offset. */
  lemma NoOffsetFailsBatch()
    ensures LosesGoodEvent(GOOD_EVENT.(id := "e2", renderedAt := None))
  {
    var bad := GOOD_EVENT.(id := "e2", renderedAt := None);
    assert Assessed(EXAMPLE_CATALOG, bad, 0) == Err(TypeError);
    SplitCanKeepMore(bad);
  }

  /** An id that the column cuts to a recorded one; the database reports the key of the rows. */
  const PADDED_EVENT: Event := GOOD_EVENT.(id := seq(36, _ => 'e') + " ")

  lemma PaddedIdFailsReplay(batch: Option<string>, again: Option<string>)
    ensures var cat := EXAMPLE_CATALOG.(reports := OnRows);
            var first := IngestedAll(Store([], {}, []), cat, [PADDED_EVENT], "d", 0, batch);
            first.Ok? && IngestedAll(first.value.0, cat, [PADDED_EVENT], "d", 0, again).Err?
  {
    var empty, cat := Store([], {}, []), EXAMPLE_CATALOG.(reports := OnRows);
    PaddedIsRecordable();
    assert cat.Valid();
    assert !Broken(empty, cat, [PADDED_EVENT], "d", 0);
    assert Resurfaces(cat, [PADDED_EVENT][0], "d", 0);
    ReplayAddsNothing(empty, cat, [PADDED_EVENT], "d", 0, batch, 0, again);
  }

  lemma PaddedIsRecordable()
    ensures var cat := EXAMPLE_CATALOG.(reports := OnRows);
            Recordable(cat, PADDED_EVENT, "d", 0) && |PADDED_EVENT.id| == 37 && Kept(PADDED_EVENT.asset, 36) in cat.assets
  {
    var cat := EXAMPLE_CATALOG.(reports := OnRows);
    assert Judged(cat, PADDED_EVENT, 0) == Accept;
    assert Key(PADDED_EVENT) == seq(36, _ => 'e');
    assert Fits(RowFor(cat, PADDED_EVENT, 0, None));
  }
}
