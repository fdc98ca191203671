/** A device's view of its manifest: the ETag, the 304 answer, the cache and the assembly behind them. */
module DeviceView {
  import opened Common

  /// ---------------------------------------------------------------------
  /// The database behind a device
  /// ---------------------------------------------------------------------

  datatype ManifestRow = ManifestRow(digest: string, generated: bool, generatedAt: int, body: string) {
    function ContentHash(): string { "sha256:" + digest }
  }

  /** The active global override, if any. */
  datatype Emergency = Emergency(activatedAt: int, reason: string)

  datatype Database = Database(rows: seq<ManifestRow>, emergency: Option<Emergency>)

  datatype Meta = Meta(contentHash: string, emergencyActive: bool)

  /** A manifest document. A cached one may be anything, so its fields may be missing. */
  datatype Payload = Payload(contentHash: Option<string>, emergencyActive: Option<bool>, reason: string, body: string)

  /** ORDER BY generated_at DESC LIMIT 1 among the generated rows; ties are broken arbitrarily. */
  ghost predicate IsLatest(db: Database, row: ManifestRow) {
    && row in db.rows && row.generated
    && forall r :: r in db.rows && r.generated ==> r.generatedAt <= row.generatedAt
  }

  /** What the metadata query may return. */
  ghost predicate MetaRead(db: Database, meta: Option<Meta>) {
    match meta
    case None => forall r :: r in db.rows ==> !r.generated
    case Some(m) => m.emergencyActive == db.emergency.Some? && exists r :: IsLatest(db, r) && r.ContentHash() == m.contentHash
  }

  /** What the full assembly may return. */
  ghost predicate Assembled(db: Database, payload: Option<Payload>) {
    match payload
    case None => forall r :: r in db.rows ==> !r.generated
    case Some(p) =>
      && p.emergencyActive == Some(db.emergency.Some?)
      && p.reason == (if db.emergency.Some? then db.emergency.value.reason else "")
      && exists r :: IsLatest(db, r) && p.contentHash == Some(r.ContentHash()) && p.body == r.body
  }

  /** The payload shows the current content and the current emergency state. */
  predicate Agrees(p: Payload, m: Meta) {
    p.contentHash == Some(m.contentHash) && p.emergencyActive == Some(m.emergencyActive)
  }

  /** Two reads of one state agree when no two manifests were generated at the same time. */
  lemma ReadsOfOneStateAgree(db: Database, meta: Option<Meta>, payload: Option<Payload>)
    requires MetaRead(db, meta) && Assembled(db, payload)
    requires forall r, q :: r in db.rows && q in db.rows && r.generated && q.generated && r.generatedAt == q.generatedAt ==> r == q
    ensures meta.Some? == payload.Some? && (meta.Some? ==> Agrees(payload.value, meta.value))
  {
    if meta.Some? && payload.Some? {
      var r :| IsLatest(db, r) && r.ContentHash() == meta.value.contentHash;
      var q :| IsLatest(db, q) && payload.value.contentHash == Some(q.ContentHash());
      assert r == q;
    }
  }

  /// ---------------------------------------------------------------------
  /// Entity tags
  /// ---------------------------------------------------------------------

  /** f'{content_hash}:em:{emergency_active}' */
  function Etag(m: Meta): string {
    m.contentHash + ":em:" + if m.emergencyActive then "True" else "False"
  }

  function Quoted(s: string): string {
    "\"" + s + "\""
  }

  function StripLeft(s: string): string {
    if s != "" && s[0] == '"' then StripLeft(s[1..]) else s
  }

  function StripRight(s: string): string {
    if s != "" && s[|s| - 1] == '"' then StripRight(s[..|s| - 1]) else s
  }

  /** s.strip('"') */
  function Strip(s: string): string {
    StripRight(StripLeft(s))
  }

  lemma EtagIsInjective(m: Meta, n: Meta)
    requires Etag(m) == Etag(n)
    ensures m == n
  {
    var e, f := Etag(m), Etag(n);
    assert e[|e| - 2] == if m.emergencyActive then 'u' else 's';
    assert f[|f| - 2] == if n.emergencyActive then 'u' else 's';
    assert e[..|m.contentHash|] == m.contentHash && f[..|n.contentHash|] == n.contentHash;
  }

  /** A text that ends in something else loses just the one quote put after it. */
  lemma StripRightOnce(s: string)
    ensures s != "" && s[|s| - 1] != '"' ==> StripRight(s + "\"") == s
  {
    assert (s + "\"")[..|s|] == s;
  }

  /** Stripping on the left keeps the end of a text that does not end in a quote. */
  lemma {:induction false} StripKeepsEnd(s: string)
    requires s != "" && s[|s| - 1] != '"'
    ensures StripLeft(s + "\"") == StripLeft(s) + "\"" && StripLeft(s) != ""
    ensures StripLeft(s)[|StripLeft(s)| - 1] != '"' && |Strip(s + "\"")| <= |s|
  {
    if s[0] == '"' {
      assert (s + "\"")[1..] == s[1..] + "\"";
      StripKeepsEnd(s[1..]);
    } else {
      StripRightOnce(s);
    }
  }

  /** Stripping the quotes of a tag gives the tag back exactly when the hash does not begin with a quote. */
  lemma StripQuoted(m: Meta)
    ensures Strip(Quoted(Etag(m))) == Etag(m) <==> (m.contentHash == "" || m.contentHash[0] != '"')
  {
    var e := Etag(m);
    assert e[|e| - 1] == 'e';
    assert Quoted(e)[1..] == e + "\"";
    if m.contentHash == "" || m.contentHash[0] != '"' {
      assert e[0] != '"';
      assert StripLeft(e + "\"") == e + "\"";
      assert (e + "\"")[..|e|] == e;
      assert StripRight(e) == e;
    } else {
      assert (e + "\"")[1..] == e[1..] + "\"";
      assert StripLeft(Quoted(e)) == StripLeft(e + "\"") == StripLeft(e[1..] + "\"");
      StripKeepsEnd(e[1..]);
    }
  }

  /// ---------------------------------------------------------------------
  /// The endpoint
  /// ---------------------------------------------------------------------

  datatype Reply =
    | TooManyRequests
    | NotFound
    | NotModified(etag: string)
    | Full(etag: string, payload: Payload)

  /** The cached document may be served: same emergency state, same content. */
  predicate Servable(cached: Option<Payload>, m: Meta) {
    cached.Some? && cached.value.emergencyActive == Some(m.emergencyActive) && cached.value.contentHash == Some(m.contentHash)
  }

  predicate Matches(ifNoneMatch: string, m: Meta) {
    Strip(ifNoneMatch) != "" && Etag(m) == Strip(ifNoneMatch)
  }

  /** The reply to a request that the rate limiter lets through. */
  function ReplyTo(ifNoneMatch: string, meta: Option<Meta>, cached: Option<Payload>, assembled: Option<Payload>): Reply {
    if meta.None? then NotFound
    else if Matches(ifNoneMatch, meta.value) then NotModified(Quoted(Etag(meta.value)))
    else if Servable(cached, meta.value) then Full(Quoted(Etag(meta.value)), cached.value)
    else if assembled.None? then NotFound
    else Full(Quoted(Etag(meta.value)), assembled.value)
  }

  /** The tag of a content hash and an emergency state. */
  function TagOf(m: Meta): string {
    if m.emergencyActive then m.contentHash + ":em:True" else m.contentHash + ":em:False"
  }

  /** The document shows this content and emergency state. */
  predicate Shows(p: Payload, m: Meta) {
    p.contentHash == Some(m.contentHash) && p.emergencyActive == Some(m.emergencyActive)
  }

  /** 404 without manifest, or when it vanished before it could be assembled; 304 exactly for a client that names the
      current tag; otherwise the cached document if it shows what is current, else the assembled one. */
  lemma RepliesExactly(ifNoneMatch: string, meta: Option<Meta>, cached: Option<Payload>, assembled: Option<Payload>)
    ensures var r := ReplyTo(ifNoneMatch, meta, cached, assembled);
            var named := meta.Some? && Strip(ifNoneMatch) == TagOf(meta.value);
            var fromCache := meta.Some? && cached.Some? && Shows(cached.value, meta.value);
            && (r == NotFound <==> meta == None || (!named && !fromCache && assembled == None))
            && (r.NotModified? <==> named)
            && (r.Full? <==> meta.Some? && !named && (fromCache || assembled.Some?))
            && (r.NotModified? || r.Full? ==> r.etag == "\"" + TagOf(meta.value) + "\"")
            && (r.Full? ==> r.payload == if fromCache then cached.value else assembled.value)
  {
  }

  class Gateway {
    /** The manifest cache; entries may vanish or be overwritten between requests. */
    var cache: map<string, Payload>

    constructor ()
      ensures cache == map[]
    {
      cache := map[];
    }

    /** get_latest_manifest; `meta` and `assembled` are what the two reads of the database return, and
        `cacheUp` whether the cache answers. */
    method GetLatestManifest(device: string, ifNoneMatch: string, allowed: bool, meta: Option<Meta>,
                             cacheUp: bool, assembled: Option<Payload>)
      returns (reply: Reply)
      modifies this
      ensures !allowed ==> reply == TooManyRequests && cache == old(cache)
      ensures allowed ==>
                var cached := if cacheUp && device in old(cache) then Some(old(cache)[device]) else None;
                && reply == ReplyTo(ifNoneMatch, meta, cached, assembled)
                && cache == if reply.Full? && !Servable(cached, meta.value) && cacheUp
                            then old(cache)[device := reply.payload] else old(cache)
    {
      if !allowed {
        return TooManyRequests;
      }
      if meta.None? {
        return NotFound;
      }
      var runtimeEtag := Etag(meta.value);
      var candidate := Strip(ifNoneMatch);
      if candidate != "" && runtimeEtag == candidate {
        return NotModified(Quoted(runtimeEtag));
      }
      var cached := None;
      if cacheUp && device in cache {
        cached := Some(cache[device]);
      }
      var emergencyOk := cached.Some? && cached.value.emergencyActive == Some(meta.value.emergencyActive);
      if emergencyOk && cached.value.contentHash == Some(meta.value.contentHash) {
        return Full(Quoted(runtimeEtag), cached.value);
      }
      if assembled.None? {
        return NotFound;
      }
      if cacheUp {
        cache := cache[device := assembled.value];
      }
      return Full(Quoted(runtimeEtag), assembled.value);
    }
  }

  /// ---------------------------------------------------------------------
  /// A client that keeps its last full reply
  /// ---------------------------------------------------------------------

  datatype Held = Held(etag: string, payload: Payload)

  /** One request: whether it is let through, and what the metadata read, the cache and the assembly return. */
  datatype Visit = Visit(allowed: bool, meta: Option<Meta>, cached: Option<Payload>, assembled: Option<Payload>)

  function Reply1(held: Option<Held>, v: Visit): Reply {
    if !v.allowed then TooManyRequests
    else ReplyTo(if held.Some? then held.value.etag else "", v.meta, v.cached, v.assembled)
  }

  /** The client stores a full reply and keeps what it has otherwise. */
  function Client1(held: Option<Held>, v: Visit): Option<Held> {
    var r := Reply1(held, v);
    if r.Full? then Some(Held(r.etag, r.payload)) else held
  }

  function Client(visits: seq<Visit>): Option<Held> {
    if visits == [] then None else Client1(Client(visits[..|visits| - 1]), visits[|visits| - 1])
  }

  /** The tag a client holds is that of the payload it holds. */
  ghost predicate Truthful(held: Option<Held>) {
    held.Some? ==>
      var p := held.value.payload;
      && p.contentHash.Some? && p.emergencyActive.Some?
      && Unquoted(p.contentHash.value)
      && held.value.etag == Quoted(Etag(Meta(p.contentHash.value, p.emergencyActive.value)))
  }

  ghost predicate Unquoted(hash: string) {
    hash == "" || hash[0] != '"'
  }

  /** The assembly behind a request, if it is used, saw what the metadata read saw. */
  predicate ReadsAgree(v: Visit) {
    v.meta.Some? && v.assembled.Some? ==> Agrees(v.assembled.value, v.meta.value)
  }

  ghost predicate HashUnquoted(v: Visit) {
    v.meta.Some? ==> Unquoted(v.meta.value.contentHash)
  }

  predicate Served(r: Reply) {
    r.Full? || r.NotModified?
  }

  /** After a 200 or a 304 a truthful client shows the current content and emergency state if and only if
      the reply did not come from an assembly that saw another state than the metadata read. */
  lemma ServedIsCurrent(held: Option<Held>, v: Visit)
    requires Truthful(held) && HashUnquoted(v) && Served(Reply1(held, v))
    ensures Client1(held, v).Some?
    ensures Agrees(Client1(held, v).value.payload, v.meta.value) <==>
            || Reply1(held, v).NotModified? || Servable(v.cached, v.meta.value)
            || Agrees(v.assembled.value, v.meta.value)
    ensures Agrees(Client1(held, v).value.payload, v.meta.value) ==> Truthful(Client1(held, v))
  {
    var m := v.meta.value;
    assert Strip("") == "";
    if Reply1(held, v).NotModified? {
      var p := held.value.payload;
      var n := Meta(p.contentHash.value, p.emergencyActive.value);
      StripQuoted(n);
      EtagIsInjective(m, n);
    }
  }

  /** A client that shows what is current is told so, and nothing is sent or assembled for it. */
  lemma CurrentClientGets304(held: Option<Held>, v: Visit)
    requires Truthful(held) && HashUnquoted(v) && held.Some? && v.allowed && v.meta.Some? && Agrees(held.value.payload, v.meta.value)
    ensures Reply1(held, v) == NotModified(held.value.etag) && Client1(held, v) == held
  {
    StripQuoted(v.meta.value);
  }

  /** A client over its rate limit is told so and keeps what it has. */
  lemma LimitedClientKeeps(held: Option<Held>, v: Visit)
    ensures Reply1(held, v) == TooManyRequests <==> !v.allowed
    ensures !v.allowed ==> Client1(held, v) == held
  {
  }

  /** The assembly, where it is what the client gets, saw what the metadata read saw. */
  predicate UsedAgrees(held: Option<Held>, v: Visit) {
    var r := Reply1(held, v);
    r.Full? && !Servable(v.cached, v.meta.value) ==> Agrees(v.assembled.value, v.meta.value)
  }

  /** If the request is answered 200 or 304, the client then shows what its metadata read saw. */
  predicate CurrentAfter(held: Option<Held>, v: Visit) {
    Served(Reply1(held, v)) ==> Client1(held, v).Some? && Agrees(Client1(held, v).value.payload, v.meta.value)
  }

  /** The client is current after every 200 and 304 of the run. */
  ghost predicate AlwaysCurrent(visits: seq<Visit>) {
    visits == [] ||
    (AlwaysCurrent(visits[..|visits| - 1]) && CurrentAfter(Client(visits[..|visits| - 1]), visits[|visits| - 1]))
  }

  /** Every assembly that a client got in the run agreed with the metadata read of its request. */
  ghost predicate AllUsedAgree(visits: seq<Visit>) {
    visits == [] ||
    (AllUsedAgree(visits[..|visits| - 1]) && UsedAgrees(Client(visits[..|visits| - 1]), visits[|visits| - 1]))
  }

  /** One request of a truthful client: it is current and truthful afterwards exactly when the assembly it got,
      if it got one, agreed. */
  lemma OneVisitExactly(held: Option<Held>, v: Visit)
    requires Truthful(held) && HashUnquoted(v)
    ensures CurrentAfter(held, v) <==> UsedAgrees(held, v)
    ensures UsedAgrees(held, v) ==> Truthful(Client1(held, v))
  {
    if Served(Reply1(held, v)) {
      ServedIsCurrent(held, v);
    }
  }

  /** For every run, whatever the cache held or lost and however often the emergency was toggled: the client is
      current after each 200 and 304 exactly when every assembly it got agreed with the metadata read of its
      request. */
  lemma {:induction false} CoherentExactly(visits: seq<Visit>)
    requires forall i :: 0 <= i < |visits| ==> HashUnquoted(visits[i])
    ensures AlwaysCurrent(visits) <==> AllUsedAgree(visits)
    ensures AllUsedAgree(visits) ==> Truthful(Client(visits))
  {
    if visits != [] {
      var rest, v := visits[..|visits| - 1], visits[|visits| - 1];
      CoherentExactly(rest);
      if AllUsedAgree(rest) {
        OneVisitExactly(Client(rest), v);
      }
    }
  }

  /** In particular the client is always current in a run in which the two reads of each request agree. */
  lemma {:induction false} ViewIsCoherent(visits: seq<Visit>)
    requires forall i :: 0 <= i < |visits| ==> ReadsAgree(visits[i]) && HashUnquoted(visits[i])
    ensures AlwaysCurrent(visits) && Truthful(Client(visits))
  {
    if visits != [] {
      ViewIsCoherent(visits[..|visits| - 1]);
      CoherentExactly(visits[..|visits| - 1]);
      assert ReadsAgree(visits[|visits| - 1]);
      assert AllUsedAgree(visits);
    }
    CoherentExactly(visits);
  }

  /** No two manifests of the device were generated at the same time. */
  ghost predicate Ordinary(db: Database) {
    forall r, q :: r in db.rows && q in db.rows && r.generated && q.generated && r.generatedAt == q.generatedAt ==> r == q
  }

  /** The same against the database: if each request reads one state of it, then after every 200 or 304 the
      client shows the latest generated manifest and whether an override is active. */
  lemma {:induction false} ViewFollowsDatabase(visits: seq<Visit>, states: seq<Database>)
    requires visits != [] && |states| == |visits|
    requires forall i :: 0 <= i < |visits| ==>
               Ordinary(states[i]) && MetaRead(states[i], visits[i].meta) && Assembled(states[i], visits[i].assembled)
    requires Served(Reply1(Client(visits[..|visits| - 1]), visits[|visits| - 1]))
    ensures Client(visits).Some?
    ensures var p, db := Client(visits).value.payload, states[|states| - 1];
            && p.emergencyActive == Some(db.emergency.Some?)
            && exists r :: IsLatest(db, r) && p.contentHash == Some(r.ContentHash())
  {
    forall i | 0 <= i < |visits| ensures ReadsAgree(visits[i]) && HashUnquoted(visits[i]) {
      ReadsOfOneStateAgree(states[i], visits[i].meta, visits[i].assembled);
    }
    ViewIsCoherent(visits);
  }

  /** Without that agreement a client can get stuck: an assembly that saw a newer emergency state than the
      metadata read is stored under the older tag, and when the old state returns the next request is
      answered 304 although the payload disagrees. */
  lemma DisagreeingReadsStick(m: Meta, p: Payload)
    requires Unquoted(m.contentHash) && !Agrees(p, m)
    ensures var visits := [Visit(true, Some(m), None, Some(p)), Visit(true, Some(m), None, Some(p))];
            && Reply1(Client(visits[..1]), visits[1]).NotModified?
            && Client(visits).Some? && !Agrees(Client(visits).value.payload, m)
  {
    var v := Visit(true, Some(m), None, Some(p));
    assert [v, v][..1] == [v] && [v][..0] == [];
    assert Client([v]) == Some(Held(Quoted(Etag(m)), p));
    StripQuoted(m);
  }

  /** A tag whose hash begins with a quote is taken for another one: the client keeps the wrong content. */
  lemma LeadingQuoteMisleads(hash: string, active: bool, p: Payload)
    requires Unquoted(hash) && p.contentHash == Some("\"" + hash) && p.emergencyActive == Some(active)
    ensures var m, quoted := Meta(hash, active), Meta("\"" + hash, active);
            var visits := [Visit(true, Some(quoted), None, Some(p)), Visit(true, Some(m), None, None)];
            && Agrees(p, quoted)
            && Reply1(Client(visits[..1]), visits[1]).NotModified?
            && Client(visits).Some? && !Agrees(Client(visits).value.payload, m)
  {
    var m, quoted := Meta(hash, active), Meta("\"" + hash, active);
    var v, w := Visit(true, Some(quoted), None, Some(p)), Visit(true, Some(m), None, None);
    assert [v, w][..1] == [v] && [v][..0] == [];
    assert Client([v]) == Some(Held(Quoted(Etag(quoted)), p));
    assert Etag(quoted) == "\"" + Etag(m);
    assert Quoted(Etag(quoted))[1..] == Quoted(Etag(m));
    StripQuoted(m);
  }

  /** Only the content and the emergency state are kept current: toggled off and on again under another
      reason, the emergency shows its old reason after a 304. */
  lemma ReasonMayBeStale(m: Meta, p: Payload, now: Payload)
    requires Unquoted(m.contentHash) && Agrees(p, m) && Agrees(now, m) && p.reason != now.reason
    ensures var visits := [Visit(true, Some(m), None, Some(p)), Visit(true, Some(m), None, Some(now))];
            && (forall i :: 0 <= i < 2 ==> ReadsAgree(visits[i]))
            && Reply1(Client(visits[..1]), visits[1]).NotModified?
            && Client(visits).Some? && Client(visits).value.payload.reason != now.reason
  {
    var v, w := Visit(true, Some(m), None, Some(p)), Visit(true, Some(m), None, Some(now));
    assert [v, w][..1] == [v] && [v][..0] == [];
    assert Client([v]) == Some(Held(Quoted(Etag(m)), p));
    StripQuoted(m);
  }
}
