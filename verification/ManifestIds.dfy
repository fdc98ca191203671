/** Deterministic manifest ids: a digest over sorted, separator-joined campaign content. */
module ManifestIds {
  import Sorting

  /// ---------------------------------------------------------------------
  /// Lexicographic sorting
  /// ---------------------------------------------------------------------

  predicate LexLeq(a: string, b: string)
    decreases |a|
  {
    a == "" || (b != "" && (a[0] < b[0] || (a[0] == b[0] && LexLeq(a[1..], b[1..]))))
  }

  lemma {:induction false} LexTotal(a: string, b: string)
    ensures LexLeq(a, b) || LexLeq(b, a)
    decreases |a|
  {
    if a != "" && b != "" && a[0] == b[0] {
      LexTotal(a[1..], b[1..]);
    }
  }

  lemma {:induction false} LexAntisymmetric(a: string, b: string)
    requires LexLeq(a, b) && LexLeq(b, a)
    ensures a == b
    decreases |a|
  {
    if a != "" && b != "" {
      LexAntisymmetric(a[1..], b[1..]);
      assert a == [a[0]] + a[1..] && b == [b[0]] + b[1..];
    }
  }

  lemma {:induction false} LexTransitive(a: string, b: string, c: string)
    requires LexLeq(a, b) && LexLeq(b, c)
    ensures LexLeq(a, c)
    decreases |a|
  {
    if a != "" && a[0] == b[0] == c[0] {
      LexTransitive(a[1..], b[1..], c[1..]);
    }
  }

  lemma LexOrder()
    ensures Sorting.TotalPreorder(LexLeq)
  {
    forall a, b ensures LexLeq(a, b) || LexLeq(b, a) {
      LexTotal(a, b);
    }
    forall a, b, c | LexLeq(a, b) && LexLeq(b, c) ensures LexLeq(a, c) {
      LexTransitive(a, b, c);
    }
  }

  function Sort(s: seq<string>): seq<string> {
    Sorting.Sort(s, LexLeq)
  }

  ghost predicate Sorted(s: seq<string>) {
    Sorting.Sorted(s, LexLeq)
  }

  lemma TailMultiset<T>(s: seq<T>)
    requires s != []
    ensures multiset(s[1..]) == multiset(s) - multiset{s[0]}
  {
    assert s == [s[0]] + s[1..];
  }

  lemma DropMultiset<T>(s: seq<T>, i: nat)
    requires i < |s|
    ensures multiset(s) == multiset(s[..i] + s[i + 1..]) + multiset{s[i]}
  {
    assert s == s[..i] + [s[i]] + s[i + 1..];
  }

  lemma TailSorted(s: seq<string>)
    requires Sorted(s) && s != []
    ensures Sorted(s[1..])
  {
    var t := s[1..];
    forall i, j | 0 <= i < j < |t| ensures LexLeq(t[i], t[j]) {
      assert t[i] == s[i + 1] && t[j] == s[j + 1];
    }
  }

  lemma LeastIsFirst(a: seq<string>, b: seq<string>)
    requires Sorted(a) && b != [] && multiset(a) == multiset(b)
    ensures a != [] && LexLeq(a[0], b[0])
  {
    assert b[0] in multiset(a);
    var j :| 0 <= j < |a| && a[j] == b[0];
    LexTotal(a[0], a[0]);
    assert j == 0 || LexLeq(a[0], a[j]);
  }

  lemma SameFirst(a: seq<string>, b: seq<string>)
    requires Sorted(a) && Sorted(b) && multiset(a) == multiset(b) && a != []
    ensures b != [] && a[0] == b[0] && multiset(a[1..]) == multiset(b[1..])
  {
    LeastIsFirst(b, a);
    LeastIsFirst(a, b);
    LexAntisymmetric(a[0], b[0]);
    TailMultiset(a);
    TailMultiset(b);
  }

  lemma {:induction false} SortedIsUnique(a: seq<string>, b: seq<string>)
    requires Sorted(a) && Sorted(b) && multiset(a) == multiset(b)
    ensures a == b
    decreases |a|
  {
    if a == [] {
      assert |multiset(b)| == 0;
    } else {
      SameFirst(a, b);
      TailSorted(a);
      TailSorted(b);
      SortedIsUnique(a[1..], b[1..]);
      assert a == [a[0]] + a[1..] && b == [b[0]] + b[1..];
    }
  }

  /** Sorting forgets the order in which rows arrived. */
  lemma SortForgetsOrder(a: seq<string>, b: seq<string>)
    requires multiset(a) == multiset(b)
    ensures Sort(a) == Sort(b)
  {
    LexOrder();
    Sorting.SortSorts(a, LexLeq);
    Sorting.SortKeeps(a, LexLeq);
    Sorting.SortSorts(b, LexLeq);
    Sorting.SortKeeps(b, LexLeq);
    SortedIsUnique(Sort(a), Sort(b));
  }

  function Mapped<A, B>(f: A -> B, s: seq<A>): seq<B> {
    seq(|s|, i requires 0 <= i < |s| => f(s[i]))
  }

  lemma MappedWithout<A, B>(f: A -> B, s: seq<A>, i: nat)
    requires i < |s|
    ensures multiset(Mapped(f, s)) == multiset(Mapped(f, s[..i] + s[i + 1..])) + multiset{f(s[i])}
  {
    var m, rest := Mapped(f, s), s[..i] + s[i + 1..];
    forall k | 0 <= k < |rest| ensures Mapped(f, rest)[k] == (m[..i] + m[i + 1..])[k] {
      assert rest[k] == if k < i then s[k] else s[k + 1];
    }
    assert Mapped(f, rest) == m[..i] + m[i + 1..];
    DropMultiset(m, i);
  }

  lemma MappedFirst<A, B>(f: A -> B, s: seq<A>)
    requires s != []
    ensures multiset(Mapped(f, s)) == multiset(Mapped(f, s[1..])) + multiset{f(s[0])}
  {
    MappedWithout(f, s, 0);
    assert s[..0] + s[0 + 1..] == s[1..];
  }

  /** One row of b is a's first; the others are the same rows as a's others. */
  lemma FindFirst<T>(a: seq<T>, b: seq<T>) returns (i: nat)
    requires multiset(a) == multiset(b) && a != []
    ensures i < |b| && b[i] == a[0] && multiset(a[1..]) == multiset(b[..i] + b[i + 1..])
  {
    assert a[0] in multiset(b);
    i :| 0 <= i < |b| && b[i] == a[0];
    TailMultiset(a);
    DropMultiset(b, i);
  }

  lemma {:induction false} MappedForgetsOrder<A, B>(f: A -> B, a: seq<A>, b: seq<A>)
    requires multiset(a) == multiset(b)
    ensures multiset(Mapped(f, a)) == multiset(Mapped(f, b))
    decreases |a|
  {
    if a == [] {
      assert |multiset(b)| == 0;
    } else {
      var i := FindFirst(a, b);
      var rest := b[..i] + b[i + 1..];
      MappedForgetsOrder(f, a[1..], rest);
      MappedFirst(f, a);
      MappedWithout(f, b, i);
    }
  }

  /// ---------------------------------------------------------------------
  /// Joining with a separator
  /// ---------------------------------------------------------------------

  const SEP: char := '\U{2016}'

  function Join(parts: seq<string>): string {
    if parts == [] then ""
    else if |parts| == 1 then parts[0]
    else parts[0] + [SEP] + Join(parts[1..])
  }

  lemma {:induction false} JoinLast(parts: seq<string>, x: string)
    requires parts != []
    ensures Join(parts + [x]) == Join(parts) + [SEP] + x
  {
    if |parts| == 1 {
      assert parts + [x] == [parts[0], x];
      assert [parts[0], x][1..] == [x];
    } else {
      JoinLast(parts[1..], x);
      assert (parts + [x])[1..] == parts[1..] + [x];
    }
  }

  /** Two texts agree up to their first separators, and from there on. */
  lemma {:induction false} FirstPartIsUnique(x: string, y: string, a: string, b: string)
    requires SEP !in x && SEP !in y && x + [SEP] + a == y + [SEP] + b
    ensures x == y && a == b
    decreases |x|
  {
    var s, t := x + [SEP] + a, y + [SEP] + b;
    if x == "" || y == "" {
      assert s[0] == t[0];
      assert x == y;
      assert s[1..] == a && t[1..] == b;
    } else {
      assert s[0] == x[0] && t[0] == y[0];
      assert s[1..] == x[1..] + [SEP] + a && t[1..] == y[1..] + [SEP] + b;
      FirstPartIsUnique(x[1..], y[1..], a, b);
      assert x == [x[0]] + x[1..] && y == [y[0]] + y[1..];
    }
  }

  /** What follows the last separator is determined by the text. */
  lemma LastPartIsUnique(a: string, b: string, x: string, y: string)
    requires SEP !in x && SEP !in y && a + [SEP] + x == b + [SEP] + y
    ensures x == y
  {
    var s, t := a + [SEP] + x, b + [SEP] + y;
    assert s[|a|] == SEP && t[|b|] == SEP;
    assert s[|a| + 1..] == x && t[|b| + 1..] == y;
    assert forall k :: |a| < k < |s| ==> s[k] in x;
    assert forall k :: |b| < k < |t| ==> t[k] in y;
  }

  /// ---------------------------------------------------------------------
  /// Manifest ids
  /// ---------------------------------------------------------------------

  /** SHA-256, taken to be injective; the "sha256:" prefix is the constructor. */
  datatype Digest = Sha256(input: string)

  datatype Asset = Asset(id: string, checksum: string)

  /** A flight with its window, day parts and sorted week days rendered as text. */
  datatype Flight = Flight(id: string, startAt: string, endAt: string, dayparting: string, days: string) {
    function Data(): string { Join([startAt, endAt, dayparting, days]) }
  }

  /** What a campaign's manifests are computed from; the sequences are rows in the order a query returned them. */
  datatype Content = Content(
    id: string,
    status: string,
    updatedAt: string,
    assets: seq<Asset>,
    flights: seq<Flight>,
    placements: seq<string>)

  predicate ById(f: Flight, g: Flight) {
    LexLeq(f.id, g.id)
  }

  function ContentParts(c: Content): seq<string> {
    var flightData := Mapped((f: Flight) => f.Data(), Sorting.Sort(c.flights, ById));
    [c.id, c.status, c.updatedAt]
    + Sort(Mapped((a: Asset) => a.id, c.assets))
    + Sort(Mapped((a: Asset) => a.checksum, c.assets))
    + Sort(Mapped((f: Flight) => f.id, c.flights))
    + Sort(flightData)
    + Sort(c.placements)
  }

  function VersionHash(c: Content): Digest {
    Sha256(Join(ContentParts(c)))
  }

  function ManifestId(c: Content, surfaces: seq<string>, device: string): Digest {
    Sha256(Join(ContentParts(c) + Sort(surfaces) + [device]))
  }

  /** The same rows, in whatever order. */
  ghost predicate SameRows(c: Content, d: Content) {
    && c.id == d.id && c.status == d.status && c.updatedAt == d.updatedAt
    && multiset(c.assets) == multiset(d.assets)
    && multiset(c.flights) == multiset(d.flights)
    && multiset(c.placements) == multiset(d.placements)
  }

  lemma PartsForgetOrder(c: Content, d: Content)
    requires SameRows(c, d)
    ensures ContentParts(c) == ContentParts(d)
  {
    var id, checksum := (a: Asset) => a.id, (a: Asset) => a.checksum;
    var flightId, data := (f: Flight) => f.id, (f: Flight) => f.Data();
    MappedForgetsOrder(id, c.assets, d.assets);
    SortForgetsOrder(Mapped(id, c.assets), Mapped(id, d.assets));
    MappedForgetsOrder(checksum, c.assets, d.assets);
    SortForgetsOrder(Mapped(checksum, c.assets), Mapped(checksum, d.assets));
    MappedForgetsOrder(flightId, c.flights, d.flights);
    SortForgetsOrder(Mapped(flightId, c.flights), Mapped(flightId, d.flights));
    Sorting.SortKeeps(c.flights, ById);
    Sorting.SortKeeps(d.flights, ById);
    MappedForgetsOrder(data, Sorting.Sort(c.flights, ById), Sorting.Sort(d.flights, ById));
    SortForgetsOrder(Mapped(data, Sorting.Sort(c.flights, ById)), Mapped(data, Sorting.Sort(d.flights, ById)));
    SortForgetsOrder(c.placements, d.placements);
  }

  /** Ids do not depend on the order in which rows are read. */
  lemma IdsForgetOrder(c: Content, d: Content, surfaces: seq<string>, surfaces': seq<string>, device: string)
    requires SameRows(c, d) && multiset(surfaces) == multiset(surfaces')
    ensures ManifestId(c, surfaces, device) == ManifestId(d, surfaces', device)
    ensures VersionHash(c) == VersionHash(d)
  {
    PartsForgetOrder(c, d);
    SortForgetsOrder(surfaces, surfaces');
  }

  ghost predicate Plain(s: string) {
    SEP !in s
  }

  /** An id determines the device, and the campaign in its state, that it was computed for. */
  lemma IdsIdentify(c: Content, d: Content, surfaces: seq<string>, surfaces': seq<string>, device: string, device': string)
    requires Plain(c.id) && Plain(d.id) && Plain(c.status) && Plain(d.status)
    requires Plain(c.updatedAt) && Plain(d.updatedAt) && Plain(device) && Plain(device')
    requires ManifestId(c, surfaces, device) == ManifestId(d, surfaces', device')
    ensures device == device' && c.id == d.id && c.status == d.status && c.updatedAt == d.updatedAt
  {
    var p, q := ContentParts(c) + Sort(surfaces), ContentParts(d) + Sort(surfaces');
    JoinLast(p, device);
    JoinLast(q, device');
    LastPartIsUnique(Join(p), Join(q), device, device');
    p, q := p + [device], q + [device'];
    ThreeParts(p);
    ThreeParts(q);
    FirstPartIsUnique(p[0], q[0], Join(p[1..]), Join(q[1..]));
    FirstPartIsUnique(p[1], q[1], Join(p[2..]), Join(q[2..]));
    FirstPartIsUnique(p[2], q[2], Join(p[3..]), Join(q[3..]));
  }

  lemma ThreeParts(p: seq<string>)
    requires |p| > 3
    ensures Join(p) == p[0] + [SEP] + Join(p[1..])
    ensures Join(p[1..]) == p[1] + [SEP] + Join(p[2..])
    ensures Join(p[2..]) == p[2] + [SEP] + Join(p[3..])
  {
    assert p[1..][1..] == p[2..] && p[2..][1..] == p[3..];
  }
}
