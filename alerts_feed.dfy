/** The alert list pipeline of src/pages/AlertsMap.jsx: first-wins
    de-duplication by id, the URL parameters, the filter / sort / slice
    chain behind the list and map, and the per-tag counts. */
module AlertsFeed {
  import opened Wrappers
  import opened GeoJson
  import opened Text

  /** The normalised properties the page reads. `tag` and `sev` are the
      `_tag` and `_sev` fields; `expires` is a timestamp, or absent. */
  datatype AlertProps = AlertProps(
    id: Option<string>,
    event: Option<string>,
    headline: Option<string>,
    area: Option<string>,
    tag: string,
    sev: int,
    expires: Option<int>)

  type Alert = Feature<AlertProps>

  // ---------------------------------------------------------------------
  // De-duplication
  // ---------------------------------------------------------------------

  /** The map key of a feature: its id, or, when the id is missing or
      empty, a fresh anonymous key (`anon-<random>`), here its position. */
  datatype Key = Named(id: string) | Anonymous(position: nat)

  function KeyOf(fs: seq<Alert>, i: nat): Key
    requires i < |fs|
  {
    var id := fs[i].properties.id;
    if id.Some? && id.value != "" then Named(id.value) else Anonymous(i)
  }

  /** No earlier feature has the key of feature `i`. */
  predicate FirstOfKey(fs: seq<Alert>, i: nat)
    requires i < |fs|
  {
    forall j :: 0 <= j < i ==> KeyOf(fs, j) != KeyOf(fs, i)
  }

  /** The first feature of each key among `fs[..n]`, in input order. */
  function FirstOccurrences(fs: seq<Alert>, n: nat): seq<Alert>
    requires n <= |fs|
  {
    if n == 0 then []
    else FirstOccurrences(fs, n - 1) + (if FirstOfKey(fs, n - 1) then [fs[n - 1]] else [])
  }

  /** The features `byId` holds, read back in the insertion order `order`. */
  function Values(byId: map<Key, Alert>, order: seq<Key>): (vs: seq<Alert>)
    requires forall k :: k in order ==> k in byId
    ensures |vs| == |order|
    ensures forall j :: 0 <= j < |order| ==> vs[j] == byId[order[j]]
  {
    seq(|order|, j requires 0 <= j < |order| => byId[order[j]])
  }

  /** Inserting a new key at the end reads back one more feature. */
  lemma ValuesSnoc(byId: map<Key, Alert>, order: seq<Key>, key: Key, v: Alert)
    requires forall k :: k in order ==> k in byId
    requires key !in order
    ensures Values(byId[key := v], order + [key]) == Values(byId, order) + [v]
  {
    var lhs := Values(byId[key := v], order + [key]);
    var rhs := Values(byId, order) + [v];
    forall j | 0 <= j < |lhs|
      ensures lhs[j] == rhs[j]
    {
      if j < |order| {
        assert (order + [key])[j] == order[j] != key;
      }
    }
  }

  /** The state of the `byId` loop after the first `i` features: the map
      and the insertion order hold the same keys, exactly the keys seen,
      each once, and read back the first occurrences so far. */
  ghost predicate DedupState(fs: seq<Alert>, i: nat, byId: map<Key, Alert>, order: seq<Key>)
    requires i <= |fs|
  {
    && (forall k :: k in byId <==> k in order)
    && (forall k :: k in byId <==> exists j :: 0 <= j < i && KeyOf(fs, j) == k)
    && (forall a, b :: 0 <= a < b < |order| ==> order[a] != order[b])
    && Values(byId, order) == FirstOccurrences(fs, i)
  }

  /** One turn of the `byId` loop: a key not yet in the map is inserted
      with its feature; a key already present keeps its first feature. */
  method DedupStep(fs: seq<Alert>, i: nat, byId: map<Key, Alert>, order: seq<Key>)
    returns (byId': map<Key, Alert>, order': seq<Key>)
    requires i < |fs| && DedupState(fs, i, byId, order)
    ensures DedupState(fs, i + 1, byId', order')
  {
    var id := fs[i].properties.id;
    var key := if id.Some? && id.value != "" then Named(id.value) else Anonymous(i);
    assert key == KeyOf(fs, i);
    if key !in byId {
      DedupInsert(fs, i, byId, order);
      byId', order' := byId[key := fs[i]], order + [key];
    } else {
      DedupKeep(fs, i, byId, order);
      byId', order' := byId, order;
    }
  }

  /** A key not seen before: feature `i` is a first occurrence and is
      appended. */
  lemma DedupInsert(fs: seq<Alert>, i: nat, byId: map<Key, Alert>, order: seq<Key>)
    requires i < |fs| && DedupState(fs, i, byId, order) && KeyOf(fs, i) !in byId
    ensures DedupState(fs, i + 1, byId[KeyOf(fs, i) := fs[i]], order + [KeyOf(fs, i)])
  {
    var key := KeyOf(fs, i);
    assert FirstOfKey(fs, i);
    ValuesSnoc(byId, order, key, fs[i]);
    var byId', order' := byId[key := fs[i]], order + [key];
    forall k ensures k in byId' <==> exists j :: 0 <= j < i + 1 && KeyOf(fs, j) == k {
      if k == key {
        assert KeyOf(fs, i) == k;
      }
    }
    forall a, b | 0 <= a < b < |order'| ensures order'[a] != order'[b] {
      assert order'[a] == order[a];
      if b < |order| {
        assert order'[b] == order[b];
      }
    }
  }

  /** A key seen before: feature `i` is dropped and nothing changes. */
  lemma DedupKeep(fs: seq<Alert>, i: nat, byId: map<Key, Alert>, order: seq<Key>)
    requires i < |fs| && DedupState(fs, i, byId, order) && KeyOf(fs, i) in byId
    ensures DedupState(fs, i + 1, byId, order)
  {
    var key := KeyOf(fs, i);
    assert exists j :: 0 <= j < i && KeyOf(fs, j) == key;
    var j0 :| 0 <= j0 < i && KeyOf(fs, j0) == key;
    assert !FirstOfKey(fs, i);
    assert FirstOccurrences(fs, i + 1) == FirstOccurrences(fs, i);
    forall k ensures k in byId <==> exists j :: 0 <= j < i + 1 && KeyOf(fs, j) == k {
      if k in byId {
        var j :| 0 <= j < i && KeyOf(fs, j) == k;
        assert 0 <= j < i + 1;
      } else if k == key {
        assert false;
      } else {
        forall j | 0 <= j < i + 1 ensures KeyOf(fs, j) != k {
          if j == i {
            assert KeyOf(fs, j) == key;
          }
        }
      }
    }
  }

  /** The `byId` loop: a map from key to the first feature with that key,
      read back in insertion order. */
  method Dedup(fs: seq<Alert>) returns (merged: seq<Alert>)
    ensures merged == FirstOccurrences(fs, |fs|)
  {
    var byId: map<Key, Alert> := map[];
    var order: seq<Key> := [];
    for i := 0 to |fs|
      invariant DedupState(fs, i, byId, order)
    {
      byId, order := DedupStep(fs, i, byId, order);
    }
    merged := Values(byId, order);
  }

  /** The result holds exactly the first feature of every key. */
  lemma {:induction false} FirstOccurrencesMembers(fs: seq<Alert>, n: nat)
    requires n <= |fs|
    ensures forall i :: 0 <= i < n && FirstOfKey(fs, i) ==> fs[i] in FirstOccurrences(fs, n)
    ensures forall x :: x in FirstOccurrences(fs, n) ==> exists i :: 0 <= i < n && FirstOfKey(fs, i) && fs[i] == x
  {
    if n > 0 {
      FirstOccurrencesMembers(fs, n - 1);
      var prev := FirstOccurrences(fs, n - 1);
      var last := if FirstOfKey(fs, n - 1) then [fs[n - 1]] else [];
      assert FirstOccurrences(fs, n) == prev + last;
      forall x | x in prev + last
        ensures exists i :: 0 <= i < n && FirstOfKey(fs, i) && fs[i] == x
      {
        if x !in prev {
          assert FirstOfKey(fs, n - 1) && fs[n - 1] == x;
        }
      }
    }
  }

  /** Which input position each result element comes from. */
  function Origins(fs: seq<Alert>, n: nat): (o: seq<nat>)
    requires n <= |fs|
    ensures |o| == |FirstOccurrences(fs, n)|
  {
    if n == 0 then [] else Origins(fs, n - 1) + (if FirstOfKey(fs, n - 1) then [n - 1] else [])
  }

  /** Each result element is the feature at its origin, a first
      occurrence, and the origins increase. */
  lemma {:induction false} OriginsFaithful(fs: seq<Alert>, n: nat)
    requires n <= |fs|
    ensures var o := Origins(fs, n);
      forall k :: 0 <= k < |o| ==> o[k] < n && FirstOfKey(fs, o[k]) && FirstOccurrences(fs, n)[k] == fs[o[k]]
    ensures var o := Origins(fs, n); forall a, b :: 0 <= a < b < |o| ==> o[a] < o[b]
  {
    if n > 0 {
      OriginsFaithful(fs, n - 1);
      var o0 := Origins(fs, n - 1);
      var r0 := FirstOccurrences(fs, n - 1);
      var o, r := Origins(fs, n), FirstOccurrences(fs, n);
      if FirstOfKey(fs, n - 1) {
        assert o == o0 + [n - 1] && r == r0 + [fs[n - 1]];
        forall k | 0 <= k < |o|
          ensures o[k] < n && FirstOfKey(fs, o[k]) && r[k] == fs[o[k]]
        {
          if k < |o0| {
            assert o[k] == o0[k] && r[k] == r0[k];
          }
        }
        forall a, b | 0 <= a < b < |o|
          ensures o[a] < o[b]
        {
          assert o[a] == o0[a];
          if b < |o0| {
            assert o[b] == o0[b];
          }
        }
      } else {
        assert o == o0 && r == r0;
      }
    }
  }

  /** No two kept features share a non-empty id, and they keep their input
      order (their origins increase). */
  lemma DedupIdsUnique(fs: seq<Alert>)
    ensures var r := FirstOccurrences(fs, |fs|);
            forall a, b :: 0 <= a < b < |r| && r[a].properties.id.Some? && r[a].properties.id.value != "" ==>
              r[a].properties.id != r[b].properties.id
  {
    var r := FirstOccurrences(fs, |fs|);
    var o := Origins(fs, |fs|);
    OriginsFaithful(fs, |fs|);
    forall a, b | 0 <= a < b < |r| && r[a].properties.id.Some? && r[a].properties.id.value != ""
      ensures r[a].properties.id != r[b].properties.id
    {
      assert o[a] < o[b] && FirstOfKey(fs, o[b]);
      assert KeyOf(fs, o[a]) != KeyOf(fs, o[b]);
    }
  }

  // ---------------------------------------------------------------------
  // URL parameters
  // ---------------------------------------------------------------------

  /** `KIND_KEYWORDS`. */
  function KindKeywords(kind: string): Option<seq<string>> {
    if kind == "temperature" then
      Some(["temperature", "cold", "heat", "freeze", "freez", "frost", "wind chill", "extreme cold"])
    else if kind == "wind_chill" then Some(["wind chill"])
    else if kind == "freeze_warning" then Some(["freeze", "hard freeze", "frost"])
    else if kind == "extreme_cold" then Some(["extreme cold", "dangerous cold", "life threatening cold"])
    else None
  }

  /** The `kind` parameter is kept only when it names a keyword preset. */
  function KindParam(kind: Option<string>): (k: Option<string>)
    ensures k.Some? ==> kind == k && KindKeywords(k.value).Some?
    ensures kind.Some? && KindKeywords(kind.value).Some? ==> k == kind
  {
    if kind.Some? && kind.value != "" && KindKeywords(kind.value).Some? then kind else None
  }

  /** The URL `bbox` parameter: `split(',')`, then `Number` on each part;
      accepted only as exactly four numbers. */
  predicate AllNumeric(parts: seq<string>) {
    forall i :: 0 <= i < |parts| ==> NumberOf(parts[i]).Some?
  }

  function ParseBBoxParam(bbox: string): (r: Option<(Position, Position)>)
    ensures r.Some? ==> Occurrences(bbox, ',') == 3
  {
    var parts := Split(bbox, ',');
    SplitJoin(bbox, ',');
    if |parts| == 4 && AllNumeric(parts) then
      Some(((NumberOf(parts[0]).value, NumberOf(parts[1]).value),
            (NumberOf(parts[2]).value, NumberOf(parts[3]).value)))
    else None
  }

  /** A bbox is accepted exactly when it has three commas and each of the
      four comma-free pieces reads as a number; the pieces joined back with
      commas are the parameter. */
  lemma ParseBBoxAccepts(bbox: string)
    ensures ParseBBoxParam(bbox).Some? <==> Occurrences(bbox, ',') == 3 && AllNumeric(Split(bbox, ','))
    ensures Join(Split(bbox, ','), ',') == bbox
    ensures forall i :: 0 <= i < |Split(bbox, ',')| ==> ',' !in Split(bbox, ',')[i]
  {
    SplitJoin(bbox, ',');
    SplitPartsFree(bbox, ',');
  }

  // ---------------------------------------------------------------------
  // The filtered list
  // ---------------------------------------------------------------------

  /** `filters[a.properties._tag]`: a missing tag is not enabled. */
  predicate Enabled(filters: map<string, bool>, tag: string) {
    tag in filters && filters[tag]
  }

  /** `kindFilter`: some keyword occurs in "<event> <headline>", lowered. */
  predicate KindMatches(kws: seq<string>, p: AlertProps) {
    var hay := Lower(p.event.GetOr("") + " " + p.headline.GetOr(""));
    exists k :: k in kws && Contains(hay, k)
  }

  /** The search query matches event, headline or area (an empty query
      matches everything). */
  predicate QueryMatches(q: string, p: AlertProps) {
    q == "" ||
    Contains(Lower(p.event.GetOr("")), q) ||
    Contains(Lower(p.headline.GetOr("")), q) ||
    Contains(Lower(p.area.GetOr("")), q)
  }

  /** The three `.filter` stages together. */
  predicate Keep(filters: map<string, bool>, minSev: int, q: string, kind: Option<string>, a: Alert)
    ensures q == "" && (kind.None? || KindKeywords(kind.value).None?) ==>
              (Keep(filters, minSev, q, kind, a) <==> Enabled(filters, a.properties.tag) && a.properties.sev >= minSev)
  {
    Enabled(filters, a.properties.tag) &&
    a.properties.sev >= minSev &&
    (kind.Some? && KindKeywords(kind.value).Some? ==> KindMatches(KindKeywords(kind.value).value, a.properties)) &&
    QueryMatches(q, a.properties)
  }

  /** The chained `.filter` calls: the alerts that pass, in input order
      (FilterAppend, FilterSingle), each as often as in the input
      (FilterMultiplicity). */
  function FilterAlerts(filters: map<string, bool>, minSev: int, q: string, kind: Option<string>, alerts: seq<Alert>): (r: seq<Alert>)
    ensures forall i :: 0 <= i < |r| ==> Keep(filters, minSev, q, kind, r[i])
    ensures multiset(r) <= multiset(alerts)
    ensures forall a :: a in alerts && Keep(filters, minSev, q, kind, a) ==> a in r
  {
    if alerts == [] then []
    else
      var front := alerts[..|alerts| - 1];
      var last := alerts[|alerts| - 1];
      assert alerts == front + [last];
      FilterAlerts(filters, minSev, q, kind, front) + (if Keep(filters, minSev, q, kind, last) then [last] else [])
  }

  /** Filtering a concatenation filters each part in turn: the kept alerts
      stay in input order. */
  lemma {:induction false} FilterAppend(filters: map<string, bool>, minSev: int, q: string, kind: Option<string>,
                                        xs: seq<Alert>, ys: seq<Alert>)
    ensures FilterAlerts(filters, minSev, q, kind, xs + ys) ==
            FilterAlerts(filters, minSev, q, kind, xs) + FilterAlerts(filters, minSev, q, kind, ys)
    decreases |ys|
  {
    if ys == [] {
      assert xs + ys == xs;
    } else {
      var ys', y := ys[..|ys| - 1], ys[|ys| - 1];
      var t := if Keep(filters, minSev, q, kind, y) then [y] else [];
      assert (xs + ys)[..|xs + ys| - 1] == xs + ys';
      assert (xs + ys)[|xs + ys| - 1] == y;
      assert FilterAlerts(filters, minSev, q, kind, xs + ys) == FilterAlerts(filters, minSev, q, kind, xs + ys') + t;
      assert FilterAlerts(filters, minSev, q, kind, ys) == FilterAlerts(filters, minSev, q, kind, ys') + t;
      FilterAppend(filters, minSev, q, kind, xs, ys');
    }
  }

  /** A single alert is kept exactly when it passes. */
  lemma FilterSingle(filters: map<string, bool>, minSev: int, q: string, kind: Option<string>, a: Alert)
    ensures FilterAlerts(filters, minSev, q, kind, [a]) == if Keep(filters, minSev, q, kind, a) then [a] else []
  {
    assert [a][..0] == [];
  }

  /** Each passing alert is kept as often as it occurs; the others never. */
  lemma {:induction false} FilterMultiplicity(filters: map<string, bool>, minSev: int, q: string, kind: Option<string>,
                                              alerts: seq<Alert>, a: Alert)
    ensures multiset(FilterAlerts(filters, minSev, q, kind, alerts))[a] ==
            if Keep(filters, minSev, q, kind, a) then multiset(alerts)[a] else 0
    decreases |alerts|
  {
    if alerts != [] {
      var front := alerts[..|alerts| - 1];
      assert alerts == front + [alerts[|alerts| - 1]];
      FilterMultiplicity(filters, minSev, q, kind, front, a);
    }
  }

  /** `new Date(expires || 0)`. */
  function ExpiresAt(a: Alert): int {
    a.properties.expires.GetOr(0)
  }

  /** The comparator says `a` goes strictly before `b`: higher severity
      first, then the earlier expiry. */
  predicate Before(a: Alert, b: Alert) {
    a.properties.sev > b.properties.sev ||
    (a.properties.sev == b.properties.sev && ExpiresAt(a) < ExpiresAt(b))
  }

  predicate Ordered(s: seq<Alert>) {
    forall i, j :: 0 <= i < j < |s| ==> !Before(s[j], s[i])
  }

  /** Insert `x` after every element that does not come strictly after it. */
  function Insert(x: Alert, s: seq<Alert>): (r: seq<Alert>)
    ensures multiset(r) == multiset(s) + multiset{x}
    ensures |r| == |s| + 1
  {
    if s == [] then [x]
    else if Before(x, s[0]) then [x] + s
    else
      assert s == [s[0]] + s[1..];
      [s[0]] + Insert(x, s[1..])
  }

  lemma {:induction false} InsertOrdered(x: Alert, s: seq<Alert>)
    requires Ordered(s)
    ensures Ordered(Insert(x, s))
    decreases |s|
  {
    if s != [] && !Before(x, s[0]) {
      InsertOrdered(x, s[1..]);
      var r := Insert(x, s);
      var tail := Insert(x, s[1..]);
      assert r == [s[0]] + tail;
      forall k | 0 <= k < |tail|
        ensures !Before(tail[k], s[0])
      {
        assert tail[k] in multiset(s[1..]) + multiset{x};
        if tail[k] in multiset(s[1..]) {
          var m :| 0 <= m < |s[1..]| && s[1..][m] == tail[k];
          assert s[m + 1] == tail[k];
        }
      }
    }
  }

  /** `sort` with the page's comparator (a stable insertion sort). */
  function SortAlerts(s: seq<Alert>): (r: seq<Alert>)
    ensures multiset(r) == multiset(s) && |r| == |s|
  {
    if s == [] then []
    else
      assert s == s[..|s| - 1] + [s[|s| - 1]];
      Insert(s[|s| - 1], SortAlerts(s[..|s| - 1]))
  }

  lemma {:induction false} SortOrdered(s: seq<Alert>)
    ensures Ordered(SortAlerts(s))
    decreases |s|
  {
    if s != [] {
      SortOrdered(s[..|s| - 1]);
      InsertOrdered(s[|s| - 1], SortAlerts(s[..|s| - 1]));
    }
  }

  /** The comparator's sort key: severity, then expiry. */
  function SortKey(a: Alert): (int, int) {
    (a.properties.sev, ExpiresAt(a))
  }

  /** The alerts of `s` whose sort key is `k`, in the order of `s`. */
  function Tied(s: seq<Alert>, k: (int, int)): seq<Alert> {
    if s == [] then [] else Tie(s[0], k) + Tied(s[1..], k)
  }

  lemma {:induction false} TiedAppend(s: seq<Alert>, t: seq<Alert>, k: (int, int))
    ensures Tied(s + t, k) == Tied(s, k) + Tied(t, k)
    decreases |s|
  {
    if s == [] {
      assert s + t == t;
    } else {
      assert (s + t)[0] == s[0];
      assert (s + t)[1..] == s[1..] + t;
      TiedAppend(s[1..], t, k);
    }
  }

  lemma {:induction false} TiedNone(s: seq<Alert>, k: (int, int))
    requires forall j :: 0 <= j < |s| ==> SortKey(s[j]) != k
    ensures Tied(s, k) == []
    decreases |s|
  {
    if s != [] {
      TiedNone(s[1..], k);
    }
  }

  /** Inserting into an ordered list puts `x` after every alert that ties
      with it. */
  lemma {:induction false} InsertTied(x: Alert, s: seq<Alert>, k: (int, int))
    requires Ordered(s)
    ensures Tied(Insert(x, s), k) == Tied(s, k) + Tie(x, k)
    decreases |s|
  {
    if s == [] {
      assert Insert(x, s) == [x] + s;
      TiedCons(x, s, k);
    } else if Before(x, s[0]) {
      assert Insert(x, s) == [x] + s;
      TiedCons(x, s, k);
      if SortKey(x) == k {
        NoneTieAhead(x, s, k);
      }
    } else {
      OrderedTail(s);
      InsertTied(x, s[1..], k);
      assert Insert(x, s) == [s[0]] + Insert(x, s[1..]);
      assert [s[0]] + s[1..] == s;
      TiedPast(s[0], s[1..], Insert(x, s[1..]), x, k);
    }
  }

  /** `[x]` when `x` has key `k`, else nothing. */
  function Tie(x: Alert, k: (int, int)): seq<Alert> {
    if SortKey(x) == k then [x] else []
  }

  /** The step of InsertTied where `x` moves past the head `h` of the list. */
  lemma TiedPast(h: Alert, t: seq<Alert>, rest: seq<Alert>, x: Alert, k: (int, int))
    requires Tied(rest, k) == Tied(t, k) + Tie(x, k)
    ensures Tied([h] + rest, k) == Tied([h] + t, k) + Tie(x, k)
  {
    TiedCons(h, rest, k);
    TiedCons(h, t, k);
    var a, b, c := Tie(h, k), Tied(t, k), Tie(x, k);
    assert a + (b + c) == (a + b) + c;
  }

  lemma OrderedTail(s: seq<Alert>)
    requires Ordered(s) && s != []
    ensures Ordered(s[1..])
  {
    forall i, j | 0 <= i < j < |s[1..]|
      ensures !Before(s[1..][j], s[1..][i])
    {
      assert s[1..][j] == s[j + 1] && s[1..][i] == s[i + 1];
    }
  }

  lemma TiedCons(a: Alert, s: seq<Alert>, k: (int, int))
    ensures Tied([a] + s, k) == Tie(a, k) + Tied(s, k)
  {
    assert ([a] + s)[0] == a;
    assert ([a] + s)[1..] == s;
  }

  /** In an ordered list that `x` goes strictly before, nothing ties with `x`. */
  lemma NoneTieAhead(x: Alert, s: seq<Alert>, k: (int, int))
    requires Ordered(s) && s != [] && Before(x, s[0]) && SortKey(x) == k
    ensures Tied(s, k) == []
  {
    forall j | 0 <= j < |s|
      ensures SortKey(s[j]) != k
    {
      if j > 0 {
        assert !Before(s[j], s[0]);
      }
    }
    TiedNone(s, k);
  }

  /** The sort is stable: alerts with equal severity and expiry keep
      their input order. */
  lemma {:induction false} SortStable(s: seq<Alert>, k: (int, int))
    ensures Tied(SortAlerts(s), k) == Tied(s, k)
    decreases |s|
  {
    if s != [] {
      var init, last := s[..|s| - 1], s[|s| - 1];
      SortStable(init, k);
      SortOrdered(init);
      InsertTied(last, SortAlerts(init), k);
      TiedSnoc(s, k);
    }
  }

  /** Tied of a non-empty list, split at its last element. */
  lemma TiedSnoc(s: seq<Alert>, k: (int, int))
    requires s != []
    ensures Tied(s, k) == Tied(s[..|s| - 1], k) + Tie(s[|s| - 1], k)
  {
    var init, last := s[..|s| - 1], s[|s| - 1];
    assert s == init + [last];
    TiedAppend(init, [last], k);
    assert [last][1..] == [];
  }

  const ListLimit: nat := 120

  /** `filtered`: keep, sort, then take the first 120. */
  function Filtered(alerts: seq<Alert>, filters: map<string, bool>, minSev: int, search: string, kind: Option<string>): (r: seq<Alert>)
    ensures |r| <= ListLimit
  {
    var sorted := SortAlerts(FilterAlerts(filters, minSev, Lower(Trim(search)), kind, alerts));
    if |sorted| <= ListLimit then sorted else sorted[..ListLimit]
  }

  /** At most 120 alerts, each passing every filter, ordered by severity
      then expiry, all drawn from the input; and when no more than 120 pass,
      every passing alert is listed. */
  lemma FilteredProperties(alerts: seq<Alert>, filters: map<string, bool>, minSev: int, search: string, kind: Option<string>)
    ensures var r := Filtered(alerts, filters, minSev, search, kind);
            |r| <= ListLimit &&
            (forall i :: 0 <= i < |r| ==> Keep(filters, minSev, Lower(Trim(search)), kind, r[i])) &&
            Ordered(r) &&
            multiset(r) <= multiset(alerts)
    ensures var kept := FilterAlerts(filters, minSev, Lower(Trim(search)), kind, alerts);
            |kept| <= ListLimit ==> multiset(Filtered(alerts, filters, minSev, search, kind)) == multiset(kept)
  {
    var q := Lower(Trim(search));
    var kept := FilterAlerts(filters, minSev, q, kind, alerts);
    var sorted := SortAlerts(kept);
    SortOrdered(kept);
    var r := Filtered(alerts, filters, minSev, search, kind);
    forall i | 0 <= i < |r|
      ensures Keep(filters, minSev, q, kind, r[i])
    {
      assert r[i] == sorted[i];
      assert sorted[i] in multiset(kept);
    }
    if |sorted| > ListLimit {
      assert sorted == r + sorted[ListLimit..];
      assert multiset(sorted) == multiset(r) + multiset(sorted[ListLimit..]);
    }
  }

  /** When more than 120 alerts pass, the list is the first 120 of them in
      sorted order: exactly 120 are shown, and no passing alert that is
      left out sorts strictly before a shown one. */
  lemma FilteredTakesFirst(alerts: seq<Alert>, filters: map<string, bool>, minSev: int, search: string, kind: Option<string>)
    ensures var kept := FilterAlerts(filters, minSev, Lower(Trim(search)), kind, alerts);
            |Filtered(alerts, filters, minSev, search, kind)| == if |kept| <= ListLimit then |kept| else ListLimit
    ensures var kept := FilterAlerts(filters, minSev, Lower(Trim(search)), kind, alerts);
            var r := Filtered(alerts, filters, minSev, search, kind);
            forall a, i :: a in multiset(kept) - multiset(r) && 0 <= i < |r| ==> !Before(a, r[i])
  {
    var kept := FilterAlerts(filters, minSev, Lower(Trim(search)), kind, alerts);
    var sorted := SortAlerts(kept);
    SortOrdered(kept);
    var n := if |sorted| <= ListLimit then |sorted| else ListLimit;
    assert Filtered(alerts, filters, minSev, search, kind) == sorted[..n];
    PrefixComesFirst(sorted, n);
  }

  /** In an ordered list, nothing after position `n` sorts strictly before
      anything in the first `n`. */
  lemma PrefixComesFirst(s: seq<Alert>, n: nat)
    requires Ordered(s) && n <= |s|
    ensures forall a, i :: a in multiset(s) - multiset(s[..n]) && 0 <= i < n ==> !Before(a, s[i])
  {
    var rest := s[n..];
    assert s == s[..n] + rest;
    assert multiset(s) - multiset(s[..n]) == multiset(rest);
    forall a, i | a in multiset(rest) && 0 <= i < n
      ensures !Before(a, s[i])
    {
      var j :| 0 <= j < |rest| && rest[j] == a;
      assert s[n + j] == a;
    }
  }

  // ---------------------------------------------------------------------
  // Counts per tag
  // ---------------------------------------------------------------------

  const KnownTags: seq<string> := ["marine", "winter", "wind", "flood", "other"]

  function CountTag(alerts: seq<Alert>, t: string): nat {
    if alerts == [] then 0
    else CountTag(alerts[..|alerts| - 1], t) + (if alerts[|alerts| - 1].properties.tag == t then 1 else 0)
  }

  /** `countByTag`: the five known tags start at 0, and every alert adds
      one to its own tag's counter (creating it if it is not known). */
  method CountByTag(alerts: seq<Alert>) returns (c: map<string, nat>)
    ensures forall t :: t in c <==> t in KnownTags || exists a :: a in alerts && a.properties.tag == t
    ensures forall t :: t in c ==> c[t] == CountTag(alerts, t)
  {
    c := map["marine" := 0, "winter" := 0, "wind" := 0, "flood" := 0, "other" := 0];
    for i := 0 to |alerts|
      invariant forall t :: t in c <==> t in KnownTags || exists a :: a in alerts[..i] && a.properties.tag == t
      invariant forall t :: t in c ==> c[t] == CountTag(alerts[..i], t)
    {
      assert alerts[..i + 1][..i] == alerts[..i];
      var tag := alerts[i].properties.tag;
      if tag !in c {
        CountAbsent(alerts[..i], tag);
      }
      assert CountTag(alerts[..i + 1], tag) == CountTag(alerts[..i], tag) + 1;
      c := c[tag := (if tag in c then c[tag] else 0) + 1];
    }
    assert alerts[..|alerts|] == alerts;
  }

  lemma {:induction false} CountAbsent(alerts: seq<Alert>, t: string)
    requires forall a :: a in alerts ==> a.properties.tag != t
    ensures CountTag(alerts, t) == 0
  {
    if alerts != [] {
      CountAbsent(alerts[..|alerts| - 1], t);
    }
  }

  function SumCounts(alerts: seq<Alert>, tags: seq<string>): nat {
    if tags == [] then 0 else CountTag(alerts, tags[0]) + SumCounts(alerts, tags[1..])
  }

  /** Adding one alert raises the sum over distinct tags by one when its
      tag is among them. */
  lemma {:induction false} SumCountsSnoc(alerts: seq<Alert>, a: Alert, tags: seq<string>)
    requires forall i, j :: 0 <= i < j < |tags| ==> tags[i] != tags[j]
    ensures SumCounts(alerts + [a], tags) == SumCounts(alerts, tags) + (if a.properties.tag in tags then 1 else 0)
  {
    if tags != [] {
      assert (alerts + [a])[..|alerts + [a]| - 1] == alerts;
      SumCountsSnoc(alerts, a, tags[1..]);
      if tags[0] == a.properties.tag {
        assert a.properties.tag !in tags[1..];
      }
    }
  }

  /** With every alert's tag among distinct `tags`, the counts sum to the
      number of alerts. */
  lemma {:induction false} CountsSumToLength(alerts: seq<Alert>, tags: seq<string>)
    requires forall i, j :: 0 <= i < j < |tags| ==> tags[i] != tags[j]
    requires forall a :: a in alerts ==> a.properties.tag in tags
    ensures SumCounts(alerts, tags) == |alerts|
    decreases |alerts|
  {
    if alerts == [] {
      ZeroCounts(tags);
    } else {
      var front := alerts[..|alerts| - 1];
      assert alerts == front + [alerts[|alerts| - 1]];
      CountsSumToLength(front, tags);
      SumCountsSnoc(front, alerts[|alerts| - 1], tags);
    }
  }

  lemma {:induction false} ZeroCounts(tags: seq<string>)
    ensures SumCounts([], tags) == 0
  {
    if tags != [] {
      ZeroCounts(tags[1..]);
    }
  }
}
