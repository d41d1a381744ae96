/** How the ledger decides (tools/compare-grafana.py:118-191): fill `expected` from the
    receipts, read `actual` from the response, compare. */
module SeedCheck {
  import opened Basics
  import opened Ordering
  import opened Lists
  import opened MetricRequest
  import opened SeedLedger

  predicate PointLe(a: Point, b: Point) { a.0 < b.0 || (a.0 == b.0 && a.1 <= b.1) }

  // ----- filling `expected`

  ghost function Flat(m: map<Metric, set<Point>>): set<Row> {
    set k, p | k in m && p in m[k] :: Row(k, p.0, p.1)
  }

  ghost predicate NoEmpty(m: map<Metric, set<Point>>) { forall k | k in m :: m[k] != {} }

  function Add(m: map<Metric, set<Point>>, k: Metric, p: Point): map<Metric, set<Point>> {
    m[k := (if k in m then m[k] else {}) + {p}]
  }

  lemma {:induction false} FlatAdd(m: map<Metric, set<Point>>, k: Metric, p: Point)
    ensures Flat(Add(m, k, p)) == Flat(m) + {Row(k, p.0, p.1)}
    ensures NoEmpty(m) ==> NoEmpty(Add(m, k, p))
  {
    var n := Add(m, k, p);
    forall row | row in Flat(n) ensures row in Flat(m) + {Row(k, p.0, p.1)} {
      var q := (row.ms, row.value);
      assert q in n[row.metric];
      assert row == Row(k, p.0, p.1) || q in m[row.metric];
    }
    forall row | row in Flat(m) + {Row(k, p.0, p.1)} ensures row in Flat(n) {
      var q := (row.ms, row.value);
      assert q in n[row.metric];
    }
  }

  method Consecutive(records: seq<Receipt>) returns (ok: bool)
    requires records != []
    ensures ok <==> exists base :: ConsecutiveFrom(records, base)
  {
    var sequences := Sort(Sequences(records), IntLe);
    SortPermutes(Sequences(records), IntLe);
    ok := sequences == Range(sequences[0], |records|);
    SortOf(Sequences(records), Range(sequences[0], |records|), IntLe);
    assert ok ==> ConsecutiveFrom(records, sequences[0]);
    forall base | ConsecutiveFrom(records, base) ensures ok {
      SortOf(Sequences(records), Range(base, |records|), IntLe);
      assert sequences[0] == base;
    }
  }

  method AddRequest(r: Receipt, c: int, before: map<Metric, set<Point>>) returns (expected: map<Metric, set<Point>>)
    requires c > 0 && r.stamp.Millis? && NoEmpty(before)
    ensures NoEmpty(expected)
    ensures Flat(expected) == Flat(before) + RequestRows(r, c, PER_REQUEST)
  {
    hide Flat, Add, NoEmpty, SeriesKey, SeriesValue, SeriesAt;
    expected := before;
    for index := 0 to PER_REQUEST
      invariant NoEmpty(expected)
      invariant Flat(expected) == Flat(before) + RequestRows(r, c, index)
    {
      var series := SeriesAt(r.sequence, c, index);
      FlatAdd(expected, SeriesKey(series), (r.stamp.ms, SeriesValue(series)));
      expected := Add(expected, SeriesKey(series), (r.stamp.ms, SeriesValue(series)));
      assert RequestRows(r, c, index + 1) == RequestRows(r, c, index) + {RowAt(r, c, index)};
    }
  }

  method Expected(records: seq<Receipt>, evaluation: int) returns (ok: bool, expected: map<Metric, set<Point>>)
    ensures ok <==> ValidReceipts(records, evaluation)
    ensures ok ==> Stamped(records) && NoEmpty(expected)
    ensures ok ==> Flat(expected) == SeedRows(records, records[0].cardinality)
  {
    hide Flat, RowAt;
    ok, expected := false, map[];
    if records == [] || records[0].cardinality <= 0 {
      return;
    }
    CountIsEnough(records[0].cardinality, |records|);
    if |records| != RequestCount(records[0].cardinality) {
      return;
    }
    var consecutive := Consecutive(records);
    if !consecutive {
      return;
    }
    var c := records[0].cardinality;
    var stamps: set<int> := {};
    NothingYet(c);
    for k := 0 to |records|
      invariant forall j | 0 <= j < k :: ValidReceipt(records, j, evaluation)
      invariant stamps == set j | 0 <= j < k && records[j].stamp.Millis? :: records[j].stamp.ms
      invariant Stamped(records[..k]) && NoEmpty(expected)
      invariant Flat(expected) == SeedRows(records[..k], c)
    {
      var r := records[k];
      if !Admitted(r, records[0]) || r.stamp.NotAnInteger? || r.stamp.ms in stamps || !InWindow(r, evaluation) {
        assert !ValidReceipt(records, k, evaluation);
        return;
      }
      assert forall j | 0 <= j < k :: records[j].stamp != r.stamp;
      stamps := stamps + {r.stamp.ms};
      expected := AddRequest(r, c, expected);
      assert records[..k + 1][..k] == records[..k];
      SeedRowsSnoc(records[..k + 1], c, k);
      assert records[..k + 1][..k + 1] == records[..k + 1];
    }
    assert records[..|records|] == records;
    ok := true;
  }

  lemma {:induction false} NothingYet(c: int)
    requires c > 0
    ensures Flat(map[]) == SeedRows([], c)
  {
  }

  // ----- counting

  lemma {:induction false} PointRows(k: Metric, points: set<Point>)
    ensures |set p | p in points :: Row(k, p.0, p.1)| == |points|
  {
    if points != {} {
      var q :| q in points;
      PointRows(k, points - {q});
      var init := set p | p in points - {q} :: Row(k, p.0, p.1);
      assert (set p | p in points :: Row(k, p.0, p.1)) == init + {Row(k, q.0, q.1)};
    }
  }

  lemma {:induction false} FlatSplit(m: map<Metric, set<Point>>, k: Metric)
    requires k in m
    ensures |Flat(m)| == |m[k]| + |Flat(m - {k})|
  {
    var here := set p | p in m[k] :: Row(k, p.0, p.1);
    PointRows(k, m[k]);
    forall row | row in Flat(m) ensures row in here + Flat(m - {k}) {
      assert row.metric != k ==> (row.ms, row.value) in (m - {k})[row.metric];
      assert row.metric == k ==> (row.ms, row.value) in m[k];
    }
    assert Flat(m) == here + Flat(m - {k});
    assert here !! Flat(m - {k});
  }

  method CountRows(m: map<Metric, set<Point>>) returns (n: nat)
    ensures n == |Flat(m)|
  {
    hide Flat;
    var rest := m;
    n := 0;
    while rest.Keys != {}
      invariant n + |Flat(rest)| == |Flat(m)|
      decreases |rest.Keys|
    {
      var k :| k in rest.Keys;
      FlatSplit(rest, k);
      n := n + |rest[k]|;
      assert (rest - {k}).Keys == rest.Keys - {k};
      rest := rest - {k};
    }
    FlatOfNothing(rest);
  }

  lemma {:induction false} FlatOfNothing(m: map<Metric, set<Point>>)
    requires m.Keys == {}
    ensures Flat(m) == {}
  {
  }

  // ----- every series has its key

  lemma {:induction false} SeriesHasRow(records: seq<Receipt>, evaluation: int, series: nat)
    requires ValidReceipts(records, evaluation) && Stamped(records) && series < records[0].cardinality
    ensures exists row :: row in SeedRows(records, records[0].cardinality) && row.metric == SeriesKey(series)
  {
    var base := Base(records);
    var c := records[0].cardinality;
    var k, i := EverySeriesIsHit(base, c, series);
    assert Range(base, |records|)[k] == base + k;
    Members(Range(base, |records|), Sequences(records), base + k);
    var j :| 0 <= j < |records| && Sequences(records)[j] == base + k;
    assert RowAt(records[j], c, i) in SeedRows(records, c);
  }

  ghost function AllKeys(c: nat): set<Metric> { set s | 0 <= s < c :: SeriesKey(s) }

  lemma {:induction false} AllKeysSize(c: nat)
    ensures |AllKeys(c)| == c
  {
    hide SeriesKey;
    if c > 0 {
      AllKeysSize(c - 1);
      if SeriesKey(c - 1) in AllKeys(c - 1) {
        var s :| 0 <= s < c - 1 && SeriesKey(s) == SeriesKey(c - 1);
        KeysDiffer(s, c - 1);
        assert false;
      }
      assert AllKeys(c) == AllKeys(c - 1) + {SeriesKey(c - 1)};
    }
  }

  lemma {:induction false} ExpectedKeys(records: seq<Receipt>, evaluation: int, expected: map<Metric, set<Point>>)
    requires ValidReceipts(records, evaluation) && Stamped(records) && NoEmpty(expected)
    requires Flat(expected) == SeedRows(records, records[0].cardinality)
    ensures |expected| == records[0].cardinality
  {
    hide SeriesKey, ValidReceipts;
    Positive(records, evaluation);
    var c := records[0].cardinality;
    forall k | k in expected ensures k in AllKeys(c) {
      var p :| p in expected[k];
      assert Row(k, p.0, p.1) in SeedRows(records, c);
      var j, i :| 0 <= j < |records| && 0 <= i < PER_REQUEST && RowAt(records[j], c, i) == Row(k, p.0, p.1);
      assert k == SeriesKey(SeriesAt(records[j].sequence, c, i));
    }
    forall s: nat | s < c ensures SeriesKey(s) in expected {
      SeriesHasRow(records, evaluation, s);
      var row :| row in SeedRows(records, c) && row.metric == SeriesKey(s);
      assert row in Flat(expected);
    }
    assert expected.Keys == AllKeys(c);
    AllKeysSize(c);
    assert |expected| == |expected.Keys|;
  }

  lemma {:induction false} Positive(records: seq<Receipt>, evaluation: int)
    requires ValidReceipts(records, evaluation)
    ensures records != [] && records[0].cardinality > 0
  {
  }

  // ----- reading the response

  function MsOf(s: Sample): real
    requires s.Sample?
  {
    s.seconds * 1000.0
  }

  predicate WholeMs(s: Sample) { s.Sample? && MsOf(s).Floor as real == MsOf(s) }

  function PointOf(s: Sample): Point
    requires s.Sample?
  {
    (MsOf(s).Floor, s.value)
  }

  ghost predicate Ascending(points: seq<Point>) {
    forall i, j | 0 <= i < j < |points| :: points[i].0 < points[j].0
  }

  /** The points that a list of samples shows, if it shows a series at all: not
      empty, whole milliseconds, in order of time. */
  ghost predicate Shows(values: seq<Sample>, points: seq<Point>) {
    && values != [] && |points| == |values|
    && (forall i | 0 <= i < |values| ::
          && values[i].Sample?
          && points[i].0 as real == values[i].seconds * 1000.0 && points[i].1 == values[i].value)
    && Ascending(points)
  }

  method ReadPoints(values: seq<Sample>) returns (ok: bool, points: seq<Point>)
    ensures ok ==> Shows(values, points)
    ensures !ok ==> forall p :: !Shows(values, p)
  {
    ok, points := false, [];
    if values == [] {
      return;
    }
    for i := 0 to |values|
      invariant |points| == i
      invariant forall k | 0 <= k < i :: WholeMs(values[k]) && points[k] == PointOf(values[k])
    {
      if !WholeMs(values[i]) {
        return;
      }
      points := points + [PointOf(values[i])];
    }
    assert forall p | Shows(values, p) :: p == points;
    for i := 1 to |points|
      invariant forall k, l | 0 <= k < l < i :: points[k].0 < points[l].0
    {
      if !(points[i].0 > points[i - 1].0) {
        return;
      }
    }
    ok := true;
  }

  /** What an accepted list of series shows, one list of points each. */
  ghost predicate ShowsSeries(items: seq<Item>, lists: seq<seq<Point>>) {
    && |lists| == |items|
    && (forall i | 0 <= i < |items| :: items[i].Series? && Shows(items[i].values, lists[i]))
    && (forall i, j | 0 <= i < j < |items| :: items[i].metric != items[j].metric)
  }

  ghost function ListedRows(items: seq<Item>, lists: seq<seq<Point>>): set<Row>
    requires ShowsSeries(items, lists)
  {
    set i, p | 0 <= i < |items| && p in lists[i] :: Row(items[i].metric, p.0, p.1)
  }

  /** The response lists each series once, in good form, and its rows are these. */
  ghost predicate ListsExactly(items: seq<Item>, rows: set<Row>) {
    exists lists :: ShowsSeries(items, lists) && ListedRows(items, lists) == rows
  }

  // ----- comparing

  ghost predicate ByMetric(items: seq<Item>, lists: seq<seq<Point>>, actual: map<Metric, seq<Point>>)
    requires ShowsSeries(items, lists)
  {
    && actual.Keys == (set i | 0 <= i < |items| :: items[i].metric)
    && forall i | 0 <= i < |items| :: items[i].metric in actual && actual[items[i].metric] == lists[i]
  }

  lemma {:induction false} ShowsOneWay(items: seq<Item>, a: seq<seq<Point>>, b: seq<seq<Point>>)
    requires ShowsSeries(items, a) && ShowsSeries(items, b)
    ensures a == b
  {
    forall i | 0 <= i < |items| ensures a[i] == b[i] {
      assert Shows(items[i].values, a[i]) && Shows(items[i].values, b[i]);
    }
  }

  lemma {:induction false} StrangerIsNotListed(items: seq<Item>, i: nat, expected: map<Metric, set<Point>>)
    requires i < |items| && items[i].Series? && items[i].metric !in expected
    ensures !ListsExactly(items, Flat(expected))
  {
    forall lists: seq<seq<Point>> | ShowsSeries(items, lists) ensures ListedRows(items, lists) != Flat(expected) {
      assert Shows(items[i].values, lists[i]);
      var p := lists[i][0];
      assert Row(items[i].metric, p.0, p.1) in ListedRows(items, lists);
      assert Row(items[i].metric, p.0, p.1) !in Flat(expected);
    }
  }

  method ReadMatrix(items: seq<Item>, expected: map<Metric, set<Point>>)
      returns (ok: bool, actual: map<Metric, seq<Point>>, ghost lists: seq<seq<Point>>)
    ensures ok ==> ShowsSeries(items, lists) && ByMetric(items, lists, actual)
    ensures !ok ==> !ListsExactly(items, Flat(expected))
  {
    hide Flat, Shows, ListedRows;
    ok, actual, lists := false, map[], [];
    for i := 0 to |items|
      invariant |lists| == i && ShowsSeries(items[..i], lists) && ByMetric(items[..i], lists, actual)
    {
      if items[i].BadItem? {
        assert forall l :: !ShowsSeries(items, l);
        return;
      }
      var key := items[i].metric;
      if key in actual {
        var j :| 0 <= j < i && items[..i][j].metric == key;
        assert items[j].metric == items[i].metric;
        assert forall l :: !ShowsSeries(items, l);
        return;
      }
      if key !in expected {
        StrangerIsNotListed(items, i, expected);
        return;
      }
      var read, points := ReadPoints(items[i].values);
      if !read {
        assert forall l :: !ShowsSeries(items, l);
        return;
      }
      ghost var before := lists;
      lists := lists + [points];
      NextShows(items, i, before, points, actual);
      actual := actual[key := points];
    }
    assert items[..|items|] == items;
    ok := true;
  }

  lemma {:induction false} NextShows(items: seq<Item>, i: nat, lists: seq<seq<Point>>, points: seq<Point>,
                                     actual: map<Metric, seq<Point>>)
    requires i < |items| && |lists| == i && ShowsSeries(items[..i], lists) && ByMetric(items[..i], lists, actual)
    requires items[i].Series? && items[i].metric !in actual && Shows(items[i].values, points)
    ensures ShowsSeries(items[..i + 1], lists + [points])
    ensures ByMetric(items[..i + 1], lists + [points], actual[items[i].metric := points])
  {
    hide Shows;
    var more, all := items[..i + 1], lists + [points];
    forall j | 0 <= j < i + 1 ensures more[j].Series? && Shows(more[j].values, all[j]) {
      assert j < i ==> more[j] == items[..i][j];
    }
    forall j, k | 0 <= j < k < i + 1 ensures more[j].metric != more[k].metric {
      assert more[j] == items[..i][j];
      assert items[..i][j].metric in actual;
      if k < i {
        assert more[k] == items[..i][k];
      }
    }
    var next := actual[items[i].metric := points];
    forall k | k in next ensures k in (set j | 0 <= j < i + 1 :: more[j].metric) {
      if k != items[i].metric {
        var j :| 0 <= j < i && items[..i][j].metric == k;
        assert more[j].metric == k;
      } else {
        assert more[i].metric == k;
      }
    }
    forall j | 0 <= j < i + 1 ensures more[j].metric in next && next[more[j].metric] == all[j] {
      assert j < i ==> more[j] == items[..i][j];
    }
  }

  ghost predicate Sorting(points: set<Point>, list: seq<Point>) {
    multiset(list) == multiset(points) && Sorted(list, PointLe)
  }

  method SortPoints(points: set<Point>) returns (list: seq<Point>)
    ensures Sorting(points, list)
  {
    var rest := points;
    list := [];
    while rest != {}
      invariant rest <= points && Sorting(points - rest, list)
      decreases |rest|
    {
      var p :| p in rest;
      InsertAdds(p, list, PointLe);
      InsertSorts(p, list, PointLe);
      list := Insert(p, list, PointLe);
      assert points - (rest - {p}) == (points - rest) + {p};
      rest := rest - {p};
    }
    assert points - rest == points;
  }

  ghost predicate SortedFrom(expected: map<Metric, set<Point>>, sorted: map<Metric, seq<Point>>) {
    sorted.Keys == expected.Keys && forall k | k in expected :: Sorting(expected[k], sorted[k])
  }

  method SortAll(expected: map<Metric, set<Point>>) returns (sorted: map<Metric, seq<Point>>)
    ensures SortedFrom(expected, sorted)
  {
    hide Sorting;
    var rest := expected.Keys;
    sorted := map[];
    while rest != {}
      invariant rest <= expected.Keys && sorted.Keys == expected.Keys - rest
      invariant forall k | k in sorted :: k in expected && Sorting(expected[k], sorted[k])
      decreases |rest|
    {
      var k :| k in rest;
      var list := SortPoints(expected[k]);
      sorted := sorted[k := list];
      rest := rest - {k};
    }
  }

  lemma {:induction false} AscendingHasNoRepeats(list: seq<Point>)
    requires Ascending(list)
    ensures multiset(list) == multiset(set p | p in list)
    decreases |list|
  {
    if list != [] {
      var init, last := list[..|list| - 1], list[|list| - 1];
      AscendingHasNoRepeats(init);
      assert list == init + [last];
      assert last !in init;
      assert (set p | p in list) == (set p | p in init) + {last};
    } else {
      assert (set p | p in list) == {};
    }
  }

  /** A list in order of time is the sorted form of the points it holds. */
  lemma {:induction false} AscendingIsSorting(list: seq<Point>, other: seq<Point>, points: set<Point>)
    requires Ascending(list) && Sorting(points, other)
    ensures list == other <==> (set p | p in list) == points
  {
    AscendingHasNoRepeats(list);
    if (set p | p in list) == points {
      SortedIsUnique(list, other, PointLe);
    }
    if list == other {
      forall p ensures p in list <==> p in points {
        assert p in list <==> p in multiset(list);
        assert p in points <==> p in multiset(points);
      }
    }
  }

  ghost function FlatLists(m: map<Metric, seq<Point>>): set<Row> {
    set k, p | k in m && p in m[k] :: Row(k, p.0, p.1)
  }

  lemma {:induction false} ListedIsFlat(items: seq<Item>, lists: seq<seq<Point>>, actual: map<Metric, seq<Point>>)
    requires ShowsSeries(items, lists) && ByMetric(items, lists, actual)
    ensures ListedRows(items, lists) == FlatLists(actual)
  {
    hide Shows;
    forall row | row in FlatLists(actual) ensures row in ListedRows(items, lists) {
      var i :| 0 <= i < |items| && items[i].metric == row.metric;
      assert (row.ms, row.value) in lists[i];
    }
    forall row | row in ListedRows(items, lists) ensures row in FlatLists(actual) {
      var i, p :| 0 <= i < |items| && p in lists[i] && Row(items[i].metric, p.0, p.1) == row;
      assert p in actual[row.metric];
    }
  }

  ghost predicate AllAscending(actual: map<Metric, seq<Point>>) {
    forall k | k in actual :: actual[k] != [] && Ascending(actual[k])
  }

  lemma {:induction false} FlatAgreesAt(actual: map<Metric, seq<Point>>, expected: map<Metric, set<Point>>, k: Metric)
    requires AllAscending(actual) && NoEmpty(expected) && FlatLists(actual) == Flat(expected)
    ensures k in actual <==> k in expected
    ensures k in actual && k in expected ==> (set p | p in actual[k]) == expected[k]
  {
    hide Ascending;
    if k in actual {
      var p := actual[k][0];
      assert Row(k, p.0, p.1) in FlatLists(actual);
      assert Row(k, p.0, p.1) in Flat(expected);
    }
    if k in expected {
      var p :| p in expected[k];
      assert Row(k, p.0, p.1) in Flat(expected);
      assert Row(k, p.0, p.1) in FlatLists(actual);
    }
    if k in actual && k in expected {
      forall p ensures p in actual[k] <==> p in expected[k] {
        assert Row(k, p.0, p.1) in FlatLists(actual) <==> Row(k, p.0, p.1) in Flat(expected);
        assert p in actual[k] ==> Row(k, p.0, p.1) in FlatLists(actual);
        assert p in expected[k] ==> Row(k, p.0, p.1) in Flat(expected);
      }
    }
  }

  lemma {:induction false} SameMaps(actual: map<Metric, seq<Point>>, expected: map<Metric, set<Point>>,
                                    sorted: map<Metric, seq<Point>>)
    requires AllAscending(actual) && NoEmpty(expected) && SortedFrom(expected, sorted)
    ensures actual == sorted <==> FlatLists(actual) == Flat(expected)
  {
    hide Sorting, Ascending;
    if FlatLists(actual) == Flat(expected) {
      forall k ensures k in actual <==> k in sorted {
        FlatAgreesAt(actual, expected, k);
      }
      forall k | k in actual ensures actual[k] == sorted[k] {
        FlatAgreesAt(actual, expected, k);
        AscendingIsSorting(actual[k], sorted[k], expected[k]);
      }
      assert actual == sorted;
    }
    if actual == sorted {
      forall k | k in actual ensures (set p | p in actual[k]) == expected[k] {
        AscendingIsSorting(actual[k], sorted[k], expected[k]);
      }
      SameSets(actual, expected);
    }
  }

  lemma {:induction false} SameSets(actual: map<Metric, seq<Point>>, expected: map<Metric, set<Point>>)
    requires actual.Keys == expected.Keys
    requires forall k | k in actual :: (set p | p in actual[k]) == expected[k]
    ensures FlatLists(actual) == Flat(expected)
  {
    forall k, p | k in actual ensures p in actual[k] <==> p in expected[k] {
      assert p in (set q | q in actual[k]) <==> p in expected[k];
    }
  }

  lemma {:induction false} Compared(items: seq<Item>, lists: seq<seq<Point>>, actual: map<Metric, seq<Point>>,
                 expected: map<Metric, set<Point>>, sorted: map<Metric, seq<Point>>)
    requires ShowsSeries(items, lists) && ByMetric(items, lists, actual)
    requires NoEmpty(expected) && SortedFrom(expected, sorted)
    ensures actual == sorted <==> ListsExactly(items, Flat(expected))
  {
    hide Sorting, Flat, FlatLists, NoEmpty, SortedFrom;
    ListedIsFlat(items, lists, actual);
    forall k | k in actual ensures actual[k] != [] && Ascending(actual[k]) {
      var i :| 0 <= i < |items| && items[i].metric == k;
      assert Shows(items[i].values, lists[i]);
    }
    SameMaps(actual, expected, sorted);
    forall other: seq<seq<Point>> | ShowsSeries(items, other) ensures other == lists {
      ShowsOneWay(items, other, lists);
    }
  }

  // ----- the ledger

  datatype Ledger = Ledger(verified: bool, requestRows: int, uniqueRows: int)

  predicate GoodEnvelope(response: Response) {
    && response.status == "success" && response.resultType == "matrix" && !response.noticed
    && response.result.List?
  }

  /** `verified` is set exactly when the receipts are those of one complete seed
      and the response lists the seed's rows and nothing else. */
  method MetricsSeedLedger(records: seq<Receipt>, response: Response, evaluation: int) returns (ledger: Ledger)
    ensures ledger.verified <==>
              && ValidReceipts(records, evaluation) && Stamped(records)
              && response.status == "success" && response.resultType == "matrix" && !response.noticed
              && response.result.List?
              && ListsExactly(response.result.items, SeedRows(records, records[0].cardinality))
    ensures ValidReceipts(records, evaluation) ==>
              && ledger.requestRows == |records| * 1000
              && ledger.uniqueRows == |records| * Min(1000, records[0].cardinality)
  {
    hide Flat, ListsExactly, SortedFrom, NoEmpty, ValidReceipts, Stamped, SeedRows, ByMetric, ShowsSeries;
    ledger := Ledger(false, 0, 0);
    var ok, expected := Expected(records, evaluation);
    if !ok {
      return;
    }
    Positive(records, evaluation);
    var sorted := SortAll(expected);
    var requestRows := SumRows(records, evaluation);
    var uniqueRows := CountRows(expected);
    SeedSize(records, evaluation);
    ledger := Ledger(false, requestRows, uniqueRows);
    ExpectedKeys(records, evaluation, expected);
    if |expected| != records[0].cardinality || !GoodEnvelope(response) {
      return;
    }
    var read, actual, lists := ReadMatrix(response.result.items, expected);
    if !read {
      return;
    }
    Compared(response.result.items, lists, actual, expected, sorted);
    if actual != sorted {
      return;
    }
    ledger := Ledger(true, requestRows, uniqueRows);
  }

  lemma {:induction false} SeedSize(records: seq<Receipt>, evaluation: int)
    requires ValidReceipts(records, evaluation) && Stamped(records)
    ensures |SeedRows(records, records[0].cardinality)| == |records| * Min(PER_REQUEST, records[0].cardinality)
  {
    forall j, k | 0 <= j < k < |records| ensures records[j].stamp != records[k].stamp {
      assert ValidReceipt(records, k, evaluation);
    }
    UniqueRows(records, records[0].cardinality, |records|);
    assert records[..|records|] == records;
  }

  method SumRows(records: seq<Receipt>, ghost evaluation: int) returns (sum: int)
    requires ValidReceipts(records, evaluation)
    ensures sum == |records| * PER_REQUEST
  {
    sum := 0;
    for k := 0 to |records|
      invariant sum == k * PER_REQUEST
    {
      assert ValidReceipt(records, k, evaluation);
      sum := sum + records[k].rows;
    }
  }
}
