/** What the packed log queries prove (tools/compare-grafana.py:406-447,
    856-877): a bounded number of rows each, every series in one query, as few
    queries as runs of labels allow, and together exactly the seeded rows. */
module LogLedger {
  import opened Ordering
  import opened Lists
  import opened Basics
  import opened LogPacking

  // ----- as few queries as can be

  lemma {:induction false} CostJoins(streams: seq<Stream>, a: seq<string>, b: seq<string>)
    ensures Cost(streams, a + b) == Cost(streams, a) + Cost(streams, b)
    decreases |b|
  {
    if b == [] {
      assert a + b == a;
    } else {
      CostJoins(streams, a, b[..|b| - 1]);
      assert (a + b)[..|a + b| - 1] == a + b[..|b| - 1];
    }
  }

  lemma {:induction false} PartCostsLess(streams: seq<Stream>, run: seq<string>, i: nat, j: nat)
    requires i <= j <= |run|
    ensures Cost(streams, run[i..j]) <= Cost(streams, run)
  {
    CostJoins(streams, run[..i], run[i..j]);
    CostJoins(streams, run[..j], run[j..]);
    assert run[..i] + run[i..j] == run[..j];
    assert run[..j] + run[j..] == run;
  }

  lemma {:induction false} FlattenPrefix<T>(parts: seq<seq<T>>, n: nat)
    requires n <= |parts|
    ensures Flatten(parts[..n]) <= Flatten(parts)
    decreases |parts|
  {
    if n < |parts| {
      FlattenPrefix(parts[..|parts| - 1], n);
      assert parts[..|parts| - 1][..n] == parts[..n];
    } else {
      assert parts[..n] == parts;
    }
  }

  lemma {:induction false} FlattenNext<T>(parts: seq<seq<T>>, n: nat)
    requires n < |parts|
    ensures Flatten(parts[..n + 1]) == Flatten(parts[..n]) + parts[n]
    ensures Flatten(parts[..n + 1]) <= Flatten(parts)
    ensures var p := |Flatten(parts[..n])|; Flatten(parts)[p..p + |parts[n]|] == parts[n]
  {
    assert parts[..n + 1][..n] == parts[..n];
    FlattenPrefix(parts, n + 1);
    var p, whole := |Flatten(parts[..n])|, Flatten(parts);
    assert whole[..p + |parts[n]|] == Flatten(parts[..n]) + parts[n];
    assert whole[p..p + |parts[n]|] == whole[..p + |parts[n]|][p..];
  }

  ghost function Reach(parts: seq<seq<string>>, n: nat): nat
    requires n <= |parts|
  {
    |Flatten(parts[..n])|
  }

  /** After as many queries, the greedy runs have got at least as far. */
  lemma {:induction false} GreedyKeepsAhead(streams: seq<Stream>, limit: int, runs: seq<seq<string>>,
                                            other: seq<seq<string>>, n: nat)
    requires Greedy(streams, limit, runs) && Flatten(other) == Flatten(runs)
    requires forall i | 0 <= i < |other| :: Cost(streams, other[i]) <= limit
    requires n <= |runs| && n <= |other|
    ensures Reach(other, n) <= Reach(runs, n)
    decreases n
  {
    if n > 0 {
      GreedyKeepsAhead(streams, limit, runs, other, n - 1);
      if Reach(other, n) > Reach(runs, n) {
        Overtaken(streams, limit, runs, other, n - 1);
      }
    }
  }

  lemma {:induction false} Inside<T>(whole: seq<T>, p: nat, a: seq<T>, next: T, q: nat, b: seq<T>)
    requires q <= p && p + |a| < q + |b| <= |whole|
    requires whole[p..p + |a|] == a && whole[p + |a|] == next && whole[q..q + |b|] == b
    ensures b[p - q..p - q + |a| + 1] == a + [next]
  {
    forall i | 0 <= i < |a| + 1 ensures b[p - q + i] == (a + [next])[i] {
      assert whole[q..q + |b|][p - q + i] == whole[p + i];
      assert i < |a| ==> whole[p..p + |a|][i] == whole[p + i];
    }
  }

  lemma {:induction false} RunsGoOn(runs: seq<seq<string>>, k: nat)
    requires k < |runs| && Reach(runs, k + 1) < |Flatten(runs)|
    ensures k + 1 < |runs|
  {
    assert runs[..|runs|] == runs;
  }

  /** A run that starts no later than a greedy one and ends after it costs too much. */
  lemma {:induction false} Overtaken(streams: seq<Stream>, limit: int, runs: seq<seq<string>>,
                                     other: seq<seq<string>>, k: nat)
    requires Greedy(streams, limit, runs) && Flatten(other) == Flatten(runs)
    requires k < |runs| && k < |other|
    requires Reach(other, k) <= Reach(runs, k) && Reach(other, k + 1) > Reach(runs, k + 1)
    ensures Cost(streams, other[k]) > limit
  {
    hide Cost, Count, Flatten;
    var whole, p, q := Flatten(runs), Reach(runs, k), Reach(other, k);
    FlattenNext(runs, k);
    FlattenNext(other, k);
    RunsGoOn(runs, k);
    FlattenNext(runs, k + 1);
    assert Full(streams, limit, runs[k], runs[k + 1]);
    var next, end := runs[k + 1][0], p + |runs[k]|;
    assert whole[end..end + |runs[k + 1]|][0] == next;
    Inside(whole, p, runs[k], next, q, other[k]);
    CostSnoc(streams, runs[k], next);
    PartCostsLess(streams, other[k], p - q, end + 1 - q);
  }

  /** No other way of cutting the sorted series into queries that fit uses fewer. */
  lemma {:induction false} GreedyIsFewest(streams: seq<Stream>, limit: int, runs: seq<seq<string>>,
                                          other: seq<seq<string>>)
    requires Greedy(streams, limit, runs) && Flatten(other) == Flatten(runs)
    requires forall i | 0 <= i < |other| :: Cost(streams, other[i]) <= limit
    ensures |runs| <= |other|
  {
    hide Cost, Count;
    if |runs| > |other| {
      var m := |other|;
      GreedyKeepsAhead(streams, limit, runs, other, m);
      assert other[..m] == other;
      FlattenNext(runs, m);
    }
  }

  /** Two queries in a row always hold more than one query could. */
  lemma {:induction false} NeighboursOverflow(streams: seq<Stream>, limit: int, runs: seq<seq<string>>, i: nat)
    requires Greedy(streams, limit, runs) && i + 1 < |runs|
    ensures Cost(streams, runs[i]) + Cost(streams, runs[i + 1]) > limit
  {
    hide Count;
    var next := runs[i + 1];
    assert Full(streams, limit, runs[i], next);
    PartCostsLess(streams, next, 0, 1);
    assert next[0..1] == [] + [next[0]];
    CostSnoc(streams, [], next[0]);
  }

  // ----- every series in one query, and no query over the limit

  ghost function Rows(streams: seq<Stream>): set<Row> {
    set s, e | s in streams && e in s.values :: (s.Labels(), e)
  }

  /** Within a series an entry shows its labels: no entry comes with two label
      sets. It does whenever the series label decides the others. */
  ghost predicate EntriesShowLabels(streams: seq<Stream>) {
    forall s, t, e | s in streams && t in streams && s.series == t.series && e in s.values && e in t.values ::
      s.Labels() == t.Labels()
  }

  lemma {:induction false} GatherMembers(streams: seq<Stream>, run: seq<string>, s: Stream)
    ensures s in Gather(streams, run) <==> s in streams && s.series in run
    decreases |run|
  {
    if run != [] {
      var init, k := run[..|run| - 1], run[|run| - 1];
      GatherMembers(streams, init, s);
      OfMembers(streams, k, s);
      assert run == init + [k];
    }
  }

  lemma {:induction false} FlattenMembers(runs: seq<seq<string>>, k: string)
    ensures k in Flatten(runs) <==> exists i :: 0 <= i < |runs| && k in runs[i]
    decreases |runs|
  {
    if runs != [] {
      var n := |runs| - 1;
      FlattenMembers(runs[..n], k);
      if i :| 0 <= i < n && k in runs[..n][i] {
        assert k in runs[i];
      }
      if i :| 0 <= i < |runs| && k in runs[i] {
        assert i < n ==> runs[..n][i] == runs[i];
      }
    }
  }

  lemma {:induction false} RunsAreDisjoint(runs: seq<seq<string>>, i: nat, j: nat, k: string)
    requires Distinct(Flatten(runs)) && i < j < |runs| && k in runs[i]
    ensures k !in runs[j]
    decreases |runs|
  {
    var n := |runs| - 1;
    var init := Flatten(runs[..n]);
    assert forall a, b | 0 <= a < b < |init| :: Flatten(runs)[a] == init[a] && Flatten(runs)[b] == init[b];
    if j < n {
      RunsAreDisjoint(runs[..n], i, j, k);
    } else {
      FlattenMembers(runs[..n], k);
      assert k in runs[..n][i];
      var a :| 0 <= a < |init| && init[a] == k;
      forall b | 0 <= b < |runs[n]| ensures runs[n][b] != k {
        assert Flatten(runs)[a] != Flatten(runs)[|init| + b];
      }
    }
  }

  /** A stream is in the query of its series, and in no other. */
  lemma {:induction false} OneQueryEach(streams: seq<Stream>, labels: seq<string>, runs: seq<seq<string>>, s: Stream)
      returns (i: nat)
    requires SortedLabels(streams, labels) && Flatten(runs) == labels && s in streams
    ensures i < |runs| && s in Gather(streams, runs[i])
    ensures forall j | 0 <= j < |runs| && j != i :: forall t | t in Gather(streams, runs[j]) :: t.series != s.series
  {
    hide Gather, Flatten;
    FlattenMembers(runs, s.series);
    i :| 0 <= i < |runs| && s.series in runs[i];
    GatherMembers(streams, runs[i], s);
    forall j, t | 0 <= j < |runs| && j != i && t in Gather(streams, runs[j]) ensures t.series != s.series {
      GatherMembers(streams, runs[j], t);
      if i < j {
        RunsAreDisjoint(runs, i, j, s.series);
      } else {
        RunsAreDisjoint(runs, j, i, t.series);
      }
    }
  }

  function EntryOf(row: Row): Entry { row.1 }

  /** Counting entries counts rows exactly when entries show their labels. */
  lemma {:induction false} SeriesRows(streams: seq<Stream>, k: string)
    ensures |Rows(Of(streams, k))| >= Count(streams, k)
    ensures |Rows(Of(streams, k))| == Count(streams, k) <==> EntriesShowLabels(Of(streams, k))
  {
    var mine := Of(streams, k);
    forall s | s in mine ensures s.series == k {
      OfMembers(streams, k, s);
    }
    forall e | e in Entries(mine) ensures exists row :: row in Rows(mine) && EntryOf(row) == e {
      var s :| s in mine && e in s.values;
      assert (s.Labels(), e) in Rows(mine) && EntryOf((s.Labels(), e)) == e;
    }
    if EntriesShowLabels(mine) {
      SameSize(EntryOf, Rows(mine), Entries(mine));
    } else {
      var s, t, e :| s in mine && t in mine && s.series == t.series
                     && e in s.values && e in t.values && s.Labels() != t.Labels();
      FewerEntries(mine, s, t, e);
    }
  }

  lemma {:induction false} FewerEntries(mine: seq<Stream>, s: Stream, t: Stream, e: Entry)
    requires s in mine && t in mine && e in s.values && e in t.values && s.Labels() != t.Labels()
    ensures |Entries(mine)| < |Rows(mine)|
  {
    var one, other := (s.Labels(), e), (t.Labels(), e);
    assert one in Rows(mine) && other in Rows(mine);
    var rest := Rows(mine) - {one};
    forall d | d in Entries(mine) ensures exists row :: row in rest && EntryOf(row) == d {
      var u :| u in mine && d in u.values;
      var row := if d == e then other else (u.Labels(), d);
      assert row in rest && EntryOf(row) == d;
    }
    OntoSize(EntryOf, rest, Entries(mine));
  }

  lemma {:induction false} OneEntry(s: Stream, t: Stream, e: Entry)
    requires s.values == [e] && t.values == [e]
    ensures Entries([s, t]) == {e}
  {
    assert s in [s, t] && e in s.values;
  }

  lemma {:induction false} OneSeries(s: Stream, t: Stream, k: string)
    requires s.series == k && t.series == k
    ensures Of([s, t], k) == [s, t] && Gather([s, t], [k]) == [s, t] && Cost([s, t], [k]) == Count([s, t], k)
  {
    hide Count;
    OfSnoc([], s, k);
    OfSnoc([s], t, k);
    assert [] + [s] == [s] && [s] + [t] == [s, t];
    CostSnoc([s, t], [], k);
    assert [] + [k] == [k];
  }

  /** And they need not be: a series with one entry under two label sets is counted
      as one row, and its query holds more. */
  lemma {:induction false} MixedLabelsPassTheLimit(s: Stream, t: Stream, e: Entry)
    requires s.series == t.series && s.values == [e] && t.values == [e] && s.Labels() != t.Labels()
    ensures Greedy([s, t], 1, [[s.series]]) && |Rows(Gather([s, t], [s.series]))| > 1
  {
    hide Of, Gather, Cost, Rows, Entries;
    OneEntry(s, t, e);
    OneSeries(s, t, s.series);
    FewerEntries([s, t], s, t, e);
  }

  lemma {:induction false} RowsJoin(a: seq<Stream>, b: seq<Stream>)
    ensures Rows(a + b) == Rows(a) + Rows(b)
  {
    assert forall s :: s in a + b <==> s in a || s in b;
  }

  lemma {:induction false} RowsAreApart(a: seq<Stream>, b: seq<Stream>)
    requires forall s, t | s in a && t in b :: s.series != t.series
    ensures Rows(a) !! Rows(b)
  {
    forall s, t | s in a && t in b ensures s.Labels() != t.Labels() {
      assert s.Labels()["series"] != t.Labels()["series"];
    }
  }

  ghost predicate SeriesShowLabels(streams: seq<Stream>, run: seq<string>) {
    forall k | k in run :: EntriesShowLabels(Of(streams, k))
  }

  /** A query's rows number at least what its series were counted at, and exactly
      that when their entries show their labels. */
  lemma {:induction false} QueryRows(streams: seq<Stream>, run: seq<string>)
    requires Distinct(run)
    ensures |Rows(Gather(streams, run))| >= Cost(streams, run)
    ensures |Rows(Gather(streams, run))| == Cost(streams, run) <==> SeriesShowLabels(streams, run)
    decreases |run|
  {
    hide Count, Rows, Of, EntriesShowLabels;
    if run == [] {
      NoRows();
    } else {
      var init, k := run[..|run| - 1], run[|run| - 1];
      QueryRows(streams, init);
      SeriesRows(streams, k);
      var a, b := Gather(streams, init), Of(streams, k);
      RowsJoin(a, b);
      forall s, t | s in a && t in b ensures s.series != t.series {
        GatherMembers(streams, init, s);
        OfMembers(streams, k, t);
        assert k !in init;
      }
      RowsAreApart(a, b);
      assert run == init + [k];
    }
  }

  /** Whatever the limit, no query of the packing holds more rows than it. */
  ghost predicate KeepsEveryLimit(streams: seq<Stream>, labels: seq<string>) {
    forall limit: int, runs: seq<seq<string>>, i: nat |
      Greedy(streams, limit, runs) && Flatten(runs) == labels && i < |runs| ::
      |Rows(Gather(streams, runs[i]))| <= limit
  }

  /** The packing keeps every limit exactly when no series has one entry under two
      label sets. */
  lemma {:induction false} QueriesKeepTheLimit(streams: seq<Stream>, labels: seq<string>)
    requires SortedLabels(streams, labels)
    ensures KeepsEveryLimit(streams, labels) <==> SeriesShowLabels(streams, labels)
  {
    hide Count, Rows, Of, EntriesShowLabels, Cost, Gather;
    if SeriesShowLabels(streams, labels) {
      forall limit: int, runs: seq<seq<string>>, i: nat |
        Greedy(streams, limit, runs) && Flatten(runs) == labels && i < |runs|
        ensures |Rows(Gather(streams, runs[i]))| <= limit
      {
        RunIsDistinct(runs, i);
        forall k | k in runs[i] ensures k in labels {
          FlattenMembers(runs, k);
        }
        QueryRows(streams, runs[i]);
      }
    }
    if KeepsEveryLimit(streams, labels) && labels != [] {
      var limit, runs := Cost(streams, labels), [labels];
      assert runs == [] + [labels];
      FlattenSnoc([], labels);
      assert Flatten<string>([]) + labels == labels;
      assert Greedy(streams, limit, runs);
      assert |Rows(Gather(streams, runs[0]))| <= limit;
      QueryRows(streams, labels);
    }
  }

  lemma {:induction false} NoRows()
    ensures Rows([]) == {}
  {
  }

  // ----- all queries together

  ghost function Sum(sizes: seq<nat>): nat { if sizes == [] then 0 else Sum(sizes[..|sizes| - 1]) + sizes[|sizes| - 1] }

  // ----- the ledger of one query

  datatype Found = Found(labels: LabelSet, values: seq<Entry>)
  datatype Response = Response(status: string, resultType: string, streams: seq<Found>)
  datatype Ledger = Ledger(seedRows: nat, observedRows: nat, complete: bool, verified: bool)

  /** Both backends add these labels to the seed's lines. */
  function Augment(labels: LabelSet): LabelSet {
    labels["service_name" := "envelope"]["detected_level" := "unknown"]
  }

  function AugmentRow(row: Row): Row { (Augment(row.0), row.1) }

  /** Two labels are added, with these values even if the seed had others, and no other
      label changes. */
  lemma {:induction false} AugmentAdds(labels: LabelSet)
    ensures Augment(labels).Keys == labels.Keys + {"service_name", "detected_level"}
    ensures Augment(labels)["service_name"] == "envelope" && Augment(labels)["detected_level"] == "unknown"
    ensures forall k | k in labels && k != "service_name" && k != "detected_level" :: Augment(labels)[k] == labels[k]
  {
  }

  ghost function ExpectedRows(streams: seq<Stream>): set<Row> {
    set row | row in Rows(streams) :: AugmentRow(row)
  }

  function RowsOf(found: Found): seq<Row> {
    seq(|found.values|, i requires 0 <= i < |found.values| => (found.labels, found.values[i]))
  }

  function Listed(found: seq<Found>): seq<Row> {
    if found == [] then [] else Listed(found[..|found| - 1]) + RowsOf(found[|found| - 1])
  }

  ghost function CountOf(found: seq<Found>): nat {
    if found == [] then 0 else CountOf(found[..|found| - 1]) + |found[|found| - 1].values|
  }

  /** The rows of a response: every entry of every stream, under that stream's labels. */
  lemma {:induction false} ListedAre(found: seq<Found>, row: Row)
    ensures row in Listed(found) <==> exists f | f in found :: row.0 == f.labels && row.1 in f.values
    ensures |Listed(found)| == CountOf(found)
    decreases |found|
  {
    if found != [] {
      var n := |found| - 1;
      ListedAre(found[..n], row);
      var last := found[n];
      assert row in RowsOf(last) <==> row.0 == last.labels && row.1 in last.values by {
        if row.0 == last.labels && row.1 in last.values {
          var i :| 0 <= i < |last.values| && last.values[i] == row.1;
          assert RowsOf(last)[i] == row;
        }
      }
      assert found == found[..n] + [last];
    }
  }

  predicate IntGe(a: int, b: int) { a >= b }

  function Stamps(values: seq<Entry>, toInt: string -> int): seq<int> {
    seq(|values|, i requires 0 <= i < |values| => toInt(values[i].0))
  }

  ghost predicate NoneIsNewer(values: seq<Entry>, toInt: string -> int) {
    forall i, j | 0 <= i < j < |values| :: toInt(values[i].0) >= toInt(values[j].0)
  }

  /** The response lists the query's rows, each once, newest first in a stream. */
  ghost predicate Reports(streams: seq<Stream>, response: Response, limit: int, toInt: string -> int) {
    && response.status == "success" && response.resultType == "streams"
    && 0 < |ExpectedRows(streams)| <= limit
    && (forall i, j | 0 <= i < j < |response.streams| :: response.streams[i].labels != response.streams[j].labels)
    && (forall i | 0 <= i < |response.streams| ::
          response.streams[i].values != [] && NoneIsNewer(response.streams[i].values, toInt))
    && Distinct(Listed(response.streams))
    && (set row | row in Listed(response.streams)) == ExpectedRows(streams)
  }

  lemma {:induction false} DistinctSize<T(!new)>(s: seq<T>)
    ensures |set x | x in s| <= |s|
    ensures |s| == |set x | x in s| <==> Distinct(s)
    decreases |s|
  {
    if s == [] {
      assert (set x | x in s) == {};
    } else {
      var init, last := s[..|s| - 1], s[|s| - 1];
      DistinctSize(init);
      assert s == init + [last];
      assert (set x | x in s) == (set x | x in init) + {last};
      if last in init {
        var i :| 0 <= i < |init| && init[i] == last;
        assert s[i] == s[|s| - 1];
        assert (set x | x in init) + {last} == (set x | x in init);
      } else {
        assert Distinct(s) <==> Distinct(init);
      }
    }
  }

  method ExpectedSet(streams: seq<Stream>) returns (expected: set<Row>)
    ensures expected == ExpectedRows(streams)
  {
    expected := {};
    for i := 0 to |streams|
      invariant expected == ExpectedRows(streams[..i])
    {
      var stream := streams[i];
      expected := expected + set e | e in stream.values :: (Augment(stream.Labels()), e);
      ExpectedSnoc(streams[..i], stream);
      assert streams[..i + 1] == streams[..i] + [stream];
    }
    assert streams[..|streams|] == streams;
  }

  lemma {:induction false} ExpectedSnoc(streams: seq<Stream>, stream: Stream)
    ensures ExpectedRows(streams + [stream]) ==
            ExpectedRows(streams) + set e | e in stream.values :: (Augment(stream.Labels()), e)
  {
    RowsJoin(streams, [stream]);
    var new_ := set e | e in stream.values :: (Augment(stream.Labels()), e);
    forall row | row in ExpectedRows([stream]) ensures row in new_ {
      var plain :| plain in Rows([stream]) && AugmentRow(plain) == row;
    }
    forall e | e in stream.values ensures (Augment(stream.Labels()), e) in ExpectedRows([stream]) {
      assert (stream.Labels(), e) in Rows([stream]);
      assert AugmentRow((stream.Labels(), e)) in ExpectedRows([stream]);
    }
    assert ExpectedRows([stream]) == new_;
    assert ExpectedRows(streams + [stream]) == ExpectedRows(streams) + ExpectedRows([stream]);
  }

  function Keys(found: seq<Found>): seq<LabelSet> {
    seq(|found|, i requires 0 <= i < |found| => found[i].labels)
  }

  method NewestFirst(found: seq<Found>, toInt: string -> int) returns (ok: bool)
    ensures ok <==> forall i | 0 <= i < |found| :: NoneIsNewer(found[i].values, toInt)
  {
    for i := 0 to |found|
      invariant forall k | 0 <= k < i :: NoneIsNewer(found[k].values, toInt)
    {
      var stamps := Stamps(found[i].values, toInt);
      assert Sorted(stamps, IntGe) <==> NoneIsNewer(found[i].values, toInt) by {
        assert forall k | 0 <= k < |stamps| :: stamps[k] == toInt(found[i].values[k].0);
      }
      SortOf(stamps, stamps, IntGe);
      if stamps != Sort(stamps, IntGe) {
        return false;
      }
    }
    return true;
  }

  method LogSeedLedger(streams: seq<Stream>, response: Response, limit: int, toInt: string -> int)
        returns (ledger: Ledger)
    ensures ledger.verified <==> Reports(streams, response, limit, toInt)
    ensures ledger.seedRows == |ExpectedRows(streams)| && ledger.observedRows == |Listed(response.streams)|
    ensures ledger.complete <==> 0 < |ExpectedRows(streams)| <= limit
  {
    hide ExpectedRows, Listed, NoneIsNewer;
    var expected := ExpectedSet(streams);
    var keys := Keys(response.streams);
    var actual := Listed(response.streams);
    var unique := set row | row in actual;
    var complete := 0 < |expected| <= limit;
    var newest := NewestFirst(response.streams, toInt);
    DistinctSize(keys);
    DistinctSize(actual);
    assert forall i | 0 <= i < |keys| :: keys[i] == response.streams[i].labels;
    var verified :=
      && response.status == "success" && response.resultType == "streams" && complete
      && |keys| == |set k | k in keys|
      && (forall i | 0 <= i < |response.streams| :: response.streams[i].values != [])
      && |actual| == |unique| && unique == expected && newest;
    ledger := Ledger(|expected|, |actual|, complete, verified);
  }

  // ----- all of them verified: the store holds the seed and nothing else

  ghost function Observed(responses: seq<Response>): seq<nat> {
    seq(|responses|, i requires 0 <= i < |responses| => |Listed(responses[i].streams)|)
  }

  ghost predicate AllReport(streams: seq<Stream>, runs: seq<seq<string>>, responses: seq<Response>, limit: int,
                            toInt: string -> int) {
    && |responses| == |runs|
    && forall i | 0 <= i < |runs| :: Reports(Gather(streams, runs[i]), responses[i], limit, toInt)
  }

  lemma {:induction false} RunIsDistinct(runs: seq<seq<string>>, i: nat)
    requires Distinct(Flatten(runs)) && i < |runs|
    ensures Distinct(runs[i])
  {
    FlattenNext(runs, i);
    var p, whole := |Flatten(runs[..i])|, Flatten(runs);
    forall a, b | 0 <= a < b < |runs[i]| ensures runs[i][a] != runs[i][b] {
      assert whole[p..p + |runs[i]|][a] == whole[p + a] && whole[p..p + |runs[i]|][b] == whole[p + b];
    }
  }

  /** When every query verifies, the rows observed are the seeded rows, none
      missing and none extra. */
  lemma {:induction false} VerifiedIsWhole(streams: seq<Stream>, labels: seq<string>, runs: seq<seq<string>>,
                                           responses: seq<Response>, limit: int, toInt: string -> int)
    requires SortedLabels(streams, labels) && Flatten(runs) == labels
    requires AllReport(streams, runs, responses, limit, toInt)
    ensures forall row :: row in ExpectedRows(streams) <==>
              exists i :: 0 <= i < |responses| && row in Listed(responses[i].streams)
  {
    hide Gather, Listed, ExpectedRows, Flatten;
    forall row ensures row in ExpectedRows(streams) <==>
              exists i :: 0 <= i < |responses| && row in Listed(responses[i].streams)
    {
      RowIsFound(streams, labels, runs, responses, limit, toInt, row);
    }
  }

  lemma {:induction false} GatherJoins(streams: seq<Stream>, a: seq<string>, b: seq<string>)
    ensures Gather(streams, a + b) == Gather(streams, a) + Gather(streams, b)
    decreases |b|
  {
    if b == [] {
      assert a + b == a;
    } else {
      GatherJoins(streams, a, b[..|b| - 1]);
      assert (a + b)[..|a + b| - 1] == a + b[..|b| - 1];
    }
  }

  lemma {:induction false} ExpectedJoin(a: seq<Stream>, b: seq<Stream>)
    ensures ExpectedRows(a + b) == ExpectedRows(a) + ExpectedRows(b)
  {
    hide Rows;
    RowsJoin(a, b);
  }

  lemma {:induction false} ExpectedAreApart(a: seq<Stream>, b: seq<Stream>)
    requires forall s, t | s in a && t in b :: s.series != t.series
    ensures ExpectedRows(a) !! ExpectedRows(b)
  {
    forall s, t | s in a && t in b ensures Augment(s.Labels()) != Augment(t.Labels()) {
      assert Augment(s.Labels())["series"] != Augment(t.Labels())["series"];
    }
  }

  lemma {:induction false} ReportSize(part: seq<Stream>, response: Response, limit: int, toInt: string -> int)
    requires Reports(part, response, limit, toInt)
    ensures |Listed(response.streams)| == |ExpectedRows(part)|
  {
    hide Listed, ExpectedRows;
    DistinctSize(Listed(response.streams));
  }

  lemma {:induction false} ObservedSum(streams: seq<Stream>, runs: seq<seq<string>>, responses: seq<Response>,
                                       limit: int, toInt: string -> int)
    requires Distinct(Flatten(runs)) && AllReport(streams, runs, responses, limit, toInt)
    ensures Sum(Observed(responses)) == |ExpectedRows(Gather(streams, Flatten(runs)))|
    decreases |runs|
  {
    hide Gather, ExpectedRows, Listed, Reports;
    if runs == [] {
      assert Observed(responses) == [];
      NothingExpected(streams);
    } else {
      var n := |runs| - 1;
      var init, last := runs[..n], responses[n];
      assert Distinct(Flatten(init)) by {
        assert forall i | 0 <= i < |Flatten(init)| :: Flatten(runs)[i] == Flatten(init)[i];
      }
      ObservedSum(streams, init, responses[..n], limit, toInt);
      assert Observed(responses)[..n] == Observed(responses[..n]);
      ReportSize(Gather(streams, runs[n]), last, limit, toInt);
      var a, b := Gather(streams, Flatten(init)), Gather(streams, runs[n]);
      GatherJoins(streams, Flatten(init), runs[n]);
      ExpectedJoin(a, b);
      forall s, t | s in a && t in b ensures s.series != t.series {
        GatherMembers(streams, Flatten(init), s);
        GatherMembers(streams, runs[n], t);
        FlattenMembers(init, s.series);
        var i :| 0 <= i < |init| && s.series in init[i];
        assert init[i] == runs[i];
        RunsAreDisjoint(runs, i, n, s.series);
      }
      ExpectedAreApart(a, b);
    }
  }

  lemma {:induction false} NothingExpected(streams: seq<Stream>)
    ensures ExpectedRows(Gather(streams, Flatten<string>([]))) == {}
  {
    NoRows();
  }

  /** No two rows become one when the backends add their labels. */
  ghost predicate RowsStayApart(streams: seq<Stream>) {
    forall a, b | a in Rows(streams) && b in Rows(streams) && AugmentRow(a) == AugmentRow(b) :: a == b
  }

  /** The rows that the queries observe add up to the seed's unique rows exactly
      when the added labels keep rows apart. */
  lemma {:induction false} VerifiedCounts(streams: seq<Stream>, labels: seq<string>, runs: seq<seq<string>>,
                                          responses: seq<Response>, limit: int, toInt: string -> int)
    requires SortedLabels(streams, labels) && Flatten(runs) == labels
    requires AllReport(streams, runs, responses, limit, toInt)
    ensures Sum(Observed(responses)) == |ExpectedRows(streams)|
    ensures Sum(Observed(responses)) == |Rows(streams)| <==> RowsStayApart(streams)
  {
    hide Gather, Listed, Flatten, Reports;
    ObservedSum(streams, runs, responses, limit, toInt);
    forall s ensures s in streams <==> s in Gather(streams, labels) {
      GatherMembers(streams, labels, s);
    }
    assert Rows(streams) == Rows(Gather(streams, labels));
    ExpectedSize(streams);
  }

  lemma {:induction false} ExpectedSize(streams: seq<Stream>)
    ensures |ExpectedRows(streams)| == |Rows(streams)| <==> RowsStayApart(streams)
  {
    hide Rows;
    if RowsStayApart(streams) {
      SameSize(AugmentRow, Rows(streams), ExpectedRows(streams));
    } else {
      var a, b :| a in Rows(streams) && b in Rows(streams) && AugmentRow(a) == AugmentRow(b) && a != b;
      var rest := Rows(streams) - {a};
      forall e | e in ExpectedRows(streams) ensures exists row :: row in rest && AugmentRow(row) == e {
        var row :| row in Rows(streams) && AugmentRow(row) == e;
        var other := if row == a then b else row;
        assert other in rest && AugmentRow(other) == e;
      }
      OntoSize(AugmentRow, rest, ExpectedRows(streams));
    }
  }

  /** It does when entries show their labels. */
  lemma {:induction false} LabelsKeepRowsApart(streams: seq<Stream>)
    requires EntriesShowLabels(streams)
    ensures RowsStayApart(streams)
  {
    forall a, b | a in Rows(streams) && b in Rows(streams) && AugmentRow(a) == AugmentRow(b) ensures a == b {
      var s :| s in streams && s.Labels() == a.0 && a.1 in s.values;
      var t :| t in streams && t.Labels() == b.0 && b.1 in t.values;
      assert Augment(a.0)["series"] == Augment(b.0)["series"];
      assert s.series == t.series;
    }
  }

  lemma {:induction false} RowIsFound(streams: seq<Stream>, labels: seq<string>, runs: seq<seq<string>>,
                                      responses: seq<Response>, limit: int, toInt: string -> int, row: Row)
    requires SortedLabels(streams, labels) && Flatten(runs) == labels
    requires AllReport(streams, runs, responses, limit, toInt)
    ensures row in ExpectedRows(streams) <==> exists i :: 0 <= i < |responses| && row in Listed(responses[i].streams)
  {
    hide Gather, Listed, Flatten;
    if row in ExpectedRows(streams) {
      var plain :| plain in Rows(streams) && AugmentRow(plain) == row;
      var s :| s in streams && s.Labels() == plain.0 && plain.1 in s.values;
      var i := OneQueryEach(streams, labels, runs, s);
      assert plain in Rows(Gather(streams, runs[i]));
      assert row in ExpectedRows(Gather(streams, runs[i]));
      assert row in Listed(responses[i].streams);
    }
    if i :| 0 <= i < |responses| && row in Listed(responses[i].streams) {
      assert row in set r | r in Listed(responses[i].streams);
      assert row in ExpectedRows(Gather(streams, runs[i]));
      var plain :| plain in Rows(Gather(streams, runs[i])) && AugmentRow(plain) == row;
      var s :| s in Gather(streams, runs[i]) && s.Labels() == plain.0 && plain.1 in s.values;
      GatherMembers(streams, runs[i], s);
      assert plain in Rows(streams);
    }
  }
}
