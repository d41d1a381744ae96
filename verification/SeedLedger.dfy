/** The ledger of the metrics seed: which rows the accepted requests hold, and
    when a matrix response proves that all of them, and nothing else, are stored
    (tools/compare-grafana.py:118-191). */
module SeedLedger {
  import opened Basics
  import opened Text
  import opened MetricRequest
  import Modular

  const LOOKBACK := 300000
  const WINDOW := 1800000

  type Metric = map<string, string>
  /** Milliseconds and value. */
  type Point = (int, real)

  datatype Stamp = Millis(ms: int) | NotAnInteger

  datatype Receipt = Receipt(
    sequence: int, status: int, rows: int, tenant: string, cardinality: int, age: int, stamp: Stamp)

  /** A sample as the response shows it: seconds and value, or something that is
      not a pair of a finite number and a finite decimal string. */
  datatype Sample = Sample(seconds: real, value: real) | BadSample

  datatype Item = Series(metric: Metric, values: seq<Sample>) | BadItem

  datatype Items = List(items: seq<Item>) | NotAList

  /** `noticed`: the envelope carries warnings, infos or an error. */
  datatype Response = Response(status: string, resultType: string, noticed: bool, result: Items)

  datatype Row = Row(metric: Metric, ms: int, value: real)

  // ----- what the receipts promise

  function SeriesKey(series: nat): Metric {
    map["__name__" := "envelope_samples", "series" := NatText(series)]
  }

  function SeriesValue(series: nat): real { ((267 + series) % 97) as real }

  lemma {:induction false} KeysDiffer(a: nat, b: nat)
    requires SeriesKey(a) == SeriesKey(b)
    ensures a == b
  {
    assert SeriesKey(a)["series"] == SeriesKey(b)["series"];
    NatValueOfText(a);
    NatValueOfText(b);
  }

  function RequestCount(cardinality: int): int { (cardinality + PER_REQUEST - 1) / PER_REQUEST }

  function Range(base: int, n: nat): (s: seq<int>)
    ensures |s| == n && forall i | 0 <= i < n :: s[i] == base + i
  {
    seq(n, i => base + i)
  }

  function Sequences(records: seq<Receipt>): (s: seq<int>)
    ensures |s| == |records| && forall i | 0 <= i < |s| :: s[i] == records[i].sequence
  {
    seq(|records|, i requires 0 <= i < |records| => records[i].sequence)
  }

  /** The sequences are those of a run of consecutive requests, in any order. */
  ghost predicate ConsecutiveFrom(records: seq<Receipt>, base: int) {
    multiset(Sequences(records)) == multiset(Range(base, |records|))
  }

  predicate Admitted(r: Receipt, first: Receipt) {
    && 200 <= r.status < 300 && r.rows == PER_REQUEST && r.tenant == first.tenant
    && r.cardinality == first.cardinality && r.age == first.age
  }

  predicate InWindow(r: Receipt, evaluation: int)
    requires r.stamp.Millis?
  {
    && evaluation - WINDOW < r.stamp.ms <= evaluation
    && (r.age == 0 ==> r.stamp.ms > evaluation - LOOKBACK)
  }

  ghost predicate ValidReceipt(records: seq<Receipt>, k: nat, evaluation: int)
    requires k < |records|
  {
    var r, first := records[k], records[0];
    && 200 <= r.status < 300 && r.rows == 1000 && r.tenant == first.tenant
    && r.cardinality == first.cardinality && r.age == first.age
    && r.stamp.Millis? && evaluation - 1_800_000 < r.stamp.ms <= evaluation
    && (r.age == 0 ==> evaluation - 300_000 < r.stamp.ms)
    && forall j | 0 <= j < k :: records[j].stamp != records[k].stamp
  }

  ghost predicate RightRequests(records: seq<Receipt>) {
    && records != [] && records[0].cardinality > 0
    && 1000 * (|records| - 1) < records[0].cardinality <= 1000 * |records|
    && exists base :: ConsecutiveFrom(records, base)
  }

  /** As many requests as it takes to carry every series, and no more. */
  lemma {:induction false} CountIsEnough(c: int, n: nat)
    requires c > 0
    ensures n == RequestCount(c) <==> 1000 * (n - 1) < c <= 1000 * n
  {
  }

  lemma {:induction false} Base(records: seq<Receipt>) returns (base: int)
    requires RightRequests(records)
    ensures ConsecutiveFrom(records, base)
  {
    base :| ConsecutiveFrom(records, base);
  }

  /** The receipts of one complete seed, still inside the query's window. */
  ghost predicate ValidReceipts(records: seq<Receipt>, evaluation: int) {
    RightRequests(records) && forall k | 0 <= k < |records| :: ValidReceipt(records, k, evaluation)
  }

  function RowAt(r: Receipt, c: int, i: nat): Row
    requires c > 0 && r.stamp.Millis?
  {
    var series := SeriesAt(r.sequence, c, i);
    Row(SeriesKey(series), r.stamp.ms, SeriesValue(series))
  }

  /** The first `n` rows of a request, as a set: a series may come round again. */
  ghost function RequestRows(r: Receipt, c: int, n: nat): set<Row>
    requires c > 0 && r.stamp.Millis?
  {
    set i | 0 <= i < n :: RowAt(r, c, i)
  }

  ghost predicate Stamped(records: seq<Receipt>) {
    forall k | 0 <= k < |records| :: records[k].stamp.Millis?
  }

  /** Every row that the requests carried. */
  ghost function SeedRows(records: seq<Receipt>, c: int): set<Row>
    requires c > 0 && Stamped(records)
  {
    set k, i | 0 <= k < |records| && 0 <= i < PER_REQUEST :: RowAt(records[k], c, i)
  }

  // ----- the seed covers every series, and repeats no row it does not have to

  /** Any run of enough consecutive requests reaches every series. */
  lemma {:induction false} EverySeriesIsHit(base: int, c: int, series: nat) returns (k: nat, i: nat)
    requires 0 <= series < c
    ensures k < RequestCount(c) && i < PER_REQUEST
    ensures SeriesAt(base + k, c, i) == series
  {
    var d := (series - base * PER_REQUEST) % c;
    k, i := d / PER_REQUEST, d % PER_REQUEST;
    assert (base + k) * PER_REQUEST + i == base * PER_REQUEST + d;
    Modular.Early(series - base * PER_REQUEST, base * PER_REQUEST, c);
    Modular.Inside(series, c);
  }

  /** As long as the request has not come round, each place is a new row. */
  lemma {:induction false} FreshRows(r: Receipt, c: int, n: nat)
    requires c > 0 && r.stamp.Millis? && n <= c
    ensures |RequestRows(r, c, n)| == n
    decreases n
  {
    hide SeriesKey, SeriesValue;
    if n > 0 {
      FreshRows(r, c, n - 1);
      var last := RowAt(r, c, n - 1);
      if last in RequestRows(r, c, n - 1) {
        var i :| 0 <= i < n - 1 && RowAt(r, c, i) == last;
        KeysDiffer(SeriesAt(r.sequence, c, i), SeriesAt(r.sequence, c, n - 1));
        Modular.Distinct(r.sequence * PER_REQUEST + i, r.sequence * PER_REQUEST + n - 1, c);
        assert false;
      }
      assert RequestRows(r, c, n) == RequestRows(r, c, n - 1) + {last};
    } else {
      assert RequestRows(r, c, 0) == {};
    }
  }

  lemma {:induction false} RequestSize(r: Receipt, c: int)
    requires c > 0 && r.stamp.Millis?
    ensures |RequestRows(r, c, PER_REQUEST)| == Min(PER_REQUEST, c)
  {
    FreshRows(r, c, Min(PER_REQUEST, c));
    if c < PER_REQUEST {
      forall i | 0 <= i < PER_REQUEST ensures RowAt(r, c, i) in RequestRows(r, c, c) {
        Modular.Early(i, r.sequence * PER_REQUEST, c);
        assert RowAt(r, c, i) == RowAt(r, c, i % c);
      }
      assert RequestRows(r, c, PER_REQUEST) == RequestRows(r, c, c);
    }
  }

  lemma {:induction false} SeedRowsSnoc(records: seq<Receipt>, c: int, k: nat)
    requires c > 0 && Stamped(records) && k < |records|
    ensures SeedRows(records[..k + 1], c) == SeedRows(records[..k], c) + RequestRows(records[k], c, PER_REQUEST)
  {
    var all, init := SeedRows(records[..k + 1], c), SeedRows(records[..k], c);
    var one := RequestRows(records[k], c, PER_REQUEST);
    forall row | row in all ensures row in init + one {
      var j, i :| 0 <= j < k + 1 && 0 <= i < PER_REQUEST && RowAt(records[..k + 1][j], c, i) == row;
      if j < k {
        assert RowAt(records[..k][j], c, i) == row;
      }
    }
    forall row | row in init ensures row in all {
      var j, i :| 0 <= j < k && 0 <= i < PER_REQUEST && RowAt(records[..k][j], c, i) == row;
      assert RowAt(records[..k + 1][j], c, i) == row;
    }
    forall row | row in one ensures row in all {
      var i :| 0 <= i < PER_REQUEST && RowAt(records[k], c, i) == row;
      assert RowAt(records[..k + 1][k], c, i) == row;
    }
  }

  ghost predicate DistinctStamps(records: seq<Receipt>) {
    forall j, k | 0 <= j < k < |records| :: records[j].stamp != records[k].stamp
  }

  /** The number of distinct rows: a thousand a request, or every series once when
      there are fewer. */
  lemma {:induction false} UniqueRows(records: seq<Receipt>, c: int, n: nat)
    requires c > 0 && Stamped(records) && DistinctStamps(records) && n <= |records|
    ensures |SeedRows(records[..n], c)| == n * Min(PER_REQUEST, c)
    decreases n
  {
    hide RowAt, SeedRows, RequestRows;
    if n == 0 {
      NoSeedRows(records[..0], c);
    } else {
      UniqueRows(records, c, n - 1);
      SeedRowsSnoc(records, c, n - 1);
      RequestSize(records[n - 1], c);
      var init, one := SeedRows(records[..n - 1], c), RequestRows(records[n - 1], c, PER_REQUEST);
      forall row | row in init && row in one ensures false {
        DifferentRequests(records, c, n - 1, row);
      }
      assert init !! one;
      assert |init + one| == |init| + |one|;
      assert n * Min(PER_REQUEST, c) == (n - 1) * Min(PER_REQUEST, c) + Min(PER_REQUEST, c);
    }
  }

  lemma {:induction false} NoSeedRows(records: seq<Receipt>, c: int)
    requires c > 0 && records == []
    ensures SeedRows(records, c) == {}
  {
  }

  lemma {:induction false} DifferentRequests(records: seq<Receipt>, c: int, k: nat, row: Row)
    requires c > 0 && Stamped(records) && DistinctStamps(records) && k < |records|
    requires row in SeedRows(records[..k], c)
    ensures row !in RequestRows(records[k], c, PER_REQUEST)
  {
    var j, i :| 0 <= j < k && 0 <= i < PER_REQUEST && RowAt(records[..k][j], c, i) == row;
    assert row.ms == records[j].stamp.ms;
  }
}
