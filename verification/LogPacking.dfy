/** Packing the seeded log series into bounded queries
    (tools/compare-grafana.py:430-447): series by series in label order, a new
    query whenever the next series would not fit. */
module LogPacking {
  import opened Ordering
  import opened Lists
  import opened Basics

  type Entry = (string, string)
  type LabelSet = map<string, string>
  type Row = (LabelSet, Entry)

  /** A pushed stream; every one carries a `series` label. */
  datatype Stream = Stream(series: string, others: LabelSet, values: seq<Entry>) {
    function Labels(): LabelSet { others["series" := series] }
  }

  /** The streams of one series, in order. */
  function Of(streams: seq<Stream>, label_: string): seq<Stream> {
    if streams == [] then []
    else
      var init, last := Of(streams[..|streams| - 1], label_), streams[|streams| - 1];
      if last.series == label_ then init + [last] else init
  }

  ghost function Entries(streams: seq<Stream>): set<Entry> {
    set s, e | s in streams && e in s.values :: e
  }

  ghost function Count(streams: seq<Stream>, label_: string): nat { |Entries(Of(streams, label_))| }

  ghost function Cost(streams: seq<Stream>, run: seq<string>): nat {
    if run == [] then 0 else Cost(streams, run[..|run| - 1]) + Count(streams, run[|run| - 1])
  }

  ghost function Gather(streams: seq<Stream>, run: seq<string>): seq<Stream> {
    if run == [] then [] else Gather(streams, run[..|run| - 1]) + Of(streams, run[|run| - 1])
  }

  ghost function Gathered(streams: seq<Stream>, runs: seq<seq<string>>): seq<seq<Stream>> {
    seq(|runs|, i requires 0 <= i < |runs| => Gather(streams, runs[i]))
  }

  /** The labels in use, each once, sorted. */
  ghost predicate SortedLabels(streams: seq<Stream>, labels: seq<string>) {
    && Distinct(labels) && Sorted(labels, StringLe)
    && forall k :: k in labels <==> exists s | s in streams :: s.series == k
  }

  ghost predicate Full(streams: seq<Stream>, limit: int, run: seq<string>, next: seq<string>) {
    next != [] && Cost(streams, run) + Count(streams, next[0]) > limit
  }

  /** Every run fits, none is empty, and none could have taken its successor's
      first series. */
  ghost predicate Greedy(streams: seq<Stream>, limit: int, runs: seq<seq<string>>) {
    && (forall i | 0 <= i < |runs| :: runs[i] != [] && Cost(streams, runs[i]) <= limit)
    && (forall i, j | 0 <= i && j == i + 1 < |runs| :: Full(streams, limit, runs[i], runs[j]))
  }

  // ----- grouping by series

  lemma {:induction false} OfSnoc(streams: seq<Stream>, s: Stream, label_: string)
    ensures Of(streams + [s], label_) == if s.series == label_ then Of(streams, label_) + [s] else Of(streams, label_)
  {
    assert (streams + [s])[..|streams|] == streams;
  }

  lemma {:induction false} OfMembers(streams: seq<Stream>, label_: string, s: Stream)
    ensures s in Of(streams, label_) <==> s in streams && s.series == label_
    decreases |streams|
  {
    if streams != [] {
      OfMembers(streams[..|streams| - 1], label_, s);
      assert streams == streams[..|streams| - 1] + [streams[|streams| - 1]];
    }
  }

  ghost predicate Grouped(streams: seq<Stream>, order: seq<string>, series: map<string, seq<Stream>>) {
    && Distinct(order)
    && (forall k :: k in order <==> k in series)
    && (forall k :: k in series <==> exists s | s in streams :: s.series == k)
    && (forall k | k in series :: series[k] == Of(streams, k))
  }

  lemma {:induction false} OfNothing(streams: seq<Stream>, k: string)
    requires forall s | s in streams :: s.series != k
    ensures Of(streams, k) == []
    decreases |streams|
  {
    if streams != [] {
      var n := |streams| - 1;
      assert streams[n] in streams;
      assert forall s | s in streams[..n] :: s in streams;
      OfNothing(streams[..n], k);
    }
  }

  lemma {:induction false} GroupedSnoc(streams: seq<Stream>, order: seq<string>, series: map<string, seq<Stream>>,
                                       s: Stream)
    requires Grouped(streams, order, series)
    ensures var known := s.series in series;
            Grouped(streams + [s], if known then order else order + [s.series],
                    series[s.series := (if known then series[s.series] else []) + [s]])
  {
    hide Of;
    var more := streams + [s];
    if s.series !in series {
      OfNothing(streams, s.series);
    }
    forall k ensures Of(more, k) == if s.series == k then Of(streams, k) + [s] else Of(streams, k) {
      OfSnoc(streams, s, k);
    }
    forall k ensures (exists t | t in more :: t.series == k) <==> k in series || k == s.series {
      assert s in more;
      if t :| t in streams && t.series == k {
        assert t in more;
      }
    }
  }

  method BySeries(records: seq<seq<Stream>>) returns (order: seq<string>, series: map<string, seq<Stream>>)
    ensures Grouped(Flatten(records), order, series)
  {
    hide Grouped, Of;
    order, series := [], map[];
    NothingGrouped();
    for r := 0 to |records|
      invariant Grouped(Flatten(records[..r]), order, series)
    {
      ghost var before := Flatten(records[..r]);
      assert records[r][..0] == [] && before + [] == before;
      for i := 0 to |records[r]|
        invariant Grouped(before + records[r][..i], order, series)
      {
        var stream := records[r][i];
        GroupedSnoc(before + records[r][..i], order, series, stream);
        assert before + records[r][..i + 1] == before + records[r][..i] + [stream];
        if stream.series in series {
          series := series[stream.series := series[stream.series] + [stream]];
        } else {
          order := order + [stream.series];
          series := series[stream.series := [] + [stream]];
        }
      }
      assert records[r][..|records[r]|] == records[r];
      assert records[..r + 1][..r] == records[..r];
    }
    assert records[..|records|] == records;
  }

  lemma {:induction false} NothingGrouped()
    ensures Grouped(Flatten<Stream>([]), [], map[])
  {
  }

  lemma {:induction false} SortedOrder(streams: seq<Stream>, order: seq<string>, series: map<string, seq<Stream>>)
    requires Grouped(streams, order, series)
    ensures SortedLabels(streams, Sort(order, StringLe))
  {
    hide Of, Sort;
    var labels := Sort(order, StringLe);
    StringOrder();
    SortPermutes(order, StringLe);
    SortSorts(order, StringLe);
    forall k ensures k in labels <==> k in order {
      Members(labels, order, k);
    }
    DistinctPermutes(order, labels);
  }

  lemma {:induction false} DistinctCounts(s: seq<string>, k: string)
    requires Distinct(s)
    ensures multiset(s)[k] == if k in s then 1 else 0
    decreases |s|
  {
    if s != [] {
      var init, last := s[..|s| - 1], s[|s| - 1];
      DistinctCounts(init, k);
      assert s == init + [last];
    }
  }

  lemma {:induction false} DistinctPermutes(a: seq<string>, b: seq<string>)
    requires Distinct(a) && multiset(a) == multiset(b)
    ensures Distinct(b)
  {
    forall i, j | 0 <= i < j < |b| ensures b[i] != b[j] {
      DistinctCounts(a, b[i]);
      assert b == b[..j] + [b[j]] + b[j + 1..];
      assert b[i] in b[..j];
      assert multiset(b)[b[i]] >= multiset(b[..j])[b[i]] + multiset{b[j]}[b[i]];
    }
  }

  // ----- packing

  method CountEntries(streams: seq<Stream>) returns (n: nat)
    ensures n == |Entries(streams)|
  {
    var entries: set<Entry> := {};
    for i := 0 to |streams|
      invariant entries == Entries(streams[..i])
    {
      entries := entries + set e | e in streams[i].values;
      assert streams[..i + 1] == streams[..i] + [streams[i]];
      assert forall s :: s in streams[..i + 1] <==> s in streams[..i] || s == streams[i];
    }
    assert streams[..|streams|] == streams;
    n := |entries|;
  }

  lemma {:induction false} CostSnoc(streams: seq<Stream>, run: seq<string>, k: string)
    ensures Cost(streams, run + [k]) == Cost(streams, run) + Count(streams, k)
    ensures Gather(streams, run + [k]) == Gather(streams, run) + Of(streams, k)
  {
    assert (run + [k])[..|run|] == run;
  }

  /** `groups` are the greedy runs of the sorted labels, each with all the streams
      of its series. */
  ghost predicate PackedAs(streams: seq<Stream>, limit: int, labels: seq<string>, runs: seq<seq<string>>,
                           groups: seq<seq<Stream>>) {
    && SortedLabels(streams, labels) && Flatten(runs) == labels && Greedy(streams, limit, runs)
    && groups == Gathered(streams, runs)
  }

  ghost predicate Packed(streams: seq<Stream>, limit: int, groups: seq<seq<Stream>>) {
    exists labels, runs :: PackedAs(streams, limit, labels, runs, groups)
  }

  /** Raises, `None`, exactly when one series alone does not fit. */
  method Pack(records: seq<seq<Stream>>, limit: int) returns (groups: Option<seq<seq<Stream>>>)
    ensures groups.None? <==> exists s :: s in Flatten(records) && Count(Flatten(records), s.series) > limit
    ensures groups.Some? ==> Packed(Flatten(records), limit, groups.value)
  {
    hide Of, Count, Cost, Gather, Sort, SortedLabels, Flatten;
    ghost var streams := Flatten(records);
    var order, series := BySeries(records);
    var sorted := Sort(order, StringLe);
    SortedOrder(streams, order, series);
    SortPermutes(order, StringLe);
    ghost var runs: seq<seq<string>> := [];
    var done: seq<seq<Stream>>, current: seq<Stream>, rows := [], [], 0;
    ghost var run: seq<string> := [];
    NothingPacked(streams);
    for i := 0 to |sorted|
      invariant Packing(streams, limit, runs, run, sorted[..i])
      invariant done == Gathered(streams, runs) && current == Gather(streams, run) && rows == Cost(streams, run)
      invariant forall k | k in sorted[..i] :: Count(streams, k) <= limit
    {
      var k := sorted[i];
      Members(sorted, order, k);
      var seeded := series[k];
      var count := CountEntries(seeded);
      assert count == Count(streams, k) by { CountIs(streams, k); }
      InUse(streams, order, series, k);
      assert sorted[..i + 1] == sorted[..i] + [k];
      if count > limit {
        LabelInUse(streams, sorted, k);
        return None;
      }
      if rows + count > limit {
        StartNext(streams, limit, runs, run, sorted[..i], k);
        done := done + [current];
        runs := runs + [run];
        current, run, rows := [], [], 0;
        NothingPacked(streams);
        assert [] + [k] == [k];
      } else {
        KeepOn(streams, limit, runs, run, sorted[..i], k);
      }
      CostSnoc(streams, run, k);
      current := current + seeded;
      run := run + [k];
      rows := rows + count;
    }
    assert sorted[..|sorted|] == sorted;
    if current != [] {
      done := done + [current];
    }
    LastRun(streams, limit, runs, run, sorted);
    if run != [] {
      runs := runs + [run];
    }
    assert PackedAs(streams, limit, sorted, runs, done);
    forall s | s in streams ensures Count(streams, s.series) <= limit {
      SeriesIsLabel(streams, sorted, s);
    }
    groups := Some(done);
  }

  lemma {:induction false} LabelInUse(streams: seq<Stream>, labels: seq<string>, k: string)
    requires SortedLabels(streams, labels) && k in labels
    ensures exists s :: s in streams && s.series == k
  {
  }

  lemma {:induction false} SeriesIsLabel(streams: seq<Stream>, labels: seq<string>, s: Stream)
    requires SortedLabels(streams, labels) && s in streams
    ensures s.series in labels
  {
  }

  /** Between two series: the closed runs and the open one. */
  ghost predicate Packing(streams: seq<Stream>, limit: int, runs: seq<seq<string>>, run: seq<string>,
                          seen: seq<string>) {
    && Flatten(runs) + run == seen && Greedy(streams, limit, runs)
    && (run == [] ==> seen == [])
    && (run != [] ==> Cost(streams, run) <= limit)
    && (run != [] && runs != [] ==> Cost(streams, runs[|runs| - 1]) + Count(streams, run[0]) > limit)
    && forall k | k in seen :: Of(streams, k) != []
  }

  lemma {:induction false} CountIs(streams: seq<Stream>, k: string)
    ensures Count(streams, k) == |Entries(Of(streams, k))|
  {
  }

  lemma {:induction false} NothingPacked(streams: seq<Stream>)
    ensures Gather(streams, []) == [] && Cost(streams, []) == 0 && Flatten<string>([]) == []
  {
  }

  lemma {:induction false} InUse(streams: seq<Stream>, order: seq<string>, series: map<string, seq<Stream>>,
                                 k: string)
    requires Grouped(streams, order, series) && k in series
    ensures Of(streams, k) != []
  {
    var s :| s in streams && s.series == k;
    OfMembers(streams, k, s);
  }

  lemma {:induction false} StartNext(streams: seq<Stream>, limit: int, runs: seq<seq<string>>, run: seq<string>,
                                     seen: seq<string>, k: string)
    requires Packing(streams, limit, runs, run, seen) && Of(streams, k) != []
    requires Count(streams, k) <= limit < Cost(streams, run) + Count(streams, k)
    ensures Packing(streams, limit, runs + [run], [k], seen + [k])
    ensures Gathered(streams, runs + [run]) == Gathered(streams, runs) + [Gather(streams, run)]
  {
    hide Of, Count, Gather;
    assert run != [];
    FlattenSnoc(runs, run);
    assert [] + [k] == [k];
    CostSnoc(streams, [], k);
    GreedySnoc(streams, limit, runs, run);
  }

  lemma {:induction false} GreedySnoc(streams: seq<Stream>, limit: int, runs: seq<seq<string>>, run: seq<string>)
    requires Greedy(streams, limit, runs) && run != [] && Cost(streams, run) <= limit
    requires runs != [] ==> Cost(streams, runs[|runs| - 1]) + Count(streams, run[0]) > limit
    ensures Greedy(streams, limit, runs + [run])
  {
    hide Cost, Count;
    var more := runs + [run];
    forall i, j | 0 <= i && j == i + 1 < |more| ensures Full(streams, limit, more[i], more[j]) {
      assert j < |runs| ==> more[j] == runs[j];
    }
  }

  lemma {:induction false} KeepOn(streams: seq<Stream>, limit: int, runs: seq<seq<string>>, run: seq<string>,
                                  seen: seq<string>, k: string)
    requires Packing(streams, limit, runs, run, seen) && Of(streams, k) != []
    requires Cost(streams, run) + Count(streams, k) <= limit
    ensures Packing(streams, limit, runs, run + [k], seen + [k])
  {
    hide Of, Count, Greedy;
    CostSnoc(streams, run, k);
    assert Flatten(runs) + (run + [k]) == seen + [k];
    if run == [] && runs != [] {
      FirstRunIsSeen(streams, limit, runs);
    }
  }

  lemma {:induction false} FirstRunIsSeen(streams: seq<Stream>, limit: int, runs: seq<seq<string>>)
    requires Greedy(streams, limit, runs) && runs != []
    ensures Flatten(runs) != []
  {
    assert runs[|runs| - 1] != [];
  }

  lemma {:induction false} GatherSome(streams: seq<Stream>, run: seq<string>)
    requires run != [] && Of(streams, run[|run| - 1]) != []
    ensures Gather(streams, run) != []
  {
  }

  lemma {:induction false} LastRun(streams: seq<Stream>, limit: int, runs: seq<seq<string>>, run: seq<string>,
                                   seen: seq<string>)
    requires Packing(streams, limit, runs, run, seen)
    ensures Gather(streams, run) != [] <==> run != []
    ensures run != [] ==>
              && Flatten(runs + [run]) == seen && Greedy(streams, limit, runs + [run])
              && Gathered(streams, runs + [run]) == Gathered(streams, runs) + [Gather(streams, run)]
    ensures run == [] ==> Flatten(runs) == seen
  {
    hide Of, Count, Gather, Cost;
    NothingPacked(streams);
    if run != [] {
      FlattenSnoc(runs, run);
      GreedySnoc(streams, limit, runs, run);
      assert run[|run| - 1] == seen[|seen| - 1];
      GatherSome(streams, run);
    }
  }
}
