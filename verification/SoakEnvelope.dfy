/** The measured envelope over several soak runs (tools/soak-gate.py:436-545). */
module SoakEnvelope {
  import opened Basics
  import opened Ordering

  const MIN_RUNS := 3
  const SIGNALS := ["metrics", "logs", "traces", "profiles"]
  const STEPPED := ["burst", "high_cardinality"]

  datatype Level = Level(level: int, met: bool, rate: real)

  datatype Entry = Entry(signal: string, phase: string, met: bool, levels: seq<Level>)

  /** What must match across the runs of one envelope. */
  datatype Setup = Setup(dataset: string, shape: string, objectives: string, commit: string, imageDigest: string,
                         minioImage: string, rustc: string, host: string)

  datatype Report = Report(runId: string, setup: Setup, entries: seq<Entry>)

  /** One run's levels, by level. */
  type Run = map<int, Level>

  datatype Bound = None_ | Saturated | Lower

  datatype Measured = Measured(level: Option<int>, firstFailing: Option<int>, bound: Bound,
                               least: Option<real>, mean: Option<real>)

  // ----- one phase over several runs

  predicate Met(run: Run, level: int) { level in run && run[level].met }

  ghost predicate MetByAll(runs: seq<Run>, level: int) {
    forall r: Run | r in runs :: level in r && r[level].met
  }

  /** Some run tried the level. */
  ghost predicate Tried(runs: seq<Run>, level: int) { exists r | r in runs :: level in r }

  /** The levels tried, in ascending order, once each. */
  ghost predicate Configured(runs: seq<Run>, levels: seq<int>) {
    && (forall l :: l in levels <==> Tried(runs, l))
    && (forall i, j | 0 <= i < j < |levels| :: levels[i] < levels[j])
  }

  /** The prefix of `levels` that every run met, as long as it can be. */
  ghost predicate LongestMet(runs: seq<Run>, levels: seq<int>, n: nat) {
    && n <= |levels| && (forall i | 0 <= i < n :: MetByAll(runs, levels[i]))
    && (n < |levels| ==> !MetByAll(runs, levels[n]))
  }

  method Union(runs: seq<Run>) returns (all: set<int>)
    ensures forall l :: l in all <==> Tried(runs, l)
  {
    all := {};
    for i := 0 to |runs|
      invariant forall l :: l in all <==> Tried(runs[..i], l)
    {
      all := all + runs[i].Keys;
      assert runs[..i + 1] == runs[..i] + [runs[i]];
      forall l ensures l in all <==> Tried(runs[..i + 1], l) {
        assert Tried(runs[..i + 1], l) <==> Tried(runs[..i], l) || l in runs[i];
      }
    }
    assert runs[..|runs|] == runs;
  }

  method SortedLevels(all: set<int>) returns (levels: seq<int>)
    ensures forall l :: l in levels <==> l in all
    ensures forall i, j | 0 <= i < j < |levels| :: levels[i] < levels[j]
  {
    var rest := all;
    levels := [];
    while rest != {}
      invariant rest <= all && multiset(levels) == multiset(all - rest) && Sorted(levels, IntLe)
      decreases |rest|
    {
      ghost var some := Member(rest);
      var l :| l in rest;
      InsertAdds(l, levels, IntLe);
      InsertSorts(l, levels, IntLe);
      levels := Insert(l, levels, IntLe);
      assert all - (rest - {l}) == (all - rest) + {l};
      rest := rest - {l};
    }
    assert all - rest == all;
    Strict(levels, all);
  }

  lemma {:induction false} Strict(levels: seq<int>, all: set<int>)
    requires multiset(levels) == multiset(all) && Sorted(levels, IntLe)
    ensures forall l :: l in levels <==> l in all
    ensures forall i, j | 0 <= i < j < |levels| :: levels[i] < levels[j]
  {
    forall l ensures l in levels <==> l in all {
      assert l in levels <==> l in multiset(levels);
      assert l in all <==> l in multiset(all);
    }
    forall i, j | 0 <= i < j < |levels| ensures levels[i] < levels[j] {
      assert IntLe(levels[i], levels[j]);
      assert levels == levels[..j] + [levels[j]] + levels[j + 1..];
      assert levels[i] in levels[..j];
      assert multiset(levels)[levels[i]] >= multiset(levels[..j])[levels[i]] + multiset{levels[j]}[levels[i]];
      assert multiset(all)[levels[i]] <= 1;
    }
  }

  method AllMet(runs: seq<Run>, level: int) returns (b: bool)
    ensures b <==> MetByAll(runs, level)
  {
    for i := 0 to |runs|
      invariant forall k | 0 <= k < i :: Met(runs[k], level)
    {
      if !Met(runs[i], level) {
        return false;
      }
    }
    return true;
  }

  /** The result of a phase, said without the loop: the level is the last of the
      longest prefix that every run met, and the next one is the first that fails. */
  ghost predicate Measures(runs: seq<Run>, m: Measured) {
    exists levels, n :: MeasuresAt(runs, m, levels, n)
  }

  ghost predicate MeasuresAt(runs: seq<Run>, m: Measured, levels: seq<int>, n: nat) {
    && Configured(runs, levels) && LongestMet(runs, levels, n)
    && m.level == (if n == 0 then None else Some(levels[n - 1]))
    && m.firstFailing == (if n == |levels| then None else Some(levels[n]))
    && m.bound == (if n == 0 then None_ else if n < |levels| then Saturated else Lower)
  }

  function Total(rates: seq<real>): real {
    if rates == [] then 0.0 else Total(rates[..|rates| - 1]) + rates[|rates| - 1]
  }

  /** The rates that the runs accepted at a level they all met. */
  ghost function RatesAt(runs: seq<Run>, level: int): seq<real>
    requires MetByAll(runs, level)
  {
    seq(|runs|, i requires 0 <= i < |runs| => assert runs[i] in runs; runs[i][level].rate)
  }

  /** The least of the accepted rates and their mean, if there is a level. */
  ghost predicate Rated(runs: seq<Run>, m: Measured) {
    if m.level.None? then m.least == None && m.mean == None
    else
      && m.least.Some? && m.mean.Some? && MetByAll(runs, m.level.value)
      && var rates := RatesAt(runs, m.level.value);
         && m.least.value in rates && (forall r | r in rates :: m.least.value <= r)
         && m.mean.value * |rates| as real == Total(rates)
  }

  method Statistics(rates: seq<real>) returns (least: real, mean: real)
    requires rates != []
    ensures least in rates && (forall r | r in rates :: least <= r)
    ensures mean * |rates| as real == Total(rates)
  {
    least := rates[0];
    var total := 0.0;
    for i := 0 to |rates|
      invariant least in rates && forall k | 0 <= k < i :: least <= rates[k]
      invariant total == Total(rates[..i])
    {
      if rates[i] < least {
        least := rates[i];
      }
      assert rates[..i + 1][..i] == rates[..i];
      total := total + rates[i];
    }
    assert rates[..|rates|] == rates;
    mean := total / |rates| as real;
  }

  method Phase(runs: seq<Run>) returns (m: Measured)
    requires runs != []
    ensures Measures(runs, m) && Rated(runs, m)
  {
    var all := Union(runs);
    var configured := SortedLevels(all);
    var supported: Option<int>, failing: Option<int> := None, None;
    var n := 0;
    while n < |configured| && failing.None?
      invariant n <= |configured| && forall i | 0 <= i < n :: MetByAll(runs, configured[i])
      invariant supported == if n == 0 then None else Some(configured[n - 1])
      invariant failing.Some? ==> n < |configured| && failing.value == configured[n] && !MetByAll(runs, configured[n])
      decreases |configured| - n, if failing.None? then 1 else 0
    {
      var met := AllMet(runs, configured[n]);
      if met {
        supported := Some(configured[n]);
        n := n + 1;
      } else {
        failing := Some(configured[n]);
      }
    }
    var bound := if supported.None? then None_ else if failing.Some? then Saturated else Lower;
    m := Measured(supported, failing, bound, None, None);
    if supported.Some? {
      var rates := Rates(runs, supported.value);
      var least, mean := Statistics(rates);
      m := Measured(supported, failing, bound, Some(least), Some(mean));
    }
    assert MeasuresAt(runs, m, configured, n);
  }

  method Rates(runs: seq<Run>, level: int) returns (rates: seq<real>)
    requires MetByAll(runs, level)
    ensures rates == RatesAt(runs, level)
  {
    rates := [];
    for i := 0 to |runs|
      invariant |rates| == i && forall k | 0 <= k < i :: level in runs[k] && rates[k] == runs[k][level].rate
    {
      assert runs[i] in runs;
      rates := rates + [runs[i][level].rate];
    }
  }

  // ----- what the level means

  lemma {:induction false} PlaceOf(runs: seq<Run>, levels: seq<int>, l: int) returns (i: nat)
    requires Configured(runs, levels) && Tried(runs, l)
    ensures i < |levels| && levels[i] == l
  {
    hide Tried;
    assert l in levels;
    i :| 0 <= i < |levels| && levels[i] == l;
  }

  lemma {:induction false} PlaceIsTried(runs: seq<Run>, levels: seq<int>, i: nat)
    requires Configured(runs, levels) && i < |levels|
    ensures Tried(runs, levels[i])
  {
    hide Tried;
    assert levels[i] in levels;
  }

  lemma {:induction false} HighestAt(runs: seq<Run>, m: Measured, levels: seq<int>, n: nat, l: int)
    requires MeasuresAt(runs, m, levels, n)
    ensures SoundLevel(runs, l) ==> m.level.Some? && l <= m.level.value
    ensures m.level.Some? ==> SoundLevel(runs, m.level.value)
    ensures m.firstFailing.Some? ==> Tried(runs, m.firstFailing.value) && !MetByAll(runs, m.firstFailing.value)
    ensures Tried(runs, l) && !MetByAll(runs, l) ==> m.firstFailing.Some? && m.firstFailing.value <= l
  {
    hide Tried, MetByAll;
    if n < |levels| {
      PlaceIsTried(runs, levels, n);
    }
    if Tried(runs, l) {
      var i := PlaceOf(runs, levels, l);
    }
    if n > 0 {
      PlaceIsTried(runs, levels, n - 1);
      forall k | Tried(runs, k) && k <= levels[n - 1] ensures MetByAll(runs, k) {
        var i := PlaceOf(runs, levels, k);
      }
    }
  }

  /** The level, without lists: every run met it and everything tried below it,
      and no higher level has that property. */
  lemma {:induction false} LevelIsHighest(runs: seq<Run>, m: Measured, l: int)
    requires Measures(runs, m)
    ensures SoundLevel(runs, l) ==> m.level.Some? && l <= m.level.value
    ensures m.level.Some? ==> SoundLevel(runs, m.level.value)
    ensures m.firstFailing.Some? ==> Tried(runs, m.firstFailing.value) && !MetByAll(runs, m.firstFailing.value)
    ensures Tried(runs, l) && !MetByAll(runs, l) ==> m.firstFailing.Some? && m.firstFailing.value <= l
  {
    hide MeasuresAt, SoundLevel, Tried, MetByAll;
    var levels: seq<int>, n: nat :| MeasuresAt(runs, m, levels, n);
    HighestAt(runs, m, levels, n, l);
  }

  ghost predicate SoundLevel(runs: seq<Run>, l: int) {
    Tried(runs, l) && forall k | Tried(runs, k) && k <= l :: MetByAll(runs, k)
  }

  /** More runs never raise the level, nor the level that fails first. */
  lemma {:induction false} MoreRunsNeverRaise(few: seq<Run>, many: seq<Run>, a: Measured, b: Measured)
    requires few != [] && (forall r | r in few :: r in many) && Measures(few, a) && Measures(many, b)
    ensures b.level.Some? ==> a.level.Some? && b.level.value <= a.level.value
    ensures a.firstFailing.Some? ==> b.firstFailing.Some? && b.firstFailing.value <= a.firstFailing.value
  {
    hide Measures;
    assert many != [] by { assert few[0] in many; }
    forall k | Tried(few, k) ensures Tried(many, k) {
      var r :| r in few && k in r;
      assert r in many;
    }
    if b.level.Some? {
      var l := b.level.value;
      LevelIsHighest(many, b, l);
      assert few[0] in few && Met(few[0], l);
      LevelIsHighest(few, a, l);
    }
    if a.firstFailing.Some? {
      var f := a.firstFailing.value;
      LevelIsHighest(few, a, f);
      LevelIsHighest(many, b, f);
    }
  }

  // ----- the whole envelope

  function Levels(levels: seq<Level>): Run {
    if levels == [] then map[] else Levels(levels[..|levels| - 1])[levels[|levels| - 1].level := levels[|levels| - 1]]
  }

  /** Where a level is listed twice, the later listing counts. */
  lemma {:induction false} LevelsAreLast(levels: seq<Level>, l: int)
    ensures l in Levels(levels) <==> exists i | 0 <= i < |levels| :: levels[i].level == l
    ensures l in Levels(levels) ==> exists i :: LastAt(levels, l, i) && Levels(levels)[l] == levels[i]
    decreases |levels|
  {
    if levels != [] {
      var n := |levels| - 1;
      var init := levels[..n];
      LevelsAreLast(init, l);
      assert forall i | 0 <= i < n :: init[i] == levels[i];
      if levels[n].level == l {
        assert LastAt(levels, l, n);
      } else if l in Levels(init) {
        var i :| LastAt(init, l, i) && Levels(init)[l] == init[i];
        assert LastAt(levels, l, i);
      }
    }
  }

  ghost predicate LastAt(levels: seq<Level>, l: int, i: int) {
    && 0 <= i < |levels| && levels[i].level == l
    && forall j | i < j < |levels| :: levels[j].level != l
  }

  ghost predicate HasEntry(entries: seq<Entry>, signal: string, phase: string) {
    exists i :: 0 <= i < |entries| && entries[i].signal == signal && entries[i].phase == phase
  }

  /** The entry at `i` is the first of its signal and phase. */
  ghost predicate FirstAt(entries: seq<Entry>, signal: string, phase: string, i: int) {
    && 0 <= i < |entries| && entries[i].signal == signal && entries[i].phase == phase
    && forall j | 0 <= j < i :: entries[j].signal != signal || entries[j].phase != phase
  }

  function EntryOf(entries: seq<Entry>, signal: string, phase: string): (e: Entry)
    requires HasEntry(entries, signal, phase)
    ensures exists i :: FirstAt(entries, signal, phase, i) && entries[i] == e
  {
    if entries[0].signal == signal && entries[0].phase == phase then entries[0]
    else
      assert HasEntry(entries[1..], signal, phase) by {
        var i :| 0 <= i < |entries| && entries[i].signal == signal && entries[i].phase == phase;
        assert entries[1..][i - 1] == entries[i];
      }
      EntryOf(entries[1..], signal, phase)
  }

  ghost predicate AllHave(reports: seq<Report>, signal: string, phase: string) {
    forall i | 0 <= i < |reports| :: HasEntry(reports[i].entries, signal, phase)
  }

  /** The structural checks that every report has passed: an entry for each
      signal and phase. */
  ghost predicate Structural(reports: seq<Report>) {
    forall s, p | s in SIGNALS && p in STEPPED :: AllHave(reports, s, p)
  }

  ghost function RunsOf(reports: seq<Report>, signal: string, phase: string): seq<Run>
    requires AllHave(reports, signal, phase)
  {
    seq(|reports|, i requires 0 <= i < |reports| => Levels(EntryOf(reports[i].entries, signal, phase).levels))
  }

  predicate ObjectivesMet(report: Report) { forall e | e in report.entries && e.phase !in STEPPED :: e.met }

  /** Enough runs, all different, of one setup, that met what they had to. */
  ghost predicate OneEnvelope(reports: seq<Report>) {
    && |reports| >= 3
    && (forall i, j | 0 <= i < j < |reports| :: reports[i].runId != reports[j].runId)
    && (forall i | 0 <= i < |reports| :: reports[i].setup == reports[0].setup)
    && (forall i, e | 0 <= i < |reports| && e in reports[i].entries ::
          e.met || e.phase in {"burst", "high_cardinality"})
  }

  type Key = (string, string)

  ghost predicate Covers(reports: seq<Report>, result: map<Key, Measured>, signal: string, phase: string) {
    && AllHave(reports, signal, phase) && (signal, phase) in result
    && Measures(RunsOf(reports, signal, phase), result[(signal, phase)])
    && Rated(RunsOf(reports, signal, phase), result[(signal, phase)])
  }

  method SameEnvelope(reports: seq<Report>) returns (ok: bool)
    ensures ok <==> OneEnvelope(reports)
  {
    if |reports| < MIN_RUNS {
      return false;
    }
    var seen: set<string> := {};
    for i := 0 to |reports|
      invariant seen == set k | 0 <= k < i :: reports[k].runId
      invariant forall j, k | 0 <= j < k < i :: reports[j].runId != reports[k].runId
      invariant forall k | 0 <= k < i :: reports[k].setup == reports[0].setup
    {
      if reports[i].runId in seen || reports[i].setup != reports[0].setup {
        return false;
      }
      seen := seen + {reports[i].runId};
    }
    ok := forall i | 0 <= i < |reports| :: ObjectivesMet(reports[i]);
  }

  method MeasureAll(reports: seq<Report>) returns (measured: map<Key, Measured>)
    requires Structural(reports) && reports != []
    ensures forall s, p | s in SIGNALS && p in STEPPED :: Covers(reports, measured, s, p)
  {
    hide Covers, AllHave;
    measured := map[];
    for a := 0 to |SIGNALS|
      invariant forall i, j | 0 <= i < a && 0 <= j < |STEPPED| :: Covers(reports, measured, SIGNALS[i], STEPPED[j])
    {
      for b := 0 to |STEPPED|
        invariant forall i, j | 0 <= i < a && 0 <= j < |STEPPED| :: Covers(reports, measured, SIGNALS[i], STEPPED[j])
        invariant forall j | 0 <= j < b :: Covers(reports, measured, SIGNALS[a], STEPPED[j])
      {
        var signal, phase := SIGNALS[a], STEPPED[b];
        assert signal in SIGNALS && phase in STEPPED;
        var m := MeasureOne(reports, signal, phase);
        NamesDiffer(a, b);
        CoversMore(reports, measured, signal, phase, m);
        measured := measured[(signal, phase) := m];
      }
    }
  }

  method MeasureOne(reports: seq<Report>, signal: string, phase: string) returns (m: Measured)
    requires AllHave(reports, signal, phase) && reports != []
    ensures Measures(RunsOf(reports, signal, phase), m) && Rated(RunsOf(reports, signal, phase), m)
  {
    var runs := Collect(reports, signal, phase);
    m := Phase(runs);
  }

  lemma {:induction false} CoversMore(reports: seq<Report>, result: map<Key, Measured>, signal: string,
                                      phase: string, m: Measured)
    requires AllHave(reports, signal, phase)
    requires Measures(RunsOf(reports, signal, phase), m) && Rated(RunsOf(reports, signal, phase), m)
    ensures Covers(reports, result[(signal, phase) := m], signal, phase)
    ensures forall s, p | (s, p) != (signal, phase) ::
              Covers(reports, result[(signal, phase) := m], s, p) <==> Covers(reports, result, s, p)
  {
    hide AllHave, Measures, Rated;
  }

  /** More reports never raise a level of the envelope, nor one that fails first. */
  lemma {:induction false} MoreReportsNeverRaise(few: seq<Report>, many: seq<Report>, a: map<Key, Measured>,
                                                 b: map<Key, Measured>, signal: string, phase: string)
    requires few != [] && forall r | r in few :: r in many
    requires Covers(few, a, signal, phase) && Covers(many, b, signal, phase)
    ensures var was, is_ := a[(signal, phase)], b[(signal, phase)];
            && (is_.level.Some? ==> was.level.Some? && is_.level.value <= was.level.value)
            && (was.firstFailing.Some? ==> is_.firstFailing.Some? && is_.firstFailing.value <= was.firstFailing.value)
  {
    hide Measures, Rated, Levels, HasEntry;
    var before, after := RunsOf(few, signal, phase), RunsOf(many, signal, phase);
    forall r | r in before ensures r in after {
      var i :| 0 <= i < |before| && before[i] == r;
      assert few[i] in few;
      var j :| 0 <= j < |many| && many[j] == few[i];
      assert after[j] == r;
    }
    MoreRunsNeverRaise(before, after, a[(signal, phase)], b[(signal, phase)]);
  }

  /** There is an envelope exactly when the runs are of one, and it covers every
      signal and stepped phase. */
  method Envelope(reports: seq<Report>) returns (result: Option<map<Key, Measured>>)
    requires Structural(reports)
    ensures result.Some? <==> OneEnvelope(reports)
    ensures result.Some? ==>
              forall s, p | s in {"metrics", "logs", "traces", "profiles"} && p in {"burst", "high_cardinality"} ::
                Covers(reports, result.value, s, p)
  {
    hide Covers, Structural;
    var ok := SameEnvelope(reports);
    if !ok {
      return None;
    }
    var measured := MeasureAll(reports);
    result := Some(measured);
  }

  lemma {:induction false} NamesDiffer(a: nat, b: nat)
    requires a < |SIGNALS| && b < |STEPPED|
    ensures forall i | 0 <= i < a :: SIGNALS[i] != SIGNALS[a]
    ensures forall j | 0 <= j < b :: STEPPED[j] != STEPPED[b]
  {
    assert SIGNALS[0][0] == 'm' && SIGNALS[1][0] == 'l' && SIGNALS[2][0] == 't' && SIGNALS[3][0] == 'p';
    assert STEPPED[0][0] == 'b' && STEPPED[1][0] == 'h';
  }

  method Collect(reports: seq<Report>, signal: string, phase: string) returns (runs: seq<Run>)
    requires AllHave(reports, signal, phase)
    ensures runs == RunsOf(reports, signal, phase)
  {
    hide HasEntry;
    runs := [];
    for i := 0 to |reports|
      invariant |runs| == i
      invariant forall k | 0 <= k < i :: runs[k] == Levels(EntryOf(reports[k].entries, signal, phase).levels)
    {
      runs := runs + [Levels(EntryOf(reports[i].entries, signal, phase).levels)];
    }
  }
}
