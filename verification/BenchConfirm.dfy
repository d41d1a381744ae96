/** Confirming a regression by rerunning what regressed
    (tools/bench-ratchet.py:452-472, 526-598). */
module BenchConfirm {
  import opened Basics
  import opened Ordering
  import opened Lists
  import opened BenchRatchet

  /** A benchmark in the first verdict. */
  datatype Entry = Entry(name: string, class_: Class, mean: real, baseline: Option<real>)

  /** The first verdict, as its file reads: the thresholds may not be recorded. */
  datatype Previous = Previous(status: Option<Class>, entries: seq<Entry>, tolerance: Option<real>,
                               ceiling: Option<real>)

  // ----- the plan

  predicate IsIdChar(c: char) {
    'A' <= c <= 'Z' || 'a' <= c <= 'z' || '0' <= c <= '9' || c == '_' || c == '.' || c == '/' || c == '-'
  }

  /** The id pattern; its `$` also matches before a last newline. */
  predicate IsId(name: string) {
    var s := if name != "" && name[|name| - 1] == '\n' then name[..|name| - 1] else name;
    s != "" && forall c | c in s :: IsIdChar(c)
  }

  /** The part of an id before its first slash. */
  function Group(name: string): (group: string)
    ensures '/' !in group && (name == group || group + "/" <= name)
  {
    if name == "" || name[0] == '/' then "" else [name[0]] + Group(name[1..])
  }

  predicate Eligible(e: Entry, targets: map<string, string>) { Group(e.name) in targets && IsId(e.name) }

  lemma {:induction false} GroupIsUnique(name: string, group: string)
    requires '/' !in group && (name == group || group + "/" <= name)
    ensures Group(name) == group
  {
    if group != "" {
      assert name[0] == group[0] && group[0] in group;
      assert name[1..] == group[1..] || group[1..] + "/" <= name[1..];
      GroupIsUnique(name[1..], group[1..]);
    }
  }

  /** A target that is named after its group holds just the ids of that group. */
  lemma {:induction false} TargetIsGroup(name: string, target: string)
    requires '/' !in target
    ensures Under(name, Target(target)) <==> Group(name) == target
  {
    if Under(name, Target(target)) {
      GroupIsUnique(name, target);
    }
  }

  /** `[A-Za-z0-9_./-]+` */
  predicate IdText(s: string) {
    s != "" && forall i | 0 <= i < |s| ::
      'a' <= s[i] <= 'z' || 'A' <= s[i] <= 'Z' || '0' <= s[i] <= '9' || s[i] in {'_', '.', '/', '-'}
  }

  ghost predicate Matches(name: string) { exists s :: IdText(s) && (name == s || name == s + "\n") }

  lemma {:induction false} IdTextEnds(s: string)
    ensures IdText(s) <==> s != "" && forall c | c in s :: IsIdChar(c)
    ensures IdText(s) ==> s[|s| - 1] != '\n'
  {
    assert forall i | 0 <= i < |s| :: s[i] in s;
  }

  lemma {:induction false} IdMatches(name: string)
    ensures IsId(name) <==> Matches(name)
  {
    hide IdText, IsIdChar;
    var short := if name != "" && name[|name| - 1] == '\n' then name[..|name| - 1] else name;
    assert name == short || name == short + "\n";
    IdTextEnds(short);
    if s :| IdText(s) && (name == s || name == s + "\n") {
      IdTextEnds(s);
      assert s == short;
    }
  }

  ghost predicate GroupOf(name: string, group: string) { '/' !in group && (name == group || group + "/" <= name) }

  /** What can be rerun: ids that match the pattern, of a group that some target defines. */
  lemma {:induction false} EligibleMeans(e: Entry, targets: map<string, string>)
    ensures Eligible(e, targets) <==> Matches(e.name) && exists group :: group in targets && GroupOf(e.name, group)
  {
    hide IsId, Matches, Group;
    IdMatches(e.name);
    assert GroupOf(e.name, Group(e.name));
    if group :| group in targets && GroupOf(e.name, group) {
      GroupIsUnique(e.name, group);
    }
  }

  predicate HasRatio(e: Entry) { e.baseline.Some? && e.baseline.value != 0.0 }

  function Ratio(e: Entry): (r: real)
    ensures e.baseline.Some? && e.baseline.value != 0.0 ==> r * e.baseline.value == e.mean
  {
    if HasRatio(e) then e.mean / e.baseline.value else 0.0
  }

  predicate WorseFirst(a: Entry, b: Entry) { Ratio(a) >= Ratio(b) }

  function Regressed(entries: seq<Entry>): seq<Entry> {
    if entries == [] then []
    else
      var init, last := Regressed(entries[..|entries| - 1]), entries[|entries| - 1];
      if last.class_ == Regression then init + [last] else init
  }

  function Names(entries: seq<Entry>): (names: seq<string>)
    ensures |names| == |entries| && forall i | 0 <= i < |names| :: names[i] == entries[i].name
  {
    seq(|entries|, i requires 0 <= i < |entries| => entries[i].name)
  }

  /** The ids of one target, in plan order. */
  function ForTarget(chosen: seq<Entry>, targets: map<string, string>, target: string): seq<string> {
    if chosen == [] then []
    else
      var init, last := ForTarget(chosen[..|chosen| - 1], targets, target), chosen[|chosen| - 1];
      if Group(last.name) in targets && targets[Group(last.name)] == target then init + [last.name] else init
  }

  /** `chosen` are the `limit` worst of the eligible, `left` all the others. */
  ghost predicate Picks(regressed: seq<Entry>, targets: map<string, string>, limit: int, chosen: seq<Entry>,
                        left: seq<Entry>) {
    && multiset(chosen) + multiset(left) == multiset(regressed)
    && (forall e | e in chosen :: Eligible(e, targets))
    && |chosen| <= Max(limit, 0)
    && (forall e | e in left && Eligible(e, targets) ::
          |chosen| == Max(limit, 0) && forall c | c in chosen :: Ratio(c) >= Ratio(e))
  }

  ghost predicate WorstFirst(entries: seq<Entry>) {
    forall i, j | 0 <= i < j < |entries| :: Ratio(entries[i]) >= Ratio(entries[j])
  }

  ghost predicate Groups(chosen: seq<Entry>, targets: map<string, string>, plan: map<string, seq<string>>) {
    && (forall t :: t in plan <==> ForTarget(chosen, targets, t) != [])
    && (forall t | t in plan :: plan[t] == ForTarget(chosen, targets, t))
  }

  lemma {:induction false} ForTargetSnoc(chosen: seq<Entry>, e: Entry, targets: map<string, string>, t: string)
    requires Group(e.name) in targets
    ensures ForTarget(chosen + [e], targets, t) ==
            if targets[Group(e.name)] == t then ForTarget(chosen, targets, t) + [e.name]
            else ForTarget(chosen, targets, t)
  {
    assert (chosen + [e])[..|chosen|] == chosen;
  }

  lemma {:induction false} GroupsSnoc(chosen: seq<Entry>, e: Entry, targets: map<string, string>, plan: map<string,
                                      seq<string>>)
    requires Groups(chosen, targets, plan) && Group(e.name) in targets
    ensures var t := targets[Group(e.name)];
            Groups(chosen + [e], targets, plan[t := (if t in plan then plan[t] else []) + [e.name]])
  {
    hide ForTarget, Group;
    forall t ensures ForTarget(chosen + [e], targets, t) ==
            if targets[Group(e.name)] == t then ForTarget(chosen, targets, t) + [e.name]
            else ForTarget(chosen, targets, t)
    {
      ForTargetSnoc(chosen, e, targets, t);
    }
  }

  ghost predicate Picking(sorted: seq<Entry>, i: nat, targets: map<string, string>, limit: int, chosen: seq<Entry>,
                          left: seq<Entry>)
    requires i <= |sorted|
  {
    && Picks(sorted[..i], targets, limit, chosen, left)
    && forall c, j | c in chosen && i <= j < |sorted| :: WorseFirst(c, sorted[j])
  }

  lemma {:induction false} PickLeaves(sorted: seq<Entry>, i: nat, targets: map<string, string>, limit: int,
                                      chosen: seq<Entry>, left: seq<Entry>)
    requires i < |sorted| && Picking(sorted, i, targets, limit, chosen, left)
    requires !Eligible(sorted[i], targets) || |chosen| >= limit
    ensures Picking(sorted, i + 1, targets, limit, chosen, left + [sorted[i]])
  {
    hide Eligible, Ratio;
    assert sorted[..i + 1] == sorted[..i] + [sorted[i]];
  }

  lemma {:induction false} PickTakes(sorted: seq<Entry>, i: nat, targets: map<string, string>, limit: int,
                                     chosen: seq<Entry>, left: seq<Entry>)
    requires i < |sorted| && Sorted(sorted, WorseFirst) && Picking(sorted, i, targets, limit, chosen, left)
    requires Eligible(sorted[i], targets) && |chosen| < limit
    ensures Picking(sorted, i + 1, targets, limit, chosen + [sorted[i]], left)
  {
    hide Eligible, Ratio;
    assert sorted[..i + 1] == sorted[..i] + [sorted[i]];
  }

  /** The list is worst first, and all of it comes before the rest of `sorted`. */
  ghost predicate Ahead(entries: seq<Entry>, sorted: seq<Entry>, i: nat) {
    && WorstFirst(entries)
    && forall k, j | 0 <= k < |entries| && i <= j < |sorted| :: Ratio(entries[k]) >= Ratio(sorted[j])
  }

  lemma {:induction false} AheadSnoc(entries: seq<Entry>, sorted: seq<Entry>, i: nat)
    requires i < |sorted| && Sorted(sorted, WorseFirst) && Ahead(entries, sorted, i)
    ensures Ahead(entries + [sorted[i]], sorted, i + 1) && Ahead(entries, sorted, i + 1)
  {
    hide Ratio;
    var longer := entries + [sorted[i]];
    forall k, j | 0 <= k < |longer| && i < j < |sorted| ensures Ratio(longer[k]) >= Ratio(sorted[j]) {
      assert WorseFirst(sorted[i], sorted[j]);
    }
  }

  /** The plan and what it leaves out, or `None` when a regressed entry has no
      ratio to sort by and the sort raises. */
  method ConfirmPlan(entries: seq<Entry>, targets: map<string, string>, limit: int)
      returns (r: Option<(map<string, seq<string>>, seq<string>)>, ghost chosen: seq<Entry>, ghost left: seq<Entry>)
    ensures r.Some? <==> forall e | e in Regressed(entries) :: e.baseline.Some? && e.baseline.value != 0.0
    ensures r.Some? ==>
              && Picks(Regressed(entries), targets, limit, chosen, left)
              && Groups(chosen, targets, r.value.0) && r.value.1 == Names(left)
              && WorstFirst(chosen) && WorstFirst(left)
  {
    hide Eligible, Group, Sort, Names, Regressed;
    chosen, left := [], [];
    var regressed := Regressed(entries);
    if !(forall e | e in regressed :: HasRatio(e)) {
      return None, chosen, left;
    }
    var sorted := Sort(regressed, WorseFirst);
    SortPermutes(regressed, WorseFirst);
    SortSorts(regressed, WorseFirst);
    var plan: map<string, seq<string>>, skipped: seq<string>, planned := map[], [], 0;
    NothingNamed();
    for i := 0 to |sorted|
      invariant Picking(sorted, i, targets, limit, chosen, left)
      invariant Groups(chosen, targets, plan) && skipped == Names(left) && planned == |chosen|
      invariant Ahead(chosen, sorted, i) && Ahead(left, sorted, i)
    {
      var e := sorted[i];
      AheadSnoc(chosen, sorted, i);
      AheadSnoc(left, sorted, i);
      if !Eligible(e, targets) || planned >= limit {
        PickLeaves(sorted, i, targets, limit, chosen, left);
        NamesSnoc(left, e);
        skipped := skipped + [e.name];
        left := left + [e];
      } else {
        assert Group(e.name) in targets by { EligibleHasTarget(e, targets); }
        var target := targets[Group(e.name)];
        PickTakes(sorted, i, targets, limit, chosen, left);
        GroupsSnoc(chosen, e, targets, plan);
        plan := plan[target := (if target in plan then plan[target] else []) + [e.name]];
        chosen := chosen + [e];
        planned := planned + 1;
      }
    }
    assert sorted[..|sorted|] == sorted;
    r := Some((plan, skipped));
  }

  lemma {:induction false} EligibleHasTarget(e: Entry, targets: map<string, string>)
    requires Eligible(e, targets)
    ensures Group(e.name) in targets
  {
  }

  lemma {:induction false} NothingNamed()
    ensures Names([]) == []
  {
  }

  lemma {:induction false} NamesSnoc(s: seq<Entry>, e: Entry)
    ensures Names(s + [e]) == Names(s) + [e.name]
  {
  }

  // ----- the thresholds

  /** The recorded threshold, the given one when none is recorded, the default
      when neither; `None` when the two differ, which is refused. */
  function RecordedThreshold(recorded: Option<real>, given: Option<real>, default_: real): (r: Option<real>)
    ensures r.None? <==> recorded.Some? && given.Some? && given.value != recorded.value
    ensures recorded.Some? && r.Some? ==> r == recorded
    ensures recorded.None? ==> r == if given.Some? then given else Some(default_)
  {
    if recorded.None? then Some(if given.None? then default_ else given.value)
    else if given.Some? && given.value != recorded.value then None
    else recorded
  }

  const DEFAULT_TOLERANCE := 1.5
  const DEFAULT_CEILING := 0.25

  // ----- confirming

  datatype Outcome = UsageError | Crash | Done(class_: Class)

  /** What the rerun did: it failed, or it left these estimates. */
  datatype Rerun = Failed | Ran(run: Run)

  ghost function IdsOf(entries: seq<Entry>): set<string> { set i | 0 <= i < |entries| :: entries[i].name }

  function PlannedIds(plan: map<string, seq<string>>): set<string> {
    set t, n | t in plan && n in plan[t] :: n
  }

  lemma {:induction false} ForTargetMembers(chosen: seq<Entry>, targets: map<string, string>, t: string, n: string)
    ensures n in ForTarget(chosen, targets, t) <==>
            exists i :: 0 <= i < |chosen| && chosen[i].name == n && Group(n) in targets && targets[Group(n)] == t
    decreases |chosen|
  {
    hide Group;
    if chosen != [] {
      var k := |chosen| - 1;
      ForTargetMembers(chosen[..k], targets, t, n);
      assert forall i | 0 <= i < k :: chosen[..k][i] == chosen[i];
      if n in ForTarget(chosen[..k], targets, t) {
        var i :| 0 <= i < k && chosen[..k][i].name == n && Group(n) in targets && targets[Group(n)] == t;
        assert chosen[i].name == n;
      }
    }
  }

  lemma {:induction false} PlannedAreChosen(chosen: seq<Entry>, targets: map<string, string>, plan: map<string,
                                            seq<string>>)
    requires Groups(chosen, targets, plan) && forall e | e in chosen :: Eligible(e, targets)
    ensures PlannedIds(plan) == IdsOf(chosen)
  {
    hide Group, ForTarget, IsId;
    forall n | n in PlannedIds(plan) ensures n in IdsOf(chosen) {
      var t :| t in plan && n in plan[t];
      ForTargetMembers(chosen, targets, t, n);
    }
    forall n | n in IdsOf(chosen) ensures n in PlannedIds(plan) {
      var i :| 0 <= i < |chosen| && chosen[i].name == n;
      assert chosen[i] in chosen;
      var t := targets[Group(n)];
      ForTargetMembers(chosen, targets, t, n);
      assert n in plan[t];
    }
  }

  /** Every regressed benchmark can be rerun within the limit. */
  ghost predicate AllPlanned(regressed: seq<Entry>, targets: map<string, string>, limit: int) {
    |regressed| <= limit && forall e | e in regressed :: Eligible(e, targets)
  }

  lemma {:induction false} NothingLeft(regressed: seq<Entry>, targets: map<string, string>, limit: int,
                                       chosen: seq<Entry>, left: seq<Entry>)
    requires Picks(regressed, targets, limit, chosen, left)
    ensures left == [] <==> regressed == [] || AllPlanned(regressed, targets, limit)
    ensures left == [] ==> IdsOf(chosen) == IdsOf(regressed)
    ensures chosen == [] && left == [] <==> regressed == []
  {
    hide Eligible;
    assert |chosen| + |left| == |multiset(chosen) + multiset(left)| == |multiset(regressed)| == |regressed|;
    if left == [] {
      assert multiset(left) == multiset{};
      forall e ensures e in chosen <==> e in regressed {
        Members(chosen, regressed, e);
      }
      SameIds(chosen, regressed);
      SameIds(regressed, chosen);
    } else {
      assert left[0] in multiset(left) && left[0] in multiset(regressed);
      assert left[0] in regressed;
    }
  }

  lemma {:induction false} SameIds(a: seq<Entry>, b: seq<Entry>)
    requires forall e | e in a :: e in b
    ensures IdsOf(a) <= IdsOf(b)
  {
    forall n | n in IdsOf(a) ensures n in IdsOf(b) {
      var i :| 0 <= i < |a| && a[i].name == n;
      assert a[i] in a;
      var j :| 0 <= j < |b| && b[j] == a[i];
      assert b[j].name == n;
    }
  }

  /** A tight measurement over the budget. */
  ghost predicate Regresses(n: string, run: Run, baseline: Baseline, tolerance: real, ceiling: real) {
    && n in run && run[n].Measured? && n in baseline && baseline[n].Some?
    && run[n].mean > baseline[n].value * tolerance && run[n].spread <= ceiling
  }

  /** The rerun measured what it should and nothing regressed again. */
  ghost predicate NoneAgain(ids: set<string>, run: Run, baseline: Baseline, tolerance: real, ceiling: real) {
    Complete(run, baseline, Ids(ids)) && forall n | n in ids :: !Regresses(n, run, baseline, tolerance, ceiling)
  }

  /** The rerun measured what it should and something regressed again. */
  ghost predicate SomeAgain(ids: set<string>, run: Run, baseline: Baseline, tolerance: real, ceiling: real) {
    Complete(run, baseline, Ids(ids)) && exists n :: n in ids && Regresses(n, run, baseline, tolerance, ceiling)
  }

  method Confirm(previous: Previous, targets: map<string, string>, limit: int, rerun: Rerun, baseline: Baseline,
                 givenTolerance: Option<real>, givenCeiling: Option<real>)
      returns (outcome: Outcome, ghost chosen: seq<Entry>, ghost left: seq<Entry>)
    ensures previous.status.None? ==> outcome == UsageError
    ensures var regressed := Regressed(previous.entries);
            var tolerance := RecordedThreshold(previous.tolerance, givenTolerance, 1.5);
            var ceiling := RecordedThreshold(previous.ceiling, givenCeiling, 0.25);
            previous.status.Some? ==>
              if tolerance.None? || ceiling.None? then outcome == UsageError
              else if previous.status.value != Regression then outcome == Done(previous.status.value)
              else if exists e :: e in regressed && (e.baseline.None? || e.baseline.value == 0.0) then outcome == Crash
              else
                && outcome.Done? && outcome.class_ in {Variance, Regression, Incomplete} && Exit(outcome.class_) != 0
                && (outcome.class_ == Variance <==>
                      && regressed != [] && AllPlanned(regressed, targets, limit) && rerun.Ran?
                      && NoneAgain(IdsOf(regressed), rerun.run, baseline, tolerance.value, ceiling.value))
                && Picks(regressed, targets, limit, chosen, left)
                && (outcome.class_ == Regression <==>
                      && chosen != [] && rerun.Ran?
                      && SomeAgain(IdsOf(chosen), rerun.run, baseline, tolerance.value, ceiling.value))
  {
    hide Regressed, Picks, Groups, Complete, Classify;
    outcome, chosen, left := UsageError, [], [];
    if previous.status.None? {
      return;
    }
    var status := previous.status.value;
    var tolerance := RecordedThreshold(previous.tolerance, givenTolerance, DEFAULT_TOLERANCE);
    var ceiling := RecordedThreshold(previous.ceiling, givenCeiling, DEFAULT_CEILING);
    if tolerance.None? || ceiling.None? {
      return;
    }
    if status != Regression {
      outcome := Done(status);
      return;
    }
    var plan;
    plan, chosen, left := ConfirmPlan(previous.entries, targets, limit);
    if plan.None? {
      outcome := Crash;
      return;
    }
    var ids, skipped := PlannedIds(plan.value.0), plan.value.1;
    ghost var regressed := Regressed(previous.entries);
    assert ids == IdsOf(chosen) by {
      PickedAreEligible(regressed, targets, limit, chosen, left);
      PlannedAreChosen(chosen, targets, plan.value.0);
    }
    NothingLeft(regressed, targets, limit, chosen, left);
    var class_ := Incomplete;
    NoIdsNoEntries(chosen);
    if ids != {} && rerun.Ran? {
      var verdict := Judge(rerun.run, baseline, Ids(ids), tolerance.value, ceiling.value);
      Again(ids, rerun.run, baseline, tolerance.value, ceiling.value, verdict);
      class_ := verdict.status;
      if class_ == Pass || class_ == Noisy {
        class_ := Variance;
      }
    }
    if skipped != [] && class_ == Variance {
      class_ := Incomplete;
    }
    outcome := Done(class_);
  }

  lemma {:induction false} NoIdsNoEntries(chosen: seq<Entry>)
    ensures IdsOf(chosen) == {} <==> chosen == []
  {
    if chosen != [] {
      assert chosen[0].name in IdsOf(chosen);
    }
  }

  lemma {:induction false} PickedAreEligible(regressed: seq<Entry>, targets: map<string, string>, limit: int,
                                             chosen: seq<Entry>, left: seq<Entry>)
    requires Picks(regressed, targets, limit, chosen, left)
    ensures forall e | e in chosen :: Eligible(e, targets)
  {
  }

  lemma {:induction false} Again(ids: set<string>, run: Run, baseline: Baseline, tolerance: real, ceiling: real,
                                 v: Verdict)
    requires v.status == Incomplete <==> !Complete(run, baseline, Ids(ids))
    requires Complete(run, baseline, Ids(ids)) ==>
               Judged(run, baseline, Ids(ids), tolerance, ceiling, v) && IsWorst(v.classes, v.status)
    ensures v.status == Pass || v.status == Noisy <==> NoneAgain(ids, run, baseline, tolerance, ceiling)
    ensures v.status == Regression <==> SomeAgain(ids, run, baseline, tolerance, ceiling)
    ensures v.status != Variance
  {
    hide Classify;
    if Complete(run, baseline, Ids(ids)) {
      VerdictMeans(run, baseline, Ids(ids), tolerance, ceiling, v);
      forall n | n in ids && Regresses(n, run, baseline, tolerance, ceiling)
        ensures Slow(run, baseline, Ids(ids), tolerance, n)
      {
      }
    }
  }

  // ----- what `variance` is worth

  ghost predicate MeasuredFine(n: string, run: Run, baseline: Baseline, tolerance: real, ceiling: real) {
    n in run && run[n].Measured? && n in baseline && !Regresses(n, run, baseline, tolerance, ceiling)
  }

  /** Calling it variance means that every id was measured again and did not
      regress, exactly when the baseline lists every id. */
  lemma {:induction false} VarianceIsSound(ids: set<string>, run: Run, baseline: Baseline, tolerance: real,
                                           ceiling: real)
    requires NoneAgain(ids, run, baseline, tolerance, ceiling)
    ensures (forall n | n in ids :: MeasuredFine(n, run, baseline, tolerance, ceiling)) <==>
            (forall n | n in ids :: n in baseline)
  {
    hide Classify;
    forall n | n in ids ensures MeasuredFine(n, run, baseline, tolerance, ceiling) <==> n in baseline {
      assert Under(n, Ids(ids));
    }
  }

  /** An id that the baseline no longer lists, and the rerun did not measure, is
      never missed. */
  lemma {:induction false} UnlistedEscapes()
    ensures var run: Run := map["g/a" := Measured(1.0, 0.0)];
            var baseline: Baseline := map["g/a" := Some(1.0)];
            && NoneAgain({"g/a", "g/b"}, run, baseline, DEFAULT_TOLERANCE, DEFAULT_CEILING)
            && !MeasuredFine("g/b", run, baseline, DEFAULT_TOLERANCE, DEFAULT_CEILING)
  {
    var run: Run := map["g/a" := Measured(1.0, 0.0)];
    assert "g/a" in run && Under("g/a", Ids({"g/a", "g/b"}));
  }

  /** The file of a first verdict records its classes. */
  ghost predicate Records(previous: Previous, v: Verdict) {
    forall e | e in previous.entries :: e.name in v.classes && v.classes[e.name] == e.class_
  }

  lemma {:induction false} RegressedIsEntry(entries: seq<Entry>, e: Entry)
    requires e in Regressed(entries)
    ensures e in entries && e.class_ == Regression
    decreases |entries|
  {
    var k := |entries| - 1;
    if e in Regressed(entries[..k]) {
      RegressedIsEntry(entries[..k], e);
    }
  }

  /** With one baseline for both runs nothing escapes: a first run's regressions
      are called variance only when each was measured again and did not regress. */
  lemma {:induction false} SameBaselineIsSound(previous: Previous, first: Run, only: Only, v: Verdict,
                                               run: Run, baseline: Baseline, tolerance: real, ceiling: real, n: string)
    requires Complete(first, baseline, only) && Judged(first, baseline, only, tolerance, ceiling, v)
    requires Records(previous, v)
    requires NoneAgain(IdsOf(Regressed(previous.entries)), run, baseline, tolerance, ceiling)
    requires n in v.classes && v.classes[n] == Regression
    requires exists e :: e in previous.entries && e.name == n
    ensures MeasuredFine(n, run, baseline, tolerance, ceiling)
  {
    hide Classify, Regressed, IdsOf, Complete;
    var regressed := Regressed(previous.entries);
    var e :| e in previous.entries && e.name == n;
    EntryRegressed(previous.entries, e);
    forall m | m in IdsOf(regressed) ensures m in baseline {
      RegressedIsListed(previous, first, only, v, baseline, tolerance, ceiling, m);
    }
    VarianceIsSound(IdsOf(regressed), run, baseline, tolerance, ceiling);
  }

  lemma {:induction false} EntryRegressed(entries: seq<Entry>, e: Entry)
    requires e in entries && e.class_ == Regression
    ensures e in Regressed(entries) && e.name in IdsOf(Regressed(entries))
    decreases |entries|
  {
    var k := |entries| - 1;
    assert entries == entries[..k] + [entries[k]];
    var r := Regressed(entries);
    if e in entries[..k] {
      EntryRegressed(entries[..k], e);
    } else {
      assert r[|r| - 1] == e;
    }
    assert e in r;
    var i :| 0 <= i < |r| && r[i] == e;
    assert r[i].name in IdsOf(r);
  }

  lemma {:induction false} RegressedIsListed(previous: Previous, first: Run, only: Only, v: Verdict,
                                             baseline: Baseline,
                                             tolerance: real, ceiling: real, m: string)
    requires Complete(first, baseline, only) && Judged(first, baseline, only, tolerance, ceiling, v)
    requires Records(previous, v)
    requires m in IdsOf(Regressed(previous.entries))
    ensures m in baseline
  {
    hide Classify, Regressed;
    var r := Regressed(previous.entries);
    var i :| 0 <= i < |r| && r[i].name == m;
    RegressedIsEntry(previous.entries, r[i]);
    assert m in v.classes;
  }
}
