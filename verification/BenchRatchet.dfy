/** The benchmark gate: what a run must have measured, each benchmark's class and
    the run's (tools/bench-ratchet.py:237-247, 258-300, 310-399). */
module BenchRatchet {
  import opened Basics

  datatype Class = Pass | Noisy | Variance | Regression | Incomplete

  function Rank(c: Class): nat {
    match c
    case Pass => 0
    case Noisy => 1
    case Variance => 2
    case Regression => 3
    case Incomplete => 4
  }

  /** A job passes on a pass alone, and fails for good on a regression alone. */
  function Exit(c: Class): (code: nat)
    ensures code == 0 <==> c == Pass
    ensures code == 1 <==> c == Regression
    ensures code == 3 <==> c == Incomplete
    ensures code == 4 <==> c == Noisy || c == Variance
  {
    match c
    case Pass => 0
    case Noisy => 4
    case Variance => 4
    case Regression => 1
    case Incomplete => 3
  }

  datatype Estimate = Measured(mean: real, spread: real) | Unreadable

  type Baseline = map<string, Option<real>>
  type Run = map<string, Estimate>

  /** Which benchmarks are judged: all, one bench target's, or the ids listed. */
  datatype Only = Everything | Target(name: string) | Ids(ids: set<string>)

  predicate Under(name: string, only: Only) {
    match only
    case Everything => true
    case Target(t) => name == t || t + "/" <= name
    case Ids(ids) => name in ids
  }

  /** A benchmark's class: a measurement too wide to gate on never regresses. */
  function Classify(e: Estimate, allowed: Option<real>, tolerance: real, ceiling: real): (c: Class)
    requires e.Measured?
    ensures c == Regression <==> OverBudget(e, allowed, tolerance) && e.spread <= ceiling
    ensures c == Noisy <==> OverBudget(e, allowed, tolerance) && e.spread > ceiling
    ensures c == Pass <==> !OverBudget(e, allowed, tolerance)
  {
    if allowed.None? || e.mean <= allowed.value * tolerance then Pass
    else if e.spread > ceiling then Noisy
    else Regression
  }

  /** Slower than the baseline allows; without a number there, nothing is. */
  predicate OverBudget(e: Estimate, allowed: Option<real>, tolerance: real)
    requires e.Measured?
  {
    allowed.Some? && e.mean > allowed.value * tolerance
  }

  datatype Verdict = Verdict(status: Class, classes: map<string, Class>)

  /** The run measured what the baseline lists, neither more nor less, all of it
      readable, and not nothing. */
  ghost predicate Complete(run: Run, baseline: Baseline, only: Only) {
    && (forall n | Under(n, only) :: n in run <==> n in baseline)
    && (forall n | n in run && Under(n, only) :: run[n].Measured?)
    && exists n :: n in run && Under(n, only)
  }

  ghost predicate Judged(run: Run, baseline: Baseline, only: Only, tolerance: real, ceiling: real, v: Verdict)
    requires Complete(run, baseline, only)
  {
    && (forall n :: n in v.classes <==> n in run && Under(n, only))
    && (forall n | n in v.classes :: v.classes[n] == Classify(run[n], baseline[n], tolerance, ceiling))
  }

  /** A collection's worst class: it is among them, and none ranks higher. */
  ghost predicate IsWorst(classes: map<string, Class>, c: Class) {
    && (forall n | n in classes :: Rank(classes[n]) <= Rank(c))
    && (if classes.Keys == {} then c == Pass else exists n :: n in classes && classes[n] == c)
  }

  method Worst(classes: map<string, Class>) returns (c: Class)
    ensures IsWorst(classes, c)
  {
    c := Pass;
    var rest := classes.Keys;
    var started := false;
    while rest != {}
      invariant rest <= classes.Keys && (started <==> rest != classes.Keys)
      invariant forall n | n in classes.Keys - rest :: Rank(classes[n]) <= Rank(c)
      invariant if started then exists n :: n in classes.Keys - rest && classes[n] == c else c == Pass
      decreases |rest|
    {
      var n :| n in rest;
      if !started || Rank(classes[n]) > Rank(c) {
        c := classes[n];
        assert n in classes.Keys - (rest - {n}) && classes[n] == c;
      } else {
        var m :| m in classes.Keys - rest && classes[m] == c;
        assert m in classes.Keys - (rest - {n});
      }
      assert n !in rest - {n};
      rest := rest - {n};
      started := true;
    }
  }

  /** The ratchet over what was measured, benchmark by benchmark. */
  method Gate(measured: Run, baseline: Baseline, tolerance: real, ceiling: real) returns (classes: map<string, Class>)
    requires forall n | n in measured :: measured[n].Measured? && n in baseline
    ensures classes.Keys == measured.Keys
    ensures forall n | n in measured :: classes[n] == Classify(measured[n], baseline[n], tolerance, ceiling)
  {
    classes := map[];
    var rest := measured.Keys;
    while rest != {}
      invariant rest <= measured.Keys && classes.Keys == measured.Keys - rest
      invariant forall n | n in classes :: classes[n] == Classify(measured[n], baseline[n], tolerance, ceiling)
      decreases |rest|
    {
      var n :| n in rest;
      rest := rest - {n};
      var mean, spread, allowed := measured[n].mean, measured[n].spread, baseline[n];
      classes := classes[n := Pass];
      if allowed.None? {
        continue;
      }
      var budget := allowed.value * tolerance;
      if spread > ceiling {
        if mean > budget {
          classes := classes[n := Noisy];
        }
        continue;
      }
      if mean > budget {
        classes := classes[n := Regression];
      }
    }
  }

  /** A slower measurement never improves a benchmark's class, and a looser
      tolerance never catches a regression that a tighter one missed. */
  lemma {:induction false} SlowerIsNeverBetter(mean: real, slower: real, spread: real, allowed: Option<real>,
                                               tolerance: real, looser: real, ceiling: real)
    requires mean <= slower && tolerance <= looser && (allowed.Some? ==> allowed.value >= 0.0)
    ensures Rank(Classify(Measured(mean, spread), allowed, tolerance, ceiling))
            <= Rank(Classify(Measured(slower, spread), allowed, tolerance, ceiling))
    ensures Rank(Classify(Measured(mean, spread), allowed, looser, ceiling))
            <= Rank(Classify(Measured(mean, spread), allowed, tolerance, ceiling))
  {
    if allowed.Some? {
      assert allowed.value * looser - allowed.value * tolerance == allowed.value * (looser - tolerance);
    }
  }

  method Judge(run: Run, baseline: Baseline, only: Only, tolerance: real, ceiling: real) returns (v: Verdict)
    ensures v.status == Incomplete <==> !Complete(run, baseline, only)
    ensures v.status == Incomplete ==> v.classes == map[]
    ensures Complete(run, baseline, only) ==>
              Judged(run, baseline, only, tolerance, ceiling, v) && IsWorst(v.classes, v.status)
    ensures Complete(run, baseline, only) ==> MeansWhatItSays(run, baseline, only, tolerance, ceiling, v.status)
  {
    hide Classify, MeansWhatItSays, Under;
    var expected := set n | n in baseline && Under(n, only);
    var found := set n | n in run && Under(n, only);
    if expected != found || found == {} || !(forall n | n in found :: run[n].Measured?) {
      NotComplete(run, baseline, only, expected, found);
      return Verdict(Incomplete, map[]);
    }
    IsComplete(run, baseline, only, expected, found);
    var measured := map n | n in found :: run[n];
    var classes := Gate(measured, baseline, tolerance, ceiling);
    var status := Worst(classes);
    assert status != Incomplete by {
      assert classes.Keys == found;
    }
    v := Verdict(status, classes);
    VerdictMeans(run, baseline, only, tolerance, ceiling, v);
  }

  /** A benchmark that is judged was slower than its baseline allows. */
  ghost predicate Slow(run: Run, baseline: Baseline, only: Only, tolerance: real, n: string)
    requires Complete(run, baseline, only)
  {
    n in run && Under(n, only) && baseline[n].Some? && run[n].mean > baseline[n].value * tolerance
  }

  /** The verdict on the numbers: a regression if some benchmark was slow and measured
      tightly, a pass if none was slow, and noisy in between. */
  ghost predicate MeansWhatItSays(run: Run, baseline: Baseline, only: Only, tolerance: real, ceiling: real,
                                  status: Class)
    requires Complete(run, baseline, only)
  {
    && (status == Regression <==>
          exists n :: Slow(run, baseline, only, tolerance, n) && run[n].spread <= ceiling)
    && (status == Pass <==> forall n :: !Slow(run, baseline, only, tolerance, n))
    && status in {Pass, Noisy, Regression}
  }

  lemma {:induction false} VerdictMeans(run: Run, baseline: Baseline, only: Only, tolerance: real, ceiling: real,
                                        v: Verdict)
    requires Complete(run, baseline, only) && Judged(run, baseline, only, tolerance, ceiling, v)
    requires IsWorst(v.classes, v.status)
    ensures MeansWhatItSays(run, baseline, only, tolerance, ceiling, v.status)
  {
    hide Classify;
    assert v.classes.Keys != {} by {
      var n :| n in run && Under(n, only);
      assert n in v.classes;
    }
    var worst :| worst in v.classes && v.classes[worst] == v.status;
    forall n ensures Slow(run, baseline, only, tolerance, n) <==> n in v.classes && v.classes[n] != Pass {
    }
  }

  lemma {:induction false} IsComplete(run: Run, baseline: Baseline, only: Only, expected: set<string>,
                                      found: set<string>)
    requires expected == (set n | n in baseline && Under(n, only)) && found == (set n | n in run && Under(n, only))
    requires expected == found && found != {} && forall n | n in found :: run[n].Measured?
    ensures Complete(run, baseline, only)
  {
    forall n | Under(n, only) ensures n in run <==> n in baseline {
      assert n in found <==> n in expected;
    }
    var n :| n in found;
    assert n in run && Under(n, only);
  }

  lemma {:induction false} NotComplete(run: Run, baseline: Baseline, only: Only, expected: set<string>,
                                       found: set<string>)
    requires expected == (set n | n in baseline && Under(n, only)) && found == (set n | n in run && Under(n, only))
    requires expected != found || found == {} || !(forall n | n in found :: run[n].Measured?)
    ensures !Complete(run, baseline, only)
  {
    assert forall n :: n in found <==> n in run && Under(n, only);
    assert forall n :: n in expected <==> n in baseline && Under(n, only);
  }
}
