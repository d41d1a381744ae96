/** The backup protocol of the mutant verifier: one atomic file step at a time,
    killed at any point and started again any number of times
    (tools/verify-mutants.py:43-51, 75-145). */
module MutantVerifier {
  import opened Basics
  import opened Replacement

  datatype Case = Case(old_: string, new_: string)

  datatype Spec = Spec(marker: string, wanted: Option<int>, cases: seq<Case>)

  /** Where the program is; `Down` is no program running. */
  datatype Program =
    | Down
    | AtCheck(spec: Spec)
    | AtRestoreCopy(spec: Spec)
    | AtRestoreRemove(spec: Spec)
    | AtRead(spec: Spec)
    | AtBackup(spec: Spec, original: string, span: Span)
    | AtCase(spec: Spec, original: string, span: Span, next: nat)
    | AtTest(spec: Spec, original: string, span: Span, next: nat)
    | AtFinalCopy
    | AtFinalRemove

  /** The source file, its backup if there is one, and the program. */
  datatype State = State(path: string, backup: Option<string>, program: Program)

  /** A step of the program, except that a start names its spec, and that a run
      can be interrupted, which runs the `finally`, or killed, which does not. */
  datatype Step = Start(spec: Spec) | Go | Interrupt | Kill

  predicate Enabled(s: State, step: Step) {
    match step
    case Start(_) => s.program.Down?
    case Go => !s.program.Down?
    case Interrupt => s.program.AtCase? || s.program.AtTest?
    case Kill => !s.program.Down?
  }

  function Patched(original: string, span: Span, c: Case): Option<string> {
    if span.start <= span.end <= |original| then
      var body := Patch(original[span.start..span.end], c.old_, c.new_);
      if body.None? then None else Some(original[..span.start] + body.value + original[span.end..])
    else None
  }

  /** What the program does next. */
  function Advance(s: State): State
    requires !s.program.Down?
  {
    match s.program
    case AtCheck(spec) => s.(program := if s.backup.Some? then AtRestoreCopy(spec) else AtRead(spec))
    case AtRestoreCopy(spec) =>
      if s.backup.None? then s.(program := Down) else s.(path := s.backup.value, program := AtRestoreRemove(spec))
    case AtRestoreRemove(spec) => s.(backup := None, program := AtRead(spec))
    case AtRead(spec) =>
      var span := Locate(s.path, spec.marker, spec.wanted);
      s.(program := if span.None? then Down else AtBackup(spec, s.path, span.value))
    case AtBackup(spec, original, span) => s.(backup := Some(s.path), program := AtCase(spec, original, span, 0))
    case AtCase(spec, original, span, next) =>
      if next >= |spec.cases| then s.(program := AtFinalCopy)
      else
        var patched := Patched(original, span, spec.cases[next]);
        if patched.None? then s.(program := AtCase(spec, original, span, next + 1))
        else s.(path := patched.value, program := AtTest(spec, original, span, next))
    case AtTest(spec, original, span, next) => s.(program := AtCase(spec, original, span, next + 1))
    case AtFinalCopy =>
      if s.backup.None? then s.(program := Down) else s.(path := s.backup.value, program := AtFinalRemove)
    case AtFinalRemove => s.(backup := None, program := Down)
  }

  function Apply(s: State, step: Step): State
    requires Enabled(s, step)
  {
    match step
    case Start(spec) => s.(program := AtCheck(spec))
    case Go => Advance(s)
    case Interrupt => s.(program := AtFinalCopy)
    case Kill => s.(program := Down)
  }

  ghost predicate Reaches(s: State, steps: seq<Step>, t: State)
    decreases |steps|
  {
    if steps == [] then s == t
    else Enabled(s, steps[0]) && Reaches(Apply(s, steps[0]), steps[1..], t)
  }

  // ----- the original is never lost

  ghost predicate Inv(s: State, source: string) {
    && (s.backup == None || s.backup == Some(source))
    && (s.backup == None ==> s.path == source)
    && match s.program
       case Down => true
       case AtCheck(_) => true
       case AtRestoreCopy(_) => s.backup.Some?
       case AtRestoreRemove(_) => s.backup.Some? && s.path == source
       case AtRead(_) => s.backup.None?
       case AtBackup(spec, original, span) =>
         s.backup.None? && original == source && Locate(source, spec.marker, spec.wanted) == Some(span)
       case AtCase(spec, original, span, _) =>
         s.backup.Some? && original == source && Locate(source, spec.marker, spec.wanted) == Some(span)
       case AtTest(spec, original, span, next) =>
         && s.backup.Some? && original == source && Locate(source, spec.marker, spec.wanted) == Some(span)
         && next < |spec.cases| && Patched(source, span, spec.cases[next]) == Some(s.path)
       case AtFinalCopy => s.backup.Some?
       case AtFinalRemove => s.backup.Some? && s.path == source
  }

  /** The cases and their tests. */
  lemma {:induction false} CaseKeepsInv(s: State, source: string)
    requires Inv(s, source) && (s.program.AtCase? || s.program.AtTest?)
    ensures Inv(Advance(s), source)
  {
    hide Locate, Patched;
    if s.program.AtCase? && s.program.next < |s.program.spec.cases| {
      var patched := Patched(s.program.original, s.program.span, s.program.spec.cases[s.program.next]);
      assert patched.None? ==> Advance(s).program.AtCase?;
    }
  }

  lemma {:induction false} AdvanceKeepsInv(s: State, source: string)
    requires Inv(s, source) && !s.program.Down?
    ensures Inv(Advance(s), source)
  {
    hide Locate, Patched;
    if s.program.AtCase? || s.program.AtTest? {
      hide *;
      CaseKeepsInv(s, source);
    }
  }

  lemma {:induction false} StepKeepsInv(s: State, step: Step, source: string)
    requires Inv(s, source) && Enabled(s, step)
    ensures Inv(Apply(s, step), source)
  {
    hide Locate, Patched, Advance;
    if step.Go? {
      AdvanceKeepsInv(s, source);
    }
  }

  lemma {:induction false} RunKeepsInv(s: State, steps: seq<Step>, t: State, source: string)
    requires Inv(s, source) && Reaches(s, steps, t)
    ensures Inv(t, source)
    decreases |steps|
  {
    hide Inv, Enabled, Apply;
    if steps != [] {
      StepKeepsInv(s, steps[0], source);
      RunKeepsInv(Apply(s, steps[0]), steps[1..], t, source);
    }
  }

  function Untouched(source: string): State { State(source, None, Down) }

  /** However often the tool is started, interrupted and killed, the source is in
      the file or in the backup. */
  lemma {:induction false} SourceIsKept(source: string, steps: seq<Step>, t: State)
    requires Reaches(Untouched(source), steps, t)
    ensures t.path == source || t.backup == Some(source)
  {
    RunKeepsInv(Untouched(source), steps, t, source);
  }

  /** Every run that reads a baseline reads the original. */
  lemma {:induction false} BaselineIsSource(source: string, steps: seq<Step>, t: State)
    requires Reaches(Untouched(source), steps, t) && t.program.AtRead?
    ensures t.path == source
  {
    RunKeepsInv(Untouched(source), steps, t, source);
  }

  /** Every source under test is the original with one replacement, inside the
      function that the marker names. */
  lemma {:induction false} TestedIsOneReplacement(source: string, steps: seq<Step>, t: State) returns (i: nat)
    requires Reaches(Untouched(source), steps, t) && t.program.AtTest?
    ensures t.program.next < |t.program.spec.cases|
    ensures var spec := t.program.spec;
            var span, c := Locate(source, spec.marker, spec.wanted), spec.cases[t.program.next];
            span.Some? && OneReplacement(source, span.value.start, span.value.end, c.old_, c.new_, t.path, i)
  {
    hide Patch, OneReplacement, Locate;
    RunKeepsInv(Untouched(source), steps, t, source);
    var span, c := t.program.span, t.program.spec.cases[t.program.next];
    LocateMeans(source, t.program.spec.marker, t.program.spec.wanted, span);
    i := PatchIsOneReplacement(source, span.start, span.end, c.old_, c.new_);
  }

  /** A run that is not killed, interrupted or not, leaves the file as it was and
      no backup: the two steps of its `finally` see to that. */
  lemma {:induction false} FinallyRestores(source: string, steps: seq<Step>, t: State)
    requires Reaches(Untouched(source), steps, t) && t.program.AtFinalCopy?
    ensures Advance(t).program.AtFinalRemove? && Advance(Advance(t)) == Untouched(source)
  {
    RunKeepsInv(Untouched(source), steps, t, source);
  }

  /** An interrupt reaches the program while it works on the cases, and the two steps that
      follow put everything back. */
  lemma {:induction false} InterruptRestores(source: string, steps: seq<Step>, t: State)
    requires Reaches(Untouched(source), steps, t) && (t.program.AtCase? || t.program.AtTest?)
    ensures Enabled(t, Interrupt)
    ensures var s := Apply(t, Interrupt);
            s.program.AtFinalCopy? && Advance(s).program.AtFinalRemove? && Advance(Advance(s)) == Untouched(source)
  {
    hide Locate, Patched;
    RunKeepsInv(Untouched(source), steps, t, source);
  }

  /** A kill can come at any time, and loses neither the file nor the backup. */
  lemma {:induction false} KillKeeps(source: string, steps: seq<Step>, t: State)
    requires Reaches(Untouched(source), steps, t) && !t.program.Down?
    ensures Enabled(t, Kill) && Apply(t, Kill) == State(t.path, t.backup, Down)
    ensures t.backup == Some(source) || (t.backup == None && t.path == source)
  {
    hide Locate, Patched;
    RunKeepsInv(Untouched(source), steps, t, source);
  }

  /** And after any kill the next start brings the original back before it reads
      anything: at most three steps. */
  lemma {:induction false} RestartRecovers(source: string, steps: seq<Step>, t: State, spec: Spec)
    requires Reaches(Untouched(source), steps, t) && t.program.Down?
    ensures var started := Advance(Apply(t, Start(spec)));
            if t.backup.None? then started == State(source, None, AtRead(spec))
            else !started.program.Down? && !Advance(started).program.Down?
                 && Advance(Advance(started)) == State(source, None, AtRead(spec))
  {
    RunKeepsInv(Untouched(source), steps, t, source);
  }

  // ----- a run that nothing stops

  /** The sources that a run tests, skipped cases left out. */
  function Tested(original: string, span: Span, cases: seq<Case>): seq<string> {
    if cases == [] then []
    else
      var init, last := Tested(original, span, cases[..|cases| - 1]), Patched(original, span, cases[|cases| - 1]);
      if last.None? then init else init + [last.value]
  }

  /** One source for each case that applies, and in the order of the cases. */
  lemma {:induction false} TestedAre(original: string, span: Span, cases: seq<Case>)
    returns (places: seq<nat>)
    ensures |places| == |Tested(original, span, cases)|
    ensures forall i, j | 0 <= i < j < |places| :: places[i] < places[j]
    ensures forall i | 0 <= i < |places| ::
              && places[i] < |cases|
              && Patched(original, span, cases[places[i]]) == Some(Tested(original, span, cases)[i])
    ensures forall k: nat | k < |cases| && Patched(original, span, cases[k]).Some? :: k in places
    decreases |cases|
  {
    hide Patched;
    if cases == [] {
      places := [];
    } else {
      var n := |cases| - 1;
      var init := cases[..n];
      places := TestedAre(original, span, init);
      assert forall k | 0 <= k < n :: init[k] == cases[k];
      if Patched(original, span, cases[n]).Some? {
        places := places + [n];
      }
    }
  }

  /** States of the program that follow one another, nothing stopping it. */
  ghost predicate Undisturbed(states: seq<State>) {
    && states != []
    && (|states| == 1
        || (!states[0].program.Down? && states[1] == Advance(states[0]) && Undisturbed(states[1..])))
  }

  /** What is in the file each time the tests run. */
  ghost function TestedIn(states: seq<State>): seq<string> {
    if states == [] then []
    else (if states[0].program.AtTest? then [states[0].path] else []) + TestedIn(states[1..])
  }

  lemma {:induction false} StepFirst(s: State, states: seq<State>) returns (longer: seq<State>)
    requires Undisturbed(states) && !s.program.Down? && states[0] == Advance(s)
    ensures Undisturbed(longer) && longer[0] == s && longer[|longer| - 1] == states[|states| - 1]
    ensures TestedIn(longer) == (if s.program.AtTest? then [s.path] else []) + TestedIn(states)
  {
    hide Advance;
    longer := [s] + states;
    assert longer[1..] == states && longer[0] == s && longer[1] == states[0];
  }

  lemma {:induction false} Restores(source: string, path: string) returns (states: seq<State>)
    ensures Undisturbed(states) && states[0] == State(path, Some(source), AtFinalCopy)
    ensures states[|states| - 1] == Untouched(source) && TestedIn(states) == []
  {
    states := [Untouched(source)];
    assert TestedIn(states) == [];
    states := StepFirst(State(source, Some(source), AtFinalRemove), states);
    states := StepFirst(State(path, Some(source), AtFinalCopy), states);
  }

  lemma {:induction false} TestsFrom(source: string, path: string, spec: Spec, span: Span, k: nat)
    returns (states: seq<State>)
    requires k <= |spec.cases|
    ensures Undisturbed(states) && states[0] == State(path, Some(source), AtCase(spec, source, span, k))
    ensures states[|states| - 1] == Untouched(source)
    ensures Tested(source, span, spec.cases) == Tested(source, span, spec.cases[..k]) + TestedIn(states)
    decreases |spec.cases| - k
  {
    hide Patched, Undisturbed, TestedIn;
    var here := State(path, Some(source), AtCase(spec, source, span, k));
    if k == |spec.cases| {
      assert spec.cases[..k] == spec.cases;
      states := Restores(source, path);
      states := StepFirst(here, states);
    } else {
      assert spec.cases[..k + 1][..k] == spec.cases[..k];
      var patched := Patched(source, span, spec.cases[k]);
      if patched.None? {
        states := TestsFrom(source, path, spec, span, k + 1);
      } else {
        states := TestsFrom(source, patched.value, spec, span, k + 1);
        states := StepFirst(State(patched.value, Some(source), AtTest(spec, source, span, k)), states);
      }
      states := StepFirst(here, states);
    }
  }

  /** A run that nothing stops tests every case that applies, in order, and leaves the
      source in its file; one that finds no function to change touches nothing. */
  lemma {:induction false} UndisturbedRun(source: string, spec: Spec) returns (states: seq<State>)
    ensures Undisturbed(states) && states[0] == Apply(Untouched(source), Start(spec))
    ensures states[|states| - 1] == Untouched(source)
    ensures var span := Locate(source, spec.marker, spec.wanted);
            TestedIn(states) == if span.None? then [] else Tested(source, span.value, spec.cases)
  {
    hide Locate, Patched, Tested, Undisturbed, TestedIn;
    var span := Locate(source, spec.marker, spec.wanted);
    if span.None? {
      states := JustDown(source);
    } else {
      states := TestsFrom(source, source, spec, span.value, 0);
      assert spec.cases[..0] == [] && Tested(source, span.value, []) == [] by { NoneTested(source, span.value); }
      states := StepFirst(State(source, None, AtBackup(spec, source, span.value)), states);
    }
    states := StepFirst(State(source, None, AtRead(spec)), states);
    states := StepFirst(State(source, None, AtCheck(spec)), states);
  }

  lemma {:induction false} JustDown(source: string) returns (states: seq<State>)
    ensures Undisturbed(states) && states == [Untouched(source)] && TestedIn(states) == []
  {
    states := [Untouched(source)];
    assert TestedIn(states[1..]) == [];
  }

  lemma {:induction false} NoneTested(source: string, span: Span)
    ensures Tested(source, span, []) == []
  {
  }

  class Files {
    var path: string
    var backup: Option<string>

    /** The whole tool. Whatever it tests, it leaves the baseline in place, which
        is the backup of a killed run if there was one. */
    method Verify(spec: Spec) returns (tested: seq<string>)
      modifies this
      ensures path == (if old(backup).Some? then old(backup.value) else old(path)) && backup == None
      ensures var span := Locate(path, spec.marker, spec.wanted);
              tested == if span.None? then [] else Tested(path, span.value, spec.cases)
    {
      hide Locate, Patched;
      tested := [];
      if backup.Some? {
        path := backup.value;
        backup := None;
      }
      var original := path;
      var span := Locate(original, spec.marker, spec.wanted);
      if span.None? {
        return;
      }
      backup := Some(path);
      for k := 0 to |spec.cases|
        invariant backup == Some(original)
        invariant tested == Tested(original, span.value, spec.cases[..k])
      {
        assert spec.cases[..k + 1][..k] == spec.cases[..k];
        var patched := Patched(original, span.value, spec.cases[k]);
        if patched.Some? {
          path := patched.value;
          tested := tested + [path];
        }
      }
      assert spec.cases[..|spec.cases|] == spec.cases;
      path := backup.value;
      backup := None;
    }
  }
}
