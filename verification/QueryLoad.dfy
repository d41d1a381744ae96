/** The fixed-rate query load of the deployment envelope
    (tools/deployment-envelope.py:560-628) as a system of steps: the scheduling
    thread, the semaphore, and the pool's workers, in any interleaving. A request
    is named by the index of its arrival. */
module QueryLoad {
  import opened Basics

  // ----- which arrivals there are

  function Ceil(x: real): int { -((-x).Floor) }

  function FirstIndex(started: real, begin: real, rate: real): int { -(((begin - started) * rate).Floor) }

  function LastIndex(begin: real, until: real, rate: real): int { Ceil((until - begin) * rate) }

  function Scheduled(begin: real, rate: real, index: int): real
    requires rate > 0.0
  {
    begin + index as real / rate
  }

  /** The arrivals before `LastIndex` are the ones scheduled inside the window, so
      the loop's early exit never fires; the measured ones are those from index
      zero on; and the first arrival is not before the run started. */
  lemma {:induction false} ArrivalsFillTheWindow(started: real, begin: real, until: real, rate: real, index: int)
    requires rate > 0.0
    ensures Scheduled(begin, rate, index) < until <==> index < LastIndex(begin, until, rate)
    ensures Scheduled(begin, rate, index) >= begin <==> index >= 0
    ensures Scheduled(begin, rate, index) >= started <==> index >= FirstIndex(started, begin, rate)
    ensures started <= begin ==> FirstIndex(started, begin, rate) <= 0
  {
    var q := index as real / rate;
    assert q * rate == index as real;
    Scales(q, until - begin, rate);
    BelowCeil(index, (until - begin) * rate);
    Scales(q, 0.0, rate);
    Scales(started - begin, q, rate);
    assert (started - begin) * rate == -((begin - started) * rate);
    BelowFloor(-index, (begin - started) * rate);
    assert (-index) as real == -(index as real);
    if started <= begin {
      Scales(0.0, begin - started, rate);
    }
  }

  lemma {:induction false} BelowCeil(i: int, x: real)
    ensures i < Ceil(x) <==> i as real < x
  {
  }

  lemma {:induction false} BelowFloor(i: int, x: real)
    ensures i <= x.Floor <==> i as real <= x
  {
  }

  lemma {:induction false} Scales(a: real, b: real, rate: real)
    requires rate > 0.0
    ensures a < b <==> a * rate < b * rate
    ensures a <= b <==> a * rate <= b * rate
  {
    if a < b {
      assert (b - a) * rate > 0.0;
    } else {
      assert (a - b) * rate >= 0.0;
      if a > b {
        assert (a - b) * rate > 0.0;
      }
    }
  }

  // ----- the state

  /** Where the scheduling thread stands: at the top of the loop for an arrival,
      behind its harvest, holding a slot for it, joining what is left, or out.
      `Unwinding` is an exception on its way through the pool's exit. */
  datatype Main = Ready(index: int) | Harvested(index: int) | Acquired(index: int)
                | Joining | Unwinding(index: int) | Returned | Raised(index: int)

  datatype Record = Query(index: int) | Drop(index: int, reason: string)

  datatype Config = Config(readers: nat, first: int, last: int)

  /** The life of an admitted request: waiting for a worker, being served, in its
      `finally`, its slot given back while the worker still holds it, and with a
      result, which is an exception unless `ok`. */
  datatype Phase = Queued | Running | Leaving(ok: bool) | Released(ok: bool) | Done(ok: bool) {
    predicate HoldsSlot() { Queued? || Running? || Leaving? }

    predicate HoldsWorker() { Running? || Leaving? || Released? }

    /** The request has answered, so its record has been written if it is measured. */
    predicate Answered() { !Queued? && !Running? && ok }

    predicate Failed() { Done? && !ok }
  }

  /** `pending` is the scheduler's own set of requests it has not seen finish. */
  datatype State = State(main: Main, free: int, tasks: map<int, Phase>, pending: set<int>, records: seq<Record>)

  function Initial(c: Config): State {
    State(Ready(c.first), c.readers, map[], {}, [])
  }

  function Where(tasks: map<int, Phase>, p: Phase -> bool): set<int> {
    set i | i in tasks && p(tasks[i])
  }

  function Holding(s: State): set<int> { Where(s.tasks, (p: Phase) => p.HoldsSlot()) }

  function Busy(s: State): set<int> { Where(s.tasks, (p: Phase) => p.HoldsWorker()) }

  function SeenFailing(s: State): set<int> { set i | i in s.pending && i in s.tasks && s.tasks[i].Failed() }

  function SeenDone(s: State): set<int> { set i | i in s.pending && i in s.tasks && s.tasks[i].Done? }

  predicate AllDone(s: State) { forall i | i in s.tasks :: s.tasks[i].Done? }

  // ----- the steps

  datatype Step =
    | Start(task: int) | Answer(task: int) | Raise(task: int) | Release(task: int) | Finish(task: int)
    | Harvest | HarvestFailure | Late | Full | Acquire | Submit | EndLoop | Return | JoinFailure | Leave

  predicate ByWorker(step: Step) {
    step.Start? || step.Answer? || step.Raise? || step.Release? || step.Finish?
  }

  predicate Enabled(c: Config, s: State, step: Step) {
    match step
    case Start(i) => i in s.tasks && s.tasks[i].Queued? && |Busy(s)| < c.readers
    case Answer(i) => i in s.tasks && s.tasks[i].Running?
    case Raise(i) => i in s.tasks && s.tasks[i].Running?
    case Release(i) => i in s.tasks && s.tasks[i].Leaving?
    case Finish(i) => i in s.tasks && s.tasks[i].Released?
    case Harvest => s.main.Ready? && s.main.index < c.last && SeenFailing(s) == {}
    case HarvestFailure => s.main.Ready? && s.main.index < c.last && SeenFailing(s) != {}
    case Late => s.main.Harvested?
    case Full => s.main.Harvested? && s.free == 0
    case Acquire => s.main.Harvested? && s.free > 0
    case Submit => s.main.Acquired?
    case EndLoop => s.main.Ready? && s.main.index >= c.last
    case Return => s.main.Joining? && SeenDone(s) == s.pending && SeenFailing(s) == {}
    case JoinFailure => s.main.Joining? && SeenFailing(s) != {}
    case Leave => s.main.Unwinding? && AllDone(s)
  }

  /** The phase a worker's step moves its request to. */
  function Next(step: Step, p: Phase): Phase
    requires ByWorker(step) && (step.Release? ==> p.Leaving?) && (step.Finish? ==> p.Released?)
  {
    match step
    case Start(_) => Running
    case Answer(_) => Leaving(true)
    case Raise(_) => Leaving(false)
    case Release(_) => Released(p.ok)
    case Finish(_) => Done(p.ok)
  }

  function Apply(c: Config, s: State, step: Step): State
    requires Enabled(c, s, step)
  {
    if ByWorker(step) then
      var i := step.task;
      s.(tasks := s.tasks[i := Next(step, s.tasks[i])],
         free := if step.Release? then s.free + 1 else s.free,
         records := if step.Answer? && i >= 0 then s.records + [Query(i)] else s.records)
    else
      match step
      case Harvest => s.(main := Harvested(s.main.index), pending := s.pending - SeenDone(s))
      case HarvestFailure => s.(main := Unwinding(s.main.index))
      case Late => Dropped(s, "scheduler_late")
      case Full => Dropped(s, "in_flight_limit")
      case Acquire => s.(main := Acquired(s.main.index), free := s.free - 1)
      case Submit =>
        s.(main := Ready(s.main.index + 1), tasks := s.tasks[s.main.index := Queued],
           pending := s.pending + {s.main.index})
      case EndLoop => s.(main := Joining)
      case Return => s.(main := Returned)
      case JoinFailure => s.(main := Unwinding(End(c)))
      case Leave => s.(main := Raised(s.main.index))
  }

  function Dropped(s: State, reason: string): State
    requires s.main.Harvested?
  {
    s.(main := Ready(s.main.index + 1),
       records := if s.main.index >= 0 then s.records + [Drop(s.main.index, reason)] else s.records)
  }

  /** The index at which the loop stops. */
  function End(c: Config): int { if c.first < c.last then c.last else c.first }

  /** The state after a run, if every step of it was enabled. */
  ghost predicate Reaches(c: Config, run: seq<Step>, s: State) {
    if run == [] then s == Initial(c)
    else
      var n := |run| - 1;
      exists p :: Reaches(c, run[..n], p) && Enabled(c, p, run[n]) && s == Apply(c, p, run[n])
  }

  // ----- what every step keeps

  function Cursor(c: Config, s: State): int {
    if s.main.Joining? || s.main.Returned? then End(c) else s.main.index
  }

  /** Requests are arrivals already passed; a request the scheduler no longer
      watches has answered and finished. */
  ghost predicate Placed(c: Config, s: State) {
    && c.first <= Cursor(c, s) <= End(c)
    && (s.main.Harvested? || s.main.Acquired? ==> s.main.index < c.last)
    && (forall i | i in s.tasks :: c.first <= i < Cursor(c, s))
    && s.pending <= s.tasks.Keys
    && (forall i | i in s.tasks && i !in s.pending :: s.tasks[i] == Done(true))
  }

  ghost predicate SlotsAccounted(c: Config, s: State) {
    && s.free >= 0
    && s.free + |Holding(s)| + (if s.main.Acquired? then 1 else 0) == c.readers
    && |Busy(s)| <= c.readers
  }

  /** The scheduler's set stays small, however long the run. */
  ghost predicate PendingBounded(c: Config, s: State) {
    |s.pending| <= 2 * c.readers + (if s.main.Harvested? || s.main.Acquired? then 0 else 1)
  }

  /** An arrival that has its record: it was dropped, or it was answered. */
  predicate Settled(c: Config, s: State, i: int) {
    0 <= i && c.first <= i < Cursor(c, s) && (i in s.tasks ==> s.tasks[i].Answered())
  }

  ghost predicate Appears(records: seq<Record>, i: int) {
    exists k :: 0 <= k < |records| && records[k].index == i
  }

  ghost predicate Recorded(s: State, i: int) { Appears(s.records, i) }

  ghost predicate Ledger(c: Config, s: State) {
    && (forall j, k | 0 <= j < k < |s.records| :: s.records[j].index != s.records[k].index)
    && (forall i :: Recorded(s, i) <==> Settled(c, s, i))
    && (forall k | 0 <= k < |s.records| :: s.records[k].Query? <==> s.records[k].index in s.tasks)
  }

  ghost predicate Outcome(c: Config, s: State) {
    && (s.main.Returned? ==> forall i | i in s.tasks :: s.tasks[i] == Done(true))
    && (s.main.Unwinding? || s.main.Raised? ==> exists i :: i in s.tasks && s.tasks[i].Failed())
    && (s.main.Raised? ==> AllDone(s))
  }

  ghost predicate Inv(c: Config, s: State) {
    Placed(c, s) && SlotsAccounted(c, s) && PendingBounded(c, s) && Ledger(c, s) && Outcome(c, s)
  }

  lemma {:induction false} InitialInv(c: Config)
    ensures Inv(c, Initial(c))
  {
  }

  lemma {:induction false} WorkerKeepsPlaced(c: Config, s: State, step: Step)
    requires Placed(c, s) && Outcome(c, s) && Enabled(c, s, step) && ByWorker(step)
    ensures Placed(c, Apply(c, s, step)) && Outcome(c, Apply(c, s, step))
  {
    if s.main.Unwinding? {
      var i :| i in s.tasks && s.tasks[i].Failed();
      assert Apply(c, s, step).tasks[i].Failed();
    }
  }

  lemma {:induction false} MainKeepsPlaced(c: Config, s: State, step: Step)
    requires Placed(c, s) && Outcome(c, s) && Enabled(c, s, step) && !ByWorker(step)
    ensures Placed(c, Apply(c, s, step)) && Outcome(c, Apply(c, s, step))
  {
    hide Where, Ledger;
    var failing := SeenFailing(s);
    if failing != {} {
      var i := Member(failing);
      assert i in s.tasks && s.tasks[i].Failed();
      assert i in Apply(c, s, step).tasks;
    } else {
      forall i | i in s.pending && s.tasks[i].Done? ensures s.tasks[i] == Done(true) {
        assert i !in SeenFailing(s);
      }
    }
    if step.Return? {
      forall i | i in s.tasks ensures s.tasks[i] == Done(true) {
        assert i in s.pending ==> i in SeenDone(s);
      }
    }
  }

  // ----- slots

  lemma {:induction false} WhereUpdate(tasks: map<int, Phase>, i: int, q: Phase, p: Phase -> bool)
    ensures Where(tasks[i := q], p) == if p(q) then Where(tasks, p) + {i} else Where(tasks, p) - {i}
  {
  }

  lemma {:induction false} WorkerKeepsSlots(c: Config, s: State, step: Step)
    requires SlotsAccounted(c, s) && Enabled(c, s, step) && ByWorker(step)
    ensures SlotsAccounted(c, Apply(c, s, step))
  {
    var i, q := step.task, Next(step, s.tasks[step.task]);
    WhereUpdate(s.tasks, i, q, (p: Phase) => p.HoldsSlot());
    WhereUpdate(s.tasks, i, q, (p: Phase) => p.HoldsWorker());
    assert i in Holding(s) <==> s.tasks[i].HoldsSlot();
    assert i in Busy(s) <==> s.tasks[i].HoldsWorker();
    assert Holding(s) + {i} == Holding(s) || i !in Holding(s);
    assert Busy(s) + {i} == Busy(s) || i !in Busy(s);
    hide Where;
  }

  lemma {:induction false} MainKeepsSlots(c: Config, s: State, step: Step)
    requires Placed(c, s) && SlotsAccounted(c, s) && Enabled(c, s, step) && !ByWorker(step)
    ensures SlotsAccounted(c, Apply(c, s, step))
  {
    if step.Submit? {
      var i := s.main.index;
      WhereUpdate(s.tasks, i, Queued, (p: Phase) => p.HoldsSlot());
      WhereUpdate(s.tasks, i, Queued, (p: Phase) => p.HoldsWorker());
      assert i !in Holding(s) && Busy(s) - {i} == Busy(s);
    }
  }

  lemma {:induction false} StepKeepsPending(c: Config, s: State, step: Step)
    requires Placed(c, s) && SlotsAccounted(c, s) && PendingBounded(c, s) && Enabled(c, s, step)
    ensures PendingBounded(c, Apply(c, s, step))
  {
    if step.Harvest? {
      var left := s.pending - SeenDone(s);
      assert left <= Holding(s) + Busy(s);
      SubsetSize(left, Holding(s) + Busy(s));
    }
  }

  // ----- the ledger

  lemma {:induction false} AppearsInLonger(records: seq<Record>, r: Record, i: int)
    ensures Appears(records + [r], i) <==> Appears(records, i) || i == r.index
  {
    var longer := records + [r];
    if Appears(records, i) {
      var k :| 0 <= k < |records| && records[k].index == i;
      assert longer[k].index == i;
    }
    assert longer[|records|] == r;
  }

  lemma {:induction false} LedgerGrows(c: Config, s: State, t: State, r: Record)
    requires Ledger(c, s) && !Recorded(s, r.index)
    requires t.records == s.records + [r]
    requires forall i :: Settled(c, t, i) <==> Settled(c, s, i) || i == r.index
    requires forall i :: Recorded(s, i) ==> (i in t.tasks <==> i in s.tasks)
    requires r.Query? <==> r.index in t.tasks
    ensures Ledger(c, t)
  {
    forall i ensures Recorded(t, i) <==> Settled(c, t, i) {
      AppearsInLonger(s.records, r, i);
      assert Recorded(s, i) <==> Settled(c, s, i);
    }
    forall j, k | 0 <= j < k < |t.records| ensures t.records[j].index != t.records[k].index {
      assert t.records[j] == s.records[j];
      assert Recorded(s, t.records[j].index);
    }
    forall k | 0 <= k < |t.records| ensures t.records[k].Query? <==> t.records[k].index in t.tasks {
      if k < |s.records| {
        assert t.records[k] == s.records[k];
        assert Recorded(s, t.records[k].index);
      }
    }
  }

  lemma {:induction false} LedgerStays(c: Config, s: State, t: State)
    requires Ledger(c, s) && t.records == s.records
    requires forall i :: Settled(c, t, i) <==> Settled(c, s, i)
    requires forall i :: Recorded(s, i) ==> (i in t.tasks <==> i in s.tasks)
    ensures Ledger(c, t)
  {
    forall i ensures Recorded(t, i) <==> Settled(c, t, i) {
      assert Recorded(s, i) <==> Settled(c, s, i);
    }
    forall k | 0 <= k < |t.records| ensures t.records[k].Query? <==> t.records[k].index in t.tasks {
      assert Recorded(s, t.records[k].index);
    }
  }

  lemma {:induction false} WorkerKeepsLedger(c: Config, s: State, step: Step)
    requires Placed(c, s) && Ledger(c, s) && Enabled(c, s, step) && ByWorker(step)
    ensures Ledger(c, Apply(c, s, step))
  {
    hide Ledger, Recorded, Busy;
    var t, i := Apply(c, s, step), step.task;
    assert forall j | j != i :: Settled(c, t, j) <==> Settled(c, s, j);
    if step.Answer? && i >= 0 {
      assert !Settled(c, s, i);
      NotSettled(c, s, i);
      LedgerGrows(c, s, t, Query(i));
    } else {
      LedgerStays(c, s, t);
    }
  }

  lemma {:induction false} NotSettled(c: Config, s: State, i: int)
    requires Ledger(c, s)
    ensures Recorded(s, i) <==> Settled(c, s, i)
  {
  }

  lemma {:induction false} MainKeepsLedger(c: Config, s: State, step: Step)
    requires Placed(c, s) && Ledger(c, s) && Enabled(c, s, step) && !ByWorker(step)
    ensures Ledger(c, Apply(c, s, step))
  {
    hide Ledger, Recorded;
    var t := Apply(c, s, step);
    if (step.Late? || step.Full?) && s.main.index >= 0 {
      NotSettled(c, s, s.main.index);
      LedgerGrows(c, s, t, t.records[|s.records|]);
    } else if step.Submit? {
      NotSettled(c, s, s.main.index);
      LedgerStays(c, s, t);
    } else {
      LedgerStays(c, s, t);
    }
  }

  lemma {:induction false} StepKeepsInv(c: Config, s: State, step: Step)
    requires Inv(c, s) && Enabled(c, s, step)
    ensures Inv(c, Apply(c, s, step))
  {
    hide Placed, SlotsAccounted, PendingBounded, Ledger, Outcome, Apply, Enabled;
    StepKeepsPending(c, s, step);
    if ByWorker(step) {
      WorkerKeepsPlaced(c, s, step);
      WorkerKeepsSlots(c, s, step);
      WorkerKeepsLedger(c, s, step);
    } else {
      MainKeepsPlaced(c, s, step);
      MainKeepsSlots(c, s, step);
      MainKeepsLedger(c, s, step);
    }
  }

  lemma {:induction false} RunKeepsInv(c: Config, run: seq<Step>, s: State)
    requires Reaches(c, run, s)
    ensures Inv(c, s)
    decreases |run|
  {
    hide Inv, Apply, Enabled;
    if run == [] {
      InitialInv(c);
    } else {
      var n := |run| - 1;
      var p :| Reaches(c, run[..n], p) && Enabled(c, p, run[n]) && s == Apply(c, p, run[n]);
      RunKeepsInv(c, run[..n], p);
      StepKeepsInv(c, p, run[n]);
    }
  }

  // ----- the theorems

  /** In every state of every run: requests queued or being served never exceed
      the readers, nor do occupied workers, and neither the pool's queue nor the
      scheduler's set grows with the run. */
  lemma {:induction false} RequestsAreBounded(c: Config, run: seq<Step>, s: State)
    requires Reaches(c, run, s)
    ensures |Holding(s)| <= c.readers && |Busy(s)| <= c.readers && |s.pending| <= 2 * c.readers + 1
  {
    hide Holding, Busy, Ledger, Placed, Outcome;
    RunKeepsInv(c, run, s);
  }

  /** An arrival that is not late is admitted exactly when some reader has no request,
      and turned away exactly when all of them have one. */
  lemma {:induction false} AdmissionIsExact(c: Config, run: seq<Step>, s: State)
    requires Reaches(c, run, s) && s.main.Harvested?
    ensures Enabled(c, s, Acquire) <==> |Holding(s)| < c.readers
    ensures Enabled(c, s, Full) <==> |Holding(s)| == c.readers
  {
    hide Holding, Busy, Ledger, Placed, Outcome, PendingBounded, Reaches;
    RunKeepsInv(c, run, s);
  }

  /** Why an arrival was dropped: at step `n` of the run, all readers had a request,
      or it was late. */
  ghost predicate DroppedAt(c: Config, run: seq<Step>, n: nat, p: State, index: int, reason: string) {
    && n < |run| && Reaches(c, run[..n], p) && p.main == Harvested(index)
    && if reason == "in_flight_limit" then run[n] == Full && |Holding(p)| == c.readers
       else reason == "scheduler_late" && run[n] == Late
  }

  lemma {:induction false} DropsAreForced(c: Config, run: seq<Step>, s: State, k: nat) returns (n: nat, p: State)
    requires Reaches(c, run, s) && k < |s.records| && s.records[k].Drop?
    ensures DroppedAt(c, run, n, p, s.records[k].index, s.records[k].reason)
    decreases |run|
  {
    hide Enabled, Holding, Apply, DroppedAt;
    n := |run| - 1;
    p :| Reaches(c, run[..n], p) && Enabled(c, p, run[n]) && s == Apply(c, p, run[n]);
    RecordIsOldOrDrop(c, p, run[n], k);
    if k < |p.records| {
      ghost var m, q := DropsAreForced(c, run[..n], p, k);
      DroppedEarlier(c, run, n, m, q, s.records[k]);
      n, p := m, q;
    } else {
      DroppedNow(c, run, n, p, s.records[k]);
    }
  }

  lemma {:induction false} DroppedEarlier(c: Config, run: seq<Step>, n: nat, m: nat, q: State, r: Record)
    requires r.Drop? && n <= |run| && DroppedAt(c, run[..n], m, q, r.index, r.reason)
    ensures DroppedAt(c, run, m, q, r.index, r.reason)
  {
    hide Reaches, Holding;
    assert run[..n][..m] == run[..m];
  }

  lemma {:induction false} DroppedNow(c: Config, run: seq<Step>, n: nat, p: State, r: Record)
    requires r.Drop? && n < |run| && Reaches(c, run[..n], p) && IsDrop(p, run[n], r) && Enabled(c, p, run[n])
    ensures DroppedAt(c, run, n, p, r.index, r.reason)
  {
    hide Reaches, Holding, Enabled;
    if run[n] == Full {
      AdmissionIsExact(c, run[..n], p);
    }
  }

  ghost predicate IsDrop(p: State, step: Step, r: Record)
    requires r.Drop?
  {
    && p.main == Harvested(r.index)
    && if r.reason == "in_flight_limit" then step == Full else r.reason == "scheduler_late" && step == Late
  }

  lemma {:induction false} RecordIsOldOrDrop(c: Config, p: State, step: Step, k: nat)
    requires Enabled(c, p, step) && k < |Apply(c, p, step).records| && Apply(c, p, step).records[k].Drop?
    ensures if k < |p.records| then Apply(c, p, step).records[k] == p.records[k]
            else IsDrop(p, step, Apply(c, p, step).records[k])
  {
    hide Busy, SeenFailing, SeenDone, AllDone;
  }

  lemma {:induction false} DistinctCount(records: seq<Record>, lo: int, hi: int)
    requires lo <= hi
    requires forall j, k | 0 <= j < k < |records| :: records[j].index != records[k].index
    requires forall i :: lo <= i < hi <==> Appears(records, i)
    ensures |records| == hi - lo
    decreases hi - lo
  {
    if lo < hi {
      assert Appears(records, hi - 1);
      var k :| 0 <= k < |records| && records[k].index == hi - 1;
      var rest := records[..k] + records[k + 1..];
      forall i ensures lo <= i < hi - 1 <==> Appears(rest, i) {
        assert lo <= i < hi <==> Appears(records, i);
        if lo <= i < hi - 1 {
          var m :| 0 <= m < |records| && records[m].index == i;
          assert rest[if m < k then m else m - 1].index == i;
        }
        if Appears(rest, i) {
          var m :| 0 <= m < |rest| && rest[m].index == i;
          assert records[if m < k then m else m + 1].index == i;
        }
      }
      DistinctCount(rest, lo, hi - 1);
    } else if records != [] {
      assert Appears(records, records[0].index);
    }
  }

  /** A run that returns has one record for every measured arrival and no other:
      an answer for each admitted one and a drop for each refused one. Every
      request has finished without an error and every slot is free. */
  lemma {:induction false} ReturnedRunIsExact(c: Config, run: seq<Step>, s: State)
    requires Reaches(c, run, s) && s.main.Returned? && c.first <= 0
    ensures |s.records| == if c.last < 0 then 0 else c.last
    ensures forall j, k | 0 <= j < k < |s.records| :: s.records[j].index != s.records[k].index
    ensures forall i :: Recorded(s, i) <==> 0 <= i < c.last
    ensures forall k | 0 <= k < |s.records| :: s.records[k].Query? <==> s.records[k].index in s.tasks
    ensures forall i | i in s.tasks :: s.tasks[i] == Done(true)
    ensures s.free == c.readers
  {
    hide Apply, Enabled;
    RunKeepsInv(c, run, s);
    NothingHeld(s);
    var n := if c.last < 0 then 0 else c.last;
    forall i ensures 0 <= i < n <==> Appears(s.records, i) {
      NotSettled(c, s, i);
    }
    DistinctCount(s.records, 0, n);
  }

  /** So a fixed load from `begin` to `until` that returns has as many records as the
      window has arrivals, one for each. */
  lemma {:induction false} FixedLoadIsExact(readers: nat, started: real, begin: real, until: real, rate: real,
                                            run: seq<Step>, s: State)
    requires rate > 0.0 && started <= begin <= until
    requires Reaches(Config(readers, FirstIndex(started, begin, rate), LastIndex(begin, until, rate)), run, s)
    requires s.main.Returned?
    ensures |s.records| == Ceil((until - begin) * rate)
    ensures forall i :: Recorded(s, i) <==> begin <= Scheduled(begin, rate, i) < until
  {
    hide Reaches, Scheduled, Recorded;
    var c := Config(readers, FirstIndex(started, begin, rate), LastIndex(begin, until, rate));
    ArrivalsFillTheWindow(started, begin, until, rate, 0);
    Scales(0.0, until - begin, rate);
    BelowCeil(-1, (until - begin) * rate);
    ReturnedRunIsExact(c, run, s);
    forall i ensures Recorded(s, i) <==> begin <= Scheduled(begin, rate, i) < until {
      ArrivalsFillTheWindow(started, begin, until, rate, i);
    }
  }

  lemma {:induction false} NothingHeld(s: State)
    requires AllDone(s)
    ensures Holding(s) == {} && Busy(s) == {}
  {
    forall i ensures i !in Holding(s) && i !in Busy(s) {
      assert i in s.tasks ==> s.tasks[i].Done?;
    }
  }

  /** A run raises exactly when a request did, and even then it first waits for
      every request and gets every slot back. */
  lemma {:induction false} RaisedRunHasDrained(c: Config, run: seq<Step>, s: State)
    requires Reaches(c, run, s) && s.main.Raised?
    ensures exists i :: i in s.tasks && s.tasks[i].Failed()
    ensures AllDone(s) && s.free == c.readers
  {
    hide Apply, Enabled, Ledger;
    RunKeepsInv(c, run, s);
    NothingHeld(s);
  }

  // ----- every run ends

  /** How many steps a request has yet to take. */
  function Left(p: Phase): nat {
    match p
    case Queued => 4
    case Running => 3
    case Leaving(_) => 2
    case Released(_) => 1
    case Done(_) => 0
  }

  function AtLeast(s: State, n: nat): set<int> { Where(s.tasks, (p: Phase) => Left(p) >= n) }

  /** The steps that all admitted requests have yet to take. */
  function WorkLeft(s: State): nat {
    |AtLeast(s, 1)| + |AtLeast(s, 2)| + |AtLeast(s, 3)| + |AtLeast(s, 4)|
  }

  function MainLeft(m: Main): nat {
    match m
    case Ready(_) => 3
    case Harvested(_) => 2
    case Acquired(_) => 1
    case Joining => 2
    case Unwinding(_) => 1
    case Returned => 0
    case Raised(_) => 0
  }

  function Measure(c: Config, s: State): int {
    8 * (End(c) - Cursor(c, s)) + MainLeft(s.main) + WorkLeft(s)
  }

  lemma {:induction false} AtLeastUpdate(s: State, i: int, q: Phase, n: nat)
    ensures var t := s.(tasks := s.tasks[i := q]);
            AtLeast(t, n) == if Left(q) >= n then AtLeast(s, n) + {i} else AtLeast(s, n) - {i}
    ensures i in AtLeast(s, n) <==> i in s.tasks && Left(s.tasks[i]) >= n
    ensures i in AtLeast(s, n) ==> AtLeast(s, n) + {i} == AtLeast(s, n)
    ensures i !in AtLeast(s, n) ==> AtLeast(s, n) - {i} == AtLeast(s, n)
  {
    WhereUpdate(s.tasks, i, q, (p: Phase) => Left(p) >= n);
  }

  lemma {:induction false} WorkLeftUpdate(s: State, i: int, q: Phase)
    ensures var t := s.(tasks := s.tasks[i := q]);
            WorkLeft(t) == WorkLeft(s) + Left(q) - (if i in s.tasks then Left(s.tasks[i]) else 0)
  {
    hide AtLeast;
    AtLeastCount(s, i, q, 1);
    AtLeastCount(s, i, q, 2);
    AtLeastCount(s, i, q, 3);
    AtLeastCount(s, i, q, 4);
  }

  lemma {:induction false} AtLeastCount(s: State, i: int, q: Phase, n: nat)
    ensures var t := s.(tasks := s.tasks[i := q]);
            |AtLeast(t, n)| == |AtLeast(s, n)| + (if Left(q) >= n then 1 else 0)
                               - (if i in s.tasks && Left(s.tasks[i]) >= n then 1 else 0)
  {
    AtLeastUpdate(s, i, q, n);
    hide AtLeast;
  }

  lemma {:induction false} StepMakesProgress(c: Config, s: State, step: Step)
    requires Inv(c, s) && Enabled(c, s, step)
    ensures 0 <= Measure(c, Apply(c, s, step)) < Measure(c, s)
  {
    StepKeepsInv(c, s, step);
    hide Ledger, SlotsAccounted, PendingBounded, Outcome, AtLeast, Busy, Where, SeenFailing, SeenDone;
    var t := Apply(c, s, step);
    if ByWorker(step) || step.Submit? {
      var i := if ByWorker(step) then step.task else s.main.index;
      WorkLeftUpdate(s, i, t.tasks[i]);
      assert t.tasks == s.(tasks := s.tasks[i := t.tasks[i]]).tasks;
      SameWork(t, s.(tasks := s.tasks[i := t.tasks[i]]));
    } else {
      SameWork(t, s);
    }
  }

  lemma {:induction false} SameWork(s: State, t: State)
    requires s.tasks == t.tasks
    ensures WorkLeft(s) == WorkLeft(t)
  {
  }

  /** No run is longer than eight steps for each arrival and three more: every
      admitted request drains. */
  lemma {:induction false} RunIsShort(c: Config, run: seq<Step>, s: State)
    requires Reaches(c, run, s)
    ensures |run| + Measure(c, s) <= 8 * (End(c) - c.first) + 3
    decreases |run|
  {
    hide Apply, Enabled, Inv, Measure;
    if run == [] {
      InitialMeasure(c);
    } else {
      var n := |run| - 1;
      var p :| Reaches(c, run[..n], p) && Enabled(c, p, run[n]) && s == Apply(c, p, run[n]);
      RunIsShort(c, run[..n], p);
      RunKeepsInv(c, run[..n], p);
      StepMakesProgress(c, p, run[n]);
    }
  }

  lemma {:induction false} InitialMeasure(c: Config)
    ensures Measure(c, Initial(c)) == 8 * (End(c) - c.first) + 3
  {
    var s := Initial(c);
    assert AtLeast(s, 1) == AtLeast(s, 2) == AtLeast(s, 3) == AtLeast(s, 4) == {};
  }

  /** A request that is not done can move, or another one holds its worker and
      can move. */
  lemma {:induction false} SomeWorkerCanMove(c: Config, s: State, i: int) returns (step: Step)
    requires SlotsAccounted(c, s) && i in s.tasks && !s.tasks[i].Done?
    ensures Enabled(c, s, step) && !step.Late?
  {
    var j := i;
    if s.tasks[i].Queued? && |Busy(s)| >= c.readers {
      assert i in Holding(s);
      assert |Holding(s)| != 0;
      j := Member(Busy(s));
    }
    match s.tasks[j]
    case Queued => step := Start(j);
    case Running => step := Answer(j);
    case Leaving(_) => step := Release(j);
    case Released(_) => step := Finish(j);
  }

  lemma {:induction false} JoiningCanMove(c: Config, s: State) returns (step: Step)
    requires Placed(c, s) && SlotsAccounted(c, s) && s.main.Joining?
    ensures Enabled(c, s, step) && !step.Late?
  {
    hide SlotsAccounted, Where;
    if SeenFailing(s) != {} {
      step := JoinFailure;
    } else if forall i | i in s.pending :: s.tasks[i].Done? {
      assert SeenDone(s) == s.pending;
      step := Return;
    } else {
      var i :| i in s.pending && !s.tasks[i].Done?;
      step := SomeWorkerCanMove(c, s, i);
    }
  }

  lemma {:induction false} UnwindingCanMove(c: Config, s: State) returns (step: Step)
    requires SlotsAccounted(c, s) && s.main.Unwinding?
    ensures Enabled(c, s, step) && !step.Late?
  {
    hide SlotsAccounted, Where;
    if AllDone(s) {
      step := Leave;
    } else {
      var i :| i in s.tasks && !s.tasks[i].Done?;
      step := SomeWorkerCanMove(c, s, i);
    }
  }

  /** Until it returns or raises, the system can always take a step; with
      `RunIsShort`, every run that goes as far as it can ends in one of the two. */
  lemma {:induction false} NeverStuck(c: Config, run: seq<Step>, s: State) returns (step: Step)
    requires Reaches(c, run, s) && !s.main.Returned? && !s.main.Raised?
    ensures Enabled(c, s, step) && !step.Late?
  {
    RunKeepsInv(c, run, s);
    hide Ledger, Where, Reaches, Placed, PendingBounded, Outcome, SeenFailing, SeenDone, AllDone, Holding, Busy;
    match s.main
    case Ready(i) => step := if i >= c.last then EndLoop else if SeenFailing(s) == {} then Harvest else HarvestFailure;
    case Harvested(_) => step := if s.free > 0 then Acquire else Full;
    case Acquired(_) => step := Submit;
    case Joining => step := JoiningCanMove(c, s);
    case Unwinding(_) => step := UnwindingCanMove(c, s);
  }

  // ----- how a run ends, and that it can

  /** The request raised, whether or not it has finished. */
  predicate Bad(p: Phase) { !p.Queued? && !p.Running? && !p.ok }

  ghost predicate SomeBad(s: State) { exists i :: i in s.tasks && Bad(s.tasks[i]) }

  ghost predicate SomeRaise(run: seq<Step>) { exists k :: 0 <= k < |run| && run[k].Raise? }

  lemma {:induction false} RaiseSnoc(run: seq<Step>, step: Step)
    ensures SomeRaise(run + [step]) <==> SomeRaise(run) || step.Raise?
  {
    var longer := run + [step];
    if SomeRaise(run) {
      var k :| 0 <= k < |run| && run[k].Raise?;
      assert longer[k].Raise?;
    }
    assert longer[|run|] == step;
  }

  lemma {:induction false} BadStays(c: Config, s: State, step: Step)
    requires Placed(c, s) && Enabled(c, s, step)
    ensures SomeBad(Apply(c, s, step)) <==> SomeBad(s) || step.Raise?
  {
    var t := Apply(c, s, step);
    forall i | i in s.tasks ensures i in t.tasks && (Bad(t.tasks[i]) <==> Bad(s.tasks[i]) || step == Raise(i)) {
    }
    forall i | i in t.tasks && i !in s.tasks ensures !Bad(t.tasks[i]) {
    }
    if step.Raise? {
      assert Bad(t.tasks[step.task]);
    }
  }

  lemma {:induction false} BadWasRaised(c: Config, run: seq<Step>, s: State)
    requires Reaches(c, run, s)
    ensures SomeBad(s) <==> SomeRaise(run)
    decreases |run|
  {
    hide Apply, Enabled, SomeBad, SomeRaise, Placed;
    if run == [] {
      NothingRaised(c);
    } else {
      var n := |run| - 1;
      var p :| Reaches(c, run[..n], p) && Enabled(c, p, run[n]) && s == Apply(c, p, run[n]);
      BadWasRaised(c, run[..n], p);
      RunKeepsInv(c, run[..n], p);
      BadStays(c, p, run[n]);
      assert run == run[..n] + [run[n]];
      RaiseSnoc(run[..n], run[n]);
    }
  }

  lemma {:induction false} NothingRaised(c: Config)
    ensures !SomeBad(Initial(c)) && !SomeRaise([])
  {
  }

  /** A finished run raised exactly when one of its requests did. */
  lemma {:induction false} RunRaisesExactly(c: Config, run: seq<Step>, s: State)
    requires Reaches(c, run, s) && (s.main.Returned? || s.main.Raised?)
    ensures s.main.Raised? <==> SomeRaise(run)
  {
    hide Apply, Enabled, Ledger, Placed, SlotsAccounted, PendingBounded, SomeRaise;
    RunKeepsInv(c, run, s);
    BadWasRaised(c, run, s);
  }

  lemma {:induction false} Extends(c: Config, run: seq<Step>, s: State, step: Step)
    requires Reaches(c, run, s) && Enabled(c, s, step)
    ensures Reaches(c, run + [step], Apply(c, s, step))
  {
    hide Enabled, Apply;
    var longer := run + [step];
    assert longer[..|run|] == run && longer[|run|] == step;
  }

  lemma {:induction false} Play(c: Config, run: seq<Step>, s: State, step: Step)
    returns (more: seq<Step>, t: State)
    requires Reaches(c, run, s) && Enabled(c, s, step)
    ensures Reaches(c, more, t) && t == Apply(c, s, step)
  {
    Extends(c, run, s, step);
    more, t := run + [step], Apply(c, s, step);
  }

  /** Every arrival before `i` is settled: dropped, or answered and finished. */
  ghost predicate Idle(c: Config, s: State, i: int, drops: set<int>) {
    && s.main == Ready(i) && c.first <= i && s.free == c.readers
    && (forall j | j in s.tasks :: s.tasks[j] == Done(true))
    && (forall j :: j in s.tasks <==> c.first <= j < i && j !in drops)
    && s.pending <= s.tasks.Keys
  }

  lemma {:induction false} AllSeenDone(s: State)
    requires s.pending <= s.tasks.Keys && forall j | j in s.tasks :: s.tasks[j] == Done(true)
    ensures SeenFailing(s) == {} && SeenDone(s) == s.pending
  {
    forall j | j in s.pending ensures j !in SeenFailing(s) && j in SeenDone(s) {
      assert j in s.tasks.Keys;
    }
  }

  lemma {:induction false} IdleCanHarvest(c: Config, run: seq<Step>, s: State, i: int, drops: set<int>)
    returns (more: seq<Step>, t: State)
    requires Reaches(c, run, s) && Idle(c, s, i, drops) && i < c.last
    ensures Reaches(c, more, t) && t == s.(main := Harvested(i), pending := {})
  {
    hide Reaches;
    AllSeenDone(s);
    more, t := Play(c, run, s, Harvest);
  }

  lemma {:induction false} AdmitNext(c: Config, run: seq<Step>, s: State, i: int, drops: set<int>)
    returns (more: seq<Step>, t: State)
    requires Reaches(c, run, s) && Idle(c, s, i, drops) && i < c.last && c.readers >= 1
    ensures Reaches(c, more, t) && t.main == Ready(i + 1) && t.free == c.readers - 1 && t.pending == {i}
    ensures t.tasks == s.tasks[i := Running]
  {
    hide Reaches;
    more, t := IdleCanHarvest(c, run, s, i, drops);
    more, t := Play(c, more, t, Acquire);
    more, t := Play(c, more, t, Submit);
    assert Busy(t) == {} by {
      assert forall j | j in t.tasks :: !t.tasks[j].HoldsWorker();
    }
    more, t := Play(c, more, t, Start(i));
  }

  lemma {:induction false} ServeNext(c: Config, run: seq<Step>, s: State, i: int, drops: set<int>)
    returns (more: seq<Step>, t: State)
    requires Reaches(c, run, s) && Idle(c, s, i, drops) && i < c.last && c.readers >= 1
    ensures Reaches(c, more, t) && Idle(c, t, i + 1, drops)
  {
    hide Reaches, Busy;
    if i in drops {
      more, t := IdleCanHarvest(c, run, s, i, drops);
      more, t := Play(c, more, t, Late);
    } else {
      more, t := AdmitNext(c, run, s, i, drops);
      more, t := Play(c, more, t, Answer(i));
      more, t := Play(c, more, t, Release(i));
      more, t := Play(c, more, t, Finish(i));
    }
  }

  lemma {:induction false} ServeUntil(c: Config, i: int, drops: set<int>) returns (run: seq<Step>, s: State)
    requires c.first <= i <= End(c) && c.readers >= 1
    ensures Reaches(c, run, s) && Idle(c, s, i, drops)
    decreases i - c.first
  {
    hide Reaches;
    if i == c.first {
      run, s := [], Initial(c);
      assert Reaches(c, run, s) by { StartsThere(c); }
    } else {
      run, s := ServeUntil(c, i - 1, drops);
      run, s := ServeNext(c, run, s, i - 1, drops);
    }
  }

  lemma {:induction false} StartsThere(c: Config)
    ensures Reaches(c, [], Initial(c))
  {
  }

  /** One reader is enough for every pattern: whichever arrivals are late, some run
      drops just those, serves all the others and returns. */
  lemma {:induction false} EveryPatternHappens(c: Config, drops: set<int>) returns (run: seq<Step>, s: State)
    requires c.readers >= 1
    ensures Reaches(c, run, s) && s.main.Returned?
    ensures forall i :: i in s.tasks <==> c.first <= i < c.last && i !in drops
  {
    hide Reaches;
    run, s := ServeUntil(c, End(c), drops);
    run, s := Play(c, run, s, EndLoop);
    AllSeenDone(s);
    run, s := Play(c, run, s, Return);
  }

  /** And whichever arrival's request fails, some run raises for it alone. */
  lemma {:induction false} EveryFailureHappens(c: Config, i: int) returns (run: seq<Step>, s: State)
    requires c.readers >= 1 && c.first <= i < c.last
    ensures Reaches(c, run, s) && s.main.Raised?
    ensures forall j | j in s.tasks :: s.tasks[j] == Done(j != i)
    ensures i in s.tasks
  {
    hide Reaches, Busy;
    run, s := ServeUntil(c, i, {});
    run, s := AdmitNext(c, run, s, i, {});
    run, s := Play(c, run, s, Raise(i));
    run, s := Play(c, run, s, Release(i));
    run, s := Play(c, run, s, Finish(i));
    assert i in SeenFailing(s);
    if i + 1 < c.last {
      run, s := Play(c, run, s, HarvestFailure);
    } else {
      run, s := Play(c, run, s, EndLoop);
      assert i in SeenFailing(s);
      run, s := Play(c, run, s, JoinFailure);
    }
    run, s := Play(c, run, s, Leave);
  }
}
