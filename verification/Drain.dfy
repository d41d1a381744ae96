/** Waiting for the write-ahead log to become durable
    (tools/deployment-envelope.py:391-405, 519-528), against consumers that keep
    their recovery status as the services do
    (crates/observability/src/wal_consumer_metrics/wal_consumer_metrics_bundle.rs:184-309). */
module Drain {
  import opened Basics

  // ----- the test on one status report

  datatype Partition = Partition(owned: bool, consumed: Option<int>, committed: Option<int>)

  datatype Consumer = Consumer(caughtUp: bool, partitions: seq<Partition>)

  datatype Status = Status(ready: bool, consumers: seq<Consumer>)

  /** The consumers whose commits stand for durability: one of them, if the
      caller names it, and otherwise all. */
  function Selected(status: Status, index: Option<int>): seq<Consumer> {
    match index
    case None => status.consumers
    case Some(i) => if 0 <= i < |status.consumers| then [status.consumers[i]] else []
  }

  predicate PartitionDurable(p: Partition, end: int) {
    p.consumed.Some? && p.committed.Some?
    && p.committed.value > p.consumed.value
    && p.consumed.value >= end - 1
    && p.committed.value >= end
  }

  predicate SomeAssigned(cs: seq<Consumer>) {
    exists c | c in cs :: exists p | p in c.partitions :: p.owned
  }

  predicate DurablyCaughtUp(status: Status, end: int, index: Option<int>) {
    var durable := Selected(status, index);
    && status.consumers != [] && SomeAssigned(durable)
    && status.ready
    && (forall c | c in status.consumers :: c.caughtUp)
    && (forall c | c in durable :: forall p | p in c.partitions && p.owned :: PartitionDurable(p, end))
  }

  /** Asking for less of the log is never refused where more was granted. */
  lemma {:induction false} TestIsAntitone(status: Status, low: int, high: int, index: Option<int>)
    requires low <= high && DurablyCaughtUp(status, high, index)
    ensures DurablyCaughtUp(status, low, index)
  {
    forall c, p | c in Selected(status, index) && p in c.partitions && p.owned
      ensures PartitionDurable(p, low)
    {
      assert PartitionDurable(p, high);
    }
  }

  /** The test reads the consumer in place `i`. */
  predicate IsRead(index: Option<int>, i: int) { index == None || index == Some(i) }

  /** Consumed to the end, and committed past what was consumed. */
  predicate Settled(p: Partition, end: int) {
    match (p.consumed, p.committed)
    case (Some(consumed), Some(committed)) => end - 1 <= consumed < committed && end <= committed
    case _ => false
  }

  /** An assigned partition of a consumer that the test reads. */
  ghost predicate Watched(status: Status, index: Option<int>, i: int, j: int) {
    && 0 <= i < |status.consumers| && IsRead(index, i)
    && 0 <= j < |status.consumers[i].partitions| && status.consumers[i].partitions[j].owned
  }

  /** What the test demands of a report: readiness, every consumer caught up whether it
      is read or not, something to watch, and all of that settled. */
  lemma {:induction false} TestMeans(status: Status, end: int, index: Option<int>)
    ensures DurablyCaughtUp(status, end, index) <==>
            && status.ready && (forall i | 0 <= i < |status.consumers| :: status.consumers[i].caughtUp)
            && (exists i, j :: Watched(status, index, i, j))
            && (forall i, j | Watched(status, index, i, j) :: Settled(status.consumers[i].partitions[j], end))
  {
    hide Selected, PartitionDurable, Settled;
    var durable := Selected(status, index);
    forall c ensures c in durable <==> ReadAt(status, index, c) { SelectedAre(status, index, c); }
    forall p ensures PartitionDurable(p, end) <==> Settled(p, end) { SettledIs(p, end); }
    forall i, j | Watched(status, index, i, j)
      ensures status.consumers[i] in durable && status.consumers[i].partitions[j] in status.consumers[i].partitions
    {
      assert ReadAt(status, index, status.consumers[i]);
    }
    forall c, p | c in durable && p in c.partitions && p.owned
      ensures exists i, j :: Watched(status, index, i, j) && status.consumers[i].partitions[j] == p
    {
      var i :| 0 <= i < |status.consumers| && IsRead(index, i) && status.consumers[i] == c;
      var j :| 0 <= j < |c.partitions| && c.partitions[j] == p;
      assert Watched(status, index, i, j);
    }
  }

  ghost predicate ReadAt(status: Status, index: Option<int>, c: Consumer) {
    exists i :: 0 <= i < |status.consumers| && IsRead(index, i) && status.consumers[i] == c
  }

  lemma {:induction false} SelectedAre(status: Status, index: Option<int>, c: Consumer)
    ensures c in Selected(status, index) <==> ReadAt(status, index, c)
  {
  }

  lemma {:induction false} SettledIs(p: Partition, end: int)
    ensures PartitionDurable(p, end) <==> Settled(p, end)
  {
  }

  // ----- the polling loop

  datatype Reply = Reply(code: int, body: Status)

  datatype Outcome = Outcome(recovered: bool, end: int, status: Option<Status>)

  predicate Passes(r: Reply, end: int, index: Option<int>) {
    r.code == 200 && DurablyCaughtUp(r.body, end, index)
  }

  /** The report in the last reply that has one. */
  ghost function LastStatus(replies: seq<Reply>): Option<Status> {
    if replies == [] then None
    else
      var last := replies[|replies| - 1];
      if last.code == 200 then Some(last.body) else LastStatus(replies[..|replies| - 1])
  }

  /** `replies` are the answers that arrive before the timeout. */
  method Poll(replies: seq<Reply>, end: int, index: Option<int>) returns (o: Outcome, asked: nat)
    ensures asked <= |replies| && o.end == end
    ensures o.recovered <==> exists k :: 0 <= k < |replies| && Passes(replies[k], end, index)
    ensures o.recovered ==>
              asked > 0 && Passes(replies[asked - 1], end, index) && o.status == Some(replies[asked - 1].body)
    ensures forall k | 0 <= k < (if o.recovered then asked - 1 else |replies|) :: !Passes(replies[k], end, index)
    ensures !o.recovered ==> o.status == LastStatus(replies)
  {
    var status: Option<Status> := None;
    asked := 0;
    while asked < |replies|
      invariant asked <= |replies| && status == LastStatus(replies[..asked])
      invariant forall k | 0 <= k < asked :: !Passes(replies[k], end, index)
    {
      var r := replies[asked];
      assert replies[..asked + 1][..asked] == replies[..asked];
      asked := asked + 1;
      if r.code == 200 {
        status := Some(r.body);
        if DurablyCaughtUp(r.body, end, index) {
          return Outcome(true, end, status), asked;
        }
      }
    }
    assert replies[..asked] == replies;
    return Outcome(false, end, status), asked;
  }

  // ----- the log and its consumers

  /** A consumer of the log's one partition. A `writer` builds blocks and commits
      only what it has flushed; another consumer may commit what it likes. The
      partition is `known` once it was assigned or delivered a record. */
  datatype Role = Role(writer: bool, caughtUp: bool, known: bool, partition: Partition)

  /** `end` is the offset of the next record; `durable` holds the offsets that
      survive in object storage. */
  datatype System = System(end: nat, durable: set<nat>, ready: bool, roles: seq<Role>)

  function StatusOf(s: System): Status {
    Status(s.ready, seq(|s.roles|, i requires 0 <= i < |s.roles| => ConsumerOf(s.roles[i])))
  }

  function ConsumerOf(r: Role): Consumer {
    Consumer(r.caughtUp, if r.known then [r.partition] else [])
  }

  datatype Step =
    | Append
    | Flush(offset: nat)
    | Deliver(role: nat, upTo: nat)
    | Commit(role: nat)
    | Assign(role: nat, owned: bool, caughtUp: bool)
    | Restart(role: nat)
    | SetReady(ready: bool)

  predicate Enabled(s: System, step: Step) {
    match step
    case Append => true
    case Flush(o) => o < s.end
    case Deliver(i, upTo) => i < |s.roles| && upTo < s.end
    case Commit(i) => i < |s.roles| && MayCommit(s, s.roles[i])
    case Assign(i, _, _) => i < |s.roles|
    case Restart(i) => i < |s.roles|
    case SetReady(_) => true
  }

  /** A writer commits a prefix of the log only when all of it is flushed. */
  predicate MayCommit(s: System, r: Role) {
    r.writer && r.partition.consumed.Some? ==>
      forall o: nat | o <= r.partition.consumed.value :: o in s.durable
  }

  function Apply(s: System, step: Step): System
    requires Enabled(s, step)
  {
    match step
    case Append => s.(end := s.end + 1)
    case Flush(o) => s.(durable := s.durable + {o})
    case Deliver(i, upTo) =>
      var r := s.roles[i];
      var p := if r.known then r.partition else Partition(true, None, None);
      s.(roles := s.roles[i := r.(caughtUp := false, known := true, partition := p.(consumed := Some(upTo)))])
    case Commit(i) =>
      var r := s.roles[i];
      var p := r.partition;
      var committed := if p.consumed.Some? then Some(p.consumed.value + 1) else None;
      if r.known && p.owned then s.(roles := s.roles[i := r.(partition := p.(committed := committed))]) else s
    case Assign(i, owned, caughtUp) =>
      var r := s.roles[i];
      if owned && !r.known then
        s.(roles := s.roles[i := r.(caughtUp := caughtUp, known := true, partition := Partition(true, None, None))])
      else s.(roles := s.roles[i := r.(caughtUp := caughtUp, partition := r.partition.(owned := owned))])
    case Restart(i) =>
      var restarted := s.roles[i].(caughtUp := false, known := false, partition := Partition(false, None, None));
      s.(roles := s.roles[i := restarted])
    case SetReady(ready) => s.(ready := ready)
  }

  predicate Initial(s: System) {
    && s.durable == {}
    && forall i | 0 <= i < |s.roles| ::
         !s.roles[i].known && s.roles[i].partition == Partition(false, None, None)
  }

  /** A run of the system: each state follows from the one before. */
  ghost predicate IsRun(states: seq<System>, steps: seq<Step>) {
    && |states| == |steps| + 1 && Initial(states[0])
    && forall k | 0 <= k < |steps| :: Enabled(states[k], steps[k]) && states[k + 1] == Apply(states[k], steps[k])
  }

  // ----- what every step keeps

  /** What a writer has committed is durable. */
  ghost predicate Honest(s: System, r: Role) {
    r.writer && r.partition.committed.Some? ==> forall o: nat | o < r.partition.committed.value :: o in s.durable
  }

  ghost predicate Inv(s: System) {
    forall i | 0 <= i < |s.roles| :: Honest(s, s.roles[i])
  }

  lemma {:induction false} StepKeepsInv(s: System, step: Step)
    requires Inv(s) && Enabled(s, step)
    ensures Inv(Apply(s, step))
    ensures s.durable <= Apply(s, step).durable && s.end <= Apply(s, step).end
    ensures |Apply(s, step).roles| == |s.roles|
    ensures forall i | 0 <= i < |s.roles| :: Apply(s, step).roles[i].writer == s.roles[i].writer
  {
    var t := Apply(s, step);
    forall i | 0 <= i < |t.roles| ensures Honest(t, t.roles[i]) {
      assert Honest(s, s.roles[i]);
    }
  }

  lemma {:induction false} RunKeepsInv(states: seq<System>, steps: seq<Step>, k: nat)
    requires IsRun(states, steps) && k < |states|
    ensures Inv(states[k])
    decreases k
  {
    if k > 0 {
      RunKeepsInv(states, steps, k - 1);
      StepKeepsInv(states[k - 1], steps[k - 1]);
    }
  }

  lemma {:induction false} LogOnlyGrows(states: seq<System>, steps: seq<Step>, a: nat, b: nat)
    requires IsRun(states, steps) && a <= b < |states|
    ensures states[a].durable <= states[b].durable && states[a].end <= states[b].end
    decreases b - a
  {
    if a < b {
      LogOnlyGrows(states, steps, a, b - 1);
      RunKeepsInv(states, steps, b - 1);
      StepKeepsInv(states[b - 1], steps[b - 1]);
    }
  }

  // ----- which readings are safe

  /** The test reads only writers: what a caller that picks the index must know. */
  ghost predicate ReadsOnlyWriters(s: System, index: Option<int>) {
    forall i | 0 <= i < |s.roles| && (index == None || index == Some(i)) :: s.roles[i].writer
  }

  /** The role is read and has the partition. */
  ghost predicate Holds(s: System, index: Option<int>, i: int) {
    0 <= i < |s.roles| && IsRead(index, i) && s.roles[i].known && s.roles[i].partition.owned
  }

  /** The system is ready, every role has caught up, and each one that is read and has
      the partition, of which there is one, has consumed and committed up to `end`. */
  ghost predicate CaughtUpTo(s: System, end: int, index: Option<int>) {
    && s.ready && (forall i | 0 <= i < |s.roles| :: s.roles[i].caughtUp)
    && (exists i :: Holds(s, index, i))
    && (forall i | Holds(s, index, i) :: Settled(s.roles[i].partition, end))
  }

  lemma {:induction false} WatchedIsHeld(s: System, index: Option<int>)
    ensures forall i, j :: Watched(StatusOf(s), index, i, j) <==> j == 0 && Holds(s, index, i)
    ensures forall i, j | Watched(StatusOf(s), index, i, j) ::
              StatusOf(s).consumers[i].partitions[j] == s.roles[i].partition
  {
  }

  /** A passing report means just that of the system it was made by. */
  lemma {:induction false} PassingMeans(s: System, end: int, index: Option<int>)
    ensures DurablyCaughtUp(StatusOf(s), end, index) <==> CaughtUpTo(s, end, index)
  {
    hide DurablyCaughtUp, Settled, Watched;
    var status := StatusOf(s);
    TestMeans(status, end, index);
    WatchedIsHeld(s, index);
    assert forall i | 0 <= i < |s.roles| :: status.consumers[i].caughtUp == s.roles[i].caughtUp;
    if i :| Holds(s, index, i) {
      assert Watched(status, index, i, 0);
    }
    forall i | Holds(s, index, i)
      ensures Watched(status, index, i, 0) && status.consumers[i].partitions[0] == s.roles[i].partition
    {
    }
  }

  lemma {:induction false} PassingIsDurable(s: System, end: int, index: Option<int>)
    requires Inv(s) && ReadsOnlyWriters(s, index) && DurablyCaughtUp(StatusOf(s), end, index)
    ensures forall o: nat | o < end :: o in s.durable
  {
    hide DurablyCaughtUp, StatusOf;
    PassingMeans(s, end, index);
    var i :| Holds(s, index, i);
    assert Honest(s, s.roles[i]);
  }

  /** And the test is not idle: once every consumer has caught up and those it
      reads have committed the whole log, it passes. */
  lemma {:induction false} QuietSystemPasses(s: System, index: Option<int>, j: nat)
    requires s.ready && (forall i | 0 <= i < |s.roles| :: s.roles[i].caughtUp)
    requires j < |s.roles| && (index == None || index == Some(j as int))
    requires s.roles[j].known && s.roles[j].partition.owned
    requires forall i | 0 <= i < |s.roles| && (index == None || index == Some(i))
                        && s.roles[i].known && s.roles[i].partition.owned ::
               s.roles[i].partition == Partition(true, Some(s.end - 1), Some(s.end as int))
    ensures DurablyCaughtUp(StatusOf(s), s.end, index)
  {
    hide DurablyCaughtUp, StatusOf;
    assert Holds(s, index, j);
    PassingMeans(s, s.end, index);
  }

  lemma {:induction false} WritersStay(states: seq<System>, steps: seq<Step>, k: nat)
    requires IsRun(states, steps) && k < |states|
    ensures |states[k].roles| == |states[0].roles|
    ensures forall i | 0 <= i < |states[0].roles| :: states[k].roles[i].writer == states[0].roles[i].writer
    decreases k
  {
    if k > 0 {
      WritersStay(states, steps, k - 1);
      RunKeepsInv(states, steps, k - 1);
      StepKeepsInv(states[k - 1], steps[k - 1]);
    }
  }

  /** A recovered drain means what it says. If the end of the log was read at
      state `a` and a later status, of state `b`, passes the test for it, then
      every record appended before the read is durable from then on, whatever
      was appended, delivered, committed, reassigned or restarted in between. */
  lemma {:induction false} DrainIsSafe(states: seq<System>, steps: seq<Step>, a: nat, b: nat, later: nat,
                                       index: Option<int>)
    requires IsRun(states, steps) && a <= b <= later < |states|
    requires ReadsOnlyWriters(states[0], index)
    requires DurablyCaughtUp(StatusOf(states[b]), states[a].end, index)
    ensures forall o: nat | o < states[a].end :: o in states[later].durable
  {
    WritersStay(states, steps, b);
    RunKeepsInv(states, steps, b);
    PassingIsDurable(states[b], states[a].end, index);
    LogOnlyGrows(states, steps, b, later);
  }

  /** Each 200 reply is the status of the system at some point of the run, none
      before the end offset was read. */
  ghost predicate Answers(states: seq<System>, a: nat, replies: seq<Reply>, at: seq<nat>) {
    && |at| == |replies|
    && forall k | 0 <= k < |replies| && replies[k].code == 200 ::
         a <= at[k] < |states| && replies[k].body == StatusOf(states[at[k]])
  }

  ghost predicate AllDurable(s: System, end: nat) {
    forall o: nat | o < end :: o in s.durable
  }

  /** The whole drain: read the end offset, then poll. If it recovers, the system had
      caught up to that offset by then, and every record below it is durable when the
      run ends. */
  method WaitUntilDurable(ghost states: seq<System>, ghost steps: seq<Step>, ghost a: nat, ghost at: seq<nat>,
                          end: nat, replies: seq<Reply>, index: Option<int>) returns (o: Outcome)
    requires IsRun(states, steps) && a < |states| && end == states[a].end
    requires Answers(states, a, replies, at) && ReadsOnlyWriters(states[0], index)
    ensures o.recovered <==> exists k :: 0 <= k < |replies| && Passes(replies[k], end, index)
    ensures o.recovered ==> AllDurable(states[|states| - 1], end)
    ensures o.recovered ==> exists b :: a <= b < |states| && CaughtUpTo(states[b], end, index)
  {
    hide IsRun, DurablyCaughtUp, ReadsOnlyWriters, StatusOf, CaughtUpTo;
    var asked: nat;
    o, asked := Poll(replies, end, index);
    if o.recovered {
      PassingMeans(states[at[asked - 1]], end, index);
      DrainIsSafe(states, steps, a, at[asked - 1], |states| - 1, index);
    }
  }

  // ----- what a status says about the past

  /** The last of the first `b` steps that is about role `i` and is of this kind. */
  ghost function LastOf(steps: seq<Step>, b: nat, kind: Step -> bool): (r: Option<Step>)
    requires b <= |steps|
    ensures r.Some? ==> kind(r.value)
  {
    if b == 0 then None else if kind(steps[b - 1]) then Some(steps[b - 1]) else LastOf(steps, b - 1, kind)
  }

  predicate Reports(step: Step, i: nat) {
    step == Restart(i) || (step.Deliver? && step.role == i) || (step.Assign? && step.role == i)
  }

  predicate Moves(step: Step, i: nat) { step == Restart(i) || (step.Deliver? && step.role == i) }

  /** A role is caught up if the last thing it heard was an assignment that said so:
      a delivery or a restart since would have taken it back. */
  lemma {:induction false} CaughtUpIsLastWord(states: seq<System>, steps: seq<Step>, i: nat, b: nat)
    requires IsRun(states, steps) && b < |states| && i < |states[0].roles|
    ensures |states[b].roles| == |states[0].roles|
    ensures var last := LastOf(steps, b, (step: Step) => Reports(step, i));
            states[b].roles[i].caughtUp ==
            if last.None? then states[0].roles[i].caughtUp else last.value.Assign? && last.value.caughtUp
    decreases b
  {
    if b > 0 {
      CaughtUpIsLastWord(states, steps, i, b - 1);
    }
  }

  lemma {:induction false} ConsumedStep(s: System, step: Step, i: nat)
    requires Enabled(s, step) && i < |s.roles|
    requires !s.roles[i].known ==> s.roles[i].partition.consumed == None
    ensures var t := Apply(s, step);
            && |t.roles| == |s.roles| && (!t.roles[i].known ==> t.roles[i].partition.consumed == None)
            && t.roles[i].partition.consumed ==
               if !Moves(step, i) then s.roles[i].partition.consumed
               else if step.Deliver? then Some(step.upTo as int) else None
  {
  }

  /** The consumed offset is that of the last delivery since the last restart. */
  lemma {:induction false} ConsumedIsLastDelivered(states: seq<System>, steps: seq<Step>, i: nat, b: nat)
    requires IsRun(states, steps) && b < |states| && i < |states[0].roles|
    ensures |states[b].roles| == |states[0].roles|
    ensures !states[b].roles[i].known ==> states[b].roles[i].partition.consumed == None
    ensures var last := LastOf(steps, b, (step: Step) => Moves(step, i));
            states[b].roles[i].partition.consumed ==
            if last.Some? && last.value.Deliver? then Some(last.value.upTo as int) else None
    decreases b
  {
    hide Enabled, Apply;
    if b > 0 {
      ConsumedIsLastDelivered(states, steps, i, b - 1);
      ConsumedStep(states[b - 1], steps[b - 1], i);
    }
  }

  /** A step that leaves something committed has just committed it, or left it alone. */
  lemma {:induction false} CommittedStep(s: System, step: Step, i: nat)
    requires Enabled(s, step) && i < |s.roles|
    ensures var r, t := s.roles[i], Apply(s, step);
            && |t.roles| == |s.roles|
            && (t.roles[i].partition.committed.Some? ==>
                  if step == Commit(i) && r.known && r.partition.owned
                  then r.partition.consumed == Some(t.roles[i].partition.committed.value - 1)
                  else step != Restart(i) && t.roles[i].partition.committed == r.partition.committed)
  {
  }

  /** What is committed was consumed when the role, having the partition, committed
      at step `k`, and neither a restart nor a later commit of its has replaced it. */
  lemma {:induction false} CommittedWasConsumed(states: seq<System>, steps: seq<Step>, i: nat, b: nat) returns (k: nat)
    requires IsRun(states, steps) && b < |states| && i < |states[0].roles|
    requires |states[b].roles| == |states[0].roles| && states[b].roles[i].partition.committed.Some?
    ensures k < b && |states[k].roles| == |states[0].roles| && steps[k] == Commit(i)
    ensures var p := states[k].roles[i].partition;
            p.owned && p.consumed == Some(states[b].roles[i].partition.committed.value - 1)
    ensures forall m | k < m < b :: steps[m] != Restart(i)
    ensures forall m | k < m < b && steps[m] == Commit(i) ::
              && |states[m].roles| == |states[0].roles|
              && !(states[m].roles[i].known && states[m].roles[i].partition.owned)
    decreases b
  {
    hide Enabled, Apply;
    NothingCommitted(states[0], i);
    k := b - 1;
    WritersStay(states, steps, b - 1);
    CommittedStep(states[k], steps[k], i);
    var before := states[k].roles[i];
    if steps[k] != Commit(i) || !before.known || !before.partition.owned {
      k := CommittedWasConsumed(states, steps, i, b - 1);
    }
  }

  lemma {:induction false} NothingCommitted(s: System, i: nat)
    requires Initial(s) && i < |s.roles|
    ensures s.roles[i].partition.committed == None
  {
  }

  lemma {:induction false} RunExtends(states: seq<System>, steps: seq<Step>, step: Step)
    requires IsRun(states, steps) && Enabled(states[|steps|], step)
    ensures IsRun(states + [Apply(states[|steps|], step)], steps + [step])
  {
  }

  /** The state of a role that has nothing to do and says so. */
  const IDLE: Partition := Partition(false, None, None)

  /** The condition is exact. Whenever the test reads a consumer that is not a
      writer, some run passes it for a log of one record while nothing at all is
      durable: the other consumers lose the partition and report themselves
      caught up, and the reader's commit is taken for durability. */
  lemma {:induction false} OtherwiseDrainIsUnsafe(writers: seq<bool>, j: nat, index: Option<int>)
    returns (states: seq<System>, steps: seq<Step>)
    requires j < |writers| && !writers[j] && (index == None || index == Some(j as int))
    ensures IsRun(states, steps)
    ensures |states[0].roles| == |writers| && forall i | 0 <= i < |writers| :: states[0].roles[i].writer == writers[i]
    ensures var s := states[|steps|]; s.end == 1 && s.durable == {} && DurablyCaughtUp(StatusOf(s), 1, index)
  {
    var n := |writers|;
    var idle := seq(n, i requires 0 <= i < n => Role(writers[i], false, false, IDLE));
    var s := System(0, {}, true, idle);
    states, steps := [s], [];
    var p := Partition(true, Some(0), Some(1));
    states, steps := Play(states, steps, Append);
    states, steps := Play(states, steps, Assign(j, true, false));
    states, steps := Play(states, steps, Deliver(j, 0));
    states, steps := Play(states, steps, Commit(j));
    states, steps := Play(states, steps, Assign(j, true, true));
    var k := 0;
    while k < n
      invariant 0 <= k <= n && IsRun(states, steps) && states[0] == s
      invariant var t := states[|steps|];
                && t.end == 1 && t.durable == {} && t.ready && |t.roles| == n
                && t.roles[j] == Role(false, true, true, p)
                && forall i | 0 <= i < n && i != j :: t.roles[i] == Role(writers[i], i < k, false, IDLE)
    {
      if k != j {
        states, steps := Play(states, steps, Assign(k, false, true));
      }
      k := k + 1;
    }
    var t := states[|steps|];
    var status := StatusOf(t);
    assert status.consumers[j] == Consumer(true, [p]);
    assert status.consumers[j] in Selected(status, index) && p in status.consumers[j].partitions;
    assert PartitionDurable(p, 1);
    forall i | 0 <= i < n ensures status.consumers[i].caughtUp && (i != j ==> status.consumers[i].partitions == []) {
    }
  }

  lemma {:induction false} Play(states: seq<System>, steps: seq<Step>, step: Step)
        returns (longer: seq<System>, more: seq<Step>)
    requires IsRun(states, steps) && Enabled(states[|steps|], step)
    ensures IsRun(longer, more) && longer[0] == states[0]
    ensures longer[|more|] == Apply(states[|steps|], step)
  {
    RunExtends(states, steps, step);
    longer, more := states + [Apply(states[|steps|], step)], steps + [step];
  }
}
