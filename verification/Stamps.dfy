/** The clock of the metric writer: per tenant and age, never the same
    millisecond twice (tools/compare-grafana.py:65-71). The lock makes each call
    one step. */
module Stamps {
  import opened Basics

  type Stream = (string, int)

  function LastFor(last: map<Stream, int>, key: Stream): int {
    if key in last then last[key] else 0
  }

  /** A call: who asks, and the clock at that moment, age already taken off. */
  datatype Call = Call(key: Stream, now: int)

  function Next(last: map<Stream, int>, call: Call): int {
    Max(call.now, LastFor(last, call.key) + 1)
  }

  class Clock {
    var last: map<Stream, int>

    constructor ()
      ensures last == map[]
    {
      last := map[];
    }

    method Stamp(tenant: string, age: int, clock: int) returns (stamp: int)
      modifies this
      ensures stamp == Next(old(last), Call((tenant, age), clock - age * 1000))
      ensures last == old(last)[(tenant, age) := stamp]
    {
      var now := clock - age * 1000;
      stamp := Max(now, LastFor(last, (tenant, age)) + 1);
      last := last[(tenant, age) := stamp];
    }
  }

  /** The stamps that a run of calls hands out. */
  ghost function Handed(last: map<Stream, int>, calls: seq<Call>): (stamps: seq<int>)
    ensures |stamps| == |calls|
    decreases |calls|
  {
    if calls == [] then []
    else
      var stamp := Next(last, calls[0]);
      [stamp] + Handed(last[calls[0].key := stamp], calls[1..])
  }

  lemma {:induction false} HandedAboveLast(last: map<Stream, int>, calls: seq<Call>, j: nat)
    requires j < |calls|
    ensures Handed(last, calls)[j] > LastFor(last, calls[j].key)
    ensures Handed(last, calls)[j] >= calls[j].now
    decreases |calls|
  {
    if j > 0 {
      HandedAboveLast(last[calls[0].key := Next(last, calls[0])], calls[1..], j - 1);
    }
  }

  /** Within a tenant and age the stamps strictly increase, whatever the clock
      does, and none is behind the clock. */
  lemma {:induction false} StampsIncrease(last: map<Stream, int>, calls: seq<Call>, i: nat, j: nat)
    requires i < j < |calls| && calls[i].key == calls[j].key
    ensures Handed(last, calls)[i] < Handed(last, calls)[j]
    decreases |calls|
  {
    var next := last[calls[0].key := Next(last, calls[0])];
    if i == 0 {
      HandedAboveLast(next, calls[1..], j - 1);
    } else {
      StampsIncrease(next, calls[1..], i - 1, j - 1);
    }
  }

  /** A stamp moves past the clock only as far as an earlier stamp forces it to:
      it is the clock, or one more than the latest stamp of the same stream, or
      the first millisecond. */
  lemma {:induction false} StampsAreTight(calls: seq<Call>, j: nat)
    requires j < |calls|
    ensures var stamp := Handed(map[], calls)[j];
            || stamp == calls[j].now
            || (stamp == 1 && forall i | 0 <= i < j :: calls[i].key != calls[j].key)
            || exists i | 0 <= i < j :: calls[i].key == calls[j].key && stamp == Handed(map[], calls)[i] + 1
  {
    TightFrom(map[], calls, j);
  }

  lemma {:induction false} TightFrom(last: map<Stream, int>, calls: seq<Call>, j: nat)
    requires j < |calls|
    ensures var stamp := Handed(last, calls)[j];
            || stamp == calls[j].now
            || (stamp == LastFor(last, calls[j].key) + 1 && forall i | 0 <= i < j :: calls[i].key != calls[j].key)
            || exists i | 0 <= i < j :: calls[i].key == calls[j].key && stamp == Handed(last, calls)[i] + 1
    decreases |calls|
  {
    if j > 0 {
      var next := last[calls[0].key := Next(last, calls[0])];
      var rest := Handed(next, calls[1..]);
      TightFrom(next, calls[1..], j - 1);
      var stamp := Handed(last, calls)[j];
      assert stamp == rest[j - 1];
      if i :| 0 <= i < j - 1 && calls[1..][i].key == calls[1..][j - 1].key && stamp == rest[i] + 1 {
        assert calls[i + 1].key == calls[j].key && stamp == Handed(last, calls)[i + 1] + 1;
      } else if stamp != calls[j].now {
        assert forall i | 0 <= i < j - 1 :: calls[1..][i].key != calls[j].key;
        if calls[0].key == calls[j].key {
          assert stamp == Handed(last, calls)[0] + 1;
        } else {
          forall i | 0 <= i < j ensures calls[i].key != calls[j].key {
            assert i > 0 ==> calls[i] == calls[1..][i - 1];
          }
        }
      }
    }
  }
}
