/** A sweep's shards, the gate over their totals, and the proof of the gate by a
    synthetic sweep (tools/mutants-ratchet.py:176-241, 273-307, 319-346, 389-463). */
module MutantsRatchet {
  import opened Text
  import opened Ordering
  import opened Lists
  import opened Basics
  import opened MutantsLog

  type Log = (string, string)

  datatype Totals = Totals(numbers: Numbers, shards: nat)

  datatype SweepFault = NoLogs | InShard(name: string, reason: Reason) | WidthsDisagree(widths: set<int>)
    | LeftNoLog(missing: int) | OtherConfiguration(width: int) | NoMutants

  datatype Sweep = Swept(totals: Totals) | Faulty(faults: seq<SweepFault>)

  // ----- the names of shard directories

  /** The shard count that a directory name `shard_<i>_of_<n>` shows, if it is one. The
      pattern's `$` also matches before a last newline. */
  function Width(name: string): Option<int> {
    var r := ReadWidth(name);
    if r.Parsed? && (r.rest == "" || r.rest == "\n") then Some(r.value) else None
  }

  function ReadWidth(name: string): Parsed<int> {
    var (u0, r0) :- Expect("shard_", name);
    var (index, r1) :- ReadNat(r0);
    var (u1, r2) :- Expect("_of_", r1);
    ReadNat(r2)
  }

  function ShardName(index: nat, shards: nat): string {
    "shard_" + (NatText(index) + ("_of_" + NatText(shards)))
  }

  lemma {:induction false} NameReads(index: nat, shards: nat)
    ensures Width(ShardName(index, shards)) == Some(shards)
  {
    hide ReadNat, Expect, NatText;
    var tail := "_of_" + NatText(shards);
    ExpectReads("shard_", NatText(index) + tail);
    assert tail[0] == '_';
    NatReads(index, tail);
    ExpectReads("_of_", NatText(shards));
    NatReads(shards, "");
    assert NatText(shards) + "" == NatText(shards);
  }

  /** The pattern of a shard's directory, and the number at its end. */
  ghost predicate ShowsWidth(name: string, w: int, index: string, width: string, end: string) {
    && AreDigits(index) && AreDigits(width) && (end == "" || end == "\n")
    && name == "shard_" + (index + ("_of_" + (width + end))) && w == NatValue(width)
  }

  lemma {:induction false} WidthMatches(name: string, w: int)
    ensures Width(name) == Some(w) <==> exists index, width, end :: ShowsWidth(name, w, index, width, end)
  {
    hide ReadNat, Expect, NatValue;
    if index, width, end :| ShowsWidth(name, w, index, width, end) {
      ExpectReads("shard_", index + ("_of_" + (width + end)));
      DigitsRead(index, "_of_" + (width + end));
      ExpectReads("_of_", width + end);
      DigitsRead(width, end);
    }
    if Width(name) == Some(w) {
      var r0 := Expect("shard_", name).rest;
      var index := ReadDigits(r0);
      var r2 := Expect("_of_", ReadNat(r0).rest).rest;
      var width := ReadDigits(r2);
      assert ShowsWidth(name, w, index, width, ReadNat(r2).rest);
    }
  }

  lemma {:induction false} NamesDiffer(i: nat, j: nat, shards: nat)
    requires ShardName(i, shards) == ShardName(j, shards)
    ensures i == j
  {
    hide ReadNat, Expect, NatText;
    var tail := "_of_" + NatText(shards);
    ExpectReads("shard_", NatText(i) + tail);
    ExpectReads("shard_", NatText(j) + tail);
    assert tail[0] == '_';
    NatReads(i, tail);
    NatReads(j, tail);
  }

  // ----- reading a sweep

  function Add(a: Numbers, b: Numbers): Numbers {
    Numbers(a.total + b.total, a.caught + b.caught, a.missed + b.missed, a.unviable + b.unviable)
  }

  ghost predicate AllRead(logs: seq<Log>) { forall i | 0 <= i < |logs| :: ReadShard(logs[i].1).Read? }

  ghost function Sum(logs: seq<Log>): Numbers
    requires AllRead(logs)
  {
    if logs == [] then Numbers(0, 0, 0, 0)
    else Add(Sum(logs[..|logs| - 1]), ReadShard(logs[|logs| - 1].1).numbers)
  }

  function Widths(logs: seq<Log>): set<int> {
    set i | 0 <= i < |logs| && Width(logs[i].0).Some? :: Width(logs[i].0).value
  }

  /** What the sweep must look like to be believed. */
  ghost predicate Trusted(logs: seq<Log>, expected: Option<int>) {
    && logs != [] && AllRead(logs) && Sum(logs).total != 0
    && |Widths(logs)| <= 1
    && (forall w | w in Widths(logs) :: |logs| == w && (expected.Some? ==> expected.value == w))
  }

  ghost predicate ShardFails(logs: seq<Log>, name: string, reason: Reason) {
    exists i :: 0 <= i < |logs| && logs[i].0 == name && ReadShard(logs[i].1) == Fault(reason)
  }

  /** A width that all numbered directories show, and that fits the logs and the
      declaration. */
  ghost predicate WidthsFit(logs: seq<Log>, expected: Option<int>) {
    |Widths(logs)| <= 1 && forall w | w in Widths(logs) :: |logs| == w && (expected.Some? ==> expected.value == w)
  }

  /** What speaks against the sweep. That there are no mutants counts only when nothing
      else does. */
  ghost predicate SpeaksAgainst(logs: seq<Log>, expected: Option<int>, fault: SweepFault) {
    match fault
    case NoLogs => logs == []
    case InShard(name, reason) => ShardFails(logs, name, reason)
    case WidthsDisagree(widths) => widths == Widths(logs) && |widths| > 1
    case LeftNoLog(missing) => exists w :: Widths(logs) == {w} && w != |logs| && missing == w - |logs|
    case OtherConfiguration(w) => Widths(logs) == {w} && expected.Some? && expected.value != w
    case NoMutants => logs != [] && AllRead(logs) && WidthsFit(logs, expected) && Sum(logs).total == 0
  }

  /** The shards that fail, read up to `i`. */
  ghost predicate FailuresUpTo(logs: seq<Log>, i: nat, faults: seq<SweepFault>)
    requires i <= |logs|
  {
    forall f :: f in faults <==> f.InShard? && ShardFails(logs[..i], f.name, f.reason)
  }

  lemma {:induction false} FailuresSnoc(logs: seq<Log>, i: nat, faults: seq<SweepFault>)
    requires i < |logs| && FailuresUpTo(logs, i, faults)
    ensures var shard := ReadShard(logs[i].1);
            FailuresUpTo(logs, i + 1, if shard.Fault? then faults + [InShard(logs[i].0, shard.reason)] else faults)
  {
    hide ReadShard;
    var shard, init, longer := ReadShard(logs[i].1), logs[..i], logs[..i + 1];
    forall name, reason
      ensures ShardFails(longer, name, reason) <==>
              ShardFails(init, name, reason) || (name == logs[i].0 && shard == Fault(reason))
    {
      if k :| 0 <= k < |init| && init[k].0 == name && ReadShard(init[k].1) == Fault(reason) {
        assert longer[k] == init[k];
      }
      if k :| 0 <= k < |longer| && longer[k].0 == name && ReadShard(longer[k].1) == Fault(reason) {
        assert k < i ==> init[k] == longer[k];
      }
      assert longer[i] == logs[i];
    }
  }

  predicate OfWidths(fault: SweepFault) { fault.WidthsDisagree? || fault.LeftNoLog? || fault.OtherConfiguration? }

  /** Whether the directories agree with each other, the logs and the declaration. */
  method WidthFaults(logs: seq<Log>, expected: Option<int>) returns (faults: seq<SweepFault>)
    ensures forall f :: f in faults <==> OfWidths(f) && SpeaksAgainst(logs, expected, f)
    ensures faults == [] <==> WidthsFit(logs, expected)
  {
    var widths := Widths(logs);
    hide Widths;
    faults := [];
    if |widths| > 1 {
      faults := [WidthsDisagree(widths)];
    } else if widths != {} {
      ghost var some := Member(widths);
      var width :| width in widths;
      OnlyMember(widths, width);
      if |logs| != width {
        faults := [LeftNoLog(width - |logs|)];
      }
      if expected.Some? && width != expected.value {
        faults := faults + [OtherConfiguration(width)];
      }
    }
  }

  method ReadSweep(logs: seq<Log>, expected: Option<int>) returns (sweep: Sweep)
    ensures sweep.Swept? <==> Trusted(logs, expected)
    ensures sweep.Swept? ==> sweep.totals == Totals(Sum(logs), |logs|)
    ensures sweep.Faulty? ==> forall f :: f in sweep.faults <==> SpeaksAgainst(logs, expected, f)
  {
    hide ReadShard, Width, ShardFails;
    if logs == [] {
      NothingElse(expected);
      return Faulty([NoLogs]);
    }
    var faults: seq<SweepFault> := [];
    var sum := Numbers(0, 0, 0, 0);
    NoFailures(logs);
    for i := 0 to |logs|
      invariant faults == [] <==> AllRead(logs[..i])
      invariant faults == [] ==> sum == Sum(logs[..i])
      invariant FailuresUpTo(logs, i, faults)
    {
      assert logs[..i + 1][..i] == logs[..i];
      var shard := ReadShard(logs[i].1);
      FailuresSnoc(logs, i, faults);
      if shard.Fault? {
        assert !AllRead(logs[..i + 1]) by { assert logs[..i + 1][i] == logs[i]; }
        faults := faults + [InShard(logs[i].0, shard.reason)];
      } else {
        AllReadSnoc(logs, i);
        sum := Add(sum, shard.numbers);
      }
    }
    assert logs[..|logs|] == logs;
    var more := WidthFaults(logs, expected);
    faults := faults + more;
    if faults != [] {
      return Faulty(faults);
    }
    if sum.total == 0 {
      return Faulty([NoMutants]);
    }
    return Swept(Totals(sum, |logs|));
  }

  lemma {:induction false} NothingElse(expected: Option<int>)
    ensures forall f :: f == NoLogs <==> SpeaksAgainst([], expected, f)
  {
    assert Widths([]) == {};
  }

  lemma {:induction false} NoFailures(logs: seq<Log>)
    ensures FailuresUpTo(logs, 0, []) && AllRead(logs[..0]) && Sum(logs[..0]) == Numbers(0, 0, 0, 0)
  {
  }

  lemma {:induction false} AllReadSnoc(logs: seq<Log>, i: nat)
    requires i < |logs| && ReadShard(logs[i].1).Read?
    ensures AllRead(logs[..i + 1]) <==> AllRead(logs[..i])
  {
    hide ReadShard;
    var more, init := logs[..i + 1], logs[..i];
    assert forall k | 0 <= k < i :: more[k] == init[k];
  }

  lemma {:induction false} OnlyMember(s: set<int>, x: int)
    requires |s| <= 1 && x in s
    ensures s == {x}
  {
    assert s == (s - {x}) + {x};
  }

  // ----- what a trusted sweep is worth

  ghost function LabelsIn(logs: seq<Log>): nat {
    if logs == [] then 0 else LabelsIn(logs[..|logs| - 1]) + CountMissed(Lines(logs[|logs| - 1].1))
  }

  /** Whatever the logs, the totals that are believed add up, and the missed are
      the survivors that the logs list by name. */
  lemma {:induction false} TrustedAddsUp(logs: seq<Log>)
    requires AllRead(logs)
    ensures Sum(logs).total == Sum(logs).caught + Sum(logs).missed + Sum(logs).unviable
    ensures Sum(logs).missed == LabelsIn(logs)
    decreases |logs|
  {
    hide TotalsIn, CountMissed, Contains, Lines;
    if logs != [] {
      TrustedAddsUp(logs[..|logs| - 1]);
    }
  }

  /** Every log is of a shard that the sweep of width `w` has, numbered from one. */
  ghost predicate AreShards(logs: seq<Log>, w: nat) {
    forall i | 0 <= i < |logs| :: IsShard(logs[i].0, w)
  }

  ghost predicate IsShard(name: string, w: nat) { exists k: nat :: 1 <= k <= w && name == ShardName(k, w) }

  ghost predicate LeftALog(logs: seq<Log>, k: nat, w: nat) {
    exists i :: 0 <= i < |logs| && logs[i].0 == ShardName(k, w)
  }

  ghost function NamesOf(logs: seq<Log>): set<string> { set i | 0 <= i < |logs| :: logs[i].0 }

  lemma {:induction false} NamesOfSize(logs: seq<Log>)
    requires forall i, j | 0 <= i < j < |logs| :: logs[i].0 != logs[j].0
    ensures |NamesOf(logs)| == |logs|
    decreases |logs|
  {
    if logs == [] {
      assert NamesOf(logs) == {};
    } else {
      var n := |logs| - 1;
      NamesOfSize(logs[..n]);
      assert NamesOf(logs) == NamesOf(logs[..n]) + {logs[n].0};
    }
  }

  ghost function ShardNames(w: nat, n: nat): set<string> { set k: nat | 1 <= k <= n :: ShardName(k, w) }

  lemma {:induction false} ShardNamesSize(w: nat, n: nat)
    ensures |ShardNames(w, n)| == n
  {
    hide ShardName;
    if n == 0 {
      assert ShardNames(w, 0) == {};
    } else {
      ShardNamesSize(w, n - 1);
      if ShardName(n, w) in ShardNames(w, n - 1) {
        var k: nat :| 1 <= k <= n - 1 && ShardName(k, w) == ShardName(n, w);
        NamesDiffer(k, n, w);
        assert false;
      }
      assert ShardNames(w, n) == ShardNames(w, n - 1) + {ShardName(n, w)};
    }
  }

  /** As many logs as the width, and every shard left one exactly when every log
      is a shard's. */
  lemma {:induction false} AsManyAsTheWidth(logs: seq<Log>, w: nat)
    requires |logs| == w && forall i, j | 0 <= i < j < |logs| :: logs[i].0 != logs[j].0
    ensures (forall k: nat | 1 <= k <= w :: LeftALog(logs, k, w)) <==> AreShards(logs, w)
  {
    hide ShardName;
    var found, wanted := NamesOf(logs), ShardNames(w, w);
    NamesOfSize(logs);
    ShardNamesSize(w, w);
    if AreShards(logs, w) {
      forall n | n in found ensures n in wanted {
        var i :| 0 <= i < |logs| && logs[i].0 == n;
        assert IsShard(logs[i].0, w);
      }
      SubsetOfSameSize(found, wanted);
      forall k: nat | 1 <= k <= w ensures LeftALog(logs, k, w) {
        assert ShardName(k, w) in wanted;
      }
    }
    if forall k: nat | 1 <= k <= w :: LeftALog(logs, k, w) {
      forall n | n in wanted ensures n in found {
        var k: nat :| 1 <= k <= w && ShardName(k, w) == n;
        assert LeftALog(logs, k, w);
      }
      SubsetOfSameSize(wanted, found);
      forall i | 0 <= i < |logs| ensures IsShard(logs[i].0, w) {
        assert logs[i].0 in found;
      }
    }
  }

  lemma {:induction false} ShardShowsWidth(logs: seq<Log>, expected: Option<int>, i: nat, w: nat)
    requires Trusted(logs, expected) && i < |logs| && IsShard(logs[i].0, w)
    ensures |logs| == w
  {
    hide ShardName, Width, ReadShard;
    var k: nat :| 1 <= k <= w && logs[i].0 == ShardName(k, w);
    NameReads(k, w);
    assert Width(logs[i].0).value in Widths(logs);
  }

  /** In a sweep that is trusted for `w` shards, declared or not, every shard left a
      log exactly when every log is in the directory of one of them. */
  lemma {:induction false} EveryShardLeftALog(logs: seq<Log>, expected: Option<int>, w: nat)
    requires w >= 1 && Trusted(logs, expected) && (expected.Some? ==> expected.value == w)
    requires forall i, j | 0 <= i < j < |logs| :: logs[i].0 != logs[j].0
    ensures (forall k: nat | 1 <= k <= w :: LeftALog(logs, k, w)) <==> AreShards(logs, w)
  {
    hide ShardName, Trusted;
    assert logs != [] by { TrustedIsSomething(logs, expected); }
    if AreShards(logs, w) {
      ShardShowsWidth(logs, expected, 0, w);
      AsManyAsTheWidth(logs, w);
    }
    if forall k: nat | 1 <= k <= w :: LeftALog(logs, k, w) {
      assert LeftALog(logs, 1, w);
      var i :| 0 <= i < |logs| && logs[i].0 == ShardName(1, w);
      ShardShowsWidth(logs, expected, i, w);
      AsManyAsTheWidth(logs, w);
    }
  }

  lemma {:induction false} TrustedIsSomething(logs: seq<Log>, expected: Option<int>)
    requires Trusted(logs, expected)
    ensures logs != []
  {
  }

  /** The numbers themselves are not checked: a directory numbered past the width
      stands in for a shard that is missing. */
  lemma {:induction false} StrayDirectoryHidesAShard(crate: Name)
    ensures var text := ShardText(crate, 0, Numbers(1, 1, 0, 0));
            var logs := [(ShardName(1, 2), text), (ShardName(7, 2), text)];
            Trusted(logs, Some(2)) && !LeftALog(logs, 2, 2)
  {
    hide ShardName, ShardText, ReadShard, Width, Trusted;
    var n := Numbers(1, 1, 0, 0);
    var text := ShardText(crate, 0, n);
    var logs := [(ShardName(1, 2), text), (ShardName(7, 2), text)];
    ShardReads(crate, 0, n);
    NameReads(1, 2);
    NameReads(7, 2);
    TwoLogsTrusted(logs[0], logs[1], n);
    assert ShardName(1, 2) != ShardName(2, 2) by { NumbersShow(1, 2, 2); }
    assert ShardName(7, 2) != ShardName(2, 2) by { NumbersShow(7, 2, 2); }
  }

  /** Nor does a log outside any numbered directory stand out. Alone, it is trusted
      whatever width is declared. */
  lemma {:induction false} UnshardedLogPasses(crate: Name, w: nat)
    requires w >= 1
    ensures var logs := [("unsharded", ShardText(crate, 0, Numbers(1, 1, 0, 0)))];
            Trusted(logs, Some(w)) && !LeftALog(logs, 1, w)
  {
    hide ShardName, ShardText, ReadShard, Width, Trusted;
    var n := Numbers(1, 1, 0, 0);
    var log := ("unsharded", ShardText(crate, 0, n));
    ShardReads(crate, 0, n);
    Unnumbered();
    OneLogTrusted(log, n, Some(w));
    assert "unsharded" != ShardName(1, w) by { NameReads(1, w); }
  }

  lemma {:induction false} OneLogTrusted(log: Log, n: Numbers, expected: Option<int>)
    requires ReadShard(log.1) == Read(n) && n.total > 0 && Width(log.0) == None
    ensures Trusted([log], expected)
  {
    hide ReadShard, Width;
    assert [log][..0] == [];
    assert Sum([log]) == Add(Numbers(0, 0, 0, 0), n);
    assert Widths([log]) == {};
  }

  /** And it makes up the number for a shard that is missing. */
  lemma {:induction false} UnshardedLogHidesAShard(crate: Name)
    ensures var text := ShardText(crate, 0, Numbers(1, 1, 0, 0));
            var logs := [(ShardName(1, 2), text), ("unsharded", text)];
            Trusted(logs, Some(2)) && !LeftALog(logs, 2, 2)
  {
    hide ShardName, ShardText, ReadShard, Width, Trusted;
    var n := Numbers(1, 1, 0, 0);
    var text := ShardText(crate, 0, n);
    var logs := [(ShardName(1, 2), text), ("unsharded", text)];
    ShardReads(crate, 0, n);
    NameReads(1, 2);
    Unnumbered();
    TwoLogsTrusted(logs[0], logs[1], n);
    assert ShardName(1, 2) != ShardName(2, 2) by { NumbersShow(1, 2, 2); }
    assert "unsharded" != ShardName(2, 2) by { NameReads(2, 2); }
  }

  lemma {:induction false} Unnumbered()
    ensures Width("unsharded") == None
  {
    assert "unsharded"[0] != "shard_"[0];
  }

  lemma {:induction false} NumbersShow(i: nat, j: nat, w: nat)
    requires i != j
    ensures ShardName(i, w) != ShardName(j, w)
  {
    hide ShardName;
    if ShardName(i, w) == ShardName(j, w) {
      NamesDiffer(i, j, w);
    }
  }

  lemma {:induction false} TwoLogsTrusted(a: Log, b: Log, n: Numbers)
    requires ReadShard(a.1) == Read(n) && ReadShard(b.1) == Read(n) && n.total > 0
    requires Width(a.0) == Some(2) && (Width(b.0) == Some(2) || Width(b.0) == None)
    ensures Trusted([a, b], Some(2))
  {
    hide ReadShard, Width;
    var logs := [a, b];
    assert Width(logs[0].0).value in Widths(logs);
    assert Widths(logs) == {2};
    assert logs[..1] == [a] && [a][..0] == [];
    assert Sum([a]) == Add(Numbers(0, 0, 0, 0), n);
    assert Sum(logs) == Add(Sum([a]), n);
  }

  // ----- the order of the logs does not matter

  lemma {:induction false} SumTakes(logs: seq<Log>, k: nat)
    requires AllRead(logs) && k < |logs|
    ensures AllRead(Without(logs, k))
    ensures Sum(logs) == Add(Sum(Without(logs, k)), ReadShard(logs[k].1).numbers)
    decreases |logs|
  {
    hide ReadShard;
    var n, rest := |logs| - 1, Without(logs, k);
    if k == n {
      assert rest == logs[..n];
    } else {
      var init := logs[..n];
      SumTakes(init, k);
      assert init[..k] + init[k + 1..] == rest[..n - 1];
      assert rest[n - 1] == logs[n];
      assert init[k] == logs[k];
    }
  }

  lemma {:induction false} SumPermutes(a: seq<Log>, b: seq<Log>)
    requires multiset(a) == multiset(b) && AllRead(a)
    ensures AllRead(b) && Sum(a) == Sum(b) && |a| == |b|
    decreases |a|
  {
    hide ReadShard;
    assert |a| == |multiset(a)| && |b| == |multiset(b)|;
    forall i | 0 <= i < |b| ensures ReadShard(b[i].1).Read? {
      Members(a, b, b[i]);
    }
    if a != [] {
      var n := |a| - 1;
      Members(a, b, a[n]);
      var k :| 0 <= k < |b| && b[k] == a[n];
      var rest := b[..k] + b[k + 1..];
      TakeOne(a, n);
      TakeOne(b, k);
      assert a[..n] + a[n + 1..] == a[..n];
      SumTakes(b, k);
      SumPermutes(a[..n], rest);
    }
  }

  lemma {:induction false} TrustedPermutes(a: seq<Log>, b: seq<Log>, expected: Option<int>)
    requires multiset(a) == multiset(b)
    ensures Trusted(a, expected) <==> Trusted(b, expected)
    ensures Trusted(a, expected) ==> Sum(a) == Sum(b) && |a| == |b|
  {
    hide ReadShard, Width, Sum;
    assert |a| == |multiset(a)| && |b| == |multiset(b)|;
    forall x ensures x in a <==> x in b {
      Members(a, b, x);
    }
    assert Widths(a) == Widths(b) by {
      SameWidths(a, b);
      SameWidths(b, a);
    }
    if AllRead(a) {
      SumPermutes(a, b);
    }
    if AllRead(b) {
      SumPermutes(b, a);
    }
  }

  lemma {:induction false} SameWidths(a: seq<Log>, b: seq<Log>)
    requires forall x | x in a :: x in b
    ensures Widths(a) <= Widths(b)
  {
    hide Width;
    forall w | w in Widths(a) ensures w in Widths(b) {
      var i :| 0 <= i < |a| && Width(a[i].0).Some? && Width(a[i].0).value == w;
      assert a[i] in a;
      var j :| 0 <= j < |b| && b[j] == a[i];
      assert Width(b[j].0).value == w;
    }
  }

  // ----- the synthetic sweep

  /** Round-robin dealing: how many of `count` fall to shard `index`. */
  function Share(count: int, shards: nat, index: nat): int
    requires shards > 0
  {
    count / shards + if index < count % shards then 1 else 0
  }

  /** What the shards before `index` were dealt. */
  function First(count: int, shards: nat, index: nat): int
    requires shards > 0
  {
    if index == 0 then 0 else First(count, shards, index - 1) + Share(count, shards, index - 1)
  }

  /** Dealing loses nothing and keeps the shares in order. */
  lemma {:induction false} DealtSoFar(count: int, shards: nat, index: nat)
    requires shards > 0 && index <= shards
    ensures First(count, shards, index) ==
            index * (count / shards) + if index < count % shards then index else count % shards
    decreases index
  {
    if index > 0 {
      DealtSoFar(count, shards, index - 1);
      assert index * (count / shards) == (index - 1) * (count / shards) + count / shards;
    }
  }

  lemma {:induction false} AllAreDealt(count: int, shards: nat)
    requires shards > 0
    ensures First(count, shards, shards) == count
  {
    DealtSoFar(count, shards, shards);
    assert count == count / shards * shards + count % shards;
  }

  /** A negative count leaves some shard a negative share, and a natural one none. */
  lemma {:induction false} SharesKeepSign(count: int, shards: nat)
    requires shards > 0
    ensures count >= 0 ==> forall i: nat :: Share(count, shards, i) >= 0
    ensures count < 0 ==> Share(count, shards, shards - 1) < 0
  {
    var q, r := count / shards, count % shards;
    assert count == q * shards + r;
    if count >= 0 {
      assert q >= 0;
    } else {
      assert q < 0;
    }
  }

  function ShardNumbers(caught: int, missed: int, unviable: int, shards: nat, index: nat): Numbers
    requires shards > 0
  {
    var c, m, u := Share(caught, shards, index), Share(missed, shards, index), Share(unviable, shards, index);
    Numbers(c + m + u, c, m, u)
  }

  function ShardLog(crate: Name, caught: int, missed: int, unviable: int, shards: nat, index: nat): Log
    requires shards > 0
  {
    (ShardName(index + 1, shards),
     ShardText(crate, First(missed, shards, index), ShardNumbers(caught, missed, unviable, shards, index)))
  }

  function SweepLogs(crate: Name, caught: int, missed: int, unviable: int, shards: nat, n: nat): (logs: seq<Log>)
    requires shards > 0
    ensures |logs| == n && forall i | 0 <= i < n :: logs[i] == ShardLog(crate, caught, missed, unviable, shards, i)
  {
    seq(n, i requires 0 <= i < n => ShardLog(crate, caught, missed, unviable, shards, i))
  }

  method SyntheticSweep(crate: Name, shards: int, total: int, survived: int, unviable: int, extra: int)
      returns (logs: seq<Log>)
    ensures shards <= 0 ==> logs == []
    ensures shards > 0 ==>
              logs == SweepLogs(crate, total - survived - unviable, survived + extra, unviable, shards, shards)
  {
    hide Share, First, ShardText, ShardName;
    var missing := survived + extra;
    var caught := total + extra - missing - unviable;
    logs := [];
    var index := 0;
    while index < shards
      invariant 0 <= index && (shards > 0 ==> index <= shards) && (shards <= 0 ==> index == 0)
      invariant index > 0 ==> logs == SweepLogs(crate, caught, missing, unviable, shards, index)
      invariant index == 0 ==> logs == []
    {
      var missed := Share(missing, shards, index);
      var first := 0;
      NoneBefore(missing, shards);
      for earlier := 0 to index
        invariant first == First(missing, shards, earlier)
      {
        NextFirst(missing, shards, earlier);
        first := first + Share(missing, shards, earlier);
      }
      var shardCaught, shardUnviable := Share(caught, shards, index), Share(unviable, shards, index);
      var shardTotal := shardCaught + missed + shardUnviable;
      var numbers := Numbers(shardTotal, shardCaught, missed, shardUnviable);
      logs := logs + [(ShardName(index + 1, shards), ShardText(crate, first, numbers))];
      index := index + 1;
    }
  }

  lemma {:induction false} NextFirst(count: int, shards: nat, i: nat)
    requires shards > 0
    ensures First(count, shards, i + 1) == First(count, shards, i) + Share(count, shards, i)
  {
  }

  lemma {:induction false} NoneBefore(count: int, shards: nat)
    requires shards > 0
    ensures First(count, shards, 0) == 0
  {
  }

  // ----- reading it back

  lemma {:induction false} SweepShardReads(crate: Name, caught: int, missed: int, unviable: int, shards: nat,
                                           i: nat)
    requires 0 <= i < shards
    ensures var n := ShardNumbers(caught, missed, unviable, shards, i);
            var shard := ReadShard(ShardLog(crate, caught, missed, unviable, shards, i).1);
            if AllNatural(n) then shard == Read(n) else shard.Fault?
  {
    hide ReadShard, ShardText, Share, First;
    ShardReads(crate, First(missed, shards, i), ShardNumbers(caught, missed, unviable, shards, i));
  }

  predicate Natural(caught: int, missed: int, unviable: int) { caught >= 0 && missed >= 0 && unviable >= 0 }

  lemma {:induction false} NaturalShares(caught: int, missed: int, unviable: int, shards: nat)
    requires shards > 0
    ensures Natural(caught, missed, unviable) ==>
              forall i: nat :: AllNatural(ShardNumbers(caught, missed, unviable, shards, i))
    ensures !Natural(caught, missed, unviable) ==>
              !AllNatural(ShardNumbers(caught, missed, unviable, shards, shards - 1))
  {
    hide Share;
    SharesKeepSign(caught, shards);
    SharesKeepSign(missed, shards);
    SharesKeepSign(unviable, shards);
  }

  lemma {:induction false} SweepAllRead(crate: Name, caught: int, missed: int, unviable: int, shards: nat)
    requires shards > 0
    ensures AllRead(SweepLogs(crate, caught, missed, unviable, shards, shards)) <==> Natural(caught, missed, unviable)
  {
    hide ReadShard, ShardLog, ShardNumbers, AllNatural;
    NaturalShares(caught, missed, unviable, shards);
    var logs := SweepLogs(crate, caught, missed, unviable, shards, shards);
    forall i | 0 <= i < shards
      ensures ReadShard(logs[i].1).Read? <==> AllNatural(ShardNumbers(caught, missed, unviable, shards, i))
    {
      SweepShardReads(crate, caught, missed, unviable, shards, i);
    }
    assert !ReadShard(logs[shards - 1].1).Read? ==> !AllRead(logs);
  }

  lemma {:induction false} SweepSums(crate: Name, caught: int, missed: int, unviable: int, shards: nat, n: nat)
    requires 0 < shards && n <= shards && Natural(caught, missed, unviable)
    ensures var logs := SweepLogs(crate, caught, missed, unviable, shards, n);
            var c, m, u := First(caught, shards, n), First(missed, shards, n), First(unviable, shards, n);
            AllRead(logs) && Sum(logs) == Numbers(c + m + u, c, m, u)
    decreases n
  {
    hide ReadShard, ShardLog, Share, AllNatural;
    if n > 0 {
      SweepSums(crate, caught, missed, unviable, shards, n - 1);
      NaturalShares(caught, missed, unviable, shards);
      SweepShardReads(crate, caught, missed, unviable, shards, n - 1);
      var logs := SweepLogs(crate, caught, missed, unviable, shards, n);
      assert logs[..n - 1] == SweepLogs(crate, caught, missed, unviable, shards, n - 1);
      forall i | 0 <= i < n ensures ReadShard(logs[i].1).Read? {
        assert i < n - 1 ==> logs[i] == logs[..n - 1][i];
      }
    }
  }

  lemma {:induction false} SweepWidths(crate: Name, caught: int, missed: int, unviable: int, shards: nat)
    requires shards > 0
    ensures Widths(SweepLogs(crate, caught, missed, unviable, shards, shards)) == {shards}
  {
    hide Width, ShardName, ShardText, First, ShardNumbers;
    var logs := SweepLogs(crate, caught, missed, unviable, shards, shards);
    forall i | 0 <= i < shards ensures Width(logs[i].0) == Some(shards) {
      NameReads(i + 1, shards);
    }
    assert Width(logs[0].0).value in Widths(logs);
  }

  /** The reader recovers exactly the totals that were written, and when they are
      not totals of a sweep it says so. */
  lemma {:induction false} SweepReads(crate: Name, caught: int, missed: int, unviable: int, shards: nat,
                                      expected: Option<int>)
    requires shards > 0
    ensures var logs := SweepLogs(crate, caught, missed, unviable, shards, shards);
            && (Trusted(logs, expected) <==>
                  && Natural(caught, missed, unviable) && caught + missed + unviable > 0
                  && (expected.Some? ==> expected.value == shards))
            && (Trusted(logs, expected) ==> Sum(logs) == Numbers(caught + missed + unviable, caught, missed, unviable))
  {
    hide ReadShard, ShardLog, Widths, AllRead, First;
    SweepAllRead(crate, caught, missed, unviable, shards);
    SweepWidths(crate, caught, missed, unviable, shards);
    if Natural(caught, missed, unviable) {
      SweepSums(crate, caught, missed, unviable, shards, shards);
      AllAreDealt(caught, shards);
      AllAreDealt(missed, shards);
      AllAreDealt(unviable, shards);
    }
  }

  /** The labels of the sweep are numbered without a gap or a repeat. */
  lemma {:induction false} LabelsAreUnique(missed: nat, shards: nat, i: nat, j: nat)
    requires 0 < shards && i < j < shards
    ensures First(missed, shards, i) + Share(missed, shards, i) <= First(missed, shards, j)
    ensures First(missed, shards, shards) == missed
    decreases j
  {
    hide Share;
    SharesKeepSign(missed, shards);
    AllAreDealt(missed, shards);
    if i + 1 < j {
      LabelsAreUnique(missed, shards, i, j - 1);
    }
  }

  // ----- the gate

  datatype Status = Pass | Regression | Incomplete

  /** The survivor counts checked in: a crate may be missing, or unseeded. */
  type Baseline = map<Name, Option<nat>>

  predicate Passes(crate: string, survivors: int, baseline: Baseline) {
    crate in baseline && (baseline[crate].Some? ==> survivors <= baseline[crate].value)
  }

  method Judge(crate: string, logs: seq<Log>, baseline: Baseline, expected: Option<int>) returns (status: Status)
    ensures status == Incomplete <==> !Trusted(logs, expected)
    ensures status == Pass <==>
              && Trusted(logs, expected) && crate in baseline
              && (baseline[crate].None? || Sum(logs).missed <= baseline[crate].value)
  {
    hide Trusted, Sum;
    var sweep := ReadSweep(logs, expected);
    if sweep.Faulty? {
      return Incomplete;
    }
    if !Passes(crate, sweep.totals.numbers.missed, baseline) {
      return Regression;
    }
    return Pass;
  }

  /** A run over several crates: incomplete outranks regression, which outranks
      pass. */
  function Overall(statuses: seq<Status>): (r: Status)
    ensures r == Pass <==> forall s | s in statuses :: s == Pass
    ensures r == Incomplete <==> Incomplete in statuses
  {
    if Incomplete in statuses then Incomplete
    else if Regression in statuses then Regression
    else
      assert forall s | s in statuses :: s == Pass;
      Pass
  }

  predicate LogLe(a: Log, b: Log) { if a.0 == b.0 then StringLe(a.1, b.1) else StringLe(a.0, b.0) }

  /** One of the three runs of the proof: write the sweep, list the logs by name,
      read them back, judge. */
  method Present(crate: Name, shards: int, total: int, survived: int, unviable: int, extra: int,
                 baseline: Baseline, declared: Option<int>) returns (status: Status)
    ensures status == Incomplete <==> !Sweepable(shards, total, survived, unviable, extra, declared)
    ensures status == Pass <==>
              Sweepable(shards, total, survived, unviable, extra, declared) && Passes(crate, survived + extra, baseline)
  {
    hide Trusted, Sum, SweepLogs, Sort, LogLe;
    var logs := SyntheticSweep(crate, shards, total, survived, unviable, extra);
    var listed := Sort(logs, LogLe);
    SortPermutes(logs, LogLe);
    TrustedPermutes(logs, listed, declared);
    if shards > 0 {
      SweepReads(crate, total - survived - unviable, survived + extra, unviable, shards, declared);
    } else {
      NoLogsNoTrust(declared);
    }
    status := Judge(crate, listed, baseline, declared);
  }

  lemma {:induction false} NoLogsNoTrust(expected: Option<int>)
    ensures !Trusted([], expected)
  {
  }

  /** A record that describes a sweep of this configuration. */
  predicate Sweepable(shards: int, total: int, survived: int, unviable: int, extra: int, declared: Option<int>) {
    && shards >= 1 && (declared.Some? ==> declared.value == shards)
    && survived + extra >= 0 && unviable >= 0 && survived + unviable <= total && total + extra > 0
  }

  datatype Proof = Proven | NotSeeded | ProofFailed

  /** The proof of the gate succeeds exactly when the record is a sweep of the
      declared configuration whose survivors are the checked-in baseline. */
  method ProveGate(crate: string, shards: int, total: int, survived: int, unviable: int,
                   baseline: Baseline, declared: Option<int>) returns (proof: Proof)
    ensures proof == NotSeeded <==> crate !in baseline || baseline[crate].None?
    ensures proof == Proven <==>
              && crate in baseline && baseline[crate] == Some(survived)
              && Sweepable(shards, total, survived, unviable, 0, declared)
  {
    if crate !in baseline || baseline[crate].None? {
      return NotSeeded;
    }
    var allowed := baseline[crate].value;
    var lowered := map[crate := Some(if allowed == 0 then 0 else allowed - 1)];
    var recorded := Present(crate, shards, total, survived, unviable, 0, baseline, declared);
    var oneMore := Present(crate, shards, total, survived, unviable, 1, baseline, declared);
    var stricter := Present(crate, shards, total, survived, unviable, 0, lowered, declared);
    var wanted := if allowed == 0 then Pass else Regression;
    if recorded == Pass && oneMore == Regression && stricter == wanted {
      return Proven;
    }
    return ProofFailed;
  }
}
