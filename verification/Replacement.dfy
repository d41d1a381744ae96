/** Counting and replacing a text inside a function's span
    (tools/verify-mutants.py:43-51, 107-130). */
module Replacement {
  import opened Basics

  predicate Occurs(body: string, old_: string, i: int) {
    0 <= i && i + |old_| <= |body| && body[i..i + |old_|] == old_
  }

  /** The first occurrence at or after `from`. */
  function Find(body: string, old_: string, from: nat): (r: Option<nat>)
    ensures r.Some? ==> r.value >= from && Occurs(body, old_, r.value)
    ensures r.Some? ==> forall j | from <= j < r.value :: !Occurs(body, old_, j)
    ensures r.None? ==> forall j | from <= j :: !Occurs(body, old_, j)
    decreases |body| - from
  {
    if from + |old_| > |body| then None
    else if Occurs(body, old_, from) then Some(from)
    else Find(body, old_, from + 1)
  }

  /** `str.count`: occurrences that do not overlap, from the left. */
  function CountFrom(body: string, old_: string, from: nat): nat
    requires old_ != ""
    decreases |body| - from
  {
    var i := Find(body, old_, from);
    if i.None? then 0 else 1 + CountFrom(body, old_, i.value + |old_|)
  }

  function Count(body: string, old_: string): nat {
    if old_ == "" then |body| + 1 else CountFrom(body, old_, 0)
  }

  /** `str.replace`, over the same occurrences. */
  function ReplaceFrom(body: string, old_: string, new_: string, from: nat): string
    requires old_ != "" && from <= |body|
    decreases |body| - from
  {
    var i := Find(body, old_, from);
    if i.None? then body[from..]
    else body[from..i.value] + new_ + ReplaceFrom(body, old_, new_, i.value + |old_|)
  }

  /** The body with `old_` replaced, or `None` when the case is skipped. */
  function Patch(body: string, old_: string, new_: string): Option<string> {
    if Count(body, old_) != 1 then None
    else if old_ == "" then Some(new_)
    else Some(ReplaceFrom(body, old_, new_, 0))
  }

  /** `patched` is `text` with one occurrence of `old_`, all of it inside
      `[start, end)`, turned into `new_`. */
  ghost predicate OneReplacement(text: string, start: nat, end: nat, old_: string, new_: string, patched: string,
                                 i: nat) {
    && start <= i && i + |old_| <= end <= |text|
    && text[i..i + |old_|] == old_
    && patched == text[..i] + new_ + text[i + |old_|..]
  }

  /** A patch that applies is one replacement in place, and nothing outside the
      span changes. */
  lemma {:induction false} PatchIsOneReplacement(text: string, start: nat, end: nat, old_: string,
                                                 new_: string) returns (i: nat)
    requires start <= end <= |text| && Patch(text[start..end], old_, new_).Some?
    ensures OneReplacement(text, start, end, old_, new_,
                           text[..start] + Patch(text[start..end], old_, new_).value + text[end..], i)
  {
    var body := text[start..end];
    if old_ == "" {
      i := start;
      assert body == "";
      assert text[..start] + new_ + text[end..] == text[..i] + new_ + text[i..];
    } else {
      var k := ReplacesOnce(body, old_, new_);
      i := start + k;
      Splice(text, start, end, k, |old_|, new_);
    }
  }

  lemma {:induction false} ReplacesOnce(body: string, old_: string, new_: string) returns (k: nat)
    requires old_ != "" && Count(body, old_) == 1
    ensures Occurs(body, old_, k) && ReplaceFrom(body, old_, new_, 0) == body[..k] + new_ + body[k + |old_|..]
  {
    CountIsOne(body, old_);
    hide Find, Occurs, Count;
    var first := Find(body, old_, 0);
    k := first.value;
    assert k + |old_| <= |body| by { OccursFits(body, old_, k); }
    assert Find(body, old_, k + |old_|).None?;
    assert ReplaceFrom(body, old_, new_, k + |old_|) == body[k + |old_|..];
    assert body[0..k] == body[..k];
  }

  lemma {:induction false} OccursFits(body: string, old_: string, i: int)
    requires Occurs(body, old_, i)
    ensures i + |old_| <= |body|
  {
  }

  lemma {:induction false} SliceOfSlice(text: string, start: nat, end: nat, k: nat, n: nat)
    requires start <= end <= |text| && k + n <= end - start
    ensures text[start..end][k..k + n] == text[start + k..start + k + n]
  {
    var a, b := text[start..end][k..k + n], text[start + k..start + k + n];
    assert |a| == |b| && forall j | 0 <= j < |a| :: a[j] == b[j];
  }

  /** A replacement inside a slice, seen in the whole text. */
  lemma {:induction false} Splice(text: string, start: nat, end: nat, k: nat, n: nat, new_: string)
    requires start <= end <= |text| && k + n <= end - start
    ensures var body, i := text[start..end], start + k;
            && body[k..k + n] == text[i..i + n]
            && text[..start] + (body[..k] + new_ + body[k + n..]) + text[end..] == text[..i] + new_ + text[i + n..]
  {
    var body, i := text[start..end], start + k;
    SliceOfSlice(text, start, end, k, n);
    assert text[..i] == text[..start] + body[..k];
    assert text[i + n..] == body[k + n..] + text[end..];
    var a, b, c, d := text[..start], body[..k], body[k + n..], text[end..];
    assert a + (b + new_ + c) + d == (a + b) + new_ + (c + d);
  }

  // ----- "must appear exactly once there"

  ghost predicate AppearsOnce(body: string, old_: string) {
    exists i :: Occurs(body, old_, i) && forall j | Occurs(body, old_, j) :: j == i
  }

  ghost predicate OverlapsAll(body: string, old_: string, i: int) {
    Occurs(body, old_, i) && forall j | Occurs(body, old_, j) :: i <= j < i + |old_|
  }

  lemma {:induction false} CountIsOne(body: string, old_: string)
    requires old_ != ""
    ensures Count(body, old_) == 1 <==>
            var first := Find(body, old_, 0); first.Some? && Find(body, old_, first.value + |old_|).None?
  {
    hide Find, Occurs;
    var first := Find(body, old_, 0);
    if first.Some? {
      assert Count(body, old_) == 1 + CountFrom(body, old_, first.value + |old_|);
    }
  }

  /** A count of one means: it occurs, and every occurrence overlaps the first. */
  lemma {:induction false} CountOne(body: string, old_: string)
    requires old_ != ""
    ensures Count(body, old_) == 1 <==> exists i :: OverlapsAll(body, old_, i)
    ensures forall new_ :: Patch(body, old_, new_).Some? <==> exists i :: OverlapsAll(body, old_, i)
  {
    hide Occurs, Count;
    CountIsOne(body, old_);
    var first := Find(body, old_, 0);
    if Count(body, old_) == 1 {
      assert forall j | Occurs(body, old_, j) :: j >= 0 by { OccursInside(body, old_); }
      assert OverlapsAll(body, old_, first.value);
    }
    if i :| OverlapsAll(body, old_, i) {
      assert i >= 0 by { OccursInside(body, old_); }
      assert first.Some? && first.value == i;
    }
  }

  /** An empty text is everywhere, so it is changed only in an empty body. */
  lemma {:induction false} EmptyGuard(body: string, new_: string)
    ensures Patch(body, "", new_) == if body == "" then Some(new_) else None
  {
  }

  lemma {:induction false} OccursInside(body: string, old_: string)
    ensures forall j | Occurs(body, old_, j) :: 0 <= j
  {
  }

  /** `b` characters of `old_` both begin and end it. */
  predicate Border(old_: string, b: int) {
    0 < b < |old_| && old_[..b] == old_[|old_| - b..]
  }

  /** For a text that does not overlap itself the guard is what it says: the text
      appears exactly once. */
  lemma {:induction false} GuardIsExact(body: string, old_: string)
    requires old_ != "" && forall b :: !Border(old_, b)
    ensures Count(body, old_) == 1 <==> AppearsOnce(body, old_)
    ensures forall new_ :: Patch(body, old_, new_).Some? <==> AppearsOnce(body, old_)
  {
    hide Occurs, Count, Border;
    CountOne(body, old_);
    if i :| OverlapsAll(body, old_, i) {
      forall j | Occurs(body, old_, j) ensures j == i {
        if j > i {
          OverlapIsBorder(body, old_, i, j);
        }
      }
    }
    if i :| Occurs(body, old_, i) && forall j | Occurs(body, old_, j) :: j == i {
      assert OverlapsAll(body, old_, i);
    }
  }

  lemma {:induction false} OverlapIsBorder(body: string, old_: string, i: int, j: int)
    requires i < j < i + |old_| && Occurs(body, old_, i) && Occurs(body, old_, j)
    ensures Border(old_, i + |old_| - j)
  {
    var b := i + |old_| - j;
    forall k | 0 <= k < b ensures old_[k] == old_[|old_| - b + k] {
      assert body[j..j + |old_|][k] == body[j + k];
      assert body[i..i + |old_|][j - i + k] == body[j + k];
    }
    assert old_[..b] == old_[|old_| - b..];
  }

  /** And for any text that does overlap itself there is a body where the guard
      lets two occurrences through. */
  lemma {:induction false} GuardMisses(old_: string, b: int)
    requires Border(old_, b)
    ensures var body := old_ + old_[b..]; Count(body, old_) == 1 && !AppearsOnce(body, old_)
    ensures forall new_ :: Patch(old_ + old_[b..], old_, new_).Some?
  {
    hide Count;
    var body, shift := old_ + old_[b..], |old_| - b;
    assert body[0..|old_|] == old_;
    assert body[shift..shift + |old_|] == old_[shift..] + old_[b..];
    assert old_[..b] + old_[b..] == old_;
    assert Occurs(body, old_, 0) && Occurs(body, old_, shift);
    assert OverlapsAll(body, old_, 0);
    CountOne(body, old_);
  }

  // ----- the span

  datatype Span = Span(start: nat, end: nat)

  /** Every place where the marker stands. */
  function Occurrences(text: string, marker: string, n: nat): (r: seq<nat>)
    requires n <= |text|
    ensures forall i :: i in r <==> 0 <= i < n && Occurs(text, marker, i)
    ensures forall k | 0 <= k < |r| :: r[k] < n
    ensures forall i, j | 0 <= i < j < |r| :: r[i] < r[j]
  {
    if n == 0 then []
    else
      var init := Occurrences(text, marker, n - 1);
      if Occurs(text, marker, n - 1) then init + [n - 1] else init
  }

  predicate IsIndented(marker: string) { |marker| >= 4 && marker[..4] == "    " }

  function Closing(marker: string): string { if IsIndented(marker) then "\n    }\n" else "\n}\n" }

  /** From the wanted marker to the end of the first closing brace after it;
      `None` when the tool stops instead. */
  function Locate(text: string, marker: string, wanted: Option<int>): Option<Span> {
    var found := Occurrences(text, marker, |text|);
    if found == [] || (wanted.None? && |found| > 1) then None
    else
      var k := if wanted.None? then 0 else wanted.value;
      if !(0 <= k < |found|) then None
      else
        var close := Find(text, Closing(marker), found[k]);
        if close.None? then None else Some(Span(found[k], close.value + |Closing(marker)|))
  }

  /** The occurrence that the spec chooses: the only one, or the one it counts to. */
  ghost predicate Chosen(text: string, marker: string, wanted: Option<int>, start: nat) {
    && start < |text| && Occurs(text, marker, start)
    && if wanted.None? then forall i | 0 <= i < |text| && Occurs(text, marker, i) :: i == start
       else wanted.value == |Occurrences(text, marker, start)|
  }

  /** `end` is just behind the first `close` from `start` on. */
  ghost predicate EndsWith(text: string, start: nat, end: nat, close: string) {
    && start + |close| <= end && Occurs(text, close, end - |close|)
    && forall j | start <= j < end - |close| :: !Occurs(text, close, j)
  }

  /** What the tool may change: from the chosen occurrence to the first brace that closes
      at the marker's own depth. */
  ghost predicate IsSpan(text: string, marker: string, wanted: Option<int>, span: Span) {
    && Chosen(text, marker, wanted, span.start)
    && EndsWith(text, span.start, span.end, if "    " <= marker then "\n    }\n" else "\n}\n")
  }

  /** The `k`-th occurrence has `k` before it. */
  lemma {:induction false} OccurrencesBefore(text: string, marker: string, n: nat, k: nat)
    requires n <= |text| && k < |Occurrences(text, marker, n)|
    ensures var start := Occurrences(text, marker, n)[k];
            start < |text| && |Occurrences(text, marker, start)| == k
    decreases n
  {
    hide Occurs;
    var init := Occurrences(text, marker, n - 1);
    if k < |init| {
      OccurrencesBefore(text, marker, n - 1, k);
    }
  }

  lemma {:induction false} OccurrencePlace(text: string, marker: string, n: nat, start: nat)
    requires start < n <= |text| && Occurs(text, marker, start)
    ensures var k := |Occurrences(text, marker, start)|;
            k < |Occurrences(text, marker, n)| && Occurrences(text, marker, n)[k] == start
    decreases n
  {
    hide Occurs;
    if start < n - 1 {
      OccurrencePlace(text, marker, n - 1, start);
    }
  }

  /** The `k` that counts to `start`, in the list of all occurrences. */
  lemma {:induction false} ChosenIsFound(text: string, marker: string, wanted: Option<int>, start: nat)
    ensures Chosen(text, marker, wanted, start) <==>
            var found := Occurrences(text, marker, |text|);
            var k := if wanted.None? then 0 else wanted.value;
            0 <= k < |found| && (wanted.None? ==> |found| == 1) && found[k] == start
  {
    hide Occurs;
    var found := Occurrences(text, marker, |text|);
    var k := if wanted.None? then 0 else wanted.value;
    if Chosen(text, marker, wanted, start) {
      OccurrencePlace(text, marker, |text|, start);
      if wanted.None? {
        OnlyOne(text, marker, start);
      }
    }
    if 0 <= k < |found| && (wanted.None? ==> |found| == 1) && found[k] == start {
      OccurrencesBefore(text, marker, |text|, k);
      assert found[k] in found;
      if wanted.None? {
        assert found == [start];
      }
    }
  }

  /** The tool finds a span exactly when the text has it, and stops before it touches a
      file when it has none. */
  lemma {:induction false} LocateMeans(text: string, marker: string, wanted: Option<int>, span: Span)
    ensures Locate(text, marker, wanted) == Some(span) <==> IsSpan(text, marker, wanted, span)
    ensures IsSpan(text, marker, wanted, span) ==> span.start < span.end <= |text|
  {
    hide Occurs, Chosen;
    ChosenIsFound(text, marker, wanted, span.start);
    assert Closing(marker) == if "    " <= marker then "\n    }\n" else "\n}\n";
    var close := Closing(marker);
    FindEnds(text, span.start, span.end, close);
  }

  lemma {:induction false} FindEnds(text: string, start: nat, end: nat, close: string)
    ensures EndsWith(text, start, end, close) <==> end >= |close| && Find(text, close, start) == Some(end - |close|)
    ensures EndsWith(text, start, end, close) ==> end <= |text|
  {
    if EndsWith(text, start, end, close) {
      OccursFits(text, close, end - |close|);
    }
    hide Occurs;
  }

  lemma {:induction false} OnlyOne(text: string, marker: string, start: nat)
    requires start < |text| && Occurs(text, marker, start)
    requires forall i | 0 <= i < |text| && Occurs(text, marker, i) :: i == start
    ensures Occurrences(text, marker, |text|) == [start]
  {
    hide Occurs;
    var found := Occurrences(text, marker, |text|);
    assert start in found;
    var k :| 0 <= k < |found| && found[k] == start;
    assert forall i | 0 <= i < |found| :: found[i] in found;
    assert k == 0 by { assert found[0] == start; }
    assert found[|found| - 1] == start;
  }
}
