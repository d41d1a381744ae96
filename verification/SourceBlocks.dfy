/** The named brace blocks of a source, found and matched in the mask and cut from
    the source (tools/query-language-inventory.py:127-137). */
module SourceBlocks {
  import opened Basics
  import opened Text
  import opened SourceMask

  /** Braces opened less braces closed. */
  function Depth(s: string): int {
    if s == "" then 0
    else
      var last := s[|s| - 1];
      Depth(s[..|s| - 1]) + (if last == '{' then 1 else 0) - (if last == '}' then 1 else 0)
  }

  lemma {:induction false} DepthCounts(s: string)
    ensures Depth(s) + multiset(s)['}'] == multiset(s)['{']
    decreases |s|
  {
    if s != "" {
      var init := s[..|s| - 1];
      DepthCounts(init);
      assert s == init + [s[|s| - 1]];
    }
  }

  ghost predicate Balanced(s: string) { Depth(s) == 0 && forall k | 0 <= k <= |s| :: Depth(s[..k]) >= 0 }

  /** `end` is just after the brace that closes a block opened before `start`. */
  ghost predicate Closes(masked: string, start: nat, end: nat) {
    start < end <= |masked| && masked[end - 1] == '}' && Balanced(masked[start..end - 1])
  }

  ghost predicate HasClose(masked: string, start: nat) { exists end: nat :: Closes(masked, start, end) }

  lemma {:induction false} DepthSnoc(s: string, start: nat, end: nat)
    requires start <= end < |s|
    ensures Depth(s[start..end + 1]) ==
            Depth(s[start..end]) + (if s[end] == '{' then 1 else 0) - (if s[end] == '}' then 1 else 0)
  {
    assert s[start..end + 1][..end - start] == s[start..end];
  }

  lemma {:induction false} BalancedIs(s: string, start: nat, end: nat)
    requires start <= end <= |s|
    ensures Balanced(s[start..end]) <==>
            Depth(s[start..end]) == 0 && forall k | start <= k <= end :: Depth(s[start..k]) >= 0
  {
    var t := s[start..end];
    assert forall k | start <= k <= end :: s[start..k] == t[..k - start];
    if Balanced(t) {
      forall k | start <= k <= end ensures Depth(s[start..k]) >= 0 {
        assert s[start..k] == t[..k - start];
      }
    }
    if forall k | start <= k <= end :: Depth(s[start..k]) >= 0 {
      forall k | 0 <= k <= |t| ensures Depth(t[..k]) >= 0 {
        assert s[start..start + k] == t[..k];
      }
    }
  }

  /** A block closes in one place only. */
  lemma {:induction false} ClosesOnce(masked: string, start: nat, a: nat, b: nat)
    requires Closes(masked, start, a) && Closes(masked, start, b)
    ensures a == b
  {
    if a < b {
      ClosesNotBefore(masked, start, a, b);
    } else if b < a {
      ClosesNotBefore(masked, start, b, a);
    }
  }

  lemma {:induction false} ClosesNotBefore(masked: string, start: nat, a: nat, b: nat)
    requires Closes(masked, start, a) && a < b <= |masked|
    ensures !Closes(masked, start, b)
  {
    hide Balanced, Depth;
    BalancedIs(masked, start, a - 1);
    BalancedIs(masked, start, b - 1);
    DepthSnoc(masked, start, a - 1);
    assert Depth(masked[start..a]) < 0;
  }

  method FindClose(masked: string, start: nat) returns (e: Option<nat>)
    requires start <= |masked|
    ensures e.Some? ==> Closes(masked, start, e.value)
    ensures e.None? ==> !HasClose(masked, start)
  {
    hide Balanced, Depth;
    var depth, end := 1, start;
    NoDepth(masked, start);
    while end < |masked| && depth != 0
      invariant start <= end <= |masked| && depth == 1 + Depth(masked[start..end])
      invariant forall k | start <= k < end :: Depth(masked[start..k]) >= 0
      invariant depth >= 0
      invariant depth == 0 ==> start < end && masked[end - 1] == '}' && Depth(masked[start..end - 1]) == 0
    {
      DepthSnoc(masked, start, end);
      depth := depth + (if masked[end] == '{' then 1 else 0) - (if masked[end] == '}' then 1 else 0);
      end := end + 1;
    }
    if depth != 0 {
      forall k: nat ensures !Closes(masked, start, k) {
        if start < k <= |masked| && masked[k - 1] == '}' {
          NotClosed(masked, start, k);
        }
      }
      return None;
    }
    BalancedIs(masked, start, end - 1);
    return Some(end);
  }

  lemma {:induction false} NoDepth(s: string, start: nat)
    requires start <= |s|
    ensures Depth(s[start..start]) == 0
  {
  }

  lemma {:induction false} NotClosed(masked: string, start: nat, k: nat)
    requires start < k <= |masked| && masked[k - 1] == '}'
    requires forall j | start <= j <= |masked| :: Depth(masked[start..j]) >= 0
    ensures !Closes(masked, start, k)
  {
    hide Balanced, Depth;
    DepthSnoc(masked, start, k - 1);
    BalancedIs(masked, start, k - 1);
    assert Depth(masked[start..k]) >= 0;
  }

  // ----- where blocks start

  predicate IsSpace(c: char) { 9 <= c as int <= 13 || c == ' ' }

  predicate IsWordChar(c: char) { 'A' <= c <= 'Z' || 'a' <= c <= 'z' || '0' <= c <= '9' || c == '_' }

  predicate IsWord(s: string) { s != "" && forall c | c in s :: IsWordChar(c) }

  /** Just after the run of such characters at `i`. */
  function Past(s: string, i: nat, p: char -> bool): (e: nat)
    requires i <= |s|
    ensures i <= e <= |s| && (forall k | i <= k < e :: p(s[k])) && (e < |s| ==> !p(s[e]))
  {
    var n := Span(s[i..], p);
    assert forall k | i <= k < i + n :: s[k] == s[i..][k - i];
    assert i + n < |s| ==> s[i + n] == s[i..][n];
    i + n
  }

  /** The kind's word stands at `i`, at the start of a line. */
  predicate KindAt(masked: string, kind: string, i: nat) {
    i + |kind| <= |masked| && masked[i..i + |kind|] == kind && (i > 0 ==> masked[i - 1] == '\n')
  }

  lemma {:induction false} KindIsWord(masked: string, kind: string, i: nat)
    requires IsWord(kind) && KindAt(masked, kind, i)
    ensures forall k | i <= k < i + |kind| :: IsWordChar(masked[k])
  {
    forall k | i <= k < i + |kind| ensures IsWordChar(masked[k]) {
      assert masked[k] == masked[i..i + |kind|][k - i];
      assert kind[k - i] in kind;
    }
  }

  datatype Start = Start(name: string, body: nat)

  /** `^kind\s+(\w+)\s*\{` at `i`: the name, and where the body begins. */
  function StartAt(masked: string, kind: string, i: nat): (r: Option<Start>)
    ensures r.Some? ==> i < r.value.body <= |masked|
  {
    var a := i + |kind|;
    if !KindAt(masked, kind, i) then None
    else
      var b := Past(masked, a, IsSpace);
      var c := Past(masked, b, IsWordChar);
      var d := Past(masked, c, IsSpace);
      if b > a && c > b && d < |masked| && masked[d] == '{' then Some(Start(masked[b..c], d + 1)) else None
  }

  predicate AreSpaces(s: string, a: nat, b: nat)
    requires a <= b <= |s|
  {
    forall k | a <= k < b :: s[k] in {' ', '\t', '\n', '\r', 11 as char, 12 as char}
  }

  predicate AreWordChars(s: string, a: nat, b: nat)
    requires a <= b <= |s|
  {
    forall k | a <= k < b :: 'a' <= s[k] <= 'z' || 'A' <= s[k] <= 'Z' || '0' <= s[k] <= '9' || s[k] == '_'
  }

  /** The pattern from `i` on: at the start of a line the kind, spaces up to `b`, a name up
      to `c`, perhaps spaces up to `d`, and the brace. */
  ghost predicate StartMatches(masked: string, kind: string, i: nat, m: Start, b: nat, c: nat, d: nat) {
    && i + |kind| < b < c <= d < |masked| && (i == 0 || masked[i - 1] == '\n') && masked[i..i + |kind|] == kind
    && AreSpaces(masked, i + |kind|, b) && AreWordChars(masked, b, c) && AreSpaces(masked, c, d) && masked[d] == '{'
    && m == Start(masked[b..c], d + 1)
  }

  lemma {:induction false} PastIs(s: string, i: nat, e: nat, p: char -> bool)
    requires i <= e < |s| && (forall k | i <= k < e :: p(s[k])) && !p(s[e])
    ensures Past(s, i, p) == e
  {
    var run, rest := s[i..e], s[e..];
    assert s[i..] == run + rest && rest[0] == s[e];
    forall c | c in run ensures p(c) {
      var k :| 0 <= k < |run| && run[k] == c;
      assert run[k] == s[i + k];
    }
    SpanStops(run, rest, p);
  }

  lemma {:induction false} ClassesAgree(s: string, a: nat, b: nat)
    requires a <= b <= |s|
    ensures AreSpaces(s, a, b) <==> forall k | a <= k < b :: IsSpace(s[k])
    ensures AreWordChars(s, a, b) <==> forall k | a <= k < b :: IsWordChar(s[k])
  {
  }

  lemma {:induction false} ClassesDiffer(c: char)
    ensures !(IsSpace(c) && IsWordChar(c)) && !IsSpace('{') && !IsWordChar('{')
  {
  }

  lemma {:induction false} MatchIsStart(masked: string, kind: string, i: nat, m: Start, b: nat, c: nat, d: nat)
    requires StartMatches(masked, kind, i, m, b, c, d)
    ensures StartAt(masked, kind, i) == Some(m)
  {
    hide Past, IsSpace, IsWordChar, AreSpaces, AreWordChars;
    var a := i + |kind|;
    ClassesAgree(masked, a, b);
    ClassesAgree(masked, b, c);
    ClassesAgree(masked, c, d);
    ClassesDiffer(masked[b]);
    ClassesDiffer(masked[c]);
    PastIs(masked, a, b, IsSpace);
    PastIs(masked, b, c, IsWordChar);
    PastIs(masked, c, d, IsSpace);
  }

  lemma {:induction false} StartHasMatch(masked: string, kind: string, i: nat, m: Start)
    requires StartAt(masked, kind, i) == Some(m)
    ensures exists b: nat, c: nat, d: nat :: StartMatches(masked, kind, i, m, b, c, d)
  {
    hide Past, IsSpace, IsWordChar, AreSpaces, AreWordChars;
    var a := i + |kind|;
    var b := Past(masked, a, IsSpace);
    var c := Past(masked, b, IsWordChar);
    var d := Past(masked, c, IsSpace);
    ClassesAgree(masked, a, b);
    ClassesAgree(masked, b, c);
    ClassesAgree(masked, c, d);
    assert StartMatches(masked, kind, i, m, b, c, d);
  }

  /** A start is found at a place exactly when the pattern matches there. */
  lemma {:induction false} StartMeans(masked: string, kind: string, i: nat, m: Start)
    ensures StartAt(masked, kind, i) == Some(m) <==>
            exists b: nat, c: nat, d: nat :: StartMatches(masked, kind, i, m, b, c, d)
  {
    hide StartAt, StartMatches;
    if b: nat, c: nat, d: nat :| StartMatches(masked, kind, i, m, b, c, d) {
      MatchIsStart(masked, kind, i, m, b, c, d);
    }
    if StartAt(masked, kind, i) == Some(m) {
      StartHasMatch(masked, kind, i, m);
    }
  }

  /** The matches that do not overlap, from left to right. */
  function StartsFrom(masked: string, kind: string, i: nat): seq<Start>
    decreases |masked| - i
  {
    if i >= |masked| then []
    else
      var r := StartAt(masked, kind, i);
      if r.Some? then [r.value] + StartsFrom(masked, kind, r.value.body) else StartsFrom(masked, kind, i + 1)
  }

  /** No block starts inside the start of another. */
  lemma {:induction false} StartsDoNotOverlap(masked: string, kind: string, i: nat, j: nat)
    requires IsWord(kind) && StartAt(masked, kind, i).Some? && i < j < StartAt(masked, kind, i).value.body
    ensures StartAt(masked, kind, j).None?
  {
    hide Past, IsWord;
    KindIsWord(masked, kind, i);
    var a := i + |kind|;
    var b := Past(masked, a, IsSpace);
    var c := Past(masked, b, IsWordChar);
    var d := Past(masked, c, IsSpace);
    if KindAt(masked, kind, j) {
      KindIsWord(masked, kind, j);
      assert kind != "" by { assert IsWord(kind); WordIsSomething(kind); }
      assert masked[j - 1] == '\n' && IsWordChar(masked[j]);
      assert j == b;
      SecondWord(masked, b, c, d, j + |kind|);
    }
  }

  lemma {:induction false} WordIsSomething(s: string)
    requires IsWord(s)
    ensures s != ""
  {
  }

  /** Behind the word at `b`, or inside it, no further word follows a space. */
  lemma {:induction false} SecondWord(masked: string, b: nat, c: nat, d: nat, e: nat)
    requires b < e <= |masked| && forall k | b <= k < e :: IsWordChar(masked[k])
    requires c == Past(masked, b, IsWordChar) && d == Past(masked, c, IsSpace) && d < |masked| && masked[d] == '{'
    ensures var next := Past(masked, e, IsSpace);
            next == e || Past(masked, next, IsWordChar) == next
  {
    assert e <= c;
    if e == c {
      assert Past(masked, e, IsSpace) == d;
    } else {
      assert !IsSpace(masked[e]);
    }
  }

  /** So the blocks found are exactly those that start somewhere. */
  lemma {:induction false} EveryStartIsFound(masked: string, kind: string, i: nat, m: Start)
    requires IsWord(kind)
    ensures m in StartsFrom(masked, kind, i) <==> exists j: nat :: i <= j && StartAt(masked, kind, j) == Some(m)
    decreases |masked| - i
  {
    hide StartAt;
    if i < |masked| {
      var r := StartAt(masked, kind, i);
      var next := if r.Some? then r.value.body else i + 1;
      EveryStartIsFound(masked, kind, next, m);
      forall j: nat | i < j < next ensures StartAt(masked, kind, j).None? {
        StartsDoNotOverlap(masked, kind, i, j);
      }
    }
  }

  // ----- the blocks

  /** Names and bodies of the blocks of a kind: each body is cut from the source
      where the mask balances. */
  method Blocks(text: string, kind: string) returns (blocks: Option<seq<(string, string)>>)
    ensures blocks.Some? <==>
              && Masked(text).Some?
              && forall m | m in StartsFrom(Masked(text).value, kind, 0) :: HasClose(Masked(text).value, m.body)
    ensures blocks.Some? ==>
              var starts := StartsFrom(Masked(text).value, kind, 0);
              && |blocks.value| == |starts|
              && forall i | 0 <= i < |starts| :: IsBlock(text, Masked(text).value, starts[i], blocks.value[i])
  {
    hide Closes, Masked, StartsFrom, HasClose;
    var masked := Mask(text);
    if masked.None? {
      return None;
    }
    assert |masked.value| == |text| by { MaskIsIdempotent(text); }
    var starts := StartsFrom(masked.value, kind, 0);
    StartsAreInside(masked.value, kind, 0);
    var out: seq<(string, string)> := [];
    for i := 0 to |starts|
      invariant |out| == i && forall k | 0 <= k < i :: IsBlock(text, masked.value, starts[k], out[k])
      invariant forall k | 0 <= k < i :: HasClose(masked.value, starts[k].body)
    {
      var m := starts[i];
      var end := FindClose(masked.value, m.body);
      if end.None? {
        return None;
      }
      assert m.body < end.value <= |text| by { ClosesInside(masked.value, m.body, end.value); }
      out := out + [(m.name, text[m.body..end.value - 1])];
      assert IsBlockTo(text, masked.value, m, end.value, out[i]);
      ClosedHasClose(masked.value, m.body, end.value);
    }
    blocks := Some(out);
  }

  lemma {:induction false} StartsAreInside(masked: string, kind: string, i: nat)
    ensures forall m | m in StartsFrom(masked, kind, i) :: m.body <= |masked|
    decreases |masked| - i
  {
    hide StartAt;
    if i < |masked| {
      var r := StartAt(masked, kind, i);
      StartsAreInside(masked, kind, if r.Some? then r.value.body else i + 1);
    }
  }

  lemma {:induction false} ClosedHasClose(masked: string, start: nat, end: nat)
    requires Closes(masked, start, end)
    ensures HasClose(masked, start)
  {
  }

  lemma {:induction false} ClosesInside(masked: string, start: nat, end: nat)
    requires Closes(masked, start, end)
    ensures start < end <= |masked|
  {
  }

  ghost predicate IsBlockTo(text: string, masked: string, m: Start, end: nat, block: (string, string)) {
    && Closes(masked, m.body, end) && m.body < end <= |text|
    && block == (m.name, text[m.body..end - 1])
  }

  ghost predicate IsBlock(text: string, masked: string, m: Start, block: (string, string)) {
    exists end: nat :: IsBlockTo(text, masked, m, end, block)
  }
}
