/** Hiding comments and string literals without moving anything
    (tools/query-language-inventory.py:90-124). */
module SourceMask {
  import opened Basics

  // ----- where a comment or literal ends

  predicate Starts2(text: string, i: nat, a: char, b: char) {
    i + 1 < |text| && text[i] == a && text[i + 1] == b
  }

  predicate IsQuote(c: char) { c == '"' || c == '\'' || c == '`' }

  /** The newline that ends a line comment, or the end of the text. */
  function LineEnd(text: string, i: nat): (e: nat)
    requires i <= |text|
    ensures i <= e <= |text| && (e < |text| ==> text[e] == '\n')
    ensures forall k | i <= k < e :: text[k] != '\n'
    decreases |text| - i
  {
    if i == |text| || text[i] == '\n' then i else LineEnd(text, i + 1)
  }

  /** Just after the next closing mark of a block comment. */
  function BlockEnd(text: string, i: nat): (e: Option<nat>)
    requires i <= |text|
    ensures e.Some? ==> i + 2 <= e.value <= |text| && Starts2(text, e.value - 2, '*', '/')
    ensures forall k | i <= k < (if e.Some? then e.value - 2 else |text|) :: !Starts2(text, k, '*', '/')
    decreases |text| - i
  {
    if i + 1 >= |text| then None
    else if Starts2(text, i, '*', '/') then Some(i + 2)
    else BlockEnd(text, i + 1)
  }

  /** Just after the closing quote; a backslash escapes, except between
      backquotes. */
  function QuoteEnd(text: string, i: nat, quote: char): (e: Option<nat>)
    ensures e.Some? ==> i < e.value <= |text|
    decreases |text| - i
  {
    if i >= |text| then None
    else if text[i] == '\\' && quote != '`' then QuoteEnd(text, i + 2, quote)
    else if text[i] == quote then Some(i + 1)
    else QuoteEnd(text, i + 1, quote)
  }

  /** How many backslashes stand in a row just before `k`, none of them before `i`. */
  function Slashes(text: string, i: nat, k: nat): nat
    requires i <= k <= |text|
    decreases k
  {
    if k == i || text[k - 1] != '\\' then 0 else 1 + Slashes(text, i, k - 1)
  }

  /** `k` closes a literal whose inside starts at `i`: a quote that no backslash
      escapes, which is one after an even number of them. */
  predicate Unescaped(text: string, i: nat, k: nat, quote: char) {
    i <= k < |text| && text[k] == quote && (quote == '`' || Slashes(text, i, k) % 2 == 0)
  }

  lemma {:induction false} SlashesFromNext(text: string, i: nat, k: nat)
    requires i < k <= |text| && text[i] != '\\'
    ensures Slashes(text, i, k) == Slashes(text, i + 1, k)
    decreases k
  {
    if k > i + 1 {
      SlashesFromNext(text, i, k - 1);
    }
  }

  lemma {:induction false} SlashesFromPair(text: string, i: nat, k: nat)
    requires i + 2 <= k <= |text| && text[i] == '\\'
    ensures Slashes(text, i, k) % 2 == Slashes(text, i + 2, k) % 2
    decreases k
  {
    if k > i + 2 {
      SlashesFromPair(text, i, k - 1);
    } else {
      assert Slashes(text, i, i + 1) == 1 + Slashes(text, i, i);
    }
  }

  /** The scan that steps over escapes two characters at a time stops at the
      first quote that is not escaped. */
  lemma {:induction false} QuoteEndsFirst(text: string, i: nat, quote: char)
    requires quote != '\\'
    ensures var e := QuoteEnd(text, i, quote);
            && (e.Some? ==> Unescaped(text, i, e.value - 1, quote))
            && (forall k: nat | i <= k < (if e.Some? then e.value - 1 else |text|) :: !Unescaped(text, i, k, quote))
    decreases |text| - i
  {
    if i < |text| {
      var e := QuoteEnd(text, i, quote);
      var stop := if e.Some? then e.value - 1 else |text|;
      if quote == '`' {
        if text[i] != quote {
          QuoteEndsFirst(text, i + 1, quote);
          assert forall k: nat | i + 1 <= k < |text| ::
                   Unescaped(text, i, k, quote) <==> Unescaped(text, i + 1, k, quote);
        }
      } else if text[i] == '\\' {
        QuoteEndsFirst(text, i + 2, quote);
        forall k: nat | i + 2 <= k < |text| ensures Unescaped(text, i, k, quote) <==> Unescaped(text, i + 2, k, quote) {
          SlashesFromPair(text, i, k);
        }
        assert i + 1 < |text| ==> Slashes(text, i, i + 1) == 1 + Slashes(text, i, i);
      } else if text[i] != quote {
        QuoteEndsFirst(text, i + 1, quote);
        forall k: nat | i + 1 <= k < |text| ensures Unescaped(text, i, k, quote) <==> Unescaped(text, i + 1, k, quote) {
          SlashesFromNext(text, i, k);
        }
      }
    }
  }

  datatype Token = Plain | Hidden(end: nat) | Unterminated

  function Ended(e: Option<nat>): Token { if e.Some? then Hidden(e.value) else Unterminated }

  function TokenAt(text: string, i: nat): (t: Token)
    requires i < |text|
    ensures t.Hidden? ==> i < t.end <= |text|
  {
    if Starts2(text, i, '/', '/') then Hidden(LineEnd(text, i + 2))
    else if Starts2(text, i, '/', '*') then Ended(BlockEnd(text, i + 2))
    else if IsQuote(text[i]) then Ended(QuoteEnd(text, i + 1, text[i]))
    else Plain
  }

  /** The comment or literal that opens at `i` ends just before `end`: a line comment
      before the next newline or with the text, a block comment with the first closing
      mark behind its own, a literal with the first quote like its own that no backslash
      escapes. */
  ghost predicate ClosesAt(text: string, i: nat, end: nat) {
    i < end <= |text| &&
    if Starts2(text, i, '/', '/') then
      && (end == |text| || text[end] == '\n') && forall k | i <= k < end :: text[k] != '\n'
    else if Starts2(text, i, '/', '*') then
      && i + 4 <= end && text[end - 2..end] == "*/" && forall k | i + 2 <= k < end - 2 :: !Starts2(text, k, '*', '/')
    else
      text[i] in {'"', '\'', '`'} && i + 2 <= end && FirstUnescaped(text, i + 1, end - 1, text[i])
  }

  ghost predicate FirstUnescaped(text: string, i: nat, k: nat, quote: char) {
    Unescaped(text, i, k, quote) && forall j: nat | i <= j < k :: !Unescaped(text, i, j, quote)
  }

  /** Nothing but a quote or a comment opener hides text, and it hides up to its end,
      if it has one. */
  lemma {:induction false} TokenMeans(text: string, i: nat)
    requires i < |text|
    ensures TokenAt(text, i).Plain? <==>
            text[i] !in {'"', '\'', '`'} && !Starts2(text, i, '/', '/') && !Starts2(text, i, '/', '*')
    ensures TokenAt(text, i).Hidden? ==> ClosesAt(text, i, TokenAt(text, i).end)
    ensures TokenAt(text, i).Unterminated? ==> forall end: nat :: !ClosesAt(text, i, end)
  {
    if Starts2(text, i, '/', '/') {
    } else if Starts2(text, i, '/', '*') {
      if end: nat :| ClosesAt(text, i, end) {
        assert Starts2(text, end - 2, '*', '/');
      }
    } else if IsQuote(text[i]) {
      QuoteEndsFirst(text, i + 1, text[i]);
    }
  }

  function Blank(c: char): char { if c == '\n' then '\n' else ' ' }

  function Blanks(s: string): (r: string)
    ensures |r| == |s| && forall i | 0 <= i < |s| :: r[i] == Blank(s[i])
  {
    seq(|s|, i requires 0 <= i < |s| => Blank(s[i]))
  }

  /** The mask of the text from `i` on; `None` when something does not end. */
  function MaskedFrom(text: string, i: nat): Option<string>
    requires i <= |text|
    decreases |text| - i
  {
    if i == |text| then Some("")
    else
      match TokenAt(text, i)
      case Unterminated => None
      case Plain => After([text[i]], MaskedFrom(text, i + 1))
      case Hidden(end) => After(Blanks(text[i..end]), MaskedFrom(text, end))
  }

  function After(prefix: string, rest: Option<string>): Option<string> {
    if rest.None? then None else Some(prefix + rest.value)
  }

  function Masked(text: string): Option<string> { MaskedFrom(text, 0) }

  // ----- the loop

  method FindLineEnd(text: string, i: nat) returns (e: nat)
    requires i <= |text|
    ensures e == LineEnd(text, i)
  {
    e := i;
    while e < |text| && text[e] != '\n'
      invariant i <= e <= |text| && LineEnd(text, i) == LineEnd(text, e)
    {
      e := e + 1;
    }
  }

  method FindBlockEnd(text: string, i: nat) returns (e: Option<nat>)
    requires i <= |text|
    ensures e == BlockEnd(text, i)
  {
    var k := i;
    while k + 1 < |text| && !Starts2(text, k, '*', '/')
      invariant i <= k <= |text| && BlockEnd(text, i) == BlockEnd(text, k)
    {
      k := k + 1;
    }
    e := if k + 1 < |text| then Some(k + 2) else None;
  }

  method FindQuoteEnd(text: string, i: nat, quote: char) returns (e: Option<nat>)
    ensures e == QuoteEnd(text, i, quote)
  {
    var end := i;
    while end < |text|
      invariant QuoteEnd(text, i, quote) == QuoteEnd(text, end, quote)
    {
      if text[end] == '\\' && quote != '`' {
        end := end + 2;
        continue;
      }
      if text[end] == quote {
        return Some(end + 1);
      }
      end := end + 1;
    }
    return None;
  }

  method FindToken(text: string, index: nat) returns (t: Token)
    requires index < |text|
    ensures t == TokenAt(text, index)
  {
    hide LineEnd, BlockEnd, QuoteEnd;
    t := Plain;
    if Starts2(text, index, '/', '/') {
      var end := FindLineEnd(text, index + 2);
      t := Hidden(end);
    } else if Starts2(text, index, '/', '*') {
      var end := FindBlockEnd(text, index + 2);
      t := Ended(end);
    } else if IsQuote(text[index]) {
      var end := FindQuoteEnd(text, index + 1, text[index]);
      t := Ended(end);
    }
  }

  lemma {:induction false} MaskStep(text: string, i: nat, prefix: string)
    requires i < |text|
    ensures var t, whole := TokenAt(text, i), After(prefix, MaskedFrom(text, i));
            match t
            case Unterminated => whole == None
            case Plain => whole == After(prefix + [text[i]], MaskedFrom(text, i + 1))
            case Hidden(end) => whole == After(prefix + Blanks(text[i..end]), MaskedFrom(text, end))
  {
    hide TokenAt, Blanks;
    var t := TokenAt(text, i);
    if t.Plain? && MaskedFrom(text, i + 1).Some? {
      var rest := MaskedFrom(text, i + 1).value;
      assert prefix + ([text[i]] + rest) == prefix + [text[i]] + rest;
    } else if t.Hidden? && MaskedFrom(text, t.end).Some? {
      var piece, rest := Blanks(text[i..t.end]), MaskedFrom(text, t.end).value;
      assert prefix + (piece + rest) == prefix + piece + rest;
    }
  }

  lemma {:induction false} MaskEnds(text: string, prefix: string)
    ensures After("", Masked(text)) == Masked(text)
    ensures After(prefix, MaskedFrom(text, |text|)) == Some(prefix)
  {
    assert prefix + "" == prefix;
    if Masked(text).Some? {
      assert "" + Masked(text).value == Masked(text).value;
    }
  }

  method Mask(text: string) returns (r: Option<string>)
    ensures r == Masked(text)
  {
    hide TokenAt, MaskedFrom, After, Blanks;
    var out := new char[|text|](i requires 0 <= i < |text| => text[i]);
    assert out[..] == text && out[..0] == "";
    MaskEnds(text, "");
    var index := 0;
    while index < |text|
      invariant index <= |text| && out[index..] == text[index..]
      invariant Masked(text) == After(out[..index], MaskedFrom(text, index))
    {
      var token := FindToken(text, index);
      ghost var before := out[..index];
      MaskStep(text, index, before);
      match token
      case Unterminated =>
        return None;
      case Hidden(end) =>
        Overwrite(out, index, end, text);
        assert out[..end] == out[..index] + out[index..end];
        index := end;
      case Plain =>
        assert out[..index + 1] == before + [out[index..][0]];
        assert out[index + 1..] == out[index..][1..] && text[index + 1..] == text[index..][1..];
        index := index + 1;
    }
    MaskEnds(text, out[..]);
    assert out[..index] == out[..];
    r := Some(out[..]);
  }

  method Overwrite(out: array<char>, start: nat, end: nat, ghost text: string)
    requires start <= end <= out.Length == |text| && out[start..] == text[start..]
    modifies out
    ensures out[..start] == old(out[..start])
    ensures out[start..end] == Blanks(text[start..end]) && out[end..] == text[end..]
  {
    for pos := start to end
      invariant forall k | 0 <= k < start :: out[k] == old(out[k])
      invariant forall k | start <= k < pos :: out[k] == Blank(text[k])
      invariant forall k | pos <= k < out.Length :: out[k] == text[k]
    {
      assert out[pos] == text[pos];
      if out[pos] != '\n' {
        out[pos] := ' ';
      }
    }
  }

  // ----- what the mask keeps, and what it removes

  /** The scan that starts at `i` looks for a token at `j`. */
  ghost predicate ScansAt(text: string, i: nat, j: nat)
    requires i <= |text|
    decreases |text| - i
  {
    || i == j
    || (i < |text| &&
        match TokenAt(text, i)
        case Unterminated => false
        case Plain => ScansAt(text, i + 1, j)
        case Hidden(end) => ScansAt(text, end, j))
  }

  /** `k` lies in a comment or literal that the scan finds at `j`. */
  ghost predicate InToken(text: string, i: nat, j: nat, k: nat)
    requires i <= |text|
  {
    ScansAt(text, i, j) && j < |text| && TokenAt(text, j).Hidden? && j <= k < TokenAt(text, j).end
  }

  ghost predicate Inside(text: string, i: nat, k: nat)
    requires i <= |text|
  {
    exists j: nat :: InToken(text, i, j, k)
  }

  lemma {:induction false} ScanMovesOn(text: string, i: nat, j: nat)
    requires i <= |text| && ScansAt(text, i, j)
    ensures i <= j
    decreases |text| - i
  {
    hide TokenAt;
    if i < j || j < i {
      var t := TokenAt(text, i);
      ScanMovesOn(text, if t.Hidden? then t.end else i + 1, j);
    }
  }

  /** From the token at `i`, or past it, the scan sees what it sees from its end. */
  lemma {:induction false} InsideFrom(text: string, i: nat, next: nat, k: nat)
    requires i < |text| && i < next <= k < |text|
    requires match TokenAt(text, i)
             case Unterminated => false
             case Plain => next == i + 1
             case Hidden(end) => next == end
    ensures Inside(text, i, k) <==> Inside(text, next, k)
  {
    hide TokenAt;
    if Inside(text, i, k) {
      var j: nat :| InToken(text, i, j, k);
      assert InToken(text, next, j, k);
    }
    if Inside(text, next, k) {
      var j: nat :| InToken(text, next, j, k);
      assert InToken(text, i, j, k);
    }
  }

  lemma {:induction false} PlainIsOutside(text: string, i: nat)
    requires i < |text| && TokenAt(text, i).Plain?
    ensures !Inside(text, i, i)
  {
    hide TokenAt;
    forall j: nat ensures !InToken(text, i, j, i) {
      if ScansAt(text, i, j) {
        ScanMovesOn(text, i, j);
      }
    }
  }

  /** What the mask shows at each offset: a blank or a newline inside a comment or
      literal, and the character itself everywhere else. */
  lemma {:induction false} MaskShows(text: string, i: nat, k: nat)
    requires i <= k < |text| && MaskedFrom(text, i).Some?
    ensures |MaskedFrom(text, i).value| == |text| - i
    ensures MaskedFrom(text, i).value[k - i] == if Inside(text, i, k) then Blank(text[k]) else text[k]
    decreases |text| - i
  {
    hide TokenAt, Inside;
    MaskKeeps(text, i);
    var t := TokenAt(text, i);
    var next := if t.Hidden? then t.end else i + 1;
    if k >= next {
      MaskShows(text, next, k);
      InsideFrom(text, i, next, k);
    } else if t.Hidden? {
      assert Inside(text, i, k) by { TokenHolds(text, i, k); }
    } else {
      PlainIsOutside(text, i);
    }
  }

  lemma {:induction false} TokenHolds(text: string, i: nat, k: nat)
    requires i < |text| && TokenAt(text, i).Hidden? && i <= k < TokenAt(text, i).end
    ensures Inside(text, i, k)
  {
    assert InToken(text, i, i, k);
  }

  /** Same length, newlines where they were, and every other character itself or
      a blank. */
  ghost predicate Keeps(text: string, m: string) {
    && |m| == |text|
    && forall i | 0 <= i < |text| :: (m[i] == '\n' <==> text[i] == '\n') && (m[i] == text[i] || m[i] == ' ')
  }

  /** No quote, and nothing that opens a comment. */
  ghost predicate Clean(m: string) {
    forall i | 0 <= i < |m| :: m[i] !in {'"', '\'', '`'} && !Starts2(m, i, '/', '/') && !Starts2(m, i, '/', '*')
  }

  lemma {:induction false} MaskKeeps(text: string, i: nat)
    requires i <= |text| && MaskedFrom(text, i).Some?
    ensures Keeps(text[i..], MaskedFrom(text, i).value)
    decreases |text| - i
  {
    hide TokenAt;
    if i < |text| {
      var t := TokenAt(text, i);
      var end := if t.Hidden? then t.end else i + 1;
      MaskKeeps(text, end);
      assert text[i..] == text[i..end] + text[end..];
    }
  }

  /** A slash that stays is followed by nothing that would make it a comment. */
  lemma {:induction false} MaskIsClean(text: string, i: nat)
    requires i <= |text| && MaskedFrom(text, i).Some?
    ensures Clean(MaskedFrom(text, i).value)
    decreases |text| - i
  {
    hide LineEnd, BlockEnd, QuoteEnd;
    if i < |text| {
      var t := TokenAt(text, i);
      var end := if t.Hidden? then t.end else i + 1;
      MaskIsClean(text, end);
      MaskKeeps(text, end);
      var piece, rest := if t.Hidden? then Blanks(text[i..end]) else [text[i]], MaskedFrom(text, end).value;
      if t.Plain? && rest != "" {
        assert text[end..][0] == text[i + 1];
      }
      CleanJoins(piece, rest);
    }
  }

  lemma {:induction false} CleanJoins(a: string, b: string)
    requires a != "" && Clean(b) && (forall i | 0 <= i < |a| :: !IsQuote(a[i]))
    requires |a| == 1 || forall i | 0 <= i < |a| :: a[i] != '/'
    requires a[|a| - 1] == '/' && b != "" ==> b[0] != '/' && b[0] != '*'
    ensures Clean(a + b)
  {
    var m := a + b;
    forall i | 0 <= i < |m| ensures !IsQuote(m[i]) && !Starts2(m, i, '/', '/') && !Starts2(m, i, '/', '*') {
      if i >= |a| {
        assert m[i] == b[i - |a|];
        assert i + 1 < |m| ==> m[i + 1] == b[i + 1 - |a|];
        assert !Starts2(b, i - |a|, '/', '/') && !Starts2(b, i - |a|, '/', '*');
      }
    }
  }

  /** Masking leaves text without literals and comments as it is. */
  lemma {:induction false} CleanStays(m: string, i: nat)
    requires i <= |m| && Clean(m)
    ensures MaskedFrom(m, i) == Some(m[i..])
    decreases |m| - i
  {
    if i < |m| {
      CleanStays(m, i + 1);
      assert TokenAt(m, i) == Plain;
      assert m[i..] == [m[i]] + m[i + 1..];
    } else {
      assert m[i..] == "";
    }
  }

  /** So masking twice is masking once, and the second time cannot fail. */
  lemma {:induction false} MaskIsIdempotent(text: string)
    requires Masked(text).Some?
    ensures var m := Masked(text).value; Keeps(text, m) && Clean(m) && Masked(m) == Some(m)
    ensures forall k | 0 <= k < |text| ::
              Masked(text).value[k] == if Inside(text, 0, k) then Blank(text[k]) else text[k]
  {
    hide Inside;
    var m := Masked(text).value;
    MaskKeeps(text, 0);
    MaskIsClean(text, 0);
    assert text[0..] == text && m[0..] == m;
    CleanStays(m, 0);
    forall k | 0 <= k < |text| ensures m[k] == if Inside(text, 0, k) then Blank(text[k]) else text[k] {
      MaskShows(text, 0, k);
    }
  }
}
