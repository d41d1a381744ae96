/** One shard's log: the totals line and the MISSED lines that the runner prints
    and the ratchet reads (tools/mutants-ratchet.py:81-93, 145-173, 389-418). */
module MutantsLog {
  import opened Basics
  import opened Text

  /** A crate's name, as a line of the baseline file can hold it. The gate's proof
      stops at any other before it writes a sweep. */
  type Name = s: string | '\n' !in s witness ""

  datatype Numbers = Numbers(total: int, caught: int, missed: int, unviable: int)

  datatype Reason = TimedOut | Refused | NoTotals | ManyTotals | DoesNotAddUp | WrongLabels

  datatype Shard = Read(numbers: Numbers) | Fault(reason: Reason)

  // ----- lines

  predicate NotNewline(c: char) { c != '\n' }

  function Lines(text: string): seq<string>
    decreases |text|
  {
    var n := Span(text, NotNewline);
    if n == |text| then [text] else [text[..n]] + Lines(text[n + 1..])
  }

  lemma {:induction false} LinesCons(line: string, rest: string)
    requires '\n' !in line
    ensures Lines(line + "\n" + rest) == [line] + Lines(rest)
  {
    var text := line + "\n" + rest;
    assert text == line + ("\n" + rest);
    SpanStops(line, "\n" + rest, NotNewline);
    assert text[|line| + 1..] == rest;
  }

  predicate Blank(c: char) { c == ' ' || c == '\t' }

  function SkipBlanks(s: string): string { s[Span(s, Blank)..] }

  lemma {:induction false} NothingToSkip(s: string)
    requires s == "" || !Blank(s[0])
    ensures SkipBlanks(s) == s
  {
  }

  /** The lines, joined again, are the text, and no line has a newline in it. */
  function Joined(lines: seq<string>): string {
    if lines == [] then "" else if |lines| == 1 then lines[0] else lines[0] + "\n" + Joined(lines[1..])
  }

  lemma {:induction false} LinesJoin(text: string)
    ensures Lines(text) != [] && Joined(Lines(text)) == text
    ensures forall line | line in Lines(text) :: '\n' !in line
    decreases |text|
  {
    var n := Span(text, NotNewline);
    var line := text[..n];
    assert '\n' !in line;
    hide Span, Joined;
    if n < |text| {
      var rest := text[n + 1..];
      LinesJoin(rest);
      assert Lines(text) == [line] + Lines(rest);
      JoinedCons(line, Lines(rest));
      assert text == line + "\n" + rest;
    } else {
      assert line == text;
      JoinedCons(text, [text]);
    }
  }

  lemma {:induction false} JoinedCons(line: string, lines: seq<string>)
    requires lines != []
    ensures Joined([line]) == line && Joined([line] + lines) == line + "\n" + Joined(lines)
  {
    assert ([line] + lines)[1..] == lines;
  }

  // ----- the totals line

  /** `<total> mutants: <caught> caught, <missed> missed, <unviable> unviable`,
      with blanks allowed at both ends. */
  function ReadTotals(line: string): Parsed<Numbers> {
    var (total, r0) :- ReadNat(SkipBlanks(line));
    var (u0, r1) :- Expect(" mutants: ", r0);
    var (caught, r2) :- ReadNat(r1);
    var (u1, r3) :- Expect(" caught, ", r2);
    var (missed, r4) :- ReadNat(r3);
    var (u2, r5) :- Expect(" missed, ", r4);
    var (unviable, r6) :- ReadNat(r5);
    var (u3, r7) :- Expect(" unviable", r6);
    if SkipBlanks(r7) == "" then Parsed(Numbers(total, caught, missed, unviable), "") else NoParse
  }

  predicate AreBlanks(s: string) { forall i | 0 <= i < |s| :: s[i] == ' ' || s[i] == '\t' }

  predicate AreDigits(s: string) { s != "" && forall c | c in s :: IsDigit(c) }

  /** The pattern of a totals line, matched by the whole of `line`. */
  ghost predicate Spells(line: string, n: Numbers, pre: string, a: string, b: string, c: string, d: string,
                         post: string) {
    && AreBlanks(pre) && AreDigits(a) && AreDigits(b) && AreDigits(c) && AreDigits(d) && AreBlanks(post)
    && line == pre + (a + (" mutants: " + (b + (" caught, " + (c + (" missed, " + (d + (" unviable" + post))))))))
    && n == Numbers(NatValue(a), NatValue(b), NatValue(c), NatValue(d))
  }

  ghost predicate IsTotals(line: string, n: Numbers) {
    exists pre, a, b, c, d, post :: Spells(line, n, pre, a, b, c, d, post)
  }

  lemma {:induction false} DigitsRead(d: string, k: string)
    requires AreDigits(d) && (k == "" || !IsDigit(k[0]))
    ensures ReadNat(d + k) == Parsed(NatValue(d), k)
  {
    SpanStops(d, k, IsDigit);
  }

  lemma {:induction false} ReadDigits(s: string) returns (d: string)
    requires ReadNat(s).Parsed?
    ensures AreDigits(d) && s == d + ReadNat(s).rest && ReadNat(s).value == NatValue(d)
  {
    d := s[..Span(s, IsDigit)];
  }

  lemma {:induction false} BlanksSkipped(pre: string, k: string)
    requires AreBlanks(pre) && (k == "" || !Blank(k[0]))
    ensures SkipBlanks(pre + k) == k
  {
    forall c | c in pre ensures Blank(c) {
      var i :| 0 <= i < |pre| && pre[i] == c;
    }
    SpanStops(pre, k, Blank);
  }

  lemma {:induction false} SkippedBlanks(s: string) returns (pre: string)
    ensures AreBlanks(pre) && s == pre + SkipBlanks(s)
  {
    pre := s[..Span(s, Blank)];
  }

  lemma {:induction false} SpelledReads(line: string, n: Numbers, pre: string, a: string, b: string, c: string,
                                        d: string, post: string)
    requires Spells(line, n, pre, a, b, c, d, post)
    ensures ReadTotals(line) == Parsed(n, "")
  {
    hide ReadNat, Expect, NatValue, SkipBlanks;
    var k4 := " unviable" + post;
    var k3 := " missed, " + (d + k4);
    var k2 := " caught, " + (c + k3);
    var k1 := " mutants: " + (b + k2);
    assert a[0] in a && (a + k1)[0] == a[0];
    BlanksSkipped(pre, a + k1);
    DigitsRead(a, k1);
    ExpectReads(" mutants: ", b + k2);
    DigitsRead(b, k2);
    ExpectReads(" caught, ", c + k3);
    DigitsRead(c, k3);
    ExpectReads(" missed, ", d + k4);
    DigitsRead(d, k4);
    ExpectReads(" unviable", post);
    assert post + "" == post;
    BlanksSkipped(post, "");
  }

  /** The reader accepts exactly the lines of the pattern, whatever blanks are around
      them, and reads the numbers they spell. */
  lemma {:induction false} TotalsMatch(line: string, n: Numbers)
    ensures ReadTotals(line) == Parsed(n, "") <==> IsTotals(line, n)
  {
    hide ReadNat, Expect, NatValue, SkipBlanks, Spells;
    if pre, a, b, c, d, post :| Spells(line, n, pre, a, b, c, d, post) {
      SpelledReads(line, n, pre, a, b, c, d, post);
    }
    if ReadTotals(line) == Parsed(n, "") {
      ReadIsSpelled(line, n);
    }
  }

  lemma {:induction false} ReadIsSpelled(line: string, n: Numbers)
    requires ReadTotals(line) == Parsed(n, "")
    ensures IsTotals(line, n)
  {
    hide ReadNat, Expect, NatValue, SkipBlanks;
    var pre := SkippedBlanks(line);
    var a := ReadDigits(SkipBlanks(line));
    var r1 := Expect(" mutants: ", ReadNat(SkipBlanks(line)).rest).rest;
    var b := ReadDigits(r1);
    var r3 := Expect(" caught, ", ReadNat(r1).rest).rest;
    var c := ReadDigits(r3);
    var r5 := Expect(" missed, ", ReadNat(r3).rest).rest;
    var d := ReadDigits(r5);
    var r7 := Expect(" unviable", ReadNat(r5).rest).rest;
    var post := SkippedBlanks(r7);
    assert post + "" == post;
    assert Spells(line, n, pre, a, b, c, d, post);
  }

  function Tail4(): string { " unviable" }
  function Tail3(n: Numbers): string { " missed, " + (IntText(n.unviable) + Tail4()) }
  function Tail2(n: Numbers): string { " caught, " + (IntText(n.missed) + Tail3(n)) }
  function Tail1(n: Numbers): string { " mutants: " + (IntText(n.caught) + Tail2(n)) }

  function TotalsLine(n: Numbers): string { IntText(n.total) + Tail1(n) }

  predicate AllNatural(n: Numbers) { n.total >= 0 && n.caught >= 0 && n.missed >= 0 && n.unviable >= 0 }

  /** A count reads back if it is natural; a minus sign is no digit. */
  lemma {:induction false} CountReads(i: int, k: string)
    requires k != "" && k[0] == ' '
    ensures ReadNat(IntText(i) + k) == if i >= 0 then Parsed(i, k) else NoParse
  {
    if i >= 0 {
      NatReads(i, k);
    } else {
      assert (IntText(i) + k)[0] == '-';
    }
  }

  /** The reader recovers the printed numbers, and refuses any line that shows a
      negative one. */
  lemma {:induction false} TotalsRead(n: Numbers)
    ensures ReadTotals(TotalsLine(n)) == if AllNatural(n) then Parsed(n, "") else NoParse
  {
    hide ReadNat, Expect, IntText;
    NothingToSkip(TotalsLine(n)) by { TotalsStart(n); }
    CountReads(n.total, Tail1(n));
    ExpectReads(" mutants: ", IntText(n.caught) + Tail2(n));
    CountReads(n.caught, Tail2(n));
    ExpectReads(" caught, ", IntText(n.missed) + Tail3(n));
    CountReads(n.missed, Tail3(n));
    ExpectReads(" missed, ", IntText(n.unviable) + Tail4());
    CountReads(n.unviable, Tail4());
    assert Tail4() == " unviable" + "";
    ExpectReads(" unviable", "");
    NothingToSkip("");
  }

  lemma {:induction false} TotalsStart(n: Numbers)
    ensures TotalsLine(n) != "" && (TotalsLine(n)[0] == '-' || IsDigit(TotalsLine(n)[0]))
    ensures '\n' !in TotalsLine(n)
  {
    hide IntText;
    var s := TotalsLine(n);
    assert s[0] == IntText(n.total)[0];
    IntHasNoNewline(n.total);
    IntHasNoNewline(n.caught);
    IntHasNoNewline(n.missed);
    IntHasNoNewline(n.unviable);
  }

  lemma {:induction false} IntHasNoNewline(i: int)
    ensures '\n' !in IntText(i)
  {
  }

  // ----- the labels

  function Mark(): string { "MISSED " }

  predicate IsMissed(line: string) { Mark() <= SkipBlanks(line) }

  /** A label is marked wherever it is indented to. */
  lemma {:induction false} MissedMatches(line: string)
    ensures IsMissed(line) <==> exists pre, rest :: AreBlanks(pre) && line == pre + ("MISSED " + rest)
  {
    hide SkipBlanks;
    var skipped := SkippedBlanks(line);
    if IsMissed(line) {
      var rest := SkipBlanks(line)[7..];
      assert SkipBlanks(line) == "MISSED " + rest;
    }
    if pre, rest :| AreBlanks(pre) && line == pre + ("MISSED " + rest) {
      BlanksSkipped(pre, "MISSED " + rest);
    }
  }

  function CountMissed(lines: seq<string>): nat {
    if lines == [] then 0 else (if IsMissed(lines[0]) then 1 else 0) + CountMissed(lines[1..])
  }

  function TotalsIn(lines: seq<string>): seq<Numbers> {
    if lines == [] then []
    else
      var line := ReadTotals(lines[0]);
      (if line.Parsed? then [line.value] else []) + TotalsIn(lines[1..])
  }

  function LabelHead(crate: Name): string { "crates/" + crate + "/src/synthetic.rs:" }

  function LabelTail(n: int): string { ":5: replace synthetic_" + IntText(n) + " with Default::default()" }

  function LabelBody(crate: Name, n: int): string { LabelHead(crate) + (IntText(n + 1) + LabelTail(n)) }

  function LabelLine(crate: Name, n: int): string { Mark() + LabelBody(crate, n) }

  /** The labels of a shard, numbered on from `first`. */
  function LabelsText(crate: Name, first: int, count: int): string
    decreases count
  {
    if count <= 0 then "" else LabelLine(crate, first) + "\n" + LabelsText(crate, first + 1, count - 1)
  }

  lemma {:induction false} LabelIsMissed(crate: Name, n: int)
    ensures '\n' !in LabelLine(crate, n)
    ensures IsMissed(LabelLine(crate, n)) && ReadTotals(LabelLine(crate, n)).NoParse?
  {
    hide IntText, Expect, LabelBody;
    LabelHasNoNewline(crate, n);
    var line := LabelLine(crate, n);
    assert line[0] == 'M';
    NothingToSkip(line);
  }

  /** The number of a label shows in it, so no two are alike. */
  lemma {:induction false} LabelsDiffer(crate: Name, m: int, n: int)
    requires LabelLine(crate, m) == LabelLine(crate, n)
    ensures m == n
  {
    hide IntText, ReadInt, LabelHead;
    var head := LabelHead(crate);
    assert LabelLine(crate, m)[|Mark()|..] == LabelBody(crate, m);
    assert LabelLine(crate, n)[|Mark()|..] == LabelBody(crate, n);
    assert LabelBody(crate, m)[|head|..] == IntText(m + 1) + LabelTail(m);
    assert LabelBody(crate, n)[|head|..] == IntText(n + 1) + LabelTail(n);
    assert LabelTail(m)[0] == ':' && LabelTail(n)[0] == ':';
    IntReads(m + 1, LabelTail(m));
    IntReads(n + 1, LabelTail(n));
  }

  lemma {:induction false} LabelHasNoNewline(crate: Name, n: int)
    ensures '\n' !in LabelBody(crate, n)
  {
    hide IntText;
    IntHasNoNewline(n);
    IntHasNoNewline(n + 1);
  }

  lemma {:induction false} LabelLines(crate: Name, first: int, count: int)
    ensures CountMissed(Lines(LabelsText(crate, first, count))) == if count <= 0 then 0 else count
    ensures TotalsIn(Lines(LabelsText(crate, first, count))) == []
    decreases count
  {
    hide ReadTotals, IsMissed, LabelLine;
    if count <= 0 {
      EmptyLine();
    } else {
      LabelLines(crate, first + 1, count - 1);
      LabelIsMissed(crate, first);
      LinesCons(LabelLine(crate, first), LabelsText(crate, first + 1, count - 1));
    }
  }

  lemma {:induction false} EmptyLine()
    ensures Lines("") == [""] && !IsMissed("") && ReadTotals("").NoParse?
  {
    NothingToSkip("");
  }

  // ----- reading a shard

  predicate Contains(text: string, part: string) {
    part <= text || (text != "" && Contains(text[1..], part))
  }

  predicate SaysRefused(text: string) {
    || Contains(text, "do not pass; fix it first") || Contains(text, "do not pass; fix them first")
    || Contains(text, "does not pass; fix it first") || Contains(text, "does not pass; fix them first")
  }

  function ReadShard(text: string): Shard {
    var totals := TotalsIn(Lines(text));
    if |totals| != 1 then
      Fault(if Contains(text, "Test timed out") then TimedOut
            else if SaysRefused(text) then Refused
            else if totals == [] then NoTotals
            else ManyTotals)
    else
      var n := totals[0];
      if n.caught + n.missed + n.unviable != n.total then Fault(DoesNotAddUp)
      else if CountMissed(Lines(text)) != n.missed then Fault(WrongLabels)
      else Read(n)
  }

  ghost predicate NoTotalsIn(lines: seq<string>) { forall j, m | 0 <= j < |lines| :: !IsTotals(lines[j], m) }

  /** Line `i` is the only totals line, and spells `n`. */
  ghost predicate OnlyTotals(lines: seq<string>, i: nat, n: Numbers) {
    && i < |lines| && IsTotals(lines[i], n)
    && forall j, m | 0 <= j < |lines| && j != i :: !IsTotals(lines[j], m)
  }

  ghost predicate OneTotals(lines: seq<string>, n: Numbers) { exists i: nat :: OnlyTotals(lines, i, n) }

  lemma {:induction false} TotalsOfLine(line: string)
    ensures ReadTotals(line).Parsed? <==> exists m :: IsTotals(line, m)
    ensures ReadTotals(line).Parsed? ==> IsTotals(line, ReadTotals(line).value)
    ensures forall m | IsTotals(line, m) :: ReadTotals(line).Parsed? && m == ReadTotals(line).value
  {
    hide IsTotals, ReadNat, Expect, SkipBlanks;
    forall m ensures ReadTotals(line) == Parsed(m, "") <==> IsTotals(line, m) {
      TotalsMatch(line, m);
    }
  }

  lemma {:induction false} NoTotalsRead(lines: seq<string>)
    ensures TotalsIn(lines) == [] <==> NoTotalsIn(lines)
    decreases |lines|
  {
    hide ReadTotals, IsTotals;
    if lines != [] {
      TotalsOfLine(lines[0]);
      NoTotalsRead(lines[1..]);
      assert forall j | 1 <= j < |lines| :: lines[j] == lines[1..][j - 1];
    }
  }

  lemma {:induction false} OneTotalsRead(lines: seq<string>, n: Numbers)
    ensures TotalsIn(lines) == [n] <==> OneTotals(lines, n)
    decreases |lines|
  {
    hide ReadTotals, IsTotals;
    if lines != [] {
      var rest := lines[1..];
      TotalsOfLine(lines[0]);
      NoTotalsRead(rest);
      OneTotalsRead(rest, n);
      assert forall j | 1 <= j < |lines| :: lines[j] == rest[j - 1];
      if ReadTotals(lines[0]).Parsed? {
        var v := ReadTotals(lines[0]).value;
        assert TotalsIn(lines) == [v] + TotalsIn(rest);
        if TotalsIn(lines) == [n] {
          assert n == ([v] + TotalsIn(rest))[0] && TotalsIn(rest) == [n][1..] == [];
        }
        assert OnlyTotals(lines, 0, n) <==> IsTotals(lines[0], n) && NoTotalsIn(rest);
        if i: nat :| OnlyTotals(lines, i, n) {
          assert IsTotals(lines[0], ReadTotals(lines[0]).value);
          assert i == 0;
        }
      } else {
        forall i: nat ensures OnlyTotals(rest, i, n) <==> OnlyTotals(lines, i + 1, n) {
          OnlyTotalsShift(lines, i, n);
        }
        if i: nat :| OnlyTotals(lines, i, n) {
          assert i > 0;
          assert OnlyTotals(rest, i - 1, n);
        }
      }
    }
  }

  lemma {:induction false} OnlyTotalsShift(lines: seq<string>, i: nat, n: Numbers)
    requires lines != [] && forall m :: !IsTotals(lines[0], m)
    ensures OnlyTotals(lines[1..], i, n) <==> OnlyTotals(lines, i + 1, n)
  {
    hide IsTotals;
    var rest := lines[1..];
    assert forall j | 0 <= j < |rest| :: rest[j] == lines[j + 1];
    assert forall j | 1 <= j < |lines| :: lines[j] == rest[j - 1];
  }

  ghost function MissedPlaces(lines: seq<string>): set<int> { set i | 0 <= i < |lines| && IsMissed(lines[i]) }

  lemma {:induction false} CountIsPlaces(lines: seq<string>)
    ensures CountMissed(lines) == |MissedPlaces(lines)|
    decreases |lines|
  {
    hide IsMissed;
    if lines == [] {
      assert MissedPlaces(lines) == {};
    } else {
      var rest := lines[1..];
      CountIsPlaces(rest);
      var later := set i | i in MissedPlaces(rest) :: i + 1;
      SameSize((i: int) => i + 1, MissedPlaces(rest), later);
      assert forall i | 1 <= i < |lines| :: lines[i] == rest[i - 1];
      forall i ensures i in MissedPlaces(lines) <==> i in later || (i == 0 && IsMissed(lines[0])) {
        assert i in later <==> i - 1 in MissedPlaces(rest);
      }
      assert MissedPlaces(lines) == if IsMissed(lines[0]) then later + {0} else later;
    }
  }

  /** A shard is believed exactly when one of its lines, and no other, is a totals line,
      whose numbers add up, and as many lines are marked as it says were missed. */
  lemma {:induction false} ShardMeans(text: string, n: Numbers)
    ensures ReadShard(text) == Read(n) <==>
            && OneTotals(Lines(text), n)
            && n.caught + n.missed + n.unviable == n.total
            && |MissedPlaces(Lines(text))| == n.missed
  {
    hide TotalsIn, OneTotals, Lines, Contains, CountMissed, MissedPlaces;
    var lines := Lines(text);
    OneTotalsRead(lines, n);
    CountIsPlaces(lines);
    assert |TotalsIn(lines)| == 1 ==> TotalsIn(lines) == [TotalsIn(lines)[0]];
  }

  predicate ShowsAt(text: string, part: string, i: nat) {
    i + |part| <= |text| && text[i..i + |part|] == part
  }

  ghost predicate Shows(text: string, part: string) { exists i: nat :: ShowsAt(text, part, i) }

  lemma {:induction false} ContainsShows(text: string, part: string)
    ensures Contains(text, part) <==> Shows(text, part)
    decreases |text|
  {
    if part <= text {
      assert ShowsAt(text, part, 0);
    } else if text != "" {
      var rest := text[1..];
      ContainsShows(rest, part);
      forall i: nat ensures ShowsAt(rest, part, i) <==> ShowsAt(text, part, i + 1) {
        assert i + |part| <= |rest| ==> rest[i..i + |part|] == text[i + 1..i + 1 + |part|];
      }
      if i: nat :| ShowsAt(text, part, i) {
        assert i > 0;
        assert ShowsAt(rest, part, i - 1);
      }
    }
  }

  ghost predicate HasOneTotals(text: string) { exists n :: OneTotals(Lines(text), n) }

  ghost predicate ShowsRefusal(text: string) {
    || Shows(text, "do not pass; fix it first") || Shows(text, "do not pass; fix them first")
    || Shows(text, "does not pass; fix it first") || Shows(text, "does not pass; fix them first")
  }

  /** Without a single totals line the fault is the first of these that applies: killed
      on its deadline, refused to start, no totals, too many. */
  lemma {:induction false} FaultMeans(text: string)
    ensures ReadShard(text) == Fault(TimedOut) <==> !HasOneTotals(text) && Shows(text, "Test timed out")
    ensures ReadShard(text) == Fault(Refused) <==>
            !HasOneTotals(text) && !Shows(text, "Test timed out") && ShowsRefusal(text)
    ensures ReadShard(text) == Fault(NoTotals) <==>
            NoTotalsIn(Lines(text)) && !Shows(text, "Test timed out") && !ShowsRefusal(text)
  {
    hide TotalsIn, OneTotals, NoTotalsIn, Lines, Contains, CountMissed, Shows;
    var lines := Lines(text);
    var totals := TotalsIn(lines);
    NoTotalsRead(lines);
    if |totals| == 1 {
      assert totals == [totals[0]];
      OneTotalsRead(lines, totals[0]);
    }
    if n :| OneTotals(lines, n) {
      OneTotalsRead(lines, n);
    }
    ContainsShows(text, "Test timed out");
    ContainsShows(text, "do not pass; fix it first");
    ContainsShows(text, "do not pass; fix them first");
    ContainsShows(text, "does not pass; fix it first");
    ContainsShows(text, "does not pass; fix them first");
  }

  function ShardText(crate: Name, first: int, n: Numbers): string {
    TotalsLine(n) + "\n" + LabelsText(crate, first, n.missed)
  }

  /** A printed shard reads back as its numbers, unless one of them is negative. */
  lemma {:induction false} ShardReads(crate: Name, first: int, n: Numbers)
    requires n.total == n.caught + n.missed + n.unviable
    ensures AllNatural(n) ==> ReadShard(ShardText(crate, first, n)) == Read(n)
    ensures !AllNatural(n) ==> ReadShard(ShardText(crate, first, n)).Fault?
  {
    hide ReadTotals, IsMissed, LabelsText, Contains, TotalsLine;
    TotalsStart(n);
    TotalsRead(n);
    TotalsIsNoLabel(n);
    LabelLines(crate, first, n.missed);
    LinesCons(TotalsLine(n), LabelsText(crate, first, n.missed));
    var rest := Lines(LabelsText(crate, first, n.missed));
    assert Lines(ShardText(crate, first, n)) == [TotalsLine(n)] + rest;
    assert ([TotalsLine(n)] + rest)[1..] == rest;
  }

  lemma {:induction false} TotalsIsNoLabel(n: Numbers)
    ensures !IsMissed(TotalsLine(n))
  {
    hide TotalsLine;
    TotalsStart(n);
    NothingToSkip(TotalsLine(n));
    assert Mark()[0] == 'M';
  }
}
