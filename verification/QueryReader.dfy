/** A reader for the texts that typed trees print as
    (tools/query-language-evidence.py:174-307). */
module QueryReader {
  import opened Text
  import opened TypedTree
  import opened Basics

  datatype Read = Read(tree: Tree, kind: QueryType)

  // ----- the reader, by recursive descent on the text

  function ReadOp(s: string): (r: Parsed<Op>)
    ensures r.Parsed? ==> |r.rest| < |s|
  {
    if s == "" then NoParse
    else if s[0] == '=' then (if At(s, 1, '~') then Parsed(Regex, s[2..]) else Parsed(Eq, s[1..]))
    else if s[0] == '>' then (if At(s, 1, '=') then Parsed(Gte, s[2..]) else Parsed(Gt, s[1..]))
    else if s[0] == '<' then (if At(s, 1, '=') then Parsed(Lte, s[2..]) else Parsed(Lt, s[1..]))
    else if s[0] == '!' && At(s, 1, '=') then Parsed(Neq, s[2..])
    else if s[0] == '!' && At(s, 1, '~') then Parsed(NotRegex, s[2..])
    else NoParse
  }

  function ReadWord(s: string): (r: Parsed<string>)
    ensures r.Parsed? ==> |r.rest| < |s|
  {
    var n := Span(s, IsWordChar);
    if n == 0 then NoParse else Parsed(s[..n], s[n..])
  }

  function ReadLabel(s: string): (r: Parsed<Label>)
    ensures r.Parsed? ==> |r.rest| < |s|
  {
    var (key, r1) :- ReadWord(s);
    var (op, r2) :- ReadOp(r1);
    var (value, r3) :- ReadQuote(r2);
    Parsed(Label(key, op, value), r3)
  }

  function ReadLabels(s: string): (r: Parsed<seq<Label>>)
    ensures r.Parsed? ==> |r.rest| < |s|
    decreases |s|
  {
    var (l, r1) :- ReadLabel(s);
    if At(r1, 0, ',') then
      var (ls, r2) :- ReadLabels(r1[1..]);
      Parsed([l] + ls, r2)
    else Parsed([l], r1)
  }

  function ReadNames(s: string): (r: Parsed<seq<string>>)
    ensures r.Parsed? ==> |r.rest| < |s|
    decreases |s|
  {
    var (name, r1) :- ReadWord(s);
    if At(r1, 0, ',') then
      var (names, r2) :- ReadNames(r1[1..]);
      Parsed([name] + names, r2)
    else Parsed([name], r1)
  }

  predicate NotDot(c: char) { c != '.' }

  /** The field a word stands for. */
  function FieldOf(w: string): Field {
    if At(w, 0, '.') then Field("", w[1..], String)
    else if ':' in w then Field("", w, if w in DURATION_INTRINSICS then Duration else String)
    else if w == "duration" then Field("", w, Duration)
    else
      var n := Span(w, NotDot);
      if n == |w| then Field("", w, String) else Field(w[..n], w[n + 1..], String)
  }

  /** A decimal number with the literal `tail` behind it. */
  function ReadIntThen(s: string, tail: string): (r: Parsed<int>)
    ensures r.Parsed? ==> |r.rest| < |s|
  {
    var (n, r1) :- ReadInt(s);
    var (_, r2) :- Expect(tail, r1);
    Parsed(n, r2)
  }

  function ReadQuery(s: string): (r: Parsed<Read>)
    ensures r.Parsed? ==> |r.rest| < |s|
    decreases |s|, 1
  {
    if s == "" then NoParse
    else if s[0] == '(' then ReadGroup(s[1..])
    else if s[0] == '{' then
      var (ls, r1) :- ReadLabels(s[1..]);
      var (_, r2) :- Expect("}", r1);
      Parsed(Read(Stream(ls), LogStream), r2)
    else if s[0] == '-' || IsDigit(s[0]) then
      var (n, r1) :- ReadInt(s);
      Parsed(Read(Scalar(n), PromScalar), r1)
    else
      var (w, r1) :- ReadWord(s);
      if At(r1, 0, '(') then ReadCall(w, r1[1..])
      else if At(r1, 0, ' ') && At(r1, 1, 'b') then
        var (_, r2) :- Expect(" by(", r1);
        ReadGroupedSum(r2)
      else if At(r1, 0, ' ') then ReadComparison(FieldOf(w), None, r1)
      else if At(r1, 0, '=') || At(r1, 0, '!') then
        var (ls, r2) :- ReadLabels(s);
        Parsed(Read(Selector(ls), ProfileSelector), r2)
      else ReadMetric(w, r1)
  }

  /** Behind an opening bracket. */
  function ReadGroup(s: string): (r: Parsed<Read>)
    ensures r.Parsed? ==> |r.rest| <= |s|
    decreases |s|, 2
  {
    var n := Span(s, IsWordChar);
    if At(s, n, ' ') && At(s, n + 1, '*') then
      var (_, r0) :- Expect(" * ", s[n..]);
      var (factor, r1) :- ReadIntThen(r0, ")");
      ReadComparison(FieldOf(s[..n]), Some(factor), r1)
    else
      var (x, r1) :- ReadQuery(s);
      var (_, r2) :- Expect(")", r1);
      CloseGroup(x, r2)
  }

  /** Behind the closing bracket of the group `x`. */
  function CloseGroup(x: Read, s: string): (r: Parsed<Read>)
    ensures r.Parsed? ==> |r.rest| <= |s|
    decreases |s|, 2
  {
    if At(s, 0, '+') then
      var (addend, r1) :- ReadInt(s[1..]);
      Parsed(Read(Apply(if x.kind == LogVector then LogAdd(addend) else PromAdd(addend), x.tree), x.kind), r1)
    else if At(s, 0, ' ') && At(s, 1, '&') then
      var (y, r1) :- ReadJoined(" && (", s);
      Parsed(Read(Apply(TraceAnd(y.tree), x.tree), TracePredicate), r1)
    else if At(s, 0, ' ') && At(s, 1, '|') then
      var (y, r1) :- ReadJoined(" || (", s);
      Parsed(Read(Apply(TraceOr(y.tree), x.tree), TracePredicate), r1)
    else if At(s, 0, '[') && x.kind == PromVector then
      var (seconds, r1) :- ReadIntThen(s[1..], "s:1s]");
      Parsed(Read(Range(x.tree, seconds), PromRange), r1)
    else Parsed(Read(Apply(Paren, x.tree), x.kind), s)
  }

  /** The right operand of a boolean, between `open` and a closing bracket. */
  function ReadJoined(open: string, s: string): (r: Parsed<Read>)
    requires open != ""
    ensures r.Parsed? ==> |r.rest| <= |s|
    decreases |s|, 1
  {
    var (_, r1) :- Expect(open, s);
    var (y, r2) :- ReadQuery(r1);
    var (_, r3) :- Expect(")", r2);
    Parsed(y, r3)
  }

  /** Behind `w(`. */
  function ReadCall(w: string, s: string): (r: Parsed<Read>)
    ensures r.Parsed? ==> |r.rest| <= |s|
    decreases |s|, 2
  {
    var (x, r1) :- ReadQuery(s);
    CloseCall(w, x, r1)
  }

  /** Behind the argument `x` of the call to `w`. */
  function CloseCall(w: string, x: Read, s: string): (r: Parsed<Read>)
    ensures r.Parsed? ==> |r.rest| <= |s|
  {
    if w == "count_over_time" then
      var (_, r2) :- Expect("[", s);
      var (seconds, r3) :- ReadIntThen(r2, "s])");
      Parsed(Read(Count(x.tree, seconds), LogVector), r3)
    else if w == "clamp_min" then
      var (_, r2) :- Expect(",", s);
      var (floor, r3) :- ReadIntThen(r2, ")");
      Parsed(Read(Apply(PromClampMin(floor), x.tree), PromVector), r3)
    else
      var (_, r2) :- Expect(")", s);
      match w {
        case "vector" => Parsed(Read(Vector(x.tree), PromVector), r2)
        case "rate" => Parsed(Read(Rate(x.tree), PromVector), r2)
        case "abs" => Parsed(Read(Apply(PromAbs, x.tree), PromVector), r2)
        case "sum" => Parsed(Read(Apply(if x.kind == LogVector then LogSum else PromSum([]), x.tree), x.kind), r2)
        case "max" => Parsed(Read(Apply(LogMax, x.tree), LogVector), r2)
        case "avg" => Parsed(Read(Apply(LogAvg, x.tree), LogVector), r2)
        case _ => NoParse
      }
  }

  /** Behind `sum by(`. */
  function ReadGroupedSum(s: string): (r: Parsed<Read>)
    ensures r.Parsed? ==> |r.rest| <= |s|
    decreases |s|, 2
  {
    var (names, r1) :- ReadNames(s);
    var (_, r2) :- Expect(")(", r1);
    var (x, r3) :- ReadQuery(r2);
    var (_, r4) :- Expect(")", r3);
    Parsed(Read(Apply(PromSum(names), x.tree), PromVector), r4)
  }

  /** Behind the left side of a comparison. */
  function ReadComparison(left: Field, factor: Option<int>, s: string): (r: Parsed<Read>)
    ensures r.Parsed? ==> |r.rest| < |s|
  {
    var (_, r1) :- Expect(" ", s);
    var (op, r2) :- ReadOp(r1);
    var (_, r3) :- Expect(" ", r2);
    RightSide(left, factor, op, r3)
  }

  function RightSide(left: Field, factor: Option<int>, op: Op, s: string): (r: Parsed<Read>)
    ensures r.Parsed? ==> |r.rest| < |s|
  {
    if factor.Some? then
      var (right, r1) :- ReadWord(s);
      Parsed(Read(ScaledComparison(left, factor.value, op, FieldOf(right)), TracePredicate), r1)
    else if At(s, 0, '\"') then
      var (text, r1) :- ReadQuote(s);
      Parsed(Read(StringComparison(left, op, text), TracePredicate), r1)
    else if s != "" && (s[0] == '-' || IsDigit(s[0])) then
      var (nanos, r1) :- ReadIntThen(s, "ns");
      Parsed(Read(DurationComparison(left, op, nanos), TracePredicate), r1)
    else
      var (right, r1) :- ReadWord(s);
      Parsed(Read(FieldComparison(left, op, FieldOf(right)), TracePredicate), r1)
  }

  /** Behind a metric name. */
  function ReadMetric(w: string, s: string): (r: Parsed<Read>)
    ensures r.Parsed? ==> |r.rest| <= |s|
  {
    var (labels, r1) :-
      if At(s, 0, '{') then
        var (ls, r0) :- ReadLabels(s[1..]);
        var (_, r1) :- Expect("}", r0);
        Parsed(ls, r1)
      else Parsed([], s);
    if At(r1, 0, '[') then
      var (seconds, r2) :- ReadIntThen(r1[1..], "s]");
      Parsed(Read(Range(Metric(w, labels), seconds), PromRange), r2)
    else Parsed(Read(Metric(w, labels), PromVector), r1)
  }
}
