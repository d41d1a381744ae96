/** No two well-typed trees print the same query, except that a profile selector
    does not show which of its clauses came from `ProfileAnd`
    (tools/query-language-evidence.py:174-307). */
module Unambiguous {
  import opened Text
  import opened TypedTree
  import opened Basics
  import opened QueryText
  import opened QueryReader
  import opened QueryReadsBack

  /** The text of `t` in front of `k` reads back as `t`, leaving `k`. */
  ghost predicate ReadsBack(t: Tree, kind: QueryType, k: string) {
    && ReadQuery(RenderTo(t, k)) == Parsed(Read(t, kind), k)
    && Unscaled(RenderTo(t, k))
  }

  // ----- leaves

  lemma {:induction false} ScalarReads(n: int, k: string)
    requires Follows(PromScalar, k)
    ensures ReadsBack(Scalar(n), PromScalar, k)
  {
    hide Span, NatText, ReadInt;
    IntReads(n, k);
    var s := IntText(n) + k;
    assert s[0] == IntText(n)[0];
    if n < 0 {
      UnscaledSign(s);
    } else {
      UnscaledWord(NatText(n), k);
    }
  }

  lemma {:induction false} MetricLabelsRead(w: string, labels: seq<Label>, k: string)
    requires ValidLabels(labels) && (k == "" || k[0] != '{')
    ensures ReadMetric(w, MetricLabelsTo(labels, k)) ==
            if At(k, 0, '[') then
              match ReadIntThen(k[1..], "s]")
              case NoParse => NoParse
              case Parsed(n, rest) => Parsed(Read(Range(Metric(w, labels), n), PromRange), rest)
            else Parsed(Read(Metric(w, labels), PromVector), k)
  {
    if labels != [] {
      LabelsRead(labels, "}" + k);
      ExpectReads("}", k);
      assert ("{" + LabelsTo(labels, "}" + k))[1..] == LabelsTo(labels, "}" + k);
    }
  }

  lemma {:induction false} MetricStarts(name: string, labels: seq<Label>, k: string)
    requires IsMetricName(name) && (k == "" || k[0] in {')', ',', '['})
    ensures IsWord(name)
    ensures var r := MetricLabelsTo(labels, k);
            ReadQuery(name + r) == ReadMetric(name, r) && Unscaled(name + r)
  {
    hide ReadQuery, Span, ReadMetric;
    var r := MetricLabelsTo(labels, k);
    ChoosesMetric(name, r);
    UnscaledWord(name, r);
  }

  lemma {:induction false} MetricReads(name: string, labels: seq<Label>, k: string)
    requires IsMetricName(name) && ValidLabels(labels) && Follows(PromVector, k)
    ensures ReadsBack(Metric(name, labels), PromVector, k)
  {
    hide ReadQuery, Span;
    MetricStarts(name, labels, k);
    MetricLabelsRead(name, labels, k);
  }

  lemma {:induction false} MetricRangeReads(name: string, labels: seq<Label>, n: int, k: string)
    requires IsMetricName(name) && ValidLabels(labels)
    ensures ReadsBack(Range(Metric(name, labels), n), PromRange, k)
  {
    hide ReadQuery, Span, ReadMetric, ReadIntThen;
    var window := IntText(n) + ("s]" + k);
    MetricStarts(name, labels, "[" + window);
    MetricLabelsRead(name, labels, "[" + window);
    IntThenReads(n, "s]", k);
    assert ("[" + window)[1..] == window;
    assert RenderTo(Range(Metric(name, labels), n), k) == name + MetricLabelsTo(labels, "[" + window);
  }

  lemma {:induction false} StreamReads(labels: seq<Label>, k: string)
    requires labels != [] && ValidLabels(labels)
    ensures ReadsBack(Stream(labels), LogStream, k)
  {
    hide Span, LabelsTo, ReadLabels;
    var s := LabelsTo(labels, "}" + k);
    LabelsRead(labels, "}" + k);
    ExpectReads("}", k);
    assert ("{" + s)[1..] == s;
    UnscaledSign("{" + s);
  }

  // ----- comparisons

  lemma {:induction false} ComparisonReads(left: Field, factor: Option<int>, op: Op, right: string)
    requires right != "" && right[0] != '=' && right[0] != '~'
    ensures ReadComparison(left, factor, ComparisonTo(op, right)) ==
            RightSide(left, factor, op, right)
  {
    ExpectReads(" ", OpText(op) + (" " + right));
    OpReads(op, " " + right);
    ExpectReads(" ", right);
  }

  lemma {:induction false} ComparisonOpens(left: Field, op: Op, right: string)
    requires CheckField(left, left.scalar).Ok?
    requires right != "" && right[0] != '=' && right[0] != '~'
    ensures var s := FieldText(left) + ComparisonTo(op, right);
            ReadQuery(s) == RightSide(left, None, op, right) && Unscaled(s)
  {
    hide ReadQuery, Span, RightSide, CheckField;
    FieldReads(left);
    ChoosesComparison(FieldText(left), op, right);
    ComparisonReads(left, None, op, right);
    ComparisonStarts(op, right);
    assert OpText(op)[0] != '*';
    UnscaledWord(FieldText(left), ComparisonTo(op, right));
  }

  lemma {:induction false} StringComparisonReads(left: Field, op: Op, v: string, k: string)
    requires CheckField(left, String).Ok?
    ensures ReadsBack(StringComparison(left, op, v), TracePredicate, k)
  {
    hide ReadQuery, Span;
    QuoteReads(v, k);
    ComparisonOpens(left, op, QuoteTo(v, k));
  }

  lemma {:induction false} DurationComparisonReads(left: Field, op: Op, n: int, k: string)
    requires CheckField(left, Duration).Ok?
    ensures ReadsBack(DurationComparison(left, op, n), TracePredicate, k)
  {
    hide ReadQuery, Span;
    var right := IntText(n) + ("ns" + k);
    assert right[0] == IntText(n)[0];
    IntThenReads(n, "ns", k);
    ComparisonOpens(left, op, right);
  }

  lemma {:induction false} RightFieldReads(right: Field, k: string)
    requires CheckField(right, right.scalar).Ok? && Follows(TracePredicate, k)
    ensures ReadWord(FieldText(right) + k) == Parsed(FieldText(right), k)
    ensures FieldOf(FieldText(right)) == right
    ensures var s := FieldText(right) + k;
            s != "" && IsWordChar(s[0]) && !IsDigit(s[0])
  {
    hide CheckField, FieldText, FieldOf, ReadWord, Span;
    FieldReads(right);
    WordReads(FieldText(right), k);
    assert FieldText(right)[0] in FieldText(right);
  }

  lemma {:induction false} FieldScalar(f: Field, scalar: ScalarType)
    requires CheckField(f, scalar).Ok?
    ensures f.scalar == scalar
  {
  }

  lemma {:induction false} FieldComparisonReads(left: Field, op: Op, right: Field, k: string)
    requires CheckField(left, left.scalar).Ok? && CheckField(right, left.scalar).Ok?
    requires Follows(TracePredicate, k)
    ensures ReadsBack(FieldComparison(left, op, right), TracePredicate, k)
  {
    hide ReadQuery, Span, CheckField, FieldText, FieldOf;
    FieldScalar(right, left.scalar);
    RightFieldReads(right, k);
    ComparisonOpens(left, op, FieldText(right) + k);
  }

  lemma {:induction false} ScaledOpens(w: string, n: int, tail: string)
    requires IsWord(w)
    ensures ReadGroup(w + (" * " + (IntText(n) + (")" + tail)))) == ReadComparison(FieldOf(w), Some(n), tail)
  {
    hide ReadQuery, ReadComparison, FieldOf, Span, ReadIntThen, IntText;
    var inner := " * " + (IntText(n) + (")" + tail));
    SpanStops(w, inner, IsWordChar);
    assert (w + inner)[|w|] == inner[0] && (w + inner)[|w| + 1] == inner[1];
    ExpectReads(" * ", IntText(n) + (")" + tail));
    IntThenReads(n, ")", tail);
  }

  lemma {:induction false} ScaledComparisonReads(left: Field, n: int, op: Op, right: Field, k: string)
    requires CheckField(left, left.scalar).Ok? && CheckField(right, left.scalar).Ok?
    requires Follows(TracePredicate, k)
    ensures ReadsBack(ScaledComparison(left, n, op, right), TracePredicate, k)
  {
    hide ReadQuery, ReadGroup, ReadComparison, ReadWord, FieldOf, CheckField, FieldText, Span, IntText;
    FieldScalar(right, left.scalar);
    FieldReads(left);
    RightFieldReads(right, k);
    var tail := ComparisonTo(op, FieldText(right) + k);
    var group := FieldText(left) + (" * " + (IntText(n) + (")" + tail)));
    ScaledOpens(FieldText(left), n, tail);
    ChoosesGroup(group);
    ComparisonReads(left, Some(n), op, FieldText(right) + k);
    UnscaledSign("(" + group);
  }

  // ----- nodes around other nodes

  lemma {:induction false} InCall(t: Tree, kind: QueryType, k: string, w: string, x: Tree, child: QueryType,
                                  r: string)
    requires IsWord(w) && ReadsBack(x, child, r)
    requires RenderTo(t, k) == w + ("(" + RenderTo(x, r))
    requires CloseCall(w, Read(x, child), r) == Parsed(Read(t, kind), k)
    ensures ReadsBack(t, kind, k)
  {
    hide ReadQuery, CloseCall, RenderTo, Span;
    CallReads(w, Read(x, child), RenderTo(x, r), r);
    UnscaledWord(w, "(" + RenderTo(x, r));
  }

  lemma {:induction false} InGroup(t: Tree, kind: QueryType, k: string, x: Tree, child: QueryType, r: string)
    requires ReadsBack(x, child, ")" + r)
    requires RenderTo(t, k) == "(" + RenderTo(x, ")" + r)
    requires CloseGroup(Read(x, child), r) == Parsed(Read(t, kind), k)
    ensures ReadsBack(t, kind, k)
  {
    hide ReadQuery, CloseGroup, RenderTo, Span;
    GroupReads(Read(x, child), RenderTo(x, ")" + r), r);
    UnscaledSign("(" + RenderTo(x, ")" + r));
  }

  lemma {:induction false} ShortCallCloses(w: string, x: Read, k: string)
    requires w in {"vector", "rate", "abs", "sum", "max", "avg"}
    ensures IsWord(w)
    ensures CloseCall(w, x, ")" + k) ==
            match w {
              case "vector" => Parsed(Read(Vector(x.tree), PromVector), k)
              case "rate" => Parsed(Read(Rate(x.tree), PromVector), k)
              case "abs" => Parsed(Read(Apply(PromAbs, x.tree), PromVector), k)
              case "sum" => Parsed(Read(Apply(if x.kind == LogVector then LogSum else PromSum([]), x.tree), x.kind), k)
              case "max" => Parsed(Read(Apply(LogMax, x.tree), LogVector), k)
              case _ => Parsed(Read(Apply(LogAvg, x.tree), LogVector), k)
            }
  {
    ExpectReads(")", k);
  }

  lemma {:induction false} GroupedSumReads(groups: seq<string>, x: Tree, k: string)
    requires groups != [] && forall i | 0 <= i < |groups| :: IsLabelName(groups[i])
    requires ReadsBack(x, PromVector, ")" + k)
    ensures ReadsBack(Apply(PromSum(groups), x), PromVector, k)
  {
    hide ReadQuery, NamesTo, ReadNames, Span;
    var inner := RenderTo(x, ")" + k);
    NamesRead(groups, ")(" + inner);
    ExpectReads(")(", inner);
    ExpectReads(")", k);
    ChoosesGroupedSum(NamesTo(groups, ")(" + inner));
    var tail := " by(" + NamesTo(groups, ")(" + inner);
    assert At(tail, 0, ' ') && At(tail, 1, 'b');
    UnscaledWord("sum", tail);
  }

  /** Every well-typed query other than a profile selector reads back as itself,
      wherever it stands inside another query. */
  lemma {:induction false} WellTypedReadsBack(t: Tree, kind: QueryType, k: string)
    requires TypeOf(t) == Ok(kind) && kind != ProfileSelector && Follows(kind, k)
    ensures ReadsBack(t, kind, k)
    decreases t, 2
  {
    hide ReadQuery, CloseCall, CloseGroup, Span, CheckField, ReadsBack;
    match t
    case Scalar(n) => ScalarReads(n, k);
    case Metric(name, labels) => MetricReads(name, labels, k);
    case Stream(labels) => StreamReads(labels, k);
    case Selector(_) =>
    case Vector(x) =>
      WellTypedReadsBack(x, PromScalar, ")" + k);
      ShortCallCloses("vector", Read(x, PromScalar), k);
      InCall(t, kind, k, "vector", x, PromScalar, ")" + k);
    case Rate(x) =>
      WellTypedReadsBack(x, PromRange, ")" + k);
      ShortCallCloses("rate", Read(x, PromRange), k);
      InCall(t, kind, k, "rate", x, PromRange, ")" + k);
    case Range(x, n) =>
      if x.Metric? {
        MetricRangeReads(x.name, x.labels, n, k);
      } else {
        var r := "[" + (IntText(n) + ("s:1s]" + k));
        WellTypedReadsBack(x, PromVector, ")" + r);
        RangeCloses(Read(x, PromVector), n, k);
        InGroup(t, kind, k, x, PromVector, r);
      }
    case Count(x, n) =>
      var r := "[" + (IntText(n) + ("s])" + k));
      WellTypedReadsBack(x, LogStream, r);
      CountCloses(Read(x, LogStream), n, k);
      InCall(t, kind, k, "count_over_time", x, LogStream, r);
    case Apply(how, x) => ApplyReadsBack(how, x, kind, k);
    case StringComparison(left, op, v) => StringComparisonReads(left, op, v, k);
    case DurationComparison(left, op, n) => DurationComparisonReads(left, op, n, k);
    case FieldComparison(left, op, right) => FieldComparisonReads(left, op, right, k);
    case ScaledComparison(left, n, op, right) => ScaledComparisonReads(left, n, op, right, k);
  }

  /** A constructor keeps the type of its child. */
  lemma {:induction false} ApplyKeepsType(how: Constructor, x: Tree, kind: QueryType)
    requires TypeOf(Apply(how, x)) == Ok(kind)
    ensures TypeOf(x) == Ok(kind) && ApplyType(how, kind) == Ok(kind)
  {
  }

  lemma {:induction false} ApplyReadsBack(how: Constructor, x: Tree, kind: QueryType, k: string)
    requires TypeOf(Apply(how, x)) == Ok(kind) && kind != ProfileSelector && Follows(kind, k)
    ensures ReadsBack(Apply(how, x), kind, k)
    decreases Apply(how, x), 1
  {
    hide ReadQuery, CloseCall, CloseGroup, Span, TypeOf, ReadsBack;
    ApplyKeepsType(how, x, kind);
    var t, child := Apply(how, x), Read(x, kind);
    match how
    case PromAbs => SimpleApplyReadsBack(how, x, kind, k, "abs");
    case LogSum => SimpleApplyReadsBack(how, x, kind, k, "sum");
    case LogMax => SimpleApplyReadsBack(how, x, kind, k, "max");
    case LogAvg => SimpleApplyReadsBack(how, x, kind, k, "avg");
    case PromSum(groups) =>
      if groups == [] {
        SimpleApplyReadsBack(how, x, kind, k, "sum");
      } else {
        WellTypedReadsBack(x, kind, ")" + k);
        GroupedSumReads(groups, x, k);
      }
    case PromClampMin(n) =>
      var r := "," + (IntText(n) + (")" + k));
      WellTypedReadsBack(x, kind, r);
      ClampCloses(child, n, k);
      InCall(t, kind, k, "clamp_min", x, kind, r);
    case PromAdd(n) => AddReadsBack(how, x, kind, n, k);
    case LogAdd(n) => AddReadsBack(how, x, kind, n, k);
    case TraceAnd(y) => JoinReadsBack(true, x, y, k);
    case TraceOr(y) => JoinReadsBack(false, x, y, k);
    case ProfileAnd(_) =>
    case Paren =>
      WellTypedReadsBack(x, kind, ")" + k);
      ParenCloses(child, k);
      InGroup(t, kind, k, x, kind, k);
  }

  lemma {:induction false} SimpleApplyReadsBack(how: Constructor, x: Tree, kind: QueryType, k: string, w: string)
    requires TypeOf(x) == Ok(kind) && ApplyType(how, kind) == Ok(kind)
    requires match how
             case PromAbs => w == "abs"
             case PromSum(groups) => groups == [] && w == "sum"
             case LogSum => w == "sum"
             case LogMax => w == "max"
             case LogAvg => w == "avg"
             case _ => false
    ensures ReadsBack(Apply(how, x), kind, k)
    decreases x, 3
  {
    hide ReadQuery, CloseCall, Span, TypeOf, ReadsBack;
    WellTypedReadsBack(x, kind, ")" + k);
    ShortCallCloses(w, Read(x, kind), k);
    InCall(Apply(how, x), kind, k, w, x, kind, ")" + k);
  }

  lemma {:induction false} AddReadsBack(how: Constructor, x: Tree, kind: QueryType, n: int, k: string)
    requires TypeOf(x) == Ok(kind) && Follows(kind, k)
    requires (how == PromAdd(n) && kind == PromVector) || (how == LogAdd(n) && kind == LogVector)
    ensures ReadsBack(Apply(how, x), kind, k)
    decreases x, 3
  {
    hide ReadQuery, CloseGroup, Span, TypeOf, ReadsBack;
    var r := "+" + (IntText(n) + k);
    WellTypedReadsBack(x, kind, ")" + r);
    AddCloses(Read(x, kind), n, k);
    InGroup(Apply(how, x), kind, k, x, kind, r);
  }

  lemma {:induction false} JoinReadsBack(both: bool, x: Tree, y: Tree, k: string)
    requires TypeOf(x) == TypeOf(y) == Ok(TracePredicate)
    ensures ReadsBack(Apply(if both then TraceAnd(y) else TraceOr(y), x), TracePredicate, k)
    decreases Apply(if both then TraceAnd(y) else TraceOr(y), x), 0
  {
    hide ReadQuery, CloseGroup, Span, TypeOf, ReadsBack, RenderTo, JoinTo;
    var t := Apply(if both then TraceAnd(y) else TraceOr(y), x);
    var inner := RenderTo(y, ")" + k);
    var r := JoinTo(if both then "&&" else "||", inner);
    WellTypedReadsBack(x, TracePredicate, ")" + r);
    WellTypedReadsBack(y, TracePredicate, ")" + k);
    JoinRenders(both, x, y, k);
    ReadsQuery(y, TracePredicate, ")" + k);
    JoinCloses(Read(x, TracePredicate), both, Read(y, TracePredicate), inner, k);
    InGroup(t, TracePredicate, k, x, TracePredicate, r);
  }

  lemma {:induction false} JoinRenders(both: bool, x: Tree, y: Tree, k: string)
    ensures RenderTo(Apply(if both then TraceAnd(y) else TraceOr(y), x), k) ==
            "(" + RenderTo(x, ")" + JoinTo(if both then "&&" else "||", RenderTo(y, ")" + k)))
  {
    hide JoinTo;
  }

  lemma {:induction false} ReadsQuery(t: Tree, kind: QueryType, k: string)
    requires ReadsBack(t, kind, k)
    ensures ReadQuery(RenderTo(t, k)) == Parsed(Read(t, kind), k)
  {
    hide ReadQuery, RenderTo;
  }

  // ----- profile selectors, whose clauses run together

  /** The clauses that a profile selector prints, from left to right. */
  function Clauses(t: Tree): seq<Label> {
    match t
    case Selector(labels) => labels
    case Apply(ProfileAnd(l), x) => Clauses(x) + [l]
    case _ => []
  }

  /** `t`, with the clauses of a profile selector gathered into one list. */
  function Flatten(t: Tree): Tree {
    if TypeOf(t) == Ok(ProfileSelector) then Selector(Clauses(t)) else t
  }

  lemma {:induction false} LabelsToSnoc(ls: seq<Label>, l: Label, k: string)
    requires ls != []
    ensures LabelsTo(ls + [l], k) == LabelsTo(ls, "," + LabelTo(l, k))
  {
    if |ls| > 1 {
      assert (ls + [l])[1..] == ls[1..] + [l];
      LabelsToSnoc(ls[1..], l, k);
    } else {
      assert (ls + [l])[1..] == [l];
    }
  }

  lemma {:induction false} SelectorPrints(t: Tree, k: string)
    requires TypeOf(t) == Ok(ProfileSelector)
    ensures Clauses(t) != [] && ValidLabels(Clauses(t))
    ensures RenderTo(t, k) == LabelsTo(Clauses(t), k)
    decreases t
  {
    if t.Apply? {
      var l := t.how.clause;
      SelectorPrints(t.input, "," + LabelTo(l, k));
      LabelsToSnoc(Clauses(t.input), l, k);
    }
  }

  // ----- the theorems

  /** Reading a printed query gives its type and its tree, up to the grouping
      of profile clauses, and consumes the whole text. */
  lemma {:induction false} PrintedQueryReads(t: Tree)
    requires TypeOf(t).Ok?
    ensures ReadQuery(Render(t)) == Parsed(Read(Flatten(t), TypeOf(t).value), "")
  {
    hide ReadQuery, TypeOf, Span, Render, RenderTo;
    var kind := TypeOf(t).value;
    RenderThen(t, "");
    assert Render(t) + "" == Render(t);
    if kind == ProfileSelector {
      SelectorPrints(t, "");
      SelectorReads(Clauses(t), "");
    } else {
      WellTypedReadsBack(t, kind, "");
    }
  }

  lemma {:induction false} FlattenPrints(t: Tree)
    ensures Render(Flatten(t)) == Render(t)
  {
    hide TypeOf;
    if TypeOf(t) == Ok(ProfileSelector) {
      SelectorPrints(t, "");
      RenderThen(t, "");
      RenderThen(Flatten(t), "");
      assert Render(t) + "" == Render(t) && Render(Flatten(t)) + "" == Render(Flatten(t));
    }
  }

  /** Two well-typed trees print the same query exactly when they are the same
      tree up to the grouping of profile clauses; in particular their types
      agree, so no query text belongs to two languages. */
  lemma {:induction false} RenderingIsUnambiguous(a: Tree, b: Tree)
    requires TypeOf(a).Ok? && TypeOf(b).Ok?
    ensures Render(a) == Render(b) <==> Flatten(a) == Flatten(b)
    ensures Render(a) == Render(b) ==> TypeOf(a) == TypeOf(b)
    ensures Render(a) == Render(b) && TypeOf(a) != Ok(ProfileSelector) ==> a == b
  {
    hide ReadQuery, Span, Render, RenderTo, Clauses;
    PrintedQueryReads(a);
    PrintedQueryReads(b);
    FlattenPrints(a);
    FlattenPrints(b);
  }

  /** The exception is real: one clause list, grouped in two ways. */
  lemma {:induction false} ProfileGroupingIsLost(l: Label, m: Label)
    requires ValidLabel(l) && ValidLabel(m)
    ensures var one, two := Selector([l, m]), Apply(ProfileAnd(m), Selector([l]));
            TypeOf(one) == TypeOf(two) == Ok(ProfileSelector) && one != two && Render(one) == Render(two)
  {
    var one, two := Selector([l, m]), Apply(ProfileAnd(m), Selector([l]));
    assert Clauses(two) == [l, m];
    FlattenPrints(two);
  }
}
