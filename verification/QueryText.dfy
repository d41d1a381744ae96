/** The printer of typed trees written in front of the text that follows, which
    is the form a reader meets it in. */
module QueryText {
  import opened Text
  import opened TypedTree

  function LabelTo(l: Label, k: string): string {
    l.key + (OpText(l.op) + QuoteTo(l.value, k))
  }

  function LabelsTo(ls: seq<Label>, k: string): string {
    if ls == [] then k
    else if |ls| == 1 then LabelTo(ls[0], k)
    else LabelTo(ls[0], "," + LabelsTo(ls[1..], k))
  }

  function NamesTo(names: seq<string>, k: string): string {
    if names == [] then k
    else if |names| == 1 then names[0] + k
    else names[0] + ("," + NamesTo(names[1..], k))
  }

  function ComparisonTo(op: Op, right: string): string {
    " " + (OpText(op) + (" " + right))
  }

  function JoinTo(word: string, y: string): string {
    (" " + word + " " + "(") + y
  }

  function RenderTo(t: Tree, k: string): string {
    match t
    case Scalar(n) => IntText(n) + k
    case Metric(name, labels) => name + MetricLabelsTo(labels, k)
    case Stream(labels) => "{" + LabelsTo(labels, "}" + k)
    case Selector(labels) => LabelsTo(labels, k)
    case Vector(x) => "vector" + ("(" + RenderTo(x, ")" + k))
    case Rate(x) => "rate" + ("(" + RenderTo(x, ")" + k))
    case Range(x, n) =>
      if x.Metric? then RenderTo(x, "[" + (IntText(n) + ("s]" + k)))
      else "(" + RenderTo(x, ")" + ("[" + (IntText(n) + ("s:1s]" + k))))
    case Count(x, n) => "count_over_time" + ("(" + RenderTo(x, "[" + (IntText(n) + ("s])" + k))))
    case Apply(how, x) =>
      (match how
       case PromAbs => "abs" + ("(" + RenderTo(x, ")" + k))
       case PromClampMin(n) => "clamp_min" + ("(" + RenderTo(x, "," + (IntText(n) + (")" + k))))
       case PromAdd(n) => "(" + RenderTo(x, ")" + ("+" + (IntText(n) + k)))
       case PromSum(groups) =>
         if groups == [] then "sum" + ("(" + RenderTo(x, ")" + k))
         else "sum" + (" by(" + NamesTo(groups, ")(" + RenderTo(x, ")" + k)))
       case LogSum => "sum" + ("(" + RenderTo(x, ")" + k))
       case LogMax => "max" + ("(" + RenderTo(x, ")" + k))
       case LogAvg => "avg" + ("(" + RenderTo(x, ")" + k))
       case LogAdd(n) => "(" + RenderTo(x, ")" + ("+" + (IntText(n) + k)))
       case TraceAnd(y) => "(" + RenderTo(x, ")" + JoinTo("&&", RenderTo(y, ")" + k)))
       case TraceOr(y) => "(" + RenderTo(x, ")" + JoinTo("||", RenderTo(y, ")" + k)))
       case ProfileAnd(l) => RenderTo(x, "," + LabelTo(l, k))
       case Paren => "(" + RenderTo(x, ")" + k))
    case StringComparison(left, op, v) => FieldText(left) + ComparisonTo(op, QuoteTo(v, k))
    case DurationComparison(left, op, n) => FieldText(left) + ComparisonTo(op, IntText(n) + ("ns" + k))
    case FieldComparison(left, op, right) => FieldText(left) + ComparisonTo(op, FieldText(right) + k)
    case ScaledComparison(left, n, op, right) =>
      "(" + (FieldText(left) + (" * " + (IntText(n) + (")" + ComparisonTo(op, FieldText(right) + k)))))
  }

  function MetricLabelsTo(labels: seq<Label>, k: string): string {
    if labels == [] then k else "{" + LabelsTo(labels, "}" + k)
  }

  // ----- both forms print the same text

  lemma {:induction false} Cat2(a: string, b: string, k: string)
    ensures a + (b + k) == (a + b) + k
  {
  }

  lemma {:induction false} Cat3(a: string, b: string, c: string, k: string)
    ensures a + (b + (c + k)) == (a + b + c) + k
  {
    Cat2(b, c, k);
    Cat2(a, b, c + k);
    Cat2(a + b, c, k);
  }

  lemma {:induction false} Cat4(a: string, b: string, c: string, d: string, k: string)
    ensures a + (b + (c + (d + k))) == (a + b + c + d) + k
  {
    Cat3(a, b, c, d + k);
    Cat2(a + b + c, d, k);
  }

  lemma {:induction false} Cat6(a: string, b: string, c: string, d: string, e: string, f: string, k: string)
    ensures a + (b + (c + (d + (e + (f + k))))) == (a + b + c + d + e + f) + k
  {
    Cat4(a, b, c, d, e + (f + k));
    Cat2(a + b + c + d, e, f + k);
    Cat2(a + b + c + d + e, f, k);
  }

  lemma {:induction false} QuoteThen(v: string, k: string)
    ensures QuoteBody(v, k) == QuoteBody(v, "") + k
    ensures QuoteTo(v, k) == QuoteTo(v, "") + k
  {
    if v != "" {
      QuoteThen(v[1..], k);
      Cat2(Escape(v[0]), QuoteBody(v[1..], ""), k);
    } else {
      assert "\"" + "" == "\"";
    }
    Cat2("\"", QuoteBody(v, ""), k);
  }

  lemma {:induction false} LabelThen(l: Label, k: string)
    ensures LabelTo(l, k) == LabelText(l) + k
  {
    QuoteThen(l.value, k);
    Cat3(l.key, OpText(l.op), QuoteTo(l.value, ""), k);
  }

  lemma {:induction false} LabelsThen(ls: seq<Label>, k: string)
    ensures LabelsTo(ls, k) == LabelsText(ls) + k
  {
    if ls != [] {
      LabelThen(ls[0], k);
      LabelThen(ls[0], "," + LabelsTo(ls[1..], k));
      LabelsThen(ls[1..], k);
      Cat3(LabelText(ls[0]), ",", LabelsText(ls[1..]), k);
    }
  }

  lemma {:induction false} NamesThen(names: seq<string>, k: string)
    ensures NamesTo(names, k) == Joined(names) + k
  {
    if |names| > 1 {
      NamesThen(names[1..], k);
      Cat3(names[0], ",", Joined(names[1..]), k);
    }
  }

  lemma {:induction false} RenderThen(t: Tree, k: string)
    ensures RenderTo(t, k) == Render(t) + k
    decreases t, 1
  {
    match t
    case Metric(name, labels) =>
      LabelsThen(labels, "}" + k);
      Cat3("{", LabelsText(labels), "}", k);
      Cat2(name, "{" + LabelsText(labels) + "}", k);
      assert name + "" == name;
    case Stream(labels) =>
      LabelsThen(labels, "}" + k);
      Cat3("{", LabelsText(labels), "}", k);
    case Selector(labels) => LabelsThen(labels, k);
    case Range(x, n) => RangeThen(x, n, k);
    case Count(x, n) =>
      RenderThen(x, "[" + (IntText(n) + ("s])" + k)));
      Cat6("count_over_time", "(", Render(x), "[", IntText(n), "s])", k);
    case Apply(how, x) => if how.TraceAnd? || how.TraceOr? { JoinThen(how, x, k); } else { WrapThen(how, x, k); }
    case Scalar(_) =>
    case Vector(x) =>
      RenderThen(x, ")" + k);
      Cat4("vector", "(", Render(x), ")", k);
    case Rate(x) =>
      RenderThen(x, ")" + k);
      Cat4("rate", "(", Render(x), ")", k);
    case StringComparison(left, op, v) =>
      QuoteThen(v, k);
      Cat4(FieldText(left), " ", OpText(op), " ", QuoteTo(v, "") + k);
      Cat2(FieldText(left) + " " + OpText(op) + " ", QuoteTo(v, ""), k);
    case DurationComparison(left, op, n) =>
      Cat6(FieldText(left), " ", OpText(op), " ", IntText(n), "ns", k);
    case FieldComparison(left, op, right) =>
      Cat4(FieldText(left), " ", OpText(op), " ", FieldText(right) + k);
      Cat2(FieldText(left) + " " + OpText(op) + " ", FieldText(right), k);
    case ScaledComparison(left, n, op, right) =>
      var head := "(" + FieldText(left) + " * " + IntText(n) + ")" + " ";
      Cat6("(", FieldText(left), " * ", IntText(n), ")", " ", OpText(op) + (" " + (FieldText(right) + k)));
      Cat4(head, OpText(op), " ", FieldText(right), k);
  }

  lemma {:induction false} RangeThen(x: Tree, n: int, k: string)
    ensures RenderTo(Range(x, n), k) == Render(Range(x, n)) + k
    decreases x, 2
  {
    if x.Metric? {
      RenderThen(x, "[" + (IntText(n) + ("s]" + k)));
      Cat4(Render(x), "[", IntText(n), "s]", k);
    } else {
      RenderThen(x, ")" + ("[" + (IntText(n) + ("s:1s]" + k))));
      Cat6("(", Render(x), ")", "[", IntText(n), "s:1s]", k);
    }
  }

  lemma {:induction false} JoinThen(how: Constructor, x: Tree, k: string)
    requires how.TraceAnd? || how.TraceOr?
    ensures RenderTo(Apply(how, x), k) == Render(Apply(how, x)) + k
    decreases Apply(how, x), 0
  {
    var word, y := if how.TraceAnd? then "&&" else "||", how.other;
    RenderThen(x, ")" + JoinTo(word, RenderTo(y, ")" + k)));
    RenderThen(y, ")" + k);
    Cat4(" ", word, " ", "(", Render(y) + (")" + k));
    Cat6("(", Render(x), ")", " ", word, " ", "(" + (Render(y) + (")" + k)));
    Cat4("(" + Render(x) + ")" + " " + word + " ", "(", Render(y), ")", k);
  }

  lemma {:induction false} WrapThen(how: Constructor, x: Tree, k: string)
    requires !how.TraceAnd? && !how.TraceOr?
    ensures RenderTo(Apply(how, x), k) == Render(Apply(how, x)) + k
    decreases Apply(how, x), 0
  {
    hide IntText, Joined, LabelTo, LabelText, NamesTo;
    RenderThen(x, ")" + k);
    match how
    case PromAbs => Cat4("abs", "(", Render(x), ")", k);
    case PromClampMin(n) =>
      RenderThen(x, "," + (IntText(n) + (")" + k)));
      Cat6("clamp_min", "(", Render(x), ",", IntText(n), ")", k);
    case PromAdd(n) => AddThen(x, n, k);
    case PromSum(groups) =>
      NamesThen(groups, ")(" + RenderTo(x, ")" + k));
      Cat4("sum", "(", Render(x), ")", k);
      Cat6("sum", " by(", Joined(groups), ")(", Render(x), ")", k);
    case LogSum => Cat4("sum", "(", Render(x), ")", k);
    case LogMax => Cat4("max", "(", Render(x), ")", k);
    case LogAvg => Cat4("avg", "(", Render(x), ")", k);
    case LogAdd(n) => AddThen(x, n, k);
    case ProfileAnd(l) =>
      LabelThen(l, k);
      RenderThen(x, "," + LabelTo(l, k));
      Cat3(Render(x), ",", LabelText(l), k);
    case Paren => Cat3("(", Render(x), ")", k);
  }

  lemma {:induction false} AddThen(x: Tree, n: int, k: string)
    ensures "(" + RenderTo(x, ")" + ("+" + (IntText(n) + k))) == "(" + Render(x) + ")" + "+" + IntText(n) + k
    decreases x, 2
  {
    RenderThen(x, ")" + ("+" + (IntText(n) + k)));
    Cat4("(", Render(x), ")", "+", IntText(n) + k);
    Cat2("(" + Render(x) + ")" + "+", IntText(n), k);
  }
}
