/** Reading back what the printer wrote. */
module QueryReadsBack {
  import opened Text
  import opened TypedTree
  import opened Basics
  import opened QueryText
  import opened QueryReader

  // ----- the pieces

  lemma {:induction false} WordReads(w: string, k: string)
    requires w != "" && forall c | c in w :: IsWordChar(c)
    requires k == "" || !IsWordChar(k[0])
    ensures ReadWord(w + k) == Parsed(w, k)
  {
    SpanStops(w, k, IsWordChar);
  }

  lemma {:induction false} OpReads(op: Op, k: string)
    requires k != "" && k[0] != '=' && k[0] != '~'
    ensures ReadOp(OpText(op) + k) == Parsed(op, k)
  {
    var t := OpText(op);
    assert (t + k)[|t|..] == k;
  }

  lemma {:induction false} LabelReads(l: Label, k: string)
    requires ValidLabel(l)
    ensures ReadLabel(LabelTo(l, k)) == Parsed(l, k)
  {
    QuoteReads(l.value, k);
    OpReads(l.op, QuoteTo(l.value, k));
    WordReads(l.key, OpText(l.op) + QuoteTo(l.value, k));
  }

  lemma {:induction false} LabelsStep(l: Label, ls: seq<Label>, tail: string, k: string)
    requires ValidLabel(l) && ReadLabels(tail) == Parsed(ls, k)
    ensures ReadLabels(LabelTo(l, "," + tail)) == Parsed([l] + ls, k)
  {
    LabelReads(l, "," + tail);
    assert ("," + tail)[1..] == tail;
  }

  lemma {:induction false} LabelsRead(ls: seq<Label>, k: string)
    requires ls != [] && ValidLabels(ls)
    requires k == "" || k[0] != ','
    ensures ReadLabels(LabelsTo(ls, k)) == Parsed(ls, k)
  {
    assert ls[0] in ls;
    if |ls| == 1 {
      LabelReads(ls[0], k);
      assert ls == [ls[0]];
    } else {
      LabelsRead(ls[1..], k);
      LabelsStep(ls[0], ls[1..], LabelsTo(ls[1..], k), k);
      assert [ls[0]] + ls[1..] == ls;
    }
  }

  lemma {:induction false} NameReads(name: string, k: string)
    requires IsLabelName(name)
    requires k != "" && !IsWordChar(k[0])
    ensures ReadWord(name + k) == Parsed(name, k)
  {
    WordReads(name, k);
  }

  lemma {:induction false} NamesStep(name: string, names: seq<string>, tail: string, k: string)
    requires IsLabelName(name) && ReadNames(tail) == Parsed(names, k)
    ensures ReadNames(name + ("," + tail)) == Parsed([name] + names, k)
  {
    NameReads(name, "," + tail);
    assert ("," + tail)[1..] == tail;
  }

  lemma {:induction false} LastNameReads(name: string, k: string)
    requires IsLabelName(name)
    requires k != "" && k[0] == ')'
    ensures ReadNames(name + k) == Parsed([name], k)
  {
    NameReads(name, k);
  }

  lemma {:induction false} NamesRead(names: seq<string>, k: string)
    requires names != [] && forall i | 0 <= i < |names| :: IsLabelName(names[i])
    requires k != "" && k[0] == ')'
    ensures ReadNames(NamesTo(names, k)) == Parsed(names, k)
  {
    hide ReadNames, IsLabelName;
    if |names| == 1 {
      LastNameReads(names[0], k);
      assert names == [names[0]];
    } else {
      NamesRead(names[1..], k);
      NamesStep(names[0], names[1..], NamesTo(names[1..], k), k);
      assert [names[0]] + names[1..] == names;
    }
  }

  lemma {:induction false} IntThenReads(n: int, tail: string, k: string)
    requires tail != "" && !IsDigit(tail[0])
    ensures ReadIntThen(IntText(n) + (tail + k), tail) == Parsed(n, k)
  {
    IntReads(n, tail + k);
    ExpectReads(tail, k);
  }

  lemma {:induction false} IntrinsicReads(f: Field)
    requires CheckField(f, f.scalar).Ok? && ':' in f.key
    ensures FieldOf(f.key) == f
  {
    var w := f.key;
    if f.scalar.String? {
      assert w !in DURATION_INTRINSICS;
    }
    assert w[0] != '.';
  }

  lemma {:induction false} ScopeIsLetters(scope: string)
    requires scope in SCOPES
    ensures forall i | 0 <= i < |scope| :: 'a' <= scope[i] <= 'z'
  {
  }

  lemma {:induction false} ScopedReads(scope: string, key: string)
    requires scope != "" && forall i | 0 <= i < |scope| :: 'a' <= scope[i] <= 'z'
    requires ':' !in key
    ensures FieldOf(scope + "." + key) == Field(scope, key, String)
  {
    var w := scope + "." + key;
    assert w == scope + ("." + key);
    SpanStops(scope, "." + key, NotDot);
    assert w[|scope| + 1..] == key && w[|scope|] == '.' && w[0] == scope[0];
    assert ':' !in w;
    assert w != "duration";
  }

  /** A field's text is a word that stands for that field alone. */
  lemma {:induction false} FieldReads(f: Field)
    requires CheckField(f, f.scalar).Ok?
    ensures FieldOf(FieldText(f)) == f
    ensures FieldText(f) != "" && !IsDigit(FieldText(f)[0])
    ensures forall c | c in FieldText(f) :: IsWordChar(c)
  {
    var w := FieldText(f);
    if ':' in f.key {
      IntrinsicReads(f);
    } else if f.scope != "" {
      ScopeIsLetters(f.scope);
      ScopedReads(f.scope, f.key);
      assert w[0] == f.scope[0];
    } else if w != f.key {
      assert w[1..] == f.key;
    } else {
      assert w == "name" || w == "duration";
      assert forall i | 0 <= i < |w| :: w[i] != '.' && w[i] != ':';
    }
  }

  /** Only an attribute without a scope starts with a dot, and it always does. */
  lemma {:induction false} DotMarksAttribute(f: Field)
    requires CheckField(f, f.scalar).Ok?
    ensures FieldText(f)[..1] == "." <==>
            f.scope == "" && ':' !in f.key && f.key != "name" && f.key != "duration"
  {
    var w := FieldText(f);
    if ':' in f.key {
      assert w[0] != '.';
    } else if f.scope != "" {
      ScopeIsLetters(f.scope);
      assert w[0] == f.scope[0];
    }
  }

  // ----- how the reader chooses its branch

  predicate IsWord(w: string) {
    w != "" && !IsDigit(w[0]) && forall c | c in w :: IsWordChar(c)
  }

  lemma {:induction false} WordStarts(w: string, r: string)
    requires IsWord(w) && (r == "" || !IsWordChar(r[0]))
    ensures ReadWord(w + r) == Parsed(w, r)
    ensures w + r != "" && (w + r)[0] == w[0] && w[0] in w
    ensures IsWordChar(w[0]) && w[0] != '(' && w[0] != '{' && w[0] != '-'
  {
    WordReads(w, r);
  }

  lemma {:induction false} ChoosesGroup(s: string)
    ensures ReadQuery("(" + s) == ReadGroup(s)
  {
    assert ("(" + s)[1..] == s;
  }

  lemma {:induction false} ChoosesCall(w: string, s: string)
    requires IsWord(w)
    ensures ReadQuery(w + ("(" + s)) == ReadCall(w, s)
  {
    hide ReadWord;
    WordStarts(w, "(" + s);
    assert ("(" + s)[1..] == s;
  }

  lemma {:induction false} ComparisonStarts(op: Op, right: string)
    ensures var r := ComparisonTo(op, right); At(r, 0, ' ') && 1 < |r| && r[1] == OpText(op)[0]
  {
  }

  lemma {:induction false} ChoosesComparison(w: string, op: Op, right: string)
    requires IsWord(w)
    ensures ReadQuery(w + ComparisonTo(op, right)) == ReadComparison(FieldOf(w), None, ComparisonTo(op, right))
  {
    hide ReadWord;
    ComparisonStarts(op, right);
    WordStarts(w, ComparisonTo(op, right));
    assert OpText(op)[0] != 'b';
  }

  lemma {:induction false} ChoosesMetric(w: string, r: string)
    requires IsWord(w) && (r == "" || r[0] in {')', ',', '[', '{'})
    ensures ReadQuery(w + r) == ReadMetric(w, r)
  {
    hide ReadWord;
    WordStarts(w, r);
  }

  lemma {:induction false} ChoosesGroupedSum(s: string)
    ensures ReadQuery("sum" + (" by(" + s)) == ReadGroupedSum(s)
  {
    hide ReadWord;
    var r := " by(" + s;
    assert At(r, 0, ' ') && At(r, 1, 'b');
    WordStarts("sum", r);
    ExpectReads(" by(", s);
  }

  function AsSelector(r: Parsed<seq<Label>>): Parsed<Read> {
    match r
    case NoParse => NoParse
    case Parsed(ls, rest) => Parsed(Read(Selector(ls), ProfileSelector), rest)
  }

  lemma {:induction false} ChoosesSelector(w: string, r: string)
    requires IsWord(w) && r != "" && (r[0] == '=' || r[0] == '!')
    ensures ReadQuery(w + r) == AsSelector(ReadLabels(w + r))
  {
    hide ReadWord;
    WordStarts(w, r);
  }

  lemma {:induction false} LabelStarts(l: Label, k: string) returns (r: string)
    requires ValidLabel(l)
    ensures LabelTo(l, k) == l.key + r && IsWord(l.key)
    ensures r != "" && (r[0] == '=' || r[0] == '!')
  {
    r := OpText(l.op) + QuoteTo(l.value, k);
  }

  lemma {:induction false} SelectorReads(ls: seq<Label>, k: string)
    requires ls != [] && ValidLabels(ls)
    requires k == "" || k[0] != ','
    ensures ReadQuery(LabelsTo(ls, k)) == Parsed(Read(Selector(ls), ProfileSelector), k)
  {
    LabelsRead(ls, k);
    assert ls[0] in ls;
    var r := LabelStarts(ls[0], if |ls| == 1 then k else "," + LabelsTo(ls[1..], k));
    ChoosesSelector(ls[0].key, r);
  }

  // ----- what may follow a query inside another one

  /** No query is followed by anything else, so a reader knows where it ends. */
  predicate Follows(kind: QueryType, k: string) {
    k == "" || k[0] == ')' || k[0] == ',' || (k[0] == '[' && kind == LogStream)
  }

  /** A text that cannot open a scaled comparison. */
  predicate Unscaled(s: string) {
    var n := Span(s, IsWordChar);
    !(At(s, n, ' ') && At(s, n + 1, '*'))
  }

  lemma {:induction false} UnscaledWord(w: string, r: string)
    requires forall c | c in w :: IsWordChar(c)
    requires r == "" || !IsWordChar(r[0])
    requires !(At(r, 0, ' ') && At(r, 1, '*'))
    ensures Unscaled(w + r)
  {
    SpanStops(w, r, IsWordChar);
  }

  lemma {:induction false} UnscaledSign(s: string)
    requires s != "" && !IsWordChar(s[0]) && s[0] != ' '
    ensures Unscaled(s)
  {
    UnscaledWord("", s);
    assert "" + s == s;
  }

  // ----- reading a group

  lemma {:induction false} GroupReads(x: Read, s: string, r: string)
    requires Unscaled(s) && ReadQuery(s) == Parsed(x, ")" + r)
    ensures ReadQuery("(" + s) == CloseGroup(x, r)
  {
    ChoosesGroup(s);
    ExpectReads(")", r);
  }

  lemma {:induction false} CallReads(w: string, x: Read, s: string, r: string)
    requires IsWord(w) && ReadQuery(s) == Parsed(x, r)
    ensures ReadQuery(w + ("(" + s)) == CloseCall(w, x, r)
  {
    ChoosesCall(w, s);
  }

  lemma {:induction false} ParenCloses(x: Read, k: string)
    requires Follows(x.kind, k)
    ensures CloseGroup(x, k) == Parsed(Read(Apply(Paren, x.tree), x.kind), k)
  {
  }

  lemma {:induction false} AddCloses(x: Read, n: int, k: string)
    requires k == "" || !IsDigit(k[0])
    ensures CloseGroup(x, "+" + (IntText(n) + k)) ==
            Parsed(Read(Apply(if x.kind == LogVector then LogAdd(n) else PromAdd(n), x.tree), x.kind), k)
  {
    IntReads(n, k);
    assert ("+" + (IntText(n) + k))[1..] == IntText(n) + k;
  }

  lemma {:induction false} RangeCloses(x: Read, n: int, k: string)
    requires x.kind == PromVector
    ensures CloseGroup(x, "[" + (IntText(n) + ("s:1s]" + k))) == Parsed(Read(Range(x.tree, n), PromRange), k)
  {
    hide ReadIntThen;
    IntThenReads(n, "s:1s]", k);
    assert ("[" + (IntText(n) + ("s:1s]" + k)))[1..] == IntText(n) + ("s:1s]" + k);
  }

  lemma {:induction false} JoinCloses(x: Read, both: bool, y: Read, s: string, k: string)
    requires ReadQuery(s) == Parsed(y, ")" + k)
    ensures CloseGroup(x, JoinTo(if both then "&&" else "||", s)) ==
            Parsed(Read(Apply(if both then TraceAnd(y.tree) else TraceOr(y.tree), x.tree), TracePredicate), k)
  {
    var open := " " + (if both then "&&" else "||") + " " + "(";
    assert open == if both then " && (" else " || (";
    ExpectReads(open, s);
    ExpectReads(")", k);
    assert (open + s)[1] == open[1];
  }

  lemma {:induction false} CountCloses(x: Read, n: int, k: string)
    ensures CloseCall("count_over_time", x, "[" + (IntText(n) + ("s])" + k))) ==
            Parsed(Read(Count(x.tree, n), LogVector), k)
  {
    ExpectReads("[", IntText(n) + ("s])" + k));
    IntThenReads(n, "s])", k);
  }

  lemma {:induction false} ClampCloses(x: Read, n: int, k: string)
    ensures CloseCall("clamp_min", x, "," + (IntText(n) + (")" + k))) ==
            Parsed(Read(Apply(PromClampMin(n), x.tree), PromVector), k)
  {
    ExpectReads(",", IntText(n) + (")" + k));
    IntThenReads(n, ")", k);
  }
}
