/** The typed query trees that the evidence checker validates and prints
    (tools/query-language-evidence.py, `typed_tree`). */
module TypedTree {
  import opened Basics
  import opened Text

  datatype QueryType =
    | PromScalar | PromVector | PromRange
    | LogStream | LogVector
    | TracePredicate
    | ProfileSelector

  datatype Op = Eq | Neq | Gt | Gte | Lt | Lte | Regex | NotRegex

  datatype Label = Label(key: string, op: Op, value: string)

  datatype ScalarType = String | Duration

  datatype Field = Field(scope: string, key: string, scalar: ScalarType)

  /** One serialized tree. Nothing here is validated: names, operators and
      child types may all be wrong, and `TypeOf` says so. */
  datatype Tree =
    | Scalar(number: int)
    | Metric(name: string, labels: seq<Label>)
    | Stream(labels: seq<Label>)
    | Selector(labels: seq<Label>)
    | Vector(input: Tree)
    | Range(input: Tree, seconds: int)
    | Rate(input: Tree)
    | Count(input: Tree, seconds: int)
    | Apply(how: Constructor, input: Tree)
    | StringComparison(left: Field, op: Op, text: string)
    | DurationComparison(left: Field, op: Op, nanos: int)
    | FieldComparison(left: Field, op: Op, right: Field)
    | ScaledComparison(left: Field, factor: int, op: Op, right: Field)

  datatype Constructor =
    | PromAbs | PromClampMin(floor: int) | PromAdd(addend: int) | PromSum(groups: seq<string>)
    | LogSum | LogMax | LogAvg | LogAdd(addend: int)
    | TraceAnd(other: Tree) | TraceOr(other: Tree)
    | ProfileAnd(clause: Label)
    | Paren

  // ----- names and fields

  predicate IsLetter(c: char) { 'A' <= c <= 'Z' || 'a' <= c <= 'z' || c == '_' }

  predicate IsLabelChar(c: char) { IsLetter(c) || IsDigit(c) }

  predicate IsMetricChar(c: char) { IsLabelChar(c) || c == ':' }

  predicate IsWordChar(c: char) { IsMetricChar(c) || c == '.' }

  predicate IsLabelName(s: string) {
    s != "" && IsLetter(s[0]) && forall c | c in s :: IsLabelChar(c)
  }

  predicate IsMetricName(s: string) {
    s != "" && !IsDigit(s[0]) && forall c | c in s :: IsMetricChar(c)
  }

  predicate IsFieldName(s: string) {
    s != "" && !IsDigit(s[0]) && forall c | c in s :: IsWordChar(c)
  }

  predicate IsMatchOp(op: Op) { op in {Eq, Neq, Regex, NotRegex} }

  predicate ValidLabel(l: Label) { IsLabelName(l.key) && IsMatchOp(l.op) }

  predicate ValidLabels(ls: seq<Label>) { forall l | l in ls :: ValidLabel(l) }

  const SCOPES: set<string> := {"", "resource", "span", "event", "link", "instrumentation"}

  const STRING_INTRINSICS: set<string> :=
    {"span:name", "span:id", "event:name", "link:traceID", "link:spanID",
     "instrumentation:name", "instrumentation:version"}

  const DURATION_INTRINSICS: set<string> := {"span:duration", "event:timeSinceStart"}

  function CheckField(f: Field, scalar: ScalarType): Result<()> {
    if f.scalar != scalar || f.scope !in SCOPES || !IsFieldName(f.key) then
      Err("invalid typed TraceQL field")
    else if ':' in f.key then
      if f.scope != "" || f.key !in (if scalar.String? then STRING_INTRINSICS else DURATION_INTRINSICS) then
        Err("invalid scoped intrinsic type")
      else Ok(())
    else if scalar.Duration? && (f.scope != "" || f.key != "duration") then
      Err("invalid duration field")
    else if scalar.String? && f.scope in {"", "span"} && f.key in {"duration", "status", "kind"} then
      Err("intrinsic field has a different scalar type")
    else Ok(())
  }

  function FieldText(f: Field): string {
    if ':' in f.key then f.key
    else if f.scope != "" then f.scope + "." + f.key
    else if f.key in {"name", "duration", "status", "kind"} then f.key
    else "." + f.key
  }

  function OpText(op: Op): string {
    match op
    case Eq => "="
    case Neq => "!="
    case Gt => ">"
    case Gte => ">="
    case Lt => "<"
    case Lte => "<="
    case Regex => "=~"
    case NotRegex => "!~"
  }

  // ----- the type of a tree, or why it has none

  function TypeOf(t: Tree): Result<QueryType> {
    match t
    case Scalar(_) => Ok(PromScalar)
    case Metric(name, labels) =>
      if !IsMetricName(name) then Err("invalid metric name")
      else if !ValidLabels(labels) then Err("invalid typed label matcher")
      else Ok(PromVector)
    case Stream(labels) => SelectorType(labels, LogStream)
    case Selector(labels) => SelectorType(labels, ProfileSelector)
    case Vector(x) =>
      var child :- TypeOf(x);
      if child == PromScalar then Ok(PromVector) else Err("typed node child signature differs")
    case Rate(x) =>
      var child :- TypeOf(x);
      if child == PromRange then Ok(PromVector) else Err("typed node child signature differs")
    case Range(x, seconds) =>
      var child :- TypeOf(x);
      if child != PromVector then Err("typed node child signature differs")
      else if seconds <= 0 then Err("invalid range duration")
      else Ok(PromRange)
    case Count(x, seconds) =>
      var child :- TypeOf(x);
      if child != LogStream then Err("typed node child signature differs")
      else if seconds <= 0 then Err("invalid range duration")
      else Ok(LogVector)
    case Apply(how, x) =>
      var child :- TypeOf(x);
      ApplyType(how, child)
    case StringComparison(left, op, _) =>
      if !IsMatchOp(op) then Err("invalid string comparison")
      else
        var _ :- CheckField(left, String);
        Ok(TracePredicate)
    case DurationComparison(left, op, _) =>
      if op in {Regex, NotRegex} || left.key != "duration" then Err("invalid duration comparison")
      else
        var _ :- CheckField(left, Duration);
        Ok(TracePredicate)
    case FieldComparison(left, op, right) => FieldsType(left, op, right)
    case ScaledComparison(left, factor, op, right) =>
      var ty :- FieldsType(left, op, right);
      if !left.scalar.Duration? || !(-0x8000_0000_0000_0000 <= factor < 0x8000_0000_0000_0000) then
        Err("invalid scaled duration comparison")
      else Ok(ty)
  }

  function SelectorType(labels: seq<Label>, ty: QueryType): Result<QueryType> {
    if !ValidLabels(labels) then Err("invalid typed label matcher")
    else if labels == [] then Err("empty selector")
    else Ok(ty)
  }

  function ApplyType(how: Constructor, child: QueryType): Result<QueryType> {
    match how
    case PromSum(groups) =>
      if child != PromVector then Err("typed constructor signature differs")
      else if exists g | g in groups :: !IsLabelName(g) then Err("invalid grouping labels")
      else Ok(child)
    case PromAbs | PromClampMin(_) | PromAdd(_) =>
      if child == PromVector then Ok(child) else Err("typed constructor signature differs")
    case LogSum | LogMax | LogAvg | LogAdd(_) =>
      if child == LogVector then Ok(child) else Err("typed constructor signature differs")
    case TraceAnd(other) =>
      if child != TracePredicate then Err("typed constructor signature differs")
      else
        var ty :- TypeOf(other);
        BooleanType(ty, child)
    case TraceOr(other) =>
      if child != TracePredicate then Err("typed constructor signature differs")
      else
        var ty :- TypeOf(other);
        BooleanType(ty, child)
    case ProfileAnd(clause) =>
      if child != ProfileSelector then Err("typed constructor signature differs")
      else if !ValidLabel(clause) then Err("invalid typed label matcher")
      else Ok(child)
    case Paren =>
      if child != ProfileSelector then Ok(child) else Err("typed constructor signature differs")
  }

  function BooleanType(other: QueryType, child: QueryType): Result<QueryType> {
    if other != child then Err("TraceQL boolean child type differs") else Ok(child)
  }

  function FieldsType(left: Field, op: Op, right: Field): Result<QueryType> {
    if op in {Regex, NotRegex} || (left.scalar.String? && op !in {Eq, Neq}) then
      Err("invalid field comparison")
    else
      var _ :- CheckField(left, left.scalar);
      var _ :- CheckField(right, left.scalar);
      Ok(TracePredicate)
  }

  // ----- the rendered query

  function LabelText(l: Label): string {
    l.key + OpText(l.op) + QuoteTo(l.value, "")
  }

  function LabelsText(ls: seq<Label>): string {
    if ls == [] then ""
    else if |ls| == 1 then LabelText(ls[0])
    else LabelText(ls[0]) + "," + LabelsText(ls[1..])
  }

  function Joined(names: seq<string>): string {
    if names == [] then ""
    else if |names| == 1 then names[0]
    else names[0] + "," + Joined(names[1..])
  }

  function Render(t: Tree): string {
    match t
    case Scalar(n) => IntText(n)
    case Metric(name, labels) => name + (if labels == [] then "" else "{" + LabelsText(labels) + "}")
    case Stream(labels) => "{" + LabelsText(labels) + "}"
    case Selector(labels) => LabelsText(labels)
    case Vector(x) => "vector" + "(" + Render(x) + ")"
    case Rate(x) => "rate" + "(" + Render(x) + ")"
    case Range(x, n) => RangeText(x.Metric?, Render(x), n)
    case Count(x, n) => "count_over_time" + "(" + Render(x) + "[" + IntText(n) + "s])"
    case Apply(TraceAnd(y), x) => JoinText("&&", Render(x), Render(y))
    case Apply(TraceOr(y), x) => JoinText("||", Render(x), Render(y))
    case Apply(how, x) => WrapText(how, Render(x))
    case StringComparison(left, op, v) => FieldText(left) + " " + OpText(op) + " " + QuoteTo(v, "")
    case DurationComparison(left, op, n) => FieldText(left) + " " + OpText(op) + " " + IntText(n) + "ns"
    case FieldComparison(left, op, right) => FieldText(left) + " " + OpText(op) + " " + FieldText(right)
    case ScaledComparison(left, n, op, right) =>
      "(" + FieldText(left) + " * " + IntText(n) + ")" + " " + OpText(op) + " " + FieldText(right)
  }

  /** A range over `x`: a bare metric takes the window directly, anything else
      becomes a subquery. */
  function RangeText(metric: bool, x: string, seconds: int): string {
    if metric then x + "[" + IntText(seconds) + "s]"
    else "(" + x + ")" + "[" + IntText(seconds) + "s:1s]"
  }

  function JoinText(word: string, x: string, y: string): string {
    "(" + x + ")" + " " + word + " " + "(" + y + ")"
  }

  /** A constructor with one child around the text of that child. */
  function WrapText(how: Constructor, x: string): string
    requires !how.TraceAnd? && !how.TraceOr?
  {
    match how
    case PromAbs => "abs" + "(" + x + ")"
    case PromClampMin(n) => "clamp_min" + "(" + x + "," + IntText(n) + ")"
    case PromAdd(n) => "(" + x + ")" + "+" + IntText(n)
    case PromSum(groups) =>
      if groups == [] then "sum" + "(" + x + ")"
      else "sum" + " by(" + Joined(groups) + ")(" + x + ")"
    case LogSum => "sum" + "(" + x + ")"
    case LogMax => "max" + "(" + x + ")"
    case LogAvg => "avg" + "(" + x + ")"
    case LogAdd(n) => "(" + x + ")" + "+" + IntText(n)
    case ProfileAnd(l) => x + "," + LabelText(l)
    case Paren => "(" + x + ")"
  }

  // ----- depth and shrink candidates

  function Depth(t: Tree): nat {
    match t
    case Vector(x) => Depth(x) + 1
    case Rate(x) => Depth(x) + 1
    case Range(x, _) => Depth(x) + 1
    case Count(x, _) => Depth(x) + 1
    case Apply(TraceAnd(y), x) => Max(Depth(x) + 1, Depth(y) + 1)
    case Apply(TraceOr(y), x) => Max(Depth(x) + 1, Depth(y) + 1)
    case Apply(_, x) => Depth(x) + 1
    case ScaledComparison(_, _, _, _) => 1
    case _ => 0
  }

  /** The child trees, in the order `typed_tree` visits them. */
  function Children(t: Tree): (cs: seq<Tree>)
    ensures |cs| <= 2 && forall c | c in cs :: c < t
  {
    match t
    case Vector(x) => [x]
    case Rate(x) => [x]
    case Range(x, _) => [x]
    case Count(x, _) => [x]
    case Apply(TraceAnd(y), x) => [x, y]
    case Apply(TraceOr(y), x) => [x, y]
    case Apply(_, x) => [x]
    case _ => []
  }

  /** `d` occurs in `t`, strictly below the root. */
  ghost predicate Descendant(d: Tree, t: Tree) {
    exists c | c in Children(t) :: d == c || Descendant(d, c)
  }

  /** Everything strictly below `t`, children before parents. */
  function Below(t: Tree): seq<Tree> {
    var cs := Children(t);
    if cs == [] then []
    else if |cs| == 1 then Below(cs[0]) + [cs[0]]
    else Below(cs[0]) + [cs[0]] + Below(cs[1]) + [cs[1]]
  }
}
