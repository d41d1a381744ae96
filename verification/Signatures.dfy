/** The type system of the query trees, as a relation: which constructor takes
    which child and what it makes, and what names, matchers, fields and numbers it
    allows (tools/query-language-evidence.py:183-305). */
module Signatures {
  import opened Basics
  import opened TypedTree

  // ----- names

  /** The pattern `[A-Za-z_extra][A-Za-z_0-9extra]*`, matched by the whole of `s`. */
  predicate Matches(s: string, extra: set<char>) {
    && s != "" && !('0' <= s[0] <= '9')
    && forall i | 0 <= i < |s| ::
         'a' <= s[i] <= 'z' || 'A' <= s[i] <= 'Z' || '0' <= s[i] <= '9' || s[i] == '_' || s[i] in extra
  }

  predicate GoodLabel(l: Label) {
    Matches(l.key, {}) && (l.op == Eq || l.op == Neq || l.op == Regex || l.op == NotRegex)
  }

  predicate GoodLabels(ls: seq<Label>) { forall i | 0 <= i < |ls| :: GoodLabel(ls[i]) }

  /** A duration is one of three intrinsics. A string is an intrinsic with a colon
      or an attribute, unless the name is an intrinsic of another type. */
  predicate GoodField(f: Field, scalar: ScalarType) {
    f.scalar == scalar &&
    match scalar
    case Duration => f.scope == "" && f.key in {"span:duration", "event:timeSinceStart", "duration"}
    case String =>
      || (f.scope == "" && f.key in {"span:name", "span:id", "event:name", "link:traceID", "link:spanID",
                                     "instrumentation:name", "instrumentation:version"})
      || (f.scope in {"", "resource", "span", "event", "link", "instrumentation"}
          && Matches(f.key, {'.'})
          && !(f.scope in {"", "span"} && f.key in {"duration", "status", "kind"}))
  }

  // ----- types

  ghost predicate HasType(t: Tree, kind: QueryType) {
    match t
    case Scalar(_) => kind == PromScalar
    case Metric(name, labels) => kind == PromVector && Matches(name, {':'}) && GoodLabels(labels)
    case Stream(labels) => kind == LogStream && labels != [] && GoodLabels(labels)
    case Selector(labels) => kind == ProfileSelector && labels != [] && GoodLabels(labels)
    case Vector(x) => kind == PromVector && HasType(x, PromScalar)
    case Rate(x) => kind == PromVector && HasType(x, PromRange)
    case Range(x, seconds) => kind == PromRange && HasType(x, PromVector) && seconds > 0
    case Count(x, seconds) => kind == LogVector && HasType(x, LogStream) && seconds > 0
    case Apply(how, x) => HasType(x, kind) && Applies(how, kind)
    case StringComparison(left, op, _) =>
      kind == TracePredicate && GoodField(left, String) && op in {Eq, Neq, Regex, NotRegex}
    case DurationComparison(left, op, _) =>
      && kind == TracePredicate && GoodField(left, Duration) && left.key == "duration"
      && op in {Eq, Neq, Gt, Gte, Lt, Lte}
    case FieldComparison(left, op, right) => kind == TracePredicate && Comparable(left, op, right)
    case ScaledComparison(left, factor, op, right) =>
      && kind == TracePredicate && Comparable(left, op, right) && left.scalar == Duration
      && -0x8000_0000_0000_0000 <= factor <= 0x7FFF_FFFF_FFFF_FFFF
  }

  /** A constructor keeps the type of its child, if it takes that type. */
  ghost predicate Applies(how: Constructor, kind: QueryType) {
    match how
    case PromAbs | PromClampMin(_) | PromAdd(_) => kind == PromVector
    case PromSum(groups) =>
      kind == PromVector && forall i | 0 <= i < |groups| :: Matches(groups[i], {})
    case LogSum | LogMax | LogAvg | LogAdd(_) => kind == LogVector
    case TraceAnd(y) => kind == TracePredicate && HasType(y, TracePredicate)
    case TraceOr(y) => kind == TracePredicate && HasType(y, TracePredicate)
    case ProfileAnd(clause) => kind == ProfileSelector && GoodLabel(clause)
    case Paren => kind in {PromScalar, PromVector, PromRange, LogStream, LogVector, TracePredicate}
  }

  /** Two fields of one scalar type: durations by order, strings by equality only. */
  predicate Comparable(left: Field, op: Op, right: Field) {
    && GoodField(left, left.scalar) && GoodField(right, left.scalar)
    && op in (if left.scalar == Duration then {Eq, Neq, Gt, Gte, Lt, Lte} else {Eq, Neq})
  }

  // ----- the checker decides it

  lemma {:induction false} NamesMatch(s: string)
    ensures IsLabelName(s) <==> Matches(s, {})
    ensures IsMetricName(s) <==> Matches(s, {':'})
    ensures IsFieldName(s) <==> Matches(s, {':', '.'})
    ensures Matches(s, {'.'}) <==> Matches(s, {':', '.'}) && ':' !in s
  {
    assert forall i | 0 <= i < |s| :: s[i] in s;
  }

  lemma {:induction false} LabelsMatch(ls: seq<Label>)
    ensures ValidLabels(ls) <==> GoodLabels(ls)
  {
    hide Matches, IsLabelName;
    forall i | 0 <= i < |ls| ensures ValidLabel(ls[i]) <==> GoodLabel(ls[i]) {
      NamesMatch(ls[i].key);
    }
    assert forall i | 0 <= i < |ls| :: ls[i] in ls;
  }

  /** The intrinsics are field names, and all but one have a colon. */
  lemma {:induction false} IntrinsicsMatch(s: string)
    requires s in STRING_INTRINSICS || s in DURATION_INTRINSICS || s == "duration"
    ensures IsFieldName(s) && (':' in s <==> s != "duration")
  {
  }

  lemma {:induction false} DurationMatches(f: Field)
    ensures CheckField(f, Duration).Ok? <==> GoodField(f, Duration)
  {
    hide Matches, IsFieldName;
    if f.key in DURATION_INTRINSICS || f.key == "duration" {
      IntrinsicsMatch(f.key);
    }
  }

  lemma {:induction false} StringMatches(f: Field)
    ensures CheckField(f, String).Ok? <==> GoodField(f, String)
  {
    hide Matches, IsFieldName;
    NamesMatch(f.key);
    if f.key in STRING_INTRINSICS {
      IntrinsicsMatch(f.key);
    }
  }

  lemma {:induction false} FieldMatches(f: Field, scalar: ScalarType)
    ensures CheckField(f, scalar).Ok? <==> GoodField(f, scalar)
  {
    hide CheckField, GoodField;
    StringMatches(f);
    DurationMatches(f);
  }

  lemma {:induction false} GroupsMatch(groups: seq<string>)
    ensures (exists g | g in groups :: !IsLabelName(g)) <==> !forall i | 0 <= i < |groups| :: Matches(groups[i], {})
  {
    hide Matches, IsLabelName;
    forall i | 0 <= i < |groups| ensures IsLabelName(groups[i]) <==> Matches(groups[i], {}) {
      NamesMatch(groups[i]);
    }
    assert forall i | 0 <= i < |groups| :: groups[i] in groups;
  }

  lemma {:induction false} OpsMatch(op: Op)
    ensures op in {Eq, Neq, Gt, Gte, Lt, Lte} <==> op !in {Regex, NotRegex}
  {
  }

  lemma {:induction false} ComparisonMatches(left: Field, op: Op, right: Field)
    ensures FieldsType(left, op, right).Ok? <==> Comparable(left, op, right)
    ensures FieldsType(left, op, right).Ok? ==> FieldsType(left, op, right).value == TracePredicate
  {
    hide CheckField, GoodField;
    OpsMatch(op);
    FieldMatches(left, left.scalar);
    FieldMatches(right, left.scalar);
  }

  lemma {:induction false} AllButProfiles(kind: QueryType)
    ensures kind in {PromScalar, PromVector, PromRange, LogStream, LogVector, TracePredicate} <==>
            kind != ProfileSelector
  {
  }

  lemma {:induction false} ApplyKeepsType(how: Constructor, child: QueryType)
    ensures ApplyType(how, child).Ok? ==> ApplyType(how, child).value == child
  {
    hide IsLabelName, TypeOf;
  }

  lemma {:induction false} ApplyMatches(how: Constructor, child: QueryType)
    ensures ApplyType(how, child).Ok? <==> Applies(how, child)
    decreases how
  {
    hide Matches, IsLabelName, TypeOf, HasType;
    match how
    case PromSum(groups) => GroupsMatch(groups);
    case TraceAnd(y) => TypingIsExact(y, TracePredicate);
    case TraceOr(y) => TypingIsExact(y, TracePredicate);
    case ProfileAnd(clause) => NamesMatch(clause.key);
    case Paren => AllButProfiles(child);
    case _ =>
  }

  /** The checker gives a tree a type exactly when it has that type: it accepts every
      tree of the type system and no other. */
  lemma {:induction false} TypingIsExact(t: Tree, kind: QueryType)
    ensures TypeOf(t) == Ok(kind) <==> HasType(t, kind)
    decreases t
  {
    hide Matches, IsMetricName, ValidLabels, GoodLabels, CheckField, GoodField, ApplyType, Applies, FieldsType,
      Comparable;
    match t
    case Scalar(_) =>
    case Metric(name, labels) => NamesMatch(name); LabelsMatch(labels);
    case Stream(labels) => LabelsMatch(labels);
    case Selector(labels) => LabelsMatch(labels);
    case Vector(x) => TypingIsExact(x, PromScalar);
    case Rate(x) => TypingIsExact(x, PromRange);
    case Range(x, _) => TypingIsExact(x, PromVector);
    case Count(x, _) => TypingIsExact(x, LogStream);
    case Apply(how, x) =>
      TypingIsExact(x, kind);
      if TypeOf(x).Ok? {
        ApplyKeepsType(how, TypeOf(x).value);
        ApplyMatches(how, TypeOf(x).value);
      }
    case StringComparison(left, _, _) => FieldMatches(left, String);
    case DurationComparison(left, op, _) =>
      OpsMatch(op);
      FieldMatches(left, Duration);
    case FieldComparison(left, op, right) => ComparisonMatches(left, op, right);
    case ScaledComparison(left, _, op, right) => ComparisonMatches(left, op, right);
  }

  // ----- and says what is wrong first

  const SIGNATURE := "typed node child signature differs"

  const CONSTRUCTOR := "typed constructor signature differs"

  const MATCHER := "invalid typed label matcher"

  /** The message if the demand is not met, and otherwise what comes after it. */
  function Demand(ok: bool, message: string, rest: Option<string>): Option<string> {
    if ok then rest else Some(message)
  }

  function Then(first: Option<string>, second: Option<string>): Option<string> {
    if first.Some? then first else second
  }

  function SelectorFault(labels: seq<Label>): Option<string> {
    Demand(GoodLabels(labels), MATCHER, Demand(labels != [], "empty selector", None))
  }

  /** A field has the right type and a known scope and a name; then, by its kind, it is an
      intrinsic, the duration, or not the name of an intrinsic of another type. */
  function FieldFault(f: Field, scalar: ScalarType): Option<string> {
    Demand(f.scalar == scalar && f.scope in SCOPES && Matches(f.key, {':', '.'}), "invalid typed TraceQL field",
           Demand(GoodField(f, scalar),
                  if ':' in f.key then "invalid scoped intrinsic type"
                  else if scalar == Duration then "invalid duration field"
                  else "intrinsic field has a different scalar type", None))
  }

  function ComparisonFault(left: Field, op: Op, right: Field): Option<string> {
    Demand(op in (if left.scalar == Duration then {Eq, Neq, Gt, Gte, Lt, Lte} else {Eq, Neq}),
           "invalid field comparison", Then(FieldFault(left, left.scalar), FieldFault(right, left.scalar)))
  }

  /** The first demand that a tree does not meet: those of its child come first. */
  ghost function FaultOf(t: Tree): Option<string> {
    match t
    case Scalar(_) => None
    case Metric(name, labels) =>
      Demand(Matches(name, {':'}), "invalid metric name", Demand(GoodLabels(labels), MATCHER, None))
    case Stream(labels) => SelectorFault(labels)
    case Selector(labels) => SelectorFault(labels)
    case Vector(x) => Then(FaultOf(x), Demand(HasType(x, PromScalar), SIGNATURE, None))
    case Rate(x) => Then(FaultOf(x), Demand(HasType(x, PromRange), SIGNATURE, None))
    case Range(x, seconds) =>
      Then(FaultOf(x), Demand(HasType(x, PromVector), SIGNATURE, Demand(seconds > 0, "invalid range duration", None)))
    case Count(x, seconds) =>
      Then(FaultOf(x), Demand(HasType(x, LogStream), SIGNATURE, Demand(seconds > 0, "invalid range duration", None)))
    case Apply(how, x) => Then(FaultOf(x), ApplyFault(how, x))
    case StringComparison(left, op, _) =>
      Demand(op in {Eq, Neq, Regex, NotRegex}, "invalid string comparison", FieldFault(left, String))
    case DurationComparison(left, op, _) =>
      Demand(op in {Eq, Neq, Gt, Gte, Lt, Lte} && left.key == "duration", "invalid duration comparison",
             FieldFault(left, Duration))
    case FieldComparison(left, op, right) => ComparisonFault(left, op, right)
    case ScaledComparison(left, factor, op, right) =>
      Then(ComparisonFault(left, op, right),
           Demand(left.scalar == Duration && -0x8000_0000_0000_0000 <= factor <= 0x7FFF_FFFF_FFFF_FFFF,
                  "invalid scaled duration comparison", None))
  }

  /** Of a constructor on a child that has a type. A second operand is looked at only
      when the first is right. */
  ghost function ApplyFault(how: Constructor, x: Tree): Option<string> {
    match how
    case PromAbs | PromClampMin(_) | PromAdd(_) => Demand(HasType(x, PromVector), CONSTRUCTOR, None)
    case PromSum(groups) =>
      Demand(HasType(x, PromVector), CONSTRUCTOR,
             Demand(forall i | 0 <= i < |groups| :: Matches(groups[i], {}), "invalid grouping labels", None))
    case LogSum | LogMax | LogAvg | LogAdd(_) => Demand(HasType(x, LogVector), CONSTRUCTOR, None)
    case TraceAnd(y) => OperandFault(HasType(x, TracePredicate), FaultOf(y), HasType(y, TracePredicate))
    case TraceOr(y) => OperandFault(HasType(x, TracePredicate), FaultOf(y), HasType(y, TracePredicate))
    case ProfileAnd(clause) =>
      Demand(HasType(x, ProfileSelector), CONSTRUCTOR, Demand(GoodLabel(clause), MATCHER, None))
    case Paren => Demand(!HasType(x, ProfileSelector), CONSTRUCTOR, None)
  }

  function OperandFault(left: bool, inside: Option<string>, right: bool): Option<string> {
    Demand(left, CONSTRUCTOR, Then(inside, Demand(right, "TraceQL boolean child type differs", None)))
  }

  ghost predicate Says<T>(r: Result<T>, fault: Option<string>) {
    match r
    case Ok(_) => fault == None
    case Err(e) => fault == Some(e)
  }

  lemma {:induction false} FieldSays(f: Field, scalar: ScalarType)
    ensures Says(CheckField(f, scalar), FieldFault(f, scalar))
  {
    hide Matches, IsFieldName, GoodField;
    NamesMatch(f.key);
    FieldMatches(f, scalar);
  }

  lemma {:induction false} ComparisonSays(left: Field, op: Op, right: Field)
    ensures Says(FieldsType(left, op, right), ComparisonFault(left, op, right))
  {
    hide CheckField, FieldFault;
    OpsMatch(op);
    FieldSays(left, left.scalar);
    FieldSays(right, left.scalar);
  }

  lemma {:induction false} ApplySays(how: Constructor, x: Tree)
    requires TypeOf(x).Ok?
    ensures Says(ApplyType(how, TypeOf(x).value), ApplyFault(how, x))
    decreases how, 0
  {
    hide TypeOf, HasType, Matches, IsLabelName, FaultOf;
    match how
    case PromAbs => TypingIsExact(x, PromVector);
    case PromClampMin(_) => TypingIsExact(x, PromVector);
    case PromAdd(_) => TypingIsExact(x, PromVector);
    case PromSum(groups) =>
      TypingIsExact(x, PromVector);
      GroupsMatch(groups);
    case TraceAnd(y) => OperandSays(how, x, y);
    case TraceOr(y) => OperandSays(how, x, y);
    case ProfileAnd(clause) =>
      TypingIsExact(x, ProfileSelector);
      NamesMatch(clause.key);
    case Paren => TypingIsExact(x, ProfileSelector);
    case _ => TypingIsExact(x, LogVector);
  }

  lemma {:induction false} OperandSays(how: Constructor, x: Tree, y: Tree)
    requires TypeOf(x).Ok? && (how == TraceAnd(y) || how == TraceOr(y))
    ensures Says(ApplyType(how, TypeOf(x).value), ApplyFault(how, x))
    decreases y, 2
  {
    hide TypeOf, HasType, FaultOf;
    TypingIsExact(x, TracePredicate);
    FaultIsFirst(y);
    TypingIsExact(y, TracePredicate);
  }

  /** An ill-typed tree is refused with its first fault, and a well-typed one has none. */
  lemma {:induction false} FaultIsFirst(t: Tree)
    ensures Says(TypeOf(t), FaultOf(t))
    decreases t, 1
  {
    hide Matches, IsMetricName, ValidLabels, GoodLabels, CheckField, FieldFault, ApplyType, ApplyFault, FieldsType,
      ComparisonFault, HasType;
    match t
    case Scalar(_) =>
    case Metric(name, labels) => NamesMatch(name); LabelsMatch(labels);
    case Stream(labels) => LabelsMatch(labels);
    case Selector(labels) => LabelsMatch(labels);
    case Vector(x) => FaultIsFirst(x); TypingIsExact(x, PromScalar);
    case Rate(x) => FaultIsFirst(x); TypingIsExact(x, PromRange);
    case Range(x, _) => FaultIsFirst(x); TypingIsExact(x, PromVector);
    case Count(x, _) => FaultIsFirst(x); TypingIsExact(x, LogStream);
    case Apply(how, x) =>
      FaultIsFirst(x);
      if TypeOf(x).Ok? {
        ApplySays(how, x);
      }
    case StringComparison(left, _, _) => FieldSays(left, String);
    case DurationComparison(left, op, _) =>
      OpsMatch(op);
      FieldSays(left, Duration);
    case FieldComparison(left, op, right) => ComparisonSays(left, op, right);
    case ScaledComparison(left, _, op, right) => ComparisonSays(left, op, right);
  }
}
