/** One pass over a typed tree: its type, its text, its depth and the texts it
    may be shrunk to (tools/query-language-evidence.py, `typed_tree`). */
module TypedTreeCheck {
  import opened Text
  import opened Basics
  import opened TypedTree
  import opened FirstOccurrence
  import opened Signatures

  datatype Typed = Typed(kind: QueryType, text: string, depth: nat, parents: seq<string>)

  /** The text of `d`, when its type is `kind`. */
  function Shown(d: Tree, kind: QueryType): Option<string> {
    if TypeOf(d) == Ok(kind) then Some(Render(d)) else None
  }

  function ShownAs(kind: QueryType): Tree -> Option<string> {
    d => Shown(d, kind)
  }

  function Candidates(t: Tree, kind: QueryType): seq<string> {
    AppendNew([], Below(t), ShownAs(kind))
  }

  // ----- the pass itself

  datatype Head = Head(kind: QueryType, text: string)

  /** Type and print a node with no child. */
  function Leaf(t: Tree): Result<Head>
    requires Children(t) == []
  {
    var kind :- TypeOf(t);
    Ok(Head(kind, Render(t)))
  }

  /** Type and print a node with one child, from the child's type and text. */
  function Wrap(t: Tree, child: QueryType, text: string): Result<Head>
    requires |Children(t)| == 1
  {
    match t
    case Vector(_) =>
      if child == PromScalar then Ok(Head(PromVector, "vector" + "(" + text + ")"))
      else Err("typed node child signature differs")
    case Rate(_) =>
      if child == PromRange then Ok(Head(PromVector, "rate" + "(" + text + ")"))
      else Err("typed node child signature differs")
    case Range(x, seconds) =>
      if child != PromVector then Err("typed node child signature differs")
      else if seconds <= 0 then Err("invalid range duration")
      else Ok(Head(PromRange, RangeText(x.Metric?, text, seconds)))
    case Count(_, seconds) =>
      if child != LogStream then Err("typed node child signature differs")
      else if seconds <= 0 then Err("invalid range duration")
      else Ok(Head(LogVector, "count_over_time" + "(" + text + "[" + IntText(seconds) + "s])"))
    case Apply(how, _) =>
      var kind :- ApplyType(how, child);
      Ok(Head(kind, WrapText(how, text)))
  }

  ghost function HeadOf(t: Tree): Result<Head> {
    match TypeOf(t)
    case Err(e) => Err(e)
    case Ok(kind) => Ok(Head(kind, Render(t)))
  }

  lemma {:induction false} WrapIsHead(t: Tree, x: Tree)
    requires Children(t) == [x]
    ensures HeadOf(t) == if TypeOf(x).Err? then Err(TypeOf(x).error) else Wrap(t, TypeOf(x).value, Render(x))
  {
    assert x == [x][0] == t.input;
    if t.Apply? {
      assert TypeOf(x).Ok? ==> TypeOf(t) == ApplyType(t.how, TypeOf(x).value);
      assert Render(t) == WrapText(t.how, Render(x));
    }
  }

  function Word(how: Constructor): string {
    if how.TraceAnd? then "&&" else "||"
  }

  lemma {:induction false} BooleanIsHead(t: Tree, x: Tree, y: Tree)
    requires Children(t) == [x, y]
    ensures HeadOf(t) ==
            if TypeOf(x).Err? then Err(TypeOf(x).error)
            else if TypeOf(x).value != TracePredicate then Err("typed constructor signature differs")
            else if TypeOf(y).Err? then Err(TypeOf(y).error)
            else if TypeOf(y).value != TracePredicate then Err("TraceQL boolean child type differs")
            else Ok(Head(TracePredicate, JoinText(Word(t.how), Render(x), Render(y))))
  {
    hide JoinText, WrapText;
    assert x == [x, y][0] == t.input && y == [x, y][1] == t.how.other;
    assert Render(t) == JoinText(Word(t.how), Render(x), Render(y));
    assert TypeOf(x).Ok? ==> TypeOf(t) == ApplyType(t.how, TypeOf(x).value);
    assert t.how == TraceAnd(y) || t.how == TraceOr(y);
  }

  lemma {:induction false} BooleanDepth(t: Tree, x: Tree, y: Tree)
    requires Children(t) == [x, y]
    ensures Depth(t) == Max(Depth(x) + 1, Depth(y) + 1)
  {
    assert x == [x, y][0] == t.input && y == [x, y][1] == t.how.other;
  }

  /** What the pass owes: the type, text, depth and shrink candidates of a
      well-typed tree, and the first fault of any other. */
  ghost function Checked(t: Tree): Result<Typed> {
    match HeadOf(t)
    case Err(e) => Err(e)
    case Ok(head) => Ok(Typed(head.kind, head.text, Depth(t), Candidates(t, head.kind)))
  }

  method Check(t: Tree) returns (r: Result<Typed>)
    ensures r == Checked(t)
    ensures forall kind :: HasType(t, kind) <==> r.Ok? && r.value.kind == kind
    ensures r.Err? ==> FaultOf(t) == Some(r.error)
    decreases t, 2
  {
    hide TypeOf, Render, Depth, Wrap, Below, HasType, FaultOf;
    FaultIsFirst(t);
    forall kind ensures HasType(t, kind) <==> TypeOf(t) == Ok(kind) { TypingIsExact(t, kind); }
    var children := Children(t);
    if children == [] {
      LeafIsHead(t);
      var leaf := Leaf(t);
      if leaf.Err? { return Err(leaf.error); }
      return Ok(Typed(leaf.value.kind, leaf.value.text, if t.ScaledComparison? then 1 else 0, []));
    }
    if |children| == 2 {
      r := CheckBoolean(t);
      return;
    }
    var x := Check(children[0]);
    WrapIsHead(t, children[0]);
    if x.Err? { return Err(x.error); }
    var head := Wrap(t, x.value.kind, x.value.text);
    if head.Err? { return Err(head.error); }
    var parents := Collect(children[0], head.value.kind, []);
    OneChild(t, children[0]);
    return Ok(Typed(head.value.kind, head.value.text, x.value.depth + 1, parents));
  }

  lemma {:induction false} LeafIsHead(t: Tree)
    requires Children(t) == []
    ensures Leaf(t) == HeadOf(t) && Depth(t) == (if t.ScaledComparison? then 1 else 0) && Below(t) == []
  {
    hide TypeOf, Render;
  }

  lemma {:induction false} OneChild(t: Tree, x: Tree)
    requires Children(t) == [x]
    ensures Depth(t) == Depth(x) + 1 && Below(t) == Below(x) + [x]
  {
    assert x == [x][0] == t.input;
  }

  /** The `TraceAnd` and `TraceOr` constructors, whose argument is a tree. */
  method CheckBoolean(t: Tree) returns (r: Result<Typed>)
    requires |Children(t)| == 2
    ensures r == Checked(t)
    decreases t, 1
  {
    hide TypeOf, Render, Depth, Candidates;
    var children := Children(t);
    BooleanIsHead(t, children[0], children[1]);
    BooleanDepth(t, children[0], children[1]);
    var x := Check(children[0]);
    if x.Err? { return Err(x.error); }
    if x.value.kind != TracePredicate { return Err("typed constructor signature differs"); }
    var y := Check(children[1]);
    if y.Err? { return Err(y.error); }
    if y.value.kind != x.value.kind { return Err("TraceQL boolean child type differs"); }
    var text := JoinText(Word(t.how), x.value.text, y.value.text);
    var parents := CollectBoth(t, children[0], children[1]);
    return Ok(Typed(TracePredicate, text, Max(x.value.depth + 1, y.value.depth + 1), parents));
  }

  method CollectBoth(ghost t: Tree, x: Tree, y: Tree) returns (parents: seq<string>)
    requires Children(t) == [x, y] && TypeOf(x).Ok? && TypeOf(y).Ok?
    ensures parents == Candidates(t, TracePredicate)
    decreases t, 0
  {
    ghost var a, b := Below(x) + [x], Below(y) + [y];
    assert Below(t) == a + b;
    AppendNewInParts([], a, b, ShownAs(TracePredicate));
    parents := Collect(x, TracePredicate, []);
    parents := Collect(y, TracePredicate, parents);
  }

  /** List `child` and everything below it, children first. */
  method Collect(child: Tree, kind: QueryType, parents: seq<string>) returns (grown: seq<string>)
    requires TypeOf(child).Ok?
    ensures grown == AppendNew(parents, Below(child) + [child], ShownAs(kind))
    decreases child, 3
  {
    hide TypeOf, Render;
    grown := parents;
    var nested := Children(child);
    ghost var done := [];
    for i := 0 to |nested|
      invariant grown == AppendNew(parents, done, ShownAs(kind))
      invariant done == if i == 0 then [] else if i == 1 then Below(nested[0]) + [nested[0]] else Below(child)
    {
      DescendantTyped(child, nested[i]);
      grown := Collect(nested[i], kind, grown);
      AppendNewInParts(parents, done, Below(nested[i]) + [nested[i]], ShownAs(kind));
      done := done + (Below(nested[i]) + [nested[i]]);
    }
    assert done == Below(child);
    AppendNewInParts(parents, Below(child), [child], ShownAs(kind));
    var own := Check(child);
    if own.value.kind == kind && own.value.text !in grown {
      grown := grown + [own.value.text];
    }
  }

  lemma {:induction false} DescendantTyped(t: Tree, c: Tree)
    requires TypeOf(t).Ok? && c in Children(t)
    ensures TypeOf(c).Ok?
  {
  }

  // ----- what the shrink candidates are

  lemma {:induction false} BelowIsDescendants(t: Tree, d: Tree)
    ensures d in Below(t) <==> Descendant(d, t)
    decreases t
  {
    forall c | c in Children(t) ensures d in Below(c) <==> Descendant(d, c) {
      BelowIsDescendants(c, d);
    }
    var cs := Children(t);
    assert cs == [] || cs == [cs[0]] || cs == [cs[0], cs[1]];
  }

  lemma {:induction false} DescendantIsWellTyped(t: Tree, d: Tree)
    requires Descendant(d, t) && TypeOf(t).Ok?
    ensures TypeOf(d).Ok?
    decreases t
  {
    var c :| c in Children(t) && (d == c || Descendant(d, c));
    DescendantTyped(t, c);
    if d != c { DescendantIsWellTyped(c, d); }
  }

  /** Shrinking always makes progress: what is below a tree is shallower. */
  lemma {:induction false} DescendantIsShallower(t: Tree, d: Tree)
    requires Descendant(d, t)
    ensures Depth(d) < Depth(t)
    decreases t
  {
    var c :| c in Children(t) && (d == c || Descendant(d, c));
    assert Depth(c) < Depth(t);
    if d != c { DescendantIsShallower(c, d); }
  }

  /** From a tree to a child, and on. */
  ghost predicate Chain(path: seq<Tree>) {
    path != [] && (|path| == 1 || (path[1] in Children(path[0]) && Chain(path[1..])))
  }

  /** How many steps down a chain goes; a scaled field is one more. */
  ghost function Steps(path: seq<Tree>): nat
    requires path != []
  {
    |path| - 1 + if path[|path| - 1].ScaledComparison? then 1 else 0
  }

  lemma {:induction false} NoChainIsLonger(t: Tree, path: seq<Tree>)
    requires Chain(path) && path[0] == t
    ensures Steps(path) <= Depth(t)
    decreases t
  {
    if |path| > 1 {
      NoChainIsLonger(path[1], path[1..]);
      assert Depth(path[1]) < Depth(t);
    }
  }

  /** The depth is how far down the longest chain goes. */
  lemma {:induction false} DepthIsLongest(t: Tree) returns (path: seq<Tree>)
    ensures Chain(path) && path[0] == t && Steps(path) == Depth(t)
    ensures forall other | Chain(other) && other[0] == t :: Steps(other) <= Steps(path)
    decreases t
  {
    var cs := Children(t);
    if cs == [] {
      path := [t];
    } else {
      var deepest := if |cs| == 2 && Depth(cs[1]) > Depth(cs[0]) then cs[1] else cs[0];
      assert deepest in cs && Depth(t) == Depth(deepest) + 1;
      path := DepthIsLongest(deepest);
      path := [t] + path;
      assert path[1..][0] == deepest && path[1] == deepest;
      assert Chain(path[1..]);
    }
    forall other | Chain(other) && other[0] == t ensures Steps(other) <= Depth(t) {
      NoChainIsLonger(t, other);
    }
  }

  lemma {:induction false} CandidateIsDescendantText(t: Tree, kind: QueryType, s: string)
    ensures s in Candidates(t, kind) <==> exists d :: Descendant(d, t) && Shown(d, kind) == Some(s)
  {
    var f := ShownAs(kind);
    AppendNewListsFirst(Below(t), f);
    LabelsMember(Below(t), f, s);
    forall d ensures d in Below(t) <==> Descendant(d, t) { BelowIsDescendants(t, d); }
    assert forall d :: f(d) == Shown(d, kind);
  }

  /** The shrink candidates of `t` are the texts of its strict descendants of
      its own type: all of them, nothing else, each once, in the order in which
      a children-first walk first meets them. */
  lemma {:induction false} CandidatesAreExact(t: Tree)
    requires TypeOf(t).Ok?
    ensures var kind := TypeOf(t).value;
            var c := Candidates(t, kind);
            && (forall s :: s in c <==> exists d :: Descendant(d, t) && Shown(d, kind) == Some(s))
            && (forall i, j | 0 <= i < j < |c| :: c[i] != c[j])
            && ListsFirst(c, Labels(Below(t), ShownAs(kind)))
  {
    var kind := TypeOf(t).value;
    AppendNewListsFirst(Below(t), ShownAs(kind));
    forall s ensures s in Candidates(t, kind) <==> exists d :: Descendant(d, t) && Shown(d, kind) == Some(s) {
      CandidateIsDescendantText(t, kind, s);
    }
  }
}
