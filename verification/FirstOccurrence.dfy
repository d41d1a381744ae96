/** Listing labels of items in the order in which they are first met. */
module FirstOccurrence {
  import opened Basics

  /** Append the label of every item that has one and is not listed yet. */
  function AppendNew<T>(listed: seq<string>, items: seq<T>, label_: T -> Option<string>): seq<string>
    decreases |items|
  {
    if items == [] then listed
    else
      var l := label_(items[0]);
      AppendNew(if l.Some? && l.value !in listed then listed + [l.value] else listed, items[1..], label_)
  }

  lemma {:induction false} AppendNewInParts<T>(listed: seq<string>, a: seq<T>, b: seq<T>, label_: T -> Option<string>)
    ensures AppendNew(listed, a + b, label_) == AppendNew(AppendNew(listed, a, label_), b, label_)
    decreases |a|
  {
    if a == [] {
      assert a + b == b;
    } else {
      assert (a + b)[1..] == a[1..] + b;
      var l := label_(a[0]);
      AppendNewInParts(if l.Some? && l.value !in listed then listed + [l.value] else listed, a[1..], b, label_);
    }
  }

  /** All the labels of `items`, in order and with repeats. */
  function Labels<T>(items: seq<T>, label_: T -> Option<string>): seq<string> {
    if items == [] then []
    else
      var init := Labels(items[..|items| - 1], label_);
      match label_(items[|items| - 1])
      case None => init
      case Some(l) => init + [l]
  }

  lemma {:induction false} LabelsMember<T>(items: seq<T>, label_: T -> Option<string>, s: string)
    ensures s in Labels(items, label_) <==> exists d | d in items :: label_(d) == Some(s)
    decreases |items|
  {
    if items != [] {
      var n := |items| - 1;
      LabelsMember(items[..n], label_, s);
      assert forall d :: d in items <==> d in items[..n] || d == items[n];
    }
  }

  /** Where `x` first occurs in `xs`. */
  function FirstIndex(x: string, xs: seq<string>): (i: nat)
    requires x in xs
    ensures i < |xs| && xs[i] == x && x !in xs[..i]
  {
    if xs[0] == x then 0
    else
      var i := FirstIndex(x, xs[1..]);
      assert xs[..i + 1] == [xs[0]] + xs[1..][..i];
      i + 1
  }

  lemma {:induction false} FirstIndexGrows(x: string, xs: seq<string>, y: string)
    requires x in xs
    ensures FirstIndex(x, xs + [y]) == FirstIndex(x, xs)
  {
    if xs[0] != x {
      assert (xs + [y])[1..] == xs[1..] + [y];
      FirstIndexGrows(x, xs[1..], y);
    }
  }

  /** `c` lists each member of `xs` once, in the order of first occurrence. */
  ghost predicate ListsFirst(c: seq<string>, xs: seq<string>) {
    && (forall s :: s in c <==> s in xs)
    && (forall i, j | 0 <= i < j < |c| :: FirstIndex(c[i], xs) < FirstIndex(c[j], xs))
  }

  lemma {:induction false} ListsFirstExtends(c: seq<string>, xs: seq<string>, y: string)
    requires ListsFirst(c, xs)
    ensures ListsFirst(if y in c then c else c + [y], xs + [y])
  {
    var d := if y in c then c else c + [y];
    forall i, j | 0 <= i < j < |d|
      ensures d[i] in xs + [y] && d[j] in xs + [y]
      ensures FirstIndex(d[i], xs + [y]) < FirstIndex(d[j], xs + [y])
    {
      assert d[i] == c[i] && c[i] in c;
      FirstIndexGrows(c[i], xs, y);
      if j < |c| {
        assert c[j] in c;
        FirstIndexGrows(c[j], xs, y);
      }
    }
  }

  lemma {:induction false} AppendNewListsFirst<T>(items: seq<T>, label_: T -> Option<string>)
    ensures ListsFirst(AppendNew([], items, label_), Labels(items, label_))
    decreases |items|
  {
    if items != [] {
      var n := |items| - 1;
      AppendNewListsFirst(items[..n], label_);
      AppendNewInParts([], items[..n], [items[n]], label_);
      assert items == items[..n] + [items[n]];
      if label_(items[n]).Some? {
        ListsFirstExtends(AppendNew([], items[..n], label_), Labels(items[..n], label_), label_(items[n]).value);
      }
    }
  }
}
