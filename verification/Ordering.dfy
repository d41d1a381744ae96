/** Sorting by any order, as the tools use it: `sorted` is stable, and where the
    order is antisymmetric a collection has one sorted listing only. */
module Ordering {
  import opened Lists

  ghost predicate Preorder<T(!new)>(le: (T, T) -> bool) {
    && (forall a, b :: le(a, b) || le(b, a))
    && (forall a, b, c :: le(a, b) && le(b, c) ==> le(a, c))
  }

  ghost predicate Order<T(!new)>(le: (T, T) -> bool) {
    && Preorder(le)
    && (forall a, b :: le(a, b) && le(b, a) ==> a == b)
  }

  ghost predicate Sorted<T(!new)>(s: seq<T>, le: (T, T) -> bool) {
    forall i, j | 0 <= i < j < |s| :: le(s[i], s[j])
  }

  function Insert<T>(x: T, s: seq<T>, le: (T, T) -> bool): seq<T> {
    if s == [] || le(x, s[0]) then [x] + s else [s[0]] + Insert(x, s[1..], le)
  }

  function Sort<T>(s: seq<T>, le: (T, T) -> bool): seq<T> {
    if s == [] then [] else Insert(s[0], Sort(s[1..], le), le)
  }

  lemma {:induction false} InsertAdds<T>(x: T, s: seq<T>, le: (T, T) -> bool)
    ensures multiset(Insert(x, s, le)) == multiset{x} + multiset(s)
  {
    if s != [] {
      assert s == [s[0]] + s[1..];
      InsertAdds(x, s[1..], le);
    }
  }

  lemma {:induction false} SortPermutes<T>(s: seq<T>, le: (T, T) -> bool)
    ensures multiset(Sort(s, le)) == multiset(s)
    ensures |Sort(s, le)| == |s|
  {
    if s != [] {
      assert s == [s[0]] + s[1..];
      SortPermutes(s[1..], le);
      InsertAdds(s[0], Sort(s[1..], le), le);
    }
    assert |Sort(s, le)| == |multiset(Sort(s, le))|;
  }

  lemma {:induction false} InsertSorts<T(!new)>(x: T, s: seq<T>, le: (T, T) -> bool)
    requires Preorder(le) && Sorted(s, le)
    ensures Sorted(Insert(x, s, le), le)
  {
    if s != [] && !le(x, s[0]) {
      var t := Insert(x, s[1..], le);
      InsertSorts(x, s[1..], le);
      InsertAdds(x, s[1..], le);
      forall j | 0 <= j < |t| ensures le(s[0], t[j]) {
        assert t[j] in multiset(t);
        assert t[j] == x || t[j] in s[1..];
      }
    } else if s != [] {
      forall j | 0 <= j < |s| ensures le(x, s[j]) {
      }
    }
  }

  lemma {:induction false} SortSorts<T(!new)>(s: seq<T>, le: (T, T) -> bool)
    requires Preorder(le)
    ensures Sorted(Sort(s, le), le)
  {
    if s != [] {
      SortSorts(s[1..], le);
      InsertSorts(s[0], Sort(s[1..], le), le);
    }
  }

  /** There is one sorted listing of a multiset. */
  lemma {:induction false} SortedIsUnique<T(!new)>(a: seq<T>, b: seq<T>, le: (T, T) -> bool)
    requires Order(le) && Sorted(a, le) && Sorted(b, le) && multiset(a) == multiset(b)
    ensures a == b
    decreases |a|
  {
    assert |a| == |multiset(a)| == |multiset(b)| == |b|;
    if a != [] {
      SameLeast(a, b, le);
      assert a == [a[0]] + a[1..] && b == [b[0]] + b[1..];
      assert multiset(a[1..]) == multiset(a) - multiset{a[0]};
      assert multiset(b[1..]) == multiset(b) - multiset{b[0]};
      SortedIsUnique(a[1..], b[1..], le);
    }
  }

  lemma {:induction false} SameLeast<T(!new)>(a: seq<T>, b: seq<T>, le: (T, T) -> bool)
    requires Order(le) && Sorted(a, le) && Sorted(b, le) && multiset(a) == multiset(b)
    requires a != [] && b != []
    ensures a[0] == b[0]
  {
    Members(a, b, a[0]);
    Members(a, b, b[0]);
    assert le(a[0], b[0]);
    assert le(b[0], a[0]);
  }

  /** So what is already sorted is what sorting any rearrangement of it gives. */
  lemma {:induction false} SortOf<T(!new)>(s: seq<T>, t: seq<T>, le: (T, T) -> bool)
    requires Order(le)
    ensures Sort(s, le) == t <==> multiset(s) == multiset(t) && Sorted(t, le)
  {
    SortPermutes(s, le);
    SortSorts(s, le);
    if multiset(s) == multiset(t) && Sorted(t, le) {
      SortedIsUnique(Sort(s, le), t, le);
    }
  }

  // ----- comparing item by item, as strings and tuples are

  predicate LexLe<T(==)>(a: seq<T>, b: seq<T>, le: (T, T) -> bool) {
    || a == []
    || (b != [] && if a[0] == b[0] then LexLe(a[1..], b[1..], le) else le(a[0], b[0]))
  }

  lemma {:induction false} LexTotal<T(!new)>(a: seq<T>, b: seq<T>, le: (T, T) -> bool)
    requires Order(le)
    ensures LexLe(a, b, le) || LexLe(b, a, le)
    decreases |a|
  {
    if a != [] && b != [] && a[0] == b[0] {
      LexTotal(a[1..], b[1..], le);
    }
  }

  lemma {:induction false} LexAntisymmetric<T(!new)>(a: seq<T>, b: seq<T>, le: (T, T) -> bool)
    requires Order(le) && LexLe(a, b, le) && LexLe(b, a, le)
    ensures a == b
    decreases |a|
  {
    if a != [] && b != [] {
      assert a[0] == b[0];
      LexAntisymmetric(a[1..], b[1..], le);
      assert a == [a[0]] + a[1..] && b == [b[0]] + b[1..];
    }
  }

  lemma {:induction false} LexTransitive<T(!new)>(a: seq<T>, b: seq<T>, c: seq<T>, le: (T, T) -> bool)
    requires Order(le) && LexLe(a, b, le) && LexLe(b, c, le)
    ensures LexLe(a, c, le)
    decreases |a|
  {
    if a != [] {
      assert le(a[0], b[0]) && le(b[0], c[0]);
      if a[0] == b[0] == c[0] {
        LexTransitive(a[1..], b[1..], c[1..], le);
      }
    }
  }

  predicate IntLe(a: int, b: int) { a <= b }

  predicate CharLe(a: char, b: char) { a <= b }

  predicate StringLe(a: string, b: string) { LexLe(a, b, CharLe) }

  /** The lists agree before `i` and differ there. */
  ghost predicate DifferAt<T>(a: seq<T>, b: seq<T>, i: nat) {
    i < |a| && i < |b| && a[..i] == b[..i] && a[i] != b[i]
  }

  lemma {:induction false} DifferLater<T>(a: seq<T>, b: seq<T>, i: nat)
    requires a != [] && b != [] && a[0] == b[0]
    ensures DifferAt(a[1..], b[1..], i) <==> DifferAt(a, b, i + 1)
    ensures !DifferAt(a, b, 0)
  {
    var c, d := a[1..], b[1..];
    if i < |c| && i < |d| {
      assert a[..i + 1] == [a[0]] + c[..i] && b[..i + 1] == [b[0]] + d[..i];
      assert a[..i + 1][1..] == c[..i] && b[..i + 1][1..] == d[..i];
    }
  }

  /** The first place where two lists differ decides, and a prefix comes first. */
  lemma {:induction false} LexLeMeans<T>(a: seq<T>, b: seq<T>, le: (T, T) -> bool)
    ensures LexLe(a, b, le) <==> a <= b || exists i: nat :: DifferAt(a, b, i) && le(a[i], b[i])
    decreases |a|
  {
    if a != [] && b != [] {
      if a[0] == b[0] {
        var c, d := a[1..], b[1..];
        LexLeMeans(c, d, le);
        assert a <= b <==> c <= d by {
          assert a == [a[0]] + c && b == [b[0]] + d;
        }
        forall i: nat ensures DifferAt(c, d, i) <==> DifferAt(a, b, i + 1) {
          DifferLater(a, b, i);
        }
        DifferLater(a, b, 0);
        if i: nat :| DifferAt(c, d, i) && le(c[i], d[i]) {
          assert DifferAt(a, b, i + 1) && a[i + 1] == c[i] && b[i + 1] == d[i];
        }
        if i: nat :| DifferAt(a, b, i) && le(a[i], b[i]) {
          assert i > 0 && c[i - 1] == a[i] && d[i - 1] == b[i];
          assert DifferAt(c, d, i - 1);
        }
      } else {
        assert a[..0] == b[..0];
        assert DifferAt(a, b, 0);
        forall i: nat | i > 0 ensures !DifferAt(a, b, i) {
          OnlyFirst(a, b, i);
        }
      }
    }
  }

  lemma {:induction false} OnlyFirst<T>(a: seq<T>, b: seq<T>, i: nat)
    requires a != [] && b != [] && a[0] != b[0] && i > 0
    ensures !DifferAt(a, b, i)
  {
    if i < |a| && i < |b| {
      assert a[..i][0] == a[0] && b[..i][0] == b[0];
    }
  }

  lemma {:induction false} StringLeMeans(a: string, b: string)
    ensures StringLe(a, b) <==> a <= b || exists i: nat :: DifferAt(a, b, i) && a[i] < b[i]
  {
    hide LexLe;
    LexLeMeans(a, b, CharLe);
  }

  lemma {:induction false} StringOrder()
    ensures Order(StringLe)
  {
    forall a: string, b: string ensures StringLe(a, b) || StringLe(b, a) {
      LexTotal(a, b, CharLe);
    }
    forall a: string, b: string | StringLe(a, b) && StringLe(b, a) ensures a == b {
      LexAntisymmetric(a, b, CharLe);
    }
    forall a: string, b: string, c: string | StringLe(a, b) && StringLe(b, c) ensures StringLe(a, c) {
      LexTransitive(a, b, c, CharLe);
    }
  }

  predicate PathLe(a: seq<string>, b: seq<string>) { LexLe(a, b, StringLe) }

  lemma {:induction false} PathOrder()
    ensures Order(PathLe)
  {
    StringOrder();
    forall a: seq<string>, b: seq<string> ensures PathLe(a, b) || PathLe(b, a) {
      LexTotal(a, b, StringLe);
    }
    forall a: seq<string>, b: seq<string> | PathLe(a, b) && PathLe(b, a) ensures a == b {
      LexAntisymmetric(a, b, StringLe);
    }
    forall a: seq<string>, b: seq<string>, c: seq<string> | PathLe(a, b) && PathLe(b, c) ensures PathLe(a, c) {
      LexTransitive(a, b, c, StringLe);
    }
  }
}
