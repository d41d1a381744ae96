/** What several of the models share: optional and failing results, the larger
    and smaller of two numbers, and the size of sets. */
module Basics {
  datatype Option<+T> = None | Some(value: T)

  datatype Result<+T> = Ok(value: T) | Err(error: string) {
    predicate IsFailure() { Err? }

    function PropagateFailure<U>(): Result<U>
      requires Err?
    {
      Err(error)
    }

    function Extract(): T
      requires Ok?
    {
      value
    }
  }

  function Max(a: int, b: int): int { if a >= b then a else b }

  function Min(a: int, b: int): int { if a <= b then a else b }

  lemma {:induction false} Member<T>(s: set<T>) returns (x: T)
    requires s != {}
    ensures x in s
  {
    x :| x in s;
  }

  lemma {:induction false} SubsetOfSameSize<T>(a: set<T>, b: set<T>)
    requires a <= b && |a| == |b|
    ensures a == b
  {
    assert b == a + (b - a);
  }

  lemma {:induction false} ImageSize<A(!new), B(!new)>(f: A -> B, s: set<A>)
    requires forall a, b | a in s && b in s && f(a) == f(b) :: a == b
    ensures |set a | a in s :: f(a)| == |s|
  {
    if s != {} {
      var x :| x in s;
      ImageSize(f, s - {x});
      assert (set a | a in s :: f(a)) == (set a | a in s - {x} :: f(a)) + {f(x)};
    }
  }

  /** Two sets that a function pairs off have one size. */
  lemma {:induction false} SameSize<A(!new), B(!new)>(f: A -> B, s: set<A>, t: set<B>)
    requires forall a, b | a in s && b in s && f(a) == f(b) :: a == b
    requires forall a | a in s :: f(a) in t
    requires forall b | b in t :: exists a :: a in s && f(a) == b
    ensures |t| == |s|
  {
    ImageSize(f, s);
    assert t == set a | a in s :: f(a);
  }

  lemma {:induction false} ImageAtMost<A(!new), B(!new)>(f: A -> B, s: set<A>)
    ensures |set a | a in s :: f(a)| <= |s|
  {
    if s != {} {
      var x :| x in s;
      ImageAtMost(f, s - {x});
      assert (set a | a in s :: f(a)) == (set a | a in s - {x} :: f(a)) + {f(x)};
    }
  }

  lemma {:induction false} SubsetSize<T>(a: set<T>, b: set<T>)
    requires a <= b
    ensures |a| <= |b|
  {
    assert b == a + (b - a);
  }

  /** A set that a function reaches all of is no larger. */
  lemma {:induction false} OntoSize<A(!new), B(!new)>(f: A -> B, s: set<A>, t: set<B>)
    requires forall b | b in t :: exists a :: a in s && f(a) == b
    ensures |t| <= |s|
  {
    ImageAtMost(f, s);
    SubsetSize(t, set a | a in s :: f(a));
  }
}
