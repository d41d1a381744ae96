/** The delta-coded flamegraph of the profile seed and the stacks read from it
    (tools/compare-grafana.py:350-403). A level is a flat list of bars, four
    numbers each: the gap since the last bar, the width, the own part and the
    index of the name. */
module Flamegraph {
  import opened Basics
  import opened Ordering
  import opened Lists

  const POINTS := 10
  const LIMIT := 0x7fff_ffff_ffff_ffff

  type Stack = (seq<string>, int)

  /** A response whose shape is right: the numbers may still be anything. */
  datatype Graph = Graph(names: seq<string>, levels: seq<seq<int>>, total: int, maxSelf: int)

  datatype Decoded = Decoded(total: int, maxSelf: int, stacks: seq<Stack>)

  /** A bar in its place, with the names of the bars it stands on and its own. */
  datatype Bar = Bar(left: int, right: int, self: int, path: seq<string>)

  predicate StackLe(a: Stack, b: Stack) { if a.0 == b.0 then a.1 <= b.1 else PathLe(a.0, b.0) }

  lemma {:induction false} StackOrder()
    ensures Order(StackLe)
  {
    PathOrder();
  }

  // ----- what the numbers of a level mean

  predicate IsInteger(n: int) { 0 <= n <= LIMIT }

  predicate WellFormed(values: seq<int>) {
    |values| % 4 == 0 && forall i | 0 <= i < |values| :: IsInteger(values[i])
  }

  /** Where the first `i` bars end. */
  function End(values: seq<int>, i: nat): int
    requires 4 * i <= |values|
  {
    if i == 0 then 0 else End(values, i - 1) + values[4 * i - 4] + values[4 * i - 3]
  }

  function Left(values: seq<int>, i: nat): int
    requires 4 * i + 4 <= |values|
  {
    End(values, i) + values[4 * i]
  }

  predicate Holds(bar: Bar, left: int, right: int) { bar.left <= left && right <= bar.right }

  ghost predicate OnlyOwner(above: seq<Bar>, left: int, right: int, o: int) {
    && 0 <= o < |above| && Holds(above[o], left, right)
    && forall q | 0 <= q < |above| && q != o :: !Holds(above[q], left, right)
  }

  /** The `i`-th bar of a level is well formed and is `bar`. */
  ghost predicate Places(values: seq<int>, i: nat, depth: nat, names: seq<string>, total: int, above: seq<Bar>,
                         bar: Bar)
    requires 4 * i + 4 <= |values|
  {
    var width, own, name := values[4 * i + 1], values[4 * i + 2], values[4 * i + 3];
    && bar.left == Left(values, i) && bar.right == End(values, i + 1) && bar.self == own
    && 0 <= name < |names| && width != 0 && own <= width && bar.right <= total
    && if depth == 0 then
         names[name] == "total" && bar.left == 0 && width == total && own == 0 && bar.path == []
       else
         exists o :: OnlyOwner(above, bar.left, bar.right, o) && bar.path == above[o].path + [names[name]]
  }

  /** A level's numbers stand for these bars over those of the level above. */
  ghost predicate Level(values: seq<int>, depth: nat, names: seq<string>, total: int, above: seq<Bar>,
                        bars: seq<Bar>) {
    && WellFormed(values) && |values| == 4 * |bars|
    && (forall i | 0 <= i < |bars| :: Places(values, i, depth, names, total, above, bars[i]))
    && End(values, |bars|) == total
  }

  function Owned(bars: seq<Bar>): seq<Stack> {
    if bars == [] then []
    else
      var init, last := Owned(bars[..|bars| - 1]), bars[|bars| - 1];
      if last.self != 0 then init + [(last.path, last.self)] else init
  }

  function MaxSelf(bars: seq<Bar>): int {
    if bars == [] then 0 else Max(MaxSelf(bars[..|bars| - 1]), bars[|bars| - 1].self)
  }

  function UpTo(n: nat): (r: set<int>)
    ensures forall i :: i in r <==> 0 <= i < n
  {
    if n == 0 then {} else UpTo(n - 1) + {n - 1}
  }

  /** The names that a level's bars refer to. */
  function Used(values: seq<int>): set<int> {
    set i | 0 <= i < |values| && i % 4 == 3 :: values[i]
  }

  predicate RightCount(depth: nat, count: nat) {
    (depth < 2 ==> count == 1) && (depth == 2 ==> count == POINTS)
  }

  ghost predicate LevelAt(g: Graph, d: nat, above: seq<Bar>, bars: seq<Bar>)
    requires d < |g.levels|
  {
    Level(g.levels[d], d, g.names, g.total, above, bars) && RightCount(d, |bars|)
  }

  function Last(placed: seq<seq<Bar>>): seq<Bar> { if placed == [] then [] else placed[|placed| - 1] }

  /** `placed` are the bars of the first levels, each level over the one before. */
  ghost predicate Placed(g: Graph, placed: seq<seq<Bar>>) {
    placed == [] ||
    var init, n := placed[..|placed| - 1], |placed| - 1;
    Placed(g, init) && n < |g.levels| && LevelAt(g, n, Last(init), placed[n])
  }

  function AllUsed(levels: seq<seq<int>>): set<int> {
    if levels == [] then {} else AllUsed(levels[..|levels| - 1]) + Used(levels[|levels| - 1])
  }

  ghost predicate DecodesVia(g: Graph, d: Decoded, placed: seq<seq<Bar>>) {
    && Distinct(g.names) && |g.levels| == 3 && IsInteger(g.total) && IsInteger(g.maxSelf)
    && Placed(g, placed) && |placed| == 3
    && AllUsed(g.levels) == UpTo(|g.names|)
    && g.maxSelf == MaxSelf(Flatten(placed))
    && d == Decoded(g.total, g.maxSelf, Sort(Owned(Flatten(placed)), StackLe))
  }

  /** What a flamegraph means, if it is one of the seed's shape at all. */
  ghost predicate Decodes(g: Graph, d: Decoded) {
    exists placed :: DecodesVia(g, d, placed)
  }

  // ----- reading

  function Owners(above: seq<Bar>, left: int, right: int): seq<seq<string>> {
    if above == [] then []
    else
      var init, last := Owners(above[..|above| - 1], left, right), above[|above| - 1];
      if Holds(last, left, right) then init + [last.path] else init
  }

  lemma {:induction false} NoOwners(above: seq<Bar>, left: int, right: int)
    ensures Owners(above, left, right) == [] <==> forall q | 0 <= q < |above| :: !Holds(above[q], left, right)
    decreases |above|
  {
    if above != [] {
      NoOwners(above[..|above| - 1], left, right);
      assert forall q | 0 <= q < |above| - 1 :: above[q] == above[..|above| - 1][q];
    }
  }

  lemma {:induction false} OneOwner(above: seq<Bar>, left: int, right: int)
    ensures |Owners(above, left, right)| == 1 <==> exists o :: OnlyOwner(above, left, right, o)
    ensures forall o | OnlyOwner(above, left, right, o) :: Owners(above, left, right) == [above[o].path]
    decreases |above|
  {
    if above != [] {
      var init, k := above[..|above| - 1], |above| - 1;
      NoOwners(init, left, right);
      OneOwner(init, left, right);
      if Holds(above[k], left, right) {
        assert OnlyOwner(above, left, right, k) <==> Owners(init, left, right) == [] by {
          assert forall q | 0 <= q < k :: above[q] == init[q];
        }
        forall o | OnlyOwner(above, left, right, o) ensures o == k {
        }
      } else {
        forall o ensures OnlyOwner(above, left, right, o) <==> OnlyOwner(init, left, right, o) {
          assert forall q | 0 <= q < k :: above[q] == init[q];
        }
      }
    }
  }

  lemma {:induction false} EndsGrow(values: seq<int>, i: nat, j: nat)
    requires WellFormed(values) && i <= j && 4 * j <= |values|
    ensures End(values, i) <= End(values, j)
    decreases j
  {
    if i < j {
      EndsGrow(values, i, j - 1);
    }
  }

  lemma {:induction false} PlacedOnce(values: seq<int>, i: nat, depth: nat, names: seq<string>, total: int,
                                      above: seq<Bar>, a: Bar, b: Bar)
    requires 4 * i + 4 <= |values|
    requires Places(values, i, depth, names, total, above, a) && Places(values, i, depth, names, total, above, b)
    ensures a == b
  {
    if depth > 0 {
      OneOwner(above, a.left, a.right);
    }
  }

  /** The loop over one level. */
  method ReadLevel(values: seq<int>, depth: nat, names: seq<string>, total: int, above: seq<Bar>)
      returns (r: Option<seq<Bar>>)
    ensures r.Some? ==> Level(values, depth, names, total, above, r.value)
    ensures r.None? ==> forall bars :: !Level(values, depth, names, total, above, bars)
  {
    hide OnlyOwner;
    if !WellFormed(values) {
      return None;
    }
    var current: seq<Bar>, x, n := [], 0, |values| / 4;
    for i := 0 to n
      invariant |current| == i && x == End(values, i)
      invariant forall k | 0 <= k < i :: Places(values, k, depth, names, total, above, current[k])
    {
      var delta, width, own, index := values[4 * i], values[4 * i + 1], values[4 * i + 2], values[4 * i + 3];
      x := x + delta;
      var end := x + width;
      assert x == Left(values, i) && end == End(values, i + 1);
      var path := [];
      if index >= |names| || width == 0 || own > width || end > total {
        Misplaced(values, i, depth, names, total, above);
        return None;
      }
      if depth == 0 {
        if names[index] != "total" || x != 0 || width != total || own != 0 {
          Misplaced(values, i, depth, names, total, above);
          return None;
        }
      } else {
        var owners := Owners(above, x, end);
        OneOwner(above, x, end);
        if |owners| != 1 {
          Misplaced(values, i, depth, names, total, above);
          return None;
        }
        path := owners[0] + [names[index]];
      }
      current := current + [Bar(x, end, own, path)];
      x := end;
    }
    if x != total {
      return None;
    }
    return Some(current);
  }

  lemma {:induction false} Misplaced(values: seq<int>, i: nat, depth: nat, names: seq<string>, total: int,
                                     above: seq<Bar>)
    requires WellFormed(values) && 4 * i + 4 <= |values|
    requires forall bar :: !Places(values, i, depth, names, total, above, bar)
    ensures forall bars :: !Level(values, depth, names, total, above, bars)
  {
    hide Places;
    forall bars | |values| == 4 * |bars| ensures !Level(values, depth, names, total, above, bars) {
      assert !Places(values, i, depth, names, total, above, bars[i]);
    }
  }

  lemma {:induction false} OwnedJoins(a: seq<Bar>, b: seq<Bar>)
    ensures Owned(a + b) == Owned(a) + Owned(b)
    ensures MaxSelf(a + b) == Max(MaxSelf(a), MaxSelf(b))
    decreases |b|
  {
    if b == [] {
      assert a + b == a;
      NoneIsBelow(a);
    } else {
      OwnedJoins(a, b[..|b| - 1]);
      assert (a + b)[..|a + b| - 1] == a + b[..|b| - 1];
    }
  }

  lemma {:induction false} NoneIsBelow(a: seq<Bar>)
    ensures MaxSelf(a) >= 0
    decreases |a|
  {
    if a != [] {
      NoneIsBelow(a[..|a| - 1]);
    }
  }

  /** A level reads in one way only, so a graph does. */
  lemma {:induction false} LevelOnce(values: seq<int>, depth: nat, names: seq<string>, total: int, above: seq<Bar>,
                                     a: seq<Bar>, b: seq<Bar>)
    requires Level(values, depth, names, total, above, a) && Level(values, depth, names, total, above, b)
    ensures a == b
  {
    hide Places;
    forall i | 0 <= i < |a| ensures a[i] == b[i] {
      PlacedOnce(values, i, depth, names, total, above, a[i], b[i]);
    }
  }

  lemma {:induction false} PlacedAgree(g: Graph, a: seq<seq<Bar>>, b: seq<seq<Bar>>)
    requires Placed(g, a) && Placed(g, b) && |a| == |b|
    ensures a == b
    decreases |a|
  {
    hide Level;
    if a != [] {
      var n := |a| - 1;
      PlacedAgree(g, a[..n], b[..n]);
      LevelOnce(g.levels[n], n, g.names, g.total, Last(a[..n]), a[n], b[n]);
      assert a == a[..n] + [a[n]] && b == b[..n] + [b[n]];
    }
  }

  lemma {:induction false} PlacedPrefix(g: Graph, placed: seq<seq<Bar>>, n: nat)
    requires Placed(g, placed) && n < |placed|
    ensures Placed(g, placed[..n]) && n < |g.levels| && LevelAt(g, n, Last(placed[..n]), placed[n])
    decreases |placed|
  {
    hide LevelAt;
    var init := placed[..|placed| - 1];
    if n < |placed| - 1 {
      PlacedPrefix(g, init, n);
      assert init[..n] == placed[..n];
    }
  }

  lemma {:induction false} PlacedSnoc(g: Graph, placed: seq<seq<Bar>>, current: seq<Bar>)
    requires Placed(g, placed) && |placed| < |g.levels|
    requires LevelAt(g, |placed|, Last(placed), current)
    ensures Placed(g, placed + [current])
    ensures Flatten(placed + [current]) == Flatten(placed) + current
  {
    hide LevelAt;
    assert (placed + [current])[..|placed|] == placed;
  }

  lemma {:induction false} DecodesOnce(g: Graph, a: Decoded, b: Decoded)
    requires Decodes(g, a) && Decodes(g, b)
    ensures a == b
  {
    hide Placed;
    var p :| DecodesVia(g, a, p);
    var q :| DecodesVia(g, b, q);
    PlacedAgree(g, p, q);
  }

  method HasRepeats(names: seq<string>) returns (r: bool)
    ensures r <==> !Distinct(names)
  {
    var seen: set<string> := {};
    for i := 0 to |names|
      invariant Distinct(names[..i]) && seen == set k | 0 <= k < i :: names[k]
    {
      if names[i] in seen {
        return true;
      }
      seen := seen + {names[i]};
    }
    assert names[..|names|] == names;
    return false;
  }

  method Decode(g: Graph) returns (r: Option<Decoded>)
    ensures r.Some? ==> Decodes(g, r.value)
    ensures r.None? ==> forall d :: !Decodes(g, d)
  {
    hide Level, Owned, MaxSelf, Used, Sort, Placed, Flatten, Distinct;
    var repeats := HasRepeats(g.names);
    if repeats || |g.levels| != 3 || !IsInteger(g.total) {
      return None;
    }
    ghost var placed: seq<seq<Bar>> := [];
    var parents: seq<Bar>, stacks: seq<Stack>, used: set<int>, maxSelf := [], [], {}, 0;
    NothingPlaced(g);
    for depth := 0 to 3
      invariant |placed| == depth && Placed(g, placed)
      invariant parents == Last(placed)
      invariant stacks == Owned(Flatten(placed)) && maxSelf == MaxSelf(Flatten(placed))
      invariant used == AllUsed(g.levels[..depth])
    {
      var level := ReadLevel(g.levels[depth], depth, g.names, g.total, parents);
      if level.None? || !RightCount(depth, |level.value|) {
        NotPlaced(g, placed, level);
        return None;
      }
      var current := level.value;
      PlacedSnoc(g, placed, current);
      OwnedJoins(Flatten(placed), current);
      stacks := stacks + Owned(current);
      maxSelf := Max(maxSelf, MaxSelf(current));
      used := used + Used(g.levels[depth]);
      assert g.levels[..depth + 1][..depth] == g.levels[..depth];
      placed := placed + [current];
      parents := current;
    }
    assert g.levels[..3] == g.levels;
    PlacedIsWhole(g, placed);
    if used != UpTo(|g.names|) || !IsInteger(g.maxSelf) || g.maxSelf != maxSelf {
      return None;
    }
    r := Some(Decoded(g.total, maxSelf, Sort(stacks, StackLe)));
    assert DecodesVia(g, r.value, placed);
  }

  lemma {:induction false} NothingPlaced(g: Graph)
    ensures Placed(g, []) && Owned(Flatten([])) == [] && MaxSelf(Flatten([])) == 0
  {
  }

  lemma {:induction false} PlacedIsWhole(g: Graph, placed: seq<seq<Bar>>)
    requires Placed(g, placed) && |placed| == 3
    ensures forall d, other | DecodesVia(g, d, other) :: other == placed
  {
    hide Placed;
    forall d, other | DecodesVia(g, d, other) ensures other == placed {
      PlacedAgree(g, placed, other);
    }
  }

  lemma {:induction false} NotPlaced(g: Graph, placed: seq<seq<Bar>>, level: Option<seq<Bar>>)
    requires Placed(g, placed) && |placed| < |g.levels|
    requires var n := |placed|;
             if level.Some?
             then Level(g.levels[n], n, g.names, g.total, Last(placed), level.value) && !RightCount(n, |level.value|)
             else forall bars :: !Level(g.levels[n], n, g.names, g.total, Last(placed), bars)
    ensures forall other | |other| == |g.levels| :: !Placed(g, other)
  {
    hide Level;
    var n := |placed|;
    forall other | |other| == |g.levels| && Placed(g, other) ensures false {
      PlacedPrefix(g, other, n);
      PlacedAgree(g, placed, other[..n]);
      if level.Some? {
        LevelOnce(g.levels[n], n, g.names, g.total, Last(placed), other[n], level.value);
      }
    }
  }
}
