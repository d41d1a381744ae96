/** Which flamegraphs are accepted, on the numbers alone, and what they mean: one
    root, one parent, ten leaves inside it, every name used and the largest own part
    announced (tools/compare-grafana.py:350-403). */
module FlamegraphShape {
  import opened Basics
  import opened Ordering
  import opened Lists
  import opened Flamegraph
  import opened FlamegraphRoundTrip

  ghost predicate Numbers(values: seq<int>) {
    forall i | 0 <= i < |values| :: 0 <= values[i] <= 0x7FFF_FFFF_FFFF_FFFF
  }

  /** The bar of everything: no gap, no own part, and named so. */
  ghost predicate IsRoot(values: seq<int>, names: seq<string>, total: int) {
    && |values| == 4 && Numbers(values) && values[0] == 0 && values[1] == total && total > 0 && values[2] == 0
    && values[3] < |names| && names[values[3]] == "total"
  }

  /** The one bar on top of it, from a gap to the end. */
  ghost predicate IsParent(values: seq<int>, names: seq<string>, total: int) {
    && |values| == 4 && Numbers(values) && values[0] + values[1] == total && values[1] > 0
    && values[2] <= values[1] && values[3] < |names|
  }

  /** Ten bars that start where the parent does or later and end where it does. */
  ghost predicate AreLeaves(values: seq<int>, names: seq<string>, start: int, total: int) {
    && |values| == 40 && Numbers(values) && start <= values[0] && End(values, 10) == total
    && forall i | 0 <= i < 10 :: IsLeaf(values, names, i)
  }

  ghost predicate IsLeaf(values: seq<int>, names: seq<string>, i: nat)
    requires 4 * i + 4 <= |values|
  {
    values[4 * i + 1] > 0 && values[4 * i + 2] <= values[4 * i + 1] && values[4 * i + 3] < |names|
  }

  function RootBars(total: int): seq<Bar> { [Bar(0, total, 0, [])] }

  function ParentBars(values: seq<int>, names: seq<string>, total: int): seq<Bar>
    requires |values| == 4 && 0 <= values[3] < |names|
  {
    [Bar(values[0], total, values[2], [names[values[3]]])]
  }

  ghost function BarsOf(values: seq<int>, names: seq<string>, path: seq<string>): (bars: seq<Bar>)
    requires |values| == 40 && Numbers(values) && forall i | 0 <= i < 10 :: IsLeaf(values, names, i)
    ensures |bars| == 10
  {
    seq(10, i requires 0 <= i < 10 =>
      assert IsLeaf(values, names, i);
      Bar(Left(values, i), End(values, i + 1), values[4 * i + 2], path + [names[values[4 * i + 3]]]))
  }

  lemma {:induction false} RootLevel(values: seq<int>, names: seq<string>, total: int, bars: seq<Bar>)
    ensures Level(values, 0, names, total, [], bars) && |bars| == 1 <==>
            IsRoot(values, names, total) && bars == RootBars(total)
  {
    if |values| == 4 && |bars| == 1 {
      assert End(values, 0) == 0 && End(values, 1) == values[0] + values[1] && Left(values, 0) == values[0];
      assert Level(values, 0, names, total, [], bars) <==>
             Numbers(values) && Places(values, 0, 0, names, total, [], bars[0]) && values[0] + values[1] == total;
      assert bars == [bars[0]];
    }
  }

  lemma {:induction false} ParentLevel(values: seq<int>, names: seq<string>, total: int, bars: seq<Bar>)
    ensures Level(values, 1, names, total, RootBars(total), bars) && |bars| == 1 <==>
            IsParent(values, names, total) && bars == ParentBars(values, names, total)
  {
    if |values| == 4 && |bars| == 1 {
      var above := RootBars(total);
      assert End(values, 0) == 0 && End(values, 1) == values[0] + values[1] && Left(values, 0) == values[0];
      assert Level(values, 1, names, total, above, bars) <==>
             Numbers(values) && Places(values, 0, 1, names, total, above, bars[0]) && values[0] + values[1] == total;
      assert bars == [bars[0]];
      assert OnlyOwner(above, bars[0].left, bars[0].right, 0) <==> 0 <= bars[0].left && bars[0].right <= total;
      assert forall o | OnlyOwner(above, bars[0].left, bars[0].right, o) :: o == 0;
      if 0 <= values[3] < |names| {
        assert above[0].path + [names[values[3]]] == [names[values[3]]];
      }
    }
  }

  /** Where a leaf stands: inside the parent if the first one is, and it ends in time. */
  lemma {:induction false} LeafStands(values: seq<int>, names: seq<string>, total: int, parent: Bar, i: nat, bar: Bar)
    requires |values| == 40 && Numbers(values) && i < 10 && End(values, 10) == total && parent.right == total
    ensures Places(values, i, 2, names, total, [parent], bar) <==>
            && IsLeaf(values, names, i) && parent.left <= Left(values, i)
            && bar == Bar(Left(values, i), End(values, i + 1), values[4 * i + 2],
                          parent.path + [names[values[4 * i + 3]]])
  {
    EndsGrow(values, i + 1, 10);
    var above := [parent];
    assert forall o | OnlyOwner(above, bar.left, bar.right, o) :: o == 0;
    assert OnlyOwner(above, bar.left, bar.right, 0) <==> parent.left <= bar.left && bar.right <= parent.right;
  }

  lemma {:induction false} LeafLevelIs(values: seq<int>, names: seq<string>, total: int, parent: Bar, bars: seq<Bar>)
    requires parent.right == total
    ensures Level(values, 2, names, total, [parent], bars) && |bars| == 10 <==>
            AreLeaves(values, names, parent.left, total) && bars == BarsOf(values, names, parent.path)
  {
    hide Places, End;
    if |values| == 40 && Numbers(values) && End(values, 10) == total && |bars| == 10 {
      assert WellFormed(values);
      FirstIsLeftmost(values);
      forall i: nat | i < 10
        ensures Places(values, i, 2, names, total, [parent], bars[i]) <==>
                && IsLeaf(values, names, i) && parent.left <= Left(values, i)
                && bars[i] == Bar(Left(values, i), End(values, i + 1), values[4 * i + 2],
                                  parent.path + [names[values[4 * i + 3]]])
      {
        LeafStands(values, names, total, parent, i, bars[i]);
      }
    }
  }

  lemma {:induction false} FirstIsLeftmost(values: seq<int>)
    requires |values| == 40 && WellFormed(values)
    ensures Left(values, 0) == values[0] && forall i: nat | i < 10 :: Left(values, 0) <= Left(values, i)
  {
    forall i: nat | i < 10 ensures Left(values, 0) <= Left(values, i) {
      if i > 0 {
        EndsGrow(values, 1, i);
      }
    }
  }

  // ----- the whole graph

  ghost predicate IsUsed(g: Graph, k: int)
    requires |g.levels| == 3 && |g.levels[0]| == 4 && |g.levels[1]| == 4 && |g.levels[2]| == 40
  {
    k == g.levels[0][3] || k == g.levels[1][3] || exists i | 0 <= i < 10 :: k == g.levels[2][4 * i + 3]
  }

  ghost predicate IsLargestOwn(parent: int, leaves: seq<int>, m: int)
    requires |leaves| == 40
  {
    && parent <= m && (forall i | 0 <= i < 10 :: leaves[4 * i + 2] <= m)
    && (m == parent || exists i | 0 <= i < 10 :: m == leaves[4 * i + 2])
  }

  ghost predicate ThreeLevels(g: Graph) {
    && |g.levels| == 3 && IsRoot(g.levels[0], g.names, g.total) && IsParent(g.levels[1], g.names, g.total)
    && AreLeaves(g.levels[2], g.names, g.levels[1][0], g.total)
  }

  ghost predicate Accepted(g: Graph) {
    && Distinct(g.names) && ThreeLevels(g)
    && (forall k | 0 <= k < |g.names| :: IsUsed(g, k))
    && IsLargestOwn(g.levels[1][2], g.levels[2], g.maxSelf)
  }

  /** The bars that have an own part: the parent and its leaves. */
  ghost function OwnBars(g: Graph): seq<Bar>
    requires ThreeLevels(g)
  {
    ParentBars(g.levels[1], g.names, g.total) + BarsOf(g.levels[2], g.names, [g.names[g.levels[1][3]]])
  }

  ghost function Layers(g: Graph): seq<seq<Bar>>
    requires ThreeLevels(g)
  {
    [RootBars(g.total), ParentBars(g.levels[1], g.names, g.total),
     BarsOf(g.levels[2], g.names, [g.names[g.levels[1][3]]])]
  }

  lemma {:induction false} MaxSelfIs(bars: seq<Bar>, m: int)
    requires bars != [] && forall i | 0 <= i < |bars| :: bars[i].self >= 0
    ensures m == MaxSelf(bars) <==>
            (forall i | 0 <= i < |bars| :: bars[i].self <= m) && exists i :: 0 <= i < |bars| && bars[i].self == m
    decreases |bars|
  {
    var n := |bars| - 1;
    var init := bars[..n];
    assert forall i | 0 <= i < n :: init[i] == bars[i];
    if init != [] {
      MaxSelfIs(init, MaxSelf(init));
      var k :| 0 <= k < n && init[k].self == MaxSelf(init);
      assert MaxSelf(bars) == Max(bars[k].self, bars[n].self);
    } else {
      assert MaxSelf(init) == 0;
    }
  }

  lemma {:induction false} UsedIs(values: seq<int>, k: int)
    ensures |values| == 4 ==> (k in Used(values) <==> k == values[3])
    ensures |values| == 40 ==> (k in Used(values) <==> exists i | 0 <= i < 10 :: k == values[4 * i + 3])
  {
    if |values| == 4 {
      assert forall i | 0 <= i < 4 && i % 4 == 3 :: i == 3;
      assert values[3] in Used(values);
    }
    if |values| == 40 {
      if k in Used(values) {
        var j :| 0 <= j < |values| && j % 4 == 3 && values[j] == k;
        assert j == 4 * (j / 4) + 3;
      }
      if i :| 0 <= i < 10 && k == values[4 * i + 3] {
        assert (4 * i + 3) % 4 == 3;
      }
    }
  }

  /** Three levels that are placed are a root, a parent and its leaves. */
  lemma {:induction false} PlacedIs(g: Graph, placed: seq<seq<Bar>>)
    requires |g.levels| == 3
    ensures Placed(g, placed) && |placed| == 3 <==> ThreeLevels(g) && placed == Layers(g)
  {
    hide Level, IsRoot, AreLeaves, BarsOf;
    if |placed| == 3 {
      ThreePlaced(g, placed);
      RootLevel(g.levels[0], g.names, g.total, placed[0]);
      ParentLevel(g.levels[1], g.names, g.total, placed[1]);
      if IsParent(g.levels[1], g.names, g.total) {
        var parent := ParentBars(g.levels[1], g.names, g.total)[0];
        LeafLevelIs(g.levels[2], g.names, g.total, parent, placed[2]);
      }
      assert placed == [placed[0], placed[1], placed[2]];
    }
  }

  lemma {:induction false} ThreePlaced(g: Graph, placed: seq<seq<Bar>>)
    requires |g.levels| == 3 && |placed| == 3
    ensures Placed(g, placed) <==>
            && Level(g.levels[0], 0, g.names, g.total, [], placed[0]) && |placed[0]| == 1
            && Level(g.levels[1], 1, g.names, g.total, placed[0], placed[1]) && |placed[1]| == 1
            && Level(g.levels[2], 2, g.names, g.total, placed[1], placed[2]) && |placed[2]| == 10
  {
    hide Level;
    var one, two := placed[..1], placed[..2];
    assert two[..1] == one && one[..0] == [] && two[1] == placed[1] && one[0] == placed[0];
    assert Last(one) == placed[0] && Last(two) == placed[1] && Last([]) == [];
    assert Placed(g, []);
    assert Placed(g, one) <==> LevelAt(g, 0, [], placed[0]);
    assert Placed(g, two) <==> Placed(g, one) && LevelAt(g, 1, placed[0], placed[1]);
    assert Placed(g, placed) <==> Placed(g, two) && LevelAt(g, 2, placed[1], placed[2]);
  }

  lemma {:induction false} UsesAre(g: Graph)
    requires ThreeLevels(g)
    ensures AllUsed(g.levels) == UpTo(|g.names|) <==> forall k | 0 <= k < |g.names| :: IsUsed(g, k)
  {
    hide Used, AllUsed, End;
    assert g.levels == [g.levels[0], g.levels[1], g.levels[2]];
    UsedThree(g.levels[0], g.levels[1], g.levels[2]);
    forall k ensures k in AllUsed(g.levels) <==> IsUsed(g, k) {
      UsedIs(g.levels[0], k);
      UsedIs(g.levels[1], k);
      UsedIs(g.levels[2], k);
    }
    forall k | IsUsed(g, k) ensures 0 <= k < |g.names| {
      if i :| 0 <= i < 10 && k == g.levels[2][4 * i + 3] {
        assert IsLeaf(g.levels[2], g.names, i);
      }
    }
  }

  ghost predicate HaveOwn(bars: seq<Bar>, parent: int, leaves: seq<int>)
    requires |leaves| == 40
  {
    && |bars| == 12 && bars[0].self == 0 && bars[1].self == parent
    && forall i | 2 <= i < 12 :: bars[i].self == leaves[4 * (i - 2) + 2]
  }

  lemma {:induction false} BarsHaveOwn(g: Graph)
    requires ThreeLevels(g)
    ensures HaveOwn(RootBars(g.total) + OwnBars(g), g.levels[1][2], g.levels[2])
  {
    hide End, Left;
    var leaves := BarsOf(g.levels[2], g.names, [g.names[g.levels[1][3]]]);
    var bars := RootBars(g.total) + OwnBars(g);
    forall i | 2 <= i < 12 ensures bars[i].self == g.levels[2][4 * (i - 2) + 2] {
      assert bars[i] == leaves[i - 2];
    }
  }

  lemma {:induction false} LargestIs(bars: seq<Bar>, parent: int, leaves: seq<int>, m: int)
    requires |leaves| == 40 && Numbers(leaves) && parent >= 0 && HaveOwn(bars, parent, leaves)
    ensures m == MaxSelf(bars) <==> IsLargestOwn(parent, leaves, m)
  {
    hide MaxSelf;
    MaxSelfIs(bars, m);
    if IsLargestOwn(parent, leaves, m) {
      if m != parent {
        var i :| 0 <= i < 10 && m == leaves[4 * i + 2];
        assert bars[i + 2].self == m;
      }
    }
    if m == MaxSelf(bars) {
      var i :| 0 <= i < |bars| && bars[i].self == m;
      assert bars[1].self <= m;
      forall k | 0 <= k < 10 ensures leaves[4 * k + 2] <= m {
        assert bars[k + 2].self <= m;
      }
      if i >= 2 {
        var k := i - 2;
        assert m == leaves[4 * k + 2];
      }
    }
  }

  /** A response is accepted exactly when it has this shape, and then it means its own
      parts, sorted: whatever gaps it leaves, and however it splits bars into own parts
      and the rest. */
  lemma {:induction false} AcceptedMeans(g: Graph, d: Decoded)
    ensures Decodes(g, d) <==>
            Accepted(g) && d == Decoded(g.total, g.maxSelf, Sort(Owned(OwnBars(g)), StackLe))
  {
    hide Placed, IsRoot, IsParent, AreLeaves, Sort, AllUsed, IsUsed, Distinct, OwnBars, Layers, Owned, MaxSelf;
    if |g.levels| == 3 {
      if placed :| DecodesVia(g, d, placed) {
        PlacedIs(g, placed);
        LayersMean(g, d);
      }
      if Accepted(g) && d == Decoded(g.total, g.maxSelf, Sort(Owned(OwnBars(g)), StackLe)) {
        PlacedIs(g, Layers(g));
        LayersMean(g, d);
      }
    }
  }

  lemma {:induction false} LayersMean(g: Graph, d: Decoded)
    requires ThreeLevels(g)
    ensures DecodesVia(g, d, Layers(g)) <==>
            Accepted(g) && d == Decoded(g.total, g.maxSelf, Sort(Owned(OwnBars(g)), StackLe))
  {
    hide Placed, IsRoot, Sort, AllUsed, IsUsed, Distinct, Owned, MaxSelf, IsLargestOwn, OwnBars;
    PlacedIs(g, Layers(g));
    UsesAre(g);
    LargestIs(RootBars(g.total) + OwnBars(g), g.levels[1][2], g.levels[2], g.maxSelf) by { BarsHaveOwn(g); }
    LargestFits(g);
    LayersJoin(g);
  }

  lemma {:induction false} LargestFits(g: Graph)
    requires ThreeLevels(g)
    ensures IsLargestOwn(g.levels[1][2], g.levels[2], g.maxSelf) ==> IsInteger(g.maxSelf)
  {
    hide End;
    if IsLargestOwn(g.levels[1][2], g.levels[2], g.maxSelf) && g.maxSelf != g.levels[1][2] {
      var i :| 0 <= i < 10 && g.maxSelf == g.levels[2][4 * i + 2];
    }
  }

  lemma {:induction false} LayersJoin(g: Graph)
    requires ThreeLevels(g)
    ensures IsInteger(g.total)
    ensures Flatten(Layers(g)) == RootBars(g.total) + OwnBars(g)
    ensures Owned(Flatten(Layers(g))) == Owned(OwnBars(g))
  {
    hide Owned, End, Left;
    var root, above := RootBars(g.total), ParentBars(g.levels[1], g.names, g.total);
    var leaves := BarsOf(g.levels[2], g.names, [g.names[g.levels[1][3]]]);
    JoinedThree(root, above, leaves);
    assert root + above + leaves == root + (above + leaves);
    OwnedJoins(root, above + leaves);
    NothingOwned(root[0]);
    assert [] + Owned(above + leaves) == Owned(above + leaves);
  }

  ghost predicate Owns(bars: seq<Bar>, i: int, stack: Stack) {
    0 <= i < |bars| && bars[i].self != 0 && stack == (bars[i].path, bars[i].self)
  }

  /** The stacks are those of the bars with an own part. */
  lemma {:induction false} OwnedAre(bars: seq<Bar>, stack: Stack)
    ensures stack in Owned(bars) <==> exists i :: Owns(bars, i, stack)
    decreases |bars|
  {
    if bars != [] {
      var n := |bars| - 1;
      var init := bars[..n];
      OwnedAre(init, stack);
      forall i | 0 <= i < n ensures Owns(bars, i, stack) <==> Owns(init, i, stack) {
        assert init[i] == bars[i];
      }
      if i :| Owns(init, i, stack) {
        assert Owns(bars, i, stack);
      }
      if i :| Owns(bars, i, stack) {
        assert i == n || Owns(init, i, stack);
      }
      assert Owns(bars, n, stack) <==> bars[n].self != 0 && stack == (bars[n].path, bars[n].self);
    }
  }

  ghost predicate Named(g: Graph) {
    && |g.levels| == 3 && |g.levels[1]| == 4 && |g.levels[2]| == 40 && 0 <= g.levels[1][3] < |g.names|
    && forall i | 0 <= i < 10 :: 0 <= g.levels[2][4 * i + 3] < |g.names|
  }

  ghost predicate IsLeafStack(g: Graph, i: int, stack: Stack)
    requires Named(g) && 0 <= i < 10
  {
    && stack.0 == [g.names[g.levels[1][3]], g.names[g.levels[2][4 * i + 3]]]
    && stack.1 == g.levels[2][4 * i + 2]
  }

  lemma {:induction false} OwnBarsAre(g: Graph, k: int, stack: Stack)
    requires ThreeLevels(g) && Named(g)
    ensures Owns(OwnBars(g), k, stack) <==>
            && stack.1 != 0 && 0 <= k <= 10
            && if k == 0 then stack == ([g.names[g.levels[1][3]]], g.levels[1][2]) else IsLeafStack(g, k - 1, stack)
  {
    hide End, Left;
    var parent := g.names[g.levels[1][3]];
    var bars, leaves := OwnBars(g), BarsOf(g.levels[2], g.names, [parent]);
    assert bars[0] == Bar(g.levels[1][0], g.total, g.levels[1][2], [parent]);
    if 0 < k <= 10 {
      assert bars[k] == leaves[k - 1];
      assert leaves[k - 1].path == [parent, g.names[g.levels[2][4 * (k - 1) + 3]]];
    }
  }

  lemma {:induction false} LevelsAreNamed(g: Graph)
    requires ThreeLevels(g)
    ensures Named(g)
  {
    hide End;
    forall i | 0 <= i < 10 ensures 0 <= g.levels[2][4 * i + 3] < |g.names| {
      assert IsLeaf(g.levels[2], g.names, i);
    }
  }

  /** What an accepted response is decoded to: a stack of the parent, or of the parent
      and a leaf, for every own part that is not zero, and no other. */
  lemma {:induction false} StacksAreOwnParts(g: Graph, d: Decoded, stack: Stack)
    requires Decodes(g, d)
    ensures Named(g)
    ensures forall i, j | 0 <= i < j < |d.stacks| ::
              if d.stacks[i].0 == d.stacks[j].0 then d.stacks[i].1 <= d.stacks[j].1
              else LexLe(d.stacks[i].0, d.stacks[j].0, StringLe)
    ensures stack in d.stacks <==>
            && stack.1 != 0
            && (|| stack == ([g.names[g.levels[1][3]]], g.levels[1][2])
                || exists i | 0 <= i < 10 :: IsLeafStack(g, i, stack))
  {
    hide Sort, Owned, IsRoot, IsParent, AreLeaves, IsUsed, Distinct, Decodes, IsLargestOwn, Owns, IsLeafStack,
      OwnBars;
    AcceptedMeans(g, d);
    LevelsAreNamed(g);
    var bars := OwnBars(g);
    StackOrder();
    SortSorts(Owned(bars), StackLe);
    SortPermutes(Owned(bars), StackLe);
    Members(d.stacks, Owned(bars), stack);
    OwnedAre(bars, stack);
    forall k ensures Owns(bars, k, stack) <==>
            && stack.1 != 0 && 0 <= k <= 10
            && if k == 0 then stack == ([g.names[g.levels[1][3]]], g.levels[1][2]) else IsLeafStack(g, k - 1, stack)
    {
      OwnBarsAre(g, k, stack);
    }
    if i :| 0 <= i < 10 && IsLeafStack(g, i, stack) {
      assert Owns(bars, i + 1, stack) <==> stack.1 != 0;
    }
    assert Owns(bars, 0, stack) <==> stack.1 != 0 && stack == ([g.names[g.levels[1][3]]], g.levels[1][2]);
  }
}
