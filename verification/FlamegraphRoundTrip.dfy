/** What the flamegraph reader guarantees: an accepted response is properly
    nested, and the seed's stacks come back whatever the order of the name table
    and of the siblings (tools/compare-grafana.py:350-403). */
module FlamegraphRoundTrip {
  import opened Basics
  import opened Ordering
  import opened Lists
  import opened Flamegraph

  // ----- accepted responses are nested

  /** Bars of a level follow one another without overlap, and have a width. */
  lemma {:induction false} LevelIsDisjoint(values: seq<int>, depth: nat, names: seq<string>, total: int,
                                           above: seq<Bar>, bars: seq<Bar>)
    requires Level(values, depth, names, total, above, bars)
    ensures forall i | 0 <= i < |bars| :: 0 <= bars[i].left < bars[i].right <= total
    ensures forall i, j | 0 <= i < j < |bars| :: bars[i].right <= bars[j].left
  {
    forall i | 0 <= i < |bars| ensures 0 <= bars[i].left < bars[i].right <= total {
      assert Places(values, i, depth, names, total, above, bars[i]);
      EndsGrow(values, 0, i);
    }
    forall i, j | 0 <= i < j < |bars| ensures bars[i].right <= bars[j].left {
      assert Places(values, i, depth, names, total, above, bars[i]);
      assert Places(values, j, depth, names, total, above, bars[j]);
      EndsGrow(values, i + 1, j);
    }
  }

  /** So a bar never has two owners: the reader refuses it only for having none. */
  lemma {:induction false} OwnersAreFew(values: seq<int>, depth: nat, names: seq<string>, total: int,
                     above: seq<Bar>, bars: seq<Bar>, left: int, right: int)
    requires Level(values, depth, names, total, above, bars) && left < right
    ensures |Owners(bars, left, right)| <= 1
  {
    hide Level;
    LevelIsDisjoint(values, depth, names, total, above, bars);
    NoOwners(bars, left, right);
    if o :| 0 <= o < |bars| && Holds(bars[o], left, right) {
      assert OnlyOwner(bars, left, right, o);
      OneOwner(bars, left, right);
    }
  }

  ghost predicate InJustOne(above: seq<Bar>, bar: Bar) {
    exists o :: OnlyOwner(above, bar.left, bar.right, o)
  }

  ghost predicate Nested(above: seq<Bar>, bars: seq<Bar>) {
    && (forall i, j | 0 <= i < j < |bars| :: bars[i].right <= bars[j].left)
    && (forall i | 0 <= i < |bars| :: InJustOne(above, bars[i]))
  }

  lemma {:induction false} LevelNests(g: Graph, d: nat, above: seq<Bar>, bars: seq<Bar>)
    requires 0 < d < |g.levels| && LevelAt(g, d, above, bars)
    ensures Nested(above, bars)
  {
    LevelIsDisjoint(g.levels[d], d, g.names, g.total, above, bars);
    forall i | 0 <= i < |bars| ensures InJustOne(above, bars[i]) {
      assert Places(g.levels[d], i, d, g.names, g.total, above, bars[i]);
    }
  }

  /** In every accepted response each level is nested in the one above. */
  lemma {:induction false} AcceptedIsNested(g: Graph, decoded: Decoded, placed: seq<seq<Bar>>, d: nat)
    requires DecodesVia(g, decoded, placed) && d < 2
    ensures Nested(placed[d], placed[d + 1])
  {
    PlacedPrefix(g, placed, d + 1);
    LevelNests(g, d + 1, placed[d], placed[d + 1]);
  }

  // ----- encoding

  type Leaf = (string, int)

  function IndexOf(names: seq<string>, name: string): (i: nat)
    requires name in names
    ensures i < |names| && names[i] == name
  {
    if names[0] == name then 0 else 1 + IndexOf(names[1..], name)
  }

  function Sum(leaves: seq<Leaf>, n: nat): int
    requires n <= |leaves|
  {
    if n == 0 then 0 else Sum(leaves, n - 1) + leaves[n - 1].1
  }

  function Heaviest(leaves: seq<Leaf>, n: nat): int
    requires n <= |leaves|
  {
    if n == 0 then 0 else Max(Heaviest(leaves, n - 1), leaves[n - 1].1)
  }

  /** A name table for the seed: no name twice, and just the names in use, in any
      order. */
  ghost predicate NameTable(names: seq<string>, parent: string, leaves: seq<Leaf>) {
    && Distinct(names) && "total" in names && parent in names
    && (forall i | 0 <= i < |leaves| :: leaves[i].0 in names)
    && (forall n | n in names :: n == "total" || n == parent || exists i | 0 <= i < |leaves| :: leaves[i].0 == n)
  }

  function LeafValues(names: seq<string>, leaves: seq<Leaf>): (values: seq<int>)
    requires forall i | 0 <= i < |leaves| :: leaves[i].0 in names
    ensures |values| == 4 * |leaves|
  {
    seq(4 * |leaves|, k requires 0 <= k < 4 * |leaves| =>
      if k % 4 == 0 then 0 else if k % 4 == 3 then IndexOf(names, leaves[k / 4].0) else leaves[k / 4].1)
  }

  /** The response for these leaves under one parent, in this sibling order. */
  ghost function Encode(names: seq<string>, parent: string, leaves: seq<Leaf>): Graph
    requires NameTable(names, parent, leaves)
  {
    var total := Sum(leaves, |leaves|);
    Graph(names,
          [[0, total, 0, IndexOf(names, "total")], [0, total, 0, IndexOf(names, parent)], LeafValues(names, leaves)],
          total, Heaviest(leaves, |leaves|))
  }

  function Stacks(parent: string, leaves: seq<Leaf>): (s: seq<Stack>)
    ensures |s| == |leaves| && forall i | 0 <= i < |s| :: s[i] == ([parent, leaves[i].0], leaves[i].1)
  {
    seq(|leaves|, i requires 0 <= i < |leaves| => ([parent, leaves[i].0], leaves[i].1))
  }

  function LeafBars(parent: string, leaves: seq<Leaf>): (bars: seq<Bar>)
    ensures |bars| == |leaves|
  {
    seq(|leaves|, i requires 0 <= i < |leaves| =>
      Bar(Sum(leaves, i), Sum(leaves, i + 1), leaves[i].1, [parent, leaves[i].0]))
  }

  ghost predicate Weights(leaves: seq<Leaf>) {
    (forall i | 0 <= i < |leaves| :: leaves[i].1 > 0) && Sum(leaves, |leaves|) <= LIMIT
  }

  lemma {:induction false} SumGrows(leaves: seq<Leaf>, i: nat, j: nat)
    requires i <= j <= |leaves| && forall k | 0 <= k < |leaves| :: leaves[k].1 > 0
    ensures Sum(leaves, i) <= Sum(leaves, j)
    decreases j
  {
    if i < j {
      SumGrows(leaves, i, j - 1);
    }
  }

  lemma {:induction false} LeafValuesAt(names: seq<string>, leaves: seq<Leaf>, i: nat)
    requires i < |leaves| && forall k | 0 <= k < |leaves| :: leaves[k].0 in names
    ensures LeafValues(names, leaves)[4 * i..4 * i + 4] == [0, leaves[i].1, leaves[i].1, IndexOf(names, leaves[i].0)]
  {
    assert (4 * i) % 4 == 0 && (4 * i + 1) % 4 == 1 && (4 * i + 2) % 4 == 2 && (4 * i + 3) % 4 == 3;
    assert (4 * i + 1) / 4 == i && (4 * i + 2) / 4 == i && (4 * i + 3) / 4 == i;
  }

  lemma {:induction false} LeafEnds(names: seq<string>, leaves: seq<Leaf>, i: nat)
    requires i <= |leaves| && forall k | 0 <= k < |leaves| :: leaves[k].0 in names
    ensures End(LeafValues(names, leaves), i) == Sum(leaves, i)
    decreases i
  {
    hide LeafValues;
    if i > 0 {
      LeafEnds(names, leaves, i - 1);
      LeafValuesAt(names, leaves, i - 1);
      var v := LeafValues(names, leaves);
      assert v[4 * i - 4..4 * i][0] == v[4 * i - 4] && v[4 * i - 4..4 * i][1] == v[4 * i - 3];
    }
  }

  lemma {:induction false} WeightIsInteger(leaves: seq<Leaf>, i: nat)
    requires Weights(leaves) && i < |leaves|
    ensures 0 < leaves[i].1 <= LIMIT && Sum(leaves, i + 1) <= Sum(leaves, |leaves|) && Sum(leaves, i) >= 0
  {
    SumGrows(leaves, 0, i);
    SumGrows(leaves, i + 1, |leaves|);
  }

  lemma {:induction false} LeafValuesAreIntegers(names: seq<string>, leaves: seq<Leaf>)
    requires Weights(leaves) && |names| <= LIMIT && forall k | 0 <= k < |leaves| :: leaves[k].0 in names
    ensures WellFormed(LeafValues(names, leaves))
  {
    forall k | 0 <= k < 4 * |leaves| ensures IsInteger(LeafValues(names, leaves)[k]) {
      WeightIsInteger(leaves, k / 4);
    }
  }

  lemma {:induction false} LeafPlaces(names: seq<string>, parent: string, leaves: seq<Leaf>, i: nat)
    requires Weights(leaves) && i < |leaves| && forall k | 0 <= k < |leaves| :: leaves[k].0 in names
    ensures Places(LeafValues(names, leaves), i, 2, names, Sum(leaves, |leaves|),
                   [Bar(0, Sum(leaves, |leaves|), 0, [parent])], LeafBars(parent, leaves)[i])
  {
    hide LeafValues;
    var total, v := Sum(leaves, |leaves|), LeafValues(names, leaves);
    var above, bar := [Bar(0, total, 0, [parent])], LeafBars(parent, leaves)[i];
    LeafEnds(names, leaves, i);
    LeafEnds(names, leaves, i + 1);
    LeafValuesAt(names, leaves, i);
    WeightIsInteger(leaves, i);
    var four := v[4 * i..4 * i + 4];
    assert four[0] == v[4 * i] && four[1] == v[4 * i + 1] && four[2] == v[4 * i + 2] && four[3] == v[4 * i + 3];
    assert OnlyOwner(above, bar.left, bar.right, 0);
    assert bar.path == above[0].path + [names[v[4 * i + 3]]];
  }

  lemma {:induction false} LeafLevel(names: seq<string>, parent: string, leaves: seq<Leaf>)
    requires Weights(leaves) && |names| <= LIMIT && forall k | 0 <= k < |leaves| :: leaves[k].0 in names
    ensures var total := Sum(leaves, |leaves|);
            Level(LeafValues(names, leaves), 2, names, total, [Bar(0, total, 0, [parent])], LeafBars(parent, leaves))
  {
    hide Places, LeafBars;
    LeafValuesAreIntegers(names, leaves);
    LeafEnds(names, leaves, |leaves|);
    forall i | 0 <= i < |leaves|
      ensures Places(LeafValues(names, leaves), i, 2, names, Sum(leaves, |leaves|),
                     [Bar(0, Sum(leaves, |leaves|), 0, [parent])], LeafBars(parent, leaves)[i])
    {
      LeafPlaces(names, parent, leaves, i);
    }
  }

  lemma {:induction false} WholeLevel(total: int, depth: nat, names: seq<string>, index: nat, above: seq<Bar>,
                                      path: seq<string>)
    requires 0 < total <= LIMIT && index < |names| <= LIMIT
    requires if depth == 0 then names[index] == "total" && path == []
             else
               && |above| == 1 && above[0].left == 0 && above[0].right == total
               && path == above[0].path + [names[index]]
    ensures Level([0, total, 0, index], depth, names, total, above, [Bar(0, total, 0, path)])
  {
    var values, bar := [0, total, 0, index], Bar(0, total, 0, path);
    assert End(values, 0) == 0 && End(values, 1) == total;
    if depth > 0 {
      assert OnlyOwner(above, 0, total, 0);
    }
    assert Places(values, 0, depth, names, total, above, bar);
  }

  lemma {:induction false} LeafStacks(parent: string, leaves: seq<Leaf>, n: nat)
    requires n <= |leaves| && forall k | 0 <= k < |leaves| :: leaves[k].1 > 0
    ensures Owned(LeafBars(parent, leaves)[..n]) == Stacks(parent, leaves)[..n]
    ensures MaxSelf(LeafBars(parent, leaves)[..n]) == Heaviest(leaves, n)
    decreases n
  {
    hide Owned, MaxSelf, LeafBars;
    if n == 0 {
      NothingPlaced(Graph([], [], 0, 0));
    } else {
      LeafStacks(parent, leaves, n - 1);
      var bars, stacks := LeafBars(parent, leaves), Stacks(parent, leaves);
      LeafBarAt(parent, leaves, n - 1);
      OwnedSnoc(bars[..n - 1], bars[n - 1]);
      assert bars[..n] == bars[..n - 1] + [bars[n - 1]];
      assert stacks[..n] == stacks[..n - 1] + [stacks[n - 1]];
    }
  }

  lemma {:induction false} LeafBarAt(parent: string, leaves: seq<Leaf>, i: nat)
    requires i < |leaves|
    ensures LeafBars(parent, leaves)[i].self == leaves[i].1 && LeafBars(parent, leaves)[i].path == [parent, leaves[i].0]
  {
  }

  lemma {:induction false} OwnedSnoc(bars: seq<Bar>, bar: Bar)
    ensures Owned(bars + [bar]) == if bar.self != 0 then Owned(bars) + [(bar.path, bar.self)] else Owned(bars)
    ensures MaxSelf(bars + [bar]) == Max(MaxSelf(bars), bar.self)
  {
    assert (bars + [bar])[..|bars|] == bars;
  }

  /** The bars of an encoded seed, level by level. */
  function Layout(parent: string, leaves: seq<Leaf>): seq<seq<Bar>> {
    var total := Sum(leaves, |leaves|);
    [[Bar(0, total, 0, [])], [Bar(0, total, 0, [parent])], LeafBars(parent, leaves)]
  }

  lemma {:induction false} LayoutPlaced(names: seq<string>, parent: string, leaves: seq<Leaf>)
    requires NameTable(names, parent, leaves) && Weights(leaves) && |leaves| == POINTS && |names| <= LIMIT
    ensures Placed(Encode(names, parent, leaves), Layout(parent, leaves))
  {
    hide Level, LeafBars, LeafValues, NameTable;
    var g, p, total := Encode(names, parent, leaves), Layout(parent, leaves), Sum(leaves, |leaves|);
    WeightIsInteger(leaves, 0);
    assert "total" in names && parent in names && forall k | 0 <= k < |leaves| :: leaves[k].0 in names by {
      TableHolds(names, parent, leaves);
    }
    WholeLevel(total, 0, names, IndexOf(names, "total"), [], []);
    assert Placed(g, []);
    PlacedSnoc(g, [], p[0]);
    assert [] + [p[0]] == [p[0]];
    WholeLevel(total, 1, names, IndexOf(names, parent), p[0], [parent]);
    PlacedSnoc(g, [p[0]], p[1]);
    assert [p[0]] + [p[1]] == [p[0], p[1]];
    LeafLevel(names, parent, leaves);
    PlacedSnoc(g, [p[0], p[1]], p[2]);
    assert [p[0], p[1]] + [p[2]] == p;
  }

  lemma {:induction false} TableHolds(names: seq<string>, parent: string, leaves: seq<Leaf>)
    requires NameTable(names, parent, leaves)
    ensures "total" in names && parent in names && forall k | 0 <= k < |leaves| :: leaves[k].0 in names
  {
  }

  lemma {:induction false} JoinedThree(a: seq<Bar>, b: seq<Bar>, c: seq<Bar>)
    ensures Flatten([a, b, c]) == a + b + c
  {
    assert [a, b, c][..2] == [a, b] && [a, b][..1] == [a] && [a][..0] == [];
    assert Flatten([a]) == [] + a == a;
    assert Flatten([a, b]) == a + b;
  }

  lemma {:induction false} NothingOwned(bar: Bar)
    requires bar.self == 0
    ensures Owned([bar]) == [] && MaxSelf([bar]) == 0
  {
    assert [bar][..0] == [];
  }

  lemma {:induction false} LayoutStacks(parent: string, leaves: seq<Leaf>)
    requires forall k | 0 <= k < |leaves| :: leaves[k].1 > 0
    ensures Owned(Flatten(Layout(parent, leaves))) == Stacks(parent, leaves)
    ensures MaxSelf(Flatten(Layout(parent, leaves))) == Heaviest(leaves, |leaves|)
  {
    hide LeafBars, Owned, MaxSelf, Heaviest;
    var total, bars := Sum(leaves, |leaves|), LeafBars(parent, leaves);
    var root, middle := Bar(0, total, 0, []), Bar(0, total, 0, [parent]);
    JoinedThree([root], [middle], bars);
    NothingOwned(root);
    NothingOwned(middle);
    OwnedJoins([root], [middle]);
    OwnedJoins([root] + [middle], bars);
    LeafStacks(parent, leaves, |leaves|);
    assert bars[..|leaves|] == bars && Stacks(parent, leaves)[..|leaves|] == Stacks(parent, leaves);
    NoneIsBelow(bars);
  }

  lemma {:induction false} IndexOfName(names: seq<string>, i: nat)
    requires Distinct(names) && i < |names|
    ensures IndexOf(names, names[i]) == i
  {
  }

  lemma {:induction false} UsedThree(a: seq<int>, b: seq<int>, c: seq<int>)
    ensures AllUsed([a, b, c]) == Used(a) + Used(b) + Used(c)
  {
    hide Used;
    assert [a, b, c][..2] == [a, b] && [a, b][..1] == [a] && [a][..0] == [];
    assert AllUsed([a]) == Used(a);
    assert AllUsed([a, b]) == Used(a) + Used(b);
  }

  lemma {:induction false} IsUsed(values: seq<int>, k: nat)
    requires 4 * k + 3 < |values|
    ensures values[4 * k + 3] in Used(values)
  {
    assert (4 * k + 3) % 4 == 3;
  }

  lemma {:induction false} EncodedUses(names: seq<string>, parent: string, leaves: seq<Leaf>)
    requires NameTable(names, parent, leaves)
    ensures AllUsed(Encode(names, parent, leaves).levels) == UpTo(|names|)
  {
    hide Used, AllUsed;
    var l := Encode(names, parent, leaves).levels;
    var used := Used(l[0]) + Used(l[1]) + Used(l[2]);
    UsedThree(l[0], l[1], l[2]);
    forall i | 0 <= i < |names| ensures i in used {
      IndexOfName(names, i);
      if k :| 0 <= k < |leaves| && leaves[k].0 == names[i] {
        assert (4 * k + 3) % 4 == 3 && (4 * k + 3) / 4 == k;
        IsUsed(l[2], k);
      } else {
        assert names[i] in names;
        IsUsed(l[0], 0);
        IsUsed(l[1], 0);
      }
    }
    forall i | i in used ensures 0 <= i < |names| {
      EncodedUsesNames(names, parent, leaves, i);
    }
  }

  lemma {:induction false} EncodedUsesNames(names: seq<string>, parent: string, leaves: seq<Leaf>, i: int)
    requires NameTable(names, parent, leaves)
    requires var l := Encode(names, parent, leaves).levels; i in Used(l[0]) + Used(l[1]) + Used(l[2])
    ensures 0 <= i < |names|
  {
    var v := LeafValues(names, leaves);
    if k :| 0 <= k < |v| && k % 4 == 3 && v[k] == i {
      assert i == IndexOf(names, leaves[k / 4].0);
    }
  }

  lemma {:induction false} HeaviestIsWeight(leaves: seq<Leaf>, n: nat)
    requires Weights(leaves) && n <= |leaves|
    ensures 0 <= Heaviest(leaves, n) <= LIMIT
    decreases n
  {
    if n > 0 {
      HeaviestIsWeight(leaves, n - 1);
      WeightIsInteger(leaves, n - 1);
    }
  }

  /** Decoding undoes encoding, up to the order of the stacks: for any positive
      weights, any order of the names and any order of the siblings. */
  lemma {:induction false} EncodeDecodes(names: seq<string>, parent: string, leaves: seq<Leaf>)
    requires NameTable(names, parent, leaves) && Weights(leaves) && |leaves| == POINTS && |names| <= LIMIT
    ensures Decodes(Encode(names, parent, leaves),
                    Decoded(Sum(leaves, |leaves|), Heaviest(leaves, |leaves|), Sort(Stacks(parent, leaves), StackLe)))
  {
    hide Placed, AllUsed, Owned, MaxSelf, Flatten, Layout, Sort, NameTable, LeafValues;
    LayoutPlaced(names, parent, leaves);
    LayoutStacks(parent, leaves);
    EncodedUses(names, parent, leaves);
    HeaviestIsWeight(leaves, |leaves|);
    WeightIsInteger(leaves, 0);
    assert Distinct(names) by { TableHasDistinct(names, parent, leaves); }
    assert |Layout(parent, leaves)| == 3 by { LayoutIsThree(parent, leaves); }
    assert DecodesVia(Encode(names, parent, leaves),
      Decoded(Sum(leaves, |leaves|), Heaviest(leaves, |leaves|), Sort(Stacks(parent, leaves), StackLe)),
      Layout(parent, leaves));
  }

  lemma {:induction false} TableHasDistinct(names: seq<string>, parent: string, leaves: seq<Leaf>)
    requires NameTable(names, parent, leaves)
    ensures Distinct(names)
  {
  }

  lemma {:induction false} LayoutIsThree(parent: string, leaves: seq<Leaf>)
    ensures |Layout(parent, leaves)| == 3
  {
  }

  lemma {:induction false} SumPrefix(leaves: seq<Leaf>, m: nat, n: nat)
    requires n <= m <= |leaves|
    ensures Sum(leaves[..m], n) == Sum(leaves, n) && Heaviest(leaves[..m], n) == Heaviest(leaves, n)
    decreases n
  {
    if n > 0 {
      SumPrefix(leaves, m, n - 1);
    }
  }

  /** Total and maximum of the leaves are those of all but one, and that one. */
  lemma {:induction false} TakeLeaf(leaves: seq<Leaf>, k: nat)
    requires k < |leaves|
    ensures var rest, n := Without(leaves, k), |leaves|;
            && Sum(leaves, n) == Sum(rest, n - 1) + leaves[k].1
            && Heaviest(leaves, n) == Max(Heaviest(rest, n - 1), leaves[k].1)
    decreases |leaves|
  {
    var rest, n := Without(leaves, k), |leaves|;
    var init := leaves[..n - 1];
    SumPrefix(leaves, n - 1, n - 1);
    if k == n - 1 {
      assert rest == init;
    } else {
      TakeLeaf(init, k);
      assert Without(init, k) == rest[..n - 2];
      SumPrefix(rest, n - 2, n - 2);
      assert rest[n - 2] == leaves[n - 1];
    }
  }

  lemma {:induction false} TotalsShuffle(a: seq<Leaf>, b: seq<Leaf>)
    requires multiset(a) == multiset(b)
    ensures |a| == |b| && Sum(a, |a|) == Sum(b, |b|) && Heaviest(a, |a|) == Heaviest(b, |b|)
    decreases |a|
  {
    hide Without, Sum, Heaviest;
    assert |a| == |multiset(a)| && |b| == |multiset(b)|;
    if a == [] {
      NoTotals(a);
      NoTotals(b);
    } else {
      Members(a, b, a[0]);
      var k :| 0 <= k < |b| && b[k] == a[0];
      TakeOne(a, 0);
      TakeOne(b, k);
      TotalsShuffle(Without(a, 0), Without(b, k));
      TakeLeaf(a, 0);
      TakeLeaf(b, k);
    }
  }

  lemma {:induction false} NoTotals(leaves: seq<Leaf>)
    requires leaves == []
    ensures Sum(leaves, 0) == 0 && Heaviest(leaves, 0) == 0
  {
  }

  /** Two responses for the same leaves read the same, however each orders its
      siblings and its names. */
  lemma {:induction false} OrderIsNoIdentity(names: seq<string>, others: seq<string>, parent: string,
                                             leaves: seq<Leaf>, shuffled: seq<Leaf>,
                                             a: Decoded, b: Decoded)
    requires NameTable(names, parent, leaves) && NameTable(others, parent, shuffled)
    requires Weights(leaves) && Weights(shuffled) && |leaves| == |shuffled| == POINTS
    requires |names| <= LIMIT && |others| <= LIMIT
    requires multiset(leaves) == multiset(shuffled)
    requires Decodes(Encode(names, parent, leaves), a) && Decodes(Encode(others, parent, shuffled), b)
    ensures a == b
  {
    hide Decodes, NameTable, Encode, Sort;
    EncodeDecodes(names, parent, leaves);
    EncodeDecodes(others, parent, shuffled);
    DecodesOnce(Encode(names, parent, leaves), a,
      Decoded(Sum(leaves, |leaves|), Heaviest(leaves, |leaves|), Sort(Stacks(parent, leaves), StackLe)));
    DecodesOnce(Encode(others, parent, shuffled), b,
      Decoded(Sum(shuffled, |shuffled|), Heaviest(shuffled, |shuffled|), Sort(Stacks(parent, shuffled), StackLe)));
    TotalsShuffle(leaves, shuffled);
    SameListing(parent, leaves, shuffled);
  }

  lemma {:induction false} SameListing(parent: string, leaves: seq<Leaf>, shuffled: seq<Leaf>)
    requires multiset(leaves) == multiset(shuffled)
    ensures Sort(Stacks(parent, leaves), StackLe) == Sort(Stacks(parent, shuffled), StackLe)
  {
    hide Sort;
    StacksShuffle(parent, leaves, shuffled);
    StackOrder();
    SortPermutes(Stacks(parent, shuffled), StackLe);
    SortSorts(Stacks(parent, shuffled), StackLe);
    SortOf(Stacks(parent, leaves), Sort(Stacks(parent, shuffled), StackLe), StackLe);
  }

  function StackOf(parent: string, leaf: Leaf): Stack { ([parent, leaf.0], leaf.1) }

  lemma {:induction false} CountStacks(parent: string, leaves: seq<Leaf>, leaf: Leaf)
    ensures multiset(Stacks(parent, leaves))[StackOf(parent, leaf)] == multiset(leaves)[leaf]
    decreases |leaves|
  {
    if leaves != [] {
      var init, last := leaves[..|leaves| - 1], leaves[|leaves| - 1];
      CountStacks(parent, init, leaf);
      assert leaves == init + [last];
      assert Stacks(parent, leaves) == Stacks(parent, init) + [StackOf(parent, last)];
    }
  }

  lemma {:induction false} StacksShuffle(parent: string, a: seq<Leaf>, b: seq<Leaf>)
    requires multiset(a) == multiset(b)
    ensures multiset(Stacks(parent, a)) == multiset(Stacks(parent, b))
  {
    forall s: Stack ensures multiset(Stacks(parent, a))[s] == multiset(Stacks(parent, b))[s] {
      if |s.0| == 2 && s.0[0] == parent {
        CountStacks(parent, a, (s.0[1], s.1));
        CountStacks(parent, b, (s.0[1], s.1));
        assert s.0 == [parent, s.0[1]];
      } else {
        assert s !in Stacks(parent, a) && s !in Stacks(parent, b);
        assert multiset(Stacks(parent, a))[s] == 0 && multiset(Stacks(parent, b))[s] == 0;
      }
    }
  }
}
