// The three-column layout (src/kwinscript/engine/layout/three_column_layout.ts).
//
// The first `masterSize` tiles form the master column. With exactly one
// more tile, that tile fills a stack column on the right; with more, the
// rest is split into a right stack (the next half, rounded down) and a left
// stack (the remainder), and the columns are weighted
// [1 - masterRatio, masterRatio, 1 - masterRatio] from left to right.

module ThreeColumn {
  import opened Types
  import opened Func
  import opened Geometry
  import opened LayoutUtils
  import opened LayoutPart
  import opened Window

  const MinMasterRatio: real := 0.2
  const MaxMasterRatio: real := 0.75

  // ---------------------------------------------------------------------------
  // Groups

  /** Size of the right stack: half of the tiles after the masters, rounded down. */
  function RStackSize(n: nat, masterSize: nat): nat
    requires masterSize <= n
  {
    (n - masterSize) / 2
  }

  /** The tiles cut into master, right-stack and left-stack groups, in list order. */
  function Groups<T>(tiles: seq<T>, masterSize: nat): (g: seq<seq<T>>)
    requires masterSize <= |tiles|
    ensures |g| == 3
    ensures g[0] == tiles[..masterSize]
    ensures g[1] == tiles[masterSize..masterSize + RStackSize(|tiles|, masterSize)]
    ensures g[2] == tiles[masterSize + RStackSize(|tiles|, masterSize)..]
  {
    var rs := RStackSize(|tiles|, masterSize);
    var sizes: seq<nat> := [masterSize, rs];
    PartitionArrayBySizesAt(tiles, sizes, 0);
    PartitionArrayBySizesAt(tiles, sizes, 1);
    PartitionArrayBySizesRest(tiles, sizes);
    assert sizes[..0] == [] && sizes[..1] == [masterSize] && sizes[..2] == sizes;
    assert [masterSize][..0] == [];
    assert SumNat([masterSize]) == masterSize;
    assert SumNat(sizes) == SumNat(sizes[..1]) + rs;
    assert tiles[0..masterSize] == tiles[..masterSize];
    PartitionArrayBySizes(tiles, sizes)
  }

  /**
   * The column adjust assigns a tile index to, with three columns:
   * 1 (master) for the masters, 2 (right stack) below
   * floor((masterSize + n) / 2), 0 (left stack) otherwise.
   */
  function BasisGroup(i: nat, masterSize: nat, n: nat): nat
  {
    if i < masterSize then 1
    else if i < (masterSize + n) / 2 then 2
    else 0
  }

  /** Where the group of a column starts and ends in the tile list. */
  function GroupStart(g: nat, masterSize: nat, n: nat): nat
    requires masterSize <= n
  {
    if g == 1 then 0 else if g == 2 then masterSize else masterSize + RStackSize(n, masterSize)
  }

  function GroupEnd(g: nat, masterSize: nat, n: nat): nat
    requires masterSize <= n
  {
    if g == 1 then masterSize else if g == 2 then masterSize + RStackSize(n, masterSize) else n
  }

  /** Position of a column's group among Groups: master 0, right stack 1, left stack 2. */
  function GroupSlot(g: nat): nat
  {
    if g == 1 then 0 else if g == 2 then 1 else 2
  }

  /**
   * adjust's group selection agrees with the partition apply uses: the
   * tile at index i is in the group of column BasisGroup(i), at offset
   * i - GroupStart, and every group is non-empty once there are two
   * tiles beyond the masters.
   */
  lemma BasisGroupMatchesPartition<T>(tiles: seq<T>, masterSize: nat, i: nat)
    requires masterSize + 1 < |tiles| && i < |tiles|
    ensures var n, g := |tiles|, BasisGroup(i, masterSize, |tiles|);
      GroupStart(g, masterSize, n) <= i < GroupEnd(g, masterSize, n) <= n
      && Groups(tiles, masterSize)[GroupSlot(g)] == tiles[GroupStart(g, masterSize, n)..GroupEnd(g, masterSize, n)]
      && Groups(tiles, masterSize)[GroupSlot(g)][i - GroupStart(g, masterSize, n)] == tiles[i]
    ensures RStackSize(|tiles|, masterSize) >= 1 && masterSize + RStackSize(|tiles|, masterSize) < |tiles|
  {
    var n := |tiles|;
    assert masterSize + RStackSize(n, masterSize) == (masterSize + n) / 2;
  }

  // ---------------------------------------------------------------------------
  // apply

  /** The master and stack ratios as weights of the three columns. */
  function ColumnWeights(masterRatio: real): (w: seq<real>)
    ensures |w| == 3 && w[0] == w[2] == 1.0 - masterRatio && w[1] == masterRatio
    ensures Sum(w) == 2.0 - masterRatio
  {
    SumThree(1.0 - masterRatio, masterRatio, 1.0 - masterRatio);
    [1.0 - masterRatio, masterRatio, 1.0 - masterRatio]
  }

  /** The left-stack, master and right-stack columns, split across the area by [1 - r, r, 1 - r]. */
  function ColumnAreas(area: Rect, masterRatio: real, gap: int): (cols: seq<Rect>)
    requires masterRatio != 2.0
    ensures |cols| == 3
    ensures forall i :: 0 <= i < 3 ==> cols[i].y == area.y && cols[i].height == area.height
  {
    SplitAreaWeighted(area, ColumnWeights(masterRatio), gap, true)
  }

  /** The two stack columns are equally wide, the left one starting at the area's left edge. */
  lemma SideColumnsMatch(area: Rect, masterRatio: real, gap: int)
    requires masterRatio != 2.0
    ensures var cols := ColumnAreas(area, masterRatio, gap);
      cols[0].width == cols[2].width && cols[0].x == area.x
      && cols[0].MaxX() + gap <= cols[1].x && cols[1].MaxX() + gap <= cols[2].x
  {
    var w := ColumnWeights(masterRatio);
    var line := Along(area, true);
    var parts := SplitWeighted(line, w, gap);
    var cols := ColumnAreas(area, masterRatio, gap);
    assert forall i :: 0 <= i < 3 ==> cols[i].x == parts[i].begin && cols[i].width == parts[i].length;
    assert parts[0] == PartAt(line, w, gap, 0) && parts[2] == PartAt(line, w, gap, 2);
    SplitStartsAtBegin(line, w, gap);
    SplitNoOverlap(line, w, gap, 0);
    SplitNoOverlap(line, w, gap, 1);
  }

  /**
   * What apply needs to produce a value: every run of tiles it splits by
   * weight has a non-zero weight sum (the source otherwise divides by zero).
   */
  predicate GeometriesDefined(masterSize: nat, weights: seq<real>)
  {
    var n := |weights|;
    if n <= masterSize then n > 0 ==> Sum(weights) != 0.0
    else if n == masterSize + 1 then masterSize > 0 ==> Sum(weights[..masterSize]) != 0.0
    else
      var groups := Groups(weights, masterSize);
      (|groups[0]| > 0 ==> Sum(groups[0]) != 0.0)
      && (|groups[1]| > 0 ==> Sum(groups[1]) != 0.0)
      && (|groups[2]| > 0 ==> Sum(groups[2]) != 0.0)
  }

  /** Tile geometries, in tile order, for the given weights. */
  function Geometries(masterRatio: real, masterSize: nat, gap: int, weights: seq<real>, area: Rect): (r: seq<Rect>)
    requires GeometriesDefined(masterSize, weights)
    requires |weights| > masterSize + 1 ==> masterRatio != 2.0
    ensures |r| == |weights|
  {
    var n := |weights|;
    if n <= masterSize then
      SplitAreaWeighted(area, weights, gap, false)
    else if n == masterSize + 1 then
      var halves := SplitAreaHalfWeighted(area, masterRatio, gap, true);
      SplitAreaWeighted(halves[0], weights[..masterSize], gap, false) + [halves[1]]
    else
      var cols := ColumnAreas(area, masterRatio, gap);
      var groups := Groups(weights, masterSize);
      SplitAreaWeighted(cols[1], groups[0], gap, false)
        + SplitAreaWeighted(cols[2], groups[1], gap, false)
        + SplitAreaWeighted(cols[0], groups[2], gap, false)
  }

  /** Up to masterSize tiles: one column spanning the area, split top to bottom by the weights. */
  lemma ApplyOneColumn(masterRatio: real, masterSize: nat, gap: int, weights: seq<real>, area: Rect)
    requires GeometriesDefined(masterSize, weights) && 0 < |weights| <= masterSize
    ensures var r := Geometries(masterRatio, masterSize, gap, weights, area);
      forall i :: 0 <= i < |r| ==>
        r[i].x == area.x && r[i].width == area.width
        && Segment(r[i].y, r[i].height) == SplitWeighted(Segment(area.y, area.height), weights, gap)[i]
  {
  }

  /**
   * One tile more than the masters: the area is halved by masterRatio, the
   * masters share the left half top to bottom, and the last tile gets the
   * whole right half.
   */
  lemma ApplyTwoColumns(masterRatio: real, masterSize: nat, gap: int, weights: seq<real>, area: Rect)
    requires GeometriesDefined(masterSize, weights) && |weights| == masterSize + 1
    ensures var r, halves := Geometries(masterRatio, masterSize, gap, weights, area), SplitAreaHalfWeighted(area, masterRatio, gap, true);
      r[masterSize] == halves[1]
      && (forall i :: 0 <= i < masterSize ==> r[i].x == halves[0].x && r[i].width == halves[0].width)
      && halves[0].x == area.x && halves[0].MaxX() + gap <= halves[1].x
  {
    var halves := SplitAreaHalfWeighted(area, masterRatio, gap, true);
    SplitAreaHalfWeightedParts(area, masterRatio, gap, true);
    var r := Geometries(masterRatio, masterSize, gap, weights, area);
    var masters := SplitAreaWeighted(halves[0], weights[..masterSize], gap, false);
    assert r == masters + [halves[1]];
    assert forall i :: 0 <= i < masterSize ==> r[i] == masters[i];
  }

  /**
   * Two or more tiles beyond the masters: every tile lies in the column of
   * its group (BasisGroup), spanning the column's width.
   */
  lemma ApplyThreeColumns(masterRatio: real, masterSize: nat, gap: int, weights: seq<real>, area: Rect, i: nat)
    requires GeometriesDefined(masterSize, weights) && |weights| > masterSize + 1 && masterRatio != 2.0 && i < |weights|
    ensures var r, cols := Geometries(masterRatio, masterSize, gap, weights, area), ColumnAreas(area, masterRatio, gap);
      var g := BasisGroup(i, masterSize, |weights|);
      r[i].x == cols[g].x && r[i].width == cols[g].width
  {
    var n := |weights|;
    var cols := ColumnAreas(area, masterRatio, gap);
    var groups := Groups(weights, masterSize);
    var m := SplitAreaWeighted(cols[1], groups[0], gap, false);
    var rs := SplitAreaWeighted(cols[2], groups[1], gap, false);
    var ls := SplitAreaWeighted(cols[0], groups[2], gap, false);
    var r := Geometries(masterRatio, masterSize, gap, weights, area);
    assert r == m + rs + ls;
    BasisGroupMatchesPartition(weights, masterSize, i);
    var k := RStackSize(n, masterSize);
    ConcatAt3(m, rs, ls, i);
    if i < masterSize {
      StackedInColumn(cols[1], groups[0], gap, i);
    } else if i < masterSize + k {
      StackedInColumn(cols[2], groups[1], gap, i - masterSize);
    } else {
      StackedInColumn(cols[0], groups[2], gap, i - masterSize - k);
    }
  }

  /** Element i of three lists put end to end, located in the list it comes from. */
  lemma ConcatAt3<T>(a: seq<T>, b: seq<T>, c: seq<T>, i: nat)
    requires i < |a| + |b| + |c|
    ensures (a + b + c)[i] == if i < |a| then a[i] else if i < |a| + |b| then b[i - |a|] else c[i - |a| - |b|]
  {
  }

  /** A tile stacked in a column spans the column's width. */
  lemma StackedInColumn(col: Rect, ws: seq<real>, gap: int, j: nat)
    requires |ws| > 0 ==> Sum(ws) != 0.0
    requires j < |ws|
    ensures SplitAreaWeighted(col, ws, gap, false)[j].x == col.x
    ensures SplitAreaWeighted(col, ws, gap, false)[j].width == col.width
  {
    var t := SplitAreaWeighted(col, ws, gap, false)[j];
    assert Across(t, false) == Across(col, false);
  }

  // ---------------------------------------------------------------------------
  // adjust

  /** The three column weights after resizing column g (they still add up to one). */
  function ResizedColumns(masterRatio: real, gap: int, g: nat, area: Rect, delta: RectDelta): (w: seq<real>)
    requires g < 3 && masterRatio != 2.0
    requires TotalLength(SplitWeighted(Along(area, true), ColumnWeights(masterRatio), gap)) != 0
    ensures |w| == 3 && Sum(w) == 1.0
  {
    AdjustAreaWeights(area, ColumnWeights(masterRatio), gap, g, delta, true)
  }

  /** The weight of the stack column next to the resized one: the left stack for column 0, the right stack otherwise. */
  function StackOf(w: seq<real>, g: nat): real
    requires |w| == 3
  {
    if g == 0 then w[0] else w[2]
  }

  /** The column resize divides by nothing that is zero. */
  predicate ColumnsResizable(masterRatio: real, gap: int, g: nat, area: Rect, delta: RectDelta)
    requires g < 3
  {
    masterRatio != 2.0
    && TotalLength(SplitWeighted(Along(area, true), ColumnWeights(masterRatio), gap)) != 0
    && var w := ResizedColumns(masterRatio, gap, g, area, delta);
       w[1] + StackOf(w, g) != 0.0
  }

  /** The new master ratio: the master's part of the master and the stack next to the resized column. */
  function NewColumnRatio(masterRatio: real, gap: int, g: nat, area: Rect, delta: RectDelta): real
    requires g < 3 && ColumnsResizable(masterRatio, gap, g, area, delta)
  {
    var w := ResizedColumns(masterRatio, gap, g, area, delta);
    w[1] / (w[1] + StackOf(w, g))
  }

  /** A group's weight re-computation divides by nothing that is zero. */
  predicate GroupResizable(area: Rect, group: seq<real>, gap: int)
  {
    Sum(group) != 0.0 && TotalLength(SplitWeighted(Along(area, false), group, gap)) != 0
  }

  /** A group's weights after resizing its k-th tile, scaled so that they add up to the group's size. */
  function ResizedGroup(area: Rect, group: seq<real>, gap: int, k: nat, delta: RectDelta): (r: seq<real>)
    requires k < |group| && GroupResizable(area, group, gap)
    ensures |r| == |group| && Sum(r) == |group| as real
  {
    var w := AdjustAreaWeights(area, group, gap, k, delta, false);
    SumScaled(w, |group| as real);
    Scale(w, |group| as real)
  }

  /** The group of column BasisGroup(i) holds tile i. */
  lemma {:induction false} BasisGroupBounds(i: nat, masterSize: nat, n: nat)
    requires i < n && masterSize + 1 < n
    ensures var g := BasisGroup(i, masterSize, n);
      g < 3 && GroupStart(g, masterSize, n) <= i < GroupEnd(g, masterSize, n) <= n
  {
    assert masterSize + RStackSize(n, masterSize) == (masterSize + n) / 2;
  }

  /** The three-column resize divides by nothing that is zero. */
  predicate ThreeColumnsComputable(masterRatio: real, masterSize: nat, gap: int, weights: seq<real>, basisIndex: nat, area: Rect, delta: RectDelta)
    requires basisIndex < |weights| && |weights| > masterSize + 1
  {
    var n := |weights|;
    var g := BasisGroup(basisIndex, masterSize, n);
    BasisGroupBounds(basisIndex, masterSize, n);
    ColumnsResizable(masterRatio, gap, g, area, delta)
    && GroupResizable(area, weights[GroupStart(g, masterSize, n)..GroupEnd(g, masterSize, n)], gap)
  }

  /**
   * With three columns: the new master ratio, and the weights with the
   * basis's group resized.
   */
  function ThreeColumnsResult(masterRatio: real, masterSize: nat, gap: int, weights: seq<real>, basisIndex: nat, area: Rect, delta: RectDelta): (r: (real, seq<real>))
    requires basisIndex < |weights| && |weights| > masterSize + 1
    requires ThreeColumnsComputable(masterRatio, masterSize, gap, weights, basisIndex, area, delta)
  {
    var n := |weights|;
    var g := BasisGroup(basisIndex, masterSize, n);
    BasisGroupBounds(basisIndex, masterSize, n);
    var start, end := GroupStart(g, masterSize, n), GroupEnd(g, masterSize, n);
    var newGroup := ResizedGroup(area, weights[start..end], gap, basisIndex - start, delta);
    (NewColumnRatio(masterRatio, gap, g, area, delta), weights[..start] + newGroup + weights[end..])
  }

  /**
   * The quotients and sums the adjustment divides by are non-zero (the
   * source computes NaN weights otherwise).
   */
  predicate AdjustComputable(masterRatio: real, masterSize: nat, gap: int, weights: seq<real>, basisIndex: nat, area: Rect, delta: RectDelta)
    requires basisIndex < |weights|
  {
    var n := |weights|;
    if n <= masterSize then
      GroupResizable(area, weights, gap)
    else if n == masterSize + 1 then
      HalfSplitTotal(area, masterRatio, gap, true) != 0
      && (basisIndex < masterSize ==> GroupResizable(area, weights[..masterSize], gap))
    else
      ThreeColumnsComputable(masterRatio, masterSize, gap, weights, basisIndex, area, delta)
  }

  /**
   * What adjust computes for a listed basis: the new master ratio and the
   * tiles' new weights.
   */
  function AdjustResult(masterRatio: real, masterSize: nat, gap: int, weights: seq<real>, basisIndex: nat, area: Rect, delta: RectDelta): (r: (real, seq<real>))
    requires basisIndex < |weights|
    requires AdjustComputable(masterRatio, masterSize, gap, weights, basisIndex, area, delta)
    ensures |r.1| == |weights|
  {
    var n := |weights|;
    if n <= masterSize then
      (masterRatio, ResizedGroup(area, weights, gap, basisIndex, delta))
    else if n == masterSize + 1 then
      var ratio := AdjustAreaHalfWeights(area, masterRatio, gap, if basisIndex < masterSize then 0 else 1, delta, true);
      if basisIndex < masterSize then
        (ratio, ResizedGroup(area, weights[..masterSize], gap, basisIndex, delta) + weights[masterSize..])
      else (ratio, weights)
    else
      ThreeColumnsResult(masterRatio, masterSize, gap, weights, basisIndex, area, delta)
  }

  /** One column: the ratio stays, and the new weights of all tiles add up to their number. */
  lemma AdjustOneColumn(masterRatio: real, masterSize: nat, gap: int, weights: seq<real>, basisIndex: nat, area: Rect, delta: RectDelta)
    requires basisIndex < |weights| <= masterSize
    requires AdjustComputable(masterRatio, masterSize, gap, weights, basisIndex, area, delta)
    ensures var r := AdjustResult(masterRatio, masterSize, gap, weights, basisIndex, area, delta);
      r.0 == masterRatio && Sum(r.1) == |weights| as real
  {
  }

  /**
   * Two columns: the new ratio is the first of the two resized half
   * weights (the other being one minus it); the masters are re-weighted,
   * to a sum equal to their number, only when the basis is one of them;
   * the stack tile keeps its weight.
   */
  lemma AdjustTwoColumns(masterRatio: real, masterSize: nat, gap: int, weights: seq<real>, basisIndex: nat, area: Rect, delta: RectDelta)
    requires basisIndex < |weights| == masterSize + 1
    requires AdjustComputable(masterRatio, masterSize, gap, weights, basisIndex, area, delta)
    ensures var r := AdjustResult(masterRatio, masterSize, gap, weights, basisIndex, area, delta);
      var w := AdjustAreaWeights(area, HalfWeights(masterRatio), gap, if basisIndex < masterSize then 0 else 1, delta, true);
      r.0 == w[0] && w[1] == 1.0 - r.0
      && r.1[masterSize] == weights[masterSize]
      && (basisIndex < masterSize ==> Sum(r.1[..masterSize]) == masterSize as real)
      && (basisIndex == masterSize ==> r.1 == weights)
  {
    if basisIndex < masterSize {
      var r := AdjustResult(masterRatio, masterSize, gap, weights, basisIndex, area, delta).1;
      var newGroup := ResizedGroup(area, weights[..masterSize], gap, basisIndex, delta);
      assert r == newGroup + weights[masterSize..];
      assert r[..masterSize] == newGroup;
    }
  }

  /**
   * Three columns: the basis lies in its column's group; that group's new
   * weights add up to its size and every other tile keeps its weight.
   */
  lemma AdjustThreeColumnsWeights(masterRatio: real, masterSize: nat, gap: int, weights: seq<real>, basisIndex: nat, area: Rect, delta: RectDelta)
    requires basisIndex < |weights| && |weights| > masterSize + 1
    requires ThreeColumnsComputable(masterRatio, masterSize, gap, weights, basisIndex, area, delta)
    ensures var n, r := |weights|, ThreeColumnsResult(masterRatio, masterSize, gap, weights, basisIndex, area, delta).1;
      var g := BasisGroup(basisIndex, masterSize, n);
      var start, end := GroupStart(g, masterSize, n), GroupEnd(g, masterSize, n);
      start <= basisIndex < end <= n == |r|
      && Sum(r[start..end]) == (end - start) as real
      && (forall j :: 0 <= j < n && !(start <= j < end) ==> r[j] == weights[j])
  {
    var n := |weights|;
    var g := BasisGroup(basisIndex, masterSize, n);
    BasisGroupBounds(basisIndex, masterSize, n);
    var start, end := GroupStart(g, masterSize, n), GroupEnd(g, masterSize, n);
    var r := ThreeColumnsResult(masterRatio, masterSize, gap, weights, basisIndex, area, delta).1;
    var newGroup := ResizedGroup(area, weights[start..end], gap, basisIndex - start, delta);
    assert r == weights[..start] + newGroup + weights[end..];
    Spliced(weights, start, end, newGroup);
  }

  /** Putting `mid` in place of w[start..end] changes that stretch and nothing else. */
  lemma Spliced(w: seq<real>, start: nat, end: nat, mid: seq<real>)
    requires start <= end <= |w| && |mid| == end - start
    ensures var r := w[..start] + mid + w[end..];
      |r| == |w| && r[start..end] == mid
      && (forall j :: 0 <= j < |w| && !(start <= j < end) ==> r[j] == w[j])
  {
    var r := w[..start] + mid + w[end..];
    assert r[start..end] == mid;
  }

  /**
   * Three columns: the new ratio lies strictly between 0 and 1 when the
   * resized master and stack columns keep positive weights.
   */
  lemma AdjustThreeColumnsRatio(masterRatio: real, masterSize: nat, gap: int, weights: seq<real>, basisIndex: nat, area: Rect, delta: RectDelta)
    requires basisIndex < |weights| && |weights| > masterSize + 1
    requires ThreeColumnsComputable(masterRatio, masterSize, gap, weights, basisIndex, area, delta)
    ensures var g := BasisGroup(basisIndex, masterSize, |weights|);
      var w, r := ResizedColumns(masterRatio, gap, g, area, delta), ThreeColumnsResult(masterRatio, masterSize, gap, weights, basisIndex, area, delta).0;
      r == w[1] / (w[1] + StackOf(w, g))
      && (w[1] > 0.0 && StackOf(w, g) > 0.0 ==> 0.0 < r < 1.0)
  {
    ThreeColumnsRatioIsNew(masterRatio, masterSize, gap, weights, basisIndex, area, delta);
    NewColumnRatioBetween(masterRatio, gap, BasisGroup(basisIndex, masterSize, |weights|), area, delta);
  }

  lemma ThreeColumnsRatioIsNew(masterRatio: real, masterSize: nat, gap: int, weights: seq<real>, basisIndex: nat, area: Rect, delta: RectDelta)
    requires basisIndex < |weights| && |weights| > masterSize + 1
    requires ThreeColumnsComputable(masterRatio, masterSize, gap, weights, basisIndex, area, delta)
    ensures var g := BasisGroup(basisIndex, masterSize, |weights|);
      g < 3 && ColumnsResizable(masterRatio, gap, g, area, delta)
      && ThreeColumnsResult(masterRatio, masterSize, gap, weights, basisIndex, area, delta).0 == NewColumnRatio(masterRatio, gap, g, area, delta)
  {
    BasisGroupBounds(basisIndex, masterSize, |weights|);
  }

  lemma NewColumnRatioBetween(masterRatio: real, gap: int, g: nat, area: Rect, delta: RectDelta)
    requires g < 3 && ColumnsResizable(masterRatio, gap, g, area, delta)
    ensures var w := ResizedColumns(masterRatio, gap, g, area, delta);
      var r := NewColumnRatio(masterRatio, gap, g, area, delta);
      r == w[1] / (w[1] + StackOf(w, g))
      && (w[1] > 0.0 && StackOf(w, g) > 0.0 ==> 0.0 < r < 1.0)
  {
    var w := ResizedColumns(masterRatio, gap, g, area, delta);
    if w[1] > 0.0 && StackOf(w, g) > 0.0 {
      RatioBetween(w[1], StackOf(w, g));
    }
  }

  lemma RatioBetween(a: real, b: real)
    requires a > 0.0 && b > 0.0
    ensures 0.0 < a / (a + b) < 1.0
  {
    assert a / (a + b) * (a + b) == a;
  }

  // ---------------------------------------------------------------------------
  // The layout object

  /**
   * The tiles whose weights adjust stores, as a range of positions: all of
   * them with one column; the masters, when the basis is one of them, with
   * two; the basis's group with three.
   */
  function WrittenTiles(masterSize: nat, n: nat, basisIndex: nat): (r: (nat, nat))
    requires basisIndex < n
    ensures r.0 <= r.1 <= n
    ensures r.0 < r.1 ==> r.0 <= basisIndex < r.1
  {
    if n <= masterSize then (0, n)
    else if n == masterSize + 1 then (if basisIndex < masterSize then (0, masterSize) else (0, 0))
    else
      var g := BasisGroup(basisIndex, masterSize, n);
      BasisGroupBounds(basisIndex, masterSize, n);
      (GroupStart(g, masterSize, n), GroupEnd(g, masterSize, n))
  }

  /** Every tile outside WrittenTiles keeps its weight in AdjustResult. */
  lemma AdjustWritesOnly(masterRatio: real, masterSize: nat, gap: int, weights: seq<real>, basisIndex: nat, area: Rect, delta: RectDelta)
    requires basisIndex < |weights|
    requires AdjustComputable(masterRatio, masterSize, gap, weights, basisIndex, area, delta)
    ensures var r, written := AdjustResult(masterRatio, masterSize, gap, weights, basisIndex, area, delta).1,
                              WrittenTiles(masterSize, |weights|, basisIndex);
      forall j :: 0 <= j < |weights| && !(written.0 <= j < written.1) ==> r[j] == weights[j]
  {
    var n := |weights|;
    if n == masterSize + 1 {
      AdjustTwoColumns(masterRatio, masterSize, gap, weights, basisIndex, area, delta);
    } else if n > masterSize + 1 {
      AdjustThreeColumnsWeights(masterRatio, masterSize, gap, weights, basisIndex, area, delta);
    }
  }

  class ThreeColumnLayout {
    const config: Config
    var masterRatio: real
    var masterSize: nat

    /** The master column holds between 1 and 10 tiles. */
    predicate Valid()
      reads this
    {
      1 <= masterSize <= 10
    }

    constructor (config: Config)
      ensures Valid() && this.config == config && masterRatio == 0.6 && masterSize == 1
    {
      this.config := config;
      masterRatio := 0.6;
      masterSize := 1;
    }

    /** A copy with the same ratio and master size. */
    method Clone() returns (other: ThreeColumnLayout)
      ensures fresh(other)
      ensures other.config == config && other.masterRatio == masterRatio && other.masterSize == masterSize
    {
      other := new ThreeColumnLayout(config);
      other.masterRatio := masterRatio;
      other.masterSize := masterSize;
    }

    /**
     * Tiles every tileable, then gives each the geometry of its position,
     * computed from the tiles' weights on their current surfaces.
     */
    method Apply(tileables: seq<EngineWindow>, area: Rect)
      requires DistinctWindows(tileables) && GeometriesDefined(masterSize, WeightsOf(tileables))
      requires |tileables| > masterSize + 1 ==> masterRatio != 2.0
      modifies set w | w in tileables
      ensures forall i :: 0 <= i < |tileables| ==>
        AskedFor(tileables[i], Tiled)
        && tileables[i].geometry == Geometries(masterRatio, masterSize, config.tileLayoutGap, old(WeightsOf(tileables)), area)[i]
    {
      SetStates(tileables, Tiled);
      var weights := WeightsOf(tileables);
      assert weights == old(WeightsOf(tileables));
      var geometries := Geometries(masterRatio, masterSize, config.tileLayoutGap, weights, area);
      SetGeometries(tileables, geometries);
    }

    /**
     * Resizes the basis tile, the one at `basisIndex` (negative when it is
     * not listed, which changes nothing): the master ratio becomes
     * AdjustResult's, and the tiles in WrittenTiles store their new weights
     * on their current surfaces through the weight setter, so that the
     * tiles' weights become AdjustResult's; every other tile is untouched.
     */
    method Adjust(area: Rect, tiles: seq<EngineWindow>, basisIndex: int, delta: RectDelta)
      requires DistinctWindows(tiles) && basisIndex < |tiles|
      requires basisIndex >= 0 ==> AdjustComputable(masterRatio, masterSize, config.tileLayoutGap, WeightsOf(tiles), basisIndex, area, delta)
      modifies this, set w | w in tiles
      ensures masterSize == old(masterSize)
      ensures basisIndex < 0 ==> masterRatio == old(masterRatio) && forall i :: 0 <= i < |tiles| ==> unchanged(tiles[i])
      ensures basisIndex >= 0 ==>
        var written := WrittenTiles(masterSize, |tiles|, basisIndex);
        var r := AdjustResult(old(masterRatio), masterSize, config.tileLayoutGap, old(WeightsOf(tiles)), basisIndex, area, delta);
        masterRatio == r.0 && WeightsOf(tiles) == r.1 && StoredWeights(tiles, written.0, written.1, r.1)
    {
      if basisIndex < 0 {
        return;
      }
      var weights := WeightsOf(tiles);
      var r := AdjustResult(masterRatio, masterSize, config.tileLayoutGap, weights, basisIndex, area, delta);
      var written := WrittenTiles(masterSize, |tiles|, basisIndex);
      AdjustWritesOnly(masterRatio, masterSize, config.tileLayoutGap, weights, basisIndex, area, delta);
      Store(r.0, tiles, written.0, written.1, r.1);
    }

    /**
     * Stores the outcome of a resize: the master ratio, and the weights of
     * the tiles at [lo, hi) (see SetWeights); the master size is kept.
     */
    method Store(ratio: real, tiles: seq<EngineWindow>, lo: nat, hi: nat, weights: seq<real>)
      requires DistinctWindows(tiles) && lo <= hi <= |tiles| && |weights| == |tiles|
      requires forall i :: 0 <= i < |tiles| && !(lo <= i < hi) ==> weights[i] == WeightsOf(tiles)[i]
      modifies this, set w | w in tiles
      ensures masterRatio == ratio && masterSize == old(masterSize)
      ensures StoredWeights(tiles, lo, hi, weights) && WeightsOf(tiles) == weights
    {
      SetWeights(tiles, lo, hi, weights);
      masterRatio := ratio;
    }

    /** Changes the master column's size by one, within 1 to 10. */
    method ResizeMaster(step: Step)
      modifies this
      ensures masterSize == ClipInt(old(masterSize) + step, 1, 10) && Valid()
      ensures masterRatio == old(masterRatio)
    {
      masterSize := ClipInt(masterSize + step, 1, 10);
    }

    /**
     * The actions this layout handles: master count changes resize the
     * master column, master size changes slide the ratio by 0.05 within
     * [0.2, 0.75]. Returns false for any other action, which the engine
     * then handles.
     */
    method ExecuteAction(action: Action) returns (handled: bool)
      modifies this
      ensures handled <==> action.IncreaseMasterAreaWindowCount? || action.DecreaseMasterAreaWindowCount?
                           || action.IncreaseLayoutMasterAreaSize? || action.DecreaseLayoutMasterAreaSize?
      ensures action == IncreaseMasterAreaWindowCount ==> masterSize == ClipInt(old(masterSize) + 1, 1, 10) && masterRatio == old(masterRatio)
      ensures action == DecreaseMasterAreaWindowCount ==> masterSize == ClipInt(old(masterSize) - 1, 1, 10) && masterRatio == old(masterRatio)
      ensures action == DecreaseLayoutMasterAreaSize ==>
        masterRatio == Clip(Slide(old(masterRatio), -0.05), MinMasterRatio, MaxMasterRatio) && masterSize == old(masterSize)
      ensures action == IncreaseLayoutMasterAreaSize ==>
        masterRatio == Clip(Slide(old(masterRatio), 0.05), MinMasterRatio, MaxMasterRatio) && masterSize == old(masterSize)
      ensures action.IncreaseLayoutMasterAreaSize? || action.DecreaseLayoutMasterAreaSize? ==>
        MinMasterRatio <= masterRatio <= MaxMasterRatio
      ensures !handled ==> masterRatio == old(masterRatio) && masterSize == old(masterSize)
      ensures old(Valid()) || action.IncreaseMasterAreaWindowCount? || action.DecreaseMasterAreaWindowCount? ==> Valid()
    {
      handled := true;
      match action {
        case IncreaseMasterAreaWindowCount => ResizeMaster(1);
        case DecreaseMasterAreaWindowCount => ResizeMaster(-1);
        case DecreaseLayoutMasterAreaSize =>
          masterRatio := Clip(Slide(masterRatio, -0.05), MinMasterRatio, MaxMasterRatio);
        case IncreaseLayoutMasterAreaSize =>
          masterRatio := Clip(Slide(masterRatio, 0.05), MinMasterRatio, MaxMasterRatio);
        case _ => handled := false;
      }
    }
  }
}
