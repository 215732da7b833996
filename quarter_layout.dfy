// The quarter layout (src/kwinscript/engine/layout/quarter_layout.ts).
//
// Up to four tiles: the area is cut into a left and a right column at
// `vsplit`, and each column into a top and a bottom cell at its own
// horizontal split (`lhsplit`, `rhsplit`). Tile 0 is top-left, 1 top-right,
// 2 bottom-right and 3 bottom-left; tiles beyond the fourth float above.

module Quarter {
  import opened Types
  import opened Func
  import opened Geometry
  import opened Window

  /** The most tiles the layout arranges. */
  const Capacity: nat := 4

  /** No split moves closer than 1 - MaxProportion to either edge. */
  const MaxProportion: real := 0.8

  /** The vertical split and the left and right horizontal splits, as fractions of the area. */
  datatype Splits = Splits(vsplit: real, lhsplit: real, rhsplit: real)

  // ---------------------------------------------------------------------------
  // apply

  /** The half of the gap left of (or above) a split line: the smaller half. */
  function NearGap(gap: int): int { gap / 2 }

  /** The half of the gap right of (or below) a split line. */
  function FarGap(gap: int): (r: int)
    ensures NearGap(gap) + r == gap
    ensures NearGap(gap) <= r <= NearGap(gap) + 1
  {
    gap - NearGap(gap)
  }

  /** Where a split at fraction `split` falls along a length, rounded down. */
  function SplitAt(length: int, split: real): int
  {
    (length as real * split).Floor
  }

  /** The bottom-left cell as the source computes it: its right edge is inset by the far half of the gap. */
  function BottomLeftAsWritten(area: Rect, leftWidth: int, leftTopHeight: int, gap: int): (r: Rect)
    ensures r.x == area.x && r.MaxX() == area.x + leftWidth - FarGap(gap)
    ensures r.y == area.y + leftTopHeight + FarGap(gap) && r.MaxY() == area.MaxY()
  {
    Rect(area.x, area.y + leftTopHeight, leftWidth, area.height - leftTopHeight).Gap(0, FarGap(gap), FarGap(gap), 0)
  }

  /** The bottom-left cell with its right edge inset by the near half of the gap, like the top-left cell's. */
  function BottomLeft(area: Rect, leftWidth: int, leftTopHeight: int, gap: int): (r: Rect)
    ensures r.x == area.x && r.MaxX() == area.x + leftWidth - NearGap(gap)
    ensures r.y == area.y + leftTopHeight + FarGap(gap) && r.MaxY() == area.MaxY()
  {
    Rect(area.x, area.y + leftTopHeight, leftWidth, area.height - leftTopHeight).Gap(0, NearGap(gap), FarGap(gap), 0)
  }

  /** The geometries of the first min(n, 4) tiles. */
  function Geometries(area: Rect, gap: int, s: Splits, n: nat): (r: seq<Rect>)
    ensures |r| == Min(n, Capacity)
  {
    var gap1, gap2 := NearGap(gap), FarGap(gap);
    var leftWidth := SplitAt(area.width, s.vsplit);
    var rightWidth := area.width - leftWidth;
    var rightX := area.x + leftWidth;
    var rightTopHeight := SplitAt(area.height, s.rhsplit);
    var rightBottomY := area.y + rightTopHeight;
    var leftTopHeight := SplitAt(area.height, s.lhsplit);
    if n == 0 then []
    else if n == 1 then [area]
    else if n == 2 then
      [ Rect(area.x, area.y, leftWidth, area.height).Gap(0, gap1, 0, 0),
        Rect(rightX, area.y, rightWidth, area.height).Gap(gap2, 0, 0, 0) ]
    else if n == 3 then
      [ Rect(area.x, area.y, leftWidth, area.height).Gap(0, gap1, 0, 0),
        Rect(rightX, area.y, rightWidth, rightTopHeight).Gap(gap2, 0, 0, gap1),
        Rect(rightX, rightBottomY, rightWidth, area.height - rightTopHeight).Gap(gap2, 0, gap2, 0) ]
    else
      [ Rect(area.x, area.y, leftWidth, leftTopHeight).Gap(0, gap1, 0, gap1),
        Rect(rightX, area.y, rightWidth, rightTopHeight).Gap(gap2, 0, 0, gap1),
        Rect(rightX, rightBottomY, rightWidth, area.height - rightTopHeight).Gap(gap2, 0, gap2, 0),
        BottomLeft(area, leftWidth, leftTopHeight, gap) ]
  }

  /** A single tile takes the whole area. */
  lemma OneTile(area: Rect, gap: int, s: Splits)
    ensures Geometries(area, gap, s, 1) == [area]
  {
  }

  /**
   * Two tiles side by side: both span the area's height, the left one from
   * its west edge and the right one to its east edge, one gap apart; the
   * two widths and the gap make up the area's width.
   */
  lemma TwoTiles(area: Rect, gap: int, s: Splits)
    ensures var r := Geometries(area, gap, s, 2);
      r[0].x == area.x && r[1].MaxX() == area.MaxX()
      && r[0].MaxX() + gap == r[1].x
      && r[0].width + gap + r[1].width == area.width
      && r[0].MaxX() == area.x + SplitAt(area.width, s.vsplit) - NearGap(gap)
      && forall i :: 0 <= i < 2 ==> r[i].y == area.y && r[i].height == area.height
  {
  }

  /**
   * Three tiles: the left one spans the area's height; the right column is
   * cut at rhsplit into a top and a bottom cell one gap apart, the bottom
   * one reaching the area's south edge.
   */
  lemma ThreeTiles(area: Rect, gap: int, s: Splits)
    ensures var r := Geometries(area, gap, s, 3);
      r[0].x == area.x && r[0].y == area.y && r[0].height == area.height
      && r[0].MaxX() + gap == r[1].x && r[1].x == r[2].x && r[1].MaxX() == r[2].MaxX() == area.MaxX()
      && r[1].y == area.y && r[1].MaxY() + gap == r[2].y && r[2].MaxY() == area.MaxY()
      && r[1].MaxY() == area.y + SplitAt(area.height, s.rhsplit) - NearGap(gap)
  {
  }

  /**
   * Four tiles: two columns one gap apart, each cut into a top and a bottom
   * cell one gap apart; the left cells are aligned with each other, as are
   * the right ones, and together they reach every edge of the area.
   */
  lemma FourTiles(area: Rect, gap: int, s: Splits, n: nat)
    requires n >= 4
    ensures var r := Geometries(area, gap, s, n);
      r[0].x == r[3].x == area.x && r[0].MaxX() == r[3].MaxX()
      && r[1].x == r[2].x && r[1].MaxX() == r[2].MaxX() == area.MaxX()
      && r[0].MaxX() + gap == r[1].x && r[3].MaxX() + gap == r[2].x
      && r[0].y == r[1].y == area.y && r[2].MaxY() == r[3].MaxY() == area.MaxY()
      && r[0].MaxY() + gap == r[3].y && r[1].MaxY() + gap == r[2].y
  {
  }

  /**
   * As written, the bottom-left cell loses the far half of the gap on its
   * right instead of the near half: with an odd gap it ends one pixel left
   * of the top-left cell, two gaps and a pixel from its right neighbour.
   */
  lemma BottomLeftAsWrittenMisaligned(area: Rect, gap: int, s: Splits)
    requires gap % 2 == 1
    ensures var r := Geometries(area, gap, s, 4);
      var aw := BottomLeftAsWritten(area, SplitAt(area.width, s.vsplit), SplitAt(area.height, s.lhsplit), gap);
      aw.MaxX() == r[0].MaxX() - 1 && aw.MaxX() + gap + 1 == r[2].x
  {
  }

  // ---------------------------------------------------------------------------
  // adjust

  /** A split whose pixel position along `length` moves by `move`. */
  function Dragged(split: real, length: int, move: int): real
    requires length != 0
  {
    (SplitAt(length, split) + move) as real / length as real
  }

  /** A dragged split lands exactly `move` pixels from where it was. */
  lemma DraggedMovesBy(split: real, length: int, move: int)
    requires length != 0
    ensures SplitAt(length, Dragged(split, length, move)) == SplitAt(length, split) + move
  {
    var target := (SplitAt(length, split) + move) as real;
    assert length as real * (target / length as real) == target;
  }

  /** The split kept within [1 - MaxProportion, MaxProportion]. */
  function ClipSplit(split: real): (r: real)
    ensures 1.0 - MaxProportion <= r <= MaxProportion
    ensures 1.0 - MaxProportion <= split <= MaxProportion ==> r == split
  {
    Clip(split, 1.0 - MaxProportion, MaxProportion)
  }

  /** Resizing a left tile on its east edge, or a right tile on its west edge, drags the vertical split. */
  predicate MovesVertical(idx: int, delta: RectDelta)
  {
    ((idx == 0 || idx == 3) && delta.east != 0) || ((idx == 1 || idx == 2) && delta.west != 0)
  }

  /** With four tiles, resizing the top-left tile on its south edge or the bottom-left on its north edge drags the left split. */
  predicate MovesLeft(n: nat, idx: int, delta: RectDelta)
  {
    n == 4 && ((idx == 0 && delta.south != 0) || (idx == 3 && delta.north != 0))
  }

  /** With three or more tiles, resizing the top-right tile on its south edge or the bottom-right on its north edge drags the right split. */
  predicate MovesRight(n: nat, idx: int, delta: RectDelta)
  {
    n >= 3 && ((idx == 1 && delta.south != 0) || (idx == 2 && delta.north != 0))
  }

  /** The area's sides that adjust divides by are non-zero. */
  predicate AdjustComputable(n: nat, idx: int, area: Rect, delta: RectDelta)
  {
    (MovesVertical(idx, delta) ==> area.width != 0)
    && (MovesLeft(n, idx, delta) || MovesRight(n, idx, delta) ==> area.height != 0)
  }

  /** The splits after resizing tile idx of n by delta. */
  function AdjustedSplits(s: Splits, n: nat, idx: int, area: Rect, delta: RectDelta): Splits
    requires AdjustComputable(n, idx, area, delta)
  {
    if n <= 1 || n > Capacity || idx < 0 then s
    else
      var v := if !MovesVertical(idx, delta) then s.vsplit
               else if idx == 0 || idx == 3 then Dragged(s.vsplit, area.width, delta.east)
               else Dragged(s.vsplit, area.width, -delta.west);
      var l := if !MovesLeft(n, idx, delta) then s.lhsplit
               else if idx == 0 then Dragged(s.lhsplit, area.height, delta.south)
               else Dragged(s.lhsplit, area.height, -delta.north);
      var r := if !MovesRight(n, idx, delta) then s.rhsplit
               else if idx == 1 then Dragged(s.rhsplit, area.height, delta.south)
               else Dragged(s.rhsplit, area.height, -delta.north);
      Splits(ClipSplit(v), ClipSplit(l), ClipSplit(r))
  }

  /**
   * adjust leaves everything as it is for at most one or more than four
   * tiles or an unlisted basis, and otherwise leaves every split within
   * [0.2, 0.8], the splits the resize does not drag only clipped.
   */
  lemma AdjustKeepsSplitsBounded(s: Splits, n: nat, idx: int, area: Rect, delta: RectDelta)
    requires AdjustComputable(n, idx, area, delta)
    ensures var t := AdjustedSplits(s, n, idx, area, delta);
      (n <= 1 || n > 4 || idx < 0 ==> t == s)
      && (2 <= n <= 4 && idx >= 0 ==>
            0.2 <= t.vsplit <= 0.8 && 0.2 <= t.lhsplit <= 0.8 && 0.2 <= t.rhsplit <= 0.8
            && (!MovesVertical(idx, delta) ==> t.vsplit == ClipSplit(s.vsplit))
            && (!MovesLeft(n, idx, delta) ==> t.lhsplit == ClipSplit(s.lhsplit))
            && (!MovesRight(n, idx, delta) ==> t.rhsplit == ClipSplit(s.rhsplit)))
  {
  }

  /**
   * Resizing the top-left tile's east edge by delta.east moves the column
   * boundary, and so the tile's east edge, by exactly that many pixels,
   * unless the new split would leave [0.2, 0.8].
   */
  lemma AdjustMovesEastEdge(area: Rect, gap: int, s: Splits, n: nat, delta: RectDelta)
    requires 2 <= n <= 4 && delta.east != 0 && area.width != 0
    requires AdjustComputable(n, 0, area, delta)
    requires 0.2 <= Dragged(s.vsplit, area.width, delta.east) <= 0.8
    ensures Geometries(area, gap, AdjustedSplits(s, n, 0, area, delta), n)[0].MaxX()
         == Geometries(area, gap, s, n)[0].MaxX() + delta.east
  {
    DraggedMovesBy(s.vsplit, area.width, delta.east);
  }

  /**
   * Resizing the top-right tile's south edge by delta.south moves the right
   * column's boundary, and so the tile's south edge, by exactly that many
   * pixels, unless the new split would leave [0.2, 0.8].
   */
  lemma AdjustMovesSouthEdge(area: Rect, gap: int, s: Splits, n: nat, delta: RectDelta)
    requires 3 <= n <= 4 && delta.south != 0 && area.height != 0
    requires AdjustComputable(n, 1, area, delta)
    requires 0.2 <= Dragged(s.rhsplit, area.height, delta.south) <= 0.8
    ensures Geometries(area, gap, AdjustedSplits(s, n, 1, area, delta), n)[1].MaxY()
         == Geometries(area, gap, s, n)[1].MaxY() + delta.south
  {
    DraggedMovesBy(s.rhsplit, area.height, delta.south);
  }

  // ---------------------------------------------------------------------------
  // The layout object

  /** The first four tileables ask for Tiled, the rest for TiledAfloat; no geometry changes. */
  method SetQuarterStates(tileables: seq<EngineWindow>)
    requires DistinctWindows(tileables)
    modifies set w | w in tileables
    ensures forall i :: 0 <= i < |tileables| ==>
      AskedFor(tileables[i], if i < Capacity then Tiled else TiledAfloat) && tileables[i].geometry == old(tileables[i].geometry)
  {
    var k := Min(|tileables|, Capacity);
    for i := 0 to k
      invariant forall j :: 0 <= j < i ==> AskedFor(tileables[j], Tiled) && tileables[j].geometry == old(tileables[j].geometry)
      invariant forall j :: i <= j < |tileables| ==> unchanged(tileables[j])
    {
      tileables[i].SetState(Tiled);
    }
    for i := k to |tileables|
      invariant forall j :: 0 <= j < i ==>
        AskedFor(tileables[j], if j < Capacity then Tiled else TiledAfloat) && tileables[j].geometry == old(tileables[j].geometry)
      invariant forall j :: i <= j < |tileables| ==> unchanged(tileables[j])
    {
      tileables[i].SetState(TiledAfloat);
    }
  }

  class QuarterLayout {
    const config: Config
    var vsplit: real
    var lhsplit: real
    var rhsplit: real

    function CurrentSplits(): Splits
      reads this
    {
      Splits(vsplit, lhsplit, rhsplit)
    }

    /** A new layout: every split in the middle. */
    constructor (config: Config)
      ensures this.config == config && CurrentSplits() == Splits(0.5, 0.5, 0.5)
    {
      vsplit, lhsplit, rhsplit := 0.5, 0.5, 0.5;
      this.config := config;
    }

    /** A copy with the same splits. */
    method Clone() returns (other: QuarterLayout)
      ensures fresh(other) && other.config == config && other.CurrentSplits() == CurrentSplits()
    {
      other := new QuarterLayout(config);
      other.vsplit, other.lhsplit, other.rhsplit := vsplit, lhsplit, rhsplit;
    }

    /**
     * Tiles the first four tileables and floats the rest above them, then
     * gives the tiled ones their cells.
     */
    method Apply(tileables: seq<EngineWindow>, area: Rect)
      requires DistinctWindows(tileables)
      modifies set w | w in tileables
      ensures forall i :: 0 <= i < |tileables| ==>
        AskedFor(tileables[i], if i < Capacity then Tiled else TiledAfloat)
      ensures forall i :: 0 <= i < |tileables| ==>
        tileables[i].geometry == (if i < Capacity then Geometries(area, config.tileLayoutGap, CurrentSplits(), |tileables|)[i]
                                  else old(tileables[i].geometry))
    {
      var k := Min(|tileables|, Capacity);
      var tiled := tileables[..k];
      SetQuarterStates(tileables);
      label asked:
      SetGeometries(tiled, Geometries(area, config.tileLayoutGap, CurrentSplits(), |tileables|));
      assert forall i :: 0 <= i < k ==> tileables[i] == tiled[i];
      assert forall i :: k <= i < |tileables| ==> unchanged@asked(tileables[i]);
    }

    /**
     * Resizes tile idx of n (idx is -1 when the basis is not a tile): the
     * splits become AdjustedSplits'.
     */
    method Adjust(area: Rect, tiles: seq<EngineWindow>, basis: EngineWindow, delta: RectDelta)
      requires AdjustComputable(|tiles|, IndexOf(tiles, basis), area, delta)
      modifies this
      ensures CurrentSplits() == AdjustedSplits(old(CurrentSplits()), |tiles|, IndexOf(tiles, basis), area, delta)
    {
      var n := |tiles|;
      if n <= 1 || n > Capacity {
        return;
      }
      var idx := IndexOf(tiles, basis);
      if idx < 0 {
        return;
      }
      if (idx == 0 || idx == 3) && delta.east != 0 {
        vsplit := Dragged(vsplit, area.width, delta.east);
      } else if (idx == 1 || idx == 2) && delta.west != 0 {
        vsplit := Dragged(vsplit, area.width, -delta.west);
      }
      if n == 4 {
        if idx == 0 && delta.south != 0 {
          lhsplit := Dragged(lhsplit, area.height, delta.south);
        }
        if idx == 3 && delta.north != 0 {
          lhsplit := Dragged(lhsplit, area.height, -delta.north);
        }
      }
      if n >= 3 {
        if idx == 1 && delta.south != 0 {
          rhsplit := Dragged(rhsplit, area.height, delta.south);
        }
        if idx == 2 && delta.north != 0 {
          rhsplit := Dragged(rhsplit, area.height, -delta.north);
        }
      }
      vsplit := ClipSplit(vsplit);
      lhsplit := ClipSplit(lhsplit);
      rhsplit := ClipSplit(rhsplit);
    }
  }
}
