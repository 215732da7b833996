// Composable layout parts (src/kwinscript/engine/layout/layout_part.ts).
//
// A part turns an area and an ordered list of tiles into one rectangle per
// tile (apply), and turns a resize of one tile into a resize of the whole
// part (adjust). Fill gives every tile the whole area, Stack splits the area
// vertically by tile weight, HalfSplit gives its first `primarySize` tiles to
// a primary part and the rest to a secondary part, and Rotate runs an inner
// part in a rotated or mirrored frame.
//
// The parts form a tree and are modelled as values: an operation that
// changes a part (adjust, rotate) returns the changed part.

module LayoutPart {
  import opened Types
  import opened Func
  import opened Geometry
  import opened LayoutUtils

  /** A rotation angle in degrees. */
  type Angle = a: int | a == 0 || a == 90 || a == 180 || a == 270

  /** The amount a rotate request turns by. */
  type Turn = t: int | t == -90 || t == 90 witness 90

  /** What a part sees of a tile: its window and its weight on the current surface. */
  datatype Tile = Tile(id: WindowId, weight: real)

  datatype Part =
    | Fill
      /** `gap` separates the two halves; the primary takes the first `primarySize` tiles. */
    | HalfSplit(primary: Part, secondary: Part, angle: Angle, gap: int, primarySize: nat, ratio: real)
      /** `gap` is used to lay tiles out, `configGap` (the configured tile gap) to resize them. */
    | Stack(gap: int, configGap: int)
    | Rotate(inner: Part, angle: Angle)

  /** A new half-split: angle 0, no gap, one primary tile, ratio one half. */
  function NewHalfSplit(primary: Part, secondary: Part): (p: Part)
    ensures p.HalfSplit? && p.primary == primary && p.secondary == secondary
    ensures p.angle == 0 && p.gap == 0 && p.primarySize == 1 && p.ratio == 0.5
  {
    HalfSplit(primary, secondary, 0, 0, 1, 0.5)
  }

  /** A half-split lays its halves side by side exactly at angles 0 and 180. */
  predicate Horizontal(angle: Angle)
  {
    angle == 0 || angle == 180
  }

  /** At angles 180 and 270 the primary half is the right or bottom one. */
  predicate Reversed(angle: Angle)
  {
    angle == 180 || angle == 270
  }

  /** The four angles are exactly the four combinations of the two flags. */
  lemma AngleFlags(angle: Angle)
    ensures angle == 0 <==> Horizontal(angle) && !Reversed(angle)
    ensures angle == 90 <==> !Horizontal(angle) && !Reversed(angle)
    ensures angle == 180 <==> Horizontal(angle) && Reversed(angle)
    ensures angle == 270 <==> !Horizontal(angle) && Reversed(angle)
  {
  }

  function Ids(tiles: seq<Tile>): (r: seq<WindowId>)
    ensures |r| == |tiles| && forall i :: 0 <= i < |tiles| ==> r[i] == tiles[i].id
  {
    seq(|tiles|, i requires 0 <= i < |tiles| => tiles[i].id)
  }

  /** Tile weights are positive (zero weights would give the source's NaN geometry). */
  predicate PositiveWeights(tiles: seq<Tile>)
  {
    forall i :: 0 <= i < |tiles| ==> tiles[i].weight > 0.0
  }

  /**
   * What apply needs to produce a value: every stack it reaches lays out
   * tiles whose weights have a non-zero sum (the source otherwise divides by
   * zero and yields no finite geometry).
   */
  predicate ApplyDefined(p: Part, tiles: seq<Tile>)
    decreases p
  {
    match p
    case Fill => true
    case Stack(_, _) => |tiles| > 0 ==> Sum(Weights(tiles)) != 0.0
    case HalfSplit(primary, secondary, _, _, primarySize, _) =>
      if |tiles| <= primarySize then ApplyDefined(primary, tiles)
      else if primarySize == 0 then ApplyDefined(secondary, tiles)
      else ApplyDefined(primary, tiles[..primarySize]) && ApplyDefined(secondary, tiles[primarySize..])
    case Rotate(inner, _) => ApplyDefined(inner, tiles)
  }

  /** Positive weights are enough for apply, whatever the part. */
  lemma {:induction false} PositiveApplyDefined(p: Part, tiles: seq<Tile>)
    requires PositiveWeights(tiles)
    ensures ApplyDefined(p, tiles)
    decreases p
  {
    match p
    case Fill =>
    case Stack(_, _) =>
    case HalfSplit(primary, secondary, _, _, primarySize, _) =>
      if |tiles| <= primarySize {
        PositiveApplyDefined(primary, tiles);
      } else if primarySize == 0 {
        PositiveApplyDefined(secondary, tiles);
      } else {
        PositiveApplyDefined(primary, tiles[..primarySize]);
        PositiveApplyDefined(secondary, tiles[primarySize..]);
      }
    case Rotate(inner, _) => PositiveApplyDefined(inner, tiles);
  }

  function Weights(tiles: seq<Tile>): (r: seq<real>)
    ensures |r| == |tiles| && forall i :: 0 <= i < |tiles| ==> r[i] == tiles[i].weight
    ensures PositiveWeights(tiles) && |tiles| > 0 ==> Sum(r) > 0.0
  {
    var r := seq(|tiles|, i requires 0 <= i < |tiles| => tiles[i].weight);
    if PositiveWeights(tiles) then PositiveSum(r); r else r
  }

  lemma {:induction false} PositiveSum(w: seq<real>)
    requires forall i :: 0 <= i < |w| ==> w[i] > 0.0
    ensures |w| > 0 ==> Sum(w) > 0.0
    decreases |w|
  {
    if |w| > 1 {
      PositiveSum(w[..|w| - 1]);
    } else if |w| == 1 {
      assert w[..0] == [];
    }
  }

  /** Swaps the axes of a rectangle. */
  function Transpose(g: Rect): (r: Rect)
    ensures r.x == g.y && r.y == g.x && r.width == g.height && r.height == g.width
  {
    Rect(g.y, g.x, g.height, g.width)
  }

  /** Mirrors `g` left to right within `area`: its distance from the west edge becomes its distance from the east edge. */
  function MirrorX(area: Rect, g: Rect): (r: Rect)
    ensures r.MaxX() - area.x == area.MaxX() - g.x
    ensures r.y == g.y && r.width == g.width && r.height == g.height
  {
    var rx := g.x - area.x;
    var newX := area.x + area.width - (rx + g.width);
    Rect(newX, g.y, g.width, g.height)
  }

  /** The area the inner part of a rotated part works in. */
  function RotatedArea(area: Rect, angle: Angle): (r: Rect)
    ensures angle == 90 || angle == 270 ==> r == Transpose(area)
    ensures angle == 0 || angle == 180 ==> r == area
  {
    if angle == 90 || angle == 270 then Transpose(area) else area
  }

  /** Maps one rectangle of the inner part back out of the rotated frame `area`. */
  function Unrotate(angle: Angle, area: Rect, g: Rect): Rect
  {
    if angle == 0 then g
    else if angle == 90 then Transpose(g)
    else if angle == 180 then MirrorX(area, g)
    else
      var rx := g.x - area.x;
      var newY := area.x + area.width - (rx + g.width);
      Rect(g.y, newY, g.height, g.width)
  }

  /** At 270 the result is the 180 mirror, transposed. */
  lemma UnrotateQuarterBack(area: Rect, g: Rect)
    ensures Unrotate(270, area, g) == Transpose(MirrorX(area, g))
  {
  }

  /** Mirroring twice in the same area is the identity. */
  lemma MirrorXInvolution(area: Rect, g: Rect)
    ensures MirrorX(area, MirrorX(area, g)) == g
  {
  }

  /** A rectangle inside the area horizontally stays inside it when mirrored. */
  lemma MirrorXInside(area: Rect, g: Rect)
    requires area.x <= g.x && g.MaxX() <= area.MaxX()
    ensures area.x <= MirrorX(area, g).x && MirrorX(area, g).MaxX() <= area.MaxX()
  {
  }

  /** One rectangle per tile, laid out by part `p` within `area`. */
  function Apply(p: Part, area: Rect, tiles: seq<Tile>): (r: seq<Rect>)
    requires ApplyDefined(p, tiles)
    ensures |r| == |tiles|
    decreases p
  {
    match p
    case Fill => seq(|tiles|, _ => area)
    case Stack(gap, _) =>
      SplitAreaWeighted(area, Weights(tiles), gap, false)
    case HalfSplit(primary, secondary, angle, gap, primarySize, ratio) =>
      if |tiles| <= primarySize then Apply(primary, area, tiles)
      else if primarySize == 0 then Apply(secondary, area, tiles)
      else
        var reversed := Reversed(angle);
        var halves := SplitAreaHalfWeighted(area, if reversed then 1.0 - ratio else ratio, gap, Horizontal(angle));
        Apply(primary, if reversed then halves[1] else halves[0], tiles[..primarySize])
          + Apply(secondary, if reversed then halves[0] else halves[1], tiles[primarySize..])
    case Rotate(inner, angle) =>
      var a := RotatedArea(area, angle);
      var innerResult := Apply(inner, a, tiles);
      seq(|innerResult|, i requires 0 <= i < |innerResult| => Unrotate(angle, a, innerResult[i]))
  }

  /** Fill gives every tile the whole area. */
  lemma FillApply(area: Rect, tiles: seq<Tile>)
    ensures forall i :: 0 <= i < |tiles| ==> Apply(Fill, area, tiles)[i] == area
  {
  }

  /**
   * A half-split with no more tiles than primarySize is its primary on the
   * whole area; with primarySize 0 and some tiles it is its secondary on
   * the whole area.
   */
  lemma HalfSplitApplyOnePart(p: Part, area: Rect, tiles: seq<Tile>)
    requires p.HalfSplit? && ApplyDefined(p, tiles)
    ensures |tiles| <= p.primarySize ==> Apply(p, area, tiles) == Apply(p.primary, area, tiles)
    ensures p.primarySize == 0 < |tiles| ==> Apply(p, area, tiles) == Apply(p.secondary, area, tiles)
  {
  }

  /**
   * Otherwise the primary lays out the first primarySize tiles in the first
   * half (the second when reversed, with the ratio mirrored to 1 - ratio),
   * the secondary the rest in the other half, and the results come in tile
   * order.
   */
  lemma HalfSplitApplyBoth(p: Part, area: Rect, tiles: seq<Tile>)
    requires p.HalfSplit? && ApplyDefined(p, tiles) && 0 < p.primarySize < |tiles|
    ensures var halves := SplitAreaHalfWeighted(area, if Reversed(p.angle) then 1.0 - p.ratio else p.ratio, p.gap, Horizontal(p.angle));
      var r := Apply(p, area, tiles);
      r[..p.primarySize] == Apply(p.primary, if Reversed(p.angle) then halves[1] else halves[0], tiles[..p.primarySize])
      && r[p.primarySize..] == Apply(p.secondary, if Reversed(p.angle) then halves[0] else halves[1], tiles[p.primarySize..])
  {
  }

  /** Stack gives tile i the i-th part of the vertical weighted split, across the full width. */
  lemma StackApply(gap: int, configGap: int, area: Rect, tiles: seq<Tile>)
    requires |tiles| > 0 ==> Sum(Weights(tiles)) != 0.0
    ensures var r := Apply(Stack(gap, configGap), area, tiles);
      forall i :: 0 <= i < |tiles| ==>
        r[i].x == area.x && r[i].width == area.width
        && Segment(r[i].y, r[i].height) == SplitWeighted(Segment(area.y, area.height), Weights(tiles), gap)[i]
  {
    var r := Apply(Stack(gap, configGap), area, tiles);
    forall i | 0 <= i < |tiles|
      ensures r[i].x == area.x && r[i].width == area.width
    {
      assert Across(r[i], false) == Across(area, false);
    }
  }

  /** Rotating by 180 mirrors the inner layout left to right and keeps rows and sizes. */
  lemma RotateApplyMirror(inner: Part, area: Rect, tiles: seq<Tile>)
    requires ApplyDefined(inner, tiles)
    ensures var r, ir := Apply(Rotate(inner, 180), area, tiles), Apply(inner, area, tiles);
      forall i :: 0 <= i < |tiles| ==> r[i] == MirrorX(area, ir[i]) && MirrorX(area, r[i]) == ir[i]
  {
    var ir := Apply(inner, area, tiles);
    forall i | 0 <= i < |tiles|
      ensures MirrorX(area, MirrorX(area, ir[i])) == ir[i]
    {
      MirrorXInvolution(area, ir[i]);
    }
  }

  /** Rotating by 90 lays the inner part out on the transposed area and transposes back. */
  lemma RotateApplyQuarter(inner: Part, area: Rect, tiles: seq<Tile>)
    requires ApplyDefined(inner, tiles)
    ensures var r, ir := Apply(Rotate(inner, 90), area, tiles), Apply(inner, Transpose(area), tiles);
      forall i :: 0 <= i < |tiles| ==> r[i] == Transpose(ir[i])
  {
  }

  // ---------------------------------------------------------------------------
  // rotate

  /** The new angle after turning by `amount`, wrapped into [0, 360). */
  function RotateBy(angle: Angle, amount: Turn): (r: Angle)
    ensures r == (angle + amount) % 360
  {
    var a := angle + amount;
    if a < 0 then 270 else if a >= 360 then 0 else a
  }

  /** rotate on a rotated part. */
  function RotatePart(p: Part, amount: Turn): (r: Part)
    requires p.Rotate?
    ensures r == p.(angle := RotateBy(p.angle, amount))
  {
    Rotate(p.inner, RotateBy(p.angle, amount))
  }

  /** Four quarter turns the same way come back to the start; opposite turns cancel. */
  lemma RotateCycles(angle: Angle, amount: Turn)
    ensures RotateBy(RotateBy(RotateBy(RotateBy(angle, amount), amount), amount), amount) == angle
    ensures RotateBy(RotateBy(angle, 90), -90) == angle && RotateBy(RotateBy(angle, -90), 90) == angle
    ensures RotateBy(0, -90) == 270
  {
  }

  // ---------------------------------------------------------------------------
  // adjust

  /** The outcome of an adjust: the part with its new ratios, the tiles with their new weights, and the delta passed up. */
  datatype Adjusted = Adjusted(part: Part, tiles: seq<Tile>, delta: RectDelta)

  /** The delta the rotated frame's inner part sees. */
  function RotateDeltaIn(angle: Angle, d: RectDelta): RectDelta
  {
    if angle == 0 then d
    else if angle == 90 then RectDelta(d.south, d.north, d.east, d.west)
    else if angle == 180 then RectDelta(d.west, d.east, d.south, d.north)
    else RectDelta(d.north, d.south, d.east, d.west)
  }

  /**
   * The inner part's delta mapped back out of the rotated frame: the inverse
   * of RotateDeltaIn. At 270 the inner east side is the outer north side,
   * west is south, south is east and north is west.
   */
  function RotateDeltaOut(angle: Angle, d: RectDelta): RectDelta
  {
    if angle == 0 then d
    else if angle == 90 then RectDelta(d.south, d.north, d.east, d.west)
    else if angle == 180 then RectDelta(d.west, d.east, d.south, d.north)
    else RectDelta(d.south, d.north, d.west, d.east)
  }

  /** The source's mapping back out, which at 270 repeats the inward permutation. */
  function RotateDeltaOutAsWritten(angle: Angle, d: RectDelta): RectDelta
  {
    if angle == 0 then d
    else if angle == 90 then RectDelta(d.south, d.north, d.east, d.west)
    else if angle == 180 then RectDelta(d.west, d.east, d.south, d.north)
    else RectDelta(d.north, d.south, d.east, d.west)
  }

  /** Mapping a delta into the rotated frame and back out gives it back, at every angle. */
  lemma RotateDeltaRoundTrip(angle: Angle, d: RectDelta)
    ensures RotateDeltaOut(angle, RotateDeltaIn(angle, d)) == d
    ensures RotateDeltaIn(angle, RotateDeltaOut(angle, d)) == d
  {
  }

  /**
   * As written, a part rotated by 270 around a Fill (which passes its delta
   * on unchanged) hands back a growth to the east as a growth to the west;
   * the two agree at every other angle.
   */
  lemma RotateDeltaOutAsWrittenSwapsSides()
    ensures RotateDeltaOutAsWritten(270, RotateDeltaIn(270, RectDelta(1, 0, 0, 0))) == RectDelta(0, 1, 0, 0)
    ensures forall a: Angle, d :: a != 270 ==> RotateDeltaOutAsWritten(a, d) == RotateDeltaOut(a, d)
  {
  }

  /** The frame maps the edges the way the layout maps rectangles: an edge delta in the frame moves the matching outer edge. */
  lemma RotateDeltaMatchesUnrotate(angle: Angle, area: Rect, g: Rect, d: RectDelta)
    ensures var grown := g.Gap(-d.west, -d.east, -d.north, -d.south);
      var od := RotateDeltaOut(angle, d);
      Unrotate(angle, area, grown) == Unrotate(angle, area, g).Gap(-od.west, -od.east, -od.north, -od.south)
  {
  }

  /**
   * The half-split's outgoing delta: the side of the adjusted half that faces
   * the other half is consumed by the ratio change and zeroed.
   */
  function HalfSplitDelta(angle: Angle, targetIndex: nat, d: RectDelta): RectDelta
    requires targetIndex < 2
  {
    var code := angle * 10 + targetIndex + 1;
    if code == 1 || code == 1802 then RectDelta(0, d.west, d.south, d.north)
    else if code == 2 || code == 1801 then RectDelta(d.east, 0, d.south, d.north)
    else if code == 901 || code == 2702 then RectDelta(d.east, d.west, 0, d.north)
    else RectDelta(d.east, d.west, d.south, 0)
  }

  /** Exactly the side facing the other half is zeroed; the other three pass through. */
  lemma HalfSplitDeltaInnerEdge(angle: Angle, targetIndex: nat, d: RectDelta)
    requires targetIndex < 2
    ensures var r, first := HalfSplitDelta(angle, targetIndex, d), (targetIndex == 0) != Reversed(angle);
      (Horizontal(angle) && first ==> r == d.(east := 0))
      && (Horizontal(angle) && !first ==> r == d.(west := 0))
      && (!Horizontal(angle) && first ==> r == d.(south := 0))
      && (!Horizontal(angle) && !first ==> r == d.(north := 0))
  {
  }

  /** The new tiles of a stack: each weight becomes its calculated share times the tile count. */
  function Rescale(tiles: seq<Tile>, w: seq<real>): (r: seq<Tile>)
    requires |w| == |tiles|
    ensures |r| == |tiles| && Ids(r) == Ids(tiles)
    ensures forall i :: 0 <= i < |tiles| ==> r[i].weight == w[i] * |tiles| as real
  {
    seq(|tiles|, i requires 0 <= i < |tiles| => Tile(tiles[i].id, w[i] * |tiles| as real))
  }

  /**
   * What adjust needs to produce a value: a stack needs the basis among its
   * tiles, weights with a non-zero sum and a split with a non-zero total (the
   * source otherwise reads past the list or divides by zero); a half-split
   * with both halves in use needs a non-zero total for its two halves.
   */
  predicate AdjustDefined(p: Part, area: Rect, tiles: seq<Tile>, basis: WindowId)
    decreases p
  {
    match p
    case Fill => true
    case Stack(_, configGap) =>
      var w := Weights(tiles);
      basis in Ids(tiles) && Sum(w) != 0.0
      && TotalLength(SplitWeighted(Along(area, false), w, configGap)) != 0
    case HalfSplit(primary, secondary, angle, gap, primarySize, ratio) =>
      var basisIndex := IndexOf(Ids(tiles), basis);
      basisIndex < 0
      || (|tiles| <= primarySize && AdjustDefined(primary, area, tiles, basis))
      || (|tiles| > primarySize && primarySize == 0 && AdjustDefined(secondary, area, tiles, basis))
      || (|tiles| > primarySize > 0
          && HalfSplitTotal(area, if Reversed(angle) then 1.0 - ratio else ratio, gap, Horizontal(angle)) != 0
          && (if basisIndex < primarySize then AdjustDefined(primary, area, tiles[..primarySize], basis)
              else AdjustDefined(secondary, area, tiles[primarySize..], basis)))
    case Rotate(inner, angle) => AdjustDefined(inner, RotatedArea(area, angle), tiles, basis)
  }

  /**
   * Resizes tile `basis` by `delta` within part `p`: returns the part with
   * updated ratios, the tiles with updated weights and the delta the part
   * passes on to its container. Adjust never reorders, adds or drops tiles,
   * and keeps the shape of the part tree.
   */
  function Adjust(p: Part, area: Rect, tiles: seq<Tile>, basis: WindowId, delta: RectDelta): (r: Adjusted)
    requires AdjustDefined(p, area, tiles, basis)
    ensures Ids(r.tiles) == Ids(tiles)
    ensures SameShape(r.part, p)
    decreases p, 2
  {
    match p
    case Fill => Adjusted(p, tiles, delta)
    case Stack(_, configGap) =>
      var basisIndex := IndexOf(Ids(tiles), basis);
      var weights := AdjustAreaWeights(area, Weights(tiles), configGap, basisIndex, delta, false);
      var newDelta := RectDelta(delta.east, delta.west,
                                if basisIndex == |tiles| - 1 then delta.south else 0,
                                if basisIndex == 0 then delta.north else 0);
      Adjusted(p, Rescale(tiles, weights), newDelta)
    case HalfSplit(_, _, _, _, _, _) => HalfSplitAdjust(p, area, tiles, basis, delta)
    case Rotate(inner, angle) =>
      var a := Adjust(inner, RotatedArea(area, angle), tiles, basis, RotateDeltaIn(angle, delta));
      Adjusted(p.(inner := a.part), a.tiles, RotateDeltaOut(angle, a.delta))
  }

  /** adjust on a half-split: nothing when the basis is absent, else the half (or halves) in use. */
  function HalfSplitAdjust(p: Part, area: Rect, tiles: seq<Tile>, basis: WindowId, delta: RectDelta): (r: Adjusted)
    requires p.HalfSplit? && AdjustDefined(p, area, tiles, basis)
    ensures Ids(r.tiles) == Ids(tiles)
    ensures SameShape(r.part, p)
    ensures basis !in Ids(tiles) ==> r == Adjusted(p, tiles, delta)
    decreases p, 1
  {
    var basisIndex := IndexOf(Ids(tiles), basis);
    if basisIndex < 0 then SameShapeReflexive(p); Adjusted(p, tiles, delta)
    else if |tiles| <= p.primarySize then
      var a := Adjust(p.primary, area, tiles, basis, delta);
      SameShapeReflexive(p.secondary);
      Adjusted(p.(primary := a.part), a.tiles, a.delta)
    else if p.primarySize == 0 then
      var a := Adjust(p.secondary, area, tiles, basis, delta);
      SameShapeReflexive(p.primary);
      Adjusted(p.(secondary := a.part), a.tiles, a.delta)
    else if basisIndex < p.primarySize then AdjustPrimaryHalf(p, area, tiles, basis, delta)
    else AdjustSecondaryHalf(p, area, tiles, basis, delta)
  }

  /**
   * Both halves in use and the basis among the primary's tiles: the primary
   * adjusts its tiles, the secondary's tiles and part stay as they were.
   */
  function AdjustPrimaryHalf(p: Part, area: Rect, tiles: seq<Tile>, basis: WindowId, delta: RectDelta): (r: Adjusted)
    requires p.HalfSplit? && 0 < p.primarySize < |tiles| && 0 <= IndexOf(Ids(tiles), basis) < p.primarySize
    requires AdjustDefined(p, area, tiles, basis)
    ensures Ids(r.tiles) == Ids(tiles)
    ensures SameShape(r.part, p)
    ensures var a := Adjust(p.primary, area, tiles[..p.primarySize], basis, delta);
      r.tiles == a.tiles + tiles[p.primarySize..] && r.part.primary == a.part && r.part.secondary == p.secondary
      && r.delta == HalfSplitDelta(p.angle, 0, a.delta)
    decreases p, 0
  {
    var ps := p.primarySize;
    var a := Adjust(p.primary, area, tiles[..ps], basis, delta);
    IdsConcat(a.tiles, tiles[ps..]);
    IdsConcat(tiles[..ps], tiles[ps..]);
    assert tiles[..ps] + tiles[ps..] == tiles;
    SameShapeReflexive(p.secondary);
    HalfSplitFinish(p.(primary := a.part), area, 0, a.tiles + tiles[ps..], a.delta)
  }

  /**
   * Both halves in use and the basis among the secondary's tiles: the
   * secondary adjusts its tiles, the primary's tiles and part stay as they were.
   */
  function AdjustSecondaryHalf(p: Part, area: Rect, tiles: seq<Tile>, basis: WindowId, delta: RectDelta): (r: Adjusted)
    requires p.HalfSplit? && 0 < p.primarySize < |tiles| && IndexOf(Ids(tiles), basis) >= p.primarySize
    requires AdjustDefined(p, area, tiles, basis)
    ensures Ids(r.tiles) == Ids(tiles)
    ensures SameShape(r.part, p)
    ensures var a := Adjust(p.secondary, area, tiles[p.primarySize..], basis, delta);
      r.tiles == tiles[..p.primarySize] + a.tiles && r.part.secondary == a.part && r.part.primary == p.primary
      && r.delta == HalfSplitDelta(p.angle, 1, a.delta)
    decreases p, 0
  {
    var ps := p.primarySize;
    var a := Adjust(p.secondary, area, tiles[ps..], basis, delta);
    IdsConcat(tiles[..ps], a.tiles);
    IdsConcat(tiles[..ps], tiles[ps..]);
    assert tiles[..ps] + tiles[ps..] == tiles;
    SameShapeReflexive(p.primary);
    HalfSplitFinish(p.(secondary := a.part), area, 1, tiles[..ps] + a.tiles, a.delta)
  }

  /**
   * The last steps of a half-split adjust once half `targetIndex` has been
   * adjusted and passed up `innerDelta`: re-derive the ratio from the two
   * halves and zero the side facing the other half.
   */
  function HalfSplitFinish(p: Part, area: Rect, targetIndex: nat, tiles: seq<Tile>, innerDelta: RectDelta): (r: Adjusted)
    requires p.HalfSplit? && targetIndex < 2
    requires HalfSplitTotal(area, if Reversed(p.angle) then 1.0 - p.ratio else p.ratio, p.gap, Horizontal(p.angle)) != 0
    ensures r.part.HalfSplit? && r.part == p.(ratio := r.part.ratio) && r.tiles == tiles
    ensures r.delta == HalfSplitDelta(p.angle, targetIndex, innerDelta)
  {
    Adjusted(p.(ratio := AdjustedRatio(area, p.angle, p.gap, p.ratio, targetIndex, innerDelta)), tiles,
             HalfSplitDelta(p.angle, targetIndex, innerDelta))
  }

  /**
   * A half-split's ratio after half `targetIndex` passed up `innerDelta`:
   * the primary half's share of the two halves once the resize is applied
   * to them in screen order (the primary is the second half when reversed).
   */
  function AdjustedRatio(area: Rect, angle: Angle, gap: int, ratio: real, targetIndex: nat, innerDelta: RectDelta): real
    requires targetIndex < 2
    requires HalfSplitTotal(area, if Reversed(angle) then 1.0 - ratio else ratio, gap, Horizontal(angle)) != 0
  {
    var reversed := Reversed(angle);
    var newRatio := AdjustAreaHalfWeights(area, if reversed then 1.0 - ratio else ratio, gap,
                                          if reversed then 1 - targetIndex else targetIndex,
                                          innerDelta, Horizontal(angle));
    if reversed then 1.0 - newRatio else newRatio
  }

  /**
   * The adjusted ratio is the primary half's weight among the two halves
   * resized in screen order, and the secondary half's weight is one minus it.
   */
  lemma AdjustedRatioIsShare(area: Rect, angle: Angle, gap: int, ratio: real, targetIndex: nat, innerDelta: RectDelta)
    requires targetIndex < 2
    requires HalfSplitTotal(area, if Reversed(angle) then 1.0 - ratio else ratio, gap, Horizontal(angle)) != 0
    ensures var w := AdjustAreaWeights(area, HalfWeights(if Reversed(angle) then 1.0 - ratio else ratio), gap,
                                       if Reversed(angle) then 1 - targetIndex else targetIndex, innerDelta, Horizontal(angle));
      var r := AdjustedRatio(area, angle, gap, ratio, targetIndex, innerDelta);
      r == (if Reversed(angle) then w[1] else w[0]) && 1.0 - r == (if Reversed(angle) then w[0] else w[1])
  {
  }

  /** Two parts have the same kind at every node, and the same angles, gaps and sizes; only ratios may differ. */
  predicate SameShape(a: Part, b: Part)
    decreases a
  {
    match a
    case Fill => b.Fill?
    case Stack(g, c) => b == Stack(g, c)
    case HalfSplit(p, s, an, g, ps, _) =>
      b.HalfSplit? && b.angle == an && b.gap == g && b.primarySize == ps
      && SameShape(p, b.primary) && SameShape(s, b.secondary)
    case Rotate(i, an) => b.Rotate? && b.angle == an && SameShape(i, b.inner)
  }

  lemma {:induction false} SameShapeReflexive(p: Part)
    ensures SameShape(p, p)
    decreases p
  {
    match p
    case Fill =>
    case Stack(_, _) =>
    case HalfSplit(pr, se, _, _, _, _) => SameShapeReflexive(pr); SameShapeReflexive(se);
    case Rotate(i, _) => SameShapeReflexive(i);
  }

  lemma IdsConcat(a: seq<Tile>, b: seq<Tile>)
    ensures Ids(a + b) == Ids(a) + Ids(b)
  {
  }

  /** Fill ignores the resize and passes the delta on unchanged. */
  lemma FillAdjust(area: Rect, tiles: seq<Tile>, basis: WindowId, delta: RectDelta)
    ensures Adjust(Fill, area, tiles, basis, delta) == Adjusted(Fill, tiles, delta)
  {
  }

  /**
   * Stack passes east and west on; it passes south on only when the basis is
   * its last tile and north only when it is its first.
   */
  lemma StackAdjustDelta(gap: int, configGap: int, area: Rect, tiles: seq<Tile>, basis: WindowId, delta: RectDelta)
    requires AdjustDefined(Stack(gap, configGap), area, tiles, basis)
    ensures var r, idx := Adjust(Stack(gap, configGap), area, tiles, basis, delta), IndexOf(Ids(tiles), basis);
      r.delta.east == delta.east && r.delta.west == delta.west
      && r.delta.south == (if idx == |tiles| - 1 then delta.south else 0)
      && r.delta.north == (if idx == 0 then delta.north else 0)
  {
  }

  /**
   * A stack keeps its own settings, and tile i's new weight is its share of
   * the resized vertical split (measured with the configured gap) times the
   * number of tiles.
   */
  lemma StackAdjustValues(gap: int, configGap: int, area: Rect, tiles: seq<Tile>, basis: WindowId, delta: RectDelta)
    requires AdjustDefined(Stack(gap, configGap), area, tiles, basis)
    ensures var r := Adjust(Stack(gap, configGap), area, tiles, basis, delta);
      var w := AdjustAreaWeights(area, Weights(tiles), configGap, IndexOf(Ids(tiles), basis), delta, false);
      r.part == Stack(gap, configGap)
      && r.tiles == Rescale(tiles, w)
  {
    var idx := IndexOf(Ids(tiles), basis);
    var w := AdjustAreaWeights(area, Weights(tiles), configGap, idx, delta, false);
    var r := Adjust(Stack(gap, configGap), area, tiles, basis, delta);
    assert r.part == Stack(gap, configGap) && r.tiles == Rescale(tiles, w);
  }

  /** The new weights of a stack's tiles add up to the number of tiles. */
  lemma StackAdjustWeights(gap: int, configGap: int, area: Rect, tiles: seq<Tile>, basis: WindowId, delta: RectDelta)
    requires AdjustDefined(Stack(gap, configGap), area, tiles, basis)
    ensures Sum(Weights(Adjust(Stack(gap, configGap), area, tiles, basis, delta).tiles)) == |tiles| as real
  {
    var idx := IndexOf(Ids(tiles), basis);
    var w := AdjustAreaWeights(area, Weights(tiles), configGap, idx, delta, false);
    StackAdjustValues(gap, configGap, area, tiles, basis, delta);
    RescaledWeights(tiles, w);
    SumScaled(w, |tiles| as real);
  }

  lemma RescaledWeights(tiles: seq<Tile>, w: seq<real>)
    requires |w| == |tiles|
    ensures Weights(Rescale(tiles, w)) == Scale(w, |tiles| as real)
  {
  }

  function Scale(w: seq<real>, c: real): (r: seq<real>)
    ensures |r| == |w| && forall i :: 0 <= i < |w| ==> r[i] == w[i] * c
  {
    seq(|w|, i requires 0 <= i < |w| => w[i] * c)
  }

  lemma {:induction false} SumScaled(w: seq<real>, c: real)
    ensures Sum(Scale(w, c)) == Sum(w) * c
    decreases |w|
  {
    var s := Scale(w, c);
    if |w| > 0 {
      var w' := w[..|w| - 1];
      SumScaled(w', c);
      var s' := Scale(w', c);
      assert forall i :: 0 <= i < |w'| ==> s[..|s| - 1][i] == s'[i];
      assert s[..|s| - 1] == s';
    }
  }

  /**
   * With both halves in use and the basis in the primary half, the new ratio
   * is the primary's share after the primary's passed-up delta is applied to
   * the two halves.
   */
  lemma HalfSplitAdjustPrimaryRatio(p: Part, area: Rect, tiles: seq<Tile>, basis: WindowId, delta: RectDelta)
    requires p.HalfSplit? && 0 < p.primarySize < |tiles| && 0 <= IndexOf(Ids(tiles), basis) < p.primarySize
    requires AdjustDefined(p, area, tiles, basis)
    ensures var a := Adjust(p.primary, area, tiles[..p.primarySize], basis, delta);
      Adjust(p, area, tiles, basis, delta).part.ratio == AdjustedRatio(area, p.angle, p.gap, p.ratio, 0, a.delta)
  {
    assert Adjust(p, area, tiles, basis, delta) == HalfSplitAdjust(p, area, tiles, basis, delta);
    assert HalfSplitAdjust(p, area, tiles, basis, delta) == AdjustPrimaryHalf(p, area, tiles, basis, delta);
  }

  /** The same with the basis in the secondary half. */
  lemma HalfSplitAdjustSecondaryRatio(p: Part, area: Rect, tiles: seq<Tile>, basis: WindowId, delta: RectDelta)
    requires p.HalfSplit? && 0 < p.primarySize < |tiles| && IndexOf(Ids(tiles), basis) >= p.primarySize
    requires AdjustDefined(p, area, tiles, basis)
    ensures var a := Adjust(p.secondary, area, tiles[p.primarySize..], basis, delta);
      Adjust(p, area, tiles, basis, delta).part.ratio == AdjustedRatio(area, p.angle, p.gap, p.ratio, 1, a.delta)
  {
    assert Adjust(p, area, tiles, basis, delta) == HalfSplitAdjust(p, area, tiles, basis, delta);
    assert HalfSplitAdjust(p, area, tiles, basis, delta) == AdjustSecondaryHalf(p, area, tiles, basis, delta);
  }

  /**
   * A rotated part resizes its inner part in the rotated frame, with the
   * delta mapped in, and passes the inner part's delta back mapped out.
   */
  lemma RotateAdjust(inner: Part, angle: Angle, area: Rect, tiles: seq<Tile>, basis: WindowId, delta: RectDelta)
    requires AdjustDefined(Rotate(inner, angle), area, tiles, basis)
    ensures var a := Adjust(inner, RotatedArea(area, angle), tiles, basis, RotateDeltaIn(angle, delta));
      Adjust(Rotate(inner, angle), area, tiles, basis, delta) == Adjusted(Rotate(a.part, angle), a.tiles, RotateDeltaOut(angle, a.delta))
  {
  }

  /**
   * Around a part that passes its delta on unchanged (a fill), a rotated
   * part hands the caller back exactly the delta it was given, at every
   * angle; as written the 270 case hands back the mirrored delta instead.
   */
  lemma {:induction false} RotateFillPassesDelta(angle: Angle, area: Rect, tiles: seq<Tile>, basis: WindowId, delta: RectDelta)
    ensures Adjust(Rotate(Fill, angle), area, tiles, basis, delta) == Adjusted(Rotate(Fill, angle), tiles, delta)
    ensures angle == 270 && delta.east != delta.west ==>
      RotateDeltaOutAsWritten(angle, RotateDeltaIn(angle, delta)) != delta
  {
    RotateAdjust(Fill, angle, area, tiles, basis, delta);
    FillAdjust(RotatedArea(area, angle), tiles, basis, RotateDeltaIn(angle, delta));
    RotateDeltaRoundTrip(angle, delta);
  }

  /**
   * With both halves in use, the tiles of the half that does not hold the
   * basis keep their weights.
   */
  lemma HalfSplitAdjustOtherHalf(p: Part, area: Rect, tiles: seq<Tile>, basis: WindowId, delta: RectDelta)
    requires p.HalfSplit? && 0 < p.primarySize < |tiles| && basis in Ids(tiles)
    requires AdjustDefined(p, area, tiles, basis)
    ensures var r, idx := Adjust(p, area, tiles, basis, delta), IndexOf(Ids(tiles), basis);
      (idx < p.primarySize ==> r.tiles[p.primarySize..] == tiles[p.primarySize..])
      && (idx >= p.primarySize ==> r.tiles[..p.primarySize] == tiles[..p.primarySize])
  {
    var ps := p.primarySize;
    if IndexOf(Ids(tiles), basis) < ps {
      var a := Adjust(p.primary, area, tiles[..ps], basis, delta);
      assert |a.tiles| == |Ids(a.tiles)| == ps;
      assert (a.tiles + tiles[ps..])[ps..] == tiles[ps..];
    } else {
      var a := Adjust(p.secondary, area, tiles[ps..], basis, delta);
      assert (tiles[..ps] + a.tiles)[..ps] == tiles[..ps];
    }
  }
}
