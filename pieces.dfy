// The layout pieces of the C++ engine
// (src/core/engine/layout/piece/half-split.cpp, stack.cpp).
//
// A piece maps window groups, by identity, to the area each one gets. A
// stack piece splits the area vertically by group weight; a half-split
// gives its first `primarySize` groups to a primary piece on one half and
// the rest to a secondary piece on the other. The fill piece (every group
// gets the whole area) is the leaf the engine's own checks build
// half-splits from. Lines are split as the TypeScript engine splits them
// (LayoutUtils), not as the C++ AreaSplitter does (see AreaSplitter).

module Pieces {
  import opened Types
  import opened Func
  import opened Geometry
  import opened LayoutUtils
  import LayoutPart

  /** A window group, by identity, with its weight among its siblings. */
  datatype GroupRef = GroupRef(node: nat, weight: real)

  datatype Piece =
    | FillPiece
    | StackPiece
    | HalfSplitPiece(primary: Piece, secondary: Piece, angle: LayoutPart.Angle, primarySize: nat, ratio: real)

  predicate PositiveWeights(groups: seq<GroupRef>)
  {
    forall i :: 0 <= i < |groups| ==> groups[i].weight > 0.0
  }

  /** No group is passed twice. */
  predicate Distinct(groups: seq<GroupRef>)
  {
    forall i, j :: 0 <= i < j < |groups| ==> groups[i] != groups[j]
  }

  /** groupsWeights: the groups' weights, in order. */
  function GroupsWeights(groups: seq<GroupRef>): (w: seq<real>)
    ensures |w| == |groups| && forall i :: 0 <= i < |groups| ==> w[i] == groups[i].weight
    ensures PositiveWeights(groups) && |groups| > 0 ==> Sum(w) > 0.0
  {
    var w := seq(|groups|, i requires 0 <= i < |groups| => groups[i].weight);
    if PositiveWeights(groups) then LayoutPart.PositiveSum(w); w else w
  }

  /** The map that sends groups[i] to rects[i], filled in index order (a later duplicate wins). */
  function Assign(groups: seq<GroupRef>, rects: seq<Rect>): map<GroupRef, Rect>
    requires |rects| == |groups|
  {
    if |groups| == 0 then map[]
    else Assign(groups[..|groups| - 1], rects[..|rects| - 1])[groups[|groups| - 1] := rects[|rects| - 1]]
  }

  /** The assigned map has exactly the groups as keys, and for distinct groups sends each to its own rect. */
  lemma {:induction false} AssignMaps(groups: seq<GroupRef>, rects: seq<Rect>)
    requires |rects| == |groups|
    ensures forall x :: x in Assign(groups, rects) <==> x in groups
    ensures Distinct(groups) ==> forall i :: 0 <= i < |groups| ==> Assign(groups, rects)[groups[i]] == rects[i]
  {
    if |groups| > 0 {
      var n := |groups| - 1;
      AssignMaps(groups[..n], rects[..n]);
      var m := Assign(groups, rects);
      assert groups == groups[..n] + [groups[n]];
      if Distinct(groups) {
        forall i | 0 <= i < |groups|
          ensures m[groups[i]] == rects[i]
        {
          if i < n {
            assert groups[..n][i] == groups[i] && rects[..n][i] == rects[i];
            assert groups[i] != groups[n];
          }
        }
      }
    }
  }

  /** StackPiece::apply as a function: the i-th group gets the i-th part of the vertical weighted split. */
  function StackResult(area: Rect, groups: seq<GroupRef>, gap: int): (r: map<GroupRef, Rect>)
    requires PositiveWeights(groups)
    ensures forall x :: x in r <==> x in groups
  {
    var rects := SplitAreaWeighted(area, GroupsWeights(groups), gap, false);
    AssignMaps(groups, rects);
    Assign(groups, rects)
  }

  /** StackPiece::apply: splits the area by weight and fills the result map in an index loop. */
  method StackApply(area: Rect, groups: seq<GroupRef>, gap: int) returns (result: map<GroupRef, Rect>)
    requires PositiveWeights(groups)
    ensures result == StackResult(area, groups, gap)
  {
    var splitted := SplitAreaWeighted(area, GroupsWeights(groups), gap, false);
    result := map[];
    for i := 0 to |groups|
      invariant result == Assign(groups[..i], splitted[..i])
    {
      assert groups[..i + 1][..i] == groups[..i] && splitted[..i + 1][..i] == splitted[..i];
      result := result[groups[i] := splitted[i]];
    }
    assert groups[..|groups|] == groups && splitted[..|splitted|] == splitted;
  }

  /** The area of every group, by piece: every group, and nothing else, gets an area. */
  function Apply(p: Piece, area: Rect, groups: seq<GroupRef>, gap: int): (r: map<GroupRef, Rect>)
    requires PositiveWeights(groups)
    ensures forall x :: x in r <==> x in groups
    decreases p
  {
    match p
    case FillPiece =>
      AssignMaps(groups, seq(|groups|, _ => area));
      Assign(groups, seq(|groups|, _ => area))
    case StackPiece => StackResult(area, groups, gap)
    case HalfSplitPiece(primary, secondary, angle, primarySize, ratio) =>
      if |groups| <= primarySize then Apply(primary, area, groups, gap)
      else if primarySize == 0 then Apply(secondary, area, groups, gap)
      else
        var reversed := LayoutPart.Reversed(angle);
        var halves := SplitAreaHalfWeighted(area, if reversed then 1.0 - ratio else ratio, gap, LayoutPart.Horizontal(angle));
        PositiveSlices(groups, primarySize);
        assert groups == groups[..primarySize] + groups[primarySize..];
        var result1 := Apply(primary, if reversed then halves[1] else halves[0], groups[..primarySize], gap);
        var result2 := Apply(secondary, if reversed then halves[0] else halves[1], groups[primarySize..], gap);
        // insert keeps the entries result1 already has
        result2 + result1
  }

  /** The same piece in the TypeScript engine's terms, with the configured gap. */
  function ToPart(p: Piece, gap: int): LayoutPart.Part
  {
    match p
    case FillPiece => LayoutPart.Fill
    case StackPiece => LayoutPart.Stack(gap, gap)
    case HalfSplitPiece(primary, secondary, angle, primarySize, ratio) =>
      LayoutPart.HalfSplit(ToPart(primary, gap), ToPart(secondary, gap), angle, gap, primarySize, ratio)
  }

  function ToTiles(groups: seq<GroupRef>): (r: seq<LayoutPart.Tile>)
    ensures |r| == |groups| && forall i :: 0 <= i < |groups| ==> r[i] == LayoutPart.Tile(groups[i].node, groups[i].weight)
  {
    seq(|groups|, i requires 0 <= i < |groups| => LayoutPart.Tile(groups[i].node, groups[i].weight))
  }

  lemma ToTilesSlices(groups: seq<GroupRef>, k: nat)
    requires k <= |groups|
    ensures ToTiles(groups)[..k] == ToTiles(groups[..k]) && ToTiles(groups)[k..] == ToTiles(groups[k..])
  {
  }

  lemma DistinctSlices(groups: seq<GroupRef>, k: nat)
    requires k <= |groups| && Distinct(groups)
    ensures Distinct(groups[..k]) && Distinct(groups[k..])
    ensures forall i, j :: 0 <= i < k <= j < |groups| ==> groups[i] != groups[j]
  {
    forall i, j | 0 <= i < j < |groups| - k
      ensures groups[k..][i] != groups[k..][j]
    {
      assert groups[k..][i] == groups[k + i] && groups[k..][j] == groups[k + j];
    }
  }

  /**
   * The C++ pieces agree with the TypeScript layout parts: for distinct
   * groups, the result has exactly the groups as keys, and group i gets
   * the rectangle the corresponding part gives tile i.
   */
  lemma {:induction false} ApplyAgreesWithLayoutPart(p: Piece, area: Rect, groups: seq<GroupRef>, gap: int)
    requires PositiveWeights(groups) && Distinct(groups)
    ensures LayoutPart.PositiveWeights(ToTiles(groups)) && LayoutPart.ApplyDefined(ToPart(p, gap), ToTiles(groups))
    ensures forall x :: x in Apply(p, area, groups, gap) <==> x in groups
    ensures forall i :: 0 <= i < |groups| ==>
      Apply(p, area, groups, gap)[groups[i]] == LayoutPart.Apply(ToPart(p, gap), area, ToTiles(groups))[i]
    decreases p
  {
    TilesApplyDefined(p, groups, gap);
    match p
    case FillPiece =>
      LeafAgrees(p, area, groups, gap);
    case StackPiece =>
      LeafAgrees(p, area, groups, gap);
    case HalfSplitPiece(primary, secondary, angle, primarySize, ratio) =>
      if |groups| <= primarySize {
        ApplyAgreesWithLayoutPart(primary, area, groups, gap);
      } else if primarySize == 0 {
        ApplyAgreesWithLayoutPart(secondary, area, groups, gap);
      } else {
        HalfSplitAgrees(p, area, groups, gap);
      }
  }

  /** The fill and stack pieces agree with the fill and stack parts. */
  lemma LeafAgrees(p: Piece, area: Rect, groups: seq<GroupRef>, gap: int)
    requires PositiveWeights(groups) && Distinct(groups) && !p.HalfSplitPiece?
    ensures LayoutPart.PositiveWeights(ToTiles(groups)) && LayoutPart.ApplyDefined(ToPart(p, gap), ToTiles(groups))
    ensures forall x :: x in Apply(p, area, groups, gap) <==> x in groups
    ensures forall i :: 0 <= i < |groups| ==>
      Apply(p, area, groups, gap)[groups[i]] == LayoutPart.Apply(ToPart(p, gap), area, ToTiles(groups))[i]
  {
    TilesApplyDefined(p, groups, gap);
    var tiles := ToTiles(groups);
    assert LayoutPart.Weights(tiles) == GroupsWeights(groups);
    if p.FillPiece? {
      AssignMaps(groups, seq(|groups|, _ => area));
    } else {
      AssignMaps(groups, SplitAreaWeighted(area, GroupsWeights(groups), gap, false));
    }
  }

  lemma HalfSplitAgrees(p: Piece, area: Rect, groups: seq<GroupRef>, gap: int)
    requires PositiveWeights(groups) && Distinct(groups)
    requires p.HalfSplitPiece? && 0 < p.primarySize < |groups|
    ensures LayoutPart.PositiveWeights(ToTiles(groups)) && LayoutPart.ApplyDefined(ToPart(p, gap), ToTiles(groups))
    ensures forall x :: x in Apply(p, area, groups, gap) <==> x in groups
    ensures forall i :: 0 <= i < |groups| ==>
      Apply(p, area, groups, gap)[groups[i]] == LayoutPart.Apply(ToPart(p, gap), area, ToTiles(groups))[i]
    decreases p, 0
  {
    TilesApplyDefined(p, groups, gap);
    var k := p.primarySize;
    var (a1, a2) := HalfSplitAreas(p, area, gap);
    var g1, g2 := groups[..k], groups[k..];
    DistinctSlices(groups, k);
    ApplyAgreesWithLayoutPart(p.primary, a1, g1, gap);
    ApplyAgreesWithLayoutPart(p.secondary, a2, g2, gap);
    HalfSplitPieceUnfolds(p, area, groups, gap);
    HalfSplitPartUnfolds(p, area, groups, gap);
    UnionAgrees(groups, k, Apply(p.primary, a1, g1, gap), Apply(p.secondary, a2, g2, gap),
      LayoutPart.Apply(ToPart(p, gap), area, ToTiles(groups)),
      LayoutPart.Apply(ToPart(p.primary, gap), a1, ToTiles(g1)),
      LayoutPart.Apply(ToPart(p.secondary, gap), a2, ToTiles(g2)));
  }

  /** The areas of a half-split's primary and secondary. */
  function HalfSplitAreas(p: Piece, area: Rect, gap: int): (Rect, Rect)
    requires p.HalfSplitPiece?
  {
    var reversed := LayoutPart.Reversed(p.angle);
    var halves := SplitAreaHalfWeighted(area, if reversed then 1.0 - p.ratio else p.ratio, gap, LayoutPart.Horizontal(p.angle));
    if reversed then (halves[1], halves[0]) else (halves[0], halves[1])
  }

  lemma HalfSplitPieceUnfolds(p: Piece, area: Rect, groups: seq<GroupRef>, gap: int)
    requires PositiveWeights(groups)
    requires p.HalfSplitPiece? && 0 < p.primarySize < |groups|
    ensures var (a1, a2) := HalfSplitAreas(p, area, gap);
      Apply(p, area, groups, gap)
        == Apply(p.secondary, a2, groups[p.primarySize..], gap) + Apply(p.primary, a1, groups[..p.primarySize], gap)
  {
  }

  /**
   * A half-split with no more groups than its primary size hands them all
   * to the primary on the whole area; with a primary size of 0 (and some
   * groups) it hands them all to the secondary.
   */
  lemma HalfSplitDelegates(p: Piece, area: Rect, groups: seq<GroupRef>, gap: int)
    requires PositiveWeights(groups) && p.HalfSplitPiece?
    ensures |groups| <= p.primarySize ==> Apply(p, area, groups, gap) == Apply(p.primary, area, groups, gap)
    ensures p.primarySize == 0 < |groups| ==> Apply(p, area, groups, gap) == Apply(p.secondary, area, groups, gap)
  {
  }

  lemma HalfSplitPartUnfolds(p: Piece, area: Rect, groups: seq<GroupRef>, gap: int)
    requires PositiveWeights(groups)
    requires p.HalfSplitPiece? && 0 < p.primarySize < |groups|
    ensures LayoutPart.PositiveWeights(ToTiles(groups)) && LayoutPart.ApplyDefined(ToPart(p, gap), ToTiles(groups))
    ensures LayoutPart.ApplyDefined(ToPart(p.primary, gap), ToTiles(groups[..p.primarySize]))
    ensures LayoutPart.ApplyDefined(ToPart(p.secondary, gap), ToTiles(groups[p.primarySize..]))
    ensures var (a1, a2) := HalfSplitAreas(p, area, gap);
      var t := LayoutPart.Apply(ToPart(p, gap), area, ToTiles(groups));
      t[..p.primarySize] == LayoutPart.Apply(ToPart(p.primary, gap), a1, ToTiles(groups[..p.primarySize]))
      && t[p.primarySize..] == LayoutPart.Apply(ToPart(p.secondary, gap), a2, ToTiles(groups[p.primarySize..]))
  {
    TilesApplyDefined(p, groups, gap);
    PositiveSlices(groups, p.primarySize);
    TilesApplyDefined(p.primary, groups[..p.primarySize], gap);
    TilesApplyDefined(p.secondary, groups[p.primarySize..], gap);
    var part, tiles := ToPart(p, gap), ToTiles(groups);
    assert part == LayoutPart.HalfSplit(ToPart(p.primary, gap), ToPart(p.secondary, gap), p.angle, gap, p.primarySize, p.ratio);
    ToTilesSlices(groups, p.primarySize);
    LayoutPart.HalfSplitApplyBoth(part, area, tiles);
  }

  lemma PositiveSlices(groups: seq<GroupRef>, k: nat)
    requires PositiveWeights(groups) && k <= |groups|
    ensures PositiveWeights(groups[..k]) && PositiveWeights(groups[k..])
  {
    assert forall i :: 0 <= i < |groups| - k ==> groups[k..][i] == groups[k + i];
  }

  /** Positive group weights make every part of the corresponding layout-part tree defined. */
  lemma TilesApplyDefined(p: Piece, groups: seq<GroupRef>, gap: int)
    requires PositiveWeights(groups)
    ensures LayoutPart.PositiveWeights(ToTiles(groups)) && LayoutPart.ApplyDefined(ToPart(p, gap), ToTiles(groups))
  {
    LayoutPart.PositiveApplyDefined(ToPart(p, gap), ToTiles(groups));
  }

  /** Looking up the union: the primary's entries for the first k groups, the secondary's for the rest. */
  lemma UnionAgrees(groups: seq<GroupRef>, k: nat, r1: map<GroupRef, Rect>, r2: map<GroupRef, Rect>,
                    t: seq<Rect>, t1: seq<Rect>, t2: seq<Rect>)
    requires k <= |groups| == |t| && t[..k] == t1 && t[k..] == t2
    requires forall i, j :: 0 <= i < k <= j < |groups| ==> groups[i] != groups[j]
    requires forall x :: x in r1 <==> x in groups[..k]
    requires forall x :: x in r2 <==> x in groups[k..]
    requires forall i :: 0 <= i < k ==> r1[groups[..k][i]] == t1[i]
    requires forall i :: 0 <= i < |groups| - k ==> r2[groups[k..][i]] == t2[i]
    ensures forall x :: x in r2 + r1 <==> x in groups
    ensures forall i :: 0 <= i < |groups| ==> (r2 + r1)[groups[i]] == t[i]
  {
    assert groups == groups[..k] + groups[k..];
    forall i | 0 <= i < |groups|
      ensures (r2 + r1)[groups[i]] == t[i]
    {
      if i < k {
        assert groups[..k][i] == groups[i] && t1[i] == t[i];
      } else {
        assert groups[k..][i - k] == groups[i] && t2[i - k] == t[i];
        assert groups[i] !in groups[..k] by {
          forall j | 0 <= j < k
            ensures groups[..k][j] != groups[i]
          {
            assert groups[..k][j] == groups[j];
          }
        }
      }
    }
  }

  // ---------------------------------------------------------------------------
  // The engine's own checks of the pieces

  lemma FillSingle(area: Rect, g: GroupRef)
    requires g.weight > 0.0
    ensures Apply(FillPiece, area, [g], 0) == map[g := area]
  {
    var rects := seq(1, _ => area);
    assert [g][..0] == [] && rects[..0] == [] && rects[0] == area;
    assert Assign([g], rects) == Assign([], [])[g := area];
  }

  /** An empty stack places nothing; a single group gets the whole area. */
  lemma StackSmallCases(area: Rect, g: GroupRef, gap: int)
    requires g.weight > 0.0
    ensures StackResult(area, [], gap) == map[]
    ensures StackResult(area, [g], gap) == map[g := area]
  {
    var w := GroupsWeights([g]);
    assert w[..0] == [] && w[..1] == w;
    var parts := SplitWeighted(Segment(area.y, area.height), w, gap);
    assert Sum(w) == g.weight;
    ShareWhole(area.height, g.weight);
    assert Share(area.height, Sum(w[..0]), Sum(w)) == 0.0;
    assert parts[0] == Segment(area.y, area.height);
    var rects := SplitAreaWeighted(area, w, gap, false);
    assert rects[0] == area;
    assert [g][..0] == [] && rects[..0] == [];
  }

  /** Four groups of weight 1 stacked over (0, 0, 100, 100) without gaps are 25 px high, at y = 0, 25, 50 and 75. */
  lemma StackFourEqual(g1: GroupRef, g2: GroupRef, g3: GroupRef, g4: GroupRef)
    requires g1.weight == g2.weight == g3.weight == g4.weight == 1.0
    requires Distinct([g1, g2, g3, g4])
    ensures var r := StackResult(Rect(0, 0, 100, 100), [g1, g2, g3, g4], 0);
      r.Keys == {g1, g2, g3, g4}
      && r[g1] == Rect(0, 0, 100, 25) && r[g2] == Rect(0, 25, 100, 25)
      && r[g3] == Rect(0, 50, 100, 25) && r[g4] == Rect(0, 75, 100, 25)
  {
    var gs := [g1, g2, g3, g4];
    var w := GroupsWeights(gs);
    assert w == [1.0, 1.0, 1.0, 1.0];
    FourOnesSums();
    var rects := SplitAreaWeighted(Rect(0, 0, 100, 100), w, 0, false);
    FourQuarters(w, rects);
    AssignFour(gs, rects);
  }

  /** Four distinct groups are sent to their own rects, and are the only keys. */
  lemma AssignFour(gs: seq<GroupRef>, rects: seq<Rect>)
    requires |gs| == |rects| == 4 && Distinct(gs)
    ensures var r := Assign(gs, rects);
      r.Keys == {gs[0], gs[1], gs[2], gs[3]}
      && r[gs[0]] == rects[0] && r[gs[1]] == rects[1] && r[gs[2]] == rects[2] && r[gs[3]] == rects[3]
  {
    AssignMaps(gs, rects);
    var r := Assign(gs, rects);
    forall x | x in r
      ensures x in {gs[0], gs[1], gs[2], gs[3]}
    {
      assert x in gs;
      var k :| 0 <= k < 4 && gs[k] == x;
    }
  }

  /** Four equal weights split (0, 0, 100, 100) vertically into four 25 px bands. */
  lemma FourQuarters(w: seq<real>, rects: seq<Rect>)
    requires w == [1.0, 1.0, 1.0, 1.0] && Sum(w) == 4.0
    requires rects == SplitAreaWeighted(Rect(0, 0, 100, 100), w, 0, false)
    ensures |rects| == 4
    ensures rects[0] == Rect(0, 0, 100, 25) && rects[1] == Rect(0, 25, 100, 25)
    ensures rects[2] == Rect(0, 50, 100, 25) && rects[3] == Rect(0, 75, 100, 25)
  {
    FourOnesSums();
    var parts := SplitWeighted(Segment(0, 100), w, 0);
    assert parts[0] == Segment(0, 25);
    assert parts[1] == Segment(25, 25);
    assert parts[2] == Segment(50, 25);
    assert parts[3] == Segment(75, 25);
  }

  lemma FourOnesSums()
    ensures var w := [1.0, 1.0, 1.0, 1.0];
      Sum(w[..0]) == 0.0 && Sum(w[..1]) == 1.0 && Sum(w[..2]) == 2.0 && Sum(w[..3]) == 3.0 && Sum(w) == 4.0
  {
    var w := [1.0, 1.0, 1.0, 1.0];
    assert w[..0] == [] && w[..1] == [1.0] && w[..2] == [1.0, 1.0] && w[..3] == [1.0, 1.0, 1.0];
    assert w[..2][..1] == [1.0] && w[..3][..2] == [1.0, 1.0] && w[..4] == w && w[..4][..3] == w[..3];
    assert Sum(w[..1]) == 1.0;
    assert Sum(w[..2]) == 2.0;
    assert Sum(w[..3]) == 3.0;
  }

  /**
   * A half-split of two fill pieces, unrotated, primary size 1 and ratio
   * one half, places two groups on the two 50 px halves of (0, 0, 100, 100)
   * without gaps, and a single group on the whole area.
   */
  lemma HalfSplitTwoHalves(g1: GroupRef, g2: GroupRef)
    requires g1.weight > 0.0 && g2.weight > 0.0 && g1 != g2
    ensures var p := HalfSplitPiece(FillPiece, FillPiece, 0, 1, 0.5);
      var r := Apply(p, Rect(0, 0, 100, 100), [g1, g2], 0);
      r.Keys == {g1, g2} && r[g1] == Rect(0, 0, 50, 100) && r[g2] == Rect(50, 0, 50, 100)
    ensures Apply(HalfSplitPiece(FillPiece, FillPiece, 0, 1, 0.5), Rect(0, 0, 100, 100), [g1], 0) == map[g1 := Rect(0, 0, 100, 100)]
  {
    var area := Rect(0, 0, 100, 100);
    var w := HalfWeights(0.5);
    assert w[..0] == [] && w[..1] == [0.5];
    assert Sum(w[..1]) == 0.5;
    var parts := SplitWeighted(Segment(0, 100), w, 0);
    assert parts[0] == Segment(0, 50);
    assert parts[1] == Segment(50, 50);
    var halves := SplitAreaHalfWeighted(area, 0.5, 0, true);
    assert halves[0] == Rect(0, 0, 50, 100) && halves[1] == Rect(50, 0, 50, 100);
    var gs := [g1, g2];
    assert gs[..1] == [g1] && gs[1..] == [g2] && [g1][..0] == [] && [g2][..0] == [];
    var p := HalfSplitPiece(FillPiece, FillPiece, 0, 1, 0.5);
    assert HalfSplitAreas(p, area, 0) == (halves[0], halves[1]);
    FillSingle(halves[0], g1);
    FillSingle(halves[1], g2);
    HalfSplitPieceUnfolds(p, area, gs, 0);
    assert Apply(p, area, gs, 0) == map[g2 := halves[1]] + map[g1 := halves[0]];
    FillSingle(area, g1);
  }
}
