// The stair layout (src/kwinscript/engine/layout/stair_layout.ts).
//
// Tiles share the area's south-east corner; tile i starts `space` pixels
// lower than tile i - 1 and `space` pixels further west, so each one shows
// a step of its predecessor.

module Stair {
  import opened Types
  import opened Geometry
  import opened Window

  /** The smallest and largest step, and the change per action, in pixels. */
  const MinSpace: int := 16
  const MaxSpace: int := 160
  const SpaceStep: int := 8

  /** The geometry of tile i of n with the given step. */
  function StairRect(area: Rect, space: int, n: nat, i: nat): Rect
  {
    var dx, dy := space * (n - i - 1), space * i;
    Rect(area.x + dx, area.y + dy, area.width - dx, area.height - dy)
  }

  /**
   * All tiles end at the area's south-east corner and start within it: the
   * first at the top, the last at the west edge, and each one a step lower
   * and a step further west than the one before.
   */
  lemma StairShape(area: Rect, space: int, n: nat, i: nat)
    requires i < n && space >= 0
    ensures var r := StairRect(area, space, n, i);
      r.MaxX() == area.MaxX() && r.MaxY() == area.MaxY()
      && area.x <= r.x && area.y <= r.y
      && (i == 0 ==> r.y == area.y) && (i == n - 1 ==> r.x == area.x)
      && (i + 1 < n ==> var s := StairRect(area, space, n, i + 1); s.x == r.x - space && s.y == r.y + space)
  {
    var k: nat := n - i - 1;
    MulNonNegative(space, k);
    MulNonNegative(space, i);
    if i + 1 < n {
      MulPred(space, k);
      MulSucc(space, i);
    }
  }

  lemma MulNonNegative(a: int, b: nat)
    requires a >= 0
    ensures a * b >= 0
  {
  }

  lemma MulPred(a: int, b: int)
    ensures a * (b - 1) == a * b - a
  {
  }

  lemma MulSucc(a: int, b: int)
    ensures a * (b + 1) == a * b + a
  {
  }

  /** Gives tile i of the list its stair step; nothing but the geometries changes. */
  method PlaceStairs(tiles: seq<EngineWindow>, area: Rect, space: int)
    requires DistinctWindows(tiles)
    modifies set w | w in tiles
    ensures forall i :: 0 <= i < |tiles| ==> tiles[i].geometry == StairRect(area, space, |tiles|, i) && OnlyGeometryChanged(tiles[i])
  {
    var len := |tiles|;
    for i := 0 to len
      invariant forall j :: 0 <= j < i ==> tiles[j].geometry == StairRect(area, space, len, j) && OnlyGeometryChanged(tiles[j])
      invariant forall j :: i <= j < len ==> unchanged(tiles[j])
    {
      var dx := space * (len - i - 1);
      var dy := space * i;
      tiles[i].geometry := Rect(area.x + dx, area.y + dy, area.width - dx, area.height - dy);
    }
  }

  class StairLayout {
    var space: int

    /** The step is one of 16, 24, ..., 160 pixels. */
    predicate Valid()
      reads this
    {
      MinSpace <= space <= MaxSpace && space % SpaceStep == 0
    }

    constructor ()
      ensures Valid() && space == 24
    {
      space := 24;
    }

    /** A layout with the same step. */
    method Clone() returns (other: StairLayout)
      ensures fresh(other) && other.space == space
    {
      other := new StairLayout();
      other.space := space;
    }

    /** Tiles every tileable, then gives tile i its stair step. */
    method Apply(tileables: seq<EngineWindow>, area: Rect)
      requires DistinctWindows(tileables)
      modifies set w | w in tileables
      ensures forall i :: 0 <= i < |tileables| ==>
        AskedFor(tileables[i], Tiled) && tileables[i].geometry == StairRect(area, space, |tileables|, i)
    {
      SetStates(tileables, Tiled);
      PlaceStairs(tileables, area, space);
    }

    /**
     * Decreasing the master count narrows the step by 8 pixels down to 16,
     * increasing it widens it by 8 up to 160; any other action is left to
     * the engine (handled is false).
     */
    method ExecuteAction(action: Action) returns (handled: bool)
      requires Valid()
      modifies this
      ensures Valid()
      ensures handled <==> action.IncreaseMasterAreaWindowCount? || action.DecreaseMasterAreaWindowCount?
      ensures action.DecreaseMasterAreaWindowCount? ==>
        space == (if old(space) - SpaceStep < MinSpace then MinSpace else old(space) - SpaceStep)
      ensures action.IncreaseMasterAreaWindowCount? ==>
        space == (if old(space) + SpaceStep > MaxSpace then MaxSpace else old(space) + SpaceStep)
      ensures !handled ==> space == old(space)
    {
      if action.DecreaseMasterAreaWindowCount? {
        space := if space - SpaceStep < MinSpace then MinSpace else space - SpaceStep;
        handled := true;
      } else if action.IncreaseMasterAreaWindowCount? {
        space := if space + SpaceStep > MaxSpace then MaxSpace else space + SpaceStep;
        handled := true;
      } else {
        handled := false;
      }
    }
  }
}
