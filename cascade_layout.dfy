// The cascade layout (src/kwinscript/engine/layout/cascade_layout.ts).
//
// Every tile gets the same size; each one is placed a fixed step further
// in the cascade direction than the one before, so that together they
// fill the area from one corner (or edge) to the opposite one.

module Cascade {
  import opened Types
  import opened Geometry
  import opened Window

  /** The eight compass directions, numbered clockwise from north-west (0) to west (7). */
  type CascadeDirection = d: int | 0 <= d < 8

  /** The distance between the corners of successive tiles, in pixels. */
  const StepSize: int := 25

  /** The vertical and horizontal component of a direction, each -1, 0 or 1 (north and west are negative). */
  function DecomposeDirection(dir: CascadeDirection): (r: (int, int))
    ensures -1 <= r.0 <= 1 && -1 <= r.1 <= 1 && r != (0, 0)
  {
    match dir
    case 0 => (-1, -1)
    case 1 => (-1, 0)
    case 2 => (-1, 1)
    case 3 => (0, 1)
    case 4 => (1, 1)
    case 5 => (1, 0)
    case 6 => (1, -1)
    case 7 => (0, -1)
  }

  /** Distinct directions have distinct steps, and the opposite direction (four on) has the negated step. */
  lemma DecomposeDirectionFaithful(d: CascadeDirection, e: CascadeDirection)
    ensures DecomposeDirection(d) == DecomposeDirection(e) ==> d == e
    ensures var o := DecomposeDirection((d + 4) % 8); o == (-DecomposeDirection(d).0, -DecomposeDirection(d).1)
  {
  }

  /** The next direction clockwise (step 1) or counter-clockwise (step -1). */
  function Turned(dir: CascadeDirection, step: Step): (r: CascadeDirection)
    ensures r == (dir + step) % 8
  {
    (dir + step + 8) % 8
  }

  /** Turning one way and then the other gives back the direction. */
  lemma TurnedInverse(dir: CascadeDirection)
    ensures Turned(Turned(dir, 1), -1) == dir && Turned(Turned(dir, -1), 1) == dir
  {
    if dir == 7 {
      assert Turned(dir, 1) == 0 && Turned(0, -1) == 7;
    } else {
      assert Turned(dir, 1) == dir + 1;
    }
    if dir == 0 {
      assert Turned(dir, -1) == 7 && Turned(7, 1) == 0;
    } else {
      assert Turned(dir, -1) == dir - 1;
    }
  }

  /** The direction after `k` clockwise turns. */
  function TurnedTimes(dir: CascadeDirection, k: nat): CascadeDirection
  {
    if k == 0 then dir else Turned(TurnedTimes(dir, k - 1), 1)
  }

  /** After `k` clockwise turns the cascade points `k` directions on; eight turns make a full circle. */
  lemma {:induction false} TurnedTimesAdds(dir: CascadeDirection, k: nat)
    ensures TurnedTimes(dir, k) == (dir + k) % 8
    ensures k == 8 ==> TurnedTimes(dir, k) == dir
  {
    if k > 0 {
      TurnedTimesAdds(dir, k - 1);
      ModSucc(dir + k - 1);
    }
  }

  lemma ModSucc(a: nat)
    ensures (a % 8 + 1) % 8 == (a + 1) % 8
  {
    var q, r := a / 8, a % 8;
    assert a == 8 * q + r;
    if r < 7 {
      ModOf(a + 1, q, r + 1);
      ModOf(r + 1, 0, r + 1);
    } else {
      ModOf(a + 1, q + 1, 0);
      ModOf(r + 1, 1, 0);
    }
  }

  /** The remainder by 8 of 8q + r, for r in [0, 8). */
  lemma ModOf(x: int, q: int, r: int)
    requires 0 <= r < 8 && x == 8 * q + r
    ensures x % 8 == r
  {
  }

  /** The tiles' common size along one axis: shrunk by one step per extra tile when the cascade moves along it. */
  function TileLength(length: int, axisStep: int, n: nat): int
  {
    if axisStep != 0 then length - StepSize * (n - 1) else length
  }

  /** Where the first tile starts along one axis: at the near edge, or far enough from the far edge when the cascade runs backwards. */
  function BaseOffset(begin: int, length: int, axisStep: int, n: nat): int
  {
    if axisStep >= 0 then begin else begin + length - TileLength(length, axisStep, n)
  }

  /** The geometry of tile i of n. */
  function TileRect(area: Rect, dir: CascadeDirection, n: nat, i: nat): Rect
  {
    var (vert, horz) := DecomposeDirection(dir);
    Rect(BaseOffset(area.x, area.width, horz, n) + i * horz * StepSize,
         BaseOffset(area.y, area.height, vert, n) + i * vert * StepSize,
         TileLength(area.width, horz, n), TileLength(area.height, vert, n))
  }

  /**
   * The cascade fills the area: every tile lies within it, the first one
   * touches the edges the cascade starts from and the last one the edges
   * it ends at; each tile is one step further than the previous.
   */
  lemma CascadeFillsArea(area: Rect, dir: CascadeDirection, n: nat, i: nat)
    requires i < n
    ensures var r, (vert, horz) := TileRect(area, dir, n, i), DecomposeDirection(dir);
      area.x <= r.x && r.MaxX() <= area.MaxX() && area.y <= r.y && r.MaxY() <= area.MaxY()
      && (horz == 0 ==> r.x == area.x && r.width == area.width)
      && (vert == 0 ==> r.y == area.y && r.height == area.height)
      && (i == 0 && horz >= 0 ==> r.x == area.x) && (i == 0 && horz < 0 ==> r.MaxX() == area.MaxX())
      && (i == n - 1 && horz > 0 ==> r.MaxX() == area.MaxX()) && (i == n - 1 && horz < 0 ==> r.x == area.x)
      && (i == 0 && vert >= 0 ==> r.y == area.y) && (i == 0 && vert < 0 ==> r.MaxY() == area.MaxY())
      && (i == n - 1 && vert > 0 ==> r.MaxY() == area.MaxY()) && (i == n - 1 && vert < 0 ==> r.y == area.y)
      && (i + 1 < n ==> TileRect(area, dir, n, i + 1) == Rect(r.x + horz * StepSize, r.y + vert * StepSize, r.width, r.height))
  {
    var (vert, horz) := DecomposeDirection(dir);
    AxisWithin(area.x, area.width, horz, n, i);
    AxisWithin(area.y, area.height, vert, n, i);
  }

  lemma AxisWithin(begin: int, length: int, axisStep: int, n: nat, i: nat)
    requires i < n && -1 <= axisStep <= 1
    ensures var b, l := BaseOffset(begin, length, axisStep, n) + i * axisStep * StepSize, TileLength(length, axisStep, n);
      begin <= b && b + l <= begin + length
      && (axisStep == 0 ==> b == begin && l == length)
      && (i == 0 && axisStep >= 0 ==> b == begin) && (i == 0 && axisStep < 0 ==> b + l == begin + length)
      && (i == n - 1 && axisStep > 0 ==> b + l == begin + length) && (i == n - 1 && axisStep < 0 ==> b == begin)
  {
    if axisStep == 1 {
      assert i * axisStep * StepSize == StepSize * i;
      assert StepSize * i <= StepSize * (n - 1);
    } else if axisStep == -1 {
      assert i * axisStep * StepSize == -(StepSize * i);
      assert StepSize * i <= StepSize * (n - 1);
    }
  }

  /** Tile i + 1 lies one step further than tile i; tile 0 starts at the base offsets. */
  lemma TileRectStep(area: Rect, dir: CascadeDirection, n: nat, i: nat)
    ensures var (vert, horz) := DecomposeDirection(dir);
      var r := TileRect(area, dir, n, i);
      (i == 0 ==> r == Rect(BaseOffset(area.x, area.width, horz, n), BaseOffset(area.y, area.height, vert, n),
                            TileLength(area.width, horz, n), TileLength(area.height, vert, n)))
      && (i > 0 ==> r == TileRect(area, dir, n, i - 1).(x := TileRect(area, dir, n, i - 1).x + horz * StepSize,
                                                         y := TileRect(area, dir, n, i - 1).y + vert * StepSize))
  {
    var (vert, horz) := DecomposeDirection(dir);
    if i > 0 {
      assert i * horz * StepSize == (i - 1) * horz * StepSize + horz * StepSize;
      assert i * vert * StepSize == (i - 1) * vert * StepSize + vert * StepSize;
    }
  }

  /** Asks the window to be tiled and gives it its geometry. */
  method PlaceTiled(w: EngineWindow, g: Rect)
    modifies w
    ensures AskedFor(w, Tiled) && w.geometry == g
  {
    w.SetState(Tiled);
    w.geometry := g;
  }

  class CascadeLayout {
    var dir: CascadeDirection

    /** A new layout cascading in the given direction (south-east by default). */
    constructor (dir: CascadeDirection)
      ensures this.dir == dir
    {
      this.dir := dir;
    }

    /** A layout cascading the same way. */
    method Clone() returns (other: CascadeLayout)
      ensures fresh(other) && other.dir == dir
    {
      other := new CascadeLayout(dir);
    }

    /** Tiles every tileable and gives tile i its place in the cascade. */
    method Apply(tileables: seq<EngineWindow>, area: Rect)
      requires DistinctWindows(tileables)
      modifies set w | w in tileables
      ensures forall i :: 0 <= i < |tileables| ==>
        AskedFor(tileables[i], Tiled) && tileables[i].geometry == TileRect(area, dir, |tileables|, i)
    {
      var (vertStep, horzStep) := DecomposeDirection(dir);
      var n := |tileables|;
      var windowWidth := if horzStep != 0 then area.width - StepSize * (n - 1) else area.width;
      var windowHeight := if vertStep != 0 then area.height - StepSize * (n - 1) else area.height;
      var baseX := if horzStep >= 0 then area.x else area.MaxX() - windowWidth;
      var baseY := if vertStep >= 0 then area.y else area.MaxY() - windowHeight;
      var x, y := baseX, baseY;
      TileRectStep(area, dir, n, 0);
      for i := 0 to n
        invariant Rect(x, y, windowWidth, windowHeight) == TileRect(area, dir, n, i)
        invariant forall j :: 0 <= j < i ==>
          AskedFor(tileables[j], Tiled) && tileables[j].geometry == TileRect(area, dir, n, j)
        invariant forall j :: i <= j < n ==> unchanged(tileables[j])
      {
        PlaceTiled(tileables[i], Rect(x, y, windowWidth, windowHeight));
        x := x + horzStep * StepSize;
        y := y + vertStep * StepSize;
        TileRectStep(area, dir, n, i + 1);
      }
    }

    /**
     * Increasing the master count turns the cascade clockwise, decreasing
     * it counter-clockwise; any other action is left to the engine
     * (handled is false).
     */
    method ExecuteAction(action: Action) returns (handled: bool)
      modifies this
      ensures handled <==> action.IncreaseMasterAreaWindowCount? || action.DecreaseMasterAreaWindowCount?
      ensures action.IncreaseMasterAreaWindowCount? ==> dir == Turned(old(dir), 1)
      ensures action.DecreaseMasterAreaWindowCount? ==> dir == Turned(old(dir), -1)
      ensures !handled ==> dir == old(dir)
    {
      if action.IncreaseMasterAreaWindowCount? {
        dir := (dir + 1 + 8) % 8;
        handled := true;
      } else if action.DecreaseMasterAreaWindowCount? {
        dir := (dir - 1 + 8) % 8;
        handled := true;
      } else {
        handled := false;
      }
    }
  }
}
