// The engine's own operations on the window list and the focus
// (src/kwinscript/engine/index.ts): cyclic focus and reordering, taking a
// new window under management, toggling floating, the direction flip of a
// tile resize, and the search for the nearest window in a direction.
//
// The host's notion of "visible on the current surface" and its window
// geometry and timestamps enter as function parameters; the focused window
// is a field of the engine.

module Engine {
  import opened Types
  import opened Func
  import opened Geometry
  import opened Window
  import opened WindowList

  // ---------------------------------------------------------------------------
  // Cyclic focus

  /** The `%` of JavaScript for a positive divisor: the remainder takes the sign of the dividend. */
  function JsRem(a: int, b: int): int
    requires b > 0
  {
    if a >= 0 then a % b else -((-a) % b)
  }

  /** focusOrder's new index, computed with JavaScript's remainder. */
  function FocusIndex(idx: nat, step: Step, num: nat): int
    requires idx < num
  {
    JsRem(idx + JsRem(step, num) + num, num)
  }

  /**
   * The new index is in range and is one step on or back, wrapping around:
   * the same index wrapIndex gives, and the Euclidean remainder of
   * `idx + step`.
   */
  lemma FocusIndexWraps(idx: nat, step: Step, num: nat)
    requires idx < num
    ensures FocusIndex(idx, step, num) == WrapIndex(idx + step, num)
    ensures 0 <= FocusIndex(idx, step, num) < num
    ensures FocusIndex(idx, step, num) == (idx + step) % num
  {
    ModSmall(num, 1 % num);
    if num == 1 {
      ModSmall(1, 0);
      assert JsRem(step, num) == 0;
      assert FocusIndex(idx, step, num) == 0;
    } else {
      ModSmall(num, 1);
      assert JsRem(step, num) == step;
      var a := idx + step;
      if a == num {
        ModSmall(num, 0);
      } else if a == -1 {
        ModSmall(num, num - 1);
      } else {
        ModSmall(num, a);
      }
    }
  }

  /** The remainders of a number within one divisor below, at or above the range [0, n). */
  lemma ModSmall(n: int, r: int)
    requires n > 0 && 0 <= r < n
    ensures r % n == r && (n + r) % n == r && (2 * n) % n == 0 && (r - n) % n == r
  {
    ModWithin(n, r);
    ModAbove(n, r);
    ModTwice(n);
    ModBelow(n, r);
  }

  lemma ModWithin(n: int, r: int)
    requires n > 0 && 0 <= r < n
    ensures r % n == r
  {
  }

  lemma ModAbove(n: int, r: int)
    requires n > 0 && 0 <= r < n
    ensures (n + r) % n == r
  {
  }

  lemma ModTwice(n: int)
    requires n > 0
    ensures (2 * n) % n == 0
  {
  }

  lemma ModBelow(n: int, r: int)
    requires n > 0 && 0 <= r < n
    ensures (r - n) % n == r
  {
  }

  /**
   * The window focusOrder selects from a non-empty list: the first one when
   * nothing is focused or the focused window is not listed, otherwise its
   * neighbour one step on or back.
   */
  function FocusTarget(ws: seq<WindowId>, current: Option<WindowId>, step: Step): (r: WindowId)
    requires |ws| > 0
    ensures r in ws
    ensures current.None? || current.value !in ws ==> r == ws[0]
    ensures current.Some? && current.value in ws ==> r == ws[(IndexOf(ws, current.value) + step) % |ws|]
  {
    if current.None? then ws[0]
    else
      var idx := IndexOf(ws, current.value);
      if idx < 0 then ws[0]
      else
        FocusIndexWraps(idx, step, |ws|);
        ws[FocusIndex(idx, step, |ws|)]
  }

  /** In a list without repeats a listed window is found at its own position. */
  lemma IndexOfDistinct(ws: seq<WindowId>, i: nat)
    requires Distinct(ws) && i < |ws|
    ensures IndexOf(ws, ws[i]) == i
  {
  }

  /** Focusing forward and then back returns to the focused window. */
  lemma FocusForwardBack(ws: seq<WindowId>, current: WindowId)
    requires Distinct(ws) && current in ws
    ensures FocusTarget(ws, Some(FocusTarget(ws, Some(current), 1)), -1) == current
    ensures FocusTarget(ws, Some(FocusTarget(ws, Some(current), -1)), 1) == current
  {
    var i := IndexOf(ws, current);
    FocusThenReturn(ws, i, 1, -1);
    FocusThenReturn(ws, i, -1, 1);
  }

  lemma FocusThenReturn(ws: seq<WindowId>, i: nat, step: Step, back: Step)
    requires Distinct(ws) && i < |ws| && back + step == 0
    ensures FocusTarget(ws, Some(FocusTarget(ws, Some(ws[i]), step)), back) == ws[i]
  {
    var n := |ws|;
    var j := (i + step) % n;
    StepBackAndOn(i, n);
    FocusTargetAt(ws, i, step);
    FocusTargetAt(ws, j, back);
    assert (j + back) % n == i;
  }

  /** In a list without repeats, focusing from the window at i lands on position i + step, wrapped. */
  lemma FocusTargetAt(ws: seq<WindowId>, i: nat, step: Step)
    requires Distinct(ws) && i < |ws|
    ensures FocusTarget(ws, Some(ws[i]), step) == ws[(i + step) % |ws|]
  {
    IndexOfDistinct(ws, i);
  }

  /** One step on and one step back, both wrapped, cancel. */
  lemma StepBackAndOn(i: int, n: int)
    requires 0 <= i < n
    ensures ((i + 1) % n - 1) % n == i
    ensures ((i - 1) % n + 1) % n == i
  {
    if i + 1 == n {
      ModSmall(n, 0);
      ModSmall(n, n - 1);
    } else {
      ModSmall(n, i + 1);
      ModSmall(n, i);
    }
    if i == 0 {
      ModSmall(n, n - 1);
      ModSmall(n, 0);
    } else {
      ModSmall(n, i - 1);
      ModSmall(n, i);
    }
  }

  // ---------------------------------------------------------------------------
  // Reordering and management

  /**
   * The window swapOrder moves `w` onto (when there are at least two
   * visible windows): the visible window one step on or back, wrapping
   * around. An unlisted `w` counts as index -1, which picks the first window
   * going forward and the second-to-last going back.
   */
  function SwapDestination(visibles: seq<WindowId>, w: WindowId, step: Step): (r: WindowId)
    requires |visibles| >= 2
    ensures r in visibles
    ensures w in visibles ==> r == visibles[(IndexOf(visibles, w) + step) % |visibles|]
    ensures w !in visibles ==> r == visibles[if step == 1 then 0 else |visibles| - 2]
  {
    var vsrc := IndexOf(visibles, w);
    visibles[WrapIndex(vsrc + step, |visibles|)]
  }

  /**
   * Where manage puts a new window: first when new windows become master,
   * right after the focused window when there is one, else last.
   */
  function Managed(list: seq<WindowId>, w: WindowId, asMaster: bool, current: Option<WindowId>): (r: seq<WindowId>)
    ensures multiset(r) == multiset(list) + multiset{w}
    ensures asMaster ==> r[0] == w
    ensures !asMaster && current.None? ==> r[|r| - 1] == w
    ensures !asMaster && current.Some? && current.value in list ==> r[IndexOf(list, current.value) + 1] == w
  {
    if asMaster then [w] + list
    else if current.Some? then
      InsertAtMultiset(list, IndexOf(list, current.value) + 1, w);
      InsertedAfter(list, current.value, w)
    else list + [w]
  }

  /** Unmanaging a window that manage just added gives back the list it had before. */
  lemma ManageUnmanageRoundTrip(list: seq<WindowId>, w: WindowId, asMaster: bool, current: Option<WindowId>)
    requires w !in list
    ensures Removed(Managed(list, w, asMaster, current), w) == list
  {
    if asMaster {
      assert IndexOf([w] + list, w) == 0;
      assert ([w] + list)[1..] == list;
    } else if current.Some? {
      var i := IndexOf(list, current.value) + 1;
      var r := InsertAt(list, i, w);
      var pos := Min(i, |list|);
      assert forall j :: 0 <= j < pos ==> r[j] != w;
      assert IndexOf(r, w) == pos;
      InsertRemoveRoundTrip(list, i, w);
    } else {
      PushRemoveRoundTrip(list, w);
    }
  }

  /** toggleFloat's target state: a tileable window starts floating, any other becomes tiled. */
  function ToggleFloatTarget(s: WindowState): (r: WindowState)
    ensures IsTileableState(s) ==> IsFloatingState(r) && !IsTileableState(r)
    ensures !IsTileableState(s) ==> IsTiledState(r)
  {
    if !IsTileableState(s) then Tiled else Floating
  }

  /** Toggling twice lands on Tiled or Floating again with tileability restored; a third toggle repeats the first. */
  lemma ToggleFloatTwice(s: WindowState)
    ensures IsTileableState(ToggleFloatTarget(ToggleFloatTarget(s))) == IsTileableState(s)
    ensures ToggleFloatTarget(ToggleFloatTarget(ToggleFloatTarget(s))) == ToggleFloatTarget(s)
  {
  }

  // ---------------------------------------------------------------------------
  // Resizing a tile

  datatype Compass = East | West | South | North

  /**
   * resizeTile's direction and step: growing east (south) with no tiled
   * window at or past the east (south) edge becomes shrinking from the west
   * (north), with the step negated.
   */
  function ResizeDirection(dir: Compass, step: Step, basis: Rect, tiled: seq<Rect>): (r: (Compass, int))
  {
    if dir == East && (forall i :: 0 <= i < |tiled| ==> tiled[i].x < basis.MaxX()) then (West, -(step as int))
    else if dir == South && (forall i :: 0 <= i < |tiled| ==> tiled[i].y < basis.MaxY()) then (North, -(step as int))
    else (dir, step as int)
  }

  /**
   * The edge delta of a tile resize, given the horizontal and vertical step
   * sizes: one edge moves by a step in the (possibly flipped) direction.
   */
  function ResizeDelta(dir: Compass, step: Step, basis: Rect, tiled: seq<Rect>, hStep: int, vStep: int): RectDelta
  {
    var (d, s) := ResizeDirection(dir, step, basis, tiled);
    match d
    case East => RectDelta(hStep * s, 0, 0, 0)
    case West => RectDelta(0, hStep * s, 0, 0)
    case South => RectDelta(0, 0, vStep * s, 0)
    case North => RectDelta(0, 0, 0, vStep * s)
  }

  /**
   * Whatever the flip, the moved edge travels the same way on screen: a
   * horizontal resize moves exactly one of the east and west edges, by
   * `step` steps towards the east (`east - west` is the eastward travel),
   * and a vertical one likewise. West and north resizes are never flipped.
   */
  lemma ResizeMovesEdgeSameWay(dir: Compass, step: Step, basis: Rect, tiled: seq<Rect>, hStep: int, vStep: int)
    ensures var d := ResizeDelta(dir, step, basis, tiled, hStep, vStep);
      (dir == East ==> d.south == 0 && d.north == 0 && (d.east == 0 || d.west == 0) && d.east - d.west == hStep * step)
      && (dir == South ==> d.east == 0 && d.west == 0 && (d.south == 0 || d.north == 0) && d.south - d.north == vStep * step)
      && (dir == West ==> d == RectDelta(0, hStep * step, 0, 0))
      && (dir == North ==> d == RectDelta(0, 0, 0, vStep * step))
  {
    var (d, s) := ResizeDirection(dir, step, basis, tiled);
    if dir == East && d == West {
      assert s == -(step as int);
      assert hStep * s == -(hStep * step);
    }
    if dir == South && d == North {
      assert s == -(step as int);
      assert vStep * s == -(vStep * step);
    }
  }

  /** With a tiled window past the east edge, growing east moves the east edge; with none, the west edge. */
  lemma ResizeEastFlip(step: Step, basis: Rect, tiled: seq<Rect>, hStep: int, vStep: int)
    ensures (exists i :: 0 <= i < |tiled| && tiled[i].x >= basis.MaxX()) ==>
      ResizeDelta(East, step, basis, tiled, hStep, vStep) == RectDelta(hStep * step, 0, 0, 0)
    ensures (forall i :: 0 <= i < |tiled| ==> tiled[i].x < basis.MaxX()) ==>
      ResizeDelta(East, step, basis, tiled, hStep, vStep) == RectDelta(0, -(hStep * step), 0, 0)
  {
    if forall i :: 0 <= i < |tiled| ==> tiled[i].x < basis.MaxX() {
      var (d, s) := ResizeDirection(East, step, basis, tiled);
      assert d == West && s == -(step as int);
      assert hStep * s == -(hStep * step);
    }
  }

  // ---------------------------------------------------------------------------
  // Nearest window in a direction

  datatype Direction = Up | Down | Left | Right

  /** A visible tiled window as the search sees it. */
  datatype Candidate = Candidate(id: WindowId, geometry: Rect, timestamp: int)

  /** The search runs on coordinates multiplied by this sign, so that "further" is always "greater". */
  function DirSign(dir: Direction): int
  {
    if dir == Down || dir == Right then 1 else -1
  }

  /**
   * A candidate lies strictly further than the basis along the direction of
   * travel and overlaps it on the other axis.
   */
  predicate IsNeighborCandidate(basis: Rect, g: Rect, dir: Direction)
  {
    var sign := DirSign(dir);
    if dir == Up || dir == Down then
      g.y * sign > basis.y * sign && Overlap(basis.x, basis.MaxX(), g.x, g.MaxX())
    else
      g.x * sign > basis.x * sign && Overlap(basis.y, basis.MaxY(), g.y, g.MaxY())
  }

  /** getNeighborCandidates: the windows that pass IsNeighborCandidate, in list order. */
  function NeighborCandidates(basis: Rect, ws: seq<Candidate>, dir: Direction): (r: seq<Candidate>)
    ensures IsSubsequence(r, ws)
    ensures forall c :: c in r <==> c in ws && IsNeighborCandidate(basis, c.geometry, dir)
    ensures forall c :: c in r && dir == Up ==> c.geometry.y < basis.y
    ensures forall c :: c in r && dir == Down ==> c.geometry.y > basis.y
    ensures forall c :: c in r && dir == Left ==> c.geometry.x < basis.x
    ensures forall c :: c in r && dir == Right ==> c.geometry.x > basis.x
  {
    var p := (c: Candidate) => IsNeighborCandidate(basis, c.geometry, dir);
    FilterIsSubsequence(ws, p);
    Filter(ws, p)
  }

  /** A coordinate of the closest-edge reduction, or the JavaScript Infinity it starts from going down or right. */
  datatype Edge = Finite(value: int) | Infinity

  /** The edge of a window facing the basis: bottom going up, top going down, right going left, left going right. */
  function FacingEdge(g: Rect, dir: Direction): int
  {
    match dir
    case Up => g.MaxY()
    case Down => g.y
    case Left => g.MaxX()
    case Right => g.x
  }

  /**
   * getClosestRelativWindowCorner: the greatest facing edge, starting from 0,
   * going up or left; the least one, starting from Infinity, going down or
   * right.
   */
  function ClosestCorner(ws: seq<Candidate>, dir: Direction): (r: Edge)
    ensures dir == Up || dir == Left ==>
      r.Finite? && r.value >= 0
      && (forall i :: 0 <= i < |ws| ==> FacingEdge(ws[i].geometry, dir) <= r.value)
      && (r.value == 0 || exists i :: 0 <= i < |ws| && FacingEdge(ws[i].geometry, dir) == r.value)
    ensures dir == Down || dir == Right ==>
      (r.Infinity? <==> |ws| == 0)
      && (r.Finite? ==> (forall i :: 0 <= i < |ws| ==> r.value <= FacingEdge(ws[i].geometry, dir))
                        && exists i :: 0 <= i < |ws| && FacingEdge(ws[i].geometry, dir) == r.value)
  {
    if |ws| == 0 then (if dir == Up || dir == Left then Finite(0) else Infinity)
    else
      var prev := ClosestCorner(ws[..|ws| - 1], dir);
      var e := FacingEdge(ws[|ws| - 1].geometry, dir);
      assert forall i :: 0 <= i < |ws| - 1 ==> ws[..|ws| - 1][i] == ws[i];
      if dir == Up || dir == Left then Finite(Max(e, prev.value))
      else if prev.Infinity? then Finite(e)
      else Finite(Min(e, prev.value))
  }

  /** getClosestRelativeWindow's test: within 5 pixels of the closest edge, to allow for misaligned tiles. */
  predicate WithinReach(c: Candidate, dir: Direction, closest: Edge)
  {
    var e := FacingEdge(c.geometry, dir);
    if dir == Up || dir == Left then closest.Finite? && e > closest.value - 5
    else closest.Infinity? || e < closest.value + 5
  }

  function ClosestWindows(ws: seq<Candidate>, dir: Direction, closest: Edge): (r: seq<Candidate>)
    ensures IsSubsequence(r, ws)
    ensures forall c :: c in r <==> c in ws && WithinReach(c, dir, closest)
  {
    var p := (c: Candidate) => WithinReach(c, dir, closest);
    FilterIsSubsequence(ws, p);
    Filter(ws, p)
  }

  /**
   * The first of the most recently used windows: what sorting by descending
   * timestamp with a stable sort puts first.
   */
  function MostRecent(ws: seq<Candidate>): (r: nat)
    requires |ws| > 0
    ensures r < |ws|
    ensures forall i :: 0 <= i < |ws| ==> ws[i].timestamp <= ws[r].timestamp
    ensures forall i :: 0 <= i < r ==> ws[i].timestamp < ws[r].timestamp
  {
    if |ws| == 1 then 0
    else
      var k := MostRecent(ws[1..]) + 1;
      if ws[0].timestamp >= ws[k].timestamp then 0 else k
  }

  /**
   * getNeighborByDirection: among the candidates within reach of the closest
   * edge, the most recently used one; nothing when there is no candidate or,
   * going up or left, when every candidate lies 5 or more pixels beyond the
   * screen origin.
   */
  function NeighborByDirection(basis: Rect, ws: seq<Candidate>, dir: Direction): (r: Option<Candidate>)
    ensures r.Some? ==> r.value in ws && IsNeighborCandidate(basis, r.value.geometry, dir)
    ensures r.Some? ==> var cands := NeighborCandidates(basis, ws, dir);
      WithinReach(r.value, dir, ClosestCorner(cands, dir))
      && forall c :: c in cands && WithinReach(c, dir, ClosestCorner(cands, dir)) ==> c.timestamp <= r.value.timestamp
  {
    var cands := NeighborCandidates(basis, ws, dir);
    if |cands| == 0 then None
    else
      var closest := ClosestWindows(cands, dir, ClosestCorner(cands, dir));
      if |closest| == 0 then None
      else
        var k := MostRecent(closest);
        assert forall c :: c in closest ==> exists i :: 0 <= i < |closest| && closest[i] == c;
        Some(closest[k])
  }

  /**
   * A neighbour is found exactly when some candidate exists, and, going up
   * or left, some candidate's facing edge is greater than -5 (the reduction
   * starts from 0, so candidates far off-screen are out of reach).
   */
  lemma NeighborFound(basis: Rect, ws: seq<Candidate>, dir: Direction)
    ensures var cands := NeighborCandidates(basis, ws, dir);
      NeighborByDirection(basis, ws, dir).Some? <==>
        (exists i :: 0 <= i < |cands| && (dir == Down || dir == Right || FacingEdge(cands[i].geometry, dir) > -5))
  {
    var cands := NeighborCandidates(basis, ws, dir);
    if |cands| > 0 {
      var corner := ClosestCorner(cands, dir);
      var closest := ClosestWindows(cands, dir, corner);
      if dir == Down || dir == Right {
        var i :| 0 <= i < |cands| && FacingEdge(cands[i].geometry, dir) == corner.value;
        assert WithinReach(cands[i], dir, corner);
        assert cands[i] in closest;
      } else if corner.value > 0 {
        var i :| 0 <= i < |cands| && FacingEdge(cands[i].geometry, dir) == corner.value;
        assert WithinReach(cands[i], dir, corner);
        assert cands[i] in closest;
      } else if exists i :: 0 <= i < |cands| && FacingEdge(cands[i].geometry, dir) > -5 {
        var i :| 0 <= i < |cands| && FacingEdge(cands[i].geometry, dir) > -5;
        assert WithinReach(cands[i], dir, corner);
        assert cands[i] in closest;
      } else {
        assert forall c :: c in cands ==> !WithinReach(c, dir, corner);
        assert |closest| == 0;
      }
    }
  }

  /** The found window is within 5 pixels of every candidate's facing edge, on the near side. */
  lemma NeighborNearest(basis: Rect, ws: seq<Candidate>, dir: Direction)
    ensures var r := NeighborByDirection(basis, ws, dir);
      r.Some? ==> forall c :: c in NeighborCandidates(basis, ws, dir) ==>
        if dir == Up || dir == Left then FacingEdge(r.value.geometry, dir) > FacingEdge(c.geometry, dir) - 5
        else FacingEdge(r.value.geometry, dir) < FacingEdge(c.geometry, dir) + 5
  {
    var r := NeighborByDirection(basis, ws, dir);
    var cands := NeighborCandidates(basis, ws, dir);
    if r.Some? {
      var corner := ClosestCorner(cands, dir);
      forall c | c in cands
        ensures if dir == Up || dir == Left then FacingEdge(r.value.geometry, dir) > FacingEdge(c.geometry, dir) - 5
                else FacingEdge(r.value.geometry, dir) < FacingEdge(c.geometry, dir) + 5
      {
        var j :| 0 <= j < |cands| && cands[j] == c;
      }
    }
  }

  /** The search input: the given windows with their layout geometry and last-use time. */
  function Candidates(ids: seq<WindowId>, geometryOf: WindowId -> Rect, timestampOf: WindowId -> int): (r: seq<Candidate>)
    ensures |r| == |ids|
    ensures forall i :: 0 <= i < |ids| ==> r[i] == Candidate(ids[i], geometryOf(ids[i]), timestampOf(ids[i]))
  {
    seq(|ids|, i requires 0 <= i < |ids| => Candidate(ids[i], geometryOf(ids[i]), timestampOf(ids[i])))
  }

  // ---------------------------------------------------------------------------
  // The engine

  class Engine {
    const config: Config
    const windows: WindowStore
    /** The focused window, as the host reports and sets it. */
    var currentWindow: Option<WindowId>

    constructor (config: Config, windows: WindowStore)
      ensures this.config == config && this.windows == windows && currentWindow == None
    {
      this.config := config;
      this.windows := windows;
      currentWindow := None;
    }

    /**
     * focusOrder: with no window on the current surface nothing changes;
     * otherwise focus moves to FocusTarget of the surface's windows (all of
     * them, or only the visible ones).
     */
    method FocusOrder(step: Step, includeHidden: bool, surfaceOf: WindowId -> SurfaceId, surface: SurfaceId, visibleOn: WindowId -> bool)
      modifies this
      ensures var ws := if includeHidden then windows.AllWindowsOn(surfaceOf, surface) else windows.VisibleWindowsOn(visibleOn);
        currentWindow == if |ws| == 0 then old(currentWindow) else Some(FocusTarget(ws, old(currentWindow), step))
    {
      var ws;
      if includeHidden {
        ws := windows.AllWindowsOn(surfaceOf, surface);
      } else {
        ws := windows.VisibleWindowsOn(visibleOn);
      }
      if |ws| == 0 {
        return;
      }
      var target;
      if currentWindow.None? {
        target := ws[0];
      } else {
        var idx := IndexOf(ws, currentWindow.value);
        if idx < 0 {
          target := ws[0];
        } else {
          var num := |ws|;
          var newIndex := JsRem(idx + JsRem(step, num) + num, num);
          FocusIndexWraps(idx, step, num);
          target := ws[newIndex];
        }
      }
      assert target == FocusTarget(ws, currentWindow, step);
      currentWindow := Some(target);
    }

    /**
     * focusDir: with nothing focused, the first visible window (if any) gets
     * the focus; otherwise the neighbour in that direction among the visible
     * tiled windows, when there is one.
     */
    method FocusDir(dir: Direction, stateOf: WindowId -> WindowState, visibleOn: WindowId -> bool,
                    geometryOf: WindowId -> Rect, timestampOf: WindowId -> int)
      modifies this
      ensures old(currentWindow).None? ==>
        var tiles := windows.VisibleWindowsOn(visibleOn);
        currentWindow == if |tiles| > 0 then Some(tiles[0]) else None
      ensures old(currentWindow).Some? ==>
        var cands := Candidates(windows.VisibleTiledWindowsOn(stateOf, visibleOn), geometryOf, timestampOf);
        var n := NeighborByDirection(geometryOf(old(currentWindow).value), cands, dir);
        currentWindow == if n.Some? then Some(n.value.id) else old(currentWindow)
    {
      if currentWindow.None? {
        var tiles := windows.VisibleWindowsOn(visibleOn);
        if |tiles| > 0 {
          currentWindow := Some(tiles[0]);
        }
        return;
      }
      var cands := Candidates(windows.VisibleTiledWindowsOn(stateOf, visibleOn), geometryOf, timestampOf);
      var neighbor := NeighborByDirection(geometryOf(currentWindow.value), cands, dir);
      if neighbor.Some? {
        currentWindow := Some(neighbor.value.id);
      }
    }

    /**
     * swapOrder: with fewer than two visible windows nothing changes;
     * otherwise `w` is moved onto SwapDestination in the full list.
     */
    method SwapOrder(w: WindowId, step: Step, visibleOn: WindowId -> bool)
      modifies windows
      ensures var visibles := old(windows.VisibleWindowsOn(visibleOn));
        windows.list == if |visibles| < 2 then old(windows.list)
                        else Moved(old(windows.list), w, SwapDestination(visibles, w, step), false)
      ensures multiset(windows.list) == multiset(old(windows.list))
    {
      var visibles := windows.VisibleWindowsOn(visibleOn);
      if |visibles| < 2 {
        return;
      }
      var vsrc := IndexOf(visibles, w);
      var vdst := WrapIndex(vsrc + step, |visibles|);
      var dstWin := visibles[vdst];
      assert dstWin == SwapDestination(visibles, w, step);
      MovedSpec(windows.list, w, dstWin, false);
      windows.Move(w, dstWin, false);
    }

    /**
     * manage: an ignored window is left alone; any other becomes Undecided
     * and joins the list where Managed puts it.
     */
    method Manage(window: EngineWindow, shouldIgnore: bool)
      modifies windows, window
      ensures shouldIgnore ==> windows.list == old(windows.list) && unchanged(window)
      ensures !shouldIgnore ==>
        windows.list == Managed(old(windows.list), window.id, config.newWindowAsMaster, currentWindow)
        && window.internalState == (if old(window.State()) == Undecided then old(window.internalState) else Undecided)
        && window.statePreviouslyAskedToChangeTo == old(window.State())
      ensures !shouldIgnore ==> AskedFor(window, Undecided) && window.geometry == old(window.geometry)
    {
      if shouldIgnore {
        return;
      }
      window.SetState(Undecided);
      if config.newWindowAsMaster {
        windows.Unshift(window.id);
      } else if currentWindow.Some? {
        windows.InsertAfter(currentWindow.value, window.id);
      } else {
        windows.Push(window.id);
      }
    }

    /** toggleFloat: the window asks for ToggleFloatTarget of its state. */
    method ToggleFloat(window: EngineWindow)
      modifies window
      ensures window.statePreviouslyAskedToChangeTo == old(window.State())
      ensures !window.hostFullScreen && !window.hostMaximized ==> window.State() == ToggleFloatTarget(old(window.State()))
      ensures old(window.State()) != ToggleFloatTarget(old(window.State())) ==> window.internalState == ToggleFloatTarget(old(window.State()))
      ensures AskedFor(window, ToggleFloatTarget(old(window.State()))) && window.geometry == old(window.geometry)
    {
      window.SetState(if !window.Tileable() then Tiled else Floating);
    }
  }
}
