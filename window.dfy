// A managed window as the engine sees it (src/kwinscript/engine/window.ts):
// its tiling state, the state it was last asked to leave, the geometry it
// keeps for floating, its weight on each surface, and what it pushes to the
// host on commit.
//
// The host window behind it (full-screen and maximized flags, the actual
// geometry, the surface it is on) is represented by fields that the host
// sets and the engine reads.

module Window {
  import opened Types
  import opened Geometry

  datatype WindowState =
    | Unmanaged
      /** States the host imposes; they override the engine's own. */
    | NativeFullscreen
    | NativeMaximized
      /** States the engine sets. */
    | Floating
    | Maximized
    | Tiled
    | TiledAfloat
    | Undecided

  /** A layout may place the window. */
  predicate IsTileableState(s: WindowState)
  {
    s == Tiled || s == Maximized || s == TiledAfloat
  }

  /** The window is part of the current layout. */
  predicate IsTiledState(s: WindowState)
  {
    s == Tiled || s == Maximized
  }

  /** The window's geometry is not managed by a layout. */
  predicate IsFloatingState(s: WindowState)
  {
    s == Floating || s == TiledAfloat
  }

  /**
   * Tiled windows are tileable, TiledAfloat is the one state that is both
   * tileable and floating, and tiled and floating exclude each other.
   */
  lemma StateClasses(s: WindowState)
    ensures IsTiledState(s) ==> IsTileableState(s)
    ensures IsTileableState(s) && IsFloatingState(s) <==> s == TiledAfloat
    ensures !(IsTiledState(s) && IsFloatingState(s))
    ensures IsTileableState(s) <==> IsTiledState(s) || s == TiledAfloat
  {
  }

  /** The state the window reports: the host's full-screen, then its maximized flag, override the engine's own state. */
  function EffectiveState(fullScreen: bool, maximized: bool, internal: WindowState): (s: WindowState)
    ensures fullScreen ==> s == NativeFullscreen
    ensures !fullScreen && maximized ==> s == NativeMaximized
    ensures !fullScreen && !maximized ==> s == internal
  {
    if fullScreen then NativeFullscreen
    else if maximized then NativeMaximized
    else internal
  }

  /** Leaving an unmanaged or tileable state for a floating one: the float geometry must be pushed on the next commit. */
  predicate StartsFloating(from: WindowState, to: WindowState)
  {
    (from == Unmanaged || IsTileableState(from)) && IsFloatingState(to)
  }

  /** Leaving a floating state for a tileable one: the current geometry is kept as the float geometry. */
  predicate StopsFloating(from: WindowState, to: WindowState)
  {
    IsFloatingState(from) && IsTileableState(to)
  }

  /**
   * The setter's two side effects answer to distinct transitions, except that
   * TiledAfloat, being both, can trigger either; for a change between two
   * different states of the same class neither applies.
   */
  lemma TransitionEffects(from: WindowState, to: WindowState)
    ensures StartsFloating(from, to) && StopsFloating(from, to) ==> from == TiledAfloat || to == TiledAfloat
    ensures from == Tiled && to == Floating ==> StartsFloating(from, to) && !StopsFloating(from, to)
    ensures from == Floating && to == Tiled ==> StopsFloating(from, to) && !StartsFloating(from, to)
    ensures IsTiledState(from) && IsTiledState(to) ==> !StartsFloating(from, to) && !StopsFloating(from, to)
  {
  }

  /**
   * What a commit asks the host to do: nothing, or apply a geometry (or
   * keep the host's own when absent) with optional no-border and keep-above
   * flags.
   */
  datatype CommitRequest =
    | NoCommit
    | HostCommit(geometry: Option<Rect>, noBorder: Option<bool>, keepAbove: Option<bool>)

  /**
   * The request a commit sends in state `s`, and whether the float geometry
   * still has to be pushed afterwards.
   */
  function CommitFor(s: WindowState, shouldCommitFloat: bool, geometry: Rect, floatGeometry: Rect,
                     workingArea: Rect, config: Config): (r: (CommitRequest, bool))
    ensures IsFloatingState(s) ==> !r.1
    ensures IsFloatingState(s) ==> (r.0 != NoCommit <==> shouldCommitFloat)
    ensures IsFloatingState(s) && shouldCommitFloat ==> r.0 == HostCommit(Some(floatGeometry), Some(false), Some(config.keepFloatAbove))
    ensures !IsFloatingState(s) ==> r.1 == shouldCommitFloat
    ensures IsTiledState(s) ==> r.0.HostCommit? && r.0.geometry == Some(geometry)
    ensures s == Unmanaged || s == Undecided ==> r.0 == NoCommit
  {
    match s
    case NativeMaximized => (HostCommit(Some(workingArea), None, None), shouldCommitFloat)
    case NativeFullscreen => (HostCommit(None, None, None), shouldCommitFloat)
    case Floating =>
      if !shouldCommitFloat then (NoCommit, shouldCommitFloat)
      else (HostCommit(Some(floatGeometry), Some(false), Some(config.keepFloatAbove)), false)
    case Maximized => (HostCommit(Some(geometry), Some(true), Some(false)), shouldCommitFloat)
    case Tiled => (HostCommit(Some(geometry), Some(config.noTileBorder), Some(false)), shouldCommitFloat)
    case TiledAfloat =>
      if !shouldCommitFloat then (NoCommit, shouldCommitFloat)
      else (HostCommit(Some(floatGeometry), Some(false), Some(config.keepFloatAbove)), false)
    case _ => (NoCommit, shouldCommitFloat)
  }

  /** A floating window pushes its float geometry once; a second commit sends nothing. */
  lemma FloatingCommitsOnce(s: WindowState, shouldCommitFloat: bool, geometry: Rect, floatGeometry: Rect,
                            workingArea: Rect, config: Config)
    requires IsFloatingState(s)
    ensures var first := CommitFor(s, shouldCommitFloat, geometry, floatGeometry, workingArea, config);
      CommitFor(s, first.1, geometry, floatGeometry, workingArea, config).0 == NoCommit
  {
  }

  /** The weight a window has on a surface: the stored one, or 1.0 when none is stored yet. */
  function WeightOn(weights: map<SurfaceId, real>, surface: SurfaceId): (w: real)
    ensures surface in weights ==> w == weights[surface]
    ensures surface !in weights ==> w == 1.0
  {
    if surface in weights then weights[surface] else 1.0
  }

  class EngineWindow {
    const id: WindowId
    /** Whether the host wanted the window floating when it appeared. */
    const shouldFloat: bool

    // Host-owned properties the engine reads.
    var hostFullScreen: bool
    var hostMaximized: bool
    var actualGeometry: Rect
    var surface: SurfaceId

    // Engine-owned properties.
    var internalState: WindowState
    var statePreviouslyAskedToChangeTo: WindowState
    var shouldCommitFloat: bool
    var weightMap: map<SurfaceId, real>
    var floatGeometry: Rect
    var geometry: Rect
    var timestamp: int

    /** A new window: unmanaged, float and layout geometry both the host's current one, no weights yet; the host's full-screen and maximized flags are whatever the host reports. */
    constructor (id: WindowId, shouldFloat: bool, actualGeometry: Rect, surface: SurfaceId,
                 hostFullScreen: bool, hostMaximized: bool)
      ensures this.id == id && this.shouldFloat == shouldFloat
      ensures this.actualGeometry == actualGeometry && this.surface == surface
      ensures this.hostFullScreen == hostFullScreen && this.hostMaximized == hostMaximized
      ensures internalState == Unmanaged && statePreviouslyAskedToChangeTo == Floating
      ensures floatGeometry == actualGeometry && geometry == actualGeometry && timestamp == 0
      ensures shouldCommitFloat == shouldFloat && weightMap == map[]
    {
      this.id := id;
      this.shouldFloat := shouldFloat;
      this.actualGeometry := actualGeometry;
      this.surface := surface;
      this.hostFullScreen, this.hostMaximized := hostFullScreen, hostMaximized;
      statePreviouslyAskedToChangeTo := Floating;
      floatGeometry, geometry := actualGeometry, actualGeometry;
      timestamp := 0;
      internalState := Unmanaged;
      shouldCommitFloat := shouldFloat;
      weightMap := map[];
    }

    function State(): WindowState
      reads this
    {
      EffectiveState(hostFullScreen, hostMaximized, internalState)
    }

    predicate Tileable() reads this { IsTileableState(State()) }
    predicate Tiled() reads this { IsTiledState(State()) }
    predicate IsFloating() reads this { IsFloatingState(State()) }

    /**
     * The state setter. It always records the state being left; asking for
     * the current state changes nothing else. Otherwise starting to float
     * schedules a float commit, stopping floating saves the actual geometry
     * as the float geometry, and the engine's own state becomes `value`
     * (which the window then reports unless the host overrides it).
     */
    method SetState(value: WindowState)
      modifies this
      ensures statePreviouslyAskedToChangeTo == old(State())
      ensures old(State()) == value ==>
        internalState == old(internalState) && shouldCommitFloat == old(shouldCommitFloat)
        && floatGeometry == old(floatGeometry)
      ensures old(State()) != value ==>
        internalState == value
        && shouldCommitFloat == (StartsFloating(old(State()), value) || old(shouldCommitFloat))
        && floatGeometry == (if StopsFloating(old(State()), value) then actualGeometry else old(floatGeometry))
      ensures !hostFullScreen && !hostMaximized ==> State() == value
      ensures hostFullScreen == old(hostFullScreen) && hostMaximized == old(hostMaximized)
      ensures actualGeometry == old(actualGeometry) && surface == old(surface)
      ensures weightMap == old(weightMap) && geometry == old(geometry) && timestamp == old(timestamp)
    {
      var winState := State();
      statePreviouslyAskedToChangeTo := winState;
      if winState == value {
        return;
      }
      if (winState == Unmanaged || IsTileableState(winState)) && IsFloatingState(value) {
        shouldCommitFloat := true;
      } else if IsFloatingState(winState) && IsTileableState(value) {
        floatGeometry := actualGeometry;
      }
      internalState := value;
    }

    /** The weight getter: the weight on the current surface, storing the default 1.0 when there was none. */
    method Weight() returns (w: real)
      modifies this
      ensures w == WeightOn(old(weightMap), surface)
      ensures weightMap == old(weightMap)[surface := w]
      ensures surface == old(surface) && internalState == old(internalState)
      ensures geometry == old(geometry) && floatGeometry == old(floatGeometry)
      ensures shouldCommitFloat == old(shouldCommitFloat)
    {
      if surface !in weightMap {
        weightMap := weightMap[surface := 1.0];
        return 1.0;
      }
      w := weightMap[surface];
    }

    /** The weight setter: stores the weight for the current surface only. */
    method SetWeight(value: real)
      modifies this
      ensures weightMap == old(weightMap)[surface := value]
      ensures forall s :: s != surface && s in old(weightMap) ==> s in weightMap && weightMap[s] == old(weightMap)[s]
      ensures surface == old(surface) && internalState == old(internalState)
      ensures geometry == old(geometry) && floatGeometry == old(floatGeometry)
      ensures shouldCommitFloat == old(shouldCommitFloat)
      ensures OnlyWeightsChanged(this)
    {
      weightMap := weightMap[surface := value];
    }

    /**
     * Pushes the window's state to the host: returns the request and clears
     * the pending float commit once it has been sent.
     */
    method Commit(workingArea: Rect, config: Config) returns (c: CommitRequest)
      modifies this
      ensures (c, shouldCommitFloat)
           == CommitFor(old(State()), old(shouldCommitFloat), geometry, floatGeometry, workingArea, config)
      ensures State() == old(State()) && internalState == old(internalState)
      ensures geometry == old(geometry) && floatGeometry == old(floatGeometry) && weightMap == old(weightMap)
    {
      var state := State();
      match state {
        case NativeMaximized => c := HostCommit(Some(workingArea), None, None);
        case NativeFullscreen => c := HostCommit(None, None, None);
        case Floating =>
          if !shouldCommitFloat {
            c := NoCommit;
          } else {
            c := HostCommit(Some(floatGeometry), Some(false), Some(config.keepFloatAbove));
            shouldCommitFloat := false;
          }
        case Maximized => c := HostCommit(Some(geometry), Some(true), Some(false));
        case Tiled => c := HostCommit(Some(geometry), Some(config.noTileBorder), Some(false));
        case TiledAfloat =>
          if !shouldCommitFloat {
            c := NoCommit;
          } else {
            c := HostCommit(Some(floatGeometry), Some(false), Some(config.keepFloatAbove));
            shouldCommitFloat := false;
          }
        case _ => c := NoCommit;
      }
    }

    /** The difference between the layout geometry and the host's actual geometry. */
    function GeometryDelta(): (d: RectDelta)
      reads this
      ensures geometry.Gap(-d.west, -d.east, -d.north, -d.south) == actualGeometry
    {
      FromRectsRoundTrip(geometry, actualGeometry);
      FromRects(geometry, actualGeometry)
    }
  }

  // ---------------------------------------------------------------------------
  // What a layout's apply does to the windows it arranges

  /** No window is listed twice (the window list holds each managed window once). */
  predicate DistinctWindows(ws: seq<EngineWindow>)
  {
    forall i, j :: 0 <= i < j < |ws| ==> ws[i] != ws[j]
  }

  /** The window was asked, once, for state `value` through the state setter; nothing else the setter does not touch changed, the layout geometry aside. */
  twostate predicate AskedFor(w: EngineWindow, value: WindowState)
    reads w
  {
    w.statePreviouslyAskedToChangeTo == old(w.State())
    && (old(w.State()) == value ==>
          w.internalState == old(w.internalState) && w.shouldCommitFloat == old(w.shouldCommitFloat)
          && w.floatGeometry == old(w.floatGeometry))
    && (old(w.State()) != value ==>
          w.internalState == value
          && w.shouldCommitFloat == (StartsFloating(old(w.State()), value) || old(w.shouldCommitFloat))
          && w.floatGeometry == (if StopsFloating(old(w.State()), value) then w.actualGeometry else old(w.floatGeometry)))
    && w.hostFullScreen == old(w.hostFullScreen) && w.hostMaximized == old(w.hostMaximized)
    && w.actualGeometry == old(w.actualGeometry) && w.surface == old(w.surface)
    && w.weightMap == old(w.weightMap) && w.timestamp == old(w.timestamp)
  }

  /** Every listed window asks for `value`, one after the other. */
  method SetStates(ws: seq<EngineWindow>, value: WindowState)
    requires DistinctWindows(ws)
    modifies set w | w in ws
    ensures forall i :: 0 <= i < |ws| ==> AskedFor(ws[i], value) && ws[i].geometry == old(ws[i].geometry)
    ensures forall i :: 0 <= i < |ws| && !ws[i].hostFullScreen && !ws[i].hostMaximized ==> ws[i].State() == value
  {
    for i := 0 to |ws|
      invariant forall j :: 0 <= j < i ==> AskedFor(ws[j], value) && ws[j].geometry == old(ws[j].geometry)
      invariant forall j :: i <= j < |ws| ==> unchanged(ws[j])
    {
      ws[i].SetState(value);
    }
  }

  /** The listed windows' weights on their current surfaces, in order; a window with none stored weighs 1.0. */
  function WeightsOf(ws: seq<EngineWindow>): (r: seq<real>)
    reads set w | w in ws
    ensures |r| == |ws|
    ensures forall i :: 0 <= i < |ws| ==> r[i] == WeightOn(ws[i].weightMap, ws[i].surface)
    decreases |ws|
  {
    if |ws| == 0 then [] else [WeightOn(ws[0].weightMap, ws[0].surface)] + WeightsOf(ws[1..])
  }

  /** Only the weight map of the window changed. */
  twostate predicate OnlyWeightsChanged(w: EngineWindow)
    reads w
  {
    w.internalState == old(w.internalState) && w.statePreviouslyAskedToChangeTo == old(w.statePreviouslyAskedToChangeTo)
    && w.shouldCommitFloat == old(w.shouldCommitFloat) && w.floatGeometry == old(w.floatGeometry)
    && w.geometry == old(w.geometry) && w.hostFullScreen == old(w.hostFullScreen) && w.hostMaximized == old(w.hostMaximized)
    && w.actualGeometry == old(w.actualGeometry) && w.surface == old(w.surface) && w.timestamp == old(w.timestamp)
  }

  /**
   * Each window at a position in [lo, hi) stored the weight at that
   * position on its current surface, and nothing else about it changed;
   * every other window is untouched.
   */
  twostate predicate StoredWeights(ws: seq<EngineWindow>, lo: nat, hi: nat, weights: seq<real>)
    requires lo <= hi <= |ws| == |weights|
    reads set w | w in ws
  {
    (forall i :: lo <= i < hi ==>
       ws[i].weightMap == old(ws[i].weightMap)[ws[i].surface := weights[i]] && OnlyWeightsChanged(ws[i]))
    && (forall i :: 0 <= i < |ws| && !(lo <= i < hi) ==> unchanged(ws[i]))
  }

  /**
   * The windows at positions [lo, hi) take, through the weight setter, the
   * weights at their positions; the weights given for the other positions
   * are the ones those windows have, so the windows' weights become
   * `weights`.
   */
  method SetWeights(ws: seq<EngineWindow>, lo: nat, hi: nat, weights: seq<real>)
    requires DistinctWindows(ws) && lo <= hi <= |ws| && |weights| == |ws|
    requires forall i :: 0 <= i < |ws| && !(lo <= i < hi) ==> weights[i] == WeightsOf(ws)[i]
    modifies set w | w in ws
    ensures StoredWeights(ws, lo, hi, weights)
    ensures WeightsOf(ws) == weights
  {
    for i := lo to hi
      invariant forall j :: lo <= j < i ==>
        ws[j].weightMap == old(ws[j].weightMap)[ws[j].surface := weights[j]] && OnlyWeightsChanged(ws[j])
      invariant forall j :: 0 <= j < |ws| && !(lo <= j < i) ==> unchanged(ws[j])
    {
      ws[i].SetWeight(weights[i]);
    }
  }

  /** Only the layout geometry of the window changed. */
  twostate predicate OnlyGeometryChanged(w: EngineWindow)
    reads w
  {
    w.internalState == old(w.internalState) && w.statePreviouslyAskedToChangeTo == old(w.statePreviouslyAskedToChangeTo)
    && w.shouldCommitFloat == old(w.shouldCommitFloat) && w.floatGeometry == old(w.floatGeometry)
    && w.weightMap == old(w.weightMap) && w.hostFullScreen == old(w.hostFullScreen) && w.hostMaximized == old(w.hostMaximized)
    && w.actualGeometry == old(w.actualGeometry) && w.surface == old(w.surface) && w.timestamp == old(w.timestamp)
  }

  /** Each listed window takes the geometry at its own position; nothing else changes. */
  method SetGeometries(ws: seq<EngineWindow>, geometries: seq<Rect>)
    requires DistinctWindows(ws) && |geometries| == |ws|
    modifies set w | w in ws
    ensures forall i :: 0 <= i < |ws| ==> ws[i].geometry == geometries[i] && OnlyGeometryChanged(ws[i])
  {
    for i := 0 to |ws|
      invariant forall j :: 0 <= j < i ==> ws[j].geometry == geometries[j] && OnlyGeometryChanged(ws[j])
      invariant forall j :: i <= j < |ws| ==> unchanged(ws[j])
    {
      ws[i].geometry := geometries[i];
    }
  }
}
