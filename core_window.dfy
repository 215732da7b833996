// A window of the C++ engine (src/core/engine/window.cpp): its visibility on
// a surface (a desktop, screen and activity), the surfaces it is on, and
// its identity.
//
// The client's properties live in KWin; the model reads them from a
// snapshot, `ClientState`, and the workspace's desktop count and activity
// list from `Workspace`.

module CoreWindow {
  import opened Func

  /** A KWin client, by identity. */
  type ClientId = nat

  /** The properties of a client that visibility and surfaces depend on. */
  datatype ClientState = ClientState(
    minimized: bool,
    onAllDesktops: bool,
    desktop: int,
    screen: int,
    activities: seq<string>)

  datatype Workspace = Workspace(desktopCount: int, activities: seq<string>)

  /** A desktop, screen and activity: the unit a layout tiles. */
  datatype Surface = Surface(desktop: int, screen: int, activity: string)

  datatype Mode = Ignored | Floating | Fullscreen | Maximized | Tiled

  // ---------------------------------------------------------------------------
  // visibleOn

  /**
   * A window is visible on a surface unless it is minimized, it is on
   * another desktop (and not on all desktops), it is on another screen, or
   * it names activities and the surface's is not one of them.
   */
  function VisibleOn(c: ClientState, s: Surface): (b: bool)
    ensures c.minimized ==> !b
  {
    if c.minimized then false
    else if !c.onAllDesktops && c.desktop != s.desktop then false
    else if c.screen != s.screen then false
    else if |c.activities| != 0 && s.activity !in c.activities then false
    else true
  }

  // ---------------------------------------------------------------------------
  // desktops, activities, surfaces

  /** The desktops a window is on: all of 1..N when on all desktops, else its own. */
  function DesktopsOf(c: ClientState, ws: Workspace): (r: seq<int>)
    ensures forall d :: d in r <==> (if c.onAllDesktops then 1 <= d <= ws.desktopCount else d == c.desktop)
  {
    if c.onAllDesktops then
      var r := seq(Max(ws.desktopCount, 0), i => i + 1);
      forall d | 1 <= d <= ws.desktopCount
        ensures d in r
      {
        assert r[d - 1] == d;
      }
      r
    else [c.desktop]
  }

  /** The activities a window is on: its own list, or every activity of the workspace when that is empty. */
  function ActivitiesOf(c: ClientState, ws: Workspace): seq<string>
  {
    if |c.activities| == 0 then ws.activities else c.activities
  }

  /** The surfaces on one desktop and screen, one per activity in order. */
  function Row(desktop: int, screen: int, acts: seq<string>): (r: seq<Surface>)
    ensures |r| == |acts|
    ensures forall s :: s in r <==> s.desktop == desktop && s.screen == screen && s.activity in acts
  {
    var r := seq(|acts|, j requires 0 <= j < |acts| => Surface(desktop, screen, acts[j]));
    assert forall j :: 0 <= j < |acts| ==> r[j].activity == acts[j];
    r
  }

  /** Every (desktop, activity) pair on the screen, desktop by desktop. */
  function Cross(desks: seq<int>, screen: int, acts: seq<string>): seq<Surface>
  {
    if |desks| == 0 then [] else Cross(desks[..|desks| - 1], screen, acts) + Row(desks[|desks| - 1], screen, acts)
  }

  /** A surface is in the product exactly when its screen, desktop and activity are. */
  lemma {:induction false} CrossHolds(desks: seq<int>, screen: int, acts: seq<string>, s: Surface)
    ensures s in Cross(desks, screen, acts) <==> s.screen == screen && s.desktop in desks && s.activity in acts
    ensures |Cross(desks, screen, acts)| == |desks| * |acts|
  {
    if |desks| > 0 {
      var init := desks[..|desks| - 1];
      CrossHolds(init, screen, acts, s);
      assert desks == init + [desks[|desks| - 1]];
      assert s.desktop in desks <==> s.desktop in init || s.desktop == desks[|desks| - 1];
      assert |desks| * |acts| == |init| * |acts| + |acts|;
    }
  }

  function SurfacesOf(c: ClientState, ws: Workspace): seq<Surface>
  {
    Cross(DesktopsOf(c, ws), c.screen, ActivitiesOf(c, ws))
  }

  /** desktops(): pushes 1..N when the window is on all desktops, else its own desktop. */
  method Desktops(c: ClientState, ws: Workspace) returns (r: seq<int>)
    ensures r == DesktopsOf(c, ws)
  {
    r := [];
    if c.onAllDesktops {
      var desktop := 1;
      while desktop <= ws.desktopCount
        invariant 1 <= desktop <= Max(ws.desktopCount, 0) + 1
        invariant r == seq(desktop - 1, i => i + 1)
      {
        r := r + [desktop];
        desktop := desktop + 1;
      }
    } else {
      r := r + [c.desktop];
    }
  }

  /** activities(): copies the window's activities, or the workspace's when the window names none. */
  method Activities(c: ClientState, ws: Workspace) returns (r: seq<string>)
    ensures r == ActivitiesOf(c, ws)
  {
    r := [];
    var list := if |c.activities| == 0 then ws.activities else c.activities;
    for i := 0 to |list|
      invariant r == list[..i]
    {
      r := r + [list[i]];
    }
  }

  /** surfaces(): one surface per desktop and activity, on the window's screen, desktop by desktop. */
  method Surfaces(c: ClientState, ws: Workspace) returns (r: seq<Surface>)
    ensures r == SurfacesOf(c, ws)
  {
    var desks := Desktops(c, ws);
    var acts := Activities(c, ws);
    r := [];
    for i := 0 to |desks|
      invariant r == Cross(desks[..i], c.screen, acts)
    {
      for j := 0 to |acts|
        invariant r == Cross(desks[..i], c.screen, acts) + Row(desks[i], c.screen, acts[..j])
      {
        assert Row(desks[i], c.screen, acts[..j + 1]) == Row(desks[i], c.screen, acts[..j]) + [Surface(desks[i], c.screen, acts[j])];
        r := r + [Surface(desks[i], c.screen, acts[j])];
      }
      assert acts[..|acts|] == acts;
      assert desks[..i + 1][..i] == desks[..i];
    }
    assert desks[..|desks|] == desks;
  }

  /**
   * For a window that is not minimized and a surface of the workspace (a
   * desktop 1..N and one of its activities), visibleOn agrees with the
   * surfaces the window lists.
   */
  lemma VisibleOnMatchesSurfaces(c: ClientState, ws: Workspace, s: Surface)
    requires !c.minimized
    requires 1 <= s.desktop <= ws.desktopCount && s.activity in ws.activities
    ensures VisibleOn(c, s) <==> s in SurfacesOf(c, ws)
  {
    CrossHolds(DesktopsOf(c, ws), c.screen, ActivitiesOf(c, ws), s);
  }

  /** The visibility cases the engine's own test suite checks. */
  lemma VisibilityExamples()
    ensures !VisibleOn(ClientState(true, false, 1, 0, []), Surface(0, 0, ""))
    ensures !VisibleOn(ClientState(false, false, 2, 0, []), Surface(0, 0, ""))
    ensures !VisibleOn(ClientState(false, false, 0, 1, []), Surface(0, 0, ""))
    ensures !VisibleOn(ClientState(false, false, 0, 0, ["xyz"]), Surface(0, 0, "abc"))
    ensures VisibleOn(ClientState(false, false, 3, 1, ["abc"]), Surface(3, 1, "abc"))
    ensures VisibleOn(ClientState(false, true, 0, 1, ["abc"]), Surface(3, 1, "abc"))
    ensures VisibleOn(ClientState(false, true, 0, 1, []), Surface(3, 1, "abc"))
  {
    assert "abc" != "xyz" by { assert "abc"[0] != "xyz"[0]; }
  }

  // ---------------------------------------------------------------------------
  // Identity and mode

  class Window {
    const client: ClientId
    var mode: Mode

    /** A window over a client; its mode is left unset until setMode. */
    constructor (client: ClientId)
      ensures this.client == client
    {
      this.client := client;
    }

    /** Windows are equal when they wrap the same client, whatever their modes. */
    predicate Equals(other: Window)
    {
      client == other.client
    }

    /** operator< as written: the client is compared with itself. */
    predicate LessAsWritten(other: Window)
    {
      client < client
    }

    /** operator< as intended: the order of the wrapped clients. */
    predicate Less(other: Window)
    {
      client < other.client
    }

    method SetMode(value: Mode)
      modifies this
      ensures mode == value
    {
      mode := value;
    }
  }

  /** Equality is an equivalence that ignores the mode. */
  lemma EqualsIsEquivalence(a: Window, b: Window, c: Window)
    ensures a.Equals(a)
    ensures a.Equals(b) ==> b.Equals(a)
    ensures a.Equals(b) && b.Equals(c) ==> a.Equals(c)
    ensures a.Equals(b) <==> a.client == b.client
  {
  }

  /**
   * As written, no window is less than another, so an ordered container
   * keyed by windows takes any two windows, even of different clients,
   * for the same key.
   */
  lemma LessAsWrittenNeverHolds(a: Window, b: Window)
    ensures !a.LessAsWritten(b) && !b.LessAsWritten(a)
    ensures a.client != b.client ==> !a.Equals(b) && !a.LessAsWritten(b) && !b.LessAsWritten(a)
  {
  }

  /** As intended, exactly one of a < b, b < a and a == b holds, and < is transitive. */
  lemma LessIsStrictOrder(a: Window, b: Window, c: Window)
    ensures !a.Less(a)
    ensures a.Less(b) && b.Less(c) ==> a.Less(c)
    ensures (a.Less(b) && !b.Less(a) && !a.Equals(b))
      || (b.Less(a) && !a.Less(b) && !a.Equals(b))
      || (a.Equals(b) && !a.Less(b) && !b.Less(a))
  {
  }
}
