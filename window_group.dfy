// The window-group tree of the C++ engine (src/core/engine/window-group.cpp).
//
// A node either owns a window (a window node, a leaf) or groups child
// nodes. Adding a window descends along first children while the first
// child is itself a group, and appends a window node there; removing a
// window erases the first window node that owns it, read depth first.

module WindowGroupTree {
  import opened Types
  import opened Func
  import opened Geometry
  import opened WindowList

  /**
   * A node with the window it owns (when it is a leaf), its children in
   * storage order, the area it places its children in, and its weight
   * among its siblings.
   */
  datatype Group = Group(window: Option<WindowId>, children: seq<Group>, geometry: Rect, weight: real)

  /** A new empty group over an area. */
  function EmptyGroup(geometry: Rect): Group
  {
    Group(None, [], geometry, 1.0)
  }

  /** A new window node, placed where the window currently is. */
  function WindowNode(w: WindowId, frame: Rect): Group
  {
    Group(Some(w), [], frame, 1.0)
  }

  predicate IsWindowNode(g: Group)
  {
    g.window.Some?
  }

  /** The windows of a node, depth first: a window node stands for its own window. */
  function Windows(g: Group): seq<WindowId>
    decreases g
  {
    if g.window.Some? then [g.window.value] else WindowsOf(g.children)
  }

  function WindowsOf(gs: seq<Group>): seq<WindowId>
    decreases gs
  {
    if |gs| == 0 then [] else Windows(gs[0]) + WindowsOf(gs[1..])
  }

  lemma WindowsOfCons(h: Group, t: seq<Group>)
    ensures WindowsOf([h] + t) == Windows(h) + WindowsOf(t)
  {
    assert ([h] + t)[0] == h && ([h] + t)[1..] == t;
  }

  lemma {:induction false} WindowsOfSnoc(gs: seq<Group>, h: Group)
    ensures WindowsOf(gs + [h]) == WindowsOf(gs) + Windows(h)
    decreases |gs|
  {
    if |gs| == 0 {
      assert gs + [h] == [h] + [];
      WindowsOfCons(h, []);
    } else {
      assert gs + [h] == [gs[0]] + (gs[1..] + [h]);
      WindowsOfCons(gs[0], gs[1..] + [h]);
      WindowsOfSnoc(gs[1..], h);
    }
  }

  /** Window nodes have no children, all the way down. */
  predicate WellFormed(g: Group)
    decreases g
  {
    (g.window.Some? ==> |g.children| == 0)
    && forall i :: 0 <= i < |g.children| ==> WellFormed(g.children[i])
  }

  // ---------------------------------------------------------------------------
  // addWindow

  /**
   * The group a new window goes to: follow first children while the first
   * child is a group. From a group this ends at a group whose first child
   * is absent or a window node.
   */
  function Deepest(g: Group): (r: Group)
    ensures g.window.None? ==> r.window.None? && (|r.children| == 0 || r.children[0].window.Some?)
    ensures g.window.Some? ==> r == g
    decreases g
  {
    if g.window.None? && |g.children| > 0 && g.children[0].window.None? then Deepest(g.children[0]) else g
  }

  function AddWindow(g: Group, w: WindowId, frame: Rect): Group
    decreases g
  {
    if g.window.Some? then g
    else if |g.children| == 0 || g.children[0].window.Some? then g.(children := g.children + [WindowNode(w, frame)])
    else g.(children := [AddWindow(g.children[0], w, frame)] + g.children[1..])
  }

  /**
   * Adding to a window node changes nothing. Adding to a group lists the
   * new window right after the windows of the deepest first group, which
   * come first in the tree; no other window moves, and a well-formed tree
   * stays well formed (window nodes never gain children).
   */
  lemma {:induction false} AddWindowPlaces(g: Group, w: WindowId, frame: Rect)
    ensures g.window.Some? ==> AddWindow(g, w, frame) == g
    ensures |Windows(Deepest(g))| <= |Windows(g)| && Windows(g)[..|Windows(Deepest(g))|] == Windows(Deepest(g))
    ensures g.window.None? ==>
      Windows(AddWindow(g, w, frame)) == InsertAt(Windows(g), |Windows(Deepest(g))|, w)
      && multiset(Windows(AddWindow(g, w, frame))) == multiset(Windows(g)) + multiset{w}
    ensures WellFormed(g) ==> WellFormed(AddWindow(g, w, frame))
    ensures AddWindow(g, w, frame).geometry == g.geometry
    decreases g, 1
  {
    if g.window.None? {
      if |g.children| == 0 || g.children[0].window.Some? {
        AddWindowAppendPlaces(g, w, frame);
      } else {
        AddWindowFirstPlaces(g, w, frame);
        InsertAtMultiset(Windows(g), |Windows(Deepest(g))|, w);
      }
    }
  }

  /** A group whose first child is not a group takes the window as its last child. */
  lemma AddWindowAppendPlaces(g: Group, w: WindowId, frame: Rect)
    requires g.window.None? && (|g.children| == 0 || g.children[0].window.Some?)
    ensures |Windows(Deepest(g))| <= |Windows(g)| && Windows(g)[..|Windows(Deepest(g))|] == Windows(Deepest(g))
    ensures Windows(AddWindow(g, w, frame)) == InsertAt(Windows(g), |Windows(Deepest(g))|, w)
    ensures multiset(Windows(AddWindow(g, w, frame))) == multiset(Windows(g)) + multiset{w}
    ensures WellFormed(g) ==> WellFormed(AddWindow(g, w, frame))
    ensures AddWindow(g, w, frame).geometry == g.geometry
  {
    var k := |Windows(Deepest(g))|;
    WindowsOfSnoc(g.children, WindowNode(w, frame));
    assert Windows(g)[..k] == Windows(g);
    AddWindowWellFormedAppend(g, w, frame);
    InsertAtMultiset(Windows(g), k, w);
  }

  /** A group whose first child is a group passes the window down to it. */
  lemma {:induction false} AddWindowFirstPlaces(g: Group, w: WindowId, frame: Rect)
    requires g.window.None? && |g.children| > 0 && g.children[0].window.None?
    ensures |Windows(Deepest(g))| <= |Windows(g)| && Windows(g)[..|Windows(Deepest(g))|] == Windows(Deepest(g))
    ensures Windows(AddWindow(g, w, frame)) == InsertAt(Windows(g), |Windows(Deepest(g))|, w)
    ensures WellFormed(g) ==> WellFormed(AddWindow(g, w, frame))
    decreases g, 0
  {
    var c := g.children[0];
    var rest := WindowsOf(g.children[1..]);
    AddWindowPlaces(c, w, frame);
    assert Deepest(g) == Deepest(c);
    var k := |Windows(Deepest(c))|;
    assert Windows(g) == Windows(c) + rest by {
      assert g.children == [c] + g.children[1..];
      WindowsOfCons(c, g.children[1..]);
    }
    assert Windows(AddWindow(g, w, frame)) == Windows(AddWindow(c, w, frame)) + rest by {
      assert AddWindow(g, w, frame).children == [AddWindow(c, w, frame)] + g.children[1..];
      WindowsOfCons(AddWindow(c, w, frame), g.children[1..]);
    }
    InsertAtConcat(Windows(c), rest, k, w);
    assert Windows(g)[..k] == Windows(c)[..k];
    AddWindowWellFormedFirst(g, w, frame);
  }

  lemma AddWindowWellFormedAppend(g: Group, w: WindowId, frame: Rect)
    requires g.window.None? && (|g.children| == 0 || g.children[0].window.Some?)
    ensures WellFormed(g) ==> WellFormed(AddWindow(g, w, frame))
  {
    var kids := g.children + [WindowNode(w, frame)];
    assert forall i :: 0 <= i < |g.children| ==> kids[i] == g.children[i];
    assert WellFormed(kids[|g.children|]);
  }

  lemma AddWindowWellFormedFirst(g: Group, w: WindowId, frame: Rect)
    requires g.window.None? && |g.children| > 0 && g.children[0].window.None?
    requires WellFormed(g.children[0]) ==> WellFormed(AddWindow(g.children[0], w, frame))
    ensures WellFormed(g) ==> WellFormed(AddWindow(g, w, frame))
  {
    var kids := [AddWindow(g.children[0], w, frame)] + g.children[1..];
    assert forall i :: 1 <= i < |g.children| ==> kids[i] == g.children[i];
  }

  lemma InsertAtConcat(a: seq<WindowId>, b: seq<WindowId>, k: nat, x: WindowId)
    requires k <= |a|
    ensures InsertAt(a, k, x) + b == InsertAt(a + b, k, x)
  {
    assert (a + b)[..k] == a[..k];
    assert (a + b)[k..] == a[k..] + b;
  }

  // ---------------------------------------------------------------------------
  // removeWindow

  /** Removes the window from a group's descendants; reports whether it was found. */
  function RemoveWindow(g: Group, w: WindowId): (bool, Group)
    decreases g
  {
    if g.window.Some? then (false, g)
    else
      var r := RemoveFromChildren(g.children, w);
      (r.0, g.(children := r.1))
  }

  /** The loop over the children: erase a matching window node, else recurse, stopping at the first success. */
  function RemoveFromChildren(gs: seq<Group>, w: WindowId): (bool, seq<Group>)
    decreases gs
  {
    if |gs| == 0 then (false, [])
    else if gs[0].window == Some(w) then (true, gs[1..])
    else
      var inner := RemoveWindow(gs[0], w);
      if inner.0 then (true, [inner.1] + gs[1..])
      else
        var rest := RemoveFromChildren(gs[1..], w);
        (rest.0, [gs[0]] + rest.1)
  }

  predicate RemovesFirst(gs: seq<Group>, w: WindowId)
  {
    var r := RemoveFromChildren(gs, w);
    (r.0 <==> w in WindowsOf(gs))
    && (r.0 ==> WindowsOf(r.1) == Removed(WindowsOf(gs), w))
    && (!r.0 ==> r.1 == gs)
  }

  /**
   * Removing from a window node fails. From a group it succeeds exactly
   * when the window is listed below it, and then takes out its first
   * occurrence depth first and nothing else; when it fails nothing changes.
   */
  lemma RemoveWindowFollowsList(g: Group, w: WindowId)
    ensures g.window.Some? ==> RemoveWindow(g, w) == (false, g)
    ensures g.window.None? ==>
      var r := RemoveWindow(g, w);
      (r.0 <==> w in Windows(g))
      && (r.0 ==> Windows(r.1) == Removed(Windows(g), w) && r.1.geometry == g.geometry)
      && (!r.0 ==> r.1 == g)
  {
    if g.window.None? {
      RemoveFromChildrenFollowsList(g.children, w);
    }
  }

  lemma {:induction false} RemoveFromChildrenFollowsList(gs: seq<Group>, w: WindowId)
    ensures RemovesFirst(gs, w)
    decreases gs
  {
    if |gs| > 0 {
      RemoveFromChildrenFollowsList(gs[1..], w);
      if gs[0].window == Some(w) {
        RemoveAtMatch(gs, w);
      } else if gs[0].window.Some? {
        RemovePastWindowNode(gs, w);
      } else {
        RemoveFromChildrenFollowsList(gs[0].children, w);
        RemoveThroughGroup(gs, w);
      }
    }
  }

  lemma RemoveAtMatch(gs: seq<Group>, w: WindowId)
    requires |gs| > 0 && gs[0].window == Some(w)
    ensures RemovesFirst(gs, w)
  {
    WindowsOfCons(gs[0], gs[1..]);
    assert gs == [gs[0]] + gs[1..];
    assert WindowsOf(gs) == [w] + WindowsOf(gs[1..]);
    RemovedHead(w, WindowsOf(gs[1..]));
  }

  lemma RemovePastWindowNode(gs: seq<Group>, w: WindowId)
    requires |gs| > 0 && gs[0].window.Some? && gs[0].window != Some(w)
    requires RemovesFirst(gs[1..], w)
    ensures RemovesFirst(gs, w)
  {
    var v := gs[0].window.value;
    WindowsOfCons(gs[0], gs[1..]);
    assert gs == [gs[0]] + gs[1..];
    assert WindowsOf(gs) == [v] + WindowsOf(gs[1..]);
    var rest := RemoveFromChildren(gs[1..], w);
    assert RemoveFromChildren(gs, w) == (rest.0, [gs[0]] + rest.1);
    WindowsOfCons(gs[0], rest.1);
    if rest.0 {
      RemovedRight([v], WindowsOf(gs[1..]), w);
    }
  }

  lemma RemoveThroughGroup(gs: seq<Group>, w: WindowId)
    requires |gs| > 0 && gs[0].window.None?
    requires RemovesFirst(gs[0].children, w)
    requires RemovesFirst(gs[1..], w)
    ensures RemovesFirst(gs, w)
  {
    var head, tail := WindowsOf(gs[0].children), WindowsOf(gs[1..]);
    var inner := RemoveWindow(gs[0], w);
    WindowsOfCons(gs[0], gs[1..]);
    assert gs == [gs[0]] + gs[1..];
    assert WindowsOf(gs) == head + tail;
    if inner.0 {
      assert RemoveFromChildren(gs, w) == (true, [inner.1] + gs[1..]);
      WindowsOfCons(inner.1, gs[1..]);
      RemovedLeft(head, tail, w);
    } else {
      var rest := RemoveFromChildren(gs[1..], w);
      assert RemoveFromChildren(gs, w) == (rest.0, [gs[0]] + rest.1);
      WindowsOfCons(gs[0], rest.1);
      if rest.0 {
        RemovedRight(head, tail, w);
      }
    }
  }

  lemma RemovedHead(x: WindowId, t: seq<WindowId>)
    ensures Removed([x] + t, x) == t
  {
    assert IndexOf([x] + t, x) == 0;
    assert ([x] + t)[1..] == t;
  }

  /** Removing a window of the first half of a list leaves the second half alone. */
  lemma RemovedLeft(a: seq<WindowId>, b: seq<WindowId>, x: WindowId)
    requires x in a
    ensures Removed(a + b, x) == Removed(a, x) + b
  {
    var i := IndexOf(a, x);
    var ab := a + b;
    assert ab[i] == x;
    assert forall j :: 0 <= j < i ==> ab[j] == a[j];
    assert IndexOf(ab, x) == i;
    RemoveAtInside(ab, i);
    RemoveAtInside(a, i);
    assert ab[..i] == a[..i];
    assert ab[i + 1..] == a[i + 1..] + b;
    AppendAssoc(a[..i], a[i + 1..], b);
  }

  /** Removing a window found only in the second half of a list leaves the first half alone. */
  lemma RemovedRight(a: seq<WindowId>, b: seq<WindowId>, x: WindowId)
    requires x !in a && x in b
    ensures Removed(a + b, x) == a + Removed(b, x)
  {
    var i := IndexOf(b, x);
    var k := |a| + i;
    var ab := a + b;
    assert ab[k] == x;
    assert forall j :: 0 <= j < |a| ==> ab[j] == a[j];
    assert forall j :: |a| <= j < k ==> ab[j] == b[j - |a|];
    assert IndexOf(ab, x) == k;
    RemoveAtInside(ab, k);
    RemoveAtInside(b, i);
    assert ab[..k] == a + b[..i];
    assert ab[k + 1..] == b[i + 1..];
    AppendAssoc(a, b[..i], b[i + 1..]);
  }

  lemma RemoveAtInside(s: seq<WindowId>, i: nat)
    requires i < |s|
    ensures RemoveAt(s, i) == s[..i] + s[i + 1..]
  {
  }

  lemma AppendAssoc(a: seq<WindowId>, b: seq<WindowId>, c: seq<WindowId>)
    ensures (a + b) + c == a + (b + c)
  {
  }

  // ---------------------------------------------------------------------------
  // setGeometry

  /**
   * Stores the area in the node; a window node also moves its window there
   * (the second component is the frame geometry pushed to the window, if any).
   */
  function SetGeometry(g: Group, value: Rect): (r: (Group, Option<Rect>))
    ensures r.0.geometry == value
    ensures r.0.window == g.window && r.0.children == g.children && r.0.weight == g.weight
    ensures r.1.Some? <==> IsWindowNode(g)
    ensures r.1.Some? ==> r.1.value == value
  {
    (g.(geometry := value), if g.window.Some? then Some(value) else None)
  }
}
