// The engine's ordered window list (src/kwinscript/engine/window_store.ts).
//
// The order of the list is the tiling order: the first tileable window on a
// surface is the master. Windows are referred to by id; the per-window facts
// the filters need (state, visibility, surface) come from the windows
// themselves and are passed in as functions.

module WindowList {
  import opened Types
  import opened Func
  import opened Window

  /** The list without position i (splice(i, 1)). */
  function RemoveAt<T>(s: seq<T>, i: nat): (r: seq<T>)
    requires i < |s|
    ensures |r| == |s| - 1
    ensures forall j :: 0 <= j < i ==> r[j] == s[j]
    ensures forall j :: i <= j < |r| ==> r[j] == s[j + 1]
  {
    s[..i] + s[i + 1..]
  }

  /** The list with x inserted before position i, or at the end past it (splice(i, 0, x)). */
  function InsertAt<T>(s: seq<T>, i: nat, x: T): (r: seq<T>)
    ensures |r| == |s| + 1
    ensures r[Min(i, |s|)] == x
    ensures forall j :: 0 <= j < Min(i, |s|) ==> r[j] == s[j]
    ensures forall j :: Min(i, |s|) <= j < |s| ==> r[j + 1] == s[j]
  {
    var k := Min(i, |s|);
    s[..k] + [x] + s[k..]
  }

  lemma RemoveAtMultiset<T>(s: seq<T>, i: nat)
    requires i < |s|
    ensures multiset(RemoveAt(s, i)) == multiset(s) - multiset{s[i]}
  {
    assert s == s[..i] + [s[i]] + s[i + 1..];
  }

  lemma InsertAtMultiset<T>(s: seq<T>, i: nat, x: T)
    ensures multiset(InsertAt(s, i, x)) == multiset(s) + multiset{x}
  {
    var k := Min(i, |s|);
    assert s == s[..k] + s[k..];
  }

  /** Inserting the element just removed, at the position it was removed from, restores the list. */
  lemma RemoveInsertRoundTrip<T>(s: seq<T>, i: nat)
    requires i < |s|
    ensures InsertAt(RemoveAt(s, i), i, s[i]) == s
  {
  }

  /** Removing what was just inserted gives the list back. */
  lemma InsertRemoveRoundTrip<T>(s: seq<T>, i: nat, x: T)
    ensures RemoveAt(InsertAt(s, i, x), Min(i, |s|)) == s
  {
  }

  // ---------------------------------------------------------------------------
  // The list operations as functions of the list

  /**
   * move: when both windows are listed, take `src` out and put it back at
   * `dest`'s original index, or one past it when `after` is set.
   */
  function Moved(s: seq<WindowId>, src: WindowId, dest: WindowId, after: bool): seq<WindowId>
  {
    var srcIdx := IndexOf(s, src);
    var destIdx := IndexOf(s, dest);
    if srcIdx == -1 || destIdx == -1 then s
    else InsertAt(RemoveAt(s, srcIdx), if after then destIdx + 1 else destIdx, src)
  }

  /**
   * Move is a no-op when either window is absent; otherwise it keeps the same
   * windows, puts `src` at dest's original index (one past it when `after`,
   * the end at most), and leaves the other windows in their relative order.
   */
  lemma MovedSpec(s: seq<WindowId>, src: WindowId, dest: WindowId, after: bool)
    ensures src !in s || dest !in s ==> Moved(s, src, dest, after) == s
    ensures multiset(Moved(s, src, dest, after)) == multiset(s)
    ensures src in s && dest in s ==>
      var pos := Min(if after then IndexOf(s, dest) + 1 else IndexOf(s, dest), |s| - 1);
      0 <= pos < |s| && Moved(s, src, dest, after)[pos] == src
      && RemoveAt(Moved(s, src, dest, after), pos) == RemoveAt(s, IndexOf(s, src))
  {
    if src in s && dest in s {
      MovedPlacesSource(s, src, dest, after);
      var si := IndexOf(s, src);
      var rest := RemoveAt(s, si);
      var target := if after then IndexOf(s, dest) + 1 else IndexOf(s, dest);
      assert Moved(s, src, dest, after) == InsertAt(rest, target, src);
      RemoveAtMultiset(s, si);
      InsertAtMultiset(rest, target, src);
    }
  }

  lemma MovedPlacesSource(s: seq<WindowId>, src: WindowId, dest: WindowId, after: bool)
    requires src in s && dest in s
    ensures var pos := Min(if after then IndexOf(s, dest) + 1 else IndexOf(s, dest), |s| - 1);
      0 <= pos < |s| && Moved(s, src, dest, after)[pos] == src
      && RemoveAt(Moved(s, src, dest, after), pos) == RemoveAt(s, IndexOf(s, src))
  {
    var rest := RemoveAt(s, IndexOf(s, src));
    var target := if after then IndexOf(s, dest) + 1 else IndexOf(s, dest);
    var m := InsertAt(rest, target, src);
    assert Moved(s, src, dest, after) == m;
    var pos := Min(target, |rest|);
    assert pos == Min(target, |s| - 1);
    assert 0 <= IndexOf(s, dest) <= target && 0 <= pos < |s|;
    assert m[pos] == src;
    InsertRemoveRoundTrip(rest, target, src);
  }

  /** putWindowToMaster: a listed window moves to the front. */
  function ToMaster(s: seq<WindowId>, w: WindowId): seq<WindowId>
  {
    var idx := IndexOf(s, w);
    if idx == -1 then s else InsertAt(RemoveAt(s, idx), 0, w)
  }

  /**
   * A listed window ends up first, followed by the others in their previous
   * order, with the same windows overall; an absent one changes nothing.
   */
  lemma ToMasterSpec(s: seq<WindowId>, w: WindowId)
    ensures w !in s ==> ToMaster(s, w) == s
    ensures w in s ==> ToMaster(s, w) == [w] + RemoveAt(s, IndexOf(s, w))
    ensures multiset(ToMaster(s, w)) == multiset(s)
  {
    if w in s {
      var i := IndexOf(s, w);
      var rest := RemoveAt(s, i);
      InsertAtFront(rest, w);
      RemoveAtMultiset(s, i);
      assert multiset(s) == multiset(rest) + multiset{w};
    }
  }

  /** Inserting at position 0 puts the item in front. */
  lemma InsertAtFront<T>(s: seq<T>, x: T)
    ensures InsertAt(s, 0, x) == [x] + s
  {
    assert s[..0] == [] && s[0..] == s;
  }

  /** swap: two listed windows exchange positions. */
  function Swapped(s: seq<WindowId>, alpha: WindowId, beta: WindowId): (r: seq<WindowId>)
    ensures |r| == |s|
  {
    var alphaIndex := IndexOf(s, alpha);
    var betaIndex := IndexOf(s, beta);
    if alphaIndex < 0 || betaIndex < 0 then s
    else s[alphaIndex := beta][betaIndex := alpha]
  }

  /**
   * Swapping puts each window where the other was and leaves every other
   * position alone. With either window absent nothing changes.
   */
  lemma SwappedSpec(s: seq<WindowId>, alpha: WindowId, beta: WindowId)
    ensures alpha !in s || beta !in s ==> Swapped(s, alpha, beta) == s
    ensures alpha in s && beta in s ==>
      var r, ia, ib := Swapped(s, alpha, beta), IndexOf(s, alpha), IndexOf(s, beta);
      r[ia] == beta && r[ib] == alpha
      && forall j :: 0 <= j < |s| && j != ia && j != ib ==> r[j] == s[j]
  {
  }

  /** Swapping keeps the same windows. */
  lemma SwappedMultiset(s: seq<WindowId>, alpha: WindowId, beta: WindowId)
    ensures multiset(Swapped(s, alpha, beta)) == multiset(s)
  {
    var ia, ib := IndexOf(s, alpha), IndexOf(s, beta);
    if ia >= 0 && ib >= 0 {
      SwapMultiset(s, ia, ib);
    }
  }

  /** Exchanging the windows at two positions keeps the same windows. */
  lemma SwapMultiset(s: seq<WindowId>, i: nat, j: nat)
    requires i < |s| && j < |s|
    ensures multiset(s[i := s[j]][j := s[i]]) == multiset(s)
  {
    if i != j {
      var t := s[i := s[j]];
      UpdateMultiset(s, i, s[j]);
      UpdateMultiset(t, j, s[i]);
    }
  }

  /** Overwriting position i trades the window there for the new one. */
  lemma UpdateMultiset(s: seq<WindowId>, i: nat, v: WindowId)
    requires i < |s|
    ensures multiset(s[i := v]) == multiset(s) - multiset{s[i]} + multiset{v}
  {
  }

  /** No window is listed twice. */
  predicate Distinct(s: seq<WindowId>)
  {
    forall i, j :: 0 <= i < j < |s| ==> s[i] != s[j]
  }

  /** In a list without repeats, swapping twice restores the list. */
  lemma SwappedTwice(s: seq<WindowId>, alpha: WindowId, beta: WindowId)
    requires Distinct(s)
    ensures Swapped(Swapped(s, alpha, beta), alpha, beta) == s
  {
    if alpha in s && beta in s {
      var r := Swapped(s, alpha, beta);
      var ia, ib := IndexOf(s, alpha), IndexOf(s, beta);
      if ia != ib {
        assert r[ib] == alpha && r[ia] == beta;
        assert forall j :: 0 <= j < |s| && j != ib ==> r[j] != alpha;
        assert forall j :: 0 <= j < |s| && j != ia ==> r[j] != beta;
      }
    }
  }

  /** insertAfter: the window goes right after `after`, or first when `after` is not listed. */
  function InsertedAfter(s: seq<WindowId>, after: WindowId, w: WindowId): seq<WindowId>
  {
    InsertAt(s, IndexOf(s, after) + 1, w)
  }

  lemma InsertedAfterSpec(s: seq<WindowId>, after: WindowId, w: WindowId)
    ensures after !in s ==> InsertedAfter(s, after, w) == [w] + s
    ensures after in s ==>
      var i := IndexOf(s, after);
      InsertedAfter(s, after, w) == s[..i + 1] + [w] + s[i + 1..]
      && InsertedAfter(s, after, w)[i] == after && InsertedAfter(s, after, w)[i + 1] == w
  {
    var i := IndexOf(s, after);
    if i < 0 {
      InsertAtFront(s, w);
    } else {
      assert Min(i + 1, |s|) == i + 1;
      assert InsertedAfter(s, after, w) == s[..i + 1] + [w] + s[i + 1..];
    }
  }

  /** remove: drops the first occurrence of the window. */
  function Removed(s: seq<WindowId>, w: WindowId): seq<WindowId>
  {
    var idx := IndexOf(s, w);
    if idx >= 0 then RemoveAt(s, idx) else s
  }

  /**
   * Removing a listed window shortens the list by one and takes exactly one
   * copy of it out; removing an absent one changes nothing.
   */
  lemma RemovedSpec(s: seq<WindowId>, w: WindowId)
    ensures w !in s ==> Removed(s, w) == s
    ensures w in s ==> |Removed(s, w)| == |s| - 1
    ensures multiset(Removed(s, w)) == multiset(s) - multiset{w}
  {
    if w in s {
      RemoveAtMultiset(s, IndexOf(s, w));
    }
  }

  /** Pushing a window that was not listed and removing it gives the list back. */
  lemma PushRemoveRoundTrip(s: seq<WindowId>, w: WindowId)
    requires w !in s
    ensures Removed(s + [w], w) == s
  {
    assert IndexOf(s + [w], w) == |s|;
  }

  // ---------------------------------------------------------------------------
  // The store

  class WindowStore {
    var list: seq<WindowId>

    constructor (list: seq<WindowId>)
      ensures this.list == list
    {
      this.list := list;
    }

    method Move(src: WindowId, dest: WindowId, after: bool)
      modifies this
      ensures list == Moved(old(list), src, dest, after)
    {
      var srcIdx := IndexOf(list, src);
      var destIdx := IndexOf(list, dest);
      if srcIdx == -1 || destIdx == -1 {
        return;
      }
      list := RemoveAt(list, srcIdx);
      list := InsertAt(list, if after then destIdx + 1 else destIdx, src);
    }

    method PutWindowToMaster(w: WindowId)
      modifies this
      ensures list == ToMaster(old(list), w)
    {
      var idx := IndexOf(list, w);
      if idx == -1 {
        return;
      }
      list := RemoveAt(list, idx);
      list := InsertAt(list, 0, w);
    }

    method Swap(alpha: WindowId, beta: WindowId)
      modifies this
      ensures list == Swapped(old(list), alpha, beta)
    {
      var alphaIndex := IndexOf(list, alpha);
      var betaIndex := IndexOf(list, beta);
      if alphaIndex < 0 || betaIndex < 0 {
        return;
      }
      list := list[alphaIndex := beta];
      list := list[betaIndex := alpha];
    }

    function Length(): (n: nat)
      reads this
      ensures n == |list|
    {
      |list|
    }

    /** The window at an index, or nothing outside the list. */
    function At(idx: int): (r: Option<WindowId>)
      reads this
      ensures r.Some? <==> 0 <= idx < |list|
      ensures r.Some? ==> r.value == list[idx]
    {
      if 0 <= idx < |list| then Some(list[idx]) else None
    }

    function Index(w: WindowId): (r: int)
      reads this
      ensures r == -1 <==> w !in list
      ensures r >= 0 ==> r < |list| && list[r] == w
    {
      IndexOf(list, w)
    }

    method InsertAfter(after: WindowId, toInsert: WindowId)
      modifies this
      ensures list == InsertedAfter(old(list), after, toInsert)
    {
      list := InsertAt(list, IndexOf(list, after) + 1, toInsert);
    }

    method Push(w: WindowId)
      modifies this
      ensures list == old(list) + [w]
    {
      list := list + [w];
    }

    method Remove(w: WindowId)
      modifies this
      ensures list == Removed(old(list), w)
    {
      var idx := IndexOf(list, w);
      if idx >= 0 {
        list := RemoveAt(list, idx);
      }
    }

    method Unshift(w: WindowId)
      modifies this
      ensures list == [w] + old(list)
    {
      list := [w] + list;
    }

    /** Listed windows visible on the surface, in list order. */
    function VisibleWindowsOn(visibleOn: WindowId -> bool): (r: seq<WindowId>)
      reads this
      ensures IsSubsequence(r, list)
      ensures forall w :: w in r <==> w in list && visibleOn(w)
    {
      FilterIsSubsequence(list, visibleOn);
      Filter(list, visibleOn)
    }

    /** Listed visible windows in a tiled state, in list order. */
    function VisibleTiledWindowsOn(stateOf: WindowId -> WindowState, visibleOn: WindowId -> bool): (r: seq<WindowId>)
      reads this
      ensures IsSubsequence(r, list)
      ensures forall w :: w in r <==> w in list && IsTiledState(stateOf(w)) && visibleOn(w)
    {
      var p := (w: WindowId) => IsTiledState(stateOf(w)) && visibleOn(w);
      FilterIsSubsequence(list, p);
      Filter(list, p)
    }

    /** Listed visible windows in a tileable state, in list order. */
    function VisibleTileableWindowsOn(stateOf: WindowId -> WindowState, visibleOn: WindowId -> bool): (r: seq<WindowId>)
      reads this
      ensures IsSubsequence(r, list)
      ensures forall w :: w in r <==> w in list && IsTileableState(stateOf(w)) && visibleOn(w)
    {
      var p := (w: WindowId) => IsTileableState(stateOf(w)) && visibleOn(w);
      FilterIsSubsequence(list, p);
      Filter(list, p)
    }

    /** Listed tileable windows on the surface, hidden ones included, in list order. */
    function TileableWindowsOn(stateOf: WindowId -> WindowState, surfaceOf: WindowId -> SurfaceId, surface: SurfaceId): (r: seq<WindowId>)
      reads this
      ensures IsSubsequence(r, list)
      ensures forall w :: w in r <==> w in list && IsTileableState(stateOf(w)) && surfaceOf(w) == surface
    {
      var p := (w: WindowId) => IsTileableState(stateOf(w)) && surfaceOf(w) == surface;
      FilterIsSubsequence(list, p);
      Filter(list, p)
    }

    /** Every listed window on the surface, minimized ones included, in list order. */
    function AllWindowsOn(surfaceOf: WindowId -> SurfaceId, surface: SurfaceId): (r: seq<WindowId>)
      reads this
      ensures IsSubsequence(r, list)
      ensures forall w :: w in r <==> w in list && surfaceOf(w) == surface
    {
      var p := (w: WindowId) => surfaceOf(w) == surface;
      FilterIsSubsequence(list, p);
      Filter(list, p)
    }
  }
}
