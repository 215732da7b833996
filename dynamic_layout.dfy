// The dynamic split layout (src/kwinscript/engine/layout/dynamic_layout.ts).
//
// The layout is a tree: a part splits its area equally among its
// sub-parts, side by side (horizontal) or one above the other (vertical),
// and a sub-part is either a window, by id, or a nested part. The user
// splits the current window's place into a new nested part; windows appear
// in the tree in the order of the window list, read depth first.

module Dynamic {
  import opened Types
  import opened Func
  import opened Geometry
  import opened LayoutUtils
  import opened Window
  import opened WindowList

  datatype SplitDirection = Horizontal | Vertical

  /** A sub-part: a window's leaf, or a part with its own direction, gap and sub-parts. */
  datatype SubPart =
    | WindowLeaf(id: WindowId)
    | Part(direction: SplitDirection, gap: int, subParts: seq<SubPart>)

  /** The windows of a sub-part, depth first. */
  function Leaves(p: SubPart): seq<WindowId>
    decreases p
  {
    match p
    case WindowLeaf(id) => [id]
    case Part(_, _, subs) => LeavesOf(subs)
  }

  function LeavesOf(subs: seq<SubPart>): seq<WindowId>
    decreases subs
  {
    if |subs| == 0 then [] else Leaves(subs[0]) + LeavesOf(subs[1..])
  }

  lemma LeavesOfCons(h: SubPart, t: seq<SubPart>)
    ensures LeavesOf([h] + t) == Leaves(h) + LeavesOf(t)
  {
    assert ([h] + t)[0] == h && ([h] + t)[1..] == t;
  }

  lemma {:induction false} LeavesOfAppend(a: seq<SubPart>, b: seq<SubPart>)
    ensures LeavesOf(a + b) == LeavesOf(a) + LeavesOf(b)
    decreases |a|
  {
    if |a| == 0 {
      assert a + b == b;
    } else {
      assert (a + b)[0] == a[0] && (a + b)[1..] == a[1..] + b;
      LeavesOfAppend(a[1..], b);
    }
  }

  // ---------------------------------------------------------------------------
  // split

  /**
   * What a part reports back from a split: the window was not found; it was
   * split; or it is the part's only sub-part, so that the caller has to
   * replace the whole part (the source's 0, 1 and 2).
   */
  datatype SplitOutcome = NotFound | Done | ReplaceMe

  /** The part a window's place becomes: a new part in the split direction holding only that window (its gap is 0). */
  function Wrapped(direction: SplitDirection, w: WindowId): SubPart
  {
    Part(direction, 0, [WindowLeaf(w)])
  }

  /**
   * The split loop over the sub-parts `subs` of a part with `count`
   * sub-parts: the first leaf of w is wrapped, unless it is the part's only
   * sub-part; a nested part that answers ReplaceMe is replaced by the
   * wrapped window and the loop goes on.
   */
  function SplitParts(subs: seq<SubPart>, count: nat, direction: SplitDirection, w: WindowId): (r: (SplitOutcome, seq<SubPart>))
    ensures |r.1| == |subs|
    decreases subs
  {
    if |subs| == 0 then (NotFound, [])
    else
      match subs[0]
      case WindowLeaf(id) =>
        if id == w then
          if count == 1 then (ReplaceMe, subs)
          else (Done, [Wrapped(direction, w)] + subs[1..])
        else
          var rest := SplitParts(subs[1..], count, direction, w);
          (rest.0, [subs[0]] + rest.1)
      case Part(d, g, children) =>
        var inner := SplitParts(children, |children|, direction, w);
        if inner.0 == Done then (Done, [Part(d, g, inner.1)] + subs[1..])
        else
          var rest := SplitParts(subs[1..], count, direction, w);
          var first := if inner.0 == ReplaceMe then Wrapped(direction, w) else Part(d, g, inner.1);
          (rest.0, [first] + rest.1)
  }

  lemma WrappedLeaves(direction: SplitDirection, w: WindowId)
    ensures Leaves(Wrapped(direction, w)) == [w]
  {
    LeavesOfCons(WindowLeaf(w), []);
    assert [WindowLeaf(w)] + [] == [WindowLeaf(w)];
  }

  /**
   * Splitting a part: its new sub-parts and the outcome. The part keeps its
   * direction, gap and windows; a window not in it is reported NotFound
   * and changes nothing.
   */
  function Split(p: SubPart, direction: SplitDirection, w: WindowId): (r: (SplitOutcome, SubPart))
    requires p.Part?
    ensures r.1.Part? && r.1.direction == p.direction && r.1.gap == p.gap
    ensures Leaves(r.1) == Leaves(p)
    ensures w !in Leaves(p) ==> r == (NotFound, p)
    ensures r.0 != NotFound ==> w in Leaves(p)
  {
    var s := SplitParts(p.subParts, |p.subParts|, direction, w);
    SplitKeepsLeaves(p.subParts, |p.subParts|, direction, w);
    (s.0, Part(p.direction, p.gap, s.1))
  }

  /**
   * Splitting never adds, drops or reorders windows; a window that is not
   * in the tree leaves it unchanged and is reported NotFound.
   */
  lemma {:induction false} SplitKeepsLeaves(subs: seq<SubPart>, count: nat, direction: SplitDirection, w: WindowId)
    ensures var r := SplitParts(subs, count, direction, w);
      LeavesOf(r.1) == LeavesOf(subs)
      && (w !in LeavesOf(subs) ==> r == (NotFound, subs))
      && (r.0 != NotFound ==> w in LeavesOf(subs))
    decreases subs
  {
    if |subs| > 0 {
      var r := SplitParts(subs, count, direction, w);
      assert subs == [subs[0]] + subs[1..];
      LeavesOfCons(subs[0], subs[1..]);
      match subs[0]
      case WindowLeaf(id) =>
        assert Leaves(subs[0]) == [id];
        if id == w {
          if count != 1 {
            LeavesOfCons(Wrapped(direction, w), subs[1..]);
            WrappedLeaves(direction, w);
          }
        } else {
          var rest := SplitParts(subs[1..], count, direction, w);
          SplitKeepsLeaves(subs[1..], count, direction, w);
          LeavesOfCons(subs[0], rest.1);
        }
      case Part(d, g, children) =>
        var inner := SplitParts(children, |children|, direction, w);
        SplitKeepsLeaves(children, |children|, direction, w);
        assert Leaves(subs[0]) == LeavesOf(children);
        if inner.0 == Done {
          LeavesOfCons(Part(d, g, inner.1), subs[1..]);
        } else {
          var rest := SplitParts(subs[1..], count, direction, w);
          SplitKeepsLeaves(subs[1..], count, direction, w);
          var first := if inner.0 == ReplaceMe then Wrapped(direction, w) else Part(d, g, inner.1);
          LeavesOfCons(first, rest.1);
          if inner.0 == ReplaceMe {
            ReplaceMeOnlyChild(children, |children|, direction, w);
            WrappedLeaves(direction, w);
            LeavesOfCons(WindowLeaf(w), []);
          }
        }
    }
  }

  /** ReplaceMe comes only from a part whose one sub-part is the window's leaf. */
  lemma ReplaceMeOnlyChild(subs: seq<SubPart>, count: nat, direction: SplitDirection, w: WindowId)
    requires count == |subs|
    ensures SplitParts(subs, count, direction, w).0 == ReplaceMe <==> subs == [WindowLeaf(w)]
  {
    ReplaceMeNeedsSingle(subs, count, direction, w);
    if subs == [WindowLeaf(w)] {
      assert subs[0] == WindowLeaf(w);
    }
  }

  /** ReplaceMe is answered only from a part with a single sub-part, the window's leaf. */
  lemma {:induction false} ReplaceMeNeedsSingle(subs: seq<SubPart>, count: nat, direction: SplitDirection, w: WindowId)
    requires count >= |subs|
    ensures SplitParts(subs, count, direction, w).0 == ReplaceMe ==> count == |subs| == 1 && subs[0] == WindowLeaf(w)
    decreases subs
  {
    if |subs| > 0 {
      if subs[0].WindowLeaf? {
        if subs[0].id != w {
          ReplaceMeNeedsSingle(subs[1..], count, direction, w);
        }
      } else {
        var inner := SplitParts(subs[0].subParts, |subs[0].subParts|, direction, w);
        if inner.0 != Done {
          ReplaceMeNeedsSingle(subs[1..], count, direction, w);
        }
      }
    }
  }

  /**
   * In a part made only of windows, splitting a window that is not alone
   * wraps its first leaf in a new part and reports Done; nothing else
   * changes.
   */
  lemma {:induction false} SplitFlatPart(subs: seq<SubPart>, count: nat, direction: SplitDirection, w: WindowId, i: nat)
    requires forall k :: 0 <= k < |subs| ==> subs[k].WindowLeaf?
    requires i < |subs| && subs[i] == WindowLeaf(w) && forall k :: 0 <= k < i ==> subs[k] != WindowLeaf(w)
    requires count != 1
    ensures SplitParts(subs, count, direction, w) == (Done, subs[i := Wrapped(direction, w)])
    decreases subs
  {
    if i == 0 {
      assert subs[0 := Wrapped(direction, w)] == [Wrapped(direction, w)] + subs[1..];
    } else {
      SplitFlatPart(subs[1..], count, direction, w, i - 1);
      assert subs[i := Wrapped(direction, w)] == [subs[0]] + subs[1..][i - 1 := Wrapped(direction, w)];
    }
  }

  /** The first sub-part, in order, whose windows include `w`. */
  function FirstHolding(subs: seq<SubPart>, w: WindowId): (k: nat)
    requires w in LeavesOf(subs)
    ensures k < |subs| && w in Leaves(subs[k])
    ensures forall j :: 0 <= j < k ==> w !in Leaves(subs[j])
    decreases subs
  {
    if w in Leaves(subs[0]) then 0 else 1 + FirstHolding(subs[1..], w)
  }

  /** A sub-part without `w` comes through the split loop unchanged. */
  lemma SplitPartsSkip(subs: seq<SubPart>, count: nat, direction: SplitDirection, w: WindowId)
    requires |subs| > 0 && w !in Leaves(subs[0])
    ensures SplitParts(subs, count, direction, w).1 == [subs[0]] + SplitParts(subs[1..], count, direction, w).1
  {
    if subs[0].Part? {
      SplitKeepsLeaves(subs[0].subParts, |subs[0].subParts|, direction, w);
    }
  }

  /** The sub-part holding `w` first: what it becomes, and the later ones kept when they hold no `w`. */
  lemma SplitPartsHit(subs: seq<SubPart>, count: nat, direction: SplitDirection, w: WindowId)
    requires |subs| > 0 && w in Leaves(subs[0])
    ensures var r := SplitParts(subs, count, direction, w).1;
      (subs[0].WindowLeaf? ==> r[0] == if count == 1 then subs[0] else Wrapped(direction, w))
      && (subs[0].Part? ==>
            r[0] == if subs[0].subParts == [WindowLeaf(w)] then Wrapped(direction, w)
                    else Part(subs[0].direction, subs[0].gap, SplitParts(subs[0].subParts, |subs[0].subParts|, direction, w).1))
      && (w !in LeavesOf(subs[1..]) ==> r[1..] == subs[1..])
  {
    if w !in LeavesOf(subs[1..]) {
      SplitKeepsLeaves(subs[1..], count, direction, w);
    }
    if subs[0].Part? {
      ReplaceMeOnlyChild(subs[0].subParts, |subs[0].subParts|, direction, w);
    }
  }

  /** How often `w` occurs among `subs`: its count in the first sub-part plus its count in the rest. */
  lemma LeavesCount(subs: seq<SubPart>, w: WindowId)
    requires |subs| > 0
    ensures multiset(LeavesOf(subs))[w] == multiset(Leaves(subs[0]))[w] + multiset(LeavesOf(subs[1..]))[w]
  {
    assert LeavesOf(subs) == Leaves(subs[0]) + LeavesOf(subs[1..]);
  }

  /**
   * Split at any depth: the sub-parts before the first one holding `w` are
   * kept; that one is wrapped when it is w's leaf (unless it is the part's
   * only sub-part), replaced by the wrapped window when it is a part whose
   * only sub-part is w's leaf, and split in turn otherwise. When `w` occurs
   * once, the sub-parts after it are kept too.
   */
  lemma {:induction false} SplitPartsFirstHolding(subs: seq<SubPart>, count: nat, direction: SplitDirection, w: WindowId)
    requires w in LeavesOf(subs)
    ensures var k, r := FirstHolding(subs, w), SplitParts(subs, count, direction, w).1;
      (forall j :: 0 <= j < k ==> r[j] == subs[j])
      && (subs[k].WindowLeaf? ==> r[k] == if count == 1 then subs[k] else Wrapped(direction, w))
      && (subs[k].Part? ==>
            r[k] == if subs[k].subParts == [WindowLeaf(w)] then Wrapped(direction, w)
                    else Part(subs[k].direction, subs[k].gap, SplitParts(subs[k].subParts, |subs[k].subParts|, direction, w).1))
      && (multiset(LeavesOf(subs))[w] == 1 ==> forall j :: k < j < |subs| ==> r[j] == subs[j])
    decreases subs
  {
    LeavesCount(subs, w);
    if w in Leaves(subs[0]) {
      SplitPartsHit(subs, count, direction, w);
      if multiset(LeavesOf(subs))[w] == 1 {
        assert w in multiset(Leaves(subs[0]));
        assert w !in multiset(LeavesOf(subs[1..]));
      }
    } else {
      SplitPartsSkip(subs, count, direction, w);
      SplitPartsFirstHolding(subs[1..], count, direction, w);
      assert w !in multiset(Leaves(subs[0]));
    }
  }

  /** `subs` holds, at some depth, a part made by wrapping `w` in `direction`. */
  predicate HasWrapped(subs: seq<SubPart>, direction: SplitDirection, w: WindowId)
    decreases subs
  {
    exists k :: 0 <= k < |subs| && (subs[k] == Wrapped(direction, w) || (subs[k].Part? && HasWrapped(subs[k].subParts, direction, w)))
  }

  /** Splitting a window of a part, other than the part's only sub-part, always leaves it wrapped somewhere in the tree. */
  lemma {:induction false} SplitPartsWraps(subs: seq<SubPart>, direction: SplitDirection, w: WindowId)
    requires w in LeavesOf(subs) && subs != [WindowLeaf(w)]
    ensures HasWrapped(SplitParts(subs, |subs|, direction, w).1, direction, w)
    decreases subs
  {
    var k, r := FirstHolding(subs, w), SplitParts(subs, |subs|, direction, w).1;
    SplitPartsFirstHolding(subs, |subs|, direction, w);
    match subs[k]
    case WindowLeaf(id) =>
      assert r[k] == Wrapped(direction, w);
    case Part(d, g, children) =>
      if children != [WindowLeaf(w)] {
        SplitPartsWraps(children, direction, w);
        assert r[k].Part? && r[k].subParts == SplitParts(children, |children|, direction, w).1;
      }
  }

  /**
   * split on a part at any depth: w's place becomes a new part in the split
   * direction holding only w, unless w is the part's only sub-part; only the
   * sub-part holding w's first occurrence is touched when w occurs once.
   */
  lemma SplitWraps(p: SubPart, direction: SplitDirection, w: WindowId)
    requires p.Part? && w in Leaves(p)
    ensures p.subParts != [WindowLeaf(w)] ==> HasWrapped(Split(p, direction, w).1.subParts, direction, w)
    ensures p.subParts == [WindowLeaf(w)] ==> Split(p, direction, w) == (ReplaceMe, p)
    ensures var k := FirstHolding(p.subParts, w);
      multiset(Leaves(p))[w] == 1 ==>
        forall j :: 0 <= j < |p.subParts| && j != k ==> Split(p, direction, w).1.subParts[j] == p.subParts[j]
  {
    SplitPartsFirstHolding(p.subParts, |p.subParts|, direction, w);
    if p.subParts != [WindowLeaf(w)] {
      SplitPartsWraps(p.subParts, direction, w);
    }
  }

  /** A part made only of windows lists exactly those windows. */
  lemma {:induction false} FlatLeaves(subs: seq<SubPart>)
    requires forall k :: 0 <= k < |subs| ==> subs[k].WindowLeaf?
    ensures |LeavesOf(subs)| == |subs| && forall k :: 0 <= k < |subs| ==> LeavesOf(subs)[k] == subs[k].id
    decreases subs
  {
    if |subs| > 0 {
      FlatLeaves(subs[1..]);
      assert Leaves(subs[0]) == [subs[0].id];
    }
  }

  // ---------------------------------------------------------------------------
  // prepare

  /**
   * The prepare loop over `subs`, with the tiles still to be matched: a
   * leaf stays when it is the next tile (which is then consumed) and is
   * dropped otherwise; a nested part is prepared in turn, and kept even when
   * it ends up empty. Returns the new sub-parts and the unmatched tiles.
   */
  function PrepareParts(subs: seq<SubPart>, tiles: seq<WindowId>): (r: (seq<SubPart>, seq<WindowId>))
    decreases subs
  {
    if |subs| == 0 then ([], tiles)
    else
      match subs[0]
      case WindowLeaf(id) =>
        if |tiles| > 0 && id == tiles[0] then
          var rest := PrepareParts(subs[1..], tiles[1..]);
          ([subs[0]] + rest.0, rest.1)
        else PrepareParts(subs[1..], tiles)
      case Part(d, g, children) =>
        var inner := PrepareParts(children, tiles);
        var rest := PrepareParts(subs[1..], inner.1);
        ([Part(d, g, inner.0)] + rest.0, rest.1)
  }

  /** prepare on the top part: the loop, then every tile left over appended as a leaf. */
  function Prepare(p: SubPart, tiles: seq<WindowId>): (r: SubPart)
    requires p.Part?
    ensures r.Part? && r.direction == p.direction && r.gap == p.gap
  {
    var s := PrepareParts(p.subParts, tiles);
    Part(p.direction, p.gap, s.0 + LeafList(s.1))
  }

  /** The loop keeps exactly a prefix of the tiles, in order, and hands back the rest. */
  lemma {:induction false} PreparePartsConsumesPrefix(subs: seq<SubPart>, tiles: seq<WindowId>)
    ensures var r := PrepareParts(subs, tiles); tiles == LeavesOf(r.0) + r.1
    decreases subs
  {
    if |subs| > 0 {
      match subs[0]
      case WindowLeaf(id) =>
        if |tiles| > 0 && id == tiles[0] {
          PreparePartsConsumesPrefix(subs[1..], tiles[1..]);
          var rest := PrepareParts(subs[1..], tiles[1..]);
          assert ([subs[0]] + rest.0)[1..] == rest.0;
        } else {
          PreparePartsConsumesPrefix(subs[1..], tiles);
        }
      case Part(d, g, children) =>
        var inner := PrepareParts(children, tiles);
        PreparePartsConsumesPrefix(children, tiles);
        PreparePartsConsumesPrefix(subs[1..], inner.1);
        var rest := PrepareParts(subs[1..], inner.1);
        assert ([Part(d, g, inner.0)] + rest.0)[1..] == rest.0;
    }
  }

  /** After prepare, the tree holds exactly the tiles, in their order. */
  lemma PrepareListsTiles(p: SubPart, tiles: seq<WindowId>)
    requires p.Part?
    ensures Leaves(Prepare(p, tiles)) == tiles
  {
    var s := PrepareParts(p.subParts, tiles);
    PreparePartsConsumesPrefix(p.subParts, tiles);
    var appended := LeafList(s.1);
    var r := Prepare(p, tiles);
    assert r.subParts == s.0 + appended;
    LeavesOfAppend(s.0, appended);
    LeavesOfLeafList(s.1);
    assert Leaves(r) == LeavesOf(s.0) + s.1;
  }

  /** One leaf per window, in order. */
  function LeafList(ids: seq<WindowId>): (r: seq<SubPart>)
    ensures |r| == |ids| && forall k :: 0 <= k < |ids| ==> r[k] == WindowLeaf(ids[k])
  {
    seq(|ids|, k requires 0 <= k < |ids| => WindowLeaf(ids[k]))
  }

  /** A list of leaves, one per window, lists those windows. */
  lemma LeavesOfLeafList(ids: seq<WindowId>)
    ensures LeavesOf(LeafList(ids)) == ids
  {
    FlatLeaves(LeafList(ids));
  }

  /** A tree that already lists a prefix of the tiles is left as it is, and the other tiles are handed back. */
  lemma {:induction false} PreparePartsKeepsMatchingTree(subs: seq<SubPart>, tiles: seq<WindowId>, rest: seq<WindowId>)
    requires tiles == LeavesOf(subs) + rest
    ensures PrepareParts(subs, tiles) == (subs, rest)
    decreases subs
  {
    if |subs| == 0 {
      assert tiles == rest;
    } else {
      match subs[0]
      case WindowLeaf(id) =>
        assert Leaves(subs[0]) == [id];
        assert tiles == [id] + (LeavesOf(subs[1..]) + rest);
        assert tiles[1..] == LeavesOf(subs[1..]) + rest;
        PreparePartsKeepsMatchingTree(subs[1..], tiles[1..], rest);
        assert [subs[0]] + subs[1..] == subs;
      case Part(d, g, children) =>
        assert Leaves(subs[0]) == LeavesOf(children);
        assert tiles == LeavesOf(children) + (LeavesOf(subs[1..]) + rest);
        PreparePartsKeepsMatchingTree(children, tiles, LeavesOf(subs[1..]) + rest);
        PreparePartsKeepsMatchingTree(subs[1..], LeavesOf(subs[1..]) + rest, rest);
        assert [subs[0]] + subs[1..] == subs;
    }
  }

  /** Preparing twice for the same tiles is preparing once. */
  lemma PrepareIdempotent(p: SubPart, tiles: seq<WindowId>)
    requires p.Part?
    ensures Prepare(Prepare(p, tiles), tiles) == Prepare(p, tiles)
  {
    var q := Prepare(p, tiles);
    PrepareListsTiles(p, tiles);
    PreparePartsKeepsMatchingTree(q.subParts, tiles, []);
    assert tiles == LeavesOf(q.subParts) + [];
  }

  // ---------------------------------------------------------------------------
  // handelNewWindow

  /**
   * Inserts `newWindow` right after the first leaf of `current`, in the same
   * part; reports whether `current` was found.
   */
  function InsertNew(subs: seq<SubPart>, current: WindowId, newWindow: WindowId): (r: (bool, seq<SubPart>))
    decreases subs
  {
    if |subs| == 0 then (false, [])
    else
      match subs[0]
      case WindowLeaf(id) =>
        if id == current then (true, [subs[0], WindowLeaf(newWindow)] + subs[1..])
        else
          var rest := InsertNew(subs[1..], current, newWindow);
          (rest.0, [subs[0]] + rest.1)
      case Part(d, g, children) =>
        var inner := InsertNew(children, current, newWindow);
        if inner.0 then (true, [Part(d, g, inner.1)] + subs[1..])
        else
          var rest := InsertNew(subs[1..], current, newWindow);
          (rest.0, [subs[0]] + rest.1)
  }

  /**
   * The new window is placed exactly when the current one is listed, and
   * then appears right after it, as insertAfter puts it in the window list;
   * otherwise nothing changes.
   */
  predicate InsertNewFollows(subs: seq<SubPart>, current: WindowId, newWindow: WindowId)
  {
    var r := InsertNew(subs, current, newWindow);
    (r.0 <==> current in LeavesOf(subs))
    && (r.0 ==> LeavesOf(r.1) == InsertedAfter(LeavesOf(subs), current, newWindow))
    && (!r.0 ==> r.1 == subs)
  }

  /** The tree follows the window list when a window is inserted after the current one. */
  lemma {:induction false} InsertNewFollowsWindowList(subs: seq<SubPart>, current: WindowId, newWindow: WindowId)
    ensures InsertNewFollows(subs, current, newWindow)
    decreases subs
  {
    if |subs| > 0 {
      InsertNewFollowsWindowList(subs[1..], current, newWindow);
      match subs[0]
      case WindowLeaf(id) =>
        if id == current {
          InsertNewAtLeaf(subs, current, newWindow);
        } else {
          InsertNewPastLeaf(subs, current, newWindow);
        }
      case Part(d, g, children) =>
        InsertNewFollowsWindowList(children, current, newWindow);
        InsertNewThroughPart(subs, current, newWindow);
    }
  }

  lemma InsertNewAtLeaf(subs: seq<SubPart>, current: WindowId, newWindow: WindowId)
    requires |subs| > 0 && subs[0] == WindowLeaf(current)
    ensures InsertNewFollows(subs, current, newWindow)
  {
    var tail := LeavesOf(subs[1..]);
    LeavesOfCons(subs[0], subs[1..]);
    assert LeavesOf(subs) == [current] + tail;
    LeavesOfCons(subs[0], [WindowLeaf(newWindow)] + subs[1..]);
    LeavesOfCons(WindowLeaf(newWindow), subs[1..]);
    InsertedAfterHead(current, tail, newWindow);
  }

  lemma InsertNewPastLeaf(subs: seq<SubPart>, current: WindowId, newWindow: WindowId)
    requires |subs| > 0 && subs[0].WindowLeaf? && subs[0].id != current
    requires InsertNewFollows(subs[1..], current, newWindow)
    ensures InsertNewFollows(subs, current, newWindow)
  {
    var id := subs[0].id;
    var tail := LeavesOf(subs[1..]);
    LeavesOfCons(subs[0], subs[1..]);
    assert LeavesOf(subs) == [id] + tail;
    var rest := InsertNew(subs[1..], current, newWindow);
    assert InsertNew(subs, current, newWindow) == (rest.0, [subs[0]] + rest.1);
    LeavesOfCons(subs[0], rest.1);
    if rest.0 {
      InsertedAfterRight([id], tail, current, newWindow);
    } else {
      assert [subs[0]] + subs[1..] == subs;
    }
  }

  lemma InsertNewThroughPart(subs: seq<SubPart>, current: WindowId, newWindow: WindowId)
    requires |subs| > 0 && subs[0].Part?
    requires InsertNewFollows(subs[0].subParts, current, newWindow)
    requires InsertNewFollows(subs[1..], current, newWindow)
    ensures InsertNewFollows(subs, current, newWindow)
  {
    var d, g, children := subs[0].direction, subs[0].gap, subs[0].subParts;
    var inner := InsertNew(children, current, newWindow);
    var head, tail := LeavesOf(children), LeavesOf(subs[1..]);
    LeavesOfCons(subs[0], subs[1..]);
    assert LeavesOf(subs) == head + tail;
    if inner.0 {
      assert InsertNew(subs, current, newWindow) == (true, [Part(d, g, inner.1)] + subs[1..]);
      LeavesOfCons(Part(d, g, inner.1), subs[1..]);
      InsertedAfterLeft(head, tail, current, newWindow);
    } else {
      var rest := InsertNew(subs[1..], current, newWindow);
      assert InsertNew(subs, current, newWindow) == (rest.0, [subs[0]] + rest.1);
      LeavesOfCons(subs[0], rest.1);
      if rest.0 {
        InsertedAfterRight(head, tail, current, newWindow);
      } else {
        assert [subs[0]] + subs[1..] == subs;
      }
    }
  }

  /** Inserting after the first window of a list puts the new one second. */
  lemma InsertedAfterHead(x: WindowId, t: seq<WindowId>, w: WindowId)
    ensures InsertedAfter([x] + t, x, w) == [x] + ([w] + t)
  {
    assert IndexOf([x] + t, x) == 0;
    assert ([x] + t)[..1] == [x] && ([x] + t)[1..] == t;
  }

  /** Inserting after a window of the first half of a list leaves the second half alone. */
  lemma InsertedAfterLeft(a: seq<WindowId>, b: seq<WindowId>, x: WindowId, w: WindowId)
    requires x in a
    ensures InsertedAfter(a + b, x, w) == InsertedAfter(a, x, w) + b
  {
    IndexOfPrefix(a, b, x);
    var i := IndexOf(a, x);
    assert (a + b)[..i + 1] == a[..i + 1];
    assert (a + b)[i + 1..] == a[i + 1..] + b;
  }

  /** Inserting after a window found only in the second half of a list leaves the first half alone. */
  lemma InsertedAfterRight(a: seq<WindowId>, b: seq<WindowId>, x: WindowId, w: WindowId)
    requires x !in a && x in b
    ensures InsertedAfter(a + b, x, w) == a + InsertedAfter(b, x, w)
  {
    IndexOfSuffix(a, b, x);
    var i := IndexOf(b, x);
    var k := |a| + i + 1;
    var ab := a + b;
    assert IndexOf(ab, x) + 1 == k <= |ab|;
    InsertAtInside(ab, k, w);
    InsertAtInside(b, i + 1, w);
    SplitAfterPrefix(a, b, i + 1);
    calc {
      InsertedAfter(ab, x, w);
      ab[..k] + [w] + ab[k..];
      (a + b[..i + 1]) + [w] + b[i + 1..];
      { AppendAssoc3(a, b[..i + 1], [w], b[i + 1..]); }
      a + (b[..i + 1] + [w] + b[i + 1..]);
      a + InsertedAfter(b, x, w);
    }
  }

  lemma InsertAtInside(s: seq<WindowId>, k: nat, w: WindowId)
    requires k <= |s|
    ensures InsertAt(s, k, w) == s[..k] + [w] + s[k..]
  {
  }

  /** Cutting a + b after j elements of b. */
  lemma SplitAfterPrefix(a: seq<WindowId>, b: seq<WindowId>, j: nat)
    requires j <= |b|
    ensures (a + b)[..|a| + j] == a + b[..j] && (a + b)[|a| + j..] == b[j..]
  {
  }

  lemma AppendAssoc3(a: seq<WindowId>, b: seq<WindowId>, c: seq<WindowId>, d: seq<WindowId>)
    ensures (a + b) + c + d == a + (b + c + d)
  {
  }

  lemma IndexOfPrefix(a: seq<WindowId>, b: seq<WindowId>, x: WindowId)
    requires x in a
    ensures IndexOf(a + b, x) == IndexOf(a, x)
  {
    var i := IndexOf(a, x);
    assert (a + b)[i] == x;
    assert forall j :: 0 <= j < i ==> (a + b)[j] == a[j];
  }

  lemma IndexOfSuffix(a: seq<WindowId>, b: seq<WindowId>, x: WindowId)
    requires x !in a && x in b
    ensures IndexOf(a + b, x) == |a| + IndexOf(b, x)
  {
    var i := IndexOf(b, x);
    assert (a + b)[|a| + i] == x;
    assert forall j :: 0 <= j < |a| ==> (a + b)[j] == a[j];
    assert forall j :: |a| <= j < |a| + i ==> (a + b)[j] == b[j - |a|];
  }

  // ---------------------------------------------------------------------------
  // apply

  /** Weight 1.0 for each of n sub-parts. */
  function Ones(n: nat): (w: seq<real>)
    ensures |w| == n && Sum(w) == n as real
  {
    if n == 0 then [] else
      var w := Ones(n - 1) + [1.0];
      assert w[..n - 1] == Ones(n - 1);
      w
  }

  /** The areas of a part's sub-parts: the part's area split equally along its direction, with its gap. */
  function PartAreas(area: Rect, p: SubPart): (r: seq<Rect>)
    requires p.Part?
    ensures |r| == |p.subParts|
  {
    SplitAreaWeighted(area, Ones(|p.subParts|), p.gap, p.direction == Horizontal)
  }

  /** The rectangles of the windows under a part, depth first. */
  function ApplyPart(area: Rect, p: SubPart): (r: seq<Rect>)
    requires p.Part?
    ensures |r| == |Leaves(p)|
    decreases p, 1
  {
    ApplyEach(PartAreas(area, p), p.subParts)
  }

  /** The rectangles of the windows under a sub-part placed on `area`: a window gets the whole area. */
  function ApplySub(area: Rect, s: SubPart): (r: seq<Rect>)
    ensures |r| == |Leaves(s)|
    decreases s, 2
  {
    match s
    case WindowLeaf(_) => [area]
    case Part(_, _, _) => ApplyPart(area, s)
  }

  /** Each sub-part placed on its own area, their rectangles concatenated in order. */
  function ApplyEach(areas: seq<Rect>, subs: seq<SubPart>): (r: seq<Rect>)
    requires |areas| == |subs|
    ensures |r| == |LeavesOf(subs)|
    decreases subs, 0
  {
    if |subs| == 0 then []
    else ApplySub(areas[0], subs[0]) + ApplyEach(areas[1..], subs[1..])
  }

  /**
   * Depth-first placement: the windows of sub-part k, which follow those of
   * the sub-parts before it, get exactly the rectangles of sub-part k placed
   * on area k.
   */
  lemma {:induction false} ApplyEachPlaces(areas: seq<Rect>, subs: seq<SubPart>, k: nat)
    requires |areas| == |subs| && k < |subs|
    ensures |LeavesOf(subs[..k])| + |Leaves(subs[k])| <= |ApplyEach(areas, subs)|
    ensures var start := |LeavesOf(subs[..k])|;
      ApplyEach(areas, subs)[start..start + |Leaves(subs[k])|] == ApplySub(areas[k], subs[k])
    decreases k
  {
    if k == 0 {
      ApplyEachFirst(areas, subs);
    } else {
      ApplyEachPlaces(areas[1..], subs[1..], k - 1);
      ApplyEachShift(areas, subs, k);
    }
  }

  lemma ApplyEachFirst(areas: seq<Rect>, subs: seq<SubPart>)
    requires |areas| == |subs| > 0
    ensures |LeavesOf(subs[..0])| == 0 && |Leaves(subs[0])| <= |ApplyEach(areas, subs)|
    ensures ApplyEach(areas, subs)[0..|Leaves(subs[0])|] == ApplySub(areas[0], subs[0])
  {
    assert subs[..0] == [];
    var head := ApplySub(areas[0], subs[0]);
    var rest := ApplyEach(areas[1..], subs[1..]);
    assert ApplyEach(areas, subs) == head + rest;
    assert (head + rest)[0..|head|] == head;
  }

  /** The placement of sub-part k carries over from the sub-parts after the first. */
  lemma ApplyEachShift(areas: seq<Rect>, subs: seq<SubPart>, k: nat)
    requires |areas| == |subs| && 0 < k < |subs|
    requires var start' := |LeavesOf(subs[1..][..k - 1])|;
      start' + |Leaves(subs[k])| <= |ApplyEach(areas[1..], subs[1..])|
      && ApplyEach(areas[1..], subs[1..])[start'..start' + |Leaves(subs[k])|] == ApplySub(areas[k], subs[k])
    ensures |LeavesOf(subs[..k])| + |Leaves(subs[k])| <= |ApplyEach(areas, subs)|
    ensures var start := |LeavesOf(subs[..k])|;
      ApplyEach(areas, subs)[start..start + |Leaves(subs[k])|] == ApplySub(areas[k], subs[k])
  {
    var head := ApplySub(areas[0], subs[0]);
    var rest := ApplyEach(areas[1..], subs[1..]);
    ApplyEachCons(areas, subs);
    var start' := |LeavesOf(subs[1..][..k - 1])|;
    LeavesOfPrefix(subs, k);
    assert |LeavesOf(subs[..k])| == |head| + start';
    SliceAfter(ApplyEach(areas, subs), head, rest, start', |Leaves(subs[k])|, ApplySub(areas[k], subs[k]));
  }

  lemma ApplyEachCons(areas: seq<Rect>, subs: seq<SubPart>)
    requires |areas| == |subs| > 0
    ensures ApplyEach(areas, subs) == ApplySub(areas[0], subs[0]) + ApplyEach(areas[1..], subs[1..])
  {
  }

  lemma LeavesOfPrefix(subs: seq<SubPart>, k: nat)
    requires 0 < k <= |subs|
    ensures LeavesOf(subs[..k]) == Leaves(subs[0]) + LeavesOf(subs[1..][..k - 1])
  {
    assert subs[..k] == [subs[0]] + subs[1..][..k - 1];
    LeavesOfCons(subs[0], subs[1..][..k - 1]);
  }

  /** A run found in the tail of a sequence is found in the whole, shifted by the head. */
  lemma SliceAfter<T>(whole: seq<T>, head: seq<T>, rest: seq<T>, start: nat, len: nat, run: seq<T>)
    requires whole == head + rest && start + len <= |rest| && rest[start..start + len] == run
    ensures |head| + start + len <= |whole| && whole[|head| + start..|head| + start + len] == run
  {
    assert forall i :: |head| + start <= i < |head| + start + len ==> whole[i] == rest[i - |head|];
  }

  /**
   * The windows of sub-part k of a part placed on `area` get the rectangles
   * of that sub-part placed on the k-th of the part's equal areas, starting
   * after the windows of the sub-parts before it.
   */
  lemma ApplyPartPlaces(area: Rect, p: SubPart, k: nat)
    requires p.Part? && k < |p.subParts|
    ensures var start := |LeavesOf(p.subParts[..k])|;
      start + |Leaves(p.subParts[k])| <= |ApplyPart(area, p)|
      && ApplyPart(area, p)[start..start + |Leaves(p.subParts[k])|] == ApplySub(PartAreas(area, p)[k], p.subParts[k])
  {
    ApplyEachPlaces(PartAreas(area, p), p.subParts, k);
  }

  /** In a part made only of windows, window k gets the k-th of the equal parts of the area. */
  lemma ApplyFlatPart(area: Rect, p: SubPart)
    requires p.Part? && forall j :: 0 <= j < |p.subParts| ==> p.subParts[j].WindowLeaf?
    ensures ApplyPart(area, p) == PartAreas(area, p)
  {
    FlatApply(PartAreas(area, p), p.subParts);
  }

  lemma {:induction false} FlatApply(areas: seq<Rect>, subs: seq<SubPart>)
    requires |areas| == |subs| && forall j :: 0 <= j < |subs| ==> subs[j].WindowLeaf?
    ensures ApplyEach(areas, subs) == areas
    decreases subs
  {
    if |subs| > 0 {
      FlatApply(areas[1..], subs[1..]);
      assert [areas[0]] + areas[1..] == areas;
    }
  }

  // ---------------------------------------------------------------------------
  // The layout object

  class DynamicLayout {
    const config: Config
    var parts: SubPart

    predicate Valid()
      reads this
    {
      parts.Part?
    }

    /** An empty horizontal part with the configured gap. */
    constructor (config: Config)
      ensures Valid() && this.config == config && parts == Part(Horizontal, config.tileLayoutGap, [])
    {
      this.config := config;
      parts := Part(Horizontal, config.tileLayoutGap, []);
    }

    /** Places a window that was just inserted after the current one in the window list. */
    method HandleNewWindow(current: EngineWindow, newWindow: EngineWindow)
      requires Valid()
      modifies this
      ensures Valid()
      ensures parts == Part(old(parts).direction, old(parts).gap, InsertNew(old(parts).subParts, current.id, newWindow.id).1)
    {
      var r := InsertNew(parts.subParts, current.id, newWindow.id);
      parts := Part(parts.direction, parts.gap, r.1);
    }

    /**
     * Tiles every tileable, brings the tree in line with them and gives
     * each the rectangle of its leaf.
     */
    method Apply(tileables: seq<EngineWindow>, area: Rect)
      requires Valid() && DistinctWindows(tileables)
      modifies this, set w | w in tileables
      ensures Valid()
      ensures parts == Prepare(old(parts), IdsOf(tileables))
      ensures Leaves(parts) == IdsOf(tileables)
      ensures forall i :: 0 <= i < |tileables| ==>
        AskedFor(tileables[i], Tiled) && tileables[i].geometry == ApplyPart(area, parts)[i]
    {
      SetStates(tileables, Tiled);
      parts := Prepare(parts, IdsOf(tileables));
      PrepareListsTiles(old(parts), IdsOf(tileables));
      var rects := ApplyPart(area, parts);
      SetGeometries(tileables, rects);
    }

    /**
     * The split actions split the current window's place (nothing happens
     * without a current window); any other action is left to the engine
     * (handled is false).
     */
    method ExecuteAction(action: Action, current: Option<WindowId>) returns (handled: bool)
      requires Valid()
      modifies this
      ensures Valid()
      ensures handled <==> action.SplitPartHorizontally? || action.SplitPartVertically?
      ensures handled && current.Some? ==>
        parts == Split(old(parts), if action.SplitPartHorizontally? then Horizontal else Vertical, current.value).1
      ensures !handled || current.None? ==> parts == old(parts)
      ensures Leaves(parts) == Leaves(old(parts))
    {
      handled := action.SplitPartHorizontally? || action.SplitPartVertically?;
      if handled && current.Some? {
        var direction := if action.SplitPartHorizontally? then Horizontal else Vertical;
        SplitKeepsLeaves(parts.subParts, |parts.subParts|, direction, current.value);
        parts := Split(parts, direction, current.value).1;
      }
    }
  }

  /** The ids of the windows, in order. */
  function IdsOf(ws: seq<EngineWindow>): (r: seq<WindowId>)
    ensures |r| == |ws| && forall i :: 0 <= i < |ws| ==> r[i] == ws[i].id
  {
    seq(|ws|, i requires 0 <= i < |ws| => ws[i].id)
  }
}
