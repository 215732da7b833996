// Which layout each surface uses (src/kwinscript/engine/layout_store.ts).
//
// Every surface has an entry that remembers its current and previous layout
// and where the current one sits in the configured layout order. Layout
// objects are created on first use, one per layout id and entry, and reused
// afterwards. Ignored surfaces always use the shared floating layout.

module LayoutStore {
  import opened Types
  import opened Func

  /** A layout object created by the factory registered for `id`. */
  class LayoutHandle {
    const id: LayoutId

    constructor (id: LayoutId)
      ensures this.id == id
    {
      this.id := id;
    }
  }

  /** The configuration an entry can work with: a non-empty order whose ids all have factories. */
  predicate UsableConfig(config: Config)
  {
    |config.layoutOrder| > 0 && forall i :: 0 <= i < |config.layoutOrder| ==> config.layoutOrder[i] in config.layoutFactories
  }

  /** The index cycleLayout moves to: one step on, wrapping around, or the first layout when the current one is off the order. */
  function CycleIndex(index: Option<nat>, n: nat, step: Step): (r: nat)
    requires n > 0 && (index.Some? ==> index.value < n)
    ensures r < n
    ensures index.None? ==> r == 0
    ensures index.Some? ==> r == (index.value + step) % n
  {
    if index.Some? then WrapIndex(index.value + step, n) else 0
  }

  /** Cycling forward then backward returns to the same index. */
  lemma CycleBackAndForth(index: nat, n: nat)
    requires index < n
    ensures CycleIndex(Some(CycleIndex(Some(index), n, 1)), n, -1) == index
    ensures CycleIndex(Some(CycleIndex(Some(index), n, -1)), n, 1) == index
  {
  }

  /**
   * toggleLayout's new (current, previous): toggling the current layout
   * swaps current and previous; any other target becomes current, with the
   * old current as previous.
   */
  function ToggleState(current: LayoutId, previous: LayoutId, target: LayoutId): (r: (LayoutId, LayoutId))
    ensures current == target ==> r == (previous, target)
    ensures current != target ==> r == (target, current)
    ensures r.0 == target || r.1 == target
  {
    if current == target then (previous, target) else (target, current)
  }

  /**
   * Toggling the same target twice gives back the current layout; the
   * previous layout is then the target, which restores the whole state when
   * the target was current to begin with.
   */
  lemma ToggleTwice(current: LayoutId, previous: LayoutId, target: LayoutId)
    ensures var once := ToggleState(current, previous, target);
      var twice := ToggleState(once.0, once.1, target);
      twice.0 == current
      && (current != target ==> twice.1 == target)
      && (current == target ==> twice == (current, previous))
  {
  }

  /** The position of a layout in the order, or nothing when it is not in it. */
  function IndexIn(order: seq<LayoutId>, id: LayoutId): (r: Option<nat>)
    ensures r.None? <==> id !in order
    ensures r.Some? ==> (r.value < |order| && order[r.value] == id
                         && forall j :: 0 <= j < r.value ==> order[j] != id)
  {
    var idx := IndexOf(order, id);
    if idx == -1 then None else Some(idx)
  }

  class LayoutStoreEntry {
    const config: Config
    var currentIndex: Option<nat>
    var currentID: LayoutId
    var previousID: LayoutId
    var layouts: map<LayoutId, LayoutHandle>

    /**
     * The index, when known, points at the current layout in the order, and
     * is unknown only when the current layout is not in the order; the
     * current and previous layouts are loaded; every loaded layout was made
     * by its own id's factory.
     */
    predicate Valid()
      reads this
    {
      UsableConfig(config)
      && (currentIndex.Some? ==> currentIndex.value < |config.layoutOrder| && config.layoutOrder[currentIndex.value] == currentID)
      && (currentIndex.None? ==> currentID !in config.layoutOrder)
      && currentID in layouts && previousID in layouts
      && forall id :: id in layouts ==> id in config.layoutFactories && layouts[id].id == id
    }

    /** A new entry: the first layout of the order is current and previous, and is loaded. */
    constructor (config: Config)
      requires UsableConfig(config)
      ensures Valid() && this.config == config
      ensures currentIndex == Some(0) && currentID == config.layoutOrder[0] && previousID == currentID
      ensures layouts.Keys == {currentID}
    {
      this.config := config;
      currentIndex := Some(0);
      currentID := config.layoutOrder[0];
      previousID := config.layoutOrder[0];
      var layout := new LayoutHandle(config.layoutOrder[0]);
      layouts := map[config.layoutOrder[0] := layout];
    }

    function CurrentLayout(): (r: LayoutHandle)
      reads this
      requires Valid()
      ensures r.id == currentID
    {
      layouts[currentID]
    }

    /**
     * The layout for `id`: the one made before, or a new one from the id's
     * factory, which is kept for next time.
     */
    method LoadLayout(id: LayoutId) returns (layout: LayoutHandle)
      requires Valid() && id in config.layoutFactories
      modifies this
      ensures Valid() && layout.id == id
      ensures id in old(layouts) ==> layout == old(layouts)[id] && layouts == old(layouts)
      ensures id !in old(layouts) ==> fresh(layout) && layouts == old(layouts)[id := layout]
      ensures currentIndex == old(currentIndex) && currentID == old(currentID) && previousID == old(previousID)
    {
      if id in layouts {
        return layouts[id];
      }
      layout := new LayoutHandle(id);
      layouts := layouts[id := layout];
    }

    /**
     * Moves one step through the layout order (to the first layout when the
     * current one is not in it); the old current layout becomes the previous.
     */
    method CycleLayout(step: Step) returns (layout: LayoutHandle)
      requires Valid()
      modifies this
      ensures Valid()
      ensures previousID == old(currentID)
      ensures currentIndex == Some(CycleIndex(old(currentIndex), |config.layoutOrder|, step))
      ensures currentID == config.layoutOrder[currentIndex.value]
      ensures layout == layouts[currentID]
      ensures forall id :: id in old(layouts) ==> id in layouts && layouts[id] == old(layouts)[id]
    {
      var n := |config.layoutOrder|;
      var idx := if currentIndex.Some? then WrapIndex(currentIndex.value + step, n) else 0;
      layout := LoadLayout(config.layoutOrder[idx]);
      previousID := currentID;
      currentIndex := Some(idx);
      currentID := config.layoutOrder[idx];
    }

    /**
     * Switches to `targetID`, or back to the previous layout when the target
     * is already current; returns the target's layout either way.
     */
    method ToggleLayout(targetID: LayoutId) returns (layout: LayoutHandle)
      requires Valid() && targetID in config.layoutFactories
      modifies this
      ensures Valid()
      ensures (currentID, previousID) == ToggleState(old(currentID), old(previousID), targetID)
      ensures currentIndex == IndexIn(config.layoutOrder, currentID)
      ensures layout == layouts[targetID]
      ensures forall id :: id in old(layouts) ==> id in layouts && layouts[id] == old(layouts)[id]
    {
      layout := LoadLayout(targetID);
      if currentID == targetID {
        currentID := previousID;
        previousID := targetID;
      } else {
        previousID := currentID;
        currentID := targetID;
      }
      currentIndex := IndexIn(config.layoutOrder, currentID);
    }
  }

  /** What a surface is laid out with: the shared floating layout, or a layout of its entry. */
  datatype LayoutRef = FloatingInstance | Loaded(layout: LayoutHandle)

  class LayoutStore {
    const config: Config
    var store: map<SurfaceId, LayoutStoreEntry>

    /** Every entry is usable with the store's config, and no two surfaces share an entry. */
    predicate Valid()
      reads this, store.Values
    {
      UsableConfig(config)
      && (forall key :: key in store ==> store[key].Valid() && store[key].config == config)
      && forall k1, k2 :: k1 in store && k2 in store && k1 != k2 ==> store[k1] != store[k2]
    }

    constructor (config: Config)
      requires UsableConfig(config)
      ensures Valid() && this.config == config && store == map[]
    {
      this.config := config;
      store := map[];
    }

    /** The surface's entry, created on first use. */
    method GetEntry(key: SurfaceId) returns (entry: LayoutStoreEntry)
      requires Valid()
      modifies this
      ensures Valid() && key in store && entry == store[key]
      ensures key in old(store) ==> store == old(store) && entry == old(store)[key]
      ensures key !in old(store) ==> fresh(entry) && store == old(store)[key := entry]
      ensures key !in old(store) ==>
        entry.currentIndex == Some(0) && entry.currentID == config.layoutOrder[0] && entry.previousID == entry.currentID
        && entry.layouts.Keys == {entry.currentID}
    {
      if key in store {
        return store[key];
      }
      entry := new LayoutStoreEntry(config);
      store := store[key := entry];
    }

    /**
     * The layout to use on a surface: the floating layout when it is ignored;
     * otherwise the current layout of its entry, which is created on first
     * use. No entry's state changes.
     */
    method GetCurrentLayout(surface: SurfaceId, ignore: bool) returns (r: LayoutRef)
      requires Valid()
      modifies this
      ensures Valid()
      ensures ignore ==> r == FloatingInstance && store == old(store)
      ensures !ignore ==> surface in store && r == Loaded(store[surface].CurrentLayout())
      ensures !ignore && surface in old(store) ==> store == old(store)
      ensures !ignore && surface !in old(store) ==>
        fresh(store[surface]) && store == old(store)[surface := store[surface]]
        && store[surface].currentID == config.layoutOrder[0]
    {
      if ignore {
        return FloatingInstance;
      }
      var entry := GetEntry(surface);
      r := Loaded(entry.CurrentLayout());
    }

    /**
     * Cycles the surface's layout; nothing happens, and nothing is returned,
     * on an ignored surface. Otherwise the surface's entry (created on first
     * use, with the first layout of the order current) moves one step
     * through the order, and every other surface's entry is left as it was.
     */
    method CycleLayout(surface: SurfaceId, ignore: bool, step: Step) returns (r: Option<LayoutHandle>)
      requires Valid()
      modifies this, if surface in store then {store[surface]} else {}
      ensures Valid()
      ensures ignore ==> r == None && store == old(store)
      ensures !ignore ==> surface in store && r == Some(store[surface].CurrentLayout())
      ensures !ignore ==> store.Keys == old(store.Keys) + {surface}
      ensures !ignore ==> forall k :: k in old(store) && k != surface ==> store[k] == old(store)[k] && unchanged(store[k])
      ensures !ignore && surface in old(store) ==>
        store[surface] == old(store[surface])
        && store[surface].previousID == old(store[surface].currentID)
        && store[surface].currentIndex == Some(CycleIndex(old(store[surface].currentIndex), |config.layoutOrder|, step))
      ensures !ignore && surface !in old(store) ==>
        fresh(store[surface])
        && store[surface].previousID == config.layoutOrder[0]
        && store[surface].currentIndex == Some(CycleIndex(Some(0), |config.layoutOrder|, step))
      ensures !ignore ==> store[surface].currentID == config.layoutOrder[store[surface].currentIndex.value]
    {
      if ignore {
        return None;
      }
      var entry := GetEntry(surface);
      var layout := entry.CycleLayout(step);
      r := Some(layout);
    }

    /**
     * Toggles the surface's layout; nothing happens, and nothing is
     * returned, on an ignored surface. Otherwise the surface's entry
     * (created on first use) switches as ToggleState says, and every other
     * surface's entry is left as it was.
     */
    method ToggleLayout(surface: SurfaceId, ignore: bool, layoutClassID: LayoutId) returns (r: Option<LayoutHandle>)
      requires Valid() && layoutClassID in config.layoutFactories
      modifies this, if surface in store then {store[surface]} else {}
      ensures Valid()
      ensures ignore ==> r == None && store == old(store)
      ensures !ignore ==>
        surface in store && layoutClassID in store[surface].layouts
        && r == Some(store[surface].layouts[layoutClassID]) && r.value.id == layoutClassID
      ensures !ignore ==> store.Keys == old(store.Keys) + {surface}
      ensures !ignore ==> forall k :: k in old(store) && k != surface ==> store[k] == old(store)[k] && unchanged(store[k])
      ensures !ignore && surface in old(store) ==>
        store[surface] == old(store[surface])
        && (store[surface].currentID, store[surface].previousID)
           == ToggleState(old(store[surface].currentID), old(store[surface].previousID), layoutClassID)
      ensures !ignore && surface !in old(store) ==>
        fresh(store[surface])
        && (store[surface].currentID, store[surface].previousID)
           == ToggleState(config.layoutOrder[0], config.layoutOrder[0], layoutClassID)
      ensures !ignore ==> store[surface].currentIndex == IndexIn(config.layoutOrder, store[surface].currentID)
    {
      if ignore {
        return None;
      }
      var entry := GetEntry(surface);
      var layout := entry.ToggleLayout(layoutClassID);
      r := Some(layout);
    }
  }
}
