// Shared vocabulary of the Bismuth tiling engine: identifiers, an optional
// value, and the read-only part of the user configuration that the engine
// and its layouts consult.

module Types {

  /** A window as the engine refers to it (the id of its host window). */
  type WindowId = nat

  /**
   * A surface is a (screen, activity, virtual desktop) triple. The engine
   * keys it by a string id and only ever compares ids, so the model numbers
   * them instead.
   */
  type SurfaceId = int

  /**
   * Identifier of a layout kind, such as the class ids "TileLayout" or
   * "ThreeColumnLayout". Like surface ids these are only compared, and the
   * model numbers them.
   */
  type LayoutId = int

  datatype Option<T> = None | Some(value: T)

  /** One step forward (1) or back (-1) through an ordered list. */
  type Step = s: int | s == -1 || s == 1 witness 1

  /** The user actions a layout may handle itself; any other action is handled by the engine. */
  datatype Action =
    | IncreaseMasterAreaWindowCount
    | DecreaseMasterAreaWindowCount
    | IncreaseLayoutMasterAreaSize
    | DecreaseLayoutMasterAreaSize
    | SplitPartHorizontally
    | SplitPartVertically
    | OtherAction

  /**
   * The configuration values the modelled core reads. It is loaded once by the
   * host and never written by the engine.
   */
  datatype Config = Config(
    tileLayoutGap: int,
    layoutOrder: seq<LayoutId>,
    layoutFactories: set<LayoutId>,
    newWindowAsMaster: bool,
    keepFloatAbove: bool,
    noTileBorder: bool
  )
}
