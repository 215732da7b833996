# Bismuth tiling engine, modelled in Dafny

Bismuth tiles the windows of the KDE Plasma window manager, KWin. This
project models the engine at its centre.

**TypeScript engine.** The engine keeps an ordered list of windows. Its head
is the master window. Each window is tiled, floating, maximized, fullscreen
or undecided. For every surface (a desktop, screen and activity) a layout
store remembers which layout is in use. On every arrangement the layout
turns the tileable windows into rectangles inside the working area. The
layouts are:

- built from nested parts (stack, half-split, rotate, fill);
- three-column;
- quarter;
- cascade;
- stair;
- dynamic, a tree that grows as windows arrive.

Resizing a tile moves the boundaries between parts. The layouts then turn
those boundaries back into weights. Focus and swap commands move through
the window list, or towards the nearest window in a direction.

**C++ engine.** The newer engine has its own versions of three things:

- windows: visibility on a surface, the surfaces a window is on, and identity;
- a window-group tree;
- two layout pieces, stack and half-split.

**How the model is built.** There is one module per source file:

| source | Dafny file |
|---|---|
| `util/func.ts` | func.dfy |
| `util/rect.ts` | rect.dfy |
| `layout/layout_utils.ts` | layout_utils.dfy |
| `layout/layout_part.ts` | layout_part.dfy |
| `window.ts` | window.dfy |
| `window_store.ts` | window_store.dfy |
| `layout_store.ts` | layout_store.dfy |
| `engine/index.ts` | engine.dfy |
| the five layout files | one file each |
| `window.cpp` | core_window.dfy |
| `window-group.cpp` | window_group.dfy |
| `layout/utils.cpp` | core_split.dfy |
| `piece/*.cpp` | pieces.dfy |
| shared types | types.dfy |

- Objects whose fields the source updates in place are classes. These are
  the window store, the layout store, the engine window, the engine, the
  layout objects and the C++ window.
- The recursive trees are datatype values. These are the layout parts, the
  dynamic layout's tree, the window group and the pieces.
- Coordinates are integers and weights are reals.

## Model

| member | source | states |
|---|---|---|
| Func.Clip | src/kwinscript/util/func.ts:10-18 | the result lies in [min, max] when min ≤ max, is the value itself when already inside, min below the range and max above it |
| Func.ClipInt | src/kwinscript/util/func.ts:10-18 | the same clip on whole numbers: in range, identity inside, the nearer end outside |
| Func.ClipIntIsClip | src/kwinscript/util/func.ts:10-18 | the integer clip agrees with the real clip on whole numbers |
| Func.SlideMoves | src/kwinscript/util/func.ts:23-28 | a zero step leaves the value unchanged; a positive step moves it strictly up by at most 1.000001 steps, a negative one strictly down by at most as much |
| Func.StringIndexOfFirst | src/kwinscript/util/func.ts:38 | String indexOf, as matchWords uses it: no occurrence of the word starts before the reported position, and none at all when it reports -1 |
| Func.StringIndexOfFinds | src/kwinscript/util/func.ts:38 | indexOf is non-negative exactly when the word occurs in the string |
| Func.MatchWords | src/kwinscript/util/func.ts:36-43 | returns -1 or an index of words; the word there occurs in the string and no earlier word does; -1 means no word occurs |
| Func.WrapIndex | src/kwinscript/util/func.ts:45-53 | for an index in [-length, 2·length) the result is in [0, length) and equals the index modulo length |
| Func.PartitionArray | src/kwinscript/util/func.ts:62-73 | the two parts together are as long as the array |
| Func.PartitionArrayKeepsOrder | src/kwinscript/util/func.ts:62-73 | the first part is exactly the accepted items and the second exactly the rejected ones, each in array order (reference definition Selected) |
| Func.PartitionArrayPermutes | src/kwinscript/util/func.ts:62-73 | the two parts together hold the array's items as a multiset: nothing lost or duplicated |
| Func.PartitionArrayBySizes | src/kwinscript/util/func.ts:86-96 | returns sizes.length + 1 chunks |
| Func.PartitionArrayBySizesFlatten | src/kwinscript/util/func.ts:86-96 | the chunks concatenated give the array back |
| Func.PartitionArrayBySizesAt | src/kwinscript/util/func.ts:88-92 | chunk i is the slice from the sum of the first i sizes to the sum of the first i+1 (clamped to the array) |
| Func.PartitionArrayBySizesRest | src/kwinscript/util/func.ts:93 | the extra last chunk is everything after the sum of all sizes |
| Func.Overlap | src/kwinscript/util/func.ts:105-115 | holds exactly when both ranges are non-empty and each starts before the other ends |
| Func.OverlapSymmetric | src/kwinscript/util/func.ts:105-115 | swapping the two ranges does not change the answer |
| Geometry.Rect.Equals | src/kwinscript/util/rect.ts:36-43 | component-wise equality holds exactly when the two rectangles are the same value (so it is reflexive) |
| Geometry.Rect.Gap | src/kwinscript/util/rect.ts:45-52 | the west edge moves by left, the north edge by top, the east edge back by right and the south edge back by bottom |
| Geometry.Rect.Subtract | src/kwinscript/util/rect.ts:80-87 | other plus the result is this rectangle, component by component (so r minus r is all zeros) |
| Geometry.GapComposes | src/kwinscript/util/rect.ts:45-52 | two gaps in a row equal one gap by the summed amounts |
| Geometry.IncludesIrreflexive | src/kwinscript/util/rect.ts:67-74 | because the east and south tests are strict, no rectangle includes itself |
| Geometry.IncludesTransitive | src/kwinscript/util/rect.ts:67-74 | inclusion is transitive |
| Geometry.IncludesCorners | src/kwinscript/util/rect.ts:67-78 | the corners of an included rectangle are points of the outer one (includesPoint is inclusive on every edge) |
| Geometry.CenterInside | src/kwinscript/util/rect.ts:25-30 | the rounded-down centre of a rectangle with non-negative sides lies inside it |
| Geometry.FromRects | src/kwinscript/util/rect.ts:104-112 | west and north are how far the basis's west and north edges moved out, east and south how far its east and south edges moved out |
| Geometry.FromRectsRoundTrip | src/kwinscript/util/rect.ts:104-112 | gapping the basis by the negated delta reproduces the target; fromRects(r, r) is all zeros |
| Geometry.RectBox.constructor | src/kwinscript/util/rect.ts:7-12 | the new object holds the given rectangle |
| Geometry.RectBox.GapMut | src/kwinscript/util/rect.ts:54-65 | the object now holds exactly what gap would have returned for its old value |
| LayoutUtils.PartAt | src/kwinscript/engine/layout/layout_utils.ts:25-33 | part i begins at begin + floor(A·acc_i/S) + i·gap and is floor(A·w_i/S) long, with A the length less n−1 gaps, S the weight sum and acc_i the sum of the weights before i |
| LayoutUtils.SplitWeighted | src/kwinscript/engine/layout/layout_utils.ts:17-35 | exactly one part per weight, in weight order |
| LayoutUtils.SplitStartsAtBegin | src/kwinscript/engine/layout/layout_utils.ts:28-33 | the first part starts where the line starts |
| LayoutUtils.SplitNoOverlap | src/kwinscript/engine/layout/layout_utils.ts:29-34 | each part ends at least `gap` before the next one begins |
| LayoutUtils.SplitTotal | src/kwinscript/engine/layout/layout_utils.ts:25-34 | the part lengths add up to at most A and lose less than one unit per part to rounding |
| LayoutUtils.SplitPrefixTotal | src/kwinscript/engine/layout/layout_utils.ts:28-34 | the first k part lengths add up to at most the floor of the first k weights' share, and to more than that share minus k |
| LayoutUtils.SplitEndsWithinLine | src/kwinscript/engine/layout/layout_utils.ts:25-34 | the last part ends no later than begin + length |
| LayoutUtils.TilesBegin | src/kwinscript/engine/layout/layout_utils.ts:29-34 | in gap-separated contiguous parts, part i begins after the first i lengths and i gaps |
| LayoutUtils.ProportionsPrefix | src/kwinscript/engine/layout/layout_utils.ts:209-212 | the first k proportions add up to the first k lengths over the total |
| LayoutUtils.CalculateWeights | src/kwinscript/engine/layout/layout_utils.ts:209-212 | one weight per part, and the weights sum to 1 when the total length is non-zero |
| LayoutUtils.CalculateWeightsAt | src/kwinscript/engine/layout/layout_utils.ts:211 | weight i is part i's length divided by the total length |
| LayoutUtils.CalculateThenSplit | src/kwinscript/engine/layout/layout_utils.ts:209-212 | splitting a line again by the weights of parts that tile it exactly gives back exactly those parts |
| LayoutUtils.BackwardStep | src/kwinscript/engine/layout/layout_utils.ts:110-123 | only the boundary between the target and its preceding neighbour moves; both keep length ≥ 1 when both started ≥ 1; every other part is unchanged |
| LayoutUtils.ForwardStep | src/kwinscript/engine/layout/layout_utils.ts:126-139 | only the boundary between the target and its following neighbour moves; both keep length ≥ 1 when both started ≥ 1; every other part is unchanged |
| LayoutUtils.AdjustParts | src/kwinscript/engine/layout/layout_utils.ts:106-139 | same number of parts; parts more than one away from the target are untouched |
| LayoutUtils.BoundaryMoveTotal | src/kwinscript/engine/layout/layout_utils.ts:121-138 | moving the boundary between two neighbours keeps the total length |
| LayoutUtils.BoundaryMoveContiguous | src/kwinscript/engine/layout/layout_utils.ts:121-138 | moving the boundary between two neighbours keeps the parts contiguous |
| LayoutUtils.AdjustPartsTotal | src/kwinscript/engine/layout/layout_utils.ts:106-139 | resizing keeps the total length of the parts |
| LayoutUtils.AdjustPartsKeepsTiling | src/kwinscript/engine/layout/layout_utils.ts:106-139 | parts that tile the line still tile it after resizing |
| LayoutUtils.AdjustPartsKeepsMinLength | src/kwinscript/engine/layout/layout_utils.ts:104-139 | no part drops below the minimum length 1 when none started below it |
| LayoutUtils.AdjustWeights | src/kwinscript/engine/layout/layout_utils.ts:95-142 | the corrected resize (first Findings row): new weights sum to 1, one per part, and parts more than one away from the target keep their share of the split |
| LayoutUtils.AdjustWeightsRoundTrip | src/kwinscript/engine/layout/layout_utils.ts:95-142 | splitting the line by the adjusted weights reproduces the resized parts, when the old weights tiled it exactly |
| LayoutUtils.AdjustPartsAsWritten | src/kwinscript/engine/layout/layout_utils.ts:106-139 | the resize as written, with the forward step reusing the target's begin and length read before the backward step; one part per input part |
| LayoutUtils.AdjustWeightsAsWritten | src/kwinscript/engine/layout/layout_utils.ts:95-142 | adjustWeights as written: weights of the as-written parts, summing to 1 |
| LayoutUtils.AdjustWeightsAsWrittenLosesLength | src/kwinscript/engine/layout/layout_utils.ts:107-137 | three 100 px parts, middle one pulled 10 each way: as written it ends 110 long at 100 and the total drops to 290, so the parts no longer tile the line; the corrected resize gives [0,90], [90,120], [210,90] |
| LayoutUtils.AdjustWeightsAsWrittenAgrees | src/kwinscript/engine/layout/layout_utils.ts:109-139 | the as-written and the corrected resize give the same parts and weights unless the target has a neighbour on each side and both deltas are non-zero |
| LayoutUtils.SplitAreaWeighted | src/kwinscript/engine/layout/layout_utils.ts:44-63 | one rect per weight; along the axis each is the split line's part, across it each keeps the area's position and size |
| LayoutUtils.SplitAreaHalfWeighted | src/kwinscript/engine/layout/layout_utils.ts:72-84 | yields two rects |
| LayoutUtils.HalfWeights | src/kwinscript/engine/layout/layout_utils.ts:80 | the weights [w, 1 − w], which sum to 1 |
| LayoutUtils.SplitAreaHalfWeightedParts | src/kwinscript/engine/layout/layout_utils.ts:72-84 | the first half starts at the area's start and is floor((L − gap)·w) long; the second starts at least a gap later and ends within the area; together they lose at most one unit |
| LayoutUtils.AdjustAreaWeights | src/kwinscript/engine/layout/layout_utils.ts:153-175 | the corrected resize on an area: weights sum to 1, and equal adjustWeights along x with east/west deltas when horizontal, along y with south/north otherwise |
| LayoutUtils.AdjustAreaHalfWeights | src/kwinscript/engine/layout/layout_utils.ts:186-204 | the new first weight of the two-way split; the second is one minus it |
| LayoutUtils.CalculateAreaWeights | src/kwinscript/engine/layout/layout_utils.ts:217-231 | one weight per geometry, summing to 1 |
| LayoutUtils.AlongAll | src/kwinscript/engine/layout/layout_utils.ts:227-229 | part i is geometry i's extent along the axis |
| LayoutUtils.CalculateAreaWeightsInvertsSplit | src/kwinscript/engine/layout/layout_utils.ts:217-231 | measuring an exact weighted split of an area gives weights that split the line into the same parts |
| LayoutPart.NewHalfSplit | src/kwinscript/engine/layout/layout_part.ts:67-72 | a new half-split has angle 0, gap 0, primary size 1 and ratio one half |
| LayoutPart.AngleFlags | src/kwinscript/engine/layout/layout_part.ts:59-65 | horizontal holds iff the angle is 0 or 180, reversed iff it is 180 or 270; the four angles are the four flag combinations |
| LayoutPart.Weights | src/kwinscript/engine/layout/layout_part.ts:211-214 | the tiles' weights in order; positive weights have a positive sum |
| LayoutPart.PositiveSum | src/kwinscript/engine/layout/layout_part.ts:212-213 | a non-empty list of positive weights has a positive sum, so the split never divides by zero |
| LayoutPart.Transpose | src/kwinscript/engine/layout/layout_part.ts:262-296 | the axes are swapped: x with y, width with height |
| LayoutPart.MirrorX | src/kwinscript/engine/layout/layout_part.ts:284-288 | the distance from the area's west edge becomes the distance from its east edge; y and the size are kept |
| LayoutPart.RotatedArea | src/kwinscript/engine/layout/layout_part.ts:263-274 | the inner area is the transposed area at 90 and 270, the area itself at 0 and 180 |
| LayoutPart.UnrotateQuarterBack | src/kwinscript/engine/layout/layout_part.ts:289-294 | at 270 a rectangle comes back as the 180 mirror, transposed |
| LayoutPart.MirrorXInvolution | src/kwinscript/engine/layout/layout_part.ts:284-288 | mirroring twice within the same area is the identity |
| LayoutPart.MirrorXInside | src/kwinscript/engine/layout/layout_part.ts:284-288 | a rectangle horizontally inside the area stays inside when mirrored |
| LayoutPart.Apply | src/kwinscript/engine/layout/layout_part.ts:34-296 | exactly one rectangle per tile, for every part whose stacks each get tiles with a non-zero weight sum (ApplyDefined) |
| LayoutPart.PositiveApplyDefined | src/kwinscript/engine/layout/layout_part.ts:211-214 | positive tile weights give every stack a non-zero weight sum, so apply is defined for every part |
| LayoutPart.FillApply | src/kwinscript/engine/layout/layout_part.ts:34-38 | fill returns the area once per tile |
| LayoutPart.HalfSplitApplyOnePart | src/kwinscript/engine/layout/layout_part.ts:144-149 | with no more tiles than primarySize the result is the primary's on the whole area; with primarySize 0 and more tiles it is the secondary's |
| LayoutPart.HalfSplitApplyBoth | src/kwinscript/engine/layout/layout_part.ts:150-169 | otherwise the first primarySize results are the primary's on its half and the rest the secondary's on the other; when reversed the ratio is 1 − ratio and the primary takes the second half |
| LayoutPart.StackApply | src/kwinscript/engine/layout/layout_part.ts:211-214 | tile i gets part i of the vertical weighted split, with the area's full width |
| LayoutPart.RotateApplyMirror | src/kwinscript/engine/layout/layout_part.ts:283-288 | at 180 each rectangle is the inner one mirrored in x, and mirroring it again gives the inner one back |
| LayoutPart.RotateApplyQuarter | src/kwinscript/engine/layout/layout_part.ts:262-296 | at 90 the inner part works on the transposed area and each rectangle is transposed back |
| LayoutPart.RotateBy | src/kwinscript/engine/layout/layout_part.ts:298-308 | the new angle is the old one plus the turn, modulo 360 (so it stays one of 0, 90, 180, 270) |
| LayoutPart.RotatePart | src/kwinscript/engine/layout/layout_part.ts:298-308 | rotate changes the angle and nothing else |
| LayoutPart.RotateCycles | src/kwinscript/engine/layout/layout_part.ts:298-308 | four equal quarter turns return to the start; opposite turns cancel; turning −90 from 0 gives 270 |
| LayoutPart.RotateDeltaOut | src/kwinscript/engine/layout/layout_part.ts:245-258 | the inner delta mapped back out of the rotated frame (corrected at 270); see RotateDeltaRoundTrip |
| LayoutPart.RotateDeltaOutAsWritten | src/kwinscript/engine/layout/layout_part.ts:245-258 | the mapping back out as written, which at 270 repeats the inward permutation; see RotateDeltaOutAsWrittenSwapsSides |
| LayoutPart.RotateDeltaRoundTrip | src/kwinscript/engine/layout/layout_part.ts:227-258 | mapping a delta into the frame and back out gives it back, at every angle, both ways round |
| LayoutPart.RotateDeltaOutAsWrittenSwapsSides | src/kwinscript/engine/layout/layout_part.ts:237-257 | as written, at 270 a growth to the east passed through a fill comes back as a growth to the west; at every other angle the as-written and corrected mappings agree |
| LayoutPart.RotateDeltaMatchesUnrotate | src/kwinscript/engine/layout/layout_part.ts:245-295 | growing a rectangle in the frame by a delta and mapping it out equals mapping it out and growing it by the mapped-out delta |
| LayoutPart.HalfSplitDeltaInnerEdge | src/kwinscript/engine/layout/layout_part.ts:125-139 | the half-split zeroes exactly the side of the adjusted half that faces the other half and passes the other three sides on |
| LayoutPart.Rescale | src/kwinscript/engine/layout/layout_part.ts:198-200 | same tiles in the same order; tile i's weight becomes new weight i times the number of tiles |
| LayoutPart.Adjust | src/kwinscript/engine/layout/layout_part.ts:24-260 | adjust never reorders, adds or drops tiles, and changes no angle, gap, size or part kind (only ratios and weights) |
| LayoutPart.HalfSplitAdjust | src/kwinscript/engine/layout/layout_part.ts:74-141 | a basis that is not among the tiles changes nothing and passes the delta on; tiles and shape are kept |
| LayoutPart.AdjustPrimaryHalf | src/kwinscript/engine/layout/layout_part.ts:95-139 | with the basis in the primary, only the primary's tiles and part change, and the delta is the primary's with its inner side zeroed |
| LayoutPart.AdjustSecondaryHalf | src/kwinscript/engine/layout/layout_part.ts:95-139 | with the basis in the secondary, only the secondary's tiles and part change, and the delta is the secondary's with its inner side zeroed |
| LayoutPart.HalfSplitFinish | src/kwinscript/engine/layout/layout_part.ts:113-139 | only the ratio of the half-split changes, and the delta passed up is the inner delta with the inner side zeroed |
| LayoutPart.AdjustedRatioIsShare | src/kwinscript/engine/layout/layout_part.ts:113-125 | the new ratio is the primary's weight in the resized two-way split (the second weight when reversed), and one minus it is the secondary's |
| LayoutPart.HalfSplitAdjustPrimaryRatio | src/kwinscript/engine/layout/layout_part.ts:95-125 | with the basis in the primary half, the new ratio is the resized share for target 0 and the delta the primary passed up |
| LayoutPart.HalfSplitAdjustSecondaryRatio | src/kwinscript/engine/layout/layout_part.ts:95-125 | with the basis in the secondary half, the new ratio is the resized share for target 1 and the delta the secondary passed up |
| LayoutPart.SameShapeReflexive | src/kwinscript/engine/layout/layout_part.ts:74-141 | every part has its own shape (the base case of the shape-preservation contract) |
| LayoutPart.FillAdjust | src/kwinscript/engine/layout/layout_part.ts:24-32 | fill changes nothing and returns the delta unchanged |
| LayoutPart.StackAdjustDelta | src/kwinscript/engine/layout/layout_part.ts:202-208 | east and west pass through; south passes only when the basis is the last tile and north only when it is the first |
| LayoutPart.StackAdjustWeights | src/kwinscript/engine/layout/layout_part.ts:189-200 | the stack's new weights add up to the number of tiles |
| LayoutPart.StackAdjustValues | src/kwinscript/engine/layout/layout_part.ts:183-201 | the stack keeps its gaps and each tile's new weight is the tile count times its vertical adjustAreaWeights share for the basis's index, computed with the configured gap |
| LayoutPart.RotateAdjust | src/kwinscript/engine/layout/layout_part.ts:220-259 | rotate adjusts its inner part on the rotated area with the delta mapped in, keeps its angle, and passes up the inner delta mapped back out |
| LayoutPart.RotateFillPassesDelta | src/kwinscript/engine/layout/layout_part.ts:220-259 | a rotated fill hands the delta back unchanged at every angle, whereas the as-written mapping at 270 changes it whenever east and west differ |
| LayoutPart.SumScaled | src/kwinscript/engine/layout/layout_part.ts:198-200 | scaling every weight by c scales their sum by c |
| LayoutPart.HalfSplitAdjustOtherHalf | src/kwinscript/engine/layout/layout_part.ts:95-111 | with both halves in use, the tiles of the half without the basis keep their weights |
| Window.StateClasses | src/kwinscript/engine/window.ts:164-178 | tiled implies tileable; TiledAfloat is the one state both tileable and floating; tiled and floating exclude each other |
| Window.EffectiveState | src/kwinscript/engine/window.ts:237-247 | NativeFullscreen when the host is full-screen, else NativeMaximized when it is maximized, else the internal state |
| Window.TransitionEffects | src/kwinscript/engine/window.ts:258-270 | the setter's two side effects answer to distinct transitions (only TiledAfloat can trigger either); tiled-to-floating schedules a float commit, floating-to-tiled saves the geometry, tiled-to-tiled does neither |
| Window.CommitFor | src/kwinscript/engine/window.ts:329-377 | a floating state sends the float geometry, without border and with keep-above as configured, only when a float commit is pending, and clears it; tiled states send the layout geometry; Unmanaged and Undecided send nothing |
| Window.FloatingCommitsOnce | src/kwinscript/engine/window.ts:345-375 | a floating window pushes its geometry once: a second commit sends nothing until shouldCommitFloat is set again |
| Window.WeightOn | src/kwinscript/engine/window.ts:287-295 | the weight stored for the surface, or 1.0 when none is stored |
| Window.EngineWindow.constructor | src/kwinscript/engine/window.ts:313-327 | a new window is Unmanaged, last asked to leave Floating, with float and layout geometry the host's, timestamp 0, a float commit pending iff it should float, and no weights; the host's full-screen and maximized flags are taken as given, not assumed off |
| Window.EngineWindow.SetState | src/kwinscript/engine/window.ts:249-273 | always records the state being left; asking for the current state changes nothing else; otherwise starting to float sets shouldCommitFloat, stopping saves the actual geometry as float geometry, and the internal state becomes the value |
| Window.EngineWindow.Weight | src/kwinscript/engine/window.ts:287-295 | returns WeightOn for the current surface, storing the default 1.0 when there was none |
| Window.EngineWindow.SetWeight | src/kwinscript/engine/window.ts:297-300 | stores the weight for the current surface only; other surfaces keep theirs |
| Window.EngineWindow.Commit | src/kwinscript/engine/window.ts:329-377 | the request sent and the pending flag afterwards are CommitFor of the old state; no state or geometry changes |
| Window.EngineWindow.GeometryDelta | src/kwinscript/engine/window.ts:217-219 | the delta that, applied to the layout geometry, gives the actual geometry |
| Window.SetStates | src/kwinscript/engine/layout/three_column_layout.ts:153 | every listed window goes through the state setter once for the value (and reports it unless the host overrides it); geometries unchanged |
| Window.SetGeometries | src/kwinscript/engine/layout/three_column_layout.ts:160-161 | each listed window takes the geometry at its own position; nothing else changes |
| Window.SetWeights | src/kwinscript/engine/layout/three_column_layout.ts:70 | the windows in a range of positions store, through the weight setter, the weight at their position on their current surface; their other surfaces, everything else about them and every other window stay; the windows' weights (WeightsOf) become the given ones |
| WindowList.RemoveAt | src/kwinscript/engine/window_store.ts:141-146 | splice(i, 1): one shorter, positions before i kept, later ones shifted down by one |
| WindowList.InsertAt | src/kwinscript/engine/window_store.ts:133-135 | splice(i, 0, x): one longer, x at i (at the end past it), earlier positions kept, later ones shifted up |
| WindowList.RemoveAtMultiset | src/kwinscript/engine/window_store.ts:141-146 | splice(i, 1) removes exactly one copy of the item at i |
| WindowList.InsertAtMultiset | src/kwinscript/engine/window_store.ts:133-135 | splice(i, 0, x) adds exactly one copy of x |
| WindowList.RemoveInsertRoundTrip | src/kwinscript/engine/window_store.ts:96-98 | putting a removed item back where it was restores the list |
| WindowList.InsertRemoveRoundTrip | src/kwinscript/engine/window_store.ts:96-98 | removing what was just inserted restores the list |
| WindowList.MovedSpec | src/kwinscript/engine/window_store.ts:84-99 | a no-op when either window is absent; otherwise same windows, src at dest's original index (one past it when after, at most the end), others in their relative order |
| WindowList.ToMasterSpec | src/kwinscript/engine/window_store.ts:101-108 | a listed window goes to index 0 followed by the others in their old order; same windows; absent means no change |
| WindowList.Swapped | src/kwinscript/engine/window_store.ts:110-119 | the list keeps its length |
| WindowList.SwappedSpec | src/kwinscript/engine/window_store.ts:110-119 | each window takes the other's position and every other position is unchanged; absent means no change |
| WindowList.SwappedMultiset | src/kwinscript/engine/window_store.ts:110-119 | swapping keeps the same windows |
| WindowList.SwappedTwice | src/kwinscript/engine/window_store.ts:110-119 | in a list without repeats, swapping twice restores the list |
| WindowList.InsertedAfterSpec | src/kwinscript/engine/window_store.ts:133-135 | the new window lands right after `after`, or at index 0 when `after` is absent |
| WindowList.RemovedSpec | src/kwinscript/engine/window_store.ts:141-146 | a listed window: one shorter, exactly one copy gone; absent: no change |
| WindowList.PushRemoveRoundTrip | src/kwinscript/engine/window_store.ts:137-146 | pushing an unlisted window and removing it restores the list |
| WindowList.WindowStore.constructor | src/kwinscript/engine/window_store.ts:82 | the store starts with the given list |
| WindowList.WindowStore.Move | src/kwinscript/engine/window_store.ts:84-99 | the new list is Moved of the old one (see MovedSpec) |
| WindowList.WindowStore.PutWindowToMaster | src/kwinscript/engine/window_store.ts:101-108 | the new list is ToMaster of the old one (see ToMasterSpec) |
| WindowList.WindowStore.Swap | src/kwinscript/engine/window_store.ts:110-119 | the new list is Swapped of the old one (see SwappedSpec) |
| WindowList.WindowStore.Length | src/kwinscript/engine/window_store.ts:121-123 | the length of the list |
| WindowList.WindowStore.At | src/kwinscript/engine/window_store.ts:125-127 | the window at the index, or nothing (undefined) outside the list |
| WindowList.WindowStore.Index | src/kwinscript/engine/window_store.ts:129-131 | -1 exactly when the window is absent, else a position holding it |
| WindowList.WindowStore.InsertAfter | src/kwinscript/engine/window_store.ts:133-135 | the new list is InsertedAfter of the old one (see InsertedAfterSpec) |
| WindowList.WindowStore.Push | src/kwinscript/engine/window_store.ts:137-139 | the window is appended |
| WindowList.WindowStore.Remove | src/kwinscript/engine/window_store.ts:141-146 | the new list is Removed of the old one (see RemovedSpec) |
| WindowList.WindowStore.Unshift | src/kwinscript/engine/window_store.ts:148-150 | the window is prepended |
| WindowList.WindowStore.VisibleWindowsOn | src/kwinscript/engine/window_store.ts:152-154 | an order-preserving sub-list holding exactly the listed windows visible on the surface |
| WindowList.WindowStore.VisibleTiledWindowsOn | src/kwinscript/engine/window_store.ts:156-158 | an order-preserving sub-list holding exactly the listed visible windows in a tiled state |
| WindowList.WindowStore.VisibleTileableWindowsOn | src/kwinscript/engine/window_store.ts:160-162 | an order-preserving sub-list holding exactly the listed visible windows in a tileable state |
| WindowList.WindowStore.TileableWindowsOn | src/kwinscript/engine/window_store.ts:164-168 | an order-preserving sub-list holding exactly the listed tileable windows of the surface |
| WindowList.WindowStore.AllWindowsOn | src/kwinscript/engine/window_store.ts:170-172 | an order-preserving sub-list holding exactly the listed windows of the surface |
| Func.IndexOf | src/kwinscript/engine/window_store.ts:129-131 | Array indexOf: -1 exactly when absent, else the first position holding the item |
| Func.Filter | src/kwinscript/engine/window_store.ts:153 | Array filter: at most as long, holding exactly the items that satisfy the predicate |
| Func.FilterIsSubsequence | src/kwinscript/engine/window_store.ts:152-172 | a filtered list keeps the order of the original |
| LayoutStore.LayoutHandle.constructor | src/kwinscript/engine/layout_store.ts:71 | a layout made by the factory of an id carries that id |
| LayoutStore.CycleIndex | src/kwinscript/engine/layout_store.ts:39-42 | the new index is (index + step) mod n, and 0 when the current layout was off the order; always in range |
| LayoutStore.CycleBackAndForth | src/kwinscript/engine/layout_store.ts:37-45 | cycling forward then backward (or the other way) returns to the same index |
| LayoutStore.ToggleState | src/kwinscript/engine/layout_store.ts:50-57 | toggling the current layout swaps current and previous; another target becomes current with the old current as previous |
| LayoutStore.ToggleTwice | src/kwinscript/engine/layout_store.ts:47-61 | toggling the same target twice gives back the current layout, and restores the whole state when the target was current |
| LayoutStore.IndexIn | src/kwinscript/engine/layout_store.ts:63-66 | the first position of the layout in the order, or null exactly when it is absent |
| LayoutStore.LayoutStoreEntry.constructor | src/kwinscript/engine/layout_store.ts:27-35 | a new entry has index 0 and the first layout of the order as current and previous, and has loaded it |
| LayoutStore.LayoutStoreEntry.CurrentLayout | src/kwinscript/engine/layout_store.ts:16-18 | the loaded layout of the current id |
| LayoutStore.LayoutStoreEntry.LoadLayout | src/kwinscript/engine/layout_store.ts:68-74 | a layout loaded before is returned again unchanged; otherwise a new one is made for the id and cached; nothing else changes |
| LayoutStore.LayoutStoreEntry.CycleLayout | src/kwinscript/engine/layout_store.ts:37-45 | previous becomes the old current, the index becomes CycleIndex of the old one, current is the layout there, and loaded layouts are kept |
| LayoutStore.LayoutStoreEntry.ToggleLayout | src/kwinscript/engine/layout_store.ts:47-61 | (current, previous) follow ToggleState, the index is recomputed by IndexIn, and the target's layout is returned |
| LayoutStore.LayoutStore.constructor | src/kwinscript/engine/layout_store.ts:80-82 | a new store has no entries |
| LayoutStore.LayoutStore.GetEntry | src/kwinscript/engine/layout_store.ts:107-112 | an existing entry is returned and the store is unchanged; otherwise a new entry, with the first layout of the order current, is added under the key and nothing else changes |
| LayoutStore.LayoutStore.GetCurrentLayout | src/kwinscript/engine/layout_store.ts:84-88 | an ignored surface gets the floating layout instance and no entry; any other gets its entry's current layout, the store gaining at most a fresh entry for that surface, and no entry's state changes |
| LayoutStore.LayoutStore.CycleLayout | src/kwinscript/engine/layout_store.ts:90-95 | null on an ignored surface, with no entry made; otherwise the surface's key is added if new, only that surface's entry may change, every other entry is the same object with the same state, and the entry's previous id is its old current id (the first layout for a new entry) while its index becomes CycleIndex of the old index (of 0 for a new entry) and its current id the layout there; the entry's new current layout is returned |
| LayoutStore.LayoutStore.ToggleLayout | src/kwinscript/engine/layout_store.ts:97-105 | null on an ignored surface, with no entry made; otherwise the surface's key is added if new, only that surface's entry may change, every other entry is the same object with the same state, and the entry's (current, previous) follow ToggleState of its old pair (of the first layout twice for a new entry) with the index recomputed by IndexIn; the entry's layout of the requested id is returned |
| Engine.FocusIndexWraps | src/kwinscript/engine/index.ts:451-454 | focusOrder's index `(idx + step % num + num) % num`, computed with JavaScript's remainder, always lies in [0, num) and equals wrapIndex(idx + step) |
| Engine.FocusTarget | src/kwinscript/engine/index.ts:438-454 | the target is a listed window: the first one when nothing is focused or the focused window is not listed, otherwise the window one step on or back, wrapping around |
| Engine.FocusForwardBack | src/kwinscript/engine/index.ts:444-454 | in a list without repeats, focusing forward and then back (or back and then forward) returns to the focused window |
| Engine.Engine.FocusOrder | src/kwinscript/engine/index.ts:423-455 | with no window on the surface the focus is unchanged; otherwise it moves to FocusTarget of all (includeHidden) or of the visible windows |
| Engine.Engine.FocusDir | src/kwinscript/engine/index.ts:457-475 | with nothing focused the first visible window, if any, gets the focus; otherwise the directional neighbour among the visible tiled windows, or no change when there is none |
| Engine.SwapDestination | src/kwinscript/engine/index.ts:484-486 | the destination is the visible window one step on or back from `w`, wrapping; an unlisted `w` (index -1) picks the first window going forward and the second-to-last going back |
| Engine.Engine.SwapOrder | src/kwinscript/engine/index.ts:477-489 | with fewer than two visible windows the list is unchanged; otherwise `w` is moved onto SwapDestination, and the list keeps the same elements |
| Engine.Managed | src/kwinscript/engine/index.ts:399-410 | the new window joins the list exactly once: at index 0 with newWindowAsMaster, right after the focused window when there is one, else last |
| Engine.ManageUnmanageRoundTrip | src/kwinscript/engine/index.ts:395-416 | unmanaging a window that manage has just added restores the list |
| Engine.Engine.Manage | src/kwinscript/engine/index.ts:395-412 | an ignored window leaves list and window unchanged; any other is asked to become Undecided through the state setter, with all the setter's effects on the window (AskedFor) and its layout geometry kept, and is placed where Managed puts it |
| Engine.ToggleFloatTarget | src/kwinscript/engine/index.ts:562-564 | a tileable state goes to a floating, non-tileable one; any other goes to Tiled |
| Engine.ToggleFloatTwice | src/kwinscript/engine/index.ts:562-564 | toggling twice restores tileability, and a third toggle repeats the first |
| Engine.Engine.ToggleFloat | src/kwinscript/engine/index.ts:562-564 | the window asks for ToggleFloatTarget of its current state through the state setter, with all the setter's effects (AskedFor: the recorded request, the commit-float flag, the saved float geometry) and its layout geometry kept; unless the host has it fullscreen or maximized, that becomes its state |
| Engine.ResizeMovesEdgeSameWay | src/kwinscript/engine/index.ts:246-284 | after the flip, a horizontal resize moves exactly one of the east and west edges, and the eastward travel is always `hStep * step`; vertical likewise; west and north are never flipped |
| Engine.ResizeEastFlip | src/kwinscript/engine/index.ts:246-254 | growing east moves the east edge when some tiled window starts at or past the basis's east edge, and otherwise shrinks from the west with the step negated |
| Engine.NeighborCandidates | src/kwinscript/engine/index.ts:627-661 | the candidates are, in list order, exactly the windows strictly further than the basis along the direction of travel that overlap it on the other axis |
| Engine.ClosestCorner | src/kwinscript/engine/index.ts:663-682 | going up or left, the greatest facing edge of the candidates, never below the initial 0; going down or right, the least one, or Infinity exactly when there are no candidates |
| Engine.ClosestWindows | src/kwinscript/engine/index.ts:684-702 | in list order, exactly the candidates whose facing edge is within 5 px of the closest edge |
| Engine.MostRecent | src/kwinscript/engine/index.ts:725-726 | the first window with the greatest timestamp, as a stable descending sort puts first |
| Engine.NeighborByDirection | src/kwinscript/engine/index.ts:704-727 | a found neighbour is a candidate within reach of the closest edge, and no candidate within reach was used more recently |
| Engine.NeighborFound | src/kwinscript/engine/index.ts:708-726 | a neighbour is found exactly when some candidate exists and, going up or left, some candidate's facing edge exceeds -5 |
| Engine.NeighborNearest | src/kwinscript/engine/index.ts:714-726 | the found window's facing edge is within 5 px of every candidate's, on the near side |
| Engine.Candidates | src/kwinscript/engine/index.ts:631-633 | one search entry per window, in order, with that window's layout geometry and timestamp |
| ThreeColumn.Groups | src/kwinscript/engine/layout/three_column_layout.ts:192-197 | the tiles are cut, in order, into the first masterSize (master), the next floor((n - masterSize) / 2) (right stack) and the rest (left stack) |
| ThreeColumn.BasisGroupMatchesPartition | src/kwinscript/engine/layout/three_column_layout.ts:100-111 | adjust's choice of column (master below masterSize, right stack below floor((masterSize + n) / 2), else left stack) holds the basis in the group apply lays out there, at the same offset |
| ThreeColumn.BasisGroupBounds | src/kwinscript/engine/layout/three_column_layout.ts:100-111 | the column chosen for tile i is one of the three, and its group's index range contains i |
| ThreeColumn.ColumnWeights | src/kwinscript/engine/layout/three_column_layout.ts:182-190 | the columns are weighted [1 - r, r, 1 - r], summing to 2 - r |
| ThreeColumn.ColumnAreas | src/kwinscript/engine/layout/three_column_layout.ts:185-190 | three columns, each spanning the area's full height |
| ThreeColumn.SideColumnsMatch | src/kwinscript/engine/layout/three_column_layout.ts:182-190 | the two stack columns are equally wide, the left one starts at the area's left edge, and the columns are apart by at least the gap |
| ThreeColumn.ApplyOneColumn | src/kwinscript/engine/layout/three_column_layout.ts:156-162 | with at most masterSize tiles, every tile spans the area's width and gets its weighted vertical share |
| ThreeColumn.ApplyTwoColumns | src/kwinscript/engine/layout/three_column_layout.ts:163-179 | with one tile beyond the masters, the last tile gets the whole right half of the masterRatio split and the masters share the left half |
| ThreeColumn.ApplyThreeColumns | src/kwinscript/engine/layout/three_column_layout.ts:180-205 | with two or more tiles beyond the masters, every tile spans the width of its group's column |
| ThreeColumn.Geometries | src/kwinscript/engine/layout/three_column_layout.ts:156-205 | one geometry per tile; the weights need only a non-zero sum in each run of tiles split by weight (GeometriesDefined) |
| ThreeColumn.ResizedColumns | src/kwinscript/engine/layout/three_column_layout.ts:114-122 | with the corrected resize, the three column weights after resizing one column still sum to one |
| ThreeColumn.ResizedGroup | src/kwinscript/engine/layout/three_column_layout.ts:135-143 | with the corrected resize, a group's new weights, scaled by the group's size, sum to that size |
| ThreeColumn.AdjustResult | src/kwinscript/engine/layout/three_column_layout.ts:62-144 | adjust, with the corrected resize, yields one weight per tile |
| ThreeColumn.AdjustOneColumn | src/kwinscript/engine/layout/three_column_layout.ts:62-70 | one column: the ratio is kept and the new weights sum to the number of tiles |
| ThreeColumn.AdjustTwoColumns | src/kwinscript/engine/layout/three_column_layout.ts:71-97 | two columns: the new ratio is the resized half weight of the master side; the masters are re-weighted to sum to their number only when the basis is a master; the stack tile keeps its weight |
| ThreeColumn.AdjustThreeColumnsWeights | src/kwinscript/engine/layout/three_column_layout.ts:127-143 | three columns: only the basis's group is re-weighted, to a sum equal to its size; every other tile keeps its weight |
| ThreeColumn.AdjustThreeColumnsRatio | src/kwinscript/engine/layout/three_column_layout.ts:113-125 | three columns, with the corrected resize: the new ratio is the master's share of the master and the adjacent stack, strictly between 0 and 1 when both stay positive |
| ThreeColumn.ThreeColumnLayout.constructor | src/kwinscript/engine/layout/three_column_layout.ts:42-46 | a new layout has masterRatio 0.6 and masterSize 1 |
| ThreeColumn.ThreeColumnLayout.Clone | src/kwinscript/engine/layout/three_column_layout.ts:208-213 | a fresh layout with the same config, masterRatio and masterSize |
| ThreeColumn.ThreeColumnLayout.Apply | src/kwinscript/engine/layout/three_column_layout.ts:147-206 | every tileable asks for Tiled and gets the geometry of its position in Geometries, computed from the weights the tiles carry on their surfaces; those weights need only a non-zero sum in each run of tiles split by weight |
| ThreeColumn.WrittenTiles | src/kwinscript/engine/layout/three_column_layout.ts:62-143 | the tiles adjust re-weights form one range holding the basis: all tiles with one column, the masters when the basis is one with two, the basis's group with three |
| ThreeColumn.AdjustWritesOnly | src/kwinscript/engine/layout/three_column_layout.ts:62-143 | every tile outside that range keeps its weight in AdjustResult |
| ThreeColumn.ThreeColumnLayout.Store | src/kwinscript/engine/layout/three_column_layout.ts:62-143 | sets the master ratio and stores the tiles' new weights in the range through the weight setter; masterSize is kept |
| ThreeColumn.ThreeColumnLayout.Adjust | src/kwinscript/engine/layout/three_column_layout.ts:48-145 | an unlisted basis changes nothing; otherwise the ratio becomes AdjustResult's (corrected resize), each tile in WrittenTiles stores its AdjustResult weight on its current surface, every other tile is untouched, so the tiles' weights are AdjustResult's; masterSize is kept |
| ThreeColumn.ThreeColumnLayout.ResizeMaster | src/kwinscript/engine/layout/three_column_layout.ts:241-244 | masterSize moves by the step, clipped to [1, 10] |
| ThreeColumn.ThreeColumnLayout.ExecuteAction | src/kwinscript/engine/layout/three_column_layout.ts:215-235 | exactly the four master actions are handled; the count actions resize the master column within [1, 10], the size actions slide the ratio by 0.05 within [0.2, 0.75]; any other action changes nothing; the master size stays within [1, 10] (Valid) whenever it was, and is brought into it by a count action |
| Quarter.FarGap | src/kwinscript/engine/layout/quarter_layout.ts:134-135 | gap1 = floor(gap / 2) and gap2 = gap - gap1 add up to the gap, gap2 being at most one larger |
| Quarter.Geometries | src/kwinscript/engine/layout/quarter_layout.ts:119-132 | geometries for the first min(n, 4) tiles only, with the corrected bottom-left cell (third Findings row) |
| Quarter.OneTile | src/kwinscript/engine/layout/quarter_layout.ts:129-132 | a single tile gets the whole area |
| Quarter.TwoTiles | src/kwinscript/engine/layout/quarter_layout.ts:137-153 | two tiles side by side, full height, split at floor(width * vsplit) less the near half-gap; their widths and the gap add up to the area's width |
| Quarter.ThreeTiles | src/kwinscript/engine/layout/quarter_layout.ts:156-178 | three tiles: a full-height left tile and a right column cut at floor(height * rhsplit) into two cells one gap apart, reaching the east and south edges |
| Quarter.FourTiles | src/kwinscript/engine/layout/quarter_layout.ts:181-209 | four tiles: two columns one gap apart, each cut into two cells one gap apart, the cells of a column aligned and together reaching every edge of the area (with the corrected bottom-left cell) |
| Quarter.BottomLeftAsWrittenMisaligned | src/kwinscript/engine/layout/quarter_layout.ts:203-208 | as written, with an odd gap the bottom-left cell ends one pixel left of the top-left cell, a gap and a pixel from the bottom-right cell |
| Quarter.BottomLeftAsWritten | src/kwinscript/engine/layout/quarter_layout.ts:203-208 | as written, the bottom-left cell starts at the area's west edge and reaches its south edge, its top gap2 below the left split and its right edge gap2 inside the left column |
| Quarter.BottomLeft | src/kwinscript/engine/layout/quarter_layout.ts:203-208 | corrected, the right edge is gap1 inside the left column, as for the top-left cell; the other edges are as written |
| Quarter.DraggedMovesBy | src/kwinscript/engine/layout/quarter_layout.ts:56-85 | a dragged split falls exactly `move` pixels from the old split's pixel position |
| Quarter.ClipSplit | src/kwinscript/engine/layout/quarter_layout.ts:89-103 | a split is kept within [0.2, 0.8], and one already inside is unchanged |
| Quarter.AdjustKeepsSplitsBounded | src/kwinscript/engine/layout/quarter_layout.ts:40-104 | adjust changes nothing with at most one or more than four tiles or an unlisted basis; otherwise every split ends in [0.2, 0.8] and a split the resize does not drag is only clipped |
| Quarter.AdjustMovesEastEdge | src/kwinscript/engine/layout/quarter_layout.ts:56-58 | resizing the top-left tile's east edge moves that edge by exactly delta.east, while the new split stays within [0.2, 0.8] |
| Quarter.AdjustMovesSouthEdge | src/kwinscript/engine/layout/quarter_layout.ts:77-81 | resizing the top-right tile's south edge moves that edge by exactly delta.south, while the new split stays within [0.2, 0.8] |
| Quarter.QuarterLayout.constructor | src/kwinscript/engine/layout/quarter_layout.ts:32-38 | every split starts at 0.5 |
| Quarter.QuarterLayout.Clone | src/kwinscript/engine/layout/quarter_layout.ts:106-112 | a fresh layout with the same splits |
| Quarter.SetQuarterStates | src/kwinscript/engine/layout/quarter_layout.ts:119-127 | the first four tileables ask for Tiled and every later one for TiledAfloat, no geometry changing |
| Quarter.QuarterLayout.Apply | src/kwinscript/engine/layout/quarter_layout.ts:114-210 | the first four tileables ask for Tiled and get their cells (with the corrected bottom-left cell); the rest ask for TiledAfloat and keep their geometry |
| Quarter.QuarterLayout.Adjust | src/kwinscript/engine/layout/quarter_layout.ts:40-104 | the splits become AdjustedSplits of the old ones for the basis's index |
| Cascade.DecomposeDirection | src/kwinscript/engine/layout/cascade_layout.ts:38-59 | every direction has vertical and horizontal components in {-1, 0, 1}, never both 0 |
| Cascade.DecomposeDirectionFaithful | src/kwinscript/engine/layout/cascade_layout.ts:20-59 | distinct directions decompose differently, and the opposite direction (four on) has the negated components |
| Cascade.Turned | src/kwinscript/engine/layout/cascade_layout.ts:108-111 | `(dir ± 1 + 8) % 8` is the direction one on or back, modulo 8 |
| Cascade.TurnedInverse | src/kwinscript/engine/layout/cascade_layout.ts:106-116 | turning one way and then the other restores the direction |
| Cascade.TurnedTimesAdds | src/kwinscript/engine/layout/cascade_layout.ts:106-112 | k clockwise turns add k modulo 8; eight make a full circle |
| Cascade.CascadeFillsArea | src/kwinscript/engine/layout/cascade_layout.ts:74-99 | every tile lies in the area; a static axis keeps the area's extent; the first tile touches the starting edges, the last one the opposite edges; each tile is one 25 px step further than the previous one |
| Cascade.AxisWithin | src/kwinscript/engine/layout/cascade_layout.ts:79-99 | along one axis, the tile's span lies within the area's, starting and ending at the edges the cascade runs between |
| Cascade.CascadeLayout.constructor | src/kwinscript/engine/layout/cascade_layout.ts:65-67 | the layout cascades in the given direction |
| Cascade.CascadeLayout.Clone | src/kwinscript/engine/layout/cascade_layout.ts:102-104 | a fresh layout with the same direction |
| Cascade.CascadeLayout.Apply | src/kwinscript/engine/layout/cascade_layout.ts:69-100 | every tileable asks for Tiled and tile i gets TileRect(i): the running-position loop places each tile where the closed form says |
| Cascade.CascadeLayout.ExecuteAction | src/kwinscript/engine/layout/cascade_layout.ts:106-116 | exactly the two master-count actions are handled, turning the direction one on or back; any other changes nothing |
| Stair.StairShape | src/kwinscript/engine/layout/stair_layout.ts:46-55 | every tile ends at the area's south-east corner and starts inside it, the first at its top and the last at its west edge, each one `space` lower and further west than the one before |
| Stair.PlaceStairs | src/kwinscript/engine/layout/stair_layout.ts:46-55 | tile i gets StairRect(i) of the area and step, and nothing but geometry changes |
| Stair.StairLayout.constructor | src/kwinscript/engine/layout/stair_layout.ts:28-30 | the step starts at 24 px |
| Stair.StairLayout.Clone | src/kwinscript/engine/layout/stair_layout.ts:58-62 | a fresh layout with the same step |
| Stair.StairLayout.Apply | src/kwinscript/engine/layout/stair_layout.ts:32-56 | every tileable asks for Tiled and tile i gets StairRect(i), nothing else of it changing |
| Stair.StairLayout.ExecuteAction | src/kwinscript/engine/layout/stair_layout.ts:64-74 | decreasing the master count narrows the step by 8 down to 16, increasing widens it by 8 up to 160, keeping it in [16, 160]; other actions change nothing |
| Dynamic.SplitParts | src/kwinscript/engine/layout/dynamic_layout.ts:44-64 | the split loop returns one sub-part per sub-part |
| Dynamic.WrappedLeaves | src/kwinscript/engine/layout/dynamic_layout.ts:38-42 | the part replacing a window's place holds exactly that window |
| Dynamic.SplitKeepsLeaves | src/kwinscript/engine/layout/dynamic_layout.ts:37-65 | splitting never adds, drops or reorders windows; a window not in the tree leaves it unchanged and is reported not found (0); a found report means the window is in the tree |
| Dynamic.Split | src/kwinscript/engine/layout/dynamic_layout.ts:37-65 | the split part keeps its direction, gap and windows; a window not in it is reported NotFound and changes nothing; any other report means it is in the part |
| Dynamic.ReplaceMeOnlyChild | src/kwinscript/engine/layout/dynamic_layout.ts:46-49 | a part answers 2 exactly when its only sub-part is the window's leaf |
| Dynamic.ReplaceMeNeedsSingle | src/kwinscript/engine/layout/dynamic_layout.ts:46-60 | an answer of 2 comes only from a one-window part, even through nested parts, because a nested 2 is handled by the caller |
| Dynamic.SplitFlatPart | src/kwinscript/engine/layout/dynamic_layout.ts:44-52 | in a part of windows only, splitting a window that is not alone replaces its first leaf with a new part holding just it, reports 1, and changes nothing else |
| Dynamic.SplitPartsFirstHolding | src/kwinscript/engine/layout/dynamic_layout.ts:44-64 | at any depth, the loop keeps every sub-part before the first one holding the window; that one becomes the wrapped window if it is the window's leaf (kept if it is the part's only sub-part) or a nested part whose only sub-part is that leaf (the answer 2 case), and is split in turn otherwise; when the window occurs once, every later sub-part is kept too |
| Dynamic.SplitPartsWraps | src/kwinscript/engine/layout/dynamic_layout.ts:44-64 | for every tree holding the window, other than a part made of that window alone, the split leaves a new part in the split direction holding just the window somewhere in the tree |
| Dynamic.SplitWraps | src/kwinscript/engine/layout/dynamic_layout.ts:37-65 | splitting a window of a part: unless the window is the part's only sub-part (reported 2, nothing changed), a part in the split direction holding just the window appears at some depth; when the window occurs once, only the sub-part holding it changes |
| Dynamic.FlatLeaves | src/kwinscript/engine/layout/dynamic_layout.ts:26 | a part of windows only lists exactly those windows, in order |
| Dynamic.Prepare | src/kwinscript/engine/layout/dynamic_layout.ts:67-91 | the prepared top part keeps its direction and gap |
| Dynamic.PreparePartsConsumesPrefix | src/kwinscript/engine/layout/dynamic_layout.ts:71-83 | the prepare loop keeps, in order, exactly a prefix of the tiles (dropping ids that are not the next tile) and hands back the rest |
| Dynamic.PrepareListsTiles | src/kwinscript/engine/layout/dynamic_layout.ts:67-91 | after prepare, with the leftover tiles appended at the top level, the tree lists exactly the tiles, in order |
| Dynamic.PreparePartsKeepsMatchingTree | src/kwinscript/engine/layout/dynamic_layout.ts:71-83 | a tree already listing a prefix of the tiles is kept as it is, and the other tiles are handed back |
| Dynamic.PrepareIdempotent | src/kwinscript/engine/layout/dynamic_layout.ts:67-91 | preparing twice for the same tiles is the same as preparing once |
| Dynamic.InsertNewFollowsWindowList | src/kwinscript/engine/layout/dynamic_layout.ts:93-112 | the new window is placed exactly when the current one is in the tree, and then the tree lists the windows as insertAfter orders the window list; otherwise nothing changes |
| Dynamic.Ones | src/kwinscript/engine/layout/dynamic_layout.ts:117 | one weight of 1.0 per sub-part, summing to their number |
| Dynamic.PartAreas | src/kwinscript/engine/layout/dynamic_layout.ts:115-120 | one area per sub-part |
| Dynamic.ApplyPart | src/kwinscript/engine/layout/dynamic_layout.ts:114-138 | one rectangle per window of the part, depth first |
| Dynamic.ApplyEachPlaces | src/kwinscript/engine/layout/dynamic_layout.ts:121-135 | the forEach appends, in order, one rectangle per window: the windows of sub-part k follow those of the sub-parts before it and get exactly sub-part k's rectangles on area k (the whole area for a window, the nested part's own placement otherwise) |
| Dynamic.ApplyPartPlaces | src/kwinscript/engine/layout/dynamic_layout.ts:114-138 | depth-first placement of a part: the windows of its sub-part k, starting after the windows of the sub-parts before it, get that sub-part's rectangles placed on the k-th equal area of the part |
| Dynamic.ApplyFlatPart | src/kwinscript/engine/layout/dynamic_layout.ts:114-138 | in a part of windows only, window k gets the k-th of the equal shares of the area |
| Dynamic.DynamicLayout.constructor | src/kwinscript/engine/layout/dynamic_layout.ts:161-167 | a new layout is an empty horizontal part with the configured gap |
| Dynamic.DynamicLayout.HandleNewWindow | src/kwinscript/engine/layout/dynamic_layout.ts:169-174 | the tree becomes InsertNew's, keeping the top part's direction and gap |
| Dynamic.DynamicLayout.Apply | src/kwinscript/engine/layout/dynamic_layout.ts:176-193 | every tileable asks for Tiled; the tree becomes the prepared one, listing exactly the tileables; tileable i gets the i-th rectangle of the tree |
| Dynamic.DynamicLayout.ExecuteAction | src/kwinscript/engine/layout/dynamic_layout.ts:195-207 | exactly the two split actions are handled; with a current window the tree becomes Dynamic.Split's result for that window and direction (so, by Dynamic.SplitWraps, its place is wrapped at whatever depth it sits), and the tree's windows never change |
| WindowGroupTree.AddWindowPlaces | src/core/engine/window-group.cpp:26-40 | adding to a window node changes nothing; adding to a group appends a window node where the first child is absent or a window node, and otherwise descends into the first child, so the new window is listed right after the deepest first group's windows, every other window keeps its place, window nodes never gain children, and the area is kept |
| WindowGroupTree.Deepest | src/core/engine/window-group.cpp:33-38 | from a group, the descent ends at a group whose first child is absent or a window node; a window node is its own end |
| WindowGroupTree.RemoveWindowFollowsList | src/core/engine/window-group.cpp:42-60 | removing from a window node fails and changes nothing; from a group it succeeds exactly when the window is below it, and then removes only its first occurrence depth first, keeping the area; when it fails nothing changes |
| WindowGroupTree.RemoveFromChildrenFollowsList | src/core/engine/window-group.cpp:49-59 | the loop over the children erases the first matching window node or recurses, stopping at the first success, so that the listed windows lose exactly their first occurrence of the window |
| WindowGroupTree.SetGeometry | src/core/engine/window-group.cpp:85-93 | the node stores the new area and keeps its window, children and weight; the area is pushed to a window exactly when the node is a window node |
| CoreWindow.VisibleOn | src/core/engine/window.cpp:54-59 | a minimized window is never visible |
| CoreWindow.VisibleOnMatchesSurfaces | src/core/engine/window.cpp:54-96 | for a window that is not minimized and a surface of the workspace, visibleOn holds exactly when the surface is one of the window's surfaces (desktop match or all desktops, screen match, activity listed or none listed) |
| CoreWindow.VisibilityExamples | tests/core/engine/window.test.cpp:14-109 | the seven visibility cases of the engine's unit check: minimized, another desktop, another screen and another activity are invisible; same surface, all desktops, and all desktops and activities are visible |
| CoreWindow.DesktopsOf | src/core/engine/window.cpp:98-112 | the desktops are exactly 1..N when the window is on all desktops, else its own desktop |
| CoreWindow.Desktops | src/core/engine/window.cpp:98-112 | the loop pushes exactly DesktopsOf's list |
| CoreWindow.Activities | src/core/engine/window.cpp:114-126 | the copy loop yields the window's activities, or the workspace's when it names none |
| CoreWindow.Row | src/core/engine/window.cpp:90-92 | one surface per activity, on the given desktop and screen |
| CoreWindow.CrossHolds | src/core/engine/window.cpp:79-96 | a surface is in the product exactly when its screen is the window's, its desktop is listed and its activity is listed; the product has one surface per desktop and activity |
| CoreWindow.Surfaces | src/core/engine/window.cpp:79-96 | the nested loops push exactly the product of desktops and activities on the window's screen, desktop by desktop |
| CoreWindow.Window.constructor | src/core/engine/window.cpp:13-17 | the window wraps the given client |
| CoreWindow.Window.SetMode | src/core/engine/window.cpp:44-47 | the mode becomes the given value |
| CoreWindow.EqualsIsEquivalence | src/core/engine/window.cpp:24-27 | equality compares the wrapped clients only, and is an equivalence |
| CoreWindow.LessAsWrittenNeverHolds | src/core/engine/window.cpp:19-22 | as written, no window is less than another, so even windows of different clients are neither equal nor ordered |
| CoreWindow.LessIsStrictOrder | src/core/engine/window.cpp:19-27 | as intended, the order of the clients is irreflexive and transitive, and exactly one of a < b, b < a and a == b holds |
| AreaSplitter.Truncate | src/core/engine/layout/utils.cpp:25 | a C++ conversion to int truncates toward zero: a non-negative value drops to the integer at or below it, less than one away, and a negative value rises to the integer at or above it, less than one away |
| AreaSplitter.WeightsSumAsWritten | src/core/engine/layout/utils.cpp:24 | for non-negative weights the int accumulator ends at most at the exact sum and less than one per weight below it |
| AreaSplitter.WeightAccAsWritten | src/core/engine/layout/utils.cpp:29 | for non-negative weights the running weight at part i approximates the weights of parts 1..i rather than 0..i-1: never above their sum, and less than one per weight below |
| AreaSplitter.SplitSegmentAsWritten | src/core/engine/layout/utils.cpp:21-38 | no split exactly when some weights are given and their truncated sum is 0; otherwise one part per weight |
| AreaSplitter.SplitSegmentAsWrittenLosesFractions | src/core/engine/layout/utils.cpp:22-38 | as written, the weights 0.25, 0.25 and 0.5 of the splitter's own unit check have a truncated sum of 0 and no finite split, while the TypeScript split gives the expected [0, 25], [25, 25], [50, 50] |
| AreaSplitter.SplitSegmentAsWrittenShiftsParts | src/core/engine/layout/utils.cpp:30-32 | as written, part 1 of weights [1, 2] on a 90 px line starts at 60 instead of 30 and ends 30 px past the line, while the TypeScript split gives [0, 30], [30, 60] |
| Pieces.GroupsWeights | src/core/engine/layout/utils.cpp:73-81 | the groups' weights, in order; positive weights of some groups have a positive sum |
| Pieces.AssignMaps | src/core/engine/layout/piece/stack.cpp:20-23 | the result map has exactly the groups as keys, and for distinct groups sends groups[i] to the i-th rectangle |
| Pieces.StackApply | src/core/engine/layout/piece/stack.cpp:16-26 | the index loop builds exactly the map from each group to its part of the vertical weighted split |
| Pieces.StackResult | src/core/engine/layout/piece/stack.cpp:16-26 | every group, and nothing else, gets an area |
| Pieces.Apply | src/core/engine/layout/piece/half-split.cpp:20-38 | for every piece, every group, and nothing else, gets an area |
| Pieces.ApplyAgreesWithLayoutPart | src/core/engine/layout/piece/half-split.cpp:20-38 | for distinct groups every piece's result has exactly the groups as keys, and group i gets the rectangle the corresponding TypeScript layout part gives tile i |
| Pieces.HalfSplitAgrees | src/core/engine/layout/piece/half-split.cpp:28-37 | when both halves are used, the union of the primary's and the secondary's results agrees with the TypeScript half-split part |
| Pieces.HalfSplitDelegates | src/core/engine/layout/piece/half-split.cpp:22-27 | no more groups than the primary size: all go to the primary on the whole area; primary size 0 with some groups: all go to the secondary |
| Pieces.HalfSplitPieceUnfolds | src/core/engine/layout/piece/half-split.cpp:30-36 | otherwise the primary gets the first primarySize groups on the first half (the second when reversed, with ratio 1 - ratio), the secondary the rest on the other half, and the result is their union with the primary's entries kept |
| Pieces.HalfSplitPartUnfolds | src/core/engine/layout/piece/half-split.cpp:33-34 | the TypeScript half-split gives its first primarySize tiles the primary's rectangles on the same half, and the rest the secondary's |
| Pieces.FillSingle | tests/core/engine/layout/piece/half-split.test.cpp:17-20 | the fill piece gives a single group the whole area |
| Pieces.StackSmallCases | tests/core/engine/layout/piece/stack.test.cpp:17-35 | an empty stack places nothing, and a single group gets the whole area |
| Pieces.StackFourEqual | tests/core/engine/layout/piece/stack.test.cpp:50-65 | four equal groups stacked over (0, 0, 100, 100) get heights of 25 at y = 0, 25, 50 and 75 |
| Pieces.HalfSplitTwoHalves | tests/core/engine/layout/piece/half-split.test.cpp:35-65 | a half-split of two fill pieces with ratio 0.5 puts one group on the whole area, and two groups on the left and right 50 px halves |

## Left out

- Host calls: KWin's clients, screens, timers, notifications and logging (`showLayoutNotification`, `dump`, console output) have no model. Facts the host supplies are parameters: visibility on a surface, the working area, the gap and resize steps, and the client's properties.
- Layout parts, the dynamic layout's tree and the C++ window-group tree are immutable values. The source edits these trees in place (`unique_ptr` ownership, splicing children, erasing nodes). The model does not capture that aliasing or the in-place update. It captures only the tree that results.
- Floating point: weights and ratios are exact reals and coordinates are integers. IEEE rounding and `QRectF` fractions are not modelled. Where the source would divide by zero and produce NaN, the model adds a requires instead: a zero weight sum or total, a zero-sized quarter area, and AdjustComputable.
- Engine.ResizeDelta: the 3% step of `resizeTile` is a parameter (`hStep`, `vStep`). The model captures only the direction of the move and the east/south flip.
- Engine.NeighborByDirection: when several candidates share the highest timestamp, the model takes the first in list order. This assumes a stable sort, which the source's `Array.prototype.sort` does not promise.
- Engine.Engine.Manage: the call to the layout's `handleNewWindow` is not part of Manage. It is modelled on its own as Dynamic.DynamicLayout.HandleNewWindow.
- `unmanage` and `setMaster` only delegate to the window list. They are covered by WindowList.WindowStore.Remove and WindowList.WindowStore.PutWindowToMaster.
- `arrange` / `arrangeScreen` / `adjustLayout`, `resizeFloat`, `moveFloat` and `swapDirection` have no model. They mostly drive host geometry; the model covers the layout computations they call.
- `executeWithoutLayoutOverride`, config loaders, description strings, `toString` and hints are not modelled: they are plumbing and text.
- WindowList.WindowStore.At returns None where JavaScript would return `undefined`.
- Cascade's default direction and the `FloatingLayout.instance` singleton: the singleton is represented by a constructor.
- Distinct-window requires: operations on the window list assume no window occurs twice. The engine keeps that invariant but never checks it.
- Stair.StairLayout.ExecuteAction requires the class invariant Valid().
- `WindowGroup::arrange` needs `Layout::fromId` / `placeGroup` from layout.cpp, which is not part of this model. `size()` and `weight()` are declared in the header but never defined. `children()` returns the children in storage order.
- CoreWindow: `activate`, `geometry` and `setGeometry` pass straight through to KWin and are not modelled. A new window's mode is uninitialised in the C++ source, and the constructor leaves it unconstrained. The client's properties come from a ClientState snapshot.
- rotatable.cpp and three_column.cpp are not part of this model: they are unfinished in the source. fill.cpp and angle-dependent.cpp are not part of this model either: the fill piece gives every group the whole area.
- Pieces.StackApply: splits with LayoutUtils.SplitWeighted, the TypeScript engine's split, rather than with AreaSplitter's as-written split (see Findings), so it does not inherit that split's truncated weights.
- Pieces.Apply: splits like Pieces.StackApply, and models `splitAreaIntoTwoPartsWithPrimaryWeight` as LayoutUtils.SplitAreaHalfWeighted. `m_primarySize` is a natural number.
- LayoutUtils.AdjustWeights: states the corrected resize of the first Findings row, not the source's. The as-written version is LayoutUtils.AdjustWeightsAsWritten. The two agree unless the target has a neighbour on each side and both deltas are non-zero (LayoutUtils.AdjustWeightsAsWrittenAgrees). In that case the source's weights differ: three 100 px parts with the middle one pulled 10 px each way give [90, 110, 90] / 290, not [0.3, 0.4, 0.3], and the outer parts do not keep their share of the line.
- LayoutUtils.AdjustAreaWeights: built on the corrected LayoutUtils.AdjustWeights, so it differs from the source in the same cases.
- LayoutPart.Adjust: a stack's new weights come from the corrected resize (LayoutPart.StackAdjustValues), and so does a half-split's new ratio (LayoutPart.AdjustedRatioIsShare). A rotated part maps the inner delta back out with the corrected LayoutPart.RotateDeltaOut. At 270 the source hands an east change back as a west one and a north change as a south one (LayoutPart.RotateFillPassesDelta).
- LayoutPart.StackAdjustWeights: the stack's weights follow the corrected resize, as for LayoutPart.Adjust.
- LayoutPart.HalfSplitFinish: the new ratio follows the corrected resize, as for LayoutPart.Adjust.
- ThreeColumn.ResizedColumns: resizes the column weights with the corrected LayoutUtils.AdjustWeights. In the source the master ratio comes from the as-written resize, which differs when the master column moves both of its edges.
- ThreeColumn.ResizedGroup: resizes a group with the corrected LayoutUtils.AdjustAreaWeights. The source's weights differ when the basis tile moves both of its edges inside its group.
- ThreeColumn.AdjustResult: combines ThreeColumn.ResizedColumns and ThreeColumn.ResizedGroup, so it follows the corrected resize.
- ThreeColumn.AdjustThreeColumnsRatio: the ratio is the master's share under the corrected resize.
- ThreeColumn.ThreeColumnLayout.Adjust: takes ThreeColumn.AdjustResult, so it follows the corrected resize. The basis is given by its position in the tiles (negative when it is not among them), the result of `tiles.indexOf(basis)`.
- ThreeColumn.ThreeColumnLayout.Apply: reads the tiles' weights with WeightsOf, which does not store the default 1.0 that the weight getter stores for a tile with no weight on its surface. The value read is the same either way.
- Quarter.Geometries: the fourth tile gets the corrected bottom-left cell of the third Findings row. The source's cell is Quarter.BottomLeftAsWritten, whose right edge is one pixel further west when the gap is odd.
- Quarter.QuarterLayout.Apply: uses Quarter.Geometries, so the fourth tile gets the corrected cell.
- LayoutPart.AdjustDefined: requires a stack's basis tile to be among its tiles. Without it the source passes index -1 to adjustWeights, whose destructuring of `parts[-1]` (src/kwinscript/engine/layout/layout_utils.ts:107) throws a TypeError; the model has no result for that case.
- Surface ids and layout ids are numbers: the source uses strings, but only compares them and keys maps by them, so any injective numbering gives the same behaviour.
- AreaSplitter.SplitSegmentAsWritten: after the last part, the loop's increment reads `weights[size]`, one past the end. That read is undefined behaviour in C++ and has no model; the model stops at the last index.

## Findings

| source | as written | input that shows it | evidently intended | confidence | as-written member | corrected member |
|---|---|---|---|---|---|---|
| src/kwinscript/engine/layout/layout_utils.ts:106-139 | the forward step reuses the target's begin and length read before the backward step changed them | three parts of 100 px, target 1, 10 px forward and backward: [0,90], [100,110], [210,90], a total of 290 px | the forward step starts from the parts the backward step left: [0,90], [90,120], [210,90] | not executed | LayoutUtils.AdjustWeightsAsWrittenLosesLength | LayoutUtils.AdjustWeightsRoundTrip |
| src/kwinscript/engine/layout/layout_part.ts:255-257 | the inner delta is mapped back to the outer sides with the same permutation that mapped it in | angle 270 with an east delta of 1: it comes back as a west delta | the inverse permutation, so that the outer tile's edge moves | not executed | LayoutPart.RotateDeltaOutAsWrittenSwapsSides | LayoutPart.RotateDeltaRoundTrip |
| src/kwinscript/engine/layout/quarter_layout.ts:203-208 | the bottom-left cell's right edge is inset by gap2, where the top-left cell's (line 190) is inset by gap1 | four windows with an odd gap: the bottom-left cell ends one pixel west of the top-left cell and is one pixel narrower | the right edge inset by gap1, so that the two left cells line up | not executed | Quarter.BottomLeftAsWrittenMisaligned | Quarter.FourTiles |
| src/core/engine/layout/utils.cpp:22-38 | the weight sum and running weight are ints, and the running weight is advanced after the index has moved on (so the last increment also reads `weights[size]`, past the end) | weights 0.25, 0.25, 0.5 sum to 0, so no split; weights 1, 2 on a 90 px line put part 2 at 60 | exact sums, with part i starting after the weights of parts before it: [0,30], [30,60] | not executed | AreaSplitter.SplitSegmentAsWrittenShiftsParts | LayoutUtils.SplitEndsWithinLine |
| src/core/engine/window.cpp:19-22 | operator< compares the window's client with itself | two windows of different clients: neither is less than the other | the order of the two clients | not executed | CoreWindow.LessAsWrittenNeverHolds | CoreWindow.LessIsStrictOrder |
