// Weighted splitting of lines and areas, and the inverse bookkeeping that
// turns resized parts back into weights
// (src/kwinscript/engine/layout/layout_utils.ts).
//
// A line is a segment [begin, length]. Splitting it into n weighted parts
// separated by `gap` first removes the n - 1 gaps from the length; part i
// then starts at floor(A * acc_i / S + i * gap) and is floor(A * w_i / S)
// long, where A is the remaining length, S the sum of the weights and acc_i
// the sum of the weights before part i.

module LayoutUtils {
  import opened Func
  import opened Geometry

  /** A stretch [begin, begin + length) of a line. */
  datatype Segment = Segment(begin: int, length: int)
  {
    function End(): int { begin + length }
  }

  /** The least part length that resizing leaves to a part and its neighbour. */
  const MinLength: int := 1

  function Sum(w: seq<real>): real
  {
    if |w| == 0 then 0.0 else Sum(w[..|w| - 1]) + w[|w| - 1]
  }

  lemma SumSnoc(w: seq<real>, i: nat)
    requires i < |w|
    ensures Sum(w[..i + 1]) == Sum(w[..i]) + w[i]
  {
    assert w[..i + 1][..i] == w[..i];
  }

  /** Sum of the lengths of the parts. */
  function TotalLength(parts: seq<Segment>): int
  {
    if |parts| == 0 then 0 else TotalLength(parts[..|parts| - 1]) + parts[|parts| - 1].length
  }

  lemma TotalSnoc(parts: seq<Segment>, i: nat)
    requires i < |parts|
    ensures TotalLength(parts[..i + 1]) == TotalLength(parts[..i]) + parts[i].length
  {
    assert parts[..i + 1][..i] == parts[..i];
  }

  /** The length left for the parts once the n - 1 gaps are taken out. */
  function Available(line: Segment, n: nat, gap: int): int
  {
    line.length - (n - 1) * gap
  }

  /** The share `avail * w / total` of the available length that weight w receives. */
  function Share(avail: int, w: real, total: real): real
    requires total != 0.0
  {
    avail as real * w / total
  }

  lemma ShareAdd(avail: int, a: real, b: real, total: real)
    requires total != 0.0
    ensures Share(avail, a + b, total) == Share(avail, a, total) + Share(avail, b, total)
  {
  }

  lemma ShareWhole(avail: int, total: real)
    requires total != 0.0
    ensures Share(avail, total, total) == avail as real
  {
  }

  /** Rounding down two shares separately never gives more than rounding down their sum. */
  lemma FloorAdd(a: real, b: real)
    ensures a.Floor + b.Floor <= (a + b).Floor
    ensures (a + b).Floor <= a.Floor + b.Floor + 1
  {
  }

  lemma DivSelf(x: real)
    requires x != 0.0
    ensures x / x == 1.0
  {
  }

  lemma FloorShift(a: real, k: int)
    ensures (a + k as real).Floor == a.Floor + k
  {
  }

  /** Part i of the split. */
  function PartAt(line: Segment, weights: seq<real>, gap: int, i: nat): (p: Segment)
    requires i < |weights| && Sum(weights) != 0.0
    ensures p.begin == line.begin + Share(Available(line, |weights|, gap), Sum(weights[..i]), Sum(weights)).Floor + i * gap
    ensures p.length == Share(Available(line, |weights|, gap), weights[i], Sum(weights)).Floor
  {
    var actualLength := Available(line, |weights|, gap);
    var weightSum := Sum(weights);
    var partBegin := Share(actualLength, Sum(weights[..i]), weightSum) + (i * gap) as real;
    var partLength := Share(actualLength, weights[i], weightSum);
    FloorShift(Share(actualLength, Sum(weights[..i]), weightSum), i * gap);
    Segment(line.begin + partBegin.Floor, partLength.Floor)
  }

  /** Splits a line into weighted parts separated by `gap`. */
  function SplitWeighted(line: Segment, weights: seq<real>, gap: int): (parts: seq<Segment>)
    requires |weights| > 0 ==> Sum(weights) != 0.0
    ensures |parts| == |weights|
  {
    seq(|weights|, i requires 0 <= i < |weights| => PartAt(line, weights, gap, i))
  }

  /** The first part starts where the line starts. */
  lemma SplitStartsAtBegin(line: Segment, weights: seq<real>, gap: int)
    requires |weights| > 0 && Sum(weights) != 0.0
    ensures SplitWeighted(line, weights, gap)[0].begin == line.begin
  {
    assert weights[..0] == [];
  }

  /** Consecutive parts never overlap: each ends at least `gap` before the next begins. */
  lemma SplitNoOverlap(line: Segment, weights: seq<real>, gap: int, i: nat)
    requires i + 1 < |weights| && Sum(weights) != 0.0
    ensures SplitWeighted(line, weights, gap)[i].End() + gap <= SplitWeighted(line, weights, gap)[i + 1].begin
  {
    var avail, s := Available(line, |weights|, gap), Sum(weights);
    SumSnoc(weights, i);
    ShareAdd(avail, Sum(weights[..i]), weights[i], s);
    FloorAdd(Share(avail, Sum(weights[..i]), s), Share(avail, weights[i], s));
  }

  /**
   * Rounding loses less than one unit per part: the part lengths add up to
   * at most the available length and at least that minus n - 1.
   */
  lemma SplitTotal(line: Segment, weights: seq<real>, gap: int)
    requires |weights| > 0 && Sum(weights) != 0.0
    ensures var n, total := |weights|, TotalLength(SplitWeighted(line, weights, gap));
      Available(line, n, gap) - (n - 1) <= total <= Available(line, n, gap)
  {
    var parts := SplitWeighted(line, weights, gap);
    var avail, s := Available(line, |weights|, gap), Sum(weights);
    SplitPrefixTotal(line, weights, gap, |weights|);
    assert weights[..|weights|] == weights && parts[..|parts|] == parts;
    ShareWhole(avail, s);
  }

  lemma {:induction false} SplitPrefixTotal(line: Segment, weights: seq<real>, gap: int, k: nat)
    requires k <= |weights| && Sum(weights) != 0.0
    ensures var parts, share := SplitWeighted(line, weights, gap), Share(Available(line, |weights|, gap), Sum(weights[..k]), Sum(weights));
      TotalLength(parts[..k]) <= share.Floor
      && share - k as real <= TotalLength(parts[..k]) as real
      && (k > 0 ==> share - k as real < TotalLength(parts[..k]) as real)
  {
    var parts := SplitWeighted(line, weights, gap);
    var avail, s := Available(line, |weights|, gap), Sum(weights);
    if k == 0 {
      assert weights[..0] == [] && parts[..0] == [];
    } else {
      SplitPrefixTotal(line, weights, gap, k - 1);
      TotalSnoc(parts, k - 1);
      SumSnoc(weights, k - 1);
      ShareAdd(avail, Sum(weights[..k - 1]), weights[k - 1], s);
      FloorAdd(Share(avail, Sum(weights[..k - 1]), s), Share(avail, weights[k - 1], s));
    }
  }

  /** The last part ends no later than the line does. */
  lemma SplitEndsWithinLine(line: Segment, weights: seq<real>, gap: int)
    requires |weights| > 0 && Sum(weights) != 0.0
    ensures SplitWeighted(line, weights, gap)[|weights| - 1].End() <= line.End()
  {
    var n := |weights|;
    var avail, s := Available(line, n, gap), Sum(weights);
    SumSnoc(weights, n - 1);
    assert weights[..n] == weights;
    ShareAdd(avail, Sum(weights[..n - 1]), weights[n - 1], s);
    ShareWhole(avail, s);
    FloorAdd(Share(avail, Sum(weights[..n - 1]), s), Share(avail, weights[n - 1], s));
  }

  // ---------------------------------------------------------------------------
  // Parts that tile a line exactly

  /** Each part starts exactly `gap` after the previous one ends. */
  predicate Contiguous(parts: seq<Segment>, gap: int)
  {
    forall i :: 0 <= i < |parts| - 1 ==> parts[i + 1].begin == parts[i].End() + gap
  }

  /** The parts cover the line from its beginning, gap-separated, with no rounding loss. */
  predicate Tiles(line: Segment, parts: seq<Segment>, gap: int)
  {
    |parts| > 0 && parts[0].begin == line.begin && Contiguous(parts, gap)
    && TotalLength(parts) == Available(line, |parts|, gap)
  }

  lemma {:induction false} TilesBegin(line: Segment, parts: seq<Segment>, gap: int, i: nat)
    requires i < |parts| && parts[0].begin == line.begin && Contiguous(parts, gap)
    ensures parts[i].begin == line.begin + TotalLength(parts[..i]) + i * gap
  {
    if i == 0 {
      assert parts[..0] == [];
    } else {
      TilesBegin(line, parts, gap, i - 1);
      TotalSnoc(parts, i - 1);
    }
  }

  // ---------------------------------------------------------------------------
  // calculateWeights

  /** Each part's length divided by `total`. */
  function Proportions(parts: seq<Segment>, total: int): (weights: seq<real>)
    requires total != 0
    ensures |weights| == |parts|
  {
    seq(|parts|, i requires 0 <= i < |parts| => parts[i].length as real / total as real)
  }

  lemma {:induction false} ProportionsPrefix(parts: seq<Segment>, total: int, k: nat)
    requires total != 0 && k <= |parts|
    ensures Sum(Proportions(parts, total)[..k]) == TotalLength(parts[..k]) as real / total as real
  {
    var w := Proportions(parts, total);
    if k == 0 {
      assert w[..0] == [] && parts[..0] == [];
    } else {
      ProportionsPrefix(parts, total, k - 1);
      SumSnoc(w, k - 1);
      TotalSnoc(parts, k - 1);
    }
  }

  /**
   * Each part's share of the total length. The weights calculated from any
   * parts with a non-zero total add up to one.
   */
  function CalculateWeights(parts: seq<Segment>): (weights: seq<real>)
    requires TotalLength(parts) != 0
    ensures |weights| == |parts| && Sum(weights) == 1.0
  {
    var totalLength := TotalLength(parts);
    ProportionsPrefix(parts, totalLength, |parts|);
    assert Proportions(parts, totalLength)[..|parts|] == Proportions(parts, totalLength);
    assert parts[..|parts|] == parts;
    assert Sum(Proportions(parts, totalLength)) == totalLength as real / totalLength as real;
    DivSelf(totalLength as real);
    Proportions(parts, totalLength)
  }

  /** Each weight is that part's share of the total length. */
  lemma CalculateWeightsAt(parts: seq<Segment>, i: nat)
    requires TotalLength(parts) != 0 && i < |parts|
    ensures CalculateWeights(parts)[i] == parts[i].length as real / TotalLength(parts) as real
  {
    assert CalculateWeights(parts) == Proportions(parts, TotalLength(parts));
  }

  /**
   * calculateWeights inverts splitWeighted: splitting the line again by the
   * weights of parts that tile it exactly gives back those very parts.
   */
  lemma CalculateThenSplit(line: Segment, parts: seq<Segment>, gap: int)
    requires Tiles(line, parts, gap) && TotalLength(parts) != 0
    ensures SplitWeighted(line, CalculateWeights(parts), gap) == parts
  {
    var split := SplitWeighted(line, CalculateWeights(parts), gap);
    forall i | 0 <= i < |parts|
      ensures split[i] == parts[i]
    {
      CalculateThenSplitAt(line, parts, gap, i);
    }
  }

  lemma CalculateThenSplitAt(line: Segment, parts: seq<Segment>, gap: int, i: nat)
    requires Tiles(line, parts, gap) && TotalLength(parts) != 0 && i < |parts|
    ensures SplitWeighted(line, CalculateWeights(parts), gap)[i] == parts[i]
  {
    var w := CalculateWeights(parts);
    var total := TotalLength(parts);
    var pre := TotalLength(parts[..i]);
    assert w == Proportions(parts, total);
    ProportionsPrefix(parts, total, i);
    TilesBegin(line, parts, gap, i);
    ShareOfProportion(total, pre);
    ShareOfProportion(total, parts[i].length);
    var p := PartAt(line, w, gap, i);
    assert p.begin == line.begin + Share(total, Sum(w[..i]), 1.0).Floor + i * gap;
    assert p.length == Share(total, w[i], 1.0).Floor;
  }

  /** The whole's share of a part's proportion of it is that part. */
  lemma ShareOfProportion(total: int, x: int)
    requires total != 0
    ensures Share(total, x as real / total as real, 1.0) == x as real
    ensures (x as real).Floor == x
  {
  }

  // ---------------------------------------------------------------------------
  // adjustWeights

  /**
   * The backward step: the target grows towards the origin by the clipped
   * delta and its preceding neighbour shrinks by as much. Only the boundary
   * between the two moves, and neither drops below MinLength when both
   * started at or above it.
   */
  function BackwardStep(parts: seq<Segment>, target: nat, deltaBw: int): (r: seq<Segment>)
    requires target < |parts|
    ensures |r| == |parts|
    ensures forall j :: 0 <= j < |parts| && j != target && j != target - 1 ==> r[j] == parts[j]
    ensures target > 0 ==>
      r[target - 1].begin == parts[target - 1].begin && r[target].End() == parts[target].End()
      && r[target].begin - parts[target].begin == r[target - 1].End() - parts[target - 1].End()
    ensures target > 0 && parts[target].length >= MinLength && parts[target - 1].length >= MinLength ==>
      r[target].length >= MinLength && r[target - 1].length >= MinLength
  {
    if target > 0 && deltaBw != 0 then
      var neighbor := target - 1;
      var t, nb := parts[target], parts[neighbor];
      var delta := ClipInt(deltaBw, MinLength - t.length, nb.length - MinLength);
      parts[target := Segment(t.begin - delta, t.length + delta)][neighbor := Segment(nb.begin, nb.length - delta)]
    else parts
  }

  /**
   * The forward step: the target, as it stands after the backward step,
   * grows away from the origin and its following neighbour shrinks. Only
   * the boundary between the two moves.
   */
  function ForwardStep(parts: seq<Segment>, target: nat, deltaFw: int): (r: seq<Segment>)
    requires target < |parts|
    ensures |r| == |parts|
    ensures forall j :: 0 <= j < |parts| && j != target && j != target + 1 ==> r[j] == parts[j]
    ensures target + 1 < |parts| ==>
      r[target].begin == parts[target].begin && r[target + 1].End() == parts[target + 1].End()
      && r[target].End() - parts[target].End() == r[target + 1].begin - parts[target + 1].begin
    ensures target + 1 < |parts| && parts[target].length >= MinLength && parts[target + 1].length >= MinLength ==>
      r[target].length >= MinLength && r[target + 1].length >= MinLength
  {
    if target < |parts| - 1 && deltaFw != 0 then
      var neighbor := target + 1;
      var t, nb := parts[target], parts[neighbor];
      var delta := ClipInt(deltaFw, MinLength - t.length, nb.length - MinLength);
      parts[target := Segment(t.begin, t.length + delta)][neighbor := Segment(nb.begin + delta, nb.length - delta)]
    else parts
  }

  /** Resizing part `target` of a split line: the backward step, then the forward step. */
  function AdjustParts(parts: seq<Segment>, target: nat, deltaFw: int, deltaBw: int): (r: seq<Segment>)
    requires target < |parts|
    ensures |r| == |parts|
    ensures forall j :: 0 <= j < |parts| && (j < target - 1 || j > target + 1) ==> r[j] == parts[j]
  {
    ForwardStep(BackwardStep(parts, target, deltaBw), target, deltaFw)
  }

  /**
   * The source's own sequence: the forward step reuses the target's begin and
   * length read before the backward step, so it undoes the target's backward growth.
   */
  function AdjustPartsAsWritten(parts: seq<Segment>, target: nat, deltaFw: int, deltaBw: int): (r: seq<Segment>)
    requires target < |parts|
    ensures |r| == |parts|
  {
    var targetBase, targetLength := parts[target].begin, parts[target].length;
    var afterBw := BackwardStep(parts, target, deltaBw);
    if target < |afterBw| - 1 && deltaFw != 0 then
      var neighbor := target + 1;
      var nb := afterBw[neighbor];
      var delta := ClipInt(deltaFw, MinLength - targetLength, nb.length - MinLength);
      afterBw[target := Segment(targetBase, targetLength + delta)][neighbor := Segment(nb.begin + delta, nb.length - delta)]
    else afterBw
  }

  lemma {:induction false} TotalUpdate(parts: seq<Segment>, i: nat, s: Segment)
    requires i < |parts|
    ensures TotalLength(parts[i := s]) == TotalLength(parts) - parts[i].length + s.length
    decreases |parts|
  {
    var n := |parts|;
    var u := parts[i := s];
    assert u[..n - 1] == if i < n - 1 then parts[..n - 1][i := s] else parts[..n - 1];
    if i < n - 1 {
      TotalUpdate(parts[..n - 1], i, s);
    }
  }

  /** Moving one boundary between two neighbours keeps the total length. */
  lemma BoundaryMoveTotal(parts: seq<Segment>, r: seq<Segment>, i: nat)
    requires i + 1 < |parts| == |r|
    requires forall j :: 0 <= j < |parts| && j != i && j != i + 1 ==> r[j] == parts[j]
    requires r[i].begin == parts[i].begin && r[i + 1].End() == parts[i + 1].End()
    requires r[i].End() - parts[i].End() == r[i + 1].begin - parts[i + 1].begin
    ensures TotalLength(r) == TotalLength(parts)
  {
    var p1 := parts[i := r[i]];
    TotalUpdate(parts, i, r[i]);
    TotalUpdate(p1, i + 1, r[i + 1]);
    assert p1[i + 1 := r[i + 1]] == r;
  }

  /** Moving one boundary between two neighbours keeps the parts contiguous. */
  lemma BoundaryMoveContiguous(parts: seq<Segment>, r: seq<Segment>, i: nat, gap: int)
    requires i + 1 < |parts| == |r|
    requires forall j :: 0 <= j < |parts| && j != i && j != i + 1 ==> r[j] == parts[j]
    requires r[i].begin == parts[i].begin && r[i + 1].End() == parts[i + 1].End()
    requires r[i].End() - parts[i].End() == r[i + 1].begin - parts[i + 1].begin
    requires Contiguous(parts, gap)
    ensures Contiguous(r, gap)
  {
    forall k | 0 <= k < |r| - 1
      ensures r[k + 1].begin == r[k].End() + gap
    {
      assert parts[k + 1].begin == parts[k].End() + gap;
    }
  }

  /** Resizing keeps the total length of the parts. */
  lemma AdjustPartsTotal(parts: seq<Segment>, target: nat, deltaFw: int, deltaBw: int)
    requires target < |parts|
    ensures TotalLength(AdjustParts(parts, target, deltaFw, deltaBw)) == TotalLength(parts)
  {
    var p1 := BackwardStep(parts, target, deltaBw);
    if target > 0 {
      BoundaryMoveTotal(parts, p1, target - 1);
    }
    if target + 1 < |parts| {
      BoundaryMoveTotal(p1, ForwardStep(p1, target, deltaFw), target);
    }
  }

  /** Resizing parts that tile a line leaves parts that tile the same line. */
  lemma AdjustPartsKeepsTiling(line: Segment, parts: seq<Segment>, target: nat, deltaFw: int, deltaBw: int, gap: int)
    requires target < |parts| && Tiles(line, parts, gap)
    ensures Tiles(line, AdjustParts(parts, target, deltaFw, deltaBw), gap)
  {
    var p1 := BackwardStep(parts, target, deltaBw);
    var r := ForwardStep(p1, target, deltaFw);
    AdjustPartsTotal(parts, target, deltaFw, deltaBw);
    if target > 0 {
      BoundaryMoveContiguous(parts, p1, target - 1, gap);
    }
    if target + 1 < |parts| {
      BoundaryMoveContiguous(p1, r, target, gap);
    }
    assert r[0].begin == parts[0].begin;
  }

  /** Resizing never squeezes a part below MinLength when none was below it. */
  lemma AdjustPartsKeepsMinLength(parts: seq<Segment>, target: nat, deltaFw: int, deltaBw: int)
    requires target < |parts|
    requires forall j :: 0 <= j < |parts| ==> parts[j].length >= MinLength
    ensures var r := AdjustParts(parts, target, deltaFw, deltaBw);
      forall j :: 0 <= j < |parts| ==> r[j].length >= MinLength
  {
    var p1 := BackwardStep(parts, target, deltaBw);
    assert forall j :: 0 <= j < |parts| ==> p1[j].length >= MinLength;
  }

  /**
   * New weights after part `target` of the weighted split of `line` grew by
   * `deltaBw` towards the origin and by `deltaFw` away from it.
   */
  function AdjustWeights(line: Segment, weights: seq<real>, gap: int, target: nat, deltaFw: int, deltaBw: int): (r: seq<real>)
    requires target < |weights| && Sum(weights) != 0.0
    requires TotalLength(SplitWeighted(line, weights, gap)) != 0
    ensures |r| == |weights| && Sum(r) == 1.0
    ensures var parts := SplitWeighted(line, weights, gap);
      forall j :: 0 <= j < |r| && (j < target - 1 || j > target + 1) ==>
        r[j] == parts[j].length as real / TotalLength(parts) as real
  {
    var parts := SplitWeighted(line, weights, gap);
    var adjusted := AdjustParts(parts, target, deltaFw, deltaBw);
    AdjustPartsTotal(parts, target, deltaFw, deltaBw);
    forall j | 0 <= j < |parts| && (j < target - 1 || j > target + 1)
      ensures CalculateWeights(adjusted)[j] == parts[j].length as real / TotalLength(parts) as real
    {
      CalculateWeightsAt(adjusted, j);
    }
    CalculateWeights(adjusted)
  }

  /**
   * When the current weights tile the line exactly, splitting the line by the
   * adjusted weights reproduces the resized parts.
   */
  lemma AdjustWeightsRoundTrip(line: Segment, weights: seq<real>, gap: int, target: nat, deltaFw: int, deltaBw: int)
    requires target < |weights| && Sum(weights) != 0.0
    requires Tiles(line, SplitWeighted(line, weights, gap), gap)
    requires TotalLength(SplitWeighted(line, weights, gap)) != 0
    ensures SplitWeighted(line, AdjustWeights(line, weights, gap, target, deltaFw, deltaBw), gap)
         == AdjustParts(SplitWeighted(line, weights, gap), target, deltaFw, deltaBw)
  {
    var parts := SplitWeighted(line, weights, gap);
    AdjustPartsKeepsTiling(line, parts, target, deltaFw, deltaBw, gap);
    CalculateThenSplit(line, AdjustParts(parts, target, deltaFw, deltaBw), gap);
  }

  /** adjustWeights with the source's stale target: the weights of AdjustPartsAsWritten. */
  function AdjustWeightsAsWritten(line: Segment, weights: seq<real>, gap: int, target: nat, deltaFw: int, deltaBw: int): (r: seq<real>)
    requires target < |weights| && Sum(weights) != 0.0
    requires TotalLength(AdjustPartsAsWritten(SplitWeighted(line, weights, gap), target, deltaFw, deltaBw)) != 0
    ensures |r| == |weights| && Sum(r) == 1.0
  {
    CalculateWeights(AdjustPartsAsWritten(SplitWeighted(line, weights, gap), target, deltaFw, deltaBw))
  }

  /**
   * The as-written resize and the corrected one agree unless the target has
   * a neighbour on each side and both deltas are non-zero.
   */
  lemma AdjustWeightsAsWrittenAgrees(line: Segment, weights: seq<real>, gap: int, target: nat, deltaFw: int, deltaBw: int)
    requires target < |weights| && Sum(weights) != 0.0
    requires TotalLength(SplitWeighted(line, weights, gap)) != 0
    requires target == 0 || target == |weights| - 1 || deltaFw == 0 || deltaBw == 0
    ensures var parts := SplitWeighted(line, weights, gap);
      AdjustPartsAsWritten(parts, target, deltaFw, deltaBw) == AdjustParts(parts, target, deltaFw, deltaBw)
    ensures TotalLength(AdjustPartsAsWritten(SplitWeighted(line, weights, gap), target, deltaFw, deltaBw)) != 0
    ensures AdjustWeightsAsWritten(line, weights, gap, target, deltaFw, deltaBw) == AdjustWeights(line, weights, gap, target, deltaFw, deltaBw)
  {
    var parts := SplitWeighted(line, weights, gap);
    AdjustPartsAsWrittenAgreesOnParts(parts, target, deltaFw, deltaBw);
    AdjustPartsTotal(parts, target, deltaFw, deltaBw);
  }

  lemma AdjustPartsAsWrittenAgreesOnParts(parts: seq<Segment>, target: nat, deltaFw: int, deltaBw: int)
    requires target < |parts|
    requires target == 0 || target == |parts| - 1 || deltaFw == 0 || deltaBw == 0
    ensures AdjustPartsAsWritten(parts, target, deltaFw, deltaBw) == AdjustParts(parts, target, deltaFw, deltaBw)
  {
    var afterBw := BackwardStep(parts, target, deltaBw);
    if target > 0 && deltaBw != 0 {
      assert !(target < |parts| - 1 && deltaFw != 0);
      assert ForwardStep(afterBw, target, deltaFw) == afterBw;
    } else {
      assert afterBw == parts;
    }
  }

  /**
   * Three equal parts of a 300-long line; the middle one is pulled 10 towards
   * the origin and 10 away from it. As written, the middle part ends up 110
   * long instead of 120 and starts back at 100, the total shrinks from 300 to
   * 290, and the resized parts no longer tile the line.
   */
  lemma AdjustWeightsAsWrittenLosesLength()
    ensures Sum([1.0, 1.0, 1.0]) == 3.0
    ensures var line, w := Segment(0, 300), [1.0, 1.0, 1.0];
      var parts := SplitWeighted(line, w, 0);
      parts == [Segment(0, 100), Segment(100, 100), Segment(200, 100)]
      && AdjustPartsAsWritten(parts, 1, 10, 10) == [Segment(0, 90), Segment(100, 110), Segment(210, 90)]
      && AdjustParts(parts, 1, 10, 10) == [Segment(0, 90), Segment(90, 120), Segment(210, 90)]
      && TotalLength(AdjustPartsAsWritten(parts, 1, 10, 10)) == 290
      && TotalLength(parts) == 300
      && !Tiles(line, AdjustPartsAsWritten(parts, 1, 10, 10), 0)
      && Tiles(line, AdjustParts(parts, 1, 10, 10), 0)
  {
    var line, w := Segment(0, 300), [1.0, 1.0, 1.0];
    SumSnoc(w, 2);
    SumSnoc(w, 1);
    SumSnoc(w, 0);
    assert w[..3] == w && w[..0] == [];
    assert Sum(w) == 3.0;
    var parts := SplitWeighted(line, w, 0);
    assert parts[0] == Segment(0, 100);
    assert parts[1] == Segment(100, 100);
    assert parts[2] == Segment(200, 100);
    assert parts == [Segment(0, 100), Segment(100, 100), Segment(200, 100)];
    var bad := AdjustPartsAsWritten(parts, 1, 10, 10);
    var good := AdjustParts(parts, 1, 10, 10);
    assert bad == [Segment(0, 90), Segment(100, 110), Segment(210, 90)];
    assert good == [Segment(0, 90), Segment(90, 120), Segment(210, 90)];
    TotalOfThree(parts);
    TotalOfThree(bad);
    TotalOfThree(good);
    assert bad[1].begin != bad[0].End();
  }

  lemma TotalOfThree(parts: seq<Segment>)
    requires |parts| == 3
    ensures TotalLength(parts) == parts[0].length + parts[1].length + parts[2].length
  {
    TotalSnoc(parts, 2);
    TotalSnoc(parts, 1);
    TotalSnoc(parts, 0);
    assert parts[..3] == parts && parts[..0] == [];
  }

  // ---------------------------------------------------------------------------
  // Areas

  /** The side of a rectangle along the split axis (x when horizontal, y otherwise). */
  function Along(r: Rect, horizontal: bool): Segment
  {
    if horizontal then Segment(r.x, r.width) else Segment(r.y, r.height)
  }

  /** The side of a rectangle across the split axis. */
  function Across(r: Rect, horizontal: bool): Segment
  {
    if horizontal then Segment(r.y, r.height) else Segment(r.x, r.width)
  }

  /**
   * Splits an area into weighted parts side by side (horizontal) or stacked
   * (vertical): each part is the line split along the axis, and keeps the
   * area's extent across it.
   */
  function SplitAreaWeighted(area: Rect, weights: seq<real>, gap: int, horizontal: bool): (rects: seq<Rect>)
    requires |weights| > 0 ==> Sum(weights) != 0.0
    ensures |rects| == |weights|
    ensures forall i :: 0 <= i < |rects| ==>
      Along(rects[i], horizontal) == SplitWeighted(Along(area, horizontal), weights, gap)[i]
      && Across(rects[i], horizontal) == Across(area, horizontal)
  {
    var parts := SplitWeighted(Along(area, horizontal), weights, gap);
    seq(|parts|, i requires 0 <= i < |parts| =>
      var p := parts[i];
      if horizontal then Rect(p.begin, area.y, p.length, area.height)
      else Rect(area.x, p.begin, area.width, p.length))
  }

  /** Splits an area in two, the first part getting `weight` and the second the rest. */
  function SplitAreaHalfWeighted(area: Rect, weight: real, gap: int, horizontal: bool): (rects: seq<Rect>)
    ensures |rects| == 2
  {
    SplitAreaWeighted(area, HalfWeights(weight), gap, horizontal)
  }

  /** The weights of an area split in two: `weight` and the rest of one. */
  function HalfWeights(weight: real): (w: seq<real>)
    ensures |w| == 2 && w[0] == weight && w[1] == 1.0 - weight && Sum(w) == 1.0
  {
    SumPair(weight, 1.0 - weight);
    [weight, 1.0 - weight]
  }

  lemma SumPair(a: real, b: real)
    ensures Sum([a, b]) == a + b
  {
    var w := [a, b];
    assert w[..1] == [a];
    assert [a][..0] == [];
    assert Sum([a]) == Sum([]) + a;
    assert Sum(w) == Sum(w[..1]) + b;
  }

  lemma SumThree(a: real, b: real, c: real)
    ensures Sum([a, b, c]) == a + b + c
  {
    var w := [a, b, c];
    assert w[..2] == [a, b];
    SumPair(a, b);
  }

  /**
   * The two halves: the first starts at the area's start and is
   * floor(A * weight) long, the second starts `gap` after the first ends or
   * later, and ends within the area (A is the length minus the gap).
   */
  lemma SplitAreaHalfWeightedParts(area: Rect, weight: real, gap: int, horizontal: bool)
    ensures var rects, line := SplitAreaHalfWeighted(area, weight, gap, horizontal), Along(area, horizontal);
      var avail := line.length - gap;
      Along(rects[0], horizontal) == Segment(line.begin, (avail as real * weight).Floor)
      && Along(rects[0], horizontal).End() + gap <= Along(rects[1], horizontal).begin
      && Along(rects[1], horizontal).End() <= line.End()
      && avail - 1 <= Along(rects[0], horizontal).length + Along(rects[1], horizontal).length <= avail
  {
    var w := HalfWeights(weight);
    var line := Along(area, horizontal);
    var parts := SplitWeighted(line, w, gap);
    SplitStartsAtBegin(line, w, gap);
    SplitNoOverlap(line, w, gap, 0);
    SplitEndsWithinLine(line, w, gap);
    SplitTotal(line, w, gap);
    TotalSnoc(parts, 1);
    TotalSnoc(parts, 0);
    assert parts[..2] == parts && parts[..0] == [];
  }

  /** adjustWeights on an area: east/west deltas along x when horizontal, south/north along y otherwise. */
  function AdjustAreaWeights(area: Rect, weights: seq<real>, gap: int, target: nat, delta: RectDelta, horizontal: bool): (r: seq<real>)
    requires target < |weights| && Sum(weights) != 0.0
    requires TotalLength(SplitWeighted(Along(area, horizontal), weights, gap)) != 0
    ensures |r| == |weights| && Sum(r) == 1.0
    ensures r == AdjustWeights(Along(area, horizontal), weights, gap, target,
                               if horizontal then delta.east else delta.south,
                               if horizontal then delta.west else delta.north)
  {
    var line := Along(area, horizontal);
    var deltaFw := if horizontal then delta.east else delta.south;
    var deltaBw := if horizontal then delta.west else delta.north;
    AdjustWeights(line, weights, gap, target, deltaFw, deltaBw)
  }

  /** The new first weight of an area split in two; the second is one minus it. */
  function AdjustAreaHalfWeights(area: Rect, weight: real, gap: int, target: nat, delta: RectDelta, horizontal: bool): (r: real)
    requires target < 2
    requires HalfSplitTotal(area, weight, gap, horizontal) != 0
    ensures var w := AdjustAreaWeights(area, HalfWeights(weight), gap, target, delta, horizontal);
      r == w[0] && w[1] == 1.0 - r
  {
    var weights := HalfWeights(weight);
    var newWeights := AdjustAreaWeights(area, weights, gap, target, delta, horizontal);
    SumPair(newWeights[0], newWeights[1]);
    assert newWeights == [newWeights[0], newWeights[1]];
    newWeights[0]
  }

  /** Total length of the two halves of an area split by `weight`. */
  function HalfSplitTotal(area: Rect, weight: real, gap: int, horizontal: bool): int
  {
    TotalLength(SplitWeighted(Along(area, horizontal), HalfWeights(weight), gap))
  }

  /** The weights of the given geometries along the axis: each one's share of their total extent. */
  function CalculateAreaWeights(area: Rect, geometries: seq<Rect>, gap: int, horizontal: bool): (r: seq<real>)
    requires TotalLength(AlongAll(geometries, horizontal)) != 0
    ensures |r| == |geometries| && Sum(r) == 1.0
  {
    CalculateWeights(AlongAll(geometries, horizontal))
  }

  function AlongAll(geometries: seq<Rect>, horizontal: bool): (parts: seq<Segment>)
    ensures |parts| == |geometries|
    ensures forall i :: 0 <= i < |geometries| ==> parts[i] == Along(geometries[i], horizontal)
  {
    seq(|geometries|, i requires 0 <= i < |geometries| => Along(geometries[i], horizontal))
  }

  /**
   * Measuring an exact weighted split of an area gives back the weights'
   * proportions: calculateAreaWeights inverts splitAreaWeighted.
   */
  lemma CalculateAreaWeightsInvertsSplit(area: Rect, weights: seq<real>, gap: int, horizontal: bool)
    requires |weights| > 0 && Sum(weights) != 0.0
    requires Tiles(Along(area, horizontal), SplitWeighted(Along(area, horizontal), weights, gap), gap)
    requires TotalLength(SplitWeighted(Along(area, horizontal), weights, gap)) != 0
    ensures var rects := SplitAreaWeighted(area, weights, gap, horizontal);
      TotalLength(AlongAll(rects, horizontal)) != 0
      && SplitWeighted(Along(area, horizontal), CalculateAreaWeights(area, rects, gap, horizontal), gap)
         == SplitWeighted(Along(area, horizontal), weights, gap)
  {
    var line := Along(area, horizontal);
    var parts := SplitWeighted(line, weights, gap);
    var rects := SplitAreaWeighted(area, weights, gap, horizontal);
    assert AlongAll(rects, horizontal) == parts;
    CalculateThenSplit(line, parts, gap);
  }
}
