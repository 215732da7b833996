// The C++ engine's line splitter (src/core/engine/layout/utils.cpp,
// AreaSplitter::splitSegmentWeighted), as written.
//
// It sums the weights into an integer accumulator, so fractional weights
// are truncated on every addition, and it advances the running weight
// after `i` has already moved on, so part i starts after the weights of
// parts 1..i instead of 0..i-1. The rest of the model splits lines with
// LayoutUtils.SplitWeighted, which follows the TypeScript engine.

module AreaSplitter {
  import opened Types
  import opened LayoutUtils

  /** A C++ conversion of a real to int: truncation toward zero. */
  function Truncate(x: real): (r: int)
    ensures x >= 0.0 ==> 0 <= r && r as real <= x < r as real + 1.0
    ensures x < 0.0 ==> r <= 0 && r as real - 1.0 < x <= r as real
  {
    if x >= 0.0 then x.Floor else -((-x).Floor)
  }

  /**
   * std::accumulate with the int initial value 0: each partial sum is
   * truncated back to int. For non-negative weights the result is at most
   * the exact sum and loses less than one per weight.
   */
  function WeightsSumAsWritten(weights: seq<real>): (r: int)
    ensures (forall i :: 0 <= i < |weights| ==> weights[i] >= 0.0) ==>
      0 <= r && r as real <= Sum(weights) && (|weights| > 0 ==> Sum(weights) - |weights| as real < r as real)
  {
    if |weights| == 0 then 0 else Truncate(WeightsSumAsWritten(weights[..|weights| - 1]) as real + weights[|weights| - 1])
  }

  /**
   * The int running weight at iteration i: 0 at first, and after each
   * iteration it adds the weight of the index the loop has just moved to.
   * So for non-negative weights it approximates the sum of weights 1..i,
   * not of the weights 0..i-1 before part i, losing less than one per
   * weight.
   */
  function WeightAccAsWritten(weights: seq<real>, i: nat): (r: int)
    requires i < |weights|
    ensures (forall k :: 0 <= k < |weights| ==> weights[k] >= 0.0) ==>
      0 <= r && r as real <= Sum(weights[1..i + 1]) && (i > 0 ==> Sum(weights[1..i + 1]) - i as real < r as real)
  {
    if i == 0 then 0
    else
      assert weights[1..i + 1][..i - 1] == weights[1..i];
      Truncate(WeightAccAsWritten(weights, i - 1) as real + weights[i])
  }

  /**
   * splitSegmentWeighted as written; None when the truncated weight sum is
   * zero, where every division by it yields no finite geometry.
   */
  function SplitSegmentAsWritten(line: Segment, weights: seq<real>, gap: int): (r: Option<seq<Segment>>)
    ensures r.None? <==> |weights| > 0 && WeightsSumAsWritten(weights) == 0
    ensures r.Some? ==> |r.value| == |weights|
  {
    var sum := WeightsSumAsWritten(weights);
    if |weights| > 0 && sum == 0 then None
    else
      var avail := Available(line, |weights|, gap);
      Some(seq(|weights|, i requires 0 <= i < |weights| =>
        Segment(line.begin + ((avail * WeightAccAsWritten(weights, i)) as real / sum as real + (i * gap) as real).Floor,
                (avail as real * weights[i] / sum as real).Floor)))
  }

  /**
   * The weights of the splitter's own unit check, a quarter, a quarter and
   * a half of a 100 px line: as written their truncated sum is 0 and there
   * is no finite split, while the TypeScript split gives the expected
   * [0, 25], [25, 25], [50, 50].
   */
  lemma SplitSegmentAsWrittenLosesFractions()
    ensures WeightsSumAsWritten([0.25, 0.25, 0.5]) == 0
    ensures SplitSegmentAsWritten(Segment(0, 100), [0.25, 0.25, 0.5], 0).None?
    ensures Sum([0.25, 0.25, 0.5]) == 1.0
    ensures SplitWeighted(Segment(0, 100), [0.25, 0.25, 0.5], 0) == [Segment(0, 25), Segment(25, 25), Segment(50, 50)]
  {
    QuartersSumAsWritten();
    QuartersSplit();
  }

  lemma QuartersSumAsWritten()
    ensures WeightsSumAsWritten([0.25, 0.25, 0.5]) == 0
  {
    var w := [0.25, 0.25, 0.5];
    assert w[..2] == [0.25, 0.25] && w[..2][..1] == [0.25] && w[..2][..1][..0] == [];
    assert WeightsSumAsWritten(w[..2][..1]) == 0;
    assert WeightsSumAsWritten(w[..2]) == 0;
  }

  lemma QuartersSplit()
    ensures Sum([0.25, 0.25, 0.5]) == 1.0
    ensures SplitWeighted(Segment(0, 100), [0.25, 0.25, 0.5], 0) == [Segment(0, 25), Segment(25, 25), Segment(50, 50)]
  {
    var w := [0.25, 0.25, 0.5];
    SumThree(0.25, 0.25, 0.5);
    var parts := SplitWeighted(Segment(0, 100), w, 0);
    assert w[..1] == [0.25] && w[..0] == [];
    assert Sum(w[..1]) == 0.25;
    assert Sum(w[..2]) == 0.5;
    assert parts[0] == Segment(0, 25);
    assert parts[1] == Segment(25, 25);
    assert parts[2] == Segment(50, 50);
  }

  /**
   * With whole weights the sum survives, but part 1 of [1, 2] on a 90 px
   * line starts after part 2's weight: at 60 instead of 30, so it runs
   * 30 px past the line's end.
   */
  lemma SplitSegmentAsWrittenShiftsParts()
    ensures var r := SplitSegmentAsWritten(Segment(0, 90), [1.0, 2.0], 0);
      r.Some? && r.value == [Segment(0, 30), Segment(60, 60)] && r.value[1].End() == 90 + 30
    ensures Sum([1.0, 2.0]) == 3.0
    ensures SplitWeighted(Segment(0, 90), [1.0, 2.0], 0) == [Segment(0, 30), Segment(30, 60)]
  {
    OneTwoAsWritten();
    OneTwoSplit();
  }

  lemma OneTwoAsWritten()
    ensures SplitSegmentAsWritten(Segment(0, 90), [1.0, 2.0], 0) == Some([Segment(0, 30), Segment(60, 60)])
  {
    var w := [1.0, 2.0];
    assert w[..1] == [1.0] && w[..1][..0] == [];
    assert WeightsSumAsWritten(w[..1]) == 1;
    assert WeightsSumAsWritten(w) == 3;
    assert WeightAccAsWritten(w, 1) == 2;
    var r := SplitSegmentAsWritten(Segment(0, 90), w, 0);
    assert r.Some?;
    assert r.value[0] == Segment(0, 30);
    assert r.value[1] == Segment(60, 60);
    assert r.value == [Segment(0, 30), Segment(60, 60)];
  }

  lemma OneTwoSplit()
    ensures Sum([1.0, 2.0]) == 3.0
    ensures SplitWeighted(Segment(0, 90), [1.0, 2.0], 0) == [Segment(0, 30), Segment(30, 60)]
  {
    var w := [1.0, 2.0];
    SumPair(1.0, 2.0);
    assert w[..1] == [1.0] && w[..0] == [];
    assert Sum(w[..1]) == 1.0;
  }
}
