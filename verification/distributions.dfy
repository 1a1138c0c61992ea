/** `getVariantDistributions`: reads the traffic share of each arm's slider
    and reports the shares, whether they differ, and the smallest one. */
module Distributions {
  import opened Numerics
  import opened TrafficSplit

  /** A slider's value; the range input keeps it within 1..99. */
  type SliderValue = v: int | MinShare <= v <= MaxShare witness MinShare

  /** The shares of all arms (empty when a slider is missing), whether any
      arm's share differs from the first one read, and the smallest share
      read (1 when none was). */
  datatype DistributionInfo = DistributionInfo(distributions: seq<real>, isUnequal: bool, lowestPercentage: real)

  /** A slider percentage as a fraction of the traffic. */
  function Fraction(v: int): real {
    v as real / 100.0
  }

  /** The fractions of the sliders that exist, in arm order. */
  function Present(sliders: seq<Option<SliderValue>>): seq<real> {
    if |sliders| == 0 then []
    else
      Present(sliders[..|sliders| - 1])
      + (if sliders[|sliders| - 1].Some? then [Fraction(sliders[|sliders| - 1].value)] else [])
  }

  /** The value of the first slider that exists. */
  function FirstPresent(sliders: seq<Option<SliderValue>>): Option<SliderValue> {
    if |sliders| == 0 then None
    else
      var earlier := FirstPresent(sliders[..|sliders| - 1]);
      if earlier.Some? then earlier else sliders[|sliders| - 1]
  }

  predicate AllPresent(sliders: seq<Option<SliderValue>>) {
    forall i :: 0 <= i < |sliders| ==> sliders[i].Some?
  }

  /** As many fractions as sliders exactly when every slider exists, and
      then the i-th fraction is the i-th slider's. */
  lemma {:induction false} PresentLength(sliders: seq<Option<SliderValue>>)
    ensures |Present(sliders)| <= |sliders|
    ensures |Present(sliders)| == |sliders| <==> AllPresent(sliders)
    ensures AllPresent(sliders) ==> forall i :: 0 <= i < |sliders| ==> Present(sliders)[i] == Fraction(sliders[i].value)
  {
    if |sliders| > 0 {
      var init := sliders[..|sliders| - 1];
      PresentLength(init);
      assert forall i :: 0 <= i < |init| ==> init[i] == sliders[i];
      if AllPresent(sliders) {
        assert AllPresent(init);
      }
    }
  }

  /** The first existing slider is found among the first i + 1 once it is
      found among the first i. */
  lemma FirstPresentExtends(sliders: seq<Option<SliderValue>>, i: int)
    requires 0 <= i < |sliders|
    ensures FirstPresent(sliders[..i + 1])
         == if FirstPresent(sliders[..i]).Some? then FirstPresent(sliders[..i]) else sliders[i]
  {
    assert sliders[..i + 1][..i] == sliders[..i];
  }

  /** A slider that exists is preceded by, or is, the first one that exists. */
  lemma {:induction false} FirstPresentExists(sliders: seq<Option<SliderValue>>, j: int)
    requires 0 <= j < |sliders| && sliders[j].Some?
    ensures FirstPresent(sliders).Some?
  {
    if j < |sliders| - 1 {
      FirstPresentExists(sliders[..|sliders| - 1], j);
    }
  }

  /** `getVariantDistributions` over the arms' sliders, `None` where the
      slider is missing. */
  method VariantDistributions(sliders: seq<Option<SliderValue>>) returns (info: DistributionInfo)
    ensures info.distributions == if AllPresent(sliders) then Present(sliders) else []
    ensures AllPresent(sliders) ==>
              (|info.distributions| == |sliders|
               && forall i :: 0 <= i < |sliders| ==> info.distributions[i] == Fraction(sliders[i].value))
    ensures 0.0 < info.lowestPercentage <= 1.0
    ensures forall i :: 0 <= i < |sliders| && sliders[i].Some? ==> info.lowestPercentage <= Fraction(sliders[i].value)
    ensures info.lowestPercentage == 1.0
         || exists i :: 0 <= i < |sliders| && sliders[i].Some? && info.lowestPercentage == Fraction(sliders[i].value)
    ensures info.isUnequal <==>
              exists i :: 0 < i < |sliders| && sliders[i].Some? && sliders[i] != FirstPresent(sliders)
  {
    var shares: seq<real> := [];
    var unequal := false;
    var lowest := 1.0;
    for i := 0 to |sliders|
      invariant shares == Present(sliders[..i])
      invariant |shares| > 0 <==> FirstPresent(sliders[..i]).Some?
      invariant |shares| > 0 ==> shares[0] == Fraction(FirstPresent(sliders[..i]).value)
      invariant unequal <==>
                  exists j :: 0 < j < i && sliders[j].Some? && sliders[j] != FirstPresent(sliders[..i])
      invariant 0.0 < lowest <= 1.0
      invariant forall j :: 0 <= j < i && sliders[j].Some? ==> lowest <= Fraction(sliders[j].value)
      invariant lowest == 1.0 || exists j :: 0 <= j < i && sliders[j].Some? && lowest == Fraction(sliders[j].value)
    {
      assert sliders[..i + 1][..i] == sliders[..i];
      FirstPresentExtends(sliders, i);
      if FirstPresent(sliders[..i]).None? {
        forall j | 0 <= j < i && sliders[j].Some?
          ensures false
        {
          assert sliders[..i][j] == sliders[j];
          FirstPresentExists(sliders[..i], j);
        }
      }
      if sliders[i].Some? {
        var percentage := Fraction(sliders[i].value);
        shares := shares + [percentage];
        if i > 0 && percentage != shares[0] {
          unequal := true;
        }
        if percentage < lowest {
          lowest := percentage;
        }
      }
    }
    assert sliders[..|sliders|] == sliders;
    PresentLength(sliders);
    info := DistributionInfo(if |shares| == |sliders| then shares else [], unequal, lowest);
  }
}
