/**
 Majority voting, reliability masks and masked Hamming distances of
 app/hardware/puf/stability.py, with real numbers for floats.
 */
module Stability {
  import opened Wrappers
  import opened Numbers
  import opened PufCrypto

  /*** Counting ***/

  /** How many samples differ from `bit` at position `j`. */
  function Disagree(samples: seq<string>, j: nat, bit: char): (n: nat)
    requires forall s :: s in samples ==> j < |s|
    ensures n <= |samples|
  {
    if samples == [] then 0
    else
      assert forall s :: s in samples[1..] ==> s in samples;
      (if samples[0][j] != bit then 1 else 0) + Disagree(samples[1..], j, bit)
  }

  predicate SameWidth(samples: seq<string>, width: nat) {
    forall i :: 0 <= i < |samples| ==> |samples[i]| == width && IsBinary(samples[i])
  }

  /** The selected positions, among the first `n`, at which two texts differ. */
  function Distance(a: string, b: string, mask: string, n: nat): (d: nat)
    requires n <= |mask| && |a| == |b| == |mask|
    ensures d <= Selected(mask, n)
  {
    if n == 0 then 0
    else Distance(a, b, mask, n - 1) + (if mask[n - 1] == '1' && a[n - 1] != b[n - 1] then 1 else 0)
  }

  function Selected(mask: string, n: nat): (k: nat)
    requires n <= |mask|
    ensures k <= n
  {
    if n == 0 then 0 else Selected(mask, n - 1) + (if mask[n - 1] == '1' then 1 else 0)
  }

  /** The distances of all samples to one reference, added up. */
  function TotalDistance(samples: seq<string>, reference: string, mask: string, n: nat): nat
    requires SameWidth(samples, |mask|) && |reference| == |mask| && n <= |mask|
  {
    if samples == [] then 0
    else Distance(reference, samples[0], mask, n) + TotalDistance(samples[1..], reference, mask, n)
  }

  /** The same sum by positions. */
  function ColumnSum(samples: seq<string>, reference: string, mask: string, n: nat): nat
    requires SameWidth(samples, |mask|) && |reference| == |mask| && n <= |mask|
  {
    if n == 0 then 0
    else ColumnSum(samples, reference, mask, n - 1)
         + (if mask[n - 1] == '1' then Disagree(samples, n - 1, reference[n - 1]) else 0)
  }

  lemma {:induction false} ColumnSumCons(samples: seq<string>, reference: string, mask: string, n: nat)
    requires samples != [] && SameWidth(samples, |mask|) && |reference| == |mask| && n <= |mask|
    ensures ColumnSum(samples, reference, mask, n)
      == Distance(reference, samples[0], mask, n) + ColumnSum(samples[1..], reference, mask, n)
  {
    if n == 0 {
    } else {
      ColumnSumCons(samples, reference, mask, n - 1);
    }
  }

  lemma {:induction false} NoSamplesNoColumns(reference: string, mask: string, n: nat)
    requires |reference| == |mask| && n <= |mask|
    ensures ColumnSum([], reference, mask, n) == 0
  {
    if n == 0 {
    } else {
      NoSamplesNoColumns(reference, mask, n - 1);
    }
  }

  /** Counting disagreements by sample or by position gives the same number. */
  lemma {:induction false} TotalIsColumnSum(samples: seq<string>, reference: string, mask: string, n: nat)
    requires SameWidth(samples, |mask|) && |reference| == |mask| && n <= |mask|
    ensures TotalDistance(samples, reference, mask, n) == ColumnSum(samples, reference, mask, n)
  {
    if samples == [] {
      NoSamplesNoColumns(reference, mask, n);
    } else {
      TotalIsColumnSum(samples[1..], reference, mask, n);
      ColumnSumCons(samples, reference, mask, n);
    }
  }

  /*** The vote ***/

  function Ones(samples: seq<string>, j: nat): nat
    requires forall s :: s in samples ==> j < |s|
  {
    Disagree(samples, j, '0')
  }

  /** Ties go to zero. */
  function VoteAt(samples: seq<string>, j: nat): char
    requires forall s :: s in samples ==> j < |s|
  {
    if 2 * Ones(samples, j) > |samples| then '1' else '0'
  }

  /** The share of samples that agree with the vote. */
  function ReliabilityAt(samples: seq<string>, j: nat): real
    requires samples != [] && forall s :: s in samples ==> j < |s|
  {
    MaxInt(Ones(samples, j), |samples| - Ones(samples, j)) as real / |samples| as real
  }

  predicate Votable(samples: seq<string>) {
    samples != [] && |samples[0]| > 0 && SameWidth(samples, |samples[0]|)
  }

  method MajorityVote(samples: seq<string>) returns (r: Result<(string, seq<real>)>)
    ensures r.Err? ==> r.error == ValueError
    ensures r.Ok? <==> Votable(samples)
    ensures r.Ok? ==> |r.value.0| == |samples[0]| == |r.value.1|
    ensures r.Ok? ==> forall j :: 0 <= j < |samples[0]| ==>
      r.value.0[j] == VoteAt(samples, j) && r.value.1[j] == ReliabilityAt(samples, j)
  {
    if samples == [] {
      return Err(ValueError);
    }
    var width := |samples[0]|;
    if width == 0 || exists i :: 0 <= i < |samples| && |samples[i]| != width {
      return Err(ValueError);
    }
    if exists i :: 0 <= i < |samples| && !IsBinary(samples[i]) {
      return Err(ValueError);
    }
    var voted: string, reliability: seq<real> := "", [];
    for index := 0 to width
      invariant |voted| == |reliability| == index
      invariant forall j :: 0 <= j < index ==>
        voted[j] == VoteAt(samples, j) && reliability[j] == ReliabilityAt(samples, j)
    {
      var ones := Ones(samples, index);
      var zeros := |samples| - ones;
      voted := voted + [if ones > zeros then '1' else '0'];
      reliability := reliability + [MaxInt(ones, zeros) as real / |samples| as real];
    }
    return Ok((voted, reliability));
  }

  predicate IsVote(samples: seq<string>, voted: string) {
    Votable(samples) && |voted| == |samples[0]| && forall j :: 0 <= j < |voted| ==> voted[j] == VoteAt(samples, j)
  }

  lemma {:induction false} BothBits(samples: seq<string>, j: nat)
    requires forall s :: s in samples ==> j < |s| && IsBinary(s)
    ensures Disagree(samples, j, '0') + Disagree(samples, j, '1') == |samples|
  {
    if samples == [] {
    } else {
      assert samples[0] in samples;
      BothBits(samples[1..], j);
    }
  }

  /** The vote has the fewest disagreements, and its reliability is the share that agrees. */
  lemma VoteDisagreesLeast(samples: seq<string>, j: nat, bit: char)
    requires Votable(samples) && j < |samples[0]|
    ensures bit == '0' || bit == '1' ==> Disagree(samples, j, VoteAt(samples, j)) <= Disagree(samples, j, bit)
    ensures ReliabilityAt(samples, j)
      == (|samples| - Disagree(samples, j, VoteAt(samples, j))) as real / |samples| as real
  {
    BothBits(samples, j);
  }

  /** No binary reference is closer to the samples as a whole than the majority vote. */
  lemma {:induction false} VoteMinimisesColumns(samples: seq<string>, voted: string, other: string, mask: string,
                                                n: nat)
    requires IsVote(samples, voted) && |other| == |mask| == |voted| && IsBinary(other) && n <= |mask|
    ensures ColumnSum(samples, voted, mask, n) <= ColumnSum(samples, other, mask, n)
  {
    if n == 0 {
    } else {
      VoteMinimisesColumns(samples, voted, other, mask, n - 1);
      VoteDisagreesLeast(samples, n - 1, other[n - 1]);
    }
  }

  lemma VoteMinimisesTotalDistance(samples: seq<string>, voted: string, other: string, mask: string)
    requires IsVote(samples, voted) && |other| == |mask| == |voted| && IsBinary(other)
    ensures TotalDistance(samples, voted, mask, |mask|) <= TotalDistance(samples, other, mask, |mask|)
  {
    TotalIsColumnSum(samples, voted, mask, |mask|);
    TotalIsColumnSum(samples, other, mask, |mask|);
    VoteMinimisesColumns(samples, voted, other, mask, |mask|);
  }

  /*** Masks ***/

  function ReliabilityMask(reliability: seq<real>, minimum: real): (r: Result<string>)
    ensures r.Ok? <==> 0.5 <= minimum <= 1.0
    ensures r.Ok? ==> |r.value| == |reliability|
    ensures r.Ok? ==>
      forall j :: 0 <= j < |reliability| ==> r.value[j] == if reliability[j] >= minimum then '1' else '0'
  {
    if !(0.5 <= minimum <= 1.0) then Err(ValueError)
    else Ok(seq(|reliability|, j requires 0 <= j < |reliability| => if reliability[j] >= minimum then '1' else '0'))
  }

  function CombineMasks(masks: seq<string>): (r: Result<string>)
    ensures r.Ok? <==> masks != [] && forall i :: 0 <= i < |masks| ==> |masks[i]| == |masks[0]|
    ensures r.Ok? ==> |r.value| == |masks[0]| && IsBinary(r.value)
    ensures r.Ok? ==> forall j :: 0 <= j < |r.value| ==>
      (r.value[j] == '1' <==> forall i :: 0 <= i < |masks| ==> masks[i][j] == '1')
  {
    if masks == [] then Err(ValueError)
    else if exists i :: 0 <= i < |masks| && |masks[i]| != |masks[0]| then Err(ValueError)
    else
      Ok(seq(|masks[0]|, j requires 0 <= j < |masks[0]| && forall i :: 0 <= i < |masks| ==> |masks[i]| == |masks[0]| =>
        if forall i :: 0 <= i < |masks| ==> masks[i][j] == '1' then '1' else '0'))
  }

  predicate Rectangle(rows: seq<seq<real>>, width: nat) {
    rows != [] && forall i :: 0 <= i < |rows| ==> |rows[i]| == width
  }

  /** The least of the first `n` rows at position `j`. */
  function LeastAt(rows: seq<seq<real>>, j: nat, n: nat): real
    requires 0 < n <= |rows| && forall i :: 0 <= i < |rows| ==> j < |rows[i]|
  {
    if n == 1 then rows[0][j] else MinReal(LeastAt(rows, j, n - 1), rows[n - 1][j])
  }

  lemma {:induction false} LeastAtMeets(rows: seq<seq<real>>, j: nat, n: nat, minimum: real)
    requires 0 < n <= |rows| && forall i :: 0 <= i < |rows| ==> j < |rows[i]|
    ensures LeastAt(rows, j, n) >= minimum <==> forall i :: 0 <= i < n ==> rows[i][j] >= minimum
  {
    if n == 1 {
    } else {
      LeastAtMeets(rows, j, n - 1, minimum);
    }
  }

  function LeastRow(rows: seq<seq<real>>, width: nat): seq<real>
    requires Rectangle(rows, width)
  {
    seq(width, j requires 0 <= j < width && Rectangle(rows, width) => LeastAt(rows, j, |rows|))
  }

  function MasksOf(rows: seq<seq<real>>, minimum: real): (masks: seq<string>)
    requires 0.5 <= minimum <= 1.0
    ensures |masks| == |rows|
    ensures forall i :: 0 <= i < |rows| ==> masks[i] == ReliabilityMask(rows[i], minimum).value
  {
    seq(|rows|, i requires 0 <= i < |rows| && 0.5 <= minimum <= 1.0 => ReliabilityMask(rows[i], minimum).value)
  }

  /** Masking each row and combining the masks selects what masking the pointwise least row does, so
      a bit is kept exactly when it is reliable in every row. */
  lemma MasksCombineToMaskOfLeast(rows: seq<seq<real>>, width: nat, minimum: real)
    requires Rectangle(rows, width) && 0.5 <= minimum <= 1.0
    ensures CombineMasks(MasksOf(rows, minimum)) == ReliabilityMask(LeastRow(rows, width), minimum)
  {
    var masks, least := MasksOf(rows, minimum), LeastRow(rows, width);
    var combined, mask := CombineMasks(masks).value, ReliabilityMask(least, minimum).value;
    forall j | 0 <= j < width ensures combined[j] == mask[j] {
      LeastAtMeets(rows, j, |rows|, minimum);
      assert forall i :: 0 <= i < |rows| ==> (masks[i][j] == '1' <==> rows[i][j] >= minimum);
    }
    assert combined == mask;
  }

  lemma {:induction false} FewerSelected(strict: string, lax: string, n: nat)
    requires n <= |strict| && |strict| == |lax|
    requires forall j :: 0 <= j < n && strict[j] == '1' ==> lax[j] == '1'
    ensures Selected(strict, n) <= Selected(lax, n)
  {
    if n == 0 {
    } else {
      FewerSelected(strict, lax, n - 1);
    }
  }

  /** A higher minimum never selects more bits. */
  lemma StricterSelectsFewer(reliability: seq<real>, low: real, high: real)
    requires 0.5 <= low <= high <= 1.0
    ensures Selected(ReliabilityMask(reliability, high).value, |reliability|)
      <= Selected(ReliabilityMask(reliability, low).value, |reliability|)
  {
    FewerSelected(ReliabilityMask(reliability, high).value, ReliabilityMask(reliability, low).value, |reliability|);
  }

  /** Combining masks never selects more bits than any one of them. */
  lemma CombinedSelectsFewer(masks: seq<string>, i: nat)
    requires CombineMasks(masks).Ok? && i < |masks|
    ensures Selected(CombineMasks(masks).value, |masks[0]|) <= Selected(masks[i], |masks[i]|)
  {
    FewerSelected(CombineMasks(masks).value, masks[i], |masks[0]|);
  }

  lemma ShareInUnit(part: nat, whole: nat)
    requires part <= whole && whole > 0
    ensures 0.0 <= part as real / whole as real <= 1.0
  {
    RatioBound(part as real, whole as real, 1.0);
  }

  /** `masked_hamming_distance`: the distance, the number of compared bits, and their ratio. */
  function MaskedHammingDistance(reference: string, observed: string, mask: string): (r: Result<(nat, nat, real)>)
    ensures r.Ok? <==> |reference| == |observed| == |mask| && Selected(mask, |mask|) > 0
    ensures r.Ok? ==> r.value.0 <= r.value.1 && 0.0 <= r.value.2 <= 1.0
  {
    if !(|reference| == |observed| == |mask|) then Err(ValueError)
    else
      var selected := Selected(mask, |mask|);
      if selected == 0 then Err(ValueError)
      else
        var distance := Distance(reference, observed, mask, |mask|);
        ShareInUnit(distance, selected);
        Ok((distance, selected, distance as real / selected as real))
  }

  lemma {:induction false} Triangle(r: string, a: string, b: string, mask: string, n: nat)
    requires |r| == |a| == |b| == |mask| && n <= |mask|
    ensures Distance(a, b, mask, n) <= Distance(r, a, mask, n) + Distance(r, b, mask, n)
  {
    if n == 0 {
    } else {
      Triangle(r, a, b, mask, n - 1);
    }
  }

  lemma RatioBound(distance: real, selected: real, ratio: real)
    requires selected > 0.0
    ensures distance / selected <= ratio <==> distance <= ratio * selected
    ensures distance / selected >= ratio <==> distance >= ratio * selected
  {
    var q := distance / selected;
    assert q * selected == distance;
    if q < ratio {
      assert (ratio - q) * selected > 0.0;
    } else if q > ratio {
      assert (q - ratio) * selected > 0.0;
    }
  }

  lemma SumOfRatios(d: real, d1: real, d2: real, selected: real, ratio: real)
    requires selected > 0.0 && d <= d1 + d2 && d1 / selected <= ratio && d2 / selected <= ratio
    ensures d / selected <= 2.0 * ratio
  {
    RatioBound(d1, selected, ratio);
    RatioBound(d2, selected, ratio);
    RatioBound(d, selected, 2.0 * ratio);
    assert 2.0 * ratio * selected == ratio * selected + ratio * selected;
  }

  /** Two responses within a ratio of one reference are within twice that ratio of each other. */
  lemma CloseToReferenceCloseTogether(reference: string, a: string, b: string, mask: string, ratio: real)
    requires MaskedHammingDistance(reference, a, mask).Ok? && MaskedHammingDistance(reference, b, mask).Ok?
    requires MaskedHammingDistance(reference, a, mask).value.2 <= ratio
    requires MaskedHammingDistance(reference, b, mask).value.2 <= ratio
    ensures MaskedHammingDistance(a, b, mask).Ok? && MaskedHammingDistance(a, b, mask).value.2 <= 2.0 * ratio
  {
    Triangle(reference, a, b, mask, |mask|);
    var d, n := Distance(a, b, mask, |mask|), |mask|;
    var d1, d2 := Distance(reference, a, mask, n), Distance(reference, b, mask, n);
    SumOfRatios(d as real, d1 as real, d2 as real, Selected(mask, |mask|) as real, ratio);
  }

  /*** Enrollment quality ***/

  /** `share` added `k` times, which keeps the sums below linear. */
  function Times(share: real, k: nat): (r: real)
  {
    if k == 0 then 0.0 else Times(share, k - 1) + share
  }

  lemma {:induction false} TimesIsProduct(share: real, k: nat)
    ensures Times(share, k) == share * k as real
  {
    if k == 0 {
    } else {
      TimesIsProduct(share, k - 1);
    }
  }

  lemma ShareBound(d: real, n: real, minimum: real)
    requires n > 0.0 && (n - d) / n >= minimum
    ensures d <= (1.0 - minimum) * n
  {
    var share := (n - d) / n;
    assert share * n == n - d;
    assert (share - minimum) * n >= 0.0;
    assert (1.0 - minimum) * n == n - minimum * n;
  }

  lemma FewDisagree(d: nat, n: nat, minimum: real)
    requires 0 < n && d <= n && (n - d) as real / n as real >= minimum
    ensures d as real <= Times(1.0 - minimum, n)
  {
    ShareBound(d as real, n as real, minimum);
    TimesIsProduct(1.0 - minimum, n);
  }

  lemma ReliableColumn(samples: seq<string>, voted: string, j: nat, minimum: real)
    requires IsVote(samples, voted) && j < |voted| && ReliabilityAt(samples, j) >= minimum
    ensures Disagree(samples, j, voted[j]) as real <= Times(1.0 - minimum, |samples|)
  {
    VoteDisagreesLeast(samples, j, '0');
    FewDisagree(Disagree(samples, j, voted[j]), |samples|, minimum);
  }

  lemma {:induction false} SharedColumns(samples: seq<string>, voted: string, mask: string, n: nat, share: real)
    requires SameWidth(samples, |mask|) && |mask| == |voted| && n <= |mask|
    requires forall j :: 0 <= j < n && mask[j] == '1' ==> Disagree(samples, j, voted[j]) as real <= share
    ensures ColumnSum(samples, voted, mask, n) as real <= Times(share, Selected(mask, n))
  {
    if n == 0 {
    } else {
      SharedColumns(samples, voted, mask, n - 1, share);
    }
  }

  /** When every selected bit is at least `minimum` reliable, the samples together differ from
      their vote in at most (1 - minimum) x samples x selected bits; TimesTimes gives the product. */
  lemma ReliableBitsBoundDistance(samples: seq<string>, voted: string, mask: string, minimum: real)
    requires IsVote(samples, voted) && |mask| == |voted|
    requires forall j :: 0 <= j < |mask| && mask[j] == '1' ==> ReliabilityAt(samples, j) >= minimum
    ensures TotalDistance(samples, voted, mask, |mask|) as real
      <= Times(Times(1.0 - minimum, |samples|), Selected(mask, |mask|))
  {
    ghost var share := Times(1.0 - minimum, |samples|);
    forall j | 0 <= j < |mask| && mask[j] == '1'
      ensures Disagree(samples, j, voted[j]) as real <= share
    {
      ReliableColumn(samples, voted, j, minimum);
    }
    SharedColumns(samples, voted, mask, |mask|, share);
    TotalIsColumnSum(samples, voted, mask, |mask|);
  }

  lemma TimesTimes(rate: real, n: nat, k: nat)
    ensures Times(Times(rate, n), k) == rate * n as real * k as real
  {
    TimesIsProduct(rate, n);
    TimesIsProduct(Times(rate, n), k);
  }

  /*** Clone likelihood ***/

  function CloneLikelihood(ratio: real, maximum: real): real {
    if ratio <= maximum then 0.0
    else MinReal(MaxReal((ratio - maximum) / MaxReal(0.5 - maximum, 0.000000001), 0.0), 1.0)
  }

  lemma LikelyCloneIffMismatch(ratio: real, maximum: real)
    ensures CloneLikelihood(ratio, maximum) > 0.0 <==> ratio > maximum
  {
    if ratio > maximum {
      RatioBound(ratio - maximum, MaxReal(0.5 - maximum, 0.000000001), 0.0);
    }
  }

  /** Zero exactly for accepted ratios, one exactly from a half on, and never falling between, for
      every threshold the configuration admits. */
  lemma CloneLikelihoodShape(ratio: real, higher: real, maximum: real)
    requires 0.0 <= maximum <= 0.49 && ratio <= higher
    ensures 0.0 <= CloneLikelihood(ratio, maximum) <= CloneLikelihood(higher, maximum) <= 1.0
    ensures CloneLikelihood(ratio, maximum) == 0.0 <==> ratio <= maximum
    ensures CloneLikelihood(ratio, maximum) == 1.0 <==> ratio >= 0.5
    ensures maximum <= ratio <= 0.5 ==> CloneLikelihood(ratio, maximum) * (0.5 - maximum) == ratio - maximum
  {
    var span := 0.5 - maximum;
    assert span >= 0.01;
    var p, q := (ratio - maximum) / span, (higher - maximum) / span;
    RatioBound(higher - maximum, span, p);
    RatioBound(ratio - maximum, span, p);
    RatioBound(ratio - maximum, span, 1.0);
    RatioBound(ratio - maximum, span, 0.0);
  }
}
