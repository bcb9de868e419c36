/** The exchange shuffle of `DeterministicPRNG.shuffle`, for any sequence of targets. */
module FisherYates {

  function Swap<T>(values: seq<T>, i: nat, j: nat): (r: seq<T>)
    requires i < |values| && j < |values|
    ensures |r| == |values|
  {
    values[i := values[j]][j := values[i]]
  }

  lemma SwapPermutes<T>(values: seq<T>, i: nat, j: nat)
    requires i < |values| && j < |values|
    ensures multiset(Swap(values, i, j)) == multiset(values)
  {
  }

  /** One target for each index from the last down to one, none above its index. */
  predicate Targets(targets: seq<nat>, n: nat) {
    |targets| == (if n == 0 then 0 else n - 1) && forall k :: 0 <= k < |targets| ==> targets[k] <= n - 1 - k
  }

  /** Exchanges the last value with its target, then shuffles the rest. */
  function Apply<T>(values: seq<T>, targets: seq<nat>): (r: seq<T>)
    requires Targets(targets, |values|)
    ensures |r| == |values|
    decreases |values|
  {
    if |values| <= 1 then values
    else
      var last := |values| - 1;
      var swapped := Swap(values, last, targets[0]);
      Apply(swapped[..last], targets[1..]) + [swapped[last]]
  }

  lemma SplitLast<T>(s: seq<T>)
    requires s != []
    ensures multiset(s) == multiset(s[..|s| - 1]) + multiset{s[|s| - 1]}
  {
    assert s == s[..|s| - 1] + [s[|s| - 1]];
  }

  /** A shuffle permutes. */
  lemma {:induction false} ApplyPermutes<T>(values: seq<T>, targets: seq<nat>)
    requires Targets(targets, |values|)
    ensures multiset(Apply(values, targets)) == multiset(values)
    decreases |values|
  {
    if |values| <= 1 {
    } else {
      var last := |values| - 1;
      var swapped := Swap(values, last, targets[0]);
      ApplyPermutes(swapped[..last], targets[1..]);
      SwapPermutes(values, last, targets[0]);
      SplitLast(swapped);
    }
  }

  predicate Distinct<T(==)>(values: seq<T>) {
    forall i, j :: 0 <= i < j < |values| ==> values[i] != values[j]
  }

  lemma SwapDistinct<T>(values: seq<T>, j: nat)
    requires values != [] && j < |values| && Distinct(values)
    ensures Distinct(Swap(values, |values| - 1, j)[..|values| - 1])
  {
  }

  /** Different targets give different orders of distinct values. */
  lemma {:induction false} ApplyInjective<T>(values: seq<T>, a: seq<nat>, b: seq<nat>)
    requires Distinct(values) && Targets(a, |values|) && Targets(b, |values|)
    requires Apply(values, a) == Apply(values, b)
    ensures a == b
    decreases |values|
  {
    if |values| <= 1 {
    } else {
      var last := |values| - 1;
      var left, right := Swap(values, last, a[0]), Swap(values, last, b[0]);
      var p, q := Apply(left[..last], a[1..]), Apply(right[..last], b[1..]);
      assert Apply(values, a)[last] == left[last] == values[a[0]];
      assert Apply(values, b)[last] == right[last] == values[b[0]];
      assert a[0] == b[0];
      assert p == Apply(values, a)[..last] && q == Apply(values, b)[..last];
      SwapDistinct(values, a[0]);
      ApplyInjective(left[..last], a[1..], b[1..]);
      assert a == [a[0]] + a[1..] && b == [b[0]] + b[1..];
    }
  }

  function IndexIn<T(==)>(values: seq<T>, x: T): (k: nat)
    requires x in multiset(values)
    ensures k < |values| && values[k] == x
  {
    if values[0] == x then 0
    else
      assert values == [values[0]] + values[1..];
      1 + IndexIn(values[1..], x)
  }

  lemma TargetsCons(target: nat, rest: seq<nat>, n: nat)
    requires n > 1 && target < n && Targets(rest, n - 1)
    ensures Targets([target] + rest, n)
  {
  }

  lemma ApplyCons<T>(values: seq<T>, target: nat, rest: seq<nat>)
    requires |values| > 1 && target < |values| && Targets(rest, |values| - 1)
    ensures Targets([target] + rest, |values|)
    ensures var last := |values| - 1;
      Apply(values, [target] + rest) == Apply(Swap(values, last, target)[..last], rest) + [values[target]]
  {
    TargetsCons(target, rest, |values|);
    assert ([target] + rest)[1..] == rest;
  }

  lemma CancelOne<T>(a: multiset<T>, b: multiset<T>, x: T)
    requires a + multiset{x} == b + multiset{x}
    ensures a == b
  {
    assert a == (a + multiset{x}) - multiset{x} && b == (b + multiset{x}) - multiset{x};
  }

  /** Once the wanted last value has been exchanged into place, the rest is still wanted. */
  lemma RestStillWanted<T>(values: seq<T>, wanted: seq<T>, target: nat)
    requires values != [] && wanted != [] && target < |values|
    requires multiset(values) == multiset(wanted) && values[target] == wanted[|wanted| - 1]
    ensures multiset(Swap(values, |values| - 1, target)[..|values| - 1]) == multiset(wanted[..|wanted| - 1])
  {
    var swapped := Swap(values, |values| - 1, target);
    SwapPermutes(values, |values| - 1, target);
    SplitLast(swapped);
    SplitLast(wanted);
    CancelOne(multiset(swapped[..|values| - 1]), multiset(wanted[..|wanted| - 1]), wanted[|wanted| - 1]);
  }

  lemma SameSize<T>(a: seq<T>, b: seq<T>)
    requires multiset(a) == multiset(b)
    ensures |a| == |b|
  {
    assert |multiset(a)| == |a| && |multiset(b)| == |b|;
  }

  lemma SameSingleton<T>(values: seq<T>, wanted: seq<T>)
    requires multiset(values) == multiset(wanted) && |values| == |wanted| <= 1
    ensures values == wanted
  {
    if values != [] {
      assert wanted[0] in multiset(values);
    }
  }

  lemma LastWanted<T>(values: seq<T>, wanted: seq<T>)
    requires multiset(values) == multiset(wanted) && wanted != []
    ensures wanted[|wanted| - 1] in multiset(values)
  {
    assert wanted[|wanted| - 1] in multiset(wanted);
  }

  /** The targets that lead from one order to another. */
  lemma {:induction false} ApplySurjective<T>(values: seq<T>, wanted: seq<T>) returns (targets: seq<nat>)
    requires multiset(values) == multiset(wanted)
    ensures Targets(targets, |values|) && Apply(values, targets) == wanted
    decreases |values|
  {
    SameSize(values, wanted);
    if |values| <= 1 {
      targets := [];
      SameSingleton(values, wanted);
    } else {
      var last := |values| - 1;
      LastWanted(values, wanted);
      var target := IndexIn(values, wanted[last]);
      RestStillWanted(values, wanted, target);
      var rest := ApplySurjective(Swap(values, last, target)[..last], wanted[..last]);
      ApplyCons(values, target, rest);
      targets := [target] + rest;
      assert wanted == wanted[..last] + [wanted[last]];
    }
  }

  /** On distinct values every permutation comes from exactly one sequence of targets. */
  lemma EachPermutationOnce<T>(values: seq<T>, wanted: seq<T>) returns (targets: seq<nat>)
    requires Distinct(values) && multiset(values) == multiset(wanted)
    ensures Targets(targets, |values|) && Apply(values, targets) == wanted
    ensures forall other :: Targets(other, |values|) && Apply(values, other) == wanted ==> other == targets
  {
    targets := ApplySurjective(values, wanted);
    forall other | Targets(other, |values|) && Apply(values, other) == wanted ensures other == targets {
      ApplyInjective(values, other, targets);
    }
  }
}
