/**
 The delay race of `HybridPUFSimulator._delay_response` (app/hardware/puf/simulator.py). The
 delays drawn for a stage are inputs: the first feeds the upper path, the second the lower.
 */
module ArbiterRace {
  import opened Numbers

  type Delays = seq<(real, real)>

  function Crossings(pattern: string): nat {
    if pattern == "" then 0 else (if pattern[0] == '0' then 0 else 1) + Crossings(pattern[1..])
  }

  function Sign(crossings: nat): real {
    if crossings % 2 == 0 then 1.0 else -1.0
  }

  /** The additive delay model: every stage's difference, signed by the parity of the crossings
      in later stages. */
  function SignedSum(pattern: string, delays: Delays): real
    requires |pattern| == |delays|
  {
    if pattern == "" then 0.0
    else Sign(Crossings(pattern[1..])) * (delays[0].0 - delays[0].1) + SignedSum(pattern[1..], delays[1..])
  }

  function TotalDelay(delays: Delays): real {
    if delays == [] then 0.0 else delays[0].0 + delays[0].1 + TotalDelay(delays[1..])
  }

  lemma {:induction false} CrossingsSnoc(pattern: string, c: char)
    ensures Crossings(pattern + [c]) == Crossings(pattern) + if c == '0' then 0 else 1
  {
    if pattern == "" {
    } else {
      CrossingsSnoc(pattern[1..], c);
      assert (pattern + [c])[1..] == pattern[1..] + [c];
    }
  }

  lemma {:induction false} SignedSumSnoc(pattern: string, delays: Delays, c: char, d: (real, real))
    requires |pattern| == |delays|
    ensures SignedSum(pattern + [c], delays + [d])
      == (if c == '0' then SignedSum(pattern, delays) else -SignedSum(pattern, delays)) + (d.0 - d.1)
  {
    if pattern == "" {
      assert (pattern + [c])[1..] == "" && (delays + [d])[1..] == [];
      assert SignedSum("", []) == 0.0;
    } else {
      SignedSumSnoc(pattern[1..], delays[1..], c, d);
      CrossingsSnoc(pattern[1..], c);
      assert (pattern + [c])[1..] == pattern[1..] + [c] && (delays + [d])[1..] == delays[1..] + [d];
      assert Sign(Crossings(pattern[1..] + [c]))
        == if c == '0' then Sign(Crossings(pattern[1..])) else -Sign(Crossings(pattern[1..]));
    }
  }

  lemma {:induction false} TotalDelaySnoc(delays: Delays, d: (real, real))
    ensures TotalDelay(delays + [d]) == TotalDelay(delays) + d.0 + d.1
  {
    if delays == [] {
      assert (delays + [d])[1..] == [];
    } else {
      TotalDelaySnoc(delays[1..], d);
      assert (delays + [d])[1..] == delays[1..] + [d];
    }
  }

  /** Swapping the paths stage by stage amounts to the signed sum; no delay is lost. */
  method Race(pattern: string, delays: Delays) returns (upper: real, lower: real)
    requires |pattern| == |delays|
    ensures upper - lower == SignedSum(pattern, delays)
    ensures upper + lower == TotalDelay(delays)
  {
    upper, lower := 0.0, 0.0;
    for i := 0 to |pattern|
      invariant upper - lower == SignedSum(pattern[..i], delays[..i])
      invariant upper + lower == TotalDelay(delays[..i])
    {
      assert pattern[..i + 1] == pattern[..i] + [pattern[i]] && delays[..i + 1] == delays[..i] + [delays[i]];
      SignedSumSnoc(pattern[..i], delays[..i], pattern[i], delays[i]);
      TotalDelaySnoc(delays[..i], delays[i]);
      if pattern[i] == '0' {
        upper := upper + delays[i].0;
        lower := lower + delays[i].1;
      } else {
        var newUpper := lower + delays[i].0;
        var newLower := upper + delays[i].1;
        upper, lower := newUpper, newLower;
      }
    }
    assert pattern[..|pattern|] == pattern && delays[..|delays|] == delays;
  }

  /** One response bit and margin per pattern; the upper path wins ties. */
  method DelayResponse(patterns: seq<string>, delays: seq<Delays>, jitter: seq<real>, nominalTotal: real)
    returns (bits: string, margins: seq<real>)
    requires |delays| == |patterns| == |jitter|
    requires forall k :: 0 <= k < |patterns| ==> |patterns[k]| == |delays[k]|
    ensures |bits| == |margins| == |patterns|
    ensures forall k :: 0 <= k < |patterns| ==>
      bits[k] == if SignedSum(patterns[k], delays[k]) + jitter[k] <= 0.0 then '1' else '0'
    ensures forall k :: 0 <= k < |patterns| ==>
      margins[k] == AbsReal(SignedSum(patterns[k], delays[k]) + jitter[k]) / MaxReal(nominalTotal, 0.000000000001)
  {
    bits, margins := "", [];
    for k := 0 to |patterns|
      invariant |bits| == |margins| == k
      invariant forall j :: 0 <= j < k ==>
        bits[j] == if SignedSum(patterns[j], delays[j]) + jitter[j] <= 0.0 then '1' else '0'
      invariant forall j :: 0 <= j < k ==>
        margins[j] == AbsReal(SignedSum(patterns[j], delays[j]) + jitter[j]) / MaxReal(nominalTotal, 0.000000000001)
    {
      var upper, lower := Race(patterns[k], delays[k]);
      var difference := upper - lower + jitter[k];
      bits := bits + [if difference <= 0.0 then '1' else '0'];
      margins := margins + [AbsReal(difference) / MaxReal(nominalTotal, 0.000000000001)];
    }
  }

  /** Crossing the last stage as well, with its two delays exchanged, reverses the race. */
  lemma LastCrossingReverses(pattern: string, delays: Delays, d: (real, real))
    requires |pattern| == |delays|
    ensures SignedSum(pattern + ['1'], delays + [(d.1, d.0)]) == -SignedSum(pattern + ['0'], delays + [d])
  {
    SignedSumSnoc(pattern, delays, '1', (d.1, d.0));
    SignedSumSnoc(pattern, delays, '0', d);
  }
}
