/**
 Risk fusion of app/ai/risk_engine/policy_fusion.py, the classification built on it, and the gate
 that app/integration/adapters.py puts behind it. Model scores are inputs. The controls are a
 dictionary in which an absent name counts as false.
 */
module PolicyFusion {
  import opened Numbers

  type Controls = map<string, bool>

  predicate Flag(c: Controls, name: string) {
    name in c && c[name]
  }

  const SBOM_MISMATCH := "sbom_mismatch"
  const CUSTODY_TAMPERED := "custody_tampered"

  const MANDATORY := [
    "puf_authenticated", "opentitan_verified", "digital_twin_verified", "hardware_ai_contract_complete"]

  datatype Scores = Scores(base: real, cnn: real, anomaly: real)

  datatype FusionReason = MandatoryControlFailed(name: string) | SbomMismatch | CustodyTampered

  datatype Classification = CLEAN | SUSPICIOUS | COMPROMISED

  predicate MandatoryPassed(c: Controls) {
    forall name :: name in MANDATORY ==> Flag(c, name)
  }

  function Clamp(x: real): (r: real)
    ensures 0.0 <= r <= 1.0
    ensures 0.0 <= x <= 1.0 ==> r == x
  {
    MaxReal(0.0, if x < 1.0 then x else 1.0)
  }

  function Weighted(s: Scores): real {
    0.45 * s.base + 0.30 * s.cnn + 0.25 * s.anomaly
  }

  /** The weighted score lies between the least and the greatest of the three. */
  lemma WeightedBetween(s: Scores, low: real, high: real)
    requires low <= s.base <= high && low <= s.cnn <= high && low <= s.anomaly <= high
    ensures low <= Weighted(s) <= high
  {
  }

  /** How far each model alone decides when the other two are certain of a threat: the score stays
      below 0.85 exactly for a base risk below 2/3, a CNN score below 1/2, an anomaly score below 2/5. */
  lemma LastModelDecides(x: real)
    ensures Weighted(Scores(x, 1.0, 1.0)) < 0.85 <==> 3.0 * x < 2.0
    ensures Weighted(Scores(1.0, x, 1.0)) < 0.85 <==> 2.0 * x < 1.0
    ensures Weighted(Scores(1.0, 1.0, x)) < 0.85 <==> 5.0 * x < 2.0
  {
  }

  /** The highest of the weighted score and the floors that apply. */
  predicate IsFused(s: Scores, c: Controls, score: real) {
    var floors := {Clamp(Weighted(s))} + (if MandatoryPassed(c) then {} else {0.95})
      + (if Flag(c, SBOM_MISMATCH) then {0.80} else {}) + (if Flag(c, CUSTODY_TAMPERED) then {0.90} else {});
    score in floors && forall floor :: floor in floors ==> floor <= score
  }

  /** The mandatory names that are not set, in their order. */
  method FailedControls(c: Controls) returns (failed: seq<string>)
    ensures forall name :: name in failed <==> name in MANDATORY && !Flag(c, name)
    ensures failed == [] <==> MandatoryPassed(c)
  {
    failed := [];
    for i := 0 to |MANDATORY|
      invariant forall name :: name in failed <==> name in MANDATORY[..i] && !Flag(c, name)
    {
      if !Flag(c, MANDATORY[i]) {
        failed := failed + [MANDATORY[i]];
      }
    }
    assert MANDATORY[..|MANDATORY|] == MANDATORY;
    assert failed != [] ==> failed[0] in failed;
  }

  function Reasons(failed: seq<string>): (reasons: seq<FusionReason>)
    ensures |reasons| == |failed|
    ensures forall name :: MandatoryControlFailed(name) in reasons <==> name in failed
    ensures SbomMismatch !in reasons && CustodyTampered !in reasons
  {
    if failed == [] then [] else [MandatoryControlFailed(failed[0])] + Reasons(failed[1..])
  }

  method Fuse(s: Scores, c: Controls) returns (score: real, reasons: seq<FusionReason>)
    ensures IsFused(s, c, score)
    ensures forall name :: MandatoryControlFailed(name) in reasons <==> name in MANDATORY && !Flag(c, name)
    ensures SbomMismatch in reasons <==> Flag(c, SBOM_MISMATCH)
    ensures CustodyTampered in reasons <==> Flag(c, CUSTODY_TAMPERED)
  {
    reasons := [];
    var failed := FailedControls(c);
    score := Clamp(Weighted(s));
    if failed != [] {
      score := MaxReal(score, 0.95);
      reasons := Reasons(failed);
    }
    if Flag(c, SBOM_MISMATCH) {
      score := MaxReal(score, 0.80);
      reasons := reasons + [SbomMismatch];
    }
    if Flag(c, CUSTODY_TAMPERED) {
      score := MaxReal(score, 0.90);
      reasons := reasons + [CustodyTampered];
    }
  }

  function Classify(score: real): Classification {
    if score >= 0.65 then COMPROMISED else if score >= 0.35 then SUSPICIOUS else CLEAN
  }

  const DENIED_LABELS := {"TROJAN", "TAMPERED", "MALICIOUS", "CRITICAL_ANOMALY", "DENIED", "QUARANTINED"}

  function LabelOf(c: Classification): string {
    match c
    case CLEAN => "CLEAN"
    case SUSPICIOUS => "SUSPICIOUS"
    case COMPROMISED => "COMPROMISED"
  }

  /** The AI gate of the pipeline. */
  predicate GatePasses(score: real) {
    LabelOf(Classify(score)) !in DENIED_LABELS && score < 0.85
  }

  /** The class that the score names does not close the gate: it passes chips of all three. */
  lemma GatePassesClasses(score: real)
    ensures GatePasses(score) && Classify(score) == COMPROMISED <==> 0.65 <= score < 0.85
    ensures GatePasses(score) && Classify(score) == SUSPICIOUS <==> 0.35 <= score < 0.65
    ensures GatePasses(score) && Classify(score) == CLEAN <==> score < 0.35
  {
  }

  /** On any controls, the gate opens exactly when every mandatory control passed, custody is intact
      and the weighted score is below the threshold. */
  lemma GateOpensIff(s: Scores, c: Controls, score: real)
    requires IsFused(s, c, score)
    ensures GatePasses(score) <==> MandatoryPassed(c) && !Flag(c, CUSTODY_TAMPERED) && Weighted(s) < 0.85
  {
    assert Clamp(Weighted(s)) <= score;
    if !MandatoryPassed(c) {
      assert 0.95 <= score;
    }
    if Flag(c, CUSTODY_TAMPERED) {
      assert 0.90 <= score;
    }
  }
}
