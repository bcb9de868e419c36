/**
 The strict AI adapter of app/integration/adapters.py, from the service look-up to the gate, with the
 feature contract of app/integration/evidence_features.py. What the trace and metrics checks of
 `build_ai_evidence` find, and what the models answer, are inputs.
 */
module AiGate {
  import opened Wrappers
  import opened Texts
  import opened PolicyFusion

  /** What of a submitted simulation the adapter looks at; the two overrides are what a submitter
      may try to put in place of evidence. */
  datatype Simulation = Simulation(
    aiEvidence: bool,
    aiControls: Option<Controls>,
    defenseRelated: bool,
    designedForMilitary: bool)

  datatype PufResult = PufResult(passed: bool, source: string)

  /** The outcome of the hardware pipeline; a stage that is no dictionary is absent. */
  datatype HardwareResult = HardwareResult(passed: bool, stages: Option<map<string, bool>>)

  datatype Schema = NoNames | Unregistered | Registered(version: string)

  datatype Service = NotRegistered | WithoutAnalyze | Ready(schema: Schema)

  /** Whether another check of the evidence raises, and which design features it yields. */
  datatype Readings = Readings(raises: bool, netlistDelta: bool, simulationFailure: bool)

  datatype Request = Request(simulation: Simulation, service: Service, readings: Readings, analysis: Result<Scores>)

  const REQUIRED_STAGES := ["opentitan", "chipwhisperer", "yosys", "verilator", "sbom", "digital_twin"]

  predicate HardwareVerified(hardware: HardwareResult) {
    && hardware.passed
    && hardware.stages.Some?
    && forall name :: name in REQUIRED_STAGES ==> Flag(hardware.stages.value, name)
  }

  method ValidateHardwareStages(hardware: HardwareResult) returns (r: Result<map<string, bool>>)
    ensures r.Ok? <==> HardwareVerified(hardware)
    ensures r.Ok? ==> r.value == hardware.stages.value
    ensures r.Err? ==> r.error == IntegrationError
  {
    if !hardware.passed {
      return Err(IntegrationError);
    }
    if hardware.stages.None? {
      return Err(IntegrationError);
    }
    var stages := hardware.stages.value;
    for i := 0 to |REQUIRED_STAGES|
      invariant forall name :: name in REQUIRED_STAGES[..i] ==> Flag(stages, name)
    {
      var name := REQUIRED_STAGES[i];
      if name !in stages || !stages[name] {
        assert name in REQUIRED_STAGES;
        return Err(IntegrationError);
      }
    }
    assert REQUIRED_STAGES[..|REQUIRED_STAGES|] == REQUIRED_STAGES;
    return Ok(stages);
  }

  predicate PufVerified(puf: PufResult) {
    puf.passed && Upper(puf.source) == "VERIFIED_PUF_STAGE"
  }

  /** `_active_feature_schema`: an extractor without names counts as the schema that fails closed. */
  function ActiveSchema(schema: Schema): Result<string> {
    match schema
    case NoNames => Ok("1.0")
    case Unregistered => Err(IntegrationError)
    case Registered(version) => Ok(version)
  }

  function RequiredFeatures(version: string): Option<seq<string>> {
    if version == "1.0" then
      Some(["yosys.gate_count", "yosys.unused_logic_ratio", "yosys.rare_net_count", "yosys.netlist_delta_ratio"])
    else if version == "2.0" then Some([])
    else if version == "2.1" then Some(["yosys.netlist_delta_ratio", "verilator.failed_assertions"])
    else None
  }

  /** Whether the hardware pipeline cannot supply a feature. */
  predicate FeatureMissing(feature: string, readings: Readings) {
    || feature in {"yosys.unused_logic_ratio", "yosys.rare_net_count", "yosys.gate_count"}
    || (feature == "yosys.netlist_delta_ratio" && !readings.netlistDelta)
    || (feature == "verilator.failed_assertions" && !readings.simulationFailure)
  }

  method MissingModelFeatures(version: string, readings: Readings, pufVerified: bool) returns (r: Result<seq<string>>)
    ensures r.Ok? <==> version in {"1.0", "2.0", "2.1"}
    ensures r.Ok? ==> (r.value == [] <==> ContractComplete(version, readings, pufVerified))
    ensures r.Ok? ==> forall name :: name in r.value <==>
      || (name in RequiredFeatures(version).value && FeatureMissing(name, readings))
      || (name == "puf.verified_authentication" && !pufVerified)
    ensures r.Err? ==> r.error == IntegrationError
  {
    var required := RequiredFeatures(version);
    if required.None? {
      return Err(IntegrationError);
    }
    var features, missing := required.value, [];
    for i := 0 to |features|
      invariant missing == [] <==> forall k :: 0 <= k < i ==> !FeatureMissing(features[k], readings)
      invariant forall name :: name in missing <==> name in features[..i] && FeatureMissing(name, readings)
    {
      if FeatureMissing(features[i], readings) {
        missing := missing + [features[i]];
      }
    }
    if !pufVerified {
      missing := missing + ["puf.verified_authentication"];
    }
    NothingMissingIff(version, features, readings);
    assert features[..|features|] == features;
    return Ok(missing);
  }

  /** The feature contract: a verified PUF, and per schema the features that exist at all. */
  predicate ContractComplete(version: string, readings: Readings, pufVerified: bool) {
    pufVerified && (version == "2.0" || (version == "2.1" && readings.netlistDelta && readings.simulationFailure))
  }

  lemma NothingMissingIff(version: string, features: seq<string>, readings: Readings)
    requires RequiredFeatures(version) == Some(features)
    ensures (forall k :: 0 <= k < |features| ==> !FeatureMissing(features[k], readings))
      <==> (version == "2.0" || (version == "2.1" && readings.netlistDelta && readings.simulationFailure))
  {
    if version == "1.0" {
      assert FeatureMissing(features[0], readings);
    } else if version == "2.1" {
      assert features[0] == "yosys.netlist_delta_ratio" && features[1] == "verilator.failed_assertions";
    }
  }

  /** The Boolean controls that the adapter ever sets. */
  const CONTROL_NAMES := {
    "fail_closed", "puf_authenticated", "opentitan_verified", "digital_twin_verified",
    "hardware_ai_contract_complete", "defense_related", "specially_designed_for_military"}

  lemma StagesFlagged(stages: map<string, bool>)
    requires forall name :: name in REQUIRED_STAGES ==> Flag(stages, name)
    ensures Flag(stages, "opentitan") && Flag(stages, "digital_twin")
  {
    assert REQUIRED_STAGES[0] in REQUIRED_STAGES && REQUIRED_STAGES[5] in REQUIRED_STAGES;
  }

  /** No simulation gets its own controls in, and the names of the two optional floors are never set. */
  method BuildAiControls(simulation: Simulation, hardware: HardwareResult, pufVerified: bool, contractComplete: bool)
    returns (r: Result<Controls>)
    ensures r.Ok? <==> simulation.aiControls.None? && HardwareVerified(hardware)
    ensures r.Err? ==> r.error == IntegrationError
    ensures r.Ok? ==> r.value.Keys == CONTROL_NAMES
    ensures r.Ok? ==> !Flag(r.value, SBOM_MISMATCH) && !Flag(r.value, CUSTODY_TAMPERED)
    ensures r.Ok? ==> forall name :: name in CONTROL_NAMES ==> (r.value[name] <==>
      match name
      case "puf_authenticated" => pufVerified
      case "hardware_ai_contract_complete" => contractComplete
      case "defense_related" => simulation.defenseRelated
      case "specially_designed_for_military" => simulation.designedForMilitary
      case _ => true)
    ensures r.Ok? ==> (MandatoryPassed(r.value) <==> pufVerified && contractComplete)
  {
    if simulation.aiControls.Some? {
      return Err(IntegrationError);
    }
    var validated := ValidateHardwareStages(hardware);
    if validated.Err? {
      return Err(validated.error);
    }
    var stages := validated.value;
    StagesFlagged(stages);
    var controls := map[
      "fail_closed" := true,
      "puf_authenticated" := pufVerified,
      "opentitan_verified" := Flag(stages, "opentitan"),
      "digital_twin_verified" := Flag(stages, "digital_twin"),
      "hardware_ai_contract_complete" := contractComplete,
      "defense_related" := simulation.defenseRelated,
      "specially_designed_for_military" := simulation.designedForMilitary];
    MandatoryNames(controls);
    return Ok(controls);
  }

  lemma MandatoryNames(c: Controls)
    ensures MandatoryPassed(c) <==>
      Flag(c, "puf_authenticated") && Flag(c, "opentitan_verified") && Flag(c, "digital_twin_verified")
      && Flag(c, "hardware_ai_contract_complete")
  {
    assert MANDATORY[0] in MANDATORY && MANDATORY[1] in MANDATORY;
    assert MANDATORY[2] in MANDATORY && MANDATORY[3] in MANDATORY;
  }

  /** Everything on the way to the gate that does not raise. */
  predicate ReachesGate(request: Request, puf: PufResult, hardware: HardwareResult) {
    && request.service.Ready?
    && ActiveSchema(request.service.schema).Ok?
    && !request.simulation.aiEvidence
    && request.simulation.aiControls.None?
    && HardwareVerified(hardware)
    && !request.readings.raises
    && ContractComplete(ActiveSchema(request.service.schema).value, request.readings, PufVerified(puf))
    && request.analysis.Ok?
  }

  /** Nothing gets to the gate but evidence of schema 2.0, or of 2.1 with both relative features, over a
      PUF verified in its own stage and hardware verified stage by stage. */
  lemma ReachesGateIff(request: Request, puf: PufResult, hardware: HardwareResult)
    ensures ReachesGate(request, puf, hardware) <==>
      (request.simulation.aiControls.None? && !request.simulation.aiEvidence && !request.readings.raises
       && (request.service == Ready(Registered("2.0"))
           || (request.service == Ready(Registered("2.1"))
               && request.readings.netlistDelta && request.readings.simulationFailure))
       && puf.passed && Upper(puf.source) == "VERIFIED_PUF_STAGE"
       && hardware.passed && hardware.stages.Some?
       && (forall name :: name in REQUIRED_STAGES ==> (name, true) in hardware.stages.value.Items)
       && request.analysis.Ok?)
  {
    if hardware.stages.Some? {
      forall name ensures Flag(hardware.stages.value, name) <==> (name, true) in hardware.stages.value.Items {
      }
    }
  }

  /** An incomplete contract, like everything else that is missing, raises before the gate. So fusion
      never sees a failed mandatory control or an optional floor, and the gate is left to decide on
      the scores alone. `seen` is what fusion was given. */
  method RunAiPipeline(request: Request, puf: PufResult, hardware: HardwareResult)
    returns (r: Result<bool>, ghost seen: Controls)
    ensures r.Ok? <==> ReachesGate(request, puf, hardware)
    ensures r.Ok? ==> (r.value <==> Weighted(request.analysis.value) < 0.85)
    ensures r.Ok? ==> MandatoryPassed(seen) && !Flag(seen, SBOM_MISMATCH) && !Flag(seen, CUSTODY_TAMPERED)
  {
    seen := map[];
    if !request.service.Ready? {
      return Err(IntegrationError), seen;
    }
    var schema := ActiveSchema(request.service.schema);
    if schema.Err? {
      return Err(schema.error), seen;
    }
    if request.simulation.aiEvidence {
      return Err(IntegrationError), seen;
    }
    var validated := ValidateHardwareStages(hardware);
    if validated.Err? || request.readings.raises {
      return Err(IntegrationError), seen;
    }
    var missing := MissingModelFeatures(schema.value, request.readings, PufVerified(puf));
    if missing.Err? {
      return Err(missing.error), seen;
    }
    var controls := BuildAiControls(request.simulation, hardware, PufVerified(puf), missing.value == []);
    if controls.Err? {
      return Err(controls.error), seen;
    }
    if missing.value != [] {
      return Err(IntegrationError), seen;
    }
    if request.analysis.Err? {
      return Err(request.analysis.error), seen;
    }
    seen := controls.value;
    var score, reasons := Fuse(request.analysis.value, controls.value);
    GateOpensIff(request.analysis.value, controls.value, score);
    return Ok(GatePasses(score)), seen;
  }
}
