/**
 The fail-closed pipeline driver of app/integration/service.py. What a stage's own work yields, a
 result or an exception, is an input; saving a run record always succeeds and publishing is left
 out. `saved` lists every record in the order it was written.
 */
module Pipeline {
  import opened Wrappers
  import opened AiGate
  import opened PolicyFusion

  datatype Stage = INGESTION | PUF_AUTHENTICATION | HARDWARE_SECURITY | AI_ANALYSIS | COMPLIANCE | BLOCKCHAIN
    | DASHBOARD | DEPLOYMENT_DECISION

  const STAGE_ORDER := [INGESTION, PUF_AUTHENTICATION, HARDWARE_SECURITY, AI_ANALYSIS, COMPLIANCE, BLOCKCHAIN,
                        DASHBOARD, DEPLOYMENT_DECISION]

  datatype RunStatus = RUNNING | STOPPED | COMPLETED | MANUAL_REVIEW | INFRASTRUCTURE_HOLD

  datatype StageStatus = PASSED | FAILED | INFRASTRUCTURE_ERROR

  datatype Decision = Undecided | DEPLOY | DO_NOT_DEPLOY_PENDING_REVIEW | DENIED_AND_QUARANTINED
    | HOLD_PENDING_BLOCKCHAIN_RECOVERY | HOLD_FOR_RETEST_OR_REJECT

  datatype StageRecord = StageRecord(stage: Stage, status: StageStatus, mandatory: bool, stopPipeline: bool)

  datatype Run = Run(
    status: RunStatus,
    activeStage: Stage,
    stoppedStage: Option<Stage>,
    stages: seq<StageRecord>,
    decision: Decision,
    quarantined: bool)

  /*** What the stages yield ***/

  datatype Outcome<+T> = Returned(value: T) | Raised

  datatype Ledgers =
    | Absent
    | Malformed
    | Anchored(fabricCommitted: bool, fabricCode: string, ethereumConfirmed: bool)

  datatype Compliance = Compliance(decision: Option<string>, ledgerError: bool, ledgers: Ledgers)

  datatype Inputs = Inputs(
    ingestion: Outcome<()>,
    puf: Outcome<PufResult>,
    hardware: Outcome<HardwareResult>,
    ai: Request,
    compliance: Outcome<Compliance>,
    dashboard: Outcome<()>)

  function DecisionOf(c: Compliance): string {
    if c.decision.Some? then c.decision.value else "DENIED"
  }

  predicate LedgersValid(l: Ledgers) {
    l.Anchored? && l.fabricCommitted && l.fabricCode == "VALID" && l.ethereumConfirmed
  }

  /** Whether the blockchain stage passes; a result that is no mapping raises. */
  function VerifyBlockchain(c: Compliance, required: bool): (r: Outcome<bool>)
    ensures required ==> (r == Returned(true) <==> !c.ledgerError && LedgersValid(c.ledgers))
    ensures !required ==>
      (r == Returned(true) <==> !c.ledgerError && (c.ledgers.Absent? || LedgersValid(c.ledgers)))
    ensures r == Raised <==> !c.ledgerError && c.ledgers.Malformed?
  {
    if c.ledgerError then Returned(false)
    else
      match c.ledgers
      case Absent => Returned(!required)
      case Malformed => Raised
      case Anchored(committed, code, confirmed) => Returned(committed && code == "VALID" && confirmed)
  }

  /** The AI stage on the results of the two stages before it. */
  method RunAi(ai: Request, puf: PufResult, hardware: HardwareResult) returns (passed: Outcome<bool>)
    ensures passed == if !ReachesGate(ai, puf, hardware) then Raised else Returned(Weighted(ai.analysis.value) < 0.85)
  {
    var result, _ := RunAiPipeline(ai, puf, hardware);
    return if result.Ok? then Returned(result.value) else Raised;
  }

  function DeploymentDecision(c: Compliance, hardware: bool, ai: bool, blockchain: bool): Decision {
    if !hardware then DENIED_AND_QUARANTINED
    else if !ai then DENIED_AND_QUARANTINED
    else if DecisionOf(c) == "APPROVED" then (if !blockchain then HOLD_PENDING_BLOCKCHAIN_RECOVERY else DEPLOY)
    else if DecisionOf(c) == "LICENSE_REQUIRED" then DO_NOT_DEPLOY_PENDING_REVIEW
    else DENIED_AND_QUARANTINED
  }

  function PufPassed(puf: Outcome<PufResult>): Outcome<bool> {
    if puf.Raised? then Raised else Returned(puf.value.passed)
  }

  function HardwarePassed(hardware: Outcome<HardwareResult>): Outcome<bool> {
    if hardware.Raised? then Raised else Returned(hardware.value.passed)
  }

  /** The AI stage gets as far as its gate. */
  predicate AiReachesGate(inputs: Inputs) {
    inputs.puf.Returned? && inputs.hardware.Returned? && ReachesGate(inputs.ai, inputs.puf.value, inputs.hardware.value)
  }

  predicate AiPasses(inputs: Inputs) {
    AiReachesGate(inputs) && Weighted(inputs.ai.analysis.value) < 0.85
  }

  /** Everything that must hold for a chip to be deployed. */
  predicate Deployable(inputs: Inputs) {
    && inputs.ingestion.Returned?
    && PufPassed(inputs.puf) == Returned(true)
    && HardwarePassed(inputs.hardware) == Returned(true)
    && AiPasses(inputs)
    && inputs.compliance.Returned?
    && inputs.compliance.value.decision == Some("APPROVED")
    && !inputs.compliance.value.ledgerError
    && LedgersValid(inputs.compliance.value.ledgers)
  }

  /** Stage `k` keeps the run from going on: it is mandatory and failed or raised. */
  predicate Blocks(inputs: Inputs, k: nat) {
    match k
    case 0 => inputs.ingestion.Raised?
    case 1 => PufPassed(inputs.puf) != Returned(true)
    case 2 => HardwarePassed(inputs.hardware) != Returned(true)
    case 3 => !AiPasses(inputs)
    case 4 => inputs.compliance.Raised?
    case 5 =>
      inputs.compliance.Returned?
      && DecisionOf(inputs.compliance.value) == "APPROVED"
      && VerifyBlockchain(inputs.compliance.value, true) != Returned(true)
    case _ => false
  }

  predicate RaisesAt(inputs: Inputs, k: nat) {
    match k
    case 0 => inputs.ingestion.Raised?
    case 1 => inputs.puf.Raised?
    case 2 => inputs.hardware.Raised?
    case 3 => !AiReachesGate(inputs)
    case 4 => inputs.compliance.Raised?
    case 5 => inputs.compliance.Returned? && VerifyBlockchain(inputs.compliance.value, true).Raised?
    case _ => false
  }

  /** What stage `k` yields. */
  function StageResult(inputs: Inputs, k: nat): Outcome<bool> {
    match k
    case 0 => if inputs.ingestion.Returned? then Returned(true) else Raised
    case 1 => PufPassed(inputs.puf)
    case 2 => HardwarePassed(inputs.hardware)
    case 3 => if AiReachesGate(inputs) then Returned(AiPasses(inputs)) else Raised
    case 4 => if inputs.compliance.Returned? then Returned(true) else Raised
    case 5 =>
      if inputs.compliance.Returned? then
        VerifyBlockchain(inputs.compliance.value, DecisionOf(inputs.compliance.value) == "APPROVED")
      else Raised
    case 6 => if inputs.dashboard.Returned? then Returned(true) else Raised
    case _ => Returned(true)
  }

  /** The dashboard never holds a run up, the ledgers only that of an approved chip. */
  predicate Mandatory(inputs: Inputs, k: nat) {
    && k != 6
    && (k == 5 ==> inputs.compliance.Returned? && DecisionOf(inputs.compliance.value) == "APPROVED")
  }

  lemma BlocksIff(inputs: Inputs, k: nat)
    ensures Blocks(inputs, k) <==> Mandatory(inputs, k) && StageResult(inputs, k) != Returned(true)
    ensures RaisesAt(inputs, k) && Mandatory(inputs, k) <==> Mandatory(inputs, k) && StageResult(inputs, k) == Raised
  {
  }

  /** The record of stage `k` tells what the stage yielded, and stops the run exactly if that blocks it. */
  predicate Tells(rec: StageRecord, inputs: Inputs, k: nat) {
    && (rec.status == PASSED <==> StageResult(inputs, k) == Returned(true))
    && (rec.status == FAILED <==> StageResult(inputs, k) == Returned(false))
    && (rec.mandatory <==> Mandatory(inputs, k))
    && (rec.stopPipeline <==> Blocks(inputs, k))
  }

  predicate AllTell(stages: seq<StageRecord>, inputs: Inputs) {
    forall i: nat :: i < |stages| ==> Tells(stages[i], inputs, i)
  }

  /** The stages that ran are those up to the first one that blocks. */
  predicate RanToFirstBlock(stages: seq<StageRecord>, inputs: Inputs) {
    && stages != []
    && (forall i: nat :: i < |stages| - 1 ==> !Blocks(inputs, i))
    && (Blocks(inputs, |stages| - 1) || |stages| == |STAGE_ORDER|)
  }

  /*** What every saved record satisfies ***/

  predicate InOrder(stages: seq<StageRecord>) {
    |stages| <= |STAGE_ORDER| && forall i :: 0 <= i < |stages| ==> stages[i].stage == STAGE_ORDER[i]
  }

  predicate StopIsLast(stages: seq<StageRecord>) {
    forall i :: 0 <= i < |stages| && stages[i].stopPipeline ==> i == |stages| - 1
  }

  /** Which closed states a record may be in. */
  predicate Consistent(run: Run) {
    && (run.status == COMPLETED <==> run.decision == DEPLOY)
    && (run.quarantined ==> run.status == STOPPED)
    && (run.status == RUNNING ==> run.decision == Undecided && run.stoppedStage == None)
    && (run.status == COMPLETED ==> run.stoppedStage == None && |run.stages| == |STAGE_ORDER|)
    && (run.status in {STOPPED, MANUAL_REVIEW, INFRASTRUCTURE_HOLD} ==>
          |run.stages| > 0 && run.stoppedStage == Some(run.stages[|run.stages| - 1].stage))
  }

  predicate RecordOk(run: Run, inputs: Inputs) {
    && InOrder(run.stages)
    && AllTell(run.stages, inputs)
    && StopIsLast(run.stages)
    && Consistent(run)
    && (run.decision == DEPLOY ==> Deployable(inputs))
  }

  /** A run under way after `k` stages. */
  predicate UnderWay(run: Run, k: nat) {
    && |run.stages| == k && InOrder(run.stages)
    && (forall i :: 0 <= i < k ==> !run.stages[i].stopPipeline)
    && run.status == RUNNING && run.decision == Undecided && run.stoppedStage == None && !run.quarantined
  }

  /** A run whose last stage failed but whose record does not say so yet. */
  predicate Halting(run: Run, k: nat) {
    && |run.stages| == k + 1 && InOrder(run.stages)
    && (forall i :: 0 <= i < k ==> !run.stages[i].stopPipeline)
    && run.status == RUNNING && run.decision == Undecided && run.stoppedStage == None && !run.quarantined
  }

  /*** One stage ***/

  function Started(run: Run, stage: Stage): Run {
    run.(activeStage := stage)
  }

  /** The record after a stage whose result counts as passed or not, or that raised. */
  function Finished(run: Run, stage: Stage, mandatory: bool, passed: Outcome<bool>): Run {
    match passed
    case Returned(ok) =>
      run.(activeStage := stage,
           stages := run.stages + [StageRecord(stage, if ok then PASSED else FAILED, mandatory, mandatory && !ok)])
    case Raised =>
      run.(activeStage := stage,
           stages := run.stages + [StageRecord(stage, INFRASTRUCTURE_ERROR, mandatory, mandatory)],
           status := if mandatory then INFRASTRUCTURE_HOLD else run.status,
           stoppedStage := if mandatory then Some(stage) else run.stoppedStage)
  }

  lemma StageKeepsRecordOk(run: Run, k: nat, mandatory: bool, passed: Outcome<bool>, inputs: Inputs)
    requires UnderWay(run, k) && k < |STAGE_ORDER| && AllTell(run.stages, inputs)
    requires passed == StageResult(inputs, k) && mandatory == Mandatory(inputs, k)
    ensures RecordOk(Started(run, STAGE_ORDER[k]), inputs)
    ensures RecordOk(Finished(run, STAGE_ORDER[k], mandatory, passed), inputs)
    ensures passed == Returned(true) || !mandatory ==> UnderWay(Finished(run, STAGE_ORDER[k], mandatory, passed), k + 1)
    ensures passed.Returned? ==> Halting(Finished(run, STAGE_ORDER[k], mandatory, passed), k)
    ensures passed.Raised? && mandatory ==>
      Finished(run, STAGE_ORDER[k], mandatory, passed).status == INFRASTRUCTURE_HOLD
  {
    BlocksIff(inputs, k);
    FinishedTells(run, STAGE_ORDER[k], k, mandatory, passed, inputs);
  }

  lemma FinishedTells(run: Run, stage: Stage, k: nat, mandatory: bool, passed: Outcome<bool>, inputs: Inputs)
    requires |run.stages| == k && AllTell(run.stages, inputs)
    requires passed == StageResult(inputs, k) && mandatory == Mandatory(inputs, k)
    ensures AllTell(Finished(run, stage, mandatory, passed).stages, inputs)
  {
    BlocksIff(inputs, k);
  }

  lemma StopKeepsRecordOk(run: Run, k: nat, status: RunStatus, decision: Decision, quarantined: bool, inputs: Inputs)
    requires Halting(run, k) && status in {STOPPED, INFRASTRUCTURE_HOLD} && decision != DEPLOY
    requires AllTell(run.stages, inputs)
    requires quarantined ==> status == STOPPED
    ensures RecordOk(run.(status := status, activeStage := STAGE_ORDER[k], stoppedStage := Some(STAGE_ORDER[k]),
                          decision := decision, quarantined := quarantined), inputs)
  {
  }

  predicate Growing(saved: seq<Run>) {
    forall i, j :: 0 <= i <= j < |saved| ==> saved[i].stages <= saved[j].stages
  }

  lemma GrowingSnoc(saved: seq<Run>, run: Run)
    requires Growing(saved) && (saved != [] ==> saved[|saved| - 1].stages <= run.stages)
    ensures Growing(saved + [run])
  {
  }

  datatype Ending = Replayed(existing: Run) | Ended(run: Run) | Propagated

  /** How a run ends: at the first blocking stage, by its exception or by a decision, quarantined
      exactly when stopped for a security reason. */
  predicate EndsRight(run: Run, ending: Ending, inputs: Inputs) {
    && RanToFirstBlock(run.stages, inputs)
    && (ending == Propagated <==> Blocks(inputs, |run.stages| - 1) && RaisesAt(inputs, |run.stages| - 1))
    && (ending == Propagated ==> run.status == INFRASTRUCTURE_HOLD && run.decision == Undecided)
    && (ending != Propagated ==> run.decision == EndDecision(run.stages, inputs))
    && (ending != Propagated ==> (run.quarantined <==> run.status == STOPPED))
    && (ending != Propagated ==> (run.status == MANUAL_REVIEW <==> run.decision == DO_NOT_DEPLOY_PENDING_REVIEW))
    && (ending != Propagated ==> (run.status == INFRASTRUCTURE_HOLD <==>
      run.decision == HOLD_PENDING_BLOCKCHAIN_RECOVERY))
  }

  /** The decision of a run that ended after these stages. */
  function EndDecision(stages: seq<StageRecord>, inputs: Inputs): Decision {
    if |stages| == 2 then HOLD_FOR_RETEST_OR_REJECT
    else if |stages| == 6 then HOLD_PENDING_BLOCKCHAIN_RECOVERY
    else if |stages| < 8 || inputs.compliance.Raised? then DENIED_AND_QUARANTINED
    else if DecisionOf(inputs.compliance.value) == "APPROVED" then DEPLOY
    else if DecisionOf(inputs.compliance.value) == "LICENSE_REQUIRED" then DO_NOT_DEPLOY_PENDING_REVIEW
    else DENIED_AND_QUARANTINED
  }

  class IntegratedPipelineRun {
    var run: Run
    var saved: seq<Run>

    constructor ()
      ensures saved == []
      ensures UnderWay(run, 0)
    {
      run := Run(RUNNING, INGESTION, None, [], Undecided, false);
      saved := [];
    }

    /** Every record saved so far is sound, the stages only ever grew, and the last one is current. */
    predicate Recorded(inputs: Inputs)
      reads this
    {
      && (forall i :: 0 <= i < |saved| ==> RecordOk(saved[i], inputs))
      && Growing(saved)
      && (saved != [] ==> saved[|saved| - 1] == run)
      && AllTell(run.stages, inputs)
    }

    method Save(ghost inputs: Inputs)
      requires RecordOk(run, inputs)
      requires forall i :: 0 <= i < |saved| ==> RecordOk(saved[i], inputs)
      requires Growing(saved) && (saved != [] ==> saved[|saved| - 1].stages <= run.stages)
      modifies this`saved
      ensures saved == old(saved) + [run] && Recorded(inputs)
    {
      GrowingSnoc(saved, run);
      saved := saved + [run];
    }

    /** Runs stage `k`; `reraise` says that its exception leaves the driver. */
    method ExecuteStage(k: nat, mandatory: bool, passed: Outcome<bool>, ghost inputs: Inputs) returns (reraise: bool)
      requires k < |STAGE_ORDER| && UnderWay(run, k) && Recorded(inputs)
      requires passed == StageResult(inputs, k) && mandatory == Mandatory(inputs, k)
      modifies this
      ensures Recorded(inputs)
      ensures run == Finished(old(run), STAGE_ORDER[k], mandatory, passed)
      ensures saved == old(saved) + [Started(old(run), STAGE_ORDER[k]), run]
      ensures reraise <==> mandatory && passed.Raised?
      ensures passed == Returned(true) || !mandatory ==> UnderWay(run, k + 1)
      ensures passed.Returned? ==> Halting(run, k)
      ensures reraise ==> run.status == INFRASTRUCTURE_HOLD && run.decision == Undecided
    {
      var stage := STAGE_ORDER[k];
      StageKeepsRecordOk(run, k, mandatory, passed, inputs);
      run := run.(activeStage := stage);
      Save(inputs);
      match passed {
        case Returned(ok) =>
          var status := if ok then PASSED else FAILED;
          run := run.(stages := run.stages + [StageRecord(stage, status, mandatory, mandatory && !ok)]);
          reraise := false;
        case Raised =>
          run := run.(stages := run.stages + [StageRecord(stage, INFRASTRUCTURE_ERROR, mandatory, mandatory)]);
          if mandatory {
            run := run.(status := INFRASTRUCTURE_HOLD, stoppedStage := Some(stage));
          }
          reraise := mandatory;
      }
      Save(inputs);
    }

    method Stop(k: nat, status: RunStatus, decision: Decision, quarantined: bool, ghost inputs: Inputs)
      returns (r: Ending)
      requires k < |STAGE_ORDER| && Halting(run, k) && Recorded(inputs)
      requires status in {STOPPED, INFRASTRUCTURE_HOLD} && decision != DEPLOY && (quarantined ==> status == STOPPED)
      modifies this
      ensures Recorded(inputs)
      ensures run == old(run).(status := status, activeStage := STAGE_ORDER[k], stoppedStage := Some(STAGE_ORDER[k]),
                               decision := decision, quarantined := quarantined)
      ensures saved == old(saved) + [run] && r == Ended(run)
    {
      StopKeepsRecordOk(run, k, status, decision, quarantined, inputs);
      run := run.(status := status, activeStage := STAGE_ORDER[k], stoppedStage := Some(STAGE_ORDER[k]),
                  decision := decision, quarantined := quarantined);
      Save(inputs);
      return Ended(run);
    }

    /** The blockchain stage. No ending means that the run goes on. */
    method RunBlockchain(compliance: Compliance, required: bool, chain: Outcome<bool>, ghost inputs: Inputs)
      returns (ending: Option<Ending>)
      requires UnderWay(run, 5) && Recorded(inputs)
      requires inputs.compliance == Returned(compliance) && required == (DecisionOf(compliance) == "APPROVED")
      requires chain == VerifyBlockchain(compliance, required)
      requires forall i: nat :: i < 5 ==> !Blocks(inputs, i)
      modifies this
      ensures Recorded(inputs) && saved != []
      ensures ending.None? ==> UnderWay(run, 6) && !Blocks(inputs, 5)
      ensures ending.Some? ==> Blocks(inputs, 5) && ending.value in {Propagated, Ended(run)}
      ensures ending.Some? ==> EndsRight(run, ending.value, inputs) && run.decision != DEPLOY
    {
      var reraise := ExecuteStage(5, required, chain, inputs);
      if reraise {
        return Some(Propagated);
      }
      if required && chain != Returned(true) {
        var stopped := Stop(5, INFRASTRUCTURE_HOLD, HOLD_PENDING_BLOCKCHAIN_RECOVERY, false, inputs);
        return Some(stopped);
      }
      return None;
    }

    /** From the compliance result on. */
    method FinishRun(inputs: Inputs) returns (r: Ending)
      requires UnderWay(run, 5) && Recorded(inputs)
      requires forall i: nat :: i < 5 ==> !Blocks(inputs, i)
      modifies this
      ensures Recorded(inputs) && saved != []
      ensures r == Propagated || r == Ended(run)
      ensures run.decision == DEPLOY <==> Deployable(inputs)
      ensures EndsRight(run, r, inputs)
    {
      assert !Blocks(inputs, 0) && !Blocks(inputs, 1) && !Blocks(inputs, 2) && !Blocks(inputs, 3) && !Blocks(inputs, 4);
      var compliance := inputs.compliance.value;
      var required := DecisionOf(compliance) == "APPROVED";
      var chain := VerifyBlockchain(compliance, required);
      var ending := RunBlockchain(compliance, required, chain, inputs);
      if ending.Some? {
        return ending.value;
      }
      var reraise := ExecuteStage(6, false, if inputs.dashboard.Returned? then Returned(true) else Raised, inputs);
      var decision := DeploymentDecision(compliance, true, true, chain == Returned(true));
      reraise := ExecuteStage(7, true, Returned(true), inputs);
      r := Conclude(decision, inputs);
    }

    /** The last record of a run that reached its decision. */
    method Conclude(decision: Decision, ghost inputs: Inputs) returns (r: Ending)
      requires UnderWay(run, 8) && Recorded(inputs) && saved != []
      requires decision != Undecided && (decision == DEPLOY ==> Deployable(inputs))
      modifies this
      ensures Recorded(inputs) && saved == old(saved) + [run] && r == Ended(run)
      ensures run.decision == decision && run.stages == old(run.stages) && run.activeStage == DEPLOYMENT_DECISION
      ensures run.status == (match decision
                             case DEPLOY => COMPLETED
                             case DO_NOT_DEPLOY_PENDING_REVIEW => MANUAL_REVIEW
                             case _ => STOPPED)
      ensures run.quarantined <==> run.status == STOPPED
    {
      run := run.(decision := decision);
      if decision == DEPLOY {
        run := run.(status := COMPLETED);
      } else if decision == DO_NOT_DEPLOY_PENDING_REVIEW {
        run := run.(status := MANUAL_REVIEW, stoppedStage := Some(DEPLOYMENT_DECISION));
      } else {
        run := run.(status := STOPPED, stoppedStage := Some(DEPLOYMENT_DECISION), quarantined := true);
      }
      run := run.(activeStage := DEPLOYMENT_DECISION);
      assert run.stages[7].stage == DEPLOYMENT_DECISION;
      Save(inputs);
      return Ended(run);
    }

    /** One of the stages that decide on the chip itself: its failure stops and quarantines. */
    method RunSecurityStage(k: nat, passed: Outcome<bool>, denial: Decision, ghost inputs: Inputs)
      returns (ending: Option<Ending>)
      requires k in {1, 2, 3} && UnderWay(run, k) && Recorded(inputs)
      requires denial == if k == 1 then HOLD_FOR_RETEST_OR_REJECT else DENIED_AND_QUARANTINED
      requires passed == StageResult(inputs, k)
      requires forall i: nat :: i < k ==> !Blocks(inputs, i)
      modifies this
      ensures Recorded(inputs) && saved != []
      ensures ending.None? ==> UnderWay(run, k + 1) && !Blocks(inputs, k)
      ensures ending.Some? ==> Blocks(inputs, k) && ending.value in {Propagated, Ended(run)}
      ensures ending.Some? ==> EndsRight(run, ending.value, inputs) && run.decision in {Undecided, denial}
    {
      BlocksIff(inputs, k);
      var reraise := ExecuteStage(k, true, passed, inputs);
      if reraise {
        return Some(Propagated);
      }
      if !passed.value {
        var stopped := Stop(k, STOPPED, denial, true, inputs);
        return Some(stopped);
      }
      return None;
    }

    method RunSecurityStages(inputs: Inputs) returns (ending: Option<Ending>)
      requires UnderWay(run, 1) && Recorded(inputs) && !Blocks(inputs, 0)
      modifies this
      ensures Recorded(inputs) && saved != []
      ensures ending.None? ==> UnderWay(run, 4) && forall i: nat :: i < 4 ==> !Blocks(inputs, i)
      ensures ending.Some? ==> ending.value in {Propagated, Ended(run)} && EndsRight(run, ending.value, inputs)
      ensures ending.Some? ==> run.decision != DEPLOY && exists i: nat :: i < 4 && Blocks(inputs, i)
    {
      ending := RunSecurityStage(1, PufPassed(inputs.puf), HOLD_FOR_RETEST_OR_REJECT, inputs);
      if ending.Some? {
        return;
      }
      ending := RunSecurityStage(2, HardwarePassed(inputs.hardware), DENIED_AND_QUARANTINED, inputs);
      if ending.Some? {
        return;
      }
      var ai := RunAi(inputs.ai, inputs.puf.value, inputs.hardware.value);
      ending := RunSecurityStage(3, ai, DENIED_AND_QUARANTINED, inputs);
    }

    /** `run_file`, from the look-up of an earlier run of the same source on. */
    method RunFile(inputs: Inputs, existing: Option<Run>, force: bool) returns (r: Ending)
      requires saved == [] && UnderWay(run, 0)
      modifies this
      ensures Recorded(inputs)
      ensures existing.Some? && !force ==> r == Replayed(existing.value) && saved == []
      ensures existing.None? || force ==>
        && saved != []
        && (r == Propagated || r == Ended(run))
        && (run.decision == DEPLOY <==> Deployable(inputs))
        && EndsRight(run, r, inputs)
    {
      if existing.Some? && !force {
        return Replayed(existing.value);
      }
      Save(inputs);
      var reraise := ExecuteStage(0, true, if inputs.ingestion.Returned? then Returned(true) else Raised, inputs);
      if reraise {
        return Propagated;
      }
      var ending := RunSecurityStages(inputs);
      if ending.Some? {
        return ending.value;
      }
      reraise := ExecuteStage(4, true, if inputs.compliance.Returned? then Returned(true) else Raised, inputs);
      if reraise {
        return Propagated;
      }
      r := FinishRun(inputs);
    }
  }
}
