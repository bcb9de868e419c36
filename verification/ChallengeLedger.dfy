/**
 The one-time challenge ledger of app/hardware/puf/repository.py: an append-only log that every
 operation folds, line by line, into the state of each challenge. One JSON line is one value here;
 text that is no JSON object is Garbage.
 */
module ChallengeLedger {
  import opened Wrappers
  import opened Texts

  datatype Line =
    | Blank
    | Garbage
    | Entry(action: string, challengeId: string, deviceId: string, detail: string)

  datatype Challenge = Challenge(deviceId: string, consumed: bool)

  type State = map<string, Challenge>

  datatype Status = AVAILABLE | ISSUED | CONSUMED

  /*** Folding the log ***/

  function FoldLine(state: State, line: Line): Result<State> {
    match line
    case Blank => Ok(state)
    case Garbage => Err(IntegrityError)
    case Entry(action, id, device, detail) =>
      if !SafeIdentifier(id) || action !in {"issued", "consumed"} then Err(IntegrityError)
      else if action == "issued" then
        if id in state then Err(IntegrityError) else Ok(state[id := Challenge(device, false)])
      else if id !in state then Err(IntegrityError)
      else if state[id].consumed then Err(IntegrityError)
      else Ok(state[id := Challenge(state[id].deviceId, true)])
  }

  function Fold(log: seq<Line>): Result<State> {
    if log == [] then Ok(map[])
    else
      match Fold(log[..|log| - 1])
      case Err(e) => Err(e)
      case Ok(state) => FoldLine(state, log[|log| - 1])
  }

  lemma FoldSnoc(log: seq<Line>, line: Line)
    ensures Fold(log + [line]) == match Fold(log) case Err(e) => Err(e) case Ok(state) => FoldLine(state, line)
  {
    assert (log + [line])[..|log|] == log;
  }

  lemma {:induction false} FoldPrefix(log: seq<Line>, n: nat)
    requires n <= |log|
    ensures Fold(log[..n]).Err? ==> Fold(log) == Fold(log[..n])
    decreases |log|
  {
    if n < |log| {
      FoldPrefix(log[..|log| - 1], n);
      assert log[..|log| - 1][..n] == log[..n];
    } else {
      assert log[..n] == log;
    }
  }

  method ReadState(log: seq<Line>) returns (r: Result<State>)
    ensures r == Fold(log)
  {
    var state: State := map[];
    for n := 0 to |log|
      invariant Fold(log[..n]) == Ok(state)
    {
      assert log[..n + 1] == log[..n] + [log[n]];
      FoldSnoc(log[..n], log[n]);
      var next := FoldLine(state, log[n]);
      if next.Err? {
        FoldPrefix(log, n + 1);
        return next;
      }
      state := next.value;
    }
    assert log[..|log|] == log;
    return Ok(state);
  }

  /*** Which logs fold ***/

  predicate Names(log: seq<Line>, i: nat, id: string, action: string) {
    i < |log| && log[i].Entry? && log[i].challengeId == id && log[i].action == action
  }

  /** Line `i` may follow the lines before it. */
  ghost predicate LineInPlace(log: seq<Line>, i: nat)
    requires i < |log|
  {
    !log[i].Blank? ==>
      && log[i].Entry?
      && SafeIdentifier(log[i].challengeId)
      && log[i].action in {"issued", "consumed"}
      && (forall j: nat :: j < i ==> !Names(log, j, log[i].challengeId, log[i].action))
      && (log[i].action == "consumed" ==> exists j: nat :: j < i && Names(log, j, log[i].challengeId, "issued"))
  }

  ghost predicate Lawful(log: seq<Line>) {
    forall i: nat :: i < |log| ==> LineInPlace(log, i)
  }

  /** `state` says of every challenge what the log says. */
  ghost predicate Summarises(state: State, log: seq<Line>) {
    && (forall id :: id in state <==> exists i: nat :: Names(log, i, id, "issued"))
    && (forall id :: id in state && state[id].consumed <==> exists i: nat :: Names(log, i, id, "consumed"))
    && (forall id, i: nat :: Names(log, i, id, "issued") ==> id in state && state[id].deviceId == log[i].deviceId)
  }

  lemma NamesSnoc(log: seq<Line>, line: Line, i: nat, id: string, action: string)
    ensures Names(log + [line], i, id, action) <==>
      Names(log, i, id, action) || (i == |log| && line.Entry? && line.challengeId == id && line.action == action)
  {
  }

  lemma InPlaceSnoc(log: seq<Line>, line: Line, i: nat)
    requires i < |log|
    ensures LineInPlace(log + [line], i) <==> LineInPlace(log, i)
  {
    forall j: nat, id: string, action: string | j < |log|
      ensures Names(log + [line], j, id, action) == Names(log, j, id, action)
    {
      NamesSnoc(log, line, j, id, action);
    }
  }

  lemma LawfulSnoc(log: seq<Line>, line: Line)
    ensures Lawful(log + [line]) <==> Lawful(log) && LineInPlace(log + [line], |log|)
  {
    forall i: nat | i < |log| ensures LineInPlace(log + [line], i) <==> LineInPlace(log, i) {
      InPlaceSnoc(log, line, i);
    }
  }

  /** In a summarised log the next line folds exactly when it is in place. */
  lemma NextLineFolds(state: State, log: seq<Line>, line: Line)
    requires Summarises(state, log)
    ensures FoldLine(state, line).Ok? <==> LineInPlace(log + [line], |log|)
  {
    forall j: nat, id: string, action: string | j < |log|
      ensures Names(log + [line], j, id, action) == Names(log, j, id, action)
    {
      NamesSnoc(log, line, j, id, action);
    }
  }

  lemma NextStateSummarises(state: State, log: seq<Line>, line: Line)
    requires Summarises(state, log) && FoldLine(state, line).Ok?
    ensures Summarises(FoldLine(state, line).value, log + [line])
  {
    forall i: nat, id: string, action: string
      ensures Names(log + [line], i, id, action) <==>
        Names(log, i, id, action) || (i == |log| && line.Entry? && line.challengeId == id && line.action == action)
    {
      NamesSnoc(log, line, i, id, action);
    }
    if line.Entry? {
      assert Names(log + [line], |log|, line.challengeId, line.action);
    }
  }

  /** A log folds exactly when every challenge in it is issued once and consumed at most once,
      after that; and the state it folds to says for each challenge which lines it has. */
  lemma {:induction false} FoldsIffLawful(log: seq<Line>)
    ensures Fold(log).Ok? <==> Lawful(log)
    ensures Fold(log).Ok? ==> Summarises(Fold(log).value, log)
    ensures Fold(log).Err? ==> Fold(log).error == IntegrityError
  {
    if log == [] {
    } else {
      var init, line := log[..|log| - 1], log[|log| - 1];
      assert log == init + [line];
      FoldsIffLawful(init);
      LawfulSnoc(init, line);
      if Fold(init).Ok? {
        NextLineFolds(Fold(init).value, init, line);
        if FoldLine(Fold(init).value, line).Ok? {
          NextStateSummarises(Fold(init).value, init, line);
        }
      }
    }
  }

  /** Two lines about one challenge are its issuance and, later, its consumption. */
  lemma IssuedThenConsumed(log: seq<Line>, i: nat, j: nat)
    requires Fold(log).Ok? && i < j < |log|
    requires log[i].Entry? && log[j].Entry? && log[i].challengeId == log[j].challengeId
    ensures log[i].action == "issued" && log[j].action == "consumed"
  {
    FoldsIffLawful(log);
    var id := log[i].challengeId;
    assert LineInPlace(log, i) && LineInPlace(log, j);
    assert Names(log, i, id, log[i].action) && Names(log, j, id, log[j].action);
  }

  function StatusIn(state: State, id: string): Status {
    if id !in state then AVAILABLE else if state[id].consumed then CONSUMED else ISSUED
  }

  function Rank(status: Status): nat {
    match status
    case AVAILABLE => 0
    case ISSUED => 1
    case CONSUMED => 2
  }

  /** As the log grows no challenge moves back, and an issued one stays with its device. */
  lemma {:induction false} StatusNeverBack(log: seq<Line>, n: nat, id: string)
    requires n <= |log| && Fold(log).Ok?
    ensures Fold(log[..n]).Ok?
    ensures Rank(StatusIn(Fold(log[..n]).value, id)) <= Rank(StatusIn(Fold(log).value, id))
    ensures id in Fold(log[..n]).value ==> Fold(log).value[id].deviceId == Fold(log[..n]).value[id].deviceId
    decreases |log|
  {
    if n < |log| {
      var init := log[..|log| - 1];
      StatusNeverBack(init, n, id);
      assert init[..n] == log[..n];
    } else {
      assert log[..n] == log;
    }
  }

  /*** The operations ***/

  function IssuedLog(log: seq<Line>, id: string, device: string, expires: string): (r: Result<seq<Line>>)
    ensures r.Ok? ==> Fold(r.value).Ok?
  {
    if !SafeIdentifier(id) || !SafeIdentifier(device) then Err(ValueError)
    else
      match Fold(log)
      case Err(e) => Err(e)
      case Ok(state) =>
        if id in state then Err(ReplayError)
        else
          FoldSnoc(log, Entry("issued", id, device, expires));
          Ok(log + [Entry("issued", id, device, expires)])
  }

  function ConsumedLog(log: seq<Line>, id: string, device: string, response: string): (r: Result<seq<Line>>)
    ensures r.Ok? ==> Fold(r.value).Ok?
  {
    if !SafeIdentifier(id) || !SafeIdentifier(device) then Err(ValueError)
    else
      match Fold(log)
      case Err(e) => Err(e)
      case Ok(state) =>
        if id !in state then Err(ReplayError)
        else if state[id].deviceId != device then Err(ReplayError)
        else if state[id].consumed then Err(ReplayError)
        else
          FoldSnoc(log, Entry("consumed", id, device, response));
          Ok(log + [Entry("consumed", id, device, response)])
  }

  /** The log has a line that issues the challenge. */
  ghost predicate Issued(log: seq<Line>, id: string) {
    exists i: nat :: Names(log, i, id, "issued")
  }

  ghost predicate IssuedFor(log: seq<Line>, id: string, device: string) {
    exists i: nat :: Names(log, i, id, "issued") && log[i].deviceId == device
  }

  ghost predicate Consumed(log: seq<Line>, id: string) {
    exists i: nat :: Names(log, i, id, "consumed")
  }

  lemma AvailableIffUnissued(log: seq<Line>, id: string)
    requires Fold(log).Ok?
    ensures StatusIn(Fold(log).value, id) == AVAILABLE <==> !Issued(log, id)
  {
    FoldsIffLawful(log);
  }

  /** A challenge is issued exactly when no line issued it before. */
  lemma IssueAnswers(log: seq<Line>, id: string, device: string, expires: string)
    requires Fold(log).Ok? && SafeIdentifier(id) && SafeIdentifier(device)
    ensures IssuedLog(log, id, device, expires)
      == if Issued(log, id) then Err(ReplayError) else Ok(log + [Entry("issued", id, device, expires)])
  {
    FoldsIffLawful(log);
  }

  /** A challenge is consumed exactly when it was issued for the device and not consumed before. */
  lemma ConsumeAnswers(log: seq<Line>, id: string, device: string, response: string)
    requires Fold(log).Ok? && SafeIdentifier(id) && SafeIdentifier(device)
    ensures ConsumedLog(log, id, device, response)
      == if IssuedFor(log, id, device) && !Consumed(log, id) then Ok(log + [Entry("consumed", id, device, response)])
         else Err(ReplayError)
  {
    FoldsIffLawful(log);
  }

  class ChallengeLedger {
    var log: seq<Line>

    constructor (existing: seq<Line>)
      ensures log == existing
    {
      log := existing;
    }

    method GetStatus(id: string) returns (r: Result<Status>)
      ensures !SafeIdentifier(id) ==> r == Err(ValueError)
      ensures SafeIdentifier(id) && Fold(log).Err? ==> r == Err(IntegrityError)
      ensures SafeIdentifier(id) && Fold(log).Ok? ==> r.Ok?
      ensures r.Ok? ==> (r.value == AVAILABLE <==> forall i: nat :: !Names(log, i, id, "issued"))
      ensures r.Ok? ==> (r.value == CONSUMED <==> exists i: nat :: Names(log, i, id, "consumed"))
    {
      if !SafeIdentifier(id) {
        return Err(ValueError);
      }
      FoldsIffLawful(log);
      var state := ReadState(log);
      if state.Err? {
        return Err(state.error);
      }
      return Ok(StatusIn(state.value, id));
    }

    method Issue(id: string, device: string, expires: string) returns (r: Result<()>)
      modifies this
      ensures match IssuedLog(old(log), id, device, expires)
              case Ok(longer) => r == Ok(()) && log == longer
              case Err(e) => r == Err(e) && log == old(log)
    {
      if !SafeIdentifier(id) || !SafeIdentifier(device) {
        return Err(ValueError);
      }
      var state := ReadState(log);
      if state.Err? {
        return Err(state.error);
      }
      if id in state.value {
        return Err(ReplayError);
      }
      log := log + [Entry("issued", id, device, expires)];
      return Ok(());
    }

    method Consume(id: string, device: string, response: string) returns (r: Result<()>)
      modifies this
      ensures match ConsumedLog(old(log), id, device, response)
              case Ok(longer) => r == Ok(()) && log == longer
              case Err(e) => r == Err(e) && log == old(log)
    {
      if !SafeIdentifier(id) || !SafeIdentifier(device) {
        return Err(ValueError);
      }
      var state := ReadState(log);
      if state.Err? {
        return Err(state.error);
      }
      if id !in state.value {
        return Err(ReplayError);
      }
      if state.value[id].deviceId != device {
        return Err(ReplayError);
      }
      if state.value[id].consumed {
        return Err(ReplayError);
      }
      log := log + [Entry("consumed", id, device, response)];
      return Ok(());
    }
  }
}
