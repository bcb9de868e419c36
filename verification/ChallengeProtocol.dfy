/**
 Any number of clients of app/hardware/puf/adapter.py over one ledger. `issue_challenge` looks for
 an unused challenge one shared-lock read at a time and then issues it under an exclusive lock;
 `authenticate` consumes under an exclusive lock before it verifies. Each lock section is one step
 and clients interleave freely. A client that stops simply takes no further step.
 */
module ChallengeProtocol {
  import opened Wrappers
  import opened Texts
  import opened ChallengeLedger

  datatype Client =
    | Scanning(device: string, bank: seq<string>, next: nat)
    | Claiming(device: string, id: string)
    | Returned(device: string, id: string)
    | Submitting(device: string, id: string, response: string)
    | Verified(device: string, id: string)
    | Raised(error: Error)

  datatype System = System(log: seq<Line>, clients: map<nat, Client>)

  datatype Step =
    | StartIssue(pid: nat, device: string, bank: seq<string>)
    | StartAuthenticate(pid: nat, device: string, id: string, response: string)
    | ReadStatus(pid: nat)
    | Claim(pid: nat, expires: string)
    | Consume(pid: nat)

  /** One look at the status of the next challenge of the bank. */
  function Scanned(log: seq<Line>, device: string, bank: seq<string>, next: nat): Client {
    if next >= |bank| then Raised(EnrollmentError)
    else if !SafeIdentifier(bank[next]) then Raised(ValueError)
    else
      match Fold(log)
      case Err(e) => Raised(e)
      case Ok(state) =>
        if StatusIn(state, bank[next]) == AVAILABLE then Claiming(device, bank[next])
        else Scanning(device, bank, next + 1)
  }

  /** A step that is not possible in a state leaves it unchanged. */
  function Next(s: System, step: Step): System {
    match step
    case StartIssue(pid, device, bank) =>
      if pid in s.clients then s else s.(clients := s.clients[pid := Scanning(device, bank, 0)])
    case StartAuthenticate(pid, device, id, response) =>
      if pid in s.clients then s else s.(clients := s.clients[pid := Submitting(device, id, response)])
    case ReadStatus(pid) =>
      if pid !in s.clients || !s.clients[pid].Scanning? then s
      else
        var c := s.clients[pid];
        s.(clients := s.clients[pid := Scanned(s.log, c.device, c.bank, c.next)])
    case Claim(pid, expires) =>
      if pid !in s.clients || !s.clients[pid].Claiming? then s
      else
        var c := s.clients[pid];
        (match IssuedLog(s.log, c.id, c.device, expires)
         case Ok(longer) => System(longer, s.clients[pid := Returned(c.device, c.id)])
         case Err(e) => s.(clients := s.clients[pid := Raised(e)]))
    case Consume(pid) =>
      if pid !in s.clients || !s.clients[pid].Submitting? then s
      else
        var c := s.clients[pid];
        (match ConsumedLog(s.log, c.id, c.device, c.response)
         case Ok(longer) => System(longer, s.clients[pid := Verified(c.device, c.id)])
         case Err(e) => s.(clients := s.clients[pid := Raised(e)]))
  }

  function Run(s: System, steps: seq<Step>): System {
    if steps == [] then s else Next(Run(s, steps[..|steps| - 1]), steps[|steps| - 1])
  }

  const EMPTY := System([], map[])

  /*** The invariant ***/

  /** The two lines of a challenge name one device. */
  ghost predicate OneDevice(log: seq<Line>) {
    forall i: nat, j: nat, id, a, b :: Names(log, i, id, a) && Names(log, j, id, b) ==>
      log[i].deviceId == log[j].deviceId
  }

  predicate Holds(s: System, pid: nat, id: string) {
    pid in s.clients && s.clients[pid].Returned? && s.clients[pid].id == id
  }

  predicate Passed(s: System, pid: nat, id: string) {
    pid in s.clients && s.clients[pid].Verified? && s.clients[pid].id == id
  }

  /** Every issued challenge was handed to exactly one caller, for the device of its line. */
  ghost predicate IssuedOnce(s: System, state: State) {
    && (forall pid, id :: Holds(s, pid, id) ==> id in state && state[id].deviceId == s.clients[pid].device)
    && (forall id :: id in state ==> exists pid :: Holds(s, pid, id))
    && (forall p, q, id :: Holds(s, p, id) && Holds(s, q, id) ==> p == q)
  }

  /** Every consumed challenge let exactly one authentication through, for the same device. */
  ghost predicate ConsumedOnce(s: System, state: State) {
    && (forall pid, id :: Passed(s, pid, id) ==>
          id in state && state[id].consumed && state[id].deviceId == s.clients[pid].device)
    && (forall id :: id in state && state[id].consumed ==> exists pid :: Passed(s, pid, id))
    && (forall p, q, id :: Passed(s, p, id) && Passed(s, q, id) ==> p == q)
  }

  ghost predicate Inv(s: System) {
    Fold(s.log).Ok? && OneDevice(s.log) && IssuedOnce(s, Fold(s.log).value) && ConsumedOnce(s, Fold(s.log).value)
  }

  ghost predicate StepOk(s: System, step: Step) {
    Inv(Next(s, step)) && s.log <= Next(s, step).log
  }

  lemma OneDeviceSnoc(log: seq<Line>, line: Line)
    requires OneDevice(log) && line.Entry?
    requires forall i: nat, a :: Names(log, i, line.challengeId, a) ==> log[i].deviceId == line.deviceId
    ensures OneDevice(log + [line])
  {
    var longer := log + [line];
    forall i: nat, j: nat, id, a, b | Names(longer, i, id, a) && Names(longer, j, id, b)
      ensures longer[i].deviceId == longer[j].deviceId
    {
      NamesSnoc(log, line, i, id, a);
      NamesSnoc(log, line, j, id, b);
    }
  }

  lemma LoggedDevice(log: seq<Line>, id: string)
    requires Fold(log).Ok? && OneDevice(log)
    ensures forall i: nat, a :: Names(log, i, id, a) ==>
      id in Fold(log).value && log[i].deviceId == Fold(log).value[id].deviceId
  {
    FoldsIffLawful(log);
    forall i: nat, a | Names(log, i, id, a)
      ensures id in Fold(log).value && log[i].deviceId == Fold(log).value[id].deviceId
    {
      assert LineInPlace(log, i);
      var k: nat :| Names(log, k, id, "issued");
    }
  }

  lemma ClaimKeepsIssuedOnce(s: System, t: System, pid: nat, device: string, id: string, state: State)
    requires IssuedOnce(s, state) && id !in state && pid in s.clients && s.clients[pid].Claiming?
    requires t.clients == s.clients[pid := Returned(device, id)]
    ensures IssuedOnce(t, state[id := Challenge(device, false)])
  {
    assert Holds(t, pid, id);
    forall other | other in state ensures exists p :: Holds(t, p, other) {
      var p :| Holds(s, p, other);
      assert Holds(t, p, other);
    }
    forall p, other | p != pid ensures Holds(t, p, other) == Holds(s, p, other) {
    }
  }

  lemma ClaimKeepsConsumedOnce(s: System, t: System, pid: nat, device: string, id: string, state: State)
    requires ConsumedOnce(s, state) && id !in state && pid in s.clients && s.clients[pid].Claiming?
    requires t.clients == s.clients[pid := Returned(device, id)]
    ensures ConsumedOnce(t, state[id := Challenge(device, false)])
  {
    SamePassed(s, t, pid);
  }

  lemma ClaimStep(s: System, pid: nat, expires: string)
    requires Inv(s)
    ensures StepOk(s, Claim(pid, expires))
  {
    if pid in s.clients && s.clients[pid].Claiming? {
      var c, t := s.clients[pid], Next(s, Claim(pid, expires));
      var state := Fold(s.log).value;
      if IssuedLog(s.log, c.id, c.device, expires).Ok? {
        var line := Entry("issued", c.id, c.device, expires);
        FoldSnoc(s.log, line);
        LoggedDevice(s.log, c.id);
        OneDeviceSnoc(s.log, line);
        ClaimKeepsIssuedOnce(s, t, pid, c.device, c.id, state);
        ClaimKeepsConsumedOnce(s, t, pid, c.device, c.id, state);
      } else {
        SameHeld(s, t, pid);
        SamePassed(s, t, pid);
      }
    }
  }

  lemma SamePassed(s: System, t: System, pid: nat)
    requires pid in s.clients && !s.clients[pid].Verified? && pid in t.clients && !t.clients[pid].Verified?
    requires t.clients == s.clients[pid := t.clients[pid]]
    ensures forall p, id :: Passed(t, p, id) == Passed(s, p, id)
  {
  }

  lemma SameHeld(s: System, t: System, pid: nat)
    requires pid in s.clients && !s.clients[pid].Returned? && pid in t.clients && !t.clients[pid].Returned?
    requires t.clients == s.clients[pid := t.clients[pid]]
    ensures forall p, id :: Holds(t, p, id) == Holds(s, p, id)
  {
  }

  lemma ConsumeStep(s: System, pid: nat)
    requires Inv(s)
    ensures StepOk(s, Consume(pid))
  {
    if pid in s.clients && s.clients[pid].Submitting? {
      var c, t := s.clients[pid], Next(s, Consume(pid));
      var state := Fold(s.log).value;
      SameHeld(s, t, pid);
      if ConsumedLog(s.log, c.id, c.device, c.response).Ok? {
        var line := Entry("consumed", c.id, c.device, c.response);
        FoldSnoc(s.log, line);
        LoggedDevice(s.log, c.id);
        OneDeviceSnoc(s.log, line);
        assert Passed(t, pid, c.id);
        forall id | id in state && state[id].consumed ensures exists p :: Passed(t, p, id) {
          var p :| Passed(s, p, id);
          assert Passed(t, p, id);
        }
        forall p, id | p != pid ensures Passed(t, p, id) == Passed(s, p, id) {
        }
      } else {
        SamePassed(s, t, pid);
      }
    }
  }

  lemma QuietStep(s: System, step: Step)
    requires Inv(s) && !step.Claim? && !step.Consume?
    ensures StepOk(s, step)
  {
    var t := Next(s, step);
    forall p, id ensures Holds(t, p, id) == Holds(s, p, id) && Passed(t, p, id) == Passed(s, p, id) {
    }
  }

  lemma NextKeepsInv(s: System, step: Step)
    requires Inv(s)
    ensures Inv(Next(s, step)) && s.log <= Next(s, step).log
  {
    match step
    case Claim(pid, expires) => ClaimStep(s, pid, expires);
    case Consume(pid) => ConsumeStep(s, pid);
    case _ => QuietStep(s, step);
  }

  /** Over any interleaving the log folds, names one device per challenge, and each challenge is
      returned by one `issue_challenge` call and passes one `authenticate` call at most. */
  lemma {:induction false} RunKeepsInv(steps: seq<Step>)
    ensures Inv(Run(EMPTY, steps))
  {
    if steps == [] {
    } else {
      RunKeepsInv(steps[..|steps| - 1]);
      NextKeepsInv(Run(EMPTY, steps[..|steps| - 1]), steps[|steps| - 1]);
    }
  }

  lemma {:induction false} LogGrows(steps: seq<Step>, n: nat)
    requires n <= |steps|
    ensures Run(EMPTY, steps[..n]).log <= Run(EMPTY, steps).log
    decreases |steps|
  {
    if n < |steps| {
      var init := steps[..|steps| - 1];
      LogGrows(init, n);
      assert init[..n] == steps[..n];
      RunKeepsInv(init);
      NextKeepsInv(Run(EMPTY, init), steps[|steps| - 1]);
    } else {
      assert steps[..n] == steps;
    }
  }

  /** No challenge ever moves back from issued or consumed, at any two moments of any run. */
  lemma RunNeverBack(steps: seq<Step>, n: nat, id: string)
    requires n <= |steps|
    ensures var (before, after) := (Run(EMPTY, steps[..n]).log, Run(EMPTY, steps).log);
      && Fold(before).Ok? && Fold(after).Ok?
      && Rank(StatusIn(Fold(before).value, id)) <= Rank(StatusIn(Fold(after).value, id))
  {
    var before, after := Run(EMPTY, steps[..n]).log, Run(EMPTY, steps).log;
    RunKeepsInv(steps[..n]);
    RunKeepsInv(steps);
    LogGrows(steps, n);
    assert after[..|before|] == before;
    StatusNeverBack(after, |before|, id);
  }

  /** Whoever passed verification did so with a challenge that was returned to someone for the
      same device, and nobody else passed with it. */
  lemma VerifiedWasReturned(steps: seq<Step>, s: System, pid: nat, id: string)
    requires s == Run(EMPTY, steps) && Passed(s, pid, id)
    ensures exists p :: Holds(s, p, id) && s.clients[p].device == s.clients[pid].device
    ensures forall q :: Passed(s, q, id) ==> q == pid
  {
    RunKeepsInv(steps);
    var p :| Holds(s, p, id);
    assert s.clients[p].device == Fold(s.log).value[id].deviceId;
  }

  /** An authentication passes the ledger exactly when its challenge was returned for the same device
      and nobody passed with it before. */
  lemma ConsumePassesIff(steps: seq<Step>, s: System, pid: nat)
    requires s == Run(EMPTY, steps) && pid in s.clients && s.clients[pid].Submitting?
    requires SafeIdentifier(s.clients[pid].id) && SafeIdentifier(s.clients[pid].device)
    ensures var c := s.clients[pid];
      Next(s, Consume(pid)).clients[pid]
      == if (exists p :: Holds(s, p, c.id) && s.clients[p].device == c.device) && !(exists q :: Passed(s, q, c.id))
         then Verified(c.device, c.id) else Raised(ReplayError)
  {
    RunKeepsInv(steps);
    var c, state := s.clients[pid], Fold(s.log).value;
    if c.id in state {
      var p :| Holds(s, p, c.id);
      assert state[c.id].deviceId == s.clients[p].device;
    }
  }

  /*** Which challenge a call settles on ***/

  /** What one look at the next challenge of the bank leads to. */
  lemma ReadSettles(s: System, pid: nat)
    requires Fold(s.log).Ok? && pid in s.clients && s.clients[pid].Scanning?
    ensures var c := s.clients[pid];
      Next(s, ReadStatus(pid))
      == s.(clients := s.clients[pid :=
           if c.next >= |c.bank| then Raised(EnrollmentError)
           else if !SafeIdentifier(c.bank[c.next]) then Raised(ValueError)
           else if Issued(s.log, c.bank[c.next]) then Scanning(c.device, c.bank, c.next + 1)
           else Claiming(c.device, c.bank[c.next])])
  {
    var c := s.clients[pid];
    if c.next < |c.bank| {
      AvailableIffUnissued(s.log, c.bank[c.next]);
    }
  }

  /** In step `m` the client read element `i` of its bank. */
  ghost predicate Reads(steps: seq<Step>, m: nat, pid: nat, device: string, bank: seq<string>, i: nat) {
    && m < |steps| && steps[m] == ReadStatus(pid)
    && pid in Run(EMPTY, steps[..m]).clients
    && Run(EMPTY, steps[..m]).clients[pid] == Scanning(device, bank, i)
  }

  /** In step `m` the client read element `i` of its bank, and the log had issued it. */
  ghost predicate SawIssued(steps: seq<Step>, m: nat, pid: nat, device: string, bank: seq<string>, i: nat) {
    i < |bank| && Reads(steps, m, pid, device, bank, i) && Issued(Run(EMPTY, steps[..m]).log, bank[i])
  }

  ghost predicate OnceSawIssued(steps: seq<Step>, pid: nat, device: string, bank: seq<string>, i: nat) {
    exists m: nat :: SawIssued(steps, m, pid, device, bank, i)
  }

  /** The client asked for this bank and has seen its first `n` challenges issued, each at a read of
      its own. */
  ghost predicate SawAllIssued(steps: seq<Step>, pid: nat, device: string, bank: seq<string>, n: nat) {
    && StartIssue(pid, device, bank) in steps
    && n <= |bank|
    && forall i: nat :: i < n ==> OnceSawIssued(steps, pid, device, bank, i)
  }

  lemma SawMore(steps: seq<Step>, step: Step, m: nat, pid: nat, device: string, bank: seq<string>, i: nat)
    requires SawIssued(steps, m, pid, device, bank, i)
    ensures SawIssued(steps + [step], m, pid, device, bank, i)
  {
    assert (steps + [step])[..m] == steps[..m];
  }

  lemma SawAllMore(steps: seq<Step>, step: Step, pid: nat, device: string, bank: seq<string>, n: nat)
    requires SawAllIssued(steps, pid, device, bank, n)
    ensures SawAllIssued(steps + [step], pid, device, bank, n)
  {
    forall i: nat | i < n ensures OnceSawIssued(steps + [step], pid, device, bank, i) {
      assert OnceSawIssued(steps, pid, device, bank, i);
      var m: nat :| SawIssued(steps, m, pid, device, bank, i);
      SawMore(steps, step, m, pid, device, bank, i);
    }
  }

  lemma SawOneMore(steps: seq<Step>, pid: nat, device: string, bank: seq<string>, n: nat)
    requires SawAllIssued(steps, pid, device, bank, n) && n < |bank|
    requires pid in Run(EMPTY, steps).clients && Run(EMPTY, steps).clients[pid] == Scanning(device, bank, n)
    requires Issued(Run(EMPTY, steps).log, bank[n])
    ensures SawAllIssued(steps + [ReadStatus(pid)], pid, device, bank, n + 1)
  {
    var longer := steps + [ReadStatus(pid)];
    SawAllMore(steps, ReadStatus(pid), pid, device, bank, n);
    assert longer[..|steps|] == steps;
    assert SawIssued(longer, |steps|, pid, device, bank, n);
  }

  /** Only a start or a read of its own makes a client scan. */
  lemma ScanningStep(s: System, step: Step, pid: nat)
    requires pid in Next(s, step).clients && Next(s, step).clients[pid].Scanning?
    ensures var c := Next(s, step).clients[pid];
      || (pid in s.clients && s.clients[pid] == c)
      || (step == StartIssue(pid, c.device, c.bank) && c.next == 0)
      || (step == ReadStatus(pid) && pid in s.clients && s.clients[pid].Scanning?)
  {
  }

  lemma {:induction false} ScanningSawIssued(steps: seq<Step>, pid: nat)
    requires pid in Run(EMPTY, steps).clients && Run(EMPTY, steps).clients[pid].Scanning?
    ensures var c := Run(EMPTY, steps).clients[pid]; SawAllIssued(steps, pid, c.device, c.bank, c.next)
  {
    if steps == [] {
    } else {
      var init, step := steps[..|steps| - 1], steps[|steps| - 1];
      var s, c := Run(EMPTY, init), Run(EMPTY, steps).clients[pid];
      assert steps == init + [step];
      ScanningStep(s, step, pid);
      if pid in s.clients && s.clients[pid] == c {
        ScanningSawIssued(init, pid);
        SawAllMore(init, step, pid, c.device, c.bank, c.next);
      } else if step == ReadStatus(pid) {
        ScanningSawIssued(init, pid);
        RunKeepsInv(init);
        ReadSettles(s, pid);
        SawOneMore(init, pid, c.device, c.bank, c.next - 1);
      }
    }
  }

  /** In step `m` the call settled on element `n` of its bank: no line had issued it by then, and the
      call had seen every earlier element issued. */
  ghost predicate SettledOn(steps: seq<Step>, m: nat, pid: nat, device: string, bank: seq<string>, n: nat) {
    && n < |bank| && Reads(steps, m, pid, device, bank, n) && SafeIdentifier(bank[n])
    && !Issued(Run(EMPTY, steps[..m]).log, bank[n])
    && SawAllIssued(steps[..m], pid, device, bank, n)
  }

  lemma SettledMore(steps: seq<Step>, step: Step, m: nat, pid: nat, device: string, bank: seq<string>, n: nat)
    requires SettledOn(steps, m, pid, device, bank, n)
    ensures SettledOn(steps + [step], m, pid, device, bank, n)
  {
    assert (steps + [step])[..m] == steps[..m];
  }

  predicate HasChallenge(s: System, pid: nat, device: string, id: string) {
    pid in s.clients && s.clients[pid] in {Claiming(device, id), Returned(device, id)}
  }

  lemma HasChallengeStep(s: System, step: Step, pid: nat, device: string, id: string)
    requires HasChallenge(Next(s, step), pid, device, id)
    ensures HasChallenge(s, pid, device, id)
      || (step == ReadStatus(pid) && pid in s.clients && s.clients[pid].Scanning?)
  {
  }

  /** Whatever challenge a call claims or returns, over any interleaving, it is the first of its bank
      that the call did not see issued, and was not issued when the call looked. */
  lemma {:induction false} SettlesOnFirstFree(steps: seq<Step>, pid: nat, device: string, id: string)
    returns (m: nat, bank: seq<string>, n: nat)
    requires HasChallenge(Run(EMPTY, steps), pid, device, id)
    ensures SettledOn(steps, m, pid, device, bank, n) && bank[n] == id
  {
    if steps == [] {
    } else {
      var init, step := steps[..|steps| - 1], steps[|steps| - 1];
      var s := Run(EMPTY, init);
      assert steps == init + [step];
      HasChallengeStep(s, step, pid, device, id);
      if HasChallenge(s, pid, device, id) {
        m, bank, n := SettlesOnFirstFree(init, pid, device, id);
        SettledMore(init, step, m, pid, device, bank, n);
      } else {
        RunKeepsInv(init);
        ReadSettles(s, pid);
        ScanningSawIssued(init, pid);
        m, bank, n := |init|, s.clients[pid].bank, s.clients[pid].next;
        assert steps[..m] == init;
      }
    }
  }

  lemma RaisedStep(s: System, step: Step, pid: nat)
    requires Fold(s.log).Ok? && pid in Next(s, step).clients
    requires Next(s, step).clients[pid] == Raised(EnrollmentError)
    ensures (pid in s.clients && s.clients[pid] == Raised(EnrollmentError))
      || (step == ReadStatus(pid) && pid in s.clients && s.clients[pid].Scanning?)
  {
  }

  /** A call reports that no challenge is left only after it saw every challenge of its bank issued. */
  lemma {:induction false} ExhaustedMeansAllIssued(steps: seq<Step>, pid: nat)
    returns (device: string, bank: seq<string>)
    requires pid in Run(EMPTY, steps).clients && Run(EMPTY, steps).clients[pid] == Raised(EnrollmentError)
    ensures SawAllIssued(steps, pid, device, bank, |bank|)
  {
    if steps == [] {
      device, bank := "", [];
    } else {
      var init, step := steps[..|steps| - 1], steps[|steps| - 1];
      var s := Run(EMPTY, init);
      assert steps == init + [step];
      RunKeepsInv(init);
      RaisedStep(s, step, pid);
      if pid in s.clients && s.clients[pid] == Raised(EnrollmentError) {
        device, bank := ExhaustedMeansAllIssued(init, pid);
      } else {
        ReadSettles(s, pid);
        ScanningSawIssued(init, pid);
        device, bank := s.clients[pid].device, s.clients[pid].bank;
      }
      SawAllMore(init, step, pid, device, bank, |bank|);
    }
  }

  lemma IssuedLater(before: seq<Line>, after: seq<Line>, id: string)
    requires before <= after && !Issued(before, id)
    ensures Issued(after, id) <==> exists j: nat :: |before| <= j && Names(after, j, id, "issued")
  {
    forall j: nat | j < |before| ensures Names(after, j, id, "issued") == Names(before, j, id, "issued") {
    }
  }

  /** A claim fails exactly when another caller was returned the challenge first; then the line that
      issued it was written after the call had looked and found it free. */
  lemma ClaimFailsIffRaced(steps: seq<Step>, s: System, pid: nat, expires: string)
    returns (m: nat, bank: seq<string>, n: nat)
    requires s == Run(EMPTY, steps) && pid in s.clients && s.clients[pid].Claiming?
    requires SafeIdentifier(s.clients[pid].device)
    ensures SettledOn(steps, m, pid, s.clients[pid].device, bank, n) && bank[n] == s.clients[pid].id
    ensures Next(s, Claim(pid, expires)).clients[pid] == Raised(ReplayError) <==>
      exists p :: Holds(s, p, s.clients[pid].id)
    ensures Next(s, Claim(pid, expires)).clients[pid] == Raised(ReplayError) <==>
      exists j: nat :: |Run(EMPTY, steps[..m]).log| <= j && Names(s.log, j, s.clients[pid].id, "issued")
  {
    var c := s.clients[pid];
    m, bank, n := SettlesOnFirstFree(steps, pid, c.device, c.id);
    RunKeepsInv(steps);
    IssueAnswers(s.log, c.id, c.device, expires);
    FoldsIffLawful(s.log);
    LogGrows(steps, m);
    assert Issued(s.log, c.id) <==> c.id in Fold(s.log).value;
    IssuedLater(Run(EMPTY, steps[..m]).log, s.log, c.id);
  }

  predicate Authenticates(s: System, pid: nat, device: string, id: string) {
    pid in s.clients
    && ((s.clients[pid].Submitting? && s.clients[pid].device == device && s.clients[pid].id == id)
        || s.clients[pid] == Verified(device, id))
  }

  lemma AuthenticatesStep(s: System, step: Step, pid: nat, device: string, id: string)
    requires Authenticates(Next(s, step), pid, device, id)
    ensures Authenticates(s, pid, device, id)
      || (step.StartAuthenticate? && (step.pid, step.device, step.id) == (pid, device, id))
  {
  }

  /** Whoever passed, or is about to, asked for that challenge and that device. */
  lemma {:induction false} PassedAsAsked(steps: seq<Step>, pid: nat, device: string, id: string)
    returns (response: string)
    requires Authenticates(Run(EMPTY, steps), pid, device, id)
    ensures StartAuthenticate(pid, device, id, response) in steps
  {
    if steps == [] {
      response := "";
    } else {
      var init, step := steps[..|steps| - 1], steps[|steps| - 1];
      AuthenticatesStep(Run(EMPTY, init), step, pid, device, id);
      if Authenticates(Run(EMPTY, init), pid, device, id) {
        response := PassedAsAsked(init, pid, device, id);
      } else {
        response := step.response;
      }
    }
  }

  /*** A call that runs alone ***/

  /** As many reads by one client. */
  function Looks(pid: nat, k: nat): (steps: seq<Step>)
    ensures |steps| == k
  {
    seq(k, _ => ReadStatus(pid))
  }

  lemma {:induction false} RunConcat(s: System, a: seq<Step>, b: seq<Step>)
    ensures Run(s, a + b) == Run(Run(s, a), b)
  {
    if b == [] {
      assert a + b == a;
    } else {
      RunConcat(s, a, b[..|b| - 1]);
      assert (a + b)[..|a + b| - 1] == a + b[..|b| - 1] && (a + b)[|a + b| - 1] == b[|b| - 1];
    }
  }

  lemma RunOne(s: System, step: Step)
    ensures Run(s, [step]) == Next(s, step)
  {
    assert [step][..0] == [];
  }

  /** Looking at issued challenges only moves a call along its bank. */
  lemma {:induction false} LooksPast(s: System, pid: nat, device: string, bank: seq<string>, k: nat)
    requires Fold(s.log).Ok? && pid in s.clients && s.clients[pid] == Scanning(device, bank, 0)
    requires k <= |bank| && forall i :: 0 <= i < k ==> SafeIdentifier(bank[i]) && Issued(s.log, bank[i])
    ensures Run(s, Looks(pid, k)) == s.(clients := s.clients[pid := Scanning(device, bank, k)])
  {
    if k == 0 {
      assert s.clients == s.clients[pid := Scanning(device, bank, 0)];
    } else {
      LooksPast(s, pid, device, bank, k - 1);
      assert Looks(pid, k)[..k - 1] == Looks(pid, k - 1);
      ReadSettles(Run(s, Looks(pid, k - 1)), pid);
    }
  }

  /** The steps of one `issue_challenge` call that looks at `k` challenges before it settles. */
  function IssueCall(pid: nat, device: string, bank: seq<string>, k: nat): seq<Step> {
    [StartIssue(pid, device, bank)] + Looks(pid, k) + [ReadStatus(pid)]
  }

  lemma CallLooks(s: System, pid: nat, device: string, bank: seq<string>, k: nat)
    requires Fold(s.log).Ok? && pid !in s.clients && k <= |bank|
    requires forall i :: 0 <= i < k ==> SafeIdentifier(bank[i]) && Issued(s.log, bank[i])
    ensures Run(s, IssueCall(pid, device, bank, k))
      == Next(s.(clients := s.clients[pid := Scanning(device, bank, k)]), ReadStatus(pid))
  {
    var start, looks := [StartIssue(pid, device, bank)], Looks(pid, k);
    var t := s.(clients := s.clients[pid := Scanning(device, bank, 0)]);
    RunConcat(s, start + looks, [ReadStatus(pid)]);
    RunConcat(s, start, looks);
    RunOne(s, start[0]);
    LooksPast(t, pid, device, bank, k);
    assert t.clients[pid := Scanning(device, bank, k)] == s.clients[pid := Scanning(device, bank, k)];
    RunOne(Run(t, looks), ReadStatus(pid));
  }

  /** A call that nobody interrupts returns the first challenge of its bank that no line issued, and
      adds that line. */
  lemma AloneReturnsFirstFree(s: System, pid: nat, device: string, bank: seq<string>, k: nat, expires: string)
    requires Fold(s.log).Ok? && pid !in s.clients && SafeIdentifier(device)
    requires k < |bank| && forall i :: 0 <= i <= k ==> SafeIdentifier(bank[i])
    requires !Issued(s.log, bank[k]) && forall i :: 0 <= i < k ==> Issued(s.log, bank[i])
    ensures Run(s, IssueCall(pid, device, bank, k) + [Claim(pid, expires)])
      == System(s.log + [Entry("issued", bank[k], device, expires)], s.clients[pid := Returned(device, bank[k])])
  {
    CallLooks(s, pid, device, bank, k);
    var looked := s.(clients := s.clients[pid := Scanning(device, bank, k)]);
    ReadSettles(looked, pid);
    var claiming := Next(looked, ReadStatus(pid));
    RunConcat(s, IssueCall(pid, device, bank, k), [Claim(pid, expires)]);
    RunOne(claiming, Claim(pid, expires));
    IssueAnswers(s.log, bank[k], device, expires);
    assert claiming.clients[pid := Returned(device, bank[k])] == s.clients[pid := Returned(device, bank[k])];
  }

  /** With every challenge of the bank issued it reports that none is left, and writes nothing. */
  lemma AloneExhausted(s: System, pid: nat, device: string, bank: seq<string>)
    requires Fold(s.log).Ok? && pid !in s.clients
    requires forall i :: 0 <= i < |bank| ==> SafeIdentifier(bank[i]) && Issued(s.log, bank[i])
    ensures Run(s, IssueCall(pid, device, bank, |bank|))
      == s.(clients := s.clients[pid := Raised(EnrollmentError)])
  {
    CallLooks(s, pid, device, bank, |bank|);
    var looked := s.(clients := s.clients[pid := Scanning(device, bank, |bank|)]);
    ReadSettles(looked, pid);
    assert looked.clients[pid := Raised(EnrollmentError)] == s.clients[pid := Raised(EnrollmentError)];
  }
}
