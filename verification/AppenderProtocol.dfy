/**
 Any number of appenders at work on one event store, with a recovery rebuild beside them. The
 locked section of `append` is one step; the index update and the snapshot update, which run
 outside that lock under locks of their own, are later steps. A process may stop between steps,
 after creating an empty journal, or after writing only some of the four index files.
 */
module AppenderProtocol {
  import opened Wrappers
  import opened Events
  import opened HashChain
  import opened Indexes
  import opened EventStore
  import EventFiles

  /** How far an appender has come with the record it wrote. */
  datatype Phase = Written | IndexesDone | Returned

  datatype Appender = Appender(phase: Phase, record: IndexUpdate)

  datatype System = System(store: Store, appenders: map<nat, Appender>)

  datatype Step =
    | Append(pid: nat, request: Request, stamp: Stamp)
    | CreateAndStop(request: Request, stamp: Stamp)
    | UpdateIndexes(pid: nat)
    | UpdateSomeIndexesAndStop(pid: nat, files: nat)
    | UpdateSnapshot(pid: nat)
    | Stop(pid: nat)
    | UnlinkIndex(file: nat)
    | ReplayRecord(path: Path, k: nat)
    | ReplaySnapshot(path: Path, k: nat)

  /** An index update cut short: the files are written in this order. */
  function PartlyWritten(old_: Index, new_: Index, files: nat): Index {
    Index(
      if files >= 1 then new_.scans else old_.scans,
      if files >= 2 then new_.chips else old_.chips,
      if files >= 3 then new_.statuses else old_.statuses,
      if files >= 4 then new_.latest else old_.latest)
  }

  function WithoutFile(index: Index, file: nat): Index {
    match file
    case 0 => index.(scans := map[])
    case 1 => index.(chips := map[])
    case 2 => index.(statuses := map[])
    case 3 => index.(latest := [])
    case _ => index
  }

  predicate AtPhase(s: System, pid: nat, phase: Phase) {
    pid in s.appenders && s.appenders[pid].phase == phase
  }

  function SetSnapshot(store: Store, e: Event, count: int): Store {
    store.(snapshots := store.snapshots[e.scanId := SnapshotOf(e, count)])
  }

  /** A step that is not possible in a state leaves it unchanged. */
  ghost function Next(cfg: Config, s: System, step: Step): System {
    match step
    case Append(pid, request, stamp) =>
      var written := LockedAppend(cfg, s.store, request, stamp);
      if pid in s.appenders || written.Err? then s
      else System(s.store.(journals := Extended(s.store.journals, written.value)),
                  s.appenders[pid := Appender(Written, written.value)])
    case CreateAndStop(request, stamp) =>
      var written := LockedAppend(cfg, s.store, request, stamp);
      if written.Err? || written.value.path in s.store.journals then s
      else s.(store := s.store.(journals := s.store.journals[written.value.path := []]))
    case UpdateIndexes(pid) =>
      if !AtPhase(s, pid, Written) then s
      else System(s.store.(index := ApplyUpdate(s.store.index, s.appenders[pid].record)),
                  s.appenders[pid := s.appenders[pid].(phase := IndexesDone)])
    case UpdateSomeIndexesAndStop(pid, files) =>
      if !AtPhase(s, pid, Written) then s
      else
        var whole := ApplyUpdate(s.store.index, s.appenders[pid].record);
        System(s.store.(index := PartlyWritten(s.store.index, whole, files)), s.appenders - {pid})
    case UpdateSnapshot(pid) =>
      if !AtPhase(s, pid, IndexesDone) then s
      else
        var e := s.appenders[pid].record.event;
        System(SetSnapshot(s.store, e, e.sequence), s.appenders[pid := s.appenders[pid].(phase := Returned)])
    case Stop(pid) => s.(appenders := s.appenders - {pid})
    case UnlinkIndex(file) => s.(store := s.store.(index := WithoutFile(s.store.index, file)))
    case ReplayRecord(path, k) =>
      if !Recorded(s.store.journals, path, k) then s
      else s.(store := s.store.(index := ApplyUpdate(s.store.index, IndexUpdate(s.store.journals[path][k], path))))
    case ReplaySnapshot(path, k) =>
      if !Recorded(s.store.journals, path, k) then s
      else s.(store := SetSnapshot(s.store, s.store.journals[path][k], k + 1))
  }

  ghost function Run(cfg: Config, s: System, steps: seq<Step>): System {
    if steps == [] then s else Next(cfg, Run(cfg, s, steps[..|steps| - 1]), steps[|steps| - 1])
  }

  const IDLE := System(Store(map[], EMPTY, map[]), map[])

  /*** The invariant ***/

  /** An appender's record stands in its journal, at the position its sequence number names. */
  predicate RecordInPlace(journals: Journals, w: IndexUpdate) {
    1 <= w.event.sequence && Recorded(journals, w.path, w.event.sequence - 1)
    && journals[w.path][w.event.sequence - 1] == w.event
  }

  predicate SamePlace(a: Appender, b: Appender) {
    a.record.path == b.record.path && a.record.event.sequence == b.record.event.sequence
  }

  ghost predicate AppendersOk(s: System) {
    && (forall pid :: pid in s.appenders ==> RecordInPlace(s.store.journals, s.appenders[pid].record))
    && (forall p, q :: p in s.appenders && q in s.appenders && p != q ==> !SamePlace(s.appenders[p], s.appenders[q]))
  }

  ghost predicate Inv(cfg: Config, s: System) {
    StoreOk(cfg.hash, s.store) && AppendersOk(s)
  }

  ghost predicate StepOk(cfg: Config, s: System, step: Step) {
    Inv(cfg, Next(cfg, s, step)) && Grows(s.store.journals, Next(cfg, s, step).store.journals)
  }

  lemma NewAppenderOk(s: System, t: System, pid: nat, w: IndexUpdate)
    requires AppendersOk(s) && pid !in s.appenders
    requires t.store.journals == Extended(s.store.journals, w)
    requires t.appenders == s.appenders[pid := Appender(Written, w)]
    requires w.event.sequence == |JournalAt(s.store.journals, w.path)| + 1
    ensures AppendersOk(t)
  {
    forall q | q in s.appenders
      ensures RecordInPlace(t.store.journals, s.appenders[q].record)
      ensures !SamePlace(s.appenders[q], t.appenders[pid])
    {
      assert RecordInPlace(s.store.journals, s.appenders[q].record);
    }
    assert RecordInPlace(t.store.journals, w);
  }

  lemma AppendStep(cfg: Config, s: System, pid: nat, request: Request, stamp: Stamp)
    requires Inv(cfg, s)
    ensures StepOk(cfg, s, Append(pid, request, stamp))
  {
    var written := LockedAppend(cfg, s.store, request, stamp);
    if pid !in s.appenders && written.Ok? {
      var t := Next(cfg, s, Append(pid, request, stamp));
      AppendKeepsStoreOk(cfg, s.store, request, stamp);
      NewAppenderOk(s, t, pid, written.value);
    }
  }

  lemma CreateStep(cfg: Config, s: System, request: Request, stamp: Stamp)
    requires Inv(cfg, s)
    ensures StepOk(cfg, s, CreateAndStop(request, stamp))
  {
    var written := LockedAppend(cfg, s.store, request, stamp);
    if written.Ok? && written.value.path !in s.store.journals {
      LocatedJournal(cfg.hash, s.store, request.scanId);
      var after := s.store.journals[written.value.path := []];
      assert JournalsOk(cfg.hash, after);
      GrowthKeepsViews(s.store.journals, after, s.store);
      forall q | q in s.appenders ensures RecordInPlace(after, s.appenders[q].record) {
        assert RecordInPlace(s.store.journals, s.appenders[q].record);
      }
    }
  }

  /** Writing a prefix of the index files, or none, keeps what the invariant says of entries. */
  lemma PartlyWrittenOk(hash: ContentHash, store: Store, whole: Index, files: nat)
    requires StoreOk(hash, store) && StoreOk(hash, store.(index := whole))
    ensures StoreOk(hash, store.(index := PartlyWritten(store.index, whole, files)))
  {
  }

  lemma OwnUpdateOk(cfg: Config, s: System, pid: nat)
    requires Inv(cfg, s) && pid in s.appenders
    ensures StoreOk(cfg.hash, s.store.(index := ApplyUpdate(s.store.index, s.appenders[pid].record)))
    ensures var e := s.appenders[pid].record.event; StoreOk(cfg.hash, SetSnapshot(s.store, e, e.sequence))
  {
    var w := s.appenders[pid].record;
    assert RecordInPlace(s.store.journals, w);
    IndexUpdateKeepsStoreOk(cfg.hash, s.store, w.path, w.event.sequence - 1);
    SnapshotUpdateKeepsStoreOk(cfg.hash, s.store, w.path, w.event.sequence - 1);
    assert IndexUpdate(w.event, w.path) == w;
  }

  /** A step that leaves the journals alone has only its derived files to answer for. */
  lemma DerivedStep(cfg: Config, s: System, t: System)
    requires Inv(cfg, s) && StoreOk(cfg.hash, t.store) && t.store.journals == s.store.journals
    requires forall pid :: pid in t.appenders ==>
      pid in s.appenders && t.appenders[pid].record == s.appenders[pid].record
    ensures Inv(cfg, t) && Grows(s.store.journals, t.store.journals)
  {
    forall pid | pid in t.appenders ensures RecordInPlace(t.store.journals, t.appenders[pid].record) {
      assert RecordInPlace(s.store.journals, s.appenders[pid].record);
    }
    forall p, q | p in t.appenders && q in t.appenders && p != q ensures !SamePlace(t.appenders[p], t.appenders[q]) {
      assert !SamePlace(s.appenders[p], s.appenders[q]);
    }
  }

  lemma OwnStepsStoreOk(cfg: Config, s: System, pid: nat, files: nat)
    requires Inv(cfg, s)
    ensures StoreOk(cfg.hash, Next(cfg, s, UpdateIndexes(pid)).store)
    ensures StoreOk(cfg.hash, Next(cfg, s, UpdateSomeIndexesAndStop(pid, files)).store)
    ensures StoreOk(cfg.hash, Next(cfg, s, UpdateSnapshot(pid)).store)
  {
    if pid in s.appenders {
      OwnUpdateOk(cfg, s, pid);
      PartlyWrittenOk(cfg.hash, s.store, ApplyUpdate(s.store.index, s.appenders[pid].record), files);
    }
  }

  lemma UnlinkStepOk(cfg: Config, s: System, file: nat)
    requires Inv(cfg, s)
    ensures StepOk(cfg, s, UnlinkIndex(file))
  {
    DerivedStep(cfg, s, Next(cfg, s, UnlinkIndex(file)));
  }

  lemma ReplayStepsStoreOk(cfg: Config, s: System, path: Path, k: nat)
    requires Inv(cfg, s)
    ensures StoreOk(cfg.hash, Next(cfg, s, ReplayRecord(path, k)).store)
    ensures StoreOk(cfg.hash, Next(cfg, s, ReplaySnapshot(path, k)).store)
  {
    if Recorded(s.store.journals, path, k) {
      IndexUpdateKeepsStoreOk(cfg.hash, s.store, path, k);
      SnapshotUpdateKeepsStoreOk(cfg.hash, s.store, path, k);
    }
  }

  lemma UpdateIndexesOk(cfg: Config, s: System, pid: nat)
    requires Inv(cfg, s)
    ensures StepOk(cfg, s, UpdateIndexes(pid))
  {
    OwnStepsStoreOk(cfg, s, pid, 0);
    DerivedStep(cfg, s, Next(cfg, s, UpdateIndexes(pid)));
  }

  lemma UpdateSomeIndexesOk(cfg: Config, s: System, pid: nat, files: nat)
    requires Inv(cfg, s)
    ensures StepOk(cfg, s, UpdateSomeIndexesAndStop(pid, files))
  {
    OwnStepsStoreOk(cfg, s, pid, files);
    DerivedStep(cfg, s, Next(cfg, s, UpdateSomeIndexesAndStop(pid, files)));
  }

  lemma UpdateSnapshotOk(cfg: Config, s: System, pid: nat)
    requires Inv(cfg, s)
    ensures StepOk(cfg, s, UpdateSnapshot(pid))
  {
    OwnStepsStoreOk(cfg, s, pid, 0);
    DerivedStep(cfg, s, Next(cfg, s, UpdateSnapshot(pid)));
  }

  /** A step of a concurrent rebuild. */
  lemma ReplayStepOk(cfg: Config, s: System, path: Path, k: nat, step: Step)
    requires Inv(cfg, s) && step in {ReplayRecord(path, k), ReplaySnapshot(path, k)}
    ensures StepOk(cfg, s, step)
  {
    ReplayStepsStoreOk(cfg, s, path, k);
    DerivedStep(cfg, s, Next(cfg, s, step));
  }

  lemma StopStepOk(cfg: Config, s: System, pid: nat)
    requires Inv(cfg, s)
    ensures StepOk(cfg, s, Stop(pid))
  {
    DerivedStep(cfg, s, Next(cfg, s, Stop(pid)));
  }

  lemma NextKeepsInv(cfg: Config, s: System, step: Step)
    requires Inv(cfg, s)
    ensures StepOk(cfg, s, step)
  {
    match step
    case Append(pid, request, stamp) => AppendStep(cfg, s, pid, request, stamp);
    case CreateAndStop(request, stamp) => CreateStep(cfg, s, request, stamp);
    case UpdateIndexes(pid) => UpdateIndexesOk(cfg, s, pid);
    case UpdateSomeIndexesAndStop(pid, files) => UpdateSomeIndexesOk(cfg, s, pid, files);
    case UpdateSnapshot(pid) => UpdateSnapshotOk(cfg, s, pid);
    case Stop(pid) => StopStepOk(cfg, s, pid);
    case UnlinkIndex(file) => UnlinkStepOk(cfg, s, file);
    case ReplayRecord(path, k) => ReplayStepOk(cfg, s, path, k, step);
    case ReplaySnapshot(path, k) => ReplayStepOk(cfg, s, path, k, step);
  }

  /** In every state that any interleaving of steps reaches, crashes and rebuilds included: each
      scan has at most one journal, which verifies; every scan entry and snapshot projects a
      record of it; and no two appenders hold the same place in a journal. */
  lemma {:induction false} RunKeepsInv(cfg: Config, s: System, steps: seq<Step>)
    requires Inv(cfg, s)
    ensures Inv(cfg, Run(cfg, s, steps)) && Grows(s.store.journals, Run(cfg, s, steps).store.journals)
  {
    if steps == [] {
    } else {
      RunKeepsInv(cfg, s, steps[..|steps| - 1]);
      NextKeepsInv(cfg, Run(cfg, s, steps[..|steps| - 1]), steps[|steps| - 1]);
    }
  }

  lemma {:induction false} RunConcat(cfg: Config, s: System, a: seq<Step>, b: seq<Step>)
    ensures Run(cfg, s, a + b) == Run(cfg, Run(cfg, s, a), b)
  {
    if b == [] {
      assert a + b == a;
    } else {
      var init, last := b[..|b| - 1], b[|b| - 1];
      RunConcat(cfg, s, a, init);
      assert (a + b)[..|a + b| - 1] == a + init && (a + b)[|a + b| - 1] == last;
    }
  }

  /** No record is lost or rewritten: once an appender has written its record, every later state
      has it at the same place of the same, verifying journal. */
  lemma WrittenRecordStays(cfg: Config, steps: seq<Step>, later: seq<Step>, pid: nat)
    requires pid in Run(cfg, IDLE, steps).appenders
    ensures var w := Run(cfg, IDLE, steps).appenders[pid].record;
      var journals := Run(cfg, IDLE, steps + later).store.journals;
      RecordInPlace(journals, w) && ChainOk(cfg.hash, journals[w.path])
  {
    var s := Run(cfg, IDLE, steps);
    RunKeepsInv(cfg, IDLE, steps);
    RunKeepsInv(cfg, s, later);
    RunConcat(cfg, IDLE, steps, later);
    assert RecordInPlace(s.store.journals, s.appenders[pid].record);
  }

  lemma RunOneMore(cfg: Config, s: System, steps: seq<Step>, step: Step)
    ensures Run(cfg, s, steps + [step]) == Next(cfg, Run(cfg, s, steps), step)
  {
    assert (steps + [step])[..|steps|] == steps;
  }

  /** What an append wrote carries its request, and stays so in its scan's journal. */
  lemma AppendedRecordStays(cfg: Config, steps: seq<Step>, later: seq<Step>, pid: nat, request: Request, stamp: Stamp)
    requires pid !in Run(cfg, IDLE, steps).appenders
    requires pid in Run(cfg, IDLE, steps + [Append(pid, request, stamp)]).appenders
    ensures var w := Run(cfg, IDLE, steps + [Append(pid, request, stamp)]).appenders[pid].record;
      var journals := Run(cfg, IDLE, steps + [Append(pid, request, stamp)] + later).store.journals;
      && Carries(cfg, request, stamp, w.event) && w.path.scanId == request.scanId
      && RecordInPlace(journals, w) && ChainOk(cfg.hash, journals[w.path])
  {
    var s := Run(cfg, IDLE, steps);
    RunKeepsInv(cfg, IDLE, steps);
    RunOneMore(cfg, IDLE, steps, Append(pid, request, stamp));
    AppendKeepsStoreOk(cfg, s.store, request, stamp);
    WrittenRecordStays(cfg, steps + [Append(pid, request, stamp)], later, pid);
  }

  lemma RunThree(cfg: Config, s: System, a: Step, b: Step, c: Step)
    ensures Run(cfg, s, [a, b, c]) == Next(cfg, Next(cfg, Next(cfg, s, a), b), c)
  {
    RunOneMore(cfg, s, [], a);
    RunOneMore(cfg, s, [a], b);
    RunOneMore(cfg, s, [a, b], c);
    assert [] + [a] == [a] && [a] + [b] == [a, b] && [a, b] + [c] == [a, b, c];
  }

  lemma IndexesStep(cfg: Config, s: System, pid: nat, others: map<nat, Appender>, w: IndexUpdate)
    requires s.appenders == others[pid := Appender(Written, w)]
    ensures Next(cfg, s, UpdateIndexes(pid))
      == System(s.store.(index := ApplyUpdate(s.store.index, w)), others[pid := Appender(IndexesDone, w)])
  {
  }

  lemma SnapshotStep(cfg: Config, s: System, pid: nat, others: map<nat, Appender>, w: IndexUpdate)
    requires s.appenders == others[pid := Appender(IndexesDone, w)]
    ensures Next(cfg, s, UpdateSnapshot(pid))
      == System(SetSnapshot(s.store, w.event, w.event.sequence), others[pid := Appender(Returned, w)])
  {
  }

  lemma DerivedSteps(cfg: Config, s: System, pid: nat, others: map<nat, Appender>, w: IndexUpdate)
    requires s.appenders == others[pid := Appender(Written, w)]
    ensures Next(cfg, Next(cfg, s, UpdateIndexes(pid)), UpdateSnapshot(pid))
      == System(SetSnapshot(s.store.(index := ApplyUpdate(s.store.index, w)), w.event, w.event.sequence),
                others[pid := Appender(Returned, w)])
  {
    IndexesStep(cfg, s, pid, others, w);
    SnapshotStep(cfg, Next(cfg, s, UpdateIndexes(pid)), pid, others, w);
  }

  /** An appender whose steps nobody interrupts does what one sequential append does. */
  lemma UninterruptedAppend(cfg: Config, s: System, pid: nat, request: Request, stamp: Stamp)
    requires StoreOk(cfg.hash, s.store) && pid !in s.appenders
    ensures var t := Run(cfg, s, [Append(pid, request, stamp), UpdateIndexes(pid), UpdateSnapshot(pid)]);
      var written := LockedAppend(cfg, s.store, request, stamp);
      if written.Err? then t == s
      else
        && t.appenders == s.appenders[pid := Appender(Returned, written.value)]
        && t.store == EventFiles.AfterAppend(s.store, written.value)
        && EventFiles.NewlyShown(s.store, t.store, request, stamp, written.value.event)
  {
    RunThree(cfg, s, Append(pid, request, stamp), UpdateIndexes(pid), UpdateSnapshot(pid));
    var written := LockedAppend(cfg, s.store, request, stamp);
    if written.Ok? {
      EventFiles.AppendShows(cfg, s.store, request, stamp);
      DerivedSteps(cfg, Next(cfg, s, Append(pid, request, stamp)), pid, s.appenders, written.value);
    }
  }
}
