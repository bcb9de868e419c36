/**
 The event store on values: what one lock-held section of `EventWriter.append` does to the
 journals, and what recovery rebuilds from them (app/storage/event_store/writer.py, recovery.py,
 app/storage/indexes/rebuild.py, app/storage/snapshots/builder.py). A journal is its list of
 records; the uuid, the clock and the dated directory of a new file are inputs.
 */
module EventStore {
  import opened Wrappers
  import opened Texts
  import opened Events
  import opened HashChain
  import opened Indexes
  import opened JournalText

  datatype Snapshot = Snapshot(
    scanId: string,
    chipId: string,
    status: string,
    currentStage: string,
    lastEventType: string,
    lastEventId: string,
    lastEventHash: string,
    lastSequence: int,
    eventCount: int,
    updatedAt: string,
    correlationId: string,
    latestPayload: map<string, string>,
    schemaVersion: string
  )

  function SnapshotOf(e: Event, count: int): Snapshot {
    Snapshot(e.scanId, e.chipId, StatusOf(e), e.pipelineStage, e.eventType, e.eventId, e.eventHash, e.sequence,
             count, e.timestampUtc, e.correlationId, e.payload, e.schemaVersion)
  }

  /** The snapshot shows this record, the last of `count`, field by field. */
  predicate SnapshotShows(s: Snapshot, e: Event, count: int) {
    && (s.scanId, s.chipId) == (e.scanId, e.chipId)
    && NamesStatus(e, s.status)
    && s.currentStage == e.pipelineStage
    && (s.lastEventType, s.lastEventId, s.lastEventHash) == (e.eventType, e.eventId, e.eventHash)
    && (s.lastSequence, s.eventCount) == (e.sequence, count)
    && (s.updatedAt, s.correlationId) == (e.timestampUtc, e.correlationId)
    && s.latestPayload == e.payload
    && s.schemaVersion == e.schemaVersion
  }

  type Journals = map<Path, seq<Event>>

  datatype Store = Store(journals: Journals, index: Index, snapshots: map<string, Snapshot>)

  datatype Config = Config(
    hash: ContentHash,
    codec: Codec<Event>,
    lineSize: Event -> nat,
    maximumEventBytes: nat,
    schemaVersion: string
  )

  datatype Request = Request(
    scanId: string,
    chipId: string,
    eventType: string,
    pipelineStage: string,
    correlationId: string,
    sourceComponent: string,
    componentVersion: string,
    payload: map<string, string>,
    evidenceHashes: map<string, string>,
    rejectExisting: bool
  )

  /** What the environment supplies to one append. */
  datatype Stamp = Stamp(eventId: string, now: string, directory: string)

  /*** Appending ***/

  function JournalsOf(journals: Journals, id: string): (r: set<Path>)
    ensures forall p :: p in r <==> p in journals && p.scanId == id
  {
    set p | p in journals && p.scanId == id
  }

  ghost function Pick(paths: set<Path>): (p: Path)
    requires paths != {}
    ensures p in paths
  {
    var p :| p in paths; p
  }

  /** `_locate_existing`: the indexed path if that file exists, else a search for the file name. */
  ghost function Locate(store: Store, id: string): Result<Option<Path>> {
    if id in store.index.scans && store.index.scans[id].path in store.journals then
      Ok(Some(store.index.scans[id].path))
    else
      var matches := JournalsOf(store.journals, id);
      if |matches| > 1 then Err(EventStoreError)
      else if matches == {} then Ok(None)
      else Ok(Some(Pick(matches)))
  }

  function JournalAt(journals: Journals, p: Path): seq<Event> {
    if p in journals then journals[p] else []
  }

  /** The sealed record that continues a journal. */
  function NextEvent(cfg: Config, events: seq<Event>, r: Request, stamp: Stamp): Event {
    var sequence := if events == [] then 1 else events[|events| - 1].sequence + 1;
    SealEvent(cfg.hash, Event(
      stamp.eventId, r.scanId, r.chipId, sequence, r.eventType, r.pipelineStage, stamp.now, r.correlationId,
      r.sourceComponent, r.componentVersion, r.payload, r.evidenceHashes, LastHash(events), "", cfg.schemaVersion))
  }

  /** The record says what was asked for and what the environment supplied, field by field. */
  predicate Carries(cfg: Config, r: Request, stamp: Stamp, e: Event) {
    && (e.scanId, e.chipId) == (r.scanId, r.chipId)
    && (e.eventType, e.pipelineStage, e.correlationId) == (r.eventType, r.pipelineStage, r.correlationId)
    && (e.sourceComponent, e.componentVersion) == (r.sourceComponent, r.componentVersion)
    && e.payload == r.payload
    && e.evidenceHashes == r.evidenceHashes
    && (e.eventId, e.timestampUtc) == (stamp.eventId, stamp.now)
    && e.schemaVersion == cfg.schemaVersion
  }

  /** The lock-held section of `append`. */
  ghost function LockedAppend(cfg: Config, store: Store, r: Request, stamp: Stamp): Result<IndexUpdate> {
    if !SafeIdentifier(r.scanId) || !SafeIdentifier(r.chipId) then Err(ValueError)
    else
      match Locate(store, r.scanId)
      case Err(e) => Err(e)
      case Ok(existing) =>
        if r.rejectExisting && existing.Some? then Err(ConflictError)
        else
          var path := if existing.Some? then existing.value else Path(stamp.directory, r.scanId);
          var event := NextEvent(cfg, JournalAt(store.journals, path), r, stamp);
          if cfg.lineSize(event) > cfg.maximumEventBytes then Err(EventStoreError)
          else Ok(IndexUpdate(event, path))
  }

  function Extended(journals: Journals, w: IndexUpdate): Journals {
    journals[w.path := JournalAt(journals, w.path) + [w.event]]
  }

  /*** The invariant of the store ***/

  predicate JournalOk(hash: ContentHash, p: Path, events: seq<Event>) {
    ChainOk(hash, events) && forall i :: 0 <= i < |events| ==> events[i].scanId == p.scanId
  }

  /** Every journal is an intact chain of one scan, and no scan has two. */
  ghost predicate JournalsOk(hash: ContentHash, journals: Journals) {
    && (forall p :: p in journals ==> JournalOk(hash, p, journals[p]))
    && (forall p, q :: p in journals && q in journals && p.scanId == q.scanId ==> p == q)
  }

  predicate Recorded(journals: Journals, p: Path, k: nat) {
    p in journals && k < |journals[p]|
  }

  /** The entry shows a record already in the scan's journal. */
  ghost predicate EntryOk(journals: Journals, id: string, entry: ScanEntry) {
    exists k: nat :: Recorded(journals, entry.path, k) && entry.path.scanId == id
      && EntryShows(entry, IndexUpdate(journals[entry.path][k], entry.path))
  }

  ghost predicate SnapshotOk(journals: Journals, id: string, snapshot: Snapshot) {
    exists p: Path, k: nat ::
      Recorded(journals, p, k) && p.scanId == id && SnapshotShows(snapshot, journals[p][k], k + 1)
  }

  ghost predicate StoreOk(hash: ContentHash, store: Store) {
    && JournalsOk(hash, store.journals)
    && (forall id :: id in store.index.scans ==> EntryOk(store.journals, id, store.index.scans[id]))
    && (forall id :: id in store.snapshots ==> SnapshotOk(store.journals, id, store.snapshots[id]))
  }

  /** Journals only ever grow at their ends. */
  ghost predicate Grows(before: Journals, after: Journals) {
    forall p :: p in before ==> p in after && before[p] <= after[p]
  }

  /** The located journal is the scan's own; with none located the scan has none. */
  lemma LocatedJournal(hash: ContentHash, store: Store, id: string)
    requires StoreOk(hash, store)
    ensures Locate(store, id).Ok?
    ensures var found := Locate(store, id).value;
      if found.Some? then found.value in store.journals && found.value.scanId == id
      else forall p :: p in store.journals ==> p.scanId != id
  {
    var matches := JournalsOf(store.journals, id);
    if matches != {} {
      assert matches == {Pick(matches)};
    }
    if id in store.index.scans {
      assert EntryOk(store.journals, id, store.index.scans[id]);
    }
  }

  /** In any store, sound or not, a located journal is on file, and the look-up fails exactly when no
      file stands at the indexed path and several bear the scan's name. */
  lemma LocatedIsOnFile(store: Store, id: string)
    ensures var found, indexed :=
        Locate(store, id), id in store.index.scans && store.index.scans[id].path in store.journals;
      && (found.Ok? && found.value.Some? ==> found.value.value in store.journals)
      && (found.Ok? && found.value.Some? && !indexed ==> found.value.value.scanId == id)
      && (indexed ==> found == Ok(Some(store.index.scans[id].path)))
      && (found == Ok(None) <==> !indexed && forall p :: p in store.journals ==> p.scanId != id)
      && (found.Err? <==> !indexed && |JournalsOf(store.journals, id)| > 1)
  {
  }

  lemma NextEventExtends(cfg: Config, p: Path, events: seq<Event>, r: Request, stamp: Stamp)
    requires JournalOk(cfg.hash, p, events) && p.scanId == r.scanId
    ensures var e := NextEvent(cfg, events, r, stamp);
      e.sequence == |events| + 1 && JournalOk(cfg.hash, p, events + [e]) && Carries(cfg, r, stamp, e)
  {
    var e := NextEvent(cfg, events, r, stamp);
    if events != [] {
      assert LinkOk(cfg.hash, events, |events| - 1);
    }
    assert Content(e) == Content(e.(eventHash := ""));
    SuccessorOk(cfg.hash, events, e);
  }

  /** No other record carries the request and continues the journal. */
  lemma OneRecordFits(cfg: Config, p: Path, events: seq<Event>, r: Request, stamp: Stamp, a: Event, b: Event)
    requires JournalOk(cfg.hash, p, events + [a]) && Carries(cfg, r, stamp, a)
    requires JournalOk(cfg.hash, p, events + [b]) && Carries(cfg, r, stamp, b)
    ensures a == b
  {
    var n := |events|;
    assert LinkOk(cfg.hash, events + [a], n) && LinkOk(cfg.hash, events + [b], n);
    assert Content(a) == Content(b);
    assert a == Content(a).(eventHash := a.eventHash) && b == Content(b).(eventHash := b.eventHash);
  }

  /** The journal of a scan: the one on file, or the new one an append would create. */
  predicate JournalFor(journals: Journals, r: Request, stamp: Stamp, p: Path) {
    p.scanId == r.scanId
    && (p !in journals ==> p.directory == stamp.directory && forall q :: q in journals ==> q.scanId != r.scanId)
  }

  /** What the locked section of an append answers in a sound store. `e` is the record that carries
      the request and continues the scan's journal. */
  lemma AppendAnswers(cfg: Config, store: Store, r: Request, stamp: Stamp, p: Path, e: Event)
    requires StoreOk(cfg.hash, store) && JournalFor(store.journals, r, stamp, p)
    requires Carries(cfg, r, stamp, e) && JournalOk(cfg.hash, p, JournalAt(store.journals, p) + [e])
    ensures LockedAppend(cfg, store, r, stamp)
      == if !SafeIdentifier(r.scanId) || !SafeIdentifier(r.chipId) then Err(ValueError)
         else if r.rejectExisting && p in store.journals then Err(ConflictError)
         else if cfg.lineSize(e) > cfg.maximumEventBytes then Err(EventStoreError)
         else Ok(IndexUpdate(e, p))
  {
    LocatedJournal(cfg.hash, store, r.scanId);
    var found := Locate(store, r.scanId).value;
    assert p == if found.Some? then found.value else Path(stamp.directory, r.scanId);
    var events := JournalAt(store.journals, p);
    NextEventExtends(cfg, p, events, r, stamp);
    OneRecordFits(cfg, p, events, r, stamp, e, NextEvent(cfg, events, r, stamp));
  }

  lemma GrowthKeepsViews(before: Journals, after: Journals, store: Store)
    requires Grows(before, after)
    ensures forall id, entry :: EntryOk(before, id, entry) ==> EntryOk(after, id, entry)
    ensures forall id, snapshot :: SnapshotOk(before, id, snapshot) ==> SnapshotOk(after, id, snapshot)
  {
    forall id, entry | EntryOk(before, id, entry) ensures EntryOk(after, id, entry) {
      var k: nat :| Recorded(before, entry.path, k) && entry.path.scanId == id
        && EntryShows(entry, IndexUpdate(before[entry.path][k], entry.path));
      assert Recorded(after, entry.path, k);
    }
    forall id, snapshot | SnapshotOk(before, id, snapshot) ensures SnapshotOk(after, id, snapshot) {
      var p: Path, k: nat :| Recorded(before, p, k) && p.scanId == id && SnapshotShows(snapshot, before[p][k], k + 1);
      assert Recorded(after, p, k);
    }
  }

  /** A successful append adds one record, which carries the request, at the end of the scan's only
      journal. */
  lemma AppendKeepsStoreOk(cfg: Config, store: Store, r: Request, stamp: Stamp)
    requires StoreOk(cfg.hash, store) && LockedAppend(cfg, store, r, stamp).Ok?
    ensures var w := LockedAppend(cfg, store, r, stamp).value;
      && StoreOk(cfg.hash, store.(journals := Extended(store.journals, w)))
      && Grows(store.journals, Extended(store.journals, w))
      && w.path.scanId == r.scanId == w.event.scanId
      && w.event.sequence == |JournalAt(store.journals, w.path)| + 1
      && Carries(cfg, r, stamp, w.event)
      && JournalFor(store.journals, r, stamp, w.path)
  {
    var w := LockedAppend(cfg, store, r, stamp).value;
    LocatedJournal(cfg.hash, store, r.scanId);
    var events := JournalAt(store.journals, w.path);
    NextEventExtends(cfg, w.path, events, r, stamp);
    var after := Extended(store.journals, w);
    assert JournalsOk(cfg.hash, after);
    GrowthKeepsViews(store.journals, after, store);
  }

  lemma IndexUpdateKeepsStoreOk(hash: ContentHash, store: Store, p: Path, k: nat)
    requires StoreOk(hash, store) && Recorded(store.journals, p, k)
    ensures StoreOk(hash, store.(index := ApplyUpdate(store.index, IndexUpdate(store.journals[p][k], p))))
  {
    assert LinkOk(hash, store.journals[p], k);
    var u := IndexUpdate(store.journals[p][k], p);
    assert EntryOk(store.journals, p.scanId, Project(u));
  }

  lemma SnapshotUpdateKeepsStoreOk(hash: ContentHash, store: Store, p: Path, k: nat)
    requires StoreOk(hash, store) && Recorded(store.journals, p, k)
    ensures StoreOk(hash, store.(snapshots := store.snapshots[p.scanId := SnapshotOf(store.journals[p][k], k + 1)]))
  {
    assert SnapshotOk(store.journals, p.scanId, SnapshotOf(store.journals[p][k], k + 1));
  }

  /*** Rebuilding ***/

  /** Journal files, none of them twice. */
  predicate DistinctFiles(journals: Journals, order: seq<Path>) {
    && (forall i :: 0 <= i < |order| ==> order[i] in journals)
    && (forall i, j :: 0 <= i < j < |order| ==> order[i] != order[j])
  }

  /** A directory listing: every journal file once, in any order. */
  predicate Listing(journals: Journals, order: seq<Path>) {
    DistinctFiles(journals, order) && forall p :: p in journals ==> p in order
  }

  lemma ListingInit(journals: Journals, order: seq<Path>, p: Path)
    requires DistinctFiles(journals, order) && p in order
    ensures DistinctFiles(journals, order[..|order| - 1]) && order[|order| - 1] in journals
    ensures if p == order[|order| - 1] then p !in order[..|order| - 1] else p in order[..|order| - 1]
  {
    assert order == order[..|order| - 1] + [order[|order| - 1]];
  }

  function Tagged(p: Path, events: seq<Event>): (us: seq<IndexUpdate>)
    ensures |us| == |events| && forall i :: 0 <= i < |us| ==> us[i] == IndexUpdate(events[i], p)
  {
    seq(|events|, i requires 0 <= i < |events| => IndexUpdate(events[i], p))
  }

  /** The updates that a replay of the listed journals makes, in order. */
  function Replay(journals: Journals, order: seq<Path>): seq<IndexUpdate> {
    if order == [] then []
    else Replay(journals, order[..|order| - 1]) + Tagged(order[|order| - 1], JournalAt(journals, order[|order| - 1]))
  }

  function RebuiltIndex(journals: Journals, order: seq<Path>): Index {
    ApplyAll(EMPTY, Replay(journals, order))
  }

  function WithSnapshot(snapshots: map<string, Snapshot>, events: seq<Event>): map<string, Snapshot> {
    if events == [] then snapshots
    else snapshots[events[|events| - 1].scanId := SnapshotOf(events[|events| - 1], |events|)]
  }

  function RebuiltSnapshots(snapshots: map<string, Snapshot>, journals: Journals, order: seq<Path>): map<string,
                            Snapshot> {
    if order == [] then snapshots
    else
      WithSnapshot(RebuiltSnapshots(snapshots, journals, order[..|order| - 1]),
                   JournalAt(journals, order[|order| - 1]))
  }

  lemma {:induction false} OnlyOfTagged(us: seq<IndexUpdate>, id: string)
    requires forall i :: 0 <= i < |us| ==> us[i].event.scanId == id
    ensures Only(us, id) == us
  {
    if us == [] {
    } else {
      OnlyOfTagged(us[..|us| - 1], id);
      assert us == us[..|us| - 1] + [us[|us| - 1]];
    }
  }

  lemma {:induction false} OnlyOfOthers(us: seq<IndexUpdate>, id: string)
    requires forall i :: 0 <= i < |us| ==> us[i].event.scanId != id
    ensures Only(us, id) == []
  {
    if us == [] {
    } else {
      OnlyOfOthers(us[..|us| - 1], id);
    }
  }

  lemma {:induction false} ReplayWithout(hash: ContentHash, journals: Journals, order: seq<Path>, id: string)
    requires JournalsOk(hash, journals)
    requires forall i :: 0 <= i < |order| ==> order[i].scanId != id
    ensures Only(Replay(journals, order), id) == []
  {
    if order == [] {
    } else {
      var init, last := order[..|order| - 1], order[|order| - 1];
      ReplayWithout(hash, journals, init, id);
      OnlyOfOthers(Tagged(last, JournalAt(journals, last)), id);
      OnlyConcat(Replay(journals, init), Tagged(last, JournalAt(journals, last)), id);
    }
  }

  /** What a replay does to one scan is that scan's journal, wherever it stands in the listing. */
  lemma {:induction false} ReplayOfScan(hash: ContentHash, journals: Journals, order: seq<Path>, p: Path)
    requires JournalsOk(hash, journals) && p in journals && p in order
    requires DistinctFiles(journals, order)
    ensures Only(Replay(journals, order), p.scanId) == Tagged(p, journals[p])
  {
    var init, last := order[..|order| - 1], order[|order| - 1];
    ListingInit(journals, order, p);
    var tail := Tagged(last, journals[last]);
    OnlyConcat(Replay(journals, init), tail, p.scanId);
    if last == p {
      assert forall i :: 0 <= i < |init| ==> init[i].scanId != p.scanId;
      ReplayWithout(hash, journals, init, p.scanId);
      OnlyOfTagged(tail, p.scanId);
    } else {
      OnlyOfOthers(tail, p.scanId);
      ReplayOfScan(hash, journals, init, p);
    }
  }

  lemma {:induction false} RebuiltSnapshot(hash: ContentHash, snapshots: map<string, Snapshot>, journals: Journals,
                                           order: seq<Path>, p: Path)
    requires JournalsOk(hash, journals) && p in journals && p in order && journals[p] != []
    requires DistinctFiles(journals, order)
    ensures var rebuilt, events := RebuiltSnapshots(snapshots, journals, order), journals[p];
      p.scanId in rebuilt && rebuilt[p.scanId] == SnapshotOf(events[|events| - 1], |events|)
  {
    var init, last := order[..|order| - 1], order[|order| - 1];
    ListingInit(journals, order, p);
    if last != p {
      RebuiltSnapshot(hash, snapshots, journals, init, p);
    }
  }

  /** From any index and snapshot state, recovery makes every scan entry and every snapshot of a
      recorded scan show its journal's last record, and leaves no other entry. */
  lemma RebuildProjectsLastRecords(hash: ContentHash, store: Store, order: seq<Path>)
    requires JournalsOk(hash, store.journals) && Listing(store.journals, order)
    ensures var index, snapshots :=
        RebuiltIndex(store.journals, order), RebuiltSnapshots(store.snapshots, store.journals, order);
      && (forall p :: p in store.journals && store.journals[p] != [] ==>
        var events := store.journals[p];
        && p.scanId in index.scans && EntryShows(index.scans[p.scanId], IndexUpdate(events[|events| - 1], p))
        && p.scanId in snapshots && SnapshotShows(snapshots[p.scanId], events[|events| - 1], |events|))
      && (forall id :: id in index.scans ==>
        exists p :: p in store.journals && p.scanId == id && store.journals[p] != [])
  {
    var journals := store.journals;
    var us := Replay(journals, order);
    forall p | p in journals && journals[p] != []
      ensures var events := journals[p];
        var index, snapshots := RebuiltIndex(journals, order), RebuiltSnapshots(store.snapshots, journals, order);
        && p.scanId in index.scans && EntryShows(index.scans[p.scanId], IndexUpdate(events[|events| - 1], p))
        && p.scanId in snapshots && SnapshotShows(snapshots[p.scanId], events[|events| - 1], |events|)
    {
      ReplayOfScan(hash, journals, order, p);
      ScanEntryIsLastUpdate(us, p.scanId);
      RebuiltSnapshot(hash, store.snapshots, journals, order, p);
    }
    forall id | id in RebuiltIndex(journals, order).scans
      ensures exists p :: p in journals && p.scanId == id && journals[p] != []
    {
      ScanEntryIsLastUpdate(us, id);
      if p :| p in journals && p.scanId == id {
        ReplayOfScan(hash, journals, order, p);
      } else {
        ReplayWithout(hash, journals, order, id);
      }
    }
  }

  /** Recovery leaves the snapshot of a scan alone that has no record on file. */
  lemma {:induction false} StaleSnapshotsStay(snapshots: map<string, Snapshot>, journals: Journals, order: seq<Path>,
                                              id: string)
    requires forall p :: p in journals && journals[p] != [] ==>
      p.scanId != id && journals[p][|journals[p]| - 1].scanId == p.scanId
    ensures var rebuilt := RebuiltSnapshots(snapshots, journals, order);
      (id in rebuilt <==> id in snapshots) && (id in snapshots ==> rebuilt[id] == snapshots[id])
  {
    if order == [] {
    } else {
      StaleSnapshotsStay(snapshots, journals, order[..|order| - 1], id);
    }
  }

  /** The updates that sequential appends made so far, scan by scan, are the journals. */
  ghost predicate RecordsHistory(journals: Journals, history: seq<IndexUpdate>) {
    && (forall p :: p in journals ==> Only(history, p.scanId) == Tagged(p, journals[p]))
    && (forall id :: (forall p :: p in journals ==> p.scanId != id) ==> Only(history, id) == [])
  }

  /** After any sequential history, a rebuild in any file order leaves the views that the
      incremental updates had left. */
  lemma RebuildMatchesHistory(hash: ContentHash, journals: Journals, order: seq<Path>, history: seq<IndexUpdate>)
    requires JournalsOk(hash, journals) && Listing(journals, order) && RecordsHistory(journals, history)
    ensures SameViews(RebuiltIndex(journals, order), ApplyAll(EMPTY, history))
  {
    forall id ensures Only(Replay(journals, order), id) == Only(history, id) {
      if p :| p in journals && p.scanId == id {
        ReplayOfScan(hash, journals, order, p);
      } else {
        ReplayWithout(hash, journals, order, id);
      }
    }
    SameScansSameViews(Replay(journals, order), history);
  }

  /** Every recorded scan's snapshot shows its journal's last record. */
  predicate SnapshotsCurrent(journals: Journals, snapshots: map<string, Snapshot>) {
    forall p :: p in journals && journals[p] != [] ==>
      p.scanId in snapshots && SnapshotShows(snapshots[p.scanId], journals[p][|journals[p]| - 1], |journals[p]|)
  }

  lemma OneSnapshotShows(s: Snapshot, e: Event, count: int)
    requires SnapshotShows(s, e, count)
    ensures s == SnapshotOf(e, count)
  {
  }

  /** Snapshots that are current are what a rebuild writes again. */
  lemma {:induction false} RebuildKeepsCurrentSnapshots(hash: ContentHash, journals: Journals, snapshots: map<string,
                                                        Snapshot>, order: seq<Path>)
    requires JournalsOk(hash, journals) && SnapshotsCurrent(journals, snapshots)
    requires forall i :: 0 <= i < |order| ==> order[i] in journals
    ensures RebuiltSnapshots(snapshots, journals, order) == snapshots
  {
    if order == [] {
    } else {
      var p := order[|order| - 1];
      RebuildKeepsCurrentSnapshots(hash, journals, snapshots, order[..|order| - 1]);
      assert JournalOk(hash, p, journals[p]);
      if journals[p] != [] {
        OneSnapshotShows(snapshots[p.scanId], journals[p][|journals[p]| - 1], |journals[p]|);
      }
    }
  }
}
