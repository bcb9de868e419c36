/**
 `EventWriter`, `SnapshotBuilder`, `rebuild_indexes` and `EventStoreRecovery` as one object that
 updates its journals, indexes and snapshots in place, one caller at a time.
 */
module EventFiles {
  import opened Wrappers
  import opened Texts
  import opened Events
  import opened HashChain
  import opened Indexes
  import opened EventStore
  import opened JournalText

  datatype Issue =
    | InvalidJson(path: Path, lineNumber: nat)
    | BrokenChain(path: Path, sequence: int, reason: Reason)

  datatype Report = Report(valid: bool, filesChecked: nat, eventsChecked: nat, issues: seq<Issue>)

  /** The number of records in the listed journals. */
  function CountRecords(journals: Journals, order: seq<Path>): nat {
    if order == [] then 0
    else CountRecords(journals, order[..|order| - 1]) + |JournalAt(journals, order[|order| - 1])|
  }

  /** Derived files agree with the journals, and those with a history of appends. */
  ghost predicate InStep(hash: ContentHash, store: Store, history: seq<IndexUpdate>) {
    && StoreOk(hash, store)
    && RecordsHistory(store.journals, history)
    && store.index == ApplyAll(EMPTY, history)
    && SnapshotsCurrent(store.journals, store.snapshots)
  }

  /** The journal as recovery reads it from its file. */
  function ReadBack(codec: Codec<Event>, events: seq<Event>): seq<Event> {
    Recovered(codec, FileLines(codec, events))
  }

  /** The number of records that recovery reads from the listed files. */
  function CountReadBack(codec: Codec<Event>, journals: Journals, order: seq<Path>): nat {
    if order == [] then 0
    else
      CountReadBack(codec, journals, order[..|order| - 1])
      + |ReadBack(codec, JournalAt(journals, order[|order| - 1]))|
  }

  /** What recovery takes for granted of the JSON library, for the records on file. */
  ghost predicate Decodable(codec: Codec<Event>, journals: Journals) {
    Strict(codec) && forall p :: p in journals ==> AllRoundTrip(codec, journals[p])
  }

  /** A journal that recovery accepts. */
  predicate Verifies(cfg: Config, events: seq<Event>) {
    ChainOk(cfg.hash, events) && AllClean(cfg.codec, events)
  }

  predicate NoBadLine(codec: Codec<Event>, lines: seq<string>) {
    forall k :: 0 <= k < |lines| ==> !BadLine(codec, lines[k])
  }

  predicate IssueOk(cfg: Config, path: Path, lines: seq<string>, issue: Issue) {
    issue.path == path
    && match issue
       case InvalidJson(_, n) => 1 <= n <= |lines| && BadLine(cfg.codec, lines[n - 1])
       case BrokenChain(_, sequence, reason) => BrokenAt(cfg.hash, Recovered(cfg.codec, lines), sequence, reason)
  }

  predicate IssuesOk(cfg: Config, path: Path, lines: seq<string>, issues: seq<Issue>) {
    forall j :: 0 <= j < |issues| ==> IssueOk(cfg, path, lines, issues[j])
  }

  lemma RecoveredOneMore(codec: Codec<Event>, lines: seq<string>, k: nat)
    requires k < |lines|
    ensures Recovered(codec, lines[..k + 1])
      == Recovered(codec, lines[..k])
         + (if Blank(lines[k]) || codec.parse(lines[k]).None? then [] else [codec.parse(lines[k]).value])
  {
    assert lines[..k + 1] == lines[..k] + [lines[k]];
    RecoveredSnoc(codec, lines[..k], lines[k]);
  }

  lemma IssuesSnoc(cfg: Config, path: Path, lines: seq<string>, issues: seq<Issue>, issue: Issue)
    requires IssuesOk(cfg, path, lines, issues) && IssueOk(cfg, path, lines, issue)
    ensures IssuesOk(cfg, path, lines, issues + [issue])
  {
  }

  /** Decodes the lines of one file, any text, and reports those that do not decode. */
  method DecodeLines(cfg: Config, path: Path, lines: seq<string>) returns (records: seq<Event>, issues: seq<Issue>)
    ensures records == Recovered(cfg.codec, lines)
    ensures IssuesOk(cfg, path, lines, issues)
    ensures issues == [] <==> NoBadLine(cfg.codec, lines)
  {
    records, issues := [], [];
    for k := 0 to |lines|
      invariant records == Recovered(cfg.codec, lines[..k])
      invariant IssuesOk(cfg, path, lines, issues)
      invariant issues == [] <==> forall i :: 0 <= i < k ==> !BadLine(cfg.codec, lines[i])
    {
      RecoveredOneMore(cfg.codec, lines, k);
      if !Blank(lines[k]) {
        match cfg.codec.parse(lines[k])
        case Some(event) => records := records + [event];
        case None =>
          IssuesSnoc(cfg, path, lines, issues, InvalidJson(path, k + 1));
          issues := issues + [InvalidJson(path, k + 1)];
      }
    }
    assert lines[..|lines|] == lines;
  }

  /** `verify_all` on the lines of one file, any text: no issue exactly when every line decodes to a record or is
      blank and the records form a chain. */
  method VerifyLines(cfg: Config, path: Path, lines: seq<string>) returns (issues: seq<Issue>, count: nat)
    ensures IssuesOk(cfg, path, lines, issues) && count == |Recovered(cfg.codec, lines)|
    ensures issues == [] <==> NoBadLine(cfg.codec, lines) && ChainOk(cfg.hash, Recovered(cfg.codec, lines))
  {
    var records;
    records, issues := DecodeLines(cfg, path, lines);
    count := |records|;
    var valid, reason, sequence := VerifyChain(cfg.hash, records);
    if !valid {
      issues := issues + [BrokenChain(path, sequence, reason)];
    }
  }

  /** For a file that records were appended to, being accepted means that they form a chain and
      that none holds a character at which the lines are cut. */
  lemma AppendedVerifiesIff(cfg: Config, events: seq<Event>)
    requires Strict(cfg.codec) && AllRoundTrip(cfg.codec, events)
    ensures NoBadLine(cfg.codec, FileLines(cfg.codec, events)) <==> AllClean(cfg.codec, events)
    ensures NoBadLine(cfg.codec, FileLines(cfg.codec, events)) && ChainOk(cfg.hash, ReadBack(cfg.codec, events))
      <==> Verifies(cfg, events)
  {
    var lines := FileLines(cfg.codec, events);
    FileReadsBackIff(cfg.codec, events);
    if AllClean(cfg.codec, events) {
      forall k | 0 <= k < |lines| ensures !BadLine(cfg.codec, lines[k]) {
        RecordLine(cfg.codec, events[k]);
      }
    } else {
      var k := FirstDirty(cfg.codec, events);
      DirtyRecordFails(cfg.codec, events, k);
    }
  }

  class EventFiles {
    const cfg: Config
    const indexes: IndexBuilder
    var journals: Journals
    var snapshots: map<string, Snapshot>
    /** The updates of every append so far. */
    ghost var history: seq<IndexUpdate>

    function Contents(): Store
      reads this, indexes
    {
      Store(journals, indexes.Contents(), snapshots)
    }

    /** The state after appends alone: derived files agree with the journals. */
    ghost predicate UpToDate()
      reads this, indexes
    {
      InStep(cfg.hash, Contents(), history)
    }

    constructor (cfg: Config)
      ensures this.cfg == cfg && fresh(indexes)
      ensures Contents() == Store(map[], EMPTY, map[]) && UpToDate()
    {
      this.cfg := cfg;
      indexes := new IndexBuilder();
      journals, snapshots, history := map[], map[], [];
    }

    method Find(id: string) returns (r: Result<Option<Path>>)
      ensures r == Locate(Contents(), id)
    {
      if id in indexes.scanIndex && indexes.scanIndex[id].path in journals {
        return Ok(Some(indexes.scanIndex[id].path));
      }
      var matches := JournalsOf(journals, id);
      if |matches| > 1 {
        return Err(EventStoreError);
      }
      if matches == {} {
        return Ok(None);
      }
      var p :| p in matches;
      assert |matches - {p}| == |matches| - 1 == 0;
      assert matches == {p};
      return Ok(Some(p));
    }

    /** The section of `append` that holds the scan's lock. */
    method WriteLocked(r: Request, stamp: Stamp) returns (written: Result<IndexUpdate>)
      modifies this`journals
      ensures written == old(LockedAppend(cfg, Contents(), r, stamp))
      ensures journals == if written.Ok? then Extended(old(journals), written.value) else old(journals)
      ensures written.Ok? ==> Carries(cfg, r, stamp, written.value.event)
    {
      if !SafeIdentifier(r.scanId) || !SafeIdentifier(r.chipId) {
        return Err(ValueError);
      }
      var existing := Find(r.scanId);
      if existing.Err? {
        return Err(existing.error);
      }
      if r.rejectExisting && existing.value.Some? {
        return Err(ConflictError);
      }
      var path := if existing.value.Some? then existing.value.value else Path(stamp.directory, r.scanId);
      var events := JournalAt(journals, path);
      var event := NextEvent(cfg, events, r, stamp);
      if cfg.lineSize(event) > cfg.maximumEventBytes {
        return Err(EventStoreError);
      }
      journals := journals[path := events + [event]];
      return Ok(IndexUpdate(event, path));
    }

    /** The index and snapshot updates that follow outside the scan's lock. */
    method UpdateDerived(event: Event, path: Path)
      modifies this`snapshots, indexes
      ensures indexes.Contents() == ApplyUpdate(old(indexes.Contents()), IndexUpdate(event, path))
      ensures snapshots == old(snapshots)[event.scanId := SnapshotOf(event, event.sequence)]
    {
      indexes.Update(event, path);
      WriteSnapshot(event, event.sequence);
    }

    /** On error nothing changes. On success the journal gains the record, then the indexes and
        the snapshot take it in. */
    method Append(r: Request, stamp: Stamp) returns (outcome: Result<Event>)
      modifies this`journals, this`snapshots, this`history, indexes
      ensures match old(LockedAppend(cfg, Contents(), r, stamp))
        case Err(e) => outcome == Err(e) && Contents() == old(Contents()) && history == old(history)
        case Ok(w) =>
          && outcome == Ok(w.event)
          && Contents() == AfterAppend(old(Contents()), w)
          && history == old(history) + [w]
      ensures outcome.Ok? ==> Carries(cfg, r, stamp, outcome.value)
      ensures outcome.Ok? && old(UpToDate()) ==> NewlyShown(old(Contents()), Contents(), r, stamp, outcome.value)
      ensures old(UpToDate()) ==> UpToDate() && Coherent(indexes.Contents())
    {
      ghost var before, past := Contents(), history;
      ViewsAgree(past);
      var written := WriteLocked(r, stamp);
      if written.Err? {
        return Err(written.error);
      }
      var event, path := written.value.event, written.value.path;
      assert IndexUpdate(event, path) == written.value;
      UpdateDerived(event, path);
      history := history + [written.value];
      assert Contents() == AfterAppend(before, written.value);
      if InStep(cfg.hash, before, past) {
        AppendKeepsUpToDate(cfg, before, r, stamp, past);
        AppendShows(cfg, before, r, stamp);
        ViewsAgree(history);
      }
      return Ok(event);
    }

    method VerifyJournal(path: Path) returns (issues: seq<Issue>, count: nat)
      requires path in journals && Strict(cfg.codec) && AllRoundTrip(cfg.codec, journals[path])
      ensures IssuesOk(cfg, path, FileLines(cfg.codec, journals[path]), issues)
      ensures issues == [] <==> Verifies(cfg, journals[path])
      ensures count == |ReadBack(cfg.codec, journals[path])|
    {
      AppendedVerifiesIff(cfg, journals[path]);
      issues, count := VerifyLines(cfg, path, FileLines(cfg.codec, journals[path]));
    }

    /** The records of a file whose lines all decode. */
    method ReadJournal(path: Path) returns (records: seq<Event>)
      requires path in journals && AllRoundTrip(cfg.codec, journals[path]) && AllClean(cfg.codec, journals[path])
      ensures records == journals[path]
    {
      FileReadsBackIff(cfg.codec, journals[path]);
      var issues;
      records, issues := DecodeLines(cfg, path, FileLines(cfg.codec, journals[path]));
    }

    /** A report is clean exactly when every journal forms a chain of records without a character
        at which the lines are cut; every issue is real, and every other journal has one. */
    method VerifyAll(listing: seq<Path>) returns (report: Report)
      requires Listing(journals, listing) && Decodable(cfg.codec, journals)
      ensures report.valid <==> forall p :: p in journals ==> Verifies(cfg, journals[p])
      ensures report.valid <==> report.issues == []
      ensures report.filesChecked == |listing| && report.eventsChecked == CountReadBack(cfg.codec, journals, listing)
      ensures forall p :: p in journals && !Verifies(cfg, journals[p]) ==> Names(report.issues, p)
      ensures RealIssues(cfg, journals, report.issues)
    {
      var issues: seq<Issue> := [];
      var filesChecked, eventsChecked := 0, 0;
      for i := 0 to |listing|
        invariant filesChecked == i && eventsChecked == CountReadBack(cfg.codec, journals, listing[..i])
        invariant LookedAt(cfg, journals, listing, i, issues)
      {
        filesChecked := filesChecked + 1;
        var found, count := VerifyJournal(listing[i]);
        LookedAtOneMore(cfg, journals, listing, i, issues, found);
        issues := issues + found;
        CountOneMore(cfg.codec, journals, listing, i);
        eventsChecked := eventsChecked + count;
      }
      assert listing[..|listing|] == listing;
      ReportSound(cfg, journals, listing, issues);
      return Report(issues == [], filesChecked, eventsChecked, issues);
    }

    /** One line of a file: blank, or undecodable, or the next record. */
    method ReplayLine(path: Path, line: string, ghost done: seq<IndexUpdate>, ghost next: Event)
      returns (replayed: bool)
      requires indexes.Contents() == ApplyAll(EMPTY, done) && !Blank(line)
      requires cfg.codec.parse(line) == if CleanEvent(cfg.codec, next) then Some(next) else None
      modifies indexes
      ensures replayed <==> CleanEvent(cfg.codec, next)
      ensures indexes.Contents() == ApplyAll(EMPTY, if replayed then done + [IndexUpdate(next, path)] else done)
    {
      var value := cfg.codec.parse(line);
      if value.None? {
        return false;
      }
      ApplySnoc(done, IndexUpdate(next, path));
      indexes.Update(value.value, path);
      return true;
    }

    /** Replays the lines of one file up to the first that does not decode. */
    method ReplayJournal(path: Path, ghost before: seq<IndexUpdate>) returns (r: Result<nat>, ghost stop: nat)
      requires path in journals && indexes.Contents() == ApplyAll(EMPTY, before)
      requires Strict(cfg.codec) && AllRoundTrip(cfg.codec, journals[path])
      modifies indexes
      ensures r.Ok? <==> AllClean(cfg.codec, journals[path])
      ensures r.Ok? ==> indexes.Contents() == ApplyAll(EMPTY, before + Tagged(path, journals[path]))
      ensures r.Ok? ==> r.value == |journals[path]|
      ensures r.Err? ==>
        stop < |journals[path]| && ReplayedTo(path, before, journals[path], stop, indexes.Contents())
    {
      FileReadsAs(cfg.codec, journals[path]);
      r, stop := ReplayLines(path, FileLines(cfg.codec, journals[path]), before, journals[path]);
      assert journals[path][..|journals[path]|] == journals[path];
    }

    method ReplayLines(path: Path, lines: seq<string>, ghost before: seq<IndexUpdate>, ghost events: seq<Event>)
      returns (r: Result<nat>, ghost stop: nat)
      requires ReadsAs(cfg.codec, lines, events) && indexes.Contents() == ApplyAll(EMPTY, before)
      modifies indexes
      ensures r.Ok? <==> AllClean(cfg.codec, events)
      ensures r.Ok? ==> r.value == |events| && ReplayedTo(path, before, events, |events|, indexes.Contents())
      ensures r.Err? ==> stop < |events| && ReplayedTo(path, before, events, stop, indexes.Contents())
    {
      var count := 0;
      ghost var done := before;
      for k := 0 to |lines|
        invariant CleanBefore(cfg.codec, events, k) && count == k
        invariant done == before + Tagged(path, events[..k]) && indexes.Contents() == ApplyAll(EMPTY, done)
      {
        LineAt(cfg.codec, lines, events, k);
        TaggedOneMore(path, before, events, k);
        ghost var next := events[k];
        if !Blank(lines[k]) {
          var replayed := ReplayLine(path, lines[k], done, next);
          if !replayed {
            return Err(ValueError), k;
          }
          CleanOneMore(cfg.codec, events, k);
          done := done + [IndexUpdate(next, path)];
          count := count + 1;
        }
      }
      AllLinesRead(cfg.codec, lines, events);
      return Ok(count), |events|;
    }

    /** Replays file `i` of the listing behind those before it. */
    method ReplayListed(listing: seq<Path>, i: nat) returns (r: Result<nat>)
      requires Listing(journals, listing) && Decodable(cfg.codec, journals) && i < |listing|
      requires indexes.Contents() == ApplyAll(EMPTY, Replay(journals, listing[..i]))
      modifies indexes
      ensures r.Ok? <==> AllClean(cfg.codec, journals[listing[i]])
      ensures r.Ok? ==> indexes.Contents() == ApplyAll(EMPTY, Replay(journals, listing[..i + 1]))
      ensures r.Ok? ==> CountRecords(journals, listing[..i + 1]) == CountRecords(journals, listing[..i]) + r.value
      ensures r.Err? ==> exists k: nat :: Halted(journals, listing, i, k, indexes.Contents())
    {
      ghost var before := Replay(journals, listing[..i]);
      ListOneMore(journals, listing, i);
      ghost var stop;
      r, stop := ReplayJournal(listing[i], before);
      if r.Err? {
        assert Halted(journals, listing, i, stop, indexes.Contents());
      }
    }

    /** Unlinks the index files and replays every journal. A line that does not decode stops it
        half-way. */
    method RebuildIndexes(listing: seq<Path>) returns (r: Result<nat>)
      requires Listing(journals, listing) && Decodable(cfg.codec, journals)
      modifies indexes
      ensures r.Ok? <==> forall p :: p in journals ==> AllClean(cfg.codec, journals[p])
      ensures r.Ok? ==> indexes.Contents() == RebuiltIndex(journals, listing)
      ensures r.Ok? ==> r.value == CountRecords(journals, listing)
      ensures r.Err? ==> exists i: nat, k: nat :: Halted(journals, listing, i, k, indexes.Contents())
    {
      indexes.scanIndex, indexes.chipIndex, indexes.statusIndex, indexes.latestIndex := map[], map[], map[], [];
      var count := 0;
      for i := 0 to |listing|
        invariant indexes.Contents() == ApplyAll(EMPTY, Replay(journals, listing[..i]))
        invariant count == CountRecords(journals, listing[..i])
        invariant forall k :: 0 <= k < i ==> AllClean(cfg.codec, journals[listing[k]])
      {
        var replayed := ReplayListed(listing, i);
        if replayed.Err? {
          return Err(replayed.error);
        }
        count := count + replayed.value;
      }
      assert listing[..|listing|] == listing;
      ListedAll(cfg.codec, journals, listing);
      return Ok(count);
    }

    /** `SnapshotBuilder.update`. */
    method WriteSnapshot(event: Event, count: int)
      modifies this`snapshots
      ensures snapshots == old(snapshots)[event.scanId := SnapshotOf(event, count)]
    {
      snapshots := snapshots[event.scanId := SnapshotOf(event, count)];
    }

    method RebuildSnapshot(path: Path)
      requires path in journals && AllRoundTrip(cfg.codec, journals[path]) && AllClean(cfg.codec, journals[path])
      modifies this`snapshots
      ensures snapshots == WithSnapshot(old(snapshots), journals[path])
    {
      var records := ReadJournal(path);
      if records != [] {
        WriteSnapshot(records[|records| - 1], |records|);
      }
    }

    method RebuildSnapshots(listing: seq<Path>)
      requires Listing(journals, listing) && Decodable(cfg.codec, journals)
      requires forall p :: p in journals ==> AllClean(cfg.codec, journals[p])
      modifies this`snapshots
      ensures snapshots == RebuiltSnapshots(old(snapshots), journals, listing)
    {
      for i := 0 to |listing|
        invariant snapshots == RebuiltSnapshots(old(snapshots), journals, listing[..i])
      {
        SnapshotsOneMore(old(snapshots), journals, listing, i);
        RebuildSnapshot(listing[i]);
      }
      assert listing[..|listing|] == listing;
    }

    /** A store with a journal that recovery cannot read or that is broken is reported and left as it
        was; otherwise the indexes and the snapshots are rebuilt, whatever they held. After appends
        alone a rebuild is possible exactly when all records are clean, and then it changes none of
        the views. */
    method Rebuild(listing: seq<Path>) returns (report: Report)
      requires Listing(journals, listing) && Decodable(cfg.codec, journals)
      modifies this`snapshots, indexes
      ensures report.valid <==> forall p :: p in journals ==> Verifies(cfg, journals[p])
      ensures !report.valid ==> Contents() == old(Contents())
      ensures report.valid ==> Contents() == Store(
        journals, RebuiltIndex(journals, listing), RebuiltSnapshots(old(snapshots), journals, listing))
      ensures old(UpToDate()) ==>
        (report.valid <==> forall p :: p in journals ==> AllClean(cfg.codec, journals[p]))
      ensures old(UpToDate()) && report.valid ==>
        SameViews(indexes.Contents(), old(indexes.Contents())) && snapshots == old(snapshots)
      ensures report.valid ==> Coherent(indexes.Contents())
    {
      ViewsAgree(Replay(journals, listing));
      report := VerifyAll(listing);
      if InStep(cfg.hash, Contents(), history) {
        RebuildRestores(cfg.hash, Contents(), listing, history);
      }
      if report.valid {
        var _ := RebuildIndexes(listing);
        RebuildSnapshots(listing);
      }
    }
  }

  /** The index after the updates of `before` and the first `k` records of a journal. */
  predicate ReplayedTo(path: Path, before: seq<IndexUpdate>, events: seq<Event>, k: nat, index: Index) {
    k <= |events| && index == ApplyAll(EMPTY, before + Tagged(path, events[..k]))
  }

  lemma ListedAll(codec: Codec<Event>, journals: Journals, listing: seq<Path>)
    requires Listing(journals, listing)
    ensures (forall k :: 0 <= k < |listing| ==> AllClean(codec, journals[listing[k]]))
      <==> forall p :: p in journals ==> AllClean(codec, journals[p])
  {
  }

  /** The index after a rebuild that stopped in journal `i` of the listing, before its record `k`. */
  predicate Halted(journals: Journals, listing: seq<Path>, i: nat, k: nat, index: Index) {
    && i < |listing| && k < |JournalAt(journals, listing[i])|
    && ReplayedTo(listing[i], Replay(journals, listing[..i]), JournalAt(journals, listing[i]), k, index)
  }

  /** Every issue names a journal on file and is right about it. */
  predicate RealIssues(cfg: Config, journals: Journals, issues: seq<Issue>) {
    forall j :: 0 <= j < |issues| ==>
      issues[j].path in journals
      && IssueOk(cfg, issues[j].path, FileLines(cfg.codec, journals[issues[j].path]), issues[j])
  }

  predicate Names(issues: seq<Issue>, p: Path) {
    exists i :: 0 <= i < |issues| && issues[i].path == p
  }

  lemma NamesMore(cfg: Config, journals: Journals, issues: seq<Issue>, found: seq<Issue>, path: Path)
    requires RealIssues(cfg, journals, issues) && path in journals
    requires IssuesOk(cfg, path, FileLines(cfg.codec, journals[path]), found)
    ensures RealIssues(cfg, journals, issues + found)
    ensures found != [] ==> Names(issues + found, path)
    ensures forall p :: Names(issues, p) ==> Names(issues + found, p)
  {
    var more := issues + found;
    assert found != [] ==> more[|issues|] == found[0];
    forall p | Names(issues, p) ensures Names(more, p) {
      var i :| 0 <= i < |issues| && issues[i].path == p;
      assert more[i].path == p;
    }
  }

  /** The issues after the first `i` files of the listing. */
  predicate LookedAt(cfg: Config, journals: Journals, listing: seq<Path>, i: nat, issues: seq<Issue>)
    requires i <= |listing| && forall k :: 0 <= k < |listing| ==> listing[k] in journals
  {
    && RealIssues(cfg, journals, issues)
    && forall k :: 0 <= k < i && !Verifies(cfg, journals[listing[k]]) ==> Names(issues, listing[k])
  }

  lemma LookedAtOneMore(cfg: Config, journals: Journals, listing: seq<Path>, i: nat, issues: seq<Issue>,
                        found: seq<Issue>)
    requires i < |listing| && forall k :: 0 <= k < |listing| ==> listing[k] in journals
    requires LookedAt(cfg, journals, listing, i, issues)
    requires IssuesOk(cfg, listing[i], FileLines(cfg.codec, journals[listing[i]]), found)
    requires found == [] <==> Verifies(cfg, journals[listing[i]])
    ensures LookedAt(cfg, journals, listing, i + 1, issues + found)
  {
    NamesMore(cfg, journals, issues, found, listing[i]);
  }

  lemma CountOneMore(codec: Codec<Event>, journals: Journals, listing: seq<Path>, i: nat)
    requires i < |listing|
    ensures CountReadBack(codec, journals, listing[..i + 1])
      == CountReadBack(codec, journals, listing[..i]) + |ReadBack(codec, JournalAt(journals, listing[i]))|
  {
    assert listing[..i + 1][..i] == listing[..i];
  }

  lemma IssueRefutes(cfg: Config, events: seq<Event>, p: Path, issue: Issue)
    requires Strict(cfg.codec) && AllRoundTrip(cfg.codec, events)
    requires IssueOk(cfg, p, FileLines(cfg.codec, events), issue)
    ensures !Verifies(cfg, events)
  {
    AppendedVerifiesIff(cfg, events);
  }

  /** Once every listed journal was looked at, the issues tell which journals do not verify. */
  lemma ReportSound(cfg: Config, journals: Journals, listing: seq<Path>, issues: seq<Issue>)
    requires Listing(journals, listing) && Decodable(cfg.codec, journals) && RealIssues(cfg, journals, issues)
    requires forall k :: 0 <= k < |listing| && !Verifies(cfg, journals[listing[k]]) ==> Names(issues, listing[k])
    ensures forall p :: p in journals && !Verifies(cfg, journals[p]) ==> Names(issues, p)
    ensures issues == [] <==> forall p :: p in journals ==> Verifies(cfg, journals[p])
  {
    forall p | p in journals && !Verifies(cfg, journals[p]) ensures Names(issues, p) {
      assert p in listing;
    }
    if issues != [] {
      var p := issues[0].path;
      IssueRefutes(cfg, journals[p], p, issues[0]);
    }
  }

  lemma RebuildRestores(hash: ContentHash, store: Store, listing: seq<Path>, history: seq<IndexUpdate>)
    requires InStep(hash, store, history) && Listing(store.journals, listing)
    ensures forall p :: p in store.journals ==> ChainOk(hash, store.journals[p])
    ensures SameViews(RebuiltIndex(store.journals, listing), store.index)
    ensures RebuiltSnapshots(store.snapshots, store.journals, listing) == store.snapshots
  {
    RebuildMatchesHistory(hash, store.journals, listing, history);
    RebuildKeepsCurrentSnapshots(hash, store.journals, store.snapshots, listing);
  }

  lemma TaggedOneMore(path: Path, before: seq<IndexUpdate>, events: seq<Event>, k: nat)
    requires k < |events|
    ensures
      before + Tagged(path, events[..k + 1]) == before + Tagged(path, events[..k]) + [IndexUpdate(events[k], path)]
  {
  }

  lemma ListOneMore(journals: Journals, listing: seq<Path>, i: nat)
    requires i < |listing| && listing[i] in journals
    ensures Replay(journals, listing[..i + 1])
      == Replay(journals, listing[..i]) + Tagged(listing[i], journals[listing[i]])
    ensures CountRecords(journals, listing[..i + 1]) == CountRecords(journals, listing[..i]) + |journals[listing[i]]|
  {
    assert listing[..i + 1][..i] == listing[..i];
  }

  /** The number of records replayed, and, of clean files, the number read back. */
  lemma {:induction false} AllCounted(codec: Codec<Event>, journals: Journals, listing: seq<Path>)
    ensures CountRecords(journals, listing) == |Replay(journals, listing)|
    ensures Decodable(codec, journals) && (forall p :: p in journals ==> AllClean(codec, journals[p])) ==>
      CountReadBack(codec, journals, listing) == CountRecords(journals, listing)
  {
    if listing == [] {
    } else {
      var init, last := listing[..|listing| - 1], listing[|listing| - 1];
      AllCounted(codec, journals, init);
      if last in journals && Decodable(codec, journals) && AllClean(codec, journals[last]) {
        FileReadsBackIff(codec, journals[last]);
      }
    }
  }

  lemma SnapshotsOneMore(snapshots: map<string, Snapshot>, journals: Journals, listing: seq<Path>, i: nat)
    requires i < |listing| && listing[i] in journals
    ensures RebuiltSnapshots(snapshots, journals, listing[..i + 1])
      == WithSnapshot(RebuiltSnapshots(snapshots, journals, listing[..i]), journals[listing[i]])
  {
    assert listing[..i + 1][..i] == listing[..i];
  }

  /** The store after one whole append. */
  function AfterAppend(store: Store, w: IndexUpdate): Store {
    Store(Extended(store.journals, w), ApplyUpdate(store.index, w),
          store.snapshots[w.event.scanId := SnapshotOf(w.event, w.event.sequence)])
  }

  /** The scan's journal ends with the record and its entry and its snapshot show it; the other
      journals, entries and snapshots stay. */
  ghost predicate NewlyShown(before: Store, after: Store, r: Request, stamp: Stamp, e: Event) {
    && e.scanId in after.index.scans && e.scanId in after.snapshots
    && var p := after.index.scans[e.scanId].path;
    && JournalFor(before.journals, r, stamp, p)
    && after.journals == before.journals[p := JournalAt(before.journals, p) + [e]]
    && EntryShows(after.index.scans[e.scanId], IndexUpdate(e, p))
    && SnapshotShows(after.snapshots[e.scanId], e, |after.journals[p]|)
    && after.index.scans == before.index.scans[e.scanId := after.index.scans[e.scanId]]
    && after.snapshots == before.snapshots[e.scanId := after.snapshots[e.scanId]]
  }

  lemma AppendShows(cfg: Config, store: Store, r: Request, stamp: Stamp)
    requires StoreOk(cfg.hash, store) && LockedAppend(cfg, store, r, stamp).Ok?
    ensures var w := LockedAppend(cfg, store, r, stamp).value;
      NewlyShown(store, AfterAppend(store, w), r, stamp, w.event)
  {
    AppendKeepsStoreOk(cfg, store, r, stamp);
  }

  lemma ApplySnoc(history: seq<IndexUpdate>, w: IndexUpdate)
    ensures ApplyAll(EMPTY, history + [w]) == ApplyUpdate(ApplyAll(EMPTY, history), w)
  {
    assert (history + [w])[..|history|] == history;
  }

  /** A sequential append keeps indexes and snapshots in step with the journals. */
  lemma AppendKeepsUpToDate(cfg: Config, store: Store, r: Request, stamp: Stamp, history: seq<IndexUpdate>)
    requires InStep(cfg.hash, store, history) && LockedAppend(cfg, store, r, stamp).Ok?
    ensures var w := LockedAppend(cfg, store, r, stamp).value; InStep(cfg.hash, AfterAppend(store, w), history + [w])
  {
    var w := LockedAppend(cfg, store, r, stamp).value;
    AppendKeepsStoreOk(cfg, store, r, stamp);
    assert OneJournalEach(Extended(store.journals, w));
    ViewsAfterAppend(cfg.hash, store, w);
    ApplySnoc(history, w);
    HistoryGrows(store.journals, w, history);
    SnapshotsStayCurrent(store, w);
  }

  predicate OneJournalEach(journals: Journals) {
    forall p, q :: p in journals && q in journals && p.scanId == q.scanId ==> p == q
  }

  lemma SnapshotStaysCurrent(journals: Journals, snapshots: map<string, Snapshot>, w: IndexUpdate, p: Path)
    requires OneJournalEach(Extended(journals, w)) && SnapshotsCurrent(journals, snapshots)
    requires w.event.sequence == |JournalAt(journals, w.path)| + 1 && w.path.scanId == w.event.scanId
    requires p in Extended(journals, w) && Extended(journals, w)[p] != []
    ensures var after := snapshots[w.event.scanId := SnapshotOf(w.event, w.event.sequence)];
      var events := Extended(journals, w)[p];
      p.scanId in after && after[p.scanId] == SnapshotOf(events[|events| - 1], |events|)
  {
    if p == w.path {
      var events := JournalAt(journals, p) + [w.event];
      assert Extended(journals, w)[p] == events && events[|events| - 1] == w.event;
    } else {
      assert w.path in Extended(journals, w);
      assert p.scanId != w.path.scanId;
      assert Extended(journals, w)[p] == journals[p];
    }
  }

  lemma SnapshotsStayCurrent(store: Store, w: IndexUpdate)
    requires OneJournalEach(Extended(store.journals, w)) && SnapshotsCurrent(store.journals, store.snapshots)
    requires w.event.sequence == |JournalAt(store.journals, w.path)| + 1 && w.path.scanId == w.event.scanId
    ensures SnapshotsCurrent(Extended(store.journals, w), AfterAppend(store, w).snapshots)
  {
    forall p | p in Extended(store.journals, w) && Extended(store.journals, w)[p] != [] {
      SnapshotStaysCurrent(store.journals, store.snapshots, w, p);
    }
  }

  lemma ViewsAfterAppend(hash: ContentHash, store: Store, w: IndexUpdate)
    requires StoreOk(hash, store.(journals := Extended(store.journals, w)))
    requires w.event.sequence == |JournalAt(store.journals, w.path)| + 1 && w.path.scanId == w.event.scanId
    ensures StoreOk(hash, AfterAppend(store, w))
  {
    var grown, k := store.(journals := Extended(store.journals, w)), |JournalAt(store.journals, w.path)|;
    assert grown.journals[w.path][k] == w.event;
    IndexUpdateKeepsStoreOk(hash, grown, w.path, k);
    var indexed := grown.(index := ApplyUpdate(store.index, w));
    SnapshotUpdateKeepsStoreOk(hash, indexed, w.path, k);
  }

  lemma OnlySnoc(history: seq<IndexUpdate>, w: IndexUpdate, id: string)
    ensures Only(history + [w], id) == Only(history, id) + (if w.event.scanId == id then [w] else [])
  {
    assert (history + [w])[..|history|] == history;
  }

  lemma TaggedSnoc(p: Path, events: seq<Event>, e: Event)
    ensures Tagged(p, events + [e]) == Tagged(p, events) + [IndexUpdate(e, p)]
  {
  }

  lemma JournalHistoryGrows(journals: Journals, w: IndexUpdate, history: seq<IndexUpdate>, p: Path)
    requires RecordsHistory(journals, history) && w.path.scanId == w.event.scanId
    requires OneJournalEach(Extended(journals, w)) && p in Extended(journals, w)
    ensures Only(history + [w], p.scanId) == Tagged(p, Extended(journals, w)[p])
  {
    OnlySnoc(history, w, p.scanId);
    if p == w.path {
      if p !in journals {
        assert forall q :: q in journals ==> q in Extended(journals, w) && q.scanId != p.scanId;
      }
      assert Only(history, p.scanId) == Tagged(p, JournalAt(journals, p));
      TaggedSnoc(p, JournalAt(journals, p), w.event);
    } else {
      assert p.scanId != w.path.scanId;
    }
  }

  lemma HistoryGrows(journals: Journals, w: IndexUpdate, history: seq<IndexUpdate>)
    requires RecordsHistory(journals, history) && w.path.scanId == w.event.scanId
    requires OneJournalEach(Extended(journals, w))
    ensures RecordsHistory(Extended(journals, w), history + [w])
  {
    var after := Extended(journals, w);
    forall p | p in after ensures Only(history + [w], p.scanId) == Tagged(p, after[p]) {
      JournalHistoryGrows(journals, w, history, p);
    }
    forall id | forall p :: p in after ==> p.scanId != id ensures Only(history + [w], id) == [] {
      OnlySnoc(history, w, id);
      assert w.path in after;
    }
  }
}
