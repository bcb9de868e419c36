/**
 The four JSON indexes of app/storage/indexes/builder.py: scans, chips, statuses and the list of
 latest updates. A missing or unreadable index file reads as its empty default.
 */
module Indexes {
  import opened Events

  /** A journal file: its directory under the event root, and the scan that names the file. */
  datatype Path = Path(directory: string, scanId: string)

  datatype ScanEntry = ScanEntry(
    path: Path,
    chipId: string,
    lastSequence: int,
    lastEventType: string,
    updatedAt: string,
    status: string
  )

  datatype LatestEntry = LatestEntry(scanId: string, chipId: string, updatedAt: string, status: string)

  datatype Index = Index(
    scans: map<string, ScanEntry>,
    chips: map<string, seq<string>>,
    statuses: map<string, seq<string>>,
    latest: seq<LatestEntry>
  )

  datatype IndexUpdate = IndexUpdate(event: Event, path: Path)

  const EMPTY := Index(map[], map[], map[], [])
  const LATEST_LIMIT := 1000

  function Project(u: IndexUpdate): ScanEntry {
    var e := u.event;
    ScanEntry(u.path, e.chipId, e.sequence, e.eventType, e.timestampUtc, StatusOf(e))
  }

  function LatestOf(e: Event): LatestEntry {
    LatestEntry(e.scanId, e.chipId, e.timestampUtc, StatusOf(e))
  }

  /** The entry shows this record of this journal, field by field. */
  predicate EntryShows(entry: ScanEntry, u: IndexUpdate) {
    && entry.path == u.path
    && entry.chipId == u.event.chipId
    && entry.lastSequence == u.event.sequence
    && entry.lastEventType == u.event.eventType
    && entry.updatedAt == u.event.timestampUtc
    && NamesStatus(u.event, entry.status)
  }

  function Without(members: seq<string>, id: string): (r: seq<string>)
    ensures forall y :: y in r <==> y in members && y != id
  {
    if members == [] then []
    else (if members[0] == id then [] else [members[0]]) + Without(members[1..], id)
  }

  function AddOnce(members: seq<string>, id: string): seq<string> {
    if id in members then members else members + [id]
  }

  function Members(lists: map<string, seq<string>>, key: string): seq<string> {
    if key in lists then lists[key] else []
  }

  /** One status list, after the scan has been moved to the list named `status`. */
  function LeaveList(members: seq<string>, name: string, id: string, status: string): seq<string> {
    if id in members && name != status then Without(members, id) else members
  }

  function MoveStatus(statuses: map<string, seq<string>>, id: string, status: string): map<string, seq<string>> {
    var left := map name | name in statuses :: LeaveList(statuses[name], name, id, status);
    left[status := AddOnce(Members(left, status), id)]
  }

  function WithoutScan(latest: seq<LatestEntry>, id: string): seq<LatestEntry> {
    if latest == [] then []
    else (if latest[0].scanId == id then [] else [latest[0]]) + WithoutScan(latest[1..], id)
  }

  function MoveToFront(latest: seq<LatestEntry>, e: Event): seq<LatestEntry> {
    [LatestOf(e)] + WithoutScan(latest, e.scanId)
  }

  function Take(latest: seq<LatestEntry>, n: nat): seq<LatestEntry> {
    if |latest| <= n then latest else latest[..n]
  }

  function ApplyUpdate(index: Index, u: IndexUpdate): Index {
    var e := u.event;
    Index(
      index.scans[e.scanId := Project(u)],
      index.chips[e.chipId := AddOnce(Members(index.chips, e.chipId), e.scanId)],
      MoveStatus(index.statuses, e.scanId, StatusOf(e)),
      Take(MoveToFront(index.latest, e), LATEST_LIMIT))
  }

  function ApplyAll(index: Index, us: seq<IndexUpdate>): Index {
    if us == [] then index else ApplyUpdate(ApplyAll(index, us[..|us| - 1]), us[|us| - 1])
  }

  /*** The builder ***/

  class IndexBuilder {
    var scanIndex: map<string, ScanEntry>
    var chipIndex: map<string, seq<string>>
    var statusIndex: map<string, seq<string>>
    var latestIndex: seq<LatestEntry>

    function Contents(): Index
      reads this
    {
      Index(scanIndex, chipIndex, statusIndex, latestIndex)
    }

    constructor ()
      ensures Contents() == EMPTY
    {
      scanIndex, chipIndex, statusIndex, latestIndex := map[], map[], map[], [];
    }

    /** Takes the scan out of every status list but one. */
    method LeaveOtherStatuses(id: string, status: string)
      modifies this`statusIndex
      ensures statusIndex == map name | name in old(statusIndex) :: LeaveList(old(statusIndex[name]), name, id, status)
    {
      var names := statusIndex.Keys;
      ghost var before := statusIndex;
      while names != {}
        invariant names <= statusIndex.Keys == before.Keys
        invariant forall name :: name in names ==> statusIndex[name] == before[name]
        invariant forall name :: name in before && name !in names ==>
          statusIndex[name] == LeaveList(before[name], name, id, status)
        decreases |names|
      {
        var name :| name in names;
        names := names - {name};
        if id in statusIndex[name] && name != status {
          statusIndex := statusIndex[name := Without(statusIndex[name], id)];
        }
      }
    }

    method JoinChip(id: string, chip: string)
      modifies this`chipIndex
      ensures chipIndex == old(chipIndex)[chip := AddOnce(Members(old(chipIndex), chip), id)]
    {
      var scanIds := Members(chipIndex, chip);
      if id !in scanIds {
        scanIds := scanIds + [id];
      }
      chipIndex := chipIndex[chip := scanIds];
    }

    method MoveToHead(event: Event)
      modifies this`latestIndex
      ensures latestIndex == Take(MoveToFront(old(latestIndex), event), LATEST_LIMIT)
    {
      latestIndex := [LatestOf(event)] + WithoutScan(latestIndex, event.scanId);
      if |latestIndex| > LATEST_LIMIT {
        latestIndex := latestIndex[..LATEST_LIMIT];
      }
    }

    method JoinStatus(id: string, status: string)
      modifies this`statusIndex
      ensures statusIndex == MoveStatus(old(statusIndex), id, status)
    {
      LeaveOtherStatuses(id, status);
      var members := Members(statusIndex, status);
      if id !in members {
        members := members + [id];
      }
      statusIndex := statusIndex[status := members];
    }

    method Update(event: Event, path: Path)
      modifies this
      ensures Contents() == ApplyUpdate(old(Contents()), IndexUpdate(event, path))
      ensures event.scanId in scanIndex && EntryShows(scanIndex[event.scanId], IndexUpdate(event, path))
      ensures old(Coherent(Contents())) ==> Coherent(Contents())
    {
      UpdateKeepsCoherent(Contents(), IndexUpdate(event, path));
      var id, status := event.scanId, StatusOf(event);
      scanIndex := scanIndex[id := Project(IndexUpdate(event, path))];

      JoinChip(id, event.chipId);
      JoinStatus(id, status);
      MoveToHead(event);
    }
  }

  /*** What an update history leaves behind ***/

  /** The updates of one scan, in order. */
  function Only(us: seq<IndexUpdate>, id: string): seq<IndexUpdate> {
    if us == [] then []
    else
      var last := us[|us| - 1];
      Only(us[..|us| - 1], id) + (if last.event.scanId == id then [last] else [])
  }

  lemma {:induction false} OnlyMembers(us: seq<IndexUpdate>, id: string, u: IndexUpdate)
    ensures u in Only(us, id) <==> u in us && u.event.scanId == id
  {
    if us == [] {
    } else {
      var init, last := us[..|us| - 1], us[|us| - 1];
      OnlyMembers(init, id, u);
      assert us == init + [last];
    }
  }

  predicate SomeChip(us: seq<IndexUpdate>, chip: string) {
    exists u :: u in us && u.event.chipId == chip
  }

  predicate SomeStatus(us: seq<IndexUpdate>, status: string) {
    exists u :: u in us && StatusOf(u.event) == status
  }

  predicate Listed(lists: map<string, seq<string>>, key: string, id: string) {
    key in lists && id in lists[key]
  }

  lemma ScanEntryStep(index: Index, u: IndexUpdate, id: string)
    ensures var scans := ApplyUpdate(index, u).scans;
      if id == u.event.scanId then id in scans && scans[id] == Project(u)
      else (id in scans <==> id in index.scans) && (id in scans ==> scans[id] == index.scans[id])
  {
  }

  /** The entry of a scan shows the last of its updates, if it has any. */
  predicate LastShown(scans: map<string, ScanEntry>, id: string, mine: seq<IndexUpdate>) {
    (id in scans <==> mine != []) && (id in scans ==> EntryShows(scans[id], mine[|mine| - 1]))
  }

  lemma {:induction false} ScanEntryIsLastUpdate(us: seq<IndexUpdate>, id: string)
    ensures LastShown(ApplyAll(EMPTY, us).scans, id, Only(us, id))
  {
    if us == [] {
    } else {
      var init, last := us[..|us| - 1], us[|us| - 1];
      ScanEntryIsLastUpdate(init, id);
      ScanEntryStep(ApplyAll(EMPTY, init), last, id);
    }
  }

  /** A chip lists exactly the scans with an event on it. */
  lemma {:induction false} ChipListsItsScans(us: seq<IndexUpdate>, id: string, chip: string)
    ensures Listed(ApplyAll(EMPTY, us).chips, chip, id) <==> SomeChip(Only(us, id), chip)
  {
    if us == [] {
    } else {
      var init, last := us[..|us| - 1], us[|us| - 1];
      ChipListsItsScans(init, id, chip);
      if last.event.scanId == id {
        assert Only(us, id) == Only(init, id) + [last];
        assert last in Only(us, id);
        assert SomeChip(Only(us, id), chip) <==> SomeChip(Only(init, id), chip) || last.event.chipId == chip;
      } else {
        assert Only(us, id) == Only(init, id);
      }
    }
  }

  lemma StatusStep(index: Index, u: IndexUpdate, id: string, status: string)
    ensures Listed(ApplyUpdate(index, u).statuses, status, id)
      <==> if id == u.event.scanId then status == StatusOf(u.event) else Listed(index.statuses, status, id)
  {
  }

  predicate LastHasStatus(mine: seq<IndexUpdate>, status: string) {
    mine != [] && StatusOf(mine[|mine| - 1].event) == status
  }

  lemma LastStatusStep(us: seq<IndexUpdate>, id: string, status: string)
    requires us != []
    ensures var init, last := us[..|us| - 1], us[|us| - 1];
      LastHasStatus(Only(us, id), status)
      <==> if last.event.scanId == id then StatusOf(last.event) == status else LastHasStatus(Only(init, id), status)
  {
  }

  /** A scan is listed under the status of its last update and under no other. */
  lemma {:induction false} ScanIsInOneStatusList(us: seq<IndexUpdate>, id: string, status: string)
    ensures Listed(ApplyAll(EMPTY, us).statuses, status, id) <==> LastHasStatus(Only(us, id), status)
  {
    if us == [] {
    } else {
      var init, last := us[..|us| - 1], us[|us| - 1];
      ScanIsInOneStatusList(init, id, status);
      StatusStep(ApplyAll(EMPTY, init), last, id, status);
      LastStatusStep(us, id, status);
    }
  }

  lemma SomeStatusSnoc(init: seq<IndexUpdate>, last: IndexUpdate, status: string)
    ensures SomeStatus(init + [last], status) <==> SomeStatus(init, status) || StatusOf(last.event) == status
  {
    assert last in init + [last];
  }

  lemma StatusKeyStep(index: Index, u: IndexUpdate, status: string)
    ensures status in ApplyUpdate(index, u).statuses <==> status in index.statuses || status == StatusOf(u.event)
  {
  }

  lemma {:induction false} StatusKeys(us: seq<IndexUpdate>, status: string)
    ensures status in ApplyAll(EMPTY, us).statuses <==> SomeStatus(us, status)
  {
    if us == [] {
    } else {
      var init, last := us[..|us| - 1], us[|us| - 1];
      StatusKeys(init, status);
      StatusKeyStep(ApplyAll(EMPTY, init), last, status);
      SomeStatusSnoc(init, last, status);
      assert us == init + [last];
    }
  }

  lemma {:induction false} ChipKeys(us: seq<IndexUpdate>, chip: string)
    ensures chip in ApplyAll(EMPTY, us).chips <==> SomeChip(us, chip)
  {
    if us == [] {
    } else {
      var init, last := us[..|us| - 1], us[|us| - 1];
      ChipKeys(init, chip);
      assert us == init + [last] && last in us;
      assert SomeChip(us, chip) <==> SomeChip(init, chip) || last.event.chipId == chip;
    }
  }

  /** Two indexes with the same scan entries, and lists with the same keys and the same members. */
  ghost predicate SameViews(a: Index, b: Index) {
    && a.scans == b.scans
    && a.chips.Keys == b.chips.Keys
    && a.statuses.Keys == b.statuses.Keys
    && (forall key, id :: Listed(a.chips, key, id) <==> Listed(b.chips, key, id))
    && (forall key, id :: Listed(a.statuses, key, id) <==> Listed(b.statuses, key, id))
  }

  lemma SameMentions(us: seq<IndexUpdate>, vs: seq<IndexUpdate>)
    requires forall id :: Only(us, id) == Only(vs, id)
    ensures forall u :: u in us <==> u in vs
  {
    forall u ensures u in us <==> u in vs {
      OnlyMembers(us, u.event.scanId, u);
      OnlyMembers(vs, u.event.scanId, u);
    }
  }

  lemma SameShown(a: map<string, ScanEntry>, b: map<string, ScanEntry>, id: string, mine: seq<IndexUpdate>)
    requires LastShown(a, id, mine) && LastShown(b, id, mine)
    ensures (id in a <==> id in b) && (id in a ==> a[id] == b[id])
  {
  }

  lemma SameScanEntry(us: seq<IndexUpdate>, vs: seq<IndexUpdate>, id: string)
    requires Only(us, id) == Only(vs, id)
    ensures var a, b := ApplyAll(EMPTY, us).scans, ApplyAll(EMPTY, vs).scans;
      (id in a <==> id in b) && (id in a ==> a[id] == b[id])
  {
    ScanEntryIsLastUpdate(us, id);
    ScanEntryIsLastUpdate(vs, id);
    SameShown(ApplyAll(EMPTY, us).scans, ApplyAll(EMPTY, vs).scans, id, Only(us, id));
  }

  lemma SameStatusList(us: seq<IndexUpdate>, vs: seq<IndexUpdate>, id: string, status: string)
    requires Only(us, id) == Only(vs, id)
    ensures Listed(ApplyAll(EMPTY, us).statuses, status, id) <==> Listed(ApplyAll(EMPTY, vs).statuses, status, id)
  {
    ScanIsInOneStatusList(us, id, status);
    ScanIsInOneStatusList(vs, id, status);
  }

  lemma SameScanEntries(us: seq<IndexUpdate>, vs: seq<IndexUpdate>)
    requires forall id :: Only(us, id) == Only(vs, id)
    ensures ApplyAll(EMPTY, us).scans == ApplyAll(EMPTY, vs).scans
  {
    var a, b := ApplyAll(EMPTY, us).scans, ApplyAll(EMPTY, vs).scans;
    forall id ensures (id in a <==> id in b) && (id in a ==> a[id] == b[id]) {
      SameScanEntry(us, vs, id);
    }
  }

  lemma SameChipLists(us: seq<IndexUpdate>, vs: seq<IndexUpdate>)
    requires forall id :: Only(us, id) == Only(vs, id)
    ensures var a, b := ApplyAll(EMPTY, us).chips, ApplyAll(EMPTY, vs).chips;
      a.Keys == b.Keys && forall key, id :: Listed(a, key, id) <==> Listed(b, key, id)
  {
    var a, b := ApplyAll(EMPTY, us).chips, ApplyAll(EMPTY, vs).chips;
    SameMentions(us, vs);
    forall key ensures key in a <==> key in b {
      ChipKeys(us, key);
      ChipKeys(vs, key);
    }
    forall key, id ensures Listed(a, key, id) <==> Listed(b, key, id) {
      ChipListsItsScans(us, id, key);
      ChipListsItsScans(vs, id, key);
    }
  }

  lemma SameStatusLists(us: seq<IndexUpdate>, vs: seq<IndexUpdate>)
    requires forall id :: Only(us, id) == Only(vs, id)
    ensures var a, b := ApplyAll(EMPTY, us).statuses, ApplyAll(EMPTY, vs).statuses;
      a.Keys == b.Keys && forall key, id :: Listed(a, key, id) <==> Listed(b, key, id)
  {
    var a, b := ApplyAll(EMPTY, us).statuses, ApplyAll(EMPTY, vs).statuses;
    SameMentions(us, vs);
    forall key ensures key in a <==> key in b {
      StatusKeys(us, key);
      StatusKeys(vs, key);
    }
    forall key, id ensures Listed(a, key, id) <==> Listed(b, key, id) {
      SameStatusList(us, vs, id, key);
    }
  }

  /** Only the order within each scan matters: however two histories interleave the same scans,
      they leave the same views. */
  lemma SameScansSameViews(us: seq<IndexUpdate>, vs: seq<IndexUpdate>)
    requires forall id :: Only(us, id) == Only(vs, id)
    ensures SameViews(ApplyAll(EMPTY, us), ApplyAll(EMPTY, vs))
  {
    SameScanEntries(us, vs);
    SameChipLists(us, vs);
    SameStatusLists(us, vs);
  }

  /*** The order of the lists ***/

  predicate NoRepeats(members: seq<string>) {
    forall i, j :: 0 <= i < j < |members| ==> members[i] != members[j]
  }

  lemma AddOnceGrows(members: seq<string>, id: string)
    requires NoRepeats(members)
    ensures NoRepeats(AddOnce(members, id)) && members <= AddOnce(members, id) && id in AddOnce(members, id)
  {
  }

  lemma ChipListStep(index: Index, u: IndexUpdate, chip: string)
    requires NoRepeats(Members(index.chips, chip))
    ensures var now := Members(ApplyUpdate(index, u).chips, chip); NoRepeats(now) && Members(index.chips, chip) <= now
  {
    AddOnceGrows(Members(index.chips, chip), u.event.scanId);
  }

  lemma PrefixOfPrefix(a: seq<string>, b: seq<string>, c: seq<string>)
    requires a <= b <= c
    ensures a <= c
  {
  }

  lemma {:induction false} ChipListOnce(us: seq<IndexUpdate>, chip: string)
    ensures NoRepeats(Members(ApplyAll(EMPTY, us).chips, chip))
  {
    if us == [] {
    } else {
      ChipListOnce(us[..|us| - 1], chip);
      ChipListStep(ApplyAll(EMPTY, us[..|us| - 1]), us[|us| - 1], chip);
    }
  }

  /** The scans of a chip stand in the order in which they first came to it, once each: later updates
      only add at the end. */
  lemma {:induction false} ChipListGrowsAtEnd(us: seq<IndexUpdate>, n: nat, chip: string)
    requires n <= |us|
    ensures NoRepeats(Members(ApplyAll(EMPTY, us).chips, chip))
    ensures Members(ApplyAll(EMPTY, us[..n]).chips, chip) <= Members(ApplyAll(EMPTY, us).chips, chip)
    decreases |us|
  {
    ChipListOnce(us, chip);
    if n == |us| {
      assert us[..n] == us;
    } else {
      var init := us[..|us| - 1];
      assert init[..n] == us[..n];
      ChipListGrowsAtEnd(init, n, chip);
      ChipListStep(ApplyAll(EMPTY, init), us[|us| - 1], chip);
      PrefixOfPrefix(Members(ApplyAll(EMPTY, us[..n]).chips, chip), Members(ApplyAll(EMPTY, init).chips, chip),
                     Members(ApplyAll(EMPTY, us).chips, chip));
    }
  }

  lemma {:induction false} WithoutAbsent(members: seq<string>, id: string)
    requires id !in members
    ensures Without(members, id) == members
  {
    if members == [] {
    } else {
      WithoutAbsent(members[1..], id);
    }
  }

  lemma {:induction false} WithoutMember(before: seq<string>, id: string, after: seq<string>)
    requires id !in before && id !in after
    ensures Without(before + [id] + after, id) == before + after
  {
    var members := before + [id] + after;
    if before == [] {
      assert members[0] == id && members[1..] == after;
      WithoutAbsent(after, id);
      assert before + after == after;
    } else {
      assert members[0] == before[0] && members[1..] == before[1..] + [id] + after;
      WithoutMember(before[1..], id, after);
      assert before + after == [before[0]] + (before[1..] + after);
    }
  }

  /** A status list loses the scan from its place, gains it at its end, or stays; the others keep
      their order. */
  lemma StatusListMoves(index: Index, u: IndexUpdate, name: string, before: seq<string>, after: seq<string>)
    requires u.event.scanId !in before && u.event.scanId !in after
    ensures var id, now := u.event.scanId, Members(ApplyUpdate(index, u).statuses, name);
      && (name != StatusOf(u.event) && Members(index.statuses, name) == before + [id] + after ==> now == before + after)
      && (name != StatusOf(u.event) && Members(index.statuses, name) == before ==> now == before)
      && (name == StatusOf(u.event) && Members(index.statuses, name) == before + [id] + after ==>
            now == before + [id] + after)
      && (name == StatusOf(u.event) && Members(index.statuses, name) == before ==> now == before + [id])
  {
    WithoutMember(before, u.event.scanId, after);
  }

  /*** The views agree ***/

  /** The scan is listed under its entry's status and no other, and under its entry's chip. */
  ghost predicate ListsAgree(index: Index, id: string) {
    && (forall status :: Listed(index.statuses, status, id) <==>
          id in index.scans && status == index.scans[id].status)
    && (id in index.scans ==> Listed(index.chips, index.scans[id].chipId, id))
  }

  /** An element of latest.json says what the entry of its scan says. */
  predicate LatestAgrees(scans: map<string, ScanEntry>, e: LatestEntry) {
    && e.scanId in scans
    && e.chipId == scans[e.scanId].chipId
    && e.updatedAt == scans[e.scanId].updatedAt
    && e.status == scans[e.scanId].status
  }

  ghost predicate Coherent(index: Index) {
    (forall id :: ListsAgree(index, id)) && (forall e :: e in index.latest ==> LatestAgrees(index.scans, e))
  }

  lemma UpdateKeepsListsAgree(index: Index, u: IndexUpdate, id: string)
    requires ListsAgree(index, id)
    ensures ListsAgree(ApplyUpdate(index, u), id)
  {
    forall status { StatusStep(index, u, id, status); }
    ScanEntryStep(index, u, id);
  }

  lemma {:induction false} WithoutScanMembers(latest: seq<LatestEntry>, id: string, e: LatestEntry)
    ensures e in WithoutScan(latest, id) <==> e in latest && e.scanId != id
  {
    if latest == [] {
    } else {
      WithoutScanMembers(latest[1..], id, e);
    }
  }

  lemma UpdateKeepsLatestAgrees(index: Index, u: IndexUpdate, e: LatestEntry)
    requires forall old_ :: old_ in index.latest ==> LatestAgrees(index.scans, old_)
    requires e in ApplyUpdate(index, u).latest
    ensures LatestAgrees(ApplyUpdate(index, u).scans, e)
  {
    WithoutScanMembers(index.latest, u.event.scanId, e);
    ScanEntryStep(index, u, e.scanId);
  }

  lemma UpdateKeepsCoherent(index: Index, u: IndexUpdate)
    ensures Coherent(index) ==> Coherent(ApplyUpdate(index, u))
    ensures ApplyUpdate(index, u).latest != [] && ApplyUpdate(index, u).latest[0].scanId == u.event.scanId
  {
    if Coherent(index) {
      forall id ensures ListsAgree(ApplyUpdate(index, u), id) {
        UpdateKeepsListsAgree(index, u, id);
      }
      forall e | e in ApplyUpdate(index, u).latest ensures LatestAgrees(ApplyUpdate(index, u).scans, e) {
        UpdateKeepsLatestAgrees(index, u, e);
      }
    }
  }

  /** After any history the views agree: each scan's entry, its status list, its chip list and its
      element of latest.json tell the same, and latest.json begins with the last scan updated. */
  lemma {:induction false} ViewsAgree(us: seq<IndexUpdate>)
    ensures Coherent(ApplyAll(EMPTY, us))
    ensures us != [] ==>
      ApplyAll(EMPTY, us).latest != [] && ApplyAll(EMPTY, us).latest[0].scanId == us[|us| - 1].event.scanId
  {
    if us == [] {
    } else {
      ViewsAgree(us[..|us| - 1]);
      UpdateKeepsCoherent(ApplyAll(EMPTY, us[..|us| - 1]), us[|us| - 1]);
    }
  }

  /*** latest.json ***/

  /** The scans by time of their last update, newest first: the unbounded list that the file
      abbreviates. */
  function NewestFirst(us: seq<IndexUpdate>): seq<LatestEntry> {
    if us == [] then []
    else NewestFirst(us[1..]) + (if Only(us[1..], us[0].event.scanId) == [] then [LatestOf(us[0].event)] else [])
  }

  function MoveAllToFront(us: seq<IndexUpdate>): seq<LatestEntry> {
    if us == [] then [] else MoveToFront(MoveAllToFront(us[..|us| - 1]), us[|us| - 1].event)
  }

  predicate DistinctScans(latest: seq<LatestEntry>) {
    forall i, j :: 0 <= i < j < |latest| ==> latest[i].scanId != latest[j].scanId
  }

  lemma {:induction false} WithoutScanConcat(a: seq<LatestEntry>, b: seq<LatestEntry>, id: string)
    ensures WithoutScan(a + b, id) == WithoutScan(a, id) + WithoutScan(b, id)
  {
    if a == [] {
      assert a + b == b;
    } else {
      var head := if a[0].scanId == id then [] else [a[0]];
      WithoutScanConcat(a[1..], b, id);
      assert (a + b)[1..] == a[1..] + b;
      assert WithoutScan(a + b, id) == head + (WithoutScan(a[1..], id) + WithoutScan(b, id));
    }
  }

  lemma {:induction false} WithoutScanAbsent(latest: seq<LatestEntry>, id: string)
    requires forall entry :: entry in latest ==> entry.scanId != id
    ensures WithoutScan(latest, id) == latest
  {
    if latest == [] {
    } else {
      WithoutScanAbsent(latest[1..], id);
    }
  }

  lemma {:induction false} WithoutScanDistinct(latest: seq<LatestEntry>, id: string)
    requires DistinctScans(latest)
    ensures DistinctScans(WithoutScan(latest, id))
    ensures forall entry :: entry in WithoutScan(latest, id) <==> entry in latest && entry.scanId != id
  {
    if latest == [] {
    } else {
      WithoutScanDistinct(latest[1..], id);
    }
  }

  lemma {:induction false} MoveAllDistinct(us: seq<IndexUpdate>)
    ensures DistinctScans(MoveAllToFront(us))
  {
    if us == [] {
    } else {
      var init := MoveAllToFront(us[..|us| - 1]);
      MoveAllDistinct(us[..|us| - 1]);
      WithoutScanDistinct(init, us[|us| - 1].event.scanId);
    }
  }

  /** Removing one scan from the first `n` entries and from the whole list agree on the first
      `n - 1` entries, when no scan occurs twice. */
  lemma {:induction false} TakeWithoutScan(latest: seq<LatestEntry>, id: string, n: nat)
    requires DistinctScans(latest)
    ensures Take(WithoutScan(Take(latest, n + 1), id), n) == Take(WithoutScan(latest, id), n)
    decreases |latest|
  {
    if latest != [] && |latest| > n + 1 {
      var rest := latest[1..];
      assert latest == [latest[0]] + rest;
      if latest[0].scanId == id {
        assert forall k :: 0 <= k < |rest| ==> rest[k] == latest[k + 1];
        WithoutScanAbsent(rest, id);
        assert latest[..n + 1][1..] == rest[..n];
        WithoutScanAbsent(rest[..n], id);
      } else if n > 0 {
        assert DistinctScans(rest);
        TakeWithoutScan(rest, id, n - 1);
        assert latest[..n + 1][1..] == rest[..n];
        var short, full := WithoutScan(rest[..n], id), WithoutScan(rest, id);
        assert WithoutScan(latest[..n + 1], id) == [latest[0]] + short;
        assert WithoutScan(latest, id) == [latest[0]] + full;
        assert Take([latest[0]] + short, n) == [latest[0]] + Take(short, n - 1);
        assert Take([latest[0]] + full, n) == [latest[0]] + Take(full, n - 1);
      }
    }
  }

  /** Filtering, inserting and truncating the bounded list tracks the unbounded one. */
  lemma {:induction false} LatestIsBoundedMoveToFront(us: seq<IndexUpdate>)
    ensures ApplyAll(EMPTY, us).latest == Take(MoveAllToFront(us), LATEST_LIMIT)
  {
    if us == [] {
    } else {
      var init, e := us[..|us| - 1], us[|us| - 1].event;
      LatestIsBoundedMoveToFront(init);
      MoveAllDistinct(init);
      var n := LATEST_LIMIT - 1;
      var full := MoveAllToFront(init);
      TakeWithoutScan(full, e.scanId, n);
      var short := Take(full, n + 1);
      assert Take([LatestOf(e)] + WithoutScan(short, e.scanId), n + 1)
        == [LatestOf(e)] + Take(WithoutScan(short, e.scanId), n);
      assert Take([LatestOf(e)] + WithoutScan(full, e.scanId), n + 1)
        == [LatestOf(e)] + Take(WithoutScan(full, e.scanId), n);
    }
  }

  lemma {:induction false} OnlyConcat(us: seq<IndexUpdate>, vs: seq<IndexUpdate>, id: string)
    ensures Only(us + vs, id) == Only(us, id) + Only(vs, id)
  {
    if vs == [] {
      assert us + vs == us;
    } else {
      OnlyConcat(us, vs[..|vs| - 1], id);
      assert (us + vs)[..|us + vs| - 1] == us + vs[..|vs| - 1];
    }
  }

  lemma {:induction false} NewestFirstSnoc(us: seq<IndexUpdate>, u: IndexUpdate)
    ensures NewestFirst(us + [u]) == MoveToFront(NewestFirst(us), u.event)
  {
    var id := u.event.scanId;
    if us == [] {
      assert us + [u] == [u];
      assert NewestFirst([u]) == [LatestOf(u.event)];
    } else {
      var first, rest := us[0], us[1..];
      assert (us + [u])[1..] == rest + [u];
      NewestFirstSnoc(rest, u);
      OnlyConcat(rest, [u], first.event.scanId);
      assert Only([u], first.event.scanId) == if id == first.event.scanId then [u] else [];
      var tail := if Only(rest, first.event.scanId) == [] then [LatestOf(first.event)] else [];
      WithoutScanConcat(NewestFirst(rest), tail, id);
      assert WithoutScan(tail, id) == if id == first.event.scanId then [] else tail;
      assert NewestFirst(us) == NewestFirst(rest) + tail;
    }
  }

  lemma {:induction false} NewestFirstIsMoveToFront(us: seq<IndexUpdate>)
    ensures NewestFirst(us) == MoveAllToFront(us)
  {
    if us == [] {
    } else {
      NewestFirstIsMoveToFront(us[..|us| - 1]);
      NewestFirstSnoc(us[..|us| - 1], us[|us| - 1]);
      assert us == us[..|us| - 1] + [us[|us| - 1]];
    }
  }

  /** After any history, latest.json holds the first thousand scans by last update, once each. */
  lemma LatestIsNewestFirst(us: seq<IndexUpdate>)
    ensures ApplyAll(EMPTY, us).latest == Take(NewestFirst(us), 1000)
    ensures DistinctScans(NewestFirst(us))
  {
    LatestIsBoundedMoveToFront(us);
    NewestFirstIsMoveToFront(us);
    MoveAllDistinct(us);
  }
}
