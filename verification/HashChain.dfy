/** The event envelope of app/storage/event_store/schemas.py. Payload values are texts. */
module Events {
  datatype Event = Event(
    eventId: string,
    scanId: string,
    chipId: string,
    sequence: int,
    eventType: string,
    pipelineStage: string,
    timestampUtc: string,
    correlationId: string,
    sourceComponent: string,
    componentVersion: string,
    payload: map<string, string>,
    evidenceHashes: map<string, string>,
    previousEventHash: string,
    eventHash: string,
    schemaVersion: string
  )

  /** `payload.get("status", "UNKNOWN")`. */
  function StatusOf(e: Event): string {
    if "status" in e.payload then e.payload["status"] else "UNKNOWN"
  }

  /** The status a record names, with UNKNOWN for records that name none. */
  predicate NamesStatus(e: Event, status: string) {
    ("status" in e.payload ==> status == e.payload["status"])
    && ("status" !in e.payload ==> status == "UNKNOWN")
  }
}

/** The tamper-evident chain of app/storage/event_store/hash_chain.py. */
module HashChain {
  import opened Events

  type HexDigest = s: string | |s| == 64 witness seq(64, _ => '0')

  /** Canonical JSON followed by SHA-256, as one function of an event's content. */
  type ContentHash = Event -> HexDigest

  datatype Reason =
    | NoReason
    | SequenceMismatch(expected: int, received: int)
    | PreviousHashMismatch
    | ContentHashMismatch

  function Content(e: Event): Event {
    e.(eventHash := "")
  }

  function CalculateEventHash(hash: ContentHash, e: Event): string {
    hash(Content(e))
  }

  function SealEvent(hash: ContentHash, e: Event): Event {
    e.(eventHash := CalculateEventHash(hash, e))
  }

  function VerifyEvent(hash: ContentHash, e: Event, expectedPrevious: string): Reason {
    if e.previousEventHash != expectedPrevious then PreviousHashMismatch
    else if e.eventHash != CalculateEventHash(hash, e) then ContentHashMismatch
    else NoReason
  }

  function LastHash(events: seq<Event>): string {
    if events == [] then "" else events[|events| - 1].eventHash
  }

  /** Record `i` carries its position, its predecessor's hash and the hash of its own content. */
  predicate LinkOk(hash: ContentHash, events: seq<Event>, i: nat)
    requires i < |events|
  {
    && events[i].sequence == i + 1
    && events[i].previousEventHash == (if i == 0 then "" else events[i - 1].eventHash)
    && events[i].eventHash == hash(Content(events[i]))
  }

  predicate ChainOk(hash: ContentHash, events: seq<Event>) {
    forall i :: 0 <= i < |events| ==> LinkOk(hash, events, i)
  }

  /** The record with this sequence number is the first broken one, for this reason. */
  predicate BrokenAt(hash: ContentHash, events: seq<Event>, sequence: int, reason: Reason) {
    && 1 <= sequence <= |events|
    && ChainOk(hash, events[..sequence - 1])
    && !LinkOk(hash, events, sequence - 1)
    && var e := events[sequence - 1];
       reason == if e.sequence != sequence then SequenceMismatch(sequence, e.sequence)
                 else if e.previousEventHash != LastHash(events[..sequence - 1]) then PreviousHashMismatch
                 else ContentHashMismatch
  }

  /** Accepts exactly the well-linked lists; a rejection names the first broken record and the
      first of the three checks it fails. */
  method VerifyChain(hash: ContentHash, events: seq<Event>) returns (valid: bool, reason: Reason, sequence: int)
    ensures valid <==> ChainOk(hash, events)
    ensures valid ==> reason == NoReason && sequence == |events|
    ensures !valid ==> BrokenAt(hash, events, sequence, reason)
  {
    var previousHash, expectedSequence := "", 1;
    for i := 0 to |events|
      invariant expectedSequence == i + 1 && previousHash == LastHash(events[..i])
      invariant forall k :: 0 <= k < i ==> LinkOk(hash, events, k)
    {
      var event := events[i];
      LinksMakePrefix(hash, events, i);
      if event.sequence != expectedSequence {
        assert !LinkOk(hash, events, i);
        return false, SequenceMismatch(expectedSequence, event.sequence), expectedSequence;
      }
      var verdict := VerifyEvent(hash, event, previousHash);
      if verdict != NoReason {
        assert !LinkOk(hash, events, i);
        return false, verdict, expectedSequence;
      }
      previousHash := event.eventHash;
      expectedSequence := expectedSequence + 1;
    }
    return true, NoReason, expectedSequence - 1;
  }

  lemma LinksMakePrefix(hash: ContentHash, events: seq<Event>, n: nat)
    requires n <= |events| && forall i :: 0 <= i < n ==> LinkOk(hash, events, i)
    ensures ChainOk(hash, events[..n])
  {
    forall i | 0 <= i < n ensures LinkOk(hash, events[..n], i) {
      assert LinkOk(hash, events, i);
    }
  }

  /** Acceptance is closed under truncation. */
  lemma PrefixOk(hash: ContentHash, events: seq<Event>, n: nat)
    requires n <= |events| && ChainOk(hash, events)
    ensures ChainOk(hash, events[..n])
  {
    LinksMakePrefix(hash, events, n);
  }

  /** A sealed successor extends an accepted chain, and nothing else does. */
  lemma SuccessorOk(hash: ContentHash, events: seq<Event>, e: Event)
    requires ChainOk(hash, events)
    ensures ChainOk(hash, events + [e]) <==>
      e == SealEvent(hash, e) && e.sequence == |events| + 1 && e.previousEventHash == LastHash(events)
  {
    var longer, n := events + [e], |events|;
    assert LinkOk(hash, longer, n) <==>
      e == SealEvent(hash, e) && e.sequence == n + 1 && e.previousEventHash == LastHash(events);
    forall i | 0 <= i < n ensures LinkOk(hash, longer, i) {
      assert LinkOk(hash, events, i);
    }
  }

  predicate ContentsCollide(hash: ContentHash, pair: (Event, Event)) {
    pair.0 != pair.1 && hash(pair.0) == hash(pair.1)
  }

  /** Walks two chains back from their ends to the first differing contents. */
  function ChainCollision(a: seq<Event>, b: seq<Event>): (Event, Event)
    requires a != [] && b != []
    decreases |a|
  {
    var m, n := |a| - 1, |b| - 1;
    if Content(a[m]) != Content(b[n]) || m == 0 || n == 0 then (Content(a[m]), Content(b[n]))
    else ChainCollision(a[..m], b[..n])
  }

  /** The last hash commits to the whole journal: two accepted chains that end in the same hash
      are the same records, or two different contents with one digest are at hand. */
  lemma {:induction false} ChainBinding(hash: ContentHash, a: seq<Event>, b: seq<Event>)
    requires a != [] && b != [] && ChainOk(hash, a) && ChainOk(hash, b)
    requires LastHash(a) == LastHash(b)
    ensures a == b || ContentsCollide(hash, ChainCollision(a, b))
    decreases |a|
  {
    var m, n := |a| - 1, |b| - 1;
    assert LinkOk(hash, a, m) && LinkOk(hash, b, n);
    if Content(a[m]) == Content(b[n]) {
      assert a[m] == b[n] by {
        assert a[m] == Content(a[m]).(eventHash := a[m].eventHash);
        assert b[n] == Content(b[n]).(eventHash := b[n].eventHash);
      }
      assert m == n by {
        assert Content(a[m]).sequence == Content(b[n]).sequence;
      }
      assert a == a[..m] + [a[m]] && b == b[..n] + [b[n]];
      if m > 0 {
        PrefixOk(hash, a, m);
        PrefixOk(hash, b, n);
        assert LastHash(a[..m]) == a[m].previousEventHash && LastHash(b[..n]) == b[n].previousEventHash;
        ChainBinding(hash, a[..m], b[..n]);
      }
    }
  }
}
