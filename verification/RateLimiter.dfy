/**
 The sliding-window limiter of app/security/rate_limiting.py. `check` is one atomic step on a clock
 that never runs backward; the ghost history keeps, per key, every time the limiter ever accepted,
 where the limiter itself keeps only a pruned deque.
 */
module RateLimiter {
  import opened Wrappers
  import opened Numbers

  datatype Outcome = Accepted | Limited(retryAfter: int) | NoOldestStamp

  /*** Times in a window ***/

  ghost predicate Sorted(stamps: seq<real>) {
    forall i, j :: 0 <= i < j < |stamps| ==> stamps[i] <= stamps[j]
  }

  /** How many stamps lie in the half-open interval (low, high]. */
  function CountIn(stamps: seq<real>, low: real, high: real): (n: nat)
    ensures n <= |stamps|
  {
    if stamps == [] then 0
    else
      CountIn(stamps[..|stamps| - 1], low, high) + (if low < stamps[|stamps| - 1] <= high then 1 else 0)
  }

  lemma CountSnoc(stamps: seq<real>, t: real, low: real, high: real)
    ensures CountIn(stamps + [t], low, high) == CountIn(stamps, low, high) + (if low < t <= high then 1 else 0)
  {
    assert (stamps + [t])[..|stamps|] == stamps;
  }

  /** A smaller interval holds no more stamps, as long as the stamps it leaves out are not there. */
  lemma {:induction false} CountWithin(stamps: seq<real>, low: real, high: real, low2: real, high2: real)
    requires forall i :: 0 <= i < |stamps| && low < stamps[i] <= high ==> low2 < stamps[i] <= high2
    ensures CountIn(stamps, low, high) <= CountIn(stamps, low2, high2)
  {
    if stamps == [] {
    } else {
      CountWithin(stamps[..|stamps| - 1], low, high, low2, high2);
    }
  }

  /** In a sorted history that ends by `high`, the stamps after `low` are a suffix. */
  lemma {:induction false} CountSuffix(history: seq<real>, dropped: nat, low: real, high: real)
    requires dropped <= |history|
    requires forall i :: 0 <= i < dropped ==> history[i] <= low
    requires forall i :: dropped <= i < |history| ==> low < history[i] <= high
    ensures CountIn(history, low, high) == |history| - dropped
    decreases |history|
  {
    if history == [] {
    } else {
      var init := history[..|history| - 1];
      if dropped == |history| {
        CountSuffix(init, dropped - 1, low, high);
      } else {
        CountSuffix(init, dropped, low, high);
      }
    }
  }

  function EffectiveLimit(limit: Option<int>, requests: int): int {
    if limit == None || limit == Some(0) then requests else limit.value
  }

  /** Seconds a rejected caller is told to wait, from the oldest stamp still in the window. */
  function RetryAfter(width: real, now: real, oldest: real): int {
    MaxInt(1, (width - (now - oldest)).Floor)
  }

  /*** The limiter ***/

  function Lookup(lists: map<string, seq<real>>, key: string): seq<real> {
    if key in lists then lists[key] else []
  }

  /** The accepted times of one key, and how many of them its deque has shed. */
  datatype Past = Past(history: seq<real>, dropped: nat)

  ghost function PastOf(pasts: map<string, Past>, key: string): Past {
    if key in pasts then pasts[key] else Past([], 0)
  }

  /** What a deque, a full history and the number of pruned stamps of one key have to do with each
      other at one time. */
  ghost predicate Pruned(deque: seq<real>, history: seq<real>, dropped: nat, clock: real, width: real) {
    && Sorted(history)
    && (forall i :: 0 <= i < |history| ==> history[i] <= clock)
    && dropped <= |history|
    && deque == history[dropped..]
    && forall i :: 0 <= i < dropped ==> history[i] <= clock - width
  }

  lemma PrunedLater(deque: seq<real>, history: seq<real>, dropped: nat, clock: real, now: real, width: real)
    requires Pruned(deque, history, dropped, clock, width) && clock <= now
    ensures Pruned(deque, history, dropped, now, width)
  {
  }

  lemma PrunedAccept(deque: seq<real>, history: seq<real>, dropped: nat, now: real, width: real)
    requires Pruned(deque, history, dropped, now, width)
    ensures Pruned(deque + [now], history + [now], dropped, now, width)
  {
  }

  /** Position `i` holds the first stamp after the threshold. */
  ghost predicate OldestRecent(history: seq<real>, threshold: real, i: int) {
    0 <= i < |history| && threshold < history[i] && forall j :: 0 <= j < i ==> history[j] <= threshold
  }

  method Prune(deque: seq<real>, threshold: real, ghost history: seq<real>, ghost before: nat, ghost clock: real,
               now: real, width: real)
    returns (stamps: seq<real>, ghost dropped: nat)
    requires Pruned(deque, history, before, clock, width) && clock <= now && threshold == now - width
    ensures Pruned(stamps, history, dropped, now, width)
    ensures |stamps| == CountIn(history, threshold, now)
    ensures stamps != [] ==> OldestRecent(history, threshold, dropped) && stamps[0] == history[dropped]
  {
    stamps, dropped := deque, before;
    while stamps != [] && stamps[0] <= threshold
      invariant Pruned(stamps, history, dropped, now, width)
      decreases |stamps|
    {
      stamps, dropped := stamps[1..], dropped + 1;
    }
    forall i | dropped <= i < |history| ensures threshold < history[i] <= now {
      assert stamps[0] == history[dropped] <= history[i];
    }
    CountSuffix(history, dropped, threshold, now);
  }

  datatype Call = Call(now: real, limit: int)

  /** What `Check` makes of one key's history. */
  function AfterCall(history: seq<real>, width: real, call: Call): seq<real> {
    if CountIn(history, call.now - width, call.now) < call.limit then history + [call.now] else history
  }

  /** The answer to a call at `now`, in terms of every time the key was accepted. */
  ghost predicate Answers(outcome: Outcome, history: seq<real>, effective: int, width: real, now: real) {
    var recent := CountIn(history, now - width, now);
    match outcome
    case Accepted => recent < effective
    case NoOldestStamp => effective <= recent == 0
    case Limited(wait) =>
      effective <= recent
      && exists i :: OldestRecent(history, now - width, i) && wait == RetryAfter(width, now, history[i])
  }

  /** Fewer calls than the limit lie in the window that ends now. */
  predicate FewerThan(limit: int, history: seq<real>, width: real, now: real) {
    CountIn(history, now - width, now) < limit
  }

  /** Without a limit of its own, or with the limit zero, a call is held to the limiter's; otherwise to its own. */
  lemma AcceptedIffFewer(outcome: Outcome, history: seq<real>, limit: Option<int>, requests: int, width: real,
                         now: real)
    requires Answers(outcome, history, EffectiveLimit(limit, requests), width, now)
    ensures limit in {None, Some(0)} ==> (outcome == Accepted <==> FewerThan(requests, history, width, now))
    ensures limit !in {None, Some(0)} ==> (outcome == Accepted <==> FewerThan(limit.value, history, width, now))
  {
  }

  /** The decision on one deque, and what becomes of it. */
  method Decide(deque: seq<real>, effective: int, width: real, now: real, ghost history: seq<real>,
                ghost before: nat, ghost clock: real)
    returns (outcome: Outcome, stamps: seq<real>, ghost dropped: nat)
    requires Pruned(deque, history, before, clock, width) && clock <= now
    ensures Answers(outcome, history, effective, width, now)
    ensures AfterCall(history, width, Call(now, effective)) == if outcome == Accepted then history + [now] else history
    ensures Pruned(stamps, if outcome == Accepted then history + [now] else history, dropped, now, width)
  {
    var threshold := now - width;
    stamps, dropped := Prune(deque, threshold, history, before, clock, now, width);
    if |stamps| >= effective {
      if stamps == [] {
        outcome := NoOldestStamp;
      } else {
        outcome := Limited(RetryAfter(width, now, stamps[0]));
      }
    } else {
      PrunedAccept(stamps, history, dropped, now, width);
      stamps := stamps + [now];
      outcome := Accepted;
    }
  }

  ghost predicate KeyOk(entries: map<string, seq<real>>, pasts: map<string, Past>, clock: real, width: real,
                        key: string) {
    Pruned(Lookup(entries, key), PastOf(pasts, key).history, PastOf(pasts, key).dropped, clock, width)
  }

  ghost predicate KeysOk(entries: map<string, seq<real>>, pasts: map<string, Past>, clock: real, width: real) {
    forall key :: KeyOk(entries, pasts, clock, width, key)
  }

  lemma StoreKeepsKeys(entries: map<string, seq<real>>, pasts: map<string, Past>, clock: real, now: real, width: real,
                       key: string, stamps: seq<real>, past: Past)
    requires KeysOk(entries, pasts, clock, width) && clock <= now
    requires Pruned(stamps, past.history, past.dropped, now, width)
    ensures KeysOk(entries[key := stamps], pasts[key := past], now, width)
  {
    var newEntries, newPasts := entries[key := stamps], pasts[key := past];
    forall other ensures KeyOk(newEntries, newPasts, now, width, other) {
      if other == key {
        assert Lookup(newEntries, key) == stamps && PastOf(newPasts, key) == past;
      } else {
        assert KeyOk(entries, pasts, clock, width, other);
        var earlier := PastOf(pasts, other);
        PrunedLater(Lookup(entries, other), earlier.history, earlier.dropped, clock, now, width);
        assert Lookup(newEntries, other) == Lookup(entries, other) && PastOf(newPasts, other) == PastOf(pasts, other);
      }
    }
  }

  class RateLimiter {
    const requests: int
    const window: int
    var entries: map<string, seq<real>>
    ghost var pasts: map<string, Past>
    ghost var clock: real

    ghost function History(key: string): seq<real>
      reads this
    {
      PastOf(pasts, key).history
    }

    ghost predicate Valid()
      reads this
    {
      requests > 0 && window > 0 && KeysOk(entries, pasts, clock, window as real)
    }

    constructor (requests: int, window: int)
      requires requests > 0 && window > 0
      ensures Valid() && this.requests == requests && this.window == window && clock == 0.0
      ensures forall key :: History(key) == []
    {
      this.requests := requests;
      this.window := window;
      entries := map[];
      pasts := map[];
      clock := 0.0;
    }

    /** `__init__`, which refuses limits that are not positive. */
    static method Create(requests: int, window: int) returns (r: Result<RateLimiter>)
      ensures r.Err? <==> requests <= 0 || window <= 0
      ensures r.Err? ==> r.error == ValueError
      ensures r.Ok? ==> fresh(r.value) && r.value.Valid() && r.value.requests == requests && r.value.window == window
    {
      if requests <= 0 || window <= 0 {
        return Err(ValueError);
      }
      var limiter := new RateLimiter(requests, window);
      return Ok(limiter);
    }

    method Check(key: string, limit: Option<int>, now: real) returns (outcome: Outcome)
      requires Valid() && clock <= now
      modifies this
      ensures Valid() && clock == now
      ensures Answers(outcome, old(History(key)), EffectiveLimit(limit, requests), window as real, now)
      ensures History(key) == AfterCall(old(History(key)), window as real, Call(now, EffectiveLimit(limit, requests)))
      ensures History(key) == if outcome == Accepted then old(History(key)) + [now] else old(History(key))
      ensures limit in {None, Some(0)} ==>
        (outcome == Accepted <==> FewerThan(requests, old(History(key)), window as real, now))
      ensures limit !in {None, Some(0)} ==>
        (outcome == Accepted <==> FewerThan(limit.value, old(History(key)), window as real, now))
      ensures forall other :: other != key ==> History(other) == old(History(other))
    {
      assert KeyOk(entries, pasts, clock, window as real, key);
      ghost var past := PastOf(pasts, key);
      var deque := if key in entries then entries[key] else [];
      var stamps: seq<real>;
      ghost var shed: nat;
      var effective := EffectiveLimit(limit, requests);
      outcome, stamps, shed := Decide(deque, effective, window as real, now, past.history, past.dropped, clock);
      AcceptedIffFewer(outcome, past.history, limit, requests, window as real, now);
      past := Past(AfterCall(past.history, window as real, Call(now, effective)), shed);
      StoreKeepsKeys(entries, pasts, clock, now, window as real, key, stamps, past);
      entries := entries[key := stamps];
      pasts := pasts[key := past];
      clock := now;
    }

    method Clear()
      requires Valid()
      modifies this
      ensures Valid() && clock == old(clock)
      ensures forall key :: History(key) == []
    {
      entries := map[];
      pasts := map[];
    }
  }

  /*** Whole runs ***/

  function AfterCalls(width: real, history: seq<real>, calls: seq<Call>): seq<real>
    decreases |calls|
  {
    if calls == [] then history else AfterCalls(width, AfterCall(history, width, calls[0]), calls[1..])
  }

  ghost predicate ClockForward(history: seq<real>, calls: seq<Call>) {
    && (forall i, j :: 0 <= i < |history| && 0 <= j < |calls| ==> history[i] <= calls[j].now)
    && (forall i, j :: 0 <= i < j < |calls| ==> calls[i].now <= calls[j].now)
  }

  lemma OneMoreCall(width: real, history: seq<real>, call: Call, most: int, end: real)
    requires width > 0.0 && call.limit <= most && CountIn(history, end - width, end) <= most
    requires forall i :: 0 <= i < |history| ==> history[i] <= call.now
    ensures CountIn(AfterCall(history, width, call), end - width, end) <= most
  {
    if CountIn(history, call.now - width, call.now) < call.limit {
      CountSnoc(history, call.now, end - width, end);
      if end - width < call.now <= end {
        CountWithin(history, end - width, end, call.now - width, call.now);
      }
    }
  }

  /** No window of the limiter's length, wherever it ends, ever holds more accepted calls of a key
      than the largest limit that key was checked against, if none did before. */
  lemma {:induction false} NoWindowExceeds(width: real, history: seq<real>, calls: seq<Call>, most: int, end: real)
    requires width > 0.0 && ClockForward(history, calls)
    requires forall i :: 0 <= i < |calls| ==> calls[i].limit <= most
    requires CountIn(history, end - width, end) <= most
    ensures CountIn(AfterCalls(width, history, calls), end - width, end) <= most
    decreases |calls|
  {
    if calls == [] {
    } else {
      OneMoreCall(width, history, calls[0], most, end);
      NoWindowExceeds(width, AfterCall(history, width, calls[0]), calls[1..], most, end);
    }
  }

  lemma {:induction false} AfterBoth(width: real, history: seq<real>, first: seq<Call>, later: seq<Call>)
    ensures AfterCalls(width, history, first + later) == AfterCalls(width, AfterCalls(width, history, first), later)
    decreases |first|
  {
    if first == [] {
      assert first + later == later;
    } else {
      assert (first + later)[1..] == first[1..] + later;
      AfterBoth(width, AfterCall(history, width, first[0]), first[1..], later);
    }
  }

  /** Rejected calls leave no trace: leaving one out changes nothing that follows. */
  lemma RejectedLeavesNoTrace(width: real, history: seq<real>, before: seq<Call>, rejected: Call, later: seq<Call>)
    requires AfterCall(AfterCalls(width, history, before), width, rejected) == AfterCalls(width, history, before)
    ensures AfterCalls(width, history, before + [rejected] + later) == AfterCalls(width, history, before + later)
  {
    AfterBoth(width, history, before + [rejected], later);
    AfterBoth(width, history, before, [rejected]);
    AfterBoth(width, history, before, later);
  }

  /** A caller who was told to wait, and whose key stays unused, is accepted after that wait under
      the same limit exactly when all but `limit - 1` of the calls in the window have left it. */
  lemma RetryAfterSufficesIff(history: seq<real>, width: real, now: real, limit: int, oldest: nat)
    requires width > 0.0 && limit > 0 && Sorted(history) && oldest < |history|
    requires OldestRecent(history, now - width, oldest) && history[|history| - 1] <= now
    requires |history| - oldest >= limit
    ensures var later := now + RetryAfter(width, now, history[oldest]) as real;
      CountIn(history, later - width, later) < limit <==> history[|history| - limit] <= later - width
  {
    var later := now + RetryAfter(width, now, history[oldest]) as real;
    var last := |history| - limit;
    if history[last] <= later - width {
      FewerWithout(history, last, later - width, later);
    } else {
      CountAtLeast(history, last, later - width, later);
    }
  }

  /** When the window holds just as many calls as the limit, as it does whenever the key is always
      checked against one limit, that means: the exact wait is at most a second or a whole number
      of seconds. Otherwise the truncation sends the caller back too early. */
  lemma RetryAtOneLimitSufficesIff(history: seq<real>, width: real, now: real, limit: int, oldest: nat)
    requires width > 0.0 && limit > 0 && Sorted(history) && oldest < |history|
    requires OldestRecent(history, now - width, oldest) && history[|history| - 1] <= now
    requires |history| - oldest == limit
    ensures var exact := width - (now - history[oldest]);
      var later := now + RetryAfter(width, now, history[oldest]) as real;
      (CountIn(history, later - width, later) < limit <==> exact <= 1.0 || exact == exact.Floor as real)
  {
    RetryAfterSufficesIff(history, width, now, limit, oldest);
  }

  /** All stamps from `first` on lie in the interval, so it holds at least that many. */
  lemma {:induction false} CountAtLeast(history: seq<real>, first: nat, low: real, high: real)
    requires first <= |history| && forall i :: first <= i < |history| ==> low < history[i] <= high
    ensures CountIn(history, low, high) >= |history| - first
    decreases |history|
  {
    if first == |history| {
    } else {
      CountAtLeast(history[..|history| - 1], first, low, high);
    }
  }

  /** Checked against one limit, a key never has more calls in its window than that limit, so a
      limited caller sees exactly the limit. */
  lemma OneLimitFillsWindow(width: real, calls: seq<Call>, limit: int, now: real)
    requires width > 0.0 && limit > 0 && ClockForward([], calls)
    requires forall i :: 0 <= i < |calls| ==> calls[i].limit == limit
    requires CountIn(AfterCalls(width, [], calls), now - width, now) >= limit
    ensures CountIn(AfterCalls(width, [], calls), now - width, now) == limit
  {
    NoWindowExceeds(width, [], calls, limit, now);
  }

  lemma {:induction false} FewerWithout(history: seq<real>, oldest: nat, low: real, high: real)
    requires oldest < |history| && forall i :: 0 <= i <= oldest ==> history[i] <= low
    ensures CountIn(history, low, high) < |history| - oldest
    decreases |history|
  {
    var init := history[..|history| - 1];
    if oldest == |history| - 1 {
      NoneAfter(init, low, high);
    } else {
      FewerWithout(init, oldest, low, high);
    }
  }

  lemma {:induction false} NoneAfter(history: seq<real>, low: real, high: real)
    requires forall i :: 0 <= i < |history| ==> history[i] <= low
    ensures CountIn(history, low, high) == 0
  {
    if history == [] {
    } else {
      NoneAfter(history[..|history| - 1], low, high);
    }
  }
}
