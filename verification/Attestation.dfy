/**
 Attestation checks and replay counters of app/hardware/opentitan/attestation.py. The signature and
 the digest of the canonical JSON of the evidence are functions of the evidence; timestamps come
 parsed. The checks read no shared state and each counter update is one lock section, so any
 interleaving of `verify` calls is a sequence of the steps below.
 */
module Attestation {
  import opened Wrappers
  import opened Bytes
  import opened Texts

  datatype Timestamp = Unparsable | NotUtc | Utc(seconds: real)

  datatype Clock = Naive | Aware(seconds: real)

  datatype Evidence = Evidence(
    deviceId: string,
    lifecycleState: string,
    romDigest: string,
    firmwareDigest: string,
    otpDigest: string,
    counter: int,
    nonce: string,
    signature: string,
    certificateChain: seq<string>,
    timestamp: Timestamp)

  datatype Config = Config(
    trustedFirmware: set<string>,
    allowedStates: set<string>,
    minimumCounter: int,
    minimumNonceBytes: int,
    maximumAge: real,
    maximumSkew: real,
    sign: Evidence -> string,
    digest: Evidence -> string)

  datatype Reason =
    | INVALID_DEVICE_ID
    | LIFECYCLE_STATE_NOT_ALLOWED
    | INVALID_ROM_DIGEST
    | INVALID_FIRMWARE_DIGEST
    | INVALID_OTP_DIGEST
    | UNTRUSTED_FIRMWARE
    | ROLLBACK_COUNTER
    | INVALID_ATTESTATION_NONCE
    | CERTIFICATE_CHAIN_UNVERIFIED
    | INVALID_TIMESTAMP
    | TIMESTAMP_NOT_UTC
    | ATTESTATION_FROM_FUTURE
    | STALE_ATTESTATION
    | INVALID_ATTESTATION_SIGNATURE
    | ATTESTATION_REPLAY_OR_ROLLBACK

  /*** Texts ***/

  predicate IsHex64(s: string) {
    |s| == 64 && IsLowerHex(s)
  }

  predicate NonceValid(cfg: Config, nonce: string) {
    var normalised := Lower(nonce);
    if |normalised| % 2 != 0 || normalised == "" || !IsLowerHex(normalised) then false
    else cfg.minimumNonceBytes <= |normalised| / 2 <= 64
  }

  /** A nonce is valid exactly when it spells, in either case, an allowed number of bytes. */
  lemma NonceSpellsBytes(cfg: Config, nonce: string)
    requires cfg.minimumNonceBytes >= 16
    ensures NonceValid(cfg, nonce) <==>
      exists b: bytes :: ToHex(b) == Lower(nonce) && cfg.minimumNonceBytes <= |b| <= 64
  {
    if NonceValid(cfg, nonce) {
      ToHexFromHex(Lower(nonce));
      assert ToHex(FromHex(Lower(nonce)).value) == Lower(nonce);
    }
    forall b: bytes | ToHex(b) == Lower(nonce) && cfg.minimumNonceBytes <= |b| <= 64 ensures NonceValid(cfg, nonce) {
      ToHexLower(b);
    }
  }

  /*** The checks ***/

  /** What each reason, apart from the replay one, means. */
  predicate Fails(cfg: Config, e: Evidence, now: real, reason: Reason) {
    match reason
    case INVALID_DEVICE_ID => !SafeIdentifier(e.deviceId)
    case LIFECYCLE_STATE_NOT_ALLOWED => Upper(e.lifecycleState) !in cfg.allowedStates
    case INVALID_ROM_DIGEST => !IsHex64(Lower(e.romDigest))
    case INVALID_FIRMWARE_DIGEST => !IsHex64(Lower(e.firmwareDigest))
    case INVALID_OTP_DIGEST => !IsHex64(Lower(e.otpDigest))
    case UNTRUSTED_FIRMWARE => Lower(e.firmwareDigest) !in cfg.trustedFirmware
    case ROLLBACK_COUNTER => e.counter < cfg.minimumCounter
    case INVALID_ATTESTATION_NONCE => !NonceValid(cfg, e.nonce)
    case CERTIFICATE_CHAIN_UNVERIFIED => e.certificateChain != []
    case INVALID_TIMESTAMP => e.timestamp.Unparsable?
    case TIMESTAMP_NOT_UTC => e.timestamp.NotUtc?
    case ATTESTATION_FROM_FUTURE => e.timestamp.Utc? && e.timestamp.seconds > now + cfg.maximumSkew
    case STALE_ATTESTATION =>
      e.timestamp.Utc? && e.timestamp.seconds <= now + cfg.maximumSkew && now - e.timestamp.seconds > cfg.maximumAge
    case INVALID_ATTESTATION_SIGNATURE =>
      !IsHex64(Lower(e.signature)) || cfg.sign(e.(signature := "")) != Lower(e.signature)
    case ATTESTATION_REPLAY_OR_ROLLBACK => false
  }

  predicate Sound(cfg: Config, e: Evidence, now: real) {
    forall reason :: !Fails(cfg, e, now, reason)
  }

  /** A clock without a time zone raises, but only once a UTC timestamp is compared with it. */
  predicate ClockRaises(e: Evidence, clock: Clock) {
    e.timestamp.Utc? && clock.Naive?
  }

  function Now(clock: Clock): real {
    if clock.Aware? then clock.seconds else 0.0
  }

  method TimestampReasons(cfg: Config, e: Evidence, clock: Clock) returns (r: Result<seq<Reason>>)
    ensures r.Err? <==> ClockRaises(e, clock)
    ensures r.Err? ==> r.error == IntegrationError
    ensures r.Ok? ==> forall reason :: reason in r.value <==>
      reason in {INVALID_TIMESTAMP, TIMESTAMP_NOT_UTC, ATTESTATION_FROM_FUTURE, STALE_ATTESTATION}
      && Fails(cfg, e, Now(clock), reason)
    ensures r.Ok? ==> |r.value| <= 1
  {
    if e.timestamp.Unparsable? {
      return Ok([INVALID_TIMESTAMP]);
    }
    if e.timestamp.NotUtc? {
      return Ok([TIMESTAMP_NOT_UTC]);
    }
    if clock.Naive? {
      return Err(IntegrationError);
    }
    if e.timestamp.seconds > clock.seconds + cfg.maximumSkew {
      return Ok([ATTESTATION_FROM_FUTURE]);
    }
    if clock.seconds - e.timestamp.seconds > cfg.maximumAge {
      return Ok([STALE_ATTESTATION]);
    }
    return Ok([]);
  }

  method DigestReasons(e: Evidence) returns (reasons: seq<Reason>)
    ensures forall reason :: reason in reasons <==>
      || (reason == INVALID_ROM_DIGEST && !IsHex64(Lower(e.romDigest)))
      || (reason == INVALID_FIRMWARE_DIGEST && !IsHex64(Lower(e.firmwareDigest)))
      || (reason == INVALID_OTP_DIGEST && !IsHex64(Lower(e.otpDigest)))
  {
    var digests := [
      (INVALID_ROM_DIGEST, e.romDigest),
      (INVALID_FIRMWARE_DIGEST, e.firmwareDigest),
      (INVALID_OTP_DIGEST, e.otpDigest)];
    reasons := [];
    for i := 0 to |digests|
      invariant forall reason :: reason in reasons <==>
        exists k :: 0 <= k < i && reason == digests[k].0 && !IsHex64(Lower(digests[k].1))
    {
      if !IsHex64(Lower(digests[i].1)) {
        reasons := reasons + [digests[i].0];
      }
    }
    assert digests[0].0 == INVALID_ROM_DIGEST && digests[1].0 == INVALID_FIRMWARE_DIGEST;
    assert digests[2].0 == INVALID_OTP_DIGEST;
  }

  /** The reasons of `verify` up to the firmware check. */
  method IdentityReasons(cfg: Config, e: Evidence) returns (reasons: seq<Reason>)
    ensures forall reason :: reason in reasons <==>
      reason in {INVALID_DEVICE_ID, LIFECYCLE_STATE_NOT_ALLOWED, INVALID_ROM_DIGEST, INVALID_FIRMWARE_DIGEST,
                 INVALID_OTP_DIGEST, UNTRUSTED_FIRMWARE}
      && Fails(cfg, e, 0.0, reason)
  {
    reasons := [];
    if !SafeIdentifier(e.deviceId) {
      reasons := reasons + [INVALID_DEVICE_ID];
    }
    if Upper(e.lifecycleState) !in cfg.allowedStates {
      reasons := reasons + [LIFECYCLE_STATE_NOT_ALLOWED];
    }
    var digestReasons := DigestReasons(e);
    reasons := reasons + digestReasons;
    if Lower(e.firmwareDigest) !in cfg.trustedFirmware {
      reasons := reasons + [UNTRUSTED_FIRMWARE];
    }
  }

  method Inspect(cfg: Config, e: Evidence, clock: Clock) returns (r: Result<seq<Reason>>)
    ensures r.Err? <==> ClockRaises(e, clock)
    ensures r.Err? ==> r.error == IntegrationError
    ensures r.Ok? ==> forall reason :: reason in r.value <==> Fails(cfg, e, Now(clock), reason)
  {
    var reasons := IdentityReasons(cfg, e);
    if e.counter < cfg.minimumCounter {
      reasons := reasons + [ROLLBACK_COUNTER];
    }
    if !NonceValid(cfg, e.nonce) {
      reasons := reasons + [INVALID_ATTESTATION_NONCE];
    }
    if e.certificateChain != [] {
      reasons := reasons + [CERTIFICATE_CHAIN_UNVERIFIED];
    }
    var times := TimestampReasons(cfg, e, clock);
    if times.Err? {
      return Err(times.error);
    }
    reasons := reasons + times.value;
    var signature := Lower(e.signature);
    if !IsHex64(signature) || cfg.sign(e.(signature := "")) != signature {
      reasons := reasons + [INVALID_ATTESTATION_SIGNATURE];
    }
    return Ok(reasons);
  }

  /*** The replay state ***/

  datatype Highest = Missing | Whole(counter: int) | Unreadable

  datatype Record = NotAnObject | Record(highest: Highest, lastDigest: string, updatedAt: real)

  datatype ReplayFile = ReplayFile(version: string, devices: Option<map<string, Record>>)

  /** The counters in memory, or the file that replaces them when a path is configured. */
  datatype Replay = InMemory(counters: map<string, int>) | InFile(file: Option<ReplayFile>)

  /** The highest counter accepted for a device so far; a damaged file raises instead. */
  function Previous(replay: Replay, device: string): (r: Result<int>)
    ensures r.Err? ==> replay.InFile? && replay.file.Some? && r.error == IntegrationError
  {
    match replay
    case InMemory(counters) => Ok(if device in counters then counters[device] else -1)
    case InFile(None) => Ok(-1)
    case InFile(Some(file)) =>
      if file.version != "1.0" || file.devices.None? then Err(IntegrationError)
      else if device !in file.devices.value then Ok(-1)
      else
        match file.devices.value[device]
        case NotAnObject => Err(IntegrationError)
        case Record(Missing, _, _) => Ok(-1)
        case Record(Whole(counter), _, _) => Ok(counter)
        case Record(Unreadable, _, _) => Err(IntegrationError)
  }

  function Stored(replay: Replay, device: string, counter: int, digest: string, now: real): Replay
    requires Previous(replay, device).Ok?
  {
    match replay
    case InMemory(counters) => InMemory(counters[device := counter])
    case InFile(file) =>
      var devices := if file.None? then map[] else file.value.devices.value;
      InFile(Some(ReplayFile("1.0", Some(devices[device := Record(Whole(counter), digest, now)]))))
  }

  function Consume(cfg: Config, replay: Replay, e: Evidence, now: real): Result<(bool, Replay)> {
    match Previous(replay, e.deviceId)
    case Err(error) => Err(error)
    case Ok(previous) =>
      if e.counter <= previous then Ok((false, replay))
      else Ok((true, Stored(replay, e.deviceId, e.counter, cfg.digest(e), now)))
  }

  /** `verify` as a function of the evidence, the clock and the replay state. */
  ghost function Judged(cfg: Config, replay: Replay, e: Evidence, clock: Clock): Result<(bool, Replay)> {
    if ClockRaises(e, clock) then Err(IntegrationError)
    else if !Sound(cfg, e, Now(clock)) then Ok((false, replay))
    else Consume(cfg, replay, e, Now(clock))
  }

  class OpenTitanAttestationVerifier {
    const cfg: Config
    var replay: Replay

    constructor (cfg: Config, persistent: bool, file: Option<ReplayFile>)
      ensures this.cfg == cfg && replay == if persistent then InFile(file) else InMemory(map[])
    {
      this.cfg := cfg;
      replay := if persistent then InFile(file) else InMemory(map[]);
    }

    method Verify(e: Evidence, clock: Clock) returns (r: Result<(bool, seq<Reason>)>)
      modifies this
      ensures match Judged(cfg, old(replay), e, clock)
              case Err(error) => r == Err(error) && replay == old(replay)
              case Ok((passed, after)) => r.Ok? && r.value.0 == passed && replay == after
      ensures r.Ok? ==> (r.value.0 <==> r.value.1 == [])
      ensures r.Ok? ==> forall reason :: reason in r.value.1 <==>
        || Fails(cfg, e, Now(clock), reason)
        || (reason == ATTESTATION_REPLAY_OR_ROLLBACK && Sound(cfg, e, Now(clock))
            && e.counter <= Previous(old(replay), e.deviceId).value)
    {
      var inspected := Inspect(cfg, e, clock);
      if inspected.Err? {
        return Err(inspected.error);
      }
      var reasons := inspected.value;
      if reasons == [] {
        assert Sound(cfg, e, Now(clock));
        var consumed := Consume(cfg, replay, e, Now(clock));
        if consumed.Err? {
          return Err(consumed.error);
        }
        if !consumed.value.0 {
          reasons := reasons + [ATTESTATION_REPLAY_OR_ROLLBACK];
        }
        replay := consumed.value.1;
      } else {
        assert reasons[0] in reasons;
      }
      return Ok((reasons == [], reasons));
    }
  }

  /*** Sequences of calls ***/

  datatype Call = Call(evidence: Evidence, clock: Clock)

  ghost function After(cfg: Config, replay: Replay, call: Call): (Replay, bool) {
    match Judged(cfg, replay, call.evidence, call.clock)
    case Err(_) => (replay, false)
    case Ok((passed, after)) => (after, passed)
  }

  /** The evidence accepted over a sequence of calls, in order. */
  ghost function Accepted(cfg: Config, replay: Replay, calls: seq<Call>): seq<Evidence>
    decreases |calls|
  {
    if calls == [] then []
    else
      var (after, passed) := After(cfg, replay, calls[0]);
      (if passed then [calls[0].evidence] else []) + Accepted(cfg, after, calls[1..])
  }

  /** One call touches the counter of its own device at most, and only upward. */
  lemma CounterStep(cfg: Config, replay: Replay, call: Call, device: string)
    requires Previous(replay, device).Ok?
    ensures var (after, passed) := After(cfg, replay, call);
      && Previous(after, device).Ok?
      && Previous(after, device).value >= Previous(replay, device).value
      && (!passed ==> after == replay)
      && (passed && call.evidence.deviceId == device ==>
            Previous(replay, device).value < call.evidence.counter == Previous(after, device).value)
      && (passed && call.evidence.deviceId != device ==> Previous(after, device) == Previous(replay, device))
  {
  }

  /** Evidence without fault of a device that no counter is stored for passes exactly with a counter
      that is not negative. */
  lemma FirstEvidence(cfg: Config, replay: Replay, e: Evidence, clock: Clock)
    requires replay in {InMemory(map[]), InFile(None)} && !ClockRaises(e, clock) && Sound(cfg, e, Now(clock))
    ensures After(cfg, replay, Call(e, clock)).1 <==> e.counter >= 0
  {
  }

  /** The file, or its record of the device, is not what this verifier writes. */
  predicate Damaged(file: ReplayFile, device: string) {
    || file.version != "1.0"
    || file.devices.None?
    || (device in file.devices.value
        && (file.devices.value[device].NotAnObject? || file.devices.value[device].highest.Unreadable?))
  }

  /** Sound evidence raises exactly for a damaged file; otherwise it is judged by its counter. */
  lemma DamagedFileRaises(cfg: Config, file: ReplayFile, e: Evidence, clock: Clock)
    requires !ClockRaises(e, clock) && Sound(cfg, e, Now(clock))
    ensures Judged(cfg, InFile(Some(file)), e, clock) == Err(IntegrationError) <==> Damaged(file, e.deviceId)
    ensures Judged(cfg, InFile(Some(file)), e, clock).Ok? <==> !Damaged(file, e.deviceId)
  {
  }

  /** What the replay file holds about a device. */
  predicate Holds(replay: Replay, device: string, rec: Record) {
    && replay.InFile? && replay.file.Some? && replay.file.value.version == "1.0"
    && replay.file.value.devices.Some? && device in replay.file.value.devices.value
    && replay.file.value.devices.value[device] == rec
  }

  /** Accepted evidence leaves its counter, its digest and the time in the file, and every other
      device's record as it was. */
  lemma AcceptedIsFiled(cfg: Config, replay: Replay, call: Call, device: string, rec: Record)
    requires replay.InFile? && After(cfg, replay, call).1
    ensures var (after, e) := (After(cfg, replay, call).0, call.evidence);
      if device == e.deviceId then Holds(after, device, Record(Whole(e.counter), cfg.digest(e), Now(call.clock)))
      else Holds(after, device, rec) <==> Holds(replay, device, rec)
  {
  }

  lemma DamagedStays(cfg: Config, replay: Replay, call: Call, device: string)
    requires Previous(replay, device).Err?
    ensures Previous(After(cfg, replay, call).0, device).Err?
    ensures call.evidence.deviceId == device ==> !After(cfg, replay, call).1
  {
  }

  /** Everything accepted later for a device has a counter above the one stored now. */
  lemma {:induction false} AcceptedAbove(cfg: Config, replay: Replay, calls: seq<Call>, i: nat)
    requires i < |Accepted(cfg, replay, calls)|
    ensures var device := Accepted(cfg, replay, calls)[i].deviceId;
      Previous(replay, device).Ok? && Accepted(cfg, replay, calls)[i].counter > Previous(replay, device).value
    decreases |calls|
  {
    var (after, passed) := After(cfg, replay, calls[0]);
    var device := Accepted(cfg, replay, calls)[i].deviceId;
    if Previous(replay, device).Ok? {
      CounterStep(cfg, replay, calls[0], device);
    } else {
      DamagedStays(cfg, replay, calls[0], device);
    }
    if !passed || i > 0 {
      AcceptedAbove(cfg, after, calls[1..], if passed then i - 1 else i);
    }
  }

  /** The counters accepted for a device strictly increase, over any sequence of calls and from any
      replay state. */
  lemma {:induction false} CountersIncrease(cfg: Config, replay: Replay, calls: seq<Call>, i: nat, j: nat)
    requires i < j < |Accepted(cfg, replay, calls)|
    requires Accepted(cfg, replay, calls)[i].deviceId == Accepted(cfg, replay, calls)[j].deviceId
    ensures Accepted(cfg, replay, calls)[i].counter < Accepted(cfg, replay, calls)[j].counter
    decreases |calls|
  {
    var (after, passed) := After(cfg, replay, calls[0]);
    if passed && i == 0 {
      AcceptedAbove(cfg, after, calls[1..], j - 1);
      CounterStep(cfg, replay, calls[0], calls[0].evidence.deviceId);
    } else {
      var back := if passed then 1 else 0;
      CountersIncrease(cfg, after, calls[1..], i - back, j - back);
    }
  }

  lemma NoEvidenceTwice(cfg: Config, replay: Replay, calls: seq<Call>, i: nat, j: nat)
    requires i < j < |Accepted(cfg, replay, calls)|
    ensures Accepted(cfg, replay, calls)[i] != Accepted(cfg, replay, calls)[j]
  {
    if Accepted(cfg, replay, calls)[i] == Accepted(cfg, replay, calls)[j] {
      CountersIncrease(cfg, replay, calls, i, j);
    }
  }

  /** Two replay states that know the same counters. */
  ghost predicate Agree(a: Replay, b: Replay) {
    forall device :: Previous(a, device).Ok? && Previous(a, device) == Previous(b, device)
  }

  lemma AgreeStep(cfg: Config, a: Replay, b: Replay, call: Call)
    requires Agree(a, b)
    ensures After(cfg, a, call).1 == After(cfg, b, call).1 && Agree(After(cfg, a, call).0, After(cfg, b, call).0)
  {
    assert Previous(a, call.evidence.deviceId) == Previous(b, call.evidence.deviceId);
    forall device
      ensures Previous(After(cfg, a, call).0, device).Ok?
      ensures Previous(After(cfg, a, call).0, device) == Previous(After(cfg, b, call).0, device)
    {
      assert Previous(a, device) == Previous(b, device);
      CounterStep(cfg, a, call, device);
      CounterStep(cfg, b, call, device);
    }
  }

  lemma {:induction false} AgreeingAcceptSame(cfg: Config, a: Replay, b: Replay, calls: seq<Call>)
    requires Agree(a, b)
    ensures Accepted(cfg, a, calls) == Accepted(cfg, b, calls)
    decreases |calls|
  {
    if calls == [] {
    } else {
      AgreeStep(cfg, a, b, calls[0]);
      AgreeingAcceptSame(cfg, After(cfg, a, calls[0]).0, After(cfg, b, calls[0]).0, calls[1..]);
    }
  }

  /** A verifier that starts without a replay file accepts the same calls as one in memory. */
  lemma FileAcceptsWhatMemoryAccepts(cfg: Config, calls: seq<Call>)
    ensures Accepted(cfg, InMemory(map[]), calls) == Accepted(cfg, InFile(None), calls)
  {
    AgreeingAcceptSame(cfg, InMemory(map[]), InFile(None), calls);
  }
}
