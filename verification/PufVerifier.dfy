/**
 Enrollment of one challenge and authentication of one response, as
 app/hardware/puf/verifier.py does them. The entropy of the stable bits, the noise distance and the
 environment penalty are logarithms and square roots, so they are inputs here; so are the nonce
 and the verdicts of the signature checks that precede the template look-up.
 */
module PufVerifier {
  import opened Wrappers
  import opened Numbers
  import opened Bytes
  import opened PufCrypto
  import opened Stability

  datatype Policy = Policy(
    minimumBitReliability: real,
    minimumStableRatio: real,
    maximumHammingRatio: real,
    minimumResponseReliability: real,
    maximumNoiseDistance: real,
    maximumEnvironmentPenalty: real)

  datatype ResponseFields = ResponseFields(
    challengeId: string,
    challengeDigest: string,
    stimulusDigest: string,
    bits: string,
    reliability: seq<real>)

  /** A response that its own constructor accepted. */
  type Response = r: ResponseFields | IsBinary(r.bits) && |r.reliability| == |r.bits|
    witness ResponseFields("", "", "", "", [])

  datatype Challenge = Challenge(id: string, stimulusDigest: string, digest: string)

  datatype Template = Template(
    challengeId: string,
    stimulusDigest: string,
    sealedHex: string,
    tagHex: string,
    mask: string,
    stableBits: nat,
    minimumReliability: real,
    maximumHammingRatio: real,
    commitment: string)

  /*** Sealing the reference ***/

  function Commitment(mac: Mac, key: bytes, context: bytes, packed: bytes, mask: string): string {
    ToHex(mac(key, Ascii("puf-reference-commitment") + context + packed + Ascii(mask)))
  }

  function SealTemplate(mac: Mac, key: bytes, nonce: bytes, challenge: Challenge, context: bytes, packed: bytes,
                        mask: string, policy: Policy): Template
    requires |nonce| == 16
  {
    var (sealed, tag) := SealBytes(mac, key, nonce, packed, context);
    Template(challenge.id, challenge.stimulusDigest, sealed, tag, mask, Selected(mask, |mask|),
             policy.minimumResponseReliability, policy.maximumHammingRatio,
             Commitment(mac, key, context, packed, mask))
  }

  /** Unsealing, unpacking and the commitment check of `authenticate`, for responses of one width. */
  function OpenTemplate(mac: Mac, key: bytes, template: Template, context: bytes, width: nat): (r: Result<string>)
    ensures r.Ok? ==> |r.value| == width
  {
    match UnsealBytes(mac, key, template.sealedHex, template.tagHex, context)
    case Err(e) => Err(e)
    case Ok(plaintext) =>
      match BytesToBits(plaintext)
      case Err(e) => Err(e)
      case Ok(reference) =>
        if |reference| != width then Err(IntegrityError)
        else
          match BitsToBytes(reference)
          case Err(e) => Err(e)
          case Ok(packed) =>
            if Commitment(mac, key, context, packed, template.mask) != template.commitment then Err(IntegrityError)
            else Ok(reference)
  }

  /** A template opens to the reference that was sealed in it, for every key, nonce and stimulus. */
  lemma SealedTemplateOpens(mac: Mac, key: bytes, nonce: bytes, challenge: Challenge, context: bytes,
                            reference: string, mask: string, policy: Policy)
    requires |nonce| == 16 && IsBinary(reference) && |reference| < 0x1_0000_0000
    ensures var packed := BitsToBytes(reference).value;
      var template := SealTemplate(mac, key, nonce, challenge, context, packed, mask, policy);
      OpenTemplate(mac, key, template, context, |reference|) == Ok(reference)
  {
    PackedBitsUnpack(reference);
    SealedBytesUnseal(mac, key, nonce, BitsToBytes(reference).value, context);
  }

  lemma AsciiInjective(a: string, b: string)
    requires IsBinary(a) && IsBinary(b) && Ascii(a) == Ascii(b)
    ensures a == b
  {
    forall i | 0 <= i < |a| ensures a[i] == b[i] {
      assert Ascii(a)[i] == Ascii(b)[i];
    }
  }

  /** The packed reference carries its own length, so what follows it can be told apart. */
  lemma PackedThenMask(a: string, b: string, maskA: string, maskB: string)
    requires IsBinary(a) && |a| < 0x1_0000_0000 && IsBinary(b) && |b| < 0x1_0000_0000
    requires IsBinary(maskA) && IsBinary(maskB)
    requires BitsToBytes(a).value + Ascii(maskA) == BitsToBytes(b).value + Ascii(maskB)
    ensures a == b && maskA == maskB
  {
    var p, q := BitsToBytes(a).value, BitsToBytes(b).value;
    var joined := p + Ascii(maskA);
    assert Pow256(4) == 0x1_0000_0000;
    assert joined[..4] == BigEndian(|a|, 4) && joined[..4] == BigEndian(|b|, 4);
    BigEndianValue(|a|, 4);
    BigEndianValue(|b|, 4);
    assert |p| == |q|;
    assert p == joined[..|p|] && q == joined[..|p|];
    PackedBitsUnpack(a);
    PackedBitsUnpack(b);
    assert Ascii(maskA) == joined[|p|..] && Ascii(maskB) == joined[|p|..];
    AsciiInjective(maskA, maskB);
  }

  lemma SameParts(prefix: bytes, a: bytes, b: bytes, restA: bytes, restB: bytes)
    requires |a| == |b| && prefix + a + restA == prefix + b + restB
    ensures a == b && restA == restB
  {
    var joined, from, to := prefix + a + restA, |prefix|, |prefix| + |a|;
    assert a == joined[from..to] && b == (prefix + b + restB)[from..to];
    assert restA == joined[to..] && restB == (prefix + b + restB)[to..];
  }

  /** Equal commitments under one key mean the same stimulus, reference and mask, or two messages
      with the same authentication tag. */
  lemma CommitmentBinds(mac: Mac, key: bytes, contextA: bytes, contextB: bytes, a: string, b: string,
                        maskA: string, maskB: string)
    returns (messages: (bytes, bytes))
    requires |contextA| == |contextB|
    requires IsBinary(a) && |a| < 0x1_0000_0000 && IsBinary(b) && |b| < 0x1_0000_0000
    requires IsBinary(maskA) && IsBinary(maskB)
    requires Commitment(mac, key, contextA, BitsToBytes(a).value, maskA)
      == Commitment(mac, key, contextB, BitsToBytes(b).value, maskB)
    ensures (contextA == contextB && a == b && maskA == maskB)
      || TagsCollide(mac, key, messages)
  {
    var prefix := Ascii("puf-reference-commitment");
    var p, q := BitsToBytes(a).value, BitsToBytes(b).value;
    messages := (prefix + contextA + p + Ascii(maskA), prefix + contextB + q + Ascii(maskB));
    assert messages.0 == prefix + contextA + (p + Ascii(maskA));
    assert messages.1 == prefix + contextB + (q + Ascii(maskB));
    ToHexInjective(mac(key, messages.0), mac(key, messages.1));
    if messages.0 == messages.1 {
      SameParts(prefix, contextA, contextB, p + Ascii(maskA), q + Ascii(maskB));
      PackedThenMask(a, b, maskA, maskB);
    }
  }

  lemma OpenedIsCommitted(mac: Mac, key: bytes, template: Template, context: bytes, width: nat)
    requires OpenTemplate(mac, key, template, context, width).Ok?
    ensures var reference := OpenTemplate(mac, key, template, context, width).value;
      && BitsToBytes(reference).Ok? && IsBinary(reference) && |reference| < 0x1_0000_0000
      && template.commitment == Commitment(mac, key, context, BitsToBytes(reference).value, template.mask)
  {
  }

  /** A template with another mask in it does not open any more, or two messages share a tag. */
  lemma MaskIsBound(mac: Mac, key: bytes, template: Template, mask: string, context: bytes, width: nat)
    returns (messages: (bytes, bytes))
    requires IsBinary(template.mask) && IsBinary(mask)
    requires OpenTemplate(mac, key, template, context, width).Ok?
    requires OpenTemplate(mac, key, template.(mask := mask), context, width).Ok?
    ensures mask == template.mask || TagsCollide(mac, key, messages)
  {
    var reference := OpenTemplate(mac, key, template, context, width).value;
    OpenedIsCommitted(mac, key, template, context, width);
    OpenedIsCommitted(mac, key, template.(mask := mask), context, width);
    messages := CommitmentBinds(mac, key, context, context, reference, reference, template.mask, mask);
  }

  /** A commitment that is also a seal tag, or a keystream block, under the same key is the tag of two
      messages. */
  lemma CommitmentIsNoSeal(mac: Mac, key: bytes, context: bytes, packed: bytes, mask: string, other: bytes,
                           envelope: bytes, i: nat)
    returns (messages: (bytes, bytes))
    requires Commitment(mac, key, context, packed, mask)
      in {ToHex(Tag(mac, key, other, envelope)), ToHex(KeystreamBlocks(mac, key, other)(i))}
    ensures TagsCollide(mac, key, messages)
  {
    var prefix, rest := Ascii("puf-reference-commitment"), context + packed + Ascii(mask);
    var message := prefix + context + packed + Ascii(mask);
    assert message == prefix + rest;
    if Commitment(mac, key, context, packed, mask) == ToHex(Tag(mac, key, other, envelope)) {
      ToHexInjective(mac(key, message), Tag(mac, key, other, envelope));
      messages := (message, Ascii("puf-template-tag") + other + envelope);
      assert messages.1 == Ascii("puf-template-tag") + (other + envelope);
      LabelsDiffer(prefix, Ascii("puf-template-tag"), 4, rest, other + envelope);
    } else {
      ToHexInjective(mac(key, message), KeystreamBlocks(mac, key, other)(i));
      messages := (message, Ascii("puf-template-stream") + other + BigEndian(i, 8));
      assert messages.1 == Ascii("puf-template-stream") + (other + BigEndian(i, 8));
      LabelsDiffer(prefix, Ascii("puf-template-stream"), 4, rest, other + BigEndian(i, 8));
    }
  }

  /*** Enrollment ***/

  function BitsOf(responses: seq<Response>): (samples: seq<string>)
    ensures |samples| == |responses|
  {
    seq(|responses|, i requires 0 <= i < |responses| => responses[i].bits)
  }

  /** Bit `j` meets the minimum in the vote across corners and within every corner. */
  predicate ReliableEverywhere(responses: seq<Response>, j: nat, minimum: real)
    requires Votable(BitsOf(responses)) && j < |BitsOf(responses)[0]|
  {
    && ReliabilityAt(BitsOf(responses), j) >= minimum
    && forall i :: 0 <= i < |responses| ==> j < |responses[i].reliability| && responses[i].reliability[j] >= minimum
  }

  /** The majority response of the corners. */
  function Reference(responses: seq<Response>): (reference: string)
    requires Votable(BitsOf(responses))
    ensures IsVote(BitsOf(responses), reference) && IsBinary(reference)
  {
    var samples := BitsOf(responses);
    seq(|samples[0]|, j requires 0 <= j < |samples[0]| && SameWidth(samples, |samples[0]|) => VoteAt(samples, j))
  }

  /** Selects the bits that are reliable everywhere. */
  function StableMask(responses: seq<Response>, minimum: real): (mask: string)
    requires Votable(BitsOf(responses))
    ensures |mask| == |Reference(responses)| && IsBinary(mask)
    ensures forall j :: 0 <= j < |mask| ==> (mask[j] == '1' <==> ReliableEverywhere(responses, j, minimum))
  {
    var samples := BitsOf(responses);
    seq(|samples[0]|, j requires 0 <= j < |samples[0]| && Votable(samples) =>
      if ReliableEverywhere(responses, j, minimum) then '1' else '0')
  }

  /** The bits of `reference` that `mask` selects, in order. */
  function StableBits(reference: string, mask: string): string
    requires |reference| == |mask|
  {
    if mask == "" then ""
    else (if mask[0] == '1' then [reference[0]] else "") + StableBits(reference[1..], mask[1..])
  }

  lemma {:induction false} SelectedCons(bit: char, mask: string, n: nat)
    requires n <= |mask|
    ensures Selected([bit] + mask, n + 1) == (if bit == '1' then 1 else 0) + Selected(mask, n)
  {
    if n == 0 {
      assert Selected([bit] + mask, 0) == 0;
    } else {
      SelectedCons(bit, mask, n - 1);
    }
  }

  /** Of every selected position the bit is kept, behind those selected before it, and nothing else is. */
  lemma {:induction false} StableBitsAt(reference: string, mask: string, j: nat)
    requires |reference| == |mask| && j < |mask|
    ensures |StableBits(reference, mask)| == Selected(mask, |mask|)
    ensures mask[j] == '1' ==>
      Selected(mask, j) < Selected(mask, |mask|) && StableBits(reference, mask)[Selected(mask, j)] == reference[j]
    decreases |mask|
  {
    var rest := mask[1..];
    assert mask == [mask[0]] + rest;
    SelectedCons(mask[0], rest, |rest|);
    if j > 0 {
      SelectedCons(mask[0], rest, j - 1);
      StableBitsAt(reference[1..], rest, j - 1);
    } else if rest != "" {
      StableBitsAt(reference[1..], rest, 0);
    }
  }

  /** The conditions under which a challenge of a device is enrolled. */
  predicate Enrollable(challenge: Challenge, responses: seq<Response>, policy: Policy, entropy: string -> real) {
    && Votable(BitsOf(responses))
    && 0.5 <= policy.minimumBitReliability <= 1.0
    && StableEnough(Reference(responses), StableMask(responses, policy.minimumBitReliability), policy, entropy)
    && FromHex(challenge.stimulusDigest).Some?
    && |Reference(responses)| < 0x1_0000_0000
  }

  predicate StableEnough(reference: string, mask: string, policy: Policy, entropy: string -> real)
    requires |mask| == |reference| > 0
  {
    && Selected(mask, |mask|) as real / |mask| as real >= policy.minimumStableRatio
    && entropy(StableBits(reference, mask)) >= 0.35
  }

  /** The least of a first value and the reliabilities the first `n` corners give bit `j`. */
  function Least(first: real, responses: seq<Response>, j: nat, n: nat): real
    requires n <= |responses| && forall i :: 0 <= i < n ==> j < |responses[i].reliability|
  {
    if n == 0 then first else MinReal(Least(first, responses, j, n - 1), responses[n - 1].reliability[j])
  }

  lemma {:induction false} LeastMeets(first: real, responses: seq<Response>, j: nat, n: nat, minimum: real)
    requires n <= |responses| && forall i :: 0 <= i < n ==> j < |responses[i].reliability|
    ensures Least(first, responses, j, n) >= minimum
      <==> first >= minimum && forall i :: 0 <= i < n ==> responses[i].reliability[j] >= minimum
  {
    if n == 0 {
    } else {
      LeastMeets(first, responses, j, n - 1, minimum);
    }
  }

  method CombineReliability(responses: seq<Response>, cross: seq<real>) returns (combined: seq<real>)
    requires forall i :: 0 <= i < |responses| ==> |responses[i].reliability| == |cross|
    ensures |combined| == |cross|
    ensures forall j :: 0 <= j < |cross| ==> combined[j] == Least(cross[j], responses, j, |responses|)
  {
    combined := [];
    for index := 0 to |cross|
      invariant |combined| == index
      invariant forall j :: 0 <= j < index ==> combined[j] == Least(cross[j], responses, j, |responses|)
    {
      var least := cross[index];
      for i := 0 to |responses|
        invariant least == Least(cross[index], responses, index, i)
      {
        least := MinReal(least, responses[i].reliability[index]);
      }
      combined := combined + [least];
    }
  }

  lemma CombinedIsReliable(responses: seq<Response>, j: nat, minimum: real)
    requires Votable(BitsOf(responses)) && j < |Reference(responses)|
    requires forall i :: 0 <= i < |responses| ==> j < |responses[i].reliability|
    ensures Least(ReliabilityAt(BitsOf(responses), j), responses, j, |responses|) >= minimum
      <==> ReliableEverywhere(responses, j, minimum)
  {
    LeastMeets(ReliabilityAt(BitsOf(responses), j), responses, j, |responses|, minimum);
  }

  lemma ReliabilityWidths(responses: seq<Response>)
    requires Votable(BitsOf(responses))
    ensures forall i :: 0 <= i < |responses| ==> |responses[i].reliability| == |Reference(responses)|
  {
    var samples := BitsOf(responses);
    forall i | 0 <= i < |responses| ensures |responses[i].reliability| == |Reference(responses)| {
      assert samples[i] == responses[i].bits;
    }
  }

  /** The reference response and its mask. */
  method SelectStable(responses: seq<Response>, minimum: real) returns (r: Result<(string, string)>)
    ensures r.Err? ==> r.error == ValueError
    ensures r.Ok? <==> Votable(BitsOf(responses)) && 0.5 <= minimum <= 1.0
    ensures r.Ok? ==> r.value == (Reference(responses), StableMask(responses, minimum))
  {
    var vote := MajorityVote(BitsOf(responses));
    if vote.Err? {
      return Err(vote.error);
    }
    var (reference, cross) := vote.value;
    assert reference == Reference(responses);
    ReliabilityWidths(responses);
    var combined := CombineReliability(responses, cross);
    var selection := ReliabilityMask(combined, minimum);
    if selection.Err? {
      return Err(selection.error);
    }
    var mask := selection.value;
    forall j | 0 <= j < |mask| ensures mask[j] == StableMask(responses, minimum)[j] {
      CombinedIsReliable(responses, j, minimum);
    }
    assert mask == StableMask(responses, minimum);
    return Ok((reference, mask));
  }

  /** The template of an enrollable challenge. */
  function EnrolledTemplate(mac: Mac, key: bytes, nonce: bytes, challenge: Challenge, responses: seq<Response>,
                            policy: Policy): Template
    requires |nonce| == 16 && Votable(BitsOf(responses)) && FromHex(challenge.stimulusDigest).Some?
    requires |Reference(responses)| < 0x1_0000_0000
  {
    SealTemplate(mac, key, nonce, challenge, FromHex(challenge.stimulusDigest).value,
                 BitsToBytes(Reference(responses)).value, StableMask(responses, policy.minimumBitReliability), policy)
  }

  /** The template is for this challenge, carries the policy's thresholds, selects the stable bits and opens to
      the majority response. */
  predicate EnrolledFor(mac: Mac, key: bytes, t: Template, challenge: Challenge, responses: seq<Response>,
                        policy: Policy)
    requires Votable(BitsOf(responses)) && FromHex(challenge.stimulusDigest).Some?
  {
    && t.challengeId == challenge.id
    && t.stimulusDigest == challenge.stimulusDigest
    && t.mask == StableMask(responses, policy.minimumBitReliability)
    && t.stableBits == Selected(t.mask, |t.mask|)
    && t.minimumReliability == policy.minimumResponseReliability
    && t.maximumHammingRatio == policy.maximumHammingRatio
    && OpenTemplate(mac, key, t, FromHex(challenge.stimulusDigest).value, |Reference(responses)|)
       == Ok(Reference(responses))
  }

  method EnrollChallenge(mac: Mac, key: bytes, nonce: bytes, challenge: Challenge, responses: seq<Response>,
                         policy: Policy,
                         entropy: string -> real) returns (r: Result<Template>)
    requires |nonce| == 16
    ensures r.Ok? <==> Enrollable(challenge, responses, policy, entropy)
    ensures r.Ok? ==> r.value == EnrolledTemplate(mac, key, nonce, challenge, responses, policy)
    ensures r.Ok? ==> EnrolledFor(mac, key, r.value, challenge, responses, policy)
    ensures r == Err(EnrollmentError) ==> Votable(BitsOf(responses))
    ensures r == Err(EnrollmentError) ==>
      !StableEnough(Reference(responses), StableMask(responses, policy.minimumBitReliability), policy, entropy)
  {
    var selection := SelectStable(responses, policy.minimumBitReliability);
    if selection.Err? {
      return Err(selection.error);
    }
    var (reference, mask) := selection.value;
    if Selected(mask, |mask|) as real / |mask| as real < policy.minimumStableRatio {
      return Err(EnrollmentError);
    }
    if entropy(StableBits(reference, mask)) < 0.35 {
      return Err(EnrollmentError);
    }
    var context := FromHex(challenge.stimulusDigest);
    if context.None? {
      return Err(ValueError);
    }
    var packed := BitsToBytes(reference);
    if packed.Err? {
      return Err(packed.error);
    }
    EnrolledTemplateFits(mac, key, nonce, challenge, responses, policy);
    return Ok(SealTemplate(mac, key, nonce, challenge, context.value, packed.value, mask, policy));
  }

  lemma EnrolledTemplateFits(mac: Mac, key: bytes, nonce: bytes, challenge: Challenge, responses: seq<Response>,
                             policy: Policy)
    requires |nonce| == 16 && Votable(BitsOf(responses)) && FromHex(challenge.stimulusDigest).Some?
    requires |Reference(responses)| < 0x1_0000_0000
    ensures EnrolledFor(mac, key, EnrolledTemplate(mac, key, nonce, challenge, responses, policy), challenge,
                        responses, policy)
  {
    SealedTemplateOpens(mac, key, nonce, challenge, FromHex(challenge.stimulusDigest).value, Reference(responses),
                        StableMask(responses, policy.minimumBitReliability), policy);
  }

  /** Everything an accepted enrollment promises for later authentications of that challenge. */
  lemma EnrollmentGuarantees(mac: Mac, key: bytes, nonce: bytes, challenge: Challenge, responses: seq<Response>,
                             policy: Policy, entropy: string -> real)
    requires |nonce| == 16 && Enrollable(challenge, responses, policy, entropy)
    ensures var template := EnrolledTemplate(mac, key, nonce, challenge, responses, policy);
      && EnrolledFor(mac, key, template, challenge, responses, policy)
      && TotalDistance(BitsOf(responses), Reference(responses), template.mask, |template.mask|) as real
         <= Times(Times(1.0 - policy.minimumBitReliability, |responses|), template.stableBits)
  {
    EnrolledTemplateFits(mac, key, nonce, challenge, responses, policy);
    StableMaskBoundsDistance(responses, policy.minimumBitReliability);
  }

  lemma StableMaskBoundsDistance(responses: seq<Response>, minimum: real)
    requires Votable(BitsOf(responses))
    ensures var mask := StableMask(responses, minimum);
      TotalDistance(BitsOf(responses), Reference(responses), mask, |mask|) as real
        <= Times(Times(1.0 - minimum, |responses|), Selected(mask, |mask|))
  {
    ReliableBitsBoundDistance(BitsOf(responses), Reference(responses), StableMask(responses, minimum), minimum);
  }

  /*** The envelope ***/

  /** The verdicts of the checks on signatures, digests and expiry. */
  datatype Checks = Checks(profileSigned: bool, sameConfiguration: bool, challengeValid: bool, responseSealed: bool)

  predicate EnvelopeAccepted(checks: Checks, templates: seq<Template>, challenge: Challenge, response: Response,
                             k: nat) {
    && checks == Checks(true, true, true, true)
    && response.challengeId == challenge.id
    && response.challengeDigest == challenge.digest
    && response.stimulusDigest == challenge.stimulusDigest
    && k < |templates|
    && templates[k].stimulusDigest == challenge.stimulusDigest
    && templates[k].challengeId == challenge.id
    && forall i :: 0 <= i < k ==> templates[i].stimulusDigest != challenge.stimulusDigest
  }

  method ValidateEnvelope(checks: Checks, templates: seq<Template>, challenge: Challenge, response: Response)
    returns (r: Result<Template>)
    ensures r.Err? ==> r.error == IntegrityError
    ensures r.Ok? <==> exists k: nat :: EnvelopeAccepted(checks, templates, challenge, response, k)
    ensures r.Ok? ==>
      exists k: nat :: EnvelopeAccepted(checks, templates, challenge, response, k) && r.value == templates[k]
  {
    if !checks.profileSigned || !checks.sameConfiguration || !checks.challengeValid || !checks.responseSealed {
      return Err(IntegrityError);
    }
    if response.challengeId != challenge.id || response.challengeDigest != challenge.digest
       || response.stimulusDigest != challenge.stimulusDigest {
      return Err(IntegrityError);
    }
    for k := 0 to |templates|
      invariant forall i :: 0 <= i < k ==> templates[i].stimulusDigest != challenge.stimulusDigest
    {
      if templates[k].stimulusDigest == challenge.stimulusDigest {
        if templates[k].challengeId != challenge.id {
          return Err(IntegrityError);
        }
        assert EnvelopeAccepted(checks, templates, challenge, response, k);
        return Ok(templates[k]);
      }
    }
    return Err(IntegrityError);
  }

  /*** Authentication ***/

  /** What the sensors say about one response. */
  datatype Measured = Measured(supported: bool, penalty: real, noise: Result<real>)

  datatype Status = AUTHENTICATED | REJECTED_POSSIBLE_CLONE | REJECTED_ENVIRONMENT | REJECTED_UNSTABLE

  datatype Reason = UNSUPPORTED_ENVIRONMENT | EXCESSIVE_ENVIRONMENT_DRIFT | LOW_RESPONSE_RELIABILITY
    | RESPONSE_MISMATCH | NOISE_SIGNATURE_MISMATCH

  datatype Verdict = Verdict(accepted: bool, status: Status, distance: nat, comparedBits: nat, ratio: real,
                             reliability: real, likelihood: real, reasons: seq<Reason>)

  function MaskedSum(values: seq<real>, mask: string, n: nat): real
    requires n <= |mask| == |values|
  {
    if n == 0 then 0.0 else MaskedSum(values, mask, n - 1) + (if mask[n - 1] == '1' then values[n - 1] else 0.0)
  }

  /** Each selected value counts once: exchanging one changes the sum by the difference, if it is selected. */
  lemma {:induction false} MaskedSumCounts(values: seq<real>, mask: string, n: nat, j: nat, x: real)
    requires n <= |mask| == |values| && j < n
    ensures MaskedSum(values[j := x], mask, n)
      == MaskedSum(values, mask, n) + (if mask[j] == '1' then x - values[j] else 0.0)
  {
    if j == n - 1 {
      MaskedSumPrefix(values, values[j := x], mask, n - 1);
    } else {
      MaskedSumCounts(values, mask, n - 1, j, x);
    }
  }

  lemma {:induction false} MaskedSumPrefix(a: seq<real>, b: seq<real>, mask: string, n: nat)
    requires n <= |mask| == |a| == |b| && a[..n] == b[..n]
    ensures MaskedSum(a, mask, n) == MaskedSum(b, mask, n)
  {
    if n == 0 {
    } else {
      assert a[..n][..n - 1] == a[..n - 1] && b[..n][..n - 1] == b[..n - 1];
      assert a[..n][n - 1] == b[..n][n - 1];
      MaskedSumPrefix(a, b, mask, n - 1);
    }
  }

  /** Values that are all the same have that value as their average. */
  lemma {:induction false} MaskedSumOfSame(values: seq<real>, mask: string, n: nat, x: real)
    requires n <= |mask| == |values| && forall i :: 0 <= i < n ==> values[i] == x
    ensures MaskedSum(values, mask, n) == Selected(mask, n) as real * x
  {
    if n == 0 {
    } else {
      MaskedSumOfSame(values, mask, n - 1, x);
    }
  }

  predicate Matches(reference: string, template: Template, response: Response)
    requires MaskedHammingDistance(reference, response.bits, template.mask).Ok?
  {
    MaskedHammingDistance(reference, response.bits, template.mask).value.2 <= template.maximumHammingRatio
  }

  predicate Steady(template: Template, response: Response)
    requires |template.mask| == |response.bits| && Selected(template.mask, |template.mask|) > 0
  {
    var selected := Selected(template.mask, |template.mask|);
    MaskedSum(response.reliability, template.mask, |template.mask|) / selected as real >= template.minimumReliability
  }

  /** The template opens for this response, and every quantity of the verdict is defined. */
  predicate Answerable(mac: Mac, key: bytes, template: Template, challenge: Challenge, response: Response,
                       measured: Measured) {
    && FromHex(challenge.stimulusDigest).Some?
    && OpenTemplate(mac, key, template, FromHex(challenge.stimulusDigest).value, |response.bits|).Ok?
    && |template.mask| == |response.bits|
    && Selected(template.mask, |template.mask|) > 0
    && measured.noise.Ok?
  }

  predicate PossibleClone(reference: string, template: Template, response: Response, policy: Policy, noise: real)
    requires MaskedHammingDistance(reference, response.bits, template.mask).Ok?
  {
    !Matches(reference, template, response) || noise > policy.maximumNoiseDistance
  }

  predicate FairEnvironment(measured: Measured, policy: Policy) {
    measured.supported && measured.penalty <= policy.maximumEnvironmentPenalty
  }

  /** Each reason is given exactly when its own condition holds. */
  predicate ReasonsExact(reasons: seq<Reason>, reference: string, template: Template, response: Response,
                         policy: Policy, measured: Measured)
    requires MaskedHammingDistance(reference, response.bits, template.mask).Ok? && measured.noise.Ok?
  {
    && (UNSUPPORTED_ENVIRONMENT in reasons <==> !measured.supported)
    && (EXCESSIVE_ENVIRONMENT_DRIFT in reasons <==> measured.penalty > policy.maximumEnvironmentPenalty)
    && (LOW_RESPONSE_RELIABILITY in reasons <==> !Steady(template, response))
    && (RESPONSE_MISMATCH in reasons <==> !Matches(reference, template, response))
    && (NOISE_SIGNATURE_MISMATCH in reasons <==> measured.noise.value > policy.maximumNoiseDistance)
  }

  lemma OneEnvelope(checks: Checks, templates: seq<Template>, challenge: Challenge, response: Response, k: nat, l: nat)
    requires EnvelopeAccepted(checks, templates, challenge, response, k)
    requires EnvelopeAccepted(checks, templates, challenge, response, l)
    ensures k == l
  {
    assert k >= l;
  }

  method ReasonsFor(ratio: real, reliability: real, noise: real, template: Template, policy: Policy,
                    measured: Measured)
    returns (reasons: seq<Reason>)
    ensures UNSUPPORTED_ENVIRONMENT in reasons <==> !measured.supported
    ensures EXCESSIVE_ENVIRONMENT_DRIFT in reasons <==> measured.penalty > policy.maximumEnvironmentPenalty
    ensures LOW_RESPONSE_RELIABILITY in reasons <==> reliability < template.minimumReliability
    ensures RESPONSE_MISMATCH in reasons <==> ratio > template.maximumHammingRatio
    ensures NOISE_SIGNATURE_MISMATCH in reasons <==> noise > policy.maximumNoiseDistance
    ensures
      (FairEnvironment(measured, policy) && ratio <= template.maximumHammingRatio
       && noise <= policy.maximumNoiseDistance) ==>
        reasons == if reliability < template.minimumReliability then [LOW_RESPONSE_RELIABILITY] else []
  {
    reasons := [];
    if !measured.supported {
      reasons := reasons + [UNSUPPORTED_ENVIRONMENT];
    }
    if measured.penalty > policy.maximumEnvironmentPenalty {
      reasons := reasons + [EXCESSIVE_ENVIRONMENT_DRIFT];
    }
    if reliability < template.minimumReliability {
      reasons := reasons + [LOW_RESPONSE_RELIABILITY];
    }
    if ratio > template.maximumHammingRatio {
      reasons := reasons + [RESPONSE_MISMATCH];
    }
    if noise > policy.maximumNoiseDistance {
      reasons := reasons + [NOISE_SIGNATURE_MISMATCH];
    }
  }

  /** The second half of `authenticate`: from the measured quantities to the verdict. */
  method Judge(distance: nat, comparedBits: nat, ratio: real, reliability: real, noise: real, template: Template,
               policy: Policy, measured: Measured) returns (verdict: Verdict)
    ensures verdict.distance == distance && verdict.comparedBits == comparedBits
    ensures verdict.ratio == ratio && verdict.reliability == reliability
    ensures UNSUPPORTED_ENVIRONMENT in verdict.reasons <==> !measured.supported
    ensures EXCESSIVE_ENVIRONMENT_DRIFT in verdict.reasons <==> measured.penalty > policy.maximumEnvironmentPenalty
    ensures LOW_RESPONSE_RELIABILITY in verdict.reasons <==> reliability < template.minimumReliability
    ensures RESPONSE_MISMATCH in verdict.reasons <==> ratio > template.maximumHammingRatio
    ensures NOISE_SIGNATURE_MISMATCH in verdict.reasons <==> noise > policy.maximumNoiseDistance
    ensures verdict.accepted <==> verdict.status == AUTHENTICATED
    ensures verdict.accepted <==> verdict.reasons == []
    ensures verdict.accepted <==>
      (FairEnvironment(measured, policy) && reliability >= template.minimumReliability
       && ratio <= template.maximumHammingRatio && noise <= policy.maximumNoiseDistance)
    ensures verdict.status == REJECTED_POSSIBLE_CLONE
      <==> ratio > template.maximumHammingRatio || noise > policy.maximumNoiseDistance
    ensures verdict.status == REJECTED_ENVIRONMENT ==> !FairEnvironment(measured, policy)
    ensures verdict.status == REJECTED_UNSTABLE ==> verdict.reasons == [LOW_RESPONSE_RELIABILITY]
    ensures verdict.likelihood == CloneLikelihood(ratio, template.maximumHammingRatio)
    ensures verdict.likelihood > 0.0 <==> RESPONSE_MISMATCH in verdict.reasons
  {
    var reasons := ReasonsFor(ratio, reliability, noise, template, policy, measured);
    var accepted := reasons == [];
    var status :=
      if accepted then AUTHENTICATED
      else if RESPONSE_MISMATCH in reasons || NOISE_SIGNATURE_MISMATCH in reasons then REJECTED_POSSIBLE_CLONE
      else if UNSUPPORTED_ENVIRONMENT in reasons || EXCESSIVE_ENVIRONMENT_DRIFT in reasons then REJECTED_ENVIRONMENT
      else REJECTED_UNSTABLE;
    LikelyCloneIffMismatch(ratio, template.maximumHammingRatio);
    var likelihood := CloneLikelihood(ratio, template.maximumHammingRatio);
    verdict := Verdict(accepted, status, distance, comparedBits, ratio, reliability, likelihood, reasons);
  }

  method Authenticate(mac: Mac, key: bytes, checks: Checks, templates: seq<Template>, challenge: Challenge,
                      response: Response, policy: Policy, measured: Measured)
    returns (r: Result<Verdict>, ghost k: nat, ghost reference: string)
    ensures r.Ok? <==> exists j: nat ::
      EnvelopeAccepted(checks, templates, challenge, response, j)
      && Answerable(mac, key, templates[j], challenge, response, measured)
    ensures r.Ok? ==> EnvelopeAccepted(checks, templates, challenge, response, k)
    ensures r.Ok? ==> Answerable(mac, key, templates[k], challenge, response, measured)
    ensures r.Ok? ==>
      && OpenTemplate(mac, key, templates[k], FromHex(challenge.stimulusDigest).value, |response.bits|) == Ok(reference)
      && |reference| == |response.bits|
      && MaskedHammingDistance(reference, response.bits, templates[k].mask)
         == Ok((r.value.distance, r.value.comparedBits, r.value.ratio))
    ensures r.Ok? ==> (r.value.accepted <==> r.value.status == AUTHENTICATED)
    ensures r.Ok? ==> (r.value.accepted <==>
      && FairEnvironment(measured, policy)
      && Steady(templates[k], response)
      && !PossibleClone(reference, templates[k], response, policy, measured.noise.value))
    ensures r.Ok? ==>
      (r.value.status == REJECTED_POSSIBLE_CLONE
       <==> PossibleClone(reference, templates[k], response, policy, measured.noise.value))
    ensures r.Ok? ==> ReasonsExact(r.value.reasons, reference, templates[k], response, policy, measured)
    ensures r.Ok? ==> (r.value.accepted <==> r.value.reasons == [])
    ensures r.Ok? && r.value.status == REJECTED_ENVIRONMENT ==> !FairEnvironment(measured, policy)
    ensures r.Ok? && r.value.status == REJECTED_UNSTABLE ==> r.value.reasons == [LOW_RESPONSE_RELIABILITY]
    ensures r.Ok? ==> (r.value.likelihood > 0.0 <==> RESPONSE_MISMATCH in r.value.reasons)
  {
    k, reference := 0, "";
    var envelope := ValidateEnvelope(checks, templates, challenge, response);
    if envelope.Err? {
      return Err(envelope.error), k, reference;
    }
    var template := envelope.value;
    k :| EnvelopeAccepted(checks, templates, challenge, response, k) && template == templates[k];
    forall j: nat | EnvelopeAccepted(checks, templates, challenge, response, j) ensures j == k {
      OneEnvelope(checks, templates, challenge, response, j, k);
    }
    var context := FromHex(challenge.stimulusDigest);
    if context.None? {
      return Err(ValueError), k, reference;
    }
    var unsealed := OpenTemplate(mac, key, template, context.value, |response.bits|);
    if unsealed.Err? {
      return Err(unsealed.error), k, reference;
    }
    reference := unsealed.value;
    var compared := MaskedHammingDistance(unsealed.value, response.bits, template.mask);
    if compared.Err? {
      return Err(compared.error), k, reference;
    }
    var (distance, comparedBits, ratio) := compared.value;
    var reliability := MaskedSum(response.reliability, template.mask, |template.mask|) / comparedBits as real;
    if measured.noise.Err? {
      return Err(measured.noise.error), k, reference;
    }
    var verdict := Judge(distance, comparedBits, ratio, reliability, measured.noise.value, template, policy, measured);
    r := Ok(verdict);
  }

  /*** From enrollment to authentication ***/

  /** The share of the stable bits in which a response differs from the majority of the corners. */
  function StableRatio(responses: seq<Response>, policy: Policy, response: Response): real
    requires Votable(BitsOf(responses)) && |response.bits| == |Reference(responses)|
  {
    var mask := StableMask(responses, policy.minimumBitReliability);
    Distance(Reference(responses), response.bits, mask, |mask|) as real / AtLeastOne(Selected(mask, |mask|)) as real
  }

  /** The average reliability of a response over the stable bits. */
  function StableReliability(responses: seq<Response>, policy: Policy, response: Response): real
    requires Votable(BitsOf(responses)) && |response.bits| == |Reference(responses)|
  {
    var mask := StableMask(responses, policy.minimumBitReliability);
    MaskedSum(response.reliability, mask, |mask|) / AtLeastOne(Selected(mask, |mask|)) as real
  }

  function AtLeastOne(n: nat): nat {
    if n == 0 then 1 else n
  }

  /** Some bit is reliable across and within all corners. */
  predicate SomeStable(responses: seq<Response>, policy: Policy)
    requires Votable(BitsOf(responses))
  {
    exists j :: 0 <= j < |BitsOf(responses)[0]| && ReliableEverywhere(responses, j, policy.minimumBitReliability)
  }

  lemma {:induction false} SelectedIffSome(mask: string, n: nat)
    requires n <= |mask|
    ensures Selected(mask, n) > 0 <==> exists j :: 0 <= j < n && mask[j] == '1'
  {
    if n == 0 {
    } else {
      SelectedIffSome(mask, n - 1);
    }
  }

  lemma StableIffSelected(responses: seq<Response>, policy: Policy)
    requires Votable(BitsOf(responses))
    ensures var mask := StableMask(responses, policy.minimumBitReliability);
      Selected(mask, |mask|) > 0 <==> SomeStable(responses, policy)
  {
    var mask := StableMask(responses, policy.minimumBitReliability);
    SelectedIffSome(mask, |mask|);
    if SomeStable(responses, policy) {
      var j :| 0 <= j < |BitsOf(responses)[0]| && ReliableEverywhere(responses, j, policy.minimumBitReliability);
      assert mask[j] == '1';
    }
    if j :| 0 <= j < |mask| && mask[j] == '1' {
      assert ReliableEverywhere(responses, j, policy.minimumBitReliability);
    }
  }

  /** What a template of these corners under this policy answers to a response. `current` is the
      policy in force when the response arrives; the thresholds on the response are those of enrollment. */
  ghost predicate AnswersFor(reasons: seq<Reason>, responses: seq<Response>, policy: Policy, response: Response,
                             current: Policy, measured: Measured)
    requires Votable(BitsOf(responses)) && |response.bits| == |Reference(responses)| && measured.noise.Ok?
  {
    && (RESPONSE_MISMATCH in reasons <==> StableRatio(responses, policy, response) > policy.maximumHammingRatio)
    && (LOW_RESPONSE_RELIABILITY in reasons
        <==> StableReliability(responses, policy, response) < policy.minimumResponseReliability)
    && (UNSUPPORTED_ENVIRONMENT in reasons <==> !measured.supported)
    && (EXCESSIVE_ENVIRONMENT_DRIFT in reasons <==> measured.penalty > current.maximumEnvironmentPenalty)
    && (NOISE_SIGNATURE_MISMATCH in reasons <==> measured.noise.value > current.maximumNoiseDistance)
  }

  lemma EnrolledAnswers(mac: Mac, key: bytes, t: Template, challenge: Challenge, responses: seq<Response>,
                        policy: Policy, response: Response, measured: Measured)
    requires Votable(BitsOf(responses)) && FromHex(challenge.stimulusDigest).Some?
    ensures EnrolledFor(mac, key, t, challenge, responses, policy) ==>
      (Answerable(mac, key, t, challenge, response, measured)
       <==> |response.bits| == |Reference(responses)| && SomeStable(responses, policy) && measured.noise.Ok?)
  {
    StableIffSelected(responses, policy);
  }

  /** What a verdict says of a response, when the template that judged it is the enrolled one. */
  lemma VerdictOfEnrolled(mac: Mac, key: bytes, t: Template, challenge: Challenge, responses: seq<Response>,
                          policy: Policy, response: Response, current: Policy, measured: Measured,
                          reasons: seq<Reason>, reference: string)
    requires Votable(BitsOf(responses)) && FromHex(challenge.stimulusDigest).Some?
    requires MaskedHammingDistance(reference, response.bits, t.mask).Ok? && measured.noise.Ok?
    ensures
      (EnrolledFor(mac, key, t, challenge, responses, policy)
       && OpenTemplate(mac, key, t, FromHex(challenge.stimulusDigest).value, |response.bits|) == Ok(reference)
       && ReasonsExact(reasons, reference, t, response, current, measured)) ==>
        |response.bits| == |Reference(responses)|
        && AnswersFor(reasons, responses, policy, response, current, measured)
  {
    StableIffSelected(responses, policy);
  }

  lemma OneTemplateAnswers(mac: Mac, key: bytes, checks: Checks, templates: seq<Template>, l: nat,
                           challenge: Challenge, response: Response, measured: Measured)
    requires EnvelopeAccepted(checks, templates, challenge, response, l)
    ensures Answerable(mac, key, templates[l], challenge, response, measured) <==> exists j: nat ::
      EnvelopeAccepted(checks, templates, challenge, response, j)
      && Answerable(mac, key, templates[j], challenge, response, measured)
  {
    if j: nat :| EnvelopeAccepted(checks, templates, challenge, response, j)
                 && Answerable(mac, key, templates[j], challenge, response, measured) {
      OneEnvelope(checks, templates, challenge, response, j, l);
    }
  }

  /** A response to a challenge whose template stands at place `l` of the profile. */
  method AuthenticateEnrolled(mac: Mac, key: bytes, templates: seq<Template>, l: nat, challenge: Challenge,
                              ghost responses: seq<Response>, ghost policy: Policy, response: Response,
                              current: Policy, measured: Measured)
    returns (answer: Result<Verdict>)
    requires Votable(BitsOf(responses)) && FromHex(challenge.stimulusDigest).Some?
    requires EnvelopeAccepted(Checks(true, true, true, true), templates, challenge, response, l)
    ensures EnrolledFor(mac, key, templates[l], challenge, responses, policy) ==>
      (answer.Ok?
       <==> |response.bits| == |Reference(responses)| && SomeStable(responses, policy) && measured.noise.Ok?)
    ensures EnrolledFor(mac, key, templates[l], challenge, responses, policy) && answer.Ok? ==>
      AnswersFor(answer.value.reasons, responses, policy, response, current, measured)
    ensures answer.Ok? ==> (answer.value.accepted <==> answer.value.reasons == [])
  {
    var checks := Checks(true, true, true, true);
    OneTemplateAnswers(mac, key, checks, templates, l, challenge, response, measured);
    EnrolledAnswers(mac, key, templates[l], challenge, responses, policy, response, measured);
    ghost var k, reference;
    answer, k, reference := Authenticate(mac, key, checks, templates, challenge, response, current, measured);
    if answer.Ok? {
      OneEnvelope(checks, templates, challenge, response, k, l);
      VerdictOfEnrolled(mac, key, templates[l], challenge, responses, policy, response, current, measured,
                        answer.value.reasons, reference);
    }
  }

  /** The life of one template: it is enrolled, stored between others, and later judges a response
      to its challenge. The templates before it are for other stimuli. */
  method EnrollThenAuthenticate(mac: Mac, key: bytes, nonce: bytes, challenge: Challenge, responses: seq<Response>,
                                policy: Policy, entropy: string -> real, before: seq<Template>, after: seq<Template>,
                                response: Response, current: Policy, measured: Measured)
    returns (answer: Option<Result<Verdict>>)
    requires |nonce| == 16
    requires forall i :: 0 <= i < |before| ==> before[i].stimulusDigest != challenge.stimulusDigest
    requires response.challengeId == challenge.id && response.challengeDigest == challenge.digest
    requires response.stimulusDigest == challenge.stimulusDigest
    ensures answer.Some? <==> Enrollable(challenge, responses, policy, entropy)
    ensures answer.Some? ==>
      (answer.value.Ok?
       <==> |response.bits| == |Reference(responses)| && SomeStable(responses, policy) && measured.noise.Ok?)
    ensures answer.Some? && answer.value.Ok? ==>
      AnswersFor(answer.value.value.reasons, responses, policy, response, current, measured)
    ensures answer.Some? && answer.value.Ok? ==>
      (answer.value.value.accepted <==> answer.value.value.reasons == [])
  {
    var template := EnrollChallenge(mac, key, nonce, challenge, responses, policy, entropy);
    if template.Err? {
      return None;
    }
    var templates := before + [template.value] + after;
    assert templates[|before|] == template.value;
    var verdict := AuthenticateEnrolled(mac, key, templates, |before|, challenge, responses, policy, response, current,
                                        measured);
    return Some(verdict);
  }

  /** Two responses accepted under one template differ, on the stable bits, in at most twice its ratio. */
  lemma AcceptedResponsesAgree(mac: Mac, key: bytes, template: Template, context: bytes, a: Response, b: Response,
                               referenceA: string, referenceB: string)
    requires OpenTemplate(mac, key, template, context, |a.bits|) == Ok(referenceA)
    requires OpenTemplate(mac, key, template, context, |b.bits|) == Ok(referenceB)
    requires MaskedHammingDistance(referenceA, a.bits, template.mask).Ok? && Matches(referenceA, template, a)
    requires MaskedHammingDistance(referenceB, b.bits, template.mask).Ok? && Matches(referenceB, template, b)
    ensures MaskedHammingDistance(a.bits, b.bits, template.mask).Ok?
    ensures MaskedHammingDistance(a.bits, b.bits, template.mask).value.2 <= 2.0 * template.maximumHammingRatio
  {
    CloseToReferenceCloseTogether(referenceA, a.bits, b.bits, template.mask, template.maximumHammingRatio);
  }
}
