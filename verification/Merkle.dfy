/**
 `merkle_root`, `merkle_proof` and `verify_proof` of app/blockchain/ethereum/merkle.py over the
 hexadecimal texts they exchange. Leaves are not hashed again; a parent is the SHA-256 digest
 of its children's 64 bytes.
 */
module Merkle {
  import opened Wrappers
  import opened Bytes
  import opened MerkleTree
  import opened Texts

  datatype ProofStep = ProofStep(sibling: string, siblingOnLeft: bool)

  type Sha = bytes -> Digest

  function Pairing(sha: Sha): (Digest, Digest) -> Digest {
    (left: Digest, right: Digest) => sha(left + right)
  }

  /*** Reading hashes ***/

  /** `require_sha256`: 64 hexadecimal digits, any case, with or without one "0x". */
  function RequireSha256(s: string): (r: Result<string>)
    ensures r.Ok? ==> IsLowerHex(r.value) && |r.value| == 64
  {
    var low := Lower(s);
    var text := if "0x" <= low then low[2..] else low;
    if |text| == 64 && IsLowerHex(text) then Ok(text) else Err(ValueError)
  }

  function ReadDigest(s: string): (r: Result<Digest>)
    ensures r.Ok? <==> RequireSha256(s).Ok?
    ensures r.Ok? ==> ToHex(r.value) == RequireSha256(s).value
  {
    match RequireSha256(s)
    case Err(e) => Err(e)
    case Ok(text) => ToHexFromHex(text); Ok(FromHex(text).value)
  }

  /** All the texts read, or the error of one that cannot be. */
  function ReadLayer(hashes: seq<string>): (r: Result<seq<Digest>>)
    ensures r.Ok? ==> |r.value| == |hashes|
    ensures r.Ok? <==> forall i :: 0 <= i < |hashes| ==> ReadDigest(hashes[i]).Ok?
    ensures r.Ok? ==> forall i :: 0 <= i < |hashes| ==> r.value[i] == ReadDigest(hashes[i]).value
  {
    if forall i :: 0 <= i < |hashes| ==> ReadDigest(hashes[i]).Ok? then
      Ok(seq(|hashes|, i requires 0 <= i < |hashes| && ReadDigest(hashes[i]).Ok? => ReadDigest(hashes[i]).value))
    else Err(ValueError)
  }

  function ReadStep(step: ProofStep): (r: Result<Step<Digest>>) {
    match ReadDigest(step.sibling)
    case Err(e) => Err(e)
    case Ok(d) => Ok(Step(d, step.siblingOnLeft))
  }

  function ReadProof(proof: seq<ProofStep>): (r: Result<seq<Step<Digest>>>)
    ensures r.Ok? ==> |r.value| == |proof|
  {
    if proof == [] then Ok([])
    else
      match (ReadStep(proof[0]), ReadProof(proof[1..]))
      case (Ok(step), Ok(rest)) => Ok([step] + rest)
      case _ => Err(ValueError)
  }

  function ShowStep(step: Step<Digest>): ProofStep {
    ProofStep(ToHex(step.sibling), step.onLeft)
  }

  function ShowProof(proof: seq<Step<Digest>>): (r: seq<ProofStep>)
    ensures |r| == |proof|
  {
    if proof == [] then [] else [ShowStep(proof[0])] + ShowProof(proof[1..])
  }

  lemma {:induction false} ShowProofAppend(proof: seq<Step<Digest>>, step: Step<Digest>)
    ensures ShowProof(proof + [step]) == ShowProof(proof) + [ShowStep(step)]
  {
    if proof == [] {
    } else {
      ShowProofAppend(proof[1..], step);
      assert (proof + [step])[1..] == proof[1..] + [step];
    }
  }

  lemma ShownDigestReads(d: Digest)
    ensures ReadDigest(ToHex(d)) == Ok(d)
  {
    var s := ToHex(d);
    ToHexLower(d);
    assert Lower(s) == s;
    assert s[1] != 'x';
    ToHexInjective(d, ReadDigest(s).value);
  }

  /** The texts that read as a digest are its hexadecimal text in any case, with or without one "0x". */
  lemma ReadDigestIff(s: string, d: Digest)
    ensures ReadDigest(s) == Ok(d) <==> Lower(s) == ToHex(d) || Lower(s) == "0x" + ToHex(d)
  {
    var low, text := Lower(s), ToHex(d);
    ToHexLower(d);
    assert text[1] != 'x';
    if low == "0x" + text {
      assert low[2..] == text;
    }
    if "0x" <= low {
      assert low == "0x" + low[2..];
    }
    if RequireSha256(s) == Ok(text) {
      ToHexInjective(d, ReadDigest(s).value);
    }
  }

  /** The parent of two leaves is the digest of the left one's bytes and then the right one's. */
  lemma TwoLeafRoot(sha: Sha, left: Digest, right: Digest)
    ensures Root(Pairing(sha), [left, right]) == sha(left + right)
  {
    var next := NextLayer(Pairing(sha), [left, right]);
    assert next == [sha(left + right)];
  }

  lemma ShownStepReads(step: Step<Digest>)
    ensures ReadStep(ShowStep(step)) == Ok(step)
  {
    ShownDigestReads(step.sibling);
  }

  lemma ReadProofCons(step: ProofStep, rest: seq<ProofStep>)
    ensures ReadStep(step).Ok? && ReadProof(rest).Ok? ==>
      ReadProof([step] + rest) == Ok([ReadStep(step).value] + ReadProof(rest).value)
  {
    assert ([step] + rest)[1..] == rest;
  }

  lemma ShownConsReads(step: Step<Digest>, rest: seq<Step<Digest>>)
    requires ReadProof(ShowProof(rest)) == Ok(rest)
    ensures ReadProof(ShowProof([step] + rest)) == Ok([step] + rest)
  {
    assert ([step] + rest)[1..] == rest;
    ShownStepReads(step);
    ReadProofCons(ShowStep(step), ShowProof(rest));
  }

  lemma {:induction false} ShownProofReads(proof: seq<Step<Digest>>)
    ensures ReadProof(ShowProof(proof)) == Ok(proof)
  {
    if proof == [] {
    } else {
      ShownProofReads(proof[1..]);
      ShownConsReads(proof[0], proof[1..]);
      assert proof == [proof[0]] + proof[1..];
    }
  }

  /*** The functions of the source ***/

  method PairUp(h: (Digest, Digest) -> Digest, padded: seq<Digest>, ghost layer: seq<Digest>)
    returns (next: seq<Digest>)
    requires layer != []
    requires padded == if |layer| % 2 == 1 then layer + [layer[|layer| - 1]] else layer
    ensures next == NextLayer(h, layer)
  {
    next := [];
    var index := 0;
    while index < |padded|
      invariant index % 2 == 0 && index <= |padded| && |next| == index / 2
      invariant next == NextLayer(h, layer)[..|next|]
    {
      NextLayerAt(h, layer, index / 2);
      next := next + [h(padded[index], padded[index + 1])];
      index := index + 2;
    }
  }

  method MerkleRoot(sha: Sha, hashes: seq<string>) returns (r: Result<string>)
    ensures r ==
      if hashes != [] && ReadLayer(hashes).Ok?
      then Ok(ToHex(Root(Pairing(sha), ReadLayer(hashes).value)))
      else Err(ValueError)
  {
    if hashes == [] {
      return Err(ValueError);
    }
    var read := ReadLayer(hashes);
    if read.Err? {
      return Err(ValueError);
    }
    var layer := read.value;
    while |layer| > 1
      invariant layer != [] && Root(Pairing(sha), layer) == Root(Pairing(sha), read.value)
      decreases |layer|
    {
      var padded := if |layer| % 2 == 1 then layer + [layer[|layer| - 1]] else layer;
      layer := PairUp(Pairing(sha), padded, layer);
    }
    return Ok(ToHex(layer[0]));
  }

  /** The loop of `merkle_proof`, from a layer that has been read. */
  lemma PaddedSibling(layer: seq<Digest>, padded: seq<Digest>, index: nat, siblingIndex: int)
    requires index < |layer| && |layer| > 1
    requires padded == if |layer| % 2 == 1 then layer + [layer[|layer| - 1]] else layer
    requires siblingIndex == if index % 2 == 1 then index - 1 else index + 1
    ensures 0 <= siblingIndex < |padded|
    ensures Step(padded[siblingIndex], siblingIndex < index) == ProofStepAt(layer, index)
  {
  }

  method CollectSiblings(h: (Digest, Digest) -> Digest, leaves: seq<Digest>, target: nat)
    returns (proof: seq<ProofStep>)
    requires target < |leaves|
    ensures proof == ShowProof(Proof(h, leaves, target))
  {
    var layer, index: nat := leaves, target;
    proof := [];
    ghost var steps, whole := [], Proof(h, leaves, target);
    while |layer| > 1
      invariant index < |layer| && proof == ShowProof(steps)
      invariant steps + Proof(h, layer, index) == whole
      decreases |layer|
    {
      var padded := if |layer| % 2 == 1 then layer + [layer[|layer| - 1]] else layer;
      var siblingIndex := if index % 2 == 1 then index - 1 else index + 1;
      ghost var step := ProofStepAt(layer, index);
      PaddedSibling(layer, padded, index, siblingIndex);
      ShowProofAppend(steps, step);
      ProofUnfold(h, layer, index, steps);
      proof := proof + [ProofStep(ToHex(padded[siblingIndex]), siblingIndex < index)];
      steps := steps + [step];
      layer := PairUp(h, padded, layer);
      index := index / 2;
    }
    assert steps == whole;
  }

  method MerkleProof(sha: Sha, hashes: seq<string>, targetIndex: int) returns (r: Result<seq<ProofStep>>)
    ensures r ==
      if !(0 <= targetIndex < |hashes|) then Err(IndexError)
      else if ReadLayer(hashes).Err? then Err(ValueError)
      else Ok(ShowProof(Proof(Pairing(sha), ReadLayer(hashes).value, targetIndex)))
  {
    if targetIndex < 0 || targetIndex >= |hashes| {
      return Err(IndexError);
    }
    var read := ReadLayer(hashes);
    if read.Err? {
      return Err(ValueError);
    }
    var proof := CollectSiblings(Pairing(sha), read.value, targetIndex);
    return Ok(proof);
  }

  /** Where a proof text leads from a digest, when every sibling in it can be read. */
  function ClimbText(h: (Digest, Digest) -> Digest, current: Digest, proof: seq<ProofStep>): Option<Digest> {
    if ReadProof(proof).Ok? then Some(Climb(h, current, ReadProof(proof).value)) else None
  }

  lemma ClimbTextUnfold(h: (Digest, Digest) -> Digest, current: Digest, proof: seq<ProofStep>)
    requires proof != []
    ensures ReadStep(proof[0]).Err? ==> ReadProof(proof).Err?
    ensures ReadStep(proof[0]).Ok? ==>
      ClimbText(h, current, proof) == ClimbText(h, Combine(h, current, ReadStep(proof[0]).value), proof[1..])
  {
    if ReadProof(proof).Ok? {
      ClimbUnfold(h, current, ReadStep(proof[0]).value, ReadProof(proof[1..]).value);
    }
  }

  method VerifyProof(sha: Sha, leafHash: string, proof: seq<ProofStep>, expectedRoot: string) returns (r: Result<bool>)
    ensures r ==
      if ReadDigest(leafHash).Ok? && ReadProof(proof).Ok? && ReadDigest(expectedRoot).Ok?
      then Ok(Climb(Pairing(sha), ReadDigest(leafHash).value, ReadProof(proof).value) == ReadDigest(expectedRoot).value)
      else Err(ValueError)
  {
    var leaf := ReadDigest(leafHash);
    if leaf.Err? {
      return Err(ValueError);
    }
    var h := Pairing(sha);
    var current := leaf.value;
    ghost var outcome := ClimbText(h, current, proof);
    var i := 0;
    assert proof[0..] == proof;
    while i < |proof|
      invariant i <= |proof|
      invariant ClimbText(h, current, proof[i..]) == outcome
    {
      assert proof[i..][1..] == proof[i + 1..] && proof[i..][0] == proof[i];
      var step := ReadStep(proof[i]);
      ClimbTextUnfold(h, current, proof[i..]);
      if step.Err? {
        return Err(ValueError);
      }
      current := Combine(h, current, step.value);
      i := i + 1;
    }
    var root := RequireSha256(expectedRoot);
    if root.Err? {
      return Err(ValueError);
    }
    if ToHex(current) == root.value {
      ToHexInjective(current, ReadDigest(expectedRoot).value);
    }
    return Ok(ToHex(current) == root.value);
  }

  /** Whatever `merkle_root` and `merkle_proof` return for a leaf, `verify_proof` accepts. */
  method GeneratedProofVerifies(sha: Sha, hashes: seq<string>, index: nat) returns (accepted: bool)
    requires index < |hashes| && ReadLayer(hashes).Ok?
    ensures accepted
  {
    var root := MerkleRoot(sha, hashes);
    var proof := MerkleProof(sha, hashes, index);
    var layer := ReadLayer(hashes).value;
    ShownProofReads(Proof(Pairing(sha), layer, index));
    ShownDigestReads(Root(Pairing(sha), layer));
    ProofClimbsToRoot(Pairing(sha), layer, index);
    var verdict := VerifyProof(sha, hashes[index], proof.value, root.value);
    return verdict.value;
  }

  /*** Binding, down to SHA-256 ***/

  function Joined(children: (Digest, Digest)): bytes {
    children.0 + children.1
  }

  /** A collision of the pairing function is one of SHA-256, since both halves have 32 bytes. */
  lemma PairCollisionCollides(sha: Sha, a: (Digest, Digest), b: (Digest, Digest))
    requires PairCollides(Pairing(sha), a, b)
    ensures Collides(sha, (Joined(a), Joined(b)))
  {
    var p, q := Joined(a), Joined(b);
    assert p[..32] == a.0 && p[32..] == a.1 && q[..32] == b.0 && q[32..] == b.1;
  }

  /** An accepted leaf is the committed one, in its normal form, or the proof holds two inputs
      of SHA-256 with one digest. */
  lemma AcceptedLeafIsBound(sha: Sha, hashes: seq<string>, index: nat, leafHash: string, proof: seq<ProofStep>)
    returns (collision: (bytes, bytes))
    requires index < |hashes| && ReadLayer(hashes).Ok? && ReadDigest(leafHash).Ok? && ReadProof(proof).Ok?
    requires SameShape(ReadProof(proof).value, Proof(Pairing(sha), ReadLayer(hashes).value, index))
    requires Climb(Pairing(sha), ReadDigest(leafHash).value, ReadProof(proof).value)
      == Root(Pairing(sha), ReadLayer(hashes).value)
    ensures RequireSha256(leafHash) == RequireSha256(hashes[index]) || Collides(sha, collision)
  {
    var layer, leaf, steps := ReadLayer(hashes).value, ReadDigest(leafHash).value, ReadProof(proof).value;
    ProofBinding(Pairing(sha), layer, index, leaf, steps);
    var (mine, honest) := ClimbCollision(Pairing(sha), layer, index, leaf, steps);
    collision := (Joined(mine), Joined(honest));
    if leaf != layer[index] {
      PairCollisionCollides(sha, mine, honest);
    }
  }

  /** A digest accepted with any proof no longer than the tree is high is that of a node of the tree,
      not only of a leaf, or the proof holds two inputs of SHA-256 with one digest. */
  lemma AcceptedIsNode(sha: Sha, layer: seq<Digest>, level: nat, value: Digest, steps: seq<Step<Digest>>)
    returns (collision: (bytes, bytes))
    requires layer != [] && level + |steps| == Height(|layer|)
    requires Climb(Pairing(sha), value, steps) == Root(Pairing(sha), layer)
    ensures value == Node(Pairing(sha), layer, level, Start(|layer|, level, steps)) || Collides(sha, collision)
  {
    AnyProofBinding(Pairing(sha), layer, level, value, steps);
    collision := ([], []);
    if value != Node(Pairing(sha), layer, level, Start(|layer|, level, steps)) {
      var (mine, honest) := PathCollision(Pairing(sha), layer, level, value, steps);
      collision := (Joined(mine), Joined(honest));
      PairCollisionCollides(sha, mine, honest);
    }
  }

  /** Two lists of as many hashes with the same root agree in normal form, or give a collision. */
  lemma EqualRootsBind(sha: Sha, a: seq<string>, b: seq<string>) returns (collision: (bytes, bytes))
    requires a != [] && |a| == |b| && ReadLayer(a).Ok? && ReadLayer(b).Ok?
    requires Root(Pairing(sha), ReadLayer(a).value) == Root(Pairing(sha), ReadLayer(b).value)
    ensures (forall i :: 0 <= i < |a| ==> RequireSha256(a[i]) == RequireSha256(b[i])) || Collides(sha, collision)
  {
    var left, right := ReadLayer(a).value, ReadLayer(b).value;
    RootBinding(Pairing(sha), left, right);
    var (p, q) := RootCollision(Pairing(sha), left, right);
    collision := (Joined(p), Joined(q));
    if left == right {
      forall i | 0 <= i < |a| ensures RequireSha256(a[i]) == RequireSha256(b[i]) {
        assert left[i] == right[i];
      }
    } else {
      PairCollisionCollides(sha, p, q);
    }
  }
}
