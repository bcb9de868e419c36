/**
 Key derivation, bit packing and template sealing of app/hardware/puf/crypto.py. HMAC-SHA-256 is
 any function from a key and a message to 32 bytes; the random nonce is an input.
 */
module PufCrypto {
  import opened Wrappers
  import opened Bytes
  import opened BlockStream

  type Mac = (bytes, bytes) -> Digest

  /** An ASCII purpose as the bytes it encodes to. */
  function Ascii(s: string): (b: bytes)
    ensures |b| == |s|
  {
    seq(|s|, i requires 0 <= i < |s| => (s[i] as int % 256) as byte)
  }

  /** Two different messages with one tag under a key. */
  predicate TagsCollide(mac: Mac, key: bytes, messages: (bytes, bytes)) {
    messages.0 != messages.1 && mac(key, messages.0) == mac(key, messages.1)
  }

  lemma LabelsDiffer(labelA: bytes, labelB: bytes, k: nat, restA: bytes, restB: bytes)
    requires k < |labelA| && k < |labelB| && labelA[k] != labelB[k]
    ensures labelA + restA != labelB + restB
  {
    assert (labelA + restA)[k] == labelA[k] && (labelB + restB)[k] == labelB[k];
  }

  lemma LabelledMessages(prefix: bytes, a: bytes, b: bytes, i: nat, j: nat, width: nat)
    requires i < Pow256(width) && j < Pow256(width)
    requires prefix + a + BigEndian(i, width) == prefix + b + BigEndian(j, width)
    ensures a == b && i == j
  {
    CountedMessages(prefix + a, prefix + b, i, j, width);
    assert a == (prefix + a)[|prefix|..] && b == (prefix + b)[|prefix|..];
  }

  /*** derive_key ***/

  /** Block `i` feeds the previous block, the label and a counter that starts at one. */
  function DerivedBlock(mac: Mac, master: bytes, purpose: bytes, i: nat): Digest {
    mac(master, (if i == 0 then [] else DerivedBlock(mac, master, purpose, i - 1)) + purpose + BigEndian(i + 1, 4))
  }

  function DerivedBlocks(mac: Mac, master: bytes, purpose: bytes): nat -> Digest {
    (i: nat) => DerivedBlock(mac, master, purpose, i)
  }

  /** Equal blocks of two derived keys stand at the same place, have the same label, and follow equal
      blocks; or two messages share a tag. */
  lemma DerivedBlockBinds(mac: Mac, master: bytes, a: bytes, b: bytes, i: nat, j: nat)
    returns (messages: (bytes, bytes))
    requires i < 0xFFFF_FFFF && j < 0xFFFF_FFFF
    requires DerivedBlock(mac, master, a, i) == DerivedBlock(mac, master, b, j)
    ensures TagsCollide(mac, master, messages)
      || (i == j && a == b && (i > 0 ==>
            DerivedBlock(mac, master, a, i - 1) == DerivedBlock(mac, master, b, i - 1)))
  {
    var p: bytes := if i == 0 then [] else DerivedBlock(mac, master, a, i - 1);
    var q: bytes := if j == 0 then [] else DerivedBlock(mac, master, b, j - 1);
    messages := (p + a + BigEndian(i + 1, 4), q + b + BigEndian(j + 1, 4));
    if messages.0 == messages.1 {
      assert Pow256(4) == 0x1_0000_0000;
      CountedMessages(p + a, q + b, i + 1, j + 1, 4);
      assert |p| == |q|;
      assert p == (p + a)[..|p|] && q == (q + b)[..|q|];
      assert a == (p + a)[|p|..] && b == (q + b)[|q|..];
    }
  }

  lemma FirstBlock(block: nat -> Digest, length: nat)
    requires length >= 32
    ensures Stream(block, length)[..32] == block(0)
  {
    StreamPrefix(block, 32, length);
    StreamFromBlocks(block, 1, 32);
    assert Blocks(block, 1) == Blocks(block, 0) + block(0) == block(0);
  }

  /** Keys of at least one block that are equal were derived for one purpose, or two messages share a tag. */
  lemma DerivedKeysBind(mac: Mac, master: bytes, purposeA: string, purposeB: string, length: nat)
    returns (messages: (bytes, bytes))
    requires length >= 32
    requires Stream(DerivedBlocks(mac, master, Ascii(purposeA)), length)
      == Stream(DerivedBlocks(mac, master, Ascii(purposeB)), length)
    ensures TagsCollide(mac, master, messages) || Ascii(purposeA) == Ascii(purposeB)
  {
    FirstBlock(DerivedBlocks(mac, master, Ascii(purposeA)), length);
    FirstBlock(DerivedBlocks(mac, master, Ascii(purposeB)), length);
    messages := DerivedBlockBinds(mac, master, Ascii(purposeA), Ascii(purposeB), 0, 0);
  }

  method DeriveKey(mac: Mac, master: bytes, purpose: string, length: int) returns (r: Result<bytes>)
    ensures r == if |master| < 32 || length <= 0 then Err(ValueError)
                 else Ok(Stream(DerivedBlocks(mac, master, Ascii(purpose)), length))
  {
    if |master| < 32 {
      return Err(ValueError);
    }
    if length <= 0 {
      return Err(ValueError);
    }
    var blocks := DerivedBlocks(mac, master, Ascii(purpose));
    var output: bytes, counter: nat, previous: bytes := [], 1, [];
    while |output| < length
      invariant counter >= 1 && output == Blocks(blocks, counter - 1)
      invariant previous == if counter == 1 then [] else blocks(counter - 2)
      decreases length - |output|
    {
      previous := mac(master, previous + Ascii(purpose) + BigEndian(counter, 4));
      output := output + previous;
      counter := counter + 1;
    }
    StreamFromBlocks(blocks, counter - 1, length);
    return Ok(output[..length]);
  }

  /** A shorter derived key is a prefix of a longer one with the same label. */
  lemma ShorterKeyIsPrefix(mac: Mac, master: bytes, purpose: string, short: nat, long: nat)
    requires short <= long
    ensures Stream(DerivedBlocks(mac, master, Ascii(purpose)), short)
      == Stream(DerivedBlocks(mac, master, Ascii(purpose)), long)[..short]
  {
    StreamPrefix(DerivedBlocks(mac, master, Ascii(purpose)), short, long);
  }

  /*** Bit strings ***/

  predicate IsBinary(bits: string) {
    forall i :: 0 <= i < |bits| ==> bits[i] == '0' || bits[i] == '1'
  }

  /** `int(bits, 2)`. */
  function BinaryValue(bits: string): (n: nat) {
    if bits == "" then 0
    else 2 * BinaryValue(bits[..|bits| - 1]) + (if bits[|bits| - 1] == '1' then 1 else 0)
  }

  /** `n` in binary, padded to `width` digits. */
  function BinaryText(n: nat, width: nat): (bits: string)
    ensures |bits| == width
  {
    if width == 0 then "" else BinaryText(n / 2, width - 1) + [if n % 2 == 1 then '1' else '0']
  }

  function Pow2(k: nat): (n: nat)
    ensures n >= 1
  {
    if k == 0 then 1 else 2 * Pow2(k - 1)
  }

  lemma {:induction false} BinaryTextOfValue(bits: string)
    requires IsBinary(bits)
    ensures BinaryValue(bits) < Pow2(|bits|) && BinaryText(BinaryValue(bits), |bits|) == bits
  {
    if bits == "" {
    } else {
      var init := bits[..|bits| - 1];
      BinaryTextOfValue(init);
      assert bits == init + [bits[|bits| - 1]];
    }
  }

  function PackByte(bits: string): byte {
    (BinaryValue(bits) % 256) as byte
  }

  /** One byte per eight digits. */
  function Pack(bits: string): (b: bytes)
    requires |bits| % 8 == 0
    ensures |b| == |bits| / 8
  {
    if bits == "" then [] else [PackByte(bits[..8])] + Pack(bits[8..])
  }

  function Unpack(b: bytes): (bits: string)
    ensures |bits| == 8 * |b|
  {
    if b == [] then "" else BinaryText(b[0] as nat, 8) + Unpack(b[1..])
  }

  lemma Pow2Of8()
    ensures Pow2(8) == 256
  {
    assert Pow2(4) == 16;
  }

  lemma PackByteText(bits: string)
    requires |bits| == 8 && IsBinary(bits)
    ensures BinaryText(PackByte(bits) as nat, 8) == bits
  {
    BinaryTextOfValue(bits);
    Pow2Of8();
    assert PackByte(bits) as nat == BinaryValue(bits);
  }

  lemma UnpackCons(x: byte, b: bytes)
    ensures Unpack([x] + b) == BinaryText(x as nat, 8) + Unpack(b)
  {
    assert ([x] + b)[1..] == b;
  }

  lemma {:induction false} UnpackPack(bits: string)
    requires |bits| % 8 == 0 && IsBinary(bits)
    ensures Unpack(Pack(bits)) == bits
  {
    if bits == "" {
    } else {
      var head, rest := bits[..8], bits[8..];
      PackByteText(head);
      UnpackCons(PackByte(head), Pack(rest));
      UnpackPack(rest);
      assert bits == head + rest;
    }
  }

  function Zeros(n: nat): (bits: string)
    ensures |bits| == n && IsBinary(bits)
  {
    seq(n, _ => '0')
  }

  /** Four bytes of length, then the packed digits with zeros to a whole byte. */
  function BitsToBytes(bits: string): Result<bytes> {
    if !IsBinary(bits) then Err(ValueError)
    else if |bits| >= 0x1_0000_0000 then Err(OverflowError)
    else Ok(BigEndian(|bits|, 4) + Pack(bits + Zeros((8 - |bits| % 8) % 8)))
  }

  function BytesToBits(payload: bytes): Result<string> {
    if |payload| < 4 then Err(ValueError)
    else
      var length, bits := Value(payload[..4]), Unpack(payload[4..]);
      if length > |bits| then Err(ValueError) else Ok(bits[..length])
  }

  /** Unpacking refuses exactly what is too short for its header or for the length in it. */
  lemma UnpackableIff(payload: bytes)
    ensures BytesToBits(payload).Ok? <==> |payload| >= 4 && Value(payload[..4]) <= 8 * (|payload| - 4)
    ensures BytesToBits(payload).Ok? ==>
      |BytesToBits(payload).value| == Value(payload[..4]) && BytesToBits(payload).value <= Unpack(payload[4..])
  {
  }

  /** Unpacking restores every bit string whose length fits the header. */
  lemma PackedBitsUnpack(bits: string)
    requires IsBinary(bits) && |bits| < 0x1_0000_0000
    ensures BitsToBytes(bits).Ok? && BytesToBits(BitsToBytes(bits).value) == Ok(bits)
  {
    var padded := bits + Zeros((8 - |bits| % 8) % 8);
    var payload := BitsToBytes(bits).value;
    assert Pow256(4) == 0x1_0000_0000;
    BigEndianValue(|bits|, 4);
    UnpackPack(padded);
    assert payload[..4] == BigEndian(|bits|, 4) && payload[4..] == Pack(padded);
    assert padded[..|bits|] == bits;
  }

  /*** Sealing ***/

  function XorBits(a: nat, b: nat, width: nat): (c: nat)
    ensures c < Pow2(width)
  {
    if width == 0 then 0 else 2 * XorBits(a / 2, b / 2, width - 1) + (a % 2 + b % 2) % 2
  }

  lemma XorUnfold(high: nat, low: nat, b: nat, width: nat)
    requires width > 0 && low < 2
    ensures XorBits(2 * high + low, b, width) == 2 * XorBits(high, b / 2, width - 1) + (low + b % 2) % 2
  {
    assert (2 * high + low) / 2 == high && (2 * high + low) % 2 == low;
  }

  lemma ParityTwice(a: nat, b: nat)
    requires a < 2 && b < 2
    ensures ((a + b) % 2 + b) % 2 == a
  {
  }

  lemma HalfBelow(a: nat, width: nat)
    requires width > 0 && a < Pow2(width)
    ensures a / 2 < Pow2(width - 1) && a == 2 * (a / 2) + a % 2
  {
  }

  lemma {:induction false} XorTwice(a: nat, b: nat, width: nat)
    requires a < Pow2(width)
    ensures XorBits(XorBits(a, b, width), b, width) == a
  {
    if width == 0 {
    } else {
      HalfBelow(a, width);
      XorTwice(a / 2, b / 2, width - 1);
      var high, low := XorBits(a / 2, b / 2, width - 1), (a % 2 + b % 2) % 2;
      assert XorBits(a, b, width) == 2 * high + low;
      XorUnfold(high, low, b, width);
      ParityTwice(a % 2, b % 2);
    }
  }

  /** Binary digit `k` of a number, from the low end. */
  function Bit(n: nat, k: nat): (bit: nat)
    ensures bit < 2
  {
    if k == 0 then n % 2 else Bit(n / 2, k - 1)
  }

  /** Each digit of the result is set exactly when the operands differ there. */
  lemma {:induction false} XorIsBitwise(a: nat, b: nat, width: nat, k: nat)
    requires k < width
    ensures Bit(XorBits(a, b, width), k) == 1 <==> Bit(a, k) != Bit(b, k)
    decreases k
  {
    var high, low := XorBits(a / 2, b / 2, width - 1), (a % 2 + b % 2) % 2;
    assert XorBits(a, b, width) == 2 * high + low;
    assert (2 * high + low) / 2 == high && (2 * high + low) % 2 == low;
    if k > 0 {
      XorIsBitwise(a / 2, b / 2, width - 1, k - 1);
    }
  }

  function XorByte(a: byte, b: byte): byte {
    Pow2Of8();
    XorBits(a as nat, b as nat, 8) as byte
  }

  function XorBytes(left: bytes, right: bytes): (r: Result<bytes>)
    ensures r.Ok? <==> |left| == |right|
    ensures r.Ok? ==> |r.value| == |left|
    ensures r.Ok? ==> forall i :: 0 <= i < |left| ==> r.value[i] == XorByte(left[i], right[i])
  {
    if |left| != |right| then Err(ValueError)
    else Ok(seq(|left|, i requires 0 <= i < |left| && |left| == |right| => XorByte(left[i], right[i])))
  }

  lemma XorBytesTwice(plain: bytes, stream: bytes)
    requires |plain| == |stream|
    ensures XorBytes(XorBytes(plain, stream).value, stream) == Ok(plain)
  {
    var once := XorBytes(plain, stream).value;
    var twice := XorBytes(once, stream).value;
    Pow2Of8();
    forall i | 0 <= i < |plain| ensures twice[i] == plain[i] {
      XorTwice(plain[i] as nat, stream[i] as nat, 8);
    }
    assert twice == plain;
  }

  function KeystreamBlocks(mac: Mac, key: bytes, context: bytes): nat -> Digest {
    (i: nat) => mac(key, Ascii("puf-template-stream") + context + BigEndian(i, 8))
  }

  /** Equal keystream blocks have one context, hence one nonce, and one counter; or two messages share a tag. */
  lemma KeystreamBlockBinds(mac: Mac, key: bytes, a: bytes, b: bytes, i: nat, j: nat)
    returns (messages: (bytes, bytes))
    requires i < Pow256(8) && j < Pow256(8)
    requires KeystreamBlocks(mac, key, a)(i) == KeystreamBlocks(mac, key, b)(j)
    ensures TagsCollide(mac, key, messages) || (a == b && i == j)
  {
    var prefix := Ascii("puf-template-stream");
    messages := (prefix + a + BigEndian(i, 8), prefix + b + BigEndian(j, 8));
    if messages.0 == messages.1 {
      LabelledMessages(prefix, a, b, i, j, 8);
    }
  }

  method Keystream(mac: Mac, key: bytes, context: bytes, length: nat) returns (stream: bytes)
    ensures stream == Stream(KeystreamBlocks(mac, key, context), length)
  {
    var blocks := KeystreamBlocks(mac, key, context);
    stream := [];
    var counter := 0;
    while |stream| < length
      invariant stream == Blocks(blocks, counter)
      decreases length - |stream|
    {
      stream := stream + mac(key, Ascii("puf-template-stream") + context + BigEndian(counter, 8));
      counter := counter + 1;
    }
    StreamFromBlocks(blocks, counter, length);
    stream := stream[..length];
  }

  function Tag(mac: Mac, key: bytes, context: bytes, envelope: bytes): Digest {
    mac(key, Ascii("puf-template-tag") + context + envelope)
  }

  /** A tag that is also a keystream block under the same key is a tag of two messages. */
  lemma TagIsNoKeystream(mac: Mac, key: bytes, context: bytes, envelope: bytes, other: bytes, i: nat)
    returns (messages: (bytes, bytes))
    requires Tag(mac, key, context, envelope) == KeystreamBlocks(mac, key, other)(i)
    ensures TagsCollide(mac, key, messages)
  {
    var labelA, labelB := Ascii("puf-template-tag"), Ascii("puf-template-stream");
    messages := (labelA + context + envelope, labelB + other + BigEndian(i, 8));
    LabelsDiffer(labelA, labelB, 13, context + envelope, other + BigEndian(i, 8));
    assert messages.0 == labelA + (context + envelope) && messages.1 == labelB + (other + BigEndian(i, 8));
  }

  /** The envelope and tag `seal_bytes` returns for one nonce. */
  function SealBytes(mac: Mac, key: bytes, nonce: bytes, plaintext: bytes, context: bytes): (string, string)
    requires |nonce| == 16
  {
    var stream := Stream(KeystreamBlocks(mac, key, nonce + context), |plaintext|);
    var envelope := nonce + XorBytes(plaintext, stream).value;
    (ToHex(envelope), ToHex(Tag(mac, key, context, envelope)))
  }

  function UnsealBytes(mac: Mac, key: bytes, sealedHex: string, tagHex: string, context: bytes): Result<bytes> {
    match (FromHex(sealedHex), FromHex(tagHex))
    case (Some(envelope), Some(tag)) =>
      if Tag(mac, key, context, envelope) != tag then Err(IntegrityError)
      else if |envelope| < 16 then Err(IntegrityError)
      else
        XorBytes(envelope[16..], Stream(KeystreamBlocks(mac, key, envelope[..16] + context), |envelope| - 16))
    case _ => Err(IntegrityError)
  }

  /** What was sealed under a key and a context unseals to itself, whatever the nonce. */
  lemma SealedBytesUnseal(mac: Mac, key: bytes, nonce: bytes, plaintext: bytes, context: bytes)
    requires |nonce| == 16
    ensures var (sealed, tag) := SealBytes(mac, key, nonce, plaintext, context);
      UnsealBytes(mac, key, sealed, tag, context) == Ok(plaintext)
  {
    var stream := Stream(KeystreamBlocks(mac, key, nonce + context), |plaintext|);
    var ciphertext := XorBytes(plaintext, stream).value;
    var envelope := nonce + ciphertext;
    FromHexToHex(envelope);
    FromHexToHex(Tag(mac, key, context, envelope));
    assert envelope[..16] == nonce && envelope[16..] == ciphertext;
    XorBytesTwice(plaintext, stream);
  }

  /** A template accepted under the tag of a genuine one is that template, for that stimulus, or
      two messages share an authentication tag. */
  lemma AcceptedTemplateIsGenuine(mac: Mac, key: bytes, nonce: bytes, plaintext: bytes, context: bytes,
                                  sealedHex: string, claimed: bytes)
    returns (messages: (bytes, bytes))
    requires |nonce| == 16 && |context| == |claimed|
    requires UnsealBytes(mac, key, sealedHex, SealBytes(mac, key, nonce, plaintext, context).1, claimed).Ok?
    ensures
      || (claimed == context
          && UnsealBytes(mac, key, sealedHex, SealBytes(mac, key, nonce, plaintext, context).1, claimed)
             == Ok(plaintext))
      || TagsCollide(mac, key, messages)
  {
    var (sealed, tag) := SealBytes(mac, key, nonce, plaintext, context);
    SealedBytesUnseal(mac, key, nonce, plaintext, context);
    var genuine := FromHex(sealed).value;
    var prefix := Ascii("puf-template-tag");
    var envelope := FromHex(sealedHex).value;
    messages := (prefix + context + genuine, prefix + claimed + envelope);
    assert FromHex(tag) == Some(Tag(mac, key, context, genuine));
    if messages.0 == messages.1 {
      var p, c := |prefix|, |context|;
      assert context == messages.0[p..p + c] && claimed == messages.1[p..p + c];
      assert genuine == messages.0[p + c..] && envelope == messages.1[p + c..];
    }
  }
}
