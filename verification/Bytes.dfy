/** Bytes, hexadecimal text and big-endian integers, as Python's `bytes` handles them. */
module Bytes {
  import opened Wrappers

  newtype byte = x: int | 0 <= x < 256
  type bytes = seq<byte>

  /** A SHA-256 or HMAC-SHA-256 value. The functions themselves are parameters of the models. */
  type Digest = d: bytes | |d| == 32 witness seq(32, _ => 0 as byte)

  /** Two different inputs of a hash function with the same digest. */
  predicate Collides(sha: bytes -> Digest, pair: (bytes, bytes)) {
    pair.0 != pair.1 && sha(pair.0) == sha(pair.1)
  }

  function HexDigit(n: int): (c: char)
    requires 0 <= n < 16
    ensures '0' <= c <= '9' || 'a' <= c <= 'f'
  {
    if n < 10 then '0' + n as char else 'a' + (n - 10) as char
  }

  function HexValue(c: char): (r: Option<int>)
    ensures r.Some? ==> 0 <= r.value < 16
  {
    if '0' <= c <= '9' then Some(c as int - '0' as int)
    else if 'a' <= c <= 'f' then Some(c as int - 'a' as int + 10)
    else if 'A' <= c <= 'F' then Some(c as int - 'A' as int + 10)
    else None
  }

  /** Capital digits count like small ones, and no other characters do. */
  lemma HexValueOf(c: char)
    ensures HexValue(c).Some? <==> '0' <= c <= '9' || 'a' <= c <= 'f' || 'A' <= c <= 'F'
    ensures 'a' <= c <= 'f' ==> HexValue('A' + (c - 'a')) == HexValue(c) == Some(c as int - 87)
  {
  }

  /** `bytes.hex`. */
  function ToHex(b: bytes): (s: string)
    ensures |s| == 2 * |b|
  {
    if b == [] then ""
    else [HexDigit(b[0] as int / 16), HexDigit(b[0] as int % 16)] + ToHex(b[1..])
  }

  predicate IsSpace(c: char) {
    c == ' ' || '\t' <= c <= '\r'
  }

  /** `bytes.fromhex`: white space is skipped between bytes, never inside one. */
  function FromHex(s: string): (r: Option<bytes>) {
    if s == "" then Some([])
    else if IsSpace(s[0]) then FromHex(s[1..])
    else if |s| == 1 then None
    else
      match (HexValue(s[0]), HexValue(s[1]), FromHex(s[2..]))
      case (Some(high), Some(low), Some(rest)) => Some([(16 * high + low) as byte] + rest)
      case _ => None
  }

  lemma HexDigitValue(n: int)
    requires 0 <= n < 16
    ensures HexValue(HexDigit(n)) == Some(n) && !IsSpace(HexDigit(n))
  {
  }

  lemma HexValueDigit(c: char)
    requires '0' <= c <= '9' || 'a' <= c <= 'f'
    ensures HexValue(c).Some? && HexDigit(HexValue(c).value) == c && !IsSpace(c)
  {
  }

  lemma {:induction false} FromHexToHex(b: bytes)
    ensures FromHex(ToHex(b)) == Some(b)
  {
    if b == [] {
    } else {
      var s, n := ToHex(b), b[0] as int;
      assert s[2..] == ToHex(b[1..]);
      FromHexToHex(b[1..]);
      HexDigitValue(n / 16);
      HexDigitValue(n % 16);
      assert (16 * (n / 16) + n % 16) as byte == b[0];
      assert b == [b[0]] + b[1..];
    }
  }

  lemma ToHexInjective(a: bytes, b: bytes)
    requires ToHex(a) == ToHex(b)
    ensures a == b
  {
    FromHexToHex(a);
    FromHexToHex(b);
  }

  predicate IsLowerHex(s: string) {
    forall i :: 0 <= i < |s| ==> '0' <= s[i] <= '9' || 'a' <= s[i] <= 'f'
  }

  lemma {:induction false} ToHexLower(b: bytes)
    ensures IsLowerHex(ToHex(b))
  {
    if b == [] {
    } else {
      ToHexLower(b[1..]);
    }
  }

  lemma ToHexCons(x: byte, b: bytes)
    ensures ToHex([x] + b) == [HexDigit(x as int / 16), HexDigit(x as int % 16)] + ToHex(b)
  {
    assert ([x] + b)[1..] == b;
  }

  lemma DigitsOfByte(high: int, low: int)
    requires 0 <= high < 16 && 0 <= low < 16
    ensures (16 * high + low) / 16 == high && (16 * high + low) % 16 == low
  {
  }

  predicate IsLowerDigit(c: char) {
    '0' <= c <= '9' || 'a' <= c <= 'f'
  }

  lemma HexPairReads(high: char, low: char, rest: string)
    requires IsLowerDigit(high) && IsLowerDigit(low) && FromHex(rest).Some?
    ensures HexValue(high).Some? && HexValue(low).Some?
    ensures FromHex([high, low] + rest)
      == Some([(16 * HexValue(high).value + HexValue(low).value) as byte] + FromHex(rest).value)
  {
    var s := [high, low] + rest;
    assert s[0] == high && s[1] == low && s[2..] == rest;
    HexValueDigit(high);
    HexValueDigit(low);
  }

  lemma HexPairShows(high: char, low: char, b: bytes)
    requires IsLowerDigit(high) && IsLowerDigit(low)
    ensures HexValue(high).Some? && HexValue(low).Some?
    ensures ToHex([(16 * HexValue(high).value + HexValue(low).value) as byte] + b) == [high, low] + ToHex(b)
  {
    HexValueDigit(high);
    HexValueDigit(low);
    ToHexCons((16 * HexValue(high).value + HexValue(low).value) as byte, b);
    DigitsOfByte(HexValue(high).value, HexValue(low).value);
  }

  lemma {:induction false} ToHexFromHex(s: string)
    requires IsLowerHex(s) && |s| % 2 == 0
    ensures FromHex(s).Some? && 2 * |FromHex(s).value| == |s| && ToHex(FromHex(s).value) == s
  {
    if s == "" {
    } else {
      var rest := s[2..];
      assert s == [s[0], s[1]] + rest;
      ToHexFromHex(rest);
      HexPairReads(s[0], s[1], rest);
      HexPairShows(s[0], s[1], FromHex(rest).value);
    }
  }

  /** Big-endian value of a byte string (`int.from_bytes(b, "big")`). */
  function Value(b: bytes): (n: nat) {
    if b == [] then 0 else 256 * Value(b[..|b| - 1]) + b[|b| - 1] as int
  }

  function Pow256(k: nat): (n: nat)
    ensures n >= 1
  {
    if k == 0 then 1 else 256 * Pow256(k - 1)
  }

  /** The low `width` bytes of `n`, most significant first (`n.to_bytes(width, "big")`). */
  function BigEndian(n: nat, width: nat): (b: bytes)
    ensures |b| == width
  {
    if width == 0 then [] else BigEndian(n / 256, width - 1) + [(n % 256) as byte]
  }

  lemma {:induction false} BigEndianValue(n: nat, width: nat)
    requires n < Pow256(width)
    ensures Value(BigEndian(n, width)) == n
  {
    if width == 0 {
    } else {
      BigEndianValue(n / 256, width - 1);
      var b := BigEndian(n, width);
      assert b[..|b| - 1] == BigEndian(n / 256, width - 1);
    }
  }

  /** Two messages that end in counters of one width are equal only if all their parts are. */
  lemma CountedMessages(a: bytes, b: bytes, i: nat, j: nat, width: nat)
    requires i < Pow256(width) && j < Pow256(width)
    requires a + BigEndian(i, width) == b + BigEndian(j, width)
    ensures a == b && i == j
  {
    var m := a + BigEndian(i, width);
    assert |a| == |b|;
    assert BigEndian(i, width) == m[|a|..] && BigEndian(j, width) == (b + BigEndian(j, width))[|b|..];
    assert a == m[..|a|] && b == (b + BigEndian(j, width))[..|b|];
    BigEndianValue(i, width);
    BigEndianValue(j, width);
  }

  lemma {:induction false} ValueBigEndian(b: bytes)
    ensures Value(b) < Pow256(|b|) && BigEndian(Value(b), |b|) == b
  {
    if b == [] {
    } else {
      ValueBigEndian(b[..|b| - 1]);
      assert b == b[..|b| - 1] + [b[|b| - 1]];
    }
  }
}
