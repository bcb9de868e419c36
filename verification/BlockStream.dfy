/** A byte stream cut from 32-byte blocks, as HMAC counter modes produce it. */
module BlockStream {
  import opened Bytes

  function Blocks(block: nat -> Digest, n: nat): (b: bytes)
    ensures |b| == 32 * n
  {
    if n == 0 then [] else Blocks(block, n - 1) + block(n - 1)
  }

  /** The first `length` bytes of the stream. */
  function Stream(block: nat -> Digest, length: nat): (b: bytes)
    ensures |b| == length
  {
    Blocks(block, (length + 31) / 32)[..length]
  }

  /** The `length` bytes from `position` on. */
  function Slice(block: nat -> Digest, position: nat, length: nat): (b: bytes)
    ensures |b| == length
  {
    Stream(block, position + length)[position..]
  }

  lemma {:induction false} BlocksPrefix(block: nat -> Digest, m: nat, n: nat)
    requires m <= n
    ensures Blocks(block, n)[..32 * m] == Blocks(block, m)
    decreases n - m
  {
    if m >= n {
    } else {
      BlocksPrefix(block, m, n - 1);
      assert Blocks(block, n)[..32 * m] == Blocks(block, n - 1)[..32 * m];
    }
  }

  /** Any number of whole blocks that covers `length` bytes begins with the same bytes. */
  lemma StreamFromBlocks(block: nat -> Digest, n: nat, length: nat)
    requires length <= 32 * n
    ensures Blocks(block, n)[..length] == Stream(block, length)
  {
    var m := (length + 31) / 32;
    BlocksPrefix(block, m, n);
    assert Blocks(block, n)[..length] == Blocks(block, n)[..32 * m][..length];
  }

  /** Reading ahead in whole blocks: the stretch that is wanted next, and what stays for later. */
  lemma SliceOfBlocks(block: nat -> Digest, n: nat, position: nat, length: nat)
    requires position + length <= 32 * n
    ensures Blocks(block, n)[position..][..length] == Slice(block, position, length)
    ensures Blocks(block, n)[position..][length..] == Blocks(block, n)[position + length..]
  {
    StreamFromBlocks(block, n, position + length);
    assert Blocks(block, n)[position..][..length] == Blocks(block, n)[..position + length][position..];
  }

  lemma StreamPrefix(block: nat -> Digest, short: nat, long: nat)
    requires short <= long
    ensures Stream(block, long)[..short] == Stream(block, short)
  {
    var n := (long + 31) / 32;
    StreamFromBlocks(block, n, short);
    assert Stream(block, long)[..short] == Blocks(block, n)[..short];
  }

  function Total(lengths: seq<nat>): nat {
    if lengths == [] then 0 else lengths[0] + Total(lengths[1..])
  }

  /** What a sequence of reads returns, one after the other. */
  function Reads(block: nat -> Digest, position: nat, lengths: seq<nat>): bytes
    decreases |lengths|
  {
    if lengths == [] then []
    else Slice(block, position, lengths[0]) + Reads(block, position + lengths[0], lengths[1..])
  }

  lemma StreamThenSlice(block: nat -> Digest, position: nat, length: nat)
    ensures Stream(block, position) + Slice(block, position, length) == Stream(block, position + length)
  {
    StreamPrefix(block, position, position + length);
  }

  lemma JoinAssociates(a: bytes, b: bytes, c: bytes)
    ensures a + (b + c) == a + b + c
  {
  }

  lemma {:induction false} ReadsExtendStream(block: nat -> Digest, position: nat, lengths: seq<nat>)
    ensures Stream(block, position) + Reads(block, position, lengths) == Stream(block, position + Total(lengths))
    decreases |lengths|
  {
    if lengths == [] {
    } else {
      var before, slice := Stream(block, position), Slice(block, position, lengths[0]);
      var rest := Reads(block, position + lengths[0], lengths[1..]);
      var middle, total := position + lengths[0], Total(lengths[1..]);
      StreamThenSlice(block, position, lengths[0]);
      ReadsExtendStream(block, middle, lengths[1..]);
      JoinAssociates(before, slice, rest);
      assert position + Total(lengths) == middle + total;
    }
  }

  /** However a stretch of the stream is divided into reads, their results join to it. */
  lemma ReadsJoin(block: nat -> Digest, position: nat, lengths: seq<nat>)
    ensures Reads(block, position, lengths) == Slice(block, position, Total(lengths))
  {
    ReadsExtendStream(block, position, lengths);
    var before, joined := Stream(block, position), Reads(block, position, lengths);
    assert (before + joined)[position..] == joined;
  }
}
