/** What SHA-1 and MD5 have in common: a message is padded, and its blocks of 64
    bytes are taken in one after the other. */
module Digest {
  const WORD: nat := 0x1_0000_0000

  /** The state after all whole blocks of s. */
  ghost function Blocks<S>(step: (S, seq<bv8>) -> S, h: S, s: seq<bv8>): S
    decreases |s|
  {
    if |s| < 64 then h else Blocks(step, step(h, s[..64]), s[64..])
  }

  lemma {:induction false} BlocksJoin<S>(step: (S, seq<bv8>) -> S, h: S, a: seq<bv8>, b: seq<bv8>)
    requires |a| % 64 == 0
    ensures Blocks(step, h, a + b) == Blocks(step, Blocks(step, h, a), b)
    decreases |a|
  {
    if a == [] {
      assert a + b == b;
    } else {
      assert (a + b)[..64] == a[..64] && (a + b)[64..] == a[64..] + b;
      BlocksJoin(step, step(h, a[..64]), a[64..], b);
    }
  }

  /** One more block. */
  lemma BlocksOne<S>(step: (S, seq<bv8>) -> S, h: S, a: seq<bv8>, b: seq<bv8>)
    requires |a| % 64 == 0 && |b| == 64
    ensures Blocks(step, h, a + b) == step(Blocks(step, h, a), b)
  {
    BlocksJoin(step, h, a, b);
    assert b[..64] == b && b[64..] == [];
  }

  /** Where the block that is not full yet begins. */
  function Full(n: nat): (k: nat)
    ensures k <= n < k + 64 && k % 64 == 0
  {
    n / 64 * 64
  }

  /** The data that fills the block begun by a message. */
  lemma FillBlock(m: seq<bv8>, data: seq<bv8>, i: nat)
    requires i == 64 - |m| % 64 && i <= |data|
    ensures m + data[..i] == m[..Full(|m|)] + (m[Full(|m|)..] + data[..i])
    ensures |m[Full(|m|)..] + data[..i]| == 64 && (|m| + i) % 64 == 0
  {
    FullIs(|m|);
    assert m == m[..Full(|m|)] + m[Full(|m|)..];
  }

  lemma FullIs(n: nat)
    ensures n - Full(n) == n % 64
  {
  }

  lemma NextBlock(m: seq<bv8>, data: seq<bv8>, i: nat)
    requires i + 64 <= |data|
    ensures m + data[..i + 64] == m + data[..i] + data[i..i + 64]
  {
    assert data[..i + 64] == data[..i] + data[i..i + 64];
  }

  /** The part of a block that the data ends with. */
  lemma LastPart(m: seq<bv8>, data: seq<bv8>, i: nat)
    requires (|m| + i) % 64 == 0 && i <= |data| < i + 64
    ensures Full(|m + data|) == |m| + i
    ensures (m + data)[..|m| + i] == m + data[..i] && (m + data)[|m| + i..] == data[i..]
  {
    FullIs(|m + data|);
  }

  /** Data that does not fill the block. */
  lemma SamePart(m: seq<bv8>, data: seq<bv8>)
    requires |m| % 64 + |data| <= 63
    ensures var f := Full(|m|); Full(|m + data|) == f && (m + data)[..f] == m[..f] && (m + data)[f..] == m[f..] + data
  {
    FullIs(|m|);
    FullIs(|m + data|);
  }

  // ---- padding

  function Zeros(n: nat): (s: seq<bv8>)
    ensures |s| == n
  {
    seq(n, _ => 0)
  }

  /** How many zero bytes follow the byte 0x80. */
  function PadLength(n: nat): (k: nat)
    ensures (n + 1 + k) % 64 == 56 && k < 64
  {
    (119 - n % 64) % 64
  }

  /** The padding is found by adding zero bytes one at a time. */
  lemma PadFound(n: nat, k: nat)
    requires k <= PadLength(n)
    ensures (n + 1 + k) % 64 == 56 <==> k == PadLength(n)
  {
  }

  lemma ZerosNext(k: nat)
    ensures Zeros(k) + [0] == Zeros(k + 1) && Zeros(0) == []
  {
  }

  /** The length in bits, as two words. */
  function BitsHigh(n: nat): nat { 8 * n / WORD % WORD }

  function BitsLow(n: nat): nat { 8 * n % WORD }

  function ByteAt(w: nat, shift: nat): bv8
    requires shift > 0
  {
    (w / shift % 256) as bv8
  }

  /** Adding to the two words, with the carry found by comparing. */
  lemma CountsAdd(n: nat, len: nat)
    ensures var lo := (BitsLow(n) + 8 * len % WORD) % WORD;
      && BitsLow(n + len) == lo
      && BitsHigh(n + len) == ((if lo < 8 * len % WORD then (BitsHigh(n) + 1) % WORD else BitsHigh(n)) + len / 0x2000_0000) % WORD
  {
    CountWords(8 * n, 8 * len);
    EightTimes(len);
    ModAdd(8 * n / WORD, len / 0x2000_0000);
  }

  lemma EightTimes(len: nat)
    ensures 8 * len / WORD == len / 0x2000_0000
  {
  }

  lemma ModAdd(x: nat, y: nat)
    ensures (x % WORD + y) % WORD == (x + y) % WORD
    ensures ((x % WORD + 1) % WORD + y) % WORD == (x + y + 1) % WORD
  {
  }

  lemma CountWords(a: nat, b: nat)
    ensures var lo := (a % WORD + b % WORD) % WORD;
      && (a + b) % WORD == lo
      && (a + b) / WORD == a / WORD + b / WORD + if lo < b % WORD then 1 else 0
  {
  }

  lemma LowIsOffset(n: nat)
    ensures BitsLow(n) / 8 % 64 == n % 64
  {
  }
}
