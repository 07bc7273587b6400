/** SHA-1 (mk/linux/mojosetup/checksum_sha1.c:54-186) against FIPS 180-4. */
module Sha1 {
  import opened Digest

  // ---- the standard: sections 4.1.1, 4.2.1, 5.1.1, 5.3.1 and 6.1.2

  datatype Regs = Regs(a: bv32, b: bv32, c: bv32, d: bv32, e: bv32)

  function Rol1(x: bv32): bv32 { (x << 1) | (x >> 31) }

  function Rol5(x: bv32): bv32 { (x << 5) | (x >> 27) }

  function Rol30(x: bv32): bv32 { (x << 30) | (x >> 2) }

  function Ch(x: bv32, y: bv32, z: bv32): bv32 { (x & y) ^ (!x & z) }

  function Parity(x: bv32, y: bv32, z: bv32): bv32 { x ^ y ^ z }

  function Maj(x: bv32, y: bv32, z: bv32): bv32 { (x & y) ^ (x & z) ^ (y & z) }

  function F(t: nat, x: bv32, y: bv32, z: bv32): bv32 {
    if t < 20 then Ch(x, y, z) else if t < 40 then Parity(x, y, z) else if t < 60 then Maj(x, y, z) else Parity(x, y, z)
  }

  function K(t: nat): bv32 {
    if t < 20 then 0x5A827999 else if t < 40 then 0x6ED9EBA1 else if t < 60 then 0x8F1BBCDC else 0xCA62C1D6
  }

  /** Four bytes as a word, most significant first. */
  function BigWord(a: bv8, b: bv8, c: bv8, d: bv8): bv32 {
    ((a as bv32) << 24) | ((b as bv32) << 16) | ((c as bv32) << 8) | (d as bv32)
  }

  function Expand(w3: bv32, w8: bv32, w14: bv32, w16: bv32): bv32 { Rol1(w3 ^ w8 ^ w14 ^ w16) }

  /** The message schedule of 80 words. */
  ghost function W(m: seq<bv8>, t: nat): bv32
    requires |m| == 64
  {
    if t < 16 then BigWord(m[4 * t], m[4 * t + 1], m[4 * t + 2], m[4 * t + 3])
    else Expand(W(m, t - 3), W(m, t - 8), W(m, t - 14), W(m, t - 16))
  }

  function Temp(r: Regs, w: bv32, t: nat): bv32 {
    Sum5(Rol5(r.a), F(t, r.b, r.c, r.d), r.e, K(t), w)
  }

  function Sum5(a: bv32, b: bv32, c: bv32, d: bv32, e: bv32): bv32 { a + b + c + d + e }

  function Next(r: Regs, w: bv32, t: nat): Regs {
    Regs(Temp(r, w, t), r.a, Rol30(r.b), r.c, r.d)
  }

  /** The working variables after t steps. */
  ghost function Rounds(m: seq<bv8>, h: Regs, t: nat): Regs
    requires |m| == 64
  {
    if t == 0 then h else Next(Rounds(m, h, t - 1), W(m, t - 1), t - 1)
  }

  function Sum(h: Regs, r: Regs): Regs {
    Regs(Plus(h.a, r.a), Plus(h.b, r.b), Plus(h.c, r.c), Plus(h.d, r.d), Plus(h.e, r.e))
  }

  function Plus(x: bv32, y: bv32): bv32 { x + y }

  ghost function Compress(h: Regs, m: seq<bv8>): Regs {
    if |m| != 64 then h else Sum(h, Rounds(m, h, 80))
  }

  const H0 := Regs(0x67452301, 0xEFCDAB89, 0x98BADCFE, 0x10325476, 0xC3D2E1F0)

  /** Byte k of a word, most significant first. */
  function WordByte(w: bv32, k: nat): bv8
    requires k < 4
  {
    if k == 0 then ((w >> 24) & 0xFF) as bv8
    else if k == 1 then ((w >> 16) & 0xFF) as bv8
    else if k == 2 then ((w >> 8) & 0xFF) as bv8
    else (w & 0xFF) as bv8
  }

  function RegsWord(r: Regs, i: nat): bv32
    requires i < 5
  {
    if i == 0 then r.a else if i == 1 then r.b else if i == 2 then r.c else if i == 3 then r.d else r.e
  }

  /** 256 to the power of k */
  function Place(k: nat): (p: nat)
    requires k < 4
    ensures p > 0
  {
    if k == 0 then 1 else if k == 1 then 0x100 else if k == 2 then 0x1_0000 else 0x100_0000
  }

  /** The length in bits, most significant byte first. */
  function LengthBytes(n: nat): (s: seq<bv8>)
    ensures |s| == 8
  {
    seq(8, i requires 0 <= i < 8 => ByteAt(if i >= 4 then BitsLow(n) else BitsHigh(n), Place(3 - i % 4)))
  }

  lemma PadEnds(n: nat)
    ensures (n + 1 + PadLength(n) + 8) % 64 == 0
  {
    hide PadLength;
  }

  function Pad(m: seq<bv8>): (s: seq<bv8>)
    ensures |s| % 64 == 0
  {
    PadEnds(|m|);
    m + [0x80] + Zeros(PadLength(|m|)) + LengthBytes(|m|)
  }

  /** The digest of a whole message. */
  ghost function Hash(m: seq<bv8>): (d: seq<bv8>)
    ensures |d| == 20
  {
    var r := Blocks(Compress, H0, Pad(m));
    seq(20, i requires 0 <= i < 20 => WordByte(RegsWord(r, i / 4), i % 4))
  }

  // ---- the program's forms

  /** Four bytes as memcpy puts them into a word of a little-endian machine. */
  function LittleWord(a: bv8, b: bv8, c: bv8, d: bv8): bv32 {
    ((d as bv32) << 24) | ((c as bv32) << 16) | ((b as bv32) << 8) | (a as bv32)
  }

  /** blk0 on such a machine */
  function Swap(l: bv32): bv32 {
    (((l << 24) | (l >> 8)) & 0xFF00FF00) | (((l << 8) | (l >> 24)) & 0x00FF00FF)
  }

  lemma SwapIs(a: bv8, b: bv8, c: bv8, d: bv8)
    ensures Swap(LittleWord(a, b, c, d)) == BigWord(a, b, c, d)
  {
  }

  /** The functions of R0 to R4. */
  function G(t: nat, w: bv32, x: bv32, y: bv32): bv32 {
    if t < 20 then (w & (x ^ y)) ^ y else if t < 40 then w ^ x ^ y else if t < 60 then ((w | x) & y) | (w & x) else w ^ x ^ y
  }

  lemma ChIs(w: bv32, x: bv32, y: bv32)
    ensures (w & (x ^ y)) ^ y == Ch(w, x, y)
  {
  }

  lemma MajIs(w: bv32, x: bv32, y: bv32)
    ensures ((w | x) & y) | (w & x) == Maj(w, x, y)
  {
  }

  lemma GIs(t: nat, w: bv32, x: bv32, y: bv32)
    ensures G(t, w, x, y) == F(t, w, x, y)
  {
    ChIs(w, x, y);
    MajIs(w, x, y);
    hide Ch, Maj;
  }

  lemma SumOrder(f: bv32, w: bv32, k: bv32, r: bv32, z: bv32)
    ensures Gather(z, f, w, k, r) == Sum5(r, f, z, k, w)
  {
    assert z + (f + w + k + r) == r + f + z + k + w;
  }

  function Gather(z: bv32, f: bv32, w: bv32, k: bv32, r: bv32): bv32 { z + (f + w + k + r) }

  /** R0 to R4: what is added up in the register that moves to the front. */
  function Mix(v: bv32, w: bv32, x: bv32, y: bv32, z: bv32, word: bv32, t: nat): bv32 {
    Gather(z, G(t, w, x, y), word, K(t), Rol5(v))
  }

  lemma MixIs(v: bv32, w: bv32, x: bv32, y: bv32, z: bv32, word: bv32, t: nat)
    ensures Mix(v, w, x, y, z, word, t) == Temp(Regs(v, w, x, y, z), word, t)
  {
    hide G, F, K, Rol5, Gather, Sum5;
    GIs(t, w, x, y);
    SumOrder(G(t, w, x, y), word, K(t), Rol5(v), z);
  }

  /** The 16 words of the block: those from t on as they were loaded, and the last
      16 of the schedule before t. */
  ghost predicate Scheduled(l: seq<bv32>, m: seq<bv8>, t: nat, little: bool) {
    && |l| == 16 && |m| == 64
    && (forall i :: t <= i < 16 ==> l[i] == Loaded(m, i, little))
    && (forall i :: 0 <= i < t <= i + 16 ==> l[i % 16] == W(m, i))
  }

  function Loaded(m: seq<bv8>, i: nat, little: bool): bv32
    requires i < 16 && |m| == 64
  {
    if little then LittleWord(m[4 * i], m[4 * i + 1], m[4 * i + 2], m[4 * i + 3])
    else BigWord(m[4 * i], m[4 * i + 1], m[4 * i + 2], m[4 * i + 3])
  }

  /** blk0 and blk: the word for step t, expanded in place. */
  method Blk(l: array<bv32>, t: nat, ghost m: seq<bv8>, little: bool) returns (word: bv32)
    requires l.Length == 16 && Scheduled(l[..], m, t, little)
    modifies l
    ensures Scheduled(l[..], m, t + 1, little) && word == W(m, t)
  {
    hide Expand, Swap, Loaded, W, Scheduled;
    ghost var was := l[..];
    SlotIs(was, m, t, little);
    if t < 16 {
      if little {
        l[t] := Swap(l[t]);
      }
      word := l[t];
    } else {
      l[t % 16] := Expand(l[(t + 13) % 16], l[(t + 8) % 16], l[(t + 2) % 16], l[t % 16]);
      word := l[t % 16];
    }
    assert l[..] == was[t % 16 := word];
    ScheduledNext(was, m, t, little);
  }

  lemma SlotIs(l: seq<bv32>, m: seq<bv8>, t: nat, little: bool)
    requires Scheduled(l, m, t, little)
    ensures |l| == 16 && |m| == 64
    ensures t < 16 ==> t % 16 == t && W(m, t) == if little then Swap(l[t]) else l[t]
    ensures t >= 16 ==> W(m, t) == Expand(l[(t + 13) % 16], l[(t + 8) % 16], l[(t + 2) % 16], l[t % 16])
  {
    hide Expand, BigWord, LittleWord, Swap;
    if t < 16 {
      SwapIs(m[4 * t], m[4 * t + 1], m[4 * t + 2], m[4 * t + 3]);
    } else {
      SlotsAre(l, m, t, little);
    }
  }

  lemma ScheduledNext(l: seq<bv32>, m: seq<bv8>, t: nat, little: bool)
    requires Scheduled(l, m, t, little)
    ensures Scheduled(l[t % 16 := W(m, t)], m, t + 1, little)
  {
    hide W, Loaded;
  }

  lemma SlotsAre(l: seq<bv32>, m: seq<bv8>, t: nat, little: bool)
    requires t >= 16 && Scheduled(l, m, t, little)
    ensures l[(t + 13) % 16] == W(m, t - 3) && l[(t + 8) % 16] == W(m, t - 8)
    ensures l[(t + 2) % 16] == W(m, t - 14) && l[t % 16] == W(m, t - 16)
  {
    hide W;
    assert (t + 13) % 16 == (t - 3) % 16 && (t + 8) % 16 == (t - 8) % 16;
    assert (t + 2) % 16 == (t - 14) % 16 && t % 16 == (t - 16) % 16;
  }

  // ---- one block

  ghost function RegsOf(s: seq<bv32>): Regs
    requires |s| == 5
  {
    Regs(s[0], s[1], s[2], s[3], s[4])
  }

  /** Five of the unrolled rounds: the registers keep their places and change
      their roles, and after five each is in its first role again. */
  method FiveRounds(l: array<bv32>, t: nat, r: Regs, ghost m: seq<bv8>, ghost h: Regs, little: bool) returns (r': Regs)
    requires l.Length == 16 && Scheduled(l[..], m, t, little) && Rounds(m, h, t) == r
    modifies l
    ensures Scheduled(l[..], m, t + 5, little) && Rounds(m, h, t + 5) == r'
  {
    hide Mix, W, Scheduled, Rol30, Rounds, Loaded;
    BlockSize(l[..], m, t, little);
    var a, b, c, d, e := r.a, r.b, r.c, r.d, r.e;
    var word := Blk(l, t, m, little);
    RoundIs(m, h, t, a, b, c, d, e);
    e, b := Mix(a, b, c, d, e, word, t), Rol30(b);
    word := Blk(l, t + 1, m, little);
    RoundIs(m, h, t + 1, e, a, b, c, d);
    d, a := Mix(e, a, b, c, d, word, t + 1), Rol30(a);
    word := Blk(l, t + 2, m, little);
    RoundIs(m, h, t + 2, d, e, a, b, c);
    c, e := Mix(d, e, a, b, c, word, t + 2), Rol30(e);
    word := Blk(l, t + 3, m, little);
    RoundIs(m, h, t + 3, c, d, e, a, b);
    b, d := Mix(c, d, e, a, b, word, t + 3), Rol30(d);
    word := Blk(l, t + 4, m, little);
    RoundIs(m, h, t + 4, b, c, d, e, a);
    a, c := Mix(b, c, d, e, a, word, t + 4), Rol30(c);
    r' := Regs(a, b, c, d, e);
  }

  lemma BlockSize(l: seq<bv32>, m: seq<bv8>, t: nat, little: bool)
    requires Scheduled(l, m, t, little)
    ensures |m| == 64
  {
  }

  /** MojoSha1_transform: 80 unrolled rounds, five at a time. */
  method Transform(state: array<bv32>, buffer: seq<bv8>, little: bool)
    requires state.Length == 5 && |buffer| == 64
    modifies state
    ensures RegsOf(state[..]) == Compress(RegsOf(old(state[..])), buffer)
  {
    hide Scheduled, Rounds, Loaded, Sum;
    ghost var h := RegsOf(state[..]);
    var block := new bv32[16](i requires 0 <= i < 16 => Loaded(buffer, i, little));
    NothingScheduled(block[..], buffer, little);
    NoRounds(buffer, h);
    var r, t := Regs(state[0], state[1], state[2], state[3], state[4]), 0;
    while t < 80
      invariant 0 <= t <= 80 && t % 5 == 0 && state[..] == old(state[..])
      invariant Scheduled(block[..], buffer, t, little) && Rounds(buffer, h, t) == r
    {
      r := FiveRounds(block, t, r, buffer, h, little);
      t := t + 5;
    }
    EightyRounds(buffer, h);
    AddTo(state, r);
  }

  method AddTo(state: array<bv32>, r: Regs)
    requires state.Length == 5
    modifies state
    ensures RegsOf(state[..]) == Sum(RegsOf(old(state[..])), r)
  {
    hide Plus;
    state[0] := Plus(state[0], r.a);
    state[1] := Plus(state[1], r.b);
    state[2] := Plus(state[2], r.c);
    state[3] := Plus(state[3], r.d);
    state[4] := Plus(state[4], r.e);
  }

  /** One round, with the registers in their roles. */
  lemma RoundIs(m: seq<bv8>, h: Regs, t: nat, v: bv32, w: bv32, x: bv32, y: bv32, z: bv32)
    requires |m| == 64 && Rounds(m, h, t) == Regs(v, w, x, y, z)
    ensures Rounds(m, h, t + 1) == Regs(Mix(v, w, x, y, z, W(m, t), t), v, Rol30(w), x, y)
  {
    hide Mix, Temp, W, Rol30;
    MixIs(v, w, x, y, z, W(m, t), t);
  }

  lemma NoRounds(m: seq<bv8>, h: Regs)
    requires |m| == 64
    ensures Rounds(m, h, 0) == h
  {
  }

  lemma EightyRounds(m: seq<bv8>, h: Regs)
    requires |m| == 64
    ensures Compress(h, m) == Sum(h, Rounds(m, h, 80))
  {
    hide Rounds;
  }

  lemma NothingScheduled(l: seq<bv32>, m: seq<bv8>, little: bool)
    requires |l| == 16 && |m| == 64 && forall i :: 0 <= i < 16 ==> l[i] == Loaded(m, i, little)
    ensures Scheduled(l, m, 0, little)
  {
  }

  // ---- the running digest

  /** The state after the whole blocks of a message. */
  ghost function After(m: seq<bv8>): Regs { Blocks(Compress, H0, m[..Full(|m|)]) }

  /** At a block boundary within the data, the loop's sum does not wrap. */
  lemma NoWrap(j: nat, i: nat, len: nat)
    requires j < 64 && (j + i) % 64 == 0 && i <= len && j + len < WORD
    ensures i + 63 < WORD
  {
  }

  /** The 32-bit test for a full block is right if and only if the bytes that
      wait and those that come are fewer than 2^32 together; else it always
      fails, although there is a full block. */
  lemma BlockTestIff(j: nat, len: nat)
    requires j < 64 && len < WORD
    ensures ((j + len) % WORD > 63 <==> j + len > 63) <==> j + len < WORD
    ensures j + len >= WORD ==> (j + len) % WORD <= 63 && j + len > 63
  {
    if j + len >= WORD {
      assert (j + len) % WORD == j + len - WORD;
    }
  }

  class MojoSha1 {
    const state: array<bv32>
    const buffer: array<bv8>
    // count[0] and count[1]
    var low: nat
    var high: nat
    const little: bool
    ghost var message: seq<bv8>

    ghost predicate Valid()
      reads this, state, buffer
    {
      && state.Length == 5 && buffer.Length == 64
      && RegsOf(state[..]) == After(message) && Buffered(message)
      && low == BitsLow(|message|) && high == BitsHigh(|message|)
    }

    /** The buffer begins with the part of the message that fills no block yet. */
    ghost predicate Buffered(m: seq<bv8>)
      reads buffer
    {
      buffer.Length == 64 && buffer[..|m| - Full(|m|)] == m[Full(|m|)..]
    }

    constructor (little: bool)
      ensures Valid() && message == [] && fresh(state) && fresh(buffer)
    {
      hide Compress;
      state := new bv32[5](i => if 0 <= i < 5 then RegsWord(H0, i) else 0);
      buffer := new bv8[64](_ => 0);
      low, high, this.little, message := 0, 0, little, [];
    }

    /** memcpy into the buffer */
    method Keep(at: nat, data: seq<bv8>, from: nat, to: nat)
      requires from <= to <= |data| && at + (to - from) <= buffer.Length
      modifies buffer
      ensures buffer[..at + (to - from)] == old(buffer[..at]) + data[from..to]
      ensures at == 0 ==> buffer[..to - from] == data[from..to]
    {
      forall k | 0 <= k < to - from { buffer[at + k] := data[from + k]; }
    }

    /** MojoSha1_append, with its sums of lengths in 32 bits. The bytes that wait
        and those that come must be fewer than 2^32 together, see BlockTestIff. */
    method Append(data: seq<bv8>)
      requires Valid() && |message| % 64 + |data| < WORD
      modifies this`low, this`high, this`message, state, buffer
      ensures Valid() && message == old(message) + data
    {
      hide Compress, BitsLow, BitsHigh, Blocks;
      var len := |data|;
      ghost var m := message;
      LowIsOffset(|m|);
      CountsAdd(|m|, len);
      var j := low / 8 % 64;
      low := (low + 8 * len % WORD) % WORD;
      if low < 8 * len % WORD { high := (high + 1) % WORD; }
      high := (high + len / 0x2000_0000) % WORD;
      message := m + data;
      if (j + len) % WORD > 63 {
        TakeBlocks(m, data, j);
      } else {
        SamePart(m, data);
        FullIs(|m|);
        Keep(j, data, 0, len);
      }
    }

    /** From the block that the buffer begins to the one it will begin next. */
    method TakeBlocks(ghost m: seq<bv8>, data: seq<bv8>, j: nat)
      requires state.Length == 5 && RegsOf(state[..]) == After(m) && Buffered(m)
      requires j == |m| % 64 && 63 < j + |data| < WORD
      modifies state, buffer
      ensures RegsOf(state[..]) == After(m + data) && Buffered(m + data)
    {
      hide Compress, Blocks, Full;
      var i := 64 - j;
      FullIs(|m|);
      FillBlock(m, data, i);
      Keep(j, data, 0, i);
      BlocksOne(Compress, H0, m[..Full(|m|)], m[Full(|m|)..] + data[..i]);
      assert buffer[..] == buffer[..64] == m[Full(|m|)..] + data[..i];
      Transform(state, buffer[..], little);
      NoWrap(j, i, |data|);
      while (i + 63) % WORD < |data|
        invariant 0 < i <= |data| && (|m| + i) % 64 == 0 && (j + i) % 64 == 0 && i + 63 < WORD
        invariant RegsOf(state[..]) == Blocks(Compress, H0, m + data[..i])
      {
        NextBlock(m, data, i);
        BlocksOne(Compress, H0, m + data[..i], data[i..i + 64]);
        Transform(state, data[i..i + 64], little);
        i := i + 64;
        NoWrap(j, i, |data|);
      }
      KeepRest(m, data, i);
    }

    /** The buffer begins with what is left over. */
    method KeepRest(ghost m: seq<bv8>, data: seq<bv8>, i: nat)
      requires buffer.Length == 64 && state.Length == 5 && (|m| + i) % 64 == 0 && i <= |data| < i + 64
      requires RegsOf(state[..]) == Blocks(Compress, H0, m + data[..i])
      modifies buffer
      ensures RegsOf(state[..]) == After(m + data) && Buffered(m + data)
    {
      hide Compress, Blocks, Full;
      LastPart(m, data, i);
      Keep(0, data, i, |data|);
      ghost var all := m + data;
      assert all[Full(|all|)..] == data[i..|data|];
    }

    /** MojoSha1_finish: padding, the length, and the state as bytes; then all of
        it is wiped. */
    method Finish() returns (digest: array<bv8>)
      requires Valid()
      modifies this`low, this`high, this`message, state, buffer
      ensures fresh(digest) && digest[..] == Hash(old(message))
    {
      hide Compress, BitsLow, BitsHigh, Blocks, After, Pad, WordByte, Hash, LengthBytes;
      ghost var m := message;
      var finalcount := FinalCount();
      PadMessage();
      Append(finalcount);
      PaddedIs(m, message);
      digest := StateBytes();
      HashIs(m, digest[..]);
      Wipe();
    }

    lemma PaddedIs(m: seq<bv8>, p: seq<bv8>)
      requires p == m + [0x80] + Zeros(PadLength(|m|)) + LengthBytes(|m|)
      ensures p == Pad(m) && |p| % 64 == 0
    {
      hide LengthBytes;
    }

    lemma HashIs(m: seq<bv8>, d: seq<bv8>)
      requires |d| == 20 && var r := Blocks(Compress, H0, Pad(m));
        forall i :: 0 <= i < 20 ==> d[i] == WordByte(RegsWord(r, i / 4), i % 4)
      ensures d == Hash(m)
    {
      hide Compress, Blocks, Pad, WordByte;
    }

    /** The byte 0x80, and zero bytes until the length is 56 modulo 64. */
    method PadMessage()
      requires Valid()
      modifies this`low, this`high, this`message, state, buffer
      ensures Valid() && message == old(message) + [0x80] + Zeros(PadLength(|old(message)|))
    {
      hide Compress, BitsLow, BitsHigh, Blocks, After, PadLength, MojoSha1.Buffered;
      ghost var m := message;
      Append([0x80]);
      ghost var k := 0;
      ZerosNext(0);
      assert message == m + [0x80] + Zeros(0);
      LowIsOffset(|message|);
      while low / 8 % 64 != 56
        invariant Valid() && k <= PadLength(|m|) && message == m + [0x80] + Zeros(k)
        invariant (|m| + 1 + k) % 64 == low / 8 % 64
        decreases PadLength(|m|) - k
      {
        PadFound(|m|, k);
        Append([0]);
        ZerosNext(k);
        assert message == m + [0x80] + (Zeros(k) + [0]);
        k := k + 1;
        LowIsOffset(|message|);
      }
      PadFound(|m|, k);
    }

    method FinalCount() returns (s: seq<bv8>)
      requires Valid()
      ensures s == LengthBytes(|message|)
    {
      hide BitsLow, BitsHigh, ByteAt, Place;
      s := [];
      for i := 0 to 8
        invariant |s| == i && forall k :: 0 <= k < i ==> s[k] == ByteAt(if k >= 4 then low else high, Place(3 - k % 4))
      {
        s := s + [ByteAt(if i >= 4 then low else high, Place(3 - i % 4))];
      }
    }

    method StateBytes() returns (digest: array<bv8>)
      requires Valid() && |message| % 64 == 0
      ensures fresh(digest) && digest.Length == 20
      ensures var r := Blocks(Compress, H0, message);
        forall i :: 0 <= i < 20 ==> digest[i] == WordByte(RegsWord(r, i / 4), i % 4)
    {
      hide Compress, Blocks, WordByte;
      digest := new bv8[20](_ => 0);
      for i := 0 to 20
        invariant forall k :: 0 <= k < i ==> digest[k] == WordByte(state[k / 4], k % 4)
      {
        digest[i] := WordByte(state[i / 4], i % 4);
      }
      FullIs(|message|);
      assert message[..|message|] == message;
    }

    method Wipe()
      requires state.Length == 5 && buffer.Length == 64
      modifies this`low, this`high, state, buffer
    {
      forall i | 0 <= i < 64 { buffer[i] := 0; }
      forall i | 0 <= i < 5 { state[i] := 0; }
      low, high := 0, 0;
      Transform(state, buffer[..], little);
    }
  }
}
