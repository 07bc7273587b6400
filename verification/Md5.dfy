/** MD5 (mk/linux/mojosetup/checksum_md5.c:149-399) against RFC 1321. */
module Md5 {
  import opened Digest

  // ---- the standard: sections 3.1 to 3.5

  datatype Regs = Regs(a: bv32, b: bv32, c: bv32, d: bv32)

  /** 2^32 times the absolute value of the sine of 1 to 64 radians, a row for every
      round. */
  const SINES: seq<seq<bv32>> := [
    [0xd76aa478, 0xe8c7b756, 0x242070db, 0xc1bdceee, 0xf57c0faf, 0x4787c62a, 0xa8304613, 0xfd469501,
     0x698098d8, 0x8b44f7af, 0xffff5bb1, 0x895cd7be, 0x6b901122, 0xfd987193, 0xa679438e, 0x49b40821],
    [0xf61e2562, 0xc040b340, 0x265e5a51, 0xe9b6c7aa, 0xd62f105d, 0x02441453, 0xd8a1e681, 0xe7d3fbc8,
     0x21e1cde6, 0xc33707d6, 0xf4d50d87, 0x455a14ed, 0xa9e3e905, 0xfcefa3f8, 0x676f02d9, 0x8d2a4c8a],
    [0xfffa3942, 0x8771f681, 0x6d9d6122, 0xfde5380c, 0xa4beea44, 0x4bdecfa9, 0xf6bb4b60, 0xbebfbc70,
     0x289b7ec6, 0xeaa127fa, 0xd4ef3085, 0x04881d05, 0xd9d4d039, 0xe6db99e5, 0x1fa27cf8, 0xc4ac5665],
    [0xf4292244, 0x432aff97, 0xab9423a7, 0xfc93a039, 0x655b59c3, 0x8f0ccc92, 0xffeff47d, 0x85845dd1,
     0x6fa87e4f, 0xfe2ce6e0, 0xa3014314, 0x4e0811a1, 0xf7537e82, 0xbd3af235, 0x2ad7d2bb, 0xeb86d391]]

  function T(i: nat): bv32
    requires i < 64
  {
    SINES[i / 16][i % 16]
  }

  /** The word of the block that step i takes in. */
  function Index(i: nat): (k: nat)
    requires i < 64
    ensures k < 16
  {
    if i < 16 then i else if i < 32 then (5 * i + 1) % 16 else if i < 48 then (3 * i + 5) % 16 else 7 * i % 16
  }

  /** The rotation of step i. */
  function Places(i: nat): nat
    requires i < 64
  {
    var k := i % 4;
    if i < 16 then (if k == 0 then 7 else if k == 1 then 12 else if k == 2 then 17 else 22)
    else if i < 32 then (if k == 0 then 5 else if k == 1 then 9 else if k == 2 then 14 else 20)
    else if i < 48 then (if k == 0 then 4 else if k == 1 then 11 else if k == 2 then 16 else 23)
    else (if k == 0 then 6 else if k == 1 then 10 else if k == 2 then 15 else 21)
  }

  function Rotate(x: bv32, n: nat): bv32
    requires n <= 32
  {
    (x << n) | (x >> (32 - n))
  }

  function F(i: nat, x: bv32, y: bv32, z: bv32): bv32 {
    if i < 16 then (x & y) | (!x & z) else if i < 32 then (x & z) | (y & !z) else if i < 48 then x ^ y ^ z else y ^ (x | !z)
  }

  /** A word of the block, least significant byte first. */
  function LittleWord(a: bv8, b: bv8, c: bv8, d: bv8): bv32 {
    ((d as bv32) << 24) | ((c as bv32) << 16) | ((b as bv32) << 8) | (a as bv32)
  }

  function X(m: seq<bv8>, k: nat): bv32
    requires |m| == 64 && k < 16
  {
    LittleWord(m[4 * k], m[4 * k + 1], m[4 * k + 2], m[4 * k + 3])
  }

  function Sum4(a: bv32, b: bv32, c: bv32, d: bv32): bv32 { a + b + c + d }

  function Plus(x: bv32, y: bv32): bv32 { x + y }

  /** Step i: the new word goes to the place of the second register, and the
      others move on by one. */
  function Next(r: Regs, word: bv32, i: nat): Regs
    requires i < 64
  {
    Regs(r.d, Plus(Rotate(Sum4(r.a, F(i, r.b, r.c, r.d), word, T(i)), Places(i)), r.b), r.b, r.c)
  }

  function Rounds(m: seq<bv8>, h: Regs, i: nat): Regs
    requires |m| == 64 && i <= 64
  {
    if i == 0 then h else Next(Rounds(m, h, i - 1), X(m, Index(i - 1)), i - 1)
  }

  function Sum(h: Regs, r: Regs): Regs {
    Regs(Plus(h.a, r.a), Plus(h.b, r.b), Plus(h.c, r.c), Plus(h.d, r.d))
  }

  function Compress(h: Regs, m: seq<bv8>): Regs {
    if |m| != 64 then h else Sum(h, Rounds(m, h, 64))
  }

  const H0 := Regs(0x67452301, 0xefcdab89, 0x98badcfe, 0x10325476)

  /** 256 to the power of k */
  function Place(k: nat): (p: nat)
    requires k < 4
    ensures p > 0
  {
    if k == 0 then 1 else if k == 1 then 0x100 else if k == 2 then 0x1_0000 else 0x100_0000
  }

  /** The length in bits, least significant byte first. */
  function LengthBytes(n: nat): (s: seq<bv8>)
    ensures |s| == 8
  {
    seq(8, i requires 0 <= i < 8 => ByteAt(if i >= 4 then BitsHigh(n) else BitsLow(n), Place(i % 4)))
  }

  lemma PadEnds(n: nat)
    ensures (n + 1 + PadLength(n) + 8) % 64 == 0
  {
    hide PadLength;
  }

  function Pad(m: seq<bv8>): (s: seq<bv8>)
    ensures |s| % 64 == 0
  {
    PadEnds(|m|);
    m + [0x80] + Zeros(PadLength(|m|)) + LengthBytes(|m|)
  }

  /** Byte k of a word, least significant first. */
  function WordByte(w: bv32, k: nat): bv8
    requires k < 4
  {
    if k == 3 then ((w >> 24) & 0xFF) as bv8
    else if k == 2 then ((w >> 16) & 0xFF) as bv8
    else if k == 1 then ((w >> 8) & 0xFF) as bv8
    else (w & 0xFF) as bv8
  }

  function RegsWord(r: Regs, i: nat): bv32
    requires i < 4
  {
    if i == 0 then r.a else if i == 1 then r.b else if i == 2 then r.c else r.d
  }

  /** The digest of a whole message. */
  ghost function Hash(m: seq<bv8>): (d: seq<bv8>)
    ensures |d| == 16
  {
    var r := Blocks(Compress, H0, Pad(m));
    seq(16, i requires 0 <= i < 16 => WordByte(RegsWord(r, i / 4), i % 4))
  }

  // ---- the program's forms

  const T_MASK: bv32 := 0xFFFFFFFF

  const CODED_SINES: seq<seq<bv32>> := [
    [T_MASK ^ 0x28955b87, T_MASK ^ 0x173848a9, 0x242070db, T_MASK ^ 0x3e423111,
     T_MASK ^ 0x0a83f050, 0x4787c62a, T_MASK ^ 0x57cfb9ec, T_MASK ^ 0x02b96afe,
     0x698098d8, T_MASK ^ 0x74bb0850, T_MASK ^ 0x0000a44e, T_MASK ^ 0x76a32841,
     0x6b901122, T_MASK ^ 0x02678e6c, T_MASK ^ 0x5986bc71, 0x49b40821],
    [T_MASK ^ 0x09e1da9d, T_MASK ^ 0x3fbf4cbf, 0x265e5a51, T_MASK ^ 0x16493855,
     T_MASK ^ 0x29d0efa2, 0x02441453, T_MASK ^ 0x275e197e, T_MASK ^ 0x182c0437,
     0x21e1cde6, T_MASK ^ 0x3cc8f829, T_MASK ^ 0x0b2af278, 0x455a14ed,
     T_MASK ^ 0x561c16fa, T_MASK ^ 0x03105c07, 0x676f02d9, T_MASK ^ 0x72d5b375],
    [T_MASK ^ 0x0005c6bd, T_MASK ^ 0x788e097e, 0x6d9d6122, T_MASK ^ 0x021ac7f3,
     T_MASK ^ 0x5b4115bb, 0x4bdecfa9, T_MASK ^ 0x0944b49f, T_MASK ^ 0x4140438f,
     0x289b7ec6, T_MASK ^ 0x155ed805, T_MASK ^ 0x2b10cf7a, 0x04881d05,
     T_MASK ^ 0x262b2fc6, T_MASK ^ 0x1924661a, 0x1fa27cf8, T_MASK ^ 0x3b53a99a],
    [T_MASK ^ 0x0bd6ddbb, 0x432aff97, T_MASK ^ 0x546bdc58, T_MASK ^ 0x036c5fc6,
     0x655b59c3, T_MASK ^ 0x70f3336d, T_MASK ^ 0x00100b82, T_MASK ^ 0x7a7ba22e,
     0x6fa87e4f, T_MASK ^ 0x01d3191f, T_MASK ^ 0x5cfebceb, 0x4e0811a1,
     T_MASK ^ 0x08ac817d, T_MASK ^ 0x42c50dca, 0x2ad7d2bb, T_MASK ^ 0x14792c6e]]

  function Coded(i: nat): bv32
    requires i < 64
  {
    CODED_SINES[i / 16][i % 16]
  }

  /** The table is written with complements, and is the standard's. */
  lemma CodedIs(i: nat)
    requires i < 64
    ensures Coded(i) == T(i)
  {
  }

  /** The word and the rotation of each of the 64 steps as they are written out, a
      row for every round. */
  const CODED_INDICES: seq<seq<nat>> := [
    [0, 1, 2, 3, 4, 5, 6, 7, 8, 9, 10, 11, 12, 13, 14, 15],
    [1, 6, 11, 0, 5, 10, 15, 4, 9, 14, 3, 8, 13, 2, 7, 12],
    [5, 8, 11, 14, 1, 4, 7, 10, 13, 0, 3, 6, 9, 12, 15, 2],
    [0, 7, 14, 5, 12, 3, 10, 1, 8, 15, 6, 13, 4, 11, 2, 9]]

  type Rotation = n: nat | n <= 32

  const CODED_PLACES: seq<seq<Rotation>> := [
    [7, 12, 17, 22, 7, 12, 17, 22, 7, 12, 17, 22, 7, 12, 17, 22],
    [5, 9, 14, 20, 5, 9, 14, 20, 5, 9, 14, 20, 5, 9, 14, 20],
    [4, 11, 16, 23, 4, 11, 16, 23, 4, 11, 16, 23, 4, 11, 16, 23],
    [6, 10, 15, 21, 6, 10, 15, 21, 6, 10, 15, 21, 6, 10, 15, 21]]

  function CodedIndex(i: nat): nat
    requires i < 64
  {
    CODED_INDICES[i / 16][i % 16]
  }

  function CodedPlaces(i: nat): Rotation
    requires i < 64
  {
    CODED_PLACES[i / 16][i % 16]
  }

  lemma RoundOne(k: nat)
    requires k < 16
    ensures CODED_INDICES[0][k] == Index(k) && CODED_PLACES[0][k] == Places(k)
  {
  }

  lemma RoundTwo(k: nat)
    requires k < 16
    ensures CODED_INDICES[1][k] == Index(16 + k) && CODED_PLACES[1][k] == Places(16 + k)
  {
  }

  lemma RoundThree(k: nat)
    requires k < 16
    ensures CODED_INDICES[2][k] == Index(32 + k) && CODED_PLACES[2][k] == Places(32 + k)
  {
  }

  lemma RoundFour(k: nat)
    requires k < 16
    ensures CODED_INDICES[3][k] == Index(48 + k) && CODED_PLACES[3][k] == Places(48 + k)
  {
  }

  /** Which word each step takes in, and how far it rotates, is what the standard
      says. */
  lemma StepsAre(i: nat)
    requires i < 64
    ensures CodedIndex(i) == Index(i) && CodedPlaces(i) == Places(i)
  {
    hide Index, Places;
    if i < 16 {
      RoundOne(i);
    } else if i < 32 {
      RoundTwo(i - 16);
    } else if i < 48 {
      RoundThree(i - 32);
    } else {
      RoundFour(i - 48);
    }
  }

  /** A word put together on a big-endian machine. */
  function Assembled(a: bv8, b: bv8, c: bv8, d: bv8): bv32 {
    (a as bv32) + ((b as bv32) << 8) + ((c as bv32) << 16) + ((d as bv32) << 24)
  }

  lemma AssembledIs(a: bv8, b: bv8, c: bv8, d: bv8)
    ensures Assembled(a, b, c, d) == LittleWord(a, b, c, d)
  {
  }

  /** The words of the block, as they are on this machine. */
  function Loaded(m: seq<bv8>, k: nat, little: bool): bv32
    requires |m| == 64 && k < 16
  {
    if little then X(m, k) else Assembled(m[4 * k], m[4 * k + 1], m[4 * k + 2], m[4 * k + 3])
  }

  lemma LoadedIs(m: seq<bv8>, k: nat, little: bool)
    requires |m| == 64 && k < 16
    ensures Loaded(m, k, little) == X(m, k)
  {
    hide LittleWord, Assembled;
    AssembledIs(m[4 * k], m[4 * k + 1], m[4 * k + 2], m[4 * k + 3]);
  }

  /** SET: the register is replaced where it is. */
  function Set(a: bv32, b: bv32, c: bv32, d: bv32, word: bv32, i: nat): bv32
    requires i < 64
  {
    Plus(Rotate(Sum4(a, F(i, b, c, d), word, Coded(i)), CodedPlaces(i)), b)
  }

  lemma SetIs(m: seq<bv8>, h: Regs, i: nat, a: bv32, b: bv32, c: bv32, d: bv32, little: bool)
    requires |m| == 64 && i < 64 && Rounds(m, h, i) == Regs(a, b, c, d)
    ensures CodedIndex(i) < 16
    ensures Rounds(m, h, i + 1) == Regs(d, Set(a, b, c, d, Loaded(m, CodedIndex(i), little), i), b, c)
  {
    hide Plus, Rotate, Sum4, F, Coded, T, Places, X, Index, Loaded, CodedIndex, CodedPlaces;
    StepsAre(i);
    LoadedIs(m, Index(i), little);
    CodedIs(i);
  }

  /** Four of the unrolled steps: each register is replaced once. */
  method FourSteps(x: array<bv32>, i: nat, r: Regs, ghost m: seq<bv8>, ghost h: Regs, ghost little: bool) returns (r': Regs)
    requires |m| == 64 && i % 4 == 0 && i < 64 && Rounds(m, h, i) == r
    requires x.Length == 16 && forall k :: 0 <= k < 16 ==> x[k] == Loaded(m, k, little)
    ensures Rounds(m, h, i + 4) == r'
  {
    hide Set, CodedIndex, Rounds, Loaded;
    var a, b, c, d := r.a, r.b, r.c, r.d;
    SetIs(m, h, i, a, b, c, d, little);
    a := Set(a, b, c, d, x[CodedIndex(i)], i);
    SetIs(m, h, i + 1, d, a, b, c, little);
    d := Set(d, a, b, c, x[CodedIndex(i + 1)], i + 1);
    SetIs(m, h, i + 2, c, d, a, b, little);
    c := Set(c, d, a, b, x[CodedIndex(i + 2)], i + 2);
    SetIs(m, h, i + 3, b, c, d, a, little);
    b := Set(b, c, d, a, x[CodedIndex(i + 3)], i + 3);
    r' := Regs(a, b, c, d);
  }

  ghost function RegsOf(s: seq<bv32>): Regs
    requires |s| == 4
  {
    Regs(s[0], s[1], s[2], s[3])
  }

  /** MojoMd5_process: 64 unrolled steps, four at a time. */
  method Process(abcd: array<bv32>, data: seq<bv8>, little: bool)
    requires abcd.Length == 4 && |data| == 64
    modifies abcd
    ensures RegsOf(abcd[..]) == Compress(RegsOf(old(abcd[..])), data)
  {
    hide Rounds, Loaded, Sum;
    ghost var h := RegsOf(abcd[..]);
    var x := new bv32[16](k requires 0 <= k < 16 => Loaded(data, k, little));
    var r, i := Regs(abcd[0], abcd[1], abcd[2], abcd[3]), 0;
    NoRounds(data, h);
    while i < 64
      invariant 0 <= i <= 64 && i % 4 == 0 && abcd[..] == old(abcd[..])
      invariant Rounds(data, h, i) == r && forall k :: 0 <= k < 16 ==> x[k] == Loaded(data, k, little)
    {
      r := FourSteps(x, i, r, data, h, little);
      i := i + 4;
    }
    AddTo(abcd, r);
  }

  lemma NoRounds(m: seq<bv8>, h: Regs)
    requires |m| == 64
    ensures Rounds(m, h, 0) == h
  {
  }

  method AddTo(abcd: array<bv32>, r: Regs)
    requires abcd.Length == 4
    modifies abcd
    ensures RegsOf(abcd[..]) == Sum(RegsOf(old(abcd[..])), r)
  {
    hide Plus;
    abcd[0] := Plus(abcd[0], r.a);
    abcd[1] := Plus(abcd[1], r.b);
    abcd[2] := Plus(abcd[2], r.c);
    abcd[3] := Plus(abcd[3], r.d);
  }

  // ---- the running digest

  const INT_MAX: nat := 0x7FFF_FFFF

  /** A sum of 32 bits as a signed one. */
  function Int32(x: nat): int
    requires x < WORD
  {
    if x <= INT_MAX then x else x - WORD
  }

  /** The signed test for a full block is right if and only if the bytes that wait
      and those that come are fewer than 2^31 together. */
  lemma BlockTestIff(offset: nat, nbytes: nat)
    requires offset < 64 && nbytes <= INT_MAX
    ensures (Int32(offset + nbytes) > 64 <==> offset + nbytes > 64) <==> offset + nbytes <= INT_MAX
  {
  }

  /** The carry may be added before or after the high part. */
  lemma CarryLater(high: nat, part: nat)
    ensures ((high + part) % WORD + 1) % WORD == ((high + 1) % WORD + part) % WORD
  {
    ModAdd(high, part);
    assert ((high + part) % WORD + 1) % WORD == (high + part + 1) % WORD by { ModAdd(high + part, 1); }
    ModAdd(high + 1, part);
  }

  /** The state after the whole blocks of a message. */
  ghost function After(m: seq<bv8>): Regs { Blocks(Compress, H0, m[..Full(|m|)]) }

  class MojoMd5 {
    const abcd: array<bv32>
    const buf: array<bv8>
    // count[0] and count[1]
    var low: nat
    var high: nat
    const little: bool
    ghost var message: seq<bv8>

    ghost predicate Valid()
      reads this, abcd, buf
    {
      && abcd.Length == 4 && buf.Length == 64
      && RegsOf(abcd[..]) == After(message) && Buffered(message)
      && low == BitsLow(|message|) && high == BitsHigh(|message|)
    }

    /** The buffer begins with the part of the message that fills no block yet. */
    ghost predicate Buffered(m: seq<bv8>)
      reads buf
    {
      buf.Length == 64 && buf[..|m| - Full(|m|)] == m[Full(|m|)..]
    }

    constructor (little: bool)
      ensures Valid() && message == [] && fresh(abcd) && fresh(buf)
    {
      hide Compress;
      abcd := new bv32[4](i => if 0 <= i < 4 then RegsWord(H0, i) else 0);
      buf := new bv8[64](_ => 0);
      low, high, this.little, message := 0, 0, little, [];
    }

    /** memcpy into the buffer */
    method Keep(at: nat, data: seq<bv8>, from: nat, to: nat)
      requires from <= to <= |data| && at + (to - from) <= buf.Length
      modifies buf
      ensures buf[..at + (to - from)] == old(buf[..at]) + data[from..to]
      ensures at == 0 ==> buf[..to - from] == data[from..to]
    {
      forall k | 0 <= k < to - from { buf[at + k] := data[from + k]; }
    }

    /** The length of the message, in bits, grows. */
    method AddLength(nbytes: nat, ghost n: nat)
      requires low == BitsLow(n) && high == BitsHigh(n)
      modifies this`low, this`high
      ensures low == BitsLow(n + nbytes) && high == BitsHigh(n + nbytes)
    {
      hide BitsLow, BitsHigh;
      CountsAdd(n, nbytes);
      CarryLater(high, nbytes / 0x2000_0000);
      var nbits := 8 * nbytes % WORD;
      high := (high + nbytes / 0x2000_0000) % WORD;
      low := (low + nbits) % WORD;
      if low < nbits { high := (high + 1) % WORD; }
    }

    /** MojoMd5_append. The length is an int, and so is its sum with the bytes that
        wait; that sum must not pass the largest int, see BlockTestIff. */
    method Append(data: seq<bv8>)
      requires Valid() && |message| % 64 + |data| <= INT_MAX
      modifies this`low, this`high, this`message, abcd, buf
      ensures Valid() && message == old(message) + data
    {
      hide Compress, BitsLow, BitsHigh, Blocks, After;
      ghost var m := message;
      LowIsOffset(|m|);
      var offset := low / 8 % 64;
      if |data| == 0 {
        assert m + data == m;
        return;
      }
      AddLength(|data|, |m|);
      message := m + data;
      Take(m, data, offset);
    }

    /** The data goes into the buffer, and full blocks into the state. */
    method Take(ghost m: seq<bv8>, data: seq<bv8>, offset: nat)
      requires abcd.Length == 4 && RegsOf(abcd[..]) == After(m) && Buffered(m) && offset == |m| % 64 && data != []
      requires offset + |data| <= INT_MAX
      modifies abcd, buf
      ensures RegsOf(abcd[..]) == After(m + data) && Buffered(m + data)
    {
      hide Compress, Blocks, Full;
      FullIs(|m|);
      var p := 0;
      if offset != 0 {
        var copy := if Int32(offset + |data|) > 64 then 64 - offset else |data|;
        if offset + copy < 64 {
          SamePart(m, data);
          Keep(offset, data, 0, copy);
          assert data[0..copy] == data;
          return;
        }
        FillBlock(m, data, copy);
        BlocksOne(Compress, H0, m[..Full(|m|)], m[Full(|m|)..] + data[..copy]);
        Keep(offset, data, 0, copy);
        assert buf[..] == buf[..64] == m[Full(|m|)..] + data[..copy];
        Process(abcd, buf[..], little);
        p := copy;
      } else {
        assert m[..|m|] == m && m + data[..0] == m;
      }
      while |data| - p >= 64
        invariant p <= |data| && (|m| + p) % 64 == 0
        invariant RegsOf(abcd[..]) == Blocks(Compress, H0, m + data[..p])
      {
        NextBlock(m, data, p);
        BlocksOne(Compress, H0, m + data[..p], data[p..p + 64]);
        Process(abcd, data[p..p + 64], little);
        p := p + 64;
      }
      KeepRest(m, data, p);
    }

    /** The buffer begins with what is left over. */
    method KeepRest(ghost m: seq<bv8>, data: seq<bv8>, p: nat)
      requires buf.Length == 64 && abcd.Length == 4 && (|m| + p) % 64 == 0 && p <= |data| < p + 64
      requires RegsOf(abcd[..]) == Blocks(Compress, H0, m + data[..p])
      modifies buf
      ensures RegsOf(abcd[..]) == After(m + data) && Buffered(m + data)
    {
      hide Compress, Blocks, Full;
      LastPart(m, data, p);
      if p < |data| {
        Keep(0, data, p, |data|);
      }
      ghost var all := m + data;
      assert all[Full(|all|)..] == data[p..|data|];
    }

    /** MojoMd5_finish: padding, the length, and the state as bytes. */
    method Finish() returns (digest: array<bv8>)
      requires Valid()
      modifies this`low, this`high, this`message, abcd, buf
      ensures fresh(digest) && digest[..] == Hash(old(message))
    {
      hide Compress, BitsLow, BitsHigh, Blocks, After, Pad, WordByte, Hash, LengthBytes, PadLength;
      ghost var m := message;
      var data := Count();
      LowIsOffset(|m|);
      PadIs(|m|);
      var pad := [0x80] + Zeros(63);
      ghost var n := PadLength(|m|);
      assert pad[..n + 1] == [0x80] + Zeros(n);
      Append(pad[..(55 - low / 8) % WORD % 64 + 1]);
      Append(data);
      PaddedIs(m, message);
      digest := StateBytes();
      HashIs(m, digest[..]);
    }

    /** The unsigned difference, cut to six bits, is one less than the padding. */
    lemma PadIs(n: nat)
      ensures (55 - BitsLow(n) / 8) % WORD % 64 + 1 == PadLength(n) + 1
    {
      var x := BitsLow(n) / 8;
      LowIsOffset(n);
      assert (55 - x) % WORD % 64 == (55 - x) % 64 by { ModOfMod(55 - x); }
      assert (55 - x) % 64 == (119 - x % 64) % 64;
    }

    lemma ModOfMod(x: int)
      ensures x % WORD % 64 == x % 64
    {
    }

    lemma PaddedIs(m: seq<bv8>, p: seq<bv8>)
      requires p == m + ([0x80] + Zeros(PadLength(|m|))) + LengthBytes(|m|)
      ensures p == Pad(m) && |p| % 64 == 0
    {
      hide LengthBytes;
      assert m + ([0x80] + Zeros(PadLength(|m|))) == m + [0x80] + Zeros(PadLength(|m|));
    }

    lemma HashIs(m: seq<bv8>, d: seq<bv8>)
      requires |d| == 16 && var r := Blocks(Compress, H0, Pad(m));
        forall i :: 0 <= i < 16 ==> d[i] == WordByte(RegsWord(r, i / 4), i % 4)
      ensures d == Hash(m)
    {
      hide Compress, Blocks, Pad, WordByte;
    }

    method Count() returns (s: seq<bv8>)
      requires Valid()
      ensures s == LengthBytes(|message|)
    {
      hide BitsLow, BitsHigh, ByteAt, Place;
      s := [];
      for i := 0 to 8
        invariant |s| == i && forall k :: 0 <= k < i ==> s[k] == ByteAt(if k >= 4 then high else low, Place(k % 4))
      {
        s := s + [ByteAt(if i >= 4 then high else low, Place(i % 4))];
      }
    }

    method StateBytes() returns (digest: array<bv8>)
      requires Valid() && |message| % 64 == 0
      ensures fresh(digest) && digest.Length == 16
      ensures var r := Blocks(Compress, H0, message);
        forall i :: 0 <= i < 16 ==> digest[i] == WordByte(RegsWord(r, i / 4), i % 4)
    {
      hide Compress, Blocks, WordByte;
      digest := new bv8[16](_ => 0);
      for i := 0 to 16
        invariant forall k :: 0 <= k < i ==> digest[k] == WordByte(abcd[k / 4], k % 4)
      {
        digest[i] := WordByte(abcd[i / 4], i % 4);
      }
      FullIs(|message|);
      assert message[..|message|] == message;
    }
  }
}
