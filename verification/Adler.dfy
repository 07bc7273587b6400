/** The deferred-modulo Adler-32 loop that ends every call
    (mk/linux/mojosetup/miniz.h:524-538). */
module Adler {
  import opened Bits
  import opened Rfc1950

  const BLOCK := 5552
  const UINT32 := 0x1_0000_0000

  /** Twice the largest value of s2 after i bytes of 255 from the largest sums. */
  function Twice(i: nat): nat { 131040 * (i + 1) + 255 * (i * (i + 1)) }

  lemma TwiceStep(i: nat)
    ensures Twice(i + 1) == Twice(i) + 131040 + 510 * (i + 1)
  {
    assert (i + 1) * (i + 2) == i * (i + 1) + 2 * (i + 1);
  }

  lemma TwiceBound(i: nat)
    requires i <= BLOCK
    ensures Twice(i) < 2 * UINT32
  {
    assert i * (i + 1) <= BLOCK * (BLOCK + 1) by {
      MulMono(i, BLOCK, i + 1, BLOCK + 1);
    }
  }

  lemma MulMono(a: nat, b: nat, c: nat, d: nat)
    requires a <= b && c <= d
    ensures a * c <= b * d
  {
    assert a * c <= a * d;
    assert a * d <= b * d;
  }

  /** The sums are right modulo the base after bytes, i of them since a reduction,
      and small enough not to wrap. */
  ghost predicate SumsOk(bytes: seq<Byte>, i: nat, s1: nat, s2: nat) {
    && s1 % ADLER_BASE == Sum1(bytes) && s2 % ADLER_BASE == Sum2(bytes)
    && s1 <= 65520 + 255 * i && 2 * s2 <= Twice(i)
  }

  lemma ModAdd(a: nat, b: nat)
    ensures (a + b) % ADLER_BASE == (a % ADLER_BASE + b) % ADLER_BASE
  {
  }

  /** One byte keeps the sums right; in a block of 5552 they stay below 2^32. */
  lemma SumStep(bytes: seq<Byte>, i: nat, s1: nat, s2: nat, b: Byte)
    requires SumsOk(bytes, i, s1, s2) && i < BLOCK
    ensures SumsOk(bytes + [b], i + 1, s1 + b, s2 + (s1 + b))
    ensures s1 + b < UINT32 && s2 + (s1 + b) < UINT32
  {
    var bs := bytes + [b];
    assert bs[..|bs| - 1] == bytes;
    ModAdd(s1, b);
    ModAdd(s2, s1 + b);
    ModAdd(s1 + b, Sum2(bytes));
    TwiceStep(i);
    TwiceBound(i + 1);
  }

  /** ptr[k] added to both sums. */
  method AddOne(s1: nat, s2: nat, b: Byte, ghost bytes: seq<Byte>, ghost i: nat) returns (t1: nat, t2: nat)
    requires SumsOk(bytes, i, s1, s2) && i < BLOCK
    ensures SumsOk(bytes + [b], i + 1, t1, t2) && t1 < UINT32 && t2 < UINT32
  {
    SumStep(bytes, i, s1, s2, b);
    t1 := s1 + b;
    t2 := s2 + t1;
  }

  /** One block: eight bytes at a time, then the rest (lines 530-535). */
  method SumBlock(s1: nat, s2: nat, data: seq<Byte>, ghost before: seq<Byte>) returns (t1: nat, t2: nat)
    requires |data| <= BLOCK && SumsOk(before, 0, s1, s2)
    ensures SumsOk(before + data, |data|, t1, t2)
  {
    hide SumsOk;
    t1, t2 := s1, s2;
    var i := 0;
    assert before + data[..0] == before;
    while i + 7 < |data|
      invariant 0 <= i <= |data| && SumsOk(before + data[..i], i, t1, t2)
    {
      for k := 0 to 8
        invariant SumsOk(before + data[..i + k], i + k, t1, t2)
      {
        t1, t2 := AddOne(t1, t2, data[i + k], before + data[..i + k], i + k);
        assert before + data[..i + k] + [data[i + k]] == before + data[..i + k + 1];
      }
      i := i + 8;
    }
    while i < |data|
      invariant 0 <= i <= |data| && SumsOk(before + data[..i], i, t1, t2)
    {
      t1, t2 := AddOne(t1, t2, data[i], before + data[..i], i);
      assert before + data[..i] + [data[i]] == before + data[..i + 1];
      i := i + 1;
    }
    assert before + data[..i] == before + data;
  }

  lemma Reduced(bytes: seq<Byte>, i: nat, s1: nat, s2: nat)
    requires SumsOk(bytes, i, s1, s2)
    ensures s1 % ADLER_BASE == Sum1(bytes) && s2 % ADLER_BASE == Sum2(bytes)
    ensures SumsOk(bytes, 0, s1 % ADLER_BASE, s2 % ADLER_BASE)
  {
    hide Sum1, Sum2;
    assert Twice(0) == 131040;
  }

  lemma Settled(bytes: seq<Byte>, s1: nat, s2: nat)
    requires SumsOk(bytes, 0, s1, s2)
    ensures s1 == Sum1(bytes) && s2 == Sum2(bytes)
  {
    hide Sum1, Sum2;
    assert Twice(0) == 131040;
  }

  lemma FromAdler(bytes: seq<Byte>, check: nat)
    requires check == Adler32(bytes)
    ensures SumsOk(bytes, 0, check % 65536, check / 65536)
  {
    hide Sum1, Sum2;
    assert Twice(0) == 131040;
  }

  /** The checksum over the bytes of one call, on top of the earlier ones. The
      first block may be empty; every later one has 5552 bytes. */
  method Update(check: nat, data: seq<Byte>, ghost before: seq<Byte>) returns (r: nat)
    requires check == Adler32(before)
    ensures r == Adler32(before + data)
  {
    hide SumsOk;
    var bufLen, blockLen, ptr := |data|, |data| % BLOCK, 0;
    var s1: nat, s2: nat := check % 65536, check / 65536;
    FromAdler(before, check);
    assert before + data[..0] == before;
    while bufLen > 0
      invariant ptr + bufLen == |data| && 0 <= bufLen && 0 <= ptr && 0 <= blockLen && (bufLen > 0 ==> blockLen <= bufLen)
      invariant bufLen > 0 ==> blockLen == bufLen % BLOCK || (blockLen == BLOCK && bufLen % BLOCK == 0)
      invariant SumsOk(before + data[..ptr], 0, s1, s2)
      decreases bufLen, blockLen == 0
    {
      ghost var so := before + data[..ptr];
      s1, s2 := SumBlock(s1, s2, data[ptr..ptr + blockLen], so);
      assert so + data[ptr..ptr + blockLen] == before + data[..ptr + blockLen];
      Reduced(before + data[..ptr + blockLen], blockLen, s1, s2);
      s1, s2 := s1 % ADLER_BASE, s2 % ADLER_BASE;
      BlockLeft(bufLen, blockLen);
      bufLen, ptr := bufLen - blockLen, ptr + blockLen;
      blockLen := BLOCK;
    }
    assert before + data[..ptr] == before + data;
    Settled(before + data, s1, s2);
    r := s2 * 65536 + s1;
  }

  lemma BlockLeft(n: nat, b: nat)
    requires b <= n && (b == n % BLOCK || (b == BLOCK && n % BLOCK == 0))
    ensures (n - b) % BLOCK == 0 && (n - b > 0 ==> n - b >= BLOCK)
  {
  }
}
