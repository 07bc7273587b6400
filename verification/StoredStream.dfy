/** Streams the reference decoder is sure to decode: any data, stored as it is in
    blocks (section 3.2.4 of RFC 1951); and the fixed codes are complete ones. */
module StoredStream {
  import opened Bits
  import opened Huffman
  import opened Rfc1951

  const MAX_STORED: nat := 65535

  function Size(data: seq<Byte>): nat {
    if |data| <= MAX_STORED then |data| else MAX_STORED
  }

  /** The header of a stored block, on its own byte, with its length and the
      complement of it. */
  function Header(n: nat, last: bool): (h: seq<Byte>)
    requires n <= MAX_STORED
    ensures |h| == 5
  {
    [if last then 1 else 0, n % 256, n / 256, 255 - n % 256, 255 - n / 256]
  }

  /** Data in stored blocks. */
  function Pack(data: seq<Byte>): seq<Byte>
    decreases |data|
  {
    var n := Size(data);
    Header(n, n == |data|) + data[..n] + if n == |data| then [] else Pack(data[n..])
  }

  /** A byte that is 0 or 1 gives that bit, and zeros. */
  lemma FirstByte(src: seq<Byte>, q: nat)
    requires q < |src| && src[q] <= 1
    ensures BitAt(src, 8 * q) == src[q] && GetBits(src, 8 * q + 1, 2) == 0
  {
    hide GetBits, BitAt, Low;
    var p := 8 * q;
    GetByte(src, p);
    GetBitsHead(src, p, 8);
    TakeBits(src, p + 1, 7, 2);
    LowOfZero();
  }

  lemma LowOfZero()
    ensures Low(0, 2) == 0
  {
  }

  lemma OneBlock(src: seq<Byte>, q: nat, n: nat, last: bool, out: seq<Byte>)
    requires n <= MAX_STORED && q + 5 + n <= |src| && src[q..q + 5] == Header(n, last)
    ensures BitAt(src, 8 * q) == (if last then 1 else 0) && GetBits(src, 8 * q + 1, 2) == 0
    ensures Block(src, 8 * q + 3, 0, out) == Next(8 * (q + 5 + n), out + src[q + 5..q + 5 + n])
  {
    hide GetBits, BitAt;
    var h := src[q..q + 5];
    assert src[q] == h[0] && src[q + 1] == h[1] && src[q + 2] == h[2] && src[q + 3] == h[3] && src[q + 4] == h[4];
    FirstByte(src, q);
    assert Align(8 * q + 3) == 8 * (q + 1);
    TwoBytes(src, 8 * (q + 1));
    TwoBytes(src, 8 * (q + 1) + 16);
    assert (8 * (q + 1) + 16) / 8 == q + 3;
  }

  /** Decoding what was packed gives the data. */
  lemma {:induction false} PackedInflates(src: seq<Byte>, q: nat, data: seq<Byte>, out: seq<Byte>)
    requires q + |Pack(data)| <= |src| && src[q..q + |Pack(data)|] == Pack(data)
    ensures Blocks(src, 8 * q, out) == Done(out + data, 8 * (q + |Pack(data)|))
    decreases |data|
  {
    hide GetBits, BitAt, Block, Header;
    var n := Size(data);
    var last := n == |data|;
    var rest: seq<Byte> := if last then [] else Pack(data[n..]);
    Pieces(src, q, Header(n, last), data[..n], rest);
    OneBlock(src, q, n, last, out);
    if last {
      assert data[..n] == data;
    } else {
      PackedInflates(src, q + 5 + n, data[n..], out + data[..n]);
      assert out + data[..n] + data[n..] == out + data;
    }
  }

  lemma Pieces(src: seq<Byte>, q: nat, a: seq<Byte>, b: seq<Byte>, c: seq<Byte>)
    requires q + |a + b + c| <= |src| && src[q..q + |a + b + c|] == a + b + c
    ensures src[q..q + |a|] == a && src[q + |a|..q + |a| + |b|] == b && src[q + |a| + |b|..q + |a| + |b| + |c|] == c
  {
    var t := a + b + c;
    Part(src, q, t, 0, a);
    Part(src, q, t, |a|, b);
    Part(src, q, t, |a| + |b|, c);
  }

  lemma Part(src: seq<Byte>, q: nat, t: seq<Byte>, i: nat, s: seq<Byte>)
    requires q + |t| <= |src| && src[q..q + |t|] == t && i + |s| <= |t| && t[i..i + |s|] == s
    ensures src[q + i..q + i + |s|] == s
  {
    forall k | 0 <= k < |s| ensures src[q + i + k] == s[k] {
      assert src[q..q + |t|][i + k] == t[i..i + |s|][k];
    }
  }

  /** Every string of bytes is what some stream decodes to. */
  lemma AnyDataHasAStream(data: seq<Byte>)
    ensures Inflate(Pack(data)) == Done(data, 8 * |Pack(data)|)
  {
    hide Blocks, Pack;
    var p := Pack(data);
    assert p[0..|p|] == p;
    PackedInflates(p, 0, data, []);
    assert [] + data == data;
  }

  // ---- the fixed codes

  function Clamp(k: int, n: int): int { if k < 0 then 0 else if k > n then n else k }

  lemma {:induction false} FixedCount(k: nat, l: nat)
    requires k <= 288
    ensures CountTo(FixedLit(), k, l) ==
      if l == 7 then Clamp(k - 256, 24) else if l == 8 then Clamp(k, 144) + Clamp(k - 280, 8) else if l == 9 then Clamp(k - 144, 112) else 0
  {
    if k > 0 {
      FixedCount(k - 1, l);
    }
  }

  lemma {:induction false} FixedDistCount(k: nat, l: nat)
    requires k <= 32
    ensures CountTo(FixedDist(), k, l) == if l == 5 then k else 0
  {
    if k > 0 {
      FixedDistCount(k - 1, l);
    }
  }

  lemma {:induction false} Doubles(lens: seq<nat>, l: nat, m: nat)
    requires 1 <= l <= m && forall i :: l <= i < m ==> Count(lens, i) == 0
    ensures FirstCode(lens, m) == Shl(FirstCode(lens, l), m - l)
    decreases m
  {
    hide Count;
    if l < m {
      Doubles(lens, l, m - 1);
      NextFirst(lens, m - 1);
      ShlShl(FirstCode(lens, l), m - 1 - l, 1);
    }
  }

  lemma Sixteen(w: nat, n: nat)
    requires (w == 1024 && n == 6) || (w == 64 && n == 10)
    ensures Shl(w, n) == 65536
  {
    var m := if w == 64 then 1024 else w;
    assert w == 64 ==> Shl(64, 4) == 1024;
    ShlShl(w, n - 6, 6);
    assert Shl(1024, 6) == 65536;
  }

  lemma FixedCounts(l: nat)
    ensures Count(FixedLit(), l) == if l == 7 then 24 else if l == 8 then 152 else if l == 9 then 112 else 0
    ensures Count(FixedDist(), l) == if l == 5 then 32 else 0
  {
    hide CountTo;
    FixedCount(288, l);
    FixedDistCount(32, l);
  }

  /** The fixed codes are complete, so a block with fixed codes is never refused. */
  lemma FixedAcceptable()
    ensures Acceptable(FixedLit()) && Acceptable(FixedDist())
  {
    hide FixedLit, FixedDist, Shl, CountTo, Count, FirstCode, UsedTo;
    var lit, dst := FixedLit(), FixedDist();
    forall l: nat
      ensures Count(lit, l) == if l == 7 then 24 else if l == 8 then 152 else if l == 9 then 112 else 0
      ensures Count(dst, l) == if l == 5 then 32 else 0
    {
      FixedCounts(l);
    }
    NextFirst(lit, 1);
    NextFirst(dst, 1);
    ShlZero(6);
    ShlZero(4);
    Doubles(lit, 1, 7);
    NextFirst(lit, 7);
    NextFirst(lit, 8);
    NextFirst(lit, 9);
    Doubles(lit, 10, 16);
    Sixteen(1024, 6);
    Doubles(dst, 1, 5);
    NextFirst(dst, 5);
    Doubles(dst, 6, 16);
    Sixteen(64, 10);
  }
}
