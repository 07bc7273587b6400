/** Writing bits: the counterpart of the readers in Bits, from section 3.1.1 of
    RFC 1951. Bits are a list; eight of them make a byte, the first one least
    significant. */
module BitWriter {
  import opened Bits
  import opened Huffman

  type Bit = b: nat | b < 2

  /** A number, least significant bit first. */
  function Number(v: nat, n: nat): (bits: seq<Bit>)
    ensures |bits| == n
    decreases n, v
  {
    if n == 0 then [] else [v % 2] + Number(v / 2, n - 1)
  }

  /** A Huffman code, most significant bit first. */
  function CodeBits(c: nat, n: nat): (bits: seq<Bit>)
    ensures |bits| == n
    decreases n, c
  {
    if n == 0 then [] else CodeBits(c / 2, n - 1) + [c % 2]
  }

  function BitOf(bits: seq<Bit>, k: nat): Bit {
    if k < |bits| then bits[k] else 0
  }

  /** The first eight bits; zeros where there are fewer. */
  function Octet(bits: seq<Bit>): Byte {
    BitOf(bits, 0) + 2 * BitOf(bits, 1) + 4 * BitOf(bits, 2) + 8 * BitOf(bits, 3) +
    16 * BitOf(bits, 4) + 32 * BitOf(bits, 5) + 64 * BitOf(bits, 6) + 128 * BitOf(bits, 7)
  }

  function Bytes(bits: seq<Bit>): (src: seq<Byte>)
    ensures |bits| <= 8 * |src| < |bits| + 8
    decreases |bits|
  {
    if |bits| == 0 then [] else [Octet(bits)] + Bytes(if |bits| > 8 then bits[8..] else [])
  }

  /** The bits of bytes. */
  function Spread(data: seq<Byte>): (bits: seq<Bit>)
    ensures |bits| == 8 * |data|
  {
    if data == [] then [] else Number(data[0], 8) + Spread(data[1..])
  }

  /** The stream has these bits from p on. */
  ghost predicate HasBits(src: seq<Byte>, p: nat, bits: seq<Bit>) {
    p + |bits| <= 8 * |src| && forall k :: 0 <= k < |bits| ==> BitAt(src, p + k) == bits[k]
  }

  lemma OctetBit(bits: seq<Bit>, d: nat)
    requires d < 8
    ensures WordBit(Octet(bits), d) == BitOf(bits, d)
  {
    hide BitOf;
    var a, b, c, e, f, g, h, i := BitOf(bits, 0), BitOf(bits, 1), BitOf(bits, 2), BitOf(bits, 3),
      BitOf(bits, 4), BitOf(bits, 5), BitOf(bits, 6), BitOf(bits, 7);
    EightBits(a, b, c, e, f, g, h, i, d);
  }

  lemma EightBits(a: Bit, b: Bit, c: Bit, e: Bit, f: Bit, g: Bit, h: Bit, i: Bit, d: nat)
    requires d < 8
    ensures WordBit(a + 2 * b + 4 * c + 8 * e + 16 * f + 32 * g + 64 * h + 128 * i, d) ==
      if d == 0 then a else if d == 1 then b else if d == 2 then c else if d == 3 then e
      else if d == 4 then f else if d == 5 then g else if d == 6 then h else i
    decreases d
  {
    hide WordBit;
    var w: nat := a + 2 * b + 4 * c + 8 * e + 16 * f + 32 * g + 64 * h + 128 * i;
    if d > 0 {
      NextBit(w, d);
      EightBits(b, c, e, f, g, h, i, 0, d - 1);
      assert w / 2 == b + 2 * c + 4 * e + 8 * f + 16 * g + 32 * h + 64 * i + 128 * 0;
    } else {
      NextBit(w, 0);
      assert w % 2 == a;
    }
  }

  lemma NextBit(w: nat, d: nat)
    ensures d == 0 ==> WordBit(w, d) == w % 2
    ensures d > 0 ==> WordBit(w, d) == WordBit(w / 2, d - 1)
  {
  }

  /** What was written is there. */
  lemma {:induction false} BytesHold(bits: seq<Bit>, p: nat)
    requires p < |bits|
    ensures BitAt(Bytes(bits), p) == bits[p]
    decreases p
  {
    hide WordBit, Octet;
    var src := Bytes(bits);
    if p < 8 {
      OctetBit(bits, p);
      assert src[0] == Octet(bits);
    } else {
      BytesHold(bits[8..], p - 8);
      assert src[p / 8] == Bytes(bits[8..])[(p - 8) / 8];
    }
  }

  lemma Written(bits: seq<Bit>)
    ensures HasBits(Bytes(bits), 0, bits)
  {
    hide BitAt, Bytes;
    forall k | 0 <= k < |bits| ensures BitAt(Bytes(bits), 0 + k) == bits[k] {
      BytesHold(bits, k);
    }
  }

  lemma Parts(src: seq<Byte>, p: nat, a: seq<Bit>, b: seq<Bit>)
    requires HasBits(src, p, a + b)
    ensures HasBits(src, p, a) && HasBits(src, p + |a|, b)
  {
    hide BitAt;
    forall k | 0 <= k < |a| ensures BitAt(src, p + k) == a[k] {
      assert (a + b)[k] == a[k];
    }
    forall k | 0 <= k < |b| ensures BitAt(src, p + |a| + k) == b[k] {
      assert (a + b)[|a| + k] == b[k] && BitAt(src, p + (|a| + k)) == (a + b)[|a| + k];
    }
  }

  /** Reading a number back. */
  lemma {:induction false} NumberRead(src: seq<Byte>, p: nat, v: nat, n: nat)
    requires HasBits(src, p, Number(v, n))
    ensures p + n <= 8 * |src| && GetBits(src, p, n) == Low(v, n)
    decreases n
  {
    hide BitAt;
    if n > 0 {
      Parts(src, p, [v % 2], Number(v / 2, n - 1));
      assert BitAt(src, p + 0) == [v % 2][0];
      NumberRead(src, p + 1, v / 2, n - 1);
    }
  }

  lemma SmallLow(v: nat, n: nat)
    requires v < Shl(1, n)
    ensures Low(v, n) == v
  {
    ShrOfShl(0, v, n);
    ShlZero(n);
  }

  /** Reading a code back. */
  lemma {:induction false} CodeRead(src: seq<Byte>, p: nat, c: nat, n: nat)
    requires HasBits(src, p, CodeBits(c, n)) && c < Shl(1, n)
    ensures p + n <= 8 * |src| && GetCode(src, p, n) == c
    decreases n
  {
    hide BitAt;
    if n > 0 {
      Parts(src, p, CodeBits(c / 2, n - 1), [c % 2]);
      assert BitAt(src, p + (n - 1) + 0) == [c % 2][0];
      CodeRead(src, p, c / 2, n - 1);
    }
  }

  /** Bytes that begin on a byte are there as such. */
  lemma {:induction false} SpreadRead(src: seq<Byte>, q: nat, data: seq<Byte>)
    requires HasBits(src, 8 * q, Spread(data))
    ensures q + |data| <= |src| && src[q..q + |data|] == data
    decreases |data|
  {
    hide BitAt, Number, GetBits, Low;
    if data != [] {
      Parts(src, 8 * q, Number(data[0], 8), Spread(data[1..]));
      NumberRead(src, 8 * q, data[0], 8);
      ByteLow(data[0]);
      GetByte(src, 8 * q);
      SpreadRead(src, q + 1, data[1..]);
      assert src[q..q + |data|] == [src[q]] + src[q + 1..q + 1 + |data[1..]|];
    }
  }

  lemma ByteLow(x: Byte)
    ensures Low(x, 8) == x
  {
    Shl8(1);
    SmallLow(x, 8);
  }

  /** The symbol that was written is the symbol that is found. */
  lemma SymbolRead(src: seq<Byte>, p: nat, lens: seq<nat>, s: nat, t: nat)
    requires Fits(lens) && LensOk(lens) && s < |lens| && 0 < lens[s]
    requires HasBits(src, p, CodeBits(Code(lens, s), lens[s]))
    ensures StreamHas(src, p, lens, s)
    ensures StreamHas(src, p, lens, t) ==> t == s
  {
    hide Fits, Code, GetCode, HasBits, CodeBits;
    CodeFits(lens, s);
    CodeRead(src, p, Code(lens, s), lens[s]);
    if StreamHas(src, p, lens, t) {
      StreamHasUnique(src, p, lens, s, t);
    }
  }
}
