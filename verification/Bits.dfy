/** Bytes, shifts and masks, the bit order of a compressed stream, and the facts
    that relate the decoder's integer bit buffer to positions in that stream. */
module Bits {

  type Byte = x: int | 0 <= x < 256

  /** w >> n */
  function Shr(w: nat, n: nat): nat
    decreases n, w
  {
    if n == 0 then w else Shr(w / 2, n - 1)
  }

  /** w << n, with no bound on the width */
  function Shl(w: nat, n: nat): nat
    decreases n, w
  {
    if n == 0 then w else 2 * Shl(w, n - 1)
  }

  /** w & ((1 << n) - 1) */
  function Low(w: nat, n: nat): nat
    decreases n, w
  {
    if n == 0 then 0 else w % 2 + 2 * Low(w / 2, n - 1)
  }

  /** (w >> d) & 1 */
  function WordBit(w: nat, d: nat): (b: nat)
    ensures b < 2
  {
    Shr(w, d) % 2
  }

  /** Bit p of the stream (section 3.1.1 of RFC 1951): bytes in order, each from
      its least significant bit. */
  function BitAt(src: seq<Byte>, p: nat): (b: nat)
    requires p < 8 * |src|
    ensures b < 2
  {
    WordBit(src[p / 8], p % 8)
  }

  /** n bits from position p as an integer, the first bit least significant. */
  function GetBits(src: seq<Byte>, p: nat, n: nat): nat
    requires p + n <= 8 * |src|
    decreases n, p
  {
    if n == 0 then 0 else BitAt(src, p) + 2 * GetBits(src, p + 1, n - 1)
  }

  /** n bits from position p as a Huffman code, the first bit most significant. */
  function GetCode(src: seq<Byte>, p: nat, n: nat): nat
    requires p + n <= 8 * |src|
    decreases n, p
  {
    if n == 0 then 0 else 2 * GetCode(src, p, n - 1) + BitAt(src, p + n - 1)
  }

  /** The low n bits of a word read as a Huffman code, bit 0 most significant;
      equally, the reversal of the low n bits of w. */
  function WordCode(w: nat, n: nat): nat
    decreases n, w
  {
    if n == 0 then 0 else 2 * WordCode(w, n - 1) + WordBit(w, n - 1)
  }

  // ---- shifts and masks

  lemma {:induction false} ShrShr(w: nat, a: nat, b: nat)
    ensures Shr(Shr(w, a), b) == Shr(w, a + b)
    decreases a
  {
    if a > 0 {
      ShrShr(w / 2, a - 1, b);
    }
  }

  lemma {:induction false} ShrHalf(w: nat, a: nat)
    ensures Shr(w, a + 1) == Shr(w, a) / 2
  {
    ShrShr(w, a, 1);
    assert Shr(Shr(w, a), 1) == Shr(Shr(w, a) / 2, 0);
  }

  lemma {:induction false} ShrMono(v: nat, w: nat, n: nat)
    requires v <= w
    ensures Shr(v, n) <= Shr(w, n)
    decreases n
  {
    if n > 0 {
      ShrMono(v / 2, w / 2, n - 1);
    }
  }

  lemma {:induction false} ShlMono(v: nat, w: nat, n: nat)
    requires v <= w
    ensures Shl(v, n) <= Shl(w, n)
    ensures v < w ==> Shl(v, n) < Shl(w, n)
    decreases n
  {
    if n > 0 {
      ShlMono(v, w, n - 1);
    }
  }

  lemma ShlCancel(v: nat, w: nat, n: nat)
    requires Shl(v, n) <= Shl(w, n)
    ensures v <= w
  {
    if w < v {
      ShlMono(w, v, n);
    }
  }

  lemma {:induction false} ShlShl(w: nat, a: nat, b: nat)
    ensures Shl(Shl(w, a), b) == Shl(w, a + b)
    decreases b
  {
    if b > 0 {
      ShlShl(w, a, b - 1);
    }
  }

  lemma {:induction false} ShlAdd(v: nat, w: nat, n: nat)
    ensures Shl(v + w, n) == Shl(v, n) + Shl(w, n)
    decreases n
  {
    if n > 0 {
      ShlAdd(v, w, n - 1);
    }
  }

  /** Shifting left and back leaves the word; shifting right is the inverse below. */
  lemma {:induction false} ShrOfShl(w: nat, x: nat, n: nat)
    requires x < Shl(1, n)
    ensures Shr(Shl(w, n) + x, n) == w && Low(Shl(w, n) + x, n) == x
    decreases n
  {
    if n > 0 {
      assert (Shl(w, n) + x) / 2 == Shl(w, n - 1) + x / 2;
      ShrOfShl(w, x / 2, n - 1);
    }
  }

  /** Every word is its high part shifted back plus its low part. */
  lemma {:induction false} ShlOfShr(w: nat, n: nat)
    ensures w == Shl(Shr(w, n), n) + Low(w, n)
    ensures Low(w, n) < Shl(1, n)
    decreases n
  {
    if n > 0 {
      ShlOfShr(w / 2, n - 1);
    }
  }

  lemma ShrZero(w: nat, n: nat)
    ensures Shr(w, n) == 0 <==> w < Shl(1, n)
  {
    ShlOfShr(w, n);
    if Shr(w, n) > 0 {
      ShlMono(1, Shr(w, n), n);
    } else {
      ShlZero(n);
    }
  }

  /** Comparing high parts. */
  lemma ShrBounds(c: nat, v: nat, n: nat)
    ensures Shl(v, n) <= c ==> v <= Shr(c, n)
    ensures c < Shl(v, n) ==> Shr(c, n) < v
  {
    var h := Shr(c, n);
    ShlOfShr(c, n);
    ShlAdd(h, 1, n);
    if h + 1 <= v {
      ShlMono(h + 1, v, n);
    } else {
      ShlMono(v, h, n);
    }
  }

  lemma {:induction false} ShlZero(n: nat)
    ensures Shl(0, n) == 0
    decreases n
  {
    if n > 0 {
      ShlZero(n - 1);
    }
  }

  lemma {:induction false} LowTop(w: nat, n: nat)
    ensures Low(w, n + 1) == Shl(WordBit(w, n), n) + Low(w, n)
    decreases n
  {
    if n > 0 {
      LowTop(w / 2, n - 1);
    } else {
      assert Low(w / 2, 0) == 0;
    }
  }

  lemma {:induction false} WordBitLow(w: nat, k: nat, d: nat)
    requires d < k
    ensures WordBit(Low(w, k), d) == WordBit(w, d)
    decreases d
  {
    assert Low(w, k) / 2 == Low(w / 2, k - 1);
    if d > 0 {
      WordBitLow(w / 2, k - 1, d - 1);
    }
  }

  // ---- the bit buffer

  lemma {:induction false} GetBitsBound(src: seq<Byte>, p: nat, n: nat)
    requires p + n <= 8 * |src|
    ensures GetBits(src, p, n) < Shl(1, n)
    decreases n
  {
    if n > 0 {
      GetBitsBound(src, p + 1, n - 1);
    }
  }

  lemma GetBitsHead(src: seq<Byte>, p: nat, n: nat)
    requires 0 < n && p + n <= 8 * |src|
    ensures GetBits(src, p, n) % 2 == BitAt(src, p)
    ensures GetBits(src, p, n) / 2 == GetBits(src, p + 1, n - 1)
  {
    var b, g := BitAt(src, p), GetBits(src, p + 1, n - 1);
    assert GetBits(src, p, n) == b + 2 * g;
  }

  /** Taking a bits off a buffer that holds n bits: mask and shift. */
  lemma {:induction false} TakeBits(src: seq<Byte>, p: nat, n: nat, a: nat)
    requires a <= n && p + n <= 8 * |src|
    ensures Low(GetBits(src, p, n), a) == GetBits(src, p, a)
    ensures Shr(GetBits(src, p, n), a) == GetBits(src, p + a, n - a)
    decreases a
  {
    if a > 0 {
      GetBitsHead(src, p, n);
      TakeBits(src, p + 1, n - 1, a - 1);
    }
  }

  lemma {:induction false} GetBitsSplit(src: seq<Byte>, p: nat, a: nat, b: nat)
    requires p + a + b <= 8 * |src|
    ensures GetBits(src, p, a + b) == GetBits(src, p, a) + Shl(GetBits(src, p + a, b), a)
    decreases a
  {
    if a > 0 {
      GetBitsSplit(src, p + 1, a - 1, b);
    }
  }

  lemma ByteTop(x: Byte)
    ensures Shr(x, 8) == 0
  {
    ShrZero(x, 8);
    assert Shl(1, 4) == 16;
    assert Shl(1, 8) == 256;
  }

  /** The last n bits of a byte. */
  lemma {:induction false} BitsOfByte(src: seq<Byte>, p: nat, n: nat, x: Byte)
    requires n <= 8 && p + n <= 8 * |src| && 8 * (p / 8) == p - p % 8
    requires n > 0 ==> p % 8 == 8 - n && src[p / 8] == x
    ensures GetBits(src, p, n) == Shr(x, 8 - n)
    decreases n
  {
    if n == 0 {
      ByteTop(x);
    } else {
      BitsOfByte(src, p + 1, n - 1, x);
      ShrHalf(x, 8 - n);
      assert BitAt(src, p) == WordBit(x, 8 - n);
    }
  }

  lemma GetByte(src: seq<Byte>, p: nat)
    requires p % 8 == 0 && p + 8 <= 8 * |src|
    ensures GetBits(src, p, 8) == src[p / 8]
  {
    BitsOfByte(src, p, 8, src[p / 8]);
    assert Shr(src[p / 8], 0) == src[p / 8];
  }

  /** Adding the next whole byte above the n buffered bits. */
  lemma AddByte(src: seq<Byte>, p: nat, n: nat)
    requires (p + n) % 8 == 0 && p + n + 8 <= 8 * |src|
    ensures GetBits(src, p, n + 8) == GetBits(src, p, n) + Shl(src[(p + n) / 8], n)
  {
    GetBitsSplit(src, p, n, 8);
    GetByte(src, p + n);
  }

  /** Two bytes, the low one first. */
  function Word16(a: nat, b: nat): nat { a + 256 * b }

  lemma Shl8(w: nat)
    ensures Shl(w, 8) == 256 * w
  {
    assert Shl(w, 1) == 2 * Shl(w, 0) && Shl(w, 2) == 2 * Shl(w, 1) && Shl(w, 3) == 2 * Shl(w, 2);
    assert Shl(w, 4) == 2 * Shl(w, 3) && Shl(w, 5) == 2 * Shl(w, 4) && Shl(w, 6) == 2 * Shl(w, 5);
    assert Shl(w, 7) == 2 * Shl(w, 6) && Shl(w, 8) == 2 * Shl(w, 7);
  }

  lemma TwoBytes(src: seq<Byte>, p: nat)
    requires p % 8 == 0 && p + 16 <= 8 * |src|
    ensures GetBits(src, p, 16) == Word16(src[p / 8], src[p / 8 + 1])
  {
    AddByte(src, p, 8);
    GetByte(src, p);
    Shl8(src[p / 8 + 1]);
  }

  /** A buffered bit is the stream's bit. */
  lemma WordBitIs(src: seq<Byte>, p: nat, n: nat, d: nat)
    requires d < n && p + n <= 8 * |src|
    ensures WordBit(GetBits(src, p, n), d) == BitAt(src, p + d)
  {
    TakeBits(src, p, n, d);
    GetBitsHead(src, p + d, n - d);
  }

  lemma {:induction false} WordCodeIs(src: seq<Byte>, p: nat, n: nat, l: nat)
    requires l <= n && p + n <= 8 * |src|
    ensures WordCode(GetBits(src, p, n), l) == GetCode(src, p, l)
    decreases l
  {
    hide BitAt, WordBit, GetBits;
    if l > 0 {
      WordCodeIs(src, p, n, l - 1);
      WordBitIs(src, p, n, l - 1);
    }
  }

  // ---- bit reversal

  lemma {:induction false} WordCodeBound(w: nat, l: nat)
    ensures WordCode(w, l) < Shl(1, l)
    decreases l
  {
    if l > 0 {
      WordCodeBound(w, l - 1);
    }
  }

  /** A code's leading bits are the code of fewer bits. */
  lemma {:induction false} WordCodePrefix(w: nat, a: nat, b: nat)
    ensures Shr(WordCode(w, a + b), b) == WordCode(w, a)
    decreases b
  {
    if b > 0 {
      WordCodePrefix(w, a, b - 1);
      assert WordCode(w, a + b) / 2 == WordCode(w, a + b - 1);
    }
  }

  /** Peeling the first bit instead of the last. */
  lemma {:induction false} WordCodeHead(w: nat, l: nat)
    ensures WordCode(w, l + 1) == Shl(w % 2, l) + WordCode(w / 2, l)
    decreases l
  {
    if l > 0 {
      WordCodeHead(w, l - 1);
    } else {
      assert WordCode(w, 0) == WordCode(w / 2, 0) == 0;
    }
  }

  /** Reversal is an involution: reading the reversed code gives the bits back. */
  lemma {:induction false} WordCodeInvolutive(w: nat, l: nat)
    ensures WordCode(WordCode(w, l), l) == Low(w, l)
    decreases l
  {
    if l > 0 {
      var y := WordCode(w, l);
      WordCodeHead(y, l - 1);
      assert y % 2 == WordBit(w, l - 1) && y / 2 == WordCode(w, l - 1);
      WordCodeInvolutive(w, l - 1);
      LowTop(w, l - 1);
    }
  }

  /** Only the low bits matter. */
  lemma {:induction false} WordCodeLow(w: nat, k: nat, l: nat)
    requires l <= k
    ensures WordCode(Low(w, k), l) == WordCode(w, l)
    decreases l
  {
    if l > 0 {
      WordCodeLow(w, k, l - 1);
      WordBitLow(w, k, l - 1);
    }
  }

  /** A word starts with code c of length l exactly when its low bits are c reversed. */
  lemma MatchIffReversed(w: nat, c: nat, l: nat)
    requires c < Shl(1, l)
    ensures WordCode(w, l) == c <==> Low(w, l) == WordCode(c, l)
  {
    WordCodeInvolutive(w, l);
    WordCodeInvolutive(c, l);
    WordCodeLow(w, l, l);
    ShrOfShl(0, c, l);
    ShlZero(l);
  }
}
