/** Writing deflate streams, from section 3.2 of RFC 1951 and by arithmetic
    where the reader uses tables; and the law that ties both: whatever is written,
    by blocks of any kind in any order, decodes to what it says. */
module DeflateWriter {
  import opened Bits
  import opened BitWriter
  import opened Huffman
  import opened Rfc1951
  import opened StoredStream

  datatype Token = Literal(b: Byte) | Match(len: nat, dist: nat)

  /** The tokens spell data[from..to]: a match repeats the bytes dist back. */
  ghost predicate Spell(tokens: seq<Token>, data: seq<Byte>, from: nat, to: nat)
    requires to <= |data|
    decreases |tokens|
  {
    if tokens == [] then from == to
    else
      match tokens[0]
      case Literal(b) => from < to && data[from] == b && Spell(tokens[1..], data, from + 1, to)
      case Match(len, dist) =>
        && 3 <= len <= 258 && 1 <= dist <= 32768 && dist <= from && from + len <= to
        && Repeats(data, from, len, dist) && Spell(tokens[1..], data, from + len, to)
  }

  ghost predicate Repeats(data: seq<Byte>, from: nat, len: nat, dist: nat)
    requires dist <= from && from + len <= |data|
  {
    forall k :: from <= k < from + len ==> data[k] == data[k - dist]
  }

  // ---- lengths and distances (section 3.2.5)

  /** How often v must be halved to be below 2^k. */
  function Halvings(v: nat, bound: nat): (e: nat)
    requires bound > 0
  {
    if v < bound then 0 else 1 + Halvings(v / 2, bound)
  }

  /** Symbols come in fours with the same number of extra bits, from eight lengths
      without any on; the longest match has a symbol of its own. */
  function LengthBits(len: nat): nat
    requires 3 <= len
  {
    if len == 258 then 0 else Halvings(len - 3, 8)
  }

  function LengthSymbol(len: nat): nat
    requires 3 <= len
  {
    if len == 258 then 285 else 257 + 4 * LengthBits(len) + Shr(len - 3, LengthBits(len))
  }

  /** Symbols come in pairs, from four distances without extra bits on. */
  function DistBits(dist: nat): nat
    requires 1 <= dist
  {
    Halvings(dist - 1, 4)
  }

  function DistSymbol(dist: nat): nat
    requires 1 <= dist
  {
    2 * DistBits(dist) + Shr(dist - 1, DistBits(dist))
  }

  lemma {:induction false} HalvingsAre(v: nat, bound: nat, e: nat)
    requires bound >= 2 && bound % 2 == 0 && v < Shl(bound, e)
    ensures Halvings(v, bound) <= e
    ensures Halvings(v, bound) == 0 <==> v < bound
    ensures Halvings(v, bound) > 0 ==> bound / 2 <= Shr(v, Halvings(v, bound)) < bound
    ensures Halvings(v, bound) == 0 ==> Shr(v, 0) == v < bound
    decreases e
  {
    if v >= bound {
      assert e > 0;
      HalvingsAre(v / 2, bound, e - 1);
      if v / 2 < bound {
        assert Shr(v, 1) == Shr(v / 2, 0);
      }
    }
  }

  lemma Powers(t: nat)
    ensures Shl(t, 0) == 1 * t && Shl(t, 1) == 2 * t && Shl(t, 2) == 4 * t && Shl(t, 3) == 8 * t
    ensures Shl(t, 4) == 16 * t && Shl(t, 5) == 32 * t && Shl(t, 6) == 64 * t
    ensures Shl(t, 7) == 128 * t && Shl(t, 8) == 256 * t && Shl(t, 9) == 512 * t && Shl(t, 10) == 1024 * t
    ensures Shl(t, 11) == 2048 * t && Shl(t, 12) == 4096 * t && Shl(t, 13) == 8192 * t
  {
    Shl8(t);
    ShlNext(t, 0);
    ShlNext(t, 2);
    ShlNext(t, 4);
    ShlNext(t, 8);
    ShlNext(t, 10);
    ShlNext(t, 12);
  }

  lemma ShlNext(t: nat, n: nat)
    ensures Shl(t, 0) == t && Shl(t, n + 1) == 2 * Shl(t, n) && Shl(t, n + 2) == 4 * Shl(t, n)
  {
  }

  /** The lengths that the symbols stand for follow on one another without gaps. */
  lemma LengthStep(s: nat)
    requires 257 <= s < 284
    ensures LengthBase(257) == 3 && LengthBase(285) == 258 && LengthExtra(285) == 0
    ensures LengthBase(s + 1) == LengthBase(s) + Shl(1, LengthExtra(s))
    ensures LengthExtra(s) == if s < 265 then 0 else (s - 261) / 4
  {
    hide Shl;
    Powers(1);
    LengthGap(s);
    LengthWidth(s);
  }

  lemma LengthGap(s: nat)
    requires 257 <= s < 284
    ensures LengthBase(s + 1) - LengthBase(s) ==
      if s < 265 then 1 else if s < 269 then 2 else if s < 273 then 4 else if s < 277 then 8 else if s < 281 then 16 else 32
  {
  }

  lemma LengthWidth(s: nat)
    requires 257 <= s <= 284
    ensures LengthExtra(s) == if s < 265 then 0 else (s - 261) / 4
  {
  }

  lemma DistStep(s: nat)
    requires s < 29
    ensures DistBase(0) == 1 && DistBase(29) + Shl(1, DistExtra(29)) == 32769
    ensures DistBase(s + 1) == DistBase(s) + Shl(1, DistExtra(s))
    ensures DistExtra(s) == if s < 4 then 0 else (s - 2) / 2
  {
    hide Shl;
    Powers(1);
    DistGap(s);
    DistWidth(s);
  }

  lemma DistGap(s: nat)
    requires s < 29
    ensures DistBase(s + 1) - DistBase(s) ==
      if s < 4 then 1 else if s < 6 then 2 else if s < 8 then 4 else if s < 10 then 8 else if s < 12 then 16
      else if s < 14 then 32 else if s < 16 then 64 else if s < 18 then 128 else if s < 20 then 256
      else if s < 22 then 512 else if s < 24 then 1024 else if s < 26 then 2048 else if s < 28 then 4096 else 8192
  {
  }

  lemma DistWidth(s: nat)
    requires s <= 29
    ensures DistExtra(s) == if s < 4 then 0 else (s - 2) / 2
  {
  }

  /** Eight lengths without extra bits, and then four symbols for every number of
      them: where they start. */
  lemma {:induction false} LengthRow(e: nat, t: nat)
    requires (e == 0 && t < 8) || (1 <= e <= 5 && 4 <= t < 8)
    requires 257 + 4 * e + t < 285
    ensures LengthBase(257 + 4 * e + t) == 3 + Shl(t, e) && LengthExtra(257 + 4 * e + t) == e
    decreases e, t
  {
    hide Shl, LengthBase, LengthExtra;
    var s := 257 + 4 * e + t;
    LengthWidth(s);
    ShlStep(t, e);
    if s == 257 {
      LengthStep(s);
    } else {
      LengthStep(s - 1);
      if e > 0 && t == 4 {
        LengthRow(e - 1, 7);
        ShlStep(8, e - 1);
        ShlShl(4, 1, e - 1);
        ShlStep(4, 0);
      } else {
        LengthRow(e, t - 1);
      }
    }
  }

  lemma {:induction false} DistRow(e: nat, t: nat)
    requires (e == 0 && t < 4) || (1 <= e <= 13 && 2 <= t < 4)
    ensures DistBase(2 * e + t) == 1 + Shl(t, e) && DistExtra(2 * e + t) == e
    decreases e, t
  {
    hide Shl, DistBase, DistExtra;
    var s := 2 * e + t;
    DistWidth(s);
    ShlStep(t, e);
    if s == 0 {
      DistStep(s);
    } else {
      DistStep(s - 1);
      if e > 0 && t == 2 {
        DistRow(e - 1, 3);
        ShlStep(4, e - 1);
        ShlShl(2, 1, e - 1);
        ShlStep(2, 0);
      } else {
        DistRow(e, t - 1);
      }
    }
  }

  /** One more times a power of two. */
  lemma ShlStep(t: nat, e: nat)
    ensures t > 0 ==> Shl(t, e) == Shl(t - 1, e) + Shl(1, e)
    ensures t == 0 ==> Shl(t, e) == 0
    ensures e == 0 ==> Shl(t, e) == t && Shl(t, e + 1) == 2 * t
  {
    ShlZero(e);
    if t > 0 {
      ShlAdd(t - 1, 1, e);
    }
  }

  /** The symbol and the extra bits written for a length stand for it. */
  lemma LengthIs(len: nat)
    requires 3 <= len <= 258
    ensures 257 <= LengthSymbol(len) <= 285 && LengthExtra(LengthSymbol(len)) == LengthBits(len)
    ensures LengthBase(LengthSymbol(len)) + Low(len - 3, LengthBits(len)) == len
  {
    hide Shl, Shr, Low, Halvings;
    var v := len - 3;
    if len < 258 {
      Powers(8);
      HalvingsAre(v, 8, 5);
      var e := Halvings(v, 8);
      ShlOfShr(v, e);
      LowNone(v);
      if e == 5 && Shr(v, e) == 7 {
        Powers(7);
      }
      LengthRow(e, Shr(v, e));
    } else {
      LowNone(v);
      Longest();
    }
  }

  lemma Longest()
    ensures LengthBase(285) == 258 && LengthExtra(285) == 0
  {
  }

  lemma LowNone(v: nat)
    ensures Low(v, 0) == 0 && Shr(v, 0) == v
  {
  }

  lemma DistIs(dist: nat)
    requires 1 <= dist <= 32768
    ensures DistSymbol(dist) <= 29 && DistExtra(DistSymbol(dist)) == DistBits(dist)
    ensures DistBase(DistSymbol(dist)) + Low(dist - 1, DistBits(dist)) == dist
  {
    hide Shl, Shr, Low, Halvings;
    var v := dist - 1;
    Powers(4);
    HalvingsAre(v, 4, 13);
    var e := Halvings(v, 4);
    ShlOfShr(v, e);
    DistRow(e, Shr(v, e));
  }

  // ---- codes

  /** The fixed codes, or two codes given by their lengths. */
  datatype Codes = FixedCodes | Given(lit: seq<nat>, dst: seq<nat>)

  /** The table of section 3.2.6: 00110000 to 10111111, 110010000 to 111111111,
      0000000 to 0010111, 11000000 to 11000111. */
  function FixedLitBits(s: nat): seq<Bit> {
    if s <= 143 then CodeBits(0x30 + s, 8)
    else if s <= 255 then CodeBits(0x190 + s - 144, 9)
    else if s <= 279 then CodeBits(s - 256, 7)
    else CodeBits(0xC0 + s - 280, 8)
  }

  /** A symbol in the canonical code of these lengths. */
  function SymBits(lens: seq<nat>, s: nat): seq<Bit> {
    if s < |lens| then CodeBits(Code(lens, s), lens[s]) else []
  }

  function LitBits(c: Codes, s: nat): seq<Bit> {
    match c
    case FixedCodes => FixedLitBits(s)
    case Given(lit, _) => SymBits(lit, s)
  }

  function DstBits(c: Codes, s: nat): seq<Bit> {
    match c
    case FixedCodes => CodeBits(s, 5)
    case Given(_, dst) => SymBits(dst, s)
  }

  function LitLens(c: Codes): seq<nat> {
    match c
    case FixedCodes => FixedLit()
    case Given(lit, _) => lit
  }

  function DstLens(c: Codes): seq<nat> {
    match c
    case FixedCodes => FixedDist()
    case Given(_, dst) => dst
  }

  ghost predicate CodesOk(c: Codes) {
    && Acceptable(LitLens(c)) && Acceptable(DstLens(c)) && LensOk(LitLens(c)) && LensOk(DstLens(c))
  }

  /** There is a code for the symbol. */
  predicate InCode(lens: seq<nat>, s: nat) { s < |lens| && lens[s] > 0 }

  lemma FixedOk()
    ensures CodesOk(FixedCodes)
  {
    hide Acceptable, FirstCode, UsedTo;
    FixedAcceptable();
    FixedSizes();
  }

  lemma FixedSizes()
    ensures |FixedLit()| == 288 && |FixedDist()| == 32 && LensOk(FixedLit()) && LensOk(FixedDist())
  {
  }

  /** The canonical codes of the fixed lengths are those of the table. */
  lemma FixedLitIs(s: nat)
    requires s < 288
    ensures InCode(FixedLit(), s) && SymBits(FixedLit(), s) == FixedLitBits(s)
  {
    hide CodeBits, CountTo, Count, FirstCode;
    var lit := FixedLit();
    FixedFirst();
    FixedCount(s, lit[s]);
  }

  lemma FixedFirst()
    ensures FirstCode(FixedLit(), 7) == 0 && FirstCode(FixedLit(), 8) == 0x30 && FirstCode(FixedLit(), 9) == 0x190
    ensures FirstCode(FixedDist(), 5) == 0
  {
    hide FixedLit, FixedDist, Shl, CountTo, Count, FirstCode, UsedTo;
    var lit, dst := FixedLit(), FixedDist();
    forall l: nat
      ensures Count(lit, l) == if l == 7 then 24 else if l == 8 then 152 else if l == 9 then 112 else 0
      ensures Count(dst, l) == if l == 5 then 32 else 0
    {
      FixedCounts(l);
    }
    NextFirst(lit, 1);
    NextFirst(dst, 1);
    ShlZero(6);
    ShlZero(4);
    Doubles(lit, 1, 7);
    Doubles(dst, 1, 5);
    NextFirst(lit, 7);
    NextFirst(lit, 8);
  }

  lemma FixedDistIs(s: nat)
    requires s < 32
    ensures InCode(FixedDist(), s) && SymBits(FixedDist(), s) == CodeBits(s, 5)
  {
    hide CodeBits, CountTo, Count, FirstCode;
    FixedFirst();
    FixedDistCount(s, 5);
  }

  lemma LitIs(c: Codes, s: nat)
    requires InCode(LitLens(c), s)
    ensures LitBits(c, s) == SymBits(LitLens(c), s)
  {
    hide FixedLitBits, SymBits, FixedLit;
    FixedSizes();
    if c.FixedCodes? {
      FixedLitIs(s);
    }
  }

  lemma DstIs(c: Codes, s: nat)
    requires InCode(DstLens(c), s)
    ensures DstBits(c, s) == SymBits(DstLens(c), s)
  {
    hide CodeBits, SymBits, FixedDist;
    FixedSizes();
    if c.FixedCodes? {
      FixedDistIs(s);
    }
  }

  // ---- tokens

  function TokenBits(c: Codes, t: Token): seq<Bit> {
    match t
    case Literal(b) => LitBits(c, b)
    case Match(len, dist) => if len < 3 || dist < 1 then [] else LengthPartBits(c, len) + DistPartBits(c, dist)
  }

  function LengthPartBits(c: Codes, len: nat): seq<Bit>
    requires 3 <= len
  {
    LitBits(c, LengthSymbol(len)) + Number(len - 3, LengthBits(len))
  }

  function DistPartBits(c: Codes, dist: nat): seq<Bit>
    requires 1 <= dist
  {
    DstBits(c, DistSymbol(dist)) + Number(dist - 1, DistBits(dist))
  }

  /** All tokens, and the end of the block. */
  function BodyBits(c: Codes, tokens: seq<Token>): seq<Bit> {
    if tokens == [] then LitBits(c, 256) else TokenBits(c, tokens[0]) + BodyBits(c, tokens[1..])
  }

  predicate Covers(c: Codes, t: Token) {
    match t
    case Literal(b) => InCode(LitLens(c), b)
    case Match(len, dist) =>
      3 <= len && 1 <= dist && InCode(LitLens(c), LengthSymbol(len)) && InCode(DstLens(c), DistSymbol(dist))
  }

  /** Every symbol that is needed has a code. */
  predicate CoversAll(c: Codes, tokens: seq<Token>) {
    InCode(LitLens(c), 256) && forall i :: 0 <= i < |tokens| ==> Covers(c, tokens[i])
  }

  // ---- reading them back

  lemma SymRead(src: seq<Byte>, p: nat, lens: seq<nat>, s: nat)
    requires Acceptable(lens) && LensOk(lens) && InCode(lens, s) && HasBits(src, p, SymBits(lens, s))
    ensures HasSym(src, p, lens) && Sym(src, p, lens) == s && |SymBits(lens, s)| == lens[s]
    ensures p + lens[s] <= 8 * |src|
  {
    hide HasBits, StreamHas, Acceptable, LensOk;
    AcceptableFits(lens);
    SymbolRead(src, p, lens, s, s);
    SymbolRead(src, p, lens, s, Sym(src, p, lens));
    assert p + lens[s] <= 8 * |src| by { StreamInside(src, p, lens, s); }
  }

  lemma StreamInside(src: seq<Byte>, p: nat, lens: seq<nat>, s: nat)
    requires StreamHas(src, p, lens, s)
    ensures p + lens[s] <= 8 * |src|
  {
  }

  lemma LitRead(src: seq<Byte>, p: nat, c: Codes, s: nat)
    requires CodesOk(c) && InCode(LitLens(c), s) && HasBits(src, p, LitBits(c, s))
    ensures HasSym(src, p, LitLens(c)) && Sym(src, p, LitLens(c)) == s && LitLens(c)[s] == |LitBits(c, s)|
    ensures p + |LitBits(c, s)| <= 8 * |src|
  {
    hide HasBits, StreamHas, Acceptable, LensOk, SymBits, LitBits, LitLens, HasSym, Sym;
    LitIs(c, s);
    SymRead(src, p, LitLens(c), s);
  }

  lemma DstRead(src: seq<Byte>, p: nat, c: Codes, s: nat)
    requires CodesOk(c) && InCode(DstLens(c), s) && HasBits(src, p, DstBits(c, s))
    ensures HasSym(src, p, DstLens(c)) && Sym(src, p, DstLens(c)) == s && DstLens(c)[s] == |DstBits(c, s)|
    ensures p + |DstBits(c, s)| <= 8 * |src|
  {
    hide HasBits, StreamHas, Acceptable, LensOk, SymBits, DstBits, DstLens, HasSym, Sym;
    DstIs(c, s);
    SymRead(src, p, DstLens(c), s);
  }

  /** The bytes that a match adds are those it repeats. */
  lemma {:induction false} CopyIs(data: seq<Byte>, from: nat, len: nat, dist: nat)
    requires 1 <= dist <= from && from + len <= |data| && Repeats(data, from, len, dist)
    ensures CopyMatch(data[..from], dist, len) == data[..from + len]
    decreases len
  {
    if len > 0 {
      var o := data[..from];
      assert data[from] == o[|o| - dist];
      assert o + [o[|o| - dist]] == data[..from + 1];
      CopyIs(data, from + 1, len - 1, dist);
    }
  }

  lemma LengthRead(src: seq<Byte>, p: nat, out: seq<Byte>, c: Codes, len: nat)
    requires p <= 8 * |src| && CodesOk(c) && 3 <= len <= 258 && InCode(LitLens(c), LengthSymbol(len))
    requires HasBits(src, p, LengthPartBits(c, len))
    ensures p + |LengthPartBits(c, len)| <= 8 * |src|
    ensures Symbols(src, p, out, LitLens(c), DstLens(c)) ==
      DistPart(src, p + |LengthPartBits(c, len)|, out, LitLens(c), DstLens(c), len)
  {
    hide HasBits, CodesOk, LitBits, LitLens, DstLens, HasSym, Sym, DistPart, LengthSymbol, LengthBits, Number, Low, GetBits,
      LengthBase, LengthExtra;
    var s, e := LengthSymbol(len), LengthBits(len);
    Parts(src, p, LitBits(c, s), Number(len - 3, e));
    LitRead(src, p, c, s);
    NumberRead(src, p + |LitBits(c, s)|, len - 3, e);
    LengthIs(len);
  }

  lemma DistRead(src: seq<Byte>, p: nat, out: seq<Byte>, c: Codes, len: nat, dist: nat)
    requires p <= 8 * |src| && CodesOk(c) && 1 <= dist <= 32768 && dist <= |out| && InCode(DstLens(c), DistSymbol(dist))
    requires HasBits(src, p, DistPartBits(c, dist))
    ensures p + |DistPartBits(c, dist)| <= 8 * |src|
    ensures DistPart(src, p, out, LitLens(c), DstLens(c), len) ==
      Symbols(src, p + |DistPartBits(c, dist)|, CopyMatch(out, dist, len), LitLens(c), DstLens(c))
  {
    hide HasBits, CodesOk, DstBits, LitLens, DstLens, HasSym, Sym, Symbols, DistSymbol, DistBits, Number, Low, GetBits,
      DistBase, DistExtra, CopyMatch;
    var s, e := DistSymbol(dist), DistBits(dist);
    Parts(src, p, DstBits(c, s), Number(dist - 1, e));
    DstRead(src, p, c, s);
    NumberRead(src, p + |DstBits(c, s)|, dist - 1, e);
    DistIs(dist);
    assert DistPart(src, p, out, LitLens(c), DstLens(c), len) ==
      DistExtraPart(src, p + |DstBits(c, s)|, out, LitLens(c), DstLens(c), len, DistBase(s), e);
    DistExtraRead(src, p + |DstBits(c, s)|, out, LitLens(c), DstLens(c), len, DistBase(s), e, dist);
  }

  lemma DistExtraRead(src: seq<Byte>, p: nat, out: seq<Byte>, lit: seq<nat>, dst: seq<nat>, len: nat, base: nat, extra: nat, dist: nat)
    requires p + extra <= 8 * |src| && 1 <= dist <= |out| && base + GetBits(src, p, extra) == dist
    ensures DistExtraPart(src, p, out, lit, dst, len, base, extra) == Symbols(src, p + extra, CopyMatch(out, dist, len), lit, dst)
  {
    hide GetBits, CopyMatch, Symbols;
  }

  /** Reading the tokens of a block gives what they spell. */
  lemma {:induction false} BodyRead(src: seq<Byte>, p: nat, c: Codes, tokens: seq<Token>, data: seq<Byte>, from: nat, to: nat)
    requires CodesOk(c) && CoversAll(c, tokens) && from <= to <= |data| && Spell(tokens, data, from, to)
    requires HasBits(src, p, BodyBits(c, tokens))
    ensures p + |BodyBits(c, tokens)| <= 8 * |src|
    ensures Symbols(src, p, data[..from], LitLens(c), DstLens(c)) == Next(p + |BodyBits(c, tokens)|, data[..to])
    decreases |tokens|
  {
    hide CodesOk, LitBits, LitLens, DstLens, HasSym, Sym, DistPart, LengthPart, HasBits, CopyMatch, LengthSymbol, DistSymbol,
      LengthPartBits, DistPartBits, InCode, Repeats;
    assert p <= 8 * |src| by { Inside(src, p, BodyBits(c, tokens)); }
    if tokens == [] {
      LitRead(src, p, c, 256);
    } else {
      var t := tokens[0];
      Parts(src, p, TokenBits(c, t), BodyBits(c, tokens[1..]));
      assert Covers(c, t);
      var n := if t.Literal? then 1 else t.len;
      TokenRead(src, p, c, t, data, from, from + n);
      BodyRead(src, p + |TokenBits(c, t)|, c, tokens[1..], data, from + n, to);
    }
  }

  /** One token, which adds data[from..to]. */
  lemma TokenRead(src: seq<Byte>, p: nat, c: Codes, t: Token, data: seq<Byte>, from: nat, to: nat)
    requires CodesOk(c) && Covers(c, t) && from <= to <= |data| && Spell([t], data, from, to)
    requires HasBits(src, p, TokenBits(c, t))
    ensures p + |TokenBits(c, t)| <= 8 * |src|
    ensures Symbols(src, p, data[..from], LitLens(c), DstLens(c)) ==
      Symbols(src, p + |TokenBits(c, t)|, data[..to], LitLens(c), DstLens(c))
  {
    hide CodesOk, LitBits, LitLens, DstLens, HasSym, Sym, DistPart, LengthPart, HasBits, CopyMatch, LengthSymbol, DistSymbol,
      LengthPartBits, DistPartBits, InCode, Repeats;
    assert Spell([t][1..], data, to, to);
    Inside(src, p, TokenBits(c, t));
    match t
    case Literal(b) =>
      LitRead(src, p, c, b);
      assert data[..from] + [b] == data[..to];
    case Match(len, dist) =>
      Parts(src, p, LengthPartBits(c, len), DistPartBits(c, dist));
      LengthRead(src, p, data[..from], c, len);
      DistRead(src, p + |LengthPartBits(c, len)|, data[..from], c, len, dist);
      CopyIs(data, from, len, dist);
  }

  lemma Inside(src: seq<Byte>, p: nat, bits: seq<Bit>)
    requires HasBits(src, p, bits)
    ensures p + |bits| <= 8 * |src|
  {
  }
}
