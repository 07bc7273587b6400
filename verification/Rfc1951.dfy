/** The bit-level reference decoder, written from section 3.2 of RFC 1951. It
    works on the whole stream, by bit position, and knows nothing of tables,
    buffers or calls. */
module Rfc1951 {
  import opened Bits
  import opened Huffman

  /** What a part of a block comes to: the position after it and all output so
      far; or a stream that must be refused; or something else, that is, the
      stream ends early, or holds bits that start no code, a length symbol over
      285, a distance symbol over 29 or a distance before the first byte. */
  datatype Part = Next(pos: nat, out: seq<Byte>) | Refused(out: seq<Byte>) | Other

  /** What a whole stream comes to. */
  datatype Outcome = Done(out: seq<Byte>, end: nat) | Mismatch(out: seq<Byte>, end: nat) | Rejected(out: seq<Byte>) | Outside

  const LENGTH_BASE: seq<nat> :=
    [3, 4, 5, 6, 7, 8, 9, 10, 11, 13, 15, 17, 19, 23, 27, 31, 35, 43, 51, 59, 67, 83, 99, 115, 131, 163, 195, 227, 258]
  const LENGTH_EXTRA: seq<nat> :=
    [0, 0, 0, 0, 0, 0, 0, 0, 1, 1, 1, 1, 2, 2, 2, 2, 3, 3, 3, 3, 4, 4, 4, 4, 5, 5, 5, 5, 0]
  const DIST_BASE: seq<nat> :=
    [1, 2, 3, 4, 5, 7, 9, 13, 17, 25, 33, 49, 65, 97, 129, 193, 257, 385, 513, 769, 1025, 1537, 2049, 3073, 4097,
     6145, 8193, 12289, 16385, 24577]
  const DIST_EXTRA: seq<nat> :=
    [0, 0, 0, 0, 1, 1, 2, 2, 3, 3, 4, 4, 5, 5, 6, 6, 7, 7, 8, 8, 9, 9, 10, 10, 11, 11, 12, 12, 13, 13]

  /** The order in which the code lengths of the code length code come. */
  const CL_ORDER: seq<nat> := [16, 17, 18, 0, 8, 7, 9, 6, 10, 5, 11, 4, 12, 3, 13, 2, 14, 1, 15]

  function LengthBase(s: nat): nat
    requires 257 <= s <= 285
  {
    LENGTH_BASE[s - 257]
  }

  function LengthExtra(s: nat): nat
    requires 257 <= s <= 285
  {
    LENGTH_EXTRA[s - 257]
  }

  function DistBase(s: nat): nat
    requires s <= 29
  {
    DIST_BASE[s]
  }

  function DistExtra(s: nat): nat
    requires s <= 29
  {
    DIST_EXTRA[s]
  }

  /** Matches are 3 to 258 bytes long, at distances 1 to 32768. */
  lemma LengthRange(s: nat)
    requires 257 <= s <= 285
    ensures 3 <= LengthBase(s) && LengthExtra(s) <= 5 && LengthBase(s) + Shl(1, LengthExtra(s)) <= 259
  {
  }

  lemma DistRange(s: nat)
    requires s <= 29
    ensures 1 <= DistBase(s) && DistExtra(s) <= 13 && DistBase(s) + Shl(1, DistExtra(s)) <= 32769
  {
  }

  // ---- symbols

  ghost predicate HasSym(src: seq<Byte>, p: nat, lens: seq<nat>) {
    exists s :: StreamHas(src, p, lens, s)
  }

  ghost function Sym(src: seq<Byte>, p: nat, lens: seq<nat>): (s: nat)
    requires HasSym(src, p, lens)
    ensures StreamHas(src, p, lens, s)
  {
    var s :| StreamHas(src, p, lens, s);
    s
  }

  /** A match (section 3.2.3): n bytes, each a copy of the byte dist back. */
  ghost function CopyMatch(out: seq<Byte>, dist: nat, n: nat): (r: seq<Byte>)
    requires 0 < dist <= |out|
    ensures |r| == |out| + n
    decreases n
  {
    if n == 0 then out else CopyMatch(out + [out[|out| - dist]], dist, n - 1)
  }

  /** What a match is: the old output unchanged, then bytes equal to those dist back. */
  lemma {:induction false} MatchBytes(out: seq<Byte>, dist: nat, n: nat, k: nat)
    requires 0 < dist <= |out| && k < |out| + n
    ensures CopyMatch(out, dist, n)[k] == if k < |out| then out[k] else CopyMatch(out, dist, n)[k - dist]
    decreases n
  {
    if n > 0 {
      var o := out + [out[|out| - dist]];
      MatchBytes(o, dist, n - 1, k);
      if k == |out| {
        MatchBytes(o, dist, n - 1, k - dist);
      }
    }
  }

  // ---- compressed data of one block (section 3.2.5)

  ghost function Symbols(src: seq<Byte>, p: nat, out: seq<Byte>, lit: seq<nat>, dst: seq<nat>): (r: Part)
    requires p <= 8 * |src|
    ensures r.Next? ==> p <= r.pos <= 8 * |src|
    decreases 8 * |src| - p, 0
  {
    if !HasSym(src, p, lit) then Other
    else
      var s := Sym(src, p, lit);
      var q := p + lit[s];
      if s < 256 then Symbols(src, q, out + [s], lit, dst)
      else if s == 256 then Next(q, out)
      else if s > 285 then Other
      else LengthPart(src, q, out, lit, dst, LengthBase(s), LengthExtra(s))
  }

  ghost function LengthPart(src: seq<Byte>, p: nat, out: seq<Byte>, lit: seq<nat>, dst: seq<nat>, base: nat, extra: nat): (r: Part)
    requires p <= 8 * |src|
    ensures r.Next? ==> p <= r.pos <= 8 * |src|
    decreases 8 * |src| - p, 4
  {
    if p + extra > 8 * |src| then Other
    else DistPart(src, p + extra, out, lit, dst, base + GetBits(src, p, extra))
  }

  ghost function DistPart(src: seq<Byte>, p: nat, out: seq<Byte>, lit: seq<nat>, dst: seq<nat>, len: nat): (r: Part)
    requires p <= 8 * |src|
    ensures r.Next? ==> p <= r.pos <= 8 * |src|
    decreases 8 * |src| - p, 3
  {
    if !HasSym(src, p, dst) then Other
    else
      var s := Sym(src, p, dst);
      if s > 29 then Other
      else DistExtraPart(src, p + dst[s], out, lit, dst, len, DistBase(s), DistExtra(s))
  }

  ghost function DistExtraPart(src: seq<Byte>, p: nat, out: seq<Byte>, lit: seq<nat>, dst: seq<nat>, len: nat, base: nat, extra: nat): (r: Part)
    requires p <= 8 * |src|
    ensures r.Next? ==> p <= r.pos <= 8 * |src|
    decreases 8 * |src| - p, 2
  {
    if p + extra > 8 * |src| then Other
    else CopyPart(src, p + extra, out, lit, dst, len, base + GetBits(src, p, extra))
  }

  ghost function CopyPart(src: seq<Byte>, p: nat, out: seq<Byte>, lit: seq<nat>, dst: seq<nat>, len: nat, dist: nat): (r: Part)
    requires p <= 8 * |src|
    ensures r.Next? ==> p <= r.pos <= 8 * |src|
    decreases 8 * |src| - p, 1
  {
    if dist == 0 || dist > |out| then Other
    else Symbols(src, p, CopyMatch(out, dist, len), lit, dst)
  }

  /** The two codes of a block must be complete or hold at most one symbol. */
  ghost function TablesPart(src: seq<Byte>, p: nat, out: seq<Byte>, lit: seq<nat>, dst: seq<nat>): (r: Part)
    requires p <= 8 * |src|
    ensures r.Next? ==> p <= r.pos <= 8 * |src|
  {
    if !Acceptable(lit) || !Acceptable(dst) then Refused(out) else Symbols(src, p, out, lit, dst)
  }

  // ---- fixed and dynamic codes (sections 3.2.6 and 3.2.7)

  function Fixed(i: nat): nat {
    if i <= 143 then 8 else if i <= 255 then 9 else if i <= 279 then 7 else 8
  }

  function FixedLit(): seq<nat> { seq(288, i requires 0 <= i => Fixed(i)) }

  function FixedDist(): seq<nat> { seq(32, _ => 5) }

  /** HLIT, HDIST and HCLEN: their widths and least values. */
  function SizeBits(i: nat): nat { if i < 2 then 5 else 4 }

  function SizeMin(i: nat): nat { if i == 0 then 257 else if i == 1 then 1 else 4 }

  ghost function SizesPart(src: seq<Byte>, p: nat, out: seq<Byte>, sizes: seq<nat>): (r: Part)
    requires p <= 8 * |src| && |sizes| <= 3
    ensures r.Next? ==> p <= r.pos <= 8 * |src|
    decreases 3 - |sizes|
  {
    if |sizes| == 3 then ClPart(src, p, out, sizes[0], sizes[1], sizes[2], [])
    else
      var n := SizeBits(|sizes|);
      if p + n > 8 * |src| then Other
      else SizesPart(src, p + n, out, sizes + [SizeMin(|sizes|) + GetBits(src, p, n)])
  }

  function ClOrder(i: nat): (s: nat)
    requires i < 19
    ensures s < 19
  {
    CL_ORDER[i]
  }

  /** The code lengths of the code length code, by symbol. */
  function ClLens(cls: seq<nat>): (r: seq<nat>)
    requires |cls| <= 19
    ensures |r| == 19
  {
    if cls == [] then Repeat(0, 19)
    else ClLens(cls[..|cls| - 1])[ClOrder(|cls| - 1) := cls[|cls| - 1]]
  }

  ghost function ClPart(src: seq<Byte>, p: nat, out: seq<Byte>, hlit: nat, hdist: nat, hclen: nat, cls: seq<nat>): (r: Part)
    requires p <= 8 * |src|
    ensures r.Next? ==> p <= r.pos <= 8 * |src|
    decreases hclen - |cls|
  {
    if |cls| < hclen then
      if p + 3 > 8 * |src| then Other
      else ClPart(src, p + 3, out, hlit, hdist, hclen, cls + [GetBits(src, p, 3)])
    else if |cls| > 19 then Other
    else if !Acceptable(ClLens(cls)) then Refused(out)
    else LensPart(src, p, out, hlit, hdist, ClLens(cls), [])
  }

  function Repeat(l: nat, n: nat): (r: seq<nat>)
    ensures |r| == n
  {
    seq(n, _ => l)
  }

  function RepeatBits(s: nat): nat { if s == 16 then 2 else if s == 17 then 3 else 7 }

  function RepeatMin(s: nat): nat { if s == 18 then 11 else 3 }

  /** The code lengths of both codes, run-length coded. */
  ghost function LensPart(src: seq<Byte>, p: nat, out: seq<Byte>, hlit: nat, hdist: nat, cl: seq<nat>, lens: seq<nat>): (r: Part)
    requires p <= 8 * |src|
    ensures r.Next? ==> p <= r.pos <= 8 * |src|
    decreases 8 * |src| - p, 0
  {
    if |lens| > hlit + hdist then Refused(out)
    else if |lens| == hlit + hdist then TablesPart(src, p, out, lens[..hlit], lens[hlit..])
    else if !HasSym(src, p, cl) then Other
    else
      var s := Sym(src, p, cl);
      var q := p + cl[s];
      if s < 16 then LensPart(src, q, out, hlit, hdist, cl, lens + [s])
      else if s == 16 && lens == [] then Refused(out)
      else if s > 18 then Other
      else RepeatPart(src, q, out, hlit, hdist, cl, lens, s)
  }

  ghost function RepeatPart(src: seq<Byte>, p: nat, out: seq<Byte>, hlit: nat, hdist: nat, cl: seq<nat>, lens: seq<nat>, s: nat): (r: Part)
    requires p <= 8 * |src| && 16 <= s <= 18 && (s == 16 ==> lens != [])
    ensures r.Next? ==> p <= r.pos <= 8 * |src|
    decreases 8 * |src| - p, 1
  {
    var extra := RepeatBits(s);
    if p + extra > 8 * |src| then Other
    else
      var n := RepeatMin(s) + GetBits(src, p, extra);
      var l := if s == 16 then lens[|lens| - 1] else 0;
      LensPart(src, p + extra, out, hlit, hdist, cl, lens + Repeat(l, n))
  }

  // ---- stored blocks (section 3.2.4)

  function Align(p: nat): nat { (p + 7) / 8 * 8 }

  ghost function Stored(src: seq<Byte>, p: nat, out: seq<Byte>): (r: Part)
    requires p <= 8 * |src| && p % 8 == 0
    ensures r.Next? ==> p <= r.pos <= 8 * |src|
  {
    if p + 32 > 8 * |src| then Other
    else
      var len, nlen := GetBits(src, p, 16), GetBits(src, p + 16, 16);
      if len + nlen != 0xFFFF then Refused(out)
      else StoredData(src, p + 32, len, out)
  }

  ghost function StoredData(src: seq<Byte>, p: nat, n: nat, out: seq<Byte>): (r: Part)
    requires p <= 8 * |src| && p % 8 == 0
    ensures r.Next? ==> p <= r.pos <= 8 * |src|
  {
    if p + 8 * n > 8 * |src| then Other
    else Next(p + 8 * n, out + src[p / 8..p / 8 + n])
  }

  // ---- blocks (section 3.2.3)

  ghost function Block(src: seq<Byte>, p: nat, btype: nat, out: seq<Byte>): (r: Part)
    requires p <= 8 * |src|
    ensures r.Next? ==> p <= r.pos <= 8 * |src|
  {
    if btype == 0 then Stored(src, Align(p), out)
    else if btype == 1 then TablesPart(src, p, out, FixedLit(), FixedDist())
    else if btype == 2 then SizesPart(src, p, out, [])
    else Refused(out)
  }

  ghost function Blocks(src: seq<Byte>, p: nat, out: seq<Byte>): Outcome
    requires p <= 8 * |src|
    decreases 8 * |src| - p
  {
    if p + 3 > 8 * |src| then Outside
    else
      match Block(src, p + 3, GetBits(src, p + 1, 2), out)
      case Next(q, o) => if BitAt(src, p) == 1 then Done(o, q) else Blocks(src, q, o)
      case Refused(o) => Rejected(o)
      case Other => Outside
  }

  /** The outcome, given what the current block comes to. */
  ghost function Finish(src: seq<Byte>, last: bool, r: Part): Outcome
    requires r.Next? ==> r.pos <= 8 * |src|
  {
    match r
    case Next(q, o) => if last then Done(o, q) else Blocks(src, q, o)
    case Refused(o) => Rejected(o)
    case Other => Outside
  }

  /** A raw deflate stream. */
  ghost function Inflate(src: seq<Byte>): Outcome {
    Blocks(src, 0, [])
  }
}
