/** The reference decoder only ever adds to its output. */
module InflateFacts {
  import opened Bits
  import opened Huffman
  import opened Rfc1951
  import opened Rfc1950

  ghost predicate PartExtends(out: seq<Byte>, r: Part) {
    match r
    case Next(_, o) => out <= o
    case Refused(o) => out <= o
    case Other => true
  }

  ghost predicate Extends(out: seq<Byte>, o: Outcome) {
    o.Outside? || out <= o.out
  }

  lemma MatchExtends(out: seq<Byte>, dist: nat, n: nat)
    requires 0 < dist <= |out|
    ensures out <= CopyMatch(out, dist, n)
  {
    forall k | 0 <= k < |out| ensures CopyMatch(out, dist, n)[k] == out[k] {
      MatchBytes(out, dist, n, k);
    }
  }

  lemma {:induction false} SymbolsExtend(src: seq<Byte>, p: nat, out: seq<Byte>, lit: seq<nat>, dst: seq<nat>)
    requires p <= 8 * |src|
    ensures PartExtends(out, Symbols(src, p, out, lit, dst))
    decreases 8 * |src| - p, 0
  {
    hide GetCode, CopyMatch;
    if HasSym(src, p, lit) {
      var s := Sym(src, p, lit);
      var q := p + lit[s];
      if s < 256 {
        SymbolsExtend(src, q, out + [s], lit, dst);
      } else if 256 < s <= 285 {
        LengthExtends(src, q, out, lit, dst, LengthBase(s), LengthExtra(s));
      }
    }
  }

  lemma {:induction false} LengthExtends(src: seq<Byte>, p: nat, out: seq<Byte>, lit: seq<nat>, dst: seq<nat>, base: nat, extra: nat)
    requires p <= 8 * |src|
    ensures PartExtends(out, LengthPart(src, p, out, lit, dst, base, extra))
    decreases 8 * |src| - p, 3
  {
    hide GetBits;
    if p + extra <= 8 * |src| {
      DistExtends(src, p + extra, out, lit, dst, base + GetBits(src, p, extra));
    }
  }

  lemma {:induction false} DistExtends(src: seq<Byte>, p: nat, out: seq<Byte>, lit: seq<nat>, dst: seq<nat>, len: nat)
    requires p <= 8 * |src|
    ensures PartExtends(out, DistPart(src, p, out, lit, dst, len))
    decreases 8 * |src| - p, 2
  {
    hide GetCode;
    if HasSym(src, p, dst) && Sym(src, p, dst) <= 29 {
      var s := Sym(src, p, dst);
      DistExtraExtends(src, p + dst[s], out, lit, dst, len, DistBase(s), DistExtra(s));
    }
  }

  lemma {:induction false} DistExtraExtends(src: seq<Byte>, p: nat, out: seq<Byte>, lit: seq<nat>, dst: seq<nat>, len: nat, base: nat, extra: nat)
    requires p <= 8 * |src|
    ensures PartExtends(out, DistExtraPart(src, p, out, lit, dst, len, base, extra))
    decreases 8 * |src| - p, 1
  {
    hide GetBits, CopyMatch;
    if p + extra <= 8 * |src| {
      var d := base + GetBits(src, p, extra);
      if 0 < d <= |out| {
        MatchExtends(out, d, len);
        SymbolsExtend(src, p + extra, CopyMatch(out, d, len), lit, dst);
      }
    }
  }

  lemma {:induction false} LensExtend(src: seq<Byte>, p: nat, out: seq<Byte>, hlit: nat, hdist: nat, cl: seq<nat>, lens: seq<nat>)
    requires p <= 8 * |src|
    ensures PartExtends(out, LensPart(src, p, out, hlit, hdist, cl, lens))
    decreases 8 * |src| - p
  {
    hide GetCode, GetBits, Symbols;
    if |lens| == hlit + hdist {
      SymbolsExtend(src, p, out, lens[..hlit], lens[hlit..]);
    } else if |lens| < hlit + hdist && HasSym(src, p, cl) {
      var s := Sym(src, p, cl);
      var q := p + cl[s];
      if s < 16 {
        LensExtend(src, q, out, hlit, hdist, cl, lens + [s]);
      } else if s <= 18 && (s == 16 ==> lens != []) && q + RepeatBits(s) <= 8 * |src| {
        var n := RepeatMin(s) + GetBits(src, q, RepeatBits(s));
        var l := if s == 16 then lens[|lens| - 1] else 0;
        LensExtend(src, q + RepeatBits(s), out, hlit, hdist, cl, lens + Repeat(l, n));
      }
    }
  }

  lemma {:induction false} ClExtends(src: seq<Byte>, p: nat, out: seq<Byte>, hlit: nat, hdist: nat, hclen: nat, cls: seq<nat>)
    requires p <= 8 * |src|
    ensures PartExtends(out, ClPart(src, p, out, hlit, hdist, hclen, cls))
    decreases hclen - |cls|
  {
    hide GetBits, LensPart, ClLens, Acceptable;
    if |cls| < hclen {
      if p + 3 <= 8 * |src| {
        ClExtends(src, p + 3, out, hlit, hdist, hclen, cls + [GetBits(src, p, 3)]);
      }
    } else if |cls| <= 19 {
      LensExtend(src, p, out, hlit, hdist, ClLens(cls), []);
    }
  }

  lemma {:induction false} SizesExtend(src: seq<Byte>, p: nat, out: seq<Byte>, sizes: seq<nat>)
    requires p <= 8 * |src| && |sizes| <= 3
    ensures PartExtends(out, SizesPart(src, p, out, sizes))
    decreases 3 - |sizes|
  {
    hide GetBits, ClPart;
    if |sizes| == 3 {
      ClExtends(src, p, out, sizes[0], sizes[1], sizes[2], []);
    } else if p + SizeBits(|sizes|) <= 8 * |src| {
      SizesExtend(src, p + SizeBits(|sizes|), out, sizes + [SizeMin(|sizes|) + GetBits(src, p, SizeBits(|sizes|))]);
    }
  }

  lemma BlockExtends(src: seq<Byte>, p: nat, t: nat, out: seq<Byte>)
    requires p <= 8 * |src|
    ensures PartExtends(out, Block(src, p, t, out))
  {
    hide GetBits, Symbols, SizesPart, Acceptable;
    SymbolsExtend(src, p, out, FixedLit(), FixedDist());
    SizesExtend(src, p, out, []);
  }

  /** All output so far is a prefix of the final output. */
  lemma {:induction false} BlocksExtend(src: seq<Byte>, p: nat, out: seq<Byte>)
    requires p <= 8 * |src|
    ensures Extends(out, Blocks(src, p, out))
    decreases 8 * |src| - p
  {
    hide GetBits, Block;
    if p + 3 <= 8 * |src| {
      var b := Block(src, p + 3, GetBits(src, p + 1, 2), out);
      BlockExtends(src, p + 3, GetBits(src, p + 1, 2), out);
      if b.Next? && BitAt(src, p) != 1 {
        BlocksExtend(src, b.pos, b.out);
      }
    }
  }

  lemma FinishExtends(src: seq<Byte>, last: bool, r: Part, out: seq<Byte>)
    requires (r.Next? ==> r.pos <= 8 * |src|) && PartExtends(out, r)
    ensures Extends(out, Finish(src, last, r))
  {
    hide Blocks;
    if r.Next? && !last {
      BlocksExtend(src, r.pos, r.out);
    }
  }

  lemma RepeatExtends(src: seq<Byte>, p: nat, out: seq<Byte>, hlit: nat, hdist: nat, cl: seq<nat>, lens: seq<nat>, s: nat)
    requires p <= 8 * |src| && 16 <= s <= 18 && (s == 16 ==> lens != [])
    ensures PartExtends(out, RepeatPart(src, p, out, hlit, hdist, cl, lens, s))
  {
    hide GetBits, LensPart;
    if p + RepeatBits(s) <= 8 * |src| {
      var n := RepeatMin(s) + GetBits(src, p, RepeatBits(s));
      var l := if s == 16 then lens[|lens| - 1] else 0;
      LensExtend(src, p + RepeatBits(s), out, hlit, hdist, cl, lens + Repeat(l, n));
    }
  }

  lemma {:induction false} TrailerExtends(src: seq<Byte>, p: nat, n: nat, z: nat, out: seq<Byte>)
    ensures Extends(out, TrailerFrom(src, p, n, z, out))
    decreases 4 - n
  {
    hide Adler32;
    if n < 4 && p % 8 == 0 && p + 8 <= 8 * |src| {
      TrailerExtends(src, p + 8, n + 1, (z * 256 + src[p / 8]) % 0x1_0000_0000, out);
    }
  }

  // ---- where a stream ends

  /** How many of n bits the outcome depends on: all of them for a stream that is
      refused. */
  ghost function NeedOf(o: Outcome, n: nat): nat {
    match o
    case Done(_, e) => e
    case Mismatch(_, e) => e
    case _ => n
  }

  /** A block is read before the stream ends. */
  lemma {:induction false} BlocksEnd(src: seq<Byte>, p: nat, out: seq<Byte>)
    requires p <= 8 * |src|
    ensures var o := Blocks(src, p, out);
      !o.Mismatch? && (o.Done? ==> p + 3 <= o.end <= 8 * |src|) && (o != Outside ==> p + 3 <= 8 * |src|)
    decreases 8 * |src| - p
  {
    hide GetBits, BitAt, Block;
    if p + 3 <= 8 * |src| {
      var b := Block(src, p + 3, GetBits(src, p + 1, 2), out);
      if b.Next? && BitAt(src, p) != 1 {
        BlocksEnd(src, b.pos, b.out);
      }
    }
  }

  lemma FinishEnd(src: seq<Byte>, last: bool, r: Part)
    requires r.Next? ==> r.pos <= 8 * |src|
    ensures var o := Finish(src, last, r); !o.Mismatch? && (o.Done? ==> o.end <= 8 * |src| && r.Next? && r.pos <= o.end)
    ensures r.Next? ==> !Finish(src, last, r).Rejected? || !last
  {
    hide Blocks;
    if r.Next? && !last {
      BlocksEnd(src, r.pos, r.out);
    }
  }

  lemma TrailerEnds(src: seq<Byte>, o: Outcome)
    requires !o.Mismatch? && (o.Done? ==> o.end <= 8 * |src|)
    ensures var t := Trailer(src, o); NeedOf(t, 8 * |src|) <= 8 * |src| && (o.Done? && t != Outside ==> o.end <= NeedOf(t, 8 * |src|))
    ensures !o.Done? ==> Trailer(src, o) == o
  {
    hide Adler32;
  }

  lemma {:induction false} TrailerFromEnd(src: seq<Byte>, p: nat, n: nat, z: nat, out: seq<Byte>)
    ensures var o := TrailerFrom(src, p, n, z, out);
      !o.Rejected? && (o != Outside ==> NeedOf(o, 0) == p + 8 * if n < 4 then 4 - n else 0)
    decreases 4 - n
  {
    hide Adler32;
    if n < 4 && p % 8 == 0 && p + 8 <= 8 * |src| {
      TrailerFromEnd(src, p + 8, n + 1, (z * 256 + src[p / 8]) % 0x1_0000_0000, out);
    }
  }

  lemma WholeEnd(src: seq<Byte>, zlib: bool, limit: nat)
    ensures NeedOf(Whole(src, zlib, limit), 8 * |src|) <= 8 * |src|
    ensures Whole(src, zlib, limit) != Outside ==> NeedOf(Whole(src, zlib, limit), 8 * |src|) > 0
  {
    hide Blocks, HeaderOk, Trailer;
    if zlib && |src| >= 2 {
      BlocksEnd(src, 16, []);
      TrailerEnds(src, Blocks(src, 16, []));
    } else {
      BlocksEnd(src, 0, []);
    }
  }
}
