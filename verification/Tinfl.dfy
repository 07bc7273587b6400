/** The resumable decompressor, tinfl_decompress
    (mk/linux/mojosetup/miniz.h:271-541). Its resume labels are the values of
    State; the locals it saves on every exit are fields. */
module Tinfl {
  import opened Bits
  import opened Huffman
  import opened Table
  import opened Rfc1951
  import opened Rfc1950
  import opened BitReader
  import opened OutWindow
  import opened InflateFacts
  import Adler

  datatype Status = BadParam | AdlerMismatch | Failure | Complete | NeedsMoreInput | HasMoreOutput

  /** Where the decompressor is, with the source's case labels. */
  datatype State =
    | Start          // 0
    | Header0        // 1
    | Header1        // 2
    | BlockStart     // 3
    | RawHeader      // 6, 7
    | RawByte        // 51, 9, 38
    | RawWrite       // 52
    | Sizes          // 11
    | ClSizes        // 14
    | LenCode        // before 16
    | LenCodeFill    // 16
    | LenRepeat      // 18
    | Symbol         // before 23
    | SymbolFill     // 23
    | Literal        // 24
    | LengthBits     // 25
    | Distance       // before 26
    | DistanceFill   // 26
    | DistanceBits   // 27
    | CopyRest       // 53
    | AtTrailer      // 41, 42
    | Finished       // 34
    | Failed         // 10, 17, 21, 35, 36, 39

  /** What happens after one step: on to the next, or out of the call. */
  datatype Signal = Go | Out(status: Status)

  function Rank(s: State): nat {
    match s
    case Start => 9
    case ClSizes => 8
    case LenCode => 7
    case LenCodeFill => 7
    case LengthBits => 6
    case Distance => 5
    case DistanceFill => 5
    case DistanceBits => 4
    case CopyRest => 3
    case Literal => 3
    case RawWrite => 3
    case Finished => 0
    case Failed => 0
    case BlockStart => 1
    case AtTrailer => 1
    case _ => 2
  }

  /** m_check_adler32 */
  class Checksum {
    var value: nat

    constructor ()
      ensures value == 1
    {
      value := 1;
    }
  }

  class Decompressor {
    const r: Reader
    const w: Window
    const sum: Checksum
    const litTable: HuffmanTable
    const distTable: HuffmanTable
    const clTable: HuffmanTable
    const tableSizes: array<nat>
    const rawHeader: array<Byte>
    const lenCodes: array<Byte>
    var state: State
    var final: nat
    var dist: nat
    var counter: nat
    var numExtra: nat
    var from: nat
    var zhdr0: Byte
    var zAdler: nat
    // builds with unaligned loads and stores
    const wide: bool
    // TINFL_FLAG_PARSE_ZLIB_HEADER and TINFL_FLAG_USING_NON_WRAPPING_OUTPUT_BUF,
    // the same in every call
    const zlib: bool
    const nonWrap: bool
    // TINFL_FLAG_COMPUTE_ADLER32
    const compute: bool
    // what this run decodes, and what it comes to
    ghost const target: Outcome
    // the codes in use, and the code lengths read so far
    ghost var lit: seq<nat>
    ghost var dst: seq<nat>
    ghost var cl: seq<nat>
    ghost var cls: seq<nat>
    ghost var lens: seq<nat>

    ghost const own: set<object>

    ghost predicate Structure() {
      Parts(own, litTable, distTable, clTable, tableSizes, rawHeader, lenCodes)
    }

    static ghost predicate Parts(own: set<object>, lit: HuffmanTable, dist: HuffmanTable, cl: HuffmanTable,
                                 sizes: array<nat>, header: array<Byte>, codes: array<Byte>) {
      && own == lit.Arrays() + dist.Arrays() + cl.Arrays() + {sizes as object, header, codes}
      && lit.Arrays() !! dist.Arrays() !! cl.Arrays() !! {sizes as object, header, codes}
      && header != codes && sizes as object != header && sizes as object != codes
      && lit.Valid() && dist.Valid() && cl.Valid() && lit != dist && lit != cl && dist != cl
      && sizes.Length == 3 && header.Length == 4 && codes.Length == 457
    }

    lemma Apart()
      requires Structure()
      ensures litTable.Valid() && distTable.Valid()
      ensures litTable.lookUp in own && litTable.tree in own && distTable.lookUp in own && distTable.tree in own
    {
    }

    lemma ApartHeader()
      requires Structure()
      ensures rawHeader.Length == 4 && rawHeader in own
    {
    }

    /** The code lengths being read are apart from what reading them needs. */
    lemma ApartCodes()
      requires Structure()
      ensures lenCodes.Length == 457 && tableSizes.Length == 3 && clTable.Valid() && lenCodes in own
      ensures tableSizes as object != lenCodes && lenCodes as object != clTable.lookUp && lenCodes as object != clTable.tree
    {
      assert lenCodes as object !in clTable.Arrays();
    }

    lemma ApartSizes()
      requires Structure()
      ensures tableSizes.Length == 3 && clTable.Valid() && tableSizes in own && clTable.codeSize in own
      ensures tableSizes as object != clTable.codeSize
    {
      assert tableSizes as object !in clTable.Arrays();
    }

    lemma ApartCl()
      requires Structure()
      ensures clTable.lookUp in own && clTable.tree in own
      ensures tableSizes as object != clTable.lookUp && tableSizes as object != clTable.tree
    {
      assert tableSizes as object !in clTable.Arrays();
    }

    lemma ApartCodeSizes()
      requires Structure()
      ensures tableSizes.Length == 3
      ensures litTable.Valid() && distTable.Valid() && litTable.codeSize in own && distTable.codeSize in own && tableSizes in own
      ensures litTable.codeSize != distTable.codeSize && tableSizes as object != litTable.codeSize && tableSizes as object != distTable.codeSize
      ensures lenCodes != litTable.codeSize && lenCodes != distTable.codeSize
    {
      assert litTable.codeSize as object !in distTable.Arrays();
      assert tableSizes as object !in litTable.Arrays() && tableSizes as object !in distTable.Arrays();
      assert lenCodes as object !in litTable.Arrays() && lenCodes as object !in distTable.Arrays();
    }

    lemma ApartTables()
      requires Structure()
      ensures litTable.Valid() && distTable.Valid() && litTable != distTable && tableSizes.Length == 3
      ensures litTable.lookUp in own && litTable.tree in own && distTable.lookUp in own && distTable.tree in own
      ensures tableSizes as object != distTable.lookUp && tableSizes as object != distTable.tree
      ensures litTable.codeSize as object != distTable.lookUp && litTable.codeSize as object != distTable.tree
      ensures litTable.lookUp != distTable.lookUp && litTable.lookUp != distTable.tree
      ensures litTable.tree != distTable.lookUp && litTable.tree != distTable.tree
    {
      assert litTable.codeSize as object !in distTable.Arrays() && litTable.lookUp as object !in distTable.Arrays();
      assert litTable.tree as object !in distTable.Arrays() && tableSizes as object !in distTable.Arrays();
    }

    ghost function Wrap(o: Outcome): Outcome {
      if zlib then Trailer(r.src, o) else o
    }

    ghost function Fin(p: Part): Outcome
      requires p.Next? ==> p.pos <= 8 * |r.src|
      reads this`final
    {
      Wrap(Finish(r.src, final % 2 == 1, p))
    }

    /** What the run comes to is known, and how much of the stream that takes. */
    ghost predicate Known() {
      target != Outside && r.need == NeedOf(target, 8 * |r.src|) && r.need <= 8 * |r.src|
    }

    ghost predicate Base()
      reads this, r, w, w.buf
    {
      && Structure() && r.Valid() && w.Valid() && Known()
      && (state != AtTrailer && state != Finished ==> zAdler == 1)
      && w.buf !in own && w.size >= 32768 && (nonWrap ==> w.next == |w.before|)
    }

    ghost predicate Ready()
      reads this, r, w, w.buf
      reads litTable, litTable.lookUp, litTable.tree, distTable, distTable.lookUp, distTable.tree
    {
      Base() && litTable.Decodes(lit) && distTable.Decodes(dst)
    }

    /** The block, seen from here, leads to the target. */
    ghost predicate Means(p: Part)
      reads this`final
    {
      (p.Next? ==> p.pos <= 8 * |r.src|) && Fin(p) == target
    }

    ghost predicate InSymbols(out: seq<Byte>)
      reads this, r
    {
      r.Valid() && Means(Symbols(r.src, r.P(), out, lit, dst))
    }

    /** What a step leaves alone. */
    twostate predicate Kept()
      reads this, r, w
    {
      && r.input == old(r.input) && r.hasMore == old(r.hasMore) && r.taken - r.cur == old(r.taken - r.cur)
      && w.buf == old(w.buf) && w.next == old(w.next) && w.end == old(w.end) && w.size == old(w.size) && w.before == old(w.before)
    }

    twostate predicate Progress()
      requires old(r.Valid()) && r.Valid()
      reads this, r
    {
      r.P() > old(r.P()) || (r.P() == old(r.P()) && Rank(state) < old(Rank(state)))
    }

    /** A byte of output waits to be written. */
    ghost predicate Pending()
      reads this
    {
      state == Literal || state == CopyRest || state == RawWrite || (state == RawByte && counter > 0)
    }

    ghost predicate Stops(g: Signal)
      reads this, r, w
    {
      match g
      case Go => true
      case Out(NeedsMoreInput) => r.Starved() && state != Failed && state != Finished
      case Out(HasMoreOutput) => w.Full() && Pending()
      case Out(Complete) => state == Finished
      case Out(Failure) => state == Failed
      case _ => false
    }

    constructor (ghost src: seq<Byte>, zlib: bool, nonWrap: bool, compute: bool, wide: bool, wideBits: bool)
      requires Whole(src, zlib, if nonWrap then NO_WRAP else 32768) != Outside
      ensures Inv() && Summed() && w.out == [] && r.src == src && r.taken == 0 && r.numBits == 0 && w.cur == 0
      ensures this.zlib == zlib && this.nonWrap == nonWrap && this.compute == compute
      ensures target == Whole(src, zlib, Limit())
      ensures fresh(Repr()) && fresh(w.buf)
    {
      hide NeedOf, Whole, Inflate, Blocks, Adler32, Ring, GetBits, Decompressor.InState, Reader.Valid, Window.Valid,
        HuffmanTable.Decodes, Decompressor.Parts, Decompressor.Base, Decompressor.Known;
      WholeEnd(src, zlib, if nonWrap then NO_WRAP else 32768);
      var r0 := new Reader(src, NeedOf(Whole(src, zlib, if nonWrap then NO_WRAP else 32768), 8 * |src|), wideBits);
      var w0 := new Window();
      var s0 := new Checksum();
      sum := s0;
      r, w := r0, w0;
      ghost var all;
      var t0, t1, t2, sizes, header, codes;
      t0, t1, t2, sizes, header, codes, all := Allocate();
      litTable, distTable, clTable, tableSizes, rawHeader, lenCodes, own := t0, t1, t2, sizes, header, codes, all;
      state, final, dist, counter, numExtra, from, zhdr0, zAdler := Start, 0, 0, 0, 0, 0, 0, 1;
      this.wide, this.zlib, this.nonWrap, this.compute := wide, zlib, nonWrap, compute;
      target := Whole(src, zlib, if nonWrap then NO_WRAP else 32768);
      lit, dst, cl, cls, lens := [], [], [], [], [];
      new;
      assert Structure();
      assert InStart();
      KnownIs();
      BaseStarts();
      StartIsIn();
      EmptySum();
    }

    lemma KnownIs()
      requires target != Outside && r.need == NeedOf(target, 8 * |r.src|) <= 8 * |r.src|
      ensures Known()
    {
    }

    lemma BaseStarts()
      requires Structure() && r.Valid() && w.Valid() && Known() && zAdler == 1
      requires w.buf !in own && w.size >= 32768 && w.next == |w.before|
      ensures Base()
    {
      hide Decompressor.Known, Reader.Valid, Window.Valid;
    }

    static method Allocate()
      returns (lit: HuffmanTable, dist: HuffmanTable, cl: HuffmanTable,
               sizes: array<nat>, header: array<Byte>, codes: array<Byte>, ghost own: set<object>)
      ensures Parts(own, lit, dist, cl, sizes, header, codes)
      ensures fresh(own) && fresh(lit) && fresh(dist) && fresh(cl)
    {
      lit := new HuffmanTable();
      dist := new HuffmanTable();
      assert lit.Arrays() !! dist.Arrays();
      cl := new HuffmanTable();
      assert lit.Arrays() !! dist.Arrays() !! cl.Arrays();
      sizes := new nat[3](_ => 0);
      header := new Byte[4](_ => 0);
      codes := new Byte[457](_ => 0);
      own := lit.Arrays() + dist.Arrays() + cl.Arrays() + {sizes as object, header, codes};
    }

    lemma StartIsIn()
      requires Structure() && state == Start && InStart()
      ensures InState()
    {
      hide Whole, Structure;
    }

    lemma EmptySum()
      ensures Adler32([]) == 1
    {
    }

    // ---- what the reference decoder does next

    lemma OtherIsOutside(p: Part)
      requires Means(p) && Known()
      ensures p != Other && (p.Next? ==> p.pos <= r.need) && (p.Refused? ==> r.need == 8 * |r.src|)
    {
      hide Finish, Trailer, Blocks;
      var o := Finish(r.src, final % 2 == 1, p);
      FinishEnd(r.src, final % 2 == 1, p);
      TrailerEnds(r.src, o);
      PartOutcome(p);
    }

    lemma PartOutcome(p: Part)
      requires p.Next? ==> p.pos <= 8 * |r.src|
      ensures p.Refused? ==> Fin(p).Rejected?
      ensures p.Other? ==> Fin(p) == Outside
    {
      hide Blocks;
    }

    lemma SymbolNext(p: nat, out: seq<Byte>)
      requires p <= 8 * |r.src| && Known() && Means(Symbols(r.src, p, out, lit, dst))
      ensures HasSym(r.src, p, lit) && p + lit[Sym(r.src, p, lit)] <= r.need
      ensures var s := Sym(r.src, p, lit); var q := p + lit[s];
        if s < 256 then Means(Symbols(r.src, q, out + [s], lit, dst))
        else if s == 256 then Means(Next(q, out))
        else s <= 285 && Means(LengthPart(r.src, q, out, lit, dst, LengthBase(s), LengthExtra(s)))
    {
      hide Finish, Trailer, LengthPart, GetCode;
      OtherIsOutside(Symbols(r.src, p, out, lit, dst));
    }

    lemma LengthNext(p: nat, out: seq<Byte>, base: nat, extra: nat)
      requires p <= 8 * |r.src| && Known() && Means(LengthPart(r.src, p, out, lit, dst, base, extra))
      ensures p + extra <= r.need <= 8 * |r.src|
      ensures Means(DistPart(r.src, p + extra, out, lit, dst, base + GetBits(r.src, p, extra)))
    {
      hide Finish, Trailer, DistPart, GetBits;
      OtherIsOutside(LengthPart(r.src, p, out, lit, dst, base, extra));
    }

    lemma NoExtra(p: nat, extra: nat)
      requires p + extra <= 8 * |r.src|
      ensures extra == 0 ==> GetBits(r.src, p, extra) == 0
    {
    }

    lemma DistNext(p: nat, out: seq<Byte>, len: nat)
      requires p <= 8 * |r.src| && Known() && Means(DistPart(r.src, p, out, lit, dst, len))
      ensures HasSym(r.src, p, dst) && p + dst[Sym(r.src, p, dst)] <= r.need
      ensures var s := Sym(r.src, p, dst);
        s <= 29 && Means(DistExtraPart(r.src, p + dst[s], out, lit, dst, len, DistBase(s), DistExtra(s)))
    {
      hide Finish, Trailer, DistExtraPart, GetCode;
      OtherIsOutside(DistPart(r.src, p, out, lit, dst, len));
    }

    lemma DistExtraNext(p: nat, out: seq<Byte>, len: nat, base: nat, extra: nat)
      requires p <= 8 * |r.src| && Known() && Means(DistExtraPart(r.src, p, out, lit, dst, len, base, extra))
      ensures p + extra <= r.need <= 8 * |r.src|
      ensures var d := base + GetBits(r.src, p, extra);
        0 < d <= |out| && Means(Symbols(r.src, p + extra, CopyMatch(out, d, len), lit, dst))
    {
      hide Finish, Trailer, Symbols, GetBits, CopyMatch;
      OtherIsOutside(DistExtraPart(r.src, p, out, lit, dst, len, base, extra));
    }

    ghost predicate InLiteral()
      reads this, r, w
    {
      counter < 256 && InSymbols(w.out + [counter])
    }

    // ---- one step each

    /** Lines 405-406: the literal waits for room. */
    method StepLiteral() returns (g: Signal)
      requires Ready() && state == Literal && InLiteral()
      modifies this`state, w`cur, w`out, w.buf
      ensures Ready() && Kept() && Stops(g)
      ensures if g == Go then state == Symbol && InSymbols(w.out) else state == Literal && InLiteral()
    {
      hide Decompressor.Known, HuffmanTable.Decodes, Reader.Valid, Window.Valid, GetBits, GetCode, Symbols, LengthPart, DistPart,
        DistExtraPart, Blocks, Finish, Trailer, TrailerFrom, Adler32, StreamHas, CopyMatch;
      r.InRange();
      if w.Full() {
        return Out(HasMoreOutput);
      }
      w.Put(counter);
      state := Symbol;
      g := Go;
    }

    ghost predicate InLength()
      reads this, r, w
    {
      r.Valid() && 3 <= counter && numExtra <= 5 && Means(LengthPart(r.src, r.P(), w.out, lit, dst, counter, numExtra))
    }

    ghost predicate InDist()
      reads this, r, w
    {
      r.Valid() && 3 <= counter && Means(DistPart(r.src, r.P(), w.out, lit, dst, counter))
    }

    ghost predicate InDistBits()
      reads this, r, w
    {
      r.Valid() && 3 <= counter && numExtra <= 13 && dist + Shl(1, numExtra) <= 32769 &&
      Means(DistExtraPart(r.src, r.P(), w.out, lit, dst, counter, dist, numExtra))
    }

    ghost predicate InBlocks()
      reads this, r, w
    {
      r.Valid() && Wrap(Blocks(r.src, r.P(), w.out)) == target
    }

    ghost predicate InTrailer()
      reads this, r, w
    {
      r.Valid() && zlib && counter <= 4 && TrailerFrom(r.src, r.P(), counter, zAdler, w.out) == target
    }

    ghost predicate InFinished()
      reads this, r, w
    {
      r.Valid() && target == if !zlib || zAdler == Adler32(w.out) then Done(w.out, r.P()) else Mismatch(w.out, r.P())
    }

    ghost predicate BlockOver()
      reads this, r, w
    {
      || (state == BlockStart && InBlocks())
      || (state == AtTrailer && InTrailer())
      || (state == Finished && InFinished())
    }

    lemma EndNext(p: nat, out: seq<Byte>)
      requires p <= 8 * |r.src| && Means(Next(p, out))
      ensures final % 2 == 0 ==> Wrap(Blocks(r.src, p, out)) == target
      ensures final % 2 == 1 && zlib ==> TrailerFrom(r.src, Align(p), 0, 1, out) == target
      ensures final % 2 == 1 && !zlib ==> Done(out, p) == target
    {
      hide Blocks, TrailerFrom, Adler32, Trailer;
      if final % 2 == 1 && zlib {
        TrailerIs(r.src, out, p);
      }
    }

    /** Line 513 on: the next block, the trailer, or the end. */
    method EndBlock()
      requires Base() && Means(Next(r.P(), w.out)) && zAdler == 1
      modifies this`state, this`counter, r`bitBuf, r`numBits
      ensures Base() && BlockOver() && r.P() >= old(r.P())
    {
      hide Decompressor.Known, HuffmanTable.Decodes, Reader.Valid, Window.Valid, GetBits, GetCode, Symbols, LengthPart, DistPart,
        DistExtraPart, Blocks, Finish, Trailer, TrailerFrom, Adler32, StreamHas, CopyMatch;
      r.InRange();
      EndNext(r.P(), w.out);
      if final % 2 == 0 {
        state := BlockStart;
      } else if zlib {
        r.SkipToByte();
        counter := 0;
        state := AtTrailer;
      } else {
        state := Finished;
      }
    }

    /** After a symbol that is not a literal (lines 448-450). */
    method AfterSymbol(sym: nat)
      requires Ready() && 256 <= sym && zAdler == 1
      requires if sym == 256 then Means(Next(r.P(), w.out))
        else sym <= 285 && Means(LengthPart(r.src, r.P(), w.out, lit, dst, LengthBase(sym), LengthExtra(sym)))
      modifies this`state, this`counter, this`numExtra, r`bitBuf, r`numBits
      ensures Base() && r.P() >= old(r.P())
      ensures BlockOver() || (Ready() && state == LengthBits && InLength())
    {
      hide Decompressor.Known, HuffmanTable.Decodes, Reader.Valid, Window.Valid, GetBits, GetCode, Symbols, LengthPart, DistPart,
        DistExtraPart, Blocks, Finish, Trailer, TrailerFrom, Adler32, StreamHas, CopyMatch, LengthBase, LengthExtra,
        DistBase, DistExtra, Shl;
      r.InRange();
      if sym == 256 {
        EndBlock();
      } else {
        counter, numExtra := LengthBase(sym), LengthExtra(sym);
        state := LengthBits;
        LengthRange(sym);
      }
    }

    /** Lines 402-403: one symbol, the careful way. */
    method StepSymbol() returns (g: Signal)
      requires Ready() && InSymbols(w.out) && (state == Symbol || state == SymbolFill) && (state == SymbolFill ==> r.Lacks(lit))
      modifies this`state, this`counter, this`numExtra, r
      ensures Base() && Kept() && Stops(g) && w.out == old(w.out)
      ensures g != Go ==> Ready() && state == SymbolFill && InSymbols(w.out) && r.Lacks(lit)
      ensures g == Go ==> r.P() > old(r.P())
      ensures g == Go ==> BlockOver() || (Ready() && ((state == LengthBits && InLength()) || (state == Literal && InLiteral())))
    {
      hide Decompressor.Known, HuffmanTable.Decodes, Reader.Valid, Window.Valid, GetBits, GetCode, Symbols, LengthPart, DistPart,
        DistExtraPart, Blocks, Finish, Trailer, TrailerFrom, Adler32, CopyMatch, StreamHas, Reader.Lacks, Structure,
        Decompressor.Means;
      Apart();
      r.InRange();
      SymbolNext(r.P(), w.out);
      var ok, sym := r.NextSym(litTable, state == SymbolFill, lit);
      if !ok {
        state := SymbolFill;
        return Out(NeedsMoreInput);
      }
      g := Go;
      r.InRange();
      TakeSymbol(sym);
    }

    /** Lines 403-405: the symbol just decoded, a literal or not. */
    method TakeSymbol(sym: nat)
      requires Ready() && state != AtTrailer && state != Finished && r.P() <= 8 * |r.src|
      requires if sym < 256 then Means(Symbols(r.src, r.P(), w.out + [sym], lit, dst))
        else if sym == 256 then Means(Next(r.P(), w.out))
        else sym <= 285 && Means(LengthPart(r.src, r.P(), w.out, lit, dst, LengthBase(sym), LengthExtra(sym)))
      modifies this`state, this`counter, this`numExtra, r
      ensures Base() && Kept() && w.out == old(w.out) && r.P() >= old(r.P())
      ensures BlockOver() || (Ready() && ((state == LengthBits && InLength()) || (state == Literal && InLiteral())))
    {
      hide Decompressor.Known, HuffmanTable.Decodes, Reader.Valid, Window.Valid, GetBits, GetCode, Symbols, LengthPart, DistPart,
        DistExtraPart, Blocks, Finish, Trailer, TrailerFrom, Adler32, CopyMatch, StreamHas, Reader.Lacks, Structure,
        Decompressor.Means;
      Apart();
      if sym >= 256 {
        AfterSymbol(sym);
      } else {
        counter := sym;
        state := Literal;
      }
    }

    /** Extra bits, with the tables as they are. */
    method ReadExtra(n: nat) returns (ok: bool, v: nat)
      requires Ready() && n <= 16 && r.P() + n <= r.need
      modifies r
      ensures Ready() && Kept()
      ensures ok ==> v == GetBits(r.src, old(r.P()), n) && r.P() == old(r.P()) + n
      ensures !ok ==> r.Starved() && r.P() == old(r.P())
    {
      hide Decompressor.Known, HuffmanTable.Decodes, Reader.Valid, Window.Valid, GetCode, Symbols, LengthPart, DistPart, DistExtraPart,
        Blocks, Finish, Trailer, TrailerFrom, Adler32, StreamHas, CopyMatch, Structure,
        GetBits, Decompressor.Means;
      Apart();
      r.InRange();
      ok, v := r.Get(n);
    }

    /** Line 451: the extra bits of the length. */
    method StepLength() returns (g: Signal)
      requires Ready() && state == LengthBits && InLength()
      modifies this`state, this`counter, r
      ensures Ready() && Kept() && Stops(g) && w.out == old(w.out) && r.P() >= old(r.P())
      ensures if g == Go then state == Distance && InDist() else state == LengthBits && InLength()
    {
      hide Decompressor.Known, HuffmanTable.Decodes, Reader.Valid, Window.Valid, GetCode, Symbols, LengthPart, DistPart, DistExtraPart,
        Blocks, Finish, Trailer, TrailerFrom, Adler32, StreamHas, CopyMatch, Structure,
        GetBits, Decompressor.Means;
      Apart();
      var ok := ReadLength();
      if ok {
        state := Distance;
        g := Go;
      } else {
        g := Out(NeedsMoreInput);
      }
    }

    method ReadLength() returns (ok: bool)
      requires Ready() && state == LengthBits && InLength()
      modifies this`counter, r
      ensures Ready() && Kept() && r.P() >= old(r.P()) && state == LengthBits
      ensures !ok ==> r.Starved() && InLength()
      ensures ok ==> 3 <= counter && r.P() <= 8 * |r.src| && Means(DistPart(r.src, r.P(), w.out, lit, dst, counter))
    {
      hide Decompressor.Known, HuffmanTable.Decodes, Reader.Valid, Window.Valid, GetCode, Symbols, LengthPart, DistPart, DistExtraPart,
        Blocks, Finish, Trailer, TrailerFrom, Adler32, StreamHas, CopyMatch, Structure,
        GetBits, Decompressor.Means;
      r.InRange();
      LengthNext(r.P(), w.out, counter, numExtra);
      ghost var n := counter + GetBits(r.src, r.P(), numExtra);
      NoExtra(r.P(), numExtra);
      if numExtra == 0 {
        assert n == counter;
        return true;
      }
      var extra;
      ok, extra := ReadExtra(numExtra);
      if ok {
        counter := counter + extra;
        assert counter == n;
        r.InRange();
      }
    }

    /** Lines 453-454. */
    method StepDist() returns (g: Signal)
      requires Ready() && (state == Distance || state == DistanceFill) && InDist() && (state == DistanceFill ==> r.Lacks(dst))
      modifies this`state, this`dist, this`numExtra, r
      ensures Ready() && Kept() && Stops(g) && w.out == old(w.out)
      ensures if g == Go then state == DistanceBits && InDistBits() && r.P() > old(r.P())
        else state == DistanceFill && InDist() && r.Lacks(dst)
    {
      hide Decompressor.Known, HuffmanTable.Decodes, Reader.Valid, Window.Valid, GetBits, GetCode, Symbols, LengthPart, DistPart,
        DistExtraPart, Blocks, Finish, Trailer, TrailerFrom, Adler32, CopyMatch, StreamHas, Reader.Lacks, LengthBase,
        LengthExtra, DistBase, DistExtra, Shl, Structure, Decompressor.Means,
        HasSym, Sym;
      Apart();
      r.InRange();
      DistNext(r.P(), w.out, counter);
      var ok, sym := r.NextSym(distTable, state == DistanceFill, dst);
      if !ok {
        state := DistanceFill;
        return Out(NeedsMoreInput);
      }
      g := Go;
      r.InRange();
      TakeDist(sym);
    }

    method TakeDist(sym: nat)
      requires Ready() && state != AtTrailer && state != Finished && 3 <= counter && sym <= 29 && r.P() <= 8 * |r.src|
      requires Means(DistExtraPart(r.src, r.P(), w.out, lit, dst, counter, DistBase(sym), DistExtra(sym)))
      modifies this`state, this`dist, this`numExtra
      ensures Ready() && state == DistanceBits && InDistBits()
    {
      hide Decompressor.Known, HuffmanTable.Decodes, Reader.Valid, Window.Valid, GetBits, GetCode, Symbols, LengthPart, DistPart,
        DistExtraPart, Blocks, Finish, Trailer, TrailerFrom, Adler32, CopyMatch, StreamHas, Reader.Lacks, LengthBase,
        LengthExtra, DistBase, DistExtra, Shl, Structure, Decompressor.Means,
        HasSym, Sym;
      Apart();
      numExtra, dist := DistExtra(sym), DistBase(sym);
      DistRange(sym);
      state := DistanceBits;
    }

    ghost predicate InCopy()
      reads this, r, w
    {
      && r.Valid() && w.size > 0 && Laps(from, w.cur, w.size) && 0 < dist <= |w.out| && dist <= 32768
      && Means(Symbols(r.src, r.P(), CopyMatch(w.out, dist, counter + 1), lit, dst))
    }

    /** The match at hand, dist back and counter bytes long (lines 457-510). */
    method CopyNow() returns (g: Signal)
      requires Ready() && state == DistanceBits && 3 <= counter && 0 < dist <= |w.out| && dist <= 32768
      requires Means(Symbols(r.src, r.P(), CopyMatch(w.out, dist, counter), lit, dst))
      modifies this`state, this`counter, this`from, w`cur, w`out, w.buf
      ensures Ready() && Kept() && Stops(g)
      ensures if g == Go then state == Symbol && InSymbols(w.out) else state == CopyRest && InCopy()
    {
      hide Decompressor.Known, HuffmanTable.Decodes, Reader.Valid, Window.Valid, GetBits, GetCode, Symbols, LengthPart, DistPart,
        DistExtraPart, Blocks, Finish, Trailer, TrailerFrom, Adler32, StreamHas, CopyMatch, Shl, Ring, Structure,
        Decompressor.Means, Laps,
        HasSym;
      Apart();
      if nonWrap && dist > w.cur {
        SourceInside();
        assert false; // the source gives up here (state 37); a good stream never gets there
      }
      g := CopyMatchNow();
    }

    /** The copy itself leaves all else ready. */
    method CopyInWindow() returns (done: bool, left: nat, at: nat)
      requires Ready() && 3 <= counter && 0 < dist <= |w.out| && dist <= 32768
      modifies w`cur, w`out, w.buf
      ensures Ready() && Kept() && Laps(at, w.cur, w.size) && |w.out| >= |old(w.out)|
      ensures done ==> w.out == CopyMatch(old(w.out), dist, counter)
      ensures !done ==> left > 0 && w.Full() && CopyMatch(w.out, dist, left) == CopyMatch(old(w.out), dist, counter)
    {
      hide Decompressor.Known, HuffmanTable.Decodes, Reader.Valid, Window.Valid, GetBits, GetCode, Symbols, LengthPart, DistPart,
        DistExtraPart, Blocks, Finish, Trailer, TrailerFrom, Adler32, StreamHas, CopyMatch, Shl, Ring, Structure,
        Decompressor.Means, Laps,
        HasSym;
      Apart();
      done, left, at := w.Copy(dist, counter, wide);
    }

    method CopyMatchNow() returns (g: Signal)
      requires Ready() && state == DistanceBits && 3 <= counter && 0 < dist <= |w.out| && dist <= 32768
      requires Means(Symbols(r.src, r.P(), CopyMatch(w.out, dist, counter), lit, dst))
      modifies this`state, this`counter, this`from, w`cur, w`out, w.buf
      ensures Ready() && Kept() && Stops(g)
      ensures if g == Go then state == Symbol && InSymbols(w.out) else state == CopyRest && InCopy()
    {
      hide Decompressor.Known, HuffmanTable.Decodes, Reader.Valid, Window.Valid, GetBits, GetCode, Symbols, LengthPart, DistPart,
        DistExtraPart, Blocks, Finish, Trailer, TrailerFrom, Adler32, StreamHas, CopyMatch, Shl, Ring, Structure,
        Decompressor.Means, Laps,
        HasSym;
      var done, left, at := CopyInWindow();
      if done {
        state := Symbol;
        return Go;
      }
      from, counter, state := at, left - 1, CopyRest;
      g := Out(HasMoreOutput);
    }

    lemma SourceInside()
      requires Base() && nonWrap
      ensures w.cur == |w.out|
    {
    }

    /** Lines 455-510: the extra bits of the distance, then the copy. */
    method StepDistBits() returns (g: Signal)
      requires Ready() && state == DistanceBits && InDistBits()
      modifies this`state, this`counter, this`dist, this`from, this`numExtra, r, w`cur, w`out, w.buf
      ensures Ready() && Kept() && Stops(g) && r.P() >= old(r.P())
      ensures g == Go ==> state == Symbol && InSymbols(w.out)
      ensures g != Go ==> (state == CopyRest && InCopy()) || (state == DistanceBits && InDistBits() && w.out == old(w.out))
    {
      hide Decompressor.Known, HuffmanTable.Decodes, Reader.Valid, Window.Valid, GetBits, GetCode, Symbols, LengthPart, DistPart,
        DistExtraPart, Blocks, Finish, Trailer, TrailerFrom, Adler32, StreamHas, CopyMatch, Shl, Ring, Structure,
        Decompressor.Means, HasSym, Sym, Laps, Decompressor.InCopy, Decompressor.InSymbols;
      Apart();
      var ok := ReadDist();
      if ok {
        g := CopyNow();
      } else {
        g := Out(NeedsMoreInput);
      }
    }

    /** Line 455. */
    method ReadDist() returns (ok: bool)
      requires Ready() && state == DistanceBits && InDistBits()
      modifies this`dist, r
      ensures Ready() && Kept() && r.P() >= old(r.P()) && state == DistanceBits
      ensures !ok ==> r.Starved() && InDistBits()
      ensures ok ==> 0 < dist <= |w.out| && dist <= 32768 && r.P() <= 8 * |r.src|
      ensures ok ==> Means(Symbols(r.src, r.P(), CopyMatch(w.out, dist, counter), lit, dst))
    {
      hide Decompressor.Known, HuffmanTable.Decodes, Reader.Valid, Window.Valid, GetBits, GetCode, Symbols, LengthPart, DistPart,
        DistExtraPart, Blocks, Finish, Trailer, TrailerFrom, Adler32, StreamHas, CopyMatch, Shl, Ring, Structure,
        Decompressor.Means, HasSym, Sym, Laps, Decompressor.InCopy, Decompressor.InSymbols;
      r.InRange();
      DistExtraNext(r.P(), w.out, counter, dist, numExtra);
      ghost var d := dist + GetBits(r.src, r.P(), numExtra);
      DistExtraRange(r.P(), dist, numExtra);
      if numExtra == 0 {
        assert d == dist;
        return true;
      }
      var extra;
      ok, extra := ReadExtra(numExtra);
      if ok {
        dist := dist + extra;
        assert dist == d;
        r.InRange();
      }
    }

    lemma DistExtraRange(p: nat, base: nat, extra: nat)
      requires p + extra <= 8 * |r.src| && base + Shl(1, extra) <= 32769
      ensures base + GetBits(r.src, p, extra) <= 32768
      ensures extra == 0 ==> GetBits(r.src, p, extra) == 0
    {
      GetBitsBound(r.src, p, extra);
    }

    /** Lines 467-472 after a suspension. */
    method StepCopyRest() returns (g: Signal)
      requires Ready() && state == CopyRest && InCopy()
      modifies this`state, this`counter, this`from, w`cur, w`out, w.buf
      ensures Ready() && Kept() && Stops(g)
      ensures if g == Go then state == Symbol && InSymbols(w.out) else state == CopyRest && InCopy()
    {
      hide Decompressor.Known, HuffmanTable.Decodes, Reader.Valid, Window.Valid, GetBits, GetCode, Symbols, LengthPart, DistPart,
        DistExtraPart, Blocks, Finish, Trailer, TrailerFrom, Adler32, StreamHas, CopyMatch, Shl, Ring, Structure,
        Decompressor.Means;
      Apart();
      var left, at := w.CopyWrapped(dist, counter + 1, from);
      CopyMatchDone(w.out, dist);
      if left == 0 {
        state := Symbol;
        return Go;
      }
      from, counter := at, left - 1;
      g := Out(HasMoreOutput);
    }

    lemma CopyMatchDone(out: seq<Byte>, dist: nat)
      requires 0 < dist <= |out|
      ensures CopyMatch(out, dist, 0) == out
    {
    }

    /** Lines 410-446: up to two symbols without further checks. */
    method StepFast() returns (g: Signal)
      requires Ready() && state == Symbol && InSymbols(w.out)
      requires |r.input| - r.cur >= 4 && w.end - w.cur >= 2
      modifies this`state, this`counter, this`numExtra, r, w`cur, w`out, w.buf
      ensures Base() && Kept() && g == Go && r.P() > old(r.P())
      ensures BlockOver() || (Ready() && ((state == LengthBits && InLength()) || (state == Symbol && InSymbols(w.out))))
    {
      hide Decompressor.Known, HuffmanTable.Decodes, Reader.Valid, Window.Valid, GetBits, GetCode, Symbols, LengthPart, DistPart,
        DistExtraPart, Blocks, Finish, Trailer, TrailerFrom, Adler32, StreamHas, CopyMatch, Shl, Ring, Structure,
        Decompressor.Means;
      Apart();
      g := Go;
      r.InRange();
      SymbolNext(r.P(), w.out);
      var raw := r.NextSymFast(litTable, if r.wideBits then 30 else 15, if r.wideBits then 4 else 2, lit);
      counter := raw;
      RawParts(raw);
      if raw / 256 % 2 == 1 {
        AfterSymbol(raw % 512);
        return;
      }
      FastSecond(raw % 256);
    }

    /** Lines 426-445: the second symbol, and the first one's byte. */
    method FastSecond(first: Byte)
      requires Ready() && state == Symbol && InSymbols(w.out + [first])
      requires (if r.wideBits then r.numBits >= 15 else |r.input| - r.cur >= 2) && w.end - w.cur >= 2
      modifies this`state, this`counter, this`numExtra, r, w`cur, w`out, w.buf
      ensures Base() && Kept() && r.P() > old(r.P())
      ensures BlockOver() || (Ready() && ((state == LengthBits && InLength()) || (state == Symbol && InSymbols(w.out))))
    {
      hide Decompressor.Known, HuffmanTable.Decodes, Reader.Valid, Window.Valid, GetBits, GetCode, Symbols, LengthPart, DistPart,
        DistExtraPart, Blocks, Finish, Trailer, TrailerFrom, Adler32, StreamHas, CopyMatch, Shl, Ring, Structure,
        Decompressor.Means, LengthBase, LengthExtra;
      Apart();
      var raw2 := FastRaw(first);
      w.Put(first);
      r.InRange();
      SecondSymbol(raw2);
    }

    /** What the symbol just decoded means. */
    ghost predicate Says(sym: nat, out: seq<Byte>)
      reads this, r
    {
      && r.Valid()
      && if sym < 256 then Means(Symbols(r.src, r.P(), out + [sym], lit, dst))
         else if sym == 256 then Means(Next(r.P(), out))
         else sym <= 285 && Means(LengthPart(r.src, r.P(), out, lit, dst, LengthBase(sym), LengthExtra(sym)))
    }

    /** Lines 426-435: the symbol itself. */
    method FastRaw(ghost first: Byte) returns (raw2: nat)
      requires Ready() && state == Symbol && InSymbols(w.out + [first])
      requires if r.wideBits then r.numBits >= 15 else |r.input| - r.cur >= 2
      modifies r
      ensures Ready() && Kept() && r.P() > old(r.P())
      ensures Says(raw2 % 512, w.out + [first])
    {
      hide Decompressor.Known, HuffmanTable.Decodes, Reader.Valid, Window.Valid, GetBits, GetCode, Symbols, LengthPart, DistPart,
        DistExtraPart, Blocks, Finish, Trailer, TrailerFrom, Adler32, StreamHas, CopyMatch, Shl, Ring, Structure,
        Decompressor.Means, HasSym, Sym, LengthBase, LengthExtra;
      Apart();
      r.InRange();
      SymbolNext(r.P(), w.out + [first]);
      raw2 := r.NextSymFast(litTable, 15, 2, lit);
      r.InRange();
    }

    method SecondSymbol(raw2: nat)
      requires Ready() && state == Symbol && !w.Full() && Says(raw2 % 512, w.out)
      modifies this`state, this`counter, this`numExtra, r, w`cur, w`out, w.buf
      ensures Base() && Kept() && r.P() >= old(r.P())
      ensures BlockOver() || (Ready() && ((state == LengthBits && InLength()) || (state == Symbol && InSymbols(w.out))))
    {
      hide Decompressor.Known, HuffmanTable.Decodes, Reader.Valid, Window.Valid, GetBits, GetCode, Symbols, LengthPart, DistPart,
        DistExtraPart, Blocks, Finish, Trailer, TrailerFrom, Adler32, StreamHas, CopyMatch, Shl, Ring, Structure,
        Decompressor.Means;
      Apart();
      RawParts(raw2);
      if raw2 / 256 % 2 == 1 {
        counter := raw2;
        AfterSymbol(raw2 % 512);
      } else {
        w.Put(raw2 % 256);
      }
    }

    lemma RawParts(raw: nat)
      ensures raw / 256 % 2 == 1 <==> raw % 512 >= 256
      ensures raw % 512 < 256 ==> raw % 256 == raw % 512
    {
    }

    // ---- stored blocks

    lemma StoredFits(i: nat, out: seq<Byte>)
      requires i <= |r.src| && Known() && Means(Stored(r.src, 8 * i, out))
      ensures i + 4 <= |r.src| && 8 * (i + 4) <= r.need
    {
      hide Finish, Trailer, StoredData, GetBits;
      OtherIsOutside(Stored(r.src, 8 * i, out));
    }

    /** The two lengths are complements, and data follows, or the stream is refused. */
    ghost predicate Follows(p: nat, len: nat, nlen: nat, out: seq<Byte>)
      requires p <= 8 * |r.src| && p % 8 == 0
      reads this`final
    {
      if len + nlen == 0xFFFF then Means(StoredData(r.src, p, len, out)) else target == Rejected(out)
    }

    lemma StoredNext(i: nat, p: nat, out: seq<Byte>)
      requires i + 4 <= |r.src| && p == 8 * i && p % 8 == 0 && Known() && Means(Stored(r.src, p, out))
      ensures (p + 32) % 8 == 0 && p + 32 <= 8 * |r.src|
      ensures Follows(p + 32, Word16(r.src[i], r.src[i + 1]), Word16(r.src[i + 2], r.src[i + 3]), out)
    {
      hide Decompressor.Known, Finish, Trailer, StoredData, GetBits, Word16;
      OtherIsOutside(Stored(r.src, p, out));
      TwoBytes(r.src, p);
      TwoBytes(r.src, p + 16);
      if GetBits(r.src, p, 16) + GetBits(r.src, p + 16, 16) != 0xFFFF {
        RefusedIsRejected(out);
      }
    }

    lemma RefusedIsRejected(out: seq<Byte>)
      requires Means(Refused(out))
      ensures target == Rejected(out)
    {
    }

    lemma StoredDataNext(p: nat, n: nat, out: seq<Byte>)
      requires p <= 8 * |r.src| && p % 8 == 0 && Known() && Means(StoredData(r.src, p, n, out))
      ensures p + 8 * n <= r.need
      ensures n == 0 ==> Means(Next(p, out))
      ensures n > 0 ==> Means(StoredData(r.src, p + 8, n - 1, out + [r.src[p / 8]]))
    {
      hide Finish, Trailer;
      OtherIsOutside(StoredData(r.src, p, n, out));
      if n == 0 {
        assert out + r.src[p / 8..p / 8] == out;
      } else {
        assert out + [r.src[p / 8]] + r.src[p / 8 + 1..p / 8 + n] == out + r.src[p / 8..p / 8 + n];
        assert (p + 8) / 8 == p / 8 + 1;
      }
    }

    ghost predicate InRawHeader()
      reads this, r, w, rawHeader
    {
      r.Valid() && counter <= 3 && r.P() % 8 == 0 && RawHeaderFrom(r.P() / 8 - counter)
    }

    /** The bytes read so far are those from byte i of the stream. */
    ghost predicate RawHeaderFrom(i: int)
      reads this, r, w, rawHeader
    {
      && r.Valid() && 0 <= i && i + counter <= |r.src| && counter <= 4 && rawHeader.Length == 4 && r.P() == 8 * (i + counter)
      && rawHeader[..counter] == r.src[i..i + counter]
      && Means(Stored(r.src, 8 * i, w.out))
    }

    ghost predicate InRawByte()
      reads this, r, w
    {
      r.Valid() && r.P() % 8 == 0 && Means(StoredData(r.src, r.P(), counter, w.out))
    }

    ghost predicate InRawWrite()
      reads this, r, w
    {
      r.Valid() && r.P() % 8 == 0 && 0 < counter && dist < 256 && Means(StoredData(r.src, r.P(), counter - 1, w.out + [dist]))
    }

    ghost predicate InFailed()
      reads this, w
    {
      target == Rejected(w.out)
    }

    /** Lines 306-307: a byte of the lengths, and their check after the fourth. */
    method StepRawHeader() returns (g: Signal)
      requires Base() && state == RawHeader && InRawHeader()
      modifies this`state, this`counter, r, rawHeader
      ensures Base() && Kept() && Stops(g) && w.out == old(w.out)
      ensures g != Go ==> state == RawHeader && InRawHeader()
      ensures g == Go ==> r.P() > old(r.P())
      ensures g == Go ==> ((state == RawHeader && InRawHeader()) || (state == RawByte && InRawByte()) || (state == Failed && InFailed()))
    {
      hide Decompressor.Known, HuffmanTable.Decodes, Reader.Valid, Window.Valid, GetBits, Symbols, Blocks, Finish, Trailer, TrailerFrom,
        Adler32, Ring, Structure, TablesPart, SizesPart, ClPart, LensPart, RepeatPart, Stored, StoredData, Block,
        Decompressor.RawHeaderFrom;
      r.InRange();
      ghost var i := r.P() / 8 - counter;
      var ok := RawHeaderByte(i);
      if !ok {
        return Out(NeedsMoreInput);
      }
      g := Go;
      if counter == 4 {
        CheckHeader(i);
      }
    }

    method RawHeaderByte(ghost i: int) returns (ok: bool)
      requires Base() && state == RawHeader && RawHeaderFrom(i) && counter <= 3
      modifies this`counter, r, rawHeader
      ensures Base() && Kept() && RawHeaderFrom(i)
      ensures if ok then counter == old(counter) + 1 && r.P() == old(r.P()) + 8 else counter == old(counter) && r.Starved()
      ensures r.P() % 8 == 0 && r.P() / 8 - counter == i
    {
      hide Decompressor.Known, HuffmanTable.Decodes, Reader.Valid, Window.Valid, GetBits, Symbols, Blocks, Finish, Trailer, TrailerFrom,
        Adler32, Ring, Structure, TablesPart, SizesPart, ClPart, LensPart, RepeatPart, Stored, StoredData, Block;
      ApartHeader();
      r.InRange();
      StoredFits(i, w.out);
      r.BitsAligned();
      var b;
      ok, b := r.NextByte();
      if ok {
        rawHeader[counter] := b;
        counter := counter + 1;
        assert rawHeader[..counter] == r.src[i..i + counter];
      }
    }

    /** Line 307. */
    method CheckHeader(ghost i: int)
      requires Base() && state == RawHeader && RawHeaderFrom(i) && counter == 4
      modifies this`state, this`counter
      ensures Base() && ((state == RawByte && InRawByte()) || (state == Failed && InFailed()))
    {
      hide Decompressor.Known, HuffmanTable.Decodes, Reader.Valid, Window.Valid, GetBits, Symbols, Blocks, Finish, Trailer, TrailerFrom,
        Adler32, Ring, Structure, TablesPart, SizesPart, ClPart, LensPart, RepeatPart, Stored, StoredData, Block,
        Word16;
      StoredNext(i, 8 * i, w.out);
      HeaderBytes(rawHeader[..], r.src, i);
      var len := Word16(rawHeader[0], rawHeader[1]);
      if len != 0xFFFF - Word16(rawHeader[2], rawHeader[3]) {
        state := Failed;
      } else {
        counter, state := len, RawByte;
      }
    }

    lemma HeaderBytes(h: seq<Byte>, src: seq<Byte>, i: nat)
      requires |h| == 4 && i + 4 <= |src| && h[..4] == src[i..i + 4]
      ensures h[0] == src[i] && h[1] == src[i + 1] && h[2] == src[i + 2] && h[3] == src[i + 3]
    {
      assert h == src[i..i + 4];
    }

    /** Lines 308-331: stored bytes, first those in the bit buffer. */
    method StepRawByte() returns (g: Signal)
      requires Base() && state == RawByte && InRawByte()
      modifies this`state, this`counter, this`dist, r, w`cur, w`out, w.buf
      ensures Base() && Kept() && Stops(g)
      ensures g != Go ==> state == RawByte && InRawByte() && counter > 0 && w.out == old(w.out)
      ensures g == Go ==> r.P() > old(r.P()) || (r.P() >= old(r.P()) && BlockOver())
      ensures g == Go ==> BlockOver() || (state == RawByte && InRawByte()) || (state == RawWrite && InRawWrite())
    {
      hide Decompressor.Known, HuffmanTable.Decodes, Reader.Valid, Window.Valid, GetBits, Symbols, Blocks, Finish, Trailer, TrailerFrom,
        Adler32, Ring, Structure, TablesPart, SizesPart, ClPart, LensPart, RepeatPart, Stored, StoredData, Block;
      r.InRange();
      StoredDataNext(r.P(), counter, w.out);
      g := Go;
      if counter == 0 {
        EndBlock();
      } else if r.numBits > 0 {
        BufferedByte();
      } else if w.Full() {
        return Out(HasMoreOutput);
      } else if r.cur >= |r.input| {
        r.OutOfInput(); // so 40 is not reached
        return Out(NeedsMoreInput);
      } else {
        CopyRaw();
      }
    }

    /** Line 310. */
    method BufferedByte()
      requires Base() && state == RawByte && InRawByte() && counter > 0 && r.numBits > 0
      modifies this`state, this`dist, r
      ensures Base() && Kept() && w.out == old(w.out) && state == RawWrite && InRawWrite() && r.P() > old(r.P())
    {
      hide Decompressor.Known, HuffmanTable.Decodes, Reader.Valid, Window.Valid, GetBits, Symbols, Blocks, Finish, Trailer, TrailerFrom,
        Adler32, Ring, Structure, TablesPart, SizesPart, ClPart, LensPart, RepeatPart, Stored, StoredData, Block;
      r.InRange();
      StoredDataNext(r.P(), counter, w.out);
      var ok, b := r.NextByte();
      dist, state := b, RawWrite;
    }

    /** Line 329-330: as many bytes as fit and are there. */
    method CopyRaw()
      requires Base() && state == RawByte && InRawByte() && counter > 0 && r.numBits == 0
      requires !w.Full() && r.cur < |r.input|
      modifies this`counter, r, w`cur, w`out, w.buf
      ensures Base() && Kept() && state == RawByte && InRawByte() && r.P() > old(r.P())
    {
      hide Decompressor.Known, HuffmanTable.Decodes, Reader.Valid, Window.Valid, GetBits, Symbols, Blocks, Finish, Trailer, TrailerFrom,
        Adler32, Ring, Structure, TablesPart, SizesPart, ClPart, LensPart, RepeatPart, Stored, StoredData, Block;
      var room, there := w.end - w.cur, |r.input| - r.cur;
      var n := if room < there then room else there;
      if counter < n {
        n := counter;
      }
      var i := 0;
      while i < n
        invariant 0 <= i <= n && Base() && Kept() && InRawByte() && r.numBits == 0 && n - i <= counter
        invariant n - i <= w.end - w.cur && n - i <= |r.input| - r.cur
        invariant r.P() >= old(r.P()) && (i > 0 ==> r.P() > old(r.P()))
      {
        CopyRawByte();
        i := i + 1;
      }
    }

    method CopyRawByte()
      requires Base() && state == RawByte && InRawByte() && counter > 0 && r.numBits == 0
      requires !w.Full() && r.cur < |r.input|
      modifies this`counter, r, w`cur, w`out, w.buf
      ensures Base() && Kept() && InRawByte() && counter == old(counter) - 1 && r.numBits == 0
      ensures r.P() == old(r.P()) + 8 && w.cur == old(w.cur) + 1 && r.cur == old(r.cur) + 1
    {
      hide Decompressor.Known, HuffmanTable.Decodes, Reader.Valid, Window.Valid, GetBits, Symbols, Blocks, Finish, Trailer, TrailerFrom,
        Adler32, Ring, Structure, TablesPart, SizesPart, ClPart, LensPart, RepeatPart, Stored, StoredData, Block;
      r.InRange();
      StoredDataNext(r.P(), counter, w.out);
      var ok, b := r.TakeByte();
      w.Put(b);
      counter := counter - 1;
    }

    /** Lines 311-313. */
    method StepRawWrite() returns (g: Signal)
      requires Base() && state == RawWrite && InRawWrite()
      modifies this`state, this`counter, w`cur, w`out, w.buf
      ensures Base() && Kept() && Stops(g)
      ensures if g == Go then state == RawByte && InRawByte() else state == RawWrite && InRawWrite() && w.out == old(w.out)
    {
      hide Decompressor.Known, HuffmanTable.Decodes, Reader.Valid, Window.Valid, GetBits, Symbols, Blocks, Finish, Trailer, TrailerFrom,
        Adler32, Ring, Structure, TablesPart, SizesPart, ClPart, LensPart, RepeatPart, Stored, StoredData, Block;
      if w.Full() {
        return Out(HasMoreOutput);
      }
      w.Put(dist);
      counter, state := counter - 1, RawByte;
      g := Go;
    }

    // ---- block headers

    ghost predicate InTables(l: seq<nat>, d: seq<nat>)
      reads this, r, w, litTable.codeSize, distTable.codeSize, tableSizes
    {
      && r.Valid() && Structure() && Means(TablesPart(r.src, r.P(), w.out, l, d))
      && tableSizes[0] <= 288 && tableSizes[1] <= 288
      && l == litTable.codeSize[..tableSizes[0]] && d == distTable.codeSize[..tableSizes[1]]
      && LensOk(l) && LensOk(d)
    }

    lemma TablesNext(p: nat, out: seq<Byte>, l: seq<nat>, d: seq<nat>)
      requires p <= 8 * |r.src| && Means(TablesPart(r.src, p, out, l, d))
      ensures if Acceptable(l) && Acceptable(d) then Means(Symbols(r.src, p, out, l, d)) else target == Rejected(out)
    {
      hide Finish, Trailer, Acceptable;
      if !(Acceptable(l) && Acceptable(d)) {
        RefusedIsRejected(out);
      }
    }

    /** Lines 351-375 for the distance code, then for the literals. */
    method BuildBoth(ghost l: seq<nat>, ghost d: seq<nat>)
      requires Base() && InTables(l, d) && zAdler == 1 && state != AtTrailer && state != Finished
      modifies this`state, this`lit, this`dst
      modifies litTable.lookUp, litTable.tree, litTable`nodes, distTable.lookUp, distTable.tree, distTable`nodes
      ensures Base() && ((state == Failed && InFailed()) || (state == Symbol && Ready() && InSymbols(w.out)))
    {
      hide Decompressor.Known, HuffmanTable.Decodes, Reader.Valid, Window.Valid, GetBits, Symbols, Blocks, Finish, Trailer, TrailerFrom,
        Adler32, Ring, Structure, TablesPart, SizesPart, ClPart, LensPart, RepeatPart, Stored, StoredData, Block,
        LensOk, Decompressor.Means;
      ApartTables();
      r.InRange();
      TablesNext(r.P(), w.out, l, d);
      LensAre(distTable.codeSize[..], tableSizes[1], d);
      var ok := distTable.Build(tableSizes[1]);
      if !ok {
        state := Failed;
        return;
      }
      BuildLit(l, d);
    }

    method BuildLit(ghost l: seq<nat>, ghost d: seq<nat>)
      requires Base() && zAdler == 1 && state != AtTrailer && state != Finished
      requires tableSizes[0] <= 288 && litTable.codeSize.Length == 288 && l == litTable.codeSize[..tableSizes[0]] && LensOk(l)
      requires distTable.Decodes(d)
      requires if Acceptable(l) then Means(Symbols(r.src, r.P(), w.out, l, d)) else target == Rejected(w.out)
      modifies this`state, this`lit, this`dst, litTable.lookUp, litTable.tree, litTable`nodes
      ensures Base() && ((state == Failed && InFailed()) || (state == Symbol && Ready() && InSymbols(w.out)))
    {
      hide Decompressor.Known, HuffmanTable.Decodes, Reader.Valid, Window.Valid, GetBits, Symbols, Blocks, Finish, Trailer, TrailerFrom,
        Adler32, Ring, Structure, TablesPart, SizesPart, ClPart, LensPart, RepeatPart, Stored, StoredData, Block,
        LensOk, Acceptable, Decompressor.Means;
      ApartTables();
      LensAre(litTable.codeSize[..], tableSizes[0], l);
      var ok := litTable.Build(tableSizes[0]);
      if ok {
        lit, dst, state := l, d, Symbol;
      } else {
        state := Failed;
      }
    }

    lemma LensAre(a: seq<Byte>, n: nat, l: seq<nat>)
      requires n <= |a| && l == a[..n] && LensOk(l)
      ensures forall i :: 0 <= i < n ==> a[i] <= MAX_BITS
    {
      forall i | 0 <= i < n ensures a[i] <= MAX_BITS {
        assert a[i] == l[i];
      }
    }

    lemma BlockNext(p: nat, out: seq<Byte>)
      requires p <= 8 * |r.src| && Known() && Wrap(Blocks(r.src, p, out)) == target
      ensures p + 3 <= r.need <= 8 * |r.src|
      ensures var f := GetBits(r.src, p, 3);
        Wrap(Finish(r.src, f % 2 == 1, Block(r.src, p + 3, f / 2, out))) == target
    {
      hide Block, TrailerFrom, Adler32;
      BlocksEnd(r.src, p, out);
      TrailerEnds(r.src, Blocks(r.src, p, out));
      if p + 3 <= 8 * |r.src| {
        GetBitsHead(r.src, p, 3);
      }
    }

    lemma TypeOf(p: nat)
      requires p + 3 <= 8 * |r.src|
      ensures GetBits(r.src, p, 3) / 2 < 4
    {
      GetBitsBound(r.src, p, 3);
      assert Shl(1, 3) == 8;
    }

    /** The code lengths of fixed blocks (lines 341-343). */
    method FixedSizes()
      requires Structure()
      modifies tableSizes, litTable.codeSize, distTable.codeSize
      ensures tableSizes[0] == 288 && tableSizes[1] == 32 && tableSizes[2] == old(tableSizes[2])
      ensures litTable.codeSize[..288] == FixedLit() && distTable.codeSize[..32] == FixedDist()
    {
      hide LensOk;
      ApartCodeSizes();
      tableSizes[0], tableSizes[1] := 288, 32;
      forall i | 0 <= i < 32 { distTable.codeSize[i] := 5; }
      for i := 0 to 288
        invariant forall j :: 0 <= j < i ==> litTable.codeSize[j] == Fixed(j)
        invariant forall j :: 0 <= j < 32 ==> distTable.codeSize[j] == 5
        invariant tableSizes[0] == 288 && tableSizes[1] == 32 && tableSizes[2] == old(tableSizes[2])
      {
        litTable.codeSize[i] := if i <= 143 then 8 else if i <= 255 then 9 else if i <= 279 then 7 else 8;
      }
      assert litTable.codeSize[..288] == FixedLit();
      assert distTable.codeSize[..32] == FixedDist();
    }

    lemma FixedOk()
      ensures LensOk(FixedLit()) && LensOk(FixedDist())
    {
    }

    ghost predicate InSizes()
      reads this, r, w, tableSizes
    {
      r.Valid() && counter < 3 && tableSizes.Length == 3 && SizesRange(tableSizes[..counter]) &&
      Means(SizesPart(r.src, r.P(), w.out, tableSizes[..counter]))
    }

    ghost predicate SizesRange(n: seq<nat>) {
      (|n| > 0 ==> 257 <= n[0] <= 288) && (|n| > 1 ==> 1 <= n[1] <= 32) && (|n| > 2 ==> 4 <= n[2] <= 19)
    }

    /** Lines 302-350: the block header up to the codes. */
    method StepBlockStart() returns (g: Signal)
      requires Base() && state == BlockStart && InBlocks()
      modifies this`state, this`final, this`counter, this`lit, this`dst, r, tableSizes, litTable.codeSize, distTable.codeSize
      modifies litTable.lookUp, litTable.tree, litTable`nodes, distTable.lookUp, distTable.tree, distTable`nodes
      ensures Base() && Kept() && Stops(g) && w.out == old(w.out)
      ensures g != Go ==> state == BlockStart && InBlocks()
      ensures g == Go ==> r.P() > old(r.P())
      ensures g == Go ==> ((state == RawHeader && InRawHeader()) || (state == Sizes && InSizes()) || (state == Failed && InFailed())
        || (state == Symbol && Ready() && InSymbols(w.out)))
    {
      hide Decompressor.Known, HuffmanTable.Decodes, Reader.Valid, Window.Valid, GetBits, Symbols, Blocks, Finish, Trailer, TrailerFrom,
        Adler32, Ring, Structure, TablesPart, SizesPart, ClPart, LensPart, RepeatPart, Stored, StoredData, Block;
      r.InRange();
      BlockNext(r.P(), w.out);
      TypeOf(r.P());
      var ok, f := r.Get(3);
      if !ok {
        return Out(NeedsMoreInput);
      }
      final := f;
      Dispatch(f / 2);
      g := Go;
    }

    /** Lines 303-350 by block type. */
    method Dispatch(t: nat)
      requires Base() && state == BlockStart && t < 4 && Means(Block(r.src, r.P(), t, w.out))
      modifies this`state, this`counter, this`lit, this`dst, r`bitBuf, r`numBits, tableSizes, litTable.codeSize, distTable.codeSize
      modifies litTable.lookUp, litTable.tree, litTable`nodes, distTable.lookUp, distTable.tree, distTable`nodes
      ensures Base() && r.P() >= old(r.P())
      ensures (state == RawHeader && InRawHeader()) || (state == Sizes && InSizes()) || (state == Failed && InFailed())
        || (state == Symbol && Ready() && InSymbols(w.out))
    {
      hide Decompressor.Known, HuffmanTable.Decodes, Reader.Valid, Window.Valid, GetBits, Symbols, Blocks, Finish, Trailer, TrailerFrom,
        Adler32, Ring, Structure, TablesPart, SizesPart, ClPart, LensPart, RepeatPart, Stored, StoredData, Block;
      r.InRange();
      BlockIs(r.P(), t, w.out);
      if t == 0 {
        StartStored();
      } else if t == 3 {
        RefusedIsRejected(w.out);
        state := Failed;
      } else if t == 1 {
        StartFixed();
      } else {
        ApartSizes();
        counter, state := 0, Sizes;
        assert tableSizes[..0] == [];
      }
    }

    method StartFixed()
      requires Base() && state == BlockStart && Means(TablesPart(r.src, r.P(), w.out, FixedLit(), FixedDist()))
      modifies this`state, this`lit, this`dst, tableSizes, litTable.codeSize, distTable.codeSize
      modifies litTable.lookUp, litTable.tree, litTable`nodes, distTable.lookUp, distTable.tree, distTable`nodes
      ensures Base() && ((state == Failed && InFailed()) || (state == Symbol && Ready() && InSymbols(w.out)))
    {
      hide Decompressor.Known, HuffmanTable.Decodes, Reader.Valid, Window.Valid, GetBits, Symbols, Blocks, Finish, Trailer, TrailerFrom,
        Adler32, Ring, Structure, TablesPart, SizesPart, ClPart, LensPart, RepeatPart, Stored, StoredData, Block,
        LensOk;
      ApartCodeSizes();
      FixedSizes();
      FixedOk();
      BuildBoth(FixedLit(), FixedDist());
    }

    lemma BlockIs(p: nat, t: nat, out: seq<Byte>)
      requires p <= 8 * |r.src|
      ensures t == 0 ==> Block(r.src, p, t, out) == Stored(r.src, Align(p), out)
      ensures t == 1 ==> Block(r.src, p, t, out) == TablesPart(r.src, p, out, FixedLit(), FixedDist())
      ensures t == 2 ==> Block(r.src, p, t, out) == SizesPart(r.src, p, out, [])
      ensures t >= 3 ==> Block(r.src, p, t, out) == Refused(out)
    {
    }

    method StartStored()
      requires Base() && state == BlockStart && Means(Block(r.src, r.P(), 0, w.out))
      modifies this`state, this`counter, r`bitBuf, r`numBits
      ensures Base() && Kept() && state == RawHeader && InRawHeader() && r.P() >= old(r.P())
    {
      hide Decompressor.Known, HuffmanTable.Decodes, Reader.Valid, Window.Valid, GetBits, Symbols, Blocks, Finish, Trailer, TrailerFrom,
        Adler32, Ring, Structure, TablesPart, SizesPart, ClPart, LensPart, RepeatPart, Stored, StoredData, Block,
        Decompressor.RawHeaderFrom;
      r.InRange();
      BlockIs(r.P(), 0, w.out);
      r.SkipToByte();
      counter, state := 0, RawHeader;
      HeaderStarts();
    }

    lemma HeaderStarts()
      requires Base() && counter == 0 && r.P() % 8 == 0 && Means(Stored(r.src, r.P(), w.out))
      ensures InRawHeader()
    {
      hide Decompressor.Known, HuffmanTable.Decodes, Reader.Valid, Window.Valid, GetBits, Symbols, Blocks, Finish, Trailer, TrailerFrom,
        Adler32, Ring, Structure, TablesPart, SizesPart, ClPart, LensPart, RepeatPart, Stored, StoredData, Block;
      ApartHeader();
      r.InRange();
      var i := r.P() / 8;
      assert rawHeader[..0] == r.src[i..i];
    }

    lemma SizesNext(p: nat, out: seq<Byte>, sizes: seq<nat>)
      requires p <= 8 * |r.src| && |sizes| < 3 && Known() && Means(SizesPart(r.src, p, out, sizes)) && SizesRange(sizes)
      ensures p + SizeBits(|sizes|) <= r.need
      ensures var sizes' := sizes + [SizeMin(|sizes|) + GetBits(r.src, p, SizeBits(|sizes|))];
        SizesRange(sizes') && Means(SizesPart(r.src, p + SizeBits(|sizes|), out, sizes'))
    {
      hide Finish, Trailer, ClPart, GetBits;
      OtherIsOutside(SizesPart(r.src, p, out, sizes));
      GetBitsBound(r.src, p, SizeBits(|sizes|));
      assert Shl(1, 4) == 16 && Shl(1, 5) == 32;
    }

    lemma SizesDone(p: nat, out: seq<Byte>, sizes: seq<nat>)
      requires p <= 8 * |r.src| && |sizes| == 3
      ensures SizesPart(r.src, p, out, sizes) == ClPart(r.src, p, out, sizes[0], sizes[1], sizes[2], [])
    {
    }

    ghost predicate InClSizes()
      reads this, r, w, tableSizes, clTable.codeSize
    {
      && r.Valid() && tableSizes.Length == 3 && SizesRange(tableSizes[..]) && counter == |cls| <= tableSizes[2]
      && clTable.codeSize.Length == 288 && clTable.codeSize[..19] == ClLens(cls)
      && (forall i :: 0 <= i < 19 ==> clTable.codeSize[i] <= 15)
      && Means(ClPart(r.src, r.P(), w.out, tableSizes[0], tableSizes[1], tableSizes[2], cls))
    }

    /** Line 347, and the clearing of line 348 after the third size. */
    method StepSizes() returns (g: Signal)
      requires Base() && state == Sizes && InSizes()
      modifies this`state, this`counter, this`cls, r, tableSizes, clTable.codeSize
      ensures Base() && Kept() && Stops(g) && w.out == old(w.out)
      ensures g != Go ==> state == Sizes && InSizes()
      ensures g == Go ==> r.P() > old(r.P()) && ((state == Sizes && InSizes()) || (state == ClSizes && InClSizes()))
    {
      hide Decompressor.Known, HuffmanTable.Decodes, Reader.Valid, Window.Valid, GetBits, Symbols, Blocks, Finish, Trailer, TrailerFrom,
        Adler32, Ring, Structure, TablesPart, SizesPart, ClPart, LensPart, RepeatPart, Stored, StoredData, Block,
        SizesRange, Decompressor.Means;
      var ok := OneSize();
      if !ok {
        return Out(NeedsMoreInput);
      }
      g := Go;
      if counter == 3 {
        assert tableSizes[..3] == tableSizes[..];
        ClearClSizes();
      }
    }

    /** The sizes read so far, all three of them too. */
    ghost predicate SizesRead()
      reads this, r, w, tableSizes
    {
      r.Valid() && counter <= 3 && tableSizes.Length == 3 && SizesRange(tableSizes[..counter]) &&
      Means(SizesPart(r.src, r.P(), w.out, tableSizes[..counter]))
    }

    method OneSize() returns (ok: bool)
      requires Base() && state == Sizes && InSizes()
      modifies this`counter, r, tableSizes
      ensures Base() && Kept() && w.out == old(w.out) && SizesRead()
      ensures if ok then counter == old(counter) + 1 && r.P() > old(r.P()) else counter == old(counter) && r.Starved()
    {
      hide Decompressor.Known, HuffmanTable.Decodes, Reader.Valid, Window.Valid, GetBits, Symbols, Blocks, Finish, Trailer, TrailerFrom,
        Adler32, Ring, Structure, TablesPart, SizesPart, ClPart, LensPart, RepeatPart, Stored, StoredData, Block,
        SizesRange, Decompressor.Means;
      ApartSizes();
      r.InRange();
      ghost var sizes: seq<nat> := tableSizes[..counter];
      SizesNext(r.P(), w.out, sizes);
      var v;
      ok, v := r.Get(SizeBits(counter));
      if ok {
        tableSizes[counter] := SizeMin(counter) + v;
        counter := counter + 1;
        assert tableSizes[..counter] == sizes + [SizeMin(|sizes|) + v];
      }
    }

    method ClearClSizes()
      requires Base() && state == Sizes && counter == 3 && tableSizes.Length == 3 && SizesRange(tableSizes[..])
      requires Means(SizesPart(r.src, r.P(), w.out, tableSizes[..]))
      modifies this`state, this`counter, this`cls, clTable.codeSize
      ensures Base() && state == ClSizes && InClSizes()
    {
      hide Decompressor.Known, HuffmanTable.Decodes, Reader.Valid, Window.Valid, GetBits, Symbols, Blocks, Finish, Trailer, TrailerFrom,
        Adler32, Ring, Structure, TablesPart, SizesPart, ClPart, LensPart, RepeatPart, Stored, StoredData, Block,
        SizesRange;
      ApartSizes();
      r.InRange();
      SizesDone(r.P(), w.out, tableSizes[..]);
      forall i | 0 <= i < 288 { clTable.codeSize[i] := 0; }
      assert tableSizes[..] == old(tableSizes[..]);
      counter, cls, state := 0, [], ClSizes;
      assert clTable.codeSize[..19] == ClLens(cls);
    }

    lemma ClNext(p: nat, out: seq<Byte>, a: nat, b: nat, n: nat, c: seq<nat>)
      requires p <= 8 * |r.src| && Known() && Means(ClPart(r.src, p, out, a, b, n, c)) && |c| <= 19
      ensures |c| < n ==> p + 3 <= r.need && GetBits(r.src, p, 3) < 8
      ensures |c| < n ==> Means(ClPart(r.src, p + 3, out, a, b, n, c + [GetBits(r.src, p, 3)]))
      ensures |c| >= n ==> if Acceptable(ClLens(c)) then Means(LensPart(r.src, p, out, a, b, ClLens(c), []))
        else target == Rejected(out)
    {
      hide Finish, Trailer, LensPart, GetBits, Acceptable, ClLens;
      OtherIsOutside(ClPart(r.src, p, out, a, b, n, c));
      if |c| < n {
        GetBitsBound(r.src, p, 3);
        assert Shl(1, 3) == 8;
      } else if !Acceptable(ClLens(c)) {
        RefusedIsRejected(out);
      }
    }

    /** Lines 348 and 353-375: the code length code. */
    method StepClSizes() returns (g: Signal)
      requires Base() && state == ClSizes && InClSizes()
      modifies this`state, this`counter, this`cls, this`cl, this`lens, r, tableSizes, clTable.codeSize
      modifies clTable.lookUp, clTable.tree, clTable`nodes
      ensures Base() && Kept() && Stops(g) && w.out == old(w.out) && r.P() >= old(r.P())
      ensures g != Go ==> state == ClSizes && InClSizes()
      ensures g == Go ==> ((state == ClSizes && InClSizes() && r.P() > old(r.P()))
        || (state == LenCode && InLens()) || (state == Failed && InFailed()))
    {
      hide Decompressor.Known, HuffmanTable.Decodes, Reader.Valid, Window.Valid, GetBits, Symbols, Blocks, Finish, Trailer, TrailerFrom,
        Adler32, Ring, Structure, TablesPart, SizesPart, ClPart, LensPart, RepeatPart, Stored, StoredData, Block,
        SizesRange, ClLens, Decompressor.Means;
      ApartSizes();
      r.InRange();
      ClNext(r.P(), w.out, tableSizes[0], tableSizes[1], tableSizes[2], cls) by { SizesRangeIs(tableSizes[..]); }
      g := Go;
      if counter < tableSizes[2] {
        g := OneClSize();
      } else {
        BuildCl();
      }
    }

    method OneClSize() returns (g: Signal)
      requires Base() && state == ClSizes && InClSizes() && counter < tableSizes[2] && r.P() + 3 <= r.need
      requires GetBits(r.src, r.P(), 3) < 8
      requires Means(ClPart(r.src, r.P() + 3, w.out, tableSizes[0], tableSizes[1], tableSizes[2],
        cls + [GetBits(r.src, r.P(), 3)]))
      modifies this`counter, this`cls, r, clTable.codeSize
      ensures Base() && Kept() && Stops(g) && w.out == old(w.out) && state == ClSizes && InClSizes()
      ensures if g == Go then r.P() > old(r.P()) else r.P() == old(r.P())
    {
      hide Decompressor.Known, HuffmanTable.Decodes, Reader.Valid, Window.Valid, GetBits, Symbols, Blocks, Finish, Trailer, TrailerFrom,
        Adler32, Ring, Structure, TablesPart, SizesPart, ClPart, LensPart, RepeatPart, Stored, StoredData, Block,
        SizesRange, ClLens, Decompressor.Means;
      ApartSizes();
      r.InRange();
      g := Go;
      var ok, s := r.Get(3);
      if !ok {
        return Out(NeedsMoreInput);
      }
      SizesRangeIs(tableSizes[..]);
      PutClSize(s);
    }

    method PutClSize(l: nat)
      requires counter == |cls| < 19 && clTable.codeSize.Length >= 19 && clTable.codeSize[..19] == ClLens(cls) && l < 8
      modifies this`counter, this`cls, clTable.codeSize
      ensures counter == old(counter) + 1 && cls == old(cls) + [l] && clTable.codeSize[..19] == ClLens(cls)
      ensures forall i :: 0 <= i < 19 ==> clTable.codeSize[i] == l || clTable.codeSize[i] == old(clTable.codeSize[i])
    {
      hide ClLens;
      clTable.codeSize[ClOrder(counter)] := l;
      ClLensMore(cls, l);
      assert clTable.codeSize[..19] == old(clTable.codeSize[..19])[ClOrder(counter) := l];
      counter, cls := counter + 1, cls + [l];
    }

    lemma SizesRangeIs(n: seq<nat>)
      requires |n| == 3 && SizesRange(n)
      ensures 257 <= n[0] <= 288 && 1 <= n[1] <= 32 && 4 <= n[2] <= 19
    {
    }

    lemma ClLensMore(c: seq<nat>, s: nat)
      requires |c| < 19
      ensures ClLens(c + [s]) == ClLens(c)[ClOrder(|c|) := s]
    {
      assert (c + [s])[..|c|] == c;
    }

    ghost predicate InLens()
      reads this, r, w, tableSizes, lenCodes, clTable, clTable.lookUp, clTable.tree
    {
      && InLensSide() && Means(LensPart(r.src, r.P(), w.out, tableSizes[0], tableSizes[1], cl, lens))
    }

    ghost predicate InLensSide()
      reads this, r, tableSizes, lenCodes, clTable, clTable.lookUp, clTable.tree
    {
      && r.Valid() && tableSizes.Length == 3 && lenCodes.Length == 457
      && 257 <= tableSizes[0] <= 288 && 1 <= tableSizes[1] <= 32
      && clTable.Decodes(cl) && |cl| == 19 && counter == |lens| <= 457 && lens == lenCodes[..counter] && LensOk(lens)
    }

    method BuildCl()
      requires Base() && state == ClSizes && InClSizes() && counter >= tableSizes[2]
      requires if Acceptable(ClLens(cls)) then Means(LensPart(r.src, r.P(), w.out, tableSizes[0], tableSizes[1], ClLens(cls), []))
        else target == Rejected(w.out)
      modifies this`state, this`counter, this`cl, this`lens, tableSizes
      modifies clTable.lookUp, clTable.tree, clTable`nodes
      ensures Base() && ((state == LenCode && InLens()) || (state == Failed && InFailed()))
    {
      hide Decompressor.Known, HuffmanTable.Decodes, Reader.Valid, Window.Valid, GetBits, Symbols, Blocks, Finish, Trailer, TrailerFrom,
        Adler32, Ring, Structure, TablesPart, SizesPart, ClPart, LensPart, RepeatPart, Stored, StoredData, Block,
        SizesRange, ClLens, Acceptable;
      ApartSizes();
      ApartCl();
      ApartCodes();
      SizesRangeIs(tableSizes[..]);
      tableSizes[2] := 19;
      var ok := clTable.Build(19);
      if ok {
        counter, lens, cl, state := 0, [], ClLens(cls), LenCode;
        assert lenCodes[..0] == [];
      } else {
        state := Failed;
      }
    }

    lemma LensNext(p: nat, out: seq<Byte>, a: nat, b: nat, c: seq<nat>, ls: seq<nat>)
      requires p <= 8 * |r.src| && Known() && Means(LensPart(r.src, p, out, a, b, c, ls))
      ensures |ls| > a + b ==> target == Rejected(out)
      ensures |ls| == a + b ==> Means(TablesPart(r.src, p, out, ls[..a], ls[a..]))
      ensures |ls| < a + b ==> HasSym(r.src, p, c)
      ensures |ls| < a + b ==> LensNextSym(p, out, a, b, c, ls, Sym(r.src, p, c))
    {
      hide Finish, Trailer, TablesPart, RepeatPart, GetCode, GetBits;
      OtherIsOutside(LensPart(r.src, p, out, a, b, c, ls));
      if |ls| > a + b {
        RefusedIsRejected(out);
      } else if |ls| < a + b && Sym(r.src, p, c) == 16 && ls == [] {
        RefusedIsRejected(out);
      }
    }

    ghost predicate LensNextSym(p: nat, out: seq<Byte>, a: nat, b: nat, c: seq<nat>, ls: seq<nat>, s: nat)
      reads this
    {
      s < |c| && p + c[s] <= r.need && p + c[s] <= 8 * |r.src| &&
      if s < 16 then Means(LensPart(r.src, p + c[s], out, a, b, c, ls + [s]))
      else if s == 16 && ls == [] then target == Rejected(out)
      else s <= 18 && Means(RepeatPart(r.src, p + c[s], out, a, b, c, ls, s))
    }

    ghost predicate InRepeat()
      reads this, r, w, tableSizes, lenCodes, clTable, clTable.lookUp, clTable.tree
    {
      && InLensSide() && counter < tableSizes[0] + tableSizes[1] && 16 <= dist <= 18 && (dist == 16 ==> lens != [])
      && Means(RepeatPart(r.src, r.P(), w.out, tableSizes[0], tableSizes[1], cl, lens, dist))
    }

    /** Lines 378-393: one code of the run-length coded lengths, or their end. */
    method StepLenCode() returns (g: Signal)
      requires Base() && (state == LenCode || state == LenCodeFill) && InLens() && (state == LenCodeFill ==> r.Lacks(cl))
      modifies this`state, this`counter, this`dist, this`lens, this`lit, this`dst, r, lenCodes
      modifies litTable.codeSize, distTable.codeSize
      modifies litTable.lookUp, litTable.tree, litTable`nodes, distTable.lookUp, distTable.tree, distTable`nodes
      ensures Base() && Kept() && Stops(g) && w.out == old(w.out) && r.P() >= old(r.P())
      ensures g != Go ==> state == LenCodeFill && InLens() && r.Lacks(cl)
      ensures g == Go ==> ((state == LenCode && InLens() && r.P() > old(r.P())) || (state == LenRepeat && InRepeat() && r.P() > old(r.P()))
        || (state == Failed && InFailed()) || (state == Symbol && Ready() && InSymbols(w.out)))
    {
      hide Decompressor.Known, HuffmanTable.Decodes, Reader.Valid, Window.Valid, GetBits, Symbols, Blocks, Finish, Trailer, TrailerFrom,
        Adler32, Ring, Structure, TablesPart, SizesPart, ClPart, LensPart, RepeatPart, Stored, StoredData, Block;
      ApartCodes();
      r.InRange();
      LensNext(r.P(), w.out, tableSizes[0], tableSizes[1], cl, lens);
      g := Go;
      if counter < tableSizes[0] + tableSizes[1] {
        g := OneLength();
      } else if counter != tableSizes[0] + tableSizes[1] {
        state := Failed;
      } else {
        CopySizes();
      }
    }

    /** Line 380. */
    method OneLength() returns (g: Signal)
      requires Base() && (state == LenCode || state == LenCodeFill) && InLens() && (state == LenCodeFill ==> r.Lacks(cl))
      requires counter < tableSizes[0] + tableSizes[1] && HasSym(r.src, r.P(), cl)
      requires LensNextSym(r.P(), w.out, tableSizes[0], tableSizes[1], cl, lens, Sym(r.src, r.P(), cl))
      modifies this`state, this`counter, this`dist, this`lens, r, lenCodes
      ensures Base() && Kept() && Stops(g) && w.out == old(w.out) && r.P() >= old(r.P())
      ensures g != Go ==> state == LenCodeFill && InLens() && r.Lacks(cl)
      ensures g == Go ==> r.P() > old(r.P())
      ensures g == Go ==> ((state == LenCode && InLens()) || (state == LenRepeat && InRepeat()) || (state == Failed && InFailed()))
    {
      hide Decompressor.Known, HuffmanTable.Decodes, Reader.Valid, Window.Valid, GetBits, Symbols, Blocks, Finish, Trailer, TrailerFrom,
        Adler32, Ring, Structure, TablesPart, SizesPart, ClPart, LensPart, RepeatPart, Stored, StoredData, Block,
        Reader.Lacks, LensOk, Decompressor.Means, Repeat;
      ApartCodes();
      r.InRange();
      var ok, sym := r.NextSym(clTable, state == LenCodeFill, cl);
      if !ok {
        state := LenCodeFill;
        return Out(NeedsMoreInput);
      }
      g := Go;
      dist := sym;
      TakeLength();
    }

    /** Lines 380-384: what the symbol just decoded says. */
    method TakeLength()
      requires Base() && InLensSide() && counter < tableSizes[0] + tableSizes[1] && zAdler == 1
      requires if dist < 16 then Means(LensPart(r.src, r.P(), w.out, tableSizes[0], tableSizes[1], cl, lens + [dist]))
        else if dist == 16 && lens == [] then target == Rejected(w.out)
        else dist <= 18 && Means(RepeatPart(r.src, r.P(), w.out, tableSizes[0], tableSizes[1], cl, lens, dist))
      modifies this`state, this`counter, this`lens, lenCodes
      ensures Base() && ((state == LenCode && InLens()) || (state == LenRepeat && InRepeat()) || (state == Failed && InFailed()))
    {
      hide Decompressor.Known, HuffmanTable.Decodes, Reader.Valid, Window.Valid, GetBits, Symbols, Blocks, Finish, Trailer, TrailerFrom,
        Adler32, Ring, Structure, TablesPart, SizesPart, ClPart, LensPart, RepeatPart, Stored, StoredData, Block,
        Reader.Lacks, LensOk, Decompressor.Means, Repeat;
      ApartCodes();
      if dist < 16 {
        PutLength(dist);
        state := LenCode;
      } else if dist == 16 && counter == 0 {
        state := Failed;
      } else {
        state := LenRepeat;
      }
    }

    method PutLength(l: nat)
      requires counter < lenCodes.Length && lenCodes[..counter] == lens && l <= 15 && LensOk(lens)
      modifies this`counter, this`lens, lenCodes
      ensures counter == old(counter) + 1 && lens == old(lens) + [l] && lenCodes[..counter] == lens && LensOk(lens)
    {
      hide LensOk;
      lenCodes[counter] := l;
      LensOkMore(lens, l, 1);
      assert lenCodes[..counter + 1] == lens + [l];
      lens, counter := lens + [l], counter + 1;
    }

    lemma LensOkMore(ls: seq<nat>, l: nat, n: nat)
      requires LensOk(ls) && l <= 15
      ensures LensOk(ls + Repeat(l, n)) && LensOk(ls + [l])
    {
    }

    lemma RepeatNext(p: nat, out: seq<Byte>, a: nat, b: nat, c: seq<nat>, ls: seq<nat>, s: nat)
      requires p <= 8 * |r.src| && 16 <= s <= 18 && (s == 16 ==> ls != [])
      requires Known() && Means(RepeatPart(r.src, p, out, a, b, c, ls, s))
      ensures p + RepeatBits(s) <= r.need
      ensures var n := RepeatMin(s) + GetBits(r.src, p, RepeatBits(s));
        var l := if s == 16 then ls[|ls| - 1] else 0;
        n <= 138 && Means(LensPart(r.src, p + RepeatBits(s), out, a, b, c, ls + Repeat(l, n)))
    {
      hide Finish, Trailer, LensPart, GetBits;
      OtherIsOutside(RepeatPart(r.src, p, out, a, b, c, ls, s));
      GetBitsBound(r.src, p, RepeatBits(s));
      assert Shl(1, 2) == 4 && Shl(1, 3) == 8 && Shl(1, 7) == 128;
    }

    /** Lines 385-386: a run; it never leaves the 457 places. */
    method StepRepeat() returns (g: Signal)
      requires Base() && state == LenRepeat && InRepeat()
      modifies this`state, this`counter, this`lens, r, lenCodes
      ensures Base() && Kept() && Stops(g) && w.out == old(w.out)
      ensures if g == Go then state == LenCode && InLens() && r.P() > old(r.P()) else state == LenRepeat && InRepeat()
    {
      hide Decompressor.Known, HuffmanTable.Decodes, Reader.Valid, Window.Valid, GetBits, Symbols, Blocks, Finish, Trailer, TrailerFrom,
        Adler32, Ring, Structure, TablesPart, SizesPart, ClPart, LensPart, RepeatPart, Stored, StoredData, Block,
        LensOk, Decompressor.Means, Repeat;
      ApartCodes();
      r.InRange();
      RepeatNext(r.P(), w.out, tableSizes[0], tableSizes[1], cl, lens, dist);
      var ok, v := r.Get(RepeatBits(dist));
      if !ok {
        return Out(NeedsMoreInput);
      }
      g := Go;
      var n := RepeatMin(dist) + v;
      var l: Byte := 0;
      if dist == 16 {
        l := lenCodes[counter - 1];
        LastOk(lens);
        assert l == lens[|lens| - 1];
      }
      PutRun(n, l);
    }

    method PutRun(n: nat, l: Byte)
      requires Base() && state == LenRepeat && InLensSide() && counter + n <= 457 && l <= 15
      requires Means(LensPart(r.src, r.P(), w.out, tableSizes[0], tableSizes[1], cl, lens + Repeat(l, n)))
      modifies this`state, this`counter, this`lens, lenCodes
      ensures Base() && state == LenCode && InLens()
    {
      hide Decompressor.Known, HuffmanTable.Decodes, Reader.Valid, Window.Valid, GetBits, Symbols, Blocks, Finish, Trailer, TrailerFrom,
        Adler32, Ring, Structure, TablesPart, SizesPart, ClPart, LensPart, RepeatPart, Stored, StoredData, Block,
        LensOk, Decompressor.Means, Repeat;
      ApartCodes();
      FillCodes(counter, n, l);
      LensOkMore(lens, l, n);
      assert lenCodes[..counter + n] == lens + Repeat(l, n);
      lens, counter, state := lens + Repeat(l, n), counter + n, LenCode;
    }

    lemma LastOk(ls: seq<nat>)
      requires LensOk(ls) && ls != []
      ensures ls[|ls| - 1] <= 15
    {
    }

    /** memset on the code lengths */
    method FillCodes(start: nat, n: nat, l: Byte)
      requires start + n <= lenCodes.Length
      modifies lenCodes
      ensures lenCodes[..start] == old(lenCodes[..start])
      ensures lenCodes[start..start + n] == Repeat(l, n)
    {
      forall i | start <= i < start + n { lenCodes[i] := l; }
      assert lenCodes[..start] == old(lenCodes[..start]);
      assert lenCodes[start..start + n] == Repeat(l, n);
    }

    /** Line 392, and the last two rounds of the table loop. */
    method CopySizes()
      requires Base() && (state == LenCode || state == LenCodeFill) && InLensSide() && counter == tableSizes[0] + tableSizes[1]
      requires Means(TablesPart(r.src, r.P(), w.out, lens[..tableSizes[0]], lens[tableSizes[0]..]))
      modifies this`state, this`lit, this`dst, litTable.codeSize, distTable.codeSize
      modifies litTable.lookUp, litTable.tree, litTable`nodes, distTable.lookUp, distTable.tree, distTable`nodes
      ensures Base() && ((state == Failed && InFailed()) || (state == Symbol && Ready() && InSymbols(w.out)))
    {
      hide Decompressor.Known, HuffmanTable.Decodes, Reader.Valid, Window.Valid, GetBits, Symbols, Blocks, Finish, Trailer, TrailerFrom,
        Adler32, Ring, Structure, TablesPart, SizesPart, ClPart, LensPart, RepeatPart, Stored, StoredData, Block,
        LensOk;
      ApartCodes();
      ApartCodeSizes();
      var a, b := tableSizes[0], tableSizes[1];
      LensOkParts(lens, a);
      forall i | 0 <= i < a { litTable.codeSize[i] := lenCodes[i]; }
      forall i | 0 <= i < b { distTable.codeSize[i] := lenCodes[a + i]; }
      assert litTable.codeSize[..a] == lens[..a];
      assert distTable.codeSize[..b] == lens[a..];
      assert tableSizes[0] == a && tableSizes[1] == b;
      BuildBoth(lens[..a], lens[a..]);
    }

    lemma LensOkParts(ls: seq<nat>, a: nat)
      requires LensOk(ls) && a <= |ls|
      ensures LensOk(ls[..a]) && LensOk(ls[a..])
    {
    }

    // ---- the zlib wrapper

    lemma TrailerNext(p: nat, n: nat, z: nat, out: seq<Byte>)
      requires Known() && n < 4 && TrailerFrom(r.src, p, n, z, out) == target
      ensures p % 8 == 0 && p + 8 <= r.need
      ensures TrailerFrom(r.src, p + 8, n + 1, (z * 256 + r.src[p / 8]) % 0x1_0000_0000, out) == target
    {
      hide Adler32;
      TrailerFromEnd(r.src, p, n, z, out);
    }

    /** Line 516: the bytes of the checksum. */
    method StepTrailer() returns (g: Signal)
      requires Base() && state == AtTrailer && InTrailer()
      modifies this`state, this`counter, this`zAdler, r
      ensures Base() && Kept() && Stops(g) && w.out == old(w.out) && r.P() >= old(r.P())
      ensures g != Go ==> state == AtTrailer && InTrailer()
      ensures g == Go ==> ((state == AtTrailer && InTrailer() && r.P() > old(r.P())) || (state == Finished && InFinished()))
    {
      hide Decompressor.Known, HuffmanTable.Decodes, Reader.Valid, Window.Valid, GetBits, Symbols, Blocks, Finish, Trailer, TrailerFrom,
        Adler32, Ring, Structure, TablesPart, SizesPart, ClPart, LensPart, RepeatPart, Stored, StoredData, Block;
      r.InRange();
      g := Go;
      if counter < 4 {
        TrailerNext(r.P(), counter, zAdler, w.out);
        r.BitsAligned();
        var ok, b := r.NextByte();
        if !ok {
          return Out(NeedsMoreInput);
        }
        zAdler := (zAdler * 256 + b) % 0x1_0000_0000;
        counter := counter + 1;
      } else {
        TrailerEnd(r.src, r.P(), zAdler, w.out);
        state := Finished;
      }
    }

    function Limit(): nat {
      if nonWrap then NO_WRAP else 32768
    }

    ghost predicate InStart()
      reads this, r, w
    {
      r.Valid() && r.P() == 0 && r.numBits == 0 && w.out == [] && target == Whole(r.src, zlib, Limit())
    }

    ghost predicate InHeader1()
      reads this, r, w
    {
      r.Valid() && r.P() == 8 && r.numBits == 0 && w.out == [] && zlib && |r.src| >= 2 && zhdr0 == r.src[0] &&
      target == Whole(r.src, true, Limit())
    }

    lemma WholeNext()
      requires Known() && target == Whole(r.src, zlib, Limit())
      ensures zlib ==> 16 <= r.need
      ensures if zlib then |r.src| >= 2 && if HeaderOk(r.src[0], r.src[1], Limit()) then Wrap(Blocks(r.src, 16, [])) == target
          else target == Rejected([])
        else Wrap(Blocks(r.src, 0, [])) == target
    {
      hide Blocks, HeaderOk, Trailer;
      if zlib && |r.src| >= 2 {
        BlocksEnd(r.src, 16, []);
        TrailerEnds(r.src, Blocks(r.src, 16, []));
      }
    }

    /** Lines 291-292: the start. */
    method StepStart()
      requires Base() && state == Start && InStart()
      modifies this`state, this`dist, this`counter, this`numExtra
      ensures Base() && ((state == Header0 && zlib && InStart()) || (state == BlockStart && InBlocks()))
    {
      hide Decompressor.Known, HuffmanTable.Decodes, Reader.Valid, Window.Valid, GetBits, Symbols, Blocks, Finish, Trailer, TrailerFrom,
        Adler32, Ring, Structure, TablesPart, SizesPart, ClPart, LensPart, RepeatPart, Stored, StoredData, Block,
        HeaderOk, Whole;
      WholeNext();
      dist, counter, numExtra := 0, 0, 0;
      state := if zlib then Header0 else BlockStart;
    }

    /** Line 294: the first header byte. */
    method StepHeader0() returns (g: Signal)
      requires Base() && state == Header0 && zlib && InStart()
      modifies this`state, this`zhdr0, r
      ensures Base() && Kept() && Stops(g)
      ensures if g == Go then state == Header1 && InHeader1() && r.P() > old(r.P()) else state == Header0 && InStart()
    {
      hide Decompressor.Known, HuffmanTable.Decodes, Reader.Valid, Window.Valid, GetBits, Symbols, Blocks, Finish, Trailer, TrailerFrom,
        Adler32, Ring, Structure, TablesPart, SizesPart, ClPart, LensPart, RepeatPart, Stored, StoredData, Block,
        HeaderOk, Whole;
      WholeNext();
      r.InRange();
      r.BytesLeft(0);
      var ok, b := r.TakeByte();
      if !ok {
        return Out(NeedsMoreInput);
      }
      zhdr0 := b;
      state := Header1;
      g := Go;
    }

    /** Lines 294-297: the second one, and the check. */
    method StepHeader1() returns (g: Signal)
      requires Base() && state == Header1 && InHeader1()
      modifies this`state, r
      ensures Base() && Kept() && Stops(g)
      ensures g != Go ==> state == Header1 && InHeader1()
      ensures g == Go ==> r.P() > old(r.P()) && ((state == BlockStart && InBlocks()) || (state == Failed && InFailed()))
    {
      hide Decompressor.Known, HuffmanTable.Decodes, Reader.Valid, Window.Valid, GetBits, Symbols, Blocks, Finish, Trailer, TrailerFrom,
        Adler32, Ring, Structure, TablesPart, SizesPart, ClPart, LensPart, RepeatPart, Stored, StoredData, Block,
        HeaderOk, Whole;
      WholeNext();
      r.InRange();
      r.BytesLeft(1);
      var ok, b := r.TakeByte();
      if !ok {
        return Out(NeedsMoreInput);
      }
      var good := CheckZlib(zhdr0, b);
      state := if good then BlockStart else Failed;
      g := Go;
    }

    /** Lines 295-297. */
    method CheckZlib(cmf: Byte, flg: Byte) returns (good: bool)
      requires w.size >= 32768
      ensures good == HeaderOk(cmf, flg, Limit())
    {
      good := Check31(cmf, flg) && flg / 32 % 2 == 0 && cmf % 16 == 8;
      if !nonWrap {
        good := good && Shl(1, 8 + cmf / 16) <= 32768 && Shl(1, 8 + cmf / 16) <= w.size;
      } else {
        WindowIsSmall(cmf / 16);
      }
    }

    predicate Check31(a: nat, b: nat) { (a * 256 + b) % 31 == 0 }

    lemma WindowIsSmall(n: nat)
      requires n < 16
      ensures Shl(1, 8 + n) <= NO_WRAP
    {
      ShlLonger(1, 8 + n, 23);
      Shl16();
      assert Shl(1, 16) == 65536 && Shl(1, 20) == 0x10_0000;
      assert Shl(1, 23) == 0x80_0000;
    }

    lemma {:induction false} ShlLonger(w: nat, a: nat, b: nat)
      requires a <= b
      ensures Shl(w, a) <= Shl(w, b)
      decreases b
    {
      if a < b {
        ShlLonger(w, a, b - 1);
      }
    }

    // ---- the whole decompressor

    ghost predicate InState()
      reads this, r, w, w.buf, own, litTable, distTable, clTable
    {
      Structure() &&
      match state
      case Start => InStart()
      case Header0 => zlib && InStart()
      case Header1 => InHeader1()
      case BlockStart => InBlocks()
      case RawHeader => InRawHeader()
      case RawByte => InRawByte()
      case RawWrite => InRawWrite()
      case Sizes => InSizes()
      case ClSizes => InClSizes()
      case LenCode => InLens()
      case LenCodeFill => InLens() && r.Lacks(cl)
      case LenRepeat => InRepeat()
      case Symbol => Ready() && InSymbols(w.out)
      case SymbolFill => Ready() && InSymbols(w.out) && r.Lacks(lit)
      case Literal => Ready() && InLiteral()
      case LengthBits => Ready() && InLength()
      case Distance => Ready() && InDist()
      case DistanceFill => Ready() && InDist() && r.Lacks(dst)
      case DistanceBits => Ready() && InDistBits()
      case CopyRest => Ready() && InCopy()
      case AtTrailer => InTrailer()
      case Finished => InFinished()
      case Failed => InFailed()
    }

    /** The decompressor's invariant: from its state, the rest of the stream
        leads to the target. */
    ghost predicate Inv()
      reads this, r, w, w.buf, own, litTable, distTable, clTable
    {
      Base() && InState()
    }

    /** What the invariant says in the states of a block's symbols. */
    lemma AtData()
      requires Inv()
      ensures Base()
      ensures state == Symbol || state == SymbolFill ==> Ready() && InSymbols(w.out)
      ensures state == SymbolFill ==> r.Lacks(lit)
      ensures state == Literal ==> Ready() && InLiteral()
      ensures state == LengthBits ==> Ready() && InLength()
      ensures state == Distance || state == DistanceFill ==> Ready() && InDist()
      ensures state == DistanceFill ==> r.Lacks(dst)
      ensures state == DistanceBits ==> Ready() && InDistBits()
      ensures state == CopyRest ==> Ready() && InCopy()
    {
    }

    /** And conversely. */
    lemma BackInData()
      requires Base()
      requires BlockOver() || (Ready() && match state
        case Symbol => InSymbols(w.out)
        case SymbolFill => InSymbols(w.out) && r.Lacks(lit)
        case Literal => InLiteral()
        case LengthBits => InLength()
        case Distance => InDist()
        case DistanceFill => InDist() && r.Lacks(dst)
        case DistanceBits => InDistBits()
        case CopyRest => InCopy()
        case _ => false)
      ensures Inv()
    {
      hide Decompressor.InSymbols, Decompressor.InLiteral, Decompressor.InLength, Decompressor.InDist,
        Decompressor.InDistBits, Decompressor.InBlocks, Decompressor.InTrailer, Decompressor.InFinished,
        Decompressor.InCopy, Decompressor.InRawHeader, Decompressor.InRawByte, Decompressor.InRawWrite,
        Decompressor.InSizes, Decompressor.InClSizes, Decompressor.InLens, Decompressor.InRepeat,
        Decompressor.InStart, Decompressor.InHeader1, Decompressor.InFailed, Decompressor.Ready;
    }

    /** The same for the states in which code lengths are read. */
    lemma AtLens()
      requires Inv()
      ensures Base()
      ensures state == LenCode || state == LenCodeFill ==> InLens()
      ensures state == LenCodeFill ==> r.Lacks(cl)
      ensures state == LenRepeat ==> InRepeat()
    {
    }

    lemma BackInLens()
      requires Base()
      requires match state
        case LenCode => InLens()
        case LenCodeFill => InLens() && r.Lacks(cl)
        case LenRepeat => InRepeat()
        case Failed => InFailed()
        case Symbol => Ready() && InSymbols(w.out)
        case _ => false
      ensures Inv()
    {
      hide Decompressor.InSymbols, Decompressor.InLiteral, Decompressor.InLength, Decompressor.InDist,
        Decompressor.InDistBits, Decompressor.InBlocks, Decompressor.InTrailer, Decompressor.InFinished,
        Decompressor.InCopy, Decompressor.InRawHeader, Decompressor.InRawByte, Decompressor.InRawWrite,
        Decompressor.InSizes, Decompressor.InClSizes, Decompressor.InLens, Decompressor.InRepeat,
        Decompressor.InStart, Decompressor.InHeader1, Decompressor.InFailed, Decompressor.Ready;
    }

    predicate IsData() reads this {
      state in {Symbol, SymbolFill, Literal, LengthBits, Distance, DistanceFill, DistanceBits, CopyRest}
    }

    predicate IsDist() reads this {
      state in {LengthBits, Distance, DistanceFill}
    }

    method StepLengthOrDist() returns (g: Signal)
      requires Inv() && IsDist()
      modifies this`state, this`counter, this`numExtra, this`dist, this`from, r, w`cur, w`out, w.buf
      ensures Inv() && Kept() && Stops(g) && (g == Go ==> Progress())
    {
      hide Decompressor.Known, HuffmanTable.Decodes, Reader.Valid, Window.Valid, GetBits, Symbols, Blocks, Finish, Trailer, TrailerFrom,
        Adler32, Ring, Structure, TablesPart, SizesPart, ClPart, LensPart, RepeatPart, Stored, StoredData, Block,
        Decompressor.Means, Decompressor.InSymbols, Decompressor.InLiteral, Decompressor.InLength,
        Decompressor.InDist, Decompressor.InDistBits, Decompressor.InBlocks, Decompressor.InTrailer,
        Decompressor.InFinished, Decompressor.InCopy, Decompressor.InRawHeader, Decompressor.InRawByte,
        Decompressor.InRawWrite, Decompressor.InSizes, Decompressor.InClSizes, Decompressor.InLens,
        Decompressor.InRepeat, Decompressor.InStart, Decompressor.InHeader1, Decompressor.InFailed, Decompressor.InState;
      AtData();
      if state == LengthBits {
        g := StepLength();
      } else {
        g := StepDist();
      }
      BackInData();
    }

    predicate IsCopy() reads this {
      state in {DistanceBits, CopyRest}
    }

    method StepCopy() returns (g: Signal)
      requires Inv() && IsCopy()
      modifies this`state, this`counter, this`numExtra, this`dist, this`from, r, w`cur, w`out, w.buf
      ensures Inv() && Kept() && Stops(g) && (g == Go ==> Progress())
    {
      hide Decompressor.Known, HuffmanTable.Decodes, Reader.Valid, Window.Valid, GetBits, Symbols, Blocks, Finish, Trailer, TrailerFrom,
        Adler32, Ring, Structure, TablesPart, SizesPart, ClPart, LensPart, RepeatPart, Stored, StoredData, Block,
        Decompressor.Means, Decompressor.InSymbols, Decompressor.InLiteral, Decompressor.InLength,
        Decompressor.InDist, Decompressor.InDistBits, Decompressor.InBlocks, Decompressor.InTrailer,
        Decompressor.InFinished, Decompressor.InCopy, Decompressor.InRawHeader, Decompressor.InRawByte,
        Decompressor.InRawWrite, Decompressor.InSizes, Decompressor.InClSizes, Decompressor.InLens,
        Decompressor.InRepeat, Decompressor.InStart, Decompressor.InHeader1, Decompressor.InFailed, Decompressor.InState;
      AtData();
      if state == DistanceBits {
        g := StepDistBits();
      } else {
        g := StepCopyRest();
      }
      BackInData();
    }

    method StepLiterals() returns (g: Signal)
      requires Inv() && IsData() && !IsDist() && !IsCopy()
      modifies this`state, this`counter, this`numExtra, this`dist, this`from, r, w`cur, w`out, w.buf
      ensures Inv() && Kept() && Stops(g) && (g == Go ==> Progress())
    {
      hide Decompressor.Known, HuffmanTable.Decodes, Reader.Valid, Window.Valid, GetBits, Symbols, Blocks, Finish, Trailer, TrailerFrom,
        Adler32, Ring, Structure, TablesPart, SizesPart, ClPart, LensPart, RepeatPart, Stored, StoredData, Block,
        Decompressor.Means, Decompressor.InSymbols, Decompressor.InLiteral, Decompressor.InLength,
        Decompressor.InDist, Decompressor.InDistBits, Decompressor.InBlocks, Decompressor.InTrailer,
        Decompressor.InFinished, Decompressor.InCopy, Decompressor.InRawHeader, Decompressor.InRawByte,
        Decompressor.InRawWrite, Decompressor.InSizes, Decompressor.InClSizes, Decompressor.InLens,
        Decompressor.InRepeat, Decompressor.InStart, Decompressor.InHeader1, Decompressor.InFailed, Decompressor.InState;
      AtData();
      match state {
        case Symbol =>
        if |r.input| - r.cur < 4 || w.end - w.cur < 2 {
          g := StepSymbol();
        } else {
          g := StepFast();
        }
        case SymbolFill => g := StepSymbol();
        case Literal => g := StepLiteral();
      }
      BackInData();
    }

    method StepData() returns (g: Signal)
      requires Inv() && IsData()
      modifies this`state, this`counter, this`numExtra, this`dist, this`from, r, w`cur, w`out, w.buf
      ensures Inv() && Kept() && Stops(g) && (g == Go ==> Progress())
    {
      hide Decompressor.Base, Decompressor.InState, Reader.Valid, Window.Valid;
      if IsDist() {
        g := StepLengthOrDist();
      } else if IsCopy() {
        g := StepCopy();
      } else {
        g := StepLiterals();
      }
    }

    predicate IsStored() reads this {
      state in {RawHeader, RawByte, RawWrite}
    }

    method StepStored() returns (g: Signal)
      requires Inv() && IsStored()
      modifies this`state, this`counter, this`dist, r, w`cur, w`out, w.buf, rawHeader
      ensures Inv() && Kept() && Stops(g) && (g == Go ==> Progress())
    {
      hide Decompressor.Known, HuffmanTable.Decodes, Reader.Valid, Window.Valid, GetBits, Symbols, Blocks, Finish, Trailer, TrailerFrom,
        Adler32, Ring, Structure, TablesPart, SizesPart, ClPart, LensPart, RepeatPart, Stored, StoredData, Block,
        Decompressor.Means, Decompressor.InSymbols, Decompressor.InLiteral, Decompressor.InLength,
        Decompressor.InDist, Decompressor.InDistBits, Decompressor.InBlocks, Decompressor.InTrailer,
        Decompressor.InFinished, Decompressor.InCopy, Decompressor.InRawHeader, Decompressor.InRawByte,
        Decompressor.InRawWrite, Decompressor.InSizes, Decompressor.InClSizes, Decompressor.InLens,
        Decompressor.InRepeat, Decompressor.InStart, Decompressor.InHeader1, Decompressor.InFailed;
      match state
      case RawHeader => g := StepRawHeader();
      case RawByte => g := StepRawByte();
      case RawWrite => g := StepRawWrite();
    }

    predicate IsDynamic() reads this {
      state in {Sizes, ClSizes, LenCode, LenCodeFill, LenRepeat}
    }

    predicate IsHeader() reads this {
      state in {Sizes, ClSizes}
    }

    method StepTableHeader() returns (g: Signal)
      requires Inv() && IsHeader()
      modifies this, r, own, litTable, distTable, clTable
      ensures Inv() && Kept() && Stops(g) && (g == Go ==> Progress())
    {
      hide Decompressor.Known, HuffmanTable.Decodes, Reader.Valid, Window.Valid, GetBits, Symbols, Blocks, Finish, Trailer, TrailerFrom,
        Adler32, Ring, Structure, TablesPart, SizesPart, ClPart, LensPart, RepeatPart, Stored, StoredData, Block,
        Decompressor.Means, Decompressor.InSizes, Decompressor.InClSizes, Decompressor.InLens, Decompressor.InRepeat,
        Decompressor.InSymbols;
      InOwn();
      match state
      case Sizes => g := StepSizes();
      case ClSizes => g := StepClSizes();
    }

    method StepLens() returns (g: Signal)
      requires Inv() && (state == LenCode || state == LenCodeFill)
      modifies this, r, own, litTable, distTable, clTable
      ensures Inv() && Kept() && Stops(g) && (g == Go ==> Progress())
    {
      hide Decompressor.Known, HuffmanTable.Decodes, Reader.Valid, Window.Valid, GetBits, Symbols, Blocks, Finish, Trailer, TrailerFrom,
        Adler32, Ring, Structure, TablesPart, SizesPart, ClPart, LensPart, RepeatPart, Stored, StoredData, Block,
        Decompressor.Means, Decompressor.InSizes, Decompressor.InClSizes, Decompressor.InLens, Decompressor.InRepeat,
        Decompressor.InSymbols, Decompressor.InState;
      InOwn();
      AtLens();
      g := StepLenCode();
      BackInLens();
    }

    method StepRun() returns (g: Signal)
      requires Inv() && state == LenRepeat
      modifies this, r, own, litTable, distTable, clTable
      ensures Inv() && Kept() && Stops(g) && (g == Go ==> Progress())
    {
      hide Decompressor.Known, HuffmanTable.Decodes, Reader.Valid, Window.Valid, GetBits, Symbols, Blocks, Finish, Trailer, TrailerFrom,
        Adler32, Ring, Structure, TablesPart, SizesPart, ClPart, LensPart, RepeatPart, Stored, StoredData, Block,
        Decompressor.Means, Decompressor.InSizes, Decompressor.InClSizes, Decompressor.InLens, Decompressor.InRepeat,
        Decompressor.InSymbols, Decompressor.InState;
      InOwn();
      AtLens();
      g := StepRepeat();
      BackInLens();
    }

    method StepDynamic() returns (g: Signal)
      requires Inv() && IsDynamic()
      modifies this, r, own, litTable, distTable, clTable
      ensures Inv() && Kept() && Stops(g) && (g == Go ==> Progress())
    {
      hide Decompressor.Base, Decompressor.InState, Reader.Valid, Window.Valid;
      if IsHeader() {
        g := StepTableHeader();
      } else if state == LenRepeat {
        g := StepRun();
      } else {
        g := StepLens();
      }
    }

    lemma InOwn()
      requires Structure()
      ensures litTable.codeSize in own && litTable.lookUp in own && litTable.tree in own
      ensures distTable.codeSize in own && distTable.lookUp in own && distTable.tree in own
      ensures clTable.codeSize in own && clTable.lookUp in own && clTable.tree in own
      ensures tableSizes in own && rawHeader in own && lenCodes in own
    {
    }

    predicate IsStart() reads this {
      state in {Start, Header0, Header1}
    }

    method StepWrapper() returns (g: Signal)
      requires Inv() && IsStart()
      modifies this, r, own, litTable, distTable
      ensures Inv() && Kept() && Stops(g) && (g == Go ==> Progress())
    {
      hide Decompressor.Known, HuffmanTable.Decodes, Reader.Valid, Window.Valid, GetBits, Symbols, Blocks, Finish, Trailer, TrailerFrom,
        Adler32, Ring, Structure, TablesPart, SizesPart, ClPart, LensPart, RepeatPart, Stored, StoredData, Block,
        Decompressor.Means, Decompressor.InSymbols, Decompressor.InLiteral, Decompressor.InLength,
        Decompressor.InDist, Decompressor.InDistBits, Decompressor.InBlocks, Decompressor.InTrailer,
        Decompressor.InFinished, Decompressor.InCopy, Decompressor.InRawHeader, Decompressor.InRawByte,
        Decompressor.InRawWrite, Decompressor.InSizes, Decompressor.InClSizes, Decompressor.InLens,
        Decompressor.InRepeat, Decompressor.InStart, Decompressor.InHeader1, Decompressor.InFailed;
      InOwn();
      match state
      case Start => StepStart(); g := Go;
      case Header0 => g := StepHeader0();
      case Header1 => g := StepHeader1();
    }

    method StepOther() returns (g: Signal)
      requires Inv() && !IsData() && !IsStored() && !IsDynamic() && !IsStart()
      modifies this, r, own, litTable, distTable
      ensures Inv() && Kept() && Stops(g) && (g == Go ==> Progress()) && (old(state) == Failed ==> state == Failed)
    {
      hide Decompressor.Known, HuffmanTable.Decodes, Reader.Valid, Window.Valid, GetBits, Symbols, Blocks, Finish, Trailer, TrailerFrom,
        Adler32, Ring, Structure, TablesPart, SizesPart, ClPart, LensPart, RepeatPart, Stored, StoredData, Block,
        Decompressor.Means, Decompressor.InSymbols, Decompressor.InLiteral, Decompressor.InLength,
        Decompressor.InDist, Decompressor.InDistBits, Decompressor.InBlocks, Decompressor.InTrailer,
        Decompressor.InFinished, Decompressor.InCopy, Decompressor.InRawHeader, Decompressor.InRawByte,
        Decompressor.InRawWrite, Decompressor.InSizes, Decompressor.InClSizes, Decompressor.InLens,
        Decompressor.InRepeat, Decompressor.InStart, Decompressor.InHeader1, Decompressor.InFailed;
      InOwn();
      match state
      case BlockStart => g := StepBlockStart();
      case AtTrailer => g := StepTrailer();
      case Finished => g := Out(Complete);
      case Failed => g := Out(Failure);
    }

    /** From one resume label to the next. */
    method Step() returns (g: Signal)
      requires Inv()
      modifies this, r, w`cur, w`out, w.buf, own, litTable, distTable, clTable
      ensures Inv() && Kept() && Stops(g) && (g == Go ==> Progress()) && (old(state) == Failed ==> state == Failed)
    {
      hide Decompressor.Known, HuffmanTable.Decodes, Reader.Valid, Window.Valid, GetBits, Symbols, Blocks, Finish, Trailer, TrailerFrom,
        Adler32, Ring, Structure, TablesPart, SizesPart, ClPart, LensPart, RepeatPart, Stored, StoredData, Block,
        Decompressor.InState, Decompressor.Base;
      OwnsStructure();
      InOwn();
      if IsData() {
        g := StepData();
      } else if IsStored() {
        g := StepStored();
      } else if IsDynamic() {
        g := StepDynamic();
      } else if IsStart() {
        g := StepWrapper();
      } else {
        g := StepOther();
      }
    }

    lemma OwnsStructure()
      requires Inv()
      ensures Structure()
    {
    }

    /** The loop of one call: until the status is known. */
    method Run() returns (status: Status)
      requires Inv()
      modifies this, r, w`cur, w`out, w.buf, own, litTable, distTable, clTable
      ensures Inv() && Kept() && Stops(Out(status)) && (old(state) == Failed ==> state == Failed)
    {
      hide Decompressor.Known, HuffmanTable.Decodes, Reader.Valid, Window.Valid, GetBits, Symbols, Blocks, Finish, Trailer, TrailerFrom,
        Adler32, Ring, Structure, TablesPart, SizesPart, ClPart, LensPart, RepeatPart, Stored, StoredData, Block,
        Decompressor.InState;
      while true
        invariant Inv() && Kept() && (old(state) == Failed ==> state == Failed)
        decreases 8 * |r.src| - r.P(), Rank(state)
      {
        r.InRange();
        var g := Step();
        r.InRange();
        if g.Out? {
          return g.status;
        }
      }
    }

    // ---- what callers rely on

    ghost function Repr(): set<object> {
      {this as object, r, w, sum, litTable, distTable, clTable} + own
    }

    lemma BufferApart()
      requires Inv()
      ensures w.buf !in Repr() && w.buf !in own
    {
      hide Decompressor.InState, Decompressor.Structure;
    }

    /** The running checksum is that of the output, if one is kept. */
    ghost predicate Summed()
      reads this, w, sum
    {
      (zlib || compute) && state != Failed ==> sum.value == Adler32(w.out)
    }

    lemma WrapExtends(o: Outcome, out: seq<Byte>)
      requires Extends(out, o)
      ensures Extends(out, Wrap(o))
    {
    }

    lemma MeansExtends(p: Part, out: seq<Byte>)
      requires Means(p) && PartExtends(out, p)
      ensures Extends(out, target)
    {
      hide Finish, Trailer;
      FinishExtends(r.src, final % 2 == 1, p, out);
      WrapExtends(Finish(r.src, final % 2 == 1, p), out);
    }

    lemma StoredExtends(p: nat, n: nat, out: seq<Byte>)
      requires p <= 8 * |r.src| && p % 8 == 0 && Known() && Means(StoredData(r.src, p, n, out))
      ensures Extends(out, target)
      ensures n > 0 ==> |out| < |target.out|
    {
      hide Finish, Trailer;
      MeansExtends(StoredData(r.src, p, n, out), out);
      if n > 0 {
        StoredDataNext(p, n, out);
        MeansExtends(StoredData(r.src, p + 8, n - 1, out + [r.src[p / 8]]), out + [r.src[p / 8]]);
      }
    }

    /** Where a suspension for room happens there is at least one more byte. */
    lemma PendingIsMore()
      requires Inv() && Pending()
      ensures |w.out| < |target.out|
    {
      hide GetBits, Symbols, Finish, Trailer, StoredData, CopyMatch, HuffmanTable.Decodes, Window.Valid, Reader.Valid;
      r.InRange();
      if state == Literal {
        SymbolsExtend(r.src, r.P(), w.out + [counter], lit, dst);
        MeansExtends(Symbols(r.src, r.P(), w.out + [counter], lit, dst), w.out + [counter]);
      } else if state == CopyRest {
        var o := CopyMatch(w.out, dist, counter + 1);
        SymbolsExtend(r.src, r.P(), o, lit, dst);
        MeansExtends(Symbols(r.src, r.P(), o, lit, dst), o);
      } else if state == RawWrite {
        StoredExtends(r.P(), counter - 1, w.out + [dist]);
      } else {
        StoredExtends(r.P(), counter, w.out);
      }
    }

    /** The output so far is a prefix of the final output. */
    lemma SoFar()
      requires Inv()
      ensures Extends(w.out, target)
    {
      hide Decompressor.Known, HuffmanTable.Decodes, Reader.Valid, Window.Valid, GetBits, Symbols, Blocks, Finish, Trailer, TrailerFrom,
        Adler32, Ring, Structure, TablesPart, SizesPart, ClPart, LensPart, RepeatPart, Stored, StoredData, Block,
        InflateFacts.PartExtends, InflateFacts.Extends;
      r.InRange();
      if IsData() {
        SoFarData();
      } else if IsStored() || IsDynamic() {
        SoFarBlock();
      } else {
        SoFarOther();
      }
    }

    lemma SoFarData()
      requires Inv() && IsData()
      ensures Extends(w.out, target)
    {
      hide Decompressor.Known, HuffmanTable.Decodes, Reader.Valid, Window.Valid, GetBits, Finish, Trailer, Blocks, Structure, CopyMatch;
      r.InRange();
      var src, p, out := r.src, r.P(), w.out;
      match state
      case LengthBits =>
        LengthExtends(src, p, out, lit, dst, counter, numExtra);
        MeansExtends(LengthPart(src, p, out, lit, dst, counter, numExtra), out);
      case Distance =>
        DistExtends(src, p, out, lit, dst, counter);
        MeansExtends(DistPart(src, p, out, lit, dst, counter), out);
      case DistanceFill =>
        DistExtends(src, p, out, lit, dst, counter);
        MeansExtends(DistPart(src, p, out, lit, dst, counter), out);
      case DistanceBits =>
        DistExtraExtends(src, p, out, lit, dst, counter, dist, numExtra);
        MeansExtends(DistExtraPart(src, p, out, lit, dst, counter, dist, numExtra), out);
      case Literal => PendingIsMore(); PendingExtends();
      case CopyRest => PendingIsMore(); PendingExtends();
      case Symbol =>
        SymbolsExtend(src, p, out, lit, dst);
        MeansExtends(Symbols(src, p, out, lit, dst), out);
      case SymbolFill =>
        SymbolsExtend(src, p, out, lit, dst);
        MeansExtends(Symbols(src, p, out, lit, dst), out);
    }

    lemma PendingExtends()
      requires Inv() && (state == Literal || state == CopyRest)
      ensures Extends(w.out, target)
    {
      hide GetBits, Symbols, Finish, Trailer, HuffmanTable.Decodes, Window.Valid, Reader.Valid, Structure, CopyMatch;
      r.InRange();
      var o := if state == Literal then w.out + [counter] else CopyMatch(w.out, dist, counter + 1);
      if state == CopyRest {
        MatchExtends(w.out, dist, counter + 1);
      }
      SymbolsExtend(r.src, r.P(), o, lit, dst);
      MeansExtends(Symbols(r.src, r.P(), o, lit, dst), o);
    }

    lemma SoFarBlock()
      requires Inv() && (IsStored() || IsDynamic())
      ensures Extends(w.out, target)
    {
      hide Decompressor.Known, HuffmanTable.Decodes, Reader.Valid, Window.Valid, GetBits, Finish, Trailer, Blocks, Structure, SizesRange,
        LensOk, Acceptable;
      r.InRange();
      var src, p, out := r.src, r.P(), w.out;
      match state
      case RawHeader => RawExtends();
      case RawByte => StoredExtends(p, counter, out);
      case RawWrite => StoredExtends(p, counter - 1, out + [dist]);
      case Sizes =>
        SizesExtend(src, p, out, tableSizes[..counter]);
        MeansExtends(SizesPart(src, p, out, tableSizes[..counter]), out);
      case ClSizes =>
        ClExtends(src, p, out, tableSizes[0], tableSizes[1], tableSizes[2], cls);
        MeansExtends(ClPart(src, p, out, tableSizes[0], tableSizes[1], tableSizes[2], cls), out);
      case LenRepeat =>
        RepeatExtends(src, p, out, tableSizes[0], tableSizes[1], cl, lens, dist);
        MeansExtends(RepeatPart(src, p, out, tableSizes[0], tableSizes[1], cl, lens, dist), out);
      case LenCode =>
        LensExtend(src, p, out, tableSizes[0], tableSizes[1], cl, lens);
        MeansExtends(LensPart(src, p, out, tableSizes[0], tableSizes[1], cl, lens), out);
      case LenCodeFill =>
        LensExtend(src, p, out, tableSizes[0], tableSizes[1], cl, lens);
        MeansExtends(LensPart(src, p, out, tableSizes[0], tableSizes[1], cl, lens), out);
    }

    lemma RawExtends()
      requires Base() && InRawHeader()
      ensures Extends(w.out, target)
    {
      hide Reader.Valid, Window.Valid, GetBits, Finish, Trailer, Blocks, Structure;
      r.InRange();
      var i := r.P() / 8 - counter;
      MeansExtends(Stored(r.src, 8 * i, w.out), w.out);
    }

    lemma SoFarOther()
      requires Inv() && !IsData() && !IsStored() && !IsDynamic()
      ensures Extends(w.out, target)
    {
      hide Decompressor.Known, HuffmanTable.Decodes, Reader.Valid, Window.Valid, GetBits, Finish, Blocks, Structure, Whole, Adler32,
        TrailerFrom;
      r.InRange();
      if state == BlockStart {
        BlocksExtend(r.src, r.P(), w.out);
        WrapExtends(Blocks(r.src, r.P(), w.out), w.out);
      } else if state == AtTrailer {
        TrailerExtends(r.src, r.P(), counter, zAdler, w.out);
      }
    }

    /** The index mask plus one (lines 283-286). */
    function SizeFor(end: nat): nat {
      if nonWrap then NO_WRAP else end
    }

    /** The output region continues where the last call stopped, in a buffer that
        still holds the earlier output: a ring with room for the largest
        distance, or one buffer for everything. */
    ghost predicate Continues(buf: array<Byte>, next: nat, end: nat)
      reads this, w, buf
    {
      && next <= end <= buf.Length && buf !in own && end <= SizeFor(end) && 32768 <= SizeFor(end)
      && Ring(buf[..], SizeFor(end), w.out, next) && (nonWrap ==> next == |w.out|)
      && (w.out == [] || (w.size == SizeFor(end) && (next == w.cur || (next == 0 && w.cur == w.size))))
    }

    /** A new call changes nothing that its state speaks of. */
    twostate predicate SameBelow()
      reads this, r, w
    {
      && r.Valid() && r.P() == old(r.P()) && r.numBits == old(r.numBits) && r.taken == old(r.taken) && w.out == old(w.out)
      && (state == CopyRest ==> w.size > 0 && Laps(from, w.cur, w.size))
    }

    twostate predicate TablesKept()
      reads this, litTable, distTable, clTable, litTable.lookUp, litTable.tree, distTable.lookUp, distTable.tree
      reads clTable.codeSize, clTable.lookUp, clTable.tree, tableSizes, rawHeader, lenCodes
    {
      && unchanged(litTable) && unchanged(distTable) && unchanged(clTable)
      && unchanged(litTable.lookUp) && unchanged(litTable.tree) && unchanged(distTable.lookUp) && unchanged(distTable.tree)
      && unchanged(clTable.codeSize) && unchanged(clTable.lookUp) && unchanged(clTable.tree)
      && unchanged(tableSizes) && unchanged(rawHeader) && unchanged(lenCodes)
    }

    twostate lemma KeptData()
      requires old(Inv()) && IsData() && SameBelow() && Base() && unchanged(this)
      requires TablesKept()
      ensures InState()
    {
      hide Decompressor.Known, HuffmanTable.Decodes, Reader.Valid, Window.Valid, GetBits, Symbols, Blocks, Finish, Trailer, TrailerFrom,
        Adler32, Ring, Structure, TablesPart, SizesPart, ClPart, LensPart, RepeatPart, Stored, StoredData, Block,
        Decompressor.Means, Laps, Decompressor.InBlocks, Decompressor.InTrailer, Decompressor.InFinished,
        Decompressor.InRawHeader, Decompressor.InRawByte, Decompressor.InRawWrite, Decompressor.InSizes,
        Decompressor.InClSizes, Decompressor.InLens, Decompressor.InRepeat, Decompressor.InStart,
        Decompressor.InHeader1, Decompressor.InFailed;
    }

    twostate lemma KeptStored()
      requires old(Inv()) && IsStored() && SameBelow() && Base() && unchanged(this)
      requires TablesKept()
      ensures InState()
    {
      hide Decompressor.Known, HuffmanTable.Decodes, Reader.Valid, Window.Valid, GetBits, Symbols, Blocks, Finish, Trailer, TrailerFrom,
        Adler32, Ring, Structure, TablesPart, SizesPart, ClPart, LensPart, RepeatPart, Stored, StoredData, Block,
        Decompressor.Means, Laps, Decompressor.InSymbols, Decompressor.InLiteral, Decompressor.InLength,
        Decompressor.InDist, Decompressor.InDistBits, Decompressor.InBlocks, Decompressor.InTrailer,
        Decompressor.InFinished, Decompressor.InCopy, Decompressor.InSizes, Decompressor.InClSizes,
        Decompressor.InLens, Decompressor.InRepeat, Decompressor.InStart, Decompressor.InHeader1,
        Decompressor.InFailed, Decompressor.Ready;
      if state == RawHeader {
        ApartHeader();
        assert rawHeader[..counter] == old(rawHeader[..counter]);
      }
    }

    twostate lemma KeptDynamic()
      requires old(Inv()) && IsDynamic() && SameBelow() && Base() && unchanged(this)
      requires TablesKept()
      ensures InState()
    {
      hide Decompressor.Known, HuffmanTable.Decodes, Reader.Valid, Window.Valid, GetBits, Symbols, Blocks, Finish, Trailer, TrailerFrom,
        Adler32, Ring, Structure, TablesPart, SizesPart, ClPart, LensPart, RepeatPart, Stored, StoredData, Block,
        Decompressor.Means, Laps, Decompressor.InSymbols, Decompressor.InLiteral, Decompressor.InLength,
        Decompressor.InDist, Decompressor.InDistBits, Decompressor.InBlocks, Decompressor.InTrailer,
        Decompressor.InFinished, Decompressor.InCopy, Decompressor.InRawHeader, Decompressor.InRawByte,
        Decompressor.InRawWrite, Decompressor.InStart, Decompressor.InHeader1, Decompressor.InFailed,
        Decompressor.Ready;
      if state == Sizes {
        assert tableSizes[..counter] == old(tableSizes[..counter]);
      } else if state == ClSizes {
        assert tableSizes[..] == old(tableSizes[..]) && clTable.codeSize[..19] == old(clTable.codeSize[..19]);
      } else {
        assert lenCodes[..counter] == old(lenCodes[..counter]);
      }
    }

    twostate lemma KeptOther()
      requires old(Inv()) && !IsData() && !IsStored() && !IsDynamic() && SameBelow() && Base() && unchanged(this)
      requires TablesKept()
      ensures InState()
    {
      hide Decompressor.Known, HuffmanTable.Decodes, Reader.Valid, Window.Valid, GetBits, Symbols, Blocks, Finish, Trailer, TrailerFrom,
        Adler32, Ring, Structure, TablesPart, SizesPart, ClPart, LensPart, RepeatPart, Stored, StoredData, Block,
        Decompressor.Means, Laps, Decompressor.InSymbols, Decompressor.InLiteral, Decompressor.InLength,
        Decompressor.InDist, Decompressor.InDistBits, Decompressor.InCopy, Decompressor.InRawHeader,
        Decompressor.InRawByte, Decompressor.InRawWrite, Decompressor.InSizes, Decompressor.InClSizes,
        Decompressor.InLens, Decompressor.InRepeat, Decompressor.Ready;
    }

    /** Taking up a call: the invariant holds with the new input and region. */
    method Begin(input: seq<Byte>, buf: array<Byte>, next: nat, end: nat, hasMore: bool)
      requires Inv() && Continues(buf, next, end)
      requires r.taken + |input| <= |r.src| && input == r.src[r.taken..r.taken + |input|]
      requires !hasMore ==> r.taken + |input| == |r.src|
      modifies r, w
      ensures Inv() && w.out == old(w.out) && w.before == w.out && w.cur == next && w.next == next && w.end == end
      ensures w.buf == buf && w.size == SizeFor(end)
      ensures r.input == input && r.hasMore == hasMore && r.cur == 0 && r.taken == old(r.taken)
    {
      hide Decompressor.Known, HuffmanTable.Decodes, Reader.Valid, Window.Valid, GetBits, Symbols, Blocks, Finish, Trailer, TrailerFrom,
        Adler32, Ring, Structure, TablesPart, SizesPart, ClPart, LensPart, RepeatPart, Stored, StoredData, Block,
        Decompressor.Means, Laps, Decompressor.InState, Decompressor.Ready;
      LapKept(next, end);
      r.Begin(input, hasMore);
      w.Begin(buf, next, end, SizeFor(end));
      if IsData() {
        KeptData();
      } else if IsStored() {
        KeptStored();
      } else if IsDynamic() {
        KeptDynamic();
      } else {
        KeptOther();
      }
    }

    lemma LapKept(next: nat, end: nat)
      requires Inv() && 0 < SizeFor(end)
      requires w.out == [] || (w.size == SizeFor(end) && (next == w.cur || (next == 0 && w.cur == w.size)))
      ensures state == CopyRest ==> Laps(from, next, SizeFor(end))
    {
      hide Decompressor.Known, HuffmanTable.Decodes, Reader.Valid, Window.Valid, GetBits, Symbols, Blocks, Finish, Trailer, TrailerFrom,
        Adler32, Ring, Structure, TablesPart, SizesPart, ClPart, LensPart, RepeatPart, Stored, StoredData, Block,
        Decompressor.Means, Laps;
      if state == CopyRest && next != w.cur {
        NextLap(from, w.size);
      }
    }

    /** The power-of-two test of line 286. */
    predicate PowerOfTwo(n: nat) {
      n == 1 || (n > 0 && n % 2 == 0 && PowerOfTwo(n / 2))
    }

    predicate BadRegion(end: nat) {
      !nonWrap && !PowerOfTwo(end)
    }

    /** What one call comes to, by status. */
    ghost predicate Outcomes(status: Status)
      reads this, r, w
    {
      match status
      case BadParam => true
      case Complete => target.Done? && w.out == target.out && target.end <= 8 * r.taken <= target.end + 64
      case AdlerMismatch => target.Mismatch? && w.out == target.out && target.end <= 8 * r.taken <= target.end + 64
      case Failure => target.Rejected? && w.out == target.out
      case NeedsMoreInput => r.hasMore && r.cur == |r.input| && 8 * r.taken < NeedOf(target, 8 * |r.src|)
      case HasMoreOutput => w.cur == w.end && target != Outside && |w.out| < |target.out|
    }

    /** One call of tinfl_decompress. Over a run of calls with consecutive pieces
        of the stream and consecutive regions of the buffer, the output is always
        a prefix of what the reference decoder gives, in the buffer byte by byte;
        a final status says that it is all of it, and any other status that the
        call used up its input or its room. */
    method Decompress(input: seq<Byte>, buf: array<Byte>, next: nat, end: nat, hasMore: bool)
      returns (status: Status, inUsed: nat, outMade: nat)
      requires Inv() && Summed() && Continues(buf, next, end)
      requires r.taken + |input| <= |r.src| && input == r.src[r.taken..r.taken + |input|]
      requires !hasMore ==> r.taken + |input| == |r.src|
      modifies this, r, w, sum, buf, own, litTable, distTable, clTable
      ensures Inv() && Summed()
      ensures status == BadParam <==> BadRegion(end)
      ensures status == BadParam ==> inUsed == outMade == 0 && w.out == old(w.out) && r.taken == old(r.taken)
      ensures inUsed <= |input| && r.taken == old(r.taken) + inUsed && outMade <= end - next
      ensures w.out == old(w.out) + buf[next..next + outMade] && Extends(w.out, target)
      ensures status != BadParam ==> Ring(buf[..], SizeFor(end), w.out, next + outMade)
      ensures status != BadParam ==> w.cur == next + outMade && w.size == SizeFor(end) && w.buf == buf
      ensures status == NeedsMoreInput ==> hasMore && inUsed == |input| && 8 * r.taken < NeedOf(target, 8 * |r.src|) <= 8 * |r.src|
      ensures status == HasMoreOutput ==> outMade == end - next
      ensures Outcomes(status)
    {
      hide Decompressor.Known, HuffmanTable.Decodes, Reader.Valid, Window.Valid, GetBits, Symbols, Blocks, Finish, Trailer, TrailerFrom,
        Adler32, Ring, Structure, TablesPart, SizesPart, ClPart, LensPart, RepeatPart, Stored, StoredData, Block,
        Decompressor.InState, Decompressor.Base, PowerOfTwo, InflateFacts.Extends, Decompressor.Inv,
        Decompressor.Outcomes;
      SoFar();
      NeedIs();
      OwnsStructure();
      SumApart();
      status, inUsed, outMade := BadParam, 0, 0;
      if BadRegion(end) {
        NothingYet();
      } else {
        Begin(input, buf, next, end, hasMore);
        status := RunCall();
        inUsed, outMade := r.cur, w.cur - next;
      }
    }

    lemma NeedIs()
      requires Inv()
      ensures r.need == NeedOf(target, 8 * |r.src|) <= 8 * |r.src|
    {
      hide Decompressor.InState;
    }

    lemma NothingYet()
      ensures Outcomes(BadParam)
    {
    }

    /** The call between its start and its return. */
    method RunCall() returns (status: Status)
      requires Inv() && Structure() && w.before == w.out && Summed()
      modifies this, r, w`cur, w`out, w.buf, own, litTable, distTable, clTable, sum
      ensures Inv() && Kept() && Summed() && Outcomes(status) && status != BadParam && Extends(w.out, target)
      ensures status == NeedsMoreInput ==> r.Starved()
      ensures status == HasMoreOutput ==> w.Full()
      ensures w.next <= w.cur <= w.end <= w.buf.Length && r.cur <= |r.input|
      ensures w.out == w.before + w.buf[w.next..w.cur] && Ring(w.buf[..], w.size, w.out, w.cur)
    {
      hide Decompressor.Known, HuffmanTable.Decodes, Reader.Valid, Window.Valid, GetBits, Symbols, Blocks, Finish, Trailer, TrailerFrom,
        Adler32, Ring, Structure, TablesPart, SizesPart, ClPart, LensPart, RepeatPart, Stored, StoredData, Block,
        Decompressor.InState, PowerOfTwo, InflateFacts.Extends;
      SumApart();
      var s := Run();
      SoFar();
      status := Exit(s);
      RegionIs();
      CursorIs();
    }

    lemma CursorIs()
      requires r.Valid()
      ensures r.cur <= |r.input|
    {
    }

    lemma SumApart()
      requires Structure()
      ensures sum !in own
    {
    }

    lemma RegionIs()
      requires w.Valid()
      ensures w.next <= w.cur <= w.end <= w.buf.Length
      ensures w.out == w.before + w.buf[w.next..w.cur] && Ring(w.buf[..], w.size, w.out, w.cur)
    {
    }

    /** Lines 521-540: the checksum, and the comparison with the trailer. */
    method Exit(status: Status) returns (result: Status)
      requires Inv() && Stops(Out(status))
      requires (zlib || compute) && state != Failed ==> sum.value == Adler32(w.before)
      modifies sum
      ensures Inv() && Summed() && Outcomes(result) && result != BadParam
      ensures result == NeedsMoreInput ==> r.Starved()
      ensures result == HasMoreOutput ==> w.Full()
    {
      hide Decompressor.Known, HuffmanTable.Decodes, Reader.Valid, Window.Valid, GetBits, Symbols, Blocks, Finish, Trailer, TrailerFrom,
        Adler32, Ring, Structure, TablesPart, SizesPart, ClPart, LensPart, RepeatPart, Stored, StoredData, Block,
        Decompressor.InState;
      result := status;
      OwnsStructure();
      SumApart();
      OutcomeOf(status);
      RegionIs();
      if (zlib || compute) && status != Failure {
        sum.value := Adler.Update(sum.value, w.buf[w.next..w.cur], w.before);
        if status == Complete && zlib && sum.value != zAdler {
          result := AdlerMismatch;
        }
      }
    }

    lemma OutcomeOf(status: Status)
      requires Inv() && Stops(Out(status))
      ensures status in {Complete, Failure, NeedsMoreInput, HasMoreOutput}
      ensures status == Failure <==> state == Failed
      ensures status == Failure ==> Outcomes(status)
      ensures status == NeedsMoreInput ==> Outcomes(status)
      ensures status == HasMoreOutput ==> Outcomes(status)
      ensures status == Complete ==> Outcomes(if zlib && zAdler != Adler32(w.out) then AdlerMismatch else Complete)
    {
      hide HuffmanTable.Decodes, Reader.Valid, Window.Valid, GetBits, Symbols, Blocks, Finish, Trailer, TrailerFrom,
        Adler32, Ring, Structure, TablesPart, SizesPart, ClPart, LensPart, RepeatPart, Stored, StoredData, Block;
      r.Ahead();
      if status == HasMoreOutput {
        PendingIsMore();
        RegionIs();
      }
    }
  }
}
