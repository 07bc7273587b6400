/** Writing whole deflate streams, block by block (sections 3.2.3, 3.2.4 and 3.2.7
    of RFC 1951), and reading them back. */
module StreamWriter {
  import opened Bits
  import opened BitWriter
  import opened Huffman
  import opened Rfc1951
  import opened DeflateWriter
  import opened StoredStream

  // ---- the code lengths of a dynamic block

  /** A length as it is, the last one n times more, or n zeros. */
  datatype Item = Len(l: nat) | Same(n: nat) | Zeros(n: nat)

  ghost predicate All(lens: seq<nat>, k: nat, n: nat, l: nat)
    requires k + n <= |lens|
  {
    forall i :: k <= i < k + n ==> lens[i] == l
  }

  /** The items list the lengths from the k-th on. */
  ghost predicate Lists(items: seq<Item>, lens: seq<nat>, k: nat)
    decreases |items|
  {
    if items == [] then k == |lens|
    else
      match items[0]
      case Len(l) => k < |lens| && lens[k] == l <= 15 && Lists(items[1..], lens, k + 1)
      case Same(n) =>
        && 3 <= n <= 6 && k > 0 && k + n <= |lens| && All(lens, k, n, lens[k - 1]) && Lists(items[1..], lens, k + n)
      case Zeros(n) => 3 <= n <= 138 && k + n <= |lens| && All(lens, k, n, 0) && Lists(items[1..], lens, k + n)
  }

  function ItemSymbol(it: Item): nat {
    match it
    case Len(l) => l
    case Same(_) => 16
    case Zeros(n) => if n <= 10 then 17 else 18
  }

  function ItemBits(cl: seq<nat>, it: Item): seq<Bit> {
    match it
    case Len(l) => SymBits(cl, l)
    case Same(n) => SymBits(cl, 16) + Number(if n < 3 then 0 else n - 3, 2)
    case Zeros(n) =>
      if n < 3 then []
      else if n <= 10 then SymBits(cl, 17) + Number(n - 3, 3)
      else SymBits(cl, 18) + Number(n - 11, 7)
  }

  function ItemsBits(cl: seq<nat>, items: seq<Item>): seq<Bit> {
    if items == [] then [] else ItemBits(cl, items[0]) + ItemsBits(cl, items[1..])
  }

  /** Which symbol's length comes k-th: the three repeats, zero, and then the lengths
      from the middle outwards, 8, 7, 9, 6 and so on. */
  function Nth(k: nat): (s: nat)
    requires k < 19
    ensures s < 19
  {
    if k < 3 then 16 + k else if k == 3 then 0 else if k % 2 == 0 then 8 + (k - 4) / 2 else 7 - (k - 5) / 2
  }

  function Place(s: nat): nat
    requires s < 19
  {
    if s >= 16 then s - 16 else if s == 0 then 3 else if s >= 8 then 2 * s - 12 else 19 - 2 * s
  }

  lemma NthIs(k: nat)
    requires k < 19
    ensures Place(Nth(k)) == k && ClOrder(k) == Nth(k)
  {
  }

  lemma PlaceIs(s: nat)
    requires s < 19
    ensures Place(s) < 19 && Nth(Place(s)) == s
  {
  }

  /** The lengths of the code length code from the k-th to h. */
  function ClBits(cl: seq<nat>, k: nat, h: nat): seq<Bit>
    requires |cl| == 19 && h <= 19
    decreases 19 - k
  {
    if k >= h then [] else Number(cl[Nth(k)], 3) + ClBits(cl, k + 1, h)
  }

  /** What a dynamic block says before its data. */
  datatype Header = Header(lit: seq<nat>, dst: seq<nat>, cl: seq<nat>, h: nat, items: seq<Item>)

  function HeaderBits(d: Header): seq<Bit>
    requires Sizes(d)
  {
    Number(|d.lit| - 257, 5) + (Number(|d.dst| - 1, 5) + (Number(d.h - 4, 4) + (ClBits(d.cl, 0, d.h) + ItemsBits(d.cl, d.items))))
  }

  predicate Sizes(d: Header) {
    257 <= |d.lit| <= 288 && 1 <= |d.dst| <= 32 && |d.cl| == 19 && 4 <= d.h <= 19
  }

  /** Codes that are complete or have one symbol at most, all lengths in their
      range, and none that is needed left out. */
  ghost predicate HeaderOk(d: Header) {
    && Sizes(d) && CodesOk(Given(d.lit, d.dst)) && Acceptable(d.cl)
    && (forall s :: 0 <= s < 19 ==> d.cl[s] <= 7 && (d.cl[s] > 0 ==> Place(s) < d.h))
    && Lists(d.items, d.lit + d.dst, 0)
    && (forall i :: 0 <= i < |d.items| ==> InCode(d.cl, ItemSymbol(d.items[i])))
  }

  // ---- reading it back

  function Cls(cl: seq<nat>, k: nat): (cls: seq<nat>)
    requires |cl| == 19 && k <= 19
    ensures |cls| == k
  {
    if k == 0 then [] else Cls(cl, k - 1) + [cl[Nth(k - 1)]]
  }

  lemma {:induction false} ClsSay(cl: seq<nat>, k: nat, s: nat)
    requires |cl| == 19 && k <= 19 && s < 19
    ensures ClLens(Cls(cl, k))[s] == if Place(s) < k then cl[s] else 0
    decreases k
  {
    hide Nth, Place, ClOrder;
    if k > 0 {
      ClsSay(cl, k - 1, s);
      NthIs(k - 1);
      PlaceIs(s);
      assert Cls(cl, k)[..k - 1] == Cls(cl, k - 1);
    }
  }

  lemma ClLensIs(cl: seq<nat>, h: nat)
    requires |cl| == 19 && h <= 19 && forall s :: 0 <= s < 19 ==> (cl[s] > 0 ==> Place(s) < h)
    ensures ClLens(Cls(cl, h)) == cl
  {
    hide ClLens, Cls, Place;
    forall s | 0 <= s < 19 ensures ClLens(Cls(cl, h))[s] == cl[s] {
      ClsSay(cl, h, s);
    }
  }

  lemma {:induction false} ClRead(src: seq<Byte>, p: nat, out: seq<Byte>, hlit: nat, hdist: nat, cl: seq<nat>, k: nat, h: nat)
    requires |cl| == 19 && k <= h <= 19 && Acceptable(cl)
    requires forall s :: 0 <= s < 19 ==> cl[s] <= 7 && (cl[s] > 0 ==> Place(s) < h)
    requires HasBits(src, p, ClBits(cl, k, h))
    ensures p + |ClBits(cl, k, h)| <= 8 * |src|
    ensures ClPart(src, p, out, hlit, hdist, h, Cls(cl, k)) == LensPart(src, p + |ClBits(cl, k, h)|, out, hlit, hdist, cl, [])
    decreases h - k
  {
    hide HasBits, Nth, Place, ClLens, Acceptable, LensPart, Number, GetBits, Low;
    Inside(src, p, ClBits(cl, k, h));
    if k < h {
      var v := cl[Nth(k)];
      Parts(src, p, Number(v, 3), ClBits(cl, k + 1, h));
      NumberRead(src, p, v, 3);
      ThreeBits(v);
      assert Cls(cl, k + 1) == Cls(cl, k) + [v];
      ClRead(src, p + 3, out, hlit, hdist, cl, k + 1, h);
    } else {
      ClLensIs(cl, h);
    }
  }

  lemma ThreeBits(v: nat)
    requires v <= 7
    ensures Low(v, 3) == v
  {
  }

  lemma {:induction false} LowIs(v: nat, n: nat, m: nat)
    requires v < m && m <= Shl(1, n)
    ensures Low(v, n) == v
  {
    SmallLow(v, n);
  }

  lemma Widths()
    ensures Shl(1, 2) == 4 && Shl(1, 3) == 8 && Shl(1, 4) == 16 && Shl(1, 5) == 32 && Shl(1, 7) == 128 && Shl(1, 16) == 65536
  {
    hide Shl;
    Powers(1);
    Shl16();
  }

  /** One item, which lists the lengths from k to m. */
  lemma ItemRead(src: seq<Byte>, p: nat, out: seq<Byte>, hlit: nat, hdist: nat, cl: seq<nat>, it: Item, lens: seq<nat>, k: nat, m: nat)
    requires Acceptable(cl) && LensOk(cl) && InCode(cl, ItemSymbol(it)) && |lens| == hlit + hdist
    requires k < m <= |lens| && Lists([it], lens[..m], k)
    requires HasBits(src, p, ItemBits(cl, it))
    ensures p + |ItemBits(cl, it)| <= 8 * |src|
    ensures LensPart(src, p, out, hlit, hdist, cl, lens[..k]) == LensPart(src, p + |ItemBits(cl, it)|, out, hlit, hdist, cl, lens[..m])
  {
    hide HasBits, Acceptable, LensOk, HasSym, Sym, SymBits, Number, GetBits, Low, Shl, TablesPart;
    Inside(src, p, ItemBits(cl, it));
    var t := lens[..m];
    assert Lists([it][1..], t, m) ==> m == |t|;
    match it
    case Len(l) =>
      SymRead(src, p, cl, l);
      assert lens[..k] + [l] == lens[..m];
    case Same(n) =>
      RunRead(src, p, out, hlit, hdist, cl, lens, k, n, 16, 3, 2);
    case Zeros(n) =>
      if n <= 10 {
        RunRead(src, p, out, hlit, hdist, cl, lens, k, n, 17, 3, 3);
      } else {
        RunRead(src, p, out, hlit, hdist, cl, lens, k, n, 18, 11, 7);
      }
  }

  lemma RunRead(src: seq<Byte>, p: nat, out: seq<Byte>, hlit: nat, hdist: nat, cl: seq<nat>, lens: seq<nat>, k: nat, n: nat,
                s: nat, least: nat, bits: nat)
    requires Acceptable(cl) && LensOk(cl) && InCode(cl, s) && |lens| == hlit + hdist && k + n <= |lens| && n > 0
    requires (s == 16 && least == 3 && bits == 2 && n <= 6) || (s == 17 && least == 3 && bits == 3 && n <= 10) ||
             (s == 18 && least == 11 && bits == 7 && n <= 138)
    requires n >= least && (s == 16 ==> k > 0)
    requires All(lens, k, n, if s == 16 then lens[k - 1] else 0)
    requires HasBits(src, p, SymBits(cl, s) + Number(n - least, bits))
    ensures p + |SymBits(cl, s)| + bits <= 8 * |src|
    ensures LensPart(src, p, out, hlit, hdist, cl, lens[..k]) ==
      LensPart(src, p + |SymBits(cl, s)| + bits, out, hlit, hdist, cl, lens[..k + n])
  {
    hide HasBits, Acceptable, LensOk, HasSym, Sym, SymBits, Number, GetBits, Low, Shl, TablesPart;
    Parts(src, p, SymBits(cl, s), Number(n - least, bits));
    SymRead(src, p, cl, s);
    NumberRead(src, p + cl[s], n - least, bits);
    Widths();
    LowIs(n - least, bits, n - least + 1);
    var l := if s == 16 then lens[k - 1] else 0;
    assert lens[..k] + Repeat(l, n) == lens[..k + n];
    assert LensPart(src, p, out, hlit, hdist, cl, lens[..k]) == RepeatPart(src, p + cl[s], out, hlit, hdist, cl, lens[..k], s);
  }

  lemma {:induction false} ItemsRead(src: seq<Byte>, p: nat, out: seq<Byte>, hlit: nat, hdist: nat, cl: seq<nat>, items: seq<Item>,
                                     lens: seq<nat>, k: nat)
    requires Acceptable(cl) && LensOk(cl) && |lens| == hlit + hdist && k <= |lens| && Lists(items, lens, k)
    requires forall i :: 0 <= i < |items| ==> InCode(cl, ItemSymbol(items[i]))
    requires HasBits(src, p, ItemsBits(cl, items))
    ensures p + |ItemsBits(cl, items)| <= 8 * |src|
    ensures LensPart(src, p, out, hlit, hdist, cl, lens[..k]) ==
      TablesPart(src, p + |ItemsBits(cl, items)|, out, lens[..hlit], lens[hlit..])
    decreases |items|
  {
    hide HasBits, Acceptable, LensOk, HasSym, Sym, ItemBits, TablesPart, InCode, All, ItemSymbol;
    Inside(src, p, ItemsBits(cl, items));
    if items == [] {
      assert lens[..k] == lens;
    } else {
      var it := items[0];
      var m := k + match it case Len(_) => 1 case Same(n) => n case Zeros(n) => n;
      Parts(src, p, ItemBits(cl, it), ItemsBits(cl, items[1..]));
      OneItem(it, items, lens, k, m);
      ItemRead(src, p, out, hlit, hdist, cl, it, lens, k, m);
      ItemsRead(src, p + |ItemBits(cl, it)|, out, hlit, hdist, cl, items[1..], lens, m);
    }
  }

  lemma OneItem(it: Item, items: seq<Item>, lens: seq<nat>, k: nat, m: nat)
    requires items != [] && it == items[0] && Lists(items, lens, k)
    requires m == k + match it case Len(_) => 1 case Same(n) => n case Zeros(n) => n
    ensures k < m <= |lens| && Lists([it], lens[..m], k) && Lists(items[1..], lens, m)
  {
    assert [it][1..] == [];
    assert k < m <= |lens|;
    assert Lists([it][1..], lens[..m], m);
  }

  lemma HeaderRead(src: seq<Byte>, p: nat, out: seq<Byte>, d: Header)
    requires HeaderOk(d) && HasBits(src, p, HeaderBits(d))
    ensures p + |HeaderBits(d)| <= 8 * |src|
    ensures SizesPart(src, p, out, []) == Symbols(src, p + |HeaderBits(d)|, out, d.lit, d.dst)
  {
    hide HasBits, Acceptable, ClPart, LensPart, Number, GetBits, Low, Shl, Lists, ClBits, ItemsBits, Symbols, Place, LensOk;
    var a, b, c := Number(|d.lit| - 257, 5), Number(|d.dst| - 1, 5), Number(d.h - 4, 4);
    var e, f := ClBits(d.cl, 0, d.h), ItemsBits(d.cl, d.items);
    Inside(src, p, HeaderBits(d));
    Parts(src, p, a, b + (c + (e + f)));
    Parts(src, p + 5, b, c + (e + f));
    Parts(src, p + 10, c, e + f);
    Parts(src, p + 14, e, f);
    SizesRead(src, p, out, |d.lit|, |d.dst|, d.h);
    assert Cls(d.cl, 0) == [];
    ClRead(src, p + 14, out, |d.lit|, |d.dst|, d.cl, 0, d.h);
    ClSmall(d);
    var lens := d.lit + d.dst;
    ItemsRead(src, p + 14 + |e|, out, |d.lit|, |d.dst|, d.cl, d.items, lens, 0);
    assert lens[..0] == [] && lens[..|d.lit|] == d.lit && lens[|d.lit|..] == d.dst;
    assert |HeaderBits(d)| == 14 + |e| + |f|;
  }

  lemma ClSmall(d: Header)
    requires HeaderOk(d)
    ensures LensOk(d.cl)
  {
    hide Acceptable, Lists, Place;
  }

  lemma SizesRead(src: seq<Byte>, p: nat, out: seq<Byte>, hlit: nat, hdist: nat, h: nat)
    requires 257 <= hlit <= 288 && 1 <= hdist <= 32 && 4 <= h <= 19
    requires HasBits(src, p, Number(hlit - 257, 5)) && HasBits(src, p + 5, Number(hdist - 1, 5)) && HasBits(src, p + 10, Number(h - 4, 4))
    ensures p + 14 <= 8 * |src|
    ensures SizesPart(src, p, out, []) == ClPart(src, p + 14, out, hlit, hdist, h, [])
  {
    hide HasBits, ClPart, Number, GetBits, Low, Shl;
    Widths();
    NumberRead(src, p, hlit - 257, 5);
    NumberRead(src, p + 5, hdist - 1, 5);
    NumberRead(src, p + 10, h - 4, 4);
    LowIs(hlit - 257, 5, 32);
    LowIs(hdist - 1, 5, 32);
    LowIs(h - 4, 4, 16);
    var none: seq<nat> := [];
    assert none + [SizeMin(0) + (hlit - 257)] == [hlit];
    assert SizesPart(src, p, out, none) == SizesPart(src, p + 5, out, [hlit]);
    assert [hlit] + [hdist] == [hlit, hdist] && [hlit, hdist] + [h] == [hlit, hdist, h];
    assert SizesPart(src, p + 5, out, [hlit]) == SizesPart(src, p + 10, out, [hlit, hdist]);
    assert SizesPart(src, p + 10, out, [hlit, hdist]) == SizesPart(src, p + 14, out, [hlit, hdist, h]);
  }

  // ---- blocks

  /** A block: bytes as they are, or tokens in the fixed codes or in codes of its
      own. */
  datatype Piece = Raw(data: seq<Byte>) | Fixed(tokens: seq<Token>) | Dynamic(d: Header, tokens: seq<Token>)

  function Extent(tokens: seq<Token>): nat {
    if tokens == [] then 0 else (match tokens[0] case Literal(_) => 1 case Match(len, _) => len) + Extent(tokens[1..])
  }

  /** How many bytes the block holds. */
  function PieceSize(b: Piece): nat {
    match b
    case Raw(data) => |data|
    case Fixed(tokens) => Extent(tokens)
    case Dynamic(_, tokens) => Extent(tokens)
  }

  /** The block holds data[from..to]; distances may reach back into earlier blocks. */
  ghost predicate Holds(b: Piece, data: seq<Byte>, from: nat, to: nat)
    requires from <= to <= |data|
  {
    match b
    case Raw(bytes) => |bytes| <= 65535 && data[from..to] == bytes
    case Fixed(tokens) => Spell(tokens, data, from, to)
    case Dynamic(d, tokens) => HeaderOk(d) && CoversAll(Given(d.lit, d.dst), tokens) && Spell(tokens, data, from, to)
  }

  /** The blocks hold the data from there to its end. */
  ghost predicate Tell(blocks: seq<Piece>, data: seq<Byte>, from: nat) {
    && blocks != [] && from + PieceSize(blocks[0]) <= |data|
    && Holds(blocks[0], data, from, from + PieceSize(blocks[0]))
    && if |blocks| == 1 then from + PieceSize(blocks[0]) == |data| else Tell(blocks[1..], data, from + PieceSize(blocks[0]))
  }

  /** What follows the three bits at a block's start, when it is at p. Bytes as they
      are begin on a byte, with their number and its complement. */
  function PieceBits(b: Piece, p: nat): seq<Bit> {
    match b
    case Raw(data) => if |data| > 65535 then [] else Number(0, (8 - p % 8) % 8) + RawBits(data)
    case Fixed(tokens) => BodyBits(FixedCodes, tokens)
    case Dynamic(d, tokens) => if Sizes(d) then HeaderBits(d) + BodyBits(Given(d.lit, d.dst), tokens) else []
  }

  function RawBits(data: seq<Byte>): seq<Bit>
    requires |data| <= 65535
  {
    Number(|data|, 16) + (Number(65535 - |data|, 16) + Spread(data))
  }

  function TypeOf(b: Piece): nat {
    match b
    case Raw(_) => 0
    case Fixed(_) => 1
    case Dynamic(_, _) => 2
  }

  /** A block whose first bit is at p. */
  function BlockBits(b: Piece, p: nat, last: bool): seq<Bit> {
    [if last then 1 else 0] + (Number(TypeOf(b), 2) + PieceBits(b, p + 3))
  }

  function StreamBits(blocks: seq<Piece>, p: nat): seq<Bit> {
    if blocks == [] then []
    else
      var bits := BlockBits(blocks[0], p, |blocks| == 1);
      bits + StreamBits(blocks[1..], p + |bits|)
  }

  lemma RawRead(src: seq<Byte>, p: nat, data: seq<Byte>, out: seq<Byte>)
    requires |data| <= 65535 && HasBits(src, p, PieceBits(Raw(data), p))
    ensures p + |PieceBits(Raw(data), p)| <= 8 * |src|
    ensures Block(src, p, 0, out) == Next(p + |PieceBits(Raw(data), p)|, out + data)
  {
    hide HasBits, Number, GetBits, Low, Shl, Spread, SizesPart, TablesPart;
    Inside(src, p, PieceBits(Raw(data), p));
    var n := (8 - p % 8) % 8;
    Parts(src, p, Number(0, n), RawBits(data));
    var q := p + n;
    assert Align(p) == q && q % 8 == 0;
    var a, b, c := Number(|data|, 16), Number(65535 - |data|, 16), Spread(data);
    Parts(src, q, a, b + c);
    Parts(src, q + 16, b, c);
    NumberRead(src, q, |data|, 16);
    NumberRead(src, q + 16, 65535 - |data|, 16);
    Widths();
    LowIs(|data|, 16, 65536);
    LowIs(65535 - |data|, 16, 65536);
    assert q + 32 == 8 * (q / 8 + 4);
    SpreadRead(src, q / 8 + 4, data);
  }

  lemma PieceRead(src: seq<Byte>, p: nat, b: Piece, data: seq<Byte>, from: nat, to: nat)
    requires from <= to <= |data| && Holds(b, data, from, to) && HasBits(src, p, PieceBits(b, p))
    ensures p + |PieceBits(b, p)| <= 8 * |src|
    ensures Block(src, p, TypeOf(b), data[..from]) == Next(p + |PieceBits(b, p)|, data[..to])
  {
    hide HasBits, Number, GetBits, Spell, HeaderBits, BodyBits, CodesOk, Acceptable, Symbols, SizesPart, CoversAll, Lists,
      InCode, LensOk;
    Inside(src, p, PieceBits(b, p));
    match b
    case Raw(bytes) =>
      RawRead(src, p, bytes, data[..from]);
      assert data[..from] + data[from..to] == data[..to];
    case Fixed(tokens) =>
      FixedOk();
      FixedCovers(tokens, data, from, to);
      BodyRead(src, p, FixedCodes, tokens, data, from, to);
      CodesAccept(FixedCodes);
    case Dynamic(d, tokens) =>
      Parts(src, p, HeaderBits(d), BodyBits(Given(d.lit, d.dst), tokens));
      HeaderRead(src, p, data[..from], d);
      BodyRead(src, p + |HeaderBits(d)|, Given(d.lit, d.dst), tokens, data, from, to);
  }

  lemma CodesAccept(c: Codes)
    requires CodesOk(c)
    ensures Acceptable(LitLens(c)) && Acceptable(DstLens(c))
  {
  }

  /** The fixed codes have every symbol. */
  lemma {:induction false} FixedCovers(tokens: seq<Token>, data: seq<Byte>, from: nat, to: nat)
    requires to <= |data| && Spell(tokens, data, from, to)
    ensures CoversAll(FixedCodes, tokens)
    decreases |tokens|
  {
    hide Covers, InCode, Repeats;
    assert InCode(FixedLit(), 256) by { FixedLitIs(256); }
    if tokens != [] {
      var t := tokens[0];
      FixedCoversOne(t);
      FixedCovers(tokens[1..], data, from + if t.Literal? then 1 else t.len, to);
      forall i | 0 <= i < |tokens| ensures Covers(FixedCodes, tokens[i]) {
        assert i > 0 ==> tokens[i] == tokens[1..][i - 1];
      }
    }
  }

  lemma FixedCoversOne(t: Token)
    requires t.Match? ==> 3 <= t.len <= 258 && 1 <= t.dist <= 32768
    ensures Covers(FixedCodes, t)
  {
    hide LengthSymbol, DistSymbol, FixedLit, FixedDist, InCode, SymBits, FixedLitBits;
    match t
    case Literal(b) => FixedLitIs(b);
    case Match(len, dist) =>
      LengthIs(len);
      DistIs(dist);
      FixedLitIs(LengthSymbol(len));
      FixedDistIs(DistSymbol(dist));
  }

  lemma StartRead(src: seq<Byte>, p: nat, b: Piece, last: bool)
    requires HasBits(src, p, BlockBits(b, p, last))
    ensures p + 3 <= 8 * |src| && BitAt(src, p) == (if last then 1 else 0) && GetBits(src, p + 1, 2) == TypeOf(b)
    ensures HasBits(src, p + 3, PieceBits(b, p + 3))
  {
    hide BitAt, Number, GetBits, Low, Shl, PieceBits;
    var first: seq<Bit> := [if last then 1 else 0];
    Parts(src, p, first, Number(TypeOf(b), 2) + PieceBits(b, p + 3));
    assert BitAt(src, p + 0) == first[0];
    Parts(src, p + 1, Number(TypeOf(b), 2), PieceBits(b, p + 3));
    NumberRead(src, p + 1, TypeOf(b), 2);
    Widths();
    LowIs(TypeOf(b), 2, 4);
  }

  /** Whatever is written reads back, wherever the stream begins. */
  lemma {:induction false} BlocksRead(src: seq<Byte>, p: nat, blocks: seq<Piece>, data: seq<Byte>, from: nat)
    requires Tell(blocks, data, from) && from <= |data| && HasBits(src, p, StreamBits(blocks, p))
    ensures p + |StreamBits(blocks, p)| <= 8 * |src|
    ensures Blocks(src, p, data[..from]) == Done(data, p + |StreamBits(blocks, p)|)
    decreases |blocks|
  {
    hide HasBits, BitAt, GetBits, Block, Holds, PieceSize, PieceBits, TypeOf;
    var b, last := blocks[0], |blocks| == 1;
    var bits, to := BlockBits(b, p, last), from + PieceSize(b);
    Inside(src, p, StreamBits(blocks, p));
    Parts(src, p, bits, StreamBits(blocks[1..], p + |bits|));
    StartRead(src, p, b, last);
    PieceRead(src, p + 3, b, data, from, to);
    assert |bits| == 3 + |PieceBits(b, p + 3)|;
    if last {
      assert blocks[1..] == [];
      assert data[..to] == data;
    } else {
      BlocksRead(src, p + |bits|, blocks[1..], data, to);
    }
  }

  /** Every stream that is written, by blocks of any kind, in any codes that are
      complete, with matches of every length at every distance, decodes to the
      data it tells. */
  lemma WrittenInflates(blocks: seq<Piece>, data: seq<Byte>)
    requires Tell(blocks, data, 0)
    ensures var bits := StreamBits(blocks, 0); Inflate(Bytes(bits)) == Done(data, |bits|)
  {
    hide HasBits, Tell, StreamBits, Blocks, Bytes;
    Written(StreamBits(blocks, 0));
    BlocksRead(Bytes(StreamBits(blocks, 0)), 0, blocks, data, 0);
    assert data[..0] == [];
  }

  // ---- there is something to write

  lemma {:induction false} SpellExtent(tokens: seq<Token>, data: seq<Byte>, from: nat, to: nat)
    requires to <= |data| && Spell(tokens, data, from, to)
    ensures from + Extent(tokens) == to
    decreases |tokens|
  {
    hide Repeats;
    if tokens != [] {
      SpellExtent(tokens[1..], data, from + if tokens[0].Literal? then 1 else tokens[0].len, to);
    }
  }

  function Literals(data: seq<Byte>): (tokens: seq<Token>)
    ensures |tokens| == |data|
  {
    seq(|data|, i requires 0 <= i < |data| => Literal(data[i]))
  }

  lemma {:induction false} LiteralsSpell(data: seq<Byte>, from: nat)
    requires from <= |data|
    ensures Spell(Literals(data)[from..], data, from, |data|)
    decreases |data| - from
  {
    if from < |data| {
      LiteralsSpell(data, from + 1);
      assert Literals(data)[from..][1..] == Literals(data)[from + 1..];
    }
  }

  /** Codes of its own that a block may have, here with the lengths of the fixed
      ones: they are listed one by one, in a code of four lengths. */
  function Plain(): Header {
    Header(FixedLit(), FixedDist(), [0, 0, 0, 0, 0, 2, 0, 2, 2, 2, 0, 0, 0, 0, 0, 0, 0, 0, 0], 10,
           seq(320, i requires 0 <= i < 320 => Len((FixedLit() + FixedDist())[i])))
  }

  lemma PlainOk()
    ensures HeaderOk(Plain())
  {
    hide Acceptable, FixedLit, FixedDist, Lists, LensOk;
    FixedOk();
    FixedSizes();
    PlainLengths();
    var d := Plain();
    FourLengths(d.cl);
    PlainLists(0);
    assert d.items[0..] == d.items;
  }

  lemma PlainLengths()
    ensures forall i :: 0 <= i < 320 ==> (FixedLit() + FixedDist())[i] in {5, 7, 8, 9}
  {
  }

  lemma FourLengths(cl: seq<nat>)
    requires cl == [0, 0, 0, 0, 0, 2, 0, 2, 2, 2, 0, 0, 0, 0, 0, 0, 0, 0, 0]
    ensures Acceptable(cl)
  {
    hide Acceptable, Shl, CountTo, UsedTo, FirstCode, Count;
    forall l: nat ensures Count(cl, l) == if l == 2 then 4 else if l == 0 then 15 else 0 {
      FourCounts(cl, l);
    }
    NextFirst(cl, 1);
    NextFirst(cl, 2);
    Doubles(cl, 3, 16);
    Widths();
    FourOf();
    assert FirstCode(cl, 3) == 8;
    assert FirstCode(cl, 16) == 65536;
    assert Acceptable(cl) by { Complete(cl); }
  }

  lemma Complete(lens: seq<nat>)
    requires FirstCode(lens, 16) == 65536
    ensures Acceptable(lens)
  {
  }

  lemma FourOf()
    ensures Shl(8, 13) == 65536
  {
    ShlShl(1, 3, 13);
    Widths();
  }

  lemma FourCounts(cl: seq<nat>, l: nat)
    requires cl == [0, 0, 0, 0, 0, 2, 0, 2, 2, 2, 0, 0, 0, 0, 0, 0, 0, 0, 0]
    ensures Count(cl, l) == if l == 2 then 4 else if l == 0 then 15 else 0
  {
    hide CountTo;
    FourTo(cl, 19, l);
  }

  lemma {:induction false} FourTo(cl: seq<nat>, k: nat, l: nat)
    requires cl == [0, 0, 0, 0, 0, 2, 0, 2, 2, 2, 0, 0, 0, 0, 0, 0, 0, 0, 0] && k <= 19
    ensures var n := Clamp(k - 5, 1) + Clamp(k - 7, 3); CountTo(cl, k, l) == if l == 2 then n else if l == 0 then k - n else 0
    decreases k
  {
    if k > 0 {
      FourTo(cl, k - 1, l);
      TwosAt(cl, k - 1);
    }
  }

  lemma TwosAt(cl: seq<nat>, k: nat)
    requires cl == [0, 0, 0, 0, 0, 2, 0, 2, 2, 2, 0, 0, 0, 0, 0, 0, 0, 0, 0] && k < 19
    ensures cl[k] == if k == 5 || 7 <= k < 10 then 2 else 0
  {
  }

  lemma {:induction false} PlainLists(k: nat)
    requires k <= 320
    ensures Lists(Plain().items[k..], FixedLit() + FixedDist(), k)
    decreases 320 - k
  {
    hide FixedLit, FixedDist, All;
    FixedSizes();
    PlainLengths();
    if k < 320 {
      PlainLists(k + 1);
      assert Plain().items[k..][1..] == Plain().items[k + 1..];
    }
  }

  /** Whatever tokens spell the data, they can be written in the fixed codes and in
      codes that come with the block; and some tokens do, for any data. */
  lemma AnyTokensCanBeWritten(tokens: seq<Token>, data: seq<Byte>)
    requires Spell(tokens, data, 0, |data|)
    ensures Tell([Fixed(tokens)], data, 0) && Tell([Dynamic(Plain(), tokens)], data, 0)
    ensures Spell(Literals(data), data, 0, |data|)
  {
    hide Spell, HeaderOk, CoversAll, Plain;
    SpellExtent(tokens, data, 0, |data|);
    PlainOk();
    PlainCovers(tokens, data);
    LiteralsSpell(data, 0);
    assert Literals(data)[0..] == Literals(data);
  }

  lemma PlainCovers(tokens: seq<Token>, data: seq<Byte>)
    requires Spell(tokens, data, 0, |data|)
    ensures CoversAll(Given(Plain().lit, Plain().dst), tokens)
  {
    hide Spell, InCode, FixedLit, FixedDist;
    FixedCovers(tokens, data, 0, |data|);
    forall i | 0 <= i < |tokens| ensures Covers(Given(Plain().lit, Plain().dst), tokens[i]) {
      assert Covers(FixedCodes, tokens[i]);
    }
  }
}
