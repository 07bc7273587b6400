/** The decoder's input side: the call's input cursor and the bit buffer, with
    TINFL_GET_BYTE, TINFL_NEED_BITS, TINFL_GET_BITS, TINFL_HUFF_BITBUF_FILL and
    TINFL_HUFF_DECODE (mk/linux/mojosetup/miniz.h:213-269). */
module BitReader {
  import opened Bits
  import opened Huffman
  import opened HuffTable
  import opened Table
  import opened Rfc1951

  class Reader {
    // the call's input and cursor: pIn_buf_next, pIn_buf_cur, pIn_buf_end
    var input: seq<Byte>
    var cur: nat
    var hasMore: bool
    // m_bit_buf and m_num_bits, and whether the buffer is 64 bits wide or 32
    var bitBuf: nat
    var numBits: nat
    const wideBits: bool
    // the whole stream, and how many of its bytes have been taken
    ghost const src: seq<Byte>
    ghost var taken: nat
    // how many bits of it are to be decoded
    ghost const need: nat

    function Width(): nat { if wideBits then 64 else 32 }

    /** The input is the next piece of the stream, and the last one unless more
        is announced; the bit buffer holds the last numBits bits taken. */
    ghost predicate Valid()
      reads this
    {
      && cur <= |input| && taken <= |src| && need <= 8 * |src|
      && cur <= taken && taken - cur + |input| <= |src|
      && input == src[taken - cur..taken - cur + |input|]
      && (!hasMore ==> taken - cur + |input| == |src|)
      && numBits <= 8 * taken && numBits <= Width()
      && bitBuf == GetBits(src, 8 * taken - numBits, numBits)
    }

    /** The position in the stream of the next bit to decode. */
    ghost function P(): int
      reads this
    {
      8 * taken - numBits
    }

    lemma InRange()
      requires Valid()
      ensures 0 <= P() <= 8 * |src|
    {
    }

    /** At most a buffer of bits is taken ahead of what is decoded. */
    lemma Ahead()
      requires Valid()
      ensures P() <= 8 * taken <= P() + 64
    {
    }

    lemma BitsAligned()
      requires Valid() && P() % 8 == 0
      ensures numBits % 8 == 0
    {
    }

    lemma BytesLeft(i: nat)
      requires Valid() && numBits == 0 && P() == 8 * i && i < |src|
      ensures taken == i
    {
    }

    /** Input that runs out while the stream goes on: more was announced. */
    lemma OutOfInput()
      requires Valid() && cur >= |input| && numBits == 0 && P() + 8 <= need
      ensures Starved()
    {
    }

    /** Nothing more can be decoded in this call: what has been taken is not all
        there is to decode. */
    ghost predicate Starved()
      reads this
    {
      hasMore && cur == |input| && 8 * taken < need
    }

    constructor (ghost src: seq<Byte>, ghost need: nat, wideBits: bool)
      requires need <= 8 * |src|
      ensures Valid() && taken == 0 && numBits == 0 && this.src == src && this.need == need && cur == 0 && input == []
    {
      input, cur, hasMore, bitBuf, numBits, this.wideBits := [], 0, true, 0, 0, wideBits;
      this.src, this.need, taken := src, need, 0;
    }

    /** A new call with the next piece of input. */
    method Begin(input: seq<Byte>, hasMore: bool)
      requires Valid() && taken + |input| <= |src| && input == src[taken..taken + |input|]
      requires !hasMore ==> taken + |input| == |src|
      modifies this
      ensures Valid() && P() == old(P()) && taken == old(taken) && this.input == input && this.hasMore == hasMore && cur == 0
      ensures numBits == old(numBits)
    {
      this.input, cur, this.hasMore := input, 0, hasMore;
    }

    /** TINFL_GET_BYTE followed by adding the byte to the bit buffer. With no
        input left and none announced the source supplies zeros; that does not
        happen while the stream is not exhausted. */
    method FetchByte() returns (ok: bool)
      requires Valid() && numBits + 8 <= Width() && (cur < |input| || 8 * taken < need)
      modifies this
      ensures Valid() && P() == old(P()) && input == old(input) && hasMore == old(hasMore)
      ensures taken - cur == old(taken - cur)
      ensures ok ==> numBits == old(numBits) + 8 && taken == old(taken) + 1
      ensures !ok ==> Starved() && numBits == old(numBits)
    {
      if cur >= |input| {
        return false;
      }
      AddByte(src, P(), numBits);
      assert input[cur] == src[taken];
      bitBuf := bitBuf + Shl(input[cur], numBits);
      cur, numBits, taken := cur + 1, numBits + 8, taken + 1;
      ok := true;
    }

    /** TINFL_GET_BYTE on its own, when no bits are buffered. */
    method TakeByte() returns (ok: bool, b: Byte)
      requires Valid() && numBits == 0 && (cur < |input| || 8 * taken < need)
      modifies this`cur, this`taken, this`bitBuf
      ensures Valid() && taken - cur == old(taken - cur)
      ensures ok ==> P() == old(P()) + 8 && b == src[old(P()) / 8] && cur == old(cur) + 1
      ensures !ok ==> Starved() && P() == old(P())
      ensures ok == (old(cur) < |input|)
    {
      b := 0;
      if cur >= |input| {
        return false, b;
      }
      assert input[cur] == src[taken];
      b := input[cur];
      cur, taken := cur + 1, taken + 1;
      bitBuf := 0;
      ok := true;
    }

    /** Enough bytes for n bits. */
    method NeedBits(n: nat) returns (ok: bool)
      requires Valid() && n <= 16 && P() + n <= need
      modifies this
      ensures Valid() && P() == old(P()) && input == old(input) && hasMore == old(hasMore)
      ensures taken - cur == old(taken - cur)
      ensures ok ==> n <= numBits
      ensures !ok ==> Starved() && numBits < n
      ensures old(numBits) >= n ==> ok && numBits == old(numBits)
    {
      ok := true;
      while ok && numBits < n
        invariant Valid() && P() == old(P()) && input == old(input) && hasMore == old(hasMore)
        invariant taken - cur == old(taken - cur)
        invariant !ok ==> Starved() && numBits < n
        invariant old(numBits) >= n ==> ok && numBits == old(numBits)
        decreases ok, n - numBits
      {
        ok := FetchByte();
      }
    }

    /** bit_buf >>= n */
    method Drop(n: nat)
      requires Valid() && n <= numBits
      modifies this`bitBuf, this`numBits
      ensures Valid() && P() == old(P()) + n
    {
      hide GetBits, Shr, Low;
      TakeBits(src, P(), numBits, n);
      bitBuf, numBits := Shr(bitBuf, n), numBits - n;
    }

    /** TINFL_SKIP_BITS for num_bits & 7: on to a byte boundary. */
    method SkipToByte()
      requires Valid()
      modifies this`bitBuf, this`numBits
      ensures Valid() && P() == Align(old(P())) && numBits % 8 == 0
    {
      AlignIs(taken, numBits);
      Drop(numBits % 8);
    }

    /** One whole byte at a byte boundary: from the bit buffer if it has bits,
        else from the input. */
    method NextByte() returns (ok: bool, b: Byte)
      requires Valid() && numBits % 8 == 0 && P() + 8 <= need
      modifies this
      ensures Valid() && input == old(input) && hasMore == old(hasMore)
      ensures taken - cur == old(taken - cur) && numBits % 8 == 0
      ensures ok ==> b == src[old(P()) / 8] && P() == old(P()) + 8
      ensures !ok ==> Starved() && P() == old(P())
      ensures old(numBits) > 0 ==> ok
    {
      hide GetBits, BitAt;
      if numBits > 0 {
        var v;
        ByteAhead();
        EightOff(numBits);
        ok, v := Get(8);
        b := v;
      } else {
        ok, b := TakeByte();
      }
    }

    lemma ByteAhead()
      requires Valid() && numBits % 8 == 0 && P() + 8 <= 8 * |src|
      ensures GetBits(src, P(), 8) == src[P() / 8]
      ensures numBits > 0 ==> numBits >= 8
    {
      GetByte(src, P());
    }

    /** TINFL_GET_BITS */
    method Get(n: nat) returns (ok: bool, v: nat)
      requires Valid() && n <= 16 && P() + n <= need
      modifies this
      ensures Valid() && input == old(input) && hasMore == old(hasMore)
      ensures taken - cur == old(taken - cur)
      ensures ok ==> v == GetBits(src, old(P()), n) && P() == old(P()) + n
      ensures !ok ==> Starved() && P() == old(P()) && numBits < n
      ensures old(numBits) >= n ==> ok && numBits == old(numBits) - n
    {
      hide GetBits, BitAt, Low, Shr;
      v := 0;
      ok := NeedBits(n);
      if ok {
        TakeBits(src, P(), numBits, n);
        v := Low(bitBuf, n);
        Drop(n);
      }
    }

    /** A negative lookup entry found with more than ten bits refers to the
        first node of a long code. */
    lemma RootOnPath(t: HuffmanTable, i: nat, lens: seq<nat>, s: nat)
      requires Valid() && t.Valid() && t.Decodes(lens) && StreamHas(src, P(), lens, s)
      requires LOOKUP_BITS < numBits && i == Low(bitBuf, LOOKUP_BITS) && i < LOOKUP_SIZE && t.lookUp[i] < 0
      ensures LOOKUP_BITS < lens[s] && OnPath(t, t.lookUp[i], LOOKUP_BITS, lens, s)
    {
      assert LookEntry(lens, |lens|, t.nodes, i, t.lookUp[..][i]);
      NegativeIsLong(src, P(), numBits, lens, s, t.nodes, i, t.lookUp[i]);
      LookRefers(src, P(), numBits, lens, s, t.nodes, i, t.lookUp[i]);
    }

    /** Follows the overflow tree with the bits that are present (line 246-248);
        value is a symbol if it was reached, else negative. */
    method WalkPresent(t: HuffmanTable, start: int, ghost lens: seq<nat>, ghost s: nat) returns (value: int)
      requires Valid() && t.Valid() && t.Decodes(lens) && StreamHas(src, P(), lens, s)
      requires LOOKUP_BITS < numBits && LOOKUP_BITS < lens[s] && OnPath(t, start, LOOKUP_BITS, lens, s)
      ensures value >= 0 <==> lens[s] <= numBits
    {
      var temp, codeLen := start, LOOKUP_BITS;
      while true
        invariant LOOKUP_BITS <= codeLen < numBits && codeLen < lens[s]
        invariant OnPath(t, temp, codeLen, lens, s)
        decreases numBits - codeLen
      {
        temp := Step(t, temp, codeLen, lens, s);
        codeLen := codeLen + 1;
        if !(temp < 0 && numBits >= codeLen + 1) {
          return temp;
        }
      }
    }

    /** temp refers to the node that the first d bits of the stream lead to. */
    ghost predicate OnPath(t: HuffmanTable, temp: int, d: nat, lens: seq<nat>, s: nat)
      requires Valid()
      reads this, t
    {
      P() + d <= 8 * |src| && (d, GetCode(src, P(), d)) in t.nodes && temp == Ref(t.nodes[(d, GetCode(src, P(), d))])
    }

    /** One step down the overflow tree. */
    method Step(t: HuffmanTable, temp: int, codeLen: nat, ghost lens: seq<nat>, ghost s: nat) returns (v: int)
      requires Valid() && t.Valid() && t.Decodes(lens) && StreamHas(src, P(), lens, s)
      requires LOOKUP_BITS <= codeLen < numBits && OnPath(t, temp, codeLen, lens, s)
      ensures v >= 0 <==> lens[s] == codeLen + 1
      ensures v >= 0 ==> v == s
      ensures v < 0 ==> codeLen + 1 < lens[s] && OnPath(t, v, codeLen + 1, lens, s)
    {
      hide GetBits, GetCode, CodeOk, LookOk, PathsIn, NodesOk, TreeEntry, StreamHas, Shr;
      TreeStep(src, P(), numBits, lens, s, t.nodes, t.tree[..], codeLen);
      v := t.tree[-temp - 1 + WordBit(bitBuf, codeLen)];
    }

    lemma Verdict(t: HuffmanTable, lens: seq<nat>, s: nat)
      requires Valid() && t.Valid() && t.Decodes(lens) && StreamHas(src, P(), lens, s)
      ensures s < 288 && Low(bitBuf, LOOKUP_BITS) < LOOKUP_SIZE
      ensures var v := t.lookUp[Low(bitBuf, LOOKUP_BITS)];
        if v >= 0 then
          && (v / 512 > 0 && v / 512 <= numBits <==> lens[s] <= numBits)
          && (lens[s] <= numBits ==> v / 512 == lens[s] && v % 512 == s)
        else lens[s] <= numBits ==> numBits > LOOKUP_BITS
    {
      LowBound(bitBuf);
      LookVerdict(src, P(), numBits, lens, s, t.nodes, t.lookUp[..], Low(bitBuf, LOOKUP_BITS));
    }

    /** One round of TINFL_HUFF_BITBUF_FILL: do the bits at hand decode a symbol? */
    method TryDecode(t: HuffmanTable, ghost lens: seq<nat>, ghost s: nat) returns (found: bool)
      requires Valid() && t.Valid() && t.Decodes(lens) && StreamHas(src, P(), lens, s)
      ensures found <==> lens[s] <= numBits
    {
      Verdict(t, lens, s);
      var i := Low(bitBuf, LOOKUP_BITS);
      var temp := t.lookUp[i];
      if temp >= 0 {
        var codeLen := temp / 512;
        found := codeLen > 0 && numBits >= codeLen;
      } else if numBits > LOOKUP_BITS {
        RootOnPath(t, i, lens, s);
        var v := WalkPresent(t, temp, lens, s);
        found := v >= 0;
      } else {
        found := false;
      }
    }

    /** TINFL_HUFF_BITBUF_FILL: reads no byte that the next symbol does not
        need. After a suspension it starts with the missing byte. */
    method Fill(t: HuffmanTable, resumed: bool, ghost lens: seq<nat>, ghost s: nat) returns (ok: bool)
      requires Valid() && t.Valid() && t.Decodes(lens) && StreamHas(src, P(), lens, s)
      requires numBits < 15 && (resumed ==> numBits < lens[s]) && P() + lens[s] <= need
      modifies this
      ensures Valid() && P() == old(P()) && input == old(input) && hasMore == old(hasMore)
      ensures taken - cur == old(taken - cur)
      ensures ok ==> lens[s] <= numBits
      ensures !ok ==> Starved() && numBits < lens[s] && numBits < 15
    {
      var again := resumed;
      while true
        invariant Valid() && P() == old(P()) && input == old(input) && hasMore == old(hasMore)
        invariant taken - cur == old(taken - cur)
        invariant numBits < 15 && (again ==> numBits < lens[s])
        decreases 15 - numBits
      {
        if !again {
          var found := TryDecode(t, lens, s);
          if found {
            return true;
          }
        }
        again := false;
        ok := FetchByte();
        if !ok {
          return;
        }
        if numBits >= 15 {
          return true;
        }
      }
    }

    /** Enough bits for the next symbol: the slow fill when fewer than two bytes
        are left, else two bytes at once. */
    method FillForSymbol(t: HuffmanTable, resumed: bool, ghost lens: seq<nat>, ghost s: nat) returns (ok: bool)
      requires Valid() && t.Valid() && t.Decodes(lens) && StreamHas(src, P(), lens, s)
      requires (resumed ==> numBits < lens[s] && numBits < 15) && P() + lens[s] <= need
      modifies this
      ensures Valid() && P() == old(P()) && input == old(input) && hasMore == old(hasMore)
      ensures taken - cur == old(taken - cur)
      ensures ok ==> lens[s] <= numBits
      ensures !ok ==> Starved() && numBits < lens[s] && numBits < 15
    {
      ok := true;
      if numBits < 15 {
        if resumed || |input| - cur < 2 {
          ok := Fill(t, resumed, lens, s);
        } else {
          ok := FetchByte();
          ok := FetchByte();
        }
      }
    }

    /** The symbol the bits at hand start with, as the table gives it: in its
        low nine bits. */
    method TakeSymbol(t: HuffmanTable, ghost lens: seq<nat>, ghost s: nat) returns (raw: nat)
      requires Valid() && t.Valid() && t.Decodes(lens) && StreamHas(src, P(), lens, s) && lens[s] <= numBits
      modifies this`bitBuf, this`numBits
      ensures Valid() && P() == old(P()) + lens[s] && raw % 512 == s && s < 288
    {
      var codeLen;
      raw, codeLen := Peek(t, lens, s);
      Drop(codeLen);
    }

    method Peek(t: HuffmanTable, ghost lens: seq<nat>, ghost s: nat) returns (raw: nat, codeLen: nat)
      requires Valid() && t.Valid() && t.Decodes(lens) && StreamHas(src, P(), lens, s) && lens[s] <= numBits
      ensures raw % 512 == s && s < 288 && codeLen == lens[s]
    {
      hide HuffmanTable.Decodes, Reader.Valid;
      Verdict(t, lens, s);
      var i := Low(bitBuf, LOOKUP_BITS);
      var temp := t.lookUp[i];
      if temp >= 0 {
        return temp, temp / 512;
      }
      RootOnPath(t, i, lens, s);
      raw, codeLen := Walk(t, temp, lens, s);
    }

    /** Follows the overflow tree down to the symbol. */
    method Walk(t: HuffmanTable, start: int, ghost lens: seq<nat>, ghost s: nat) returns (sym: int, codeLen: nat)
      requires Valid() && t.Valid() && t.Decodes(lens) && StreamHas(src, P(), lens, s)
      requires LOOKUP_BITS < lens[s] <= numBits && OnPath(t, start, LOOKUP_BITS, lens, s)
      ensures sym == s && codeLen == lens[s]
    {
      sym, codeLen := start, LOOKUP_BITS;
      while true
        invariant LOOKUP_BITS <= codeLen < lens[s] && OnPath(t, sym, codeLen, lens, s)
        decreases lens[s] - codeLen
      {
        sym := Step(t, sym, codeLen, lens, s);
        codeLen := codeLen + 1;
        if sym >= 0 {
          return;
        }
      }
    }

    /** TINFL_HUFF_DECODE */
    method HuffDecode(t: HuffmanTable, resumed: bool, ghost lens: seq<nat>, ghost s: nat) returns (ok: bool, sym: nat)
      requires Valid() && t.Valid() && t.Decodes(lens) && StreamHas(src, P(), lens, s)
      requires (resumed ==> numBits < lens[s] && numBits < 15) && P() + lens[s] <= need
      modifies this
      ensures Valid() && input == old(input) && hasMore == old(hasMore)
      ensures taken - cur == old(taken - cur)
      ensures ok ==> sym == s && P() == old(P()) + lens[s]
      ensures !ok ==> Starved() && P() == old(P()) && numBits < lens[s] && numBits < 15
    {
      sym := 0;
      ok := FillForSymbol(t, resumed, lens, s);
      if ok {
        var raw := TakeSymbol(t, lens, s);
        sym := raw % 512;
      }
    }

    /** A suspended symbol decode lacks bits of the next code. */
    ghost predicate Lacks(lens: seq<nat>)
      reads this
    {
      Valid() && HasSym(src, P(), lens) && numBits < 15 && numBits < lens[Sym(src, P(), lens)]
    }

    /** TINFL_HUFF_DECODE for the symbol that the reference decoder sees. */
    method NextSym(t: HuffmanTable, resumed: bool, ghost lens: seq<nat>) returns (ok: bool, sym: nat)
      requires Valid() && t.Valid() && t.Decodes(lens) && HasSym(src, P(), lens)
      requires (resumed ==> Lacks(lens)) && P() + lens[Sym(src, P(), lens)] <= need
      modifies this
      ensures Valid() && input == old(input) && hasMore == old(hasMore)
      ensures taken - cur == old(taken - cur)
      ensures ok ==> sym == Sym(src, old(P()), lens) && sym < |lens| && P() == old(P()) + lens[sym] && P() > old(P())
      ensures !ok ==> Starved() && P() == old(P()) && Lacks(lens)
    {
      hide HuffmanTable.Decodes, GetBits, GetCode;
      ok, sym := HuffDecode(t, resumed, lens, Sym(src, P(), lens));
    }

    /** MZ_READ_LE32 or MZ_READ_LE16 added to the bit buffer: k bytes at once. */
    method FetchMany(k: nat)
      requires Valid() && k <= |input| - cur && numBits + 8 * k <= Width()
      modifies this
      ensures Valid() && P() == old(P()) && input == old(input) && hasMore == old(hasMore)
      ensures taken - cur == old(taken - cur) && cur == old(cur) + k && numBits == old(numBits) + 8 * k
    {
      hide GetBits;
      for i := 0 to k
        invariant Valid() && P() == old(P()) && input == old(input) && hasMore == old(hasMore)
        invariant taken - cur == old(taken - cur) && cur == old(cur) + i && numBits == old(numBits) + 8 * i
      {
        var ok := FetchByte();
      }
    }

    /** The next symbol in the unrolled loop: enough bits first, then the table. */
    method NextSymFast(t: HuffmanTable, least: nat, k: nat, ghost lens: seq<nat>) returns (raw: nat)
      requires Valid() && t.Valid() && t.Decodes(lens) && HasSym(src, P(), lens)
      requires 15 <= least <= 30 && least - 1 + 8 * k <= Width()
      requires numBits < least ==> k <= |input| - cur && least <= 8 * k
      modifies this
      ensures Valid() && input == old(input) && hasMore == old(hasMore)
      ensures taken - cur == old(taken - cur) && numBits >= least - 15 && cur <= old(cur) + k
      ensures var s := Sym(src, old(P()), lens);
        raw % 512 == s && s < 288 && P() == old(P()) + lens[s] && P() > old(P())
    {
      hide GetBits, GetCode;
      if numBits < least {
        FetchMany(k);
      }
      CodeIsShort(t, lens, Sym(src, P(), lens));
      raw := TakeSymbol(t, lens, Sym(src, P(), lens));
    }

    lemma CodeIsShort(t: HuffmanTable, lens: seq<nat>, s: nat)
      requires t.Decodes(lens) && s < |lens|
      ensures lens[s] <= 15
    {
    }
  }

  /** The next byte boundary, when n of the bits of t bytes are left. */
  lemma AlignIs(t: nat, n: nat)
    requires n <= 8 * t
    ensures Align(8 * t - n) == 8 * t - n + n % 8 && (n - n % 8) % 8 == 0
  {
    var p := 8 * t - n;
    assert p == 8 * (t - n / 8) - n % 8;
    assert (p + 7) / 8 == t - n / 8;
  }

  lemma EightOff(n: nat)
    ensures n % 8 == 0 && n > 0 ==> n >= 8 && (n - 8) % 8 == 0
  {
  }

  lemma LeafParts(l: nat, s: nat)
    requires s < 512
    ensures Leaf(l, s) / 512 == l && Leaf(l, s) % 512 == s
  {
  }

  /** What a lookup entry says about the next symbol. */
  lemma LookVerdict(src: seq<Byte>, p: nat, nb: nat, lens: seq<nat>, s: nat, nodes: Nodes, look: seq<Int16>, i: nat)
    requires At(src, p, nb, lens, s) && NodesOk(lens, |lens|, nodes) && PathsIn(lens, |lens|, nodes)
    requires LookOk(lens, |lens|, nodes, look) && i == Low(GetBits(src, p, nb), LOOKUP_BITS) && i < LOOKUP_SIZE
    ensures s < |lens| <= 288
    ensures look[i] >= 0 ==> (look[i] / 512 > 0 && look[i] / 512 <= nb <==> lens[s] <= nb)
    ensures look[i] >= 0 && lens[s] <= nb ==> look[i] / 512 == lens[s] && look[i] % 512 == s
    ensures look[i] < 0 && lens[s] <= nb ==> nb > LOOKUP_BITS
  {
    var v := look[i];
    assert LookEntry(lens, |lens|, nodes, i, v);
    if lens[s] <= nb {
      if lens[s] <= LOOKUP_BITS {
        LookFinds(src, p, nb, lens, s, nodes, i, v);
        LeafParts(lens[s], s);
      } else {
        LookRefers(src, p, nb, lens, s, nodes, i, v);
      }
    } else if v > 0 && v / 512 <= nb {
      LookSound(src, p, nb, lens, s, nodes, i, v);
    }
  }

  /** With more than ten bits a negative entry means a long code. */
  lemma NegativeIsLong(src: seq<Byte>, p: nat, nb: nat, lens: seq<nat>, s: nat, nodes: Nodes, i: nat, v: int)
    requires At(src, p, nb, lens, s) && LOOKUP_BITS < nb && NodesOk(lens, |lens|, nodes)
    requires i == Low(GetBits(src, p, nb), LOOKUP_BITS) && LookEntry(lens, |lens|, nodes, i, v) && v < 0
    ensures LOOKUP_BITS < lens[s]
  {
    if lens[s] <= LOOKUP_BITS {
      LookFinds(src, p, nb, lens, s, nodes, i, v);
    }
  }
}
