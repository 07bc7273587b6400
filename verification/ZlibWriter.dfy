/** The zlib wrapper around what StreamWriter writes (section 2.2 of RFC 1950), and
    streams that are refused. */
module ZlibWriter {
  import opened Bits
  import opened BitWriter
  import opened Rfc1951
  import opened Rfc1950
  import opened DeflateWriter
  import opened StreamWriter

  // ---- the checksum as a sum over all bytes

  function Total(data: seq<Byte>): nat {
    if data == [] then 0 else data[0] + Total(data[1..])
  }

  /** The first byte counts as often as there are bytes, the last one once. */
  function Weighted(data: seq<Byte>): nat {
    if data == [] then 0 else |data| * data[0] + Weighted(data[1..])
  }

  lemma {:induction false} TotalMore(data: seq<Byte>, x: Byte)
    ensures Total(data + [x]) == Total(data) + x
    ensures Weighted(data + [x]) == Weighted(data) + Total(data) + x
    decreases |data|
  {
    var more := data + [x];
    if data == [] {
      assert more == [x] && more[1..] == [];
    } else {
      assert more[1..] == data[1..] + [x];
      TotalMore(data[1..], x);
      assert |more| * data[0] == |data| * data[0] + data[0];
    }
  }

  /** The two sums of section 8.2, all bytes at a time. */
  lemma {:induction false} SumsAre(data: seq<Byte>)
    ensures Sum1(data) == (1 + Total(data)) % 65521
    ensures Sum2(data) == (|data| + Weighted(data)) % 65521
    decreases |data|
  {
    hide Total, Weighted;
    if data != [] {
      var d, x := data[..|data| - 1], data[|data| - 1];
      assert data == d + [x];
      SumsAre(d);
      TotalMore(d, x);
      SumMore(Total(d), |d| + Weighted(d), x);
    } else {
      NoSum();
    }
  }

  lemma NoSum()
    ensures Sum1([]) == 1 && Sum2([]) == 0 && Total([]) == 0 && Weighted([]) == 0
  {
  }

  lemma SumMore(a: nat, b: nat, x: nat)
    ensures ((1 + a) % 65521 + x) % 65521 == (1 + (a + x)) % 65521
    ensures (b % 65521 + (1 + (a + x)) % 65521) % 65521 == (b + 1 + a + x) % 65521
  {
    ModPlus(1 + a, x);
    ModPlus2(b, 1 + (a + x));
  }

  lemma ModPlus(a: nat, x: nat)
    ensures (a % 65521 + x) % 65521 == (a + x) % 65521
  {
  }

  lemma ModPlus2(a: nat, b: nat)
    ensures (a % 65521 + b % 65521) % 65521 == (a + b) % 65521
  {
    ModPlus(a, b % 65521);
    ModPlus(b, a);
  }

  /** The checksum, most significant byte first. */
  function ChecksumBytes(data: seq<Byte>): (s: seq<Byte>)
    ensures |s| == 4
  {
    var a, b := (1 + Total(data)) % 65521, (|data| + Weighted(data)) % 65521;
    [b / 256, b % 256, a / 256, a % 256]
  }

  lemma ChecksumIs(data: seq<Byte>, src: seq<Byte>, i: nat)
    requires i + 4 <= |src| && src[i..i + 4] == ChecksumBytes(data)
    ensures BigEndian(src, i) == Adler32(data)
  {
    hide Total, Weighted, Sum1, Sum2;
    SumsAre(data);
    var c := ChecksumBytes(data);
    assert src[i] == src[i..i + 4][0] && src[i + 1] == src[i..i + 4][1] && src[i + 2] == src[i..i + 4][2] && src[i + 3] == src[i..i + 4][3];
    var a, b := (1 + Total(data)) % 65521, (|data| + Weighted(data)) % 65521;
    assert b / 256 * 256 + b % 256 == b && a / 256 * 256 + a % 256 == a;
  }

  // ---- the header

  /** Method 8 and a window of 2^bits bytes. */
  function Cmf(bits: nat): Byte
    requires 8 <= bits <= 15
  {
    8 + 16 * (bits - 8)
  }

  /** The level, no dictionary, and check bits that make the two bytes a multiple
      of 31. */
  function Flg(bits: nat, level: nat): Byte
    requires 8 <= bits <= 15 && level < 4
  {
    64 * level + (31 - (256 * Cmf(bits) + 64 * level) % 31) % 31
  }

  function Wrap(bits: nat, level: nat, blocks: seq<Piece>, data: seq<Byte>): seq<Byte>
    requires 8 <= bits <= 15 && level < 4
  {
    [Cmf(bits), Flg(bits, level)] + Bytes(StreamBits(blocks, 16)) + ChecksumBytes(data)
  }

  lemma HeaderIs(bits: nat, level: nat, limit: nat)
    requires 8 <= bits <= 15 && level < 4
    ensures Rfc1950.HeaderOk(Cmf(bits), Flg(bits, level), limit) <==> Shl(1, bits) <= limit
  {
    hide Shl, Cmf, Flg;
    CheckBits(bits, level);
  }

  lemma CheckBits(bits: nat, level: nat)
    requires 8 <= bits <= 15 && level < 4
    ensures (Cmf(bits) * 256 + Flg(bits, level)) % 31 == 0
    ensures Flg(bits, level) / 32 % 2 == 0 && Cmf(bits) % 16 == 8 && Cmf(bits) / 16 == bits - 8
  {
    hide Cmf;
    var m := 256 * Cmf(bits) + 64 * level;
    Complement(m);
    Parts16(bits - 8);
    CmfIs(bits);
    Parts32(level, (31 - m % 31) % 31);
  }

  lemma CmfIs(bits: nat)
    requires 8 <= bits <= 15
    ensures Cmf(bits) == 8 + 16 * (bits - 8)
  {
  }

  lemma Parts16(w: nat)
    ensures (8 + 16 * w) % 16 == 8 && (8 + 16 * w) / 16 == w
  {
  }

  lemma Parts32(level: nat, r: nat)
    requires r < 31
    ensures (64 * level + r) / 32 % 2 == 0
  {
    assert (64 * level + r) / 32 == 2 * level;
  }

  lemma Complement(m: nat)
    ensures (m + (31 - m % 31) % 31) % 31 == 0
  {
  }

  /** Written bytes hold their bits wherever they stand. */
  lemma WrittenWithin(src: seq<Byte>, q: nat, bits: seq<Bit>)
    requires q + |Bytes(bits)| <= |src| && src[q..q + |Bytes(bits)|] == Bytes(bits)
    ensures HasBits(src, 8 * q, bits)
  {
    hide WordBit, Bytes;
    Written(bits);
    var b := Bytes(bits);
    forall k | 0 <= k < |bits| ensures BitAt(src, 8 * q + k) == bits[k] {
      assert BitAt(b, 0 + k) == bits[k];
      assert (8 * q + k) / 8 == q + k / 8 && (8 * q + k) % 8 == k % 8;
      assert src[q..q + |b|][k / 8] == src[q + k / 8];
    }
  }

  /** A wrapped stream decodes, checksum and all, exactly when its window fits. */
  lemma WrappedInflates(bits: nat, level: nat, blocks: seq<Piece>, data: seq<Byte>, limit: nat)
    requires 8 <= bits <= 15 && level < 4 && Tell(blocks, data, 0)
    ensures var src := Wrap(bits, level, blocks, data);
      Whole(src, true, limit) == if Shl(1, bits) <= limit then Done(data, 8 * |src|) else Rejected([])
  {
    hide HasBits, StreamBits, Bytes, Blocks, Tell, ChecksumBytes, BigEndian, Adler32, Shl, Flg, Cmf, Rfc1950.HeaderOk;
    var src, inner := Wrap(bits, level, blocks, data), Bytes(StreamBits(blocks, 16));
    var n := |StreamBits(blocks, 16)|;
    HeaderIs(bits, level, limit);
    assert src[0] == Cmf(bits) && src[1] == Flg(bits, level);
    assert src[2..2 + |inner|] == inner;
    WrittenWithin(src, 2, StreamBits(blocks, 16));
    BlocksRead(src, 16, blocks, data, 0);
    assert data[..0] == [];
    assert Align(16 + n) == 8 * (2 + |inner|);
    assert src[2 + |inner|..2 + |inner| + 4] == ChecksumBytes(data);
    ChecksumIs(data, src, 2 + |inner|);
  }

  /** A wrong checksum is noticed. */
  lemma WrongChecksum(bits: nat, level: nat, blocks: seq<Piece>, data: seq<Byte>, limit: nat, sum: seq<Byte>)
    requires 8 <= bits <= 15 && level < 4 && Tell(blocks, data, 0) && Shl(1, bits) <= limit
    requires |sum| == 4 && sum != ChecksumBytes(data)
    ensures var src := [Cmf(bits), Flg(bits, level)] + Bytes(StreamBits(blocks, 16)) + sum;
      Whole(src, true, limit) == Mismatch(data, 8 * |src|)
  {
    hide HasBits, StreamBits, Bytes, Blocks, Tell, ChecksumBytes, BigEndian, Adler32, Shl, Flg, Cmf, Rfc1950.HeaderOk;
    var inner := Bytes(StreamBits(blocks, 16));
    var src := [Cmf(bits), Flg(bits, level)] + inner + sum;
    var n := |StreamBits(blocks, 16)|;
    HeaderIs(bits, level, limit);
    assert src[0] == Cmf(bits) && src[1] == Flg(bits, level);
    assert src[2..2 + |inner|] == inner;
    WrittenWithin(src, 2, StreamBits(blocks, 16));
    BlocksRead(src, 16, blocks, data, 0);
    assert data[..0] == [];
    assert Align(16 + n) == 8 * (2 + |inner|);
    assert src[2 + |inner|..2 + |inner| + 4] == sum;
    var c := ChecksumBytes(data);
    ChecksumIs(data, c, 0);
    assert c[0..4] == c;
    OtherBytes(src, 2 + |inner|, sum, c);
  }

  lemma OtherBytes(src: seq<Byte>, i: nat, a: seq<Byte>, b: seq<Byte>)
    requires |a| == |b| == 4 && a != b && i + 4 <= |src| && src[i..i + 4] == a
    ensures BigEndian(src, i) != BigEndian(b, 0)
  {
    assert src[i] == a[0] && src[i + 1] == a[1] && src[i + 2] == a[2] && src[i + 3] == a[3];
    assert !(a[0] == b[0] && a[1] == b[1] && a[2] == b[2] && a[3] == b[3]);
  }

  // ---- streams that are refused

  /** Blocks of the fourth type. */
  lemma FourthType(src: seq<Byte>, last: Bit)
    requires HasBits(src, 0, [last] + Number(3, 2))
    ensures Inflate(src) == Rejected([])
  {
    hide BitAt, Number, GetBits, Low;
    Parts(src, 0, [last], Number(3, 2));
    NumberRead(src, 1, 3, 2);
    ThreeIs();
  }

  lemma ThreeIs()
    ensures Low(3, 2) == 3
  {
  }

  /** Stored bytes whose number does not agree with its complement. */
  lemma WrongLength(src: seq<Byte>, last: Bit, len: nat, nlen: nat)
    requires len < 65536 && nlen < 65536
    requires HasBits(src, 0, [last] + (Number(0, 7) + (Number(len, 16) + Number(nlen, 16))))
    ensures nlen != 65535 - len ==> Inflate(src) == Rejected([])
  {
    hide BitAt, Number, GetBits, Low, Shl;
    Parts(src, 0, [last], Number(0, 7) + (Number(len, 16) + Number(nlen, 16)));
    Parts(src, 1, Number(0, 7), Number(len, 16) + Number(nlen, 16));
    Parts(src, 8, Number(len, 16), Number(nlen, 16));
    NumberRead(src, 1, 0, 7);
    TakeBits(src, 1, 7, 2);
    LowOfNone();
    NumberRead(src, 8, len, 16);
    NumberRead(src, 24, nlen, 16);
    Widths();
    LowIs(len, 16, 65536);
    LowIs(nlen, 16, 65536);
  }

  lemma LowOfNone()
    ensures Low(0, 7) == 0 && Low(0, 2) == 0
  {
  }
}
