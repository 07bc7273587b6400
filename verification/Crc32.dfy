/** CRC-32 (mk/linux/mojosetup/checksum_crc32.c), against the bit-serial register
    of section 8 of RFC 1952. */
module Crc32 {
  const POLY: bv32 := 0xEDB88320

  /** The register with one more zero bit fed. */
  function Shift(r: bv32): bv32 {
    if r & 1 == 1 then POLY ^ (r >> 1) else r >> 1
  }

  /** The lowest n bits of w fed one by one, the least significant first: each
      meets the register's lowest bit. */
  function FeedBits(r: bv32, w: bv32, n: nat): bv32
    decreases n
  {
    if n == 0 then r else FeedBits(Shift(Xor(w & 1, r)), Half(w), n - 1)
  }

  function Half(w: bv32): bv32 { w >> 1 }

  function FeedByte(r: bv32, b: bv8): bv32 {
    FeedBits(r, b as bv32, 8)
  }

  function Feed(r: bv32, m: seq<bv8>): bv32 {
    if m == [] then r else FeedByte(Feed(r, m[..|m| - 1]), m[|m| - 1])
  }

  function Crc(m: seq<bv8>): bv32 {
    Xor(Feed(0xFFFFFFFF, m), 0xFFFFFFFF)
  }

  /** The register with k zero bits fed. */
  function Shifts(r: bv32, k: nat): bv32 {
    if k == 0 then r else Shift(Shifts(r, k - 1))
  }

  /** A word moved up k places, and whether it can be without loss. */
  function Up(c: bv32, k: nat): bv32
    decreases k
  {
    if k == 0 then c else Up(Double(c), k - 1)
  }

  function Double(c: bv32): bv32 { c << 1 }

  function Xor(a: bv32, b: bv32): bv32 { a ^ b }

  predicate Small(c: bv32) { c & 0x80000000 == 0 }

  predicate Fits(c: bv32, k: nat)
    decreases k
  {
    k == 0 || (Small(c) && Fits(Double(c), k - 1))
  }

  lemma XorShifts(r: bv32, s: bv32)
    ensures (r ^ s) >> 1 == (r >> 1) ^ (s >> 1)
  {
  }

  lemma XorLow(r: bv32, s: bv32)
    ensures (r ^ s) & 1 == (r & 1) ^ (s & 1)
    ensures r & 1 == 0 || r & 1 == 1
  {
  }

  lemma XorRules(p: bv32, x: bv32, y: bv32)
    ensures p ^ (x ^ y) == (p ^ x) ^ y == x ^ (p ^ y)
    ensures (p ^ x) ^ (p ^ y) == x ^ y
  {
  }

  lemma ShiftOfXor(r: bv32, s: bv32)
    ensures Shift(r ^ s) == Shift(r) ^ Shift(s)
  {
    XorShifts(r, s);
    XorLow(r, s);
    XorLow(s, r);
    XorRules(POLY, r >> 1, s >> 1);
  }

  /** The step is linear. */
  lemma ShiftLinear(r: bv32, s: bv32)
    ensures Shift(Xor(r, s)) == Xor(Shift(r), Shift(s))
  {
    hide Shift;
    ShiftOfXor(r, s);
  }

  lemma ShiftInjective(r: bv32, s: bv32)
    requires Shift(r) == Shift(s)
    ensures r == s
  {
  }

  lemma ShiftBack(c: bv32)
    requires Small(c)
    ensures Shift(Double(c)) == c
  {
  }

  /** What meets the register after k steps might as well have met it, higher up,
      before them. */
  lemma {:induction false} FeedEarly(x: bv32, c: bv32, k: nat)
    requires Fits(c, k)
    ensures Xor(Shifts(x, k), c) == Shifts(Xor(x, Up(c, k)), k)
    decreases k
  {
    hide Shift, Xor, Double, Small;
    if k > 0 {
      ShiftBack(c);
      ShiftLinear(Shifts(x, k - 1), Double(c));
      FeedEarly(x, Double(c), k - 1);
    }
  }

  lemma {:induction false} ShiftsAdd(r: bv32, j: nat, k: nat)
    ensures Shifts(Shifts(r, j), k) == Shifts(r, j + k)
  {
    hide Shift;
    if k > 0 {
      ShiftsAdd(r, j, k - 1);
    }
  }

  lemma {:induction false} ShiftsInjective(r: bv32, s: bv32, k: nat)
    requires Shifts(r, k) == Shifts(s, k)
    ensures r == s
    decreases k
  {
    hide Shift;
    if k > 0 {
      ShiftInjective(Shifts(r, k - 1), Shifts(s, k - 1));
      ShiftsInjective(r, s, k - 1);
    }
  }

  // ---- bytes

  /** Moving up one place is a shift, and for a byte's worth of room there is no loss. */
  lemma DoubleIs(c: bv32)
    ensures Double(c) == c << 1 && Double(Double(c)) == c << 2
    ensures c & 0xF0000000 == 0 ==> Small(c) && Small(Double(c)) && Small(Double(Double(c))) && Small(Double(Double(Double(c))))
  {
  }

  lemma FourTimes(c: bv32)
    ensures Double(Double(Double(Double(c)))) == c << 4
  {
  }

  lemma UpStep(c: bv32, k: nat)
    ensures Up(c, 0) == c && Fits(c, 0)
    ensures Up(c, k + 1) == Up(Double(c), k) && (Fits(c, k + 1) <==> Small(c) && Fits(Double(c), k))
  {
    hide Double, Small;
  }

  lemma UpFour(c: bv32)
    requires c & 0xF0000000 == 0
    ensures Fits(c, 4) && Up(c, 4) == c << 4
  {
    DoubleIs(c);
    FourTimes(c);
    var d := Double(c);
    var e := Double(d);
    var f := Double(e);
    UpStep(c, 3);
    UpStep(d, 2);
    UpStep(e, 1);
    UpStep(f, 0);
    UpStep(Double(f), 0);
    hide Double, Small, Up, Fits;
  }

  lemma {:induction false} UpMore(c: bv32, j: nat, k: nat)
    requires Fits(c, j) && Fits(Up(c, j), k)
    ensures Fits(c, j + k) && Up(c, j + k) == Up(Up(c, j), k)
    decreases j
  {
    hide Double, Small;
    if j > 0 {
      UpMore(Double(c), j - 1, k);
    }
  }

  // ---- bytes

  predicate Within(w: bv32, n: nat)
    decreases n
  {
    if n == 0 then w == 0 else Within(Half(w), n - 1)
  }

  lemma HalfIs(w: bv32)
    ensures Shift(Xor(w & 1, w)) == Half(w)
  {
  }

  lemma XorComm(a: bv32, b: bv32)
    ensures Xor(a, b) == Xor(b, a)
  {
  }

  lemma XorAssoc(a: bv32, b: bv32, c: bv32)
    ensures Xor(Xor(a, b), c) == Xor(a, Xor(b, c))
  {
    XorRules(a, b, c);
  }

  lemma XorSelf(a: bv32)
    ensures Xor(a, a) == 0 && Xor(0, a) == a && Xor(a, 0) == a
  {
  }

  lemma XorBack(r: bv32, w: bv32, v: bv32)
    ensures Xor(Xor(v, r), Xor(v, w)) == Xor(r, w)
  {
    hide Xor;
    XorComm(v, r);
    XorAssoc(r, v, Xor(v, w));
    XorAssoc(v, v, w);
    XorSelf(v);
    XorSelf(w);
  }

  /** Bits fed one by one are the word itself fed at once. */
  lemma {:induction false} FeedBitsIs(r: bv32, w: bv32, n: nat)
    requires Within(w, n)
    ensures FeedBits(r, w, n) == Shifts(Xor(r, w), n)
    decreases n
  {
    hide Shift, Half, Xor;
    if n == 0 {
      XorZero(r);
    } else {
      var v := w & 1;
      FeedBitsIs(Shift(Xor(v, r)), Half(w), n - 1);
      HalfIs(w);
      ShiftLinear(Xor(v, r), Xor(v, w));
      XorBack(r, w, v);
      ShiftsAdd(Xor(r, w), 1, n - 1);
      assert Shifts(Xor(r, w), 1) == Shift(Xor(r, w)) by { assert Shifts(Xor(r, w), 0) == Xor(r, w); }
    }
  }

  lemma XorZero(r: bv32)
    ensures Xor(r, 0) == r
  {
  }

  lemma UpEight(c: bv32)
    requires c & 0xFF000000 == 0
    ensures Fits(c, 8) && Up(c, 8) == c << 8
  {
    EightIs(c);
    UpFour(c);
    UpFour(c << 4);
    UpMore(c, 4, 4);
    hide Up, Fits;
  }

  lemma EightIs(c: bv32)
    ensures (c << 4) << 4 == c << 8
    ensures c & 0xFF000000 == 0 ==> c & 0xF0000000 == 0 && (c << 4) & 0xF0000000 == 0
  {
  }

  /** A byte as a word, and where it goes. */
  lemma ByteIs(b: bv8)
    ensures var w := b as bv32;
      && w & 0xFF000000 == 0 && (w << 8) & 0xFF000000 == 0 && (w << 16) & 0xFF000000 == 0
      && (w << 8) << 8 == w << 16 && (w << 16) << 8 == w << 24
      && Half(Half(Half(Half(w)))) == w >> 4 && Half(Half(Half(Half(w >> 4)))) == 0
  {
  }

  lemma ByteWithin(b: bv8)
    ensures Within(b as bv32, 8)
  {
    ByteIs(b);
    var w := b as bv32;
    WithinFour(w, 4);
    WithinFour(w >> 4, 0);
    hide Within, Half;
  }

  lemma WithinFour(w: bv32, n: nat)
    ensures Within(w, n + 4) == Within(Half(Half(Half(Half(w)))), n)
    ensures Within(w, 0) == (w == 0)
  {
    hide Half;
    assert Within(w, n + 4) == Within(Half(w), n + 3);
    assert Within(Half(w), n + 3) == Within(Half(Half(w)), n + 2);
    assert Within(Half(Half(w)), n + 2) == Within(Half(Half(Half(w))), n + 1);
  }

  lemma FeedByteIs(r: bv32, b: bv8)
    ensures FeedByte(r, b) == Shifts(Xor(r, b as bv32), 8)
  {
    hide Within, Shift, Xor, Half;
    ByteWithin(b);
    FeedBitsIs(r, b as bv32, 8);
  }

  /** What the source computes for a byte: eight steps of the lowest byte alone,
      and the rest of the register shifted in whole. */
  lemma ByteAtOnce(r: bv32, b: bv8)
    ensures Xor(Shifts(Lowest(r, b), 8), Rest(r)) == FeedByte(r, b)
  {
    var w := b as bv32;
    var lo, hi := (r ^ w) & 0xFF, r >> 8;
    LowAndHigh(r, b);
    UpEight(hi);
    FeedEarly(lo, hi, 8);
    FeedByteIs(r, b);
    hide Shift, Xor, Up, Fits;
  }

  /** The lowest byte of the register and the byte, and the rest of the register. */
  function Lowest(r: bv32, b: bv8): bv32 { (r ^ (b as bv32)) & 0xFF }

  function Rest(r: bv32): bv32 { r >> 8 }

  lemma LowAndHigh(r: bv32, b: bv8)
    ensures var w := b as bv32; Xor((r ^ w) & 0xFF, (r >> 8) << 8) == Xor(r, w) && (r >> 8) & 0xFF000000 == 0
  {
  }

  // ---- the checksum

  lemma EightSteps(x: bv32)
    ensures Shifts(x, 8) == Shift(Shift(Shift(Shift(Shift(Shift(Shift(Shift(x))))))))
  {
    hide Shift;
    assert Shifts(x, 4) == Shift(Shift(Shift(Shift(x)))) by {
      assert Shifts(x, 2) == Shift(Shift(x)) by { assert Shifts(x, 1) == Shift(x); }
      assert Shifts(x, 3) == Shift(Shifts(x, 2));
    }
    assert Shifts(x, 6) == Shift(Shift(Shifts(x, 4))) by { assert Shifts(x, 5) == Shift(Shifts(x, 4)); }
    assert Shifts(x, 8) == Shift(Shift(Shifts(x, 6))) by { assert Shifts(x, 7) == Shift(Shifts(x, 6)); }
  }

  /** The body of the loop, for one byte. */
  method AddByte(r: bv32, b: bv8) returns (crc: bv32)
    ensures crc == FeedByte(r, b)
  {
    hide Shift, FeedByte, Xor, Lowest, Rest;
    ByteAtOnce(r, b);
    var xorval := Lowest(r, b);
    EightSteps(xorval);
    xorval := Shift(xorval);
    xorval := Shift(xorval);
    xorval := Shift(xorval);
    xorval := Shift(xorval);
    xorval := Shift(xorval);
    xorval := Shift(xorval);
    xorval := Shift(xorval);
    xorval := Shift(xorval);
    crc := Xor(xorval, Rest(r));
  }

  /** MojoCrc32: the register, and the message it has been given. */
  class MojoCrc32 {
    var crc: bv32
    ghost var message: seq<bv8>

    ghost predicate Valid()
      reads this
    {
      crc == Feed(0xFFFFFFFF, message)
    }

    constructor ()
      ensures Valid() && message == []
    {
      crc, message := 0xFFFFFFFF, [];
    }

    /** MojoCrc32_append, in any pieces. */
    method Append(buf: seq<bv8>)
      requires Valid()
      modifies this
      ensures Valid() && message == old(message) + buf
    {
      hide FeedByte;
      var r := crc;
      assert message + buf[..0] == message;
      for n := 0 to |buf|
        invariant message == old(message) && r == Feed(0xFFFFFFFF, message + buf[..n])
      {
        r := AddByte(r, buf[n]);
        ghost var m := message + buf[..n + 1];
        assert m[..|m| - 1] == message + buf[..n];
      }
      assert buf[..|buf|] == buf;
      crc, message := r, message + buf;
    }

    /** MojoCrc32_finish */
    method Finish() returns (digest: bv32)
      requires Valid()
      ensures digest == Crc(message)
    {
      digest := Xor(crc, 0xFFFFFFFF);
    }
  }

  // ---- errors it cannot miss

  lemma {:induction false} FeedJoin(r: bv32, a: seq<bv8>, b: seq<bv8>)
    ensures Feed(r, a + b) == Feed(Feed(r, a), b)
    decreases |b|
  {
    hide FeedByte;
    if b == [] {
      assert a + b == a;
    } else {
      var m := a + b;
      FeedJoin(r, a, b[..|b| - 1]);
      assert m[..|m| - 1] == a + b[..|b| - 1];
    }
  }

  /** The register's start can be told from its end. */
  lemma {:induction false} FeedInjective(r: bv32, s: bv32, m: seq<bv8>)
    requires Feed(r, m) == Feed(s, m)
    ensures r == s
    decreases |m|
  {
    hide FeedByte, Shift, Xor;
    if m != [] {
      var n, b := m[..|m| - 1], m[|m| - 1];
      FeedByteIs(Feed(r, n), b);
      FeedByteIs(Feed(s, n), b);
      ShiftsInjective(Xor(Feed(r, n), b as bv32), Xor(Feed(s, n), b as bv32), 8);
      XorCancel(Feed(r, n), Feed(s, n), b as bv32);
      FeedInjective(r, s, n);
    }
  }

  lemma XorCancel(a: bv32, b: bv32, c: bv32)
    requires Xor(a, c) == Xor(b, c)
    ensures a == b
  {
    hide Xor;
    XorAssoc(a, c, c);
    XorAssoc(b, c, c);
    XorSelf(c);
    XorSelf(a);
    XorSelf(b);
  }

  /** One more byte, after k bits: it counts as if fed k places higher at the start. */
  lemma FeedAfter(r: bv32, v: bv32, b: bv8, k: nat)
    requires Fits(b as bv32, k)
    ensures FeedByte(Shifts(Xor(r, v), k), b) == Shifts(Xor(r, Xor(v, Up(b as bv32, k))), k + 8)
  {
    hide FeedByte, Shift, Xor, Up, Fits;
    var w := b as bv32;
    FeedByteIs(Shifts(Xor(r, v), k), b);
    FeedEarly(Xor(r, v), w, k);
    XorAssoc(r, v, Up(w, k));
    ShiftsAdd(Xor(Xor(r, v), Up(w, k)), k, 8);
  }

  /** Four bytes as one word, least significant first. */
  function Word(a: bv8, b: bv8, c: bv8, d: bv8): bv32 {
    Xor(Xor(Xor(a as bv32, Up(b as bv32, 8)), Up(c as bv32, 16)), Up(d as bv32, 24))
  }

  lemma UpByte(b: bv8)
    ensures var w := b as bv32;
      Fits(w, 8) && Up(w, 8) == w << 8 && Fits(w, 16) && Up(w, 16) == w << 16 && Fits(w, 24) && Up(w, 24) == w << 24
  {
    hide Up, Fits, Half;
    var w := b as bv32;
    ByteIs(b);
    UpEight(w);
    UpEight(w << 8);
    UpEight(w << 16);
    UpMore(w, 8, 8);
    UpMore(w, 16, 8);
  }

  lemma FeedFour(r: bv32, a: bv8, b: bv8, c: bv8, d: bv8)
    ensures Feed(r, [a, b, c, d]) == Shifts(Xor(r, Word(a, b, c, d)), 32)
  {
    hide FeedByte, Shift, Xor, Up, Fits;
    UpByte(b);
    UpByte(c);
    UpByte(d);
    FeedByteIs(r, a);
    FeedAfter(r, a as bv32, b, 8);
    FeedAfter(r, Xor(a as bv32, Up(b as bv32, 8)), c, 16);
    FeedAfter(r, Xor(Xor(a as bv32, Up(b as bv32, 8)), Up(c as bv32, 16)), d, 24);
    FeedOnes(r, a, b, c, d);
  }

  lemma FeedOnes(r: bv32, a: bv8, b: bv8, c: bv8, d: bv8)
    ensures Feed(r, [a, b, c, d]) == FeedByte(FeedByte(FeedByte(FeedByte(r, a), b), c), d)
  {
    hide FeedByte, Feed;
    FeedLast(r, [], a);
    FeedLast(r, [a], b);
    FeedLast(r, [a, b], c);
    FeedLast(r, [a, b, c], d);
    assert [] + [a] == [a] && [a] + [b] == [a, b] && [a, b] + [c] == [a, b, c] && [a, b, c] + [d] == [a, b, c, d];
  }

  lemma WordInjective(a: seq<bv8>, b: seq<bv8>)
    requires |a| == |b| == 4 && Word(a[0], a[1], a[2], a[3]) == Word(b[0], b[1], b[2], b[3])
    ensures a == b
  {
    WordIs(a[0], a[1], a[2], a[3]);
    WordIs(b[0], b[1], b[2], b[3]);
    BytesOf(a[0], a[1], a[2], a[3], b[0], b[1], b[2], b[3]);
    hide Word;
  }

  lemma WordIs(a: bv8, b: bv8, c: bv8, d: bv8)
    ensures Word(a, b, c, d) == (((a as bv32) ^ ((b as bv32) << 8)) ^ ((c as bv32) << 16)) ^ ((d as bv32) << 24)
  {
    UpByte(b);
    UpByte(c);
    UpByte(d);
    hide Up, Fits;
  }

  lemma BytesOf(a: bv8, b: bv8, c: bv8, d: bv8, a': bv8, b': bv8, c': bv8, d': bv8)
    ensures (((a as bv32) ^ ((b as bv32) << 8)) ^ ((c as bv32) << 16)) ^ ((d as bv32) << 24) ==
            (((a' as bv32) ^ ((b' as bv32) << 8)) ^ ((c' as bv32) << 16)) ^ ((d' as bv32) << 24)
            ==> a == a' && b == b' && c == c' && d == d'
  {
  }

  /** Messages that differ only within four bytes in a row have different
      checksums. */
  lemma BurstDetected(p: seq<bv8>, a: seq<bv8>, b: seq<bv8>, s: seq<bv8>)
    requires |a| == |b| <= 4 && a != b
    ensures Crc(p + a + s) != Crc(p + b + s)
  {
    hide Feed, Word, Xor;
    var r := Feed(0xFFFFFFFF, p);
    FeedJoin(0xFFFFFFFF, p, a);
    FeedJoin(0xFFFFFFFF, p, b);
    FeedJoin(0xFFFFFFFF, p + a, s);
    FeedJoin(0xFFFFFFFF, p + b, s);
    if Crc(p + a + s) == Crc(p + b + s) {
      XorCancel(Feed(Feed(r, a), s), Feed(Feed(r, b), s), 0xFFFFFFFF);
      FeedInjective(Feed(r, a), Feed(r, b), s);
      FourAlike(r, a, b);
    }
  }

  lemma FourAlike(r: bv32, a: seq<bv8>, b: seq<bv8>)
    requires |a| == |b| <= 4 && Feed(r, a) == Feed(r, b)
    ensures a == b
  {
    hide Feed, Word, Shift, Xor;
    var z := seq(4 - |a|, _ => 0 as bv8);
    FeedJoin(r, a, z);
    FeedJoin(r, b, z);
    var x, y := a + z, b + z;
    assert x == [x[0], x[1], x[2], x[3]] && y == [y[0], y[1], y[2], y[3]];
    FeedFour(r, x[0], x[1], x[2], x[3]);
    FeedFour(r, y[0], y[1], y[2], y[3]);
    var v, w := Word(x[0], x[1], x[2], x[3]), Word(y[0], y[1], y[2], y[3]);
    ShiftsInjective(Xor(r, v), Xor(r, w), 32);
    XorComm(r, v);
    XorComm(r, w);
    XorCancel(v, w, r);
    WordInjective(x, y);
    assert a == x[..|a|] && b == y[..|a|];
  }

  lemma FeedLast(r: bv32, m: seq<bv8>, b: bv8)
    ensures Feed(r, m + [b]) == FeedByte(Feed(r, m), b)
    ensures Feed(r, []) == r
  {
    hide FeedByte;
    assert (m + [b])[..|m|] == m;
  }

  // ---- fixed values

  /** A word as bytes, least significant first. */
  function LowFirst(c: bv32): (s: seq<bv8>)
    ensures |s| == 4
  {
    [(c & 0xFF) as bv8, ((c >> 8) & 0xFF) as bv8, ((c >> 16) & 0xFF) as bv8, ((c >> 24) & 0xFF) as bv8]
  }

  lemma WordOfBytes(c: bv32)
    ensures var s := LowFirst(c); Word(s[0], s[1], s[2], s[3]) == c
  {
    var s := LowFirst(c);
    WordIs(s[0], s[1], s[2], s[3]);
    hide Word;
    SplitWord(c);
  }

  lemma SplitWord(c: bv32)
    ensures ((((c & 0xFF) as bv8 as bv32) ^ ((((c >> 8) & 0xFF) as bv8 as bv32) << 8)) ^ ((((c >> 16) & 0xFF) as bv8 as bv32) << 16))
      ^ ((((c >> 24) & 0xFF) as bv8 as bv32) << 24) == c
  {
  }

  lemma OnesShifted()
    ensures Shifts(0xFFFFFFFF, 32) == 0xDEBB20E3
  {
    hide Shifts;
    EightMore(0xFFFFFFFF, 0x2DFD1072);
    EightMore(0x2DFD1072, 0xBE26ED00);
    EightMore(0xBE26ED00, 0x00BE26ED);
    EightMore(0x00BE26ED, 0xDEBB20E3);
    ShiftsAdd(0xFFFFFFFF, 8, 8);
    ShiftsAdd(0xFFFFFFFF, 16, 8);
    ShiftsAdd(0xFFFFFFFF, 24, 8);
  }

  /** Eight steps between known words. */
  lemma EightMore(x: bv32, y: bv32)
    requires Shift(Shift(Shift(Shift(Shift(Shift(Shift(Shift(x)))))))) == y
    ensures Shifts(x, 8) == y
  {
    hide Shift;
    EightSteps(x);
  }

  /** A message followed by its own checksum always has the same checksum. */
  lemma Residue(m: seq<bv8>)
    ensures Crc(m + LowFirst(Crc(m))) == 0x2144DF1C
  {
    hide Feed, Word, Shift;
    var r, c := Feed(0xFFFFFFFF, m), Crc(m);
    var s := LowFirst(c);
    FeedJoin(0xFFFFFFFF, m, s);
    assert s == [s[0], s[1], s[2], s[3]];
    FeedFour(r, s[0], s[1], s[2], s[3]);
    WordOfBytes(c);
    Complement(r);
    OnesShifted();
  }

  lemma Complement(r: bv32)
    ensures Xor(r, Xor(r, 0xFFFFFFFF)) == 0xFFFFFFFF
  {
  }

  lemma FeedOne(b: bv8, x: bv32, y: bv32)
    requires Shift(Shift(Shift(Shift(Shift(Shift(Shift(Shift(Xor(x, b as bv32))))))))) == y
    ensures FeedByte(x, b) == y
  {
    hide Shift, Xor;
    FeedByteIs(x, b);
    EightSteps(Xor(x, b as bv32));
  }

  lemma CheckBytes()
    ensures FeedByte(0xFFFFFFFF, 0x31) == 0x7C231048
    ensures FeedByte(0x7C231048, 0x32) == 0xB0ACBB32
    ensures FeedByte(0xB0ACBB32, 0x33) == 0x77B79C2D
    ensures FeedByte(0x77B79C2D, 0x34) == 0x641C1F5C
    ensures FeedByte(0x641C1F5C, 0x35) == 0x340AC5E3
    ensures FeedByte(0x340AC5E3, 0x36) == 0xF68D2C9E
    ensures FeedByte(0xF68D2C9E, 0x37) == 0xAFFC9660
    ensures FeedByte(0xAFFC9660, 0x38) == 0x651F2550
    ensures FeedByte(0x651F2550, 0x39) == 0x340BC6D9
  {
    hide FeedByte;
    FeedOne(0x31, 0xFFFFFFFF, 0x7C231048);
    FeedOne(0x32, 0x7C231048, 0xB0ACBB32);
    FeedOne(0x33, 0xB0ACBB32, 0x77B79C2D);
    FeedOne(0x34, 0x77B79C2D, 0x641C1F5C);
    FeedOne(0x35, 0x641C1F5C, 0x340AC5E3);
    FeedOne(0x36, 0x340AC5E3, 0xF68D2C9E);
    FeedOne(0x37, 0xF68D2C9E, 0xAFFC9660);
    FeedOne(0x38, 0xAFFC9660, 0x651F2550);
    FeedOne(0x39, 0x651F2550, 0x340BC6D9);
  }

  /** The usual check value, of the digits 1 to 9. */
  lemma CheckValue()
    ensures Crc([0x31, 0x32, 0x33, 0x34, 0x35, 0x36, 0x37, 0x38, 0x39]) == 0xCBF43926
  {
    hide FeedByte;
    var m: seq<bv8> := [0x31, 0x32, 0x33, 0x34, 0x35, 0x36, 0x37, 0x38, 0x39];
    CheckBytes();
    FeedLast(0xFFFFFFFF, m[..0], m[0]);
    assert m[..0] + [m[0]] == m[..1];
    FeedLast(0xFFFFFFFF, m[..1], m[1]);
    assert m[..1] + [m[1]] == m[..2];
    FeedLast(0xFFFFFFFF, m[..2], m[2]);
    assert m[..2] + [m[2]] == m[..3];
    FeedLast(0xFFFFFFFF, m[..3], m[3]);
    assert m[..3] + [m[3]] == m[..4];
    FeedLast(0xFFFFFFFF, m[..4], m[4]);
    assert m[..4] + [m[4]] == m[..5];
    FeedLast(0xFFFFFFFF, m[..5], m[5]);
    assert m[..5] + [m[5]] == m[..6];
    FeedLast(0xFFFFFFFF, m[..6], m[6]);
    assert m[..6] + [m[6]] == m[..7];
    FeedLast(0xFFFFFFFF, m[..7], m[7]);
    assert m[..7] + [m[7]] == m[..8];
    FeedLast(0xFFFFFFFF, m[..8], m[8]);
    assert m[..8] + [m[8]] == m[..9];
    assert m[..0] == [] && m[..9] == m;
  }
}
