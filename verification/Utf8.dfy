/** Decoding UTF-8 from a C string (mk/linux/mojosetup/mojosetup.c:667-816). */
module Utf8 {
  import opened Names

  /** The bytes of a C string; a byte 0 ends it. */
  type Text = Name

  const BOGUS: nat := 0xFFFFFFFF

  /** The byte at p, or the terminator. */
  function At(s: Text, p: nat): nat {
    if p < |s| then s[p] else 0
  }

  // ---- the standard: section 3 of RFC 3629

  /** A Unicode scalar value. */
  predicate Scalar(c: nat) { c <= 0x10FFFF && !(0xD800 <= c <= 0xDFFF) }

  /** The bytes of a character number. */
  function Encode(c: nat): (s: Text)
    requires 0 < c <= 0x10FFFF
    ensures 1 <= |s| <= 4
  {
    if c < 0x80 then [c]
    else if c < 0x800 then [192 + c / 64, 128 + c % 64]
    else if c < 0x10000 then [224 + c / 4096, 128 + c / 64 % 64, 128 + c % 64]
    else [240 + c / 262144, 128 + c / 4096 % 64, 128 + c / 64 % 64, 128 + c % 64]
  }

  // ---- the decoder

  /** (octet & (128 + 64)) == 128 */
  predicate Continues(b: nat) { 128 <= b < 192 }

  /** How many bytes from p on, up to n, continue a character. */
  function Tail(s: Text, p: nat, n: nat): (k: nat)
    ensures k <= n && p + k <= (if p <= |s| then |s| else p)
    decreases n
  {
    if n == 0 || !Continues(At(s, p)) then 0 else 1 + Tail(s, p + 1, n - 1)
  }

  /** How many bytes should follow a first byte. */
  function Following(b: nat): (n: nat)
    ensures n <= 5
  {
    if b < 192 then 0 else if b < 224 then 1 else if b < 240 then 2 else if b < 248 then 3 else if b < 252 then 4 else 5
  }

  /** The seven surrogates that are refused. */
  predicate Refused(c: nat) { c in {0xD800, 0xDB7F, 0xDB80, 0xDBFF, 0xDC00, 0xDF80, 0xDFFF} }

  /** What the bits of a sequence of the full length come to. */
  function Value(s: Text, p: nat, n: nat): int {
    Join(At(s, p), At(s, p + 1), At(s, p + 2), At(s, p + 3), n)
  }

  function Join(a: int, b: int, c: int, d: int, n: nat): int {
    if n == 1 then (a - 192) * 64 + (b - 128)
    else if n == 2 then (a - 224) * 4096 + (b - 128) * 64 + (c - 128)
    else (a - 240) * 262144 + (b - 128) * 4096 + (c - 128) * 64 + (d - 128)
  }

  /** The values a sequence of this length may have. */
  predicate Accepted(v: int, n: nat) {
    if n == 1 then 0x80 <= v <= 0x7FF
    else if n == 2 then 0x800 <= v <= 0xFFFD && !Refused(v)
    else n == 3 && 0x10000 <= v <= 0x10FFFF
  }

  /** The character at p, and where the next one begins: behind the whole sequence
      if it is of the full length, else one byte on. */
  function Decode(s: Text, p: nat): (r: (nat, nat)) {
    var b := At(s, p);
    if b == 0 then (0, p)
    else if b < 128 then (b, p + 1)
    else
      var n := Following(b);
      if b < 192 || Tail(s, p + 1, n) < n then (BOGUS, p + 1)
      else (if Accepted(Value(s, p, n), n) then Value(s, p, n) else BOGUS, p + 1 + n)
  }

  /** The decoder moves on, and never past the terminator. */
  lemma DecodeAdvances(s: Text, p: nat)
    requires p <= |s|
    ensures var (c, q) := Decode(s, p); p <= q <= |s| && (c == 0 <==> p == |s|) && (p < |s| <==> p < q)
  {
  }

  /** The text has the character's bytes at p. */
  predicate HasAt(s: Text, p: nat, e: Text) {
    p + |e| <= |s| && s[p..p + |e|] == e
  }

  /** The characters the decoder lets through. */
  predicate Good(c: nat) {
    0 < c <= 0x10FFFF && c != 0xFFFE && c != 0xFFFF && !Refused(c)
  }

  lemma TailIs(s: Text, p: nat)
    ensures Tail(s, p, 1) == 1 <==> Continues(At(s, p))
    ensures Tail(s, p, 2) == 2 <==> Continues(At(s, p)) && Continues(At(s, p + 1))
    ensures Tail(s, p, 3) == 3 <==> Continues(At(s, p)) && Continues(At(s, p + 1)) && Continues(At(s, p + 2))
  {
    hide Continues, At;
    assert Tail(s, p + 2, 1) == if Continues(At(s, p + 2)) then 1 else 0;
    assert Tail(s, p + 1, 1) == if Continues(At(s, p + 1)) then 1 else 0;
    assert Tail(s, p + 1, 2) == if Continues(At(s, p + 1)) then 1 + Tail(s, p + 2, 1) else 0;
  }

  /** A character is decoded where its bytes are. */
  lemma EncodedIsDecoded(s: Text, p: nat, c: nat)
    requires Good(c) && HasAt(s, p, Encode(c))
    ensures Decode(s, p) == (c, p + |Encode(c)|)
  {
    hide Refused, Tail;
    var e := Encode(c);
    Bytes(s, p, e);
    TailIs(s, p + 1);
    if |e| == 1 {
    } else if |e| == 2 {
      TwoBack(c);
    } else if |e| == 3 {
      ThreeBack(c);
    } else {
      FourBack(c);
    }
  }

  lemma Bytes(s: Text, p: nat, e: Text)
    requires HasAt(s, p, e)
    ensures |e| >= 1 ==> At(s, p) == e[0]
    ensures |e| >= 2 ==> At(s, p + 1) == e[1]
    ensures |e| >= 3 ==> At(s, p + 2) == e[2]
    ensures |e| >= 4 ==> At(s, p + 3) == e[3]
  {
    var t := s[p..p + |e|];
    assert |e| >= 1 ==> t[0] == e[0];
    assert |e| >= 2 ==> t[1] == e[1];
    assert |e| >= 3 ==> t[2] == e[2];
    assert |e| >= 4 ==> t[3] == e[3];
  }

  lemma TwoBack(c: nat)
    requires 0x80 <= c < 0x800
    ensures var e := Encode(c); 192 <= e[0] < 224 && Continues(e[1]) && Join(e[0], e[1], 128, 128, 1) == c
  {
  }

  lemma ThreeBack(c: nat)
    requires 0x800 <= c < 0x10000
    ensures var e := Encode(c);
      && 224 <= e[0] < 240 && Continues(e[1]) && Continues(e[2])
      && Join(e[0], e[1], e[2], 128, 2) == c
  {
  }

  lemma FourBack(c: nat)
    requires 0x10000 <= c <= 0x10FFFF
    ensures var e := Encode(c);
      && 240 <= e[0] < 248 && Continues(e[1]) && Continues(e[2]) && Continues(e[3])
      && Join(e[0], e[1], e[2], e[3], 3) == c
  {
    Divided(c);
  }

  lemma Two(a: nat, b: nat)
    requires 192 <= a < 224 && Continues(b)
    ensures var v := Join(a, b, 128, 128, 1); 0x80 <= v <= 0x7FF ==> Encode(v) == [a, b]
  {
    Digits(a - 192, b - 128);
  }

  lemma Three(a: nat, b: nat, c: nat)
    requires 224 <= a < 240 && Continues(b) && Continues(c)
    ensures var v := Join(a, b, c, 128, 2); 0x800 <= v <= 0xFFFD ==> Encode(v) == [a, b, c]
  {
    Digits(a - 224, b - 128);
    Digits((a - 224) * 64 + (b - 128), c - 128);
    Divided((a - 224) * 4096 + (b - 128) * 64 + (c - 128));
  }

  lemma Four(a: nat, b: nat, c: nat, d: nat)
    requires 240 <= a < 248 && Continues(b) && Continues(c) && Continues(d)
    ensures var v := Join(a, b, c, d, 3); 0x10000 <= v <= 0x10FFFF ==> Encode(v) == [a, b, c, d]
  {
    Digits(a - 240, b - 128);
    Digits((a - 240) * 64 + (b - 128), c - 128);
    Digits((a - 240) * 4096 + (b - 128) * 64 + (c - 128), d - 128);
    Divided((a - 240) * 262144 + (b - 128) * 4096 + (c - 128) * 64 + (d - 128));
  }

  lemma Digits(u: nat, w: nat)
    requires w < 64
    ensures (u * 64 + w) / 64 == u && (u * 64 + w) % 64 == w
  {
  }

  lemma Divided(v: nat)
    ensures v / 4096 == v / 64 / 64 && v / 262144 == v / 64 / 64 / 64
  {
  }

  /** And where a character is decoded there are its bytes. */
  lemma DecodedIsEncoded(s: Text, p: nat)
    requires p < |s| && Decode(s, p).0 != BOGUS
    ensures var (c, q) := Decode(s, p); Good(c) && q == p + |Encode(c)| && HasAt(s, p, Encode(c))
  {
    hide Encode, Tail;
    var (c, q) := Decode(s, p);
    var b, n := At(s, p), Following(At(s, p));
    if b < 128 {
      One(b);
    } else {
      TailIs(s, p + 1);
      if n == 1 {
        Two(b, At(s, p + 1));
      } else if n == 2 {
        Three(b, At(s, p + 1), At(s, p + 2));
      } else {
        Four(b, At(s, p + 1), At(s, p + 2), At(s, p + 3));
      }
    }
  }

  lemma One(b: nat)
    requires 0 < b < 128
    ensures Encode(b) == [b] && Good(b)
  {
  }

  /** All scalar values but the last two of the first plane come back from their
      bytes; and a few numbers that are none are let through as well. */
  lemma ScalarsAreGood(c: nat)
    requires 0 < c && Scalar(c)
    ensures Good(c) <==> c != 0xFFFE && c != 0xFFFF
    ensures Good(0xD801) && !Scalar(0xD801)
  {
  }

  /** Of the surrogates only those at the ends of their ranges are refused. */
  lemma SurrogatesAreGood(c: nat)
    requires 0xD800 <= c <= 0xDFFF
    ensures !Good(c) <==> c == 0xD800 || 0xDB7F <= c <= 0xDB80 || 0xDBFF <= c <= 0xDC00 || c == 0xDF80 || c == 0xDFFF
  {
  }

  /** utf8codepoint: the place moves on as far as the sequence is well formed. */
  method CodePoint(s: Text, str: nat) returns (ch: nat, next: nat)
    requires str <= |s|
    ensures (ch, next) == Decode(s, str)
  {
    hide Tail;
    TailSteps(s, str + 1);
    var octet := At(s, str);
    var octet2, octet3, octet4 := At(s, str + 1), At(s, str + 2), At(s, str + 3);
    next := str + 1;
    if octet == 0 {
      return 0, str;
    } else if octet < 128 {
      return octet, next;
    } else if octet < 192 {
      return BOGUS, next;
    } else if octet < 224 {
      if !Continues(octet2) { return BOGUS, next; }
      next := next + 1;
      var retval := (octet - 192) * 64 + (octet2 - 128);
      if 0x80 <= retval <= 0x7FF { return retval, next; }
    } else if octet < 240 {
      if !Continues(octet2) { return BOGUS, next; }
      if !Continues(octet3) { return BOGUS, next; }
      next := next + 2;
      var retval := (octet - 224) * 4096 + (octet2 - 128) * 64 + (octet3 - 128);
      if Refused(retval) { return BOGUS, next; }
      if 0x800 <= retval <= 0xFFFD { return retval, next; }
    } else if octet < 248 {
      if !Continues(octet2) { return BOGUS, next; }
      if !Continues(octet3) { return BOGUS, next; }
      if !Continues(octet4) { return BOGUS, next; }
      next := next + 3;
      var retval := (octet - 240) * 262144 + (octet2 - 128) * 4096 + (octet3 - 128) * 64 + (octet4 - 128);
      if 0x10000 <= retval <= 0x10FFFF { return retval, next; }
    } else if octet < 252 {
      if !Continues(octet2) || !Continues(octet3) || !Continues(octet4) || !Continues(At(s, str + 4)) { return BOGUS, next; }
      next := next + 4;
    } else {
      if !Continues(octet2) || !Continues(octet3) || !Continues(octet4) || !Continues(At(s, str + 4)) { return BOGUS, next; }
      if !Continues(At(s, str + 5)) { return BOGUS, next; }
      next := next + 5;
    }
    return BOGUS, next;
  }

  lemma TailSteps(s: Text, p: nat)
    ensures Tail(s, p, 1) == 1 <==> Continues(At(s, p))
    ensures Tail(s, p, 2) == 2 <==> Continues(At(s, p)) && Continues(At(s, p + 1))
    ensures Tail(s, p, 3) == 3 <==> Continues(At(s, p)) && Continues(At(s, p + 1)) && Continues(At(s, p + 2))
    ensures Tail(s, p, 4) == 4 <==> Tail(s, p, 3) == 3 && Continues(At(s, p + 3))
    ensures Tail(s, p, 5) == 5 <==> Tail(s, p, 4) == 4 && Continues(At(s, p + 4))
  {
    TailIs(s, p);
    TailIs(s, p + 1);
    TailIs(s, p + 2);
    assert Tail(s, p, 4) == if Continues(At(s, p)) then 1 + Tail(s, p + 1, 3) else 0;
    assert Tail(s, p + 1, 4) == if Continues(At(s, p + 1)) then 1 + Tail(s, p + 2, 3) else 0;
    assert Tail(s, p, 5) == if Continues(At(s, p)) then 1 + Tail(s, p + 1, 4) else 0;
  }

  // ---- counting characters

  /** Where n characters from p on end. */
  function Skip(s: Text, p: nat, n: nat): (q: nat)
    requires p <= |s|
    ensures p <= q <= |s|
    decreases n
  {
    DecodeAdvances(s, p);
    if n == 0 then p else Skip(s, Decode(s, p).1, n - 1)
  }

  /** utf8len */
  function Length(s: Text, p: nat): (n: nat)
    requires p <= |s|
    ensures Skip(s, p, n) == |s|
    decreases |s| - p
  {
    DecodeAdvances(s, p);
    if p == |s| then 0 else 1 + Length(s, Decode(s, p).1)
  }

  lemma {:induction false} SkipNext(s: Text, p: nat, n: nat)
    requires p <= |s|
    ensures Skip(s, p, n + 1) == Decode(s, Skip(s, p, n)).1
    decreases n
  {
    hide Decode;
    DecodeAdvances(s, p);
    if n > 0 {
      SkipNext(s, Decode(s, p).1, n - 1);
    }
  }

  /** Before the end, every character takes at least a byte. */
  lemma {:induction false} SkipMoves(s: Text, p: nat, n: nat)
    requires p <= |s| && n > 0 && p < |s|
    ensures Skip(s, p, n) > p
  {
    hide Decode;
    DecodeAdvances(s, p);
  }

  /** A character that ends within a piece of the text is the same length there. */
  lemma DecodeCut(s: Text, a: nat, b: nat, p: nat)
    requires a <= p < b <= |s| && Decode(s, p).1 <= b
    ensures Decode(s[a..b], p - a).1 == Decode(s, p).1 - a
  {
    hide Value, Accepted;
    var n := Following(At(s, p));
    TailCut(s, a, b, p + 1, n);
  }

  lemma {:induction false} TailCut(s: Text, a: nat, b: nat, p: nat, n: nat)
    requires a <= p <= b <= |s|
    ensures Tail(s[a..b], p - a, n) == if p + Tail(s, p, n) <= b then Tail(s, p, n) else b - p
    decreases n
  {
    if n > 0 && p < b {
      TailCut(s, a, b, p + 1, n - 1);
    }
  }

  /** So a piece that n characters make up has n characters. */
  lemma {:induction false} PieceLength(s: Text, a: nat, n: nat)
    requires a <= |s| && (n > 0 ==> Skip(s, a, n - 1) < |s|)
    ensures Length(s[a..Skip(s, a, n)], 0) == n
    decreases n
  {
    PieceFrom(s, a, a, n);
  }

  lemma {:induction false} PieceFrom(s: Text, a: nat, p: nat, n: nat)
    requires a <= p <= |s| && (n > 0 ==> Skip(s, p, n - 1) < |s|)
    ensures Length(s[a..Skip(s, p, n)], p - a) == n
    decreases n
  {
    hide Decode;
    if n > 0 {
      var q := Skip(s, p, n);
      DecodeAdvances(s, p);
      SkipShort(s, p, n - 1);
      DecodeCut(s, a, q, p);
      PieceFrom(s, a, Decode(s, p).1, n - 1);
    }
  }

  lemma {:induction false} SkipShort(s: Text, p: nat, n: nat)
    requires p <= |s|
    ensures Skip(s, p, n) < |s| ==> p < |s|
    decreases n
  {
    hide Decode;
    DecodeAdvances(s, p);
    if n > 0 {
      SkipShort(s, Decode(s, p).1, n - 1);
    }
  }
}
