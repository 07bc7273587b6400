/** The zlib wrapper of a deflate stream (RFC 1950): two header bytes, the
    stream, and the Adler-32 of the output. */
module Rfc1950 {
  import opened Bits
  import opened Rfc1951

  const ADLER_BASE := 65521

  /** The two sums of section 8.2, byte by byte. */
  function Sum1(out: seq<Byte>): (s: nat)
    ensures s < ADLER_BASE
  {
    if out == [] then 1 else (Sum1(out[..|out| - 1]) + out[|out| - 1]) % ADLER_BASE
  }

  function Sum2(out: seq<Byte>): (s: nat)
    ensures s < ADLER_BASE
  {
    if out == [] then 0 else (Sum2(out[..|out| - 1]) + Sum1(out)) % ADLER_BASE
  }

  function Adler32(out: seq<Byte>): nat {
    Sum2(out) * 65536 + Sum1(out)
  }

  /** The header bytes (section 2.2): check bits, no preset dictionary, method 8,
      and a window of 2^(CINFO + 8) bytes within the limit. */
  predicate HeaderOk(cmf: nat, flg: nat, limit: nat) {
    (cmf * 256 + flg) % 31 == 0 && flg / 32 % 2 == 0 && cmf % 16 == 8 && Shl(1, 8 + cmf / 16) <= limit
  }

  /** The four trailer bytes, most significant first. */
  function BigEndian(src: seq<Byte>, i: nat): nat
    requires i + 4 <= |src|
  {
    var a: nat, b: nat, c: nat, d: nat := src[i], src[i + 1], src[i + 2], src[i + 3];
    ((a * 256 + b) * 256 + c) * 256 + d
  }

  /** What follows the deflate stream. */
  ghost function Trailer(src: seq<Byte>, o: Outcome): Outcome {
    match o
    case Done(out, e) =>
      var q := Align(e);
      if q + 32 > 8 * |src| then Outside
      else if BigEndian(src, q / 8) == Adler32(out) then Done(out, q + 32)
      else Mismatch(out, q + 32)
    case _ => o
  }

  /** The same from the middle: n trailer bytes are read into z. */
  ghost function TrailerFrom(src: seq<Byte>, p: nat, n: nat, z: nat, out: seq<Byte>): Outcome
    decreases 4 - n
  {
    if n >= 4 then
      if z == Adler32(out) then Done(out, p) else Mismatch(out, p)
    else if p % 8 != 0 || p + 8 > 8 * |src| then Outside
    else TrailerFrom(src, p + 8, n + 1, (z * 256 + src[p / 8]) % 0x1_0000_0000, out)
  }

  lemma TrailerStep(src: seq<Byte>, p: nat, n: nat, z: nat, out: seq<Byte>, b: nat, z': nat)
    requires n < 4 && p % 8 == 0 && p + 8 <= 8 * |src| && b == src[p / 8]
    requires z' < 0x1_0000_0000 && (z' == z * 256 + b || z' + 0x1_0000_0000 == z * 256 + b)
    ensures TrailerFrom(src, p, n, z, out) == TrailerFrom(src, p + 8, n + 1, z', out)
  {
    hide Adler32;
  }

  lemma TrailerIs(src: seq<Byte>, out: seq<Byte>, e: nat)
    ensures Trailer(src, Done(out, e)) == TrailerFrom(src, Align(e), 0, 1, out)
  {
    hide TrailerFrom, Adler32;
    var q := Align(e);
    if q + 32 <= 8 * |src| {
      var i := q / 8;
      var a: nat, b: nat, c: nat, d: nat := src[i], src[i + 1], src[i + 2], src[i + 3];
      TrailerStep(src, q, 0, 1, out, a, 256 + a);
      TrailerStep(src, q + 8, 1, 256 + a, out, b, 65536 + a * 256 + b);
      TrailerStep(src, q + 16, 2, 65536 + a * 256 + b, out, c, 0x100_0000 + a * 65536 + b * 256 + c);
      TrailerStep(src, q + 24, 3, 0x100_0000 + a * 65536 + b * 256 + c, out, d, BigEndian(src, i));
      TrailerEnd(src, q + 32, BigEndian(src, i), out);
    } else {
      TrailerShort(src, q, 0, 1, out);
    }
  }

  lemma TrailerEnd(src: seq<Byte>, p: nat, z: nat, out: seq<Byte>)
    ensures TrailerFrom(src, p, 4, z, out) == if z == Adler32(out) then Done(out, p) else Mismatch(out, p)
  {
  }

  lemma {:induction false} TrailerShort(src: seq<Byte>, p: nat, n: nat, z: nat, out: seq<Byte>)
    requires n < 4 && p + 8 * (4 - n) > 8 * |src|
    ensures TrailerFrom(src, p, n, z, out) == Outside
    decreases 4 - n
  {
    hide Adler32;
    if p % 8 == 0 && p + 8 <= 8 * |src| && n < 3 {
      TrailerShort(src, p + 8, n + 1, (z * 256 + src[p / 8]) % 0x1_0000_0000, out);
    }
  }

  /** A whole stream, raw or wrapped. */
  ghost function Whole(src: seq<Byte>, zlib: bool, limit: nat): Outcome {
    if !zlib then Inflate(src)
    else if |src| < 2 then Outside
    else if !HeaderOk(src[0], src[1], limit) then Rejected([])
    else Trailer(src, Blocks(src, 16, []))
  }
}
