/** The decoder's output side: the call's output region inside a ring buffer
    (or one large buffer), and the copies of earlier output into it
    (mk/linux/mojosetup/miniz.h:282-286, 457-510). */
module OutWindow {
  import opened Bits
  import opened Rfc1951

  /** 2^64, the value of the index mask plus one when nothing wraps. */
  const NO_WRAP: nat := 0x1_0000_0000_0000_0000

  /** Where byte k of the output is, when the next byte goes to index at. */
  function Index(k: nat, total: nat, at: nat, size: nat): int {
    if k + at >= total then k + at - total else k + at - total + size
  }

  /** Byte k of out is in its place in the buffer. */
  ghost predicate InPlace(buf: seq<Byte>, size: nat, out: seq<Byte>, at: nat, k: nat)
    requires k < |out|
  {
    var i := Index(k, |out|, at, size);
    0 <= i < |buf| && buf[i] == out[k]
  }

  /** The last size bytes of out are in the ring, the next one goes to index at. */
  ghost predicate Ring(buf: seq<Byte>, size: nat, out: seq<Byte>, at: nat) {
    forall k :: 0 <= k < |out| && |out| - size <= k ==> InPlace(buf, size, out, at, k)
  }

  /** (from - dist) & (size - 1) for a size that is a power of two. */
  function Masked(from: nat, dist: nat, size: nat): int
    requires size > 0
  {
    (from - dist) % size
  }

  /** Putting a byte at the ring's index at. */
  lemma RingPut(buf: seq<Byte>, size: nat, out: seq<Byte>, at: nat, b: Byte)
    requires Ring(buf, size, out, at) && at < |buf| && at < size
    ensures Ring(buf[at := b], size, out + [b], at + 1)
  {
    var buf', out', at' := buf[at := b], out + [b], at + 1;
    forall k | 0 <= k < |out'| && |out'| - size <= k ensures InPlace(buf', size, out', at', k) {
      if k < |out| {
        assert InPlace(buf, size, out, at, k);
      }
    }
  }

  /** The end of the ring is its start. */
  lemma RingWraps(buf: seq<Byte>, size: nat, out: seq<Byte>)
    requires Ring(buf, size, out, size)
    ensures Ring(buf, size, out, 0)
  {
    forall k | 0 <= k < |out| && |out| - size <= k ensures InPlace(buf, size, out, 0, k) {
      assert InPlace(buf, size, out, size, k);
    }
  }

  /** The byte dist back, in a ring. */
  lemma RingSource(buf: seq<Byte>, size: nat, out: seq<Byte>, at: nat, dist: nat)
    requires Ring(buf, size, out, at) && 0 < dist <= size && dist <= |out|
    ensures var i := Back(at, dist, size); 0 <= i < |buf| && buf[i] == out[|out| - dist]
  {
    assert InPlace(buf, size, out, at, |out| - dist);
  }

  /** A running index that is whole laps ahead of at. */
  ghost predicate Laps(from: nat, at: nat, size: nat)
    requires size > 0
  {
    from >= at && (from - at) % size == 0
  }

  lemma NextLap(from: nat, size: nat)
    requires size > 0 && Laps(from, size, size)
    ensures Laps(from, 0, size)
  {
    var q := (from - size) / size;
    assert from == (q + 1) * size by { assert (q + 1) * size == q * size + size; }
    ModIs(from, size, q + 1, 0);
  }

  /** Where the byte dist back is, seen from index at. */
  function Back(at: nat, dist: nat, size: nat): int {
    if dist <= at then at - dist else at - dist + size
  }

  /** The masked difference is the ring index, whatever laps the index has run. */
  lemma MaskedIs(from: nat, at: nat, dist: nat, size: nat)
    requires size > 0 && at < size && Laps(from, at, size) && 0 < dist <= size
    ensures Masked(from, dist, size) == Back(at, dist, size)
  {
    var q := (from - at) / size;
    assert from == q * size + at;
    if dist <= at {
      ModIs(from - dist, size, q, at - dist);
    } else {
      assert (q - 1) * size == q * size - size;
      ModIs(from - dist, size, q - 1, at - dist + size);
    }
  }

  lemma ModIs(x: int, d: int, q: int, r: int)
    requires d > 0 && x == q * d + r && 0 <= r < d
    ensures x % d == r
  {
    var e, m := x / d, x % d;
    assert x == e * d + m;
    assert (q - e) * d == q * d - e * d;
    assert (e - q) * d == e * d - q * d;
    if e < q {
      MulAtLeast(q - e, d);
    } else if e > q {
      MulAtLeast(e - q, d);
    }
  }

  lemma MulAtLeast(k: int, d: int)
    requires k >= 1 && d > 0
    ensures k * d >= d
  {
    assert k * d == (k - 1) * d + d;
  }

  class Window {
    var buf: array<Byte>
    // pOut_buf_next, pOut_buf_cur, pOut_buf_end as indices, and the mask plus one
    var next: nat
    var cur: nat
    var end: nat
    var size: nat
    // all output so far, and the part of it before this call
    ghost var out: seq<Byte>
    ghost var before: seq<Byte>

    ghost predicate Valid()
      reads this, buf
    {
      && next <= cur <= end <= buf.Length && end <= size && 0 < size
      && out == before + buf[next..cur]
      && Ring(buf[..], size, out, cur)
    }

    constructor ()
      ensures Valid() && out == [] && before == [] && fresh(buf) && cur == 0 && next == 0 && size == 32768
    {
      buf := new Byte[0];
      next, cur, end, size := 0, 0, 0, 32768;
      out, before := [], [];
    }

    /** A new call that writes to the buffer's region from next to end. */
    method Begin(buf: array<Byte>, next: nat, end: nat, size: nat)
      requires next <= end <= buf.Length && end <= size && 0 < size && Ring(buf[..], size, out, next)
      modifies this
      ensures Valid() && out == old(out) && before == out
      ensures this.buf == buf && this.next == next && cur == next && this.end == end && this.size == size
    {
      this.buf, this.next, cur, this.end, this.size := buf, next, next, end, size;
      before := out;
    }

    predicate Full()
      reads this
    {
      cur >= end
    }

    /** *pOut_buf_cur++ = b */
    method Put(b: Byte)
      requires Valid() && !Full()
      modifies this`cur, this`out, buf
      ensures Valid() && out == old(out) + [b] && cur == old(cur) + 1
    {
      RingPut(buf[..], size, out, cur, b);
      ghost var was := buf[..];
      buf[cur] := b;
      assert buf[..] == was[cur := b];
      assert buf[next..cur] == was[next..cur];
      cur := cur + 1;
      assert buf[next..cur] == was[next..cur - 1] + [b];
      assert before + was[next..cur - 1] + [b] == before + (was[next..cur - 1] + [b]);
      out := out + [b];
    }

    /** One byte of a match from index src. */
    method CopyOne(src: nat, dist: nat)
      requires Valid() && !Full() && 0 < dist <= size && dist <= |out| && src == Back(cur, dist, size)
      modifies this`cur, this`out, buf
      ensures Valid() && out == old(out) + [old(out)[|old(out)| - dist]] && cur == old(cur) + 1
    {
      RingSource(buf[..], size, out, cur, dist);
      Put(buf[src]);
    }

    /** The byte loop of lines 465-473: stops when the region is full; left
        bytes are still to copy then. */
    method CopyWrapped(dist: nat, n: nat, start: nat) returns (left: nat, from: nat)
      requires Valid() && 0 < dist <= size && dist <= |out| && Laps(start, cur, size)
      modifies this`cur, this`out, buf
      ensures Valid() && |old(out)| <= |out| && Laps(from, cur, size)
      ensures CopyMatch(out, dist, left) == CopyMatch(old(out), dist, n)
      ensures left > 0 ==> Full()
    {
      hide Ring;
      left, from := n, start;
      while left > 0 && !Full()
        invariant Valid() && |old(out)| <= |out| && Laps(from, cur, size) && 0 <= left <= n
        invariant CopyMatch(out, dist, left) == CopyMatch(old(out), dist, n)
      {
        MaskedIs(from, cur, dist, size);
        RingSource(buf[..], size, out, cur, dist);
        CopyOne(Masked(from, dist, size), dist);
        left, from := left - 1, from + 1;
      }
    }

    /** Four bytes are read before four are written (lines 480-481). */
    method CopyWord(src: nat, dist: nat, ghost m: nat)
      requires Valid() && cur + 4 <= end && 4 <= dist <= size && dist <= |out|
      requires src == Back(cur, dist, size) && src + 4 <= size && src + 4 <= buf.Length
      modifies this`cur, this`out, buf
      ensures Valid() && cur == old(cur) + 4 && |out| == |old(out)| + 4
      ensures CopyMatch(out, dist, m) == CopyMatch(old(out), dist, m + 4)
    {
      hide Ring;
      var b0, b1, b2, b3 := buf[src], buf[src + 1], buf[src + 2], buf[src + 3];
      WordSource(src, dist);
      Put(b0);
      Put(b1);
      Put(b2);
      Put(b3);
      WordMatches(old(out), dist, out, m);
    }

    lemma WordSource(src: nat, dist: nat)
      requires Valid() && cur + 4 <= end && 4 <= dist <= size && dist <= |out|
      requires src == Back(cur, dist, size) && src + 4 <= size && src + 4 <= buf.Length
      ensures out[|out| - dist..|out| - dist + 4] == [buf[src], buf[src + 1], buf[src + 2], buf[src + 3]]
    {
      assert InPlace(buf[..], size, out, cur, |out| - dist);
      assert InPlace(buf[..], size, out, cur, |out| - dist + 1);
      assert InPlace(buf[..], size, out, cur, |out| - dist + 2);
      assert InPlace(buf[..], size, out, cur, |out| - dist + 3);
    }

    /** The pair of word copies repeated while eight bytes are left (lines 477-483). */
    method CopyEights(src0: nat, dist: nat, n: nat, ghost m: nat) returns (src: nat)
      requires Valid() && 8 <= n && n % 8 == 0 && n <= dist <= size && dist <= |out|
      requires src0 == Back(cur, dist, size) && cur + n <= end && src0 + n <= end
      modifies this`cur, this`out, buf
      ensures Valid() && cur == old(cur) + n && |out| == |old(out)| + n && src == src0 + n
      ensures CopyMatch(out, dist, m) == CopyMatch(old(out), dist, n + m)
    {
      hide Ring, CopyMatch;
      src := src0;
      var srcEnd := src0 + n;
      ghost var left := n;
      while src < srcEnd
        invariant Valid() && left % 8 == 0 && src + left == srcEnd && 0 <= left <= n
        invariant cur + left == old(cur) + n && |out| + left == |old(out)| + n
        invariant src < srcEnd ==> src == Back(cur, dist, size)
        invariant CopyMatch(out, dist, left + m) == CopyMatch(old(out), dist, n + m)
      {
        CopyWord(src, dist, left - 4 + m);
        CopyWord(src + 4, dist, left - 8 + m);
        src, left := src + 8, left - 8;
      }
    }

    /** Three bytes in a row. */
    method CopyThree(src: nat, dist: nat, ghost m: nat)
      requires Valid() && 0 < dist <= size && dist <= |out|
      requires src == Back(cur, dist, size) && cur + 3 <= end && src + 3 <= end
      modifies this`cur, this`out, buf
      ensures Valid() && cur == old(cur) + 3 && |out| == |old(out)| + 3
      ensures CopyMatch(out, dist, m) == CopyMatch(old(out), dist, m + 3)
    {
      hide Ring;
      CopyOne(src, dist);
      assert CopyMatch(out, dist, m + 2) == CopyMatch(old(out), dist, m + 3);
      CopyOne(src + 1, dist);
      assert CopyMatch(out, dist, m + 1) == CopyMatch(old(out), dist, m + 3);
      CopyOne(src + 2, dist);
    }

    /** Three bytes at a time, then the rest (lines 497-510). */
    method CopyThrees(src0: nat, dist: nat, n: nat)
      requires Valid() && 3 <= n && 0 < dist <= size && dist <= |out|
      requires src0 == Back(cur, dist, size) && cur + n <= end && src0 + n <= end
      modifies this`cur, this`out, buf
      ensures Valid() && out == CopyMatch(old(out), dist, n)
    {
      hide Ring;
      var src, counter := src0, n;
      while counter > 2
        invariant Valid() && 0 <= counter <= n && |old(out)| <= |out|
        invariant cur + counter == old(cur) + n && src + counter == src0 + n
        invariant counter > 0 ==> src == Back(cur, dist, size)
        invariant CopyMatch(out, dist, counter) == CopyMatch(old(out), dist, n)
      {
        CopyThree(src, dist, counter - 3);
        src, counter := src + 3, counter - 3;
      }
      if counter > 0 {
        CopyOne(src, dist);
        assert CopyMatch(out, dist, counter - 1) == CopyMatch(old(out), dist, n);
        if counter > 1 {
          CopyOne(src + 1, dist);
          assert CopyMatch(out, dist, counter - 2) == CopyMatch(old(out), dist, n);
        }
      }
    }

    /** The whole copy of lines 463-510: false if the region is full before the
        match ends; left bytes are still to copy then, from index from on. */
    method Copy(dist: nat, n: nat, wide: bool) returns (done: bool, left: nat, from: nat)
      requires Valid() && 3 <= n && 0 < dist <= size && dist <= |out|
      modifies this`cur, this`out, buf
      ensures Valid() && |old(out)| <= |out| && Laps(from, cur, size)
      ensures done ==> out == CopyMatch(old(out), dist, n)
      ensures !done ==> left > 0 && Full() && CopyMatch(out, dist, left) == CopyMatch(old(out), dist, n)
    {
      hide Ring;
      if cur < size {
        MaskedIs(cur, cur, dist, size);
      }
      var src := Masked(cur, dist, size);
      from := cur;
      if (if cur > src then cur else src) + n > end {
        left, from := CopyWrapped(dist, n, cur);
        done := left == 0;
      } else if wide && 9 <= n <= dist {
        done, left := true, 0;
        src := CopyEights(src, dist, n / 8 * 8, n % 8);
        CopyRest(src, dist, n % 8);
        from := cur;
      } else {
        done, left := true, 0;
        CopyThrees(src, dist, n);
        from := cur;
      }
    }

    /** What the eights leave: at most two bytes singly, else threes (lines 484-510). */
    method CopyRest(src: nat, dist: nat, n: nat)
      requires Valid() && 0 < dist <= size && dist <= |out|
      requires (n > 0 ==> src == Back(cur, dist, size)) && cur + n <= end && src + n <= end
      modifies this`cur, this`out, buf
      ensures Valid() && out == CopyMatch(old(out), dist, n)
    {
      hide Ring;
      if n >= 3 {
        CopyThrees(src, dist, n);
      } else if n > 0 {
        CopyOne(src, dist);
        assert CopyMatch(out, dist, n - 1) == CopyMatch(old(out), dist, n);
        if n > 1 {
          CopyOne(src + 1, dist);
          assert CopyMatch(out, dist, n - 2) == CopyMatch(old(out), dist, n);
        }
      }
    }
  }

  lemma WordMatches(out: seq<Byte>, dist: nat, out': seq<Byte>, m: nat)
    requires 4 <= dist <= |out| && out' == out + out[|out| - dist..|out| - dist + 4]
    ensures CopyMatch(out', dist, m) == CopyMatch(out, dist, m + 4)
  {
    var o1 := out + [out[|out| - dist]];
    var o2 := o1 + [o1[|o1| - dist]];
    var o3 := o2 + [o2[|o2| - dist]];
    var o4 := o3 + [o3[|o3| - dist]];
    assert out' == o4;
    assert CopyMatch(out, dist, m + 4) == CopyMatch(o1, dist, m + 3);
    assert CopyMatch(o1, dist, m + 3) == CopyMatch(o2, dist, m + 2);
    assert CopyMatch(o2, dist, m + 2) == CopyMatch(o3, dist, m + 1);
    assert CopyMatch(o3, dist, m + 1) == CopyMatch(o4, dist, m);
  }
}
