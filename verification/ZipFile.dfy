/** A file inside a ZIP archive: sequential decompression made to look like a
    random-access file (mk/linux/mojosetup/archive_zip.c:413-563, 1882-1927). */
module ZipFile {
  import opened Bits
  import opened Rfc1951
  import opened Rfc1950
  import opened OutWindow
  import opened Tinfl
  import opened MzInflate
  import opened ZipEntry

  const ZIP_READBUFSIZE: nat := 131072

  const COMPMETH_NONE: nat := 0

  /** The archive file behind a MojoInput: reads are cut short by its end only. */
  class Input {
    const data: seq<Byte>
    var pos: nat

    constructor (data: seq<Byte>)
      ensures this.data == data && pos == 0
    {
      this.data, pos := data, 0;
    }

    function Rest(): nat
      reads this
    {
      if pos <= |data| then |data| - pos else 0
    }

    method Read(buf: array<Byte>, at: nat, n: nat) returns (rc: nat)
      requires at + n <= buf.Length
      modifies this, buf
      ensures rc == (if n <= old(Rest()) then n else old(Rest())) && pos == old(pos) + rc
      ensures rc > 0 ==> old(pos) + rc <= |data| && buf[at..at + rc] == data[old(pos)..old(pos) + rc]
      ensures forall i :: 0 <= i < buf.Length && !(at <= i < at + rc) ==> buf[i] == old(buf[i])
    {
      rc := if n <= Rest() then n else Rest();
      forall i | 0 <= i < rc { buf[at + i] := data[pos + i]; }
      pos := pos + rc;
    }

    method Seek(pos: nat)
      modifies this
      ensures this.pos == pos
    {
      this.pos := pos;
    }
  }

  /** How many objects a read of a file with avail bytes left gives. */
  function Objects(avail: nat, objSize: nat, objCount: nat): (n: nat) {
    if objSize == 0 then 0 else if objSize * objCount <= avail then objCount else avail / objSize
  }

  /** Whole objects fit, and one more, if asked for, does not. */
  lemma ObjectsFit(avail: nat, objSize: nat, objCount: nat)
    ensures var n := Objects(avail, objSize, objCount);
      n <= objCount && n * objSize <= avail && (n < objCount && objSize > 0 ==> avail < (n + 1) * objSize)
    ensures objSize == 1 ==> Objects(avail, objSize, objCount) == if objCount <= avail then objCount else avail
  {
    if objSize > 0 && avail < objSize * objCount {
      DivOf(avail, objSize);
      var n := avail / objSize;
      if n >= objCount {
        MulMono(objCount, n, objSize);
      }
    }
  }

  /** One request of a caller. */
  datatype Request = Request(objSize: nat, objCount: nat)

  /** How many bytes a request takes. */
  function Bytes(avail: nat, r: Request): (n: nat)
    ensures n <= avail
    ensures r.objSize == 1 ==> n == if r.objCount <= avail then r.objCount else avail
  {
    ObjectsFit(avail, r.objSize, r.objCount);
    Objects(avail, r.objSize, r.objCount) * r.objSize
  }

  /** What a run of reads gives, each from where the one before it stopped. */
  function Reads(plain: seq<Byte>, pos: nat, reqs: seq<Request>): (r: seq<Byte>)
    requires pos <= |plain|
    decreases |reqs|
  {
    if reqs == [] then [] else
      var n := Bytes(|plain| - pos, reqs[0]);
      plain[pos..pos + n] + Reads(plain, pos + n, reqs[1..])
  }

  /** A run of reads gives one slice of the data. */
  lemma {:induction false} ReadsAreOneSlice(plain: seq<Byte>, pos: nat, reqs: seq<Request>)
    requires pos <= |plain|
    ensures pos + |Reads(plain, pos, reqs)| <= |plain|
    ensures Reads(plain, pos, reqs) == plain[pos..pos + |Reads(plain, pos, reqs)|]
    decreases |reqs|
  {
    hide Bytes;
    if reqs != [] {
      ReadsAreOneSlice(plain, pos + Bytes(|plain| - pos, reqs[0]), reqs[1..]);
    }
  }

  function Total(reqs: seq<Request>): nat {
    if reqs == [] then 0 else reqs[0].objCount + Total(reqs[1..])
  }

  /** With single bytes as objects it is all that was asked for, or all there is. */
  lemma {:induction false} ReadsTakeAll(plain: seq<Byte>, pos: nat, reqs: seq<Request>)
    requires pos <= |plain| && forall i :: 0 <= i < |reqs| ==> reqs[i].objSize == 1
    ensures |Reads(plain, pos, reqs)| == if pos + Total(reqs) <= |plain| then Total(reqs) else |plain| - pos
    decreases |reqs|
  {
    hide Bytes;
    if reqs != [] {
      ReadsTakeAll(plain, pos + Bytes(|plain| - pos, reqs[0]), reqs[1..]);
    }
  }

  lemma DivOf(a: nat, d: nat)
    requires d > 0
    ensures a - a % d == a / d * d && a / d * d <= a < (a / d + 1) * d && a / d * d / d == a / d
  {
    var q := a / d;
    assert a == q * d + a % d;
    assert (q + 1) * d == q * d + d;
    DivExact(q, d);
  }

  lemma DivExact(q: nat, d: nat)
    requires d > 0
    ensures q * d / d == q
  {
    var e := q * d / d;
    assert q * d == e * d + q * d % d;
    if e < q {
      MulLess(e, q, d);
    } else if e > q {
      MulLess(q, e, d);
    }
  }

  lemma MulLess(a: nat, b: nat, d: nat)
    requires a < b
    ensures a * d + d <= b * d
  {
    MulMono(a + 1, b, d);
    assert (a + 1) * d == a * d + d;
  }

  lemma MulMono(a: nat, b: nat, d: nat)
    requires a <= b
    ensures a * d <= b * d
  {
    assert b * d == a * d + (b - a) * d;
  }

  lemma SlicePiece(s: seq<Byte>, a: nat, b: nat, k: nat, n: nat)
    requires a + k + n <= b <= |s|
    ensures s[a..b][k..k + n] == s[a + k..a + k + n]
  {
    var x, y := s[a..b][k..k + n], s[a + k..a + k + n];
    assert forall i :: 0 <= i < n ==> x[i] == y[i];
  }

  /** The bytes are in the buffer at at, and the rest of it is as before. */
  ghost predicate Gives(buf: seq<Byte>, was: seq<Byte>, at: nat, bytes: seq<Byte>) {
    && |buf| == |was| && at + |bytes| <= |buf|
    && buf[at..at + |bytes|] == bytes && buf[..at] == was[..at] && buf[at + |bytes|..] == was[at + |bytes|..]
  }

  /** The entry's bytes in the archive are its data, or decode to it. */
  ghost predicate DataIs(data: seq<Byte>, e: Entry, plain: seq<Byte>) {
    && |plain| == e.central.uncompressedSize < 0x1_0000_0000 && e.offset + e.central.compressedSize <= |data|
    && (if e.central.method_ == COMPMETH_NONE then
          e.offset + |plain| <= |data| && plain == data[e.offset..e.offset + |plain|]
        else
          var o := Inflate(data[e.offset..e.offset + e.central.compressedSize]);
          o.Done? && o.out == plain)
  }

  class File {
    const handle: Input
    const entry: Entry
    const buffer: array<Byte>
    const wide: bool
    const wideBits: bool
    // initialised for compressed entries only
    var stream: Stream?
    var compressedPosition: nat
    var uncompressedPosition: nat
    // the entry's data
    ghost const plain: seq<Byte>
    ghost var repr: set<object>

    ghost predicate DataOk() {
      DataIs(handle.data, entry, plain)
    }

    predicate Stored() {
      entry.central.method_ == COMPMETH_NONE
    }

    ghost function Packed(): seq<Byte>
      requires entry.offset + entry.central.compressedSize <= |handle.data|
    {
      handle.data[entry.offset..entry.offset + entry.central.compressedSize]
    }

    /** The file's own objects, apart from each other. */
    ghost predicate Owns()
      reads this, stream, if stream == null then {} else {stream.decomp.w}
    {
      && this in repr && handle in repr && buffer in repr && (stream != null ==> stream.Frame() <= repr)
      && buffer.Length == ZIP_READBUFSIZE
      && (stream != null ==> this !in stream.Frame() && handle !in stream.Frame() && buffer !in stream.Frame() && stream.outBuf != buffer)
    }

    /** The stream decodes the entry; what it took is what was read of it. */
    ghost predicate StreamOk()
      requires stream != null && DataOk() && !Stored()
      reads this, handle, stream, stream.Frame(), stream.decomp.w
    {
      && stream.Valid() && !stream.oneShot && !stream.hasFlushed
      && stream.Src() == Packed() && stream.Target() == Inflate(Packed())
      && stream.Taken() + |stream.input| == compressedPosition && handle.pos == entry.offset + compressedPosition
    }

    ghost predicate Valid()
      reads this, handle, stream, if stream == null then {} else {stream.decomp.w} + stream.Frame()
    {
      && Owns() && DataOk() && uncompressedPosition <= |plain|
      && (if Stored() then handle.pos == entry.offset + uncompressedPosition
          else stream != null && StreamOk() && |stream.delivered| == uncompressedPosition)
    }

    constructor (handle: Input, entry: Entry, ghost plain: seq<Byte>, wide: bool, wideBits: bool)
      requires handle.pos == entry.offset
      requires DataIs(handle.data, entry, plain)
      ensures Valid() && uncompressedPosition == 0 && this.plain == plain && this.entry == entry && this.handle == handle
      ensures fresh(repr - {handle})
    {
      hide Inflate, Stream.Frame, Stream.Valid, Stream.Taken;
      this.handle, this.entry, this.plain, this.wide, this.wideBits := handle, entry, plain, wide, wideBits;
      compressedPosition, uncompressedPosition := 0, 0;
      var b := new Byte[ZIP_READBUFSIZE](_ => 0);
      buffer, stream := b, null;
      repr := {this, handle, b};
      new;
      if !Stored() {
        Rewind();
      }
    }

    /** A fresh raw stream at the start of the entry's data (lines 534-546 and 1905-1920). */
    method Rewind()
      requires DataOk() && !Stored() && buffer.Length == ZIP_READBUFSIZE && handle.pos == entry.offset
      requires this in repr && handle in repr && buffer in repr
      modifies this
      ensures Valid() && uncompressedPosition == 0 && fresh(repr - old(repr))
    {
      hide Inflate, Stream.Valid;
      var str := new Stream(Packed(), false, false, wide, wideBits);
      stream, compressedPosition, uncompressedPosition := str, 0, 0;
      repr := repr + str.Frame();
    }

    /** The next piece of packed data, if the last one is used up (lines 448-468). */
    method FetchPacked()
      requires Owns() && DataOk() && !Stored() && stream != null && StreamOk()
      modifies this`compressedPosition, handle, buffer, stream`input
      ensures Owns() && StreamOk() && stream.delivered == old(stream.delivered) && stream.Taken() == old(stream.Taken())
      ensures stream.Seen() == old(stream.Seen()).(input := stream.input)
      ensures stream.input == [] ==> compressedPosition == entry.central.compressedSize
    {
      hide Inflate, Stream.Valid;
      PackedRange();
      if stream.input == [] {
        var br: nat := entry.central.compressedSize - compressedPosition;
        if br > 0 {
          if br > ZIP_READBUFSIZE {
            br := ZIP_READBUFSIZE;
          }
          var rc := handle.Read(buffer, 0, br);
          compressedPosition := compressedPosition + rc;
          PackedPiece(stream.Taken(), rc);
          assert buffer[..rc] == buffer[0..rc];
          stream.SetInput(buffer[..rc]);
        }
      }
    }

    lemma PackedPiece(k: nat, n: nat)
      requires DataOk() && k + n <= entry.central.compressedSize
      ensures Packed()[k..k + n] == handle.data[entry.offset + k..entry.offset + k + n]
    {
      hide Inflate;
      SlicePiece(handle.data, entry.offset, entry.offset + entry.central.compressedSize, k, n);
    }

    lemma PackedRange()
      requires Owns() && DataOk() && !Stored() && stream != null && StreamOk()
      ensures compressedPosition <= entry.central.compressedSize == |stream.Src()|
    {
    }

    /** One turn of the loop (lines 444-474). */
    method Turn() returns (rc: Code)
      requires Owns() && DataOk() && !Stored() && stream != null && StreamOk()
      requires 0 < stream.availOut < 0x1_0000_0000 && stream.outBuf !in repr
      modifies this`compressedPosition, handle, buffer, stream.Frame(), stream.outBuf
      ensures Owns() && StreamOk() && stream.outBuf == old(stream.outBuf) && stream.Frame() <= old(stream.Frame())
      ensures Serves(Bare(old(stream.Seen())), Bare(stream.Seen()))
      ensures rc == StreamEnd ==> stream.delivered == plain
      ensures rc == Ok || rc == StreamEnd
      ensures rc == Ok ==> |stream.delivered| > |old(stream.delivered)| || stream.Taken() > old(stream.Taken())
      ensures |stream.delivered| >= |old(stream.delivered)| && stream.Taken() >= old(stream.Taken())
      ensures stream.totalOut - old(stream.totalOut) == |stream.delivered| - |old(stream.delivered)|
      ensures |stream.delivered| + stream.availOut == |old(stream.delivered)| + old(stream.availOut)
    {
      hide Inflate, Stream.Valid, Serves;
      stream.InBounds();
      FetchPacked();
      PackedRange();
      ghost var v := stream.Seen();
      rc := stream.Inflate(MZ_SYNC_FLUSH);
      ServesBare(v, stream.Seen());
      ServesCounts(v, stream.Seen());
      stream.InBounds();
    }

    /** The loop: decoding goes on until n more bytes are delivered. */
    method Drain(n: nat) returns (retval: nat)
      requires Owns() && DataOk() && !Stored() && stream != null && StreamOk()
      requires stream.availOut == n < 0x1_0000_0000 && |stream.delivered| + n <= |plain| && stream.outBuf !in repr
      modifies this`compressedPosition, handle, buffer, stream.Frame(), stream.outBuf
      ensures Owns() && StreamOk() && retval == n && stream.outBuf == old(stream.outBuf)
      ensures |stream.delivered| == |old(stream.delivered)| + n
      ensures Serves(Bare(old(stream.Seen())), Bare(stream.Seen()))
    {
      hide Inflate, Stream.Valid, Serves, Stream.Taken, Stream.Src, Stream.Target, Stream.Seen, Bare;
      PrefixOfPlain();
      stream.InBounds();
      stream.ServesItself();
      ghost var start := Bare(stream.Seen());
      retval := 0;
      while retval < n
        invariant retval <= n && Owns() && StreamOk() && stream.outBuf == old(stream.outBuf) && stream.Frame() <= old(stream.Frame())
        invariant |stream.delivered| == |old(stream.delivered)| + retval && stream.availOut == n - retval
        invariant Serves(start, Bare(stream.Seen()))
        decreases |plain| - |stream.delivered| + |Packed()| - stream.Taken()
      {
        var before := stream.totalOut;
        ghost var u := Bare(stream.Seen());
        PrefixOfPlain();
        var rc := Turn();
        PrefixOfPlain();
        ServesThen(start, u, Bare(stream.Seen()));
        retval := retval + (stream.totalOut - before);
        if rc != Ok {
          break;
        }
      }
    }

    /** Decoding the next n bytes into the caller's memory (lines 440-476). */
    method ReadPacked(buf: array<Byte>, at: nat, n: nat) returns (retval: nat)
      requires Valid() && !Stored() && uncompressedPosition + n <= |plain| && at + n <= buf.Length && buf !in repr
      modifies this`compressedPosition, handle, buffer, stream.Frame(), buf
      ensures Owns() && StreamOk() && retval == n && |stream.delivered| == uncompressedPosition + n
      ensures Gives(buf[..], old(buf[..]), at, plain[uncompressedPosition..uncompressedPosition + n])
    {
      hide Inflate, Stream.Valid, Serves, Stream.Taken, Stream.Src, Stream.Target;
      PrefixOfPlain();
      stream.SetOutput(buf, at, n);
      ghost var v := stream.Seen();
      assert v.buf == buf[..] && v.next == at && |v.delivered| == uncompressedPosition;
      retval := Drain(n);
      PrefixOfPlain();
      PieceOfPlain(v, stream.Seen(), n);
    }

    lemma PrefixOfPlain()
      requires Owns() && DataOk() && !Stored() && stream != null && StreamOk()
      ensures stream.delivered <= plain && stream.Taken() <= |Packed()|
      ensures stream.dict in repr && stream.decomp.w.buf in repr && stream.decomp.Repr() <= repr
    {
      hide Inflate, Stream.Valid;
      stream.DeliveredIsPrefix();
      stream.InBounds();
    }

    lemma PieceOfPlain(v: View, w: View, n: nat)
      requires Serves(Bare(v), Bare(w)) && w.delivered <= plain && |w.delivered| == |v.delivered| + n
      ensures Gives(w.buf, v.buf, v.next, plain[|v.delivered|..|v.delivered| + n])
    {
      assert w.delivered[|v.delivered|..] == w.buf[v.next..v.next + n];
      assert w.delivered[|v.delivered|..] == plain[|v.delivered|..|v.delivered| + n];
    }

    /** A stored entry's bytes are read as they are (line 435). */
    method ReadStored(buf: array<Byte>, at: nat, n: nat) returns (rc: nat)
      requires Valid() && Stored() && uncompressedPosition + n <= |plain| && at + n <= buf.Length && buf !in repr
      modifies handle, buf
      ensures Owns() && rc == n && handle.pos == entry.offset + uncompressedPosition + n
      ensures Gives(buf[..], old(buf[..]), at, plain[uncompressedPosition..uncompressedPosition + n])
    {
      hide Inflate, Stream.Valid;
      rc := handle.Read(buf, at, n);
      StoredPiece(uncompressedPosition, n);
      assert n == 0 ==> buf[at..at + n] == [];
    }

    lemma StoredPiece(k: nat, n: nat)
      requires DataOk() && Stored() && k + n <= |plain|
      ensures entry.offset + k + n <= |handle.data| && handle.data[entry.offset + k..entry.offset + k + n] == plain[k..k + n]
    {
      hide Inflate;
      SlicePiece(handle.data, entry.offset, entry.offset + |plain|, k, n);
    }

    /** Reading that many bytes, stored or packed; the position is not moved yet. */
    method ReadBytes(buf: array<Byte>, at: nat, n: nat) returns (got: nat)
      requires Valid() && uncompressedPosition + n <= |plain| && at + n <= buf.Length && buf !in repr
      modifies this`compressedPosition, this`uncompressedPosition, handle, buffer, buf, if stream == null then {} else stream.Frame()
      ensures Valid() && repr == old(repr) && got == n && uncompressedPosition == old(uncompressedPosition) + n
      ensures Gives(buf[..], old(buf[..]), at, plain[old(uncompressedPosition)..uncompressedPosition])
    {
      hide Inflate, Stream.Valid, DataIs, Gives;
      if Stored() {
        got := ReadStored(buf, at, n);
      } else {
        got := ReadPacked(buf, at, n);
      }
      uncompressedPosition := uncompressedPosition + got;
    }

    /** ZIP_read: as many whole objects as are left, up to what is asked for,
        straight from the entry's data at the current position. */
    method Read(buf: array<Byte>, at: nat, objSize: nat, objCount: nat) returns (n: nat)
      requires Valid() && at + objSize * objCount <= buf.Length && buf !in repr
      modifies this`compressedPosition, this`uncompressedPosition, handle, buffer, buf, if stream == null then {} else stream.Frame()
      ensures Valid() && repr == old(repr) && old(uncompressedPosition) <= uncompressedPosition <= |plain|
      ensures n == Objects(|plain| - old(uncompressedPosition), objSize, objCount)
      ensures uncompressedPosition - old(uncompressedPosition) == n * objSize
      ensures Gives(buf[..], old(buf[..]), at, plain[old(uncompressedPosition)..uncompressedPosition])
    {
      hide Inflate, Stream.Valid, File.Valid, File.Owns, Gives, Objects;
      Position();
      GivesNothing(buf[..], at);
      var maxread := WholeObjects(entry.central.uncompressedSize - uncompressedPosition, objSize, objCount);
      if maxread == 0 {
        return 0;
      }
      var got := ReadBytes(buf, at, maxread);
      n := got / objSize;
    }

    /** How many bytes are read (lines 419-431). */
    method WholeObjects(avail: nat, objSize: nat, objCount: nat) returns (maxread: nat)
      ensures maxread == Objects(avail, objSize, objCount) * objSize && maxread <= avail && maxread <= objSize * objCount
      ensures maxread == 0 ==> Objects(avail, objSize, objCount) == 0
      ensures maxread > 0 ==> objSize > 0 && maxread / objSize == Objects(avail, objSize, objCount)
    {
      hide Objects;
      maxread := objSize * objCount;
      if maxread != 0 && avail < maxread {
        maxread := avail - avail % objSize;
      }
      WholeIs(avail, objSize, objCount, maxread);
    }

    lemma WholeIs(avail: nat, objSize: nat, objCount: nat, m: nat)
      requires m == if 0 < objSize * objCount && avail < objSize * objCount then avail - avail % objSize else objSize * objCount
      ensures m == Objects(avail, objSize, objCount) * objSize && m <= avail && m <= objSize * objCount
      ensures m == 0 ==> Objects(avail, objSize, objCount) == 0
      ensures m > 0 ==> objSize > 0 && m / objSize == Objects(avail, objSize, objCount)
    {
      ObjectsAre(avail, objSize, objCount);
      hide Objects;
      if avail < objSize * objCount {
        DivOf(avail, objSize);
      } else if objSize * objCount > 0 {
        DivExact(objCount, objSize);
      }
    }

    lemma ObjectsAre(avail: nat, objSize: nat, objCount: nat)
      ensures objSize * objCount == 0 ==> Objects(avail, objSize, objCount) == 0
      ensures 0 < objSize * objCount <= avail ==> Objects(avail, objSize, objCount) == objCount
      ensures avail < objSize * objCount ==> objSize > 0 && Objects(avail, objSize, objCount) == avail / objSize
    {
    }

    lemma GivesNothing(buf: seq<Byte>, at: nat)
      requires at <= |buf|
      ensures forall k :: 0 <= k <= |plain| ==> Gives(buf, buf, at, plain[k..k])
    {
    }

    lemma Position()
      requires Valid()
      ensures uncompressedPosition <= |plain| == entry.central.uncompressedSize
    {
      hide Inflate, Stream.Valid;
    }

    /** ZIP_seek: forward by reading on, backward by starting again. */
    method Seek(offset: nat) returns (ok: bool)
      requires Valid()
      modifies repr
      ensures Valid() && fresh(repr - old(repr)) && (ok <==> offset <= |plain|)
      ensures uncompressedPosition == if ok then offset else old(uncompressedPosition)
    {
      hide Inflate, Stream.Valid, File.Valid, File.Owns, Gives, Objects;
      Position();
      OwnsAll();
      if offset > entry.central.uncompressedSize {
        return false;
      }
      if Stored() {
        SeekStored(offset);
      } else {
        if offset < uncompressedPosition {
          StartAgain();
        }
        while uncompressedPosition != offset
          invariant Valid() && fresh(repr - old(repr)) && uncompressedPosition <= offset
          decreases offset - uncompressedPosition
        {
          OwnsAll();
          var buf := new Byte[512];
          var maxread := offset - uncompressedPosition;
          if maxread > 512 {
            maxread := 512;
          }
          OneObject(|plain| - uncompressedPosition, maxread);
          var n := Read(buf, 0, maxread, 1);
          if n != 1 {
            return false;
          }
        }
      }
      return true;
    }

    lemma OwnsAll()
      requires Valid()
      ensures this in repr && handle in repr && buffer in repr && (stream != null ==> stream.Frame() <= repr)
      ensures uncompressedPosition <= |plain|
    {
      hide Inflate, Stream.Valid;
    }

    lemma OneObject(avail: nat, size: nat)
      requires 0 < size <= avail
      ensures Objects(avail, size, 1) == 1
    {
    }

    method SeekStored(offset: nat)
      requires Valid() && Stored() && offset <= |plain|
      modifies handle, this`uncompressedPosition
      ensures Valid() && uncompressedPosition == offset
    {
      hide Inflate, Stream.Valid;
      handle.Seek(offset + entry.offset);
      uncompressedPosition := offset;
    }

    method StartAgain()
      requires Valid() && !Stored()
      modifies this, handle
      ensures Valid() && fresh(repr - old(repr)) && uncompressedPosition == 0
    {
      hide Inflate, Stream.Valid;
      handle.Seek(entry.offset);
      Rewind();
    }
  }
}
