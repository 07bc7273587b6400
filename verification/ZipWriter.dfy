/** Writing the members of a ZIP archive, field by field (sections 4.3.7 and 4.4 of
    the ZIP file format specification), and getting them back through ZIP_openRead
    and ZIP_read. */
module ZipWriter {
  import opened Bits
  import opened Names
  import opened ZipEntry
  import opened ZipFind
  import opened ZipResolve
  import opened ZipFile
  import opened ZipOpen
  import ZipSort
  import Rfc1951
  import BitWriter
  import StreamWriter

  // ---- numbers, low byte first

  function Two(v: nat): (s: seq<Byte>)
    ensures |s| == 2
  {
    [v % 256, v / 256 % 256]
  }

  function Four(v: nat): (s: seq<Byte>)
    ensures |s| == 4
  {
    Two(v) + Two(v / 65536)
  }

  ghost predicate HasBytes(data: seq<Byte>, p: nat, s: seq<Byte>) {
    p + |s| <= |data| && data[p..p + |s|] == s
  }

  lemma Split(data: seq<Byte>, p: nat, a: seq<Byte>, b: seq<Byte>)
    requires HasBytes(data, p, a + b)
    ensures HasBytes(data, p, a) && HasBytes(data, p + |a|, b)
  {
    var s := data[p..p + |a + b|];
    assert s[..|a|] == a && s[|a|..] == b;
    assert data[p..p + |a|] == s[..|a|] && data[p + |a|..p + |a| + |b|] == s[|a|..];
  }

  lemma TwoRead(data: seq<Byte>, p: nat, v: nat)
    requires HasBytes(data, p, Two(v)) && v < 65536
    ensures p + 2 <= |data| && Ui16(data, p) == v
  {
    assert data[p] == data[p..p + 2][0] && data[p + 1] == data[p..p + 2][1];
  }

  lemma FourRead(data: seq<Byte>, p: nat, v: nat)
    requires HasBytes(data, p, Four(v)) && v < 0x1_0000_0000
    ensures p + 4 <= |data| && Ui32(data, p) == v
  {
    Split(data, p, Two(v), Two(v / 65536));
    assert Two(v) == Two(v % 65536) by { Halves(v); }
    TwoRead(data, p, v % 65536);
    TwoRead(data, p + 2, v / 65536);
  }

  lemma Halves(v: nat)
    ensures v % 65536 % 256 == v % 256 && v % 65536 / 256 % 256 == v / 256 % 256
  {
    var q := v / 65536;
    assert v == 65536 * q + v % 65536;
    assert v / 256 == 256 * q + v % 65536 / 256;
  }

  // ---- a member

  /** The local header. The name and the extra field are any bytes. */
  datatype Local = Local(version: nat, flags: nat, method_: nat, time: nat, crc: nat, packed: nat, size: nat,
                         name: seq<Byte>, extra: seq<Byte>)

  predicate InRange(l: Local) {
    && l.version < 65536 && l.flags < 65536 && l.method_ < 65536 && l.time < 0x1_0000_0000 && l.crc < 0x1_0000_0000
    && l.packed < 0x1_0000_0000 && l.size < 0x1_0000_0000 && |l.name| < 65536 && |l.extra| < 65536
  }

  /** P, K, 3, 4, and then the fields in their order. */
  function LocalHeader(l: Local): seq<Byte> {
    [0x50, 0x4b, 3, 4] + (Two(l.version) + (Two(l.flags) + (Two(l.method_) + (Four(l.time) + Rest(l)))))
  }

  function Rest(l: Local): seq<Byte> {
    Four(l.crc) + (Four(l.packed) + (Four(l.size) + (Two(|l.name|) + (Two(|l.extra|) + (l.name + l.extra)))))
  }

  /** What an archiver may write there: the checksum and the sizes of the central
      directory, or zeros if they were not known yet, or all ones for sizes that
      are in an extra field. */
  predicate Agrees(l: Local, c: Central) {
    && l.version == c.versionNeeded && l.method_ == c.method_ && (l.crc == 0 || l.crc == c.crc)
    && (l.packed == 0 || l.packed == 0xFFFFFFFF || l.packed == c.compressedSize)
    && (l.size == 0 || l.size == 0xFFFFFFFF || l.size == c.uncompressedSize)
  }

  lemma SignatureRead(data: seq<Byte>, p: nat)
    requires HasBytes(data, p, [0x50, 0x4b, 3, 4])
    ensures p + 4 <= |data| && Ui32(data, p) == ZIP_LOCAL_FILE_SIG
  {
    var s := data[p..p + 4];
    assert data[p] == s[0] && data[p + 1] == s[1] && data[p + 2] == s[2] && data[p + 3] == s[3];
  }

  /** A written header is accepted exactly when it agrees with the directory, and
      what lies behind it is behind its name and its extra field. */
  lemma HeaderRead(data: seq<Byte>, p: nat, l: Local, c: Central)
    requires InRange(l) && HasBytes(data, p, LocalHeader(l))
    ensures HeaderAgrees(data, c, p) <==> Agrees(l, c)
    ensures p + 30 <= |data| && HeaderSize(data, p) == |LocalHeader(l)|
  {
    hide HasBytes, Ui16, Ui32, Two, Four;
    Split(data, p, [0x50, 0x4b, 3, 4], Two(l.version) + (Two(l.flags) + (Two(l.method_) + (Four(l.time) + Rest(l)))));
    SignatureRead(data, p);
    Split(data, p + 4, Two(l.version), Two(l.flags) + (Two(l.method_) + (Four(l.time) + Rest(l))));
    TwoRead(data, p + 4, l.version);
    Split(data, p + 6, Two(l.flags), Two(l.method_) + (Four(l.time) + Rest(l)));
    Split(data, p + 8, Two(l.method_), Four(l.time) + Rest(l));
    TwoRead(data, p + 8, l.method_);
    Split(data, p + 10, Four(l.time), Rest(l));
    RestRead(data, p + 14, l);
  }

  lemma RestRead(data: seq<Byte>, p: nat, l: Local)
    requires InRange(l) && HasBytes(data, p, Rest(l))
    ensures p + 16 <= |data| && Ui32(data, p) == l.crc && Ui32(data, p + 4) == l.packed && Ui32(data, p + 8) == l.size
    ensures Ui16(data, p + 12) == |l.name| && Ui16(data, p + 14) == |l.extra| && |Rest(l)| == 16 + |l.name| + |l.extra|
  {
    hide HasBytes, Ui16, Ui32, Two, Four;
    Split(data, p, Four(l.crc), Four(l.packed) + (Four(l.size) + (Two(|l.name|) + (Two(|l.extra|) + (l.name + l.extra)))));
    FourRead(data, p, l.crc);
    Split(data, p + 4, Four(l.packed), Four(l.size) + (Two(|l.name|) + (Two(|l.extra|) + (l.name + l.extra))));
    FourRead(data, p + 4, l.packed);
    Split(data, p + 8, Four(l.size), Two(|l.name|) + (Two(|l.extra|) + (l.name + l.extra)));
    FourRead(data, p + 8, l.size);
    Split(data, p + 12, Two(|l.name|), Two(|l.extra|) + (l.name + l.extra));
    TwoRead(data, p + 12, |l.name|);
    Split(data, p + 14, Two(|l.extra|), l.name + l.extra);
    TwoRead(data, p + 14, |l.extra|);
  }

  /** How a member's bytes are made: as they are (method 0), or as some deflate
      stream (method 8). */
  datatype Packing = Store | Deflate(stream: seq<Byte>)

  datatype Member = Member(local: Local, packing: Packing, plain: seq<Byte>)

  function Payload(m: Member): seq<Byte> {
    match m.packing
    case Store => m.plain
    case Deflate(stream) => stream
  }

  function MethodOf(m: Member): nat {
    match m.packing
    case Store => 0
    case Deflate(_) => 8
  }

  /** The member is in the archive, and the directory has its sizes. */
  ghost predicate Holds(data: seq<Byte>, e: Entry, m: Member) {
    && InRange(m.local) && Agrees(m.local, e.central) && HasBytes(data, e.offset, LocalHeader(m.local) + Payload(m))
    && e.central.method_ == MethodOf(m) && e.central.compressedSize == |Payload(m)|
    && e.central.uncompressedSize == |m.plain| < 0x1_0000_0000
    && Unpacks(m)
  }

  ghost predicate Unpacks(m: Member) {
    match m.packing
    case Store => true
    case Deflate(stream) => var o := Rfc1951.Inflate(stream); o.Done? && o.out == m.plain
  }

  /** Written blocks are such a stream. */
  lemma WrittenUnpacks(m: Member, blocks: seq<StreamWriter.Piece>)
    requires StreamWriter.Tell(blocks, m.plain, 0)
    requires m.packing == Deflate(BitWriter.Bytes(StreamWriter.StreamBits(blocks, 0)))
    ensures Unpacks(m)
  {
    hide Rfc1951.Inflate, StreamWriter.Tell, StreamWriter.StreamBits, BitWriter.Bytes;
    StreamWriter.WrittenInflates(blocks, m.plain);
  }

  /** Its local header is accepted, and where it says that the data is, the data
      is, or what decodes to it. */
  lemma MemberRead(d: Listing, i: nat, m: Member)
    requires i < |d.base| && Holds(d.data, d.base[i], m)
    ensures d.HeaderOk(i) && d.DataAt(i) == d.base[i].offset + |LocalHeader(m.local)|
    ensures DataIs(d.data, d.base[i].(offset := d.DataAt(i)), m.plain)
  {
    hide HasBytes, HeaderAgrees, HeaderSize, Rfc1951.Inflate, LocalHeader, InRange, Agrees;
    var e := d.base[i];
    Split(d.data, e.offset, LocalHeader(m.local), Payload(m));
    HeaderRead(d.data, e.offset, m.local, e.central);
    Whereabouts(d.data, d.DataAt(i), Payload(m));
  }

  lemma Whereabouts(data: seq<Byte>, p: nat, s: seq<Byte>)
    requires HasBytes(data, p, s)
    ensures p + |s| <= |data| && data[p..p + |s|] == s
  {
  }

  /** An archive in which every regular entry is such a member. */
  ghost predicate Packed(d: Listing, members: seq<Member>) {
    |members| == |d.base| && forall i :: 0 <= i < |d.base| && !d.IsLink(i) ==> Holds(d.data, d.base[i], members[i])
  }

  ghost function Contents(members: seq<Member>): (r: seq<seq<Byte>>)
    ensures |r| == |members| && forall i :: 0 <= i < |r| ==> r[i] == members[i].plain
  {
    seq(|members|, i requires 0 <= i < |members| => members[i].plain)
  }

  lemma PackedContent(d: Listing, members: seq<Member>)
    requires Packed(d, members)
    ensures ContentOk(d, Contents(members))
    ensures forall i :: 0 <= i < |d.base| && !d.IsLink(i) ==> d.Good(i) && d.Final(i) == i
  {
    hide Holds, DataIs, HeaderAgrees, HeaderSize, Listing.Good, Listing.Final;
    forall i | 0 <= i < |d.base| && !d.IsLink(i)
      ensures d.HeaderOk(i) && DataIs(d.data, d.base[i].(offset := d.DataAt(i)), members[i].plain)
      ensures d.Good(i) && d.Final(i) == i
    {
      MemberRead(d, i, members[i]);
      d.GoodFile(i);
    }
  }

  /** Opening an entry and reading all of it gives what was packed. A regular entry
      always opens; a link opens exactly when it leads to one, and then gives that. */
  method ReadBack(a: Archive, fnm: Name, ghost members: seq<Member>, wide: bool, wideBits: bool) returns (buf: array?<Byte>)
    requires a.Holds([]) && ZipSort.Sorted(a.d.base) && Packed(a.d, members)
    modifies a.entries
    ensures a.Holds([])
    ensures buf != null <==> a.d.Search(fnm).Some? && a.d.Good(a.d.Search(fnm).value)
    ensures a.d.Search(fnm).Some? && !a.d.IsLink(a.d.Search(fnm).value) ==>
      buf != null && buf[..] == members[a.d.Search(fnm).value].plain
    ensures buf != null ==> buf[..] == members[a.d.Final(a.d.Search(fnm).value)].plain
  {
    hide Holds, DataIs, Listing.Walk, Listing.Next, Listing.Good, Listing.Final, HeaderAgrees, Listing.Holds, Listing.Search,
      HeaderSize, Listing.Settled, File.Valid, ZipSort.Sorted, Gives;
    PackedContent(a.d, members);
    buf := null;
    var file, fileExists := OpenRead(a, fnm, Contents(members), wide, wideBits);
    if file != null {
      file.Position();
      file.OwnsAll();
      var n := file.entry.central.uncompressedSize;
      buf := new Byte[n];
      assert buf !in file.repr;
      var k := file.Read(buf, 0, 1, n);
      ObjectsFit(n, 1, n);
      AllOf(buf[..], file.plain);
    }
  }

  lemma AllOf(buf: seq<Byte>, plain: seq<Byte>)
    requires |buf| == |plain| && exists was :: Gives(buf, was, 0, plain[0..|plain|])
    ensures buf == plain
  {
    assert buf[0..|plain|] == buf && plain[0..|plain|] == plain;
  }
}
