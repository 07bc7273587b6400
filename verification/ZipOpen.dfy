/** Opening a file of an archive by name
    (mk/linux/mojosetup/archive_zip.c:1845-1927). */
module ZipOpen {
  import opened Bits
  import opened Names
  import opened ZipEntry
  import opened ZipFind
  import opened ZipResolve
  import opened ZipFile
  import ZipSort
  import Rfc1951

  /** What the regular entries hold: content[f] is in good order for each of them. */
  ghost predicate ContentOk(d: Listing, content: seq<seq<Byte>>) {
    |content| == |d.base| &&
    forall f :: 0 <= f < |d.base| && d.HeaderOk(f) && !d.IsLink(f) ==> DataIs(d.data, d.base[f].(offset := d.DataAt(f)), content[f])
  }

  lemma Searched(d: Listing, fnm: Name)
    requires ZipSort.Sorted(d.base)
    ensures d.Search(fnm).Some? <==> exists i :: 0 <= i < |d.base| && d.base[i].name == fnm
  {
    FindsName(d.base, fnm, 0, |d.base| - 1);
  }

  /** The file at the end of the links is resolved as well. */
  lemma TargetData(a: Archive, i: nat, content: seq<seq<Byte>>)
    requires a.Holds([]) && ContentOk(a.d, content) && i < a.entries.Length && a.d.Good(i) && a.entries[i] == a.d.Settled(i)
    ensures var k := a.d.Final(i);
      k < a.entries.Length && k < |content| && a.entries[k] == a.d.Settled(k) && DataIs(a.data, a.entries[k], content[k])
  {
    hide Listing.Walk, Listing.Next, Listing.Good, Listing.Final, HeaderAgrees, HeaderSize, DataIs;
    var k := a.d.Final(i);
    a.d.SettledSays(i);
    assert a.d.TargetSettled(a.entries[..], a.entries[i].symlink);
    a.d.SettledIs(k);
    assert DataIs(a.d.data, a.d.base[k].(offset := a.d.DataAt(k)), content[k]);
    SameBytes(a.data, a.entries[k], a.d.base[k].(offset := a.d.DataAt(k)), content[k]);
  }

  lemma SameBytes(data: seq<Byte>, e: Entry, f: Entry, plain: seq<Byte>)
    requires e.offset == f.offset && e.central == f.central
    ensures DataIs(data, e, plain) == DataIs(data, f, plain)
  {
    hide Rfc1951.Inflate;
  }

  /** ZIP_openRead: with the directory in order, a file opens exactly when there
      is an entry with its full name whose links end well, and then what is read
      is the data of the regular file at their end. */
  method OpenRead(a: Archive, fnm: Name, ghost content: seq<seq<Byte>>, wide: bool, wideBits: bool)
    returns (file: File?, fileExists: bool)
    requires a.Holds([]) && ZipSort.Sorted(a.d.base) && ContentOk(a.d, content)
    modifies a.entries
    ensures a.Holds([])
    ensures fileExists <==> exists i :: 0 <= i < |a.d.base| && a.d.base[i].name == fnm
    ensures file != null <==> a.d.Search(fnm).Some? && a.d.Good(a.d.Search(fnm).value)
    ensures file != null ==> file.Valid() && file.uncompressedPosition == 0 && fresh(file) && fresh(file.repr)
    ensures file != null ==> file.plain == content[a.d.Final(a.d.Search(fnm).value)]
  {
    hide Listing.Walk, Listing.Next, Listing.Good, Listing.Final, HeaderAgrees, Listing.Holds, Listing.Kept,
      HeaderSize, Listing.Settled, File.Valid, DataIs, ZipSort.Sorted;
    a.Lengths([]);
    a.SameNames([], fnm);
    Searched(a.d, fnm);
    file := null;
    var found := FindEntry(a.entries, fnm, false);
    fileExists := found.At?;
    if fileExists {
      var i := found.index;
      var success := a.Resolve(i, []);
      if success {
        a.Lengths([]);
        a.StateOf([], i);
        a.d.SettledSays(i);
        var entry := a.entries[i];
        var k := if entry.symlink.Some? then entry.symlink.value else i;
        TargetData(a, i, content);
        var in_ := new Input(a.data);
        in_.Seek(a.entries[k].offset);
        file := new File(in_, a.entries[k], content[k], wide, wideBits);
      }
    }
  }
}
