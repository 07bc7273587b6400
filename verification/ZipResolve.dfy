/** Resolving entries on first use: the local header is checked, the offset is
    moved to the data, and symlinks are followed to a regular file
    (mk/linux/mojosetup/archive_zip.c:851-1035). */
module ZipResolve {
  import opened Bits
  import opened Names
  import opened ZipEntry
  import opened ZipFind

  const ZIP_LOCAL_FILE_SIG: nat := 0x04034b50

  function Ui16(data: seq<Byte>, p: nat): nat
    requires p + 2 <= |data|
  {
    var a: nat, b: nat := data[p], data[p + 1];
    a + 256 * b
  }

  function Ui32(data: seq<Byte>, p: nat): nat
    requires p + 4 <= |data|
  {
    Ui16(data, p) + 65536 * Ui16(data, p + 2)
  }

  /** Whether a local header at p agrees with the central directory: sizes and
      checksum may be zero, and sizes all ones. */
  predicate HeaderAgrees(data: seq<Byte>, c: Central, p: nat) {
    && p + 30 <= |data|
    && Ui32(data, p) == ZIP_LOCAL_FILE_SIG && Ui16(data, p + 4) == c.versionNeeded && Ui16(data, p + 8) == c.method_
    && Ui32(data, p + 14) in {0, c.crc}
    && Ui32(data, p + 18) in {0, 0xFFFFFFFF, c.compressedSize} && Ui32(data, p + 22) in {0, 0xFFFFFFFF, c.uncompressedSize}
  }

  /** How far the data lies behind the start of the local header. */
  function HeaderSize(data: seq<Byte>, p: nat): nat
    requires p + 30 <= |data|
  {
    Ui16(data, p + 26) + Ui16(data, p + 28) + 30
  }

  /** A directory as it was loaded, the archive's bytes, and what the data of a
      symlink says: its target's name, if it can be read at all. */
  datatype Listing = Loaded(data: seq<Byte>, base: seq<Entry>, linkText: (Central, nat) -> Option<Name>) {

    ghost predicate Valid() {
      forall i :: 0 <= i < |base| ==> base[i].resolved in {UnresolvedFile, UnresolvedSymlink} && base[i].symlink == None
    }

    predicate HeaderOk(i: nat) {
      i < |base| && HeaderAgrees(data, base[i].central, base[i].offset)
    }

    predicate IsLink(i: nat) {
      i < |base| && base[i].resolved == UnresolvedSymlink
    }

    /** Where the entry's data starts. */
    function DataAt(i: nat): nat
      requires HeaderOk(i)
    {
      base[i].offset + HeaderSize(data, base[i].offset)
    }

    /** The entry a symlink names. */
    function Next(i: nat): (r: Option<nat>)
      ensures r.Some? ==> r.value < |base|
    {
      if !HeaderOk(i) || !IsLink(i) then None
      else
        match linkText(base[i].central, DataAt(i))
        case None => None
        case Some(path) => Search(path)
    }

    /** The entry of that name. */
    function Search(path: Name): (r: Option<nat>)
      ensures r.Some? ==> r.value < |base|
    {
      var found := Find(base, path, false, 0, |base| - 1);
      if found.At? then Some(found.index) else None
    }

    /** Where the chain of links from i ends, within n entries. */
    function Walk(i: nat, n: nat): (r: Option<nat>)
      ensures r.Some? ==> HeaderOk(r.value) && !IsLink(r.value)
      decreases n
    {
      if n == 0 || !HeaderOk(i) then None
      else if !IsLink(i) then Some(i)
      else if Next(i) == None then None
      else Walk(Next(i).value, n - 1)
    }

    /** The chain reaches a regular entry, and every header on the way is good. */
    ghost predicate Good(i: nat) {
      exists n :: Walk(i, n).Some?
    }

    /** The regular entry it reaches. */
    ghost function Final(i: nat): (f: nat)
      requires Good(i)
      ensures HeaderOk(f) && !IsLink(f)
    {
      var n :| Walk(i, n).Some?;
      Walk(i, n).value
    }

    lemma {:induction false} WalkLonger(i: nat, n: nat, m: nat)
      requires n <= m && Walk(i, n).Some?
      ensures Walk(i, m) == Walk(i, n)
      decreases n
    {
      if IsLink(i) {
        WalkLonger(Next(i).value, n - 1, m - 1);
      }
    }

    /** The end of a chain does not depend on how it is looked for. */
    lemma FinalIs(i: nat, n: nat)
      requires Walk(i, n).Some?
      ensures Good(i) && Final(i) == Walk(i, n).value
    {
      var m :| Walk(i, m).Some? && Final(i) == Walk(i, m).value;
      if n <= m {
        WalkLonger(i, n, m);
      } else {
        WalkLonger(i, m, n);
      }
    }

    lemma GoodFile(i: nat)
      requires i < |base| && !IsLink(i)
      ensures Good(i) <==> HeaderOk(i)
      ensures HeaderOk(i) ==> Final(i) == i
    {
      if HeaderOk(i) {
        assert Walk(i, 1) == Some(i);
        FinalIs(i, 1);
      }
    }

    lemma WalkLink(i: nat, n: nat)
      requires IsLink(i)
      ensures Walk(i, 0) == None
      ensures Walk(i, n + 1) == if Next(i).Some? then Walk(Next(i).value, n) else None
    {
    }

    lemma GoodLink(i: nat)
      requires IsLink(i)
      ensures Good(i) <==> Next(i).Some? && Good(Next(i).value)
      ensures Good(i) ==> Final(i) == Final(Next(i).value)
    {
      hide Listing.Walk, Listing.Next, Listing.Final;
      if Good(i) {
        var n: nat :| Walk(i, n).Some?;
        WalkLink(i, 0);
        WalkLink(i, n - 1);
        FinalIs(i, n);
        FinalIs(Next(i).value, n - 1);
      }
      if Next(i).Some? && Good(Next(i).value) {
        var n: nat :| Walk(Next(i).value, n).Some?;
        WalkLink(i, n);
      }
    }

    // ---- loops

    /** Links that lead one to the next, and the last one to i. */
    ghost predicate Leads(st: seq<nat>, i: nat) {
      forall m :: 0 <= m < |st| ==> LeadsTo(st[m], After(st, i, m))
    }

    function After(st: seq<nat>, i: nat, m: nat): nat {
      if m + 1 < |st| then st[m + 1] else i
    }

    lemma LeadsAt(st: seq<nat>, i: nat, m: nat)
      requires Leads(st, i) && m < |st|
      ensures IsLink(st[m]) && HeaderOk(st[m]) && Next(st[m]) == Some(if m + 1 < |st| then st[m + 1] else i)
    {
    }

    /** One link leads to the other entry. */
    predicate LeadsTo(from: nat, to: nat) {
      IsLink(from) && HeaderOk(from) && Next(from) == Some(to)
    }

    /** Walking along links. */
    lemma {:induction false} WalkAlong(st: seq<nat>, i: nat, m: nat, n: nat)
      requires Leads(st, i) && m <= |st|
      ensures Walk(if m < |st| then st[m] else i, n) == if n >= |st| - m then Walk(i, n - (|st| - m)) else None
      decreases n
    {
      hide Listing.Walk, Listing.Next, Listing.Leads, Listing.HeaderOk, Listing.IsLink;
      if m < |st| {
        LeadsAt(st, i, m);
        if n == 0 {
          WalkLink(st[m], 0);
        } else {
          WalkLink(st[m], n - 1);
          WalkAlong(st, i, m + 1, n - 1);
        }
      }
    }

    /** A chain that comes back to itself never ends. */
    lemma {:induction false} LoopNeverEnds(st: seq<nat>, i: nat, n: nat)
      requires Leads(st, i) && i in st
      ensures Walk(i, n) == None
      decreases n
    {
      hide Listing.Walk, Listing.Next, Listing.Leads;
      var m :| 0 <= m < |st| && st[m] == i;
      WalkAlong(st, i, m, n);
      if n >= |st| - m {
        LoopNeverEnds(st, i, n - (|st| - m));
      }
    }

    /** A link whose chain runs into a loop is no good. */
    lemma IntoLoop(st: seq<nat>, i: nat, m: nat)
      requires Leads(st, i) && i in st && m < |st|
      ensures !Good(st[m])
    {
      hide Listing.Walk, Listing.Next, Listing.Leads;
      forall n: nat ensures Walk(st[m], n) == None {
        WalkAlong(st, i, m, n);
        if n >= |st| - m {
          LoopNeverEnds(st, i, n - (|st| - m));
        }
      }
    }

    /** The links before the end of a chain. */
    ghost function Links(i: nat, n: nat): seq<nat>
      requires Walk(i, n).Some?
      decreases n
    {
      if !IsLink(i) then [] else [i] + Links(Next(i).value, n - 1)
    }

    lemma {:induction false} LinksLead(i: nat, n: nat)
      requires Walk(i, n).Some?
      ensures Leads(Links(i, n), Walk(i, n).value)
      ensures if Links(i, n) == [] then i == Walk(i, n).value else Links(i, n)[0] == i
      ensures forall k :: 0 <= k < |Links(i, n)| ==> Good(Links(i, n)[k])
      decreases n
    {
      hide Listing.Next, Listing.HeaderOk, Listing.Leads;
      assert Good(i);
      if IsLink(i) {
        var k := Next(i).value;
        LinksLead(k, n - 1);
        LeadsMore(i, Links(k, n - 1), Walk(k, n - 1).value);
      } else {
        LeadsNone(i);
      }
    }

    lemma LeadsNone(i: nat)
      ensures Leads([], i)
    {
    }

    lemma LeadsMore(i: nat, st: seq<nat>, f: nat)
      requires IsLink(i) && HeaderOk(i) && Leads(st, f) && Next(i) == Some(if st == [] then f else st[0])
      ensures Leads([i] + st, f)
    {
      var all := [i] + st;
      forall m | 0 <= m < |all| ensures LeadsTo(all[m], After(all, f, m)) {
        if m > 0 {
          LeadsAt(st, f, m - 1);
        }
      }
    }

    lemma {:induction false} Distinct(st: seq<nat>, bound: nat)
      requires (forall k :: 0 <= k < |st| ==> st[k] < bound) && forall k, l :: 0 <= k < l < |st| ==> st[k] != st[l]
      ensures |st| <= bound
      decreases bound
    {
      assert |st| > 0 ==> st[0] < bound;
      if bound > 0 {
        if k :| 0 <= k < |st| && st[k] == bound - 1 {
          Distinct(st[..k] + st[k + 1..], bound - 1);
        } else {
          Distinct(st, bound - 1);
        }
      }
    }

    /** A chain that ends at all ends within as many steps as there are entries:
        it passes no entry twice. */
    lemma GoodIsShort(i: nat)
      ensures Good(i) <==> Walk(i, |base|).Some?
    {
      hide Listing.Walk, Listing.Next, Listing.Leads, Listing.HeaderOk, Listing.IsLink, Listing.Links;
      if Good(i) {
        var n: nat :| Walk(i, n).Some?;
        var f, st := Walk(i, n).value, Links(i, n);
        LinksLead(i, n);
        forall k, l | 0 <= k < l < |st| ensures st[k] != st[l] {
          if st[k] == st[l] {
            LeadsPart(st, f, l);
            assert st[..l][k] == st[l];
            IntoLoop(st[..l], st[l], k);
          }
        }
        LinksAre(st, f);
        var all := st + [f];
        forall k, l | 0 <= k < l < |all| ensures all[k] != all[l] {
          assert k < |st|;
        }
        Distinct(all, |base|);
        WalkAlong(st, f, 0, |base|);
        WalkFile(f, |base| - |st|);
      }
    }

    lemma LeadsPart(st: seq<nat>, i: nat, l: nat)
      requires Leads(st, i) && l < |st|
      ensures Leads(st[..l], st[l])
    {
      hide Listing.LeadsTo;
      forall m | 0 <= m < l ensures LeadsTo(st[..l][m], After(st[..l], st[l], m)) {
        assert LeadsTo(st[m], After(st, i, m));
      }
    }

    lemma LinksAre(st: seq<nat>, f: nat)
      requires Leads(st, f)
      ensures forall k :: 0 <= k < |st| ==> st[k] < |base| && IsLink(st[k])
      ensures HeaderOk(f) ==> f < |base|
    {
      forall k | 0 <= k < |st| ensures st[k] < |base| && IsLink(st[k]) {
        LeadsAt(st, f, k);
      }
    }

    lemma WalkFile(f: nat, n: nat)
      requires HeaderOk(f) && !IsLink(f) && n > 0
      ensures Walk(f, n) == Some(f)
    {
    }

    // ---- what becomes of the entries

    /** An entry whose link is being followed. */
    function Pending(i: nat): Entry
      requires HeaderOk(i)
    {
      base[i].(resolved := Resolving, offset := DataAt(i))
    }

    /** An entry once it is resolved, or broken for good. */
    ghost function Settled(i: nat): Entry
      requires i < |base|
    {
      if !HeaderOk(i) then base[i].(resolved := if IsLink(i) then BrokenSymlink else BrokenFile)
      else
        var e := base[i].(offset := DataAt(i));
        if !IsLink(i) then e.(resolved := Resolved)
        else if Good(i) then e.(resolved := Resolved, symlink := Some(Final(i)))
        else e.(resolved := BrokenSymlink)
    }

    /** Between calls every entry is as loaded, or settled, but for the links
        being followed. */
    ghost predicate Holds(s: seq<Entry>, st: seq<nat>) {
      && |s| == |base|
      && (forall m :: 0 <= m < |st| ==> st[m] < |base| && HeaderOk(st[m]) && s[st[m]] == Pending(st[m]))
      && (forall i :: 0 <= i < |s| && i !in st ==> s[i] == base[i] || s[i] == Settled(i))
      && TargetsSettled(s)
    }

    ghost predicate TargetsSettled(s: seq<Entry>) {
      forall i :: 0 <= i < |s| ==> TargetSettled(s, s[i].symlink)
    }

    /** The regular entry a symlink names has been resolved with it. */
    ghost predicate TargetSettled(s: seq<Entry>, target: Option<nat>) {
      target.Some? ==> target.value < |base| && target.value < |s| && s[target.value] == Settled(target.value)
    }

    /** What is resolved stays as it is. */
    ghost predicate Kept(s: seq<Entry>, t: seq<Entry>) {
      |s| == |t| == |base| && forall j :: 0 <= j < |s| && s[j] != base[j] ==> t[j] == s[j]
    }

    lemma Enter(s: seq<Entry>, st: seq<nat>, i: nat)
      requires Valid() && Holds(s, st) && i < |base| && i !in st && HeaderOk(i) && s[i] == base[i]
      ensures Holds(s[i := Pending(i)], st + [i])
    {
      SettledSays(i);
      SettleTargets(s, Pending(i), i);
      hide Listing.Settled, Listing.Pending, Listing.HeaderOk, Listing.TargetsSettled;
    }

    /** Replacing an entry that is no settled one keeps all targets settled. */
    lemma SettleTargets(s: seq<Entry>, e: Entry, i: nat)
      requires |s| == |base| && i < |s| && (s[i] != Settled(i) || e == Settled(i)) && TargetSettled(s, e.symlink)
      requires TargetsSettled(s)
      ensures TargetsSettled(s[i := e])
    {
      hide Listing.Settled;
      var t := s[i := e];
      forall j | 0 <= j < |t| ensures TargetSettled(t, t[j].symlink) {
        assert TargetSettled(s, s[j].symlink);
      }
    }

    lemma Settle(s: seq<Entry>, st: seq<nat>, i: nat)
      requires Holds(s, st) && i < |base| && i !in st && TargetSettled(s, Settled(i).symlink)
      ensures Holds(s[i := Settled(i)], st)
    {
      SettleTargets(s, Settled(i), i);
      hide Listing.Settled, Listing.Pending, Listing.HeaderOk, Listing.TargetsSettled;
    }

    lemma Leave(s: seq<Entry>, st: seq<nat>, i: nat)
      requires Holds(s, st + [i]) && i < |base| && i !in st && TargetSettled(s, Settled(i).symlink)
      ensures Holds(s[i := Settled(i)], st)
    {
      SettleTargets(s, Settled(i), i);
      hide Listing.Settled, Listing.Pending, Listing.HeaderOk, Listing.TargetsSettled;
      var t := s[i := Settled(i)];
      forall m | 0 <= m < |st| ensures st[m] < |base| && HeaderOk(st[m]) && t[st[m]] == Pending(st[m]) {
        assert (st + [i])[m] == st[m];
      }
      forall j | 0 <= j < |t| && j !in st ensures t[j] == base[j] || t[j] == Settled(j) {
        assert j != i ==> j !in st + [i];
      }
    }

    lemma KeptAt(s: seq<Entry>, t: seq<Entry>, i: nat, x: Entry, y: Entry)
      requires |s| == |base| && i < |s| && s[i] == base[i] && Kept(s[i := x], t)
      ensures Kept(s, t[i := y])
    {
      assert forall j :: 0 <= j < |s| && j != i ==> s[i := x][j] == s[j];
    }

    /** The link's own next entry is the one its text names. */
    lemma NextIs(i: nat)
      requires HeaderOk(i) && IsLink(i)
      ensures Next(i) == match linkText(base[i].central, DataAt(i)) case None => None case Some(path) => Search(path)
    {
      hide HeaderAgrees, HeaderSize, Listing.Search;
    }

    lemma LeadsOn(st: seq<nat>, i: nat)
      requires Leads(st, i) && HeaderOk(i) && IsLink(i)
      ensures Next(i).Some? ==> Leads(st + [i], Next(i).value)
    {
      hide Listing.Next, HeaderAgrees, Listing.HeaderOk, Listing.IsLink;
      if Next(i).Some? {
        var all, k := st + [i], Next(i).value;
        forall m | 0 <= m < |all| ensures LeadsTo(all[m], After(all, k, m)) {
          if m < |st| {
            LeadsAt(st, i, m);
          }
        }
      }
    }

    lemma KeptItself(s: seq<Entry>)
      requires |s| == |base|
      ensures Kept(s, s)
    {
    }

    /** The verdict on an entry does not depend on what was asked before: once it
        is reached in two histories, it is the same in both. */
    lemma SameVerdict(s: seq<Entry>, t: seq<Entry>, i: nat)
      requires Valid() && Holds(s, []) && Holds(t, []) && i < |base|
      requires s[i].resolved !in {UnresolvedFile, UnresolvedSymlink} && t[i].resolved !in {UnresolvedFile, UnresolvedSymlink}
      ensures s[i] == t[i] == Settled(i) && s[i].resolved != Resolving
    {
      hide Listing.Good, Listing.Final, Listing.HeaderOk;
    }

    /** A settled entry, from its parts. */
    lemma SettledIs(i: nat)
      requires i < |base|
      ensures !HeaderOk(i) ==> !Good(i) && Settled(i) == base[i].(resolved := if IsLink(i) then BrokenSymlink else BrokenFile)
      ensures HeaderOk(i) && !IsLink(i) ==> Good(i) && Settled(i) == Pending(i).(resolved := Resolved)
      ensures HeaderOk(i) && IsLink(i) && Good(i) ==> Settled(i) == Pending(i).(resolved := Resolved, symlink := Some(Final(i)))
      ensures HeaderOk(i) && IsLink(i) && !Good(i) ==> Settled(i) == Pending(i).(resolved := BrokenSymlink)
    {
      hide Listing.Walk, Listing.Next;
      if !IsLink(i) {
        GoodFile(i);
      } else if !HeaderOk(i) {
        GoodLink(i);
        NoNext(i);
      }
    }

    /** An entry is resolved exactly when its chain is good, and then its symlink
        is the regular entry at the end. */
    lemma SettledSays(i: nat)
      requires Valid() && i < |base|
      ensures Settled(i).resolved in {Resolved, BrokenFile, BrokenSymlink}
      ensures Settled(i).resolved == Resolved <==> Good(i)
      ensures Settled(i).symlink == if Good(i) && IsLink(i) then Some(Final(i)) else None
      ensures Good(i) ==> Final(i) == if IsLink(i) then Settled(i).symlink.value else i
      ensures Settled(i).offset == base[i].offset + if HeaderOk(i) then HeaderSize(data, base[i].offset) else 0
      ensures Settled(i).name == base[i].name && Settled(i).central == base[i].central
    {
      hide Listing.Walk, Listing.Next;
      if !IsLink(i) {
        GoodFile(i);
      } else if !HeaderOk(i) {
        GoodLink(i);
        NoNext(i);
      }
    }

    lemma NoNext(i: nat)
      requires !HeaderOk(i)
      ensures Next(i) == None
    {
    }
  }

  /** How many entries are still as they were loaded. */
  function Unresolved(s: seq<Entry>): nat {
    if s == [] then 0 else (if s[0].resolved in {UnresolvedFile, UnresolvedSymlink} then 1 else 0) + Unresolved(s[1..])
  }

  lemma {:induction false} OneLess(s: seq<Entry>, i: nat, e: Entry)
    requires i < |s| && s[i].resolved in {UnresolvedFile, UnresolvedSymlink} && e.resolved !in {UnresolvedFile, UnresolvedSymlink}
    ensures Unresolved(s[i := e]) == Unresolved(s) - 1
  {
    if i > 0 {
      OneLess(s[1..], i - 1, e);
      assert s[i := e][1..] == s[1..][i - 1 := e];
    } else {
      assert s[i := e][1..] == s[1..];
    }
  }

  /** The search sees names only. */
  lemma {:induction false} FindSame(s: seq<Entry>, t: seq<Entry>, path: Name, lo: nat, hi: int)
    requires |s| == |t| && hi < |s| && forall k :: 0 <= k < |s| ==> s[k].name == t[k].name
    ensures Find(s, path, false, lo, hi) == Find(t, path, false, lo, hi)
    decreases hi - lo + 1
  {
    if lo <= hi {
      var middle := lo + (hi - lo) / 2;
      FindSame(s, t, path, middle + 1, hi);
      FindSame(s, t, path, lo, middle - 1);
    }
  }

  class Archive {
    const data: seq<Byte>
    const entries: array<Entry>
    const linkText: (Central, nat) -> Option<Name>
    ghost const d: Listing

    ghost predicate Holds(st: seq<nat>)
      reads entries
    {
      Valid() && d.Holds(entries[..], st)
    }

    ghost predicate Valid() {
      d.Valid() && d.data == data && d.linkText == linkText && entries.Length == |d.base|
    }

    constructor (data: seq<Byte>, entries: array<Entry>, linkText: (Central, nat) -> Option<Name>)
      requires forall i :: 0 <= i < entries.Length ==>
        entries[i].resolved in {UnresolvedFile, UnresolvedSymlink} && entries[i].symlink == None
      ensures Holds([]) && this.entries == entries && d == Loaded(data, entries[..], linkText)
    {
      this.data, this.entries, this.linkText := data, entries, linkText;
      d := Loaded(data, entries[..], linkText);
    }

    function Has(p: nat, n: nat): bool { p + n <= |data| }

    /** zip_parse_local: the header is read field by field; only when all of it
        agrees is the offset moved to the data. */
    method ParseLocal(i: nat) returns (ok: bool)
      requires i < entries.Length
      modifies entries
      ensures ok == HeaderAgrees(data, old(entries[i].central), old(entries[i].offset))
      ensures entries[..] == old(entries[..])[i := if ok then
        old(entries[i]).(offset := old(entries[i].offset) + HeaderSize(data, old(entries[i].offset))) else old(entries[i])]
    {
      var c, p := entries[i].central, entries[i].offset;
      if !Has(p, 4) || Ui32(data, p) != ZIP_LOCAL_FILE_SIG { return false; }
      if !Has(p + 4, 2) || Ui16(data, p + 4) != c.versionNeeded { return false; }
      if !Has(p + 6, 2) { return false; }
      if !Has(p + 8, 2) || Ui16(data, p + 8) != c.method_ { return false; }
      if !Has(p + 10, 4) { return false; }
      if !Has(p + 14, 4) { return false; }
      var crc := Ui32(data, p + 14);
      if crc != 0 && crc != c.crc { return false; }
      if !Has(p + 18, 4) { return false; }
      var packed := Ui32(data, p + 18);
      if packed != 0 && packed != 0xFFFFFFFF && packed != c.compressedSize { return false; }
      if !Has(p + 22, 4) { return false; }
      var size := Ui32(data, p + 22);
      if size != 0 && size != 0xFFFFFFFF && size != c.uncompressedSize { return false; }
      if !Has(p + 26, 2) { return false; }
      var fnamelen := Ui16(data, p + 26);
      if !Has(p + 28, 2) { return false; }
      var extralen := Ui16(data, p + 28);
      entries[i] := entries[i].(offset := entries[i].offset + (fnamelen + extralen + 30));
      return true;
    }

    /** zip_resolve. st are the links being followed, the last of which led here;
        an entry met again among them is on a loop. */
    method Resolve(i: nat, ghost st: seq<nat>) returns (retval: bool)
      requires i < entries.Length && Holds(st) && d.Leads(st, i)
      modifies entries
      ensures Holds(st) && (retval <==> d.Good(i))
      ensures i !in st ==> entries[i] == d.Settled(i)
      ensures d.Kept(old(entries[..]), entries[..])
      decreases Unresolved(entries[..]), 0
    {
      hide Listing.Walk, Listing.Next, Listing.Good, Listing.Final, Listing.Leads, HeaderAgrees, Listing.Holds,
        Listing.Kept, HeaderSize;
      StateOf(st, i);
      Lengths(st);
      var kind := entries[i].resolved;
      if kind == BrokenFile || kind == BrokenSymlink || kind == Resolving {
        return false;
      }
      retval := true;
      if kind != Resolved {
        ghost var s := entries[..];
        d.SettledIs(i);
        OneLess(s, i, s[i].(resolved := Resolving));
        entries[i] := entries[i].(resolved := Resolving);
        retval := ParseLocal(i);
        ghost var t := entries[..];
        d.KeptItself(t);
        if retval && kind == UnresolvedSymlink {
          assert t == s[i := d.Pending(i)];
          d.Enter(s, st, i);
          OneLess(s, i, d.Pending(i));
          retval := ResolveSymlink(i, st);
          d.Leave(entries[..][i := d.Pending(i)], st, i);
          assert entries[..][i := d.Pending(i)][i := d.Settled(i)] == entries[..][i := d.Settled(i)];
          d.KeptAt(s, entries[..][i := d.Pending(i)], i, t[i], d.Settled(i));
        } else {
          assert t == s[i := t[i]];
          d.KeptAt(s, t, i, t[i], d.Settled(i));
          d.Settle(s, st, i);
          assert t[i := d.Settled(i)] == s[i := d.Settled(i)];
        }
        ghost var u := entries[..];
        if kind == UnresolvedSymlink {
          entries[i] := entries[i].(resolved := if retval then Resolved else BrokenSymlink);
        } else if kind == UnresolvedFile {
          entries[i] := entries[i].(resolved := if retval then Resolved else BrokenFile);
        }
        assert entries[..] == u[i := d.Settled(i)];
      }
    }

    lemma Lengths(st: seq<nat>)
      requires Holds(st)
      ensures entries.Length == |d.base|
      ensures d.Kept(entries[..], entries[..])
    {
    }

    /** zip_resolve_symlink, from where the link's text is read. */
    method ResolveSymlink(i: nat, ghost st: seq<nat>) returns (ok: bool)
      requires i < entries.Length && d.HeaderOk(i) && d.IsLink(i) && i !in st && Holds(st + [i]) && d.Leads(st, i)
      modifies entries
      ensures Linked(i, st, ok) && d.Kept(old(entries[..]), entries[..][i := d.Pending(i)])
      decreases Unresolved(entries[..]), 2
    {
      hide Listing.Walk, Listing.Next, Listing.Good, Listing.Final, Listing.Leads, HeaderAgrees, Listing.Holds,
        Listing.Kept, HeaderSize, Listing.Search;
      InStack(st, i);
      ghost var s := entries[..];
      d.NextIs(i);
      d.GoodLink(i);
      d.KeptItself(s);
      ok := false;
      var text := linkText(entries[i].central, entries[i].offset);
      if text.Some? {
        d.LeadsOn(st, i);
        var target := FollowSymlink(text.value, st + [i]);
        InStack(st, i);
        ghost var t := entries[..];
        entries[i] := entries[i].(symlink := target);
        assert entries[..][i := d.Pending(i)] == t;
        ok := target.Some?;
      } else {
        assert entries[..][i := d.Pending(i)] == s;
      }
    }

    lemma InStack(st: seq<nat>, i: nat)
      requires i < entries.Length && Holds(st + [i])
      ensures entries.Length == |d.base| && d.Valid() && d.HeaderOk(i) && entries[i] == d.Pending(i) && d.Pending(i).symlink == None
      ensures entries[i] != d.base[i]
    {
      hide Listing.HeaderOk;
      assert (st + [i])[|st|] == i;
    }

    /** zip_follow_symlink */
    method FollowSymlink(path: Name, ghost st: seq<nat>) returns (target: Option<nat>)
      requires Holds(st) && (d.Search(path).Some? ==> d.Leads(st, d.Search(path).value))
      modifies entries
      ensures Holds(st) && d.Kept(old(entries[..]), entries[..]) && d.TargetSettled(entries[..], target)
      ensures target == if d.Search(path).Some? && d.Good(d.Search(path).value) then Some(d.Final(d.Search(path).value)) else None
      decreases Unresolved(entries[..]), 1
    {
      hide Listing.Walk, Listing.Next, Listing.Good, Listing.Final, Listing.Leads, HeaderAgrees, Listing.Holds,
        Listing.Kept, HeaderSize, Listing.Settled, Listing.TargetSettled;
      Lengths(st);
      NoTarget();
      SameNames(st, path);
      target := None;
      var found := FindEntry(entries, path, false);
      if found.At? {
        var k := found.index;
        var ok := Resolve(k, st);
        NoTarget();
        if ok {
          StateOf(st, k);
          d.SettledSays(k);
          TargetOf(st, k);
          target := if entries[k].symlink.Some? then entries[k].symlink else Some(k);
        }
      }
    }

    lemma NoTarget()
      ensures d.TargetSettled(entries[..], None)
    {
    }

    lemma TargetOf(st: seq<nat>, k: nat)
      requires Holds(st) && k < entries.Length && entries[k] == d.Settled(k)
      ensures d.TargetSettled(entries[..], if entries[k].symlink.Some? then entries[k].symlink else Some(k))
    {
      hide Listing.Settled, Listing.HeaderOk;
      assert d.TargetSettled(entries[..], entries[..][k].symlink);
    }

    lemma SameNames(st: seq<nat>, path: Name)
      requires Holds(st)
      ensures Find(entries[..], path, false, 0, entries.Length - 1) == Find(d.base, path, false, 0, |d.base| - 1)
    {
      hide Listing.HeaderOk, Listing.Good, Listing.Final;
      forall k | 0 <= k < |d.base| ensures entries[..][k].name == d.base[k].name {
        if k in st {
          var m :| 0 <= m < |st| && st[m] == k;
        }
      }
      FindSame(entries[..], d.base, path, 0, |d.base| - 1);
    }

    /** The link is followed, and only the state is still to be set. */
    ghost predicate Linked(i: nat, st: seq<nat>, ok: bool)
      reads entries
    {
      && i < entries.Length && d.HeaderOk(i) && Valid() && (ok <==> d.Good(i))
      && entries[i] == d.Pending(i).(symlink := if ok then Some(d.Final(i)) else None)
      && d.Holds(entries[..][i := d.Pending(i)], st + [i])
      && d.TargetSettled(entries[..][i := d.Pending(i)], entries[i].symlink)
    }

    /** What the state of an entry says about its chain. */
    lemma StateOf(st: seq<nat>, i: nat)
      requires i < entries.Length && Holds(st) && d.Leads(st, i)
      ensures i in st ==> entries[i].resolved == Resolving && !d.Good(i)
      ensures i !in st && entries[i] != d.base[i] ==> entries[i] == d.Settled(i)
      ensures entries[i].resolved in {BrokenFile, BrokenSymlink} ==> i !in st && !d.Good(i) && entries[i] == d.Settled(i)
      ensures entries[i].resolved == Resolved ==> i !in st && d.Good(i) && entries[i] == d.Settled(i)
      ensures entries[i].resolved == Resolving ==> i in st
      ensures entries[i].resolved in {UnresolvedFile, UnresolvedSymlink} ==> i !in st && entries[i] == d.base[i]
    {
      hide Listing.Walk, Listing.Next, Listing.Final, Listing.Leads, Listing.HeaderOk;
      d.SettledSays(i);
      if i in st {
        forall n: nat ensures d.Walk(i, n) == None { d.LoopNeverEnds(st, i, n); }
      }
    }
  }
}
