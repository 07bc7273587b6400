/** Finding a file by its full name: a binary search by prefix
    (mk/linux/mojosetup/archive_zip.c:732-774). */
module ZipFind {
  import opened Names
  import opened ZipEntry
  import opened ZipSort

  /** The entry's index, or nothing; a directory, when the caller asked for those. */
  datatype Found = At(index: nat) | Directory | Nothing

  /** The search as a function: what the loop does on the range lo to hi. */
  function Find(s: seq<Entry>, path: Name, wantDir: bool, lo: nat, hi: int): (r: Found)
    requires hi < |s|
    ensures r.At? ==> r.index < |s|
    decreases hi - lo + 1
  {
    if lo > hi then Nothing
    else
      var middle := lo + (hi - lo) / 2;
      var name := s[middle].name;
      var rc := CmpPrefix(path, name);
      if rc > 0 then Find(s, path, wantDir, middle + 1, hi)
      else if rc < 0 then Find(s, path, wantDir, lo, middle - 1)
      else
        PrefixZero(path, name);
        if wantDir && |name| > |path| && name[|path|] == SLASH then Directory
        else if |name| == |path| then At(middle)
        else Find(s, path, wantDir, lo, middle - 1)
  }

  /** zip_find_entry */
  method FindEntry(a: array<Entry>, path: Name, wantDir: bool) returns (r: Found)
    ensures r == Find(a[..], path, wantDir, 0, a.Length - 1)
  {
    var lo: int, hi: int := 0, a.Length - 1;
    while lo <= hi
      invariant 0 <= lo && hi < a.Length
      invariant Find(a[..], path, wantDir, 0, a.Length - 1) == Find(a[..], path, wantDir, lo, hi)
      decreases hi - lo + 1
    {
      var middle := lo + (hi - lo) / 2;
      var name := a[middle].name;
      var rc := CmpPrefix(path, name);
      if rc > 0 {
        lo := middle + 1;
      } else if rc < 0 {
        hi := middle - 1;
      } else {
        PrefixZero(path, name);
        if wantDir && |name| > |path| && name[|path|] == SLASH {
          return Directory;
        }
        if |name| == |path| {
          return At(middle);
        } else {
          hi := middle - 1;
        }
      }
    }
    return Nothing;
  }

  /** Nothing with that name lies outside the range. */
  predicate Within(s: seq<Entry>, path: Name, lo: nat, hi: int) {
    forall k :: 0 <= k < |s| && s[k].name == path ==> lo <= k <= hi
  }

  /** What a comparison at k says about a name at l. */
  lemma Beside(s: seq<Entry>, path: Name, k: nat, l: nat)
    requires Sorted(s) && k < |s| && l < |s| && s[l].name == path
    ensures CmpPrefix(path, s[k].name) > 0 ==> l > k
    ensures CmpPrefix(path, s[k].name) < 0 ==> l < k
    ensures StartsWith(s[k].name, path) && s[k].name != path ==> l < k
  {
    var name := s[k].name;
    PrefixDecides(path, [], name);
    assert path + [] == path;
    CmpFlips(path, name);
    CmpEqual(path, name);
    if l <= k {
      assert Le(path, name);
    }
    if k <= l {
      assert Le(name, path);
    }
    if StartsWith(name, path) && name != path {
      assert name == path + name[|path|..];
    }
  }

  /** The file is found exactly when there is one with the full name, whatever
      names it is a prefix of. */
  lemma {:induction false} FindsName(s: seq<Entry>, path: Name, lo: nat, hi: int)
    requires Sorted(s) && hi < |s| && Within(s, path, lo, hi)
    ensures var r := Find(s, path, false, lo, hi);
      if exists k :: 0 <= k < |s| && s[k].name == path then r.At? && s[r.index].name == path else r == Nothing
    decreases hi - lo + 1
  {
    hide Sorted;
    if lo <= hi {
      var middle := lo + (hi - lo) / 2;
      var name := s[middle].name;
      PrefixZero(path, name);
      forall l | 0 <= l < |s| && s[l].name == path
        ensures CmpPrefix(path, name) > 0 ==> l > middle
        ensures CmpPrefix(path, name) < 0 ==> l < middle
        ensures StartsWith(name, path) && name != path ==> l < middle
      {
        Beside(s, path, middle, l);
      }
      if CmpPrefix(path, name) > 0 {
        FindsName(s, path, middle + 1, hi);
      } else if CmpPrefix(path, name) < 0 || |name| != |path| {
        FindsName(s, path, lo, middle - 1);
      } else {
        assert name == path;
      }
    }
  }

  // ---- directories

  predicate InDirectory(name: Name, path: Name) {
    StartsWith(name, path) && |name| > |path| && name[|path|] == SLASH
  }

  /** The path, a slash, and anything. */
  lemma InDirectoryIs(name: Name, path: Name)
    ensures InDirectory(name, path) <==> exists rest: Name :: name == path + [47] + rest
  {
    if InDirectory(name, path) {
      assert name == path + [47] + name[|path| + 1..];
    }
    if rest: Name :| name == path + [47] + rest {
      assert name[..|path|] == path;
    }
  }

  predicate HasDirectory(s: seq<Entry>, path: Name) {
    exists k :: 0 <= k < |s| && InDirectory(s[k].name, path)
  }

  /** Neither the directory's own name nor a name that continues it with a byte
      below the slash is an entry's. */
  predicate NothingBefore(s: seq<Entry>, path: Name) {
    forall k :: 0 <= k < |s| && StartsWith(s[k].name, path) ==> |s[k].name| > |path| && s[k].name[|path|] >= SLASH
  }

  /** A directory is reported only where there is a file in it, and an entry only
      under its full name. */
  lemma {:induction false} DirectoryIsThere(s: seq<Entry>, path: Name, lo: nat, hi: int)
    requires hi < |s|
    ensures var r := Find(s, path, true, lo, hi);
      (r == Directory ==> HasDirectory(s, path)) && (r.At? ==> s[r.index].name == path)
    decreases hi - lo + 1
  {
    if lo <= hi {
      var middle := lo + (hi - lo) / 2;
      var name := s[middle].name;
      PrefixZero(path, name);
      if CmpPrefix(path, name) > 0 {
        DirectoryIsThere(s, path, middle + 1, hi);
      } else if CmpPrefix(path, name) < 0 {
        DirectoryIsThere(s, path, lo, middle - 1);
      } else if |name| != |path| {
        DirectoryIsThere(s, path, lo, middle - 1);
      }
    }
  }

  // ---- exactly when it is reported

  /** Where a name sorts: before the path (0), with the path itself and the names
      that continue it below the slash (1), with the files of the directory (2), or
      after them (3). */
  function Rank(name: Name, path: Name): nat {
    var rc := CmpPrefix(path, name);
    if rc > 0 then 0 else if rc < 0 then 3
    else if |name| <= |path| || name[|path|] < SLASH then 1
    else if name[|path|] == SLASH then 2 else 3
  }

  lemma RankIs(name: Name, path: Name)
    ensures Rank(name, path) == 2 <==> InDirectory(name, path)
    ensures name == path ==> Rank(name, path) == 1
    ensures CmpPrefix(path, name) == 0 <==> StartsWith(name, path)
  {
    PrefixZero(path, name);
  }

  /** The order of names is that of their ranks. */
  lemma RankMono(a: Name, b: Name, path: Name)
    requires Le(a, b)
    ensures Rank(a, path) <= Rank(b, path)
  {
    hide Cmp, CmpPrefix;
    PrefixZero(path, a);
    PrefixZero(path, b);
    CmpFlips(a, b);
    if StartsWith(a, path) && StartsWith(b, path) {
      RestsCompare(a, b, path);
    } else if StartsWith(a, path) {
      assert a == path + a[|path|..];
      PrefixDecides(path, a[|path|..], b);
    } else if StartsWith(b, path) {
      assert b == path + b[|path|..];
      PrefixDecides(path, b[|path|..], a);
    } else {
      PrefixDecides(path, [], a);
      PrefixDecides(path, [], b);
      assert path + [] == path;
      CmpFlips(path, a);
      CmpFlips(path, b);
      if CmpPrefix(path, a) < 0 {
        LeTrans(path, a, b);
      }
    }
  }

  /** What follows a common prefix decides. */
  lemma RestsCompare(a: Name, b: Name, path: Name)
    requires StartsWith(a, path) && StartsWith(b, path) && Le(a, b)
    ensures |a| == |path| || (|b| > |path| && a[|path|] <= b[|path|])
  {
    assert a == path + a[|path|..];
    PrefixDecides(path, a[|path|..], b);
    assert Cmp(a[|path|..], b[|path|..]) <= 0;
  }

  /** The first entry whose rank is at least c, looking from i on. */
  function Start(s: seq<Entry>, path: Name, c: nat, i: nat): (k: nat)
    requires i <= |s|
    ensures i <= k <= |s| && (forall l :: i <= l < k ==> Rank(s[l].name, path) < c)
    ensures k < |s| ==> Rank(s[k].name, path) >= c
    decreases |s| - i
  {
    if i == |s| || Rank(s[i].name, path) >= c then i else Start(s, path, c, i + 1)
  }

  /** Where the path and the names that continue it below the slash begin, where the
      files of the directory begin, and where they end. */
  function Places(s: seq<Entry>, path: Name): (nat, nat, nat) {
    (Start(s, path, 1, 0), Start(s, path, 2, 0), Start(s, path, 3, 0))
  }

  lemma PlacesAre(s: seq<Entry>, path: Name, k: nat)
    requires Sorted(s) && k < |s|
    ensures var (b, d, e) := Places(s, path);
      && b <= d <= e <= |s|
      && Rank(s[k].name, path) == if k < b then 0 else if k < d then 1 else if k < e then 2 else 3
  {
    hide Rank, Sorted;
    StartSplits(s, path, 1, k);
    StartSplits(s, path, 2, k);
    StartSplits(s, path, 3, k);
    StartsRise(s, path, 1);
    StartsRise(s, path, 2);
    RankBound(s[k].name, path);
  }

  /** The first place between b and e that bisection from lo to hi comes to. */
  function FirstHit(b: nat, e: nat, lo: nat, hi: int): Option<nat>
    decreases hi - lo + 1
  {
    if lo > hi then None
    else
      var middle := lo + (hi - lo) / 2;
      if middle < b then FirstHit(b, e, middle + 1, hi)
      else if middle >= e then FirstHit(b, e, lo, middle - 1)
      else Some(middle)
  }

  lemma RankBound(name: Name, path: Name)
    ensures Rank(name, path) <= 3
  {
  }

  lemma StartSplits(s: seq<Entry>, path: Name, c: nat, k: nat)
    requires Sorted(s) && k < |s|
    ensures Rank(s[k].name, path) >= c <==> Start(s, path, c, 0) <= k
  {
    hide Rank;
    var i := Start(s, path, c, 0);
    if i <= k {
      RankMono(s[i].name, s[k].name, path);
    }
  }

  lemma StartsRise(s: seq<Entry>, path: Name, c: nat)
    ensures Start(s, path, c, 0) <= Start(s, path, c + 1, 0)
  {
    hide Rank;
  }

  /** Something between b and e is hit, if there is anything. */
  lemma {:induction false} HitsSome(b: nat, e: nat, lo: nat, hi: int)
    requires lo <= b <= e <= hi + 1
    ensures var h := FirstHit(b, e, lo, hi); if b < e then h.Some? && b <= h.value < e else h == None
    decreases hi - lo + 1
  {
    if lo <= hi {
      var middle := lo + (hi - lo) / 2;
      if middle < b {
        HitsSome(b, e, middle + 1, hi);
      } else if middle >= e {
        HitsSome(b, e, lo, middle - 1);
      }
    }
  }

  /** The file of that name, if there is one. */
  predicate NameIs(s: seq<Entry>, path: Name, r: Found) {
    if exists k :: 0 <= k < |s| && s[k].name == path then r.At? && r.index < |s| && s[r.index].name == path
    else r == Nothing
  }

  /** In a range before the directory's files only the path itself can be found. */
  lemma {:induction false} BeforeFiles(s: seq<Entry>, path: Name, lo: nat, hi: int)
    requires Sorted(s) && hi < |s| && hi < Places(s, path).1 && Within(s, path, lo, hi)
    ensures NameIs(s, path, Find(s, path, true, lo, hi))
    decreases hi - lo + 1
  {
    hide Sorted, Places, Rank;
    if lo <= hi {
      var middle := lo + (hi - lo) / 2;
      var name := s[middle].name;
      RankIs(name, path);
      PlacesAre(s, path, middle);
      NamesBeside(s, path, middle);
      if CmpPrefix(path, name) > 0 {
        BeforeFiles(s, path, middle + 1, hi);
      } else if CmpPrefix(path, name) < 0 || |name| != |path| {
        BeforeFiles(s, path, lo, middle - 1);
      } else {
        assert name == path;
      }
    }
  }

  lemma NamesBeside(s: seq<Entry>, path: Name, k: nat)
    requires Sorted(s) && k < |s|
    ensures forall l :: 0 <= l < |s| && s[l].name == path ==>
      && (CmpPrefix(path, s[k].name) > 0 ==> l > k) && (CmpPrefix(path, s[k].name) < 0 ==> l < k)
      && (StartsWith(s[k].name, path) && s[k].name != path ==> l < k)
  {
    hide Sorted, Cmp, CmpPrefix, StartsWith;
    forall l | 0 <= l < |s| && s[l].name == path
      ensures CmpPrefix(path, s[k].name) > 0 ==> l > k
      ensures CmpPrefix(path, s[k].name) < 0 ==> l < k
      ensures StartsWith(s[k].name, path) && s[k].name != path ==> l < k
    {
      Beside(s, path, k, l);
    }
  }

  /** What the search for a directory comes to is decided by the first hit among
      the path, the names that continue it below the slash, and the directory's
      files: these names come before the files, and the search then goes on there. */
  lemma {:induction false} FirstHitDecides(s: seq<Entry>, path: Name, lo: nat, hi: int)
    requires Sorted(s) && hi < |s| && lo <= Places(s, path).0 && Places(s, path).2 <= hi + 1
    ensures var h := FirstHit(Places(s, path).0, Places(s, path).2, lo, hi);
      var r := Find(s, path, true, lo, hi);
      if h == None then r == Nothing
      else if h.value >= Places(s, path).1 then r == Directory
      else NameIs(s, path, r)
    decreases hi - lo + 1
  {
    hide Sorted, Places, Rank;
    if lo <= hi {
      var middle := lo + (hi - lo) / 2;
      var name := s[middle].name;
      RankIs(name, path);
      RankSays(name, path);
      PlacesAre(s, path, middle);
      var (b, d, e) := Places(s, path);
      if middle < b {
        FirstHitDecides(s, path, middle + 1, hi);
      } else if middle >= e {
        FirstHitDecides(s, path, lo, middle - 1);
      } else if middle < d && name != path {
        NamesWithin(s, path, lo, hi, middle);
        BeforeFiles(s, path, lo, middle - 1);
      }
    }
  }

  lemma RankSays(name: Name, path: Name)
    ensures Rank(name, path) == 0 <==> CmpPrefix(path, name) > 0
    ensures Rank(name, path) == 1 ==> CmpPrefix(path, name) == 0
    ensures Rank(name, path) == 3 ==>
      CmpPrefix(path, name) < 0 || (CmpPrefix(path, name) == 0 && |name| > |path| && name[|path|] != SLASH)
  {
    PrefixZero(path, name);
  }

  /** The path's places are among those that precede the files. */
  lemma NamesWithin(s: seq<Entry>, path: Name, lo: nat, hi: int, k: nat)
    requires Sorted(s) && hi < |s| && lo <= Places(s, path).0 && k < |s|
    requires StartsWith(s[k].name, path) && s[k].name != path
    ensures Within(s, path, lo, k - 1)
  {
    hide Sorted, Places, Rank;
    NamesBeside(s, path, k);
    forall l | 0 <= l < |s| && s[l].name == path ensures lo <= l <= k - 1 {
      PlacesAre(s, path, l);
      RankIs(path, path);
    }
  }

  /** A directory is reported if and only if bisection comes to one of its files
      before it comes to the path or a name that continues it below the slash;
      otherwise the file of that name is, where there is one. */
  lemma FindsDirectoryIff(s: seq<Entry>, path: Name)
    requires Sorted(s)
    ensures var (b, d, e) := Places(s, path);
      var h, r := FirstHit(b, e, 0, |s| - 1), Find(s, path, true, 0, |s| - 1);
      && (r == Directory <==> h.Some? && d <= h.value)
      && (r != Directory ==> NameIs(s, path, r))
  {
    hide Sorted, Rank, Find, Places;
    PlacesRise(s, path);
    FirstHitDecides(s, path, 0, |s| - 1);
    var (b, d, e) := Places(s, path);
    HitsSome(b, e, 0, |s| - 1);
    if b == e {
      NothingThere(s, path);
    }
  }

  lemma NothingThere(s: seq<Entry>, path: Name)
    requires Sorted(s)
    ensures var (b, d, e) := Places(s, path);
      && (b == d <==> forall k :: 0 <= k < |s| ==> Rank(s[k].name, path) != 1)
      && (d == e <==> !HasDirectory(s, path))
    ensures var (b, d, e) := Places(s, path); b == d ==> forall k :: 0 <= k < |s| ==> s[k].name != path
  {
    hide Sorted, Rank, Places;
    var (b, d, e) := Places(s, path);
    forall k | 0 <= k < |s|
      ensures b == d ==> Rank(s[k].name, path) != 1 && s[k].name != path
      ensures d == e ==> !InDirectory(s[k].name, path)
    {
      PlacesAre(s, path, k);
      RankIs(s[k].name, path);
    }
    PlacesRise(s, path);
    if b < d {
      PlacesAre(s, path, b);
    }
    if d < e {
      PlacesAre(s, path, d);
      RankIs(s[d].name, path);
    }
  }

  lemma PlacesRise(s: seq<Entry>, path: Name)
    ensures var (b, d, e) := Places(s, path); b <= d <= e <= |s|
  {
    StartsRise(s, path, 1);
    StartsRise(s, path, 2);
  }

  /** So it is reported whenever nothing sorts between it and its files, neither its
      own name nor one that continues it with a byte below the slash. */
  lemma FindsDirectory(s: seq<Entry>, path: Name)
    requires Sorted(s) && NothingBefore(s, path)
    ensures Find(s, path, true, 0, |s| - 1) == if HasDirectory(s, path) then Directory else Nothing
  {
    hide Sorted, Find, Places;
    PlacesRise(s, path);
    FirstHitDecides(s, path, 0, |s| - 1);
    NothingThere(s, path);
    var (b, d, e) := Places(s, path);
    forall k | 0 <= k < |s| ensures Rank(s[k].name, path) != 1 {
      RankIs(s[k].name, path);
    }
    HitsSome(b, e, 0, |s| - 1);
  }

  lemma CmpAfter(c: NameByte, a: Name, b: Name)
    ensures Cmp([c] + a, [c] + b) == Cmp(a, b)
  {
  }

  /** Without the condition the answer can be wrong: with the files "a.b" and
      "a/c" the directory "a" is not found, and with "a", "a/b" and "a/c" the file
      "a" is not. */
  lemma DirectoryMissed(x: Entry, y: Entry, z: Entry)
    requires x.name == [97] && y.name == [97, 47, 98] && z.name == [97, 47, 99]
    ensures var dotted := x.(name := [97, 46, 98]);
      Sorted([dotted, z]) && HasDirectory([dotted, z], [97]) && Find([dotted, z], [97], true, 0, 1) == Nothing
    ensures Sorted([x, y, z]) && Find([x, y, z], [97], true, 0, 2) == Directory
  {
    var dotted := x.(name := [97, 46, 98]);
    CmpAfter(97, [46, 98], [47, 99]);
    CmpAfter(97, [], [47, 98]);
    CmpAfter(97, [], [47, 99]);
    CmpAfter(97, [47, 98], [47, 99]);
    CmpAfter(47, [98], [99]);
    CmpEqual([97, 46, 98], [97, 46, 98]);
    CmpEqual([97, 47, 98], [97, 47, 98]);
    CmpEqual([97, 47, 99], [97, 47, 99]);
    CmpEqual([97], [97]);
    assert InDirectory([dotted, z][1].name, [97]);
    PrefixZero([97], [97, 46, 98]);
    PrefixZero([97], [97, 47, 98]);
    assert Find([dotted, z], [97], true, 0, -1) == Nothing;
  }
}
