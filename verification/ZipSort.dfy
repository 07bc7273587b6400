/** Sorting the directory by name: quicksort with a bubble sort for short ranges
    (mk/linux/mojosetup/archive_zip.c:132-201, 1266-1289). */
module ZipSort {
  import opened Names
  import opened ZipEntry

  const THRESHOLD := 4

  /** The names of a range are in order, neighbour by neighbour. */
  predicate Ordered(s: seq<Entry>, lo: int, hi: int) {
    forall k :: 0 <= lo <= k < hi < |s| ==> Le(s[k].name, s[k + 1].name)
  }

  /** A range between two bounds, either of which may be missing. */
  predicate Above(low: Option<Name>, e: Entry) { low.Some? ==> Le(low.value, e.name) }

  predicate Below(e: Entry, high: Option<Name>) { high.Some? ==> Le(e.name, high.value) }

  predicate Between(s: seq<Entry>, lo: int, hi: int, low: Option<Name>, high: Option<Name>) {
    forall k :: 0 <= lo <= k <= hi < |s| ==> Above(low, s[k]) && Below(s[k], high)
  }

  /** The same entries, and the same ones in the same places outside a range. */
  predicate Rearranged(s: seq<Entry>, t: seq<Entry>, lo: int, hi: int) {
    |s| == |t| && multiset(s) == multiset(t) && forall k :: 0 <= k < |s| && !(lo <= k <= hi) ==> s[k] == t[k]
  }

  function Swapped(s: seq<Entry>, i: int, j: int): seq<Entry>
    requires 0 <= i < |s| && 0 <= j < |s|
  {
    s[i := s[j]][j := s[i]]
  }

  /** zip_entry_swap */
  method Swap(a: array<Entry>, one: nat, two: nat)
    requires one < a.Length && two < a.Length
    modifies a
    ensures a[..] == Swapped(old(a[..]), one, two)
  {
    if one != two {
      var tmp := a[one];
      a[one] := a[two];
      a[two] := tmp;
    }
  }

  lemma LeTotal(a: Name, b: Name)
    ensures Le(a, a) && (Cmp(a, b) > 0 ==> Le(b, a))
  {
    CmpEqual(a, a);
    CmpFlips(a, b);
  }

  /** zip_entry_cmp */
  function EntryCmp(a: array<Entry>, one: nat, two: nat): (r: int)
    requires one < a.Length && two < a.Length
    reads a
    ensures r <= 0 <==> Le(a[one].name, a[two].name)
    ensures r >= 0 <==> Le(a[two].name, a[one].name)
  {
    LeTotal(a[one].name, a[two].name);
    CmpFlips(a[one].name, a[two].name);
    if one != two then Cmp(a[one].name, a[two].name) else 0
  }

  // ---- bubble sort

  /** The entries after m are in their final places. */
  predicate Settled(s: seq<Entry>, lo: int, hi: int, m: int) {
    forall k, l :: 0 <= lo <= k <= l <= hi < |s| && m < l ==> Le(s[k].name, s[l].name)
  }

  /** Nothing before k is greater. */
  predicate Greatest(s: seq<Entry>, lo: int, k: int) {
    0 <= k < |s| && forall l :: 0 <= lo <= l <= k ==> Le(s[l].name, s[k].name)
  }

  lemma GreatestNext(s: seq<Entry>, lo: nat, k: nat)
    requires Greatest(s, lo, k) && k + 1 < |s| && Le(s[k].name, s[k + 1].name)
    ensures Greatest(s, lo, k + 1)
  {
    hide Le;
    forall l | lo <= l <= k + 1 ensures Le(s[l].name, s[k + 1].name) {
      if l <= k {
        LeTrans(s[l].name, s[k].name, s[k + 1].name);
      } else {
        LeTotal(s[l].name, s[l].name);
      }
    }
  }

  /** Exchanging neighbours that are out of order. */
  lemma BubbleStep(s: seq<Entry>, lo: nat, hi: nat, m: nat, i: nat)
    requires lo <= i < hi < |s| && lo <= m <= hi && Settled(s, lo, hi, m) && Greatest(s, lo, i)
    requires !Le(s[i].name, s[i + 1].name)
    ensures i < m && Settled(Swapped(s, i, i + 1), lo, hi, m) && Greatest(Swapped(s, i, i + 1), lo, i + 1)
  {
    hide Le;
    assert i + 1 <= m;
    LeTotal(s[i].name, s[i + 1].name);
    LeTotal(s[i].name, s[i].name);
    assert Le(s[i + 1].name, s[i].name) by {
      assert Cmp(s[i].name, s[i + 1].name) > 0 by { GreaterIs(s[i].name, s[i + 1].name); }
    }
  }

  lemma GreaterIs(a: Name, b: Name)
    requires !Le(a, b)
    ensures Cmp(a, b) > 0
  {
  }

  method BubblePass(a: array<Entry>, lo: nat, hi: nat, ghost m: nat) returns (sorted: bool)
    requires lo <= m <= hi < a.Length && Settled(a[..], lo, hi, m)
    modifies a
    ensures Rearranged(old(a[..]), a[..], lo, hi)
    ensures if sorted then Ordered(a[..], lo, hi) else m > lo && Settled(a[..], lo, hi, m - 1)
  {
    hide Le, Cmp, Settled, Greatest, Ordered, Rearranged, Swapped;
    sorted := true;
    Alone(a[..], lo, hi);
    for i := lo to hi
      invariant Rearranged(old(a[..]), a[..], lo, hi)
      invariant Settled(a[..], lo, hi, m) && Greatest(a[..], lo, i)
      invariant if sorted then Ordered(a[..], lo, i) else m > lo
      invariant i >= m ==> Greatest(a[..], lo, m)
    {
      ghost var s := a[..];
      if EntryCmp(a, i, i + 1) > 0 {
        BubbleStep(s, lo, hi, m, i);
        Swap(a, i, i + 1);
        Rearranges(old(a[..]), s, lo, hi, i, i + 1);
        sorted := false;
      } else {
        GreatestNext(s, lo, i);
        OrderedNext(s, lo, i);
      }
    }
    LastSettles(a[..], lo, hi, m);
  }

  lemma Alone(s: seq<Entry>, lo: nat, hi: nat)
    requires lo <= hi < |s|
    ensures Greatest(s, lo, lo) && Ordered(s, lo, lo) && Rearranged(s, s, lo, hi)
  {
    LeTotal(s[lo].name, s[lo].name);
  }

  lemma OrderedNext(s: seq<Entry>, lo: nat, i: nat)
    requires lo <= i && i + 1 < |s| && Le(s[i].name, s[i + 1].name)
    ensures Ordered(s, lo, i) ==> Ordered(s, lo, i + 1)
  {
    hide Le;
  }

  lemma Rearranges(r: seq<Entry>, s: seq<Entry>, lo: nat, hi: nat, i: nat, j: nat)
    requires Rearranged(r, s, lo, hi) && lo <= i <= hi < |s| && lo <= j <= hi
    ensures Rearranged(r, Swapped(s, i, j), lo, hi)
  {
  }

  lemma LastSettles(s: seq<Entry>, lo: nat, hi: nat, m: nat)
    requires lo <= m <= hi < |s| && Settled(s, lo, hi, m) && Greatest(s, lo, m)
    ensures Settled(s, lo, hi, m - 1)
  {
    hide Le;
  }

  /** The bubble sort: passes until one changes nothing. */
  method BubbleSort(a: array<Entry>, lo: nat, hi: nat)
    requires lo <= hi < a.Length
    modifies a
    ensures Rearranged(old(a[..]), a[..], lo, hi) && Ordered(a[..], lo, hi)
  {
    hide Le, Settled, Ordered, Rearranged;
    ghost var m := hi;
    NoneSettled(a[..], lo, hi);
    var sorted := false;
    while !sorted
      invariant lo <= m <= hi && Rearranged(old(a[..]), a[..], lo, hi)
      invariant if sorted then Ordered(a[..], lo, hi) else Settled(a[..], lo, hi, m)
      decreases m - lo, !sorted
    {
      ghost var s := a[..];
      sorted := BubblePass(a, lo, hi, m);
      RearrangedTwice(old(a[..]), s, a[..], lo, hi, lo, hi);
      if !sorted {
        m := m - 1;
      }
    }
  }

  lemma NoneSettled(s: seq<Entry>, lo: nat, hi: nat)
    requires lo <= hi < |s|
    ensures Settled(s, lo, hi, hi) && Rearranged(s, s, lo, hi)
  {
  }

  lemma RearrangedTwice(r: seq<Entry>, s: seq<Entry>, t: seq<Entry>, lo: int, hi: int, lo': int, hi': int)
    requires Rearranged(r, s, lo, hi) && Rearranged(s, t, lo', hi') && lo <= lo' && hi' <= hi
    ensures Rearranged(r, t, lo, hi)
  {
  }

  // ---- quicksort

  /** Rearranging a range keeps any bounds of it. */
  lemma BoundsKept(s: seq<Entry>, t: seq<Entry>, lo: nat, hi: int, low: Option<Name>, high: Option<Name>)
    requires Rearranged(s, t, lo, hi) && hi < |s| && Between(s, lo, hi, low, high)
    ensures Between(t, lo, hi, low, high)
  {
    hide Le, Above, Below, Rearranged;
    if lo <= hi {
      RangeKept(s, t, lo, hi);
      var u, v := s[lo..hi + 1], t[lo..hi + 1];
      forall k | lo <= k <= hi ensures Above(low, t[k]) && Below(t[k], high) {
        assert v[k - lo] in multiset(v) && v[k - lo] in u;
      }
    }
  }

  lemma RangeKept(s: seq<Entry>, t: seq<Entry>, lo: nat, hi: nat)
    requires Rearranged(s, t, lo, hi) && lo <= hi < |s|
    ensures |s| == |t| && multiset(s[lo..hi + 1]) == multiset(t[lo..hi + 1])
  {
    var u, v := s[lo..hi + 1], t[lo..hi + 1];
    assert s[..lo] == t[..lo] && s[hi + 1..] == t[hi + 1..];
    Parts(s, lo, hi);
    Parts(t, lo, hi);
    Cancel(multiset(s[..lo]), multiset(u), multiset(s[hi + 1..]), multiset(v));
  }

  lemma Parts(s: seq<Entry>, lo: nat, hi: nat)
    requires lo <= hi < |s|
    ensures multiset(s) == multiset(s[..lo]) + multiset(s[lo..hi + 1]) + multiset(s[hi + 1..])
  {
    assert s == s[..lo] + s[lo..hi + 1] + s[hi + 1..];
  }

  lemma Cancel(a: multiset<Entry>, b: multiset<Entry>, c: multiset<Entry>, d: multiset<Entry>)
    requires a + b + c == a + d + c
    ensures b == d
  {
    forall x ensures b[x] == d[x] {
      assert (a + b + c)[x] == (a + d + c)[x];
    }
  }

  /** The range split by the pivot at i: not greater before it, not less after
      it, and both between j and i. */
  predicate Split(s: seq<Entry>, lo: int, hi: int, j: int, i: int) {
    && 0 <= lo <= j < i < hi < |s|
    && Between(s, lo, i, None, Some(s[i].name)) && Between(s, j + 1, hi, Some(s[i].name), None)
  }

  /** Sorting both sides of the pivot sorts the range. */
  lemma SidesSorted(s: seq<Entry>, t: seq<Entry>, u: seq<Entry>, lo: nat, hi: nat, j: nat, i: nat)
    requires Split(s, lo, hi, j, i)
    requires Rearranged(s, t, lo, j) && Ordered(t, lo, j)
    requires Rearranged(t, u, i + 1, hi) && Ordered(u, i + 1, hi)
    ensures Ordered(u, lo, hi)
  {
    hide Le;
    var p := s[i].name;
    assert Between(s, lo, j, None, Some(p)) && Between(s, i + 1, hi, Some(p), None);
    BoundsKept(s, t, lo, j, None, Some(p));
    assert Between(t, i + 1, hi, Some(p), None);
    BoundsKept(t, u, i + 1, hi, Some(p), None);
    forall k | lo <= k < hi ensures Le(u[k].name, u[k + 1].name) {
      if k < j {
        assert u[k] == t[k] && u[k + 1] == t[k + 1];
      } else if k <= i {
        Around(s, t, u, lo, hi, j, i, k);
      }
    }
  }

  /** At the pivot, and in the gap before it. */
  lemma Around(s: seq<Entry>, t: seq<Entry>, u: seq<Entry>, lo: nat, hi: nat, j: nat, i: nat, k: nat)
    requires Split(s, lo, hi, j, i) && Rearranged(s, t, lo, j) && Rearranged(t, u, i + 1, hi) && j <= k <= i
    requires Between(t, lo, j, None, Some(s[i].name)) && Between(u, i + 1, hi, Some(s[i].name), None)
    ensures Le(u[k].name, u[k + 1].name)
  {
    hide Le;
    var p := s[i].name;
    assert Below(u[k], Some(p)) && Above(Some(p), u[k + 1]) by {
      LeTotal(p, p);
      assert k > j ==> u[k] == s[k];
      assert k == j ==> u[k] == t[k];
      assert k < i ==> u[k + 1] == s[k + 1];
    }
    LeTrans(u[k].name, p, u[k + 1].name);
  }

  /** One of the three exchanges that order the ends and the middle. */
  method OrderPair(a: array<Entry>, x: nat, y: nat, ghost z: nat, ghost lo: nat, ghost hi: nat)
    requires lo <= x < y <= hi < a.Length && z < a.Length && z != x && z != y
    modifies a
    ensures Rearranged(old(a[..]), a[..], lo, hi) && Le(a[x].name, a[y].name) && a[z] == old(a[z])
    ensures (a[x] == old(a[x]) && a[y] == old(a[y])) ||
            (a[x] == old(a[y]) && a[y] == old(a[x]) && Le(old(a[y]).name, old(a[x]).name))
  {
    hide Le, Cmp, Rearranged;
    Alone(a[..], lo, hi);
    if EntryCmp(a, x, y) > 0 {
      Rearranges(a[..], a[..], lo, hi, x, y);
      Swap(a, x, y);
    }
  }

  /** The median of three goes to hi - 1 as the pivot (lines 166-173). */
  method Median(a: array<Entry>, lo: nat, hi: nat)
    requires lo + THRESHOLD < hi < a.Length
    modifies a
    ensures Rearranged(old(a[..]), a[..], lo, hi)
    ensures Le(a[lo].name, a[hi - 1].name) && Le(a[hi - 1].name, a[hi].name)
  {
    hide Le, Cmp, Rearranged, Swapped;
    var i := (hi + lo) / 2;
    OrderPair(a, lo, i, hi, lo, hi);
    ghost var s := a[..];
    OrderPair(a, lo, hi, i, lo, hi);
    ghost var t := a[..];
    RearrangedTwice(old(a[..]), s, t, lo, hi, lo, hi);
    if a[lo] == s[hi] {
      LeTrans(s[hi].name, s[lo].name, s[i].name);
    }
    OrderPair(a, i, hi, lo, lo, hi);
    ghost var u := a[..];
    RearrangedTwice(old(a[..]), t, u, lo, hi, lo, hi);
    assert Le(u[lo].name, u[i].name) && Le(u[i].name, u[hi].name);
    Rearranges(old(a[..]), u, lo, hi, i, hi - 1);
    Moved(u, lo, i, hi);
    Swap(a, i, hi - 1);
  }

  lemma Moved(u: seq<Entry>, lo: nat, i: nat, hi: nat)
    requires lo < i < hi - 1 && hi < |u|
    ensures var v := Swapped(u, i, hi - 1); |v| == |u| && v[lo] == u[lo] && v[hi - 1] == u[i] && v[hi] == u[hi]
  {
  }

  /** The two scans (lines 174-184): they stop at the range's ends because of
      the median, and pass each other by one or two places. */
  method Partition(a: array<Entry>, lo: nat, hi: nat) returns (j: nat, i: nat)
    requires lo + THRESHOLD < hi < a.Length
    modifies a
    ensures Rearranged(old(a[..]), a[..], lo, hi) && Split(a[..], lo, hi, j, i)
  {
    hide Le, Cmp, Rearranged;
    Median(a, lo, hi);
    ghost var p := a[hi - 1].name;
    LeTotal(p, p);
    var v := hi - 1;
    i, j := lo, hi - 1;
    while true
      invariant lo <= i <= j < hi && a[v].name == p && (j < hi - 1 ==> lo < i) && (j == hi - 1 ==> i == lo)
      invariant Between(a[..], lo, i, None, Some(p)) && Between(a[..], j, hi, Some(p), None)
      invariant Rearranged(old(a[..]), a[..], lo, hi)
      decreases j - i
    {
      ghost var i0, j0 := i, j;
      i := i + 1;
      while EntryCmp(a, i, v) < 0
        invariant lo <= i0 < i < hi && Between(a[..], lo, i - 1, None, Some(p))
        decreases hi - i
      {
        i := i + 1;
      }
      j := j - 1;
      while EntryCmp(a, j, v) > 0
        invariant lo <= j < j0 && j < hi - 1 && Between(a[..], j + 1, hi, Some(p), None)
        decreases j
      {
        j := j - 1;
      }
      if j < i {
        break;
      }
      Rearranges(old(a[..]), a[..], lo, hi, i, j);
      Swap(a, i, j);
    }
    Rearranges(old(a[..]), a[..], lo, hi, i, hi - 1);
    Swap(a, i, hi - 1);
  }

  method QuickSort(a: array<Entry>, lo: nat, hi: nat)
    requires lo <= hi < a.Length
    modifies a
    ensures Rearranged(old(a[..]), a[..], lo, hi) && Ordered(a[..], lo, hi)
    decreases hi - lo
  {
    hide Le, Rearranged, Ordered, Between;
    if hi - lo <= THRESHOLD {
      BubbleSort(a, lo, hi);
    } else {
      var j, i := Partition(a, lo, hi);
      ghost var s := a[..];
      QuickSort(a, lo, j);
      ghost var t := a[..];
      QuickSort(a, i + 1, hi);
      SidesSorted(s, t, a[..], lo, hi, j, i);
      RearrangedWider(s, t, lo, hi, lo, j);
      RearrangedTwice(s, t, a[..], lo, hi, i + 1, hi);
      RearrangedTwice(old(a[..]), s, a[..], lo, hi, lo, hi);
    }
  }

  lemma RearrangedWider(s: seq<Entry>, t: seq<Entry>, lo: int, hi: int, lo': int, hi': int)
    requires Rearranged(s, t, lo', hi') && lo <= lo' && hi' <= hi
    ensures Rearranged(s, t, lo, hi)
  {
  }

  /** In order of name, however far apart. */
  predicate Sorted(s: seq<Entry>) {
    forall k, l :: 0 <= k <= l < |s| ==> Le(s[k].name, s[l].name)
  }

  lemma {:induction false} OrderedIsSorted(s: seq<Entry>, k: nat, l: nat)
    requires Ordered(s, 0, |s| - 1) && k <= l < |s|
    ensures Le(s[k].name, s[l].name)
    decreases l
  {
    hide Le;
    if k == l {
      LeTotal(s[k].name, s[k].name);
    } else {
      OrderedIsSorted(s, k, l - 1);
      LeTrans(s[k].name, s[l - 1].name, s[l].name);
    }
  }

  /** __PHYSFS_sort: the entries are put in order of name, and none is lost. */
  method Sort(a: array<Entry>)
    modifies a
    ensures Sorted(a[..]) && multiset(a[..]) == multiset(old(a[..]))
  {
    hide Le;
    if a.Length > 0 {
      QuickSort(a, 0, a.Length - 1);
    }
    forall k, l | 0 <= k <= l < a.Length ensures Le(a[k].name, a[l].name) {
      OrderedIsSorted(a[..], k, l);
    }
  }
}
