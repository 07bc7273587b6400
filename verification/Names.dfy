/** File names as C strings: bytes without a NUL, ordered by strcmp. */
module Names {
  type NameByte = b: int | 1 <= b <= 255 witness 1
  type Name = seq<NameByte>

  const SLASH: NameByte := 47

  /** strcmp */
  function Cmp(a: Name, b: Name): int
    decreases |a|
  {
    if a == [] then if b == [] then 0 else -1
    else if b == [] then 1
    else if a[0] != b[0] then a[0] - b[0]
    else Cmp(a[1..], b[1..])
  }

  /** strncmp with the length of a: only the first |a| bytes of b count. */
  function CmpPrefix(a: Name, b: Name): int
    decreases |a|
  {
    if a == [] then 0
    else if b == [] then 1
    else if a[0] != b[0] then a[0] - b[0]
    else CmpPrefix(a[1..], b[1..])
  }

  predicate Le(a: Name, b: Name) { Cmp(a, b) <= 0 }

  lemma {:induction false} CmpFlips(a: Name, b: Name)
    ensures Cmp(a, b) == -Cmp(b, a)
    decreases |a|
  {
    if a != [] && b != [] {
      CmpFlips(a[1..], b[1..]);
    }
  }

  lemma {:induction false} CmpEqual(a: Name, b: Name)
    ensures Cmp(a, b) == 0 <==> a == b
    decreases |a|
  {
    if a != [] && b != [] && a[0] == b[0] {
      CmpEqual(a[1..], b[1..]);
      assert a == [a[0]] + a[1..] && b == [b[0]] + b[1..];
    }
  }

  /** The first byte that differs decides; a string comes before its continuations. */
  lemma {:induction false} CmpIs(a: Name, b: Name, i: nat)
    requires i <= |a| && i <= |b| && a[..i] == b[..i]
    ensures i < |a| && i < |b| && a[i] != b[i] ==> (Cmp(a, b) < 0 <==> a[i] < b[i])
    ensures i == |a| < |b| ==> Cmp(a, b) < 0
    decreases i
  {
    if i > 0 {
      assert a[0] == a[..i][0] && b[0] == b[..i][0];
      assert a[1..][..i - 1] == a[..i][1..] && b[1..][..i - 1] == b[..i][1..];
      CmpIs(a[1..], b[1..], i - 1);
    }
  }

  lemma {:induction false} LeTrans(a: Name, b: Name, c: Name)
    requires Le(a, b) && Le(b, c)
    ensures Le(a, c) && (Cmp(a, b) < 0 || Cmp(b, c) < 0 ==> Cmp(a, c) < 0)
    decreases |a|
  {
    if a != [] && b != [] && c != [] && a[0] == b[0] == c[0] {
      LeTrans(a[1..], b[1..], c[1..]);
    }
  }

  /** Strings that start with another one, and the byte after it. */
  predicate StartsWith(b: Name, a: Name) { |a| <= |b| && b[..|a|] == a }

  lemma {:induction false} PrefixZero(a: Name, b: Name)
    ensures CmpPrefix(a, b) == 0 <==> StartsWith(b, a)
    decreases |a|
  {
    if a != [] && b != [] && a[0] == b[0] {
      PrefixZero(a[1..], b[1..]);
      assert a == [a[0]] + a[1..] && b == [b[0]] + b[1..];
      if |a| <= |b| {
        assert b[..|a|] == [b[0]] + b[1..][..|a| - 1];
      }
    }
  }

  /** A difference within the prefix decides the whole comparison, and that of
      every longer string; without one the shorter string comes first. */
  lemma {:induction false} PrefixDecides(a: Name, e: Name, b: Name)
    ensures CmpPrefix(a, b) != 0 ==> Cmp(a + e, b) == CmpPrefix(a, b)
    ensures StartsWith(b, a) ==> Cmp(a + e, b) == Cmp(e, b[|a|..])
    decreases |a|
  {
    if a == [] {
      assert a + e == e;
    } else if b != [] && a[0] == b[0] {
      PrefixDecides(a[1..], e, b[1..]);
      assert (a + e)[1..] == a[1..] + e;
      if StartsWith(b, a) {
        assert b[1..][..|a| - 1] == a[1..];
        assert b[1..][|a| - 1..] == b[|a|..];
      }
    }
  }
}
