/** Canonical Huffman codes (section 3.2.2 of RFC 1951). A code is given by its
    sequence of code lengths; length 0 means the symbol is not used. */
module Huffman {
  import opened Bits

  const MAX_BITS := 15

  ghost predicate LensOk(lens: seq<nat>) {
    forall i :: 0 <= i < |lens| ==> lens[i] <= MAX_BITS
  }

  /** How many of the first k symbols have length l. */
  function CountTo(lens: seq<nat>, k: nat, l: nat): (n: nat)
    requires k <= |lens|
    ensures n <= k
  {
    if k == 0 then 0 else CountTo(lens, k - 1, l) + if lens[k - 1] == l then 1 else 0
  }

  function Count(lens: seq<nat>, l: nat): nat {
    CountTo(lens, |lens|, l)
  }

  /** The smallest code of length l. */
  function FirstCode(lens: seq<nat>, l: nat): nat {
    if l <= 1 then 0 else 2 * (FirstCode(lens, l - 1) + Count(lens, l - 1))
  }

  /** How many of the first k symbols have a length from 1 to l. */
  function UsedIn(lens: seq<nat>, k: nat, l: nat): nat
    requires k <= |lens|
    decreases l
  {
    if l == 0 then 0 else UsedIn(lens, k, l - 1) + CountTo(lens, k, l)
  }

  /** How many symbols have a length from 1 to l. */
  function UsedTo(lens: seq<nat>, l: nat): nat {
    UsedIn(lens, |lens|, l)
  }

  /** The code of symbol s: codes of one length are consecutive in symbol order. */
  function Code(lens: seq<nat>, s: nat): nat
    requires s < |lens|
  {
    FirstCode(lens, lens[s]) + CountTo(lens, s, lens[s])
  }

  /** The code is complete, or has at most one symbol. */
  predicate Acceptable(lens: seq<nat>) {
    FirstCode(lens, 16) == 65536 || UsedTo(lens, 15) <= 1
  }

  /** The code is not oversubscribed. */
  ghost predicate Fits(lens: seq<nat>) {
    FirstCode(lens, 16) <= Shl(1, 16)
  }

  /** Symbol s is used and the bits of word w start with its code. */
  ghost predicate WordHas(w: nat, lens: seq<nat>, s: nat) {
    s < |lens| && 0 < lens[s] && WordCode(w, lens[s]) == Code(lens, s)
  }

  /** The bits from position p of the stream start with the code of symbol s. */
  ghost predicate StreamHas(src: seq<Byte>, p: nat, lens: seq<nat>, s: nat) {
    s < |lens| && 0 < lens[s] && p + lens[s] <= 8 * |src| &&
    GetCode(src, p, lens[s]) == Code(lens, s)
  }

  // ---- order of codes

  lemma {:induction false} CountToMono(lens: seq<nat>, i: nat, j: nat, l: nat)
    requires i <= j <= |lens|
    ensures CountTo(lens, i, l) <= CountTo(lens, j, l)
    ensures i < j && lens[i] == l ==> CountTo(lens, i, l) < CountTo(lens, j, l)
    decreases j - i
  {
    if i < j {
      CountToMono(lens, i + 1, j, l);
    }
  }

  lemma CodeInBlock(lens: seq<nat>, s: nat)
    requires s < |lens|
    ensures FirstCode(lens, lens[s]) <= Code(lens, s) < FirstCode(lens, lens[s]) + Count(lens, lens[s])
  {
    CountToMono(lens, s, |lens|, lens[s]);
  }

  lemma NextFirst(lens: seq<nat>, l: nat)
    requires l >= 1
    ensures FirstCode(lens, 1) == 0 && FirstCode(lens, l + 1) == 2 * (FirstCode(lens, l) + Count(lens, l))
    ensures UsedTo(lens, 0) == 0 && UsedTo(lens, l) == UsedTo(lens, l - 1) + Count(lens, l)
  {
  }

  /** Every code of length l, padded to length m > l, is below the codes of length m. */
  lemma {:induction false} BlockBelow(lens: seq<nat>, l: nat, m: nat)
    requires 1 <= l < m
    ensures Shl(FirstCode(lens, l) + Count(lens, l), m - l) <= FirstCode(lens, m)
    decreases m
  {
    if m == l + 1 {
      assert Shl(FirstCode(lens, l) + Count(lens, l), 1) == 2 * Shl(FirstCode(lens, l) + Count(lens, l), 0);
    } else {
      BlockBelow(lens, l, m - 1);
    }
  }

  lemma {:induction false} FirstCodeByUse(lens: seq<nat>, l: nat)
    requires l >= 1
    ensures FirstCode(lens, l) <= Shl(UsedTo(lens, l - 1), l - 1)
    decreases l
  {
    if l > 1 {
      FirstCodeByUse(lens, l - 1);
      var u, c := UsedTo(lens, l - 2), Count(lens, l - 1);
      assert UsedTo(lens, l - 1) == u + c;
      ShlAdd(u, c, l - 2);
      ShlGrows(c, l - 2);
    }
  }

  lemma {:induction false} ShlGrows(w: nat, n: nat)
    ensures w <= Shl(w, n)
    decreases n
  {
    if n > 0 {
      ShlGrows(w, n - 1);
    }
  }

  lemma Shl16()
    ensures Shl(1, 16) == 65536 && Shl(1, 15) == 32768 && Shl(1, 10) == 1024
  {
    assert Shl(1, 5) == 32;
    assert Shl(1, 10) == 1024;
    assert Shl(1, 15) == 32768;
  }

  lemma AcceptableFits(lens: seq<nat>)
    requires Acceptable(lens)
    ensures Fits(lens)
  {
    Shl16();
    if UsedTo(lens, 15) <= 1 {
      FirstCodeByUse(lens, 16);
      ShlMono(UsedTo(lens, 15), 1, 15);
    }
  }

  lemma BlockFitsBelow(lens: seq<nat>, l: nat, m: nat)
    requires 1 <= l < m && FirstCode(lens, m) <= Shl(1, m)
    ensures FirstCode(lens, l) + Count(lens, l) <= Shl(1, l)
  {
    BlockBelow(lens, l, m);
    ShlShl(1, l, m - l);
    ShlCancel(FirstCode(lens, l) + Count(lens, l), Shl(1, l), m - l);
  }

  /** The codes of length l leave room among the 2^l words of that length. */
  lemma BlockFits(lens: seq<nat>, l: nat)
    requires Fits(lens) && 1 <= l <= MAX_BITS
    ensures FirstCode(lens, l) + Count(lens, l) <= Shl(1, l)
  {
    BlockFitsBelow(lens, l, 16);
  }

  lemma CodeFits(lens: seq<nat>, s: nat)
    requires Fits(lens) && s < |lens| && 1 <= lens[s] <= MAX_BITS
    ensures Code(lens, s) < Shl(1, lens[s])
  {
    CodeInBlock(lens, s);
    BlockFits(lens, lens[s]);
  }

  /** The first d bits of a longer code lie above every code of length d. */
  lemma PrefixAbove(lens: seq<nat>, s: nat, d: nat)
    requires Fits(lens) && s < |lens| && 1 <= d < lens[s] <= MAX_BITS
    ensures FirstCode(lens, d) + Count(lens, d) <= Shr(Code(lens, s), lens[s] - d) < Shl(1, d)
  {
    hide Shl, Shr, FirstCode, Fits, CountTo;
    var l, c := lens[s], Code(lens, s);
    CodeInBlock(lens, s);
    BlockBelow(lens, d, l);
    ShrBounds(c, FirstCode(lens, d) + Count(lens, d), l - d);
    CodeFits(lens, s);
    ShlShl(1, d, l - d);
    ShrBounds(c, Shl(1, d), l - d);
  }

  /** No code is a prefix of another. */
  lemma PrefixFree(lens: seq<nat>, s: nat, t: nat)
    requires Fits(lens) && s < |lens| && t < |lens|
    requires 1 <= lens[s] <= lens[t] <= MAX_BITS
    requires Shr(Code(lens, t), lens[t] - lens[s]) == Code(lens, s)
    ensures s == t
  {
    if lens[s] < lens[t] {
      PrefixAbove(lens, t, lens[s]);
      CodeInBlock(lens, s);
    } else if s < t {
      CountToMono(lens, s, t, lens[s]);
    } else if t < s {
      CountToMono(lens, t, s, lens[s]);
    }
  }

  /** A word starts with at most one code. */
  lemma WordHasUnique(w: nat, lens: seq<nat>, s: nat, t: nat)
    requires Fits(lens) && LensOk(lens) && WordHas(w, lens, s) && WordHas(w, lens, t)
    ensures s == t
  {
    if lens[s] <= lens[t] {
      WordCodePrefix(w, lens[s], lens[t] - lens[s]);
      PrefixFree(lens, s, t);
    } else {
      WordCodePrefix(w, lens[t], lens[s] - lens[t]);
      PrefixFree(lens, t, s);
    }
  }

  lemma StreamIsWord(src: seq<Byte>, p: nat, n: nat, lens: seq<nat>, s: nat)
    requires p + n <= 8 * |src| && s < |lens| && lens[s] <= n
    ensures StreamHas(src, p, lens, s) <==> WordHas(GetBits(src, p, n), lens, s)
  {
    WordCodeIs(src, p, n, lens[s]);
  }

  /** The stream starts with at most one code. */
  lemma StreamHasUnique(src: seq<Byte>, p: nat, lens: seq<nat>, s: nat, t: nat)
    requires Fits(lens) && LensOk(lens) && StreamHas(src, p, lens, s) && StreamHas(src, p, lens, t)
    ensures s == t
  {
    var n := if lens[s] < lens[t] then lens[t] else lens[s];
    StreamIsWord(src, p, n, lens, s);
    StreamIsWord(src, p, n, lens, t);
    WordHasUnique(GetBits(src, p, n), lens, s, t);
  }

  // ---- counting

  lemma {:induction false} UsedInStep(lens: seq<nat>, k: nat, l: nat)
    requires k < |lens|
    ensures UsedIn(lens, k + 1, l) == UsedIn(lens, k, l) + if 1 <= lens[k] <= l then 1 else 0
    decreases l
  {
    if l > 0 {
      UsedInStep(lens, k, l - 1);
    }
  }

  lemma {:induction false} UsedInGrows(lens: seq<nat>, i: nat, j: nat, l: nat)
    requires i <= j <= |lens|
    ensures UsedIn(lens, i, l) <= UsedIn(lens, j, l) <= UsedIn(lens, i, l) + (j - i)
    decreases j - i
  {
    if i < j {
      UsedInStep(lens, i, l);
      UsedInGrows(lens, i + 1, j, l);
    }
  }

  lemma {:induction false} UsedInNone(lens: seq<nat>, l: nat)
    ensures UsedIn(lens, 0, l) == 0
    decreases l
  {
    if l > 0 {
      UsedInNone(lens, l - 1);
    }
  }

  lemma UsedBound(lens: seq<nat>)
    ensures UsedTo(lens, 15) <= |lens|
  {
    UsedInNone(lens, 15);
    UsedInGrows(lens, 0, |lens|, 15);
  }

  /** Two used symbols make the count at least two. */
  lemma TwoUsed(lens: seq<nat>, s: nat, t: nat, l: nat)
    requires s < t < |lens| && 1 <= lens[s] <= l && 1 <= lens[t] <= l
    ensures UsedTo(lens, l) >= 2
  {
    UsedInStep(lens, s, l);
    UsedInGrows(lens, s + 1, t, l);
    UsedInStep(lens, t, l);
    UsedInGrows(lens, t + 1, |lens|, l);
  }

  /** Prefixes of length l that are inner nodes of the code tree. */
  function Inner(lens: seq<nat>, l: nat): int {
    Shl(1, l) - FirstCode(lens, l) - Count(lens, l)
  }

  function InnerTo(lens: seq<nat>, l: nat): int {
    if l == 0 then 0 else InnerTo(lens, l - 1) + Inner(lens, l)
  }

  /** Inner nodes against leaves, level by level. */
  lemma {:induction false} InnerAgainstLeaves(lens: seq<nat>, l: nat)
    requires l >= 1
    ensures UsedTo(lens, l) == 2 + InnerTo(lens, l - 1) - Inner(lens, l)
    decreases l
  {
    if l == 1 {
      assert UsedIn(lens, |lens|, 0) == 0;
      assert Shl(1, 1) == 2;
    } else {
      InnerAgainstLeaves(lens, l - 1);
    }
  }

  /** A complete code over n symbols has at most n - 2 inner nodes below its root. */
  lemma CompleteInner(lens: seq<nat>)
    requires FirstCode(lens, 16) == 65536
    ensures InnerTo(lens, 14) <= |lens| - 2
  {
    Shl16();
    InnerAgainstLeaves(lens, 15);
    UsedBound(lens);
  }
}
