/** The decoder's Huffman table and the loop that fills it
    (mk/linux/mojosetup/miniz.h:353-375). */
module Table {
  import opened Bits
  import opened Huffman
  import opened HuffTable

  class HuffmanTable {
    const codeSize: array<Byte>
    const lookUp: array<Int16>
    const tree: array<Int16>
    ghost var nodes: Nodes

    ghost predicate Valid() {
      codeSize.Length == 288 && lookUp.Length == LOOKUP_SIZE && tree.Length == TREE_SIZE &&
      codeSize as object != lookUp && codeSize as object != tree && lookUp != tree
    }

    ghost function Arrays(): set<object> { {codeSize as object, lookUp, tree} }

    /** The table is the code tree of lens. */
    ghost predicate Decodes(lens: seq<nat>)
      reads this, lookUp, tree
    {
      CodeOk(lens) && Holds(lens, |lens|, nodes, lookUp[..], tree[..])
    }

    constructor ()
      ensures Valid() && fresh(Arrays())
    {
      var c := new Byte[288](_ => 0);
      var l := new Int16[LOOKUP_SIZE](_ => 0);
      var t := new Int16[TREE_SIZE](_ => 0);
      codeSize, lookUp, tree := c, l, t;
      nodes := map[];
    }

    /** Forgets the old code. */
    method Clear()
      requires Valid()
      modifies lookUp, tree, this`nodes
      ensures nodes == map[]
      ensures forall i :: 0 <= i < LOOKUP_SIZE ==> lookUp[i] == 0
      ensures forall i :: 0 <= i < TREE_SIZE ==> tree[i] == 0
    {
      forall i | 0 <= i < LOOKUP_SIZE { lookUp[i] := 0; }
      forall i | 0 <= i < TREE_SIZE { tree[i] := 0; }
      nodes := map[];
    }

    /** Writes v to all lookup entries whose low bits are rev. */
    method FillLookUp(rev: nat, size: nat, v: Int16)
      requires Valid() && rev < Shl(1, size)
      modifies lookUp
      ensures forall i :: 0 <= i < LOOKUP_SIZE ==>
        lookUp[i] == if Low(i, size) == rev then v else old(lookUp[i])
    {
      LowFits(rev, size);
      NoneBelow(rev, size);
      var r := rev;
      while r < LOOKUP_SIZE
        invariant Low(r, size) == rev
        invariant forall i :: r <= i < LOOKUP_SIZE ==> lookUp[i] == old(lookUp[i])
        invariant forall i :: 0 <= i < LOOKUP_SIZE && i < r ==>
          lookUp[i] == if Low(i, size) == rev then v else old(lookUp[i])
        decreases LOOKUP_SIZE - r
      {
        lookUp[r] := v;
        NextIndex(r, size);
        r := r + Shl(1, size);
      }
    }

    /** A code of at most ten bits goes to the lookup. */
    method EnterShort(ghost lens: seq<nat>, sym: nat, rev: nat, size: nat)
      requires Valid() && CodeOk(lens) && sym < |lens| && size == lens[sym] && 1 <= size <= LOOKUP_BITS
      requires Holds(lens, sym, nodes, lookUp[..], tree[..]) && rev == WordCode(Code(lens, sym), size)
      modifies lookUp
      ensures Holds(lens, sym + 1, nodes, lookUp[..], tree[..])
    {
      ghost var look := lookUp[..];
      WordCodeBound(Code(lens, sym), size);
      FillLookUp(rev, size, Leaf(size, sym));
      forall i | 0 <= i < LOOKUP_SIZE
        ensures lookUp[i] == if WordHas(i, lens, sym) then Leaf(lens[sym], sym) else look[i]
      {
        IndexMatches(i, lens, sym);
      }
      HuffTable.EnterShort(lens, sym, nodes, look, lookUp[..], tree[..]);
    }

    /** The overflow node of depth ten for a long code, made if it is missing. */
    method RootNode(ghost lens: seq<nat>, sym: nat, slot: nat, treeNext: int) returns (treeCur: int, next: int)
      requires Valid() && CodeOk(lens) && sym < |lens| && LOOKUP_BITS < lens[sym] && slot < LOOKUP_SIZE
      requires WordCode(slot, LOOKUP_BITS) == Prefix(lens, sym, LOOKUP_BITS)
      requires Entering(lens, sym, LOOKUP_BITS, nodes, lookUp[..], tree[..]) && treeNext == Ref(|nodes|)
      modifies lookUp, this`nodes
      ensures Entering(lens, sym, LOOKUP_BITS + 1, nodes, lookUp[..], tree[..]) && next == Ref(|nodes|)
      ensures (LOOKUP_BITS, Prefix(lens, sym, LOOKUP_BITS)) in nodes
      ensures treeCur == Ref(nodes[(LOOKUP_BITS, Prefix(lens, sym, LOOKUP_BITS))])
    {
      ghost var y := (LOOKUP_BITS, Prefix(lens, sym, LOOKUP_BITS));
      ghost var look := lookUp[..];
      treeCur, next := lookUp[slot], treeNext;
      assert LookEntry(lens, sym, nodes, slot, look[slot]);
      RootShows(lens, sym, nodes, slot, treeCur);
      if treeCur == 0 {
        RoomForOne(lens, sym, LOOKUP_BITS, nodes, y);
        lookUp[slot] := treeNext;
        treeCur, next := treeNext, treeNext - 2;
        AddRoot(lens, sym, nodes, look, tree[..], slot, lookUp[..], y);
        nodes := nodes[y := |nodes|];
      }
    }

    /** One bit further down the code of sym: the node below, made if it is missing. */
    method InnerNode(ghost lens: seq<nat>, sym: nat, ghost d: nat, treeCur: int, bit: nat, treeNext: int)
      returns (cur: int, next: int)
      requires Valid() && CodeOk(lens) && sym < |lens| && LOOKUP_BITS < d < lens[sym] && bit < 2
      requires Entering(lens, sym, d, nodes, lookUp[..], tree[..]) && treeNext == Ref(|nodes|)
      requires treeCur == Ref(nodes[(d - 1, Prefix(lens, sym, d - 1))])
      requires Prefix(lens, sym, d) == 2 * Prefix(lens, sym, d - 1) + bit
      modifies tree, this`nodes
      ensures Entering(lens, sym, d + 1, nodes, lookUp[..], tree[..]) && next == Ref(|nodes|)
      ensures (d, Prefix(lens, sym, d)) in nodes && cur == Ref(nodes[(d, Prefix(lens, sym, d))])
    {
      hide Entering, CodeOk, NodesOk, TreeEntry, PathIn, Prefix;
      ghost var x := (d - 1, Prefix(lens, sym, d - 1));
      ghost var y := (d, Prefix(lens, sym, d));
      ghost var t := tree[..];
      EntryBelow(lens, sym, d, nodes, lookUp[..], t, bit);
      cur, next := treeCur - bit, treeNext;
      var j := -cur - 1;
      assert j == 2 * nodes[x] + bit && Child(x, bit) == y;
      NodeShows(lens, sym, d, nodes, t[j]);
      if tree[j] == 0 {
        RoomForOne(lens, sym, d, nodes, y);
        tree[j] := treeNext;
        cur, next := treeNext, treeNext - 2;
        AddInner(lens, sym, d, nodes, lookUp[..], t, x, bit, tree[..], y);
        nodes := nodes[y := |nodes|];
      } else {
        cur := tree[j];
        Passes(lens, sym, d, nodes, lookUp[..], tree[..]);
      }
    }

    /** The last bit of the code: the leaf. */
    method LeafNode(ghost lens: seq<nat>, sym: nat, treeCur: int, bit: nat)
      requires Valid() && CodeOk(lens) && sym < |lens| && LOOKUP_BITS < lens[sym] && bit < 2
      requires Entering(lens, sym, lens[sym], nodes, lookUp[..], tree[..])
      requires treeCur == Ref(nodes[(lens[sym] - 1, Prefix(lens, sym, lens[sym] - 1))])
      requires Code(lens, sym) == 2 * Prefix(lens, sym, lens[sym] - 1) + bit
      modifies tree
      ensures Holds(lens, sym + 1, nodes, lookUp[..], tree[..])
    {
      hide NodesOk, LookOk, Holds, LensOk;
      ghost var x := (lens[sym] - 1, Prefix(lens, sym, lens[sym] - 1));
      ghost var t := tree[..];
      assert x in nodes;
      var j := -(treeCur - bit) - 1;
      assert j == 2 * nodes[x] + bit;
      tree[j] := sym;
      AddLeaf(lens, sym, nodes, lookUp[..], t, x, bit, tree[..]);
    }

    /** A code of more than ten bits goes to the overflow tree. */
    method EnterLong(ghost lens: seq<nat>, sym: nat, revCode: nat, size: nat, treeNext: int) returns (next: int)
      requires Valid() && CodeOk(lens) && sym < |lens| && size == lens[sym] && LOOKUP_BITS < size
      requires Holds(lens, sym, nodes, lookUp[..], tree[..]) && treeNext == Ref(|nodes|)
      requires WordHas(revCode, lens, sym)
      modifies lookUp, tree, this`nodes
      ensures Holds(lens, sym + 1, nodes, lookUp[..], tree[..]) && next == Ref(|nodes|)
    {
      hide Holds, Entering, CodeOk, Shr, Low, Prefix, WordHas;
      var slot := Low(revCode, LOOKUP_BITS);
      StartLong(lens, sym, nodes, lookUp[..], tree[..]);
      SlotOfCode(revCode, lens, sym);
      var treeCur;
      treeCur, next := RootNode(lens, sym, slot, treeNext);
      var rev := Shr(revCode, LOOKUP_BITS - 1);
      var j := size;
      ghost var d: nat := LOOKUP_BITS;
      while j > LOOKUP_BITS + 1
        invariant LOOKUP_BITS + 1 <= j && d == size - j + LOOKUP_BITS && LOOKUP_BITS <= d < size
        invariant rev == Shr(revCode, d - 1) && next == Ref(|nodes|)
        invariant Entering(lens, sym, d + 1, nodes, lookUp[..], tree[..])
        invariant (d, Prefix(lens, sym, d)) in nodes && treeCur == Ref(nodes[(d, Prefix(lens, sym, d))])
      {
        PrefixNext(revCode, lens, sym, d);
        rev := rev / 2;
        treeCur, next := InnerNode(lens, sym, d + 1, treeCur, rev % 2, next);
        j, d := j - 1, d + 1;
      }
      PrefixNext(revCode, lens, sym, d);
      LeafNode(lens, sym, treeCur, rev / 2 % 2);
    }

    /** total_syms: how many codes there are of each length. */
    method CountSizes(ghost lens: seq<nat>, size: nat) returns (totalSyms: array<nat>)
      requires Valid() && size <= 288 && LensOk(lens) && lens == codeSize[..size]
      ensures fresh(totalSyms) && totalSyms.Length == 16
      ensures forall l :: 0 <= l < 16 ==> totalSyms[l] == Count(lens, l)
    {
      totalSyms := new nat[16](_ => 0);
      for i := 0 to size
        invariant forall l :: 0 <= l < 16 ==> totalSyms[l] == CountTo(lens, i, l)
      {
        assert codeSize[i] == lens[i];
        totalSyms[codeSize[i]] := totalSyms[codeSize[i]] + 1;
      }
    }

    /** Symbol sym with code cur. */
    method Enter(ghost lens: seq<nat>, sym: nat, size: nat, code: nat, treeNext: int) returns (next: int)
      requires Valid() && CodeOk(lens) && sym < |lens| && size == lens[sym] && 0 < size && code == Code(lens, sym)
      requires Holds(lens, sym, nodes, lookUp[..], tree[..]) && treeNext == Ref(|nodes|)
      modifies lookUp, tree, this`nodes
      ensures Holds(lens, sym + 1, nodes, lookUp[..], tree[..]) && next == Ref(|nodes|)
    {
      next := treeNext;
      var rev := Reverse(code, size);
      if size <= LOOKUP_BITS {
        EnterShort(lens, sym, rev, size);
      } else {
        LowOfCode(lens, sym);
        IndexMatches(rev, lens, sym);
        next := EnterLong(lens, sym, rev, size, treeNext);
      }
    }

    /** Fills the tables for the first size code lengths, or rejects them. */
    method Build(size: nat) returns (ok: bool)
      requires Valid() && size <= 288
      requires forall i :: 0 <= i < size ==> codeSize[i] <= MAX_BITS
      modifies lookUp, tree, this`nodes
      ensures ok == Acceptable(codeSize[..size])
      ensures ok ==> Decodes(codeSize[..size])
    {
      ghost var lens: seq<nat> := codeSize[..size];
      Clear();
      var totalSyms := CountSizes(lens, size);
      var nextCode, used, total := NextCodes(lens, totalSyms);
      if total != 65536 && used > 1 {
        return false;
      }
      HoldsNothing(lens, lookUp[..], tree[..]);
      EnterAll(lens, size, nextCode);
      ok := true;
    }

    /** Enters all the symbols, in order. */
    method EnterAll(ghost lens: seq<nat>, size: nat, nextCode: array<nat>)
      requires Valid() && size <= 288 && CodeOk(lens) && lens == codeSize[..size]
      requires nextCode.Length == 17 && CodesFrom(lens, 0, nextCode[..])
      requires Holds(lens, 0, nodes, lookUp[..], tree[..]) && nodes == map[]
      modifies lookUp, tree, nextCode, this`nodes
      ensures Holds(lens, size, nodes, lookUp[..], tree[..])
    {
      hide Holds, CodesFrom, Acceptable, Count, FirstCode;
      var treeNext := -1;
      for sym := 0 to size
        invariant CodesFrom(lens, sym, nextCode[..])
        invariant Holds(lens, sym, nodes, lookUp[..], tree[..]) && treeNext == Ref(|nodes|)
      {
        var s := codeSize[sym];
        assert s == lens[sym] <= MAX_BITS;
        if s == 0 {
          CodesStep(lens, sym, nextCode[..]);
          EnterUnused(lens, sym, nodes, lookUp[..], tree[..]);
        } else {
          var cur := TakeCode(lens, sym, s, nextCode);
          treeNext := Enter(lens, sym, s, cur, treeNext);
        }
      }
    }
  }

  /** next[l] is the code of the next symbol of length l from symbol k on. */
  ghost predicate CodesFrom(lens: seq<nat>, k: nat, next: seq<nat>)
    requires k <= |lens|
  {
    |next| == 17 && forall l :: 1 <= l < 16 ==> next[l] == FirstCode(lens, l) + CountTo(lens, k, l)
  }

  lemma CodesStep(lens: seq<nat>, k: nat, next: seq<nat>)
    requires k < |lens| && CodesFrom(lens, k, next) && lens[k] <= MAX_BITS
    ensures 0 < lens[k] ==> next[lens[k]] == Code(lens, k)
    ensures CodesFrom(lens, k + 1, if lens[k] == 0 then next else next[lens[k] := next[lens[k]] + 1])
  {
  }

  method TakeCode(ghost lens: seq<nat>, sym: nat, size: nat, nextCode: array<nat>) returns (code: nat)
    requires nextCode.Length == 17 && sym < |lens| && size == lens[sym] && 0 < size <= MAX_BITS
    requires CodesFrom(lens, sym, nextCode[..])
    modifies nextCode
    ensures code == Code(lens, sym) && CodesFrom(lens, sym + 1, nextCode[..])
  {
    code := nextCode[size];
    CodesStep(lens, sym, nextCode[..]);
    ghost var next: seq<nat> := nextCode[..];
    nextCode[size] := code + 1;
    assert nextCode[..] == next[size := code + 1];
  }

  /** next_code and total: the first code of each length. */
  method NextCodes(ghost lens: seq<nat>, totalSyms: array<nat>)
    returns (nextCode: array<nat>, used: nat, total: nat)
    requires totalSyms.Length == 16
    requires forall l :: 0 <= l < 16 ==> totalSyms[l] == Count(lens, l)
    ensures fresh(nextCode) && nextCode.Length == 17
    ensures forall l :: 1 <= l < 17 ==> nextCode[l] == FirstCode(lens, l)
    ensures used == UsedTo(lens, 15) && total == FirstCode(lens, 16)
  {
    hide Count, FirstCode, UsedTo;
    nextCode := new nat[17](_ => 0);
    used, total := 0, 0;
    NextFirst(lens, 1);
    for i := 1 to 16
      invariant forall l :: 1 <= l <= i ==> nextCode[l] == FirstCode(lens, l)
      invariant used == UsedTo(lens, i - 1) && total == FirstCode(lens, i)
      invariant forall l :: 0 <= l < 16 ==> totalSyms[l] == Count(lens, l)
    {
      NextFirst(lens, i);
      used := used + totalSyms[i];
      total := 2 * (total + totalSyms[i]);
      nextCode[i + 1] := total;
    }
  }

  lemma HoldsNothing(lens: seq<nat>, look: seq<Int16>, tree: seq<Int16>)
    requires |look| == LOOKUP_SIZE && |tree| == TREE_SIZE
    requires forall i :: 0 <= i < LOOKUP_SIZE ==> look[i] == 0
    requires forall i :: 0 <= i < TREE_SIZE ==> tree[i] == 0
    ensures Holds(lens, 0, map[], look, tree)
  {
  }

  /** The entry of the next node of a code that is being entered. */
  lemma EntryBelow(lens: seq<nat>, k: nat, d: nat, nodes: Nodes, look: seq<Int16>, tree: seq<Int16>, b: nat)
    requires k < |lens| && LOOKUP_BITS < d < lens[k] && b < 2 && Entering(lens, k, d, nodes, look, tree)
    requires Prefix(lens, k, d) == 2 * Prefix(lens, k, d - 1) + b
    ensures NodesOk(lens, k + 1, nodes) && PathIn(lens, k, d, nodes)
    ensures var x := (d - 1, Prefix(lens, k, d - 1));
      && x in nodes && |tree| == TREE_SIZE && 2 * nodes[x] + b < TREE_SIZE
      && TreeEntry(lens, k, nodes, (d, Prefix(lens, k, d)), tree[2 * nodes[x] + b])
  {
    hide NodesOk, TreeEntry, Prefix, LookOk;
    var x := (d - 1, Prefix(lens, k, d - 1));
    assert x in nodes;
    assert TreeEntry(lens, k, nodes, Child(x, b), tree[2 * nodes[x] + b]);
  }

  /** A node that is there already is passed. */
  lemma Passes(lens: seq<nat>, k: nat, d: nat, nodes: Nodes, look: seq<Int16>, tree: seq<Int16>)
    requires k < |lens| && d < lens[k] && Entering(lens, k, d, nodes, look, tree) && (d, Prefix(lens, k, d)) in nodes
    ensures Entering(lens, k, d + 1, nodes, look, tree)
  {
    hide NodesOk, LookOk, TreeOk, PathsIn;
  }

  lemma SlotOfCode(w: nat, lens: seq<nat>, s: nat)
    requires WordHas(w, lens, s) && LOOKUP_BITS < lens[s]
    ensures Low(w, LOOKUP_BITS) < LOOKUP_SIZE
    ensures WordCode(Low(w, LOOKUP_BITS), LOOKUP_BITS) == Prefix(lens, s, LOOKUP_BITS)
  {
    LowBound(w);
    WordCodeLow(w, LOOKUP_BITS, LOOKUP_BITS);
    PrefixOfWord(w, lens, s, LOOKUP_BITS);
  }

  lemma PrefixNext(w: nat, lens: seq<nat>, s: nat, d: nat)
    requires WordHas(w, lens, s) && d < lens[s]
    ensures Prefix(lens, s, d + 1) == 2 * Prefix(lens, s, d) + Shr(w, d) % 2
    ensures Prefix(lens, s, lens[s]) == Code(lens, s)
    ensures d > 0 ==> Shr(w, d - 1) / 2 == Shr(w, d)
  {
    if d > 0 {
      ShrHalf(w, d - 1);
    }
    PrefixOfWord(w, lens, s, d);
    PrefixOfWord(w, lens, s, d + 1);
  }

  /** There is room for one more node on the way to symbol k. */
  lemma RoomForOne(lens: seq<nat>, k: nat, d: nat, nodes: Nodes, y: Node)
    requires CodeOk(lens) && k < |lens| && LOOKUP_BITS <= d < lens[k] && NodesOk(lens, k + 1, nodes)
    requires y == (d, Prefix(lens, k, d)) && PathIn(lens, k, d, nodes) && y !in nodes
    ensures 2 * |nodes| + 2 <= TREE_SIZE - 2
    ensures |nodes[y := |nodes|]| == |nodes| + 1
  {
    GrowNodes(lens, k, d, nodes, y);
    TreeHasRoom(lens, k + 1, nodes[y := |nodes|]);
  }

  /** rev_code: the code bits in stream order. */
  method Reverse(code: nat, size: nat) returns (rev: nat)
    ensures rev == WordCode(code, size)
  {
    var l, cur := size, code;
    rev := 0;
    while l > 0
      invariant 0 <= l <= size
      invariant cur == Shr(code, size - l) && rev == WordCode(code, size - l)
    {
      ShrHalf(code, size - l);
      rev := 2 * rev + cur % 2;
      l, cur := l - 1, cur / 2;
    }
  }

  /** The indices with the same n low bits as r are 2^n apart. */
  lemma {:induction false} NextIndex(r: nat, n: nat)
    ensures Shl(1, n) > 0 && Low(r + Shl(1, n), n) == Low(r, n)
    ensures forall i: nat :: r < i < r + Shl(1, n) ==> Low(i, n) != Low(r, n)
    decreases n
  {
    ShlGrows(1, n);
    if n > 0 {
      NextIndex(r / 2, n - 1);
      assert (r + Shl(1, n)) / 2 == r / 2 + Shl(1, n - 1);
      forall i: nat | r < i < r + Shl(1, n) && i % 2 == r % 2
        ensures Low(i / 2, n - 1) != Low(r / 2, n - 1)
      {
      }
    }
  }

  lemma NoneBelow(r: nat, n: nat)
    requires r < Shl(1, n)
    ensures forall i: nat :: i < r ==> Low(i, n) != r
  {
    forall i: nat | i < r ensures Low(i, n) != r {
      LowFits(i, n);
    }
  }

  lemma LowOfCode(lens: seq<nat>, s: nat)
    requires CodeOk(lens) && s < |lens| && 0 < lens[s]
    ensures Low(WordCode(Code(lens, s), lens[s]), lens[s]) == WordCode(Code(lens, s), lens[s])
    ensures Code(lens, s) < Shl(1, lens[s])
  {
    AcceptableFits(lens);
    CodeFits(lens, s);
    LowFits(WordCode(Code(lens, s), lens[s]), lens[s]) by {
      WordCodeBound(Code(lens, s), lens[s]);
    }
  }

  lemma LowFits(x: nat, n: nat)
    requires x < Shl(1, n)
    ensures Low(x, n) == x
  {
    ShlZero(n);
    ShrOfShl(0, x, n);
  }

  lemma IndexMatches(i: nat, lens: seq<nat>, s: nat)
    requires CodeOk(lens) && s < |lens| && 0 < lens[s]
    ensures WordHas(i, lens, s) <==> Low(i, lens[s]) == WordCode(Code(lens, s), lens[s])
  {
    LowOfCode(lens, s);
    MatchIffReversed(i, Code(lens, s), lens[s]);
  }
}
