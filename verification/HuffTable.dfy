/** The two-level decoding table: a 1024-entry lookup on the next ten bits, and
    an overflow tree for longer codes. The predicates here say that the two
    arrays are exactly the code tree of the symbols entered so far. */
module HuffTable {
  import opened Bits
  import opened Huffman

  const LOOKUP_BITS := 10
  const LOOKUP_SIZE := 1024
  const TREE_SIZE := 576

  type Int16 = x: int | -32768 <= x < 32768

  /** Inner node of the code tree: depth and path. The value in a map of nodes is
      the node's place in the overflow tree, two entries to a node. */
  type Node = (nat, nat)
  type Nodes = map<Node, nat>

  /** How a reference to overflow node n is written in a table entry. */
  function Ref(n: nat): int { -1 - 2 * n }

  /** How symbol s of length l <= 10 is written in the lookup. */
  function Leaf(l: nat, s: nat): nat { 512 * l + s }

  /** The first d bits of the code of s. */
  ghost function Prefix(lens: seq<nat>, s: nat, d: nat): nat
    requires s < |lens| && d <= lens[s]
  {
    Shr(Code(lens, s), lens[s] - d)
  }

  /** One of the first k symbols is strictly below the node. */
  ghost predicate Below(lens: seq<nat>, k: nat, x: Node)
    requires k <= |lens|
  {
    exists s :: 0 <= s < k && x.0 < lens[s] && Prefix(lens, s, x.0) == x.1
  }

  /** Each node is from depth 10 on the way to one of the first k symbols. */
  ghost predicate Placed(lens: seq<nat>, k: nat, nodes: Nodes)
    requires k <= |lens|
  {
    forall x :: x in nodes ==> LOOKUP_BITS <= x.0 && Below(lens, k, x)
  }

  ghost predicate Numbered(nodes: Nodes) {
    && (forall x :: x in nodes ==> nodes[x] < |nodes|)
    && (forall x, y :: x in nodes && y in nodes && nodes[x] == nodes[y] ==> x == y)
  }

  function Parent(x: Node): Node
    requires x.0 > 0
  {
    (x.0 - 1, x.1 / 2)
  }

  ghost predicate Closed(nodes: Nodes) {
    forall x {:trigger Parent(x)} :: x in nodes && x.0 > LOOKUP_BITS ==> Parent(x) in nodes
  }

  /** The nodes are inner nodes from depth 10 of the code tree of the first k
      symbols, numbered from 0, and with each node its parent. */
  ghost predicate NodesOk(lens: seq<nat>, k: nat, nodes: Nodes)
    requires k <= |lens|
  {
    Placed(lens, k, nodes) && Numbered(nodes) && Closed(nodes)
  }

  /** Symbol s is entered down to depth d. */
  ghost predicate PathIn(lens: seq<nat>, s: nat, d: nat, nodes: Nodes)
    requires s < |lens| && d <= lens[s]
  {
    forall e :: LOOKUP_BITS <= e < d ==> (e, Prefix(lens, s, e)) in nodes
  }

  ghost predicate PathsIn(lens: seq<nat>, k: nat, nodes: Nodes)
    requires k <= |lens|
  {
    forall s :: 0 <= s < k ==> PathIn(lens, s, lens[s], nodes)
  }

  /** Lookup entry i: a node, or the one short code that i starts with, or free. */
  ghost predicate LookEntry(lens: seq<nat>, k: nat, nodes: Nodes, i: nat, v: int)
    requires k <= |lens|
  {
    var x := (LOOKUP_BITS, WordCode(i, LOOKUP_BITS));
    if x in nodes then v == Ref(nodes[x])
    else
      && (forall s :: 0 <= s < k && WordHas(i, lens, s) && lens[s] <= LOOKUP_BITS ==> v == Leaf(lens[s], s))
      && ((forall s :: 0 <= s < k && WordHas(i, lens, s) ==> lens[s] > LOOKUP_BITS) ==> v == 0)
  }

  /** Tree entry for the node or leaf (d, c). */
  ghost predicate TreeEntry(lens: seq<nat>, k: nat, nodes: Nodes, x: Node, v: int)
    requires k <= |lens|
  {
    if x in nodes then v == Ref(nodes[x])
    else
      && (forall s :: 0 <= s < k && lens[s] == x.0 && Code(lens, s) == x.1 ==> v == s)
      && ((forall s :: 0 <= s < k && lens[s] == x.0 ==> Code(lens, s) != x.1) ==> v == 0)
  }

  ghost predicate LookOk(lens: seq<nat>, k: nat, nodes: Nodes, look: seq<Int16>)
    requires k <= |lens|
  {
    |look| == LOOKUP_SIZE &&
    forall i :: 0 <= i < LOOKUP_SIZE ==> LookEntry(lens, k, nodes, i, look[i])
  }

  function Child(x: Node, b: nat): Node { (x.0 + 1, 2 * x.1 + b) }

  ghost predicate TreeOk(lens: seq<nat>, k: nat, nodes: Nodes, tree: seq<Int16>)
    requires k <= |lens|
  {
    && |tree| == TREE_SIZE && 2 * |nodes| <= TREE_SIZE
    && (forall x :: x in nodes ==> nodes[x] < |nodes|)
    && (forall x, b :: x in nodes && 0 <= b < 2 ==> TreeEntry(lens, k, nodes, Child(x, b), tree[2 * nodes[x] + b]))
    && (forall j :: 2 * |nodes| <= j < TREE_SIZE ==> tree[j] == 0)
  }

  /** The tables hold exactly the first k symbols. */
  ghost predicate Holds(lens: seq<nat>, k: nat, nodes: Nodes, look: seq<Int16>, tree: seq<Int16>)
    requires k <= |lens|
  {
    && NodesOk(lens, k, nodes) && PathsIn(lens, k, nodes)
    && LookOk(lens, k, nodes, look) && TreeOk(lens, k, nodes, tree)
  }

  /** What a table must be about: at most 288 symbols, code lengths at most 15, acceptable. */
  ghost predicate CodeOk(lens: seq<nat>) {
    |lens| <= 288 && LensOk(lens) && Acceptable(lens)
  }

  // ---- facts about prefixes

  lemma PrefixOfWord(w: nat, lens: seq<nat>, s: nat, d: nat)
    requires WordHas(w, lens, s) && d <= lens[s]
    ensures Prefix(lens, s, d) == WordCode(w, d)
  {
    WordCodePrefix(w, d, lens[s] - d);
  }

  lemma PrefixStep(lens: seq<nat>, s: nat, d: nat)
    requires s < |lens| && d < lens[s]
    ensures Prefix(lens, s, d) == Prefix(lens, s, d + 1) / 2
  {
    ShrHalf(Code(lens, s), lens[s] - d - 1);
  }

  /** A word that starts with a short code is at no node. */
  lemma ShortNotAtNode(lens: seq<nat>, k: nat, nodes: Nodes, i: nat, s: nat)
    requires CodeOk(lens) && k <= |lens| && NodesOk(lens, k, nodes)
    requires WordHas(i, lens, s) && lens[s] <= LOOKUP_BITS
    ensures (LOOKUP_BITS, WordCode(i, LOOKUP_BITS)) !in nodes
  {
    var x := (LOOKUP_BITS, WordCode(i, LOOKUP_BITS));
    if x in nodes {
      assert Below(lens, k, x);
      var t :| 0 <= t < k && x.0 < lens[t] && Prefix(lens, t, x.0) == x.1;
      AcceptableFits(lens);
      WordCodePrefix(i, lens[s], LOOKUP_BITS - lens[s]);
      ShrShr(Code(lens, t), lens[t] - LOOKUP_BITS, LOOKUP_BITS - lens[s]);
      PrefixFree(lens, s, t);
    }
  }

  /** An inner prefix of one code is not the code of another symbol. */
  lemma InnerNotLeaf(lens: seq<nat>, s: nat, d: nat, t: nat)
    requires CodeOk(lens) && s < |lens| && t < |lens| && 0 < d < lens[s] && lens[t] == d
    ensures Code(lens, t) != Prefix(lens, s, d)
  {
    AcceptableFits(lens);
    if Code(lens, t) == Prefix(lens, s, d) {
      PrefixFree(lens, t, s);
    }
  }

  /** A code is not an inner prefix of an earlier one. */
  lemma LeafNotNode(lens: seq<nat>, k: nat, nodes: Nodes, s: nat)
    requires CodeOk(lens) && k <= |lens| && NodesOk(lens, k, nodes) && s < |lens| && 0 < lens[s]
    ensures (lens[s], Code(lens, s)) !in nodes
  {
    var x := (lens[s], Code(lens, s));
    if x in nodes {
      assert Below(lens, k, x);
      var t :| 0 <= t < k && x.0 < lens[t] && Prefix(lens, t, x.0) == x.1;
      InnerNotLeaf(lens, t, lens[s], s);
    }
  }

  // ---- entering one symbol

  /** An unused symbol changes nothing. */
  lemma EnterUnused(lens: seq<nat>, k: nat, nodes: Nodes, look: seq<Int16>, tree: seq<Int16>)
    requires k < |lens| && lens[k] == 0 && Holds(lens, k, nodes, look, tree)
    ensures Holds(lens, k + 1, nodes, look, tree)
  {
    BelowMore(lens, k, nodes);
    forall i | 0 <= i < LOOKUP_SIZE ensures LookEntry(lens, k + 1, nodes, i, look[i]) {
      assert LookEntry(lens, k, nodes, i, look[i]);
      assert !WordHas(i, lens, k);
    }
    forall x, b | x in nodes && 0 <= b < 2 ensures TreeEntry(lens, k + 1, nodes, Child(x, b), tree[2 * nodes[x] + b]) {
      assert TreeEntry(lens, k, nodes, Child(x, b), tree[2 * nodes[x] + b]);
    }
  }

  lemma BelowMore(lens: seq<nat>, k: nat, nodes: Nodes)
    requires k < |lens| && NodesOk(lens, k, nodes)
    ensures NodesOk(lens, k + 1, nodes)
  {
    forall x | x in nodes ensures Below(lens, k + 1, x) {
      assert Below(lens, k, x);
      var t :| 0 <= t < k && x.0 < lens[t] && Prefix(lens, t, x.0) == x.1;
    }
  }

  /** A code of at most ten bits: all words that start with it get the leaf. */
  lemma EnterShort(lens: seq<nat>, k: nat, nodes: Nodes, look: seq<Int16>, look': seq<Int16>, tree: seq<Int16>)
    requires CodeOk(lens) && k < |lens| && 1 <= lens[k] <= LOOKUP_BITS && Holds(lens, k, nodes, look, tree)
    requires |look'| == LOOKUP_SIZE
    requires forall i :: 0 <= i < LOOKUP_SIZE ==>
      look'[i] == if WordHas(i, lens, k) then Leaf(lens[k], k) else look[i]
    ensures Holds(lens, k + 1, nodes, look', tree)
  {
    BelowMore(lens, k, nodes);
    forall i | 0 <= i < LOOKUP_SIZE ensures LookEntry(lens, k + 1, nodes, i, look'[i]) {
      assert LookEntry(lens, k, nodes, i, look[i]);
      LookEntryShort(lens, k, nodes, i, look[i], look'[i]);
    }
    forall x, b | x in nodes && 0 <= b < 2 ensures TreeEntry(lens, k + 1, nodes, Child(x, b), tree[2 * nodes[x] + b]) {
      assert TreeEntry(lens, k, nodes, Child(x, b), tree[2 * nodes[x] + b]);
    }
  }

  lemma LookEntryShort(lens: seq<nat>, k: nat, nodes: Nodes, i: nat, v: int, v': int)
    requires CodeOk(lens) && k < |lens| && 1 <= lens[k] <= LOOKUP_BITS && NodesOk(lens, k, nodes)
    requires LookEntry(lens, k, nodes, i, v)
    requires v' == if WordHas(i, lens, k) then Leaf(lens[k], k) else v
    ensures LookEntry(lens, k + 1, nodes, i, v')
  {
    if WordHas(i, lens, k) {
      ShortNotAtNode(lens, k, nodes, i, k);
      AcceptableFits(lens);
      forall s | 0 <= s < k + 1 && WordHas(i, lens, s) ensures s == k {
        WordHasUnique(i, lens, s, k);
      }
    }
  }

  /** Symbol k, longer than ten bits, is entered down to depth d, not yet as a leaf. */
  ghost predicate Entering(lens: seq<nat>, k: nat, d: nat, nodes: Nodes, look: seq<Int16>, tree: seq<Int16>)
    requires k < |lens| && d <= lens[k]
  {
    && NodesOk(lens, k + 1, nodes) && PathsIn(lens, k, nodes) && PathIn(lens, k, d, nodes)
    && LookOk(lens, k, nodes, look) && TreeOk(lens, k, nodes, tree)
  }

  lemma StartLong(lens: seq<nat>, k: nat, nodes: Nodes, look: seq<Int16>, tree: seq<Int16>)
    requires k < |lens| && LOOKUP_BITS < lens[k] && Holds(lens, k, nodes, look, tree)
    ensures Entering(lens, k, LOOKUP_BITS, nodes, look, tree)
  {
    BelowMore(lens, k, nodes);
  }

  /** Whether the node at depth d of the code of k exists shows in its entry. */
  lemma NodeShows(lens: seq<nat>, k: nat, d: nat, nodes: Nodes, v: int)
    requires CodeOk(lens) && k < |lens| && LOOKUP_BITS < d < lens[k]
    requires TreeEntry(lens, k, nodes, (d, Prefix(lens, k, d)), v)
    ensures v == 0 <==> (d, Prefix(lens, k, d)) !in nodes
    ensures (d, Prefix(lens, k, d)) in nodes ==> v == Ref(nodes[(d, Prefix(lens, k, d))])
  {
    if s :| 0 <= s < k && lens[s] == d && Code(lens, s) == Prefix(lens, k, d) {
      InnerNotLeaf(lens, k, d, s);
    }
  }

  lemma RootShows(lens: seq<nat>, k: nat, nodes: Nodes, i: nat, v: int)
    requires CodeOk(lens) && k < |lens| && LOOKUP_BITS < lens[k]
    requires WordCode(i, LOOKUP_BITS) == Prefix(lens, k, LOOKUP_BITS)
    requires LookEntry(lens, k, nodes, i, v)
    ensures v == 0 <==> (LOOKUP_BITS, Prefix(lens, k, LOOKUP_BITS)) !in nodes
    ensures (LOOKUP_BITS, Prefix(lens, k, LOOKUP_BITS)) in nodes ==>
      v == Ref(nodes[(LOOKUP_BITS, Prefix(lens, k, LOOKUP_BITS))])
  {
    if s :| 0 <= s < k && WordHas(i, lens, s) && lens[s] <= LOOKUP_BITS {
      AcceptableFits(lens);
      WordCodePrefix(i, lens[s], LOOKUP_BITS - lens[s]);
      ShrShr(Code(lens, k), lens[k] - LOOKUP_BITS, LOOKUP_BITS - lens[s]);
      PrefixFree(lens, s, k);
    }
  }

  lemma GrowNumbered(nodes: Nodes, y: Node)
    requires Numbered(nodes) && y !in nodes
    ensures Numbered(nodes[y := |nodes|]) && |nodes[y := |nodes|]| == |nodes| + 1
  {
    assert nodes[y := |nodes|].Keys == nodes.Keys + {y};
  }

  lemma GrowClosed(nodes: Nodes, y: Node, n: nat)
    requires Closed(nodes) && (y.0 > LOOKUP_BITS ==> Parent(y) in nodes)
    ensures Closed(nodes[y := n])
  {
  }

  lemma GrowPlaced(lens: seq<nat>, k: nat, nodes: Nodes, y: Node, n: nat)
    requires k <= |lens| && Placed(lens, k, nodes) && LOOKUP_BITS <= y.0 && Below(lens, k, y)
    ensures Placed(lens, k, nodes[y := n])
  {
  }

  /** The new node for depth d of the code of k keeps the numbering right. */
  lemma GrowNodes(lens: seq<nat>, k: nat, d: nat, nodes: Nodes, y: Node)
    requires k < |lens| && LOOKUP_BITS <= d < lens[k] && NodesOk(lens, k + 1, nodes)
    requires y == (d, Prefix(lens, k, d))
    requires PathIn(lens, k, d, nodes) && y !in nodes
    ensures NodesOk(lens, k + 1, nodes[y := |nodes|])
    ensures |nodes[y := |nodes|]| == |nodes| + 1
  {
    assert Below(lens, k + 1, y);
    GrowNumbered(nodes, y);
    if d > LOOKUP_BITS {
      PrefixStep(lens, k, d - 1);
      assert Parent(y) == (d - 1, Prefix(lens, k, d - 1));
    }
    GrowClosed(nodes, y, |nodes|);
    GrowPlaced(lens, k + 1, nodes, y, |nodes|);
  }

  lemma GrowPaths(lens: seq<nat>, k: nat, d: nat, nodes: Nodes, y: Node, n: nat)
    requires k < |lens| && d < lens[k] && PathsIn(lens, k, nodes) && PathIn(lens, k, d, nodes)
    requires y == (d, Prefix(lens, k, d))
    ensures PathsIn(lens, k, nodes[y := n]) && PathIn(lens, k, d + 1, nodes[y := n])
  {
    forall s | 0 <= s < k ensures PathIn(lens, s, lens[s], nodes[y := n]) {
      assert PathIn(lens, s, lens[s], nodes);
    }
  }

  /** Tree entries that are not the new node's stay right. */
  lemma EntryKept(lens: seq<nat>, k: nat, nodes: Nodes, y: Node, z: Node, v: int)
    requires k <= |lens| && y !in nodes && z != y && TreeEntry(lens, k, nodes, z, v)
    ensures TreeEntry(lens, k, nodes[y := |nodes|], z, v)
  {
  }

  lemma NoLeafBelow(lens: seq<nat>, k: nat, nodes: Nodes, y: Node, s: nat, b: nat)
    requires s < k <= |lens| && b < 2 && y !in nodes && LOOKUP_BITS <= y.0
    requires PathIn(lens, s, lens[s], nodes) && lens[s] == y.0 + 1
    ensures Code(lens, s) != 2 * y.1 + b
  {
    PrefixStep(lens, s, y.0);
    assert Prefix(lens, s, lens[s]) == Code(lens, s);
    assert (y.0, Prefix(lens, s, y.0)) in nodes;
  }

  /** Nothing is below a new node yet. */
  lemma EntryFresh(lens: seq<nat>, k: nat, nodes: Nodes, y: Node, b: nat)
    requires k <= |lens| && b < 2 && y !in nodes && LOOKUP_BITS <= y.0
    requires Closed(nodes) && PathsIn(lens, k, nodes)
    ensures TreeEntry(lens, k, nodes[y := |nodes|], Child(y, b), 0)
  {
    var z := Child(y, b);
    assert Parent(z) == y;
    assert z !in nodes;
    forall s | 0 <= s < k && lens[s] == z.0 ensures Code(lens, s) != z.1 {
      assert PathIn(lens, s, lens[s], nodes);
      NoLeafBelow(lens, k, nodes, y, s, b);
    }
  }

  /** A new node at the root of the overflow tree. */
  lemma AddRoot(lens: seq<nat>, k: nat, nodes: Nodes, look: seq<Int16>, tree: seq<Int16>, i: nat, look': seq<Int16>, y: Node)
    requires CodeOk(lens) && k < |lens| && LOOKUP_BITS < lens[k] && 2 * |nodes| + 2 <= TREE_SIZE
    requires Entering(lens, k, LOOKUP_BITS, nodes, look, tree) && i < LOOKUP_SIZE
    requires y == (LOOKUP_BITS, Prefix(lens, k, LOOKUP_BITS)) && y !in nodes
    requires WordCode(i, LOOKUP_BITS) == y.1
    requires look' == look[i := Ref(|nodes|)]
    ensures Entering(lens, k, LOOKUP_BITS + 1, nodes[y := |nodes|], look', tree)
  {
    GrowNodes(lens, k, LOOKUP_BITS, nodes, y);
    GrowPaths(lens, k, LOOKUP_BITS, nodes, y, |nodes|);
    AddRootLook(lens, k, nodes, look, i, look', y);
    AddRootTree(lens, k, nodes, tree, y);
  }

  lemma AddRootLook(lens: seq<nat>, k: nat, nodes: Nodes, look: seq<Int16>, i: nat, look': seq<Int16>, y: Node)
    requires k <= |lens| && i < LOOKUP_SIZE && y.0 == LOOKUP_BITS && y !in nodes && |nodes| <= 288
    requires LookOk(lens, k, nodes, look) && WordCode(i, LOOKUP_BITS) == y.1
    requires look' == look[i := Ref(|nodes|)]
    ensures LookOk(lens, k, nodes[y := |nodes|], look')
  {
    forall j | 0 <= j < LOOKUP_SIZE ensures LookEntry(lens, k, nodes[y := |nodes|], j, look'[j]) {
      assert LookEntry(lens, k, nodes, j, look[j]);
      if j != i {
        SameSlot(i, j);
      }
    }
  }

  /** Reversal separates the lookup's indices. */
  lemma SameSlot(i: nat, j: nat)
    requires i < LOOKUP_SIZE && j < LOOKUP_SIZE && i != j
    ensures WordCode(i, LOOKUP_BITS) != WordCode(j, LOOKUP_BITS)
  {
    LowOfSlot(i);
    LowOfSlot(j);
    WordCodeInvolutive(i, LOOKUP_BITS);
    WordCodeInvolutive(j, LOOKUP_BITS);
  }

  lemma LowOfSlot(i: nat)
    requires i < LOOKUP_SIZE
    ensures Low(i, LOOKUP_BITS) == i
  {
    Shl16();
    ShlZero(LOOKUP_BITS);
    ShrOfShl(0, i, LOOKUP_BITS);
  }

  lemma AddRootTree(lens: seq<nat>, k: nat, nodes: Nodes, tree: seq<Int16>, y: Node)
    requires k <= |lens| && y.0 == LOOKUP_BITS && y !in nodes && 2 * |nodes| + 2 <= TREE_SIZE
    requires TreeOk(lens, k, nodes, tree) && PathsIn(lens, k, nodes) && k < |lens| && NodesOk(lens, k + 1, nodes)
    ensures TreeOk(lens, k, nodes[y := |nodes|], tree)
  {
    var n := nodes[y := |nodes|];
    GrowNumbered(nodes, y);
    forall x, b | x in n && 0 <= b < 2 ensures TreeEntry(lens, k, n, Child(x, b), tree[2 * n[x] + b]) {
      if x == y {
        EntryFresh(lens, k, nodes, y, b);
      } else {
        assert TreeEntry(lens, k, nodes, Child(x, b), tree[2 * nodes[x] + b]);
        EntryKept(lens, k, nodes, y, Child(x, b), tree[2 * nodes[x] + b]);
      }
    }
  }

  /** A new node below node x, on side b. */
  lemma AddInner(lens: seq<nat>, k: nat, d: nat, nodes: Nodes, look: seq<Int16>, tree: seq<Int16>, x: Node, b: nat, tree': seq<Int16>, y: Node)
    requires CodeOk(lens) && k < |lens| && LOOKUP_BITS < d < lens[k] && 2 * |nodes| + 2 <= TREE_SIZE
    requires Entering(lens, k, d, nodes, look, tree)
    requires y == (d, Prefix(lens, k, d)) && y !in nodes
    requires x in nodes && b < 2 && Child(x, b) == y
    requires tree' == tree[2 * nodes[x] + b := Ref(|nodes|)]
    ensures Entering(lens, k, d + 1, nodes[y := |nodes|], look, tree')
  {
    GrowNodes(lens, k, d, nodes, y);
    GrowPaths(lens, k, d, nodes, y, |nodes|);
    AddInnerLook(lens, k, nodes, look, y);
    AddInnerTree(lens, k, nodes, tree, x, b, tree', y);
  }

  lemma AddInnerLook(lens: seq<nat>, k: nat, nodes: Nodes, look: seq<Int16>, y: Node)
    requires k <= |lens| && y.0 > LOOKUP_BITS && y !in nodes && LookOk(lens, k, nodes, look)
    ensures LookOk(lens, k, nodes[y := |nodes|], look)
  {
    forall j | 0 <= j < LOOKUP_SIZE ensures LookEntry(lens, k, nodes[y := |nodes|], j, look[j]) {
      assert LookEntry(lens, k, nodes, j, look[j]);
    }
  }

  lemma AddInnerTree(lens: seq<nat>, k: nat, nodes: Nodes, tree: seq<Int16>, x: Node, b: nat, tree': seq<Int16>, y: Node)
    requires k < |lens| && y !in nodes && 2 * |nodes| + 2 <= TREE_SIZE
    requires TreeOk(lens, k, nodes, tree) && PathsIn(lens, k, nodes) && NodesOk(lens, k + 1, nodes)
    requires x in nodes && b < 2 && Child(x, b) == y
    requires tree' == tree[2 * nodes[x] + b := Ref(|nodes|)]
    ensures TreeOk(lens, k, nodes[y := |nodes|], tree')
  {
    var n := nodes[y := |nodes|];
    GrowNumbered(nodes, y);
    forall x', b' | x' in n && 0 <= b' < 2 ensures TreeEntry(lens, k, n, Child(x', b'), tree'[2 * n[x'] + b']) {
      if x' == y {
        EntryFresh(lens, k, nodes, y, b');
      } else if x' != x || b' != b {
        OtherEntry(nodes, x, b, x', b');
        EntryKept(lens, k, nodes, y, Child(x', b'), tree[2 * nodes[x'] + b']);
      }
    }
  }

  /** The leaf completes the symbol. */
  lemma AddLeaf(lens: seq<nat>, k: nat, nodes: Nodes, look: seq<Int16>, tree: seq<Int16>, x: Node, b: nat, tree': seq<Int16>)
    requires CodeOk(lens) && k < |lens| && LOOKUP_BITS < lens[k]
    requires Entering(lens, k, lens[k], nodes, look, tree)
    requires x in nodes && b < 2 && Child(x, b) == (lens[k], Code(lens, k))
    requires tree' == tree[2 * nodes[x] + b := k]
    ensures Holds(lens, k + 1, nodes, look, tree')
  {
    AddLeafLook(lens, k, nodes, look);
    AddLeafTree(lens, k, nodes, tree, x, b, tree');
  }

  lemma AddLeafLook(lens: seq<nat>, k: nat, nodes: Nodes, look: seq<Int16>)
    requires k < |lens| && LOOKUP_BITS < lens[k] && LookOk(lens, k, nodes, look)
    ensures LookOk(lens, k + 1, nodes, look)
  {
    forall j | 0 <= j < LOOKUP_SIZE ensures LookEntry(lens, k + 1, nodes, j, look[j]) {
      assert LookEntry(lens, k, nodes, j, look[j]);
    }
  }

  lemma AddLeafTree(lens: seq<nat>, k: nat, nodes: Nodes, tree: seq<Int16>, x: Node, b: nat, tree': seq<Int16>)
    requires CodeOk(lens) && k < |lens| && LOOKUP_BITS < lens[k]
    requires NodesOk(lens, k + 1, nodes) && TreeOk(lens, k, nodes, tree)
    requires x in nodes && b < 2 && Child(x, b) == (lens[k], Code(lens, k))
    requires tree' == tree[2 * nodes[x] + b := k]
    ensures TreeOk(lens, k + 1, nodes, tree')
  {
    LeafNotNode(lens, k + 1, nodes, k);
    LeafEntry(lens, k, nodes);
    forall x', b' | x' in nodes && 0 <= b' < 2 ensures TreeEntry(lens, k + 1, nodes, Child(x', b'), tree'[2 * nodes[x'] + b']) {
      if x' != x || b' != b {
        OtherEntry(nodes, x, b, x', b');
        EntryStays(lens, k, nodes, Child(x', b'), tree[2 * nodes[x'] + b']);
      }
    }
  }

  /** Distinct children have distinct places. */
  lemma OtherEntry(nodes: Nodes, x: Node, b: nat, x': Node, b': nat)
    requires Numbered(nodes) && x in nodes && x' in nodes && b < 2 && b' < 2 && (x' != x || b' != b)
    ensures 2 * nodes[x'] + b' != 2 * nodes[x] + b && Child(x', b') != Child(x, b)
  {
    assert Parent(Child(x', b')) == x' && Parent(Child(x, b)) == x;
  }

  lemma EntryStays(lens: seq<nat>, k: nat, nodes: Nodes, z: Node, v: int)
    requires k < |lens| && TreeEntry(lens, k, nodes, z, v) && (lens[k], Code(lens, k)) != z
    ensures TreeEntry(lens, k + 1, nodes, z, v)
  {
  }

  lemma LeafEntry(lens: seq<nat>, k: nat, nodes: Nodes)
    requires CodeOk(lens) && k < |lens| && 0 < lens[k] && (lens[k], Code(lens, k)) !in nodes
    ensures TreeEntry(lens, k + 1, nodes, (lens[k], Code(lens, k)), k)
  {
    AcceptableFits(lens);
    forall s | 0 <= s < k + 1 && lens[s] == lens[k] && Code(lens, s) == Code(lens, k) ensures s == k {
      PrefixFree(lens, s, k);
    }
  }

  // ---- the overflow tree has room

  /** Nodes at one depth, with paths from lo up to hi. */
  lemma {:induction false} CountAtDepth(a: set<Node>, d: nat, lo: int, hi: int)
    requires lo <= hi && forall x :: x in a ==> x.0 == d && lo <= x.1 < hi
    ensures |a| <= hi - lo
    decreases hi - lo
  {
    if lo == hi {
      assert a == {};
    } else if |a| > 0 {
      var a' := a - {(d, hi - 1)};
      assert |a| <= |a'| + 1;
      CountAtDepth(a', d, lo, hi - 1);
    }
  }

  lemma {:induction false} CountNodes(a: set<Node>, lens: seq<nat>, d: nat)
    requires Fits(lens) && d <= 14
    requires forall x :: x in a ==> 1 <= x.0 <= d && FirstCode(lens, x.0) + Count(lens, x.0) <= x.1 < Shl(1, x.0)
    ensures |a| <= InnerTo(lens, d)
    decreases d
  {
    if d == 0 {
      assert a == {};
    } else {
      var top := set x | x in a && x.0 == d;
      var rest := a - top;
      BlockFits(lens, d);
      CountAtDepth(top, d, FirstCode(lens, d) + Count(lens, d), Shl(1, d));
      CountNodes(rest, lens, d - 1);
    }
  }

  lemma {:induction false} CountPath(a: set<Node>, lens: seq<nat>, s: nat, d: nat)
    requires s < |lens| && d <= lens[s]
    requires forall x :: x in a ==> 1 <= x.0 < d && x.1 == Prefix(lens, s, x.0)
    ensures |a| <= d
    decreases d
  {
    if d <= 1 {
      assert a == {};
    } else {
      var rest := a - {(d - 1, Prefix(lens, s, d - 1))};
      assert |a| <= |rest| + 1;
      CountPath(rest, lens, s, d - 1);
    }
  }

  /** With at most 288 symbols the overflow tree never needs more than 287 nodes. */
  lemma TreeHasRoom(lens: seq<nat>, k: nat, nodes: Nodes)
    requires CodeOk(lens) && k <= |lens| && Placed(lens, k, nodes)
    ensures |nodes| <= 287
  {
    assert |nodes| == |nodes.Keys|;
    if nodes != map[] {
      if FirstCode(lens, 16) == 65536 {
        CompleteCount(lens, k, nodes);
      } else {
        SingleCount(lens, k, nodes);
      }
    }
  }

  lemma CompleteCount(lens: seq<nat>, k: nat, nodes: Nodes)
    requires CodeOk(lens) && k <= |lens| && Placed(lens, k, nodes) && FirstCode(lens, 16) == 65536
    ensures |nodes.Keys| <= 286
  {
    AcceptableFits(lens);
    forall x | x in nodes
      ensures 1 <= x.0 <= 14 && FirstCode(lens, x.0) + Count(lens, x.0) <= x.1 < Shl(1, x.0)
    {
      assert Below(lens, k, x);
      var s :| 0 <= s < k && x.0 < lens[s] && Prefix(lens, s, x.0) == x.1;
      PrefixAbove(lens, s, x.0);
    }
    CountNodes(nodes.Keys, lens, 14);
    CompleteInner(lens);
  }

  lemma SingleCount(lens: seq<nat>, k: nat, nodes: Nodes)
    requires CodeOk(lens) && k <= |lens| && Placed(lens, k, nodes) && FirstCode(lens, 16) != 65536 && nodes != map[]
    ensures |nodes.Keys| <= 15
  {
    var x0 :| x0 in nodes;
    assert Below(lens, k, x0);
    var s :| 0 <= s < k && x0.0 < lens[s] && Prefix(lens, s, x0.0) == x0.1;
    forall x | x in nodes ensures 1 <= x.0 < lens[s] && x.1 == Prefix(lens, s, x.0) {
      assert Below(lens, k, x);
      var t :| 0 <= t < k && x.0 < lens[t] && Prefix(lens, t, x.0) == x.1;
      if s < t {
        TwoUsed(lens, s, t, 15);
      } else if t < s {
        TwoUsed(lens, t, s, 15);
      }
    }
    CountPath(nodes.Keys, lens, s, lens[s]);
  }

  // ---- what the full tables decode, in terms of the stream

  /** The table has every symbol of the code and stands for the whole stream
      decoder: w holds the nb bits of the stream from p, zeros above. */
  ghost predicate At(src: seq<Byte>, p: nat, nb: nat, lens: seq<nat>, s: nat) {
    CodeOk(lens) && p + nb <= 8 * |src| && StreamHas(src, p, lens, s)
  }

  lemma SlotOfWord(w: nat, lens: seq<nat>, s: nat)
    requires s < |lens| && lens[s] <= LOOKUP_BITS
    ensures WordHas(Low(w, LOOKUP_BITS), lens, s) <==> WordHas(w, lens, s)
  {
    WordCodeLow(w, LOOKUP_BITS, lens[s]);
  }

  lemma LowBound(w: nat)
    ensures Low(w, LOOKUP_BITS) < LOOKUP_SIZE
  {
    Shl16();
    ShlOfShr(w, LOOKUP_BITS);
  }

  /** A short code with all its bits present is found in the lookup. */
  lemma LookFinds(src: seq<Byte>, p: nat, nb: nat, lens: seq<nat>, s: nat, nodes: Nodes, i: nat, v: int)
    requires At(src, p, nb, lens, s) && lens[s] <= nb && lens[s] <= LOOKUP_BITS
    requires NodesOk(lens, |lens|, nodes) && i == Low(GetBits(src, p, nb), LOOKUP_BITS)
    requires LookEntry(lens, |lens|, nodes, i, v)
    ensures v == Leaf(lens[s], s)
  {
    StreamIsWord(src, p, nb, lens, s);
    SlotOfWord(GetBits(src, p, nb), lens, s);
    ShortNotAtNode(lens, |lens|, nodes, i, s);
  }

  /** A leaf whose bits are all present is the stream's symbol. */
  lemma LookSound(src: seq<Byte>, p: nat, nb: nat, lens: seq<nat>, s: nat, nodes: Nodes, i: nat, v: int)
    requires At(src, p, nb, lens, s) && NodesOk(lens, |lens|, nodes)
    requires i == Low(GetBits(src, p, nb), LOOKUP_BITS) && LookEntry(lens, |lens|, nodes, i, v)
    requires v > 0 && v / 512 <= nb
    ensures v == Leaf(lens[s], s) && lens[s] <= LOOKUP_BITS
  {
    var t :| 0 <= t < |lens| && WordHas(i, lens, t) && lens[t] <= LOOKUP_BITS;
    assert v == Leaf(lens[t], t);
    SlotOfWord(GetBits(src, p, nb), lens, t);
    StreamIsWord(src, p, nb, lens, t);
    AcceptableFits(lens);
    StreamHasUnique(src, p, lens, s, t);
  }

  /** With ten bits present a long code's entry refers to its node. */
  lemma LookRefers(src: seq<Byte>, p: nat, nb: nat, lens: seq<nat>, s: nat, nodes: Nodes, i: nat, v: int)
    requires At(src, p, nb, lens, s) && LOOKUP_BITS <= nb && LOOKUP_BITS < lens[s]
    requires PathsIn(lens, |lens|, nodes) && i == Low(GetBits(src, p, nb), LOOKUP_BITS)
    requires LookEntry(lens, |lens|, nodes, i, v)
    ensures (LOOKUP_BITS, GetCode(src, p, LOOKUP_BITS)) in nodes
    ensures v == Ref(nodes[(LOOKUP_BITS, GetCode(src, p, LOOKUP_BITS))])
  {
    PrefixOfStream(src, p, lens, s, LOOKUP_BITS);
    WordCodeIs(src, p, nb, LOOKUP_BITS);
    WordCodeLow(GetBits(src, p, nb), LOOKUP_BITS, LOOKUP_BITS);
    assert PathIn(lens, s, lens[s], nodes);
  }

  lemma PrefixOfStream(src: seq<Byte>, p: nat, lens: seq<nat>, s: nat, d: nat)
    requires StreamHas(src, p, lens, s) && d <= lens[s]
    ensures Prefix(lens, s, d) == GetCode(src, p, d)
  {
    var w := GetBits(src, p, lens[s]);
    StreamIsWord(src, p, lens[s], lens, s);
    PrefixOfWord(w, lens, s, d);
    WordCodeIs(src, p, lens[s], d);
  }

  /** At a node reached by present bits, the next present bit leads to the
      symbol or to the next node of its code. */
  lemma TreeStep(src: seq<Byte>, p: nat, nb: nat, lens: seq<nat>, s: nat, nodes: Nodes, tree: seq<Int16>, d: nat)
    requires At(src, p, nb, lens, s) && LOOKUP_BITS <= d < nb
    requires NodesOk(lens, |lens|, nodes) && PathsIn(lens, |lens|, nodes) && TreeOk(lens, |lens|, nodes, tree)
    requires (d, GetCode(src, p, d)) in nodes
    ensures d < lens[s]
    ensures var v := tree[2 * nodes[(d, GetCode(src, p, d))] + WordBit(GetBits(src, p, nb), d)];
      if lens[s] == d + 1 then v == s
      else (d + 1, GetCode(src, p, d + 1)) in nodes && v == Ref(nodes[(d + 1, GetCode(src, p, d + 1))])
  {
    hide CodeOk, NodesOk, GetBits, LensOk;
    var x := (d, GetCode(src, p, d));
    if lens[s] <= d {
      NodeNotPastLeaf(src, p, lens, s, nodes, d);
    }
    var b := WordBit(GetBits(src, p, nb), d);
    WordBitIs(src, p, nb, d);
    assert Child(x, b) == (d + 1, GetCode(src, p, d + 1));
    assert TreeEntry(lens, |lens|, nodes, Child(x, b), tree[2 * nodes[x] + b]);
    PrefixOfStream(src, p, lens, s, d + 1);
    if lens[s] == d + 1 {
      LeafNotNode(lens, |lens|, nodes, s);
    } else {
      assert PathIn(lens, s, lens[s], nodes);
    }
  }

  lemma NodeNotPastLeaf(src: seq<Byte>, p: nat, lens: seq<nat>, s: nat, nodes: Nodes, d: nat)
    requires CodeOk(lens) && StreamHas(src, p, lens, s) && NodesOk(lens, |lens|, nodes)
    requires p + d <= 8 * |src| && (d, GetCode(src, p, d)) in nodes
    ensures d < lens[s]
  {
    var x := (d, GetCode(src, p, d));
    assert Below(lens, |lens|, x);
    var t :| 0 <= t < |lens| && d < lens[t] && Prefix(lens, t, d) == GetCode(src, p, d);
    if lens[s] <= d {
      GetCodePrefix(src, p, lens[s], d - lens[s]);
      CodeNotInside(lens, s, t, d);
    }
  }

  lemma CodeNotInside(lens: seq<nat>, s: nat, t: nat, d: nat)
    requires CodeOk(lens) && s < |lens| && t < |lens| && 0 < lens[s] <= d < lens[t]
    ensures Shr(Prefix(lens, t, d), d - lens[s]) != Code(lens, s)
  {
    AcceptableFits(lens);
    ShrShr(Code(lens, t), lens[t] - d, d - lens[s]);
    if Shr(Prefix(lens, t, d), d - lens[s]) == Code(lens, s) {
      PrefixFree(lens, s, t);
    }
  }

  lemma {:induction false} GetCodePrefix(src: seq<Byte>, p: nat, a: nat, b: nat)
    requires p + a + b <= 8 * |src|
    ensures Shr(GetCode(src, p, a + b), b) == GetCode(src, p, a)
    decreases b
  {
    if b > 0 {
      GetCodePrefix(src, p, a, b - 1);
    }
  }
}
