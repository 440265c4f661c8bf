/** Merkle roots with odd-node duplication, over an abstract hash. */
module MerkleRoots {
  /** Hashing of documents into leaves and of pairs into nodes, and the order leaves are sorted in. */
  datatype Hashing<!Doc, !D> = Hashing(leaf: Doc -> D, node: (D, D) -> D, le: (D, D) -> bool)

  /** Collision-free hashing and a total order on digests. */
  ghost predicate Ideal<Doc(!new), D(!new)>(h: Hashing<Doc, D>) {
    && (forall x, y :: h.leaf(x) == h.leaf(y) ==> x == y)
    && (forall a, b, c, d :: h.node(a, b) == h.node(c, d) ==> a == c && b == d)
    && TotalOrder(h)
  }

  ghost predicate TotalOrder<Doc, D(!new)>(h: Hashing<Doc, D>) {
    && (forall a, b :: h.le(a, b) || h.le(b, a))
    && (forall a, b :: h.le(a, b) && h.le(b, a) ==> a == b)
    && (forall a, b, c :: h.le(a, b) && h.le(b, c) ==> h.le(a, c))
  }

  // ---------- the fold ----------

  /** An odd level repeats its last node. */
  function Pad<D>(nodes: seq<D>): (r: seq<D>)
    requires nodes != []
    ensures |r| % 2 == 0
  {
    if |nodes| % 2 == 1 then nodes + [nodes[|nodes| - 1]] else nodes
  }

  /** Hashes neighbouring pairs. */
  function Level<Doc, D>(h: Hashing<Doc, D>, nodes: seq<D>): (r: seq<D>)
    requires |nodes| % 2 == 0
    ensures |r| == |nodes| / 2
  {
    seq(|nodes| / 2, i requires 0 <= i < |nodes| / 2 => h.node(nodes[2 * i], nodes[2 * i + 1]))
  }

  function Root<Doc, D>(h: Hashing<Doc, D>, nodes: seq<D>): D
    requires nodes != []
    decreases |nodes|
  {
    if |nodes| == 1 then nodes[0] else Root(h, Level(h, Pad(nodes)))
  }

  /** The nodes of the next level, pair after pair. */
  method HashPairs<Doc, D>(h: Hashing<Doc, D>, nodes: seq<D>) returns (level: seq<D>)
    requires |nodes| % 2 == 0
    ensures level == Level(h, nodes)
  {
    level := [];
    for i := 0 to |nodes| / 2
      invariant level == Level(h, nodes)[..i]
    {
      level := level + [h.node(nodes[2 * i], nodes[2 * i + 1])];
    }
  }

  method ComputeRoot<Doc, D>(h: Hashing<Doc, D>, leaves: seq<D>) returns (root: D)
    requires leaves != []
    ensures root == Root(h, leaves)
  {
    var nodes := leaves;
    while |nodes| > 1
      invariant nodes != []
      invariant Root(h, nodes) == Root(h, leaves)
      decreases |nodes|
    {
      if |nodes| % 2 == 1 {
        nodes := nodes + [nodes[|nodes| - 1]];
      }
      nodes := HashPairs(h, nodes);
    }
    root := nodes[0];
  }

  lemma LevelInjective<Doc(!new), D(!new)>(h: Hashing<Doc, D>, a: seq<D>, b: seq<D>)
    requires Ideal(h)
    requires |a| == |b| && |a| % 2 == 0
    requires Level(h, a) == Level(h, b)
    ensures a == b
  {
    forall i | 0 <= i < |a| ensures a[i] == b[i] {
      var k := i / 2;
      assert Level(h, a)[k] == h.node(a[2 * k], a[2 * k + 1]);
      assert Level(h, b)[k] == h.node(b[2 * k], b[2 * k + 1]);
      assert i == 2 * k || i == 2 * k + 1;
    }
  }

  /** Leaf lists of one length with the same root are the same list. */
  lemma {:induction false} RootInjective<Doc(!new), D(!new)>(h: Hashing<Doc, D>, a: seq<D>, b: seq<D>)
    requires Ideal(h)
    requires |a| == |b| && a != []
    requires Root(h, a) == Root(h, b)
    ensures a == b
    decreases |a|
  {
    if |a| == 1 {
      assert a == [a[0]] && b == [b[0]];
    } else {
      RootInjective(h, Level(h, Pad(a)), Level(h, Pad(b)));
      LevelInjective(h, Pad(a), Pad(b));
      assert a == Pad(a)[..|a|] && b == Pad(b)[..|b|];
    }
  }

  /** Why the length has to be checked too: any odd list shares its root with the list that repeats its last leaf. */
  lemma OddListSharesRoot<Doc, D>(h: Hashing<Doc, D>, nodes: seq<D>)
    requires |nodes| % 2 == 1 && |nodes| > 1
    ensures Root(h, nodes) == Root(h, nodes + [nodes[|nodes| - 1]])
  {
    var longer := nodes + [nodes[|nodes| - 1]];
    assert Pad(longer) == longer == Pad(nodes);
  }

  // ---------- what the root is ----------

  function Pow2(k: nat): (r: nat)
    ensures r >= 1
  {
    if k == 0 then 1 else 2 * Pow2(k - 1)
  }

  /**
   * The tree of height `k` over 1 to 2^k leaves, from the top: the first half of the leaves on the left,
   * the others on the right, and the left subtree twice when nothing is left for the right.
   */
  function Tree<Doc, D>(h: Hashing<Doc, D>, leaves: seq<D>, k: nat): D
    requires leaves != []
    decreases k
  {
    if k == 0 then leaves[0]
    else if |leaves| > Pow2(k - 1) then
      h.node(Tree(h, leaves[..Pow2(k - 1)], k - 1), Tree(h, leaves[Pow2(k - 1)..], k - 1))
    else h.node(Tree(h, leaves, k - 1), Tree(h, leaves, k - 1))
  }

  /** One level up: padded, then hashed in pairs. */
  function Above<Doc, D>(h: Hashing<Doc, D>, nodes: seq<D>): (r: seq<D>)
    requires nodes != []
    ensures |r| == (|nodes| + 1) / 2
  {
    Level(h, Pad(nodes))
  }

  /** A level over an even first part and the rest is the levels of both parts. */
  lemma AboveSplits<Doc, D>(h: Hashing<Doc, D>, nodes: seq<D>, p: nat)
    requires 0 < p < |nodes| && p % 2 == 0
    ensures Above(h, nodes)[..p / 2] == Above(h, nodes[..p]) && Above(h, nodes)[p / 2..] == Above(h, nodes[p..])
  {
    var left, right := nodes[..p], nodes[p..];
    assert Pad(left) == left && Pad(nodes) == left + Pad(right);
    LevelSplits(h, left, Pad(right));
  }

  lemma LevelSplits<Doc, D>(h: Hashing<Doc, D>, a: seq<D>, b: seq<D>)
    requires |a| % 2 == 0 && |b| % 2 == 0
    ensures Level(h, a + b)[..|a| / 2] == Level(h, a) && Level(h, a + b)[|a| / 2..] == Level(h, b)
  {
    var all, p := Level(h, a + b), |a| / 2;
    assert forall i | 0 <= i < p :: all[i] == h.node(a[2 * i], a[2 * i + 1]);
    forall i | 0 <= i < |b| / 2 ensures all[p + i] == Level(h, b)[i] {
      assert 2 * (p + i) == |a| + 2 * i;
      assert (a + b)[2 * (p + i)] == b[2 * i] && (a + b)[2 * (p + i) + 1] == b[2 * i + 1];
    }
  }

  lemma TreeFromTop<Doc, D>(h: Hashing<Doc, D>, leaves: seq<D>, k: nat)
    requires leaves != [] && k >= 1
    ensures Tree(h, leaves, k) == var p := Pow2(k - 1);
      if |leaves| > p then h.node(Tree(h, leaves[..p], k - 1), Tree(h, leaves[p..], k - 1))
      else h.node(Tree(h, leaves, k - 1), Tree(h, leaves, k - 1))
  {
  }

  lemma TreeOfOneLevel<Doc, D>(h: Hashing<Doc, D>, leaves: seq<D>)
    requires 1 <= |leaves| <= 2
    ensures Tree(h, leaves, 1) == Tree(h, Above(h, leaves), 0)
  {
    assert Pow2(0) == 1;
    assert leaves[..1][0] == leaves[0] && (|leaves| == 2 ==> leaves[1..][0] == leaves[1]);
    assert Above(h, leaves)[0] == h.node(Pad(leaves)[0], Pad(leaves)[1]);
  }

  /** The level above a list that fills more than half a tree fills more than half the next lower one. */
  lemma AboveOfWide<Doc, D>(h: Hashing<Doc, D>, leaves: seq<D>, k: nat)
    requires k >= 1 && |leaves| > Pow2(k)
    ensures var q, up := Pow2(k - 1), Above(h, leaves);
      |up| > q && up[..q] == Above(h, leaves[..Pow2(k)]) && up[q..] == Above(h, leaves[Pow2(k)..])
  {
    hide Above;
    assert Pow2(k) == 2 * Pow2(k - 1);
    AboveSplits(h, leaves, Pow2(k));
  }

  lemma AboveOfNarrow<Doc, D>(h: Hashing<Doc, D>, leaves: seq<D>, k: nat)
    requires k >= 1 && 1 <= |leaves| <= Pow2(k)
    ensures 1 <= |Above(h, leaves)| <= Pow2(k - 1)
  {
    assert Pow2(k) == 2 * Pow2(k - 1);
  }

  /** A tree of height one or more is the tree, one lower, over the level above its leaves. */
  lemma {:induction false} TreeFromLevel<Doc, D>(h: Hashing<Doc, D>, leaves: seq<D>, k: nat)
    requires 1 <= |leaves| <= Pow2(k) && k >= 1
    ensures Tree(h, leaves, k) == Tree(h, Above(h, leaves), k - 1)
    decreases k
  {
    hide Pow2, Tree, Above, Pad, Level;
    Pow2Doubles(k - 1);
    if k == 1 {
      TreeOfOneLevel(h, leaves);
    } else {
      var p := Pow2(k - 1);
      TreeFromTop(h, leaves, k);
      TreeFromTop(h, Above(h, leaves), k - 1);
      if |leaves| > p {
        TreeFromLevel(h, leaves[..p], k - 1);
        TreeFromLevel(h, leaves[p..], k - 1);
        AboveOfWide(h, leaves, k - 1);
      } else {
        TreeFromLevel(h, leaves, k - 1);
        AboveOfNarrow(h, leaves, k - 1);
      }
    }
  }

  lemma Pow2Doubles(k: nat)
    ensures Pow2(0) == 1 && Pow2(k + 1) == 2 * Pow2(k)
  {
  }

  /** The root of any leaf list is the tree of the least height that holds its leaves. */
  lemma {:induction false} RootIsTree<Doc, D>(h: Hashing<Doc, D>, leaves: seq<D>, k: nat)
    requires 1 <= |leaves| <= Pow2(k) && (k > 0 ==> |leaves| > Pow2(k - 1))
    ensures Root(h, leaves) == Tree(h, leaves, k)
    decreases k
  {
    if k > 0 {
      TreeFromLevel(h, leaves, k);
      if k > 1 {
        assert Pow2(k - 1) == 2 * Pow2(k - 2);
      }
      RootIsTree(h, Above(h, leaves), k - 1);
    }
  }

  /**
   * What the root is, without its levels: one leaf is its own root, two are hashed left then right, and a
   * list of p < n <= 2p leaves, p a power of two, hashes the root of its first p leaves with the tree of
   * the same height over the others.
   */
  lemma RootSplits<Doc, D>(h: Hashing<Doc, D>, x: seq<D>, y: seq<D>, k: nat, a: D, b: D)
    requires |x| == Pow2(k) && 1 <= |y| <= Pow2(k)
    ensures Root(h, [a]) == a
    ensures Root(h, [a, b]) == h.node(a, b)
    ensures Root(h, x + y) == h.node(Root(h, x), Tree(h, y, k))
  {
    assert Pow2(0) == 1 && Pow2(1) == 2;
    RootIsTree(h, [a, b], 1);
    assert [a, b][..1][0] == a && [a, b][1..][0] == b;
    RootIsTree(h, x, k);
    RootIsTree(h, x + y, k + 1);
    assert (x + y)[..Pow2(k)] == x && (x + y)[Pow2(k)..] == y;
  }

  // ---------- sorting ----------

  ghost predicate Sorted<Doc, D>(h: Hashing<Doc, D>, s: seq<D>) {
    forall i, j | 0 <= i < j < |s| :: h.le(s[i], s[j])
  }

  function Insert<Doc, D>(h: Hashing<Doc, D>, x: D, s: seq<D>): seq<D> {
    if s == [] || h.le(x, s[0]) then [x] + s else [s[0]] + Insert(h, x, s[1..])
  }

  function Sort<Doc, D>(h: Hashing<Doc, D>, s: seq<D>): seq<D> {
    if s == [] then [] else Insert(h, s[0], Sort(h, s[1..]))
  }

  lemma ConsSorted<Doc, D>(h: Hashing<Doc, D>, x: D, s: seq<D>)
    requires Sorted(h, s) && forall y | y in s :: h.le(x, y)
    ensures Sorted(h, [x] + s)
  {
    var all := [x] + s;
    forall i, j | 0 <= i < j < |all| ensures h.le(all[i], all[j]) {
      assert all[j] == s[j - 1];
      assert i > 0 ==> all[i] == s[i - 1];
    }
  }

  lemma {:induction false} InsertFacts<Doc, D(!new)>(h: Hashing<Doc, D>, x: D, s: seq<D>)
    requires TotalOrder(h) && Sorted(h, s)
    ensures Sorted(h, Insert(h, x, s))
    ensures multiset(Insert(h, x, s)) == multiset(s) + multiset{x}
  {
    if s != [] && !h.le(x, s[0]) {
      var tail := Insert(h, x, s[1..]);
      InsertFacts(h, x, s[1..]);
      TailMultiset(s);
      forall y | y in tail ensures h.le(s[0], y) {
        assert y in multiset(tail);
        if y != x {
          assert y in multiset(s[1..]) && y in s;
          SmallestIsFirst(h, s, y);
        }
      }
      ConsSorted(h, s[0], tail);
    } else {
      forall y | y in s ensures h.le(x, y) {
        SmallestIsFirst(h, s, y);
      }
      ConsSorted(h, x, s);
    }
  }

  lemma {:induction false} SortFacts<Doc, D(!new)>(h: Hashing<Doc, D>, s: seq<D>)
    requires TotalOrder(h)
    ensures Sorted(h, Sort(h, s))
    ensures multiset(Sort(h, s)) == multiset(s)
  {
    if s != [] {
      SortFacts(h, s[1..]);
      InsertFacts(h, s[0], Sort(h, s[1..]));
      assert s == [s[0]] + s[1..];
    }
  }

  lemma SmallestIsFirst<Doc, D(!new)>(h: Hashing<Doc, D>, a: seq<D>, x: D)
    requires TotalOrder(h) && Sorted(h, a) && x in a
    ensures h.le(a[0], x)
  {
    var i :| 0 <= i < |a| && a[i] == x;
    assert i > 0 ==> h.le(a[0], a[i]);
  }

  lemma TailMultiset<D>(a: seq<D>)
    requires a != []
    ensures multiset(a[1..]) == multiset(a) - multiset{a[0]}
  {
    assert a == [a[0]] + a[1..];
  }

  lemma SortedTail<Doc, D>(h: Hashing<Doc, D>, a: seq<D>)
    requires Sorted(h, a) && a != []
    ensures Sorted(h, a[1..])
  {
    assert forall i | 0 <= i < |a[1..]| :: a[1..][i] == a[i + 1];
  }

  lemma FirstsAgree<Doc, D(!new)>(h: Hashing<Doc, D>, a: seq<D>, b: seq<D>)
    requires TotalOrder(h) && Sorted(h, a) && Sorted(h, b)
    requires a != [] && b != [] && a[0] in b && b[0] in a
    ensures a[0] == b[0]
  {
    SmallestIsFirst(h, a, b[0]);
    SmallestIsFirst(h, b, a[0]);
  }

  /** Two sorted lists with the same elements are the same list. */
  lemma {:induction false} SortedIsCanonical<Doc, D(!new)>(h: Hashing<Doc, D>, a: seq<D>, b: seq<D>)
    requires TotalOrder(h) && Sorted(h, a) && Sorted(h, b)
    requires multiset(a) == multiset(b)
    ensures a == b
  {
    hide Sorted, TotalOrder;
    assert |a| == |multiset(a)| == |multiset(b)| == |b|;
    if a != [] {
      assert a[0] in multiset(b) && b[0] in multiset(a);
      FirstsAgree(h, a, b);
      SortedTail(h, a);
      SortedTail(h, b);
      TailMultiset(a);
      TailMultiset(b);
      SortedIsCanonical(h, a[1..], b[1..]);
      assert a == [a[0]] + a[1..] && b == [b[0]] + b[1..];
    }
  }

  // ---------- leaves of documents ----------

  function Leaves<Doc, D>(h: Hashing<Doc, D>, docs: seq<Doc>): (r: seq<D>)
    ensures |r| == |docs|
  {
    if docs == [] then [] else [h.leaf(docs[0])] + Leaves(h, docs[1..])
  }

  lemma {:induction false} LeafCount<Doc(!new), D(!new)>(h: Hashing<Doc, D>, docs: seq<Doc>, x: Doc)
    requires Ideal(h)
    ensures multiset(Leaves(h, docs))[h.leaf(x)] == multiset(docs)[x]
  {
    if docs != [] {
      LeafCount(h, docs[1..], x);
      assert docs == [docs[0]] + docs[1..];
    }
  }

  lemma {:induction false} LeafHasDocument<Doc, D>(h: Hashing<Doc, D>, docs: seq<Doc>, d: D)
    requires d in Leaves(h, docs)
    ensures exists x | x in docs :: h.leaf(x) == d
  {
    if d == h.leaf(docs[0]) {
      assert docs[0] in docs;
    } else {
      LeafHasDocument(h, docs[1..], d);
      var x :| x in docs[1..] && h.leaf(x) == d;
      assert x in docs;
    }
  }

  /** The leaves of two lists agree as multisets exactly when the lists do. */
  lemma LeavesAgreeIff<Doc(!new), D(!new)>(h: Hashing<Doc, D>, a: seq<Doc>, b: seq<Doc>)
    requires Ideal(h)
    ensures multiset(Leaves(h, a)) == multiset(Leaves(h, b)) <==> multiset(a) == multiset(b)
  {
    forall x: Doc ensures multiset(Leaves(h, a))[h.leaf(x)] == multiset(a)[x] && multiset(Leaves(h, b))[h.leaf(x)] == multiset(b)[x] {
      LeafCount(h, a, x);
      LeafCount(h, b, x);
    }
    if multiset(Leaves(h, a)) == multiset(Leaves(h, b)) {
      assert forall x: Doc :: multiset(a)[x] == multiset(b)[x];
    }
    if multiset(a) == multiset(b) {
      forall d: D ensures multiset(Leaves(h, a))[d] == multiset(Leaves(h, b))[d] {
        if d in Leaves(h, a) {
          LeafHasDocument(h, a, d);
        } else if d in Leaves(h, b) {
          LeafHasDocument(h, b, d);
        }
      }
    }
  }

  /** The root of a document list: hash, sort, fold. */
  function BatchRoot<Doc, D>(h: Hashing<Doc, D>, docs: seq<Doc>): D
    requires docs != []
  {
    SortLength(h, Leaves(h, docs));
    Root(h, Sort(h, Leaves(h, docs)))
  }

  lemma {:induction false} SortLength<Doc, D>(h: Hashing<Doc, D>, s: seq<D>)
    ensures |Sort(h, s)| == |s|
  {
    if s != [] {
      SortLength(h, s[1..]);
      InsertLength(h, s[0], Sort(h, s[1..]));
    }
  }

  lemma {:induction false} InsertLength<Doc, D>(h: Hashing<Doc, D>, x: D, s: seq<D>)
    ensures |Insert(h, x, s)| == |s| + 1
  {
    if s != [] && !h.le(x, s[0]) {
      InsertLength(h, x, s[1..]);
    }
  }

  /** The leaf of each document, in place. */
  lemma {:induction false} LeafAt<Doc, D>(h: Hashing<Doc, D>, docs: seq<Doc>, i: nat)
    requires i < |docs|
    ensures Leaves(h, docs)[i] == h.leaf(docs[i])
  {
    if i > 0 {
      LeafAt(h, docs[1..], i - 1);
    }
  }

  /** The root of a document list is the root of any ordered arrangement of its leaves. */
  lemma BatchRootIsRootOfSorted<Doc, D(!new)>(h: Hashing<Doc, D>, docs: seq<Doc>, arranged: seq<D>)
    requires TotalOrder(h) && docs != [] && arranged != []
    requires Sorted(h, arranged) && multiset(arranged) == multiset(Leaves(h, docs))
    ensures BatchRoot(h, docs) == Root(h, arranged)
  {
    SortFacts(h, Leaves(h, docs));
    SortLength(h, Leaves(h, docs));
    SortedIsCanonical(h, arranged, Sort(h, Leaves(h, docs)));
  }

  /** Two lists of one length have the same sorted root exactly when one is a permutation of the other. */
  lemma SameRootIffPermutation<Doc(!new), D(!new)>(h: Hashing<Doc, D>, a: seq<Doc>, b: seq<Doc>)
    requires Ideal(h)
    requires |a| == |b| && a != []
    ensures BatchRoot(h, a) == BatchRoot(h, b) <==> multiset(a) == multiset(b)
  {
    SortLength(h, Leaves(h, a));
    SortLength(h, Leaves(h, b));
    SortFacts(h, Leaves(h, a));
    SortFacts(h, Leaves(h, b));
    LeavesAgreeIff(h, a, b);
    if BatchRoot(h, a) == BatchRoot(h, b) {
      RootInjective(h, Sort(h, Leaves(h, a)), Sort(h, Leaves(h, b)));
    }
    if multiset(a) == multiset(b) {
      SortedIsCanonical(h, Sort(h, Leaves(h, a)), Sort(h, Leaves(h, b)));
    }
  }
}
