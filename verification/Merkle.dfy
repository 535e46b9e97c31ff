/**
 The Merkle branch of a leaf and the fold that takes it back to the root.

 The hash of a pair is any function `h`. A level with an odd node has its last
 node twice.
 */
module Merkle {

  function Padded<T>(level: seq<T>): (r: seq<T>)
    requires level != []
    ensures |r| % 2 == 0 && level <= r && |r| <= |level| + 1
    ensures |r| > |level| ==> r[|level|] == level[|level| - 1]
  {
    if |level| % 2 == 1 then level + [level[|level| - 1]] else level
  }

  /** The level above one of an even number of nodes. */
  function Parents<T>(h: (T, T) -> T, level: seq<T>): (r: seq<T>)
    requires |level| % 2 == 0
    ensures |r| == |level| / 2
    ensures forall i | 0 <= i < |r| :: r[i] == h(level[2 * i], level[2 * i + 1])
  {
    seq(|level| / 2, i requires 0 <= i < |level| / 2 => h(level[2 * i], level[2 * i + 1]))
  }

  function Up<T>(h: (T, T) -> T, level: seq<T>): (r: seq<T>)
    requires |level| > 1
    ensures 0 < |r| < |level|
  {
    Parents(h, Padded(level))
  }

  function Root<T>(h: (T, T) -> T, level: seq<T>): T
    requires level != []
    decreases |level|
  {
    if |level| == 1 then level[0] else Root(h, Up(h, level))
  }

  /** The other child of a node's parent: `idx ^ 1`. */
  function Sibling(idx: nat): nat { if idx % 2 == 0 then idx + 1 else idx - 1 }

  /** The siblings on the way from a node to the root, lowest first. */
  function Branch<T>(h: (T, T) -> T, level: seq<T>, idx: nat): seq<T>
    requires idx < |level|
    decreases |level|
  {
    if |level| == 1 then [] else [Padded(level)[Sibling(idx)]] + Branch(h, Up(h, level), idx / 2)
  }

  /** A node hashed up along a branch. */
  function Fold<T>(h: (T, T) -> T, node: T, branch: seq<T>, idx: nat): T
    decreases |branch|
  {
    if branch == [] then node
    else Fold(h, if idx % 2 == 0 then h(node, branch[0]) else h(branch[0], node), branch[1..], idx / 2)
  }

  function Pow2(n: nat): (p: nat)
    ensures p > 0
  {
    if n == 0 then 1 else 2 * Pow2(n - 1)
  }

  lemma UpAt<T>(h: (T, T) -> T, level: seq<T>, idx: nat)
    requires |level| > 1 && idx < |level|
    ensures var p := Padded(level);
            && idx / 2 < |Up(h, level)| && Sibling(idx) < |p|
            && Up(h, level)[idx / 2] == if idx % 2 == 0 then h(level[idx], p[Sibling(idx)]) else h(p[Sibling(idx)], level[idx])
  {
    var p := Padded(level);
    assert p[idx] == level[idx];
    assert 2 * (idx / 2) == if idx % 2 == 0 then idx else idx - 1;
  }

  /** For any nonempty list of leaves, any leaf and any hash: folding the leaf
      along its branch arrives at the root. */
  lemma {:induction false} BranchFoldsToRoot<T>(h: (T, T) -> T, leaves: seq<T>, idx: nat)
    requires idx < |leaves|
    ensures Fold(h, leaves[idx], Branch(h, leaves, idx), idx) == Root(h, leaves)
    decreases |leaves|
  {
    if |leaves| > 1 {
      UpAt(h, leaves, idx);
      BranchFoldsToRoot(h, Up(h, leaves), idx / 2);
    }
  }

  /** The branch is as long as the tree is deep: ceil(log2 n). */
  lemma {:induction false} BranchLength<T>(h: (T, T) -> T, leaves: seq<T>, idx: nat)
    requires idx < |leaves|
    ensures var k := |Branch(h, leaves, idx)|;
            |leaves| <= Pow2(k) && (k > 0 ==> Pow2(k - 1) < |leaves|)
    decreases |leaves|
  {
    if |leaves| > 1 {
      BranchLength(h, Up(h, leaves), idx / 2);
      var k := |Branch(h, leaves, idx)|;
      assert k == 1 + |Branch(h, Up(h, leaves), idx / 2)|;
      assert |Up(h, leaves)| == (|leaves| + 1) / 2;
      if k > 1 {
        assert Pow2(k - 1) == 2 * Pow2(k - 2);
      }
    }
  }

  /** A hash that never collides: what went into it can be told from it. */
  ghost predicate Tells<T(!new)>(h: (T, T) -> T, left: T -> T, right: T -> T) {
    forall a, b :: left(h(a, b)) == a && right(h(a, b)) == b
  }

  /** The order along a branch is load-bearing, and so is every node of it: with a
      hash that never collides, only the leaf itself and its own branch, in order,
      fold to the root in as many steps. */
  lemma {:induction false} OnlyItsBranchFolds<T(!new)>(h: (T, T) -> T, left: T -> T, right: T -> T,
                                                       leaves: seq<T>, idx: nat, node: T, branch: seq<T>)
    requires idx < |leaves| && Tells(h, left, right)
    requires |branch| == |Branch(h, leaves, idx)|
    ensures Fold(h, node, branch, idx) == Root(h, leaves) <==> node == leaves[idx] && branch == Branch(h, leaves, idx)
    decreases |leaves|
  {
    BranchFoldsToRoot(h, leaves, idx);
    if |leaves| > 1 && Fold(h, node, branch, idx) == Root(h, leaves) {
      UpAt(h, leaves, idx);
      var up := if idx % 2 == 0 then h(node, branch[0]) else h(branch[0], node);
      OnlyItsBranchFolds(h, left, right, Up(h, leaves), idx / 2, up, branch[1..]);
      assert branch == [branch[0]] + branch[1..];
    }
  }

  /** A list and the same list with its odd last leaf repeated have one root. */
  lemma PaddingKeepsRoot<T>(h: (T, T) -> T, leaves: seq<T>)
    requires |leaves| > 1
    ensures Root(h, Padded(leaves)) == Root(h, leaves)
  {
    assert Padded(Padded(leaves)) == Padded(leaves);
  }

  // ----- the tree from above -----

  /** How many nodes stand `k` levels above `n` leaves. */
  function Width(n: nat, k: nat): nat { if k == 0 then n else (Width(n, k - 1) + 1) / 2 }

  /** Node `i` of level `k`: the hash of the two below it, left before right, the last
      one of a level standing in for a right one that is not there. */
  function Node<T>(h: (T, T) -> T, leaves: seq<T>, k: nat, i: nat): T
    requires leaves != []
    decreases k
  {
    if k == 0 then leaves[if i < |leaves| then i else |leaves| - 1]
    else
      var below := Width(|leaves|, k - 1);
      h(Node(h, leaves, k - 1, 2 * i), Node(h, leaves, k - 1, if 2 * i + 1 < below then 2 * i + 1 else 2 * i))
  }

  lemma {:induction false} WidthUp(n: nat, k: nat)
    ensures Width((n + 1) / 2, k) == Width(n, k + 1)
  {
    if k > 0 { WidthUp(n, k - 1); }
  }

  lemma {:induction false} NodeUp<T>(h: (T, T) -> T, leaves: seq<T>, k: nat, i: nat)
    requires |leaves| > 1 && i < Width(|leaves|, k + 1)
    ensures Node(h, Up(h, leaves), k, i) == Node(h, leaves, k + 1, i)
    decreases k
  {
    var up := Up(h, leaves);
    var p := Padded(leaves);
    assert |up| == (|leaves| + 1) / 2;
    if k == 0 {
      assert up[i] == h(p[2 * i], p[2 * i + 1]);
    } else {
      WidthUp(|leaves|, k - 1);
      WidthUp(|leaves|, k);
      var below := Width(|up|, k - 1);
      NodeUp(h, leaves, k - 1, 2 * i);
      NodeUp(h, leaves, k - 1, if 2 * i + 1 < below then 2 * i + 1 else 2 * i);
    }
  }

  /** The root is the top node of a tree as high as a branch is long. */
  lemma {:induction false} RootIsTop<T>(h: (T, T) -> T, leaves: seq<T>, idx: nat)
    requires idx < |leaves|
    ensures var n := |Branch(h, leaves, idx)|; Root(h, leaves) == Node(h, leaves, n, 0) && Width(|leaves|, n) == 1
    decreases |leaves|
  {
    hide Padded, Parents, Up, Node, Width;
    if |leaves| > 1 {
      UpLength(h, leaves);
      RootIsTop(h, Up(h, leaves), idx / 2);
      var n := |Branch(h, Up(h, leaves), idx / 2)|;
      WidthUp(|leaves|, n);
      NodeUp(h, leaves, n, 0);
    } else {
      LeafIsTop(h, leaves);
    }
  }

  lemma UpLength<T>(h: (T, T) -> T, leaves: seq<T>)
    requires |leaves| > 1
    ensures |Up(h, leaves)| == (|leaves| + 1) / 2
  {
  }

  lemma LeafIsTop<T>(h: (T, T) -> T, leaves: seq<T>)
    requires |leaves| == 1
    ensures Node(h, leaves, 0, 0) == leaves[0] && Width(1, 0) == 1
  {
  }

  /** The place of a leaf's ancestor, `k` levels up. */
  function Above(idx: nat, k: nat): nat { if k == 0 then idx else Above(idx, k - 1) / 2 }

  lemma {:induction false} AboveUp(idx: nat, k: nat)
    ensures Above(idx / 2, k) == Above(idx, k + 1)
  {
    if k > 0 { AboveUp(idx, k - 1); }
  }

  lemma {:induction false} AboveInside<T>(h: (T, T) -> T, leaves: seq<T>, idx: nat, k: nat)
    requires idx < |leaves|
    ensures Above(idx, k) < Width(|leaves|, k)
  {
    if k > 0 { AboveInside(h, leaves, idx, k - 1); }
  }

  /** What stands beside node `i` of level `k`. */
  function Beside<T>(h: (T, T) -> T, leaves: seq<T>, k: nat, i: nat): T
    requires leaves != []
  {
    Node(h, leaves, k, if i % 2 == 1 then i - 1 else if i + 1 < Width(|leaves|, k) then i + 1 else i)
  }

  /** The nodes of a branch are, level by level, those beside the way up: the right one
      of an even place, the left one of an odd. */
  lemma {:induction false} BranchIsBeside<T>(h: (T, T) -> T, leaves: seq<T>, idx: nat, k: nat)
    requires idx < |leaves| && k < |Branch(h, leaves, idx)|
    ensures Branch(h, leaves, idx)[k] == Beside(h, leaves, k, Above(idx, k))
    decreases |leaves|
  {
    hide Padded, Parents, Up, Node, Width, Above, Beside;
    if k == 0 {
      FirstIsBeside(h, leaves, idx);
    } else {
      UpLength(h, leaves);
      BranchIsBeside(h, Up(h, leaves), idx / 2, k - 1);
      BesideUp(h, leaves, idx, k);
    }
  }

  lemma FirstIsBeside<T>(h: (T, T) -> T, leaves: seq<T>, idx: nat)
    requires idx < |leaves| && |leaves| > 1
    ensures Sibling(idx) < |Padded(leaves)| && Padded(leaves)[Sibling(idx)] == Beside(h, leaves, 0, Above(idx, 0))
  {
  }

  lemma BesideUp<T>(h: (T, T) -> T, leaves: seq<T>, idx: nat, k: nat)
    requires idx < |leaves| && |leaves| > 1 && k > 0
    ensures Beside(h, Up(h, leaves), k - 1, Above(idx / 2, k - 1)) == Beside(h, leaves, k, Above(idx, k))
  {
    hide Padded, Parents, Up, Node, Width, Above;
    var a := Above(idx, k);
    UpLength(h, leaves);
    WidthUp(|leaves|, k - 1);
    AboveUp(idx, k - 1);
    AboveInside(h, leaves, idx, k);
    NodeUp(h, leaves, k - 1, if a % 2 == 1 then a - 1 else if a + 1 < Width(|leaves|, k) then a + 1 else a);
  }

  /** The inner comprehension: hash a level pair by pair. */
  method PairUp<T>(h: (T, T) -> T, level: seq<T>) returns (above: seq<T>)
    requires |level| % 2 == 0
    ensures above == Parents(h, level)
  {
    above := [];
    var i := 0;
    while i < |level|
      invariant 0 <= i <= |level| && i % 2 == 0 && |above| == i / 2
      invariant forall j | 0 <= j < |above| :: above[j] == h(level[2 * j], level[2 * j + 1])
    {
      above := above + [h(level[i], level[i + 1])];
      i := i + 2;
    }
  }

  lemma OneLevel<T>(h: (T, T) -> T, level: seq<T>, idx: nat)
    requires |level| > 1 && idx < |level|
    ensures var p := if |level| % 2 == 1 then level + [level[|level| - 1]] else level;
            && |p| % 2 == 0 && Sibling(idx) < |p| && 0 < |Parents(h, p)| < |level| && idx / 2 < |Parents(h, p)|
            && Branch(h, level, idx) == [p[Sibling(idx)]] + Branch(h, Parents(h, p), idx / 2)
            && Root(h, level) == Root(h, Parents(h, p))
  {
    UpAt(h, level, idx);
  }

  /** `merkle_branch_ref` over any leaves: level by level, collecting what stands
      beside the leftmost node. */
  method BranchAndRoot<T>(h: (T, T) -> T, leaves: seq<T>) returns (branch: seq<T>, root: T)
    requires leaves != []
    ensures branch == Branch(h, leaves, 0) && root == Root(h, leaves)
  {
    hide Parents, Branch, Root, Sibling;
    branch := [];
    var level := leaves;
    var idx := 0;
    while |level| > 1
      invariant level != [] && 0 <= idx < |level|
      invariant Branch(h, leaves, 0) == branch + Branch(h, level, idx)
      invariant Root(h, leaves) == Root(h, level)
      decreases |level|
    {
      OneLevel(h, level, idx);
      if |level| % 2 == 1 {
        level := level + [level[|level| - 1]];
      }
      branch := branch + [level[Sibling(idx)]];
      level := PairUp(h, level);
      idx := idx / 2;
    }
    OneLeaf(h, level, idx);
    root := level[0];
  }

  lemma OneLeaf<T>(h: (T, T) -> T, level: seq<T>, idx: nat)
    requires |level| == 1 && idx == 0
    ensures Branch(h, level, idx) == [] && Root(h, level) == level[0]
  {
  }

  /** The fold of the self-test, which takes the leftmost leaf up. */
  method FoldLeftmost<T>(h: (T, T) -> T, leaf: T, branch: seq<T>) returns (r: T)
    ensures r == Fold(h, leaf, branch, 0)
  {
    r := leaf;
    var i := 0;
    while i < |branch|
      invariant 0 <= i <= |branch|
      invariant Fold(h, leaf, branch, 0) == Fold(h, r, branch[i..], 0)
    {
      assert branch[i..][1..] == branch[i + 1..];
      r := h(r, branch[i]);
      i := i + 1;
    }
  }
}
