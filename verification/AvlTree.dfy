/** The persistent height-balanced nodes both containers are built from.

    A node holds a block of entries.  ImmutableTree stores one entry per node,
    ImmutableBlockTree a packed block of them; MakeNode, the rotations, Balance
    and JoinNode are the same code in both. */
module AvlTree {
  import opened Prelude

  const MAX_HEIGHT := 0xFFFF
  const MAX_SIZE := 0xFFFF_FFFF

  datatype LengthError = HeightLimit | SizeLimit

  /** size and height are the fields cached by MakeNode, not derived values. */
  datatype Tree<E> = Leaf | Node(block: seq<E>, left: Tree<E>, right: Tree<E>, size: nat, height: nat)

  type TreeResult<E> = Result<Tree<E>, LengthError>

  function Height<E>(t: Tree<E>): nat {
    if t.Leaf? then 0 else t.height
  }

  function Size<E>(t: Tree<E>): nat {
    if t.Leaf? then 0 else t.size
  }

  function MakeNode<E>(block: seq<E>, left: Tree<E>, right: Tree<E>): (r: TreeResult<E>)
    ensures r.Success? ==> r.value.Node? && NodeCount(r.value) == 1 + NodeCount(left) + NodeCount(right)
  {
    var height := 1 + Max(Height(left), Height(right));
    if height > MAX_HEIGHT then
      Failure(HeightLimit)
    else if |block| > MAX_SIZE || Size(left) > MAX_SIZE - |block| || Size(right) > MAX_SIZE - |block| - Size(left) then
      Failure(SizeLimit)
    else
      Success(Node(block, left, right, |block| + Size(left) + Size(right), height))
  }

  function BalanceFactor<E>(t: Tree<E>): int {
    if t.Leaf? then 0 else Height(t.left) - Height(t.right)
  }

  function RotateLeft<E>(node: Tree<E>): (r: TreeResult<E>)
    requires node.Node? && node.right.Node?
    ensures r.Success? ==> r.value.Node? && NodeCount(r.value) == NodeCount(node)
  {
    var pivot := node.right;
    var newLeft :- MakeNode(node.block, node.left, pivot.left);
    MakeNode(pivot.block, newLeft, pivot.right)
  }

  function RotateRight<E>(node: Tree<E>): (r: TreeResult<E>)
    requires node.Node? && node.left.Node?
    ensures r.Success? ==> r.value.Node? && NodeCount(r.value) == NodeCount(node)
  {
    var pivot := node.left;
    var newRight :- MakeNode(node.block, pivot.right, node.right);
    MakeNode(pivot.block, pivot.left, newRight)
  }

  function Balance<E>(node: Tree<E>): (r: TreeResult<E>)
    ensures r.Success? ==> NodeCount(r.value) == NodeCount(node)
  {
    var factor := BalanceFactor(node);
    if factor > 1 then
      if BalanceFactor(node.left) < 0 then
        var newLeft :- RotateLeft(node.left);
        var raised :- MakeNode(node.block, newLeft, node.right);
        RotateRight(raised)
      else
        RotateRight(node)
    else if factor < -1 then
      if BalanceFactor(node.right) > 0 then
        var newRight :- RotateRight(node.right);
        var raised :- MakeNode(node.block, node.left, newRight);
        RotateLeft(raised)
      else
        RotateLeft(node)
    else
      Success(node)
  }

  function MakeBalanced<E>(block: seq<E>, left: Tree<E>, right: Tree<E>): TreeResult<E> {
    var node :- MakeNode(block, left, right);
    Balance(node)
  }

  /** Joins two trees of any height difference around one block. */
  function JoinNode<E>(block: seq<E>, left: Tree<E>, right: Tree<E>): (r: TreeResult<E>)
    ensures r.Success? ==> NodeCount(r.value) == NodeCount(left) + NodeCount(right) + 1
    decreases left, right
  {
    if Height(left) > Height(right) + 1 then
      var joinedRight :- JoinNode(block, left.right, right);
      MakeBalanced(left.block, left.left, joinedRight)
    else if Height(right) > Height(left) + 1 then
      var joinedLeft :- JoinNode(block, left, right.left);
      MakeBalanced(right.block, joinedLeft, right.right)
    else
      MakeBalanced(block, left, right)
  }

  ghost function NodeCount<E>(t: Tree<E>): nat {
    if t.Leaf? then 0 else 1 + NodeCount(t.left) + NodeCount(t.right)
  }

  // ---------------------------------------------------------------- invariant

  /** The blocks of a tree in key order. */
  ghost function Blocks<E>(t: Tree<E>): seq<seq<E>> {
    if t.Leaf? then [] else Blocks(t.left) + [t.block] + Blocks(t.right)
  }

  /** The entries of a tree in key order. */
  function Elems<E>(t: Tree<E>): seq<E> {
    if t.Leaf? then [] else Elems(t.left) + t.block + Elems(t.right)
  }

  /** Balanced everywhere, both cached fields exact, no empty block. */
  ghost predicate Avl<E>(t: Tree<E>) {
    t.Node? ==>
      && Avl(t.left) && Avl(t.right)
      && t.block != []
      && t.height == 1 + Max(Height(t.left), Height(t.right))
      && t.size == |t.block| + Size(t.left) + Size(t.right) <= MAX_SIZE
      && -1 <= BalanceFactor(t) <= 1
  }

  lemma {:induction false} ElemsAreBlocks<E>(t: Tree<E>)
    ensures Elems(t) == Flatten(Blocks(t))
    ensures |Blocks(t)| == NodeCount(t)
  {
    if t.Node? {
      ElemsAreBlocks(t.left);
      ElemsAreBlocks(t.right);
      FlattenSplice(Blocks(t.left), t.block, Blocks(t.right));
    }
  }

  lemma {:induction false} SizeIsEntryCount<E>(t: Tree<E>)
    requires Avl(t)
    ensures Size(t) == |Elems(t)| <= MAX_SIZE
    ensures NodeCount(t) <= Size(t)
  {
    if t.Node? {
      SizeIsEntryCount(t.left);
      SizeIsEntryCount(t.right);
    }
  }

  // ------------------------------------------------------------- height bound

  function Fib(n: nat): nat {
    if n < 2 then n else Fib(n - 1) + Fib(n - 2)
  }

  lemma {:induction false} FibMonotone(a: nat, b: nat)
    requires a <= b
    ensures Fib(a) <= Fib(b)
    decreases b
  {
    if a < b {
      FibMonotone(a, b - 1);
      if b >= 2 {
        assert Fib(b) == Fib(b - 1) + Fib(b - 2);
      }
    }
  }

  lemma FibStep(n: nat)
    ensures Fib(n + 2) == Fib(n + 1) + Fib(n) && Fib(0) == 0 && Fib(1) == 1
  {
  }

  /** A balanced tree of height h has at least Fib(h + 2) - 1 nodes. */
  lemma {:induction false} NodeCountFromHeight<E>(t: Tree<E>)
    requires Avl(t)
    ensures NodeCount(t) + 1 >= Fib(Height(t) + 2)
  {
    FibStep(0);
    hide Fib;
    if t.Node? {
      NodeCountFromHeight(t.left);
      NodeCountFromHeight(t.right);
      var h := Max(Height(t.left), Height(t.right));
      FibStep(h + 1);
      FibMonotone(h + 1, Height(t.left) + 2);
      FibMonotone(h + 1, Height(t.right) + 2);
    }
  }

  /** Sixteen steps of the recurrence at once. */
  lemma FibFar(n: nat)
    ensures Fib(n + 16) == 610 * Fib(n) + 987 * Fib(n + 1)
    ensures Fib(n + 17) == 987 * Fib(n) + 1597 * Fib(n + 1)
  {
    FibEight(n);
    FibEight(n + 8);
  }

  lemma FibEight(n: nat)
    ensures Fib(n + 8) == 13 * Fib(n) + 21 * Fib(n + 1) && Fib(n + 9) == 21 * Fib(n) + 34 * Fib(n + 1)
  {
    assert Fib(n + 4) == 2 * Fib(n) + 3 * Fib(n + 1) && Fib(n + 5) == 3 * Fib(n) + 5 * Fib(n + 1);
  }

  lemma FibPassesUint32()
    ensures Fib(48) > MAX_SIZE + 1
  {
    assert Fib(16) == 987 && Fib(17) == 1597;
    FibFar(16);
    assert Fib(32) == 2178309 && Fib(33) == 3524578;
    FibFar(32);
  }

  /** With sizes limited to 32 bits no tree is higher than 45, far below the 16-bit limit. */
  lemma HeightBound<E>(t: Tree<E>)
    requires Avl(t)
    ensures Height(t) <= 45
  {
    NodeCountFromHeight(t);
    SizeIsEntryCount(t);
    if Height(t) > 45 {
      FibMonotone(48, Height(t) + 2);
      FibPassesUint32();
      assert false;
    }
  }

  // ------------------------------------------------------ MakeNode and Balance

  ghost predicate Holds<E>(t: Tree<E>, block: seq<E>, left: Tree<E>, right: Tree<E>) {
    && Avl(t)
    && t.Node?
    && Blocks(t) == Blocks(left) + [block] + Blocks(right)
    && t.size == |block| + Size(left) + Size(right)
  }

  /** MakeNode over balanced children throws exactly when the entries no longer fit 32 bits;
      the height error never fires, not even for the node that is about to be rotated. */
  lemma MakeNodeLimit<E>(block: seq<E>, left: Tree<E>, right: Tree<E>)
    requires Avl(left) && Avl(right)
    ensures MakeNode(block, left, right) ==
            if |block| + Size(left) + Size(right) > 4294967295 then Failure(SizeLimit)
            else Success(Node(block, left, right, |block| + Size(left) + Size(right),
                              1 + Max(Height(left), Height(right))))
  {
    HeightBound(left);
    HeightBound(right);
  }

  lemma MakeNodeHolds<E>(block: seq<E>, left: Tree<E>, right: Tree<E>)
    requires Avl(left) && Avl(right) && block != []
    requires -1 <= Height(left) - Height(right) <= 1
    requires |block| + Size(left) + Size(right) <= MAX_SIZE
    ensures MakeNode(block, left, right).Success?
    ensures Holds(MakeNode(block, left, right).value, block, left, right)
    ensures Height(MakeNode(block, left, right).value) == 1 + Max(Height(left), Height(right))
  {
    MakeNodeLimit(block, left, right);
  }

  lemma Regroup<T>(a: seq<T>, x: seq<T>, b: seq<T>, y: seq<T>, c: seq<T>, z: seq<T>, d: seq<T>)
    ensures a + x + b + y + (c + z + d) == a + x + (b + y + c) + z + d
    ensures a + x + b + y + (c + z + d) == a + x + (b + y + c + z + d)
  {
  }

  lemma Splice<T>(a: seq<T>, x: seq<T>, b: seq<T>, y: seq<T>, c: seq<T>)
    ensures a + x + (b + y + c) == a + x + b + y + c
  {
  }

  lemma AvlParts<E>(t: Tree<E>)
    requires Avl(t) && t.Node?
    ensures Avl(t.left) && Avl(t.right) && t.block != [] && -1 <= BalanceFactor(t) <= 1
    ensures t.height == 1 + Max(Height(t.left), Height(t.right)) && t.size == |t.block| + Size(t.left) + Size(t.right) <= MAX_SIZE
  {
  }

  lemma HoldsSize<E>(t: Tree<E>, block: seq<E>, left: Tree<E>, right: Tree<E>)
    requires Holds(t, block, left, right)
    ensures Avl(t) && t.Node? && Size(t) == |block| + Size(left) + Size(right)
  {
    hide Avl, Blocks;
  }

  /** The root of left over its left subtree and the joined right part holds the whole of left. */
  lemma HoldsLeft<E>(t: Tree<E>, joined: Tree<E>, block: seq<E>, left: Tree<E>, right: Tree<E>)
    requires left.Node? && left.size == |left.block| + Size(left.left) + Size(left.right)
    requires Holds(t, left.block, left.left, joined) && Holds(joined, block, left.right, right)
    ensures Holds(t, block, left, right)
  {
    hide Avl;
    Splice(Blocks(left.left), [left.block], Blocks(left.right), [block], Blocks(right));
  }

  lemma HoldsRight<E>(t: Tree<E>, joined: Tree<E>, block: seq<E>, left: Tree<E>, right: Tree<E>)
    requires right.Node? && right.size == |right.block| + Size(right.left) + Size(right.right)
    requires Holds(t, right.block, joined, right.right) && Holds(joined, block, left, right.left)
    ensures Holds(t, block, left, right)
  {
    hide Avl;
    Splice(Blocks(left), [block], Blocks(right.left), [right.block], Blocks(right.right));
  }

  lemma RotationUnfolds<E>(node: Tree<E>)
    requires node.Node?
    ensures node.left.Node? ==>
              var pivot := node.left;
              var lower := MakeNode(node.block, pivot.right, node.right);
              RotateRight(node) == if lower.Failure? then lower else MakeNode(pivot.block, pivot.left, lower.value)
    ensures node.right.Node? ==>
              var pivot := node.right;
              var lower := MakeNode(node.block, node.left, pivot.left);
              RotateLeft(node) == if lower.Failure? then lower else MakeNode(pivot.block, lower.value, pivot.right)
  {
    hide MakeNode, NodeCount;
  }

  lemma RotateRightHolds<E>(node: Tree<E>)
    requires node.Node? && node.block != [] && Avl(node.left) && Avl(node.right)
    requires node.left.Node? && BalanceFactor(node.left) >= 0
    requires Height(node.left) == Height(node.right) + 2
    requires |node.block| + Size(node.left) + Size(node.right) <= MAX_SIZE
    ensures RotateRight(node).Success?
    ensures Holds(RotateRight(node).value, node.block, node.left, node.right)
    ensures Height(node.left) <= Height(RotateRight(node).value) <= Height(node.left) + 1
  {
    hide MakeNode, RotateRight, Avl, Holds;
    var pivot := node.left;
    AvlParts(pivot);
    RotationUnfolds(node);
    MakeNodeHolds(node.block, pivot.right, node.right);
    var lower := MakeNode(node.block, pivot.right, node.right).value;
    HoldsSize(lower, node.block, pivot.right, node.right);
    MakeNodeHolds(pivot.block, pivot.left, lower);
    HoldsLeft(RotateRight(node).value, lower, node.block, pivot, node.right);
  }

  lemma RotateLeftHolds<E>(node: Tree<E>)
    requires node.Node? && node.block != [] && Avl(node.left) && Avl(node.right)
    requires node.right.Node? && BalanceFactor(node.right) <= 0
    requires Height(node.right) == Height(node.left) + 2
    requires |node.block| + Size(node.left) + Size(node.right) <= MAX_SIZE
    ensures RotateLeft(node).Success?
    ensures Holds(RotateLeft(node).value, node.block, node.left, node.right)
    ensures Height(node.right) <= Height(RotateLeft(node).value) <= Height(node.right) + 1
  {
    hide MakeNode, RotateLeft, Avl, Holds;
    var pivot := node.right;
    AvlParts(pivot);
    RotationUnfolds(node);
    MakeNodeHolds(node.block, node.left, pivot.left);
    var lower := MakeNode(node.block, node.left, pivot.left).value;
    HoldsSize(lower, node.block, node.left, pivot.left);
    MakeNodeHolds(pivot.block, lower, pivot.right);
    HoldsRight(RotateLeft(node).value, lower, node.block, node.left, pivot);
  }

  /** A double rotation puts the inner grandchild on top of two new nodes. */
  lemma DoubleRightParts<E>(node: Tree<E>)
    requires node.Node? && Avl(node.left) && Avl(node.right)
    requires node.left.Node? && BalanceFactor(node.left) < 0 && BalanceFactor(node) == 2
    requires |node.block| + Size(node.left) + Size(node.right) <= MAX_SIZE
    ensures var l, top := node.left, node.left.right;
            var a, c := MakeNode(l.block, l.left, top.left), MakeNode(node.block, top.right, node.right);
            a.Success? && c.Success? && Balance(node) == MakeNode(top.block, a.value, c.value)
  {
    hide Blocks, Elems;
    var l := node.left;
    HeightBound(l);
    HeightBound(node.right);
    MakeNodeLimit(l.block, l.left, l.right.left);
    MakeNodeLimit(node.block, l.right.right, node.right);
  }

  lemma DoubleLeftParts<E>(node: Tree<E>)
    requires node.Node? && Avl(node.left) && Avl(node.right)
    requires node.right.Node? && BalanceFactor(node.right) > 0 && BalanceFactor(node) == -2
    requires |node.block| + Size(node.left) + Size(node.right) <= MAX_SIZE
    ensures var r, top := node.right, node.right.left;
            var a, c := MakeNode(node.block, node.left, top.left), MakeNode(r.block, top.right, r.right);
            a.Success? && c.Success? && Balance(node) == MakeNode(top.block, a.value, c.value)
  {
    hide Blocks, Elems;
    var r := node.right;
    HeightBound(r);
    HeightBound(node.left);
    MakeNodeLimit(r.block, r.left.right, r.right);
    MakeNodeLimit(node.block, node.left, r.left.left);
  }

  lemma DoubleRightHolds<E>(node: Tree<E>)
    requires node.Node? && node.block != [] && Avl(node.left) && Avl(node.right)
    requires node.left.Node? && BalanceFactor(node.left) < 0
    requires Height(node.left) == Height(node.right) + 2 && BalanceFactor(node) == 2
    requires |node.block| + Size(node.left) + Size(node.right) <= MAX_SIZE
    ensures Balance(node).Success?
    ensures Holds(Balance(node).value, node.block, node.left, node.right)
    ensures Height(Balance(node).value) == Height(node.left)
  {
    DoubleRightParts(node);
    hide Balance, MakeNode;
    var l := node.left;
    var top := l.right;
    MakeNodeHolds(l.block, l.left, top.left);
    var a := MakeNode(l.block, l.left, top.left).value;
    MakeNodeHolds(node.block, top.right, node.right);
    var c := MakeNode(node.block, top.right, node.right).value;
    MakeNodeHolds(top.block, a, c);
    assert Blocks(l) == Blocks(l.left) + [l.block] + Blocks(top) && Blocks(top) == Blocks(top.left) + [top.block] + Blocks(top.right);
    Regroup(Blocks(l.left), [l.block], Blocks(top.left), [top.block], Blocks(top.right), [node.block], Blocks(node.right));
  }

  lemma DoubleLeftHolds<E>(node: Tree<E>)
    requires node.Node? && node.block != [] && Avl(node.left) && Avl(node.right)
    requires node.right.Node? && BalanceFactor(node.right) > 0
    requires Height(node.right) == Height(node.left) + 2 && BalanceFactor(node) == -2
    requires |node.block| + Size(node.left) + Size(node.right) <= MAX_SIZE
    ensures Balance(node).Success?
    ensures Holds(Balance(node).value, node.block, node.left, node.right)
    ensures Height(Balance(node).value) == Height(node.right)
  {
    DoubleLeftParts(node);
    hide Balance, MakeNode;
    var r := node.right;
    var top := r.left;
    MakeNodeHolds(r.block, top.right, r.right);
    var c := MakeNode(r.block, top.right, r.right).value;
    MakeNodeHolds(node.block, node.left, top.left);
    var a := MakeNode(node.block, node.left, top.left).value;
    MakeNodeHolds(top.block, a, c);
    assert Blocks(r) == Blocks(top) + [r.block] + Blocks(r.right) && Blocks(top) == Blocks(top.left) + [top.block] + Blocks(top.right);
    Regroup(Blocks(node.left), [node.block], Blocks(top.left), [top.block], Blocks(top.right), [r.block], Blocks(r.right));
  }

  /** What MakeBalanced and JoinNode promise: the size error exactly when the entries do not fit,
      otherwise a balanced tree with the three parts in order and height in [low, high]. */
  ghost predicate Assembled<E>(r: TreeResult<E>, block: seq<E>, left: Tree<E>, right: Tree<E>, low: int, high: int) {
    if |block| + Size(left) + Size(right) > MAX_SIZE then
      r == Failure(SizeLimit)
    else
      && r.Success?
      && Holds(r.value, block, left, right)
      && low <= Height(r.value) <= high
  }

  lemma MakeBalancedHolds<E>(block: seq<E>, left: Tree<E>, right: Tree<E>)
    requires Avl(left) && Avl(right) && block != []
    requires -2 <= Height(left) - Height(right) <= 2
    ensures var taller := Max(Height(left), Height(right));
            Assembled(MakeBalanced(block, left, right), block, left, right,
                      if -2 < Height(left) - Height(right) < 2 then taller + 1 else taller, taller + 1)
  {
    MakeNodeLimit(block, left, right);
    if |block| + Size(left) + Size(right) <= MAX_SIZE {
      var node := MakeNode(block, left, right).value;
      var factor := BalanceFactor(node);
      if factor == 2 {
        if BalanceFactor(left) < 0 { DoubleRightHolds(node); } else { RotateRightHolds(node); }
      } else if factor == -2 {
        if BalanceFactor(right) > 0 { DoubleLeftHolds(node); } else { RotateLeftHolds(node); }
      }
    }
  }

  ghost predicate Joined<E>(block: seq<E>, left: Tree<E>, right: Tree<E>) {
    var taller := Max(Height(left), Height(right));
    Assembled(JoinNode(block, left, right), block, left, right, taller, taller + 1)
  }

  lemma JoinUnfolds<E>(block: seq<E>, left: Tree<E>, right: Tree<E>)
    ensures Height(left) > Height(right) + 1 ==>
              left.Node? &&
              var joined := JoinNode(block, left.right, right);
              JoinNode(block, left, right) == if joined.Failure? then joined else MakeBalanced(left.block, left.left, joined.value)
    ensures Height(right) > Height(left) + 1 ==>
              right.Node? &&
              var joined := JoinNode(block, left, right.left);
              JoinNode(block, left, right) == if joined.Failure? then joined else MakeBalanced(right.block, joined.value, right.right)
  {
    hide MakeBalanced, NodeCount;
  }

  lemma JoinIntoLeft<E>(block: seq<E>, left: Tree<E>, right: Tree<E>)
    requires Avl(left) && Avl(right) && block != []
    requires Height(left) > Height(right) + 1
    requires Joined(block, left.right, right)
    ensures Joined(block, left, right)
  {
    hide JoinNode, MakeBalanced, Avl, Holds;
    AvlParts(left);
    JoinUnfolds(block, left, right);
    var joined := JoinNode(block, left.right, right);
    if joined.Success? {
      HoldsSize(joined.value, block, left.right, right);
      MakeBalancedHolds(left.block, left.left, joined.value);
      var r := MakeBalanced(left.block, left.left, joined.value);
      if r.Success? { HoldsLeft(r.value, joined.value, block, left, right); }
    }
  }

  lemma JoinIntoRight<E>(block: seq<E>, left: Tree<E>, right: Tree<E>)
    requires Avl(left) && Avl(right) && block != []
    requires Height(right) > Height(left) + 1
    requires Joined(block, left, right.left)
    ensures Joined(block, left, right)
  {
    hide JoinNode, MakeBalanced, Avl, Holds;
    AvlParts(right);
    JoinUnfolds(block, left, right);
    var joined := JoinNode(block, left, right.left);
    if joined.Success? {
      HoldsSize(joined.value, block, left, right.left);
      MakeBalancedHolds(right.block, joined.value, right.right);
      var r := MakeBalanced(right.block, joined.value, right.right);
      if r.Success? { HoldsRight(r.value, joined.value, block, left, right); }
    }
  }

  /** JoinNode accepts any two heights and returns a balanced tree of height max or max + 1. */
  lemma {:induction false} JoinNodeHolds<E>(block: seq<E>, left: Tree<E>, right: Tree<E>)
    requires Avl(left) && Avl(right) && block != []
    ensures Joined(block, left, right)
    decreases left, right
  {
    if Height(left) > Height(right) + 1 {
      JoinNodeHolds(block, left.right, right);
      JoinIntoLeft(block, left, right);
    } else if Height(right) > Height(left) + 1 {
      JoinNodeHolds(block, left, right.left);
      JoinIntoRight(block, left, right);
    } else {
      MakeBalancedHolds(block, left, right);
    }
  }

  // --------------------------------------------------------------- bulk build

  function BuildBalanced<E>(blocks: seq<seq<E>>, begin: nat, end: nat): TreeResult<E>
    requires begin <= end <= |blocks|
    decreases end - begin
  {
    if begin == end then
      Success(Leaf)
    else
      var middle := begin + (end - begin) / 2;
      var left :- BuildBalanced(blocks, begin, middle);
      var right :- BuildBalanced(blocks, middle + 1, end);
      MakeNode(blocks[middle], left, right)
  }

  function Levels(n: nat): nat {
    if n == 0 then 0 else 1 + Levels(n / 2)
  }

  lemma {:induction false} LevelsStep(n: nat)
    ensures Levels(n) <= Levels(n + 1) <= Levels(n) + 1
  {
    if n > 0 {
      if (n + 1) / 2 == n / 2 + 1 {
        LevelsStep(n / 2);
      }
    }
  }

  lemma HalvesLevel(n: nat)
    requires n > 0
    ensures Levels(n) == 1 + Max(Levels(n / 2), Levels(n - 1 - n / 2))
    ensures Levels(n - 1 - n / 2) <= Levels(n / 2) <= Levels(n - 1 - n / 2) + 1
  {
    LevelsStep(n - 1 - n / 2);
  }

  lemma BlocksMeasureSize<E>(t: Tree<E>)
    requires Avl(t)
    ensures Size(t) == |Flatten(Blocks(t))| <= MAX_SIZE
  {
    ElemsAreBlocks(t);
    SizeIsEntryCount(t);
  }

  ghost predicate Built<E>(blocks: seq<seq<E>>, begin: nat, end: nat)
    requires begin <= end <= |blocks|
  {
    var r := BuildBalanced(blocks, begin, end);
    if |Flatten(blocks[begin..end])| > MAX_SIZE then
      r == Failure(SizeLimit)
    else
      && r.Success? && Avl(r.value)
      && Blocks(r.value) == blocks[begin..end]
      && Height(r.value) == Levels(end - begin)
  }

  lemma BuildStep<E>(blocks: seq<seq<E>>, begin: nat, middle: nat, end: nat)
    requires begin < end <= |blocks|
    requires middle == begin + (end - begin) / 2 && blocks[middle] != []
    requires Built(blocks, begin, middle) && Built(blocks, middle + 1, end)
    ensures Built(blocks, begin, end)
  {
    hide Avl, Flatten, Levels, MakeNode, Blocks, Size;
    assert blocks[begin..end] == blocks[begin..middle] + [blocks[middle]] + blocks[middle + 1..end];
    FlattenSplice(blocks[begin..middle], blocks[middle], blocks[middle + 1..end]);
    var left := BuildBalanced(blocks, begin, middle);
    var right := BuildBalanced(blocks, middle + 1, end);
    if left.Success? && right.Success? {
      BlocksMeasureSize(left.value);
      BlocksMeasureSize(right.value);
      HalvesLevel(end - begin);
      MakeNodeLimit(blocks[middle], left.value, right.value);
      if |Flatten(blocks[begin..end])| <= MAX_SIZE {
        MakeNodeHolds(blocks[middle], left.value, right.value);
      }
    }
  }

  /** The bulk build is balanced, keeps the blocks in order, and throws exactly on too many entries. */
  lemma {:induction false} BuildBalancedHolds<E>(blocks: seq<seq<E>>, begin: nat, end: nat)
    requires begin <= end <= |blocks|
    requires forall i :: begin <= i < end ==> blocks[i] != []
    ensures Built(blocks, begin, end)
    decreases end - begin
  {
    if begin < end {
      var middle := begin + (end - begin) / 2;
      BuildBalancedHolds(blocks, begin, middle);
      BuildBalancedHolds(blocks, middle + 1, end);
      BuildStep(blocks, begin, middle, end);
    }
  }
}
