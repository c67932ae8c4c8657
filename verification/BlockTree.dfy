/** ImmutableBlockTree: a persistent balanced tree of sorted blocks. */
module BlockTree {
  import opened Prelude
  import opened AvlTree
  import opened ZipList
  import SortedMap
  import opened SortedMapTypes = SortedMap

  type Root<K, V> = Tree<Entry<K, V>>
  type RootResult<K, V> = Result<Root<K, V>, LengthError>

  function FindMin<E>(t: Tree<E>): (m: Tree<E>)
    requires t.Node?
    ensures m.Node?
  {
    if t.left.Leaf? then t else FindMin(t.left)
  }

  function FindMax<E>(t: Tree<E>): (m: Tree<E>)
    requires t.Node?
    ensures m.Node?
  {
    if t.right.Leaf? then t else FindMax(t.right)
  }

  // ---------------------------------------------------------- normalizing a node

  /** The three mutually recursive functions end because each erasure returns fewer nodes
      than it was given, and a join adds exactly one. */
  function EraseMinNode<K, V>(f: Form<K>, node: Root<K, V>): (r: RootResult<K, V>)
    requires node.Node?
    ensures r.Success? ==> NodeCount(r.value) < NodeCount(node)
    decreases NodeCount(node), 0
  {
    if node.left.Leaf? then
      Success(node.right)
    else
      var left :- EraseMinNode(f, node.left);
      NormalizeNode(f, node.block, left, node.right)
  }

  function EraseMaxNode<K, V>(f: Form<K>, node: Root<K, V>): (r: RootResult<K, V>)
    requires node.Node?
    ensures r.Success? ==> NodeCount(r.value) < NodeCount(node)
    decreases NodeCount(node), 0
  {
    if node.right.Leaf? then
      Success(node.left)
    else
      var right :- EraseMaxNode(f, node.right);
      NormalizeNode(f, node.block, node.left, right)
  }

  /** Absorbs predecessors while they merge, then successors, then joins. */
  function NormalizeNode<K, V>(f: Form<K>, block: seq<Entry<K, V>>, left: Root<K, V>, right: Root<K, V>): (r: RootResult<K, V>)
    ensures r.Success? ==> NodeCount(r.value) <= NodeCount(left) + NodeCount(right) + 1
    decreases NodeCount(left) + NodeCount(right), 2
  {
    if left.Node? && CanMerge(f, FindMax(left).block, block) then
      var rest :- EraseMaxNode(f, left);
      NormalizeNode(f, FindMax(left).block + block, rest, right)
    else
      AbsorbSuccessors(f, block, left, right)
  }

  function AbsorbSuccessors<K, V>(f: Form<K>, block: seq<Entry<K, V>>, left: Root<K, V>, right: Root<K, V>): (r: RootResult<K, V>)
    ensures r.Success? ==> NodeCount(r.value) <= NodeCount(left) + NodeCount(right) + 1
    decreases NodeCount(left) + NodeCount(right), 1
  {
    if right.Node? && CanMerge(f, block, FindMin(right).block) then
      var rest :- EraseMinNode(f, right);
      AbsorbSuccessors(f, block + FindMin(right).block, left, rest)
    else
      JoinNode(block, left, right)
  }

  // ---------------------------------------------------------------- the invariant

  /** A tree as every operation leaves it: balanced, every block non-empty and within its
      capacity, and no two in-order neighbours that would fit into one block. */
  ghost predicate Good<K, V>(f: Form<K>, t: Root<K, V>) {
    Avl(t) && AllFit(f, Blocks(t)) && NoFit(f, Blocks(t))
  }

  ghost predicate Spliced<K, V>(f: Form<K>, r: RootResult<K, V>, left: Root<K, V>, block: seq<Entry<K, V>>, right: Root<K, V>) {
    if |block| + Size(left) + Size(right) > MAX_SIZE then
      r == Failure(SizeLimit)
    else
      && r.Success?
      && Good(f, r.value)
      && Elems(r.value) == Elems(left) + block + Elems(right)
      && (NoFit(f, Blocks(left) + [block] + Blocks(right)) ==> Blocks(r.value) == Blocks(left) + [block] + Blocks(right))
  }

  lemma {:induction false} FindMinIsFirst<K, V>(t: Root<K, V>)
    requires t.Node?
    ensures Blocks(t) != [] && FindMin(t).block == Blocks(t)[0]
  {
    if t.left.Node? {
      FindMinIsFirst(t.left);
    }
  }

  lemma {:induction false} FindMaxIsLast<K, V>(t: Root<K, V>)
    requires t.Node?
    ensures Blocks(t) != [] && FindMax(t).block == Blocks(t)[|Blocks(t)| - 1]
  {
    if t.right.Node? {
      FindMaxIsLast(t.right);
    }
  }

  lemma GoodChildren<K, V>(f: Form<K>, t: Root<K, V>)
    requires t.Node? && Good(f, t)
    ensures Good(f, t.left) && Good(f, t.right) && t.block != [] && Fits(f, t.block)
  {
    var l, bs := Blocks(t.left), Blocks(t);
    assert forall i :: 0 <= i < |l| ==> l[i] == bs[i];
    assert forall i :: 0 <= i < |Blocks(t.right)| ==> Blocks(t.right)[i] == bs[|l| + 1 + i];
    assert bs[|l|] == t.block;
  }

  /** Same blocks, same counts: an equal block list carries the invariant over. */
  lemma GoodFromBlocks<K, V>(f: Form<K>, t: Root<K, V>, left: Root<K, V>, block: seq<Entry<K, V>>, right: Root<K, V>)
    requires Holds(t, block, left, right)
    requires Good(f, left) && Good(f, right) && block != [] && Fits(f, block)
    requires NoFit(f, Blocks(left) + [block] + Blocks(right))
    ensures Good(f, t) && Elems(t) == Elems(left) + block + Elems(right)
  {
    ElemsAreBlocks(t);
    ElemsAreBlocks(left);
    ElemsAreBlocks(right);
    FlattenSplice(Blocks(left), block, Blocks(right));
    var bs := Blocks(t);
    forall i | 0 <= i < |bs| ensures bs[i] != [] && Fits(f, bs[i]) {
      if i < |Blocks(left)| {
        assert bs[i] == Blocks(left)[i];
      } else if i > |Blocks(left)| {
        assert bs[i] == Blocks(right)[i - |Blocks(left)| - 1];
      }
    }
  }

  lemma NoFitSplice<K, V>(f: Form<K>, l: seq<seq<Entry<K, V>>>, b: seq<Entry<K, V>>, r: seq<seq<Entry<K, V>>>)
    requires NoFit(f, l) && NoFit(f, r)
    ensures NoFit(f, l + [b] + r) <==> (l != [] ==> !CanMerge(f, l[|l| - 1], b)) && (r != [] ==> !CanMerge(f, b, r[0]))
  {
    var bs := l + [b] + r;
    assert l != [] ==> bs[|l| - 1] == l[|l| - 1] && bs[|l|] == b;
    assert r != [] ==> bs[|l|] == b && bs[|l| + 1] == r[0];
    if (l != [] ==> !CanMerge(f, l[|l| - 1], b)) && (r != [] ==> !CanMerge(f, b, r[0])) {
      forall i | 0 <= i < |bs| - 1 ensures !CanMerge(f, bs[i], bs[i + 1]) {
        if i < |l| - 1 {
          assert bs[i] == l[i] && bs[i + 1] == l[i + 1];
        } else if i > |l| {
          assert bs[i] == r[i - |l| - 1] && bs[i + 1] == r[i - |l|];
        }
      }
    }
  }

  /** A block that fits with a longer neighbour fits with any part of it. */
  lemma CanMergeShrinks<K, V>(f: Form<K>, a: seq<Entry<K, V>>, b: seq<Entry<K, V>>, c: seq<Entry<K, V>>)
    ensures CanMerge(f, a, b + c) ==> CanMerge(f, a, b)
    ensures CanMerge(f, a + b, c) ==> CanMerge(f, b, c)
  {
    if CanMerge(f, a, b + c) {
      assert a + (b + c) == (a + b) + c + [];
      FitsPart(f, a + b, c, []);
      assert a + b + [] == a + b;
    }
    if CanMerge(f, a + b, c) {
      assert a + b + c == [] + a + (b + c);
      FitsPart(f, [], a, b + c);
      assert [] + (b + c) == b + c;
    }
  }

  // ---------------------------------------------- erasing an end, normalizing

  ghost predicate LostLast<K, V>(f: Form<K>, r: RootResult<K, V>, t: Root<K, V>) {
    r.Success? && Good(f, r.value) && Blocks(t) != [] && Blocks(r.value) == Blocks(t)[..|Blocks(t)| - 1]
  }

  ghost predicate LostFirst<K, V>(f: Form<K>, r: RootResult<K, V>, t: Root<K, V>) {
    r.Success? && Good(f, r.value) && Blocks(t) != [] && Blocks(r.value) == Blocks(t)[1..]
  }

  lemma LostLastEntries<K, V>(f: Form<K>, r: RootResult<K, V>, t: Root<K, V>)
    requires t.Node? && LostLast(f, r, t) && Avl(t)
    ensures Elems(t) == Elems(r.value) + FindMax(t).block
    ensures Size(t) == Size(r.value) + |FindMax(t).block|
  {
    FindMaxIsLast(t);
    ElemsAreBlocks(t);
    ElemsAreBlocks(r.value);
    var n := |Blocks(t)| - 1;
    assert Blocks(t) == Blocks(t)[..n] + [Blocks(t)[n]] + [];
    FlattenSplice(Blocks(t)[..n], Blocks(t)[n], []);
    SizeIsEntryCount(t);
    SizeIsEntryCount(r.value);
  }

  lemma LostFirstEntries<K, V>(f: Form<K>, r: RootResult<K, V>, t: Root<K, V>)
    requires t.Node? && LostFirst(f, r, t) && Avl(t)
    ensures Elems(t) == FindMin(t).block + Elems(r.value)
    ensures Size(t) == Size(r.value) + |FindMin(t).block|
  {
    FindMinIsFirst(t);
    ElemsAreBlocks(t);
    ElemsAreBlocks(r.value);
    SizeIsEntryCount(t);
    SizeIsEntryCount(r.value);
  }

  /** Erasing the largest node of a good tree drops exactly its last block and merges nothing else. */
  lemma {:induction false} EraseMaxNodeHolds<K, V>(f: Form<K>, node: Root<K, V>)
    requires node.Node? && Good(f, node)
    ensures LostLast(f, EraseMaxNode(f, node), node)
    decreases NodeCount(node), 0
  {
    GoodChildren(f, node);
    FindMaxIsLast(node);
    if node.right.Leaf? {
      assert Blocks(node) == Blocks(node.left) + [node.block];
    } else {
      EraseMaxNodeHolds(f, node.right);
      var erased := EraseMaxNode(f, node.right);
      LostLastEntries(f, erased, node.right);
      NormalizeNodeHolds(f, node.block, node.left, erased.value);
      var kept := Blocks(node.left) + [node.block] + Blocks(erased.value);
      assert kept == Blocks(node)[..|Blocks(node)| - 1];
      assert NoFit(f, kept);
    }
  }

  lemma {:induction false} EraseMinNodeHolds<K, V>(f: Form<K>, node: Root<K, V>)
    requires node.Node? && Good(f, node)
    ensures LostFirst(f, EraseMinNode(f, node), node)
    decreases NodeCount(node), 0
  {
    GoodChildren(f, node);
    FindMinIsFirst(node);
    if node.left.Leaf? {
      assert Blocks(node) == [node.block] + Blocks(node.right);
    } else {
      EraseMinNodeHolds(f, node.left);
      var erased := EraseMinNode(f, node.left);
      LostFirstEntries(f, erased, node.left);
      NormalizeNodeHolds(f, node.block, erased.value, node.right);
      var kept := Blocks(erased.value) + [node.block] + Blocks(node.right);
      assert kept == Blocks(node)[1..];
      assert NoFit(f, kept);
    }
  }

  /** NormalizeNode keeps every entry in order and restores the fill invariant at both sides
      of the block, however many neighbours it swallows; a tree already in shape keeps its blocks. */
  lemma {:induction false} NormalizeNodeHolds<K, V>(f: Form<K>, block: seq<Entry<K, V>>, left: Root<K, V>, right: Root<K, V>)
    requires Good(f, left) && Good(f, right) && block != [] && Fits(f, block)
    ensures Spliced(f, NormalizeNode(f, block, left, right), left, block, right)
    decreases NodeCount(left) + NodeCount(right), 2
  {
    hide Avl, AllFit, NoFit, Fits;
    NoFitSplice(f, Blocks(left), block, Blocks(right));
    if left.Node? && CanMerge(f, FindMax(left).block, block) {
      FindMaxIsLast(left);
      EraseMaxNodeHolds(f, left);
      var rest := EraseMaxNode(f, left);
      LostLastEntries(f, rest, left);
      NormalizeNodeHolds(f, FindMax(left).block + block, rest.value, right);
      SortedMap.Associate(Elems(rest.value), FindMax(left).block, block, Elems(right));
    } else {
      if left.Node? { FindMaxIsLast(left); }
      AbsorbSuccessorsHolds(f, block, left, right);
    }
  }

  lemma JoinNodeSplices<K, V>(f: Form<K>, block: seq<Entry<K, V>>, left: Root<K, V>, right: Root<K, V>)
    requires Good(f, left) && Good(f, right) && block != [] && Fits(f, block)
    requires NoFit(f, Blocks(left) + [block] + Blocks(right))
    ensures Spliced(f, JoinNode(block, left, right), left, block, right)
  {
    JoinNodeHolds(block, left, right);
    var r := JoinNode(block, left, right);
    if r.Success? { GoodFromBlocks(f, r.value, left, block, right); }
  }

  lemma {:induction false} AbsorbSuccessorsHolds<K, V>(f: Form<K>, block: seq<Entry<K, V>>, left: Root<K, V>, right: Root<K, V>)
    requires Good(f, left) && Good(f, right) && block != [] && Fits(f, block)
    requires left.Node? ==> !CanMerge(f, FindMax(left).block, block)
    ensures Spliced(f, AbsorbSuccessors(f, block, left, right), left, block, right)
    decreases NodeCount(left) + NodeCount(right), 1
  {
    hide Fits, AllFit, NoFit, Avl, EraseMinNode, Elems, FindMin, FindMax, JoinNode;
    NoFitSplice(f, Blocks(left), block, Blocks(right));
    if right.Node? { FindMinIsFirst(right); }
    if right.Node? && CanMerge(f, block, FindMin(right).block) {
      EraseMinNodeHolds(f, right);
      var rest := EraseMinNode(f, right);
      LostFirstEntries(f, rest, right);
      var next := FindMin(right).block;
      if left.Node? { CanMergeShrinks(f, FindMax(left).block, block, next); }
      AbsorbSuccessorsHolds(f, block + next, left, rest.value);
      assert Elems(left) + (block + next) + Elems(rest.value) == Elems(left) + block + (next + Elems(rest.value));
    } else {
      if left.Node? { FindMaxIsLast(left); }
      JoinNodeSplices(f, block, left, right);
    }
  }

  // --------------------------------------------------------- splitting a block

  /** Hangs the pieces between left and right, last piece first. */
  function BuildSplitNodes<K, V>(f: Form<K>, blocks: seq<seq<Entry<K, V>>>, left: Root<K, V>, right: Root<K, V>): RootResult<K, V>
  {
    if blocks == [] then
      Success(right)
    else if |blocks| == 1 then
      NormalizeNode(f, blocks[0], left, right)
    else
      var last := |blocks| - 1;
      var rest :- NormalizeNode(f, blocks[last], Leaf, right);
      BuildSplitNodes(f, blocks[..last], left, rest)
  }

  function InsertInNodeBlock<K, V>(f: Form<K>, node: Root<K, V>, index: nat, e: Entry<K, V>): RootResult<K, V>
    requires node.Node? && index <= |node.block|
  {
    if !Full(f, node.block) && CanInsert(f, node.block, e) then
      MakeBalanced(WithInserted(node.block, index, e), node.left, node.right)
    else
      BuildSplitNodes(f, SplitWithInserted(f, node.block, index, e), node.left, node.right)
  }

  /** An update is possible at every index below the count, whatever the form of the block, so the
      second branch is never taken and an update never changes the shape of the tree. */
  function UpdateInNodeBlock<K, V>(f: Form<K>, node: Root<K, V>, index: nat, value: V): RootResult<K, V>
    requires node.Node? && index < |node.block|
  {
    if CanUpdate(node.block, index) then
      MakeBalanced(WithUpdated(node.block, index, value), node.left, node.right)
    else
      BuildSplitNodes(f, SplitWithUpdated(f, node.block, index, value), node.left, node.right)
  }

  /** The operation replaced the block between left and right by the given entries. */
  ghost predicate Replaced<K, V>(f: Form<K>, r: RootResult<K, V>, left: Root<K, V>, middle: seq<Entry<K, V>>, right: Root<K, V>) {
    if |middle| + Size(left) + Size(right) > MAX_SIZE then
      r == Failure(SizeLimit)
    else
      r.Success? && Good(f, r.value) && Elems(r.value) == Elems(left) + middle + Elems(right)
  }

  lemma HangBefore<K, V>(f: Form<K>, r: RootResult<K, V>, left: Root<K, V>, a: seq<Entry<K, V>>, rest: Root<K, V>, b: seq<Entry<K, V>>, right: Root<K, V>)
    requires Replaced(f, r, left, a, rest)
    requires Elems(rest) == b + Elems(right) && Size(rest) == |b| + Size(right)
    ensures Replaced(f, r, left, a + b, right)
  {
    assert Elems(left) + a + (b + Elems(right)) == Elems(left) + (a + b) + Elems(right);
  }

  lemma GoodSize<K, V>(f: Form<K>, t: Root<K, V>)
    requires Good(f, t)
    ensures Avl(t) && Size(t) == |Elems(t)| <= MAX_SIZE
  {
    SizeIsEntryCount(t);
  }

  lemma FlattenLast<T>(xs: seq<seq<T>>)
    requires xs != []
    ensures Flatten(xs) == Flatten(xs[..|xs| - 1]) + xs[|xs| - 1]
  {
    hide Flatten;
    var last := |xs| - 1;
    assert xs == xs[..last] + [xs[last]] + [];
    FlattenSplice(xs[..last], xs[last], []);
    FlattenNothing<T>();
  }

  lemma FlattenNothing<T>()
    ensures Flatten<T>([]) == []
  {
  }

  /** Hanging the last piece in front of right leaves the same problem with one piece fewer. */
  lemma LeafIsGood<K, V>(f: Form<K>)
    ensures Good<K, V>(f, Leaf)
  {
  }

  lemma HangLast<K, V>(f: Form<K>, b: seq<Entry<K, V>>, right: Root<K, V>)
    requires Good(f, right) && b != [] && Fits(f, b)
    ensures var r := NormalizeNode(f, b, Leaf, right);
            if |b| + Size(right) > MAX_SIZE then r == Failure(SizeLimit)
            else r.Success? && Good(f, r.value) && Elems(r.value) == b + Elems(right) && Size(r.value) == |b| + Size(right)
  {
    hide Good, NormalizeNode, Fits;
    LeafIsGood<K, V>(f);
    NormalizeNodeHolds(f, b, Leaf, right);
    GoodSize(f, right);
    var r := NormalizeNode(f, b, Leaf, right);
    if r.Success? { GoodSize(f, r.value); }
  }

  lemma {:induction false} BuildSplitNodesHolds<K, V>(f: Form<K>, blocks: seq<seq<Entry<K, V>>>, left: Root<K, V>, right: Root<K, V>)
    requires Good(f, left) && Good(f, right) && blocks != [] && AllFit(f, blocks)
    ensures Replaced(f, BuildSplitNodes(f, blocks, left, right), left, Flatten(blocks), right)
  {
    var last := |blocks| - 1;
    var init, b := blocks[..last], blocks[last];
    assert b != [] && Fits(f, b) && AllFit(f, init);
    FlattenLast(blocks);
    assert init == [] ==> Flatten(init) == [] && Flatten(blocks) == b;
    hide Good, AllFit, Fits, Flatten, NormalizeNode;
    if last == 0 {
      NormalizeNodeHolds(f, b, left, right);
    } else {
      HangLast(f, b, right);
      var rest := NormalizeNode(f, b, Leaf, right);
      if rest.Success? {
        BuildSplitNodesHolds(f, init, left, rest.value);
        HangBefore(f, BuildSplitNodes(f, init, left, rest.value), left, Flatten(init), rest.value, b, right);
      }
    }
  }

  lemma SplitPieces<K, V>(f: Form<K>, block: seq<Entry<K, V>>, index: nat, e: Entry<K, V>)
    requires f.capacity >= 1 && index <= |block| && Fits(f, block) && block != []
    requires f.CountForm? ==> |block| == f.capacity
    ensures var pieces := SplitWithInserted(f, block, index, e);
            pieces != [] && AllFit(f, pieces) && Flatten(pieces) == WithInserted(block, index, e)
  {
    var entries := WithInserted(block, index, e);
    if f.CountForm? {
      var half := |entries| / 2;
      FlattenPair(entries[..half], entries[half..]);
      assert entries[..half] + entries[half..] == entries;
    } else {
      GreedyPackPartitions(f, entries);
    }
  }

  lemma MakeBalancedReplaces<K, V>(f: Form<K>, node: Root<K, V>, middle: seq<Entry<K, V>>)
    requires node.Node? && Good(f, node) && middle != [] && Fits(f, middle)
    requires NoFit(f, Blocks(node.left) + [middle] + Blocks(node.right))
    ensures Replaced(f, MakeBalanced(middle, node.left, node.right), node.left, middle, node.right)
  {
    GoodChildren(f, node);
    assert JoinNode(middle, node.left, node.right) == MakeBalanced(middle, node.left, node.right);
    JoinNodeSplices(f, middle, node.left, node.right);
  }

  lemma GrownMerges<K, V>(f: Form<K>, a: seq<Entry<K, V>>, b: seq<Entry<K, V>>, index: nat, e: Entry<K, V>)
    requires index <= |b|
    ensures CanMerge(f, a, WithInserted(b, index, e)) ==> CanMerge(f, a, b)
    ensures CanMerge(f, WithInserted(b, index, e), a) ==> CanMerge(f, b, a)
  {
    var head, tail, grown := b[..index], b[index..], WithInserted(b, index, e);
    assert b == head + tail;
    if CanMerge(f, a, grown) {
      assert a + grown == (a + head) + [e] + tail;
      FitsPart(f, a + head, [e], tail);
      assert a + head + tail == a + b;
    }
    if CanMerge(f, grown, a) {
      assert grown + a == head + [e] + (tail + a);
      FitsPart(f, head, [e], tail + a);
      assert head + (tail + a) == b + a;
    }
  }

  /** A block that grew is still too big for its neighbours. */
  lemma GrownBlockStillNoFit<K, V>(f: Form<K>, node: Root<K, V>, index: nat, e: Entry<K, V>)
    requires node.Node? && Good(f, node) && index <= |node.block|
    ensures NoFit(f, Blocks(node.left) + [WithInserted(node.block, index, e)] + Blocks(node.right))
  {
    GoodChildren(f, node);
    var l, b, r := Blocks(node.left), node.block, Blocks(node.right);
    NoFitSplice(f, l, b, r);
    NoFitSplice(f, l, WithInserted(b, index, e), r);
    if l != [] { GrownMerges(f, l[|l| - 1], b, index, e); }
    if r != [] { GrownMerges(f, r[0], b, index, e); }
  }

  /** One entry goes in, in place or by splitting; the neighbourhood is good either way. */
  lemma InsertInNodeBlockHolds<K, V>(f: Form<K>, node: Root<K, V>, index: nat, e: Entry<K, V>)
    requires f.capacity >= 1 && node.Node? && Good(f, node) && index <= |node.block|
    ensures Replaced(f, InsertInNodeBlock(f, node, index, e), node.left, WithInserted(node.block, index, e), node.right)
  {
    GoodChildren(f, node);
    if !Full(f, node.block) && CanInsert(f, node.block, e) {
      FitsAnywhere(f, node.block, index, e);
      GrownBlockStillNoFit(f, node, index, e);
      MakeBalancedReplaces(f, node, WithInserted(node.block, index, e));
    } else {
      SplitPieces(f, node.block, index, e);
      BuildSplitNodesHolds(f, SplitWithInserted(f, node.block, index, e), node.left, node.right);
    }
  }

  // ------------------------------------------------------------ the operations

  function InsertNode<K, V>(f: Form<K>, less: (K, K) -> bool, node: Root<K, V>, key: K, value: V): Result<Option<Root<K, V>>, LengthError>
    requires Avl(node)
  {
    if node.Leaf? then
      var single :- MakeNode([Entry(key, value)], Leaf, Leaf);
      Success(Some(single))
    else if less(key, node.block[0].key) then
      if node.left.Leaf? then
        var grown :- InsertInNodeBlock(f, node, 0, Entry(key, value));
        Success(Some(grown))
      else
        var left :- InsertNode(f, less, node.left, key, value);
        if left.None? then Success(None) else
          var r :- NormalizeNode(f, node.block, left.value, node.right);
          Success(Some(r))
    else if less(node.block[|node.block| - 1].key, key) then
      if node.right.Leaf? then
        var grown :- InsertInNodeBlock(f, node, |node.block|, Entry(key, value));
        Success(Some(grown))
      else
        var right :- InsertNode(f, less, node.right, key, value);
        if right.None? then Success(None) else
          var r :- NormalizeNode(f, node.block, node.left, right.value);
          Success(Some(r))
    else
      var index := LowerBound(less, node.block, key);
      if index < |node.block| && Equivalent(less, node.block[index].key, key) then
        Success(None)
      else
        var grown :- InsertInNodeBlock(f, node, index, Entry(key, value));
        Success(Some(grown))
  }

  function UpdateNode<K, V>(f: Form<K>, less: (K, K) -> bool, node: Root<K, V>, key: K, value: V): Result<Option<Root<K, V>>, LengthError>
    requires Avl(node)
  {
    if node.Leaf? then
      Success(None)
    else if less(key, node.block[0].key) then
      var left :- UpdateNode(f, less, node.left, key, value);
      if left.None? then Success(None) else
        var r :- MakeBalanced(node.block, left.value, node.right);
        Success(Some(r))
    else if less(node.block[|node.block| - 1].key, key) then
      var right :- UpdateNode(f, less, node.right, key, value);
      if right.None? then Success(None) else
        var r :- MakeBalanced(node.block, node.left, right.value);
        Success(Some(r))
    else
      var index := LowerBound(less, node.block, key);
      if index == |node.block| || !Equivalent(less, node.block[index].key, key) then
        Success(None)
      else
        var r :- UpdateInNodeBlock(f, node, index, value);
        Success(Some(r))
  }

  function EraseNode<K, V>(f: Form<K>, less: (K, K) -> bool, node: Root<K, V>, key: K): Result<Option<Root<K, V>>, LengthError>
    requires Avl(node)
  {
    if node.Leaf? then
      Success(None)
    else if less(key, node.block[0].key) then
      var left :- EraseNode(f, less, node.left, key);
      if left.None? then Success(None) else
        var r :- NormalizeNode(f, node.block, left.value, node.right);
        Success(Some(r))
    else if less(node.block[|node.block| - 1].key, key) then
      var right :- EraseNode(f, less, node.right, key);
      if right.None? then Success(None) else
        var r :- NormalizeNode(f, node.block, node.left, right.value);
        Success(Some(r))
    else
      var index := LowerBound(less, node.block, key);
      if index == |node.block| || !Equivalent(less, node.block[index].key, key) then
        Success(None)
      else if |node.block| > 1 then
        var r :- NormalizeNode(f, WithErased(node.block, index), node.left, node.right);
        Success(Some(r))
      else if node.left.Leaf? then
        Success(Some(node.right))
      else if node.right.Leaf? then
        Success(Some(node.left))
      else
        var right :- EraseMinNode(f, node.right);
        var r :- NormalizeNode(f, FindMin(node.right).block, node.left, right);
        Success(Some(r))
  }

  function SetNode<K, V>(f: Form<K>, less: (K, K) -> bool, node: Root<K, V>, key: K, value: V): RootResult<K, V>
    requires Avl(node)
  {
    if node.Leaf? then
      MakeNode([Entry(key, value)], Leaf, Leaf)
    else if less(key, node.block[0].key) then
      if node.left.Leaf? then
        InsertInNodeBlock(f, node, 0, Entry(key, value))
      else
        var left :- SetNode(f, less, node.left, key, value);
        NormalizeNode(f, node.block, left, node.right)
    else if less(node.block[|node.block| - 1].key, key) then
      if node.right.Leaf? then
        InsertInNodeBlock(f, node, |node.block|, Entry(key, value))
      else
        var right :- SetNode(f, less, node.right, key, value);
        NormalizeNode(f, node.block, node.left, right)
    else
      var index := LowerBound(less, node.block, key);
      if index < |node.block| && Equivalent(less, node.block[index].key, key) then
        UpdateInNodeBlock(f, node, index, value)
      else
        InsertInNodeBlock(f, node, index, Entry(key, value))
  }

  // -------------------------------------------------- the operations are a map's

  /** Refused (None) exactly when present, thrown exactly when absent and full, otherwise the
      reference insertion in a good tree. */
  ghost predicate Inserted<K(!new), V>(f: Form<K>, less: (K, K) -> bool, t: Root<K, V>, key: K, value: V)
    requires Avl(t)
  {
    var es, r := Elems(t), InsertNode(f, less, t, key, value);
    if Present(less, es, key) then
      r == Success(None)
    else if |es| == MAX_SIZE then
      r == Failure(SizeLimit)
    else
      r.Success? && r.value.Some? && Good(f, r.value.value) && Elems(r.value.value) == Insert(less, es, key, value)
  }

  /** A replaced child is spliced back by NormalizeNode. */
  lemma NormalizeReplaced<K, V>(f: Form<K>, node: Root<K, V>, left: Root<K, V>, right: Root<K, V>)
    requires node.Node? && Good(f, node) && Good(f, left) && Good(f, right)
    ensures Replaced(f, NormalizeNode(f, node.block, left, right), left, node.block, right)
  {
    GoodChildren(f, node);
    NormalizeNodeHolds(f, node.block, left, right);
  }

  lemma InsertLength<K, V>(less: (K, K) -> bool, es: seq<Entry<K, V>>, key: K, value: V)
    ensures |Insert(less, es, key, value)| == |es| + 1
    ensures |SortedMap.Set(less, es, key, value)| == |es| + if Present(less, es, key) then 0 else 1
  {
  }

  lemma EraseLength<K, V>(less: (K, K) -> bool, es: seq<Entry<K, V>>, key: K)
    requires Present(less, es, key)
    ensures |Erase(less, es, key)| == |es| - 1
  {
  }

  lemma NodeSizes<K, V>(t: Root<K, V>)
    requires t.Node? && Avl(t)
    ensures |Elems(t)| == |t.block| + |Elems(t.left)| + |Elems(t.right)| <= MAX_SIZE
    ensures Size(t.left) == |Elems(t.left)| && Size(t.right) == |Elems(t.right)|
    ensures Elems(t) == Elems(t.left) + t.block + Elems(t.right)
  {
    SizeIsEntryCount(t);
    SizeIsEntryCount(t.left);
    SizeIsEntryCount(t.right);
  }

  lemma LeafGood<K, V>(f: Form<K>, key: K, value: V)
    requires f.capacity >= 1
    ensures var r: RootResult<K, V> := MakeNode([Entry(key, value)], Leaf, Leaf);
            r.Success? && Good(f, r.value) && Elems(r.value) == [Entry(key, value)]
  {
    FitsSingle(f, Entry(key, value));
    var r: RootResult<K, V> := MakeNode([Entry(key, value)], Leaf, Leaf);
    assert Blocks(r.value) == [[Entry(key, value)]];
  }

  /** Below a node whose routing test fails the result of the child is hung back. */
  lemma InsertUnfolds<K, V>(f: Form<K>, less: (K, K) -> bool, t: Root<K, V>, key: K, value: V)
    requires t.Node? && Avl(t) && t.block != []
    ensures less(key, t.block[0].key) && t.left.Node? ==>
              var child := InsertNode(f, less, t.left, key, value);
              InsertNode(f, less, t, key, value) ==
              if child.Failure? || child.value.None? then child
              else var r := NormalizeNode(f, t.block, child.value.value, t.right);
                   if r.Success? then Success(Some(r.value)) else Failure(r.error)
    ensures !less(key, t.block[0].key) && less(t.block[|t.block| - 1].key, key) && t.right.Node? ==>
              var child := InsertNode(f, less, t.right, key, value);
              InsertNode(f, less, t, key, value) ==
              if child.Failure? || child.value.None? then child
              else var r := NormalizeNode(f, t.block, t.left, child.value.value);
                   if r.Success? then Success(Some(r.value)) else Failure(r.error)
  {
    hide NormalizeNode, MakeBalanced, Elems, Blocks, LowerBound;
  }

  lemma InsertLeft<K(!new), V>(f: Form<K>, less: (K, K) -> bool, t: Root<K, V>, key: K, value: V)
    requires StrictWeakOrder(less) && t.Node? && Good(f, t) && Sorted(less, Elems(t))
    requires less(key, t.block[0].key) && t.left.Node? && Inserted(f, less, t.left, key, value)
    ensures Inserted(f, less, t, key, value)
  {
    hide StrictWeakOrder, Sorted, AllFit, NoFit, Fits, Insert, Update, Erase, Find, Present, LowerBound, Avl, Elems, Good, InsertNode, NormalizeNode;
    GoodChildren(f, t);
    GoodSize(f, t);
    GoodSize(f, t.left);
    NodeSizes(t);
    InsertUnfolds(f, less, t, key, value);
    InsertLength(less, Elems(t.left), key, value);
    RouteLeft(less, Elems(t.left), t.block, Elems(t.right), key, value);
    var child := InsertNode(f, less, t.left, key, value);
    if child.value.Some? {
      GoodSize(f, child.value.value);
      NormalizeReplaced(f, t, child.value.value, t.right);
    }
  }

  lemma InsertRight<K(!new), V>(f: Form<K>, less: (K, K) -> bool, t: Root<K, V>, key: K, value: V)
    requires StrictWeakOrder(less) && t.Node? && Good(f, t) && Sorted(less, Elems(t))
    requires !less(key, t.block[0].key) && less(t.block[|t.block| - 1].key, key)
    requires t.right.Node? && Inserted(f, less, t.right, key, value)
    ensures Inserted(f, less, t, key, value)
  {
    hide StrictWeakOrder, Sorted, AllFit, NoFit, Fits, Insert, Update, Erase, Find, Present, LowerBound, Avl, Elems, Good, InsertNode, NormalizeNode;
    GoodChildren(f, t);
    GoodSize(f, t);
    GoodSize(f, t.right);
    NodeSizes(t);
    InsertUnfolds(f, less, t, key, value);
    InsertLength(less, Elems(t.right), key, value);
    RouteRight(less, Elems(t.left), t.block, Elems(t.right), key, value);
    var child := InsertNode(f, less, t.right, key, value);
    if child.value.Some? {
      GoodSize(f, child.value.value);
      NormalizeReplaced(f, t, t.left, child.value.value);
    }
  }

  /** The entry goes into this node's own block. */
  lemma InsertHere<K(!new), V>(f: Form<K>, less: (K, K) -> bool, t: Root<K, V>, key: K, value: V, index: nat)
    requires f.capacity >= 1 && t.Node? && Good(f, t) && index <= |t.block|
    requires Insert(less, Elems(t), key, value) == Elems(t.left) + WithInserted(t.block, index, Entry(key, value)) + Elems(t.right)
    ensures var r := InsertInNodeBlock(f, t, index, Entry(key, value));
            if |Elems(t)| == MAX_SIZE then r == Failure(SizeLimit)
            else r.Success? && Good(f, r.value) && Elems(r.value) == Insert(less, Elems(t), key, value)
  {
    NodeSizes(t);
    InsertInNodeBlockHolds(f, t, index, Entry(key, value));
  }

  lemma BelowFront<K(!new), V>(less: (K, K) -> bool, b: seq<Entry<K, V>>, r: seq<Entry<K, V>>, key: K, value: V)
    requires StrictWeakOrder(less) && Sorted(less, [] + b + r) && b != [] && less(key, b[0].key)
    ensures !Present(less, [] + b + r, key)
    ensures Insert(less, [] + b + r, key, value) == [] + WithInserted(b, 0, Entry(key, value)) + r
  {
    RouteLeft(less, [], b, r, key, value);
  }

  lemma AboveBack<K(!new), V>(less: (K, K) -> bool, l: seq<Entry<K, V>>, b: seq<Entry<K, V>>, key: K, value: V)
    requires StrictWeakOrder(less) && Sorted(less, l + b + []) && b != [] && less(b[|b| - 1].key, key)
    ensures !Present(less, l + b + [], key)
    ensures Insert(less, l + b + [], key, value) == l + WithInserted(b, |b|, Entry(key, value)) + []
  {
    RouteRight(less, l, b, [], key, value);
    hide StrictWeakOrder, Sorted, Update, Erase, Find;
    var e := Entry(key, value);
    assert Insert(less, [], key, value) == [e];
    assert l + WithInserted(b, |b|, e) + [] == l + b + [e];
  }

  lemma InsertAtFront<K(!new), V>(f: Form<K>, less: (K, K) -> bool, t: Root<K, V>, key: K, value: V)
    requires f.capacity >= 1 && StrictWeakOrder(less) && t.Node? && Good(f, t) && Sorted(less, Elems(t))
    requires less(key, t.block[0].key) && t.left.Leaf?
    ensures Inserted(f, less, t, key, value)
  {
    hide StrictWeakOrder, Sorted, AllFit, NoFit, Fits, Insert, Update, Erase, Find, Present, InsertInNodeBlock;
    BelowFront(less, t.block, Elems(t.right), key, value);
    InsertHere(f, less, t, key, value, 0);
  }

  lemma InsertAtBack<K(!new), V>(f: Form<K>, less: (K, K) -> bool, t: Root<K, V>, key: K, value: V)
    requires f.capacity >= 1 && StrictWeakOrder(less) && t.Node? && Good(f, t) && Sorted(less, Elems(t))
    requires !less(key, t.block[0].key) && less(t.block[|t.block| - 1].key, key) && t.right.Leaf?
    ensures Inserted(f, less, t, key, value)
  {
    hide StrictWeakOrder, Sorted, AllFit, NoFit, Fits, Insert, Update, Erase, Find, Present, InsertInNodeBlock;
    AboveBack(less, Elems(t.left), t.block, key, value);
    InsertHere(f, less, t, key, value, |t.block|);
  }

  /** What the three operations do with a key between first and last key of a node. */
  lemma InsideUnfolds<K, V>(f: Form<K>, less: (K, K) -> bool, t: Root<K, V>, key: K, value: V)
    requires t.Node? && Avl(t) && t.block != [] && !less(key, t.block[0].key) && !less(t.block[|t.block| - 1].key, key)
    ensures var at := LowerBound(less, t.block, key);
            && Insert(less, t.block, key, value) == WithInserted(t.block, at, Entry(key, value))
            && (if Present(less, t.block, key)
                then var r := UpdateInNodeBlock(f, t, at, value);
                     && InsertNode(f, less, t, key, value) == Success(None)
                     && UpdateNode(f, less, t, key, value) == (if r.Success? then Success(Some(r.value)) else Failure(r.error))
                     && SetNode(f, less, t, key, value) == r
                     && Update(less, t.block, key, value) == WithUpdated(t.block, at, value)
                else var r := InsertInNodeBlock(f, t, at, Entry(key, value));
                     && InsertNode(f, less, t, key, value) == (if r.Success? then Success(Some(r.value)) else Failure(r.error))
                     && UpdateNode(f, less, t, key, value) == Success(None)
                     && SetNode(f, less, t, key, value) == r)
  {
    hide Avl, Elems, InsertInNodeBlock, UpdateInNodeBlock, LowerBound;
  }

  lemma InsertInside<K(!new), V>(f: Form<K>, less: (K, K) -> bool, t: Root<K, V>, key: K, value: V)
    requires f.capacity >= 1 && StrictWeakOrder(less) && t.Node? && Good(f, t) && Sorted(less, Elems(t))
    requires !less(key, t.block[0].key) && !less(t.block[|t.block| - 1].key, key)
    ensures Inserted(f, less, t, key, value)
  {
    hide StrictWeakOrder, Sorted, AllFit, NoFit, Fits, Insert, Update, Erase, Find, Present, LowerBound, Avl, Elems, Good, InsertNode, InsertInNodeBlock;
    GoodSize(f, t);
    GoodChildren(f, t);
    NodeSizes(t);
    InsideUnfolds(f, less, t, key, value);
    RouteHere(less, Elems(t.left), t.block, Elems(t.right), key, value);
    InsertHere(f, less, t, key, value, LowerBound(less, t.block, key));
  }

  lemma SortedChildren<K(!new), V>(less: (K, K) -> bool, t: Root<K, V>)
    requires t.Node? && Sorted(less, Elems(t))
    ensures Sorted(less, Elems(t.left)) && Sorted(less, t.block) && Sorted(less, Elems(t.right))
  {
    SortedParts(less, Elems(t.left), t.block, Elems(t.right));
  }

  /** Insert is the reference insertion, and keeps the tree good. */
  lemma {:induction false} InsertNodeHolds<K(!new), V>(f: Form<K>, less: (K, K) -> bool, t: Root<K, V>, key: K, value: V)
    requires StrictWeakOrder(less) && f.capacity >= 1
    requires Good(f, t) && Sorted(less, Elems(t))
    ensures Inserted(f, less, t, key, value)
  {
    if t.Leaf? {
      LeafGood(f, key, value);
    } else {
      GoodChildren(f, t);
      SortedChildren(less, t);
      hide StrictWeakOrder, Sorted, AllFit, NoFit, Inserted;
      if less(key, t.block[0].key) {
        if t.left.Leaf? {
          InsertAtFront(f, less, t, key, value);
        } else {
          InsertNodeHolds(f, less, t.left, key, value);
          InsertLeft(f, less, t, key, value);
        }
      } else if less(t.block[|t.block| - 1].key, key) {
        if t.right.Leaf? {
          InsertAtBack(f, less, t, key, value);
        } else {
          InsertNodeHolds(f, less, t.right, key, value);
          InsertRight(f, less, t, key, value);
        }
      } else {
        InsertInside(f, less, t, key, value);
      }
    }
  }

  // --------------------------------------------------------------------- update

  ghost predicate SameKeys<K, V>(a: seq<Entry<K, V>>, b: seq<Entry<K, V>>) {
    |a| == |b| && forall i :: 0 <= i < |a| ==> a[i].key == b[i].key
  }

  /** Node for node the same tree up to stored values. */
  ghost predicate SameShape<K, V>(t: Root<K, V>, u: Root<K, V>) {
    if t.Leaf? then u.Leaf? else
      && u.Node?
      && u.height == t.height && u.size == t.size
      && SameKeys(t.block, u.block)
      && SameShape(t.left, u.left) && SameShape(t.right, u.right)
  }

  lemma {:induction false} SameShapeBlocks<K, V>(t: Root<K, V>, u: Root<K, V>)
    requires SameShape(t, u) && Avl(t)
    ensures Avl(u) && Height(u) == Height(t) && Size(u) == Size(t)
    ensures |Blocks(u)| == |Blocks(t)|
    ensures forall i :: 0 <= i < |Blocks(t)| ==> SameKeys(Blocks(t)[i], Blocks(u)[i])
  {
    if t.Node? {
      SameShapeBlocks(t.left, u.left);
      SameShapeBlocks(t.right, u.right);
    }
  }

  /** What fits depends on keys only, so the whole invariant survives a change of values. */
  lemma SameShapeGood<K, V>(f: Form<K>, t: Root<K, V>, u: Root<K, V>)
    requires SameShape(t, u) && Good(f, t)
    ensures Good(f, u)
  {
    SameShapeBlocks(t, u);
    var bs, cs := Blocks(t), Blocks(u);
    forall i | 0 <= i < |cs| ensures cs[i] != [] && Fits(f, cs[i]) {
      assert SameKeys(bs[i], cs[i]);
      FitsByKeys(f, bs[i], cs[i]);
    }
    forall i | 0 <= i < |cs| - 1 ensures !CanMerge(f, cs[i], cs[i + 1]) {
      assert SameKeys(bs[i], cs[i]) && SameKeys(bs[i + 1], cs[i + 1]);
      FitsByKeys(f, bs[i] + bs[i + 1], cs[i] + cs[i + 1]);
    }
  }

  lemma {:induction false} SameShapeReflexive<K, V>(t: Root<K, V>)
    ensures SameShape(t, t)
  {
    if t.Node? {
      SameShapeReflexive(t.left);
      SameShapeReflexive(t.right);
    }
  }

  /** Rebuilding a balanced node around same-shaped parts never rotates. */
  lemma RemakeSame<K, V>(t: Root<K, V>, block: seq<Entry<K, V>>, left: Root<K, V>, right: Root<K, V>)
    requires t.Node? && Avl(t)
    requires SameKeys(t.block, block) && SameShape(t.left, left) && SameShape(t.right, right)
    ensures MakeBalanced(block, left, right) == Success(Node(block, left, right, t.size, t.height))
    ensures SameShape(t, Node(block, left, right, t.size, t.height))
  {
    assert |block| == |t.block|;
    hide Blocks, SameKeys;
    SameShapeBlocks(t.left, left);
    SameShapeBlocks(t.right, right);
    MakeNodeLimit(block, left, right);
    BalancedParts(t);
    hide Avl;
    assert MakeNode(block, left, right) == Success(Node(block, left, right, t.size, t.height));
  }

  lemma BalancedParts<K, V>(t: Root<K, V>)
    requires t.Node? && Avl(t)
    ensures t.block != [] && -1 <= Height(t.left) - Height(t.right) <= 1
    ensures t.size == |t.block| + Size(t.left) + Size(t.right) <= MAX_SIZE && t.height == 1 + Max(Height(t.left), Height(t.right))
  {
  }

  ghost predicate Updated<K(!new), V>(f: Form<K>, less: (K, K) -> bool, t: Root<K, V>, key: K, value: V)
    requires Avl(t)
  {
    var es, r := Elems(t), UpdateNode(f, less, t, key, value);
    if Present(less, es, key) then
      r.Success? && r.value.Some? && SameShape(t, r.value.value) && Elems(r.value.value) == Update(less, es, key, value)
    else
      r == Success(None)
  }

  lemma UpdateUnfolds<K, V>(f: Form<K>, less: (K, K) -> bool, t: Root<K, V>, key: K, value: V)
    requires t.Node? && Avl(t) && t.block != []
    ensures less(key, t.block[0].key) ==>
              var child := UpdateNode(f, less, t.left, key, value);
              UpdateNode(f, less, t, key, value) ==
              if child.Failure? || child.value.None? then child
              else var r := MakeBalanced(t.block, child.value.value, t.right);
                   if r.Success? then Success(Some(r.value)) else Failure(r.error)
    ensures !less(key, t.block[0].key) && less(t.block[|t.block| - 1].key, key) ==>
              var child := UpdateNode(f, less, t.right, key, value);
              UpdateNode(f, less, t, key, value) ==
              if child.Failure? || child.value.None? then child
              else var r := MakeBalanced(t.block, t.left, child.value.value);
                   if r.Success? then Success(Some(r.value)) else Failure(r.error)
  {
    hide NormalizeNode, MakeBalanced, Elems, Blocks, LowerBound;
  }

  lemma UpdateLeft<K(!new), V>(f: Form<K>, less: (K, K) -> bool, t: Root<K, V>, key: K, value: V)
    requires StrictWeakOrder(less) && t.Node? && Avl(t) && Sorted(less, Elems(t))
    requires less(key, t.block[0].key) && Updated(f, less, t.left, key, value)
    ensures Updated(f, less, t, key, value)
  {
    hide StrictWeakOrder, Sorted, Insert, Update, Erase, Find, Present, LowerBound, UpdateNode, MakeBalanced;
    UpdateUnfolds(f, less, t, key, value);
    RouteLeft(less, Elems(t.left), t.block, Elems(t.right), key, value);
    var child := UpdateNode(f, less, t.left, key, value);
    if child.value.Some? {
      SameShapeReflexive(t.right);
      RemakeSame(t, t.block, child.value.value, t.right);
    }
  }

  lemma UpdateRight<K(!new), V>(f: Form<K>, less: (K, K) -> bool, t: Root<K, V>, key: K, value: V)
    requires StrictWeakOrder(less) && t.Node? && Avl(t) && Sorted(less, Elems(t))
    requires !less(key, t.block[0].key) && less(t.block[|t.block| - 1].key, key) && Updated(f, less, t.right, key, value)
    ensures Updated(f, less, t, key, value)
  {
    hide StrictWeakOrder, Sorted, Insert, Update, Erase, Find, Present, LowerBound, UpdateNode, MakeBalanced;
    UpdateUnfolds(f, less, t, key, value);
    RouteRight(less, Elems(t.left), t.block, Elems(t.right), key, value);
    var child := UpdateNode(f, less, t.right, key, value);
    if child.value.Some? {
      SameShapeReflexive(t.left);
      RemakeSame(t, t.block, t.left, child.value.value);
    }
  }

  lemma UpdateHere<K(!new), V>(f: Form<K>, less: (K, K) -> bool, t: Root<K, V>, key: K, value: V)
    requires StrictWeakOrder(less) && t.Node? && Avl(t) && Sorted(less, Elems(t))
    requires !less(key, t.block[0].key) && !less(t.block[|t.block| - 1].key, key)
    ensures Updated(f, less, t, key, value)
    ensures Present(less, t.block, key) ==>
              var r := UpdateInNodeBlock(f, t, LowerBound(less, t.block, key), value);
              r.Success? && SameShape(t, r.value) && Elems(r.value) == Update(less, Elems(t), key, value)
  {
    hide StrictWeakOrder, Sorted, Insert, Update, Erase, Find, Present, LowerBound, Avl, UpdateNode;
    NodeSizes(t);
    BalancedParts(t);
    InsideUnfolds(f, less, t, key, value);
    RouteHere(less, Elems(t.left), t.block, Elems(t.right), key, value);
    if Present(less, t.block, key) {
      SameShapeReflexive(t.left);
      SameShapeReflexive(t.right);
      RemakeSame(t, WithUpdated(t.block, LowerBound(less, t.block, key), value), t.left, t.right);
    }
  }

  /** Update is the reference update and never changes the shape of the tree. */
  lemma {:induction false} UpdateNodeHolds<K(!new), V>(f: Form<K>, less: (K, K) -> bool, t: Root<K, V>, key: K, value: V)
    requires StrictWeakOrder(less) && Avl(t) && Sorted(less, Elems(t))
    ensures Updated(f, less, t, key, value)
  {
    if t.Node? {
      SortedChildren(less, t);
      hide StrictWeakOrder, Sorted, Updated;
      if less(key, t.block[0].key) {
        UpdateNodeHolds(f, less, t.left, key, value);
        UpdateLeft(f, less, t, key, value);
      } else if less(t.block[|t.block| - 1].key, key) {
        UpdateNodeHolds(f, less, t.right, key, value);
        UpdateRight(f, less, t, key, value);
      } else {
        UpdateHere(f, less, t, key, value);
      }
    }
  }

  // ---------------------------------------------------------------------- erase

  ghost predicate Erased<K(!new), V>(f: Form<K>, less: (K, K) -> bool, t: Root<K, V>, key: K)
    requires Avl(t)
  {
    var es, r := Elems(t), EraseNode(f, less, t, key);
    if Present(less, es, key) then
      r.Success? && r.value.Some? && Good(f, r.value.value) && Elems(r.value.value) == Erase(less, es, key)
    else
      r == Success(None)
  }

  lemma EraseUnfolds<K, V>(f: Form<K>, less: (K, K) -> bool, t: Root<K, V>, key: K)
    requires t.Node? && Avl(t) && t.block != []
    ensures less(key, t.block[0].key) ==>
              var child := EraseNode(f, less, t.left, key);
              EraseNode(f, less, t, key) ==
              if child.Failure? || child.value.None? then child
              else var r := NormalizeNode(f, t.block, child.value.value, t.right);
                   if r.Success? then Success(Some(r.value)) else Failure(r.error)
    ensures !less(key, t.block[0].key) && less(t.block[|t.block| - 1].key, key) ==>
              var child := EraseNode(f, less, t.right, key);
              EraseNode(f, less, t, key) ==
              if child.Failure? || child.value.None? then child
              else var r := NormalizeNode(f, t.block, t.left, child.value.value);
                   if r.Success? then Success(Some(r.value)) else Failure(r.error)
  {
    hide NormalizeNode, MakeBalanced, Elems, Blocks, LowerBound;
  }

  lemma EraseLeft<K(!new), V>(f: Form<K>, less: (K, K) -> bool, t: Root<K, V>, key: K, value: V)
    requires StrictWeakOrder(less) && t.Node? && Good(f, t) && Sorted(less, Elems(t))
    requires less(key, t.block[0].key) && Erased(f, less, t.left, key)
    ensures Erased(f, less, t, key)
  {
    hide StrictWeakOrder, Sorted, AllFit, NoFit, Fits, Insert, Update, Erase, Find, Present, LowerBound, Avl, Elems, Good, EraseNode, NormalizeNode;
    GoodChildren(f, t);
    GoodSize(f, t);
    GoodSize(f, t.left);
    NodeSizes(t);
    EraseUnfolds(f, less, t, key);
    RouteLeft(less, Elems(t.left), t.block, Elems(t.right), key, value);
    var child := EraseNode(f, less, t.left, key);
    if child.value.Some? {
      EraseLength(less, Elems(t.left), key);
      GoodSize(f, child.value.value);
      NormalizeReplaced(f, t, child.value.value, t.right);
    }
  }

  lemma EraseRight<K(!new), V>(f: Form<K>, less: (K, K) -> bool, t: Root<K, V>, key: K, value: V)
    requires StrictWeakOrder(less) && t.Node? && Good(f, t) && Sorted(less, Elems(t))
    requires !less(key, t.block[0].key) && less(t.block[|t.block| - 1].key, key) && Erased(f, less, t.right, key)
    ensures Erased(f, less, t, key)
  {
    hide StrictWeakOrder, Sorted, AllFit, NoFit, Fits, Insert, Update, Erase, Find, Present, LowerBound, Avl, Elems, Good, EraseNode, NormalizeNode;
    GoodChildren(f, t);
    GoodSize(f, t);
    GoodSize(f, t.right);
    NodeSizes(t);
    EraseUnfolds(f, less, t, key);
    RouteRight(less, Elems(t.left), t.block, Elems(t.right), key, value);
    var child := EraseNode(f, less, t.right, key);
    if child.value.Some? {
      EraseLength(less, Elems(t.right), key);
      GoodSize(f, child.value.value);
      NormalizeReplaced(f, t, t.left, child.value.value);
    }
  }

  lemma EraseInside<K(!new), V>(f: Form<K>, t: Root<K, V>, index: nat)
    requires t.Node? && Good(f, t) && index < |t.block| && |t.block| > 1
    ensures var r := NormalizeNode(f, WithErased(t.block, index), t.left, t.right);
            r.Success? && Good(f, r.value) && Elems(r.value) == Elems(t.left) + WithErased(t.block, index) + Elems(t.right)
  {
    GoodChildren(f, t);
    NodeSizes(t);
    var b := t.block;
    assert b == b[..index] + [b[index]] + b[index + 1..];
    FitsPart(f, b[..index], [b[index]], b[index + 1..]);
    NormalizeNodeHolds(f, WithErased(b, index), t.left, t.right);
  }

  /** Erasing a node's last entry puts the successor's block in its place. */
  lemma EraseSuccessor<K(!new), V>(f: Form<K>, t: Root<K, V>)
    requires t.Node? && Good(f, t) && t.right.Node?
    ensures var erased := EraseMinNode(f, t.right);
            erased.Success? &&
            var r := NormalizeNode(f, FindMin(t.right).block, t.left, erased.value);
            r.Success? && Good(f, r.value) && Elems(r.value) == Elems(t.left) + Elems(t.right)
  {
    GoodChildren(f, t);
    NodeSizes(t);
    EraseMinNodeHolds(f, t.right);
    var erased := EraseMinNode(f, t.right);
    LostFirstEntries(f, erased, t.right);
    FindMinIsFirst(t.right);
    var next := FindMin(t.right).block;
    assert next != [] && Fits(f, next);
    NormalizeNodeHolds(f, next, t.left, erased.value);
    SortedMap.Associate(Elems(t.left), next, [], Elems(erased.value));
  }

  /** Erasing the last entry of this node's block removes the node. */
  lemma EraseLone<K(!new), V>(f: Form<K>, less: (K, K) -> bool, t: Root<K, V>, key: K)
    requires t.Node? && Good(f, t) && |t.block| == 1
    requires LowerBound(less, t.block, key) == 0 && Equivalent(less, t.block[0].key, key)
    ensures var r := EraseNode(f, less, t, key);
            r.Success? && r.value.Some? && Good(f, r.value.value) && Elems(r.value.value) == Elems(t.left) + Elems(t.right)
  {
    GoodChildren(f, t);
    hide AllFit, NoFit;
    if t.left.Node? && t.right.Node? {
      EraseSuccessor(f, t);
    }
  }

  lemma EraseFromOne<K(!new), V>(f: Form<K>, less: (K, K) -> bool, t: Root<K, V>, key: K, value: V)
    requires StrictWeakOrder(less) && t.Node? && Good(f, t) && Sorted(less, Elems(t))
    requires !less(key, t.block[0].key) && !less(t.block[|t.block| - 1].key, key)
    requires Present(less, t.block, key) && |t.block| == 1
    ensures Erased(f, less, t, key)
  {
    hide StrictWeakOrder, Sorted, AllFit, NoFit, Insert, Update, Find, NormalizeNode, EraseMinNode, EraseNode, Avl, Fits;
    RouteHere(less, Elems(t.left), t.block, Elems(t.right), key, value);
    assert Avl(t);
    EraseLone(f, less, t, key);
    assert Erase(less, t.block, key) == [];
    assert Elems(t.left) + [] + Elems(t.right) == Elems(t.left) + Elems(t.right);
  }

  lemma EraseStaysInside<K, V>(f: Form<K>, less: (K, K) -> bool, t: Root<K, V>, key: K)
    requires Avl(t) && t.Node? && t.block != [] && !less(key, t.block[0].key) && !less(t.block[|t.block| - 1].key, key)
    requires Present(less, t.block, key) && |t.block| > 1
    requires NormalizeNode(f, WithErased(t.block, LowerBound(less, t.block, key)), t.left, t.right).Success?
    ensures EraseNode(f, less, t, key)
         == Success(Some(NormalizeNode(f, WithErased(t.block, LowerBound(less, t.block, key)), t.left, t.right).value))
    ensures Erase(less, t.block, key) == WithErased(t.block, LowerBound(less, t.block, key))
  {
    hide NormalizeNode, EraseMinNode, FindMin, LowerBound, Avl;
  }

  lemma EraseFromMany<K(!new), V>(f: Form<K>, less: (K, K) -> bool, t: Root<K, V>, key: K, value: V)
    requires StrictWeakOrder(less) && t.Node? && Good(f, t) && Sorted(less, Elems(t))
    requires !less(key, t.block[0].key) && !less(t.block[|t.block| - 1].key, key)
    requires Present(less, t.block, key) && |t.block| > 1
    ensures Erased(f, less, t, key)
  {
    hide StrictWeakOrder, Sorted, AllFit, NoFit, Fits, Insert, Update, Find, Erase, WithErased, Avl, NormalizeNode, EraseNode;
    assert Avl(t);
    RouteHere(less, Elems(t.left), t.block, Elems(t.right), key, value);
    EraseInside(f, t, LowerBound(less, t.block, key));
    EraseStaysInside(f, less, t, key);
  }

  lemma EraseHere<K(!new), V>(f: Form<K>, less: (K, K) -> bool, t: Root<K, V>, key: K, value: V)
    requires StrictWeakOrder(less) && t.Node? && Good(f, t) && Sorted(less, Elems(t))
    requires !less(key, t.block[0].key) && !less(t.block[|t.block| - 1].key, key)
    ensures Erased(f, less, t, key)
  {
    hide StrictWeakOrder, Sorted, AllFit, NoFit;
    if !Present(less, t.block, key) {
      RouteHere(less, Elems(t.left), t.block, Elems(t.right), key, value);
    } else if |t.block| > 1 {
      EraseFromMany(f, less, t, key, value);
    } else {
      EraseFromOne(f, less, t, key, value);
    }
  }

  /** Erase is the reference erasure; normalising may merge any number of neighbours on the way. */
  lemma {:induction false} EraseNodeHolds<K(!new), V>(f: Form<K>, less: (K, K) -> bool, t: Root<K, V>, key: K, value: V)
    requires StrictWeakOrder(less) && Good(f, t) && Sorted(less, Elems(t))
    ensures Erased(f, less, t, key)
  {
    if t.Node? {
      GoodChildren(f, t);
      SortedChildren(less, t);
      hide StrictWeakOrder, Sorted, AllFit, NoFit, Erased;
      if less(key, t.block[0].key) {
        EraseNodeHolds(f, less, t.left, key, value);
        EraseLeft(f, less, t, key, value);
      } else if less(t.block[|t.block| - 1].key, key) {
        EraseNodeHolds(f, less, t.right, key, value);
        EraseRight(f, less, t, key, value);
      } else {
        EraseHere(f, less, t, key, value);
      }
    }
  }

  // ------------------------------------------------------------------------ set

  ghost predicate WasSet<K(!new), V>(f: Form<K>, less: (K, K) -> bool, t: Root<K, V>, key: K, value: V)
    requires Avl(t)
  {
    var es, r := Elems(t), SetNode(f, less, t, key, value);
    if !Present(less, es, key) && |es| == MAX_SIZE then
      r == Failure(SizeLimit)
    else
      r.Success? && Good(f, r.value) && Elems(r.value) == SortedMap.Set(less, es, key, value)
  }

  lemma SetUnfolds<K, V>(f: Form<K>, less: (K, K) -> bool, t: Root<K, V>, key: K, value: V)
    requires t.Node? && Avl(t) && t.block != []
    ensures less(key, t.block[0].key) && t.left.Node? ==>
              var child := SetNode(f, less, t.left, key, value);
              SetNode(f, less, t, key, value) == if child.Failure? then child else NormalizeNode(f, t.block, child.value, t.right)
    ensures !less(key, t.block[0].key) && less(t.block[|t.block| - 1].key, key) && t.right.Node? ==>
              var child := SetNode(f, less, t.right, key, value);
              SetNode(f, less, t, key, value) == if child.Failure? then child else NormalizeNode(f, t.block, t.left, child.value)
  {
    hide NormalizeNode, Elems, Blocks, LowerBound;
  }

  /** Where the reference set happens. */
  lemma RouteSet<K(!new), V>(less: (K, K) -> bool, l: seq<Entry<K, V>>, b: seq<Entry<K, V>>, r: seq<Entry<K, V>>, key: K, value: V)
    requires StrictWeakOrder(less) && Sorted(less, l + b + r) && b != []
    ensures less(key, b[0].key) ==>
              && Present(less, l + b + r, key) == Present(less, l, key)
              && SortedMap.Set(less, l + b + r, key, value) == SortedMap.Set(less, l, key, value) + b + r
    ensures less(b[|b| - 1].key, key) ==>
              && Present(less, l + b + r, key) == Present(less, r, key)
              && SortedMap.Set(less, l + b + r, key, value) == l + b + SortedMap.Set(less, r, key, value)
  {
    hide StrictWeakOrder, Sorted, Insert, Update, Erase, Find, Present;
    if less(key, b[0].key) { RouteLeft(less, l, b, r, key, value); }
    if less(b[|b| - 1].key, key) { RouteRight(less, l, b, r, key, value); }
  }

  lemma SetLeft<K(!new), V>(f: Form<K>, less: (K, K) -> bool, t: Root<K, V>, key: K, value: V)
    requires StrictWeakOrder(less) && t.Node? && Good(f, t) && Sorted(less, Elems(t))
    requires less(key, t.block[0].key) && t.left.Node? && WasSet(f, less, t.left, key, value)
    ensures WasSet(f, less, t, key, value)
  {
    hide StrictWeakOrder, Sorted, AllFit, NoFit, Fits, Insert, Update, Erase, Find, Present, LowerBound, Avl, Elems, Good, SetNode, NormalizeNode, SortedMap.Set;
    GoodChildren(f, t);
    GoodSize(f, t);
    GoodSize(f, t.left);
    NodeSizes(t);
    SetUnfolds(f, less, t, key, value);
    InsertLength(less, Elems(t.left), key, value);
    RouteSet(less, Elems(t.left), t.block, Elems(t.right), key, value);
    var child := SetNode(f, less, t.left, key, value);
    if child.Success? {
      GoodSize(f, child.value);
      NormalizeReplaced(f, t, child.value, t.right);
    }
  }

  lemma SetRight<K(!new), V>(f: Form<K>, less: (K, K) -> bool, t: Root<K, V>, key: K, value: V)
    requires StrictWeakOrder(less) && t.Node? && Good(f, t) && Sorted(less, Elems(t))
    requires !less(key, t.block[0].key) && less(t.block[|t.block| - 1].key, key)
    requires t.right.Node? && WasSet(f, less, t.right, key, value)
    ensures WasSet(f, less, t, key, value)
  {
    hide StrictWeakOrder, Sorted, AllFit, NoFit, Fits, Insert, Update, Erase, Find, Present, LowerBound, Avl, Elems, Good, SetNode, NormalizeNode, SortedMap.Set;
    GoodChildren(f, t);
    GoodSize(f, t);
    GoodSize(f, t.right);
    NodeSizes(t);
    SetUnfolds(f, less, t, key, value);
    InsertLength(less, Elems(t.right), key, value);
    RouteSet(less, Elems(t.left), t.block, Elems(t.right), key, value);
    var child := SetNode(f, less, t.right, key, value);
    if child.Success? {
      GoodSize(f, child.value);
      NormalizeReplaced(f, t, t.left, child.value);
    }
  }

  lemma SetAtFront<K(!new), V>(f: Form<K>, less: (K, K) -> bool, t: Root<K, V>, key: K, value: V)
    requires f.capacity >= 1 && StrictWeakOrder(less) && t.Node? && Good(f, t) && Sorted(less, Elems(t))
    requires less(key, t.block[0].key) && t.left.Leaf?
    ensures WasSet(f, less, t, key, value)
  {
    hide StrictWeakOrder, Sorted, AllFit, NoFit, Fits, Insert, Update, Erase, Find, Present, InsertInNodeBlock;
    BelowFront(less, t.block, Elems(t.right), key, value);
    InsertHere(f, less, t, key, value, 0);
  }

  lemma SetAtBack<K(!new), V>(f: Form<K>, less: (K, K) -> bool, t: Root<K, V>, key: K, value: V)
    requires f.capacity >= 1 && StrictWeakOrder(less) && t.Node? && Good(f, t) && Sorted(less, Elems(t))
    requires !less(key, t.block[0].key) && less(t.block[|t.block| - 1].key, key) && t.right.Leaf?
    ensures WasSet(f, less, t, key, value)
  {
    hide StrictWeakOrder, Sorted, AllFit, NoFit, Fits, Insert, Update, Erase, Find, Present, InsertInNodeBlock;
    AboveBack(less, Elems(t.left), t.block, key, value);
    InsertHere(f, less, t, key, value, |t.block|);
  }

  lemma SetHere<K(!new), V>(f: Form<K>, less: (K, K) -> bool, t: Root<K, V>, key: K, value: V)
    requires f.capacity >= 1 && StrictWeakOrder(less) && t.Node? && Good(f, t) && Sorted(less, Elems(t))
    requires !less(key, t.block[0].key) && !less(t.block[|t.block| - 1].key, key)
    ensures WasSet(f, less, t, key, value)
  {
    hide StrictWeakOrder, Sorted, AllFit, NoFit, Fits, Insert, Update, Erase, Find, Present, LowerBound, Avl, Elems, Good, SetNode, InsertInNodeBlock, UpdateInNodeBlock;
    GoodSize(f, t);
    GoodChildren(f, t);
    NodeSizes(t);
    InsideUnfolds(f, less, t, key, value);
    RouteHere(less, Elems(t.left), t.block, Elems(t.right), key, value);
    if Present(less, t.block, key) {
      UpdateHere(f, less, t, key, value);
      SameShapeGood(f, t, UpdateInNodeBlock(f, t, LowerBound(less, t.block, key), value).value);
    } else {
      InsertHere(f, less, t, key, value, LowerBound(less, t.block, key));
    }
  }

  /** Set overwrites when present and inserts when absent. */
  lemma {:induction false} SetNodeHolds<K(!new), V>(f: Form<K>, less: (K, K) -> bool, t: Root<K, V>, key: K, value: V)
    requires StrictWeakOrder(less) && f.capacity >= 1
    requires Good(f, t) && Sorted(less, Elems(t))
    ensures WasSet(f, less, t, key, value)
  {
    if t.Leaf? {
      LeafGood(f, key, value);
    } else {
      GoodChildren(f, t);
      SortedChildren(less, t);
      hide StrictWeakOrder, Sorted, AllFit, NoFit, WasSet;
      if less(key, t.block[0].key) {
        if t.left.Leaf? {
          SetAtFront(f, less, t, key, value);
        } else {
          SetNodeHolds(f, less, t.left, key, value);
          SetLeft(f, less, t, key, value);
        }
      } else if less(t.block[|t.block| - 1].key, key) {
        if t.right.Leaf? {
          SetAtBack(f, less, t, key, value);
        } else {
          SetNodeHolds(f, less, t.right, key, value);
          SetRight(f, less, t, key, value);
        }
      } else {
        SetHere(f, less, t, key, value);
      }
    }
  }

  // ------------------------------------------------------------- the loop forms

  function FindNode<K, V>(less: (K, K) -> bool, node: Root<K, V>, key: K): Option<V>
    requires Avl(node)
  {
    if node.Leaf? then
      None
    else if less(key, node.block[0].key) then
      FindNode(less, node.left, key)
    else if less(node.block[|node.block| - 1].key, key) then
      FindNode(less, node.right, key)
    else
      SortedMap.Find(less, node.block, key)
  }

  /** Routing by first and last key finds what the sorted list holds. */
  lemma {:induction false} FindNodeHolds<K(!new), V>(less: (K, K) -> bool, t: Root<K, V>, key: K)
    requires StrictWeakOrder(less) && Avl(t) && Sorted(less, Elems(t))
    ensures FindNode(less, t, key) == SortedMap.Find(less, Elems(t), key)
  {
    if t.Node? {
      SortedChildren(less, t);
      var l, b, r := Elems(t.left), t.block, Elems(t.right);
      if less(key, b[0].key) {
        FindNodeHolds(less, t.left, key);
        RouteLeft(less, l, b, r, key, b[0].value);
      } else if less(b[|b| - 1].key, key) {
        FindNodeHolds(less, t.right, key);
        RouteRight(less, l, b, r, key, b[0].value);
      } else {
        RouteHere(less, l, b, r, key, b[0].value);
      }
    }
  }

  /** The loop of Find, with binary search inside the block it ends in. */
  method FindInTree<K(!new), V>(less: (K, K) -> bool, root: Root<K, V>, key: K) returns (r: Option<V>)
    requires StrictWeakOrder(less) && Avl(root) && Sorted(less, Elems(root))
    ensures r == FindNode(less, root, key)
  {
    var node := root;
    while node.Node?
      invariant Avl(node) && Sorted(less, Elems(node))
      invariant FindNode(less, node, key) == FindNode(less, root, key)
      decreases node
    {
      SortedChildren(less, node);
      if less(key, node.block[0].key) {
        node := node.left;
      } else if less(node.block[|node.block| - 1].key, key) {
        node := node.right;
      } else {
        r := FindValue(less, node.block, key);
        return;
      }
    }
    r := None;
  }

  method FindMinLoop<E>(node: Tree<E>) returns (current: Tree<E>)
    requires node.Node?
    ensures current == FindMin(node)
  {
    current := node;
    while current.left.Node?
      invariant current.Node? && FindMin(current) == FindMin(node)
      decreases current
    {
      current := current.left;
    }
  }

  method FindMaxLoop<E>(node: Tree<E>) returns (current: Tree<E>)
    requires node.Node?
    ensures current == FindMax(node)
  {
    current := node;
    while current.right.Node?
      invariant current.Node? && FindMax(current) == FindMax(node)
      decreases current
    {
      current := current.right;
    }
  }

  /** The two absorption loops of NormalizeNode, against the recursive reading used in the proofs. */
  method NormalizeNodeLoop<K, V>(f: Form<K>, block0: seq<Entry<K, V>>, left0: Root<K, V>, right0: Root<K, V>) returns (r: RootResult<K, V>)
    ensures r == NormalizeNode(f, block0, left0, right0)
  {
    var block, left, right := block0, left0, right0;
    while left.Node?
      invariant NormalizeNode(f, block, left, right) == NormalizeNode(f, block0, left0, right0)
      decreases NodeCount(left)
    {
      var predecessor := FindMaxLoop(left);
      if !CanMerge(f, predecessor.block, block) {
        break;
      }
      var rest := EraseMaxNode(f, left);
      if rest.Failure? {
        return rest;
      }
      block := predecessor.block + block;
      left := rest.value;
    }
    while right.Node?
      invariant AbsorbSuccessors(f, block, left, right) == NormalizeNode(f, block0, left0, right0)
      decreases NodeCount(right)
    {
      var successor := FindMinLoop(right);
      if !CanMerge(f, block, successor.block) {
        break;
      }
      var rest := EraseMinNode(f, right);
      if rest.Failure? {
        return rest;
      }
      block := block + successor.block;
      right := rest.value;
    }
    r := JoinNode(block, left, right);
  }

  method BuildSplitNodesLoop<K, V>(f: Form<K>, blocks: seq<seq<Entry<K, V>>>, left: Root<K, V>, right: Root<K, V>) returns (r: RootResult<K, V>)
    requires blocks != []
    ensures r == BuildSplitNodes(f, blocks, left, right)
  {
    var result := right;
    var remaining := |blocks|;
    assert blocks[..remaining] == blocks;
    while remaining > 0
      invariant remaining <= |blocks|
      invariant remaining > 0 ==> BuildSplitNodes(f, blocks[..remaining], left, result) == BuildSplitNodes(f, blocks, left, right)
      invariant remaining == 0 ==> Success(result) == BuildSplitNodes(f, blocks, left, right)
    {
      assert blocks[..remaining][..remaining - 1] == blocks[..remaining - 1];
      var next := NormalizeNodeLoop(f, blocks[remaining - 1], if remaining == 1 then left else Leaf, result);
      if next.Failure? {
        return next;
      }
      result := next.value;
      remaining := remaining - 1;
    }
    r := Success(result);
  }
}
