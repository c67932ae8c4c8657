/** ImmutableTree: the same balanced nodes with exactly one entry each, updated by
    plain recursion and rebalanced by at most one (double) rotation per level. */
module SingleTree {
  import opened Prelude
  import opened AvlTree
  import opened SortedMap
  import BlockTree

  type Root<K, V> = Tree<Entry<K, V>>
  type RootResult<K, V> = Result<Root<K, V>, LengthError>

  /** A tree as every operation leaves it: balanced, cached fields exact, one entry per node. */
  ghost predicate Lean<K, V>(t: Root<K, V>) {
    t.Node? ==> Lean(t.left) && Lean(t.right) && |t.block| == 1 && Avl(t)
  }

  function InsertNode<K, V>(less: (K, K) -> bool, node: Root<K, V>, key: K, value: V): Result<Option<Root<K, V>>, LengthError>
    requires Lean(node)
  {
    if node.Leaf? then
      var single :- MakeNode([Entry(key, value)], Leaf, Leaf);
      Success(Some(single))
    else if less(key, node.block[0].key) then
      var left :- InsertNode(less, node.left, key, value);
      if left.None? then Success(None) else
        var r :- MakeBalanced(node.block, left.value, node.right);
        Success(Some(r))
    else if less(node.block[0].key, key) then
      var right :- InsertNode(less, node.right, key, value);
      if right.None? then Success(None) else
        var r :- MakeBalanced(node.block, node.left, right.value);
        Success(Some(r))
    else
      Success(None)
  }

  function UpdateNode<K, V>(less: (K, K) -> bool, node: Root<K, V>, key: K, value: V): Result<Option<Root<K, V>>, LengthError>
    requires Lean(node)
  {
    if node.Leaf? then
      Success(None)
    else if less(key, node.block[0].key) then
      var left :- UpdateNode(less, node.left, key, value);
      if left.None? then Success(None) else
        var r :- MakeBalanced(node.block, left.value, node.right);
        Success(Some(r))
    else if less(node.block[0].key, key) then
      var right :- UpdateNode(less, node.right, key, value);
      if right.None? then Success(None) else
        var r :- MakeBalanced(node.block, node.left, right.value);
        Success(Some(r))
    else
      var r :- MakeBalanced([Entry(node.block[0].key, value)], node.left, node.right);
      Success(Some(r))
  }

  function SetNode<K, V>(less: (K, K) -> bool, node: Root<K, V>, key: K, value: V): RootResult<K, V>
    requires Lean(node)
  {
    if node.Leaf? then
      MakeNode([Entry(key, value)], Leaf, Leaf)
    else if less(key, node.block[0].key) then
      var left :- SetNode(less, node.left, key, value);
      MakeBalanced(node.block, left, node.right)
    else if less(node.block[0].key, key) then
      var right :- SetNode(less, node.right, key, value);
      MakeBalanced(node.block, node.left, right)
    else
      MakeBalanced([Entry(node.block[0].key, value)], node.left, node.right)
  }

  function EraseMin<K, V>(node: Root<K, V>): RootResult<K, V>
    requires node.Node?
  {
    if node.left.Leaf? then
      Success(node.right)
    else
      var left :- EraseMin(node.left);
      MakeBalanced(node.block, left, node.right)
  }

  function EraseNode<K, V>(less: (K, K) -> bool, node: Root<K, V>, key: K): Result<Option<Root<K, V>>, LengthError>
    requires Lean(node)
  {
    if node.Leaf? then
      Success(None)
    else if less(key, node.block[0].key) then
      var left :- EraseNode(less, node.left, key);
      if left.None? then Success(None) else
        var r :- MakeBalanced(node.block, left.value, node.right);
        Success(Some(r))
    else if less(node.block[0].key, key) then
      var right :- EraseNode(less, node.right, key);
      if right.None? then Success(None) else
        var r :- MakeBalanced(node.block, node.left, right.value);
        Success(Some(r))
    else if node.left.Leaf? then
      Success(Some(node.right))
    else if node.right.Leaf? then
      Success(Some(node.left))
    else
      var right :- EraseMin(node.right);
      var r :- MakeBalanced(BlockTree.FindMin(node.right).block, node.left, right);
      Success(Some(r))
  }

  // ------------------------------------------------------------- rebuilding a node

  ghost predicate OneEach<E>(bs: seq<seq<E>>) {
    forall i :: 0 <= i < |bs| ==> |bs[i]| == 1
  }

  lemma {:induction false} LeanBlocks<K, V>(t: Root<K, V>)
    requires Avl(t)
    ensures Lean(t) <==> OneEach(Blocks(t))
  {
    if t.Node? {
      LeanBlocks(t.left);
      LeanBlocks(t.right);
      var l, r, bs := Blocks(t.left), Blocks(t.right), Blocks(t);
      assert bs[|l|] == t.block;
      assert forall i :: 0 <= i < |l| ==> bs[i] == l[i];
      assert forall i :: 0 <= i < |r| ==> bs[|l| + 1 + i] == r[i];
    }
  }

  /** What rebuilding a node around one entry and two lean children returns. */
  ghost predicate Rebuilt<K, V>(r: RootResult<K, V>, left: Root<K, V>, e: Entry<K, V>, right: Root<K, V>, low: int, high: int) {
    if 1 + |Elems(left)| + |Elems(right)| > MAX_SIZE then
      r == Failure(SizeLimit)
    else
      && r.Success? && Lean(r.value) && Avl(r.value)
      && Elems(r.value) == Elems(left) + [e] + Elems(right)
      && low <= Height(r.value) <= high
  }

  lemma RebuiltHolds<K, V>(left: Root<K, V>, e: Entry<K, V>, right: Root<K, V>)
    requires Lean(left) && Lean(right) && -2 <= Height(left) - Height(right) <= 2
    ensures var taller := Max(Height(left), Height(right));
            Rebuilt(MakeBalanced([e], left, right), left, e, right,
                    if -2 < Height(left) - Height(right) < 2 then taller + 1 else taller, taller + 1)
  {
    MakeBalancedHolds([e], left, right);
    SizeIsEntryCount(left);
    SizeIsEntryCount(right);
    var r := MakeBalanced([e], left, right);
    if r.Success? {
      RebuiltBlocks(r.value, left, e, right);
    }
  }

  lemma RebuiltBlocks<K, V>(t: Root<K, V>, left: Root<K, V>, e: Entry<K, V>, right: Root<K, V>)
    requires Holds(t, [e], left, right) && Lean(left) && Lean(right)
    ensures Lean(t) && Elems(t) == Elems(left) + [e] + Elems(right)
  {
    assert Blocks(t) == Blocks(left) + [[e]] + Blocks(right);
    hide Holds, Lean, Blocks, Elems, Flatten;
    ElemsAreBlocks(t);
    ElemsAreBlocks(left);
    ElemsAreBlocks(right);
    FlattenSplice(Blocks(left), [e], Blocks(right));
    LeanBlocks(left);
    LeanBlocks(right);
    LeanBlocks(t);
  }

  /** The entry of a lean node, and its neighbours, in order. */
  lemma LeanParts<K(!new), V>(less: (K, K) -> bool, t: Root<K, V>)
    requires t.Node? && Lean(t) && Sorted(less, Elems(t))
    ensures t.block == [t.block[0]] && Sorted(less, Elems(t.left)) && Sorted(less, Elems(t.right))
    ensures |Elems(t)| == 1 + |Elems(t.left)| + |Elems(t.right)| <= MAX_SIZE
  {
    SortedParts(less, Elems(t.left), t.block, Elems(t.right));
    SizeIsEntryCount(t);
  }

  // ------------------------------------------------------------------------ insert

  ghost predicate Inserted<K(!new), V>(less: (K, K) -> bool, t: Root<K, V>, key: K, value: V)
    requires Lean(t)
  {
    var es, r := Elems(t), InsertNode(less, t, key, value);
    if Present(less, es, key) then
      r == Success(None)
    else if |es| == MAX_SIZE then
      r == Failure(SizeLimit)
    else
      && r.Success? && r.value.Some?
      && Lean(r.value.value) && Elems(r.value.value) == Insert(less, es, key, value)
      && Height(t) <= Height(r.value.value) <= Height(t) + 1
  }

  lemma InsertLeft<K(!new), V>(less: (K, K) -> bool, t: Root<K, V>, key: K, value: V)
    requires StrictWeakOrder(less) && t.Node? && Lean(t) && Sorted(less, Elems(t))
    requires less(key, t.block[0].key) && Inserted(less, t.left, key, value)
    ensures Inserted(less, t, key, value)
  {
    hide StrictWeakOrder, Sorted, Update, Erase, Find, MakeBalanced, LowerBound;
    LeanParts(less, t);
    RouteLeft(less, Elems(t.left), t.block, Elems(t.right), key, value);
    var left := InsertNode(less, t.left, key, value);
    if left.value.Some? {
      RebuiltHolds(left.value.value, t.block[0], t.right);
    }
  }

  lemma InsertRight<K(!new), V>(less: (K, K) -> bool, t: Root<K, V>, key: K, value: V)
    requires StrictWeakOrder(less) && t.Node? && Lean(t) && Sorted(less, Elems(t))
    requires !less(key, t.block[0].key) && less(t.block[0].key, key) && Inserted(less, t.right, key, value)
    ensures Inserted(less, t, key, value)
  {
    hide StrictWeakOrder, Sorted, Update, Erase, Find, MakeBalanced, LowerBound;
    LeanParts(less, t);
    RouteRight(less, Elems(t.left), t.block, Elems(t.right), key, value);
    var right := InsertNode(less, t.right, key, value);
    if right.value.Some? {
      RebuiltHolds(t.left, t.block[0], right.value.value);
    }
  }

  /** Insert is the reference insertion: refused exactly when present, thrown exactly when full,
      and the height grows by at most one. */
  lemma {:induction false} InsertNodeHolds<K(!new), V>(less: (K, K) -> bool, t: Root<K, V>, key: K, value: V)
    requires StrictWeakOrder(less) && Lean(t) && Sorted(less, Elems(t))
    ensures Inserted(less, t, key, value)
  {
    if t.Leaf? {
      assert Elems(InsertNode(less, t, key, value).value.value) == [Entry(key, value)];
    } else {
      LeanParts(less, t);
      if less(key, t.block[0].key) {
        InsertNodeHolds(less, t.left, key, value);
        InsertLeft(less, t, key, value);
      } else if less(t.block[0].key, key) {
        InsertNodeHolds(less, t.right, key, value);
        InsertRight(less, t, key, value);
      } else {
        RouteHere(less, Elems(t.left), t.block, Elems(t.right), key, value);
      }
    }
  }

  // ------------------------------------------------------------------------ update

  ghost predicate Updated<K(!new), V>(less: (K, K) -> bool, t: Root<K, V>, key: K, value: V)
    requires Lean(t)
  {
    var es, r := Elems(t), UpdateNode(less, t, key, value);
    if Present(less, es, key) then
      && r.Success? && r.value.Some?
      && Lean(r.value.value) && Elems(r.value.value) == Update(less, es, key, value)
      && Height(r.value.value) == Height(t)
    else
      r == Success(None)
  }

  lemma UpdateLeft<K(!new), V>(less: (K, K) -> bool, t: Root<K, V>, key: K, value: V)
    requires StrictWeakOrder(less) && t.Node? && Lean(t) && Sorted(less, Elems(t))
    requires less(key, t.block[0].key) && Updated(less, t.left, key, value)
    ensures Updated(less, t, key, value)
  {
    hide StrictWeakOrder, Sorted, Insert, Erase, Find, MakeBalanced, LowerBound;
    LeanParts(less, t);
    RouteLeft(less, Elems(t.left), t.block, Elems(t.right), key, value);
    var left := UpdateNode(less, t.left, key, value);
    if left.value.Some? {
      RebuiltHolds(left.value.value, t.block[0], t.right);
    }
  }

  lemma UpdateRight<K(!new), V>(less: (K, K) -> bool, t: Root<K, V>, key: K, value: V)
    requires StrictWeakOrder(less) && t.Node? && Lean(t) && Sorted(less, Elems(t))
    requires !less(key, t.block[0].key) && less(t.block[0].key, key) && Updated(less, t.right, key, value)
    ensures Updated(less, t, key, value)
  {
    hide StrictWeakOrder, Sorted, Insert, Erase, Find, MakeBalanced, LowerBound;
    LeanParts(less, t);
    RouteRight(less, Elems(t.left), t.block, Elems(t.right), key, value);
    var right := UpdateNode(less, t.right, key, value);
    if right.value.Some? {
      RebuiltHolds(t.left, t.block[0], right.value.value);
    }
  }

  /** The node's own entry is overwritten under its stored key. */
  lemma UpdateHere<K(!new), V>(less: (K, K) -> bool, t: Root<K, V>, key: K, value: V)
    requires StrictWeakOrder(less) && t.Node? && Lean(t) && Sorted(less, Elems(t))
    requires !less(key, t.block[0].key) && !less(t.block[0].key, key)
    ensures Present(less, Elems(t), key)
    ensures var r := MakeBalanced([Entry(t.block[0].key, value)], t.left, t.right);
            r.Success? && Lean(r.value) && Elems(r.value) == Update(less, Elems(t), key, value) && Height(r.value) == Height(t)
  {
    LeanParts(less, t);
    hide StrictWeakOrder, Sorted;
    RouteHere(less, Elems(t.left), t.block, Elems(t.right), key, value);
    RebuiltHolds(t.left, Entry(t.block[0].key, value), t.right);
    assert Update(less, t.block, key, value) == [Entry(t.block[0].key, value)];
  }

  /** Update is the reference update and keeps the height. */
  lemma {:induction false} UpdateNodeHolds<K(!new), V>(less: (K, K) -> bool, t: Root<K, V>, key: K, value: V)
    requires StrictWeakOrder(less) && Lean(t) && Sorted(less, Elems(t))
    ensures Updated(less, t, key, value)
  {
    if t.Node? {
      LeanParts(less, t);
      if less(key, t.block[0].key) {
        UpdateNodeHolds(less, t.left, key, value);
        UpdateLeft(less, t, key, value);
      } else if less(t.block[0].key, key) {
        UpdateNodeHolds(less, t.right, key, value);
        UpdateRight(less, t, key, value);
      } else {
        UpdateHere(less, t, key, value);
      }
    }
  }

  // --------------------------------------------------------------------------- set

  ghost predicate WasSet<K(!new), V>(less: (K, K) -> bool, t: Root<K, V>, key: K, value: V)
    requires Lean(t)
  {
    var es, r := Elems(t), SetNode(less, t, key, value);
    if !Present(less, es, key) && |es| == MAX_SIZE then
      r == Failure(SizeLimit)
    else
      && r.Success? && Lean(r.value) && Elems(r.value) == Set(less, es, key, value)
      && Height(t) <= Height(r.value) <= Height(t) + 1
  }

  lemma SetLeft<K(!new), V>(less: (K, K) -> bool, t: Root<K, V>, key: K, value: V)
    requires StrictWeakOrder(less) && t.Node? && Lean(t) && Sorted(less, Elems(t))
    requires less(key, t.block[0].key) && WasSet(less, t.left, key, value)
    ensures WasSet(less, t, key, value)
  {
    hide StrictWeakOrder, Sorted, Erase, Find, MakeBalanced, LowerBound;
    LeanParts(less, t);
    RouteLeft(less, Elems(t.left), t.block, Elems(t.right), key, value);
    RebuiltHolds(SetNode(less, t.left, key, value).value, t.block[0], t.right);
  }

  lemma SetRight<K(!new), V>(less: (K, K) -> bool, t: Root<K, V>, key: K, value: V)
    requires StrictWeakOrder(less) && t.Node? && Lean(t) && Sorted(less, Elems(t))
    requires !less(key, t.block[0].key) && less(t.block[0].key, key) && WasSet(less, t.right, key, value)
    ensures WasSet(less, t, key, value)
  {
    hide StrictWeakOrder, Sorted, Erase, Find, MakeBalanced, LowerBound;
    LeanParts(less, t);
    RouteRight(less, Elems(t.left), t.block, Elems(t.right), key, value);
    RebuiltHolds(t.left, t.block[0], SetNode(less, t.right, key, value).value);
  }

  /** Set overwrites when present and inserts when absent. */
  lemma {:induction false} SetNodeHolds<K(!new), V>(less: (K, K) -> bool, t: Root<K, V>, key: K, value: V)
    requires StrictWeakOrder(less) && Lean(t) && Sorted(less, Elems(t))
    ensures WasSet(less, t, key, value)
  {
    if t.Leaf? {
      assert Elems(SetNode(less, t, key, value).value) == [Entry(key, value)];
    } else {
      LeanParts(less, t);
      if less(key, t.block[0].key) {
        SetNodeHolds(less, t.left, key, value);
        SetLeft(less, t, key, value);
      } else if less(t.block[0].key, key) {
        SetNodeHolds(less, t.right, key, value);
        SetRight(less, t, key, value);
      } else {
        UpdateHere(less, t, key, value);
      }
    }
  }

  // ------------------------------------------------------------------------- erase

  ghost predicate Erased<K(!new), V>(less: (K, K) -> bool, t: Root<K, V>, key: K)
    requires Lean(t)
  {
    var es, r := Elems(t), EraseNode(less, t, key);
    if Present(less, es, key) then
      && r.Success? && r.value.Some?
      && Lean(r.value.value) && Elems(r.value.value) == Erase(less, es, key)
      && Height(t) - 1 <= Height(r.value.value) <= Height(t)
    else
      r == Success(None)
  }

  /** The minimum comes off the front, and the height drops by at most one. */
  lemma {:induction false} EraseMinHolds<K, V>(t: Root<K, V>)
    requires t.Node? && Lean(t)
    ensures var r := EraseMin(t);
            r.Success? && Lean(r.value) && Elems(t) == BlockTree.FindMin(t).block + Elems(r.value)
            && Height(t) - 1 <= Height(r.value) <= Height(t)
    ensures |BlockTree.FindMin(t).block| == 1
  {
    SizeIsEntryCount(t);
    if t.left.Node? {
      EraseMinHolds(t.left);
      var left := EraseMin(t.left).value;
      assert t.block == [t.block[0]];
      RebuiltHolds(left, t.block[0], t.right);
      Associate(BlockTree.FindMin(t.left).block, Elems(left), t.block, Elems(t.right));
    } else {
      assert Elems(t) == t.block + Elems(t.right);
    }
  }

  lemma EraseLeft<K(!new), V>(less: (K, K) -> bool, t: Root<K, V>, key: K, value: V)
    requires StrictWeakOrder(less) && t.Node? && Lean(t) && Sorted(less, Elems(t))
    requires less(key, t.block[0].key) && Erased(less, t.left, key)
    ensures Erased(less, t, key)
  {
    hide StrictWeakOrder, Sorted, Insert, Update, Find, MakeBalanced, LowerBound;
    LeanParts(less, t);
    RouteLeft(less, Elems(t.left), t.block, Elems(t.right), key, value);
    var left := EraseNode(less, t.left, key);
    if left.value.Some? {
      RebuiltHolds(left.value.value, t.block[0], t.right);
    }
  }

  lemma EraseRight<K(!new), V>(less: (K, K) -> bool, t: Root<K, V>, key: K, value: V)
    requires StrictWeakOrder(less) && t.Node? && Lean(t) && Sorted(less, Elems(t))
    requires !less(key, t.block[0].key) && less(t.block[0].key, key) && Erased(less, t.right, key)
    ensures Erased(less, t, key)
  {
    hide StrictWeakOrder, Sorted, Insert, Update, Find, MakeBalanced, LowerBound;
    LeanParts(less, t);
    RouteRight(less, Elems(t.left), t.block, Elems(t.right), key, value);
    var right := EraseNode(less, t.right, key);
    if right.value.Some? {
      RebuiltHolds(t.left, t.block[0], right.value.value);
    }
  }

  lemma RemoveLone<K(!new), V>(less: (K, K) -> bool, l: seq<Entry<K, V>>, b: seq<Entry<K, V>>, r: seq<Entry<K, V>>, key: K, value: V)
    requires StrictWeakOrder(less) && Sorted(less, l + b + r) && |b| == 1
    requires !less(key, b[0].key) && !less(b[0].key, key)
    ensures Present(less, l + b + r, key) && Erase(less, l + b + r, key) == l + r
  {
    hide StrictWeakOrder, Sorted;
    RouteHere(less, l, b, r, key, value);
    assert Erase(less, b, key) == [];
  }

  lemma SuccessorTakesOver<K, V>(t: Root<K, V>)
    requires t.Node? && Lean(t) && t.right.Node?
    ensures var erased := EraseMin(t.right);
            erased.Success? &&
            var r := MakeBalanced(BlockTree.FindMin(t.right).block, t.left, erased.value);
            && r.Success? && Lean(r.value) && Elems(r.value) == Elems(t.left) + Elems(t.right)
            && Height(t) - 1 <= Height(r.value) <= Height(t)
  {
    SizeIsEntryCount(t);
    EraseMinHolds(t.right);
    var next := BlockTree.FindMin(t.right).block;
    var right := EraseMin(t.right).value;
    assert next == [next[0]];
    RebuiltHolds(t.left, next[0], right);
    Associate(Elems(t.left), next, [], Elems(right));
  }

  /** The erased node is replaced by its successor, or by its only child. */
  lemma EraseHere<K(!new), V>(less: (K, K) -> bool, t: Root<K, V>, key: K, value: V)
    requires StrictWeakOrder(less) && t.Node? && Lean(t) && Sorted(less, Elems(t))
    requires !less(key, t.block[0].key) && !less(t.block[0].key, key)
    ensures Erased(less, t, key)
  {
    LeanParts(less, t);
    RemoveLone(less, Elems(t.left), t.block, Elems(t.right), key, value);
    hide StrictWeakOrder, Sorted, Present, Erase, LowerBound;
    if t.left.Node? && t.right.Node? {
      SuccessorTakesOver(t);
    }
  }

  /** Erase is the reference erasure, and the height drops by at most one. */
  lemma {:induction false} EraseNodeHolds<K(!new), V>(less: (K, K) -> bool, t: Root<K, V>, key: K, value: V)
    requires StrictWeakOrder(less) && Lean(t) && Sorted(less, Elems(t))
    ensures Erased(less, t, key)
  {
    if t.Node? {
      LeanParts(less, t);
      if less(key, t.block[0].key) {
        EraseNodeHolds(less, t.left, key, value);
        EraseLeft(less, t, key, value);
      } else if less(t.block[0].key, key) {
        EraseNodeHolds(less, t.right, key, value);
        EraseRight(less, t, key, value);
      } else {
        EraseHere(less, t, key, value);
      }
    }
  }

  // -------------------------------------------------------------------------- find

  function FindNode<K, V>(less: (K, K) -> bool, node: Root<K, V>, key: K): Option<V>
    requires Lean(node)
  {
    if node.Leaf? then None
    else if less(key, node.block[0].key) then FindNode(less, node.left, key)
    else if less(node.block[0].key, key) then FindNode(less, node.right, key)
    else Some(node.block[0].value)
  }

  lemma {:induction false} FindNodeHolds<K(!new), V>(less: (K, K) -> bool, t: Root<K, V>, key: K)
    requires StrictWeakOrder(less) && Lean(t) && Sorted(less, Elems(t))
    ensures FindNode(less, t, key) == Find(less, Elems(t), key)
  {
    if t.Node? {
      LeanParts(less, t);
      var l, b, r := Elems(t.left), t.block, Elems(t.right);
      if less(key, b[0].key) {
        FindNodeHolds(less, t.left, key);
        RouteLeft(less, l, b, r, key, b[0].value);
      } else if less(b[0].key, key) {
        FindNodeHolds(less, t.right, key);
        RouteRight(less, l, b, r, key, b[0].value);
      } else {
        RouteHere(less, l, b, r, key, b[0].value);
      }
    }
  }

  method FindInTree<K, V>(less: (K, K) -> bool, root: Root<K, V>, key: K) returns (r: Option<V>)
    requires Lean(root)
    ensures r == FindNode(less, root, key)
  {
    var node := root;
    while node.Node?
      invariant Lean(node) && FindNode(less, node, key) == FindNode(less, root, key)
      decreases node
    {
      if less(key, node.block[0].key) {
        node := node.left;
      } else if less(node.block[0].key, key) {
        node := node.right;
      } else {
        return Some(node.block[0].value);
      }
    }
    r := None;
  }
}
