/** Whole histories: a bulk build followed by any sequence of operations, run on the block tree,
    on the one-entry tree and on the reference list. */
module Histories {
  import opened Prelude
  import opened AvlTree
  import opened SortedMap
  import opened ZipList
  import BlockTree
  import SingleTree

  type Root<K, V> = Tree<Entry<K, V>>

  datatype Op<+K, +V> =
    | FindOp(key: K)
    | InsertOp(key: K, value: V)
    | UpdateOp(key: K, value: V)
    | EraseOp(key: K)
    | SetOp(key: K, value: V)

  /** What the caller sees; TooLarge is the length error thrown for more than MAX_SIZE entries. */
  datatype Reply<+V> = Found(value: Option<V>) | Done | Refused | TooLarge(error: LengthError)

  // -------------------------------------------------------------------- one step

  function ReferenceStep<K, V>(less: (K, K) -> bool, es: seq<Entry<K, V>>, op: Op<K, V>): (seq<Entry<K, V>>, Reply<V>) {
    var full := |es| == MAX_SIZE;
    match op
    case FindOp(k) => (es, Found(Find(less, es, k)))
    case InsertOp(k, v) =>
      if Present(less, es, k) then (es, Refused)
      else if full then (es, TooLarge(SizeLimit))
      else (Insert(less, es, k, v), Done)
    case UpdateOp(k, v) =>
      if Present(less, es, k) then (Update(less, es, k, v), Done) else (es, Refused)
    case EraseOp(k) =>
      if Present(less, es, k) then (Erase(less, es, k), Done) else (es, Refused)
    case SetOp(k, v) =>
      if !Present(less, es, k) && full then (es, TooLarge(SizeLimit)) else (Set(less, es, k, v), Done)
  }

  /** A refused or throwing operation leaves the caller with the version it had. */
  function Outcome<K, V>(before: Root<K, V>, r: Result<Option<Root<K, V>>, LengthError>): (Root<K, V>, Reply<V>) {
    match r
    case Failure(error) => (before, TooLarge(error))
    case Success(None) => (before, Refused)
    case Success(Some(after)) => (after, Done)
  }

  function SetOutcome<K, V>(before: Root<K, V>, r: Result<Root<K, V>, LengthError>): (Root<K, V>, Reply<V>) {
    match r
    case Failure(error) => (before, TooLarge(error))
    case Success(after) => (after, Done)
  }

  function BlockStep<K, V>(f: Form<K>, less: (K, K) -> bool, t: Root<K, V>, op: Op<K, V>): (Root<K, V>, Reply<V>)
    requires Avl(t)
  {
    match op
    case FindOp(k) => (t, Found(BlockTree.FindNode(less, t, k)))
    case InsertOp(k, v) => Outcome(t, BlockTree.InsertNode(f, less, t, k, v))
    case UpdateOp(k, v) => Outcome(t, BlockTree.UpdateNode(f, less, t, k, v))
    case EraseOp(k) => Outcome(t, BlockTree.EraseNode(f, less, t, k))
    case SetOp(k, v) => SetOutcome(t, BlockTree.SetNode(f, less, t, k, v))
  }

  function SingleStep<K, V>(less: (K, K) -> bool, t: Root<K, V>, op: Op<K, V>): (Root<K, V>, Reply<V>)
    requires SingleTree.Lean(t)
  {
    match op
    case FindOp(k) => (t, Found(SingleTree.FindNode(less, t, k)))
    case InsertOp(k, v) => Outcome(t, SingleTree.InsertNode(less, t, k, v))
    case UpdateOp(k, v) => Outcome(t, SingleTree.UpdateNode(less, t, k, v))
    case EraseOp(k) => Outcome(t, SingleTree.EraseNode(less, t, k))
    case SetOp(k, v) => SetOutcome(t, SingleTree.SetNode(less, t, k, v))
  }

  lemma ReferenceStepSorted<K(!new), V(!new)>(less: (K, K) -> bool, es: seq<Entry<K, V>>, op: Op<K, V>)
    requires StrictWeakOrder(less) && Sorted(less, es)
    ensures Sorted(less, ReferenceStep(less, es, op).0)
  {
    if !op.FindOp? {
      if Present(less, es, op.key) {
        EraseSorted(less, es, op.key);
        if !op.EraseOp? { UpdateIsMapUpdate(less, es, op.key, op.value); }
      } else if !op.EraseOp? {
        InsertSorted(less, es, op.key, op.value);
      }
    }
  }

  /** One operation on a good block tree: same reply and entries as the reference, still good. */
  lemma BlockStepRefines<K(!new), V(!new)>(f: Form<K>, less: (K, K) -> bool, t: Root<K, V>, op: Op<K, V>)
    requires StrictWeakOrder(less) && f.capacity >= 1
    requires BlockTree.Good(f, t) && Sorted(less, Elems(t))
    ensures var (u, reply) := BlockStep(f, less, t, op);
            BlockTree.Good(f, u) && (Elems(u), reply) == ReferenceStep(less, Elems(t), op)
  {
    hide StrictWeakOrder, Sorted, AllFit, NoFit, Present, Insert, Update, Erase;
    match op
    case FindOp(k) => BlockTree.FindNodeHolds(less, t, k);
    case InsertOp(k, v) => BlockTree.InsertNodeHolds(f, less, t, k, v);
    case UpdateOp(k, v) =>
      BlockTree.UpdateNodeHolds(f, less, t, k, v);
      if Present(less, Elems(t), k) {
        BlockTree.SameShapeGood(f, t, BlockTree.UpdateNode(f, less, t, k, v).value.value);
      }
    case EraseOp(k) => if t.Node? { BlockTree.EraseNodeHolds(f, less, t, k, t.block[0].value); } else { EmptyHasNothing(less, k, Elems(t)); }
    case SetOp(k, v) => BlockTree.SetNodeHolds(f, less, t, k, v);
  }

  lemma EmptyHasNothing<K, V>(less: (K, K) -> bool, key: K, es: seq<Entry<K, V>>)
    ensures es == [] ==> !Present(less, es, key)
  {
  }

  lemma SingleStepRefines<K(!new), V(!new)>(less: (K, K) -> bool, t: Root<K, V>, op: Op<K, V>)
    requires StrictWeakOrder(less) && SingleTree.Lean(t) && Sorted(less, Elems(t))
    ensures var (u, reply) := SingleStep(less, t, op);
            SingleTree.Lean(u) && (Elems(u), reply) == ReferenceStep(less, Elems(t), op)
  {
    hide StrictWeakOrder, Sorted, Present, Insert, Update, Erase;
    match op
    case FindOp(k) => SingleTree.FindNodeHolds(less, t, k);
    case InsertOp(k, v) => SingleTree.InsertNodeHolds(less, t, k, v);
    case UpdateOp(k, v) => SingleTree.UpdateNodeHolds(less, t, k, v);
    case EraseOp(k) => if t.Node? { SingleTree.EraseNodeHolds(less, t, k, t.block[0].value); } else { EmptyHasNothing(less, k, Elems(t)); }
    case SetOp(k, v) => SingleTree.SetNodeHolds(less, t, k, v);
  }

  // ------------------------------------------------------------------- histories

  function ReferenceRun<K, V>(less: (K, K) -> bool, es: seq<Entry<K, V>>, ops: seq<Op<K, V>>): (seq<Entry<K, V>>, seq<Reply<V>>)
    decreases |ops|
  {
    if ops == [] then (es, []) else
      var (next, reply) := ReferenceStep(less, es, ops[0]);
      var (last, replies) := ReferenceRun(less, next, ops[1..]);
      (last, [reply] + replies)
  }

  ghost function BlockRun<K(!new), V(!new)>(f: Form<K>, less: (K, K) -> bool, t: Root<K, V>, ops: seq<Op<K, V>>): (Root<K, V>, seq<Reply<V>>)
    requires StrictWeakOrder(less) && f.capacity >= 1
    requires BlockTree.Good(f, t) && Sorted(less, Elems(t))
    decreases |ops|
  {
    if ops == [] then (t, []) else
      BlockStepRefines(f, less, t, ops[0]);
      ReferenceStepSorted(less, Elems(t), ops[0]);
      var (next, reply) := BlockStep(f, less, t, ops[0]);
      var (last, replies) := BlockRun(f, less, next, ops[1..]);
      (last, [reply] + replies)
  }

  ghost function SingleRun<K(!new), V(!new)>(less: (K, K) -> bool, t: Root<K, V>, ops: seq<Op<K, V>>): (Root<K, V>, seq<Reply<V>>)
    requires StrictWeakOrder(less) && SingleTree.Lean(t) && Sorted(less, Elems(t))
    decreases |ops|
  {
    if ops == [] then (t, []) else
      SingleStepRefines(less, t, ops[0]);
      ReferenceStepSorted(less, Elems(t), ops[0]);
      var (next, reply) := SingleStep(less, t, ops[0]);
      var (last, replies) := SingleRun(less, next, ops[1..]);
      (last, [reply] + replies)
  }

  /** Every history keeps the block tree good and answers like the reference. */
  lemma {:induction false} BlockRunRefines<K(!new), V(!new)>(f: Form<K>, less: (K, K) -> bool, t: Root<K, V>, ops: seq<Op<K, V>>)
    requires StrictWeakOrder(less) && f.capacity >= 1
    requires BlockTree.Good(f, t) && Sorted(less, Elems(t))
    ensures var (u, replies) := BlockRun(f, less, t, ops);
            BlockTree.Good(f, u) && (Elems(u), replies) == ReferenceRun(less, Elems(t), ops)
    decreases |ops|
  {
    if ops != [] {
      BlockStepRefines(f, less, t, ops[0]);
      ReferenceStepSorted(less, Elems(t), ops[0]);
      hide StrictWeakOrder, Sorted, AllFit, NoFit, BlockStep, ReferenceStep;
      BlockRunRefines(f, less, BlockStep(f, less, t, ops[0]).0, ops[1..]);
    }
  }

  /** Every history keeps the one-entry tree balanced and answers like the reference. */
  lemma {:induction false} SingleRunRefines<K(!new), V(!new)>(less: (K, K) -> bool, t: Root<K, V>, ops: seq<Op<K, V>>)
    requires StrictWeakOrder(less) && SingleTree.Lean(t) && Sorted(less, Elems(t))
    ensures var (u, replies) := SingleRun(less, t, ops);
            SingleTree.Lean(u) && (Elems(u), replies) == ReferenceRun(less, Elems(t), ops)
    decreases |ops|
  {
    if ops != [] {
      SingleStepRefines(less, t, ops[0]);
      ReferenceStepSorted(less, Elems(t), ops[0]);
      hide StrictWeakOrder, Sorted, SingleStep, ReferenceStep;
      SingleRunRefines(less, SingleStep(less, t, ops[0]).0, ops[1..]);
    }
  }

  // -------------------------------------------------------------------- bulk build

  datatype BuildError = NotSorted | Length(error: LengthError)

  function BlockBuild<K, V>(f: Form<K>, entries: seq<Entry<K, V>>): TreeResult<Entry<K, V>> {
    var blocks := GreedyPack(f, entries);
    BuildBalanced(blocks, 0, |blocks|)
  }

  function Singletons<E>(es: seq<E>): (r: seq<seq<E>>)
    ensures |r| == |es| && forall i :: 0 <= i < |es| ==> r[i] == [es[i]]
  {
    seq(|es|, i requires 0 <= i < |es| => [es[i]])
  }

  function SingleBuild<K, V>(entries: seq<Entry<K, V>>): TreeResult<Entry<K, V>> {
    BuildBalanced(Singletons(entries), 0, |entries|)
  }

  /** Bulk build of a block tree: throws exactly on too many entries, otherwise good and complete. */
  lemma BlockBuildHolds<K, V>(f: Form<K>, entries: seq<Entry<K, V>>)
    requires f.capacity >= 1
    ensures var r := BlockBuild(f, entries);
            if |entries| > MAX_SIZE then r == Failure(SizeLimit)
            else r.Success? && BlockTree.Good(f, r.value) && Elems(r.value) == entries
  {
    GreedyPackPartitions(f, entries);
    var blocks := GreedyPack(f, entries);
    BuildBalancedHolds(blocks, 0, |blocks|);
    assert blocks[0..|blocks|] == blocks;
    var r := BlockBuild(f, entries);
    if r.Success? { ElemsAreBlocks(r.value); }
  }

  lemma {:induction false} FlattenSingletons<E>(es: seq<E>)
    ensures Flatten(Singletons(es)) == es
  {
    if es != [] {
      assert Singletons(es)[1..] == Singletons(es[1..]);
      FlattenSingletons(es[1..]);
    }
  }

  lemma SingleBuildHolds<K, V>(entries: seq<Entry<K, V>>)
    ensures var r := SingleBuild(entries);
            if |entries| > MAX_SIZE then r == Failure(SizeLimit)
            else r.Success? && SingleTree.Lean(r.value) && Elems(r.value) == entries
  {
    var blocks := Singletons(entries);
    FlattenSingletons(entries);
    BuildBalancedHolds(blocks, 0, |blocks|);
    assert blocks[0..|blocks|] == blocks;
    var r := SingleBuild(entries);
    if r.Success? {
      ElemsAreBlocks(r.value);
      SingleTree.LeanBlocks(r.value);
    }
  }

  /** FromSortedUniqueEntries of the block tree: validate, pack, build. */
  method FromSortedUniqueEntries<K(!new), V>(f: Form<K>, less: (K, K) -> bool, entries: seq<Entry<K, V>>)
    returns (r: Result<Root<K, V>, BuildError>)
    requires StrictWeakOrder(less) && f.capacity >= 1
    ensures !Sorted(less, entries) ==> r == Failure(NotSorted)
    ensures Sorted(less, entries) && |entries| > MAX_SIZE ==> r == Failure(Length(SizeLimit))
    ensures Sorted(less, entries) && |entries| <= MAX_SIZE ==>
              r.Success? && BlockTree.Good(f, r.value) && Elems(r.value) == entries && BlockBuild(f, entries) == Success(r.value)
  {
    var valid := ValidateSortedUniqueEntries(less, entries);
    if !valid {
      return Failure(NotSorted);
    }
    var blocks;
    if f.CountForm? {
      blocks := PackSortedEntriesIntoBlocks(f, entries);
    } else {
      var packed := PackEntriesIntoBlocks(f, entries);
      blocks := packed.value;
    }
    BlockBuildHolds(f, entries);
    match BuildBalanced(blocks, 0, |blocks|)
    case Success(root) => r := Success(root);
    case Failure(error) => r := Failure(Length(error));
  }

  // ------------------------------------------------------------------ main theorems

  /** The two containers and the sorted list are indistinguishable: over every bulk build and every
      sequence of operations they give the same replies and hold the same entries at the end,
      for every key order and every block form. */
  lemma TreesAgree<K(!new), V(!new)>(f: Form<K>, less: (K, K) -> bool, entries: seq<Entry<K, V>>, ops: seq<Op<K, V>>)
    requires StrictWeakOrder(less) && f.capacity >= 1
    requires Sorted(less, entries) && |entries| <= MAX_SIZE
    ensures BlockBuild(f, entries).Success? && BlockTree.Good(f, BlockBuild(f, entries).value)
    ensures SingleBuild(entries).Success? && SingleTree.Lean(SingleBuild(entries).value)
    ensures Elems(BlockBuild(f, entries).value) == entries == Elems(SingleBuild(entries).value)
    ensures var (b, blockReplies) := BlockRun(f, less, BlockBuild(f, entries).value, ops);
            var (s, singleReplies) := SingleRun(less, SingleBuild(entries).value, ops);
            && blockReplies == singleReplies == ReferenceRun(less, entries, ops).1
            && Elems(b) == Elems(s) == ReferenceRun(less, entries, ops).0
  {
    BlockBuildHolds(f, entries);
    SingleBuildHolds(entries);
    BlockRunRefines(f, less, BlockBuild(f, entries).value, ops);
    SingleRunRefines(less, SingleBuild(entries).value, ops);
  }

  /** Neighbours that do not merge hold more than one capacity between them. */
  lemma {:induction false} PairsOverflow<K, V>(f: Form<K>, bs: seq<seq<Entry<K, V>>>)
    requires f.CountForm? && NoFit(f, bs)
    ensures |Flatten(bs)| >= (|bs| / 2) * (f.capacity + 1)
  {
    if |bs| >= 2 {
      var rest := bs[2..];
      assert forall i :: 0 <= i < |rest| ==> rest[i] == bs[i + 2];
      PairsOverflow(f, rest);
      assert bs[1..][1..] == rest;
      assert Flatten(bs) == bs[0] + (bs[1] + Flatten(rest));
      assert !CanMerge(f, bs[0], bs[0 + 1]);
      assert |bs| / 2 == |rest| / 2 + 1;
      assert (|rest| / 2 + 1) * (f.capacity + 1) == (|rest| / 2) * (f.capacity + 1) + (f.capacity + 1);
    }
  }

  /** Fill guarantee of the generic block tree: whatever the history, N nodes hold at least
      floor(N / 2) * (capacity + 1) entries. */
  lemma FillBound<K(!new), V(!new)>(f: Form<K>, less: (K, K) -> bool, entries: seq<Entry<K, V>>, ops: seq<Op<K, V>>)
    requires StrictWeakOrder(less) && f.CountForm? && f.capacity >= 1
    requires Sorted(less, entries) && |entries| <= MAX_SIZE
    ensures BlockBuild(f, entries).Success? && BlockTree.Good(f, BlockBuild(f, entries).value)
    ensures Elems(BlockBuild(f, entries).value) == entries
    ensures var t := BlockRun(f, less, BlockBuild(f, entries).value, ops).0;
            Size(t) >= (NodeCount(t) / 2) * (f.capacity + 1)
  {
    BlockBuildHolds(f, entries);
    BlockRunRefines(f, less, BlockBuild(f, entries).value, ops);
    var t := BlockRun(f, less, BlockBuild(f, entries).value, ops).0;
    ElemsAreBlocks(t);
    SizeIsEntryCount(t);
    PairsOverflow(f, Blocks(t));
  }
}
