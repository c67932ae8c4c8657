/** The per-producer queue of SimpleConcurrentQueue as a step machine: one producer that appends to a
    chain of blocks, any number of consumers that claim slots by compare-exchange on the head index.

    One step is one allocation, atomic load, store or weak compare-exchange, or one access to an
    element; memory is sequentially consistent.  Blocks are numbered in allocation order, and the
    slots of all blocks stand side by side in storage. */
module ProducerQueue {
  import opened Prelude

  const SC_BLOCK_SIZE := 32
  const SEG_SIZE := 1024
  const MAX_SEGS := 64

  // ------------------------------------------------------------ the block index

  /** Two levels: segments appear on demand, each holds block pointers. */
  type Segment = seq<Option<nat>>
  type Index = seq<Option<Segment>>

  predicate Shaped(index: Index) {
    |index| == MAX_SEGS && forall i :: 0 <= i < MAX_SEGS && index[i].Some? ==> |index[i].value| == SEG_SIZE
  }

  function EmptySegment(): Segment {
    seq(SEG_SIZE, i => None)
  }

  function Load(index: Index, block: nat): Option<nat>
    requires Shaped(index)
  {
    if block / SEG_SIZE >= MAX_SEGS || index[block / SEG_SIZE].None? then None
    else index[block / SEG_SIZE].value[block % SEG_SIZE]
  }

  /** The segment a store needs, allocated if missing. */
  function WithSegment(index: Index, block: nat): Index
    requires Shaped(index) && block / SEG_SIZE < MAX_SEGS
  {
    if index[block / SEG_SIZE].Some? then index else index[block / SEG_SIZE := Some(EmptySegment())]
  }

  function WithBlock(index: Index, block: nat, pointer: nat): Index
    requires Shaped(index) && block / SEG_SIZE < MAX_SEGS && index[block / SEG_SIZE].Some?
  {
    index[block / SEG_SIZE := Some(index[block / SEG_SIZE].value[block % SEG_SIZE := Some(pointer)])]
  }

  lemma SegmentInvisible(index: Index, block: nat, b: nat)
    requires Shaped(index) && block / SEG_SIZE < MAX_SEGS
    ensures Shaped(WithSegment(index, block)) && WithSegment(index, block)[block / SEG_SIZE].Some?
    ensures Load(WithSegment(index, block), b) == Load(index, b)
  {
  }

  /** What was stored is what is loaded, and nothing else changes. */
  lemma LoadStored(index: Index, block: nat, pointer: nat, b: nat)
    requires Shaped(index) && block / SEG_SIZE < MAX_SEGS && index[block / SEG_SIZE].Some?
    ensures Shaped(WithBlock(index, block, pointer))
    ensures Load(WithBlock(index, block, pointer), b) == if b == block then Some(pointer) else Load(index, b)
  {
    assert b == b / SEG_SIZE * SEG_SIZE + b % SEG_SIZE && block == block / SEG_SIZE * SEG_SIZE + block % SEG_SIZE;
  }

  // ------------------------------------------------------------------- the state

  datatype Slot = Raw | Live(value: int) | Gone

  datatype Producer =
    | Resting
    | Refused
    | LoadTail(value: int)
    | Grow(value: int)
    | StoreSegment(value: int)
    | StoreBlock(value: int)
    | Construct(value: int)
    | Commit
    | Publish

  datatype Consumer =
    | Idle
    | LoadHead
    | CheckTail(slot: nat)
    | Claim(slot: nat)
    | LoadSegment(slot: nat)
    | LoadBlock(slot: nat)
    | Await(slot: nat, block: nat)
    | MoveOut(slot: nat, block: nat)
    | Destroy(slot: nat, block: nat, value: int)

  /** One element leaving the queue. */
  datatype Moved = Moved(slot: nat, value: int)

  /** values (everything ever constructed), owners (who claimed each slot) and moved (every element
      ever moved out, in order) are history variables: no step reads them. */
  datatype State = State(
    tail: nat, head: nat, tailBlock: nat, bases: seq<nat>, nexts: seq<Option<nat>>, index: Index,
    storage: seq<Slot>, committed: seq<bool>, producer: Producer, consumers: seq<Consumer>,
    values: seq<int>, owners: seq<nat>, moved: seq<Moved>)

  datatype Action = Emplace(value: int) | Produce | Dequeue(thread: nat) | Consume(thread: nat, spurious: bool)

  predicate WellFormed(s: State) {
    && Shaped(s.index) && |s.bases| == |s.nexts| > s.tailBlock
    && |s.storage| == |s.committed| == SC_BLOCK_SIZE * |s.bases|
    && (s.producer.StoreSegment? || s.producer.StoreBlock? ==> s.tail / SC_BLOCK_SIZE / SEG_SIZE < MAX_SEGS)
    && (s.producer.StoreBlock? ==> s.index[s.tail / SC_BLOCK_SIZE / SEG_SIZE].Some?)
    && forall t :: 0 <= t < |s.consumers| ==> BlockInRange(s.consumers[t], |s.bases|)
  }

  predicate BlockInRange(pc: Consumer, n: nat) {
    pc.Await? || pc.MoveOut? || pc.Destroy? ==> pc.block < n
  }

  predicate Enabled(s: State, a: Action) {
    match a
    case Emplace(_) => s.producer.Resting? || s.producer.Refused?
    case Produce => !s.producer.Resting? && !s.producer.Refused?
    case Dequeue(t) => t < |s.consumers| && s.consumers[t].Idle?
    case Consume(t, _) => t < |s.consumers| && !s.consumers[t].Idle?
  }

  // -------------------------------------------------------------------- the steps

  /** The address of a slot of a block. */
  function At(block: nat, slot: nat): nat {
    SC_BLOCK_SIZE * block + slot % SC_BLOCK_SIZE
  }

  function ProducerStep(s: State): State
    requires WellFormed(s) && Enabled(s, Produce)
  {
    var blockIdx := s.tail / SC_BLOCK_SIZE;
    match s.producer
    case LoadTail(v) => s.(producer := if s.tail % SC_BLOCK_SIZE == 0 && s.tail != 0 then Grow(v) else Construct(v))
    case Grow(v) =>
      if blockIdx >= MAX_SEGS * SEG_SIZE then s.(producer := Refused)
      else s.(bases := s.bases + [s.tail], nexts := s.nexts[s.tailBlock := Some(|s.bases|)] + [None],
              storage := s.storage + seq(SC_BLOCK_SIZE, i => Raw), committed := s.committed + seq(SC_BLOCK_SIZE, i => false),
              tailBlock := |s.bases|, producer := StoreSegment(v))
    case StoreSegment(v) => s.(index := WithSegment(s.index, blockIdx), producer := StoreBlock(v))
    case StoreBlock(v) => s.(index := WithBlock(s.index, blockIdx, s.tailBlock), producer := Construct(v))
    case Construct(v) => s.(storage := s.storage[At(s.tailBlock, s.tail) := Live(v)], values := s.values + [v], producer := Commit)
    case Commit => s.(committed := s.committed[At(s.tailBlock, s.tail) := true], producer := Publish)
    case Publish => s.(tail := s.tail + 1, producer := Resting)
  }

  function Goto(s: State, t: nat, pc: Consumer): State
    requires t < |s.consumers|
  {
    s.(consumers := s.consumers[t := pc])
  }

  function ConsumerStep(s: State, t: nat, spurious: bool): State
    requires WellFormed(s) && Enabled(s, Consume(t, spurious))
  {
    assert BlockInRange(s.consumers[t], |s.bases|);
    match s.consumers[t]
    case LoadHead => Goto(s, t, CheckTail(s.head))
    case CheckTail(i) => Goto(s, t, if i >= s.tail then Idle else Claim(i))
    case Claim(i) =>
      if s.head == i && !spurious then Goto(s.(head := i + 1, owners := s.owners + [t]), t, LoadSegment(i))
      else Goto(s, t, LoadHead)
    case LoadSegment(i) =>
      var seg := i / SC_BLOCK_SIZE / SEG_SIZE;
      if seg >= MAX_SEGS || s.index[seg].None? then s else Goto(s, t, LoadBlock(i))
    case LoadBlock(i) =>
      var b := Load(s.index, i / SC_BLOCK_SIZE);
      if b.Some? && b.value < |s.bases| then Goto(s, t, Await(i, b.value)) else Goto(s, t, LoadSegment(i))
    case Await(i, b) => if s.committed[At(b, i)] then Goto(s, t, MoveOut(i, b)) else s
    case MoveOut(i, b) =>
      var v := if s.storage[At(b, i)].Live? then s.storage[At(b, i)].value else 0;
      Goto(s.(moved := s.moved + [Moved(i, v)]), t, Destroy(i, b, v))
    case Destroy(i, b, _) => Goto(s.(storage := s.storage[At(b, i) := Gone]), t, Idle)
  }

  function Step(s: State, a: Action): State
    requires WellFormed(s) && Enabled(s, a)
  {
    match a
    case Emplace(v) => s.(producer := LoadTail(v))
    case Produce => ProducerStep(s)
    case Dequeue(t) => Goto(s, t, LoadHead)
    case Consume(t, spurious) => ConsumerStep(s, t, spurious)
  }

  // ---------------------------------------------------------------- the invariant

  predicate Growing(pc: Producer) {
    pc.StoreSegment? || pc.StoreBlock?
  }

  /** The producer has made sure that a block for the tail slot exists. */
  predicate Covering(pc: Producer) {
    Growing(pc) || pc.Construct? || pc.Commit? || pc.Publish?
  }

  function BlockCount(tail: nat, pc: Producer): nat {
    if tail == 0 || Covering(pc) then tail / SC_BLOCK_SIZE + 1 else (tail - 1) / SC_BLOCK_SIZE + 1
  }

  function Constructed(tail: nat, pc: Producer): nat {
    if pc.Commit? || pc.Publish? then tail + 1 else tail
  }

  ghost predicate Chained(bases: seq<nat>, nexts: seq<Option<nat>>) {
    && |bases| == |nexts|
    && forall b :: 0 <= b < |bases| ==> bases[b] == SC_BLOCK_SIZE * b && nexts[b] == if b + 1 < |bases| then Some(b + 1) else None
  }

  /** The index knows exactly the first n blocks. */
  ghost predicate Indexed(index: Index, n: nat) {
    Shaped(index) && forall b: nat :: Load(index, b) == if b < n then Some(b) else None
  }

  /** The consumer has claimed a slot and not yet destroyed its element. */
  predicate HasSlot(pc: Consumer) {
    pc.LoadSegment? || pc.LoadBlock? || pc.Await? || pc.MoveOut? || pc.Destroy?
  }

  predicate Holds(pc: Consumer, i: nat) {
    HasSlot(pc) && pc.slot == i
  }

  predicate HeldBy(owners: seq<nat>, consumers: seq<Consumer>, i: nat) {
    i < |owners| && owners[i] < |consumers| && Holds(consumers[owners[i]], i)
  }

  /** An element lives from construction until the consumer that claimed it has moved it out. */
  function Expected(values: seq<int>, owners: seq<nat>, consumers: seq<Consumer>, i: nat): Slot {
    if i >= |values| then Raw
    else if i < |owners| && !HeldBy(owners, consumers, i) then Gone
    else Live(values[i])
  }

  /** The consumer that claimed slot i has not moved its element out yet. */
  predicate Pending(owners: seq<nat>, consumers: seq<Consumer>, i: nat) {
    HeldBy(owners, consumers, i) && !consumers[owners[i]].Destroy?
  }

  ghost predicate WasMoved(moved: seq<Moved>, i: nat) {
    exists k :: 0 <= k < |moved| && moved[k].slot == i
  }

  /** No slot was moved out twice, every element left with the value constructed in its slot, and the
      claimed slots are those moved out and those whose consumer is still about to. */
  ghost predicate MovedOk(moved: seq<Moved>, values: seq<int>, owners: seq<nat>, consumers: seq<Consumer>) {
    && (forall k, l :: 0 <= k < l < |moved| ==> moved[k].slot != moved[l].slot)
    && (forall k :: 0 <= k < |moved| ==> moved[k].slot < |owners| && moved[k].slot < |values| && moved[k].value == values[moved[k].slot])
    && (forall i: nat :: i < |owners| ==> (Pending(owners, consumers, i) <==> !WasMoved(moved, i)))
  }

  ghost predicate Stored(storage: seq<Slot>, values: seq<int>, owners: seq<nat>, consumers: seq<Consumer>) {
    |values| <= |storage| && forall i :: 0 <= i < |storage| ==> storage[i] == Expected(values, owners, consumers, i)
  }

  ghost predicate Committed(committed: seq<bool>, n: nat) {
    n <= |committed| && forall i :: 0 <= i < |committed| ==> (committed[i] <==> i < n)
  }

  ghost predicate Knows(head: nat, tail: nat, owners: seq<nat>, values: seq<int>, t: nat, pc: Consumer) {
    match pc
    case Idle => true
    case LoadHead => true
    case CheckTail(i) => i <= head
    case Claim(i) => i <= head && i < tail
    case LoadSegment(i) => i < |owners| && owners[i] == t
    case LoadBlock(i) => i < |owners| && owners[i] == t
    case Await(i, b) => i < |owners| && owners[i] == t && b == i / SC_BLOCK_SIZE
    case MoveOut(i, b) => i < |owners| && owners[i] == t && b == i / SC_BLOCK_SIZE
    case Destroy(i, b, v) => i < |owners| && owners[i] == t && b == i / SC_BLOCK_SIZE && i < |values| && v == values[i]
  }

  ghost predicate Counted(s: State) {
    && |s.owners| == s.head <= s.tail && |s.values| == Constructed(s.tail, s.producer)
    && |s.bases| == BlockCount(s.tail, s.producer) && s.tailBlock + 1 == |s.bases|
    && (s.producer.Grow? ==> s.tail % SC_BLOCK_SIZE == 0 && s.tail != 0)
    && (s.producer.Grow? || Growing(s.producer) ==> s.tail != 0 && s.tail % SC_BLOCK_SIZE == 0)
  }

  ghost predicate SharedOk(s: State) {
    && WellFormed(s) && Counted(s) && Chained(s.bases, s.nexts)
    && Indexed(s.index, if Growing(s.producer) then s.tailBlock else |s.bases|)
    && Stored(s.storage, s.values, s.owners, s.consumers)
    && MovedOk(s.moved, s.values, s.owners, s.consumers)
    && Committed(s.committed, if s.producer.Publish? then s.tail + 1 else s.tail)
  }

  ghost predicate Inv(s: State) {
    SharedOk(s) && forall t :: 0 <= t < |s.consumers| ==> Knows(s.head, s.tail, s.owners, s.values, t, s.consumers[t])
  }

  // ------------------------------------------------------------------ preservation

  /** How the shared state may change: indices and history only grow. */
  ghost predicate Grows(s: State, u: State) {
    s.head <= u.head && s.tail <= u.tail && s.owners <= u.owners && s.values <= u.values
  }

  lemma OtherConsumer(s: State, u: State, t: nat, pc: Consumer)
    requires Grows(s, u) && Knows(s.head, s.tail, s.owners, s.values, t, pc)
    ensures Knows(u.head, u.tail, u.owners, u.values, t, pc)
  {
  }

  lemma ConsumersKept(s: State, u: State)
    requires Inv(s) && SharedOk(u) && Grows(s, u) && u.consumers == s.consumers
    ensures Inv(u)
  {
    hide SharedOk, Knows;
    forall t | 0 <= t < |u.consumers| ensures Knows(u.head, u.tail, u.owners, u.values, t, u.consumers[t]) {
      assert Knows(s.head, s.tail, s.owners, s.values, t, s.consumers[t]);
      OtherConsumer(s, u, t, u.consumers[t]);
    }
  }

  lemma ConsumerMoved(s: State, u: State, t: nat)
    requires Inv(s) && SharedOk(u) && Grows(s, u) && t < |s.consumers| && |u.consumers| == |s.consumers|
    requires forall v :: 0 <= v < |s.consumers| && v != t ==> u.consumers[v] == s.consumers[v]
    requires Knows(u.head, u.tail, u.owners, u.values, t, u.consumers[t])
    ensures Inv(u)
  {
    hide SharedOk, Knows, Grows;
    forall v | 0 <= v < |u.consumers| ensures Knows(u.head, u.tail, u.owners, u.values, v, u.consumers[v]) {
      assert Knows(s.head, s.tail, s.owners, s.values, v, s.consumers[v]);
      if v != t { OtherConsumer(s, u, v, u.consumers[v]); }
    }
  }

  lemma ChainGrows(bases: seq<nat>, nexts: seq<Option<nat>>, tail: nat)
    requires Chained(bases, nexts) && bases != [] && tail == SC_BLOCK_SIZE * |bases|
    ensures Chained(bases + [tail], nexts[|bases| - 1 := Some(|bases|)] + [None])
  {
  }

  lemma StorageGrows(s: State)
    requires Stored(s.storage, s.values, s.owners, s.consumers) && Committed(s.committed, s.tail) && s.tail == |s.values| == |s.storage| == |s.committed|
    requires |s.owners| <= s.tail
    ensures Stored(s.storage + seq(SC_BLOCK_SIZE, i => Raw), s.values, s.owners, s.consumers)
    ensures Committed(s.committed + seq(SC_BLOCK_SIZE, i => false), s.tail)
  {
  }

  lemma StoredConstruct(storage: seq<Slot>, values: seq<int>, owners: seq<nat>, consumers: seq<Consumer>, v: int)
    requires Stored(storage, values, owners, consumers) && |owners| <= |values| < |storage|
    ensures Stored(storage[|values| := Live(v)], values + [v], owners, consumers)
  {
  }

  lemma MovedConstruct(moved: seq<Moved>, values: seq<int>, owners: seq<nat>, consumers: seq<Consumer>, v: int)
    requires MovedOk(moved, values, owners, consumers)
    ensures MovedOk(moved, values + [v], owners, consumers)
  {
  }

  lemma GrowKeepsInv(s: State)
    requires Inv(s) && Enabled(s, Produce) && s.producer.Grow?
    ensures SharedOk(ProducerStep(s)) && Grows(s, ProducerStep(s))
  {
    hide Chained, Indexed, Stored, MovedOk, Committed, Knows, Load, WithSegment, WithBlock;
    if s.tail / SC_BLOCK_SIZE < MAX_SEGS * SEG_SIZE {
      assert s.tail == SC_BLOCK_SIZE * |s.bases|;
      CommittedSize(s.committed, s.tail);
      ChainGrows(s.bases, s.nexts, s.tail);
      StorageGrows(s);
    }
  }

  lemma ElementKeepsInv(s: State)
    requires Inv(s) && Enabled(s, Produce) && (s.producer.Construct? || s.producer.Commit?)
    ensures SharedOk(ProducerStep(s)) && Grows(s, ProducerStep(s))
  {
    hide Chained, Indexed, Stored, MovedOk, Committed, Knows, Load, WithSegment, WithBlock;
    assert At(s.tailBlock, s.tail) == s.tail;
    if s.producer.Construct? {
      StoredConstruct(s.storage, s.values, s.owners, s.consumers, s.producer.value);
      MovedConstruct(s.moved, s.values, s.owners, s.consumers, s.producer.value);
    } else {
      CommitOne(s.committed, s.tail);
    }
  }

  lemma ProducerKeepsInv(s: State)
    requires Inv(s) && Enabled(s, Produce)
    ensures SharedOk(ProducerStep(s)) && Grows(s, ProducerStep(s))
  {
    hide Chained, Indexed, Stored, MovedOk, Committed, Knows, Load, WithSegment, WithBlock;
    var blockIdx := s.tail / SC_BLOCK_SIZE;
    match s.producer
    case Grow(_) => GrowKeepsInv(s);
    case StoreSegment(_) => IndexSegment(s.index, blockIdx, s.tailBlock);
    case StoreBlock(_) => IndexBlock(s.index, blockIdx, s.tailBlock);
    case Construct(_) => ElementKeepsInv(s);
    case Commit => ElementKeepsInv(s);
    case _ =>
  }

  lemma CommittedSize(committed: seq<bool>, n: nat)
    requires Committed(committed, n)
    ensures n <= |committed|
  {
  }

  lemma CommitOne(committed: seq<bool>, n: nat)
    requires Committed(committed, n) && n < |committed|
    ensures Committed(committed[n := true], n + 1)
  {
  }

  lemma IndexSegment(index: Index, block: nat, n: nat)
    requires Indexed(index, n) && block / SEG_SIZE < MAX_SEGS
    ensures Shaped(WithSegment(index, block)) && Indexed(WithSegment(index, block), n) && WithSegment(index, block)[block / SEG_SIZE].Some?
  {
    hide Load, WithSegment;
    SegmentInvisible(index, block, 0);
    forall b: nat ensures Load(WithSegment(index, block), b) == if b < n then Some(b) else None {
      SegmentInvisible(index, block, b);
    }
  }

  lemma IndexBlock(index: Index, block: nat, n: nat)
    requires Indexed(index, n) && block == n && block / SEG_SIZE < MAX_SEGS && index[block / SEG_SIZE].Some?
    ensures Shaped(WithBlock(index, block, n)) && Indexed(WithBlock(index, block, n), n + 1)
  {
    hide Load, WithBlock;
    LoadStored(index, block, n, 0);
    forall b: nat ensures Load(WithBlock(index, block, n), b) == if b < n + 1 then Some(b) else None {
      LoadStored(index, block, n, b);
    }
  }

  lemma StoredMove(storage: seq<Slot>, values: seq<int>, owners: seq<nat>, consumers: seq<Consumer>, t: nat, pc: Consumer)
    requires Stored(storage, values, owners, consumers) && t < |consumers|
    requires SameHold(consumers[t], pc)
    ensures Stored(storage, values, owners, consumers[t := pc])
  {
    forall i | 0 <= i < |storage| ensures storage[i] == Expected(values, owners, consumers[t := pc], i) {
      assert HeldBy(owners, consumers, i) == HeldBy(owners, consumers[t := pc], i);
    }
  }

  lemma MovedKept(moved: seq<Moved>, values: seq<int>, owners: seq<nat>, consumers: seq<Consumer>, t: nat, pc: Consumer)
    requires MovedOk(moved, values, owners, consumers) && t < |consumers| && SameDuty(consumers[t], pc)
    ensures MovedOk(moved, values, owners, consumers[t := pc])
  {
    forall i: nat | i < |owners| ensures Pending(owners, consumers[t := pc], i) == Pending(owners, consumers, i) {
    }
  }

  lemma MovedClaim(moved: seq<Moved>, values: seq<int>, owners: seq<nat>, consumers: seq<Consumer>, t: nat)
    requires MovedOk(moved, values, owners, consumers) && t < |consumers| && consumers[t].Claim?
    ensures MovedOk(moved, values, owners + [t], consumers[t := LoadSegment(|owners|)])
  {
    var after, now := owners + [t], consumers[t := LoadSegment(|owners|)];
    assert Pending(after, now, |owners|);
    forall i: nat | i < |owners| ensures Pending(after, now, i) == Pending(owners, consumers, i) {
      assert after[i] == owners[i];
    }
  }

  lemma MovedMove(moved: seq<Moved>, values: seq<int>, owners: seq<nat>, consumers: seq<Consumer>, t: nat, i: nat, b: nat)
    requires MovedOk(moved, values, owners, consumers) && t < |consumers| && consumers[t] == MoveOut(i, b)
    requires i < |owners| && owners[i] == t && i < |values|
    ensures MovedOk(moved + [Moved(i, values[i])], values, owners, consumers[t := Destroy(i, b, values[i])])
  {
    var after, now := moved + [Moved(i, values[i])], consumers[t := Destroy(i, b, values[i])];
    assert Pending(owners, consumers, i);
    assert after[|moved|].slot == i;
    forall j: nat | j < |owners| ensures Pending(owners, now, j) <==> !WasMoved(after, j) {
      if j != i {
        assert Pending(owners, now, j) == Pending(owners, consumers, j);
        if WasMoved(moved, j) {
          var k :| 0 <= k < |moved| && moved[k].slot == j;
          assert after[k].slot == j;
        }
      }
    }
  }

  lemma StoredClaim(storage: seq<Slot>, values: seq<int>, owners: seq<nat>, consumers: seq<Consumer>, t: nat)
    requires Stored(storage, values, owners, consumers) && t < |consumers| && consumers[t].Claim?
    ensures Stored(storage, values, owners + [t], consumers[t := LoadSegment(|owners|)])
  {
    var after, moved := owners + [t], consumers[t := LoadSegment(|owners|)];
    forall i | 0 <= i < |storage| ensures storage[i] == Expected(values, after, moved, i) {
      if i < |owners| {
        assert after[i] == owners[i];
        assert HeldBy(owners, consumers, i) == HeldBy(after, moved, i);
      } else if i == |owners| {
        assert HeldBy(after, moved, i);
      }
    }
  }

  lemma StoredDestroy(storage: seq<Slot>, values: seq<int>, owners: seq<nat>, consumers: seq<Consumer>, t: nat, i: nat)
    requires Stored(storage, values, owners, consumers) && t < |consumers| && Holds(consumers[t], i)
    requires i < |owners| && owners[i] == t && |owners| <= |values|
    ensures Stored(storage[i := Gone], values, owners, consumers[t := Idle])
  {
    var moved := consumers[t := Idle];
    forall k | 0 <= k < |storage| ensures storage[i := Gone][k] == Expected(values, owners, moved, k) {
      if k != i {
        assert HeldBy(owners, consumers, k) == HeldBy(owners, moved, k);
      }
    }
  }

  /** A claimed slot: its block is indexed, and it is the block whose base matches the slot. */
  lemma BlockFound(s: State, i: nat)
    requires SharedOk(s) && i < s.head
    ensures var b := i / SC_BLOCK_SIZE;
            && Load(s.index, b) == Some(b) && b < |s.bases| && s.bases[b] == i - i % SC_BLOCK_SIZE && At(b, i) == i
            && b / SEG_SIZE < MAX_SEGS && s.index[b / SEG_SIZE].Some?
  {
    hide Stored, MovedOk, Committed;
    assert Load(s.index, i / SC_BLOCK_SIZE).Some?;
  }

  /** A claimed slot is committed. */
  lemma SlotCommitted(s: State, i: nat)
    requires SharedOk(s) && i < s.head
    ensures i < |s.committed| && s.committed[i]
  {
    hide Stored, MovedOk, Indexed, Chained;
  }

  /** A claimed slot still holds its element until its owner destroys it. */
  lemma SlotLive(s: State, t: nat, i: nat)
    requires SharedOk(s) && t < |s.consumers| && Holds(s.consumers[t], i) && i < |s.owners| && s.owners[i] == t
    ensures i < |s.values| && i < |s.storage| && s.storage[i] == Live(s.values[i])
  {
    hide MovedOk, Committed, Indexed, Chained;
    assert HeldBy(s.owners, s.consumers, i);
  }

  /** The consumer answers for the same slot, and has it moved out or not, as before. */
  predicate SameDuty(pc: Consumer, after: Consumer) {
    SameHold(pc, after) && pc.Destroy? == after.Destroy?
  }

  predicate SameHold(pc: Consumer, after: Consumer) {
    HasSlot(pc) == HasSlot(after) && (HasSlot(pc) ==> pc.slot == after.slot)
  }

  lemma LocalStep(s: State, t: nat, pc: Consumer)
    requires Inv(s) && t < |s.consumers| && SameDuty(s.consumers[t], pc) && BlockInRange(pc, |s.bases|)
    requires Knows(s.head, s.tail, s.owners, s.values, t, pc)
    ensures Inv(Goto(s, t, pc))
  {
    StoredMove(s.storage, s.values, s.owners, s.consumers, t, pc);
    MovedKept(s.moved, s.values, s.owners, s.consumers, t, pc);
    hide Stored, MovedOk, Committed, Indexed, Chained, Knows, SameHold, SameDuty;
    var u := Goto(s, t, pc);
    assert WellFormed(u);
    hide WellFormed;
    ConsumerMoved(s, u, t);
  }

  lemma ClaimStep(s: State, t: nat)
    requires Inv(s) && t < |s.consumers| && s.consumers[t] == Claim(s.head) && s.head < s.tail
    ensures Inv(Goto(s.(head := s.head + 1, owners := s.owners + [t]), t, LoadSegment(s.head)))
  {
    StoredClaim(s.storage, s.values, s.owners, s.consumers, t);
    MovedClaim(s.moved, s.values, s.owners, s.consumers, t);
    hide Stored, MovedOk, Committed, Indexed, Chained;
    var u := Goto(s.(head := s.head + 1, owners := s.owners + [t]), t, LoadSegment(s.head));
    assert WellFormed(u);
    assert Knows(u.head, u.tail, u.owners, u.values, t, u.consumers[t]);
    hide WellFormed, Knows;
    ConsumerMoved(s, u, t);
  }

  lemma MovedDestroyed(moved: seq<Moved>, values: seq<int>, owners: seq<nat>, consumers: seq<Consumer>, t: nat)
    requires MovedOk(moved, values, owners, consumers) && t < |consumers| && consumers[t].Destroy?
    ensures MovedOk(moved, values, owners, consumers[t := Idle])
  {
    forall i: nat | i < |owners| ensures Pending(owners, consumers[t := Idle], i) == Pending(owners, consumers, i) {
    }
  }

  lemma MoveStep(s: State, t: nat, i: nat, b: nat)
    requires Inv(s) && t < |s.consumers| && s.consumers[t] == MoveOut(i, b) && i < |s.owners| && s.owners[i] == t && i < |s.values|
    requires b == i / SC_BLOCK_SIZE && b < |s.bases|
    ensures Inv(Goto(s.(moved := s.moved + [Moved(i, s.values[i])]), t, Destroy(i, b, s.values[i])))
  {
    StoredMove(s.storage, s.values, s.owners, s.consumers, t, Destroy(i, b, s.values[i]));
    MovedMove(s.moved, s.values, s.owners, s.consumers, t, i, b);
    hide Stored, MovedOk, Committed, Indexed, Chained;
    var u := Goto(s.(moved := s.moved + [Moved(i, s.values[i])]), t, Destroy(i, b, s.values[i]));
    assert WellFormed(u);
    assert Knows(u.head, u.tail, u.owners, u.values, t, u.consumers[t]);
    hide WellFormed, Knows;
    ConsumerMoved(s, u, t);
  }

  lemma DestroyStep(s: State, t: nat, i: nat)
    requires Inv(s) && t < |s.consumers| && s.consumers[t].Destroy? && Holds(s.consumers[t], i) && i < |s.owners| && s.owners[i] == t && i < |s.storage|
    ensures Inv(Goto(s.(storage := s.storage[i := Gone]), t, Idle))
  {
    StoredDestroy(s.storage, s.values, s.owners, s.consumers, t, i);
    MovedDestroyed(s.moved, s.values, s.owners, s.consumers, t);
    hide Stored, MovedOk, Committed, Indexed, Chained;
    var u := Goto(s.(storage := s.storage[i := Gone]), t, Idle);
    assert WellFormed(u);
    hide WellFormed;
    assert Knows(u.head, u.tail, u.owners, u.values, t, u.consumers[t]);
    hide Knows;
    ConsumerMoved(s, u, t);
  }

  lemma ConsumerFacts(s: State, t: nat)
    requires Inv(s) && t < |s.consumers|
    ensures SharedOk(s) && Knows(s.head, s.tail, s.owners, s.values, t, s.consumers[t]) && BlockInRange(s.consumers[t], |s.bases|)
    ensures |s.owners| == s.head <= s.tail && Shaped(s.index)
  {
    hide Stored, MovedOk, Committed, Indexed, Chained, Knows;
  }

  lemma ConsumerKeepsInv(s: State, t: nat, spurious: bool)
    requires Inv(s) && WellFormed(s) && Enabled(s, Consume(t, spurious))
    ensures Inv(ConsumerStep(s, t, spurious))
  {
    hide Inv, SharedOk, Load, Goto, WellFormed, At;
    ConsumerFacts(s, t);
    match s.consumers[t]
    case LoadHead => LocalStep(s, t, CheckTail(s.head));
    case CheckTail(i) => LocalStep(s, t, if i >= s.tail then Idle else Claim(i));
    case Claim(i) =>
      if s.head == i && !spurious { ClaimStep(s, t); } else { LocalStep(s, t, LoadHead); }
    case LoadSegment(i) => BlockFound(s, i); LocalStep(s, t, LoadBlock(i));
    case LoadBlock(i) => BlockFound(s, i); LocalStep(s, t, Await(i, i / SC_BLOCK_SIZE));
    case Await(i, b) => BlockFound(s, i); SlotCommitted(s, i); LocalStep(s, t, MoveOut(i, b));
    case MoveOut(i, b) => BlockFound(s, i); SlotLive(s, t, i); MoveStep(s, t, i, b);
    case Destroy(i, b, _) => BlockFound(s, i); SlotLive(s, t, i); DestroyStep(s, t, i);
  }

  /** Every step of the producer and of every consumer keeps the invariant. */
  lemma StepKeepsInv(s: State, a: Action)
    requires Inv(s) && WellFormed(s) && Enabled(s, a)
    ensures Inv(Step(s, a))
  {
    hide ProducerStep, ConsumerStep;
    match a
    case Emplace(v) =>
      var u := Step(s, a);
      hide Stored, MovedOk, Committed, Indexed, Chained, Knows;
      ConsumersKept(s, u);
    case Produce =>
      hide SharedOk, Knows, Grows;
      ProducerKeepsInv(s);
      ProducerLeavesConsumers(s);
      ConsumersKept(s, Step(s, a));
    case Dequeue(t) => LocalStep(s, t, LoadHead);
    case Consume(t, spurious) => ConsumerKeepsInv(s, t, spurious);
  }

  lemma ProducerLeavesConsumers(s: State)
    requires WellFormed(s) && Enabled(s, Produce)
    ensures ProducerStep(s).consumers == s.consumers
  {
  }

  // ------------------------------------------------------------------ whole runs

  /** A producer just constructed, with its first block, and n idle consumers. */
  function Init(n: nat): State {
    State(0, 0, 0, [0], [None], FirstIndex(), seq(SC_BLOCK_SIZE, i => Raw), seq(SC_BLOCK_SIZE, i => false),
          Resting, seq(n, i => Idle), [], [], [])
  }

  function FirstIndex(): Index {
    [Some(EmptySegment()[0 := Some(0)])] + seq(MAX_SEGS - 1, i => None)
  }

  lemma InitInv(n: nat)
    ensures Inv(Init(n))
  {
    var index := FirstIndex();
    forall b: nat ensures Shaped(index) && Load(index, b) == if b < 1 then Some(b) else None {
      if b > 0 && b / SEG_SIZE == 0 { assert b % SEG_SIZE == b; }
    }
  }

  /** The run that a schedule produces; an entry that is not enabled is skipped. */
  ghost function RunAll(s: State, schedule: seq<Action>): (r: State)
    requires Inv(s)
    ensures Inv(r)
    decreases |schedule|
  {
    if schedule == [] then s
    else if Enabled(s, schedule[0]) then
      StepKeepsInv(s, schedule[0]);
      RunAll(Step(s, schedule[0]), schedule[1..])
    else RunAll(s, schedule[1..])
  }

  /** Claims are in order and never pass the tail; no slot is moved out twice; every element leaves
      with the value constructed at its slot; and no two consumers hold the same slot. */
  ghost predicate Delivers(s: State) {
    && s.head <= s.tail <= |s.values|
    && (forall k :: 0 <= k < |s.moved| ==> s.moved[k].slot < s.head && s.moved[k].value == s.values[s.moved[k].slot])
    && (forall k, l :: 0 <= k < l < |s.moved| ==> s.moved[k].slot != s.moved[l].slot)
    && (forall t, v, i :: 0 <= t < |s.consumers| && 0 <= v < |s.consumers| && Holds(s.consumers[t], i) && Holds(s.consumers[v], i) ==> t == v)
  }

  /** Every claimed slot has been moved out, or a consumer that holds it is about to. */
  ghost predicate LosesNothing(s: State) {
    forall i: nat :: i < s.head && !WasMoved(s.moved, i) ==>
      exists t :: 0 <= t < |s.consumers| && Holds(s.consumers[t], i) && !s.consumers[t].Destroy?
  }

  lemma FirstInFirstOut(n: nat, schedule: seq<Action>)
    ensures Inv(Init(n)) && Delivers(RunAll(Init(n), schedule)) && LosesNothing(RunAll(Init(n), schedule))
  {
    InitInv(n);
    var s := RunAll(Init(n), schedule);
    hide RunAll, Init;
    DeliversHolds(s);
    LosesNothingHolds(s);
  }

  lemma DeliversHolds(s: State)
    requires Inv(s)
    ensures Delivers(s)
  {
    hide Stored, Committed, Indexed, Chained, Pending, WasMoved;
    forall t, v, i | 0 <= t < |s.consumers| && 0 <= v < |s.consumers| && Holds(s.consumers[t], i) && Holds(s.consumers[v], i) ensures t == v {
      assert Knows(s.head, s.tail, s.owners, s.values, t, s.consumers[t]) && Knows(s.head, s.tail, s.owners, s.values, v, s.consumers[v]);
    }
  }

  lemma LosesNothingHolds(s: State)
    requires Inv(s)
    ensures LosesNothing(s)
  {
    hide Stored, Committed, Indexed, Chained, Knows, WasMoved;
    forall i: nat | i < s.head && !WasMoved(s.moved, i)
      ensures exists t :: 0 <= t < |s.consumers| && Holds(s.consumers[t], i) && !s.consumers[t].Destroy? {
      assert Pending(s.owners, s.consumers, i);
    }
  }

  /** What a consumer finds: its block is indexed and is the one whose base matches the slot, the slot
      is committed and its element is there. */
  ghost predicate Ready(s: State, t: nat)
    requires Shaped(s.index) && t < |s.consumers|
  {
    var pc := s.consumers[t];
    && (pc.LoadSegment? || pc.LoadBlock? ==>
          var b := Load(s.index, pc.slot / SC_BLOCK_SIZE);
          b.Some? && b.value < |s.bases| && s.bases[b.value] == pc.slot - pc.slot % SC_BLOCK_SIZE)
    && (pc.Await? ==> At(pc.block, pc.slot) < |s.committed| && s.committed[At(pc.block, pc.slot)])
    && (pc.MoveOut? ==> At(pc.block, pc.slot) < |s.storage| && s.storage[At(pc.block, pc.slot)].Live?)
  }

  lemma ReadyHolds(s: State, t: nat)
    requires Inv(s) && t < |s.consumers|
    ensures Shaped(s.index) && Ready(s, t)
  {
    assert SharedOk(s) && Knows(s.head, s.tail, s.owners, s.values, t, s.consumers[t]) && |s.owners| == s.head;
    assert Shaped(s.index);
    hide Inv, SharedOk, Load, At;
    var pc := s.consumers[t];
    if pc.LoadSegment? || pc.LoadBlock? || pc.Await? || pc.MoveOut? {
      BlockFound(s, pc.slot);
      SlotCommitted(s, pc.slot);
      SlotLive(s, t, pc.slot);
    }
  }

  /** In every run neither wait of a dequeue ever waits. */
  lemma NothingToWaitFor(n: nat, schedule: seq<Action>, t: nat)
    requires Inv(Init(n)) && t < |RunAll(Init(n), schedule).consumers|
    ensures var s := RunAll(Init(n), schedule); Shaped(s.index) && Ready(s, t)
  {
    var s := RunAll(Init(n), schedule);
    hide RunAll, Init, Inv, Ready;
    ReadyHolds(s, t);
  }

  // ------------------------------------------------------------------ destruction

  ghost predicate Quiet(s: State) {
    (s.producer.Resting? || s.producer.Refused?) && forall t :: 0 <= t < |s.consumers| ==> s.consumers[t].Idle?
  }

  lemma QuietStorageHolds(s: State)
    requires Inv(s) && Quiet(s)
    ensures s.tail <= |s.storage| && forall i :: 0 <= i < |s.storage| ==> (s.storage[i].Live? <==> s.head <= i < s.tail)
  {
    hide MovedOk, Indexed, Chained, Committed;
  }

  /** After every run with no call in progress exactly the unclaimed slots hold an element. */
  lemma QuietStorage(n: nat, schedule: seq<Action>)
    requires Inv(Init(n)) && Quiet(RunAll(Init(n), schedule))
    ensures var s := RunAll(Init(n), schedule);
            s.tail <= |s.storage| && forall i :: 0 <= i < |s.storage| ==> (s.storage[i].Live? <==> s.head <= i < s.tail)
  {
    hide RunAll, Init, Inv, Quiet;
    QuietStorageHolds(RunAll(Init(n), schedule));
  }

  lemma QuietBlocks(s: State)
    requires Inv(s)
    ensures Chained(s.bases, s.nexts) && s.bases != [] && (Quiet(s) ==> forall b: nat :: b < |s.bases| ==> Load(s.index, b) == Some(b))
    ensures Quiet(s) ==> s.tail <= SC_BLOCK_SIZE * |s.bases|
  {
    hide Stored, MovedOk, Committed, Chained, Load;
  }

  /** The destructor, after any run (which keeps Inv) and with no call in progress: it destroys every
      element still in the queue exactly once and nothing else, and frees every block exactly once. */
  method Destruct(s: State) returns (destroyed: seq<nat>, freed: seq<nat>)
    requires Inv(s) && WellFormed(s) && Quiet(s)
    ensures |destroyed| == s.tail - s.head && forall i :: 0 <= i < |destroyed| ==> destroyed[i] == s.head + i
    ensures forall i :: 0 <= i < |s.storage| ==> (s.storage[i].Live? <==> i in destroyed)
    ensures |freed| == |s.bases| && forall b :: 0 <= b < |freed| ==> freed[b] == b
  {
    QuietStorageHolds(s);
    QuietBlocks(s);
    assert s.head <= s.tail;
    hide Inv, Quiet, Load, SharedOk, Stored, WellFormed;
    destroyed := [];
    var index := s.head;
    while index < s.tail
      invariant s.head <= index <= s.tail && |destroyed| == index - s.head
      invariant forall i :: 0 <= i < |destroyed| ==> destroyed[i] == s.head + i
    {
      var block := Load(s.index, index / SC_BLOCK_SIZE);
      assert block == Some(index / SC_BLOCK_SIZE);
      var blockEnd := (index / SC_BLOCK_SIZE + 1) * SC_BLOCK_SIZE;
      if blockEnd > s.tail {
        blockEnd := s.tail;
      }
      ghost var first := index;
      while index < blockEnd
        invariant first <= index <= blockEnd && |destroyed| == index - s.head
        invariant forall i :: 0 <= i < |destroyed| ==> destroyed[i] == s.head + i
      {
        assert index / SC_BLOCK_SIZE == block.value;
        destroyed := destroyed + [At(block.value, index)];
        index := index + 1;
      }
    }
    freed := [];
    var b := Load(s.index, 0);
    while b.Some?
      invariant |freed| <= |s.bases| && b == if |freed| < |s.bases| then Some(|freed|) else None
      invariant forall i :: 0 <= i < |freed| ==> freed[i] == i
      decreases |s.bases| - |freed|
    {
      var n := s.nexts[b.value];
      freed := freed + [b.value];
      b := n;
    }
    forall i | 0 <= i < |s.storage| ensures s.storage[i].Live? <==> i in destroyed {
      if s.head <= i < s.tail { assert destroyed[i - s.head] == i; }
    }
  }

  // ------------------------------------------------------------------------ lone calls

  /** In every run the look at the tail ends a dequeue exactly when its slot has reached the tail, and then
      the queue holds nothing unclaimed, although the head was read before. */
  lemma EmptyIsJustified(n: nat, schedule: seq<Action>, t: nat, spurious: bool)
    requires Inv(Init(n))
    requires var s := RunAll(Init(n), schedule); t < |s.consumers| && s.consumers[t].CheckTail?
    ensures var s := RunAll(Init(n), schedule); WellFormed(s) && Enabled(s, Consume(t, spurious))
    ensures var s := RunAll(Init(n), schedule); var u := Step(s, Consume(t, spurious));
            && t < |u.consumers| && (u.consumers[t].Idle? <==> s.tail <= s.consumers[t].slot)
            && (u.consumers[t].Idle? ==> s.head == s.tail)
  {
    hide Inv, RunAll, Init, SharedOk;
    ConsumerFacts(RunAll(Init(n), schedule), t);
    InvIsWellFormed(RunAll(Init(n), schedule));
  }

  lemma InvIsWellFormed(s: State)
    requires Inv(s)
    ensures WellFormed(s) && Counted(s)
  {
    hide Stored, MovedOk, Committed, Indexed, Chained, Knows;
  }

  /** k steps of consumer t, or of the producer, and of nobody else. */
  function Alone(s: State, a: Action, k: nat): State
    decreases k
  {
    if k == 0 || !WellFormed(s) || !Enabled(s, a) then s else Alone(Step(s, a), a, k - 1)
  }

  lemma OneAlone(s: State, a: Action, k: nat)
    requires Inv(s) && Enabled(s, a) && k > 0
    ensures WellFormed(s) && Inv(Step(s, a)) && Alone(s, a, k) == Alone(Step(s, a), a, k - 1)
  {
    InvIsWellFormed(s);
    StepKeepsInv(s, a);
    hide Inv, WellFormed, Step;
  }

  lemma NoneAlone(s: State, a: Action)
    ensures Alone(s, a, 0) == s
  {
  }

  /** Wherever the others stand, a dequeue that runs alone moves out the oldest element, and changes nothing
      exactly when there is none. */
  lemma LoneDequeue(s: State, t: nat)
    requires Inv(s) && t < |s.consumers| && s.consumers[t].Idle?
    ensures WellFormed(s) && s.head <= s.tail
    ensures s.head == s.tail ==> Alone(Step(s, Dequeue(t)), Consume(t, false), 2) == s
    ensures s.head < s.tail ==>
              && s.head < |s.values| && s.head < |s.storage|
              && Alone(Step(s, Dequeue(t)), Consume(t, false), 8)
                 == s.(head := s.head + 1, owners := s.owners + [t], storage := s.storage[s.head := Gone], moved := s.moved + [Moved(s.head, s.values[s.head])])
  {
    InvIsWellFormed(s);
    ConsumerFacts(s, t);
    StepKeepsInv(s, Dequeue(t));
    hide Inv, WellFormed, SharedOk, Alone;
    var s0 := Goto(s, t, LoadHead);
    OneAlone(s0, Consume(t, false), 8); OneAlone(s0, Consume(t, false), 2);
    var s1 := Goto(s, t, CheckTail(s.head));
    assert Step(s0, Consume(t, false)) == s1;
    OneAlone(s1, Consume(t, false), 7); OneAlone(s1, Consume(t, false), 1);
    hide Load, At;
    if s.head == s.tail {
      assert s.consumers[t := CheckTail(s.head)][t := Idle] == s.consumers;
      assert Step(s1, Consume(t, false)) == s;
      NoneAlone(s, Consume(t, false));
    } else {
      var s2 := Goto(s, t, Claim(s.head));
      assert Step(s1, Consume(t, false)) == s2;
      hide Step;
      LoneClaim(s, s2, t);
    }
  }

  lemma LoneClaim(s: State, s2: State, t: nat)
    requires t < |s.consumers| && s.consumers[t].Idle? && s2 == Goto(s, t, Claim(s.head)) && Inv(s2) && s.head < s.tail
    ensures s.head < |s.values| && s.head < |s.storage|
    ensures Alone(s2, Consume(t, false), 6)
         == s.(head := s.head + 1, owners := s.owners + [t], storage := s.storage[s.head := Gone], moved := s.moved + [Moved(s.head, s.values[s.head])])
  {
    InvIsWellFormed(s2);
    hide Inv, WellFormed, Alone, Load, At;
    OneAlone(s2, Consume(t, false), 6);
    var c := s.(head := s.head + 1, owners := s.owners + [t]);
    var s3 := Goto(c, t, LoadSegment(s.head));
    assert Step(s2, Consume(t, false)) == s3;
    hide Step;
    LoneFind(c, s3, t, s.head);
  }

  lemma LoneFind(c: State, s3: State, t: nat, i: nat)
    requires t < |c.consumers| && c.consumers[t].Idle? && s3 == Goto(c, t, LoadSegment(i)) && Inv(s3)
    requires i < c.head && i < |c.owners| && c.owners[i] == t
    ensures i < |c.values| && i < |c.storage|
    ensures Alone(s3, Consume(t, false), 5) == c.(storage := c.storage[i := Gone], moved := c.moved + [Moved(i, c.values[i])])
  {
    hide Inv, SharedOk, WellFormed, Alone, Load, At;
    ClaimedSlot(s3, t, i);
    OneAlone(s3, Consume(t, false), 5);
    var s4 := Goto(c, t, LoadBlock(i));
    assert Step(s3, Consume(t, false)) == s4;
    OneAlone(s4, Consume(t, false), 4);
    var b := i / SC_BLOCK_SIZE;
    var s5 := Goto(c, t, Await(i, b));
    assert Step(s4, Consume(t, false)) == s5;
    hide Step;
    LoneMove(c, s5, t, i, b);
  }

  /** What a consumer finds at the slot it has claimed. */
  lemma ClaimedSlot(s: State, t: nat, i: nat)
    requires Inv(s) && t < |s.consumers| && s.consumers[t] == LoadSegment(i) && i < s.head && i < |s.owners| && s.owners[i] == t
    ensures Shaped(s.index) && i / SC_BLOCK_SIZE / SEG_SIZE < MAX_SEGS && s.index[i / SC_BLOCK_SIZE / SEG_SIZE].Some?
    ensures Load(s.index, i / SC_BLOCK_SIZE) == Some(i / SC_BLOCK_SIZE) && i / SC_BLOCK_SIZE < |s.bases|
    ensures At(i / SC_BLOCK_SIZE, i) == i < |s.committed| && s.committed[i]
    ensures i < |s.values| && i < |s.storage| && s.storage[i] == Live(s.values[i])
  {
    hide SharedOk, Load, At;
    ConsumerFacts(s, t);
    BlockFound(s, i);
    SlotCommitted(s, i);
    SlotLive(s, t, i);
  }

  lemma LoneMove(c: State, s5: State, t: nat, i: nat, b: nat)
    requires t < |c.consumers| && c.consumers[t].Idle? && s5 == Goto(c, t, Await(i, b)) && Inv(s5)
    requires At(b, i) == i < |c.committed| && c.committed[i] && i < |c.values| && i < |c.storage| && c.storage[i] == Live(c.values[i])
    ensures Alone(s5, Consume(t, false), 3) == c.(storage := c.storage[i := Gone], moved := c.moved + [Moved(i, c.values[i])])
  {
    hide Inv, Alone, Load, At;
    InvIsWellFormed(s5);
    OneAlone(s5, Consume(t, false), 3);
    var s6 := Goto(c, t, MoveOut(i, b));
    assert Step(s5, Consume(t, false)) == s6;
    OneAlone(s6, Consume(t, false), 2);
    var m := c.(moved := c.moved + [Moved(i, c.values[i])]);
    var s7 := Goto(m, t, Destroy(i, b, c.values[i]));
    assert Step(s6, Consume(t, false)) == s7;
    OneAlone(s7, Consume(t, false), 1);
    var s8 := m.(storage := c.storage[i := Gone]);
    assert c.consumers[t := Destroy(i, b, c.values[i])][t := Idle] == c.consumers;
    assert Step(s7, Consume(t, false)) == s8;
    NoneAlone(s8, Consume(t, false));
  }

  /** An enqueue that runs alone publishes its value behind the others; it is refused exactly when all
      2097152 slots of the index have been used. */
  lemma LoneEmplace(s: State, v: int)
    requires Inv(s) && (s.producer.Resting? || s.producer.Refused?)
    ensures WellFormed(s)
    ensures s.tail >= 2097152 && s.tail % 32 == 0 ==> Alone(Step(s, Emplace(v)), Produce, 2) == s.(producer := Refused)
    ensures !(s.tail >= 2097152 && s.tail % 32 == 0) ==>
              var u := Alone(Step(s, Emplace(v)), Produce, if s.tail % 32 == 0 && s.tail > 0 then 7 else 4);
              Appended(s, v, u)
  {
    InvIsWellFormed(s);
    StepKeepsInv(s, Emplace(v));
    hide Inv, WellFormed, SharedOk, Alone;
    var s0 := s.(producer := LoadTail(v));
    OneAlone(s0, Produce, 4); OneAlone(s0, Produce, 7); OneAlone(s0, Produce, 2);
    if s.tail % 32 == 0 && s.tail > 0 {
      var s1 := s.(producer := Grow(v));
      assert Step(s0, Produce) == s1;
      hide Step;
      LoneGrow(s, s1, v);
    } else {
      var s1 := s.(producer := Construct(v));
      assert Step(s0, Produce) == s1;
      hide Step;
      LoneConstruct(s1, v);
    }
  }

  /** The value stands behind the others and the producer rests; nothing else that consumers see has changed. */
  predicate Appended(s: State, v: int, u: State) {
    && u.tail == s.tail + 1 && u.values == s.values + [v] && u.producer == Resting
    && u.head == s.head && u.owners == s.owners && u.consumers == s.consumers && u.moved == s.moved
    && s.tail < |u.storage| && u.storage[s.tail] == Live(v)
  }

  lemma LoneGrow(s: State, s1: State, v: int)
    requires s1 == s.(producer := Grow(v)) && Inv(s1)
    ensures s.tail >= 2097152 ==> Alone(s1, Produce, 1) == s.(producer := Refused)
    ensures s.tail < 2097152 ==> Appended(s, v, Alone(s1, Produce, 6))
  {
    InvIsWellFormed(s1);
    hide Inv, SharedOk, Alone, WithSegment, WithBlock, WellFormed;
    OneAlone(s1, Produce, 6); OneAlone(s1, Produce, 1);
    var s2 := Step(s1, Produce);
    if s.tail >= 2097152 {
      assert s2 == s.(producer := Refused);
      NoneAlone(s2, Produce);
    } else {
      OneAlone(s2, Produce, 5);
      var s3 := Step(s2, Produce);
      OneAlone(s3, Produce, 4);
      var s4 := Step(s3, Produce);
      assert s4.producer == Construct(v) && Alike(s1, s4);
      hide Step;
      LoneConstruct(s4, v);
    }
  }

  /** The same but for blocks, index and producer. */
  predicate Alike(s: State, u: State) {
    u.tail == s.tail && u.values == s.values && u.head == s.head && u.owners == s.owners && u.consumers == s.consumers && u.moved == s.moved
  }

  lemma LoneConstruct(s1: State, v: int)
    requires s1.producer == Construct(v) && Inv(s1)
    ensures Appended(s1, v, Alone(s1, Produce, 3))
  {
    InvIsWellFormed(s1);
    TailStands(s1);
    hide Inv, SharedOk, Alone, At, WellFormed;
    OneAlone(s1, Produce, 3);
    var s2 := Step(s1, Produce);
    OneAlone(s2, Produce, 2);
    var s3 := Step(s2, Produce);
    OneAlone(s3, Produce, 1);
    var s4 := Step(s3, Produce);
    NoneAlone(s4, Produce);
  }

  lemma TailStands(s: State)
    requires Inv(s) && s.producer.Construct?
    ensures At(s.tailBlock, s.tail) == s.tail < |s.storage|
  {
    hide Stored, MovedOk, Committed, Indexed, Chained, Knows;
  }
}
