/** LockFreeQueue, the Michael-Scott queue, as a step machine.

    One step is one allocation, atomic load, store or weak compare-exchange of one thread; a weak
    compare-exchange may fail at will and memory is sequentially consistent.  Nodes are numbered
    in allocation order and are never reused before destruction. */
module MichaelScott {
  import opened Prelude

  /** head_ and tail_ (never null while the queue lives) and the next field of a node. */
  datatype Anchor = Anchor(ptr: nat, count: int)
  datatype Link = Link(ptr: Option<nat>, count: int)

  datatype Pc =
    | Idle
    | Crashed
    | EnqNew(value: int)
    | EnqTail(node: nat)
    | EnqNext(node: nat, tail: Anchor)
    | EnqCheck(node: nat, tail: Anchor, next: Link)
    | EnqLink(node: nat, tail: Anchor, next: Link)
    | EnqHelp(node: nat, tail: Anchor, next: Link)
    | EnqSwing(node: nat, tail: Anchor)
    | DeqHead
    | DeqTail(head: Anchor)
    | DeqNext(head: Anchor, tail: Anchor)
    | DeqCheck(head: Anchor, tail: Anchor, next: Link, sawEmpty: bool)
    | DeqHelp(head: Anchor, tail: Anchor, next: Link)
    | DeqRead(head: Anchor, next: Link)
    | DeqSwing(head: Anchor, next: Link, value: int)
    | RetLoad(node: nat, value: int)
    | RetLink(node: nat, value: int, retired: Option<nat>)
    | RetCas(node: nat, value: int, retired: Option<nat>)

  /** Who is responsible for a node: its enqueuer until it is linked at some position, then the
      queue, then the dequeuer that removed it, and finally the retired list. */
  datatype Owner = Fresh(enqueuer: nat) | Linked(pos: nat, stage: Stage)
  datatype Stage = Active | InFlight(dequeuer: nat) | Retired(slot: nat)

  /** chain (every node ever linked, in link order), owners, retired (every node ever retired, oldest
      first), dequeued and the sawEmpty flag are history variables: no step reads them. */
  datatype State = State(
    value: seq<int>, next: seq<Link>, gcNext: seq<Option<nat>>,
    head: Anchor, tail: Anchor, retiredHead: Option<nat>, threads: seq<Pc>,
    chain: seq<nat>, owners: seq<Owner>, retired: seq<nat>, dequeued: seq<int>)

  datatype Action = StartEnqueue(value: int) | StartDequeue | Run(spurious: bool)

  predicate PcInRange(pc: Pc, n: nat) {
    && (pc.EnqTail? || pc.EnqNext? || pc.EnqCheck? || pc.EnqLink? || pc.EnqHelp? || pc.EnqSwing? || pc.RetLoad? || pc.RetLink? || pc.RetCas? ==> pc.node < n)
    && (pc.EnqNext? || pc.EnqCheck? || pc.EnqLink? || pc.EnqHelp? || pc.EnqSwing? || pc.DeqNext? || pc.DeqCheck? || pc.DeqHelp? ==> pc.tail.ptr < n)
    && (pc.DeqTail? || pc.DeqNext? || pc.DeqCheck? || pc.DeqHelp? || pc.DeqRead? || pc.DeqSwing? ==> pc.head.ptr < n)
    && ((pc.EnqCheck? || pc.EnqLink? || pc.EnqHelp? || pc.DeqCheck? || pc.DeqHelp? || pc.DeqRead? || pc.DeqSwing?) && pc.next.ptr.Some? ==> pc.next.ptr.value < n)
    && (pc.EnqHelp? || pc.DeqHelp? || pc.DeqSwing? ==> pc.next.ptr.Some?)
  }

  /** Every pointer refers to an allocated node. */
  predicate InRange(s: State) {
    && |s.value| == |s.next| == |s.gcNext| == |s.owners|
    && s.head.ptr < |s.value| && s.tail.ptr < |s.value|
    && NextInRange(s.next, |s.value|)
    && ThreadsInRange(s.threads, |s.value|)
  }

  predicate NextInRange(next: seq<Link>, n: nat) {
    forall m :: 0 <= m < |next| && next[m].ptr.Some? ==> next[m].ptr.value < n
  }

  predicate ThreadsInRange(threads: seq<Pc>, n: nat) {
    forall t :: 0 <= t < |threads| ==> PcInRange(threads[t], n)
  }

  predicate Enabled(s: State, t: nat, a: Action) {
    t < |s.threads| && !s.threads[t].Crashed? && (s.threads[t].Idle? <==> !a.Run?)
  }

  // -------------------------------------------------------------------- the steps

  function Goto(s: State, t: nat, pc: Pc): State
    requires t < |s.threads|
  {
    s.(threads := s.threads[t := pc])
  }

  function Allocate(s: State, t: nat, value: int): State {
    s.(value := s.value + [value], next := s.next + [Link(None, 1)], gcNext := s.gcNext + [None], owners := s.owners + [Fresh(t)])
  }

  predicate Enqueuing(pc: Pc) {
    pc.EnqNew? || pc.EnqTail? || pc.EnqNext? || pc.EnqCheck? || pc.EnqLink? || pc.EnqHelp? || pc.EnqSwing?
  }

  predicate Retiring(pc: Pc) {
    pc.RetLoad? || pc.RetLink? || pc.RetCas?
  }

  predicate Dequeuing(pc: Pc) {
    !pc.Idle? && !pc.Crashed? && !Enqueuing(pc) && !Retiring(pc)
  }

  /** The compare-exchange of tail_ that all three sites share. */
  function SwingTail(s: State, expected: Anchor, node: nat, spurious: bool): State {
    if s.tail == expected && !spurious then s.(tail := Anchor(node, expected.count + 1)) else s
  }

  function EnqStep(s: State, t: nat, spurious: bool): State
    requires InRange(s) && t < |s.threads| && Enqueuing(s.threads[t])
  {
    match s.threads[t]
    case EnqNew(v) => Goto(Allocate(s, t, v), t, EnqTail(|s.value|))
    case EnqTail(n) => Goto(s, t, EnqNext(n, s.tail))
    case EnqNext(n, tail) => Goto(s, t, EnqCheck(n, tail, s.next[tail.ptr]))
    case EnqCheck(n, tail, next) =>
      Goto(s, t, if tail != s.tail then EnqTail(n) else if next.ptr.None? then EnqLink(n, tail, next) else EnqHelp(n, tail, next))
    case EnqLink(n, tail, next) =>
      if s.next[tail.ptr] == next && !spurious
      then Goto(s.(next := s.next[tail.ptr := Link(Some(n), next.count + 1)], chain := s.chain + [n], owners := s.owners[n := Linked(|s.chain|, Active)]), t, EnqSwing(n, tail))
      else Goto(s, t, EnqTail(n))
    case EnqHelp(n, tail, next) => Goto(SwingTail(s, tail, next.ptr.value, spurious), t, EnqTail(n))
    case EnqSwing(n, tail) => Goto(SwingTail(s, tail, n, spurious), t, Idle)
  }

  function DeqStep(s: State, t: nat, spurious: bool): State
    requires InRange(s) && t < |s.threads| && Dequeuing(s.threads[t])
  {
    match s.threads[t]
    case DeqHead => Goto(s, t, DeqTail(s.head))
    case DeqTail(head) => Goto(s, t, DeqNext(head, s.tail))
    case DeqNext(head, tail) => Goto(s, t, DeqCheck(head, tail, s.next[head.ptr], |s.dequeued| + 1 == |s.chain|))
    case DeqCheck(head, tail, next, _) =>
      Goto(s, t,
           if head != s.head then DeqHead
           else if head.ptr == tail.ptr then (if next.ptr.None? then Idle else DeqHelp(head, tail, next))
           else DeqRead(head, next))
    case DeqHelp(head, tail, next) => Goto(SwingTail(s, tail, next.ptr.value, spurious), t, DeqHead)
    case DeqRead(head, next) =>
      if next.ptr.None? then Goto(s, t, Crashed) else Goto(s, t, DeqSwing(head, next, s.value[next.ptr.value]))
    case DeqSwing(head, next, v) =>
      if s.head == head && !spurious
      then Goto(s.(head := Anchor(next.ptr.value, head.count + 1), dequeued := s.dequeued + [v], owners := s.owners[head.ptr := Linked(|s.dequeued|, InFlight(t))]), t, RetLoad(head.ptr, v))
      else Goto(s, t, DeqHead)
  }

  function Enretired(o: Owner, slot: nat): Owner {
    if o.Linked? then o.(stage := Retired(slot)) else o
  }

  function RetStep(s: State, t: nat, spurious: bool): State
    requires InRange(s) && t < |s.threads| && Retiring(s.threads[t])
  {
    match s.threads[t]
    case RetLoad(n, v) => Goto(s, t, RetLink(n, v, s.retiredHead))
    case RetLink(n, v, r) => Goto(s.(gcNext := s.gcNext[n := r]), t, RetCas(n, v, r))
    case RetCas(n, v, r) =>
      if s.retiredHead == r && !spurious
      then Goto(s.(retiredHead := Some(n), retired := s.retired + [n], owners := s.owners[n := Enretired(s.owners[n], |s.retired|)]), t, Idle)
      else Goto(s, t, RetLink(n, v, s.retiredHead))
  }

  function Step(s: State, t: nat, a: Action): State
    requires InRange(s) && Enabled(s, t, a)
  {
    var pc := s.threads[t];
    if pc.Idle? then Goto(s, t, if a.StartEnqueue? then EnqNew(a.value) else DeqHead)
    else if Enqueuing(pc) then EnqStep(s, t, a.spurious)
    else if Retiring(pc) then RetStep(s, t, a.spurious)
    else DeqStep(s, t, a.spurious)
  }

  // ---------------------------------------------------------------- the invariant

  /** An anchor's counter tells its position in link order. */
  predicate At(chain: seq<nat>, a: Anchor) {
    2 <= a.count < |chain| + 2 && a.ptr == chain[a.count - 2]
  }

  function LinkAfter(chain: seq<nat>, i: nat): Link
    requires i < |chain|
  {
    if i + 1 < |chain| then Link(Some(chain[i + 1]), 2) else Link(None, 1)
  }

  /** A next value read from the node at an anchor: what is there now, or null from before. */
  predicate Seen(chain: seq<nat>, a: Anchor, x: Link) {
    At(chain, a) && (x == Link(None, 1) || x == LinkAfter(chain, a.count - 2))
  }

  /** The next fields of the linked nodes spell the chain. */
  ghost predicate Spelled(chain: seq<nat>, next: seq<Link>) {
    forall i :: 0 <= i < |chain| ==> chain[i] < |next| && next[chain[i]] == LinkAfter(chain, i)
  }

  /** A node is in the chain exactly when its owner says so, and at that position. */
  ghost predicate Positioned(chain: seq<nat>, owners: seq<Owner>) {
    && (forall i :: 0 <= i < |chain| ==> chain[i] < |owners| && owners[chain[i]].Linked? && owners[chain[i]].pos == i)
    && (forall n :: 0 <= n < |owners| && owners[n].Linked? ==> owners[n].pos < |chain| && chain[owners[n].pos] == n)
  }

  /** The active nodes are those from the head position on. */
  ghost predicate Staged(popped: nat, owners: seq<Owner>) {
    forall n :: 0 <= n < |owners| && owners[n].Linked? ==> (owners[n].stage.Active? <==> popped <= owners[n].pos)
  }

  /** The enqueuer still has the node to itself. */
  predicate Holding(pc: Pc, n: nat) {
    HasNode(pc) && pc.node == n
  }

  predicate HasNode(pc: Pc) {
    pc.EnqTail? || pc.EnqNext? || pc.EnqCheck? || pc.EnqLink? || pc.EnqHelp?
  }

  predicate Removing(pc: Pc, n: nat) {
    Retiring(pc) && pc.node == n
  }

  ghost predicate FreshHeld(owners: seq<Owner>, threads: seq<Pc>) {
    forall n :: 0 <= n < |owners| && owners[n].Fresh? ==> owners[n].enqueuer < |threads| && Holding(threads[owners[n].enqueuer], n)
  }

  ghost predicate InFlightHeld(owners: seq<Owner>, threads: seq<Pc>) {
    forall n :: 0 <= n < |owners| && owners[n].Linked? && owners[n].stage.InFlight? ==>
      owners[n].stage.dequeuer < |threads| && Removing(threads[owners[n].stage.dequeuer], n)
  }

  /** A node is retired exactly when its owner says so, and in that slot. */
  ghost predicate Slotted(retired: seq<nat>, owners: seq<Owner>) {
    && (forall k :: 0 <= k < |retired| ==> retired[k] < |owners| && owners[retired[k]].Linked? && owners[retired[k]].stage == Retired(k))
    && (forall n :: 0 <= n < |owners| && owners[n].Linked? && owners[n].stage.Retired? ==> owners[n].stage.slot < |retired| && retired[owners[n].stage.slot] == n)
  }

  function GcAfter(retired: seq<nat>, k: int): Option<nat>
    requires -1 <= k < |retired|
  {
    if k < 0 then None else Some(retired[k])
  }

  /** The gc links from retired_head_ spell the retired nodes, newest first. */
  ghost predicate GcSpelled(p: Option<nat>, retired: seq<nat>, gcNext: seq<Option<nat>>) {
    && p == GcAfter(retired, |retired| - 1)
    && (forall k :: 0 <= k < |retired| ==> retired[k] < |gcNext| && gcNext[retired[k]] == GcAfter(retired, k - 1))
  }

  /** head_ has moved once per dequeue; tail_ is between it and the end, at most one behind the end. */
  ghost predicate Ends(chain: seq<nat>, head: Anchor, tail: Anchor, popped: nat) {
    && At(chain, head) && At(chain, tail)
    && head.count == popped + 2 && head.count <= tail.count && |chain| <= tail.count
  }

  /** The dequeued values are the values of the first linked nodes after the initial one. */
  ghost predicate Taken(chain: seq<nat>, value: seq<int>, dequeued: seq<int>) {
    && |dequeued| < |chain|
    && (forall i :: 0 <= i < |dequeued| ==> TakenAt(chain, value, dequeued, i))
  }

  predicate TakenAt(chain: seq<nat>, value: seq<int>, dequeued: seq<int>, i: nat)
    requires i < |dequeued| < |chain|
  {
    chain[i + 1] < |value| && dequeued[i] == value[chain[i + 1]]
  }

  ghost predicate SharedOk(s: State) {
    && InRange(s)
    && Spelled(s.chain, s.next)
    && Positioned(s.chain, s.owners)
    && Staged(|s.dequeued|, s.owners)
    && FreshHeld(s.owners, s.threads)
    && InFlightHeld(s.owners, s.threads)
    && Slotted(s.retired, s.owners)
    && GcSpelled(s.retiredHead, s.retired, s.gcNext)
    && Ends(s.chain, s.head, s.tail, |s.dequeued|)
    && Taken(s.chain, s.value, s.dequeued)
  }

  ghost predicate TailSeen(s: State, tail: Anchor) {
    At(s.chain, tail) && tail.count <= s.tail.count
  }

  ghost predicate HeadSeen(s: State, head: Anchor) {
    At(s.chain, head) && head.count <= s.head.count
  }

  /** head was read and its successor was linked and within tail_ when next was read. */
  ghost predicate Removable(s: State, head: Anchor, x: Link) {
    HeadSeen(s, head) && head.count < s.tail.count && head.count - 1 < |s.chain| && x == Link(Some(s.chain[head.count - 1]), 2)
  }

  predicate IsFresh(s: State, n: nat, t: nat) {
    n < |s.owners| && n < |s.next| && s.owners[n] == Fresh(t) && s.next[n] == Link(None, 1)
  }

  predicate IsInFlight(s: State, n: nat, t: nat) {
    n < |s.owners| && s.owners[n].Linked? && s.owners[n].stage == InFlight(t)
  }

  /** What thread t, about to run pc, may rely on. */
  ghost predicate Knows(s: State, t: nat, pc: Pc) {
    match pc
    case Idle => true
    case Crashed => false
    case EnqNew(_) => true
    case EnqTail(n) => IsFresh(s, n, t)
    case EnqNext(n, tail) => IsFresh(s, n, t) && TailSeen(s, tail)
    case EnqCheck(n, tail, x) => IsFresh(s, n, t) && TailSeen(s, tail) && Seen(s.chain, tail, x)
    case EnqLink(n, tail, x) => IsFresh(s, n, t) && TailSeen(s, tail) && x == Link(None, 1)
    case EnqHelp(n, tail, x) => IsFresh(s, n, t) && TailSeen(s, tail) && Seen(s.chain, tail, x)
    case EnqSwing(n, tail) => TailSeen(s, tail) && tail.count - 1 < |s.chain| && s.chain[tail.count - 1] == n
    case DeqHead => true
    case DeqTail(head) => HeadSeen(s, head)
    case DeqNext(head, tail) => HeadSeen(s, head) && TailSeen(s, tail) && head.count <= tail.count
    case DeqCheck(head, tail, x, sawEmpty) =>
      && HeadSeen(s, head) && TailSeen(s, tail) && head.count <= tail.count && Seen(s.chain, head, x)
      && (head.count < tail.count ==> x.ptr.Some?)
      && (x.ptr.None? ==> sawEmpty)
    case DeqHelp(head, tail, x) => TailSeen(s, tail) && Seen(s.chain, tail, x)
    case DeqRead(head, x) => Removable(s, head, x)
    case DeqSwing(head, x, v) => Removable(s, head, x) && x.ptr.value < |s.value| && v == s.value[x.ptr.value]
    case RetLoad(n, _) => IsInFlight(s, n, t)
    case RetLink(n, _, _) => IsInFlight(s, n, t)
    case RetCas(n, _, r) => IsInFlight(s, n, t) && n < |s.gcNext| && s.gcNext[n] == r
  }

  ghost predicate ThreadOk(s: State, t: nat)
    requires t < |s.threads|
  {
    Knows(s, t, s.threads[t])
  }

  ghost predicate Inv(s: State) {
    SharedOk(s) && forall t :: 0 <= t < |s.threads| ==> ThreadOk(s, t)
  }

  // ------------------------------------------------------------------ preservation

  /** How the shared state may change under one step of thread t. */
  ghost predicate Evolves(s: State, t: nat, u: State) {
    && |u.threads| == |s.threads| && (forall v :: 0 <= v < |s.threads| && v != t ==> u.threads[v] == s.threads[v])
    && s.chain <= u.chain
    && s.value <= u.value
    && s.head.count <= u.head.count && s.tail.count <= u.tail.count
    && |s.owners| <= |u.owners| && |s.next| <= |u.next| && |s.gcNext| <= |u.gcNext|
    && (forall n: nat, v: nat :: v != t && IsFresh(s, n, v) ==> IsFresh(u, n, v))
    && (forall n: nat, v: nat :: v != t && IsInFlight(s, n, v) ==> IsInFlight(u, n, v) && (n < |s.gcNext| ==> u.gcNext[n] == s.gcNext[n]))
  }

  /** Knowledge about the chain and the ends is never lost. */
  lemma AnchorsStable(s: State, u: State, a: Anchor, x: Link)
    requires s.chain <= u.chain && s.head.count <= u.head.count && s.tail.count <= u.tail.count
    ensures Seen(s.chain, a, x) ==> Seen(u.chain, a, x)
    ensures TailSeen(s, a) ==> TailSeen(u, a)
    ensures HeadSeen(s, a) ==> HeadSeen(u, a)
    ensures Removable(s, a, x) ==> Removable(u, a, x)
  {
  }

  /** What another thread knows stays true while the chain only grows and the ends only advance. */
  lemma OtherThread(s: State, t: nat, u: State, v: nat)
    requires Evolves(s, t, u) && v < |s.threads| && v != t && ThreadOk(s, v)
    ensures ThreadOk(u, v)
  {
    assert u.threads[v] == s.threads[v];
    match s.threads[v]
    case EnqNext(_, a) => AnchorsStable(s, u, a, Link(None, 1));
    case EnqCheck(_, a, x) => AnchorsStable(s, u, a, x);
    case EnqLink(_, a, x) => AnchorsStable(s, u, a, x);
    case EnqHelp(_, a, x) => AnchorsStable(s, u, a, x);
    case EnqSwing(_, a) => AnchorsStable(s, u, a, Link(None, 1));
    case DeqTail(h) => AnchorsStable(s, u, h, Link(None, 1));
    case DeqNext(h, a) => AnchorsStable(s, u, h, Link(None, 1)); AnchorsStable(s, u, a, Link(None, 1));
    case DeqCheck(h, a, x, _) => AnchorsStable(s, u, h, x); AnchorsStable(s, u, a, x);
    case DeqHelp(_, a, x) => AnchorsStable(s, u, a, x);
    case DeqRead(h, x) => AnchorsStable(s, u, h, x);
    case DeqSwing(h, x, _) => AnchorsStable(s, u, h, x);
    case _ =>
    hide At, Seen, TailSeen, HeadSeen, Removable;
  }

  /** The program counter keeps answering for the node it answers for. */
  predicate KeepsDuty(pc: Pc, after: Pc) {
    && (HasNode(pc) ==> HasNode(after) && after.node == pc.node)
    && (Retiring(pc) ==> Retiring(after) && after.node == pc.node)
  }

  lemma GotoInRange(threads: seq<Pc>, t: nat, pc: Pc, n: nat)
    requires ThreadsInRange(threads, n) && t < |threads| && PcInRange(pc, n)
    ensures ThreadsInRange(threads[t := pc], n)
  {
  }

  lemma DutyKept(owners: seq<Owner>, threads: seq<Pc>, t: nat, pc: Pc)
    requires FreshHeld(owners, threads) && InFlightHeld(owners, threads) && t < |threads| && KeepsDuty(threads[t], pc)
    ensures FreshHeld(owners, threads[t := pc]) && InFlightHeld(owners, threads[t := pc])
  {
  }

  /** A step that only moves one thread. */
  lemma LocalStep(s: State, t: nat, pc: Pc)
    requires SharedOk(s) && t < |s.threads| && PcInRange(pc, |s.value|) && KeepsDuty(s.threads[t], pc)
    ensures var u := Goto(s, t, pc); SharedOk(u) && Evolves(s, t, u)
  {
    hide NextInRange, ThreadsInRange, PcInRange, Spelled, Positioned, Staged, FreshHeld, InFlightHeld, Slotted, GcSpelled, Ends, Taken, KeepsDuty;
    GotoInRange(s.threads, t, pc, |s.value|);
    DutyKept(s.owners, s.threads, t, pc);
  }

  lemma AllocatedOwners(s: State, t: nat, v: int)
    requires SharedOk(s) && t < |s.threads| && s.threads[t] == EnqNew(v)
    ensures var owners, threads := s.owners + [Fresh(t)], s.threads[t := EnqTail(|s.value|)];
            && Positioned(s.chain, owners) && Staged(|s.dequeued|, owners) && Slotted(s.retired, owners)
            && FreshHeld(owners, threads) && InFlightHeld(owners, threads)
  {
    hide Spelled, GcSpelled, Ends, Taken;
  }

  lemma TakenOnAllocate(chain: seq<nat>, value: seq<int>, dequeued: seq<int>, v: int)
    requires Taken(chain, value, dequeued)
    ensures Taken(chain, value + [v], dequeued)
  {
    forall i | 0 <= i < |dequeued| ensures TakenAt(chain, value + [v], dequeued, i) {
      assert TakenAt(chain, value, dequeued, i);
    }
  }

  lemma AllocatedFields(s: State, t: nat, v: int)
    requires SharedOk(s) && t < |s.threads|
    ensures var n := |s.value|;
            && NextInRange(s.next + [Link(None, 1)], n + 1)
            && Spelled(s.chain, s.next + [Link(None, 1)])
            && GcSpelled(s.retiredHead, s.retired, s.gcNext + [None])
            && Taken(s.chain, s.value + [v], s.dequeued)
  {
    TakenOnAllocate(s.chain, s.value, s.dequeued, v);
    hide Positioned, Staged, FreshHeld, InFlightHeld, Slotted, Ends, Taken, ThreadsInRange;
  }

  lemma AllocatedThreads(threads: seq<Pc>, t: nat, n: nat)
    requires ThreadsInRange(threads, n) && t < |threads|
    ensures ThreadsInRange(threads[t := EnqTail(n)], n + 1)
  {
  }

  lemma AllocateStep(s: State, t: nat, v: int)
    requires SharedOk(s) && t < |s.threads| && s.threads[t] == EnqNew(v)
    ensures var u := Goto(Allocate(s, t, v), t, EnqTail(|s.value|)); SharedOk(u) && Evolves(s, t, u)
  {
    hide NextInRange, ThreadsInRange, PcInRange, Spelled, Positioned, Staged, FreshHeld, InFlightHeld, Slotted, GcSpelled, Ends, Taken;
    AllocatedOwners(s, t, v);
    AllocatedFields(s, t, v);
    AllocatedThreads(s.threads, t, |s.value|);
  }

  /** Appending a fresh node after the last one. */
  lemma SpelledAppend(chain: seq<nat>, next: seq<Link>, owners: seq<Owner>, tail: Anchor, n: nat)
    requires Spelled(chain, next) && Positioned(chain, owners) && At(chain, tail)
    requires n < |owners| && owners[n].Fresh? && n < |next| && next[n] == Link(None, 1) && next[tail.ptr] == Link(None, 1)
    ensures tail.count == |chain| + 1
    ensures Spelled(chain + [n], next[tail.ptr := Link(Some(n), 2)])
    ensures Positioned(chain + [n], owners[n := Linked(|chain|, Active)])
  {
    var i := tail.count - 2;
    assert next[chain[i]] == LinkAfter(chain, i);
    var after := chain + [n];
    forall j | 0 <= j < |after| ensures after[j] < |next| && next[tail.ptr := Link(Some(n), 2)][after[j]] == LinkAfter(after, j) {
      if j < i {
        assert after[j] == chain[j] && owners[chain[j]].pos == j && owners[chain[i]].pos == i;
      }
    }
  }

  lemma LinkOwners(s: State, t: nat, n: nat, pc: Pc)
    requires SharedOk(s) && t < |s.threads| && IsFresh(s, n, t) && Holding(s.threads[t], n) && !Retiring(s.threads[t])
    ensures var owners, threads := s.owners[n := Linked(|s.chain|, Active)], s.threads[t := pc];
            Staged(|s.dequeued|, owners) && Slotted(s.retired, owners) && FreshHeld(owners, threads) && InFlightHeld(owners, threads)
  {
    hide Spelled, GcSpelled, Ends, InRange;
  }

  lemma TakenOnLink(chain: seq<nat>, value: seq<int>, dequeued: seq<int>, n: nat)
    requires Taken(chain, value, dequeued)
    ensures Taken(chain + [n], value, dequeued)
  {
    forall i | 0 <= i < |dequeued| ensures TakenAt(chain + [n], value, dequeued, i) {
      assert TakenAt(chain, value, dequeued, i);
    }
  }

  lemma TakenOnPop(chain: seq<nat>, value: seq<int>, dequeued: seq<int>, v: int)
    requires Taken(chain, value, dequeued) && |dequeued| + 1 < |chain|
    requires chain[|dequeued| + 1] < |value| && v == value[chain[|dequeued| + 1]]
    ensures Taken(chain, value, dequeued + [v])
  {
    var after := dequeued + [v];
    forall i | 0 <= i < |after| ensures TakenAt(chain, value, after, i) {
      assert i < |dequeued| ==> TakenAt(chain, value, dequeued, i);
    }
  }

  lemma LinkFields(s: State, t: nat, n: nat, tail: Anchor)
    requires SharedOk(s) && t < |s.threads| && n < |s.value| && TailSeen(s, tail) && tail.count == |s.chain| + 1 && tail.ptr < |s.next|
    ensures var next := s.next[tail.ptr := Link(Some(n), 2)];
            && NextInRange(next, |s.value|)
            && ThreadsInRange(s.threads[t := EnqSwing(n, tail)], |s.value|)
            && Ends(s.chain + [n], s.head, s.tail, |s.dequeued|)
            && Taken(s.chain + [n], s.value, s.dequeued)
  {
    TakenOnLink(s.chain, s.value, s.dequeued, n);
    hide Positioned, Staged, FreshHeld, InFlightHeld, Slotted, GcSpelled, Spelled, Taken;
  }

  lemma LinkStep(s: State, t: nat, n: nat, tail: Anchor)
    requires SharedOk(s) && t < |s.threads| && s.threads[t] == EnqLink(n, tail, Link(None, 1))
    requires IsFresh(s, n, t) && TailSeen(s, tail)
    requires tail.ptr < |s.next| && s.next[tail.ptr] == Link(None, 1)
    ensures var u := s.(next := s.next[tail.ptr := Link(Some(n), 2)], chain := s.chain + [n],
                        owners := s.owners[n := Linked(|s.chain|, Active)], threads := s.threads[t := EnqSwing(n, tail)]);
            SharedOk(u) && Evolves(s, t, u) && TailSeen(u, tail) && tail.count - 1 < |u.chain| && u.chain[tail.count - 1] == n
  {
    hide NextInRange, ThreadsInRange, PcInRange, Spelled, Positioned, Staged, FreshHeld, InFlightHeld, Slotted, GcSpelled, Ends, Taken;
    SpelledAppend(s.chain, s.next, s.owners, tail, n);
    LinkOwners(s, t, n, EnqSwing(n, tail));
    LinkFields(s, t, n, tail);
    NotFresh(s, tail);
  }

  /** A node whose anchor is known is in the chain, hence nobody's fresh node. */
  lemma NotFresh(s: State, a: Anchor)
    requires Positioned(s.chain, s.owners) && At(s.chain, a)
    ensures a.ptr < |s.owners| && s.owners[a.ptr].Linked? && s.owners[a.ptr].pos == a.count - 2
  {
  }

  lemma EndsSwing(chain: seq<nat>, head: Anchor, tail: Anchor, popped: nat, node: nat, next: seq<Link>)
    requires Ends(chain, head, tail, popped) && Spelled(chain, next)
    requires tail.count - 1 < |chain| && chain[tail.count - 1] == node
    ensures Ends(chain, head, Anchor(node, tail.count + 1), popped) && node < |next|
  {
  }

  /** tail_ advances by one position to the node after the expected one. */
  lemma SwingStep(s: State, t: nat, expected: Anchor, node: nat, pc: Pc)
    requires SharedOk(s) && t < |s.threads| && s.tail == expected
    requires 1 <= expected.count && expected.count - 1 < |s.chain| && s.chain[expected.count - 1] == node
    requires PcInRange(pc, |s.value|) && KeepsDuty(s.threads[t], pc)
    ensures var u := Goto(SwingTail(s, expected, node, false), t, pc); SharedOk(u) && Evolves(s, t, u)
  {
    hide NextInRange, ThreadsInRange, PcInRange, Spelled, Positioned, Staged, FreshHeld, InFlightHeld, Slotted, GcSpelled, Ends, Taken, KeepsDuty;
    EndsSwing(s.chain, s.head, s.tail, |s.dequeued|, node, s.next);
    LocalStep(s.(tail := Anchor(node, expected.count + 1)), t, pc);
  }

  lemma PopOwners(s: State, t: nat, pc: Pc)
    requires SharedOk(s) && t < |s.threads| && (forall n: nat :: !Holding(s.threads[t], n) && !Removing(s.threads[t], n))
    requires Removing(pc, s.head.ptr)
    ensures var owners, threads := s.owners[s.head.ptr := Linked(|s.dequeued|, InFlight(t))], s.threads[t := pc];
            && Positioned(s.chain, owners) && Staged(|s.dequeued| + 1, owners) && Slotted(s.retired, owners)
            && FreshHeld(owners, threads) && InFlightHeld(owners, threads)
    ensures s.owners[s.head.ptr] == Linked(|s.dequeued|, Active)
  {
    assert s.head.ptr == s.chain[|s.dequeued|] && s.owners[s.chain[|s.dequeued|]].Linked?;
    hide SharedOk;
    PopStages(s.chain, s.owners, |s.dequeued|, t);
    PopSlots(s.retired, s.owners, s.head.ptr, |s.dequeued|, t);
    PopHolders(s.owners, s.threads, s.head.ptr, |s.dequeued|, t, pc);
  }

  lemma PopStages(chain: seq<nat>, owners: seq<Owner>, popped: nat, t: nat)
    requires Positioned(chain, owners) && Staged(popped, owners) && popped < |chain|
    ensures var after := owners[chain[popped] := Linked(popped, InFlight(t))]; Positioned(chain, after) && Staged(popped + 1, after)
    ensures owners[chain[popped]] == Linked(popped, Active)
  {
    assert owners[chain[popped]].pos == popped;
  }

  lemma PopSlots(retired: seq<nat>, owners: seq<Owner>, n: nat, popped: nat, t: nat)
    requires Slotted(retired, owners) && n < |owners| && owners[n] == Linked(popped, Active)
    ensures Slotted(retired, owners[n := Linked(popped, InFlight(t))])
  {
  }

  lemma PopHolders(owners: seq<Owner>, threads: seq<Pc>, n: nat, popped: nat, t: nat, pc: Pc)
    requires FreshHeld(owners, threads) && InFlightHeld(owners, threads) && t < |threads| && n < |owners| && owners[n] == Linked(popped, Active)
    requires (forall m: nat :: !Holding(threads[t], m) && !Removing(threads[t], m)) && Removing(pc, n)
    ensures var after, moved := owners[n := Linked(popped, InFlight(t))], threads[t := pc];
            FreshHeld(after, moved) && InFlightHeld(after, moved)
  {
  }

  lemma PopEnds(chain: seq<nat>, head: Anchor, tail: Anchor, popped: nat, node: nat)
    requires Ends(chain, head, tail, popped) && head.count < tail.count && head.count - 1 < |chain| && node == chain[head.count - 1]
    ensures Ends(chain, Anchor(node, head.count + 1), tail, popped + 1) && popped + 1 < |chain| && node == chain[popped + 1]
  {
  }

  lemma PopFields(s: State, t: nat, head: Anchor, x: Link, v: int)
    requires SharedOk(s) && t < |s.threads| && s.head == head
    requires Removable(s, head, x) && x.ptr.value < |s.value| && v == s.value[x.ptr.value]
    ensures ThreadsInRange(s.threads[t := RetLoad(head.ptr, v)], |s.value|)
    ensures Ends(s.chain, Anchor(x.ptr.value, head.count + 1), s.tail, |s.dequeued| + 1)
    ensures Taken(s.chain, s.value, s.dequeued + [v])
  {
    hide NextInRange, ThreadsInRange, Positioned, Staged, FreshHeld, InFlightHeld, Slotted, GcSpelled, Spelled, Taken, Ends, At;
    PopEnds(s.chain, head, s.tail, |s.dequeued|, x.ptr.value);
    TakenOnPop(s.chain, s.value, s.dequeued, v);
    GotoInRange(s.threads, t, RetLoad(head.ptr, v), |s.value|);
  }

  /** head_ advances by one position: the value taken is the next one in link order. */
  lemma PopStep(s: State, t: nat, head: Anchor, x: Link, v: int)
    requires SharedOk(s) && t < |s.threads| && s.threads[t] == DeqSwing(head, x, v) && s.head == head
    requires Removable(s, head, x) && x.ptr.value < |s.value| && v == s.value[x.ptr.value]
    ensures head.ptr < |s.owners|
    ensures var u := s.(head := Anchor(x.ptr.value, head.count + 1), dequeued := s.dequeued + [v],
                        owners := s.owners[head.ptr := Linked(|s.dequeued|, InFlight(t))], threads := s.threads[t := RetLoad(head.ptr, v)]);
            SharedOk(u) && Evolves(s, t, u) && IsInFlight(u, head.ptr, t)
  {
    hide NextInRange, ThreadsInRange, PcInRange, Spelled, Positioned, Staged, FreshHeld, InFlightHeld, Slotted, GcSpelled, Ends, Taken;
    PopOwners(s, t, RetLoad(head.ptr, v));
    PopFields(s, t, head, x, v);
  }

  lemma GcFields(s: State, t: nat, n: nat, v: int, r: Option<nat>)
    requires SharedOk(s) && t < |s.threads| && s.threads[t] == RetLink(n, v, r) && IsInFlight(s, n, t)
    ensures ThreadsInRange(s.threads[t := RetCas(n, v, r)], |s.value|)
    ensures GcSpelled(s.retiredHead, s.retired, s.gcNext[n := r])
  {
    hide NextInRange, Positioned, Staged, FreshHeld, InFlightHeld, Spelled, Ends, Taken;
  }

  lemma StillRetiring(n: nat, v: int, r: Option<nat>)
    ensures KeepsDuty(RetLink(n, v, r), RetCas(n, v, r))
  {
  }

  /** Preparing the node for the retired list touches only its own gc link. */
  lemma GcStep(s: State, t: nat, n: nat, v: int, r: Option<nat>)
    requires SharedOk(s) && t < |s.threads| && s.threads[t] == RetLink(n, v, r) && IsInFlight(s, n, t)
    ensures var u := s.(gcNext := s.gcNext[n := r], threads := s.threads[t := RetCas(n, v, r)]); SharedOk(u) && Evolves(s, t, u)
  {
    hide NextInRange, ThreadsInRange, PcInRange, Spelled, Positioned, Staged, FreshHeld, InFlightHeld, Slotted, GcSpelled, Ends, Taken, KeepsDuty;
    StillRetiring(n, v, r);
    GcFields(s, t, n, v, r);
    DutyKept(s.owners, s.threads, t, RetCas(n, v, r));
  }

  lemma RetireOwners(s: State, t: nat, n: nat)
    requires SharedOk(s) && t < |s.threads| && IsInFlight(s, n, t) && Removing(s.threads[t], n)
    ensures var owners, threads := s.owners[n := Enretired(s.owners[n], |s.retired|)], s.threads[t := Idle];
            && Positioned(s.chain, owners) && Staged(|s.dequeued|, owners) && Slotted(s.retired + [n], owners)
            && FreshHeld(owners, threads) && InFlightHeld(owners, threads)
  {
    hide Spelled, GcSpelled, Taken, Ends, InRange;
  }

  lemma RetireFields(s: State, t: nat, n: nat, r: Option<nat>)
    requires SharedOk(s) && t < |s.threads| && n < |s.gcNext| && s.gcNext[n] == r && s.retiredHead == r
    ensures ThreadsInRange(s.threads[t := Idle], |s.value|)
    ensures GcSpelled(Some(n), s.retired + [n], s.gcNext)
  {
    hide NextInRange, Positioned, Staged, FreshHeld, InFlightHeld, Slotted, Spelled, Ends, Taken;
  }

  lemma RetireStep(s: State, t: nat, n: nat, v: int, r: Option<nat>)
    requires SharedOk(s) && t < |s.threads| && s.threads[t] == RetCas(n, v, r) && s.retiredHead == r
    requires IsInFlight(s, n, t) && n < |s.gcNext| && s.gcNext[n] == r
    ensures var u := s.(retiredHead := Some(n), retired := s.retired + [n],
                        owners := s.owners[n := Enretired(s.owners[n], |s.retired|)], threads := s.threads[t := Idle]);
            SharedOk(u) && Evolves(s, t, u)
  {
    hide NextInRange, ThreadsInRange, PcInRange, Spelled, Positioned, Staged, FreshHeld, InFlightHeld, Slotted, GcSpelled, Ends, Taken;
    RetireOwners(s, t, n);
    RetireFields(s, t, n, r);
  }

  // ------------------------------------------------------------ step by step

  ghost predicate StepOk(s: State, t: nat, u: State) {
    SharedOk(u) && Evolves(s, t, u) && t < |u.threads| && ThreadOk(u, t)
  }

  lemma PcOk(s: State, t: nat)
    requires Inv(s) && t < |s.threads|
    ensures InRange(s) && SharedOk(s) && ThreadOk(s, t) && PcInRange(s.threads[t], |s.value|)
  {
  }

  /** Knowledge does not depend on where the threads are. */
  lemma KnowsAfterGoto(s: State, t: nat, pc: Pc)
    requires t < |s.threads| && Knows(s, t, pc)
    ensures ThreadOk(Goto(s, t, pc), t)
  {
  }

  lemma LocalStepOk(s: State, t: nat, pc: Pc)
    requires SharedOk(s) && t < |s.threads| && PcInRange(pc, |s.value|) && KeepsDuty(s.threads[t], pc) && Knows(s, t, pc)
    ensures StepOk(s, t, Goto(s, t, pc))
  {
    hide SharedOk, PcInRange, KeepsDuty, Knows, ThreadOk, Evolves;
    LocalStep(s, t, pc);
    KnowsAfterGoto(s, t, pc);
  }

  /** The successor of a node whose next field was read as non-null. */
  lemma SeenSuccessor(chain: seq<nat>, a: Anchor, x: Link)
    requires Seen(chain, a, x) && x.ptr.Some?
    ensures 1 <= a.count && a.count - 1 < |chain| && chain[a.count - 1] == x.ptr.value
  {
  }

  /** What a load of the next field of an anchored node returns. */
  lemma NextLoaded(s: State, a: Anchor)
    requires SharedOk(s) && At(s.chain, a)
    ensures a.ptr < |s.next| && Seen(s.chain, a, s.next[a.ptr])
    ensures s.next[a.ptr].ptr.None? <==> a.count == |s.chain| + 1
    ensures s.next[a.ptr].ptr.Some? ==> s.next[a.ptr].ptr.value < |s.value|
  {
    hide Positioned, Staged, FreshHeld, InFlightHeld, Slotted, GcSpelled, Taken, ThreadsInRange;
  }

  lemma EndsKnown(s: State)
    requires SharedOk(s)
    ensures InRange(s) && TailSeen(s, s.tail) && HeadSeen(s, s.head) && s.head.count <= s.tail.count
    ensures s.tail.count - 2 < |s.chain| <= s.tail.count && s.head.count == |s.dequeued| + 2 && |s.dequeued| < |s.chain|
  {
  }

  lemma EnqTailOk(s: State, t: nat, n: nat)
    requires SharedOk(s) && t < |s.threads| && PcInRange(s.threads[t], |s.value|) && Holding(s.threads[t], n) && IsFresh(s, n, t)
    ensures StepOk(s, t, Goto(s, t, EnqTail(n)))
  {
    hide SharedOk, StepOk;
    LocalStepOk(s, t, EnqTail(n));
  }

  lemma EnqNextOk(s: State, t: nat, n: nat, tail: Anchor)
    requires SharedOk(s) && t < |s.threads| && s.threads[t] == EnqNext(n, tail) && PcInRange(s.threads[t], |s.value|)
    requires IsFresh(s, n, t) && TailSeen(s, tail)
    ensures tail.ptr < |s.next| && StepOk(s, t, Goto(s, t, EnqCheck(n, tail, s.next[tail.ptr])))
  {
    hide SharedOk, StepOk, Seen, NextInRange, ThreadsInRange;
    NextLoaded(s, tail);
    LocalStepOk(s, t, EnqCheck(n, tail, s.next[tail.ptr]));
  }

  lemma EnqCheckOk(s: State, t: nat, n: nat, tail: Anchor, x: Link)
    requires SharedOk(s) && t < |s.threads| && s.threads[t] == EnqCheck(n, tail, x) && PcInRange(s.threads[t], |s.value|)
    requires IsFresh(s, n, t) && TailSeen(s, tail) && Seen(s.chain, tail, x)
    ensures StepOk(s, t, Goto(s, t, if tail != s.tail then EnqTail(n) else if x.ptr.None? then EnqLink(n, tail, x) else EnqHelp(n, tail, x)))
  {
    hide SharedOk, StepOk, TailSeen, IsFresh, Goto;
    var pc := if tail != s.tail then EnqTail(n) else if x.ptr.None? then EnqLink(n, tail, x) else EnqHelp(n, tail, x);
    assert PcInRange(pc, |s.value|) && KeepsDuty(s.threads[t], pc) && Knows(s, t, pc);
    hide PcInRange, KeepsDuty, Knows, Seen;
    LocalStepOk(s, t, pc);
  }

  lemma EnqLinkOk(s: State, t: nat, n: nat, tail: Anchor)
    requires SharedOk(s) && t < |s.threads| && s.threads[t] == EnqLink(n, tail, Link(None, 1)) && PcInRange(s.threads[t], |s.value|)
    requires IsFresh(s, n, t) && TailSeen(s, tail) && tail.ptr < |s.next| && s.next[tail.ptr] == Link(None, 1)
    ensures n < |s.owners|
    ensures StepOk(s, t, Goto(s.(next := s.next[tail.ptr := Link(Some(n), 2)], chain := s.chain + [n],
                                 owners := s.owners[n := Linked(|s.chain|, Active)]), t, EnqSwing(n, tail)))
  {
    hide SharedOk, Evolves;
    LinkStep(s, t, n, tail);
  }

  /** The shared compare-exchange of tail_, whichever way it goes. */
  lemma SwingOk(s: State, t: nat, expected: Anchor, node: nat, pc: Pc, spurious: bool)
    requires SharedOk(s) && t < |s.threads| && 1 <= expected.count && expected.count - 1 < |s.chain| && s.chain[expected.count - 1] == node
    requires PcInRange(pc, |s.value|) && KeepsDuty(s.threads[t], pc) && Knows(s, t, pc)
    requires pc.Idle? || pc.EnqTail? || pc.DeqHead?
    ensures StepOk(s, t, Goto(SwingTail(s, expected, node, spurious), t, pc))
  {
    hide SharedOk, KeepsDuty, PcInRange, Evolves;
    if s.tail == expected && !spurious {
      SwingStep(s, t, expected, node, pc);
    } else {
      LocalStepOk(s, t, pc);
    }
  }

  lemma EnqueueStepOk(s: State, t: nat, spurious: bool)
    requires SharedOk(s) && t < |s.threads| && ThreadOk(s, t) && InRange(s) && PcInRange(s.threads[t], |s.value|) && Enqueuing(s.threads[t])
    ensures StepOk(s, t, EnqStep(s, t, spurious))
  {
    hide SharedOk, Seen, TailSeen, StepOk, Allocate, SwingTail, NextInRange, ThreadsInRange, IsFresh;
    match s.threads[t]
    case EnqNew(v) => AllocateStepOk(s, t, v);
    case EnqTail(n) => EndsKnown(s); LocalStepOk(s, t, EnqNext(n, s.tail));
    case EnqNext(n, tail) => EnqNextOk(s, t, n, tail);
    case EnqCheck(n, tail, x) => EnqCheckOk(s, t, n, tail, x);
    case EnqLink(n, tail, x) =>
      if s.next[tail.ptr] == x && !spurious { EnqLinkOk(s, t, n, tail); } else { EnqTailOk(s, t, n); }
    case EnqHelp(n, tail, x) =>
      SeenSuccessor(s.chain, tail, x);
      SwingOk(s, t, tail, x.ptr.value, EnqTail(n), spurious);
    case EnqSwing(n, tail) =>
      assert 2 <= tail.count by { SwingKnown(s, tail); }
      SwingOk(s, t, tail, n, Idle, spurious);
  }

  lemma SwingKnown(s: State, tail: Anchor)
    requires TailSeen(s, tail)
    ensures 2 <= tail.count
  {
  }

  lemma AllocateStepOk(s: State, t: nat, v: int)
    requires SharedOk(s) && t < |s.threads| && s.threads[t] == EnqNew(v)
    ensures StepOk(s, t, Goto(Allocate(s, t, v), t, EnqTail(|s.value|)))
  {
    AllocateStep(s, t, v);
    assert InRange(s);
    hide SharedOk, Evolves;
  }

  lemma ChecksOut(s: State, head: Anchor, tail: Anchor, x: Link)
    requires SharedOk(s) && HeadSeen(s, head) && TailSeen(s, tail) && head.count <= tail.count && Seen(s.chain, head, x)
    requires head == s.head && (head.count < tail.count ==> x.ptr.Some?)
    ensures head.ptr == tail.ptr ==> tail == head
    ensures head.ptr != tail.ptr ==> Removable(s, head, x)
  {
    if head.ptr == tail.ptr {
      NotFresh(s, head);
      NotFresh(s, tail);
    }
    hide SharedOk;
  }

  /** A head read earlier is not past tail_. */
  lemma HeadBelowTail(s: State, head: Anchor)
    requires SharedOk(s) && HeadSeen(s, head)
    ensures head.count <= s.tail.count
  {
  }

  lemma SeenAt(s: State, head: Anchor, tail: Anchor)
    requires HeadSeen(s, head) && TailSeen(s, tail)
    ensures At(s.chain, head) && head.count <= s.head.count && tail.count < |s.chain| + 2
  {
  }

  lemma DeqNextOk(s: State, t: nat, head: Anchor, tail: Anchor)
    requires SharedOk(s) && t < |s.threads| && s.threads[t] == DeqNext(head, tail) && PcInRange(s.threads[t], |s.value|)
    requires HeadSeen(s, head) && TailSeen(s, tail) && head.count <= tail.count
    ensures head.ptr < |s.next| && StepOk(s, t, Goto(s, t, DeqCheck(head, tail, s.next[head.ptr], |s.dequeued| + 1 == |s.chain|)))
  {
    hide SharedOk, StepOk, Seen, Goto, TailSeen, HeadSeen, NextInRange, ThreadsInRange;
    SeenAt(s, head, tail);
    NextLoaded(s, head);
    EndsKnown(s);
    var pc := DeqCheck(head, tail, s.next[head.ptr], |s.dequeued| + 1 == |s.chain|);
    assert PcInRange(pc, |s.value|) && KeepsDuty(s.threads[t], pc) && Knows(s, t, pc);
    hide PcInRange, KeepsDuty, Knows;
    LocalStepOk(s, t, pc);
  }

  lemma DeqCheckOk(s: State, t: nat, head: Anchor, tail: Anchor, x: Link, sawEmpty: bool)
    requires SharedOk(s) && t < |s.threads| && s.threads[t] == DeqCheck(head, tail, x, sawEmpty) && PcInRange(s.threads[t], |s.value|)
    requires HeadSeen(s, head) && TailSeen(s, tail) && head.count <= tail.count && Seen(s.chain, head, x)
    requires head.count < tail.count ==> x.ptr.Some?
    ensures StepOk(s, t, Goto(s, t, if head != s.head then DeqHead
                                    else if head.ptr == tail.ptr then (if x.ptr.None? then Idle else DeqHelp(head, tail, x))
                                    else DeqRead(head, x)))
  {
    hide SharedOk, StepOk, Seen, TailSeen, HeadSeen, Removable, Goto;
    if head == s.head { ChecksOut(s, head, tail, x); }
    var pc := if head != s.head then DeqHead
              else if head.ptr == tail.ptr then (if x.ptr.None? then Idle else DeqHelp(head, tail, x))
              else DeqRead(head, x);
    assert PcInRange(pc, |s.value|) && KeepsDuty(s.threads[t], pc) && Knows(s, t, pc);
    hide PcInRange, KeepsDuty, Knows;
    LocalStepOk(s, t, pc);
  }

  lemma DeqReadOk(s: State, t: nat, head: Anchor, x: Link)
    requires SharedOk(s) && t < |s.threads| && s.threads[t] == DeqRead(head, x) && PcInRange(s.threads[t], |s.value|) && Removable(s, head, x)
    ensures x.ptr.Some? && x.ptr.value < |s.value|
    ensures StepOk(s, t, Goto(s, t, DeqSwing(head, x, s.value[x.ptr.value])))
  {
    hide SharedOk, StepOk, HeadSeen;
    LocalStepOk(s, t, DeqSwing(head, x, s.value[x.ptr.value]));
  }

  lemma DeqSwingOk(s: State, t: nat, head: Anchor, x: Link, v: int)
    requires SharedOk(s) && t < |s.threads| && s.threads[t] == DeqSwing(head, x, v) && s.head == head
    requires Removable(s, head, x) && x.ptr.value < |s.value| && v == s.value[x.ptr.value]
    ensures head.ptr < |s.owners|
    ensures StepOk(s, t, Goto(s.(head := Anchor(x.ptr.value, head.count + 1), dequeued := s.dequeued + [v],
                                 owners := s.owners[head.ptr := Linked(|s.dequeued|, InFlight(t))]), t, RetLoad(head.ptr, v)))
  {
    hide SharedOk, Evolves;
    PopStep(s, t, head, x, v);
  }

  lemma DequeueStepOk(s: State, t: nat, spurious: bool)
    requires SharedOk(s) && t < |s.threads| && ThreadOk(s, t) && InRange(s) && PcInRange(s.threads[t], |s.value|) && Dequeuing(s.threads[t])
    ensures StepOk(s, t, DeqStep(s, t, spurious))
  {
    hide SharedOk, Seen, TailSeen, HeadSeen, StepOk, SwingTail, NextInRange, ThreadsInRange, Goto;
    EndsKnown(s);
    match s.threads[t]
    case DeqHead => LocalStepOk(s, t, DeqTail(s.head));
    case DeqTail(head) => HeadBelowTail(s, head); LocalStepOk(s, t, DeqNext(head, s.tail));
    case DeqNext(head, tail) => DeqNextOk(s, t, head, tail);
    case DeqCheck(head, tail, x, sawEmpty) => DeqCheckOk(s, t, head, tail, x, sawEmpty);
    case DeqHelp(head, tail, x) =>
      SeenSuccessor(s.chain, tail, x);
      SwingOk(s, t, tail, x.ptr.value, DeqHead, spurious);
    case DeqRead(head, x) => DeqReadOk(s, t, head, x);
    case DeqSwing(head, x, v) =>
      if s.head == head && !spurious { DeqSwingOk(s, t, head, x, v); } else { LocalStepOk(s, t, DeqHead); }
  }

  lemma GcStepOk(s: State, t: nat, n: nat, v: int, r: Option<nat>)
    requires SharedOk(s) && t < |s.threads| && s.threads[t] == RetLink(n, v, r) && IsInFlight(s, n, t) && n < |s.gcNext|
    ensures StepOk(s, t, Goto(s.(gcNext := s.gcNext[n := r]), t, RetCas(n, v, r)))
  {
    hide SharedOk, Evolves;
    GcStep(s, t, n, v, r);
  }

  lemma RetireCasOk(s: State, t: nat, n: nat, v: int, r: Option<nat>)
    requires SharedOk(s) && t < |s.threads| && s.threads[t] == RetCas(n, v, r) && s.retiredHead == r
    requires IsInFlight(s, n, t) && n < |s.gcNext| && s.gcNext[n] == r
    ensures StepOk(s, t, Goto(s.(retiredHead := Some(n), retired := s.retired + [n],
                                 owners := s.owners[n := Enretired(s.owners[n], |s.retired|)]), t, Idle))
  {
    hide SharedOk, Evolves;
    RetireStep(s, t, n, v, r);
  }

  lemma RetireStepOk(s: State, t: nat, spurious: bool)
    requires SharedOk(s) && t < |s.threads| && ThreadOk(s, t) && InRange(s) && PcInRange(s.threads[t], |s.value|) && Retiring(s.threads[t])
    ensures StepOk(s, t, RetStep(s, t, spurious))
  {
    hide SharedOk, StepOk, NextInRange, ThreadsInRange;
    match s.threads[t]
    case RetLoad(n, v) => LocalStepOk(s, t, RetLink(n, v, s.retiredHead));
    case RetLink(n, v, r) => GcStepOk(s, t, n, v, r);
    case RetCas(n, v, r) =>
      if s.retiredHead == r && !spurious { RetireCasOk(s, t, n, v, r); } else { LocalStepOk(s, t, RetLink(n, v, s.retiredHead)); }
  }

  lemma StartOk(s: State, t: nat, pc: Pc)
    requires SharedOk(s) && t < |s.threads| && s.threads[t].Idle? && (pc.EnqNew? || pc.DeqHead?)
    ensures StepOk(s, t, Goto(s, t, pc))
  {
    hide SharedOk, StepOk, Goto;
    LocalStepOk(s, t, pc);
  }

  lemma StepIsOk(s: State, t: nat, a: Action)
    requires Inv(s) && InRange(s) && Enabled(s, t, a)
    ensures StepOk(s, t, Step(s, t, a))
  {
    PcOk(s, t);
    var pc := s.threads[t];
    assert !pc.Crashed?;
    hide EnqStep, DeqStep, RetStep, SharedOk, InRange, StepOk, Inv, ThreadOk, Goto, PcInRange;
    if pc.Idle? { StartOk(s, t, if a.StartEnqueue? then EnqNew(a.value) else DeqHead); }
    else if Enqueuing(pc) { EnqueueStepOk(s, t, a.spurious); }
    else if Retiring(pc) { RetireStepOk(s, t, a.spurious); }
    else { DequeueStepOk(s, t, a.spurious); }
  }

  lemma OthersOk(s: State, t: nat, u: State)
    requires Inv(s) && t < |s.threads| && StepOk(s, t, u)
    ensures Inv(u)
  {
    hide SharedOk;
    assert |u.threads| == |s.threads|;
    hide Evolves, Knows;
    forall v | 0 <= v < |u.threads| ensures ThreadOk(u, v) {
      assert v < |s.threads| && ThreadOk(s, v);
      if v != t { OtherThread(s, t, u, v); }
    }
  }

  /** Every step of every thread keeps the invariant. */
  lemma StepKeepsInv(s: State, t: nat, a: Action)
    requires Inv(s) && InRange(s) && Enabled(s, t, a)
    ensures Inv(Step(s, t, a))
  {
    hide Step, StepOk, Inv, InRange;
    StepIsOk(s, t, a);
    OthersOk(s, t, Step(s, t, a));
  }

  // ------------------------------------------------------------------ whole runs

  /** A queue just constructed, with n idle threads. */
  function Init(n: nat): State {
    State([0], [Link(None, 1)], [None], Anchor(0, 2), Anchor(0, 2), None, seq(n, i => Idle),
          [0], [Linked(0, Active)], [], [])
  }

  lemma InitInv(n: nat)
    ensures Inv(Init(n))
  {
    var s := Init(n);
    assert Spelled(s.chain, s.next) && Positioned(s.chain, s.owners) && Staged(0, s.owners);
    assert FreshHeld(s.owners, s.threads) && InFlightHeld(s.owners, s.threads) && Slotted(s.retired, s.owners);
  }

  /** The run that a schedule produces; an entry that is not enabled is skipped. */
  ghost function RunAll(s: State, schedule: seq<(nat, Action)>): (r: State)
    requires Inv(s)
    ensures Inv(r)
    decreases |schedule|
  {
    if schedule == [] then s
    else
      var (t, a) := schedule[0];
      if Enabled(s, t, a) then
        StepKeepsInv(s, t, a);
        RunAll(Step(s, t, a), schedule[1..])
      else RunAll(s, schedule[1..])
  }

  /** The values linked so far, in link order, without the initial dummy. */
  function LinkedValues(s: State): seq<int>
    requires forall i :: 0 <= i < |s.chain| ==> s.chain[i] < |s.value|
    requires |s.chain| > 0
  {
    seq(|s.chain| - 1, i requires 0 <= i < |s.chain| - 1 => s.value[s.chain[i + 1]])
  }

  /** Under every interleaving: dequeued values are a prefix of the linked ones, tail_ is neither
      behind head_ nor more than one node behind the last, and no null next is dereferenced. */
  lemma FirstInFirstOut(n: nat, schedule: seq<(nat, Action)>)
    ensures Inv(Init(n))
    ensures var s := RunAll(Init(n), schedule);
            && |s.chain| > 0 && (forall i :: 0 <= i < |s.chain| ==> s.chain[i] < |s.value|)
            && s.dequeued <= LinkedValues(s)
            && s.head.count <= s.tail.count && |s.chain| <= s.tail.count
            && s.head.ptr == s.chain[|s.dequeued|]
            && (forall t :: 0 <= t < |s.threads| ==> !s.threads[t].Crashed?)
  {
    InitInv(n);
    var s := RunAll(Init(n), schedule);
    hide RunAll, Init;
    FromInv(s);
  }

  lemma FromInv(s: State)
    requires Inv(s)
    ensures && |s.chain| > 0 && (forall i :: 0 <= i < |s.chain| ==> s.chain[i] < |s.value|)
            && s.dequeued <= LinkedValues(s)
            && s.head.count <= s.tail.count && |s.chain| <= s.tail.count
            && s.head.ptr == s.chain[|s.dequeued|]
            && (forall t :: 0 <= t < |s.threads| ==> !s.threads[t].Crashed?)
  {
    hide Staged, FreshHeld, InFlightHeld, Slotted, GcSpelled, Spelled;
    forall i | 0 <= i < |s.dequeued| ensures s.dequeued[i] == LinkedValues(s)[i] {
      assert TakenAt(s.chain, s.value, s.dequeued, i);
    }
    forall t | 0 <= t < |s.threads| ensures !s.threads[t].Crashed? {
      assert ThreadOk(s, t);
    }
  }

  lemma SawEmpty(s: State, t: nat)
    requires Inv(s) && t < |s.threads| && s.threads[t].DeqCheck? && s.threads[t].next.ptr.None?
    ensures s.threads[t].sawEmpty
  {
    hide SharedOk, HeadSeen, TailSeen, Seen;
    assert ThreadOk(s, t);
  }

  /** In every run a dequeue about to report an empty queue read next when every linked value had been taken. */
  lemma EmptyIsJustified(n: nat, schedule: seq<(nat, Action)>, t: nat)
    requires Inv(Init(n))
    requires var s := RunAll(Init(n), schedule);
             t < |s.threads| && s.threads[t].DeqCheck? && s.threads[t].next.ptr.None?
    ensures RunAll(Init(n), schedule).threads[t].sawEmpty
  {
    var s := RunAll(Init(n), schedule);
    hide RunAll, Init, Inv;
    SawEmpty(s, t);
  }

  // ----------------------------------------------------------------- responsibility

  /** The four places a node can be in, each read off memory and program counters. */
  ghost predicate NotYetLinked(s: State, n: nat) {
    exists t :: 0 <= t < |s.threads| && Holding(s.threads[t], n)
  }

  ghost predicate OnQueue(s: State, n: nat) {
    |s.dequeued| <= |s.chain| && n in s.chain[|s.dequeued|..]
  }

  ghost predicate BeingRetired(s: State, n: nat) {
    exists t :: 0 <= t < |s.threads| && Removing(s.threads[t], n)
  }

  predicate AnswersFor(pc: Pc, n: nat) {
    Holding(pc, n) || Removing(pc, n)
  }

  function Count(b: bool): nat {
    if b then 1 else 0
  }

  lemma HandlersKnown(s: State, t: nat, n: nat)
    requires Inv(s) && t < |s.threads|
    ensures Holding(s.threads[t], n) ==> n < |s.owners| && s.owners[n] == Fresh(t)
    ensures Removing(s.threads[t], n) ==> n < |s.owners| && s.owners[n].Linked? && s.owners[n].stage == InFlight(t)
  {
    hide SharedOk, TailSeen, Seen;
    assert ThreadOk(s, t);
  }

  lemma QueuePlace(s: State, n: nat)
    requires SharedOk(s) && n < |s.value|
    ensures OnQueue(s, n) <==> s.owners[n].Linked? && s.owners[n].stage.Active?
    ensures n in s.retired <==> s.owners[n].Linked? && s.owners[n].stage.Retired?
  {
    assert |s.dequeued| < |s.chain|;
    hide Spelled, GcSpelled, Taken, Ends, FreshHeld, InFlightHeld;
    var live := s.chain[|s.dequeued|..];
    if n in live {
      var i :| 0 <= i < |live| && live[i] == n;
      assert s.chain[|s.dequeued| + i] == n;
    }
    if s.owners[n].Linked? && s.owners[n].stage.Active? {
      assert live[s.owners[n].pos - |s.dequeued|] == n;
    }
  }

  /** In every run each allocated node is exactly one of: with its enqueuer and not yet linked, on
      the queue, in flight to the retired list, retired; and no two threads answer for the same node. */
  lemma OnePlaceEach(n: nat, schedule: seq<(nat, Action)>, node: nat)
    requires Inv(Init(n)) && node < |RunAll(Init(n), schedule).value|
    ensures var s := RunAll(Init(n), schedule);
            && Count(NotYetLinked(s, node)) + Count(OnQueue(s, node)) + Count(BeingRetired(s, node)) + Count(node in s.retired) == 1
            && forall t, v :: 0 <= t < |s.threads| && 0 <= v < |s.threads| && AnswersFor(s.threads[t], node) && AnswersFor(s.threads[v], node) ==> t == v
  {
    var s := RunAll(Init(n), schedule);
    hide RunAll, Init;
    PlacesOf(s, node);
  }

  lemma PlacesOf(s: State, n: nat)
    requires Inv(s) && n < |s.value|
    ensures Count(NotYetLinked(s, n)) + Count(OnQueue(s, n)) + Count(BeingRetired(s, n)) + Count(n in s.retired) == 1
    ensures forall t, v :: 0 <= t < |s.threads| && 0 <= v < |s.threads| && AnswersFor(s.threads[t], n) && AnswersFor(s.threads[v], n) ==> t == v
  {
    QueuePlace(s, n);
    forall t | 0 <= t < |s.threads|
      ensures Holding(s.threads[t], n) ==> s.owners[n] == Fresh(t)
      ensures Removing(s.threads[t], n) ==> s.owners[n].Linked? && s.owners[n].stage == InFlight(t) {
      HandlersKnown(s, t, n);
    }
    assert s.owners[n].Fresh? ==> NotYetLinked(s, n);
    assert s.owners[n].Linked? && s.owners[n].stage.InFlight? ==> BeingRetired(s, n);
    hide SharedOk, OnQueue, Inv;
  }

  // ------------------------------------------------------------------ destruction

  predicate Quiet(s: State) {
    forall t :: 0 <= t < |s.threads| ==> s.threads[t].Idle?
  }

  lemma QuietNodesHold(s: State, n: nat)
    requires Inv(s) && Quiet(s) && n < |s.value|
    ensures |s.dequeued| < |s.chain| && (n in s.chain[|s.dequeued|..] <==> n !in s.retired)
  {
    hide Spelled, GcSpelled;
    assert Taken(s.chain, s.value, s.dequeued);
    hide Taken, Ends;
    var active := s.chain[|s.dequeued|..];
    assert s.owners[n].Linked? && !s.owners[n].stage.InFlight?;
    if n in s.retired {
      var k :| 0 <= k < |s.retired| && s.retired[k] == n;
      assert s.owners[n].stage == Retired(k);
    } else {
      assert s.owners[n].stage.Active?;
      assert active[s.owners[n].pos - |s.dequeued|] == n;
    }
  }

  /** After every run with no call in progress every node is on the active list or on the retired list,
      not on both. */
  lemma QuietNodes(n: nat, schedule: seq<(nat, Action)>, node: nat)
    requires Inv(Init(n)) && Quiet(RunAll(Init(n), schedule)) && node < |RunAll(Init(n), schedule).value|
    ensures var s := RunAll(Init(n), schedule);
            |s.dequeued| < |s.chain| && (node in s.chain[|s.dequeued|..] <==> node !in s.retired)
  {
    hide RunAll, Init, Inv, Quiet;
    QuietNodesHold(RunAll(Init(n), schedule), node);
  }

  ghost predicate Distinct(nodes: seq<nat>) {
    forall i, j :: 0 <= i < j < |nodes| ==> nodes[i] != nodes[j]
  }

  lemma ListsDistinct(s: State)
    requires SharedOk(s)
    ensures Distinct(s.chain) && Distinct(s.retired)
    ensures forall k :: 0 <= k < |s.retired| ==> s.retired[k] < |s.value|
    ensures forall i :: 0 <= i < |s.chain| ==> s.chain[i] < |s.value|
  {
    hide Spelled, GcSpelled, Taken, Ends, Staged;
    forall i, j | 0 <= i < j < |s.retired| ensures s.retired[i] != s.retired[j] {
      assert s.owners[s.retired[i]].stage == Retired(i) && s.owners[s.retired[j]].stage == Retired(j);
    }
  }

  function Newest(retired: seq<nat>, k: nat): (r: seq<nat>)
    requires k <= |retired|
    ensures |r| == k && forall i :: 0 <= i < k ==> r[i] == retired[|retired| - 1 - i]
  {
    seq(k, i requires 0 <= i < k => retired[|retired| - 1 - i])
  }

  /** The next fields from n on spell live. */
  ghost predicate Leads(p: Option<nat>, next: seq<Link>, live: seq<nat>) {
    && p == (if live == [] then None else Some(live[0]))
    && forall i :: 0 <= i < |live| ==> LeadsOn(next, live, i)
  }

  predicate LeadsOn(next: seq<Link>, live: seq<nat>, i: nat)
    requires i < |live|
  {
    live[i] < |next| && next[live[i]].ptr == if i + 1 < |live| then Some(live[i + 1]) else None
  }

  /** The destructor's walk from head_ along next. */
  method FreeActive(head: nat, next: seq<Link>, ghost live: seq<nat>) returns (freed: seq<nat>)
    requires Leads(Some(head), next, live)
    ensures freed == live
  {
    var active := Some(head);
    freed := [];
    while active.Some?
      invariant |freed| <= |live| && forall i :: 0 <= i < |freed| ==> freed[i] == live[i]
      invariant active == if |freed| < |live| then Some(live[|freed|]) else None
      decreases |live| - |freed|
    {
      assert LeadsOn(next, live, |freed|);
      var following := next[active.value].ptr;
      freed := freed + [active.value];
      active := following;
    }
  }

  /** The destructor's walk from retired_head_ along gc_next. */
  method FreeRetired(retiredHead: Option<nat>, gcNext: seq<Option<nat>>, ghost nodes: seq<nat>) returns (freed: seq<nat>)
    requires GcSpelled(retiredHead, nodes, gcNext)
    ensures freed == Newest(nodes, |nodes|)
  {
    var retired := retiredHead;
    freed := [];
    while retired.Some?
      invariant |freed| <= |nodes|
      invariant forall i :: 0 <= i < |freed| ==> freed[i] == nodes[|nodes| - 1 - i]
      invariant retired == GcAfter(nodes, |nodes| - 1 - |freed|)
      decreases |nodes| - |freed|
    {
      var next := gcNext[retired.value];
      freed := freed + [retired.value];
      retired := next;
    }
  }

  /** The destructor, after any run (which keeps Inv) and with no call in progress, frees every node
      exactly once. */
  method DestroyNodes(s: State) returns (freed: seq<nat>)
    requires Inv(s) && Quiet(s)
    ensures Distinct(freed)
    ensures forall n: nat :: n in freed <==> n < |s.value|
  {
    ActiveLeads(s);
    var active := FreeActive(s.head.ptr, s.next, s.chain[|s.dequeued|..]);
    var retired := FreeRetired(s.retiredHead, s.gcNext, s.retired);
    freed := active + retired;
    FreedAll(s, freed);
  }

  lemma ActiveLeads(s: State)
    requires Inv(s)
    ensures |s.dequeued| < |s.chain| && Leads(Some(s.head.ptr), s.next, s.chain[|s.dequeued|..])
  {
    hide Positioned, Staged, FreshHeld, InFlightHeld, Slotted, GcSpelled, Knows;
    var live, d := s.chain[|s.dequeued|..], |s.dequeued|;
    forall i | 0 <= i < |live| ensures LeadsOn(s.next, live, i) {
      assert live[i] == s.chain[d + i] && s.next[s.chain[d + i]] == LinkAfter(s.chain, d + i);
    }
  }

  lemma FreedAll(s: State, freed: seq<nat>)
    requires Inv(s) && Quiet(s) && |s.dequeued| < |s.chain| && freed == s.chain[|s.dequeued|..] + Newest(s.retired, |s.retired|)
    ensures Distinct(freed) && forall n: nat :: n in freed <==> n < |s.value|
  {
    ListsDistinct(s);
    forall n: nat | n < |s.value| ensures n in s.chain[|s.dequeued|..] <==> n !in s.retired {
      QuietNodesHold(s, n);
    }
    hide Inv, Quiet, Distinct;
    FreedOnce(s, s.chain[|s.dequeued|..], freed);
  }

  lemma FreedOnce(s: State, live: seq<nat>, freed: seq<nat>)
    requires |s.dequeued| <= |s.chain| && live == s.chain[|s.dequeued|..] && freed == live + Newest(s.retired, |s.retired|)
    requires Distinct(s.chain) && Distinct(s.retired)
    requires forall k :: 0 <= k < |s.retired| ==> s.retired[k] < |s.value|
    requires forall i :: 0 <= i < |s.chain| ==> s.chain[i] < |s.value|
    requires forall n: nat :: n < |s.value| ==> (n in live <==> n !in s.retired)
    ensures Distinct(freed) && forall n: nat :: n in freed <==> n < |s.value|
  {
    var m, r := |live|, |s.retired|;
    forall i | m <= i < |freed| ensures freed[i] == s.retired[r - 1 - (i - m)] && freed[i] in s.retired {
    }
    forall i | 0 <= i < m ensures freed[i] == s.chain[|s.dequeued| + i] && freed[i] in live {
      assert live[i] == freed[i];
    }
    forall i, j | 0 <= i < j < |freed| ensures freed[i] != freed[j] {
      if i < m <= j {
        assert freed[i] in live && freed[j] in s.retired;
      }
    }
    forall n: nat | n < |s.value| ensures n in freed {
      if n in s.retired {
        var k :| 0 <= k < r && s.retired[k] == n;
        assert freed[m + r - 1 - k] == n;
      }
    }
  }
}
