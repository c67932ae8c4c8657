/** The calls of the per-producer queue: an enqueue takes effect when it publishes the tail, a dequeue
    when it claims a slot or reads a tail that it has reached; so the queue is linearizable. */
module ProducerCalls {
  import opened Prelude
  import opened ProducerQueue
  import opened Calls

  /** The producer counts as one more thread behind the consumers. */
  function ProducerId(s: State): nat {
    |s.consumers|
  }

  /** What the slot about to be published holds in memory. */
  function Published(s: State): int {
    var at := At(s.tailBlock, s.tail);
    if at < |s.storage| && s.storage[at].Live? then s.storage[at].value else 0
  }

  function EventsOf(s: State, a: Action): seq<Event>
    requires WellFormed(s) && Enabled(s, a)
  {
    match a
    case Emplace(v) => [Called(ProducerId(s), Enqueue(v))]
    case Produce => ProducerEvents(s)
    case Dequeue(t) => [Called(t, Op.Dequeue)]
    case Consume(t, spurious) => ConsumerEvents(s, t, spurious)
  }

  function ProducerEvents(s: State): seq<Event> {
    var p := ProducerId(s);
    if s.producer.Publish? then [Added(p, Published(s)), Returned(p, Enqueued(Published(s)))]
    else if s.producer.Grow? && s.tail / SC_BLOCK_SIZE >= MAX_SEGS * SEG_SIZE then [SawBusy(p), Returned(p, GaveUp(Enqueue(s.producer.value)))]
    else []
  }

  function ConsumerEvents(s: State, t: nat, spurious: bool): seq<Event>
    requires t < |s.consumers|
  {
    match s.consumers[t]
    case CheckTail(i) => if i >= s.tail then [SawNone(t), Returned(t, FoundEmpty)] else []
    case Claim(i) => if s.head == i && !spurious then [Removed(t, if i < |s.values| then s.values[i] else 0)] else []
    case Destroy(_, _, v) => [Returned(t, Dequeued(v))]
    case _ => []
  }

  /** The events of a run, step by step. */
  ghost function Record(s: State, schedule: seq<Action>): seq<Event>
    requires Inv(s)
    decreases |schedule|
  {
    if schedule == [] then []
    else if Enabled(s, schedule[0]) then
      InvWellFormed(s);
      StepKeepsInv(s, schedule[0]);
      EventsOf(s, schedule[0]) + Record(Step(s, schedule[0]), schedule[1..])
    else Record(s, schedule[1..])
  }

  lemma InvWellFormed(s: State)
    requires Inv(s)
    ensures WellFormed(s) && |s.owners| == s.head <= s.tail <= |s.values| && |s.values| == Constructed(s.tail, s.producer)
  {
    hide Stored, MovedOk, Committed, Indexed, Chained, Knows;
  }

  // ------------------------------------------------- program counters and the events

  predicate ProducerTied(pc: Producer, tail: nat, values: seq<int>, p: Phase) {
    match pc
    case Resting => p.Resting?
    case Refused => p.Resting?
    case Commit => tail < |values| && p.Pending? && p.op == Enqueue(values[tail])
    case Publish => tail < |values| && p.Pending? && p.op == Enqueue(values[tail])
    case _ => p.Pending? && p.op == Enqueue(pc.value)
  }

  predicate ConsumerTied(pc: Consumer, values: seq<int>, p: Phase) {
    match pc
    case Idle => p.Resting?
    case LoadHead => p.Pending? && p.op.Dequeue?
    case CheckTail(_) => p.Pending? && p.op.Dequeue?
    case Claim(_) => p.Pending? && p.op.Dequeue?
    case Destroy(_, _, v) => p == Effected(Dequeued(v))
    case _ => pc.slot < |values| && p == Effected(Dequeued(values[pc.slot]))
  }

  ghost predicate ThreadTied(s: State, t: nat, p: Phase) {
    if t < |s.consumers| then ConsumerTied(s.consumers[t], s.values, p)
    else if t == ProducerId(s) then ProducerTied(s.producer, s.tail, s.values, p)
    else p.Resting?
  }

  ghost predicate AllTied(s: State, h: seq<Event>) {
    forall t: nat :: ThreadTied(s, t, PhaseOf(h, t))
  }

  /** At most two events at a step, the second of which is a return. */
  lemma EventsUnfold(es: seq<Event>, t: nat, p: Phase, queue: seq<int>)
    requires |es| <= 2 && (|es| == 2 ==> es[1].Returned?)
    ensures match |es|
            case 0 => NextAll(p, t, es) == p && ApplyAll(queue, es) == Some(queue) && Entered(es) == []
            case 1 => NextAll(p, t, es) == Next(p, t, es[0]) && ApplyAll(queue, es) == Apply(queue, es[0])
                      && Entered(es) == (if es[0].Added? then [es[0].value] else [])
            case _ => NextAll(p, t, es) == Next(Next(p, t, es[0]), t, es[1]) && ApplyAll(queue, es) == Apply(queue, es[0])
                      && Entered(es) == (if es[0].Added? then [es[0].value] else [])
  {
    if |es| == 1 {
      assert es == [es[0]];
      OneEvent(es[0], p, t, queue);
    } else if |es| == 2 {
      assert es == [es[0], es[1]];
      TwoEvents(es[0], es[1], p, t, queue);
      assert Entered(es) == (if es[0].Added? then [es[0].value] else []) + [];
    }
  }

  lemma EventsShort(s: State, a: Action)
    requires WellFormed(s) && Enabled(s, a)
    ensures |EventsOf(s, a)| <= 2 && (|EventsOf(s, a)| == 2 ==> EventsOf(s, a)[1].Returned?)
  {
  }

  /** The thread that an action belongs to. */
  function Actor(s: State, a: Action): nat {
    match a
    case Emplace(_) => ProducerId(s)
    case Produce => ProducerId(s)
    case Dequeue(t) => t
    case Consume(t, _) => t
  }

  /** The slot about to be published holds the value constructed last. */
  lemma PublishedIsConstructed(s: State)
    requires Inv(s) && s.producer.Publish?
    ensures s.tail < |s.values| && Published(s) == s.values[s.tail]
  {
    hide MovedOk, Committed, Indexed, Knows;
    assert At(s.tailBlock, s.tail) == s.tail;
  }

  lemma ProducerMoves(s: State, a: Action, p: Phase)
    requires Inv(s) && WellFormed(s) && Enabled(s, a) && (a.Emplace? || a.Produce?) && ProducerTied(s.producer, s.tail, s.values, p)
    ensures Step(s, a).consumers == s.consumers
    ensures ProducerTied(Step(s, a).producer, Step(s, a).tail, Step(s, a).values, NextAll(p, ProducerId(s), EventsOf(s, a)))
  {
    InvWellFormed(s);
    if s.producer.Publish? { PublishedIsConstructed(s); }
    hide Inv, WellFormed, At, Published, WithSegment, WithBlock;
    EventsShort(s, a);
    EventsUnfold(EventsOf(s, a), ProducerId(s), p, []);
    hide NextAll;
  }

  /** What a consumer about to run may rely on. */
  predicate SlotKnown(s: State, pc: Consumer) {
    && (pc.Claim? && pc.slot == s.head ==> pc.slot < |s.values|)
    && (pc.MoveOut? ==> At(pc.block, pc.slot) < |s.storage| && pc.slot < |s.values| && s.storage[At(pc.block, pc.slot)] == Live(s.values[pc.slot]))
  }

  lemma InvKnowsSlot(s: State, t: nat)
    requires Inv(s) && t < |s.consumers|
    ensures SlotKnown(s, s.consumers[t])
  {
    InvWellFormed(s);
    ConsumerFacts(s, t);
    hide Inv, SharedOk, At, Load;
    var pc := s.consumers[t];
    if pc.MoveOut? {
      BlockFound(s, pc.slot);
      SlotLive(s, t, pc.slot);
    }
  }

  lemma ConsumerMoves(s: State, t: nat, spurious: bool, p: Phase)
    requires WellFormed(s) && Enabled(s, Consume(t, spurious)) && SlotKnown(s, s.consumers[t]) && ConsumerTied(s.consumers[t], s.values, p)
    ensures |ConsumerStep(s, t, spurious).consumers| == |s.consumers|
    ensures ConsumerTied(ConsumerStep(s, t, spurious).consumers[t], ConsumerStep(s, t, spurious).values, NextAll(p, t, ConsumerEvents(s, t, spurious)))
  {
    hide At, Load;
    EventsUnfold(ConsumerEvents(s, t, spurious), t, p, []);
    hide NextAll;
  }

  lemma MoverTied(s: State, a: Action, p: Phase)
    requires Inv(s) && WellFormed(s) && Enabled(s, a) && ThreadTied(s, Actor(s, a), p)
    ensures |Step(s, a).consumers| == |s.consumers| && ThreadTied(Step(s, a), Actor(s, a), NextAll(p, Actor(s, a), EventsOf(s, a)))
  {
    match a
    case Emplace(_) => hide ProducerTied; ProducerMoves(s, a, p);
    case Produce => hide ProducerTied; ProducerMoves(s, a, p);
    case Dequeue(t) => EventsUnfold(EventsOf(s, a), t, p, []);
    case Consume(t, spurious) =>
      hide ConsumerTied, ConsumerEvents, ConsumerStep, SlotKnown;
      InvKnowsSlot(s, t);
      ConsumerMoves(s, t, spurious, p);
  }

  /** A step moves one thread; only the producer changes the tail, and values only grow. */
  ghost predicate Framed(s: State, actor: nat, u: State) {
    && |u.consumers| == |s.consumers| && s.values <= u.values
    && (forall v: nat :: v < |s.consumers| && v != actor ==> u.consumers[v] == s.consumers[v])
    && (actor != ProducerId(s) ==> u.producer == s.producer && u.tail == s.tail)
  }

  lemma ProducerFrame(s: State)
    requires WellFormed(s) && Enabled(s, Produce)
    ensures Framed(s, ProducerId(s), ProducerStep(s))
  {
    hide WithSegment, WithBlock, Shaped;
  }

  lemma ConsumerFrame(s: State, t: nat, spurious: bool)
    requires WellFormed(s) && Enabled(s, Consume(t, spurious))
    ensures Framed(s, t, ConsumerStep(s, t, spurious))
  {
    hide Load, Shaped;
  }

  lemma StepFrame(s: State, a: Action)
    requires WellFormed(s) && Enabled(s, a)
    ensures Framed(s, Actor(s, a), Step(s, a))
  {
    hide WellFormed, ProducerStep, ConsumerStep;
    match a
    case Produce => ProducerFrame(s);
    case Consume(t, spurious) => ConsumerFrame(s, t, spurious);
    case _ =>
  }

  lemma EventsOfActor(s: State, a: Action, v: nat, p: Phase)
    requires WellFormed(s) && Enabled(s, a) && v != Actor(s, a)
    ensures NextAll(p, v, EventsOf(s, a)) == p
  {
    hide Published;
    EventsShort(s, a);
    EventsUnfold(EventsOf(s, a), v, p, []);
    hide NextAll;
  }

  lemma OthersTied(s: State, a: Action, v: nat, p: Phase)
    requires Inv(s) && WellFormed(s) && Enabled(s, a) && v != Actor(s, a) && ThreadTied(s, v, p)
    ensures ThreadTied(Step(s, a), v, p) && NextAll(p, v, EventsOf(s, a)) == p
  {
    hide Inv, WellFormed, Step, EventsOf, Actor;
    StepFrame(s, a);
    EventsOfActor(s, a, v, p);
    ActorInRange(s, a);
  }

  lemma ActorInRange(s: State, a: Action)
    requires Enabled(s, a)
    ensures Actor(s, a) <= ProducerId(s)
  {
  }

  lemma StepTied(s: State, a: Action, h: seq<Event>)
    requires Inv(s) && WellFormed(s) && Enabled(s, a) && AllTied(s, h)
    ensures AllTied(Step(s, a), h + EventsOf(s, a))
  {
    var es, u := EventsOf(s, a), Step(s, a);
    hide Inv, WellFormed, Step, EventsOf, ThreadTied, Actor;
    forall v: nat ensures ThreadTied(u, v, PhaseOf(h + es, v)) {
      Append(h, es, v);
      if v == Actor(s, a) { MoverTied(s, a, PhaseOf(h, v)); } else { OthersTied(s, a, v, PhaseOf(h, v)); }
    }
  }

  // ----------------------------------------------------- memory and the sequential queue

  /** The values published and not claimed, oldest first. */
  function Queue(s: State): seq<int> {
    if s.head <= s.tail <= |s.values| then s.values[s.head..s.tail] else []
  }

  function First(es: seq<Event>): Event {
    if es == [] then Silent else es[0]
  }

  /** What a step does to the queue shows in the first of its events. */
  ghost predicate Moves(s: State, e: Event, u: State) {
    if e.Added? then
      s.tail < |s.values| && e.value == s.values[s.tail] && s.values <= u.values && u.head == s.head && u.tail == s.tail + 1
    else if e.Removed? then
      s.head < s.tail <= |s.values| && e.value == s.values[s.head] && u.values == s.values && u.head == s.head + 1 && u.tail == s.tail
    else
      s.values <= u.values && u.head == s.head && u.tail == s.tail && (e.SawNone? ==> s.head == s.tail)
  }

  lemma ProducerStepMoves(s: State)
    requires Inv(s) && WellFormed(s) && Enabled(s, Produce)
    ensures s.head <= s.tail <= |s.values| && Moves(s, First(ProducerEvents(s)), ProducerStep(s))
  {
    InvWellFormed(s);
    if s.producer.Publish? { PublishedIsConstructed(s); }
    hide Inv, WellFormed, At, Published, WithSegment, WithBlock;
  }

  /** A consumer that has reached the tail has found an empty queue, although the head it read may be old. */
  lemma ConsumerStepMoves(s: State, t: nat, spurious: bool)
    requires Inv(s) && WellFormed(s) && Enabled(s, Consume(t, spurious))
    ensures s.head <= s.tail <= |s.values| && Moves(s, First(ConsumerEvents(s, t, spurious)), ConsumerStep(s, t, spurious))
  {
    InvWellFormed(s);
    ConsumerFacts(s, t);
    hide Inv, SharedOk, At, Load;
  }

  lemma StepMoves(s: State, a: Action)
    requires Inv(s) && WellFormed(s) && Enabled(s, a)
    ensures s.head <= s.tail <= |s.values| && Moves(s, First(EventsOf(s, a)), Step(s, a))
  {
    InvWellFormed(s);
    hide ProducerEvents, ConsumerEvents, ProducerStep, ConsumerStep, Inv, WellFormed;
    match a
    case Produce => ProducerStepMoves(s);
    case Consume(t, spurious) => ConsumerStepMoves(s, t, spurious);
    case _ =>
  }

  lemma StepApplies(s: State, a: Action)
    requires Inv(s) && WellFormed(s) && Enabled(s, a)
    ensures ApplyAll(Queue(s), EventsOf(s, a)) == Some(Queue(Step(s, a)))
    ensures s.tail <= |s.values| && Step(s, a).tail <= |Step(s, a).values|
    ensures Step(s, a).values[..Step(s, a).tail] == s.values[..s.tail] + Entered(EventsOf(s, a))
  {
    var es, u := EventsOf(s, a), Step(s, a);
    StepMoves(s, a);
    EventsShort(s, a);
    EventsUnfold(es, 0, Phase.Resting, Queue(s));
    hide Inv, WellFormed, Step, EventsOf, Entered, ApplyAll, NextAll, Queue, Moves;
    FirstApplies(s, First(es), u);
  }

  lemma FirstApplies(s: State, e: Event, u: State)
    requires s.head <= s.tail <= |s.values| && Moves(s, e, u)
    ensures Apply(Queue(s), e) == Some(Queue(u))
    ensures u.tail <= |u.values| && u.values[..u.tail] == s.values[..s.tail] + if e.Added? then [e.value] else []
  {
    if e.Added? {
      assert u.values[..u.tail] == s.values[..s.tail] + [s.values[s.tail]];
      assert u.values[u.head..u.tail] == s.values[s.head..s.tail] + [s.values[s.tail]];
    } else if e.Removed? {
      assert s.values[s.head..s.tail][1..] == s.values[s.head + 1..s.tail];
      assert s.values[..s.tail] + [] == s.values[..s.tail];
    } else {
      assert u.values[..u.tail] == s.values[..s.tail] + [] && u.values[u.head..u.tail] == s.values[s.head..s.tail];
    }
  }

  /** Memory holds the queue that the events make, and every thread is where its events say. */
  ghost predicate Agrees(s: State, h: seq<Event>) {
    Replay(h) == Some(Queue(s)) && s.tail <= |s.values| && Entered(h) == s.values[..s.tail] && AllTied(s, h)
  }

  lemma StepAgrees(s: State, a: Action, h: seq<Event>)
    requires Inv(s) && WellFormed(s) && Enabled(s, a) && Agrees(s, h)
    ensures Agrees(Step(s, a), h + EventsOf(s, a))
  {
    hide Inv, WellFormed, Step, EventsOf, AllTied, Queue, Replay, ApplyAll, PhaseOf, NextAll;
    StepApplies(s, a);
    StepTied(s, a, h);
    Append(h, EventsOf(s, a), 0);
  }

  lemma {:induction false} RunAgrees(s: State, h: seq<Event>, schedule: seq<Action>)
    requires Inv(s) && Agrees(s, h)
    ensures Agrees(RunAll(s, schedule), h + Record(s, schedule))
    decreases |schedule|
  {
    hide Inv, Step, EventsOf, Agrees;
    if schedule == [] {
      assert h + [] == h;
    } else if Enabled(s, schedule[0]) {
      InvWellFormed(s);
      StepKeepsInv(s, schedule[0]);
      StepAgrees(s, schedule[0], h);
      var es, u := EventsOf(s, schedule[0]), Step(s, schedule[0]);
      RunAgrees(u, h + es, schedule[1..]);
      assert h + (es + Record(u, schedule[1..])) == h + es + Record(u, schedule[1..]);
    } else {
      RunAgrees(s, h, schedule[1..]);
    }
  }

  /** Under every interleaving the effects, in order, are a history of a sequential queue that ends with
      the values published and not claimed, published values are the arguments in order, and the events
      of each thread follow the pattern of a call. */
  lemma Linearizable(n: nat, schedule: seq<Action>)
    ensures Inv(Init(n))
    ensures var s, h := RunAll(Init(n), schedule), Record(Init(n), schedule);
            && s.head <= s.tail <= |s.values| && Replay(h) == Some(s.values[s.head..s.tail]) && Entered(h) == s.values[..s.tail]
            && forall t: nat :: !PhaseOf(h, t).Broken?
  {
    InitInv(n);
    var s0 := Init(n);
    InitAgrees(n);
    hide Inv, Init, RunAll, Record, Replay, Entered, PhaseOf;
    RunAgrees(s0, [], schedule);
    var s, h := RunAll(s0, schedule), Record(s0, schedule);
    assert [] + h == h;
    InvWellFormed(s);
    forall t: nat ensures !PhaseOf(h, t).Broken? {
      assert ThreadTied(s, t, PhaseOf(h, t));
    }
  }

  lemma InitAgrees(n: nat)
    ensures Agrees(Init(n), [])
  {
    assert Queue(Init(n)) == [];
  }

  /** In every run each call that returns has had its effect, and no other, at one step between its
      call and its return, or a dequeue has seen the queue empty, or an enqueue the index full. */
  lemma CallHasPoint(n: nat, schedule: seq<Action>, e: nat)
    requires Inv(Init(n))
    requires var h := Record(Init(n), schedule); e < |h| && h[e].Returned?
    ensures var h := Record(Init(n), schedule); exists b: nat, p: nat :: Pointed(h[..e], h[e].thread, b, p, h[e].outcome)
  {
    hide Inv, Init, RunAll, Record, Replay, Entered, PhaseOf, Pointed;
    Linearizable(n, schedule);
    var h := Record(Init(n), schedule);
    PointInHistory(h, h[e].thread, e);
  }

  /** In every run the element at a published slot is the argument of an enqueue. */
  lemma ValueIsArgument(n: nat, schedule: seq<Action>, i: nat)
    requires Inv(Init(n)) && i < RunAll(Init(n), schedule).tail && i < |RunAll(Init(n), schedule).values|
    ensures IsArgument(Record(Init(n), schedule), RunAll(Init(n), schedule).values[i])
  {
    hide Inv, Init, RunAll, Record, Replay, Entered, PhaseOf, IsArgument;
    Linearizable(n, schedule);
    EnteredIsArgument(Record(Init(n), schedule), i);
  }
}
