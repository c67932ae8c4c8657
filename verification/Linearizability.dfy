/** The Michael-Scott queue is linearizable: every call takes effect at one step between its call and
    its return, and the effects, in the order of those steps, are a history of a sequential queue. */
module Linearizability {
  import opened Prelude
  import opened MichaelScott
  import opened Calls

  /** What one step shows: a call or a return, the link of a node, the advance of head_, the load of a
      null next by a dequeue, or nothing. */
  function EventOf(s: State, t: nat, a: Action): Event
    requires InRange(s) && Enabled(s, t, a) && PcInRange(s.threads[t], |s.value|)
  {
    match s.threads[t]
    case Idle => Called(t, if a.StartEnqueue? then Enqueue(a.value) else Dequeue)
    case EnqLink(n, tail, next) => if s.next[tail.ptr] == next && !a.spurious then Added(t, s.value[n]) else Silent
    case EnqSwing(n, _) => Returned(t, Enqueued(s.value[n]))
    case DeqNext(head, _) => if s.next[head.ptr].ptr.None? then SawNone(t) else Silent
    case DeqCheck(head, tail, next, _) =>
      if head == s.head && head.ptr == tail.ptr && next.ptr.None? then Returned(t, FoundEmpty) else Silent
    case DeqSwing(head, _, v) => if s.head == head && !a.spurious then Removed(t, v) else Silent
    case RetCas(_, v, r) => if s.retiredHead == r && !a.spurious then Returned(t, Dequeued(v)) else Silent
    case _ => Silent
  }

  /** The events of a run, one per step. */
  ghost function Record(s: State, schedule: seq<(nat, Action)>): seq<Event>
    requires Inv(s)
    decreases |schedule|
  {
    if schedule == [] then []
    else
      var (t, a) := schedule[0];
      if Enabled(s, t, a) then
        PcOk(s, t);
        StepKeepsInv(s, t, a);
        [EventOf(s, t, a)] + Record(Step(s, t, a), schedule[1..])
      else Record(s, schedule[1..])
  }

  // ------------------------------------------------- program counters and the events

  /** The program counter of a thread agrees with its events. */
  predicate Tied(pc: Pc, value: seq<int>, p: Phase) {
    match pc
    case Idle => p.Resting?
    case Crashed => false
    case EnqNew(v) => p == Pending(Enqueue(v), Nothing)
    case EnqTail(n) => n < |value| && p == Pending(Enqueue(value[n]), Nothing)
    case EnqNext(n, _) => n < |value| && p == Pending(Enqueue(value[n]), Nothing)
    case EnqCheck(n, _, _) => n < |value| && p == Pending(Enqueue(value[n]), Nothing)
    case EnqLink(n, _, _) => n < |value| && p == Pending(Enqueue(value[n]), Nothing)
    case EnqHelp(n, _, _) => n < |value| && p == Pending(Enqueue(value[n]), Nothing)
    case EnqSwing(n, _) => n < |value| && p == Effected(Enqueued(value[n]))
    case DeqCheck(_, _, x, _) => p.Pending? && p.op.Dequeue? && (x.ptr.None? ==> p.seen.Emptiness?)
    case RetLoad(_, v) => p == Effected(Dequeued(v))
    case RetLink(_, v, _) => p == Effected(Dequeued(v))
    case RetCas(_, v, _) => p == Effected(Dequeued(v))
    case _ => p.Pending? && p.op.Dequeue?
  }

  lemma TiedGrows(pc: Pc, value: seq<int>, after: seq<int>, p: Phase)
    requires Tied(pc, value, p) && value <= after
    ensures Tied(pc, after, p)
  {
  }

  lemma StartTied(s: State, t: nat, a: Action, p: Phase)
    requires InRange(s) && Enabled(s, t, a) && s.threads[t].Idle? && Tied(s.threads[t], s.value, p)
    ensures Tied(Step(s, t, a).threads[t], Step(s, t, a).value, Next(p, t, EventOf(s, t, a)))
  {
  }

  lemma EnqTied(s: State, t: nat, a: Action, p: Phase)
    requires InRange(s) && Enabled(s, t, a) && Enqueuing(s.threads[t]) && PcInRange(s.threads[t], |s.value|) && Tied(s.threads[t], s.value, p)
    ensures var u := EnqStep(s, t, a.spurious); Tied(u.threads[t], u.value, Next(p, t, EventOf(s, t, a)))
  {
  }

  lemma DeqTied(s: State, t: nat, a: Action, p: Phase)
    requires InRange(s) && Enabled(s, t, a) && Dequeuing(s.threads[t]) && PcInRange(s.threads[t], |s.value|) && Tied(s.threads[t], s.value, p)
    requires s.threads[t].DeqRead? ==> s.threads[t].next.ptr.Some?
    ensures var u := DeqStep(s, t, a.spurious); Tied(u.threads[t], u.value, Next(p, t, EventOf(s, t, a)))
  {
  }

  lemma RetTied(s: State, t: nat, a: Action, p: Phase)
    requires InRange(s) && Enabled(s, t, a) && Retiring(s.threads[t]) && PcInRange(s.threads[t], |s.value|) && Tied(s.threads[t], s.value, p)
    ensures var u := RetStep(s, t, a.spurious); Tied(u.threads[t], u.value, Next(p, t, EventOf(s, t, a)))
  {
  }

  lemma MoverTied(s: State, t: nat, a: Action, p: Phase)
    requires Inv(s) && InRange(s) && Enabled(s, t, a) && PcInRange(s.threads[t], |s.value|) && Tied(s.threads[t], s.value, p)
    ensures t < |Step(s, t, a).threads| && Tied(Step(s, t, a).threads[t], Step(s, t, a).value, Next(p, t, EventOf(s, t, a)))
  {
    PcOk(s, t);
    assert ThreadOk(s, t) && (s.threads[t].DeqRead? ==> s.threads[t].next.ptr.Some?);
    StepIsOk(s, t, a);
    hide EnqStep, DeqStep, RetStep, Inv, SharedOk, InRange, PcInRange, Tied, EventOf, Next, Knows;
    var pc := s.threads[t];
    if pc.Idle? { StartTied(s, t, a, p); }
    else if Enqueuing(pc) { EnqTied(s, t, a, p); }
    else if Retiring(pc) { RetTied(s, t, a, p); }
    else { DeqTied(s, t, a, p); }
  }

  /** Every thread's program counter agrees with the events so far. */
  ghost predicate AllTied(s: State, history: seq<Event>) {
    forall t :: 0 <= t < |s.threads| ==> Tied(s.threads[t], s.value, PhaseOf(history, t))
  }

  lemma StepTied(s: State, t: nat, a: Action, history: seq<Event>)
    requires Inv(s) && InRange(s) && Enabled(s, t, a) && PcInRange(s.threads[t], |s.value|) && AllTied(s, history)
    ensures AllTied(Step(s, t, a), history + [EventOf(s, t, a)])
  {
    var e, u := EventOf(s, t, a), Step(s, t, a);
    StepIsOk(s, t, a);
    assert ByThread(e, t) || e.Silent?;
    hide Step, Tied, EventOf, Inv, SharedOk, ThreadOk, InRange, PcInRange;
    forall v | 0 <= v < |u.threads| ensures Tied(u.threads[v], u.value, PhaseOf(history + [e], v)) {
      Snoc(history, e, v);
      if v == t {
        MoverTied(s, t, a, PhaseOf(history, t));
      } else {
        TiedGrows(s.threads[v], s.value, u.value, PhaseOf(history, v));
      }
    }
  }

  // ------------------------------------------------------ memory and the sequential queue

  ghost predicate Readable(s: State) {
    |s.dequeued| < |s.chain| && forall i :: 0 <= i < |s.chain| ==> s.chain[i] < |s.value|
  }

  /** The values linked and not yet taken, oldest first. */
  ghost function Queue(s: State): (q: seq<int>)
    requires Readable(s)
    ensures |q| == |s.chain| - 1 - |s.dequeued|
  {
    LinkedValues(s)[|s.dequeued|..]
  }

  lemma InvReadable(s: State)
    requires Inv(s)
    ensures Readable(s)
  {
    hide Staged, FreshHeld, InFlightHeld, Slotted, GcSpelled, Spelled, Knows;
  }

  /** A step that neither links nor takes leaves the queue. */
  lemma QueueStays(s: State, u: State)
    requires Readable(s) && u.chain == s.chain && |u.dequeued| == |s.dequeued| && s.value <= u.value
    ensures Readable(u) && Queue(u) == Queue(s)
  {
  }

  lemma QueueLinks(s: State, u: State, n: nat)
    requires Readable(s) && n < |s.value| && u.chain == s.chain + [n] && |u.dequeued| == |s.dequeued| && s.value == u.value
    ensures Readable(u) && Queue(u) == Queue(s) + [s.value[n]]
  {
  }

  lemma QueueTakes(s: State, u: State)
    requires Readable(s) && u.chain == s.chain && |u.dequeued| == |s.dequeued| + 1 && s.value == u.value && |s.dequeued| + 1 < |s.chain|
    ensures Readable(u) && Queue(s) != [] && Queue(s)[0] == s.value[s.chain[|s.dequeued| + 1]] && Queue(u) == Queue(s)[1..]
  {
  }

  /** How a step changes the history variables that make up the queue. */
  ghost predicate Moves(s: State, u: State, e: Event) {
    match e
    case Added(_, v) =>
      exists n :: 0 <= n < |s.value| && u.chain == s.chain + [n] && s.value[n] == v && u.value == s.value && u.dequeued == s.dequeued
    case Removed(_, v) => u.chain == s.chain && u.value == s.value && u.dequeued == s.dequeued + [v]
    case _ => u.chain == s.chain && s.value <= u.value && u.dequeued == s.dequeued
  }

  lemma EnqMoves(s: State, t: nat, a: Action)
    requires InRange(s) && Enabled(s, t, a) && Enqueuing(s.threads[t]) && PcInRange(s.threads[t], |s.value|)
    ensures Moves(s, EnqStep(s, t, a.spurious), EventOf(s, t, a))
  {
  }

  lemma DeqMoves(s: State, t: nat, a: Action)
    requires InRange(s) && Enabled(s, t, a) && Dequeuing(s.threads[t]) && PcInRange(s.threads[t], |s.value|)
    ensures Moves(s, DeqStep(s, t, a.spurious), EventOf(s, t, a))
  {
  }

  lemma RetMoves(s: State, t: nat, a: Action)
    requires InRange(s) && Enabled(s, t, a) && Retiring(s.threads[t]) && PcInRange(s.threads[t], |s.value|)
    ensures Moves(s, RetStep(s, t, a.spurious), EventOf(s, t, a))
  {
  }

  lemma StepMoves(s: State, t: nat, a: Action)
    requires InRange(s) && Enabled(s, t, a) && PcInRange(s.threads[t], |s.value|)
    ensures Moves(s, Step(s, t, a), EventOf(s, t, a))
  {
    hide EnqStep, DeqStep, RetStep, InRange, PcInRange;
    var pc := s.threads[t];
    if pc.Idle? { }
    else {
      hide EventOf, Moves;
      if Enqueuing(pc) { EnqMoves(s, t, a); }
      else if Retiring(pc) { RetMoves(s, t, a); }
      else { DeqMoves(s, t, a); }
    }
  }

  /** A dequeue that loads a null next does so on an empty queue, although the head it read may be old. */
  lemma NullMeansEmpty(s: State, t: nat)
    requires Inv(s) && InRange(s) && t < |s.threads| && s.threads[t].DeqNext? && PcInRange(s.threads[t], |s.value|)
    requires s.next[s.threads[t].head.ptr].ptr.None?
    ensures Readable(s) && Queue(s) == []
  {
    hide Inv, SharedOk, NextInRange, ThreadsInRange;
    var head := s.threads[t].head;
    PcOk(s, t);
    assert HeadSeen(s, head);
    InvReadable(s);
    NextLoaded(s, head);
    EndsKnown(s);
  }

  /** The value a successful head exchange takes is the oldest one. */
  lemma TakenIsOldest(s: State, t: nat)
    requires Inv(s) && t < |s.threads| && s.threads[t].DeqSwing? && s.threads[t].head == s.head
    ensures |s.dequeued| + 1 < |s.chain| && s.chain[|s.dequeued| + 1] < |s.value|
    ensures s.threads[t].value == s.value[s.chain[|s.dequeued| + 1]]
  {
    hide Inv, SharedOk, InRange;
    PcOk(s, t);
    assert Removable(s, s.head, s.threads[t].next);
    EndsKnown(s);
  }

  /** Every step does to the queue what its event does to a sequential queue. */
  lemma StepApplies(s: State, t: nat, a: Action)
    requires Inv(s) && InRange(s) && Enabled(s, t, a) && PcInRange(s.threads[t], |s.value|)
    ensures Readable(s) && Readable(Step(s, t, a)) && Apply(Queue(s), EventOf(s, t, a)) == Some(Queue(Step(s, t, a)))
  {
    var e, u := EventOf(s, t, a), Step(s, t, a);
    InvReadable(s);
    StepMoves(s, t, a);
    if e.SawNone? { NullMeansEmpty(s, t); }
    if e.Removed? { TakenIsOldest(s, t); }
    hide Step, EventOf, Inv, InRange, PcInRange, Queue, Readable;
    match e
    case Added(_, v) =>
      var n :| 0 <= n < |s.value| && u.chain == s.chain + [n] && s.value[n] == v && u.value == s.value && u.dequeued == s.dequeued;
      QueueLinks(s, u, n);
    case Removed(_, _) => QueueTakes(s, u);
    case _ => QueueStays(s, u);
  }

  // ------------------------------------------------------------------- whole runs

  /** Memory holds the queue that the events so far make, and every thread is where its events say. */
  ghost predicate Agrees(s: State, history: seq<Event>) {
    Readable(s) && Replay(history) == Some(Queue(s)) && AllTied(s, history)
  }

  lemma StepAgrees(s: State, t: nat, a: Action, history: seq<Event>)
    requires Inv(s) && InRange(s) && Enabled(s, t, a) && PcInRange(s.threads[t], |s.value|) && Agrees(s, history)
    ensures Agrees(Step(s, t, a), history + [EventOf(s, t, a)])
  {
    hide Inv, InRange, PcInRange, Step, EventOf, Readable, Queue, AllTied, Apply, Replay;
    StepApplies(s, t, a);
    StepTied(s, t, a, history);
    Snoc(history, EventOf(s, t, a), t);
  }

  /** A run and its events, one step at a time. */
  lemma RunUnfolds(s: State, schedule: seq<(nat, Action)>)
    requires Inv(s) && schedule != []
    ensures var (t, a) := schedule[0];
            if Enabled(s, t, a) then
              && InRange(s) && PcInRange(s.threads[t], |s.value|) && Inv(Step(s, t, a))
              && RunAll(s, schedule) == RunAll(Step(s, t, a), schedule[1..])
              && Record(s, schedule) == [EventOf(s, t, a)] + Record(Step(s, t, a), schedule[1..])
            else RunAll(s, schedule) == RunAll(s, schedule[1..]) && Record(s, schedule) == Record(s, schedule[1..])
  {
    hide Inv, InRange, PcInRange, Step, EventOf;
    var (t, a) := schedule[0];
    if Enabled(s, t, a) {
      PcOk(s, t);
      StepKeepsInv(s, t, a);
    }
  }

  lemma RunEnds(s: State)
    requires Inv(s)
    ensures RunAll(s, []) == s && Record(s, []) == []
  {
  }

  lemma OneMore(history: seq<Event>, e: Event, later: seq<Event>)
    ensures history + ([e] + later) == history + [e] + later
  {
  }

  lemma {:induction false} RunAgrees(s: State, history: seq<Event>, schedule: seq<(nat, Action)>)
    requires Inv(s) && Agrees(s, history)
    ensures Agrees(RunAll(s, schedule), history + Record(s, schedule))
    decreases |schedule|
  {
    hide Inv, InRange, PcInRange, Step, EventOf, Agrees, RunAll, Record;
    if schedule == [] {
      RunEnds(s);
      assert history + [] == history;
    } else {
      var (t, a) := schedule[0];
      RunUnfolds(s, schedule);
      if Enabled(s, t, a) {
        StepAgrees(s, t, a, history);
        var e, u := EventOf(s, t, a), Step(s, t, a);
        RunAgrees(u, history + [e], schedule[1..]);
        OneMore(history, e, Record(u, schedule[1..]));
      } else {
        RunAgrees(s, history, schedule[1..]);
      }
    }
  }

  /** Under every interleaving the effects, in order, are a history of a sequential queue that ends
      with what the queue holds, and no thread's events ever leave the pattern of a call. */
  lemma Linearizable(n: nat, schedule: seq<(nat, Action)>)
    ensures Inv(Init(n))
    ensures var s, h := RunAll(Init(n), schedule), Record(Init(n), schedule);
            && Readable(s) && Replay(h) == Some(Queue(s))
            && forall t :: 0 <= t < |s.threads| ==> !PhaseOf(h, t).Broken?
  {
    InitInv(n);
    var s := Init(n);
    InitAgrees(n);
    hide Inv, Init, RunAll, Record, Replay, Queue, Readable, PhaseOf;
    RunAgrees(s, [], schedule);
    assert [] + Record(s, schedule) == Record(s, schedule);
    var u, h := RunAll(s, schedule), Record(s, schedule);
    forall t | 0 <= t < |u.threads| ensures !PhaseOf(h, t).Broken? {
      assert Tied(u.threads[t], u.value, PhaseOf(h, t));
    }
  }

  lemma InitAgrees(n: nat)
    ensures Agrees(Init(n), [])
  {
    assert Queue(Init(n)) == [];
  }

  /** In every run each call that returns has taken effect at exactly one step between its call and its
      return: an enqueue by adding its value, a dequeue by removing the value it returns, or by
      seeing the queue empty.  So a call that returned before another was made took effect first. */
  lemma CallHasPoint(n: nat, schedule: seq<(nat, Action)>, t: nat, e: nat)
    requires Inv(Init(n)) && t < |RunAll(Init(n), schedule).threads|
    requires var h := Record(Init(n), schedule); e < |h| && h[e].Returned? && h[e].thread == t
    ensures var h := Record(Init(n), schedule); exists b: nat, p: nat :: Pointed(h[..e], t, b, p, h[e].outcome)
  {
    hide Inv, Init, RunAll, Record, Replay, Queue, Readable, PhaseOf, Pointed;
    Linearizable(n, schedule);
    PointInHistory(Record(Init(n), schedule), t, e);
  }

  /** In every run each value added or removed is the one effect of a call in progress that asks for it. */
  lemma EffectHasCall(n: nat, schedule: seq<(nat, Action)>, t: nat, e: nat)
    requires Inv(Init(n)) && t < |RunAll(Init(n), schedule).threads|
    requires var h := Record(Init(n), schedule); e < |h| && ChangesQueue(h[e], t)
    ensures var h := Record(Init(n), schedule); exists b: nat :: EffectOf(h, t, b, e)
  {
    hide Inv, Init, RunAll, Record, Replay, Queue, Readable, PhaseOf, EffectOf;
    Linearizable(n, schedule);
    EffectInHistory(Record(Init(n), schedule), t, e);
  }
}
