/** The calls of the bounded ring: a call that succeeds takes effect at its compare-exchange, and these
    effects are a history of a sequential queue; so every ticket carries the argument of an enqueue. */
module RingCalls {
  import opened Prelude
  import opened Vyukov
  import opened Calls

  /** A call that finds its cell taken sees so and gives up at one step. */
  function EventsOf(s: State, t: nat, a: Action): seq<Event>
    requires WellFormed(s) && Enabled(s, t, a)
  {
    var n := |s.sequence|;
    match s.threads[t]
    case Idle => [Called(t, if a.StartEnqueue? then Enqueue(a.value) else Dequeue)]
    case EnqSeq(v, pos) => if s.sequence[pos % n] < pos then [SawBusy(t), Returned(t, GaveUp(Enqueue(v)))] else []
    case EnqCas(v, pos) => if s.enq == pos && !a.spurious then [Added(t, v)] else []
    case EnqPublish(pos) => [Returned(t, Enqueued(s.data[pos % n]))]
    case DeqSeq(pos) => if s.sequence[pos % n] < pos + 1 then [SawBusy(t), Returned(t, GaveUp(Dequeue))] else []
    case DeqCas(pos) => if s.deq == pos && !a.spurious then [Removed(t, if pos < |s.tickets| then s.tickets[pos] else 0)] else []
    case DeqRelease(_, v) => [Returned(t, Dequeued(v))]
    case _ => []
  }

  /** The events of a run, step by step. */
  ghost function Record(s: State, schedule: seq<(nat, Action)>): seq<Event>
    requires Inv(s)
    decreases |schedule|
  {
    if schedule == [] then []
    else
      var (t, a) := schedule[0];
      if Enabled(s, t, a) then
        StepKeepsInv(s, t, a);
        EventsOf(s, t, a) + Record(Step(s, t, a), schedule[1..])
      else Record(s, schedule[1..])
  }

  /** The program counter of a thread agrees with its events. */
  predicate Tied(pc: Pc, tickets: seq<int>, p: Phase) {
    match pc
    case Idle => p.Resting?
    case EnqPos(v) => p.Pending? && p.op == Enqueue(v)
    case EnqSeq(v, _) => p.Pending? && p.op == Enqueue(v)
    case EnqCas(v, _) => p.Pending? && p.op == Enqueue(v)
    case EnqWrite(v, _) => p == Effected(Enqueued(v))
    case EnqPublish(pos) => pos < |tickets| && p == Effected(Enqueued(tickets[pos]))
    case DeqRead(pos) => pos < |tickets| && p == Effected(Dequeued(tickets[pos]))
    case DeqRelease(_, v) => p == Effected(Dequeued(v))
    case _ => p.Pending? && p.op.Dequeue?
  }

  ghost predicate AllTied(s: State, h: seq<Event>) {
    forall t: nat :: if t < |s.threads| then Tied(s.threads[t], s.tickets, PhaseOf(h, t)) else PhaseOf(h, t).Resting?
  }

  /** At most two events at a step. */
  lemma EventsUnfold(s: State, t: nat, a: Action, v: nat, p: Phase, queue: seq<int>)
    requires WellFormed(s) && Enabled(s, t, a)
    ensures var es := EventsOf(s, t, a);
            match |es|
            case 0 => NextAll(p, v, es) == p && ApplyAll(queue, es) == Some(queue) && Entered(es) == []
            case 1 => NextAll(p, v, es) == Next(p, v, es[0]) && ApplyAll(queue, es) == Apply(queue, es[0])
                      && Entered(es) == (if es[0].Added? then [es[0].value] else [])
            case _ => |es| == 2 && es[0].SawBusy? && es[1].Returned? && NextAll(p, v, es) == Next(Next(p, v, es[0]), v, es[1])
                      && ApplyAll(queue, es) == Some(queue) && Entered(es) == []
  {
    var es := EventsOf(s, t, a);
    if |es| == 1 {
      assert es == [es[0]];
      OneEvent(es[0], p, v, queue);
    } else if |es| == 2 {
      assert es == [es[0], es[1]];
      TwoEvents(es[0], es[1], p, v, queue);
    }
  }

  /** What the program counter of t says about the ticket it works on. */
  predicate TicketKnown(s: State, pc: Pc) {
    && (pc.EnqWrite? ==> pc.pos < |s.tickets| && s.tickets[pc.pos] == pc.value)
    && (pc.DeqCas? && pc.pos == s.deq ==> pc.pos < |s.tickets|)
    && (pc.EnqPublish? || pc.DeqRead? ==>
          |s.sequence| > 0 && |s.data| == |s.sequence| && pc.pos < |s.tickets| && s.data[pc.pos % |s.sequence|] == s.tickets[pc.pos])
  }

  lemma InvKnowsTicket(s: State, t: nat)
    requires Inv(s) && t < |s.threads|
    ensures WellFormed(s) && TicketKnown(s, s.threads[t])
  {
    hide Window, Split;
    var pc := s.threads[t];
    assert Knows(|s.sequence|, s.deq, s.stages, s.tickets, t, pc);
    if pc.EnqPublish? || pc.DeqRead? {
      assert Vyukov.Holds(s.stages[pc.pos]) && s.data[pc.pos % |s.data|] == s.tickets[pc.pos];
    }
    hide Stored, Inv;
  }

  lemma StartTied(s: State, t: nat, a: Action, p: Phase)
    requires WellFormed(s) && Enabled(s, t, a) && s.threads[t].Idle? && Tied(s.threads[t], s.tickets, p)
    ensures |Step(s, t, a).threads| == |s.threads|
    ensures Tied(Step(s, t, a).threads[t], Step(s, t, a).tickets, NextAll(p, t, EventsOf(s, t, a)))
  {
    EventsUnfold(s, t, a, t, p, []);
  }

  lemma EnqTied(s: State, t: nat, a: Action, p: Phase)
    requires WellFormed(s) && Enabled(s, t, a) && Enqueuing(s.threads[t]) && Tied(s.threads[t], s.tickets, p) && TicketKnown(s, s.threads[t])
    ensures |EnqStep(s, t, a.spurious).threads| == |s.threads|
    ensures Tied(EnqStep(s, t, a.spurious).threads[t], EnqStep(s, t, a.spurious).tickets, NextAll(p, t, EventsOf(s, t, a)))
  {
    EventsUnfold(s, t, a, t, p, []);
    hide NextAll;
  }

  lemma DeqTied(s: State, t: nat, a: Action, p: Phase)
    requires WellFormed(s) && Enabled(s, t, a) && !s.threads[t].Idle? && !Enqueuing(s.threads[t])
    requires Tied(s.threads[t], s.tickets, p) && TicketKnown(s, s.threads[t])
    ensures |DeqStep(s, t, a.spurious).threads| == |s.threads|
    ensures Tied(DeqStep(s, t, a.spurious).threads[t], DeqStep(s, t, a.spurious).tickets, NextAll(p, t, EventsOf(s, t, a)))
  {
    EventsUnfold(s, t, a, t, p, []);
    hide NextAll;
  }

  lemma MoverTied(s: State, t: nat, a: Action, p: Phase)
    requires Inv(s) && Enabled(s, t, a) && Tied(s.threads[t], s.tickets, p)
    ensures WellFormed(s) && |Step(s, t, a).threads| == |s.threads|
    ensures Tied(Step(s, t, a).threads[t], Step(s, t, a).tickets, NextAll(p, t, EventsOf(s, t, a)))
  {
    InvKnowsTicket(s, t);
    hide Inv, EnqStep, DeqStep, Tied, TicketKnown, EventsOf, NextAll, WellFormed;
    if s.threads[t].Idle? { StartTied(s, t, a, p); }
    else if Enqueuing(s.threads[t]) { EnqTied(s, t, a, p); }
    else { DeqTied(s, t, a, p); }
  }

  lemma OthersTied(s: State, t: nat, a: Action, v: nat, p: Phase)
    requires WellFormed(s) && Enabled(s, t, a) && v < |s.threads| && v != t && Tied(s.threads[v], s.tickets, p)
    ensures |Step(s, t, a).threads| == |s.threads| && Tied(Step(s, t, a).threads[v], Step(s, t, a).tickets, p)
  {
    assert Step(s, t, a).threads[v] == s.threads[v] && s.tickets <= Step(s, t, a).tickets;
    hide Step;
  }

  lemma EventsByThread(s: State, t: nat, a: Action, v: nat, p: Phase)
    requires WellFormed(s) && Enabled(s, t, a) && v != t
    ensures NextAll(p, v, EventsOf(s, t, a)) == p
  {
    EventsUnfold(s, t, a, v, p, []);
  }

  lemma StepTied(s: State, t: nat, a: Action, h: seq<Event>)
    requires Inv(s) && WellFormed(s) && Enabled(s, t, a) && AllTied(s, h)
    ensures AllTied(Step(s, t, a), h + EventsOf(s, t, a))
  {
    var es, u := EventsOf(s, t, a), Step(s, t, a);
    MoverTied(s, t, a, PhaseOf(h, t));
    hide Inv, WellFormed, Step, EventsOf, Tied;
    forall v: nat ensures if v < |u.threads| then Tied(u.threads[v], u.tickets, PhaseOf(h + es, v)) else PhaseOf(h + es, v).Resting? {
      Append(h, es, v);
      if v != t {
        EventsByThread(s, t, a, v, PhaseOf(h, v));
        if v < |s.threads| { OthersTied(s, t, a, v, PhaseOf(h, v)); }
      }
    }
  }

  // ------------------------------------------------------ tickets and the sequential queue

  /** The tickets claimed by enqueuers and not by dequeuers, oldest first. */
  function Queue(s: State): seq<int> {
    if s.deq <= |s.tickets| then s.tickets[s.deq..] else []
  }

  /** What a step does to tickets and claims shows in its events. */
  ghost predicate Moves(s: State, es: seq<Event>, u: State) {
    if |es| == 1 && es[0].Added? then
      u.tickets == s.tickets + [es[0].value] && u.deq == s.deq
    else if |es| == 1 && es[0].Removed? then
      s.deq < |s.tickets| && es[0].value == s.tickets[s.deq] && u.tickets == s.tickets && u.deq == s.deq + 1
    else
      u.tickets == s.tickets && u.deq == s.deq && (|es| == 1 ==> !es[0].SawNone?)
  }

  lemma StepMoves(s: State, t: nat, a: Action)
    requires Inv(s) && WellFormed(s) && Enabled(s, t, a)
    ensures Moves(s, EventsOf(s, t, a), Step(s, t, a)) && s.deq <= |s.tickets|
  {
    assert Knows(|s.sequence|, s.deq, s.stages, s.tickets, t, s.threads[t]) && s.deq <= |s.stages| == |s.tickets|;
    hide Window, Split, Stored, Inv;
  }

  lemma StepApplies(s: State, t: nat, a: Action)
    requires Inv(s) && WellFormed(s) && Enabled(s, t, a)
    ensures ApplyAll(Queue(s), EventsOf(s, t, a)) == Some(Queue(Step(s, t, a)))
    ensures Step(s, t, a).tickets == s.tickets + Entered(EventsOf(s, t, a))
  {
    StepMoves(s, t, a);
    EventsUnfold(s, t, a, t, Resting, Queue(s));
    var es, u := EventsOf(s, t, a), Step(s, t, a);
    hide Inv, WellFormed, Step, EventsOf, Entered, ApplyAll, NextAll;
    if |es| == 1 {
      assert es == [es[0]];
      OneApplies(s, es[0], u);
    } else {
      assert s.tickets + [] == s.tickets && Queue(u) == Queue(s);
    }
  }

  lemma OneApplies(s: State, e: Event, u: State)
    requires s.deq <= |s.tickets| && Moves(s, [e], u)
    ensures Apply(Queue(s), e) == Some(Queue(u))
    ensures u.tickets == s.tickets + if e.Added? then [e.value] else []
  {
    if e.Added? {
      assert (s.tickets + [e.value])[s.deq..] == s.tickets[s.deq..] + [e.value];
    } else if e.Removed? {
      assert s.tickets[s.deq..][1..] == s.tickets[s.deq + 1..];
    }
    if !e.Added? { assert s.tickets + [] == s.tickets; }
  }

  /** Memory holds the queue that the events make, and every thread is where its events say. */
  ghost predicate Agrees(s: State, h: seq<Event>) {
    Replay(h) == Some(Queue(s)) && Entered(h) == s.tickets && AllTied(s, h)
  }

  lemma StepAgrees(s: State, t: nat, a: Action, h: seq<Event>)
    requires Inv(s) && WellFormed(s) && Enabled(s, t, a) && Agrees(s, h)
    ensures Agrees(Step(s, t, a), h + EventsOf(s, t, a))
  {
    hide Inv, WellFormed, Step, EventsOf, AllTied, Queue, Replay, ApplyAll, PhaseOf, NextAll;
    StepApplies(s, t, a);
    StepTied(s, t, a, h);
    Append(h, EventsOf(s, t, a), t);
  }

  lemma {:induction false} RunAgrees(s: State, h: seq<Event>, schedule: seq<(nat, Action)>)
    requires Inv(s) && Agrees(s, h)
    ensures Agrees(RunAll(s, schedule), h + Record(s, schedule))
    decreases |schedule|
  {
    hide Step, EventsOf, Agrees, Window, Split, Stored, Knows;
    if schedule == [] {
      assert h + [] == h;
    } else {
      var (t, a) := schedule[0];
      if Enabled(s, t, a) {
        StepKeepsInv(s, t, a);
        StepAgrees(s, t, a, h);
        var es, u := EventsOf(s, t, a), Step(s, t, a);
        RunAgrees(u, h + es, schedule[1..]);
        assert h + (es + Record(u, schedule[1..])) == h + es + Record(u, schedule[1..]);
      } else {
        RunAgrees(s, h, schedule[1..]);
      }
    }
  }

  /** Under every interleaving the successful calls are a history of a sequential queue that ends with
      the unclaimed tickets, tickets are the arguments in the order of the calls' effects, and the
      events of each thread follow the pattern of a call. */
  lemma SuccessesAreFifo(n: nat, m: nat, schedule: seq<(nat, Action)>)
    requires n >= 2
    ensures Inv(Init(n, m))
    ensures var s, h := RunAll(Init(n, m), schedule), Record(Init(n, m), schedule);
            && s.deq <= |s.tickets| && Replay(h) == Some(s.tickets[s.deq..]) && Entered(h) == s.tickets
            && forall t: nat :: !PhaseOf(h, t).Broken?
  {
    InitInv(n, m);
    var s0 := Init(n, m);
    assert Agrees(s0, []);
    RunAgrees(s0, [], schedule);
    var s, h := RunAll(s0, schedule), Record(s0, schedule);
    assert [] + h == h;
    DeqBounded(s);
    hide Inv, Init, RunAll, Record, Replay, Entered, PhaseOf;
    forall t: nat ensures !PhaseOf(h, t).Broken? {
      assert if t < |s.threads| then Tied(s.threads[t], s.tickets, PhaseOf(h, t)) else PhaseOf(h, t).Resting?;
    }
  }

  lemma DeqBounded(s: State)
    requires Inv(s)
    ensures s.deq <= |s.tickets|
  {
  }

  /** In every run each call that returns has had its effect, and no other, at one step between its
      call and its return; or it gave up on a cell that was taken. */
  lemma CallHasPoint(n: nat, m: nat, schedule: seq<(nat, Action)>, e: nat)
    requires n >= 2 && Inv(Init(n, m))
    requires var h := Record(Init(n, m), schedule); e < |h| && h[e].Returned?
    ensures var h := Record(Init(n, m), schedule); exists b: nat, p: nat :: Pointed(h[..e], h[e].thread, b, p, h[e].outcome)
  {
    hide Inv, Init, RunAll, Record, Replay, Entered, PhaseOf, Pointed;
    SuccessesAreFifo(n, m, schedule);
    var h := Record(Init(n, m), schedule);
    PointInHistory(h, h[e].thread, e);
  }

  /** In every run every ticket carries the argument of an enqueue. */
  lemma TicketIsArgument(n: nat, m: nat, schedule: seq<(nat, Action)>, p: nat)
    requires n >= 2 && Inv(Init(n, m)) && p < |RunAll(Init(n, m), schedule).tickets|
    ensures IsArgument(Record(Init(n, m), schedule), RunAll(Init(n, m), schedule).tickets[p])
  {
    hide Inv, Init, RunAll, Record, Replay, Entered, PhaseOf, IsArgument;
    SuccessesAreFifo(n, m, schedule);
    EnteredIsArgument(Record(Init(n, m), schedule), p);
  }

  /** In every run every value delivered is the argument of an enqueue. */
  lemma DeliveryIsArgument(n: nat, m: nat, schedule: seq<(nat, Action)>, k: nat)
    requires n >= 2 && Inv(Init(n, m)) && k < |RunAll(Init(n, m), schedule).delivered|
    ensures IsArgument(Record(Init(n, m), schedule), RunAll(Init(n, m), schedule).delivered[k].value)
  {
    hide Inv, Init, RunAll, Record, IsArgument, LosesNothing;
    Deliveries(n, m, schedule);
    TicketIsArgument(n, m, schedule, RunAll(Init(n, m), schedule).delivered[k].ticket);
  }
}
