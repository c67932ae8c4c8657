/** The record of the calls of a queue: what the steps of a run show, the pattern that the events of
    one thread have to follow, and the sequential queue that the effects stand for. */
module Calls {
  import opened Prelude

  datatype Op = Enqueue(value: int) | Dequeue
  datatype Outcome = Enqueued(value: int) | Dequeued(value: int) | FoundEmpty | GaveUp(op: Op)

  /** What a step shows: a call or a return, a value that enters or leaves the queue, the sight of an
      empty queue, the sight of a place that is taken, or nothing. */
  datatype Event =
    | Called(thread: nat, op: Op)
    | Added(thread: nat, value: int)
    | Removed(thread: nat, value: int)
    | SawNone(thread: nat)
    | SawBusy(thread: nat)
    | Returned(thread: nat, outcome: Outcome)
    | Silent

  // --------------------------------------------------------- the sequential queue

  /** One event on a sequential queue; nothing when a queue cannot do that. */
  function Apply(queue: seq<int>, e: Event): Option<seq<int>> {
    match e
    case Added(_, v) => Some(queue + [v])
    case Removed(_, v) => if queue != [] && queue[0] == v then Some(queue[1..]) else None
    case SawNone(_) => if queue == [] then Some(queue) else None
    case _ => Some(queue)
  }

  function Replay(history: seq<Event>): Option<seq<int>> {
    if history == [] then Some([])
    else
      var before := Replay(history[..|history| - 1]);
      if before.None? then None else Apply(before.value, history[|history| - 1])
  }

  // ------------------------------------------------------------ calls of one thread

  /** What a call that has not taken effect has seen last. */
  datatype Seen = Nothing | Emptiness | Busyness

  /** Where a thread is in its call: an enqueue has to add its value, a dequeue has to remove one or
      to see that there is none, before it returns just that; a call gives up only on a taken place. */
  datatype Phase = Resting | Pending(op: Op, seen: Seen) | Effected(outcome: Outcome) | Broken

  predicate ByThread(e: Event, t: nat) {
    !e.Silent? && e.thread == t
  }

  /** What a call without an effect may return. */
  predicate Unsuccessful(p: Phase, o: Outcome) {
    (o.FoundEmpty? && p == Pending(Dequeue, Emptiness)) || (o.GaveUp? && p == Pending(o.op, Busyness))
  }

  function Next(p: Phase, t: nat, e: Event): Phase {
    if !ByThread(e, t) then p
    else
      match e
      case Called(_, op) => if p.Resting? then Pending(op, Nothing) else Broken
      case Added(_, v) => if p.Pending? && p.op == Enqueue(v) then Effected(Enqueued(v)) else Broken
      case Removed(_, v) => if p.Pending? && p.op.Dequeue? then Effected(Dequeued(v)) else Broken
      case SawNone(_) => if p.Pending? && p.op.Dequeue? then Pending(Dequeue, Emptiness) else Broken
      case SawBusy(_) => if p.Pending? then Pending(p.op, Busyness) else Broken
      case Returned(_, o) => if p == Effected(o) || Unsuccessful(p, o) then Resting else Broken
  }

  function PhaseOf(history: seq<Event>, t: nat): Phase {
    if history == [] then Resting else Next(PhaseOf(history[..|history| - 1], t), t, history[|history| - 1])
  }

  /** The values that entered the queue, in order. */
  function Entered(history: seq<Event>): seq<int> {
    if history == [] then []
    else
      var e := history[|history| - 1];
      Entered(history[..|history| - 1]) + if e.Added? then [e.value] else []
  }

  lemma Snoc(history: seq<Event>, e: Event, t: nat)
    ensures PhaseOf(history + [e], t) == Next(PhaseOf(history, t), t, e)
    ensures Replay(history).Some? ==> Replay(history + [e]) == Apply(Replay(history).value, e)
    ensures Entered(history + [e]) == Entered(history) + if e.Added? then [e.value] else []
  {
    assert (history + [e])[..|history|] == history;
  }

  // ------------------------------------------------------- several events at one step

  function NextAll(p: Phase, t: nat, es: seq<Event>): Phase
    decreases |es|
  {
    if es == [] then p else NextAll(Next(p, t, es[0]), t, es[1..])
  }

  function ApplyAll(queue: seq<int>, es: seq<Event>): Option<seq<int>>
    decreases |es|
  {
    if es == [] then Some(queue)
    else
      var q := Apply(queue, es[0]);
      if q.None? then None else ApplyAll(q.value, es[1..])
  }

  lemma OneEvent(e: Event, p: Phase, t: nat, queue: seq<int>)
    ensures NextAll(p, t, [e]) == Next(p, t, e) && ApplyAll(queue, [e]) == Apply(queue, e)
    ensures Entered([e]) == if e.Added? then [e.value] else []
  {
    assert [e][1..] == [] && [e][..0] == [];
  }

  /** Of two events, the second of which does not touch the queue. */
  lemma TwoEvents(e: Event, f: Event, p: Phase, t: nat, queue: seq<int>)
    ensures NextAll(p, t, [e, f]) == Next(Next(p, t, e), t, f)
    ensures !f.Added? && !f.Removed? && !f.SawNone? ==> ApplyAll(queue, [e, f]) == Apply(queue, e)
    ensures Entered([e, f]) == (if e.Added? then [e.value] else []) + (if f.Added? then [f.value] else [])
  {
    assert [e, f][1..] == [f] && [e] + [f] == [e, f];
    OneEvent(f, Next(p, t, e), t, queue);
    if Apply(queue, e).Some? { OneEvent(f, Next(p, t, e), t, Apply(queue, e).value); }
    EnteredCons(e, [f]);
  }

  lemma {:induction false} Append(history: seq<Event>, es: seq<Event>, t: nat)
    ensures PhaseOf(history + es, t) == NextAll(PhaseOf(history, t), t, es)
    ensures Replay(history).Some? && ApplyAll(Replay(history).value, es).Some? ==> Replay(history + es) == ApplyAll(Replay(history).value, es)
    ensures Entered(history + es) == Entered(history) + Entered(es)
    decreases |es|
  {
    if es == [] {
      assert history + es == history;
    } else {
      var rest := es[1..];
      Snoc(history, es[0], t);
      Append(history + [es[0]], rest, t);
      assert history + es == history + [es[0]] + rest;
      EnteredCons(es[0], rest);
      var first := if es[0].Added? then [es[0].value] else [];
      assert [es[0]] + rest == es && Entered(history) + first + Entered(rest) == Entered(history) + (first + Entered(rest));
    }
  }

  lemma {:induction false} EnteredCons(e: Event, es: seq<Event>)
    ensures Entered([e] + es) == (if e.Added? then [e.value] else []) + Entered(es)
  {
    if es == [] {
      assert [e] + es == [e] && [e][..0] == [];
    } else {
      var m := |es| - 1;
      assert ([e] + es)[..m + 1] == [e] + es[..m];
      EnteredCons(e, es[..m]);
    }
  }

  /** Every value that entered did so at some event. */
  lemma {:induction false} EnteredAt(h: seq<Event>, i: nat)
    requires i < |Entered(h)|
    ensures exists e: nat :: e < |h| && h[e].Added? && h[e].value == Entered(h)[i]
  {
    var m := |h| - 1;
    if i < |Entered(h[..m])| {
      EnteredAt(h[..m], i);
      var e: nat :| e < m && h[..m][e].Added? && h[..m][e].value == Entered(h[..m])[i];
      assert h[e] == h[..m][e];
    }
  }

  // ---------------------------------------------------------------- linearization points

  function OpOf(o: Outcome): Op {
    match o
    case Enqueued(v) => Enqueue(v)
    case Dequeued(_) => Dequeue
    case FoundEmpty => Dequeue
    case GaveUp(op) => op
  }

  function PointOf(t: nat, o: Outcome): Event {
    match o
    case Enqueued(v) => Added(t, v)
    case Dequeued(v) => Removed(t, v)
    case FoundEmpty => SawNone(t)
    case GaveUp(_) => SawBusy(t)
  }

  predicate ChangesQueue(e: Event, t: nat) {
    (e.Added? || e.Removed?) && e.thread == t
  }

  predicate BoundsCall(e: Event, t: nat) {
    (e.Called? || e.Returned?) && e.thread == t
  }

  /** From place b on the history shows thread t inside one call of op. */
  ghost predicate InCall(h: seq<Event>, t: nat, b: nat, op: Op) {
    b < |h| && h[b] == Called(t, op) && forall k :: b < k < |h| ==> !BoundsCall(h[k], t)
  }

  /** The call opened at b has had its effect at p and no other. */
  ghost predicate Pointed(h: seq<Event>, t: nat, b: nat, p: nat, o: Outcome) {
    && InCall(h, t, b, OpOf(o)) && b < p < |h| && h[p] == PointOf(t, o)
    && forall k :: b < k < |h| && ChangesQueue(h[k], t) ==> k == p
  }

  /** The call opened at b has had no effect yet, and has seen this. */
  ghost predicate Waiting(h: seq<Event>, t: nat, b: nat, op: Op, seen: Seen) {
    && InCall(h, t, b, op) && (forall k :: b < k < |h| ==> !ChangesQueue(h[k], t))
    && (seen.Emptiness? ==> op.Dequeue? && exists q: nat :: Pointed(h, t, b, q, FoundEmpty))
    && (seen.Busyness? ==> exists q: nat :: Pointed(h, t, b, q, GaveUp(op)))
  }

  /** What a phase says about the history. */
  ghost predicate Explained(h: seq<Event>, t: nat, p: Phase) {
    match p
    case Resting => true
    case Broken => true
    case Pending(op, seen) => exists b: nat :: Waiting(h, t, b, op, seen)
    case Effected(o) => exists b: nat, q: nat :: Pointed(h, t, b, q, o)
  }

  lemma InCallGrows(h: seq<Event>, e: Event, t: nat, b: nat, op: Op)
    requires InCall(h, t, b, op) && !BoundsCall(e, t)
    ensures InCall(h + [e], t, b, op)
  {
  }

  lemma PointedGrows(h: seq<Event>, e: Event, t: nat, b: nat, p: nat, o: Outcome)
    requires Pointed(h, t, b, p, o) && !BoundsCall(e, t) && !ChangesQueue(e, t)
    ensures Pointed(h + [e], t, b, p, o)
  {
    InCallGrows(h, e, t, b, OpOf(o));
  }

  lemma WaitingGrows(h: seq<Event>, e: Event, t: nat, b: nat, op: Op, seen: Seen)
    requires Waiting(h, t, b, op, seen) && !BoundsCall(e, t) && !ChangesQueue(e, t)
    ensures Waiting(h + [e], t, b, op, seen)
  {
    InCallGrows(h, e, t, b, op);
    if seen.Emptiness? {
      var q: nat :| Pointed(h, t, b, q, FoundEmpty);
      PointedGrows(h, e, t, b, q, FoundEmpty);
    } else if seen.Busyness? {
      var q: nat :| Pointed(h, t, b, q, GaveUp(op));
      PointedGrows(h, e, t, b, q, GaveUp(op));
    }
  }

  lemma ExplainedSnoc(h: seq<Event>, e: Event, t: nat, p: Phase)
    requires Explained(h, t, p)
    ensures Explained(h + [e], t, Next(p, t, e))
  {
    hide Waiting, Pointed, InCall;
    if !ByThread(e, t) {
      match p
      case Pending(op, seen) =>
        var b: nat :| Waiting(h, t, b, op, seen);
        WaitingGrows(h, e, t, b, op, seen);
      case Effected(o) =>
        var b: nat, q: nat :| Pointed(h, t, b, q, o);
        PointedGrows(h, e, t, b, q, o);
      case _ =>
    } else if e.Called? && p.Resting? {
      CallOpens(h, t, e.op);
    } else if p.Pending? && !BoundsCall(e, t) {
      var b: nat :| Waiting(h, t, b, p.op, p.seen);
      CallGoesOn(h, e, t, b, p);
    }
  }

  lemma CallOpens(h: seq<Event>, t: nat, op: Op)
    ensures Waiting(h + [Called(t, op)], t, |h|, op, Nothing)
  {
  }

  /** The next event of a call that waits. */
  lemma CallGoesOn(h: seq<Event>, e: Event, t: nat, b: nat, p: Phase)
    requires p.Pending? && Waiting(h, t, b, p.op, p.seen) && ByThread(e, t) && !BoundsCall(e, t)
    ensures Explained(h + [e], t, Next(p, t, e))
  {
    var g := h + [e];
    InCallGrows(h, e, t, b, p.op);
    if e.Added? && p.op == Enqueue(e.value) {
      assert Pointed(g, t, b, |h|, Enqueued(e.value));
    } else if e.Removed? && p.op.Dequeue? {
      assert Pointed(g, t, b, |h|, Dequeued(e.value));
    } else if e.SawNone? && p.op.Dequeue? {
      assert Pointed(g, t, b, |h|, FoundEmpty);
      assert Waiting(g, t, b, Dequeue, Emptiness);
    } else if e.SawBusy? {
      assert Pointed(g, t, b, |h|, GaveUp(p.op));
      assert Waiting(g, t, b, p.op, Busyness);
    }
  }

  lemma {:induction false} PhaseExplained(h: seq<Event>, t: nat)
    ensures Explained(h, t, PhaseOf(h, t))
  {
    hide Explained;
    if h == [] {
      NothingToExplain(h, t);
    } else {
      var m := |h| - 1;
      PhaseExplained(h[..m], t);
      ExplainedSnoc(h[..m], h[m], t, PhaseOf(h[..m], t));
      assert h[..m] + [h[m]] == h;
    }
  }

  lemma NothingToExplain(h: seq<Event>, t: nat)
    ensures Explained(h, t, Resting)
  {
  }

  lemma {:induction false} BrokenStays(h: seq<Event>, t: nat, k: nat)
    requires k <= |h| && PhaseOf(h[..k], t).Broken?
    ensures PhaseOf(h, t).Broken?
    decreases |h|
  {
    if k == |h| {
      assert h[..k] == h;
    } else {
      var m := |h| - 1;
      assert h[..m][..k] == h[..k];
      BrokenStays(h[..m], t, k);
    }
  }

  lemma ReturnHasPoint(h: seq<Event>, t: nat, p: Phase, o: Outcome)
    requires Explained(h, t, p) && Next(p, t, Returned(t, o)).Resting?
    ensures exists b: nat, q: nat :: Pointed(h, t, b, q, o)
  {
    hide Pointed;
    if p.Pending? {
      var b: nat :| Waiting(h, t, b, p.op, p.seen);
      var q: nat :| Pointed(h, t, b, q, o);
    }
  }

  lemma PointInHistory(h: seq<Event>, t: nat, e: nat)
    requires !PhaseOf(h, t).Broken? && e < |h| && h[e].Returned? && h[e].thread == t
    ensures exists b: nat, p: nat :: Pointed(h[..e], t, b, p, h[e].outcome)
  {
    hide Explained, Pointed;
    var before := h[..e];
    assert h[..e + 1][..e] == before && h[..e + 1][e] == h[e];
    if PhaseOf(h[..e + 1], t).Broken? { BrokenStays(h, t, e + 1); }
    PhaseExplained(before, t);
    ReturnHasPoint(before, t, PhaseOf(before, t), h[e].outcome);
  }

  function OutcomeAt(e: Event): Outcome
    requires e.Added? || e.Removed?
  {
    if e.Added? then Enqueued(e.value) else Dequeued(e.value)
  }

  /** The change of the queue at e is the one effect so far of the call opened at b, which asks for it. */
  ghost predicate EffectOf(h: seq<Event>, t: nat, b: nat, e: nat) {
    e < |h| && ChangesQueue(h[e], t) && Pointed(h[..e + 1], t, b, e, OutcomeAt(h[e]))
  }

  lemma EffectInHistory(h: seq<Event>, t: nat, e: nat)
    requires !PhaseOf(h, t).Broken? && e < |h| && ChangesQueue(h[e], t)
    ensures exists b: nat :: EffectOf(h, t, b, e)
  {
    var upTo := h[..e + 1];
    assert upTo[..e] == h[..e] && upTo[e] == h[e];
    if PhaseOf(upTo, t).Broken? { BrokenStays(h, t, e + 1); }
    PhaseExplained(upTo, t);
    assert PhaseOf(upTo, t) == Effected(OutcomeAt(h[e]));
    hide PhaseOf;
    var b: nat, q: nat :| Pointed(upTo, t, b, q, OutcomeAt(h[e]));
    assert q == e;
    assert EffectOf(h, t, b, e);
  }

  /** The value is the argument of an enqueue call that has taken effect. */
  ghost predicate IsArgument(h: seq<Event>, v: int) {
    exists t: nat, b: nat, e: nat :: EffectOf(h, t, b, e) && h[e] == Added(t, v)
  }

  lemma EnteredIsArgument(h: seq<Event>, i: nat)
    requires i < |Entered(h)| && forall t: nat :: !PhaseOf(h, t).Broken?
    ensures IsArgument(h, Entered(h)[i])
  {
    EnteredAt(h, i);
    var e: nat :| e < |h| && h[e].Added? && h[e].value == Entered(h)[i];
    hide PhaseOf, EffectOf, Entered;
    EffectInHistory(h, h[e].thread, e);
    var b: nat :| EffectOf(h, h[e].thread, b, e);
  }
}
