/** mpmc_bounded_queue, the bounded ring of cells with sequence numbers, as a step machine.

    One step is one atomic load, store or weak compare-exchange, or one access to a cell's data, of
    one thread; a weak compare-exchange may fail at will and memory is sequentially consistent.
    Positions are unbounded, and masking a position with the size less one is taking it modulo the size. */
module Vyukov {

  datatype Pc =
    | Idle
    | EnqPos(value: int)
    | EnqSeq(value: int, pos: nat)
    | EnqCas(value: int, pos: nat)
    | EnqWrite(value: int, pos: nat)
    | EnqPublish(pos: nat)
    | DeqPos
    | DeqSeq(pos: nat)
    | DeqCas(pos: nat)
    | DeqRead(pos: nat)
    | DeqRelease(pos: nat, value: int)

  /** The life of a ticket, that is of one claimed enqueue position. */
  datatype Stage =
    | Writing(thread: nat)
    | Written(thread: nat)
    | Ready
    | Reading(thread: nat)
    | Copied(thread: nat)
    | Released

  /** A value copied out of a cell, by whom and at which ticket. */
  datatype Delivery = Delivery(thread: nat, ticket: nat, value: int)

  /** tickets (the value of every claimed position), stages and delivered (in the order of copying out)
      are history variables: no step reads them. */
  datatype State = State(
    sequence: seq<nat>, data: seq<int>, enq: nat, deq: nat, threads: seq<Pc>,
    tickets: seq<int>, stages: seq<Stage>, delivered: seq<Delivery>)

  datatype Action = StartEnqueue(value: int) | StartDequeue | Run(spurious: bool)

  /** The constructor demands at least two cells. */
  predicate WellFormed(s: State) {
    && 2 <= |s.sequence| == |s.data|
    && s.enq == |s.tickets| == |s.stages|
  }

  predicate Enabled(s: State, t: nat, a: Action) {
    t < |s.threads| && (s.threads[t].Idle? <==> !a.Run?)
  }

  // -------------------------------------------------------------------- the steps

  function Goto(s: State, t: nat, pc: Pc): State
    requires t < |s.threads|
  {
    s.(threads := s.threads[t := pc])
  }

  function Mark(stages: seq<Stage>, pos: nat, stage: Stage): seq<Stage> {
    if pos < |stages| then stages[pos := stage] else stages
  }

  predicate Enqueuing(pc: Pc) {
    pc.EnqPos? || pc.EnqSeq? || pc.EnqCas? || pc.EnqWrite? || pc.EnqPublish?
  }

  function EnqStep(s: State, t: nat, spurious: bool): State
    requires WellFormed(s) && t < |s.threads| && Enqueuing(s.threads[t])
  {
    var n := |s.sequence|;
    match s.threads[t]
    case EnqPos(v) => Goto(s, t, EnqSeq(v, s.enq))
    case EnqSeq(v, pos) =>
      var dif := s.sequence[pos % n] - pos;
      Goto(s, t, if dif == 0 then EnqCas(v, pos) else if dif < 0 then Idle else EnqPos(v))
    case EnqCas(v, pos) =>
      if s.enq == pos && !spurious
      then Goto(s.(enq := pos + 1, tickets := s.tickets + [v], stages := s.stages + [Writing(t)]), t, EnqWrite(v, pos))
      else Goto(s, t, EnqSeq(v, s.enq))
    case EnqWrite(v, pos) =>
      Goto(s.(data := s.data[pos % n := v], stages := Mark(s.stages, pos, Written(t))), t, EnqPublish(pos))
    case EnqPublish(pos) =>
      Goto(s.(sequence := s.sequence[pos % n := pos + 1], stages := Mark(s.stages, pos, Ready)), t, Idle)
  }

  function DeqStep(s: State, t: nat, spurious: bool): State
    requires WellFormed(s) && t < |s.threads| && !s.threads[t].Idle? && !Enqueuing(s.threads[t])
  {
    var n := |s.sequence|;
    match s.threads[t]
    case DeqPos => Goto(s, t, DeqSeq(s.deq))
    case DeqSeq(pos) =>
      var dif := s.sequence[pos % n] - (pos + 1);
      Goto(s, t, if dif == 0 then DeqCas(pos) else if dif < 0 then Idle else DeqPos)
    case DeqCas(pos) =>
      if s.deq == pos && !spurious
      then Goto(s.(deq := pos + 1, stages := Mark(s.stages, pos, Reading(t))), t, DeqRead(pos))
      else Goto(s, t, DeqSeq(s.deq))
    case DeqRead(pos) =>
      Goto(s.(stages := Mark(s.stages, pos, Copied(t)), delivered := s.delivered + [Delivery(t, pos, s.data[pos % n])]),
           t, DeqRelease(pos, s.data[pos % n]))
    case DeqRelease(pos, _) =>
      Goto(s.(sequence := s.sequence[pos % n := pos + n], stages := Mark(s.stages, pos, Released)), t, Idle)
  }

  function Step(s: State, t: nat, a: Action): State
    requires WellFormed(s) && Enabled(s, t, a)
  {
    match a
    case StartEnqueue(v) => Goto(s, t, EnqPos(v))
    case StartDequeue => Goto(s, t, DeqPos)
    case Run(spurious) => if Enqueuing(s.threads[t]) then EnqStep(s, t, spurious) else DeqStep(s, t, spurious)
  }

  // ---------------------------------------------------------------- the invariant

  /** The sequence number of the cell that ticket p uses. */
  function SequenceOf(p: int, stage: Stage, n: nat): int {
    match stage
    case Writing(_) => p
    case Written(_) => p
    case Ready => p + 1
    case Reading(_) => p + 1
    case Copied(_) => p + 1
    case Released => p + n
  }

  /** The cells start as if the n positions before zero had been used and released. */
  function StageOf(stages: seq<Stage>, p: int): Stage
    requires p < |stages|
  {
    if p < 0 then Released else stages[p]
  }

  /** The n newest tickets determine all n sequence numbers; every older ticket is released. */
  ghost predicate Window(sequence: seq<nat>, stages: seq<Stage>) {
    var n := |sequence|;
    && n >= 2
    && (forall p :: |stages| - n <= p < |stages| ==> sequence[p % n] == SequenceOf(p, StageOf(stages, p), n))
    && (forall p :: 0 <= p < |stages| - n ==> stages[p].Released?)
  }

  predicate Consuming(stage: Stage) {
    stage.Reading? || stage.Copied? || stage.Released?
  }

  /** Exactly the tickets before the dequeue position have been claimed by consumers. */
  ghost predicate Split(stages: seq<Stage>, deq: nat) {
    deq <= |stages| && forall p :: 0 <= p < |stages| ==> (p < deq <==> Consuming(stages[p]))
  }

  predicate Holds(stage: Stage) {
    stage.Written? || stage.Ready? || stage.Reading?
  }

  /** The cell of a ticket that is written and not yet copied out holds the value of that ticket. */
  ghost predicate Stored(data: seq<int>, stages: seq<Stage>, tickets: seq<int>) {
    |data| > 0 && |tickets| == |stages|
    && forall p :: 0 <= p < |stages| && Holds(stages[p]) ==> data[p % |data|] == tickets[p]
  }

  ghost predicate SharedOk(s: State) {
    && WellFormed(s)
    && Window(s.sequence, s.stages)
    && Split(s.stages, s.deq)
    && Stored(s.data, s.stages, s.tickets)
  }

  ghost predicate Knows(n: nat, deq: nat, stages: seq<Stage>, tickets: seq<int>, t: nat, pc: Pc)
    requires n > 0
  {
    match pc
    case Idle => true
    case EnqPos(_) => true
    case EnqSeq(_, pos) => pos <= |stages|
    case EnqCas(_, pos) => pos <= |stages| && (pos == |stages| ==> StageOf(stages, pos - n).Released?)
    case EnqWrite(v, pos) => pos < |stages| && stages[pos] == Writing(t) && pos < |tickets| && tickets[pos] == v
    case EnqPublish(pos) => pos < |stages| && stages[pos] == Written(t)
    case DeqPos => true
    case DeqSeq(pos) => pos <= deq
    case DeqCas(pos) => pos <= deq && (pos == deq ==> pos < |stages| && stages[pos] == Ready)
    case DeqRead(pos) => pos < |stages| && stages[pos] == Reading(t)
    case DeqRelease(pos, v) => pos < |stages| && stages[pos] == Copied(t) && pos < |tickets| && tickets[pos] == v
  }

  ghost predicate Inv(s: State) {
    && SharedOk(s)
    && |s.sequence| >= 2
    && forall t :: 0 <= t < |s.threads| ==> Knows(|s.sequence|, s.deq, s.stages, s.tickets, t, s.threads[t])
  }

  // ----------------------------------------------------------------- cells and tickets

  lemma MulAtLeast(k: int, n: nat)
    requires k >= 1
    ensures k * n >= n
  {
    assert k * n == n + (k - 1) * n;
  }

  lemma SmallMultiple(k: int, n: nat)
    requires n > 0 && -1 * n < k * n < n
    ensures k == 0
  {
    if k >= 1 { MulAtLeast(k, n); } else if k <= -1 { MulAtLeast(-k, n); }
  }

  /** Two positions less than n apart share a cell only when they are equal. */
  lemma SameCell(p: int, q: int, n: nat)
    requires n > 0 && -1 * n < p - q < n && p % n == q % n
    ensures p == q
  {
    var a, b := p / n, q / n;
    assert p == a * n + p % n && q == b * n + q % n;
    assert p - q == (a - b) * n;
    SmallMultiple(a - b, n);
  }

  lemma Shifted(p: int, n: nat)
    requires n > 0
    ensures (p + n) % n == p % n && (p - n) % n == p % n
  {
    assert p == (p / n) * n + p % n;
    ModUnique(p + n, p / n + 1, p % n, n);
    ModUnique(p - n, p / n - 1, p % n, n);
  }

  lemma ModUnique(x: int, q: int, r: int, n: nat)
    requires n > 0 && 0 <= r < n && x == q * n + r
    ensures x % n == r
  {
    var e := x / n - q;
    assert x == (x / n) * n + x % n;
    assert e * n == r - x % n;
    SmallMultiple(e, n);
  }

  /** The newest ticket that uses the cell of a position not beyond the next one. */
  lemma {:induction false} NewestAt(pos: nat, enq: nat, n: nat) returns (p: int)
    requires n > 0 && pos <= enq
    ensures enq - n <= p < enq && p % n == pos % n
    ensures p == pos - n || p >= pos
    ensures p == pos - n <==> pos == enq
    ensures p == pos <==> enq - n <= pos < enq
    ensures pos < enq - n ==> p >= pos + n
    decreases enq - pos
  {
    Shifted(pos, n);
    if pos == enq {
      p := pos - n;
    } else if pos >= enq - n {
      p := pos;
    } else {
      p := NewestAt(pos + n, enq, n);
    }
  }

  // ------------------------------------------------------------------ preservation

  /** How the shared state may change under one step of thread t. */
  ghost predicate Evolves(s: State, t: nat, u: State) {
    && |u.threads| == |s.threads| && (forall v :: 0 <= v < |s.threads| && v != t ==> u.threads[v] == s.threads[v])
    && |u.sequence| == |s.sequence| && s.tickets <= u.tickets && |s.stages| <= |u.stages|
    && s.deq <= u.deq
    && (forall p :: 0 <= p < |s.stages| && s.stages[p] != u.stages[p] ==> Changes(s.stages[p], t) || (s.stages[p].Ready? && p < u.deq))
  }

  predicate Changes(stage: Stage, t: nat) {
    !stage.Ready? && !stage.Released? && stage.thread == t
  }

  lemma OtherThread(s: State, t: nat, u: State, v: nat)
    requires |s.sequence| > 0 && Evolves(s, t, u) && v < |s.threads| && v != t && Knows(|s.sequence|, s.deq, s.stages, s.tickets, v, s.threads[v])
    ensures Knows(|u.sequence|, u.deq, u.stages, u.tickets, v, u.threads[v])
  {
  }

  ghost predicate StepOk(s: State, t: nat, u: State) {
    && SharedOk(u) && Evolves(s, t, u) && t < |u.threads| && |u.sequence| >= 2
    && Knows(|u.sequence|, u.deq, u.stages, u.tickets, t, u.threads[t])
  }

  lemma OthersOk(s: State, t: nat, u: State)
    requires Inv(s) && t < |s.threads| && StepOk(s, t, u)
    ensures Inv(u)
  {
    hide SharedOk, Knows;
    forall v | 0 <= v < |u.threads| ensures Knows(|u.sequence|, u.deq, u.stages, u.tickets, v, u.threads[v]) {
      assert v < |s.threads| && Knows(|s.sequence|, s.deq, s.stages, s.tickets, v, s.threads[v]);
      hide Evolves;
      if v != t { OtherThread(s, t, u, v); }
    }
  }

  lemma LocalStepOk(s: State, t: nat, pc: Pc)
    requires SharedOk(s) && |s.sequence| >= 2 && t < |s.threads| && Knows(|s.sequence|, s.deq, s.stages, s.tickets, t, pc)
    ensures StepOk(s, t, Goto(s, t, pc))
  {
    hide Window, Split, Stored, Knows;
  }

  /** What the sequence number of a cell tells an enqueuer about the position it holds. */
  lemma EnqueueTest(sequence: seq<nat>, stages: seq<Stage>, pos: nat)
    requires Window(sequence, stages) && pos <= |stages|
    ensures |sequence| >= 2
    ensures var n := |sequence|; var seen := sequence[pos % n];
            && (seen == pos && pos == |stages| ==> StageOf(stages, pos - n).Released?)
            && (seen < pos ==> pos == |stages| && n <= pos && !stages[pos - n].Released?)
  {
    var n := |sequence|;
    var p := NewestAt(pos, |stages|, n);
    assert sequence[p % n] == SequenceOf(p, StageOf(stages, p), n);
  }

  /** What the sequence number of a cell tells a dequeuer about the position it holds. */
  lemma DequeueTest(sequence: seq<nat>, stages: seq<Stage>, deq: nat, pos: nat)
    requires Window(sequence, stages) && Split(stages, deq) && pos <= deq
    ensures |sequence| >= 2
    ensures var n := |sequence|; var seen := sequence[pos % n];
            && (seen == pos + 1 && pos == deq ==> pos < |stages| && stages[pos] == Ready)
            && (seen < pos + 1 ==> pos == deq && (pos == |stages| || stages[pos].Writing? || stages[pos].Written?))
  {
    var n := |sequence|;
    var p := NewestAt(pos, |stages|, n);
    assert sequence[p % n] == SequenceOf(p, StageOf(stages, p), n);
    assert p >= 0 ==> (p < deq <==> Consuming(stages[p]));
    assert pos < |stages| ==> (pos < deq <==> Consuming(stages[pos]));
  }

  /** Changing the stage of a recent ticket together with the sequence number of its cell. */
  lemma WindowMark(sequence: seq<nat>, stages: seq<Stage>, pos: nat, stage: Stage)
    requires Window(sequence, stages) && pos < |stages| && !stages[pos].Released?
    ensures var n := |sequence|;
            Window(sequence[pos % n := SequenceOf(pos, stage, n)], stages[pos := stage])
    ensures SequenceOf(pos, stage, |sequence|) == SequenceOf(pos, stages[pos], |sequence|) ==> Window(sequence, stages[pos := stage])
  {
    var n := |sequence|;
    var after, marked := sequence[pos % n := SequenceOf(pos, stage, n)], stages[pos := stage];
    assert pos >= |stages| - n;
    forall p | |stages| - n <= p < |stages| ensures after[p % n] == SequenceOf(p, StageOf(marked, p), n) {
      assert sequence[p % n] == SequenceOf(p, StageOf(stages, p), n);
      if p % n == pos % n { SameCell(p, pos, n); }
    }
    assert sequence[pos % n] == SequenceOf(pos, StageOf(stages, pos), n);
    if SequenceOf(pos, stage, n) == SequenceOf(pos, stages[pos], n) {
      assert after == sequence;
    }
  }

  lemma WindowClaim(sequence: seq<nat>, stages: seq<Stage>, t: nat)
    requires Window(sequence, stages) && StageOf(stages, |stages| - |sequence|).Released?
    ensures Window(sequence, stages + [Writing(t)])
  {
    var n, e := |sequence|, |stages|;
    var after := stages + [Writing(t)];
    Shifted(e, n);
    assert sequence[(e - n) % n] == SequenceOf(e - n, StageOf(stages, e - n), n);
    forall p | e + 1 - n <= p < e + 1 ensures sequence[p % n] == SequenceOf(p, StageOf(after, p), n) {
      if p < e { assert sequence[p % n] == SequenceOf(p, StageOf(stages, p), n); }
    }
  }

  /** Two tickets in use never share a cell. */
  lemma InUseApart(sequence: seq<nat>, stages: seq<Stage>, p: nat, q: nat)
    requires Window(sequence, stages) && p < |stages| && q < |stages| && !stages[p].Released? && !stages[q].Released?
    requires p % |sequence| == q % |sequence|
    ensures p == q
  {
    SameCell(p, q, |sequence|);
  }

  lemma StoredWrite(sequence: seq<nat>, data: seq<int>, stages: seq<Stage>, tickets: seq<int>, pos: nat, t: nat)
    requires Window(sequence, stages) && Stored(data, stages, tickets) && |data| == |sequence| && pos < |stages| && !stages[pos].Released?
    ensures Stored(data[pos % |data| := tickets[pos]], stages[pos := Written(t)], tickets)
  {
    var after, marked := data[pos % |data| := tickets[pos]], stages[pos := Written(t)];
    forall p | 0 <= p < |marked| && Holds(marked[p]) ensures after[p % |data|] == tickets[p] {
      if p != pos && p % |data| == pos % |data| { InUseApart(sequence, stages, p, pos); }
    }
  }

  lemma ClaimStepOk(s: State, t: nat, v: int, pos: nat)
    requires SharedOk(s) && |s.sequence| >= 2 && t < |s.threads| && pos == s.enq && StageOf(s.stages, pos - |s.sequence|).Released?
    ensures StepOk(s, t, Goto(s.(enq := pos + 1, tickets := s.tickets + [v], stages := s.stages + [Writing(t)]), t, EnqWrite(v, pos)))
  {
    WindowClaim(s.sequence, s.stages, t);
    hide Window;
  }

  lemma WriteStepOk(s: State, t: nat, v: int, pos: nat)
    requires SharedOk(s) && |s.sequence| >= 2 && t < |s.threads| && pos < |s.stages| && s.stages[pos] == Writing(t) && s.tickets[pos] == v
    ensures StepOk(s, t, Goto(s.(data := s.data[pos % |s.sequence| := v], stages := Mark(s.stages, pos, Written(t))), t, EnqPublish(pos)))
  {
    hide Window, Stored;
    WindowMark(s.sequence, s.stages, pos, Written(t));
    StoredWrite(s.sequence, s.data, s.stages, s.tickets, pos, t);
  }

  lemma PublishStepOk(s: State, t: nat, pos: nat)
    requires SharedOk(s) && |s.sequence| >= 2 && t < |s.threads| && pos < |s.stages| && s.stages[pos] == Written(t)
    ensures StepOk(s, t, Goto(s.(sequence := s.sequence[pos % |s.sequence| := pos + 1], stages := Mark(s.stages, pos, Ready)), t, Idle))
  {
    hide Window;
    WindowMark(s.sequence, s.stages, pos, Ready);
  }

  lemma TakeStepOk(s: State, t: nat, pos: nat)
    requires SharedOk(s) && |s.sequence| >= 2 && t < |s.threads| && pos == s.deq && pos < |s.stages| && s.stages[pos] == Ready
    ensures StepOk(s, t, Goto(s.(deq := pos + 1, stages := Mark(s.stages, pos, Reading(t))), t, DeqRead(pos)))
  {
    hide Window;
    WindowMark(s.sequence, s.stages, pos, Reading(t));
  }

  lemma CopyStepOk(s: State, t: nat, pos: nat)
    requires SharedOk(s) && |s.sequence| >= 2 && t < |s.threads| && pos < |s.stages| && s.stages[pos] == Reading(t)
    ensures StepOk(s, t, Goto(s.(stages := Mark(s.stages, pos, Copied(t)), delivered := s.delivered + [Delivery(t, pos, s.data[pos % |s.sequence|])]),
                              t, DeqRelease(pos, s.data[pos % |s.sequence|])))
  {
    hide Window;
    WindowMark(s.sequence, s.stages, pos, Copied(t));
  }

  lemma ReleaseStepOk(s: State, t: nat, pos: nat)
    requires SharedOk(s) && |s.sequence| >= 2 && t < |s.threads| && pos < |s.stages| && s.stages[pos] == Copied(t)
    ensures StepOk(s, t, Goto(s.(sequence := s.sequence[pos % |s.sequence| := pos + |s.sequence|], stages := Mark(s.stages, pos, Released)), t, Idle))
  {
    hide Window;
    WindowMark(s.sequence, s.stages, pos, Released);
  }

  lemma EnqueueStepOk(s: State, t: nat, spurious: bool)
    requires SharedOk(s) && |s.sequence| >= 2 && t < |s.threads| && Enqueuing(s.threads[t])
    requires Knows(|s.sequence|, s.deq, s.stages, s.tickets, t, s.threads[t])
    ensures StepOk(s, t, EnqStep(s, t, spurious))
  {
    hide Window, Split, Stored, StepOk, Goto, Mark;
    match s.threads[t]
    case EnqPos(v) => LocalStepOk(s, t, EnqSeq(v, s.enq));
    case EnqSeq(v, pos) =>
      EnqueueTest(s.sequence, s.stages, pos);
      var dif := s.sequence[pos % |s.sequence|] - pos;
      LocalStepOk(s, t, if dif == 0 then EnqCas(v, pos) else if dif < 0 then Idle else EnqPos(v));
    case EnqCas(v, pos) =>
      if s.enq == pos && !spurious { ClaimStepOk(s, t, v, pos); } else { LocalStepOk(s, t, EnqSeq(v, s.enq)); }
    case EnqWrite(v, pos) => WriteStepOk(s, t, v, pos);
    case EnqPublish(pos) => PublishStepOk(s, t, pos);
  }

  lemma DequeueStepOk(s: State, t: nat, spurious: bool)
    requires SharedOk(s) && |s.sequence| >= 2 && t < |s.threads| && !s.threads[t].Idle? && !Enqueuing(s.threads[t])
    requires Knows(|s.sequence|, s.deq, s.stages, s.tickets, t, s.threads[t])
    ensures StepOk(s, t, DeqStep(s, t, spurious))
  {
    hide Window, Split, Stored, StepOk, Goto, Mark;
    match s.threads[t]
    case DeqPos => LocalStepOk(s, t, DeqSeq(s.deq));
    case DeqSeq(pos) =>
      DequeueTest(s.sequence, s.stages, s.deq, pos);
      var dif := s.sequence[pos % |s.sequence|] - (pos + 1);
      LocalStepOk(s, t, if dif == 0 then DeqCas(pos) else if dif < 0 then Idle else DeqPos);
    case DeqCas(pos) =>
      if s.deq == pos && !spurious { TakeStepOk(s, t, pos); } else { LocalStepOk(s, t, DeqSeq(s.deq)); }
    case DeqRead(pos) => CopyStepOk(s, t, pos);
    case DeqRelease(pos, _) => ReleaseStepOk(s, t, pos);
  }

  /** Every step of every thread keeps the invariant. */
  lemma StepKeepsInv(s: State, t: nat, a: Action)
    requires Inv(s) && Enabled(s, t, a)
    ensures Inv(Step(s, t, a))
  {
    hide Window, Split, Stored, StepOk, EnqStep, DeqStep, Knows;
    assert Knows(|s.sequence|, s.deq, s.stages, s.tickets, t, s.threads[t]);
    match a
    case StartEnqueue(v) => StartOk(s, t, EnqPos(v)); OthersOk(s, t, Step(s, t, a));
    case StartDequeue => StartOk(s, t, DeqPos); OthersOk(s, t, Step(s, t, a));
    case Run(spurious) =>
      if Enqueuing(s.threads[t]) { EnqueueStepOk(s, t, spurious); } else { DequeueStepOk(s, t, spurious); }
      OthersOk(s, t, Step(s, t, a));
  }

  lemma StartOk(s: State, t: nat, pc: Pc)
    requires SharedOk(s) && |s.sequence| >= 2 && t < |s.threads| && (pc.EnqPos? || pc.DeqPos?)
    ensures StepOk(s, t, Goto(s, t, pc))
  {
    hide SharedOk, StepOk;
    LocalStepOk(s, t, pc);
  }

  // ------------------------------------------------------------------ whole runs

  /** A queue of n cells just constructed, with m idle threads. */
  function Init(n: nat, m: nat): State
    requires n >= 2
  {
    State(seq(n, i requires i >= 0 => i), seq(n, i => 0), 0, 0, seq(m, i => Idle), [], [], [])
  }

  lemma InitInv(n: nat, m: nat)
    requires n >= 2
    ensures Inv(Init(n, m))
  {
    var s := Init(n, m);
    forall p | -1 * n <= p < 0 ensures s.sequence[p % n] == p + n {
      ModUnique(p, -1, p + n, n);
    }
  }

  /** The run that a schedule produces; an entry that is not enabled is skipped. */
  ghost function RunAll(s: State, schedule: seq<(nat, Action)>): (r: State)
    requires Inv(s)
    ensures Inv(r) && |r.sequence| == |s.sequence|
    decreases |schedule|
  {
    if schedule == [] then s
    else
      var (t, a) := schedule[0];
      if Enabled(s, t, a) then
        StepKeepsInv(s, t, a);
        StepKeepsSize(s, t, a);
        RunAll(Step(s, t, a), schedule[1..])
      else RunAll(s, schedule[1..])
  }

  lemma StepKeepsSize(s: State, t: nat, a: Action)
    requires WellFormed(s) && Enabled(s, t, a)
    ensures |Step(s, t, a).sequence| == |s.sequence|
  {
  }

  predicate TouchesData(pc: Pc) {
    pc.EnqWrite? || pc.EnqPublish? || pc.DeqRead? || pc.DeqRelease?
  }

  /** At most n tickets are outstanding. */
  ghost predicate Bounded(s: State) {
    s.deq <= s.enq <= s.deq + |s.sequence|
  }

  /** At most one thread is between claiming a position and releasing its cell, for each cell. */
  ghost predicate Separate(s: State)
    requires |s.sequence| > 0
  {
    forall t, v ::
      (&& 0 <= t < |s.threads| && 0 <= v < |s.threads| && TouchesData(s.threads[t]) && TouchesData(s.threads[v])
       && s.threads[t].pos % |s.sequence| == s.threads[v].pos % |s.sequence|) ==> t == v
  }

  /** The value taken at ticket p is the value enqueued at ticket p. */
  ghost predicate TakesTicket(s: State) {
    forall t :: 0 <= t < |s.threads| && s.threads[t].DeqRelease? ==>
      s.threads[t].pos < |s.tickets| && s.threads[t].value == s.tickets[s.threads[t].pos]
  }

  lemma SeparateHolds(s: State)
    requires Inv(s)
    ensures Separate(s)
  {
    hide Split, Stored;
    forall t, v | 0 <= t < |s.threads| && 0 <= v < |s.threads| && TouchesData(s.threads[t]) && TouchesData(s.threads[v])
                  && s.threads[t].pos % |s.sequence| == s.threads[v].pos % |s.sequence|
      ensures t == v {
      assert Knows(|s.sequence|, s.deq, s.stages, s.tickets, t, s.threads[t]);
      assert Knows(|s.sequence|, s.deq, s.stages, s.tickets, v, s.threads[v]);
      InUseApart(s.sequence, s.stages, s.threads[t].pos, s.threads[v].pos);
    }
  }

  lemma BoundedHolds(s: State)
    requires Inv(s)
    ensures Bounded(s)
  {
    hide Stored, Knows;
    var oldest := s.enq - |s.sequence| - 1;
    if oldest >= 0 {
      assert s.stages[oldest].Released?;
    }
  }

  lemma TakesTicketHolds(s: State)
    requires Inv(s)
    ensures TakesTicket(s)
  {
    hide Window, Split, Stored;
    forall t | 0 <= t < |s.threads| && s.threads[t].DeqRelease?
      ensures s.threads[t].pos < |s.tickets| && s.threads[t].value == s.tickets[s.threads[t].pos] {
      assert Knows(|s.sequence|, s.deq, s.stages, s.tickets, t, s.threads[t]);
    }
  }

  /** What holds in every reachable state. */
  lemma RingSafety(n: nat, m: nat, schedule: seq<(nat, Action)>)
    requires n >= 2
    ensures Inv(Init(n, m))
    ensures var s := RunAll(Init(n, m), schedule);
            |s.sequence| == n && Bounded(s) && Separate(s) && TakesTicket(s)
  {
    InitInv(n, m);
    var s := RunAll(Init(n, m), schedule);
    hide Inv, RunAll;
    assert |s.sequence| == n;
    BoundedHolds(s);
    SeparateHolds(s);
    TakesTicketHolds(s);
  }

  // -------------------------------------------------------------------- deliveries

  predicate Done(stage: Stage) {
    stage.Copied? || stage.Released?
  }

  /** Deliveries are of distinct tickets that have been copied out, with the value of the ticket. */
  ghost predicate Recorded(delivered: seq<Delivery>, stages: seq<Stage>, tickets: seq<int>) {
    && (forall k :: 0 <= k < |delivered| ==>
          && delivered[k].ticket < |stages| && Done(stages[delivered[k].ticket])
          && delivered[k].ticket < |tickets| && delivered[k].value == tickets[delivered[k].ticket])
    && (forall k, l :: 0 <= k < l < |delivered| ==> delivered[k].ticket != delivered[l].ticket)
    && (forall k, l :: 0 <= k < l < |delivered| && delivered[k].thread == delivered[l].thread ==> delivered[k].ticket < delivered[l].ticket)
  }

  predicate WasDelivered(delivered: seq<Delivery>, p: nat) {
    exists k :: 0 <= k < |delivered| && delivered[k].ticket == p
  }

  predicate Busy(stage: Stage) {
    !stage.Ready? && !stage.Released?
  }

  /** The thread is in the middle of what the stage of ticket p says. */
  predicate AtWork(pc: Pc, p: nat, stage: Stage) {
    match stage
    case Writing(_) => pc.EnqWrite? && pc.pos == p
    case Written(_) => pc == EnqPublish(p)
    case Reading(_) => pc == DeqRead(p)
    case Copied(_) => pc.DeqRelease? && pc.pos == p
    case _ => true
  }

  /** Every ticket copied out has been delivered, and somebody is at work on every ticket that is not at rest. */
  ghost predicate NoneLost(delivered: seq<Delivery>, stages: seq<Stage>, threads: seq<Pc>) {
    forall p: nat :: p < |stages| ==>
      && (Done(stages[p]) ==> WasDelivered(delivered, p))
      && (Busy(stages[p]) ==> stages[p].thread < |threads| && AtWork(threads[stages[p].thread], p, stages[p]))
  }

  /** A reader's ticket comes after all it has delivered. */
  ghost predicate ReadsOn(delivered: seq<Delivery>, threads: seq<Pc>) {
    forall t, k :: 0 <= t < |threads| && threads[t].DeqRead? && 0 <= k < |delivered| && delivered[k].thread == t ==>
      delivered[k].ticket < threads[t].pos
  }

  ghost predicate DeliveryInv(s: State) {
    Recorded(s.delivered, s.stages, s.tickets) && NoneLost(s.delivered, s.stages, s.threads) && ReadsOn(s.delivered, s.threads)
  }

  /** A step that copies nothing out: tickets keep being done or not, and a reader starts at the dequeue position. */
  ghost predicate Quiet(s: State, t: nat, u: State) {
    && t < |s.threads| && u.delivered == s.delivered && s.tickets <= u.tickets && |s.stages| <= |u.stages|
    && |u.threads| == |s.threads| && (forall v :: 0 <= v < |s.threads| && v != t ==> u.threads[v] == s.threads[v])
    && (forall p :: 0 <= p < |s.stages| ==> Done(u.stages[p]) == Done(s.stages[p]))
    && (forall p :: |s.stages| <= p < |u.stages| ==> u.stages[p].Writing?)
    && !s.threads[t].DeqRead?
    && (forall p: nat :: p < |u.stages| && Busy(u.stages[p]) ==>
          if u.stages[p].thread == t then AtWork(u.threads[t], p, u.stages[p]) else p < |s.stages| && u.stages[p] == s.stages[p])
    && (u.threads[t].DeqRead? ==> u.threads[t].pos == s.deq)
  }

  lemma QuietKeeps(s: State, t: nat, u: State)
    requires DeliveryInv(s) && Quiet(s, t, u) && Split(s.stages, s.deq)
    ensures DeliveryInv(u)
  {
    forall p: nat | p < |u.stages|
      ensures Done(u.stages[p]) ==> WasDelivered(u.delivered, p)
      ensures Busy(u.stages[p]) ==> u.stages[p].thread < |u.threads| && AtWork(u.threads[u.stages[p].thread], p, u.stages[p]) {
      if p < |s.stages| {
        assert Done(u.stages[p]) == Done(s.stages[p]);
      }
    }
    forall k | 0 <= k < |s.delivered| ensures s.delivered[k].ticket < s.deq {
      assert Done(s.stages[s.delivered[k].ticket]);
    }
  }

  lemma EnqueueIsQuiet(s: State, t: nat, spurious: bool)
    requires Inv(s) && t < |s.threads| && Enqueuing(s.threads[t]) && NoneLost(s.delivered, s.stages, s.threads)
    ensures Quiet(s, t, EnqStep(s, t, spurious))
  {
    hide Window, Split, Stored;
    assert Knows(|s.sequence|, s.deq, s.stages, s.tickets, t, s.threads[t]);
  }

  lemma DequeueIsQuiet(s: State, t: nat, spurious: bool)
    requires Inv(s) && t < |s.threads| && !s.threads[t].Idle? && !Enqueuing(s.threads[t]) && !s.threads[t].DeqRead?
    requires NoneLost(s.delivered, s.stages, s.threads)
    ensures Quiet(s, t, DeqStep(s, t, spurious))
  {
    hide Window, Split, Stored;
    assert Knows(|s.sequence|, s.deq, s.stages, s.tickets, t, s.threads[t]);
  }

  /** Copying out delivers the value of the ticket, once. */
  lemma CopyDelivers(s: State, t: nat, pos: nat)
    requires Inv(s) && DeliveryInv(s) && t < |s.threads| && s.threads[t] == DeqRead(pos)
    ensures DeliveryInv(DeqStep(s, t, false))
  {
    hide Window, Split;
    assert Knows(|s.sequence|, s.deq, s.stages, s.tickets, t, s.threads[t]);
    assert Holds(s.stages[pos]) && s.data[pos % |s.data|] == s.tickets[pos];
    hide Stored, Inv;
    var u := DeqStep(s, t, false);
    var d := Delivery(t, pos, s.tickets[pos]);
    assert u.delivered == s.delivered + [d] && u.stages == s.stages[pos := Copied(t)] && u.tickets == s.tickets;
    assert u.threads == s.threads[t := DeqRelease(pos, s.tickets[pos])];
    hide DeqStep;
    RecordedCopy(s.delivered, s.stages, s.tickets, s.threads, t, pos);
    NoneLostCopy(s.delivered, s.stages, s.threads, t, pos, s.tickets[pos]);
  }

  lemma RecordedCopy(delivered: seq<Delivery>, stages: seq<Stage>, tickets: seq<int>, threads: seq<Pc>, t: nat, pos: nat)
    requires Recorded(delivered, stages, tickets) && ReadsOn(delivered, threads)
    requires pos < |stages| && pos < |tickets| && stages[pos] == Reading(t) && t < |threads| && threads[t] == DeqRead(pos)
    ensures Recorded(delivered + [Delivery(t, pos, tickets[pos])], stages[pos := Copied(t)], tickets)
    ensures ReadsOn(delivered + [Delivery(t, pos, tickets[pos])], threads[t := DeqRelease(pos, tickets[pos])])
  {
    assert !Done(stages[pos]);
  }

  lemma NoneLostCopy(delivered: seq<Delivery>, stages: seq<Stage>, threads: seq<Pc>, t: nat, pos: nat, v: int)
    requires NoneLost(delivered, stages, threads)
    requires pos < |stages| && stages[pos] == Reading(t) && t < |threads| && threads[t] == DeqRead(pos)
    ensures NoneLost(delivered + [Delivery(t, pos, v)], stages[pos := Copied(t)], threads[t := DeqRelease(pos, v)])
  {
    var after := delivered + [Delivery(t, pos, v)];
    forall p: nat | p < |stages| && WasDelivered(delivered, p) ensures WasDelivered(after, p) {
      var k :| 0 <= k < |delivered| && delivered[k].ticket == p;
      assert after[k].ticket == p;
    }
    assert after[|delivered|].ticket == pos;
  }

  lemma StepKeepsDelivery(s: State, t: nat, a: Action)
    requires Inv(s) && Enabled(s, t, a) && DeliveryInv(s)
    ensures DeliveryInv(Step(s, t, a))
  {
    hide Recorded, NoneLost, ReadsOn, Quiet, EnqStep, DeqStep, Window, Split, Stored, Knows;
    match a
    case StartEnqueue(v) => StartIsQuiet(s, t, EnqPos(v)); QuietKeeps(s, t, Step(s, t, a));
    case StartDequeue => StartIsQuiet(s, t, DeqPos); QuietKeeps(s, t, Step(s, t, a));
    case Run(spurious) =>
      if Enqueuing(s.threads[t]) {
        EnqueueIsQuiet(s, t, spurious);
        QuietKeeps(s, t, Step(s, t, a));
      } else if s.threads[t].DeqRead? {
        CopyDelivers(s, t, s.threads[t].pos);
        ReadIgnores(s, t, spurious);
      } else {
        DequeueIsQuiet(s, t, spurious);
        QuietKeeps(s, t, Step(s, t, a));
      }
  }

  lemma StartIsQuiet(s: State, t: nat, pc: Pc)
    requires t < |s.threads| && s.threads[t].Idle? && (pc.EnqPos? || pc.DeqPos?) && NoneLost(s.delivered, s.stages, s.threads)
    ensures Quiet(s, t, Goto(s, t, pc))
  {
  }

  lemma ReadIgnores(s: State, t: nat, spurious: bool)
    requires WellFormed(s) && t < |s.threads| && s.threads[t].DeqRead?
    ensures DeqStep(s, t, spurious) == DeqStep(s, t, false)
  {
  }

  lemma {:induction false} RunKeepsDelivery(s: State, schedule: seq<(nat, Action)>)
    requires Inv(s) && DeliveryInv(s)
    ensures DeliveryInv(RunAll(s, schedule))
    decreases |schedule|
  {
    hide DeliveryInv, Step, Window, Split, Stored, Knows;
    if schedule != [] {
      var (t, a) := schedule[0];
      if Enabled(s, t, a) {
        StepKeepsInv(s, t, a);
        StepKeepsDelivery(s, t, a);
        RunKeepsDelivery(Step(s, t, a), schedule[1..]);
      } else {
        RunKeepsDelivery(s, schedule[1..]);
      }
    }
  }

  /** Over the whole run: only tickets claimed by consumers are delivered, each at most once and with the
      value enqueued at it, to each consumer in ticket order. */
  ghost predicate DeliversOnce(s: State) {
    && (forall k :: 0 <= k < |s.delivered| ==>
          var d := s.delivered[k]; d.ticket < s.deq && d.ticket < |s.tickets| && d.value == s.tickets[d.ticket])
    && (forall k, l :: 0 <= k < l < |s.delivered| ==> s.delivered[k].ticket != s.delivered[l].ticket)
    && (forall k, l :: 0 <= k < l < |s.delivered| && s.delivered[k].thread == s.delivered[l].thread ==> s.delivered[k].ticket < s.delivered[l].ticket)
  }

  /** Every ticket claimed by a consumer has been delivered, or its consumer is about to copy it out. */
  ghost predicate LosesNothing(s: State) {
    forall p: nat :: p < s.deq && !WasDelivered(s.delivered, p) ==> exists t :: 0 <= t < |s.threads| && s.threads[t] == DeqRead(p)
  }

  lemma Deliveries(n: nat, m: nat, schedule: seq<(nat, Action)>)
    requires n >= 2 && Inv(Init(n, m))
    ensures var s := RunAll(Init(n, m), schedule); DeliversOnce(s) && LosesNothing(s)
  {
    assert DeliveryInv(Init(n, m));
    var s := RunAll(Init(n, m), schedule);
    RunKeepsDelivery(Init(n, m), schedule);
    hide RunAll, Init, DeliveryInv, Inv, DeliversOnce, LosesNothing;
    FromDeliveryInv(s);
  }

  lemma FromDeliveryInv(s: State)
    requires Inv(s) && DeliveryInv(s)
    ensures DeliversOnce(s) && LosesNothing(s)
  {
    hide Window, Stored, Knows;
    forall k | 0 <= k < |s.delivered| ensures s.delivered[k].ticket < s.deq {
      assert Done(s.stages[s.delivered[k].ticket]);
    }
    forall p: nat | p < s.deq && !WasDelivered(s.delivered, p) ensures exists t :: 0 <= t < |s.threads| && s.threads[t] == DeqRead(p) {
      assert Consuming(s.stages[p]) && !Done(s.stages[p]);
      assert s.stages[p].Reading? && AtWork(s.threads[s.stages[p].thread], p, s.stages[p]);
    }
  }

  /** The next step reports a full queue exactly when all n tickets before the next one are claimed
      and the oldest of them has not been released. */
  ghost predicate FullIsJustified(s: State, t: nat)
    requires WellFormed(s) && t < |s.threads| && s.threads[t].EnqSeq?
  {
    Step(s, t, Run(false)).threads[t].Idle? <==>
      s.threads[t].pos == s.enq && |s.sequence| <= s.enq && !s.stages[s.enq - |s.sequence|].Released?
  }

  /** The next step reports an empty queue exactly when no ticket is at its position, or one still being written. */
  ghost predicate EmptyIsJustified(s: State, t: nat)
    requires WellFormed(s) && Split(s.stages, s.deq) && t < |s.threads| && s.threads[t].DeqSeq?
  {
    Step(s, t, Run(false)).threads[t].Idle? <==>
      s.threads[t].pos == s.deq && (s.deq == s.enq || s.stages[s.deq].Writing? || s.stages[s.deq].Written?)
  }

  lemma FullHolds(s: State, t: nat)
    requires Inv(s) && t < |s.threads| && s.threads[t].EnqSeq?
    ensures FullIsJustified(s, t)
  {
    hide Split, Stored;
    assert Knows(|s.sequence|, s.deq, s.stages, s.tickets, t, s.threads[t]);
    var n, pos := |s.sequence|, s.threads[t].pos;
    EnqueueTest(s.sequence, s.stages, pos);
    if pos == s.enq && n <= pos {
      Shifted(pos, n);
      assert s.sequence[(pos - n) % n] == SequenceOf(pos - n, StageOf(s.stages, pos - n), n);
    }
  }

  lemma EmptyHolds(s: State, t: nat)
    requires Inv(s) && t < |s.threads| && s.threads[t].DeqSeq?
    ensures EmptyIsJustified(s, t)
  {
    hide Stored;
    assert Knows(|s.sequence|, s.deq, s.stages, s.tickets, t, s.threads[t]);
    var n, pos := |s.sequence|, s.threads[t].pos;
    DequeueTest(s.sequence, s.stages, s.deq, pos);
    var p := NewestAt(pos, s.enq, n);
    assert s.sequence[p % n] == SequenceOf(p, StageOf(s.stages, p), n);
    assert p >= 0 ==> (p < s.deq <==> Consuming(s.stages[p]));
    BoundedHolds(s);
  }

  /** In every run full is reported exactly on a full ring. */
  lemma FailedEnqueue(n: nat, m: nat, schedule: seq<(nat, Action)>, t: nat)
    requires n >= 2 && Inv(Init(n, m))
    requires var s := RunAll(Init(n, m), schedule); t < |s.threads| && s.threads[t].EnqSeq?
    ensures FullIsJustified(RunAll(Init(n, m), schedule), t)
  {
    var s := RunAll(Init(n, m), schedule);
    hide RunAll, Init, FullIsJustified;
    FullHolds(s, t);
  }

  /** In every run empty is reported exactly when nothing is ready at the dequeue position. */
  lemma FailedDequeue(n: nat, m: nat, schedule: seq<(nat, Action)>, t: nat)
    requires n >= 2 && Inv(Init(n, m))
    requires var s := RunAll(Init(n, m), schedule); t < |s.threads| && s.threads[t].DeqSeq?
    ensures EmptyIsJustified(RunAll(Init(n, m), schedule), t)
  {
    var s := RunAll(Init(n, m), schedule);
    hide RunAll, Init, EmptyIsJustified;
    EmptyHolds(s, t);
  }

  // ------------------------------------------------------------------------ lone calls

  /** k steps of thread t and of nobody else. */
  function Alone(s: State, t: nat, k: nat): State
    decreases k
  {
    if k == 0 || !WellFormed(s) || !Enabled(s, t, Run(false)) then s else Alone(Step(s, t, Run(false)), t, k - 1)
  }

  lemma InvWellFormed(s: State)
    requires Inv(s)
    ensures WellFormed(s) && s.deq <= s.enq
  {
    hide Window, Stored, Knows;
  }

  lemma OneAlone(s: State, t: nat, k: nat)
    requires Inv(s) && t < |s.threads| && !s.threads[t].Idle? && k > 0
    ensures WellFormed(s) && Enabled(s, t, Run(false)) && Inv(Step(s, t, Run(false)))
    ensures Alone(s, t, k) == Alone(Step(s, t, Run(false)), t, k - 1)
  {
    InvWellFormed(s);
    StepKeepsInv(s, t, Run(false));
    hide Inv, WellFormed, Step;
  }

  lemma NoneAlone(s: State, t: nat)
    ensures Alone(s, t, 0) == s
  {
  }

  /** The cell of the next ticket is free. */
  predicate HasRoom(s: State)
    requires WellFormed(s)
  {
    s.enq < |s.sequence| || s.stages[s.enq - |s.sequence|].Released?
  }

  /** The oldest ticket not claimed by a dequeuer is ready. */
  predicate HasReady(s: State)
    requires WellFormed(s)
  {
    s.deq < s.enq && s.stages[s.deq].Ready?
  }

  /** Wherever the others stand, an enqueue that runs alone appends its value if the next cell is free, and
      changes nothing otherwise. */
  lemma LoneEnqueue(s: State, t: nat, v: int)
    requires Inv(s) && t < |s.threads| && s.threads[t].Idle?
    ensures WellFormed(s)
    ensures !HasRoom(s) ==> Alone(Step(s, t, StartEnqueue(v)), t, 2) == s
    ensures HasRoom(s) ==>
              Alone(Step(s, t, StartEnqueue(v)), t, 5)
              == s.(sequence := s.sequence[s.enq % |s.sequence| := s.enq + 1], data := s.data[s.enq % |s.sequence| := v],
                    enq := s.enq + 1, tickets := s.tickets + [v], stages := s.stages + [Ready])
  {
    InvWellFormed(s);
    StepKeepsInv(s, t, StartEnqueue(v));
    hide Inv, Alone, WellFormed;
    var s0 := Goto(s, t, EnqPos(v));
    OneAlone(s0, t, 5); OneAlone(s0, t, 2);
    var s1 := Goto(s, t, EnqSeq(v, s.enq));
    assert Step(s0, t, Run(false)) == s1;
    OneAlone(s1, t, 4); OneAlone(s1, t, 1);
    SequenceOfNext(s);
    hide HasRoom;
    var s2 := Step(s1, t, Run(false));
    if HasRoom(s) {
      assert s2 == Goto(s, t, EnqCas(v, s.enq));
      hide Step;
      LoneClaim(s, s2, t, v);
    } else {
      assert s.threads[t := EnqSeq(v, s.enq)][t := Idle] == s.threads;
      assert s2 == s;
      NoneAlone(s, t);
    }
  }

  lemma SequenceOfNext(s: State)
    requires Inv(s) && WellFormed(s)
    ensures HasRoom(s) ==> s.sequence[s.enq % |s.sequence|] == s.enq
    ensures !HasRoom(s) ==> s.sequence[s.enq % |s.sequence|] < s.enq
  {
    hide Split, Stored, Knows;
    var n := |s.sequence|;
    Shifted(s.enq, n);
    assert s.sequence[(s.enq - n) % n] == SequenceOf(s.enq - n, StageOf(s.stages, s.enq - n), n);
  }

  lemma LoneClaim(s: State, s2: State, t: nat, v: int)
    requires WellFormed(s) && t < |s.threads| && s.threads[t].Idle? && s2 == Goto(s, t, EnqCas(v, s.enq)) && Inv(s2)
    ensures Alone(s2, t, 3)
         == s.(sequence := s.sequence[s.enq % |s.sequence| := s.enq + 1], data := s.data[s.enq % |s.sequence| := v],
               enq := s.enq + 1, tickets := s.tickets + [v], stages := s.stages + [Ready])
  {
    hide Inv, Alone;
    var p, n := s.enq, |s.sequence|;
    OneAlone(s2, t, 3);
    var c := s.(enq := p + 1, tickets := s.tickets + [v], stages := s.stages + [Writing(t)]);
    var s3 := Goto(c, t, EnqWrite(v, p));
    assert Step(s2, t, Run(false)) == s3;
    OneAlone(s3, t, 2);
    var w := c.(data := s.data[p % n := v], stages := s.stages + [Written(t)]);
    var s4 := Goto(w, t, EnqPublish(p));
    assert (s.stages + [Writing(t)])[p := Written(t)] == s.stages + [Written(t)];
    assert Step(s3, t, Run(false)) == s4;
    OneAlone(s4, t, 1);
    var s5 := w.(sequence := s.sequence[p % n := p + 1], stages := s.stages + [Ready]);
    assert (s.stages + [Written(t)])[p := Ready] == s.stages + [Ready];
    assert s.threads[t := EnqPublish(p)][t := Idle] == s.threads;
    assert Step(s4, t, Run(false)) == s5;
    NoneAlone(s5, t);
  }

  /** Wherever the others stand, a dequeue that runs alone delivers the oldest value if it is ready, and changes
      nothing otherwise. */
  lemma LoneDequeue(s: State, t: nat)
    requires Inv(s) && t < |s.threads| && s.threads[t].Idle?
    ensures WellFormed(s)
    ensures !HasReady(s) ==> Alone(Step(s, t, StartDequeue), t, 2) == s
    ensures HasReady(s) ==>
              Alone(Step(s, t, StartDequeue), t, 5)
              == s.(sequence := s.sequence[s.deq % |s.sequence| := s.deq + |s.sequence|], deq := s.deq + 1,
                    stages := s.stages[s.deq := Released], delivered := s.delivered + [Delivery(t, s.deq, s.tickets[s.deq])])
  {
    InvWellFormed(s);
    StepKeepsInv(s, t, StartDequeue);
    var s0 := Goto(s, t, DeqPos);
    SequenceOfOldest(s);
    hide Inv, Alone, WellFormed, HasReady;
    OneAlone(s0, t, 5); OneAlone(s0, t, 2);
    var s1 := Goto(s, t, DeqSeq(s.deq));
    assert Step(s0, t, Run(false)) == s1;
    OneAlone(s1, t, 4); OneAlone(s1, t, 1);
    var s2 := Step(s1, t, Run(false));
    if HasReady(s) {
      assert s2 == Goto(s, t, DeqCas(s.deq));
      hide Step;
      LoneTake(s, s2, t);
    } else {
      assert s.threads[t := DeqSeq(s.deq)][t := Idle] == s.threads;
      assert s2 == s;
      NoneAlone(s, t);
    }
  }

  lemma SequenceOfOldest(s: State)
    requires Inv(s) && WellFormed(s)
    ensures HasReady(s) ==> s.sequence[s.deq % |s.sequence|] == s.deq + 1 && s.data[s.deq % |s.sequence|] == s.tickets[s.deq]
    ensures !HasReady(s) ==> s.sequence[s.deq % |s.sequence|] < s.deq + 1
  {
    hide Knows;
    BoundedHolds(s);
    var n := |s.sequence|;
    if s.deq == s.enq {
      Shifted(s.enq, n);
      assert s.sequence[(s.enq - n) % n] == SequenceOf(s.enq - n, StageOf(s.stages, s.enq - n), n);
    } else {
      assert s.sequence[s.deq % n] == SequenceOf(s.deq, StageOf(s.stages, s.deq), n);
      assert !Consuming(s.stages[s.deq]);
      assert Holds(s.stages[s.deq]) ==> s.data[s.deq % |s.data|] == s.tickets[s.deq];
    }
  }

  lemma LoneTake(s: State, s2: State, t: nat)
    requires WellFormed(s) && t < |s.threads| && s.threads[t].Idle? && s2 == Goto(s, t, DeqCas(s.deq)) && Inv(s2) && HasReady(s)
    requires s.data[s.deq % |s.sequence|] == s.tickets[s.deq]
    ensures Alone(s2, t, 3)
         == s.(sequence := s.sequence[s.deq % |s.sequence| := s.deq + |s.sequence|], deq := s.deq + 1,
               stages := s.stages[s.deq := Released], delivered := s.delivered + [Delivery(t, s.deq, s.tickets[s.deq])])
  {
    hide Inv, Alone;
    var p, n, v := s.deq, |s.sequence|, s.tickets[s.deq];
    OneAlone(s2, t, 3);
    var c := s.(deq := p + 1, stages := s.stages[p := Reading(t)]);
    var s3 := Goto(c, t, DeqRead(p));
    assert Step(s2, t, Run(false)) == s3;
    OneAlone(s3, t, 2);
    var r := c.(stages := s.stages[p := Copied(t)], delivered := s.delivered + [Delivery(t, p, v)]);
    var s4 := Goto(r, t, DeqRelease(p, v));
    assert s.stages[p := Reading(t)][p := Copied(t)] == s.stages[p := Copied(t)];
    assert Step(s3, t, Run(false)) == s4;
    OneAlone(s4, t, 1);
    var s5 := r.(sequence := s.sequence[p % n := p + n], stages := s.stages[p := Released]);
    assert s.stages[p := Copied(t)][p := Released] == s.stages[p := Released];
    assert s.threads[t := DeqRelease(p, v)][t := Idle] == s.threads;
    assert Step(s4, t, Run(false)) == s5;
    NoneAlone(s5, t);
  }

  /** In every run with no call in progress, there is room exactly while fewer than n values are in the ring,
      and one is ready exactly when there is any. */
  lemma QuietRing(n: nat, m: nat, schedule: seq<(nat, Action)>)
    requires n >= 2 && Inv(Init(n, m))
    requires var s := RunAll(Init(n, m), schedule); forall t :: 0 <= t < |s.threads| ==> s.threads[t].Idle?
    ensures var s := RunAll(Init(n, m), schedule);
            WellFormed(s) && (HasRoom(s) <==> s.enq < s.deq + n) && (HasReady(s) <==> s.deq < s.enq)
  {
    assert DeliveryInv(Init(n, m));
    var s := RunAll(Init(n, m), schedule);
    RunKeepsDelivery(Init(n, m), schedule);
    InvWellFormed(s);
    hide RunAll, Init, Window, Stored, Knows;
    assert |s.sequence| == n;
    forall p: nat | p < |s.stages| ensures !Busy(s.stages[p]) && (s.stages[p].Released? <==> p < s.deq) {
    }
  }
}
