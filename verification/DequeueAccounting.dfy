/** The optimistic dequeue accounting of moodycamel::ConcurrentQueue's explicit producer, as a step
    machine: one producer, any number of consumers, single and bulk dequeues.

    One step is one atomic load, store or fetch_add of one thread; memory is sequentially consistent.
    A single dequeue is a bulk dequeue of at most one element.  The four counters are unbounded
    here; `CircularTests` relates the tests on 64-bit words to the tests used by the steps. */
module DequeueAccounting {
  import opened Prelude

  /** What became of one unit of dequeueOptimisticCount: claimed and undecided, promised an element,
      exchanged for an element, or given back through dequeueOvercommit. */
  datatype Claim = Open(thread: nat) | Granted(thread: nat) | Taken | Over

  datatype Pc =
    | Idle
    | LoadTail(max: nat)
    | LoadOver(max: nat, tail: nat)
    | LoadOptimistic(max: nat, tail: nat, over: nat)
    | AddOptimistic(desired: nat, over: nat)
    | ReloadTail(desired: nat, over: nat, mine: nat)
    | AddOver(desired: nat, mine: nat, actual: nat)
    | AddHead(mine: nat, actual: nat)
    | Take(first: nat, actual: nat)

  /** claims (one per unit of the optimistic count) and takers (one per dequeued index) are history
      variables: no step reads them. */
  datatype State = State(
    tail: nat, head: nat, optimistic: nat, overcommit: nat, threads: seq<Pc>,
    claims: seq<Claim>, takers: seq<nat>)

  datatype Action = Enqueue(count: nat) | Dequeue(thread: nat, max: nat) | Run(thread: nat)

  predicate Enabled(s: State, a: Action) {
    match a
    case Enqueue(_) => true
    case Dequeue(t, _) => t < |s.threads| && s.threads[t].Idle?
    case Run(t) => t < |s.threads| && !s.threads[t].Idle?
  }

  function Repeat<T>(x: T, n: nat): (r: seq<T>)
    ensures |r| == n && forall i :: 0 <= i < n ==> r[i] == x
  {
    seq(n, i => x)
  }

  /** Claims lo up to hi change to c. */
  function Paint(claims: seq<Claim>, lo: nat, hi: nat, c: Claim): (r: seq<Claim>)
    requires lo <= hi <= |claims|
    ensures |r| == |claims|
    ensures forall i :: 0 <= i < |r| ==> r[i] == if lo <= i < hi then c else claims[i]
  {
    claims[..lo] + Repeat(c, hi - lo) + claims[hi..]
  }

  // -------------------------------------------------------------------- the steps

  function Goto(s: State, t: nat, pc: Pc): State
    requires t < |s.threads|
  {
    s.(threads := s.threads[t := pc])
  }

  /** The test after the second load of tail: how many of the desired elements exist. */
  function Actual(tail: nat, mine: nat, over: nat, desired: nat): nat {
    if tail - (mine - over) <= 0 then 0 else Min(desired, tail - (mine - over))
  }

  /** Every interval a thread works on lies within the claims. */
  predicate InRange(s: State) {
    forall t :: 0 <= t < |s.threads| ==> IntervalInRange(s.threads[t], |s.claims|)
  }

  predicate IntervalInRange(pc: Pc, n: nat) {
    && (pc.ReloadTail? ==> pc.mine + pc.desired <= n)
    && (pc.AddOver? ==> pc.actual <= pc.desired && pc.mine + pc.desired <= n)
    && (pc.AddHead? ==> pc.mine + pc.actual <= n)
  }

  function RunStep(s: State, t: nat): State
    requires t < |s.threads| && InRange(s)
  {
    assert IntervalInRange(s.threads[t], |s.claims|);
    match s.threads[t]
    case Idle => s
    case LoadTail(max) => Goto(s, t, LoadOver(max, s.tail))
    case LoadOver(max, tail) => Goto(s, t, LoadOptimistic(max, tail, s.overcommit))
    case LoadOptimistic(max, tail, over) =>
      var available := tail - (s.optimistic - over);
      Goto(s, t, if available > 0 then AddOptimistic(Min(available, max), over) else Idle)
    case AddOptimistic(desired, over) =>
      Goto(s.(optimistic := s.optimistic + desired, claims := s.claims + Repeat(Open(t), desired)),
           t, ReloadTail(desired, over, s.optimistic))
    case ReloadTail(desired, over, mine) =>
      var actual := Actual(s.tail, mine, over, desired);
      Goto(s.(claims := Paint(s.claims, mine, mine + actual, Granted(t))), t,
           if actual < desired then AddOver(desired, mine, actual)
           else if s.tail - (mine - over) > 0 then AddHead(mine, actual)
           else AddOver(desired, mine, 0))
    case AddOver(desired, mine, actual) =>
      Goto(s.(overcommit := s.overcommit + (desired - actual), claims := Paint(s.claims, mine + actual, mine + desired, Over)),
           t, if actual > 0 then AddHead(mine, actual) else Idle)
    case AddHead(mine, actual) =>
      Goto(s.(head := s.head + actual, takers := s.takers + Repeat(t, actual), claims := Paint(s.claims, mine, mine + actual, Taken)),
           t, Take(s.head, actual))
    case Take(_, _) => Goto(s, t, Idle)
  }

  function Step(s: State, a: Action): State
    requires InRange(s) && Enabled(s, a)
  {
    match a
    case Enqueue(k) => s.(tail := s.tail + k)
    case Dequeue(t, max) => Goto(s, t, LoadTail(max))
    case Run(t) => RunStep(s, t)
  }

  // ---------------------------------------------------------------- the invariant

  function Tally(claims: seq<Claim>, c: Claim): nat {
    if claims == [] then 0 else Tally(claims[..|claims| - 1], c) + if claims[|claims| - 1] == c then 1 else 0
  }

  /** All of claims lo up to hi are c. */
  predicate All(claims: seq<Claim>, lo: nat, hi: nat, c: Claim) {
    lo <= hi <= |claims| && forall i :: lo <= i < hi ==> claims[i] == c
  }

  predicate Won(c: Claim) {
    c.Granted? || c.Taken?
  }

  /** A won claim, not counting those given back before it, lies below the tail. */
  ghost predicate Covered(claims: seq<Claim>, tail: nat) {
    forall i :: 0 <= i < |claims| && Won(claims[i]) ==> i + 1 - Tally(claims[..i + 1], Over) <= tail
  }

  /** Thread t, about to run pc, still answers for an undecided or unredeemed claim i. */
  predicate AnswersOpen(pc: Pc, i: nat) {
    || (pc.ReloadTail? && pc.mine <= i < pc.mine + pc.desired)
    || (pc.AddOver? && pc.mine + pc.actual <= i < pc.mine + pc.desired)
  }

  predicate AnswersGranted(pc: Pc, i: nat) {
    (pc.AddOver? || pc.AddHead?) && pc.mine <= i < pc.mine + pc.actual
  }

  ghost predicate Answered(claims: seq<Claim>, threads: seq<Pc>) {
    && (forall i :: 0 <= i < |claims| && claims[i].Open? ==> claims[i].thread < |threads| && AnswersOpen(threads[claims[i].thread], i))
    && (forall i :: 0 <= i < |claims| && claims[i].Granted? ==> claims[i].thread < |threads| && AnswersGranted(threads[claims[i].thread], i))
  }

  predicate TookAll(takers: seq<nat>, first: nat, count: nat, t: nat) {
    first + count <= |takers| && forall i :: first <= i < first + count ==> takers[i] == t
  }

  ghost predicate Knows(claims: seq<Claim>, takers: seq<nat>, t: nat, pc: Pc) {
    match pc
    case LoadOptimistic(_, _, over) => over <= Tally(claims, Over)
    case AddOptimistic(_, over) => over <= Tally(claims, Over)
    case ReloadTail(desired, over, mine) =>
      All(claims, mine, mine + desired, Open(t)) && over <= Tally(claims[..mine], Over)
    case AddOver(desired, mine, actual) =>
      actual <= desired && All(claims, mine, mine + actual, Granted(t)) && All(claims, mine + actual, mine + desired, Open(t))
    case AddHead(mine, actual) => All(claims, mine, mine + actual, Granted(t))
    case Take(first, actual) => TookAll(takers, first, actual, t)
    case _ => true
  }

  ghost predicate Counters(s: State) {
    && s.optimistic == |s.claims| && s.overcommit == Tally(s.claims, Over)
    && s.head == Tally(s.claims, Taken) == |s.takers|
  }

  ghost predicate SharedOk(s: State) {
    Counters(s) && Covered(s.claims, s.tail) && Answered(s.claims, s.threads)
  }

  ghost predicate Inv(s: State) {
    SharedOk(s) && forall t :: 0 <= t < |s.threads| ==> Knows(s.claims, s.takers, t, s.threads[t])
  }

  lemma InvInRange(s: State)
    requires Inv(s)
    ensures InRange(s)
  {
    hide SharedOk;
    forall t | 0 <= t < |s.threads| ensures IntervalInRange(s.threads[t], |s.claims|) {
      assert Knows(s.claims, s.takers, t, s.threads[t]);
    }
  }

  // ----------------------------------------------------------------------- tallies

  lemma {:induction false} TallyConcat(a: seq<Claim>, b: seq<Claim>, c: Claim)
    ensures Tally(a + b, c) == Tally(a, c) + Tally(b, c)
  {
    if b == [] {
      assert a + b == a;
    } else {
      var m := |b| - 1;
      assert (a + b)[..|a + b| - 1] == a + b[..m];
      TallyConcat(a, b[..m], c);
    }
  }

  lemma {:induction false} TallyBound(a: seq<Claim>, c: Claim)
    ensures Tally(a, c) <= |a|
    ensures (forall i :: 0 <= i < |a| ==> a[i] == c) ==> Tally(a, c) == |a|
    ensures (forall i :: 0 <= i < |a| ==> a[i] != c) ==> Tally(a, c) == 0
  {
    if a != [] {
      TallyBound(a[..|a| - 1], c);
    }
  }

  lemma {:induction false} TallyMono(a: seq<Claim>, b: seq<Claim>, c: Claim)
    requires |a| <= |b| && forall i :: 0 <= i < |a| && a[i] == c ==> b[i] == c
    ensures Tally(a, c) <= Tally(b, c)
  {
    if |a| < |b| {
      TallyMono(a, b[..|b| - 1], c);
    } else if a != [] {
      TallyMono(a[..|a| - 1], b[..|b| - 1], c);
    }
  }

  /** Painting an interval adds its length to the new kind and takes it from the old one. */
  lemma TallyPaint(claims: seq<Claim>, lo: nat, hi: nat, was: Claim, now: Claim, c: Claim)
    requires All(claims, lo, hi, was) && was != now
    ensures Tally(Paint(claims, lo, hi, now), c)
         == Tally(claims, c) + (if c == now then hi - lo else 0) - (if c == was then hi - lo else 0)
  {
    hide Tally;
    var before, mid, after, painted := claims[..lo], claims[lo..hi], claims[hi..], Repeat(now, hi - lo);
    assert claims == before + mid + after;
    assert Paint(claims, lo, hi, now) == before + painted + after;
    TallyConcat(before + mid, after, c); TallyConcat(before, mid, c);
    TallyConcat(before + painted, after, c); TallyConcat(before, painted, c);
    TallyBound(mid, c); TallyBound(painted, c);
  }

  lemma TallyAppend(claims: seq<Claim>, t: nat, n: nat, c: Claim)
    requires c.Taken? || c.Over?
    ensures Tally(claims + Repeat(Open(t), n), c) == Tally(claims, c)
  {
    TallyConcat(claims, Repeat(Open(t), n), c);
    TallyBound(Repeat(Open(t), n), c);
  }

  // ------------------------------------------------------------------ preservation

  /** How the history may change under one step of thread t: claims of other threads stay, nothing
      given back is ever withdrawn. */
  predicate Evolves(s: State, t: nat, u: State) {
    && |u.threads| == |s.threads| && (forall v :: 0 <= v < |s.threads| && v != t ==> u.threads[v] == s.threads[v])
    && |s.claims| <= |u.claims| && s.takers <= u.takers
    && (forall i :: 0 <= i < |s.claims| && s.claims[i] == Over ==> u.claims[i] == Over)
    && (forall i :: 0 <= i < |s.claims| && s.claims[i] != u.claims[i] ==> s.claims[i] == Open(t) || s.claims[i] == Granted(t))
  }

  lemma OtherThread(s: State, t: nat, u: State, v: nat)
    requires Evolves(s, t, u) && v < |s.threads| && v != t && Knows(s.claims, s.takers, v, s.threads[v])
    ensures Knows(u.claims, u.takers, v, u.threads[v])
  {
    TallyMono(s.claims, u.claims, Over);
    if s.threads[v].ReloadTail? {
      TallyMono(s.claims[..s.threads[v].mine], u.claims[..s.threads[v].mine], Over);
    }
  }

  ghost predicate StepOk(s: State, t: nat, u: State) {
    SharedOk(u) && Evolves(s, t, u) && t < |u.threads| && Knows(u.claims, u.takers, t, u.threads[t])
  }

  lemma OthersOk(s: State, t: nat, u: State)
    requires Inv(s) && t < |s.threads| && StepOk(s, t, u)
    ensures Inv(u)
  {
    hide SharedOk;
    forall v | 0 <= v < |u.threads| ensures Knows(u.claims, u.takers, v, u.threads[v]) {
      assert v < |s.threads| && Knows(s.claims, s.takers, v, s.threads[v]);
      hide Knows, Evolves;
      if v != t { OtherThread(s, t, u, v); }
    }
  }

  /** A thread that holds no claim may move to any point where it holds none. */
  predicate Detached(pc: Pc) {
    !pc.ReloadTail? && !pc.AddOver? && !pc.AddHead?
  }

  lemma LocalStepOk(s: State, t: nat, pc: Pc)
    requires SharedOk(s) && t < |s.threads| && Detached(s.threads[t]) && Detached(pc) && Knows(s.claims, s.takers, t, pc)
    ensures StepOk(s, t, Goto(s, t, pc))
  {
    hide Covered, Knows;
    var u := Goto(s, t, pc);
    forall i | 0 <= i < |u.claims| && u.claims[i].Open?
      ensures u.claims[i].thread < |u.threads| && AnswersOpen(u.threads[u.claims[i].thread], i) {
      assert AnswersOpen(s.threads[s.claims[i].thread], i);
    }
    forall i | 0 <= i < |u.claims| && u.claims[i].Granted?
      ensures u.claims[i].thread < |u.threads| && AnswersGranted(u.threads[u.claims[i].thread], i) {
      assert AnswersGranted(s.threads[s.claims[i].thread], i);
    }
  }

  /** Repainting a thread's own claims lo..hi, all of them was before, while it moves to pc. */
  lemma AnsweredPaint(claims: seq<Claim>, threads: seq<Pc>, t: nat, lo: nat, hi: nat, c: Claim, pc: Pc)
    requires Answered(claims, threads) && t < |threads| && lo <= hi <= |claims|
    requires c.Taken? || c.Over? || c == Granted(t)
    requires forall i: nat :: i < |claims| && !(lo <= i < hi) && AnswersOpen(threads[t], i) ==> AnswersOpen(pc, i)
    requires forall i: nat :: i < |claims| && !(lo <= i < hi) && AnswersGranted(threads[t], i) ==> AnswersGranted(pc, i)
    requires c.Granted? ==> forall i: nat :: lo <= i < hi ==> AnswersGranted(pc, i)
    ensures Answered(Paint(claims, lo, hi, c), threads[t := pc])
  {
    hide AnswersOpen, AnswersGranted;
  }

  lemma CoveredMono(claims: seq<Claim>, after: seq<Claim>, tail: nat)
    requires Covered(claims, tail) && |claims| <= |after|
    requires forall i :: 0 <= i < |claims| && claims[i] == Over ==> after[i] == Over
    requires forall i :: 0 <= i < |after| && Won(after[i]) ==> i < |claims| && Won(claims[i])
    ensures Covered(after, tail)
  {
    forall i | 0 <= i < |after| && Won(after[i]) ensures i + 1 - Tally(after[..i + 1], Over) <= tail {
      TallyMono(claims[..i + 1], after[..i + 1], Over);
    }
  }

  /** The decision: every claim granted now is covered by the tail just read, although over is old. */
  lemma CoveredGrant(claims: seq<Claim>, tail: nat, t: nat, mine: nat, over: nat, desired: nat)
    requires Covered(claims, tail) && All(claims, mine, mine + desired, Open(t)) && over <= Tally(claims[..mine], Over)
    ensures Covered(Paint(claims, mine, mine + Actual(tail, mine, over, desired), Granted(t)), tail)
  {
    hide Tally;
    var actual := Actual(tail, mine, over, desired);
    var after := Paint(claims, mine, mine + actual, Granted(t));
    forall i | 0 <= i < |after| && Won(after[i]) ensures i + 1 - Tally(after[..i + 1], Over) <= tail {
      if mine <= i < mine + actual {
        TallyMono(claims[..mine], after[..i + 1], Over);
      } else {
        TallyMono(claims[..i + 1], after[..i + 1], Over);
      }
    }
  }

  lemma EvolvesPaint(s: State, t: nat, u: State, lo: nat, hi: nat, was: Claim, now: Claim, pc: Pc)
    requires t < |s.threads| && All(s.claims, lo, hi, was) && (was == Open(t) || was == Granted(t))
    requires u.claims == Paint(s.claims, lo, hi, now) && u.threads == s.threads[t := pc] && s.takers <= u.takers
    ensures Evolves(s, t, u)
  {
  }

  lemma ClaimStepOk(s: State, t: nat, desired: nat, over: nat)
    requires SharedOk(s) && t < |s.threads| && s.threads[t] == AddOptimistic(desired, over) && over <= Tally(s.claims, Over)
    ensures StepOk(s, t, Goto(s.(optimistic := s.optimistic + desired, claims := s.claims + Repeat(Open(t), desired)),
                              t, ReloadTail(desired, over, s.optimistic)))
  {
    hide Covered, Answered, Tally, Repeat;
    var after := s.claims + Repeat(Open(t), desired);
    TallyAppend(s.claims, t, desired, Over);
    TallyAppend(s.claims, t, desired, Taken);
    CoveredMono(s.claims, after, s.tail);
    assert after[..s.optimistic] == s.claims;
    AnsweredAppend(s.claims, s.threads, t, desired, ReloadTail(desired, over, s.optimistic));
  }

  lemma AnsweredAppend(claims: seq<Claim>, threads: seq<Pc>, t: nat, n: nat, pc: Pc)
    requires Answered(claims, threads) && t < |threads| && Detached(threads[t])
    requires pc.ReloadTail? && pc.mine == |claims| && pc.desired == n
    ensures Answered(claims + Repeat(Open(t), n), threads[t := pc])
  {
  }

  lemma GrantStepOk(s: State, t: nat, desired: nat, over: nat, mine: nat, pc: Pc)
    requires SharedOk(s) && t < |s.threads| && s.threads[t] == ReloadTail(desired, over, mine)
    requires Knows(s.claims, s.takers, t, s.threads[t])
    requires var actual := Actual(s.tail, mine, over, desired);
             pc == AddOver(desired, mine, actual) || (actual == desired && pc == AddHead(mine, actual))
    ensures StepOk(s, t, Goto(s.(claims := Paint(s.claims, mine, mine + Actual(s.tail, mine, over, desired), Granted(t))), t, pc))
  {
    hide Covered, Answered, Tally, Evolves, Repeat, Paint;
    var hi := mine + Actual(s.tail, mine, over, desired);
    TallyPaint(s.claims, mine, hi, Open(t), Granted(t), Over);
    TallyPaint(s.claims, mine, hi, Open(t), Granted(t), Taken);
    CoveredGrant(s.claims, s.tail, t, mine, over, desired);
    AnsweredPaint(s.claims, s.threads, t, mine, hi, Granted(t), pc);
    var u := Goto(s.(claims := Paint(s.claims, mine, hi, Granted(t))), t, pc);
    EvolvesPaint(s, t, u, mine, hi, Open(t), Granted(t), pc);
  }

  lemma GiveBackStepOk(s: State, t: nat, desired: nat, mine: nat, actual: nat, pc: Pc)
    requires SharedOk(s) && t < |s.threads| && s.threads[t] == AddOver(desired, mine, actual)
    requires Knows(s.claims, s.takers, t, s.threads[t])
    requires pc == if actual > 0 then AddHead(mine, actual) else Idle
    ensures StepOk(s, t, Goto(s.(overcommit := s.overcommit + (desired - actual), claims := Paint(s.claims, mine + actual, mine + desired, Over)), t, pc))
  {
    hide Covered, Answered, Tally, Evolves, Repeat, Paint;
    TallyPaint(s.claims, mine + actual, mine + desired, Open(t), Over, Over);
    TallyPaint(s.claims, mine + actual, mine + desired, Open(t), Over, Taken);
    CoveredMono(s.claims, Paint(s.claims, mine + actual, mine + desired, Over), s.tail);
    AnsweredPaint(s.claims, s.threads, t, mine + actual, mine + desired, Over, pc);
    var u := Goto(s.(overcommit := s.overcommit + (desired - actual), claims := Paint(s.claims, mine + actual, mine + desired, Over)), t, pc);
    EvolvesPaint(s, t, u, mine + actual, mine + desired, Open(t), Over, pc);
  }

  lemma RedeemStepOk(s: State, t: nat, mine: nat, actual: nat)
    requires SharedOk(s) && t < |s.threads| && s.threads[t] == AddHead(mine, actual)
    requires Knows(s.claims, s.takers, t, s.threads[t])
    ensures StepOk(s, t, Goto(s.(head := s.head + actual, takers := s.takers + Repeat(t, actual), claims := Paint(s.claims, mine, mine + actual, Taken)), t, Take(s.head, actual)))
  {
    hide Covered, Answered, Tally, Evolves, Repeat, Paint;
    TallyPaint(s.claims, mine, mine + actual, Granted(t), Taken, Over);
    TallyPaint(s.claims, mine, mine + actual, Granted(t), Taken, Taken);
    CoveredMono(s.claims, Paint(s.claims, mine, mine + actual, Taken), s.tail);
    AnsweredPaint(s.claims, s.threads, t, mine, mine + actual, Taken, Take(s.head, actual));
    var u := Goto(s.(head := s.head + actual, takers := s.takers + Repeat(t, actual), claims := Paint(s.claims, mine, mine + actual, Taken)), t, Take(s.head, actual));
    EvolvesPaint(s, t, u, mine, mine + actual, Granted(t), Taken, Take(s.head, actual));
  }

  lemma RunStepOk(s: State, t: nat)
    requires Inv(s) && InRange(s) && t < |s.threads| && !s.threads[t].Idle?
    ensures StepOk(s, t, RunStep(s, t))
  {
    hide Covered, Answered, Tally, Evolves, Repeat, Paint, StepOk, Goto, All, TookAll;
    assert SharedOk(s) && Knows(s.claims, s.takers, t, s.threads[t]);
    assert s.overcommit == Tally(s.claims, Over) && s.optimistic == |s.claims|;
    assert IntervalInRange(s.threads[t], |s.claims|);
    hide Inv, SharedOk, InRange;
    match s.threads[t]
    case LoadTail(max) => LocalStepOk(s, t, LoadOver(max, s.tail));
    case LoadOver(max, tail) => LocalStepOk(s, t, LoadOptimistic(max, tail, s.overcommit));
    case LoadOptimistic(max, tail, over) =>
      var available := tail - (s.optimistic - over);
      LocalStepOk(s, t, if available > 0 then AddOptimistic(Min(available, max), over) else Idle);
    case AddOptimistic(desired, over) => ClaimStepOk(s, t, desired, over);
    case ReloadTail(desired, over, mine) =>
      var actual := Actual(s.tail, mine, over, desired);
      GrantStepOk(s, t, desired, over, mine,
                  if actual == desired && s.tail - (mine - over) > 0 then AddHead(mine, actual) else AddOver(desired, mine, actual));
    case AddOver(desired, mine, actual) => GiveBackStepOk(s, t, desired, mine, actual, if actual > 0 then AddHead(mine, actual) else Idle);
    case AddHead(mine, actual) => RedeemStepOk(s, t, mine, actual);
    case Take(_, _) => LocalStepOk(s, t, Idle);
  }

  /** Every step of every thread keeps the invariant. */
  lemma StepKeepsInv(s: State, a: Action)
    requires Inv(s) && InRange(s) && Enabled(s, a)
    ensures Inv(Step(s, a))
  {
    match a
    case Enqueue(k) =>
      hide Knows, Answered;
    case Dequeue(t, max) =>
      LocalStepOk(s, t, LoadTail(max));
      hide StepOk, SharedOk;
      OthersOk(s, t, Step(s, a));
    case Run(t) =>
      RunStepOk(s, t);
      hide StepOk, SharedOk, RunStep;
      OthersOk(s, t, Step(s, a));
  }

  // ---------------------------------------------------------------- the accounting

  lemma {:induction false} WonBelowTail(claims: seq<Claim>, tail: nat, n: nat)
    requires Covered(claims, tail) && n <= |claims|
    ensures Tally(claims[..n], Taken) <= tail
  {
    if n > 0 {
      assert claims[..n][..n - 1] == claims[..n - 1];
      if Won(claims[n - 1]) {
        TalliesFit(claims[..n]);
      } else {
        WonBelowTail(claims, tail, n - 1);
      }
    }
  }

  lemma {:induction false} TalliesFit(claims: seq<Claim>)
    ensures Tally(claims, Taken) + Tally(claims, Over) <= |claims|
    ensures (forall i :: 0 <= i < |claims| ==> claims[i] == Taken || claims[i] == Over) ==>
              Tally(claims, Taken) + Tally(claims, Over) == |claims|
  {
    if claims != [] {
      TalliesFit(claims[..|claims| - 1]);
    }
  }

  lemma HeadBelowTail(s: State)
    requires Inv(s)
    ensures s.head <= s.tail
  {
    assert s.claims[..|s.claims|] == s.claims;
    WonBelowTail(s.claims, s.tail, |s.claims|);
  }

  lemma RedeemableHolds(s: State, t: nat)
    requires Inv(s) && t < |s.threads| && s.threads[t].AddHead?
    ensures s.head + s.threads[t].actual <= s.tail
  {
    InvInRange(s);
    StepKeepsInv(s, Run(t));
    hide Inv;
    HeadBelowTail(Step(s, Run(t)));
  }

  /** No consumer holds a claim. */
  predicate NoneDeciding(s: State) {
    forall t :: 0 <= t < |s.threads| ==> Detached(s.threads[t])
  }

  lemma CountsAgree(s: State)
    requires Inv(s) && NoneDeciding(s)
    ensures s.optimistic - s.overcommit == s.head
  {
    TalliesFit(s.claims);
    hide Covered, Tally;
  }

  function Steps(s: State, t: nat, n: nat): State
    requires Inv(s) && t < |s.threads|
    decreases n
  {
    InvInRange(s);
    if n == 0 || s.threads[t].Idle? then s
    else
      StepKeepsInv(s, Run(t));
      RunKeepsThreads(s, t);
      Steps(RunStep(s, t), t, n - 1)
  }

  lemma RunKeepsThreads(s: State, t: nat)
    requires InRange(s) && t < |s.threads|
    ensures |RunStep(s, t).threads| == |s.threads|
  {
  }

  /** A dequeue that runs alone: it takes the oldest min(max, size) elements, and reports an empty
      queue exactly when there is none. */
  lemma LoneDequeue(s: State, t: nat, max: nat)
    requires Inv(s) && t < |s.threads| && forall v :: 0 <= v < |s.threads| ==> s.threads[v].Idle?
    ensures InRange(s) && Inv(Step(s, Dequeue(t, max)))
    ensures s.tail == s.head ==> Steps(Step(s, Dequeue(t, max)), t, 3) == s
    ensures s.tail > s.head ==> Steps(Step(s, Dequeue(t, max)), t, 6).threads[t] == Take(s.head, Min(max, s.tail - s.head))
  {
    CountsAgree(s);
    HeadBelowTail(s);
    InvInRange(s);
    StepKeepsInv(s, Dequeue(t, max));
    var desired := Min(max, s.tail - s.head);
    var s1 := Step(s, Dequeue(t, max));
    hide Inv, InRange, Paint, Repeat;
    AfterLoads(s1, t, max);
    if s.tail == s.head {
      assert s.threads[t := Idle] == s.threads;
    } else {
      assert s1.head == s.head && s1.tail == s.tail;
    }
  }

  /** One step of a run, with the state it leads to. */
  lemma StepsUnfold(s: State, t: nat, n: nat, u: State)
    requires Inv(s) && InRange(s) && t < |s.threads| && !s.threads[t].Idle? && n > 0 && u == RunStep(s, t)
    ensures Inv(u) && InRange(u) && |u.threads| == |s.threads| && Steps(s, t, n) == Steps(u, t, n - 1)
  {
    hide Inv, InRange, RunStep;
    StepKeepsInv(s, Run(t));
    RunKeepsThreads(s, t);
    InvInRange(u);
  }

  lemma AfterLoads(s: State, t: nat, max: nat)
    requires Inv(s) && InRange(s) && t < |s.threads| && s.threads[t] == LoadTail(max)
    requires s.optimistic - s.overcommit == s.head <= s.tail
    ensures s.tail == s.head ==> Steps(s, t, 3) == Goto(s, t, Idle)
    ensures s.tail > s.head ==> Steps(s, t, 6).threads[t] == Take(s.head, Min(max, s.tail - s.head))
  {
    hide Inv, InRange, Paint, Repeat, Steps;
    var n := if s.tail == s.head then 3 else 6;
    var s1 := Goto(s, t, LoadOver(max, s.tail));
    StepsUnfold(s, t, n, s1);
    var s2 := Goto(s1, t, LoadOptimistic(max, s.tail, s.overcommit));
    StepsUnfold(s1, t, n - 1, s2);
    if s.tail == s.head {
      StepsUnfold(s2, t, 1, Goto(s2, t, Idle));
      StepsDone(Goto(s2, t, Idle), t);
      assert Goto(s2, t, Idle) == Goto(s, t, Idle);
    } else {
      var desired := Min(max, s.tail - s.head);
      var s3 := Goto(s2, t, AddOptimistic(desired, s.overcommit));
      StepsUnfold(s2, t, 4, s3);
      LoneGrant(s3, t, desired);
    }
  }

  lemma StepsDone(s: State, t: nat)
    requires Inv(s) && t < |s.threads|
    ensures Steps(s, t, 0) == s
  {
  }

  lemma LoneGrant(s: State, t: nat, desired: nat)
    requires Inv(s) && InRange(s) && t < |s.threads| && s.threads[t] == AddOptimistic(desired, s.overcommit)
    requires s.optimistic - s.overcommit == s.head < s.tail && desired <= s.tail - s.head
    ensures Steps(s, t, 3).threads[t] == Take(s.head, desired)
  {
    hide Inv, InRange, Paint, Repeat, Steps;
    var s1 := RunStep(s, t);
    StepsUnfold(s, t, 3, s1);
    var s2 := RunStep(s1, t);
    StepsUnfold(s1, t, 2, s2);
    assert s2.threads[t] == AddHead(s.optimistic, desired);
    var s3 := RunStep(s2, t);
    StepsUnfold(s2, t, 1, s3);
    StepsDone(s3, t);
  }

  // ------------------------------------------------------------------ whole runs

  /** A producer just constructed, and n idle consumers. */
  function Init(n: nat): State {
    State(0, 0, 0, 0, Repeat(Idle, n), [], [])
  }

  /** The run that a schedule produces; an entry that is not enabled is skipped. */
  ghost function RunAll(s: State, schedule: seq<Action>): (r: State)
    requires Inv(s)
    ensures Inv(r) && InRange(r)
    decreases |schedule|
  {
    InvInRange(s);
    if schedule == [] then s
    else if Enabled(s, schedule[0]) then
      StepKeepsInv(s, schedule[0]);
      RunAll(Step(s, schedule[0]), schedule[1..])
    else RunAll(s, schedule[1..])
  }

  /** In every run the head index never passes the tail index, no element is promised that does not
      exist, and no element is taken twice. */
  lemma NeverPassesTail(n: nat, schedule: seq<Action>)
    ensures Inv(Init(n))
    ensures var s := RunAll(Init(n), schedule);
            && |s.takers| == s.head <= s.tail
            && (forall t :: 0 <= t < |s.threads| && s.threads[t].AddHead? ==> s.head + s.threads[t].actual <= s.tail)
            && TakenOnce(s)
  {
    var s := RunAll(Init(n), schedule);
    hide Inv, RunAll, Init;
    HeadBelowTail(s);
    HeadCounts(s);
    forall t | 0 <= t < |s.threads| && s.threads[t].AddHead? ensures s.head + s.threads[t].actual <= s.tail {
      RedeemableHolds(s, t);
    }
    TakenOnceHolds(s);
  }

  /** The elements that the producer has enqueued in a schedule. */
  function Produced(schedule: seq<Action>): nat {
    if schedule == [] then 0 else (if schedule[0].Enqueue? then schedule[0].count else 0) + Produced(schedule[1..])
  }

  lemma {:induction false} TailCounts(s: State, schedule: seq<Action>)
    requires Inv(s)
    ensures RunAll(s, schedule).tail == s.tail + Produced(schedule)
    decreases |schedule|
  {
    hide Inv, RunStep;
    if schedule != [] {
      if Enabled(s, schedule[0]) {
        InvInRange(s);
        StepKeepsInv(s, schedule[0]);
        if schedule[0].Run? { RunKeepsTail(s, schedule[0].thread); }
        TailCounts(Step(s, schedule[0]), schedule[1..]);
      } else {
        TailCounts(s, schedule[1..]);
      }
    }
  }

  /** In every run no more elements are taken than were enqueued, and the others are still there. */
  lemma TakenFromProduced(n: nat, schedule: seq<Action>)
    requires Inv(Init(n))
    ensures var s := RunAll(Init(n), schedule);
            s.tail == Produced(schedule) && |s.takers| + (s.tail - s.head) == Produced(schedule) && |s.takers| <= Produced(schedule)
  {
    var s := RunAll(Init(n), schedule);
    TailCounts(Init(n), schedule);
    hide Inv, RunAll;
    HeadBelowTail(s);
    HeadCounts(s);
  }

  lemma HeadCounts(s: State)
    requires Inv(s)
    ensures s.head == |s.takers|
  {
  }

  /** In every run a consumer about to advance the head index finds all its elements below the tail. */
  lemma Redeemable(n: nat, schedule: seq<Action>, t: nat)
    requires Inv(Init(n))
    requires var s := RunAll(Init(n), schedule); t < |s.threads| && s.threads[t].AddHead?
    ensures var s := RunAll(Init(n), schedule); s.head + s.threads[t].actual <= s.tail
  {
    hide Inv, Init;
    RedeemableHolds(RunAll(Init(n), schedule), t);
  }

  /** In every run, once no consumer is deciding, the optimistic and overcommit counts agree with the head again. */
  lemma EventuallyConsistent(n: nat, schedule: seq<Action>)
    requires Inv(Init(n))
    requires NoneDeciding(RunAll(Init(n), schedule))
    ensures var s := RunAll(Init(n), schedule); s.optimistic - s.overcommit == s.head
  {
    hide Inv, Init, NoneDeciding;
    CountsAgree(RunAll(Init(n), schedule));
  }

  /** In every run the second test grants only elements that exist: afterwards every granted claim is
      covered by the tail. */
  lemma GrantsExist(n: nat, schedule: seq<Action>, t: nat)
    requires Inv(Init(n))
    requires var s := RunAll(Init(n), schedule); t < |s.threads| && s.threads[t].ReloadTail?
    ensures var s := RunAll(Init(n), schedule); Covered(RunStep(s, t).claims, s.tail)
  {
    var s := RunAll(Init(n), schedule);
    hide Inv, Init, RunStep, Knows, Covered, Answered;
    RunStepOk(s, t);
    RunKeepsTail(s, t);
  }

  lemma RunKeepsTail(s: State, t: nat)
    requires InRange(s) && t < |s.threads|
    ensures RunStep(s, t).tail == s.tail
  {
  }

  /** Dequeued indices are handed out in order and for good: the record only grows. */
  lemma {:induction false} TakersGrow(s: State, schedule: seq<Action>)
    requires Inv(s)
    ensures s.takers <= RunAll(s, schedule).takers
    decreases |schedule|
  {
    hide Inv, Step;
    if schedule != [] {
      if Enabled(s, schedule[0]) {
        InvInRange(s);
        StepKeepsInv(s, schedule[0]);
        StepGrowsTakers(s, schedule[0]);
        TakersGrow(Step(s, schedule[0]), schedule[1..]);
      } else {
        TakersGrow(s, schedule[1..]);
      }
    }
  }

  lemma StepGrowsTakers(s: State, a: Action)
    requires InRange(s) && Enabled(s, a)
    ensures s.takers <= Step(s, a).takers
  {
  }

  /** Whatever happens in between, two consumers that advance the head index take disjoint indices, and
      the earlier ones stay with the consumer that took them. */
  lemma TakesApart(n: nat, before: seq<Action>, t: nat, between: seq<Action>, v: nat)
    requires Inv(Init(n))
    requires var s := RunAll(Init(n), before); t < |s.threads| && s.threads[t].AddHead?
    requires var u := RunAll(RunAll(Init(n), before), [Run(t)] + between); v < |u.threads| && u.threads[v].AddHead?
    ensures var s := RunAll(Init(n), before); var u := RunAll(s, [Run(t)] + between);
            && s.head + s.threads[t].actual <= u.head
            && forall i :: s.head <= i < s.head + s.threads[t].actual ==> i < |u.takers| && u.takers[i] == t
  {
    var s := RunAll(Init(n), before);
    var first := RunStep(s, t);
    var u := RunAll(s, [Run(t)] + between);
    StepKeepsInv(s, Run(t));
    assert ([Run(t)] + between)[1..] == between;
    assert u == RunAll(first, between);
    TakesFromHead(s, t);
    HeadCounts(s);
    hide Inv, Init, RunAll, RunStep;
    HeadCounts(first);
    HeadCounts(u);
    TakersGrow(first, between);
  }

  lemma TakesFromHead(s: State, t: nat)
    requires InRange(s) && t < |s.threads| && s.threads[t].AddHead?
    ensures RunStep(s, t).takers == s.takers + Repeat(t, s.threads[t].actual)
  {
  }

  predicate TakesIndex(pc: Pc, i: int) {
    pc.Take? && pc.first <= i < pc.first + pc.actual
  }

  /** Indices being taken lie below the head, and no two consumers take the same one. */
  ghost predicate TakenOnce(s: State) {
    forall t, v, i: nat :: 0 <= t < |s.threads| && 0 <= v < |s.threads| && TakesIndex(s.threads[t], i) && TakesIndex(s.threads[v], i) ==>
      i < s.head && t == v
  }

  lemma TakenOnceHolds(s: State)
    requires Inv(s)
    ensures TakenOnce(s)
  {
    hide Covered, Answered, Tally;
    forall t, v, i: nat | 0 <= t < |s.threads| && 0 <= v < |s.threads| && TakesIndex(s.threads[t], i) && TakesIndex(s.threads[v], i)
      ensures i < s.head && t == v {
      assert Knows(s.claims, s.takers, t, s.threads[t]) && Knows(s.claims, s.takers, v, s.threads[v]);
      assert s.takers[i] == t;
    }
  }

  // ------------------------------------------------------------- 64-bit arithmetic

  const WORD := 0x1_0000_0000_0000_0000
  const HALF := 0x8000_0000_0000_0000

  /** An unsigned 64-bit subtraction. */
  function Minus(a: int, b: int): int {
    (a - b) % WORD
  }

  predicate CircularLessThan(a: int, b: int) {
    Minus(a, b) > HALF
  }

  lemma MinusWord(a: int, b: int)
    ensures Minus(a % WORD, b % WORD) == (a - b) % WORD
  {
    var qa, qb := a / WORD, b / WORD;
    assert a - b == (qa - qb) * WORD + (a % WORD - b % WORD);
    ModAdd(qa - qb, a % WORD - b % WORD);
  }

  lemma ModAdd(q: int, r: int)
    ensures (q * WORD + r) % WORD == r % WORD
  {
    assert q * WORD + r == (q + r / WORD) * WORD + r % WORD;
  }

  lemma Wrapped(d: int)
    requires -HALF <= d < HALF
    ensures (-d) % WORD > HALF <==> d > 0
    ensures d > 0 ==> d % WORD == d
    ensures (-(d % WORD)) % WORD > HALF <==> d > 0
  {
    if d > 0 {
      assert -d == -1 * WORD + (WORD - d);
      ModAdd(-1, WORD - d);
    } else if d < 0 {
      assert d == -1 * WORD + (WORD + d);
      ModAdd(-1, WORD + d);
      assert -(WORD + d) == -1 * WORD + (-d);
      ModAdd(-1, -d);
    }
  }

  /** The tests of dequeue and dequeue_bulk on wrapped words agree with the tests on the unbounded
      counters while the available count lies within half a word. */
  lemma CircularTests(tail: nat, optimistic: nat, over: nat)
    requires -HALF <= tail - (optimistic - over) < HALF
    ensures var available := tail - (optimistic - over);
            var spent := Minus(optimistic % WORD, over % WORD);
            var count := Minus(tail % WORD, spent);
            && (CircularLessThan(spent, tail % WORD) <==> available > 0)
            && (CircularLessThan(0, count) <==> available > 0)
            && (available > 0 ==> count == available)
  {
    MinusWord(optimistic, over);
    MinusWord(tail, optimistic - over);
    MinusWord(optimistic - over, tail);
    Wrapped(tail - (optimistic - over));
  }

  /** What the first test decides, on 64-bit words: how many elements to claim, if any. */
  function FirstOnWords(tail: int, optimistic: int, over: int, max: nat, bulk: bool): (r: Option<nat>)
    ensures r.Some? && bulk ==> r.value <= max
  {
    var spent := Minus(optimistic % WORD, over % WORD);
    var count := Minus(tail % WORD, spent);
    if bulk then (if CircularLessThan(0, count) then Some(Min(count, max)) else None)
    else if CircularLessThan(spent, tail % WORD) then Some(1) else None
  }

  /** What the second test decides: how many of the desired elements are there. */
  function SecondOnWords(tail: int, mine: int, over: int, desired: nat, bulk: bool): (r: Option<nat>)
    ensures r.Some? ==> r.value <= desired
  {
    var spent := Minus(mine % WORD, over % WORD);
    var count := Minus(tail % WORD, spent);
    if bulk then (if CircularLessThan(0, count) then Some(Min(desired, count)) else None)
    else if CircularLessThan(spent, tail % WORD) then Some(desired) else None
  }

  /** The step as the code takes it, with both tests on 64-bit words. */
  function WordStep(s: State, t: nat, bulk: bool): State
    requires t < |s.threads| && InRange(s)
  {
    match s.threads[t]
    case LoadOptimistic(max, tail, over) =>
      var desired := FirstOnWords(tail, s.optimistic, over, max, bulk);
      Goto(s, t, if desired.Some? then AddOptimistic(desired.value, over) else Idle)
    case ReloadTail(desired, over, mine) =>
      var found := SecondOnWords(s.tail, mine, over, desired, bulk);
      var actual := if found.Some? then found.value else 0;
      assert IntervalInRange(s.threads[t], |s.claims|);
      Goto(s.(claims := Paint(s.claims, mine, mine + actual, Granted(t))), t,
           if found.Some? && actual == desired then AddHead(mine, actual) else AddOver(desired, mine, actual))
    case _ => RunStep(s, t)
  }

  /** A tail read earlier is not beyond the tail. */
  ghost predicate TailsSeen(s: State) {
    forall t :: 0 <= t < |s.threads| && (s.threads[t].LoadOver? || s.threads[t].LoadOptimistic?) ==> s.threads[t].tail <= s.tail
  }

  lemma StepKeepsTails(s: State, a: Action)
    requires InRange(s) && Enabled(s, a) && TailsSeen(s)
    ensures TailsSeen(Step(s, a))
  {
    hide Paint, Repeat, Actual;
  }

  lemma {:induction false} RunKeepsTails(s: State, schedule: seq<Action>)
    requires Inv(s) && TailsSeen(s)
    ensures TailsSeen(RunAll(s, schedule))
    decreases |schedule|
  {
    hide Inv, Step, TailsSeen;
    if schedule != [] {
      if Enabled(s, schedule[0]) {
        InvInRange(s);
        StepKeepsInv(s, schedule[0]);
        StepKeepsTails(s, schedule[0]);
        RunKeepsTails(Step(s, schedule[0]), schedule[1..]);
      } else {
        RunKeepsTails(s, schedule[1..]);
      }
    }
  }

  /** The available counts that the two tests look at are within half a word. */
  predicate WithinHalf(s: State, t: nat)
    requires t < |s.threads|
  {
    var pc := s.threads[t];
    && (pc.LoadOptimistic? ==> -HALF <= pc.tail - (s.optimistic - pc.over) < HALF)
    && (pc.ReloadTail? ==> -HALF <= s.tail - (pc.mine - pc.over) < HALF)
  }

  /** A single dequeue wants at most one element. */
  predicate FormFits(pc: Pc, bulk: bool) {
    bulk || ((pc.LoadOptimistic? ==> pc.max == 1) && (pc.ReloadTail? ==> pc.desired == 1))
  }

  lemma AvailableInHalf(s: State, t: nat)
    requires Inv(s) && TailsSeen(s) && t < |s.threads| && s.tail < HALF && s.optimistic < HALF
    ensures WithinHalf(s, t)
  {
    assert Knows(s.claims, s.takers, t, s.threads[t]);
    hide Covered, Answered, Tally;
    TallyBound(s.claims, Over);
    if s.threads[t].ReloadTail? { TallyBound(s.claims[..s.threads[t].mine], Over); }
  }

  lemma FirstAgrees(tail: nat, optimistic: nat, over: nat, max: nat, bulk: bool)
    requires -HALF <= tail - (optimistic - over) < HALF && (bulk || max == 1)
    ensures var available := tail - (optimistic - over);
            FirstOnWords(tail, optimistic, over, max, bulk) == if available > 0 then Some(Min(available, max)) else None
  {
    hide Minus, CircularLessThan;
    CircularTests(tail, optimistic, over);
  }

  lemma SecondAgrees(tail: nat, mine: nat, over: nat, desired: nat, bulk: bool)
    requires -HALF <= tail - (mine - over) < HALF && (bulk || desired == 1)
    ensures var available := tail - (mine - over);
            SecondOnWords(tail, mine, over, desired, bulk) == if available > 0 then Some(Min(desired, available)) else None
  {
    hide Minus, CircularLessThan;
    CircularTests(tail, mine, over);
  }

  lemma WordStepAgrees(s: State, t: nat, bulk: bool)
    requires t < |s.threads| && InRange(s) && WithinHalf(s, t) && FormFits(s.threads[t], bulk)
    ensures WordStep(s, t, bulk) == RunStep(s, t)
  {
    assert IntervalInRange(s.threads[t], |s.claims|);
    hide FirstOnWords, SecondOnWords, InRange, Paint;
    match s.threads[t]
    case LoadOptimistic(max, tail, over) => FirstAgrees(tail, s.optimistic, over, max, bulk);
    case ReloadTail(desired, over, mine) => SecondAgrees(s.tail, mine, over, desired, bulk);
    case _ =>
  }

  /** In every run, as long as both counters are below half a word, the tests on 64-bit words take the
      branches of the unbounded step, for single dequeues and for bulk dequeues. */
  lemma WordsSuffice(n: nat, schedule: seq<Action>, t: nat, bulk: bool)
    requires Inv(Init(n))
    requires var s := RunAll(Init(n), schedule);
             t < |s.threads| && s.tail < 0x8000_0000_0000_0000 && s.optimistic < 0x8000_0000_0000_0000
             && FormFits(s.threads[t], bulk)
    ensures var s := RunAll(Init(n), schedule); WordStep(s, t, bulk) == RunStep(s, t)
  {
    var s := RunAll(Init(n), schedule);
    assert TailsSeen(Init(n));
    hide Inv, Init, RunAll, TailsSeen, RunStep, WordStep, InRange;
    RunKeepsTails(Init(n), schedule);
    AvailableInHalf(s, t);
    WordStepAgrees(s, t, bulk);
  }

  /** Half a word is the limit on both sides: one further and the test errs. */
  lemma CircularTestsLimit(tail: nat, optimistic: nat, over: nat)
    requires var available := tail - (optimistic - over); available == HALF || available == -HALF - 1
    ensures CircularLessThan(Minus(optimistic % WORD, over % WORD), tail % WORD) <==> tail - (optimistic - over) < 0
  {
    MinusWord(optimistic, over);
    MinusWord(optimistic - over, tail);
  }
}
