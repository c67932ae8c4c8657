/** Calls of the Michael-Scott queue that run alone: wherever the other threads stand, the call ends,
    and it does what it is for. */
module LoneCalls {
  import opened Prelude
  import opened MichaelScott

  /** k steps of thread t and of nobody else. */
  function Alone(s: State, t: nat, k: nat): State
    decreases k
  {
    if k == 0 || !InRange(s) || !Enabled(s, t, Run(false)) then s else Alone(Step(s, t, Run(false)), t, k - 1)
  }

  lemma OneAlone(s: State, t: nat, k: nat)
    requires Inv(s) && t < |s.threads| && !s.threads[t].Idle? && k > 0
    ensures InRange(s) && Enabled(s, t, Run(false)) && PcInRange(s.threads[t], |s.value|) && Inv(Step(s, t, Run(false)))
    ensures Alone(s, t, k) == Alone(Step(s, t, Run(false)), t, k - 1)
  {
    PcOk(s, t);
    assert ThreadOk(s, t) && !s.threads[t].Crashed?;
    hide Inv, SharedOk, InRange, PcInRange, Step, ThreadOk;
    StepKeepsInv(s, t, Run(false));
  }

  lemma NoneAlone(s: State, t: nat)
    ensures Alone(s, t, 0) == s
  {
  }

  /** Where thread t stood before does not matter once it has been moved. */
  lemma Retarget(s: State, t: nat, from: Pc, to: Pc)
    requires t < |s.threads|
    ensures Goto(Goto(s, t, from), t, to) == Goto(s, t, to)
    ensures s.threads[t] == to ==> Goto(s, t, to) == s
  {
    assert s.threads[t := from][t := to] == s.threads[t := to];
    assert s.threads[t] == to ==> s.threads[t := to] == s.threads;
  }

  /** tail_ stands at the last node, or at the last but one. */
  predicate Lagging(s: State) {
    s.tail.count == |s.chain|
  }

  lemma TailFacts(s: State)
    requires Inv(s)
    ensures InRange(s) && |s.chain| <= s.tail.count <= |s.chain| + 1 && 1 <= |s.chain|
    ensures s.tail.ptr < |s.next| && (!Lagging(s) ==> s.next[s.tail.ptr] == Link(None, 1))
    ensures Lagging(s) ==> s.tail.count >= 1 && s.next[s.tail.ptr] == Link(Some(s.chain[s.tail.count - 1]), 2)
  {
    hide Positioned, Staged, FreshHeld, InFlightHeld, Slotted, GcSpelled, Taken, NextInRange, ThreadsInRange, ThreadOk;
    assert Spelled(s.chain, s.next) && At(s.chain, s.tail);
    assert s.next[s.chain[s.tail.count - 2]] == LinkAfter(s.chain, s.tail.count - 2);
  }

  lemma HeadFacts(s: State)
    requires Inv(s)
    ensures InRange(s) && |s.dequeued| < |s.chain| && s.head.count == |s.dequeued| + 2 <= s.tail.count && s.head.ptr == s.chain[|s.dequeued|]
    ensures s.head.ptr < |s.next| && s.next[s.head.ptr] == LinkAfter(s.chain, |s.dequeued|)
    ensures s.head.ptr == s.tail.ptr <==> s.head.count == s.tail.count
    ensures forall i :: 0 <= i < |s.chain| ==> s.chain[i] < |s.value|
  {
    hide Staged, FreshHeld, InFlightHeld, Slotted, GcSpelled, Taken, NextInRange, ThreadsInRange, ThreadOk;
    assert Spelled(s.chain, s.next) && At(s.chain, s.tail) && At(s.chain, s.head) && Positioned(s.chain, s.owners);
    assert s.owners[s.chain[s.head.count - 2]].pos == s.head.count - 2 && s.owners[s.chain[s.tail.count - 2]].pos == s.tail.count - 2;
  }

  // ------------------------------------------------------------------------- enqueue

  /** The value has been linked behind the others and every thread stands where it stood. */
  ghost predicate Appended(s: State, v: int, u: State) {
    && u.chain == s.chain + [|s.value|] && u.value == s.value + [v]
    && u.dequeued == s.dequeued && u.retired == s.retired && u.threads == s.threads
  }

  lemma TailLoaded(a: State, t: nat, n: nat)
    requires t < |a.threads| && InRange(Goto(a, t, EnqTail(n)))
    ensures Step(Goto(a, t, EnqTail(n)), t, Run(false)) == Goto(a, t, EnqNext(n, a.tail))
  {
    hide InRange;
    Retarget(a, t, EnqTail(n), EnqNext(n, a.tail));
  }

  lemma NextLoaded(a: State, t: nat, n: nat)
    requires t < |a.threads| && InRange(Goto(a, t, EnqNext(n, a.tail))) && a.tail.ptr < |a.next|
    ensures Step(Goto(a, t, EnqNext(n, a.tail)), t, Run(false)) == Goto(a, t, EnqCheck(n, a.tail, a.next[a.tail.ptr]))
  {
    hide InRange;
    Retarget(a, t, EnqNext(n, a.tail), EnqCheck(n, a.tail, a.next[a.tail.ptr]));
  }

  lemma TailChecked(a: State, t: nat, n: nat, x: Link)
    requires t < |a.threads| && InRange(Goto(a, t, EnqCheck(n, a.tail, x)))
    ensures Step(Goto(a, t, EnqCheck(n, a.tail, x)), t, Run(false))
         == Goto(a, t, if x.ptr.None? then EnqLink(n, a.tail, x) else EnqHelp(n, a.tail, x))
  {
    hide InRange;
    Retarget(a, t, EnqCheck(n, a.tail, x), if x.ptr.None? then EnqLink(n, a.tail, x) else EnqHelp(n, a.tail, x));
  }

  /** The two loads and the comparison. */
  lemma LookBehindTail(a: State, t: nat, n: nat, k: nat)
    requires t < |a.threads| && Inv(Goto(a, t, EnqTail(n))) && k >= 3
    ensures a.tail.ptr < |a.next|
    ensures var x := a.next[a.tail.ptr];
            var u := Goto(a, t, if x.ptr.None? then EnqLink(n, a.tail, x) else EnqHelp(n, a.tail, x));
            Inv(u) && Alone(Goto(a, t, EnqTail(n)), t, k) == Alone(u, t, k - 3)
  {
    hide Inv, InRange, Enabled, PcInRange, Alone, Step, Lagging;
    TailFacts(Goto(a, t, EnqTail(n)));
    OneAlone(Goto(a, t, EnqTail(n)), t, k);
    TailLoaded(a, t, n);
    OneAlone(Goto(a, t, EnqNext(n, a.tail)), t, k - 1);
    NextLoaded(a, t, n);
    var x := a.next[a.tail.ptr];
    OneAlone(Goto(a, t, EnqCheck(n, a.tail, x)), t, k - 2);
    TailChecked(a, t, n, x);
  }

  lemma NodeLinked(a: State, t: nat, n: nat)
    requires t < |a.threads| && InRange(Goto(a, t, EnqLink(n, a.tail, Link(None, 1)))) && a.tail.ptr < |a.next| && a.next[a.tail.ptr] == Link(None, 1)
    ensures var u := Step(Goto(a, t, EnqLink(n, a.tail, Link(None, 1))), t, Run(false));
            && u.chain == a.chain + [n] && u.value == a.value && u.dequeued == a.dequeued && u.retired == a.retired
            && u.threads == a.threads[t := EnqSwing(n, a.tail)]
  {
    assert PcInRange(Goto(a, t, EnqLink(n, a.tail, Link(None, 1))).threads[t], |a.value|);
    hide InRange;
  }

  lemma TailSwung(b: State, t: nat, n: nat, tail: Anchor)
    requires t < |b.threads| && b.threads[t] == EnqSwing(n, tail) && InRange(b)
    ensures var u := Step(b, t, Run(false));
            && u.chain == b.chain && u.value == b.value && u.dequeued == b.dequeued && u.retired == b.retired
            && u.threads == b.threads[t := Idle]
  {
    hide InRange;
  }

  /** From the load of a tail_ that stands at the last node. */
  lemma LoneLink(a: State, t: nat, n: nat)
    requires t < |a.threads| && a.threads[t].Idle? && Inv(Goto(a, t, EnqTail(n))) && !Lagging(a)
    ensures var u := Alone(Goto(a, t, EnqTail(n)), t, 5);
            && u.chain == a.chain + [n] && u.value == a.value && u.dequeued == a.dequeued && u.retired == a.retired
            && u.threads == a.threads
  {
    hide Inv, InRange, Enabled, PcInRange, Alone, Step;
    TailFacts(Goto(a, t, EnqTail(n)));
    LookBehindTail(a, t, n, 5);
    var s4 := Goto(a, t, EnqLink(n, a.tail, Link(None, 1)));
    OneAlone(s4, t, 2);
    NodeLinked(a, t, n);
    var s5 := Step(s4, t, Run(false));
    OneAlone(s5, t, 1);
    TailSwung(s5, t, n, a.tail);
    NoneAlone(Step(s5, t, Run(false)), t);
    assert a.threads[t := EnqSwing(n, a.tail)][t := Idle] == a.threads;
  }

  lemma TailHelped(a: State, t: nat, n: nat, x: Link)
    requires t < |a.threads| && x.ptr.Some? && InRange(Goto(a, t, EnqHelp(n, a.tail, x)))
    ensures Step(Goto(a, t, EnqHelp(n, a.tail, x)), t, Run(false))
         == Goto(a.(tail := Anchor(x.ptr.value, a.tail.count + 1)), t, EnqTail(n))
  {
    hide InRange;
    Retarget(a.(tail := Anchor(x.ptr.value, a.tail.count + 1)), t, EnqHelp(n, a.tail, x), EnqTail(n));
  }

  /** From the load of a tail_ that lags: it is helped on first. */
  lemma LoneHelp(a: State, t: nat, n: nat)
    requires t < |a.threads| && a.threads[t].Idle? && Inv(Goto(a, t, EnqTail(n))) && Lagging(a)
    ensures var u := Alone(Goto(a, t, EnqTail(n)), t, 9);
            && u.chain == a.chain + [n] && u.value == a.value && u.dequeued == a.dequeued && u.retired == a.retired
            && u.threads == a.threads
  {
    hide Inv, InRange, Enabled, PcInRange, Alone, Step;
    TailFacts(Goto(a, t, EnqTail(n)));
    LookBehindTail(a, t, n, 9);
    var x := a.next[a.tail.ptr];
    OneAlone(Goto(a, t, EnqHelp(n, a.tail, x)), t, 6);
    TailHelped(a, t, n, x);
    LoneLink(a.(tail := Anchor(x.ptr.value, a.tail.count + 1)), t, n);
  }

  lemma NodeAllocated(s: State, t: nat, v: int)
    requires t < |s.threads| && InRange(Goto(s, t, EnqNew(v)))
    ensures Step(Goto(s, t, EnqNew(v)), t, Run(false)) == Goto(Allocate(s, t, v), t, EnqTail(|s.value|))
    ensures var a := Allocate(s, t, v);
            && a.chain == s.chain && a.value == s.value + [v] && a.dequeued == s.dequeued && a.retired == s.retired
            && a.threads == s.threads && a.tail == s.tail
  {
    hide InRange;
    Retarget(Allocate(s, t, v), t, EnqNew(v), EnqTail(|s.value|));
  }

  /** An enqueue that runs alone ends and appends its value, helping tail_ on if it lags. */
  lemma LoneEnqueue(s: State, t: nat, v: int)
    requires Inv(s) && t < |s.threads| && s.threads[t].Idle?
    ensures InRange(s) && Enabled(s, t, StartEnqueue(v))
    ensures Appended(s, v, Alone(Step(s, t, StartEnqueue(v)), t, if Lagging(s) then 10 else 6))
  {
    TailFacts(s);
    assert Step(s, t, StartEnqueue(v)) == Goto(s, t, EnqNew(v));
    hide Inv, InRange, PcInRange, Alone, Step;
    StepKeepsInv(s, t, StartEnqueue(v));
    OneAlone(Goto(s, t, EnqNew(v)), t, if Lagging(s) then 10 else 6);
    NodeAllocated(s, t, v);
    var a := Allocate(s, t, v);
    hide Allocate;
    if Lagging(s) {
      LoneHelp(a, t, |s.value|);
    } else {
      LoneLink(a, t, |s.value|);
    }
  }

  // ------------------------------------------------------------------------- dequeue

  /** The oldest value has been taken, its predecessor retired, and every thread stands where it stood. */
  ghost predicate Removed(s: State, u: State) {
    && |s.dequeued| + 1 < |s.chain| && s.chain[|s.dequeued| + 1] < |s.value|
    && u.dequeued == s.dequeued + [s.value[s.chain[|s.dequeued| + 1]]]
    && u.chain == s.chain && u.value == s.value && u.retired == s.retired + [s.head.ptr] && u.threads == s.threads
  }

  lemma EndsLoaded(s: State, t: nat)
    requires t < |s.threads|
    ensures InRange(Goto(s, t, DeqHead)) ==> Step(Goto(s, t, DeqHead), t, Run(false)) == Goto(s, t, DeqTail(s.head))
    ensures InRange(Goto(s, t, DeqTail(s.head))) ==>
              Step(Goto(s, t, DeqTail(s.head)), t, Run(false)) == Goto(s, t, DeqNext(s.head, s.tail))
  {
    hide InRange;
    Retarget(s, t, DeqHead, DeqTail(s.head));
    Retarget(s, t, DeqTail(s.head), DeqNext(s.head, s.tail));
  }

  lemma SuccessorLoaded(s: State, t: nat)
    requires t < |s.threads| && InRange(Goto(s, t, DeqNext(s.head, s.tail))) && s.head.ptr < |s.next|
    ensures Step(Goto(s, t, DeqNext(s.head, s.tail)), t, Run(false))
         == Goto(s, t, DeqCheck(s.head, s.tail, s.next[s.head.ptr], |s.dequeued| + 1 == |s.chain|))
  {
    hide InRange;
    Retarget(s, t, DeqNext(s.head, s.tail), DeqCheck(s.head, s.tail, s.next[s.head.ptr], |s.dequeued| + 1 == |s.chain|));
  }

  /** Where the comparison sends a dequeue that saw x behind head_. */
  function AfterLook(s: State, x: Link): Pc {
    if s.head.ptr == s.tail.ptr then (if x.ptr.None? then Idle else DeqHelp(s.head, s.tail, x)) else DeqRead(s.head, x)
  }

  lemma HeadChecked(s: State, t: nat, x: Link, saw: bool)
    requires t < |s.threads| && InRange(Goto(s, t, DeqCheck(s.head, s.tail, x, saw)))
    ensures Step(Goto(s, t, DeqCheck(s.head, s.tail, x, saw)), t, Run(false)) == Goto(s, t, AfterLook(s, x))
  {
    hide InRange;
    Retarget(s, t, DeqCheck(s.head, s.tail, x, saw), AfterLook(s, x));
  }

  lemma LookAtEnds(s: State, t: nat, k: nat)
    requires t < |s.threads| && Inv(Goto(s, t, DeqHead)) && k >= 2
    ensures var u := Goto(s, t, DeqNext(s.head, s.tail)); Inv(u) && Alone(Goto(s, t, DeqHead), t, k) == Alone(u, t, k - 2)
  {
    hide Inv, InRange, Enabled, PcInRange, Alone, Step;
    EndsLoaded(s, t);
    OneAlone(Goto(s, t, DeqHead), t, k);
    OneAlone(Goto(s, t, DeqTail(s.head)), t, k - 1);
  }

  /** The three loads and the comparison. */
  lemma LookBehindHead(s: State, t: nat, k: nat)
    requires t < |s.threads| && Inv(Goto(s, t, DeqHead)) && k >= 4
    ensures s.head.ptr < |s.next| && |s.dequeued| < |s.chain| && s.next[s.head.ptr] == LinkAfter(s.chain, |s.dequeued|)
    ensures var u := Goto(s, t, AfterLook(s, s.next[s.head.ptr])); Inv(u) && Alone(Goto(s, t, DeqHead), t, k) == Alone(u, t, k - 4)
  {
    hide Inv, InRange, Enabled, PcInRange, Alone, Step, LinkAfter, AfterLook;
    HeadFacts(Goto(s, t, DeqHead));
    LookAtEnds(s, t, k);
    OneAlone(Goto(s, t, DeqNext(s.head, s.tail)), t, k - 2);
    SuccessorLoaded(s, t);
    var x, saw := s.next[s.head.ptr], |s.dequeued| + 1 == |s.chain|;
    OneAlone(Goto(s, t, DeqCheck(s.head, s.tail, x, saw)), t, k - 3);
    HeadChecked(s, t, x, saw);
  }

  lemma LoneEmpty(s: State, t: nat)
    requires t < |s.threads| && s.threads[t].Idle? && Inv(Goto(s, t, DeqHead)) && |s.dequeued| + 1 == |s.chain|
    ensures Alone(Goto(s, t, DeqHead), t, 4) == s
  {
    hide Inv, InRange, Enabled, PcInRange, Alone, Step;
    HeadFacts(Goto(s, t, DeqHead));
    TailFacts(Goto(s, t, DeqHead));
    LookBehindHead(s, t, 4);
    Retarget(s, t, Idle, Idle);
    NoneAlone(s, t);
  }

  lemma ValueRead(s: State, t: nat, x: Link)
    requires t < |s.threads| && x.ptr.Some? && x.ptr.value < |s.value| && InRange(Goto(s, t, DeqRead(s.head, x)))
    ensures Step(Goto(s, t, DeqRead(s.head, x)), t, Run(false)) == Goto(s, t, DeqSwing(s.head, x, s.value[x.ptr.value]))
  {
    hide InRange;
    Retarget(s, t, DeqRead(s.head, x), DeqSwing(s.head, x, s.value[x.ptr.value]));
  }

  lemma HeadSwung(s: State, t: nat, x: Link, v: int)
    requires t < |s.threads| && InRange(Goto(s, t, DeqSwing(s.head, x, v)))
    ensures var u := Step(Goto(s, t, DeqSwing(s.head, x, v)), t, Run(false));
            && u.dequeued == s.dequeued + [v] && u.chain == s.chain && u.value == s.value && u.retired == s.retired
            && u.threads == s.threads[t := RetLoad(s.head.ptr, v)]
  {
    hide InRange;
    assert s.threads[t := DeqSwing(s.head, x, v)][t := RetLoad(s.head.ptr, v)] == s.threads[t := RetLoad(s.head.ptr, v)];
  }

  /** The value has been taken; what is left is to retire the node. */
  lemma RetireSteps(b: State, t: nat, n: nat, v: int)
    requires t < |b.threads| && InRange(b)
    ensures b.threads[t] == RetLoad(n, v) ==> Step(b, t, Run(false)) == Goto(b, t, RetLink(n, v, b.retiredHead))
    ensures b.threads[t] == RetLink(n, v, b.retiredHead) ==>
              n < |b.gcNext| && Step(b, t, Run(false)) == Goto(b.(gcNext := b.gcNext[n := b.retiredHead]), t, RetCas(n, v, b.retiredHead))
    ensures b.threads[t] == RetCas(n, v, b.retiredHead) ==>
              var u := Step(b, t, Run(false));
              && u.retired == b.retired + [n] && u.dequeued == b.dequeued && u.chain == b.chain && u.value == b.value
              && u.threads == b.threads[t := Idle]
  {
    assert PcInRange(b.threads[t], |b.value|);
    hide InRange;
  }

  lemma LoneRetire(b: State, t: nat, n: nat, v: int)
    requires Inv(b) && t < |b.threads| && b.threads[t] == RetLoad(n, v)
    ensures var u := Alone(b, t, 3);
            && u.retired == b.retired + [n] && u.dequeued == b.dequeued && u.chain == b.chain && u.value == b.value
            && u.threads == b.threads[t := Idle]
  {
    hide Inv, InRange, Enabled, PcInRange, Alone, Step;
    OneAlone(b, t, 3);
    RetireSteps(b, t, n, v);
    var c := Goto(b, t, RetLink(n, v, b.retiredHead));
    OneAlone(c, t, 2);
    RetireSteps(c, t, n, v);
    var d := Goto(c.(gcNext := c.gcNext[n := b.retiredHead]), t, RetCas(n, v, b.retiredHead));
    OneAlone(d, t, 1);
    RetireSteps(d, t, n, v);
    NoneAlone(Step(d, t, Run(false)), t);
    assert d.threads[t := Idle] == b.threads[t := Idle];
  }

  lemma LonePop(s: State, t: nat)
    requires t < |s.threads| && s.threads[t].Idle? && Inv(Goto(s, t, DeqHead)) && |s.dequeued| + 1 < |s.chain| && s.head.ptr != s.tail.ptr
    ensures Removed(s, Alone(Goto(s, t, DeqHead), t, 9))
  {
    hide Inv, InRange, Enabled, PcInRange, Alone, Step;
    HeadFacts(Goto(s, t, DeqHead));
    LookBehindHead(s, t, 9);
    var x := s.next[s.head.ptr];
    OneAlone(Goto(s, t, DeqRead(s.head, x)), t, 5);
    ValueRead(s, t, x);
    var v := s.value[x.ptr.value];
    OneAlone(Goto(s, t, DeqSwing(s.head, x, v)), t, 4);
    HeadSwung(s, t, x, v);
    LoneRetire(Step(Goto(s, t, DeqSwing(s.head, x, v)), t, Run(false)), t, s.head.ptr, v);
    assert s.threads[t := RetLoad(s.head.ptr, v)][t := Idle] == s.threads;
  }

  lemma TailHelpedByDequeue(s: State, t: nat, x: Link)
    requires t < |s.threads| && x.ptr.Some? && InRange(Goto(s, t, DeqHelp(s.head, s.tail, x)))
    ensures Step(Goto(s, t, DeqHelp(s.head, s.tail, x)), t, Run(false))
         == Goto(s.(tail := Anchor(x.ptr.value, s.tail.count + 1)), t, DeqHead)
  {
    hide InRange;
    Retarget(s.(tail := Anchor(x.ptr.value, s.tail.count + 1)), t, DeqHelp(s.head, s.tail, x), DeqHead);
  }

  lemma LoneHelpThenPop(s: State, t: nat)
    requires t < |s.threads| && s.threads[t].Idle? && Inv(Goto(s, t, DeqHead)) && |s.dequeued| + 1 < |s.chain| && s.head.ptr == s.tail.ptr
    ensures Removed(s, Alone(Goto(s, t, DeqHead), t, 14))
  {
    hide Inv, InRange, Enabled, PcInRange, Alone, Step;
    HeadFacts(Goto(s, t, DeqHead));
    LookBehindHead(s, t, 14);
    var x := s.next[s.head.ptr];
    OneAlone(Goto(s, t, DeqHelp(s.head, s.tail, x)), t, 10);
    TailHelpedByDequeue(s, t, x);
    var b := s.(tail := Anchor(x.ptr.value, s.tail.count + 1));
    HeadFacts(Goto(b, t, DeqHead));
    LonePop(b, t);
  }

  /** A dequeue that runs alone ends; it takes the oldest value, and changes nothing exactly when there is none. */
  lemma LoneDequeue(s: State, t: nat)
    requires Inv(s) && t < |s.threads| && s.threads[t].Idle?
    ensures InRange(s) && Enabled(s, t, StartDequeue) && |s.dequeued| < |s.chain|
    ensures |s.dequeued| + 1 == |s.chain| ==> Alone(Step(s, t, StartDequeue), t, 4) == s
    ensures |s.dequeued| + 1 < |s.chain| ==> Removed(s, Alone(Step(s, t, StartDequeue), t, if s.head.ptr == s.tail.ptr then 14 else 9))
  {
    HeadFacts(s);
    assert Step(s, t, StartDequeue) == Goto(s, t, DeqHead);
    hide Inv, InRange, PcInRange, Alone, Step, Removed;
    StepKeepsInv(s, t, StartDequeue);
    if |s.dequeued| + 1 == |s.chain| {
      LoneEmpty(s, t);
    } else if s.head.ptr == s.tail.ptr {
      LoneHelpThenPop(s, t);
    } else {
      LonePop(s, t);
    }
  }
}
