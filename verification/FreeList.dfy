/** The lock-free free list of moodycamel::ConcurrentQueue as a step machine.

    One step is one atomic load, store, fetch_add, fetch_sub or strong compare-exchange of one
    thread; memory is sequentially consistent.  Nodes are numbered.  The 32-bit word of a node
    counts references in its low bits and carries the should-be-on-freelist flag in its top bit. */
module FreeList {
  import opened Prelude

  const SHOULD_BE_ON_FREELIST := 0x8000_0000
  const WORD := 0x1_0000_0000

  /** What a thread does after add_knowing_refcount_is_zero returns. */
  datatype Resume = FromAdd | FromGet(head: Option<nat>)

  /** A program counter with the live local variables. */
  datatype Pc =
    | Idle
    | AddMark(node: nat)
    | LinkLoad(node: nat, resume: Resume)
    | LinkNext(node: nat, head: Option<nat>, resume: Resume)
    | LinkRefs(node: nat, head: Option<nat>, resume: Resume)
    | LinkCas(node: nat, head: Option<nat>, resume: Resume)
    | LinkUndo(node: nat, head: Option<nat>, resume: Resume)
    | GetLoadHead
    | GetLoadRefs(node: nat)
    | GetCas(node: nat, refs: nat)
    | GetLoadNext(node: nat)
    | GetCasHead(node: nat, next: Option<nat>)
    | GetCheck(node: nat)
    | GetRelease(node: nat)
    | GetDrop(node: nat, head: Option<nat>)

  /** Where a node is: with a client, on the list, waiting for its last reader, or being linked. */
  datatype Place = Held(client: nat) | Listed | Marked | Linking(linker: nat)

  /** places and chain are history variables: no step reads them. */
  datatype State = State(
    refs: seq<nat>, next: seq<Option<nat>>, head: Option<nat>, threads: seq<Pc>,
    places: seq<Place>, chain: seq<nat>)

  /** HandOver is the client's own affair: whoever took a node may leave it to another thread to
      return, as a producer leaves its blocks to the consumers that empty them. */
  datatype Action = StartAdd(node: nat) | StartGet | HandOver(node: nat, to: nat) | Run

  predicate InList(p: Option<nat>, n: nat) {
    p.Some? ==> p.value < n
  }

  predicate IsLinking(pc: Pc) {
    pc.LinkLoad? || pc.LinkNext? || pc.LinkRefs? || pc.LinkCas? || pc.LinkUndo?
  }

  predicate IsGetting(pc: Pc) {
    !pc.Idle? && !pc.AddMark? && !IsLinking(pc)
  }

  predicate PcInRange(pc: Pc, n: nat) {
    && (pc.Idle? || pc.GetLoadHead? || pc.node < n)
    && (pc.LinkNext? || pc.LinkRefs? || pc.LinkCas? || pc.LinkUndo? || pc.GetDrop? ==> InList(pc.head, n))
    && (pc.GetCasHead? ==> InList(pc.next, n))
    && (IsLinking(pc) && pc.resume.FromGet? ==> InList(pc.resume.head, n))
  }

  /** Every pointer refers to a node. */
  predicate InRange(s: State) {
    && |s.refs| == |s.next| == |s.places|
    && InList(s.head, |s.refs|)
    && (forall n :: 0 <= n < |s.next| ==> InList(s.next[n], |s.refs|))
    && (forall t :: 0 <= t < |s.threads| ==> PcInRange(s.threads[t], |s.refs|))
  }

  /** A client adds, and hands over, only nodes it holds. */
  predicate Enabled(s: State, t: nat, a: Action) {
    && t < |s.threads|
    && (a.StartAdd? || a.HandOver? ==> a.node < |s.places| && s.places[a.node] == Held(t))
    && (a.HandOver? ==> a.to < |s.threads|)
    && (s.threads[t].Idle? <==> !a.Run?)
  }

  // -------------------------------------------------------------------- the steps

  function GetLoop(head: Option<nat>): Pc {
    if head.None? then Idle else GetLoadRefs(head.value)
  }

  function Return(r: Resume): Pc {
    match r
    case FromAdd => Idle
    case FromGet(head) => GetLoop(head)
  }

  function FetchAdd(s: State, n: nat, delta: nat): State
    requires n < |s.refs|
  {
    s.(refs := s.refs[n := (s.refs[n] + delta) % WORD])
  }

  function FetchSub(s: State, n: nat, delta: nat): State
    requires n < |s.refs| && delta <= WORD
  {
    s.(refs := s.refs[n := (s.refs[n] + WORD - delta) % WORD])
  }

  function Goto(s: State, t: nat, pc: Pc): State
    requires t < |s.threads|
  {
    s.(threads := s.threads[t := pc])
  }

  function Move(s: State, n: nat, place: Place): State
    requires n < |s.places|
  {
    s.(places := s.places[n := place])
  }

  /** The client's choice, and the fetch_add that opens add. */
  function AddStep(s: State, t: nat, a: Action): State
    requires InRange(s) && Enabled(s, t, a) && (s.threads[t].Idle? || s.threads[t].AddMark?)
  {
    match s.threads[t]
    case Idle =>
      if a.HandOver? then Move(s, a.node, Held(a.to)) else Goto(s, t, if a.StartAdd? then AddMark(a.node) else GetLoadHead)
    case AddMark(n) =>
      var s1 := FetchAdd(s, n, SHOULD_BE_ON_FREELIST);
      if s.refs[n] == 0 then Goto(Move(s1, n, Linking(t)), t, LinkLoad(n, FromAdd)) else Goto(Move(s1, n, Marked), t, Idle)
  }

  /** add_knowing_refcount_is_zero. */
  function LinkStep(s: State, t: nat): State
    requires InRange(s) && t < |s.threads| && IsLinking(s.threads[t])
  {
    match s.threads[t]
    case LinkLoad(n, r) => Goto(s, t, LinkNext(n, s.head, r))
    case LinkNext(n, h, r) => Goto(s.(next := s.next[n := h]), t, LinkRefs(n, h, r))
    case LinkRefs(n, h, r) => Goto(s.(refs := s.refs[n := 1]), t, LinkCas(n, h, r))
    case LinkCas(n, h, r) =>
      if s.head == h
      then Goto(Move(s.(head := Some(n), chain := [n] + s.chain), n, Listed), t, Return(r))
      else Goto(s, t, LinkUndo(n, s.head, r))
    case LinkUndo(n, h, r) =>
      var s1 := FetchAdd(s, n, SHOULD_BE_ON_FREELIST - 1);
      if s.refs[n] == 1 then Goto(s1, t, LinkNext(n, h, r)) else Goto(Move(s1, n, Marked), t, Return(r))
  }

  /** try_get. */
  function GetStep(s: State, t: nat): State
    requires InRange(s) && t < |s.threads| && IsGetting(s.threads[t])
  {
    match s.threads[t]
    case GetLoadHead => Goto(s, t, GetLoop(s.head))
    case GetLoadRefs(n) =>
      if s.refs[n] % SHOULD_BE_ON_FREELIST == 0 then Goto(s, t, GetLoadHead) else Goto(s, t, GetCas(n, s.refs[n]))
    case GetCas(n, refs) =>
      if s.refs[n] == refs then Goto(FetchAdd(s, n, 1), t, GetLoadNext(n)) else Goto(s, t, GetLoadHead)
    case GetLoadNext(n) => Goto(s, t, GetCasHead(n, s.next[n]))
    case GetCasHead(n, x) =>
      if s.head == Some(n)
      then Goto(Move(s.(head := x, chain := if s.chain == [] then [] else s.chain[1..]), n, Held(t)), t, GetCheck(n))
      else Goto(s, t, GetDrop(n, s.head))
    case GetCheck(n) => Goto(s, t, GetRelease(n))
    case GetRelease(n) => Goto(FetchSub(s, n, 2), t, Idle)
    case GetDrop(n, h) =>
      var s1 := FetchSub(s, n, 1);
      if s.refs[n] == SHOULD_BE_ON_FREELIST + 1
      then Goto(Move(s1, n, Linking(t)), t, LinkLoad(n, FromGet(h)))
      else Goto(s1, t, GetLoop(h))
  }

  function Step(s: State, t: nat, a: Action): State
    requires InRange(s) && Enabled(s, t, a)
  {
    var pc := s.threads[t];
    if pc.Idle? || pc.AddMark? then AddStep(s, t, a) else if IsLinking(pc) then LinkStep(s, t) else GetStep(s, t)
  }

  // ---------------------------------------------------------------- the invariant

  predicate BeforeStore(pc: Pc) {
    pc.LinkLoad? || pc.LinkNext? || pc.LinkRefs?
  }

  /** The references to n that a thread answers for: its own, and the list's while the node is
      being put on or has just been taken off. */
  function Weight(pc: Pc, n: nat): nat {
    if pc.Idle? || pc.GetLoadHead? || pc.node != n then 0
    else if pc.LinkCas? || pc.LinkUndo? || pc.GetLoadNext? || pc.GetCasHead? || pc.GetDrop? then 1
    else if pc.GetCheck? || pc.GetRelease? then 2
    else 0
  }

  function Total(threads: seq<Pc>, n: nat): nat {
    if threads == [] then 0 else Total(threads[..|threads| - 1], n) + Weight(threads[|threads| - 1], n)
  }

  predicate Flagged(s: State, n: nat)
    requires n < |s.places|
  {
    match s.places[n]
    case Marked => true
    case Linking(t) => t < |s.threads| && BeforeStore(s.threads[t])
    case _ => false
  }

  /** The word is exactly the flag, the list's reference and the references threads answer for. */
  ghost predicate NodeOk(s: State, n: nat)
    requires n < |s.places| == |s.refs|
  {
    var total := Total(s.threads, n);
    && s.refs[n] == (if Flagged(s, n) then SHOULD_BE_ON_FREELIST else 0) + (if s.places[n].Listed? then 1 else 0) + total
    && (s.places[n].Marked? ==> total >= 1)
    && (s.places[n].Linking? ==>
          var t := s.places[n].linker;
          && t < |s.threads| && IsLinking(s.threads[t]) && s.threads[t].node == n
          && (BeforeStore(s.threads[t]) ==> total == 0))
  }

  ghost predicate ThreadOk(s: State, t: nat)
    requires t < |s.threads| && InRange(s)
  {
    match s.threads[t]
    case AddMark(n) => s.places[n] == Held(t)
    case LinkLoad(n, _) => s.places[n] == Linking(t)
    case LinkNext(n, _, _) => s.places[n] == Linking(t)
    case LinkRefs(n, h, _) => s.places[n] == Linking(t) && s.next[n] == h
    case LinkCas(n, h, _) => s.places[n] == Linking(t) && s.next[n] == h
    case LinkUndo(n, _, _) => s.places[n] == Linking(t)
    case GetCas(n, refs) => refs % SHOULD_BE_ON_FREELIST != 0
    case GetCasHead(n, x) => s.next[n] == x
    case GetCheck(n) => s.places[n] == Held(t)
    case GetRelease(n) => s.places[n] == Held(t)
    case _ => true
  }

  /** Following next from p visits exactly the chain and then ends. */
  predicate Linked(p: Option<nat>, next: seq<Option<nat>>, chain: seq<nat>)
    decreases |chain|
  {
    if chain == [] then p == None
    else p == Some(chain[0]) && chain[0] < |next| && Linked(next[chain[0]], next, chain[1..])
  }

  /** chain is the linked list in memory, without repetition, and holds exactly the nodes placed Listed. */
  ghost predicate ChainOk(s: State) {
    && Linked(s.head, s.next, s.chain)
    && (forall i, j :: 0 <= i < j < |s.chain| ==> s.chain[i] != s.chain[j])
    && (forall n: nat :: n in s.chain <==> n < |s.places| && s.places[n] == Listed)
  }

  ghost predicate Inv(s: State) {
    && InRange(s)
    && 2 * |s.threads| + 1 < SHOULD_BE_ON_FREELIST
    && (forall n :: 0 <= n < |s.refs| ==> NodeOk(s, n))
    && (forall t :: 0 <= t < |s.threads| ==> ThreadOk(s, t))
    && ChainOk(s)
  }

  // ------------------------------------------------------------ counting references

  lemma {:induction false} TotalUpdate(threads: seq<Pc>, t: nat, pc: Pc, n: nat)
    requires t < |threads|
    ensures Total(threads[t := pc], n) == Total(threads, n) - Weight(threads[t], n) + Weight(pc, n)
    ensures Total(threads, n) >= Weight(threads[t], n)
    ensures Total(threads, n) <= 2 * |threads|
  {
    var last := |threads| - 1;
    if t == last {
      assert threads[t := pc][..last] == threads[..last];
      TotalBound(threads[..last], n);
    } else {
      assert threads[t := pc][..last] == threads[..last][t := pc];
      TotalUpdate(threads[..last], t, pc, n);
    }
  }

  lemma {:induction false} TotalBound(threads: seq<Pc>, n: nat)
    ensures Total(threads, n) <= 2 * |threads|
  {
    if threads != [] {
      TotalBound(threads[..|threads| - 1], n);
    }
  }

  lemma Holds(s: State, t: nat, n: nat)
    requires Inv(s) && t < |s.threads| && n < |s.refs|
    ensures Weight(s.threads[t], n) <= Total(s.threads, n) <= 2 * |s.threads|
    ensures NodeOk(s, n) && ThreadOk(s, t)
  {
    TotalUpdate(s.threads, t, s.threads[t], n);
  }

  // --------------------------------------------------------------- preservation

  /** The node a step may touch. */
  function Focus(s: State, t: nat, a: Action): Option<nat>
    requires t < |s.threads|
  {
    var pc := s.threads[t];
    if pc.Idle? then (if a.StartAdd? || a.HandOver? then Some(a.node) else None)
    else if pc.GetLoadHead? then None
    else Some(pc.node)
  }

  /** What a step leaves alone, read off the code: everything but one thread and one node. */
  ghost predicate Frame(s: State, t: nat, focus: Option<nat>, u: State) {
    && |u.refs| == |s.refs| && |u.next| == |s.next| && |u.places| == |s.places| && |u.threads| == |s.threads|
    && (forall v :: 0 <= v < |s.threads| && v != t ==> u.threads[v] == s.threads[v])
    && (forall n :: 0 <= n < |s.refs| && focus != Some(n) ==> u.refs[n] == s.refs[n])
    && (forall n :: 0 <= n < |s.next| && focus != Some(n) ==> u.next[n] == s.next[n])
    && (forall n :: 0 <= n < |s.places| && focus != Some(n) ==> u.places[n] == s.places[n])
  }

  lemma StepFrame(s: State, t: nat, a: Action)
    requires InRange(s) && Enabled(s, t, a)
    ensures Frame(s, t, Focus(s, t, a), Step(s, t, a))
    ensures forall n: nat :: Focus(s, t, a) != Some(n) ==> Weight(s.threads[t], n) == Weight(Step(s, t, a).threads[t], n) == 0
  {
    hide AddStep, LinkStep, GetStep, Frame, Weight, Focus, InRange;
    if IsLinking(s.threads[t]) {
      LinkFrame(s, t, a);
    } else if IsGetting(s.threads[t]) {
      GetFrame(s, t, a);
    } else {
      AddFrame(s, t, a);
    }
  }

  lemma AddFrame(s: State, t: nat, a: Action)
    requires InRange(s) && Enabled(s, t, a) && (s.threads[t].Idle? || s.threads[t].AddMark?)
    ensures Frame(s, t, Focus(s, t, a), AddStep(s, t, a))
    ensures forall n: nat :: Focus(s, t, a) != Some(n) ==> Weight(s.threads[t], n) == Weight(AddStep(s, t, a).threads[t], n) == 0
  {
  }

  lemma LinkFrame(s: State, t: nat, a: Action)
    requires InRange(s) && Enabled(s, t, a) && IsLinking(s.threads[t])
    ensures Frame(s, t, Focus(s, t, a), LinkStep(s, t))
    ensures forall n: nat :: Focus(s, t, a) != Some(n) ==> Weight(s.threads[t], n) == Weight(LinkStep(s, t).threads[t], n) == 0
  {
  }

  lemma GetFrame(s: State, t: nat, a: Action)
    requires InRange(s) && Enabled(s, t, a) && IsGetting(s.threads[t])
    ensures Frame(s, t, Focus(s, t, a), GetStep(s, t))
    ensures forall n: nat :: Focus(s, t, a) != Some(n) ==> Weight(s.threads[t], n) == Weight(GetStep(s, t).threads[t], n) == 0
  {
  }

  ghost predicate PointersOk(u: State, t: nat, n: nat) {
    && t < |u.threads| && InList(u.head, n) && PcInRange(u.threads[t], n)
    && forall m :: 0 <= m < |u.next| ==> InList(u.next[m], n)
  }

  lemma GetPointers(s: State, t: nat)
    requires InRange(s) && t < |s.threads| && IsGetting(s.threads[t])
    ensures PointersOk(GetStep(s, t), t, |s.refs|)
  {
    var u := GetStep(s, t);
    assert u.next == s.next;
    assert PcInRange(s.threads[t], |s.refs|);
  }

  lemma LinkPointers(s: State, t: nat)
    requires InRange(s) && t < |s.threads| && IsLinking(s.threads[t])
    ensures PointersOk(LinkStep(s, t), t, |s.refs|)
  {
    assert PcInRange(s.threads[t], |s.refs|);
  }

  lemma StepPointers(s: State, t: nat, a: Action)
    requires InRange(s) && Enabled(s, t, a)
    ensures PointersOk(Step(s, t, a), t, |s.refs|)
  {
    var pc := s.threads[t];
    hide GetStep, LinkStep;
    if IsLinking(pc) { LinkPointers(s, t); }
    else if IsGetting(pc) { GetPointers(s, t); }
  }

  lemma StepInRange(s: State, t: nat, a: Action)
    requires InRange(s) && Enabled(s, t, a)
    ensures InRange(Step(s, t, a))
  {
    StepFrame(s, t, a);
    StepPointers(s, t, a);
    hide Step;
  }

  lemma StepTotals(s: State, t: nat, a: Action, n: nat)
    requires InRange(s) && Enabled(s, t, a)
    ensures var u := Step(s, t, a);
            && |u.threads| == |s.threads|
            && Total(u.threads, n) == Total(s.threads, n) - Weight(s.threads[t], n) + Weight(u.threads[t], n)
            && Weight(s.threads[t], n) <= Total(s.threads, n) <= 2 * |s.threads|
  {
    StepFrame(s, t, a);
    hide Step;
    var u := Step(s, t, a);
    TotalUpdate(s.threads, t, u.threads[t], n);
    assert u.threads == s.threads[t := u.threads[t]];
  }

  /** Nodes other than the one in focus keep their word, place and count. */
  lemma OtherNodes(s: State, t: nat, a: Action, n: nat)
    requires Inv(s) && Enabled(s, t, a) && n < |s.refs| && Focus(s, t, a) != Some(n)
    ensures InRange(Step(s, t, a)) && NodeOk(Step(s, t, a), n)
  {
    StepInRange(s, t, a);
    StepTotals(s, t, a, n);
    StepFrame(s, t, a);
    assert NodeOk(s, n) && ThreadOk(s, t);
    hide Step;
  }

  lemma StartNode(s: State, t: nat, a: Action, n: nat)
    requires Inv(s) && Enabled(s, t, a) && n < |s.refs| && Focus(s, t, a) == Some(n) && s.threads[t].Idle?
    ensures InRange(Step(s, t, a)) && NodeOk(Step(s, t, a), n)
  {
    hide GetStep, LinkStep;
    StepInRange(s, t, a);
    StepTotals(s, t, a, n);
    Holds(s, t, n);
    hide Total, Inv, InRange, Linked;
  }

  lemma MarkNode(s: State, t: nat, a: Action, n: nat)
    requires Inv(s) && Enabled(s, t, a) && n < |s.refs| && Focus(s, t, a) == Some(n) && s.threads[t].AddMark?
    ensures InRange(Step(s, t, a)) && NodeOk(Step(s, t, a), n)
  {
    hide GetStep, LinkStep;
    StepInRange(s, t, a);
    StepTotals(s, t, a, n);
    Holds(s, t, n);
    hide Total, Inv, InRange, Linked;
  }

  lemma UndoNode(s: State, t: nat, a: Action, n: nat)
    requires Inv(s) && Enabled(s, t, a) && n < |s.refs| && Focus(s, t, a) == Some(n) && s.threads[t].LinkUndo?
    ensures InRange(Step(s, t, a)) && NodeOk(Step(s, t, a), n)
  {
    hide GetStep, AddStep;
    StepInRange(s, t, a);
    StepTotals(s, t, a, n);
    Holds(s, t, n);
    hide Total, Inv, InRange, Linked;
  }

  lemma RefsNode(s: State, t: nat, a: Action, n: nat)
    requires Inv(s) && Enabled(s, t, a) && n < |s.refs| && Focus(s, t, a) == Some(n) && s.threads[t].LinkRefs?
    ensures InRange(Step(s, t, a)) && NodeOk(Step(s, t, a), n)
  {
    hide GetStep, AddStep;
    StepInRange(s, t, a);
    StepTotals(s, t, a, n);
    Holds(s, t, n);
    hide Total, Inv, InRange, Linked;
  }

  lemma LinkNode(s: State, t: nat, a: Action, n: nat)
    requires Inv(s) && Enabled(s, t, a) && n < |s.refs| && Focus(s, t, a) == Some(n)
    requires s.threads[t].LinkLoad? || s.threads[t].LinkNext? || s.threads[t].LinkCas?
    ensures InRange(Step(s, t, a)) && NodeOk(Step(s, t, a), n)
  {
    StepInRange(s, t, a);
    StepTotals(s, t, a, n);
    Holds(s, t, n);
  }

  lemma GetNode(s: State, t: nat, n: nat)
    requires Inv(s) && t < |s.threads| && n < |s.refs|
    requires s.threads[t] == GetLoadRefs(n) || s.threads[t] == GetLoadNext(n)
    ensures InRange(GetStep(s, t)) && NodeOk(GetStep(s, t), n)
  {
    StepInRange(s, t, Run);
    StepTotals(s, t, Run, n);
    Holds(s, t, n);
  }

  /** Taking a reference: the word had a reference in it, so the node is not being linked. */
  lemma PinNode(s: State, t: nat, n: nat)
    requires Inv(s) && t < |s.threads| && n < |s.refs|
    requires s.threads[t].GetCas? && s.threads[t].node == n
    ensures InRange(GetStep(s, t)) && NodeOk(GetStep(s, t), n)
  {
    StepInRange(s, t, Run);
    StepTotals(s, t, Run, n);
    Holds(s, t, n);
    var u := GetStep(s, t);
    assert u.places == s.places && (u.threads[t] == GetLoadHead || u.threads[t] == GetLoadNext(n));
    assert u.threads[t] == GetLoadNext(n) ==> u.refs[n] == s.refs[n] + 1 && s.refs[n] % SHOULD_BE_ON_FREELIST != 0;
    hide GetStep;
  }

  lemma ReleaseNode(s: State, t: nat, n: nat)
    requires Inv(s) && t < |s.threads| && n < |s.refs|
    requires s.threads[t] == GetCheck(n) || s.threads[t] == GetRelease(n)
    ensures InRange(GetStep(s, t)) && NodeOk(GetStep(s, t), n)
  {
    StepInRange(s, t, Run);
    StepTotals(s, t, Run, n);
    Holds(s, t, n);
  }

  /** The head compare-exchange takes the first node of the chain. */
  lemma CasHeadNode(s: State, t: nat, a: Action, n: nat)
    requires Inv(s) && Enabled(s, t, a) && n < |s.refs| && Focus(s, t, a) == Some(n) && s.threads[t].GetCasHead?
    ensures InRange(Step(s, t, a)) && NodeOk(Step(s, t, a), n)
  {
    hide LinkStep, AddStep;
    StepInRange(s, t, a);
    StepTotals(s, t, a, n);
    Holds(s, t, n);
    if s.head == Some(n) { HeadIsListed(s, n); }
    hide Total, Inv, InRange, Linked;
  }

  lemma HeadIsListed(s: State, n: nat)
    requires ChainOk(s) && s.head == Some(n)
    ensures n < |s.places| && s.places[n] == Listed
  {
    assert s.chain[0] in s.chain;
  }

  lemma DropNode(s: State, t: nat, a: Action, n: nat)
    requires Inv(s) && Enabled(s, t, a) && n < |s.refs| && Focus(s, t, a) == Some(n) && s.threads[t].GetDrop?
    ensures InRange(Step(s, t, a)) && NodeOk(Step(s, t, a), n)
  {
    hide LinkStep, AddStep;
    StepInRange(s, t, a);
    StepTotals(s, t, a, n);
    Holds(s, t, n);
    hide Total, Inv, InRange, Linked;
  }

  lemma FocusNode(s: State, t: nat, a: Action, n: nat)
    requires Inv(s) && Enabled(s, t, a) && n < |s.refs| && Focus(s, t, a) == Some(n)
    ensures InRange(Step(s, t, a)) && NodeOk(Step(s, t, a), n)
  {
    var pc := s.threads[t];
    hide LinkStep, GetStep, AddStep, NodeOk, Inv;
    if pc.Idle? { StartNode(s, t, a, n); }
    else if pc.AddMark? { MarkNode(s, t, a, n); }
    else if pc.LinkUndo? { UndoNode(s, t, a, n); }
    else if pc.LinkRefs? { RefsNode(s, t, a, n); }
    else if IsLinking(pc) { LinkNode(s, t, a, n); }
    else if pc.GetCasHead? { CasHeadNode(s, t, a, n); }
    else if pc.GetDrop? { DropNode(s, t, a, n); }
    else if pc.GetCheck? || pc.GetRelease? { ReleaseNode(s, t, n); }
    else if pc.GetCas? { PinNode(s, t, n); }
    else { GetNode(s, t, n); }
  }

  /** Other threads' local knowledge survives: whoever reads or links a node pins its next pointer. */
  lemma OtherThreads(s: State, t: nat, a: Action, v: nat)
    requires Inv(s) && Enabled(s, t, a) && v < |s.threads| && v != t
    ensures InRange(Step(s, t, a)) && |Step(s, t, a).threads| == |s.threads| && ThreadOk(Step(s, t, a), v)
  {
    StepInRange(s, t, a);
    StepFrame(s, t, a);
    var pc := s.threads[v];
    if !pc.Idle? && !pc.GetLoadHead? {
      Holds(s, v, pc.node);
      Holds(s, t, pc.node);
      SharedNode(s, t, a, v);
    }
    hide Step;
  }

  /** If a step works on a node another thread relies on, it keeps what that thread relies on. */
  lemma SharedNode(s: State, t: nat, a: Action, v: nat)
    requires Inv(s) && Enabled(s, t, a) && v < |s.threads| && v != t
    requires !s.threads[v].Idle? && !s.threads[v].GetLoadHead?
    ensures InRange(Step(s, t, a))
    ensures var n, u := s.threads[v].node, Step(s, t, a);
            && n < |u.places| == |u.next| && n < |s.places| == |s.next|
            && (s.places[n] == Held(v) || s.places[n] == Linking(v) ==> u.places[n] == s.places[n])
            && (s.places[n] == Linking(v) || s.threads[v].GetCasHead? ==> u.next[n] == s.next[n])
  {
    StepInRange(s, t, a);
    StepFrame(s, t, a);
    var n := s.threads[v].node;
    Holds(s, v, n);
    if Focus(s, t, a) == Some(n) {
      Holds(s, t, n);
      if s.head == Some(n) { assert s.places[s.chain[0]] == Listed; }
    }
  }

  lemma OwnGetting(s: State, t: nat)
    requires Inv(s) && t < |s.threads| && IsGetting(s.threads[t])
    ensures InRange(GetStep(s, t)) && |GetStep(s, t).threads| == |s.threads| && ThreadOk(GetStep(s, t), t)
  {
    StepInRange(s, t, Run);
    assert ThreadOk(s, t);
  }

  lemma OwnThread(s: State, t: nat, a: Action)
    requires Inv(s) && Enabled(s, t, a)
    ensures InRange(Step(s, t, a)) && |Step(s, t, a).threads| == |s.threads| && ThreadOk(Step(s, t, a), t)
  {
    if IsGetting(s.threads[t]) {
      hide GetStep;
      OwnGetting(s, t);
    } else {
      hide GetStep;
      StepInRange(s, t, a);
      assert ThreadOk(s, t);
    }
  }

  lemma {:induction false} LinkedElsewhere(p: Option<nat>, next: seq<Option<nat>>, chain: seq<nat>, n: nat, x: Option<nat>)
    requires Linked(p, next, chain) && n !in chain && n < |next|
    ensures Linked(p, next[n := x], chain)
    decreases |chain|
  {
    if chain != [] {
      LinkedElsewhere(next[chain[0]], next, chain[1..], n, x);
    }
  }

  lemma ChainLink(s: State, t: nat)
    requires Inv(s) && t < |s.threads| && s.threads[t].LinkCas? && s.head == s.threads[t].head
    ensures ChainOk(LinkStep(s, t))
  {
    assert ThreadOk(s, t);
    var n, u := s.threads[t].node, LinkStep(s, t);
    assert u.chain[1..] == s.chain && u.chain[0] == n;
    assert n !in s.chain;
    assert u.next == s.next && u.head == Some(n) && u.places == s.places[n := Listed];
    assert Linked(u.next[n], u.next, s.chain);
    assert Linked(u.head, u.next, u.chain);
    assert forall m: nat :: m in u.chain <==> m == n || m in s.chain;
  }

  lemma ChainTake(s: State, t: nat)
    requires Inv(s) && t < |s.threads| && s.threads[t].GetCasHead? && s.head == Some(s.threads[t].node)
    ensures s.chain != [] && s.chain[0] == s.threads[t].node
    ensures ChainOk(GetStep(s, t))
  {
    assert ThreadOk(s, t);
    var n, u := s.threads[t].node, GetStep(s, t);
    assert s.chain == [n] + u.chain;
    assert u.next == s.next && u.head == s.next[n] && u.places == s.places[n := Held(t)];
    assert n !in u.chain;
    assert forall m: nat :: m in s.chain <==> m == n || m in u.chain;
  }

  /** List, head and the listed places stay, and only one step writes next. */
  ghost predicate LeavesChain(s: State, t: nat, u: State)
    requires InRange(s) && t < |s.threads|
  {
    var pc := s.threads[t];
    && u.chain == s.chain && u.head == s.head
    && u.next == (if pc.LinkNext? then s.next[pc.node := pc.head] else s.next)
    && |u.places| == |s.places| && forall n :: 0 <= n < |s.places| ==> u.places[n].Listed? == s.places[n].Listed?
  }

  lemma AddLeavesChain(s: State, t: nat, a: Action)
    requires InRange(s) && Enabled(s, t, a) && (s.threads[t].Idle? || s.threads[t].AddMark?) && ThreadOk(s, t)
    ensures LeavesChain(s, t, AddStep(s, t, a))
  {
  }

  lemma LinkLeavesChain(s: State, t: nat)
    requires InRange(s) && t < |s.threads| && IsLinking(s.threads[t]) && ThreadOk(s, t)
    requires s.threads[t].LinkCas? ==> s.head != s.threads[t].head
    ensures LeavesChain(s, t, LinkStep(s, t))
  {
  }

  lemma GetLeavesChain(s: State, t: nat)
    requires InRange(s) && t < |s.threads| && IsGetting(s.threads[t]) && ThreadOk(s, t) && 2 * |s.threads| + 1 < SHOULD_BE_ON_FREELIST
    requires s.threads[t].GetDrop? ==> NodeOk(s, s.threads[t].node) && Total(s.threads, s.threads[t].node) <= 2 * |s.threads|
    requires s.threads[t].GetCasHead? ==> s.head != Some(s.threads[t].node)
    ensures LeavesChain(s, t, GetStep(s, t))
  {
    hide Total;
  }

  lemma ChainKept(s: State, t: nat, a: Action)
    requires Inv(s) && Enabled(s, t, a)
    requires s.threads[t].LinkCas? ==> s.head != s.threads[t].head
    requires s.threads[t].GetCasHead? ==> s.head != Some(s.threads[t].node)
    ensures ChainOk(Step(s, t, a))
  {
    assert ThreadOk(s, t);
    var u, pc := Step(s, t, a), s.threads[t];
    hide AddStep, LinkStep, GetStep, ThreadOk;
    if IsLinking(pc) {
      LinkLeavesChain(s, t);
    } else if IsGetting(pc) {
      if pc.GetDrop? { Holds(s, t, pc.node); }
      GetLeavesChain(s, t);
    } else {
      AddLeavesChain(s, t, a);
    }
    hide Step;
    if pc.LinkNext? { LinkedElsewhere(s.head, s.next, s.chain, pc.node, pc.head); }
  }

  /** Every step of every thread keeps the invariant. */
  lemma StepKeepsInv(s: State, t: nat, a: Action)
    requires Inv(s) && Enabled(s, t, a)
    ensures Inv(Step(s, t, a))
  {
    StepInRange(s, t, a);
    StepFrame(s, t, a);
    var u, pc := Step(s, t, a), s.threads[t];
    if pc.LinkCas? && s.head == pc.head { ChainLink(s, t); }
    else if pc.GetCasHead? && s.head == Some(pc.node) { ChainTake(s, t); }
    else { ChainKept(s, t, a); }
    hide Step, NodeOk, ThreadOk, ChainOk;
    forall n | 0 <= n < |u.refs| ensures NodeOk(u, n) {
      if Focus(s, t, a) == Some(n) { FocusNode(s, t, a, n); } else { OtherNodes(s, t, a, n); }
    }
    forall v | 0 <= v < |u.threads| ensures ThreadOk(u, v) {
      if v == t { OwnThread(s, t, a); } else { OtherThreads(s, t, a, v); }
    }
  }

  // --------------------------------------------------------------- every schedule

  /** All nodes with some client, nothing on the list, fewer than 2^30 threads. */
  ghost predicate Init(s: State) {
    && |s.refs| == |s.next| == |s.places| && s.head == None && s.chain == []
    && 2 * |s.threads| + 1 < SHOULD_BE_ON_FREELIST
    && (forall n :: 0 <= n < |s.refs| ==> s.refs[n] == 0 && s.next[n] == None && s.places[n].Held?)
    && (forall t :: 0 <= t < |s.threads| ==> s.threads[t] == Idle)
  }

  datatype Event = Event(thread: nat, action: Action)

  /** Any interleaving: events that are not enabled are skipped. */
  function RunAll(s: State, events: seq<Event>): State
    decreases |events|
  {
    if events == [] then s else
      var e := events[0];
      var next := if InRange(s) && Enabled(s, e.thread, e.action) then Step(s, e.thread, e.action) else s;
      RunAll(next, events[1..])
  }

  lemma {:induction false} IdleTotal(threads: seq<Pc>, n: nat)
    requires forall t :: 0 <= t < |threads| ==> threads[t] == Idle
    ensures Total(threads, n) == 0
  {
    if threads != [] {
      IdleTotal(threads[..|threads| - 1], n);
    }
  }

  lemma InitHolds(s: State)
    requires Init(s)
    ensures Inv(s)
  {
    forall n | 0 <= n < |s.refs| ensures NodeOk(s, n) {
      IdleTotal(s.threads, n);
    }
  }

  lemma {:induction false} RunKeepsInv(s: State, events: seq<Event>)
    requires Inv(s)
    ensures Inv(RunAll(s, events))
    decreases |events|
  {
    if events != [] {
      var e := events[0];
      if Enabled(s, e.thread, e.action) {
        StepKeepsInv(s, e.thread, e.action);
        RunKeepsInv(Step(s, e.thread, e.action), events[1..]);
      } else {
        RunKeepsInv(s, events[1..]);
      }
    }
  }

  /** No ABA: in every reachable state, a head compare-exchange that is about to succeed removes the
      top of the list and installs exactly the rest of it, although next was read earlier. */
  lemma HeadCasIsPop(s0: State, events: seq<Event>, t: nat)
    requires Init(s0)
    requires var s := RunAll(s0, events);
             t < |s.threads| && s.threads[t].GetCasHead? && s.head == Some(s.threads[t].node)
    ensures var s := RunAll(s0, events);
            && InRange(s) && Enabled(s, t, Run)
            && Linked(s.head, s.next, s.chain) && s.chain != []
            && s.threads[t].next == s.next[s.threads[t].node]
            && var u := Step(s, t, Run);
               u.chain == s.chain[1..] && Linked(u.head, u.next, s.chain[1..]) && u.threads[t] == GetCheck(s.chain[0])
  {
    InitHolds(s0);
    RunKeepsInv(s0, events);
    var s := RunAll(s0, events);
    assert ThreadOk(s, t);
    ChainTake(s, t);
  }

  /** A thread is handling a node nobody else may: adding it, linking it, or just taken off the list. */
  predicate Handles(pc: Pc, n: nat) {
    (pc.AddMark? || IsLinking(pc) || pc.GetCheck? || pc.GetRelease?) && pc.node == n
  }

  /** In every reachable state each node is in exactly one place, and the place is visible in memory:
      on the list exactly when following next from the head meets it; waiting for its pending add
      exactly with the flag set, no linker, and some reader left that will finish the add; and no two
      threads ever handle the same node. */
  lemma OnePlaceEach(s0: State, events: seq<Event>, n: nat, t: nat, v: nat)
    requires Init(s0)
    requires var s := RunAll(s0, events); n < |s.refs| && t < |s.threads| && v < |s.threads|
    ensures var s := RunAll(s0, events);
            && InRange(s) && Linked(s.head, s.next, s.chain)
            && (n in s.chain <==> s.places[n] == Listed)
            && (s.places[n] == Marked ==> s.refs[n] > 0x8000_0000 && Total(s.threads, n) >= 1)
            && (s.places[n].Linking? ==> s.places[n].linker < |s.threads| && IsLinking(s.threads[s.places[n].linker]) && s.threads[s.places[n].linker].node == n)
            && (s.places[n].Held? || s.places[n].Listed? ==> s.refs[n] < SHOULD_BE_ON_FREELIST)
            && (Handles(s.threads[t], n) ==> s.places[n] == Held(t) || s.places[n] == Linking(t))
            && (Handles(s.threads[t], n) && Handles(s.threads[v], n) ==> t == v)
  {
    InitHolds(s0);
    RunKeepsInv(s0, events);
    var s := RunAll(s0, events);
    Holds(s, t, n);
    Holds(s, v, n);
  }

  /** No node is lost: once every thread is idle, every node is with a client or on the list. */
  lemma QuiescentNodes(s0: State, events: seq<Event>, n: nat)
    requires Init(s0)
    requires var s := RunAll(s0, events);
             n < |s.places| && forall t :: 0 <= t < |s.threads| ==> s.threads[t] == Idle
    ensures var s := RunAll(s0, events);
            InRange(s) && ((s.places[n].Held? && n !in s.chain && s.refs[n] == 0) || (n in s.chain && s.refs[n] == 1))
  {
    InitHolds(s0);
    RunKeepsInv(s0, events);
    var s := RunAll(s0, events);
    assert NodeOk(s, n);
    IdleTotal(s.threads, n);
  }

  /** The 32-bit word never wraps, the flag is clear whenever add is about to set it, and the
      assertion after a successful removal holds. */
  lemma WordsNeverWrap(s0: State, events: seq<Event>, t: nat, n: nat)
    requires Init(s0)
    requires var s := RunAll(s0, events); t < |s.threads| && n < |s.refs|
    ensures var s := RunAll(s0, events);
            && s.refs[n] < 0x1_0000_0000
            && (s.threads[t] == AddMark(n) ==> s.refs[n] < SHOULD_BE_ON_FREELIST)
            && (s.threads[t] == GetCheck(n) ==> 2 <= s.refs[n] < SHOULD_BE_ON_FREELIST)
            && (s.threads[t].GetDrop? && s.threads[t].node == n ==> s.refs[n] % SHOULD_BE_ON_FREELIST >= 1)
  {
    InitHolds(s0);
    RunKeepsInv(s0, events);
    Holds(RunAll(s0, events), t, n);
  }

  // ------------------------------------------------------------- when a get answers null

  /** What the step reads from the head of the list; a failed compare-exchange reads it too. */
  function HeadRead(s: State, t: nat): Option<Option<nat>>
    requires t < |s.threads|
  {
    match s.threads[t]
    case GetLoadHead => Some(s.head)
    case GetCasHead(n, _) => if s.head == Some(n) then None else Some(s.head)
    case _ => None
  }

  /** The head last read by thread t in its current call, if it has read one. */
  function LastHead(s: State, events: seq<Event>, t: nat, last: Option<Option<nat>>): Option<Option<nat>>
    decreases |events|
  {
    if events == [] then last else
      var e := events[0];
      if InRange(s) && Enabled(s, e.thread, e.action)
      then LastHead(Step(s, e.thread, e.action), events[1..], t, Noted(s, e, t, last))
      else LastHead(s, events[1..], t, last)
  }

  function Noted(s: State, e: Event, t: nat, last: Option<Option<nat>>): Option<Option<nat>>
    requires e.thread < |s.threads|
  {
    if e.thread != t then last
    else if e.action.StartGet? then None
    else if HeadRead(s, t).Some? then HeadRead(s, t) else last
  }

  /** The loop variable of try_get, wherever it is kept, is the head last read. */
  predicate Remembers(pc: Pc, last: Option<Option<nat>>) {
    && (pc.GetLoadRefs? || pc.GetCas? || pc.GetLoadNext? || pc.GetCasHead? ==> last == Some(Some(pc.node)))
    && (pc.GetDrop? ==> last == Some(pc.head))
    && (IsLinking(pc) && pc.resume.FromGet? ==> last == Some(pc.resume.head))
  }

  lemma StepRemembers(s: State, e: Event, t: nat, last: Option<Option<nat>>)
    requires InRange(s) && Enabled(s, e.thread, e.action) && t < |s.threads| && Remembers(s.threads[t], last)
    ensures |Step(s, e.thread, e.action).threads| == |s.threads|
    ensures Remembers(Step(s, e.thread, e.action).threads[t], Noted(s, e, t, last))
  {
    hide InRange;
    var u, pc := Step(s, e.thread, e.action), s.threads[e.thread];
    assert |u.threads| == |s.threads| && (e.thread != t ==> u.threads[t] == s.threads[t]) by {
      StepFrame(s, e.thread, e.action);
      hide Step;
    }
    if IsLinking(pc) {
      hide AddStep, GetStep;
    } else if IsGetting(pc) {
      hide AddStep, LinkStep;
    } else {
      hide LinkStep, GetStep;
    }
  }

  lemma {:induction false} RunRemembers(s: State, events: seq<Event>, t: nat, last: Option<Option<nat>>)
    requires t < |s.threads| && Remembers(s.threads[t], last)
    ensures t < |RunAll(s, events).threads| && Remembers(RunAll(s, events).threads[t], LastHead(s, events, t, last))
    decreases |events|
  {
    hide Step, Remembers, Noted, InRange;
    if events != [] {
      var e := events[0];
      if InRange(s) && Enabled(s, e.thread, e.action) {
        StepRemembers(s, e, t, last);
        RunRemembers(Step(s, e.thread, e.action), events[1..], t, Noted(s, e, t, last));
      } else {
        RunRemembers(s, events[1..], t, last);
      }
    }
  }

  /** The thread is inside try_get. */
  predicate InGet(pc: Pc) {
    IsGetting(pc) || (IsLinking(pc) && pc.resume.FromGet?)
  }

  /** In every run a try_get that ends without a node has last read an empty list, and it ends as soon as its
      first load reads one. */
  lemma NullMeansEmpty(s0: State, events: seq<Event>, t: nat)
    requires Init(s0)
    requires var s := RunAll(s0, events); t < |s0.threads| && t < |s.threads| && InGet(s.threads[t])
    ensures var s := RunAll(s0, events); InRange(s) && Enabled(s, t, Run)
    ensures var s := RunAll(s0, events); var u := Step(s, t, Run); var last := Noted(s, Event(t, Run), t, LastHead(s0, events, t, None));
            && t < |u.threads|
            && (u.threads[t].Idle? && !s.threads[t].GetRelease? ==> last == Some(None))
            && (s.threads[t].GetLoadHead? && last == Some(None) ==> u.threads[t].Idle?)
  {
    InitHolds(s0);
    RunKeepsInv(s0, events);
    RunRemembers(s0, events, t, None);
    hide InRange, RunAll, LastHead, Init;
  }

  // ------------------------------------------------------------------------ lone calls

  /** k steps of thread t and of nobody else. */
  function Alone(s: State, t: nat, k: nat): State
    decreases k
  {
    if k == 0 || !InRange(s) || !Enabled(s, t, Run) then s else Alone(Step(s, t, Run), t, k - 1)
  }

  lemma OneAlone(s: State, t: nat, k: nat)
    requires Inv(s) && t < |s.threads| && !s.threads[t].Idle? && k > 0
    ensures InRange(s) && Enabled(s, t, Run) && Inv(Step(s, t, Run)) && t < |Step(s, t, Run).threads|
    ensures Alone(s, t, k) == Alone(Step(s, t, Run), t, k - 1)
  {
    StepKeepsInv(s, t, Run);
    StepFrame(s, t, Run);
    hide Step, Inv;
  }

  /** Wherever the other threads stand, a get that runs alone takes the first node of the list, and nothing
      exactly when there is none. */
  lemma LoneGet(s: State, t: nat)
    requires Inv(s) && t < |s.threads| && s.threads[t].Idle?
    ensures InRange(s) && Enabled(s, t, StartGet)
    ensures s.chain == [] ==> Alone(Step(s, t, StartGet), t, 1) == s
    ensures s.chain != [] ==>
              var n := s.chain[0];
              && n < |s.refs| == |s.next| == |s.places| && s.refs[n] >= 1 && t < |Alone(Step(s, t, StartGet), t, 5).threads|
              && Alone(Step(s, t, StartGet), t, 5).threads[t] == GetCheck(n)
              && Alone(Step(s, t, StartGet), t, 7)
                 == s.(refs := s.refs[n := s.refs[n] - 1], head := s.next[n], places := s.places[n := Held(t)], chain := s.chain[1..])
  {
    StepKeepsInv(s, t, StartGet);
    var s0 := Step(s, t, StartGet);
    assert s0 == Goto(s, t, GetLoadHead);
    if s.chain == [] {
      OneAlone(s0, t, 1);
      assert s.threads[t := Idle] == s.threads;
    } else {
      LoneTake(s, s0, t);
    }
  }

  lemma ListedWord(s: State, t: nat)
    requires Inv(s) && t < |s.threads| && s.threads[t].Idle? && s.chain != []
    ensures OnTop(s, t, s.chain[0]) && 1 <= s.refs[s.chain[0]] < 0x7fff_ffff
  {
    var n := s.chain[0];
    assert n in s.chain && s.places[n] == Listed;
    Holds(s, t, n);
    TotalUpdate(s.threads, t, GetCheck(n), n);
    TotalBound(s.threads[t := GetCheck(n)], n);
  }

  lemma LoneTake(s: State, s0: State, t: nat)
    requires Inv(s) && t < |s.threads| && s.threads[t].Idle? && s.chain != [] && s0 == Goto(s, t, GetLoadHead) && Inv(s0)
    ensures OnTop(s, t, s.chain[0]) && s.refs[s.chain[0]] >= 1
    ensures var n := s.chain[0];
            && t < |Alone(s0, t, 5).threads| && Alone(s0, t, 5).threads[t] == GetCheck(n)
            && Alone(s0, t, 7) == s.(refs := s.refs[n := s.refs[n] - 1], head := s.next[n], places := s.places[n := Held(t)], chain := s.chain[1..])
  {
    ListedWord(s, t);
    hide Inv, Alone, NodeOk, Linked;
    LoneLook(s, s0, t, s.chain[0]);
  }

  lemma LoneLook(s: State, s0: State, t: nat, n: nat)
    requires Inv(s0) && OnTop(s, t, n) && s0 == Goto(s, t, GetLoadHead) && 1 <= s.refs[n] < 0x7fff_ffff
    ensures t < |Alone(s0, t, 5).threads| && Alone(s0, t, 5).threads[t] == GetCheck(n)
    ensures Alone(s0, t, 7) == s.(refs := s.refs[n := s.refs[n] - 1], head := s.next[n], places := s.places[n := Held(t)], chain := s.chain[1..])
  {
    hide Inv, InRange, Alone, AddStep, LinkStep;
    OneAlone(s0, t, 5); OneAlone(s0, t, 7);
    var s1 := Step(s0, t, Run);
    assert s1 == Goto(s, t, GetLoadRefs(n));
    OneAlone(s1, t, 4); OneAlone(s1, t, 6);
    var s2 := Step(s1, t, Run);
    assert s2 == Goto(s, t, GetCas(n, s.refs[n]));
    hide Step;
    LonePin(s, s2, t, n);
  }

  lemma LonePin(s: State, s2: State, t: nat, n: nat)
    requires Inv(s2) && OnTop(s, t, n) && s2 == Goto(s, t, GetCas(n, s.refs[n])) && 1 <= s.refs[n] < 0x7fff_ffff
    ensures t < |Alone(s2, t, 3).threads| && Alone(s2, t, 3).threads[t] == GetCheck(n)
    ensures Alone(s2, t, 5) == s.(refs := s.refs[n := s.refs[n] - 1], head := s.next[n], places := s.places[n := Held(t)], chain := s.chain[1..])
  {
    hide Inv, InRange, Alone, AddStep, LinkStep;
    OneAlone(s2, t, 3); OneAlone(s2, t, 5);
    var s3 := Step(s2, t, Run);
    var pinned := s.(refs := s.refs[n := s.refs[n] + 1]);
    assert s3 == Goto(pinned, t, GetLoadNext(n));
    OneAlone(s3, t, 2); OneAlone(s3, t, 4);
    var s4 := Step(s3, t, Run);
    assert s4 == Goto(pinned, t, GetCasHead(n, s.next[n]));
    hide Step;
    LonePop(pinned, s4, t, n);
    assert pinned.refs[n := s.refs[n] - 1] == s.refs[n := s.refs[n] - 1];
  }

  /** Thread t is idle and n is the first node of the list. */
  predicate OnTop(s: State, t: nat, n: nat) {
    t < |s.threads| && s.threads[t].Idle? && n < |s.refs| == |s.next| == |s.places| && s.head == Some(n) && s.chain != []
  }

  lemma LonePop(s: State, s4: State, t: nat, n: nat)
    requires Inv(s4) && OnTop(s, t, n) && s4 == Goto(s, t, GetCasHead(n, s.next[n])) && 2 <= s.refs[n] < 0x8000_0000
    ensures t < |Alone(s4, t, 1).threads| && Alone(s4, t, 1).threads[t] == GetCheck(n)
    ensures Alone(s4, t, 3) == s.(refs := s.refs[n := s.refs[n] - 2], head := s.next[n], places := s.places[n := Held(t)], chain := s.chain[1..])
  {
    hide Inv, InRange, Alone, AddStep, LinkStep;
    OneAlone(s4, t, 1); OneAlone(s4, t, 3);
    var s5 := Step(s4, t, Run);
    var taken := s.(head := s.next[n], places := s.places[n := Held(t)], chain := s.chain[1..]);
    assert s5 == Goto(taken, t, GetCheck(n));
    NoneAlone(s5, t);
    OneAlone(s5, t, 2);
    var s6 := Step(s5, t, Run);
    assert s6 == Goto(taken, t, GetRelease(n));
    OneAlone(s6, t, 1);
    var s7 := Step(s6, t, Run);
    assert s.threads[t := GetRelease(n)][t := Idle] == s.threads;
    assert s7 == taken.(refs := s.refs[n := s.refs[n] - 2]);
    NoneAlone(s7, t);
  }

  lemma NoneAlone(s: State, t: nat)
    ensures Alone(s, t, 0) == s
  {
  }

  lemma HeldWord(s: State, t: nat, n: nat)
    requires Inv(s) && t < |s.threads| && s.threads[t].Idle? && n < |s.places| && s.places[n] == Held(t)
    ensures InRange(s) && Enabled(s, t, StartAdd(n)) && n < |s.refs| == |s.next| == |s.places| && s.refs[n] < 0x7fff_ffff
  {
    Holds(s, t, n);
  }

  /** Wherever the other threads stand, an add that runs alone puts the node in front of the list, or, when
      somebody still has a reference to it, leaves it marked for the last of them. */
  lemma LoneAdd(s: State, t: nat, n: nat)
    requires Inv(s) && t < |s.threads| && s.threads[t].Idle? && n < |s.places| && s.places[n] == Held(t)
    ensures InRange(s) && Enabled(s, t, StartAdd(n)) && n < |s.refs| == |s.next| == |s.places|
    ensures s.refs[n] == 0 ==>
              Alone(Step(s, t, StartAdd(n)), t, 5)
              == s.(refs := s.refs[n := 1], next := s.next[n := s.head], head := Some(n), places := s.places[n := Listed], chain := [n] + s.chain)
    ensures s.refs[n] > 0 ==>
              Alone(Step(s, t, StartAdd(n)), t, 1) == s.(refs := s.refs[n := s.refs[n] + 0x8000_0000], places := s.places[n := Marked])
  {
    HeldWord(s, t, n);
    hide Inv, InRange, Alone, NodeOk, LinkStep, GetStep;
    StepKeepsInv(s, t, StartAdd(n));
    LoneMark(s, Step(s, t, StartAdd(n)), t, n);
  }

  lemma LoneMark(s: State, s0: State, t: nat, n: nat)
    requires Inv(s0) && t < |s.threads| && s.threads[t].Idle? && n < |s.refs| == |s.next| == |s.places| && s.refs[n] < 0x7fff_ffff
    requires s0 == Goto(s, t, AddMark(n))
    ensures s.refs[n] == 0 ==>
              Alone(s0, t, 5)
              == s.(refs := s.refs[n := 1], next := s.next[n := s.head], head := Some(n), places := s.places[n := Listed], chain := [n] + s.chain)
    ensures s.refs[n] > 0 ==> Alone(s0, t, 1) == s.(refs := s.refs[n := s.refs[n] + 0x8000_0000], places := s.places[n := Marked])
  {
    hide Inv, InRange, Alone;
    OneAlone(s0, t, 5); OneAlone(s0, t, 1);
    var s1 := Step(s0, t, Run);
    NoneAlone(s1, t);
    if s.refs[n] == 0 {
      var marked := s.(refs := s.refs[n := 0x8000_0000], places := s.places[n := Linking(t)]);
      assert s1 == Goto(marked, t, LinkLoad(n, FromAdd));
      hide Step;
      LoneLink(marked, s1, t, n);
      assert s.refs[n := 0x8000_0000][n := 1] == s.refs[n := 1] && s.places[n := Linking(t)][n := Listed] == s.places[n := Listed];
    } else {
      assert s.threads[t := AddMark(n)][t := Idle] == s.threads;
    }
  }

  lemma LoneLink(s: State, s1: State, t: nat, n: nat)
    requires Inv(s1) && t < |s.threads| && s.threads[t].Idle? && n < |s.refs| == |s.next| == |s.places| && s1 == Goto(s, t, LinkLoad(n, FromAdd))
    ensures Alone(s1, t, 4)
         == s.(refs := s.refs[n := 1], next := s.next[n := s.head], head := Some(n), places := s.places[n := Listed], chain := [n] + s.chain)
  {
    hide Inv, InRange, Alone;
    OneAlone(s1, t, 4);
    var s2 := Step(s1, t, Run);
    assert s2 == Goto(s, t, LinkNext(n, s.head, FromAdd));
    OneAlone(s2, t, 3);
    var s3 := Step(s2, t, Run);
    assert s3 == Goto(s.(next := s.next[n := s.head]), t, LinkRefs(n, s.head, FromAdd));
    OneAlone(s3, t, 2);
    var s4 := Step(s3, t, Run);
    assert s4 == Goto(s.(refs := s.refs[n := 1], next := s.next[n := s.head]), t, LinkCas(n, s.head, FromAdd));
    OneAlone(s4, t, 1);
    var s5 := Step(s4, t, Run);
    assert s.threads[t := LinkCas(n, s.head, FromAdd)][t := Idle] == s.threads;
    assert s5 == s.(refs := s.refs[n := 1], next := s.next[n := s.head], head := Some(n), places := s.places[n := Listed], chain := [n] + s.chain);
    NoneAlone(s5, t);
  }
}
