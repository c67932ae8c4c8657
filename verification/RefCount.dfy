/** Intrusive reference counting of immutable tree nodes: SharedPtr with the counter policy, as
    operations on a heap of nodes and the pointer variables outside it.

    Nodes are numbered in allocation order and never reused; a node's two pointers are set when it is
    built, so they lead to older nodes.  A freed node is None. */
module RefCount {
  import opened Prelude

  datatype Node = Node(left: Option<nat>, right: Option<nat>, count: nat)

  type Memory = seq<Option<Node>>

  // --------------------------------------------------------------- counting pointers

  function Is(p: Option<nat>, n: nat): nat {
    if p == Some(n) then 1 else 0
  }

  function Fields(cell: Option<Node>, n: nat): nat {
    if cell.None? then 0 else Is(cell.value.left, n) + Is(cell.value.right, n)
  }

  /** How many fields of live nodes point to n. */
  function Refs(memory: Memory, n: nat): nat {
    if memory == [] then 0 else Refs(memory[..|memory| - 1], n) + Fields(memory[|memory| - 1], n)
  }

  function One(p: Option<nat>): multiset<nat> {
    if p.None? then multiset{} else multiset{p.value}
  }

  predicate Older(p: Option<nat>, n: nat) {
    p.Some? ==> p.value < n
  }

  /** Pointers to n from variables, from live nodes, and in temporaries on their way to be released or stored. */
  function Pointers(memory: Memory, handles: seq<Option<nat>>, loose: multiset<nat>, n: nat): nat {
    Refs(memory, n) + multiset(handles)[Some(n)] + loose[n]
  }

  ghost predicate NodeOk(memory: Memory, handles: seq<Option<nat>>, loose: multiset<nat>, n: nat)
    requires n < |memory|
  {
    match memory[n]
    case Some(node) => node.count == Pointers(memory, handles, loose, n) >= 1 && Older(node.left, n) && Older(node.right, n)
    case None => Pointers(memory, handles, loose, n) == 0
  }

  /** Every count is the number of pointers, and every pointer leads to a live node. */
  ghost predicate Balanced(memory: Memory, handles: seq<Option<nat>>, loose: multiset<nat>) {
    && (forall n :: 0 <= n < |memory| ==> NodeOk(memory, handles, loose, n))
    && (forall i :: 0 <= i < |handles| ==> Older(handles[i], |memory|))
    && (forall n :: n in loose ==> n < |memory|)
  }

  lemma {:induction false} RefsUpdate(memory: Memory, k: nat, cell: Option<Node>, n: nat)
    requires k < |memory|
    ensures Refs(memory[k := cell], n) == Refs(memory, n) - Fields(memory[k], n) + Fields(cell, n)
    ensures Refs(memory, n) >= Fields(memory[k], n)
  {
    var m := |memory| - 1;
    if k == m {
      assert memory[k := cell][..m] == memory[..m];
    } else {
      assert memory[k := cell][..m] == memory[..m][k := cell];
      RefsUpdate(memory[..m], k, cell, n);
    }
  }

  /** Nodes point only to older nodes, so a new node is pointed to by none. */
  lemma {:induction false} RefsBeyond(memory: Memory, n: nat)
    requires forall k :: 0 <= k < |memory| && memory[k].Some? ==> Older(memory[k].value.left, k) && Older(memory[k].value.right, k)
    requires n >= |memory|
    ensures Refs(memory, n) == 0
  {
    if memory != [] {
      RefsBeyond(memory[..|memory| - 1], n);
    }
  }

  lemma RefsSnoc(memory: Memory, cell: Option<Node>, n: nat)
    ensures Refs(memory + [cell], n) == Refs(memory, n) + Fields(cell, n)
  {
    assert (memory + [cell])[..|memory|] == memory;
  }

  lemma PointedIsLive(memory: Memory, handles: seq<Option<nat>>, loose: multiset<nat>, n: nat)
    requires Balanced(memory, handles, loose) && (n in loose || Some(n) in handles)
    ensures n < |memory| && memory[n].Some?
  {
    if Some(n) in handles {
      assert Some(n) in multiset(handles);
    }
    assert n < |memory| ==> NodeOk(memory, handles, loose, n);
  }

  // ----------------------------------------------------------- moving pointers about

  lemma HandleUpdate(handles: seq<Option<nat>>, i: nat, p: Option<nat>, n: nat)
    requires i < |handles|
    ensures multiset(handles[i := p])[Some(n)] == multiset(handles)[Some(n)] - Is(handles[i], n) + Is(p, n)
  {
  }

  /** A variable gives its pointer up to a temporary. */
  lemma TakeHandle(memory: Memory, handles: seq<Option<nat>>, loose: multiset<nat>, i: nat)
    requires Balanced(memory, handles, loose) && i < |handles|
    ensures Balanced(memory, handles[i := None], loose + One(handles[i]))
  {
    hide Refs;
    var after, now := handles[i := None], loose + One(handles[i]);
    forall n | 0 <= n < |memory| ensures NodeOk(memory, after, now, n) {
      HandleUpdate(handles, i, None, n);
      assert NodeOk(memory, handles, loose, n);
    }
  }

  /** An empty variable receives a temporary pointer. */
  lemma GiveHandle(memory: Memory, handles: seq<Option<nat>>, loose: multiset<nat>, i: nat, p: Option<nat>)
    requires Balanced(memory, handles, loose + One(p)) && i < |handles| && handles[i].None?
    ensures Balanced(memory, handles[i := p], loose)
  {
    hide Refs;
    if p.Some? { assert p.value in loose + One(p); }
    var after := handles[i := p];
    forall n | n in loose ensures n < |memory| {
      assert n in loose + One(p);
    }
    forall n | 0 <= n < |memory| ensures NodeOk(memory, after, loose, n) {
      HandleUpdate(handles, i, p, n);
      assert NodeOk(memory, handles, loose + One(p), n);
    }
  }

  lemma EmptyHandle(memory: Memory, handles: seq<Option<nat>>, loose: multiset<nat>)
    requires Balanced(memory, handles, loose)
    ensures Balanced(memory, handles + [None], loose)
  {
    hide Refs;
    forall n | 0 <= n < |memory| ensures NodeOk(memory, handles + [None], loose, n) {
      assert NodeOk(memory, handles, loose, n);
      assert multiset(handles + [None]) == multiset(handles) + multiset{None};
    }
  }

  /** Retain pays for one more temporary pointer to the same node. */
  lemma RetainOk(memory: Memory, handles: seq<Option<nat>>, loose: multiset<nat>, k: nat)
    requires Balanced(memory, handles, loose) && k < |memory| && memory[k].Some?
    ensures Balanced(memory[k := Some(memory[k].value.(count := memory[k].value.count + 1))], handles, loose + multiset{k})
  {
    hide Refs;
    var after := memory[k := Some(memory[k].value.(count := memory[k].value.count + 1))];
    forall n | 0 <= n < |after| ensures NodeOk(after, handles, loose + multiset{k}, n) {
      RefsUpdate(memory, k, after[k], n);
      assert NodeOk(memory, handles, loose, n);
    }
  }

  /** Release of a pointer that was not the last one. */
  lemma ReleaseOk(memory: Memory, handles: seq<Option<nat>>, loose: multiset<nat>, k: nat)
    requires Balanced(memory, handles, loose + multiset{k}) && k < |memory| && memory[k].Some? && memory[k].value.count > 1
    ensures Balanced(memory[k := Some(memory[k].value.(count := memory[k].value.count - 1))], handles, loose)
  {
    hide Refs;
    var after := memory[k := Some(memory[k].value.(count := memory[k].value.count - 1))];
    forall n | 0 <= n < |after| ensures NodeOk(after, handles, loose, n) {
      RefsUpdate(memory, k, after[k], n);
      assert NodeOk(memory, handles, loose + multiset{k}, n);
    }
    forall n | n in loose ensures n < |after| {
      assert n in loose + multiset{k};
    }
  }

  lemma OneCounts(p: Option<nat>, n: nat)
    ensures One(p)[n] == Is(p, n)
  {
  }

  /** Release of the last pointer: the node goes, and its two pointers become temporaries. */
  lemma DeleteOk(memory: Memory, handles: seq<Option<nat>>, loose: multiset<nat>, k: nat)
    requires Balanced(memory, handles, loose + multiset{k}) && k < |memory| && memory[k].Some? && memory[k].value.count == 1
    ensures Balanced(memory[k := None], handles, loose + One(memory[k].value.left) + One(memory[k].value.right))
    ensures Older(memory[k].value.left, k) && Older(memory[k].value.right, k)
  {
    hide Refs;
    var now := loose + One(memory[k].value.left) + One(memory[k].value.right);
    assert NodeOk(memory, handles, loose + multiset{k}, k);
    var after := memory[k := None];
    forall n | n in now ensures n < |memory| {
      assert n in loose ==> n in loose + multiset{k};
    }
    hide One;
    forall n | 0 <= n < |after| ensures NodeOk(after, handles, now, n) {
      RefsUpdate(memory, k, None, n);
      OneCounts(memory[k].value.left, n);
      OneCounts(memory[k].value.right, n);
      assert NodeOk(memory, handles, loose + multiset{k}, n);
    }
  }

  /** Building a node turns two temporaries into its fields and yields the one pointer to it. */
  lemma BuildOk(memory: Memory, handles: seq<Option<nat>>, left: Option<nat>, right: Option<nat>)
    requires Balanced(memory, handles, One(left) + One(right))
    ensures Balanced(memory + [Some(Node(left, right, 1))], handles, multiset{|memory|})
  {
    var k := |memory|;
    var after := memory + [Some(Node(left, right, 1))];
    NothingPointsBeyond(memory, handles, left, right);
    hide Refs, One;
    forall n | 0 <= n < |after| ensures NodeOk(after, handles, multiset{k}, n) {
      RefsSnoc(memory, after[k], n);
      if n < k { BuiltNode(memory, handles, left, right, n); }
    }
  }

  lemma NothingPointsBeyond(memory: Memory, handles: seq<Option<nat>>, left: Option<nat>, right: Option<nat>)
    requires Balanced(memory, handles, One(left) + One(right))
    ensures Older(left, |memory|) && Older(right, |memory|)
    ensures Refs(memory, |memory|) == 0 && multiset(handles)[Some(|memory|)] == 0
  {
    var loose := One(left) + One(right);
    assert left.Some? ==> left.value in loose;
    assert right.Some? ==> right.value in loose;
    forall n | 0 <= n < |memory| && memory[n].Some? ensures Older(memory[n].value.left, n) && Older(memory[n].value.right, n) {
      assert NodeOk(memory, handles, loose, n);
    }
    RefsBeyond(memory, |memory|);
    NoHandleBeyond(handles, |memory|);
  }

  lemma BuiltNode(memory: Memory, handles: seq<Option<nat>>, left: Option<nat>, right: Option<nat>, n: nat)
    requires Balanced(memory, handles, One(left) + One(right)) && n < |memory|
    ensures NodeOk(memory, handles, One(left) + One(right), n)
    ensures (One(left) + One(right))[n] == Is(left, n) + Is(right, n)
  {
  }

  lemma NoHandleBeyond(handles: seq<Option<nat>>, k: nat)
    requires forall i :: 0 <= i < |handles| ==> Older(handles[i], k)
    ensures multiset(handles)[Some(k)] == 0
  {
    assert Some(k) !in handles;
  }

  // ---------------------------------------------------------------- reachability

  predicate PointsTo(memory: Memory, p: nat, n: nat) {
    p < |memory| && memory[p].Some? && (memory[p].value.left == Some(n) || memory[p].value.right == Some(n))
  }

  /** Some variable leads to n along fields of nodes. */
  ghost predicate Reachable(memory: Memory, handles: seq<Option<nat>>, n: nat)
    decreases |memory| - n
  {
    n < |memory| && (Some(n) in handles || exists p :: n < p < |memory| && PointsTo(memory, p, n) && Reachable(memory, handles, p))
  }

  lemma {:induction false} SomeParent(memory: Memory, n: nat) returns (p: nat)
    requires Refs(memory, n) > 0
    ensures PointsTo(memory, p, n)
  {
    var m := |memory| - 1;
    if Fields(memory[m], n) > 0 {
      p := m;
    } else {
      p := SomeParent(memory[..m], n);
    }
  }

  /** The live nodes are exactly those reachable from a variable. */
  lemma {:induction false} LiveIffReachable(memory: Memory, handles: seq<Option<nat>>, n: nat)
    requires Balanced(memory, handles, multiset{}) && n < |memory|
    ensures memory[n].Some? <==> Reachable(memory, handles, n)
    decreases |memory| - n
  {
    hide Refs;
    assert NodeOk(memory, handles, multiset{}, n);
    if memory[n].Some? {
      if multiset(handles)[Some(n)] > 0 {
        assert Some(n) in multiset(handles);
      } else {
        var p := SomeParent(memory, n);
        assert NodeOk(memory, handles, multiset{}, p);
        LiveIffReachable(memory, handles, p);
      }
    } else {
      assert Some(n) !in multiset(handles);
      forall p | n < p < |memory| ensures !PointsTo(memory, p, n) {
        RefsUpdate(memory, p, None, n);
      }
    }
  }

  lemma {:induction false} MoreHandlesReach(memory: Memory, handles: seq<Option<nat>>, more: seq<Option<nat>>, n: nat)
    requires Reachable(memory, handles, n) && forall p :: p in handles ==> p in more
    ensures Reachable(memory, more, n)
    decreases |memory| - n
  {
    if Some(n) !in handles {
      var p :| n < p < |memory| && PointsTo(memory, p, n) && Reachable(memory, handles, p);
      MoreHandlesReach(memory, handles, more, p);
    }
  }

  /** What the remaining variables reach before some releases, they reach afterwards. */
  lemma {:induction false} ReachableStays(before: Memory, after: Memory, handles: seq<Option<nat>>, loose: multiset<nat>, n: nat)
    requires |before| == |after| && Survives(before, after) && Balanced(after, handles, loose) && Reachable(before, handles, n)
    ensures after[n].Some? && Reachable(after, handles, n)
    decreases |before| - n
  {
    if Some(n) in handles {
      PointedIsLive(after, handles, loose, n);
    } else {
      var p :| n < p < |before| && PointsTo(before, p, n) && Reachable(before, handles, p);
      ReachableStays(before, after, handles, loose, p);
      hide Balanced;
      assert PointsTo(after, p, n);
      FieldIsLive(after, handles, loose, n);
    }
  }

  /** A live node newer than the one temporary pointer is reached by variables alone. */
  lemma {:induction false} LiveIsReached(memory: Memory, handles: seq<Option<nat>>, k: nat, n: nat)
    requires Balanced(memory, handles, multiset{k}) && k < n < |memory| && memory[n].Some?
    ensures Reachable(memory, handles, n)
    decreases |memory| - n
  {
    hide Refs;
    assert NodeOk(memory, handles, multiset{k}, n);
    if multiset(handles)[Some(n)] > 0 {
      assert Some(n) in multiset(handles);
    } else {
      var p := SomeParent(memory, n);
      assert NodeOk(memory, handles, multiset{k}, p);
      LiveIsReached(memory, handles, k, p);
    }
  }

  /** A node held by a variable is reached without that variable exactly when its count is above one. */
  lemma SharedIffReached(memory: Memory, handles: seq<Option<nat>>, i: nat, n: nat)
    requires Balanced(memory, handles, multiset{}) && i < |handles| && handles[i] == Some(n)
    ensures n < |memory| && memory[n].Some?
    ensures memory[n].value.count > 1 <==> Reachable(memory, handles[i := None], n)
  {
    PointedIsLive(memory, handles, multiset{}, n);
    TakeHandle(memory, handles, multiset{}, i);
    assert multiset{} + One(handles[i]) == multiset{n};
    var others := handles[i := None];
    hide Refs, Balanced;
    NodeIsOk(memory, others, multiset{n}, n);
    if multiset(others)[Some(n)] > 0 {
      assert Some(n) in multiset(others);
    } else if Refs(memory, n) > 0 {
      var p := SomeParent(memory, n);
      NodeIsOk(memory, others, multiset{n}, p);
      LiveIsReached(memory, others, n, p);
    } else {
      assert Some(n) !in multiset(others);
      NoParent(memory, n);
    }
  }

  lemma NodeIsOk(memory: Memory, handles: seq<Option<nat>>, loose: multiset<nat>, n: nat)
    requires Balanced(memory, handles, loose) && n < |memory|
    ensures NodeOk(memory, handles, loose, n)
  {
  }

  lemma NoParent(memory: Memory, n: nat)
    requires Refs(memory, n) == 0
    ensures forall p :: 0 <= p < |memory| ==> !PointsTo(memory, p, n)
  {
    forall p | 0 <= p < |memory| ensures !PointsTo(memory, p, n) {
      RefsUpdate(memory, p, None, n);
    }
  }

  function Field(node: Node, right: bool): Option<nat> {
    if right then node.right else node.left
  }

  /** The same nodes are live, with the same fields. */
  ghost predicate SameGraph(before: Memory, after: Memory) {
    && |before| == |after|
    && forall n :: 0 <= n < |before| ==>
         before[n].Some? == after[n].Some?
         && (before[n].Some? ==> before[n].value.left == after[n].value.left && before[n].value.right == after[n].value.right)
  }

  /** Following left fields from n to the end. */
  function Leftmost(memory: Memory, n: nat): nat {
    if n < |memory| && memory[n].Some? && memory[n].value.left.Some? && memory[n].value.left.value < n
    then Leftmost(memory, memory[n].value.left.value) else n
  }

  // -------------------------------------------------------------------- the heap

  /** The nodes and the SharedPtr variables that are not fields of nodes. */
  class Heap {
    var memory: Memory
    var handles: seq<Option<nat>>
    var freed: seq<nat>

    /** freed lists exactly the dead nodes, each once, except those whose fields are still being released. */
    ghost predicate FreedOnce(dying: set<nat>)
      reads this
    {
      && (forall i, j :: 0 <= i < j < |freed| ==> freed[i] != freed[j])
      && (forall n: nat :: n in freed ==> n !in dying)
      && (forall n: nat :: n in freed || n in dying <==> n < |memory| && memory[n].None?)
    }

    ghost predicate Valid()
      reads this
    {
      Balanced(memory, handles, multiset{}) && FreedOnce({})
    }

    constructor ()
      ensures Valid() && memory == [] && handles == []
    {
      memory, handles, freed := [], [], [];
    }

    /** One pointer to p goes away; if it was the last, so do the node's two pointers and then the node. */
    method Release(p: nat, ghost loose: multiset<nat>, ghost dying: set<nat>)
      requires Balanced(memory, handles, loose + multiset{p}) && FreedOnce(dying)
      modifies `memory, `freed
      ensures Balanced(memory, handles, loose) && FreedOnce(dying) && Survives(old(memory), memory) && |memory| == |old(memory)|
      decreases p
    {
      hide Balanced;
      PointedIsLive(memory, handles, loose + multiset{p}, p);
      var node := memory[p].value;
      CountPositive(memory, handles, loose + multiset{p}, p);
      var count := node.count - 1;
      if count == 0 {
        DeleteOk(memory, handles, loose, p);
        memory := memory[p := None];
        if node.right.Some? {
          assert loose + One(node.left) + One(node.right) == loose + One(node.left) + multiset{node.right.value};
          Release(node.right.value, loose + One(node.left), dying + {p});
        } else {
          assert loose + One(node.left) + One(node.right) == loose + One(node.left);
        }
        if node.left.Some? {
          Release(node.left.value, loose, dying + {p});
        } else {
          assert loose + One(node.left) == loose;
        }
        assert memory[p].None?;
        freed := freed + [p];
      } else {
        ReleaseOk(memory, handles, loose, p);
        memory := memory[p := Some(node.(count := count))];
      }
    }

    /** The variable gives up its pointer, while loose temporaries stay accounted for. */
    method ReleaseCurrent(i: nat, ghost loose: multiset<nat>)
      requires Balanced(memory, handles, loose) && FreedOnce({}) && i < |handles|
      modifies this
      ensures Balanced(memory, handles, loose) && FreedOnce({})
      ensures handles == old(handles)[i := None] && Survives(old(memory), memory) && |memory| == |old(memory)|
    {
      hide Balanced;
      TakeHandle(memory, handles, loose, i);
      var p := handles[i];
      handles := handles[i := None];
      if p.Some? {
        assert loose + One(p) == loose + multiset{p.value};
        Release(p.value, loose, {});
      } else {
        assert loose + One(p) == loose;
      }
    }

    /** A default-constructed pointer variable. */
    method Declare() returns (i: nat)
      requires Valid()
      modifies this
      ensures Valid() && i == |old(handles)| && handles == old(handles) + [None] && memory == old(memory)
    {
      EmptyHandle(memory, handles, multiset{});
      i := |handles|;
      handles := handles + [None];
    }

    method Retain(p: Option<nat>)
      requires Balanced(memory, handles, multiset{}) && FreedOnce({}) && (p.Some? ==> p in handles || PointedTo(memory, p.value))
      modifies `memory
      ensures Balanced(memory, handles, One(p)) && FreedOnce({}) && Survives(old(memory), memory) && |memory| == old(|memory|)
    {
      hide Balanced;
      if p.Some? {
        if p in handles { PointedIsLive(memory, handles, multiset{}, p.value); } else { FieldIsLive(memory, handles, multiset{}, p.value); }
        RetainOk(memory, handles, multiset{}, p.value);
        assert multiset{} + multiset{p.value} == One(p);
        memory := memory[p.value := Some(memory[p.value].value.(count := memory[p.value].value.count + 1))];
      }
    }

    /** Copy assignment between variables. */
    method CopyAssign(to: nat, from: nat)
      requires Valid() && to < |handles| && from < |handles|
      modifies this
      ensures Valid() && handles == old(handles)[to := old(handles)[from]] && Survives(old(memory), memory) && |memory| == |old(memory)|
    {
      if to == from {
        return;
      }
      hide Balanced;
      ghost var p := handles[from];
      Retain(handles[from]);
      ReleaseCurrent(to, One(p));
      Store(to, handles[from]);
    }

    /** The last line of an assignment: the retained pointer goes into the emptied variable. */
    method Store(to: nat, p: Option<nat>)
      requires Balanced(memory, handles, One(p)) && FreedOnce({}) && to < |handles| && handles[to].None?
      modifies `handles
      ensures Valid() && handles == old(handles)[to := p]
    {
      hide Balanced;
      assert multiset{} + One(p) == One(p);
      GiveHandle(memory, handles, multiset{}, to, p);
      handles := handles[to := p];
    }

    /** The node is held by another pointer as well. */
    predicate Shared(n: nat)
      reads this
    {
      n < |memory| && memory[n].Some? && memory[n].value.count > 1
    }

    /** Copy assignment from a field of a node that the other variables reach.  The field is read
        again after the release, when the node is still there. */
    method CopyFieldOf(to: nat, n: nat, right: bool)
      requires Valid() && to < |handles| && Reachable(memory, handles[to := None], n)
      modifies this
      ensures Valid() && Survives(old(memory), memory) && |memory| == |old(memory)| && n < |memory| && memory[n].Some?
      ensures handles == old(handles)[to := Field(memory[n].value, right)]
    {
      hide Balanced;
      ghost var start, others := memory, handles[to := None];
      TakeHandle(memory, handles, multiset{}, to);
      ReachableStays(memory, memory, others, multiset{} + One(handles[to]), n);
      ghost var p := Field(memory[n].value, right);
      if p.Some? { assert PointsTo(memory, n, p.value); }
      Retain(Field(memory[n].value, right));
      ReleaseCurrent(to, One(p));
      ReachableStays(start, memory, others, One(p), n);
      Store(to, Field(memory[n].value, right));
    }

    /** Copy assignment from a field of the node a variable holds.  Target and holder may be the same
        variable, as in walking down a tree, when the node does not hang on that variable alone. */
    method CopyField(to: nat, from: nat, right: bool)
      requires Valid() && to < |handles| && from < |handles| && handles[from].Some?
      requires to == from ==> Shared(handles[from].value)
      modifies this
      ensures Valid() && Survives(old(memory), memory) && |memory| == |old(memory)|
      ensures old(handles)[from].value < |memory| && memory[old(handles)[from].value].Some?
      ensures handles == old(handles)[to := Field(memory[old(handles)[from].value].value, right)]
    {
      var n := handles[from].value;
      if to == from {
        SharedIffReached(memory, handles, from, n);
      } else {
        PointedIsLive(memory, handles, multiset{}, n);
        assert handles[to := None][from] == Some(n);
      }
      hide Balanced;
      CopyFieldOf(to, n, right);
    }

    /** FindMin: a fresh variable starts at the root and is overwritten with the left field of the node
        it holds.  It ends at the leftmost node, and the walk frees nothing. */
    method FindMin(root: nat) returns (current: nat)
      requires Valid() && root < |handles| && handles[root].Some?
      modifies this
      ensures Valid() && SameGraph(old(memory), memory)
      ensures current == |old(handles)| && handles == old(handles) + [Some(Leftmost(old(memory), old(handles)[root].value))]
    {
      ghost var start, held := memory, handles;
      ghost var n: nat := handles[root].value;
      current := Declare();
      CopyAssign(current, root);
      assert handles == held + [held[root]];
      WalkStart(start, held, memory, root);
      hide Balanced, SameGraph, Survives, Reachable, Leftmost;
      while true
        invariant Valid() && current == |held| && handles == held + [Some(n)]
        invariant SameGraph(start, memory) && n < |memory| && memory[n].Some? && Reachable(memory, held + [None], n)
        invariant Leftmost(start, n) == Leftmost(start, held[root].value)
        decreases n
      {
        SharedIffReached(memory, handles, current, n);
        assert handles[current := None] == held + [None];
        CountPositive(memory, handles, multiset{}, n);
        SameField(start, memory, n);
        if memory[handles[current].value].value.left.None? {
          LeftmostEnd(start, n);
          return;
        }
        ghost var before, next := memory, memory[n].value.left.value;
        CopyField(current, current, false);
        KeptField(before, memory, n);
        assert handles == held + [Some(next)];
        WalkStep(start, before, memory, held, n, next);
        LeftmostStep(start, n, next);
        n := next;
      }
    }

    /** Move assignment: no count changes except by releasing the old pointer. */
    method MoveAssign(to: nat, from: nat)
      requires Valid() && to < |handles| && from < |handles|
      modifies this
      ensures Valid() && Survives(old(memory), memory)
      ensures handles == if to == from then old(handles) else old(handles)[to := old(handles)[from]][from := None]
    {
      if to == from {
        return;
      }
      hide Balanced;
      ReleaseCurrent(to, multiset{});
      var p := handles[from];
      TakeHandle(memory, handles, multiset{}, from);
      GiveHandle(memory, handles[from := None], multiset{}, to, p);
      handles := handles[from := None][to := p];
    }

    /** Builds a node from two variables that are moved into it; the variable at left gets the result. */
    method MakeNode(left: nat, right: nat)
      requires Valid() && left < |handles| && right < |handles| && left != right
      modifies this
      ensures Valid() && Survives(old(memory), memory)
      ensures memory == old(memory) + [Some(Node(old(handles)[left], old(handles)[right], 1))]
      ensures handles == old(handles)[right := None][left := Some(|old(memory)|)]
    {
      hide Balanced;
      var l, r := handles[left], handles[right];
      TakeHandle(memory, handles, multiset{}, left);
      TakeHandle(memory, handles[left := None], multiset{} + One(l), right);
      assert multiset{} + One(l) + One(r) == One(l) + One(r);
      handles := handles[left := None][right := None];
      BuildOk(memory, handles, l, r);
      var k := |memory|;
      memory := memory + [Some(Node(l, r, 1))];
      assert multiset{} + One(Some(k)) == multiset{k};
      GiveHandle(memory, handles, multiset{}, left, Some(k));
      handles := handles[left := Some(k)];
    }

    /** What every operation above leaves: counts are pointer counts, the live nodes are exactly the
        reachable ones, and every other node ever built has been freed exactly once. */
    lemma LiveExactly(n: nat)
      requires Valid() && n < |memory|
      ensures memory[n].Some? <==> Reachable(memory, handles, n)
      ensures memory[n].Some? ==> memory[n].value.count == Pointers(memory, handles, multiset{}, n)
      ensures multiset(freed)[n] == if Reachable(memory, handles, n) then 0 else 1
    {
      LiveIffReachable(memory, handles, n);
      assert NodeOk(memory, handles, multiset{}, n);
      OnceInFreed(freed, n);
    }
  }

  lemma {:induction false} OnceInFreed(freed: seq<nat>, n: nat)
    requires forall i, j :: 0 <= i < j < |freed| ==> freed[i] != freed[j]
    ensures multiset(freed)[n] == if n in freed then 1 else 0
  {
    if freed != [] {
      assert freed == [freed[0]] + freed[1..];
      OnceInFreed(freed[1..], n);
    }
  }

  /** Nodes that are still live keep their fields; dead nodes stay dead. */
  ghost predicate Survives(before: Memory, after: Memory) {
    && |before| <= |after|
    && forall n :: 0 <= n < |before| && after[n].Some? ==>
         before[n].Some? && after[n].value.left == before[n].value.left && after[n].value.right == before[n].value.right
  }

  ghost predicate PointedTo(memory: Memory, n: nat) {
    exists p :: 0 <= p < |memory| && PointsTo(memory, p, n)
  }

  lemma FieldIsLive(memory: Memory, handles: seq<Option<nat>>, loose: multiset<nat>, n: nat)
    requires Balanced(memory, handles, loose) && PointedTo(memory, n)
    ensures n < |memory| && memory[n].Some?
  {
    hide Refs;
    var p :| 0 <= p < |memory| && PointsTo(memory, p, n);
    assert NodeOk(memory, handles, loose, p);
    RefsUpdate(memory, p, None, n);
    assert NodeOk(memory, handles, loose, n);
  }

  /** With the walking variable apart, everything that was live stays live. */
  lemma WalkKeeps(start: Memory, held: seq<Option<nat>>, memory: Memory, n: nat)
    requires Balanced(start, held, multiset{}) && Survives(start, memory) && |start| == |memory|
    requires Balanced(memory, held + [None], multiset{n})
    ensures SameGraph(start, memory)
  {
    forall m | 0 <= m < |start| && start[m].Some? ensures memory[m].Some? {
      LiveIffReachable(start, held, m);
      MoreHandlesReach(start, held, held + [None], m);
      ReachableStays(start, memory, held + [None], multiset{n}, m);
    }
  }

  lemma WalkStart(start: Memory, held: seq<Option<nat>>, memory: Memory, root: nat)
    requires Balanced(start, held, multiset{}) && Survives(start, memory) && |start| == |memory| && root < |held| && held[root].Some?
    requires Balanced(memory, held + [held[root]], multiset{})
    ensures SameGraph(start, memory)
    ensures held[root].value < |memory| && memory[held[root].value].Some? && Reachable(memory, held + [None], held[root].value)
  {
    var n := held[root].value;
    var handles := held + [held[root]];
    TakeHandle(memory, handles, multiset{}, |held|);
    assert handles[|held| := None] == held + [None] && multiset{} + One(Some(n)) == multiset{n};
    WalkKeeps(start, held, memory, n);
    assert handles[root] == Some(n) && (held + [None])[root] == Some(n);
    PointedIsLive(memory, handles, multiset{}, n);
  }

  lemma WalkStep(start: Memory, before: Memory, memory: Memory, held: seq<Option<nat>>, n: nat, next: nat)
    requires Balanced(start, held, multiset{}) && SameGraph(start, before) && Survives(before, memory) && |before| == |memory|
    requires Balanced(memory, held + [Some(next)], multiset{})
    requires Reachable(before, held + [None], n) && n < |memory| && memory[n].Some? && memory[n].value.left == Some(next) && next < n
    ensures SameGraph(start, memory) && next < |memory| && memory[next].Some? && Reachable(memory, held + [None], next)
  {
    var handles := held + [Some(next)];
    TakeHandle(memory, handles, multiset{}, |held|);
    assert handles[|held| := None] == held + [None] && multiset{} + One(Some(next)) == multiset{next};
    WalkKeeps(start, held, memory, next);
    ReachableStays(before, memory, held + [None], multiset{next}, n);
    assert PointsTo(memory, n, next);
    assert handles[|held|] == Some(next);
    PointedIsLive(memory, handles, multiset{}, next);
  }

  lemma LeftmostStep(memory: Memory, n: nat, next: nat)
    requires n < |memory| && memory[n].Some? && memory[n].value.left == Some(next) && next < n
    ensures Leftmost(memory, n) == Leftmost(memory, next)
  {
  }

  lemma LeftmostEnd(memory: Memory, n: nat)
    requires n < |memory| && memory[n].Some? && memory[n].value.left.None?
    ensures Leftmost(memory, n) == n
  {
  }

  lemma KeptField(before: Memory, after: Memory, n: nat)
    requires Survives(before, after) && n < |before| && n < |after| && after[n].Some?
    ensures before[n].Some? && after[n].value.left == before[n].value.left
  {
  }

  lemma SameField(start: Memory, memory: Memory, n: nat)
    requires SameGraph(start, memory) && n < |memory| && memory[n].Some?
    ensures n < |start| && start[n].Some? && start[n].value.left == memory[n].value.left
  {
  }

  lemma CountPositive(memory: Memory, handles: seq<Option<nat>>, loose: multiset<nat>, n: nat)
    requires Balanced(memory, handles, loose) && n < |memory| && memory[n].Some?
    ensures memory[n].value.count >= 1 && Older(memory[n].value.left, n) && Older(memory[n].value.right, n)
  {
    assert NodeOk(memory, handles, loose, n);
  }
}
