/** KdTree: building by in-place selection, insertion, and the three pruned searches, each against
    brute force over the multiset of points.  Coordinates are exact integers. */
module KdTree {
  import opened Prelude

  type Point = seq<int>

  datatype Tree = Leaf | Node(point: Point, axis: nat, left: Tree, right: Tree)

  datatype TreeError = TreeIsEmpty

  /** All points of a tree, with repetitions. */
  function Points(t: Tree): multiset<Point> {
    if t.Leaf? then multiset{} else Points(t.left) + multiset{t.point} + Points(t.right)
  }

  ghost predicate OnSide(ps: multiset<Point>, axis: nat, split: int, left: bool, dims: nat) {
    forall p :: p in ps ==> |p| == dims && axis < dims && if left then p[axis] <= split else p[axis] >= split
  }

  /** Coordinates equal to the split may stand on either side. */
  ghost predicate Ordered(t: Tree, dims: nat) {
    t.Node? ==>
      && |t.point| == dims && t.axis < dims
      && OnSide(Points(t.left), t.axis, t.point[t.axis], true, dims)
      && OnSide(Points(t.right), t.axis, t.point[t.axis], false, dims)
      && Ordered(t.left, dims) && Ordered(t.right, dims)
  }

  // -------------------------------------------------------------------- distances

  function Square(x: int): (r: int)
    ensures r >= 0
  {
    x * x
  }

  /** The squared distance over the first n coordinates. */
  function PartialDistance(a: Point, b: Point, n: nat): (r: int)
    requires n <= |a| && n <= |b|
    ensures r >= 0
  {
    if n == 0 then 0 else PartialDistance(a, b, n - 1) + Square(a[n - 1] - b[n - 1])
  }

  function Distance(a: Point, b: Point): (r: int)
    requires |a| == |b|
    ensures r >= 0
  {
    PartialDistance(a, b, |a|)
  }

  method SquaredDistance(a: Point, b: Point) returns (dist: int)
    requires |a| == |b|
    ensures dist == Distance(a, b)
  {
    dist := 0;
    for i := 0 to |a|
      invariant dist == PartialDistance(a, b, i)
    {
      var diff := a[i] - b[i];
      dist := dist + Square(diff);
    }
  }

  /** The squared Euclidean distance, coordinate by coordinate. */
  lemma DistanceCons(x: int, u: int, a: Point, b: Point)
    requires |a| == |b|
    ensures Distance([x] + a, [u] + b) == (x - u) * (x - u) + Distance(a, b)
    ensures Distance([], []) == 0
  {
    PartialCons(x, u, a, b, |a|);
  }

  lemma {:induction false} PartialCons(x: int, u: int, a: Point, b: Point, n: nat)
    requires n <= |a| == |b|
    ensures PartialDistance([x] + a, [u] + b, n + 1) == (x - u) * (x - u) + PartialDistance(a, b, n)
  {
    if n > 0 {
      PartialCons(x, u, a, b, n - 1);
    } else {
      assert PartialDistance([x] + a, [u] + b, 0) == 0;
    }
  }

  lemma {:induction false} AxisBelowPartial(a: Point, b: Point, axis: nat, n: nat)
    requires axis < n <= |a| && n <= |b|
    ensures Square(a[axis] - b[axis]) <= PartialDistance(a, b, n)
  {
    if axis < n - 1 {
      AxisBelowPartial(a, b, axis, n - 1);
    }
  }

  /** A square grows with the distance from zero. */
  lemma {:induction false} SquareGrows(x: nat, y: nat)
    requires x <= y
    ensures x * x <= y * y
    decreases y - x
  {
    if x < y {
      assert (x + 1) * (x + 1) == x * x + 2 * x + 1;
      SquareGrows(x + 1, y);
    }
  }

  lemma SquareMonotone(x: int, y: int)
    requires 0 <= x <= y || y <= x <= 0
    ensures Square(x) <= Square(y)
  {
    if 0 <= x <= y {
      SquareGrows(x, y);
    } else {
      SquareGrows(-1 * x, -1 * y);
      NegatedSquare(x);
      NegatedSquare(y);
    }
  }

  lemma NegatedSquare(x: int)
    ensures (-1 * x) * (-1 * x) == x * x
  {
  }

  /** Points beyond the splitting plane are at least as far as the plane. */
  lemma BeyondPlane(query: Point, t: Tree, dims: nat, p: Point, far: bool)
    requires t.Node? && Ordered(t, dims) && |query| == dims
    requires var diff := query[t.axis] - t.point[t.axis];
             if far then diff < 0 && p in Points(t.right) else diff >= 0 && p in Points(t.left)
    ensures |p| == dims && Distance(query, p) >= Square(query[t.axis] - t.point[t.axis])
  {
    AxisBelowPartial(query, p, t.axis, dims);
    SquareMonotone(query[t.axis] - t.point[t.axis], query[t.axis] - p[t.axis]);
  }

  lemma {:induction false} PointsHaveDims(t: Tree, dims: nat)
    requires Ordered(t, dims)
    ensures forall p :: p in Points(t) ==> |p| == dims
  {
    if t.Node? {
      PointsHaveDims(t.left, dims);
      PointsHaveDims(t.right, dims);
    }
  }

  // --------------------------------------------------------------- nearest neighbour

  /** No point of ps is nearer than dist. */
  ghost predicate NoneNearer(query: Point, ps: multiset<Point>, dist: int) {
    forall p :: p in ps ==> |p| == |query| && dist <= Distance(query, p)
  }

  /** From the best so far (point0 at dist0), the points ps lead to point at dist. */
  ghost predicate Improved(query: Point, ps: multiset<Point>, point0: Point, dist0: int, point: Point, dist: int) {
    && dist <= dist0 && NoneNearer(query, ps, dist)
    && ((point == point0 && dist == dist0) || (point in ps && |point| == |query| && dist == Distance(query, point) < dist0))
  }

  method NearestNeighborRecursive(node: Tree, query: Point, bestPoint: Point, bestDist: int) returns (point: Point, dist: int)
    requires Ordered(node, |query|)
    ensures Improved(query, Points(node), bestPoint, bestDist, point, dist)
    decreases node
  {
    hide Distance, Square, Points, OnSide, Ordered, Improved;
    point, dist := bestPoint, bestDist;
    if node.Leaf? {
      LeafImproves(node, query, point, dist);
      return;
    }
    NodeParts(node, |query|);
    var currentDist := SquaredDistance(query, node.point);
    if currentDist < dist {
      dist := currentDist;
      point := node.point;
    }
    var diff := query[node.axis] - node.point[node.axis];
    var first := if diff < 0 then node.left else node.right;
    var second := if diff < 0 then node.right else node.left;
    ghost var point1, dist1 := point, dist;
    LeafImproves(first, query, point, dist);
    if first.Node? {
      point, dist := NearestNeighborRecursive(first, query, point, dist);
    }
    ghost var point2, dist2 := point, dist;
    LeafImproves(second, query, point, dist);
    if second.Node? {
      if Square(diff) < dist {
        point, dist := NearestNeighborRecursive(second, query, point, dist);
      } else {
        FarImproves(node, query, point, dist);
      }
    }
    NodeImproves(node, query, first, second, bestPoint, bestDist, point1, dist1, point2, dist2, point, dist);
  }

  lemma NodeParts(t: Tree, dims: nat)
    requires t.Node? && Ordered(t, dims)
    ensures |t.point| == dims && t.axis < dims && Ordered(t.left, dims) && Ordered(t.right, dims)
  {
  }

  lemma LeafImproves(t: Tree, query: Point, point: Point, dist: int)
    ensures t.Leaf? ==> Improved(query, Points(t), point, dist, point, dist)
  {
  }

  /** Nothing beyond a splitting plane that is at least as far as the best can improve on it. */
  lemma FarImproves(t: Tree, query: Point, point: Point, dist: int)
    requires t.Node? && Ordered(t, |query|) && |t.point| == |query| && t.axis < |query|
    requires dist <= Square(query[t.axis] - t.point[t.axis])
    ensures Improved(query, Points(if query[t.axis] - t.point[t.axis] < 0 then t.right else t.left), point, dist, point, dist)
  {
    hide Distance, Square, Ordered, OnSide, Points;
    var far := query[t.axis] - t.point[t.axis] < 0;
    var second := if far then t.right else t.left;
    forall p | p in Points(second) ensures |p| == |query| && dist <= Distance(query, p) {
      BeyondPlane(query, t, |query|, p, far);
    }
  }

  lemma NodeImproves(t: Tree, query: Point, first: Tree, second: Tree,
                     point0: Point, dist0: int, point1: Point, dist1: int, point2: Point, dist2: int, point: Point, dist: int)
    requires t.Node? && |t.point| == |query| && ((first, second) == (t.left, t.right) || (first, second) == (t.right, t.left))
    requires (point1, dist1) == if Distance(query, t.point) < dist0 then (t.point, Distance(query, t.point)) else (point0, dist0)
    requires Improved(query, Points(first), point1, dist1, point2, dist2)
    requires Improved(query, Points(second), point2, dist2, point, dist)
    ensures Improved(query, Points(t), point0, dist0, point, dist)
  {
    hide Distance, Points;
    NodeMembers(t, first, second);
    assert dist <= dist1 && dist1 <= dist0;
    assert NoneNearer(query, Points(first), dist2) && NoneNearer(query, Points(second), dist);
    forall p | p in Points(t) ensures |p| == |query| && dist <= Distance(query, p) {
      assert p == t.point || p in Points(first) || p in Points(second);
    }
  }

  lemma NodeMembers(t: Tree, first: Tree, second: Tree)
    requires t.Node? && ((first, second) == (t.left, t.right) || (first, second) == (t.right, t.left))
    ensures forall p :: p in Points(t) <==> p == t.point || p in Points(first) || p in Points(second)
  {
  }

  // ---------------------------------------------------------------------- range query

  predicate Inside(p: Point, low: Point, high: Point) {
    |p| == |low| == |high| && forall i :: 0 <= i < |p| ==> low[i] <= p[i] <= high[i]
  }

  method InsideBox(p: Point, low: Point, high: Point) returns (inside: bool)
    requires |p| == |low| == |high|
    ensures inside == Inside(p, low, high)
  {
    for i := 0 to |p|
      invariant forall j :: 0 <= j < i ==> low[j] <= p[j] <= high[j]
    {
      if p[i] < low[i] || p[i] > high[i] {
        return false;
      }
    }
    return true;
  }

  /** All faces belong to the box, and nothing beyond one of them does. */
  lemma FacesAreInside(p: Point, low: Point, high: Point, i: nat)
    requires |p| == |low| == |high| && i < |p|
    requires forall j :: 0 <= j < |p| && j != i ==> low[j] <= p[j] <= high[j]
    ensures p[i] == low[i] <= high[i] || low[i] <= high[i] == p[i] ==> Inside(p, low, high)
    ensures p[i] < low[i] || p[i] > high[i] ==> !Inside(p, low, high)
    ensures low[i] < p[i] < high[i] ==> Inside(p, low, high)
  {
  }

  /** found is exactly the points of ps inside the box, each as often as it occurs. */
  ghost predicate ExactlyInside(found: multiset<Point>, ps: multiset<Point>, low: Point, high: Point) {
    forall p :: found[p] == if Inside(p, low, high) then ps[p] else 0
  }

  /** The points of a tree inside the box, by testing every one. */
  function Filter(t: Tree, low: Point, high: Point): multiset<Point> {
    if t.Leaf? then multiset{}
    else Filter(t.left, low, high) + (if Inside(t.point, low, high) then multiset{t.point} else multiset{}) + Filter(t.right, low, high)
  }

  lemma {:induction false} FilterIsExact(t: Tree, low: Point, high: Point)
    ensures ExactlyInside(Filter(t, low, high), Points(t), low, high)
  {
    if t.Node? {
      FilterIsExact(t.left, low, high);
      FilterIsExact(t.right, low, high);
    }
  }

  /** A subtree beyond the box on the splitting axis holds no point of the box. */
  lemma NothingBeyond(t: Tree, low: Point, high: Point, axis: nat, split: int, left: bool)
    requires |low| == |high| && axis < |low| && OnSide(Points(t), axis, split, left, |low|)
    requires if left then split < low[axis] else high[axis] < split
    ensures Filter(t, low, high) == multiset{}
  {
    FilterIsExact(t, low, high);
    forall p ensures Filter(t, low, high)[p] == 0 {
      assert p in Points(t) ==> !Inside(p, low, high);
    }
  }

  method RangeQueryRecursive(node: Tree, low: Point, high: Point, result: seq<Point>) returns (found: seq<Point>)
    requires |low| == |high| && Ordered(node, |low|)
    ensures multiset(found) == multiset(result) + Filter(node, low, high)
    decreases node
  {
    found := result;
    if node.Leaf? {
      return;
    }
    hide Inside, Points, OnSide, Filter;
    ghost var m := multiset(result);
    var inside := InsideBox(node.point, low, high);
    ghost var own := if inside then multiset{node.point} else multiset{};
    if inside {
      found := found + [node.point];
    }
    assert multiset(found) == m + own;
    var split := node.point[node.axis];
    if low[node.axis] <= split {
      found := RangeQueryRecursive(node.left, low, high, found);
    } else {
      NothingBeyond(node.left, low, high, node.axis, split, true);
    }
    assert multiset(found) == m + own + Filter(node.left, low, high);
    if high[node.axis] >= split {
      found := RangeQueryRecursive(node.right, low, high, found);
    } else {
      NothingBeyond(node.right, low, high, node.axis, split, false);
    }
    FilterNode(node, low, high, own);
    Regroup(m, own, Filter(node.left, low, high), Filter(node.right, low, high));
  }

  lemma FilterNode(t: Tree, low: Point, high: Point, own: multiset<Point>)
    requires t.Node? && own == if Inside(t.point, low, high) then multiset{t.point} else multiset{}
    ensures Filter(t, low, high) == Filter(t.left, low, high) + own + Filter(t.right, low, high)
  {
  }

  lemma Regroup<T>(m: multiset<T>, own: multiset<T>, a: multiset<T>, b: multiset<T>)
    ensures m + own + a + b == m + (a + own + b) && m + own + b + a == m + (a + own + b)
  {
  }

  // ------------------------------------------------------------- k nearest neighbours

  datatype DistPoint = DistPoint(dist: int, point: Point)

  /** The priority queue of the standard library, by its contract: the top is an entry of greatest distance. */
  class DistPointQueue {
    var items: seq<DistPoint>

    constructor ()
      ensures items == []
    {
      items := [];
    }

    predicate IsTop(i: nat)
      reads this
    {
      i < |items| && forall j :: 0 <= j < |items| ==> items[j].dist <= items[i].dist
    }

    method Push(x: DistPoint)
      modifies this
      ensures multiset(items) == old(multiset(items)) + multiset{x} && |items| == old(|items|) + 1
    {
      items := items + [x];
    }

    method TopIndex() returns (top: nat)
      requires items != []
      ensures IsTop(top)
    {
      top := 0;
      for i := 1 to |items|
        invariant top < i && forall j :: 0 <= j < i ==> items[j].dist <= items[top].dist
      {
        if items[i].dist > items[top].dist {
          top := i;
        }
      }
    }

    method Top() returns (x: DistPoint)
      requires items != []
      ensures x in multiset(items) && forall y :: y in multiset(items) ==> y.dist <= x.dist
    {
      var top := TopIndex();
      x := items[top];
    }

    method Pop() returns (x: DistPoint)
      requires items != []
      modifies this
      ensures x in old(multiset(items)) && forall y :: y in old(multiset(items)) ==> y.dist <= x.dist
      ensures multiset(items) == old(multiset(items)) - multiset{x} && |items| == old(|items|) - 1
    {
      var top := TopIndex();
      x := items[top];
      assert items == items[..top] + [x] + items[top + 1..];
      items := items[..top] + items[top + 1..];
    }
  }

  /** The points of a tree with their distances from the query. */
  function Tagged(t: Tree, query: Point): multiset<DistPoint>
    requires Ordered(t, |query|)
  {
    if t.Leaf? then multiset{}
    else Tagged(t.left, query) + multiset{DistPoint(Distance(query, t.point), t.point)} + Tagged(t.right, query)
  }

  lemma {:induction false} TaggedPoints(t: Tree, query: Point)
    requires Ordered(t, |query|)
    ensures forall x :: x in Tagged(t, query) ==> x.point in Points(t) && |x.point| == |query| && x.dist == Distance(query, x.point)
    ensures |Tagged(t, query)| == |Points(t)|
  {
    hide Distance, OnSide;
    if t.Node? {
      TaggedPoints(t.left, query);
      TaggedPoints(t.right, query);
    }
  }

  /** chosen is k of all, or all of them if there are fewer, and none of the rest is nearer. */
  ghost predicate KNearest(chosen: multiset<DistPoint>, all: multiset<DistPoint>, k: nat) {
    && chosen <= all && |chosen| == Min(k, |all|)
    && forall x, y :: x in chosen && y in all - chosen ==> x.dist <= y.dist
  }

  lemma RestSize(chosen: multiset<DistPoint>, all: multiset<DistPoint>)
    requires chosen <= all
    ensures |all - chosen| == |all| - |chosen|
  {
    assert all == chosen + (all - chosen);
  }

  lemma AddNearest(chosen: multiset<DistPoint>, all: multiset<DistPoint>, k: nat, x: DistPoint)
    requires KNearest(chosen, all, k) && |chosen| < k
    ensures KNearest(chosen + multiset{x}, all + multiset{x}, k)
  {
    RestSize(chosen, all);
    assert all - chosen == multiset{};
    assert chosen == all;
    assert (all + multiset{x}) - (chosen + multiset{x}) == multiset{};
  }

  lemma ReplaceFarthest(chosen: multiset<DistPoint>, all: multiset<DistPoint>, k: nat, top: DistPoint, x: DistPoint)
    requires KNearest(chosen, all, k) && |chosen| == k && top in chosen && (forall y :: y in chosen ==> y.dist <= top.dist)
    requires x.dist < top.dist
    ensures KNearest(chosen - multiset{top} + multiset{x}, all + multiset{x}, k)
  {
    var after, now := chosen - multiset{top} + multiset{x}, all + multiset{x};
    assert now - after == (all - chosen) + multiset{top};
    assert |chosen - multiset{top}| == |chosen| - 1;
  }

  /** Points not nearer than any chosen one change nothing once k are chosen. */
  lemma KeepNearest(chosen: multiset<DistPoint>, all: multiset<DistPoint>, k: nat, more: multiset<DistPoint>)
    requires KNearest(chosen, all, k) && |chosen| == k
    requires forall x, y :: x in chosen && y in more ==> x.dist <= y.dist
    ensures KNearest(chosen, all + more, k)
  {
    assert (all + more) - chosen == (all - chosen) + more;
  }

  method KNearestNeighborsRecursive(node: Tree, query: Point, k: nat, pq: DistPointQueue, ghost seen: multiset<DistPoint>)
    requires k > 0 && Ordered(node, |query|) && KNearest(multiset(pq.items), seen, k)
    modifies pq
    ensures KNearest(multiset(pq.items), seen + Tagged(node, query), k)
    decreases node
  {
    hide KNearest, Distance, Points, OnSide, Square, Tagged, Ordered;
    TaggedLeaf(node, query, seen);
    if node.Leaf? {
      return;
    }
    NodeParts(node, |query|);
    var dist := SquaredDistance(query, node.point);
    ghost var x := DistPoint(dist, node.point);
    Offer(pq, k, dist, node.point, seen);
    var diff := query[node.axis] - node.point[node.axis];
    var first := if diff < 0 then node.left else node.right;
    var second := if diff < 0 then node.right else node.left;
    TaggedParts(node, query, seen, x, first, second);
    ghost var offered := seen + multiset{x};
    ghost var visited := offered + Tagged(first, query);
    TaggedLeaf(first, query, offered);
    TaggedLeaf(second, query, visited);
    if first.Node? {
      KNearestNeighborsRecursive(first, query, k, pq, offered);
    }
    assert KNearest(multiset(pq.items), visited, k);
    if second.Node? {
      var search := |pq.items| < k;
      if !search {
        FullQueue(multiset(pq.items), visited, k);
        var top := pq.Top();
        search := Square(diff) < top.dist;
        if !search {
          SecondTooFar(node, query, multiset(pq.items), visited, k, top.dist);
        }
      }
      if search {
        KNearestNeighborsRecursive(second, query, k, pq, visited);
      }
    }
    assert KNearest(multiset(pq.items), visited + Tagged(second, query), k);
  }

  lemma TaggedLeaf(t: Tree, query: Point, seen: multiset<DistPoint>)
    requires Ordered(t, |query|)
    ensures t.Leaf? ==> seen + Tagged(t, query) == seen
  {
  }

  lemma FullQueue(chosen: multiset<DistPoint>, all: multiset<DistPoint>, k: nat)
    requires KNearest(chosen, all, k)
    ensures |chosen| <= k
  {
  }

  lemma TaggedParts(t: Tree, query: Point, seen: multiset<DistPoint>, x: DistPoint, first: Tree, second: Tree)
    requires t.Node? && Ordered(t, |query|) && x == DistPoint(Distance(query, t.point), t.point)
    requires (first, second) == (t.left, t.right) || (first, second) == (t.right, t.left)
    ensures Ordered(first, |query|) && Ordered(second, |query|)
    ensures seen + Tagged(t, query) == seen + multiset{x} + Tagged(first, query) + Tagged(second, query)
  {
    hide Distance, Points, OnSide;
    Regroup(seen, multiset{x}, Tagged(t.left, query), Tagged(t.right, query));
  }

  /** The new point enters the queue if there is room or if it beats the top. */
  method Offer(pq: DistPointQueue, k: nat, dist: int, point: Point, ghost seen: multiset<DistPoint>)
    requires k > 0 && KNearest(multiset(pq.items), seen, k)
    modifies pq
    ensures KNearest(multiset(pq.items), seen + multiset{DistPoint(dist, point)}, k)
  {
    ghost var x, chosen := DistPoint(dist, point), multiset(pq.items);
    if |pq.items| < k {
      AddNearest(chosen, seen, k, x);
      pq.Push(DistPoint(dist, point));
    } else {
      var top := pq.Top();
      if dist < top.dist {
        var popped := pq.Pop();
        ReplaceFarthest(chosen, seen, k, popped, x);
        pq.Push(DistPoint(dist, point));
      } else {
        KeepNearest(chosen, seen, k, multiset{x});
      }
    }
  }

  lemma SecondTooFar(node: Tree, query: Point, chosen: multiset<DistPoint>, visited: multiset<DistPoint>, k: nat, top: int)
    requires node.Node? && Ordered(node, |query|) && KNearest(chosen, visited, k) && |chosen| == k
    requires (forall y :: y in chosen ==> y.dist <= top) && Square(query[node.axis] - node.point[node.axis]) >= top
    ensures var second := if query[node.axis] - node.point[node.axis] < 0 then node.right else node.left;
            KNearest(chosen, visited + Tagged(second, query), k)
  {
    var diff := query[node.axis] - node.point[node.axis];
    var second := if diff < 0 then node.right else node.left;
    TaggedPoints(second, query);
    forall y | y in Tagged(second, query) ensures top <= y.dist {
      BeyondPlane(query, node, |query|, y.point, diff < 0);
    }
    KeepNearest(chosen, visited, k, Tagged(second, query));
  }

  // ------------------------------------------------------------------ building

  predicate AllDims(ps: seq<Point>, dims: nat) {
    forall i :: 0 <= i < |ps| ==> |ps[i]| == dims
  }

  /** after is s with the stretch start..end rearranged. */
  ghost predicate Permutes(s: seq<Point>, after: seq<Point>, start: nat, end: nat) {
    && start <= end <= |s| == |after| && after[..start] == s[..start] && after[end..] == s[end..]
    && multiset(after[start..end]) == multiset(s[start..end])
  }

  lemma SwapKeepsAll(s: seq<Point>, i: nat, j: nat)
    requires i < |s| && j < |s|
    ensures multiset(s[i := s[j]][j := s[i]]) == multiset(s)
  {
  }

  /** nth_element, by its contract: a permutation of start..end with nothing greater before mid on
      the axis and nothing smaller after it. */
  method NthElement(points: array<Point>, start: nat, mid: nat, end: nat, axis: nat, dims: nat)
    requires start <= mid < end <= points.Length && axis < dims && AllDims(points[..], dims)
    modifies points
    ensures AllDims(points[..], dims) && Permutes(old(points[..]), points[..], start, end)
    ensures forall i :: start <= i < mid ==> points[i][axis] <= points[mid][axis]
    ensures forall i :: mid < i < end ==> points[mid][axis] <= points[i][axis]
  {
    var i := start;
    while i <= mid
      invariant start <= i <= mid + 1 && AllDims(points[..], dims)
      invariant Permutes(old(points[..]), points[..], start, end)
      invariant forall a, b :: start <= a < i && a <= b < end ==> points[a][axis] <= points[b][axis]
    {
      var least := LeastIndex(points, i, end, axis, dims);
      Exchange(points, start, i, least, end, dims);
      i := i + 1;
    }
  }

  method LeastIndex(points: array<Point>, start: nat, end: nat, axis: nat, dims: nat) returns (least: nat)
    requires start < end <= points.Length && axis < dims && AllDims(points[..], dims)
    ensures start <= least < end
    ensures forall b :: start <= b < end ==> points[least][axis] <= points[b][axis]
  {
    least := start;
    for j := start + 1 to end
      invariant start <= least < j
      invariant forall b :: start <= b < j ==> points[least][axis] <= points[b][axis]
    {
      if points[j][axis] < points[least][axis] {
        least := j;
      }
    }
  }

  method Exchange(points: array<Point>, start: nat, i: nat, j: nat, end: nat, dims: nat)
    requires start <= i <= j < end <= points.Length && AllDims(points[..], dims)
    modifies points
    ensures AllDims(points[..], dims) && Permutes(old(points[..]), points[..], start, end)
    ensures points[i] == old(points[j]) && points[j] == old(points[i])
    ensures forall k :: 0 <= k < points.Length && k != i && k != j ==> points[k] == old(points[k])
  {
    ghost var s := points[..];
    points[i], points[j] := points[j], points[i];
    assert points[..] == s[i := s[j]][j := s[i]];
    ExchangeKeeps(s, start, i, j, end);
  }

  lemma ExchangeKeeps(s: seq<Point>, start: nat, i: nat, j: nat, end: nat)
    requires start <= i <= j < end <= |s|
    ensures Permutes(s, s[i := s[j]][j := s[i]], start, end)
  {
    var part := s[start..end];
    SwapKeepsAll(part, i - start, j - start);
    assert s[i := s[j]][j := s[i]][start..end] == part[i - start := part[j - start]][j - start := part[i - start]];
  }

  lemma MiddleSplit(s: seq<Point>, m: nat)
    requires m < |s|
    ensures multiset(s) == multiset(s[..m]) + multiset{s[m]} + multiset(s[m + 1..])
  {
    assert s == s[..m] + [s[m]] + s[m + 1..];
  }

  lemma SideFromSlice(s: seq<Point>, axis: nat, split: int, left: bool, dims: nat)
    requires axis < dims && AllDims(s, dims)
    requires forall i :: 0 <= i < |s| ==> if left then s[i][axis] <= split else split <= s[i][axis]
    ensures OnSide(multiset(s), axis, split, left, dims)
  {
    forall p | p in multiset(s) ensures |p| == dims && if left then p[axis] <= split else p[axis] >= split {
      var i :| 0 <= i < |s| && s[i] == p;
    }
  }

  /** The axes take turns, and each node stands midway: half of the points, rounded down, in its left subtree. */
  ghost predicate Midway(t: Tree, depth: nat, dims: nat)
    requires dims > 0
  {
    t.Node? ==>
      && t.axis == depth % dims && |Points(t.left)| == |Points(t)| / 2
      && Midway(t.left, depth + 1, dims) && Midway(t.right, depth + 1, dims)
  }

  function Height(t: Tree): nat {
    if t.Leaf? then 0 else 1 + if Height(t.left) >= Height(t.right) then Height(t.left) else Height(t.right)
  }

  function Pow2(n: nat): nat {
    if n == 0 then 1 else 2 * Pow2(n - 1)
  }

  /** So a tree of fewer than 2^h points is at most h high. */
  lemma {:induction false} MidwayIsLow(t: Tree, depth: nat, dims: nat)
    requires dims > 0 && Midway(t, depth, dims)
    ensures t.Node? ==> Pow2(Height(t) - 1) <= |Points(t)|
    decreases t
  {
    hide Points;
    if t.Node? {
      MidwayIsLow(t.left, depth + 1, dims);
      MidwayIsLow(t.right, depth + 1, dims);
      NodeSize(t);
      hide Midway;
      var taller := if Height(t.left) >= Height(t.right) then t.left else t.right;
      assert |Points(taller)| <= |Points(t)| / 2 && Height(t) == 1 + Height(taller);
      if taller.Node? { assert Pow2(Height(taller)) == 2 * Pow2(Height(taller) - 1); }
    }
  }

  lemma NodeSize(t: Tree)
    ensures t.Leaf? ==> |Points(t)| == 0
    ensures t.Node? ==> |Points(t)| == |Points(t.left)| + 1 + |Points(t.right)|
  {
  }

  /** The median on the axis becomes the node, the stretches before and after it its subtrees. */
  method BuildTree(points: array<Point>, start: nat, end: nat, depth: nat, dims: nat) returns (t: Tree)
    requires start <= end <= points.Length && dims > 0 && AllDims(points[..], dims)
    modifies points
    ensures AllDims(points[..], dims) && Permutes(old(points[..]), points[..], start, end)
    ensures Points(t) == multiset(old(points[..])[start..end]) && Ordered(t, dims) && Midway(t, depth, dims)
    decreases end - start
  {
    hide Ordered, Points, OnSide, Permutes, Midway;
    ghost var s0 := points[..];
    if start >= end {
      EmptyBuilt(s0, start, dims);
      LeafMidway(depth, dims);
      return Leaf;
    }
    var axis := depth % dims;
    var mid := start + (end - start) / 2;
    NthElement(points, start, mid, end, axis, dims);
    ghost var s := points[..];
    var point := points[mid];
    SidesOfMiddle(s, start, mid, end, axis, dims);
    var left := BuildTree(points, start, mid, depth + 1, dims);
    ghost var s1 := points[..];
    var right := BuildTree(points, mid + 1, end, depth + 1, dims);
    ghost var s2 := points[..];
    t := Node(point, axis, left, right);
    NodeBuilt(s0, s, s1, s2, start, mid, end, axis, dims, left, right);
    NodeMidway(t, depth, dims, start, mid, end);
  }

  lemma LeafMidway(depth: nat, dims: nat)
    requires dims > 0
    ensures Midway(Leaf, depth, dims)
  {
  }

  lemma NodeMidway(t: Tree, depth: nat, dims: nat, start: nat, mid: nat, end: nat)
    requires dims > 0 && t.Node? && t.axis == depth % dims && start < end && mid == start + (end - start) / 2
    requires |Points(t.left)| == mid - start && |Points(t)| == end - start
    requires Midway(t.left, depth + 1, dims) && Midway(t.right, depth + 1, dims)
    ensures Midway(t, depth, dims)
  {
  }

  lemma EmptyBuilt(s: seq<Point>, start: nat, dims: nat)
    requires start <= |s|
    ensures Permutes(s, s, start, start) && Points(Leaf) == multiset(s[start..start]) && Ordered(Leaf, dims)
  {
  }

  lemma BuiltPart(s: seq<Point>, s1: seq<Point>, start: nat, mid: nat)
    requires start <= mid < |s| == |s1| && s1[..start] == s[..start] && s1[mid..] == s[mid..]
    ensures s1[mid] == s[mid] && s1[mid + 1..] == s[mid + 1..]
  {
    assert s1[mid..][0] == s[mid..][0];
    assert s1[mid + 1..] == s1[mid..][1..] && s[mid + 1..] == s[mid..][1..];
  }

  lemma SidesOfMiddle(s: seq<Point>, start: nat, mid: nat, end: nat, axis: nat, dims: nat)
    requires start <= mid < end <= |s| && axis < dims && AllDims(s, dims)
    requires forall i :: start <= i < mid ==> s[i][axis] <= s[mid][axis]
    requires forall i :: mid < i < end ==> s[mid][axis] <= s[i][axis]
    ensures OnSide(multiset(s[start..mid]), axis, s[mid][axis], true, dims)
    ensures OnSide(multiset(s[mid + 1..end]), axis, s[mid][axis], false, dims)
  {
    hide OnSide;
    SideFromSlice(s[start..mid], axis, s[mid][axis], true, dims);
    SideFromSlice(s[mid + 1..end], axis, s[mid][axis], false, dims);
  }

  lemma SameParts(p: seq<Point>, q: seq<Point>, m: nat)
    requires |p| == |q| && m < |p| && multiset(p[..m]) == multiset(q[..m]) && p[m] == q[m] && multiset(p[m + 1..]) == multiset(q[m + 1..])
    ensures multiset(p) == multiset(q) == multiset(p[..m]) + multiset{p[m]} + multiset(p[m + 1..])
  {
    MiddleSplit(p, m);
    MiddleSplit(q, m);
  }

  lemma NodeBuilt(s0: seq<Point>, s: seq<Point>, s1: seq<Point>, s2: seq<Point>, start: nat, mid: nat, end: nat, axis: nat, dims: nat, left: Tree, right: Tree)
    requires start <= mid < end <= |s| && axis < dims && |s[mid]| == dims && mid < |s1|
    requires OnSide(multiset(s[start..mid]), axis, s[mid][axis], true, dims) && OnSide(multiset(s[mid + 1..end]), axis, s[mid][axis], false, dims)
    requires Permutes(s0, s, start, end) && Permutes(s, s1, start, mid) && Permutes(s1, s2, mid + 1, end)
    requires Ordered(left, dims) && Points(left) == multiset(s[start..mid])
    requires Ordered(right, dims) && Points(right) == multiset(s1[mid + 1..end])
    ensures Ordered(Node(s[mid], axis, left, right), dims)
    ensures Points(Node(s[mid], axis, left, right)) == multiset(s0[start..end])
    ensures Permutes(s0, s2, start, end)
  {
    hide Ordered, Points, OnSide, Permutes;
    Rearranged(s0, s, s1, s2, start, mid, end);
    NodeMade(s[mid], axis, left, right, dims);
  }

  lemma Rearranged(s0: seq<Point>, s: seq<Point>, s1: seq<Point>, s2: seq<Point>, start: nat, mid: nat, end: nat)
    requires start <= mid < end <= |s| && mid < |s1|
    requires Permutes(s0, s, start, end) && Permutes(s, s1, start, mid) && Permutes(s1, s2, mid + 1, end)
    ensures Permutes(s0, s2, start, end) && |s1| == |s| && s1[mid + 1..end] == s[mid + 1..end]
    ensures multiset(s0[start..end]) == multiset(s[start..mid]) + multiset{s[mid]} + multiset(s[mid + 1..end])
  {
    SlicesKept(s, s1, s2, start, mid, end);
    var p, q, m := s[start..end], s2[start..end], mid - start;
    assert p[..m] == s[start..mid] && p[m + 1..] == s[mid + 1..end];
    SameParts(p, q, m);
  }

  lemma SlicesKept(s: seq<Point>, s1: seq<Point>, s2: seq<Point>, start: nat, mid: nat, end: nat)
    requires start <= mid < end <= |s| == |s1| == |s2|
    requires s1[..start] == s[..start] && s1[mid..] == s[mid..]
    requires s2[..mid + 1] == s1[..mid + 1] && s2[end..] == s1[end..]
    ensures s1[mid + 1..end] == s[mid + 1..end] && s2[..start] == s[..start] && s2[end..] == s[end..]
    ensures s2[start..end][..mid - start] == s1[start..mid] && s2[start..end][mid - start] == s[mid]
    ensures s2[start..end][mid - start + 1..] == s2[mid + 1..end]
  {
    BuiltPart(s, s1, start, mid);
    assert s1[mid + 1..end] == s1[mid + 1..][..end - mid - 1];
    assert s2[..start] == s2[..mid + 1][..start] == s1[..start];
    assert s1[end..] == s1[mid..][end - mid..] && s[end..] == s[mid..][end - mid..];
    assert s2[start..mid + 1] == s2[..mid + 1][start..] == s1[..mid + 1][start..] == s1[start..mid + 1];
    assert s2[start..end][..mid - start] == s2[start..mid + 1][..mid - start] && s1[start..mid] == s1[start..mid + 1][..mid - start];
    assert s2[mid] == s2[..mid + 1][mid] == s1[mid];
  }

  lemma NodeMade(point: Point, axis: nat, left: Tree, right: Tree, dims: nat)
    requires |point| == dims && axis < dims && Ordered(left, dims) && Ordered(right, dims)
    requires OnSide(Points(left), axis, point[axis], true, dims) && OnSide(Points(right), axis, point[axis], false, dims)
    ensures Ordered(Node(point, axis, left, right), dims)
    ensures Points(Node(point, axis, left, right)) == Points(left) + multiset{point} + Points(right)
  {
  }

  // ------------------------------------------------------------------ insertion

  function InsertRecursive(node: Tree, point: Point, depth: nat, dims: nat): Tree
    requires dims > 0 && |point| == dims && Ordered(node, dims)
  {
    if node.Leaf? then Node(point, depth % dims, Leaf, Leaf)
    else if point[node.axis] < node.point[node.axis] then node.(left := InsertRecursive(node.left, point, depth + 1, dims))
    else node.(right := InsertRecursive(node.right, point, depth + 1, dims))
  }

  lemma GrownLeft(node: Tree, left: Tree, point: Point, dims: nat)
    requires node.Node? && Ordered(node, dims) && |point| == dims && point[node.axis] <= node.point[node.axis]
    requires Ordered(left, dims) && Points(left) == Points(node.left) + multiset{point}
    ensures Ordered(node.(left := left), dims) && Points(node.(left := left)) == Points(node) + multiset{point}
  {
    hide OnSide;
    OnSideAdd(Points(node.left), node.axis, node.point[node.axis], true, dims, point);
    MoveLast(Points(node.left), multiset{node.point}, Points(node.right), multiset{point});
  }

  lemma GrownRight(node: Tree, right: Tree, point: Point, dims: nat)
    requires node.Node? && Ordered(node, dims) && |point| == dims && point[node.axis] >= node.point[node.axis]
    requires Ordered(right, dims) && Points(right) == Points(node.right) + multiset{point}
    ensures Ordered(node.(right := right), dims) && Points(node.(right := right)) == Points(node) + multiset{point}
  {
    hide OnSide;
    OnSideAdd(Points(node.right), node.axis, node.point[node.axis], false, dims, point);
    MoveLast(Points(node.left), multiset{node.point}, Points(node.right), multiset{point});
  }

  /** Insertion adds exactly one occurrence of the point and keeps every split. */
  lemma {:induction false} InsertKeepsOrder(node: Tree, point: Point, depth: nat, dims: nat)
    requires dims > 0 && |point| == dims && Ordered(node, dims)
    ensures Ordered(InsertRecursive(node, point, depth, dims), dims)
    ensures Points(InsertRecursive(node, point, depth, dims)) == Points(node) + multiset{point}
  {
    if node.Leaf? {
      OnSideEmpty(depth % dims, point[depth % dims], dims);
    } else if point[node.axis] < node.point[node.axis] {
      InsertKeepsOrder(node.left, point, depth + 1, dims);
      GrownLeft(node, InsertRecursive(node.left, point, depth + 1, dims), point, dims);
    } else {
      InsertKeepsOrder(node.right, point, depth + 1, dims);
      GrownRight(node, InsertRecursive(node.right, point, depth + 1, dims), point, dims);
    }
  }

  lemma OnSideEmpty(axis: nat, split: int, dims: nat)
    ensures OnSide(multiset{}, axis, split, true, dims) && OnSide(multiset{}, axis, split, false, dims)
  {
  }

  lemma OnSideAdd(ps: multiset<Point>, axis: nat, split: int, left: bool, dims: nat, point: Point)
    requires OnSide(ps, axis, split, left, dims) && |point| == dims && axis < dims
    requires if left then point[axis] <= split else point[axis] >= split
    ensures OnSide(ps + multiset{point}, axis, split, left, dims)
  {
  }

  lemma MoveLast<T>(a: multiset<T>, m: multiset<T>, b: multiset<T>, x: multiset<T>)
    ensures (a + x) + m + b == a + m + b + x && a + m + (b + x) == a + m + b + x
  {
  }

  // -------------------------------------------------------------------- the class

  function Origin(dims: nat): Point {
    seq(dims, i => 0)
  }

  predicate Ascending(query: Point, ps: seq<Point>) {
    && (forall i :: 0 <= i < |ps| ==> |ps[i]| == |query|)
    && forall i, j :: 0 <= i < j < |ps| ==> Distance(query, ps[i]) <= Distance(query, ps[j])
  }

  function Tag(query: Point, ps: seq<Point>): (r: seq<DistPoint>)
    requires forall i :: 0 <= i < |ps| ==> |ps[i]| == |query|
    ensures |r| == |ps| && forall i :: 0 <= i < |r| ==> r[i] == DistPoint(Distance(query, ps[i]), ps[i])
  {
    seq(|ps|, i requires 0 <= i < |ps| => DistPoint(Distance(query, ps[i]), ps[i]))
  }

  /** p is a point of ps that no other is nearer than: the brute-force minimum. */
  ghost predicate Nearest(query: Point, ps: multiset<Point>, p: Point) {
    p in ps && |p| == |query| && NoneNearer(query, ps, Distance(query, p))
  }

  /** What the search returns: a nearest point if some point is nearer than limit, else the origin. */
  ghost predicate Found(query: Point, ps: multiset<Point>, limit: int, p: Point) {
    if NoneNearer(query, ps, limit) then p == Origin(|query|) else Nearest(query, ps, p)
  }

  /** The search can miss: for 32-bit coordinates, the only point of a tree may be exactly the greatest
      value away from the query, with no overflow on the way, and is not found. */
  lemma FarPointIsMissed(p: Point)
    ensures var query, far, limit := [0, 0, 0, 0], [46339, 425, 10, 1], 0x7fff_ffff;
            && Distance(query, far) == 46339 * 46339 + 425 * 425 + 10 * 10 + 1 * 1 == limit
            && (Found(query, multiset{far}, limit, p) ==> p == [0, 0, 0, 0] && !Nearest(query, multiset{far}, p))
  {
    var query, far := [0, 0, 0, 0], [46339, 425, 10, 1];
    assert PartialDistance(query, far, 1) == 46339 * 46339;
    assert PartialDistance(query, far, 2) == 46339 * 46339 + 425 * 425;
    assert PartialDistance(query, far, 3) == 46339 * 46339 + 425 * 425 + 100;
    assert Distance(query, far) == 0x7fff_ffff;
    assert Origin(4) == query;
  }

  class KdTree {
    const dims: nat
    var root: Tree
    var size: nat

    ghost predicate Valid()
      reads this
    {
      dims > 0 && Ordered(root, dims) && |Points(root)| == size
    }

    constructor (dims: nat)
      requires dims > 0
      ensures Valid() && this.dims == dims && Points(root) == multiset{}
    {
      this.dims, root, size := dims, Leaf, 0;
    }

    /** Replaces the contents by the given points. */
    method Build(points: seq<Point>)
      requires Valid() && AllDims(points, dims)
      modifies this
      ensures Valid() && Points(root) == multiset(points) && Midway(root, 0, dims)
    {
      if points == [] {
        root, size := Leaf, 0;
        return;
      }
      var copy := new Point[|points|](i requires 0 <= i < |points| => points[i]);
      assert copy[..] == points && copy[0..|points|] == points;
      root := BuildTree(copy, 0, |points|, 0, dims);
      size := |points|;
    }

    method Insert(point: Point)
      requires Valid() && |point| == dims
      modifies this
      ensures Valid() && Points(root) == old(Points(root)) + multiset{point}
    {
      InsertKeepsOrder(root, point, 0, dims);
      root := InsertRecursive(root, point, 0, dims);
      size := size + 1;
    }

    method Clear()
      requires Valid()
      modifies this
      ensures Valid() && Points(root) == multiset{}
    {
      root, size := Leaf, 0;
    }

    /** limit is the greatest value of the coordinate type, from which the search starts. */
    method NearestNeighbor(query: Point, limit: int) returns (r: Result<Point, TreeError>)
      requires Valid() && |query| == dims
      ensures r.Failure? <==> Points(root) == multiset{}
      ensures r.Success? ==> Found(query, Points(root), limit, r.value)
      ensures r.Success? ==> (Nearest(query, Points(root), r.value) <==>
                                !NoneNearer(query, Points(root), limit) || Nearest(query, Points(root), Origin(dims)))
    {
      if size == 0 {
        return Failure(TreeIsEmpty);
      }
      PointsHaveDims(root, dims);
      var point, dist := NearestNeighborRecursive(root, query, Origin(dims), limit);
      hide Distance, Points, Ordered;
      return Success(point);
    }

    method RangeQuery(low: Point, high: Point) returns (found: seq<Point>)
      requires Valid() && |low| == |high| == dims
      ensures ExactlyInside(multiset(found), Points(root), low, high)
    {
      found := RangeQueryRecursive(root, low, high, []);
      FilterIsExact(root, low, high);
    }

    /** The k nearest points in ascending order of distance, all points if there are fewer. */
    method KNearestNeighbors(query: Point, k: int) returns (found: seq<Point>)
      requires Valid() && |query| == dims
      ensures |found| == if k <= 0 then 0 else Min(k, size)
      ensures Ascending(query, found)
      ensures k > 0 ==> KNearest(multiset(Tag(query, found)), Tagged(root, query), k)
    {
      if k <= 0 {
        return [];
      }
      TaggedPoints(root, query);
      hide Distance, Points, Tagged, OnSide, Ordered;
      var count := if k > size then size else k;
      var pq := new DistPointQueue();
      ghost var all := Tagged(root, query);
      NoneYet(count);
      if count > 0 {
        KNearestNeighborsRecursive(root, query, count, pq, multiset{});
        assert multiset{} + all == all;
      } else {
        assert all == multiset{};
      }
      ghost var chosen := multiset(pq.items);
      NearestSize(chosen, all, count, k);
      ghost var tags;
      found, tags := Drain(pq);
      ReversedTags(query, tags, chosen, all, found);
      found := Reverse(found);
    }

    /** Empties the queue, farthest first. */
    static method Drain(pq: DistPointQueue) returns (found: seq<Point>, ghost tags: seq<DistPoint>)
      modifies pq
      ensures Popped(multiset{}, tags, found, old(multiset(pq.items)))
    {
      found, tags := [], [];
      ghost var chosen := multiset(pq.items);
      NonePopped(chosen);
      hide Popped;
      while |pq.items| > 0
        invariant Popped(multiset(pq.items), tags, found, chosen)
        decreases |pq.items|
      {
        ghost var left := multiset(pq.items);
        var top := pq.Pop();
        PopOne(left, tags, found, chosen, top);
        found := found + [top.point];
        tags := tags + [top];
      }
      assert multiset(pq.items) == multiset{};
    }
  }

  /** tags, in descending order, have left the queue, which still holds left. */
  ghost predicate Popped(left: multiset<DistPoint>, tags: seq<DistPoint>, found: seq<Point>, chosen: multiset<DistPoint>) {
    && left + multiset(tags) == chosen && |found| == |tags|
    && (forall i :: 0 <= i < |tags| ==> tags[i].point == found[i])
    && (forall i, j :: 0 <= i < j < |tags| ==> tags[i].dist >= tags[j].dist)
    && (forall x, i :: x in left && 0 <= i < |tags| ==> x.dist <= tags[i].dist)
  }

  lemma NonePopped(chosen: multiset<DistPoint>)
    ensures Popped(chosen, [], [], chosen)
  {
  }

  lemma PopOne(left: multiset<DistPoint>, tags: seq<DistPoint>, found: seq<Point>, chosen: multiset<DistPoint>, top: DistPoint)
    requires Popped(left, tags, found, chosen) && top in left && forall y :: y in left ==> y.dist <= top.dist
    ensures Popped(left - multiset{top}, tags + [top], found + [top.point], chosen)
  {
    assert left - multiset{top} + multiset(tags + [top]) == left + multiset(tags);
  }

  lemma ReversedTags(query: Point, tags: seq<DistPoint>, chosen: multiset<DistPoint>, all: multiset<DistPoint>, found: seq<Point>)
    requires Popped(multiset{}, tags, found, chosen) && chosen <= all
    requires forall x :: x in all ==> |x.point| == |query| && x.dist == Distance(query, x.point)
    ensures Ascending(query, Reverse(found)) && multiset(Tag(query, Reverse(found))) == chosen && |Reverse(found)| == |chosen|
  {
    hide Distance, Reverse, Tag, Ascending;
    ReverseMultiset(tags);
    var rt, rf := Reverse(tags), Reverse(found);
    PoppedAscend(tags, found, rt, rf, chosen);
    DrainedTags(query, rt, chosen, all, rf);
  }

  lemma PoppedAscend(tags: seq<DistPoint>, found: seq<Point>, rt: seq<DistPoint>, rf: seq<Point>, chosen: multiset<DistPoint>)
    requires Popped(multiset{}, tags, found, chosen) && |rt| == |tags| && |rf| == |found|
    requires forall i :: 0 <= i < |rt| ==> rt[i] == tags[|tags| - 1 - i]
    requires forall i :: 0 <= i < |rf| ==> rf[i] == found[|found| - 1 - i]
    ensures multiset(tags) == chosen && |rt| == |rf|
    ensures forall i :: 0 <= i < |rt| ==> rt[i].point == rf[i]
    ensures forall i, j :: 0 <= i < j < |rt| ==> rt[i].dist <= rt[j].dist
  {
  }

  /** The missed point, on the tree itself. */
  method MissesFarPoint() returns (r: Result<Point, TreeError>)
    ensures r == Success([0, 0, 0, 0]) && [0, 0, 0, 0] != [46339, 425, 10, 1]
  {
    var far := [46339, 425, 10, 1];
    var tree := new KdTree(4);
    tree.Build([far]);
    assert multiset([far]) == multiset{far} && far in multiset{far};
    r := tree.NearestNeighbor([0, 0, 0, 0], 0x7fff_ffff);
    if r.Success? { FarPointIsMissed(r.value); }
  }

  lemma NoneYet(k: nat)
    ensures KNearest(multiset{}, multiset{}, k)
  {
  }

  lemma NearestSize(chosen: multiset<DistPoint>, all: multiset<DistPoint>, count: nat, k: nat)
    requires KNearest(chosen, all, count) && count == (if k > |all| then |all| else k)
    ensures KNearest(chosen, all, k) && |chosen| == Min(k, |all|)
  {
  }

  function Reverse<T>(s: seq<T>): (r: seq<T>)
    ensures |r| == |s| && forall i :: 0 <= i < |r| ==> r[i] == s[|s| - 1 - i]
  {
    if s == [] then [] else Reverse(s[1..]) + [s[0]]
  }

  lemma {:induction false} ReverseMultiset<T>(s: seq<T>)
    ensures multiset(Reverse(s)) == multiset(s)
  {
    if s != [] {
      ReverseMultiset(s[1..]);
      assert s == [s[0]] + s[1..];
    }
  }

  lemma DrainedTags(query: Point, tags: seq<DistPoint>, chosen: multiset<DistPoint>, all: multiset<DistPoint>, found: seq<Point>)
    requires multiset(tags) == chosen && chosen <= all && |tags| == |found|
    requires forall x :: x in all ==> |x.point| == |query| && x.dist == Distance(query, x.point)
    requires forall i :: 0 <= i < |tags| ==> tags[i].point == found[i]
    requires forall i, j :: 0 <= i < j < |tags| ==> tags[i].dist <= tags[j].dist
    ensures Ascending(query, found) && multiset(Tag(query, found)) == chosen && |found| == |chosen|
  {
    hide Distance;
    forall i | 0 <= i < |found| ensures |found[i]| == |query| && tags[i] == DistPoint(Distance(query, found[i]), found[i]) {
      assert tags[i] in multiset(tags);
    }
    assert Tag(query, found) == tags;
  }
}
