/** The reference both containers are measured against: a strictly sorted list of entries.

    less is any strict weak order; two keys are equivalent when neither is less
    than the other, and a stored key survives an update through an equivalent key. */
module SortedMap {
  import opened Prelude

  datatype Entry<+K, +V> = Entry(key: K, value: V)

  ghost predicate StrictWeakOrder<K(!new)>(less: (K, K) -> bool) {
    && (forall a {:trigger less(a, a)} :: !less(a, a))
    && (forall a, b, c {:trigger less(a, b), less(b, c)} :: less(a, b) && less(b, c) ==> less(a, c))
    && (forall a, b, c {:trigger less(a, c), less(b, c)} {:trigger less(a, c), less(a, b)} :: less(a, c) ==> less(a, b) || less(b, c))
  }

  predicate Equivalent<K>(less: (K, K) -> bool, a: K, b: K) {
    !less(a, b) && !less(b, a)
  }

  ghost predicate Sorted<K, V>(less: (K, K) -> bool, es: seq<Entry<K, V>>) {
    forall i, j :: 0 <= i < j < |es| ==> less(es[i].key, es[j].key)
  }

  /** How many leading entries have keys less than key. */
  function LowerBound<K, V>(less: (K, K) -> bool, es: seq<Entry<K, V>>, key: K): (n: nat)
    ensures n <= |es|
    ensures forall i :: 0 <= i < n ==> less(es[i].key, key)
    ensures n < |es| ==> !less(es[n].key, key)
  {
    if es == [] || !less(es[0].key, key) then 0 else 1 + LowerBound(less, es[1..], key)
  }

  predicate Present<K, V>(less: (K, K) -> bool, es: seq<Entry<K, V>>, key: K) {
    var n := LowerBound(less, es, key);
    n < |es| && !less(key, es[n].key)
  }

  function Find<K, V>(less: (K, K) -> bool, es: seq<Entry<K, V>>, key: K): Option<V> {
    if Present(less, es, key) then Some(es[LowerBound(less, es, key)].value) else None
  }

  function Insert<K, V>(less: (K, K) -> bool, es: seq<Entry<K, V>>, key: K, value: V): seq<Entry<K, V>> {
    var n := LowerBound(less, es, key);
    es[..n] + [Entry(key, value)] + es[n..]
  }

  function Update<K, V>(less: (K, K) -> bool, es: seq<Entry<K, V>>, key: K, value: V): seq<Entry<K, V>>
    requires Present(less, es, key)
  {
    var n := LowerBound(less, es, key);
    es[n := Entry(es[n].key, value)]
  }

  function Erase<K, V>(less: (K, K) -> bool, es: seq<Entry<K, V>>, key: K): seq<Entry<K, V>>
    requires Present(less, es, key)
  {
    var n := LowerBound(less, es, key);
    es[..n] + es[n + 1..]
  }

  function Set<K, V>(less: (K, K) -> bool, es: seq<Entry<K, V>>, key: K, value: V): seq<Entry<K, V>> {
    if Present(less, es, key) then Update(less, es, key, value) else Insert(less, es, key, value)
  }

  // ------------------------------------------------- the list is a finite map

  /** In a sorted list the split point is determined by its two sides. */
  lemma LowerBoundUnique<K(!new), V>(less: (K, K) -> bool, es: seq<Entry<K, V>>, key: K, n: nat)
    requires StrictWeakOrder(less)
    requires n <= |es|
    requires forall i :: 0 <= i < n ==> less(es[i].key, key)
    requires n < |es| ==> !less(es[n].key, key)
    requires Sorted(less, es)
    ensures LowerBound(less, es, key) == n
    ensures forall i :: n <= i < |es| ==> !less(es[i].key, key)
  {
    var m := LowerBound(less, es, key);
    forall i | n <= i < |es| ensures !less(es[i].key, key) {
      assert i > n ==> less(es[n].key, es[i].key);
    }
  }

  /** Find answers exactly the value stored under an equivalent key, wherever it is stored. */
  lemma FindMeaning<K(!new), V>(less: (K, K) -> bool, es: seq<Entry<K, V>>, key: K, i: nat)
    requires StrictWeakOrder(less) && Sorted(less, es)
    ensures i < |es| && Equivalent(less, es[i].key, key) ==> Present(less, es, key) && Find(less, es, key) == Some(es[i].value)
    ensures Present(less, es, key) ==> Equivalent(less, es[LowerBound(less, es, key)].key, key)
  {
    if i < |es| && Equivalent(less, es[i].key, key) {
      forall j | 0 <= j < i ensures less(es[j].key, key) {
        assert less(es[j].key, es[i].key);
        assert less(key, es[i].key) || less(es[j].key, key);
      }
      LowerBoundUnique(less, es, key, i);
    }
    hide StrictWeakOrder, Sorted;
  }

  /** The list after a write that stores value under key. */
  ghost predicate Writes<K(!new), V(!new)>(less: (K, K) -> bool, es: seq<Entry<K, V>>, key: K, value: Option<V>, after: seq<Entry<K, V>>) {
    && Sorted(less, after)
    && forall k :: Find(less, after, k) == if Equivalent(less, k, key) then value else Find(less, es, k)
  }

  lemma EquivalentKeysFindAlike<K(!new), V>(less: (K, K) -> bool, es: seq<Entry<K, V>>, a: K, b: K)
    requires StrictWeakOrder(less) && Sorted(less, es) && Equivalent(less, a, b)
    ensures LowerBound(less, es, a) == LowerBound(less, es, b)
    ensures Find(less, es, a) == Find(less, es, b)
  {
    var n := LowerBound(less, es, a);
    forall i | 0 <= i < |es| ensures less(es[i].key, a) <==> less(es[i].key, b) {
      assert less(es[i].key, a) ==> less(es[i].key, b) || less(b, a);
      assert less(es[i].key, b) ==> less(es[i].key, a) || less(a, b);
    }
    LowerBoundUnique(less, es, b, n);
    if n < |es| {
      assert less(a, es[n].key) ==> less(a, b) || less(b, es[n].key);
      assert less(b, es[n].key) ==> less(b, a) || less(a, es[n].key);
    }
  }

  lemma InsertSorted<K(!new), V>(less: (K, K) -> bool, es: seq<Entry<K, V>>, key: K, value: V)
    requires StrictWeakOrder(less) && Sorted(less, es) && !Present(less, es, key)
    ensures Sorted(less, Insert(less, es, key, value))
  {
    var n := LowerBound(less, es, key);
    var after := Insert(less, es, key, value);
    forall i, j | 0 <= i < j < |after| ensures less(after[i].key, after[j].key) {
      var oldI := if i <= n then i else i - 1;
      var oldJ := if j <= n then j else j - 1;
      if n < |es| && j > n {
        assert less(key, es[n].key);
        if oldJ > n { assert less(es[n].key, es[oldJ].key); }
      }
    }
  }

  /** Insert adds one binding and changes no other. */
  lemma InsertIsMapInsert<K(!new), V(!new)>(less: (K, K) -> bool, es: seq<Entry<K, V>>, key: K, value: V)
    requires StrictWeakOrder(less) && Sorted(less, es) && !Present(less, es, key)
    ensures Writes(less, es, key, Some(value), Insert(less, es, key, value))
  {
    var n := LowerBound(less, es, key);
    var after := Insert(less, es, key, value);
    InsertSorted(less, es, key, value);
    forall k ensures Find(less, after, k) == if Equivalent(less, k, key) then Some(value) else Find(less, es, k) {
      var m := LowerBound(less, es, k);
      if Equivalent(less, k, key) {
        FindMeaning(less, after, k, n);
      } else if less(key, k) {
        assert m + 1 <= |after|;
        forall i | 0 <= i < m + 1 ensures less(after[i].key, k) {
          if i > n { assert after[i] == es[i - 1]; }
        }
        if m + 1 < |after| { assert after[m + 1] == es[m]; }
        LowerBoundUnique(less, after, k, m + 1);
      } else {
        forall i | 0 <= i < m ensures less(after[i].key, k) { assert after[i] == es[i]; }
        if m < n { assert after[m] == es[m]; } else { assert after[m] == Entry(key, value); }
        LowerBoundUnique(less, after, k, m);
        if m == n {
          assert !Present(less, es, k) by {
            if m < |es| { assert less(key, es[m].key); }
          }
        }
      }
    }
  }

  /** Update replaces one value, keeps the stored key, and changes no other binding. */
  lemma UpdateIsMapUpdate<K(!new), V(!new)>(less: (K, K) -> bool, es: seq<Entry<K, V>>, key: K, value: V)
    requires StrictWeakOrder(less) && Sorted(less, es) && Present(less, es, key)
    ensures Writes(less, es, key, Some(value), Update(less, es, key, value))
  {
    var n := LowerBound(less, es, key);
    var after := Update(less, es, key, value);
    assert forall i :: 0 <= i < |es| ==> after[i].key == es[i].key;
    forall k ensures Find(less, after, k) == if Equivalent(less, k, key) then Some(value) else Find(less, es, k) {
      var m := LowerBound(less, es, k);
      LowerBoundUnique(less, after, k, m);
      if Equivalent(less, k, key) {
        EquivalentKeysFindAlike(less, es, k, key);
        EquivalentKeysFindAlike(less, after, k, key);
        LowerBoundUnique(less, after, key, n);
      }
    }
  }

  lemma EraseSorted<K(!new), V>(less: (K, K) -> bool, es: seq<Entry<K, V>>, key: K)
    requires StrictWeakOrder(less) && Sorted(less, es) && Present(less, es, key)
    ensures Sorted(less, Erase(less, es, key))
  {
    var n := LowerBound(less, es, key);
    var after := Erase(less, es, key);
    forall i, j | 0 <= i < j < |after| ensures less(after[i].key, after[j].key) {
      assert after[i] == es[if i < n then i else i + 1];
      assert after[j] == es[if j < n then j else j + 1];
    }
  }

  /** Erase removes one binding and changes no other. */
  lemma EraseIsMapErase<K(!new), V(!new)>(less: (K, K) -> bool, es: seq<Entry<K, V>>, key: K)
    requires StrictWeakOrder(less) && Sorted(less, es) && Present(less, es, key)
    ensures Writes(less, es, key, None, Erase(less, es, key))
  {
    var n := LowerBound(less, es, key);
    var after := Erase(less, es, key);
    EraseSorted(less, es, key);
    forall k ensures Find(less, after, k) == if Equivalent(less, k, key) then None else Find(less, es, k) {
      var m := LowerBound(less, es, k);
      var shifted := if m <= n then m else m - 1;
      forall i | 0 <= i < shifted ensures less(after[i].key, k) {
        assert after[i] == es[if i < n then i else i + 1];
      }
      if shifted < |after| {
        if m < n {
          assert after[shifted] == es[m];
        } else {
          assert after[shifted] == es[shifted + 1];
          if m == n { assert less(es[n].key, es[n + 1].key); }
        }
      }
      LowerBoundUnique(less, after, k, shifted);
      if m == n && n + 1 < |es| {
        assert less(es[n].key, es[n + 1].key);
        assert less(es[n].key, k) || less(k, es[n + 1].key);
      }
      if Equivalent(less, k, key) {
        EquivalentKeysFindAlike(less, es, k, key);
      }
    }
  }

  // ------------------------------------------------------- routing by segments

  /** A key below the right segment is located in the left one. */
  lemma {:induction false} LowerBoundInLeft<K(!new), V>(less: (K, K) -> bool, a: seq<Entry<K, V>>, b: seq<Entry<K, V>>, key: K)
    requires b != [] ==> !less(b[0].key, key)
    ensures LowerBound(less, a + b, key) == LowerBound(less, a, key)
  {
    if a == [] {
      assert a + b == b;
    } else if less(a[0].key, key) {
      assert (a + b)[1..] == a[1..] + b;
      LowerBoundInLeft(less, a[1..], b, key);
    }
  }

  /** A key above the left segment is located in the right one. */
  lemma {:induction false} LowerBoundInRight<K(!new), V>(less: (K, K) -> bool, a: seq<Entry<K, V>>, b: seq<Entry<K, V>>, key: K)
    requires forall i :: 0 <= i < |a| ==> less(a[i].key, key)
    ensures LowerBound(less, a + b, key) == |a| + LowerBound(less, b, key)
  {
    if a == [] {
      assert a + b == b;
    } else {
      assert (a + b)[1..] == a[1..] + b;
      forall i | 0 <= i < |a[1..]| ensures less(a[1..][i].key, key) { assert a[1..][i] == a[i + 1]; }
      LowerBoundInRight(less, a[1..], b, key);
    }
  }

  /** Every reference operation acts inside the left segment when the right one starts above key. */
  lemma SegmentLeft<K(!new), V>(less: (K, K) -> bool, a: seq<Entry<K, V>>, b: seq<Entry<K, V>>, key: K, value: V)
    requires StrictWeakOrder(less)
    requires b != [] ==> less(key, b[0].key)
    ensures LowerBound(less, a + b, key) == LowerBound(less, a, key)
    ensures Present(less, a + b, key) == Present(less, a, key)
    ensures Find(less, a + b, key) == Find(less, a, key)
    ensures Insert(less, a + b, key, value) == Insert(less, a, key, value) + b
    ensures Present(less, a, key) ==> Update(less, a + b, key, value) == Update(less, a, key, value) + b
    ensures Present(less, a, key) ==> Erase(less, a + b, key) == Erase(less, a, key) + b
  {
    assert b != [] && less(b[0].key, key) ==> less(key, key);
    hide StrictWeakOrder, LowerBound;
    LowerBoundInLeft(less, a, b, key);
    LowerBoundInRange(less, a, key);
    SplitsInLeft(a, b, LowerBound(less, a, key), Entry(key, value));
  }

  lemma LowerBoundInRange<K, V>(less: (K, K) -> bool, es: seq<Entry<K, V>>, key: K)
    ensures LowerBound(less, es, key) <= |es|
  {
  }

  lemma SplitsInLeft<K, V>(a: seq<Entry<K, V>>, b: seq<Entry<K, V>>, n: nat, e: Entry<K, V>)
    requires n <= |a|
    ensures (a + b)[..n] + [e] + (a + b)[n..] == (a[..n] + [e] + a[n..]) + b
    ensures n == |a| && b != [] ==> (a + b)[n] == b[0]
    ensures n < |a| ==> (a + b)[n] == a[n] && (a + b)[n := Entry(a[n].key, e.value)] == a[n := Entry(a[n].key, e.value)] + b
    ensures n < |a| ==> (a + b)[..n] + (a + b)[n + 1..] == (a[..n] + a[n + 1..]) + b
  {
  }

  /** Every reference operation acts inside the right segment when the left one lies below key. */
  lemma SegmentRight<K(!new), V>(less: (K, K) -> bool, a: seq<Entry<K, V>>, b: seq<Entry<K, V>>, key: K, value: V)
    requires forall i :: 0 <= i < |a| ==> less(a[i].key, key)
    ensures LowerBound(less, a + b, key) == |a| + LowerBound(less, b, key)
    ensures Present(less, a + b, key) == Present(less, b, key)
    ensures Find(less, a + b, key) == Find(less, b, key)
    ensures Insert(less, a + b, key, value) == a + Insert(less, b, key, value)
    ensures Present(less, b, key) ==> Update(less, a + b, key, value) == a + Update(less, b, key, value)
    ensures Present(less, b, key) ==> Erase(less, a + b, key) == a + Erase(less, b, key)
  {
    LowerBoundInRight(less, a, b, key);
    var n := LowerBound(less, b, key);
    SplitsInRight(a, b, n);
    var es := a + b;
    var m := LowerBound(less, es, key);
    assert Insert(less, es, key, value) == es[..m] + [Entry(key, value)] + es[m..];
    Associate(a, b[..n], [Entry(key, value)], b[n..]);
    if Present(less, b, key) {
      Associate(a, b[..n], [], b[n + 1..]);
      UpdateInRight(a, b, n, Entry(b[n].key, value));
    }
  }

  lemma Associate<T>(a: seq<T>, b: seq<T>, c: seq<T>, d: seq<T>)
    ensures a + b + c + d == a + (b + c + d)
    ensures a + b + d == a + (b + d)
  {
  }

  lemma UpdateInRight<T>(a: seq<T>, b: seq<T>, n: nat, x: T)
    requires n < |b|
    ensures (a + b)[|a| + n := x] == a + b[n := x]
  {
  }

  lemma SplitsInRight<T>(a: seq<T>, b: seq<T>, n: nat)
    requires n <= |b|
    ensures (a + b)[..|a| + n] == a + b[..n]
    ensures (a + b)[|a| + n..] == b[n..]
    ensures n < |b| ==> (a + b)[|a| + n] == b[n] && (a + b)[|a| + n + 1..] == b[n + 1..]
  {
  }

  lemma SortedParts<K(!new), V>(less: (K, K) -> bool, l: seq<Entry<K, V>>, b: seq<Entry<K, V>>, r: seq<Entry<K, V>>)
    requires Sorted(less, l + b + r)
    ensures Sorted(less, l) && Sorted(less, b) && Sorted(less, r)
    ensures forall i, j :: 0 <= i < |l| && 0 <= j < |b| ==> less(l[i].key, b[j].key)
    ensures forall i, j :: 0 <= i < |b| && 0 <= j < |r| ==> less(b[i].key, r[j].key)
  {
    var es := l + b + r;
    assert forall i :: 0 <= i < |l| ==> es[i] == l[i];
    assert forall i :: 0 <= i < |b| ==> es[|l| + i] == b[i];
    assert forall i :: 0 <= i < |r| ==> es[|l| + |b| + i] == r[i];
  }

  /** The reference operations on l + b + r all happen inside l. */
  lemma RouteLeft<K(!new), V>(less: (K, K) -> bool, l: seq<Entry<K, V>>, b: seq<Entry<K, V>>, r: seq<Entry<K, V>>, key: K, value: V)
    requires StrictWeakOrder(less) && Sorted(less, l + b + r) && b != [] && less(key, b[0].key)
    ensures Present(less, l + b + r, key) == Present(less, l, key)
    ensures Find(less, l + b + r, key) == Find(less, l, key)
    ensures Insert(less, l + b + r, key, value) == Insert(less, l, key, value) + b + r
    ensures Present(less, l, key) ==> Update(less, l + b + r, key, value) == Update(less, l, key, value) + b + r
    ensures Present(less, l, key) ==> Erase(less, l + b + r, key) == Erase(less, l, key) + b + r
  {
    assert l + b + r == l + (b + r);
    SegmentLeft(less, l, b + r, key, value);
    assert Insert(less, l, key, value) + (b + r) == Insert(less, l, key, value) + b + r;
  }

  /** The reference operations on l + b + r all happen inside r. */
  lemma RouteRight<K(!new), V>(less: (K, K) -> bool, l: seq<Entry<K, V>>, b: seq<Entry<K, V>>, r: seq<Entry<K, V>>, key: K, value: V)
    requires StrictWeakOrder(less) && Sorted(less, l + b + r) && b != [] && less(b[|b| - 1].key, key)
    ensures Present(less, l + b + r, key) == Present(less, r, key)
    ensures Find(less, l + b + r, key) == Find(less, r, key)
    ensures Insert(less, l + b + r, key, value) == l + b + Insert(less, r, key, value)
    ensures Present(less, r, key) ==> Update(less, l + b + r, key, value) == l + b + Update(less, r, key, value)
    ensures Present(less, r, key) ==> Erase(less, l + b + r, key) == l + b + Erase(less, r, key)
  {
    SortedParts(less, l, b, r);
    var last := b[|b| - 1].key;
    forall i | 0 <= i < |l + b| ensures less((l + b)[i].key, key) {
      assert i == |l + b| - 1 || less((l + b)[i].key, last);
    }
    SegmentRight(less, l + b, r, key, value);
  }

  /** The reference operations on l + b + r all happen inside b. */
  lemma RouteHere<K(!new), V>(less: (K, K) -> bool, l: seq<Entry<K, V>>, b: seq<Entry<K, V>>, r: seq<Entry<K, V>>, key: K, value: V)
    requires StrictWeakOrder(less) && Sorted(less, l + b + r) && b != []
    requires !less(key, b[0].key) && !less(b[|b| - 1].key, key)
    ensures Present(less, l + b + r, key) == Present(less, b, key)
    ensures Find(less, l + b + r, key) == Find(less, b, key)
    ensures Insert(less, l + b + r, key, value) == l + Insert(less, b, key, value) + r
    ensures Present(less, b, key) ==> Update(less, l + b + r, key, value) == l + Update(less, b, key, value) + r
    ensures Present(less, b, key) ==> Erase(less, l + b + r, key) == l + Erase(less, b, key) + r
  {
    HereSides(less, l, b, r, key);
    hide StrictWeakOrder, Sorted, LowerBound, Present, Insert, Update, Erase, Find;
    Assoc(l, b, r);
    SegmentRight(less, l, b + r, key, value);
    SegmentLeft(less, b, r, key, value);
    Assoc(l, Insert(less, b, key, value), r);
    if Present(less, b, key) {
      Assoc(l, Update(less, b, key, value), r);
      Assoc(l, Erase(less, b, key), r);
    }
  }

  lemma Assoc<T>(a: seq<T>, b: seq<T>, c: seq<T>)
    ensures a + (b + c) == a + b + c
  {
  }

  /** A key between the ends of b lies above all of l and below all of r. */
  lemma HereSides<K(!new), V>(less: (K, K) -> bool, l: seq<Entry<K, V>>, b: seq<Entry<K, V>>, r: seq<Entry<K, V>>, key: K)
    requires StrictWeakOrder(less) && Sorted(less, l + b + r) && b != []
    requires !less(key, b[0].key) && !less(b[|b| - 1].key, key)
    ensures forall i :: 0 <= i < |l| ==> less(l[i].key, key)
    ensures r != [] ==> less(key, r[0].key)
  {
    SortedParts(less, l, b, r);
    forall i | 0 <= i < |l| ensures less(l[i].key, key) {
      assert less(l[i].key, b[0].key);
    }
    if r != [] {
      assert less(b[|b| - 1].key, r[0].key);
    }
  }

  /** Checking neighbours is enough to know that a whole list is sorted. */
  lemma {:induction false} AdjacentIsSorted<K(!new), V>(less: (K, K) -> bool, es: seq<Entry<K, V>>)
    requires StrictWeakOrder(less)
    requires forall i :: 1 <= i < |es| ==> less(es[i - 1].key, es[i].key)
    ensures Sorted(less, es)
  {
    if |es| > 1 {
      var init := es[..|es| - 1];
      AdjacentIsSorted(less, init);
      forall i, j | 0 <= i < j < |es| ensures less(es[i].key, es[j].key) {
        if j < |es| - 1 {
          assert init[i] == es[i] && init[j] == es[j];
        } else if i < |es| - 2 {
          assert init[i] == es[i] && init[|es| - 2] == es[|es| - 2];
        }
      }
    }
  }

  /** The loop that guards both bulk builds accepts exactly the strictly sorted inputs. */
  method ValidateSortedUniqueEntries<K(!new), V>(less: (K, K) -> bool, entries: seq<Entry<K, V>>) returns (valid: bool)
    requires StrictWeakOrder(less)
    ensures valid == Sorted(less, entries)
  {
    var index := 1;
    while index < |entries|
      invariant 1 <= index
      invariant forall i :: 1 <= i < index && i < |entries| ==> less(entries[i - 1].key, entries[i].key)
    {
      if !less(entries[index - 1].key, entries[index].key) {
        return false;
      }
      index := index + 1;
    }
    AdjacentIsSorted(less, entries);
    return true;
  }
}
