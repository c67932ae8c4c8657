/** Blocks of sorted entries: what fits in one, how they are searched, split, merged and packed. */
module ZipList {
  import opened Prelude
  import opened SortedMap

  /** The generic list counts entries; the two PackedString lists also budget inline key bytes.
      keysOnly marks the set specialisation, whose Full test differs. */
  datatype Form<!K> =
    | CountForm(capacity: nat)
    | PackedForm(capacity: nat, payload: nat, keySize: K -> nat, keysOnly: bool)

  // ------------------------------------------------------------ the fit predicate

  predicate External<K>(f: Form<K>, key: K) {
    f.PackedForm? && f.keySize(key) > f.payload
  }

  function InlineKeyBytes<K>(f: Form<K>, key: K): nat {
    if f.CountForm? || External(f, key) then 0 else f.keySize(key)
  }

  function InlineBytes<K, V>(f: Form<K>, es: seq<Entry<K, V>>): nat {
    if es == [] then 0 else InlineBytes(f, es[..|es| - 1]) + InlineKeyBytes(f, es[|es| - 1].key)
  }

  function ExternalKeys<K, V>(f: Form<K>, es: seq<Entry<K, V>>): nat {
    if es == [] then 0 else ExternalKeys(f, es[..|es| - 1]) + if External(f, es[|es| - 1].key) then 1 else 0
  }

  /** These entries may share one block: an oversized key needs a block of its own. */
  predicate Fits<K, V>(f: Form<K>, es: seq<Entry<K, V>>) {
    && |es| <= f.capacity
    && (f.PackedForm? ==> InlineBytes(f, es) <= f.payload && (|es| == 1 || ExternalKeys(f, es) == 0))
  }

  lemma {:induction false} TotalsAppend<K, V>(f: Form<K>, a: seq<Entry<K, V>>, b: seq<Entry<K, V>>)
    ensures InlineBytes(f, a + b) == InlineBytes(f, a) + InlineBytes(f, b)
    ensures ExternalKeys(f, a + b) == ExternalKeys(f, a) + ExternalKeys(f, b)
  {
    if b == [] {
      assert a + b == a;
    } else {
      assert (a + b)[..|a + b| - 1] == a + b[..|b| - 1];
      TotalsAppend(f, a, b[..|b| - 1]);
    }
  }

  /** Fitting is closed under dropping any run of entries. */
  lemma FitsPart<K, V>(f: Form<K>, a: seq<Entry<K, V>>, b: seq<Entry<K, V>>, c: seq<Entry<K, V>>)
    requires Fits(f, a + b + c)
    ensures Fits(f, a + c) && Fits(f, b)
  {
    TotalsAppend(f, a + b, c);
    TotalsAppend(f, a, b);
    TotalsAppend(f, a, c);
    assert |a| == 0 ==> a == [];
    assert |b| == 0 ==> b == [];
  }

  lemma FitsSlice<K, V>(f: Form<K>, es: seq<Entry<K, V>>, lo: nat, hi: nat)
    requires lo <= hi <= |es| && Fits(f, es)
    ensures Fits(f, es[lo..hi])
  {
    assert es == es[..lo] + es[lo..hi] + es[hi..];
    FitsPart(f, es[..lo], es[lo..hi], es[hi..]);
  }

  /** Any single entry fits, however large its key. */
  lemma FitsSingle<K, V>(f: Form<K>, e: Entry<K, V>)
    requires f.capacity >= 1
    ensures Fits(f, [e])
  {
    assert [e][..0] == [];
  }

  /** Only the keys decide, so overwriting a value never changes what fits. */
  lemma {:induction false} FitsByKeys<K, V>(f: Form<K>, a: seq<Entry<K, V>>, b: seq<Entry<K, V>>)
    requires |a| == |b| && forall i :: 0 <= i < |a| ==> a[i].key == b[i].key
    ensures InlineBytes(f, a) == InlineBytes(f, b) && ExternalKeys(f, a) == ExternalKeys(f, b)
    ensures Fits(f, a) == Fits(f, b)
  {
    if a != [] {
      FitsByKeys(f, a[..|a| - 1], b[..|b| - 1]);
    }
  }

  /** Where the new entry goes does not matter, so testing it at the end decides for every index. */
  lemma FitsAnywhere<K, V>(f: Form<K>, block: seq<Entry<K, V>>, index: nat, e: Entry<K, V>)
    requires index <= |block|
    ensures Fits(f, block + [e]) == Fits(f, WithInserted(block, index, e))
  {
    var head, tail := block[..index], block[index..];
    assert block == head + tail;
    TotalsAppend(f, head + tail, [e]);
    TotalsAppend(f, head, tail);
    TotalsAppend(f, head + [e], tail);
    TotalsAppend(f, head, [e]);
  }

  // -------------------------------------------------------- accumulating a summary

  /** The running totals AccumulateKey updates. */
  class FitSummary {
    var count: nat
    var inlineBytes: nat
    var hasExternalKey: bool

    constructor ()
      ensures count == 0 && inlineBytes == 0 && !hasExternalKey
    {
      count, inlineBytes, hasExternalKey := 0, 0, false;
    }

    /** The totals of the accepted entries. */
    ghost predicate Describes<K, V>(f: Form<K>, es: seq<Entry<K, V>>)
      reads this
    {
      && count == |es|
      && inlineBytes == InlineBytes(f, es)
      && hasExternalKey == (ExternalKeys(f, es) > 0)
    }

    /** Adds one key; false as soon as the keys seen so far no longer share a block. */
    method AccumulateKey<K, V>(f: Form<K>, ghost seen: seq<Entry<K, V>>, e: Entry<K, V>) returns (ok: bool)
      requires f.PackedForm? && Describes(f, seen) && Fits(f, seen)
      modifies this
      ensures ok == Fits(f, seen + [e])
      ensures ok ==> Describes(f, seen + [e])
    {
      ghost var all := seen + [e];
      TotalsAppend(f, seen, [e]);
      assert [e][..0] == [];
      count := count + 1;
      if External(f, e.key) {
        hasExternalKey := true;
      } else {
        var bytes := f.keySize(e.key);
        if bytes > f.payload - inlineBytes {
          return false;
        }
        inlineBytes := inlineBytes + bytes;
      }
      ok := if count > f.capacity then false
            else if hasExternalKey then count == 1
            else inlineBytes <= f.payload;
    }
  }

  /** The loop over AccumulateKey decides exactly the fit predicate. */
  method EntriesFit<K, V>(f: Form<K>, es: seq<Entry<K, V>>) returns (ok: bool)
    requires f.PackedForm?
    ensures ok == Fits(f, es)
  {
    var summary := new FitSummary();
    for i := 0 to |es|
      invariant summary.Describes(f, es[..i])
      invariant Fits(f, es[..i])
    {
      assert es[..i + 1] == es[..i] + [es[i]];
      var more := summary.AccumulateKey(f, es[..i], es[i]);
      if !more {
        if Fits(f, es) { FitsSlice(f, es, 0, i + 1); }
        return false;
      }
    }
    assert es[..|es|] == es;
    return true;
  }

  // ------------------------------------------------------------------ searching

  /** Binary search inside a block finds the same position as counting smaller keys. */
  method LowerBoundSearch<K(!new), V>(less: (K, K) -> bool, block: seq<Entry<K, V>>, key: K) returns (first: nat)
    requires StrictWeakOrder(less) && Sorted(less, block)
    ensures first == LowerBound(less, block, key)
  {
    first := 0;
    var length := |block|;
    while length > 0
      invariant 0 <= length && first + length <= |block|
      invariant forall i :: 0 <= i < first ==> less(block[i].key, key)
      invariant first + length < |block| ==> !less(block[first + length].key, key)
    {
      var half := length / 2;
      var middle := first + half;
      if less(block[middle].key, key) {
        forall i | 0 <= i < middle ensures less(block[i].key, key) {
          assert less(block[i].key, block[middle].key);
        }
        first := middle + 1;
        length := length - (half + 1);
      } else {
        length := half;
      }
    }
    LowerBoundUnique(less, block, key, first);
  }

  method FindValue<K(!new), V>(less: (K, K) -> bool, block: seq<Entry<K, V>>, key: K) returns (r: Option<V>)
    requires StrictWeakOrder(less) && Sorted(less, block)
    ensures r == Find(less, block, key)
  {
    var index := LowerBoundSearch(less, block, key);
    if index == |block| {
      return None;
    }
    if less(key, block[index].key) || less(block[index].key, key) {
      return None;
    }
    return Some(block[index].value);
  }

  // ------------------------------------------------------------ building blocks

  function WithInserted<E>(block: seq<E>, index: nat, e: E): seq<E>
    requires index <= |block|
  {
    block[..index] + [e] + block[index..]
  }

  function WithUpdated<K, V>(block: seq<Entry<K, V>>, index: nat, value: V): seq<Entry<K, V>>
    requires index < |block|
  {
    block[index := Entry(block[index].key, value)]
  }

  function WithErased<E>(block: seq<E>, index: nat): seq<E>
    requires index < |block|
  {
    block[..index] + block[index + 1..]
  }

  predicate Full<K, V>(f: Form<K>, block: seq<Entry<K, V>>) {
    |block| == f.capacity || (f.PackedForm? && f.keysOnly && InlineBytes(f, block) == f.payload)
  }

  predicate CanInsert<K, V>(f: Form<K>, block: seq<Entry<K, V>>, e: Entry<K, V>) {
    |block| != f.capacity && Fits(f, block + [e])
  }

  /** Only the index decides, in all three forms. */
  predicate CanUpdate<K, V>(block: seq<Entry<K, V>>, index: nat) {
    index < |block|
  }

  predicate CanMerge<K, V>(f: Form<K>, left: seq<Entry<K, V>>, right: seq<Entry<K, V>>) {
    Fits(f, left + right)
  }

  /** Two halves in the generic list, greedy packing in the packed ones. */
  function SplitWithInserted<K, V>(f: Form<K>, block: seq<Entry<K, V>>, index: nat, e: Entry<K, V>): seq<seq<Entry<K, V>>>
    requires index <= |block|
  {
    var entries := WithInserted(block, index, e);
    if f.CountForm? then [entries[..|entries| / 2], entries[|entries| / 2..]] else GreedyPack(f, entries)
  }

  /** The split an update would need; for an index out of range, where the source throws, nothing. */
  function SplitWithUpdated<K, V>(f: Form<K>, block: seq<Entry<K, V>>, index: nat, value: V): seq<seq<Entry<K, V>>> {
    if index >= |block| then []
    else
      var entries := WithUpdated(block, index, value);
      if f.CountForm? then [entries[..|entries| / 2], entries[|entries| / 2..]] else GreedyPack(f, entries)
  }

  // -------------------------------------------------------------- greedy packing

  function Longest<K, V>(f: Form<K>, es: seq<Entry<K, V>>, end: nat): (n: nat)
    requires end <= |es|
    ensures end <= n <= |es|
    decreases |es| - end
  {
    if end < |es| && Fits(f, es[..end + 1]) then Longest(f, es, end + 1) else end
  }

  function GreedyPack<K, V>(f: Form<K>, es: seq<Entry<K, V>>): seq<seq<Entry<K, V>>> {
    if es == [] then [] else
      var n := Longest(f, es, 1);
      [es[..n]] + GreedyPack(f, es[n..])
  }

  /** Neighbours that could not share a block. */
  ghost predicate NoFit<K, V>(f: Form<K>, blocks: seq<seq<Entry<K, V>>>) {
    forall i :: 0 <= i < |blocks| - 1 ==> !CanMerge(f, blocks[i], blocks[i + 1])
  }

  ghost predicate AllFit<K, V>(f: Form<K>, blocks: seq<seq<Entry<K, V>>>) {
    forall i :: 0 <= i < |blocks| ==> blocks[i] != [] && Fits(f, blocks[i])
  }

  /** Longest stops exactly at the longest fitting prefix. */
  lemma {:induction false} LongestIsMaximal<K, V>(f: Form<K>, es: seq<Entry<K, V>>, end: nat, m: nat)
    requires end <= |es| && m <= |es| && Fits(f, es[..end])
    ensures Fits(f, es[..Longest(f, es, end)])
    ensures Fits(f, es[..m]) ==> m <= Longest(f, es, end)
    decreases |es| - end
  {
    if end < |es| && Fits(f, es[..end + 1]) {
      LongestIsMaximal(f, es, end + 1, m);
    } else if m > end && Fits(f, es[..m]) {
      assert es[..end + 1] == es[..m][0..end + 1];
      FitsSlice(f, es[..m], 0, end + 1);
    }
  }

  /** Greedy packing cuts the entries into non-empty fitting blocks, no two neighbours mergeable. */
  lemma {:induction false} GreedyPackPartitions<K, V>(f: Form<K>, es: seq<Entry<K, V>>)
    requires f.capacity >= 1
    ensures Flatten(GreedyPack(f, es)) == es
    ensures AllFit(f, GreedyPack(f, es))
    ensures NoFit(f, GreedyPack(f, es))
  {
    hide Fits, CanMerge, Longest;
    if es != [] {
      FitsSingle(f, es[0]);
      assert es[..1] == [es[0]];
      var n := Longest(f, es, 1);
      LongestIsMaximal(f, es, 1, n);
      GreedyPackPartitions(f, es[n..]);
      var rest := GreedyPack(f, es[n..]);
      assert GreedyPack(f, es) == [es[..n]] + rest;
      if rest != [] {
        assert es[n..] == rest[0] + Flatten(rest[1..]);
        NextDoesNotFit(f, es, n, rest[0]);
      }
    }
  }

  lemma NextDoesNotFit<K, V>(f: Form<K>, es: seq<Entry<K, V>>, n: nat, next: seq<Entry<K, V>>)
    requires 1 <= |es| && Fits(f, es[..1]) && n == Longest(f, es, 1)
    requires next != [] && next <= es[n..]
    ensures !CanMerge(f, es[..n], next)
  {
    var both := es[..n] + next;
    assert both[0..n + 1] == es[..n + 1];
    if Fits(f, both) {
      FitsSlice(f, both, 0, n + 1);
      LongestIsMaximal(f, es, 1, n + 1);
    }
  }

  lemma LaterParts<T>(parts: seq<seq<T>>, i: nat)
    requires parts != [] && |parts[0]| <= i <= |Flatten(parts)|
    ensures i - |parts[0]| <= |Flatten(parts[1..])| && Flatten(parts)[i..] == Flatten(parts[1..])[i - |parts[0]|..]
  {
  }

  /** The first block takes at least any fitting prefix. */
  lemma GreedyStep<K, V>(f: Form<K>, es: seq<Entry<K, V>>, m: nat) returns (n: nat)
    requires f.capacity >= 1 && 1 <= m <= |es| && Fits(f, es[..m])
    ensures m <= n <= |es| && |GreedyPack(f, es)| == 1 + |GreedyPack(f, es[n..])|
  {
    hide Fits, Longest;
    FitsSingle(f, es[0]);
    assert es[..1] == [es[0]];
    LongestIsMaximal(f, es, 1, m);
    n := Longest(f, es, 1);
  }

  /** No in-order partition into fitting blocks uses fewer blocks than greedy packing of any of its suffixes. */
  lemma {:induction false} GreedyPackFewest<K, V>(f: Form<K>, parts: seq<seq<Entry<K, V>>>, skip: nat)
    requires f.capacity >= 1
    requires skip <= |Flatten(parts)|
    requires forall i :: 0 <= i < |parts| ==> Fits(f, parts[i])
    ensures |GreedyPack(f, Flatten(parts)[skip..])| <= |parts|
  {
    hide Fits, Longest;
    var es := Flatten(parts);
    var rest := es[skip..];
    if rest != [] {
      var p := |parts[0]|;
      if p <= skip {
        LaterParts(parts, skip);
        GreedyPackFewest(f, parts[1..], skip - p);
      } else {
        FitsSlice(f, parts[0], skip, p);
        assert rest[..p - skip] == parts[0][skip..p];
        var n := GreedyStep(f, rest, p - skip);
        assert es[skip + n..] == rest[n..];
        LaterParts(parts, skip + n);
        GreedyPackFewest(f, parts[1..], skip + n - p);
      }
    }
  }

  /** The fewest blocks of any in-order partition. */
  lemma GreedyPackOptimal<K, V>(f: Form<K>, es: seq<Entry<K, V>>, parts: seq<seq<Entry<K, V>>>)
    requires f.capacity >= 1
    requires Flatten(parts) == es && forall i :: 0 <= i < |parts| ==> Fits(f, parts[i])
    ensures |GreedyPack(f, es)| <= |parts|
  {
    assert es[0..] == es;
    GreedyPackFewest(f, parts, 0);
  }

  datatype PackError = SingleEntryExceedsCapacity

  /** The packing loop of the packed lists computes the greedy partition and never throws. */
  method PackEntriesIntoBlocks<K, V>(f: Form<K>, entries: seq<Entry<K, V>>)
    returns (r: Result<seq<seq<Entry<K, V>>>, PackError>)
    requires f.PackedForm? && f.capacity >= 1
    ensures r == Success(GreedyPack(f, entries))
  {
    hide Fits;
    var blocks := [];
    var begin := 0;
    while begin < |entries|
      invariant begin <= |entries|
      invariant blocks + GreedyPack(f, entries[begin..]) == GreedyPack(f, entries)
    {
      var end := begin + 1;
      ghost var rest := entries[begin..];
      assert rest[..1] == entries[begin..end] == [entries[begin]];
      FitsSingle(f, entries[begin]);
      var single := EntriesFit(f, entries[begin..end]);
      if !single {
        return Failure(SingleEntryExceedsCapacity);
      }
      while end < |entries|
        invariant begin < end <= |entries|
        invariant Longest(f, rest, end - begin) == Longest(f, rest, 1)
        decreases |entries| - end
      {
        assert rest[..end + 1 - begin] == entries[begin..end + 1];
        var more := EntriesFit(f, entries[begin..end + 1]);
        if !more { break; }
        end := end + 1;
      }
      assert end - begin == Longest(f, rest, 1);
      assert rest[end - begin..] == entries[end..];
      assert GreedyPack(f, rest) == [rest[..end - begin]] + GreedyPack(f, entries[end..]);
      assert rest[..end - begin] == entries[begin..end];
      blocks := blocks + [entries[begin..end]];
      begin := end;
    }
    assert entries[begin..] == [];
    assert blocks + [] == blocks;
    r := Success(blocks);
  }

  lemma {:induction false} LongestByCount<K, V>(f: Form<K>, es: seq<Entry<K, V>>, end: nat)
    requires f.CountForm? && end <= |es| && end <= f.capacity
    ensures Longest(f, es, end) == Min(|es|, f.capacity)
    decreases |es| - end
  {
    if end < |es| && end < f.capacity {
      LongestByCount(f, es, end + 1);
    }
  }

  /** The chunking loop of the generic list is greedy packing by count. */
  method PackSortedEntriesIntoBlocks<K, V>(f: Form<K>, entries: seq<Entry<K, V>>) returns (blocks: seq<seq<Entry<K, V>>>)
    requires f.CountForm? && f.capacity >= 1
    ensures blocks == GreedyPack(f, entries)
  {
    blocks := [];
    var begin := 0;
    while begin < |entries|
      invariant begin <= |entries|
      invariant blocks + GreedyPack(f, entries[begin..]) == GreedyPack(f, entries)
    {
      var end := Min(|entries|, begin + f.capacity);
      ghost var rest := entries[begin..];
      LongestByCount(f, rest, 1);
      assert rest[..end - begin] == entries[begin..end];
      assert rest[end - begin..] == entries[end..];
      assert GreedyPack(f, rest) == [rest[..end - begin]] + GreedyPack(f, entries[end..]);
      blocks := blocks + [entries[begin..end]];
      begin := end;
    }
  }
}
