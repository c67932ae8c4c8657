/** The packed map block: key bytes grow up from the start of a fixed buffer and value bytes grow
    down from its end, within a budget that keeps room for every key. */
module PackedArena {
  import opened Prelude
  import opened SortedMap
  import opened ZipList

  type Item = Entry<string, string>

  const EXTERNAL_KEY_MARKER := 0xFFFF
  const INLINE_CAPACITY := 14
  const INLINE_VALUE_THRESHOLD := 64

  /** Offset and size of key bytes in the buffer, or an index into the external keys and the marker. */
  datatype KeyRef = KeyRef(offsetOrIndex: nat, sizeOrMarker: nat)

  /** A value that points at bytes kept elsewhere, or one that keeps them itself. The pointer is an address, so the
      slot means something only together with the address at which a buffer starts. */
  datatype Slot = Borrowed(data: nat, size: nat) | Owned(text: string)

  datatype BlockError = BlockIsFull | EntriesExceedCapacity | PayloadCapacityExceeded | IndexOutOfRange | MergedEntriesExceedCapacity

  function KeySize(key: string): nat {
    |key|
  }

  function Shape(capacity: nat, payloadBytes: nat): Form<string> {
    PackedForm(capacity, payloadBytes, KeySize, false)
  }

  /** The bytes of all keys, one after the other. */
  function KeyBytes(es: seq<Item>): string {
    if es == [] then "" else KeyBytes(es[..|es| - 1]) + es[|es| - 1].key
  }

  lemma {:induction false} KeyBytesCounted(f: Form<string>, es: seq<Item>)
    requires f.PackedForm? && f.keySize == KeySize
    ensures ExternalKeys(f, es) == 0 ==> InlineBytes(f, es) == |KeyBytes(es)|
    ensures ExternalKeys(f, es) > 0 ==> |KeyBytes(es)| > f.payload
  {
    if es != [] {
      KeyBytesCounted(f, es[..|es| - 1]);
    }
  }

  /** What the fit predicate means: at most one entry, or keys that have room in the buffer together. */
  lemma FitsIsRoom(capacity: nat, payloadBytes: nat, es: seq<Item>)
    ensures Fits(Shape(capacity, payloadBytes), es) <==> |es| <= capacity && (|es| == 1 || |KeyBytes(es)| <= payloadBytes)
  {
    var f := Shape(capacity, payloadBytes);
    KeyBytesCounted(f, es);
    if |es| == 1 {
      assert es[..0] == [];
    }
  }

  function KeyRefIsExternal(ref: KeyRef): bool {
    ref.sizeOrMarker == EXTERNAL_KEY_MARKER
  }

  /** The room left for values when the keys need keyBytes. */
  function ValueInlineBudget(payloadBytes: nat, keyBytes: nat): nat {
    if keyBytes >= payloadBytes then 0 else payloadBytes - keyBytes
  }

  function KeyText(payload: seq<char>, externalKeys: seq<string>, ref: KeyRef): string {
    if KeyRefIsExternal(ref) then (if ref.offsetOrIndex < |externalKeys| then externalKeys[ref.offsetOrIndex] else "")
    else if ref.offsetOrIndex + ref.sizeOrMarker <= |payload| then payload[ref.offsetOrIndex..ref.offsetOrIndex + ref.sizeOrMarker]
    else ""
  }

  /** What a slot reads when the buffer starts at base; a pointer outside the buffer reads nothing of it. */
  function ValueText(base: nat, payload: seq<char>, slot: Slot): string {
    match slot
    case Owned(text) => text
    case Borrowed(data, size) =>
      if base <= data && data - base + size <= |payload| then payload[data - base..data - base + size] else ""
  }

  function Contents(base: nat, payload: seq<char>, externalKeys: seq<string>, refs: seq<KeyRef>, slots: seq<Slot>): (es: seq<Item>)
    requires |refs| == |slots|
    ensures |es| == |refs|
    ensures forall i :: 0 <= i < |es| ==> es[i] == Entry(KeyText(payload, externalKeys, refs[i]), ValueText(base, payload, slots[i]))
  {
    seq(|refs|, i requires 0 <= i < |refs| => Entry(KeyText(payload, externalKeys, refs[i]), ValueText(base, payload, slots[i])))
  }

  /** Inline keys follow one another below used; oversized keys stand in their own list. */
  ghost predicate KeysLaid(refs: seq<KeyRef>, used: nat, externals: nat) {
    && (forall i :: 0 <= i < |refs| ==>
          if KeyRefIsExternal(refs[i]) then refs[i].offsetOrIndex < externals else refs[i].offsetOrIndex + refs[i].sizeOrMarker <= used)
    && (forall i, j :: 0 <= i < j < |refs| && !KeyRefIsExternal(refs[i]) && !KeyRefIsExternal(refs[j]) ==>
          refs[i].offsetOrIndex + refs[i].sizeOrMarker <= refs[j].offsetOrIndex)
  }

  /** Inline values are of middling size and precede one another between the addresses start and end. */
  ghost predicate ValuesLaid(slots: seq<Slot>, start: nat, end: nat) {
    && (forall i :: 0 <= i < |slots| && slots[i].Borrowed? ==> INLINE_CAPACITY < slots[i].size <= INLINE_VALUE_THRESHOLD)
    && (forall i :: 0 <= i < |slots| && slots[i].Borrowed? ==> start <= slots[i].data && slots[i].data + slots[i].size <= end)
    && (forall i, j :: 0 <= i < j < |slots| && slots[i].Borrowed? && slots[j].Borrowed? ==> slots[j].data + slots[j].size <= slots[i].data)
  }

  /** Writing a free stretch of the buffer changes no stored key and no stored value. */
  lemma ContentsKept(base: nat, payload: seq<char>, after: seq<char>, ext: seq<string>, extAfter: seq<string>, refs: seq<KeyRef>, slots: seq<Slot>,
                     used: nat, start: nat)
    requires |refs| == |slots| && |after| == |payload| && used <= start <= |payload|
    requires KeysLaid(refs, used, |ext|) && ValuesLaid(slots, base + start, base + |payload|)
    requires ext <= extAfter && (forall b :: 0 <= b < |payload| && !(used <= b < start) ==> after[b] == payload[b])
    ensures Contents(base, after, extAfter, refs, slots) == Contents(base, payload, ext, refs, slots)
  {
    var before, now := Contents(base, payload, ext, refs, slots), Contents(base, after, extAfter, refs, slots);
    forall i | 0 <= i < |refs| ensures now[i] == before[i] {
      if !KeyRefIsExternal(refs[i]) {
        StretchKept(payload, after, used, start, refs[i].offsetOrIndex, refs[i].sizeOrMarker);
      }
      if slots[i].Borrowed? {
        StretchKept(payload, after, used, start, slots[i].data - base, slots[i].size);
      }
    }
  }

  lemma StretchKept(payload: seq<char>, after: seq<char>, used: nat, start: nat, o: nat, n: nat)
    requires |after| == |payload| && o + n <= |payload| && (o + n <= used || start <= o)
    requires forall b :: 0 <= b < |payload| && !(used <= b < start) ==> after[b] == payload[b]
    ensures after[o..o + n] == payload[o..o + n]
  {
  }

  lemma ContentsSnoc(base: nat, payload: seq<char>, ext: seq<string>, refs: seq<KeyRef>, slots: seq<Slot>, ref: KeyRef, slot: Slot)
    requires |refs| == |slots|
    ensures Contents(base, payload, ext, refs + [ref], slots + [slot])
         == Contents(base, payload, ext, refs, slots) + [Entry(KeyText(payload, ext, ref), ValueText(base, payload, slot))]
  {
  }

  /** With the budget of a whole target, the next key of the target always finds room, whatever the
      values stored so far. */
  lemma BudgetLeavesRoom(f: Form<string>, target: seq<Item>, i: nat, valueUsed: nat)
    requires f.PackedForm? && f.keySize == KeySize && i < |target| && Fits(f, target[..i + 1])
    requires valueUsed <= ValueInlineBudget(f.payload, InlineBytes(f, target))
    ensures InlineKeyBytes(f, target[i].key) <= f.payload - InlineBytes(f, target[..i]) - valueUsed
    ensures Fits(f, target[..i])
  {
    hide Fits, InlineBytes, ExternalKeys;
    var stored := target[..i + 1];
    assert stored[0..i] == target[..i] && stored == target[..i] + [target[i]];
    FitsSlice(f, stored, 0, i);
    FitsPayload(f, stored);
    TotalsSnoc(f, target[..i], target[i]);
    assert target == stored + target[i + 1..];
    TotalsAppend(f, stored, target[i + 1..]);
  }

  lemma FitsPayload(f: Form<string>, es: seq<Item>)
    requires f.PackedForm? && Fits(f, es)
    ensures InlineBytes(f, es) <= f.payload
  {
  }

  lemma EmptyFits(f: Form<string>)
    ensures Fits<string, string>(f, [])
  {
  }

  /** Appending one stored entry to the layout. */
  lemma LaidSnoc(refs: seq<KeyRef>, slots: seq<Slot>, used: nat, start: nat, end: nat, externals: nat,
                 ref: KeyRef, slot: Slot, usedAfter: nat, startAfter: nat, externalsAfter: nat)
    requires KeysLaid(refs, used, externals) && ValuesLaid(slots, start, end)
    requires used <= usedAfter && startAfter <= start && externals <= externalsAfter
    requires if KeyRefIsExternal(ref) then ref.offsetOrIndex < externalsAfter else ref.offsetOrIndex == used && used + ref.sizeOrMarker <= usedAfter
    requires slot.Borrowed? ==> INLINE_CAPACITY < slot.size <= INLINE_VALUE_THRESHOLD
    requires slot.Borrowed? ==> slot.data == startAfter && startAfter + slot.size == start <= end
    ensures KeysLaid(refs + [ref], usedAfter, externalsAfter) && ValuesLaid(slots + [slot], startAfter, end)
  {
  }

  lemma TotalsSnoc(f: Form<string>, es: seq<Item>, e: Item)
    ensures InlineBytes(f, es + [e]) == InlineBytes(f, es) + InlineKeyBytes(f, e.key)
    ensures ExternalKeys(f, es + [e]) == ExternalKeys(f, es) + if External(f, e.key) then 1 else 0
  {
    TotalsAppend(f, es, [e]);
    assert [e][..0] == [];
  }

  /** What the fields of a block promise about one another. */
  ghost predicate Layout(f: Form<string>, base: nat, payload: seq<char>, externalKeys: seq<string>, refs: seq<KeyRef>, slots: seq<Slot>, used: nat, valueUsed: nat) {
    && |refs| == |slots| && used + valueUsed <= |payload|
    && KeysLaid(refs, used, |externalKeys|)
    && ValuesLaid(slots, base + |payload| - valueUsed, base + |payload|)
    && Oversized(externalKeys, |payload|)
    && Accounted(f, Contents(base, payload, externalKeys, refs, slots), used, |externalKeys|)
  }

  predicate Accounted(f: Form<string>, es: seq<Item>, used: nat, externals: nat) {
    used == InlineBytes(f, es) && externals == ExternalKeys(f, es) && Fits(f, es)
  }

  predicate Oversized(externalKeys: seq<string>, payloadBytes: nat) {
    forall k :: 0 <= k < |externalKeys| ==> |externalKeys[k]| > payloadBytes
  }

  /** The layout after one entry has been stored behind the others. */
  lemma LayoutSnoc(f: Form<string>, base: nat, before: seq<char>, after: seq<char>, ext: seq<string>, extAfter: seq<string>, refs: seq<KeyRef>, slots: seq<Slot>,
                   used: nat, valueUsed: nat, usedAfter: nat, valueUsedAfter: nat, ref: KeyRef, slot: Slot, e: Item)
    requires f.PackedForm? && Layout(f, base, before, ext, refs, slots, used, valueUsed)
    requires |after| == |before| && used <= usedAfter && valueUsed <= valueUsedAfter && usedAfter + valueUsedAfter <= |after|
    requires forall b :: 0 <= b < |after| && !(used <= b < |after| - valueUsed) ==> after[b] == before[b]
    requires extAfter == (if External(f, e.key) then ext + [e.key] else ext) && f.keySize == KeySize && f.payload == |before|
    requires KeyRefIsExternal(ref) == External(f, e.key) && usedAfter == used + InlineKeyBytes(f, e.key)
    requires if KeyRefIsExternal(ref) then ref.offsetOrIndex == |ext| else ref.offsetOrIndex == used && used + ref.sizeOrMarker == usedAfter
    requires slot.Borrowed? ==> INLINE_CAPACITY < slot.size <= INLINE_VALUE_THRESHOLD
    requires slot.Borrowed? ==> slot.data == base + |after| - valueUsedAfter && slot.size == valueUsedAfter - valueUsed
    requires KeyText(after, extAfter, ref) == e.key && ValueText(base, after, slot) == e.value
    requires Fits(f, Contents(base, before, ext, refs, slots) + [e])
    ensures Layout(f, base, after, extAfter, refs + [ref], slots + [slot], usedAfter, valueUsedAfter)
    ensures Contents(base, after, extAfter, refs + [ref], slots + [slot]) == Contents(base, before, ext, refs, slots) + [e]
  {
    hide Fits, Contents, KeyText, ValueText, KeysLaid, ValuesLaid;
    var es := Contents(base, before, ext, refs, slots);
    TotalsSnoc(f, es, e);
    ContentsKept(base, before, after, ext, extAfter, refs, slots, used, |before| - valueUsed);
    ContentsSnoc(base, after, extAfter, refs, slots, ref, slot);
    LaidSnoc(refs, slots, used, base + |after| - valueUsed, base + |after|, |ext|, ref, slot, usedAfter, base + |after| - valueUsedAfter, |extAfter|);
  }

  /** The end counts as inside: a pointer of length zero may stand there. */
  predicate InPayload(base: nat, payloadBytes: nat, data: nat) {
    base <= data <= base + payloadBytes
  }

  /** A slot taken over from a buffer at one address by a buffer at another. */
  function Rebase(slot: Slot, from: nat, to: nat, payloadBytes: nat): Slot {
    if slot.Borrowed? && InPayload(from, payloadBytes, slot.data) then Borrowed(to + (slot.data - from), slot.size) else slot
  }

  /** Every borrowed value of a laid out block passes the pointer test, so every one is re-based; the re-based slots
      read the same bytes at the new address and are laid out there as they were at the old one. */
  lemma Rebased(f: Form<string>, from: nat, to: nat, payload: seq<char>, ext: seq<string>, refs: seq<KeyRef>, slots: seq<Slot>, moved: seq<Slot>,
                used: nat, valueUsed: nat)
    requires Layout(f, from, payload, ext, refs, slots, used, valueUsed) && |moved| == |slots|
    requires forall i :: 0 <= i < |slots| ==> moved[i] == Rebase(slots[i], from, to, |payload|)
    ensures forall i :: 0 <= i < |slots| && slots[i].Borrowed? ==> InPayload(from, |payload|, slots[i].data)
    ensures forall i :: 0 <= i < |slots| && slots[i].Borrowed? ==>
              moved[i].Borrowed? && moved[i].size == slots[i].size && moved[i].data - to == slots[i].data - from
    ensures Layout(f, to, payload, ext, refs, moved, used, valueUsed)
    ensures Contents(to, payload, ext, refs, moved) == Contents(from, payload, ext, refs, slots)
  {
    hide Fits, InlineBytes, ExternalKeys, KeysLaid;
    var before, after := Contents(from, payload, ext, refs, slots), Contents(to, payload, ext, refs, moved);
    forall i | 0 <= i < |refs| ensures after[i] == before[i] {
      assert ValueText(to, payload, moved[i]) == ValueText(from, payload, slots[i]);
    }
    assert after == before;
  }

  /** Without the re-basing the move would lose values: in a buffer elsewhere, slots taken over as they are keep the
      layout exactly when all of them keep their own bytes. */
  lemma StalePointers(f: Form<string>, from: nat, to: nat, payload: seq<char>, ext: seq<string>, refs: seq<KeyRef>, slots: seq<Slot>, used: nat, valueUsed: nat)
    requires Layout(f, from, payload, ext, refs, slots, used, valueUsed)
    requires from + |payload| <= to || to + |payload| <= from
    ensures Layout(f, to, payload, ext, refs, slots, used, valueUsed) <==> forall i :: 0 <= i < |slots| ==> slots[i].Owned?
  {
    hide Fits, InlineBytes, ExternalKeys, KeysLaid;
    if forall i :: 0 <= i < |slots| ==> slots[i].Owned? {
      assert Contents(to, payload, ext, refs, slots) == Contents(from, payload, ext, refs, slots);
    }
  }

  class PackedBlock {
    const capacity: nat
    const payloadBytes: nat
    const keyRefs: array<KeyRef>
    const values: array<Slot>
    const payload: array<char>
    const base: nat
    var count: nat
    var payloadUsed: nat
    var valuePayloadUsed: nat
    var externalKeys: seq<string>

    ghost function Form(): Form<string> {
      Shape(capacity, payloadBytes)
    }

    ghost predicate Sized()
      reads this
    {
      && 1 <= capacity <= EXTERNAL_KEY_MARKER && payloadBytes < EXTERNAL_KEY_MARKER
      && keyRefs.Length == values.Length == capacity && payload.Length == payloadBytes
      && count <= capacity && payloadUsed + valuePayloadUsed <= payloadBytes
    }

    /** The entries of the block. */
    ghost function Entries(): (es: seq<Item>)
      requires Sized()
      reads this, keyRefs, values, payload
      ensures |es| == count
    {
      Contents(base, payload[..], externalKeys, keyRefs[..count], values[..count])
    }

    ghost predicate Valid()
      reads this, keyRefs, values, payload
    {
      Sized() && Layout(Form(), base, payload[..], externalKeys, keyRefs[..count], values[..count], payloadUsed, valuePayloadUsed)
    }

    lemma Facts()
      requires Valid()
      ensures |externalKeys| <= 1 && payloadUsed == InlineBytes(Form(), Entries()) && Fits(Form(), Entries())
    {
      ExternalsFew(Form(), Entries());
    }

    /** The allocator chooses the address of the buffer. */
    constructor (capacity: nat, payloadBytes: nat)
      requires 1 <= capacity <= EXTERNAL_KEY_MARKER && payloadBytes < EXTERNAL_KEY_MARKER
      ensures Valid() && Entries() == [] && valuePayloadUsed == 0
      ensures this.capacity == capacity && this.payloadBytes == payloadBytes
      ensures fresh(keyRefs) && fresh(values) && fresh(payload)
    {
      this.capacity, this.payloadBytes := capacity, payloadBytes;
      keyRefs := new KeyRef[capacity](_ => KeyRef(0, 0));
      values := new Slot[capacity](_ => Owned(""));
      payload := new char[payloadBytes](_ => '\0');
      base := *;
      count, payloadUsed, valuePayloadUsed, externalKeys := 0, 0, 0, [];
    }

    function RemainingPayload(): int
      reads this
    {
      payloadBytes - payloadUsed - valuePayloadUsed
    }

    function BorrowedKeyAt(index: nat): string
      requires Sized() && index < count
      reads this, keyRefs, payload
    {
      KeyText(payload[..], externalKeys, keyRefs[index])
    }

    function ValueAt(index: nat): string
      requires Sized() && index < count
      reads this, values, payload
    {
      ValueText(base, payload[..], values[index])
    }

    /** The loop over the stored keys and the new one decides the fit predicate. */
    method CanInsert(key: string) returns (ok: bool)
      requires Valid()
      ensures forall value :: ok == ZipList.CanInsert(Form(), Entries(), Entry(key, value))
    {
      hide Fits, Layout, Contents, InlineBytes, ExternalKeys, KeyText, ValueText, ZipList.CanInsert;
      var f := Shape(capacity, payloadBytes);
      ghost var es := Entries();
      Facts();
      AnyValueFits(f, es, key);
      if count == capacity {
        return false;
      }
      EmptyFits(f);
      assert es[..0] == [];
      var summary := new FitSummary();
      DescribesNothing(f, summary);
      for i := 0 to count
        invariant summary.Describes(f, es[..i]) && Fits(f, es[..i])
        invariant es == Entries()
      {
        assert es[..i + 1] == es[..i] + [es[i]];
        FitsSlice(f, es, 0, i + 1);
        var more := summary.AccumulateKey(f, es[..i], Entry(BorrowedKeyAt(i), ValueAt(i)));
        if !more {
          return false;
        }
      }
      assert es[..count] == es;
      ok := summary.AccumulateKey(f, es, Entry(key, ""));
    }

    /** Oversized keys go to the external list, others to the next free bytes from the start. */
    method StoreKey(key: string) returns (ok: bool, ref: KeyRef)
      requires Sized() && |externalKeys| < EXTERNAL_KEY_MARKER
      modifies `payloadUsed, `externalKeys, payload
      ensures Sized()
      ensures ok == (|key| > payloadBytes || |key| <= old(RemainingPayload()))
      ensures !ok ==> unchanged(this) && payload[..] == old(payload[..])
      ensures ok ==> KeyText(payload[..], externalKeys, ref) == key && old(externalKeys) <= externalKeys
      ensures ok && |key| > payloadBytes ==>
                ref == KeyRef(|old(externalKeys)|, 0xFFFF) && payloadUsed == old(payloadUsed) && externalKeys == old(externalKeys) + [key]
      ensures ok && |key| <= payloadBytes ==>
                ref == KeyRef(old(payloadUsed), |key|) && payloadUsed == old(payloadUsed) + |key| && externalKeys == old(externalKeys)
      ensures forall b :: 0 <= b < payloadBytes && !(old(payloadUsed) <= b < payloadUsed) ==> payload[b] == old(payload[b])
    {
      if |key| > payloadBytes {
        var index := |externalKeys|;
        externalKeys := externalKeys + [key];
        return true, KeyRef(index, EXTERNAL_KEY_MARKER);
      }
      if |key| > RemainingPayload() {
        return false, KeyRef(0, 0);
      }
      var offset := payloadUsed;
      forall b | offset <= b < offset + |key| {
        payload[b] := key[b - offset];
      }
      assert payload[..][offset..offset + |key|] == key;
      payloadUsed := payloadUsed + |key|;
      return true, KeyRef(offset, |key|);
    }

    predicate CanStoreValueInline(value: string, budget: nat)
      reads this
    {
      && INLINE_CAPACITY < |value| <= INLINE_VALUE_THRESHOLD
      && |value| <= RemainingPayload() && valuePayloadUsed + |value| <= budget
    }

    /** Values of middling size go to the last free bytes while the budget lasts; others keep their own bytes. */
    method ConstructValue(value: string, budget: nat)
      requires Sized() && count < capacity
      modifies `valuePayloadUsed, payload, values
      ensures Sized()
      ensures ValueText(base, payload[..], values[count]) == value
      ensures forall i :: 0 <= i < capacity && i != count ==> values[i] == old(values[i])
      ensures if 14 < |value| <= 64 && |value| <= old(RemainingPayload()) && old(valuePayloadUsed) + |value| <= budget
              then valuePayloadUsed == old(valuePayloadUsed) + |value| <= budget && values[count] == Borrowed(base + payloadBytes - valuePayloadUsed, |value|)
              else valuePayloadUsed == old(valuePayloadUsed) && values[count] == Owned(value)
      ensures forall b :: 0 <= b < payloadBytes && !(payloadBytes - valuePayloadUsed <= b < payloadBytes - old(valuePayloadUsed)) ==>
                payload[b] == old(payload[b])
    {
      if CanStoreValueInline(value, budget) {
        valuePayloadUsed := valuePayloadUsed + |value|;
        var offset := payloadBytes - valuePayloadUsed;
        forall b | offset <= b < offset + |value| {
          payload[b] := value[b - offset];
        }
        assert payload[..][offset..offset + |value|] == value;
        values[count] := Borrowed(base + offset, |value|);
      } else {
        values[count] := Owned(value);
      }
    }

    /** Stores one entry behind the others, or reports why not and leaves the block as it was. */
    method ConstructBack(key: string, value: string, budget: nat) returns (r: Result<bool, BlockError>)
      requires Valid()
      modifies this, keyRefs, values, payload
      ensures Valid()
      ensures r.Success? <==>
                && old(count) < capacity && Fits(Form(), old(Entries()) + [Entry(key, value)])
                && (|key| > payloadBytes || |key| <= old(RemainingPayload()))
      ensures r.Failure? ==> r.error == if old(count) == capacity then EntriesExceedCapacity else PayloadCapacityExceeded
      ensures Entries() == if r.Success? then old(Entries()) + [Entry(key, value)] else old(Entries())
      ensures valuePayloadUsed == old(valuePayloadUsed) || valuePayloadUsed <= budget
    {
      hide Fits, Layout, Contents, KeyText, ValueText, InlineBytes, ExternalKeys, ZipList.CanInsert;
      if count == capacity {
        return Failure(EntriesExceedCapacity);
      }
      var canInsert := CanInsert(key);
      ghost var e, f := Entry(key, value), Form();
      InsertMeansFits(f, Entries(), e);
      assert canInsert == ZipList.CanInsert(f, Entries(), e);
      if !canInsert {
        return Failure(PayloadCapacityExceeded);
      }
      Facts();
      ghost var bytes, ext, refs, slots, used, valueUsed := payload[..], externalKeys, keyRefs[..count], values[..count], payloadUsed, valuePayloadUsed;
      var ok, ref := StoreKey(key);
      if !ok {
        return Failure(PayloadCapacityExceeded);
      }
      ghost var stored := payload[..];
      ConstructValue(value, budget);
      assert valueUsed <= valuePayloadUsed && (valuePayloadUsed == valueUsed || valuePayloadUsed <= budget);
      KeyKept(stored, payload[..], externalKeys, ref, used, payloadUsed);
      LayoutSnoc(f, base, bytes, payload[..], ext, externalKeys, refs, slots, used, valueUsed, payloadUsed, valuePayloadUsed, ref, values[count], e);
      keyRefs[count] := ref;
      count := count + 1;
      assert keyRefs[..count] == refs + [ref] && values[..count] == slots + [values[count - 1]];
      return Success(true);
    }

    ghost predicate Apart(other: PackedBlock) {
      this != other && keyRefs != other.keyRefs && values != other.values && payload != other.payload
    }

    ghost predicate SameShape(other: PackedBlock) {
      capacity == other.capacity && payloadBytes == other.payloadBytes
    }

    /** The whole of target is known to fit, so its next entry is stored without failure. */
    method Store(key: string, value: string, budget: nat, ghost target: seq<Item>)
      requires Valid() && Entries() + [Entry(key, value)] <= target
      requires Fits(Form(), target) && valuePayloadUsed <= budget == ValueInlineBudget(payloadBytes, InlineBytes(Form(), target))
      modifies this, keyRefs, values, payload
      ensures Valid() && Entries() == old(Entries()) + [Entry(key, value)]
      ensures valuePayloadUsed <= budget
    {
      hide Fits, Layout, Contents, InlineBytes, ExternalKeys;
      ghost var f := Form();
      FitsSlice(f, target, 0, count + 1);
      assert target[0..count + 1] == target[..count + 1];
      assert target[..count + 1] == Entries() + [Entry(key, value)] && target[..count] == Entries();
      BudgetLeavesRoom(f, target, count, valuePayloadUsed);
      Facts();
      FitsCapacity(f, target);
      var r := ConstructBack(key, value, budget);
      assert r.Success?;
    }

    /** The loop by which every derived block takes over a run of entries. */
    method AppendFrom(source: PackedBlock, lo: nat, hi: nat, budget: nat, ghost target: seq<Item>)
      requires Valid() && source.Valid() && Apart(source) && SameShape(source) && lo <= hi <= source.count
      requires Entries() + source.Entries()[lo..hi] <= target
      requires Fits(Form(), target) && valuePayloadUsed <= budget == ValueInlineBudget(payloadBytes, InlineBytes(Form(), target))
      modifies this, keyRefs, values, payload
      ensures Valid() && Entries() == old(Entries()) + source.Entries()[lo..hi]
      ensures valuePayloadUsed <= budget
    {
      hide Fits, Layout, Contents, InlineBytes, ExternalKeys;
      ghost var es, start := Entries(), count;
      ghost var taken := source.Entries();
      for i := lo to hi
        invariant Valid() && source.Valid() && source.Entries() == taken && count == start + (i - lo)
        invariant Entries() == es + taken[lo..i] && valuePayloadUsed <= budget
      {
        assert taken[lo..i + 1] == taken[lo..i] + [taken[i]];
        PrefixStep(es, taken, lo, i, hi, target);
        Store(source.BorrowedKeyAt(i), source.ValueAt(i), budget, target);
      }
    }

    /** Builds a block from entries, exactly when they fit. */
    static method FromSortedEntries(entries: seq<Item>, capacity: nat, payloadBytes: nat) returns (r: Result<PackedBlock, BlockError>)
      requires 1 <= capacity <= EXTERNAL_KEY_MARKER && payloadBytes < EXTERNAL_KEY_MARKER
      ensures r.Success? <==> Fits(Shape(capacity, payloadBytes), entries)
      ensures r.Failure? ==> r.error == if |entries| > capacity then EntriesExceedCapacity else PayloadCapacityExceeded
      ensures r.Success? ==> fresh(r.value) && r.value.Valid() && r.value.Entries() == entries
                             && r.value.capacity == capacity && r.value.payloadBytes == payloadBytes
    {
      hide Fits, Layout, Contents, InlineBytes, ExternalKeys;
      ghost var f := Shape(capacity, payloadBytes);
      if |entries| > capacity {
        if Fits(f, entries) { FitsCapacity(f, entries); }
        return Failure(EntriesExceedCapacity);
      }
      var result := new PackedBlock(capacity, payloadBytes);
      var keyBytes := SumInlineKeyBytes(entries, capacity, payloadBytes);
      var budget := ValueInlineBudget(payloadBytes, keyBytes);
      EmptyFits(f);
      for i := 0 to |entries|
        invariant fresh(result) && fresh(result.keyRefs) && fresh(result.values) && fresh(result.payload)
        invariant result.Valid() && result.Entries() == entries[..i] && result.count == i && result.valuePayloadUsed <= budget
        invariant Fits(f, entries[..i])
      {
        assert entries[..i + 1] == entries[..i] + [entries[i]] && Entry(entries[i].key, entries[i].value) == entries[i];
        result.Facts();
        if Fits(f, entries[..i + 1]) { BudgetLeavesRoom(f, entries, i, result.valuePayloadUsed); }
        var stored := result.ConstructBack(entries[i].key, entries[i].value, budget);
        if stored.Failure? {
          PrefixTooBig(f, entries, i + 1);
          return Failure(stored.error);
        }
      }
      assert entries[..|entries|] == entries;
      return Success(result);
    }

    static method SumInlineKeyBytes(entries: seq<Item>, capacity: nat, payloadBytes: nat) returns (keyBytes: nat)
      ensures keyBytes == InlineBytes(Shape(capacity, payloadBytes), entries)
    {
      keyBytes := 0;
      for i := 0 to |entries|
        invariant keyBytes == InlineBytes(Shape(capacity, payloadBytes), entries[..i])
      {
        assert entries[..i + 1][..i] == entries[..i];
        keyBytes := keyBytes + if |entries[i].key| > payloadBytes then 0 else |entries[i].key|;
      }
      assert entries[..|entries|] == entries;
    }

    method WithInserted(index: nat, key: string, value: string) returns (r: Result<PackedBlock, BlockError>)
      requires Valid()
      ensures r.Success? <==> count < capacity && Fits(Form(), Entries() + [Entry(key, value)]) && index <= count
      ensures r.Failure? ==> r.error == if count == capacity then BlockIsFull
                                        else if !Fits(Form(), Entries() + [Entry(key, value)]) then PayloadCapacityExceeded
                                        else IndexOutOfRange
      ensures r.Success? ==> fresh(r.value) && r.value.Valid() && SameShape(r.value)
                             && r.value.Entries() == ZipList.WithInserted(Entries(), index, Entry(key, value))
    {
      hide Fits, Layout, Contents, InlineBytes, ExternalKeys, ZipList.CanInsert;
      ghost var f, es, e := Form(), Entries(), Entry(key, value);
      if count == capacity {
        return Failure(BlockIsFull);
      }
      var canInsert := CanInsert(key);
      InsertMeansFits(f, es, e);
      assert canInsert == ZipList.CanInsert(f, es, e);
      if !canInsert {
        return Failure(PayloadCapacityExceeded);
      }
      if index > count {
        return Failure(IndexOutOfRange);
      }
      ghost var target := ZipList.WithInserted(es, index, e);
      FitsAnywhere(f, es, index, e);
      InsertedBytes(f, es, index, e);
      Facts();
      var result := new PackedBlock(capacity, payloadBytes);
      var keyBytes := if |key| > payloadBytes then 0 else |key|;
      var budget := ValueInlineBudget(payloadBytes, payloadUsed + keyBytes);
      InsertPieces(es, index, e);
      result.AppendFrom(this, 0, index, budget, target);
      result.Store(key, value, budget, target);
      result.AppendFrom(this, index, count, budget, target);
      return Success(result);
    }

    method WithUpdated(index: nat, value: string) returns (r: Result<PackedBlock, BlockError>)
      requires Valid()
      ensures r.Success? <==> index < count
      ensures r.Failure? ==> r.error == IndexOutOfRange
      ensures r.Success? ==> fresh(r.value) && r.value.Valid() && SameShape(r.value)
                             && r.value.Entries() == ZipList.WithUpdated(Entries(), index, value)
    {
      hide Fits, Layout, Contents, InlineBytes, ExternalKeys;
      if index >= count {
        return Failure(IndexOutOfRange);
      }
      ghost var f, es := Form(), Entries();
      ghost var target := ZipList.WithUpdated(es, index, value);
      FitsByKeys(f, es, target);
      Facts();
      var result := new PackedBlock(capacity, payloadBytes);
      var budget := ValueInlineBudget(payloadBytes, payloadUsed);
      UpdatePieces(es, index, value);
      result.AppendFrom(this, 0, index, budget, target);
      result.Store(BorrowedKeyAt(index), value, budget, target);
      result.AppendFrom(this, index + 1, count, budget, target);
      return Success(result);
    }

    method WithErased(index: nat) returns (r: Result<PackedBlock, BlockError>)
      requires Valid()
      ensures r.Success? <==> index < count
      ensures r.Failure? ==> r.error == IndexOutOfRange
      ensures r.Success? ==> fresh(r.value) && r.value.Valid() && SameShape(r.value)
                             && r.value.Entries() == ZipList.WithErased(Entries(), index)
    {
      hide Fits, Contents, InlineBytes, ExternalKeys;
      if index >= count {
        return Failure(IndexOutOfRange);
      }
      ghost var f, es := Form(), Entries();
      ghost var target := ZipList.WithErased(es, index);
      Facts();
      ErasedBytes(f, es, index);
      var erasedKeyBytes := if KeyRefIsExternal(keyRefs[index]) then 0 else keyRefs[index].sizeOrMarker;
      StoredKeySize(f, base, payload[..], externalKeys, keyRefs[..count], values[..count], payloadUsed, valuePayloadUsed, index);
      hide Layout;
      var result := new PackedBlock(capacity, payloadBytes);
      var budget := ValueInlineBudget(payloadBytes, payloadUsed - erasedKeyBytes);
      ErasePieces(es, index);
      result.AppendFrom(this, 0, index, budget, target);
      result.AppendFrom(this, index + 1, count, budget, target);
      return Success(result);
    }

    /** Copying is re-storing every entry. */
    method CopyFrom(other: PackedBlock)
      requires Valid() && count == 0 && valuePayloadUsed == 0 && other.Valid() && Apart(other) && SameShape(other)
      modifies this, keyRefs, values, payload
      ensures Valid() && Entries() == old(other.Entries())
    {
      hide Fits, Layout, Contents, InlineBytes, ExternalKeys;
      ghost var es := other.Entries();
      other.Facts();
      var budget := ValueInlineBudget(payloadBytes, other.payloadUsed);
      assert Entries() == [] && [] + es[0..other.count] == es && es[..other.count] == es;
      AppendFrom(other, 0, other.count, budget, es);
    }

    static method Merged(left: PackedBlock, right: PackedBlock) returns (r: Result<PackedBlock, BlockError>)
      requires left.Valid() && right.Valid() && left.SameShape(right)
      ensures r.Success? <==> ZipList.CanMerge(left.Form(), left.Entries(), right.Entries())
      ensures r.Failure? ==> r.error == MergedEntriesExceedCapacity
      ensures r.Success? ==> fresh(r.value) && r.value.Valid() && left.SameShape(r.value)
                             && r.value.Entries() == left.Entries() + right.Entries()
    {
      hide Fits, Layout, Contents, InlineBytes, ExternalKeys;
      ghost var f, a, b := left.Form(), left.Entries(), right.Entries();
      var canMerge := CanMerge(left, right);
      if !canMerge {
        return Failure(MergedEntriesExceedCapacity);
      }
      ghost var target := a + b;
      TotalsAppend(f, a, b);
      left.Facts();
      right.Facts();
      var result := new PackedBlock(left.capacity, left.payloadBytes);
      var budget := ValueInlineBudget(left.payloadBytes, left.payloadUsed + right.payloadUsed);
      MergePieces(a, b);
      result.AppendFrom(left, 0, left.count, budget, target);
      result.AppendFrom(right, 0, right.count, budget, target);
      return Success(result);
    }

    static method CanMerge(left: PackedBlock, right: PackedBlock) returns (ok: bool)
      requires left.Valid() && right.Valid() && left.SameShape(right)
      ensures ok == ZipList.CanMerge(left.Form(), left.Entries(), right.Entries())
    {
      hide Fits, Layout, Contents, InlineBytes, ExternalKeys, KeyText, ValueText;
      var f := Shape(left.capacity, left.payloadBytes);
      ghost var a, b := left.Entries(), right.Entries();
      ghost var all := a + b;
      EmptyFits(f);
      var summary := new FitSummary();
      DescribesNothing(f, summary);
      assert all[..0] == [];
      for i := 0 to left.count
        invariant summary.Describes(f, all[..i]) && Fits(f, all[..i])
      {
        assert all[..i + 1] == all[..i] + [all[i]];
        var more := summary.AccumulateKey(f, all[..i], Entry(left.BorrowedKeyAt(i), left.ValueAt(i)));
        if !more {
          PrefixTooBig(f, all, i + 1);
          return false;
        }
      }
      for i := 0 to right.count
        invariant summary.Describes(f, all[..left.count + i]) && Fits(f, all[..left.count + i])
      {
        var n := left.count + i;
        assert all[..n + 1] == all[..n] + [all[n]];
        var more := summary.AccumulateKey(f, all[..n], Entry(right.BorrowedKeyAt(i), right.ValueAt(i)));
        if !more {
          PrefixTooBig(f, all, n + 1);
          return false;
        }
      }
      assert all[..|all|] == all;
      return true;
    }

    /** Moving copies keys and bytes and takes over each value, re-basing those that point into the other buffer. */
    method MoveFrom(other: PackedBlock)
      requires Valid() && count == 0 && other.Valid() && Apart(other) && SameShape(other)
      modifies this, keyRefs, values, payload, other
      ensures Valid() && Entries() == old(other.Entries())
      ensures other.Valid() && other.Entries() == []
    {
      hide Fits, Layout, Contents, InlineBytes, ExternalKeys, Rebase;
      ghost var refs, slots, used, valueUsed := other.keyRefs[..other.count], other.values[..other.count], other.payloadUsed, other.valuePayloadUsed;
      ghost var bytes, ext := other.payload[..], other.externalKeys;
      forall i | 0 <= i < capacity { keyRefs[i] := other.keyRefs[i]; }
      forall b | 0 <= b < payloadBytes { payload[b] := other.payload[b]; }
      count, payloadUsed, valuePayloadUsed := other.count, other.payloadUsed, other.valuePayloadUsed;
      externalKeys := other.externalKeys;
      for i := 0 to count
        invariant Sized() && other.Sized() && count == other.count == |slots|
        invariant forall j :: 0 <= j < i ==> values[j] == Rebase(slots[j], other.base, base, payloadBytes)
        invariant other.values[..count] == slots
        invariant keyRefs[..count] == refs && payload[..] == bytes
        invariant payloadUsed == used && valuePayloadUsed == valueUsed && externalKeys == ext
      {
        MoveValueFrom(other, i);
      }
      Rebased(Form(), other.base, base, bytes, ext, refs, slots, values[..count], used, valueUsed);
      other.count, other.payloadUsed, other.valuePayloadUsed, other.externalKeys := 0, 0, 0, [];
      EmptyLayout(Form(), other.base, other.payload[..]);
      assert other.keyRefs[..0] == [] && other.values[..0] == [];
    }

    predicate PointerBelongsToPayload(data: nat) {
      InPayload(base, payloadBytes, data)
    }

    method MoveValueFrom(other: PackedBlock, index: nat)
      requires Sized() && other.Sized() && Apart(other) && SameShape(other) && index < capacity
      modifies values
      ensures values[index] == Rebase(other.values[index], other.base, base, payloadBytes)
      ensures forall i :: 0 <= i < capacity && i != index ==> values[i] == old(values[i])
    {
      var source := other.values[index];
      if source.Borrowed? && other.PointerBelongsToPayload(source.data) {
        var offset := source.data - other.base;
        values[index] := Borrowed(base + offset, source.size);
      } else {
        values[index] := source;
      }
    }
  }

  lemma PrefixStep(es: seq<Item>, taken: seq<Item>, lo: nat, i: nat, hi: nat, target: seq<Item>)
    requires lo <= i < hi <= |taken| && es + taken[lo..hi] <= target
    ensures es + taken[lo..i] + [taken[i]] <= target
    ensures es + taken[lo..i] + [taken[i]] == es + taken[lo..i + 1]
  {
    assert taken[lo..i + 1] == taken[lo..i] + [taken[i]];
    assert (es + taken[lo..hi])[..|es| + (i + 1 - lo)] == es + taken[lo..i + 1];
  }

  lemma InsertPieces(es: seq<Item>, index: nat, e: Item)
    requires index <= |es|
    ensures var target := ZipList.WithInserted(es, index, e);
            && [] + es[0..index] <= target && [] + es[0..index] + [e] <= target
            && [] + es[0..index] + [e] + es[index..|es|] == target
  {
  }

  lemma UpdatePieces(es: seq<Item>, index: nat, value: string)
    requires index < |es|
    ensures var target := ZipList.WithUpdated(es, index, value); var e := Entry(es[index].key, value);
            && [] + es[0..index] <= target && [] + es[0..index] + [e] <= target
            && [] + es[0..index] + [e] + es[index + 1..|es|] == target
  {
  }

  lemma ErasePieces(es: seq<Item>, index: nat)
    requires index < |es|
    ensures var target := ZipList.WithErased(es, index);
            && [] + es[0..index] <= target && [] + es[0..index] + es[index + 1..|es|] == target
  {
  }

  lemma MergePieces(a: seq<Item>, b: seq<Item>)
    ensures [] + a[0..|a|] <= a + b && [] + a[0..|a|] + b[0..|b|] == a + b
  {
  }

  lemma EmptyLayout(f: Form<string>, base: nat, payload: seq<char>)
    ensures Layout(f, base, payload, [], [], [], 0, 0) && Contents(base, payload, [], [], []) == []
  {
  }

  lemma DescribesNothing(f: Form<string>, summary: FitSummary)
    requires summary.count == 0 && summary.inlineBytes == 0 && !summary.hasExternalKey
    ensures summary.Describes<string, string>(f, [])
  {
  }

  lemma PrefixTooBig(f: Form<string>, es: seq<Item>, n: nat)
    requires n <= |es| && !Fits(f, es[..n])
    ensures !Fits(f, es)
  {
    hide Fits;
    assert es[0..n] == es[..n];
    if Fits(f, es) {
      FitsSlice(f, es, 0, n);
    }
  }

  lemma InsertedBytes(f: Form<string>, es: seq<Item>, index: nat, e: Item)
    requires index <= |es|
    ensures InlineBytes(f, ZipList.WithInserted(es, index, e)) == InlineBytes(f, es) + InlineKeyBytes(f, e.key)
  {
    var a, b := es[..index], es[index..];
    assert es == a + b;
    TotalsAppend(f, a, b);
    TotalsSnoc(f, a, e);
    TotalsAppend(f, a + [e], b);
  }

  lemma ErasedBytes(f: Form<string>, es: seq<Item>, index: nat)
    requires index < |es| && Fits(f, es)
    ensures InlineBytes(f, ZipList.WithErased(es, index)) == InlineBytes(f, es) - InlineKeyBytes(f, es[index].key)
    ensures Fits(f, ZipList.WithErased(es, index))
  {
    var a, b := es[..index], es[index + 1..];
    assert es == a + [es[index]] + b;
    FitsPart(f, a, [es[index]], b);
    TotalsSnoc(f, a, es[index]);
    TotalsAppend(f, a + [es[index]], b);
    TotalsAppend(f, a, b);
  }

  /** The size kept with a key is the number of buffer bytes it takes. */
  lemma StoredKeySize(f: Form<string>, base: nat, payload: seq<char>, ext: seq<string>, refs: seq<KeyRef>, slots: seq<Slot>, used: nat, valueUsed: nat, i: nat)
    requires f.PackedForm? && f.keySize == KeySize && f.payload == |payload| && Layout(f, base, payload, ext, refs, slots, used, valueUsed) && i < |refs|
    ensures InlineKeyBytes(f, Contents(base, payload, ext, refs, slots)[i].key) == if KeyRefIsExternal(refs[i]) then 0 else refs[i].sizeOrMarker
  {
    hide Fits;
  }

  /** What may be inserted depends on the key alone. */
  lemma AnyValueFits(f: Form<string>, es: seq<Item>, key: string)
    ensures forall value :: ZipList.CanInsert(f, es, Entry(key, value)) <==> |es| != f.capacity && Fits(f, es + [Entry(key, "")])
  {
    hide Fits, ZipList.CanInsert;
    forall value ensures ZipList.CanInsert(f, es, Entry(key, value)) <==> |es| != f.capacity && Fits(f, es + [Entry(key, "")]) {
      InsertMeansFits(f, es, Entry(key, value));
      FitsByKeys(f, es + [Entry(key, value)], es + [Entry(key, "")]);
    }
  }

  lemma InsertMeansFits(f: Form<string>, es: seq<Item>, e: Item)
    ensures ZipList.CanInsert(f, es, e) <==> |es| != f.capacity && Fits(f, es + [e])
  {
  }

  lemma FitsCapacity(f: Form<string>, es: seq<Item>)
    requires Fits(f, es)
    ensures |es| <= f.capacity
  {
  }

  lemma KeyKept(payload: seq<char>, after: seq<char>, ext: seq<string>, ref: KeyRef, used: nat, usedAfter: nat)
    requires |after| == |payload| && used <= usedAfter <= |payload|
    requires KeyRefIsExternal(ref) || (ref.offsetOrIndex == used && used + ref.sizeOrMarker == usedAfter)
    requires forall b :: used <= b < usedAfter ==> after[b] == payload[b]
    ensures KeyText(after, ext, ref) == KeyText(payload, ext, ref)
  {
    if !KeyRefIsExternal(ref) {
      assert after[used..usedAfter] == payload[used..usedAfter];
    }
  }

  lemma ExternalsFew(f: Form<string>, es: seq<Item>)
    requires f.PackedForm? && Fits(f, es)
    ensures ExternalKeys(f, es) <= 1
  {
    if |es| == 1 { assert es[..0] == []; }
  }
}
