/** The iterative decoder: an explicit stack of frames over the caller's scratch cells, proved to
    compute the recursive-descent reading of RespTree, and the layout it leaves in the cells. */
module RespUnpack {
  import opened Prelude
  import opened RespTree
  import opened RespNumber

  // ----------------------------------------------------------------------- layout

  /** The cell at i holds t, and the cells below it fill the stretch that starts at lo, level by level. */
  ghost predicate Holds(cells: seq<RespValue>, i: nat, t: Tree, lo: nat)
    decreases t, 0
  {
    i < |cells| &&
    if t.List? && t.items != [] then
      && cells[i] == RespValue(Array, "", 0, Some(lo), |t.items|)
      && HoldsAll(cells, lo, t.items, lo + |t.items|)
    else
      cells[i].count == 0 && LeafTree(cells[i]) == t
  }

  ghost predicate HoldsAll(cells: seq<RespValue>, first: nat, items: seq<Tree>, lo: nat)
    decreases items, 1
  {
    items != [] ==>
      && Holds(cells, first, items[0], lo)
      && HoldsAll(cells, first + 1, items[1..], lo + Below(items[0]))
  }

  /** Cells outside the item cells and the stretch below them do not matter. */
  lemma {:induction false} HoldsFrame(cells: seq<RespValue>, after: seq<RespValue>, i: nat, t: Tree, lo: nat)
    requires Holds(cells, i, t, lo) && |after| == |cells|
    requires after[i] == cells[i] && forall k :: lo <= k < lo + Below(t) && k < |cells| ==> after[k] == cells[k]
    ensures Holds(after, i, t, lo)
    decreases t, 0
  {
    if t.List? && t.items != [] {
      HoldsAllFrame(cells, after, lo, t.items, lo + |t.items|);
    }
  }

  lemma {:induction false} HoldsAllFrame(cells: seq<RespValue>, after: seq<RespValue>, first: nat, items: seq<Tree>, lo: nat)
    requires HoldsAll(cells, first, items, lo) && |after| == |cells|
    requires forall k :: first <= k < first + |items| && k < |cells| ==> after[k] == cells[k]
    requires forall k :: lo <= k < lo + BelowAll(items) && k < |cells| ==> after[k] == cells[k]
    ensures HoldsAll(after, first, items, lo)
    decreases items, 1
  {
    if items != [] {
      HoldsFrame(cells, after, first, items[0], lo);
      HoldsAllFrame(cells, after, first + 1, items[1..], lo + Below(items[0]));
    }
  }

  lemma {:induction false} HoldsSnoc(cells: seq<RespValue>, first: nat, items: seq<Tree>, lo: nat, t: Tree)
    requires HoldsAll(cells, first, items, lo) && Holds(cells, first + |items|, t, lo + BelowAll(items))
    ensures HoldsAll(cells, first, items + [t], lo) && BelowAll(items + [t]) == BelowAll(items) + Below(t)
    decreases |items|
  {
    if items != [] {
      assert (items + [t])[1..] == items[1..] + [t];
      HoldsSnoc(cells, first + 1, items[1..], lo + Below(items[0]), t);
    } else {
      assert (items + [t])[1..] == [];
    }
  }

  // ------------------------------------------------------------------ the stack

  datatype Frame = Frame(first: nat, count: nat, index: nat)

  /** What a frame stands for in the reading: the items already read, and how many follow the current one. */
  datatype Pending = Pending(done: seq<Tree>, remaining: nat)

  function Last<T>(s: seq<T>): T
    requires s != []
  {
    s[|s| - 1]
  }

  function Init<T>(s: seq<T>): seq<T>
    requires s != []
  {
    s[..|s| - 1]
  }

  /** The cell that the value now being read goes to. */
  function Current(frames: seq<Frame>): nat {
    if frames == [] then 0 else Last(frames).first + Last(frames).index
  }

  /** The frames describe the pending arrays, whose cells lie below free in the order they were met. */
  ghost predicate StackOk(cells: seq<RespValue>, frames: seq<Frame>, stack: seq<Pending>, free: nat)
    decreases |frames|
  {
    && |frames| == |stack|
    && if frames == [] then free == 1
       else
         var f, p := Last(frames), Last(stack);
         && f.index == |p.done| && f.count == |p.done| + 1 + p.remaining
         && f.first + f.count <= |cells|
         && free == f.first + f.count + BelowAll(p.done)
         && HoldsAll(cells, f.first, p.done, f.first + f.count)
         && Current(Init(frames)) < f.first
         && cells[Current(Init(frames))] == RespValue(Array, "", 0, Some(f.first), f.count)
         && StackOk(cells, Init(frames), Init(stack), f.first)
  }

  /** Only the current cell and the cells from free on may change. */
  lemma {:induction false} StackFrame(cells: seq<RespValue>, after: seq<RespValue>, frames: seq<Frame>, stack: seq<Pending>, free: nat)
    requires StackOk(cells, frames, stack, free) && |after| == |cells|
    requires forall k :: 0 <= k < free && k < |cells| && k != Current(frames) ==> after[k] == cells[k]
    ensures StackOk(after, frames, stack, free)
    decreases |frames|
  {
    if frames != [] {
      var f, p := Last(frames), Last(stack);
      HoldsAllFrame(cells, after, f.first, p.done, f.first + f.count);
      StackFrame(cells, after, Init(frames), Init(stack), f.first);
    }
  }

  /** The rest of the reading once the value at the top has come out as r. */
  function Resume(input: string, stack: seq<Pending>, r: Outcome, capacity: nat, limits: RespLimits): Outcome
    requires r.Done? ==> r.free <= capacity && r.next <= |input|
    decreases |stack|
  {
    if r.Fail? || stack == [] then r
    else
      match ParseTrees(input, r.next, r.free, Last(stack).remaining, capacity, limits, |stack|)
      case ListFail(status, error) => Fail(status, error)
      case ListDone(trees, next, free) =>
        Resume(input, Init(stack), Done(List(Last(stack).done + [r.tree] + trees), next, free), capacity, limits)
  }

  /** Entering a non-empty array. */
  lemma ResumePush(input: string, pos: nat, stack: seq<Pending>, free: nat, capacity: nat, limits: RespLimits)
    requires free <= capacity
    requires var h := HeadAt(input, pos, free, capacity, limits, |stack|); h.Parsed? && h.cell.count > 0
    ensures var h := HeadAt(input, pos, free, capacity, limits, |stack|);
            && h.nextFree <= capacity
            && Resume(input, stack, ParseTree(input, pos, free, capacity, limits, |stack|), capacity, limits)
               == Resume(input, stack + [Pending([], h.cell.count - 1)],
                         ParseTree(input, h.consumed, h.nextFree, capacity, limits, |stack| + 1), capacity, limits)
  {
    hide HeadAt;
    HeadBounds(input, pos, free, capacity, limits, |stack|);
    var h := HeadAt(input, pos, free, capacity, limits, |stack|);
    var pushed := stack + [Pending([], h.cell.count - 1)];
    assert Init(pushed) == stack;
    var first := ParseTree(input, h.consumed, h.nextFree, capacity, limits, |stack| + 1);
    if first.Done? {
      var rest := ParseTrees(input, first.next, first.free, h.cell.count - 1, capacity, limits, |stack| + 1);
      if rest.ListDone? {
        assert [] + [first.tree] + rest.trees == [first.tree] + rest.trees;
      }
    }
  }

  /** Moving to the next item of the top array. */
  lemma ResumeNext(input: string, stack: seq<Pending>, t: Tree, next: nat, free: nat, capacity: nat, limits: RespLimits)
    requires stack != [] && Last(stack).remaining > 0 && free <= capacity && next <= |input|
    ensures var p := Last(stack);
            Resume(input, stack, Done(t, next, free), capacity, limits)
            == Resume(input, Init(stack) + [Pending(p.done + [t], p.remaining - 1)],
                      ParseTree(input, next, free, capacity, limits, |stack|), capacity, limits)
  {
    hide HeadAt, ParseTree;
    var p := Last(stack);
    var moved := Init(stack) + [Pending(p.done + [t], p.remaining - 1)];
    assert Init(moved) == Init(stack);
    var r := ParseTree(input, next, free, capacity, limits, |stack|);
    if r.Done? {
      var rest := ParseTrees(input, r.next, r.free, p.remaining - 1, capacity, limits, |stack|);
      if rest.ListDone? {
        assert (p.done + [t]) + [r.tree] + rest.trees == p.done + [t] + ([r.tree] + rest.trees);
      }
    }
  }

  /** Closing the top array. */
  lemma ResumePop(input: string, stack: seq<Pending>, t: Tree, next: nat, free: nat, capacity: nat, limits: RespLimits)
    requires stack != [] && Last(stack).remaining == 0 && free <= capacity && next <= |input|
    ensures Resume(input, stack, Done(t, next, free), capacity, limits)
            == Resume(input, Init(stack), Done(List(Last(stack).done + [t]), next, free), capacity, limits)
  {
    assert Last(stack).done + [t] + [] == Last(stack).done + [t];
  }

  // ------------------------------------------------------------------ the decoder

  /** ParseValueAt: the header at pos goes into the target cell. */
  method ParseValueAt(input: string, pos: nat, scratch: array<RespValue>, target: nat, nextFree: nat, limits: RespLimits, depth: nat)
    returns (status: RespStatus, consumed: nat, error: string, free: nat)
    requires target < nextFree <= scratch.Length
    modifies scratch
    ensures forall k :: 0 <= k < scratch.Length && k != target ==> scratch[k] == old(scratch[k])
    ensures var h := HeadAt(input, pos, nextFree, scratch.Length, limits, depth);
            if h.Stop? then status == h.status && error == h.error
            else status == Ok && consumed == h.consumed && free == h.nextFree && scratch[target] == h.cell
  {
    hide FirstLf, LineAt, LineText, NumberText;
    status, consumed, error, free := Ok, 0, "", nextFree;
    if pos >= |input| {
      status := NeedMore;
      return;
    }
    scratch[target] := Leaf(NullBulkString, "");
    var prefix := input[pos];
    if prefix == '*' && depth + 1 > ConfiguredDepth(limits) {
      status, error := Broken, "array depth limit";
      return;
    }
    if prefix !in "+-:$*" {
      status, error := Broken, "unknown RESP type";
      return;
    }
    var line := ReadLine(input, pos + 1);
    if line.status != Ok {
      status, error := line.status, line.error;
      return;
    }
    var text := LineText(input, line);
    if prefix == '+' || prefix == '-' {
      scratch[target] := Leaf(if prefix == '+' then SimpleString else Error, text);
      consumed := line.next;
      return;
    }
    var isNumber, number := ParseSignedNumber(text);
    if prefix == ':' {
      if !isNumber {
        status, error := Broken, "invalid integer";
        return;
      }
      scratch[target] := RespValue(Integer, "", number, None, 0);
      consumed := line.next;
      return;
    }
    if prefix == '$' {
      if !isNumber {
        status, error := Broken, "invalid bulk length";
      } else if number == -1 {
        consumed := line.next;
      } else if number < 0 {
        status, error := Broken, "invalid bulk length";
      } else if number > limits.maxBulkBytes {
        status, error := Broken, "bulk length limit";
      } else if number > |input| - line.next {
        status := NeedMore;
      } else {
        var trailer := line.next + number;
        if |input| - trailer < 2 {
          status := NeedMore;
        } else if input[trailer] != '\r' || input[trailer + 1] != '\n' {
          status, error := Broken, "invalid bulk trailer";
        } else {
          scratch[target] := Leaf(BulkString, input[line.next..trailer]);
          consumed := trailer + 2;
        }
      }
      return;
    }
    if !isNumber {
      status, error := Broken, "invalid array length";
    } else if number == -1 {
      scratch[target] := Leaf(NullArray, "");
      consumed := line.next;
    } else if number < 0 {
      status, error := Broken, "invalid array length";
    } else if number > limits.maxArrayElements {
      status, error := Broken, "array length limit";
    } else if number > scratch.Length - nextFree {
      status, error := NoMemory, "scratch exhausted";
    } else {
      consumed := line.next;
      if number == 0 {
        scratch[target] := Leaf(Array, "");
      } else {
        scratch[target] := RespValue(Array, "", 0, Some(nextFree), number);
        free := nextFree + number;
      }
    }
  }

  /** A header cell just written at the current position becomes a frame. */
  lemma StackPush(cells: seq<RespValue>, frames: seq<Frame>, stack: seq<Pending>, free: nat, count: nat)
    requires StackOk(cells, frames, stack, free) && count > 0 && free + count <= |cells|
    requires Current(frames) < free
    requires cells[Current(frames)] == RespValue(Array, "", 0, Some(free), count)
    ensures StackOk(cells, frames + [Frame(free, count, 0)], stack + [Pending([], count - 1)], free + count)
    ensures Current(frames + [Frame(free, count, 0)]) == free
  {
    assert Init(frames + [Frame(free, count, 0)]) == frames && Init(stack + [Pending([], count - 1)]) == stack;
  }

  function Advance(frames: seq<Frame>): seq<Frame>
    requires frames != []
  {
    Init(frames) + [Last(frames).(index := Last(frames).index + 1)]
  }

  /** The current item is complete and the next one becomes current. */
  lemma StackNext(cells: seq<RespValue>, frames: seq<Frame>, stack: seq<Pending>, free: nat, t: Tree)
    requires frames != [] && StackOk(cells, frames, stack, free) && Holds(cells, Current(frames), t, free) && Last(stack).remaining > 0
    ensures var p := Last(stack);
            StackOk(cells, Advance(frames), Init(stack) + [Pending(p.done + [t], p.remaining - 1)], free + Below(t))
  {
    var f, p := Last(frames), Last(stack);
    HoldsSnoc(cells, f.first, p.done, f.first + f.count, t);
    assert Init(Advance(frames)) == Init(frames) && Init(Init(stack) + [Pending(p.done + [t], p.remaining - 1)]) == Init(stack);
  }

  /** The last item is complete, and with it the array, whose own cell is current again. */
  lemma StackPop(cells: seq<RespValue>, frames: seq<Frame>, stack: seq<Pending>, free: nat, t: Tree)
    requires frames != [] && StackOk(cells, frames, stack, free) && Holds(cells, Current(frames), t, free) && Last(stack).remaining == 0
    ensures var f := Last(frames); var closed := List(Last(stack).done + [t]);
            && StackOk(cells, Init(frames), Init(stack), f.first)
            && Holds(cells, Current(Init(frames)), closed, f.first)
            && free + Below(t) == f.first + Below(closed)
  {
    var f, p := Last(frames), Last(stack);
    HoldsSnoc(cells, f.first, p.done, f.first + f.count, t);
    assert |p.done + [t]| == f.count;
  }

  lemma LeafHolds(cells: seq<RespValue>, i: nat, lo: nat)
    requires i < |cells| && cells[i].count == 0
    ensures Holds(cells, i, LeafTree(cells[i]), lo) && Below(LeafTree(cells[i])) == 0
  {
  }

  /** What remains to be read, with the value at pos about to be read into the current cell. */
  ghost predicate Reading(input: string, cells: seq<RespValue>, frames: seq<Frame>, stack: seq<Pending>, pos: nat, free: nat, limits: RespLimits, whole: Outcome) {
    && |frames| == |stack| <= ConfiguredDepth(limits) && pos <= |input| && Current(frames) < free <= |cells|
    && StackOk(cells, frames, stack, free)
    && whole == Resume(input, stack, ParseTree(input, pos, free, |cells|, limits, |frames|), |cells|, limits)
  }

  /** What remains to be read, with t just read into the current cell and, from lo on, the cells below it. */
  ghost predicate Closing(input: string, cells: seq<RespValue>, frames: seq<Frame>, stack: seq<Pending>, t: Tree, pos: nat, lo: nat, limits: RespLimits, whole: Outcome) {
    var free := lo + Below(t);
    && |frames| == |stack| <= ConfiguredDepth(limits) && pos <= |input| && free <= |cells|
    && StackOk(cells, frames, stack, lo) && Holds(cells, Current(frames), t, lo)
    && whole == Resume(input, stack, Done(t, pos, free), |cells|, limits)
  }

  lemma StartReading(input: string, cells: seq<RespValue>, limits: RespLimits)
    requires |cells| > 0
    ensures Reading(input, cells, [], [], 0, 1, limits, ParseTree(input, 0, 1, |cells|, limits, 0))
  {
  }

  /** A verdict other than Ok ends the reading. */
  lemma ReadStop(input: string, cells: seq<RespValue>, frames: seq<Frame>, stack: seq<Pending>, pos: nat, free: nat, limits: RespLimits, whole: Outcome)
    requires Reading(input, cells, frames, stack, pos, free, limits, whole)
    requires HeadAt(input, pos, free, |cells|, limits, |frames|).Stop?
    ensures var h := HeadAt(input, pos, free, |cells|, limits, |frames|); whole == Fail(h.status, h.error)
  {
    hide HeadAt, StackOk;
  }

  /** The header of a non-empty array has been written to the current cell: a new frame, and there is room for it. */
  lemma ReadArray(input: string, cells: seq<RespValue>, after: seq<RespValue>, frames: seq<Frame>, stack: seq<Pending>, pos: nat, free: nat, limits: RespLimits, whole: Outcome)
    requires Reading(input, cells, frames, stack, pos, free, limits, whole) && |after| == |cells|
    requires forall k :: 0 <= k < |cells| && k != Current(frames) ==> after[k] == cells[k]
    requires var h := HeadAt(input, pos, free, |cells|, limits, |frames|); h.Parsed? && h.cell.count > 0 && after[Current(frames)] == h.cell
    ensures |frames| < MAX_PARSER_DEPTH
    ensures var h := HeadAt(input, pos, free, |cells|, limits, |frames|);
            && pos < h.consumed <= |input|
            && Reading(input, after, frames + [Frame(free, h.cell.count, 0)], stack + [Pending([], h.cell.count - 1)], h.consumed, h.nextFree, limits, whole)
  {
    hide HeadAt, StackOk, Resume, ParseTree;
    HeadBounds(input, pos, free, |cells|, limits, |frames|);
    StackFrame(cells, after, frames, stack, free);
    ResumePush(input, pos, stack, free, |cells|, limits);
    StackPush(after, frames, stack, free, after[Current(frames)].count);
  }

  /** Any other cell is a complete value. */
  lemma ReadLeaf(input: string, cells: seq<RespValue>, after: seq<RespValue>, frames: seq<Frame>, stack: seq<Pending>, pos: nat, free: nat, limits: RespLimits, whole: Outcome)
    requires Reading(input, cells, frames, stack, pos, free, limits, whole) && |after| == |cells|
    requires forall k :: 0 <= k < |cells| && k != Current(frames) ==> after[k] == cells[k]
    requires var h := HeadAt(input, pos, free, |cells|, limits, |frames|); h.Parsed? && h.cell.count == 0 && after[Current(frames)] == h.cell
    ensures var h := HeadAt(input, pos, free, |cells|, limits, |frames|);
            && pos < h.consumed && h.nextFree == free
            && Closing(input, after, frames, stack, LeafTree(h.cell), h.consumed, free, limits, whole)
  {
    hide HeadAt, StackOk, Resume, ParseTree, Holds, LeafTree, Below;
    HeadBounds(input, pos, free, |cells|, limits, |frames|);
    StackFrame(cells, after, frames, stack, free);
    LeafDone(input, pos, free, |cells|, limits, |frames|);
    LeafHolds(after, Current(frames), free);
  }

  lemma CloseNext(input: string, cells: seq<RespValue>, frames: seq<Frame>, stack: seq<Pending>, t: Tree, pos: nat, lo: nat, limits: RespLimits, whole: Outcome)
    requires Closing(input, cells, frames, stack, t, pos, lo, limits, whole) && frames != [] && Last(frames).index + 1 < Last(frames).count
    ensures stack != [] && Last(stack).remaining > 0
    ensures Reading(input, cells, Advance(frames), Init(stack) + [Pending(Last(stack).done + [t], Last(stack).remaining - 1)], pos, lo + Below(t), limits, whole)
  {
    hide StackOk, Resume, ParseTree, Holds, Below;
    FrameFacts(cells, frames, stack, lo);
    StackNext(cells, frames, stack, lo, t);
    ResumeNext(input, stack, t, pos, lo + Below(t), |cells|, limits);
    CurrentBelow(cells, Advance(frames), Init(stack) + [Pending(Last(stack).done + [t], Last(stack).remaining - 1)], lo + Below(t));
  }

  lemma ClosePop(input: string, cells: seq<RespValue>, frames: seq<Frame>, stack: seq<Pending>, t: Tree, pos: nat, lo: nat, limits: RespLimits, whole: Outcome)
    requires Closing(input, cells, frames, stack, t, pos, lo, limits, whole) && frames != [] && Last(frames).index + 1 >= Last(frames).count
    ensures stack != []
    ensures Closing(input, cells, Init(frames), Init(stack), List(Last(stack).done + [t]), pos, Last(frames).first, limits, whole)
    ensures lo + Below(t) == Last(frames).first + Below(List(Last(stack).done + [t]))
  {
    hide StackOk, Resume, ParseTree, Holds, Below;
    FrameFacts(cells, frames, stack, lo);
    StackPop(cells, frames, stack, lo, t);
    ResumePop(input, stack, t, pos, lo + Below(t), |cells|, limits);
  }

  lemma CloseAll(input: string, cells: seq<RespValue>, stack: seq<Pending>, t: Tree, pos: nat, lo: nat, limits: RespLimits, whole: Outcome)
    requires Closing(input, cells, [], stack, t, pos, lo, limits, whole)
    ensures whole == Done(t, pos, 1 + Below(t)) && Holds(cells, 0, t, 1)
  {
  }

  /** The decoder computes the recursive-descent reading: same verdict, same bytes consumed, and the
      scratch cells hold the value, from cell 0 with everything below it from cell 1 on. */
  method UnpackOne(input: string, scratch: array<RespValue>, limits: RespLimits)
    returns (status: RespStatus, consumed: nat, error: string)
    modifies scratch
    ensures var r := Decode(input, scratch.Length, limits);
            if r.Fail? then status == r.status && error == r.error
            else status == Ok && consumed == r.next && Holds(scratch[..], 0, r.tree, 1) && r.free == 1 + Below(r.tree)
  {
    hide HeadAt, ParseTree, Holds, Reading, Closing, LeafTree, Below;
    consumed, error := 0, "";
    if scratch.Length == 0 {
      return NoMemory, 0, "scratch is empty";
    }
    var frames := new Frame[MAX_PARSER_DEPTH](_ => Frame(0, 0, 0));
    var frameCount, nextFree, pos, current := 0, 1, 0, 0;
    ghost var stack: seq<Pending> := [];
    ghost var whole := ParseTree(input, 0, 1, scratch.Length, limits, 0);
    assert frames[..0] == [];
    StartReading(input, scratch[..], limits);
    while true
      invariant frameCount <= MAX_PARSER_DEPTH && pos <= |input|
      invariant current == Current(frames[..frameCount]) < nextFree <= scratch.Length
      invariant Reading(input, scratch[..], frames[..frameCount], stack, pos, nextFree, limits, whole)
      decreases |input| - pos
    {
      ghost var cells, fs, start, base := scratch[..], frames[..frameCount], pos, nextFree;
      var s, c, e, free := ParseValueAt(input, pos, scratch, current, nextFree, limits, frameCount);
      HeadBounds(input, pos, nextFree, scratch.Length, limits, frameCount);
      if s != Ok {
        ReadStop(input, cells, fs, stack, pos, nextFree, limits, whole);
        return s, 0, e;
      }
      pos, nextFree := c, free;
      if scratch[current].kind == Array && scratch[current].count > 0 {
        // The stack is never full here: the depth limit was checked before the header was accepted.
        ReadArray(input, cells, scratch[..], fs, stack, start, base, limits, whole);
        frames[frameCount] := Frame(scratch[current].elements.value, scratch[current].count, 0);
        assert frames[..frameCount + 1] == fs + [Frame(base, scratch[current].count, 0)];
        stack := stack + [Pending([], scratch[current].count - 1)];
        frameCount := frameCount + 1;
        current := frames[frameCount - 1].first;
        continue;
      }
      ReadLeaf(input, cells, scratch[..], fs, stack, start, base, limits, whole);
      ghost var t: Tree, lo: nat := LeafTree(scratch[current]), base;
      assert Below(t) == 0 by { LeafHolds(scratch[..], current, base); }
      while true
        invariant frameCount <= MAX_PARSER_DEPTH && start < pos <= |input|
        invariant lo + Below(t) == nextFree
        invariant Closing(input, scratch[..], frames[..frameCount], stack, t, pos, lo, limits, whole)
        decreases frameCount
      {
        if frameCount == 0 {
          assert frames[..0] == [];
          CloseAll(input, scratch[..], stack, t, pos, lo, limits, whole);
          return Ok, pos, "";
        }
        ghost var open := frames[..frameCount];
        frames[frameCount - 1] := frames[frameCount - 1].(index := frames[frameCount - 1].index + 1);
        assert frames[..frameCount] == Advance(open) && Init(open) == frames[..frameCount - 1];
        if frames[frameCount - 1].index < frames[frameCount - 1].count {
          CloseNext(input, scratch[..], open, stack, t, pos, lo, limits, whole);
          stack := Init(stack) + [Pending(Last(stack).done + [t], Last(stack).remaining - 1)];
          current := frames[frameCount - 1].first + frames[frameCount - 1].index;
          ReadingBounds(input, scratch[..], frames[..frameCount], stack, pos, nextFree, limits, whole);
          break;
        }
        ClosePop(input, scratch[..], open, stack, t, pos, lo, limits, whole);
        t, lo, stack := List(Last(stack).done + [t]), Last(open).first, Init(stack);
        frameCount := frameCount - 1;
      }
    }
  }

  lemma ReadingBounds(input: string, cells: seq<RespValue>, frames: seq<Frame>, stack: seq<Pending>, pos: nat, free: nat, limits: RespLimits, whole: Outcome)
    requires Reading(input, cells, frames, stack, pos, free, limits, whole)
    ensures Current(frames) < free <= |cells|
  {
  }

  lemma FrameFacts(cells: seq<RespValue>, frames: seq<Frame>, stack: seq<Pending>, free: nat)
    requires frames != [] && StackOk(cells, frames, stack, free)
    ensures Last(frames).index + 1 < Last(frames).count <==> Last(stack).remaining > 0
    ensures |stack| == |frames|
  {
  }

  lemma CurrentBelow(cells: seq<RespValue>, frames: seq<Frame>, stack: seq<Pending>, free: nat)
    requires frames != [] && StackOk(cells, frames, stack, free)
    ensures Current(frames) < free
  {
  }

  lemma LeafDone(input: string, pos: nat, free: nat, capacity: nat, limits: RespLimits, depth: nat)
    requires free <= capacity
    requires var h := HeadAt(input, pos, free, capacity, limits, depth); h.Parsed? && h.cell.count == 0
    ensures var h := HeadAt(input, pos, free, capacity, limits, depth);
            && ParseTree(input, pos, free, capacity, limits, depth) == Done(LeafTree(h.cell), h.consumed, free)
            && h.nextFree == free
  {
    HeadBounds(input, pos, free, capacity, limits, depth);
    hide HeadAt;
  }

  // ------------------------------------------------------- the layout of the result

  /** Cell p is an array whose children include cell i. */
  predicate Parent(cells: seq<RespValue>, p: nat, i: nat) {
    && p < |cells| && cells[p].kind.Array? && cells[p].elements.Some?
    && cells[p].elements.value <= i < cells[p].elements.value + cells[p].count
  }

  /** The cells of a value: its own and the stretch below it. */
  predicate Within(i: nat, p: nat, t: Tree, lo: nat) {
    p == i || lo <= p < lo + Below(t)
  }

  predicate WithinAll(first: nat, p: nat, items: seq<Tree>, lo: nat) {
    first <= p < first + |items| || lo <= p < lo + BelowAll(items)
  }

  /** Children lie after their parent, inside the stretch of the value. */
  lemma {:induction false} ChildRange(cells: seq<RespValue>, i: nat, t: Tree, lo: nat, p: nat, c: nat)
    requires Holds(cells, i, t, lo) && i < lo && Within(i, p, t, lo) && Parent(cells, p, c)
    ensures p < c && lo <= c < lo + Below(t)
    decreases t, 0
  {
    if t.List? && t.items != [] {
      if p != i { ChildRangeAll(cells, lo, t.items, lo + |t.items|, p, c); }
    }
  }

  lemma {:induction false} ChildRangeAll(cells: seq<RespValue>, first: nat, items: seq<Tree>, lo: nat, p: nat, c: nat)
    requires HoldsAll(cells, first, items, lo) && first + |items| <= lo && WithinAll(first, p, items, lo) && Parent(cells, p, c)
    ensures p < c && lo <= c < lo + BelowAll(items)
    decreases items, 1
  {
    if items != [] {
      if Within(first, p, items[0], lo) {
        ChildRange(cells, first, items[0], lo, p, c);
      } else {
        ChildRangeAll(cells, first + 1, items[1..], lo + Below(items[0]), p, c);
      }
    }
  }

  /** Every cell of the stretch is a child of exactly one cell of the value, which lies before it. */
  lemma {:induction false} OneParent(cells: seq<RespValue>, i: nat, t: Tree, lo: nat, c: nat) returns (p: nat)
    requires Holds(cells, i, t, lo) && i < lo <= c < lo + Below(t)
    ensures Within(i, p, t, lo) && Parent(cells, p, c) && p < c
    ensures forall q: nat :: Within(i, q, t, lo) && Parent(cells, q, c) ==> q == p
    decreases t, 0
  {
    var n := |t.items|;
    if c < lo + n {
      p := i;
      forall q: nat | Within(i, q, t, lo) && Parent(cells, q, c) ensures q == i {
        if q != i { ChildRangeAll(cells, lo, t.items, lo + n, q, c); }
      }
    } else {
      p := OneParentAll(cells, lo, t.items, lo + n, c);
    }
  }

  lemma {:induction false} OneParentAll(cells: seq<RespValue>, first: nat, items: seq<Tree>, lo: nat, c: nat) returns (p: nat)
    requires HoldsAll(cells, first, items, lo) && first + |items| <= lo <= c < lo + BelowAll(items)
    ensures WithinAll(first, p, items, lo) && Parent(cells, p, c) && p < c
    ensures forall q: nat :: WithinAll(first, q, items, lo) && Parent(cells, q, c) ==> q == p
    decreases items, 1
  {
    var b := Below(items[0]);
    if c < lo + b {
      p := OneParent(cells, first, items[0], lo, c);
      forall q: nat | WithinAll(first, q, items, lo) && Parent(cells, q, c) ensures q == p {
        if !Within(first, q, items[0], lo) { ChildRangeAll(cells, first + 1, items[1..], lo + b, q, c); }
      }
    } else {
      p := OneParentAll(cells, first + 1, items[1..], lo + b, c);
      forall q: nat | WithinAll(first, q, items, lo) && Parent(cells, q, c) ensures q == p {
        if Within(first, q, items[0], lo) { ChildRange(cells, first, items[0], lo, q, c); }
      }
    }
  }

  /** After a successful decode the child ranges lie after their parents, are disjoint, and cover
      cells 1 up to the number of cells used: every such cell has exactly one parent among them. */
  lemma ChildrenCover(cells: seq<RespValue>, t: Tree, c: nat)
    requires Holds(cells, 0, t, 1)
    ensures 1 <= c < 1 + Below(t) <==> exists p: nat :: p < 1 + Below(t) && Parent(cells, p, c)
    ensures forall p: nat, q: nat :: p < 1 + Below(t) && q < 1 + Below(t) && Parent(cells, p, c) && Parent(cells, q, c) ==> p == q && p < c
  {
    forall p: nat | p < 1 + Below(t) && Parent(cells, p, c) ensures p < c && 1 <= c < 1 + Below(t) {
      ChildRange(cells, 0, t, 1, p, c);
    }
    forall p: nat, q: nat | p < 1 + Below(t) && q < 1 + Below(t) && Parent(cells, p, c) && Parent(cells, q, c) ensures p == q {
      var r := OneParent(cells, 0, t, 1, c);
      assert Within(0, p, t, 1) && Within(0, q, t, 1);
    }
    if 1 <= c < 1 + Below(t) {
      var r := OneParent(cells, 0, t, 1, c);
      assert r < 1 + Below(t) && Parent(cells, r, c);
    }
  }
}
