/** The decoder of the Redis serialization protocol (version 2) as a relation on bytes: which texts
    are decoded, to which values, and which verdict every other input gets. */
module RespGrammar {
  import opened Prelude
  import opened RespNumber
  import opened RespTree

  // ----------------------------------------------------------------------- lines

  /** A first byte, a line without its end, and what stands behind the line. */
  ghost predicate Opens(rest: string, c: char, line: string, more: string) {
    rest == [c] + line + "\r\n" + more && '\n' !in line
  }

  /** The first line feed follows some other byte than a carriage return. */
  ghost predicate BareLineFeed(rest: string) {
    exists k :: 0 < k < |rest| && rest[k] == '\n' && rest[k - 1] != '\r' && '\n' !in rest[..k]
  }

  lemma OpensReadsSo(input: string, pos: nat, c: char, line: string, more: string)
    requires pos < |input| && Opens(input[pos..], c, line, more)
    ensures input[pos] == c
    ensures LineAt(input, pos + 1) == LineResult(Ok, pos + 1, |line|, pos + |line| + 3, "")
    ensures LineText(input, LineAt(input, pos + 1)) == line && pos + |line| + 3 <= |input| && input[pos + |line| + 3..] == more
  {
    var rest := input[pos..];
    var header := [c] + line + CRLF;
    assert rest == header + more;
    assert StandsAt(input, pos, header) by {
      assert input[pos..pos + |header|] == rest[..|header|] == header;
    }
    TextRead(input, pos, c, line);
    assert input[pos + |header|..] == rest[|header|..] == more;
  }

  lemma LineOpens(input: string, pos: nat)
    requires pos < |input| && LineAt(input, pos + 1).status == Ok
    ensures var line := LineAt(input, pos + 1); var d := LineText(input, line);
            && line.next == pos + |d| + 3 <= |input|
            && input[pos..line.next] == [input[pos]] + d + "\r\n"
            && Opens(input[pos..], input[pos], d, input[line.next..])
  {
    LineHasNoFeed(input, pos + 1);
    var line := LineAt(input, pos + 1);
    var d := LineText(input, line);
    assert input[pos..line.next] == [input[pos]] + d + "\r\n";
    assert input[pos..] == input[pos..line.next] + input[line.next..];
  }

  lemma LineFails(input: string, pos: nat)
    requires pos < |input| && input[pos] in "+-:$*"
    ensures LineAt(input, pos + 1).status in {Ok, NeedMore, Broken}
    ensures LineAt(input, pos + 1).status == NeedMore <==> '\n' !in input[pos..]
    ensures LineAt(input, pos + 1).status == NeedMore ==> LineAt(input, pos + 1).error == ""
    ensures LineAt(input, pos + 1).status == Broken <==> BareLineFeed(input[pos..])
    ensures LineAt(input, pos + 1).status == Broken ==> LineAt(input, pos + 1).error == "expected CRLF"
  {
    var rest, i := input[pos..], FirstLf(input, pos + 1);
    assert forall k :: 0 <= k < |rest| ==> rest[k] == input[pos + k];
    if i < |input| {
      assert rest[i - pos] == '\n';
      if BareLineFeed(rest) {
        var k :| 0 < k < |rest| && rest[k] == '\n' && rest[k - 1] != '\r' && '\n' !in rest[..k];
        assert k <= i - pos;
      } else {
        assert '\n' !in rest[..i - pos];
      }
    }
  }

  // --------------------------------------------------------------------- headers

  /** A header line that is complete and wrong, or asks for more than there is. */
  ghost predicate BadHeader(c: char, line: string, more: string, room: nat, limits: RespLimits, status: RespStatus, error: string) {
    match NumberText(line)
    case None =>
      && status == Broken && c in ":$*"
      && error == if c == ':' then "invalid integer" else if c == '$' then "invalid bulk length" else "invalid array length"
    case Some(v) =>
      if c == '$' then
        if v < -1 then status == Broken && error == "invalid bulk length"
        else if v > limits.maxBulkBytes then status == Broken && error == "bulk length limit"
        else if v >= 0 && |more| < v + 2 then status == NeedMore && error == ""
        else v >= 0 && more[v..v + 2] != "\r\n" && status == Broken && error == "invalid bulk trailer"
      else if c == '*' then
        if v < -1 then status == Broken && error == "invalid array length"
        else if v > limits.maxArrayElements then status == Broken && error == "array length limit"
        else v > room && status == NoMemory && error == "scratch exhausted"
      else false
  }

  /** What is wrong or missing in the first header of rest, with room free cells and depth arrays around it. */
  ghost predicate Defect(rest: string, room: nat, depth: nat, limits: RespLimits, status: RespStatus, error: string) {
    if rest == "" then status == NeedMore && error == ""
    else if rest[0] !in "+-:$*" then status == Broken && error == "unknown RESP type"
    else if rest[0] == '*' && (depth >= limits.maxDepth || depth >= 128) then status == Broken && error == "array depth limit"
    else if '\n' !in rest then status == NeedMore && error == ""
    else if BareLineFeed(rest) then status == Broken && error == "expected CRLF"
    else exists line, more :: Opens(rest, rest[0], line, more) && BadHeader(rest[0], line, more, room, limits, status, error)
  }

  lemma HeadOfLine(input: string, pos: nat, free: nat, capacity: nat, limits: RespLimits, depth: nat, status: RespStatus, error: string)
    requires pos < |input| && free <= capacity && LineAt(input, pos + 1).status == Ok && LineAt(input, pos + 1).next <= |input|
    requires input[pos] in "+-:$*" && (input[pos] == '*' ==> depth < ConfiguredDepth(limits))
    ensures var line := LineAt(input, pos + 1);
            HeadAt(input, pos, free, capacity, limits, depth) == Stop(status, error)
            <==> BadHeader(input[pos], LineText(input, line), input[line.next..], capacity - free, limits, status, error)
  {
    hide FirstLf, LineAt, LineText, NumberText;
    var line := LineAt(input, pos + 1);
    var more := input[line.next..];
    var number := NumberText(LineText(input, line));
    if number.Some? && 0 <= number.value && number.value + 2 <= |more| {
      var v := number.value;
      assert more[v..v + 2] == [input[line.next + v], input[line.next + v + 1]];
    }
  }

  lemma HeadStops(input: string, pos: nat, free: nat, capacity: nat, limits: RespLimits, depth: nat, status: RespStatus, error: string)
    requires pos <= |input| && free <= capacity
    ensures HeadAt(input, pos, free, capacity, limits, depth) == Stop(status, error)
            <==> Defect(input[pos..], capacity - free, depth, limits, status, error)
  {
    hide FirstLf, LineAt, LineText, NumberText, BulkHead, ArrayHead, BadHeader, Opens, BareLineFeed;
    var rest := input[pos..];
    if rest != "" {
      assert rest[0] == input[pos];
      if rest[0] in "+-:$*" && (rest[0] == '*' ==> depth < ConfiguredDepth(limits)) {
        LineFails(input, pos);
        if LineAt(input, pos + 1).status == Ok {
          LineOpens(input, pos);
          HeadOfLine(input, pos, free, capacity, limits, depth, status, error);
          forall line, more | Opens(rest, rest[0], line, more)
            ensures line == LineText(input, LineAt(input, pos + 1)) && more == input[LineAt(input, pos + 1).next..]
          {
            OpensReadsSo(input, pos, rest[0], line, more);
          }
          var d, more := LineText(input, LineAt(input, pos + 1)), input[LineAt(input, pos + 1).next..];
          assert Opens(rest, rest[0], d, more);
          assert Defect(rest, capacity - free, depth, limits, status, error) <==> BadHeader(rest[0], d, more, capacity - free, limits, status, error);
        }
      }
    }
  }

  // ---------------------------------------------------------------------- values

  lemma TakeDrop(input: string, pos: nat, mid: nat, end: nat)
    requires pos <= mid <= end <= |input|
    ensures input[pos..end][..mid - pos] == input[pos..mid] && input[pos..end][mid - pos..] == input[mid..end]
    ensures input[pos..end] == input[pos..mid] + input[mid..end]
  {
  }

  lemma BulkIsSpelled(input: string, pos: nat, next: nat, d: string, v: nat)
    requires pos < next && next + v + 2 <= |input| && input[pos..next] == "$" + d + "\r\n" && NumberText(d) == Some(v)
    requires input[next + v] == '\r' && input[next + v + 1] == '\n'
    ensures Spells(input[pos..next + v + 2], Bulk(input[next..next + v]))
  {
    hide NumberText;
    var x, end := input[next..next + v], next + v + 2;
    TakeDrop(input, pos, next, end);
    TakeDrop(input, next, next + v, end);
    assert input[next + v..end] == "\r\n";
    assert input[pos..end] == "$" + d + "\r\n" + x + "\r\n";
  }

  /** The bytes of a header that was read. */
  lemma HeadIsSpelled(input: string, pos: nat, free: nat, capacity: nat, limits: RespLimits, depth: nat)
    requires free <= capacity
    ensures var h := HeadAt(input, pos, free, capacity, limits, depth);
            h.Parsed? ==>
              && pos < h.consumed <= |input|
              && (h.cell.count == 0 ==> Spells(input[pos..h.consumed], LeafTree(h.cell)))
              && (h.cell.count > 0 ==> exists d :: NumberText(d) == Some(h.cell.count) && input[pos..h.consumed] == "*" + d + "\r\n")
  {
    hide FirstLf, LineAt, LineText, NumberText, Spells, SpellsAll;
    HeadBounds(input, pos, free, capacity, limits, depth);
    var h := HeadAt(input, pos, free, capacity, limits, depth);
    if h.Parsed? {
      LineOpens(input, pos);
      var line := LineAt(input, pos + 1);
      var d := LineText(input, line);
      if input[pos] == '$' && h.cell.kind == BulkString {
        BulkIsSpelled(input, pos, line.next, d, NumberText(d).value);
      } else {
        LeafIsSpelled(input[pos], d);
      }
    }
  }

  lemma LeafIsSpelled(c: char, d: string)
    ensures var text := [c] + d + "\r\n";
            && ('\n' !in d && c == '+' ==> Spells(text, Simple(d)))
            && ('\n' !in d && c == '-' ==> Spells(text, Failing(d)))
            && (c == ':' && NumberText(d).Some? ==> Spells(text, Number(NumberText(d).value)))
            && (c == '$' && NumberText(d) == Some(-1) ==> Spells(text, NullBulk))
            && (c == '*' && NumberText(d) == Some(-1) ==> Spells(text, NullList))
            && (c == '*' && NumberText(d) == Some(0) ==> Spells(text, List([])))
  {
    hide NumberText;
    var text := [c] + d + "\r\n";
    if c == '*' && NumberText(d) == Some(0) {
      assert text == "*" + d + "\r\n" + "" && SpellsAll("", []);
    }
  }

  lemma {:induction false} ParsedIsSpelled(input: string, pos: nat, free: nat, capacity: nat, limits: RespLimits, depth: nat)
    requires free <= capacity
    ensures var r := ParseTree(input, pos, free, capacity, limits, depth);
            r.Done? ==> Spells(input[pos..r.next], r.tree)
    decreases |input| + 1 - pos, 0
  {
    hide HeadAt, LeafTree, NumberText, SpellsAll;
    HeadBounds(input, pos, free, capacity, limits, depth);
    HeadIsSpelled(input, pos, free, capacity, limits, depth);
    var h := HeadAt(input, pos, free, capacity, limits, depth);
    if h.Parsed? && h.cell.count > 0 {
      ParsedAreSpelled(input, h.consumed, h.nextFree, h.cell.count, capacity, limits, depth + 1);
      var r := ParseTrees(input, h.consumed, h.nextFree, h.cell.count, capacity, limits, depth + 1);
      if r.ListDone? {
        var d :| NumberText(d) == Some(h.cell.count) && input[pos..h.consumed] == "*" + d + "\r\n";
        TakeDrop(input, pos, h.consumed, r.next);
        assert input[pos..r.next] == "*" + d + "\r\n" + input[h.consumed..r.next];
      }
    }
  }

  lemma {:induction false} ParsedAreSpelled(input: string, pos: nat, free: nat, count: nat, capacity: nat, limits: RespLimits, depth: nat)
    requires free <= capacity && pos <= |input|
    ensures var r := ParseTrees(input, pos, free, count, capacity, limits, depth);
            r.ListDone? ==> SpellsAll(input[pos..r.next], r.trees)
    decreases |input| + 1 - pos, 1 + count
  {
    hide ParseTree, Spells;
    if count > 0 {
      ParsedIsSpelled(input, pos, free, capacity, limits, depth);
      var first := ParseTree(input, pos, free, capacity, limits, depth);
      if first.Done? {
        ParsedAreSpelled(input, first.next, first.free, count - 1, capacity, limits, depth);
        var rest := ParseTrees(input, first.next, first.free, count - 1, capacity, limits, depth);
        if rest.ListDone? {
          assert ([first.tree] + rest.trees)[1..] == rest.trees;
          TakeDrop(input, pos, first.next, rest.next);
        }
      }
    }
  }

  /** The accepted inputs: a value is decoded exactly from its texts, whatever follows them, if it is
      within the limits and its cells fit; the bytes and the cells used are those of the value. */
  lemma Accepted(input: string, t: Tree, next: nat, free: nat, capacity: nat, limits: RespLimits)
    ensures Decode(input, capacity, limits) == Done(t, next, free)
            <==> next <= |input| && Spells(input[..next], t) && Acceptable(t, limits, 0) && free == 1 + Below(t) <= capacity
  {
    hide ParseTree, Spells, Acceptable, Below;
    if capacity > 0 {
      ParsedIsSpelled(input, 0, 1, capacity, limits, 0);
      ParsedIsAcceptable(input, 0, 1, capacity, limits, 0);
      if next <= |input| {
        assert input[0..next] == input[..next];
        if Spells(input[..next], t) && Acceptable(t, limits, 0) && 1 + Below(t) <= capacity {
          SpelledIsRead(input, 0, input[..next], t, 1, capacity, limits, 0);
        }
      }
    }
  }

  // ------------------------------------------------------------------- rejections

  /** The first value of rest cannot be decoded: its header has the defect, or it is an array with
      a good header and an item that cannot be decoded. */
  ghost predicate Rejects(rest: string, room: nat, depth: nat, limits: RespLimits, status: RespStatus, error: string)
    decreases |rest|, 0
  {
    || Defect(rest, room, depth, limits, status, error)
    || exists d, more ::
         && Opens(rest, '*', d, more) && NumberText(d).Some? && 0 < NumberText(d).value <= limits.maxArrayElements
         && depth < limits.maxDepth && depth < 128 && NumberText(d).value <= room
         && RejectsAmong(more, NumberText(d).value, room - NumberText(d).value, depth + 1, limits, status, error)
  }

  /** Of the next count values of rest one cannot be decoded, and those before it can. */
  ghost predicate RejectsAmong(rest: string, count: nat, room: nat, depth: nat, limits: RespLimits, status: RespStatus, error: string)
    decreases |rest|, count
  {
    count > 0
    && (|| Rejects(rest, room, depth, limits, status, error)
        || exists t, k ::
             && 0 <= k <= |rest| && Spells(rest[..k], t) && Acceptable(t, limits, depth) && Below(t) <= room
             && RejectsAmong(rest[k..], count - 1, room - Below(t), depth, limits, status, error))
  }

  lemma ArrayOpens(input: string, pos: nat, free: nat, capacity: nat, limits: RespLimits, depth: nat)
    requires pos <= |input| && free <= capacity
    ensures var h := HeadAt(input, pos, free, capacity, limits, depth);
            h.Parsed? && h.cell.count > 0 ==>
              && pos < h.consumed <= |input| && depth < limits.maxDepth && depth < 128
              && h.cell.count <= limits.maxArrayElements && h.nextFree == free + h.cell.count <= capacity
              && exists d :: NumberText(d) == Some(h.cell.count) && Opens(input[pos..], '*', d, input[h.consumed..])
  {
    hide FirstLf, LineAt, LineText, NumberText, Opens;
    HeadBounds(input, pos, free, capacity, limits, depth);
    if HeadAt(input, pos, free, capacity, limits, depth).Parsed? {
      LineOpens(input, pos);
    }
  }

  lemma OpensAnArray(input: string, pos: nat, d: string, more: string, free: nat, capacity: nat, limits: RespLimits, depth: nat)
    requires pos <= |input| && Opens(input[pos..], '*', d, more) && NumberText(d).Some? && 0 < NumberText(d).value <= limits.maxArrayElements
    requires depth < limits.maxDepth && depth < 128 && free + NumberText(d).value <= capacity
    ensures var n := NumberText(d).value; var consumed := pos + |d| + 3;
            && consumed <= |input| && more == input[consumed..]
            && HeadAt(input, pos, free, capacity, limits, depth) == Parsed(RespValue(Array, "", 0, Some(free), n), consumed, free + n)
  {
    OpensReadsSo(input, pos, '*', d, more);
    hide FirstLf, LineAt, LineText, NumberText;
  }

  lemma {:induction false} FailedIsRejected(input: string, pos: nat, free: nat, capacity: nat, limits: RespLimits, depth: nat)
    requires free <= capacity && pos <= |input|
    ensures var r := ParseTree(input, pos, free, capacity, limits, depth);
            r.Fail? ==> Rejects(input[pos..], capacity - free, depth, limits, r.status, r.error)
    decreases |input| + 1 - pos, 0
  {
    hide HeadAt, LeafTree, NumberText, Opens, Defect, RejectsAmong;
    HeadBounds(input, pos, free, capacity, limits, depth);
    var h := HeadAt(input, pos, free, capacity, limits, depth);
    match h {
      case Stop(status, error) => HeadStops(input, pos, free, capacity, limits, depth, status, error);
      case Parsed(cell, consumed, nextFree) =>
        if cell.count > 0 {
          ArrayOpens(input, pos, free, capacity, limits, depth);
          FailedIsRejectedAmong(input, consumed, nextFree, cell.count, capacity, limits, depth + 1);
        }
    }
  }

  lemma {:induction false} FailedIsRejectedAmong(input: string, pos: nat, free: nat, count: nat, capacity: nat, limits: RespLimits, depth: nat)
    requires free <= capacity && pos <= |input|
    ensures var r := ParseTrees(input, pos, free, count, capacity, limits, depth);
            r.ListFail? ==> RejectsAmong(input[pos..], count, capacity - free, depth, limits, r.status, r.error)
    decreases |input| + 1 - pos, 1 + count
  {
    hide ParseTree, Spells, Acceptable, Below, Rejects;
    if count > 0 {
      var first := ParseTree(input, pos, free, capacity, limits, depth);
      FailedIsRejected(input, pos, free, capacity, limits, depth);
      if first.Done? {
        ParsedIsSpelled(input, pos, free, capacity, limits, depth);
        ParsedIsAcceptable(input, pos, free, capacity, limits, depth);
        FailedIsRejectedAmong(input, first.next, first.free, count - 1, capacity, limits, depth);
        var k := first.next - pos;
        TakeDrop(input, pos, first.next, |input|);
        assert input[pos..|input|] == input[pos..] && input[first.next..|input|] == input[first.next..];
        assert Spells(input[pos..][..k], first.tree);
      }
    }
  }

  lemma {:induction false} RejectedFails(input: string, pos: nat, free: nat, capacity: nat, limits: RespLimits, depth: nat, status: RespStatus, error: string)
    requires free <= capacity && pos <= |input| && Rejects(input[pos..], capacity - free, depth, limits, status, error)
    ensures ParseTree(input, pos, free, capacity, limits, depth) == Fail(status, error)
    decreases |input| + 1 - pos, 0
  {
    hide HeadAt, LeafTree, NumberText, Opens, Defect, RejectsAmong;
    HeadStops(input, pos, free, capacity, limits, depth, status, error);
    if !Defect(input[pos..], capacity - free, depth, limits, status, error) {
      var d, more :|
        && Opens(input[pos..], '*', d, more) && NumberText(d).Some? && 0 < NumberText(d).value <= limits.maxArrayElements
        && depth < limits.maxDepth && depth < 128 && NumberText(d).value <= capacity - free
        && RejectsAmong(more, NumberText(d).value, capacity - free - NumberText(d).value, depth + 1, limits, status, error);
      OpensAnArray(input, pos, d, more, free, capacity, limits, depth);
      var n := NumberText(d).value;
      RejectedFailsAmong(input, pos + |d| + 3, free + n, n, capacity, limits, depth + 1, status, error);
    }
  }

  lemma {:induction false} RejectedFailsAmong(input: string, pos: nat, free: nat, count: nat, capacity: nat, limits: RespLimits, depth: nat, status: RespStatus, error: string)
    requires free <= capacity && pos <= |input| && RejectsAmong(input[pos..], count, capacity - free, depth, limits, status, error)
    ensures ParseTrees(input, pos, free, count, capacity, limits, depth) == ListFail(status, error)
    decreases |input| + 1 - pos, 1 + count
  {
    hide ParseTree, Spells, Acceptable, Below, Rejects;
    var rest := input[pos..];
    if Rejects(rest, capacity - free, depth, limits, status, error) {
      RejectedFails(input, pos, free, capacity, limits, depth, status, error);
    } else {
      var t, k :|
        && 0 <= k <= |rest| && Spells(rest[..k], t) && Acceptable(t, limits, depth) && Below(t) <= capacity - free
        && RejectsAmong(rest[k..], count - 1, capacity - free - Below(t), depth, limits, status, error);
      assert input[pos..pos + k] == rest[..k];
      SpelledIsRead(input, pos, rest[..k], t, free, capacity, limits, depth);
      assert input[pos + k..] == rest[k..];
      RejectedFailsAmong(input, pos + k, free + Below(t), count - 1, capacity, limits, depth, status, error);
    }
  }

  /** The rejected inputs: the verdict is that of the first defect in reading order. */
  lemma Rejected(input: string, status: RespStatus, error: string, capacity: nat, limits: RespLimits)
    ensures Decode(input, capacity, limits) == Fail(status, error)
            <==> if capacity == 0 then status == NoMemory && error == "scratch is empty"
                 else Rejects(input, capacity - 1, 0, limits, status, error)
  {
    hide ParseTree, Rejects;
    if capacity > 0 {
      assert input[0..] == input;
      FailedIsRejected(input, 0, 1, capacity, limits, 0);
      if Rejects(input, capacity - 1, 0, limits, status, error) {
        RejectedFails(input, 0, 1, capacity, limits, 0, status, error);
      }
    }
  }
}
