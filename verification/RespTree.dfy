/** Reading the Redis serialization protocol (version 2) by recursive descent, writing it, and how
    the two relate: round trip, prefixes, streams. */
module RespTree {
  import opened Prelude
  import opened RespNumber

  const MAX_PARSER_DEPTH := 128

  datatype RespType = SimpleString | Error | Integer | BulkString | NullBulkString | Array | NullArray

  /** A decoded cell; elements is the scratch index of the first child of a non-empty array. */
  datatype RespValue = RespValue(kind: RespType, text: string, integer: int, elements: Option<nat>, count: nat)

  datatype RespLimits = RespLimits(maxBulkBytes: nat, maxArrayElements: nat, maxDepth: nat)

  datatype RespStatus = Ok | NeedMore | Broken | NoMemory

  datatype LineResult = LineResult(status: RespStatus, begin: nat, size: nat, next: nat, error: string)

  /** What one value header yields: a verdict other than Ok, or a cell. */
  datatype Head = Stop(status: RespStatus, error: string) | Parsed(cell: RespValue, consumed: nat, nextFree: nat)

  /** The values of the protocol. */
  datatype Tree =
    | Simple(text: string)
    | Failing(text: string)
    | Number(value: int)
    | Bulk(text: string)
    | NullBulk
    | List(items: seq<Tree>)
    | NullList

  // ---------------------------------------------------------------------- lines

  /** The first line feed at or after begin, or the length. */
  function FirstLf(input: string, begin: nat): (i: nat)
    requires begin <= |input|
    ensures begin <= i <= |input|
    ensures i < |input| ==> input[i] == '\n'
    ensures forall j :: begin <= j < i ==> input[j] != '\n'
    decreases |input| - begin
  {
    if begin == |input| || input[begin] == '\n' then begin else FirstLf(input, begin + 1)
  }

  /** The line at begin: everything up to its first line feed, which a carriage return must precede. */
  function LineAt(input: string, begin: nat): LineResult {
    if begin > |input| then LineResult(NeedMore, begin, 0, begin, "")
    else
      var i := FirstLf(input, begin);
      if i == |input| then LineResult(NeedMore, begin, 0, |input|, "")
      else if i == begin || input[i - 1] != '\r' then LineResult(Broken, begin, 0, i + 1, "expected CRLF")
      else LineResult(Ok, begin, i - begin - 1, i + 1, "")
  }

  method ReadLine(input: string, begin: nat) returns (r: LineResult)
    ensures r == LineAt(input, begin)
  {
    if begin > |input| {
      return LineResult(NeedMore, begin, 0, begin, "");
    }
    for i := begin to |input|
      invariant FirstLf(input, begin) == FirstLf(input, i)
    {
      if input[i] == '\n' {
        if i == begin || input[i - 1] != '\r' {
          return LineResult(Broken, begin, 0, i + 1, "expected CRLF");
        }
        return LineResult(Ok, begin, i - begin - 1, i + 1, "");
      }
    }
    return LineResult(NeedMore, begin, 0, |input|, "");
  }

  function LineText(input: string, line: LineResult): string {
    if line.begin + line.size <= |input| then input[line.begin..line.begin + line.size] else ""
  }

  // ---------------------------------------------------------------------- headers

  function Leaf(kind: RespType, text: string): RespValue {
    RespValue(kind, text, 0, None, 0)
  }

  function ConfiguredDepth(limits: RespLimits): nat {
    if limits.maxDepth < MAX_PARSER_DEPTH then limits.maxDepth else MAX_PARSER_DEPTH
  }

  function BulkHead(input: string, line: LineResult, free: nat, limits: RespLimits): Head {
    var length := NumberText(LineText(input, line));
    if length.None? then Stop(Broken, "invalid bulk length")
    else if length.value == -1 then Parsed(Leaf(NullBulkString, ""), line.next, free)
    else if length.value < 0 then Stop(Broken, "invalid bulk length")
    else if length.value > limits.maxBulkBytes then Stop(Broken, "bulk length limit")
    else if length.value > |input| - line.next then Stop(NeedMore, "")
    else
      var trailer := line.next + length.value;
      if |input| - trailer < 2 then Stop(NeedMore, "")
      else if input[trailer] != '\r' || input[trailer + 1] != '\n' then Stop(Broken, "invalid bulk trailer")
      else Parsed(Leaf(BulkString, input[line.next..trailer]), trailer + 2, free)
  }

  function ArrayHead(input: string, line: LineResult, free: nat, capacity: nat, limits: RespLimits): Head {
    var count := NumberText(LineText(input, line));
    if count.None? then Stop(Broken, "invalid array length")
    else if count.value == -1 then Parsed(Leaf(NullArray, ""), line.next, free)
    else if count.value < 0 then Stop(Broken, "invalid array length")
    else if count.value > limits.maxArrayElements then Stop(Broken, "array length limit")
    else if count.value > capacity - free then Stop(NoMemory, "scratch exhausted")
    else if count.value == 0 then Parsed(Leaf(Array, ""), line.next, free)
    else Parsed(RespValue(Array, "", 0, Some(free), count.value), line.next, free + count.value)
  }

  function HeadAt(input: string, pos: nat, free: nat, capacity: nat, limits: RespLimits, depth: nat): Head {
    if pos >= |input| then Stop(NeedMore, "")
    else
      var prefix := input[pos];
      var line := LineAt(input, pos + 1);
      if prefix == '*' && depth + 1 > ConfiguredDepth(limits) then Stop(Broken, "array depth limit")
      else if prefix !in "+-:$*" then Stop(Broken, "unknown RESP type")
      else if line.status != Ok then Stop(line.status, line.error)
      else if prefix == '+' then Parsed(Leaf(SimpleString, LineText(input, line)), line.next, free)
      else if prefix == '-' then Parsed(Leaf(Error, LineText(input, line)), line.next, free)
      else if prefix == ':' then
        var number := NumberText(LineText(input, line));
        if number.None? then Stop(Broken, "invalid integer")
        else Parsed(RespValue(Integer, "", number.value, None, 0), line.next, free)
      else if prefix == '$' then BulkHead(input, line, free, limits)
      else ArrayHead(input, line, free, capacity, limits)
  }

  lemma HeadBounds(input: string, pos: nat, free: nat, capacity: nat, limits: RespLimits, depth: nat)
    requires free <= capacity
    ensures var h := HeadAt(input, pos, free, capacity, limits, depth);
            && (h.Stop? ==> h.status != Ok)
            && (h.Parsed? ==>
                  && pos < h.consumed <= |input|
                  && h.nextFree == free + h.cell.count <= capacity
                  && (h.cell.count > 0 ==> h.cell == RespValue(Array, "", 0, Some(free), h.cell.count) && depth < ConfiguredDepth(limits)))
  {
    hide FirstLf, LineText, NumberText;
  }

  // ------------------------------------------------------------- recursive descent

  datatype Outcome = Fail(status: RespStatus, error: string) | Done(tree: Tree, next: nat, free: nat)
  datatype ListOutcome = ListFail(status: RespStatus, error: string) | ListDone(trees: seq<Tree>, next: nat, free: nat)

  function LeafTree(cell: RespValue): Tree {
    match cell.kind
    case SimpleString => Simple(cell.text)
    case Error => Failing(cell.text)
    case Integer => Number(cell.integer)
    case BulkString => Bulk(cell.text)
    case NullBulkString => NullBulk
    case Array => List([])
    case NullArray => NullList
  }

  /** One value: its header, then for an array that many values, one after the other. */
  function ParseTree(input: string, pos: nat, free: nat, capacity: nat, limits: RespLimits, depth: nat): (r: Outcome)
    requires free <= capacity
    ensures r.Done? ==> pos < r.next <= |input| && free <= r.free <= capacity
    ensures r.Fail? ==> r.status != Ok
    decreases |input| + 1 - pos, 0
  {
    HeadBounds(input, pos, free, capacity, limits, depth);
    match HeadAt(input, pos, free, capacity, limits, depth)
    case Stop(status, error) => Fail(status, error)
    case Parsed(cell, consumed, nextFree) =>
      if cell.count == 0 then Done(LeafTree(cell), consumed, nextFree)
      else
        match ParseTrees(input, consumed, nextFree, cell.count, capacity, limits, depth + 1)
        case ListFail(status, error) => Fail(status, error)
        case ListDone(trees, next, free') => Done(List(trees), next, free')
  }

  function ParseTrees(input: string, pos: nat, free: nat, count: nat, capacity: nat, limits: RespLimits, depth: nat): (r: ListOutcome)
    requires free <= capacity && pos <= |input|
    ensures r.ListDone? ==> |r.trees| == count && pos <= r.next <= |input| && free <= r.free <= capacity
    ensures r.ListFail? ==> r.status != Ok
    decreases |input| + 1 - pos, 1 + count
  {
    if count == 0 then ListDone([], pos, free)
    else
      match ParseTree(input, pos, free, capacity, limits, depth)
      case Fail(status, error) => ListFail(status, error)
      case Done(tree, next, free1) =>
        match ParseTrees(input, next, free1, count - 1, capacity, limits, depth)
        case ListFail(status, error) => ListFail(status, error)
        case ListDone(trees, next2, free2) => ListDone([tree] + trees, next2, free2)
  }

  // ---------------------------------------------------------------------- writing

  const CRLF := "\r\n"

  /** The bytes the Pack functions append for a value; an array is its header and then its items. */
  function Pack(t: Tree): string {
    match t
    case Simple(text) => "+" + text + CRLF
    case Failing(text) => "-" + text + CRLF
    case Number(value) => ":" + SignedText(value) + CRLF
    case Bulk(text) => "$" + UnsignedText(|text|) + CRLF + text + CRLF
    case NullBulk => "$-1" + CRLF
    case List(items) => "*" + UnsignedText(|items|) + CRLF + PackAll(items)
    case NullList => "*-1" + CRLF
  }

  function PackAll(items: seq<Tree>): string {
    if items == [] then "" else Pack(items[0]) + PackAll(items[1..])
  }

  method PackSimpleString(value: string, out: Output)
    modifies out
    ensures out.bytes == old(out.bytes) + Pack(Simple(value))
  {
    out.Append("+");
    out.Append(value);
    out.Append(CRLF);
  }

  method PackError(value: string, out: Output)
    modifies out
    ensures out.bytes == old(out.bytes) + Pack(Failing(value))
  {
    out.Append("-");
    out.Append(value);
    out.Append(CRLF);
  }

  method PackInteger(value: int, out: Output)
    requires INT64_MIN <= value <= INT64_MAX
    modifies out
    ensures out.bytes == old(out.bytes) + Pack(Number(value))
  {
    hide SignedText, UnsignedText;
    out.Append(":");
    AppendSignedInteger(value, out);
    out.Append(CRLF);
  }

  method PackBulkString(value: string, out: Output)
    requires |value| < 0x1_0000_0000_0000_0000
    modifies out
    ensures out.bytes == old(out.bytes) + Pack(Bulk(value))
  {
    out.Append("$");
    AppendUnsignedInteger(|value|, out);
    out.Append(CRLF);
    out.Append(value);
    out.Append(CRLF);
  }

  method PackNullBulkString(out: Output)
    modifies out
    ensures out.bytes == old(out.bytes) + Pack(NullBulk)
  {
    out.Append("$-1\r\n");
  }

  method PackArrayHeader(count: nat, out: Output)
    requires count < SIZE_LIMIT
    modifies out
    ensures out.bytes == old(out.bytes) + "*" + UnsignedText(count) + CRLF
  {
    out.Append("*");
    AppendUnsignedInteger(count, out);
    out.Append(CRLF);
  }

  method PackNullArray(out: Output)
    modifies out
    ensures out.bytes == old(out.bytes) + Pack(NullList)
  {
    out.Append("*-1\r\n");
  }

  function Bulks(args: seq<string>): (r: seq<Tree>)
    ensures |r| == |args| && forall i :: 0 <= i < |r| ==> r[i] == Bulk(args[i])
  {
    seq(|args|, i requires 0 <= i < |args| => Bulk(args[i]))
  }

  lemma {:induction false} PackAllSnoc(items: seq<Tree>, t: Tree)
    ensures PackAll(items + [t]) == PackAll(items) + Pack(t)
  {
    if items != [] {
      assert (items + [t])[1..] == items[1..] + [t];
      PackAllSnoc(items[1..], t);
    }
  }

  lemma NothingPacked()
    ensures PackAll([]) == ""
  {
  }

  /** A command is an array of bulk strings, and the size reserved for it is exactly its size. */
  method PackCommand(args: seq<string>, out: Output) returns (additional: nat)
    requires |args| < SIZE_LIMIT && forall i :: 0 <= i < |args| ==> |args[i]| < SIZE_LIMIT
    modifies out
    ensures out.bytes == old(out.bytes) + Pack(List(Bulks(args)))
    ensures additional == |Pack(List(Bulks(args)))|
  {
    hide PackAll, UnsignedText;
    ghost var items := Bulks(args);
    NothingPacked();
    var length := DecimalLength(|args|);
    additional := 1 + length + 2;
    for i := 0 to |args|
      invariant out.bytes == old(out.bytes)
      invariant additional == 1 + |UnsignedText(|args|)| + 2 + |PackAll(items[..i])|
    {
      var argLength := DecimalLength(|args[i]|);
      additional := additional + (1 + argLength + 2 + |args[i]| + 2);
      PackAllSnoc(items[..i], items[i]);
      assert items[..i + 1] == items[..i] + [items[i]];
    }
    assert items[..|args|] == items;
    PackArrayHeader(|args|, out);
    ghost var header := out.bytes;
    assert header == old(out.bytes) + ("*" + UnsignedText(|args|) + CRLF);
    assert Pack(List(items)) == "*" + UnsignedText(|args|) + CRLF + PackAll(items);
    for i := 0 to |args|
      invariant out.bytes == header + PackAll(items[..i])
    {
      PackBulkString(args[i], out);
      PackAllSnoc(items[..i], items[i]);
      assert items[..i + 1] == items[..i] + [items[i]];
    }
    assert old(out.bytes) + Pack(List(items)) == header + PackAll(items);
  }

  // ------------------------------------------------------------------- round trip

  /** The number of scratch cells below a value. */
  function Below(t: Tree): nat {
    if t.List? then |t.items| + BelowAll(t.items) else 0
  }

  function BelowAll(items: seq<Tree>): nat {
    if items == [] then 0 else Below(items[0]) + BelowAll(items[1..])
  }

  /** A value the decoder can produce: within the limits, and lines without line feeds. */
  predicate Acceptable(t: Tree, limits: RespLimits, depth: nat) {
    match t
    case Simple(text) => '\n' !in text
    case Failing(text) => '\n' !in text
    case Number(value) => INT64_MIN <= value <= INT64_MAX
    case Bulk(text) => |text| <= limits.maxBulkBytes && |text| <= INT64_MAX
    case NullBulk => true
    case List(items) =>
      && depth < ConfiguredDepth(limits) && |items| <= limits.maxArrayElements && |items| <= INT64_MAX
      && forall i :: 0 <= i < |items| ==> Acceptable(items[i], limits, depth + 1)
    case NullList => depth < ConfiguredDepth(limits)
  }

  /** text stands in input at pos. */
  predicate StandsAt(input: string, pos: nat, text: string) {
    pos + |text| <= |input| && input[pos..pos + |text|] == text
  }

  lemma StandsSplit(input: string, pos: nat, a: string, b: string)
    requires StandsAt(input, pos, a + b)
    ensures StandsAt(input, pos, a) && StandsAt(input, pos + |a|, b)
  {
    var ab := a + b;
    assert input[pos..pos + |a|] == input[pos..pos + |ab|][..|a|] == ab[..|a|] == a;
    assert input[pos + |a|..pos + |ab|] == input[pos..pos + |ab|][|a|..] == ab[|a|..] == b;
  }

  lemma LineRead(input: string, begin: nat, text: string)
    requires StandsAt(input, begin, text + CRLF) && '\n' !in text
    ensures LineAt(input, begin) == LineResult(Ok, begin, |text|, begin + |text| + 2, "")
    ensures LineText(input, LineAt(input, begin)) == text
  {
    StandsSplit(input, begin, text, CRLF);
    var lf := begin + |text| + 1;
    assert input[begin + |text|..][..2] == CRLF;
    assert input[lf] == '\n' && input[lf - 1] == '\r';
    forall j | begin <= j < lf ensures input[j] != '\n' {
      if j < begin + |text| {
        assert input[j] == text[j - begin] && text[j - begin] in text;
      }
    }
    assert FirstLf(input, begin) == lf;
  }

  /** The texts a decoder may meet for a value. Only numbers have more than one: their digits may start
      with zeros, and zero may have a minus sign. */
  ghost predicate Spells(text: string, t: Tree)
    decreases t, 0
  {
    match t
    case Simple(x) => text == "+" + x + "\r\n" && '\n' !in x
    case Failing(x) => text == "-" + x + "\r\n" && '\n' !in x
    case Number(v) => exists d :: NumberText(d) == Some(v) && text == ":" + d + "\r\n"
    case Bulk(x) => exists d :: NumberText(d) == Some(|x|) && text == "$" + d + "\r\n" + x + "\r\n"
    case NullBulk => exists d :: NumberText(d) == Some(-1) && text == "$" + d + "\r\n"
    case List(items) =>
      exists d, body :: NumberText(d) == Some(|items|) && text == "*" + d + "\r\n" + body && SpellsAll(body, items)
    case NullList => exists d :: NumberText(d) == Some(-1) && text == "*" + d + "\r\n"
  }

  /** The texts of the items, one after the other. */
  ghost predicate SpellsAll(text: string, items: seq<Tree>)
    decreases items, 1
  {
    if items == [] then text == ""
    else exists k :: 0 <= k <= |text| && Spells(text[..k], items[0]) && SpellsAll(text[k..], items[1..])
  }

  lemma NumberHasNoFeed(d: string)
    requires NumberText(d).Some?
    ensures '\n' !in d
  {
    forall i | 0 <= i < |d| ensures d[i] != '\n' {
      if d[0] == '-' && i > 0 {
        assert d[i] == Body(d)[i - 1];
      }
    }
  }

  /** A header "x", number, CRLF at pos. */
  lemma NumberRead(input: string, pos: nat, c: char, d: string)
    requires StandsAt(input, pos, [c] + d + CRLF) && NumberText(d).Some?
    ensures pos < |input| && input[pos] == c
    ensures LineAt(input, pos + 1) == LineResult(Ok, pos + 1, |d|, pos + |d| + 3, "")
    ensures LineText(input, LineAt(input, pos + 1)) == d
  {
    NumberHasNoFeed(d);
    TextRead(input, pos, c, d);
  }

  /** A line "x", text, CRLF at pos. */
  lemma TextRead(input: string, pos: nat, c: char, text: string)
    requires StandsAt(input, pos, [c] + text + CRLF) && '\n' !in text
    ensures pos < |input| && input[pos] == c
    ensures LineAt(input, pos + 1) == LineResult(Ok, pos + 1, |text|, pos + |text| + 3, "")
    ensures LineText(input, LineAt(input, pos + 1)) == text
  {
    assert [c] + text + CRLF == [c] + (text + CRLF);
    StandsSplit(input, pos, [c], text + CRLF);
    assert input[pos..pos + 1][0] == c;
    LineRead(input, pos + 1, text);
  }

  lemma TextHeadRead(input: string, pos: nat, c: char, text: string, free: nat, capacity: nat, limits: RespLimits, depth: nat)
    requires c in "+-" && StandsAt(input, pos, [c] + text + CRLF) && '\n' !in text
    ensures HeadAt(input, pos, free, capacity, limits, depth)
            == Parsed(Leaf(if c == '+' then SimpleString else Error, text), pos + |text| + 3, free)
  {
    hide FirstLf, LineAt, LineText, NumberText, BulkHead, ArrayHead, StandsAt;
    TextRead(input, pos, c, text);
  }

  lemma IntegerHeadRead(input: string, pos: nat, d: string, free: nat, capacity: nat, limits: RespLimits, depth: nat)
    requires StandsAt(input, pos, [':'] + d + CRLF) && NumberText(d).Some?
    ensures HeadAt(input, pos, free, capacity, limits, depth)
            == Parsed(RespValue(Integer, "", NumberText(d).value, None, 0), pos + |d| + 3, free)
  {
    hide FirstLf, LineAt, LineText, NumberText, BulkHead, ArrayHead, StandsAt;
    NumberRead(input, pos, ':', d);
  }

  lemma NullHeadRead(input: string, pos: nat, c: char, d: string, free: nat, capacity: nat, limits: RespLimits, depth: nat)
    requires c in "$*" && StandsAt(input, pos, [c] + d + CRLF) && NumberText(d) == Some(-1)
    requires c == '*' ==> depth < ConfiguredDepth(limits)
    ensures HeadAt(input, pos, free, capacity, limits, depth)
            == Parsed(Leaf(if c == '$' then NullBulkString else NullArray, ""), pos + |d| + 3, free)
  {
    hide FirstLf, LineAt, LineText, NumberText, StandsAt;
    NumberRead(input, pos, c, d);
  }

  lemma LeafRead(input: string, pos: nat, text: string, t: Tree, free: nat, capacity: nat, limits: RespLimits, depth: nat)
    requires free <= capacity && !t.List? && Acceptable(t, limits, depth) && StandsAt(input, pos, text) && Spells(text, t)
    ensures ParseTree(input, pos, free, capacity, limits, depth) == Done(t, pos + |text|, free)
  {
    hide HeadAt, NumberText, StandsAt;
    match t
    case Simple(x) => TextHeadRead(input, pos, '+', x, free, capacity, limits, depth);
    case Failing(x) => TextHeadRead(input, pos, '-', x, free, capacity, limits, depth);
    case Number(v) =>
      var d :| NumberText(d) == Some(v) && text == ":" + d + "\r\n";
      IntegerHeadRead(input, pos, d, free, capacity, limits, depth);
    case Bulk(x) =>
      var d :| NumberText(d) == Some(|x|) && text == "$" + d + "\r\n" + x + "\r\n";
      BulkRead(input, pos, d, x, free, capacity, limits, depth);
    case NullBulk =>
      var d :| NumberText(d) == Some(-1) && text == "$" + d + "\r\n";
      NullHeadRead(input, pos, '$', d, free, capacity, limits, depth);
    case NullList =>
      var d :| NumberText(d) == Some(-1) && text == "*" + d + "\r\n";
      NullHeadRead(input, pos, '*', d, free, capacity, limits, depth);
    case List(_) =>
  }

  lemma BulkRead(input: string, pos: nat, d: string, x: string, free: nat, capacity: nat, limits: RespLimits, depth: nat)
    requires free <= capacity && NumberText(d) == Some(|x|) && |x| <= limits.maxBulkBytes
    requires StandsAt(input, pos, "$" + d + "\r\n" + x + "\r\n")
    ensures HeadAt(input, pos, free, capacity, limits, depth) == Parsed(Leaf(BulkString, x), pos + |d| + |x| + 5, free)
  {
    hide FirstLf, LineAt, LineText, NumberText;
    var header := ['$'] + d + CRLF;
    assert "$" + d + "\r\n" + x + "\r\n" == header + (x + CRLF);
    StandsSplit(input, pos, header, x + CRLF);
    StandsSplit(input, pos + |header|, x, CRLF);
    NumberRead(input, pos, '$', d);
    var trailer := pos + |header| + |x|;
    assert input[trailer] == input[trailer..trailer + 2][0] && input[trailer + 1] == input[trailer..trailer + 2][1];
  }

  /** Every text of an acceptable value is read back, exactly its bytes are consumed and exactly its cells used. */
  lemma {:induction false} SpelledIsRead(input: string, pos: nat, text: string, t: Tree, free: nat, capacity: nat, limits: RespLimits, depth: nat)
    requires Acceptable(t, limits, depth) && free + Below(t) <= capacity && StandsAt(input, pos, text) && Spells(text, t)
    ensures ParseTree(input, pos, free, capacity, limits, depth) == Done(t, pos + |text|, free + Below(t))
    decreases t, 0
  {
    hide HeadAt, FirstLf, LineAt, LineText, NumberText, BelowAll, SpellsAll, LeafTree;
    if t.List? {
      var n := |t.items|;
      var d, body :| NumberText(d) == Some(n) && text == "*" + d + "\r\n" + body && SpellsAll(body, t.items);
      ListHeadRead(input, pos, d, body, n, free, capacity, limits, depth);
      if n > 0 {
        SpelledAreRead(input, pos + |d| + 3, body, t.items, free + n, capacity, limits, depth + 1);
      } else {
        assert LeafTree(Leaf(Array, "")) == List([]) && body == "" && BelowAll([]) == 0 by { EmptyList(body); }
      }
    } else {
      LeafRead(input, pos, text, t, free, capacity, limits, depth);
    }
  }

  lemma EmptyList(body: string)
    ensures LeafTree(Leaf(Array, "")) == List([]) && BelowAll([]) == 0 && (SpellsAll(body, []) ==> body == "")
  {
  }

  lemma ListHeadRead(input: string, pos: nat, d: string, body: string, n: nat, free: nat, capacity: nat, limits: RespLimits, depth: nat)
    requires NumberText(d) == Some(n) && depth < ConfiguredDepth(limits) && n <= limits.maxArrayElements && free + n <= capacity
    requires StandsAt(input, pos, "*" + d + "\r\n" + body)
    ensures StandsAt(input, pos + |d| + 3, body)
    ensures HeadAt(input, pos, free, capacity, limits, depth)
            == Parsed(if n == 0 then Leaf(Array, "") else RespValue(Array, "", 0, Some(free), n), pos + |d| + 3, free + n)
  {
    hide FirstLf, LineAt, LineText, NumberText;
    var header := ['*'] + d + CRLF;
    assert "*" + d + "\r\n" + body == header + body;
    StandsSplit(input, pos, header, body);
    NumberRead(input, pos, '*', d);
  }

  lemma {:induction false} SpelledAreRead(input: string, pos: nat, text: string, items: seq<Tree>, free: nat, capacity: nat, limits: RespLimits, depth: nat)
    requires (forall i :: 0 <= i < |items| ==> Acceptable(items[i], limits, depth))
    requires free + BelowAll(items) <= capacity && StandsAt(input, pos, text) && SpellsAll(text, items)
    ensures ParseTrees(input, pos, free, |items|, capacity, limits, depth) == ListDone(items, pos + |text|, free + BelowAll(items))
    decreases items, 1
  {
    hide HeadAt, Spells, Below, ParseTree, Acceptable, StandsAt;
    if items != [] {
      var k :| 0 <= k <= |text| && Spells(text[..k], items[0]) && SpellsAll(text[k..], items[1..]);
      assert text[..k] + text[k..] == text;
      StandsSplit(input, pos, text[..k], text[k..]);
      SpelledIsRead(input, pos, text[..k], items[0], free, capacity, limits, depth);
      SpelledAreRead(input, pos + k, text[k..], items[1..], free + Below(items[0]), capacity, limits, depth);
      assert [items[0]] + items[1..] == items;
    }
  }

  lemma NumberSpelled(v: int)
    ensures INT64_MIN <= v <= INT64_MAX ==> NumberText(SignedText(v)) == Some(v)
    ensures v >= 0 ==> SignedText(v) == UnsignedText(v)
    ensures SignedText(-1) == "-1"
  {
    PrintThenParse(v);
  }

  /** What is packed is one of the texts of the value. */
  lemma {:induction false} PackedIsSpelled(t: Tree, limits: RespLimits, depth: nat)
    requires Acceptable(t, limits, depth)
    ensures Spells(Pack(t), t)
    decreases t, 0
  {
    hide NumberText, SignedText, UnsignedText, SpellsAll, PackAll;
    NumberSpelled(-1);
    match t
    case Number(v) =>
      NumberSpelled(v);
      assert NumberText(SignedText(v)) == Some(v);
    case Bulk(x) =>
      NumberSpelled(|x|);
      assert NumberText(UnsignedText(|x|)) == Some(|x|);
    case List(items) =>
      NumberSpelled(|items|);
      PackedAreSpelled(items, limits, depth + 1);
      assert NumberText(UnsignedText(|items|)) == Some(|items|) && SpellsAll(PackAll(items), items);
    case _ => assert NumberText("-1") == Some(-1);
  }

  lemma {:induction false} PackedAreSpelled(items: seq<Tree>, limits: RespLimits, depth: nat)
    requires forall i :: 0 <= i < |items| ==> Acceptable(items[i], limits, depth)
    ensures SpellsAll(PackAll(items), items)
    decreases items, 1
  {
    hide Acceptable, Spells, Pack;
    if items != [] {
      PackedIsSpelled(items[0], limits, depth);
      PackedAreSpelled(items[1..], limits, depth);
      var k := |Pack(items[0])|;
      assert PackAll(items)[..k] == Pack(items[0]) && PackAll(items)[k..] == PackAll(items[1..]);
    }
  }

  /** What was packed is read back, exactly its bytes are consumed and exactly its cells are used. */
  lemma PackThenParse(input: string, pos: nat, t: Tree, free: nat, capacity: nat, limits: RespLimits, depth: nat)
    requires Acceptable(t, limits, depth) && free + Below(t) <= capacity && StandsAt(input, pos, Pack(t))
    ensures ParseTree(input, pos, free, capacity, limits, depth) == Done(t, pos + |Pack(t)|, free + Below(t))
  {
    PackedIsSpelled(t, limits, depth);
    SpelledIsRead(input, pos, Pack(t), t, free, capacity, limits, depth);
  }

  /** Whatever is read is acceptable and uses exactly its cells. */
  lemma {:induction false} ParsedIsAcceptable(input: string, pos: nat, free: nat, capacity: nat, limits: RespLimits, depth: nat)
    requires free <= capacity
    ensures var r := ParseTree(input, pos, free, capacity, limits, depth);
            r.Done? ==> Acceptable(r.tree, limits, depth) && r.free == free + Below(r.tree)
    decreases |input| + 1 - pos, 0
  {
    hide HeadAt, LeafTree;
    HeadBounds(input, pos, free, capacity, limits, depth);
    HeadIsAcceptable(input, pos, free, capacity, limits, depth);
    var h := HeadAt(input, pos, free, capacity, limits, depth);
    assert h.Parsed? && h.cell.count == 0 ==> Below(LeafTree(h.cell)) == 0 by { LeafBelow(); }
    if h.Parsed? && h.cell.count > 0 {
      ParsedAreAcceptable(input, h.consumed, h.nextFree, h.cell.count, capacity, limits, depth + 1);
    }
  }

  lemma LeafBelow()
    ensures forall cell :: Below(LeafTree(cell)) == 0
  {
  }

  lemma HeadIsAcceptable(input: string, pos: nat, free: nat, capacity: nat, limits: RespLimits, depth: nat)
    requires free <= capacity
    ensures var h := HeadAt(input, pos, free, capacity, limits, depth);
            h.Parsed? ==>
              && (h.cell.count == 0 ==> Acceptable(LeafTree(h.cell), limits, depth))
              && (h.cell.count > 0 ==> depth < ConfiguredDepth(limits) && h.cell.count <= limits.maxArrayElements && h.cell.count <= INT64_MAX)
  {
    hide FirstLf, LineAt, LineText, NumberText;
    var line := LineAt(input, pos + 1);
    if line.status == Ok { LineHasNoFeed(input, pos + 1); }
    NumberInRange(LineText(input, line));
  }

  lemma NumberInRange(text: string)
    ensures NumberText(text).Some? ==> INT64_MIN <= NumberText(text).value <= INT64_MAX
  {
  }

  lemma LineHasNoFeed(input: string, begin: nat)
    requires LineAt(input, begin).status == Ok
    ensures '\n' !in LineText(input, LineAt(input, begin))
  {
    var line := LineAt(input, begin);
    forall c | c in LineText(input, line) ensures c != '\n' {
      var j :| 0 <= j < line.size && input[line.begin..line.begin + line.size][j] == c;
      assert input[begin + j] == c;
    }
  }

  lemma {:induction false} ParsedAreAcceptable(input: string, pos: nat, free: nat, count: nat, capacity: nat, limits: RespLimits, depth: nat)
    requires free <= capacity && pos <= |input|
    ensures var r := ParseTrees(input, pos, free, count, capacity, limits, depth);
            r.ListDone? ==>
              && (forall i :: 0 <= i < |r.trees| ==> Acceptable(r.trees[i], limits, depth))
              && r.free == free + BelowAll(r.trees)
    decreases |input| + 1 - pos, 1 + count
  {
    hide ParseTree, Acceptable, Below;
    if count > 0 {
      ParsedIsAcceptable(input, pos, free, capacity, limits, depth);
      var first := ParseTree(input, pos, free, capacity, limits, depth);
      if first.Done? {
        ParsedAreAcceptable(input, first.next, first.free, count - 1, capacity, limits, depth);
        var rest := ParseTrees(input, first.next, first.free, count - 1, capacity, limits, depth);
        if rest.ListDone? {
          assert ([first.tree] + rest.trees)[1..] == rest.trees;
        }
      }
    }
  }

  /** One decode at the start of a stream. */
  function Decode(input: string, capacity: nat, limits: RespLimits): (r: Outcome)
    ensures r.Done? ==> 0 < r.next <= |input| && capacity > 0
  {
    if capacity == 0 then Fail(NoMemory, "scratch is empty") else ParseTree(input, 0, 1, capacity, limits, 0)
  }

  /** The round trip, on every value: the packed bytes, followed by anything, decode to the value
      itself and consume exactly those bytes if and only if the value is within the limits, its
      lines hold no line feed, its integers have 64 bits, and its cells fit in the scratch array. */
  lemma RoundTrip(t: Tree, suffix: string, capacity: nat, limits: RespLimits)
    ensures Decode(Pack(t) + suffix, capacity, limits) == Done(t, |Pack(t)|, 1 + Below(t))
            <==> Acceptable(t, limits, 0) && 1 + Below(t) <= capacity
  {
    var input := Pack(t) + suffix;
    if capacity > 0 {
      if Acceptable(t, limits, 0) && 1 + Below(t) <= capacity {
        assert StandsAt(input, 0, Pack(t));
        PackThenParse(input, 0, t, 1, capacity, limits, 0);
      }
      ParsedIsAcceptable(input, 0, 1, capacity, limits, 0);
    }
  }

  // -------------------------------------------------------------------- stability

  lemma {:induction false} FirstLfStable(input: string, more: string, begin: nat)
    requires begin <= |input| && FirstLf(input, begin) < |input|
    ensures FirstLf(input + more, begin) == FirstLf(input, begin)
    decreases |input| - begin
  {
    if input[begin] != '\n' {
      FirstLfStable(input, more, begin + 1);
    }
  }

  lemma LineStable(input: string, more: string, begin: nat)
    requires LineAt(input, begin).status != NeedMore
    ensures LineAt(input + more, begin) == LineAt(input, begin)
    ensures LineText(input + more, LineAt(input, begin)) == LineText(input, LineAt(input, begin))
    ensures LineAt(input, begin).next <= |input|
  {
    FirstLfStable(input, more, begin);
    var line := LineAt(input, begin);
    assert line.begin + line.size <= |input|;
    assert (input + more)[line.begin..line.begin + line.size] == input[line.begin..line.begin + line.size];
  }

  lemma BulkStable(input: string, more: string, line: LineResult, free: nat, limits: RespLimits)
    requires line.next <= |input| && LineText(input + more, line) == LineText(input, line)
    ensures var h := BulkHead(input, line, free, limits);
            h != Stop(NeedMore, "") ==> BulkHead(input + more, line, free, limits) == h
  {
    hide NumberText;
    var length := NumberText(LineText(input, line));
    if length.Some? && 0 <= length.value <= |input| - line.next {
      var trailer := line.next + length.value;
      assert (input + more)[line.next..trailer] == input[line.next..trailer];
    }
  }

  lemma HeadStable(input: string, more: string, pos: nat, free: nat, capacity: nat, limits: RespLimits, depth: nat)
    ensures var h := HeadAt(input, pos, free, capacity, limits, depth);
            (h.Stop? ==> h.status != NeedMore) ==> HeadAt(input + more, pos, free, capacity, limits, depth) == h
  {
    hide NumberText, LineAt, LineText, BulkHead;
    if pos < |input| {
      var line := LineAt(input, pos + 1);
      if line.status != NeedMore {
        LineStable(input, more, pos + 1);
        BulkStable(input, more, line, free, limits);
        BulkStopsEmpty(input, line, free, limits);
      }
    }
  }

  lemma BulkStopsEmpty(input: string, line: LineResult, free: nat, limits: RespLimits)
    ensures var h := BulkHead(input, line, free, limits); h.Stop? && h.status == NeedMore ==> h.error == ""
  {
  }

  /** Every verdict other than NeedMore is final: more bytes do not change it. */
  lemma {:induction false} ParseStable(input: string, more: string, pos: nat, free: nat, capacity: nat, limits: RespLimits, depth: nat)
    requires free <= capacity
    requires var r := ParseTree(input, pos, free, capacity, limits, depth); r.Fail? ==> r.status != NeedMore
    ensures ParseTree(input + more, pos, free, capacity, limits, depth) == ParseTree(input, pos, free, capacity, limits, depth)
    decreases |input| + 1 - pos, 0
  {
    HeadBounds(input, pos, free, capacity, limits, depth);
    HeadStable(input, more, pos, free, capacity, limits, depth);
    var h := HeadAt(input, pos, free, capacity, limits, depth);
    hide HeadAt;
    if h.Parsed? && h.cell.count > 0 {
      ParseAllStable(input, more, h.consumed, h.nextFree, h.cell.count, capacity, limits, depth + 1);
    }
  }

  lemma {:induction false} ParseAllStable(input: string, more: string, pos: nat, free: nat, count: nat, capacity: nat, limits: RespLimits, depth: nat)
    requires free <= capacity && pos <= |input|
    requires var r := ParseTrees(input, pos, free, count, capacity, limits, depth); r.ListFail? ==> r.status != NeedMore
    ensures ParseTrees(input + more, pos, free, count, capacity, limits, depth) == ParseTrees(input, pos, free, count, capacity, limits, depth)
    decreases |input| + 1 - pos, 1 + count
  {
    hide ParseTree;
    if count > 0 {
      var first := ParseTree(input, pos, free, capacity, limits, depth);
      ParseStable(input, more, pos, free, capacity, limits, depth);
      if first.Done? {
        ParseAllStable(input, more, first.next, first.free, count - 1, capacity, limits, depth);
      }
    }
  }

  lemma VerdictStable(input: string, more: string, capacity: nat, limits: RespLimits)
    requires var r := Decode(input, capacity, limits); r.Fail? ==> r.status != NeedMore
    ensures Decode(input + more, capacity, limits) == Decode(input, capacity, limits)
  {
    if capacity > 0 {
      ParseStable(input, more, 0, 1, capacity, limits, 0);
    }
  }

  /** Every proper prefix of a packed acceptable value asks for more. */
  lemma PrefixNeedsMore(t: Tree, n: nat, capacity: nat, limits: RespLimits)
    requires Acceptable(t, limits, 0) && 1 + Below(t) <= capacity && n < |Pack(t)|
    ensures var r := Decode(Pack(t)[..n], capacity, limits); r.Fail? && r.status == NeedMore
  {
    var input, prefix, more := Pack(t), Pack(t)[..n], Pack(t)[n..];
    var r := Decode(prefix, capacity, limits);
    assert prefix + more == input && input + "" == input;
    RoundTrip(t, "", capacity, limits);
    assert r.Done? ==> r.next <= n;
    if !(r.Fail? && r.status == NeedMore) {
      VerdictStable(prefix, more, capacity, limits);
    }
  }

  /** The converse fails: an integer line without a valid number asks for more until its line feed,
      and then no continuation succeeds. */
  lemma NeedMoreMayBeHopeless(more: string, capacity: nat, limits: RespLimits)
    requires capacity > 0
    ensures Decode(":abc", capacity, limits) == Fail(NeedMore, "")
    ensures Decode(":abc" + more, capacity, limits).Fail?
  {
    assert FirstLf(":abc", 1) == 4 by {
      assert FirstLf(":abc", 4) == 4;
    }
    var input := ":abc" + more;
    var line := LineAt(input, 1);
    if line.status == Ok {
      var i := FirstLf(input, 1);
      assert input[1] == 'a' && input[2] == 'b' && input[3] == 'c';
      assert LineText(input, line) != "" && (|LineText(input, line)| > 0 ==> LineText(input, line)[0] == 'a');
      assert !IsDigit('a');
    }
  }
}
