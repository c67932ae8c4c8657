/** The documented stream loop: append the bytes that arrived, decode and erase values until more
    bytes are needed, drop the buffer on any other verdict. */
module RespStream {
  import opened RespNumber
  import opened RespTree
  import opened RespUnpack

  datatype Drained = Drained(values: seq<Tree>, rest: string, failed: bool)

  /** What the loop makes of a buffer: the values in order, the bytes kept, and whether it dropped the buffer. */
  function Drain(stream: string, capacity: nat, limits: RespLimits): Drained
    decreases |stream|
  {
    match Decode(stream, capacity, limits)
    case Fail(status, _) => if status == NeedMore then Drained([], stream, false) else Drained([], "", true)
    case Done(tree, next, _) =>
      var d := Drain(stream[next..], capacity, limits);
      Drained([tree] + d.values, d.rest, d.failed)
  }

  function Join(chunks: seq<string>): string {
    if chunks == [] then "" else chunks[0] + Join(chunks[1..])
  }

  /** The values of a stream that arrives in chunks, after the buffer already holds stream. */
  function FeedAll(stream: string, chunks: seq<string>, capacity: nat, limits: RespLimits): seq<Tree>
    decreases |chunks|
  {
    if chunks == [] then []
    else
      var d := Drain(stream + chunks[0], capacity, limits);
      d.values + FeedAll(d.rest, chunks[1..], capacity, limits)
  }

  /** The values decoded from the chunks after the one on which the buffer was first dropped. */
  function AfterDrop(stream: string, chunks: seq<string>, capacity: nat, limits: RespLimits): seq<Tree>
    decreases |chunks|
  {
    if chunks == [] then []
    else
      var d := Drain(stream + chunks[0], capacity, limits);
      if d.failed then FeedAll("", chunks[1..], capacity, limits) else AfterDrop(d.rest, chunks[1..], capacity, limits)
  }

  /** Bytes that arrive later continue where the loop stopped, or are never looked at. */
  lemma {:induction false} DrainSplit(stream: string, more: string, capacity: nat, limits: RespLimits)
    ensures var d := Drain(stream, capacity, limits);
            var e := Drain(d.rest + more, capacity, limits);
            Drain(stream + more, capacity, limits) == if d.failed then d else Drained(d.values + e.values, e.rest, e.failed)
    decreases |stream|
  {
    hide Decode;
    var r := Decode(stream, capacity, limits);
    if r.Done? {
      VerdictStable(stream, more, capacity, limits);
      assert (stream + more)[r.next..] == stream[r.next..] + more;
      DrainSplit(stream[r.next..], more, capacity, limits);
      var d := Drain(stream, capacity, limits);
      var e := Drain(d.rest + more, capacity, limits);
      assert d.values + e.values == [r.tree] + (d.values[1..] + e.values);
    } else if r.status != NeedMore {
      VerdictStable(stream, more, capacity, limits);
    }
  }

  /** A buffer on which the loop would stop at once. */
  predicate Settled(stream: string, capacity: nat, limits: RespLimits) {
    Drain(stream, capacity, limits) == Drained([], stream, false)
  }

  lemma {:induction false} RestSettled(stream: string, capacity: nat, limits: RespLimits)
    requires !Drain(stream, capacity, limits).failed
    ensures Settled(Drain(stream, capacity, limits).rest, capacity, limits)
    decreases |stream|
  {
    hide Decode;
    var r := Decode(stream, capacity, limits);
    if r.Done? {
      RestSettled(stream[r.next..], capacity, limits);
    }
  }

  lemma EmptySettled(capacity: nat, limits: RespLimits)
    requires capacity > 0
    ensures Settled("", capacity, limits)
  {
  }

  /** Without scratch cells nothing is ever decoded. */
  lemma {:induction false} NoCells(stream: string, chunks: seq<string>, limits: RespLimits)
    ensures Drain(stream, 0, limits) == Drained([], "", true) && FeedAll(stream, chunks, 0, limits) == []
    decreases |chunks|
  {
    if chunks != [] {
      NoCells(stream + chunks[0], [], limits);
      NoCells("", chunks[1..], limits);
    }
  }

  /** Feeding in chunks yields the values of feeding the whole stream at once, followed by whatever
      the chunks after a dropped buffer decode to. */
  lemma {:induction false} ChunkedValues(stream: string, chunks: seq<string>, capacity: nat, limits: RespLimits)
    requires Settled(stream, capacity, limits)
    ensures var whole := Drain(stream + Join(chunks), capacity, limits);
            && FeedAll(stream, chunks, capacity, limits) == whole.values + AfterDrop(stream, chunks, capacity, limits)
            && (!whole.failed ==> AfterDrop(stream, chunks, capacity, limits) == [])
    decreases |chunks|
  {
    hide Drain;
    if chunks == [] {
      assert stream + Join(chunks) == stream;
    } else {
      var first, later := stream + chunks[0], Join(chunks[1..]);
      assert stream + Join(chunks) == first + later;
      DrainSplit(first, later, capacity, limits);
      var d := Drain(first, capacity, limits);
      if d.failed {
        DropsAll(first, capacity, limits);
      } else {
        RestSettled(first, capacity, limits);
        ChunkedValues(d.rest, chunks[1..], capacity, limits);
        var e := Drain(d.rest + later, capacity, limits);
        var lost := AfterDrop(d.rest, chunks[1..], capacity, limits);
        assert d.values + (e.values + lost) == (d.values + e.values) + lost;
      }
    }
  }

  lemma {:induction false} DropsAll(stream: string, capacity: nat, limits: RespLimits)
    ensures var d := Drain(stream, capacity, limits); d.failed ==> d.rest == ""
    decreases |stream|
  {
    var r := Decode(stream, capacity, limits);
    if r.Done? { DropsAll(stream[r.next..], capacity, limits); }
  }

  /** A prefix that fails decides for every longer one. */
  lemma FailedPrefix(s: string, a: nat, b: nat, capacity: nat, limits: RespLimits)
    requires a <= b <= |s| && Drain(s[..a], capacity, limits).failed
    ensures Drain(s[..b], capacity, limits) == Drain(s[..a], capacity, limits)
  {
    hide Drain;
    assert s[..b] == s[..a] + s[a..b];
    DrainSplit(s[..a], s[a..b], capacity, limits);
  }

  /** Cutting s at any place gives the values of s. */
  ghost predicate Invisible(s: string, capacity: nat, limits: RespLimits) {
    forall chunks :: Join(chunks) == s ==> FeedAll("", chunks, capacity, limits) == Drain(s, capacity, limits).values
  }

  /** No rest of s from b on starts with a value. */
  ghost predicate Barren(s: string, b: nat, capacity: nat, limits: RespLimits) {
    forall k :: b <= k <= |s| ==> Drain(s[k..], capacity, limits).values == []
  }

  lemma BarrenTail(s: string, b: nat, n: nat, capacity: nat, limits: RespLimits)
    requires b + n <= |s| && Barren(s, b, capacity, limits)
    ensures Barren(s[b + n..], 0, capacity, limits)
  {
    hide Drain;
    var t := s[b + n..];
    forall k | 0 <= k <= |t| ensures Drain(t[k..], capacity, limits).values == [] {
      assert t[k..] == s[b + n + k..];
    }
  }

  /** Chunks that make up a barren stream yield nothing, after whatever the buffer held. */
  lemma {:induction false} BarrenChunks(chunks: seq<string>, capacity: nat, limits: RespLimits)
    requires capacity > 0 && Barren(Join(chunks), 0, capacity, limits)
    ensures FeedAll("", chunks, capacity, limits) == []
    decreases |chunks|, 1
  {
    hide Drain, Barren;
    EmptySettled(capacity, limits);
    ChunkedValues("", chunks, capacity, limits);
    assert "" + Join(chunks) == Join(chunks);
    BarrenAfterDrop("", chunks, capacity, limits);
    BarrenStart(Join(chunks), capacity, limits);
  }

  lemma BarrenStart(s: string, capacity: nat, limits: RespLimits)
    requires Barren(s, 0, capacity, limits)
    ensures Drain(s, capacity, limits).values == []
  {
    assert s[0..] == s;
  }

  lemma {:induction false} BarrenAfterDrop(stream: string, chunks: seq<string>, capacity: nat, limits: RespLimits)
    requires capacity > 0 && Barren(Join(chunks), 0, capacity, limits)
    ensures AfterDrop(stream, chunks, capacity, limits) == []
    decreases |chunks|, 0
  {
    hide Drain, Barren;
    if chunks != [] {
      var later := Join(chunks[1..]);
      BarrenTail(Join(chunks), 0, |chunks[0]|, capacity, limits);
      assert Join(chunks)[|chunks[0]|..] == later;
      var d := Drain(stream + chunks[0], capacity, limits);
      if d.failed {
        BarrenChunks(chunks[1..], capacity, limits);
      } else {
        BarrenAfterDrop(d.rest, chunks[1..], capacity, limits);
      }
    }
  }

  /** Every rest of s after a failing prefix is barren. */
  ghost predicate BarrenOnceFailed(s: string, capacity: nat, limits: RespLimits) {
    forall b :: 0 <= b <= |s| && Drain(s[..b], capacity, limits).failed ==> Drain(s[b..], capacity, limits).values == []
  }

  lemma BarrenFrom(s: string, b: nat, capacity: nat, limits: RespLimits)
    requires BarrenOnceFailed(s, capacity, limits) && b <= |s| && Drain(s[..b], capacity, limits).failed
    ensures Barren(s, b, capacity, limits)
  {
    hide Drain;
    forall k | b <= k <= |s| ensures Drain(s[k..], capacity, limits).values == [] {
      FailedPrefix(s, b, k, capacity, limits);
    }
  }

  /** The loop has fed s up to pos and holds stream; what comes after a drop is barren. */
  lemma {:induction false} NothingAfterDrop(s: string, pos: nat, stream: string, chunks: seq<string>, capacity: nat, limits: RespLimits)
    requires capacity > 0 && BarrenOnceFailed(s, capacity, limits)
    requires pos <= |s| && Join(chunks) == s[pos..]
    requires !Drain(s[..pos], capacity, limits).failed && Drain(s[..pos], capacity, limits).rest == stream
    ensures AfterDrop(stream, chunks, capacity, limits) == []
    decreases |chunks|
  {
    hide Drain, Barren, BarrenOnceFailed;
    if chunks != [] {
      var next := pos + |chunks[0]|;
      var later := Join(chunks[1..]);
      assert s[pos..] == chunks[0] + later;
      assert s[pos..][..|chunks[0]|] == chunks[0] && s[pos..][|chunks[0]|..] == later;
      assert s[..next] == s[..pos] + chunks[0] && s[next..] == later;
      DrainSplit(s[..pos], chunks[0], capacity, limits);
      var d := Drain(stream + chunks[0], capacity, limits);
      if d.failed {
        BarrenFrom(s, next, capacity, limits);
        BarrenTail(s, next, 0, capacity, limits);
        BarrenChunks(chunks[1..], capacity, limits);
      } else {
        NothingAfterDrop(s, next, d.rest, chunks[1..], capacity, limits);
      }
    }
  }

  /** Cutting once, right behind a failing prefix, shows what the rest decodes to. */
  lemma CutBehindFailure(s: string, b: nat, capacity: nat, limits: RespLimits)
    requires capacity > 0 && b <= |s| && Drain(s[..b], capacity, limits).failed
    ensures Join([s[..b], s[b..]]) == s
    ensures FeedAll("", [s[..b], s[b..]], capacity, limits) == Drain(s, capacity, limits).values + Drain(s[b..], capacity, limits).values
  {
    hide Drain;
    var chunks, rest := [s[..b], s[b..]], [s[b..]];
    assert chunks[1..] == rest && rest[1..] == [];
    assert Join(rest) == s[b..] + "" == s[b..];
    assert Join(chunks) == s[..b] + s[b..] == s;
    assert s[..|s|] == s && "" + s[..b] == s[..b] && "" + s[b..] == s[b..];
    FailedPrefix(s, b, |s|, capacity, limits);
    DropsAll(s[..b], capacity, limits);
    var d := Drain(s[b..], capacity, limits);
    assert FeedAll("", rest, capacity, limits) == d.values + FeedAll(d.rest, [], capacity, limits) == d.values;
  }

  /** How a stream is cut into chunks does not matter if and only if, behind every prefix on which
      decoding fails, the rest of the stream does not start with a value. */
  lemma ChunkingIsInvisible(s: string, capacity: nat, limits: RespLimits)
    ensures Invisible(s, capacity, limits) <==> BarrenOnceFailed(s, capacity, limits)
  {
    hide Drain;
    if capacity == 0 {
      forall b | 0 <= b <= |s| ensures Drain(s[b..], capacity, limits).values == [] { NoCells(s[b..], [], limits); }
      forall chunks ensures FeedAll("", chunks, capacity, limits) == Drain(s, capacity, limits).values {
        NoCells("", chunks, limits);
        NoCells(s, [], limits);
      }
      return;
    }
    if BarrenOnceFailed(s, capacity, limits) {
      forall chunks | Join(chunks) == s ensures FeedAll("", chunks, capacity, limits) == Drain(s, capacity, limits).values {
        EmptySettled(capacity, limits);
        ChunkedValues("", chunks, capacity, limits);
        assert "" + s == s && s[..0] == "" && s[0..] == s;
        NothingAfterDrop(s, 0, "", chunks, capacity, limits);
      }
    }
    if Invisible(s, capacity, limits) {
      forall b | 0 <= b <= |s| && Drain(s[..b], capacity, limits).failed ensures Drain(s[b..], capacity, limits).values == [] {
        CutBehindFailure(s, b, capacity, limits);
        var whole, extra := Drain(s, capacity, limits).values, Drain(s[b..], capacity, limits).values;
        assert |whole + extra| == |whole| + |extra|;
      }
    }
  }

  /** The shortest prefix on which decoding fails. */
  ghost predicate DropPoint(s: string, m: nat, capacity: nat, limits: RespLimits) {
    && m <= |s| && Drain(s[..m], capacity, limits).failed
    && forall k :: 0 <= k < m ==> !Drain(s[..k], capacity, limits).failed
  }

  /** The same with the place of the failure: only the rests from there on have to be looked at. */
  lemma DropPointDecides(s: string, m: nat, capacity: nat, limits: RespLimits)
    requires DropPoint(s, m, capacity, limits)
    ensures Invisible(s, capacity, limits) <==> Barren(s, m, capacity, limits)
  {
    hide Drain, Invisible;
    ChunkingIsInvisible(s, capacity, limits);
    forall b | m <= b <= |s| ensures Drain(s[..b], capacity, limits).failed {
      FailedPrefix(s, m, b, capacity, limits);
    }
  }

  /** A stream that decodes without a failing verdict may be cut anywhere. */
  lemma CleanStream(s: string, capacity: nat, limits: RespLimits)
    requires !Drain(s, capacity, limits).failed
    ensures Invisible(s, capacity, limits)
  {
    hide Drain, Invisible;
    assert s[..|s|] == s;
    forall b | 0 <= b <= |s| ensures !Drain(s[..b], capacity, limits).failed {
      if Drain(s[..b], capacity, limits).failed { FailedPrefix(s, b, |s|, capacity, limits); }
    }
    ChunkingIsInvisible(s, capacity, limits);
  }

  /** Chunking can be visible: a broken first byte drops only what has arrived. */
  lemma ChunkingCanMatter(capacity: nat, limits: RespLimits)
    requires capacity > 0
    ensures var value := Pack(NullBulk);
            && Drain(Join(["!", value]), capacity, limits).values == []
            && FeedAll("", ["!", value], capacity, limits) == [NullBulk]
  {
    var value := Pack(NullBulk);
    var chunks := ["!", value];
    assert chunks[1..] == [value] && chunks[1..][1..] == [];
    assert Join([value]) == value;
    assert Join(chunks) == "!" + value && "" + "!" == "!" && "" + value == value;
    RoundTrip(NullBulk, "", capacity, limits);
    assert value + "" == value && value[|value|..] == "";
    EmptySettled(capacity, limits);
    assert Drain("!", capacity, limits) == Drained([], "", true);
    assert Drain("!" + value, capacity, limits) == Drained([], "", true);
    assert Drain(value, capacity, limits).values == [NullBulk] + [];
    assert FeedAll("", [value], capacity, limits) == [NullBulk] + FeedAll(Drain(value, capacity, limits).rest, [], capacity, limits);
  }

  /** Any list of acceptable values, packed one after the other, decodes to that list however it is cut. */
  lemma PackedStream(items: seq<Tree>, chunks: seq<string>, capacity: nat, limits: RespLimits)
    requires Join(chunks) == PackAll(items)
    requires forall i :: 0 <= i < |items| ==> Acceptable(items[i], limits, 0) && 1 + Below(items[i]) <= capacity
    ensures FeedAll("", chunks, capacity, limits) == items
  {
    if items == [] && capacity == 0 {
      NoCells("", chunks, limits);
    } else {
      assert items != [] ==> 1 + Below(items[0]) <= capacity;
      DrainPacked(items, capacity, limits);
      CleanStream(Join(chunks), capacity, limits);
      hide Drain, FeedAll;
    }
  }

  lemma {:induction false} DrainPacked(items: seq<Tree>, capacity: nat, limits: RespLimits)
    requires capacity > 0
    requires forall i :: 0 <= i < |items| ==> Acceptable(items[i], limits, 0) && 1 + Below(items[i]) <= capacity
    ensures Drain(PackAll(items), capacity, limits) == Drained(items, "", false)
    decreases |items|
  {
    hide Decode, Acceptable, Below, Pack;
    if items == [] {
      EmptySettled(capacity, limits);
    } else {
      var rest := PackAll(items[1..]);
      assert 0 <= 0 < |items|;
      RoundTrip(items[0], rest, capacity, limits);
      DrainPacked(items[1..], capacity, limits);
      assert (Pack(items[0]) + rest)[|Pack(items[0])|..] == rest;
      assert [items[0]] + items[1..] == items;
    }
  }

  /** The caller-owned buffer of the documented loop, with its scratch cells. */
  class Feeder {
    var stream: string
    const scratch: array<RespValue>
    const limits: RespLimits

    constructor (cells: nat, limits: RespLimits)
      ensures stream == "" && fresh(scratch) && scratch.Length == cells && this.limits == limits
    {
      stream := "";
      scratch := new RespValue[cells](_ => Leaf(NullBulkString, ""));
      this.limits := limits;
    }

    /** Bytes arrive: every value they complete is decoded, in order, and erased from the buffer. */
    method FeedBytes(bytes: string) returns (ghost values: seq<Tree>, dropped: bool)
      modifies this, scratch
      ensures Drained(values, stream, dropped) == Drain(old(stream) + bytes, scratch.Length, limits)
    {
      stream := stream + bytes;
      values := [];
      ghost var whole := Drain(stream, scratch.Length, limits);
      while true
        invariant var d := Drain(stream, scratch.Length, limits);
                  whole == Drained(values + d.values, d.rest, d.failed)
        decreases |stream|
      {
        ghost var r := Decode(stream, scratch.Length, limits);
        var status, consumed, _ := UnpackOne(stream, scratch, limits);
        if status == NeedMore {
          assert values + [] == values;
          return values, false;
        }
        if status != Ok {
          assert values + [] == values;
          stream := "";
          return values, true;
        }
        ghost var d := Drain(stream[consumed..], scratch.Length, limits);
        assert values + ([r.tree] + d.values) == (values + [r.tree]) + d.values;
        values := values + [r.tree];
        stream := stream[consumed..];
      }
    }
  }
}
