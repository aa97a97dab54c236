/**
 The read, split and yield loop of `chatStream` in `sdk/typescript/src/client.ts`: a subset of
 server-sent events, section 9.2 of the WHATWG HTML Standard.
 */
module ChatStream {
  import opened Wrappers
  import opened Sequences

  /** What `JSON.parse` and the two property reads give; Invalid when any of them throws. */
  datatype Parsed = Invalid | Data(content: Option<string>, finishReason: Option<string>)

  datatype StreamChunk = StreamChunk(content: string, index: nat, finishReason: Option<string>)

  const BLOCK_END := "\n\n"
  const DATA_PREFIX := "data: "

  // ---- JavaScript's `split` ----

  /** The leftmost occurrence of `d` at or after `from`, |s| if there is none. */
  function Find(s: string, d: string, from: nat): (i: nat)
    requires from <= |s|
    ensures from <= i <= |s| && (i < |s| ==> i + |d| <= |s|)
    decreases |s| - from
  {
    if from == |s| || OccursAt(s, d, from) then from else Find(s, d, from + 1)
  }

  lemma {:induction false} FindIsLeftmost(s: string, d: string, from: nat)
    requires from <= |s|
    ensures var i := Find(s, d, from);
      (i < |s| ==> OccursAt(s, d, i)) && forall j :: from <= j < i ==> !OccursAt(s, d, j)
    decreases |s| - from
  {
    if from == |s| || OccursAt(s, d, from) {
    } else {
      FindIsLeftmost(s, d, from + 1);
    }
  }

  function Split(s: string, d: string): (pieces: seq<string>)
    requires d != []
    ensures pieces != []
    decreases |s|
  {
    var i := Find(s, d, 0);
    if i == |s| then [s] else [s[..i]] + Split(s[i + |d|..], d)
  }

  function Join(pieces: seq<string>, d: string): string
    requires pieces != []
  {
    if |pieces| == 1 then pieces[0] else pieces[0] + d + Join(pieces[1..], d)
  }

  /** All pieces but the last, which stays in the buffer. */
  function Complete(pieces: seq<string>): seq<string>
    requires pieces != []
  {
    pieces[..|pieces| - 1]
  }

  function Rest(pieces: seq<string>): string
    requires pieces != []
  {
    pieces[|pieces| - 1]
  }

  /** A piece that a leftmost split cuts exactly at its end. */
  predicate CutsAtEnd(piece: string, d: string) {
    Find(piece + d, d, 0) == |piece|
  }

  ghost predicate IsSplit(pieces: seq<string>, s: string, d: string)
    requires d != []
  {
    && pieces != [] && Join(pieces, d) == s
    && (forall i :: 0 <= i < |pieces| - 1 ==> CutsAtEnd(pieces[i], d))
    && Find(Rest(pieces), d, 0) == |Rest(pieces)|
  }

  /** Appending text does not move an occurrence, nor create one before the first. */
  lemma FindAppend(x: string, y: string, d: string)
    requires d != [] && Find(x, d, 0) < |x|
    ensures Find(x + y, d, 0) == Find(x, d, 0)
  {
    var i := Find(x, d, 0);
    FindIsLeftmost(x, d, 0);
    assert OccursAt(x + y, d, i) by { assert (x + y)[i..i + |d|] == x[i..i + |d|]; }
    forall j | 0 <= j < i
      ensures !OccursAt(x + y, d, j)
    {
      assert (x + y)[j..j + |d|] == x[j..j + |d|];
      assert !OccursAt(x, d, j);
    }
    FindIsLeast(x + y, d, i);
  }

  lemma FindIsLeast(s: string, d: string, i: nat)
    requires d != [] && i < |s| && OccursAt(s, d, i) && forall j :: 0 <= j < i ==> !OccursAt(s, d, j)
    ensures Find(s, d, 0) == i
  {
    FindIsLeftmost(s, d, 0);
    var found := Find(s, d, 0);
    assert found < |s| ==> OccursAt(s, d, found);
    assert !(i < found);
  }

  /** `Split` is the one way to cut the text at leftmost delimiters: an independent description. */
  lemma {:induction false} SplitIsSplit(s: string, d: string)
    requires d != []
    ensures IsSplit(Split(s, d), s, d)
    decreases |s|
  {
    var i := Find(s, d, 0);
    if i == |s| {
    } else {
      var after := s[i + |d|..];
      SplitIsSplit(after, d);
      FindIsLeftmost(s, d, 0);
      Firsts(s, d);
      IsSplitCons(s[..i], Split(after, d), after, d);
      assert s == s[..i] + d + after;
    }
  }

  lemma IsSplitCons(piece: string, tail: seq<string>, after: string, d: string)
    requires d != [] && IsSplit(tail, after, d) && CutsAtEnd(piece, d)
    ensures IsSplit([piece] + tail, piece + d + after, d)
  {
    var pieces := [piece] + tail;
    assert pieces[1..] == tail && Rest(pieces) == Rest(tail);
    assert forall i :: 1 <= i < |pieces| ==> pieces[i] == tail[i - 1];
  }

  lemma Firsts(s: string, d: string)
    requires d != [] && Find(s, d, 0) < |s|
    ensures CutsAtEnd(s[..Find(s, d, 0)], d)
  {
    var i := Find(s, d, 0);
    FindIsLeftmost(s, d, 0);
    var head := s[..i] + d;
    assert head == s[..i + |d|];
    assert OccursAt(head, d, i);
    forall j | 0 <= j < i
      ensures !OccursAt(head, d, j)
    {
      assert !OccursAt(s, d, j);
      if j + |d| <= |head| { assert head[j..j + |d|] == s[j..j + |d|]; }
    }
    FindIsLeast(head, d, i);
  }

  lemma {:induction false} SplitUnique(pieces: seq<string>, s: string, d: string)
    requires d != [] && IsSplit(pieces, s, d)
    ensures pieces == Split(s, d)
    decreases |pieces|
  {
    if |pieces| == 1 {
    } else {
      var head, tail := pieces[0], pieces[1..];
      assert Rest(tail) == Rest(pieces);
      SplitUnique(tail, Join(tail, d), d);
      assert s == head + d + Join(tail, d);
      assert CutsAtEnd(head, d);
      FindAppend(head + d, Join(tail, d), d);
      assert s[..|head|] == head && s[|head| + |d|..] == Join(tail, d);
      assert pieces == [head] + tail;
    }
  }

  lemma HeadAndTail(head: string, pieces: seq<string>)
    requires pieces != []
    ensures Complete([head] + pieces) == [head] + Complete(pieces) && Rest([head] + pieces) == Rest(pieces)
  {
  }

  lemma Assembled(head: string, pieces: seq<string>, after: seq<string>)
    requires pieces != []
    ensures [head] + (Complete(pieces) + after) == Complete([head] + pieces) + after
    ensures Rest([head] + pieces) == Rest(pieces)
  {
    HeadAndTail(head, pieces);
  }

  lemma SplitAtFirst(x: string, y: string, d: string)
    requires d != [] && Find(x, d, 0) < |x|
    ensures var i := Find(x, d, 0);
      Split(x + y, d) == [x[..i]] + Split(x[i + |d|..] + y, d)
  {
    var i := Find(x, d, 0);
    FindAppend(x, y, d);
    CutEarly(x, y, i, i + |d|);
    SplitOnce(x + y, d, i, x[..i], x[i + |d|..] + y);
  }

  lemma SplitOnce(s: string, d: string, i: nat, head: string, after: string)
    requires d != [] && Find(s, d, 0) == i < |s| && head == s[..i] && after == s[i + |d|..]
    ensures Split(s, d) == [head] + Split(after, d)
  {
  }

  lemma CutEarly(x: string, y: string, i: nat, j: nat)
    requires i <= j <= |x|
    ensures (x + y)[..i] == x[..i] && (x + y)[j..] == x[j..] + y
  {
  }

  /** Splitting after more text arrives resumes from the unfinished piece. */
  lemma {:induction false} SplitResumes(x: string, y: string, d: string)
    requires d != []
    ensures Split(x + y, d) == Complete(Split(x, d)) + Split(Rest(Split(x, d)) + y, d)
    decreases |x|
  {
    var i := Find(x, d, 0);
    if i == |x| {
      assert Complete([x]) == [] && Rest([x]) == x;
      assert [] + Split(x + y, d) == Split(x + y, d);
    } else {
      var head, more := x[..i], x[i + |d|..];
      SplitAtFirst(x, y, d);
      SplitResumes(more, y, d);
      Assembled(head, Split(more, d), Split(Rest(Split(more, d)) + y, d));
    }
  }

  // ---- One block ----

  /** `lines.find(l => l.startsWith("data: "))`. */
  function FirstData(lines: seq<string>): (line: Option<string>)
    ensures line.Some? ==> DATA_PREFIX <= line.value
  {
    if lines == [] then None
    else if DATA_PREFIX <= lines[0] then Some(lines[0])
    else FirstData(lines[1..])
  }

  /** The chosen line is the first with the prefix; there is none exactly when no line has it. */
  lemma {:induction false} FirstDataIsFirst(lines: seq<string>) returns (i: nat)
    ensures i <= |lines| && forall j :: 0 <= j < i ==> !("data: " <= lines[j])
    ensures i < |lines| ==> "data: " <= lines[i]
    ensures FirstData(lines) == if i < |lines| then Some(lines[i]) else None
  {
    if lines == [] || DATA_PREFIX <= lines[0] {
      i := 0;
    } else {
      i := FirstDataIsFirst(lines[1..]);
      i := i + 1;
    }
  }

  /** What one block yields, at most one chunk. */
  function Emitted(block: string, index: nat, parse: string -> Parsed): seq<StreamChunk> {
    match FirstData(Split(block, "\n"))
    case None => []
    case Some(line) =>
      match parse(line[6..])
      case Invalid => [StreamChunk(line[6..], index, None)]
      case Data(content, finish) =>
        [StreamChunk(content.GetOr(""), index, if finish == Some("") then None else finish)]
  }

  type Emitter = (string, nat) -> seq<StreamChunk>

  function EmitterOf(parse: string -> Parsed): Emitter {
    (block: string, index: nat) => Emitted(block, index, parse)
  }

  /** What a sequence of blocks yields, numbered on from `index`. */
  function Chained(blocks: seq<string>, index: nat, emit: Emitter): seq<StreamChunk> {
    if blocks == [] then []
    else
      var first := emit(blocks[0], index);
      first + Chained(blocks[1..], index + |first|, emit)
  }

  function EmittedAll(blocks: seq<string>, index: nat, parse: string -> Parsed): seq<StreamChunk> {
    Chained(blocks, index, EmitterOf(parse))
  }

  /** Splitting the whole text once and dropping the last, unterminated block. */
  function Whole(text: string, parse: string -> Parsed): seq<StreamChunk> {
    EmittedAll(Complete(Split(text, BLOCK_END)), 0, parse)
  }

  function Concat(received: seq<string>): string {
    if received == [] then "" else Concat(received[..|received| - 1]) + received[|received| - 1]
  }

  lemma {:induction false} ChainedAppend(a: seq<string>, b: seq<string>, index: nat, emit: Emitter)
    ensures Chained(a + b, index, emit)
      == Chained(a, index, emit) + Chained(b, index + |Chained(a, index, emit)|, emit)
    decreases |a|
  {
    if a == [] {
      assert a + b == b;
      assert [] + Chained(b, index, emit) == Chained(b, index, emit);
    } else {
      var first := emit(a[0], index);
      var next := index + |first|;
      ChainedAppend(a[1..], b, next, emit);
      ChainedHead(a, b, index, emit);
      Associative(first, Chained(a[1..], next, emit), Chained(b, next + |Chained(a[1..], next, emit)|, emit));
    }
  }

  lemma ChainedHead(a: seq<string>, b: seq<string>, index: nat, emit: Emitter)
    requires a != []
    ensures Chained(a + b, index, emit)
      == emit(a[0], index) + Chained(a[1..] + b, index + |emit(a[0], index)|, emit)
  {
    assert (a + b)[0] == a[0] && (a + b)[1..] == a[1..] + b;
  }

  lemma Associative(a: seq<StreamChunk>, b: seq<StreamChunk>, c: seq<StreamChunk>)
    ensures a + (b + c) == (a + b) + c
  {
  }

  ghost predicate Numbered(chunks: seq<StreamChunk>, index: nat) {
    forall i :: 0 <= i < |chunks| ==> chunks[i].index == index + i
  }

  lemma {:induction false} ChainedNumbered(blocks: seq<string>, index: nat, emit: Emitter)
    requires forall block, i: nat :: Numbered(emit(block, i), i)
    ensures Numbered(Chained(blocks, index, emit), index)
  {
    if blocks == [] {
    } else {
      var first := emit(blocks[0], index);
      assert Numbered(first, index);
      ChainedNumbered(blocks[1..], index + |first|, emit);
    }
  }

  /** The chunks carry consecutive indices from the first. */
  lemma ConsecutiveIndices(blocks: seq<string>, index: nat, parse: string -> Parsed)
    ensures Numbered(EmittedAll(blocks, index, parse), index)
  {
    forall block, i: nat
      ensures Numbered(EmitterOf(parse)(block, i), i)
    {
      assert EmitterOf(parse)(block, i) == Emitted(block, i, parse);
    }
    ChainedNumbered(blocks, index, EmitterOf(parse));
  }

  // ---- What the chunks say ----

  /** What follows the prefix in the first data line of each block that has one, in order. */
  function Payloads(blocks: seq<string>): seq<string> {
    if blocks == [] then [] else PayloadOf(blocks[0]) + Payloads(blocks[1..])
  }

  function PayloadOf(block: string): seq<string> {
    var line := FirstData(Split(block, "\n"));
    if line.Some? then [line.value[|"data: "|..]] else []
  }

  /** The chunk carries what the payload parses to, or the payload itself if it does not parse. */
  predicate Carries(chunk: StreamChunk, payload: string, parse: string -> Parsed) {
    match parse(payload)
    case Invalid => chunk.content == payload && chunk.finishReason.None?
    case Data(content, finish) =>
      && (content.None? ==> chunk.content == "") && (content.Some? ==> chunk.content == content.value)
      && (chunk.finishReason.Some? <==> finish.Some? && finish.value != "")
      && (chunk.finishReason.Some? ==> chunk.finishReason == finish)
  }

  /** One chunk for each payload, in order, numbered on from `index`. */
  ghost predicate CarryAll(chunks: seq<StreamChunk>, payloads: seq<string>, index: nat, parse: string -> Parsed) {
    && |chunks| == |payloads|
    && forall i :: 0 <= i < |chunks| ==> chunks[i].index == index + i && Carries(chunks[i], payloads[i], parse)
  }

  lemma OneCarries(block: string, index: nat, parse: string -> Parsed)
    ensures CarryAll(Emitted(block, index, parse), PayloadOf(block), index, parse)
  {
  }

  lemma BothCarry(a: seq<StreamChunk>, p: seq<string>, b: seq<StreamChunk>, q: seq<string>, index: nat,
                  parse: string -> Parsed)
    requires CarryAll(a, p, index, parse) && CarryAll(b, q, index + |a|, parse)
    ensures CarryAll(a + b, p + q, index, parse)
  {
  }

  lemma {:induction false} EmittedCarry(blocks: seq<string>, index: nat, parse: string -> Parsed)
    ensures CarryAll(EmittedAll(blocks, index, parse), Payloads(blocks), index, parse)
  {
    if blocks == [] {
    } else {
      var first := Emitted(blocks[0], index, parse);
      OneCarries(blocks[0], index, parse);
      EmittedCarry(blocks[1..], index + |first|, parse);
      BothCarry(first, PayloadOf(blocks[0]), EmittedAll(blocks[1..], index + |first|, parse), Payloads(blocks[1..]),
                index, parse);
    }
  }

  // ---- The loop ----

  /** The state of the loop after some reads: the unfinished text and the chunks yielded. */
  datatype Progress = Progress(buffer: string, chunks: seq<StreamChunk>)

  function Received(p: Progress, more: string, parse: string -> Parsed): Progress {
    var pieces := Split(p.buffer + more, BLOCK_END);
    Progress(Rest(pieces), p.chunks + EmittedAll(Complete(pieces), |p.chunks|, parse))
  }

  function Incremental(received: seq<string>, parse: string -> Parsed): Progress {
    if received == [] then Progress("", [])
    else Received(Incremental(received[..|received| - 1], parse), received[|received| - 1], parse)
  }

  /** The blocks loop: at most one chunk per block, numbered on from `index`. */
  method YieldBlocks(blocks: seq<string>, index: nat, parse: string -> Parsed) returns (chunks: seq<StreamChunk>)
    ensures chunks == EmittedAll(blocks, index, parse)
    ensures CarryAll(chunks, Payloads(blocks), index, parse)
  {
    EmittedCarry(blocks, index, parse);
    chunks := [];
    var chunkIndex := index;
    for b := 0 to |blocks|
      invariant chunkIndex == index + |chunks|
      invariant chunks == EmittedAll(blocks[..b], index, parse)
    {
      var more := YieldBlock(blocks[b], chunkIndex, parse);
      OneMoreBlock(blocks[..b], blocks[b], index, parse);
      assert blocks[..b + 1] == blocks[..b] + [blocks[b]];
      chunks := chunks + more;
      chunkIndex := chunkIndex + |more|;
    }
    assert blocks[..|blocks|] == blocks;
  }

  lemma OneMoreBlock(blocks: seq<string>, block: string, index: nat, parse: string -> Parsed)
    ensures var before := EmittedAll(blocks, index, parse);
      EmittedAll(blocks + [block], index, parse) == before + Emitted(block, index + |before|, parse)
  {
    var emit := EmitterOf(parse);
    ChainedAppend(blocks, [block], index, emit);
    OneBlock(block, index + |Chained(blocks, index, emit)|, emit);
  }

  lemma OneBlock(block: string, index: nat, emit: Emitter)
    ensures Chained([block], index, emit) == emit(block, index)
  {
    assert [block][1..] == [];
    assert emit(block, index) + [] == emit(block, index);
  }

  /** The body of the blocks loop, with the `try` and its `catch`. */
  method YieldBlock(block: string, chunkIndex: nat, parse: string -> Parsed) returns (chunks: seq<StreamChunk>)
    ensures chunks == Emitted(block, chunkIndex, parse)
  {
    chunks := [];
    var dataLine := FirstData(Split(block, "\n"));
    if dataLine.Some? {
      var data := parse(dataLine.value[6..]);
      if data.Data? {
        var finish := if data.finishReason == Some("") then None else data.finishReason;
        chunks := [StreamChunk(data.content.GetOr(""), chunkIndex, finish)];
      } else {
        chunks := [StreamChunk(dataLine.value[6..], chunkIndex, None)];
      }
    }
  }

  method Stream(received: seq<string>, parse: string -> Parsed) returns (chunks: seq<StreamChunk>)
    ensures chunks == Incremental(received, parse).chunks
    ensures chunks == Whole(Concat(received), parse)
    ensures CarryAll(chunks, Payloads(Complete(Split(Concat(received), "\n\n"))), 0, parse)
  {
    chunks := [];
    var buffer := "";
    for n := 0 to |received|
      invariant Progress(buffer, chunks) == Incremental(received[..n], parse)
    {
      assert received[..n + 1][..n] == received[..n];
      buffer := buffer + received[n];
      var lines := Split(buffer, BLOCK_END);
      buffer := lines[|lines| - 1];
      lines := lines[..|lines| - 1];
      var more := YieldBlocks(lines, |chunks|, parse);
      chunks := chunks + more;
    }
    assert received[..|received|] == received;
    IncrementalIsWhole(received, parse);
    EmittedCarry(Complete(Split(Concat(received), BLOCK_END)), 0, parse);
  }

  /** The incremental loop yields what splitting the whole text once would, and keeps the unfinished piece. */
  lemma {:induction false} IncrementalIsWhole(received: seq<string>, parse: string -> Parsed)
    ensures Incremental(received, parse)
      == Progress(Rest(Split(Concat(received), BLOCK_END)), Whole(Concat(received), parse))
  {
    if received == [] {
      assert Split("", BLOCK_END) == [""];
    } else {
      var n := |received| - 1;
      IncrementalIsWhole(received[..n], parse);
      ReceivedIsWhole(Concat(received[..n]), received[n], parse);
    }
  }

  lemma ReceivedIsWhole(text: string, more: string, parse: string -> Parsed)
    ensures Received(Progress(Rest(Split(text, BLOCK_END)), Whole(text, parse)), more, parse)
      == Progress(Rest(Split(text + more, BLOCK_END)), Whole(text + more, parse))
  {
    SplitResumes(text, more, BLOCK_END);
    var done := Split(text, BLOCK_END);
    Resumed(done, Split(Rest(done) + more, BLOCK_END), Split(text + more, BLOCK_END), EmitterOf(parse));
  }

  lemma Resumed(done: seq<string>, after: seq<string>, all: seq<string>, emit: Emitter)
    requires done != [] && after != [] && all == Complete(done) + after
    ensures Rest(all) == Rest(after)
    ensures var chunks := Chained(Complete(done), 0, emit);
      Chained(Complete(all), 0, emit) == chunks + Chained(Complete(after), |chunks|, emit)
  {
    JoinedPieces(Complete(done), after);
    ChainedAppend(Complete(done), Complete(after), 0, emit);
  }

  lemma JoinedPieces(before: seq<string>, after: seq<string>)
    requires after != []
    ensures Complete(before + after) == before + Complete(after) && Rest(before + after) == Rest(after)
  {
  }

  /** Two ways of cutting one text yield the same chunks, indexed 0, 1, 2, ... */
  lemma ChunkingIrrelevant(received: seq<string>, received': seq<string>, parse: string -> Parsed)
    requires Concat(received) == Concat(received')
    ensures Incremental(received, parse).chunks == Incremental(received', parse).chunks
    ensures Numbered(Incremental(received, parse).chunks, 0)
  {
    IncrementalIsWhole(received, parse);
    IncrementalIsWhole(received', parse);
    ConsecutiveIndices(Complete(Split(Concat(received), BLOCK_END)), 0, parse);
  }

  /** Everything is delivered exactly when what follows the last delimiter holds no data line. */
  lemma NothingDroppedExactly(received: seq<string>, parse: string -> Parsed)
    ensures Incremental(received, parse).chunks == EmittedAll(Split(Concat(received), BLOCK_END), 0, parse)
      <==> FirstData(Split(Incremental(received, parse).buffer, "\n")).None?
  {
    IncrementalIsWhole(received, parse);
    var pieces := Split(Concat(received), BLOCK_END);
    assert pieces == Complete(pieces) + [Rest(pieces)];
    OneMoreBlock(Complete(pieces), Rest(pieces), 0, parse);
    EmittedWhen(Rest(pieces), |EmittedAll(Complete(pieces), 0, parse)|, parse);
  }

  lemma EmittedWhen(block: string, index: nat, parse: string -> Parsed)
    ensures |Emitted(block, index, parse)| == if FirstData(Split(block, "\n")).None? then 0 else 1
  {
  }
}
