/** Server-sent events: the frames the query route prints and the client's own incremental reader. */
module Sse {
  import opened Wrappers

  datatype RawFrame = RawFrame(event: string, data: string)

  datatype StreamEvent<J> = StreamEvent(event: string, data: J)

  // ----- printing -----

  function FrameBody(event: string, data: string): string {
    "event: " + event + "\ndata: " + data
  }

  function PrintFrame(event: string, data: string): string {
    FrameBody(event, data) + "\n\n"
  }

  /** The whole stream of a list of events; `dump` is the JSON printer. */
  function PrintAll<J>(events: seq<StreamEvent<J>>, dump: J -> string): string {
    if events == [] then ""
    else PrintFrame(events[0].event, dump(events[0].data)) + PrintAll(events[1..], dump)
  }

  // ----- strings -----

  /** White space and line terminators as trimmed by JavaScript. */
  predicate IsSpace(c: char) {
    '\t' <= c <= '\r' || c == ' ' || c == '\U{A0}' || c == '\U{1680}' || '\U{2000}' <= c <= '\U{200A}' ||
    c == '\U{2028}' || c == '\U{2029}' || c == '\U{202F}' || c == '\U{205F}' || c == '\U{3000}' || c == '\U{FEFF}'
  }

  function TrimStart(s: string): string {
    if s != "" && IsSpace(s[0]) then TrimStart(s[1..]) else s
  }

  function TrimEnd(s: string): string {
    if s != "" && IsSpace(s[|s| - 1]) then TrimEnd(s[..|s| - 1]) else s
  }

  function Trim(s: string): string {
    TrimEnd(TrimStart(s))
  }

  function Split(s: string): (lines: seq<string>)
    ensures |lines| > 0
  {
    if s == "" then [""]
    else if s[0] == '\n' then [""] + Split(s[1..])
    else var rest := Split(s[1..]); [[s[0]] + rest[0]] + rest[1..]
  }

  function Join(lines: seq<string>): string {
    if lines == [] then ""
    else if |lines| == 1 then lines[0]
    else Join(lines[..|lines| - 1]) + "\n" + lines[|lines| - 1]
  }

  function Concat(chunks: seq<string>): string {
    if chunks == [] then "" else Concat(chunks[..|chunks| - 1]) + chunks[|chunks| - 1]
  }

  predicate BlankAt(s: string, i: nat) {
    i + 1 < |s| && s[i] == '\n' && s[i + 1] == '\n'
  }

  /** Where the first blank line from `start` on begins, or -1. */
  function FindBlank(s: string, start: nat): (i: int)
    ensures i == -1 || (start <= i && BlankAt(s, i))
    decreases |s| - start
  {
    if start + 1 >= |s| then -1 else if BlankAt(s, start) then start else FindBlank(s, start + 1)
  }

  function IndexOfBlank(s: string): (i: int)
    ensures i == -1 || (0 <= i && BlankAt(s, i))
  {
    FindBlank(s, 0)
  }

  /** No blank line is overlooked: `i` is found exactly when it is the first. */
  lemma {:induction false} FindsFirst(s: string, start: nat, i: nat)
    requires start <= i && BlankAt(s, i)
    ensures start <= FindBlank(s, start) <= i
    decreases |s| - start
  {
    if !BlankAt(s, start) {
      FindsFirst(s, start + 1, i);
    }
  }

  // ----- one frame -----

  predicate IsEventLine(line: string) {
    "event:" <= line
  }

  predicate IsDataLine(line: string) {
    !IsEventLine(line) && "data:" <= line
  }

  /** The last event line names the event. */
  function EventOf(lines: seq<string>): string {
    if lines == [] then "message"
    else
      var last := lines[|lines| - 1];
      if IsEventLine(last) then Trim(last[6..]) else EventOf(lines[..|lines| - 1])
  }

  function DataOf(lines: seq<string>): seq<string> {
    if lines == [] then []
    else
      var last := lines[|lines| - 1];
      DataOf(lines[..|lines| - 1]) + if IsDataLine(last) then [Trim(last[5..])] else []
  }

  function FrameOf(block: string): Option<RawFrame> {
    var lines := Split(block);
    if DataOf(lines) == [] then None else Some(RawFrame(EventOf(lines), Join(DataOf(lines))))
  }

  method ParseFrame(block: string) returns (frame: Option<RawFrame>)
    ensures frame == FrameOf(block)
  {
    var event := "message";
    var dataLines: seq<string> := [];
    var lines := Split(block);
    for i := 0 to |lines|
      invariant event == EventOf(lines[..i]) && dataLines == DataOf(lines[..i])
    {
      assert lines[..i + 1][..i] == lines[..i];
      var line := lines[i];
      if "event:" <= line {
        event := Trim(line[6..]);
      } else if "data:" <= line {
        dataLines := dataLines + [Trim(line[5..])];
      }
    }
    assert lines[..|lines|] == lines;
    if |dataLines| == 0 {
      return None;
    }
    return Some(RawFrame(event, Join(dataLines)));
  }

  // ----- the stream -----

  /** The complete blocks of a text, and what remains after the last blank line. */
  function Blocks(text: string): seq<string>
    decreases |text|
  {
    var i := IndexOfBlank(text);
    if i < 0 then [] else [text[..i]] + Blocks(text[i + 2..])
  }

  function Rest(text: string): string
    decreases |text|
  {
    var i := IndexOfBlank(text);
    if i < 0 then text else Rest(text[i + 2..])
  }

  /** The events of a list of blocks: blocks without data and payloads that do not parse are skipped. */
  function Decode<J>(blocks: seq<string>, parse: string -> Option<J>): seq<StreamEvent<J>> {
    FlatMap(blocks, block => DecodeOne(block, parse))
  }

  function FlatMap<A, B>(s: seq<A>, f: A -> seq<B>): seq<B> {
    if s == [] then [] else FlatMap(s[..|s| - 1], f) + f(s[|s| - 1])
  }

  function DecodeOne<J>(block: string, parse: string -> Option<J>): seq<StreamEvent<J>> {
    var frame := FrameOf(block);
    if frame.None? then []
    else
      var value := parse(frame.value.data);
      if value.None? then [] else [StreamEvent(frame.value.event, value.value)]
  }

  /** A blank line that is there already stays the first one when more text arrives. */
  lemma IndexOfBlankStable(a: string, b: string)
    requires IndexOfBlank(a) >= 0
    ensures IndexOfBlank(a + b) == IndexOfBlank(a)
  {
    var i := IndexOfBlank(a);
    assert BlankAt(a + b, i);
    FindsFirst(a + b, 0, i);
    var j := IndexOfBlank(a + b);
    assert BlankAt(a, j);
    FindsFirst(a, 0, j);
  }

  /** The first complete block is there whatever follows. */
  lemma FirstComplete(a: string, b: string)
    requires IndexOfBlank(a) >= 0
    ensures var i := IndexOfBlank(a);
            Blocks(a + b) == [a[..i]] + Blocks(a[i + 2..] + b) && Rest(a + b) == Rest(a[i + 2..] + b)
  {
    var i := IndexOfBlank(a);
    IndexOfBlankStable(a, b);
    assert (a + b)[..i] == a[..i] && (a + b)[i + 2..] == a[i + 2..] + b;
    BlocksFirst(a + b);
  }

  /** Cutting a text anywhere and keeping the unfinished rest loses nothing. */
  lemma {:induction false} BlocksAppend(a: string, b: string)
    ensures Blocks(a + b) == Blocks(a) + Blocks(Rest(a) + b)
    ensures Rest(a + b) == Rest(Rest(a) + b)
    decreases |a|
  {
    var i := IndexOfBlank(a);
    if i >= 0 {
      var first, tail := [a[..i]], a[i + 2..];
      FirstComplete(a, b);
      BlocksAppend(tail, b);
      BlocksFirst(a);
      Associate(first, Blocks(tail), Blocks(Rest(tail) + b));
    } else {
      assert Blocks(a) == [] && Rest(a) == a;
    }
  }

  lemma FlatMapLast<A, B>(s: seq<A>, a: A, f: A -> seq<B>)
    ensures FlatMap(s + [a], f) == FlatMap(s, f) + f(a)
  {
    assert (s + [a])[..|s|] == s;
  }

  lemma {:induction false} FlatMapFirst<A, B>(a: A, s: seq<A>, f: A -> seq<B>)
    ensures FlatMap([a] + s, f) == f(a) + FlatMap(s, f)
    decreases |s|
  {
    if s == [] {
      assert [a] + s == [] + [a];
      FlatMapLast([], a, f);
    } else {
      var front, last := s[..|s| - 1], s[|s| - 1];
      FlatMapFirst(a, front, f);
      FlatMapLast([a] + front, last, f);
      assert [a] + s == [a] + front + [last];
    }
  }

  lemma DecodeOneMore<J>(blocks: seq<string>, block: string, parse: string -> Option<J>)
    ensures Decode(blocks + [block], parse) == Decode(blocks, parse) + DecodeOne(block, parse)
  {
    FlatMapLast(blocks, block, block => DecodeOne(block, parse));
  }

  lemma TakeBlock(taken: seq<string>, text: string)
    requires IndexOfBlank(text) >= 0
    ensures var i := IndexOfBlank(text);
            taken + Blocks(text) == taken + [text[..i]] + Blocks(text[i + 2..]) && Rest(text) == Rest(text[i + 2..])
  {
    var i := IndexOfBlank(text);
    BlocksFirst(text);
    Associate(taken, [text[..i]], Blocks(text[i + 2..]));
  }

  lemma Associate<T>(a: seq<T>, b: seq<T>, c: seq<T>)
    ensures a + (b + c) == a + b + c
  {
  }

  lemma BlocksFirst(text: string)
    requires IndexOfBlank(text) >= 0
    ensures var i := IndexOfBlank(text);
            Blocks(text) == [text[..i]] + Blocks(text[i + 2..]) && Rest(text) == Rest(text[i + 2..])
  {
  }

  /** Takes every complete block off the buffer; the inner loop of the reader. */
  method Drain<J>(arrived: string, before: seq<StreamEvent<J>>, parse: string -> Option<J>, ghost done: seq<string>)
    returns (events: seq<StreamEvent<J>>, buffer: string)
    requires before == Decode(done, parse)
    ensures events == Decode(done + Blocks(arrived), parse)
    ensures buffer == Rest(arrived)
  {
    events, buffer := before, arrived;
    ghost var taken := done;
    while IndexOfBlank(buffer) != -1
      invariant taken + Blocks(buffer) == done + Blocks(arrived) && Rest(buffer) == Rest(arrived)
      invariant events == Decode(taken, parse)
      decreases |buffer|
    {
      var sep := IndexOfBlank(buffer);
      var block := buffer[..sep];
      TakeBlock(taken, buffer);
      DecodeOneMore(taken, block, parse);
      taken := taken + [block];
      buffer := buffer[sep + 2..];
      var frame := ParseFrame(block);
      if frame.None? {
        continue;
      }
      var value := parse(frame.value.data);
      if value.Some? {
        events := events + [StreamEvent(frame.value.event, value.value)];
      }
    }
    assert taken == done + Blocks(arrived);
  }

  /** Reads a stream that arrives in pieces. Whatever the pieces, the events are those of the whole text. */
  method ReadAgentStream<J>(chunks: seq<string>, parse: string -> Option<J>)
    returns (events: seq<StreamEvent<J>>, buffer: string)
    ensures events == Decode(Blocks(Concat(chunks)), parse)
    ensures buffer == Rest(Concat(chunks))
  {
    events, buffer := [], "";
    for k := 0 to |chunks|
      invariant events == Decode(Blocks(Concat(chunks[..k])), parse)
      invariant buffer == Rest(Concat(chunks[..k]))
    {
      ghost var text := Concat(chunks[..k]);
      BlocksAppend(text, chunks[k]);
      ConcatOneMore(chunks, k);
      events, buffer := Drain(buffer + chunks[k], events, parse, Blocks(text));
    }
    assert chunks[..|chunks|] == chunks;
  }

  lemma ConcatOneMore(chunks: seq<string>, k: nat)
    requires k < |chunks|
    ensures Concat(chunks[..k + 1]) == Concat(chunks[..k]) + chunks[k]
  {
    assert chunks[..k + 1][..k] == chunks[..k];
  }

  // ----- printing and reading back -----

  /** What survives a frame: no line break, nothing to trim. */
  predicate LineSafe(s: string) {
    '\n' !in s && Trim(s) == s
  }

  lemma {:induction false} SplitLine(a: string, b: string)
    requires '\n' !in a
    ensures Split(a + "\n" + b) == [a] + Split(b)
    decreases |a|
  {
    var text := a + "\n" + b;
    if a == "" {
      assert text[1..] == b;
    } else {
      assert text[1..] == a[1..] + "\n" + b;
      SplitLine(a[1..], b);
      assert [a[0]] + a[1..] == a;
    }
  }

  lemma {:induction false} SplitNothing(a: string)
    requires '\n' !in a
    ensures Split(a) == [a]
    decreases |a|
  {
    if a != "" {
      SplitNothing(a[1..]);
      assert [a[0]] + a[1..] == a;
    }
  }

  /** The first blank line of a stream that begins with a line-safe frame is the end of that frame. */
  lemma FirstFrameEnds(event: string, data: string, more: string)
    requires '\n' !in event && '\n' !in data
    ensures IndexOfBlank(PrintFrame(event, data) + more) == |FrameBody(event, data)|
  {
    var body, text := FrameBody(event, data), PrintFrame(event, data) + more;
    var n := |"event: " + event|;
    assert body[n] == '\n' && body[n + 1] == 'd';
    assert forall j: nat :: j < |body| && body[j] == '\n' ==> j == n;
    assert forall j: nat :: j < |body| ==> text[j] == body[j];
    assert text[|body|] == '\n' && text[|body| + 1] == '\n';
    FindsFirst(text, 0, |body|);
  }

  lemma FirstBlock(event: string, data: string, more: string)
    requires '\n' !in event && '\n' !in data
    ensures Blocks(PrintFrame(event, data) + more) == [FrameBody(event, data)] + Blocks(more)
    ensures Rest(PrintFrame(event, data) + more) == Rest(more)
  {
    var body, text := FrameBody(event, data), PrintFrame(event, data) + more;
    FirstFrameEnds(event, data, more);
    assert text[..|body|] == body && text[|body| + 2..] == more;
  }

  lemma TrimAfterColon(s: string)
    requires Trim(s) == s
    ensures Trim(" " + s) == s
  {
    assert (" " + s)[1..] == s;
    assert TrimStart(" " + s) == TrimStart(s);
  }

  lemma FrameReadsBack(event: string, data: string)
    requires LineSafe(event) && LineSafe(data)
    ensures FrameOf(FrameBody(event, data)) == Some(RawFrame(event, data))
  {
    var first, second := "event: " + event, "data: " + data;
    assert FrameBody(event, data) == first + "\n" + second;
    SplitLine(first, second);
    SplitNothing(second);
    var lines := [first, second];
    assert lines[..1] == [first] && [first][..0] == [];
    assert first[6..] == " " + event && second[5..] == " " + data;
    TrimAfterColon(event);
    TrimAfterColon(data);
    assert second[0] == 'd' && first[0] == 'e';
    assert EventOf([first]) == event && DataOf([first]) == [];
    assert EventOf(lines) == event;
    assert DataOf(lines) == [data];
    assert Join([data]) == data;
  }

  lemma DecodeFirst<J>(block: string, blocks: seq<string>, parse: string -> Option<J>)
    ensures Decode([block] + blocks, parse) == DecodeOne(block, parse) + Decode(blocks, parse)
  {
    FlatMapFirst(block, blocks, block => DecodeOne(block, parse));
  }

  ghost predicate Printable<J(!new)>(events: seq<StreamEvent<J>>, dump: J -> string, parse: string -> Option<J>) {
    forall e <- events :: LineSafe(e.event) && LineSafe(dump(e.data)) && parse(dump(e.data)) == Some(e.data)
  }

  lemma {:induction false} StreamReadsBack<J(!new)>(events: seq<StreamEvent<J>>, dump: J -> string,
                                                     parse: string -> Option<J>)
    requires Printable(events, dump, parse)
    ensures Decode(Blocks(PrintAll(events, dump)), parse) == events && Rest(PrintAll(events, dump)) == ""
    decreases |events|
  {
    if events != [] {
      var e, more := events[0], PrintAll(events[1..], dump);
      var body := FrameBody(e.event, dump(e.data));
      assert e in events;
      FirstBlock(e.event, dump(e.data), more);
      FrameReadsBack(e.event, dump(e.data));
      DecodeFirst(body, Blocks(more), parse);
      StreamReadsBack(events[1..], dump, parse);
    }
  }

  /** Printing a list of events, cutting the text anywhere and reading the pieces gives the events back. */
  method ReadsBackInPieces<J(!new)>(events: seq<StreamEvent<J>>, dump: J -> string, parse: string -> Option<J>,
                                    chunks: seq<string>)
    returns (read: seq<StreamEvent<J>>, buffer: string)
    requires Printable(events, dump, parse) && Concat(chunks) == PrintAll(events, dump)
    ensures read == events && buffer == ""
  {
    read, buffer := ReadAgentStream(chunks, parse);
    StreamReadsBack(events, dump, parse);
  }
}
