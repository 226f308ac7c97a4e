/** The reader of the WHATWG HTML Living Standard, sections 9.2.5 and 9.2.6, on the text that the query route prints,
    and how the client's reader compares with it. */
module EventSource {
  import opened Sse
  import opened SseExactness

  // ----- the standard's reader -----

  predicate EndsLine(c: char) {
    c == '\n' || c == '\r'
  }

  /** The length of the first line, or of the text when no line ends in it. */
  function LineLength(s: string): (n: nat)
    ensures n <= |s| && (forall i :: 0 <= i < n ==> !EndsLine(s[i])) && (n < |s| ==> EndsLine(s[n]))
  {
    if s == "" || EndsLine(s[0]) then 0 else 1 + LineLength(s[1..])
  }

  /** What follows the line end at position `n`: a carriage return and a newline in a row are one line end. */
  function AfterEnd(s: string, n: nat): (rest: string)
    requires n < |s|
    ensures |rest| < |s|
  {
    if s[n] == '\r' && n + 1 < |s| && s[n + 1] == '\n' then s[n + 2..] else s[n + 1..]
  }

  /** The lines that are ended, by a carriage return, a newline, or the two in a row. */
  function Lines(s: string): seq<string>
    decreases |s|
  {
    var n := LineLength(s);
    if n == |s| then [] else [s[..n]] + Lines(AfterEnd(s, n))
  }

  /** The position of the first colon, or the length of the line. */
  function Colon(line: string): (n: nat)
    ensures n <= |line| && ':' !in line[..n] && (n < |line| ==> line[n] == ':')
  {
    if line == "" || line[0] == ':' then 0 else 1 + Colon(line[1..])
  }

  /** The name and the value of a field; one space after the colon does not count. */
  function Field(line: string): (string, string) {
    var n := Colon(line);
    var value := if n < |line| then line[n + 1..] else "";
    (line[..n], if value != "" && value[0] == ' ' then value[1..] else value)
  }

  /** What a blank line dispatches from the two buffers. */
  function Dispatch(data: string, kind: string): seq<StreamEvent<string>> {
    if data == "" then [] else [StreamEvent(if kind == "" then "message" else kind, data[..|data| - 1])]
  }

  /** The lines in turn, with the data buffer and the event type buffer. A comment is a field without a name. */
  function Process(lines: seq<string>, data: string, kind: string): seq<StreamEvent<string>> {
    if lines == [] then []
    else if lines[0] == "" then Dispatch(data, kind) + Process(lines[1..], "", "")
    else
      var (name, value) := Field(lines[0]);
      if name == "event" then Process(lines[1..], data, value)
      else if name == "data" then Process(lines[1..], data + value + "\n", kind)
      else Process(lines[1..], data, kind)
  }

  function Standard(text: string): seq<StreamEvent<string>> {
    Process(Lines(text), "", "")
  }

  // ----- reading what was printed -----

  /** No line ends within the text. */
  predicate OneLine(s: string) {
    forall i :: 0 <= i < |s| ==> !EndsLine(s[i])
  }

  lemma {:induction false} LineLengthOf(line: string, more: string)
    requires OneLine(line)
    ensures LineLength(line + "\n" + more) == |line|
  {
    var s := line + "\n" + more;
    if line != "" {
      LineLengthOf(line[1..], more);
      assert s[1..] == line[1..] + "\n" + more;
    }
  }

  lemma FirstLine(line: string, more: string)
    requires OneLine(line)
    ensures Lines(line + "\n" + more) == [line] + Lines(more)
  {
    var s := line + "\n" + more;
    LineLengthOf(line, more);
    assert s[..|line|] == line && s[|line| + 1..] == more;
  }

  lemma {:induction false} ColonAfter(name: string, rest: string)
    requires ':' !in name
    ensures Colon(name + ":" + rest) == |name|
  {
    if name != "" {
      ColonAfter(name[1..], rest);
      assert (name + ":" + rest)[1..] == name[1..] + ":" + rest;
    }
  }

  lemma FieldOf(name: string, value: string)
    requires ':' !in name
    ensures Field(name + ": " + value) == (name, value)
  {
    ColonAfter(name, " " + value);
    var line := name + ": " + value;
    assert line == name + ":" + (" " + value);
    assert line[..|name|] == name && line[|name| + 1..] == " " + value;
    assert (" " + value)[1..] == value;
  }

  lemma FrameText(event: string, data: string, more: string)
    ensures PrintFrame(event, data) + more ==
            ("event: " + event) + "\n" + (("data: " + data) + "\n" + ("\n" + more))
  {
  }

  lemma FieldsAreLines(event: string, data: string)
    requires OneLine(event) && OneLine(data)
    ensures OneLine("event: " + event) && OneLine("data: " + data)
  {
    var name, line := "data: ", "data: " + data;
    assert OneLine(name);
    assert forall i :: 0 <= i < |line| ==> line[i] == if i < 6 then name[i] else data[i - 6];
  }

  lemma FrameLines(event: string, data: string, more: string)
    requires OneLine(event) && OneLine(data)
    ensures Lines(PrintFrame(event, data) + more) ==
            ["event: " + event] + (["data: " + data] + ([""] + Lines(more)))
  {
    FrameText(event, data, more);
    FieldsAreLines(event, data);
    FirstLine("event: " + event, ("data: " + data) + "\n" + ("\n" + more));
    FirstLine("data: " + data, "\n" + more);
    FirstLine("", more);
    assert "" + "\n" + more == "\n" + more;
  }

  lemma ProcessFrame(first: string, second: string, event: string, data: string, more: seq<string>)
    requires first != "" && second != "" && Field(first) == ("event", event) && Field(second) == ("data", data)
    ensures Process([first] + ([second] + ([""] + more)), "", "") ==
            [StreamEvent(if event == "" then "message" else event, data)] + Process(more, "", "")
  {
    var two, three := [second] + ([""] + more), [""] + more;
    assert ([first] + two)[1..] == two && two[1..] == three && three[1..] == more;
    assert Process([first] + two, "", "") == Process(two, "", event);
    assert "" + data + "\n" == data + "\n" && (data + "\n")[..|data|] == data;
    assert Process(two, "", event) == Process(three, data + "\n", event);
    assert Process(three, data + "\n", event) == Dispatch(data + "\n", event) + Process(more, "", "");
  }

  /** A frame whose name and payload are single lines is one event to the standard. */
  lemma FrameForStandard(event: string, data: string, more: string)
    requires OneLine(event) && OneLine(data)
    ensures Standard(PrintFrame(event, data) + more) ==
            [StreamEvent(if event == "" then "message" else event, data)] + Standard(more)
  {
    FrameLines(event, data, more);
    FieldOf("event", event);
    FieldOf("data", data);
    assert "event" + ": " + event == "event: " + event && "data" + ": " + data == "data: " + data;
    ProcessFrame("event: " + event, "data: " + data, event, data, Lines(more));
  }

  /** Names must not be empty, since the standard then puts in its default. */
  ghost predicate ForStandard(events: seq<StreamEvent<string>>) {
    forall e <- events :: e.event != "" && OneLine(e.event) && OneLine(e.data)
  }

  lemma {:induction false} StandardReadsBack(events: seq<StreamEvent<string>>)
    requires ForStandard(events)
    ensures Standard(PrintAll(events, AsIs)) == events
  {
    if events == [] {
      assert Lines("") == [];
    } else {
      FrameForStandard(events[0].event, events[0].data, PrintAll(events[1..], AsIs));
      StandardReadsBack(events[1..]);
    }
  }

  // ----- what the standard's reader can yield -----

  lemma FirstIsLine(s: string)
    ensures OneLine(s[..LineLength(s)])
  {
  }

  lemma {:induction false} LinesAreLines(s: string)
    ensures forall line <- Lines(s) :: OneLine(line)
    decreases |s|
  {
    var n := LineLength(s);
    if n < |s| {
      FirstIsLine(s);
      LinesAreLines(AfterEnd(s, n));
      assert Lines(s) == [s[..n]] + Lines(AfterEnd(s, n));
    }
  }

  ghost predicate Yielded(e: StreamEvent<string>) {
    e.event != "" && OneLine(e.event) && '\r' !in e.data
  }

  lemma FieldIsLine(line: string)
    requires OneLine(line)
    ensures OneLine(Field(line).1)
  {
    var n := Colon(line);
    if n < |line| {
      var value := line[n + 1..];
      assert forall i :: 0 <= i < |value| ==> value[i] == line[n + 1 + i];
    }
  }

  lemma DispatchYields(data: string, kind: string)
    requires '\r' !in data && OneLine(kind)
    ensures forall e <- Dispatch(data, kind) :: Yielded(e)
  {
    assert OneLine("message");
  }

  /** No carriage return and a name, whatever the lines. */
  lemma {:induction false} ProcessYields(lines: seq<string>, data: string, kind: string)
    requires forall line <- lines :: OneLine(line)
    requires '\r' !in data && OneLine(kind)
    ensures forall e <- Process(lines, data, kind) :: Yielded(e)
    decreases |lines|
  {
    if lines != [] {
      var line, rest := lines[0], lines[1..];
      assert OneLine(line) && forall l <- rest :: l in lines;
      if line == "" {
        DispatchYields(data, kind);
        ProcessYields(rest, "", "");
        assert Process(lines, data, kind) == Dispatch(data, kind) + Process(rest, "", "");
      } else {
        var (name, value) := Field(line);
        FieldIsLine(line);
        if name == "event" {
          ProcessYields(rest, data, value);
        } else if name == "data" {
          NoReturn(data, value);
          ProcessYields(rest, data + value + "\n", kind);
        } else {
          ProcessYields(rest, data, kind);
        }
      }
    }
  }

  lemma NoReturn(data: string, value: string)
    requires '\r' !in data && OneLine(value)
    ensures '\r' !in data + value + "\n"
  {
  }

  /** On the printed form of line-safe events the client's reader and the standard's agree exactly if every event has a
      name and no carriage return occurs in a name or a payload. */
  lemma ReadersAgreeExactly(events: seq<StreamEvent<string>>)
    requires forall e <- events :: LineSafe(e.event) && LineSafe(e.data)
    ensures var text := PrintAll(events, AsIs);
            Standard(text) == Decode(Blocks(text), Accept) <==>
            forall e <- events :: e.event != "" && '\r' !in e.event && '\r' !in e.data
  {
    var text := PrintAll(events, AsIs);
    RoundTripExactly(events);
    if forall e <- events :: e.event != "" && '\r' !in e.event && '\r' !in e.data {
      StandardReadsBack(events);
    }
    if Standard(text) == events {
      LinesAreLines(text);
      ProcessYields(Lines(text), "", "");
      assert forall e <- events :: e in Standard(text) && Yielded(e);
    }
  }

  // ----- beyond what is printed -----

  /** A second space before the payload is kept by the standard and trimmed by the client. */
  lemma SpaceIsKept(data: string)
    requires OneLine(data) && LineSafe(data)
    ensures var text := PrintFrame("x", " " + data);
            Standard(text) == [StreamEvent("x", " " + data)] && Decode(Blocks(text), Accept) != Standard(text)
  {
    var events := [StreamEvent("x", " " + data)];
    var text := PrintFrame("x", " " + data);
    assert PrintAll(events, AsIs) == text + "" == text;
    assert ForStandard(events);
    StandardReadsBack(events);
    RoundTripExactly(events);
    assert TrimStart(" " + data) == TrimStart(data);
  }
}
