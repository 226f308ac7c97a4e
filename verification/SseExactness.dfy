/** Which event names and payloads survive a frame: exactly the line-safe ones. */
module SseExactness {
  import opened Wrappers
  import opened Sse

  // ----- what trimming and splitting leave -----

  lemma {:induction false} TrimStartLeaves(s: string)
    ensures |TrimStart(s)| <= |s| && (TrimStart(s) != "" ==> !IsSpace(TrimStart(s)[0]))
    ensures '\n' !in s ==> '\n' !in TrimStart(s)
  {
    if s != "" && IsSpace(s[0]) {
      TrimStartLeaves(s[1..]);
    }
  }

  lemma {:induction false} TrimEndLeaves(s: string)
    ensures TrimEnd(s) <= s && (TrimEnd(s) != "" ==> !IsSpace(TrimEnd(s)[|TrimEnd(s)| - 1]))
  {
    if s != "" && IsSpace(s[|s| - 1]) {
      TrimEndLeaves(s[..|s| - 1]);
    }
  }

  /** Trimming the content of a line leaves something line-safe. */
  lemma TrimmedIsSafe(s: string)
    requires '\n' !in s
    ensures LineSafe(Trim(s)) && |Trim(s)| <= |s|
  {
    TrimStartLeaves(s);
    TrimEndLeaves(TrimStart(s));
    var t := Trim(s);
    assert t != "" ==> t[0] == TrimStart(s)[0];
    assert TrimStart(t) == t && TrimEnd(t) == t;
  }

  lemma {:induction false} SplitIsClean(s: string)
    ensures forall line <- Split(s) :: '\n' !in line
    ensures Size(Split(s)) == |s| + 1
  {
    if s == "" {
      assert Size([""]) == 1;
    } else {
      SplitIsClean(s[1..]);
      var rest := Split(s[1..]);
      if s[0] == '\n' {
        assert Split(s)[1..] == rest;
      } else {
        assert Split(s)[1..] == rest[1..];
      }
    }
  }

  /** Characters of the lines, counting each line's end. */
  function Size(lines: seq<string>): nat {
    if lines == [] then 0 else |lines[0]| + 1 + Size(lines[1..])
  }

  lemma {:induction false} SizeLast(lines: seq<string>, last: string)
    ensures Size(lines + [last]) == Size(lines) + |last| + 1
  {
    if lines != [] {
      SizeLast(lines[1..], last);
      assert (lines + [last])[1..] == lines[1..] + [last];
    } else {
      assert lines + [last] == [last];
    }
  }

  // ----- what a frame can hold -----

  lemma {:induction false} EventIsSafe(lines: seq<string>)
    requires forall line <- lines :: '\n' !in line
    ensures LineSafe(EventOf(lines))
  {
    if lines == [] {
      assert TrimStart("message") == "message" && TrimEnd("message") == "message";
    } else {
      var front, last := lines[..|lines| - 1], lines[|lines| - 1];
      assert last in lines;
      if IsEventLine(last) {
        TrimmedIsSafe(last[6..]);
      } else {
        EventIsSafe(front);
      }
    }
  }

  lemma {:induction false} DataIsSafe(lines: seq<string>)
    requires forall line <- lines :: '\n' !in line
    ensures forall d <- DataOf(lines) :: LineSafe(d)
  {
    if lines != [] {
      var front, last := lines[..|lines| - 1], lines[|lines| - 1];
      assert last in lines;
      DataIsSafe(front);
      if IsDataLine(last) {
        TrimmedIsSafe(last[5..]);
      }
    }
  }

  /** The joined data is much shorter than the lines it comes from: each data line loses its field name. */
  lemma {:induction false} DataIsShort(lines: seq<string>)
    requires forall line <- lines :: '\n' !in line
    ensures |DataOf(lines)| <= |lines| <= Size(lines)
    ensures DataOf(lines) != [] ==> |Join(DataOf(lines))| + 1 + 4 * |DataOf(lines)| + |lines| <= Size(lines)
  {
    if lines != [] {
      var front, last := lines[..|lines| - 1], lines[|lines| - 1];
      assert lines == front + [last] && last in lines;
      SizeLast(front, last);
      DataIsShort(front);
      if IsDataLine(last) {
        TrimmedIsSafe(last[5..]);
        assert DataOf(lines)[..|DataOf(front)|] == DataOf(front);
      } else {
        assert DataOf(lines) == DataOf(front);
      }
    }
  }

  lemma {:induction false} DataAfterEventLine(first: string, rest: seq<string>)
    requires IsEventLine(first)
    ensures DataOf([first] + rest) == DataOf(rest)
  {
    if rest == [] {
      assert ([first] + rest)[..0] == [];
    } else {
      var all := [first] + rest;
      DataAfterEventLine(first, rest[..|rest| - 1]);
      assert all[..|all| - 1] == [first] + rest[..|rest| - 1];
    }
  }

  // ----- the first block of a printed text -----

  function AsIs(s: string): string {
    s
  }

  function Accept(s: string): Option<string> {
    Some(s)
  }

  /** Whatever is read, no event name spans two lines. */
  lemma {:induction false} DecodedNames(blocks: seq<string>)
    ensures forall e <- Decode(blocks, Accept) :: '\n' !in e.event
  {
    if blocks != [] {
      var front, last := blocks[..|blocks| - 1], blocks[|blocks| - 1];
      DecodedNames(front);
      assert blocks == front + [last];
      DecodeOneMore(front, last, Accept);
      SplitIsClean(last);
      EventIsSafe(Split(last));
      assert forall e <- DecodeOne(last, Accept) :: '\n' !in e.event;
    }
  }

  /** After a name without newlines the first block reaches into the data behind its field name, and not past it. */
  lemma FirstBlockBounds(event: string, data: string, more: string)
    requires '\n' !in event
    ensures |event| + 14 <= IndexOfBlank(PrintFrame(event, data) + more) <= |FrameBody(event, data)|
  {
    var head, text := "event: " + event + "\ndata: ", PrintFrame(event, data) + more;
    var n := |event| + 7;
    FindsFirst(text, 0, |FrameBody(event, data)|);
    assert head[n..] == "\ndata: ";
    assert forall j: nat :: j < n ==> head[j] == ("event: " + event)[j];
    assert forall j: nat :: j < n + 7 && j != n ==> head[j] != '\n';
    assert text[..n + 7] == head;
    assert forall j: nat :: j < n + 7 ==> text[j] == head[j];
  }

  lemma {:induction false} SplitStart(s: string, prefix: string)
    requires '\n' !in prefix && prefix <= s
    ensures prefix <= Split(s)[0]
  {
    if prefix != "" {
      SplitStart(s[1..], prefix[1..]);
    }
  }

  lemma {:induction false} DataLineFirst(lines: seq<string>)
    requires lines != [] && IsDataLine(lines[0])
    ensures DataOf(lines) != []
  {
    if |lines| > 1 {
      DataLineFirst(lines[..|lines| - 1]);
    }
  }

  /** Such a block consists of the event line and a text that starts with a data line. */
  lemma HeadBlock(event: string, data: string, i: nat) returns (second: string)
    requires '\n' !in event && |event| + 14 <= i <= |FrameBody(event, data)|
    ensures |second| <= |data| + 6
    ensures DataOf(Split(PrintFrame(event, data)[..i])) == DataOf(Split(second)) != []
  {
    var block, first := PrintFrame(event, data)[..i], "event: " + event;
    second := block[|first| + 1..];
    assert block == first + "\n" + second;
    SplitLine(first, second);
    DataAfterEventLine(first, Split(second));
    assert "data: " <= second;
    SplitStart(second, "data:");
    DataLineFirst(Split(second));
  }

  /** If it yields the event, the event is line-safe: there is room for a single data line only. */
  lemma HeadBlockSafe(event: string, data: string, i: nat)
    requires '\n' !in event && |event| + 14 <= i <= |FrameBody(event, data)|
    requires FrameOf(PrintFrame(event, data)[..i]) == Some(RawFrame(event, data))
    ensures LineSafe(event) && LineSafe(data)
  {
    var block := PrintFrame(event, data)[..i];
    var second := HeadBlock(event, data, i);
    SplitIsClean(block);
    EventIsSafe(Split(block));
    SplitIsClean(second);
    DataIsSafe(Split(second));
    DataIsShort(Split(second));
    var found := DataOf(Split(second));
    assert |found| == 1 && data == Join(found);
    assert found == [found[0]] && Join([found[0]]) == found[0];
  }

  // ----- lists of events -----

  /** The first event that is read from a printed text tells whether the first one printed was line-safe. */
  lemma FirstIsSafe(event: string, data: string, more: string)
    requires '\n' !in event
    requires var read := Decode(Blocks(PrintFrame(event, data) + more), Accept);
             read != [] && read[0] == StreamEvent(event, data)
    ensures LineSafe(event) && LineSafe(data)
  {
    var text := PrintFrame(event, data) + more;
    FirstBlockBounds(event, data, more);
    var i := IndexOfBlank(text);
    assert text[..i] == PrintFrame(event, data)[..i];
    assert Blocks(text) == [text[..i]] + Blocks(text[i + 2..]);
    DecodeFirst(text[..i], Blocks(text[i + 2..]), Accept);
    var second := HeadBlock(event, data, i);
    HeadBlockSafe(event, data, i);
  }

  /** Reading what was printed gives the same events only if each of them is line-safe. */
  lemma {:induction false} OnlyLineSafe(events: seq<StreamEvent<string>>)
    requires Decode(Blocks(PrintAll(events, AsIs)), Accept) == events
    ensures forall e <- events :: LineSafe(e.event) && LineSafe(e.data)
  {
    if events != [] {
      var first, rest := events[0], events[1..];
      var more := PrintAll(rest, AsIs);
      assert PrintAll(events, AsIs) == PrintFrame(first.event, first.data) + more;
      DecodedNames(Blocks(PrintAll(events, AsIs)));
      FirstIsSafe(first.event, first.data, more);
      FirstBlock(first.event, first.data, more);
      FrameReadsBack(first.event, first.data);
      DecodeFirst(FrameBody(first.event, first.data), Blocks(more), Accept);
      assert Decode(Blocks(more), Accept) == rest;
      OnlyLineSafe(rest);
    }
  }

  /** Printing events and reading them back is the identity exactly on lists of line-safe events. */
  lemma RoundTripExactly(events: seq<StreamEvent<string>>)
    ensures Decode(Blocks(PrintAll(events, AsIs)), Accept) == events <==>
            forall e <- events :: LineSafe(e.event) && LineSafe(e.data)
  {
    if Decode(Blocks(PrintAll(events, AsIs)), Accept) == events {
      OnlyLineSafe(events);
    }
    if forall e <- events :: LineSafe(e.event) && LineSafe(e.data) {
      StreamReadsBack(events, AsIs, Accept);
    }
  }
}
