/** What the client's reader makes of any block and any text: not only of those the query route prints. */
module SseFrames {
  import opened Wrappers
  import opened Sse

  // ----- the lines of a block -----

  datatype Line = Name(name: string) | Data(data: string) | Ignored(text: string) {
    /** Other lines are those that begin like neither. */
    predicate WellFormed() {
      match this
      case Name(n) => LineSafe(n)
      case Data(d) => LineSafe(d)
      case Ignored(t) => '\n' !in t && !("event:" <= t) && !("data:" <= t)
    }

    function Show(): string {
      match this
      case Name(n) => "event: " + n
      case Data(d) => "data: " + d
      case Ignored(t) => t
    }
  }

  ghost predicate AllWellFormed(lines: seq<Line>) {
    forall l <- lines :: l.WellFormed()
  }

  function ShowAll(lines: seq<Line>): seq<string> {
    if lines == [] then [] else ShowAll(lines[..|lines| - 1]) + [lines[|lines| - 1].Show()]
  }

  /** The name given last, or else `message`. */
  function NameIn(lines: seq<Line>): string {
    if lines == [] then "message"
    else if lines[|lines| - 1].Name? then lines[|lines| - 1].name
    else NameIn(lines[..|lines| - 1])
  }

  function DataIn(lines: seq<Line>): seq<string> {
    if lines == [] then []
    else DataIn(lines[..|lines| - 1]) + if lines[|lines| - 1].Data? then [lines[|lines| - 1].data] else []
  }

  lemma {:induction false} SplitJoined(lines: seq<string>)
    requires lines != [] && forall l <- lines :: '\n' !in l
    ensures Split(Join(lines)) == lines
    decreases |lines|
  {
    var front, last := lines[..|lines| - 1], lines[|lines| - 1];
    if front == [] {
      assert lines == [last];
      SplitNothing(last);
    } else {
      SplitJoined(front);
      SplitLast(Join(front), last);
      assert front + [last] == lines;
    }
  }

  /** One more line at the end. */
  lemma {:induction false} SplitLast(text: string, last: string)
    requires '\n' !in last
    ensures Split(text + "\n" + last) == Split(text) + [last]
    decreases |text|
  {
    var longer := text + "\n" + last;
    if text == "" {
      assert longer == "\n" + last && longer[1..] == last;
      SplitNothing(last);
    } else {
      assert longer[1..] == text[1..] + "\n" + last;
      SplitLast(text[1..], last);
    }
  }

  lemma ShownLine(l: Line)
    requires l.WellFormed()
    ensures '\n' !in l.Show()
    ensures IsEventLine(l.Show()) <==> l.Name?
    ensures l.Name? ==> Trim(l.Show()[6..]) == l.name
    ensures IsDataLine(l.Show()) <==> l.Data?
    ensures l.Data? ==> Trim(l.Show()[5..]) == l.data
  {
    match l
    case Name(n) =>
      assert l.Show()[6..] == " " + n;
      TrimAfterColon(n);
    case Data(d) =>
      assert l.Show()[5..] == " " + d && l.Show()[0] == 'd';
      TrimAfterColon(d);
    case Ignored(_) =>
  }

  lemma {:induction false} LinesDenote(lines: seq<Line>)
    requires AllWellFormed(lines)
    ensures EventOf(ShowAll(lines)) == NameIn(lines) && DataOf(ShowAll(lines)) == DataIn(lines)
    ensures |ShowAll(lines)| == |lines| && forall l <- ShowAll(lines) :: '\n' !in l
  {
    if lines != [] {
      var front, last := lines[..|lines| - 1], lines[|lines| - 1];
      assert last in lines;
      LinesDenote(front);
      ShownLine(last);
      var shown := ShowAll(lines);
      assert shown[..|shown| - 1] == ShowAll(front) && shown[|shown| - 1] == last.Show();
    }
  }

  /** A block of any lines is read as the event named last, `message` without a name, with all the data lines joined in
      their order; lines of other kinds are passed over, and without data there is no event. */
  lemma BlockDenotes(lines: seq<Line>)
    requires lines != [] && AllWellFormed(lines)
    ensures FrameOf(Join(ShowAll(lines))) ==
            if DataIn(lines) == [] then None else Some(RawFrame(NameIn(lines), Join(DataIn(lines))))
  {
    LinesDenote(lines);
    SplitJoined(ShowAll(lines));
  }

  // ----- the blocks of a text -----

  function Rejoin(blocks: seq<string>): string {
    if blocks == [] then "" else blocks[0] + "\n\n" + Rejoin(blocks[1..])
  }

  /** The blocks with a blank line after each, and then the rest, are the text; no blank line is left inside of any. */
  lemma {:induction false} BlocksRejoin(text: string)
    ensures Rejoin(Blocks(text)) + Rest(text) == text
    ensures IndexOfBlank(Rest(text)) == -1
    ensures forall b <- Blocks(text) :: IndexOfBlank(b) == -1
    decreases |text|
  {
    var i := IndexOfBlank(text);
    if i >= 0 {
      var block, more := text[..i], text[i + 2..];
      BlocksRejoin(more);
      BlocksFirst(text);
      NoneBefore(text, i);
      CutOut(text, i);
      RejoinFirst(block, Blocks(more), Rest(more));
    }
  }

  lemma CutOut(text: string, i: nat)
    requires BlankAt(text, i)
    ensures text == text[..i] + "\n\n" + text[i + 2..]
  {
    assert text[i..i + 2] == "\n\n";
    assert text == text[..i] + text[i..i + 2] + text[i + 2..];
  }

  lemma RejoinFirst(block: string, blocks: seq<string>, rest: string)
    ensures Rejoin([block] + blocks) + rest == block + "\n\n" + (Rejoin(blocks) + rest)
  {
    assert ([block] + blocks)[1..] == blocks;
    Associate(block + "\n\n", Rejoin(blocks), rest);
  }

  lemma NoneBefore(text: string, i: nat)
    requires IndexOfBlank(text) == i && i < |text|
    ensures IndexOfBlank(text[..i]) == -1
  {
    var j := IndexOfBlank(text[..i]);
    if j >= 0 {
      assert BlankAt(text, j);
      FindsFirst(text, 0, j);
    }
  }

  /** A block that has no data, or whose payload does not parse, is skipped: the others are read as without it. */
  lemma {:induction false} BadBlockIsSkipped<J>(before: seq<string>, bad: string, after: seq<string>,
                                                parse: string -> Option<J>)
    requires FrameOf(bad).None? || parse(FrameOf(bad).value.data).None?
    ensures Decode(before + [bad] + after, parse) == Decode(before + after, parse)
    decreases |after|
  {
    if after == [] {
      assert before + [bad] + after == before + [bad] && before + after == before;
      DecodeOneMore(before, bad, parse);
    } else {
      var front, last := after[..|after| - 1], after[|after| - 1];
      assert before + [bad] + after == before + [bad] + front + [last] && before + after == before + front + [last];
      BadBlockIsSkipped(before, bad, front, parse);
      DecodeOneMore(before + [bad] + front, last, parse);
      DecodeOneMore(before + front, last, parse);
    }
  }

  /** Every other block gives one event, in its place. */
  lemma GoodBlockIsRead<J>(before: seq<string>, good: string, parse: string -> Option<J>)
    requires FrameOf(good).Some? && parse(FrameOf(good).value.data).Some?
    ensures Decode(before + [good], parse) ==
            Decode(before, parse) + [StreamEvent(FrameOf(good).value.event, parse(FrameOf(good).value.data).value)]
  {
    DecodeOneMore(before, good, parse);
  }
}
