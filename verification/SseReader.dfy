/** Frames: what each block of the event stream means, the reader as it runs, and
    the printer it inverts. */
module SseReader {
  import opened Text
  import opened Utf8
  import opened Json
  import opened SseFrames
  import opened SseCuts

  datatype Frame = Comment(text: string) | Data(data: Json) | Done

  // ---------------------------------------------------------------- one block

  const DATA := "data:"
  const DONE := "[DONE]"

  function CommentLines(lines: seq<string>): seq<string> {
    if lines == [] then [] else CommentOf(lines[0]) + CommentLines(lines[1..])
  }

  function CommentOf(line: string): seq<string> {
    if StartsWith(line, ":") then [Strip(line[1..])] else []
  }

  function DataLines(lines: seq<string>): seq<string> {
    if lines == [] then [] else DataOf(lines[0]) + DataLines(lines[1..])
  }

  function DataOf(line: string): seq<string> {
    if StartsWith(line, DATA) then [LStripBlanks(line[5..])] else []
  }

  /** What a block of lines means: its data lines joined, or else its comments, or nothing. */
  function BlockFrame(loads: string -> Option<Json>, block: string): Option<Frame> {
    var lines := Split(block, '\n');
    var data := DataLines(lines);
    if data == [] then
      (if CommentLines(lines) == [] then None else Some(Comment(Join(CommentLines(lines), " "))))
    else
      var payload := Strip(Join(data, LF));
      if payload == DONE then Some(Done)
      else
        match loads(payload)
        case None => Some(Comment(payload))
        case Some(v) => if v.JObj? then Some(Data(v)) else None
  }

  lemma {:induction false} LinesSnoc(lines: seq<string>, line: string)
    ensures CommentLines(lines + [line]) == CommentLines(lines) + CommentOf(line)
    ensures DataLines(lines + [line]) == DataLines(lines) + DataOf(line)
  {
    hide CommentOf, DataOf;
    if lines == [] {
      assert [] + [line] == [line];
      Singleton(line);
    } else {
      assert (lines + [line])[1..] == lines[1..] + [line];
      LinesSnoc(lines[1..], line);
      Associative(CommentOf(lines[0]), CommentLines(lines[1..]), CommentOf(line));
      Associative(DataOf(lines[0]), DataLines(lines[1..]), DataOf(line));
    }
  }

  // ---------------------------------------------------------------- what a block's lines say

  /** A line by its parts: `data:`, blanks and a text; a colon and a remark between white space; or any other. */
  datatype Line =
    | Give(blanks: string, text: string)
    | Remark(lead: string, core: string, trail: string)
    | Other(whole: string)

  predicate Space(s: string) {
    forall i | 0 <= i < |s| :: IsSpace(s[i])
  }

  /** No white space at either end. */
  predicate Bare(s: string) {
    s == "" || (!IsSpace(s[0]) && !IsSpace(s[|s| - 1]))
  }

  function LineText(l: Line): string {
    match l
    case Give(blanks, text) => "data:" + (blanks + text)
    case Remark(lead, core, trail) => ":" + (lead + core + trail)
    case Other(whole) => whole
  }

  predicate ProperLine(l: Line) {
    '\n' !in LineText(l)
    && match l
       case Give(blanks, text) => (forall i | 0 <= i < |blanks| :: blanks[i] == ' ') && (text != "" ==> text[0] != ' ')
       case Remark(lead, core, trail) => Space(lead) && Bare(core) && Space(trail)
       case Other(whole) => !(whole != "" && whole[0] == ':') && !(|whole| >= 5 && whole[..5] == "data:")
  }

  predicate Proper(lines: seq<Line>) {
    lines == [] || (ProperLine(lines[0]) && Proper(lines[1..]))
  }

  function LineTexts(lines: seq<Line>): (r: seq<string>)
    ensures |r| == |lines|
  {
    if lines == [] then [] else [LineText(lines[0])] + LineTexts(lines[1..])
  }

  function BlockText(lines: seq<Line>): string {
    Join(LineTexts(lines), "\n")
  }

  function Given(lines: seq<Line>): seq<string> {
    if lines == [] then [] else GivenBy(lines[0]) + Given(lines[1..])
  }

  function Remarks(lines: seq<Line>): seq<string> {
    if lines == [] then [] else RemarkBy(lines[0]) + Remarks(lines[1..])
  }

  function GivenBy(l: Line): seq<string> { if l.Give? then [l.text] else [] }
  function RemarkBy(l: Line): seq<string> { if l.Remark? then [l.core] else [] }

  /** What the lines say, given the payload: the texts of the data lines joined and stripped. */
  function Says(loads: string -> Option<Json>, lines: seq<Line>, payload: string): Option<Frame> {
    if Given(lines) == [] then
      (if Remarks(lines) == [] then None else Some(Comment(Join(Remarks(lines), " "))))
    else if payload == "[DONE]" then Some(Done)
    else
      match loads(payload)
      case None => Some(Comment(payload))
      case Some(JObj(fields)) => Some(Data(JObj(fields)))
      case Some(_) => None
  }

  lemma {:induction false} SplitJoined(parts: seq<string>)
    requires parts != [] && forall p | p in parts :: '\n' !in p
    ensures Split(Join(parts, "\n"), '\n') == parts
  {
    assert parts[0] in parts;
    if |parts| == 1 {
      SplitNone(parts[0], '\n');
      assert parts == [parts[0]];
    } else {
      SplitJoined(parts[1..]);
      SplitFirst(parts[0], '\n', Join(parts[1..], "\n"));
      assert parts == [parts[0]] + parts[1..];
    }
  }

  lemma {:induction false} TextsProper(lines: seq<Line>)
    requires Proper(lines)
    ensures forall p | p in LineTexts(lines) :: '\n' !in p
  {
    if lines != [] { TextsProper(lines[1..]); }
  }

  lemma {:induction false} LStripSpace(lead: string, rest: string)
    requires Space(lead) && (rest != "" ==> !IsSpace(rest[0]))
    ensures LStrip(lead + rest) == rest
  {
    if lead == "" {
      assert lead + rest == rest;
    } else {
      assert (lead + rest)[1..] == lead[1..] + rest;
      LStripSpace(lead[1..], rest);
    }
  }

  lemma {:induction false} AllSpaceStrips(s: string)
    requires Space(s)
    ensures LStrip(s) == ""
  {
    if s != "" { AllSpaceStrips(s[1..]); }
  }

  lemma {:induction false} RStripSpace(core: string, trail: string)
    requires Space(trail) && core != "" && !IsSpace(core[|core| - 1])
    ensures RStrip(core + trail) == core
  {
    if trail == "" {
      assert core + trail == core;
    } else {
      assert (core + trail)[..|core + trail| - 1] == core + trail[..|trail| - 1];
      RStripSpace(core, trail[..|trail| - 1]);
    }
  }

  /** Stripping takes off exactly the white space at both ends. */
  lemma StripIs(lead: string, core: string, trail: string)
    requires Space(lead) && Bare(core) && Space(trail)
    ensures Strip(lead + core + trail) == core
  {
    if core == "" {
      AllSpaceStrips(lead + core + trail);
    } else {
      assert lead + core + trail == lead + (core + trail);
      LStripSpace(lead, core + trail);
      RStripSpace(core, trail);
    }
  }

  lemma {:induction false} LStripBlanksIs(blanks: string, text: string)
    requires (forall i | 0 <= i < |blanks| :: blanks[i] == ' ') && (text != "" ==> text[0] != ' ')
    ensures LStripBlanks(blanks + text) == text
  {
    if blanks == "" {
      assert blanks + text == text;
    } else {
      assert (blanks + text)[1..] == blanks[1..] + text;
      LStripBlanksIs(blanks[1..], text);
    }
  }

  /** One line as the loop reads it. */
  lemma LineReads(l: Line)
    requires ProperLine(l)
    ensures DataOf(LineText(l)) == GivenBy(l) && CommentOf(LineText(l)) == RemarkBy(l)
  {
    var line := LineText(l);
    match l
    case Give(blanks, text) =>
      assert line[..5] == "data:" && line[..1][0] == 'd' && line[5..] == blanks + text;
      LStripBlanksIs(blanks, text);
    case Remark(lead, core, trail) =>
      assert line[..1] == ":" && line[1..] == lead + core + trail;
      assert |line| >= 5 ==> line[..5][0] == ':';
      StripIs(lead, core, trail);
    case Other(whole) =>
      assert |whole| >= 1 ==> whole[..1][0] == whole[0];
  }

  lemma {:induction false} LinesRead(lines: seq<Line>)
    requires Proper(lines)
    ensures DataLines(LineTexts(lines)) == Given(lines) && CommentLines(LineTexts(lines)) == Remarks(lines)
  {
    hide DataOf, CommentOf, LineText, GivenBy, RemarkBy, ProperLine;
    if lines != [] {
      assert LineTexts(lines)[0] == LineText(lines[0]) && LineTexts(lines)[1..] == LineTexts(lines[1..]);
      LinesRead(lines[1..]);
      LineReads(lines[0]);
    }
  }

  /** What a block means, from its lines alone. */
  lemma BlockSays(loads: string -> Option<Json>, lines: seq<Line>, lead: string, core: string, trail: string)
    requires lines != [] && Proper(lines)
    requires Join(Given(lines), "\n") == lead + core + trail && Space(lead) && Bare(core) && Space(trail)
    ensures BlockFrame(loads, BlockText(lines)) == Says(loads, lines, core)
  {
    TextsProper(lines);
    SplitJoined(LineTexts(lines));
    LinesRead(lines);
    StripIs(lead, core, trail);
    hide DataLines, CommentLines, Given, Remarks, Split, Strip, Join, LineTexts, Proper;
  }

  /** Every line has such parts. */
  lemma PartsOf(line: string) returns (l: Line)
    requires '\n' !in line
    ensures ProperLine(l) && LineText(l) == line
  {
    if |line| >= 5 && line[..5] == "data:" {
      var n := BlanksBefore(line[5..]);
      l := Give(line[5..][..n], line[5..][n..]);
      assert line == line[..5] + line[5..];
    } else if line != "" && line[0] == ':' {
      var lead, core, trail := StripParts(line[1..]);
      l := Remark(lead, core, trail);
      assert line == ":" + line[1..];
    } else {
      l := Other(line);
    }
  }

  function BlanksBefore(s: string): (n: nat)
    ensures n <= |s| && (forall i | 0 <= i < n :: s[i] == ' ') && (n < |s| ==> s[n] != ' ')
  {
    if s != "" && s[0] == ' ' then 1 + BlanksBefore(s[1..]) else 0
  }

  lemma StripParts(s: string) returns (lead: string, core: string, trail: string)
    ensures s == lead + core + trail && Space(lead) && Bare(core) && Space(trail)
  {
    var i := 0;
    while i < |s| && IsSpace(s[i])
      invariant 0 <= i <= |s| && forall k | 0 <= k < i :: IsSpace(s[k])
    {
      i := i + 1;
    }
    var j := |s|;
    while j > i && IsSpace(s[j - 1])
      invariant i <= j <= |s| && forall k | j <= k < |s| :: IsSpace(s[k])
    {
      j := j - 1;
    }
    lead, core, trail := s[..i], s[i..j], s[j..];
    assert s == lead + core + trail;
  }

  /** So every block has: the law above covers them all. */
  lemma LinesOf(block: string) returns (lines: seq<Line>)
    ensures lines != [] && Proper(lines) && BlockText(lines) == block
  {
    NoBreaks(block);
    lines := PartsOfAll(Split(block, '\n'));
    JoinSplit(block, '\n');
  }

  lemma {:induction false} NoBreaks(s: string)
    ensures forall p | p in Split(s, '\n') :: '\n' !in p
  {
    if s != "" {
      NoBreaks(s[1..]);
      var rest := Split(s[1..], '\n');
      assert rest[0] in rest;
      assert forall p | p in Split(s, '\n') :: p in rest || p == "" || p == [s[0]] + rest[0];
    }
  }

  lemma {:induction false} PartsOfAll(parts: seq<string>) returns (lines: seq<Line>)
    requires forall p | p in parts :: '\n' !in p
    ensures |lines| == |parts| && Proper(lines) && LineTexts(lines) == parts
  {
    if parts == [] {
      lines := [];
    } else {
      assert parts[0] in parts;
      var l := PartsOf(parts[0]);
      var rest := PartsOfAll(parts[1..]);
      lines := [l] + rest;
      assert lines[1..] == rest && parts == [parts[0]] + parts[1..];
    }
  }

  /** The parser's loop. Whatever lines the block is made of, the frame is what they say. */
  method ParseBlock(loads: string -> Option<Json>, block: string) returns (frame: Option<Frame>)
    ensures frame == BlockFrame(loads, block)
    ensures forall lines: seq<Line>, lead: string, core: string, trail: string
              | lines != [] && Proper(lines) && block == BlockText(lines)
                && Join(Given(lines), "\n") == lead + core + trail && Space(lead) && Bare(core) && Space(trail) ::
              frame == Says(loads, lines, core)
  {
    forall lines: seq<Line>, lead: string, core: string, trail: string
      | lines != [] && Proper(lines) && block == BlockText(lines)
        && Join(Given(lines), "\n") == lead + core + trail && Space(lead) && Bare(core) && Space(trail)
      ensures BlockFrame(loads, block) == Says(loads, lines, core)
    {
      BlockSays(loads, lines, lead, core, trail);
    }
    frame := ReadBlock(loads, block);
  }

  method ReadBlock(loads: string -> Option<Json>, block: string) returns (frame: Option<Frame>)
    ensures frame == BlockFrame(loads, block)
  {
    var dataLines: seq<string>, comments: seq<string> := [], [];
    var lines := Split(block, '\n');
    hide DataLines, CommentLines, DataOf, CommentOf, Split;
    NoLines();
    for i := 0 to |lines|
      invariant dataLines == DataLines(lines[..i]) && comments == CommentLines(lines[..i])
    {
      var line := lines[i];
      assert lines[..i + 1] == lines[..i] + [line];
      LinesSnoc(lines[..i], line);
      LineIs(line);
      if StartsWith(line, ":") {
        comments := comments + [Strip(line[1..])];
      } else if StartsWith(line, DATA) {
        dataLines := dataLines + [LStripBlanks(line[5..])];
      }
    }
    assert lines[..|lines|] == lines;
    if dataLines == [] {
      return if comments != [] then Some(Comment(Join(comments, " "))) else None;
    }
    var payload := Strip(Join(dataLines, LF));
    if payload == DONE {
      return Some(Done);
    }
    match loads(payload)
    case None => return Some(Comment(payload));
    case Some(v) => return if v.JObj? then Some(Data(v)) else None;
  }

  lemma NoLines()
    ensures DataLines([]) == [] && CommentLines([]) == []
  {}

  /** One line adds to one of the two lists at most. */
  lemma LineIs(line: string)
    ensures StartsWith(line, ":") ==> |line| >= 1 && CommentOf(line) == [Strip(line[1..])] && DataOf(line) == []
    ensures !StartsWith(line, ":") ==> CommentOf(line) == []
    ensures StartsWith(line, DATA) ==> |line| >= 5 && DataOf(line) == [LStripBlanks(line[5..])]
    ensures !StartsWith(line, DATA) ==> DataOf(line) == []
  {
    if StartsWith(line, ":") {
      assert line[0] == line[..1][0] == ':';
      assert |line| >= 5 ==> line[..5][0] == ':';
    }
  }

  // ---------------------------------------------------------------- the whole stream

  function Frames(loads: string -> Option<Json>, blocks: seq<string>): seq<Frame> {
    if blocks == [] then []
    else
      (match BlockFrame(loads, blocks[0]) case Some(f) => [f] case None => []) + Frames(loads, blocks[1..])
  }

  /** Every finished block, then the unfinished tail unless it is blank. */
  function StreamFrames(loads: string -> Option<Json>, r: Reader): seq<Frame> {
    Frames(loads, r.blocks) + (if Strip(r.buffer) != "" then Frames(loads, [r.buffer]) else [])
  }

  lemma {:induction false} FramesConcat(loads: string -> Option<Json>, a: seq<string>, b: seq<string>)
    ensures Frames(loads, a + b) == Frames(loads, a) + Frames(loads, b)
  {
    if a == [] {
      assert a + b == b;
    } else {
      assert (a + b)[1..] == a[1..] + b;
      FramesConcat(loads, a[1..], b);
      Associative(match BlockFrame(loads, a[0]) case Some(f) => [f] case None => [],
                  Frames(loads, a[1..]), Frames(loads, b));
    }
  }

  /** The splitting loop: takes every finished block off the buffer and parses it. */
  method DrainBuffer(loads: string -> Option<Json>, buffer: string) returns (frames: seq<Frame>, rest: string)
    ensures frames == Frames(loads, Drain(buffer).0) && rest == Drain(buffer).1
  {
    assert Frames(loads, []) == [];
    hide *;
    frames, rest := [], buffer;
    assert [] + Frames(loads, Drain(buffer).0) == Frames(loads, Drain(buffer).0);
    while Find(rest, BLANK).Some?
      invariant frames + Frames(loads, Drain(rest).0) == Frames(loads, Drain(buffer).0)
      invariant Drain(rest).1 == Drain(buffer).1
      decreases |rest|
    {
      var at := Find(rest, BLANK).value;
      FirstBlockFrames(loads, rest, at);
      Associative(frames, Frames(loads, [rest[..at]]), Frames(loads, Drain(rest[at + 2..]).0));
      OneFrame(loads, rest[..at]);
      var frame := ParseBlock(loads, rest[..at]);
      rest := rest[at + 2..];
      if frame.Some? {
        frames := frames + [frame.value];
      } else {
        assert frames + [] == frames;
      }
    }
    DrainNone(rest);
    assert frames + [] == frames;
  }

  lemma FirstBlockFrames(loads: string -> Option<Json>, s: string, i: nat)
    requires Find(s, BLANK) == Some(i)
    ensures i + 2 <= |s| && Drain(s).1 == Drain(s[i + 2..]).1
    ensures Frames(loads, Drain(s).0) == Frames(loads, [s[..i]]) + Frames(loads, Drain(s[i + 2..]).0)
  {
    hide *;
    DrainSome(s, i);
    FramesConcat(loads, [s[..i]], Drain(s[i + 2..]).0);
  }

  lemma OneFrame(loads: string -> Option<Json>, block: string)
    ensures Frames(loads, [block]) == match BlockFrame(loads, block) case Some(f) => [f] case None => []
  {
    hide BlockFrame;
    Singleton(block);
  }

  /** The reader over a stream of chunks. Every cut of a stream without CR CR LF yields the
      frames of one pass over it, and every cut of a settled one those of two. */
  method IterFrames(loads: string -> Option<Json>, chunks: seq<seq<Byte>>) returns (frames: seq<Frame>)
    ensures frames == StreamFrames(loads, ReadStream(chunks))
    ensures NoCrCrLf(DecodeAll(Flatten(chunks))) ==>
              frames == StreamFrames(loads, OnePass(DecodeAll(Flatten(chunks))))
    ensures Settled(DecodeAll(Flatten(chunks))) ==>
              frames == StreamFrames(loads, TwoPass(DecodeAll(Flatten(chunks))))
  {
    hide *;
    var buffer := "";
    frames := [];
    var decoder := new IncrementalDecoder();
    ghost var w := Wire([], START);
    StartFrames(loads);
    for i := 0 to |chunks|
      invariant w.pending == decoder.pending && w.reader.buffer == buffer
      invariant frames == Frames(loads, w.reader.blocks)
      invariant ReceiveAll(w, chunks[i..]) == ReceiveAll(Wire([], START), chunks)
    {
      var chunk := chunks[i];
      FlattenFirst(w, chunks[i..]);
      assert chunks[i..][1..] == chunks[i + 1..];
      if chunk == [] {
        continue;
      }
      var text := decoder.Decode(chunk);
      NormaliseIsReplace(buffer + text);
      var found, rest := DrainBuffer(loads, Replace(buffer + text, "\r\n", "\n"));
      FeedFrames(loads, w.reader, text);
      w := Receive(w, chunk);
      frames, buffer := frames + found, rest;
    }
    ReceiveNone(w, chunks);
    var text := decoder.Finish();
    NormaliseIsReplace(buffer + text);
    var found, rest := DrainBuffer(loads, Replace(buffer + text, "\r\n", "\n"));
    FeedFrames(loads, w.reader, text);
    frames, buffer := frames + found, rest;
    StreamFramesUnfold(loads, chunks, w, text);
    if Strip(buffer) != "" {
      OneFrame(loads, buffer);
      var frame := ParseBlock(loads, buffer);
      if frame.Some? {
        frames := frames + [frame.value];
      }
    }
    if NoCrCrLf(DecodeAll(Flatten(chunks))) { ChunkInvariance(chunks); }
    if Settled(DecodeAll(Flatten(chunks))) { SettledReading(chunks); }
  }

  lemma StartFrames(loads: string -> Option<Json>)
    ensures START.buffer == "" && Frames(loads, START.blocks) == []
  {}

  lemma ReceiveNone(w: Wire, chunks: seq<seq<Byte>>)
    ensures ReceiveAll(w, chunks[|chunks|..]) == w
  {}

  lemma FeedFrames(loads: string -> Option<Json>, r: Reader, text: string)
    ensures var d := Drain(Normalise(r.buffer + text));
            Frames(loads, Feed(r, text).blocks) == Frames(loads, r.blocks) + Frames(loads, d.0)
            && Feed(r, text).buffer == d.1
  {
    hide Drain, Normalise, Frames;
    FramesConcat(loads, r.blocks, Drain(Normalise(r.buffer + text)).0);
  }

  lemma StreamFramesUnfold(loads: string -> Option<Json>, chunks: seq<seq<Byte>>, w: Wire, text: string)
    requires w == ReceiveAll(Wire([], START), chunks) && text == Flush(w.pending)
    ensures var r := Feed(w.reader, text);
            StreamFrames(loads, ReadStream(chunks)) ==
            Frames(loads, r.blocks) + (if Strip(r.buffer) != "" then Frames(loads, [r.buffer]) else [])
  {
    hide Feed, Frames, ReceiveAll, Strip;
  }

  // ---------------------------------------------------------------- a stream whose frames depend on the cut

  /** Two comment lines around CR CR LF, sent whole or cut behind the line feed. */
  const HEAD_TEXT := ":\n\r\r\n"
  const TAIL_TEXT := ":\n\n"

  lemma NormaliseHeadText()
    ensures Normalise(HEAD_TEXT) == ":\n\r\n"
  {
    hide Normalise;
    NormaliseLiterals();
    NormalisedFixed(":\n");
    assert HEAD_TEXT == ":\n" + "\r\r\n";
    NormaliseConcat(":\n", "\r\r\n");
  }

  lemma NormaliseTexts()
    ensures Normalise(HEAD_TEXT + TAIL_TEXT) == ":\n\r\n:\n\n"
    ensures Normalise(":\n\r\n" + TAIL_TEXT) == ":\n\n:\n\n"
  {
    hide Normalise;
    NormaliseLiterals();
    NormaliseHeadText();
    NormalisedFixed(":\n");
    NormalisedFixed(TAIL_TEXT);
    assert ":\n\r\n" == ":\n" + "\r\n";
    NormaliseConcat(":\n", "\r\n");
    NormaliseConcat(HEAD_TEXT, TAIL_TEXT);
    NormaliseConcat(":\n\r\n", TAIL_TEXT);
  }

  lemma DrainEmpty()
    ensures Drain("") == ([], "")
  {
    assert !At("", BLANK, 0);
  }

  lemma DrainNoBlank(s: string)
    requires forall i | 0 <= i < |s| - 1 :: !(s[i] == '\n' && s[i + 1] == '\n')
    ensures Drain(s) == ([], s)
  {
    forall j | 0 <= j <= |s| ensures !At(s, BLANK, j) {
      if j + 2 <= |s| { assert s[j..j + 2][0] == s[j] && s[j..j + 2][1] == s[j + 1]; }
    }
    DrainNone(s);
  }

  lemma DrainOneText()
    ensures Drain(":\n\r\n:\n\n") == ([":\n\r\n:"], "")
  {
    DrainEmpty();
    DrainBlock(":\n\r\n:", "");
    hide Drain;
    assert ":\n\r\n:" + BLANK + "" == ":\n\r\n:\n\n";
    assert [":\n\r\n:"] + [] == [":\n\r\n:"];
  }

  lemma DrainTwoTexts()
    ensures Drain(":\n\n:\n\n") == ([":", ":"], "")
  {
    DrainEmpty();
    DrainBlock(":", "");
    DrainBlock(":", ":\n\n");
    hide Drain;
    assert ":" + BLANK + "" == ":\n\n" && ":" + BLANK + ":\n\n" == ":\n\n:\n\n";
    assert [":"] + [] == [":"] && [":"] + [":"] == [":", ":"];
  }

  lemma SplitTexts()
    ensures Split(":", '\n') == [":"] && Split(":\n\r\n:", '\n') == [":", "\r", ":"]
  {
    SplitNone(":", '\n');
    SplitNone("\r", '\n');
    SplitFirst("\r", '\n', ":");
    SplitFirst(":", '\n', "\r\n:");
    hide *;
    assert "\r" + "\n" + ":" == "\r\n:" && ":" + "\n" + "\r\n:" == ":\n\r\n:";
    assert [":"] + (["\r"] + [":"]) == [":", "\r", ":"];
  }

  lemma CommentFrames(loads: string -> Option<Json>)
    ensures BlockFrame(loads, ":") == Some(Comment(""))
    ensures BlockFrame(loads, ":\n\r\n:") == Some(Comment(" "))
  {
    SplitTexts();
    hide Split;
    var lines := [":", "\r", ":"];
    assert lines[1..] == ["\r", ":"] && lines[1..][1..] == [":"];
    Singleton(":");
    assert ":"[..1] == ":" && "\r"[..1] == "\r" && ":"[1..] == "";
    assert DataLines(lines) == [] && CommentLines(lines) == ["", ""] by {
      assert CommentLines([":"]) == [""] && CommentLines(["\r", ":"]) == [""];
    }
    assert Join(["", ""], " ") == " " by { assert ["", ""][1..] == [""]; }
  }

  /** The same bytes give one frame when they arrive whole and two when the cut falls behind CR CR LF. */
  lemma CutChangesFrames(loads: string -> Option<Json>)
    ensures Flatten([Encode(HEAD_TEXT + TAIL_TEXT)]) == Flatten([Encode(HEAD_TEXT), Encode(TAIL_TEXT)])
    ensures StreamFrames(loads, ReadStream([Encode(HEAD_TEXT + TAIL_TEXT)])) == [Comment(" ")]
    ensures StreamFrames(loads, ReadStream([Encode(HEAD_TEXT), Encode(TAIL_TEXT)])) == [Comment(""), Comment("")]
  {
    hide *;
    ReadWholeAndCut();
    WholeFrames(loads);
    CutFrames(loads);
  }

  lemma WholeFrames(loads: string -> Option<Json>)
    ensures StreamFrames(loads, Reader([":\n\r\n:"], "")) == [Comment(" ")]
  {
    hide *;
    CommentFrames(loads);
    StreamFramesNoTail(loads, [":\n\r\n:"]);
    OneFrame(loads, ":\n\r\n:");
  }

  lemma CutFrames(loads: string -> Option<Json>)
    ensures StreamFrames(loads, Reader([":", ":"], "")) == [Comment(""), Comment("")]
  {
    hide *;
    CommentFrames(loads);
    StreamFramesNoTail(loads, [":", ":"]);
    OneFrame(loads, ":");
    FramesConcat(loads, [":"], [":"]);
    assert [":"] + [":"] == [":", ":"];
    assert [Comment("")] + [Comment("")] == [Comment(""), Comment("")];
  }

  lemma StreamFramesNoTail(loads: string -> Option<Json>, blocks: seq<string>)
    ensures StreamFrames(loads, Reader(blocks, "")) == Frames(loads, blocks)
  {
    hide Frames;
    assert Strip("") == "";
  }

  lemma OnePassTexts()
    ensures OnePass(HEAD_TEXT + TAIL_TEXT) == Reader([":\n\r\n:"], "")
    ensures Feed(OnePass(HEAD_TEXT), TAIL_TEXT) == Reader([":", ":"], "")
  {
    hide Drain, Normalise, HEAD_TEXT, TAIL_TEXT;
    NormaliseHeadText();
    NormaliseTexts();
    DrainNoBlank(":\n\r\n");
    DrainOneText();
    DrainTwoTexts();
    DrainEmpty();
    assert OnePass(HEAD_TEXT) == Reader([], ":\n\r\n");
  }

  lemma ReadWholeAndCut()
    ensures Flatten([Encode(HEAD_TEXT + TAIL_TEXT)]) == Flatten([Encode(HEAD_TEXT), Encode(TAIL_TEXT)])
    ensures ReadStream([Encode(HEAD_TEXT + TAIL_TEXT)]) == Reader([":\n\r\n:"], "")
    ensures ReadStream([Encode(HEAD_TEXT), Encode(TAIL_TEXT)]) == Reader([":", ":"], "")
  {
    assert Encode(HEAD_TEXT) != [] && Encode(TAIL_TEXT) != [];
    hide *;
    OnePassTexts();
    EncodeRoundTrip(HEAD_TEXT);
    EncodeRoundTrip(TAIL_TEXT);
    EncodeRoundTrip(HEAD_TEXT + TAIL_TEXT);
    EncodeConcat(HEAD_TEXT, TAIL_TEXT);
    WholeAndCut(Encode(HEAD_TEXT), Encode(TAIL_TEXT));
    FeedNothing([":", ":"]);
    FeedNothing([":\n\r\n:"]);
  }

  lemma FeedNothing(blocks: seq<string>)
    ensures Feed(Reader(blocks, ""), "") == Reader(blocks, "")
  {
    DrainEmpty();
    assert blocks + [] == blocks;
  }

  lemma WholeAndCut(head: seq<Byte>, tail: seq<Byte>)
    requires head != [] && tail != [] && Scan(head).rest == [] && Scan(tail).rest == [] && Scan(head + tail).rest == []
    ensures Flatten([head, tail]) == head + tail == Flatten([head + tail])
    ensures ReadStream([head, tail]) == Feed(Feed(OnePass(Scan(head).text), Scan(tail).text), "")
    ensures ReadStream([head + tail]) == Feed(OnePass(Scan(head + tail).text), "")
  {
    hide Scan, Feed, OnePass;
    TwoChunks(head, tail);
    Singleton(head + tail);
    FeedStart(Scan(head + tail).text);
    assert [] + (head + tail) == head + tail;
    assert Flatten([head + tail]) == (head + tail) + Flatten([]);
    assert ReceiveAll(Wire([], START), [head + tail]) == Receive(Wire([], START), head + tail);
  }

  // ---------------------------------------------------------------- the printer

  /** `sse_event`: the text of one event; a missing or empty name gives a bare data line. */
  function EventText(codec: Codec, name: Option<string>, data: Json): string {
    (if name.Some? && name.value != "" then "event: " + name.value + LF else "")
    + "data: " + codec.dumps(data) + BLANK
  }

  /** An object this codec prints on one line, braces first and last, and reads back unchanged. */
  predicate Printable(codec: Codec, data: Json) {
    var s := codec.dumps(data);
    data.JObj? && codec.loads(s) == Some(data)
    && |s| >= 2 && s[0] == '{' && s[|s| - 1] == '}' && '\n' !in s && '\r' !in s
  }

  predicate NewlineFree(name: Option<string>) {
    name.Some? ==> '\n' !in name.value && '\r' !in name.value
  }

  datatype Event = Event(name: Option<string>, data: Json)

  predicate Sendable(codec: Codec, e: Event) {
    Printable(codec, e.data) && NewlineFree(e.name)
  }

  function Sent(codec: Codec, events: seq<Event>): string {
    if events == [] then "" else EventText(codec, events[0].name, events[0].data) + Sent(codec, events[1..])
  }

  function DataFrames(events: seq<Event>): seq<Frame> {
    if events == [] then [] else [Data(events[0].data)] + DataFrames(events[1..])
  }

  /** The event's own lines, without the blank line that ends it. */
  function EventBlock(codec: Codec, e: Event): string {
    (if e.name.Some? && e.name.value != "" then "event: " + e.name.value + LF else "") + "data: " + codec.dumps(e.data)
  }

  lemma StripObject(s: string)
    requires |s| >= 2 && s[0] == '{' && s[|s| - 1] == '}'
    ensures Strip(s) == s && LStripBlanks(s) == s && LStripBlanks(" " + s) == s
  {
    assert (" " + s)[1..] == s;
  }

  lemma DataLineOf(s: string)
    requires |s| >= 2 && s[0] == '{' && s[|s| - 1] == '}'
    ensures DataLines(["data: " + s]) == [s]
  {
    var line := "data: " + s;
    assert line[..5] == DATA;
    assert line[5..] == " " + s;
    StripObject(s);
    Singleton(line);
  }

  lemma DataLinesOfNamed(head: string, line: string)
    requires '\n' !in head && '\n' !in line && |head| > 0 && head[0] != 'd'
    ensures DataLines(Split(head + LF + line, '\n')) == DataLines([line])
  {
    SplitFirst(head, '\n', line);
    SplitNone(line, '\n');
    assert ([head] + [line])[1..] == [line];
    assert |head| >= 5 ==> head[..5][0] == head[0];
  }

  lemma EventDataLines(codec: Codec, e: Event)
    requires Sendable(codec, e)
    ensures DataLines(Split(EventBlock(codec, e), '\n')) == [codec.dumps(e.data)]
  {
    hide DataLines, Split;
    var line := "data: " + codec.dumps(e.data);
    assert '\n' !in line;
    DataLineOf(codec.dumps(e.data));
    if e.name.Some? && e.name.value != "" {
      var head := "event: " + e.name.value;
      assert head[0] == 'e' && '\n' !in head;
      assert EventBlock(codec, e) == head + LF + line;
      DataLinesOfNamed(head, line);
    } else {
      SplitNone(line, '\n');
      assert EventBlock(codec, e) == line;
    }
  }

  /** An event's block means its data. */
  lemma EventBlockFrame(codec: Codec, e: Event)
    requires Sendable(codec, e)
    ensures BlockFrame(codec.loads, EventBlock(codec, e)) == Some(Data(e.data))
  {
    hide EventBlock;
    var s := codec.dumps(e.data);
    EventDataLines(codec, e);
    StripObject(s);
    assert Join([s], LF) == s;
    assert s[0] != DONE[0];
  }

  /** A blank line ends a block that has no line break at its end and no blank line inside. */
  lemma DrainBlock(block: string, rest: string)
    requires |block| > 0 && block[|block| - 1] != '\n'
    requires forall i | 0 <= i < |block| - 1 :: !(block[i] == '\n' && block[i + 1] == '\n')
    ensures Drain(block + BLANK + rest) == ([block] + Drain(rest).0, Drain(rest).1)
  {
    var s := block + BLANK + rest;
    var n := |block|;
    assert s[n..n + 2] == BLANK;
    assert At(s, BLANK, n);
    forall j | 0 <= j < n ensures !At(s, BLANK, j) {
      assert s[j..j + 2][0] == block[j];
      assert j + 1 < n ==> s[j..j + 2][1] == block[j + 1];
      assert BLANK[0] == '\n' && BLANK[1] == '\n';
    }
    assert Find(s, BLANK) == Some(n);
    DrainSome(s, n);
    assert s[..n] == block && s[n + 2..] == rest;
  }

  lemma EventBlockShape(codec: Codec, e: Event)
    requires Sendable(codec, e)
    ensures var block := EventBlock(codec, e);
            |block| > 0 && block[|block| - 1] != '\n' && '\r' !in block
            && forall i | 0 <= i < |block| - 1 :: !(block[i] == '\n' && block[i + 1] == '\n')
  {
    var line := "data: " + codec.dumps(e.data);
    assert line[|line| - 1] == '}' && '\n' !in line && '\r' !in line;
    if e.name.Some? && e.name.value != "" {
      var head := "event: " + e.name.value;
      assert EventBlock(codec, e) == head + LF + line;
      assert '\n' !in head && '\r' !in head;
    } else {
      assert EventBlock(codec, e) == line;
    }
  }

  /** What was sent splits into exactly the events' blocks. */
  lemma {:induction false} SentFrames(codec: Codec, events: seq<Event>)
    requires forall e | e in events :: Sendable(codec, e)
    ensures '\r' !in Sent(codec, events)
    ensures Drain(Sent(codec, events)).1 == ""
    ensures Frames(codec.loads, Drain(Sent(codec, events)).0) == DataFrames(events)
  {
    if events == [] {
      assert Find("", BLANK).None?;
    } else {
      var e, rest := events[0], Sent(codec, events[1..]);
      SentFrames(codec, events[1..]);
      assert Sent(codec, events) == EventBlock(codec, e) + BLANK + rest;
      EventBlockShape(codec, e);
      EventBlockFrame(codec, e);
      hide *;
      DrainBlock(EventBlock(codec, e), rest);
      FramesConcat(codec.loads, [EventBlock(codec, e)], Drain(rest).0);
      OneFrame(codec.loads, EventBlock(codec, e));
      DataFramesFirst(events);
    }
  }

  lemma DataFramesFirst(events: seq<Event>)
    requires events != []
    ensures DataFrames(events) == [Data(events[0].data)] + DataFrames(events[1..])
  {}

  /** Printer and reader are inverse: the bytes of any list of events, cut anywhere,
      read back as exactly their objects, in order. */
  lemma SendReceive(codec: Codec, events: seq<Event>, chunks: seq<seq<Byte>>)
    requires forall e | e in events :: Sendable(codec, e)
    requires Flatten(chunks) == Encode(Sent(codec, events))
    ensures StreamFrames(codec.loads, ReadStream(chunks)) == DataFrames(events)
  {
    var text := Sent(codec, events);
    SentFrames(codec, events);
    EncodeRoundTrip(text);
    assert NoCrCrLf(text) && NoCrLf(text);
    ChunkInvariance(chunks);
    NormalisedFixed(text);
    assert Strip("") == "";
  }

  // ---------------------------------------------------------------- one block more

  /** What follows printed events is read on its own. */
  lemma SentThen(codec: Codec, events: seq<Event>, more: string)
    requires forall e | e in events :: Sendable(codec, e)
    ensures var d := Drain(Sent(codec, events) + more);
            d.1 == Drain(more).1
            && Frames(codec.loads, d.0) == DataFrames(events) + Frames(codec.loads, Drain(more).0)
  {
    var text := Sent(codec, events);
    SentFrames(codec, events);
    DrainSplit(text);
    assert text == Terminated(Drain(text).0) by {
      assert Terminated(Drain(text).0) + "" == Terminated(Drain(text).0);
    }
    hide *;
    DrainResumes(text, more);
    FramesConcat(codec.loads, Drain(text).0, Drain(more).0);
  }

  /** No empty line inside. */
  predicate Solid(block: string) {
    block != "" && block[0] != '\n' && block[|block| - 1] != '\n'
    && forall i | 0 <= i < |block| - 1 :: !(block[i] == '\n' && block[i + 1] == '\n')
  }

  /** A block read as the whole of a stream, finished by a blank line or not. */
  lemma SolidRead(loads: string -> Option<Json>, block: string, finished: bool)
    requires Solid(block) && Strip(block) != ""
    ensures var d := Drain(if finished then block + "\n\n" else block);
            Frames(loads, d.0) + (if Strip(d.1) != "" then Frames(loads, [d.1]) else []) == Frames(loads, [block])
  {
    assert Strip("") == "" && Frames(loads, []) == [];
    if finished {
      assert block + BLANK + "" == block + "\n\n" && [block] + [] == [block];
      DrainEmpty();
      DrainBlock(block, "");
      hide *;
      assert Frames(loads, [block]) + [] == Frames(loads, [block]);
    } else {
      DrainNoBlank(block);
      hide *;
      assert [] + Frames(loads, [block]) == Frames(loads, [block]);
    }
  }

  /** Printed events and then any block of lines read back, under every cut, as the events' objects and what the
      lines say, whether a blank line follows the block or the stream just ends. */
  lemma SendReceiveThen(codec: Codec, events: seq<Event>, lines: seq<Line>, lead: string, core: string, trail: string,
                        finished: bool, chunks: seq<seq<Byte>>)
    requires forall e | e in events :: Sendable(codec, e)
    requires lines != [] && Proper(lines) && Solid(BlockText(lines)) && '\r' !in BlockText(lines)
    requires Strip(BlockText(lines)) != ""
    requires Join(Given(lines), "\n") == lead + core + trail && Space(lead) && Bare(core) && Space(trail)
    requires Flatten(chunks) ==
             Encode(Sent(codec, events) + if finished then BlockText(lines) + "\n\n" else BlockText(lines))
    ensures StreamFrames(codec.loads, ReadStream(chunks)) ==
            DataFrames(events) + match Says(codec.loads, lines, core) case Some(f) => [f] case None => []
  {
    var block := BlockText(lines);
    var more := if finished then block + "\n\n" else block;
    var text := Sent(codec, events) + more;
    SentFrames(codec, events);
    assert '\r' !in text;
    EncodeRoundTrip(text);
    PlainOnePass(codec.loads, text);
    hide *;
    ChunkInvariance(chunks);
    SentThen(codec, events, more);
    SolidRead(codec.loads, block, finished);
    BlockSays(codec.loads, lines, lead, core, trail);
    OneFrame(codec.loads, block);
    Associative(DataFrames(events), Frames(codec.loads, Drain(more).0),
                if Strip(Drain(more).1) != "" then Frames(codec.loads, [Drain(more).1]) else []);
  }

  lemma PlainOnePass(loads: string -> Option<Json>, text: string)
    requires '\r' !in text
    ensures NoCrCrLf(text)
    ensures StreamFrames(loads, OnePass(text)) ==
            Frames(loads, Drain(text).0) + (if Strip(Drain(text).1) != "" then Frames(loads, [Drain(text).1]) else [])
  {
    assert NoCrCrLf(text) && NoCrLf(text);
    NormalisedFixed(text);
    hide Normalise, Drain, Frames, Strip;
  }

  /** Printed events and the end marker read back, under every cut, as the events' objects and then done. */
  lemma SendReceiveDone(codec: Codec, events: seq<Event>, finished: bool, chunks: seq<seq<Byte>>)
    requires forall e | e in events :: Sendable(codec, e)
    requires Flatten(chunks) == Encode(Sent(codec, events) + if finished then "data: [DONE]\n\n" else "data: [DONE]")
    ensures StreamFrames(codec.loads, ReadStream(chunks)) == DataFrames(events) + [Done]
  {
    DoneLines(codec.loads);
    var lines := [Give(" ", "[DONE]")];
    hide *;
    assert "data: [DONE]" + "\n\n" == "data: [DONE]\n\n";
    SendReceiveThen(codec, events, lines, "", "[DONE]", "", finished, chunks);
  }

  lemma DoneLines(loads: string -> Option<Json>)
    ensures var lines := [Give(" ", "[DONE]")];
            Proper(lines) && BlockText(lines) == "data: [DONE]" && Join(Given(lines), "\n") == "" + "[DONE]" + ""
            && Says(loads, lines, "[DONE]") == Some(Done)
    ensures Solid("data: [DONE]") && '\r' !in "data: [DONE]" && Strip("data: [DONE]") != ""
    ensures Space("") && Bare("[DONE]")
  {
    var line := Give(" ", "[DONE]");
    DoneLine(line);
    DoneSolid();
    hide LineText, ProperLine, Solid;
    Singleton(line);
    assert LineTexts([line]) == [LineText(line)] + LineTexts([line][1..]);
    assert Given([line]) == ["[DONE]"] + Given([line][1..]);
    assert "" + "[DONE]" + "" == "[DONE]";
  }

  lemma DoneLine(line: Line)
    requires line == Give(" ", "[DONE]")
    ensures LineText(line) == "data: [DONE]" && ProperLine(line)
  {
    assert " " + "[DONE]" == " [DONE]" && "data:" + " [DONE]" == "data: [DONE]";
  }

  lemma DoneSolid()
    ensures Solid("data: [DONE]") && '\r' !in "data: [DONE]" && Strip("data: [DONE]") != ""
    ensures Space("") && Bare("[DONE]")
  {
    var block := "data: [DONE]";
    assert block[0] == 'd' && block[11] == ']' && |block| == 12;
    hide Strip, IsSpace;
    BareStrips(block);
  }

  lemma BareStrips(block: string)
    requires |block| == 12 && block[0] == 'd' && block[11] == ']'
    ensures Strip(block) == block
  {
    hide Strip;
    assert "" + block + "" == block && Bare(block);
    StripIs("", block, "");
  }

  /** What is printed, by its lines: the event's name if it has one, its data, and a blank line. */
  lemma PrintedAs(codec: Codec, name: string, data: Json)
    requires '\n' !in name && '\n' !in codec.dumps(data) && codec.dumps(data) != "" && codec.dumps(data)[0] != ' '
    ensures var give := Give(" ", codec.dumps(data));
            EventText(codec, None, data) == EventText(codec, Some(""), data) == BlockText([give]) + "\n\n"
            && ProperLine(give)
            && (name != "" ==>
                  EventText(codec, Some(name), data) == BlockText([Other("event: " + name), give]) + "\n\n"
                  && ProperLine(Other("event: " + name)))
  {
    var give, head := Give(" ", codec.dumps(data)), Other("event: " + name);
    Singleton(give);
    assert [head, give][1..] == [give];
    assert LineText(give) == "data: " + codec.dumps(data);
    assert LineTexts([give]) == [LineText(give)] && LineTexts([head, give]) == [LineText(head)] + [LineText(give)];
    assert ([LineText(head)] + [LineText(give)])[1..] == [LineText(give)];
    assert head.whole[0] == 'e' && head.whole[..5][0] == 'e';
  }
}
