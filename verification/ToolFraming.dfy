/** Printing documents as frames of an event stream, and what feeding the printed
    lines does to the parser. */
module ToolFraming {
  import opened Collections
  import opened Wrappers
  import opened Utf8
  import opened ToolStream

  const DATA_SPACE: Text := DATA + [SPACE]

  /** One document as data lines, one for each of its own lines. */
  function PrintData(d: Text): Text
    decreases |d|
  {
    var n := LineEnd(d);
    if n == |d| then DATA_SPACE + d + [NEWLINE]
    else DATA_SPACE + d[..n] + [NEWLINE] + PrintData(d[n + 1..])
  }

  function PrintFrame(d: Text): Text {
    PrintData(d) + [NEWLINE]
  }

  function Print(es: seq<Event>, encode: Event -> Text): Text {
    if es == [] then [] else PrintFrame(encode(es[0])) + Print(es[1..], encode)
  }

  /** The lines of a text. */
  function Lines(d: Text): (lines: seq<Text>)
    ensures lines != []
    decreases |d|
  {
    var n := LineEnd(d);
    if n == |d| then [d] else [d[..n]] + Lines(d[n + 1..])
  }

  lemma {:induction false} JoinAppends(lines: seq<Text>, more: seq<Text>)
    requires lines != [] && more != []
    ensures Join(lines + more) == Join(lines) + [NEWLINE] + Join(more)
    decreases |more|
  {
    var all := lines + more;
    if |more| == 1 {
      assert all[..|all| - 1] == lines;
    } else {
      var fewer, last := more[..|more| - 1], more[|more| - 1];
      JoinAppends(lines, fewer);
      assert all[..|all| - 1] == lines + fewer;
      assert Join(lines) + [NEWLINE] + (Join(fewer) + [NEWLINE] + last) == Join(lines) + [NEWLINE] + Join(fewer) + [NEWLINE] + last;
    }
  }

  /** Splitting a document into lines and joining them gives it back. */
  lemma {:induction false} LinesJoin(d: Text)
    ensures Join(Lines(d)) == d
    decreases |d|
  {
    var n := LineEnd(d);
    if n == |d| {
      assert Lines(d) == [d];
    } else {
      var first, rest := d[..n], d[n + 1..];
      LinesJoin(rest);
      JoinAppends([first], Lines(rest));
      SplitAtNewline(d, n);
    }
  }

  lemma SplitAtNewline(d: Text, n: nat)
    requires n < |d| && d[n] == NEWLINE
    ensures d == d[..n] + [NEWLINE] + d[n + 1..]
  {
  }

  // ---------------------------------------------------------------------
  // Feeding printed lines
  // ---------------------------------------------------------------------

  lemma {:induction false} LineEndOf(line: Text, rest: Text)
    requires NEWLINE !in line
    ensures LineEnd(line + [NEWLINE] + rest) == |line|
    decreases |line|
  {
    var text := line + [NEWLINE] + rest;
    if line != [] {
      assert line[0] in line && text[0] == line[0];
      assert text[1..] == line[1..] + [NEWLINE] + rest;
      LineEndOf(line[1..], rest);
    }
  }

  /** One line of the input is one step of the parser. A carriage return in front of
      the newline is not part of the line. */
  lemma ConsumeLine(s: State, line: Text, cr: Text, rest: Text, setup: Setup)
    requires Reachable(s) && setup.live(s.total) && NEWLINE !in line && |line + cr| < MAX_FRAME_BYTES
    requires if cr == [] then line == [] || line[|line| - 1] != RETURN else cr == [RETURN]
    ensures Consume(s, line + cr + [NEWLINE] + rest, setup) == Proceed(StepLine(s, line, setup), rest, setup)
  {
    var text := line + cr + [NEWLINE] + rest;
    LineEndOf(line + cr, rest);
    assert text[..|line + cr|] == line + cr;
    DropReturnOf(line, cr);
    assert text[|line + cr| + 1..] == rest;
  }

  lemma DropReturnOf(line: Text, cr: Text)
    requires if cr == [] then line == [] || line[|line| - 1] != RETURN else cr == [RETURN]
    ensures DropReturn(line + cr) == line
  {
    if cr == [] {
      assert line + cr == line;
    } else {
      assert (line + cr)[..|line|] == line;
    }
  }

  /** How reading goes on after one step. */
  ghost function Proceed(step: Step, rest: Text, setup: Setup): Step
    requires step.Go? ==> Reachable(step.state)
  {
    if step.Stop? || step.state.done then step else Consume(step.state, rest, setup)
  }

  lemma {:induction false} AsciiIsValid(s: Text)
    requires forall i | 0 <= i < |s| :: s[i] < 0x80
    ensures Valid(s)
    decreases |s|
  {
    if s != [] {
      assert RuneLen(s) == 1;
      AsciiIsValid(s[1..]);
    }
  }

  lemma AfterNewlineIsValid(d: Text)
    requires Valid(d) && d != [] && d[0] == NEWLINE
    ensures Valid(d[1..])
  {
    assert RuneLen(d) == 1;
  }

  lemma RestIsValid(d: Text, n: nat)
    requires Valid(d) && n < |d| && Valid(d[..n]) && d[n] == NEWLINE
    ensures Valid(d[n + 1..])
  {
    var front, tail := d[..n], d[n..];
    assert d == front + tail;
    ValidConcat(front, tail);
    AfterNewlineIsValid(tail);
    assert tail[1..] == d[n + 1..];
  }

  lemma FirstLineValid(d: Text)
    requires Valid(d)
    ensures Valid(d[..LineEnd(d)])
    ensures LineEnd(d) < |d| ==> Valid(d[LineEnd(d) + 1..])
  {
    var n := LineEnd(d);
    CutIsValidIff(d, n);
    if n < |d| {
      RestIsValid(d, n);
    }
  }

  /** What one data line does to the parser. */
  function Fed(s: State, line: Text): State {
    s.(data := s.data + [line], total := s.total + |DATA_SPACE| + |line| + 1,
       frame := s.frame + |line| + if s.data == [] then 0 else 1)
  }

  /** A printed data line is read back as its content. */
  lemma DataLineReads(line: Text)
    requires Valid(line)
    ensures Valid(DATA_SPACE + line) && StartsWith(DATA_SPACE + line, DATA)
    ensures DATA_SPACE + line != [] && (DATA_SPACE + line)[0] != COLON
    ensures StripPrefix(StripPrefix(DATA_SPACE + line, DATA), [SPACE]) == line
  {
    var full := DATA_SPACE + line;
    AsciiIsValid(DATA_SPACE);
    ValidConcat(DATA_SPACE, line);
    assert full[..|DATA|] == DATA && full[0] == DATA[0];
    assert full[|DATA|..] == [SPACE] + line;
    assert ([SPACE] + line)[..1] == [SPACE] && ([SPACE] + line)[1..] == line;
  }

  lemma DataLineStep(s: State, line: Text, setup: Setup)
    requires Reachable(s) && Valid(line)
    requires Fed(s, line).total <= MAX_RESPONSE_BYTES && Fed(s, line).frame <= MAX_FRAME_BYTES
    ensures StepLine(s, DATA_SPACE + line, setup) == Go(Fed(s, line))
  {
    DataLineReads(line);
    assert |DATA_SPACE + line| == |DATA_SPACE| + |line|;
  }

  lemma FeedDataLine(s: State, line: Text, rest: Text, setup: Setup)
    requires setup.live(s.total) && Reachable(s) && !s.done && Valid(line) && NEWLINE !in line && RETURN !in line
    requires |DATA_SPACE| + |line| < MAX_FRAME_BYTES
    requires Fed(s, line).total <= MAX_RESPONSE_BYTES && Fed(s, line).frame <= MAX_FRAME_BYTES
    ensures Consume(s, DATA_SPACE + line + [NEWLINE] + rest, setup) == Consume(Fed(s, line), rest, setup)
  {
    DataLineStep(s, line, setup);
    ConsumeLine(s, DATA_SPACE + line, [], rest, setup);
    assert DATA_SPACE + line + [] == DATA_SPACE + line;
  }

  /** The state after the data lines of one document. */
  function Loaded(s: State, d: Text): State {
    s.(data := s.data + Lines(d), total := s.total + |PrintData(d)|,
       frame := s.frame + |d| + if s.data == [] then 0 else 1)
  }

  lemma LastLine(d: Text)
    requires LineEnd(d) == |d|
    ensures |PrintData(d)| == |DATA_SPACE| + |d| + 1 && Lines(d) == [d]
  {
  }

  lemma FirstLine(d: Text)
    requires LineEnd(d) < |d|
    ensures |PrintData(d)| == |DATA_SPACE| + LineEnd(d) + 1 + |PrintData(d[LineEnd(d) + 1..])|
    ensures Lines(d) == [d[..LineEnd(d)]] + Lines(d[LineEnd(d) + 1..])
  {
  }

  lemma LoadedLastLine(s: State, d: Text)
    requires LineEnd(d) == |d|
    ensures Loaded(s, d) == Fed(s, d)
  {
    LastLine(d);
  }

  lemma LoadedFirstLine(s: State, d: Text, first: Text, tail: Text)
    requires LineEnd(d) < |d| && first == d[..LineEnd(d)] && tail == d[LineEnd(d) + 1..]
    ensures Loaded(s, d) == Loaded(Fed(s, first), tail)
  {
    FirstLine(d);
    Regroup(s.data, [first], Lines(tail));
    assert s.data + [first] != [];
    assert |d| == |first| + 1 + |tail|;
  }

  lemma {:induction false} FeedDocument(s: State, d: Text, rest: Text, setup: Setup)
    requires LiveBelow(setup, Loaded(s, d).total) && Reachable(s) && !s.done && Valid(d) && RETURN !in d && |DATA_SPACE| + |d| < MAX_FRAME_BYTES
    requires Loaded(s, d).total <= MAX_RESPONSE_BYTES && Loaded(s, d).frame <= MAX_FRAME_BYTES
    ensures Consume(s, PrintData(d) + rest, setup) == Consume(Loaded(s, d), rest, setup)
    decreases |d|
  {
    var n := LineEnd(d);
    FirstLineValid(d);
    if n == |d| {
      LoadedLastLine(s, d);
      assert d[..n] == d;
      FeedDataLine(s, d, rest, setup);
    } else {
      var first, tail := d[..n], d[n + 1..];
      LoadedFirstLine(s, d, first, tail);
      FeedFirstLine(s, d, first, tail, rest, setup);
      FeedDocument(Fed(s, first), tail, rest, setup);
    }
  }

  lemma FeedFirstLine(s: State, d: Text, first: Text, tail: Text, rest: Text, setup: Setup)
    requires LineEnd(d) < |d| && first == d[..LineEnd(d)] && tail == d[LineEnd(d) + 1..]
    requires setup.live(s.total) && Reachable(s) && !s.done && Valid(first) && RETURN !in d && |DATA_SPACE| + |d| < MAX_FRAME_BYTES
    requires Fed(s, first).total <= MAX_RESPONSE_BYTES && Fed(s, first).frame <= MAX_FRAME_BYTES
    ensures Consume(s, PrintData(d) + rest, setup) == Consume(Fed(s, first), PrintData(tail) + rest, setup)
  {
    PrintedFirst(d, first, tail, rest);
    FeedDataLine(s, first, PrintData(tail) + rest, setup);
  }

  lemma PrintedFirst(d: Text, first: Text, tail: Text, rest: Text)
    requires LineEnd(d) < |d| && first == d[..LineEnd(d)] && tail == d[LineEnd(d) + 1..]
    ensures PrintData(d) + rest == DATA_SPACE + first + [NEWLINE] + (PrintData(tail) + rest)
  {
    Regroup(DATA_SPACE + first + [NEWLINE], PrintData(tail), rest);
  }

  /** A blank line ends the frame. */
  lemma FeedBlank(s: State, rest: Text, setup: Setup)
    requires setup.live(s.total) && Reachable(s) && s.total + 1 <= MAX_RESPONSE_BYTES
    ensures Consume(s, [NEWLINE] + rest, setup) == Proceed(Flush(s.(total := s.total + 1), setup), rest, setup)
  {
    BlankLine(rest);
    BlankStep(s, setup);
  }

  lemma BlankLine(rest: Text)
    ensures LineEnd([NEWLINE] + rest) == 0 && ([NEWLINE] + rest)[..0] == [] && DropReturn([]) == []
    ensures AfterLine([NEWLINE] + rest) == rest
  {
  }

  lemma BlankStep(s: State, setup: Setup)
    requires Reachable(s) && s.total + 1 <= MAX_RESPONSE_BYTES
    ensures StepLine(s, [], setup) == Flush(s.(total := s.total + 1), setup)
  {
  }

  /** The parser with one whole document gathered and counted. */
  function Framed(s: State, d: Text): State {
    s.(data := Lines(d), frame := |d|, total := s.total + |PrintFrame(d)|)
  }

  lemma LoadedIsFramed(s: State, d: Text)
    requires s.data == [] && s.frame == 0
    ensures Loaded(s, d).(total := Loaded(s, d).total + 1) == Framed(s, d)
    ensures Loaded(s, d).total + 1 == Framed(s, d).total && Loaded(s, d).frame == |d| && Loaded(s, d).calls == s.calls
  {
    assert [] + Lines(d) == Lines(d);
  }

  lemma FeedLoaded(s: State, loaded: State, framed: State, printed: Text, rest: Text, setup: Setup)
    requires setup.live(loaded.total) && Reachable(s) && Reachable(loaded) && loaded.total + 1 <= MAX_RESPONSE_BYTES
    requires framed == loaded.(total := loaded.total + 1)
    requires Consume(s, printed + ([NEWLINE] + rest), setup) == Consume(loaded, [NEWLINE] + rest, setup)
    ensures Consume(s, printed + [NEWLINE] + rest, setup) == Proceed(Flush(framed, setup), rest, setup)
  {
    Regroup(printed, [NEWLINE], rest);
    FeedBlank(loaded, rest, setup);
  }

  /** A printed document, blank line included, has the effect of flushing it. */
  lemma FeedFrame(s: State, d: Text, rest: Text, setup: Setup)
    requires LiveBelow(setup, Framed(s, d).total) && Reachable(s) && !s.done && s.data == [] && s.frame == 0 && Valid(d) && RETURN !in d
    requires |DATA_SPACE| + |d| < MAX_FRAME_BYTES && Framed(s, d).total <= MAX_RESPONSE_BYTES
    ensures Consume(s, PrintFrame(d) + rest, setup) == Proceed(Flush(Framed(s, d), setup), rest, setup)
  {
    LoadedIsFramed(s, d);
    FeedDocument(s, d, [NEWLINE] + rest, setup);
    FeedLoaded(s, Loaded(s, d), Framed(s, d), PrintData(d), rest, setup);
  }

  lemma MarkerIsPrintable()
    ensures Valid(DONE) && RETURN !in DONE && |DATA_SPACE| + |DONE| < MAX_FRAME_BYTES
  {
    assert |DONE| == 6 && |DATA_SPACE| == 6;
    assert forall i | 0 <= i < 6 :: 65 <= DONE[i] < 0x80;
    AsciiIsValid(DONE);
  }

  lemma FlushMarker(s: State, setup: Setup)
    requires Reachable(s) && s.data == Lines(DONE)
    ensures Flush(s, setup) == Go(s.(data := [], frame := 0, done := true))
  {
    LinesJoin(DONE);
  }

  lemma FlushEvent(s: State, d: Text, e: Event, setup: Setup)
    requires Reachable(s) && s.data == Lines(d) && d != DONE && setup.decode(d) == Some(e)
    ensures Flush(s, setup) == StepEvent(s.(data := [], frame := 0), e, setup)
  {
    LinesJoin(d);
  }

  // ---------------------------------------------------------------------
  // Any line
  // ---------------------------------------------------------------------

  /** "data:" with or without one space behind it, and with or without a carriage
      return at the end, adds the same line to the frame. */
  lemma DataLineIsKept(s: State, text: Text, space: Text, cr: Text, rest: Text, setup: Setup)
    requires Reachable(s) && !s.done && setup.live(s.total) && Valid(text) && NEWLINE !in text
    requires space == [0x20] || (space == [] && (text == [] || text[0] != 0x20))
    requires cr == [0x0D] || (cr == [] && (text == [] || text[|text| - 1] != 0x0D))
    requires 7 + |text| < 0x4_0000 && s.total + 7 + |text| <= 0x40_0000 && s.frame + 1 + |text| <= 0x4_0000
    ensures
      var after := s.(data := s.data + [text],
                      total := s.total + 5 + |space| + |text| + 1,
                      frame := s.frame + |text| + if s.data == [] then 0 else 1);
      Consume(s, [0x64, 0x61, 0x74, 0x61, 0x3A] + space + text + cr + [0x0A] + rest, setup) == Consume(after, rest, setup)
  {
    var after := KeptStep(s, text, space, setup);
    LastOf(DATA + space, text);
    LastOf(DATA, space);
    ConsumeLine(s, DATA + space + text, cr, rest, setup);
  }

  lemma LastOf(front: Text, back: Text)
    requires front != []
    ensures (front + back)[|front + back| - 1] == if back == [] then front[|front| - 1] else back[|back| - 1]
  {
  }

  lemma KeptStep(s: State, text: Text, space: Text, setup: Setup) returns (after: State)
    requires Reachable(s) && Valid(text) && NEWLINE !in text
    requires space == [SPACE] || (space == [] && (text == [] || text[0] != SPACE))
    requires s.total + 7 + |text| <= MAX_RESPONSE_BYTES && s.frame + 1 + |text| <= MAX_FRAME_BYTES
    ensures after == s.(data := s.data + [text], total := s.total + 5 + |space| + |text| + 1,
                        frame := s.frame + |text| + if s.data == [] then 0 else 1)
    ensures NEWLINE !in DATA + space + text && StepLine(s, DATA + space + text, setup) == Go(after)
  {
    PrefixesGo(text, space);
    after := StepLine(s, DATA + space + text, setup).state;
  }

  lemma PrefixesGo(text: Text, space: Text)
    requires space == [SPACE] || (space == [] && (text == [] || text[0] != SPACE))
    requires Valid(text) && NEWLINE !in text
    ensures
      var line := DATA + space + text;
      Valid(line) && NEWLINE !in line && line[0] != COLON && StartsWith(line, DATA)
      && StripPrefix(StripPrefix(line, DATA), [SPACE]) == text
  {
    AsciiInFront(DATA + space, text);
    PrefixGoes(DATA, space + text);
    Regroup(DATA, space, text);
    SpaceGoes(text, space);
  }

  lemma AsciiInFront(front: Text, text: Text)
    requires Valid(text) && NEWLINE !in text && forall i | 0 <= i < |front| :: NEWLINE != front[i] < 0x80
    ensures Valid(front + text) && NEWLINE !in front + text
  {
    AsciiIsValid(front);
    ValidConcat(front, text);
  }

  lemma SpaceGoes(text: Text, space: Text)
    requires space == [SPACE] || (space == [] && (text == [] || text[0] != SPACE))
    ensures StripPrefix(space + text, [SPACE]) == text
  {
    if space == [] {
      assert space + text == text;
    } else {
      PrefixGoes([SPACE], text);
    }
  }

  lemma PrefixGoes(prefix: Text, text: Text)
    ensures StartsWith(prefix + text, prefix) && StripPrefix(prefix + text, prefix) == text
  {
    assert (prefix + text)[..|prefix|] == prefix && (prefix + text)[|prefix|..] == text;
  }

  /** A line that begins with a colon is skipped. */
  lemma CommentIsSkipped(s: State, line: Text, cr: Text, rest: Text, total: nat, setup: Setup)
    requires Reachable(s) && !s.done && setup.live(s.total) && NEWLINE !in line && |line + cr| < 0x4_0000
    requires if cr == [] then line == [] || line[|line| - 1] != 0x0D else cr == [0x0D]
    requires line != [] && line[0] == 0x3A && Valid(line) && total == s.total + |line| + 1 <= 0x40_0000
    ensures Consume(s, line + cr + [NEWLINE] + rest, setup) == Consume(s.(total := total), rest, setup)
  {
    ColonStep(s, line, total, setup);
    ConsumeLine(s, line, cr, rest, setup);
  }

  lemma ColonStep(s: State, line: Text, total: nat, setup: Setup)
    requires Reachable(s) && line != [] && line[0] == COLON && Valid(line)
    requires total == s.total + |line| + 1 <= MAX_RESPONSE_BYTES
    ensures StepLine(s, line, setup) == Go(s.(total := total))
  {
  }

  /** Neither blank, comment nor data. */
  predicate Unknown(line: Text) {
    line != [] && line[0] != 0x3A && !(|line| >= 5 && line[..5] == [0x64, 0x61, 0x74, 0x61, 0x3A])
  }

  /** The lines at which reading stops: too long for the scanner, read after the
      context has ended, past the bound of the response, not UTF-8, or unknown. */
  lemma LineIsRefused(s: State, line: Text, rest: Text, setup: Setup)
    requires Reachable(s) && !s.done && NEWLINE !in line && RETURN !in line
    ensures
      var step := Consume(s, line + [NEWLINE] + rest, setup);
      && (|line| >= 0x4_0000 ==> step == Stop(ReadFailed))
      && (|line| < 0x4_0000 && !setup.live(s.total) ==> step == Stop(Cancelled))
      && (|line| < 0x4_0000 && setup.live(s.total) && s.total + |line| + 1 > 0x40_0000 ==> step == Stop(TooLarge))
      && (|line| < 0x4_0000 && setup.live(s.total) && s.total + |line| + 1 <= 0x40_0000 && (!Valid(line) || Unknown(line)) ==>
            step == Stop(BadStream))
  {
    LineEndOf(line, rest);
    if |line| < MAX_FRAME_BYTES && setup.live(s.total) {
      assert line + [] == line;
      ConsumeLine(s, line, [], rest, setup);
    }
  }
}
