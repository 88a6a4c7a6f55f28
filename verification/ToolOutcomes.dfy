/** What can go wrong in a stream and what cannot be wrong with a response. */
module ToolOutcomes {
  import opened Collections
  import opened Wrappers
  import opened Utf8
  import opened Sorted
  import opened TextBounds
  import opened ToolStream
  import opened ToolFraming
  import opened ToolEvents

  // ---------------------------------------------------------------------
  // What stops a stream
  // ---------------------------------------------------------------------

  /** The parser after printed events. */
  ghost predicate After(s: State, es: seq<Event>, encode: Event -> Text) {
    Between(s) && Attribute(NO_CALLS, es) == Some(s.calls) && Advances(INITIAL, es, s, encode)
  }

  lemma ParseAfter(es: seq<Event>, next: Text, rest: Text, encode: Event -> Text, setup: Setup) returns (s: State, seen: Text)
    requires AllPrintable(es, encode, setup) && Attribute(NO_CALLS, es).Some?
    requires LiveBelow(setup, |Print(es, encode)|) && Accepted([], es, setup)
    requires |Print(es, encode)| + |next| <= MAX_RESPONSE_BYTES + 1 && |Print(es, encode)| <= MAX_RESPONSE_BYTES
    ensures After(s, es, encode)
    ensures
      var step := Consume(s, next + seen, setup);
      Parse(Print(es, encode) + next + rest, setup) == if step.Stop? then Failure(step.error) else Finish(step.state, setup)
  {
    seen := SeenAfter(Print(es, encode), next, rest);
    s := AllEvents(INITIAL, es, next + seen, encode, setup);
  }

  /** Behind printed events, a line that is too long, comes too late, passes the bound
      of the response, is not UTF-8 or neither blank, comment nor data decides the
      result, whatever follows. */
  lemma BadLineStops(es: seq<Event>, line: Text, rest: Text, encode: Event -> Text, setup: Setup)
    requires AllPrintable(es, encode, setup) && Attribute(NO_CALLS, es).Some?
    requires LiveBelow(setup, |Print(es, encode)|) && Accepted([], es, setup)
    requires |Print(es, encode)| + |line + [NEWLINE]| <= 0x40_0000 + 1 && |Print(es, encode)| <= 0x40_0000
    requires NEWLINE !in line && RETURN !in line
    ensures
      var n := |Print(es, encode)|;
      var result := Parse(Print(es, encode) + (line + [NEWLINE]) + rest, setup);
      && (|line| >= 0x4_0000 ==> result == Failure(ReadFailed))
      && (|line| < 0x4_0000 && !setup.live(n) ==> result == Failure(Cancelled))
      && (|line| < 0x4_0000 && setup.live(n) && n + |line| == 0x40_0000 ==> result == Failure(TooLarge))
      && (|line| < 0x4_0000 && setup.live(n) && n + |line| < 0x40_0000 && (!Valid(line) || Unknown(line)) ==>
            result == Failure(BadStream))
  {
    var s, seen := ParseAfter(es, line + [NEWLINE], rest, encode, setup);
    FromTheStart(s, es, encode);
    LineIsRefused(s, line, seen, setup);
  }

  /** Why a document is refused after the given events, or the calls it leads to. */
  ghost predicate Refuses(es: seq<Event>, calls: Calls, d: Text, setup: Setup, error: Error)
    requires Consistent(calls)
  {
    match setup.decode(d)
    case None => error == BadStream
    case Some(e) =>
      if e.content != [] && !Valid(e.content) then error == BadStream
      else if e.content != [] && !setup.accepts(Chunks(es + [e])) then error == CallbackFailed
      else StepDeltas(calls, {}, e.deltas, 0).1 == Some(error)
  }

  lemma {:induction false} ChunksAppend(es: seq<Event>, e: Event)
    ensures Chunks(es + [e]) == Chunks(es) + Chunks([e])
    decreases |es|
  {
    if es == [] {
      assert [] + [e] == [e];
    } else {
      assert (es + [e])[1..] == es[1..] + [e];
      ChunksAppend(es[1..], e);
      ChunksStep(es);
      ChunksStep(es + [e]);
      Regroup(Chunks([es[0]]), Chunks(es[1..]), Chunks([e]));
    }
  }

  lemma FlushRefused(s: State, es: seq<Event>, d: Text, encode: Event -> Text, setup: Setup, error: Error)
    requires After(s, es, encode) && d != DONE && Refuses(es, s.calls, d, setup, error)
    ensures Flush(Framed(s, d), setup) == Stop(error)
  {
    LinesJoin(d);
    if setup.decode(d).Some? {
      var e := setup.decode(d).value;
      FlushEvent(Framed(s, d), d, e, setup);
      ChunksAppend(es, e);
      assert [e][1..] == [] && [] + Chunks(es) == Chunks(es);
      assert e.content != [] ==> Emitted(Framed(s, d).(data := [], frame := 0), e) == Chunks(es + [e]);
    }
  }

  /** The first frame that cannot be decoded, carries text that is not UTF-8, is not
      taken by the callback or overflows its call decides the result. */
  lemma BadFrameStops(es: seq<Event>, d: Text, rest: Text, encode: Event -> Text, setup: Setup, error: Error)
    requires AllPrintable(es, encode, setup) && Attribute(NO_CALLS, es).Some?
    requires LiveBelow(setup, MAX_RESPONSE_BYTES) && Accepted([], es, setup)
    requires d != DONE && Valid(d) && RETURN !in d && |DATA_SPACE| + |d| < MAX_FRAME_BYTES
    requires |Print(es, encode)| + |PrintFrame(d)| <= MAX_RESPONSE_BYTES
    requires Refuses(es, Attribute(NO_CALLS, es).value, d, setup, error)
    ensures Parse(Print(es, encode) + PrintFrame(d) + rest, setup) == Failure(error)
  {
    var s, seen := ParseAfter(es, PrintFrame(d), rest, encode, setup);
    FromTheStart(s, es, encode);
    FeedFrame(s, d, seen, setup);
    FlushRefused(s, es, d, encode, setup, error);
  }

  /** A fragment is refused exactly if its call's arguments grow past the bound. */
  lemma OverflowIff(c: Calls, used: set<int>, d: Delta, position: nat)
    requires Consistent(c)
    ensures
      var (after, _, error) := StepDelta(c, used, d, position);
      var i := Resolve(c, used, d.index, d.id, position);
      && i in after.entries
      && error == (if |after.entries[i].arguments| > 0x4_0000 then Some(ArgumentsTooLarge) else None)
      && (|after.entries[i].arguments| == |d.arguments| + if i in c.entries then |c.entries[i].arguments| else 0)
  {
    StepDeltaConsistent(c, used, d, position);
  }

  lemma FlushIgnoresTotal(s: State, total: nat, setup: Setup)
    requires Reachable(s)
    ensures
      var step, other := Flush(s, setup), Flush(s.(total := total), setup);
      if step.Go? then other == Go(step.state.(total := total)) else other == step
  {
  }

  lemma FinishAfterFlush(s: State, total: nat, setup: Setup)
    requires Reachable(s) && !s.done
    ensures
      var step := Flush(s.(total := total), setup);
      Finish(s, setup) == if step.Stop? then Failure(step.error) else Finish(step.state, setup)
  {
    FlushIgnoresTotal(s, total, setup);
    var step := Flush(s.(total := total), setup);
    if step.Go? {
      assert step.state.data == [];
    }
  }

  /** At the end of the stream the last frame needs no blank line behind it. */
  lemma LastFrameNeedsNoBlankLine(es: seq<Event>, d: Text, encode: Event -> Text, setup: Setup)
    requires AllPrintable(es, encode, setup) && Attribute(NO_CALLS, es).Some?
    requires LiveBelow(setup, MAX_RESPONSE_BYTES) && Accepted([], es, setup)
    requires Valid(d) && RETURN !in d && |DATA_SPACE| + |d| < MAX_FRAME_BYTES
    requires |Print(es, encode)| + |PrintFrame(d)| <= MAX_RESPONSE_BYTES
    ensures Parse(Print(es, encode) + PrintData(d), setup) == Parse(Print(es, encode) + PrintFrame(d), setup)
  {
    var s, seen := ParseEnd(es, PrintData(d), encode, setup);
    var s', seen' := ParseEnd(es, PrintFrame(d), encode, setup);
    FromTheStart(s, es, encode);
    LoadedIsFramed(s, d);
    FeedDocument(s, d, [], setup);
    FeedFrame(s, d, [], setup);
    FinishAfterFlush(Loaded(s, d), Framed(s, d).total, setup);
    AtTheEnd(s, s', es, encode);
  }

  lemma AtTheEnd(s: State, s': State, es: seq<Event>, encode: Event -> Text)
    requires After(s, es, encode) && After(s', es, encode)
    ensures s == s'
  {
  }

  lemma ParseEnd(es: seq<Event>, next: Text, encode: Event -> Text, setup: Setup) returns (s: State, text: Text)
    requires AllPrintable(es, encode, setup) && Attribute(NO_CALLS, es).Some?
    requires LiveBelow(setup, |Print(es, encode)|) && Accepted([], es, setup)
    requires |Print(es, encode)| + |next| <= MAX_RESPONSE_BYTES
    ensures After(s, es, encode) && text == next + []
    ensures
      var step := Consume(s, text, setup);
      Parse(Print(es, encode) + next, setup) == if step.Stop? then Failure(step.error) else Finish(step.state, setup)
  {
    text := next + [];
    s := AllEvents(INITIAL, es, text, encode, setup);
    assert Readable(Print(es, encode) + next) == Print(es, encode) + text;
  }

  /** Two data lines that together pass the bound of a frame. */
  lemma LongFrameStops(es: seq<Event>, a: Text, b: Text, rest: Text, encode: Event -> Text, setup: Setup)
    requires AllPrintable(es, encode, setup) && Attribute(NO_CALLS, es).Some?
    requires LiveBelow(setup, MAX_RESPONSE_BYTES) && Accepted([], es, setup)
    requires Valid(a) && Valid(b) && NEWLINE !in a + b && RETURN !in a + b
    requires |a| + 7 < 0x4_0000 && |b| + 7 < 0x4_0000 && |a| + 1 + |b| > 0x4_0000
    requires |Print(es, encode)| + |a| + |b| + 14 <= MAX_RESPONSE_BYTES
    ensures Parse(Print(es, encode) + (DATA_SPACE + a + [NEWLINE] + (DATA_SPACE + b + [NEWLINE])) + rest, setup) == Failure(BadStream)
  {
    var lines := DATA_SPACE + a + [NEWLINE] + (DATA_SPACE + b + [NEWLINE]);
    var s, seen := ParseAfter(es, lines, rest, encode, setup);
    FromTheStart(s, es, encode);
    assert a <= a + b && b == (a + b)[|a|..];
    Regroup(DATA_SPACE + a + [NEWLINE], DATA_SPACE + b + [NEWLINE], seen);
    FeedDataLine(s, a, DATA_SPACE + b + [NEWLINE] + seen, setup);
    FrameIsFull(Fed(s, a), b, seen, setup);
  }

  lemma FrameIsFull(s: State, line: Text, rest: Text, setup: Setup)
    requires Reachable(s) && setup.live(s.total) && Valid(line) && NEWLINE !in line && RETURN !in line && s.data != []
    requires |DATA_SPACE| + |line| < MAX_FRAME_BYTES && s.total + |DATA_SPACE| + |line| + 1 <= MAX_RESPONSE_BYTES
    requires s.frame + 1 + |line| > MAX_FRAME_BYTES
    ensures Consume(s, DATA_SPACE + line + [NEWLINE] + rest, setup) == Stop(BadStream)
  {
    DataLineReads(line);
    ConsumeLine(s, DATA_SPACE + line, [], rest, setup);
    assert DATA_SPACE + line + [] == DATA_SPACE + line;
  }

  // ---------------------------------------------------------------------
  // What a response can be
  // ---------------------------------------------------------------------

  ghost predicate Complete(call: Call, setup: Setup) {
    call.id != [] && call.name != [] && setup.validJSON(call.arguments)
  }

  /** The first incomplete call decides which error it is; else all are returned. */
  lemma {:induction false} CollectIff(entries: map<int, Call>, order: seq<int>, content: Text, calls: seq<Call>, setup: Setup)
    requires forall j | 0 <= j < |order| :: order[j] in entries
    ensures
      var r := Collect(entries, order, content, calls, setup);
      if r.Response? then
        && r.content == content && r.calls == calls + seq(|order|, j requires 0 <= j < |order| => entries[order[j]])
        && (forall j | 0 <= j < |order| :: Complete(entries[order[j]], setup))
      else exists j: nat | j < |order| ::
        && (forall i | 0 <= i < j :: Complete(entries[order[i]], setup))
        && Lacks(entries[order[j]], setup, r.error)
    decreases |order|
  {
    if order == [] {
      assert calls + [] == calls;
    } else {
      var call, rest := entries[order[0]], order[1..];
      if Check(call, setup).Some? {
        assert Lacks(entries[order[0]], setup, Check(call, setup).value);
      } else {
        CollectIff(entries, rest, content, calls + [call], setup);
        var r := Collect(entries, rest, content, calls + [call], setup);
        if r.Response? {
          Regroup(calls, [call], seq(|rest|, j requires 0 <= j < |rest| => entries[rest[j]]));
          assert [call] + seq(|rest|, j requires 0 <= j < |rest| => entries[rest[j]]) ==
                 seq(|order|, j requires 0 <= j < |order| => entries[order[j]]);
        } else {
          var j: nat :| j < |rest| && (forall i | 0 <= i < j :: Complete(entries[rest[i]], setup)) && Lacks(entries[rest[j]], setup, r.error);
          assert Lacks(entries[order[j + 1]], setup, r.error);
        }
      }
    }
  }

  predicate Lacks(call: Call, setup: Setup, error: Error) {
    || (call.id == [] && error == MissingID)
    || (call.id != [] && call.name == [] && error == MissingName)
    || (call.id != [] && call.name != [] && !setup.validJSON(call.arguments) && error == BadArguments)
  }

  /** No call's arguments are past the bound, and the content is UTF-8. */
  ghost predicate Within(s: State) {
    Valid(s.content) && ArgumentsWithin(s.calls)
  }

  ghost predicate ArgumentsWithin(c: Calls) {
    forall i | i in c.entries :: |c.entries[i].arguments| <= 0x4_0000
  }

  lemma {:induction false} FragmentsStayWithin(c: Calls, used: set<int>, ds: seq<Delta>, position: nat)
    requires Consistent(c) && ArgumentsWithin(c) && StepDeltas(c, used, ds, position).1.None?
    ensures ArgumentsWithin(StepDeltas(c, used, ds, position).0)
    decreases |ds|
  {
    if ds != [] {
      OverflowIff(c, used, ds[0], position);
      var (next, used', _) := StepDelta(c, used, ds[0], position);
      StepDeltaConsistent(c, used, ds[0], position);
      FragmentsStayWithin(next, used', ds[1..], position + 1);
    }
  }

  lemma EventStaysWithin(s: State, e: Event, setup: Setup)
    requires Reachable(s) && Within(s) && StepEvent(s, e, setup).Go?
    ensures Within(StepEvent(s, e, setup).state)
  {
    FragmentsStayWithin(s.calls, {}, e.deltas, 0);
    if e.content != [] {
      ValidConcat(s.content, e.content);
    } else {
      assert s.content + [] == s.content;
    }
  }

  lemma FlushStaysWithin(s: State, setup: Setup)
    requires Reachable(s) && Within(s) && Flush(s, setup).Go?
    ensures Within(Flush(s, setup).state)
  {
    if s.data != [] && Join(s.data) != DONE {
      EventStaysWithin(s.(data := [], frame := 0), setup.decode(Join(s.data)).value, setup);
    }
  }

  lemma LineStaysWithin(s: State, line: Text, setup: Setup)
    requires Reachable(s) && Within(s) && StepLine(s, line, setup).Go?
    ensures Within(StepLine(s, line, setup).state)
  {
    if line == [] {
      FlushStaysWithin(s.(total := s.total + |line| + 1), setup);
    }
  }

  lemma {:induction false} TextStaysWithin(s: State, text: Text, setup: Setup)
    requires Reachable(s) && Within(s) && Consume(s, text, setup).Go?
    ensures Within(Consume(s, text, setup).state)
    decreases |text|
  {
    if text != [] {
      var line := DropReturn(text[..LineEnd(text)]);
      LineStaysWithin(s, line, setup);
      var next := StepLine(s, line, setup).state;
      if !next.done {
        TextStaysWithin(next, AfterLine(text), setup);
      }
    }
  }

  lemma FinishStaysWithin(s: State, setup: Setup) returns (c: Calls)
    requires Reachable(s) && Within(s) && Finish(s, setup).Response?
    ensures Consistent(c) && ArgumentsWithin(c) && Valid(Finish(s, setup).content)
    ensures forall j | 0 <= j < |Ascending(c.entries.Keys)| :: Ascending(c.entries.Keys)[j] in c.entries
    ensures Finish(s, setup) == Collect(c.entries, Ascending(c.entries.Keys), Finish(s, setup).content, [], setup)
  {
    var step := if s.done then Go(s) else Flush(s, setup);
    if !s.done {
      FlushStaysWithin(s, setup);
    }
    c := step.state.calls;
    AscendingMembers(c.entries.Keys);
    CollectIff(c.entries, Ascending(c.entries.Keys), step.state.content, [], setup);
  }

  ghost predicate WellFormed(r: Result, setup: Setup)
    requires r.Response?
  {
    && Valid(r.content)
    && (forall k | 0 <= k < |r.calls| :: Complete(r.calls[k], setup) && |r.calls[k].arguments| <= 0x4_0000)
    && forall j, k | 0 <= j < k < |r.calls| :: r.calls[j].id != r.calls[k].id
  }

  /** Whatever comes in, a response has UTF-8 content, and its calls have distinct IDs,
      names, and valid JSON arguments within the bound. */
  lemma ResponseIsWellFormed(input: Text, setup: Setup)
    ensures Parse(input, setup).Response? ==> WellFormed(Parse(input, setup), setup)
  {
    var r := Parse(input, setup);
    if r.Response? {
      TextStaysWithin(INITIAL, Readable(input), setup);
      var s := Consume(INITIAL, Readable(input), setup).state;
      var c := FinishStaysWithin(s, setup);
      CollectedIsWellFormed(c, Ascending(c.entries.Keys), r, setup);
    }
  }

  lemma CollectedIsWellFormed(c: Calls, order: seq<int>, r: Result, setup: Setup)
    requires Consistent(c) && ArgumentsWithin(c) && order == Ascending(c.entries.Keys)
    requires forall j | 0 <= j < |order| :: order[j] in c.entries
    requires r.Response? && r == Collect(c.entries, order, r.content, [], setup) && Valid(r.content)
    ensures WellFormed(r, setup)
  {
    CollectIff(c.entries, order, r.content, [], setup);
    assert r.calls == seq(|order|, j requires 0 <= j < |order| => c.entries[order[j]]);
    forall j, k | 0 <= j < k < |r.calls| ensures r.calls[j].id != r.calls[k].id {
      AscendingDiffers(c.entries.Keys, j, k);
      DifferentIDs(c, order[j], order[k], setup);
    }
  }

  lemma DifferentIDs(c: Calls, i: int, j: int, setup: Setup)
    requires Consistent(c) && i in c.entries && j in c.entries && i != j && Complete(c.entries[i], setup)
    ensures c.entries[i].id != c.entries[j].id
  {
  }

  lemma {:induction false} AscendingDiffers(s: set<int>, j: nat, k: nat)
    requires j < k < |Ascending(s)|
    ensures Ascending(s)[j] != Ascending(s)[k]
    decreases s
  {
    var rest := s - {Min(s)};
    AscendingMembers(rest);
    if j > 0 {
      AscendingDiffers(rest, j - 1, k - 1);
    }
  }
}
