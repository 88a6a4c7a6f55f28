/** Printed events read back one by one: what a stream amounts to, given what its
    fragments amount to. */
module ToolEvents {
  import opened Collections
  import opened Wrappers
  import opened Utf8
  import opened Sorted
  import opened TextBounds
  import opened ToolStream
  import opened ToolFraming

  const NO_CALLS := Calls(map[], [])

  function AllDeltas(es: seq<Event>): seq<Delta> {
    if es == [] then [] else es[0].deltas + AllDeltas(es[1..])
  }

  function AllContent(es: seq<Event>): Text {
    if es == [] then [] else es[0].content + AllContent(es[1..])
  }

  /** What the callback receives: each nonempty chunk within its bound. */
  function Chunks(es: seq<Event>): seq<Text> {
    if es == [] then []
    else (if es[0].content == [] then [] else [BoundedPrefix(es[0].content, MAX_USER_MESSAGE_BYTES)]) + Chunks(es[1..])
  }

  /** The callback has taken the chunks emitted so far and takes those of all events. */
  ghost predicate Accepted(emitted: seq<Text>, es: seq<Event>, setup: Setup) {
    forall k | 0 <= k < |es| && es[k].content != [] :: setup.accepts(emitted + Chunks(es[..k + 1]))
  }

  /** No cancellation while the events are read, and no error of the callback. */
  ghost predicate Undisturbed(es: seq<Event>, setup: Setup) {
    LiveBelow(setup, MAX_RESPONSE_BYTES) && Accepted([], es, setup)
  }

  lemma AcceptedRest(emitted: seq<Text>, es: seq<Event>, setup: Setup)
    requires es != [] && Accepted(emitted, es, setup)
    ensures es[0].content != [] ==> setup.accepts(emitted + Chunks([es[0]]))
    ensures Accepted(emitted + Chunks([es[0]]), es[1..], setup)
  {
    assert es[..1] == [es[0]];
    forall k | 0 <= k < |es[1..]| && es[1..][k].content != []
      ensures setup.accepts(emitted + Chunks([es[0]]) + Chunks(es[1..][..k + 1]))
    {
      assert es[..k + 2][1..] == es[1..][..k + 1];
      ChunksStep(es[..k + 2]);
      Regroup(emitted, Chunks([es[0]]), Chunks(es[1..][..k + 1]));
      assert es[k + 1].content != [];
    }
  }

  predicate Finishes(es: seq<Event>) {
    exists k | 0 <= k < |es| :: es[k].finish
  }

  /** The event can be printed as a frame and read back. */
  ghost predicate Printable(e: Event, encode: Event -> Text, setup: Setup) {
    && setup.decode(encode(e)) == Some(e)
    && encode(e) != DONE && Valid(encode(e)) && RETURN !in encode(e)
    && |DATA_SPACE| + |encode(e)| < MAX_FRAME_BYTES
    && Valid(e.content)
  }

  ghost predicate AllPrintable(es: seq<Event>, encode: Event -> Text, setup: Setup) {
    forall k | 0 <= k < |es| :: Printable(es[k], encode, setup)
  }

  /** The calls after the fragments of all events, unless one of them is refused. */
  ghost function Attribute(c: Calls, es: seq<Event>): (r: Option<Calls>)
    requires Consistent(c)
    ensures r.Some? ==> Consistent(r.value)
    decreases |es|
  {
    if es == [] then Some(c)
    else
      var (next, error) := StepDeltas(c, {}, es[0].deltas, 0);
      if error.Some? then None else Attribute(next, es[1..])
  }

  /** The parser between two frames. */
  ghost predicate Between(s: State) {
    Reachable(s) && s.data == [] && s.frame == 0 && !s.done
  }

  /** What reading events adds to the rest of the state. */
  ghost predicate Advances(s: State, es: seq<Event>, after: State, encode: Event -> Text) {
    && after.content == s.content + AllContent(es) && after.total == s.total + |Print(es, encode)|
    && after.terminal == (s.terminal || Finishes(es)) && after.emitted == s.emitted + Chunks(es)
  }

  lemma OneEvent(s: State, e: Event, encode: Event -> Text, setup: Setup) returns (after: State)
    requires Between(s) && Printable(e, encode, setup)
    requires e.content != [] ==> setup.accepts(s.emitted + Chunks([e]))
    requires StepDeltas(s.calls, {}, e.deltas, 0).1.None?
    ensures Between(after) && after.calls == StepDeltas(s.calls, {}, e.deltas, 0).0
    ensures Flush(Framed(s, encode(e)), setup) == Go(after)
    ensures after.content == s.content + e.content && after.total == s.total + |PrintFrame(encode(e))|
    ensures after.terminal == (s.terminal || e.finish) && after.emitted == s.emitted + Chunks([e])
  {
    var framed := Framed(s, encode(e));
    assert [e][1..] == [];
    FlushEvent(framed, encode(e), e, setup);
    assert e.content != [] ==> Emitted(framed.(data := [], frame := 0), e) == s.emitted + Chunks([e]);
    after := StepEvent(framed.(data := [], frame := 0), e, setup).state;
  }

  lemma {:induction false} AllEvents(s: State, es: seq<Event>, rest: Text, encode: Event -> Text, setup: Setup) returns (after: State)
    requires Between(s) && AllPrintable(es, encode, setup)
    requires LiveBelow(setup, s.total + |Print(es, encode)|) && Accepted(s.emitted, es, setup)
    requires Attribute(s.calls, es).Some? && s.total + |Print(es, encode)| <= MAX_RESPONSE_BYTES
    ensures Between(after) && after.calls == Attribute(s.calls, es).value
    ensures Consume(s, Print(es, encode) + rest, setup) == Consume(after, rest, setup)
    ensures Advances(s, es, after, encode)
    decreases |es|
  {
    if es == [] {
      after := s;
      assert [] + rest == rest;
    } else {
      var next := FirstEvent(s, es, rest, encode, setup);
      AcceptedRest(s.emitted, es, setup);
      after := AllEvents(next, es[1..], rest, encode, setup);
      AdvancesStep(s, es, next, after, encode);
    }
  }

  lemma FirstEvent(s: State, es: seq<Event>, rest: Text, encode: Event -> Text, setup: Setup) returns (next: State)
    requires Between(s) && AllPrintable(es, encode, setup) && es != []
    requires LiveBelow(setup, s.total + |Print(es, encode)|) && Accepted(s.emitted, es, setup)
    requires Attribute(s.calls, es).Some? && s.total + |Print(es, encode)| <= MAX_RESPONSE_BYTES
    ensures Between(next) && next.calls == StepDeltas(s.calls, {}, es[0].deltas, 0).0
    ensures Consume(s, Print(es, encode) + rest, setup) == Consume(next, Print(es[1..], encode) + rest, setup)
    ensures next.content == s.content + es[0].content && next.total == s.total + |PrintFrame(encode(es[0]))|
    ensures next.terminal == (s.terminal || es[0].finish) && next.emitted == s.emitted + Chunks([es[0]])
  {
    AcceptedRest(s.emitted, es, setup);
    next := OneEvent(s, es[0], encode, setup);
    FeedFrame(s, encode(es[0]), Print(es[1..], encode) + rest, setup);
    Regroup(PrintFrame(encode(es[0])), Print(es[1..], encode), rest);
  }

  lemma AdvancesStep(s: State, es: seq<Event>, next: State, after: State, encode: Event -> Text)
    requires es != [] && Advances(next, es[1..], after, encode)
    requires next.content == s.content + es[0].content && next.total == s.total + |PrintFrame(encode(es[0]))|
    requires next.terminal == (s.terminal || es[0].finish) && next.emitted == s.emitted + Chunks([es[0]])
    ensures Advances(s, es, after, encode)
  {
    FinishesStep(es);
    ChunksStep(es);
    Regroup(s.content, es[0].content, AllContent(es[1..]));
    Regroup(s.emitted, Chunks([es[0]]), Chunks(es[1..]));
    assert |Print(es, encode)| == |PrintFrame(encode(es[0]))| + |Print(es[1..], encode)|;
  }

  lemma FinishesStep(es: seq<Event>)
    requires es != []
    ensures Finishes(es) <==> es[0].finish || Finishes(es[1..])
  {
    if Finishes(es) && !es[0].finish {
      var k :| 0 <= k < |es| && es[k].finish;
      assert es[1..][k - 1].finish;
    }
  }

  lemma ChunksStep(es: seq<Event>)
    requires es != []
    ensures Chunks(es) == Chunks([es[0]]) + Chunks(es[1..])
  {
    assert [es[0]][1..] == [];
  }

  // ---------------------------------------------------------------------
  // The result
  // ---------------------------------------------------------------------

  /** The final checks on the calls of a stream. */
  ghost function Collected(es: seq<Event>, c: Calls, setup: Setup): Result {
    AscendingMembers(c.entries.Keys);
    Collect(c.entries, Ascending(c.entries.Keys), AllContent(es), [], setup)
  }

  lemma FromTheStart(s: State, es: seq<Event>, encode: Event -> Text)
    requires Advances(INITIAL, es, s, encode)
    ensures s.content == AllContent(es) && (s.terminal <==> Finishes(es)) && s.total == |Print(es, encode)|
  {
    assert [] + AllContent(es) == AllContent(es);
  }

  /** A stream closed by the done marker; what follows the marker is not looked at. */
  lemma ParseDone(es: seq<Event>, junk: Text, encode: Event -> Text, setup: Setup)
    requires AllPrintable(es, encode, setup) && Undisturbed(es, setup) && Attribute(NO_CALLS, es).Some?
    requires |Print(es, encode)| + |PrintFrame(DONE)| <= MAX_RESPONSE_BYTES
    ensures Parse(Print(es, encode) + PrintFrame(DONE) + junk, setup) == Collected(es, Attribute(NO_CALLS, es).value, setup)
  {
    var printed, marker := Print(es, encode), PrintFrame(DONE);
    var seen := SeenAfter(printed, marker, junk);
    var after := AllEvents(INITIAL, es, marker + seen, encode, setup);
    FromTheStart(after, es, encode);
    var final := MarkerEnds(after, seen, setup);
  }

  lemma SeenAfter(printed: Text, marker: Text, junk: Text) returns (seen: Text)
    requires |printed| + |marker| <= MAX_RESPONSE_BYTES + 1
    ensures Readable(printed + marker + junk) == printed + (marker + seen)
  {
    var input := printed + marker + junk;
    var cut := |Readable(input)|;
    seen := input[|printed| + |marker|..cut];
    assert input[..cut] == printed + (marker + seen);
    assert input[..|input|] == input;
  }

  lemma MarkerEnds(s: State, rest: Text, setup: Setup) returns (final: State)
    requires Between(s) && LiveBelow(setup, MAX_RESPONSE_BYTES) && s.total + |PrintFrame(DONE)| <= MAX_RESPONSE_BYTES
    ensures Consume(s, PrintFrame(DONE) + rest, setup) == Go(final)
    ensures final.done && final.calls == s.calls && final.content == s.content
  {
    MarkerIsPrintable();
    FeedFrame(s, DONE, rest, setup);
    FlushMarker(Framed(s, DONE), setup);
    final := Framed(s, DONE).(data := [], frame := 0, done := true);
  }

  lemma WholeStream(es: seq<Event>, encode: Event -> Text, setup: Setup) returns (after: State)
    requires AllPrintable(es, encode, setup) && Undisturbed(es, setup) && Attribute(NO_CALLS, es).Some?
    requires |Print(es, encode)| <= MAX_RESPONSE_BYTES
    ensures Between(after) && after.calls == Attribute(NO_CALLS, es).value
    ensures Consume(INITIAL, Readable(Print(es, encode)), setup) == Go(after)
    ensures after.content == AllContent(es) && (after.terminal <==> Finishes(es))
  {
    var printed := Print(es, encode);
    assert Readable(printed) == printed + [];
    after := AllEvents(INITIAL, es, [], encode, setup);
    FromTheStart(after, es, encode);
  }

  /** A stream that just ends after an event with a finish reason. */
  lemma ParseFinished(es: seq<Event>, encode: Event -> Text, setup: Setup)
    requires AllPrintable(es, encode, setup) && Undisturbed(es, setup) && Attribute(NO_CALLS, es).Some?
    requires |Print(es, encode)| <= MAX_RESPONSE_BYTES && Finishes(es)
    ensures Parse(Print(es, encode), setup) == Collected(es, Attribute(NO_CALLS, es).value, setup)
  {
    var after := WholeStream(es, encode, setup);
  }

  /** Without a finish reason and without the marker the same stream is refused. */
  lemma UnfinishedIsRefused(es: seq<Event>, encode: Event -> Text, setup: Setup)
    requires AllPrintable(es, encode, setup) && Undisturbed(es, setup) && Attribute(NO_CALLS, es).Some?
    requires |Print(es, encode)| <= MAX_RESPONSE_BYTES && !Finishes(es)
    ensures Parse(Print(es, encode), setup) == Failure(Unfinished)
  {
    var after := WholeStream(es, encode, setup);
  }
}
