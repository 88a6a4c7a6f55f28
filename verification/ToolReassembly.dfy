/** Printing a well-formed list of events as frames and parsing the text gives
    each tool call the in-order concatenation of its own fragments, however the
    fragments of different calls interleave. */
module ToolReassembly {
  import opened Collections
  import opened Wrappers
  import opened Utf8
  import opened Sorted
  import opened TextBounds
  import opened ToolStream
  import opened ToolFraming
  import opened ToolEvents

  // ---------------------------------------------------------------------
  // What a list of fragments says about one call
  // ---------------------------------------------------------------------

  /** The fragments that name provider index i, in order. */
  function Own(ds: seq<Delta>, i: int): seq<Delta> {
    if ds == [] then []
    else
      var last := ds[|ds| - 1];
      Own(ds[..|ds| - 1], i) + if last.index == Some(i) then [last] else []
  }

  function Names(ds: seq<Delta>): Text {
    if ds == [] then [] else Names(ds[..|ds| - 1]) + ds[|ds| - 1].name
  }

  function Arguments(ds: seq<Delta>): Text {
    if ds == [] then [] else Arguments(ds[..|ds| - 1]) + ds[|ds| - 1].arguments
  }

  /** The last ID given, if any. */
  function LastID(ds: seq<Delta>): Text {
    if ds == [] then []
    else if ds[|ds| - 1].id != [] then ds[|ds| - 1].id
    else LastID(ds[..|ds| - 1])
  }

  function CallOf(ds: seq<Delta>, i: int): Call {
    Call(LastID(Own(ds, i)), Names(Own(ds, i)), Arguments(Own(ds, i)))
  }

  /** Entries are exactly the gathered fragments. */
  ghost predicate Gathers(entries: map<int, Call>, ds: seq<Delta>) {
    && (forall i :: i in entries <==> Own(ds, i) != [])
    && forall i | i in entries :: entries[i] == CallOf(ds, i)
  }

  lemma OwnGrows(ds: seq<Delta>, d: Delta, i: int)
    ensures Own(ds + [d], i) == Own(ds, i) + if d.index == Some(i) then [d] else []
  {
    assert (ds + [d])[..|ds|] == ds;
  }

  lemma CallGrows(ds: seq<Delta>, d: Delta)
    requires d.index.Some?
    ensures
      var i, before := d.index.value, CallOf(ds, d.index.value);
      CallOf(ds + [d], i) ==
      Call(if d.id != [] then d.id else before.id, before.name + d.name, before.arguments + d.arguments)
  {
    var i := d.index.value;
    OwnGrows(ds, d, i);
    assert (Own(ds, i) + [d])[..|Own(ds, i)|] == Own(ds, i);
  }

  // ---------------------------------------------------------------------
  // Well-formed fragments
  // ---------------------------------------------------------------------

  /** Every fragment names its call by index, and its ID, if it gives one, is the
      one ID of that call; different calls have different IDs. */
  ghost predicate Tagged(ds: seq<Delta>, ids: map<int, Text>) {
    && (forall k | 0 <= k < |ds| :: TaggedOne(ds[k], ids))
    && forall i, j | i in ids && j in ids && i != j :: ids[i] != ids[j]
  }

  predicate TaggedOne(d: Delta, ids: map<int, Text>) {
    && d.index.Some? && d.index.value in ids && ids[d.index.value] != []
    && (d.id == [] || d.id == ids[d.index.value])
  }

  ghost predicate OncePerFrame(ds: seq<Delta>) {
    forall a, b | 0 <= a < b < |ds| :: ds[a].index != ds[b].index
  }

  lemma {:induction false} LastIDIsOwn(ds: seq<Delta>, i: int, ids: map<int, Text>)
    requires Tagged(ds, ids)
    ensures LastID(Own(ds, i)) == [] || (i in ids && LastID(Own(ds, i)) == ids[i])
    decreases |ds|
  {
    if ds != [] {
      var rest, last := ds[..|ds| - 1], ds[|ds| - 1];
      assert TaggedOne(ds[|ds| - 1], ids);
      assert forall k | 0 <= k < |rest| :: rest[k] == ds[k];
      LastIDIsOwn(rest, i, ids);
      var own := Own(rest, i);
      if last.index == Some(i) {
        assert Own(ds, i) == own + [last];
        assert (own + [last])[..|own|] == own;
      } else {
        assert Own(ds, i) == own;
      }
    }
  }

  /** A tagged fragment goes to the call at its own index. */
  lemma LandsAtItsIndex(c: Calls, ds: seq<Delta>, d: Delta, ids: map<int, Text>, used: set<int>, position: nat)
    requires Consistent(c) && Gathers(c.entries, ds) && Tagged(ds + [d], ids) && d.index.Some? && d.index.value !in used
    ensures Resolve(c, used, d.index, d.id, position) == d.index.value
  {
    var i := d.index.value;
    assert (ds + [d])[|ds|] == d && TaggedOne(d, ids);
    assert forall k | 0 <= k < |ds| :: (ds + [d])[k] == ds[k];
    if i in c.entries { LastIDIsOwn(ds, i, ids); }
    forall j | d.id != [] && Holds(c.entries, d.id, j) ensures j == i {
      LastIDIsOwn(ds, j, ids);
    }
  }

  lemma OneFragment(c: Calls, ds: seq<Delta>, d: Delta, ids: map<int, Text>, used: set<int>, position: nat)
    requires Consistent(c) && Gathers(c.entries, ds) && Tagged(ds + [d], ids) && d.index.Some? && d.index.value !in used
    requires |CallOf(ds + [d], d.index.value).arguments| <= MAX_FRAME_BYTES
    ensures
      var (after, used', error) := StepDelta(c, used, d, position);
      Consistent(after) && Gathers(after.entries, ds + [d]) && used' == used + {d.index.value} && error.None?
  {
    var i := d.index.value;
    LandsAtItsIndex(c, ds, d, ids, used, position);
    StepDeltaConsistent(c, used, d, position);
    CallGrows(ds, d);
    assert (ds + [d])[|ds|] == d && TaggedOne(d, ids);
    assert forall k | 0 <= k < |ds| :: (ds + [d])[k] == ds[k];
    LastIDIsOwn(ds, i, ids);
    if i !in c.entries {
      assert Own(ds, i) == [] && CallOf(ds, i) == NEW_CALL;
    }
    assert StepDelta(c, used, d, position).0.entries == c.entries[i := CallOf(ds + [d], i)];
    GathersGrows(c.entries, ds, d, i);
  }

  lemma GathersGrows(entries: map<int, Call>, ds: seq<Delta>, d: Delta, i: int)
    requires Gathers(entries, ds) && d.index == Some(i)
    ensures Gathers(entries[i := CallOf(ds + [d], i)], ds + [d])
  {
    var after := entries[i := CallOf(ds + [d], i)];
    forall j ensures j in after <==> Own(ds + [d], j) != [] {
      OwnGrows(ds, d, j);
    }
    forall j | j in after ensures after[j] == CallOf(ds + [d], j) {
      OwnGrows(ds, d, j);
      if j != i { assert Own(ds + [d], j) == Own(ds, j); }
    }
  }

  /** No call's arguments grow past the bound. */
  ghost predicate ArgumentsFit(ds: seq<Delta>) {
    forall i :: |Arguments(Own(ds, i))| <= MAX_FRAME_BYTES
  }

  lemma {:induction false} ArgumentsOnlyGrow(ds: seq<Delta>, more: seq<Delta>)
    requires ArgumentsFit(ds + more)
    ensures ArgumentsFit(ds)
    decreases |more|
  {
    if more == [] {
      assert ds + more == ds;
    } else {
      var fewer, last := more[..|more| - 1], more[|more| - 1];
      assert ds + more == (ds + fewer) + [last];
      forall i ensures |Arguments(Own(ds + fewer, i))| <= MAX_FRAME_BYTES {
        assert |Arguments(Own(ds + more, i))| <= MAX_FRAME_BYTES;
        if last.index == Some(i) {
          CallGrows(ds + fewer, last);
        } else {
          OwnGrows(ds + fewer, last, i);
          assert Own(ds + more, i) == Own(ds + fewer, i);
        }
      }
      ArgumentsOnlyGrow(ds, fewer);
    }
  }

  lemma TaggedPrefix(a: seq<Delta>, b: seq<Delta>, ids: map<int, Text>)
    requires Tagged(a + b, ids)
    ensures Tagged(a, ids)
  {
    forall k | 0 <= k < |a| ensures TaggedOne(a[k], ids) {
      assert (a + b)[k] == a[k];
    }
  }

  lemma OneMore(done: seq<Delta>, ds: seq<Delta>)
    requires ds != []
    ensures done + ds == (done + [ds[0]]) + ds[1..]
  {
  }

  lemma OthersLeft(ds: seq<Delta>, used: set<int>)
    requires ds != [] && OncePerFrame(ds)
    requires forall k | 0 <= k < |ds| :: ds[k].index.Some? && ds[k].index.value !in used
    ensures forall k | 0 <= k < |ds| - 1 ::
              ds[1..][k].index.Some? && ds[1..][k].index.value !in used + {ds[0].index.value}
  {
    assert forall k | 0 <= k < |ds| - 1 :: ds[1..][k] == ds[1 + k];
  }

  /** The first fragment of a frame goes to its call, and leaves the rest of the
      frame to other calls. */
  lemma FirstOfFrame(c: Calls, done: seq<Delta>, ds: seq<Delta>, ids: map<int, Text>, used: set<int>, position: nat)
    requires Consistent(c) && Gathers(c.entries, done) && Tagged(done + ds, ids) && OncePerFrame(ds) && ds != []
    requires forall k | 0 <= k < |ds| :: ds[k].index.Some? && ds[k].index.value !in used
    requires ArgumentsFit(done + ds)
    ensures
      var (next, used', error) := StepDelta(c, used, ds[0], position);
      && Consistent(next) && Gathers(next.entries, done + [ds[0]]) && error.None?
      && forall k | 0 <= k < |ds| - 1 :: ds[1..][k].index.Some? && ds[1..][k].index.value !in used'
  {
    var d := ds[0];
    OneMore(done, ds);
    TaggedPrefix(done + [d], ds[1..], ids);
    ArgumentsOnlyGrow(done + [d], ds[1..]);
    assert |CallOf(done + [d], d.index.value).arguments| <= MAX_FRAME_BYTES;
    OneFragment(c, done, d, ids, used, position);
    OthersLeft(ds, used);
  }

  /** All fragments of one frame, after those of done. */
  lemma {:induction false} OneFrameOfFragments(c: Calls, done: seq<Delta>, ds: seq<Delta>, ids: map<int, Text>,
                                               used: set<int>, position: nat)
    requires Consistent(c) && Gathers(c.entries, done) && Tagged(done + ds, ids) && OncePerFrame(ds)
    requires forall k | 0 <= k < |ds| :: ds[k].index.Some? && ds[k].index.value !in used
    requires ArgumentsFit(done + ds)
    ensures StepDeltas(c, used, ds, position).1.None? && Gathers(StepDeltas(c, used, ds, position).0.entries, done + ds)
    decreases |ds|
  {
    if ds == [] {
      assert done + ds == done;
    } else {
      OneMore(done, ds);
      FirstOfFrame(c, done, ds, ids, used, position);
      var (next, used', error) := StepDelta(c, used, ds[0], position);
      OneFrameOfFragments(next, done + [ds[0]], ds[1..], ids, used', position + 1);
    }
  }

  // ---------------------------------------------------------------------
  // Whole streams
  // ---------------------------------------------------------------------

  ghost predicate OncePerFrames(es: seq<Event>) {
    forall k | 0 <= k < |es| :: OncePerFrame(es[k].deltas)
  }

  lemma AllNamed(before: seq<Delta>, ds: seq<Delta>, ids: map<int, Text>)
    requires Tagged(before + ds, ids)
    ensures forall k | 0 <= k < |ds| :: ds[k].index.Some?
  {
    forall k | 0 <= k < |ds| ensures ds[k].index.Some? {
      assert (before + ds)[|before| + k] == ds[k];
      assert TaggedOne((before + ds)[|before| + k], ids);
    }
  }

  /** However the fragments of different calls interleave, over any number of
      events, they gather under their indexes. */
  lemma {:induction false} EventsGather(c: Calls, before: seq<Delta>, es: seq<Event>, ids: map<int, Text>)
    requires Consistent(c) && Gathers(c.entries, before) && OncePerFrames(es)
    requires Tagged(before + AllDeltas(es), ids) && ArgumentsFit(before + AllDeltas(es))
    ensures Attribute(c, es).Some? && Gathers(Attribute(c, es).value.entries, before + AllDeltas(es))
    decreases |es|
  {
    if es == [] {
      assert before + [] == before;
    } else {
      var ds, more := es[0].deltas, AllDeltas(es[1..]);
      Regroup(before, ds, more);
      ArgumentsOnlyGrow(before + ds, more);
      TaggedPrefix(before + ds, more, ids);
      AllNamed(before, ds, ids);
      OneFrameOfFragments(c, before, ds, ids, {}, 0);
      EventsGather(StepDeltas(c, {}, ds, 0).0, before + ds, es[1..], ids);
    }
  }

  // ---------------------------------------------------------------------
  // The result
  // ---------------------------------------------------------------------

  /** The provider indexes that occur. */
  function Indexes(ds: seq<Delta>): set<int> {
    set k | 0 <= k < |ds| && ds[k].index.Some? :: ds[k].index.value
  }

  lemma {:induction false} OwnIffIndexed(ds: seq<Delta>, i: int)
    ensures Own(ds, i) != [] <==> i in Indexes(ds)
    decreases |ds|
  {
    if ds != [] {
      var rest, last := ds[..|ds| - 1], ds[|ds| - 1];
      OwnIffIndexed(rest, i);
      if i in Indexes(ds) {
        var k :| 0 <= k < |ds| && ds[k].index == Some(i);
        if k < |rest| { assert rest[k] == ds[k]; }
      }
      if i in Indexes(rest) {
        var k :| 0 <= k < |rest| && rest[k].index == Some(i);
        assert ds[k] == rest[k];
      }
      if last.index == Some(i) { assert ds[|ds| - 1].index == Some(i); }
    }
  }

  /** The calls a stream of fragments amounts to, by ascending index. */
  ghost function Expected(ds: seq<Delta>): seq<Call> {
    var order := Ascending(Indexes(ds));
    seq(|order|, j requires 0 <= j < |order| => CallOf(ds, order[j]))
  }

  /** Each call was given an ID, a name and well-formed arguments. */
  ghost predicate Complete(ds: seq<Delta>, setup: Setup) {
    forall i | i in Indexes(ds) :: Check(CallOf(ds, i), setup).None?
  }

  lemma {:induction false} CollectAll(entries: map<int, Call>, order: seq<int>, content: Text, calls: seq<Call>, setup: Setup)
    requires forall j | 0 <= j < |order| :: order[j] in entries && Check(entries[order[j]], setup).None?
    ensures Collect(entries, order, content, calls, setup) ==
            Response(content, calls + seq(|order|, j requires 0 <= j < |order| => entries[order[j]]))
    decreases |order|
  {
    var listed := seq(|order|, j requires 0 <= j < |order| => entries[order[j]]);
    if order == [] {
      assert calls + listed == calls;
    } else {
      var rest := order[1..];
      CollectAll(entries, rest, content, calls + [entries[order[0]]], setup);
      assert listed == [entries[order[0]]] + seq(|rest|, j requires 0 <= j < |rest| => entries[rest[j]]);
      assert calls + listed ==
             (calls + [entries[order[0]]]) + seq(|rest|, j requires 0 <= j < |rest| => entries[rest[j]]);
    }
  }

  lemma CollectsExpected(entries: map<int, Call>, ds: seq<Delta>, content: Text, setup: Setup)
    requires Gathers(entries, ds) && Complete(ds, setup)
    ensures forall j | 0 <= j < |Ascending(entries.Keys)| :: Ascending(entries.Keys)[j] in entries
    ensures Collect(entries, Ascending(entries.Keys), content, [], setup) == Response(content, Expected(ds))
  {
    IndexesAreKeys(entries, ds);
    var order := Ascending(entries.Keys);
    AscendingMembers(entries.Keys);
    CollectAll(entries, order, content, [], setup);
    ExpectedInOrder(entries, ds, order);
  }

  lemma IndexesAreKeys(entries: map<int, Call>, ds: seq<Delta>)
    requires Gathers(entries, ds)
    ensures entries.Keys == Indexes(ds)
  {
    forall i ensures i in entries <==> i in Indexes(ds) {
      OwnIffIndexed(ds, i);
    }
  }

  lemma ExpectedInOrder(entries: map<int, Call>, ds: seq<Delta>, order: seq<int>)
    requires Gathers(entries, ds) && order == Ascending(Indexes(ds))
    requires forall j | 0 <= j < |order| :: order[j] in entries
    ensures [] + seq(|order|, j requires 0 <= j < |order| => entries[order[j]]) == Expected(ds)
  {
  }

  lemma StreamGathers(es: seq<Event>, ids: map<int, Text>, setup: Setup)
    requires OncePerFrames(es) && Tagged(AllDeltas(es), ids) && ArgumentsFit(AllDeltas(es)) && Complete(AllDeltas(es), setup)
    ensures Attribute(NO_CALLS, es).Some?
    ensures Collected(es, Attribute(NO_CALLS, es).value, setup) == Response(AllContent(es), Expected(AllDeltas(es)))
  {
    assert [] + AllDeltas(es) == AllDeltas(es);
    EventsGather(NO_CALLS, [], es, ids);
    CollectsExpected(Attribute(NO_CALLS, es).value.entries, AllDeltas(es), AllContent(es), setup);
  }

  /** Reassembly, for a stream closed by the done marker; what follows the marker
      is not looked at. */
  lemma ReassemblyDone(es: seq<Event>, ids: map<int, Text>, junk: Text, encode: Event -> Text, setup: Setup)
    requires AllPrintable(es, encode, setup) && Undisturbed(es, setup) && OncePerFrames(es)
    requires Tagged(AllDeltas(es), ids) && ArgumentsFit(AllDeltas(es)) && Complete(AllDeltas(es), setup)
    requires |Print(es, encode)| + |PrintFrame(DONE)| <= MAX_RESPONSE_BYTES
    ensures Parse(Print(es, encode) + PrintFrame(DONE) + junk, setup) == Response(AllContent(es), Expected(AllDeltas(es)))
  {
    StreamGathers(es, ids, setup);
    ParseDone(es, junk, encode, setup);
  }

  /** Reassembly, for a stream that just ends after an event with a finish reason. */
  lemma ReassemblyFinished(es: seq<Event>, ids: map<int, Text>, encode: Event -> Text, setup: Setup)
    requires AllPrintable(es, encode, setup) && Undisturbed(es, setup) && OncePerFrames(es)
    requires Tagged(AllDeltas(es), ids) && ArgumentsFit(AllDeltas(es)) && Complete(AllDeltas(es), setup)
    requires |Print(es, encode)| <= MAX_RESPONSE_BYTES && Finishes(es)
    ensures Parse(Print(es, encode), setup) == Response(AllContent(es), Expected(AllDeltas(es)))
  {
    StreamGathers(es, ids, setup);
    ParseFinished(es, encode, setup);
  }
}
