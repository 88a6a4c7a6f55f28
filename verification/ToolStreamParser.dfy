/** The parser as it runs: fields updated in a scan loop, proved against the
    functions of ToolStream. */
module ToolStreamParser {
  import opened Collections
  import opened Wrappers
  import opened Utf8
  import opened Sorted
  import opened TextBounds
  import opened ToolStream

  /** Search by ID, then by provider index, then by position, then a free index. */
  method ResolveIndex(c: Calls, used: set<int>, index: Option<int>, id: Text, position: nat) returns (i: int)
    requires Consistent(c)
    ensures i == Resolve(c, used, index, id, position)
  {
    if id != [] {
      var left := c.entries.Keys;
      while left != {}
        invariant left <= c.entries.Keys
        invariant forall k | Holds(c.entries, id, k) :: k in left
        decreases left
      {
        ghost var member := Member(left);
        assert member in left;
        var k :| k in left;
        if c.entries[k].id == id {
          assert Holds(c.entries, id, k);
          return k;
        }
        left := left - {k};
      }
      assert !exists k :: Holds(c.entries, id, k);
    }
    if index.Some? && index.value !in used && Fits(c.entries, index.value, id) {
      return index.value;
    }
    if position < |c.order| {
      var candidate := c.order[position];
      assert candidate in c.order;
      if c.entries[candidate].id == [] || id == [] || c.entries[candidate].id == id {
        return candidate;
      }
    }
    i := 0;
    while i in c.entries
      invariant 0 <= i && FreeFrom(c.entries, i) == FreeFrom(c.entries, 0)
      decreases FreeFrom(c.entries, 0) - i
    {
      i := i + 1;
    }
  }

  class StreamParser {
    const setup: Setup
    var content: Text
    var toolCalls: map<int, Call>
    var order: seq<int>
    var dataLines: seq<Text>
    var totalBytes: nat
    var frameBytes: nat
    var terminal: bool
    var done: bool
    var emitted: seq<Text>

    /** The fields as one value. */
    ghost function View(): State
      reads this
    {
      State(content, Calls(toolCalls, order), dataLines, totalBytes, frameBytes, terminal, done, emitted)
    }

    /** In every reachable state, IDs are distinct and order lists the calls. */
    ghost predicate Invariant()
      reads this
    {
      Reachable(View())
    }

    constructor (setup: Setup)
      ensures View() == INITIAL && this.setup == setup
    {
      this.setup := setup;
      content, toolCalls, order, dataLines := [], map[], [], [];
      totalBytes, frameBytes, terminal, done, emitted := 0, 0, false, false, [];
    }

    method AddFragment(used: set<int>, d: Delta, position: nat) returns (used': set<int>, error: Option<Error>)
      requires Invariant()
      modifies this`toolCalls, this`order
      ensures Invariant()
      ensures (Calls(toolCalls, order), used', error) == StepDelta(Calls(old(toolCalls), old(order)), used, d, position)
      ensures error != Some(IDConflict)
    {
      var calls := Calls(toolCalls, order);
      StepDeltaConsistent(calls, used, d, position);
      var i := ResolveIndex(calls, used, d.index, d.id, position);
      used' := used + {i};
      if i !in toolCalls {
        toolCalls := toolCalls[i := NEW_CALL];
        order := order + [i];
      }
      var call := toolCalls[i];
      if d.id != [] {
        if call.id != [] && call.id != d.id {
          return used', Some(IDConflict);
        }
        call := call.(id := d.id);
      }
      call := call.(name := call.name + d.name, arguments := call.arguments + d.arguments);
      toolCalls := toolCalls[i := call];
      assert toolCalls == StepDelta(calls, used, d, position).0.entries;
      return used', if |call.arguments| > MAX_FRAME_BYTES then Some(ArgumentsTooLarge) else None;
    }

    method AddFragments(ds: seq<Delta>) returns (error: Option<Error>)
      requires Invariant()
      modifies this`toolCalls, this`order
      ensures Invariant()
      ensures (Calls(toolCalls, order), error) == StepDeltas(Calls(old(toolCalls), old(order)), {}, ds, 0)
    {
      var used := {};
      var calls0 := Calls(toolCalls, order);
      for position := 0 to |ds|
        invariant Invariant()
        invariant StepDeltas(calls0, {}, ds, 0) == StepDeltas(Calls(toolCalls, order), used, ds[position..], position)
      {
        assert ds[position..][1..] == ds[position + 1..];
        used, error := AddFragment(used, ds[position], position);
        if error.Some? {
          return;
        }
      }
      return None;
    }

    method HandleEvent(e: Event) returns (error: Option<Error>)
      requires Invariant()
      modifies this
      ensures Invariant()
      ensures error.None? ==> StepEvent(old(View()), e, setup) == Go(View())
      ensures error.Some? ==> StepEvent(old(View()), e, setup) == Stop(error.value)
    {
      if e.finish {
        terminal := true;
      }
      if e.content != [] {
        if !Valid(e.content) {
          return Some(BadStream);
        }
        content := content + e.content;
        var chunk := BoundedString(e.content, MAX_USER_MESSAGE_BYTES);
        emitted := emitted + [chunk];
        if !setup.accepts(emitted) {
          return Some(CallbackFailed);
        }
      }
      error := AddFragments(e.deltas);
    }

    method FlushData() returns (error: Option<Error>)
      requires Invariant()
      modifies this
      ensures Invariant()
      ensures error.None? ==> Flush(old(View()), setup) == Go(View())
      ensures error.Some? ==> Flush(old(View()), setup) == Stop(error.value)
    {
      if dataLines == [] {
        return None;
      }
      var data := Join(dataLines);
      dataLines, frameBytes := [], 0;
      if data == DONE {
        done := true;
        return None;
      }
      var event := setup.decode(data);
      if event.None? {
        return Some(BadStream);
      }
      error := HandleEvent(event.value);
    }

    method FeedLine(line: Text) returns (error: Option<Error>)
      requires Invariant()
      modifies this
      ensures Invariant()
      ensures error.None? ==> StepLine(old(View()), line, setup) == Go(View())
      ensures error.Some? ==> StepLine(old(View()), line, setup) == Stop(error.value)
    {
      totalBytes := totalBytes + |line| + 1;
      if totalBytes > MAX_RESPONSE_BYTES {
        return Some(TooLarge);
      }
      if !Valid(line) {
        return Some(BadStream);
      }
      if line == [] {
        error := FlushData();
        return;
      }
      if line[0] == COLON {
        return None;
      }
      if !StartsWith(line, DATA) {
        return Some(BadStream);
      }
      var data := StripPrefix(StripPrefix(line, DATA), [SPACE]);
      frameBytes := frameBytes + |data|;
      if dataLines != [] {
        frameBytes := frameBytes + 1;
      }
      if frameBytes > MAX_FRAME_BYTES {
        return Some(BadStream);
      }
      dataLines := dataLines + [data];
      return None;
    }

    /** The scan loop. */
    method FeedText(text: Text) returns (error: Option<Error>)
      requires Invariant()
      modifies this
      ensures Invariant()
      ensures error.None? ==> Consume(old(View()), text, setup) == Go(View())
      ensures error.Some? ==> Consume(old(View()), text, setup) == Stop(error.value)
    {
      var rest := text;
      ghost var start := View();
      while rest != []
        invariant Invariant()
        invariant Consume(start, text, setup) == Consume(View(), rest, setup)
        decreases |rest|
      {
        var end := LineEnd(rest);
        if end >= MAX_FRAME_BYTES {
          return Some(ReadFailed);
        }
        if !setup.live(totalBytes) {
          return Some(Cancelled);
        }
        error := FeedLine(DropReturn(rest[..end]));
        if error.Some? || done {
          return;
        }
        rest := AfterLine(rest);
      }
      return None;
    }

    /** The calls in ascending order of index, each checked. */
    method CollectCalls() returns (r: Result)
      requires Invariant()
      ensures forall j | 0 <= j < |Ascending(toolCalls.Keys)| :: Ascending(toolCalls.Keys)[j] in toolCalls
      ensures r == Collect(toolCalls, Ascending(toolCalls.Keys), content, [], setup)
    {
      var sorted := Sort(toolCalls.Keys);
      AscendingMembers(toolCalls.Keys);
      r := CollectSorted(toolCalls, sorted, content, setup);
    }
  }

  /** The final checks, in order of index: the first call that fails decides. */
  method CollectSorted(toolCalls: map<int, Call>, sorted: seq<int>, content: Text, setup: Setup) returns (r: Result)
    requires forall j | 0 <= j < |sorted| :: sorted[j] in toolCalls
    ensures r == Collect(toolCalls, sorted, content, [], setup)
  {
    var calls, rest := [], sorted;
    while rest != []
      invariant forall j | 0 <= j < |rest| :: rest[j] in toolCalls
      invariant Collect(toolCalls, sorted, content, [], setup) == Collect(toolCalls, rest, content, calls, setup)
      decreases |rest|
    {
      var call := toolCalls[rest[0]];
      var problem := Check(call, setup);
      if problem.Some? {
        return Failure(problem.value);
      }
      calls, rest := calls + [call], rest[1..];
    }
    return Response(content, calls);
  }

  /** Parse a whole stream. */
  method ParseStream(input: Text, setup: Setup) returns (r: Result)
    ensures r == Parse(input, setup)
    ensures r != Failure(IDConflict)
  {
    var p := new StreamParser(setup);
    var error := p.FeedText(Readable(input));
    if error.Some? {
      return Failure(error.value);
    }
    if !p.done {
      error := p.FlushData();
      if error.Some? {
        return Failure(error.value);
      }
    }
    if !p.done && !p.terminal {
      return Failure(Unfinished);
    }
    r := p.CollectCalls();
    NoConflictCollected(p.toolCalls, Ascending(p.toolCalls.Keys), p.content, [], setup);
  }

  lemma {:induction false} NoConflictCollected(entries: map<int, Call>, order: seq<int>, content: Text, calls: seq<Call>, setup: Setup)
    requires forall j | 0 <= j < |order| :: order[j] in entries
    ensures Collect(entries, order, content, calls, setup) != Failure(IDConflict)
    decreases |order|
  {
    if order != [] {
      NoConflictCollected(entries, order[1..], content, calls + [entries[order[0]]], setup);
    }
  }
}
