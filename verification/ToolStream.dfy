/** The streamed chat completion: lines of an event stream (WHATWG HTML, section
    9.2.6 "Interpreting an event stream", data fields and comments only) are
    gathered into frames, each frame is one decoded event, and each tool-call
    fragment of an event is attributed to a call by ID, provider index or
    position. Decoding one JSON document, the answers of the content callback and
    the life of the request context are parameters. */
module ToolStream {
  import opened Wrappers
  import opened Utf8
  import opened Sorted
  import opened TextBounds

  const MAX_RESPONSE_BYTES := 0x40_0000
  const MAX_FRAME_BYTES := 0x4_0000
  const MAX_USER_MESSAGE_BYTES := 0x4000

  const NEWLINE: byte := 10
  const RETURN: byte := 13
  const SPACE: byte := 32
  const COLON: byte := 58
  const DATA: Text := [100, 97, 116, 97, 58]
  const DONE: Text := [91, 68, 79, 78, 69, 93]

  /** One fragment of a tool call. */
  datatype Delta = Delta(index: Option<int>, id: Text, name: Text, arguments: Text)

  /** The first choice of a decoded chunk; finish says it carries a finish reason. */
  datatype Event = Event(finish: bool, content: Text, deltas: seq<Delta>)

  /** What surrounds the parser: JSON, whether the callback returns without an error
      once it has received these chunks, and whether the context is still live when
      that many bytes of lines have been read. */
  datatype Setup = Setup(decode: Text -> Option<Event>, validJSON: Text -> bool, accepts: seq<Text> -> bool, live: nat -> bool)

  /** No cancellation before that many bytes have been read. */
  ghost predicate LiveBelow(setup: Setup, limit: nat) {
    forall total: nat | total < limit :: setup.live(total)
  }

  datatype Call = Call(id: Text, name: Text, arguments: Text)

  const NEW_CALL := Call([], [], [])

  datatype Error =
    | BadStream | TooLarge | ReadFailed | CallbackFailed | Cancelled | ArgumentsTooLarge | IDConflict | Unfinished | MissingID | MissingName | BadArguments

  // ---------------------------------------------------------------------
  // Attributing a fragment
  // ---------------------------------------------------------------------

  /** The calls so far by index, and the indexes in order of first appearance. */
  datatype Calls = Calls(entries: map<int, Call>, order: seq<int>)

  ghost predicate DistinctIDs(entries: map<int, Call>) {
    forall i, j | i in entries && j in entries && i != j && entries[i].id != [] :: entries[i].id != entries[j].id
  }

  ghost predicate Lists(order: seq<int>, entries: map<int, Call>) {
    && (forall k :: k in order <==> k in entries)
    && forall a, b | 0 <= a < b < |order| :: order[a] != order[b]
  }

  ghost predicate Consistent(c: Calls) {
    Lists(c.order, c.entries) && DistinctIDs(c.entries)
  }

  predicate Holds(entries: map<int, Call>, id: Text, i: int) {
    i in entries && entries[i].id == id
  }

  /** A call at index i would not contradict the fragment's ID. */
  predicate Fits(entries: map<int, Call>, i: int, id: Text) {
    i !in entries || entries[i].id == [] || id == [] || entries[i].id == id
  }

  /** The first unused index from n on. */
  function FreeFrom(entries: map<int, Call>, n: int): (free: int)
    ensures free !in entries && free >= n && forall k | n <= k < free :: k in entries
    decreases entries.Keys - (set k | k in entries.Keys && k < n)
  {
    if n !in entries then n
    else
      assert n in entries.Keys - (set k | k in entries.Keys && k < n);
      FreeFrom(entries, n + 1)
  }

  ghost function Resolve(c: Calls, used: set<int>, index: Option<int>, id: Text, position: nat): (i: int)
    requires Consistent(c)
  {
    if id != [] && exists k :: Holds(c.entries, id, k) then
      var k :| Holds(c.entries, id, k);
      k
    else if index.Some? && index.value !in used && Fits(c.entries, index.value, id) then index.value
    else if position < |c.order| && Fits(c.entries, c.order[position], id) then c.order[position]
    else FreeFrom(c.entries, 0)
  }

  /** At most one call holds a nonempty ID, so the order in which the map is
      searched does not matter. */
  lemma HolderIsUnique(c: Calls, id: Text, i: int, j: int)
    requires Consistent(c) && id != [] && Holds(c.entries, id, i) && Holds(c.entries, id, j)
    ensures i == j
  {
  }

  /** The search for a free index stops no later than at the number of calls. */
  lemma FreeIndexIsBounded(entries: map<int, Call>)
    ensures 0 <= FreeFrom(entries, 0) <= |entries|
  {
    Covers(FreeFrom(entries, 0), entries.Keys);
  }

  lemma {:induction false} Covers(n: nat, s: set<int>)
    requires forall k | 0 <= k < n :: k in s
    ensures n <= |s|
    decreases n
  {
    if n > 0 {
      assert n - 1 in s;
      Covers(n - 1, s - {n - 1});
    }
  }

  /** The chosen call never contradicts the fragment's ID, and no other call has it. */
  lemma ResolveFits(c: Calls, used: set<int>, index: Option<int>, id: Text, position: nat)
    requires Consistent(c)
    ensures var i := Resolve(c, used, index, id, position);
            Fits(c.entries, i, id) && (id != [] ==> forall j | Holds(c.entries, id, j) :: j == i)
  {
  }

  /** Add one fragment. A call at the chosen index is made if there is none. */
  ghost function StepDelta(c: Calls, used: set<int>, d: Delta, position: nat): (r: (Calls, set<int>, Option<Error>))
    requires Consistent(c)
  {
    var i := Resolve(c, used, d.index, d.id, position);
    var before := if i in c.entries then c.entries[i] else NEW_CALL;
    var order := if i in c.entries then c.order else c.order + [i];
    var grown := Call(if d.id != [] then d.id else before.id, before.name + d.name, before.arguments + d.arguments);
    if d.id != [] && before.id != [] && before.id != d.id then (Calls(c.entries[i := before], order), used + {i}, Some(IDConflict))
    else (Calls(c.entries[i := grown], order), used + {i}, if |grown.arguments| > MAX_FRAME_BYTES then Some(ArgumentsTooLarge) else None)
  }

  lemma UpdateKeepsDistinct(entries: map<int, Call>, i: int, call: Call)
    requires DistinctIDs(entries)
    requires call.id != [] ==> forall j | Holds(entries, call.id, j) :: j == i
    ensures DistinctIDs(entries[i := call])
  {
    var after := entries[i := call];
    forall a, b | a in after && b in after && a != b && after[a].id != [] ensures after[a].id != after[b].id {
      if a == i {
        assert Holds(entries, call.id, b) ==> b == i;
      } else if b == i {
        assert Holds(entries, call.id, a) ==> a == i;
      }
    }
  }

  /** Whatever the fragment, the calls stay consistent and no ID conflict arises. */
  lemma StepDeltaConsistent(c: Calls, used: set<int>, d: Delta, position: nat)
    requires Consistent(c)
    ensures Consistent(StepDelta(c, used, d, position).0)
    ensures StepDelta(c, used, d, position).2 != Some(IDConflict)
  {
    var i := Resolve(c, used, d.index, d.id, position);
    ResolveFits(c, used, d.index, d.id, position);
    var (after, _, _) := StepDelta(c, used, d, position);
    UpdateKeepsDistinct(c.entries, i, after.entries[i]);
    assert Lists(after.order, after.entries);
  }

  ghost function StepDeltas(c: Calls, used: set<int>, ds: seq<Delta>, position: nat): (r: (Calls, Option<Error>))
    requires Consistent(c)
    ensures Consistent(r.0) && r.1 != Some(IDConflict)
    decreases |ds|
  {
    if ds == [] then (c, None)
    else
      StepDeltaConsistent(c, used, ds[0], position);
      var (next, used', error) := StepDelta(c, used, ds[0], position);
      if error.Some? then (next, error) else StepDeltas(next, used', ds[1..], position + 1)
  }

  // ---------------------------------------------------------------------
  // Frames and lines
  // ---------------------------------------------------------------------

  /** The parser between two lines: frame counts the bytes of data, total those
      of all lines, emitted what the callback received. */
  datatype State = State(content: Text, calls: Calls, data: seq<Text>, total: nat, frame: nat,
                         terminal: bool, done: bool, emitted: seq<Text>)

  const INITIAL := State([], Calls(map[], []), [], 0, 0, false, false, [])

  datatype Step = Go(state: State) | Stop(error: Error)

  ghost predicate Reachable(s: State) {
    Consistent(s.calls)
  }

  function Join(lines: seq<Text>): Text {
    if lines == [] then []
    else if |lines| == 1 then lines[0]
    else Join(lines[..|lines| - 1]) + [NEWLINE] + lines[|lines| - 1]
  }

  /** The chunks that the callback has received after an event. */
  function Emitted(s: State, e: Event): seq<Text> {
    if e.content == [] then s.emitted else s.emitted + [BoundedPrefix(e.content, MAX_USER_MESSAGE_BYTES)]
  }

  ghost function StepEvent(s: State, e: Event, setup: Setup): (r: Step)
    requires Reachable(s)
    ensures r.Go? ==> Reachable(r.state)
    ensures r != Stop(IDConflict)
  {
    if e.content != [] && !Valid(e.content) then Stop(BadStream)
    else if e.content != [] && !setup.accepts(Emitted(s, e)) then Stop(CallbackFailed)
    else
      var (calls, error) := StepDeltas(s.calls, {}, e.deltas, 0);
      if error.Some? then Stop(error.value)
      else Go(s.(content := s.content + e.content, calls := calls, terminal := s.terminal || e.finish, emitted := Emitted(s, e)))
  }

  ghost function Flush(s: State, setup: Setup): (r: Step)
    requires Reachable(s)
    ensures r.Go? ==> Reachable(r.state)
    ensures r != Stop(IDConflict)
  {
    var cleared := s.(data := [], frame := 0);
    if s.data == [] then Go(s)
    else if Join(s.data) == DONE then Go(cleared.(done := true))
    else match setup.decode(Join(s.data))
      case None => Stop(BadStream)
      case Some(e) => StepEvent(cleared, e, setup)
  }

  predicate StartsWith(line: Text, prefix: Text) {
    |line| >= |prefix| && line[..|prefix|] == prefix
  }

  function StripPrefix(line: Text, prefix: Text): Text {
    if StartsWith(line, prefix) then line[|prefix|..] else line
  }

  ghost function StepLine(s: State, line: Text, setup: Setup): (r: Step)
    requires Reachable(s)
    ensures r.Go? ==> Reachable(r.state)
    ensures r != Stop(IDConflict)
  {
    var counted := s.(total := s.total + |line| + 1);
    if counted.total > MAX_RESPONSE_BYTES then Stop(TooLarge)
    else if !Valid(line) then Stop(BadStream)
    else if line == [] then Flush(counted, setup)
    else if line[0] == COLON then Go(counted)
    else if !StartsWith(line, DATA) then Stop(BadStream)
    else
      var data := StripPrefix(StripPrefix(line, DATA), [SPACE]);
      var frame := s.frame + |data| + if s.data == [] then 0 else 1;
      if frame > MAX_FRAME_BYTES then Stop(BadStream)
      else Go(counted.(data := s.data + [data], frame := frame))
  }

  /** The position of the first newline, or the end. */
  function LineEnd(text: Text): (n: nat)
    ensures n <= |text| && NEWLINE !in text[..n] && (n < |text| ==> text[n] == NEWLINE)
  {
    if text == [] || text[0] == NEWLINE then 0 else 1 + LineEnd(text[1..])
  }

  function DropReturn(line: Text): Text {
    if line != [] && line[|line| - 1] == RETURN then line[..|line| - 1] else line
  }

  /** What follows the first line. */
  function AfterLine(text: Text): (rest: Text)
    ensures text != [] ==> |rest| < |text|
  {
    if LineEnd(text) < |text| then text[LineEnd(text) + 1..] else []
  }

  /** Feed the text line by line until it ends, an error, or the done marker. The
      context is looked at before each line. A line that does not fit the scanner's buffer is a read error. */
  ghost function Consume(s: State, text: Text, setup: Setup): (r: Step)
    requires Reachable(s)
    ensures r.Go? ==> Reachable(r.state)
    ensures r != Stop(IDConflict)
    decreases |text|
  {
    if text == [] then Go(s)
    else if LineEnd(text) >= MAX_FRAME_BYTES then Stop(ReadFailed)
    else if !setup.live(s.total) then Stop(Cancelled)
    else
      var step := StepLine(s, DropReturn(text[..LineEnd(text)]), setup);
      if step.Stop? || step.state.done then step else Consume(step.state, AfterLine(text), setup)
  }

  datatype Result = Response(content: Text, calls: seq<Call>) | Failure(error: Error)

  function Check(call: Call, setup: Setup): Option<Error> {
    if call.id == [] then Some(MissingID)
    else if call.name == [] then Some(MissingName)
    else if !setup.validJSON(call.arguments) then Some(BadArguments)
    else None
  }

  ghost function Collect(entries: map<int, Call>, order: seq<int>, content: Text, calls: seq<Call>, setup: Setup): Result
    requires forall j | 0 <= j < |order| :: order[j] in entries
    decreases |order|
  {
    if order == [] then Response(content, calls)
    else
      var call := entries[order[0]];
      var error := Check(call, setup);
      if error.Some? then Failure(error.value) else Collect(entries, order[1..], content, calls + [call], setup)
  }

  lemma {:induction false} AscendingMembers(s: set<int>)
    ensures forall j | 0 <= j < |Ascending(s)| :: Ascending(s)[j] in s
    decreases s
  {
    if s != {} {
      AscendingMembers(s - {Min(s)});
    }
  }

  ghost function Finish(s: State, setup: Setup): Result
    requires Reachable(s)
  {
    var step := if s.done then Go(s) else Flush(s, setup);
    if step.Stop? then Failure(step.error)
    else if !step.state.done && !step.state.terminal then Failure(Unfinished)
    else
      var entries := step.state.calls.entries;
      AscendingMembers(entries.Keys);
      Collect(entries, Ascending(entries.Keys), step.state.content, [], setup)
  }

  /** The first bytes of the stream that are read at all. */
  function Readable(input: Text): Text {
    if |input| <= MAX_RESPONSE_BYTES + 1 then input else input[..MAX_RESPONSE_BYTES + 1]
  }

  /** The whole parse. */
  ghost function Parse(input: Text, setup: Setup): Result {
    var step := Consume(INITIAL, Readable(input), setup);
    if step.Stop? then Failure(step.error) else Finish(step.state, setup)
  }
}
