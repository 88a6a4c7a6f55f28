/** The request/response protocol between the hub's callers and one agent
    connection, as a system of interleaved atomic steps.

    Each call owns one channel with room for one delivery, so a call number names
    its channel too. The steps under the pending lock are register, look up,
    capture-and-close and remove; a delivery and a closing notice are sent after
    the lock is released, without blocking. */
module AgentRpc {
  import opened Wrappers

  datatype Delivery = Response(request: string) | Disconnected

  datatype Ending = Answered(delivery: Delivery) | Rejected | WriteFailed | Cancelled

  /** Registered and writing the request, waiting for a delivery, about to remove
      itself, or returned. */
  datatype Phase = Writing | Waiting | Leaving(ending: Ending) | Returned(ending: Ending)

  datatype Caller = Caller(request: string, phase: Phase)

  /** A delivery between its lookup and its send. */
  datatype InFlight = InFlight(call: nat, request: string)

  datatype State = State(
    pending: map<string, nat>,
    closed: bool,
    callers: map<nat, Caller>,
    buffers: map<nat, Delivery>,
    deliveries: map<nat, InFlight>,
    closers: map<nat, set<nat>>)

  const INITIAL := State(map[], false, map[], map[], map[], map[])

  datatype Step =
    | Register(call: nat, request: string)
    | WriteRequest(call: nat, works: bool)
    | Receive(call: nat)
    | Cancel(call: nat)
    | Remove(call: nat)
    | LookUp(thread: nat, request: string)
    | Send(thread: nat)
    | Close(thread: nat)
    | Notify(thread: nat, call: nat)

  /** A send to a channel that already holds a delivery is dropped, not waited for. */
  function Offer(buffers: map<nat, Delivery>, call: nat, d: Delivery): map<nat, Delivery> {
    if call in buffers then buffers else buffers[call := d]
  }

  function SetPhase(s: State, call: nat, phase: Phase): State
    requires call in s.callers
  {
    s.(callers := s.callers[call := s.callers[call].(phase := phase)])
  }

  predicate Enabled(s: State, step: Step) {
    match step
    case Register(call, _) => call !in s.callers
    case WriteRequest(call, _) => call in s.callers && s.callers[call].phase.Writing?
    case Receive(call) => call in s.callers && s.callers[call].phase.Waiting? && call in s.buffers
    case Cancel(call) => call in s.callers && s.callers[call].phase.Waiting?
    case Remove(call) => call in s.callers && s.callers[call].phase.Leaving?
    case LookUp(thread, _) => thread !in s.deliveries
    case Send(thread) => thread in s.deliveries
    case Close(thread) => thread !in s.closers
    case Notify(thread, call) => thread in s.closers && call in s.closers[thread]
  }

  function Next(s: State, step: Step): State
    requires Enabled(s, step)
  {
    match step
    case Register(call, request) =>
      if s.closed then s.(callers := s.callers[call := Caller(request, Returned(Answered(Disconnected)))])
      else if request in s.pending then s.(callers := s.callers[call := Caller(request, Returned(Rejected))])
      else s.(pending := s.pending[request := call], callers := s.callers[call := Caller(request, Writing)])
    case WriteRequest(call, works) => SetPhase(s, call, if works then Waiting else Leaving(WriteFailed))
    case Receive(call) => SetPhase(s.(buffers := s.buffers - {call}), call, Leaving(Answered(s.buffers[call])))
    case Cancel(call) => SetPhase(s, call, Leaving(Cancelled))
    case Remove(call) =>
      var request := s.callers[call].request;
      var pending := if request in s.pending && s.pending[request] == call then s.pending - {request} else s.pending;
      SetPhase(s.(pending := pending), call, Returned(s.callers[call].phase.ending))
    case LookUp(thread, request) =>
      if request in s.pending then s.(deliveries := s.deliveries[thread := InFlight(s.pending[request], request)]) else s
    case Send(thread) =>
      var flight := s.deliveries[thread];
      s.(deliveries := s.deliveries - {thread}, buffers := Offer(s.buffers, flight.call, Response(flight.request)))
    case Close(thread) =>
      s.(pending := map[], closed := true, closers := s.closers[thread := set request | request in s.pending :: s.pending[request]])
    case Notify(thread, call) =>
      s.(closers := s.closers[thread := s.closers[thread] - {call}], buffers := Offer(s.buffers, call, Disconnected))
  }

  // ---------------------------------------------------------------------
  // The invariant
  // ---------------------------------------------------------------------

  predicate Live(s: State, call: nat) {
    call in s.callers && (s.callers[call].phase.Writing? || s.callers[call].phase.Waiting?)
  }

  predicate Registered(s: State, call: nat) {
    call in s.callers && s.callers[call].request in s.pending && s.pending[s.callers[call].request] == call
  }

  ghost predicate Captured(s: State, call: nat) {
    exists thread :: thread in s.closers && call in s.closers[thread]
  }

  /** Something will still wake the call. */
  ghost predicate Tracked(s: State, call: nat) {
    call in s.buffers || (Registered(s, call) && !s.closed) || Captured(s, call)
  }

  /** The request a delivery answers is the one its receiver made. */
  predicate Matches(s: State, call: nat, d: Delivery) {
    call in s.callers && (d.Response? ==> d.request == s.callers[call].request)
  }

  predicate EndsWell(c: Caller) {
    match c.phase
    case Leaving(Answered(d)) => d.Response? ==> d.request == c.request
    case Returned(Answered(d)) => d.Response? ==> d.request == c.request
    case _ => true
  }

  /** A pending entry belongs to a call with that request that has not returned. */
  ghost predicate PendingOwned(s: State) {
    forall request | request in s.pending ::
      var call := s.pending[request];
      call in s.callers && s.callers[call].request == request && !s.callers[call].phase.Returned?
  }

  ghost predicate AllTracked(s: State) {
    forall call | Live(s, call) :: Tracked(s, call)
  }

  ghost predicate AnswersOwnRequest(s: State) {
    && (forall call | call in s.buffers :: Matches(s, call, s.buffers[call]))
    && (forall thread | thread in s.deliveries :: Matches(s, s.deliveries[thread].call, Response(s.deliveries[thread].request)))
    && (forall call | call in s.callers :: EndsWell(s.callers[call]))
  }

  ghost predicate ClosersKnowCalls(s: State) {
    forall thread, call | thread in s.closers && call in s.closers[thread] :: call in s.callers
  }

  ghost predicate Inv(s: State) {
    (s.closed ==> s.pending == map[]) && PendingOwned(s) && AllTracked(s) && AnswersOwnRequest(s) && ClosersKnowCalls(s)
  }

  lemma InitialInv()
    ensures Inv(INITIAL)
  {
  }

  lemma StillCaptured(s: State, t: State, call: nat)
    requires Captured(s, call)
    requires forall thread | thread in s.closers && call in s.closers[thread] :: thread in t.closers && call in t.closers[thread]
    ensures Captured(t, call)
  {
    var thread :| thread in s.closers && call in s.closers[thread];
    assert thread in t.closers && call in t.closers[thread];
  }

  /** Every step keeps every waiting call tracked. */
  lemma StepKeepsTracked(s: State, step: Step, call: nat)
    requires Inv(s) && Enabled(s, step) && Live(Next(s, step), call)
    ensures Tracked(Next(s, step), call)
  {
    match step {
      case Close(thread) => CloseKeepsTracked(s, thread, call);
      case Notify(thread, other) => NotifyKeepsTracked(s, thread, other, call);
      case Register(other, request) => RegisterKeepsTracked(s, other, request, call);
      case _ => OtherStepKeepsTracked(s, step, call);
    }
  }

  lemma CloseKeepsTracked(s: State, thread: nat, call: nat)
    requires AllTracked(s) && Enabled(s, Close(thread)) && Live(s, call)
    ensures Tracked(Next(s, Close(thread)), call)
  {
    var t := Next(s, Close(thread));
    assert Tracked(s, call);
    if call !in s.buffers {
      if Registered(s, call) {
        assert call in t.closers[thread];
      } else {
        StillCaptured(s, t, call);
      }
    }
  }

  lemma NotifyKeepsTracked(s: State, thread: nat, other: nat, call: nat)
    requires AllTracked(s) && Enabled(s, Notify(thread, other)) && Live(s, call)
    ensures Tracked(Next(s, Notify(thread, other)), call)
  {
    var t := Next(s, Notify(thread, other));
    assert Tracked(s, call);
    if call !in t.buffers && Captured(s, call) {
      StillCaptured(s, t, call);
    }
  }

  lemma RegisterKeepsTracked(s: State, other: nat, request: string, call: nat)
    requires Inv(s) && Enabled(s, Register(other, request)) && Live(Next(s, Register(other, request)), call)
    ensures Tracked(Next(s, Register(other, request)), call)
  {
    var t := Next(s, Register(other, request));
    if call == other {
      assert Registered(t, call) && !t.closed;
    } else {
      assert Live(s, call) && Tracked(s, call);
      if Captured(s, call) {
        StillCaptured(s, t, call);
      }
    }
  }

  /** The other steps move one call and capture nothing. */
  lemma OtherStepKeepsTracked(s: State, step: Step, call: nat)
    requires AllTracked(s) && Enabled(s, step) && Live(Next(s, step), call)
    requires !step.Close? && !step.Notify? && !step.Register?
    ensures Tracked(Next(s, step), call)
  {
    var t := Next(s, step);
    assert Live(s, call) && Tracked(s, call);
    if Captured(s, call) {
      StillCaptured(s, t, call);
    }
  }

  lemma StepKeepsPending(s: State, step: Step)
    requires Inv(s) && Enabled(s, step)
    ensures PendingOwned(Next(s, step)) && (Next(s, step).closed ==> Next(s, step).pending == map[])
  {
  }

  lemma StepKeepsAnswers(s: State, step: Step)
    requires Inv(s) && Enabled(s, step)
    ensures AnswersOwnRequest(Next(s, step))
  {
    if step.LookUp? && step.request in s.pending {
      assert s.pending[step.request] in s.callers;
    }
  }

  lemma StepKeepsClosers(s: State, step: Step)
    requires Inv(s) && Enabled(s, step)
    ensures ClosersKnowCalls(Next(s, step))
  {
    var t := Next(s, step);
    forall thread, call | thread in t.closers && call in t.closers[thread] ensures call in t.callers {
      if step.Close? && thread == step.thread {
        var request :| request in s.pending && s.pending[request] == call;
      } else {
        assert thread in s.closers && call in s.closers[thread];
      }
    }
  }

  lemma StepKeepsInv(s: State, step: Step)
    requires Inv(s) && Enabled(s, step)
    ensures Inv(Next(s, step))
  {
    StepKeepsPending(s, step);
    StepKeepsAnswers(s, step);
    StepKeepsClosers(s, step);
    forall call | Live(Next(s, step), call) ensures Tracked(Next(s, step), call) {
      StepKeepsTracked(s, step, call);
    }
  }

  // ---------------------------------------------------------------------
  // Whole runs
  // ---------------------------------------------------------------------

  ghost predicate IsRun(run: seq<State>, steps: seq<Step>) {
    && |run| == |steps| + 1 && run[0] == INITIAL
    && forall i | 0 <= i < |steps| :: Enabled(run[i], steps[i]) && run[i + 1] == Next(run[i], steps[i])
  }

  /** In every interleaving: each waiting call has a delivery buffered, or is
      registered while the connection is open, or is still to be notified by a
      closer; closed means nothing is pending; no answer goes to the wrong call. */
  lemma {:induction false} NoLostWaiter(run: seq<State>, steps: seq<Step>)
    requires IsRun(run, steps)
    ensures Inv(run[|steps|])
    decreases |steps|
  {
    if steps == [] {
      InitialInv();
    } else {
      var n := |steps| - 1;
      NoLostWaiter(run[..n + 1], steps[..n]);
      StepKeepsInv(run[n], steps[n]);
    }
  }

  /** Once the connection is closed and every closer has finished notifying, each
      call still waiting can return at once. */
  lemma QuietMeansDelivered(run: seq<State>, steps: seq<Step>, call: nat)
    requires IsRun(run, steps)
    requires var s := run[|steps|]; s.closed && (forall thread | thread in s.closers :: s.closers[thread] == {}) && Live(s, call)
    ensures call in run[|steps|].buffers
  {
    NoLostWaiter(run, steps);
    assert Tracked(run[|steps|], call);
  }

  /** A call that has returned is not pending any more, so its request ID is free
      and the table holds only calls in progress. */
  lemma ReturnedIsForgotten(run: seq<State>, steps: seq<Step>, call: nat, request: string)
    requires IsRun(run, steps) && call in run[|steps|].callers && run[|steps|].callers[call].phase.Returned?
    requires request in run[|steps|].pending
    ensures run[|steps|].pending[request] != call
  {
    NoLostWaiter(run, steps);
  }

  /** What a call returns with answers its own request. */
  lemma AnswersMatch(run: seq<State>, steps: seq<Step>, call: nat, request: string)
    requires IsRun(run, steps) && call in run[|steps|].callers
    requires run[|steps|].callers[call].phase == Returned(Answered(Response(request)))
    ensures request == run[|steps|].callers[call].request
  {
    NoLostWaiter(run, steps);
    assert EndsWell(run[|steps|].callers[call]);
  }

  // ---------------------------------------------------------------------
  // How calls end
  // ---------------------------------------------------------------------

  /** The event of the run that an ending tells of. */
  ghost predicate Earned(run: seq<State>, steps: seq<Step>, call: nat, ending: Ending)
    requires |run| == |steps| + 1
  {
    match ending
    case Answered(Response(request)) => Responded(run, steps, call, request)
    case Answered(Disconnected) => run[|steps|].closed
    case Rejected => exists i :: 0 <= i < |steps| && steps[i].Register? && steps[i].call == call && steps[i].request in run[i].pending
    case WriteFailed => exists i :: 0 <= i < |steps| && steps[i] == WriteRequest(call, false)
    case Cancelled => exists i :: 0 <= i < |steps| && steps[i] == Cancel(call)
  }

  /** A response for the request was sent to the call. */
  ghost predicate Responded(run: seq<State>, steps: seq<Step>, call: nat, request: string)
    requires |run| == |steps| + 1
  {
    exists i :: 0 <= i < |steps| && steps[i].Send? && steps[i].thread in run[i].deliveries
      && run[i].deliveries[steps[i].thread] == InFlight(call, request)
  }

  predicate HasEnded(s: State, call: nat) {
    call in s.callers && (s.callers[call].phase.Leaving? || s.callers[call].phase.Returned?)
  }

  /** Every ending, every buffered delivery and every closer has its event. */
  ghost predicate Honest(run: seq<State>, steps: seq<Step>)
    requires |run| == |steps| + 1
  {
    var s := run[|steps|];
    && (forall call | HasEnded(s, call) :: Earned(run, steps, call, s.callers[call].phase.ending))
    && (forall call | call in s.buffers :: Earned(run, steps, call, Answered(s.buffers[call])))
    && (s.closers != map[] ==> s.closed)
  }

  lemma EarnedLasts(run: seq<State>, steps: seq<Step>, call: nat, ending: Ending)
    requires IsRun(run, steps) && steps != []
    requires Earned(run[..|steps|], steps[..|steps| - 1], call, ending)
    ensures Earned(run, steps, call, ending)
  {
    var n := |steps| - 1;
    assert run[..|steps|][n] == run[n] && run[n + 1] == Next(run[n], steps[n]);
    match ending
    case Answered(Response(request)) =>
      var i :| 0 <= i < n && steps[..n][i].Send? && steps[..n][i].thread in run[..n + 1][i].deliveries
               && run[..n + 1][i].deliveries[steps[..n][i].thread] == InFlight(call, request);
      assert steps[i].Send? && run[i].deliveries[steps[i].thread] == InFlight(call, request);
    case Answered(Disconnected) =>
    case Rejected =>
      var i :| 0 <= i < n && steps[..n][i].Register? && steps[..n][i].call == call && steps[..n][i].request in run[..n + 1][i].pending;
      assert steps[i].Register? && steps[i].call == call && steps[i].request in run[i].pending;
    case WriteFailed =>
      var i :| 0 <= i < n && steps[..n][i] == WriteRequest(call, false);
      assert steps[i] == WriteRequest(call, false);
    case Cancelled =>
      var i :| 0 <= i < n && steps[..n][i] == Cancel(call);
      assert steps[i] == Cancel(call);
  }

  /** Where a delivery that call has in b comes from. */
  ghost predicate DeliveryAccounted(a: State, b: State, run: seq<State>, steps: seq<Step>, call: nat)
    requires |run| == |steps| + 1
  {
    call in b.buffers ==>
      || (call in a.buffers && a.buffers[call] == b.buffers[call])
      || Earned(run, steps, call, Answered(b.buffers[call]))
  }

  /** Where the ending that call has in b comes from. */
  ghost predicate EndingAccounted(a: State, b: State, run: seq<State>, steps: seq<Step>, call: nat)
    requires |run| == |steps| + 1
  {
    HasEnded(b, call) ==>
      || (HasEnded(a, call) && a.callers[call].phase.ending == b.callers[call].phase.ending)
      || (call in a.buffers && b.callers[call].phase.ending == Answered(a.buffers[call]))
      || Earned(run, steps, call, b.callers[call].phase.ending)
  }

  lemma LastStepEarns(run: seq<State>, steps: seq<Step>, call: nat)
    requires IsRun(run, steps) && steps != []
    requires run[|steps| - 1].closers != map[] ==> run[|steps| - 1].closed
    ensures DeliveryAccounted(run[|steps| - 1], run[|steps|], run, steps, call)
    ensures EndingAccounted(run[|steps| - 1], run[|steps|], run, steps, call)
  {
    var n := |steps| - 1;
    assert Enabled(run[n], steps[n]) && run[n + 1] == Next(run[n], steps[n]);
  }

  /** In every run, no ending and no delivery is made up: a response was sent for it,
      a disconnection means that the connection is closed, a rejection that the
      request ID was taken, and so on. */
  lemma {:induction false} EndingsAreEarned(run: seq<State>, steps: seq<Step>)
    requires IsRun(run, steps)
    ensures Honest(run, steps)
    decreases |steps|
  {
    if steps != [] {
      var n := |steps| - 1;
      var a, b := run[n], run[n + 1];
      EndingsAreEarned(run[..n + 1], steps[..n]);
      assert run[..n + 1][n] == a && b == Next(a, steps[n]);
      forall call | HasEnded(b, call) ensures Earned(run, steps, call, b.callers[call].phase.ending) {
        LastStepEarns(run, steps, call);
        if Earned(run[..n + 1], steps[..n], call, b.callers[call].phase.ending) {
          EarnedLasts(run, steps, call, b.callers[call].phase.ending);
        }
      }
      forall call | call in b.buffers ensures Earned(run, steps, call, Answered(b.buffers[call])) {
        LastStepEarns(run, steps, call);
        if call in a.buffers && a.buffers[call] == b.buffers[call] {
          EarnedLasts(run, steps, call, Answered(b.buffers[call]));
        }
      }
    }
  }

  /** A call that ends in a disconnection, or has one waiting, is on a closed connection. */
  lemma DisconnectedMeansClosed(run: seq<State>, steps: seq<Step>, call: nat)
    requires IsRun(run, steps)
    requires
      var s := run[|steps|];
      || (call in s.buffers && s.buffers[call].Disconnected?)
      || (call in s.callers && s.callers[call].phase == Returned(Answered(Disconnected)))
    ensures run[|steps|].closed
  {
    EndingsAreEarned(run, steps);
  }

  /** A waiting call keeps the first delivery, whatever other threads do. */
  lemma FirstDeliveryStays(s: State, step: Step, call: nat)
    requires Enabled(s, step) && call in s.buffers
    ensures step == Receive(call) || (call in Next(s, step).buffers && Next(s, step).buffers[call] == s.buffers[call])
    ensures step == Receive(call) ==>
              call in Next(s, step).callers && Next(s, step).callers[call].phase == Leaving(Answered(s.buffers[call]))
  {
  }

  /** And what a call leaves with is what it returns. */
  lemma LeavingReturns(s: State, step: Step, call: nat)
    requires Enabled(s, step) && call in s.callers && s.callers[call].phase.Leaving?
    ensures call in Next(s, step).callers
    ensures Next(s, step).callers[call].phase ==
            if step == Remove(call) then Returned(s.callers[call].phase.ending) else s.callers[call].phase
  {
  }

  /** A response for a waiting call that has no delivery yet reaches it: looked up,
      sent, received and returned. */
  lemma ResponseArrives(s: State, thread: nat, call: nat) returns (end: State)
    requires Registered(s, call) && s.callers[call].phase.Waiting? && call !in s.buffers && thread !in s.deliveries
    ensures
      var request := s.callers[call].request;
      && end == Playback(s, [LookUp(thread, request), Send(thread), Receive(call), Remove(call)])
      && call in end.callers && end.callers[call] == Caller(request, Returned(Answered(Response(request))))
      && request !in end.pending
  {
    var request := s.callers[call].request;
    var looked := Next(s, LookUp(thread, request));
    var sent := Next(looked, Send(thread));
    var received := Next(sent, Receive(call));
    end := Next(received, Remove(call));
    PlaybackStep(received, Remove(call), []);
    PlaybackStep(sent, Receive(call), [Remove(call)]);
    PlaybackStep(looked, Send(thread), [Receive(call), Remove(call)]);
    PlaybackStep(s, LookUp(thread, request), [Send(thread), Receive(call), Remove(call)]);
  }

  /** A whole call on an open connection whose request ID is free. */
  lemma CallCompletes(s: State, thread: nat, call: nat, request: string) returns (end: State)
    requires !s.closed && call !in s.callers && request !in s.pending && call !in s.buffers && thread !in s.deliveries
    ensures
      && end == Playback(s, [Register(call, request), WriteRequest(call, true)] +
                            [LookUp(thread, request), Send(thread), Receive(call), Remove(call)])
      && call in end.callers && end.callers[call] == Caller(request, Returned(Answered(Response(request))))
      && request !in end.pending
  {
    var registered := Next(s, Register(call, request));
    var rest := [LookUp(thread, request), Send(thread), Receive(call), Remove(call)];
    end := ResponseArrives(Next(registered, WriteRequest(call, true)), thread, call);
    PlaybackStep(registered, WriteRequest(call, true), rest);
    PlaybackStep(s, Register(call, request), [WriteRequest(call, true)] + rest);
    assert [Register(call, request)] + ([WriteRequest(call, true)] + rest) == [Register(call, request), WriteRequest(call, true)] + rest;
  }

  lemma PlaybackStep(s: State, step: Step, rest: seq<Step>)
    requires Enabled(s, step)
    ensures Playback(s, [step] + rest) == Playback(Next(s, step), rest)
  {
    assert ([step] + rest)[1..] == rest;
  }

  // ---------------------------------------------------------------------
  // Progress
  // ---------------------------------------------------------------------

  /** From a closed state the closers' outstanding notices are enough to wake a
      waiting call: no other thread has to move. */
  lemma {:induction false} ClosersWake(s: State, call: nat, left: set<(nat, nat)>) returns (notices: seq<Step>, end: State)
    requires Inv(s) && s.closed && Live(s, call)
    requires left == set thread, c | thread in s.closers && c in s.closers[thread] :: (thread, c)
    ensures forall i | 0 <= i < |notices| :: notices[i].Notify?
    ensures end == Playback(s, notices) && Live(end, call) && call in end.buffers
    decreases left
  {
    if left == {} {
      notices, end := [], s;
      assert Tracked(s, call);
      assert forall thread, c | thread in s.closers && c in s.closers[thread] :: (thread, c) in left;
    } else {
      var pair :| pair in left;
      var step := Notify(pair.0, pair.1);
      var t := Next(s, step);
      StepKeepsInv(s, step);
      var fewer := set thread, c | thread in t.closers && c in t.closers[thread] :: (thread, c);
      forall p | p in fewer ensures p in left - {pair} {
      }
      assert fewer <= left - {pair};
      var rest: seq<Step>;
      rest, end := ClosersWake(t, call, fewer);
      notices := [step] + rest;
    }
  }

  /** Play steps, skipping those that are not enabled. */
  function Playback(s: State, steps: seq<Step>): State
    decreases |steps|
  {
    if steps == [] then s
    else Playback(if Enabled(s, steps[0]) then Next(s, steps[0]) else s, steps[1..])
  }

  // ---------------------------------------------------------------------
  // The connection as it runs
  // ---------------------------------------------------------------------

  /** Each method is one section under the mutex, or one send that does not
      block; it takes one step of the system. `s` is the whole system around the
      connection, callers and other threads included. */
  class AgentConnection {
    var pendingRPCs: map<string, nat>
    var closed: bool
    var channels: map<nat, Delivery>
    ghost var s: State

    ghost predicate Valid()
      reads this
    {
      Inv(s) && s.pending == pendingRPCs && s.closed == closed && s.buffers == channels
    }

    constructor ()
      ensures Valid() && s == INITIAL
    {
      pendingRPCs, closed, channels, s := map[], false, map[], INITIAL;
    }

    ghost method Take(step: Step)
      requires Inv(s) && Enabled(s, step)
      modifies this`s
      ensures s == Next(old(s), step) && Inv(s)
    {
      StepKeepsInv(s, step);
      s := Next(s, step);
    }

    /** The start of a call: None when it may go on to write its request. */
    method RegisterRPC(requestID: string, call: nat) returns (problem: Option<Ending>)
      requires Valid() && call !in s.callers
      modifies this
      ensures Valid() && s == Next(old(s), Register(call, requestID))
      ensures problem.None? <==> Live(s, call)
      ensures problem.None? ==> Registered(s, call) && !closed
      ensures problem.Some? ==> s.callers[call].phase == Returned(problem.value)
    {
      Take(Register(call, requestID));
      if closed {
        return Some(Answered(Disconnected));
      }
      if requestID in pendingRPCs {
        return Some(Rejected);
      }
      pendingRPCs := pendingRPCs[requestID := call];
      return None;
    }

    /** The end of a call, whatever its ending; an entry that belongs to another
        call stays. */
    method RemoveRPC(requestID: string, call: nat)
      requires Valid() && Enabled(s, Remove(call)) && s.callers[call].request == requestID
      modifies this
      ensures Valid() && s == Next(old(s), Remove(call))
      ensures forall request | request in pendingRPCs :: pendingRPCs[request] != call
    {
      Take(Remove(call));
      if requestID in pendingRPCs && pendingRPCs[requestID] == call {
        pendingRPCs := pendingRPCs - {requestID};
      }
    }

    method LookUpRPC(thread: nat, requestID: string) returns (channel: Option<nat>)
      requires Valid() && thread !in s.deliveries
      modifies this`s
      ensures Valid() && s == Next(old(s), LookUp(thread, requestID))
      ensures channel == if requestID in pendingRPCs then Some(pendingRPCs[requestID]) else None
      ensures channel.Some? ==> channel.value in s.callers && s.callers[channel.value].request == requestID
    {
      Take(LookUp(thread, requestID));
      return if requestID in pendingRPCs then Some(pendingRPCs[requestID]) else None;
    }

    /** The send of a response found by LookUpRPC; a full channel drops it. */
    method SendRPC(thread: nat, requestID: string, channel: nat)
      requires Valid() && thread in s.deliveries && s.deliveries[thread] == InFlight(channel, requestID)
      modifies this
      ensures Valid() && s == Next(old(s), Send(thread))
      ensures channels == if channel in old(channels) then old(channels) else old(channels)[channel := Response(requestID)]
    {
      Take(Send(thread));
      if channel !in channels {
        channels := channels[channel := Response(requestID)];
      }
    }

    /** One notice of a closer; a full channel drops it. */
    method NotifyClosed(thread: nat, call: nat)
      requires Valid() && Enabled(s, Notify(thread, call))
      modifies this`s, this`channels
      ensures Valid() && s == Next(old(s), Notify(thread, call))
      ensures channels == if call in old(channels) then old(channels) else old(channels)[call := Disconnected]
    {
      Take(Notify(thread, call));
      if call !in channels {
        channels := channels[call := Disconnected];
      }
    }

    /** The notices of one closer, in any order. */
    method NotifyAll(thread: nat, captured: set<nat>)
      requires Valid() && thread in s.closers && s.closers[thread] == captured
      modifies this`s, this`channels
      ensures Valid() && thread in s.closers && s.closers[thread] == {}
      ensures forall call | call in captured :: call in channels
      ensures forall call | call in old(channels) :: call in channels && channels[call] == old(channels)[call]
    {
      var left := captured;
      while left != {}
        invariant Valid() && thread in s.closers && s.closers[thread] == left <= captured
        invariant forall call | call in captured && call !in left :: call in channels
        invariant forall call | call in old(channels) :: call in channels && channels[call] == old(channels)[call]
        decreases left
      {
        var call :| call in left;
        left := left - {call};
        NotifyClosed(thread, call);
      }
    }

    /** Closing: capture the pending calls under the mutex, then notify each. */
    method ClosePendingRPCs(thread: nat)
      requires Valid() && thread !in s.closers
      modifies this
      ensures Valid() && closed && pendingRPCs == map[] && thread in s.closers && s.closers[thread] == {}
      ensures forall request | request in old(pendingRPCs) :: old(pendingRPCs)[request] in channels
      ensures forall call | call in old(channels) :: call in channels && channels[call] == old(channels)[call]
    {
      Take(Close(thread));
      var captured := set request | request in pendingRPCs :: pendingRPCs[request];
      pendingRPCs, closed := map[], true;
      NotifyAll(thread, captured);
    }
  }
}
