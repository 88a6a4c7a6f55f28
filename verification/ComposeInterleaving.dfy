/** Operations on many projects at once. Between its begin and its finish an
    operation takes small steps on its own project directory; the steps of
    different projects interleave freely, and a begin on a busy project is
    refused. The small steps are a parameter here: what matters is what they amount
    to when an operation runs alone. ComposeSteps gives those of the code. */
module ComposeInterleaving {
  import opened Wrappers
  import opened ComposeFiles
  import opened ComposeTransactions

  /** How one operation proceeds: its local state at the start, one step on the
      local state and the directory, and whether it is finished. */
  datatype Code<!L> = Code(start: (string, Op) -> L, step: (L, Option<Dir>) -> (L, Option<Dir>), finished: L -> bool)

  datatype Running<L> = Running(op: Op, local: L)

  /** `completed` records, for each project, the operations that finished. */
  datatype System<L> = System(
    dirs: map<string, Option<Dir>>,
    active: map<string, Running<L>>,
    completed: map<string, seq<Op>>)

  datatype Event = Begin(id: string, op: Op) | Step(id: string) | Finish(id: string)

  function DirOf<L>(s: System<L>, id: string): Option<Dir> {
    if id in s.dirs then s.dirs[id] else None
  }

  function CompletedOf<L>(s: System<L>, id: string): seq<Op> {
    if id in s.completed then s.completed[id] else []
  }

  /** An event that is not possible, a begin on a busy project among them,
      changes nothing. */
  function Next<L>(s: System<L>, e: Event, code: Code<L>): System<L> {
    match e
    case Begin(id, op) =>
      if id in s.active then s else s.(active := s.active[id := Running(op, code.start(id, op))])
    case Step(id) =>
      if id !in s.active || code.finished(s.active[id].local) then s
      else
        var (local, d) := code.step(s.active[id].local, DirOf(s, id));
        s.(active := s.active[id := s.active[id].(local := local)], dirs := s.dirs[id := d])
    case Finish(id) =>
      if id !in s.active || !code.finished(s.active[id].local) then s
      else s.(active := s.active - {id}, completed := s.completed[id := CompletedOf(s, id) + [s.active[id].op]])
  }

  function Play<L>(s: System<L>, events: seq<Event>, code: Code<L>): System<L>
    decreases |events|
  {
    if events == [] then s else Play(Next(s, events[0], code), events[1..], code)
  }

  /** An operation alone on its directory, after n steps. */
  function Alone<L>(id: string, op: Op, d: Option<Dir>, n: nat, code: Code<L>): (L, Option<Dir>) {
    if n == 0 then (code.start(id, op), d)
    else
      var (local, dir) := Alone(id, op, d, n - 1, code);
      code.step(local, dir)
  }

  /** Run alone to its finish, the code does what the operation is specified to do. */
  ghost predicate Implements<L(!new)>(code: Code<L>) {
    forall id: string, d: Option<Dir>, op: Op, n: nat ::
      code.finished(Alone(id, op, d, n, code).0) ==> Alone(id, op, d, n, code).1 == Do(id, d, op).0
  }

  /** Where a project stands: exactly where its completed operations, one after
      the other, and the steps of the one in progress, if any, would take it. */
  ghost predicate Serial<L>(s: System<L>, id: string, code: Code<L>) {
    var d := Run(id, None, CompletedOf(s, id));
    if id in s.active
    then exists n: nat :: (s.active[id].local, DirOf(s, id)) == Alone(id, s.active[id].op, d, n, code)
    else DirOf(s, id) == d
  }

  lemma {:induction false} RunAppends(id: string, d: Option<Dir>, ops: seq<Op>, op: Op)
    ensures Run(id, d, ops + [op]) == Do(id, Run(id, d, ops), op).0
    decreases |ops|
  {
    if ops == [] {
      assert [] + [op] == [op] && [op][1..] == [];
      assert Run(id, d, [op]) == Run(id, Do(id, d, op).0, []);
    } else {
      assert (ops + [op])[1..] == ops[1..] + [op];
      RunAppends(id, Do(id, d, ops[0]).0, ops[1..], op);
    }
  }

  lemma BeginStaysSerial<L(!new)>(s: System<L>, id: string, op: Op, code: Code<L>)
    requires Serial(s, id, code)
    ensures Serial(Next(s, Begin(id, op), code), id, code)
  {
    if id !in s.active {
      var after := Next(s, Begin(id, op), code);
      assert (after.active[id].local, DirOf(after, id)) == Alone(id, op, DirOf(s, id), 0, code);
    }
  }

  lemma StepStaysSerial<L(!new)>(s: System<L>, id: string, code: Code<L>)
    requires Serial(s, id, code)
    ensures Serial(Next(s, Step(id), code), id, code)
  {
    if id in s.active && !code.finished(s.active[id].local) {
      var d := Run(id, None, CompletedOf(s, id));
      var n: nat :| (s.active[id].local, DirOf(s, id)) == Alone(id, s.active[id].op, d, n, code);
      var after := Next(s, Step(id), code);
      assert (after.active[id].local, DirOf(after, id)) == Alone(id, s.active[id].op, d, n + 1, code);
    }
  }

  lemma FinishStaysSerial<L(!new)>(s: System<L>, id: string, code: Code<L>)
    requires Implements(code) && Serial(s, id, code)
    ensures Serial(Next(s, Finish(id), code), id, code)
  {
    if id in s.active && code.finished(s.active[id].local) {
      var d, op := Run(id, None, CompletedOf(s, id)), s.active[id].op;
      var n: nat :| (s.active[id].local, DirOf(s, id)) == Alone(id, op, d, n, code);
      assert DirOf(s, id) == Do(id, d, op).0;
      RunAppends(id, None, CompletedOf(s, id), op);
    }
  }

  lemma EventStaysSerial<L(!new)>(s: System<L>, e: Event, id: string, code: Code<L>)
    requires Implements(code) && Serial(s, id, code)
    ensures Serial(Next(s, e, code), id, code)
  {
    var after := Next(s, e, code);
    if e.id != id {
      assert DirOf(after, id) == DirOf(s, id) && CompletedOf(after, id) == CompletedOf(s, id);
      assert (id in after.active <==> id in s.active) && (id in s.active ==> after.active[id] == s.active[id]);
    } else {
      match e
      case Begin(_, op) => BeginStaysSerial(s, id, op, code);
      case Step(_) => StepStaysSerial(s, id, code);
      case Finish(_) => FinishStaysSerial(s, id, code);
    }
  }

  /** However the steps of different projects interleave, each project goes
      through its own operations one after the other. */
  lemma {:induction false} InterleavingIsSerial<L(!new)>(s: System<L>, events: seq<Event>, id: string, code: Code<L>)
    requires Implements(code) && Serial(s, id, code)
    ensures Serial(Play(s, events, code), id, code)
    decreases |events|
  {
    if events != [] {
      EventStaysSerial(s, events[0], id, code);
      InterleavingIsSerial(Next(s, events[0], code), events[1..], id, code);
    }
  }

  /** After any interleaving from nothing, a project with no operation in progress
      is where its completed operations alone would have taken it; after each of
      them it was within its window exactly when no faults parted its compose file
      from its revision, and then it is now. */
  lemma WindowOverInterleavings<L(!new)>(events: seq<Event>, id: string, code: Code<L>)
    requires Implements(code)
    requires id !in Play(System(map[], map[], map[]), events, code).active
    requires NormalRun(id, CompletedOf(Play(System(map[], map[], map[]), events, code), id))
    ensures
      var end := Play(System(map[], map[], map[]), events, code);
      var ops := CompletedOf(end, id);
      && DirOf(end, id) == Run(id, None, ops)
      && (WindowThroughout(id, None, ops) <==> AgreesRun(id, None, ops))
      && (AgreesRun(id, None, ops) ==> Window(id, DirOf(end, id)))
  {
    var s: System<L> := System(map[], map[], map[]);
    assert Run(id, None, []) == None;
    InterleavingIsSerial(s, events, id, code);
    WindowOverRuns(id, None, CompletedOf(Play(s, events, code), id));
  }
}
