/** The operations as small steps, one file written, restored or removed at a time,
    and the window under any interleaving of those steps. */
module ComposeSteps {
  import opened Wrappers
  import opened Sorted
  import opened ComposeFiles
  import opened ComposeTransactions
  import opened ComposeInterleaving

  /** What one deployment writes. */
  datatype Task = Task(existing: bool, yaml: string, env: string, m: Metadata, pull: bool, f: Faults)

  type Deployment = t: Task | t.m.revision >= 1
    witness Task(true, "", "", Metadata("", "", "", 1, ""), false,
                 Faults(true, true, Made, true, true, true, Written, true, Written, Written, Written,
                        true, true, Written, Written, Written, true, true, true, true, 0, true, true, true, true, true))

  /** The next effect; `backup` holds the captured files, `undone` tells an undo
      after Docker failed from one after a failed replacement. */
  datatype Stage =
    | Starting
    | WriteRevision(t: Deployment)
    | WriteCompose(t: Deployment)
    | WriteEnv(t: Deployment, backup: Dir)
    | WriteMetadata(t: Deployment, backup: Dir)
    | RunDocker(t: Deployment, backup: Dir)
    | UndoCompose(t: Deployment, backup: Dir, undone: bool)
    | UndoEnv(t: Deployment, backup: Dir, undone: bool)
    | UndoMetadata(t: Deployment, backup: Dir, undone: bool)
    | RemoveRevision(t: Deployment, undone: bool)
    | RemoveDirectory(t: Deployment)
    | PruneOne(left: nat)
    | Finished

  datatype Local = Local(id: string, op: Op, stage: Stage)

  function PruneGoal(m: map<nat, string>, f: Faults): nat {
    if !f.listForPrune then 0 else if Excess(m) <= f.removals then Excess(m) else f.removals
  }

  /** The first step loads the project, and for a new one makes its directory. */
  ghost function StepPrepare(id: string, op: Op, d: Option<Dir>): (Stage, Option<Dir>) {
    match op
    case ApplyOp(draft, now, f) =>
      (match Prepare(id, d, f)
       case NotReady(left) => (Finished, left)
       case Ready(dir, revision, existing) =>
         (WriteRevision(Task(existing, draft.composeYAML, draft.envFile, NextMetadata(id, draft, revision, now), draft.pullImages, f)),
          Some(dir)))
    case RollbackOp(valid, now, f) =>
      if RollbackBlocked(id, d, valid, f).Some? then (Finished, d)
      else
        var m := d.value.metadata.value;
        (WriteRevision(Task(true, d.value.revisions[Target(d.value.revisions, m.revision)], d.value.env.value,
                            m.(revision := m.revision + 1, updatedAt := now), false, f)),
         d)
    case ArchiveOp(f) => (Finished, Archive(id, d, f).0)
  }

  /** Every other step changes one file of the directory. */
  ghost function StepFile(stage: Stage, d: Dir): (Stage, Option<Dir>)
    requires !stage.Starting?
  {
    match stage
    case WriteRevision(t) =>
      (if t.f.revision.Written? then WriteCompose(t) else Finished,
       Some(d.(revisions := if t.f.revision.Refused? then d.revisions else d.revisions[t.m.revision := t.yaml])))
    case WriteCompose(t) =>
      if !t.f.capture then (RemoveRevision(t, false), Some(d))
      else
        (if t.f.compose.Written? then WriteEnv(t, d) else RemoveRevision(t, false),
         Some(d.(compose := Put(d.compose, t.yaml, t.f.compose))))
    case WriteEnv(t, backup) =>
      (if t.f.env.Written? then WriteMetadata(t, backup) else UndoCompose(t, backup, false),
       Some(d.(env := Put(d.env, t.env, t.f.env))))
    case WriteMetadata(t, backup) =>
      (if t.f.metadata.Written? then RunDocker(t, backup) else UndoCompose(t, backup, false),
       Some(d.(metadata := Put(d.metadata, t.m, t.f.metadata))))
    case RunDocker(t, backup) =>
      (if (t.pull && !t.f.pull) || !t.f.up then UndoCompose(t, backup, true) else PruneOne(PruneGoal(d.revisions, t.f)), Some(d))
    case UndoCompose(t, backup, undone) =>
      (UndoEnv(t, backup, undone), Some(d.(compose := Undo(d.compose, backup.compose, t.f.undoCompose))))
    case UndoEnv(t, backup, undone) =>
      (UndoMetadata(t, backup, undone), Some(d.(env := Undo(d.env, backup.env, t.f.undoEnv))))
    case UndoMetadata(t, backup, undone) =>
      (RemoveRevision(t, undone), Some(d.(metadata := Undo(d.metadata, backup.metadata, t.f.undoMetadata))))
    case RemoveRevision(t, undone) =>
      (if undone && !t.existing then RemoveDirectory(t) else Finished, Some(DropRevision(d, t.m.revision, t.f.removeRevision)))
    case RemoveDirectory(t) => (Finished, Cleanup(d, t.f.cleanup))
    case PruneOne(left) =>
      if left == 0 || d.revisions == map[] then (Finished, Some(d))
      else (PruneOne(left - 1), Some(d.(revisions := d.revisions - {Min(d.revisions.Keys)})))
    case Finished => (Finished, Some(d))
  }

  ghost function FileStep(local: Local, d: Option<Dir>): (Local, Option<Dir>) {
    if local.stage.Starting? then
      var (stage, dir) := StepPrepare(local.id, local.op, d);
      (local.(stage := stage), dir)
    else if d.None? then (local.(stage := Finished), d)
    else
      var (stage, dir) := StepFile(local.stage, d.value);
      (local.(stage := stage), dir)
  }

  ghost function FileCode(): Code<Local> {
    Code((id, op) => Local(id, op, Starting), (local, d) => FileStep(local, d), (local: Local) => local.stage.Finished?)
  }

  // ---------------------------------------------------------------------
  // Where the steps lead
  // ---------------------------------------------------------------------

  function Dropped(t: Deployment, undone: bool, d: Dir): Option<Dir> {
    var after := DropRevision(d, t.m.revision, t.f.removeRevision);
    if undone && !t.existing then Cleanup(after, t.f.cleanup) else Some(after)
  }

  ghost function Deployed(t: Deployment, backup: Dir, d: Dir): Option<Dir> {
    if (t.pull && !t.f.pull) || !t.f.up then Dropped(t, true, UndoFiles(d, backup, t.f))
    else Some(d.(revisions := Prune(d.revisions, t.f)))
  }

  ghost function Described(t: Deployment, backup: Dir, d: Dir): Option<Dir> {
    var after := d.(metadata := Put(d.metadata, t.m, t.f.metadata));
    if t.f.metadata.Written? then Deployed(t, backup, after) else Dropped(t, false, UndoFiles(after, backup, t.f))
  }

  ghost function Configured(t: Deployment, backup: Dir, d: Dir): Option<Dir> {
    var after := d.(env := Put(d.env, t.env, t.f.env));
    if t.f.env.Written? then Described(t, backup, after) else Dropped(t, false, UndoFiles(after, backup, t.f))
  }

  ghost function Composed(t: Deployment, d: Dir): Option<Dir> {
    if !t.f.capture then Dropped(t, false, d)
    else
      var after := d.(compose := Put(d.compose, t.yaml, t.f.compose));
      if t.f.compose.Written? then Configured(t, d, after) else Dropped(t, false, after)
  }

  /** The directory that the remaining steps will leave. */
  ghost function Rest(local: Local, d: Option<Dir>): Option<Dir> {
    if local.stage.Starting? then Do(local.id, d, local.op).0
    else if d.None? then None
    else
      match local.stage
      case WriteRevision(t) => Deploy(d.value, t.existing, t.yaml, t.env, t.m, t.pull, t.f).0
      case WriteCompose(t) => Composed(t, d.value)
      case WriteEnv(t, backup) => Configured(t, backup, d.value)
      case WriteMetadata(t, backup) => Described(t, backup, d.value)
      case RunDocker(t, backup) => Deployed(t, backup, d.value)
      case UndoCompose(t, backup, undone) => Dropped(t, undone, UndoFiles(d.value, backup, t.f))
      case UndoEnv(t, backup, undone) => Dropped(t, undone, UndoFiles(d.value, backup, t.f).(compose := d.value.compose))
      case UndoMetadata(t, backup, undone) =>
        Dropped(t, undone, d.value.(metadata := Undo(d.value.metadata, backup.metadata, t.f.undoMetadata)))
      case RemoveRevision(t, undone) => Dropped(t, undone, d.value)
      case RemoveDirectory(t) => Cleanup(d.value, t.f.cleanup)
      case PruneOne(left) => Some(d.value.(revisions := RemoveSmallest(d.value.revisions, left)))
      case Finished => d
  }

  lemma PrepareStepKeepsRest(id: string, op: Op, d: Option<Dir>)
    ensures var (stage, dir) := StepPrepare(id, op, d); Rest(Local(id, op, stage), dir) == Do(id, d, op).0
  {
  }

  /** Deploying from the second write on. */
  lemma DeployContinues(t: Deployment, d: Dir)
    ensures
      var d1 := d.(revisions := if t.f.revision.Refused? then d.revisions else d.revisions[t.m.revision := t.yaml]);
      Deploy(d, t.existing, t.yaml, t.env, t.m, t.pull, t.f).0 ==
      if t.f.revision.Written? then Composed(t, d1) else Some(d1)
  {
  }

  lemma FileStepKeepsRest(id: string, op: Op, stage: Stage, d: Dir)
    requires !stage.Starting?
    ensures var (next, dir) := StepFile(stage, d); Rest(Local(id, op, next), dir) == Rest(Local(id, op, stage), Some(d))
  {
    match stage
    case WriteRevision(t) => DeployContinues(t, d);
    case WriteCompose(t) => WriteStepKeepsRest(id, op, stage, d);
    case WriteEnv(t, backup) => WriteStepKeepsRest(id, op, stage, d);
    case WriteMetadata(t, backup) => WriteStepKeepsRest(id, op, stage, d);
    case RunDocker(t, backup) =>
      assert Prune(d.revisions, t.f) == RemoveSmallest(d.revisions, PruneGoal(d.revisions, t.f));
    case UndoCompose(t, backup, undone) => UndoStepKeepsRest(id, op, stage, d);
    case UndoEnv(t, backup, undone) => UndoStepKeepsRest(id, op, stage, d);
    case _ =>
  }

  lemma WriteStepKeepsRest(id: string, op: Op, stage: Stage, d: Dir)
    requires stage.WriteCompose? || stage.WriteEnv? || stage.WriteMetadata?
    ensures var (next, dir) := StepFile(stage, d); Rest(Local(id, op, next), dir) == Rest(Local(id, op, stage), Some(d))
  {
  }

  lemma UndoStepKeepsRest(id: string, op: Op, stage: Stage, d: Dir)
    requires stage.UndoCompose? || stage.UndoEnv?
    ensures var (next, dir) := StepFile(stage, d); Rest(Local(id, op, next), dir) == Rest(Local(id, op, stage), Some(d))
  {
    var after := StepFile(stage, d).1.value;
    var whole := UndoFiles(d, stage.backup, stage.t.f);
    if stage.UndoCompose? {
      assert UndoFiles(after, stage.backup, stage.t.f).(compose := after.compose) == whole;
    } else {
      assert after.(metadata := Undo(d.metadata, stage.backup.metadata, stage.t.f.undoMetadata)) == whole.(compose := d.compose);
    }
  }

  /** No step changes where the operation will end. */
  lemma StepKeepsRest(local: Local, d: Option<Dir>)
    ensures Rest(FileStep(local, d).0, FileStep(local, d).1) == Rest(local, d)
  {
    if local.stage.Starting? {
      PrepareStepKeepsRest(local.id, local.op, d);
    } else if d.Some? {
      FileStepKeepsRest(local.id, local.op, local.stage, d.value);
    }
  }

  lemma {:induction false} AloneKeepsRest(id: string, op: Op, d: Option<Dir>, n: nat)
    ensures var (local, dir) := Alone(id, op, d, n, FileCode()); Rest(local, dir) == Do(id, d, op).0
  {
    if n > 0 {
      AloneKeepsRest(id, op, d, n - 1);
      var (local, dir) := Alone(id, op, d, n - 1, FileCode());
      StepKeepsRest(local, dir);
    }
  }

  /** File by file, an operation that runs alone does what it is specified to do. */
  lemma FileCodeImplements()
    ensures Implements(FileCode())
  {
    forall id: string, d: Option<Dir>, op: Op, n: nat | FileCode().finished(Alone(id, op, d, n, FileCode()).0)
      ensures Alone(id, op, d, n, FileCode()).1 == Do(id, d, op).0
    {
      AloneKeepsRest(id, op, d, n);
    }
  }

  /** How many steps are left at most. */
  function Budget(local: Local): nat {
    match local.stage
    case Starting => 12 + (match local.op case ApplyOp(_, _, f) => f.removals case RollbackOp(_, _, f) => f.removals case ArchiveOp(_) => 0)
    case WriteRevision(t) => 11 + t.f.removals
    case WriteCompose(t) => 10 + t.f.removals
    case WriteEnv(t, _) => 9 + t.f.removals
    case WriteMetadata(t, _) => 8 + t.f.removals
    case RunDocker(t, _) => 7 + t.f.removals
    case UndoCompose(_, _, _) => 6
    case UndoEnv(_, _, _) => 5
    case UndoMetadata(_, _, _) => 4
    case RemoveRevision(_, _) => 3
    case RemoveDirectory(_) => 2
    case PruneOne(left) => 1 + left
    case Finished => 0
  }

  lemma StepSpendsBudget(local: Local, d: Option<Dir>)
    requires !local.stage.Finished?
    ensures Budget(FileStep(local, d).0) < Budget(local)
  {
  }

  lemma {:induction false} StepsRunOut(id: string, op: Op, d: Option<Dir>, n: nat) returns (end: nat)
    ensures FileCode().finished(Alone(id, op, d, end, FileCode()).0)
    decreases Budget(Alone(id, op, d, n, FileCode()).0)
  {
    var (local, dir) := Alone(id, op, d, n, FileCode());
    if local.stage.Finished? {
      end := n;
    } else {
      StepSpendsBudget(local, dir);
      assert Alone(id, op, d, n + 1, FileCode()) == FileStep(local, dir);
      end := StepsRunOut(id, op, d, n + 1);
    }
  }

  /** Every operation that runs alone finishes, and has then done exactly what it
      is specified to do. */
  lemma OperationsFinish(id: string, op: Op, d: Option<Dir>) returns (n: nat)
    ensures FileCode().finished(Alone(id, op, d, n, FileCode()).0)
    ensures Alone(id, op, d, n, FileCode()).1 == Do(id, d, op).0
  {
    n := StepsRunOut(id, op, d, 0);
    AloneKeepsRest(id, op, d, n);
  }

  /** So it is however the file steps of many projects interleave. */
  lemma WindowOverFileSteps(events: seq<Event>, id: string)
    requires id !in Play(System(map[], map[], map[]), events, FileCode()).active
    requires NormalRun(id, CompletedOf(Play(System(map[], map[], map[]), events, FileCode()), id))
    ensures
      var end := Play(System(map[], map[], map[]), events, FileCode());
      var ops := CompletedOf(end, id);
      && DirOf(end, id) == Run(id, None, ops)
      && (WindowThroughout(id, None, ops) <==> AgreesRun(id, None, ops))
      && (AgreesRun(id, None, ops) ==> Window(id, DirOf(end, id)))
  {
    FileCodeImplements();
    WindowOverInterleavings(events, id, FileCode());
  }
}
