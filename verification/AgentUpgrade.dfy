/** Self-upgrade of the agent as a system of atomic steps: the upgrading process,
    the process that systemd starts after it, and the rollback timer. The process
    may die between any two steps. The class at the end runs one upgrade over
    those steps.

    A binary is trusted once a process started from it has connected to the
    server. File contents are opaque strings. */
module AgentUpgrade {
  import opened Wrappers

  /** Where the agent process is. Down: none runs. Starting: one runs and has not
      connected. Confirming and Confirmed: it connected and is cancelling the
      rollback. Idle: no upgrade under way. The rest are the points between the
      effects of an upgrade run; Undoing and Undone cancel the rollback after the
      old binary was kept or put back. */
  datatype Phase =
    | Down | Starting | Confirming | Confirmed | Idle
    | Preparing | Downloaded(temp: string) | BackedUp(temp: string) | Scripted(temp: string)
    | Marked(temp: string) | TimerStopped(temp: string) | Unarmed | Armed(temp: string)
    | Replaced | RestartFailed | Undoing(again: bool) | Undone(again: bool) | Settled

  /** `trusted` and `previous` are bookkeeping: the binaries that have connected,
      and the one that the latest rename replaced. */
  datatype State = State(
    executable: string,
    backup: Option<string>,
    marker: bool,
    timer: bool,
    phase: Phase,
    trusted: set<string>,
    previous: string)

  /** os.WriteFile may leave the file behind and still report an error. */
  datatype Write = Done | Failed | DoneThenFailed

  datatype Step =
    | Crash | Reboot | SystemdStart | Connect | OldProcessConnects(marker: bool, timer: bool)
    | RemoveMarker(works: bool) | StopTimer(works: bool)
    | Begin | Abort | Download(content: string)
    | CopyToBackup(works: bool) | WriteScript(works: bool) | WriteMarker(write: Write)
    | StopOldTimer(works: bool) | ArmTimer(works: bool) | Rename(works: bool)
    | Restart(works: bool) | CopyBack(works: bool) | RestartAgain(works: bool)
    | Fire

  /** The process that was connected when the upgrade was asked for still runs. */
  predicate OldProcessRuns(p: Phase) {
    !p.Down? && !p.Starting? && !p.Confirming? && !p.Confirmed?
  }

  predicate HoldsDownload(p: Phase) {
    p.Downloaded? || p.BackedUp? || p.Scripted? || p.Marked? || p.TimerStopped? || p.Armed?
  }

  /** The recovery is being cancelled: only ever for a trusted binary. */
  predicate Cancelling(p: Phase) {
    p.Unarmed? || p.Undoing? || p.Undone? || p.Settled? || p.Confirming? || p.Confirmed?
  }

  predicate Enabled(s: State, step: Step, accepts: string -> bool) {
    match step
    case Crash => !s.phase.Down?
    case Reboot => true
    case SystemdStart => s.phase.Down?
    case Connect => s.phase.Starting?
    case OldProcessConnects(_, _) => OldProcessRuns(s.phase)
    case RemoveMarker(_) => s.phase.Confirming? || s.phase.Undoing? || s.phase.Unarmed?
    case StopTimer(_) => s.phase.Confirmed? || s.phase.Undone?
    case Begin => s.phase.Idle?
    case Abort => s.phase.Preparing?
    case Download(content) => s.phase.Preparing? && accepts(content)
    case CopyToBackup(_) => s.phase.Downloaded?
    case WriteScript(_) => s.phase.BackedUp?
    case WriteMarker(_) => s.phase.Scripted?
    case StopOldTimer(_) => s.phase.Marked?
    case ArmTimer(_) => s.phase.TimerStopped?
    case Rename(_) => s.phase.Armed?
    case Restart(_) => s.phase.Replaced?
    case CopyBack(_) => s.phase.RestartFailed?
    case RestartAgain(_) => s.phase.Settled?
    case Fire => s.timer
  }

  /** The effect of one step. The two copies and the rename replace their target
      atomically. The rollback script runs as one step that ends the process. */
  function Next(s: State, step: Step, accepts: string -> bool): State
    requires Enabled(s, step, accepts)
  {
    match step
    case Crash => s.(phase := Down)
    case Reboot => s.(phase := Down, timer := false)
    case SystemdStart => s.(phase := Starting)
    case Connect => s.(phase := Confirming, trusted := s.trusted + {s.executable})
    case OldProcessConnects(m, t) => s.(marker := s.marker && !m, timer := s.timer && !t)
    case RemoveMarker(works) =>
      s.(marker := s.marker && !works,
         phase := if s.phase.Confirming? then Confirmed
                  else if s.phase.Undoing? then Undone(s.phase.again)
                  else Idle)
    case StopTimer(works) =>
      s.(timer := s.timer && !works,
         phase := if s.phase.Undone? && s.phase.again then Settled else Idle)
    case Begin => s.(phase := Preparing)
    case Abort => s.(phase := Idle)
    case Download(content) => s.(phase := Downloaded(content))
    case CopyToBackup(works) =>
      if works then s.(backup := Some(s.executable), phase := BackedUp(s.phase.temp)) else s.(phase := Idle)
    case WriteScript(works) => s.(phase := if works then Scripted(s.phase.temp) else Idle)
    case WriteMarker(w) =>
      s.(marker := s.marker || !w.Failed?, phase := if w.Done? then Marked(s.phase.temp) else Idle)
    case StopOldTimer(works) => s.(timer := s.timer && !works, phase := TimerStopped(s.phase.temp))
    case ArmTimer(works) => if works then s.(timer := true, phase := Armed(s.phase.temp)) else s.(phase := Unarmed)
    case Rename(works) =>
      if works then s.(executable := s.phase.temp, previous := s.executable, phase := Replaced)
      else s.(phase := Undoing(false))
    case Restart(works) => s.(phase := if works then Starting else RestartFailed)
    case CopyBack(works) =>
      if works && s.backup.Some? then s.(executable := s.backup.value, phase := Undoing(true)) else s.(phase := Idle)
    case RestartAgain(works) => s.(phase := if works then Starting else Idle)
    case Fire =>
      if s.marker && s.backup.Some?
      then s.(executable := s.backup.value, marker := false, timer := false, phase := Down)
      else s.(timer := false)
  }

  predicate Path(s: State, steps: seq<Step>, accepts: string -> bool)
    decreases |steps|
  {
    steps == [] || (Enabled(s, steps[0], accepts) && Path(Next(s, steps[0], accepts), steps[1..], accepts))
  }

  function Play(s: State, steps: seq<Step>, accepts: string -> bool): State
    requires Path(s, steps, accepts)
    decreases |steps|
  {
    if steps == [] then s else Play(Next(s, steps[0], accepts), steps[1..], accepts)
  }

  // Which binary is installed

  /** Every copy of the agent on disk is the one installed at the beginning or a
      download that passed the checks. */
  predicate Whole(s: State, initial: string, accepts: string -> bool) {
    && (s.executable == initial || accepts(s.executable))
    && (s.backup.Some? ==> s.backup.value == initial || accepts(s.backup.value))
    && (HoldsDownload(s.phase) ==> accepts(s.phase.temp))
  }

  lemma StepIsWhole(s: State, step: Step, initial: string, accepts: string -> bool)
    requires Enabled(s, step, accepts) && Whole(s, initial, accepts)
    ensures Whole(Next(s, step, accepts), initial, accepts)
  {
    var after := Next(s, step, accepts);
    match step {
      case Download(_) => assert accepts(after.phase.temp);
      case CopyToBackup(_) => assert after.backup.Some? ==> after.backup == Some(s.executable) || after.backup == s.backup;
      case _ =>
    }
  }

  lemma {:induction false} ExecutableIsWhole(s: State, steps: seq<Step>, initial: string, accepts: string -> bool)
    requires Path(s, steps, accepts) && Whole(s, initial, accepts)
    ensures Whole(Play(s, steps, accepts), initial, accepts)
    decreases |steps|
  {
    if steps != [] {
      StepIsWhole(s, steps[0], initial, accepts);
      ExecutableIsWhole(Next(s, steps[0], accepts), steps[1..], initial, accepts);
    }
  }

  // Whether an unconfirmed binary can still be rolled back

  /** An installed binary that never connected has the marker, the timer and the
      binary it replaced standing behind it; and the run is never further than
      its recovery set-up allows. */
  predicate Inv(s: State) {
    && (s.executable in s.trusted || (s.marker && s.timer && s.backup == Some(s.previous)))
    && (s.backup.Some? ==> s.backup.value in s.trusted)
    && (HoldsDownload(s.phase) && !s.phase.Downloaded? ==> s.backup == Some(s.executable))
    && (s.phase.Marked? || s.phase.TimerStopped? || s.phase.Armed? ==> s.marker)
    && (s.phase.Armed? ==> s.timer)
    && (Cancelling(s.phase) ==> s.executable in s.trusted)
    && (s.phase.Replaced? || s.phase.RestartFailed? ==> s.backup.Some?)
  }

  /** The steps that take the recovery away from an unconfirmed binary: the old
      process confirming in place of the new one, a second upgrade backing the
      unconfirmed binary up, and a reboot, which forgets the transient timer. */
  predicate Hazard(s: State, step: Step) {
    match step
    case OldProcessConnects(m, t) =>
      || (s.executable !in s.trusted && (m || t))
      || ((s.phase.Marked? || s.phase.TimerStopped?) && m)
      || (s.phase.Armed? && (m || t))
    case CopyToBackup(works) => works && s.executable !in s.trusted
    case Reboot => s.executable !in s.trusted
    case _ => false
  }

  /** One step keeps the invariant, the order of the recovery set-up included,
      exactly when it is not a hazard. */
  lemma StepKeepsRecovery(s: State, step: Step, accepts: string -> bool)
    requires Inv(s) && Enabled(s, step, accepts)
    ensures Inv(Next(s, step, accepts)) <==> !Hazard(s, step)
  {
  }

  predicate HazardFree(s: State, steps: seq<Step>, accepts: string -> bool)
    requires Path(s, steps, accepts)
    decreases |steps|
  {
    steps == []
    || (!Hazard(s, steps[0]) && HazardFree(Next(s, steps[0], accepts), steps[1..], accepts))
  }

  /** Wherever a hazard-free run stops, the installed binary has connected, or
      letting the timer fire puts back the one it replaced, which has. */
  lemma {:induction false} CrashSafety(s: State, steps: seq<Step>, accepts: string -> bool)
    requires Inv(s) && Path(s, steps, accepts) && HazardFree(s, steps, accepts)
    ensures var end := Play(s, steps, accepts);
      && Inv(end)
      && (end.executable in end.trusted
          || (Enabled(end, Fire, accepts) && Next(end, Fire, accepts).executable == end.previous
              && end.previous in end.trusted))
    decreases |steps|
  {
    if steps != [] {
      StepKeepsRecovery(s, steps[0], accepts);
      CrashSafety(Next(s, steps[0], accepts), steps[1..], accepts);
    }
  }

  /** A connected agent that was never upgraded. */
  function Installed(executable: string): State {
    State(executable, None, false, false, Idle, {executable}, executable)
  }

  /** From the installation on, in every run: the executable is the first binary
      or a checked download; without hazards it is also trusted or can be rolled
      back to the trusted one it replaced. */
  lemma EveryRunIsSafe(initial: string, steps: seq<Step>, accepts: string -> bool)
    requires Path(Installed(initial), steps, accepts)
    ensures
      var end := Play(Installed(initial), steps, accepts);
      && (end.executable == initial || accepts(end.executable))
      && (HazardFree(Installed(initial), steps, accepts) && end.executable !in end.trusted ==>
            Enabled(end, Fire, accepts) && Next(end, Fire, accepts).executable == end.previous && end.previous in end.trusted)
  {
    ExecutableIsWhole(Installed(initial), steps, initial, accepts);
    if HazardFree(Installed(initial), steps, accepts) {
      CrashSafety(Installed(initial), steps, accepts);
    }
  }

  /** The steps between two confirmations or two upgrades. */
  predicate Undecided(steps: seq<Step>) {
    forall i :: 0 <= i < |steps| ==> !steps[i].Connect? && !steps[i].Begin?
  }

  /** `latest`, never connected, is installed over `former`; or `former` is back and no
      upgrade is under way. */
  predicate OldOrNew(s: State, former: string, latest: string) {
    && s.backup == Some(former) && former in s.trusted
    && ((s.executable == latest && latest !in s.trusted && s.previous == former)
        || (s.executable == former
            && (s.phase.Down? || s.phase.Starting? || s.phase.Idle? || s.phase.Undoing? || s.phase.Undone? || s.phase.Settled?)))
  }

  /** Until the new binary connects or another upgrade begins, the executable is
      the whole new binary, recoverable, or the whole old one. */
  lemma {:induction false} OldOrNewUntilDecided(s: State, steps: seq<Step>, former: string, latest: string, accepts: string -> bool)
    requires Inv(s) && OldOrNew(s, former, latest)
    requires Path(s, steps, accepts) && HazardFree(s, steps, accepts) && Undecided(steps)
    ensures OldOrNew(Play(s, steps, accepts), former, latest)
    decreases |steps|
  {
    if steps != [] {
      assert !steps[0].Connect? && !steps[0].Begin?;
      StepKeepsRecovery(s, steps[0], accepts);
      OldOrNewUntilDecided(Next(s, steps[0], accepts), steps[1..], former, latest, accepts);
    }
  }

  // What each step touches

  /** Nothing but the named steps changes the files, the timer and the trust. */
  lemma StepTouchesOnly(s: State, step: Step, accepts: string -> bool)
    requires Enabled(s, step, accepts)
    ensures
      var t := Next(s, step, accepts);
      && (t.executable != s.executable ==> step in {Rename(true), CopyBack(true), Fire})
      && (t.backup != s.backup ==> step == CopyToBackup(true) && t.backup == Some(s.executable))
      && (t.marker && !s.marker ==> step.WriteMarker? && !step.write.Failed?)
      && (!t.marker && s.marker ==> step in {RemoveMarker(true), Fire} || step.OldProcessConnects?)
      && (t.timer && !s.timer ==> step == ArmTimer(true))
      && (!t.timer && s.timer ==> step in {StopTimer(true), StopOldTimer(true), Reboot, Fire} || step.OldProcessConnects?)
      && t.trusted == s.trusted + (if step.Connect? then {s.executable} else {})
  {
  }

  /** A fired timer whose marker still stands puts the backup back, and is spent. */
  lemma FireRestoresBackup(s: State, accepts: string -> bool)
    requires Enabled(s, Fire, accepts)
    ensures
      var t := Next(s, Fire, accepts);
      && !t.timer
      && t.executable == (if s.marker && s.backup.Some? then s.backup.value else s.executable)
      && (s.backup.Some? ==> !t.marker)
  {
  }

  /** How processes come and go. */
  lemma ProcessLife(s: State, step: Step, accepts: string -> bool)
    requires Enabled(s, step, accepts)
    ensures step.Crash? || step.Reboot? ==> Next(s, step, accepts).phase.Down?
    ensures step.SystemdStart? || step == Restart(true) || step == RestartAgain(true) ==> Next(s, step, accepts).phase.Starting?
    ensures step.Connect? <==> Next(s, step, accepts).phase.Confirming? && !s.phase.Confirming?
    ensures step.Fire? && s.marker && s.backup.Some? ==> Next(s, step, accepts).phase.Down?
  {
  }

  // Confirmation

  /** No upgrade has got as far as its marker. */
  predicate BeforeMarker(p: Phase) {
    || p.Down? || p.Starting? || p.Confirming? || p.Confirmed? || p.Idle?
    || p.Preparing? || p.Downloaded? || p.BackedUp? || p.Scripted?
  }

  lemma {:induction false} UnmarkedStays(s: State, steps: seq<Step>, accepts: string -> bool)
    requires !s.marker && BeforeMarker(s.phase) && Path(s, steps, accepts)
    requires forall i :: 0 <= i < |steps| ==> !steps[i].WriteMarker?
    ensures Play(s, steps, accepts).executable == s.executable && !Play(s, steps, accepts).marker
    decreases |steps|
  {
    if steps != [] {
      assert !steps[0].WriteMarker?;
      UnmarkedStays(Next(s, steps[0], accepts), steps[1..], accepts);
    }
  }

  lemma {:induction false} StoppedStays(s: State, steps: seq<Step>, accepts: string -> bool)
    requires !s.timer && Path(s, steps, accepts)
    requires forall i :: 0 <= i < |steps| ==> !steps[i].ArmTimer?
    ensures !Play(s, steps, accepts).timer
    decreases |steps|
  {
    if steps != [] {
      assert !steps[0].ArmTimer?;
      StoppedStays(Next(s, steps[0], accepts), steps[1..], accepts);
    }
  }

  /** Once a process has connected and removed the marker, its binary stays installed
      until another upgrade writes a marker: no firing, crash or reboot replaces it. */
  lemma ConfirmationIsFinal(s: State, steps: seq<Step>, accepts: string -> bool)
    requires s.phase.Starting?
    requires Path(AfterConfirming(s, accepts), steps, accepts) && forall i :: 0 <= i < |steps| ==> !steps[i].WriteMarker?
    ensures Play(AfterConfirming(s, accepts), steps, accepts).executable == s.executable
    ensures s.executable in AfterConfirming(s, accepts).trusted
  {
    UnmarkedStays(AfterConfirming(s, accepts), steps, accepts);
  }

  /** A new process has connected and removed the marker. */
  function AfterConfirming(s: State, accepts: string -> bool): State
    requires s.phase.Starting?
  {
    Next(Next(s, Connect, accepts), RemoveMarker(true), accepts)
  }

  /** And once it has stopped the timer, no rollback fires until another is armed. */
  lemma StoppedTimerIsFinal(s: State, steps: seq<Step>, accepts: string -> bool)
    requires s.phase.Starting?
    requires Path(Next(AfterConfirming(s, accepts), StopTimer(true), accepts), steps, accepts)
    requires forall i :: 0 <= i < |steps| ==> !steps[i].ArmTimer?
    ensures !Enabled(Play(Next(AfterConfirming(s, accepts), StopTimer(true), accepts), steps, accepts), Fire, accepts)
  {
    StoppedStays(Next(AfterConfirming(s, accepts), StopTimer(true), accepts), steps, accepts);
  }

  /** The installed binary has connected, or firing the timer restores one that has. */
  predicate Recoverable(s: State, accepts: string -> bool) {
    s.executable in s.trusted || (Enabled(s, Fire, accepts) && Next(s, Fire, accepts).executable in s.trusted)
  }

  /** What a step loses at once: the recovery is gone exactly after a hazard while a
      binary is installed that never connected. A reconnection between the marker and
      the rename comes before that binary and loses it only then. */
  lemma LosesRecoveryIff(s: State, step: Step, accepts: string -> bool)
    requires Inv(s) && Enabled(s, step, accepts)
    ensures !Recoverable(Next(s, step, accepts), accepts) <==> Hazard(s, step) && s.executable !in s.trusted
  {
    var after := Next(s, step, accepts);
    if Hazard(s, step) {
      assert s.executable in s.trusted ==> after.executable in after.trusted;
    } else {
      StepKeepsRecovery(s, step, accepts);
      assert after.executable in after.trusted || (after.marker && after.timer && after.backup.Some?);
    }
  }

  /** No firing of the timer brings another binary back. */
  predicate NoWayBack(s: State) {
    && s.executable !in s.trusted && (s.phase.Down? || s.phase.Starting?)
    && (s.marker && s.timer && s.backup.Some? ==> s.backup.value == s.executable)
  }

  lemma {:induction false} StrandedUntilConnected(s: State, steps: seq<Step>, accepts: string -> bool)
    requires NoWayBack(s) && Path(s, steps, accepts) && (forall i :: 0 <= i < |steps| ==> !steps[i].Connect?)
    ensures NoWayBack(Play(s, steps, accepts)) && Play(s, steps, accepts).executable == s.executable
    decreases |steps|
  {
    if steps != [] {
      assert !steps[0].Connect?;
      StrandedUntilConnected(Next(s, steps[0], accepts), steps[1..], accepts);
    }
  }

  /** Each of the three hazards strands a binary that never connected as soon as its
      process is down: a reconnection of the old process, a second backup, a reboot. */
  lemma HazardStrands(s: State, step: Step, accepts: string -> bool)
    requires Inv(s) && Enabled(s, step, accepts) && Hazard(s, step) && s.executable !in s.trusted
    ensures var after := Next(s, step, accepts);
      NoWayBack(if after.phase.Down? then after else Next(after, Crash, accepts))
  {
  }

  lemma UnarmedReplacementStrands(s: State, accepts: string -> bool)
    requires s.phase.Armed? && s.phase.temp !in s.trusted && !(s.marker && s.timer)
    ensures Path(s, [Rename(true), Restart(true)], accepts)
    ensures NoWayBack(Play(s, [Rename(true), Restart(true)], accepts))
  {
    var b := Next(s, Rename(true), accepts);
    assert [Rename(true), Restart(true)][1..] == [Restart(true)];
    assert Path(Next(b, Restart(true), accepts), [], accepts);
    assert Play(b, [Restart(true)], accepts) == Next(b, Restart(true), accepts);
  }

  lemma PathFollows(s: State, step: Step, steps: seq<Step>, accepts: string -> bool)
    requires Enabled(s, step, accepts) && Path(Next(s, step, accepts), steps, accepts)
    ensures Path(s, [step] + steps, accepts)
    ensures Play(s, [step] + steps, accepts) == Play(Next(s, step, accepts), steps, accepts)
  {
    assert ([step] + steps)[1..] == steps;
  }

  /** A reconnection of the old process anywhere between the marker and the rename
      that is a hazard strands the new binary when the upgrade goes on. */
  lemma ReconnectionStrands(s: State, marker: bool, timer: bool, accepts: string -> bool) returns (steps: seq<Step>)
    requires Inv(s) && (s.phase.Marked? || s.phase.TimerStopped? || s.phase.Armed?) && s.phase.temp !in s.trusted
    requires Hazard(s, OldProcessConnects(marker, timer))
    ensures Path(s, [OldProcessConnects(marker, timer)] + steps, accepts)
    ensures NoWayBack(Play(s, [OldProcessConnects(marker, timer)] + steps, accepts))
  {
    var lost := Next(s, OldProcessConnects(marker, timer), accepts);
    steps := [Rename(true), Restart(true)];
    if s.phase.Armed? {
      UnarmedReplacementStrands(lost, accepts);
    } else {
      var stopped := if s.phase.Marked? then Next(lost, StopOldTimer(true), accepts) else lost;
      UnarmedReplacementStrands(Next(stopped, ArmTimer(true), accepts), accepts);
      PathFollows(stopped, ArmTimer(true), steps, accepts);
      steps := [ArmTimer(true)] + steps;
      if s.phase.Marked? {
        PathFollows(lost, StopOldTimer(true), steps, accepts);
        steps := [StopOldTimer(true)] + steps;
      }
    }
    PathFollows(s, OldProcessConnects(marker, timer), steps, accepts);
  }

  // One upgrade, as the agent runs it

  lemma {:induction false} PlayAppends(s: State, steps: seq<Step>, step: Step, accepts: string -> bool)
    requires Path(s, steps, accepts) && Enabled(Play(s, steps, accepts), step, accepts)
    ensures Path(s, steps + [step], accepts)
    ensures Play(s, steps + [step], accepts) == Next(Play(s, steps, accepts), step, accepts)
    decreases |steps|
  {
    if steps == [] {
      assert Path(Next(s, step, accepts), [], accepts);
      assert [] + [step] == [step] && [step][1..] == [];
    } else {
      PlayAppends(Next(s, steps[0], accepts), steps[1..], step, accepts);
      assert (steps + [step])[1..] == steps[1..] + [step];
    }
  }

  /** How each foreign effect of one run turns out. */
  datatype Outcomes = Outcomes(
    backup: bool, script: bool, marker: Write, stopOld: bool, arm: bool, rename: bool,
    restart: bool, copyBack: bool, unmark: bool, stop: bool, again: bool)

  datatype Answer = Accepted | Invalid | InProgress

  datatype Report =
    | PrepareFailed | BackupFailed | RecoverySetupFailed | ReplaceFailed | Restarted | NotRestored | PutBack

  /** What each report means for the installed binary and the recovery. */
  predicate Reported(before: State, after: State, report: Report, download: Option<string>, accepts: string -> bool) {
    match report
    case PrepareFailed | BackupFailed => after == before
    case RecoverySetupFailed | ReplaceFailed =>
      && after.phase.Idle? && after.executable == before.executable && after.trusted == before.trusted
      && after.backup == Some(before.executable)
    case Restarted | NotRestored =>
      && download.Some? && accepts(download.value) && after.executable == download.value
      && after.backup == Some(before.executable) && after.previous == before.executable
      && after.marker && after.timer && after.trusted == before.trusted
      && (if report.Restarted? then after.phase.Starting? else after.phase.Idle?)
    case PutBack =>
      && after.executable == before.executable && after.trusted == before.trusted
      && (after.phase.Starting? || after.phase.Idle?)
  }

  /** Which effect failed for each report; `got` tells that the download passed. */
  predicate ReportedWhen(report: Report, got: bool, o: Outcomes) {
    var armed := got && o.backup && o.script && o.marker.Done? && o.arm;
    && (report.PrepareFailed? <==> !got)
    && (report.BackupFailed? <==> got && !o.backup)
    && (report.RecoverySetupFailed? <==> got && o.backup && !armed)
    && (report.ReplaceFailed? <==> armed && !o.rename)
    && (report.Restarted? <==> armed && o.rename && o.restart)
    && (report.NotRestored? <==> armed && o.rename && !o.restart && !o.copyBack)
    && (report.PutBack? <==> armed && o.rename && !o.restart && o.copyBack)
  }

  class Upgrader {
    const accepts: string -> bool
    var running: bool
    var state: State
    ghost var origin: State
    ghost var log: seq<Step>

    /** The state on disk is the one that the steps taken so far lead to. */
    ghost predicate Valid()
      reads this
    {
      Path(origin, log, accepts) && Play(origin, log, accepts) == state
    }

    constructor (initial: State, accepts: string -> bool)
      ensures Valid() && state == initial && this.accepts == accepts && !running && log == []
    {
      this.accepts := accepts;
      running, state, origin, log := false, initial, initial, [];
    }

    method Take(step: Step)
      requires Valid() && Enabled(state, step, accepts)
      modifies this`state, this`log
      ensures Valid() && log == old(log) + [step]
      ensures state == Next(old(state), step, accepts)
      ensures Inv(old(state)) ==> (Inv(state) <==> !Hazard(old(state), step))
    {
      PlayAppends(origin, log, step, accepts);
      if Inv(state) {
        StepKeepsRecovery(state, step, accepts);
      }
      state := Next(state, step, accepts);
      log := log + [step];
    }

    /** The answer to a request, given at once; an accepted upgrade then runs in
        the background, as Run. */
    method Start(valid: bool) returns (answer: Answer)
      modifies this`running
      ensures answer.Invalid? <==> !valid
      ensures answer.InProgress? <==> valid && old(running)
      ensures running == (old(running) || answer.Accepted?)
    {
      if !valid {
        return Invalid;
      }
      if running {
        return InProgress;
      }
      running := true;
      return Accepted;
    }

    /** From the download to the restart, giving up at the first effect that fails;
        the next upgrade may start when it returns. */
    method Run(download: Option<string>, o: Outcomes) returns (report: Report)
      requires Valid() && running && state.phase.Idle?
      modifies this
      ensures Valid() && old(log) <= log && !running
      ensures Reported(old(state), state, report, download, accepts)
      ensures ReportedWhen(report, download.Some? && accepts(download.value), o)
      ensures Inv(old(state)) && old(state).executable in old(state).trusted ==> Inv(state)
    {
      report := RunEffects(download, o);
      running := false;
    }

    method RunEffects(download: Option<string>, o: Outcomes) returns (report: Report)
      requires Valid() && state.phase.Idle?
      modifies this`state, this`log
      ensures Valid() && old(log) <= log
      ensures Reported(old(state), state, report, download, accepts)
      ensures ReportedWhen(report, download.Some? && accepts(download.value), o)
      ensures Inv(old(state)) && old(state).executable in old(state).trusted ==> Inv(state)
    {
      var backedUp := BackUp(download, o);
      if !backedUp {
        return if download.None? || !accepts(download.value) then PrepareFailed else BackupFailed;
      }
      var armed := SetUpRecovery(o);
      if !armed {
        return RecoverySetupFailed;
      }
      report := Replace(o);
    }

    method BackUp(download: Option<string>, o: Outcomes) returns (done: bool)
      requires Valid() && state.phase.Idle?
      modifies this`state, this`log
      ensures Valid() && old(log) <= log
      ensures done <==> download.Some? && accepts(download.value) && o.backup
      ensures state == if done then old(state).(backup := Some(old(state).executable), phase := BackedUp(download.value))
                       else old(state)
      ensures Inv(old(state)) && old(state).executable in old(state).trusted ==> Inv(state)
    {
      Take(Begin);
      if download.None? || !accepts(download.value) {
        Take(Abort);
        return false;
      }
      Take(Download(download.value));
      Take(CopyToBackup(o.backup));
      done := o.backup;
    }

    method SetUpRecovery(o: Outcomes) returns (armed: bool)
      requires Valid() && state.phase.BackedUp? && state.backup == Some(state.executable)
      modifies this`state, this`log
      ensures Valid() && old(log) <= log
      ensures armed <==> o.script && o.marker.Done? && o.arm
      ensures state.executable == old(state).executable && state.trusted == old(state).trusted
        && state.backup == old(state).backup
      ensures if armed then state.phase == Armed(old(state).phase.temp) && state.marker && state.timer
        else state.phase.Idle?
      ensures Inv(old(state)) ==> Inv(state)
    {
      armed := false;
      Take(WriteScript(o.script));
      if !o.script {
        return;
      }
      Take(WriteMarker(o.marker));
      if !o.marker.Done? {
        return;
      }
      armed := ScheduleRecovery(o);
    }

    /** The old timer stopped and a new one armed; where that fails the marker goes
        again. */
    method ScheduleRecovery(o: Outcomes) returns (armed: bool)
      requires Valid() && state.phase.Marked?
      modifies this`state, this`log
      ensures Valid() && old(log) <= log && armed == o.arm
      ensures state.executable == old(state).executable && state.trusted == old(state).trusted
        && state.backup == old(state).backup
      ensures if armed then state.phase == Armed(old(state).phase.temp) && state.marker == old(state).marker && state.timer
        else state.phase.Idle?
      ensures Inv(old(state)) ==> Inv(state)
    {
      Take(StopOldTimer(o.stopOld));
      Take(ArmTimer(o.arm));
      if !o.arm {
        Take(RemoveMarker(o.unmark));
      }
      armed := o.arm;
    }

    method Replace(o: Outcomes) returns (report: Report)
      requires Valid() && state.phase.Armed? && state.marker && state.timer && state.backup == Some(state.executable)
      requires accepts(state.phase.temp)
      modifies this`state, this`log
      ensures Valid() && old(log) <= log
      ensures report.ReplaceFailed? || report.Restarted? || report.NotRestored? || report.PutBack?
      ensures report.ReplaceFailed? <==> !o.rename
      ensures report.Restarted? <==> o.rename && o.restart
      ensures report.NotRestored? <==> o.rename && !o.restart && !o.copyBack
      ensures var before := old(state).(phase := Idle);
        Reported(before, state, report, Some(old(state).phase.temp), accepts)
      ensures Inv(old(state)) ==> Inv(state)
    {
      Take(Rename(o.rename));
      if !o.rename {
        CancelArmedRecovery(o);
        return ReplaceFailed;
      }
      Take(Restart(o.restart));
      if o.restart {
        return Restarted;
      }
      report := PutBackup(o);
    }

    method PutBackup(o: Outcomes) returns (report: Report)
      requires Valid() && state.phase.RestartFailed? && state.backup.Some?
      modifies this`state, this`log
      ensures Valid() && old(log) <= log
      ensures report == if o.copyBack then PutBack else NotRestored
      ensures report.NotRestored? ==> state == old(state).(phase := Idle)
      ensures report.PutBack? ==> state.executable == old(state).backup.value && state.trusted == old(state).trusted
      ensures report.PutBack? ==> state.phase == if o.again then Starting else Idle
      ensures Inv(old(state)) ==> Inv(state)
    {
      Take(CopyBack(o.copyBack));
      if !o.copyBack {
        return NotRestored;
      }
      CancelArmedRecovery(o);
      Take(RestartAgain(o.again));
      return PutBack;
    }

    /** What the restarted agent does once its connection stands. */
    method ConfirmSuccessfulStart(o: Outcomes)
      requires Valid() && state.phase.Starting?
      modifies this`state, this`log
      ensures Valid() && old(log) <= log
      ensures state == old(state).(marker := old(state).marker && !o.unmark, timer := old(state).timer && !o.stop,
                phase := Idle, trusted := old(state).trusted + {old(state).executable})
      ensures Inv(old(state)) ==> Inv(state)
    {
      Take(Connect);
      Take(RemoveMarker(o.unmark));
      Take(StopTimer(o.stop));
    }

    method CancelArmedRecovery(o: Outcomes)
      requires Valid() && state.phase.Undoing?
      modifies this`state, this`log
      ensures Valid() && old(log) <= log
      ensures state == old(state).(marker := old(state).marker && !o.unmark, timer := old(state).timer && !o.stop,
                phase := if old(state).phase.again then Settled else Idle)
      ensures Inv(old(state)) ==> Inv(state)
    {
      Take(RemoveMarker(o.unmark));
      Take(StopTimer(o.stop));
    }
  }
}
