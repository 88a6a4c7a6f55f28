/** The directory of one managed project, changed file by file. Each method is
    proved against the function of the same step in ComposeFiles. */
module ComposeProject {
  import opened Wrappers
  import opened ComposeFiles
  import opened Sorted

  lemma SomeOlder(m: map<nat, string>, list: seq<nat>, i: nat, current: int)
    requires i < |list| && list[i] < current && forall n: nat :: n in list <==> n in m
    ensures RollbackAvailable(m, current, true)
  {
    assert list[i] in list;
  }

  lemma NoneOlder(m: map<nat, string>, list: seq<nat>, current: int)
    requires (forall n: nat :: n in list <==> n in m) && forall j | 0 <= j < |list| :: list[j] >= current
    ensures !RollbackAvailable(m, current, true)
  {
    forall n | n in m ensures n >= current {
      assert n in list;
    }
  }

  class ProjectDirectory {
    const id: string
    var dir: Option<Dir>

    constructor (id: string)
      ensures this.id == id && dir == None
    {
      this.id := id;
      dir := None;
    }

    method WriteRevision(number: nat, yaml: string, w: Write) returns (ok: bool)
      requires dir.Some?
      modifies this
      ensures ok == w.Written?
      ensures dir == Some(old(dir).value.(revisions :=
                            if w.Refused? then old(dir).value.revisions else old(dir).value.revisions[number := yaml]))
    {
      if !w.Refused? {
        dir := Some(dir.value.(revisions := dir.value.revisions[number := yaml]));
      }
      ok := w.Written?;
    }

    method RemoveRevision(number: nat, works: bool)
      requires dir.Some?
      modifies this
      ensures dir == Some(DropRevision(old(dir).value, number, works))
    {
      if works {
        dir := Some(dir.value.(revisions := dir.value.revisions - {number}));
      }
    }

    /** Put the captured files back, each on its own, and report any failure. */
    method Restore(backup: Dir, f: Faults) returns (ok: bool)
      requires dir.Some?
      modifies this
      ensures dir == Some(UndoFiles(old(dir).value, backup, f)) && ok == UndoReports(f)
    {
      dir := Some(dir.value.(compose := Undo(dir.value.compose, backup.compose, f.undoCompose)));
      ok := f.undoCompose.Written?;
      dir := Some(dir.value.(env := Undo(dir.value.env, backup.env, f.undoEnv)));
      ok := ok && f.undoEnv.Written?;
      dir := Some(dir.value.(metadata := Undo(dir.value.metadata, backup.metadata, f.undoMetadata)));
      ok := ok && f.undoMetadata.Written?;
    }

    method ReplaceFiles(yaml: string, env: string, m: Metadata, f: Faults) returns (ok: bool, backup: Dir)
      requires dir.Some?
      modifies this
      ensures dir.Some? && (dir.value, ok) == Replace(old(dir).value, yaml, env, m, f)
      ensures backup == old(dir).value
    {
      backup := dir.value;
      if !f.capture {
        return false, backup;
      }
      dir := Some(dir.value.(compose := Put(dir.value.compose, yaml, f.compose)));
      if !f.compose.Written? {
        return false, backup;
      }
      dir := Some(dir.value.(env := Put(dir.value.env, env, f.env)));
      if !f.env.Written? {
        var _ := Restore(backup, f);
        return false, backup;
      }
      dir := Some(dir.value.(metadata := Put(dir.value.metadata, m, f.metadata)));
      if !f.metadata.Written? {
        var _ := Restore(backup, f);
        return false, backup;
      }
      return true, backup;
    }

    /** The retained revision numbers in ascending order. */
    method ListRevisions() returns (list: seq<nat>)
      requires dir.Some?
      ensures list == Ascending(dir.value.revisions.Keys)
      ensures StrictlyAscending(list) && forall n: nat :: n in list <==> n in dir.value.revisions
    {
      var sorted := Sort(dir.value.revisions.Keys);
      forall i | 0 <= i < |sorted| ensures sorted[i] >= 0 {
        assert sorted[i] in dir.value.revisions;
      }
      list := sorted;
    }

    /** Remove all but the five largest, lowest first, up to the first failure. */
    method PruneRevisions(f: Faults) returns (ok: bool)
      requires dir.Some?
      modifies this
      ensures dir == Some(old(dir).value.(revisions := Prune(old(dir).value.revisions, f)))
      ensures ok == PruneReports(old(dir).value.revisions, f)
    {
      if !f.listForPrune {
        return false;
      }
      ghost var before := dir.value;
      var list := ListRevisions();
      var excess := if |list| <= REVISION_LIMIT then 0 else |list| - REVISION_LIMIT;
      assert excess == Excess(before.revisions);
      var goal := if excess <= f.removals then excess else f.removals;
      RemoveListed(list, goal);
      ok := goal == excess;
    }

    /** The removal loop, stopped after goal removals by its end or a failure. */
    method RemoveListed(list: seq<nat>, goal: nat)
      requires dir.Some? && list == Ascending(dir.value.revisions.Keys) && goal <= |list|
      modifies this
      ensures dir == Some(old(dir).value.(revisions := RemoveSmallest(old(dir).value.revisions, goal)))
    {
      ghost var before := dir.value;
      for removed := 0 to goal
        invariant dir.Some? && dir.value == before.(revisions := dir.value.revisions)
        invariant Ascending(dir.value.revisions.Keys) == list[removed..]
        invariant RemoveSmallest(before.revisions, goal) == RemoveSmallest(dir.value.revisions, goal - removed)
      {
        FirstGoes(dir.value.revisions, list, removed);
        dir := Some(dir.value.(revisions := dir.value.revisions - {list[removed]}));
      }
    }

    method HasOlderRevision(current: int, listed: bool) returns (available: bool)
      requires dir.Some?
      ensures available == RollbackAvailable(dir.value.revisions, current, listed)
    {
      if !listed {
        return false;
      }
      var list := ListRevisions();
      for i := 0 to |list|
        invariant forall j | 0 <= j < i :: list[j] >= current
      {
        if list[i] < current {
          SomeOlder(dir.value.revisions, list, i, current);
          return true;
        }
      }
      NoneOlder(dir.value.revisions, list, current);
      return false;
    }

    /** The last listed revision below the current one, if any. */
    method PreviousRevision(current: int) returns (previous: Option<nat>)
      requires dir.Some?
      ensures previous.None? <==> Older(dir.value.revisions, current) == {}
      ensures previous.Some? ==> previous.value == Target(dir.value.revisions, current)
    {
      var list := ListRevisions();
      previous := None;
      for i := 0 to |list|
        invariant LastBelow(list[..i], current, previous)
      {
        LastBelowStep(list, i, current, previous);
        if list[i] < current {
          previous := Some(list[i]);
        }
      }
      assert list[..|list|] == list;
      LastBelowIsTarget(list, dir.value.revisions, current, previous);
    }

    /** The part apply and rollback share: from writing the revision to pruning. */
    method DeployRevision(existing: bool, yaml: string, env: string, m: Metadata, pull: bool, f: Faults) returns (o: Outcome)
      requires dir.Some? && m.revision >= 1
      modifies this
      ensures (dir, o) == Deploy(old(dir).value, existing, yaml, env, m, pull, f)
    {
      var written := WriteRevision(m.revision, yaml, f.revision);
      if !written {
        return Failed(WriteFailed);
      }
      var replaced, backup := ReplaceFiles(yaml, env, m, f);
      if !replaced {
        RemoveRevision(m.revision, f.removeRevision);
        return Failed(WriteFailed);
      }
      if (pull && !f.pull) || !f.up {
        var restored := Restore(backup, f);
        if restored && existing {
          restored := f.upAgain;
        }
        RemoveRevision(m.revision, f.removeRevision);
        if !existing && f.cleanup && dir.value == EMPTY_DIR {
          dir := None;
        }
        return Failed(if restored then DeployFailed else RestoreFailed);
      }
      var pruned := PruneRevisions(f);
      if !pruned {
        return Failed(PruneFailed);
      }
      var available := HasOlderRevision(m.revision, f.listAfter);
      return Success(m.revision, available);
    }

    /** Load a known project or make the directory of a new one. */
    method PrepareProject(f: Faults) returns (ready: bool, revision: nat, existing: bool)
      modifies this
      ensures ready == Prepare(id, old(dir), f).Ready?
      ensures ready ==> Prepare(id, old(dir), f) == Ready(if dir.Some? then dir.value else EMPTY_DIR, revision, existing) && dir.Some?
      ensures !ready ==> dir == Prepare(id, old(dir), f).left
    {
      var loaded := Load(id, dir, f);
      if loaded.Loaded? {
        return true, loaded.metadata.revision, true;
      }
      if loaded.LoadFailed? || !f.root || dir.Some? || f.makeDir.NotMade? {
        return false, 0, false;
      }
      dir := Some(EMPTY_DIR);
      return f.makeDir.Made?, 0, false;
    }

    method ApplyDraft(draft: Draft, now: string, f: Faults) returns (o: Outcome)
      modifies this
      ensures (dir, o) == Apply(id, old(dir), draft, now, f)
    {
      var ready, revision, existing := PrepareProject(f);
      if !ready {
        return Failed(StateInvalid);
      }
      o := DeployRevision(existing, draft.composeYAML, draft.envFile, NextMetadata(id, draft, revision, now), draft.pullImages, f);
    }

    method MoveToArchive(f: Faults) returns (moved: Option<Dir>, o: Outcome)
      modifies this
      ensures (dir, moved, o) == Archive(id, old(dir), f)
      ensures if moved.Some? then moved == old(dir) && dir.None? else dir == old(dir) && o.Failed?
    {
      var loaded := Load(id, dir, f);
      if !loaded.Loaded? {
        return None, Failed(StateInvalid);
      }
      if !f.readTarget {
        return None, Failed(ReadFailed);
      }
      if !f.down {
        return None, Failed(DeployFailed);
      }
      if !f.archiveFree || !f.archiveMove {
        return None, Failed(ArchiveFailed);
      }
      moved := dir;
      dir := None;
      o := if f.archiveMode then Success(loaded.metadata.revision, false) else Failed(ArchiveFailed);
    }
  }

  /** The greatest listed number below current. */
  ghost predicate LastBelow(list: seq<nat>, current: int, previous: Option<nat>) {
    match previous
    case None => forall n | n in list :: n >= current
    case Some(p) => p in list && p < current && forall n | n in list && n < current :: n <= p
  }

  lemma LastBelowStep(list: seq<nat>, i: nat, current: int, previous: Option<nat>)
    requires StrictlyAscending(list) && i < |list| && LastBelow(list[..i], current, previous)
    ensures LastBelow(list[..i + 1], current, if list[i] < current then Some(list[i]) else previous)
  {
    assert list[..i + 1] == list[..i] + [list[i]];
    forall n | n in list[..i] ensures n < list[i] {
    }
  }

  lemma LastBelowIsTarget(list: seq<nat>, m: map<nat, string>, current: int, previous: Option<nat>)
    requires LastBelow(list, current, previous) && forall n: nat :: n in list <==> n in m
    ensures previous.None? <==> Older(m, current) == {}
    ensures previous.Some? ==> previous.value == Target(m, current)
  {
    if previous.Some? {
      assert previous.value in Older(m, current);
      assert IsTarget(m, current, previous.value);
    }
  }

  lemma FirstGoes(m: map<nat, string>, list: seq<nat>, k: nat)
    requires k < |list| && Ascending(m.Keys) == list[k..]
    ensures list[k] in m && list[k] == Min(m.Keys) && Ascending((m - {list[k]}).Keys) == list[k + 1..]
  {
    assert m.Keys != {};
    assert (m - {list[k]}).Keys == m.Keys - {list[k]};
    assert list[k..][1..] == list[k + 1..];
  }
}
