/** Properties of the deployment operations under every fault script. */
module ComposeTransactions {
  import opened Wrappers
  import opened ComposeFiles
  import opened Sorted

  // ---------------------------------------------------------------------
  // Failure atomicity
  // ---------------------------------------------------------------------

  /** Compose, env and metadata as a caller sees them; a missing directory has none. */
  function Contents(d: Option<Dir>): (Option<string>, Option<string>, Option<Metadata>) {
    if d.None? then (None, None, None) else (d.value.compose, d.value.env, d.value.metadata)
  }

  function RevisionsOf(d: Option<Dir>): map<nat, string> {
    if d.None? then map[] else d.value.revisions
  }

  predicate UndoesOne<T>(backup: Option<T>, w: Write) {
    if backup.Some? then !w.Refused? else w.Written?
  }

  /** The undo writes and removals put the captured files back. */
  predicate UndoWorks(d: Dir, f: Faults) {
    UndoesOne(d.compose, f.undoCompose) && UndoesOne(d.env, f.undoEnv) && UndoesOne(d.metadata, f.undoMetadata)
  }

  /** The one way to lose the old compose file: its replacement is renamed into
      place, setting the file mode then fails, and the code returns at once. */
  predicate TearsCompose(d: Dir, yaml: string, f: Faults) {
    f.revision.Written? && f.capture && f.compose.WrittenThenRefused? && d.compose != Some(yaml)
  }

  lemma UndoRestores(d: Dir, before: Dir, f: Faults)
    requires UndoWorks(before, f)
    ensures UndoFiles(d, before, f) == before.(revisions := d.revisions)
  {
  }

  /** A failed replacement changes nothing but a torn compose file. */
  lemma ReplaceAtomic(d: Dir, yaml: string, env: string, m: Metadata, f: Faults)
    requires UndoWorks(d, f) && !Replace(d, yaml, env, m, f).1
    ensures Replace(d, yaml, env, m, f).0 ==
            if f.capture && f.compose.WrittenThenRefused? then d.(compose := Some(yaml)) else d
  {
    var d1 := d.(compose := Put(d.compose, yaml, f.compose));
    var d2 := d1.(env := Put(d1.env, env, f.env));
    var d3 := d2.(metadata := Put(d2.metadata, m, f.metadata));
    UndoRestores(d2, d, f);
    UndoRestores(d3, d, f);
  }

  lemma DeployAtomic(d: Dir, existing: bool, yaml: string, env: string, m: Metadata, pull: bool, f: Faults)
    requires m.revision >= 1 && UndoWorks(d, f)
    requires !Committed(Deploy(d, existing, yaml, env, m, pull, f).1)
    ensures Contents(Deploy(d, existing, yaml, env, m, pull, f).0) == Contents(Some(d)) <==> !TearsCompose(d, yaml, f)
  {
    if f.revision.Written? {
      var d1 := d.(revisions := d.revisions[m.revision := yaml]);
      var (d2, replaced) := Replace(d1, yaml, env, m, f);
      if !replaced {
        ReplaceAtomic(d1, yaml, env, m, f);
      } else {
        UndoRestores(d2, d1, f);
      }
    }
  }

  /** Which directory an operation starts from once it is prepared. */
  predicate Starts(id: string, d: Option<Dir>, f: Faults) {
    Prepare(id, d, f).Ready?
  }

  lemma ApplyIs(id: string, d: Option<Dir>, draft: Draft, now: string, f: Faults)
    ensures Starts(id, d, f) ==>
              var Ready(dir, revision, existing) := Prepare(id, d, f);
              Apply(id, d, draft, now, f) ==
              Deploy(dir, existing, draft.composeYAML, draft.envFile, NextMetadata(id, draft, revision, now), draft.pullImages, f)
    ensures !Starts(id, d, f) ==> Contents(Apply(id, d, draft, now, f).0) == Contents(d) && !Committed(Apply(id, d, draft, now, f).1)
    ensures !Starts(id, d, f) ==> RevisionsOf(Apply(id, d, draft, now, f).0) == RevisionsOf(d)
  {
  }

  lemma PrepareKeepsContents(id: string, d: Option<Dir>, f: Faults)
    ensures Starts(id, d, f) ==> Contents(Some(Prepare(id, d, f).dir)) == Contents(d)
  {
  }

  /** A failed apply leaves the three files as they were, absent ones absent,
      exactly when it does not tear the compose file. */
  lemma ApplyAtomicIff(id: string, d: Option<Dir>, draft: Draft, now: string, f: Faults)
    requires Starts(id, d, f) ==> UndoWorks(Prepare(id, d, f).dir, f)
    requires !Committed(Apply(id, d, draft, now, f).1)
    ensures Contents(Apply(id, d, draft, now, f).0) == Contents(d) <==>
            !(Starts(id, d, f) && TearsCompose(Prepare(id, d, f).dir, draft.composeYAML, f))
  {
    ApplyIs(id, d, draft, now, f);
    PrepareKeepsContents(id, d, f);
    if Starts(id, d, f) {
      var Ready(dir, revision, existing) := Prepare(id, d, f);
      DeployAtomic(dir, existing, draft.composeYAML, draft.envFile, NextMetadata(id, draft, revision, now), draft.pullImages, f);
    }
  }

  /** The same for rollback, which needs a loaded project. */
  lemma RollbackAtomicIff(id: string, d: Option<Dir>, valid: bool, now: string, f: Faults)
    requires d.Some? ==> UndoWorks(d.value, f)
    requires !Committed(Rollback(id, d, valid, now, f).1)
    ensures Contents(Rollback(id, d, valid, now, f).0) == Contents(d) <==> !RollbackTears(id, d, valid, f)
  {
    if RollsBack(id, d, valid, f) {
      var m := d.value.metadata.value;
      DeployAtomic(d.value, true, d.value.revisions[Target(d.value.revisions, m.revision)], d.value.env.value,
                   m.(revision := m.revision + 1, updatedAt := now), false, f);
    }
  }

  /** The rollback gets as far as deploying its target. */
  predicate RollsBack(id: string, d: Option<Dir>, valid: bool, f: Faults) {
    RollbackBlocked(id, d, valid, f).None?
  }

  ghost predicate RollbackTears(id: string, d: Option<Dir>, valid: bool, f: Faults) {
    && RollsBack(id, d, valid, f)
    && TearsCompose(d.value, d.value.revisions[Target(d.value.revisions, d.value.metadata.value.revision)], f)
  }

  lemma ReplaceKeepsRevisions(d: Dir, before: Dir, yaml: string, env: string, m: Metadata, f: Faults)
    ensures Replace(d, yaml, env, m, f).0.revisions == d.revisions
    ensures UndoFiles(d, before, f).revisions == d.revisions
  {
  }

  /** What a failed deployment does to the revisions: nothing to the older ones,
      and the new one is gone unless its own write or its removal failed. */
  lemma FailedDeployRevisions(d: Dir, existing: bool, yaml: string, env: string, m: Metadata, pull: bool, f: Faults)
    requires m.revision >= 1 && !Committed(Deploy(d, existing, yaml, env, m, pull, f).1)
    ensures RevisionsOf(Deploy(d, existing, yaml, env, m, pull, f).0) ==
            if f.revision.Refused? then d.revisions
            else if f.revision.Written? && f.removeRevision then d.revisions - {m.revision}
            else d.revisions[m.revision := yaml]
  {
    if f.revision.Written? {
      var d1 := d.(revisions := d.revisions[m.revision := yaml]);
      var (d2, replaced) := Replace(d1, yaml, env, m, f);
      ReplaceKeepsRevisions(d1, d1, yaml, env, m, f);
      ReplaceKeepsRevisions(d2, d1, yaml, env, m, f);
      assert d1.revisions - {m.revision} == d.revisions - {m.revision};
      if !replaced {
        assert Deploy(d, existing, yaml, env, m, pull, f).0 == Some(DropRevision(d2, m.revision, f.removeRevision));
      } else {
        var undone := DropRevision(UndoFiles(d2, d1, f), m.revision, f.removeRevision);
        assert RevisionsOf(Deploy(d, existing, yaml, env, m, pull, f).0) == undone.revisions;
      }
    }
  }

  /** The revision a deployment writes: the next one, or the first. */
  function NextRevision(d: Option<Dir>): int {
    if d.Some? && d.value.metadata.Some? then d.value.metadata.value.revision + 1 else 1
  }

  /** Once committed, all three files and the new revision hold the draft. */
  lemma CommittedApply(id: string, d: Option<Dir>, draft: Draft, now: string, f: Faults)
    requires Committed(Apply(id, d, draft, now, f).1)
    ensures
      var (after, o) := Apply(id, d, draft, now, f);
      && after.Some? && after.value.compose == Some(draft.composeYAML) && after.value.env == Some(draft.envFile)
      && after.value.metadata == Some(Metadata(id, draft.displayName, "mizupanel-" + id, NextRevision(d), now))
      && (o.Success? ==> o.revision == NextRevision(d))
      && (Window(id, d) ==> NextRevision(d) in after.value.revisions && after.value.revisions[NextRevision(d)] == draft.composeYAML)
  {
    if Window(id, d) {
      CommittedRevisionStands(id, d, ApplyOp(draft, now, f));
    }
  }

  /** An operation that does not commit leaves every revision there was, but for the
      number it would have written. */
  lemma FailedApplyKeepsRevisions(id: string, d: Option<Dir>, draft: Draft, now: string, f: Faults, n: nat)
    requires !Committed(Apply(id, d, draft, now, f).1) && n in RevisionsOf(d) && n != NextRevision(d)
    ensures n in RevisionsOf(Apply(id, d, draft, now, f).0) && RevisionsOf(Apply(id, d, draft, now, f).0)[n] == RevisionsOf(d)[n]
  {
    ApplyIs(id, d, draft, now, f);
    if Starts(id, d, f) {
      var Ready(dir, revision, existing) := Prepare(id, d, f);
      FailedDeployRevisions(dir, existing, draft.composeYAML, draft.envFile, NextMetadata(id, draft, revision, now), draft.pullImages, f);
    }
  }

  /** The code does tear the compose file: the error is reported, every undo step
      would work, and the new content stays. */
  lemma TornComposeExample(d: Dir, draft: Draft, m: Metadata, f: Faults)
    requires d == Dir(Some("old"), Some(""), Some(m), map[1 := "old"]) && ValidMetadata(m, m.id) && m.revision == 1
    requires draft == Draft(m.id, "app", "new", "", false)
    requires f == Faults(true, true, Made, true, true, true, Written, true, WrittenThenRefused, Written, Written,
                         true, true, Written, Written, Written, true, true, true, true, 0, true, true, true, true, true)
    ensures Apply(m.id, Some(d), draft, "t", f) == (Some(d.(compose := Some("new"))), Failed(WriteFailed))
    ensures UndoWorks(d, f) && Contents(Apply(m.id, Some(d), draft, "t", f).0) != Contents(Some(d))
  {
    assert map[1 := "old", 2 := "new"] - {2} == map[1 := "old"];
  }

  /** All three files are there and the metadata is this project's. */
  predicate Loadable(id: string, d: Dir) {
    d.metadata.Some? && ValidMetadata(d.metadata.value, id) && d.compose.Some? && d.env.Some?
  }

  /** A directory that does not load is never taken over again: every later
      operation fails and changes nothing, whatever happens. */
  lemma StrandedForever(id: string, d: Dir, op: Op)
    requires !Loadable(id, d)
    ensures Do(id, Some(d), op) == (Some(d), Failed(StateInvalid))
  {
  }

  /** When a failed first apply strands its project, whatever its undo steps do:
      the directory was made, no metadata is left in it, and it is not cleaned up. */
  lemma FirstApplyStrandsIff(id: string, draft: Draft, now: string, f: Faults)
    requires !Committed(Apply(id, None, draft, now, f).1)
    ensures
      var after := Apply(id, None, draft, now, f).0;
      (after.Some? && after.value.metadata.None?) <==> f.load && f.root && !f.makeDir.NotMade? && (f.makeDir.Made? ==> Strands(f))
  {
    if f.load && f.root && f.makeDir.Made? {
      FirstDeployStrandsIff(draft.composeYAML, draft.envFile, NextMetadata(id, draft, 0, now), draft.pullImages, f);
    }
  }

  lemma FirstDeployStrandsIff(yaml: string, env: string, m: Metadata, pull: bool, f: Faults)
    requires m.revision == 1 && !Works(pull, f)
    ensures
      var after := Deploy(EMPTY_DIR, false, yaml, env, m, pull, f).0;
      (after.Some? && after.value.metadata.None?) <==> Strands(f)
  {
    if f.revision.Written? && f.capture && f.compose.Written? {
      FailedDeployFiles(EMPTY_DIR, false, yaml, env, m, pull, f);
      if f.env.Written? && f.metadata.Written? {
        CleanedUpIff(yaml, env, m, pull, f);
      }
    } else {
      UnwrittenDeployFiles(EMPTY_DIR, false, yaml, env, m, pull, f);
    }
  }

  lemma CleanedUpIff(yaml: string, env: string, m: Metadata, pull: bool, f: Faults)
    requires m.revision == 1 && !Works(pull, f)
    requires f.revision.Written? && f.capture && f.compose.Written? && f.env.Written? && f.metadata.Written?
    ensures Deploy(EMPTY_DIR, false, yaml, env, m, pull, f).0.None? <==>
            f.removeRevision && f.undoCompose.Written? && f.undoEnv.Written? && f.undoMetadata.Written? && f.cleanup
  {
    assert map[1 := yaml] - {1} == map[];
  }

  predicate Strands(f: Faults) {
    if !f.revision.Written? || !f.capture || !f.compose.Written? || !f.env.Written? then true
    else if f.metadata.Written? then
      f.undoMetadata.Written? && !(f.removeRevision && f.undoCompose.Written? && f.undoEnv.Written? && f.cleanup)
    else f.metadata.Refused? || f.undoMetadata.Written?
  }

  // ---------------------------------------------------------------------
  // Pruning
  // ---------------------------------------------------------------------

  lemma {:induction false} RemoveSmallestSize<T>(m: map<nat, T>, count: nat)
    requires count <= |m|
    ensures |RemoveSmallest(m, count)| == |m| - count
  {
    if count > 0 {
      OneFewer(m, Min(m.Keys));
      RemoveSmallestSize(m - {Min(m.Keys)}, count - 1);
    }
  }

  ghost predicate PartOf<T>(a: map<nat, T>, b: map<nat, T>) {
    forall n | n in a :: n in b && a[n] == b[n]
  }

  lemma {:induction false} RemoveSmallestIsPart<T>(m: map<nat, T>, count: nat)
    ensures PartOf(RemoveSmallest(m, count), m)
    decreases count
  {
    if count > 0 && m != map[] {
      var rest := m - {Min(m.Keys)};
      RemoveSmallestIsPart(rest, count - 1);
      assert RemoveSmallest(m, count) == RemoveSmallest(rest, count - 1);
    }
  }

  lemma OneFewer<T>(m: map<nat, T>, k: int)
    requires k in m.Keys
    ensures (m - {k}).Keys == m.Keys - {k} && |m - {k}| == |m| - 1
  {
    assert (m - {k}).Keys == m.Keys - {k};
  }

  lemma {:induction false} RemoveSmallestKeepsLargest<T>(m: map<nat, T>, count: nat)
    requires count <= |m|
    ensures |RemoveSmallest(m, count)| == |m| - count
    ensures PartOf(RemoveSmallest(m, count), m)
    ensures forall gone, kept | gone in m && gone !in RemoveSmallest(m, count) && kept in RemoveSmallest(m, count) :: gone < kept
  {
    RemoveSmallestSize(m, count);
    RemoveSmallestIsPart(m, count);
    if count > 0 {
      var least := Min(m.Keys);
      var rest := m - {least};
      OneFewer(m, least);
      RemoveSmallestKeepsLargest(rest, count - 1);
      var after := RemoveSmallest(rest, count - 1);
      forall gone, kept | gone in m && gone !in after && kept in after ensures gone < kept {
        assert kept in rest.Keys && (gone != least ==> gone in rest);
      }
    }
  }

  /** A prune drops the smallest numbers beyond five, as many as it can. */
  lemma PruneDropsSmallest(m: map<nat, string>, f: Faults)
    ensures PartOf(Prune(m, f), m)
    ensures
      var beyond := if |m| > 5 then |m| - 5 else 0;
      |Prune(m, f)| == |m| - if !f.listForPrune then 0 else if beyond <= f.removals then beyond else f.removals
    ensures forall gone, kept | gone in m && gone !in Prune(m, f) && kept in Prune(m, f) :: gone < kept
  {
    if f.listForPrune {
      RemoveSmallestKeepsLargest(m, if Excess(m) <= f.removals then Excess(m) else f.removals);
    }
  }

  /** A prune that reports no error leaves the largest five revisions, unchanged. */
  lemma PruneKeepsLargestFive(m: map<nat, string>, f: Faults)
    requires PruneReports(m, f)
    ensures |Prune(m, f)| == if |m| <= 5 then |m| else 5
    ensures forall n | n in Prune(m, f) :: n in m && Prune(m, f)[n] == m[n]
    ensures forall gone, kept | gone in m && gone !in Prune(m, f) && kept in Prune(m, f) :: gone < kept
  {
    RemoveSmallestKeepsLargest(m, Excess(m));
  }

  // ---------------------------------------------------------------------
  // The revision window
  // ---------------------------------------------------------------------

  ghost predicate Contiguous<T>(m: map<nat, T>, low: nat, high: nat) {
    forall n: nat :: n in m <==> low <= n <= high
  }

  lemma {:induction false} ContiguousSize<T>(m: map<nat, T>, low: nat, high: nat)
    requires Contiguous(m, low, high) && low <= high + 1
    ensures |m| == high + 1 - low
    decreases high + 1 - low
  {
    if low == high + 1 {
      assert m == map[];
    } else {
      var rest := m - {low};
      assert rest.Keys == m.Keys - {low};
      ContiguousSize(rest, low + 1, high);
    }
  }

  lemma {:induction false} RemoveSmallestContiguous<T>(m: map<nat, T>, low: nat, high: nat, count: nat)
    requires Contiguous(m, low, high) && low + count <= high + 1
    ensures Contiguous(RemoveSmallest(m, count), low + count, high)
    ensures forall n | n in RemoveSmallest(m, count) :: RemoveSmallest(m, count)[n] == m[n]
    decreases count
  {
    if count > 0 {
      assert low in m.Keys;
      assert Min(m.Keys) == low;
      RemoveSmallestContiguous(m - {low}, low + 1, high, count - 1);
    }
  }

  /** Retained numbers run without a gap up to the current revision, or one past
      it where a failed deployment could not remove its revision. */
  ghost predicate Window(id: string, d: Option<Dir>) {
    d.Some? ==>
      match d.value.metadata
      case None => d.value.compose.None? && d.value.env.None? && d.value.revisions.Keys <= {1}
      case Some(m) =>
        && ValidMetadata(m, id) && d.value.compose.Some? && d.value.env.Some?
        && m.revision in d.value.revisions && d.value.revisions[m.revision] == d.value.compose.value
        && exists low: nat :: 1 <= low <= m.revision && InWindow(d.value.revisions, low, m.revision)
  }

  ghost predicate InWindow(m: map<nat, string>, low: nat, current: nat) {
    Contiguous(m, low, current) || Contiguous(m, low, current + 1)
  }

  lemma PruneWindow(m: map<nat, string>, low: nat, high: nat, f: Faults)
    requires Contiguous(m, low, high) && 1 <= low <= high
    ensures exists low': nat :: low <= low' <= high && high - low' <= high - low && Contiguous(Prune(m, f), low', high)
    ensures forall n | n in Prune(m, f) :: Prune(m, f)[n] == m[n]
    ensures forall n: nat | n <= high && n > high - REVISION_LIMIT && n in m :: n in Prune(m, f)
  {
    ContiguousSize(m, low, high);
    if f.listForPrune {
      var count := if Excess(m) <= f.removals then Excess(m) else f.removals;
      RemoveSmallestContiguous(m, low, high, count);
      assert Contiguous(Prune(m, f), low + count, high);
    } else {
      assert Contiguous(Prune(m, f), low, high);
    }
  }

  lemma CommittedDeploy(d: Dir, existing: bool, yaml: string, env: string, m: Metadata, pull: bool, f: Faults)
    requires m.revision >= 1 && Committed(Deploy(d, existing, yaml, env, m, pull, f).1)
    ensures Deploy(d, existing, yaml, env, m, pull, f).0 ==
            Some(Dir(Some(yaml), Some(env), Some(m), Prune(d.revisions[m.revision := yaml], f)))
  {
  }

  /** Revision r + 1 extends a window that ends at r or r + 1. */
  lemma CommitKeepsWindow(id: string, yaml: string, env: string, m: Metadata, revisions: map<nat, string>, low: nat, f: Faults)
    requires ValidMetadata(m, id) && 1 <= low <= m.revision
    requires if low == m.revision then revisions == map[] else InWindow(revisions, low, m.revision - 1)
    ensures Window(id, Some(Dir(Some(yaml), Some(env), Some(m), Prune(revisions[m.revision := yaml], f))))
  {
    var written := revisions[m.revision := yaml];
    assert Contiguous(written, low, m.revision);
    PruneWindow(written, low, m.revision, f);
    var low': nat :| low <= low' <= m.revision && Contiguous(Prune(written, f), low', m.revision);
    assert InWindow(Prune(written, f), low', m.revision);
  }

  /** Every step up to `up -d` works, so the deployment commits. */
  predicate Works(pull: bool, f: Faults) {
    && f.revision.Written? && f.capture && f.compose.Written? && f.env.Written? && f.metadata.Written?
    && (pull ==> f.pull) && f.up
  }

  lemma CommitsIff(d: Dir, existing: bool, yaml: string, env: string, m: Metadata, pull: bool, f: Faults)
    requires m.revision >= 1
    ensures Committed(Deploy(d, existing, yaml, env, m, pull, f).1) <==> Works(pull, f)
  {
  }

  /** The failed deployment of an existing project leaves its new metadata. */
  predicate MetadataStays(f: Faults) {
    && f.revision.Written? && f.capture && f.compose.Written? && f.env.Written? && !f.metadata.Refused?
    && f.undoMetadata.Refused?
  }

  /** What the faults may do to an existing project without parting its compose
      file from the revision its metadata names: either is undone or neither is.
      `same` says that the file already held the new content. */
  predicate AgreesAfter(same: bool, pull: bool, f: Faults) {
    || Works(pull, f) || !f.revision.Written? || !f.capture || f.compose.Refused?
    || (if f.compose.WrittenThenRefused? then same
        else if MetadataStays(f) then !f.removeRevision && (f.undoCompose.Refused? || same)
        else !f.undoCompose.Refused? || same)
  }

  /** The same for a first apply: all files stay, its revision too, or none does. */
  predicate AgreesFirst(pull: bool, f: Faults) {
    || Works(pull, f) || !f.revision.Written? || !f.capture || f.compose.Refused?
    || (f.compose.Written? &&
        if f.env.Written? && !f.metadata.Refused? && !f.undoMetadata.Written?
        then !f.undoCompose.Written? && !f.undoEnv.Written? && !f.removeRevision
        else f.undoCompose.Written? && (f.env.Refused? || f.undoEnv.Written?))
  }

  /** The current files after a failed deployment. */
  lemma FailedDeployFiles(d: Dir, existing: bool, yaml: string, env: string, m: Metadata, pull: bool, f: Faults)
    requires m.revision >= 1 && !Works(pull, f) && f.revision.Written? && f.capture && f.compose.Written?
    ensures
      var e := if f.env.Refused? then d.env else Some(env);
      var x := if f.env.Written? && !f.metadata.Refused? then Some(m) else d.metadata;
      Contents(Deploy(d, existing, yaml, env, m, pull, f).0) ==
      (Undo(Some(yaml), d.compose, f.undoCompose), Undo(e, d.env, f.undoEnv), Undo(x, d.metadata, f.undoMetadata))
  {
  }

  lemma UnwrittenDeployFiles(d: Dir, existing: bool, yaml: string, env: string, m: Metadata, pull: bool, f: Faults)
    requires m.revision >= 1 && !(f.revision.Written? && f.capture && f.compose.Written?)
    ensures
      var torn := f.revision.Written? && f.capture && f.compose.WrittenThenRefused?;
      Contents(Deploy(d, existing, yaml, env, m, pull, f).0) == (if torn then Some(yaml) else d.compose, d.env, d.metadata)
  {
  }

  /** What the window asks of the files of a described project. */
  ghost predicate Heads(id: string, files: (Option<string>, Option<string>, Option<Metadata>), revisions: map<nat, string>) {
    && files.0.Some? && files.1.Some? && files.2.Some? && ValidMetadata(files.2.value, id)
    && files.2.value.revision in revisions && revisions[files.2.value.revision] == files.0.value
    && exists low: nat :: 1 <= low <= files.2.value.revision && InWindow(revisions, low, files.2.value.revision)
  }

  lemma WindowIsHeads(id: string, d: Option<Dir>)
    requires Contents(d).2.Some?
    ensures Window(id, d) <==> Heads(id, Contents(d), RevisionsOf(d))
  {
  }

  /** A failed deployment on an existing project keeps the window exactly when
      file and revision still agree. */
  lemma FailureKeepsWindowIff(id: string, d: Dir, yaml: string, env: string, m: Metadata, pull: bool, f: Faults)
    requires ValidMetadata(m, id) && Window(id, Some(d)) && !Works(pull, f)
    requires d.metadata.Some? && m.revision == d.metadata.value.revision + 1
    ensures Window(id, Deploy(d, true, yaml, env, m, pull, f).0) <==> AgreesAfter(d.compose == Some(yaml), pull, f)
  {
    var after := Deploy(d, true, yaml, env, m, pull, f).0;
    CommitsIff(d, true, yaml, env, m, pull, f);
    FailedDeployRevisions(d, true, yaml, env, m, pull, f);
    if f.revision.Written? && f.capture && f.compose.Written? {
      FailedDeployFiles(d, true, yaml, env, m, pull, f);
    } else {
      UnwrittenDeployFiles(d, true, yaml, env, m, pull, f);
    }
    WindowIsHeads(id, after);
    FailedHeadsIff(id, d, yaml, env, m, pull, f, Contents(after), RevisionsOf(after));
  }

  lemma FailedHeadsIff(id: string, d: Dir, yaml: string, env: string, m: Metadata, pull: bool, f: Faults,
                       files: (Option<string>, Option<string>, Option<Metadata>), revisions: map<nat, string>)
    requires ValidMetadata(m, id) && Window(id, Some(d)) && !Works(pull, f)
    requires d.metadata.Some? && m.revision == d.metadata.value.revision + 1
    requires revisions == if f.revision.Refused? then d.revisions
                          else if f.revision.Written? && f.removeRevision then d.revisions - {m.revision}
                          else d.revisions[m.revision := yaml]
    requires var begun := f.revision.Written? && f.capture;
             files.0 == if begun && f.compose.WrittenThenRefused? then Some(yaml)
                        else if begun && f.compose.Written? then Undo(Some(yaml), d.compose, f.undoCompose)
                        else d.compose
    requires files.1.Some? && files.2 == if MetadataStays(f) then Some(m) else d.metadata
    ensures Heads(id, files, revisions) <==> AgreesAfter(d.compose == Some(yaml), pull, f)
  {
    var current := d.metadata.value.revision;
    var low: nat :| 1 <= low <= current && InWindow(d.revisions, low, current);
    if MetadataStays(f) {
      assert !f.removeRevision ==> InWindow(revisions, low, current + 1);
    } else {
      assert InWindow(revisions, low, current);
    }
  }

  /** A failed first apply keeps the window exactly when everything it wrote is
      there or nothing is. */
  lemma FirstFailureKeepsWindowIff(id: string, yaml: string, env: string, m: Metadata, pull: bool, f: Faults)
    requires ValidMetadata(m, id) && m.revision == 1 && !Works(pull, f)
    ensures Window(id, Deploy(EMPTY_DIR, false, yaml, env, m, pull, f).0) <==> AgreesFirst(pull, f)
  {
    var after := Deploy(EMPTY_DIR, false, yaml, env, m, pull, f).0;
    CommitsIff(EMPTY_DIR, false, yaml, env, m, pull, f);
    FailedDeployRevisions(EMPTY_DIR, false, yaml, env, m, pull, f);
    if f.revision.Written? && f.capture && f.compose.Written? {
      FailedDeployFiles(EMPTY_DIR, false, yaml, env, m, pull, f);
    } else {
      UnwrittenDeployFiles(EMPTY_DIR, false, yaml, env, m, pull, f);
    }
    if Contents(after).2.Some? {
      WindowIsHeads(id, after);
      assert 1 in RevisionsOf(after) ==> InWindow(RevisionsOf(after), 1, 1);
    }
  }

  /** A committed deployment keeps the window whatever its undo steps would do. */
  lemma CommittedDeployKeepsWindow(id: string, d: Dir, existing: bool, yaml: string, env: string, m: Metadata, pull: bool, f: Faults)
    requires ValidMetadata(m, id) && Window(id, Some(d)) && Works(pull, f)
    requires if existing then d.metadata.Some? && m.revision == d.metadata.value.revision + 1
             else d == EMPTY_DIR && m.revision == 1
    ensures Window(id, Deploy(d, existing, yaml, env, m, pull, f).0)
  {
    CommitsIff(d, existing, yaml, env, m, pull, f);
    CommittedDeploy(d, existing, yaml, env, m, pull, f);
    var low: nat := 1;
    if existing {
      low :| 1 <= low <= d.metadata.value.revision && InWindow(d.revisions, low, d.metadata.value.revision);
    }
    CommitKeepsWindow(id, yaml, env, m, d.revisions, low, f);
  }

  /** Deploying revision r + 1 over a window that ends at r, or starting one. */
  lemma DeployKeepsWindowIff(id: string, d: Dir, existing: bool, yaml: string, env: string, m: Metadata, pull: bool, f: Faults)
    requires ValidMetadata(m, id) && Window(id, Some(d))
    requires if existing then d.metadata.Some? && m.revision == d.metadata.value.revision + 1
             else d == EMPTY_DIR && m.revision == 1
    ensures Window(id, Deploy(d, existing, yaml, env, m, pull, f).0) <==>
            if existing then AgreesAfter(d.compose == Some(yaml), pull, f) else AgreesFirst(pull, f)
  {
    if Works(pull, f) {
      CommittedDeployKeepsWindow(id, d, existing, yaml, env, m, pull, f);
    } else if existing {
      FailureKeepsWindowIff(id, d, yaml, env, m, pull, f);
    } else {
      FirstFailureKeepsWindowIff(id, yaml, env, m, pull, f);
    }
  }

  // ---------------------------------------------------------------------
  // Whole runs of one project
  // ---------------------------------------------------------------------

  datatype Op =
    | ApplyOp(draft: Draft, now: string, f: Faults)
    | RollbackOp(valid: bool, now: string, f: Faults)
    | ArchiveOp(f: Faults)

  ghost function Do(id: string, d: Option<Dir>, op: Op): (r: (Option<Dir>, Outcome)) {
    match op
    case ApplyOp(draft, now, f) => Apply(id, d, draft, now, f)
    case RollbackOp(valid, now, f) => Rollback(id, d, valid, now, f)
    case ArchiveOp(f) => (Archive(id, d, f).0, Archive(id, d, f).2)
  }

  /** What normalization guarantees of an apply. */
  predicate Normal(id: string, op: Op) {
    op.ApplyOp? ==> ValidProjectID(id) && ValidDisplayName(op.draft.displayName)
  }

  /** The content a rollback deploys. */
  ghost function TargetYaml(id: string, d: Option<Dir>, valid: bool, f: Faults): string
    requires RollsBack(id, d, valid, f)
  {
    d.value.revisions[Target(d.value.revisions, d.value.metadata.value.revision)]
  }

  /** The faults of the operation do not part the compose file from its revision. */
  ghost predicate Agrees(id: string, d: Option<Dir>, op: Op) {
    match op
    case ApplyOp(draft, _, f) =>
      Starts(id, d, f) ==>
        var Ready(dir, _, existing) := Prepare(id, d, f);
        if existing then AgreesAfter(dir.compose == Some(draft.composeYAML), draft.pullImages, f)
        else AgreesFirst(draft.pullImages, f)
    case RollbackOp(valid, _, f) =>
      RollsBack(id, d, valid, f) ==> AgreesAfter(d.value.compose == Some(TargetYaml(id, d, valid, f)), false, f)
    case ArchiveOp(_) => true
  }

  lemma ApplyKeepsWindowIff(id: string, d: Option<Dir>, draft: Draft, now: string, f: Faults)
    requires Window(id, d) && Normal(id, ApplyOp(draft, now, f))
    ensures Window(id, Apply(id, d, draft, now, f).0) <==> Agrees(id, d, ApplyOp(draft, now, f))
  {
    if Starts(id, d, f) {
      var Ready(dir, revision, existing) := Prepare(id, d, f);
      DeployKeepsWindowIff(id, dir, existing, draft.composeYAML, draft.envFile, NextMetadata(id, draft, revision, now),
                           draft.pullImages, f);
    }
  }

  lemma RollbackIs(id: string, d: Option<Dir>, valid: bool, now: string, f: Faults)
    requires RollsBack(id, d, valid, f)
    ensures
      var m := d.value.metadata.value;
      && d.value.metadata.Some? && d.value.env.Some? && ValidMetadata(m, id)
      && Rollback(id, d, valid, now, f) ==
         Deploy(d.value, true, TargetYaml(id, d, valid, f), d.value.env.value, m.(revision := m.revision + 1, updatedAt := now), false, f)
  {
  }

  lemma RollbackKeepsWindowIff(id: string, d: Option<Dir>, valid: bool, now: string, f: Faults)
    requires Window(id, d)
    ensures Window(id, Rollback(id, d, valid, now, f).0) <==> Agrees(id, d, RollbackOp(valid, now, f))
  {
    if RollsBack(id, d, valid, f) {
      RollbackIs(id, d, valid, now, f);
      DeployedRollbackIff(id, d.value, TargetYaml(id, d, valid, f), d.value.env.value, d.value.metadata.value, now, f,
                          Rollback(id, d, valid, now, f).0);
    } else {
      assert Rollback(id, d, valid, now, f).0 == d;
    }
  }

  lemma DeployedRollbackIff(id: string, d: Dir, yaml: string, env: string, m: Metadata, now: string, f: Faults, after: Option<Dir>)
    requires Window(id, Some(d)) && d.metadata == Some(m) && m.revision >= 1
    requires after == Deploy(d, true, yaml, env, m.(revision := m.revision + 1, updatedAt := now), false, f).0
    ensures Window(id, after) <==> AgreesAfter(d.compose == Some(yaml), false, f)
  {
    DeployKeepsWindowIff(id, d, true, yaml, env, m.(revision := m.revision + 1, updatedAt := now), false, f);
  }

  /** One operation, committed or failed, keeps the window exactly when its faults
      leave file and revision in agreement. */
  lemma StepKeepsWindowIff(id: string, d: Option<Dir>, op: Op)
    requires Window(id, d) && Normal(id, op)
    ensures Window(id, Do(id, d, op).0) <==> Agrees(id, d, op)
  {
    match op
    case ApplyOp(draft, now, f) => ApplyKeepsWindowIff(id, d, draft, now, f);
    case RollbackOp(valid, now, f) => RollbackKeepsWindowIff(id, d, valid, now, f);
    case ArchiveOp(f) =>
  }

  // ---------------------------------------------------------------------
  // When an operation gets through
  // ---------------------------------------------------------------------

  /** A project loads exactly when it can be read, is there and is complete. */
  lemma LoadsIff(id: string, d: Option<Dir>, f: Faults)
    ensures Load(id, d, f).Loaded? <==> f.load && d.Some? && Loadable(id, d.value)
    ensures Load(id, d, f).Loaded? ==> d.value.metadata == Some(Load(id, d, f).metadata)
    ensures Load(id, d, f).NotFound? <==> f.load && (d.Some? ==> d.value.metadata.None?)
  {
  }

  /** An apply commits exactly when its project loads or is new and can be made, and
      every step up to `up -d` works: neither its revision nor its content matters. */
  lemma ApplyCommitsIff(id: string, d: Option<Dir>, draft: Draft, now: string, f: Faults)
    ensures Committed(Apply(id, d, draft, now, f).1) <==>
            f.load && ((d.Some? && Loadable(id, d.value)) || (d.None? && f.root && f.makeDir.Made?)) && Works(draft.pullImages, f)
  {
    ApplyIs(id, d, draft, now, f);
    if Starts(id, d, f) {
      var Ready(dir, revision, existing) := Prepare(id, d, f);
      CommitsIff(dir, existing, draft.composeYAML, draft.envFile, NextMetadata(id, draft, revision, now), draft.pullImages, f);
    }
  }

  /** A rollback commits exactly when its project loads, an older revision is
      retained, its document passes, and every step works. */
  lemma RollbackCommitsIff(id: string, d: Option<Dir>, valid: bool, now: string, f: Faults)
    ensures Committed(Rollback(id, d, valid, now, f).1) <==>
            && f.load && d.Some? && Loadable(id, d.value) && f.listTargets && f.readTarget && valid && Works(false, f)
            && exists n :: n in d.value.revisions && n < d.value.metadata.value.revision
  {
    if f.load && d.Some? && Loadable(id, d.value) {
      OlderIff(d.value.revisions, d.value.metadata.value.revision);
    }
    if RollsBack(id, d, valid, f) {
      var m := d.value.metadata.value;
      RollbackIs(id, d, valid, now, f);
      CommitsIff(d.value, true, TargetYaml(id, d, valid, f), d.value.env.value,
                 m.(revision := m.revision + 1, updatedAt := now), false, f);
    }
  }

  /** What a client is told about rolling back is whether there is a target. */
  lemma OlderIff(m: map<nat, string>, current: int)
    ensures Older(m, current) != {} <==> exists n :: n in m && n < current
    ensures RollbackAvailable(m, current, true) <==> Older(m, current) != {}
    ensures !RollbackAvailable(m, current, false)
  {
    if n :| n in m && n < current {
      assert n in Older(m, current);
    }
  }

  /** An archive succeeds exactly when the project loads, is stopped and is moved
      with its mode set; the directory is gone exactly when it was moved. */
  lemma ArchiveIff(id: string, d: Option<Dir>, f: Faults)
    ensures
      var (left, moved, o) := Archive(id, d, f);
      var moves := f.load && d.Some? && Loadable(id, d.value) && f.readTarget && f.down && f.archiveFree && f.archiveMove;
      && (o.Success? <==> moves && f.archiveMode)
      && (left, moved) == (if moves then (None, d) else (d, None))
  {
  }

  /** The report of a deployment, step by step. */
  lemma DeployReport(d: Dir, existing: bool, yaml: string, env: string, m: Metadata, pull: bool, f: Faults)
    requires m.revision >= 1
    ensures
      var (after, o) := Deploy(d, existing, yaml, env, m, pull, f);
      var written := f.revision.Written? && f.capture && f.compose.Written? && f.env.Written? && f.metadata.Written?;
      var pruned := f.listForPrune && |d.revisions[m.revision := yaml]| <= f.removals + 5;
      && (o.Success? <==> Works(pull, f) && pruned)
      && (o == Failed(PruneFailed) <==> Works(pull, f) && !pruned)
      && (o == Failed(WriteFailed) <==> !written)
      && (o == Failed(RestoreFailed) <==>
            written && !Works(pull, f) &&
            !(f.undoCompose.Written? && f.undoEnv.Written? && f.undoMetadata.Written? && (existing ==> f.upAgain)))
      && (o.Success? ==> o.revision == m.revision && after.Some?)
      && (o.Success? ==> (o.rollbackAvailable <==> f.listAfter && exists n :: n in after.value.revisions && n < m.revision))
  {
  }

  /** A commit always leaves them in agreement. */
  lemma CommitAgrees(id: string, d: Option<Dir>, op: Op)
    requires Committed(Do(id, d, op).1) && !op.ArchiveOp?
    ensures Agrees(id, d, op)
  {
    match op
    case ApplyOp(draft, now, f) =>
      ApplyIs(id, d, draft, now, f);
      var Ready(dir, revision, existing) := Prepare(id, d, f);
      CommitsIff(dir, existing, draft.composeYAML, draft.envFile, NextMetadata(id, draft, revision, now), draft.pullImages, f);
    case RollbackOp(valid, now, f) =>
      var m := d.value.metadata.value;
      CommitsIff(d.value, true, TargetYaml(id, d, valid, f), d.value.env.value,
                 m.(revision := m.revision + 1, updatedAt := now), false, f);
  }

  /** The window is lost where an undo write fails: the update of an existing
      project fails in Docker, its compose file is not put back, all else is. */
  lemma LostWindowExample(d: Dir, draft: Draft, m: Metadata, f: Faults)
    requires d == Dir(Some("old"), Some(""), Some(m), map[1 := "old"]) && ValidMetadata(m, m.id) && m.revision == 1
    requires draft == Draft(m.id, "app", "new", "", false)
    requires f == Faults(true, true, Made, true, true, true, Written, true, Written, Written, Written,
                         true, false, Refused, Written, Written, true, true, true, true, 0, true, true, true, true, true)
    ensures Window(m.id, Some(d))
    ensures Apply(m.id, Some(d), draft, "t", f) == (Some(d.(compose := Some("new"))), Failed(RestoreFailed))
    ensures !Window(m.id, Apply(m.id, Some(d), draft, "t", f).0)
  {
    assert map[1 := "old", 2 := "new"] - {2} == map[1 := "old"];
    assert InWindow(d.revisions, 1, 1);
  }

  ghost function Run(id: string, d: Option<Dir>, ops: seq<Op>): Option<Dir>
    decreases |ops|
  {
    if ops == [] then d else Run(id, Do(id, d, ops[0]).0, ops[1..])
  }

  ghost predicate AgreesRun(id: string, d: Option<Dir>, ops: seq<Op>)
    decreases |ops|
  {
    ops != [] ==> Agrees(id, d, ops[0]) && AgreesRun(id, Do(id, d, ops[0]).0, ops[1..])
  }

  predicate NormalRun(id: string, ops: seq<Op>) {
    forall i | 0 <= i < |ops| :: Normal(id, ops[i])
  }

  ghost predicate WindowThroughout(id: string, d: Option<Dir>, ops: seq<Op>) {
    forall k | 0 <= k <= |ops| :: Window(id, Run(id, d, ops[..k]))
  }

  lemma ThroughoutStep(id: string, d: Option<Dir>, ops: seq<Op>)
    requires ops != []
    ensures WindowThroughout(id, d, ops) <==> Window(id, d) && WindowThroughout(id, Do(id, d, ops[0]).0, ops[1..])
  {
    var next, rest := Do(id, d, ops[0]).0, ops[1..];
    forall k | 0 <= k <= |rest| ensures Run(id, d, ops[..k + 1]) == Run(id, next, rest[..k]) {
      assert ops[..k + 1][1..] == rest[..k];
    }
    assert Run(id, d, ops[..0]) == d;
    if WindowThroughout(id, d, ops) {
      forall k | 0 <= k <= |rest| ensures Window(id, Run(id, next, rest[..k])) {
        assert Window(id, Run(id, d, ops[..k + 1]));
      }
    }
    if Window(id, d) && WindowThroughout(id, next, rest) {
      forall k | 0 <= k <= |ops| ensures Window(id, Run(id, d, ops[..k])) {
        assert k > 0 ==> Window(id, Run(id, next, rest[..k - 1]));
      }
    }
  }

  /** Over a run the window holds after every operation, failures included, exactly
      when no operation's faults part file and revision. */
  lemma {:induction false} WindowOverRuns(id: string, d: Option<Dir>, ops: seq<Op>)
    requires Window(id, d) && NormalRun(id, ops)
    ensures WindowThroughout(id, d, ops) <==> AgreesRun(id, d, ops)
    ensures AgreesRun(id, d, ops) ==> Window(id, Run(id, d, ops))
    decreases |ops|
  {
    if ops == [] {
      assert ops[..0] == [];
    } else {
      var next := Do(id, d, ops[0]).0;
      assert Normal(id, ops[0]);
      StepKeepsWindowIff(id, d, ops[0]);
      ThroughoutStep(id, d, ops);
      if Window(id, next) {
        WindowOverRuns(id, next, ops[1..]);
      } else {
        assert !Window(id, Run(id, next, ops[1..][..0]));
      }
    }
  }

  /** The current revision is retained and holds the compose file. */
  ghost predicate HeadStands(d: Option<Dir>) {
    && d.Some? && d.value.metadata.Some? && d.value.compose.Some?
    && var revision := d.value.metadata.value.revision;
       revision in d.value.revisions && d.value.revisions[revision] == d.value.compose.value
  }

  /** So it is after every commit, with no condition on the undo steps. */
  lemma CommittedRevisionStands(id: string, d: Option<Dir>, op: Op)
    requires Window(id, d) && Committed(Do(id, d, op).1) && !op.ArchiveOp?
    ensures HeadStands(Do(id, d, op).0)
  {
    match op
    case ApplyOp(draft, now, f) =>
      ApplyIs(id, d, draft, now, f);
      var Ready(dir, revision, existing) := Prepare(id, d, f);
      CommittedHead(id, dir, existing, draft.composeYAML, draft.envFile, NextMetadata(id, draft, revision, now), draft.pullImages, f);
    case RollbackOp(valid, now, f) =>
      var m := d.value.metadata.value;
      CommittedHead(id, d.value, true, TargetYaml(id, d, valid, f), d.value.env.value,
                    m.(revision := m.revision + 1, updatedAt := now), false, f);
  }

  lemma CommittedHead(id: string, d: Dir, existing: bool, yaml: string, env: string, m: Metadata, pull: bool, f: Faults)
    requires m.revision >= 1 && Window(id, Some(d)) && Committed(Deploy(d, existing, yaml, env, m, pull, f).1)
    requires if existing then d.metadata.Some? && m.revision == d.metadata.value.revision + 1
             else d == EMPTY_DIR && m.revision == 1
    ensures HeadStands(Deploy(d, existing, yaml, env, m, pull, f).0)
  {
    CommittedDeploy(d, existing, yaml, env, m, pull, f);
    var low: nat := 1;
    if existing {
      low :| 1 <= low <= d.metadata.value.revision && InWindow(d.revisions, low, d.metadata.value.revision);
    }
    PrunedHead(d.revisions, low, m.revision, yaml, f);
  }

  lemma PrunedHead(revisions: map<nat, string>, low: nat, number: nat, yaml: string, f: Faults)
    requires 1 <= low <= number
    requires if low == number then revisions == map[] else InWindow(revisions, low, number - 1)
    ensures var pruned := Prune(revisions[number := yaml], f); number in pruned && pruned[number] == yaml
  {
    assert Contiguous(revisions[number := yaml], low, number);
    PruneWindow(revisions[number := yaml], low, number, f);
  }

  /** A committed rollback leaves its target's content as the compose file. */
  lemma RollbackLeavesTarget(id: string, d: Option<Dir>, valid: bool, now: string, f: Faults)
    requires Committed(Rollback(id, d, valid, now, f).1)
    ensures RollsBack(id, d, valid, f) && valid
    ensures
      var after := Rollback(id, d, valid, now, f).0;
      d.Some? && after.Some? && after.value.compose == Some(TargetYaml(id, d, valid, f))
  {
    RollbackIs(id, d, valid, now, f);
    var m := d.value.metadata.value;
    CommittedDeploy(d.value, true, TargetYaml(id, d, valid, f), d.value.env.value,
                    m.(revision := m.revision + 1, updatedAt := now), false, f);
  }

  /** A committed rollback deploys the newest retained content below the current
      revision, with the env file and the metadata of the project, as the next one. */
  lemma CommittedRollback(id: string, d: Option<Dir>, valid: bool, now: string, f: Faults) returns (target: nat)
    requires Committed(Rollback(id, d, valid, now, f).1)
    ensures d.Some? && d.value.metadata.Some? && d.value.env.Some?
    ensures target in d.value.revisions && target < d.value.metadata.value.revision
    ensures forall n | n in d.value.revisions && n < d.value.metadata.value.revision :: n <= target
    ensures
      var (after, o) := Rollback(id, d, valid, now, f);
      var m := d.value.metadata.value;
      && after.Some? && after.value.compose == Some(d.value.revisions[target]) && after.value.env == d.value.env
      && after.value.metadata == Some(Metadata(m.id, m.displayName, m.projectName, m.revision + 1, now))
      && (o.Success? ==> o.revision == m.revision + 1)
  {
    RollbackLeavesTarget(id, d, valid, now, f);
    RollbackIs(id, d, valid, now, f);
    var m := d.value.metadata.value;
    target := Target(d.value.revisions, m.revision);
    CommittedDeploy(d.value, true, TargetYaml(id, d, valid, f), d.value.env.value,
                    m.(revision := m.revision + 1, updatedAt := now), false, f);
    forall n | n in d.value.revisions && n < m.revision ensures n <= target {
      assert n in Older(d.value.revisions, m.revision);
    }
  }

  lemma FailedRollbackKeepsRevisions(id: string, d: Option<Dir>, valid: bool, now: string, f: Faults, n: nat)
    requires !Committed(Rollback(id, d, valid, now, f).1) && n in RevisionsOf(d) && n != NextRevision(d)
    ensures n in RevisionsOf(Rollback(id, d, valid, now, f).0)
    ensures RevisionsOf(Rollback(id, d, valid, now, f).0)[n] == RevisionsOf(d)[n]
  {
    if RollsBack(id, d, valid, f) {
      RollbackIs(id, d, valid, now, f);
      var m := d.value.metadata.value;
      FailedDeployRevisions(d.value, true, TargetYaml(id, d, valid, f), d.value.env.value,
                            m.(revision := m.revision + 1, updatedAt := now), false, f);
    }
  }

  lemma DeploySuccessKeepsFive(d: Dir, existing: bool, yaml: string, env: string, m: Metadata, pull: bool, f: Faults)
    requires m.revision >= 1 && Deploy(d, existing, yaml, env, m, pull, f).1.Success?
    ensures KeptFive(d.revisions, RevisionsOf(Deploy(d, existing, yaml, env, m, pull, f).0))
  {
    CommittedDeploy(d, existing, yaml, env, m, pull, f);
    PruneKeepsLargestFive(d.revisions[m.revision := yaml], f);
  }

  /** At most five revisions remain and none of those dropped is newer than one kept. */
  ghost predicate KeptFive(before: map<nat, string>, after: map<nat, string>) {
    |after| <= 5 && forall gone, kept | gone in before && gone !in after && kept in after :: gone < kept
  }

  lemma SuccessKeepsFive(id: string, d: Option<Dir>, op: Op)
    requires Do(id, d, op).1.Success? && !op.ArchiveOp?
    ensures KeptFive(RevisionsOf(d), RevisionsOf(Do(id, d, op).0))
  {
    match op
    case ApplyOp(draft, now, f) =>
      ApplyIs(id, d, draft, now, f);
      var Ready(dir, revision, existing) := Prepare(id, d, f);
      DeploySuccessKeepsFive(dir, existing, draft.composeYAML, draft.envFile, NextMetadata(id, draft, revision, now),
                             draft.pullImages, f);
    case RollbackOp(valid, now, f) =>
      var m := d.value.metadata.value;
      DeploySuccessKeepsFive(d.value, true, d.value.revisions[Target(d.value.revisions, m.revision)], d.value.env.value,
                             m.(revision := m.revision + 1, updatedAt := now), false, f);
  }

  // ---------------------------------------------------------------------
  // Rolling back
  // ---------------------------------------------------------------------

  /** Two contents taking turns: revision r holds one and r - 1 the other. */
  datatype Turn = Turn(revision: int, current: string, previous: string, env: string)

  function Turned(t: Turn): Turn {
    Turn(t.revision + 1, t.previous, t.current, t.env)
  }

  function TurnedBy(t: Turn, n: nat): Turn {
    if n % 2 == 0 then t.(revision := t.revision + n) else Turned(t).(revision := t.revision + n)
  }

  ghost predicate Stands(d: Option<Dir>, t: Turn) {
    && d.Some? && d.value.metadata.Some? && d.value.metadata.value.revision == t.revision && t.revision >= 2
    && d.value.compose == Some(t.current) && d.value.env == Some(t.env)
    && t.revision in d.value.revisions && d.value.revisions[t.revision] == t.current
    && t.revision - 1 in d.value.revisions && d.value.revisions[t.revision - 1] == t.previous
  }

  lemma TargetIsPrevious(m: map<nat, string>, revision: int)
    requires revision >= 1 && revision - 1 in m
    ensures Older(m, revision) != {} && Target(m, revision) == revision - 1
  {
    assert revision - 1 in Older(m, revision);
  }

  /** The rollback leaves the next revision's metadata: it commits, or it fails and
      cannot put the old metadata back. */
  ghost predicate Advances(id: string, d: Option<Dir>, op: Op)
    requires op.RollbackOp?
  {
    RollsBack(id, d, op.valid, op.f) && (Works(false, op.f) || MetadataStays(op.f))
  }

  lemma CommittedDeployTurns(d: Dir, low: nat, t: Turn, next: Metadata, f: Faults)
    requires Stands(Some(d), t) && next.revision == t.revision + 1 && Works(false, f)
    requires 1 <= low <= t.revision && InWindow(d.revisions, low, t.revision)
    ensures Stands(Deploy(d, true, t.previous, t.env, next, false, f).0, Turned(t))
  {
    CommitsIff(d, true, t.previous, t.env, next, false, f);
    CommittedDeploy(d, true, t.previous, t.env, next, false, f);
    PruneWindow(d.revisions[t.revision + 1 := t.previous], low, t.revision + 1, f);
  }

  lemma FailedDeployTurnsIff(d: Dir, t: Turn, next: Metadata, f: Faults)
    requires Stands(Some(d), t) && next.revision == t.revision + 1 && !Works(false, f)
    ensures AgreesAfter(t.current == t.previous, false, f) <==>
            Stands(Deploy(d, true, t.previous, t.env, next, false, f).0, if MetadataStays(f) then Turned(t) else t)
  {
    CommitsIff(d, true, t.previous, t.env, next, false, f);
    FailedDeployRevisions(d, true, t.previous, t.env, next, false, f);
    if f.revision.Written? && f.capture && f.compose.Written? {
      FailedDeployFiles(d, true, t.previous, t.env, next, false, f);
    } else {
      UnwrittenDeployFiles(d, true, t.previous, t.env, next, false, f);
    }
  }

  /** One rollback attempt on two contents taking turns: it gives them another
      turn, or none, exactly when its faults leave file and revision in agreement. */
  lemma RollbackTurnsIff(id: string, d: Option<Dir>, op: Op, t: Turn)
    requires op.RollbackOp? && Window(id, d) && Stands(d, t)
    ensures Agrees(id, d, op) <==> Stands(Do(id, d, op).0, if Advances(id, d, op) then Turned(t) else t)
    ensures Committed(Do(id, d, op).1) ==> Advances(id, d, op)
  {
    var RollbackOp(valid, now, f) := op;
    if RollsBack(id, d, valid, f) {
      var dir, m := d.value, d.value.metadata.value;
      var next := m.(revision := m.revision + 1, updatedAt := now);
      TargetIsPrevious(dir.revisions, t.revision);
      assert Do(id, d, op) == Deploy(dir, true, t.previous, t.env, next, false, f);
      CommitsIff(dir, true, t.previous, t.env, next, false, f);
      if Works(false, f) {
        var low: nat :| 1 <= low <= t.revision && InWindow(dir.revisions, low, t.revision);
        CommittedDeployTurns(dir, low, t, next, f);
      } else {
        FailedDeployTurnsIff(dir, t, next, f);
      }
    }
  }

  /** A committed rollback swaps the two contents, whatever its undo steps would do. */
  lemma RollbackSwaps(id: string, d: Option<Dir>, op: Op, t: Turn)
    requires op.RollbackOp? && Window(id, d) && Stands(d, t) && Committed(Do(id, d, op).1)
    ensures Stands(Do(id, d, op).0, Turned(t)) && Window(id, Do(id, d, op).0)
  {
    CommitAgrees(id, d, op);
    RollbackTurnsIff(id, d, op, t);
    StepKeepsWindowIff(id, d, op);
  }

  /** How many operations of a run of rollbacks advanced, and how many committed. */
  ghost function Advanced(id: string, d: Option<Dir>, ops: seq<Op>): nat
    requires forall i | 0 <= i < |ops| :: ops[i].RollbackOp?
    decreases |ops|
  {
    if ops == [] then 0
    else (if Advances(id, d, ops[0]) then 1 else 0) + Advanced(id, Do(id, d, ops[0]).0, ops[1..])
  }

  ghost function Commits(id: string, d: Option<Dir>, ops: seq<Op>): nat
    decreases |ops|
  {
    if ops == [] then 0
    else (if Committed(Do(id, d, ops[0]).1) then 1 else 0) + Commits(id, Do(id, d, ops[0]).0, ops[1..])
  }

  lemma OneMoreTurn(t: Turn, n: nat)
    ensures TurnedBy(Turned(t), n) == TurnedBy(t, n + 1)
  {
    assert (n + 1) % 2 == 0 <==> n % 2 == 1;
  }

  lemma NextTurn(id: string, d: Option<Dir>, op: Op, t: Turn) returns (next: Turn)
    requires op.RollbackOp? && Window(id, d) && Agrees(id, d, op) && Stands(d, t)
    ensures next == (if Advances(id, d, op) then Turned(t) else t)
    ensures Window(id, Do(id, d, op).0) && Stands(Do(id, d, op).0, next)
    ensures Committed(Do(id, d, op).1) ==> Advances(id, d, op)
  {
    StepKeepsWindowIff(id, d, op);
    RollbackTurnsIff(id, d, op, t);
    next := if Advances(id, d, op) then Turned(t) else t;
  }

  /** Any run of rollbacks that keeps the window, failed ones among them,
      alternates between two contents by the parity of its turns; the env file
      never changes, the revision counts the turns, and every commit is one. */
  lemma {:induction false} RollbacksAlternate(id: string, d: Option<Dir>, ops: seq<Op>, t: Turn)
    requires forall i | 0 <= i < |ops| :: ops[i].RollbackOp?
    requires Window(id, d) && AgreesRun(id, d, ops) && Stands(d, t)
    ensures Stands(Run(id, d, ops), TurnedBy(t, Advanced(id, d, ops)))
    ensures Commits(id, d, ops) <= Advanced(id, d, ops)
    decreases |ops|
  {
    if ops != [] {
      var after := Do(id, d, ops[0]).0;
      var turn := NextTurn(id, d, ops[0], t);
      RollbacksAlternate(id, after, ops[1..], turn);
      OneMoreTurn(t, Advanced(id, after, ops[1..]));
    }
  }

  lemma WindowHasTurn(id: string, d: Option<Dir>, valid: bool, f: Faults) returns (t: Turn)
    requires Window(id, d) && RollsBack(id, d, valid, f)
    ensures Stands(d, t)
  {
    var dir, revision := d.value, d.value.metadata.value.revision;
    var low: nat :| 1 <= low <= revision && InWindow(dir.revisions, low, revision);
    var target := Target(dir.revisions, revision);
    assert target in dir.revisions && target < revision;
    t := Turn(revision, dir.compose.value, dir.revisions[revision - 1], dir.env.value);
  }

  /** Two committed rollbacks in a row undo each other. */
  lemma RollbackTwice(id: string, d: Option<Dir>, first: Op, second: Op)
    requires first.RollbackOp? && second.RollbackOp? && Window(id, d)
    requires Committed(Do(id, d, first).1) && Committed(Do(id, Do(id, d, first).0, second).1)
    ensures
      var after := Do(id, Do(id, d, first).0, second).0;
      && d.Some? && after.Some? && after.value.compose == d.value.compose && after.value.env == d.value.env
      && d.value.metadata.Some? && after.value.metadata.Some?
      && after.value.metadata.value.revision == d.value.metadata.value.revision + 2
  {
    var t := WindowHasTurn(id, d, first.valid, first.f);
    RollbackSwaps(id, d, first, t);
    RollbackSwaps(id, Do(id, d, first).0, second, Turned(t));
  }
}
