/** The files of one managed Compose project and what the deployment operations
    do to them.

    Every step that may fail has a field in a fault script, so each operation is
    a function of the directory, the request and the script, and a theorem about
    all scripts is a theorem about failure at any step. */
module ComposeFiles {
  import opened Collections
  import opened Wrappers
  import opened Sorted
  import Utf8

  const REVISION_LIMIT := 5
  const MAX_DISPLAY_NAME_BYTES := 128

  datatype Metadata = Metadata(id: string, displayName: string, projectName: string, revision: int, updatedAt: string)

  /** The three current files and the numbered revisions. An empty revisions
      directory and a missing one are the same here. */
  datatype Dir = Dir(compose: Option<string>, env: Option<string>, metadata: Option<Metadata>, revisions: map<nat, string>)

  const EMPTY_DIR := Dir(None, None, None, map[])

  datatype Draft = Draft(projectID: string, displayName: string, composeYAML: string, envFile: string, pullImages: bool)

  /** A file write ends in a rename and then sets the file mode: it can report
      failure with the old content or with the new content in place. */
  datatype Write = Written | Refused | WrittenThenRefused

  datatype MakeDir = Made | NotMade | MadeThenRefused

  /** One field per fallible step; true means the step works. */
  datatype Faults = Faults(
    load: bool, root: bool, makeDir: MakeDir,
    listTargets: bool, readTarget: bool, configRun: bool,
    revision: Write, capture: bool, compose: Write, env: Write, metadata: Write,
    pull: bool, up: bool,
    undoCompose: Write, undoEnv: Write, undoMetadata: Write, upAgain: bool,
    removeRevision: bool, cleanup: bool,
    listForPrune: bool, removals: nat, listAfter: bool,
    down: bool, archiveFree: bool, archiveMove: bool, archiveMode: bool)

  datatype Error =
    | BadRequest | Busy | NotValidated | BadToken | StateInvalid | NoRevision | ReadFailed
    | WriteFailed | DeployFailed | RestoreFailed | PruneFailed | ArchiveFailed

  datatype Outcome = Success(revision: int, rollbackAvailable: bool) | Failed(error: Error)

  /** The new revision stands: only pruning can still fail after this point. */
  predicate Committed(o: Outcome) {
    o.Success? || o.error.PruneFailed?
  }

  // ---------------------------------------------------------------------
  // Names and metadata
  // ---------------------------------------------------------------------

  function ProjectName(id: string): string {
    "mizupanel-" + id
  }

  function ByteLength(s: string): nat {
    if s == "" then 0
    else
      var c := s[0] as int;
      (if c < 0x80 then 1 else if c < 0x800 then 2 else if c < 0x10000 then 3 else 4) + ByteLength(s[1..])
  }

  function CodePoints(s: string): (cs: seq<nat>)
    ensures Utf8.Scalars(cs)
  {
    seq(|s|, i requires 0 <= i < |s| => s[i] as nat)
  }

  /** The byte length of a text is that of its UTF-8 encoding. */
  lemma {:induction false} ByteLengthIsEncoded(s: string)
    ensures ByteLength(s) == |Utf8.EncodeRunes(CodePoints(s))|
    decreases |s|
  {
    if s != "" {
      ByteLengthIsEncoded(s[1..]);
      assert CodePoints(s)[1..] == CodePoints(s[1..]);
      EncodedLength(s[0]);
    }
  }

  lemma EncodedLength(c: char)
    ensures |Utf8.EncodeRune(c as nat)| == ByteLength([c])
  {
    assert [c][1..] == "";
  }

  predicate Control(c: char) {
    c as int < 0x20 || 0x7f <= c as int < 0xa0
  }

  predicate ValidDisplayName(name: string) {
    name != "" && ByteLength(name) <= MAX_DISPLAY_NAME_BYTES && forall i | 0 <= i < |name| :: !Control(name[i])
  }

  predicate LowerHex(c: char) {
    '0' <= c <= '9' || 'a' <= c <= 'f'
  }

  /** A canonical, non-nil UUID. */
  predicate ValidProjectID(id: string) {
    && |id| == 36
    && (forall i | 0 <= i < 36 :: if i in {8, 13, 18, 23} then id[i] == '-' else LowerHex(id[i]))
    && exists i | 0 <= i < 36 :: id[i] != '-' && id[i] != '0'
  }

  predicate ValidMetadata(m: Metadata, id: string) {
    m.id == id && ValidProjectID(m.id) && m.projectName == ProjectName(id) && ValidDisplayName(m.displayName) && m.revision >= 1
  }

  // ---------------------------------------------------------------------
  // Single steps
  // ---------------------------------------------------------------------

  function Put<T>(current: Option<T>, content: T, w: Write): Option<T> {
    if w.Refused? then current else Some(content)
  }

  /** Writing a captured file back, or removing a file that was absent. A removal
      that reports failure has removed nothing. */
  function Undo<T>(current: Option<T>, backup: Option<T>, w: Write): Option<T> {
    match backup
    case Some(content) => if w.Refused? then current else backup
    case None => if w.Written? then None else current
  }

  function UndoFiles(d: Dir, before: Dir, f: Faults): Dir {
    d.(compose := Undo(d.compose, before.compose, f.undoCompose),
       env := Undo(d.env, before.env, f.undoEnv),
       metadata := Undo(d.metadata, before.metadata, f.undoMetadata))
  }

  predicate UndoReports(f: Faults) {
    f.undoCompose.Written? && f.undoEnv.Written? && f.undoMetadata.Written?
  }

  /** Capture the three files, then write them in order; a failed second or third
      write puts the captured files back, a failed first write does not. */
  function Replace(d: Dir, yaml: string, env: string, m: Metadata, f: Faults): (r: (Dir, bool)) {
    var d1 := d.(compose := Put(d.compose, yaml, f.compose));
    var d2 := d1.(env := Put(d1.env, env, f.env));
    var d3 := d2.(metadata := Put(d2.metadata, m, f.metadata));
    if !f.capture then (d, false)
    else if !f.compose.Written? then (d1, false)
    else if !f.env.Written? then (UndoFiles(d2, d, f), false)
    else if !f.metadata.Written? then (UndoFiles(d3, d, f), false)
    else (d3, true)
  }

  function DropRevision(d: Dir, n: nat, works: bool): Dir {
    if works then d.(revisions := d.revisions - {n}) else d
  }

  /** The removal of an emptied project directory. */
  function Cleanup(d: Dir, works: bool): Option<Dir> {
    if works && d == EMPTY_DIR then None else Some(d)
  }

  // ---------------------------------------------------------------------
  // Revisions in order
  // ---------------------------------------------------------------------

  ghost function RemoveSmallest<T>(m: map<nat, T>, count: nat): (r: map<nat, T>) {
    if count == 0 || m == map[] then m else RemoveSmallest(m - {Min(m.Keys)}, count - 1)
  }

  function Excess(m: map<nat, string>): nat {
    if |m| <= REVISION_LIMIT then 0 else |m| - REVISION_LIMIT
  }

  predicate PruneReports(m: map<nat, string>, f: Faults) {
    f.listForPrune && Excess(m) <= f.removals
  }

  /** Prune removes the lowest numbers first and stops at the first removal that
      fails. */
  ghost function Prune(m: map<nat, string>, f: Faults): map<nat, string> {
    if !f.listForPrune then m
    else RemoveSmallest(m, if Excess(m) <= f.removals then Excess(m) else f.removals)
  }

  predicate RollbackAvailable(m: map<nat, string>, current: int, listed: bool) {
    listed && exists n | n in m :: n < current
  }

  // ---------------------------------------------------------------------
  // The operations
  // ---------------------------------------------------------------------

  /** The common part of apply and rollback: write the revision, replace the
      files, run Docker, undo or prune. existing tells a known project from one
      whose directory this request made. */
  ghost function Deploy(d: Dir, existing: bool, yaml: string, env: string, m: Metadata, pull: bool, f: Faults): (r: (Option<Dir>, Outcome))
    requires m.revision >= 1
  {
    var d1 := d.(revisions := if f.revision.Refused? then d.revisions else d.revisions[m.revision := yaml]);
    var (d2, replaced) := Replace(d1, yaml, env, m, f);
    if !f.revision.Written? then (Some(d1), Failed(WriteFailed))
    else if !replaced then (Some(DropRevision(d2, m.revision, f.removeRevision)), Failed(WriteFailed))
    else if (pull && !f.pull) || !f.up then
      var undone := DropRevision(UndoFiles(d2, d1, f), m.revision, f.removeRevision);
      (if existing then Some(undone) else Cleanup(undone, f.cleanup),
       Failed(if !UndoReports(f) || (existing && !f.upAgain) then RestoreFailed else DeployFailed))
    else
      var d3 := d2.(revisions := Prune(d2.revisions, f));
      (Some(d3),
       if !PruneReports(d2.revisions, f) then Failed(PruneFailed)
       else Success(m.revision, RollbackAvailable(d3.revisions, m.revision, f.listAfter)))
  }

  datatype LoadResult = Loaded(metadata: Metadata) | NotFound | LoadFailed

  function Load(id: string, d: Option<Dir>, f: Faults): LoadResult {
    if !f.load then LoadFailed
    else if d.None? || d.value.metadata.None? then NotFound
    else if !ValidMetadata(d.value.metadata.value, id) || d.value.compose.None? || d.value.env.None? then LoadFailed
    else Loaded(d.value.metadata.value)
  }

  datatype Prepared = Ready(dir: Dir, revision: int, existing: bool) | NotReady(left: Option<Dir>)

  /** A project directory that exists without metadata is refused, not reused. */
  function Prepare(id: string, d: Option<Dir>, f: Faults): (r: Prepared)
    ensures r.Ready? ==> r.revision >= 0
  {
    match Load(id, d, f)
    case Loaded(m) => Ready(d.value, m.revision, true)
    case LoadFailed => NotReady(d)
    case NotFound =>
      if !f.root || d.Some? || f.makeDir.NotMade? then NotReady(d)
      else if f.makeDir.MadeThenRefused? then NotReady(Some(EMPTY_DIR))
      else Ready(EMPTY_DIR, 0, false)
  }

  function NextMetadata(id: string, draft: Draft, revision: int, now: string): Metadata {
    Metadata(id, draft.displayName, ProjectName(id), revision + 1, now)
  }

  ghost function Apply(id: string, d: Option<Dir>, draft: Draft, now: string, f: Faults): (r: (Option<Dir>, Outcome)) {
    match Prepare(id, d, f)
    case NotReady(left) => (left, Failed(StateInvalid))
    case Ready(dir, revision, existing) =>
      Deploy(dir, existing, draft.composeYAML, draft.envFile, NextMetadata(id, draft, revision, now), draft.pullImages, f)
  }

  /** The retained revisions below the current one. */
  function Older(m: map<nat, string>, current: int): set<nat> {
    set n | n in m && n < current
  }

  ghost predicate IsTarget(m: map<nat, string>, current: int, n: nat) {
    n in Older(m, current) && forall k | k in Older(m, current) :: k <= n
  }

  lemma TargetExists(m: map<nat, string>, current: int)
    requires Older(m, current) != {}
    ensures exists n: nat :: IsTarget(m, current, n)
  {
    MaxExists(Older(m, current));
    var n :| n in Older(m, current) && forall k | k in Older(m, current) :: k <= n;
    assert IsTarget(m, current, n);
  }

  /** The newest retained revision below the current one. */
  ghost function Target(m: map<nat, string>, current: int): (n: nat)
    requires Older(m, current) != {}
    ensures IsTarget(m, current, n)
  {
    TargetExists(m, current);
    var n: nat :| IsTarget(m, current, n);
    n
  }

  /** What stops a rollback before it deploys; valid is the verdict on the target
      revision's document. */
  function RollbackBlocked(id: string, d: Option<Dir>, valid: bool, f: Faults): Option<Error> {
    match Load(id, d, f)
    case NotFound => Some(StateInvalid)
    case LoadFailed => Some(StateInvalid)
    case Loaded(m) =>
      if !f.listTargets then Some(ReadFailed)
      else if Older(d.value.revisions, m.revision) == {} then Some(NoRevision)
      else if !f.readTarget then Some(ReadFailed)
      else if !valid then Some(NotValidated)
      else None
  }

  /** A rollback deploys the target's content again, as the next revision. */
  ghost function RollbackDeploy(d: Dir, now: string, f: Faults): (r: (Option<Dir>, Outcome))
    requires d.metadata.Some? && d.metadata.value.revision >= 1 && d.env.Some?
    requires Older(d.revisions, d.metadata.value.revision) != {}
  {
    var m := d.metadata.value;
    Deploy(d, true, d.revisions[Target(d.revisions, m.revision)], d.env.value,
           m.(revision := m.revision + 1, updatedAt := now), false, f)
  }

  ghost function Rollback(id: string, d: Option<Dir>, valid: bool, now: string, f: Faults): (r: (Option<Dir>, Outcome)) {
    match RollbackBlocked(id, d, valid, f)
    case Some(error) => (d, Failed(error))
    case None => RollbackDeploy(d.value, now, f)
  }

  /** Archiving moves the whole directory; a failed mode change is reported after
      the move. The second component is what was moved. */
  function Archive(id: string, d: Option<Dir>, f: Faults): (r: (Option<Dir>, Option<Dir>, Outcome)) {
    match Load(id, d, f)
    case NotFound => (d, None, Failed(StateInvalid))
    case LoadFailed => (d, None, Failed(StateInvalid))
    case Loaded(m) =>
      if !f.readTarget then (d, None, Failed(ReadFailed))
      else if !f.down then (d, None, Failed(DeployFailed))
      else if !f.archiveFree || !f.archiveMove then (d, None, Failed(ArchiveFailed))
      else if !f.archiveMode then (None, d, Failed(ArchiveFailed))
      else (None, d, Success(m.revision, false))
  }
}
