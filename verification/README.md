# Verification model of MizuPanel's stateful core

MizuPanel is a server with agents on managed nodes. This project models the
parts of both whose correctness rests on state that survives errors,
interleavings or cycles, and proves what they keep.

## Components

**Managed Compose deployments** (`internal/agent/docker/compose_deployment.go`).
A project directory holds a compose file, an env file, metadata and numbered
revisions. Apply and rollback write a revision, replace the three files, run
Docker, undo everything on failure and prune to five revisions.
`ComposeFiles` gives each operation as a function of the directory, the request
and a *fault script* that says for every fallible step how it turns out, so a
theorem over all scripts is a theorem about failure at any step.
`ComposeProject` and `ComposeHandler` are the same operations as methods that
change a directory, a lock table and a confirmation store, proved equal to those
functions. `ComposeTransactions` proves failure atomicity, the revision window
and the rollback laws; `ComposeInterleaving` and `ComposeSteps` carry the window
from serial runs to interleaved file effects of many projects;
`ComposeConfirmations` is the token store over whole runs, `RevisionNames` the
naming of revision files.

**YAML alias graphs** (same file). Documents are finite graphs of nodes, with
aliases that may form cycles. `ComposeYaml` is the search for a key with a shared
visited set, `ComposeMerge` the lookup through `<<` keys (YAML 1.1, "Merge Key
Language-Independent Type"), `ComposeMeaning` says by positions which entry such a
lookup answers, `ComposeDocument` is the acceptance of a document.

**Streamed tool calls** (`internal/server/ai/openai.go`). `ToolStream` specifies
the event-stream reader (WHATWG HTML, section 9.2.6 "Interpreting an event
stream") and the attribution of fragments to calls, `ToolStreamParser` is the
parser as it runs. `ToolFraming` and `ToolEvents` read printed events back,
`ToolReassembly` and `ToolNaming` prove that every call comes back whole where
fragments name provider indexes and where they go by ID and by their place in the
frame. `ToolOutcomes` says what stops a stream and what every response satisfies.

**Hub** (`internal/server/agenthub/hub.go`). `AgentRpc` is the pending-request
protocol as interleaved atomic steps, `InstallAuth` the install-token store.

**Self-upgrade** (`internal/agent/upgrade/upgrader.go`). `AgentUpgrade` is the
upgrade, the restarted process and the rollback timer as atomic steps with a
crash possible between any two, and the upgrade run as a method over them.

**Bounded text and streams**. `Utf8` (section 4 of RFC 3629) and `TextBounds` are
three truncations and a bounded writer, `Lines` and `LogBuffer` the in-memory
log, `DockerLogs` the container log stream, `ContextShrink` the fitting of the
operational context into 16 KiB.

`Wrappers`, `Collections` and `Sorted` are shared helpers.

## Assumptions

The digest of a draft is injective; random tokens, node tokens and UUIDs are
fresh and not empty; clocks do not run backwards. Directory contents, Docker,
systemd, the network and the clock enter as parameters. JSON and YAML text
parsing are parameters: the YAML model starts at the node graph, where an alias
points to a node that is not itself an alias, as the YAML decoder produces it.
Revision numbers are those of a 64-bit `int`.

## Where the code falls short of the plain statement

- A compose file is written by renaming and then setting its mode. If only the
  mode fails, the first replaced file is reported as failed but stays replaced,
  and nothing undoes it. `ApplyAtomicIff` and `RollbackAtomicIff` show that this
  is the only way a failed operation loses the old files, `TornComposeExample`
  gives one.
- A first apply can leave a directory without metadata, which no later apply
  takes over. `FirstApplyStrandsIff` says when, `StrandedForever` that it lasts.
- The revision window does not survive every fault. Where a failed deployment
  cannot undo what it wrote, the compose file and the revision that the metadata
  names may differ afterwards (`LostWindowExample`). `StepKeepsWindowIff` says for
  every operation exactly which faults part them; a committed operation never
  does. `WindowOverRuns` and `WindowOverFileSteps` carry that condition through
  runs and interleavings.
- For valid output that is cut inside a four-byte character with three of its
  bytes left, the reported output ends in U+FFFD, since the replacement then
  just fits; in all other cases it is the longest valid prefix. `RunOutput`
  states the exact result.
- An exchange with an empty node ID stores a node token but leaves the install
  token unbound. `BindsIff` says so; the hub's handshake refuses empty node IDs
  (`internal/server/agenthub/hub.go:388`).
- The upgrade's rollback can be lost while a binary that never connected is
  installed: when the old process reconnects, when a second upgrade backs that
  binary up, or when a reboot forgets the transient timer. `LosesRecoveryIff`
  shows that nothing else loses it at once, `HazardStrands` and
  `StrandedUntilConnected` what each of the three costs. A reconnection between
  the marker and the rename still finds the old binary in place and loses the
  recovery of the new one later, as `ReconnectionStrands` shows.
- A container log stream without a TTY whose first byte is above 2 is read as
  raw lines, and a frame cut inside its payload is an error while one cut inside
  its header is a silent end.
- A clean end of a raw container log tells the unfinished last line, a read error
  drops it.

## Model

| member | source | states |
|---|---|---|
| ComposeYaml.Unwrap | internal/agent/docker/compose_deployment.go:572-580 | unwrapping documents and aliases ends at the node that `Resolve` names |
| ComposeYaml.SearchKey | internal/agent/docker/compose_deployment.go:626-635 | one call of the search with the shared visited set: a hit is a reachable key, a miss leaves only fully explored nodes behind |
| ComposeYaml.SearchMapping | internal/agent/docker/compose_deployment.go:636-642 | the loop over the entries of a mapping keeps that claim, early exit included |
| ComposeYaml.SearchItems | internal/agent/docker/compose_deployment.go:643-647 | the loop over sequence items keeps that claim |
| ComposeYaml.ContainsKey | internal/agent/docker/compose_deployment.go:626-649 | on every finite graph, cyclic or not, the search ends and is true iff some mapping reachable through aliases, values and items has the key |
| ComposeYaml.ExploredMeansUnreachable | internal/agent/docker/compose_deployment.go:626-649 | a visited set closed under edges without the key leaves the key unreachable: completeness of the depth-first search |
| ComposeMerge.FindVisited | internal/agent/docker/compose_deployment.go:586-624 | the lookup with one shared, never unmarked visited set returns what the path-visited reference returns, on every graph |
| ComposeMerge.FindMerged | internal/agent/docker/compose_deployment.go:601-623 | merge keys are tried in order and the first source with a value decides |
| ComposeMerge.FindOffered | internal/agent/docker/compose_deployment.go:605-621 | a merge value may be a mapping or a list of mappings, and offers exactly those |
| ComposeMerge.FindInList | internal/agent/docker/compose_deployment.go:615-621 | the list of a merge value is tried in order up to the first hit |
| ComposeMerge.MappingValue | internal/agent/docker/compose_deployment.go:582-624 | a value is found iff a mapping reached by merge keys holds the key explicitly, cycles included |
| ComposeMerge.RevisitIsVain | internal/agent/docker/compose_deployment.go:586-598 | skipping a visited mapping is harmless: a second visit from any path would find nothing |
| ComposeMerge.LookupIsNaive | internal/agent/docker/compose_deployment.go:582-624 | where merge edges descend, the reference is the naive rule: explicit key first, then the sources in order, recursively |
| ComposeMerge.AcyclicLookupIsNaive | internal/agent/docker/compose_deployment.go:582-624 | no merge cycle suffices for that: such a descent exists and reference and naive rule agree on every node and key |
| ComposeMerge.LookupFindsIff | internal/agent/docker/compose_deployment.go:582-624 | on cyclic graphs too, something is found iff it is reachable by merge edges |
| ComposeMeaning.ResolveEndsChain | internal/agent/docker/compose_deployment.go:572-580 | a node resolves to the end of the chain of anchors and only children it stands for, and that end stands for nothing further |
| ComposeMeaning.ExplicitIsFirstEntry | internal/agent/docker/compose_deployment.go:595-600 | the explicit lookup answers the value beside the first entry for the key, never the key itself or a later entry |
| ComposeMeaning.LookupAnswers | internal/agent/docker/compose_deployment.go:586-624 | on every graph, whatever is found is the explicit value in the last mapping of a path of merge keys from the node |
| ComposeMeaning.ValueIsEntryOnPath | internal/agent/docker/compose_deployment.go:582-624 | so `mappingValue` returns the value beside the first entry for the key in such a mapping, cycles included |
| ComposeMeaning.ExplicitEntryWins | internal/agent/docker/compose_deployment.go:595-600 | where the mapping holds the key itself, that entry's value is the answer, whatever it merges |
| ComposeMeaning.MergeEdgeIff | internal/agent/docker/compose_deployment.go:601-623 | a merge edge leads exactly to what a `<<` entry's mapping, or an item of its list, resolves to |
| ComposeMeaning.FirstSourceWins | internal/agent/docker/compose_deployment.go:601-623 | without such an entry and without merge cycles, the first source that has a value decides, in the order of the merge keys and of their lists |
| ComposeMeaning.NothingToFind | internal/agent/docker/compose_deployment.go:586-624 | nothing is found where neither the node nor any of its sources has a value, or the node is no mapping |
| ComposeDocument.AnalyzeDocument | internal/agent/docker/compose_deployment.go:516-550 | the document checks in the order of the code, as `Judge` |
| ComposeDocument.AnalyzeService | internal/agent/docker/compose_deployment.go:534-550 | the service checks in the order of the code, as `JudgeService` |
| ComposeDocument.JudgeServiceIff | internal/agent/docker/compose_deployment.go:534-550 | a service passes iff it is a mapping with no build key reachable anywhere below it and no extends, env_file or profiles through merges |
| ComposeDocument.AcceptedIff | internal/agent/docker/compose_deployment.go:516-550 | a document passes iff it has services, no include, no file key reachable below configs or secrets, and only passing services |
| ComposeDocument.ReasonIsTrue | internal/agent/docker/compose_deployment.go:516-550 | the reason given for a rejection is true of the document, and for a service reason some service has that defect |
| ComposeDocument.MergeImpliesKeyReachable | internal/agent/docker/compose_deployment.go:582-649 | whatever the merge lookup can find, the key search finds too |
| ComposeProject.ProjectDirectory.WriteRevision | internal/agent/docker/compose_deployment.go:1112-1124 | the three ways a revision write can end |
| ComposeProject.ProjectDirectory.Restore | internal/agent/docker/compose_deployment.go:1061-1090 | the captured files go back one by one, whatever fails, and any failure is reported |
| ComposeProject.ProjectDirectory.ReplaceFiles | internal/agent/docker/compose_deployment.go:1068-1106 | compose, env and metadata in this order; only a failed second or third write is undone |
| ComposeProject.ProjectDirectory.ListRevisions | internal/agent/docker/compose_deployment.go:1126-1160 | all revision numbers, ascending, each once |
| ComposeProject.ProjectDirectory.PruneRevisions | internal/agent/docker/compose_deployment.go:1162-1173 | the loop removes the lowest numbers beyond five and stops at the first failure |
| ComposeProject.ProjectDirectory.RemoveListed | internal/agent/docker/compose_deployment.go:1167-1171 | removing along the ascending list is removing the smallest, one at a time |
| ComposeProject.ProjectDirectory.HasOlderRevision | internal/agent/docker/compose_deployment.go:1175-1186 | true iff the listing works and a retained number lies below the current one |
| ComposeProject.ProjectDirectory.PreviousRevision | internal/agent/docker/compose_deployment.go:1254-1269 | the largest retained number below the current one, none iff there is none |
| ComposeProject.ProjectDirectory.DeployRevision | internal/agent/docker/compose_deployment.go:238-296 | the body that apply and rollback share, step for step and fault for fault |
| ComposeProject.ProjectDirectory.PrepareProject | internal/agent/docker/compose_deployment.go:978-1030 | load, or make the directory of a new project; a directory without metadata is refused |
| ComposeProject.ProjectDirectory.ApplyDraft | internal/agent/docker/compose_deployment.go:222-296 | apply as a whole equals its specification under every fault script |
| ComposeProject.ProjectDirectory.MoveToArchive | internal/agent/docker/compose_deployment.go:1329-1400 | archiving moves the whole directory, or fails and moves nothing; the last step may fail after the move |
| ComposeTransactions.DeployAtomic | internal/agent/docker/compose_deployment.go:238-296 | a failed deployment whose undo writes work leaves the three files unchanged iff it did not tear the compose file |
| ComposeTransactions.ApplyAtomicIff | internal/agent/docker/compose_deployment.go:197-296 | the same for apply, absent files of a new project included |
| ComposeTransactions.RollbackAtomicIff | internal/agent/docker/compose_deployment.go:1231-1326 | the same for rollback |
| ComposeTransactions.FailedDeployRevisions | internal/agent/docker/compose_deployment.go:238-281 | a failed deployment leaves older revisions alone and its own is gone unless its write or its removal failed |
| ComposeTransactions.CommittedApply | internal/agent/docker/compose_deployment.go:222-296 | after a commit, compose file, env file and metadata hold the draft at the next revision, the first being 1, and on a project within its window the new revision is retained with the draft |
| ComposeTransactions.LoadsIff | internal/agent/docker/compose_deployment.go:978-1007 | a project loads iff its state can be read, its directory is there and it is complete, and then with the directory's metadata |
| ComposeTransactions.ApplyCommitsIff | internal/agent/docker/compose_deployment.go:197-296 | an apply commits iff its project loads, or is new and its directory can be made, and every step up to `up -d` works; revision and content do not matter |
| ComposeTransactions.RollbackCommitsIff | internal/agent/docker/compose_deployment.go:1231-1319 | a rollback commits iff its project loads, an older revision is retained and readable, its document passes and every step works |
| ComposeTransactions.ArchiveIff | internal/agent/docker/compose_deployment.go:1329-1400 | an archive succeeds iff the project loads, `down` works and the directory moves with its mode set; the directory is gone iff it moved |
| ComposeTransactions.DeployReport | internal/agent/docker/compose_deployment.go:238-296 | which steps fail for each report of a deployment, and that a success tells truly whether an older revision is retained |
| ComposeTransactions.CommittedRollback | internal/agent/docker/compose_deployment.go:1254-1301 | a committed rollback deploys the largest retained revision below the current one, keeps env, name and ID, and counts one on |
| ComposeTransactions.FailedApplyKeepsRevisions | internal/agent/docker/compose_deployment.go:238-281 | an apply that does not commit leaves every revision but the one it would have written |
| ComposeTransactions.FailedRollbackKeepsRevisions | internal/agent/docker/compose_deployment.go:1277-1319 | the same for a rollback |
| ComposeTransactions.CommittedRevisionStands | internal/agent/docker/compose_deployment.go:238-296 | after every commit, rollbacks included, the current revision is retained and holds the compose file |
| ComposeTransactions.CommittedDeploy | internal/agent/docker/compose_deployment.go:238-296 | the whole directory after a commit |
| ComposeTransactions.TornComposeExample | internal/agent/docker/compose_deployment.go:949-956 | a run in which every undo would work and the new compose file stays after the error |
| ComposeTransactions.FirstApplyStrandsIff | internal/agent/docker/compose_deployment.go:1010-1030 | exactly when a failed first apply leaves a directory without metadata, whatever its undo steps do |
| ComposeTransactions.StrandedForever | internal/agent/docker/compose_deployment.go:978-1030 | a directory that does not load makes every later operation fail and stays unchanged |
| ComposeTransactions.PruneKeepsLargestFive | internal/agent/docker/compose_deployment.go:1162-1173 | a prune without error leaves the largest five, unchanged |
| ComposeTransactions.PruneDropsSmallest | internal/agent/docker/compose_deployment.go:1162-1173 | a prune cut short by a failing removal has dropped the smallest numbers beyond five, as many as it could |
| ComposeTransactions.RemoveSmallestKeepsLargest | internal/agent/docker/compose_deployment.go:1167-1171 | removing the smallest n times keeps exactly the largest rest |
| ComposeTransactions.FailureKeepsWindowIff | internal/agent/docker/compose_deployment.go:1068-1106 | a failed deployment on an existing project keeps the window iff its faults leave the compose file and the revision named by the metadata in agreement, a condition on the fault script and on whether the content changed |
| ComposeTransactions.FirstFailureKeepsWindowIff | internal/agent/docker/compose_deployment.go:1068-1106 | a failed first apply keeps it iff everything it wrote is there or nothing is |
| ComposeTransactions.CommittedDeployKeepsWindow | internal/agent/docker/compose_deployment.go:238-296 | a committed deployment keeps it with no condition on the undo steps |
| ComposeTransactions.StepKeepsWindowIff | internal/agent/docker/compose_deployment.go:1108-1186 | each operation of a normalized request, committed or failed, keeps the window iff its faults leave file and revision in agreement; the window: retained numbers are contiguous up to the current revision or one past it, and the current revision's content is the compose file |
| ComposeTransactions.LostWindowExample | internal/agent/docker/compose_deployment.go:1202-1212 | an update that fails in Docker and whose compose file is not put back loses the window |
| ComposeTransactions.WindowOverRuns | internal/agent/docker/compose_deployment.go:1108-1186 | over every serial run of normalized requests the window holds after each operation iff no operation's faults part file and revision |
| ComposeTransactions.SuccessKeepsFive | internal/agent/docker/compose_deployment.go:287-290 | after a success at most five revisions remain and none dropped is newer than one kept |
| ComposeTransactions.RollbackTurnsIff | internal/agent/docker/compose_deployment.go:1254-1319 | a rollback attempt, committed or failed, gives the two newest contents another turn or none iff its faults leave file and revision in agreement |
| ComposeTransactions.RollbackSwaps | internal/agent/docker/compose_deployment.go:1254-1301 | a committed rollback swaps the two newest contents and counts one revision on, with no condition on the undo steps |
| ComposeTransactions.RollbacksAlternate | internal/agent/docker/compose_deployment.go:1254-1301 | any run of rollbacks that keeps the window, failed ones included, alternates two contents by the parity of its turns, env unchanged, every commit a turn, and pruning never takes the target |
| ComposeTransactions.RollbackTwice | internal/agent/docker/compose_deployment.go:1254-1301 | two committed rollbacks restore the compose file and raise the revision by two |
| ComposeInterleaving.InterleavingIsSerial | internal/agent/docker/compose.go:467-484 | with one operation per project between begin and finish, every interleaving of small steps takes each project through its operations one after the other |
| ComposeInterleaving.WindowOverInterleavings | internal/agent/docker/compose.go:467-484 | after any interleaving an idle project is where its own operations would have taken it, and was within its window after each of them iff none of their faults parted file and revision |
| ComposeSteps.StepKeepsRest | internal/agent/docker/compose_deployment.go:1010-1106 | one file effect at a time, no step changes where the operation will end |
| ComposeSteps.StepSpendsBudget | internal/agent/docker/compose_deployment.go:197-296 | every step brings the operation nearer to its end |
| ComposeSteps.FileCodeImplements | internal/agent/docker/compose_deployment.go:197-296 | the file effects in the order of the code amount to the operation as specified |
| ComposeSteps.OperationsFinish | internal/agent/docker/compose_deployment.go:197-296 | run alone, every operation finishes with its specified result |
| ComposeSteps.WindowOverFileSteps | internal/agent/docker/compose.go:467-484 | the same for any interleaving of the file effects of many projects |
| RevisionNames.ParseOfFileName | internal/agent/docker/compose_deployment.go:1108-1151 | a revision number goes to its file name and back, zero padding included |
| RevisionNames.ParseIff | internal/agent/docker/compose_deployment.go:1142-1151 | an entry is read as a number iff it is that number's own file name: signs, other padding and overflow are skipped |
| RevisionNames.FileNamesDiffer | internal/agent/docker/compose_deployment.go:1108-1110 | different numbers have different file names |
| RevisionNames.FileNameShape | internal/agent/docker/compose_deployment.go:1108-1110 | a file name is the number in decimal, zeros in front only up to six digits, and `-compose.yaml` |
| RevisionNames.NumbersIn | internal/agent/docker/compose_deployment.go:1137-1157 | reading a directory gives the numbers whose file names are in it, each once, whatever lies beside them |
| ComposeConfirmations.PreimageInjective | internal/agent/docker/compose_deployment.go:500-504 | the hashed text determines a normalized draft although the YAML may contain the separator |
| ComposeConfirmations.StoreBounded | internal/agent/docker/compose_deployment.go:451-481 | at most 128 entries, the new token is present, nothing else is added |
| ComposeConfirmations.IssueStaysSound | internal/agent/docker/compose_deployment.go:451-481 | issuing keeps every stored token backed by an unspent preview |
| ComposeConfirmations.SpendStaysSound | internal/agent/docker/compose_deployment.go:483-498 | a spent token has its preview of the same draft within the lifetime, and is gone |
| ComposeConfirmations.RefusalStaysSound | internal/agent/docker/compose_deployment.go:483-498 | a refusal spends nothing |
| ComposeConfirmations.RunsAreSound | internal/agent/docker/compose_deployment.go:451-498 | over every run: bounded store, each token accepted at most once, each acceptance preceded by a preview of that very draft within the lifetime |
| ComposeConfirmations.NotFirstToGo | internal/agent/docker/compose_deployment.go:466-477 | a token is not the one evicted unless more than 128 tokens, the newest included, were issued from its time on |
| ComposeConfirmations.IssuedIsAcceptedIff | internal/agent/docker/compose_deployment.go:451-498 | over every run, an unspent token is accepted for its own draft and no other, for five minutes from its preview, unless 128 others were issued from that time on |
| ComposeHandler.Handler.BeginOperation | internal/agent/docker/compose.go:467-478 | refused iff an operation on that project is under way |
| ComposeHandler.Handler.Validate | internal/agent/docker/compose_deployment.go:389-414 | accepted iff the document is and the configuration check passes |
| ComposeHandler.Handler.RememberConfirmation | internal/agent/docker/compose_deployment.go:451-481 | expired entries go; of a store full of unexpired ones the earliest expiry goes |
| ComposeHandler.Handler.OldestToken | internal/agent/docker/compose_deployment.go:468-477 | the loop finds an entry with the earliest expiry |
| ComposeHandler.Handler.ConsumeConfirmation | internal/agent/docker/compose_deployment.go:483-498 | accepted iff present, unexpired and bound to this draft; what each refusal leaves |
| ComposeHandler.Handler.Preview | internal/agent/docker/compose_deployment.go:141-195 | a token is issued iff the draft is normal, the project idle and loadable and the document accepted, and nothing changes otherwise |
| ComposeHandler.Handler.ApplyRequest | internal/agent/docker/compose_deployment.go:197-296 | an admitted apply is its specification, one not admitted changes no file, a committed one was previewed within the lifetime and deployed an accepted document |
| ComposeHandler.Handler.AdmitDraft | internal/agent/docker/compose_deployment.go:210-220 | a draft that fails validation keeps its token |
| ComposeHandler.Handler.CheckRollback | internal/agent/docker/compose_deployment.go:1244-1287 | what blocks a rollback, in the order of the code, and the validated target |
| ComposeHandler.Handler.RollbackRequest | internal/agent/docker/compose_deployment.go:1231-1326 | rollback equals its specification, and a committed one leaves an accepted document in place |
| ComposeHandler.Handler.ArchiveRequest | internal/agent/docker/compose_deployment.go:1329-1400 | archive equals its specification; a busy or malformed request changes nothing |
| ToolStream.HolderIsUnique | internal/server/ai/openai.go:164-170 | the search over a map in unknown order has one answer |
| ToolStream.FreeIndexIsBounded | internal/server/ai/openai.go:186-192 | the search for a free index stops at or before the number of calls |
| ToolStream.ResolveFits | internal/server/ai/openai.go:163-193 | the chosen call never contradicts the fragment's ID, and no other call has that ID |
| ToolStream.StepDeltaConsistent | internal/server/ai/openai.go:236-257 | IDs stay distinct, order lists the keys once each, and the ID conflict cannot arise, on any input |
| ToolStreamParser.ResolveIndex | internal/server/ai/openai.go:163-193 | the resolver as it runs, with its search loops, is the specified choice |
| ToolStreamParser.StreamParser.AddFragment | internal/server/ai/openai.go:236-257 | one fragment, as specified |
| ToolStreamParser.StreamParser.HandleEvent | internal/server/ai/openai.go:221-258 | one decoded event: finish flag, content, callback with its error, and fragments |
| ToolStreamParser.StreamParser.FlushData | internal/server/ai/openai.go:206-259 | the end of a frame: nothing, the done marker, or one event |
| ToolStreamParser.StreamParser.FeedLine | internal/server/ai/openai.go:264-295 | one line: the two byte bounds, UTF-8, comments, data and blank lines |
| ToolStreamParser.StreamParser.FeedText | internal/server/ai/openai.go:260-299 | the scan loop up to the end, an error, a cancellation or the done marker |
| ToolStreamParser.CollectSorted | internal/server/ai/openai.go:308-325 | calls in order of index, the first one that is incomplete decides the error |
| ToolStreamParser.ParseStream | internal/server/ai/openai.go:195-325 | the parser computes `Parse` and never reports an ID conflict, on any input |
| ToolFraming.LinesJoin | internal/server/ai/openai.go:210 | splitting a document into data lines and joining them gives it back |
| ToolFraming.FeedFrame | internal/server/ai/openai.go:260-296 | feeding a printed document, its blank line included, is flushing that document |
| ToolFraming.DataLineIsKept | internal/server/ai/openai.go:284-295 | `data:` with or without one space and with or without a carriage return adds the same line to the frame |
| ToolFraming.CommentIsSkipped | internal/server/ai/openai.go:281-283 | a line that begins with a colon only counts bytes |
| ToolFraming.LineIsRefused | internal/server/ai/openai.go:260-299 | the lines at which reading stops, each with its error |
| ToolReassembly.OneFragment | internal/server/ai/openai.go:236-257 | a fragment with its own index grows its own call and no other |
| ToolReassembly.OneFrameOfFragments | internal/server/ai/openai.go:236-257 | so do all fragments of a frame |
| ToolReassembly.EventsGather | internal/server/ai/openai.go:236-257 | over any number of events, however calls interleave, every call gathers its own fragments |
| ToolEvents.AllEvents | internal/server/ai/openai.go:206-296 | reading printed events has exactly the effect of their contents, finish flags and fragments |
| ToolEvents.ParseDone | internal/server/ai/openai.go:195-325 | so parsing a printed stream with the done marker yields the final checks on what its fragments amount to |
| ToolEvents.ParseFinished | internal/server/ai/openai.go:195-325 | the same for a stream that ends after a finish reason |
| ToolReassembly.ReassemblyDone | internal/server/ai/openai.go:195-325 | printing well-formed events with the done marker and parsing them gives the whole content and, by index, each call as the concatenation of its own fragments, however calls interleave |
| ToolReassembly.ReassemblyFinished | internal/server/ai/openai.go:195-325 | the same for a stream that ends after a finish reason |
| ToolEvents.UnfinishedIsRefused | internal/server/ai/openai.go:305-307 | without marker and finish reason a printed stream is an error |
| ToolNaming.LandsAtHolder | internal/server/ai/openai.go:164-170 | a fragment with a known ID goes to the holder of that ID |
| ToolNaming.LandsNext | internal/server/ai/openai.go:171-192 | a fragment with a new ID, without an index or with one of the opened calls' or the next, opens the next call, whatever its position |
| ToolNaming.LandsAtPlace | internal/server/ai/openai.go:171-185 | a fragment without an ID, whose index is missing, its position or already used in the frame, goes to the call opened at its position |
| ToolNaming.ExpectedGrows | internal/server/ai/openai.go:237-257 | so every fragment grows one call at its end, or adds one behind all others |
| ToolNaming.NamedReassemblyDone | internal/server/ai/openai.go:195-325 | where fragments have IDs, or follow by position a call opened with one, and indexes are missing, reused or in step, printing and parsing give, in order of first appearance, each call as the concatenation of its own fragments |
| ToolNaming.NamedReassemblyFinished | internal/server/ai/openai.go:195-325 | the same for a stream that ends after a finish reason |
| ToolNaming.CollidingIndexes | internal/server/ai/openai_test.go:94-98 | two calls whose fragments all have index 0, continued without IDs in a second frame, are such a stream, and each call gets its own continuation |
| ToolOutcomes.BadLineStops | internal/server/ai/openai.go:260-299 | behind any printed events, a line that is too long, comes after the context ended, passes 4 MiB, is not UTF-8 or is neither blank, comment nor data decides the result |
| ToolOutcomes.BadFrameStops | internal/server/ai/openai.go:217-259 | so does the first frame that does not decode, has content that is not UTF-8 or refused by the callback, or overflows a call |
| ToolOutcomes.LongFrameStops | internal/server/ai/openai.go:287-295 | data lines that together pass 256 KiB are an error |
| ToolOutcomes.LastFrameNeedsNoBlankLine | internal/server/ai/openai.go:300-304 | at the end of the stream a frame counts with or without its blank line |
| ToolOutcomes.OverflowIff | internal/server/ai/openai.go:252-256 | a fragment is refused iff its call's arguments grow past 256 KiB |
| ToolOutcomes.CollectIff | internal/server/ai/openai.go:308-324 | all calls are returned iff each has ID, name and valid JSON arguments; else the first that lacks something decides the error |
| ToolOutcomes.ResponseIsWellFormed | internal/server/ai/openai.go:195-325 | whatever comes in, a response has UTF-8 content and calls with distinct IDs, names and valid JSON arguments within 256 KiB |
| AgentRpc.StepKeepsInv | internal/server/agenthub/hub.go:2540-2646 | every atomic step keeps: waiting calls are tracked, closed means nothing pending, deliveries answer their own request |
| AgentRpc.NoLostWaiter | internal/server/agenthub/hub.go:2540-2646 | that holds in every interleaving of callers, deliveries, cancellations and repeated closes |
| AgentRpc.QuietMeansDelivered | internal/server/agenthub/hub.go:2601-2646 | closed and all closers finished: each waiting call has its delivery |
| AgentRpc.ClosersWake | internal/server/agenthub/hub.go:2641-2646 | the closers' remaining notices alone wake any waiting call |
| AgentRpc.ReturnedIsForgotten | internal/server/agenthub/hub.go:2579-2585 | a returned call is never pending |
| AgentRpc.AnswersMatch | internal/server/agenthub/hub.go:2587-2599 | what a call returns with answers its own request |
| AgentRpc.EndingsAreEarned | internal/server/agenthub/hub.go:2540-2646 | over every run, how a call ended tells of an event: a response of its agent, a closed connection, a pending duplicate, a failed write or a cancellation |
| AgentRpc.DisconnectedMeansClosed | internal/server/agenthub/hub.go:2601-2646 | no call is told of a disconnection, and none is buffered, while the connection is open |
| AgentRpc.FirstDeliveryStays | internal/server/agenthub/hub.go:2594-2598 | what is in a call's channel stays there until the call takes it |
| AgentRpc.ResponseArrives | internal/server/agenthub/hub.go:2587-2599 | a response looked up and sent for a waiting call with an empty channel is what the call returns |
| AgentRpc.CallCompletes | internal/server/agenthub/hub.go:2540-2599 | a whole call on an open connection, from registration to the response, leaving its ID free |
| AgentRpc.AgentConnection.RegisterRPC | internal/server/agenthub/hub.go:2541-2559 | the locked start of a call, refused when closed or when the request ID is pending |
| AgentRpc.AgentConnection.RemoveRPC | internal/server/agenthub/hub.go:2579-2585 | a call removes its own entry and no other |
| AgentRpc.AgentConnection.LookUpRPC | internal/server/agenthub/hub.go:2588-2593 | the channel found belongs to a call with that request ID |
| AgentRpc.AgentConnection.SendRPC | internal/server/agenthub/hub.go:2594-2598 | the send never blocks: an empty channel holds the response afterwards, a full one keeps what it has |
| AgentRpc.AgentConnection.NotifyClosed | internal/server/agenthub/hub.go:2641-2646 | one closing notice; a full channel keeps what it has |
| AgentRpc.AgentConnection.ClosePendingRPCs | internal/server/agenthub/hub.go:2601-2646 | every call that was pending has a delivery afterwards, and earlier deliveries stay |
| InstallAuth.RefusedExchangeChangesNothing | internal/server/agenthub/hub.go:98-129 | a refused exchange, a failed save among them, changes nothing but dropping an expired token |
| InstallAuth.BindsIff | internal/server/agenthub/hub.go:109-128 | the first exchange shuts out every other node iff the node ID is not empty |
| InstallAuth.RunsKeepInv | internal/server/agenthub/hub.go:78-165 | every live entry is explained by the exchanges so far, in every run |
| InstallAuth.StoreIsBounded | internal/server/agenthub/hub.go:78-96 | at most 1024 live tokens, every stored node token minted for its node |
| InstallAuth.ExchangesAgree | internal/server/agenthub/hub.go:98-129 | all exchanges of one install token name one node and return one node token |
| InstallAuth.RevocationIsFinal | internal/server/agenthub/hub.go:138-147 | after a node is revoked no install token bound to it is exchanged again |
| InstallAuth.CreateIff | internal/server/agenthub/hub.go:78-96 | a token is created iff fewer than 1024 are unexpired |
| InstallAuth.ExchangeIff | internal/server/agenthub/hub.go:98-129 | an exchange answers iff the token is unexpired and unbound, with a node token made and saved, or bound to this node |
| InstallAuth.AuthenticatesIff | internal/server/agenthub/hub.go:177-190 | a token may authenticate iff some node could exchange it then, and is dropped iff expired |
| InstallAuth.TokenLeavesIff | internal/server/agenthub/hub.go:78-190 | an install token leaves exactly by expiry, revocation of its node or completion, and changes only by its first exchange |
| InstallAuth.NodeTokenIff | internal/server/agenthub/hub.go:98-165 | a node token goes exactly by revocation or completion and comes only from an exchange |
| InstallAuth.CreatedIsExchangeable | internal/server/agenthub/hub.go:78-129 | over every run, a created token can be exchanged by any node for thirty minutes, unless exchanged before |
| InstallAuth.ExchangeAnswersAgain | internal/server/agenthub/hub.go:109-114 | over every run, an exchanged token answers its own node with the same node token and others with nothing, until its entry ends |
| InstallAuth.NodeTokenLasts | internal/server/agenthub/hub.go:98-165 | over every run, a minted node token stays until revocation, completion or a newer one |
| InstallAuth.RevokedIsOut | internal/server/agenthub/hub.go:138-147 | over every run, a revoked node has no token until an exchange mints one |
| InstallAuth.InstallAuthStore.PruneExpired | internal/server/agenthub/hub.go:90-96 | the deletion loop keeps exactly the unexpired tokens |
| InstallAuth.InstallAuthStore.CreateInstallToken | internal/server/agenthub/hub.go:78-88 | creation as specified |
| InstallAuth.InstallAuthStore.ExchangeInstallToken | internal/server/agenthub/hub.go:98-129 | exchange as specified |
| InstallAuth.InstallAuthStore.RevokeNodeToken | internal/server/agenthub/hub.go:138-147 | revocation as specified |
| InstallAuth.InstallAuthStore.CompleteBootstrap | internal/server/agenthub/hub.go:151-165 | the end of a bootstrap as specified |
| InstallAuth.InstallAuthStore.MayAuthenticateInstallToken | internal/server/agenthub/hub.go:177-190 | a bound token may still authenticate, an expired one is dropped |
| AgentUpgrade.ExecutableIsWhole | internal/agent/upgrade/upgrader.go:104-213 | in every run, crashes and hazards included, the executable and the backup are the first binary or a download that passed the checks |
| AgentUpgrade.StepKeepsRecovery | internal/agent/upgrade/upgrader.go:104-213 | a step keeps the invariant, which includes the order of the recovery set-up, iff it is not one of the named hazards |
| AgentUpgrade.LosesRecoveryIff | internal/agent/upgrade/upgrader.go:104-264 | firing stops restoring a trusted binary at once iff the step is a hazard while a binary is installed that never connected |
| AgentUpgrade.HazardStrands | internal/agent/upgrade/upgrader.go:41-48 | each of the three hazards then leaves no way back once the process is down |
| AgentUpgrade.CrashSafety | internal/agent/upgrade/upgrader.go:104-264 | wherever a hazard-free run stops, the executable has connected, or firing the script restores the one it replaced, which has |
| AgentUpgrade.EveryRunIsSafe | internal/agent/upgrade/upgrader.go:41-310 | both together for every run from the installation on |
| AgentUpgrade.OldOrNewUntilDecided | internal/agent/upgrade/upgrader.go:104-310 | until a confirmation or another upgrade the executable is the whole new binary, recoverable, or the whole old one |
| AgentUpgrade.ReconnectionStrands | internal/agent/upgrade/upgrader.go:41-48 | a hazardous reconnection anywhere between the marker and the rename leaves no way back when the upgrade goes on |
| AgentUpgrade.StrandedUntilConnected | internal/agent/upgrade/upgrader.go:254-264 | after that no firing of the timer brings the old binary back |
| AgentUpgrade.StepTouchesOnly | internal/agent/upgrade/upgrader.go:104-310 | which steps may change the executable, the backup, the marker, the timer and what has connected |
| AgentUpgrade.FireRestoresBackup | internal/agent/upgrade/upgrader.go:228-264 | a fired timer puts the backup back iff the marker stands |
| AgentUpgrade.ConfirmationIsFinal | internal/agent/upgrade/upgrader.go:41-48 | after a process has connected and removed the marker, no path without another marker replaces its binary |
| AgentUpgrade.StoppedTimerIsFinal | internal/agent/upgrade/upgrader.go:277-281 | and after it has stopped the timer, none fires until another is armed |
| AgentUpgrade.Upgrader.ConfirmSuccessfulStart | internal/agent/upgrade/upgrader.go:41-48 | marker and timer go, each on its own, and nothing else of the disk changes |
| AgentUpgrade.Upgrader.Start | internal/agent/upgrade/upgrader.go:50-63 | the answer given at once: one upgrade at a time |
| AgentUpgrade.Upgrader.Run | internal/agent/upgrade/upgrader.go:104-213 | the effects in order, each failure ending the run with its report and its clean-up; for each report exactly which effect failed, and what it means for the binary and its recovery |
| AgentUpgrade.Upgrader.BackUp | internal/agent/upgrade/upgrader.go:104-173 | the backup is the running executable, and only an accepted download gets that far |
| AgentUpgrade.Upgrader.SetUpRecovery | internal/agent/upgrade/upgrader.go:174-191 | armed iff script, marker and timer all work, and then marker and timer are there before anything is replaced |
| AgentUpgrade.Upgrader.ScheduleRecovery | internal/agent/upgrade/upgrader.go:270-275 | the old timer stopped, a new one armed, or the marker removed again |
| AgentUpgrade.Upgrader.Replace | internal/agent/upgrade/upgrader.go:192-212 | rename and restart, and what each failure puts back |
| AgentUpgrade.Upgrader.PutBackup | internal/agent/upgrade/upgrader.go:204-212 | after a failed restart the backup is put back, or the replacement stays with its recovery armed |
| AgentUpgrade.Upgrader.CancelArmedRecovery | internal/agent/upgrade/upgrader.go:220-226 | marker and timer go, each on its own and without a report |
| Utf8.CutIsValidIff | internal/server/ai/registry.go:889-892 | valid text may be cut exactly at the start of a character |
| Utf8.LongestIsClose | internal/server/agenthub/hub.go:846-850 | the longest valid prefix is at most three bytes short |
| Utf8.RepairIsValid | internal/agent/taskrunner/runner.go:139-141 | repaired text is valid |
| Utf8.RepairKeepsValid | internal/agent/taskrunner/runner.go:139-141 | repair leaves valid text alone |
| Utf8.RepairPieces | internal/agent/taskrunner/runner.go:139-141 | a whole run of bytes that start no character becomes one replacement; the valid text in front stays and the rest is repaired by itself |
| Utf8.ValidIffEncoded | internal/server/ai/openai.go:269-271 | bytes are valid iff they are the encoding of some code points by the table of RFC 3629 |
| ComposeFiles.ByteLengthIsEncoded | internal/agent/docker/compose_deployment.go:315-320 | the length that bounds a field is that of its UTF-8 encoding |
| TextBounds.BoundRPCText | internal/server/agenthub/hub.go:842-851 | the longest valid prefix within the limit, for any bytes that are too long |
| TextBounds.BoundValidUTF8 | internal/agent/taskrunner/runner.go:138-150 | the longest valid prefix of the repaired text within the limit |
| TextBounds.BoundedString | internal/server/ai/registry.go:884-893 | stepping back to a character start is the longest valid prefix of the repaired text |
| TextBounds.TruncationsAgree | internal/agent/taskrunner/runner.go:138-150 | on valid text all three return the same, at most three bytes below the limit |
| TextBounds.BoundIsIdempotent | internal/server/agenthub/hub.go:842-851 | truncating again changes nothing |
| TextBounds.BoundedWriter.Write | internal/agent/taskrunner/runner.go:114-130 | exactly the first bytes of everything written are kept, truncated iff there was more |
| TextBounds.RunOutput | internal/agent/taskrunner/runner.go:94-99 | the longest valid prefix of what was kept and repaired, with an exact flag; for valid output also its exact end |
| TextBounds.HubKeepsAgentOutput | internal/server/agenthub/hub.go:820-824 | the hub's second bound changes nothing |
| Lines.SplitIsLines | internal/server/logbuffer/buffer.go:55-63 | the pieces are lines and join to the data |
| Lines.SplitIsUnique | internal/agent/docker/logs_manager.go:194 | there is no other way to cut data into lines, so both readers cut alike |
| LogBuffer.KeptIsLongest | internal/server/logbuffer/buffer.go:92-97 | the eviction loop leaves the longest suffix that fits both bounds |
| LogBuffer.KeptAbsorbs | internal/server/logbuffer/buffer.go:84-98 | evicting after each line keeps what evicting once at the end would |
| LogBuffer.RetainedIsSuffix | internal/server/logbuffer/buffer.go:84-98 | what is retained is a suffix of all bytes ever written, cut lines included |
| LogBuffer.WholeIffFits | internal/server/logbuffer/buffer.go:84-98 | everything is retained iff all lines ever written fit both bounds |
| LogBuffer.Buffer.constructor | internal/server/logbuffer/buffer.go:34-47 | bounds that are not positive become the defaults |
| LogBuffer.Buffer.Write | internal/server/logbuffer/buffer.go:49-65 | each nonempty line of the data becomes an entry, all bytes count as written, and both bounds hold afterwards |
| LogBuffer.Buffer.AppendLocked | internal/server/logbuffer/buffer.go:84-98 | the entries stay the longest fitting suffix, `totalBytes` their sum, `evicted` exact |
| LogBuffer.Buffer.Evict | internal/server/logbuffer/buffer.go:92-97 | the loop leaves the longest fitting suffix and flags iff something went |
| LogBuffer.Buffer.Snapshot | internal/server/logbuffer/buffer.go:67-82 | the last entries, a suffix of the stream, truncated iff the content is not the whole stream |
| DockerLogs.Be32RoundTrips | internal/agent/docker/logs_manager.go:151 | the length field |
| DockerLogs.FrameLayout | internal/agent/docker/logs_manager.go:126-152 | the kind in the first byte, the length in the fifth to eighth, highest first, then the payload |
| DockerLogs.DecodeOfEncode | internal/agent/docker/logs_manager.go:126-183 | decoding undoes encoding, whatever follows |
| DockerLogs.DecodeGrows | internal/agent/docker/logs_manager.go:126-183 | more bytes never change frames already told |
| DockerLogs.PrefixDecodes | internal/agent/docker/logs_manager.go:126-183 | a cut encoding decodes to exactly the frames that lie within the cut, and the rest is left |
| DockerLogs.LogsSession.Run | internal/agent/docker/logs_manager.go:76-124 | what a session without a stream or with an empty one tells, which path the first byte chooses, and the deferred last exit call after any error |
| DockerLogs.LogsSession.ReadMultiplexed | internal/agent/docker/logs_manager.go:126-183 | the decoded frames in order under their stream names, and which ends are errors |
| DockerLogs.LogsSession.ReadRaw | internal/agent/docker/logs_manager.go:185-214 | the lines in order, the unfinished one only at a clean end |
| DockerLogs.EncodedSessionTellsFrames | internal/agent/docker/logs_manager.go:115-183 | the encoding of some frames is detected as such and tells each payload under stdin, stdout, stderr or unknown, without error |
| DockerLogs.CutSession | internal/agent/docker/logs_manager.go:126-183 | a session on an encoding cut anywhere tells the whole frames, or as many as the context allows, and reports an error iff the cut lies in a payload or the read failed |
| DockerLogs.RawSessionTellsAll | internal/agent/docker/logs_manager.go:185-214 | the pieces of a raw session read to its end join to the input |
| DockerLogs.BrokenRawSessionTellsEnded | internal/agent/docker/logs_manager.go:185-214 | when reading fails, everything up to the last newline was told and nothing behind it |
| DockerLogs.CancelledRawSessionTellsPrefix | internal/agent/docker/logs_manager.go:185-214 | a cancelled raw session has told a prefix in whole lines and reports nothing |
| ContextShrink.DropKeepsLeveled | internal/server/ai/context.go:274-284 | dropping from the first longest list keeps the loss even |
| ContextShrink.LeveledIsUnique | internal/server/ai/context.go:266-285 | an even loss is determined by how many items are left |
| ContextShrink.Largest | internal/server/ai/context.go:274-282 | the first of the longest lists, none iff all are empty |
| ContextShrink.Encode | internal/server/ai/context.go:255-286 | prefixes, exact flags, an even loss, the most items that fit; unchanged if it fits, and failure only with all lists empty |

## Left out

- The risk list that accompanies an accepted document
  (`compose_deployment.go:551-570, 651-786`) and the redaction of command output.
- Normalization of request text: trimming, the scan of env files for variables
  that steer the CLI (a parameter here) and the refusal of invalid UTF-8.
- Temporary files, permissions, symbolic links and fsync: each reduces to the
  outcome of its file write, removal or move.
- Parsing of JSON and YAML text, SHA-256, random numbers, UUID generation.
- Concurrency of the handlers within one request: their methods run alone,
  interleaving is the subject of `ComposeInterleaving` and `ComposeSteps`.
- ComposeSteps.WindowOverFileSteps: an archive and the loading of a project are
  one step each, and the steps see only their own project's directory.
- Reads outside the lock: a preview's and a listing's view of a project that
  another request is changing.
- Event fields other than finish reason, content and tool calls.
- ToolReassembly.ReassemblyDone: a stream falls under it where indexes tell its
  calls apart, and under `ToolNaming.NamedReassemblyDone` where IDs and places do;
  what belongs together in a stream where neither does is not defined.
- The hub's other pending maps, sessions and node status; the check of the
  `closed` channel for nil.
- AgentUpgrade.CrashSafety: the rollback script is one atomic step that works
  and ends the run; download, hash and ELF checks are one predicate on the
  downloaded content; an upgrade's wait and the restarted process's time limit
  are not modelled.
- DockerLogs.LogsSession.Run: the context is looked at before each pass, as a
  number of passes it allows; a session that is cut off by its callback is not
  modelled.
- LogBuffer.Buffer.Snapshot: the start time of the buffer.
- ContextShrink.Encode: the sources are a list of any length, here eight, and
  their JSON encoding is a parameter.
- `readLastLines` of the log tail, accepted records, the AI registry's tools and
  policies, the web front end and configuration loading.
