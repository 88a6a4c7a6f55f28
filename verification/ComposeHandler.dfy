/** The request handlers: one operation at a time on a project, a checked
    document, a spent confirmation, then the file operations. */
module ComposeHandler {
  import opened Wrappers
  import opened ComposeFiles
  import opened ComposeConfirmations
  import opened ComposeProject
  import opened ComposeTransactions
  import Yaml = ComposeYaml
  import Document = ComposeDocument

  const MAX_YAML_BYTES := 0x10_0000
  const MAX_ENV_BYTES := 0x4_0000

  /** A parsed document: its graph and the number of its root. */
  type Parsed = p: (seq<Yaml.Node>, nat) | Yaml.WellFormed(p.0) && p.1 < |p.0|
    witness ([Yaml.Node(Yaml.Scalar, "", [], 0)], 0)

  lemma AddThenRemove(s: set<string>, key: string)
    requires key !in s
    ensures s + {key} - {key} == s
  {
  }

  class Handler {
    const parse: string -> Option<Parsed>
    const controlsCLI: string -> bool
    const digest: string -> string
    var active: set<string>
    var confirmations: Store
    ghost var clock: int
    ghost var history: seq<Event>

    /** The tokens in the store are what the past requests left there. */
    ghost predicate Valid()
      reads this`confirmations, this`clock, this`history
    {
      Injective(digest) && Sound(State(confirmations, clock, history), digest)
    }

    constructor (parse: string -> Option<Parsed>, controlsCLI: string -> bool, digest: string -> string)
      requires Injective(digest)
      ensures Valid() && active == {} && confirmations == map[] && history == []
    {
      this.parse, this.controlsCLI, this.digest := parse, controlsCLI, digest;
      active, confirmations, clock, history := {}, map[], 0, [];
    }

    method BeginOperation(key: string) returns (ok: bool)
      modifies this`active
      ensures ok <==> key !in old(active)
      ensures active == if ok then old(active) + {key} else old(active)
    {
      if key in active {
        return false;
      }
      active := active + {key};
      return true;
    }

    method FinishOperation(key: string)
      modifies this`active
      ensures active == old(active) - {key}
    {
      active := active - {key};
    }

    /** The checks of normalization on already trimmed fields. */
    predicate Normal(draft: Draft, requireID: bool) {
      && (ValidProjectID(draft.projectID) || (!requireID && draft.projectID == ""))
      && ValidDisplayName(draft.displayName)
      && 0 < ByteLength(draft.composeYAML) <= MAX_YAML_BYTES
      && ByteLength(draft.envFile) <= MAX_ENV_BYTES && NulFree(draft.envFile) && !controlsCLI(draft.envFile)
    }

    ghost predicate DocumentAccepted(yaml: string) {
      parse(yaml).Some? && Document.Judge(parse(yaml).value.0, parse(yaml).value.1).Accepted?
    }

    method Validate(yaml: string, configRun: bool) returns (ok: bool)
      ensures ok <==> DocumentAccepted(yaml) && configRun
    {
      var document := parse(yaml);
      if document.None? {
        return false;
      }
      var verdict := Document.AnalyzeDocument(document.value.0, document.value.1);
      return verdict.Accepted? && configRun;
    }

    method RememberConfirmation(draft: Draft, token: string, now: int)
      requires token != ""
      modifies this`confirmations
      ensures Issues(old(confirmations), confirmations, token, Bind(draft, digest, now), now)
    {
      ghost var before := confirmations;
      var left := confirmations.Keys;
      while left != {}
        invariant left <= before.Keys
        invariant confirmations == map t | t in before && (t in left || before[t].expiresAt > now) :: before[t]
        decreases left
      {
        var key :| key in left;
        left := left - {key};
        if confirmations[key].expiresAt <= now {
          confirmations := confirmations - {key};
        }
      }
      assert confirmations == Live(before, now);
      if |confirmations| >= MAX_CONFIRMATIONS {
        var oldest := OldestToken();
        confirmations := confirmations - {oldest};
      }
      confirmations := confirmations[token := Bind(draft, digest, now)];
    }

    method OldestToken() returns (oldest: string)
      requires confirmations != map[]
      ensures Earliest(confirmations, oldest)
    {
      var left := confirmations.Keys;
      oldest :| oldest in left;
      left := left - {oldest};
      while left != {}
        invariant left <= confirmations.Keys && oldest in confirmations
        invariant forall t | t in confirmations && t !in left :: confirmations[oldest].expiresAt <= confirmations[t].expiresAt
        decreases left
      {
        var candidate :| candidate in left;
        left := left - {candidate};
        if confirmations[candidate].expiresAt < confirmations[oldest].expiresAt {
          oldest := candidate;
        }
      }
    }

    method ConsumeConfirmation(token: string, draft: Draft, now: int) returns (ok: bool)
      modifies this`confirmations
      ensures ok == Accepts(old(confirmations), token, draft, digest, now)
      ensures confirmations == Spend(old(confirmations), token, draft, digest, now)
    {
      if token == "" || token !in confirmations {
        return false;
      }
      var c := confirmations[token];
      if c.expiresAt <= now || c.projectID != draft.projectID || c.fingerprint != digest(Preimage(draft)) {
        if c.expiresAt <= now {
          confirmations := confirmations - {token};
        }
        return false;
      }
      confirmations := confirmations - {token};
      return true;
    }

    /** Issuing, with its event recorded. */
    method IssueConfirmation(draft: Draft, token: string, now: int)
      requires Valid() && now >= clock && FreshToken(history, token) && Normalized(draft)
      modifies this`confirmations, this`clock, this`history
      ensures Valid() && clock == now && token in confirmations
      ensures history == old(history) + [Issued(token, draft, now)]
    {
      ghost var before := State(confirmations, clock, history);
      RememberConfirmation(draft, token, now);
      clock, history := now, history + [Issued(token, draft, now)];
      IssueStaysSound(before, Issued(token, draft, now), State(confirmations, clock, history), digest);
    }

    /** Spending, with its event recorded: a spent token has its preview. */
    method SpendConfirmation(token: string, draft: Draft, now: int) returns (ok: bool)
      requires Valid() && now >= clock && Normalized(draft)
      modifies this`confirmations, this`clock, this`history
      ensures Valid() && clock == now
      ensures ok == Accepts(old(confirmations), token, draft, digest, now)
      ensures history == old(history) + [if ok then Spent(token, draft, now) else Event.Refused(now)]
      ensures ok ==> Justified(history, |old(history)|)
    {
      ghost var before := State(confirmations, clock, history);
      ok := ConsumeConfirmation(token, draft, now);
      ghost var event := if ok then Spent(token, draft, now) else Event.Refused(now);
      clock, history := now, history + [event];
      if ok {
        SpendStaysSound(before, event, State(confirmations, clock, history), digest);
        assert history[|before.history|].Spent?;
      } else {
        RefusalStaysSound(before, event, State(confirmations, clock, history), digest);
      }
    }

    /** What a preview checks of a project that is not busy. */
    ghost predicate Previews(yaml: string, existing: bool, id: string, d: Option<Dir>, f: Faults) {
      DocumentAccepted(yaml) && f.configRun && (existing ==> Load(id, d, f).Loaded?)
    }

    /** A preview checks the draft and issues a token for it exactly when all checks
        pass; otherwise nothing changes. */
    method Preview(draft: Draft, newID: string, p: ProjectDirectory, token: string, tokenMade: bool, now: int, f: Faults)
      returns (issued: bool)
      requires Valid() && now >= clock && FreshToken(history, token) && ValidProjectID(newID)
      requires p.id == (if draft.projectID == "" then newID else draft.projectID)
      modifies this
      ensures Valid() && active == old(active)
      ensures issued <==> Normal(draft, false) && ProjectName(p.id) !in old(active) && tokenMade
                          && Previews(draft.composeYAML, draft.projectID != "", p.id, p.dir, f)
      ensures issued ==> token in confirmations && history == old(history) + [Issued(token, draft.(projectID := p.id), now)]
      ensures !issued ==> confirmations == old(confirmations) && history == old(history)
    {
      if !Normal(draft, false) {
        return false;
      }
      var full := draft.(projectID := p.id);
      FilledInIsNormalized(draft, p.id);
      issued := PreviewProject(full, draft.projectID != "", p, token, tokenMade, now, f);
    }

    method PreviewProject(full: Draft, existing: bool, p: ProjectDirectory, token: string, tokenMade: bool, now: int, f: Faults)
      returns (issued: bool)
      requires Valid() && now >= clock && FreshToken(history, token) && Normalized(full)
      modifies this
      ensures Valid() && active == old(active)
      ensures issued <==> ProjectName(p.id) !in old(active) && tokenMade && Previews(full.composeYAML, existing, p.id, p.dir, f)
      ensures issued ==> token in confirmations && history == old(history) + [Issued(token, full, now)]
      ensures !issued ==> confirmations == old(confirmations) && history == old(history)
    {
      var begun := BeginOperation(ProjectName(p.id));
      if !begun {
        return false;
      }
      issued := PreviewLocked(full, existing, p, token, tokenMade, now, f);
      FinishOperation(ProjectName(p.id));
      AddThenRemove(old(active), ProjectName(p.id));
    }

    lemma FilledInIsNormalized(draft: Draft, id: string)
      requires Normal(draft, draft.projectID != "") && ValidProjectID(id)
      ensures Normalized(draft.(projectID := id))
    {
    }

    /** What a preview does between begin and finish. */
    method PreviewLocked(full: Draft, existing: bool, p: ProjectDirectory, token: string, tokenMade: bool, now: int, f: Faults)
      returns (issued: bool)
      requires Valid() && now >= clock && FreshToken(history, token) && Normalized(full)
      modifies this`confirmations, this`clock, this`history
      ensures Valid()
      ensures issued <==> tokenMade && Previews(full.composeYAML, existing, p.id, p.dir, f)
      ensures issued ==> token in confirmations && history == old(history) + [Issued(token, full, now)]
      ensures !issued ==> confirmations == old(confirmations) && history == old(history)
    {
      if existing && !Load(p.id, p.dir, f).Loaded? {
        return false;
      }
      var valid := Validate(full.composeYAML, f.configRun);
      if !valid || !tokenMade {
        return false;
      }
      IssueConfirmation(full, token, now);
      return true;
    }

    /** What an apply must show before it touches the project. */
    ghost predicate Admits(draft: Draft, token: string, now: int, f: Faults, busy: set<string>, store: Store) {
      && Normal(draft, true) && ProjectName(draft.projectID) !in busy
      && DocumentAccepted(draft.composeYAML) && f.configRun
      && Accepts(store, token, draft, digest, now)
    }

    /** An apply that commits deployed an accepted document that some preview of
        the very same draft had confirmed within the lifetime; one that is not
        admitted changes no file. */
    method ApplyRequest(draft: Draft, p: ProjectDirectory, token: string, now: int, stamp: string, f: Faults) returns (o: Outcome)
      requires Valid() && now >= clock && p.id == draft.projectID
      modifies this, p
      ensures Valid() && active == old(active)
      ensures if old(Admits(draft, token, now, f, active, confirmations)) then (p.dir, o) == Apply(p.id, old(p.dir), draft, stamp, f)
              else p.dir == old(p.dir) && o == Failed(if !Normal(draft, true) then BadRequest
                                                      else if ProjectName(draft.projectID) in old(active) then Busy
                                                      else Objection(draft, f))
      ensures Committed(o) ==> DocumentAccepted(draft.composeYAML)
      ensures Committed(o) ==> history == old(history) + [Spent(token, draft, now)] &&
                               Justified(history, |old(history)|)
    {
      if !Normal(draft, true) {
        return Failed(BadRequest);
      }
      var begun := BeginOperation(ProjectName(draft.projectID));
      if !begun {
        return Failed(Busy);
      }
      FilledInIsNormalized(draft, draft.projectID);
      o := ApplyLocked(draft, p, token, now, stamp, f);
      FinishOperation(ProjectName(draft.projectID));
      AddThenRemove(old(active), ProjectName(draft.projectID));
    }

    /** Why a draft is not admitted: its document comes before its token. */
    ghost function Objection(draft: Draft, f: Faults): Error {
      if DocumentAccepted(draft.composeYAML) && f.configRun then BadToken else NotValidated
    }

    /** What an apply does between begin and finish. */
    method ApplyLocked(draft: Draft, p: ProjectDirectory, token: string, now: int, stamp: string, f: Faults) returns (o: Outcome)
      requires Valid() && now >= clock && Normalized(draft)
      modifies this`confirmations, this`clock, this`history, p
      ensures Valid()
      ensures var admitted := DocumentAccepted(draft.composeYAML) && f.configRun && Accepts(old(confirmations), token, draft, digest, now);
              && (admitted ==> (p.dir, o) == Apply(p.id, old(p.dir), draft, stamp, f))
              && (admitted ==> history == old(history) + [Spent(token, draft, now)] && Justified(history, |old(history)|))
              && (!admitted ==> p.dir == old(p.dir) && o == Failed(Objection(draft, f)))
    {
      var error := AdmitDraft(draft, token, now, f);
      if error.Some? {
        return Failed(error.value);
      }
      o := p.ApplyDraft(draft, stamp, f);
    }

    /** Validation, then the token: a draft that fails validation keeps its token. */
    method AdmitDraft(draft: Draft, token: string, now: int, f: Faults) returns (error: Option<Error>)
      requires Valid() && now >= clock && Normalized(draft)
      modifies this`confirmations, this`clock, this`history
      ensures Valid()
      ensures error.Some? ==> error.value == Objection(draft, f)
      ensures error.None? <==>
              DocumentAccepted(draft.composeYAML) && f.configRun && Accepts(old(confirmations), token, draft, digest, now)
      ensures error == Some(NotValidated) ==> confirmations == old(confirmations)
      ensures error.None? ==> history == old(history) + [Spent(token, draft, now)] &&
                              Justified(history, |old(history)|)
    {
      var valid := Validate(draft.composeYAML, f.configRun);
      if !valid {
        return Some(NotValidated);
      }
      var spent := SpendConfirmation(token, draft, now);
      return if spent then None else Some(BadToken);
    }

    method RollbackRequest(p: ProjectDirectory, stamp: string, f: Faults) returns (o: Outcome)
      modifies this`active, p
      ensures active == old(active)
      ensures if ValidProjectID(p.id) && ProjectName(p.id) !in active
              then (p.dir, o) == Rollback(p.id, old(p.dir), RollbackValid(p.id, old(p.dir), f), stamp, f)
              else p.dir == old(p.dir) && o == Failed(if ValidProjectID(p.id) then Busy else BadRequest)
      ensures Committed(o) ==> old(p.dir).Some? && p.dir.Some? && p.dir.value.compose.Some? && DocumentAccepted(p.dir.value.compose.value)
    {
      if !ValidProjectID(p.id) {
        return Failed(BadRequest);
      }
      var begun := BeginOperation(ProjectName(p.id));
      if !begun {
        return Failed(Busy);
      }
      o := RollbackBody(p, stamp, f);
      if Committed(o) {
        CommittedRollbackIsAccepted(p.id, old(p.dir), stamp, f);
      }
      FinishOperation(ProjectName(p.id));
      AddThenRemove(old(active), ProjectName(p.id));
    }

    /** The verdict on the document a rollback would deploy. */
    ghost predicate RollbackValid(id: string, d: Option<Dir>, f: Faults) {
      && Load(id, d, f).Loaded? && Older(d.value.revisions, d.value.metadata.value.revision) != {} && f.configRun
      && DocumentAccepted(d.value.revisions[Target(d.value.revisions, d.value.metadata.value.revision)])
    }

    lemma CommittedRollbackIsAccepted(id: string, d: Option<Dir>, stamp: string, f: Faults)
      requires Committed(Rollback(id, d, RollbackValid(id, d, f), stamp, f).1)
      ensures
        var after := Rollback(id, d, RollbackValid(id, d, f), stamp, f).0;
        d.Some? && after.Some? && after.value.compose.Some? && DocumentAccepted(after.value.compose.value)
    {
      RollbackLeavesTarget(id, d, RollbackValid(id, d, f), stamp, f);
    }

    method CheckRollback(p: ProjectDirectory, f: Faults) returns (blocked: Option<Error>, target: nat)
      ensures blocked == RollbackBlocked(p.id, p.dir, RollbackValid(p.id, p.dir, f), f)
      ensures blocked.None? ==> target == Target(p.dir.value.revisions, p.dir.value.metadata.value.revision)
      ensures blocked.None? ==> DocumentAccepted(p.dir.value.revisions[target])
    {
      var loaded := Load(p.id, p.dir, f);
      if !loaded.Loaded? {
        return Some(StateInvalid), 0;
      }
      if !f.listTargets {
        return Some(ReadFailed), 0;
      }
      var previous := p.PreviousRevision(loaded.metadata.revision);
      if previous.None? {
        return Some(NoRevision), 0;
      }
      if !f.readTarget {
        return Some(ReadFailed), 0;
      }
      var valid := Validate(p.dir.value.revisions[previous.value], f.configRun);
      if !valid {
        return Some(NotValidated), 0;
      }
      return None, previous.value;
    }

    method RollbackBody(p: ProjectDirectory, stamp: string, f: Faults) returns (o: Outcome)
      modifies p
      ensures (p.dir, o) == Rollback(p.id, old(p.dir), RollbackValid(p.id, old(p.dir), f), stamp, f)
    {
      var blocked, target := CheckRollback(p, f);
      if blocked.Some? {
        return Failed(blocked.value);
      }
      var yaml, env := p.dir.value.revisions[target], p.dir.value.env.value;
      var m := p.dir.value.metadata.value;
      var next := m.(revision := m.revision + 1, updatedAt := stamp);
      o := p.DeployRevision(true, yaml, env, next, false, f);
    }

    method ArchiveRequest(p: ProjectDirectory, f: Faults) returns (moved: Option<Dir>, o: Outcome)
      modifies this`active, p
      ensures active == old(active)
      ensures if ValidProjectID(p.id) && ProjectName(p.id) !in active
              then (p.dir, moved, o) == Archive(p.id, old(p.dir), f)
              else p.dir == old(p.dir) && moved.None? && o == Failed(if ValidProjectID(p.id) then Busy else BadRequest)
    {
      if !ValidProjectID(p.id) {
        return None, Failed(BadRequest);
      }
      var begun := BeginOperation(ProjectName(p.id));
      if !begun {
        return None, Failed(Busy);
      }
      moved, o := p.MoveToArchive(f);
      FinishOperation(ProjectName(p.id));
      AddThenRemove(old(active), ProjectName(p.id));
    }
  }
}
