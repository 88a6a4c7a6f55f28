/** Install tokens: each is exchanged, by one node, for that node's own token. */
module InstallAuth {
  import opened Collections
  import opened Wrappers

  const INSTALL_TOKEN_TTL := 1_800_000_000_000
  const MAX_INSTALL_TOKENS := 1024

  datatype Entry = Entry(nodeID: string, nodeToken: string, createdAt: int, expiresAt: int)

  datatype State = State(nodeTokens: map<string, string>, installTokens: map<string, Entry>)

  const EMPTY := State(map[], map[])

  // ---------------------------------------------------------------------
  // The operations as functions of the store
  // ---------------------------------------------------------------------

  function Unexpired(m: map<string, Entry>, now: int): map<string, Entry> {
    map t | t in m && now <= m[t].expiresAt :: m[t]
  }

  function Create(s: State, token: string, now: int): (r: (State, bool)) {
    var live := s.(installTokens := Unexpired(s.installTokens, now));
    if |live.installTokens| >= MAX_INSTALL_TOKENS then (live, false)
    else (live.(installTokens := live.installTokens[token := Entry("", "", now, now + INSTALL_TOKEN_TTL)]), true)
  }

  /** minted is the random node token, saved whether it could be stored. */
  function Exchange(s: State, token: string, nodeID: string, minted: Option<string>, saved: bool, now: int): (r: (State, Option<string>)) {
    if token !in s.installTokens then (s, None)
    else
      var entry := s.installTokens[token];
      if now > entry.expiresAt then (s.(installTokens := s.installTokens - {token}), None)
      else if entry.nodeID != "" then
        (s, if entry.nodeID != nodeID || entry.nodeToken == "" then None else Some(entry.nodeToken))
      else if minted.None? || !saved then (s, None)
      else
        (State(s.nodeTokens[nodeID := minted.value],
               s.installTokens[token := entry.(nodeID := nodeID, nodeToken := minted.value)]),
         Some(minted.value))
  }

  function Revoke(s: State, nodeID: string): State {
    State(s.nodeTokens - {nodeID}, map t | t in s.installTokens && s.installTokens[t].nodeID != nodeID :: s.installTokens[t])
  }

  function Complete(s: State, nodeID: string, nodeToken: string): State {
    if nodeID == "" || nodeToken == "" then s
    else
      State(if nodeID in s.nodeTokens && s.nodeTokens[nodeID] == nodeToken then s.nodeTokens - {nodeID} else s.nodeTokens,
            map t | t in s.installTokens && !(s.installTokens[t].nodeID == nodeID && s.installTokens[t].nodeToken == nodeToken)
              :: s.installTokens[t])
  }

  /** May a connection present this install token at all? */
  function MayAuthenticate(s: State, token: string, now: int): (r: (State, bool)) {
    if token !in s.installTokens then (s, false)
    else if now > s.installTokens[token].expiresAt then (s.(installTokens := s.installTokens - {token}), false)
    else (s, true)
  }

  // ---------------------------------------------------------------------
  // Single steps
  // ---------------------------------------------------------------------

  /** A token is created iff fewer than 1024 others are unexpired. */
  lemma CreateIff(s: State, token: string, now: int)
    ensures Create(s, token, now).1 <==> |set t | t in s.installTokens && now <= s.installTokens[t].expiresAt| < 1024
  {
    assert Unexpired(s.installTokens, now).Keys == set t | t in s.installTokens && now <= s.installTokens[t].expiresAt;
  }

  /** An exchange answers iff the token is known and unexpired and either unbound, with
      a node token that could be made and saved, or bound to this very node. */
  lemma ExchangeIff(s: State, token: string, nodeID: string, minted: Option<string>, saved: bool, now: int)
    ensures Exchange(s, token, nodeID, minted, saved, now).1.Some? <==>
            && token in s.installTokens && s.installTokens[token].expiresAt >= now
            && (if s.installTokens[token].nodeID == "" then minted.Some? && saved
                else nodeID == s.installTokens[token].nodeID && s.installTokens[token].nodeToken != "")
  {
  }

  /** A token may authenticate iff some node could exchange it at that time. */
  lemma AuthenticatesIff(s: State, token: string, minted: string, now: int)
    requires token in s.installTokens && s.installTokens[token].nodeID != "" ==> s.installTokens[token].nodeToken != ""
    ensures MayAuthenticate(s, token, now).1 <==>
            exists nodeID: string :: Exchange(s, token, nodeID, Some(minted), true, now).1.Some?
    ensures MayAuthenticate(s, token, now).0 ==
            if token in s.installTokens && !MayAuthenticate(s, token, now).1 then s.(installTokens := s.installTokens - {token}) else s
  {
    if MayAuthenticate(s, token, now).1 {
      assert Exchange(s, token, s.installTokens[token].nodeID, Some(minted), true, now).1.Some?;
    }
  }

  /** A refused exchange, a failed save among them, changes nothing but dropping
      the token it found expired. */
  lemma RefusedExchangeChangesNothing(s: State, token: string, nodeID: string, minted: Option<string>, saved: bool, now: int)
    requires Exchange(s, token, nodeID, minted, saved, now).1.None?
    ensures Exchange(s, token, nodeID, minted, saved, now).0 == MayAuthenticate(s, token, now).0
  {
  }

  /** The binding made by a first exchange shuts out every other node exactly when
      the node ID is not empty: an empty one leaves the token unbound. */
  lemma BindsIff(s: State, token: string, nodeID: string, minted: string, now: int)
    requires token in s.installTokens && s.installTokens[token].nodeID == "" && now <= s.installTokens[token].expiresAt && minted != ""
    ensures
      var after := Exchange(s, token, nodeID, Some(minted), true, now).0;
      (forall other: string, again: string {:trigger Exchange(after, token, other, Some(again), true, now)} | other != nodeID ::
         Exchange(after, token, other, Some(again), true, now).1.None?) <==> nodeID != ""
  {
    var after := Exchange(s, token, nodeID, Some(minted), true, now).0;
    if nodeID == "" {
      assert Exchange(after, token, "other", Some("again"), true, now).1 == Some("again");
    }
  }

  // ---------------------------------------------------------------------
  // Whole runs
  // ---------------------------------------------------------------------

  datatype Op =
    | CreateOp(token: string, now: int)
    | ExchangeOp(token: string, nodeID: string, minted: Option<string>, saved: bool, now: int)
    | RevokeOp(nodeID: string)
    | CompleteOp(nodeID: string, nodeToken: string)
    | CheckOp(token: string, now: int)

  /** What an operation achieved. */
  datatype Fact =
    | Created(token: string)
    | Exchanged(token: string, nodeID: string, nodeToken: string, first: bool)
    | Revoked(nodeID: string)
    | Nothing

  function Do(s: State, op: Op): (r: (State, Fact)) {
    match op
    case CreateOp(token, now) =>
      var (t, ok) := Create(s, token, now);
      (t, if ok then Created(token) else Nothing)
    case ExchangeOp(token, nodeID, minted, saved, now) =>
      var (t, got) := Exchange(s, token, nodeID, minted, saved, now);
      (t, if got.Some? then Exchanged(token, nodeID, got.value, s.installTokens[token].nodeID == "") else Nothing)
    case RevokeOp(nodeID) => (Revoke(s, nodeID), Revoked(nodeID))
    case CompleteOp(nodeID, nodeToken) => (Complete(s, nodeID, nodeToken), Nothing)
    case CheckOp(token, now) => (MayAuthenticate(s, token, now).0, Nothing)
  }

  function Front(log: seq<Fact>): seq<Fact>
    requires log != []
  {
    log[..|log| - 1]
  }

  function Last(log: seq<Fact>): Fact
    requires log != []
  {
    log[|log| - 1]
  }

  /** The install tokens created so far. */
  function CreatedTokens(log: seq<Fact>): set<string> {
    if log == [] then {}
    else CreatedTokens(Front(log)) + if Last(log).Created? then {Last(log).token} else {}
  }

  /** For each install token exchanged so far, the node and the node token. */
  function Bindings(log: seq<Fact>): map<string, (string, string)> {
    if log == [] then map[]
    else if Last(log).Exchanged? then Bindings(Front(log))[Last(log).token := (Last(log).nodeID, Last(log).nodeToken)]
    else Bindings(Front(log))
  }

  /** The pairs of node and node token minted for it in a first exchange. */
  function Minted(log: seq<Fact>): set<(string, string)> {
    if log == [] then {}
    else Minted(Front(log)) + if Last(log).Exchanged? && Last(log).first then {(Last(log).nodeID, Last(log).nodeToken)} else {}
  }

  /** The install tokens that were bound to a node when it was revoked. */
  function Burned(log: seq<Fact>): set<string> {
    if log == [] then {}
    else if Last(log).Revoked? then
      Burned(Front(log)) + set t | t in Bindings(Front(log)) && Bindings(Front(log))[t].0 == Last(log).nodeID
    else Burned(Front(log))
  }

  /** Each exchange repeats the binding its token already had, and no burned token
      is exchanged. */
  predicate Orderly(log: seq<Fact>) {
    log == [] ||
    (&& Orderly(Front(log))
     && (Last(log).Exchanged? ==>
           && Last(log).token !in Burned(Front(log))
           && (Last(log).token in Bindings(Front(log)) ==>
                 Bindings(Front(log))[Last(log).token] == (Last(log).nodeID, Last(log).nodeToken))))
  }

  /** Install tokens are random, so no operation creates one that an earlier one
      created; node IDs and minted tokens are not empty. */
  predicate Plausible(log: seq<Fact>, op: Op) {
    match op
    case CreateOp(token, _) => token !in CreatedTokens(log)
    case ExchangeOp(_, nodeID, minted, _, _) => nodeID != "" && (minted.Some? ==> minted.value != "")
    case _ => true
  }

  ghost predicate IsRun(states: seq<State>, ops: seq<Op>, log: seq<Fact>) {
    && |states| == |ops| + 1 && |log| == |ops| && states[0] == EMPTY
    && forall i | 0 <= i < |ops| :: Plausible(log[..i], ops[i]) && Do(states[i], ops[i]) == (states[i + 1], log[i])
  }

  /** A live entry records the exchange that bound it, or that there was none. */
  ghost predicate Explained(log: seq<Fact>, token: string, e: Entry) {
    && token in CreatedTokens(log) && token !in Burned(log)
    && (token in Bindings(log) <==> e.nodeID != "")
    && (e.nodeID != "" ==>
          e.nodeToken != "" && Bindings(log)[token] == (e.nodeID, e.nodeToken) && (e.nodeID, e.nodeToken) in Minted(log))
  }

  ghost predicate Inv(s: State, log: seq<Fact>) {
    && |s.installTokens| <= MAX_INSTALL_TOKENS
    && (forall token | token in s.installTokens :: Explained(log, token, s.installTokens[token]))
    && (forall nodeID | nodeID in s.nodeTokens :: (nodeID, s.nodeTokens[nodeID]) in Minted(log))
    && Burned(log) <= Bindings(log).Keys && Bindings(log).Keys <= CreatedTokens(log)
    && Orderly(log)
  }

  lemma OneMore(log: seq<Fact>, f: Fact)
    ensures Front(log + [f]) == log && Last(log + [f]) == f
  {
  }

  lemma RemovalKeepsInv(s: State, t: State, log: seq<Fact>, f: Fact)
    requires Inv(s, log) && (f.Nothing? || f.Revoked?)
    requires t.installTokens.Keys <= s.installTokens.Keys && t.nodeTokens.Keys <= s.nodeTokens.Keys
    requires forall token | token in t.installTokens :: t.installTokens[token] == s.installTokens[token]
    requires forall n | n in t.nodeTokens :: t.nodeTokens[n] == s.nodeTokens[n]
    requires f.Revoked? ==> forall token | token in t.installTokens :: t.installTokens[token].nodeID != f.nodeID
    ensures Inv(t, log + [f])
  {
    OneMore(log, f);
    SubsetSize(t.installTokens.Keys, s.installTokens.Keys);
    forall token | token in t.installTokens ensures Explained(log + [f], token, t.installTokens[token]) {
      assert Explained(log, token, s.installTokens[token]);
    }
  }

  lemma OtherStaysExplained(log: seq<Fact>, made: string, token: string, e: Entry)
    requires Explained(log, token, e)
    ensures Explained(log + [Created(made)], token, e)
  {
    OneMore(log, Created(made));
  }

  lemma CreateKeepsInv(s: State, log: seq<Fact>, token: string, now: int)
    requires Inv(s, log) && Plausible(log, CreateOp(token, now)) && Create(s, token, now).1
    ensures Inv(Create(s, token, now).0, log + [Created(token)])
  {
    OneMore(log, Created(token));
    var t := Create(s, token, now).0;
    var live := Unexpired(s.installTokens, now);
    assert t.installTokens.Keys == live.Keys + {token};
    forall other | other in t.installTokens ensures Explained(log + [Created(token)], other, t.installTokens[other]) {
      if other != token {
        OtherStaysExplained(log, token, other, s.installTokens[other]);
      }
    }
  }

  lemma ExchangeKeepsInv(s: State, log: seq<Fact>, op: Op)
    requires op.ExchangeOp? && Inv(s, log) && Plausible(log, op) && Do(s, op).1.Exchanged?
    ensures Inv(Do(s, op).0, log + [Do(s, op).1])
  {
    var (t, f) := Do(s, op);
    OneMore(log, f);
    assert Explained(log, op.token, s.installTokens[op.token]);
    assert t.installTokens.Keys == s.installTokens.Keys;
    forall token | token in t.installTokens ensures Explained(log + [f], token, t.installTokens[token]) {
      assert Explained(log, token, s.installTokens[token]);
    }
  }

  /** The operations that neither create nor exchange only take entries away. */
  lemma OthersRemove(s: State, op: Op)
    requires !Do(s, op).1.Created? && !Do(s, op).1.Exchanged?
    ensures
      var (t, f) := Do(s, op);
      && (f.Nothing? || f.Revoked?)
      && t.installTokens.Keys <= s.installTokens.Keys && t.nodeTokens.Keys <= s.nodeTokens.Keys
      && (forall token | token in t.installTokens :: t.installTokens[token] == s.installTokens[token])
      && (forall n | n in t.nodeTokens :: t.nodeTokens[n] == s.nodeTokens[n])
      && (f.Revoked? ==> forall token | token in t.installTokens :: t.installTokens[token].nodeID != f.nodeID)
  {
  }

  lemma StepKeepsInv(s: State, log: seq<Fact>, op: Op)
    requires Inv(s, log) && Plausible(log, op)
    ensures Inv(Do(s, op).0, log + [Do(s, op).1])
  {
    if op.CreateOp? && Create(s, op.token, op.now).1 {
      CreateKeepsInv(s, log, op.token, op.now);
    } else if Do(s, op).1.Exchanged? {
      ExchangeKeepsInv(s, log, op);
    } else {
      OthersRemove(s, op);
      RemovalKeepsInv(s, Do(s, op).0, log, Do(s, op).1);
    }
  }

  lemma PrefixIsRun(states: seq<State>, ops: seq<Op>, log: seq<Fact>, n: nat)
    requires IsRun(states, ops, log) && n <= |ops|
    ensures IsRun(states[..n + 1], ops[..n], log[..n])
  {
    forall i | 0 <= i < n ensures Plausible(log[..n][..i], ops[..n][i]) {
      assert log[..n][..i] == log[..i];
    }
  }

  lemma EmptyInv()
    ensures Inv(EMPTY, [])
  {
  }

  lemma {:induction false} RunsKeepInv(states: seq<State>, ops: seq<Op>, log: seq<Fact>)
    requires IsRun(states, ops, log)
    ensures Inv(states[|ops|], log)
    decreases |ops|
  {
    if ops == [] {
      assert log == [];
      EmptyInv();
    } else {
      var n := |ops| - 1;
      PrefixIsRun(states, ops, log, n);
      RunsKeepInv(states[..n + 1], ops[..n], log[..n]);
      assert states[..n + 1][n] == states[n];
      assert log == log[..n] + [log[n]] && Plausible(log[..n], ops[n]);
      StepLeadsTo(states[n], log[..n], ops[n], states[n + 1], log[n], log);
    }
  }

  lemma StepLeadsTo(s: State, log: seq<Fact>, op: Op, t: State, f: Fact, longer: seq<Fact>)
    requires Inv(s, log) && Plausible(log, op) && Do(s, op) == (t, f) && longer == log + [f]
    ensures Inv(t, longer)
  {
    StepKeepsInv(s, log, op);
  }

  /** A binding made at position i is the one still known at the end. */
  lemma {:induction false} BindingLasts(log: seq<Fact>, i: nat)
    requires Orderly(log) && i < |log| && log[i].Exchanged?
    ensures log[i].token in Bindings(log) && Bindings(log)[log[i].token] == (log[i].nodeID, log[i].nodeToken)
    decreases |log|
  {
    if i < |log| - 1 {
      assert Front(log)[i] == log[i];
      BindingLasts(Front(log), i);
    }
  }

  lemma {:induction false} BurnedLasts(log: seq<Fact>, i: nat, k: nat)
    requires Orderly(log) && i < k < |log| && log[i].Exchanged? && log[k].Revoked? && log[k].nodeID == log[i].nodeID
    ensures log[i].token in Burned(log)
    decreases |log|
  {
    if k < |log| - 1 {
      assert Front(log)[i] == log[i] && Front(log)[k] == log[k];
      BurnedLasts(Front(log), i, k);
    } else {
      assert Front(log)[i] == log[i];
      BindingLasts(Front(log), i);
    }
  }

  lemma {:induction false} OrderlyPrefix(log: seq<Fact>, n: nat)
    requires Orderly(log) && n <= |log|
    ensures Orderly(log[..n])
    decreases |log|
  {
    if n < |log| {
      assert Front(log)[..n] == log[..n];
      OrderlyPrefix(Front(log), n);
    } else {
      assert log[..n] == log;
    }
  }

  /** In every run: at most 1024 install tokens are live, and every stored node
      token was minted for its node. */
  lemma StoreIsBounded(states: seq<State>, ops: seq<Op>, log: seq<Fact>)
    requires IsRun(states, ops, log)
    ensures |states[|ops|].installTokens| <= 1024
    ensures forall nodeID | nodeID in states[|ops|].nodeTokens :: (nodeID, states[|ops|].nodeTokens[nodeID]) in Minted(log)
  {
    RunsKeepInv(states, ops, log);
  }

  /** In every run, all successful exchanges of one install token name the same
      node and return the same node token. */
  lemma ExchangesAgree(states: seq<State>, ops: seq<Op>, log: seq<Fact>, i: nat, j: nat)
    requires IsRun(states, ops, log) && i < |log| && j < |log|
    requires log[i].Exchanged? && log[j].Exchanged? && log[i].token == log[j].token
    ensures log[i].nodeID == log[j].nodeID && log[i].nodeToken == log[j].nodeToken
  {
    RunsKeepInv(states, ops, log);
    BindingLasts(log, i);
    BindingLasts(log, j);
  }

  /** In every run, once a node is revoked no install token bound to it before is
      exchanged again. */
  lemma RevocationIsFinal(states: seq<State>, ops: seq<Op>, log: seq<Fact>, i: nat, k: nat, j: nat)
    requires IsRun(states, ops, log) && i < k < j < |log|
    requires log[i].Exchanged? && log[k].Revoked? && log[k].nodeID == log[i].nodeID
    ensures log[j].Exchanged? ==> log[j].token != log[i].token
  {
    RunsKeepInv(states, ops, log);
    OrderlyPrefix(log, j);
    BurnedLasts(log[..j], i, k);
    if log[j].Exchanged? {
      ExchangedIsNotBurned(log, j);
    }
  }

  lemma ExchangedIsNotBurned(log: seq<Fact>, j: nat)
    requires Orderly(log) && j < |log| && log[j].Exchanged?
    ensures log[j].token !in Burned(log[..j])
  {
    OrderlyPrefix(log, j + 1);
    assert Front(log[..j + 1]) == log[..j] && Last(log[..j + 1]) == log[j];
  }

  // ---------------------------------------------------------------------
  // What lasts until when
  // ---------------------------------------------------------------------

  /** The operation ends the entry: it finds it expired, revokes its node or completes
      its bootstrap. */
  predicate Ends(op: Op, token: string, e: Entry) {
    match op
    case CreateOp(_, now) => now > e.expiresAt
    case ExchangeOp(t, _, _, _, now) => t == token && now > e.expiresAt
    case CheckOp(t, now) => t == token && now > e.expiresAt
    case RevokeOp(nodeID) => e.nodeID == nodeID
    case CompleteOp(nodeID, nodeToken) => nodeID != "" && nodeToken != "" && e.nodeID == nodeID && e.nodeToken == nodeToken
  }

  predicate FirstExchange(f: Fact, token: string) {
    f.Exchanged? && f.token == token && f.first
  }

  /** An install token leaves the store exactly when an operation ends it. One that
      stays is unchanged unless it is exchanged for the first time, which keeps its
      times. */
  lemma TokenLeavesIff(s: State, op: Op, token: string)
    requires token in s.installTokens && !(op.CreateOp? && op.token == token)
    ensures token !in Do(s, op).0.installTokens <==> Ends(op, token, s.installTokens[token])
    ensures
      var (after, f) := Do(s, op);
      token in after.installTokens ==>
        after.installTokens[token] ==
        if FirstExchange(f, token) then s.installTokens[token].(nodeID := f.nodeID, nodeToken := f.nodeToken)
        else s.installTokens[token]
  {
  }

  /** The operation takes the node's token away. */
  predicate TakesAway(op: Op, nodeID: string, nodeToken: string) {
    op == RevokeOp(nodeID) || (op == CompleteOp(nodeID, nodeToken) && nodeID != "" && nodeToken != "")
  }

  predicate MintsFor(f: Fact, nodeID: string) {
    f.Exchanged? && f.first && f.nodeID == nodeID
  }

  /** A node token is taken away exactly by revocation or completion, and only an
      exchange that mints for the node sets it. */
  lemma NodeTokenIff(s: State, op: Op, nodeID: string)
    ensures
      var (after, f) := Do(s, op);
      if MintsFor(f, nodeID) then nodeID in after.nodeTokens && after.nodeTokens[nodeID] == f.nodeToken
      else
        && (nodeID in after.nodeTokens <==> nodeID in s.nodeTokens && !TakesAway(op, nodeID, s.nodeTokens[nodeID]))
        && (nodeID in after.nodeTokens ==> after.nodeTokens[nodeID] == s.nodeTokens[nodeID])
  {
  }

  /** From step i on nothing ends the token's entry or binds it. */
  ghost predicate LeftAlone(ops: seq<Op>, log: seq<Fact>, i: nat, token: string, e: Entry)
    requires |ops| == |log|
  {
    forall j | i < j < |ops| :: !Ends(ops[j], token, e) && !FirstExchange(log[j], token)
  }

  lemma {:induction false} EntryStands(states: seq<State>, ops: seq<Op>, log: seq<Fact>, i: nat, n: nat, token: string, e: Entry)
    requires IsRun(states, ops, log) && i < n <= |ops| && LeftAlone(ops, log, i, token, e)
    requires token in states[i + 1].installTokens && states[i + 1].installTokens[token] == e
    ensures token in states[n].installTokens && states[n].installTokens[token] == e
    decreases n
  {
    var m := n - 1;
    if i < m {
      EntryStands(states, ops, log, i, m, token, e);
      PrefixIsRun(states, ops, log, m);
      RunsKeepInv(states[..m + 1], ops[..m], log[..m]);
      assert Explained(log[..m], token, states[m].installTokens[token]);
      assert Plausible(log[..m], ops[m]) && Do(states[m], ops[m]) == (states[n], log[m]);
      TokenLeavesIff(states[m], ops[m], token);
    }
  }

  /** In every run, an install token can be exchanged by any node for thirty minutes
      from its creation, unless it was exchanged before. */
  lemma CreatedIsExchangeable(states: seq<State>, ops: seq<Op>, log: seq<Fact>, i: nat, nodeID: string, minted: string, now: int)
    requires IsRun(states, ops, log) && i < |log| && log[i].Created? && ops[i].CreateOp? && now <= ops[i].now + 1_800_000_000_000
    requires LeftAlone(ops, log, i, log[i].token, Entry("", "", ops[i].now, ops[i].now + 1_800_000_000_000))
    ensures
      var (after, got) := Exchange(states[|ops|], log[i].token, nodeID, Some(minted), true, now);
      got == Some(minted) && nodeID in after.nodeTokens && after.nodeTokens[nodeID] == minted
    ensures MayAuthenticate(states[|ops|], log[i].token, now) == (states[|ops|], true)
  {
    assert Plausible(log[..i], ops[i]) && Do(states[i], ops[i]) == (states[i + 1], log[i]);
    EntryStands(states, ops, log, i, |ops|, log[i].token, Entry("", "", ops[i].now, ops[i].now + 1_800_000_000_000));
  }

  /** In every run, an install token once exchanged answers its own node with the same
      node token, and every other node with nothing, until its entry ends. */
  lemma ExchangeAnswersAgain(states: seq<State>, ops: seq<Op>, log: seq<Fact>, i: nat, nodeID: string, minted: Option<string>, saved: bool, now: int)
    requires IsRun(states, ops, log) && i < |log| && log[i].Exchanged? && log[i].first && log[i].token in states[i].installTokens
    requires
      var e := states[i].installTokens[log[i].token].(nodeID := log[i].nodeID, nodeToken := log[i].nodeToken);
      LeftAlone(ops, log, i, log[i].token, e) && now <= e.expiresAt
    ensures Exchange(states[|ops|], log[i].token, nodeID, minted, saved, now) ==
            (states[|ops|], if nodeID == log[i].nodeID then Some(log[i].nodeToken) else None)
    ensures MayAuthenticate(states[|ops|], log[i].token, now) == (states[|ops|], true)
  {
    var token := log[i].token;
    assert Plausible(log[..i], ops[i]) && Do(states[i], ops[i]) == (states[i + 1], log[i]);
    TokenLeavesIff(states[i], ops[i], token);
    PrefixIsRun(states, ops, log, i + 1);
    RunsKeepInv(states[..i + 2], ops[..i + 1], log[..i + 1]);
    EntryStands(states, ops, log, i, |ops|, token, states[i + 1].installTokens[token]);
  }

  /** In every run, a minted node token stays its node's until the node is revoked, its
      bootstrap completes, or another exchange mints one for the node. */
  lemma {:induction false} NodeTokenLasts(states: seq<State>, ops: seq<Op>, log: seq<Fact>, i: nat, n: nat)
    requires IsRun(states, ops, log) && i < n <= |ops| && log[i].Exchanged? && log[i].first
    requires forall j | i < j < n :: !TakesAway(ops[j], log[i].nodeID, log[i].nodeToken) && !MintsFor(log[j], log[i].nodeID)
    ensures log[i].nodeID in states[n].nodeTokens && states[n].nodeTokens[log[i].nodeID] == log[i].nodeToken
    decreases n
  {
    var m := n - 1;
    assert Do(states[m], ops[m]) == (states[n], log[m]);
    NodeTokenIff(states[m], ops[m], log[i].nodeID);
    if i < m {
      NodeTokenLasts(states, ops, log, i, m);
    }
  }

  /** In every run, a revoked node has no token until an exchange mints one for it. */
  lemma {:induction false} RevokedIsOut(states: seq<State>, ops: seq<Op>, log: seq<Fact>, i: nat, n: nat)
    requires IsRun(states, ops, log) && i < n <= |ops| && log[i].Revoked?
    requires forall j | i < j < n :: !MintsFor(log[j], log[i].nodeID)
    ensures log[i].nodeID !in states[n].nodeTokens
    decreases n
  {
    var m := n - 1;
    assert Do(states[m], ops[m]) == (states[n], log[m]);
    NodeTokenIff(states[m], ops[m], log[i].nodeID);
    if i < m {
      RevokedIsOut(states, ops, log, i, m);
    }
  }

  // ---------------------------------------------------------------------
  // The store as it runs
  // ---------------------------------------------------------------------

  class InstallAuthStore {
    var nodeTokens: map<string, string>
    var installTokens: map<string, Entry>

    ghost function View(): State
      reads this
    {
      State(nodeTokens, installTokens)
    }

    constructor ()
      ensures View() == EMPTY
    {
      nodeTokens, installTokens := map[], map[];
    }

    method PruneExpired(now: int)
      modifies this`installTokens
      ensures installTokens == Unexpired(old(installTokens), now)
    {
      ghost var before := installTokens;
      var left := installTokens.Keys;
      while left != {}
        invariant left <= before.Keys
        invariant installTokens == map t | t in before && (t in left || now <= before[t].expiresAt) :: before[t]
        decreases left
      {
        var token :| token in left;
        left := left - {token};
        if now > installTokens[token].expiresAt {
          installTokens := installTokens - {token};
        }
      }
    }

    method CreateInstallToken(token: string, now: int) returns (ok: bool)
      modifies this`installTokens
      ensures (View(), ok) == Create(old(View()), token, now)
    {
      PruneExpired(now);
      if |installTokens| >= MAX_INSTALL_TOKENS {
        return false;
      }
      installTokens := installTokens[token := Entry("", "", now, now + INSTALL_TOKEN_TTL)];
      return true;
    }

    method ExchangeInstallToken(token: string, nodeID: string, minted: Option<string>, saved: bool, now: int)
      returns (nodeToken: Option<string>)
      modifies this
      ensures (View(), nodeToken) == Exchange(old(View()), token, nodeID, minted, saved, now)
    {
      if token !in installTokens {
        return None;
      }
      var entry := installTokens[token];
      if now > entry.expiresAt {
        installTokens := installTokens - {token};
        return None;
      }
      if entry.nodeID != "" {
        if entry.nodeID != nodeID || entry.nodeToken == "" {
          return None;
        }
        return Some(entry.nodeToken);
      }
      if minted.None? || !saved {
        return None;
      }
      installTokens := installTokens[token := entry.(nodeID := nodeID, nodeToken := minted.value)];
      nodeTokens := nodeTokens[nodeID := minted.value];
      return minted;
    }

    method RevokeNodeToken(nodeID: string)
      modifies this
      ensures View() == Revoke(old(View()), nodeID)
    {
      ghost var before := installTokens;
      nodeTokens := nodeTokens - {nodeID};
      var left := installTokens.Keys;
      while left != {}
        invariant left <= before.Keys && nodeTokens == old(nodeTokens) - {nodeID}
        invariant installTokens == map t | t in before && (t in left || before[t].nodeID != nodeID) :: before[t]
        decreases left
      {
        var token :| token in left;
        left := left - {token};
        if installTokens[token].nodeID == nodeID {
          installTokens := installTokens - {token};
        }
      }
    }

    method CompleteBootstrap(nodeID: string, nodeToken: string)
      modifies this
      ensures View() == Complete(old(View()), nodeID, nodeToken)
    {
      if nodeID == "" || nodeToken == "" {
        return;
      }
      ghost var before := installTokens;
      if nodeID in nodeTokens && nodeTokens[nodeID] == nodeToken {
        nodeTokens := nodeTokens - {nodeID};
      }
      ghost var tokens := nodeTokens;
      var left := installTokens.Keys;
      while left != {}
        invariant left <= before.Keys && nodeTokens == tokens
        invariant installTokens ==
                  map t | t in before && (t in left || !(before[t].nodeID == nodeID && before[t].nodeToken == nodeToken)) :: before[t]
        decreases left
      {
        var token :| token in left;
        left := left - {token};
        if installTokens[token].nodeID == nodeID && installTokens[token].nodeToken == nodeToken {
          installTokens := installTokens - {token};
        }
      }
    }

    method MayAuthenticateInstallToken(token: string, now: int) returns (ok: bool)
      modifies this`installTokens
      ensures (View(), ok) == MayAuthenticate(old(View()), token, now)
    {
      if token !in installTokens {
        return false;
      }
      if now > installTokens[token].expiresAt {
        installTokens := installTokens - {token};
        return false;
      }
      return true;
    }
  }
}
