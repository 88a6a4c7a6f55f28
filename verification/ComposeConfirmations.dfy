/** Confirmation tokens: preview issues one for a draft, apply spends it. */
module ComposeConfirmations {
  import opened Collections
  import opened ComposeFiles

  const CONFIRMATION_TTL := 300_000_000_000
  const MAX_CONFIRMATIONS := 128

  datatype Confirmation = Confirmation(projectID: string, fingerprint: string, expiresAt: int)

  type Store = map<string, Confirmation>

  // ---------------------------------------------------------------------
  // What a token is bound to
  // ---------------------------------------------------------------------

  const NUL := "\0"

  function BoolText(b: bool): string {
    if b then "true" else "false"
  }

  /** The text that is hashed: the five draft fields joined by NUL. */
  function Preimage(d: Draft): string {
    d.projectID + NUL + d.displayName + NUL + d.composeYAML + NUL + d.envFile + NUL + BoolText(d.pullImages)
  }

  predicate NulFree(s: string) {
    '\0' !in s
  }

  /** What normalization guarantees of the fields around the YAML text. */
  predicate Normalized(d: Draft) {
    ValidProjectID(d.projectID) && ValidDisplayName(d.displayName) && NulFree(d.envFile)
  }

  lemma FirstNulSplits(a: string, x: string, b: string, y: string)
    requires NulFree(a) && NulFree(b) && a + NUL + x == b + NUL + y
    ensures a == b && x == y
  {
    var s := a + NUL + x;
    assert forall k | 0 <= k < |a| :: s[k] == a[k];
    assert forall k | 0 <= k < |b| :: s[k] == b[k];
    assert s[|a|] == '\0' && s[|b|] == '\0';
    assert a == s[..|a|] && b == s[..|b|];
    assert x == s[|a| + 1..] && y == s[|b| + 1..];
  }

  lemma LastNulSplits(x: string, a: string, y: string, b: string)
    requires NulFree(a) && NulFree(b) && x + NUL + a == y + NUL + b
    ensures a == b && x == y
  {
    var s := x + NUL + a;
    assert forall k | |x| < k < |s| :: s[k] == a[k - |x| - 1];
    assert forall k | |y| < k < |s| :: s[k] == b[k - |y| - 1];
    assert s[|x|] == '\0' && s[|y|] == '\0';
    assert x == s[..|x|] && y == s[..|y|];
    assert a == s[|x| + 1..] && b == s[|y| + 1..];
  }

  lemma RegroupFields(a: string, b: string, c: string)
    ensures a + NUL + b + NUL + c == a + NUL + (b + NUL + c)
  {
  }

  function YamlAndAfter(d: Draft): string {
    d.composeYAML + NUL + d.envFile + NUL + BoolText(d.pullImages)
  }

  lemma PreimageFront(d: Draft)
    ensures Preimage(d) == d.projectID + NUL + (d.displayName + NUL + YamlAndAfter(d))
  {
    var front := d.projectID + NUL + d.displayName;
    RegroupFields(front + NUL + d.composeYAML, d.envFile, BoolText(d.pullImages));
    RegroupFields(front, d.composeYAML, d.envFile + NUL + BoolText(d.pullImages));
    RegroupFields(d.composeYAML, d.envFile, BoolText(d.pullImages));
    RegroupFields(d.projectID, d.displayName, YamlAndAfter(d));
  }

  /** The YAML text may hold NUL itself; the fields around it may not, so the
      hashed text still determines the draft. */
  lemma PreimageInjective(a: Draft, b: Draft)
    requires Normalized(a) && Normalized(b) && Preimage(a) == Preimage(b)
    ensures a == b
  {
    FieldsAreNulFree(a);
    FieldsAreNulFree(b);
    PreimageFront(a);
    PreimageFront(b);
    FirstNulSplits(a.projectID, a.displayName + NUL + YamlAndAfter(a), b.projectID, b.displayName + NUL + YamlAndAfter(b));
    FirstNulSplits(a.displayName, YamlAndAfter(a), b.displayName, YamlAndAfter(b));
    LastNulSplits(a.composeYAML + NUL + a.envFile, BoolText(a.pullImages), b.composeYAML + NUL + b.envFile, BoolText(b.pullImages));
    LastNulSplits(a.composeYAML, a.envFile, b.composeYAML, b.envFile);
  }

  lemma FieldsAreNulFree(d: Draft)
    requires Normalized(d)
    ensures NulFree(d.projectID) && NulFree(d.displayName) && NulFree(BoolText(d.pullImages))
  {
    forall i | 0 <= i < |d.projectID| ensures d.projectID[i] != '\0' {
      assert if i in {8, 13, 18, 23} then d.projectID[i] == '-' else LowerHex(d.projectID[i]);
    }
    forall i | 0 <= i < |d.displayName| ensures d.displayName[i] != '\0' {
      assert !Control(d.displayName[i]);
    }
  }

  ghost predicate Injective(digest: string -> string) {
    forall x, y | digest(x) == digest(y) :: x == y
  }

  // ---------------------------------------------------------------------
  // The two operations
  // ---------------------------------------------------------------------

  function Live(s: Store, now: int): Store {
    map t | t in s && s[t].expiresAt > now :: s[t]
  }

  ghost predicate Earliest(s: Store, victim: string) {
    victim in s && forall t | t in s :: s[victim].expiresAt <= s[t].expiresAt
  }

  /** Issuing drops what has expired and, only if that leaves a full store, one
      entry that expires first. Which of several is not determined. */
  ghost predicate Issues(s: Store, s': Store, token: string, c: Confirmation, now: int) {
    var live := Live(s, now);
    if |live| < MAX_CONFIRMATIONS then s' == live[token := c]
    else exists victim :: Earliest(live, victim) && s' == (live - {victim})[token := c]
  }

  function Bind(draft: Draft, digest: string -> string, now: int): Confirmation {
    Confirmation(draft.projectID, digest(Preimage(draft)), now + CONFIRMATION_TTL)
  }

  predicate Accepts(s: Store, token: string, draft: Draft, digest: string -> string, now: int) {
    && token != "" && token in s && s[token].expiresAt > now
    && s[token].projectID == draft.projectID && s[token].fingerprint == digest(Preimage(draft))
  }

  /** Spending a token removes it; so does finding it expired. */
  function Spend(s: Store, token: string, draft: Draft, digest: string -> string, now: int): Store {
    if Accepts(s, token, draft, digest, now) || (token != "" && token in s && s[token].expiresAt <= now) then s - {token} else s
  }

  // ---------------------------------------------------------------------
  // Whole runs
  // ---------------------------------------------------------------------

  datatype Event = Issued(token: string, draft: Draft, at: int) | Spent(token: string, draft: Draft, at: int) | Refused(at: int)

  datatype State = State(store: Store, clock: int, history: seq<Event>)

  ghost predicate FreshToken(history: seq<Event>, token: string) {
    token != "" && forall i | 0 <= i < |history| && history[i].Issued? :: history[i].token != token
  }

  /** One step: a preview issues a fresh token, or an apply presents one. */
  ghost predicate Next(a: State, e: Event, b: State, digest: string -> string) {
    && b.clock >= a.clock && b.history == a.history + [e] && e.at == b.clock
    && match e
       case Issued(token, draft, at) =>
         Normalized(draft) && FreshToken(a.history, token) && Issues(a.store, b.store, token, Bind(draft, digest, at), at)
       case Spent(token, draft, at) =>
         Normalized(draft) && Accepts(a.store, token, draft, digest, at) && b.store == Spend(a.store, token, draft, digest, at)
       case Refused(at) =>
         exists token, draft :: !Accepts(a.store, token, draft, digest, at) && b.store == Spend(a.store, token, draft, digest, at)
  }

  const INITIAL := State(map[], 0, [])

  /** A run: the states passed and the event of each step. */
  ghost predicate IsRun(run: seq<State>, events: seq<Event>, digest: string -> string) {
    && |run| == |events| + 1 && run[0] == INITIAL
    && forall i | 0 <= i < |events| :: Next(run[i], events[i], run[i + 1], digest)
  }

  /** Event i issued the token now stored as c. */
  ghost predicate IssuedAs(history: seq<Event>, i: int, token: string, c: Confirmation, clock: int, digest: string -> string) {
    && 0 <= i < |history| && history[i].Issued? && history[i].token == token && history[i].at <= clock
    && c == Bind(history[i].draft, digest, history[i].at)
  }

  ghost predicate Unspent(history: seq<Event>, token: string) {
    forall i | 0 <= i < |history| && history[i].Spent? :: history[i].token != token
  }

  /** The entry stands for an issue that has not been spent. */
  ghost predicate Backed(s: State, token: string, digest: string -> string) {
    && token in s.store && Unspent(s.history, token)
    && exists i: int :: IssuedAs(s.history, i, token, s.store[token], s.clock, digest)
  }

  /** Event i issued the token that event j spends: the same draft, less than the
      lifetime earlier. */
  ghost predicate Justifies(history: seq<Event>, i: int, j: int) {
    && 0 <= i < j < |history| && history[i].Issued? && history[j].Spent?
    && history[i].token == history[j].token && history[i].draft == history[j].draft
    && history[i].at <= history[j].at < history[i].at + CONFIRMATION_TTL
  }

  ghost predicate Justified(history: seq<Event>, j: int) {
    exists i: int :: Justifies(history, i, j)
  }

  ghost predicate SpentOnce(history: seq<Event>, j: int)
    requires 0 <= j < |history| && history[j].Spent?
  {
    forall k | 0 <= k < |history| && k != j && history[k].Spent? :: history[k].token != history[j].token
  }

  ghost predicate HistorySound(history: seq<Event>) {
    && (forall i | 0 <= i < |history| && history[i].Issued? :: Normalized(history[i].draft))
    && forall j | 0 <= j < |history| && history[j].Spent? :: SpentOnce(history, j) && Justified(history, j)
  }

  ghost predicate Sound(s: State, digest: string -> string) {
    && |s.store| <= MAX_CONFIRMATIONS && HistorySound(s.history)
    && forall token | token in s.store :: Backed(s, token, digest)
  }

  lemma StoreBounded(s: Store, s': Store, token: string, c: Confirmation, now: int)
    requires |s| <= MAX_CONFIRMATIONS && Issues(s, s', token, c, now)
    ensures |s'| <= MAX_CONFIRMATIONS && token in s' && s'[token] == c
    ensures forall t | t in s' && t != token :: t in s && s'[t] == s[t] && s[t].expiresAt > now
  {
    var live := Live(s, now);
    assert live.Keys <= s.Keys;
    SubsetSize(live.Keys, s.Keys);
    if |live| < MAX_CONFIRMATIONS {
      AddedKey(live, token, c);
    } else {
      var victim :| Earliest(live, victim) && s' == (live - {victim})[token := c];
      assert (live - {victim}).Keys == live.Keys - {victim};
      AddedKey(live - {victim}, token, c);
    }
  }

  lemma AddedKey(s: Store, token: string, c: Confirmation)
    ensures |s[token := c]| <= |s| + 1
  {
    assert s[token := c].Keys == s.Keys + {token};
  }

  lemma HistoryGrows(history: seq<Event>, e: Event)
    requires HistorySound(history)
    requires e.Issued? ==> Normalized(e.draft)
    requires e.Spent? ==> Unspent(history, e.token) && Justified(history + [e], |history|)
    ensures HistorySound(history + [e])
  {
    var longer := history + [e];
    forall j | 0 <= j < |longer| && longer[j].Spent? ensures SpentOnce(longer, j) && Justified(longer, j) {
      if j < |history| {
        assert SpentOnce(history, j);
        var i: int :| Justifies(history, i, j);
        assert Justifies(longer, i, j);
      }
    }
  }

  lemma StillBacked(a: State, e: Event, b: State, t: string, digest: string -> string)
    requires Backed(a, t, digest) && b.history == a.history + [e] && b.clock >= a.clock
    requires t in b.store && b.store[t] == a.store[t]
    requires e.Spent? ==> e.token != t
    ensures Backed(b, t, digest)
  {
    var i: int :| IssuedAs(a.history, i, t, a.store[t], a.clock, digest);
    assert IssuedAs(b.history, i, t, b.store[t], b.clock, digest);
  }

  lemma IssueStaysSound(a: State, e: Event, b: State, digest: string -> string)
    requires Sound(a, digest) && Next(a, e, b, digest) && e.Issued?
    ensures Sound(b, digest) && e.token in b.store
  {
    StoreBounded(a.store, b.store, e.token, Bind(e.draft, digest, e.at), e.at);
    HistoryGrows(a.history, e);
    FreshIsUnspent(a.history, e.token);
    forall t | t in b.store ensures Backed(b, t, digest) {
      if t != e.token {
        StillBacked(a, e, b, t, digest);
      } else {
        assert IssuedAs(b.history, |a.history|, t, b.store[t], b.clock, digest);
      }
    }
  }

  lemma FreshIsUnspent(history: seq<Event>, token: string)
    requires HistorySound(history) && FreshToken(history, token)
    ensures Unspent(history, token)
  {
    forall j | 0 <= j < |history| && history[j].Spent? ensures history[j].token != token {
      var i: int :| Justifies(history, i, j);
    }
  }

  lemma SpendStaysSound(a: State, e: Event, b: State, digest: string -> string)
    requires Injective(digest) && Sound(a, digest) && Next(a, e, b, digest) && e.Spent?
    ensures Sound(b, digest)
  {
    assert b.store.Keys <= a.store.Keys;
    SubsetSize(b.store.Keys, a.store.Keys);
    assert Backed(a, e.token, digest);
    var i: int :| IssuedAs(a.history, i, e.token, a.store[e.token], a.clock, digest);
    PreimageInjective(a.history[i].draft, e.draft);
    assert Justifies(a.history + [e], i, |a.history|);
    HistoryGrows(a.history, e);
    forall t | t in b.store ensures Backed(b, t, digest) {
      StillBacked(a, e, b, t, digest);
    }
  }

  lemma RefusalStaysSound(a: State, e: Event, b: State, digest: string -> string)
    requires Sound(a, digest) && Next(a, e, b, digest) && e.Refused?
    ensures Sound(b, digest)
  {
    assert b.store.Keys <= a.store.Keys;
    SubsetSize(b.store.Keys, a.store.Keys);
    HistoryGrows(a.history, e);
    forall t | t in b.store ensures Backed(b, t, digest) {
      StillBacked(a, e, b, t, digest);
    }
  }

  /** In every run the store stays within its bound, and every token an apply
      spends was issued by a preview of that very draft within the lifetime and
      is spent once. */
  lemma {:induction false} RunsAreSound(run: seq<State>, events: seq<Event>, digest: string -> string)
    requires Injective(digest) && IsRun(run, events, digest)
    ensures Sound(run[|events|], digest) && run[|events|].history == events
    decreases |events|
  {
    if events != [] {
      var n := |events| - 1;
      RunsAreSound(run[..n + 1], events[..n], digest);
      assert Next(run[n], events[n], run[n + 1], digest);
      StepStaysSound(run[n], events[n], run[n + 1], digest);
    }
  }

  lemma StepStaysSound(a: State, e: Event, b: State, digest: string -> string)
    requires Injective(digest) && Sound(a, digest) && Next(a, e, b, digest)
    ensures Sound(b, digest)
  {
    match e
    case Issued(_, _, _) => IssueStaysSound(a, e, b, digest);
    case Spent(_, _, _) => SpendStaysSound(a, e, b, digest);
    case Refused(_) => RefusalStaysSound(a, e, b, digest);
  }

  // ---------------------------------------------------------------------
  // What a preview is worth
  // ---------------------------------------------------------------------

  /** The tokens issued at the given time or later. */
  function IssuedSince(history: seq<Event>, at: int): set<string> {
    if history == [] then {}
    else
      var e := history[|history| - 1];
      IssuedSince(history[..|history| - 1], at) + if e.Issued? && e.at >= at then {e.token} else {}
  }

  lemma {:induction false} IssuedSinceHas(history: seq<Event>, at: int, i: nat)
    requires i < |history| && history[i].Issued? && history[i].at >= at
    ensures history[i].token in IssuedSince(history, at)
    decreases |history|
  {
    if i < |history| - 1 {
      IssuedSinceHas(history[..|history| - 1], at, i);
    }
  }

  lemma {:induction false} FreshIsNotSince(history: seq<Event>, at: int, token: string)
    requires FreshToken(history, token)
    ensures token !in IssuedSince(history, at)
    decreases |history|
  {
    if history != [] {
      FreshIsNotSince(history[..|history| - 1], at, token);
    }
  }

  lemma IssuedSinceGrows(history: seq<Event>, e: Event, at: int)
    ensures IssuedSince(history + [e], at) == IssuedSince(history, at) + if e.Issued? && e.at >= at then {e.token} else {}
  {
    assert (history + [e])[..|history|] == history;
  }

  /** When the first to expire was issued at the given time, so many tokens have been
      issued since, and a new one besides. */
  lemma FullSince(s: State, live: Store, token: string, at: int, digest: string -> string, e: Event)
    requires Sound(s, digest) && live.Keys <= s.store.Keys && (forall t | t in live :: live[t] == s.store[t])
    requires Earliest(live, token) && live[token].expiresAt == at + CONFIRMATION_TTL
    requires e.Issued? && e.at >= at && FreshToken(s.history, e.token)
    ensures |live| < |IssuedSince(s.history + [e], at)|
  {
    forall t | t in live ensures t in IssuedSince(s.history, at) {
      assert Backed(s, t, digest);
      var i: int :| IssuedAs(s.history, i, t, s.store[t], s.clock, digest);
      IssuedSinceHas(s.history, at, i);
    }
    SubsetSize(live.Keys, IssuedSince(s.history, at));
    IssuedSinceGrows(s.history, e, at);
    FreshIsNotSince(s.history, at, e.token);
  }

  /** The token is stored for its draft. */
  ghost predicate Standing(s: State, token: string, draft: Draft, at: int, digest: string -> string) {
    token in s.store && s.store[token] == Bind(draft, digest, at)
  }

  lemma StepKeepsStanding(a: State, e: Event, b: State, digest: string -> string, token: string, draft: Draft, at: int)
    requires Sound(a, digest) && Next(a, e, b, digest) && Standing(a, token, draft, at, digest)
    requires e.at >= at && e.at < at + CONFIRMATION_TTL && (e.Spent? ==> e.token != token)
    requires |IssuedSince(b.history, at)| <= MAX_CONFIRMATIONS && !(e.Issued? && e.token == token)
    ensures Standing(b, token, draft, at, digest)
  {
    if e.Issued? {
      var live := Live(a.store, e.at);
      if |live| >= MAX_CONFIRMATIONS {
        NotFirstToGo(a, e, digest, token, at, live);
      }
      IssueSpares(a.store, b.store, e.token, Bind(e.draft, digest, e.at), e.at, token);
    }
  }

  lemma IssueSpares(s: Store, s': Store, made: string, c: Confirmation, now: int, token: string)
    requires Issues(s, s', made, c, now) && token in s && s[token].expiresAt > now && token != made
    requires |Live(s, now)| >= MAX_CONFIRMATIONS ==> !Earliest(Live(s, now), token)
    ensures token in s' && s'[token] == s[token]
  {
  }

  lemma NotFirstToGo(s: State, e: Event, digest: string -> string, token: string, at: int, live: Store)
    requires Sound(s, digest) && live.Keys <= s.store.Keys && (forall t | t in live :: live[t] == s.store[t])
    requires e.Issued? && e.at >= at && FreshToken(s.history, e.token)
    requires token in live && live[token].expiresAt == at + CONFIRMATION_TTL
    requires |IssuedSince(s.history + [e], at)| <= MAX_CONFIRMATIONS <= |live|
    ensures !Earliest(live, token)
  {
    if Earliest(live, token) {
      FullSince(s, live, token, at, digest, e);
    }
  }

  lemma {:induction false} IssuedSinceShrinks(history: seq<Event>, n: nat, at: int)
    requires n <= |history|
    ensures IssuedSince(history[..n], at) <= IssuedSince(history, at)
    decreases |history|
  {
    if n < |history| {
      var shorter := history[..|history| - 1];
      assert shorter[..n] == history[..n];
      IssuedSinceShrinks(shorter, n, at);
    } else {
      assert history[..n] == history;
    }
  }

  /** The clock and the history of a run at each point. */
  lemma {:induction false} RunAt(run: seq<State>, events: seq<Event>, digest: string -> string, n: nat)
    requires IsRun(run, events, digest) && n <= |events|
    ensures run[n].history == events[..n] && forall j | 0 <= j < n :: events[j].at <= run[n].clock
    decreases n
  {
    if n > 0 {
      RunAt(run, events, digest, n - 1);
      assert Next(run[n - 1], events[n - 1], run[n], digest);
    }
  }

  lemma {:induction false} StandsUntil(run: seq<State>, events: seq<Event>, digest: string -> string, i: nat, n: nat)
    requires Injective(digest) && IsRun(run, events, digest) && i < n <= |events|
    requires events[i].Issued? && Unspent(events, events[i].token)
    requires |IssuedSince(events, events[i].at)| <= MAX_CONFIRMATIONS
    requires run[n].clock < events[i].at + CONFIRMATION_TTL
    ensures Standing(run[n], events[i].token, events[i].draft, events[i].at, digest)
    decreases n
  {
    var m := n - 1;
    RunAt(run, events, digest, m);
    assert Next(run[m], events[m], run[n], digest);
    RunsAreSound(run[..m + 1], events[..m], digest);
    if i == m {
      IssueStaysSound(run[m], events[m], run[n], digest);
      StoreBounded(run[m].store, run[n].store, events[i].token, Bind(events[i].draft, digest, events[i].at), events[i].at);
    } else {
      StandsUntil(run, events, digest, i, m);
      RunAt(run, events, digest, n);
      IssuedSinceShrinks(events, n, events[i].at);
      SubsetSize(IssuedSince(events[..n], events[i].at), IssuedSince(events, events[i].at));
      StepKeepsStanding(run[m], events[m], run[n], digest, events[i].token, events[i].draft, events[i].at);
    }
  }

  /** In every run, a token not yet spent is accepted for its own draft and no other,
      for five minutes from its preview, as long as at most 128 tokens were issued
      from that time on: a preview can only lose its token to 128 later ones. */
  lemma IssuedIsAcceptedIff(run: seq<State>, events: seq<Event>, digest: string -> string, i: nat, draft: Draft, now: int)
    requires Injective(digest) && IsRun(run, events, digest) && i < |events|
    requires events[i].Issued? && Unspent(events, events[i].token) && Normalized(draft)
    requires |IssuedSince(events, events[i].at)| <= 128 && run[|events|].clock <= now
    requires run[|events|].clock < events[i].at + 300_000_000_000
    ensures
      Accepts(run[|events|].store, events[i].token, draft, digest, now) <==>
      draft == events[i].draft && now < events[i].at + 300_000_000_000
  {
    StandsUntil(run, events, digest, i, |events|);
    assert Next(run[i], events[i], run[i + 1], digest);
    if digest(Preimage(draft)) == digest(Preimage(events[i].draft)) {
      PreimageInjective(draft, events[i].draft);
    }
  }
}
