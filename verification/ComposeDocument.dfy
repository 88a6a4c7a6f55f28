/** Acceptance of a parsed Compose document. The risk list that accompanies an
    accepted document is not part of this model. */
module ComposeDocument {
  import opened ComposeYaml
  import opened ComposeMerge

  datatype Reason =
    | NotAMapping | NoServices | HasInclude | ExternalFile
    | BadService | HasBuild | HasExtends | HasEnvFile | HasProfiles

  datatype Verdict = Accepted | Rejected(reason: Reason)

  method AnalyzeDocument(g: seq<Node>, document: nat) returns (v: Verdict)
    requires WellFormed(g) && document < |g|
    ensures v == Judge(g, document)
  {
    var root := Unwrap(g, At(document));
    if !g[root.id].kind.Mapping? {
      return Rejected(NotAMapping);
    }
    var services := MappingValue(g, root, "services");
    services := Unwrap(g, services);
    if services.Nil? || !g[services.id].kind.Mapping? || |g[services.id].content| == 0 {
      return Rejected(NoServices);
    }
    var included := MappingValue(g, root, "include");
    if included.At? {
      return Rejected(HasInclude);
    }
    var configs := MappingValue(g, root, "configs");
    var configsFile := ContainsKey(g, configs, "file");
    var secrets := MappingValue(g, root, "secrets");
    var secretsFile := ContainsKey(g, secrets, "file");
    if configsFile || secretsFile {
      return Rejected(ExternalFile);
    }
    var index := 0;
    while index + 1 < |g[services.id].content|
      invariant 0 <= index
      invariant JudgeServices(g, services.id, 0) == JudgeServices(g, services.id, index)
    {
      v := AnalyzeService(g, g[services.id].content[index + 1]);
      if v.Rejected? {
        return;
      }
      index := index + 2;
    }
    return Accepted;
  }

  method AnalyzeService(g: seq<Node>, service: nat) returns (v: Verdict)
    requires WellFormed(g) && service < |g|
    ensures v == JudgeService(g, service)
  {
    var node := Unwrap(g, At(service));
    if !g[node.id].kind.Mapping? {
      return Rejected(BadService);
    }
    var build := ContainsKey(g, node, "build");
    if build {
      return Rejected(HasBuild);
    }
    var extends_ := MappingValue(g, node, "extends");
    if extends_.At? {
      return Rejected(HasExtends);
    }
    var envFile := MappingValue(g, node, "env_file");
    if envFile.At? {
      return Rejected(HasEnvFile);
    }
    var profiles := MappingValue(g, node, "profiles");
    return if profiles.At? then Rejected(HasProfiles) else Accepted;
  }

  ghost function JudgeService(g: seq<Node>, service: nat): (v: Verdict)
    requires WellFormed(g) && service < |g|
  {
    var node := Resolve(g, service);
    if !g[node].kind.Mapping? then Rejected(BadService)
    else if KeyReachable(g, At(node), "build") then Rejected(HasBuild)
    else if Lookup(g, node, "extends", {}).At? then Rejected(HasExtends)
    else if Lookup(g, node, "env_file", {}).At? then Rejected(HasEnvFile)
    else if Lookup(g, node, "profiles", {}).At? then Rejected(HasProfiles)
    else Accepted
  }

  ghost function JudgeServices(g: seq<Node>, services: nat, index: nat): (v: Verdict)
    requires WellFormed(g) && services < |g|
    decreases |g[services].content| - index
  {
    if index + 1 >= |g[services].content| then Accepted
    else
      var v := JudgeService(g, g[services].content[index + 1]);
      if v.Rejected? then v else JudgeServices(g, services, index + 2)
  }

  /** The mapping under the top-level key services, if there is one. */
  ghost function ServicesOf(g: seq<Node>, document: nat): (r: Ref)
    requires WellFormed(g) && document < |g|
    ensures ValidRef(g, r)
  {
    var services := ValueOf(g, At(Resolve(g, document)), "services");
    if services.Nil? then Nil else At(Resolve(g, services.id))
  }

  ghost function Judge(g: seq<Node>, document: nat): (v: Verdict)
    requires WellFormed(g) && document < |g|
  {
    var root := At(Resolve(g, document));
    var services := ServicesOf(g, document);
    if !g[root.id].kind.Mapping? then Rejected(NotAMapping)
    else if services.Nil? || !g[services.id].kind.Mapping? || |g[services.id].content| == 0 then Rejected(NoServices)
    else if ValueOf(g, root, "include").At? then Rejected(HasInclude)
    else if KeyReachable(g, ValueOf(g, root, "configs"), "file") then Rejected(ExternalFile)
    else if KeyReachable(g, ValueOf(g, root, "secrets"), "file") then Rejected(ExternalFile)
    else JudgeServices(g, services.id, 0)
  }

  /** What acceptance promises about one service: no build key anywhere below it,
      and none of the unsupported keys by any chain of merge keys. */
  ghost predicate SafeService(g: seq<Node>, service: nat)
    requires WellFormed(g) && service < |g|
  {
    && g[Resolve(g, service)].kind.Mapping?
    && !KeyReachable(g, At(service), "build")
    && !MergeReachable(g, service, "build")
    && !MergeReachable(g, service, "extends")
    && !MergeReachable(g, service, "env_file")
    && !MergeReachable(g, service, "profiles")
  }

  ghost predicate ServiceAt(g: seq<Node>, services: nat, index: nat, service: nat)
    requires WellFormed(g) && services < |g|
  {
    index % 2 == 0 && index + 1 < |g[services].content| && g[services].content[index + 1] == service
  }

  /** Every merge edge is one or two walked edges, so the key search covers the
      merge rule: what it misses, no chain of merge keys supplies. */
  lemma MergeEdgeIsWalked(g: seq<Node>, m: nat, from: nat, s: nat, c: nat)
    requires WellFormed(g) && m < |g| && s in SourcesFrom(g, m, from) && from % 2 == 0
    requires Reaches(g, Resolve(g, s), c)
    ensures Reaches(g, m, c)
    decreases |g[m].content| - from
  {
    var value := g[m].content[from + 1];
    if g[g[m].content[from]].value == MERGE && s in Offered(g, value) {
      var merged := Resolve(g, value);
      ResolveTwice(g, value);
      assert Walked(g, m, from + 1);
      assert Edge(g, m, merged);
      if g[merged].kind.Sequence? {
        var i :| 0 <= i < |g[merged].content| && g[merged].content[i] == s;
        assert Walked(g, merged, i);
        assert Edge(g, merged, Resolve(g, s));
        ReachesStep(g, merged, Resolve(g, s), c);
      }
      ReachesStep(g, m, merged, c);
    } else {
      MergeEdgeIsWalked(g, m, from + 2, s, c);
    }
  }

  lemma {:induction false} MergePathIsWalked(g: seq<Node>, p: seq<nat>)
    requires WellFormed(g) && MergePath(g, p)
    ensures Reaches(g, p[0], p[|p| - 1])
    decreases |p|
  {
    if |p| == 1 {
      ReachesSelf(g, p[0]);
    } else {
      var q := p[1..];
      forall i | 0 <= i < |q| - 1 ensures MergeEdge(g, q[i], q[i + 1]) {
        assert MergeEdge(g, p[i + 1], p[i + 2]);
      }
      MergePathIsWalked(g, q);
      assert MergeEdge(g, p[0], p[1]);
      var s: nat :| s in SourcesFrom(g, p[0], 0) && Resolve(g, s) == p[1];
      MergeEdgeIsWalked(g, p[0], 0, s, p[|p| - 1]);
    }
  }

  lemma {:induction false} ExplicitIsEntry(g: seq<Node>, n: nat, key: string, from: nat)
    requires WellFormed(g) && n < |g| && from % 2 == 0
    ensures EntryFrom(g, n, key, from).At? <==> exists index: nat :: from <= index && EntryAt(g, n, index, key)
    decreases |g[n].content| - from
  {
    if from + 1 < |g[n].content| {
      if g[g[n].content[from]].value == key {
        assert EntryAt(g, n, from, key);
      } else {
        ExplicitIsEntry(g, n, key, from + 2);
        assert forall index: nat | from <= index && EntryAt(g, n, index, key) :: index != from && index != from + 1;
      }
    }
  }

  lemma MergeImpliesKeyReachable(g: seq<Node>, n: nat, key: string)
    requires WellFormed(g) && n < |g| && MergeReachable(g, n, key)
    ensures KeyReachable(g, At(n), key)
  {
    var p: seq<nat> :| MergePath(g, p) && p[0] == Resolve(g, n) && Explicit(g, p[|p| - 1], key).At?;
    MergePathIsWalked(g, p);
    ExplicitIsEntry(g, p[|p| - 1], key, 0);
  }

  lemma JudgeServiceIff(g: seq<Node>, service: nat)
    requires WellFormed(g) && service < |g|
    ensures JudgeService(g, service).Accepted? <==> SafeService(g, service)
  {
    var node := Resolve(g, service);
    ResolveTwice(g, service);
    LookupFindsIff(g, node, "extends");
    LookupFindsIff(g, node, "env_file");
    LookupFindsIff(g, node, "profiles");
    if MergeReachable(g, service, "build") {
      MergeImpliesKeyReachable(g, service, "build");
    }
  }

  lemma {:induction false} JudgeServicesIff(g: seq<Node>, services: nat, from: nat)
    requires WellFormed(g) && services < |g| && from % 2 == 0
    ensures JudgeServices(g, services, from).Accepted? <==> AllSafe(g, services, from)
    decreases |g[services].content| - from
  {
    if from + 1 < |g[services].content| {
      JudgeServiceIff(g, g[services].content[from + 1]);
      JudgeServicesIff(g, services, from + 2);
      AllSafeStep(g, services, from);
    }
  }

  /** All services from position from on are safe. */
  ghost predicate AllSafe(g: seq<Node>, services: nat, from: nat)
    requires WellFormed(g) && services < |g|
  {
    forall index: nat, service: nat | from <= index && ServiceAt(g, services, index, service) :: SafeService(g, service)
  }

  lemma AllSafeStep(g: seq<Node>, services: nat, from: nat)
    requires WellFormed(g) && services < |g| && from % 2 == 0 && from + 1 < |g[services].content|
    ensures AllSafe(g, services, from) <==> SafeService(g, g[services].content[from + 1]) && AllSafe(g, services, from + 2)
  {
    var first := g[services].content[from + 1];
    assert ServiceAt(g, services, from, first);
    forall index: nat, service: nat | from <= index && ServiceAt(g, services, index, service)
      ensures (index == from && service == first) || from + 2 <= index
    {
    }
  }

  /** A document is accepted exactly when it has services, includes nothing,
      names no external file below configs or secrets, and every service is safe. */
  lemma AcceptedIff(g: seq<Node>, document: nat)
    requires WellFormed(g) && document < |g|
    ensures Judge(g, document).Accepted? <==>
            && ServicesOf(g, document).At?
            && g[ServicesOf(g, document).id].kind.Mapping?
            && |g[ServicesOf(g, document).id].content| > 0
            && !MergeReachable(g, document, "include")
            && !KeyReachable(g, ValueOf(g, At(document), "configs"), "file")
            && !KeyReachable(g, ValueOf(g, At(document), "secrets"), "file")
            && forall index: nat, service: nat | ServiceAt(g, ServicesOf(g, document).id, index, service) :: SafeService(g, service)
  {
    var root := Resolve(g, document);
    ResolveTwice(g, document);
    LookupFindsIff(g, root, "include");
    var services := ServicesOf(g, document);
    if services.At? {
      JudgeServicesIff(g, services.id, 0);
      assert AllSafe(g, services.id, 0) <==>
             forall index: nat, service: nat | ServiceAt(g, services.id, index, service) :: SafeService(g, service);
    }
  }

  /** What a reason says about one service. */
  ghost predicate ServiceDefect(g: seq<Node>, service: nat, reason: Reason)
    requires WellFormed(g) && service < |g|
  {
    match reason
    case BadService => !g[Resolve(g, service)].kind.Mapping?
    case HasBuild => KeyReachable(g, At(service), "build")
    case HasExtends => MergeReachable(g, service, "extends")
    case HasEnvFile => MergeReachable(g, service, "env_file")
    case HasProfiles => MergeReachable(g, service, "profiles")
    case _ => false
  }

  lemma ServiceReasonIsTrue(g: seq<Node>, service: nat)
    requires WellFormed(g) && service < |g| && JudgeService(g, service).Rejected?
    ensures ServiceDefect(g, service, JudgeService(g, service).reason)
  {
    var node := Resolve(g, service);
    ResolveTwice(g, service);
    LookupFindsIff(g, node, "extends");
    LookupFindsIff(g, node, "env_file");
    LookupFindsIff(g, node, "profiles");
  }

  lemma {:induction false} SomeServiceIsDefect(g: seq<Node>, services: nat, from: nat) returns (index: nat, service: nat)
    requires WellFormed(g) && services < |g| && from % 2 == 0 && JudgeServices(g, services, from).Rejected?
    ensures ServiceAt(g, services, index, service) && service < |g|
    ensures ServiceDefect(g, service, JudgeServices(g, services, from).reason)
    decreases |g[services].content| - from
  {
    service := g[services].content[from + 1];
    index := from;
    if JudgeService(g, service).Rejected? {
      ServiceReasonIsTrue(g, service);
    } else {
      index, service := SomeServiceIsDefect(g, services, from + 2);
    }
  }

  /** The reason given for a rejection is true of the document. */
  lemma ReasonIsTrue(g: seq<Node>, document: nat)
    requires WellFormed(g) && document < |g| && Judge(g, document).Rejected?
    ensures
      match Judge(g, document).reason
      case NotAMapping => !g[Resolve(g, document)].kind.Mapping?
      case NoServices =>
        var services := ServicesOf(g, document);
        services.Nil? || !g[services.id].kind.Mapping? || g[services.id].content == []
      case HasInclude => MergeReachable(g, document, "include")
      case ExternalFile =>
        || KeyReachable(g, ValueOf(g, At(document), "configs"), "file")
        || KeyReachable(g, ValueOf(g, At(document), "secrets"), "file")
      case reason =>
        var services := ServicesOf(g, document);
        services.At? && exists index: nat, service: nat ::
          ServiceAt(g, services.id, index, service) && service < |g| && ServiceDefect(g, service, reason)
  {
    var root, services := Resolve(g, document), ServicesOf(g, document);
    ResolveTwice(g, document);
    LookupFindsIff(g, root, "include");
    if services.At? && JudgeServices(g, services.id, 0).Rejected? {
      var index, service := SomeServiceIsDefect(g, services.id, 0);
    }
  }
}
