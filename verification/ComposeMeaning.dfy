/** What the lookups of a document answer, told by positions: the entry whose value
    is returned, the merge source it comes from, and the order in which they win. */
module ComposeMeaning {
  import opened Collections
  import opened ComposeYaml
  import opened ComposeMerge

  // ---------------------------------------------------------------------
  // Unwrapping
  // ---------------------------------------------------------------------

  /** An alias stands for its anchor's node, a document for its only child. */
  predicate StandsFor(g: seq<Node>, a: nat, b: nat)
    requires a < |g|
  {
    || (g[a].kind.Alias? && g[a].alias == b)
    || (g[a].kind.Document? && g[a].content == [b])
  }

  ghost predicate Chain(g: seq<Node>, p: seq<nat>) {
    |p| > 0 && (forall i | 0 <= i < |p| :: p[i] < |g|) && forall i | 0 <= i < |p| - 1 :: StandsFor(g, p[i], p[i + 1])
  }

  /** A node resolves to the end of the chain of what it stands for. */
  lemma {:induction false} ResolveEndsChain(g: seq<Node>, n: nat) returns (p: seq<nat>)
    requires WellFormed(g) && n < |g|
    ensures Chain(g, p) && p[0] == n && p[|p| - 1] == Resolve(g, n)
    ensures forall b :: !StandsFor(g, Resolve(g, n), b)
    decreases UnwrapRank(g[n].kind)
  {
    p := [n];
    if g[n].kind.Alias? {
      var rest := ResolveEndsChain(g, g[n].alias);
      p := [n] + rest;
    } else if g[n].kind.Document? && |g[n].content| == 1 {
      var rest := ResolveEndsChain(g, g[n].content[0]);
      p := [n] + rest;
    }
  }

  // ---------------------------------------------------------------------
  // Explicit entries
  // ---------------------------------------------------------------------

  /** The entry at position index is the first for key. */
  ghost predicate FirstEntry(g: seq<Node>, m: nat, index: nat, key: string)
    requires m < |g|
  {
    EntryAt(g, m, index, key) && forall i: nat | i < index :: !EntryAt(g, m, i, key)
  }

  ghost predicate NoEntry(g: seq<Node>, m: nat, key: string)
    requires m < |g|
  {
    forall i: nat :: !EntryAt(g, m, i, key)
  }

  lemma {:induction false} EntryFromIs(g: seq<Node>, m: nat, key: string, from: nat) returns (index: nat)
    requires WellFormed(g) && m < |g| && from % 2 == 0 && forall i: nat | i < from :: !EntryAt(g, m, i, key)
    ensures EntryFrom(g, m, key, from).At? ==>
              FirstEntry(g, m, index, key) && EntryFrom(g, m, key, from) == At(g[m].content[index + 1])
    ensures EntryFrom(g, m, key, from).Nil? ==> NoEntry(g, m, key)
    decreases |g[m].content| - from
  {
    index := from;
    if from + 1 < |g[m].content| && g[g[m].content[from]].value != key {
      assert !EntryAt(g, m, from, key) && !EntryAt(g, m, from + 1, key);
      index := EntryFromIs(g, m, key, from + 2);
    }
  }

  /** The explicit lookup answers the value beside the first entry for the key. */
  lemma ExplicitIsFirstEntry(g: seq<Node>, m: nat, key: string, index: nat)
    requires WellFormed(g) && m < |g| && FirstEntry(g, m, index, key)
    ensures Explicit(g, m, key) == At(g[m].content[index + 1])
  {
    var found := EntryFromIs(g, m, key, 0);
    assert !NoEntry(g, m, key);
    FirstIsUnique(g, m, found, index, key);
  }

  lemma FirstIsUnique(g: seq<Node>, m: nat, a: nat, b: nat, key: string)
    requires m < |g| && FirstEntry(g, m, a, key) && FirstEntry(g, m, b, key)
    ensures a == b
  {
  }

  lemma NoEntryNoExplicit(g: seq<Node>, m: nat, key: string)
    requires WellFormed(g) && m < |g|
    ensures Explicit(g, m, key).Nil? <==> NoEntry(g, m, key)
  {
    var found := EntryFromIs(g, m, key, 0);
  }

  /** On every graph a lookup that finds something answers the value beside the first
      entry for the key, in a mapping that merge keys lead to. */
  lemma {:induction false} LookupAnswers(g: seq<Node>, n: nat, key: string, path: set<nat>) returns (p: seq<nat>)
    requires WellFormed(g) && n < |g| && Lookup(g, n, key, path).At?
    ensures MergePath(g, p) && p[0] == Resolve(g, n) && Lookup(g, n, key, path) == Explicit(g, p[|p| - 1], key)
    decreases Ids(g) - path, 0
  {
    var m := Resolve(g, n);
    ResolveTwice(g, n);
    p := [m];
    if Explicit(g, m, key).Nil? {
      assert m in Ids(g) - path;
      var s, rest := FirstAnswers(g, SourcesFrom(g, m, 0), key, path + {m});
      assert MergeEdge(g, m, rest[0]);
      PathAbove(g, m, rest);
      p := [m] + rest;
    }
  }

  lemma {:induction false} FirstAnswers(g: seq<Node>, sources: seq<nat>, key: string, path: set<nat>)
    returns (s: nat, p: seq<nat>)
    requires WellFormed(g) && Sources(g, sources) && LookupFirst(g, sources, key, path).At?
    ensures s in sources && s < |g| && MergePath(g, p) && p[0] == Resolve(g, s)
    ensures LookupFirst(g, sources, key, path) == Explicit(g, p[|p| - 1], key)
    decreases Ids(g) - path, |sources| + 1
  {
    if Lookup(g, sources[0], key, path).At? {
      s := sources[0];
      p := LookupAnswers(g, s, key, path);
    } else {
      s, p := FirstAnswers(g, sources[1..], key, path);
    }
  }

  /** What MappingValue returns, on every graph. */
  lemma ValueIsEntryOnPath(g: seq<Node>, n: nat, key: string) returns (p: seq<nat>, index: nat)
    requires WellFormed(g) && n < |g| && ValueOf(g, At(n), key).At?
    ensures MergePath(g, p) && p[0] == Resolve(g, n) && FirstEntry(g, p[|p| - 1], index, key)
    ensures ValueOf(g, At(n), key) == At(g[p[|p| - 1]].content[index + 1])
  {
    p := LookupAnswers(g, n, key, {});
    index := EntryFromIs(g, p[|p| - 1], key, 0);
  }

  /** An explicit entry wins, on every graph. */
  lemma ExplicitEntryWins(g: seq<Node>, n: nat, key: string, index: nat)
    requires WellFormed(g) && n < |g| && g[Resolve(g, n)].kind.Mapping? && FirstEntry(g, Resolve(g, n), index, key)
    ensures ValueOf(g, At(n), key) == At(g[Resolve(g, n)].content[index + 1])
  {
    ExplicitIsFirstEntry(g, Resolve(g, n), key, index);
  }

  // ---------------------------------------------------------------------
  // Merge sources
  // ---------------------------------------------------------------------

  /** The merge key at position i of m offers s as its j-th source: the mapping that
      its value stands for, or the j-th item of the list. */
  ghost predicate SourceAt(g: seq<Node>, m: nat, i: nat, j: nat, s: nat)
    requires WellFormed(g) && m < |g|
  {
    && EntryAt(g, m, i, "<<")
    && var value := Resolve(g, g[m].content[i + 1]);
       || (g[value].kind.Mapping? && j == 0 && s == value)
       || (g[value].kind.Sequence? && j < |g[value].content| && s == g[value].content[j])
  }

  predicate Before(i: nat, j: nat, i': nat, j': nat) {
    i < i' || (i == i' && j < j')
  }

  lemma OfferedAt(g: seq<Node>, m: nat, i: nat, j: nat, s: nat)
    requires WellFormed(g) && m < |g| && EntryAt(g, m, i, "<<")
    ensures SourceAt(g, m, i, j, s) <==> j < |Offered(g, g[m].content[i + 1])| && s == Offered(g, g[m].content[i + 1])[j]
  {
  }

  /** One of the merge keys from a position on offers s. */
  ghost predicate OfferedFrom(g: seq<Node>, m: nat, from: nat, s: nat)
    requires WellFormed(g) && m < |g|
  {
    exists i: nat, j: nat :: i >= from && SourceAt(g, m, i, j, s)
  }

  lemma OfferedHereIff(g: seq<Node>, m: nat, i: nat, s: nat)
    requires WellFormed(g) && m < |g| && EntryAt(g, m, i, "<<")
    ensures s in Offered(g, g[m].content[i + 1]) <==> exists j: nat :: SourceAt(g, m, i, j, s)
  {
    var offered := Offered(g, g[m].content[i + 1]);
    forall j: nat ensures SourceAt(g, m, i, j, s) <==> j < |offered| && s == offered[j] {
      OfferedAt(g, m, i, j, s);
    }
    if s in offered {
      var j :| 0 <= j < |offered| && offered[j] == s;
      assert SourceAt(g, m, i, j, s);
    }
  }

  lemma OfferedFromStep(g: seq<Node>, m: nat, from: nat, s: nat)
    requires WellFormed(g) && m < |g| && from % 2 == 0
    ensures OfferedFrom(g, m, from, s) <==>
            OfferedFrom(g, m, from + 2, s) || (EntryAt(g, m, from, "<<") && s in Offered(g, g[m].content[from + 1]))
  {
    assert !EntryAt(g, m, from + 1, "<<");
    if EntryAt(g, m, from, "<<") {
      OfferedHereIff(g, m, from, s);
    }
  }

  /** The sources from a position on are those offered at or after it. */
  lemma {:induction false} SourcesFromIff(g: seq<Node>, m: nat, from: nat, s: nat)
    requires WellFormed(g) && m < |g| && from % 2 == 0
    ensures s in SourcesFrom(g, m, from) <==> OfferedFrom(g, m, from, s)
    decreases |g[m].content| - from
  {
    if from + 1 < |g[m].content| {
      SourcesFromIff(g, m, from + 2, s);
      OfferedFromStep(g, m, from, s);
    }
  }

  /** A merge edge leads from a mapping to what one of its sources stands for. */
  lemma MergeEdgeIff(g: seq<Node>, a: nat, b: nat)
    requires WellFormed(g) && a < |g|
    ensures MergeEdge(g, a, b) <==>
            g[a].kind.Mapping? && exists i: nat, j: nat, s: nat :: SourceAt(g, a, i, j, s) && s < |g| && Resolve(g, s) == b
  {
    if MergeEdge(g, a, b) {
      var s: nat :| s in SourcesFrom(g, a, 0) && Resolve(g, s) == b;
      SourcesFromIff(g, a, 0, s);
      assert OfferedFrom(g, a, 0, s);
    }
    if i: nat, j: nat, s: nat :| SourceAt(g, a, i, j, s) && s < |g| && Resolve(g, s) == b {
      SourcesFromIff(g, a, 0, s);
    }
  }

  // ---------------------------------------------------------------------
  // The order of the sources, on graphs without merge cycles
  // ---------------------------------------------------------------------

  /** The first answer among sources. */
  ghost function Among(g: seq<Node>, sources: seq<nat>, key: string): Ref
    requires WellFormed(g) && Sources(g, sources)
  {
    if sources == [] then Nil
    else if ValueOf(g, At(sources[0]), key).At? then ValueOf(g, At(sources[0]), key)
    else Among(g, sources[1..], key)
  }

  lemma {:induction false} NaiveFirstIsAmong(g: seq<Node>, rank: nat -> nat, m: nat, from: nat, key: string)
    requires WellFormed(g) && m < |g| && Ranks(g, rank) && g[m].kind.Mapping? && Resolve(g, m) == m
    requires from <= |SourcesFrom(g, m, 0)|
    requires forall s: nat | s < |g| :: ValueOf(g, At(s), key) == Naive(g, rank, s, key)
    ensures NaiveFirst(g, rank, m, from, key) == Among(g, SourcesFrom(g, m, 0)[from..], key)
    decreases |SourcesFrom(g, m, 0)| - from
  {
    var sources := SourcesFrom(g, m, 0);
    if from < |sources| {
      NaiveFirstIsAmong(g, rank, m, from + 1, key);
      assert sources[from..][1..] == sources[from + 1..];
    }
  }

  /** Without an explicit entry, the sources in order decide. */
  lemma ValueIsAmongSources(g: seq<Node>, n: nat, key: string)
    requires WellFormed(g) && NoMergeCycle(g) && n < |g|
    requires g[Resolve(g, n)].kind.Mapping? && NoEntry(g, Resolve(g, n), key)
    ensures ValueOf(g, At(n), key) == Among(g, SourcesFrom(g, Resolve(g, n), 0), key)
  {
    var m := Resolve(g, n);
    ResolveTwice(g, n);
    var rank := AcyclicLookupIsNaive(g);
    NoEntryNoExplicit(g, m, key);
    forall s: nat | s < |g| ensures ValueOf(g, At(s), key) == Naive(g, rank, s, key) {
      assert Lookup(g, s, key, {}) == Naive(g, rank, s, key);
    }
    NaiveFirstIsAmong(g, rank, m, 0, key);
    assert SourcesFrom(g, m, 0)[0..] == SourcesFrom(g, m, 0);
  }

  lemma {:induction false} AmongSplits(g: seq<Node>, a: seq<nat>, b: seq<nat>, key: string)
    requires WellFormed(g) && Sources(g, a) && Sources(g, b)
    ensures Among(g, a + b, key) == if Among(g, a, key).At? then Among(g, a, key) else Among(g, b, key)
    decreases |a|
  {
    if a == [] {
      assert a + b == b;
    } else {
      assert (a + b)[1..] == a[1..] + b;
      AmongSplits(g, a[1..], b, key);
    }
  }

  lemma {:induction false} AmongIsFirst(g: seq<Node>, sources: seq<nat>, key: string, k: nat)
    requires WellFormed(g) && Sources(g, sources) && k <= |sources|
    requires forall i | 0 <= i < k :: ValueOf(g, At(sources[i]), key).Nil?
    requires k < |sources| ==> ValueOf(g, At(sources[k]), key).At?
    ensures Among(g, sources, key) == if k < |sources| then ValueOf(g, At(sources[k]), key) else Nil
    decreases k
  {
    if k > 0 {
      AmongIsFirst(g, sources[1..], key, k - 1);
    }
  }

  /** All sources offered before position i, j are without an answer. */
  ghost predicate NoneBefore(g: seq<Node>, m: nat, i: nat, j: nat, key: string)
    requires WellFormed(g) && m < |g|
  {
    forall i': nat, j': nat, s: nat | SourceAt(g, m, i', j', s) && Before(i', j', i, j) && s < |g| ::
      ValueOf(g, At(s), key).Nil?
  }

  /** A merge key before position i offers no answer. */
  lemma EarlierKeyIsVain(g: seq<Node>, m: nat, at: nat, i: nat, j: nat, key: string)
    requires WellFormed(g) && m < |g| && EntryAt(g, m, at, "<<") && at < i && NoneBefore(g, m, i, j, key)
    ensures Among(g, Offered(g, g[m].content[at + 1]), key).Nil?
  {
    var offered := Offered(g, g[m].content[at + 1]);
    forall k | 0 <= k < |offered| ensures ValueOf(g, At(offered[k]), key).Nil? {
      OfferedAt(g, m, at, k, offered[k]);
    }
    AmongIsFirst(g, offered, key, |offered|);
  }

  /** The merge key at position i answers with its j-th source. */
  lemma KeyAnswers(g: seq<Node>, m: nat, i: nat, j: nat, s: nat, key: string)
    requires WellFormed(g) && m < |g| && SourceAt(g, m, i, j, s) && NoneBefore(g, m, i, j, key)
    requires s < |g| && ValueOf(g, At(s), key).At?
    ensures Among(g, Offered(g, g[m].content[i + 1]), key) == ValueOf(g, At(s), key)
  {
    var offered := Offered(g, g[m].content[i + 1]);
    OfferedAt(g, m, i, j, s);
    forall k | 0 <= k < j ensures ValueOf(g, At(offered[k]), key).Nil? {
      OfferedAt(g, m, i, k, offered[k]);
    }
    AmongIsFirst(g, offered, key, j);
  }

  lemma SourcesStep(g: seq<Node>, m: nat, from: nat, later: seq<nat>, key: string)
    requires WellFormed(g) && m < |g| && from % 2 == 0 && from + 1 < |g[m].content|
    requires later == SourcesFrom(g, m, from + 2)
    ensures
      var all := Among(g, SourcesFrom(g, m, from), key);
      if EntryAt(g, m, from, "<<") && Among(g, Offered(g, g[m].content[from + 1]), key).At? then
        all == Among(g, Offered(g, g[m].content[from + 1]), key)
      else
        all == Among(g, later, key)
  {
    if EntryAt(g, m, from, "<<") {
      AmongSplits(g, Offered(g, g[m].content[from + 1]), later, key);
    }
  }

  lemma {:induction false} FirstOfferedAnswers(g: seq<Node>, m: nat, from: nat, i: nat, j: nat, s: nat, key: string)
    requires WellFormed(g) && m < |g| && from % 2 == 0 && from <= i
    requires SourceAt(g, m, i, j, s) && NoneBefore(g, m, i, j, key) && s < |g| && ValueOf(g, At(s), key).At?
    ensures Among(g, SourcesFrom(g, m, from), key) == ValueOf(g, At(s), key)
    decreases |g[m].content| - from
  {
    if from == i {
      KeyAnswers(g, m, i, j, s, key);
    } else {
      FirstOfferedAnswers(g, m, from + 2, i, j, s, key);
      NextKeyIsVain(g, m, from, i, j, key);
    }
    SourcesStep(g, m, from, SourcesFrom(g, m, from + 2), key);
  }

  lemma NextKeyIsVain(g: seq<Node>, m: nat, at: nat, i: nat, j: nat, key: string)
    requires WellFormed(g) && m < |g| && at < i && NoneBefore(g, m, i, j, key)
    ensures EntryAt(g, m, at, "<<") ==> Among(g, Offered(g, g[m].content[at + 1]), key).Nil?
  {
    if EntryAt(g, m, at, "<<") {
      EarlierKeyIsVain(g, m, at, i, j, key);
    }
  }

  /** The first source with an answer decides, in the order of the merge keys and of
      their lists. */
  lemma FirstSourceWins(g: seq<Node>, n: nat, key: string, i: nat, j: nat, s: nat)
    requires WellFormed(g) && NoMergeCycle(g) && n < |g|
    requires g[Resolve(g, n)].kind.Mapping? && NoEntry(g, Resolve(g, n), key)
    requires SourceAt(g, Resolve(g, n), i, j, s) && NoneBefore(g, Resolve(g, n), i, j, key)
    requires s < |g| && ValueOf(g, At(s), key).At?
    ensures ValueOf(g, At(n), key) == ValueOf(g, At(s), key)
  {
    ValueIsAmongSources(g, n, key);
    FirstOfferedAnswers(g, Resolve(g, n), 0, i, j, s, key);
  }

  /** Without an explicit entry and without a source that answers, nothing is found;
      nor is anything found in a node that is no mapping. */
  lemma NothingToFind(g: seq<Node>, n: nat, key: string)
    requires WellFormed(g) && n < |g|
    requires
      || !g[Resolve(g, n)].kind.Mapping?
      || (NoMergeCycle(g) && NoEntry(g, Resolve(g, n), key) &&
          forall i: nat, j: nat, s: nat | SourceAt(g, Resolve(g, n), i, j, s) && s < |g| :: ValueOf(g, At(s), key).Nil?)
    ensures ValueOf(g, At(n), key).Nil?
  {
    var m := Resolve(g, n);
    if g[m].kind.Mapping? {
      var sources := SourcesFrom(g, m, 0);
      ValueIsAmongSources(g, n, key);
      forall k | 0 <= k < |sources| ensures ValueOf(g, At(sources[k]), key).Nil? {
        SourcesFromIff(g, m, 0, sources[k]);
      }
      AmongIsFirst(g, sources, key, |sources|);
    }
  }
}
