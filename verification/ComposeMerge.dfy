/** Lookup of a mapping key through YAML merge keys (`<<`), the rule of the YAML
    1.1 merge key type: an explicit entry wins, then the merged mappings in
    order, each with its own merge keys.

    The code threads one visited set through the whole lookup. `Lookup` below is
    the independent reference: it remembers only the mappings being expanded on
    the way down, so a mapping may be tried again by another branch. */
module ComposeMerge {
  import opened Collections
  import opened ComposeYaml

  const MERGE := "<<"

  /** The value of the first entry for key at or after position index. */
  function EntryFrom(g: seq<Node>, n: nat, key: string, index: nat): (r: Ref)
    requires WellFormed(g) && n < |g|
    ensures ValidRef(g, r)
    decreases |g[n].content| - index
  {
    if index + 1 >= |g[n].content| then Nil
    else if g[g[n].content[index]].value == key then At(g[n].content[index + 1])
    else EntryFrom(g, n, key, index + 2)
  }

  function Explicit(g: seq<Node>, n: nat, key: string): (r: Ref)
    requires WellFormed(g) && n < |g|
  {
    EntryFrom(g, n, key, 0)
  }

  /** What one `<<` value offers: itself if a mapping, the items of a sequence,
      nothing otherwise. */
  ghost function Offered(g: seq<Node>, value: nat): (s: seq<nat>)
    requires WellFormed(g) && value < |g|
    ensures forall i | 0 <= i < |s| :: s[i] < |g|
  {
    var merged := Resolve(g, value);
    if g[merged].kind.Mapping? then [merged]
    else if g[merged].kind.Sequence? then g[merged].content
    else []
  }

  /** The merge sources of mapping n from position index on, in order. */
  ghost function SourcesFrom(g: seq<Node>, n: nat, index: nat): (s: seq<nat>)
    requires WellFormed(g) && n < |g|
    ensures forall i | 0 <= i < |s| :: s[i] < |g|
    decreases |g[n].content| - index
  {
    if index + 1 >= |g[n].content| then []
    else if g[g[n].content[index]].value == MERGE then
      Offered(g, g[n].content[index + 1]) + SourcesFrom(g, n, index + 2)
    else SourcesFrom(g, n, index + 2)
  }

  ghost predicate Sources(g: seq<Node>, s: seq<nat>) {
    forall i | 0 <= i < |s| :: s[i] < |g|
  }

  // ---------------------------------------------------------------------
  // The reference meaning
  // ---------------------------------------------------------------------

  /** Lookup with the mappings of path being expanded. */
  ghost function Lookup(g: seq<Node>, n: nat, key: string, path: set<nat>): (r: Ref)
    requires WellFormed(g) && n < |g|
    ensures ValidRef(g, r)
    decreases Ids(g) - path, 0
  {
    var m := Resolve(g, n);
    if !g[m].kind.Mapping? || m in path then Nil
    else if Explicit(g, m, key).At? then Explicit(g, m, key)
    else
      assert m in Ids(g) - path;
      LookupFirst(g, SourcesFrom(g, m, 0), key, path + {m})
  }

  ghost function LookupFirst(g: seq<Node>, sources: seq<nat>, key: string, path: set<nat>): (r: Ref)
    requires WellFormed(g) && Sources(g, sources)
    ensures ValidRef(g, r)
    decreases Ids(g) - path, |sources| + 1
  {
    if sources == [] then Nil
    else
      var first := Lookup(g, sources[0], key, path);
      if first.At? then first else LookupFirst(g, sources[1..], key, path)
  }

  /** A numbering that falls along every merge edge: the graph has no merge cycle. */
  ghost predicate Ranks(g: seq<Node>, rank: nat -> nat)
    requires WellFormed(g)
  {
    forall m: nat, i: nat {:trigger SourcesFrom(g, m, 0)[i]} |
      m < |g| && g[m].kind.Mapping? && i < |SourcesFrom(g, m, 0)| ::
      var source := Resolve(g, SourcesFrom(g, m, 0)[i]);
      g[source].kind.Mapping? ==> rank(source) < rank(m)
  }

  /** The merge rule read off naively, with no memory at all. It is defined where
      following merge keys ends. */
  ghost function Naive(g: seq<Node>, rank: nat -> nat, n: nat, key: string): (r: Ref)
    requires WellFormed(g) && n < |g| && Ranks(g, rank)
    decreases rank(Resolve(g, n)), 0
  {
    var m := Resolve(g, n);
    if !g[m].kind.Mapping? then Nil
    else if Explicit(g, m, key).At? then Explicit(g, m, key)
    else NaiveFirst(g, rank, m, 0, key)
  }

  ghost function NaiveFirst(g: seq<Node>, rank: nat -> nat, m: nat, from: nat, key: string): (r: Ref)
    requires WellFormed(g) && m < |g| && Ranks(g, rank) && g[m].kind.Mapping?
    requires Resolve(g, m) == m && from <= |SourcesFrom(g, m, 0)|
    decreases rank(m), 0, |SourcesFrom(g, m, 0)| - from
  {
    var sources := SourcesFrom(g, m, 0);
    if from == |sources| then Nil
    else
      var s := sources[from];
      var first := if g[Resolve(g, s)].kind.Mapping? then Naive(g, rank, s, key) else Nil;
      if first.At? then first else NaiveFirst(g, rank, m, from + 1, key)
  }

  /** On a graph without merge cycles the reference is the naive rule. */
  lemma {:induction false} LookupIsNaive(g: seq<Node>, rank: nat -> nat, n: nat, key: string, path: set<nat>)
    requires WellFormed(g) && n < |g| && Ranks(g, rank)
    requires forall a: nat | a in path :: rank(Resolve(g, n)) < rank(a)
    ensures Lookup(g, n, key, path) == Naive(g, rank, n, key)
    decreases rank(Resolve(g, n)), 1
  {
    var m := Resolve(g, n);
    ResolveTwice(g, n);
    if g[m].kind.Mapping? && Explicit(g, m, key).Nil? {
      LookupFirstIsNaive(g, rank, m, 0, key, path + {m});
      assert SourcesFrom(g, m, 0)[0..] == SourcesFrom(g, m, 0);
    }
  }

  lemma {:induction false} LookupFirstIsNaive(g: seq<Node>, rank: nat -> nat, m: nat, from: nat, key: string, path: set<nat>)
    requires WellFormed(g) && m < |g| && Ranks(g, rank) && g[m].kind.Mapping?
    requires Resolve(g, m) == m && from <= |SourcesFrom(g, m, 0)|
    requires forall a: nat | a in path :: rank(m) <= rank(a)
    ensures LookupFirst(g, SourcesFrom(g, m, 0)[from..], key, path) == NaiveFirst(g, rank, m, from, key)
    decreases rank(m), 0, |SourcesFrom(g, m, 0)| - from
  {
    var sources := SourcesFrom(g, m, 0);
    if from < |sources| {
      if g[Resolve(g, sources[from])].kind.Mapping? {
        LookupIsNaive(g, rank, sources[from], key, path);
      }
      assert sources[from..][1..] == sources[from + 1..];
      LookupFirstIsNaive(g, rank, m, from + 1, key, path);
    }
  }

  // ---------------------------------------------------------------------
  // Finding a value is reachability along merge edges
  // ---------------------------------------------------------------------

  ghost predicate MergeEdge(g: seq<Node>, a: nat, b: nat)
    requires WellFormed(g) && a < |g|
  {
    g[a].kind.Mapping? && exists s: nat :: s in SourcesFrom(g, a, 0) && Resolve(g, s) == b
  }

  ghost predicate MergePath(g: seq<Node>, p: seq<nat>)
    requires WellFormed(g)
  {
    && |p| > 0
    && (forall i | 0 <= i < |p| :: p[i] < |g| && Resolve(g, p[i]) == p[i] && g[p[i]].kind.Mapping?)
    && forall i | 0 <= i < |p| - 1 :: MergeEdge(g, p[i], p[i + 1])
  }

  /** Some mapping reached from n by merge keys alone holds the key explicitly. */
  ghost predicate MergeReachable(g: seq<Node>, n: nat, key: string)
    requires WellFormed(g) && n < |g|
  {
    exists p: seq<nat> :: MergePath(g, p) && p[0] == Resolve(g, n) && Explicit(g, p[|p| - 1], key).At?
  }

  lemma {:induction false} LookupFindsReachable(g: seq<Node>, n: nat, key: string, path: set<nat>)
    requires WellFormed(g) && n < |g| && Lookup(g, n, key, path).At?
    ensures MergeReachable(g, n, key)
    decreases Ids(g) - path, 0
  {
    var m := Resolve(g, n);
    ResolveTwice(g, n);
    if Explicit(g, m, key).At? {
      assert MergePath(g, [m]);
    } else {
      assert m in Ids(g) - path;
      var s := LookupFirstFindsReachable(g, SourcesFrom(g, m, 0), key, path + {m});
      MergeReachableAbove(g, n, s, key);
    }
  }

  lemma PathAbove(g: seq<Node>, m: nat, p: seq<nat>)
    requires WellFormed(g) && m < |g| && Resolve(g, m) == m && g[m].kind.Mapping?
    requires MergePath(g, p) && MergeEdge(g, m, p[0])
    ensures MergePath(g, [m] + p)
  {
    var q := [m] + p;
    forall i | 0 <= i < |q| ensures q[i] < |g| && Resolve(g, q[i]) == q[i] && g[q[i]].kind.Mapping? {
      assert i > 0 ==> q[i] == p[i - 1];
    }
    forall i | 0 <= i < |q| - 1 ensures MergeEdge(g, q[i], q[i + 1]) {
      assert q[i + 1] == p[i] && (i > 0 ==> q[i] == p[i - 1]);
      assert i > 0 ==> MergeEdge(g, p[i - 1], p[i - 1 + 1]);
    }
  }

  lemma MergeReachableAbove(g: seq<Node>, n: nat, s: nat, key: string)
    requires WellFormed(g) && n < |g| && s < |g| && g[Resolve(g, n)].kind.Mapping?
    requires s in SourcesFrom(g, Resolve(g, n), 0) && MergeReachable(g, s, key)
    ensures MergeReachable(g, n, key)
  {
    var m := Resolve(g, n);
    ResolveTwice(g, n);
    var p: seq<nat> :| MergePath(g, p) && p[0] == Resolve(g, s) && Explicit(g, p[|p| - 1], key).At?;
    assert MergeEdge(g, m, p[0]);
    PathAbove(g, m, p);
    var q := [m] + p;
    assert q[0] == m && q[|q| - 1] == p[|p| - 1];
  }

  lemma {:induction false} LookupFirstFindsReachable(g: seq<Node>, sources: seq<nat>, key: string, path: set<nat>)
    returns (s: nat)
    requires WellFormed(g) && Sources(g, sources) && LookupFirst(g, sources, key, path).At?
    ensures s in sources && s < |g| && MergeReachable(g, s, key)
    decreases Ids(g) - path, |sources| + 1
  {
    if Lookup(g, sources[0], key, path).At? {
      LookupFindsReachable(g, sources[0], key, path);
      s := sources[0];
    } else {
      s := LookupFirstFindsReachable(g, sources[1..], key, path);
    }
  }

  /** A path that visits no mapping twice leads the lookup to its end. */
  lemma {:induction false} LookupFollows(g: seq<Node>, n: nat, key: string, path: set<nat>, p: seq<nat>)
    requires WellFormed(g) && n < |g| && MergePath(g, p) && p[0] == Resolve(g, n)
    requires Explicit(g, p[|p| - 1], key).At?
    requires forall i, j | 0 <= i < j < |p| :: p[i] != p[j]
    requires forall i | 0 <= i < |p| :: p[i] !in path
    ensures Lookup(g, n, key, path).At?
    decreases |p|
  {
    var m := p[0];
    if Explicit(g, m, key).Nil? {
      assert MergeEdge(g, p[0], p[1]);
      var s: nat :| s in SourcesFrom(g, m, 0) && Resolve(g, s) == p[1];
      var q := p[1..];
      forall i | 0 <= i < |q| - 1 ensures MergeEdge(g, q[i], q[i + 1]) {
        assert MergeEdge(g, p[i + 1], p[i + 2]);
      }
      LookupFollows(g, s, key, path + {m}, q);
      OneSourceIsEnough(g, SourcesFrom(g, m, 0), s, key, path + {m});
    }
  }

  lemma {:induction false} OneSourceIsEnough(g: seq<Node>, sources: seq<nat>, s: nat, key: string, path: set<nat>)
    requires WellFormed(g) && Sources(g, sources) && s in sources && Lookup(g, s, key, path).At?
    ensures LookupFirst(g, sources, key, path).At?
    decreases |sources|
  {
    if s != sources[0] {
      OneSourceIsEnough(g, sources[1..], s, key, path);
    }
  }

  /** Cutting the loop between two visits of the same mapping. */
  lemma {:induction false} LoopFree(g: seq<Node>, p: seq<nat>) returns (q: seq<nat>)
    requires WellFormed(g) && MergePath(g, p)
    ensures MergePath(g, q) && q[0] == p[0] && q[|q| - 1] == p[|p| - 1]
    ensures forall i, j | 0 <= i < j < |q| :: q[i] != q[j]
    decreases |p|
  {
    if i, j :| 0 <= i < j < |p| && p[i] == p[j] {
      var cut := p[..i] + p[j..];
      forall k | 0 <= k < |cut| - 1 ensures MergeEdge(g, cut[k], cut[k + 1]) {
        if k < i {
          assert MergeEdge(g, p[k], p[k + 1]);
        } else {
          assert MergeEdge(g, p[k - i + j], p[k - i + j + 1]);
        }
      }
      q := LoopFree(g, cut);
    } else {
      q := p;
    }
  }

  /** On every graph, cyclic or not, a lookup finds a value exactly when a
      mapping reached by merge keys holds the key explicitly. */
  lemma LookupFindsIff(g: seq<Node>, n: nat, key: string)
    requires WellFormed(g) && n < |g|
    ensures Lookup(g, n, key, {}).At? <==> MergeReachable(g, n, key)
  {
    if Lookup(g, n, key, {}).At? {
      LookupFindsReachable(g, n, key, {});
    }
    if MergeReachable(g, n, key) {
      var p: seq<nat> :| MergePath(g, p) && p[0] == Resolve(g, n) && Explicit(g, p[|p| - 1], key).At?;
      var q := LoopFree(g, p);
      LookupFollows(g, n, key, {}, q);
    }
  }

  // ---------------------------------------------------------------------
  // Acyclic graphs
  // ---------------------------------------------------------------------

  ghost predicate NoMergeCycle(g: seq<Node>)
    requires WellFormed(g)
  {
    forall p: seq<nat> | MergePath(g, p) && |p| > 1 :: p[0] != p[|p| - 1]
  }

  ghost predicate Below(g: seq<Node>, a: nat, b: nat)
    requires WellFormed(g)
  {
    exists p: seq<nat> :: MergePath(g, p) && p[0] == a && p[|p| - 1] == b
  }

  ghost function AllBelow(g: seq<Node>, a: nat): set<nat>
    requires WellFormed(g)
  {
    set b: nat | b in Ids(g) && Below(g, a, b)
  }

  lemma EdgeFallsStrictly(g: seq<Node>, a: nat, b: nat)
    requires WellFormed(g) && NoMergeCycle(g) && a < |g| && b < |g| && MergeEdge(g, a, b)
    requires Resolve(g, a) == a && Resolve(g, b) == b && g[b].kind.Mapping?
    ensures AllBelow(g, b) < AllBelow(g, a)
  {
    forall c | c in AllBelow(g, b) ensures c in AllBelow(g, a) && c != a {
      var p: seq<nat> :| MergePath(g, p) && p[0] == b && p[|p| - 1] == c;
      PathAbove(g, a, p);
      var q := [a] + p;
      assert MergePath(g, q) && q[0] == a && q[|q| - 1] == c;
    }
    assert MergePath(g, [a]);
    assert a in AllBelow(g, a);
  }

  /** Where no mapping merges itself, directly or not, following merge keys ends,
      and the reference is the naive rule on every mapping. */
  lemma AcyclicLookupIsNaive(g: seq<Node>) returns (rank: nat -> nat)
    requires WellFormed(g) && NoMergeCycle(g)
    ensures Ranks(g, rank)
    ensures forall n: nat, key: string | n < |g| :: Lookup(g, n, key, {}) == Naive(g, rank, n, key)
  {
    rank := (a: nat) => |AllBelow(g, a)|;
    forall m: nat, i: nat {:trigger SourcesFrom(g, m, 0)[i]} |
      m < |g| && g[m].kind.Mapping? && i < |SourcesFrom(g, m, 0)|
      ensures
        var source := Resolve(g, SourcesFrom(g, m, 0)[i]);
        g[source].kind.Mapping? ==> rank(source) < rank(m)
    {
      var source := Resolve(g, SourcesFrom(g, m, 0)[i]);
      if g[source].kind.Mapping? {
        ResolveTwice(g, SourcesFrom(g, m, 0)[i]);
        assert Resolve(g, m) == m;
        EdgeFallsStrictly(g, m, source);
        SubsetSize(AllBelow(g, source), AllBelow(g, m));
      }
    }
    forall n: nat, key: string | n < |g| ensures Lookup(g, n, key, {}) == Naive(g, rank, n, key) {
      LookupIsNaive(g, rank, n, key, {});
    }
  }

  // ---------------------------------------------------------------------
  // The shared visited set changes nothing
  // ---------------------------------------------------------------------

  /** Every mapping of visited outside path was expanded in vain: no explicit
      entry, and every merge source is visited or no mapping. */
  ghost predicate Barren(g: seq<Node>, visited: set<nat>, path: set<nat>, key: string)
    requires WellFormed(g)
  {
    forall m: nat | m in visited && m !in path && m < |g| :: BarrenAt(g, m, visited, key)
  }

  ghost predicate BarrenAt(g: seq<Node>, m: nat, visited: set<nat>, key: string)
    requires WellFormed(g) && m < |g|
  {
    Explicit(g, m, key).Nil? && Settled(g, SourcesFrom(g, m, 0), visited)
  }

  ghost predicate Settled(g: seq<Node>, sources: seq<nat>, visited: set<nat>)
    requires WellFormed(g)
  {
    forall s: nat | s in sources && s < |g| :: g[Resolve(g, s)].kind.Mapping? ==> Resolve(g, s) in visited
  }

  /** What makes skipping a visited mapping harmless: trying it again, from any
      path, would find nothing. */
  lemma {:induction false} RevisitIsVain(g: seq<Node>, n: nat, key: string, path: set<nat>, visited: set<nat>)
    requires WellFormed(g) && n < |g| && Resolve(g, n) in visited && Barren(g, visited, path, key)
    ensures Lookup(g, n, key, path).Nil?
    decreases Ids(g) - path, 0
  {
    var m := Resolve(g, n);
    if g[m].kind.Mapping? && m !in path {
      assert m in Ids(g) - path;
      assert BarrenAt(g, m, visited, key);
      SourcesAreVain(g, SourcesFrom(g, m, 0), key, path + {m}, visited);
    }
  }

  lemma {:induction false} SourcesAreVain(g: seq<Node>, sources: seq<nat>, key: string, path: set<nat>, visited: set<nat>)
    requires WellFormed(g) && Sources(g, sources) && Settled(g, sources, visited)
    requires Barren(g, visited, path, key)
    ensures LookupFirst(g, sources, key, path).Nil?
    decreases Ids(g) - path, |sources| + 1
  {
    if sources != [] {
      if g[Resolve(g, sources[0])].kind.Mapping? {
        RevisitIsVain(g, sources[0], key, path, visited);
      }
      SourcesAreVain(g, sources[1..], key, path, visited);
    }
  }

  lemma {:induction false} LookupFirstSplits(g: seq<Node>, a: seq<nat>, b: seq<nat>, key: string, path: set<nat>)
    requires WellFormed(g) && Sources(g, a) && Sources(g, b)
    ensures LookupFirst(g, a + b, key, path) ==
            if LookupFirst(g, a, key, path).At? then LookupFirst(g, a, key, path) else LookupFirst(g, b, key, path)
    decreases |a|
  {
    if a == [] {
      assert a + b == b;
    } else {
      assert (a + b)[1..] == a[1..] + b;
      LookupFirstSplits(g, a[1..], b, key, path);
    }
  }

  /** The loop state between two merge sources of mapping n: those of done were
      tried in vain. */
  ghost predicate Tried(g: seq<Node>, done: seq<nat>, visited: set<nat>, path: set<nat>, key: string)
    requires WellFormed(g)
  {
    Sources(g, done) && Settled(g, done, visited) && LookupFirst(g, done, key, path).Nil? && Barren(g, visited, path, key)
  }

  lemma TriedOneMore(g: seq<Node>, done: seq<nat>, s: nat, before: set<nat>, visited: set<nat>, path: set<nat>, key: string)
    requires WellFormed(g) && s < |g| && before <= visited && Tried(g, done, before, path, key)
    requires Lookup(g, s, key, path).Nil? && Barren(g, visited, path, key)
    requires g[Resolve(g, s)].kind.Mapping? ==> Resolve(g, s) in visited
    ensures Tried(g, done + [s], visited, path, key)
  {
    LookupFirstSplits(g, done, [s], key, path);
  }

  lemma FoundAt(g: seq<Node>, done: seq<nat>, s: nat, rest: seq<nat>, path: set<nat>, key: string)
    requires WellFormed(g) && Sources(g, done) && s < |g| && Sources(g, rest)
    requires LookupFirst(g, done, key, path).Nil? && Lookup(g, s, key, path).At?
    ensures LookupFirst(g, done + [s] + rest, key, path) == Lookup(g, s, key, path)
  {
    LookupFirstSplits(g, done + [s], rest, key, path);
    LookupFirstSplits(g, done, [s], key, path);
  }

  lemma FoundIn(g: seq<Node>, done: seq<nat>, offered: seq<nat>, rest: seq<nat>, path: set<nat>, key: string)
    requires WellFormed(g) && Sources(g, done) && Sources(g, offered) && Sources(g, rest)
    requires LookupFirst(g, done, key, path).Nil? && LookupFirst(g, offered, key, path).At?
    ensures LookupFirst(g, done + (offered + rest), key, path) == LookupFirst(g, offered, key, path)
  {
    LookupFirstSplits(g, offered, rest, key, path);
    LookupFirstSplits(g, done, offered + rest, key, path);
  }

  /** The lookup as the code runs it: one visited set, never unmarked. The ghost
      path names the mappings now being expanded. */
  method FindVisited(g: seq<Node>, node: Ref, key: string, visited: VisitedSet, ghost path: set<nat>) returns (r: Ref)
    requires WellFormed(g) && ValidRef(g, node)
    requires path <= visited.ids && visited.ids <= Ids(g) && Barren(g, visited.ids, path, key)
    modifies visited
    ensures old(visited.ids) <= visited.ids && visited.ids <= Ids(g)
    ensures r == if node.Nil? then Nil else Lookup(g, node.id, key, path)
    ensures r.Nil? ==> Barren(g, visited.ids, path, key)
    ensures r.Nil? && node.At? && g[Resolve(g, node.id)].kind.Mapping? ==> Resolve(g, node.id) in visited.ids
    decreases Ids(g) - visited.ids, 0
  {
    var target := Unwrap(g, node);
    if target.Nil? || !g[target.id].kind.Mapping? {
      return Nil;
    }
    var n := target.id;
    if n in visited.ids {
      RevisitIsVain(g, node.id, key, path, visited.ids);
      return Nil;
    }
    visited.ids := visited.ids + {n};
    var index := 0;
    while index + 1 < |g[n].content|
      invariant EntryFrom(g, n, key, index) == Explicit(g, n, key)
    {
      if g[g[n].content[index]].value == key {
        return At(g[n].content[index + 1]);
      }
      index := index + 2;
    }
    r := FindMerged(g, n, key, visited, path + {n});
    assert n !in path;
    if r.Nil? {
      forall m: nat | m in visited.ids && m !in path && m < |g| ensures BarrenAt(g, m, visited.ids, key) {
        if m != n { assert m !in path + {n}; }
      }
    }
  }

  /** The second loop: merge keys in order, each a mapping or a list of mappings. */
  method FindMerged(g: seq<Node>, n: nat, key: string, visited: VisitedSet, ghost path: set<nat>) returns (r: Ref)
    requires WellFormed(g) && n < |g|
    requires path <= visited.ids && visited.ids <= Ids(g) && Barren(g, visited.ids, path, key)
    modifies visited
    ensures old(visited.ids) <= visited.ids && visited.ids <= Ids(g)
    ensures r == LookupFirst(g, SourcesFrom(g, n, 0), key, path)
    ensures r.Nil? ==> Barren(g, visited.ids, path, key) && Settled(g, SourcesFrom(g, n, 0), visited.ids)
    decreases Ids(g) - visited.ids, 3
  {
    ghost var done: seq<nat> := [];
    var index := 0;
    while index + 1 < |g[n].content|
      invariant 0 <= index
      invariant old(visited.ids) <= visited.ids && visited.ids <= Ids(g)
      invariant SourcesFrom(g, n, 0) == done + SourcesFrom(g, n, index)
      invariant Tried(g, done, visited.ids, path, key)
    {
      if g[g[n].content[index]].value == MERGE {
        ghost var rest := SourcesFrom(g, n, index + 2);
        var value := g[n].content[index + 1];
        assert SourcesFrom(g, n, index) == Offered(g, value) + rest;
        r := FindOffered(g, value, key, visited, path, done);
        if r.At? {
          FoundIn(g, done, Offered(g, value), rest, path, key);
          return;
        }
        Regroup(done, Offered(g, value), rest);
        done := done + Offered(g, value);
      }
      index := index + 2;
    }
    assert SourcesFrom(g, n, 0) == done;
    return Nil;
  }

  method FindOffered(g: seq<Node>, value: nat, key: string, visited: VisitedSet, ghost path: set<nat>, ghost done: seq<nat>)
    returns (r: Ref)
    requires WellFormed(g) && value < |g|
    requires path <= visited.ids && visited.ids <= Ids(g) && Tried(g, done, visited.ids, path, key)
    modifies visited
    ensures old(visited.ids) <= visited.ids && visited.ids <= Ids(g)
    ensures r == LookupFirst(g, Offered(g, value), key, path)
    ensures r.Nil? ==> Tried(g, done + Offered(g, value), visited.ids, path, key)
    decreases Ids(g) - visited.ids, 2
  {
    var merged := Unwrap(g, At(value));
    ghost var offered := Offered(g, value);
    ResolveTwice(g, value);
    if g[merged.id].kind.Mapping? {
      r := FindVisited(g, merged, key, visited, path);
      assert offered == [merged.id] && offered[1..] == [];
      if r.Nil? {
        TriedOneMore(g, done, merged.id, old(visited.ids), visited.ids, path, key);
      }
      return;
    }
    if g[merged.id].kind.Sequence? {
      r := FindInList(g, g[merged.id].content, key, visited, path, done);
      return;
    }
    assert done + offered == done;
    return Nil;
  }

  method FindInList(g: seq<Node>, items: seq<nat>, key: string, visited: VisitedSet, ghost path: set<nat>, ghost done: seq<nat>)
    returns (r: Ref)
    requires WellFormed(g) && Sources(g, items)
    requires path <= visited.ids && visited.ids <= Ids(g) && Tried(g, done, visited.ids, path, key)
    modifies visited
    ensures old(visited.ids) <= visited.ids && visited.ids <= Ids(g)
    ensures r == LookupFirst(g, items, key, path)
    ensures r.Nil? ==> Tried(g, done + items, visited.ids, path, key)
    decreases Ids(g) - visited.ids, 1
  {
    assert done + items[..0] == done;
    for i := 0 to |items|
      invariant old(visited.ids) <= visited.ids && visited.ids <= Ids(g)
      invariant LookupFirst(g, items[..i], key, path).Nil?
      invariant Tried(g, done + items[..i], visited.ids, path, key)
    {
      ghost var before := visited.ids;
      r := FindVisited(g, At(items[i]), key, visited, path);
      SplitAt(items, done, i);
      if r.At? {
        FoundAt(g, items[..i], items[i], items[i + 1..], path, key);
        return;
      }
      TriedOneMore(g, done + items[..i], items[i], before, visited.ids, path, key);
      LookupFirstSplits(g, items[..i], [items[i]], key, path);
    }
    assert items[..|items|] == items;
    return Nil;
  }

  lemma SplitAt(items: seq<nat>, done: seq<nat>, i: nat)
    requires i < |items|
    ensures items == items[..i] + [items[i]] + items[i + 1..]
    ensures items[..i + 1] == items[..i] + [items[i]]
    ensures done + items[..i + 1] == done + items[..i] + [items[i]]
  {
  }

  /** The lookup the checks call. */
  method MappingValue(g: seq<Node>, node: Ref, key: string) returns (r: Ref)
    requires WellFormed(g) && ValidRef(g, node)
    ensures r == ValueOf(g, node, key)
    ensures r.At? <==> node.At? && MergeReachable(g, node.id, key)
  {
    var visited := new VisitedSet();
    r := FindVisited(g, node, key, visited, {});
    if node.At? {
      LookupFindsIff(g, node.id, key);
    }
  }

  ghost function ValueOf(g: seq<Node>, node: Ref, key: string): (r: Ref)
    requires WellFormed(g) && ValidRef(g, node)
    ensures ValidRef(g, r)
  {
    if node.Nil? then Nil else Lookup(g, node.id, key, {})
  }
}
