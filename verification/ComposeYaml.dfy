/** The two walks over a parsed Compose document, and the checks built on them.

    A parsed document is a finite graph: an alias node points at the node its
    anchor names, so a mapping can contain itself. Nodes are numbered, and a
    number plays the part of a node pointer. */
module ComposeYaml {

  datatype Kind = Document | Sequence | Mapping | Scalar | Alias

  datatype Node = Node(kind: Kind, value: string, content: seq<nat>, alias: nat)

  /** A possibly nil node pointer. */
  datatype Ref = Nil | At(id: nat)

  ghost predicate WellFormed(g: seq<Node>) {
    forall n {:trigger g[n]} | 0 <= n < |g| ::
      && (forall j | 0 <= j < |g[n].content| :: g[n].content[j] < |g|)
      && (g[n].kind.Alias? ==> g[n].alias < |g| && !g[g[n].alias].kind.Alias? && !g[g[n].alias].kind.Document?)
      && (g[n].kind.Document? ==> forall j | 0 <= j < |g[n].content| :: !g[g[n].content[j]].kind.Document?)
  }

  ghost predicate ValidRef(g: seq<Node>, r: Ref) {
    r.At? ==> r.id < |g|
  }

  predicate IsNode(g: seq<Node>, n: nat) {
    n < |g|
  }

  function Ids(g: seq<Node>): set<nat> {
    set n: nat | n < |g| && IsNode(g, n)
  }

  function UnwrapRank(kind: Kind): nat {
    match kind
    case Document => 2
    case Alias => 1
    case _ => 0
  }

  /** What a node stands for once aliases and the document wrapper are followed. */
  ghost function Resolve(g: seq<Node>, n: nat): (r: nat)
    requires WellFormed(g) && n < |g|
    ensures r < |g| && !g[r].kind.Alias? && (g[r].kind.Document? ==> |g[r].content| != 1)
    decreases UnwrapRank(g[n].kind)
  {
    if g[n].kind.Alias? then Resolve(g, g[n].alias)
    else if g[n].kind.Document? && |g[n].content| == 1 then Resolve(g, g[n].content[0])
    else n
  }

  method Unwrap(g: seq<Node>, node: Ref) returns (r: Ref)
    requires WellFormed(g) && ValidRef(g, node)
    ensures r == if node.Nil? then Nil else At(Resolve(g, node.id))
    decreases if node.At? then UnwrapRank(g[node.id].kind) else 0
  {
    r := node;
    while r.At? && g[r.id].kind.Alias?
      invariant ValidRef(g, r) && r.Nil? == node.Nil?
      invariant r.At? ==> Resolve(g, r.id) == Resolve(g, node.id)
      invariant r.At? ==> UnwrapRank(g[r.id].kind) <= UnwrapRank(g[node.id].kind)
      decreases if r.At? then UnwrapRank(g[r.id].kind) else 0
    {
      r := At(g[r.id].alias);
    }
    if r.At? && g[r.id].kind.Document? && |g[r.id].content| == 1 {
      r := Unwrap(g, At(g[r.id].content[0]));
    }
  }

  // ---------------------------------------------------------------------
  // Key search: every value position is walked, merge keys included.
  // ---------------------------------------------------------------------

  /** Position index of mapping n is an entry for key. */
  predicate EntryAt(g: seq<Node>, n: nat, index: nat, key: string)
    requires n < |g|
  {
    && index % 2 == 0 && index + 1 < |g[n].content|
    && g[n].content[index] < |g| && g[g[n].content[index]].value == key
  }

  ghost predicate HasKey(g: seq<Node>, n: nat, key: string)
    requires n < |g|
  {
    g[n].kind.Mapping? && exists index: nat :: EntryAt(g, n, index, key)
  }

  /** Content position j of node n is walked: a value of a mapping, or any item. */
  predicate Walked(g: seq<Node>, n: nat, j: nat)
    requires n < |g|
  {
    j < |g[n].content| && (g[n].kind.Mapping? ==> j % 2 == 1)
  }

  ghost predicate Edge(g: seq<Node>, a: nat, b: nat)
    requires WellFormed(g) && a < |g|
  {
    exists j: nat :: Walked(g, a, j) && Resolve(g, g[a].content[j]) == b
  }

  ghost predicate Path(g: seq<Node>, p: seq<nat>)
    requires WellFormed(g)
  {
    && |p| > 0 && (forall i | 0 <= i < |p| :: p[i] < |g|)
    && forall i | 0 <= i < |p| - 1 :: Edge(g, p[i], p[i + 1])
  }

  ghost predicate Reaches(g: seq<Node>, a: nat, b: nat)
    requires WellFormed(g)
  {
    exists p: seq<nat> :: Path(g, p) && p[0] == a && p[|p| - 1] == b
  }

  /** Some mapping reachable from the node holds the key. */
  ghost predicate KeyReachable(g: seq<Node>, r: Ref, key: string)
    requires WellFormed(g) && ValidRef(g, r)
  {
    r.At? && exists b: nat :: b < |g| && Reaches(g, Resolve(g, r.id), b) && HasKey(g, b, key)
  }

  lemma ReachesSelf(g: seq<Node>, a: nat)
    requires WellFormed(g) && a < |g|
    ensures Reaches(g, a, a)
  {
    assert Path(g, [a]);
  }

  lemma ReachesStep(g: seq<Node>, a: nat, b: nat, c: nat)
    requires WellFormed(g) && a < |g| && Edge(g, a, b) && Reaches(g, b, c)
    ensures Reaches(g, a, c)
  {
    var p: seq<nat> :| Path(g, p) && p[0] == b && p[|p| - 1] == c;
    var q := [a] + p;
    forall i | 0 <= i < |q| - 1 ensures Edge(g, q[i], q[i + 1]) {
      if i > 0 { assert Edge(g, p[i - 1], p[i]); }
    }
    assert Path(g, q);
  }

  /** The walked positions of n below bound lead only to nodes of within. */
  ghost predicate Swept(g: seq<Node>, n: nat, bound: nat, within: set<nat>)
    requires WellFormed(g) && n < |g|
  {
    forall j: nat | j < bound && Walked(g, n, j) :: Resolve(g, g[n].content[j]) in within
  }

  /** Every node of done lacks the key and leads only to nodes of within. */
  ghost predicate Explored(g: seq<Node>, done: set<nat>, within: set<nat>, key: string)
    requires WellFormed(g)
  {
    forall n | n in done && n < |g| :: !HasKey(g, n, key) && Swept(g, n, |g[n].content|, within)
  }

  lemma ExploredGrows(g: seq<Node>, done: set<nat>, within: set<nat>, more: set<nat>, key: string)
    requires WellFormed(g) && done <= within <= more
    requires Explored(g, done, within, key) && Explored(g, more - within, more, key)
    ensures Explored(g, done + (more - within), more, key)
  {
    forall n | n in done + (more - within) && n < |g|
      ensures !HasKey(g, n, key) && Swept(g, n, |g[n].content|, more)
    {
    }
  }

  ghost predicate NoEntryBefore(g: seq<Node>, n: nat, bound: nat, key: string)
    requires n < |g|
  {
    forall i: nat | i < bound :: !EntryAt(g, n, i, key)
  }

  lemma EntryIsReachable(g: seq<Node>, n: nat, index: nat, key: string)
    requires WellFormed(g) && n < |g| && Resolve(g, n) == n && g[n].kind.Mapping? && EntryAt(g, n, index, key)
    ensures KeyReachable(g, At(n), key)
  {
    ReachesSelf(g, n);
    assert HasKey(g, n, key);
  }

  lemma NoEntryLeft(g: seq<Node>, n: nat, index: nat, within: set<nat>, key: string)
    requires WellFormed(g) && n < |g| && g[n].kind.Mapping? && index % 2 == 0 && index + 1 >= |g[n].content|
    requires NoEntryBefore(g, n, index, key) && Swept(g, n, index, within)
    ensures !HasKey(g, n, key) && Swept(g, n, |g[n].content|, within)
  {
    forall j: nat | Walked(g, n, j) ensures Resolve(g, g[n].content[j]) in within {
      assert j < index;
    }
  }

  /** The entry at index was another, and its value has been searched. */
  lemma OneMoreEntry(g: seq<Node>, n: nat, index: nat, within: set<nat>, more: set<nat>, key: string)
    requires WellFormed(g) && n < |g| && g[n].kind.Mapping? && index % 2 == 0 && index + 1 < |g[n].content|
    requires NoEntryBefore(g, n, index, key) && !EntryAt(g, n, index, key)
    requires within <= more && Swept(g, n, index, within) && Resolve(g, g[n].content[index + 1]) in more
    ensures NoEntryBefore(g, n, index + 2, key) && Swept(g, n, index + 2, more)
  {
    forall i: nat | i < index + 2 ensures !EntryAt(g, n, i, key) {
      assert i == index + 1 ==> i % 2 == 1;
    }
    forall j: nat | j < index + 2 && Walked(g, n, j) ensures Resolve(g, g[n].content[j]) in more {
      assert j < index || j == index + 1;
    }
  }

  /** What was explored since the start of a loop, one search later. */
  lemma ExploredSince(g: seq<Node>, before: set<nat>, within: set<nat>, more: set<nat>, key: string)
    requires WellFormed(g) && before <= within <= more
    requires Explored(g, within - before, within, key) && Explored(g, more - within, more, key)
    ensures Explored(g, more - before, more, key)
  {
    ExploredGrows(g, within - before, within, more, key);
    assert more - before == (within - before) + (more - within);
  }

  lemma {:induction false} PathStaysInside(g: seq<Node>, p: seq<nat>, within: set<nat>, key: string)
    requires WellFormed(g) && Path(g, p) && p[0] in within && Explored(g, within, within, key)
    ensures !HasKey(g, p[|p| - 1], key)
    decreases |p|
  {
    if |p| > 1 {
      assert Edge(g, p[0], p[1]);
      var q := p[1..];
      forall i | 0 <= i < |q| - 1 ensures Edge(g, q[i], q[i + 1]) {
        assert Edge(g, p[i + 1], p[i + 2]);
      }
      PathStaysInside(g, q, within, key);
    }
  }

  lemma ExploredMeansUnreachable(g: seq<Node>, start: nat, within: set<nat>, key: string)
    requires WellFormed(g) && start < |g|
    requires Resolve(g, start) in within && Explored(g, within, within, key)
    ensures !KeyReachable(g, At(start), key)
  {
    forall b: nat | b < |g| && Reaches(g, Resolve(g, start), b) ensures !HasKey(g, b, key) {
      var p: seq<nat> :| Path(g, p) && p[0] == Resolve(g, start) && p[|p| - 1] == b;
      PathStaysInside(g, p, within, key);
    }
  }

  /** The set of visited nodes the walks share and update. */
  class VisitedSet {
    var ids: set<nat>

    constructor ()
      ensures ids == {}
    {
      ids := {};
    }
  }

  /** The search proper. It may be entered with nodes already visited; what it
      adds to the set is fully explored when it reports nothing. */
  method SearchKey(g: seq<Node>, node: Ref, key: string, visited: VisitedSet) returns (found: bool)
    requires WellFormed(g) && ValidRef(g, node) && visited.ids <= Ids(g)
    modifies visited
    ensures old(visited.ids) <= visited.ids <= Ids(g)
    ensures found ==> KeyReachable(g, node, key)
    ensures !found ==> Explored(g, visited.ids - old(visited.ids), visited.ids, key)
    ensures !found && node.At? ==> Resolve(g, node.id) in visited.ids
    decreases Ids(g) - visited.ids, 0
  {
    var target := Unwrap(g, node);
    if target.Nil? {
      return false;
    }
    var n := target.id;
    if n in visited.ids {
      return false;
    }
    ghost var before := visited.ids;
    ResolveTwice(g, node.id);
    ReachesSelf(g, n);
    visited.ids := visited.ids + {n};
    if g[n].kind.Mapping? {
      found := SearchMapping(g, n, key, visited);
    } else {
      found := SearchItems(g, n, key, visited);
    }
    if !found {
      assert visited.ids - before == {n} + (visited.ids - (before + {n}));
    }
  }

  method SearchMapping(g: seq<Node>, n: nat, key: string, visited: VisitedSet) returns (found: bool)
    requires WellFormed(g) && n < |g| && Resolve(g, n) == n && g[n].kind.Mapping?
    requires n in visited.ids && visited.ids <= Ids(g)
    modifies visited
    ensures old(visited.ids) <= visited.ids <= Ids(g)
    ensures found ==> KeyReachable(g, At(n), key)
    ensures !found ==> Explored(g, visited.ids - old(visited.ids), visited.ids, key)
    ensures !found ==> !HasKey(g, n, key) && Swept(g, n, |g[n].content|, visited.ids)
    decreases Ids(g) - visited.ids, 1
  {
    ghost var before := visited.ids;
    var index := 0;
    while index + 1 < |g[n].content|
      invariant 0 <= index <= |g[n].content| && index % 2 == 0
      invariant before <= visited.ids <= Ids(g)
      invariant Explored(g, visited.ids - before, visited.ids, key)
      invariant NoEntryBefore(g, n, index, key)
      invariant Swept(g, n, index, visited.ids)
    {
      if g[g[n].content[index]].value == key {
        EntryIsReachable(g, n, index, key);
        return true;
      }
      ghost var within := visited.ids;
      assert Walked(g, n, index + 1);
      found := SearchKey(g, At(g[n].content[index + 1]), key, visited);
      if found {
        FoundBelow(g, n, index + 1, key);
        return true;
      }
      ExploredSince(g, before, within, visited.ids, key);
      OneMoreEntry(g, n, index, within, visited.ids, key);
      index := index + 2;
    }
    NoEntryLeft(g, n, index, visited.ids, key);
    return false;
  }

  method SearchItems(g: seq<Node>, n: nat, key: string, visited: VisitedSet) returns (found: bool)
    requires WellFormed(g) && n < |g| && Resolve(g, n) == n && !g[n].kind.Mapping?
    requires n in visited.ids && visited.ids <= Ids(g)
    modifies visited
    ensures old(visited.ids) <= visited.ids <= Ids(g)
    ensures found ==> KeyReachable(g, At(n), key)
    ensures !found ==> Explored(g, visited.ids - old(visited.ids), visited.ids, key)
    ensures !found ==> Swept(g, n, |g[n].content|, visited.ids)
    decreases Ids(g) - visited.ids, 1
  {
    ghost var before := visited.ids;
    for j := 0 to |g[n].content|
      invariant before <= visited.ids <= Ids(g)
      invariant Explored(g, visited.ids - before, visited.ids, key)
      invariant Swept(g, n, j, visited.ids)
    {
      ghost var within := visited.ids;
      assert Walked(g, n, j);
      found := SearchKey(g, At(g[n].content[j]), key, visited);
      if found {
        FoundBelow(g, n, j, key);
        return true;
      }
      ExploredSince(g, before, within, visited.ids, key);
    }
    return false;
  }

  lemma ResolveTwice(g: seq<Node>, n: nat)
    requires WellFormed(g) && n < |g|
    ensures Resolve(g, Resolve(g, n)) == Resolve(g, n)
  {
  }

  lemma FoundBelow(g: seq<Node>, n: nat, j: nat, key: string)
    requires WellFormed(g) && n < |g| && Resolve(g, n) == n && Walked(g, n, j)
    requires KeyReachable(g, At(g[n].content[j]), key)
    ensures KeyReachable(g, At(n), key)
  {
    var child := Resolve(g, g[n].content[j]);
    var b: nat :| b < |g| && Reaches(g, child, b) && HasKey(g, b, key);
    assert Edge(g, n, child);
    ReachesStep(g, n, child, b);
  }

  /** The search from an empty visited set decides reachability of the key,
      on every graph, cyclic or not. */
  method ContainsKey(g: seq<Node>, node: Ref, key: string) returns (found: bool)
    requires WellFormed(g) && ValidRef(g, node)
    ensures found <==> KeyReachable(g, node, key)
  {
    var visited := new VisitedSet();
    found := SearchKey(g, node, key, visited);
    if !found && node.At? {
      assert visited.ids - {} == visited.ids;
      ExploredMeansUnreachable(g, node.id, visited.ids, key);
    }
  }
}
