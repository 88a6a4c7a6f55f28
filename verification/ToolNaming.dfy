/** Reassembly of streams whose provider does not number its tool calls, or numbers
    several alike: a fragment with an ID belongs to the call of that ID, one without
    to the call that was opened at its place in the frame. */
module ToolNaming {
  import opened Collections
  import opened Wrappers
  import opened Utf8
  import opened Sorted
  import opened TextBounds
  import opened ToolStream
  import opened ToolFraming
  import opened ToolEvents
  import opened ToolReassembly

  /** A fragment and its place in its frame. */
  datatype Spot = Spot(d: Delta, place: nat)

  function Spots(ds: seq<Delta>, place: nat): seq<Spot> {
    if ds == [] then [] else [Spot(ds[0], place)] + Spots(ds[1..], place + 1)
  }

  function AllSpots(es: seq<Event>): seq<Spot> {
    if es == [] then [] else Spots(es[0].deltas, 0) + AllSpots(es[1..])
  }

  /** The IDs in order of first appearance. */
  function FirstIDs(ss: seq<Spot>): seq<Text> {
    if ss == [] then []
    else
      var ids, last := FirstIDs(ss[..|ss| - 1]), ss[|ss| - 1].d.id;
      if last == [] || last in ids then ids else ids + [last]
  }

  /** The fragment belongs to the k-th call, whose ID is id. */
  predicate Mine(x: Spot, id: Text, k: nat) {
    if x.d.id != [] then x.d.id == id else x.place == k
  }

  function With(ss: seq<Spot>, id: Text, k: nat): seq<Delta> {
    if ss == [] then []
    else With(ss[..|ss| - 1], id, k) + if Mine(ss[|ss| - 1], id, k) then [ss[|ss| - 1].d] else []
  }

  function CallWith(ss: seq<Spot>, id: Text, k: nat): Call {
    Call(id, Names(With(ss, id, k)), Arguments(With(ss, id, k)))
  }

  /** The calls by order of first appearance. */
  function ExpectedNamed(ss: seq<Spot>): (calls: seq<Call>)
    ensures |calls| == |FirstIDs(ss)|
    ensures forall k | 0 <= k < |calls| :: calls[k] == CallWith(ss, FirstIDs(ss)[k], k)
  {
    seq(|FirstIDs(ss)|, k requires 0 <= k < |FirstIDs(ss)| => CallWith(ss, FirstIDs(ss)[k], k))
  }

  /** The number of the fragment's call: that of its ID, the next one for a new ID,
      or its place. */
  ghost predicate NumberOf(ids: seq<Text>, x: Spot, k: nat) {
    if x.d.id == [] then k == x.place && k < |ids|
    else (k < |ids| && ids[k] == x.d.id) || (k == |ids| && x.d.id !in ids)
  }

  /** The m-th fragment belongs to call i. */
  ghost predicate BelongsTo(ss: seq<Spot>, m: nat, i: nat) {
    m < |ss| && NumberOf(FirstIDs(ss[..m]), ss[m], i)
  }

  /** One of the last fragments, as many as given, belongs to call i. */
  ghost predicate Taken(ss: seq<Spot>, last: nat, i: nat) {
    exists m: nat :: m + last >= |ss| && BelongsTo(ss, m, i)
  }

  /** The fragment x after those of ss has a call. With a known ID its index may be
      anything, with a new one it is missing or at most the number of calls. Without
      an ID the place is that of an opened call, and the index is missing, the place
      itself, or one that an earlier fragment of the frame has taken. */
  ghost predicate Attributable(ss: seq<Spot>, x: Spot) {
    var ids, index := FirstIDs(ss), x.d.index;
    if x.d.id == [] then
      && x.place < |ids|
      && (index.None? || index == Some(x.place) || (index.value >= 0 && Taken(ss, x.place, index.value)))
    else
      x.d.id in ids || index.None? || 0 <= index.value <= |ids|
  }

  ghost predicate AllAttributable(ss: seq<Spot>) {
    forall i | 0 <= i < |ss| :: Attributable(ss[..i], ss[i])
  }

  // ---------------------------------------------------------------------
  // One more fragment
  // ---------------------------------------------------------------------

  lemma WithGrows(ss: seq<Spot>, x: Spot, id: Text, k: nat)
    ensures With(ss + [x], id, k) == With(ss, id, k) + if Mine(x, id, k) then [x.d] else []
  {
    assert (ss + [x])[..|ss|] == ss;
  }

  lemma FirstIDsGrow(ss: seq<Spot>, x: Spot)
    ensures FirstIDs(ss + [x]) == if x.d.id == [] || x.d.id in FirstIDs(ss) then FirstIDs(ss) else FirstIDs(ss) + [x.d.id]
  {
    assert (ss + [x])[..|ss|] == ss;
  }

  lemma CallWithGrows(ss: seq<Spot>, x: Spot, id: Text, k: nat)
    ensures
      var before := CallWith(ss, id, k);
      CallWith(ss + [x], id, k) ==
      if Mine(x, id, k) then Call(id, before.name + x.d.name, before.arguments + x.d.arguments) else before
  {
    var own := With(ss, id, k);
    WithGrows(ss, x, id, k);
    if Mine(x, id, k) {
      assert (own + [x.d])[..|own|] == own;
    } else {
      assert own + [] == own;
    }
  }

  /** The IDs are given and distinct. */
  ghost predicate Distinct(ids: seq<Text>) {
    (forall k | 0 <= k < |ids| :: ids[k] != []) && forall i, j | 0 <= i < j < |ids| :: ids[i] != ids[j]
  }

  lemma {:induction false} FirstIDsDiffer(ss: seq<Spot>)
    ensures Distinct(FirstIDs(ss))
    decreases |ss|
  {
    if ss != [] {
      FirstIDsDiffer(ss[..|ss| - 1]);
    }
  }

  lemma FrontIsAttributable(ss: seq<Spot>, x: Spot)
    requires AllAttributable(ss + [x])
    ensures AllAttributable(ss) && Attributable(ss, x)
  {
    assert (ss + [x])[..|ss|] == ss && (ss + [x])[|ss|] == x;
    forall i | 0 <= i < |ss| ensures Attributable(ss[..i], ss[i]) {
      assert (ss + [x])[..i] == ss[..i] && (ss + [x])[i] == ss[i];
    }
  }

  /** A call that is not open yet has no fragments. */
  lemma {:induction false} UnopenedHasNone(ss: seq<Spot>, id: Text, k: nat)
    requires AllAttributable(ss) && id !in FirstIDs(ss) && k >= |FirstIDs(ss)| && id != []
    ensures With(ss, id, k) == []
    decreases |ss|
  {
    if ss != [] {
      var rest, last := ss[..|ss| - 1], ss[|ss| - 1];
      assert ss == rest + [last];
      FrontIsAttributable(rest, last);
      FirstIDsGrow(rest, last);
      UnopenedHasNone(rest, id, k);
    }
  }

  function Placed(calls: seq<Call>, k: nat, call: Call): seq<Call>
    requires k <= |calls|
  {
    if k < |calls| then calls[k := call] else calls + [call]
  }

  lemma PlacedBy(calls: seq<Call>, after: seq<Call>, k: nat, call: Call)
    requires k <= |calls| && |after| == (if k < |calls| then |calls| else k + 1) && after[k] == call
    requires forall j | 0 <= j < |calls| && j != k :: after[j] == calls[j]
    ensures after == Placed(calls, k, call)
  {
  }

  lemma OtherCallsStay(ss: seq<Spot>, x: Spot, k: nat, ids: seq<Text>, calls: seq<Call>, after: seq<Call>, j: nat)
    requires ids == FirstIDs(ss) && calls == ExpectedNamed(ss) && after == ExpectedNamed(ss + [x])
    requires NumberOf(ids, x, k) && Distinct(ids) && j < |ids| && j != k
    ensures j < |after| && after[j] == calls[j]
  {
    FirstIDsGrow(ss, x);
    CallWithGrows(ss, x, ids[j], j);
    assert FirstIDs(ss + [x])[j] == ids[j] && !Mine(x, ids[j], j);
  }

  /** The fragment's call as it was, or a new one. */
  function CallBefore(calls: seq<Call>, x: Spot, k: nat): Call {
    if k < |calls| then calls[k] else Call(x.d.id, [], [])
  }

  function Grown(call: Call, d: Delta): Call {
    Call(call.id, call.name + d.name, call.arguments + d.arguments)
  }

  lemma OwnNumber(ss: seq<Spot>, x: Spot, k: nat, ids: seq<Text>, after: seq<Text>) returns (id: Text)
    requires ids == FirstIDs(ss) && after == FirstIDs(ss + [x]) && NumberOf(ids, x, k)
    ensures id == (if k < |ids| then ids[k] else x.d.id) && Mine(x, id, k)
    ensures |after| == (if k < |ids| then |ids| else k + 1) && after[k] == id
    ensures k == |ids| ==> id != [] && id !in ids
  {
    FirstIDsGrow(ss, x);
    id := if k < |ids| then ids[k] else x.d.id;
  }

  lemma OwnCall(ss: seq<Spot>, x: Spot, k: nat, id: Text, before: Call, grown: Call)
    requires before == CallWith(ss, id, k) && grown == CallWith(ss + [x], id, k) && Mine(x, id, k)
    ensures grown == Grown(Call(id, before.name, before.arguments), x.d)
  {
    CallWithGrows(ss, x, id, k);
  }

  lemma NoCallYet(ss: seq<Spot>, id: Text, k: nat)
    requires AllAttributable(ss) && id !in FirstIDs(ss) && k >= |FirstIDs(ss)| && id != []
    ensures CallWith(ss, id, k) == Call(id, [], [])
  {
    UnopenedHasNone(ss, id, k);
  }

  lemma OwnCallGrows(ss: seq<Spot>, x: Spot, k: nat, ids: seq<Text>, calls: seq<Call>, after: seq<Call>)
    requires ids == FirstIDs(ss) && calls == ExpectedNamed(ss) && after == ExpectedNamed(ss + [x])
    requires NumberOf(ids, x, k) && AllAttributable(ss)
    ensures |after| == (if k < |ids| then |ids| else k + 1) && after[k] == Grown(CallBefore(calls, x, k), x.d)
  {
    var id := OwnNumber(ss, x, k, ids, FirstIDs(ss + [x]));
    OwnCall(ss, x, k, id, CallWith(ss, id, k), after[k]);
    if k == |ids| {
      NoCallYet(ss, id, k);
    }
  }

  /** One fragment grows one call, or adds one at the end. */
  lemma ExpectedGrows(ss: seq<Spot>, x: Spot, k: nat)
    requires NumberOf(FirstIDs(ss), x, k) && AllAttributable(ss)
    ensures ExpectedNamed(ss + [x]) == Placed(ExpectedNamed(ss), k, Grown(CallBefore(ExpectedNamed(ss), x, k), x.d))
  {
    var ids, calls, after := FirstIDs(ss), ExpectedNamed(ss), ExpectedNamed(ss + [x]);
    FirstIDsDiffer(ss);
    OwnCallGrows(ss, x, k, ids, calls, after);
    forall j | 0 <= j < |calls| && j != k ensures after[j] == calls[j] {
      OtherCallsStay(ss, x, k, ids, calls, after, j);
    }
    PlacedBy(calls, after, k, Grown(CallBefore(calls, x, k), x.d));
  }

  // ---------------------------------------------------------------------
  // Where the resolver puts it
  // ---------------------------------------------------------------------

  /** Entry k is the k-th call, there are no others, and they were added in order. */
  ghost predicate ListedAs(c: Calls, calls: seq<Call>) {
    && (forall k :: k in c.entries <==> 0 <= k < |calls|) && (forall k | 0 <= k < |calls| :: c.entries[k] == calls[k])
    && |c.order| == |calls| && forall k | 0 <= k < |calls| :: c.order[k] == k
  }

  ghost predicate IDsOf(calls: seq<Call>, ids: seq<Text>) {
    |calls| == |ids| && forall k | 0 <= k < |ids| :: calls[k].id == ids[k]
  }

  /** A fragment with a known ID goes to the holder of that ID. */
  lemma LandsAtHolder(c: Calls, calls: seq<Call>, ids: seq<Text>, x: Spot, used: set<int>, k: nat)
    requires Consistent(c) && ListedAs(c, calls) && IDsOf(calls, ids) && Distinct(ids)
    requires k < |ids| && ids[k] == x.d.id
    ensures Resolve(c, used, x.d.index, x.d.id, x.place) == k
  {
    assert Holds(c.entries, x.d.id, k);
    HolderIsUnique(c, x.d.id, k, Resolve(c, used, x.d.index, x.d.id, x.place));
  }

  /** A fragment with a new ID opens the next call, whatever its place. */
  lemma LandsNext(c: Calls, calls: seq<Call>, ids: seq<Text>, x: Spot, used: set<int>)
    requires Consistent(c) && ListedAs(c, calls) && IDsOf(calls, ids) && Distinct(ids)
    requires x.d.id != [] && x.d.id !in ids && (x.d.index.None? || 0 <= x.d.index.value <= |ids|)
    ensures Resolve(c, used, x.d.index, x.d.id, x.place) == |ids|
  {
    forall k | k in c.entries ensures !Fits(c.entries, k, x.d.id) && !Holds(c.entries, x.d.id, k) {
      assert c.entries[k].id == ids[k];
    }
    if x.place < |c.order| {
      assert c.order[x.place] in c.entries;
    }
    NextIsFree(c.entries, |ids|);
  }

  lemma NextIsFree(entries: map<int, Call>, n: nat)
    requires forall k :: k in entries <==> 0 <= k < n
    ensures FreeFrom(entries, 0) == n
  {
    assert n !in entries;
  }

  /** A fragment without an ID goes to the call at its place in the frame: by the
      index if no earlier fragment of the frame took it, else by the order of the
      calls. */
  lemma LandsAtPlace(c: Calls, calls: seq<Call>, x: Spot, used: set<int>)
    requires Consistent(c) && ListedAs(c, calls) && x.d.id == [] && x.place < |calls|
    requires x.d.index.None? || x.d.index == Some(x.place) || x.d.index.value in used
    ensures Resolve(c, used, x.d.index, x.d.id, x.place) == x.place
  {
    assert c.order[x.place] == x.place;
  }

  /** Includes the calls taken by the earlier fragments of the frame. */
  ghost predicate UsedIn(ss: seq<Spot>, used: set<int>, place: nat) {
    forall i: nat | Taken(ss, place, i) :: i in used
  }

  lemma LandsAtNumber(c: Calls, ss: seq<Spot>, x: Spot, used: set<int>) returns (k: nat)
    requires Consistent(c) && ListedAs(c, ExpectedNamed(ss)) && Attributable(ss, x) && UsedIn(ss, used, x.place)
    ensures NumberOf(FirstIDs(ss), x, k) && Resolve(c, used, x.d.index, x.d.id, x.place) == k
  {
    var ids, calls := FirstIDs(ss), ExpectedNamed(ss);
    FirstIDsDiffer(ss);
    assert IDsOf(calls, ids);
    if x.d.id == [] {
      k := x.place;
      LandsAtPlace(c, calls, x, used);
    } else if x.d.id in ids {
      k :| k < |ids| && ids[k] == x.d.id;
      LandsAtHolder(c, calls, ids, x, used, k);
    } else {
      k := |ids|;
      LandsNext(c, calls, ids, x, used);
    }
  }

  lemma PlacedIsListed(c: Calls, calls: seq<Call>, k: nat, call: Call)
    requires ListedAs(c, calls) && k <= |calls|
    ensures ListedAs(Calls(c.entries[k := call], if k in c.entries then c.order else c.order + [k]), Placed(calls, k, call))
  {
  }

  lemma OneSpot(c: Calls, ss: seq<Spot>, x: Spot, used: set<int>)
    requires Consistent(c) && ListedAs(c, ExpectedNamed(ss)) && AllAttributable(ss + [x]) && UsedIn(ss, used, x.place)
    requires NamedArgumentsFit(ss + [x])
    ensures
      var (after, used', error) := StepDelta(c, used, x.d, x.place);
      Consistent(after) && ListedAs(after, ExpectedNamed(ss + [x])) && UsedIn(ss + [x], used', x.place + 1) && error.None?
  {
    FrontIsAttributable(ss, x);
    StepDeltaConsistent(c, used, x.d, x.place);
    var k := LandsAtNumber(c, ss, x, used);
    var calls := ExpectedNamed(ss);
    var call := Grown(CallBefore(calls, x, k), x.d);
    ExpectedGrows(ss, x, k);
    PlacedIsListed(c, calls, k, call);
    assert ExpectedNamed(ss + [x])[k] == call && |call.arguments| <= MAX_FRAME_BYTES;
    FirstIDsDiffer(ss);
    assert StepDelta(c, used, x.d, x.place) ==
           (Calls(c.entries[k := call], if k in c.entries then c.order else c.order + [k]), used + {k}, None);
    UsedGrows(ss, x, used, k);
  }

  lemma UsedGrows(ss: seq<Spot>, x: Spot, used: set<int>, k: nat)
    requires UsedIn(ss, used, x.place) && NumberOf(FirstIDs(ss), x, k)
    ensures UsedIn(ss + [x], used + {k}, x.place + 1)
  {
    var after := ss + [x];
    FirstIDsDiffer(ss);
    forall i: nat | Taken(after, x.place + 1, i) ensures i in used + {k} {
      var m: nat :| m + x.place + 1 >= |after| && BelongsTo(after, m, i);
      assert after[..m] == ss[..m];
      if m < |ss| {
        assert BelongsTo(ss, m, i);
      } else {
        assert after[..m] == ss;
      }
    }
  }

  // ---------------------------------------------------------------------
  // Frames, events, streams
  // ---------------------------------------------------------------------

  /** No call's arguments grow past the bound. */
  ghost predicate NamedArgumentsFit(ss: seq<Spot>) {
    forall k | 0 <= k < |ExpectedNamed(ss)| :: |ExpectedNamed(ss)[k].arguments| <= MAX_FRAME_BYTES
  }

  lemma FewerArguments(ss: seq<Spot>, x: Spot)
    requires AllAttributable(ss + [x]) && NamedArgumentsFit(ss + [x])
    ensures NamedArgumentsFit(ss)
  {
    FirstIDsGrow(ss, x);
    forall k | 0 <= k < |ExpectedNamed(ss)| ensures |ExpectedNamed(ss)[k].arguments| <= MAX_FRAME_BYTES {
      CallWithGrows(ss, x, FirstIDs(ss)[k], k);
      assert |ExpectedNamed(ss + [x])[k].arguments| <= MAX_FRAME_BYTES;
    }
  }

  /** Both hold of every beginning of a list of fragments. */
  lemma {:induction false} BeginningIsGood(ss: seq<Spot>, more: seq<Spot>)
    requires AllAttributable(ss + more) && NamedArgumentsFit(ss + more)
    ensures AllAttributable(ss) && NamedArgumentsFit(ss)
    decreases |more|
  {
    if more == [] {
      assert ss + more == ss;
    } else {
      var fewer, last := more[..|more| - 1], more[|more| - 1];
      assert ss + more == (ss + fewer) + [last];
      FrontIsAttributable(ss + fewer, last);
      FewerArguments(ss + fewer, last);
      BeginningIsGood(ss, fewer);
    }
  }

  lemma FirstSpot(c: Calls, done: seq<Spot>, x: Spot, more: seq<Spot>, used: set<int>, all: seq<Spot>)
    requires Consistent(c) && ListedAs(c, ExpectedNamed(done)) && UsedIn(done, used, x.place)
    requires all == done + ([x] + more) && AllAttributable(all) && NamedArgumentsFit(all)
    ensures all == done + [x] + more
    ensures
      var (after, used', error) := StepDelta(c, used, x.d, x.place);
      Consistent(after) && ListedAs(after, ExpectedNamed(done + [x])) && UsedIn(done + [x], used', x.place + 1) && error.None?
  {
    Regroup(done, [x], more);
    BeginningIsGood(done + [x], more);
    OneSpot(c, done, x, used);
  }

  lemma {:induction false} NamedFrame(c: Calls, done: seq<Spot>, ds: seq<Delta>, used: set<int>, place: nat, all: seq<Spot>)
    requires Consistent(c) && ListedAs(c, ExpectedNamed(done)) && UsedIn(done, used, place)
    requires all == done + Spots(ds, place) && AllAttributable(all) && NamedArgumentsFit(all)
    ensures StepDeltas(c, used, ds, place).1.None? && ListedAs(StepDeltas(c, used, ds, place).0, ExpectedNamed(all))
    decreases |ds|
  {
    if ds == [] {
      assert done + [] == done;
    } else {
      var x := Spot(ds[0], place);
      FirstSpot(c, done, x, Spots(ds[1..], place + 1), used, all);
      var (next, used', error) := StepDelta(c, used, ds[0], place);
      NamedFrame(next, done + [x], ds[1..], used', place + 1, all);
    }
  }

  lemma {:induction false} NamedEvents(c: Calls, before: seq<Spot>, es: seq<Event>)
    requires Consistent(c) && ListedAs(c, ExpectedNamed(before))
    requires AllAttributable(before + AllSpots(es)) && NamedArgumentsFit(before + AllSpots(es))
    ensures Attribute(c, es).Some? && ListedAs(Attribute(c, es).value, ExpectedNamed(before + AllSpots(es)))
    decreases |es|
  {
    if es == [] {
      assert before + [] == before;
    } else {
      var ss, more := Spots(es[0].deltas, 0), AllSpots(es[1..]);
      Regroup(before, ss, more);
      BeginningIsGood(before + ss, more);
      NamedFrame(c, before, es[0].deltas, {}, 0, before + ss);
      NamedEvents(StepDeltas(c, {}, es[0].deltas, 0).0, before + ss, es[1..]);
    }
  }

  ghost predicate CompleteNamed(ss: seq<Spot>, setup: Setup) {
    forall k | 0 <= k < |ExpectedNamed(ss)| :: Check(ExpectedNamed(ss)[k], setup).None?
  }

  lemma UpTo(s: set<int>, n: nat)
    requires forall k :: k in s <==> 0 <= k < n
    ensures Ascending(s) == seq(n, i => i)
  {
    var l := seq(n, i => i);
    forall k ensures k in l <==> k in s {
      assert 0 <= k < n ==> l[k] == k;
    }
    AscendingIsUnique(l, s);
  }

  lemma ListedInOrder(c: Calls, calls: seq<Call>, order: seq<int>)
    requires ListedAs(c, calls) && order == seq(|calls|, i => i)
    ensures forall j | 0 <= j < |order| :: order[j] in c.entries && c.entries[order[j]] == calls[j]
    ensures [] + seq(|order|, j requires 0 <= j < |order| => c.entries[order[j]]) == calls
  {
    forall j | 0 <= j < |order| ensures order[j] in c.entries && c.entries[order[j]] == calls[j] {
      assert order[j] == j;
    }
  }

  lemma CollectsNamed(c: Calls, ss: seq<Spot>, content: Text, setup: Setup)
    requires ListedAs(c, ExpectedNamed(ss)) && CompleteNamed(ss, setup)
    ensures forall j | 0 <= j < |Ascending(c.entries.Keys)| :: Ascending(c.entries.Keys)[j] in c.entries
    ensures Collect(c.entries, Ascending(c.entries.Keys), content, [], setup) == Response(content, ExpectedNamed(ss))
  {
    var order := Ascending(c.entries.Keys);
    UpTo(c.entries.Keys, |ExpectedNamed(ss)|);
    ListedInOrder(c, ExpectedNamed(ss), order);
    CollectAll(c.entries, order, content, [], setup);
  }

  lemma NamedStream(es: seq<Event>, setup: Setup)
    requires AllAttributable(AllSpots(es)) && NamedArgumentsFit(AllSpots(es)) && CompleteNamed(AllSpots(es), setup)
    ensures Attribute(NO_CALLS, es).Some?
    ensures Collected(es, Attribute(NO_CALLS, es).value, setup) == Response(AllContent(es), ExpectedNamed(AllSpots(es)))
  {
    assert [] + AllSpots(es) == AllSpots(es);
    NamedEvents(NO_CALLS, [], es);
    CollectsNamed(Attribute(NO_CALLS, es).value, AllSpots(es), AllContent(es), setup);
  }

  /** Reassembly by ID and place, for a stream closed by the done marker. */
  lemma NamedReassemblyDone(es: seq<Event>, junk: Text, encode: Event -> Text, setup: Setup)
    requires AllPrintable(es, encode, setup) && Undisturbed(es, setup)
    requires AllAttributable(AllSpots(es)) && NamedArgumentsFit(AllSpots(es)) && CompleteNamed(AllSpots(es), setup)
    requires |Print(es, encode)| + |PrintFrame(DONE)| <= MAX_RESPONSE_BYTES
    ensures Parse(Print(es, encode) + PrintFrame(DONE) + junk, setup) == Response(AllContent(es), ExpectedNamed(AllSpots(es)))
  {
    NamedStream(es, setup);
    ParseDone(es, junk, encode, setup);
  }

  /** The same for a stream that ends after a finish reason. */
  lemma NamedReassemblyFinished(es: seq<Event>, encode: Event -> Text, setup: Setup)
    requires AllPrintable(es, encode, setup) && Undisturbed(es, setup)
    requires AllAttributable(AllSpots(es)) && NamedArgumentsFit(AllSpots(es)) && CompleteNamed(AllSpots(es), setup)
    requires |Print(es, encode)| <= MAX_RESPONSE_BYTES && Finishes(es)
    ensures Parse(Print(es, encode), setup) == Response(AllContent(es), ExpectedNamed(AllSpots(es)))
  {
    NamedStream(es, setup);
    ParseFinished(es, encode, setup);
  }

  /** Two calls whose fragments all carry index 0: the second frame continues the
      first call at its first place and the second call at its second. */
  lemma CollidingIndexes(d1: Delta, d2: Delta, e1: Delta, e2: Delta, ss: seq<Spot>)
    requires d1.index == Some(0) && d2.index == Some(0) && e1.index == Some(0) && e2.index == Some(0)
    requires d1.id != [] && d2.id != [] && d1.id != d2.id && e1.id == [] && e2.id == []
    requires ss == Spots([d1, d2], 0) + Spots([e1, e2], 0)
    ensures AllAttributable(ss)
    ensures ExpectedNamed(ss) ==
            [Call(d1.id, d1.name + e1.name, d1.arguments + e1.arguments), Call(d2.id, d2.name + e2.name, d2.arguments + e2.arguments)]
  {
    var w, x, y, z := Spot(d1, 0), Spot(d2, 1), Spot(e1, 0), Spot(e2, 1);
    SpotsOfTwo(d1, d2);
    SpotsOfTwo(e1, e2);
    assert ss == [] + [w] + [x] + [y] + [z];
    FourAreAttributable([], w, x, y, z);
    TwoFragments([], w, x, y, z, d1.id, 0);
    TwoFragments([], w, x, y, z, d2.id, 1);
    TwoCalls(ss, d1.id, d2.id);
  }

  lemma TwoCalls(ss: seq<Spot>, id1: Text, id2: Text)
    requires FirstIDs(ss) == [id1, id2]
    ensures ExpectedNamed(ss) == [CallWith(ss, id1, 0), CallWith(ss, id2, 1)]
  {
  }

  lemma AttributableGrows(ss: seq<Spot>, x: Spot)
    requires AllAttributable(ss) && Attributable(ss, x)
    ensures AllAttributable(ss + [x])
  {
    forall i | 0 <= i < |ss + [x]| ensures Attributable((ss + [x])[..i], (ss + [x])[i]) {
      assert (ss + [x])[..i] == ss[..i];
      assert ss[..|ss|] == ss;
    }
  }

  lemma FourAreAttributable(ss: seq<Spot>, w: Spot, x: Spot, y: Spot, z: Spot)
    requires ss == [] && w.d.id != [] && x.d.id != [] && w.d.id != x.d.id && y.d.id == [] && z.d.id == []
    requires w.d.index == Some(0) && x.d.index == Some(0) && y.d.index == Some(0) && z.d.index == Some(0)
    requires y.place == 0 && z.place == 1
    ensures AllAttributable(ss + [w] + [x] + [y] + [z]) && FirstIDs(ss + [w] + [x] + [y] + [z]) == [w.d.id, x.d.id]
  {
    FirstIDsGrow(ss, w);
    FirstIDsGrow(ss + [w], x);
    FirstIDsGrow(ss + [w] + [x], y);
    FirstIDsGrow(ss + [w] + [x] + [y], z);
    AttributableGrows(ss, w);
    AttributableGrows(ss + [w], x);
    AttributableGrows(ss + [w] + [x], y);
    assert (ss + [w] + [x] + [y])[..2] == ss + [w] + [x];
    assert BelongsTo(ss + [w] + [x] + [y], 2, 0);
    AttributableGrows(ss + [w] + [x] + [y], z);
  }

  lemma SpotsOfTwo(d: Delta, e: Delta)
    ensures Spots([d, e], 0) == [Spot(d, 0), Spot(e, 1)]
  {
    assert [d, e][1..] == [e] && [e][1..] == [];
    assert Spots([e], 1) == [Spot(e, 1)];
  }

  lemma TwoFragments(ss: seq<Spot>, w: Spot, x: Spot, y: Spot, z: Spot, id: Text, k: nat)
    requires ss == [] && (Mine(w, id, k) <==> !Mine(x, id, k)) && (Mine(y, id, k) <==> Mine(w, id, k)) && (Mine(z, id, k) <==> Mine(x, id, k))
    ensures
      var first, second := if Mine(w, id, k) then w.d else x.d, if Mine(w, id, k) then y.d else z.d;
      CallWith(ss + [w] + [x] + [y] + [z], id, k) == Call(id, first.name + second.name, first.arguments + second.arguments)
  {
    CallWithGrows(ss, w, id, k);
    CallWithGrows(ss + [w], x, id, k);
    CallWithGrows(ss + [w] + [x], y, id, k);
    CallWithGrows(ss + [w] + [x] + [y], z, id, k);
  }
}
