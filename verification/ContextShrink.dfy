/** How the operational context is made to fit: while its encoding is too long,
    the longest item list loses its last item. The encoding is a parameter. */
module ContextShrink {
  import opened Wrappers

  const MAX_OPERATIONAL_CONTEXT := 16 * 1024

  /** `about` stands for the fields that shrinking never touches. */
  datatype Source = Source(about: string, items: seq<string>, truncated: bool)

  /** What surrounds the encoding, and the encoding of the eight sources; None is
      an encoding error. */
  datatype Frame = Frame(prefix: string, suffix: string, marshal: seq<Source> -> Option<string>)

  datatype Outcome = Encoded(text: string) | MarshalFailed | TooLarge

  predicate FitsIn(frame: Frame, s: seq<Source>) {
    var encoded := frame.marshal(s);
    encoded.Some? && |frame.prefix| + |encoded.value| + |frame.suffix| <= MAX_OPERATIONAL_CONTEXT
  }

  predicate Exceeds(frame: Frame, s: seq<Source>) {
    var encoded := frame.marshal(s);
    encoded.Some? && |frame.prefix| + |encoded.value| + |frame.suffix| > MAX_OPERATIONAL_CONTEXT
  }

  predicate AllEmpty(s: seq<Source>) {
    forall i :: 0 <= i < |s| ==> s[i].items == []
  }

  function Total(s: seq<Source>): nat {
    if s == [] then 0 else Total(s[..|s| - 1]) + |s[|s| - 1].items|
  }

  /** The first of the longest lists. */
  predicate FirstLargest(s: seq<Source>, k: nat) {
    && k < |s| && s[k].items != []
    && (forall i :: 0 <= i < |s| ==> |s[i].items| <= |s[k].items|)
    && (forall i :: 0 <= i < k ==> |s[i].items| < |s[k].items|)
  }

  function Drop(source: Source): Source
    requires source.items != []
  {
    source.(items := source.items[..|source.items| - 1], truncated := true)
  }

  // What shrinking leaves

  predicate Shortened(before: Source, after: Source) {
    |after.items| < |before.items|
  }

  /** Every source keeps a prefix of its items and is flagged if that is not all. */
  predicate PrefixesOf(s: seq<Source>, initial: seq<Source>) {
    && |s| == |initial|
    && forall i :: 0 <= i < |s| ==>
      && s[i].items <= initial[i].items && s[i].about == initial[i].about
      && s[i].truncated == (initial[i].truncated || Shortened(initial[i], s[i]))
  }

  /** The loss is spread evenly: no list is more than one item longer than a
      shortened one, and none ahead of a shortened one is longer at all. */
  predicate Leveled(s: seq<Source>, initial: seq<Source>)
    requires |s| == |initial|
  {
    forall i, j :: 0 <= i < |s| && 0 <= j < |s| && Shortened(initial[j], s[j])
      ==> |s[i].items| <= |s[j].items| + (if i < j then 0 else 1)
  }

  lemma DropKeepsLeveled(s: seq<Source>, initial: seq<Source>, k: nat)
    requires PrefixesOf(s, initial) && Leveled(s, initial) && FirstLargest(s, k)
    ensures var after := s[k := Drop(s[k])];
      PrefixesOf(after, initial) && Leveled(after, initial)
  {
    var after := s[k := Drop(s[k])];
    assert Drop(s[k]).items <= s[k].items <= initial[k].items;
  }

  lemma {:induction false} TotalOfUpdate(s: seq<Source>, k: nat, source: Source)
    requires k < |s|
    ensures Total(s[k := source]) == Total(s) - |s[k].items| + |source.items|
    decreases |s|
  {
    var last := |s| - 1;
    var after := s[k := source];
    if k == last {
      assert after[..last] == s[..last];
    } else {
      assert after[..last] == s[..last][k := source];
      TotalOfUpdate(s[..last], k, source);
    }
  }

  lemma {:induction false} TotalIsMonotone(a: seq<Source>, b: seq<Source>)
    requires |a| == |b| && forall i :: 0 <= i < |a| ==> |a[i].items| <= |b[i].items|
    ensures Total(a) <= Total(b)
    ensures Total(a) == Total(b) ==> forall i :: 0 <= i < |a| ==> |a[i].items| == |b[i].items|
    decreases |a|
  {
    if a != [] {
      TotalIsMonotone(a[..|a| - 1], b[..|b| - 1]);
      assert forall i :: 0 <= i < |a| - 1 ==> a[i] == a[..|a| - 1][i] && b[i] == b[..|b| - 1][i];
    }
  }

  /** How many items are left decides which: an even loss is unique. */
  lemma LeveledIsUnique(a: seq<Source>, b: seq<Source>, initial: seq<Source>)
    requires PrefixesOf(a, initial) && Leveled(a, initial)
    requires PrefixesOf(b, initial) && Leveled(b, initial)
    requires Total(a) == Total(b)
    ensures a == b
  {
    forall i | 0 <= i < |a| ensures |a[i].items| == |b[i].items| {
      NoneShorter(a, b, initial, i);
      NoneShorter(b, a, initial, i);
    }
    forall i | 0 <= i < |a| ensures a[i] == b[i] {
      assert a[i].items == initial[i].items[..|a[i].items|] && b[i].items == initial[i].items[..|b[i].items|];
    }
  }

  /** One list cannot have lost more here while another lost more there. */
  lemma NoTradeOff(a: seq<Source>, b: seq<Source>, initial: seq<Source>, i: nat, j: nat)
    requires PrefixesOf(a, initial) && Leveled(a, initial)
    requires PrefixesOf(b, initial) && Leveled(b, initial)
    requires i < |a| && j < |a|
    ensures |a[i].items| < |b[i].items| ==> |a[j].items| <= |b[j].items|
  {
    assert Shortened(initial[i], a[i]) ==> |a[j].items| <= |a[i].items| + (if j < i then 0 else 1);
    assert Shortened(initial[j], b[j]) ==> |b[i].items| <= |b[j].items| + (if i < j then 0 else 1);
  }

  lemma NoneShorter(a: seq<Source>, b: seq<Source>, initial: seq<Source>, i: nat)
    requires PrefixesOf(a, initial) && Leveled(a, initial)
    requires PrefixesOf(b, initial) && Leveled(b, initial)
    requires Total(a) == Total(b) && i < |a|
    ensures |a[i].items| >= |b[i].items|
  {
    if forall j :: 0 <= j < |a| ==> |a[j].items| <= |b[j].items| {
      TotalIsMonotone(a, b);
    } else {
      var j :| 0 <= j < |a| && |a[j].items| > |b[j].items|;
      NoTradeOff(a, b, initial, i, j);
    }
  }

  /** Every even loss that keeps more than `total` items is still too long. */
  ghost predicate NoneLarger(frame: Frame, initial: seq<Source>, total: nat) {
    forall s: seq<Source> :: PrefixesOf(s, initial) && Leveled(s, initial) && Total(s) > total ==> Exceeds(frame, s)
  }

  lemma NothingExceedsInitial(frame: Frame, initial: seq<Source>)
    ensures NoneLarger(frame, initial, Total(initial))
  {
    forall s: seq<Source> | PrefixesOf(s, initial) ensures Total(s) <= Total(initial) {
      TotalIsMonotone(s, initial);
    }
  }

  lemma DropKeepsNoneLarger(frame: Frame, initial: seq<Source>, before: seq<Source>, k: nat)
    requires PrefixesOf(before, initial) && Leveled(before, initial) && FirstLargest(before, k)
    requires NoneLarger(frame, initial, Total(before)) && Exceeds(frame, before)
    ensures var after := before[k := Drop(before[k])];
      Total(after) == Total(before) - 1 && NoneLarger(frame, initial, Total(after))
  {
    TotalOfUpdate(before, k, Drop(before[k]));
    forall s: seq<Source> | PrefixesOf(s, initial) && Leveled(s, initial) && Total(s) > Total(before) - 1
      ensures Exceeds(frame, s)
    {
      if Total(s) == Total(before) {
        LeveledIsUnique(s, before, initial);
      }
    }
  }

  /** The shrinking loop. `sources` is where it ended. The text is the encoding
      of the evenly shortened sources that keep the most items and fit. */
  method Encode(initial: seq<Source>, frame: Frame) returns (outcome: Outcome, sources: seq<Source>)
    ensures PrefixesOf(sources, initial) && Leveled(sources, initial)
    ensures outcome.Encoded? ==> FitsIn(frame, sources) && |outcome.text| <= MAX_OPERATIONAL_CONTEXT
    ensures outcome.Encoded? ==> outcome.text == frame.prefix + frame.marshal(sources).value + frame.suffix
    ensures outcome.MarshalFailed? ==> frame.marshal(sources).None?
    ensures outcome.TooLarge? ==> AllEmpty(sources) && Exceeds(frame, sources)
    ensures NoneLarger(frame, initial, Total(sources))
    ensures FitsIn(frame, initial) ==> sources == initial
  {
    var held := new Source[|initial|](i requires 0 <= i < |initial| => initial[i]);
    assert held[..] == initial;
    NothingExceedsInitial(frame, initial);
    while true
      invariant PrefixesOf(held[..], initial) && Leveled(held[..], initial)
      invariant NoneLarger(frame, initial, Total(held[..]))
      invariant FitsIn(frame, initial) ==> held[..] == initial
      decreases Total(held[..])
    {
      ghost var before := held[..];
      var encoded := frame.marshal(held[..]);
      if encoded.None? {
        return MarshalFailed, held[..];
      }
      if |frame.prefix| + |encoded.value| + |frame.suffix| <= MAX_OPERATIONAL_CONTEXT {
        return Encoded(frame.prefix + encoded.value + frame.suffix), held[..];
      }
      var largest := Largest(held);
      if largest.None? {
        return TooLarge, held[..];
      }
      var k := largest.value;
      DropKeepsLeveled(before, initial, k);
      DropKeepsNoneLarger(frame, initial, before, k);
      held[k] := Drop(held[k]);
      assert held[..] == before[k := Drop(before[k])];
    }
  }

  method Largest(held: array<Source>) returns (largest: Option<nat>)
    ensures largest.None? ==> AllEmpty(held[..])
    ensures largest.Some? ==> FirstLargest(held[..], largest.value)
  {
    largest := None;
    for i := 0 to held.Length
      invariant largest.None? ==> AllEmpty(held[..i])
      invariant largest.Some? ==> FirstLargest(held[..i], largest.value)
    {
      if |held[i].items| > 0 && (largest.None? || |held[i].items| > |held[largest.value].items|) {
        largest := Some(i);
      }
      assert held[..i + 1] == held[..i] + [held[i]];
    }
    assert held[..held.Length] == held[..];
  }
}
