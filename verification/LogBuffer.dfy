/** The bounded in-memory log of the server: entries are the lines of each write,
    the oldest are evicted when there are too many of them or too many bytes. */
module LogBuffer {
  import opened Lines
  import opened Utf8

  const DEFAULT_MAX_ENTRIES := 10_000
  const DEFAULT_MAX_BYTES := 0x20_0000

  predicate Fits(entries: seq<Text>, maxEntries: nat, maxBytes: nat) {
    |entries| <= maxEntries && Size(entries) <= maxBytes
  }

  /** The longest suffix that fits; KeptIsLongest says so. */
  function Kept(entries: seq<Text>, maxEntries: nat, maxBytes: nat): seq<Text> {
    if Fits(entries, maxEntries, maxBytes) then entries else Kept(entries[1..], maxEntries, maxBytes)
  }

  lemma FitsIff(entries: seq<Text>, maxEntries: nat, maxBytes: nat)
    ensures Fits(entries, maxEntries, maxBytes) <==> |entries| <= maxEntries && |Join(entries)| <= maxBytes
  {
    JoinSize(entries);
  }

  /** A line longer than the whole buffer keeps its end. */
  function Cut(line: Text, maxBytes: nat): Text {
    if |line| > maxBytes then line[|line| - maxBytes..] else line
  }

  function Cuts(lines: seq<Text>, maxBytes: nat): (entries: seq<Text>)
    ensures |entries| == |lines|
    ensures forall i :: 0 <= i < |lines| ==> entries[i] == Cut(lines[i], maxBytes)
  {
    seq(|lines|, i requires 0 <= i < |lines| => Cut(lines[i], maxBytes))
  }

  predicate NoneEmpty(lines: seq<Text>) {
    forall i :: 0 <= i < |lines| ==> lines[i] != []
  }

  predicate IsSuffix(s: Text, of: Text) {
    |s| <= |of| && of[|of| - |s|..] == s
  }

  lemma {:induction false} KeptIsLongest(entries: seq<Text>, maxEntries: nat, maxBytes: nat) returns (k: nat)
    ensures k <= |entries| && Kept(entries, maxEntries, maxBytes) == entries[k..]
    ensures forall j :: 0 <= j <= |entries| ==> (Fits(entries[j..], maxEntries, maxBytes) <==> k <= j)
  {
    if Fits(entries, maxEntries, maxBytes) {
      k := 0;
      forall j | 0 <= j <= |entries| ensures Fits(entries[j..], maxEntries, maxBytes) {
        JoinAppends(entries[..j], entries[j..]);
        assert entries[..j] + entries[j..] == entries;
      }
    } else {
      assert entries != [];
      var rest := KeptIsLongest(entries[1..], maxEntries, maxBytes);
      k := rest + 1;
      assert entries[0..] == entries;
      forall j | 1 <= j <= |entries| ensures Fits(entries[j..], maxEntries, maxBytes) <==> k <= j {
        assert entries[1..][j - 1..] == entries[j..];
      }
      assert entries[1..][rest..] == entries[k..];
    }
  }

  lemma KeptFits(entries: seq<Text>, maxEntries: nat, maxBytes: nat)
    ensures var kept := Kept(entries, maxEntries, maxBytes); |kept| <= maxEntries && |Join(kept)| <= maxBytes
  {
    var k := KeptIsLongest(entries, maxEntries, maxBytes);
    FitsIff(entries[k..], maxEntries, maxBytes);
  }

  /** Evicting at once and evicting after every line keep the same entries. */
  lemma {:induction false} KeptAbsorbs(entries: seq<Text>, entry: Text, maxEntries: nat, maxBytes: nat)
    ensures Kept(Kept(entries, maxEntries, maxBytes) + [entry], maxEntries, maxBytes)
         == Kept(entries + [entry], maxEntries, maxBytes)
    decreases |entries|
  {
    if !Fits(entries, maxEntries, maxBytes) {
      JoinAppends(entries, [entry]);
      assert (entries + [entry])[1..] == entries[1..] + [entry];
      KeptAbsorbs(entries[1..], entry, maxEntries, maxBytes);
    }
  }

  lemma CutsAppend(lines: seq<Text>, line: Text, maxBytes: nat)
    ensures Cuts(lines + [line], maxBytes) == Cuts(lines, maxBytes) + [Cut(line, maxBytes)]
  {
  }

  /** Nothing fits in front of an entry that fills the buffer. */
  lemma {:induction false} FullEntryIsAlone(entries: seq<Text>, entry: Text, maxEntries: nat, maxBytes: nat)
    requires maxEntries > 0 && NoneEmpty(entries) && |entry| == maxBytes
    ensures Kept(entries + [entry], maxEntries, maxBytes) == [entry]
    decreases |entries|
  {
    JoinAppends(entries, [entry]);
    assert Size([entry]) == |entry|;
    if entries == [] {
      assert entries + [entry] == [entry];
    } else {
      assert Size(entries) >= |entries[0]| > 0;
      assert (entries + [entry])[1..] == entries[1..] + [entry];
      FullEntryIsAlone(entries[1..], entry, maxEntries, maxBytes);
    }
  }

  lemma JoinOfSuffix(entries: seq<Text>, k: nat)
    requires k <= |entries|
    ensures IsSuffix(Join(entries[k..]), Join(entries))
  {
    JoinAppends(entries[..k], entries[k..]);
    assert entries[..k] + entries[k..] == entries;
  }

  lemma SuffixGrows(s: Text, of: Text, more: Text)
    requires IsSuffix(s, of)
    ensures IsSuffix(s + more, of + more)
  {
  }

  lemma SuffixOfSuffix(a: Text, b: Text, c: Text)
    requires IsSuffix(a, b) && IsSuffix(b, c)
    ensures IsSuffix(a, c)
  {
    assert a == c[|c| - |b|..][|b| - |a|..];
  }

  lemma KeptIsNotEmpty(lines: seq<Text>, maxEntries: nat, maxBytes: nat)
    requires NoneEmpty(lines) && maxBytes > 0
    ensures NoneEmpty(Kept(Cuts(lines, maxBytes), maxEntries, maxBytes))
  {
    var cuts := Cuts(lines, maxBytes);
    var k := KeptIsLongest(cuts, maxEntries, maxBytes);
    forall i | 0 <= i < |cuts| - k ensures cuts[k..][i] != [] {
      assert cuts[k..][i] == Cut(lines[k + i], maxBytes);
    }
  }

  /** Whatever was cut or evicted, what remains is the end of what was written. */
  lemma {:induction false} RetainedIsSuffix(lines: seq<Text>, maxEntries: nat, maxBytes: nat)
    requires NoneEmpty(lines) && maxEntries > 0 && maxBytes > 0
    ensures IsSuffix(Join(Kept(Cuts(lines, maxBytes), maxEntries, maxBytes)), Join(lines))
    decreases |lines|
  {
    if lines == [] {
      assert Cuts(lines, maxBytes) == [] && Kept([], maxEntries, maxBytes) == [];
    } else {
      var init, line := lines[..|lines| - 1], lines[|lines| - 1];
      assert lines == init + [line];
      RetainedIsSuffix(init, maxEntries, maxBytes);
      AppendKeepsSuffix(init, line, maxEntries, maxBytes);
    }
  }

  lemma AppendKeepsSuffix(init: seq<Text>, line: Text, maxEntries: nat, maxBytes: nat)
    requires NoneEmpty(init) && line != [] && maxEntries > 0 && maxBytes > 0
    requires IsSuffix(Join(Kept(Cuts(init, maxBytes), maxEntries, maxBytes)), Join(init))
    ensures IsSuffix(Join(Kept(Cuts(init + [line], maxBytes), maxEntries, maxBytes)), Join(init + [line]))
  {
    CutsAppend(init, line, maxBytes);
    JoinOfAppend(init, line);
    RetainedGrows(Cuts(init, maxBytes), Join(init), line, maxEntries, maxBytes);
  }

  lemma JoinOfAppend(init: seq<Text>, line: Text)
    ensures Join(init + [line]) == Join(init) + line
  {
    JoinAppends(init, [line]);
    assert Join([line]) == line;
  }

  lemma RetainedGrows(entries: seq<Text>, stream: Text, line: Text, maxEntries: nat, maxBytes: nat)
    requires NoneEmpty(entries) && line != [] && maxEntries > 0 && maxBytes > 0
    requires IsSuffix(Join(Kept(entries, maxEntries, maxBytes)), stream)
    ensures IsSuffix(Join(Kept(entries + [Cut(line, maxBytes)], maxEntries, maxBytes)), stream + line)
  {
    if |line| > maxBytes {
      OversizeIsRetained(entries, stream, line, maxEntries, maxBytes);
    } else {
      KeptAbsorbs(entries, line, maxEntries, maxBytes);
      KeptOfSuffix(Kept(entries, maxEntries, maxBytes), stream, line, maxEntries, maxBytes);
    }
  }

  lemma OversizeIsRetained(entries: seq<Text>, stream: Text, line: Text, maxEntries: nat, maxBytes: nat)
    requires NoneEmpty(entries) && |line| > maxBytes > 0 && maxEntries > 0
    ensures IsSuffix(Join(Kept(entries + [Cut(line, maxBytes)], maxEntries, maxBytes)), stream + line)
  {
    var entry := Cut(line, maxBytes);
    FullEntryIsAlone(entries, entry, maxEntries, maxBytes);
    assert Join([entry]) == entry;
    assert IsSuffix(entry, line) && IsSuffix(line, stream + line);
    SuffixOfSuffix(entry, line, stream + line);
  }

  lemma KeptOfSuffix(before: seq<Text>, stream: Text, line: Text, maxEntries: nat, maxBytes: nat)
    requires IsSuffix(Join(before), stream)
    ensures IsSuffix(Join(Kept(before + [line], maxEntries, maxBytes)), stream + line)
  {
    var k := KeptIsLongest(before + [line], maxEntries, maxBytes);
    JoinOfSuffix(before + [line], k);
    JoinAppends(before, [line]);
    assert Join([line]) == line;
    SuffixGrows(Join(before), stream, line);
    SuffixOfSuffix(Join((before + [line])[k..]), Join(before) + line, stream + line);
  }

  lemma {:induction false} CutsShrink(lines: seq<Text>, maxBytes: nat)
    requires maxBytes > 0
    ensures Size(Cuts(lines, maxBytes)) <= Size(lines)
    ensures Size(Cuts(lines, maxBytes)) == Size(lines) ==> Cuts(lines, maxBytes) == lines
  {
    if lines != [] {
      assert Cuts(lines, maxBytes)[1..] == Cuts(lines[1..], maxBytes);
      CutsShrink(lines[1..], maxBytes);
      assert lines == [lines[0]] + lines[1..];
    }
  }

  lemma {:induction false} MemberFits(lines: seq<Text>, i: nat)
    requires i < |lines|
    ensures |lines[i]| <= Size(lines)
  {
    if i > 0 {
      MemberFits(lines[1..], i - 1);
    }
  }

  lemma FittingLinesStay(lines: seq<Text>, maxEntries: nat, maxBytes: nat)
    requires Fits(lines, maxEntries, maxBytes)
    ensures Cuts(lines, maxBytes) == lines && Kept(Cuts(lines, maxBytes), maxEntries, maxBytes) == lines
  {
    forall i | 0 <= i < |lines| ensures Cuts(lines, maxBytes)[i] == lines[i] {
      MemberFits(lines, i);
    }
  }

  lemma DroppingLoses(entries: seq<Text>, k: nat)
    requires NoneEmpty(entries) && 0 < k <= |entries|
    ensures Size(entries[k..]) < Size(entries)
  {
    JoinAppends(entries[..k], entries[k..]);
    assert entries[..k] + entries[k..] == entries;
    MemberFits(entries[..k], 0);
  }

  lemma UnfitLinesLose(lines: seq<Text>, maxEntries: nat, maxBytes: nat)
    requires NoneEmpty(lines) && maxBytes > 0 && !Fits(lines, maxEntries, maxBytes)
    ensures Size(Kept(Cuts(lines, maxBytes), maxEntries, maxBytes)) < Size(lines)
  {
    var cuts := Cuts(lines, maxBytes);
    var k := KeptIsLongest(cuts, maxEntries, maxBytes);
    CutsShrink(lines, maxBytes);
    if k > 0 {
      DroppingLoses(cuts, k);
    } else {
      assert cuts[0..] == cuts && Fits(cuts, maxEntries, maxBytes) && cuts != lines;
    }
  }

  /** All that was written remains exactly when all lines written fit the bounds. */
  lemma WholeIffFits(lines: seq<Text>, maxEntries: nat, maxBytes: nat)
    requires NoneEmpty(lines) && maxEntries > 0 && maxBytes > 0
    ensures Join(Kept(Cuts(lines, maxBytes), maxEntries, maxBytes)) == Join(lines) <==> Fits(lines, maxEntries, maxBytes)
    ensures Fits(lines, maxEntries, maxBytes) <==> |lines| <= maxEntries && |Join(lines)| <= maxBytes
  {
    FitsIff(lines, maxEntries, maxBytes);
    if Fits(lines, maxEntries, maxBytes) {
      FittingLinesStay(lines, maxEntries, maxBytes);
    } else {
      UnfitLinesLose(lines, maxEntries, maxBytes);
      JoinSize(lines);
      JoinSize(Kept(Cuts(lines, maxBytes), maxEntries, maxBytes));
    }
  }

  /** A snapshot without the first k entries kept is a suffix of the stream, and
      the whole of it only if k is 0 and all lines fit. */
  lemma LastEntries(lines: seq<Text>, entries: seq<Text>, k: nat, maxEntries: nat, maxBytes: nat)
    requires NoneEmpty(lines) && maxEntries > 0 && maxBytes > 0
    requires entries == Kept(Cuts(lines, maxBytes), maxEntries, maxBytes) && k <= |entries|
    ensures IsSuffix(Join(entries[k..]), Join(lines))
    ensures Join(entries[k..]) == Join(lines) <==> k == 0 && Fits(lines, maxEntries, maxBytes)
  {
    WholeIffFits(lines, maxEntries, maxBytes);
    RetainedIsSuffix(lines, maxEntries, maxBytes);
    JoinOfSuffix(entries, k);
    SuffixOfSuffix(Join(entries[k..]), Join(entries), Join(lines));
    if k > 0 {
      KeptIsNotEmpty(lines, maxEntries, maxBytes);
      DroppingLoses(entries, k);
      JoinSize(entries);
      JoinSize(entries[k..]);
    } else {
      assert entries[0..] == entries;
    }
  }

  lemma OneMore(before: seq<Text>, parts: seq<Text>, i: nat)
    requires i < |parts|
    ensures (before + parts[..i]) + [parts[i]] == before + parts[..i + 1]
  {
  }

  /** One appended line: the new contents, and whether anything is lost by now. */
  lemma AppendEvicts(lines: seq<Text>, line: Text, maxEntries: nat, maxBytes: nat)
    requires NoneEmpty(lines) && line != [] && maxEntries > 0 && maxBytes > 0
    ensures var start := Kept(Cuts(lines, maxBytes), maxEntries, maxBytes) + [Cut(line, maxBytes)];
      && Kept(start, maxEntries, maxBytes) == Kept(Cuts(lines + [line], maxBytes), maxEntries, maxBytes)
      && (Fits(lines + [line], maxEntries, maxBytes)
          <==> Fits(lines, maxEntries, maxBytes) && |line| <= maxBytes && Fits(start, maxEntries, maxBytes))
  {
    CutsAppend(lines, line, maxBytes);
    KeptAbsorbs(Cuts(lines, maxBytes), Cut(line, maxBytes), maxEntries, maxBytes);
    JoinAppends(lines, [line]);
    assert Size([line]) == |line|;
    if Fits(lines, maxEntries, maxBytes) {
      FittingLinesStay(lines, maxEntries, maxBytes);
    }
  }

  /** `lines` is every line ever written. */
  class Buffer {
    var entries: seq<Text>
    var totalBytes: int
    var evicted: bool
    const maxEntries: int
    const maxBytes: int
    ghost var lines: seq<Text>

    ghost predicate Valid()
      reads this
    {
      && maxEntries > 0 && maxBytes > 0
      && NoneEmpty(lines)
      && entries == Kept(Cuts(lines, maxBytes), maxEntries, maxBytes)
      && totalBytes == Size(entries)
      && (evicted <==> !Fits(lines, maxEntries, maxBytes))
    }

    ghost function Stream(): Text
      reads this
    {
      Join(lines)
    }

    constructor (maxEntries: int, maxBytes: int)
      ensures Valid() && lines == [] && entries == []
      ensures this.maxEntries == if maxEntries <= 0 then DEFAULT_MAX_ENTRIES else maxEntries
      ensures this.maxBytes == if maxBytes <= 0 then DEFAULT_MAX_BYTES else maxBytes
    {
      this.maxEntries := if maxEntries <= 0 then DEFAULT_MAX_ENTRIES else maxEntries;
      this.maxBytes := if maxBytes <= 0 then DEFAULT_MAX_BYTES else maxBytes;
      entries, totalBytes, evicted, lines := [], 0, false, [];
    }

    method Write(data: Text) returns (written: nat)
      requires Valid()
      modifies this
      ensures Valid() && written == |data|
      ensures lines == old(lines) + Split(data)
      ensures Stream() == old(Stream()) + data
      ensures |entries| <= maxEntries && |Join(entries)| <= maxBytes
    {
      written := |data|;
      SplitIsLines(data);
      ghost var before := lines;
      var parts := Split(data);
      for i := 0 to |parts|
        invariant Valid()
        invariant lines == before + parts[..i]
      {
        assert OneLine(parts[i]);
        AppendLocked(parts[i]);
        OneMore(before, parts, i);
      }
      assert parts[..|parts|] == parts;
      JoinAppends(before, parts);
      KeptFits(Cuts(lines, maxBytes), maxEntries, maxBytes);
    }

    method AppendLocked(line: Text)
      requires Valid() && line != []
      modifies this
      ensures Valid() && lines == old(lines) + [line]
    {
      ghost var before := lines;
      lines := lines + [line];
      var entry := line;
      if |line| > maxBytes {
        entry := line[|line| - maxBytes..];
        evicted := true;
      }
      AppendEvicts(before, line, maxEntries, maxBytes);
      JoinAppends(entries, [entry]);
      entries := entries + [entry];
      totalBytes := totalBytes + |entry|;
      Evict();
    }

    /** The eviction loop: the oldest entries go until the rest fits both bounds. */
    method Evict()
      requires totalBytes == Size(entries) && maxEntries >= 0 && maxBytes >= 0
      modifies this`entries, this`totalBytes, this`evicted
      ensures entries == Kept(old(entries), maxEntries, maxBytes) && totalBytes == Size(entries)
      ensures evicted <==> old(evicted) || !Fits(old(entries), maxEntries, maxBytes)
    {
      ghost var evictedBefore, start := evicted, entries;
      while |entries| > maxEntries || totalBytes > maxBytes
        invariant totalBytes == Size(entries) && |entries| <= |start|
        invariant Kept(entries, maxEntries, maxBytes) == Kept(start, maxEntries, maxBytes)
        invariant evicted <==> evictedBefore || |entries| < |start|
        invariant |entries| == |start| ==> entries == start
        decreases |entries|
      {
        totalBytes := totalBytes - |entries[0]|;
        entries := entries[1..];
        evicted := true;
      }
    }

    /** The last `limit` entries, or all of them. The flag tells exactly whether
        the content is less than everything written. */
    method Snapshot(limit: int) returns (content: Text, returnedLines: nat, truncated: bool)
      requires Valid()
      ensures returnedLines == if 0 < limit < |entries| then limit else |entries|
      ensures content == Join(entries[|entries| - returnedLines..])
      ensures IsSuffix(content, Stream())
      ensures truncated <==> content != Stream()
    {
      var start := 0;
      if limit > 0 && limit < |entries| {
        start := |entries| - limit;
      }
      content := Join(entries[start..]);
      returnedLines := |entries| - start;
      truncated := evicted || start > 0;
      LastEntries(lines, entries, start, maxEntries, maxBytes);
    }
  }
}
