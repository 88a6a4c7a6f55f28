/** The three byte-bounded truncations of text and the bounded output writer. */
module TextBounds {
  import opened Utf8

  const MAX_OUTPUT_BYTES := 0x1_0000

  /** U+FFFD. */
  const REPLACEMENT: Text := [0xEF, 0xBF, 0xBD]

  /** The hub's truncation: cut, then drop bytes until the rest is valid. */
  method BoundRPCText(value: Text, limit: nat) returns (r: Text)
    ensures |value| <= limit ==> r == value
    ensures |value| > limit ==> |r| <= limit && r == value[..|r|] && IsLongest(value, limit, |r|)
  {
    if |value| <= limit {
      return value;
    }
    r := CutBack(value, limit);
  }

  method CutBack(value: Text, limit: nat) returns (r: Text)
    requires limit < |value|
    ensures |r| <= limit && r == value[..|r|] && IsLongest(value, limit, |r|)
  {
    r := value[..limit];
    while |r| > 0 && !Valid(r)
      invariant |r| <= limit && r == value[..|r|]
      invariant forall j | |r| < j <= limit :: !Valid(value[..j])
      decreases |r|
    {
      r := r[..|r| - 1];
    }
  }

  /** The agent's truncation: repair with U+FFFD, cut, drop bytes until valid. */
  method BoundValidUTF8(value: Text, limit: nat) returns (r: Text)
    ensures var repaired := Repair(value, REPLACEMENT, false);
            if |repaired| <= limit then r == repaired
            else |r| <= limit && r == repaired[..|r|] && IsLongest(repaired, limit, |r|)
    ensures Valid(r)
  {
    var repaired := value;
    RepairIsValid(value, REPLACEMENT, false);
    if !Valid(value) {
      repaired := Repair(value, REPLACEMENT, false);
    } else {
      RepairKeepsValid(value, REPLACEMENT);
    }
    if |repaired| <= limit {
      return repaired;
    }
    r := CutBack(repaired, limit);
  }

  /** The server's truncation for the model: drop invalid bytes, then step back to
      the start of a character. */
  method BoundedString(value: Text, maximum: nat) returns (r: Text)
    ensures var repaired := Repair(value, [], false);
            if |repaired| <= maximum then r == repaired
            else |r| <= maximum && r == repaired[..|r|] && IsLongest(repaired, maximum, |r|)
    ensures r == BoundedPrefix(value, maximum)
  {
    BoundedPrefixIsLongest(value, maximum);
    var repaired := Repair(value, [], false);
    if |repaired| <= maximum {
      return repaired;
    }
    var cut := maximum;
    while cut > 0 && !RuneStart(repaired[cut])
      invariant 0 <= cut <= maximum && StepBack(repaired, maximum) == StepBack(repaired, cut)
    {
      cut := cut - 1;
    }
    r := repaired[..cut];
  }

  /** Where stepping back from a position to the start of a character stops. */
  function StepBack(s: Text, from: nat): (k: nat)
    requires from < |s|
    ensures k <= from
  {
    if from == 0 || RuneStart(s[from]) then from else StepBack(s, from - 1)
  }

  lemma {:induction false} StepBackIsLongest(s: Text, from: nat)
    requires Valid(s) && from < |s|
    ensures IsLongest(s, from, StepBack(s, from))
    decreases from
  {
    CutIsValidIff(s, from);
    if from == 0 {
      assert s[..0] == [];
    } else if !RuneStart(s[from]) {
      StepBackIsLongest(s, from - 1);
    }
  }

  function BoundedPrefix(value: Text, maximum: nat): Text {
    var repaired := Repair(value, [], false);
    if |repaired| <= maximum then repaired else repaired[..StepBack(repaired, maximum)]
  }

  lemma BoundedPrefixIsLongest(value: Text, maximum: nat)
    ensures var repaired, r := Repair(value, [], false), BoundedPrefix(value, maximum);
            if |repaired| <= maximum then r == repaired
            else |r| <= maximum && r == repaired[..|r|] && IsLongest(repaired, maximum, |r|)
  {
    RepairIsValid(value, [], false);
    var repaired := Repair(value, [], false);
    if |repaired| > maximum {
      StepBackIsLongest(repaired, maximum);
    }
  }

  /** What each of the three returns on valid text. */
  ghost predicate IsBoundOf(value: Text, limit: nat, r: Text) {
    |r| <= limit && |r| <= |value| && r == value[..|r|] && IsLongest(value, limit, |r|)
  }

  /** On valid text the three truncations return the same, a longest valid prefix
      at most three bytes short of the limit, and truncating again changes nothing. */
  method TruncationsAgree(value: Text, limit: nat) returns (hub: Text, agent: Text, server: Text)
    requires Valid(value)
    ensures hub == agent == server && IsBoundOf(value, limit, hub)
    ensures if |value| <= limit then hub == value else limit - |hub| <= 3
  {
    RepairKeepsValid(value, REPLACEMENT);
    RepairKeepsValid(value, []);
    hub := BoundRPCText(value, limit);
    agent := BoundValidUTF8(value, limit);
    server := BoundedString(value, limit);
    assert value[..|value|] == value;
    LongestIsUnique(value, limit, |hub|, |agent|);
    LongestIsUnique(value, limit, |hub|, |server|);
    LongestIsClose(value, limit, |hub|);
  }

  lemma BoundIsIdempotent(value: Text, limit: nat, r: Text, again: Text)
    requires IsBoundOf(value, limit, r) && IsBoundOf(r, limit, again)
    ensures again == r
  {
    assert r[..|r|] == r;
    LongestIsUnique(r, limit, |r|, |again|);
  }

  // ---------------------------------------------------------------------
  // Script output: writer, agent bound, hub bound
  // ---------------------------------------------------------------------

  /** Keeps the first limit bytes of everything written. */
  class BoundedWriter {
    const limit: nat
    var buf: Text
    var truncated: bool
    ghost var stream: Text

    ghost predicate Valid()
      reads this
    {
      buf == stream[..Kept(stream, limit)] && (truncated <==> |stream| > limit)
    }

    constructor (limit: nat)
      ensures Valid() && this.limit == limit && stream == []
    {
      this.limit, buf, truncated, stream := limit, [], false, [];
    }

    method Write(data: Text) returns (written: nat)
      requires Valid()
      modifies this
      ensures Valid() && stream == old(stream) + data && written == |data|
    {
      var remaining := limit - |buf|;
      ghost var before := buf;
      if remaining > 0 {
        var keep := if |data| > remaining then remaining else |data|;
        buf := buf + data[..keep];
      }
      if |data| > remaining {
        truncated := true;
      }
      stream := stream + data;
      written := |data|;
    }
  }

  function Kept(stream: Text, limit: nat): (n: nat)
    ensures n <= |stream|
  {
    if |stream| <= limit then |stream| else limit
  }

  /** The output part of a run: bound what the writer kept and merge the flags. */
  method RunOutput(w: BoundedWriter) returns (output: Text, truncated: bool)
    requires w.Valid() && w.limit == MAX_OUTPUT_BYTES
    ensures
      var kept := w.stream[..Kept(w.stream, 0x1_0000)];
      var repaired := Repair(kept, REPLACEMENT, false);
      && (if |repaired| <= 0x1_0000 then output == repaired else IsBoundOf(repaired, 0x1_0000, output))
      && (truncated <==> |w.stream| > 0x1_0000 || |output| < |kept|)
    ensures Valid(w.stream) ==> output == ExpectedOutput(w.stream)
    ensures Valid(w.stream) ==> (truncated <==> output != w.stream)
    ensures |output| <= MAX_OUTPUT_BYTES && Valid(output)
  {
    output := BoundValidUTF8(w.buf, MAX_OUTPUT_BYTES);
    truncated := w.truncated || |output| < |w.buf|;
    if Valid(w.stream) {
      assert w.stream[..|w.stream|] == w.stream;
      if |w.stream| <= MAX_OUTPUT_BYTES {
        RepairKeepsValid(w.stream, REPLACEMENT);
      } else {
        RepairedCut(w.stream, MAX_OUTPUT_BYTES, output);
      }
    }
  }

  /** The longest valid prefix, as a function. */
  ghost function Longest(s: Text, limit: nat): (k: nat)
    requires Valid(s)
    ensures IsLongest(s, limit, k)
  {
    LongestExists(s, limit);
    var k: nat :| IsLongest(s, limit, k);
    k
  }

  lemma {:induction false} LongestExists(s: Text, limit: nat)
    requires Valid(s)
    ensures exists k: nat :: IsLongest(s, limit, k)
    decreases limit
  {
    var top := Kept(s, limit);
    if Valid(s[..top]) {
      assert IsLongest(s, limit, top);
    } else {
      assert s[..0] == [] && s[..|s|] == s;
      LongestExists(s, top - 1);
      var k: nat :| IsLongest(s, top - 1, k);
      assert IsLongest(s, limit, k);
    }
  }

  /** What is reported for valid output: all of it if it fits, else its longest
      valid prefix, which is followed by U+FFFD exactly when the cut leaves three
      bytes of a four-byte character, since only then the replacement fits. */
  ghost function ExpectedOutput(stream: Text): Text
    requires Valid(stream)
  {
    if |stream| <= MAX_OUTPUT_BYTES then stream
    else
      var k := Longest(stream, MAX_OUTPUT_BYTES);
      stream[..k] + if MAX_OUTPUT_BYTES - k == 3 then REPLACEMENT else []
  }

  lemma CutTailHasNoRune(s: Text, limit: nat, k: nat)
    requires Valid(s) && limit < |s| && IsLongest(s, limit, k)
    ensures Valid(s[k..]) && (k < limit ==> RuneLen(s[k..]) > limit - k)
  {
    assert s == s[..k] + s[k..];
    ValidConcat(s[..k], s[k..]);
    if k < limit {
      var n := RuneLen(s[k..]);
      if n <= limit - k {
        RuneIsLocal(s[k..], s[k..][..n]);
        assert s[k..][..n][n..] == [];
        assert Valid(s[k..][..n]);
        assert s[..k] + s[k..][..n] == s[..k + n];
        ValidConcat(s[..k], s[k..][..n]);
        assert false;
      }
    }
  }

  /** Repairing the bytes of a cut character gives one replacement. */
  lemma PartialRuneRepair(s: Text, m: nat)
    requires RuneLen(s) > m && m > 0
    ensures Repair(s[..m], REPLACEMENT, false) == REPLACEMENT
  {
    RuneShape(s);
    OnlyContinuations(s[..m][1..]);
    assert REPLACEMENT + [] == REPLACEMENT;
  }

  lemma {:induction false} OnlyContinuations(t: Text)
    requires forall i | 0 <= i < |t| :: Continuation(t[i])
    ensures Repair(t, REPLACEMENT, true) == []
    decreases |t|
  {
    if t != [] {
      assert LeadLength(t[0]) == 0;
      OnlyContinuations(t[1..]);
    }
  }

  lemma RepairedCut(s: Text, limit: nat, output: Text)
    requires Valid(s) && limit < |s| && limit == MAX_OUTPUT_BYTES
    requires var repaired := Repair(s[..limit], REPLACEMENT, false);
             if |repaired| <= limit then output == repaired
             else |output| <= limit && output == repaired[..|output|] && IsLongest(repaired, limit, |output|)
    ensures output == ExpectedOutput(s)
  {
    var k := Longest(s, limit);
    var tail := s[k..][..limit - k];
    assert s[..limit] == s[..k] + tail;
    CutTailHasNoRune(s, limit, k);
    LongestIsClose(s, limit, k);
    if k == limit {
      assert s[..k] + [] == s[..k];
      RepairKeepsValid(s[..limit], REPLACEMENT);
    } else {
      PartialRuneRepair(s[k..], limit - k);
      if k > 0 { RepairKeepsValidFront(s[..k], tail, REPLACEMENT, false); }
      assert Repair(s[..limit], REPLACEMENT, false) == s[..k] + REPLACEMENT;
      ShortReplacement(s[..k], limit, output);
    }
  }

  /** U+FFFD after a valid prefix either fits or is dropped whole. */
  lemma ShortReplacement(a: Text, limit: nat, output: Text)
    requires Valid(a) && |a| < limit <= |a| + 3
    requires if |a| + 3 <= limit then output == a + REPLACEMENT
             else |output| <= limit && output == (a + REPLACEMENT)[..|output|] && IsLongest(a + REPLACEMENT, limit, |output|)
    ensures output == a + if limit - |a| == 3 then REPLACEMENT else []
  {
    var t := a + REPLACEMENT;
    assert t[..|a|] == a;
    assert Valid(REPLACEMENT);
    ValidConcat(a, REPLACEMENT);
    if limit < |a| + 3 {
      forall j | |a| < j <= limit ensures !Valid(t[..j]) {
        CutIsValidIff(t, j);
        assert t[j] == REPLACEMENT[j - |a|];
      }
      LongestIsUnique(t, limit, |a|, |output|);
    }
  }

  /** The hub's second bound leaves what the agent sends as it is. */
  method HubKeepsAgentOutput(w: BoundedWriter) returns (sent: Text, kept: Text)
    requires w.Valid() && w.limit == MAX_OUTPUT_BYTES
    ensures kept == sent
  {
    var truncated;
    sent, truncated := RunOutput(w);
    kept := BoundRPCText(sent, MAX_OUTPUT_BYTES);
  }
}
