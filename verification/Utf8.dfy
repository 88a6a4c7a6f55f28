/** UTF-8 validity (section 4 of RFC 3629) over bytes, the repair of invalid text,
    and the longest valid prefix within a limit. */
module Utf8 {

  type byte = b: int | 0 <= b < 256

  type Text = seq<byte>

  predicate Continuation(b: byte) {
    0x80 <= b <= 0xBF
  }

  /** The bytes a character can start at. */
  predicate RuneStart(b: byte) {
    !Continuation(b)
  }

  /** How many bytes a character with this first byte has; 0 for no character. */
  function LeadLength(b: byte): nat {
    if b < 0x80 then 1
    else if 0xC2 <= b <= 0xDF then 2
    else if 0xE0 <= b <= 0xEF then 3
    else if 0xF0 <= b <= 0xF4 then 4
    else 0
  }

  /** The second byte excludes overlong forms, surrogates and what lies past U+10FFFF. */
  predicate SecondByte(lead: byte, b: byte) {
    if lead == 0xE0 then 0xA0 <= b <= 0xBF
    else if lead == 0xED then 0x80 <= b <= 0x9F
    else if lead == 0xF0 then 0x90 <= b <= 0xBF
    else if lead == 0xF4 then 0x80 <= b <= 0x8F
    else Continuation(b)
  }

  /** The length of the character at the front of s, or 0 if there is none. */
  function RuneLen(s: Text): (n: nat)
    ensures n <= |s| && n <= 4
  {
    if s == [] then 0
    else
      var n := LeadLength(s[0]);
      if |s| < n then 0
      else if n >= 2 && !SecondByte(s[0], s[1]) then 0
      else if n >= 3 && !Continuation(s[2]) then 0
      else if n == 4 && !Continuation(s[3]) then 0
      else n
  }

  predicate Valid(s: Text) {
    s == [] || (RuneLen(s) > 0 && Valid(s[RuneLen(s)..]))
  }

  // ---------------------------------------------------------------------
  // Prefixes of valid text
  // ---------------------------------------------------------------------

  lemma RuneIsLocal(s: Text, t: Text)
    requires RuneLen(s) > 0 && |t| >= RuneLen(s) && t[..RuneLen(s)] == s[..RuneLen(s)]
    ensures RuneLen(t) == RuneLen(s)
  {
    var n := RuneLen(s);
    assert forall i | 0 <= i < n :: t[i] == t[..n][i] == s[i];
  }

  lemma RuneShape(s: Text)
    requires RuneLen(s) > 0
    ensures RuneStart(s[0]) && forall i | 0 < i < RuneLen(s) :: Continuation(s[i])
    ensures forall k | 0 < k < RuneLen(s) :: RuneLen(s[..k]) == 0
  {
  }

  lemma {:induction false} ValidConcat(a: Text, b: Text)
    requires Valid(a)
    ensures Valid(a + b) <==> Valid(b)
    decreases |a|
  {
    if a == [] {
      assert a + b == b;
    } else {
      var n := RuneLen(a);
      assert (a + b)[..n] == a[..n];
      RuneIsLocal(a, a + b);
      assert (a + b)[n..] == a[n..] + b;
      ValidConcat(a[n..], b);
    }
  }

  /** In valid text the places where it may be cut are the character starts. */
  lemma {:induction false} CutIsValidIff(s: Text, k: nat)
    requires Valid(s) && k <= |s|
    ensures Valid(s[..k]) <==> k == |s| || RuneStart(s[k])
    decreases |s|
  {
    if s != [] && k > 0 {
      var n := RuneLen(s);
      RuneShape(s);
      if k < n {
        assert RuneLen(s[..k]) == 0;
      } else {
        assert s[..k][..n] == s[..n];
        RuneIsLocal(s, s[..k]);
        assert s[..k][n..] == s[n..][..k - n];
        CutIsValidIff(s[n..], k - n);
        if k < |s| { assert s[n..][k - n] == s[k]; }
      }
    } else if s != [] {
      RuneShape(s);
    }
  }

  ghost predicate IsLongest(s: Text, limit: nat, k: nat) {
    && k <= limit && k <= |s| && Valid(s[..k])
    && forall j | k < j <= limit && j <= |s| :: !Valid(s[..j])
  }

  /** Some cut lies within three bytes below any position of valid text. */
  lemma {:induction false} CutNearby(s: Text, limit: nat) returns (k: nat)
    requires Valid(s) && limit <= |s|
    ensures k <= limit && limit - k <= 3 && Valid(s[..k])
    decreases |s|
  {
    if s == [] || limit < RuneLen(s) {
      k := 0;
      assert s[..0] == [];
    } else {
      var n := RuneLen(s);
      var rest := CutNearby(s[n..], limit - n);
      k := n + rest;
      assert s[..k] == s[..n] + s[n..][..rest];
      assert s[..n][n..] == [];
      RuneIsLocal(s, s[..n]);
      assert Valid(s[..n]);
      ValidConcat(s[..n], s[n..][..rest]);
    }
  }

  lemma LongestIsUnique(s: Text, limit: nat, a: nat, b: nat)
    requires IsLongest(s, limit, a) && IsLongest(s, limit, b)
    ensures a == b
  {
  }

  /** The longest valid prefix loses at most three bytes of valid text. */
  lemma LongestIsClose(s: Text, limit: nat, k: nat)
    requires Valid(s) && IsLongest(s, limit, k)
    ensures if |s| <= limit then k == |s| else limit - k <= 3
  {
    assert s[..|s|] == s;
    if |s| > limit {
      var near := CutNearby(s, limit);
    }
  }

  // ---------------------------------------------------------------------
  // Repair
  // ---------------------------------------------------------------------

  /** Each run of bytes that start no character becomes one replacement. */
  function Repair(s: Text, replacement: Text, inRun: bool): Text
    decreases |s|
  {
    if s == [] then []
    else if RuneLen(s) > 0 then s[..RuneLen(s)] + Repair(s[RuneLen(s)..], replacement, false)
    else (if inRun then [] else replacement) + Repair(s[1..], replacement, true)
  }

  lemma {:induction false} RepairIsValid(s: Text, replacement: Text, inRun: bool)
    requires Valid(replacement)
    ensures Valid(Repair(s, replacement, inRun))
    decreases |s|
  {
    if s != [] {
      var n := RuneLen(s);
      if n > 0 {
        RuneIsLocal(s, s[..n]);
        assert s[..n][n..] == [];
        assert Valid(s[..n]);
        RepairIsValid(s[n..], replacement, false);
        ValidConcat(s[..n], Repair(s[n..], replacement, false));
      } else {
        RepairIsValid(s[1..], replacement, true);
        ValidConcat(if inRun then [] else replacement, Repair(s[1..], replacement, true));
      }
    }
  }

  lemma Reassociate(a: Text, n: nat, t: Text)
    requires n <= |a|
    ensures a[..n] + (a[n..] + t) == a + t
  {
    assert a == a[..n] + a[n..];
  }

  /** Valid text in front is kept as it is. */
  lemma {:induction false} RepairKeepsValidFront(a: Text, b: Text, replacement: Text, inRun: bool)
    requires Valid(a) && a != []
    ensures Repair(a + b, replacement, inRun) == a + Repair(b, replacement, false)
    decreases |a|
  {
    var n := RuneLen(a);
    assert (a + b)[..n] == a[..n];
    RuneIsLocal(a, a + b);
    assert (a + b)[n..] == a[n..] + b;
    var repaired := Repair(b, replacement, false);
    if a[n..] == [] {
      assert a[n..] + b == b && a[..n] == a;
    } else {
      RepairKeepsValidFront(a[n..], b, replacement, false);
      Reassociate(a, n, repaired);
    }
  }

  lemma RepairKeepsValid(s: Text, replacement: Text)
    requires Valid(s)
    ensures Repair(s, replacement, false) == s
  {
    if s != [] {
      RepairKeepsValidFront(s, [], replacement, false);
      assert s + [] == s;
    }
  }

  lemma NotInRun(s: Text, replacement: Text, inRun: bool)
    requires s == [] || RuneLen(s) > 0
    ensures Repair(s, replacement, inRun) == Repair(s, replacement, false)
  {
  }

  /** No character starts among the bytes of bad when rest follows. */
  predicate NoRuneIn(bad: Text, rest: Text) {
    forall i | 0 <= i < |bad| :: RuneLen(bad[i..] + rest) == 0
  }

  lemma {:induction false} RepairSkips(bad: Text, rest: Text, replacement: Text)
    requires NoRuneIn(bad, rest)
    ensures Repair(bad + rest, replacement, true) == Repair(rest, replacement, true)
    decreases |bad|
  {
    if bad == [] {
      assert bad + rest == rest;
    } else {
      assert bad[0..] + rest == bad + rest && (bad + rest)[1..] == bad[1..] + rest;
      forall i | 0 <= i < |bad[1..]| ensures RuneLen(bad[1..][i..] + rest) == 0 {
        assert bad[1..][i..] == bad[i + 1..];
      }
      RepairSkips(bad[1..], rest, replacement);
    }
  }

  lemma RepairRun(bad: Text, rest: Text, replacement: Text)
    requires bad != [] && NoRuneIn(bad, rest) && (rest == [] || RuneLen(rest) > 0)
    ensures Repair(bad + rest, replacement, false) == replacement + Repair(rest, replacement, false)
  {
    assert bad[0..] + rest == bad + rest;
    RepairSkips(bad, rest, replacement);
    NotInRun(rest, replacement, true);
  }

  /** Valid text, a whole run of bytes that start no character, and the rest: the text
      stays, the run becomes one replacement, and the rest is repaired by itself. */
  lemma RepairPieces(a: Text, bad: Text, rest: Text, replacement: Text)
    requires Valid(a) && bad != [] && NoRuneIn(bad, rest) && (rest == [] || RuneLen(rest) > 0)
    ensures Repair(a + (bad + rest), replacement, false) == a + (replacement + Repair(rest, replacement, false))
  {
    RepairRun(bad, rest, replacement);
    if a == [] {
      assert a + (bad + rest) == bad + rest;
    } else {
      RepairKeepsValidFront(a, bad + rest, replacement, false);
    }
  }

  // ---------------------------------------------------------------------
  // What the bytes mean
  // ---------------------------------------------------------------------

  /** A code point that is not a surrogate. */
  predicate Scalar(c: nat) {
    c <= 0x10FFFF && !(0xD800 <= c <= 0xDFFF)
  }

  /** The table of section 3 of RFC 3629. */
  function EncodeRune(c: nat): Text
    requires Scalar(c)
  {
    if c < 0x80 then [c]
    else if c < 0x800 then [0xC0 + c / 0x40, 0x80 + c % 0x40]
    else if c < 0x1_0000 then [0xE0 + c / 0x40 / 0x40, 0x80 + c / 0x40 % 0x40, 0x80 + c % 0x40]
    else [0xF0 + c / 0x40 / 0x40 / 0x40, 0x80 + c / 0x40 / 0x40 % 0x40, 0x80 + c / 0x40 % 0x40, 0x80 + c % 0x40]
  }

  predicate Scalars(cs: seq<nat>) {
    forall i | 0 <= i < |cs| :: Scalar(cs[i])
  }

  function EncodeRunes(cs: seq<nat>): Text
    requires Scalars(cs)
  {
    if cs == [] then [] else EncodeRune(cs[0]) + EncodeRunes(cs[1..])
  }

  lemma EncodedIsRune(c: nat)
    requires Scalar(c)
    ensures EncodeRune(c) != [] && RuneLen(EncodeRune(c)) == |EncodeRune(c)|
  {
  }

  /** Every character found is the encoding of a code point. */
  lemma RuneIsEncoded(s: Text) returns (c: nat)
    requires RuneLen(s) > 0
    ensures Scalar(c) && EncodeRune(c) == s[..RuneLen(s)]
  {
    match RuneLen(s)
    case 1 =>
      c := s[0];
    case 2 =>
      c := TwoBytes(s[0], s[1]);
    case 3 =>
      c := ThreeBytes(s[0], s[1], s[2]);
    case _ =>
      c := FourBytes(s[0], s[1], s[2], s[3]);
  }

  lemma Parts(high: nat, low: nat)
    requires low < 0x40
    ensures (high * 0x40 + low) / 0x40 == high && (high * 0x40 + low) % 0x40 == low
  {
  }

  lemma TwoBytes(x: byte, y: byte) returns (c: nat)
    requires 0xC2 <= x <= 0xDF && SecondByte(x, y)
    ensures Scalar(c) && EncodeRune(c) == [x, y]
  {
    c := (x - 0xC0) * 0x40 + (y - 0x80);
    Parts(x - 0xC0, y - 0x80);
  }

  lemma ThreeBytes(x: byte, y: byte, z: byte) returns (c: nat)
    requires 0xE0 <= x <= 0xEF && SecondByte(x, y) && Continuation(z)
    ensures Scalar(c) && EncodeRune(c) == [x, y, z]
  {
    var high: nat := (x - 0xE0) * 0x40 + (y - 0x80);
    c := high * 0x40 + (z - 0x80);
    Parts(x - 0xE0, y - 0x80);
    Parts(high, z - 0x80);
  }

  lemma FourBytes(x: byte, y: byte, z: byte, w: byte) returns (c: nat)
    requires 0xF0 <= x <= 0xF4 && SecondByte(x, y) && Continuation(z) && Continuation(w)
    ensures Scalar(c) && EncodeRune(c) == [x, y, z, w]
  {
    var high: nat := (x - 0xF0) * 0x40 + (y - 0x80);
    var middle: nat := high * 0x40 + (z - 0x80);
    c := middle * 0x40 + (w - 0x80);
    Parts(x - 0xF0, y - 0x80);
    Parts(high, z - 0x80);
    Parts(middle, w - 0x80);
  }

  lemma {:induction false} EncodedIsValid(cs: seq<nat>)
    requires Scalars(cs)
    ensures Valid(EncodeRunes(cs))
    decreases |cs|
  {
    if cs != [] {
      var front, rest := EncodeRune(cs[0]), EncodeRunes(cs[1..]);
      EncodedIsRune(cs[0]);
      assert front[|front|..] == [];
      EncodedIsValid(cs[1..]);
      ValidConcat(front, rest);
    }
  }

  lemma {:induction false} ValidIsEncoded(s: Text) returns (cs: seq<nat>)
    requires Valid(s)
    ensures Scalars(cs) && EncodeRunes(cs) == s
    decreases |s|
  {
    if s == [] {
      cs := [];
    } else {
      var c := RuneIsEncoded(s);
      var rest := ValidIsEncoded(s[RuneLen(s)..]);
      cs := [c] + rest;
      assert cs[1..] == rest && s == s[..RuneLen(s)] + s[RuneLen(s)..];
    }
  }

  /** Text is valid exactly if it is the encoding of some code points. */
  lemma ValidIffEncoded(s: Text)
    ensures Valid(s) <==> exists cs: seq<nat> :: Scalars(cs) && EncodeRunes(cs) == s
  {
    if Valid(s) {
      var cs := ValidIsEncoded(s);
    }
    forall cs: seq<nat> | Scalars(cs) && EncodeRunes(cs) == s ensures Valid(s) {
      EncodedIsValid(cs);
    }
  }
}
