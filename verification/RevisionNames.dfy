/** The file names of numbered revisions, and how a directory listing is read
    back into numbers. */
module RevisionNames {
  import opened Wrappers

  const SUFFIX := "-compose.yaml"
  const WIDTH := 6
  const MAX_INT := 0x7FFF_FFFF_FFFF_FFFF

  predicate Digit(c: char) {
    '0' <= c <= '9'
  }

  predicate Digits(s: string) {
    forall i :: 0 <= i < |s| ==> Digit(s[i])
  }

  function DigitChar(d: nat): (c: char)
    requires d < 10
    ensures Digit(c) && DigitValue(c) == d
  {
    "0123456789"[d]
  }

  function DigitValue(c: char): (d: nat)
    requires Digit(c)
    ensures d < 10
  {
    c as int - '0' as int
  }

  function Decimal(n: nat): (s: string)
    ensures Digits(s) && s != ""
  {
    if n < 10 then [DigitChar(n)] else Decimal(n / 10) + [DigitChar(n % 10)]
  }

  function Padded(s: string, width: nat): (p: string)
    ensures Digits(s) ==> Digits(p)
    decreases width - |s|
  {
    if |s| >= width then s else Padded("0" + s, width)
  }

  function Value(s: string): nat
    requires Digits(s)
  {
    if s == "" then 0 else 10 * Value(s[..|s| - 1]) + DigitValue(s[|s| - 1])
  }

  /** The zero-padded name of a revision. */
  function FileName(number: nat): string {
    Padded(Decimal(number), WIDTH) + SUFFIX
  }

  /** strconv.Atoi: an optional sign, then digits; None when out of range. */
  function Atoi(s: string): Option<int> {
    var signed := s != "" && (s[0] == '+' || s[0] == '-');
    var digits := if signed then s[1..] else s;
    if digits == "" || !Digits(digits) then None
    else
      var n: int := if signed && s[0] == '-' then 0 - (Value(digits) as int) else Value(digits);
      if -MAX_INT - 1 <= n <= MAX_INT then Some(n) else None
  }

  predicate HasSuffix(name: string) {
    |name| >= |SUFFIX| && name[|name| - |SUFFIX|..] == SUFFIX
  }

  /** The number a directory entry stands for, or None for an entry to skip. */
  function Parse(name: string): Option<int> {
    if !HasSuffix(name) then None
    else
      var number := Atoi(name[..|name| - |SUFFIX|]);
      if number.None? || number.value < 1 || FileName(number.value) != name then None else number
  }

  lemma {:induction false} ValueOfDecimal(n: nat)
    ensures Value(Decimal(n)) == n
  {
    if n >= 10 {
      ValueOfDecimal(n / 10);
      assert Decimal(n)[..|Decimal(n)| - 1] == Decimal(n / 10);
    } else {
      assert Decimal(n)[..0] == "";
    }
  }

  lemma {:induction false} LeadingZero(s: string)
    requires Digits(s)
    ensures Value("0" + s) == Value(s)
    decreases |s|
  {
    var t := "0" + s;
    if s == "" {
      assert t[..0] == "";
    } else {
      LeadingZero(s[..|s| - 1]);
      assert t[..|t| - 1] == "0" + s[..|s| - 1];
    }
  }

  lemma {:induction false} PaddingKeepsValue(s: string, width: nat)
    requires Digits(s)
    ensures Value(Padded(s, width)) == Value(s) && |Padded(s, width)| >= |s|
    decreases width - |s|
  {
    if |s| < width {
      LeadingZero(s);
      PaddingKeepsValue("0" + s, width);
    }
  }

  lemma {:induction false} NoLeadingZero(n: nat)
    ensures n > 0 ==> Decimal(n)[0] != '0'
  {
    if n >= 10 {
      NoLeadingZero(n / 10);
    }
  }

  lemma {:induction false} PaddingIsZeros(s: string, width: nat)
    requires Digits(s)
    ensures var p := Padded(s, width);
      |p| == (if |s| < width then width else |s|) && p[|p| - |s|..] == s
    ensures forall i | 0 <= i < |Padded(s, width)| - |s| :: Padded(s, width)[i] == '0'
    decreases width - |s|
  {
    if |s| < width {
      PaddingIsZeros("0" + s, width);
      var p := Padded(s, width);
      assert p[|p| - |"0" + s|..] == "0" + s;
      assert p[|p| - |s|..] == p[|p| - |"0" + s|..][1..];
    }
  }

  /** The name is the number in decimal, with zeros in front up to six digits, and the
      suffix. */
  lemma FileNameShape(number: nat) returns (digits: string)
    requires number > 0
    ensures FileName(number) == digits + "-compose.yaml" && Digits(digits) && Value(digits) == number
    ensures |digits| >= 6 && (digits[0] == '0' ==> |digits| == 6)
  {
    var short := Decimal(number);
    digits := Padded(short, WIDTH);
    ValueOfDecimal(number);
    PaddingKeepsValue(short, WIDTH);
    PaddingIsZeros(short, WIDTH);
    NoLeadingZero(number);
    if |digits| > 6 {
      assert digits[0..] == short;
    }
  }

  /** A number goes to a file name and back without loss. */
  lemma ParseOfFileName(number: nat)
    requires 1 <= number <= MAX_INT
    ensures Parse(FileName(number)) == Some(number)
  {
    var text := Padded(Decimal(number), WIDTH);
    ValueOfDecimal(number);
    PaddingKeepsValue(Decimal(number), WIDTH);
    assert FileName(number)[..|text|] == text && FileName(number)[|text|..] == SUFFIX;
    assert Digit(text[0]);
  }

  /** An entry is read as a number exactly when it is that number's file name. */
  lemma ParseIff(name: string, number: int)
    ensures Parse(name) == Some(number) <==> 1 <= number <= MAX_INT && FileName(number) == name
  {
    if 1 <= number <= MAX_INT {
      ParseOfFileName(number);
    }
  }

  lemma FileNamesDiffer(a: nat, b: nat)
    requires FileName(a) == FileName(b)
    ensures a == b
  {
    var x, y := Padded(Decimal(a), WIDTH), Padded(Decimal(b), WIDTH);
    assert FileName(a)[..|x|] == x && FileName(b)[..|y|] == y;
    PaddingKeepsValue(Decimal(a), WIDTH);
    PaddingKeepsValue(Decimal(b), WIDTH);
    ValueOfDecimal(a);
    ValueOfDecimal(b);
  }

  /** Reading a directory: the numbers whose file names are there, each once,
      whatever else lies beside them. */
  method NumbersIn(names: seq<string>) returns (numbers: seq<int>)
    requires forall i, j :: 0 <= i < j < |names| ==> names[i] != names[j]
    ensures forall n: int :: n in numbers <==> 1 <= n <= MAX_INT && FileName(n) in names
    ensures forall i, j :: 0 <= i < j < |numbers| ==> numbers[i] != numbers[j]
  {
    numbers := [];
    for k := 0 to |names|
      invariant forall n: int :: n in numbers <==> 1 <= n <= MAX_INT && FileName(n) in names[..k]
      invariant forall i, j :: 0 <= i < j < |numbers| ==> numbers[i] != numbers[j]
    {
      var number := Parse(names[k]);
      forall n: int ensures number == Some(n) <==> 1 <= n <= MAX_INT && FileName(n) == names[k] {
        ParseIff(names[k], n);
      }
      assert names[..k + 1] == names[..k] + [names[k]];
      if number.Some? {
        assert names[k] !in names[..k];
        numbers := numbers + [number.value];
      }
    }
    assert names[..|names|] == names;
  }
}
