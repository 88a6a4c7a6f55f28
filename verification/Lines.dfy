/** Bytes cut after every newline, the way bytes.SplitAfter and a reader's
    ReadString cut them, without empty pieces. */
module Lines {
  import opened Utf8

  const NEWLINE: byte := 0x0A

  function Join(parts: seq<Text>): Text {
    if parts == [] then [] else parts[0] + Join(parts[1..])
  }

  function Size(parts: seq<Text>): nat {
    if parts == [] then 0 else |parts[0]| + Size(parts[1..])
  }

  /** How many bytes the first line takes, its newline included. */
  function LineLen(data: Text): (n: nat)
    ensures n <= |data| && (data != [] ==> n > 0)
    ensures forall i :: 0 <= i < n - 1 ==> data[i] != NEWLINE
    ensures n < |data| ==> n > 0 && data[n - 1] == NEWLINE
  {
    if data == [] then 0 else if data[0] == NEWLINE then 1 else 1 + LineLen(data[1..])
  }

  function Split(data: Text): (parts: seq<Text>)
    decreases |data|
  {
    if data == [] then [] else [data[..LineLen(data)]] + Split(data[LineLen(data)..])
  }

  predicate Ended(line: Text) {
    line != [] && line[|line| - 1] == NEWLINE
  }

  /** A nonempty piece whose only newline, if any, is its last byte. */
  predicate OneLine(line: Text) {
    line != [] && forall i :: 0 <= i < |line| - 1 ==> line[i] != NEWLINE
  }

  /** Pieces that are lines, all of them ended but perhaps the last. */
  predicate AreLines(parts: seq<Text>) {
    && (forall i :: 0 <= i < |parts| ==> OneLine(parts[i]))
    && (forall i :: 0 <= i < |parts| - 1 ==> Ended(parts[i]))
  }

  lemma {:induction false} SplitIsLines(data: Text)
    ensures AreLines(Split(data)) && Join(Split(data)) == data
    decreases |data|
  {
    if data != [] {
      var line, rest := data[..LineLen(data)], data[LineLen(data)..];
      SplitIsLines(rest);
      FirstIsLine(data);
      LineInFront(line, Split(rest));
      assert ([line] + Split(rest))[1..] == Split(rest) && data == line + rest;
    }
  }

  lemma FirstIsLine(data: Text)
    requires data != []
    ensures OneLine(data[..LineLen(data)])
    ensures data[LineLen(data)..] != [] ==> Ended(data[..LineLen(data)])
    ensures data[LineLen(data)..] == [] ==> Split(data[LineLen(data)..]) == []
  {
  }

  lemma LineInFront(line: Text, rest: seq<Text>)
    requires OneLine(line) && AreLines(rest) && (rest != [] ==> Ended(line))
    ensures AreLines([line] + rest)
  {
    var parts := [line] + rest;
    forall i | 0 <= i < |parts| ensures OneLine(parts[i]) && (i < |parts| - 1 ==> Ended(parts[i])) {
      assert i > 0 ==> parts[i] == rest[i - 1];
    }
  }

  /** There is only one way to cut bytes into lines. */
  lemma {:induction false} SplitIsUnique(data: Text, parts: seq<Text>)
    requires AreLines(parts) && Join(parts) == data
    ensures parts == Split(data)
    decreases |parts|
  {
    if parts != [] {
      var line, rest := parts[0], Join(parts[1..]);
      assert AreLines(parts[1..]) by {
        assert forall i :: 0 <= i < |parts| - 1 ==> parts[1..][i] == parts[i + 1];
      }
      FirstLine(line, rest, |parts| == 1);
      SplitIsUnique(rest, parts[1..]);
    }
  }

  lemma {:induction false} FirstLine(line: Text, rest: Text, last: bool)
    requires OneLine(line) && (if last then rest == [] else Ended(line))
    ensures LineLen(line + rest) == |line| && (line + rest)[..|line|] == line && (line + rest)[|line|..] == rest
    decreases |line|
  {
    var data := line + rest;
    if line[0] != NEWLINE {
      assert data[1..] == line[1..] + rest;
      if |line| > 1 {
        FirstLine(line[1..], rest, last);
      } else {
        assert last && data[1..] == [];
      }
    } else {
      assert |line| == 1;
    }
  }

  lemma {:induction false} JoinSize(parts: seq<Text>)
    ensures |Join(parts)| == Size(parts)
  {
    if parts != [] {
      JoinSize(parts[1..]);
    }
  }

  lemma {:induction false} JoinAppends(a: seq<Text>, b: seq<Text>)
    ensures Join(a + b) == Join(a) + Join(b) && Size(a + b) == Size(a) + Size(b)
    decreases |a|
  {
    if a == [] {
      assert a + b == b;
    } else {
      JoinAppends(a[1..], b);
      assert (a + b)[1..] == a[1..] + b;
    }
  }
}
