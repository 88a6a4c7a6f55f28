/** The log stream of a container: frames of an 8-byte header and a payload, or
    raw lines, told apart by the first byte. */
module DockerLogs {
  import opened Collections
  import opened Lines
  import opened Utf8

  const HEADER := 8

  datatype Frame = Frame(kind: byte, payload: Text)

  function Be32(n: nat): (bytes: Text)
    requires n < 0x1_0000_0000
    ensures |bytes| == 4
  {
    [n / 0x100 / 0x100 / 0x100, n / 0x100 / 0x100 % 0x100, n / 0x100 % 0x100, n % 0x100]
  }

  function FromBe32(bytes: Text): nat
    requires |bytes| == 4
  {
    ((bytes[0] as nat * 0x100 + bytes[1] as nat) * 0x100 + bytes[2] as nat) * 0x100 + bytes[3] as nat
  }

  lemma Be32RoundTrips(n: nat)
    requires n < 0x1_0000_0000
    ensures FromBe32(Be32(n)) == n
  {
    var a := n / 0x100;
    var b := a / 0x100;
    assert n == a * 0x100 + n % 0x100 && a == b * 0x100 + a % 0x100 && b == b / 0x100 * 0x100 + b % 0x100;
  }

  function EncodeFrame(f: Frame): Text
    requires |f.payload| < 0x1_0000_0000
  {
    [f.kind, 0, 0, 0] + Be32(|f.payload|) + f.payload
  }

  /** The layout of a frame: its kind, three zero bytes, the length with its highest byte
      first, and the payload. */
  lemma FrameLayout(f: Frame)
    requires |f.payload| < 0x1_0000_0000
    ensures
      var e := EncodeFrame(f);
      && |e| == 8 + |f.payload| && e[0] == f.kind && e[1] == e[2] == e[3] == 0 && e[8..] == f.payload
      && (e[4] as int) * 16_777_216 + (e[5] as int) * 65_536 + (e[6] as int) * 256 + e[7] as int == |f.payload|
  {
    Be32RoundTrips(|f.payload|);
  }

  predicate Encodable(frames: seq<Frame>) {
    forall i :: 0 <= i < |frames| ==> |frames[i].payload| < 0x1_0000_0000
  }

  function Encode(frames: seq<Frame>): Text
    requires Encodable(frames)
  {
    if frames == [] then [] else EncodeFrame(frames[0]) + Encode(frames[1..])
  }

  /** The length of the first frame, if the header is all there. */
  function FrameLen(data: Text): nat
    requires |data| >= HEADER
  {
    HEADER + FromBe32(data[4..8])
  }

  predicate FrameReady(data: Text) {
    |data| >= HEADER && |data| >= FrameLen(data)
  }

  function FirstFrame(data: Text): Frame
    requires FrameReady(data)
  {
    Frame(data[0], data[HEADER..FrameLen(data)])
  }

  /** The complete frames at the front, and what is left behind them. */
  function Decode(data: Text): seq<Frame>
    decreases |data|
  {
    if !FrameReady(data) then [] else [FirstFrame(data)] + Decode(data[FrameLen(data)..])
  }

  function Remainder(data: Text): (rest: Text)
    ensures !FrameReady(rest)
    decreases |data|
  {
    if !FrameReady(data) then data else Remainder(data[FrameLen(data)..])
  }

  lemma FirstOfEncoded(f: Frame, rest: Text)
    requires |f.payload| < 0x1_0000_0000
    ensures var data := EncodeFrame(f) + rest;
      Decode(data) == [f] + Decode(rest) && Remainder(data) == Remainder(rest)
  {
    var data := EncodeFrame(f) + rest;
    Be32RoundTrips(|f.payload|);
    assert data[4..8] == Be32(|f.payload|);
    assert data[HEADER..HEADER + |f.payload|] == f.payload;
    assert data[HEADER + |f.payload|..] == rest;
  }

  /** Decoding undoes encoding, and leaves what follows alone. */
  lemma {:induction false} DecodeOfEncode(frames: seq<Frame>, tail: Text)
    requires Encodable(frames)
    ensures Decode(Encode(frames) + tail) == frames + Decode(tail)
    ensures Remainder(Encode(frames) + tail) == Remainder(tail)
    decreases |frames|
  {
    if frames == [] {
      assert Encode(frames) + tail == tail;
    } else {
      DecodeOfEncode(frames[1..], tail);
      Regroup(EncodeFrame(frames[0]), Encode(frames[1..]), tail);
      Regroup([frames[0]], frames[1..], Decode(tail));
      assert [frames[0]] + frames[1..] == frames;
      FirstOfEncoded(frames[0], Encode(frames[1..]) + tail);
    }
  }

  /** More bytes never change the frames already decoded. */
  lemma {:induction false} DecodeGrows(data: Text, more: Text)
    ensures Decode(data) <= Decode(data + more)
    decreases |data|
  {
    if FrameReady(data) {
      var n := FrameLen(data);
      assert (data + more)[4..8] == data[4..8];
      assert (data + more)[HEADER..n] == data[HEADER..n];
      assert (data + more)[n..] == data[n..] + more;
      DecodeGrows(data[n..], more);
    }
  }

  lemma {:induction false} EncodeAppends(a: seq<Frame>, b: seq<Frame>)
    requires Encodable(a) && Encodable(b)
    ensures Encodable(a + b) && Encode(a + b) == Encode(a) + Encode(b)
    decreases |a|
  {
    if a == [] {
      assert a + b == b;
    } else {
      EncodeAppends(a[1..], b);
      assert (a + b)[1..] == a[1..] + b && (a + b)[0] == a[0];
      Regroup(EncodeFrame(a[0]), Encode(a[1..]), Encode(b));
    }
  }

  /** The first k bytes of an encoding are m whole frames and a part of the next. */
  lemma PrefixSplits(frames: seq<Frame>, k: nat, m: nat) returns (part: Text)
    requires Encodable(frames) && m <= |frames|
    requires |Encode(frames[..m])| <= k <= |Encode(frames)|
    requires m == |frames| || k < |Encode(frames[..m + 1])|
    ensures Encode(frames)[..k] == Encode(frames[..m]) + part && !FrameReady(part)
  {
    EncodeAppends(frames[..m], frames[m..]);
    CutAt(frames, m);
    var done, later := Encode(frames[..m]), Encode(frames[m..]);
    FrontOfSum(done, later, k);
    part := later[..k - |done|];
    if m < |frames| {
      EncodeOneMore(frames, m);
      CutInFirst(frames[m..], |part|);
    } else {
      assert later == [];
    }
  }

  /** The first k bytes of an encoding decode to the frames that lie within them,
      all of them and no more, and the rest is left. */
  lemma PrefixDecodes(frames: seq<Frame>, k: nat, m: nat)
    requires Encodable(frames) && m <= |frames|
    requires |Encode(frames[..m])| <= k <= |Encode(frames)|
    requires m == |frames| || k < |Encode(frames[..m + 1])|
    ensures Decode(Encode(frames)[..k]) == frames[..m]
    ensures |Remainder(Encode(frames)[..k])| == k - |Encode(frames[..m])|
  {
    var part := PrefixSplits(frames, k, m);
    DecodeOfEncode(frames[..m], part);
    assert Decode(part) == [];
  }

  lemma CutInFirst(frames: seq<Frame>, k: nat)
    requires frames != [] && Encodable(frames) && k < |EncodeFrame(frames[0])|
    ensures k <= |Encode(frames)| && !FrameReady(Encode(frames)[..k])
  {
    CutFrameIsNotReady(frames[0], k);
    assert Encode(frames)[..k] == EncodeFrame(frames[0])[..k];
  }

  lemma EncodeOneMore(frames: seq<Frame>, m: nat)
    requires Encodable(frames) && m < |frames|
    ensures |Encode(frames[..m + 1])| == |Encode(frames[..m])| + |EncodeFrame(frames[m])|
  {
    EncodeAppends(frames[..m], [frames[m]]);
    assert frames[..m] + [frames[m]] == frames[..m + 1];
    assert Encode([frames[m]]) == EncodeFrame(frames[m]);
  }

  lemma CutFrameIsNotReady(f: Frame, k: nat)
    requires |f.payload| < 0x1_0000_0000 && k < |EncodeFrame(f)|
    ensures !FrameReady(EncodeFrame(f)[..k])
  {
    if k >= HEADER {
      Be32RoundTrips(|f.payload|);
      var whole := EncodeFrame(f);
      assert whole[4..8] == Be32(|f.payload|) && whole[..k][4..8] == whole[4..8];
    }
  }

  // What the session tells its caller

  /** How the stream stops: at its end, or with a read error. */
  datatype End = Eof | Broken

  /** The argument of an onExit call. */
  datatype Exit = NoError | GetError | PeekError | HeaderError | PayloadError | LineError

  datatype Chunk = Chunk(text: Text, stream: string)

  /** The bytes of the notice that there is no output. */
  const NO_OUTPUT: Text := [
    0x28, 0xE5, 0xAE, 0xB9, 0xE5, 0x99, 0xA8, 0xE6, 0xB2, 0xA1, 0xE6, 0x9C, 0x89,
    0xE6, 0x97, 0xA5, 0xE5, 0xBF, 0x97, 0xE8, 0xBE, 0x93, 0xE5, 0x87, 0xBA, 0x29, 0x0A]

  function StreamName(kind: byte): string {
    if kind == 0 then "stdin" else if kind == 1 then "stdout" else if kind == 2 then "stderr" else "unknown"
  }

  function Chunks(frames: seq<Frame>): seq<Chunk> {
    seq(|frames|, i requires 0 <= i < |frames| => Chunk(frames[i].payload, StreamName(frames[i].kind)))
  }

  function Stdout(lines: seq<Text>): seq<Chunk> {
    seq(|lines|, i requires 0 <= i < |lines| => Chunk(lines[i], "stdout"))
  }

  function Texts(chunks: seq<Chunk>): seq<Text> {
    seq(|chunks|, i requires 0 <= i < |chunks| => chunks[i].text)
  }

  /** The lines of data whose newline has arrived. */
  function EndedLines(data: Text): seq<Text> {
    var lines := Split(data);
    if lines == [] || Ended(lines[|lines| - 1]) then lines else lines[..|lines| - 1]
  }

  function Least(a: nat, b: nat): nat {
    if a < b then a else b
  }

  /** A session over one stream. The stream yields `rest` and then ends; the
      context counts as cancelled from pass `patience` of a reading loop on. */
  class LogsSession {
    var rest: Text
    const end: End
    const patience: nat
    var emitted: seq<Chunk>
    var exits: seq<Exit>

    constructor (stream: Text, end: End, patience: nat)
      ensures rest == stream && this.end == end && this.patience == patience && emitted == [] && exits == []
    {
      rest, this.end, this.patience, emitted, exits := stream, end, patience, [], [];
    }

    /** io.ReadFull: n bytes, or none of them and whether the stream ended cleanly. */
    method ReadFull(n: nat) returns (read: Text, ok: bool)
      modifies this`rest
      ensures ok <==> n <= |old(rest)|
      ensures ok ==> read == old(rest)[..n] && rest == old(rest)[n..]
    {
      ok := n <= |rest|;
      if ok {
        read, rest := rest[..n], rest[n..];
      } else {
        read, rest := rest, [];
      }
    }

    method Emit(text: Text, stream: string)
      modifies this`emitted
      ensures emitted == old(emitted) + [Chunk(text, stream)]
    {
      emitted := emitted + [Chunk(text, stream)];
    }

    /** The whole session; `available` tells whether the log stream could be had. The
        deferred call without an error comes last, after any error. */
    method Run(available: bool)
      requires emitted == [] && exits == []
      modifies this
      ensures exits != [] && exits[|exits| - 1] == NoError
      ensures Told(available, old(rest), end, patience, emitted, exits[..|exits| - 1])
    {
      if !available {
        exits := [GetError];
      } else if rest == [] {
        if end.Eof? {
          Emit(NO_OUTPUT, "stdout");
        } else {
          exits := [PeekError];
        }
      } else if rest[0] <= 2 {
        ReadMultiplexed();
      } else {
        ReadRaw();
      }
      ghost var errors := exits;
      exits := exits + [NoError];
      assert exits[..|exits| - 1] == errors;
    }

    method ReadMultiplexed()
      requires emitted == [] && exits == []
      modifies this
      ensures FramesTold(old(rest), end, patience, emitted, exits)
    {
      ghost var data := rest;
      ghost var frames := [];
      var pass := 0;
      while pass < patience
        invariant pass == |frames| <= patience && exits == []
        invariant emitted == Chunks(frames)
        invariant Decode(data) == frames + Decode(rest) && Remainder(data) == Remainder(rest)
        decreases patience - pass
      {
        ghost var before := rest;
        var header, ok := ReadFull(HEADER);
        if !ok {
          assert Decode(before) == [] && Remainder(before) == before;
          assert frames + [] == frames;
          exits := if end.Eof? then [] else [HeaderError];
          return;
        }
        assert header[4..8] == before[4..8];
        var payload;
        payload, ok := ReadFull(FromBe32(header[4..8]));
        if !ok {
          assert Decode(before) == [] && Remainder(before) == before;
          assert frames + [] == frames;
          exits := [PayloadError];
          return;
        }
        ghost var frame := FirstFrame(before);
        assert payload == frame.payload && rest == before[FrameLen(before)..];
        Regroup(frames, [frame], Decode(rest));
        Emit(payload, StreamName(header[0]));
        frames := frames + [frame];
        pass := pass + 1;
      }
      assert frames == Decode(data)[..patience];
    }

    /** ReadString: up to and with the next newline, or all that is left. */
    method ReadLine() returns (line: Text)
      modifies this`rest
      ensures line == old(rest)[..LineLen(old(rest))] && rest == old(rest)[LineLen(old(rest))..]
    {
      var n := LineLen(rest);
      line, rest := rest[..n], rest[n..];
    }

    method ReadRaw()
      requires emitted == [] && exits == []
      modifies this
      ensures LinesTold(old(rest), end, patience, emitted, exits)
    {
      ghost var data := rest;
      ghost var lines := [];
      var pass := 0;
      while pass < patience
        invariant pass == |lines| <= patience && exits == []
        invariant emitted == Stdout(lines)
        invariant Consumed(data, lines, rest)
        decreases patience - pass
      {
        ghost var before := rest;
        var line := ReadLine();
        if !Ended(line) {
          LastLine(before);
          RawEnd(data, lines, before);
          if end.Broken? {
            exits := [LineError];
          } else if |line| > 0 {
            Emit(line, "stdout");
            StdoutAppends(lines, line);
          }
          return;
        }
        OneMoreLine(data, lines, before, line);
        StdoutAppends(lines, line);
        Emit(line, "stdout");
        lines := lines + [line];
        pass := pass + 1;
      }
      EndedOnly(data, lines, Split(rest));
    }
  }

  /** The lines of data are those told so far and those of the rest. */
  predicate Consumed(data: Text, lines: seq<Text>, rest: Text) {
    Split(data) == lines + Split(rest) && forall i :: 0 <= i < |lines| ==> Ended(lines[i])
  }

  lemma StdoutAppends(lines: seq<Text>, line: Text)
    ensures Stdout(lines + [line]) == Stdout(lines) + [Chunk(line, "stdout")]
  {
  }

  /** What a session tells, and the errors it reports. */
  predicate Told(available: bool, data: Text, end: End, patience: nat, emitted: seq<Chunk>, errors: seq<Exit>) {
    if !available then emitted == [] && errors == [GetError]
    else if data == [] then
      if end.Eof? then emitted == [Chunk(NO_OUTPUT, "stdout")] && errors == []
      else emitted == [] && errors == [PeekError]
    else if data[0] <= 2 then FramesTold(data, end, patience, emitted, errors)
    else LinesTold(data, end, patience, emitted, errors)
  }

  /** The framed path: the decoded frames in order, as many as the context allows.
      A frame cut inside its payload is an error, one cut inside its header is
      not, unless the read itself failed. */
  predicate FramesTold(data: Text, end: End, patience: nat, emitted: seq<Chunk>, exits: seq<Exit>) {
    var frames := Decode(data);
    && emitted == Chunks(frames[..Least(patience, |frames|)])
    && exits == if patience <= |frames| then []
               else if |Remainder(data)| >= HEADER then [PayloadError]
               else if end.Broken? then [HeaderError]
               else []
  }

  /** The raw path: the lines in order; at a clean end also the unfinished one. */
  predicate LinesTold(data: Text, end: End, patience: nat, emitted: seq<Chunk>, exits: seq<Exit>) {
    var ended := EndedLines(data);
    && emitted == Stdout(if patience <= |ended| then ended[..patience] else if end.Eof? then Split(data) else ended)
    && exits == if patience <= |ended| || end.Eof? then [] else [LineError]
  }

  lemma OneMoreLine(data: Text, lines: seq<Text>, before: Text, line: Text)
    requires Consumed(data, lines, before) && line == before[..LineLen(before)] && Ended(line)
    ensures Consumed(data, lines + [line], before[LineLen(before)..])
  {
    assert Split(before) == [line] + Split(before[LineLen(before)..]);
    Regroup(lines, [line], Split(before[LineLen(before)..]));
  }

  lemma OnlyEndedLinesStop(rest: Text)
    ensures LineLen(rest) < |rest| ==> Ended(rest[..LineLen(rest)])
  {
  }

  lemma LastLine(rest: Text)
    requires !Ended(rest[..LineLen(rest)])
    ensures LineLen(rest) == |rest| && rest[..LineLen(rest)] == rest
    ensures Split(rest) == if rest == [] then [] else [rest]
  {
    OnlyEndedLinesStop(rest);
    assert rest[..|rest|] == rest;
    if rest != [] {
      var none := rest[|rest|..];
      assert none == [] && Split(none) == [];
      assert Split(rest) == [rest[..|rest|]] + Split(none);
    }
  }

  lemma RawEnd(data: Text, lines: seq<Text>, rest: Text)
    requires Consumed(data, lines, rest) && !Ended(rest)
    requires Split(rest) == if rest == [] then [] else [rest]
    ensures EndedLines(data) == lines
    ensures Split(data) == if rest == [] then lines else lines + [rest]
  {
    if rest == [] {
      assert Split(data) == lines;
    } else {
      assert Split(data)[..|lines|] == lines;
    }
  }

  lemma EndedOnly(data: Text, lines: seq<Text>, more: seq<Text>)
    requires Split(data) == lines + more
    requires forall i :: 0 <= i < |lines| ==> Ended(lines[i])
    ensures |lines| <= |EndedLines(data)| && EndedLines(data)[..|lines|] == lines
  {
    if more == [] {
      assert Split(data) == lines;
    }
  }

  /** A session on the encoding of some frames, the first of a known kind, that is
      read to its end tells those frames. */
  lemma EncodedSessionTellsFrames(frames: seq<Frame>, patience: nat, emitted: seq<Chunk>, exits: seq<Exit>)
    requires frames != [] && Encodable(frames) && frames[0].kind <= 2 && patience > |frames|
    ensures Encode(frames) != [] && Encode(frames)[0] <= 2
    ensures FramesTold(Encode(frames), Eof, patience, emitted, exits) <==> emitted == Chunks(frames) && exits == []
    ensures Carry(Chunks(frames), frames)
  {
    WholeDecodes(frames);
    FirstByte(frames);
    ChunksCarry(frames);
    WholeIsTold(Encode(frames), frames, patience, emitted, exits);
  }

  lemma WholeIsTold(data: Text, frames: seq<Frame>, patience: nat, emitted: seq<Chunk>, exits: seq<Exit>)
    requires Decode(data) == frames && Remainder(data) == [] && patience > |frames|
    ensures FramesTold(data, Eof, patience, emitted, exits) <==> emitted == Chunks(frames) && exits == []
  {
    assert frames[..|frames|] == frames;
  }

  lemma FirstByte(frames: seq<Frame>)
    requires frames != [] && Encodable(frames)
    ensures Encode(frames) != [] && Encode(frames)[0] == frames[0].kind
  {
    assert Encode(frames)[0] == EncodeFrame(frames[0])[0];
  }

  lemma WholeDecodes(frames: seq<Frame>)
    requires Encodable(frames)
    ensures Decode(Encode(frames)) == frames && Remainder(Encode(frames)) == []
  {
    DecodeOfEncode(frames, []);
    assert Encode(frames) + [] == Encode(frames) && frames + Decode([]) == frames;
  }

  /** The pieces of a raw session read to a clean end are the whole input. */
  lemma RawSessionTellsAll(data: Text, patience: nat, emitted: seq<Chunk>, exits: seq<Exit>)
    requires patience > |EndedLines(data)| && LinesTold(data, Eof, patience, emitted, exits)
    ensures Join(Texts(emitted)) == data && exits == []
    ensures forall i :: 0 <= i < |emitted| ==> emitted[i].stream == "stdout" && emitted[i].text != []
  {
    SplitIsLines(data);
    assert Texts(Stdout(Split(data))) == Split(data);
    forall i | 0 <= i < |emitted| ensures emitted[i].stream == "stdout" && emitted[i].text != [] {
      assert emitted[i] == Chunk(Split(data)[i], "stdout") && OneLine(Split(data)[i]);
    }
  }

  lemma {:induction false} JoinEnds(lines: seq<Text>)
    requires lines != [] && Ended(lines[|lines| - 1])
    ensures Ended(Join(lines))
  {
    var n := |lines| - 1;
    JoinAppends(lines[..n], [lines[n]]);
    assert lines[..n] + [lines[n]] == lines && Join([lines[n]]) == lines[n];
  }

  /** Text up to its last newline, and what follows it. */
  ghost predicate CutAtLastNewline(done: Text, rest: Text) {
    (done != [] ==> Ended(done)) && NEWLINE !in rest
  }

  lemma AllEnded(lines: seq<Text>)
    requires lines == [] || Ended(lines[|lines| - 1])
    ensures CutAtLastNewline(Join(lines), [])
  {
    if lines != [] {
      JoinEnds(lines);
    }
  }

  lemma LastUnfinished(done: seq<Text>, last: Text)
    requires done == [] || Ended(done[|done| - 1])
    requires OneLine(last) && !Ended(last)
    ensures Join(done + [last]) == Join(done) + last && CutAtLastNewline(Join(done), last)
  {
    AllEnded(done);
    JoinAppends(done, [last]);
    assert Join([last]) == last;
    NoNewline(last);
  }

  lemma NoNewline(line: Text)
    requires OneLine(line) && !Ended(line)
    ensures NEWLINE !in line
  {
  }

  /** The ended lines are the data up to its last newline. */
  lemma EndedLinesJoin(data: Text) returns (rest: Text)
    ensures data == Join(EndedLines(data)) + rest && CutAtLastNewline(Join(EndedLines(data)), rest)
  {
    SplitIsLines(data);
    rest := RestOf(Split(data), EndedLines(data));
  }

  lemma RestOf(lines: seq<Text>, ended: seq<Text>) returns (rest: Text)
    requires AreLines(lines)
    requires ended == if lines == [] || Ended(lines[|lines| - 1]) then lines else lines[..|lines| - 1]
    ensures Join(lines) == Join(ended) + rest && CutAtLastNewline(Join(ended), rest)
  {
    if ended == lines {
      AllEnded(lines);
      rest := [];
    } else {
      rest := lines[|lines| - 1];
      LastUnfinished(ended, rest);
      assert ended + [rest] == lines;
    }
  }

  lemma TextsOfStdout(lines: seq<Text>)
    ensures Texts(Stdout(lines)) == lines
  {
  }

  /** When reading fails, the raw session has told everything up to the last newline
      and nothing behind it. */
  lemma BrokenRawSessionTellsEnded(data: Text, patience: nat, emitted: seq<Chunk>, exits: seq<Exit>) returns (rest: Text)
    requires patience > |EndedLines(data)| && LinesTold(data, Broken, patience, emitted, exits)
    ensures exits == [LineError] && data == Join(Texts(emitted)) + rest && CutAtLastNewline(Join(Texts(emitted)), rest)
  {
    TextsOfStdout(EndedLines(data));
    rest := EndedLinesJoin(data);
  }

  /** A cancelled raw session has told a prefix of the data, in so many lines, and
      reports nothing. */
  lemma CancelledRawSessionTellsPrefix(data: Text, end: End, patience: nat, emitted: seq<Chunk>, exits: seq<Exit>)
    requires patience <= |EndedLines(data)| && LinesTold(data, end, patience, emitted, exits)
    ensures exits == [] && |emitted| == patience && Join(Texts(emitted)) <= data
    ensures forall i | 0 <= i < patience :: EndedLine(Texts(emitted)[i])
  {
    SplitIsLines(data);
    TextsOfStdout(EndedLines(data)[..patience]);
    FirstTold(Split(data), EndedLines(data), patience);
  }

  /** The lines are the ended ones, and an unfinished one that may follow them. */
  predicate AllButUnfinished(lines: seq<Text>, ended: seq<Text>) {
    ended == if lines == [] || Ended(lines[|lines| - 1]) then lines else lines[..|lines| - 1]
  }

  lemma FirstTold(lines: seq<Text>, ended: seq<Text>, n: nat)
    requires AreLines(lines) && AllButUnfinished(lines, ended) && n <= |ended|
    ensures Join(ended[..n]) <= Join(lines) && forall i | 0 <= i < n :: EndedLine(ended[..n][i])
  {
    SameFront(lines, ended, n);
    CutAt(lines, n);
    FirstPieces(lines, lines[..n], lines[n..]);
    FirstAreEnded(lines, n);
  }

  lemma SameFront(lines: seq<Text>, ended: seq<Text>, n: nat)
    requires AllButUnfinished(lines, ended) && n <= |ended|
    ensures n <= |lines| && ended[..n] == lines[..n] && (n == |lines| > 0 ==> Ended(lines[n - 1]))
  {
    FrontOfFront(lines, |ended|, n);
    CutAt(lines, |lines|);
  }

  predicate EndedLine(line: Text) {
    OneLine(line) && Ended(line)
  }

  lemma FirstAreEnded(lines: seq<Text>, n: nat)
    requires AreLines(lines) && n <= |lines|
    requires n == |lines| > 0 ==> Ended(lines[n - 1])
    ensures forall i | 0 <= i < n :: EndedLine(lines[i])
  {
  }

  lemma FirstPieces(lines: seq<Text>, front: seq<Text>, back: seq<Text>)
    requires lines == front + back
    ensures Join(front) <= Join(lines)
  {
    JoinAppends(front, back);
  }

  /** The chunks carry the payloads of the frames, each under the name of its stream. */
  ghost predicate Carry(emitted: seq<Chunk>, frames: seq<Frame>) {
    && |emitted| == |frames|
    && forall i | 0 <= i < |frames| ::
         && emitted[i].text == frames[i].payload
         && (emitted[i].stream == "stdin" <==> frames[i].kind == 0)
         && (emitted[i].stream == "stdout" <==> frames[i].kind == 1)
         && (emitted[i].stream == "stderr" <==> frames[i].kind == 2)
         && (emitted[i].stream == "unknown" <==> frames[i].kind > 2)
  }

  lemma ChunksCarry(frames: seq<Frame>)
    ensures Carry(Chunks(frames), frames)
  {
    assert "stdout"[3] == 'o' && "stderr"[3] == 'e' && |"stdin"| == 5 && |"unknown"| == 7;
  }

  /** A session on the encoding of some frames that stops after k bytes, m whole frames
      and perhaps a part of the next. It tells the whole frames, or as many as the
      context allows. It reports an error iff it gets to the end of the stream and the
      cut lies in a payload, or the read itself failed. */
  lemma CutSession(frames: seq<Frame>, k: nat, m: nat, end: End, patience: nat, emitted: seq<Chunk>, exits: seq<Exit>)
    requires Encodable(frames) && m <= |frames| && |Encode(frames[..m])| <= k <= |Encode(frames)|
    requires m == |frames| || k < |Encode(frames[..m + 1])|
    requires FramesTold(Encode(frames)[..k], end, patience, emitted, exits)
    ensures Carry(emitted, frames[..Least(patience, m)])
    ensures exits == if patience <= m then []
                     else if k >= |Encode(frames[..m])| + 8 then [PayloadError]
                     else if end.Broken? then [HeaderError]
                     else []
  {
    PrefixDecodes(frames, k, m);
    assert frames[..m][..Least(patience, m)] == frames[..Least(patience, m)];
    ChunksCarry(frames[..Least(patience, m)]);
  }
}
