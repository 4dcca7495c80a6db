/** The tail a running command keeps for display: an incremental decoder, a line
    splitter and a bounded window over the lines it finished. */
module CommandTail {
  import opened Utf8
  import opened Sequences

  const TAIL_LINES: nat := 5
  const TAIL_LINE_CHARS: nat := 200
  const TAIL_PARTIAL_CHARS: nat := 4096

  const NEWLINE: nat := 10
  const RETURN: nat := 13

  /** A line or a stretch of text, as scalar values. */
  type Text = seq<nat>

  function Shorten(line: Text): Text {
    if |line| > TAIL_LINE_CHARS then line[..TAIL_LINE_CHARS] else line
  }

  function Min(a: nat, b: nat): nat { if a <= b then a else b }

  /** What is shown of a line: its first 200 characters. */
  predicate IsCut(shown: Text, line: Text) {
    |shown| == Min(200, |line|) && forall k :: 0 <= k < |shown| ==> shown[k] == line[k]
  }

  /** The last five lines, or all when there are fewer, each cut. */
  predicate ShowsLast(shown: seq<Text>, lines: seq<Text>) {
    && |shown| == Min(5, |lines|)
    && forall k :: 0 <= k < |shown| ==> IsCut(shown[k], lines[|lines| - |shown| + k])
  }

  lemma LastShows(lines: seq<Text>, all: seq<Text>, shown: seq<Text>)
    requires |all| == |lines| && (forall i :: 0 <= i < |all| ==> IsCut(all[i], lines[i]))
    requires shown == Last(TAIL_LINES, all)
    ensures ShowsLast(shown, lines)
  {
    LastIs(all, shown);
    var skipped := |lines| - |shown|;
    forall k | 0 <= k < |shown| ensures IsCut(shown[k], lines[skipped + k]) {
      assert shown[k] == all[skipped + k] && IsCut(all[skipped + k], lines[skipped + k]);
    }
  }

  lemma AllCut(lines: seq<Text>)
    ensures forall i :: 0 <= i < |lines| ==> IsCut(ShortenAll(lines)[i], lines[i])
  {
    forall i | 0 <= i < |lines| ensures IsCut(ShortenAll(lines)[i], lines[i]) { ShortenCuts(lines[i]); }
  }

  lemma LastIs(all: seq<Text>, shown: seq<Text>)
    requires shown == Last(TAIL_LINES, all)
    ensures |shown| == Min(5, |all|) && forall k :: 0 <= k < |shown| ==> shown[k] == all[|all| - |shown| + k]
  {}

  lemma ShortenCuts(line: Text)
    ensures IsCut(Shorten(line), line)
  {}

  function ShortenAll(lines: seq<Text>): (r: seq<Text>)
    ensures |r| == |lines| && forall i :: 0 <= i < |r| ==> r[i] == Shorten(lines[i])
  {
    if lines == [] then [] else [Shorten(lines[0])] + ShortenAll(lines[1..])
  }

  function Last<T>(n: nat, s: seq<T>): seq<T> {
    if |s| > n then s[|s| - n..] else s
  }

  // ----- what the state is, step by step -----

  datatype State = State(lines: seq<Text>, partial: Text, undecoded: seq<byte>) {
    function Finish(line: Text): State {
      State(Last(TAIL_LINES, lines + [Shorten(line)]), [], undecoded)
    }

    function PushChar(ch: nat): State {
      if ch == NEWLINE then Finish(partial)
      else if ch == RETURN then this
      else if |partial| + 1 >= TAIL_PARTIAL_CHARS then Finish(partial + [ch])
      else State(lines, partial + [ch], undecoded)
    }

    function PushText(text: Text): State
      decreases |text|
    {
      if text == [] then this else PushChar(text[0]).PushText(text[1..])
    }

    function Take(d: Decoded): State {
      var s := State(lines, partial, []).PushText(d.text);
      State(s.lines, s.partial, d.rest)
    }

    function PushBytes(bytes: seq<byte>): State {
      Take(Decode(undecoded + bytes))
    }

    function PushChunks(chunks: seq<seq<byte>>): State
      decreases |chunks|
    {
      if chunks == [] then this else PushBytes(chunks[0]).PushChunks(chunks[1..])
    }

    function Snapshot(): seq<Text> {
      Last(TAIL_LINES, lines + if partial == [] then [] else [Shorten(partial)])
    }
  }

  const EMPTY: State := State([], [], [])

  // ----- from_utf8 as the standard library reports it -----

  datatype Utf8Error = Utf8Error(validUpTo: nat, errorLen: ErrorLen)
  datatype ErrorLen = NoLen | Len(len: nat)
  datatype FromUtf8 = Ok(text: Text) | Err(error: Utf8Error)

  /** The length of the longest prefix that is whole well-formed characters. */
  function ValidUpTo(s: seq<byte>): (n: nat)
    ensures n <= |s|
  {
    if s == [] || !ReadHead(s).Whole? then 0 else ReadHead(s).len + ValidUpTo(s[ReadHead(s).len..])
  }

  function DecodeStr(s: seq<byte>): FromUtf8 {
    var n := ValidUpTo(s);
    if n == |s| then Ok(Decode(s).text)
    else Err(Utf8Error(n, if ReadHead(s[n..]).Bad? then Len(ReadHead(s[n..]).len) else NoLen))
  }

  lemma {:induction false} ValidPrefix(s: seq<byte>)
    ensures var n := ValidUpTo(s);
      && Decode(s[..n]).rest == [] && ValidUpTo(s[..n]) == n
      && (n < |s| ==> !ReadHead(s[n..]).Whole?)
    decreases |s|
  {
    var n := ValidUpTo(s);
    if s == [] || !ReadHead(s).Whole? {
      assert s[..0] == [] && s[0..] == s;
    } else {
      var k := ReadHead(s).len;
      ValidPrefix(s[k..]);
      ReadHeadPrefix(s, n);
      assert s[..n][k..] == s[k..][..n - k];
      assert s[n..] == s[k..][n - k..];
    }
  }

  /** The text already pushed, and the rest still to decode, make up the whole. */
  ghost predicate Sent(whole: Decoded, sent: Text, rest: seq<byte>) {
    whole == Decoded(sent, []).Then(Decode(rest))
  }

  lemma SentSplit(whole: Decoded, sent: Text, a: seq<byte>, b: seq<byte>)
    requires Sent(whole, sent, a + b) && Decode(a).rest == []
    ensures Sent(whole, sent + Decode(a).text, b)
  {
    DecodeResumes(a, b);
    assert Decode(a).rest + b == b;
    Regroup(sent, Decode(a).text, Decode(b).text);
  }

  lemma SentOk(whole: Decoded, sent: Text, rest: seq<byte>)
    requires Sent(whole, sent, rest) && DecodeStr(rest).Ok?
    ensures Sent(whole, sent + DecodeStr(rest).text, [])
  {
    ValidPrefix(rest);
    assert rest[..|rest|] == rest == rest + [];
    SentSplit(whole, sent, rest, []);
  }

  lemma SentValid(whole: Decoded, sent: Text, rest: seq<byte>, e: Utf8Error)
    requires Sent(whole, sent, rest) && DecodeStr(rest) == Err(e)
    ensures var n := e.validUpTo;
      && n < |rest| && DecodeStr(rest[..n]).Ok? && Sent(whole, sent + DecodeStr(rest[..n]).text, rest[n..])
      && (if e.errorLen.NoLen? then ReadHead(rest[n..]).Cut? else ReadHead(rest[n..]) == Bad(e.errorLen.len))
  {
    ValidPrefix(rest);
    assert rest == rest[..e.validUpTo] + rest[e.validUpTo..];
    SentSplit(whole, sent, rest[..e.validUpTo], rest[e.validUpTo..]);
  }

  lemma SentBad(whole: Decoded, sent: Text, rest: seq<byte>)
    requires Sent(whole, sent, rest) && rest != [] && ReadHead(rest).Bad?
    ensures Sent(whole, sent + [REPLACEMENT], rest[ReadHead(rest).len..])
  {
    var tail := Decode(rest[ReadHead(rest).len..]).text;
    DecodeStep(rest, ReadHead(rest));
    assert sent + ([REPLACEMENT] + tail) == sent + [REPLACEMENT] + tail;
  }

  lemma SentCut(whole: Decoded, sent: Text, rest: seq<byte>)
    requires Sent(whole, sent, rest) && rest != [] && ReadHead(rest).Cut?
    ensures whole == Decoded(sent, rest)
  {
    assert sent + [] == sent;
  }

  // ----- the object -----

  class Tail {
    var lines: seq<Text>
    var partial: Text
    var partialChars: nat
    var undecoded: seq<byte>

    /** partial_chars is carried, never recounted, and stays below the cap. */
    ghost predicate Valid()
      reads this
    {
      partialChars == |partial| < TAIL_PARTIAL_CHARS && |lines| <= TAIL_LINES
    }

    ghost function Abstract(): State
      reads this
    {
      State(lines, partial, undecoded)
    }

    constructor ()
      ensures Valid() && Abstract() == EMPTY
    {
      lines, partial, partialChars, undecoded := [], [], 0, [];
    }

    method PushLine(line: Text)
      requires |lines| <= TAIL_LINES
      modifies this`lines
      ensures |lines| <= TAIL_LINES && lines == Last(TAIL_LINES, old(lines) + [Shorten(line)])
      ensures |lines| == Min(5, |old(lines)| + 1) && IsCut(lines[|lines| - 1], line)
      ensures forall k :: 0 <= k < |lines| - 1 ==> lines[k] == old(lines)[|old(lines)| + 1 - |lines| + k]
    {
      ShortenCuts(line);
      lines := lines + [Shorten(line)];
      while |lines| > TAIL_LINES
        invariant lines == old(lines) + [Shorten(line)] || lines == (old(lines) + [Shorten(line)])[1..]
        invariant TAIL_LINES <= |lines| <= TAIL_LINES + 1 || lines == old(lines) + [Shorten(line)]
      {
        lines := lines[1..];
      }
    }

    method PushText(text: Text)
      requires Valid()
      modifies this`lines, this`partial, this`partialChars
      ensures Valid() && Abstract() == old(Abstract()).PushText(text)
    {
      ghost var target := Abstract().PushText(text);
      for i := 0 to |text|
        invariant Valid() && Abstract().PushText(text[i..]) == target
      {
        assert text[i..][0] == text[i] && text[i..][1..] == text[i + 1..];
        var ch := text[i];
        if ch == NEWLINE {
          var line := partial;
          partial, partialChars := [], 0;
          PushLine(line);
        } else if ch != RETURN {
          partial := partial + [ch];
          partialChars := partialChars + 1;
          if partialChars >= TAIL_PARTIAL_CHARS {
            var line := partial;
            partial, partialChars := [], 0;
            PushLine(line);
          }
        }
      }
    }

    /** Add one chunk of raw output: decode what is whole, replace what cannot start a
        character, hold back a character the chunk cuts off. */
    method PushBytes(bytes: seq<byte>)
      requires Valid()
      modifies this
      ensures Valid() && Abstract() == old(Abstract()).PushBytes(bytes)
    {
      var rest := undecoded + bytes;
      undecoded := [];
      ghost var start := Abstract();
      ghost var d := Decode(rest);
      ghost var sent: Text := [];
      while true
        invariant Valid() && undecoded == [] && Abstract() == start.PushText(sent)
        invariant Sent(d, sent, rest)
        decreases |rest|
      {
        match DecodeStr(rest)
        case Ok(text) =>
          SentOk(d, sent, rest);
          sent := Send(text, start, sent);
          rest := [];
          break;
        case Err(error) =>
          SentValid(d, sent, rest, error);
          var valid := DecodeStr(rest[..error.validUpTo]);
          sent := Send(valid.text, start, sent);
          rest := rest[error.validUpTo..];
          if error.errorLen.NoLen? {
            SentCut(d, sent, rest);
            break;
          }
          SentBad(d, sent, rest);
          sent := Send([REPLACEMENT], start, sent);
          rest := rest[error.errorLen.len..];
      }
      undecoded := rest;
    }

    method Send(text: Text, ghost start: State, ghost sent: Text) returns (ghost all: Text)
      requires Valid() && Abstract() == start.PushText(sent)
      modifies this`lines, this`partial, this`partialChars
      ensures Valid() && all == sent + text && Abstract() == start.PushText(all)
    {
      PushTextConcat(start, sent, text);
      PushText(text);
      all := sent + text;
    }

    method Snapshot() returns (shown: seq<Text>)
      requires Valid()
      ensures shown == Abstract().Snapshot()
      ensures |shown| == Min(5, |lines| + if partial == [] then 0 else 1)
      ensures partial != [] ==> IsCut(shown[|shown| - 1], partial)
      ensures forall k :: 0 <= k < |shown| - (if partial == [] then 0 else 1) ==>
        shown[k] == lines[|lines| + (if partial == [] then 0 else 1) - |shown| + k]
    {
      ShortenCuts(partial);
      shown := lines;
      if partial != [] {
        shown := shown + [Shorten(partial)];
      }
      if |shown| > TAIL_LINES {
        shown := shown[|shown| - TAIL_LINES..];
      }
    }
  }

  lemma {:induction false} PushTextConcat(s: State, a: Text, b: Text)
    ensures s.PushText(a).PushText(b) == s.PushText(a + b)
    decreases |a|
  {
    if a == [] {
      assert a + b == b;
    } else {
      assert (a + b)[0] == a[0] && (a + b)[1..] == a[1..] + b;
      PushTextConcat(s.PushChar(a[0]), a[1..], b);
    }
  }

  // ----- any way of cutting the stream -----

  function Flatten(chunks: seq<seq<byte>>): seq<byte> {
    if chunks == [] then [] else chunks[0] + Flatten(chunks[1..])
  }

  /** What decoding left behind: nothing, or a character cut short. */
  ghost predicate Held(s: State) {
    Decode(s.undecoded) == Decoded([], s.undecoded)
  }

  lemma {:induction false} PushTextKeeps(s: State, text: Text, held: seq<byte>)
    ensures s.PushText(text).undecoded == s.undecoded
    ensures State(s.lines, s.partial, held).PushText(text)
      == State(s.PushText(text).lines, s.PushText(text).partial, held)
    decreases |text|
  {
    if text != [] { PushTextKeeps(s.PushChar(text[0]), text[1..], held); }
  }

  lemma PushBytesHolds(s: State, a: seq<byte>)
    ensures Held(s.PushBytes(a))
  {
    DecodeRest(s.undecoded + a);
  }

  lemma TakeTwice(s: State, d: Decoded, e: Decoded)
    ensures s.Take(d).Take(e) == s.Take(d.Then(e))
  {
    var start := State(s.lines, s.partial, []);
    PushTextConcat(start, d.text, e.text);
    PushTextKeeps(start, d.text, []);
  }

  lemma DecodeHeldThen(held: seq<byte>, a: seq<byte>, b: seq<byte>, d: Decoded, e: Decoded)
    requires d == Decode(held + a) && e == Decode(d.rest + b)
    ensures Decode(held + (a + b)) == d.Then(e)
  {
    Regroup(held, a, b);
    DecodeResumes(held + a, b);
  }

  lemma PushBytesTwice(s: State, a: seq<byte>, b: seq<byte>)
    ensures s.PushBytes(a).PushBytes(b) == s.PushBytes(a + b)
  {
    var d := Decode(s.undecoded + a);
    var e := Decode(d.rest + b);
    calc {
      s.PushBytes(a).PushBytes(b);
      s.Take(d).Take(e);
      { TakeTwice(s, d, e); }
      s.Take(d.Then(e));
      { DecodeHeldThen(s.undecoded, a, b, d, e); }
      s.PushBytes(a + b);
    }
  }

  /** For every stream and every way of cutting it into chunks, the whole state is the
      one a single chunk leaves. */
  lemma {:induction false} ChunksAreOneChunk(s: State, chunks: seq<seq<byte>>)
    requires Held(s)
    ensures s.PushChunks(chunks) == s.PushBytes(Flatten(chunks))
    decreases |chunks|
  {
    if chunks == [] {
      assert s.undecoded + [] == s.undecoded;
    } else {
      PushBytesHolds(s, chunks[0]);
      PushBytesTwice(s, chunks[0], Flatten(chunks[1..]));
      ChunksAreOneChunk(s.PushBytes(chunks[0]), chunks[1..]);
    }
  }

  /** At most three bytes are ever held back, and they start a well-formed character. */
  lemma HeldIsTruncated(chunks: seq<seq<byte>>)
    ensures var held := EMPTY.PushChunks(chunks).undecoded;
      |held| <= 3 && (held == [] || IsTruncated(held))
  {
    ChunksAreOneChunk(EMPTY, chunks);
    DecodeRest(EMPTY.undecoded + Flatten(chunks));
  }

  /** Text written as UTF-8 arrives whole, however its bytes are cut. */
  lemma EncodedTextArrives(text: Text, chunks: seq<seq<byte>>)
    requires IsText(text) && Flatten(chunks) == EncodeText(text)
    ensures EMPTY.PushChunks(chunks) == EMPTY.PushText(text)
  {
    ChunksAreOneChunk(EMPTY, chunks);
    DecodeEncode(text);
    PushTextKeeps(EMPTY, text, []);
    assert [] + Flatten(chunks) == Flatten(chunks);
  }

  // ----- the window over an unbounded history -----

  datatype History = History(finished: seq<Text>, partial: Text)

  function WithoutReturns(text: Text): (r: Text)
    ensures 13 !in r
  {
    if text == [] then [] else (if text[0] == 13 then [] else [text[0]]) + WithoutReturns(text[1..])
  }

  /** The full blocks an unfinished line is broken into. */
  function Blocks(line: Text): seq<Text>
    decreases |line|
  {
    if |line| < TAIL_PARTIAL_CHARS then []
    else [line[..TAIL_PARTIAL_CHARS]] + Blocks(line[TAIL_PARTIAL_CHARS..])
  }

  function Remainder(line: Text): (r: Text)
    ensures |r| < TAIL_PARTIAL_CHARS
    decreases |line|
  {
    if |line| < TAIL_PARTIAL_CHARS then line else Remainder(line[TAIL_PARTIAL_CHARS..])
  }

  /** The characters before the first newline. */
  function FirstLine(text: Text): (r: Text)
    ensures |r| <= |text| && r == text[..|r|] && NEWLINE !in r
    ensures |r| < |text| ==> text[|r|] == NEWLINE
    decreases |text|
  {
    if text == [] || text[0] == NEWLINE then [] else [text[0]] + FirstLine(text[1..])
  }

  /** Every line the text finishes and the line it leaves open, with no window: split at
      newlines, each piece broken into full blocks. */
  function Lines(text: Text): History
    decreases |text|
  {
    var line := FirstLine(text);
    if |line| == |text| then History(Blocks(text), Remainder(text))
    else
      var rest := Lines(text[|line| + 1..]);
      History(Blocks(line) + [Remainder(line)] + rest.finished, rest.partial)
  }

  function Extend(h: History, ch: nat): History {
    if ch == NEWLINE then History(h.finished + [h.partial], [])
    else if |h.partial| + 1 >= TAIL_PARTIAL_CHARS then History(h.finished + [h.partial + [ch]], [])
    else History(h.finished, h.partial + [ch])
  }

  lemma {:induction false} BlocksExtend(line: Text, ch: nat)
    ensures Remainder(line + [ch]) == if |Remainder(line)| + 1 == TAIL_PARTIAL_CHARS then [] else Remainder(line) + [ch]
    ensures Blocks(line + [ch])
      == Blocks(line) + if |Remainder(line)| + 1 == TAIL_PARTIAL_CHARS then [Remainder(line) + [ch]] else []
    decreases |line|
  {
    var more := line + [ch];
    if |line| < TAIL_PARTIAL_CHARS {
      if |more| == TAIL_PARTIAL_CHARS {
        assert more[..TAIL_PARTIAL_CHARS] == more && more[TAIL_PARTIAL_CHARS..] == [];
      }
    } else {
      assert more[..TAIL_PARTIAL_CHARS] == line[..TAIL_PARTIAL_CHARS];
      assert more[TAIL_PARTIAL_CHARS..] == line[TAIL_PARTIAL_CHARS..] + [ch];
      BlocksExtend(line[TAIL_PARTIAL_CHARS..], ch);
    }
  }

  lemma {:induction false} FirstLineExtend(text: Text, ch: nat)
    ensures FirstLine(text + [ch])
      == if |FirstLine(text)| < |text| || ch == NEWLINE then FirstLine(text) else text + [ch]
    decreases |text|
  {
    if text == [] {
      assert (text + [ch])[1..] == [];
    } else if text[0] != NEWLINE {
      assert (text + [ch])[1..] == text[1..] + [ch];
      FirstLineExtend(text[1..], ch);
    }
  }

  lemma ExtendAfter(before: seq<Text>, rest: History, ch: nat)
    ensures Extend(History(before + rest.finished, rest.partial), ch)
      == History(before + Extend(rest, ch).finished, Extend(rest, ch).partial)
  {
    assert before + rest.finished + [rest.partial] == before + (rest.finished + [rest.partial]);
    assert before + rest.finished + [rest.partial + [ch]] == before + (rest.finished + [rest.partial + [ch]]);
  }

  lemma LinesExtendOpen(text: Text, ch: nat)
    requires FirstLine(text) == text
    ensures Lines(text + [ch]) == Extend(Lines(text), ch)
  {
    var more := text + [ch];
    FirstLineExtend(text, ch);
    if ch == NEWLINE {
      assert more[|text| + 1..] == [];
    } else {
      BlocksExtend(text, ch);
    }
  }

  lemma {:induction false} LinesExtend(text: Text, ch: nat)
    ensures Lines(text + [ch]) == Extend(Lines(text), ch)
    decreases |text|
  {
    var line, more := FirstLine(text), text + [ch];
    if |line| < |text| {
      var rest := text[|line| + 1..];
      FirstLineExtend(text, ch);
      assert more[|line| + 1..] == rest + [ch];
      LinesExtend(rest, ch);
      ExtendAfter(Blocks(line) + [Remainder(line)], Lines(rest), ch);
    } else {
      LinesExtendOpen(text, ch);
    }
  }

  lemma {:induction false} WithoutReturnsConcat(a: Text, b: Text)
    ensures WithoutReturns(a + b) == WithoutReturns(a) + WithoutReturns(b)
    decreases |a|
  {
    if a == [] {
      assert a + b == b;
    } else {
      assert (a + b)[0] == a[0] && (a + b)[1..] == a[1..] + b;
      WithoutReturnsConcat(a[1..], b);
      var kept: Text := if a[0] == RETURN then [] else [a[0]];
      assert kept + (WithoutReturns(a[1..]) + WithoutReturns(b)) == kept + WithoutReturns(a[1..]) + WithoutReturns(b);
    }
  }

  /** The state is the last five finished lines, shortened, and the open line. */
  ghost predicate Windows(s: State, h: History) {
    s.lines == Last(TAIL_LINES, ShortenAll(h.finished)) && s.partial == h.partial
  }

  lemma WindowsExtend(s: State, h: History, ch: nat)
    requires Windows(s, h)
    ensures ch != RETURN ==> Windows(s.PushChar(ch), Extend(h, ch))
  {
    WindowsFinish(s, h, h.partial);
    WindowsFinish(s, h, h.partial + [ch]);
  }

  lemma WindowsFinish(s: State, h: History, line: Text)
    requires Windows(s, h)
    ensures Windows(s.Finish(line), History(h.finished + [line], []))
  {
    assert ShortenAll(h.finished + [line]) == ShortenAll(h.finished) + [Shorten(line)];
    LastLast(ShortenAll(h.finished), [Shorten(line)]);
  }

  lemma LastLast(a: seq<Text>, b: seq<Text>)
    ensures Last(TAIL_LINES, Last(TAIL_LINES, a) + b) == Last(TAIL_LINES, a + b)
  {
    var n := |a + b|;
    if |a| > TAIL_LINES {
      assert (a + b)[|a| - TAIL_LINES..] == a[|a| - TAIL_LINES..] + b;
      assert (a + b)[n - TAIL_LINES..] == (a + b)[|a| - TAIL_LINES..][|b|..];
    }
  }

  lemma {:induction false} TextWindow(text: Text)
    ensures Windows(EMPTY.PushText(text), Lines(WithoutReturns(text)))
    decreases |text|
  {
    if text != [] {
      var front, ch := text[..|text| - 1], text[|text| - 1];
      assert text == front + [ch];
      TextWindow(front);
      PushTextConcat(EMPTY, front, [ch]);
      var s := EMPTY.PushText(front);
      assert s.PushText([ch]) == s.PushChar(ch) by { assert [ch][1..] == []; }
      WithoutReturnsConcat(front, [ch]);
      assert WithoutReturns([ch]) == if ch == RETURN then [] else [ch];
      if ch == RETURN {
        assert WithoutReturns(text) == WithoutReturns(front);
      } else {
        LinesExtend(WithoutReturns(front), ch);
        WindowsExtend(s, Lines(WithoutReturns(front)), ch);
      }
    }
  }

  lemma StreamWindow(chunks: seq<seq<byte>>)
    ensures Windows(EMPTY.PushChunks(chunks), Lines(WithoutReturns(Decode(Flatten(chunks)).text)))
  {
    ChunksAreOneChunk(EMPTY, chunks);
    assert [] + Flatten(chunks) == Flatten(chunks);
    TakeWindow(Decode(Flatten(chunks)));
  }

  lemma TakeWindow(d: Decoded)
    ensures Windows(EMPTY.Take(d), Lines(WithoutReturns(d.text)))
  {
    TextWindow(d.text);
  }

  lemma {:induction false} ShortenConcat(a: seq<Text>, b: seq<Text>)
    ensures ShortenAll(a + b) == ShortenAll(a) + ShortenAll(b)
  {}

  lemma SnapshotOfWindow(s: State, h: History)
    requires Windows(s, h)
    ensures s.Snapshot() == Last(TAIL_LINES, ShortenAll(h.finished + if h.partial == [] then [] else [h.partial]))
  {
    var open: seq<Text> := if h.partial == [] then [] else [h.partial];
    var shown: seq<Text> := if h.partial == [] then [] else [Shorten(h.partial)];
    assert ShortenAll(open) == shown;
    ShortenConcat(h.finished, open);
    LastLast(ShortenAll(h.finished), shown);
  }

  /** After any chunks, the snapshot is the last five of all lines the decoded output
      holds, the open one included when it is not empty, each cut to 200 characters. */
  lemma SnapshotIsWindow(chunks: seq<seq<byte>>)
    ensures var h := Lines(WithoutReturns(Decode(Flatten(chunks)).text));
      EMPTY.PushChunks(chunks).Snapshot()
        == Last(TAIL_LINES, ShortenAll(h.finished + if h.partial == [] then [] else [h.partial]))
    ensures var h := Lines(WithoutReturns(Decode(Flatten(chunks)).text));
      ShowsLast(EMPTY.PushChunks(chunks).Snapshot(), h.finished + if h.partial == [] then [] else [h.partial])
    ensures |EMPTY.PushChunks(chunks).partial| < TAIL_PARTIAL_CHARS
  {
    var h := Lines(WithoutReturns(Decode(Flatten(chunks)).text));
    var all := h.finished + if h.partial == [] then [] else [h.partial];
    AllCut(all);
    LastShows(all, ShortenAll(all), Last(TAIL_LINES, ShortenAll(all)));
    StreamWindow(chunks);
    SnapshotOfWindow(EMPTY.PushChunks(chunks), h);
    LinesPartial(WithoutReturns(Decode(Flatten(chunks)).text));
  }

  lemma {:induction false} LinesPartial(text: Text)
    ensures |Lines(text).partial| < TAIL_PARTIAL_CHARS
    decreases |text|
  {
    if |FirstLine(text)| < |text| { LinesPartial(text[|FirstLine(text)| + 1..]); }
  }

  // ----- what the lines hold -----

  function WithoutNewlines(text: Text): Text {
    if text == [] then [] else (if text[0] == 10 then [] else [text[0]]) + WithoutNewlines(text[1..])
  }

  function Joined(lines: seq<Text>): Text {
    if lines == [] then [] else lines[0] + Joined(lines[1..])
  }

  lemma {:induction false} JoinedConcat(a: seq<Text>, b: seq<Text>)
    ensures Joined(a + b) == Joined(a) + Joined(b)
  {
    if a == [] {
      assert a + b == b;
    } else {
      assert (a + b)[1..] == a[1..] + b;
      JoinedConcat(a[1..], b);
      Regroup(a[0], Joined(a[1..]), Joined(b));
    }
  }

  predicate IsLine(line: Text) { |line| <= 4096 && 10 !in line }

  lemma {:induction false} BlocksHold(line: Text)
    requires 10 !in line
    ensures Joined(Blocks(line)) + Remainder(line) == line
    ensures IsLine(Remainder(line)) && forall b <- Blocks(line) :: IsLine(b) && |b| == 4096
    decreases |line|
  {
    if |line| >= TAIL_PARTIAL_CHARS {
      var rest := line[TAIL_PARTIAL_CHARS..];
      BlocksHold(rest);
      Regroup(line[..TAIL_PARTIAL_CHARS], Joined(Blocks(rest)), Remainder(rest));
      assert line == line[..TAIL_PARTIAL_CHARS] + rest;
    }
  }

  lemma {:induction false} NewlinesOut(line: Text, more: Text)
    requires 10 !in line
    ensures WithoutNewlines(line + more) == line + WithoutNewlines(more)
    decreases |line|
  {
    if line == [] {
      assert line + more == more;
    } else {
      assert (line + more)[1..] == line[1..] + more;
      NewlinesOut(line[1..], more);
      assert [line[0]] + line[1..] == line;
      Regroup([line[0]], line[1..], WithoutNewlines(more));
    }
  }

  /** The lines are the text: joined, they are all of it but the newlines, in order; none
      holds a newline or more than 4096 characters. */
  lemma {:induction false} LinesHoldText(text: Text)
    ensures Joined(Lines(text).finished) + Lines(text).partial == WithoutNewlines(text)
    ensures IsLine(Lines(text).partial) && forall line <- Lines(text).finished :: IsLine(line)
    decreases |text|
  {
    var line := FirstLine(text);
    BlocksHold(line);
    if |line| == |text| {
      NewlinesOut(text, []);
      assert text + [] == text;
    } else {
      var more := text[|line| + 1..];
      LinesHoldText(more);
      LinesSplit(text, line, more);
      LineJoins(line, Lines(more));
      NewlineSplits(text, line, more);
    }
  }

  lemma LinesSplit(text: Text, line: Text, more: Text)
    requires line == FirstLine(text) && |line| < |text| && more == text[|line| + 1..]
    ensures Lines(text) == History(Blocks(line) + [Remainder(line)] + Lines(more).finished, Lines(more).partial)
  {}

  lemma {:induction false} NewlineSplits(text: Text, line: Text, more: Text)
    requires line == FirstLine(text) && |line| < |text| && more == text[|line| + 1..]
    ensures WithoutNewlines(text) == line + WithoutNewlines(more)
    decreases |text|
  {
    if text[0] == 10 {
      assert [] + WithoutNewlines(more) == WithoutNewlines(more);
    } else {
      assert more == text[1..][|line|..];
      NewlineSplits(text[1..], line[1..], more);
      assert line == [text[0]] + line[1..];
      Regroup([text[0]], line[1..], WithoutNewlines(more));
    }
  }

  lemma LineJoins(line: Text, rest: History)
    requires 10 !in line
    ensures Joined(Blocks(line) + [Remainder(line)] + rest.finished) + rest.partial
      == line + (Joined(rest.finished) + rest.partial)
  {
    BlocksHold(line);
    JoinedConcat(Blocks(line) + [Remainder(line)], rest.finished);
    JoinedConcat(Blocks(line), [Remainder(line)]);
    assert Joined([Remainder(line)]) == Remainder(line) by { assert [Remainder(line)][1..] == []; }
    Regroup(line, Joined(rest.finished), rest.partial);
  }
}
