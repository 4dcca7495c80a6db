/** UTF-8 byte grammar (section 4 of RFC 3629) and the decoding the Rust standard
    library builds on it: one sequence read at the head of a buffer, lossy decoding
    with one replacement character per maximal subpart (section 3.9 of the Unicode
    Standard), and the character boundaries string slicing relies on. */
module Utf8 {
  import opened Sequences

  type byte = b: int | 0 <= b < 256

  const REPLACEMENT: nat := 0xFFFD

  predicate IsScalarValue(c: int) {
    0 <= c < 0xD800 || 0xE000 <= c < 0x11_0000
  }

  predicate Tail(b: byte) {
    0x80 <= b <= 0xBF
  }

  /** UTF8-char of RFC 3629, alternative by alternative. */
  predicate IsChar(s: seq<byte>) {
    || (|s| == 1 && s[0] <= 0x7F)
    || (|s| == 2 && 0xC2 <= s[0] <= 0xDF && Tail(s[1]))
    || (|s| == 3 && s[0] == 0xE0 && 0xA0 <= s[1] <= 0xBF && Tail(s[2]))
    || (|s| == 3 && 0xE1 <= s[0] <= 0xEC && Tail(s[1]) && Tail(s[2]))
    || (|s| == 3 && s[0] == 0xED && 0x80 <= s[1] <= 0x9F && Tail(s[2]))
    || (|s| == 3 && 0xEE <= s[0] <= 0xEF && Tail(s[1]) && Tail(s[2]))
    || (|s| == 4 && s[0] == 0xF0 && 0x90 <= s[1] <= 0xBF && Tail(s[2]) && Tail(s[3]))
    || (|s| == 4 && 0xF1 <= s[0] <= 0xF3 && Tail(s[1]) && Tail(s[2]) && Tail(s[3]))
    || (|s| == 4 && s[0] == 0xF4 && 0x80 <= s[1] <= 0x8F && Tail(s[2]) && Tail(s[3]))
  }

  /** A nonempty proper prefix of some well-formed sequence. */
  ghost predicate IsTruncated(s: seq<byte>) {
    s != [] && exists x: seq<byte> :: x != [] && IsChar(s + x)
  }

  function Width(b: byte): nat {
    if b <= 0x7F then 1
    else if b < 0xC2 then 0
    else if b <= 0xDF then 2
    else if b <= 0xEF then 3
    else if b <= 0xF4 then 4
    else 0
  }

  predicate SecondFits(first: byte, second: byte) {
    if first == 0xE0 then 0xA0 <= second <= 0xBF
    else if first == 0xED then 0x80 <= second <= 0x9F
    else if first == 0xF0 then 0x90 <= second <= 0xBF
    else if first == 0xF4 then 0x80 <= second <= 0x8F
    else Tail(second)
  }

  /** Six more payload bits from a tail byte. */
  function Join(high: nat, low: byte): nat
    requires Tail(low)
  {
    high * 64 + (low - 0x80)
  }

  /** What stands at the head of a buffer: a whole character of len bytes, len bytes
      that can never become one, or the start of a character the buffer cuts off. */
  datatype Head = Whole(len: nat, code: nat) | Bad(len: nat) | Cut {
    function Shown(): nat
      requires !Cut?
    {
      if Whole? then code else REPLACEMENT
    }
  }

  function ReadHead(s: seq<byte>): (h: Head)
    requires s != []
    ensures h.Whole? ==> 1 <= h.len <= |s|
    ensures h.Bad? ==> 1 <= h.len <= |s|
  {
    var w := Width(s[0]);
    if w == 0 then Bad(1)
    else if w == 1 then Whole(1, s[0])
    else if |s| < 2 then Cut
    else if !SecondFits(s[0], s[1]) then Bad(1)
    else if w == 2 then Whole(2, Join(s[0] - 0xC0, s[1]))
    else if |s| < 3 then Cut
    else if !Tail(s[2]) then Bad(2)
    else if w == 3 then Whole(3, Join(Join(s[0] - 0xE0, s[1]), s[2]))
    else if |s| < 4 then Cut
    else if !Tail(s[3]) then Bad(3)
    else Whole(4, Join(Join(Join(s[0] - 0xF0, s[1]), s[2]), s[3]))
  }

  lemma ReadHeadIsGrammar(s: seq<byte>)
    requires s != []
    ensures ReadHead(s).Whole? <==> exists n :: 0 <= n <= |s| && IsChar(s[..n])
    ensures ReadHead(s).Whole? ==> IsChar(s[..ReadHead(s).len]) && IsScalarValue(ReadHead(s).code)
    ensures ReadHead(s).Cut? <==> IsTruncated(s)
  {
    if ReadHead(s).Whole? { WholeIsChar(s); }
    if n :| 0 <= n <= |s| && IsChar(s[..n]) { CharIsWhole(s, n); }
    if ReadHead(s).Cut? { CutIsTruncated(s); }
    if x: seq<byte> :| x != [] && IsChar(s + x) { TruncatedIsCut(s, x); }
  }

  lemma WholeIsChar(s: seq<byte>)
    requires s != [] && ReadHead(s).Whole?
    ensures IsChar(s[..ReadHead(s).len]) && IsScalarValue(ReadHead(s).code)
  {}

  lemma CharIsWhole(s: seq<byte>, n: nat)
    requires n <= |s| && IsChar(s[..n])
    ensures s != [] && ReadHead(s).Whole?
  {
    var t := s[..n];
    assert forall k :: 0 <= k < n ==> s[k] == t[k];
  }

  lemma CutIsTruncated(s: seq<byte>)
    requires s != [] && ReadHead(s).Cut?
    ensures IsTruncated(s)
  {
    var second: byte := if s[0] == 0xE0 then 0xA0 else if s[0] == 0xF0 then 0x90 else 0x80;
    var x: seq<byte> := if |s| == 1 then [second, 0x80, 0x80][..Width(s[0]) - 1] else seq(Width(s[0]) - |s|, _ => 0x80);
    assert IsChar(s + x);
  }

  lemma TruncatedIsCut(s: seq<byte>, x: seq<byte>)
    requires s != [] && x != [] && IsChar(s + x)
    ensures ReadHead(s).Cut?
  {
    var t := s + x;
    assert forall k :: 0 <= k < |s| ==> s[k] == t[k];
  }

  /** error_len is the length of the maximal subpart: what is replaced is one byte, or
      a truncated sequence the next byte cannot continue. */
  lemma BadIsMaximalSubpart(s: seq<byte>)
    requires s != [] && ReadHead(s).Bad?
    ensures var n := ReadHead(s).len;
      && n <= 3
      && (n == 1 || IsTruncated(s[..n]))
      && (n < |s| ==> !IsTruncated(s[..n + 1]) && !IsChar(s[..n + 1]))
      && (n == |s| ==> n == 1)
  {
    var n := ReadHead(s).len;
    ReadHeadIsGrammar(s[..n]);
    if n < |s| {
      ReadHeadIsGrammar(s[..n + 1]);
    }
  }

  lemma ReadHeadAppend(s: seq<byte>, x: seq<byte>)
    requires s != [] && !ReadHead(s).Cut?
    ensures ReadHead(s + x) == ReadHead(s)
  {}

  lemma CutIsShort(s: seq<byte>)
    requires s != [] && ReadHead(s).Cut?
    ensures |s| <= 3 && s[0] >= 0x80
  {}

  datatype Decoded = Decoded(text: seq<nat>, rest: seq<byte>) {
    /** This text, then what decoding the held-back bytes with more input gave. */
    function Then(more: Decoded): Decoded {
      Decoded(text + more.text, more.rest)
    }
  }

  /** Decoding with replacement; rest is a truncated sequence at the end, if any. */
  function Decode(s: seq<byte>): (d: Decoded)
  {
    if s == [] then Decoded([], [])
    else
      var h := ReadHead(s);
      if h.Cut? then Decoded([], s)
      else
        var d := Decode(s[h.len..]);
        Decoded([h.Shown()] + d.text, d.rest)
  }

  lemma {:induction false} DecodeRest(s: seq<byte>)
    ensures var r := Decode(s).rest; r == [] || IsTruncated(r)
    ensures |Decode(s).rest| <= 3
    ensures Decode(Decode(s).rest) == Decoded([], Decode(s).rest)
    decreases |s|
  {
    if s != [] {
      if ReadHead(s).Cut? {
        ReadHeadIsGrammar(s);
        CutIsShort(s);
      } else {
        DecodeRest(s[ReadHead(s).len..]);
      }
    }
  }

  /** Bytes that cannot become a character are one U+FFFD, whatever follows them. */
  lemma BadIsReplaced(s: seq<byte>)
    requires s != [] && ReadHead(s).Bad?
    ensures var rest := Decode(s[ReadHead(s).len..]); Decode(s) == Decoded([0xFFFD] + rest.text, rest.rest)
  {
    DecodeStep(s, ReadHead(s));
  }

  lemma DecodeStep(s: seq<byte>, h: Head)
    requires s != [] && h == ReadHead(s) && !h.Cut?
    ensures Decode(s) == Decoded([h.Shown()] + Decode(s[h.len..]).text, Decode(s[h.len..]).rest)
  {}

  lemma DecodeHeld(a: seq<byte>, b: seq<byte>)
    requires a != [] && ReadHead(a).Cut?
    ensures Decode(a + b) == Decode(a).Then(Decode(Decode(a).rest + b))
  {
    var d := Decode(a + b);
    assert [] + d.text == d.text;
  }

  lemma DecodeStepAppend(a: seq<byte>, b: seq<byte>, h: Head)
    requires a != [] && h == ReadHead(a) && !h.Cut?
    ensures Decode(a + b) == Decoded([h.Shown()], []).Then(Decode(a[h.len..] + b))
  {
    ReadHeadAppend(a, b);
    assert (a + b)[h.len..] == a[h.len..] + b;
  }

  /** Decoding may stop anywhere and resume with what it held back. */
  lemma {:induction false} DecodeResumes(a: seq<byte>, b: seq<byte>)
    ensures Decode(a + b) == Decode(a).Then(Decode(Decode(a).rest + b))
    decreases |a|
  {
    if a == [] {
      assert a + b == b && Decode(a).rest + b == b;
    } else if ReadHead(a).Cut? {
      DecodeHeld(a, b);
    } else {
      var h := ReadHead(a);
      var tail := a[h.len..];
      DecodeStepAppend(a, b, h);
      DecodeStep(a, h);
      DecodeResumes(tail, b);
      Regroup([h.Shown()], Decode(tail).text, Decode(Decode(tail).rest + b).text);
    }
  }

  function Encode(c: nat): (s: seq<byte>)
    requires IsScalarValue(c)
    ensures s != []
  {
    if c < 0x80 then [c]
    else if c < 0x800 then [0xC0 + c / 64, 0x80 + c % 64]
    else if c < 0x1_0000 then [0xE0 + c / 4096, 0x80 + c / 64 % 64, 0x80 + c % 64]
    else [0xF0 + c / 262144, 0x80 + c / 4096 % 64, 0x80 + c / 64 % 64, 0x80 + c % 64]
  }

  lemma EncodeReads(c: nat, x: seq<byte>)
    requires IsScalarValue(c)
    ensures ReadHead(Encode(c) + x) == Whole(|Encode(c)|, c)
  {
    assert c / 4096 == c / 64 / 64 && c / 262144 == c / 64 / 64 / 64;
  }

  predicate IsText(text: seq<nat>) {
    forall c <- text :: IsScalarValue(c)
  }

  function EncodeText(text: seq<nat>): seq<byte>
    requires IsText(text)
  {
    if text == [] then [] else Encode(text[0]) + EncodeText(text[1..])
  }

  lemma {:induction false} DecodeEncode(text: seq<nat>)
    requires IsText(text)
    ensures Decode(EncodeText(text)) == Decoded(text, [])
  {
    if text != [] {
      var e := Encode(text[0]);
      var rest := EncodeText(text[1..]);
      EncodeReads(text[0], rest);
      assert (e + rest)[|e|..] == rest;
      DecodeEncode(text[1..]);
    }
  }

  // ----- string slices -----

  /** The invariant of a Rust str. */
  predicate Valid(s: seq<byte>) {
    s == [] || (ReadHead(s).Whole? && Valid(s[ReadHead(s).len..]))
  }

  /** str::is_char_boundary. */
  predicate IsBoundary(s: seq<byte>, i: nat) {
    i == 0 || i == |s| || (i < |s| && !Tail(s[i]))
  }

  lemma {:induction false} ValidConcat(a: seq<byte>, b: seq<byte>)
    requires Valid(a) && Valid(b)
    ensures Valid(a + b)
    decreases |a|
  {
    if a == [] {
      assert a + b == b;
    } else {
      var n := ReadHead(a).len;
      ReadHeadAppend(a, b);
      assert (a + b)[n..] == a[n..] + b;
      ValidConcat(a[n..], b);
    }
  }

  /** A str may be cut exactly where is_char_boundary says, and both halves are str. */
  lemma {:induction false} ValidSplit(s: seq<byte>, i: nat)
    requires Valid(s) && i <= |s|
    ensures IsBoundary(s, i) <==> Valid(s[..i])
    ensures IsBoundary(s, i) ==> Valid(s[i..])
    decreases |s|
  {
    if i == 0 {
      assert s[..0] == [] && s[0..] == s;
    } else if i == |s| {
      assert s[..i] == s && s[i..] == [];
    } else {
      var n := ReadHead(s).len;
      var rest := s[n..];
      if i < n {
        assert Tail(s[i]);
        assert s[..i][0] == s[0];
      } else {
        ReadHeadPrefix(s, i);
        assert s[..i][n..] == rest[..i - n];
        assert s[i..] == rest[i - n..];
        ValidSplit(rest, i - n);
        if i == n {
          assert rest[0] == s[i];
        }
      }
    }
  }

  lemma ReadHeadPrefix(s: seq<byte>, i: nat)
    requires s != [] && ReadHead(s).Whole? && ReadHead(s).len <= i <= |s|
    ensures ReadHead(s[..i]) == ReadHead(s)
  {}

  lemma {:induction false} AfterAscii(s: seq<byte>, i: nat)
    requires Valid(s) && i < |s| && s[i] < 0x80
    ensures IsBoundary(s, i) && IsBoundary(s, i + 1)
    decreases |s|
  {
    var n := ReadHead(s).len;
    if i >= n {
      AfterAscii(s[n..], i - n);
    } else if n < |s| {
      assert i == 0 && n == 1;
    }
  }
}
