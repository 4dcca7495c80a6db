/** The scan reads a command line as the grammar does: along any tree of any text, in any
    context, it passes over the tree's spans and proves exactly the tree's targets. */
module ShellMeaning {
  import opened Options
  import opened Utf8
  import opened Sequences
  import opened ShellScan
  import opened ShellGrammar
  import Rewrite = ShellRewrite

  // ----- passages of the scan -----

  /** The scan passes from one configuration to another and proves these targets. */
  ghost predicate Scans(t: seq<byte>, c: Config, d: Config, ts: seq<Range>)
    decreases |t| - c.at, |c.frames|, 0
  {
    || (c == d && ts == [])
    || (IsStack(c.frames) && c.at < |t| && ScansFrom(t, Step(t, c), d, ts))
  }

  ghost predicate ScansFrom(t: seq<byte>, m: Move, d: Config, ts: seq<Range>)
    decreases |t| - m.next.at, |m.next.frames|, 1
  {
    if m.hit.None? then Scans(t, m.next, d, ts)
    else ts != [] && ts[0] == m.hit.value && Scans(t, m.next, d, ts[1..])
  }

  function Proven(m: Move): seq<Range> { if m.hit.Some? then [m.hit.value] else [] }

  lemma ScansStep(t: seq<byte>, c: Config, m: Move, d: Config, ts: seq<Range>)
    requires IsStack(c.frames) && c.at < |t| && Step(t, c) == m && Scans(t, m.next, d, ts)
    ensures Scans(t, c, d, Proven(m) + ts)
  {
    var us := Proven(m) + ts;
    if m.hit.Some? { assert us[1..] == ts; } else { assert us == ts; }
    assert ScansFrom(t, m, d, us);
  }

  lemma ScansBegins(t: seq<byte>, c: Config, d: Config, ts: seq<Range>) returns (m: Move, rest: seq<Range>)
    requires Scans(t, c, d, ts) && !(c == d && ts == [])
    ensures IsStack(c.frames) && c.at < |t| && m == Step(t, c)
    ensures ts == Proven(m) + rest && Scans(t, m.next, d, rest)
  {
    m := Step(t, c);
    rest := if m.hit.Some? then ts[1..] else ts;
  }

  lemma StepScans(t: seq<byte>, c: Config, d: Config)
    requires IsStack(c.frames) && c.at < |t| && Step(t, c) == Move(d, None)
    ensures Scans(t, c, d, [])
  {
    assert Scans(t, d, d, []);
    ScansStep(t, c, Move(d, None), d, []);
  }

  lemma {:induction false} ScansOn(t: seq<byte>, c: Config, d: Config, e: Config, ts: seq<Range>, us: seq<Range>)
    requires Scans(t, c, d, ts) && Scans(t, d, e, us)
    ensures Scans(t, c, e, ts + us)
    decreases |t| - c.at, |c.frames|
  {
    if c == d && ts == [] {
      assert [] + us == us;
    } else {
      var m, rest := ScansBegins(t, c, d, ts);
      ScansOn(t, m.next, d, e, rest, us);
      Regroup(Proven(m), rest, us);
      ScansStep(t, c, m, e, rest + us);
    }
  }

  lemma PassOn(t: seq<byte>, c: Config, d: Config, e: Config)
    requires Scans(t, c, d, []) && Scans(t, d, e, [])
    ensures Scans(t, c, e, [])
  {
    var none: seq<Range> := [];
    assert none + none == none;
    ScansOn(t, c, d, e, none, none);
  }

  /** The scan passes to e, or the text ends before it leaves what it is in. */
  ghost predicate Lands(t: seq<byte>, c: Config, e: Config, ts: seq<Range>) {
    && (e.at < |t| ==> Scans(t, c, e, ts))
    && (e.at >= |t| ==> exists d :: Scans(t, c, d, ts) && d.at == |t|)
  }

  lemma ScansLands(t: seq<byte>, c: Config, e: Config, ts: seq<Range>)
    requires Scans(t, c, e, ts) && e.at <= |t|
    ensures Lands(t, c, e, ts)
  {}

  lemma LandsOn(t: seq<byte>, c: Config, d: Config, e: Config, ts: seq<Range>, us: seq<Range>)
    requires Scans(t, c, d, ts) && Lands(t, d, e, us)
    ensures Lands(t, c, e, ts + us)
  {
    if e.at < |t| {
      ScansOn(t, c, d, e, ts, us);
    } else {
      var f :| Scans(t, d, f, us) && f.at == |t|;
      ScansOn(t, c, d, f, ts, us);
    }
  }

  lemma {:induction false} ScansTargets(t: seq<byte>, c: Config, d: Config, ts: seq<Range>)
    requires IsStack(c.frames) && c.at <= |t| && Scans(t, c, d, ts)
    ensures IsStack(d.frames) && d.at <= |t| && Targets(t, c) == ts + Targets(t, d)
    decreases |t| - c.at, |c.frames|
  {
    if !(c == d && ts == []) {
      var m, rest := ScansBegins(t, c, d, ts);
      ScansTargets(t, m.next, d, rest);
      Regroup(Proven(m), rest, Targets(t, d));
    }
  }

  // ----- frames and contexts -----

  predicate HasContext(f: Frame) { !f.SingleQuoted? && !f.Body? }

  function ContextOf(f: Frame): Context
    requires HasContext(f)
  {
    match f
    case Command => Line
    case Substitution(_) => Parens
    case Backtick => Ticks
    case DoubleQuoted => Quoted
    case Conditional => Brackets
    case Arithmetic(_) => Sum
  }

  predicate InContext(t: seq<byte>, c: Config, x: Context) {
    IsStack(c.frames) && c.at <= |t| && HasContext(c.Top()) && ContextOf(c.Top()) == x
  }

  // ----- spans that do not nest -----

  lemma ByteScans(t: seq<byte>, c: Config, x: Context)
    requires InContext(t, c, x) && c.at < |t| && IsByte(t, x, c.pending, c.at)
    ensures Scans(t, c, c.Go(c.at + 1), [])
  {
    ByteStep(t, c, x);
    StepScans(t, c, c.Go(c.at + 1));
  }

  lemma NothingOpens(t: seq<byte>, x: Context, q: seq<Heredoc>, i: nat)
    requires i < |t| && IsByte(t, x, q, i)
    ensures !Opens(t, x, DoubleQuotes, i) && !Opens(t, x, Dollar, i) && !Opens(t, x, Tick, i)
    ensures !Opens(t, x, Group, i) && !Opens(t, x, Test, i) && !Opens(t, x, DollarSum, i) && !Opens(t, x, WordSum, i)
  {}

  lemma ByteStep(t: seq<byte>, c: Config, x: Context)
    requires InContext(t, c, x) && c.at < |t| && IsByte(t, x, c.pending, c.at)
    ensures Step(t, c) == Move(c.Go(c.at + 1), None)
  {
    NothingOpens(t, x, c.pending, c.at);
    if x.IsCommand() {
      PlainByteStep(t, c, x);
    } else if x.Sum? {
      assert t[c.at] != LPAREN && t[c.at] != RPAREN;
    } else {
      QuotedByteStep(t, c, x);
    }
  }

  lemma PlainByteStep(t: seq<byte>, c: Config, x: Context)
    requires InContext(t, c, x) && c.at < |t| && IsByte(t, x, c.pending, c.at) && x.IsCommand()
    ensures CommandStep(t, c) == Move(c.Go(c.at + 1), None)
  {
    NothingOpens(t, x, c.pending, c.at);
  }

  lemma QuotedByteStep(t: seq<byte>, c: Config, x: Context)
    requires InContext(t, c, x) && c.at < |t| && IsByte(t, x, c.pending, c.at) && (x.Quoted? || x.Brackets?)
    ensures Step(t, c) == Move(c.Go(c.at + 1), None)
  {
    NothingOpens(t, x, c.pending, c.at);
  }

  /** A backslash takes the next byte with it. */
  lemma EscapeScans(t: seq<byte>, c: Config, x: Context)
    requires InContext(t, c, x) && c.at < |t| && IsEscape(t, x, c.at)
    ensures Scans(t, c, c.Go(if c.at + 2 <= |t| then c.at + 2 else |t|), [])
  {
    StepScans(t, c, c.Go(if c.at + 2 <= |t| then c.at + 2 else |t|));
  }

  /** Nothing between single quotes is read; an unclosed one hides the rest of the text. */
  lemma SingleScans(t: seq<byte>, c: Config, x: Context, close: nat)
    requires InContext(t, c, x) && c.at < |t| && IsSingle(t, x, c.at) && QuoteCloses(t, c.at, close)
    ensures close < |t| ==> Scans(t, c, c.Go(close + 1), [])
    ensures close == |t| ==> exists d :: Scans(t, c, d, []) && d.at == |t|
  {
    var inside := c.Push(SingleQuoted, c.at + 1);
    OpenSingle(t, c, x);
    InSingle(t, inside, close);
    PassOn(t, c, inside, inside.Go(close));
    if close < |t| {
      CloseSingle(t, c, close);
      PassOn(t, c, inside.Go(close), c.Go(close + 1));
    }
  }

  lemma OpenSingle(t: seq<byte>, c: Config, x: Context)
    requires InContext(t, c, x) && c.at < |t| && IsSingle(t, x, c.at)
    ensures Scans(t, c, c.Push(SingleQuoted, c.at + 1), [])
  {
    StepScans(t, c, c.Push(SingleQuoted, c.at + 1));
  }

  lemma CloseSingle(t: seq<byte>, c: Config, close: nat)
    requires IsStack(c.frames) && close < |t| && t[close] == SQUOTE
    ensures Scans(t, c.Push(SingleQuoted, close), c.Go(close + 1), [])
  {
    StepScans(t, c.Push(SingleQuoted, close), c.Go(close + 1));
  }

  lemma {:induction false} InSingle(t: seq<byte>, c: Config, close: nat)
    requires IsStack(c.frames) && c.Top().SingleQuoted? && IsNext(t, c.at, SQUOTE, close)
    ensures Scans(t, c, c.Go(close), [])
    decreases close - c.at
  {
    if c.at < close {
      StepScans(t, c, c.Go(c.at + 1));
      InSingle(t, c.Go(c.at + 1), close);
      PassOn(t, c, c.Go(c.at + 1), c.Go(close));
    }
  }

  /** A comment is passed over up to its newline. */
  lemma CommentScans(t: seq<byte>, c: Config, x: Context, end: nat)
    requires InContext(t, c, x) && c.at < |t| && IsComment(t, x, c.at) && IsNext(t, c.at, LF, end)
    ensures Scans(t, c, c.Go(end), [])
  {
    FindIsNext(t, c.at, LF, end);
    StepScans(t, c, c.Go(end));
  }

  lemma FindIsNext(t: seq<byte>, i: nat, b: byte, j: nat)
    requires IsNext(t, i, b, j)
    ensures Find(t, i, b) == j
  {}

  lemma BlanksArePast(t: seq<byte>, i: nat, j: nat)
    requires PastBlanks(t, i, j)
    ensures SkipBlanks(t, i) == j
  {}

  lemma BoundaryIsWordEnd(t: seq<byte>, i: nat, j: nat)
    requires IsWordEnd(t, i, j)
    ensures FindBoundary(t, i) == j
  {}

  // ----- redirects -----

  /** A redirect proves exactly the null device that is its whole target. */
  lemma RedirectScans(t: seq<byte>, c: Config, x: Context, end: nat, hit: Option<Range>)
    requires InContext(t, c, x) && c.at < |t| && IsRedirect(t, x, c.at) && ReadsRedirect(t, x, c.at, end, hit)
    ensures end <= |t| && Scans(t, c, c.Go(end), if hit.Some? then [hit.value] else [])
  {
    RedirectMoves(t, c, x, end, hit);
    assert Scans(t, c.Go(end), c.Go(end), []);
    ScansStep(t, c, Move(c.Go(end), hit), c.Go(end), []);
    var none: seq<Range> := [];
    assert none + [] == none;
  }

  lemma RedirectMoves(t: seq<byte>, c: Config, x: Context, end: nat, hit: Option<Range>)
    requires InContext(t, c, x) && c.at < |t| && IsRedirect(t, x, c.at) && ReadsRedirect(t, x, c.at, end, hit)
    ensures end <= |t| && Step(t, c) == Move(c.Go(end), hit)
  {
    match hit
    case Some(r) =>
      Rewrite.HitExactly(t, c, r);
    case None =>
      NoHit(t, c, x);
      var word: nat :| IsRedirectWord(t, c.at, word) && end == AfterWordStart(t, word);
      RedirectEnd(t, c.at, c.Top().Backtick?, word);
      Rewrite.RedirectIsStep(t, c);
  }

  lemma NoHit(t: seq<byte>, c: Config, x: Context)
    requires InContext(t, c, x) && c.at < |t| && IsRedirect(t, x, c.at)
    requires forall r: Range :: !IsTarget(t, x, c.at, r)
    ensures RedirectTarget(t, c.at, c.Top().Backtick?).hit == None
  {
    var f := RedirectTarget(t, c.at, c.Top().Backtick?);
    if f.hit.Some? {
      var r := f.hit.value;
      assert !IsTarget(t, x, c.at, r);
      Rewrite.HitSpells(t, c.at, c.Top().Backtick?);
    }
  }

  lemma RedirectEnd(t: seq<byte>, i: nat, cb: bool, word: nat)
    requires i < |t| && IsRedirectWord(t, i, word) && RedirectTarget(t, i, cb).hit == None
    ensures RedirectTarget(t, i, cb).next == AfterWordStart(t, word)
  {
    BlanksArePast(t, if Has(t, i + 1, GT) then i + 2 else i + 1, word);
    if word < |t| && IsQuote(t[word]) {
      QuoteFound(t, word);
    }
  }

  lemma QuoteFound(t: seq<byte>, i: nat)
    requires i < |t|
    ensures QuoteCloses(t, i, Find(t, i + 1, t[i]))
    ensures QuoteCloses(t, i, |t|) <==> Find(t, i + 1, t[i]) == |t|
  {}

  // ----- heredocs -----

  /** An operator queues the heredoc whose delimiter it names. */
  lemma OpenerScans(t: seq<byte>, c: Config, x: Context, end: nat, heredoc: Option<Heredoc>)
    requires InContext(t, c, x) && c.at < |t| && IsOpener(t, x, c.at) && ReadsOpener(t, c.at, end, heredoc)
    ensures end <= |t|
    ensures Scans(t, c, Config(c.frames, if heredoc.Some? then c.pending + [heredoc.value] else c.pending, end), [])
  {
    OpenerReads(t, c.at, end, heredoc);
    StepScans(t, c, HeredocStep(t, c));
  }

  lemma OpenerReads(t: seq<byte>, i: nat, end: nat, heredoc: Option<Heredoc>)
    requires i + 2 <= |t| && ReadsOpener(t, i, end, heredoc)
    ensures end <= |t| && ReadHeredoc(t, i) == Opened(end, heredoc)
  {
    var strip := Has(t, i + 2, DASH);
    var word: nat :| IsDelimiterWord(t, i, word) && ReadsDelimiter(t, word, strip, end, heredoc);
    BlanksArePast(t, if strip then i + 3 else i + 2, word);
    DelimiterReads(t, word, strip, end, heredoc);
  }

  lemma DelimiterReads(t: seq<byte>, word: nat, strip: bool, end: nat, heredoc: Option<Heredoc>)
    requires word <= |t| && ReadsDelimiter(t, word, strip, end, heredoc)
    ensures end <= |t| && ReadDelimiter(t, word, strip) == Opened(end, heredoc)
  {
    if word == |t| {
    } else if IsQuote(t[word]) {
      var close: nat :| QuoteCloses(t, word, close)
        && (if close == |t| then end == |t| && heredoc == None
            else end == close + 1 && heredoc == Some(Heredoc(t[word + 1..close], strip)));
      FindIsNext(t, word + 1, t[word], close);
    } else {
      BoundaryIsWordEnd(t, word, end);
    }
  }

  lemma {:induction false} TabsStrip(n: nat, d: seq<byte>)
    requires d == [] || d[0] != TAB
    ensures StripTabs(Tabs(n) + d) == d
  {
    if n == 0 {
      assert [] + d == d;
    } else {
      assert (Tabs(n) + d)[1..] == Tabs(n - 1) + d;
      TabsStrip(n - 1, d);
    }
  }

  lemma {:induction false} StripFinds(line: seq<byte>) returns (n: nat)
    ensures line == Tabs(n) + StripTabs(line) && (StripTabs(line) == [] || StripTabs(line)[0] != TAB)
  {
    n := 0;
    if line != [] && line[0] == TAB {
      n := StripFinds(line[1..]);
      n := n + 1;
      assert line == [TAB] + line[1..];
      Regroup([TAB], Tabs(n - 1), StripTabs(line));
    } else {
      assert [] + line == line;
    }
  }

  /** The scan's test of a body line is the grammar's. */
  lemma ClosesIsLast(line: seq<byte>, h: Heredoc)
    ensures Closes(line, h) <==> IsLast(line, h)
  {
    var bare := StripCr(line);
    var cr := bare != line;
    assert line == bare + if cr then [CR] else [];
    if Closes(line, h) {
      var n := 0;
      if h.stripTabs { n := StripFinds(bare); } else { assert [] + bare == bare; }
      assert IsLastWith(line, h, n, cr);
    }
    if IsLast(line, h) {
      var n: nat, cr': bool :| IsLastWith(line, h, n, cr');
      LastStrips(line, h, n, cr');
    }
  }

  lemma LastStrips(line: seq<byte>, h: Heredoc, n: nat, cr: bool)
    requires IsLastWith(line, h, n, cr)
    ensures Closes(line, h)
  {
    var body := Tabs(n) + h.delimiter;
    if cr {
      assert line[|line| - 1] == CR && line[..|line| - 1] == body;
    } else {
      assert body + [] == body;
    }
    assert StripCr(line) == body;
    if h.stripTabs { TabsStrip(n, h.delimiter); } else { assert [] + h.delimiter == h.delimiter; }
  }

  /** Reading the body of a heredoc, or after the last one. */
  function InBody(c: Config, q: seq<Heredoc>, at: nat): Config {
    Config(c.frames + [Body], q, at)
  }

  lemma BodyLine(t: seq<byte>, c: Config, q: seq<Heredoc>, p: nat, e: nat)
    requires IsStack(c.frames) && q != [] && p < |t| && IsNext(t, p, LF, e)
    ensures Scans(t, InBody(c, q, p), InBody(c, if IsLast(t[p..e], q[0]) then q[1..] else q, AfterLine(t, e)), [])
  {
    FindIsNext(t, p, LF, e);
    ClosesIsLast(t[p..e], q[0]);
    BodyLineStep(t, InBody(c, q, p));
    StepScans(t, InBody(c, q, p), BodyStep(t, InBody(c, q, p)));
  }

  lemma BodyLineStep(t: seq<byte>, b: Config)
    requires IsStack(b.frames) && b.Top() == Body && b.at < |t|
    ensures Step(t, b) == Move(BodyStep(t, b), None)
  {}

  lemma NextLine(t: seq<byte>, p: nat, h: Heredoc, s: nat, e: nat)
    requires p < s <= |t| && (s == |t| || StartsLine(t, p, s)) && IsNext(t, p, LF, e) && NoLastLine(t, p, h, s)
    ensures !IsLast(t[p..e], h)
    ensures p < AfterLine(t, e) <= s && (s == |t| || StartsLine(t, AfterLine(t, e), s))
    ensures NoLastLine(t, AfterLine(t, e), h, s)
  {
    var p' := AfterLine(t, e);
    assert StartsLine(t, p, p);
    assert s < |t| ==> t[s - 1] == LF;
    forall l: nat, e': nat | p' <= l < s && l < |t| && StartsLine(t, p', l) && IsNext(t, l, LF, e')
      ensures !IsLast(t[l..e'], h)
    {
      assert StartsLine(t, p, l);
    }
  }

  lemma FindsNext(t: seq<byte>, i: nat, b: byte)
    requires i <= |t|
    ensures IsNext(t, i, b, Find(t, i, b))
  {}

  lemma {:induction false} SkipLines(t: seq<byte>, c: Config, q: seq<Heredoc>, p: nat, s: nat)
    requires IsStack(c.frames) && q != [] && p <= s <= |t| && (s == |t| || StartsLine(t, p, s))
    requires NoLastLine(t, p, q[0], s)
    ensures Scans(t, InBody(c, q, p), InBody(c, q, s), [])
    decreases s - p
  {
    if p < s {
      var e := Find(t, p, LF);
      FindsNext(t, p, LF);
      NextLine(t, p, q[0], s, e);
      BodyLine(t, c, q, p, e);
      SkipLines(t, c, q, AfterLine(t, e), s);
      PassOn(t, InBody(c, q, p), InBody(c, q, AfterLine(t, e)), InBody(c, q, s));
    }
  }

  lemma {:induction false} BodiesLand(t: seq<byte>, c: Config, q: seq<Heredoc>, p: nat, j: nat)
    requires IsStack(c.frames) && p <= |t| && ReadsBodies(t, p, q, j)
    ensures j <= |t| && Lands(t, InBody(c, q, p), Config(c.frames, [], j), [])
    decreases |q|
  {
    if q == [] {
      BodiesEnd(t, c, p);
    } else if NoLastLine(t, p, q[0], |t|) && j == |t| {
      SkipLines(t, c, q, p, |t|);
    } else {
      var s: nat, e: nat :| LastLine(t, p, q[0], s, e) && ReadsBodies(t, AfterLine(t, e), q[1..], j);
      SkipLines(t, c, q, p, s);
      BodyLine(t, c, q, s, e);
      PassOn(t, InBody(c, q, p), InBody(c, q, s), InBody(c, q[1..], AfterLine(t, e)));
      BodiesLand(t, c, q[1..], AfterLine(t, e), j);
      LandOn(t, InBody(c, q, p), InBody(c, q[1..], AfterLine(t, e)), Config(c.frames, [], j));
    }
  }

  lemma LandOn(t: seq<byte>, c: Config, d: Config, e: Config)
    requires Scans(t, c, d, []) && Lands(t, d, e, [])
    ensures Lands(t, c, e, [])
  {
    var none: seq<Range> := [];
    assert none + none == none;
    LandsOn(t, c, d, e, none, none);
  }

  lemma BodiesEnd(t: seq<byte>, c: Config, p: nat)
    requires IsStack(c.frames) && p <= |t|
    ensures Lands(t, InBody(c, [], p), Config(c.frames, [], p), [])
  {
    var b := InBody(c, [], p);
    if p < |t| {
      BodyLineStep(t, b);
      assert b.frames[..|b.frames| - 1] == c.frames;
      StepScans(t, b, Config(c.frames, [], p));
    } else {
      assert Scans(t, b, b, []);
    }
  }

  /** After a newline the bodies of all queued heredocs are passed over. */
  lemma BodiesScan(t: seq<byte>, c: Config, x: Context, end: nat)
    requires InContext(t, c, x) && c.at < |t| && IsBodies(t, x, c.pending, c.at)
    requires ReadsBodies(t, c.at + 1, c.pending, end)
    ensures end <= |t| && Lands(t, c, Config(c.frames, [], end), [])
  {
    StepScans(t, c, InBody(c, c.pending, c.at + 1));
    BodiesLand(t, c, c.pending, c.at + 1, end);
    LandOn(t, c, InBody(c, c.pending, c.at + 1), Config(c.frames, [], end));
  }

  // ----- spans that nest -----

  /** The configuration inside a span that opens here. */
  function Entered(c: Config, kind: Kind): Config
    requires c.frames != []
  {
    var at := c.at + OpenLength(kind);
    match kind
    case DoubleQuotes => c.Push(DoubleQuoted, at)
    case Dollar => c.Push(Substitution(0), at)
    case Tick => c.Push(Backtick, at)
    case Group => c.Deeper(at)
    case Test => c.Push(Conditional, at)
    case _ => c.Push(Arithmetic(0), at)
  }

  lemma OpenScans(t: seq<byte>, c: Config, x: Context, kind: Kind)
    requires InContext(t, c, x) && c.at < |t| && Opens(t, x, kind, c.at)
    ensures InContext(t, Entered(c, kind), Inside(kind, x)) && Entered(c, kind).pending == c.pending
    ensures Scans(t, c, Entered(c, kind), [])
  {
    OpenStep(t, c, x, kind);
    StepScans(t, c, Entered(c, kind));
  }

  lemma OpenStep(t: seq<byte>, c: Config, x: Context, kind: Kind)
    requires InContext(t, c, x) && c.at < |t| && Opens(t, x, kind, c.at)
    ensures Entered(c, kind).at <= |t| && Step(t, c) == Move(Entered(c, kind), None)
  {}

  /** The end of a span returns to the enclosing stack. */
  lemma CloseScans(t: seq<byte>, c: Config, x: Context, kind: Kind, q: seq<Heredoc>, close: nat)
    requires InContext(t, c, x) && c.at < |t| && Opens(t, x, kind, c.at)
    requires close < |t| && Ends(t, Inside(kind, x), close)
    ensures close + CloseLength(kind) <= |t|
    ensures Scans(t, Config(Entered(c, kind).frames, q, close), Config(c.frames, q, close + CloseLength(kind)), [])
  {
    CloseStep(t, c, x, kind, q, close);
    StepScans(t, Config(Entered(c, kind).frames, q, close), Config(c.frames, q, close + CloseLength(kind)));
  }

  lemma CloseStep(t: seq<byte>, c: Config, x: Context, kind: Kind, q: seq<Heredoc>, close: nat)
    requires InContext(t, c, x) && c.at < |t| && Opens(t, x, kind, c.at)
    requires close < |t| && Ends(t, Inside(kind, x), close)
    ensures IsStack(Entered(c, kind).frames) && close + CloseLength(kind) <= |t|
    ensures Step(t, Config(Entered(c, kind).frames, q, close))
      == Move(Config(c.frames, q, close + CloseLength(kind)), None)
  {
    var inside := Config(Entered(c, kind).frames, q, close);
    if kind.Group? {
      assert inside.frames[|c.frames| - 1 := c.Top()] == c.frames;
    } else {
      assert inside.frames[..|c.frames|] == c.frames;
    }
  }

  // ----- trees -----

  /** Along the nodes of a tree the scan proves exactly their targets. */
  lemma {:induction false} NodesLand(t: seq<byte>, c: Config, x: Context, nodes: Nodes, j: nat)
    requires InContext(t, c, x) && Covers(t, x, c.pending, nodes, c.at, j)
    ensures j <= |t| && Lands(t, c, Config(c.frames, AllPending(nodes, c.pending), j), Leaves(nodes))
    decreases nodes, 1
  {
    if nodes.Nil? {
      assert Scans(t, c, c, []);
    } else {
      var d := Config(c.frames, Pending(nodes.head, c.pending), nodes.head.End());
      NodeLands(t, c, x, nodes.head);
      if d.at < |t| {
        NodesLand(t, d, x, nodes.tail, j);
        LandsOn(t, c, d, Config(c.frames, AllPending(nodes, c.pending), j), LeavesOf(nodes.head), Leaves(nodes.tail));
      } else {
        NothingFollows(t, x, d.pending, nodes.tail, j);
        var none: seq<Range> := [];
        assert Leaves(nodes) == LeavesOf(nodes.head) + none == LeavesOf(nodes.head);
      }
    }
  }

  lemma NothingFollows(t: seq<byte>, x: Context, q: seq<Heredoc>, nodes: Nodes, j: nat)
    requires Covers(t, x, q, nodes, |t|, j)
    ensures nodes == Nil && j == |t|
  {}

  lemma {:induction false} NodeLands(t: seq<byte>, c: Config, x: Context, node: Node)
    requires InContext(t, c, x) && node.at == c.at && Reads(t, x, c.pending, node)
    ensures node.End() <= |t|
    ensures Lands(t, c, Config(c.frames, Pending(node, c.pending), node.End()), LeavesOf(node))
    decreases node, 0
  {
    match node
    case Byte(_) => ByteScans(t, c, x);
    case Escape(_, _) => EscapeScans(t, c, x);
    case Single(_, end) =>
      var close: nat :| QuoteCloses(t, c.at, close) && end == if close < |t| then close + 1 else |t|;
      SingleScans(t, c, x, close);
    case Comment(_, end) => CommentScans(t, c, x, end);
    case Redirect(_, end, hit) => RedirectScans(t, c, x, end, hit);
    case Opener(_, end, heredoc) => OpenerScans(t, c, x, end, heredoc);
    case Bodies(_, end) => BodiesScan(t, c, x, end);
    case Nested(_, end, kind, kids, close) =>
      OpenScans(t, c, x, kind);
      NodesLand(t, Entered(c, kind), Inside(kind, x), kids, close);
      NestedLands(t, c, x, kind, kids, close, end);
  }

  lemma NestedLands(t: seq<byte>, c: Config, x: Context, kind: Kind, kids: Nodes, close: nat, end: nat)
    requires InContext(t, c, x) && c.at < |t| && Opens(t, x, kind, c.at) && close <= |t|
    requires if close < |t| then Ends(t, Inside(kind, x), close) && end == close + CloseLength(kind) else end == |t|
    requires Scans(t, c, Entered(c, kind), [])
    requires Lands(t, Entered(c, kind), Config(Entered(c, kind).frames, AllPending(kids, c.pending), close),
                   Leaves(kids))
    ensures end <= |t| && Lands(t, c, Config(c.frames, AllPending(kids, c.pending), end), Leaves(kids))
  {
    var inside, q := Entered(c, kind), AllPending(kids, c.pending);
    if close < |t| { CloseScans(t, c, x, kind, q, close); }
    Enclosed(t, c, inside, Config(inside.frames, q, close), Config(c.frames, q, end), Leaves(kids));
  }

  lemma Enclosed(t: seq<byte>, c: Config, inside: Config, last: Config, out: Config, ts: seq<Range>)
    requires Scans(t, c, inside, []) && Lands(t, inside, last, ts) && last.at <= |t|
    requires if last.at < |t| then out.at <= |t| && Scans(t, last, out, []) else out.at == |t|
    ensures Lands(t, c, out, ts)
  {
    var none: seq<Range> := [];
    assert none + ts == ts && ts + none == ts;
    LandsOn(t, c, inside, last, none, ts);
    if last.at < |t| {
      ScansOn(t, c, last, out, ts, none);
    }
  }

  /** The targets a scan of the whole text proves are the command-level targets of its
      tree, and the rewriting replaces exactly them. */
  lemma TargetsAreLeaves(t: seq<byte>, nodes: Nodes)
    requires IsTree(t, nodes)
    ensures Targets(t, START) == Leaves(nodes)
    ensures Rewrite.Ordered(t, 0, Leaves(nodes)) && Rewrite.Rewritten(t) == Rewrite.Splice(t, 0, Leaves(nodes))
  {
    NodesLand(t, START, Line, nodes, |t|);
    var d :| Scans(t, START, d, Leaves(nodes)) && d.at == |t|;
    ScansTargets(t, START, d, Leaves(nodes));
    assert Leaves(nodes) + [] == Leaves(nodes);
    Rewrite.TargetsOrdered(t, START);
  }

  /** The output is the text with the null device over the command-level targets of its
      tree, and nothing else changed. */
  ghost predicate Replaces(t: seq<byte>, out: seq<byte>) {
    forall nodes: Nodes :: IsTree(t, nodes) ==>
      Rewrite.Ordered(t, 0, Leaves(nodes)) && out == Rewrite.Splice(t, 0, Leaves(nodes))
  }

  lemma RewrittenReplaces(t: seq<byte>)
    ensures Replaces(t, Rewrite.Rewritten(t))
    ensures Targets(t, START) == [] ==> Rewrite.Rewritten(t) == t
  {
    forall nodes: Nodes | IsTree(t, nodes)
      ensures Rewrite.Ordered(t, 0, Leaves(nodes)) && Rewrite.Rewritten(t) == Rewrite.Splice(t, 0, Leaves(nodes))
    {
      TargetsAreLeaves(t, nodes);
    }
    Rewrite.RewrittenDiffers(t);
  }

  // ----- every text has a tree -----

  lemma {:induction false} HasNodes(t: seq<byte>, x: Context, q: seq<Heredoc>, i: nat) returns (nodes: Nodes, j: nat)
    requires i <= |t|
    ensures Covers(t, x, q, nodes, i, j) && i <= j <= |t| && (j == |t| || Ends(t, x, j))
    decreases |t| - i, 1
  {
    nodes, j := Nil, i;
    if i < |t| && !Ends(t, x, i) {
      var node := HasNode(t, x, q, i);
      nodes, j := HasNodes(t, x, Pending(node, q), node.End());
      nodes := Cons(node, nodes);
    }
  }

  lemma {:induction false} HasNode(t: seq<byte>, x: Context, q: seq<Heredoc>, i: nat) returns (node: Node)
    requires i < |t| && !Ends(t, x, i)
    ensures node.at == i && Reads(t, x, q, node)
    decreases |t| - i, 0
  {
    if kind: Kind :| Opens(t, x, kind, i) {
      OpensInText(t, x, kind, i);
      var kids, close := HasNodes(t, Inside(kind, x), q, i + OpenLength(kind));
      EndsInText(t, Inside(kind, x), kind, x, close);
      node := Nested(i, if close < |t| then close + CloseLength(kind) else |t|, kind, kids, close);
    } else {
      node := HasFlat(t, x, q, i);
    }
  }

  lemma OpensInText(t: seq<byte>, x: Context, kind: Kind, i: nat)
    requires i < |t| && Opens(t, x, kind, i)
    ensures i + OpenLength(kind) <= |t|
  {}

  lemma EndsInText(t: seq<byte>, inside: Context, kind: Kind, x: Context, close: nat)
    requires inside == Inside(kind, x) && (kind.Group? ==> x.Sum? || x.Parens?)
    requires close <= |t| && (close < |t| ==> Ends(t, inside, close))
    ensures close < |t| ==> close + CloseLength(kind) <= |t|
  {}

  lemma HasFlat(t: seq<byte>, x: Context, q: seq<Heredoc>, i: nat) returns (node: Node)
    requires i < |t| && !Ends(t, x, i) && forall kind: Kind :: !Opens(t, x, kind, i)
    ensures node.at == i && Reads(t, x, q, node)
  {
    if IsEscape(t, x, i) {
      node := Escape(i, if i + 2 <= |t| then i + 2 else |t|);
    } else if IsSingle(t, x, i) {
      node := HasSingle(t, x, q, i);
    } else if IsComment(t, x, i) {
      FindsNext(t, i, LF);
      node := Comment(i, Find(t, i, LF));
    } else if IsRedirect(t, x, i) {
      node := HasRedirect(t, x, q, i);
    } else if IsOpener(t, x, i) {
      node := HasOpener(t, x, q, i);
    } else if IsBodies(t, x, q, i) {
      var end := HasBodies(t, i + 1, q);
      node := Bodies(i, end);
    } else {
      node := Byte(i);
    }
  }

  lemma HasSingle(t: seq<byte>, x: Context, q: seq<Heredoc>, i: nat) returns (node: Node)
    requires i < |t| && IsSingle(t, x, i)
    ensures node.at == i && Reads(t, x, q, node)
  {
    var close := Find(t, i + 1, t[i]);
    QuoteFound(t, i);
    node := Single(i, if close < |t| then close + 1 else |t|);
    assert ReadsSingle(t, i, node.end);
  }

  lemma HasRedirect(t: seq<byte>, x: Context, q: seq<Heredoc>, i: nat) returns (node: Node)
    requires i < |t| && IsRedirect(t, x, i)
    ensures node.at == i && Reads(t, x, q, node)
  {
    if r: Range :| IsTarget(t, x, i, r) {
      Rewrite.ProvesFinds(t, i, x.Ticks?, r);
      node := Redirect(i, r.end, Some(r));
    } else {
      var word := TargetStart(t, i);
      assert IsRedirectWord(t, i, word);
      node := Redirect(i, AfterWordStart(t, word), None);
    }
  }

  lemma HasOpener(t: seq<byte>, x: Context, q: seq<Heredoc>, i: nat) returns (node: Node)
    requires i < |t| && IsOpener(t, x, i)
    ensures node.at == i && Reads(t, x, q, node)
  {
    var strip := Has(t, i + 2, DASH);
    var word := SkipBlanks(t, if strip then i + 3 else i + 2);
    assert IsDelimiterWord(t, i, word);
    var o := ReadDelimiter(t, word, strip);
    HasDelimiter(t, word, strip);
    node := Opener(i, o.next, o.heredoc);
  }

  lemma HasDelimiter(t: seq<byte>, word: nat, strip: bool)
    requires word <= |t|
    ensures var o := ReadDelimiter(t, word, strip); ReadsDelimiter(t, word, strip, o.next, o.heredoc)
  {
    if word < |t| && IsQuote(t[word]) { QuoteFound(t, word); }
  }

  lemma {:induction false} HasBodies(t: seq<byte>, p: nat, q: seq<Heredoc>) returns (j: nat)
    requires p <= |t|
    ensures p <= j <= |t| && ReadsBodies(t, p, q, j)
    decreases |q|
  {
    j := p;
    if q != [] {
      var found, s, e := HasLastLine(t, p, q[0]);
      if found {
        j := HasBodies(t, AfterLine(t, e), q[1..]);
      } else {
        j := |t|;
      }
    }
  }

  lemma {:induction false} HasLastLine(t: seq<byte>, p: nat, h: Heredoc) returns (found: bool, s: nat, e: nat)
    requires p <= |t|
    ensures found ==> LastLine(t, p, h, s, e) && e <= |t|
    ensures !found ==> NoLastLine(t, p, h, |t|)
    decreases |t| - p
  {
    found, s, e := false, p, p;
    if p < |t| {
      e := Find(t, p, LF);
      FindsNext(t, p, LF);
      if IsLast(t[p..e], h) {
        found := true;
      } else {
        var after := AfterLine(t, e);
        var e0 := e;
        found, s, e := HasLastLine(t, after, h);
        LaterLines(t, p, h, e0, if found then s else |t|);
      }
    }
  }

  /** When the first line is not the last, the lines after it are all there are. */
  lemma LaterLines(t: seq<byte>, p: nat, h: Heredoc, e: nat, s: nat)
    requires p < |t| && IsNext(t, p, LF, e) && !IsLast(t[p..e], h) && AfterLine(t, e) <= s <= |t|
    requires NoLastLine(t, AfterLine(t, e), h, s)
    ensures NoLastLine(t, p, h, s)
    ensures s < |t| && StartsLine(t, AfterLine(t, e), s) ==> StartsLine(t, p, s)
  {
    forall l: nat, e': nat | p <= l < s && l < |t| && StartsLine(t, p, l) && IsNext(t, l, LF, e')
      ensures !IsLast(t[l..e'], h)
    {
      if l == p {
        FindIsNext(t, p, LF, e);
        FindIsNext(t, p, LF, e');
      } else {
        assert t[l - 1] == LF;
        assert AfterLine(t, e) <= l && StartsLine(t, AfterLine(t, e), l);
      }
    }
  }

  /** Every text has a tree, so the grammar says of every text which targets are proven. */
  lemma EveryTextHasTree(t: seq<byte>) returns (nodes: Nodes)
    ensures IsTree(t, nodes) && Targets(t, START) == Leaves(nodes)
  {
    var j;
    nodes, j := HasNodes(t, Line, [], 0);
    TargetsAreLeaves(t, nodes);
  }
}
