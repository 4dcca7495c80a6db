/** The null-redirect scan of a command line as a pushdown machine: a stack of lexical
    contexts, a queue of pending heredocs and a byte offset, advanced one step at a
    time. It follows the scanner as written, not the full shell grammar: the second
    bracket of a here string is read again by the default step, and the second closing
    parenthesis of an arithmetic expansion is read by the enclosing frame. */
module ShellScan {
  import opened Options
  import opened Utf8

  const TAB: byte := 9
  const LF: byte := 10
  const CR: byte := 13
  const SPACE: byte := 32
  const DQUOTE: byte := 34
  const HASH: byte := 35
  const DOLLAR: byte := 36
  const AMP: byte := 38
  const SQUOTE: byte := 39
  const LPAREN: byte := 40
  const RPAREN: byte := 41
  const DASH: byte := 45
  const SLASH: byte := 47
  const SEMI: byte := 59
  const LT: byte := 60
  const GT: byte := 62
  const LBRACKET: byte := 91
  const BACKSLASH: byte := 92
  const RBRACKET: byte := 93
  const BACKTICK: byte := 96
  const PIPE: byte := 124

  /** "/dev/null" */
  const DEV_NULL: seq<byte> := [SLASH, 100, 101, 118, SLASH, 110, 117, 108, 108]

  datatype Heredoc = Heredoc(delimiter: seq<byte>, stripTabs: bool)

  datatype Frame =
    | Command
    | Substitution(parens: nat)
    | Backtick
    | SingleQuoted
    | DoubleQuoted
    | Conditional
    | Arithmetic(parens: nat)
    | Body
  {
    /** The three contexts whose text is a command line. */
    predicate ReadsCommands() {
      Command? || Substitution? || Backtick?
    }
  }

  /** The bottom frame is the command line itself and is never popped. */
  predicate IsStack(frames: seq<Frame>) {
    frames != [] && frames[0] == Command
  }

  datatype Config = Config(frames: seq<Frame>, pending: seq<Heredoc>, at: nat) {
    function Top(): Frame
      requires frames != []
    {
      frames[|frames| - 1]
    }

    function Go(next: nat): Config { Config(frames, pending, next) }

    function Push(frame: Frame, next: nat): Config { Config(frames + [frame], pending, next) }

    function Pop(next: nat): Config
      requires frames != []
    {
      Config(frames[..|frames| - 1], pending, next)
    }

    /** One parenthesis deeper, when the top frame counts them. */
    function Deeper(next: nat): Config
      requires frames != []
    {
      var top := match Top()
        case Substitution(p) => Substitution(p + 1)
        case Arithmetic(p) => Arithmetic(p + 1)
        case f => f;
      Config(Retop(top), pending, next)
    }

    /** One parenthesis shallower, saturating at zero. */
    function Shallower(next: nat): Config
      requires frames != []
    {
      var top := match Top()
        case Substitution(p) => Substitution(Less(p))
        case Arithmetic(p) => Arithmetic(Less(p))
        case f => f;
      Config(Retop(top), pending, next)
    }

    function Retop(frame: Frame): seq<Frame>
      requires frames != []
    {
      frames[|frames| - 1 := frame]
    }
  }

  function Less(p: nat): nat { if p == 0 then 0 else p - 1 }

  datatype Range = Range(start: nat, end: nat)

  /** Where a redirect reader continues, and the target it proved. */
  datatype Found = Found(next: nat, hit: Option<Range>)

  datatype Move = Move(next: Config, hit: Option<Range>)

  // ----- lexical helpers -----

  predicate Has(text: seq<byte>, i: nat, b: byte) {
    i < |text| && text[i] == b
  }

  predicate IsBlank(b: byte) {
    b == SPACE || b == TAB
  }

  predicate IsQuote(b: byte) {
    b == SQUOTE || b == DQUOTE
  }

  predicate IsTokenBoundary(b: byte) {
    b == SPACE || b == TAB || b == LF || b == CR || b == SEMI || b == PIPE || b == AMP
    || b == LPAREN || b == RPAREN || b == LT || b == GT
  }

  predicate StartsWord(text: seq<byte>, at: nat)
    requires at <= |text|
  {
    at == 0
    || var prev := text[at - 1];
       prev == SPACE || prev == TAB || prev == LF || prev == CR || prev == SEMI || prev == PIPE || prev == AMP
       || prev == LPAREN
  }

  predicate EndsWord(text: seq<byte>, end: nat, closesBacktick: bool) {
    end >= |text| || (if text[end] == BACKTICK then closesBacktick else IsTokenBoundary(text[end]))
  }

  predicate StartsHeredoc(text: seq<byte>, at: nat) {
    Has(text, at + 1, LT) && !Has(text, at + 2, LT)
  }

  predicate StartsArithmetic(text: seq<byte>, at: nat) {
    Has(text, at, LPAREN) && Has(text, at + 1, LPAREN)
  }

  /** The first b at or after i, or the length of the text. */
  function Find(text: seq<byte>, i: nat, b: byte): (r: nat)
    requires i <= |text|
    ensures i <= r <= |text|
    ensures r < |text| ==> text[r] == b
    ensures forall j :: i <= j < r ==> text[j] != b
    decreases |text| - i
  {
    if i == |text| || text[i] == b then i else Find(text, i + 1, b)
  }

  /** The first byte at or after i that ends a word, or the length of the text. */
  function FindBoundary(text: seq<byte>, i: nat): (r: nat)
    requires i <= |text|
    ensures i <= r <= |text|
    ensures r < |text| ==> IsTokenBoundary(text[r])
    ensures forall j :: i <= j < r ==> !IsTokenBoundary(text[j])
    decreases |text| - i
  {
    if i == |text| || IsTokenBoundary(text[i]) then i else FindBoundary(text, i + 1)
  }

  /** The first byte at or after i that is not a blank, or the length of the text. */
  function SkipBlanks(text: seq<byte>, i: nat): (r: nat)
    requires i <= |text|
    ensures i <= r <= |text|
    ensures r < |text| ==> !IsBlank(text[r])
    ensures forall j :: i <= j < r ==> IsBlank(text[j])
    decreases |text| - i
  {
    if i < |text| && IsBlank(text[i]) then SkipBlanks(text, i + 1) else i
  }

  function AfterLine(text: seq<byte>, end: nat): nat {
    if end < |text| then end + 1 else end
  }

  /** "nul", ignoring ASCII case. */
  predicate IsNul(s: seq<byte>) {
    |s| == 3 && (s[0] == 110 || s[0] == 78) && (s[1] == 117 || s[1] == 85) && (s[2] == 108 || s[2] == 76)
  }

  // ----- redirects -----

  /** Where the target of the redirect at this operator stands. */
  function TargetStart(text: seq<byte>, operator: nat): (r: nat)
    requires operator < |text|
    ensures operator < r <= |text|
  {
    SkipBlanks(text, if Has(text, operator + 1, GT) then operator + 2 else operator + 1)
  }

  function QuotedTarget(text: seq<byte>, start: nat, closesBacktick: bool): (f: Found)
    requires start < |text|
  {
    var end := Find(text, start + 1, text[start]);
    if end == |text| then Found(|text|, None)
    else if IsNul(text[start + 1..end]) && EndsWord(text, end + 1, closesBacktick) then
      Found(end + 1, Some(Range(start, end + 1)))
    else Found(start, None)
  }

  function RedirectTarget(text: seq<byte>, operator: nat, closesBacktick: bool): (f: Found)
    requires operator < |text|
    ensures operator < f.next <= |text|
  {
    var i := TargetStart(text, operator);
    if i < |text| && IsQuote(text[i]) then QuotedTarget(text, i, closesBacktick)
    else if i + 3 <= |text| && IsNul(text[i..i + 3]) && EndsWord(text, i + 3, closesBacktick) then
      Found(i + 3, Some(Range(i, i + 3)))
    else Found(i, None)
  }

  // ----- heredocs -----

  datatype Opened = Opened(next: nat, heredoc: Option<Heredoc>)

  /** The delimiter word that starts at i, bare or quoted. */
  function ReadDelimiter(text: seq<byte>, i: nat, strip: bool): (o: Opened)
    requires i <= |text|
    ensures i <= o.next <= |text|
  {
    if i == |text| then Opened(i, None)
    else if IsQuote(text[i]) then
      var end := Find(text, i + 1, text[i]);
      if end == |text| then Opened(|text|, None)
      else Opened(end + 1, Some(Heredoc(text[i + 1..end], strip)))
    else
      var end := FindBoundary(text, i);
      Opened(end, Some(Heredoc(text[i..end], strip)))
  }

  /** Where the delimiter of the heredoc at this operator starts. */
  function DelimiterStart(text: seq<byte>, operator: nat): (r: nat)
    requires operator + 2 <= |text|
    ensures operator + 2 <= r <= |text|
  {
    SkipBlanks(text, if Has(text, operator + 2, DASH) then operator + 3 else operator + 2)
  }

  function ReadHeredoc(text: seq<byte>, operator: nat): (o: Opened)
    requires operator + 2 <= |text|
    ensures operator + 2 <= o.next <= |text|
  {
    ReadDelimiter(text, DelimiterStart(text, operator), Has(text, operator + 2, DASH))
  }

  function StripCr(line: seq<byte>): seq<byte> {
    if line != [] && line[|line| - 1] == CR then line[..|line| - 1] else line
  }

  function StripTabs(line: seq<byte>): seq<byte> {
    if line != [] && line[0] == TAB then StripTabs(line[1..]) else line
  }

  /** Whether a body line is the delimiter line of this heredoc. */
  predicate Closes(line: seq<byte>, heredoc: Heredoc) {
    (if heredoc.stripTabs then StripTabs(StripCr(line)) else StripCr(line)) == heredoc.delimiter
  }

  // ----- one step under each context -----

  function SingleQuotedStep(text: seq<byte>, c: Config): Config
    requires IsStack(c.frames) && c.at < |text|
  {
    if text[c.at] == SQUOTE then c.Pop(c.at + 1) else c.Go(c.at + 1)
  }

  /** What a substitution marker opens, in every context that reads one. */
  function DollarStep(text: seq<byte>, c: Config): Config
    requires c.at < |text|
  {
    var i := c.at;
    if StartsArithmetic(text, i + 1) then c.Push(Arithmetic(0), i + 3)
    else if Has(text, i + 1, LPAREN) then c.Push(Substitution(0), i + 2)
    else c.Go(i + 1)
  }

  function Escaped(text: seq<byte>, i: nat): nat {
    if i + 2 <= |text| then i + 2 else |text|
  }

  function DoubleQuotedStep(text: seq<byte>, c: Config): Config
    requires IsStack(c.frames) && c.at < |text|
  {
    var i := c.at;
    if text[i] == BACKSLASH then c.Go(Escaped(text, i))
    else if text[i] == DQUOTE then c.Pop(i + 1)
    else if text[i] == DOLLAR then DollarStep(text, c)
    else if text[i] == BACKTICK then c.Push(Backtick, i + 1)
    else c.Go(i + 1)
  }

  function ConditionalStep(text: seq<byte>, c: Config): Config
    requires IsStack(c.frames) && c.at < |text|
  {
    var i := c.at;
    if text[i] == BACKSLASH then c.Go(Escaped(text, i))
    else if text[i] == SQUOTE then c.Push(SingleQuoted, i + 1)
    else if text[i] == DQUOTE then c.Push(DoubleQuoted, i + 1)
    else if text[i] == DOLLAR then DollarStep(text, c)
    else if text[i] == RBRACKET && Has(text, i + 1, RBRACKET) then c.Pop(i + 2)
    else c.Go(i + 1)
  }

  function ArithmeticStep(text: seq<byte>, c: Config): Config
    requires IsStack(c.frames) && c.at < |text| && c.Top().Arithmetic?
  {
    var i := c.at;
    if text[i] == LPAREN then c.Deeper(i + 1)
    else if text[i] == RPAREN then if c.Top().parens == 0 then c.Pop(i + 1) else c.Shallower(i + 1)
    else c.Go(i + 1)
  }

  function BodyStep(text: seq<byte>, c: Config): Config
    requires IsStack(c.frames) && c.at < |text|
  {
    if c.pending == [] then c.Pop(c.at)
    else
      var end := Find(text, c.at, LF);
      var rest := if Closes(text[c.at..end], c.pending[0]) then c.pending[1..] else c.pending;
      Config(c.frames, rest, AfterLine(text, end))
  }

  function HeredocStep(text: seq<byte>, c: Config): Config
    requires c.at + 2 <= |text|
  {
    var o := ReadHeredoc(text, c.at);
    Config(c.frames, if o.heredoc.Some? then c.pending + [o.heredoc.value] else c.pending, o.next)
  }

  function OpenParenStep(text: seq<byte>, c: Config): Config
    requires IsStack(c.frames) && c.at < |text|
  {
    if StartsArithmetic(text, c.at) && StartsWord(text, c.at) then c.Push(Arithmetic(0), c.at + 2)
    else c.Deeper(c.at + 1)
  }

  function OpenBracketStep(text: seq<byte>, c: Config): Config
    requires c.at < |text|
  {
    if Has(text, c.at + 1, LBRACKET) && StartsWord(text, c.at) then c.Push(Conditional, c.at + 2) else c.Go(c.at + 1)
  }

  function HashStep(text: seq<byte>, c: Config): Config
    requires c.at < |text|
  {
    c.Go(if StartsWord(text, c.at) then Find(text, c.at, LF) else c.at + 1)
  }

  function LessStep(text: seq<byte>, c: Config): Config
    requires c.at < |text|
  {
    if StartsHeredoc(text, c.at) then HeredocStep(text, c) else c.Go(c.at + 1)
  }

  /** Command text other than a redirect operator. */
  function PlainStep(text: seq<byte>, c: Config): Config
    requires IsStack(c.frames) && c.at < |text|
  {
    var i := c.at;
    if text[i] == BACKSLASH then c.Go(Escaped(text, i))
    else if text[i] == SQUOTE then c.Push(SingleQuoted, i + 1)
    else if text[i] == DQUOTE then c.Push(DoubleQuoted, i + 1)
    else if text[i] == BACKTICK then if c.Top().Backtick? then c.Pop(i + 1) else c.Push(Backtick, i + 1)
    else if text[i] == DOLLAR then DollarStep(text, c)
    else if text[i] == LPAREN then OpenParenStep(text, c)
    else if text[i] == RPAREN then if c.Top() == Substitution(0) then c.Pop(i + 1) else c.Shallower(i + 1)
    else if text[i] == LBRACKET then OpenBracketStep(text, c)
    else if text[i] == HASH then HashStep(text, c)
    else if text[i] == LT then LessStep(text, c)
    else if text[i] == LF && c.pending != [] then c.Push(Body, i + 1)
    else c.Go(i + 1)
  }

  function RedirectStep(text: seq<byte>, c: Config): Move
    requires IsStack(c.frames) && c.at < |text|
  {
    var f := RedirectTarget(text, c.at, c.Top().Backtick?);
    Move(c.Go(f.next), f.hit)
  }

  function CommandStep(text: seq<byte>, c: Config): Move
    requires IsStack(c.frames) && c.at < |text|
  {
    if text[c.at] == GT then RedirectStep(text, c) else Move(PlainStep(text, c), None)
  }

  function Step(text: seq<byte>, c: Config): (m: Move)
    requires IsStack(c.frames) && c.at < |text|
    ensures IsStack(m.next.frames)
    ensures c.at <= m.next.at <= |text|
    ensures m.next.at == c.at ==> |m.next.frames| < |c.frames|
  {
    match c.Top()
    case SingleQuoted => Move(SingleQuotedStep(text, c), None)
    case DoubleQuoted => Move(DoubleQuotedStep(text, c), None)
    case Conditional => Move(ConditionalStep(text, c), None)
    case Arithmetic(_) => Move(ArithmeticStep(text, c), None)
    case Body => Move(BodyStep(text, c), None)
    case _ => CommandStep(text, c)
  }

  /** The targets a scan from this configuration proves, in order. */
  function Targets(text: seq<byte>, c: Config): seq<Range>
    requires IsStack(c.frames) && c.at <= |text|
    decreases |text| - c.at, |c.frames|
  {
    if c.at == |text| then []
    else
      var m := Step(text, c);
      if m.hit.Some? then [m.hit.value] + Targets(text, m.next) else Targets(text, m.next)
  }

  const START: Config := Config([Command], [], 0)
}
