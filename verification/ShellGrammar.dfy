/** What the scan of a command line means: a grammar of nested spans over the text itself,
    which names no step of the scan. Every text has a tree of the grammar, and the targets
    a scan proves are exactly the ones in the tree's command-level spans, in order. */
module ShellGrammar {
  import opened Options
  import opened Utf8
  import opened Sequences
  import opened ShellScan
  import Rewrite = ShellRewrite

  // ----- bytes by their characters -----

  predicate OneOf(b: byte, chars: string) {
    exists k :: 0 <= k < |chars| && chars[k] as int == b
  }

  lemma Characters(b: byte)
    ensures IsBlank(b) <==> OneOf(b, " \t")
    ensures IsQuote(b) <==> OneOf(b, "'\"")
    ensures IsTokenBoundary(b) <==> OneOf(b, " \t\n\r;|&()<>")
  {
    var blanks, quotes, ends := " \t", "'\"", " \t\n\r;|&()<>";
    assert blanks[0] as int == 32 && blanks[1] as int == 9;
    assert quotes[0] as int == 39 && quotes[1] as int == 34;
    assert ends[0] as int == 32 && ends[1] as int == 9 && ends[2] as int == 10 && ends[3] as int == 13;
    assert ends[4] as int == 59 && ends[5] as int == 124 && ends[6] as int == 38 && ends[7] as int == 40;
    assert ends[8] as int == 41 && ends[9] as int == 60 && ends[10] as int == 62;
  }

  lemma WordStarts(t: seq<byte>, i: nat)
    requires i <= |t|
    ensures StartsWord(t, i) <==> i == 0 || OneOf(t[i - 1], " \t\n\r;|&(")
  {
    var starts := " \t\n\r;|&(";
    assert starts[0] as int == 32 && starts[1] as int == 9 && starts[2] as int == 10 && starts[3] as int == 13;
    assert starts[4] as int == 59 && starts[5] as int == 124 && starts[6] as int == 38 && starts[7] as int == 40;
  }

  function Lower(b: byte): byte { if 65 <= b <= 90 then b + 32 else b }

  /** The bytes of ASCII text. */
  predicate Spells(s: seq<byte>, text: string) {
    |s| == |text| && forall k :: 0 <= k < |s| ==> s[k] == text[k] as int
  }

  lemma DeviceNames(s: seq<byte>)
    ensures IsNul(s) <==> Spells(seq(|s|, k requires 0 <= k < |s| => Lower(s[k])), "nul")
    ensures Spells(DEV_NULL, "/dev/null")
  {
    var low := seq(|s|, k requires 0 <= k < |s| => Lower(s[k]));
    var nul := "nul";
    assert nul[0] as int == 110 && nul[1] as int == 117 && nul[2] as int == 108;
    if |s| == 3 {
      assert low[0] == Lower(s[0]) && low[1] == Lower(s[1]) && low[2] == Lower(s[2]);
    }
  }

  // ----- the grammar -----

  /** Where a span lies: the command line, a substitution, backticks, double quotes,
      a conditional or arithmetic. */
  datatype Context = Line | Parens | Ticks | Quoted | Brackets | Sum {
    predicate IsCommand() { Line? || Parens? || Ticks? }
  }

  /** Spans that nest, by what opens them. */
  datatype Kind = DoubleQuotes | Dollar | Tick | Group | Test | DollarSum | WordSum

  datatype Node =
    | Byte(at: nat)
    | Escape(at: nat, end: nat)
    | Single(at: nat, end: nat)
    | Comment(at: nat, end: nat)
    | Redirect(at: nat, end: nat, hit: Option<Range>)
    | Opener(at: nat, end: nat, heredoc: Option<Heredoc>)
    | Bodies(at: nat, end: nat)
    | Nested(at: nat, end: nat, kind: Kind, kids: Nodes, close: nat)
  {
    function End(): nat { if Byte? then at + 1 else end }
  }

  datatype Nodes = Nil | Cons(head: Node, tail: Nodes)

  lemma ByteNames()
    ensures Spells([TAB, LF, CR, SPACE, DQUOTE, HASH, DOLLAR, AMP, SQUOTE, LPAREN, RPAREN], "\t\n\r \"#$&'()")
    ensures Spells([DASH, SLASH, SEMI, LT, GT, LBRACKET, BACKSLASH, RBRACKET, BACKTICK, PIPE], "-/;<>[\\]`|")
  {}

  function OpenLength(kind: Kind): nat {
    match kind
    case Dollar => 2
    case Test => 2
    case DollarSum => 3
    case WordSum => 2
    case _ => 1
  }

  function CloseLength(kind: Kind): nat { if kind.Test? then 2 else 1 }

  /** The context of what lies inside. */
  function Inside(kind: Kind, x: Context): Context {
    match kind
    case DoubleQuotes => Quoted
    case Dollar => Parens
    case Tick => Ticks
    case Group => x
    case Test => Brackets
    case _ => Sum
  }

  predicate HasTwo(t: seq<byte>, i: nat, b: byte) { Has(t, i, b) && Has(t, i + 1, b) }

  /** A span of this kind opens here. */
  predicate Opens(t: seq<byte>, x: Context, kind: Kind, i: nat)
    requires i < |t|
  {
    match kind
    case DoubleQuotes => t[i] == DQUOTE && (x.IsCommand() || x.Brackets?)
    case Dollar => t[i] == DOLLAR && !x.Sum? && Has(t, i + 1, LPAREN) && !Has(t, i + 2, LPAREN)
    case DollarSum => t[i] == DOLLAR && !x.Sum? && HasTwo(t, i + 1, LPAREN)
    case WordSum => x.IsCommand() && HasTwo(t, i, LPAREN) && StartsWord(t, i)
    case Tick => t[i] == BACKTICK && (x.Line? || x.Parens? || x.Quoted?)
    case Group => t[i] == LPAREN && (x.Sum? || (x.Parens? && !(HasTwo(t, i, LPAREN) && StartsWord(t, i))))
    case Test => x.IsCommand() && HasTwo(t, i, LBRACKET) && StartsWord(t, i)
  }

  /** The context ends here. */
  predicate Ends(t: seq<byte>, x: Context, i: nat) {
    match x
    case Line => false
    case Parens => Has(t, i, RPAREN)
    case Ticks => Has(t, i, BACKTICK)
    case Quoted => Has(t, i, DQUOTE)
    case Brackets => HasTwo(t, i, RBRACKET)
    case Sum => Has(t, i, RPAREN)
  }

  predicate IsEscape(t: seq<byte>, x: Context, i: nat)
    requires i < |t|
  {
    t[i] == BACKSLASH && !x.Sum?
  }

  predicate IsSingle(t: seq<byte>, x: Context, i: nat)
    requires i < |t|
  {
    t[i] == SQUOTE && (x.IsCommand() || x.Brackets?)
  }

  predicate IsComment(t: seq<byte>, x: Context, i: nat)
    requires i < |t|
  {
    x.IsCommand() && t[i] == HASH && StartsWord(t, i)
  }

  predicate IsRedirect(t: seq<byte>, x: Context, i: nat)
    requires i < |t|
  {
    x.IsCommand() && t[i] == GT
  }

  /** Two brackets, not three, open a heredoc. */
  predicate IsOpener(t: seq<byte>, x: Context, i: nat)
    requires i < |t|
  {
    x.IsCommand() && HasTwo(t, i, LT) && !Has(t, i + 2, LT)
  }

  /** The line ends, and heredoc bodies follow. */
  predicate IsBodies(t: seq<byte>, x: Context, q: seq<Heredoc>, i: nat)
    requires i < |t|
  {
    x.IsCommand() && t[i] == LF && q != []
  }

  /** Nothing else begins here, nor does the context end. */
  predicate IsByte(t: seq<byte>, x: Context, q: seq<Heredoc>, i: nat)
    requires i < |t|
  {
    && !Ends(t, x, i) && !IsEscape(t, x, i) && !IsSingle(t, x, i) && !IsComment(t, x, i)
    && !IsRedirect(t, x, i) && !IsOpener(t, x, i) && !IsBodies(t, x, q, i)
    && forall kind: Kind :: !Opens(t, x, kind, i)
  }

  /** The first b at or after i, or the end of the text. */
  predicate IsNext(t: seq<byte>, i: nat, b: byte, j: nat) {
    && i <= j <= |t| && (j < |t| ==> t[j] == b)
    && forall k :: i <= k < j ==> t[k] != b
  }

  /** The first place at or after i that is not a blank. */
  predicate PastBlanks(t: seq<byte>, i: nat, j: nat) {
    && i <= j <= |t| && (j < |t| ==> !IsBlank(t[j]))
    && forall k :: i <= k < j ==> IsBlank(t[k])
  }

  /** The quote at i closes at the same byte next, or never. */
  predicate QuoteCloses(t: seq<byte>, i: nat, close: nat)
    requires i < |t|
  {
    IsNext(t, i + 1, t[i], close)
  }

  predicate IsWordEnd(t: seq<byte>, i: nat, j: nat) {
    && i <= j <= |t| && (j < |t| ==> IsTokenBoundary(t[j]))
    && forall k :: i <= k < j ==> !IsTokenBoundary(t[k])
  }

  /** Up to and with the next single quote, or all the text. */
  ghost predicate ReadsSingle(t: seq<byte>, i: nat, end: nat)
    requires i < |t|
  {
    exists close: nat :: QuoteCloses(t, i, close) && end == if close < |t| then close + 1 else |t|
  }

  // ----- redirects -----

  /** The redirect at i has the null device as its whole target r. */
  predicate IsTarget(t: seq<byte>, x: Context, i: nat, r: Range) {
    && Rewrite.FollowsRedirect(t, i, r) && Rewrite.SpellsNul(t, r)
    && (r.end == |t| || IsTokenBoundary(t[r.end]) || (x.Ticks? && t[r.end] == BACKTICK))
  }

  /** A redirect with its target when that is the null device; otherwise up to its target,
      or all the text when the target's quote never closes. */
  ghost predicate ReadsRedirect(t: seq<byte>, x: Context, i: nat, end: nat, hit: Option<Range>)
    requires i < |t|
  {
    match hit
    case Some(r) => IsTarget(t, x, i, r) && end == r.end
    case None =>
      && (forall r: Range :: !IsTarget(t, x, i, r))
      && exists word: nat :: IsRedirectWord(t, i, word) && end == AfterWordStart(t, word)
  }

  predicate IsUnclosed(t: seq<byte>, word: nat) {
    word < |t| && IsQuote(t[word]) && QuoteCloses(t, word, |t|)
  }

  function AfterWordStart(t: seq<byte>, word: nat): nat { if IsUnclosed(t, word) then |t| else word }

  /** The word after the redirect operator, which may be doubled. */
  predicate IsRedirectWord(t: seq<byte>, i: nat, word: nat) {
    PastBlanks(t, if Has(t, i + 1, GT) then i + 2 else i + 1, word)
  }

  // ----- heredocs -----

  /** The delimiter after the operator: a word, or what a quote holds. */
  ghost predicate ReadsOpener(t: seq<byte>, i: nat, end: nat, heredoc: Option<Heredoc>)
  {
    exists word: nat :: IsDelimiterWord(t, i, word) && ReadsDelimiter(t, word, Has(t, i + 2, DASH), end, heredoc)
  }

  predicate IsDelimiterWord(t: seq<byte>, i: nat, word: nat) {
    PastBlanks(t, if Has(t, i + 2, DASH) then i + 3 else i + 2, word)
  }

  ghost predicate ReadsDelimiter(t: seq<byte>, word: nat, strip: bool, end: nat, heredoc: Option<Heredoc>)
    requires word <= |t|
  {
    if word == |t| then end == |t| && heredoc == None
    else if IsQuote(t[word]) then
      exists close: nat :: QuoteCloses(t, word, close)
        && (if close == |t| then end == |t| && heredoc == None
            else end == close + 1 && heredoc == Some(Heredoc(t[word + 1..close], strip)))
    else IsWordEnd(t, word, end) && heredoc == Some(Heredoc(t[word..end], strip))
  }

  function Tabs(n: nat): seq<byte> { if n == 0 then [] else [TAB] + Tabs(n - 1) }

  /** A line is a heredoc's last: the delimiter, after tabs when they are stripped and
      before a carriage return. A delimiter that itself starts with a stripped tab or ends
      with a carriage return cannot be met without one. */
  ghost predicate IsLast(line: seq<byte>, h: Heredoc) {
    exists n: nat, cr: bool :: IsLastWith(line, h, n, cr)
  }

  predicate IsLastWith(line: seq<byte>, h: Heredoc, n: nat, cr: bool) {
    && line == Tabs(n) + h.delimiter + (if cr then [CR] else [])
    && (if h.stripTabs then h.delimiter == [] || h.delimiter[0] != TAB else n == 0)
    && (!cr ==> line == [] || line[|line| - 1] != CR)
  }

  predicate StartsLine(t: seq<byte>, p: nat, s: nat)
    requires s <= |t|
  {
    s == p || (p < s && t[s - 1] == LF)
  }

  /** The first line at or after p that is this heredoc's last starts at s and ends at e. */
  ghost predicate LastLine(t: seq<byte>, p: nat, h: Heredoc, s: nat, e: nat) {
    && p <= s < |t| && StartsLine(t, p, s) && IsNext(t, s, LF, e) && IsLast(t[s..e], h)
    && NoLastLine(t, p, h, s)
  }

  /** No line from p on that starts before s is this heredoc's last. */
  ghost predicate NoLastLine(t: seq<byte>, p: nat, h: Heredoc, s: nat) {
    forall l: nat, e: nat :: p <= l < s && l < |t| && StartsLine(t, p, l) && IsNext(t, l, LF, e) ==> !IsLast(t[l..e], h)
  }

  /** The bodies of these heredocs, one after another, from p up to j. */
  ghost predicate ReadsBodies(t: seq<byte>, p: nat, q: seq<Heredoc>, j: nat)
    requires p <= |t|
    decreases |q|
  {
    if q == [] then j == p
    else
      || (NoLastLine(t, p, q[0], |t|) && j == |t|)
      || exists s: nat, e: nat :: LastLine(t, p, q[0], s, e) && ReadsBodies(t, AfterLine(t, e), q[1..], j)
  }

  // ----- trees -----

  function Pending(node: Node, q: seq<Heredoc>): seq<Heredoc>
    decreases node
  {
    match node
    case Opener(_, _, heredoc) => if heredoc.Some? then q + [heredoc.value] else q
    case Bodies(_, _) => []
    case Nested(_, _, _, kids, _) => AllPending(kids, q)
    case _ => q
  }

  function AllPending(nodes: Nodes, q: seq<Heredoc>): seq<Heredoc>
    decreases nodes
  {
    if nodes.Nil? then q else AllPending(nodes.tail, Pending(nodes.head, q))
  }

  /** The node is a span of the text in this context, with these heredocs to come. */
  ghost predicate Reads(t: seq<byte>, x: Context, q: seq<Heredoc>, node: Node)
    decreases node
  {
    var i := node.at;
    i < |t| && i < node.End() <= |t| &&
    match node
    case Byte(_) => IsByte(t, x, q, i)
    case Escape(_, end) => IsEscape(t, x, i) && end == if i + 2 <= |t| then i + 2 else |t|
    case Single(_, end) => IsSingle(t, x, i) && ReadsSingle(t, i, end)
    case Comment(_, end) => IsComment(t, x, i) && IsNext(t, i, LF, end)
    case Redirect(_, end, hit) => IsRedirect(t, x, i) && ReadsRedirect(t, x, i, end, hit)
    case Opener(_, end, heredoc) => IsOpener(t, x, i) && ReadsOpener(t, i, end, heredoc)
    case Bodies(_, end) => IsBodies(t, x, q, i) && ReadsBodies(t, i + 1, q, end)
    case Nested(_, end, kind, kids, close) =>
      && Opens(t, x, kind, i) && i + OpenLength(kind) <= close
      && Covers(t, Inside(kind, x), q, kids, i + OpenLength(kind), close)
      && (if close < |t| then Ends(t, Inside(kind, x), close) && end == close + CloseLength(kind) else end == |t|)
  }

  /** The nodes cover the text from i to j, one after another. */
  ghost predicate Covers(t: seq<byte>, x: Context, q: seq<Heredoc>, nodes: Nodes, i: nat, j: nat)
    decreases nodes
  {
    if nodes.Nil? then i == j <= |t|
    else
      && nodes.head.at == i && Reads(t, x, q, nodes.head)
      && Covers(t, x, Pending(nodes.head, q), nodes.tail, nodes.head.End(), j)
  }

  /** The targets of the redirects at command level, in order. */
  function Leaves(nodes: Nodes): seq<Range>
    decreases nodes
  {
    if nodes.Nil? then [] else LeavesOf(nodes.head) + Leaves(nodes.tail)
  }

  function LeavesOf(node: Node): seq<Range>
    decreases node
  {
    match node
    case Redirect(_, _, hit) => if hit.Some? then [hit.value] else []
    case Nested(_, _, _, kids, _) => Leaves(kids)
    case _ => []
  }

  /** A tree of the whole command line. */
  ghost predicate IsTree(t: seq<byte>, nodes: Nodes) {
    Covers(t, Line, [], nodes, 0, |t|)
  }
}
