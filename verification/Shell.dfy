/** The scanner as it runs: an object whose context stack, heredoc queue and output
    buffer change as it walks the command, and the command form handed to a host. */
module Shell {
  import opened Options
  import opened Utf8
  import opened ShellScan
  import Rewrite = ShellRewrite
  import Meaning = ShellMeaning

  /** A str slice: taking one off a character boundary would panic. */
  function Slice(text: seq<byte>, a: nat, b: nat): seq<byte>
    requires a <= b <= |text| && IsBoundary(text, a) && IsBoundary(text, b)
  {
    text[a..b]
  }

  method ReadRedirect(text: seq<byte>, operator: nat, closesBacktick: bool) returns (f: Found)
    requires operator < |text|
    ensures f == RedirectTarget(text, operator, closesBacktick)
  {
    var i := operator + 1;
    if Has(text, i, GT) { i := i + 1; }
    while i < |text| && IsBlank(text[i])
      invariant operator < i <= |text| && SkipBlanks(text, i) == TargetStart(text, operator)
    {
      i := i + 1;
    }
    if i < |text| && IsQuote(text[i]) {
      return QuotedTarget(text, i, closesBacktick);
    }
    if i + 3 <= |text| && IsNul(text[i..i + 3]) && EndsWord(text, i + 3, closesBacktick) {
      return Found(i + 3, Some(Range(i, i + 3)));
    }
    return Found(i, None);
  }

  function Buffer(out: Option<seq<byte>>): seq<byte> {
    if out.Some? then out.value else []
  }

  /** What a step leaves in the output: nothing new, or the text up to the target it
      proved and the null device. */
  ghost predicate Effect(text: seq<byte>, hit: Option<Range>, out: Option<seq<byte>>, copied: nat,
                         out': Option<seq<byte>>, copied': nat)
  {
    if hit.None? then out' == out && copied' == copied
    else
      && copied <= hit.value.start <= hit.value.end <= |text| && copied' == hit.value.end
      && out' == Some(Buffer(out) + text[copied..hit.value.start] + DEV_NULL)
  }

  /** The output so far, completed by the targets still to come, is the rewritten text. */
  ghost predicate Progress(text: seq<byte>, c: Config, out: Option<seq<byte>>, copied: nat) {
    && IsStack(c.frames) && c.at <= |text| && copied <= c.at
    && Rewrite.Ordered(text, copied, Targets(text, c))
    && Buffer(out) + Rewrite.Splice(text, copied, Targets(text, c)) == Rewrite.Rewritten(text)
    && (out.None? ==> Targets(text, START) == Targets(text, c))
    && (out.Some? ==> Targets(text, START) != [])
  }

  ghost predicate Walking(text: seq<byte>, c: Config, out: Option<seq<byte>>, copied: nat) {
    Rewrite.Aligned(text, c) && Progress(text, c, out, copied)
  }

  lemma WalkingStep(text: seq<byte>, c: Config, out: Option<seq<byte>>, copied: nat,
                    next: Config, out': Option<seq<byte>>, copied': nat)
    requires Valid(text) && Walking(text, c, out, copied) && c.at < |text| && next == Step(text, c).next
    requires Effect(text, Step(text, c).hit, out, copied, out', copied') && copied' <= next.at
    ensures Walking(text, next, out', copied')
    ensures c.at <= next.at <= |text| && (next.at == c.at ==> |next.frames| < |c.frames|)
  {
    Rewrite.AlignedStep(text, c);
    ProgressStep(text, c, out, copied, out', copied');
  }

  lemma ProgressStarts(text: seq<byte>)
    ensures Progress(text, START, None, 0)
  {
    Rewrite.TargetsOrdered(text, START);
  }

  lemma ProgressStep(text: seq<byte>, c: Config, out: Option<seq<byte>>, copied: nat,
                     out': Option<seq<byte>>, copied': nat)
    requires Progress(text, c, out, copied) && c.at < |text|
    requires Effect(text, Step(text, c).hit, out, copied, out', copied')
    requires copied' <= Step(text, c).next.at
    ensures Progress(text, Step(text, c).next, out', copied')
  {
    var m := Step(text, c);
    if m.hit.Some? {
      ProgressHit(text, Targets(text, c), m.hit.value, Targets(text, m.next), out, copied);
    }
  }

  lemma ProgressHit(text: seq<byte>, ts: seq<Range>, r: Range, rest: seq<Range>, out: Option<seq<byte>>, copied: nat)
    requires ts == [r] + rest && Rewrite.Ordered(text, copied, ts)
    ensures Rewrite.Ordered(text, r.end, rest)
    ensures Buffer(out) + Rewrite.Splice(text, copied, ts)
      == Buffer(out) + text[copied..r.start] + DEV_NULL + Rewrite.Splice(text, r.end, rest)
  {
    assert ts[1..] == rest;
    var tail := Rewrite.Splice(text, r.end, rest);
    assert Rewrite.Splice(text, copied, ts) == text[copied..r.start] + DEV_NULL + tail;
  }

  lemma ProgressEnds(text: seq<byte>, c: Config, out: Option<seq<byte>>, copied: nat)
    requires Progress(text, c, out, copied) && c.at == |text|
    ensures out.None? <==> Targets(text, START) == []
    ensures Buffer(out) + text[copied..] == Rewrite.Rewritten(text)
  {}

  lemma HitAligned(text: seq<byte>, operator: nat, cb: bool)
    requires Valid(text) && operator < |text| && text[operator] == GT
    requires RedirectTarget(text, operator, cb).hit.Some?
    ensures var f := RedirectTarget(text, operator, cb);
      && operator < f.hit.value.start < f.hit.value.end == f.next <= |text|
      && IsBoundary(text, f.hit.value.start) && IsBoundary(text, f.hit.value.end)
  {
    Rewrite.HitSpells(text, operator, cb);
    Rewrite.TargetAligned(text, RedirectTarget(text, operator, cb).hit.value);
  }

  class Scan {
    const command: seq<byte>
    var frames: seq<Frame>
    var pending: seq<Heredoc>
    var out: Option<seq<byte>>
    var copied: nat

    ghost predicate Ready()
      reads this
    {
      IsStack(frames) && copied <= |command| && IsBoundary(command, copied)
    }

    ghost function At(i: nat): Config
      reads this
    {
      Config(frames, pending, i)
    }

    constructor (command: seq<byte>)
      requires Valid(command)
      ensures this.command == command && Ready() && At(0) == START && out == None && copied == 0
    {
      this.command := command;
      frames, pending, out, copied := [Command], [], None, 0;
    }

    /** The scan stands at i, and what it wrote is the rewriting so far. */
    ghost predicate Walked(i: nat)
      reads this
    {
      i <= |command| && Ready() && Walking(command, At(i), out, copied)
    }

    lemma StartWalk()
      requires Ready() && At(0) == START && out == None && copied == 0
      ensures Walked(0)
    {
      ProgressStarts(command);
    }

    /** Rewrite the command; None when nothing was replaced. */
    method Run() returns (result: Option<seq<byte>>)
      requires Valid(command) && Ready() && At(0) == START && out == None && copied == 0
      modifies this
      ensures result.None? <==> Targets(command, START) == []
      ensures result.Some? ==> result.value == Rewrite.Rewritten(command)
      ensures Meaning.Replaces(command, if result.Some? then result.value else command)
    {
      result := WalkAll();
      Meaning.RewrittenReplaces(command);
    }

    /** Walk to the end. */
    method WalkAll() returns (result: Option<seq<byte>>)
      requires Valid(command) && Ready() && At(0) == START && out == None && copied == 0
      modifies this
      ensures result.None? <==> Targets(command, START) == []
      ensures result.Some? ==> result.value == Rewrite.Rewritten(command)
    {
      var i := 0;
      StartWalk();
      while i < |command|
        invariant Walked(i)
        decreases |command| - i, |frames|
      {
        i := Walk(i);
      }
      result := Finish(i);
    }

    /** One step of the walk moves on or shrinks the stack. */
    method Walk(i: nat) returns (next: nat)
      requires Valid(command) && i < |command| && Walked(i)
      modifies this
      ensures Walked(next) && i <= next && (next == i ==> |frames| < |old(frames)|)
    {
      ghost var c, o, n := At(i), out, copied;
      next := StepOnce(i);
      WalkingStep(command, c, o, n, At(next), out, copied);
    }

    /** Append what no target follows. */
    method Finish(i: nat) returns (result: Option<seq<byte>>)
      requires Valid(command) && i == |command| && Walked(i)
      modifies this`out
      ensures result.None? <==> Targets(command, START) == []
      ensures result.Some? ==> result.value == Rewrite.Rewritten(command)
    {
      ProgressEnds(command, At(i), out, copied);
      if out.None? { return None; }
      out := Some(out.value + Slice(command, copied, |command|));
      return out;
    }

    method StepOnce(i: nat) returns (next: nat)
      requires Valid(command) && i < |command| && copied <= i && Ready() && Rewrite.Aligned(command, At(i))
      modifies this
      ensures Ready() && copied <= next && At(next) == Step(command, old(At(i))).next
      ensures Effect(command, Step(command, old(At(i))).hit, old(out), old(copied), out, copied)
    {
      if frames[|frames| - 1].ReadsCommands() {
        next := StepCommand(i);
      } else {
        next := StepOther(i);
      }
    }

    /** Outside command text a step writes nothing. */
    method StepOther(i: nat) returns (next: nat)
      requires Valid(command) && i < |command| && copied <= i && Ready() && Rewrite.Aligned(command, At(i))
      requires !frames[|frames| - 1].ReadsCommands()
      modifies this`frames, this`pending
      ensures Move(At(next), None) == Step(command, old(At(i)))
    {
      match frames[|frames| - 1]
      case SingleQuoted => next := StepSingleQuoted(i);
      case DoubleQuoted => next := StepDoubleQuoted(i);
      case Conditional => next := StepConditional(i);
      case Arithmetic(_) => next := StepArithmetic(i);
      case Body => next := StepBody(i);
    }

    method StepSingleQuoted(i: nat) returns (next: nat)
      requires i < |command| && IsStack(frames)
      requires frames[|frames| - 1].SingleQuoted?
      modifies this`frames
      ensures At(next) == SingleQuotedStep(command, old(At(i)))
    {
      if command[i] == SQUOTE { Pop(); }
      next := i + 1;
    }

    method Pop()
      requires frames != []
      modifies this`frames
      ensures frames == old(frames)[..|old(frames)| - 1]
    {
      frames := frames[..|frames| - 1];
    }

    method Push(frame: Frame)
      modifies this`frames
      ensures frames == old(frames) + [frame]
    {
      frames := frames + [frame];
    }

    method StepDoubleQuoted(i: nat) returns (next: nat)
      requires i < |command| && IsStack(frames)
      modifies this`frames
      ensures At(next) == DoubleQuotedStep(command, old(At(i)))
    {
      next := i + 1;
      if command[i] == BACKSLASH {
        next := Escaped(command, i);
      } else if command[i] == DQUOTE {
        Pop();
      } else if command[i] == DOLLAR && StartsArithmetic(command, i + 1) {
        Push(Arithmetic(0));
        next := i + 3;
      } else if command[i] == DOLLAR && Has(command, i + 1, LPAREN) {
        Push(Substitution(0));
        next := i + 2;
      } else if command[i] == BACKTICK {
        Push(Backtick);
      }
    }

    method StepConditional(i: nat) returns (next: nat)
      requires i < |command| && IsStack(frames)
      modifies this`frames
      ensures At(next) == ConditionalStep(command, old(At(i)))
    {
      next := i + 1;
      if command[i] == BACKSLASH {
        next := Escaped(command, i);
      } else if command[i] == SQUOTE {
        Push(SingleQuoted);
      } else if command[i] == DQUOTE {
        Push(DoubleQuoted);
      } else if command[i] == DOLLAR && StartsArithmetic(command, i + 1) {
        Push(Arithmetic(0));
        next := i + 3;
      } else if command[i] == DOLLAR && Has(command, i + 1, LPAREN) {
        Push(Substitution(0));
        next := i + 2;
      } else if command[i] == RBRACKET && Has(command, i + 1, RBRACKET) {
        Pop();
        next := i + 2;
      }
    }

    method StepArithmetic(i: nat) returns (next: nat)
      requires i < |command| && IsStack(frames) && frames[|frames| - 1].Arithmetic?
      modifies this`frames
      ensures At(next) == ArithmeticStep(command, old(At(i)))
    {
      next := i + 1;
      if command[i] == LPAREN {
        Depth(true);
      } else if command[i] == RPAREN && frames[|frames| - 1].parens == 0 {
        Pop();
      } else if command[i] == RPAREN {
        Depth(false);
      }
    }

    method Depth(deeper: bool)
      requires frames != []
      modifies this`frames
      ensures frames == if deeper then old(At(0)).Deeper(0).frames else old(At(0)).Shallower(0).frames
    {
      var top := |frames| - 1;
      match frames[top]
      case Substitution(p) => frames := frames[top := Substitution(if deeper then p + 1 else Less(p))];
      case Arithmetic(p) => frames := frames[top := Arithmetic(if deeper then p + 1 else Less(p))];
      case _ =>
    }

    method StepBody(i: nat) returns (next: nat)
      requires Valid(command) && i < |command| && Ready() && frames[|frames| - 1].Body? && IsBoundary(command, i)
      modifies this`frames, this`pending
      ensures At(next) == BodyStep(command, old(At(i)))
    {
      if pending == [] {
        Pop();
        return i;
      }
      var end := Find(command, i, LF);
      if end < |command| { AfterAscii(command, end); }
      var line := Slice(command, i, end);
      if Closes(line, pending[0]) {
        pending := pending[1..];
      }
      next := AfterLine(command, end);
    }

    method StepCommand(i: nat) returns (next: nat)
      requires Valid(command) && i < |command| && copied <= i && Ready()
      modifies this
      ensures Ready() && copied <= next && At(next) == CommandStep(command, old(At(i))).next
      ensures Effect(command, CommandStep(command, old(At(i))).hit, old(out), old(copied), out, copied)
    {
      if command[i] == GT {
        next := Redirect(i, RedirectTarget(command, i, frames[|frames| - 1].Backtick?));
      } else {
        next := StepPlain(i);
      }
    }

    method StepPlain(i: nat) returns (next: nat)
      requires Valid(command) && i < |command| && Ready() && command[i] != GT
      modifies this`frames, this`pending
      ensures IsStack(frames) && i <= next && At(next) == PlainStep(command, old(At(i)))
    {
      var frame := frames[|frames| - 1];
      next := i + 1;
      if command[i] == BACKSLASH {
        next := Escaped(command, i);
      } else if command[i] == SQUOTE {
        Push(SingleQuoted);
      } else if command[i] == DQUOTE {
        Push(DoubleQuoted);
      } else if command[i] == BACKTICK && frame.Backtick? {
        Pop();
      } else if command[i] == BACKTICK {
        Push(Backtick);
      } else if command[i] == DOLLAR && StartsArithmetic(command, i + 1) {
        Push(Arithmetic(0));
        next := i + 3;
      } else if command[i] == DOLLAR && Has(command, i + 1, LPAREN) {
        Push(Substitution(0));
        next := i + 2;
      } else if command[i] == LPAREN && StartsArithmetic(command, i) && StartsWord(command, i) {
        Push(Arithmetic(0));
        next := i + 2;
      } else if command[i] == LPAREN {
        Depth(true);
      } else if command[i] == RPAREN {
        if frame == Substitution(0) { Pop(); } else { Depth(false); }
      } else if command[i] == LBRACKET && Has(command, i + 1, LBRACKET) && StartsWord(command, i) {
        Push(Conditional);
        next := i + 2;
      } else if command[i] == HASH && StartsWord(command, i) {
        next := Find(command, i, LF);
      } else if command[i] == LT && StartsHeredoc(command, i) {
        next := ReadHeredoc(i);
      } else if command[i] == LF && pending != [] {
        Push(Body);
      }
    }

    /** Record the heredoc opened at this operator; the command line continues after
        its delimiter. */
    method ReadHeredoc(operator: nat) returns (next: nat)
      requires operator + 2 <= |command| && Valid(command) && command[operator + 1] < 0x80
      modifies this`pending
      ensures operator + 2 <= next && At(next) == HeredocStep(command, old(At(operator)))
    {
      var strip := Has(command, operator + 2, DASH);
      var i := SkipToDelimiter(operator);
      AfterAscii(command, i - 1);
      next := ReadDelimiterAt(i, strip);
    }

    method SkipToDelimiter(operator: nat) returns (i: nat)
      requires operator + 2 <= |command| && command[operator + 1] < 0x80
      ensures i == DelimiterStart(command, operator) && command[i - 1] < 0x80
    {
      i := operator + 2;
      if Has(command, i, DASH) { i := i + 1; }
      ghost var start := SkipBlanks(command, i);
      while i < |command| && IsBlank(command[i])
        invariant operator + 2 <= i <= |command| && command[i - 1] < 0x80 && SkipBlanks(command, i) == start
      {
        i := i + 1;
      }
    }

    method ReadDelimiterAt(i: nat, strip: bool) returns (next: nat)
      requires i <= |command| && Valid(command) && IsBoundary(command, i)
      modifies this`pending
      ensures var o := ReadDelimiter(command, i, strip);
        next == o.next && pending == if o.heredoc.Some? then old(pending) + [o.heredoc.value] else old(pending)
    {
      if i == |command| { return i; }
      if IsQuote(command[i]) {
        var end := Find(command, i + 1, command[i]);
        if end == |command| { return |command|; }
        AfterAscii(command, i);
        AfterAscii(command, end);
        pending := pending + [Heredoc(Slice(command, i + 1, end), strip)];
        return end + 1;
      }
      var end := FindBoundary(command, i);
      if end < |command| { AfterAscii(command, end); }
      pending := pending + [Heredoc(Slice(command, i, end), strip)];
      return end;
    }

    method Replace(r: Range)
      requires copied <= r.start <= r.end <= |command| && IsBoundary(command, copied) && IsBoundary(command, r.start)
      modifies this`out, this`copied
      ensures Effect(command, Some(r), old(out), old(copied), out, copied)
    {
      out := Some(Buffer(out) + Slice(command, copied, r.start) + DEV_NULL);
      copied := r.end;
    }

    /** Replace the target of the redirect at i when it is the null device. */
    method Redirect(i: nat, ghost f: Found) returns (next: nat)
      requires Valid(command) && i < |command| && copied <= i && Ready() && command[i] == GT
      requires f == RedirectTarget(command, i, frames[|frames| - 1].Backtick?)
      modifies this`out, this`copied
      ensures next == f.next && copied <= next <= |command| && IsBoundary(command, copied)
      ensures Effect(command, f.hit, old(out), old(copied), out, copied)
    {
      var found := ReadRedirect(command, i, frames[|frames| - 1].Backtick?);
      if found.hit.Some? {
        HitAligned(command, i, frames[|frames| - 1].Backtick?);
        Replace(found.hit.value);
      }
      next := found.next;
    }
  }

  datatype HostShell = Posix | GitBash | Cmd

  datatype ShellCommand = ShellCommand(original: seq<byte>, actual: seq<byte>)

  /** The host's form of a command: rewritten for Git Bash, unchanged elsewhere. */
  method ForShell(command: seq<byte>, shell: HostShell) returns (r: ShellCommand)
    requires Valid(command)
    ensures r.original == command && Valid(r.actual)
    ensures r.actual == if shell.GitBash? then Rewrite.Rewritten(command) else command
    ensures r.actual != command <==> shell.GitBash? && Targets(command, START) != []
    ensures shell.GitBash? ==> Meaning.Replaces(command, r.actual)
  {
    Meaning.RewrittenReplaces(command);
    Rewrite.RewrittenDiffers(command);
    Rewrite.RewrittenValid(command);
    if shell.GitBash? {
      var scan := new Scan(command);
      var rewritten := scan.Run();
      r := ShellCommand(command, if rewritten.Some? then rewritten.value else command);
    } else {
      r := ShellCommand(command, command);
    }
  }
}
