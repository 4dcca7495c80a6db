/** What the scan's replacements mean: an exact splice of proven targets, and a
    rewriting that is a fixed point of itself. */
module ShellRewrite {
  import opened Options
  import opened Utf8
  import opened ShellScan
  import opened Sequences

  // ----- the targets of one scan -----

  /** A bare or quoted device name. */
  predicate SpellsNul(text: seq<byte>, r: Range) {
    && r.start <= r.end <= |text|
    && (|| IsNul(text[r.start..r.end])
        || (&& r.end == r.start + 5 && IsQuote(text[r.start]) && text[r.end - 1] == text[r.start]
            && IsNul(text[r.start + 1..r.end - 1])))
  }

  /** The range follows a redirect operator, with only blanks between them. */
  predicate FollowsRedirect(text: seq<byte>, operator: nat, r: Range) {
    && operator < r.start <= |text|
    && text[operator] == GT
    && var i := if Has(text, operator + 1, GT) then operator + 2 else operator + 1;
       i <= r.start && forall j :: i <= j < r.start ==> IsBlank(text[j])
  }

  /** The configuration stands on a redirect operator in command text, and r is the
      device name that is its whole target. */
  predicate Proves(text: seq<byte>, c: Config, r: Range)
    requires IsStack(c.frames) && c.at < |text|
  {
    && c.Top().ReadsCommands()
    && FollowsRedirect(text, c.at, r)
    && SpellsNul(text, r)
    && EndsWord(text, r.end, c.Top().Backtick?)
  }

  /** A step proves a target exactly when it stands in command text on a redirect
      operator whose next word is the device name and nothing more. */
  lemma HitExactly(text: seq<byte>, c: Config, r: Range)
    requires IsStack(c.frames) && c.at < |text|
    ensures Step(text, c).hit == Some(r) <==> Proves(text, c, r)
    ensures Proves(text, c, r) ==> Step(text, c).next == c.Go(r.end)
  {
    if c.Top().ReadsCommands() && text[c.at] == GT {
      var cb := c.Top().Backtick?;
      if Proves(text, c, r) {
        ProvesFinds(text, c.at, cb, r);
      } else if RedirectTarget(text, c.at, cb).hit.Some? {
        HitSpells(text, c.at, cb);
      }
    }
  }

  lemma ProvesFinds(text: seq<byte>, operator: nat, cb: bool, r: Range)
    requires FollowsRedirect(text, operator, r) && SpellsNul(text, r) && EndsWord(text, r.end, cb)
    ensures RedirectTarget(text, operator, cb) == Found(r.end, Some(r))
  {
    var s := TargetStart(text, operator);
    assert r.start < |text| && !IsBlank(text[r.start]) by {
      if IsNul(text[r.start..r.end]) { assert text[r.start] == text[r.start..r.end][0]; }
    }
    assert s == r.start;
    if IsNul(text[r.start..r.end]) {
      assert text[s] == text[r.start..r.end][0];
    } else {
      QuoteEnds(text, r);
    }
  }

  lemma QuoteEnds(text: seq<byte>, r: Range)
    requires r.end == r.start + 5 <= |text| && IsQuote(text[r.start]) && text[r.end - 1] == text[r.start]
    requires IsNul(text[r.start + 1..r.end - 1])
    ensures Find(text, r.start + 1, text[r.start]) == r.end - 1
  {
    var q := text[r.start];
    var s := text[r.start + 1..r.end - 1];
    assert text[r.start + 1] == s[0] && text[r.start + 2] == s[1] && text[r.start + 3] == s[2];
    assert Find(text, r.start + 4, q) == r.start + 4;
    assert Find(text, r.start + 3, q) == r.start + 4;
    assert Find(text, r.start + 2, q) == r.start + 4;
  }

  lemma HitSpells(text: seq<byte>, operator: nat, cb: bool)
    requires operator < |text| && text[operator] == GT && RedirectTarget(text, operator, cb).hit.Some?
    ensures var f := RedirectTarget(text, operator, cb);
      && FollowsRedirect(text, operator, f.hit.value) && SpellsNul(text, f.hit.value)
      && f.next == f.hit.value.end && EndsWord(text, f.next, cb)
  {}

  /** Increasing, disjoint, spelling the device name, none before from. */
  ghost predicate Ordered(text: seq<byte>, from: nat, ts: seq<Range>)
    decreases |ts|
  {
    from <= |text|
    && (ts != [] ==>
      && from < ts[0].start && SpellsNul(text, ts[0])
      && (text[ts[0].start - 1] == GT || IsBlank(text[ts[0].start - 1]))
      && Ordered(text, ts[0].end, ts[1..]))
  }

  lemma {:induction false} TargetsOrdered(text: seq<byte>, c: Config)
    requires IsStack(c.frames) && c.at <= |text|
    ensures Ordered(text, c.at, Targets(text, c))
    decreases |text| - c.at, |c.frames|
  {
    if c.at < |text| {
      var m := Step(text, c);
      TargetsOrdered(text, m.next);
      if m.hit.Some? {
        HitExactly(text, c, m.hit.value);
        OrderedCons(text, c.at, m.hit.value, Targets(text, m.next));
      } else {
        assert Targets(text, c) == Targets(text, m.next);
      }
    }
  }

  lemma OrderedCons(text: seq<byte>, operator: nat, r: Range, ts: seq<Range>)
    requires FollowsRedirect(text, operator, r) && SpellsNul(text, r) && Ordered(text, r.end, ts)
    ensures Ordered(text, operator, [r] + ts)
  {
    assert ([r] + ts)[1..] == ts;
  }

  // ----- the splice -----

  /** The text from an offset on, with the null device over each range. */
  function Splice(text: seq<byte>, from: nat, ts: seq<Range>): seq<byte>
    requires Ordered(text, from, ts)
    decreases |ts|
  {
    if ts == [] then text[from..]
    else text[from..ts[0].start] + DEV_NULL + Splice(text, ts[0].end, ts[1..])
  }

  function Rewritten(text: seq<byte>): seq<byte> {
    TargetsOrdered(text, START);
    Splice(text, 0, Targets(text, START))
  }

  function Count(ts: seq<Range>, width: nat): nat {
    if ts == [] then 0 else (if ts[0].end - ts[0].start == width then 1 else 0) + Count(ts[1..], width)
  }

  /** A bare target makes the text six bytes longer, a quoted one four. */
  lemma {:induction false} SpliceLength(text: seq<byte>, from: nat, ts: seq<Range>)
    requires Ordered(text, from, ts)
    ensures |Splice(text, from, ts)| == |text| - from + 6 * Count(ts, 3) + 4 * Count(ts, 5)
    ensures Count(ts, 3) + Count(ts, 5) == |ts|
    decreases |ts|
  {
    if ts != [] {
      SpliceLength(text, ts[0].end, ts[1..]);
    }
  }

  /** The text changes exactly when some target was proven. */
  lemma RewrittenDiffers(text: seq<byte>)
    ensures Rewritten(text) != text <==> Targets(text, START) != []
    ensures |Rewritten(text)| >= |text| + 4 * |Targets(text, START)|
  {
    TargetsOrdered(text, START);
    SpliceLength(text, 0, Targets(text, START));
    assert text[0..] == text;
  }

  /** Every configuration the scan passes through before the text ends. */
  function Trace(text: seq<byte>, c: Config): (cs: seq<Config>)
    requires IsStack(c.frames) && c.at <= |text|
    ensures forall d <- cs :: IsStack(d.frames) && d.at < |text|
    decreases |text| - c.at, |c.frames|
  {
    if c.at == |text| then [] else [c] + Trace(text, Step(text, c).next)
  }

  /** A range is replaced exactly when the scan stands on its operator in command text
      and the range is the device name that is the whole target. */
  lemma {:induction false} ReplacedExactly(text: seq<byte>, c: Config, r: Range)
    requires IsStack(c.frames) && c.at <= |text|
    ensures r in Targets(text, c) <==> exists d :: d in Trace(text, c) && Proves(text, d, r)
    decreases |text| - c.at, |c.frames|
  {
    if c.at < |text| {
      var m := Step(text, c);
      ReplacedExactly(text, m.next, r);
      HitExactly(text, c, r);
      assert r in Targets(text, c) <==> m.hit == Some(r) || r in Targets(text, m.next);
      assert forall d :: d in Trace(text, c) <==> d == c || d in Trace(text, m.next);
    }
  }

  // ----- str slices -----

  /** A body frame lies only on top, and is read from a character boundary. */
  ghost predicate Aligned(text: seq<byte>, c: Config) {
    && IsStack(c.frames) && c.at <= |text|
    && Body !in c.frames[..|c.frames| - 1]
    && (c.Top() == Body ==> IsBoundary(text, c.at))
  }

  lemma AlignedStep(text: seq<byte>, c: Config)
    requires Valid(text) && Aligned(text, c) && c.at < |text|
    ensures Aligned(text, Step(text, c).next)
  {
    if c.Top() == Body {
      AlignedBody(text, c);
    } else {
      assert c.frames == c.frames[..|c.frames| - 1] + [c.Top()];
      AlignedFrames(text, c);
      AlignedPushed(text, c.at, Step(text, c).next);
    }
  }

  lemma AlignedPushed(text: seq<byte>, i: nat, next: Config)
    requires Valid(text) && i < |text| && IsStack(next.frames) && next.at <= |text|
    requires Body !in next.frames[..|next.frames| - 1]
    requires next.Top() == Body ==> text[i] == LF && next.at == i + 1
    ensures Aligned(text, next)
  {
    if next.Top() == Body { AfterAscii(text, i); }
  }

  lemma AlignedBody(text: seq<byte>, c: Config)
    requires Valid(text) && Aligned(text, c) && c.at < |text| && c.Top() == Body
    ensures Aligned(text, BodyStep(text, c))
  {
    if c.pending == [] {
      AlignedPop(text, c.frames, c.at);
    } else {
      AfterLineAligned(text, Find(text, c.at, LF));
    }
  }

  lemma AfterLineAligned(text: seq<byte>, end: nat)
    requires Valid(text) && end <= |text| && (end < |text| ==> text[end] == LF)
    ensures AfterLine(text, end) <= |text| && IsBoundary(text, AfterLine(text, end))
  {
    if end < |text| { AfterAscii(text, end); }
  }

  lemma AlignedPop(text: seq<byte>, frames: seq<Frame>, at: nat)
    requires IsStack(frames) && frames[|frames| - 1] == Body && Body !in frames[..|frames| - 1] && at <= |text|
    ensures Aligned(text, Config(frames[..|frames| - 1], [], at))
  {
    var under := frames[..|frames| - 1];
    assert under[|under| - 1] in under;
    assert forall f <- under[..|under| - 1] :: f in under;
  }

  lemma AlignedFrames(text: seq<byte>, c: Config)
    requires IsStack(c.frames) && c.at < |text| && Body !in c.frames
    ensures var n := Step(text, c).next.frames;
      && Body !in n[..|n| - 1]
      && (n[|n| - 1] == Body ==> text[c.at] == LF && Step(text, c).next.at == c.at + 1)
  {
    var n := Step(text, c).next.frames;
    assert n == c.frames + [n[|n| - 1]] || n == c.frames[..|c.frames| - 1] || n == c.Retop(n[|n| - 1]);
    assert c.frames[|c.frames| - 1] in c.frames;
  }

  /** The rewritten command is again a str. */
  lemma {:induction false} SpliceValid(text: seq<byte>, from: nat, ts: seq<Range>)
    requires Valid(text) && Ordered(text, from, ts) && IsBoundary(text, from)
    ensures Valid(Splice(text, from, ts))
    decreases |ts|
  {
    if ts == [] {
      ValidSplit(text, from);
    } else {
      var r := ts[0];
      TargetAligned(text, r);
      SliceValid(text, from, r.start);
      SpliceValid(text, r.end, ts[1..]);
      ValidAround(text[from..r.start], Splice(text, r.end, ts[1..]));
    }
  }

  lemma ValidAround(a: seq<byte>, b: seq<byte>)
    requires Valid(a) && Valid(b)
    ensures Valid(a + DEV_NULL + b)
  {
    AsciiValid(DEV_NULL);
    ValidConcat(a, DEV_NULL);
    ValidConcat(a + DEV_NULL, b);
  }

  lemma TargetAligned(text: seq<byte>, r: Range)
    requires Valid(text) && SpellsNul(text, r) && 0 < r.start
    requires text[r.start - 1] == GT || IsBlank(text[r.start - 1])
    ensures r.start < r.end && IsBoundary(text, r.start) && IsBoundary(text, r.end)
  {
    AfterAscii(text, r.start - 1);
    if IsNul(text[r.start..r.end]) { assert text[r.end - 1] == text[r.start..r.end][2]; }
    AfterAscii(text, r.end - 1);
  }

  lemma SliceValid(text: seq<byte>, a: nat, b: nat)
    requires Valid(text) && a <= b <= |text| && IsBoundary(text, a) && IsBoundary(text, b)
    ensures Valid(text[a..b])
  {
    ValidSplit(text, b);
    ValidSplit(text[..b], a);
    assert text[..b][a..] == text[a..b];
  }

  lemma {:induction false} AsciiValid(s: seq<byte>)
    requires forall b <- s :: b < 0x80
    ensures Valid(s)
  {
    if s != [] {
      assert s[0] in s && forall b <- s[1..] :: b in s;
      AsciiValid(s[1..]);
    }
  }

  lemma RewrittenValid(text: seq<byte>)
    requires Valid(text)
    ensures Valid(Rewritten(text))
  {
    TargetsOrdered(text, START);
    SpliceValid(text, 0, Targets(text, START));
  }

  // ----- fixed point -----

  /** The stretch up to p reads the same in both texts; there one text ends with the
      other, or holds a target over which the other holds the null device. */
  ghost predicate Agree(t: seq<byte>, i: nat, u: seq<byte>, k: nat, p: nat) {
    && i <= p <= |t| && k + (p - i) <= |u|
    && t[i..p] == u[k..k + (p - i)]
    && StartsWord(t, i) == StartsWord(u, k)
    && (if p == |t| then |u| - k == |t| - i
        else && i < p && (t[p - 1] == GT || IsBlank(t[p - 1]))
             && (IsQuote(t[p]) || t[p] == 110 || t[p] == 78)
             && Has(u, k + (p - i), SLASH))
  }

  /** A byte both texts may be asked for: inside the stretch, at its end, or past
      the end of both. */
  predicate InView(t: seq<byte>, p: nat, j: nat) {
    j <= p || p == |t|
  }

  lemma HasAgrees(t: seq<byte>, i: nat, u: seq<byte>, k: nat, p: nat, j: nat, b: byte)
    requires Agree(t, i, u, k, p) && i <= j && InView(t, p, j)
    requires b != SLASH && !IsQuote(b) && b != 110 && b != 78
    ensures Has(t, j, b) == Has(u, k + (j - i), b)
  {
    if j < p { SameByte(t, i, u, k, p, j); }
  }

  lemma SameByte(t: seq<byte>, i: nat, u: seq<byte>, k: nat, p: nat, j: nat)
    requires Agree(t, i, u, k, p) && i <= j < p
    ensures t[j] == u[k + (j - i)]
  {
    assert t[j] == t[i..p][j - i];
  }

  lemma {:induction false} FindAgrees(t: seq<byte>, i: nat, u: seq<byte>, k: nat, p: nat, from: nat, b: byte)
    requires Agree(t, i, u, k, p) && i <= from <= p
    requires Find(t, from, b) < p || p == |t|
    ensures Find(u, k + (from - i), b) == k + (Find(t, from, b) - i)
    decreases p - from
  {
    if from < p {
      SameByte(t, i, u, k, p, from);
      if t[from] != b { FindAgrees(t, i, u, k, p, from + 1, b); }
    }
  }

  lemma {:induction false} BoundaryAgrees(t: seq<byte>, i: nat, u: seq<byte>, k: nat, p: nat, from: nat)
    requires Agree(t, i, u, k, p) && i <= from <= p
    requires FindBoundary(t, from) < p || p == |t|
    ensures FindBoundary(u, k + (from - i)) == k + (FindBoundary(t, from) - i)
    decreases p - from
  {
    if from < p {
      SameByte(t, i, u, k, p, from);
      if !IsTokenBoundary(t[from]) { BoundaryAgrees(t, i, u, k, p, from + 1); }
    }
  }

  lemma {:induction false} BlanksAgree(t: seq<byte>, i: nat, u: seq<byte>, k: nat, p: nat, from: nat)
    requires Agree(t, i, u, k, p) && i <= from <= p && SkipBlanks(t, from) <= p
    ensures SkipBlanks(u, k + (from - i)) == k + (SkipBlanks(t, from) - i)
    decreases p - from
  {
    if from < p {
      SameByte(t, i, u, k, p, from);
      if IsBlank(t[from]) { BlanksAgree(t, i, u, k, p, from + 1); }
    }
  }

  lemma TargetStartAgrees(t: seq<byte>, i: nat, u: seq<byte>, k: nat, p: nat)
    requires Agree(t, i, u, k, p) && i < |t| && k < |u| && TargetStart(t, i) <= p
    ensures TargetStart(u, k) == k + (TargetStart(t, i) - i)
  {
    HasAgrees(t, i, u, k, p, i + 1, GT);
    BlanksAgree(t, i, u, k, p, if Has(t, i + 1, GT) then i + 2 else i + 1);
  }

  /** The next word after the redirect operator starts with a quote. */
  predicate QuoteFollows(t: seq<byte>, operator: nat)
    requires operator < |t|
  {
    TargetStart(t, operator) < |t| && IsQuote(t[TargetStart(t, operator)])
  }

  /** A redirect whose target is not proven is not proven after later replacements
      either; at most the removed quotes leave its own quote unclosed. */
  lemma RedirectAgrees(t: seq<byte>, i: nat, u: seq<byte>, k: nat, p: nat, cb: bool)
    requires Agree(t, i, u, k, p) && i < |t| && k < |u|
    requires var f := RedirectTarget(t, i, cb); f.hit.None? && (f.next < p || p == |t|)
    ensures RedirectTarget(u, k, cb).hit.None?
    ensures RedirectTarget(u, k, cb).next == k + (RedirectTarget(t, i, cb).next - i)
      || (RedirectTarget(u, k, cb).next == |u| && QuoteFollows(t, i))
  {
    var s := TargetStart(t, i);
    TargetStartAgrees(t, i, u, k, p);
    if s < |t| {
      SameByte(t, i, u, k, p, s);
      if IsQuote(t[s]) {
        QuotedAgrees(t, i, u, k, p, s, cb);
      } else {
        BareAgrees(t, i, u, k, p, s, cb);
      }
    }
  }

  lemma WindowAgrees(t: seq<byte>, i: nat, u: seq<byte>, k: nat, p: nat, s: nat, n: nat)
    requires Agree(t, i, u, k, p) && i <= s < p && k + (s - i) + n <= |u|
    requires SLASH !in u[k + (s - i)..k + (s - i) + n]
    ensures s + n <= p && t[s..s + n] == u[k + (s - i)..k + (s - i) + n]
  {
    var w := u[k + (s - i)..k + (s - i) + n];
    var q := if p < s + n then p - s else 0;
    assert n > 0 ==> w[q] != SLASH;
    var a := s - i;
    SubSlice(t, i, p, a, a + n);
    SubSlice(u, k, k + (p - i), a, a + n);
  }

  lemma EndsWordAgrees(t: seq<byte>, i: nat, u: seq<byte>, k: nat, p: nat, e: nat, cb: bool)
    requires Agree(t, i, u, k, p) && i < e <= p && t[e - 1] != GT && !IsBlank(t[e - 1])
    ensures EndsWord(t, e, cb) == EndsWord(u, k + (e - i), cb)
  {
    if e < p { SameByte(t, i, u, k, p, e); }
  }

  lemma BareAgrees(t: seq<byte>, i: nat, u: seq<byte>, k: nat, p: nat, s: nat, cb: bool)
    requires Agree(t, i, u, k, p) && i <= s < p
    requires !(s + 3 <= |t| && IsNul(t[s..s + 3]) && EndsWord(t, s + 3, cb))
    ensures var v := k + (s - i); !(v + 3 <= |u| && IsNul(u[v..v + 3]) && EndsWord(u, v + 3, cb))
  {
    var v := k + (s - i);
    if v + 3 <= |u| && IsNul(u[v..v + 3]) {
      assert u[v] == u[v..v + 3][0] && u[v + 1] == u[v..v + 3][1] && u[v + 2] == u[v..v + 3][2];
      WindowAgrees(t, i, u, k, p, s, 3);
      assert t[s + 2] == t[s..s + 3][2];
      EndsWordAgrees(t, i, u, k, p, s + 3, cb);
    }
  }

  lemma QuotedAgrees(t: seq<byte>, i: nat, u: seq<byte>, k: nat, p: nat, s: nat, cb: bool)
    requires Agree(t, i, u, k, p) && i <= s < p && IsQuote(t[s]) && QuotedTarget(t, s, cb).hit.None?
    requires k + (s - i) < |u| && u[k + (s - i)] == t[s]
    requires QuotedTarget(t, s, cb).next == s || p == |t|
    ensures QuotedTarget(u, k + (s - i), cb).hit.None?
    ensures QuotedTarget(u, k + (s - i), cb).next == k + (QuotedTarget(t, s, cb).next - i)
      || QuotedTarget(u, k + (s - i), cb).next == |u|
  {
    QuotedUnproven(t, i, u, k, p, s, cb);
    if QuotedTarget(t, s, cb).next != s {
      FindAgrees(t, i, u, k, p, s + 1, t[s]);
    }
  }

  lemma QuotedUnproven(t: seq<byte>, i: nat, u: seq<byte>, k: nat, p: nat, s: nat, cb: bool)
    requires Agree(t, i, u, k, p) && i <= s < p && IsQuote(t[s]) && QuotedTarget(t, s, cb).hit.None?
    requires k + (s - i) < |u| && u[k + (s - i)] == t[s]
    ensures QuotedTarget(u, k + (s - i), cb).hit.None?
  {
    var v := k + (s - i);
    var e := Find(u, v + 1, u[v]);
    if e < |u| && IsNul(u[v + 1..e]) && EndsWord(u, e + 1, cb) {
      NamedAgrees(t, i, u, k, p, s, cb);
      assert false;
    }
  }

  lemma NamedAgrees(t: seq<byte>, i: nat, u: seq<byte>, k: nat, p: nat, s: nat, cb: bool)
    requires Agree(t, i, u, k, p) && i <= s < p && IsQuote(t[s])
    requires var v := k + (s - i);
      && v + 5 <= |u| && u[v] == t[s] == u[v + 4] && IsNul(u[v + 1..v + 4]) && EndsWord(u, v + 5, cb)
    ensures QuotedTarget(t, s, cb).hit.Some?
  {
    var v := k + (s - i);
    var w := u[v..v + 5];
    SubSlice(u, v, v + 5, 1, 4);
    NoSlashInName(w, u[v + 1..v + 4]);
    WindowAgrees(t, i, u, k, p, s, 5);
    assert t[s + 4] == w[4];
    EndsWordAgrees(t, i, u, k, p, s + 5, cb);
    NamedHits(t, s, w, cb);
  }

  lemma NoSlashInName(w: seq<byte>, name: seq<byte>)
    requires |w| == 5 && IsQuote(w[0]) && w[4] == w[0] && name == w[1..4] && IsNul(name)
    ensures SLASH !in w
  {
    assert w[1] == name[0] && w[2] == name[1] && w[3] == name[2];
  }

  lemma NamedHits(t: seq<byte>, s: nat, w: seq<byte>, cb: bool)
    requires s + 5 <= |t| && w == t[s..s + 5] && IsQuote(w[0]) && w[4] == w[0] && IsNul(w[1..4])
    requires EndsWord(t, s + 5, cb)
    ensures QuotedTarget(t, s, cb).hit.Some?
  {
    SubSlice(t, s, s + 5, 1, 4);
    assert t[s + 4] == w[4];
    QuoteEnds(t, Range(s, s + 5));
  }

  /** The same configuration at the corresponding offset of the other text. */
  function Shift(c: Config, i: nat, k: nat): Config
    requires i <= c.at
  {
    c.Go(k + (c.at - i))
  }

  /** The step stays inside the stretch, short of the next replaced target. */
  ghost predicate Stays(t: seq<byte>, c: Config, u: seq<byte>, k: nat, p: nat, next: Config) {
    && IsStack(c.frames) && c.at < |t| && k < |u|
    && Agree(t, c.at, u, k, p)
    && c.at <= next.at && (next.at < p || p == |t|)
  }

  lemma DollarAgrees(t: seq<byte>, c: Config, u: seq<byte>, k: nat, p: nat)
    requires c.at < |t| && k < |u| && Stays(t, c, u, k, p, DollarStep(t, c))
    ensures DollarStep(u, c.Go(k)) == Shift(DollarStep(t, c), c.at, k)
  {
    HasAgrees(t, c.at, u, k, p, c.at + 1, LPAREN);
    HasAgrees(t, c.at, u, k, p, c.at + 2, LPAREN);
  }

  lemma DoubleQuotedAgrees(t: seq<byte>, c: Config, u: seq<byte>, k: nat, p: nat)
    requires IsStack(c.frames) && c.at < |t| && k < |u| && Stays(t, c, u, k, p, DoubleQuotedStep(t, c))
    ensures DoubleQuotedStep(u, c.Go(k)) == Shift(DoubleQuotedStep(t, c), c.at, k)
  {
    SameByte(t, c.at, u, k, p, c.at);
    if t[c.at] == DOLLAR { DollarAgrees(t, c, u, k, p); }
  }

  lemma ConditionalAgrees(t: seq<byte>, c: Config, u: seq<byte>, k: nat, p: nat)
    requires IsStack(c.frames) && c.at < |t| && k < |u| && Stays(t, c, u, k, p, ConditionalStep(t, c))
    ensures ConditionalStep(u, c.Go(k)) == Shift(ConditionalStep(t, c), c.at, k)
  {
    SameByte(t, c.at, u, k, p, c.at);
    if t[c.at] == DOLLAR { DollarAgrees(t, c, u, k, p); }
    HasAgrees(t, c.at, u, k, p, c.at + 1, RBRACKET);
  }

  lemma SliceAgrees(t: seq<byte>, i: nat, u: seq<byte>, k: nat, p: nat, a: nat, b: nat)
    requires Agree(t, i, u, k, p) && i <= a <= b <= p
    ensures t[a..b] == u[k + (a - i)..k + (b - i)]
  {
    SubSlice(t, i, p, a - i, b - i);
    SubSlice(u, k, k + (p - i), a - i, b - i);
  }

  lemma LineAgrees(t: seq<byte>, i: nat, u: seq<byte>, k: nat, p: nat)
    requires Agree(t, i, u, k, p) && i < |t|
    requires var end := Find(t, i, LF); end < p || p == |t|
    ensures Find(u, k, LF) == k + (Find(t, i, LF) - i)
    ensures t[i..Find(t, i, LF)] == u[k..Find(u, k, LF)]
    ensures AfterLine(u, Find(u, k, LF)) == k + (AfterLine(t, Find(t, i, LF)) - i)
  {
    FindAgrees(t, i, u, k, p, i, LF);
    SliceAgrees(t, i, u, k, p, i, Find(t, i, LF));
  }

  lemma BodyAgrees(t: seq<byte>, c: Config, u: seq<byte>, k: nat, p: nat)
    requires IsStack(c.frames) && c.at < |t| && k < |u| && Stays(t, c, u, k, p, BodyStep(t, c))
    ensures BodyStep(u, c.Go(k)) == Shift(BodyStep(t, c), c.at, k)
  {
    if c.pending != [] {
      LineAgrees(t, c.at, u, k, p);
    }
  }

  lemma DelimiterAgrees(t: seq<byte>, i: nat, u: seq<byte>, k: nat, p: nat, s: nat, strip: bool)
    requires Agree(t, i, u, k, p) && i <= s <= p
    requires var n := ReadDelimiter(t, s, strip).next; n < p || p == |t|
    ensures var o := ReadDelimiter(t, s, strip);
      o.next >= i && ReadDelimiter(u, k + (s - i), strip) == Opened(k + (o.next - i), o.heredoc)
  {
    if s < |t| {
      SameByte(t, i, u, k, p, s);
      if IsQuote(t[s]) {
        QuotedDelimiterAgrees(t, i, u, k, p, s, t[s]);
      } else {
        BoundaryAgrees(t, i, u, k, p, s);
        SliceAgrees(t, i, u, k, p, s, FindBoundary(t, s));
      }
    }
  }

  lemma QuotedDelimiterAgrees(t: seq<byte>, i: nat, u: seq<byte>, k: nat, p: nat, s: nat, quote: byte)
    requires Agree(t, i, u, k, p) && i <= s < p
    requires Find(t, s + 1, quote) < p || p == |t|
    ensures k + (s + 1 - i) <= |u| && Find(u, k + (s + 1 - i), quote) == k + (Find(t, s + 1, quote) - i)
    ensures t[s + 1..Find(t, s + 1, quote)] == u[k + (s + 1 - i)..k + (Find(t, s + 1, quote) - i)]
  {
    FindAgrees(t, i, u, k, p, s + 1, quote);
    SliceAgrees(t, i, u, k, p, s + 1, Find(t, s + 1, quote));
  }

  lemma DelimiterStartAgrees(t: seq<byte>, i: nat, u: seq<byte>, k: nat, p: nat)
    requires Agree(t, i, u, k, p) && i + 2 <= |t| && k + 2 <= |u|
    requires DelimiterStart(t, i) < p || p == |t|
    ensures Has(u, k + 2, DASH) == Has(t, i + 2, DASH)
    ensures DelimiterStart(u, k) == k + (DelimiterStart(t, i) - i)
  {
    HasAgrees(t, i, u, k, p, i + 2, DASH);
    BlanksAgree(t, i, u, k, p, if Has(t, i + 2, DASH) then i + 3 else i + 2);
  }

  lemma ReadHeredocAgrees(t: seq<byte>, i: nat, u: seq<byte>, k: nat, p: nat)
    requires Agree(t, i, u, k, p) && i + 2 <= |t| && k + 2 <= |u|
    requires var n := ReadHeredoc(t, i).next; n < p || p == |t|
    ensures var o := ReadHeredoc(t, i); ReadHeredoc(u, k) == Opened(k + (o.next - i), o.heredoc)
  {
    DelimiterStartAgrees(t, i, u, k, p);
    DelimiterAgrees(t, i, u, k, p, DelimiterStart(t, i), Has(t, i + 2, DASH));
  }

  lemma HeredocAgrees(t: seq<byte>, c: Config, u: seq<byte>, k: nat, p: nat)
    requires c.at + 2 <= |t| && k + 2 <= |u| && Stays(t, c, u, k, p, HeredocStep(t, c))
    ensures HeredocStep(u, c.Go(k)) == Shift(HeredocStep(t, c), c.at, k)
  {
    ReadHeredocAgrees(t, c.at, u, k, p);
  }

  /** Bytes whose step looks further than the byte itself. */
  predicate LooksAhead(b: byte) {
    b == DOLLAR || b == LPAREN || b == LBRACKET || b == HASH || b == LT
  }

  lemma PlainAgrees(t: seq<byte>, c: Config, u: seq<byte>, k: nat, p: nat)
    requires IsStack(c.frames) && c.at < |t| && k < |u| && Stays(t, c, u, k, p, PlainStep(t, c))
    ensures PlainStep(u, c.Go(k)) == Shift(PlainStep(t, c), c.at, k)
  {
    SameByte(t, c.at, u, k, p, c.at);
    if t[c.at] == DOLLAR {
      DollarAgrees(t, c, u, k, p);
    } else if t[c.at] == HASH {
      HashAgrees(t, c, u, k, p);
    } else if t[c.at] == LT {
      LessAgrees(t, c, u, k, p);
    } else if t[c.at] == LPAREN {
      OpenParenAgrees(t, c, u, k, p);
    } else if t[c.at] == LBRACKET {
      OpenBracketAgrees(t, c, u, k, p);
    } else {
      ByteAgrees(t, c, u, k, p);
    }
  }

  lemma ByteAgrees(t: seq<byte>, c: Config, u: seq<byte>, k: nat, p: nat)
    requires IsStack(c.frames) && c.at < |t| && k < |u| && Stays(t, c, u, k, p, PlainStep(t, c))
    requires u[k] == t[c.at] && !LooksAhead(t[c.at])
    ensures PlainStep(u, c.Go(k)) == Shift(PlainStep(t, c), c.at, k)
  {}

  lemma OpenParenAgrees(t: seq<byte>, c: Config, u: seq<byte>, k: nat, p: nat)
    requires IsStack(c.frames) && c.at < |t| && k < |u| && Stays(t, c, u, k, p, OpenParenStep(t, c))
    requires u[k] == t[c.at]
    ensures OpenParenStep(u, c.Go(k)) == Shift(OpenParenStep(t, c), c.at, k)
  {
    HasAgrees(t, c.at, u, k, p, c.at + 1, LPAREN);
  }

  lemma OpenBracketAgrees(t: seq<byte>, c: Config, u: seq<byte>, k: nat, p: nat)
    requires c.at < |t| && k < |u| && Stays(t, c, u, k, p, OpenBracketStep(t, c))
    ensures OpenBracketStep(u, c.Go(k)) == Shift(OpenBracketStep(t, c), c.at, k)
  {
    HasAgrees(t, c.at, u, k, p, c.at + 1, LBRACKET);
  }

  lemma HashAgrees(t: seq<byte>, c: Config, u: seq<byte>, k: nat, p: nat)
    requires c.at < |t| && k < |u| && Stays(t, c, u, k, p, HashStep(t, c))
    ensures HashStep(u, c.Go(k)) == Shift(HashStep(t, c), c.at, k)
  {
    if StartsWord(t, c.at) { FindAgrees(t, c.at, u, k, p, c.at, LF); }
  }

  lemma LessAgrees(t: seq<byte>, c: Config, u: seq<byte>, k: nat, p: nat)
    requires c.at < |t| && k < |u| && Stays(t, c, u, k, p, LessStep(t, c))
    ensures LessStep(u, c.Go(k)) == Shift(LessStep(t, c), c.at, k)
  {
    HasAgrees(t, c.at, u, k, p, c.at + 1, LT);
    HasAgrees(t, c.at, u, k, p, c.at + 2, LT);
    if StartsHeredoc(t, c.at) { HeredocAgrees(t, c, u, k, p); }
  }

  /** The configuration stands on a redirect operator before a quote, in command text. */
  predicate OnQuotedRedirect(t: seq<byte>, c: Config)
    requires IsStack(c.frames) && c.at < |t|
  {
    c.Top().ReadsCommands() && t[c.at] == GT && QuoteFollows(t, c.at)
  }

  /** One step reads both texts alike, or the other scan stops for good. */
  lemma StepAgrees(t: seq<byte>, c: Config, u: seq<byte>, k: nat, p: nat)
    requires IsStack(c.frames) && c.at < |t| && k < |u|
    requires Step(t, c).hit.None? && Stays(t, c, u, k, p, Step(t, c).next)
    ensures Step(u, c.Go(k)).hit.None?
    ensures Step(u, c.Go(k)).next == Shift(Step(t, c).next, c.at, k)
      || (Step(u, c.Go(k)).next.at == |u| && OnQuotedRedirect(t, c))
  {
    assert c.Go(k).Top() == c.Top();
    match c.Top()
    case DoubleQuoted => DoubleQuotedAgrees(t, c, u, k, p);
    case Conditional => ConditionalAgrees(t, c, u, k, p);
    case Body => BodyAgrees(t, c, u, k, p);
    case SingleQuoted => SameByte(t, c.at, u, k, p, c.at);
    case Arithmetic(_) => SameByte(t, c.at, u, k, p, c.at);
    case _ => CommandAgrees(t, c, u, k, p);
  }

  lemma CommandAgrees(t: seq<byte>, c: Config, u: seq<byte>, k: nat, p: nat)
    requires IsStack(c.frames) && c.at < |t| && k < |u|
    requires CommandStep(t, c).hit.None? && Stays(t, c, u, k, p, CommandStep(t, c).next)
    ensures CommandStep(u, c.Go(k)).hit.None?
    ensures CommandStep(u, c.Go(k)).next == Shift(CommandStep(t, c).next, c.at, k)
      || (CommandStep(u, c.Go(k)).next.at == |u| && t[c.at] == GT && QuoteFollows(t, c.at))
  {
    SameByte(t, c.at, u, k, p, c.at);
    if t[c.at] == GT {
      RedirectStepAgrees(t, c, u, k, p);
    } else {
      PlainAgrees(t, c, u, k, p);
    }
  }

  lemma RedirectStepAgrees(t: seq<byte>, c: Config, u: seq<byte>, k: nat, p: nat)
    requires IsStack(c.frames) && c.at < |t| && k < |u|
    requires RedirectStep(t, c).hit.None? && Stays(t, c, u, k, p, RedirectStep(t, c).next)
    ensures RedirectStep(u, c.Go(k)).hit.None?
    ensures RedirectStep(u, c.Go(k)).next == Shift(RedirectStep(t, c).next, c.at, k)
      || (RedirectStep(u, c.Go(k)).next.at == |u| && QuoteFollows(t, c.at))
  {
    var cb := c.Top().Backtick?;
    var f := RedirectTarget(t, c.at, cb);
    assert RedirectStep(t, c) == Move(c.Go(f.next), f.hit);
    RedirectAgrees(t, c.at, u, k, p, cb);
  }

  /** Where the next replaced target starts. */
  function Gap(t: seq<byte>, ts: seq<Range>): nat {
    if ts == [] then |t| else ts[0].start
  }

  lemma SpliceAgrees(t: seq<byte>, i: nat, ts: seq<Range>, u: seq<byte>, k: nat)
    requires Ordered(t, i, ts) && k <= |u| && u[k..] == Splice(t, i, ts)
    requires StartsWord(t, i) == StartsWord(u, k)
    ensures Agree(t, i, u, k, Gap(t, ts))
  {
    var p := Gap(t, ts);
    assert u[k..k + (p - i)] == u[k..][..p - i];
    if ts != [] {
      var r := ts[0];
      assert u[k + (p - i)] == u[k..][p - i];
      if IsNul(t[r.start..r.end]) { assert t[p] == t[r.start..r.end][0]; }
    }
  }

  lemma SpliceFrom(t: seq<byte>, i: nat, j: nat, ts: seq<Range>)
    requires Ordered(t, i, ts) && Ordered(t, j, ts) && i <= j
    ensures Splice(t, i, ts) == t[i..j] + Splice(t, j, ts)
  {
    if ts == [] {
      assert t[i..] == t[i..j] + t[j..];
    } else {
      var more := Splice(t, ts[0].end, ts[1..]);
      assert t[i..ts[0].start] == t[i..j] + t[j..ts[0].start];
      Regroup(t[i..j], t[j..ts[0].start] + DEV_NULL, more);
      Regroup(t[i..j], t[j..ts[0].start], DEV_NULL);
    }
  }

  lemma DropFront(u: seq<byte>, k: nat, a: seq<byte>, b: seq<byte>)
    requires k <= |u| && u[k..] == a + b
    ensures k + |a| <= |u| && u[k + |a|..] == b
  {
    assert u[k + |a|..] == u[k..][|a|..];
  }

  lemma SpliceDrop(t: seq<byte>, i: nat, j: nat, ts: seq<Range>, u: seq<byte>, k: nat)
    requires Ordered(t, i, ts) && Ordered(t, j, ts) && i <= j && k <= |u| && u[k..] == Splice(t, i, ts)
    ensures k + (j - i) <= |u| && u[k + (j - i)..] == Splice(t, j, ts)
  {
    SpliceFrom(t, i, j, ts);
    DropFront(u, k, t[i..j], Splice(t, j, ts));
  }

  /** The scan passes from one configuration to another, proving nothing on the way. */
  ghost predicate Passes(u: seq<byte>, d: Config, e: Config)
    decreases |u| - d.at, |d.frames|
  {
    d == e || (IsStack(d.frames) && d.at < |u| && Step(u, d).hit.None? && Passes(u, Step(u, d).next, e))
  }

  lemma {:induction false} PassesOn(u: seq<byte>, d: Config, e: Config)
    requires IsStack(d.frames) && d.at <= |u| && Passes(u, d, e)
    ensures IsStack(e.frames) && e.at <= |u| && Targets(u, d) == Targets(u, e)
    decreases |u| - d.at, |d.frames|
  {
    if d != e { PassesOn(u, Step(u, d).next, e); }
  }

  /** A scan over plain bytes replaces nothing and changes no context. */
  lemma {:induction false} OverPlain(u: seq<byte>, c: Config, n: nat)
    requires IsStack(c.frames) && c.Top().ReadsCommands() && c.at + n <= |u|
    requires forall j :: c.at <= j < c.at + n ==> IsPlain(u[j])
    ensures Passes(u, c, c.Go(c.at + n))
    decreases n
  {
    if n > 0 {
      PlainByte(u, c);
      OverPlain(u, c.Go(c.at + 1), n - 1);
    }
  }

  predicate IsPlain(b: byte) {
    b == SLASH || 100 <= b <= 118
  }

  lemma PlainByte(u: seq<byte>, c: Config)
    requires IsStack(c.frames) && c.Top().ReadsCommands() && c.at < |u| && IsPlain(u[c.at])
    ensures Step(u, c) == Move(c.Go(c.at + 1), None)
  {}

  /** One text from k on is the other from i on with the coming targets replaced. */
  ghost predicate Mirrors(t: seq<byte>, i: nat, ts: seq<Range>, u: seq<byte>, k: nat) {
    && i <= |t| && k <= |u|
    && Ordered(t, i, ts)
    && u[k..] == Splice(t, i, ts)
    && StartsWord(t, i) == StartsWord(u, k)
  }

  /** Every configuration the first scan passes has one in the second with the same
      stack and heredoc queue, in the same order, until the first scan ends, or stands
      on a redirect before a quote that the second finds unclosed. */
  ghost predicate Shadows(t: seq<byte>, c: Config, u: seq<byte>, k: nat)
    requires IsStack(c.frames) && c.at <= |t| && k <= |u|
    decreases |t| - c.at, |c.frames|
  {
    if c.at == |t| then k == |u|
    else
      var next := Step(t, c).next;
      k < |u| &&
      ((exists v :: 0 <= v <= |u| && Follows(t, c, u, k, v) && Shadows(t, next, u, v))
       || (OnQuotedRedirect(t, c) && Step(u, c.Go(k)).next.at == |u| && Step(u, c.Go(k)).hit.None?))
  }

  /** The second scan passes to where the first steps. */
  ghost predicate Follows(t: seq<byte>, c: Config, u: seq<byte>, k: nat, v: nat)
    requires IsStack(c.frames) && c.at < |t|
  {
    Passes(u, c.Go(k), Step(t, c).next.Go(v))
  }

  /** Scanning what a scan's replacements leave behind replaces nothing, and reads it in
      the same contexts. */
  lemma {:induction false} Settled(t: seq<byte>, c: Config, u: seq<byte>, k: nat)
    requires IsStack(c.frames) && c.at <= |t| && Mirrors(t, c.at, Targets(t, c), u, k)
    ensures Targets(u, c.Go(k)) == [] && Shadows(t, c, u, k)
    decreases |t| - c.at, |c.frames|
  {
    if c.at == |t| {
      assert |u[k..]| == 0;
    } else {
      var m := Step(t, c);
      TargetsStep(t, c, m);
      TargetsOrdered(t, m.next);
      if m.hit.None? {
        SettledOverQuiet(t, c, u, k, m.next);
      } else {
        HitExactly(t, c, m.hit.value);
        SettledOverHit(t, c, u, k, m.hit.value, m.next);
      }
    }
  }

  lemma {:induction false} SettledOverQuiet(t: seq<byte>, c: Config, u: seq<byte>, k: nat, next: Config)
    requires IsStack(c.frames) && c.at < |t| && Step(t, c) == Move(next, None)
    requires Mirrors(t, c.at, Targets(t, c), u, k) && Ordered(t, next.at, Targets(t, next))
    ensures Targets(u, c.Go(k)) == [] && Shadows(t, c, u, k)
    decreases |t| - c.at, |c.frames|, 0
  {
    TargetsStep(t, c, Move(next, None));
    var v, x := SettledQuiet(t, c, Targets(t, c), u, k, next);
    TargetsStep(u, c.Go(k), v);
    if v.next == next.Go(x) {
      Settled(t, next, u, x);
      assert Passes(u, v.next, v.next);
      assert Follows(t, c, u, k, x);
    }
  }

  lemma {:induction false} SettledOverHit(t: seq<byte>, c: Config, u: seq<byte>, k: nat, r: Range, next: Config)
    requires IsStack(c.frames) && c.at < |t| && Step(t, c) == Move(next, Some(r)) && next == c.Go(r.end)
    requires IsStack(next.frames) && c.at < next.at <= |t| && Targets(t, c) == [r] + Targets(t, next)
    requires Mirrors(t, c.at, [r] + Targets(t, next), u, k) && Proves(t, c, r)
    ensures Targets(u, c.Go(k)) == [] && Shadows(t, c, u, k)
    decreases |t| - c.at, |c.frames|, 0
  {
    var v := HitLands(t, c, r, Targets(t, next), u, k);
    PassesOn(u, c.Go(k), next.Go(v));
    Settled(t, next, u, v);
    assert Follows(t, c, u, k, v);
  }

  /** Over a replaced target the second scan passes the null device and lands after it. */
  lemma HitLands(t: seq<byte>, c: Config, r: Range, rest: seq<Range>, u: seq<byte>, k: nat) returns (v: nat)
    requires IsStack(c.frames) && c.at < |t| && Proves(t, c, r) && Mirrors(t, c.at, [r] + rest, u, k)
    ensures k < |u| && r.end <= |t| && Passes(u, c.Go(k), c.Go(v)) && Mirrors(t, r.end, rest, u, v)
  {
    v := k + (r.start - c.at) + 9;
    MirrorsTail(t, c, r, rest, u, k, v - 9);
    PassTarget(t, c, r, u, k, v);
  }

  lemma PassTarget(t: seq<byte>, c: Config, r: Range, u: seq<byte>, k: nat, v: nat)
    requires IsStack(c.frames) && c.at < |t| && Proves(t, c, r) && v == k + (r.start - c.at) + 9
    requires r.start < |t| && Agree(t, c.at, u, k, r.start) && k < |u|
    requires v <= |u| && u[v - 9..v] == DEV_NULL
    ensures Passes(u, c.Go(k), c.Go(v))
  {
    var e := c.Go(v - 9);
    StepMeetsNullDevice(t, c, r, u, k);
    assert e.Go(e.at + 9) == c.Go(v);
    PassNullDevice(u, c.Go(k), e, c.Go(v));
  }

  lemma TargetsStep(text: seq<byte>, c: Config, m: Move)
    requires IsStack(c.frames) && c.at < |text| && m == Step(text, c)
    ensures Targets(text, c) == (if m.hit.Some? then [m.hit.value] else []) + Targets(text, m.next)
    ensures m.next.at == |text| ==> Targets(text, m.next) == []
    ensures m.hit.Some? ==> m.next == c.Go(m.hit.value.end)
  {
    if m.hit.Some? { HitExactly(text, c, m.hit.value); }
  }

  /** A step that proves nothing: the second scan keeps pace, or runs off the end. */
  lemma SettledQuiet(t: seq<byte>, c: Config, ts: seq<Range>, u: seq<byte>, k: nat, next: Config)
    returns (v: Move, x: nat)
    requires IsStack(c.frames) && c.at < |t| && Step(t, c) == Move(next, None)
    requires Mirrors(t, c.at, ts, u, k) && Ordered(t, next.at, ts)
    ensures k < |u| && v == Step(u, c.Go(k)) && v.hit.None? && Mirrors(t, next.at, ts, u, x)
    ensures v.next == next.Go(x) || (v.next.at == |u| && OnQuotedRedirect(t, c))
  {
    x := k + (next.at - c.at);
    MirrorsOn(t, c.at, next.at, ts, u, k);
    v := StepLands(t, c, u, k, Gap(t, ts), next);
  }

  lemma StepLands(t: seq<byte>, c: Config, u: seq<byte>, k: nat, p: nat, next: Config) returns (v: Move)
    requires IsStack(c.frames) && c.at < |t| && k < |u|
    requires Step(t, c) == Move(next, None) && Stays(t, c, u, k, p, next)
    ensures v == Step(u, c.Go(k)) && v.hit.None?
    ensures v.next == next.Go(k + (next.at - c.at)) || (v.next.at == |u| && OnQuotedRedirect(t, c))
  {
    StepAgrees(t, c, u, k, p);
    v := Step(u, c.Go(k));
  }

  /** The texts mirror each other further on, short of the next replaced target. */
  lemma MirrorsOn(t: seq<byte>, i: nat, j: nat, ts: seq<Range>, u: seq<byte>, k: nat)
    requires Mirrors(t, i, ts, u, k) && i <= j && i < |t| && Ordered(t, j, ts)
    ensures Agree(t, i, u, k, Gap(t, ts)) && k < |u|
    ensures j < Gap(t, ts) || Gap(t, ts) == |t|
    ensures Mirrors(t, j, ts, u, k + (j - i))
  {
    SpliceAgrees(t, i, ts, u, k);
    SpliceDrop(t, i, j, ts, u, k);
    WordAgrees(t, i, u, k, Gap(t, ts), j);
  }

  lemma WordAgrees(t: seq<byte>, i: nat, u: seq<byte>, k: nat, p: nat, j: nat)
    requires Agree(t, i, u, k, p) && i <= j <= p
    ensures StartsWord(t, j) == StartsWord(u, k + (j - i))
  {
    if i < j { SameByte(t, i, u, k, p, j - 1); }
  }

  lemma StepMeetsNullDevice(t: seq<byte>, c: Config, r: Range, u: seq<byte>, k: nat)
    requires IsStack(c.frames) && c.at < |t| && Proves(t, c, r)
    requires r.start < |t| && Agree(t, c.at, u, k, r.start) && k < |u|
    ensures Step(u, c.Go(k)) == Move(c.Go(k + (r.start - c.at)), None)
  {
    RedirectMeetsNullDevice(t, c, r, u, k);
    RedirectIsStep(u, c.Go(k));
  }

  lemma RedirectMeetsNullDevice(t: seq<byte>, c: Config, r: Range, u: seq<byte>, k: nat)
    requires IsStack(c.frames) && c.at < |t| && Proves(t, c, r)
    requires r.start < |t| && Agree(t, c.at, u, k, r.start) && k < |u|
    ensures u[k] == GT && RedirectStep(u, c.Go(k)) == Move(c.Go(k + (r.start - c.at)), None)
  {
    ProvesStart(t, c, r);
    RedirectOverNullDevice(t, c.at, u, k, r.start, c.Top().Backtick?);
  }

  lemma RedirectIsStep(u: seq<byte>, c: Config)
    requires IsStack(c.frames) && c.at < |u| && c.Top().ReadsCommands() && u[c.at] == GT
    ensures Step(u, c) == RedirectStep(u, c)
  {}

  lemma MirrorsTail(t: seq<byte>, c: Config, r: Range, rest: seq<Range>, u: seq<byte>, k: nat, v: int)
    requires IsStack(c.frames) && c.at < |t| && Proves(t, c, r) && Mirrors(t, c.at, [r] + rest, u, k)
    requires v == k + (r.start - c.at)
    ensures Agree(t, c.at, u, k, r.start) && r.start < |t| && r.end <= |t| && k < |u|
    ensures 0 <= v && v + 9 <= |u| && u[v..v + 9] == DEV_NULL && Mirrors(t, r.end, rest, u, v + 9)
  {
    SpliceAgrees(t, c.at, [r] + rest, u, k);
    SpliceHit(t, c.at, r, rest, u, k);
    AfterTarget(t, r);
  }

  lemma NullDeviceIsPlain(u: seq<byte>, i: nat)
    requires i + 9 <= |u| && u[i..i + 9] == DEV_NULL
    ensures forall j :: i <= j < i + 9 ==> IsPlain(u[j])
  {
    forall j | i <= j < i + 9 ensures IsPlain(u[j]) {
      assert u[j] == u[i..i + 9][j - i];
    }
  }

  /** A step that lands on the null device goes on to pass it. */
  lemma PassNullDevice(u: seq<byte>, d: Config, e: Config, f: Config)
    requires IsStack(d.frames) && d.at < |u| && Step(u, d) == Move(e, None) && e.Top().ReadsCommands()
    requires e.at + 9 <= |u| && u[e.at..e.at + 9] == DEV_NULL && f == e.Go(e.at + 9)
    ensures Passes(u, d, f)
  {
    NullDeviceIsPlain(u, e.at);
    OverPlain(u, e, 9);
  }

  lemma SpliceHit(t: seq<byte>, i: nat, r: Range, rest: seq<Range>, u: seq<byte>, k: nat)
    requires Ordered(t, i, [r] + rest) && k <= |u| && u[k..] == Splice(t, i, [r] + rest)
    ensures var v := k + (r.start - i);
      && i < r.start && v + 9 <= |u| && u[v..v + 9] == DEV_NULL
      && Ordered(t, r.end, rest) && u[v + 9..] == Splice(t, r.end, rest) && !StartsWord(u, v + 9)
  {
    var ts := [r] + rest;
    assert ts[1..] == rest;
    var n := r.start - i;
    var tail := Splice(t, r.end, rest);
    assert u[k..] == t[i..r.start] + DEV_NULL + tail;
    assert u[k + n..k + n + 9] == u[k..][n..n + 9];
    assert u[k + n + 9..] == u[k..][n + 9..];
    assert u[k + n + 8] == u[k + n..k + n + 9][8];
  }

  lemma AfterTarget(t: seq<byte>, r: Range)
    requires SpellsNul(t, r)
    ensures r.start < r.end && !StartsWord(t, r.end)
  {
    if IsNul(t[r.start..r.end]) { assert t[r.end - 1] == t[r.start..r.end][2]; }
  }

  lemma RedirectOverNullDevice(t: seq<byte>, i: nat, u: seq<byte>, k: nat, s: nat, cb: bool)
    requires i < |t| && t[i] == GT && TargetStart(t, i) == s < |t| && Agree(t, i, u, k, s) && k < |u|
    ensures u[k] == GT && RedirectTarget(u, k, cb) == Found(k + (s - i), None)
  {
    SameByte(t, i, u, k, s, i);
    TargetStartAgrees(t, i, u, k, s);
    SlashIsNoTarget(u, k, cb);
  }

  lemma ProvesStart(t: seq<byte>, c: Config, r: Range)
    requires IsStack(c.frames) && c.at < |t| && Proves(t, c, r)
    ensures t[c.at] == GT && TargetStart(t, c.at) == r.start < |t|
  {
    ProvesFinds(t, c.at, c.Top().Backtick?, r);
  }

  lemma SlashIsNoTarget(u: seq<byte>, k: nat, cb: bool)
    requires k < |u| && Has(u, TargetStart(u, k), SLASH)
    ensures RedirectTarget(u, k, cb) == Found(TargetStart(u, k), None)
  {
    var v := TargetStart(u, k);
    assert v + 3 <= |u| ==> u[v..v + 3][0] == SLASH;
  }

  /** Rewriting is a fixed point: a scan of the rewritten command proves no target, and
      passes through the same contexts. */
  lemma RewrittenIsSettled(text: seq<byte>)
    ensures Shadows(text, START, Rewritten(text), 0)
    ensures Targets(Rewritten(text), START) == []
    ensures Rewritten(Rewritten(text)) == Rewritten(text)
  {
    TargetsOrdered(text, START);
    var u := Rewritten(text);
    assert u[0..] == u;
    Settled(text, START, u, 0);
    assert START.Go(0) == START;
  }
}
