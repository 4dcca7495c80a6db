/** Withheld checks repeated after approval: each check is paired with the first later
    identical call not yet taken. The pairing is one-to-one and as large as any pairing
    that respects turn order can be. */
module Resends {
  import opened Options

  /** What a pairing reads of a call: the turn it was made in and what it asked for. */
  datatype Ask = Ask(turn: nat, tool: string, input: int)

  /** Calls are listed in turn order. */
  ghost predicate InTurnOrder(calls: seq<Ask>) {
    forall a, b :: 0 <= a < b < |calls| ==> calls[a].turn <= calls[b].turn
  }

  /** The later call repeats the check: same tool, same input, a later turn. */
  predicate Repeats(check: Ask, call: Ask) {
    call.turn > check.turn && call.tool == check.tool && call.input == check.input
  }

  /** The call differs from the check in nothing but a later turn. */
  predicate IsLaterTwin(check: Ask, call: Ask) {
    check.turn < call.turn && call == check.(turn := call.turn)
  }

  /** One choice per check: a call that repeats it, or none. */
  type Pairing = seq<Option<nat>>

  /** Every choice repeats its check and no call is chosen twice. */
  ghost predicate IsPairing(checks: seq<Ask>, calls: seq<Ask>, m: Pairing) {
    && |m| == |checks|
    && (forall j :: 0 <= j < |m| && m[j].Some? ==> m[j].value < |calls| && IsLaterTwin(checks[j], calls[m[j].value]))
    && (forall i, j :: 0 <= i < j < |m| && m[i].Some? && m[j].Some? ==> m[i].value != m[j].value)
  }

  function Size(m: Pairing): nat {
    if m == [] then 0 else Size(m[..|m| - 1]) + if m[|m| - 1].Some? then 1 else 0
  }

  /** The calls a prefix of the choices takes. */
  ghost function Used(m: Pairing): set<nat> {
    set j | 0 <= j < |m| && m[j].Some? :: m[j].value
  }

  /** The first free call at or after from that repeats the check. */
  function FirstFree(check: Ask, calls: seq<Ask>, used: set<nat>, from: nat): (r: Option<nat>)
    requires from <= |calls|
    ensures r.Some? ==> from <= r.value < |calls| && r.value !in used && Repeats(check, calls[r.value])
    ensures forall c :: from <= c < |calls| && c !in used && Repeats(check, calls[c]) ==> r.Some? && r.value <= c
    decreases |calls| - from
  {
    if from == |calls| then None
    else if from !in used && Repeats(check, calls[from]) then Some(from)
    else FirstFree(check, calls, used, from + 1)
  }

  /** Each choice is the first call still free when its check is reached. */
  ghost predicate IsGreedy(checks: seq<Ask>, calls: seq<Ask>, g: Pairing) {
    |g| == |checks| && forall j :: 0 <= j < |g| ==> g[j] == FirstFree(checks[j], calls, Used(g[..j]), 0)
  }

  lemma UsedExtends(g: Pairing, x: Option<nat>)
    ensures Used(g + [x]) == Used(g) + if x.Some? then {x.value} else {}
  {
    var g' := g + [x];
    forall c | c in Used(g) ensures c in Used(g') {
      var j :| 0 <= j < |g| && g[j].Some? && g[j].value == c;
      assert g'[j] == g[j];
    }
    if x.Some? { assert g'[|g|] == x; }
  }

  lemma GreedyExtends(checks: seq<Ask>, check: Ask, calls: seq<Ask>, g: Pairing, x: Option<nat>)
    requires IsGreedy(checks, calls, g) && x == FirstFree(check, calls, Used(g), 0)
    ensures IsGreedy(checks + [check], calls, g + [x])
    ensures Size(g + [x]) == Size(g) + if x.Some? then 1 else 0
    ensures Used(g + [x]) == Used(g) + if x.Some? then {x.value} else {}
  {
    var g' := g + [x];
    UsedExtends(g, x);
    assert g'[..|g|] == g;
    forall j | 0 <= j < |g'|
      ensures g'[j] == FirstFree((checks + [check])[j], calls, Used(g'[..j]), 0)
    {
      if j < |g| { assert g'[..j] == g[..j]; }
    }
  }

  /** The pairing that takes the first free call for each check in turn. */
  ghost function Greedy(checks: seq<Ask>, calls: seq<Ask>): Pairing
    decreases |checks|
  {
    if checks == [] then []
    else
      var g := Greedy(checks[..|checks| - 1], calls);
      g + [FirstFree(checks[|checks| - 1], calls, Used(g), 0)]
  }

  lemma {:induction false} GreedyIsGreedy(checks: seq<Ask>, calls: seq<Ask>)
    ensures IsGreedy(checks, calls, Greedy(checks, calls))
    decreases |checks|
  {
    if checks != [] {
      var front, last := checks[..|checks| - 1], checks[|checks| - 1];
      var g := Greedy(front, calls);
      GreedyIsGreedy(front, calls);
      assert checks == front + [last];
      GreedyExtends(front, last, calls, g, FirstFree(last, calls, Used(g), 0));
    }
  }

  lemma GreedyStep(checks: seq<Ask>, check: Ask, calls: seq<Ask>)
    ensures var g := Greedy(checks, calls);
      var x := FirstFree(check, calls, Used(g), 0);
      && Greedy(checks + [check], calls) == g + [x]
      && Size(g + [x]) == Size(g) + (if x.Some? then 1 else 0)
      && Used(g + [x]) == Used(g) + if x.Some? then {x.value} else {}
  {
    var g := Greedy(checks, calls);
    assert (checks + [check])[..|checks|] == checks;
    GreedyIsGreedy(checks, calls);
    GreedyExtends(checks, check, calls, g, FirstFree(check, calls, Used(g), 0));
  }

  lemma GreedyIsPairing(checks: seq<Ask>, calls: seq<Ask>, g: Pairing)
    requires IsGreedy(checks, calls, g)
    ensures IsPairing(checks, calls, g)
  {
    forall i, j | 0 <= i < j < |g| && g[i].Some? && g[j].Some?
      ensures g[i].value != g[j].value
    {
      assert g[..j][i] == g[i];
      assert g[i].value in Used(g[..j]);
    }
  }

  // ----- the exchange argument -----

  /** A pairing that makes the greedy choices first can make the next one too, and is no
      smaller for it: a call taken later by another check is swapped or taken over. */
  lemma Exchange(checks: seq<Ask>, calls: seq<Ask>, g: Pairing, m: Pairing, i: nat) returns (m': Pairing)
    requires InTurnOrder(calls) && IsGreedy(checks, calls, g) && IsPairing(checks, calls, m)
    requires i < |checks| && m[..i] == g[..i]
    ensures IsPairing(checks, calls, m') && m'[..i + 1] == g[..i + 1] && Size(m') >= Size(m)
  {
    GreedyChoice(checks, calls, g, m, i);
    if m[i] == g[i] {
      m' := m;
    } else {
      if k :| i < k < |m| && m[k] == g[i] {
        m' := m[i := g[i]][k := m[i]];
        SwapKeepsSize(m, i, k);
      } else {
        m' := m[i := g[i]];
        ReplaceSize(m, i, g[i]);
      }
      ExchangeIsPairing(checks, calls, g, m, i, m');
    }
    PrefixExtends(m, m', g, i);
  }

  lemma PrefixExtends(m: Pairing, m': Pairing, g: Pairing, i: nat)
    requires i < |m| == |m'| == |g| && m[..i] == g[..i] && m'[..i] == m[..i] && m'[i] == g[i]
    ensures m'[..i + 1] == g[..i + 1]
  {
    assert m'[..i + 1] == m'[..i] + [m'[i]] && g[..i + 1] == g[..i] + [g[i]];
  }

  /** Where the greedy prefix is agreed on, its next choice is at least as early as any. */
  lemma GreedyChoice(checks: seq<Ask>, calls: seq<Ask>, g: Pairing, m: Pairing, i: nat)
    requires IsGreedy(checks, calls, g) && IsPairing(checks, calls, m) && i < |checks| && m[..i] == g[..i]
    ensures m[i].Some? ==> g[i].Some? && g[i].value <= m[i].value
    ensures g[i].Some? ==> g[i].value < |calls| && Repeats(checks[i], calls[g[i].value])
    ensures g[i].Some? ==> forall j :: 0 <= j < i && m[j].Some? ==> m[j].value != g[i].value
  {
    forall j | 0 <= j < i && m[j].Some?
      ensures m[j].value in Used(g[..i])
    {
      assert g[..i][j] == m[..i][j];
    }
    forall a | 0 <= a < i && g[..i][a].Some?
      ensures g[..i][a] == m[a]
    {
      assert m[..i][a] == g[..i][a];
    }
  }

  lemma ExchangeIsPairing(checks: seq<Ask>, calls: seq<Ask>, g: Pairing, m: Pairing, i: nat, m': Pairing)
    requires InTurnOrder(calls) && IsPairing(checks, calls, m) && i < |checks| == |g|
    requires g[i].Some? && m[i] != g[i] && g[i].value < |calls| && Repeats(checks[i], calls[g[i].value])
    requires m[i].Some? ==> g[i].value < m[i].value
    requires forall j :: 0 <= j < i && m[j].Some? ==> m[j].value != g[i].value
    requires
      || (m' == m[i := g[i]] && forall k :: i < k < |m| ==> m[k] != g[i])
      || exists k :: i < k < |m| && m[k] == g[i] && m' == m[i := g[i]][k := m[i]]
    ensures IsPairing(checks, calls, m')
  {
    var c := g[i].value;
    if k :| i < k < |m| && m[k] == g[i] && m' == m[i := g[i]][k := m[i]] {
      if m[i].Some? {
        assert calls[c].turn <= calls[m[i].value].turn;
        assert Repeats(checks[k], calls[m[i].value]);
      }
    }
  }

  lemma {:induction false} ReplaceSize(m: Pairing, i: nat, x: Option<nat>)
    requires i < |m|
    ensures Size(m[i := x]) == Size(m) + (if x.Some? then 1 else 0) - if m[i].Some? then 1 else 0
    decreases |m|
  {
    var front := m[..|m| - 1];
    if i < |front| {
      assert m[i := x][..|m| - 1] == front[i := x];
      ReplaceSize(front, i, x);
    } else {
      assert m[i := x][..|m| - 1] == front;
    }
  }

  lemma SwapKeepsSize(m: Pairing, i: nat, k: nat)
    requires i < k < |m|
    ensures Size(m[i := m[k]][k := m[i]]) == Size(m)
  {
    ReplaceSize(m, i, m[k]);
    ReplaceSize(m[i := m[k]], k, m[i]);
  }

  lemma {:induction false} GreedyDominates(checks: seq<Ask>, calls: seq<Ask>, g: Pairing, m: Pairing, i: nat)
    requires InTurnOrder(calls) && IsGreedy(checks, calls, g) && IsPairing(checks, calls, m)
    requires i <= |checks| && m[..i] == g[..i]
    ensures Size(m) <= Size(g)
    decreases |checks| - i
  {
    if i == |checks| {
      assert m == m[..i] && g == g[..i];
    } else {
      var m' := Exchange(checks, calls, g, m, i);
      GreedyDominates(checks, calls, g, m', i + 1);
    }
  }

  /** The greedy pairing is a pairing, and no pairing is larger. */
  lemma GreedyIsMaximum(checks: seq<Ask>, calls: seq<Ask>, g: Pairing)
    requires InTurnOrder(calls) && IsGreedy(checks, calls, g)
    ensures IsPairing(checks, calls, g)
    ensures forall m :: IsPairing(checks, calls, m) ==> Size(m) <= Size(g)
  {
    GreedyIsPairing(checks, calls, g);
    forall m | IsPairing(checks, calls, m) ensures Size(m) <= Size(g) {
      GreedyDominates(checks, calls, g, m, 0);
    }
  }
}
