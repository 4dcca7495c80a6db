/** The counts read from a grouped log: edit turns and their shapes, shell calls held
    after an edit that did not land, and withheld checks sent again after approval. */
module TurnDispatch {
  import opened Options
  import opened Resends
  import opened SessionLog

  datatype Family = Edit | Shell | Neither

  datatype Facts = Facts(writes: set<string>, shells: set<string>, lower: string -> string)

  /** A tool is an edit if its lower-case name is one of the writing tools, a shell check
      if it is one of the shells and none of those. */
  predicate IsOf(call: Call, facts: Facts, f: Family) {
    var name := facts.lower(call.tool);
    match f
    case Edit => name in facts.writes
    case Shell => name in facts.shells && name !in facts.writes
    case Neither => name !in facts.shells && name !in facts.writes
  }

  function FamilyOf(call: Call, facts: Facts): (f: Family)
    ensures forall g: Family :: IsOf(call, facts, g) <==> g == f
  {
    var name := facts.lower(call.tool);
    if name in facts.writes then Edit else if name in facts.shells then Shell else Neither
  }

  predicate RanAndFailed(call: Call) {
    call.answer.Some? && !call.answer.value.output.notRun && call.answer.value.output.failed
  }

  predicate Missed(call: Call) {
    call.answer.Some? && (call.answer.value.output.notRun || call.answer.value.output.failed)
  }

  predicate PendingAt(call: Call, position: nat) {
    call.answer.None? || call.answer.value.position > position
  }

  predicate IsLog(log: Log) {
    && (forall t, j :: 0 <= t < |log.turns| && 0 <= j < |log.turns[t].calls| ==> log.turns[t].calls[j] < |log.calls|)
    && (forall k :: 0 <= k < |log.calls| ==> log.calls[k].turn < |log.turns|)
  }

  /** What grouping promises, as the counts use it. */
  ghost predicate WellGrouped(log: Log) {
    IsLog(log) && Partitions(log.turns, log.calls) && Ordered(log.calls)
  }

  lemma GroupedLog(events: seq<Event>, log: Log)
    requires Grouped(events, log)
    ensures WellGrouped(log)
  {}

  // ----- withheld checks sent again -----

  function AskOf(call: Call): Ask { Ask(call.turn, call.tool, call.input) }

  function Asks(calls: seq<Call>): (asks: seq<Ask>)
    ensures |asks| == |calls| && forall k :: 0 <= k < |calls| ==> asks[k] == AskOf(calls[k])
  {
    if calls == [] then [] else Asks(calls[..|calls| - 1]) + [AskOf(calls[|calls| - 1])]
  }

  /** The first edit of the turn that was made before the point and had not landed. */
  function Anchor(log: Log, facts: Facts, turn: Turn, point: nat, from: nat): (r: Option<nat>)
    requires from <= |turn.calls| && forall j :: 0 <= j < |turn.calls| ==> turn.calls[j] < |log.calls|
    ensures r.Some? ==> r.value < |log.calls|
    decreases |turn.calls| - from
  {
    if from == |turn.calls| then None
    else
      var call := log.calls[turn.calls[from]];
      if call.position < point && FamilyOf(call, facts) == Edit && (PendingAt(call, point) || Missed(call))
      then Some(turn.calls[from])
      else Anchor(log, facts, turn, point, from + 1)
  }

  /** A shell check withheld while the edit it waited for was pending and later approved. */
  predicate AwaitsApproval(log: Log, facts: Facts, k: nat)
    requires IsLog(log) && k < |log.calls|
  {
    var call := log.calls[k];
    && FamilyOf(call, facts) == Shell && call.answer.Some? && call.answer.value.output.withheld
    && var point := call.answer.value.position;
       var anchor := Anchor(log, facts, log.turns[call.turn], point, 0);
       anchor.Some? && PendingAt(log.calls[anchor.value], point) && log.calls[anchor.value].callId in log.approved
  }

  /** An edit made before the point that had no answer by then or never wrote anything. */
  predicate IsUnlanded(call: Call, facts: Facts, point: nat) {
    && call.position < point && facts.lower(call.tool) in facts.writes
    && (call.answer.None? || call.answer.value.position > point
        || call.answer.value.output.notRun || call.answer.value.output.failed)
  }

  /** The first unlanded edit of the turn that call k is in. */
  ghost predicate FirstUnlanded(log: Log, facts: Facts, k: nat, point: nat, e: nat)
    requires k < |log.calls|
  {
    && e < |log.calls| && log.calls[e].turn == log.calls[k].turn && IsUnlanded(log.calls[e], facts, point)
    && forall d :: 0 <= d < e && log.calls[d].turn == log.calls[k].turn ==> !IsUnlanded(log.calls[d], facts, point)
  }

  /** The edit the check waits for: pending when the check was withheld, approved later. */
  ghost predicate WaitsFor(log: Log, facts: Facts, k: nat, point: nat, e: nat)
    requires k < |log.calls|
  {
    && FirstUnlanded(log, facts, k, point, e)
    && (log.calls[e].answer.None? || log.calls[e].answer.value.position > point)
    && log.calls[e].callId in log.approved
  }

  /** A check awaits approval exactly when it is a shell call that was withheld while the
      first unlanded edit of its turn was pending, and that edit was approved. */
  lemma AwaitsExactly(log: Log, facts: Facts, k: nat)
    requires WellGrouped(log) && k < |log.calls|
    ensures AwaitsApproval(log, facts, k) <==>
      var call := log.calls[k];
      && facts.lower(call.tool) in facts.shells && facts.lower(call.tool) !in facts.writes
      && call.answer.Some? && call.answer.value.output.withheld
      && exists e: nat :: WaitsFor(log, facts, k, call.answer.value.position, e)
  {
    var call := log.calls[k];
    if call.answer.Some? {
      var point := call.answer.value.position;
      AnchorIsFirst(log, facts, k, point);
      var anchor := Anchor(log, facts, log.turns[call.turn], point, 0);
      if anchor.Some? {
        assert FirstUnlanded(log, facts, k, point, anchor.value);
        assert PendingAt(log.calls[anchor.value], point) && log.calls[anchor.value].callId in log.approved ==>
          WaitsFor(log, facts, k, point, anchor.value);
      }
      if e: nat :| WaitsFor(log, facts, k, point, e) { assert anchor == Some(e); }
    }
  }

  lemma AnchorIsFirst(log: Log, facts: Facts, k: nat, point: nat)
    requires WellGrouped(log) && k < |log.calls|
    ensures var anchor := Anchor(log, facts, log.turns[log.calls[k].turn], point, 0);
      forall e: nat :: FirstUnlanded(log, facts, k, point, e) <==> anchor == Some(e)
  {
    var t := log.calls[k].turn;
    var ks := log.turns[t].calls;
    var anchor := Anchor(log, facts, log.turns[t], point, 0);
    AnchorFinds(log, facts, log.turns[t], point, 0);
    TurnCalls(log, t);
    forall e: nat ensures FirstUnlanded(log, facts, k, point, e) <==> anchor == Some(e) {
      if e < |log.calls| && log.calls[e].turn == t { InTurnCalls(log, t, e); }
      if anchor == Some(e) {
        forall d | 0 <= d < e && log.calls[d].turn == t ensures !IsUnlanded(log.calls[d], facts, point) {
          InTurnCalls(log, t, d);
        }
      }
    }
  }

  predicate IsFirstFrom(log: Log, facts: Facts, turn: Turn, point: nat, from: nat, j: nat)
    requires j < |turn.calls| && forall i :: 0 <= i < |turn.calls| ==> turn.calls[i] < |log.calls|
  {
    && IsUnlanded(log.calls[turn.calls[j]], facts, point)
    && forall i :: from <= i < j ==> !IsUnlanded(log.calls[turn.calls[i]], facts, point)
  }

  /** The search finds the first unlanded edit from there on. */
  lemma {:induction false} AnchorFinds(log: Log, facts: Facts, turn: Turn, point: nat, from: nat)
    requires from <= |turn.calls| && forall j :: 0 <= j < |turn.calls| ==> turn.calls[j] < |log.calls|
    ensures match Anchor(log, facts, turn, point, from)
      case None => forall j :: from <= j < |turn.calls| ==> !IsUnlanded(log.calls[turn.calls[j]], facts, point)
      case Some(e) =>
        exists j :: from <= j < |turn.calls| && turn.calls[j] == e && IsFirstFrom(log, facts, turn, point, from, j)
    decreases |turn.calls| - from
  {
    if from < |turn.calls| { AnchorFinds(log, facts, turn, point, from + 1); }
  }

  /** The calls of a turn are all and only the calls numbered so. */
  lemma InTurnCalls(log: Log, t: nat, e: nat)
    requires WellGrouped(log) && t < |log.turns| && e < |log.calls| && log.calls[e].turn == t
    ensures Start(log.turns, t) <= e < Start(log.turns, t) + |log.turns[t].calls|
    ensures log.turns[t].calls[e - Start(log.turns, t)] == e
  {
    TurnCalls(log, t);
    TurnsSoFar(log, t);
    if e >= Start(log.turns, t + 1) { TurnOf(log, e, t + 1); }
  }

  /** The checks among the first n calls that a resend may answer, in call order. */
  function Checks(log: Log, facts: Facts, n: nat): seq<Ask>
    requires IsLog(log) && n <= |log.calls|
  {
    if n == 0 then []
    else Checks(log, facts, n - 1) + if AwaitsApproval(log, facts, n - 1) then [AskOf(log.calls[n - 1])] else []
  }

  lemma AsksInTurnOrder(calls: seq<Call>)
    requires Ordered(calls)
    ensures InTurnOrder(Asks(calls))
  {}

  /** What was used and counted so far is the greedy pairing of the checks met so far. */
  ghost predicate Paired(log: Log, facts: Facts, asks: seq<Ask>, n: nat, used: set<nat>, resends: nat)
    requires IsLog(log) && n <= |log.calls|
  {
    && asks == Asks(log.calls)
    && used == Used(Greedy(Checks(log, facts, n), asks)) && resends == Size(Greedy(Checks(log, facts, n), asks))
  }

  lemma PairedStep(log: Log, facts: Facts, asks: seq<Ask>, k: nat, used: set<nat>, resends: nat)
    requires IsLog(log) && k < |log.calls| && Paired(log, facts, asks, k, used, resends)
    ensures var later := FirstFree(asks[k], asks, used, 0);
      if !AwaitsApproval(log, facts, k) || later.None? then Paired(log, facts, asks, k + 1, used, resends)
      else Paired(log, facts, asks, k + 1, used + {later.value}, resends + 1)
  {
    ChecksStep(log, facts, k, asks);
    if AwaitsApproval(log, facts, k) { GreedyStep(Checks(log, facts, k), asks[k], asks); }
  }

  lemma ChecksStep(log: Log, facts: Facts, k: nat, asks: seq<Ask>)
    requires IsLog(log) && k < |log.calls| && asks == Asks(log.calls)
    ensures Checks(log, facts, k + 1) ==
      if AwaitsApproval(log, facts, k) then Checks(log, facts, k) + [asks[k]] else Checks(log, facts, k)
  {}

  /** Each awaiting check takes the first later identical call still free; the count is
      the size of a one-to-one pairing and no pairing in turn order is larger. */
  method ApprovalResends(log: Log, facts: Facts) returns (resends: nat, ghost g: Pairing)
    requires WellGrouped(log)
    ensures g == Greedy(Checks(log, facts, |log.calls|), Asks(log.calls))
    ensures IsPairing(Checks(log, facts, |log.calls|), Asks(log.calls), g) && Size(g) == resends
    ensures forall m :: IsPairing(Checks(log, facts, |log.calls|), Asks(log.calls), m) ==> Size(m) <= resends
  {
    var asks := Asks(log.calls);
    var used: set<nat> := {};
    resends := 0;
    for t := 0 to |log.turns|
      invariant Start(log.turns, t) <= |log.calls|
      invariant Paired(log, facts, asks, Start(log.turns, t), used, resends)
    {
      used, resends := ResendsOfTurn(log, facts, asks, t, used, resends);
    }
    g := Greedy(Checks(log, facts, |log.calls|), asks);
    AsksInTurnOrder(log.calls);
    GreedyIsGreedy(Checks(log, facts, |log.calls|), asks);
    GreedyIsMaximum(Checks(log, facts, |log.calls|), asks, g);
  }

  method ResendsOfTurn(log: Log, facts: Facts, asks: seq<Ask>, t: nat, used: set<nat>, resends: nat)
    returns (used': set<nat>, resends': nat)
    requires WellGrouped(log) && t < |log.turns| && Start(log.turns, t) <= |log.calls|
    requires Paired(log, facts, asks, Start(log.turns, t), used, resends)
    ensures Start(log.turns, t + 1) <= |log.calls|
    ensures Paired(log, facts, asks, Start(log.turns, t + 1), used', resends')
  {
    TurnCalls(log, t);
    used', resends' := ResendsInTurn(log, facts, asks, log.turns[t].calls, Start(log.turns, t), used, resends);
  }

  method ResendsInTurn(log: Log, facts: Facts, asks: seq<Ask>, ks: seq<nat>, ghost n: nat, used: set<nat>, resends: nat)
    returns (used': set<nat>, resends': nat)
    requires IsLog(log) && CallsFrom(log, ks, n)
    requires Paired(log, facts, asks, n, used, resends)
    ensures Paired(log, facts, asks, n + |ks|, used', resends')
  {
    used', resends' := used, resends;
    ghost var k := n;
    for j := 0 to |ks|
      invariant k == n + j && Paired(log, facts, asks, k, used', resends')
    {
      NthCall(log, ks, n, j);
      used', resends' := ResendOf(log, facts, asks, ks[j], k, used', resends');
      k := k + 1;
    }
  }

  method ResendOf(log: Log, facts: Facts, asks: seq<Ask>, k: nat, ghost n: nat, used: set<nat>, resends: nat)
    returns (used': set<nat>, resends': nat)
    requires IsLog(log) && k == n < |log.calls| && Paired(log, facts, asks, n, used, resends)
    ensures Paired(log, facts, asks, n + 1, used', resends')
  {
    PairedStep(log, facts, asks, k, used, resends);
    used', resends' := used, resends;
    if AwaitsApproval(log, facts, k) {
      var later := FirstFree(asks[k], asks, used, 0);
      if later.Some? {
        used' := used + {later.value};
        resends' := resends + 1;
      }
    }
  }

  /** These are the calls of one turn, in order, from the n-th on. */
  ghost predicate CallsFrom(log: Log, ks: seq<nat>, n: nat) {
    && n + |ks| <= |log.calls|
    && (forall j :: 0 <= j < |ks| ==> ks[j] == n + j && log.calls[ks[j]].turn == log.calls[n].turn)
  }

  lemma NthCall(log: Log, ks: seq<nat>, n: nat, j: nat)
    requires CallsFrom(log, ks, n) && j < |ks|
    ensures ks[j] == n + j < |log.calls|
  {}

  lemma TurnCalls(log: Log, t: nat)
    requires WellGrouped(log) && t < |log.turns|
    ensures Start(log.turns, t + 1) == Start(log.turns, t) + |log.turns[t].calls| <= |log.calls|
    ensures CallsFrom(log, log.turns[t].calls, Start(log.turns, t))
    ensures log.turns[t].calls != [] ==> log.calls[Start(log.turns, t)].turn == t
  {
    StartGrows(log.turns, t + 1);
    var ks := log.turns[t].calls;
    if ks != [] { assert ks[0] == Start(log.turns, t); }
  }

  lemma {:induction false} StartGrows(turns: seq<Turn>, t: nat)
    requires t <= |turns|
    ensures Start(turns, t) <= Start(turns, |turns|)
    decreases |turns| - t
  {
    if t < |turns| { StartGrows(turns, t + 1); }
  }

  // ----- shell calls after an edit that did not land -----

  predicate IsAnchor(log: Log, facts: Facts, anchors: Call -> bool, e: nat)
    requires e < |log.calls|
  {
    IsOf(log.calls[e], facts, Edit) && anchors(log.calls[e])
  }

  /** Among the first n calls, the shell calls made after an anchor edit of their turn. */
  ghost function HeldSameTurn(log: Log, facts: Facts, anchors: Call -> bool, n: nat): set<nat>
    requires n <= |log.calls|
  {
    set k | 0 <= k < n && IsOf(log.calls[k], facts, Shell)
            && exists e :: 0 <= e < k && log.calls[e].turn == log.calls[k].turn && IsAnchor(log, facts, anchors, e)
  }

  /** Among the first n calls, the shell calls of a turn that follows an anchor edit's. */
  ghost function HeldNextTurn(log: Log, facts: Facts, anchors: Call -> bool, n: nat): set<nat>
    requires n <= |log.calls|
  {
    set k | 0 <= k < n && IsOf(log.calls[k], facts, Shell)
            && exists e :: 0 <= e < |log.calls|
                           && log.calls[e].turn + 1 == log.calls[k].turn && IsAnchor(log, facts, anchors, e)
  }

  lemma SubsetSize<T>(a: set<T>, b: set<T>)
    requires a <= b
    ensures |a| <= |b|
  {
    assert b == a + (b - a);
    assert |b| == |a| + |b - a|;
  }

  /** Widening the anchors never lowers either count. */
  lemma WiderAnchorsHoldMore(log: Log, facts: Facts, narrow: Call -> bool, wide: Call -> bool)
    requires forall c :: narrow(c) ==> wide(c)
    ensures |HeldSameTurn(log, facts, narrow, |log.calls|)| <= |HeldSameTurn(log, facts, wide, |log.calls|)|
    ensures |HeldNextTurn(log, facts, narrow, |log.calls|)| <= |HeldNextTurn(log, facts, wide, |log.calls|)|
  {
    assert forall e :: 0 <= e < |log.calls| && IsAnchor(log, facts, narrow, e) ==> IsAnchor(log, facts, wide, e);
    SubsetSize(HeldSameTurn(log, facts, narrow, |log.calls|), HeldSameTurn(log, facts, wide, |log.calls|));
    SubsetSize(HeldNextTurn(log, facts, narrow, |log.calls|), HeldNextTurn(log, facts, wide, |log.calls|));
  }

  /** Checks after failed edits never exceed checks after missed edits. */
  lemma FailedHoldsNoMoreThanMissed(log: Log, facts: Facts)
    ensures |HeldSameTurn(log, facts, RanAndFailed, |log.calls|)| <= |HeldSameTurn(log, facts, Missed, |log.calls|)|
    ensures |HeldNextTurn(log, facts, RanAndFailed, |log.calls|)| <= |HeldNextTurn(log, facts, Missed, |log.calls|)|
  {
    WiderAnchorsHoldMore(log, facts, RanAndFailed, Missed);
  }

  /** The shell calls each first anchor edit of a turn holds, in its turn and the next. */
  method AfterEdits(log: Log, facts: Facts, anchors: Call -> bool) returns (sameTurn: nat, nextTurn: nat)
    requires WellGrouped(log)
    ensures sameTurn == |HeldSameTurn(log, facts, anchors, |log.calls|)|
    ensures nextTurn == |HeldNextTurn(log, facts, anchors, |log.calls|)|
  {
    var anchorTurns: set<nat>;
    sameTurn, anchorTurns := CountSameTurn(log, facts, anchors);
    nextTurn := CountNextTurn(log, facts, anchors, anchorTurns);
  }

  method CountSameTurn(log: Log, facts: Facts, anchors: Call -> bool) returns (held: nat, anchorTurns: set<nat>)
    requires WellGrouped(log)
    ensures held == |HeldSameTurn(log, facts, anchors, |log.calls|)|
    ensures Collects(log, facts, anchors, anchorTurns, |log.turns|)
  {
    held, anchorTurns := 0, {};
    for t := 0 to |log.turns|
      invariant Start(log.turns, t) <= |log.calls|
      invariant held == |HeldSameTurn(log, facts, anchors, Start(log.turns, t))|
      invariant Collects(log, facts, anchors, anchorTurns, t)
    {
      var more, anchored := AfterEditsOfTurn(log, facts, anchors, t);
      held := held + more;
      CollectsStep(log, facts, anchors, anchorTurns, t, anchored);
      if anchored { anchorTurns := anchorTurns + {t}; }
    }
  }

  method CountNextTurn(log: Log, facts: Facts, anchors: Call -> bool, anchorTurns: set<nat>) returns (held: nat)
    requires WellGrouped(log) && Collects(log, facts, anchors, anchorTurns, |log.turns|)
    ensures held == |HeldNextTurn(log, facts, anchors, |log.calls|)|
  {
    held := 0;
    for t := 0 to |log.turns|
      invariant Start(log.turns, t) <= |log.calls|
      invariant held == |HeldNextTurn(log, facts, anchors, Start(log.turns, t))|
    {
      TurnCalls(log, t);
      var follows := t > 0 && t - 1 in anchorTurns;
      var more := ShellsInTurn(log, facts, anchors, log.turns[t].calls, Start(log.turns, t), follows);
      held := held + more;
    }
  }

  method AfterEditsOfTurn(log: Log, facts: Facts, anchors: Call -> bool, t: nat) returns (held: nat, anchored: bool)
    requires WellGrouped(log) && t < |log.turns| && Start(log.turns, t) <= |log.calls|
    ensures Start(log.turns, t + 1) <= |log.calls|
    ensures |HeldSameTurn(log, facts, anchors, Start(log.turns, t + 1))|
      == |HeldSameTurn(log, facts, anchors, Start(log.turns, t))| + held
    ensures anchored <==> AnchoredBefore(log, facts, anchors, t, |log.calls|)
  {
    TurnCalls(log, t);
    TurnsSoFar(log, t);
    held, anchored := AfterEditsInTurn(log, facts, anchors, log.turns[t].calls, Start(log.turns, t), t);
    NoneLater(log, facts, anchors, t);
  }

  /** The turns collected are those before t that hold an anchor edit. */
  ghost predicate Collects(log: Log, facts: Facts, anchors: Call -> bool, turns: set<nat>, t: nat) {
    forall u :: u in turns <==> u < t && AnchoredBefore(log, facts, anchors, u, |log.calls|)
  }

  lemma CollectsStep(log: Log, facts: Facts, anchors: Call -> bool, turns: set<nat>, t: nat, anchored: bool)
    requires Collects(log, facts, anchors, turns, t)
    requires anchored <==> AnchoredBefore(log, facts, anchors, t, |log.calls|)
    ensures Collects(log, facts, anchors, if anchored then turns + {t} else turns, t + 1)
  {}

  method AfterEditsInTurn(log: Log, facts: Facts, anchors: Call -> bool, ks: seq<nat>, ghost n: nat, ghost t: nat)
    returns (held: nat, anchored: bool)
    requires CallsFrom(log, ks, n) && (ks != [] ==> log.calls[n].turn == t)
    requires !AnchoredBefore(log, facts, anchors, t, n)
    ensures |HeldSameTurn(log, facts, anchors, n + |ks|)| == |HeldSameTurn(log, facts, anchors, n)| + held
    ensures anchored <==> AnchoredBefore(log, facts, anchors, t, n + |ks|)
  {
    held, anchored := 0, false;
    ghost var k := n;
    for j := 0 to |ks|
      invariant k == n + j && (anchored <==> AnchoredBefore(log, facts, anchors, t, k))
      invariant |HeldSameTurn(log, facts, anchors, k)| == |HeldSameTurn(log, facts, anchors, n)| + held
    {
      var holds: nat;
      anchored, holds := AfterEdit(log, facts, anchors, t, ks[j], anchored);
      held := held + holds;
      k := k + 1;
    }
  }

  /** One call of a turn: it may be the first anchor, or a shell call an anchor holds. */
  method AfterEdit(log: Log, facts: Facts, anchors: Call -> bool, ghost t: nat, k: nat, anchored: bool)
    returns (anchored': bool, holds: nat)
    requires k < |log.calls| && log.calls[k].turn == t
    requires anchored <==> AnchoredBefore(log, facts, anchors, t, k)
    ensures anchored' <==> AnchoredBefore(log, facts, anchors, t, k + 1)
    ensures |HeldSameTurn(log, facts, anchors, k + 1)| == |HeldSameTurn(log, facts, anchors, k)| + holds
  {
    HeldExtends(log, facts, anchors, k);
    AnchoredExtends(log, facts, anchors, t, k);
    anchored', holds := anchored, 0;
    var call := log.calls[k];
    if FamilyOf(call, facts) == Edit && !anchored && anchors(call) {
      anchored' := true;
    } else if FamilyOf(call, facts) == Shell && anchored {
      holds := 1;
    }
  }

  lemma AnchoredExtends(log: Log, facts: Facts, anchors: Call -> bool, t: nat, k: nat)
    requires k < |log.calls|
    ensures AnchoredBefore(log, facts, anchors, t, k + 1) <==>
      AnchoredBefore(log, facts, anchors, t, k) || (log.calls[k].turn == t && IsAnchor(log, facts, anchors, k))
  {}

  /** Calls after the turn's last belong to later turns. */
  lemma NoneLater(log: Log, facts: Facts, anchors: Call -> bool, t: nat)
    requires WellGrouped(log) && t < |log.turns| && Start(log.turns, t + 1) <= |log.calls|
    ensures AnchoredBefore(log, facts, anchors, t, |log.calls|) <==>
      AnchoredBefore(log, facts, anchors, t, Start(log.turns, t + 1))
  {
    forall e | Start(log.turns, t + 1) <= e < |log.calls| ensures log.calls[e].turn > t {
      TurnOf(log, e, t + 1);
    }
  }

  lemma {:induction false} TurnOf(log: Log, e: nat, t: nat)
    requires WellGrouped(log) && t <= |log.turns| && Start(log.turns, t) <= e < |log.calls|
    ensures log.calls[e].turn >= t
    decreases |log.turns| - t
  {
    assert t < |log.turns|;
    var j := e - Start(log.turns, t);
    if j < |log.turns[t].calls| {
      assert log.turns[t].calls[j] == e;
    } else {
      TurnOf(log, e, t + 1);
    }
  }

  method ShellsInTurn(log: Log, facts: Facts, anchors: Call -> bool, ks: seq<nat>, ghost n: nat, follows: bool)
    returns (held: nat)
    requires CallsFrom(log, ks, n)
    requires ks != [] ==> (follows <==> AnchoredBefore(log, facts, anchors, log.calls[n].turn - 1, |log.calls|))
    ensures |HeldNextTurn(log, facts, anchors, n + |ks|)| == |HeldNextTurn(log, facts, anchors, n)| + held
  {
    held := 0;
    ghost var k := n;
    for j := 0 to |ks|
      invariant k == n + j
      invariant |HeldNextTurn(log, facts, anchors, k)| == |HeldNextTurn(log, facts, anchors, n)| + held
    {
      NextExtends(log, facts, anchors, ks[j], follows);
      if follows && FamilyOf(log.calls[ks[j]], facts) == Shell { held := held + 1; }
      k := k + 1;
    }
  }

  /** Some anchor edit of this turn is among the first n calls. */
  ghost predicate AnchoredBefore(log: Log, facts: Facts, anchors: Call -> bool, t: int, n: nat)
    requires n <= |log.calls|
  {
    exists e :: 0 <= e < n && log.calls[e].turn == t && IsAnchor(log, facts, anchors, e)
  }

  lemma TurnsSoFar(log: Log, t: nat)
    requires WellGrouped(log) && t <= |log.turns| && Start(log.turns, t) <= |log.calls|
    ensures forall e :: 0 <= e < Start(log.turns, t) ==> log.calls[e].turn < t
    decreases t
  {
    if t > 0 {
      StartGrows(log.turns, t - 1);
      TurnsSoFar(log, t - 1);
      forall e | Start(log.turns, t - 1) <= e < Start(log.turns, t) ensures log.calls[e].turn < t {
        var j := e - Start(log.turns, t - 1);
        assert log.turns[t - 1].calls[j] == e;
      }
    }
  }

  lemma HeldExtends(log: Log, facts: Facts, anchors: Call -> bool, k: nat)
    requires k < |log.calls|
    ensures |HeldSameTurn(log, facts, anchors, k + 1)| == |HeldSameTurn(log, facts, anchors, k)|
      + if IsOf(log.calls[k], facts, Shell) && AnchoredBefore(log, facts, anchors, log.calls[k].turn, k)
        then 1 else 0
  {
    var held := IsOf(log.calls[k], facts, Shell) && AnchoredBefore(log, facts, anchors, log.calls[k].turn, k);
    assert HeldSameTurn(log, facts, anchors, k + 1)
      == HeldSameTurn(log, facts, anchors, k) + if held then {k} else {};
  }

  lemma NextExtends(log: Log, facts: Facts, anchors: Call -> bool, k: nat, follows: bool)
    requires k < |log.calls|
    requires follows <==> AnchoredBefore(log, facts, anchors, log.calls[k].turn - 1, |log.calls|)
    ensures |HeldNextTurn(log, facts, anchors, k + 1)| == |HeldNextTurn(log, facts, anchors, k)|
      + if IsOf(log.calls[k], facts, Shell) && follows then 1 else 0
  {
    var held := IsOf(log.calls[k], facts, Shell) && follows;
    assert HeldNextTurn(log, facts, anchors, k + 1)
      == HeldNextTurn(log, facts, anchors, k) + if held then {k} else {};
  }

  // ----- the shapes of edit turns -----

  predicate RoleIs(log: Log, facts: Facts, t: nat, j: nat, f: Family)
    requires IsLog(log) && t < |log.turns| && j < |log.turns[t].calls|
  {
    IsOf(log.calls[log.turns[t].calls[j]], facts, f)
  }

  predicate Has(log: Log, facts: Facts, t: nat, f: Family)
    requires IsLog(log) && t < |log.turns|
  {
    exists j :: 0 <= j < |log.turns[t].calls| && RoleIs(log, facts, t, j, f)
  }

  /** An edit and, after it, a shell call in the same turn. */
  predicate CoDispatched(log: Log, facts: Facts, t: nat)
    requires IsLog(log) && t < |log.turns|
  {
    exists i, j :: 0 <= i < j < |log.turns[t].calls|
                   && RoleIs(log, facts, t, i, Edit) && RoleIs(log, facts, t, j, Shell)
  }

  /** An edit without any shell call, and a shell call in the next turn. */
  predicate IsSplit(log: Log, facts: Facts, t: nat)
    requires IsLog(log) && t < |log.turns|
  {
    Has(log, facts, t, Edit) && !Has(log, facts, t, Shell) && t + 1 < |log.turns| && Has(log, facts, t + 1, Shell)
  }

  /** Edit turns, co-dispatched turns and split turns among the first n. */
  ghost function ShapeCounts(log: Log, facts: Facts, n: nat): (nat, nat, nat)
    requires IsLog(log) && n <= |log.turns|
  {
    if n == 0 then (0, 0, 0)
    else
      var before := ShapeCounts(log, facts, n - 1);
      (before.0 + (if Has(log, facts, n - 1, Edit) then 1 else 0),
       before.1 + (if CoDispatched(log, facts, n - 1) then 1 else 0),
       before.2 + (if IsSplit(log, facts, n - 1) then 1 else 0))
  }

  function Roles(log: Log, facts: Facts, ks: seq<nat>): (roles: seq<Family>)
    requires forall j :: 0 <= j < |ks| ==> ks[j] < |log.calls|
    ensures |roles| == |ks| && forall j :: 0 <= j < |ks| ==> IsOf(log.calls[ks[j]], facts, roles[j])
  {
    if ks == [] then [] else Roles(log, facts, ks[..|ks| - 1]) + [FamilyOf(log.calls[ks[|ks| - 1]], facts)]
  }

  function IndexOf(roles: seq<Family>, f: Family): (i: nat)
    requires f in roles
    ensures i < |roles| && roles[i] == f && forall a :: 0 <= a < i ==> roles[a] != f
  {
    if roles[0] == f then 0 else 1 + IndexOf(roles[1..], f)
  }

  /** Co-dispatched and split turns are disjoint subsets of the edit turns. */
  lemma {:induction false} ShapesAreDisjoint(log: Log, facts: Facts, n: nat)
    requires IsLog(log) && n <= |log.turns|
    ensures forall t :: 0 <= t < n && CoDispatched(log, facts, t) ==>
      Has(log, facts, t, Edit) && !IsSplit(log, facts, t)
    ensures ShapeCounts(log, facts, n).1 + ShapeCounts(log, facts, n).2 <= ShapeCounts(log, facts, n).0
  {
    if n > 0 { ShapesAreDisjoint(log, facts, n - 1); }
  }

  lemma RolesSay(log: Log, facts: Facts, t: nat, roles: seq<Family>, f: Family)
    requires IsLog(log) && t < |log.turns| && roles == Roles(log, facts, log.turns[t].calls)
    ensures f in roles <==> Has(log, facts, t, f)
  {
    if f in roles {
      var j :| 0 <= j < |roles| && roles[j] == f;
      assert RoleIs(log, facts, t, j, f);
    }
  }

  lemma RolesOrder(log: Log, facts: Facts, t: nat, roles: seq<Family>)
    requires IsLog(log) && t < |log.turns| && roles == Roles(log, facts, log.turns[t].calls) && Edit in roles
    ensures Shell in roles[IndexOf(roles, Edit) + 1..] <==> CoDispatched(log, facts, t)
  {
    ShellAfterEdit(roles);
    if a, b :| 0 <= a < b < |roles| && roles[a] == Edit && roles[b] == Shell {
      assert RoleIs(log, facts, t, a, Edit) && RoleIs(log, facts, t, b, Shell);
    }
    if CoDispatched(log, facts, t) {
      var a, b :| 0 <= a < b < |roles| && RoleIs(log, facts, t, a, Edit) && RoleIs(log, facts, t, b, Shell);
      assert roles[a] == Edit && roles[b] == Shell;
    }
  }

  /** A shell call after the first edit is one after some edit. */
  lemma ShellAfterEdit(roles: seq<Family>)
    requires Edit in roles
    ensures Shell in roles[IndexOf(roles, Edit) + 1..] <==>
      exists a, b :: 0 <= a < b < |roles| && roles[a] == Edit && roles[b] == Shell
  {
    var i := IndexOf(roles, Edit);
    var rest := roles[i + 1..];
    if Shell in rest {
      var j :| 0 <= j < |rest| && rest[j] == Shell;
      assert roles[i + 1 + j] == Shell;
    }
    if a, b :| 0 <= a < b < |roles| && roles[a] == Edit && roles[b] == Shell {
      assert rest[b - i - 1] == Shell;
    }
  }

  method TurnShapes(log: Log, facts: Facts) returns (editTurns: nat, coDispatch: nat, split: nat)
    requires IsLog(log)
    ensures (editTurns, coDispatch, split) == ShapeCounts(log, facts, |log.turns|)
    ensures coDispatch + split <= editTurns
  {
    editTurns, coDispatch, split := 0, 0, 0;
    for t := 0 to |log.turns|
      invariant editTurns == ShapeCounts(log, facts, t).0 && coDispatch == ShapeCounts(log, facts, t).1
    {
      var edit, co := ReadTurn(log, facts, t);
      if edit { editTurns := editTurns + 1; }
      if co { coDispatch := coDispatch + 1; }
    }
    for t := 0 to |log.turns|
      invariant split == ShapeCounts(log, facts, t).2
    {
      var splits := ReadPair(log, facts, t);
      if splits { split := split + 1; }
    }
    ShapesAreDisjoint(log, facts, |log.turns|);
  }

  method ReadTurn(log: Log, facts: Facts, t: nat) returns (edit: bool, co: bool)
    requires IsLog(log) && t < |log.turns|
    ensures edit == Has(log, facts, t, Edit) && co == CoDispatched(log, facts, t)
  {
    var roles := Roles(log, facts, log.turns[t].calls);
    RolesSay(log, facts, t, roles, Edit);
    if Edit !in roles { return false, false; }
    RolesOrder(log, facts, t, roles);
    return true, Shell in roles[IndexOf(roles, Edit) + 1..];
  }

  method ReadPair(log: Log, facts: Facts, t: nat) returns (splits: bool)
    requires IsLog(log) && t < |log.turns|
    ensures splits == IsSplit(log, facts, t)
  {
    if t + 1 == |log.turns| { return false; }
    var roles := Roles(log, facts, log.turns[t].calls);
    var following := Roles(log, facts, log.turns[t + 1].calls);
    RolesSay(log, facts, t, roles, Edit);
    RolesSay(log, facts, t, roles, Shell);
    RolesSay(log, facts, t + 1, following, Shell);
    return Edit in roles && Shell !in roles && Shell in following;
  }

  // ----- from events to counts -----

  datatype Counts = Counts(
    resends: nat,
    afterMissed: (nat, nat),
    afterFailed: (nat, nat),
    editTurns: nat,
    coDispatch: nat,
    split: nat)

  lemma SameAnchors(log: Log, facts: Facts, a: Call -> bool, b: Call -> bool)
    requires forall c :: a(c) == b(c)
    ensures |HeldSameTurn(log, facts, a, |log.calls|)| == |HeldSameTurn(log, facts, b, |log.calls|)|
    ensures |HeldNextTurn(log, facts, a, |log.calls|)| == |HeldNextTurn(log, facts, b, |log.calls|)|
  {
    WiderAnchorsHoldMore(log, facts, a, b);
    WiderAnchorsHoldMore(log, facts, b, a);
  }

  /** The checks after anchor edits, in the same turn and in the next. */
  ghost function ChecksAfter(log: Log, facts: Facts, anchors: Call -> bool): (nat, nat) {
    (|HeldSameTurn(log, facts, anchors, |log.calls|)|, |HeldNextTurn(log, facts, anchors, |log.calls|)|)
  }

  /** Group a log and count: checks after edits that failed never exceed checks after
      edits that missed, and co-dispatched and split turns never exceed edit turns. */
  method Measure(events: seq<Event>, facts: Facts) returns (log: Log, counts: Counts)
    ensures Grouped(events, log) && WellGrouped(log)
    ensures counts.afterFailed.0 <= counts.afterMissed.0 && counts.afterFailed.1 <= counts.afterMissed.1
    ensures counts.coDispatch + counts.split <= counts.editTurns
    ensures counts.resends == Size(Greedy(Checks(log, facts, |log.calls|), Asks(log.calls)))
    ensures counts.afterMissed == ChecksAfter(log, facts,
      (c: Call) => c.answer.Some? && (c.answer.value.output.notRun || c.answer.value.output.failed))
    ensures counts.afterFailed == ChecksAfter(log, facts,
      (c: Call) => c.answer.Some? && !c.answer.value.output.notRun && c.answer.value.output.failed)
    ensures (counts.editTurns, counts.coDispatch, counts.split) == ShapeCounts(log, facts, |log.turns|)
  {
    log := GroupTurns(events);
    GroupedLog(events, log);
    var resends, g := ApprovalResends(log, facts);
    var missedSame, missedNext := AfterEdits(log, facts, Missed);
    var failedSame, failedNext := AfterEdits(log, facts, RanAndFailed);
    FailedHoldsNoMoreThanMissed(log, facts);
    SameAnchors(log, facts, Missed,
      (c: Call) => c.answer.Some? && (c.answer.value.output.notRun || c.answer.value.output.failed));
    SameAnchors(log, facts, RanAndFailed,
      (c: Call) => c.answer.Some? && !c.answer.value.output.notRun && c.answer.value.output.failed);
    var edits, co, split := TurnShapes(log, facts);
    counts := Counts(resends, (missedSame, missedNext), (failedSame, failedNext), edits, co, split);
  }
}
