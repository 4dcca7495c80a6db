/** Grouping a session log into turns and attaching each answer to its call. */
module SessionLog {
  import opened Options
  import opened Resends

  /** What the counts read of an answer. */
  datatype Output = Output(notRun: bool, failed: bool, withheld: bool)

  datatype Event =
    | TurnStarted
    | UserInput
    | ToolCall(callId: string, tool: string, input: int)
    | ToolResult(callId: string, output: Output)
    | PermissionAsked
    | PermissionDecision(callId: string, approves: bool)
    | Unknown

  datatype Answer = Answer(position: nat, output: Output)

  datatype Call = Call(callId: string, tool: string, input: int, turn: nat, position: nat, answer: Option<Answer>)

  /** A turn's calls, as indices into the log's calls. */
  datatype Turn = Turn(calls: seq<nat>)

  // ----- which answer belongs to which call -----

  /** The last answer to this id at a position in [lo, hi). */
  function LastResult(events: seq<Event>, lo: nat, hi: nat, id: string): (r: Option<nat>)
    requires lo <= hi <= |events|
    ensures r.Some? ==> lo <= r.value < hi && events[r.value].ToolResult? && events[r.value].callId == id
    decreases hi
  {
    if lo == hi then None
    else if events[hi - 1].ToolResult? && events[hi - 1].callId == id then Some(hi - 1)
    else LastResult(events, lo, hi - 1, id)
  }

  /** The first call with this id at a position in [lo, hi), or hi. */
  function NextCall(events: seq<Event>, lo: nat, hi: nat, id: string): (r: nat)
    requires lo <= hi <= |events|
    ensures lo <= r <= hi
    decreases hi - lo
  {
    if lo == hi || (events[lo].ToolCall? && events[lo].callId == id) then lo
    else NextCall(events, lo + 1, hi, id)
  }

  predicate CalledBefore(events: seq<Event>, p: nat, id: string)
    requires p <= |events|
  {
    exists q :: 0 <= q < p && events[q].ToolCall? && events[q].callId == id
  }

  /** The answer to the call at p among the first n events: the last one before its id is
      called again, else one that came before the id was first called. */
  function AnswerAt(events: seq<Event>, p: nat, n: nat): Option<nat>
    requires p < n <= |events| && events[p].ToolCall?
  {
    var id := events[p].callId;
    var r := LastResult(events, p + 1, NextCall(events, p + 1, n, id), id);
    if r.Some? then r
    else if CalledBefore(events, p, id) then None
    else LastResult(events, 0, p, id)
  }

  lemma {:induction false} NextCallExtends(events: seq<Event>, lo: nat, n: nat, id: string)
    requires lo <= n < |events|
    ensures NextCall(events, lo, n + 1, id) ==
      if NextCall(events, lo, n, id) < n then NextCall(events, lo, n, id)
      else if events[n].ToolCall? && events[n].callId == id then n else n + 1
    decreases n - lo
  {
    if lo < n && !(events[lo].ToolCall? && events[lo].callId == id) { NextCallExtends(events, lo + 1, n, id); }
  }

  lemma AnswerExtends(events: seq<Event>, p: nat, n: nat)
    requires p < n < |events| && events[p].ToolCall?
    ensures AnswerAt(events, p, n + 1) ==
      if events[n].ToolResult? && events[n].callId == events[p].callId
         && NextCall(events, p + 1, n, events[p].callId) == n
      then Some(n) else AnswerAt(events, p, n)
  {
    NextCallExtends(events, p + 1, n, events[p].callId);
  }

  // ----- what grouping promises -----

  function Start(turns: seq<Turn>, t: nat): nat
    requires t <= |turns|
  {
    if t == 0 then 0 else Start(turns, t - 1) + |turns[t - 1].calls|
  }

  /** The turns cut the calls, in order, into consecutive stretches. */
  ghost predicate Partitions(turns: seq<Turn>, calls: seq<Call>) {
    && Start(turns, |turns|) == |calls|
    && forall t, j :: 0 <= t < |turns| && 0 <= j < |turns[t].calls| ==>
      && turns[t].calls[j] == Start(turns, t) + j < |calls|
      && calls[turns[t].calls[j]].turn == t
  }

  ghost predicate Ordered(calls: seq<Call>) {
    forall a, b :: 0 <= a < b < |calls| ==> calls[a].turn <= calls[b].turn && calls[a].position < calls[b].position
  }

  function AnswerPosition(call: Call): Option<nat> {
    if call.answer.Some? then Some(call.answer.value.position) else None
  }

  /** The answer is one the log holds for this id. */
  predicate IsAnswer(events: seq<Event>, n: nat, id: string, a: Answer)
    requires n <= |events|
  {
    a.position < n && events[a.position] == ToolResult(id, a.output)
  }

  /** The call is one of the log's, with the answer that belongs to it. */
  ghost predicate Faithful(events: seq<Event>, n: nat, call: Call)
    requires n <= |events|
  {
    && call.position < n && events[call.position] == ToolCall(call.callId, call.tool, call.input)
    && AnswerPosition(call) == AnswerAt(events, call.position, n)
    && (call.answer.Some? ==> IsAnswer(events, n, call.callId, call.answer.value))
  }

  /** The calls so far, the latest call of each id, and answers to ids not called yet. */
  datatype Book = Book(calls: seq<Call>, byId: map<string, nat>, early: map<string, Answer>)

  function BookCall(b: Book, e: Event, turn: nat, n: nat): Book
    requires e.ToolCall?
  {
    var answer := if e.callId in b.early then Some(b.early[e.callId]) else None;
    Book(b.calls + [Call(e.callId, e.tool, e.input, turn, n, answer)], b.byId[e.callId := |b.calls|],
         b.early - {e.callId})
  }

  function BookResult(b: Book, e: Event, n: nat): Book
    requires e.ToolResult? && forall id <- b.byId :: b.byId[id] < |b.calls|
  {
    if e.callId in b.byId then
      var k := b.byId[e.callId];
      b.(calls := b.calls[k := b.calls[k].(answer := Some(Answer(n, e.output)))])
    else b.(early := b.early[e.callId := Answer(n, e.output)])
  }

  /** byId names this call exactly when its id is not called again. */
  ghost predicate IndexedAt(events: seq<Event>, n: nat, b: Book, k: nat)
    requires n <= |events| && k < |b.calls|
  {
    var call := b.calls[k];
    && call.position < n && call.callId in b.byId
    && (b.byId[call.callId] == k <==> NextCall(events, call.position + 1, n, call.callId) == n)
  }

  ghost predicate Indexes(events: seq<Event>, n: nat, b: Book)
    requires n <= |events|
  {
    && (forall id <- b.byId :: b.byId[id] < |b.calls| && b.calls[b.byId[id]].callId == id)
    && (forall k :: 0 <= k < |b.calls| ==> IndexedAt(events, n, b, k))
  }

  /** early holds the last answer of each id that was answered and never called. */
  ghost predicate HoldsEarly(events: seq<Event>, n: nat, b: Book, id: string)
    requires n <= |events|
  {
    if id in b.byId then id !in b.early && CalledBefore(events, n, id)
    else
      && !CalledBefore(events, n, id)
      && (id in b.early <==> LastResult(events, 0, n, id).Some?)
      && (id in b.early ==>
        IsAnswer(events, n, id, b.early[id]) && LastResult(events, 0, n, id) == Some(b.early[id].position))
  }

  ghost predicate Complete(events: seq<Event>, n: nat, calls: seq<Call>)
    requires n <= |events|
  {
    forall p :: 0 <= p < n && events[p].ToolCall? ==> exists k :: 0 <= k < |calls| && calls[k].position == p
  }

  ghost predicate Booked(events: seq<Event>, n: nat, b: Book) {
    && n <= |events|
    && (forall k :: 0 <= k < |b.calls| ==> Faithful(events, n, b.calls[k]))
    && Indexes(events, n, b)
    && (forall id :: HoldsEarly(events, n, b, id))
    && Complete(events, n, b.calls)
  }

  /** One event entered in the book. */
  function Enter(b: Book, e: Event, turn: nat, n: nat): Book
    requires forall id <- b.byId :: b.byId[id] < |b.calls|
  {
    if e.ToolCall? then BookCall(b, e, turn, n) else if e.ToolResult? then BookResult(b, e, n) else b
  }

  /** An answer goes to its id's latest call. */
  lemma FaithfulAnswered(events: seq<Event>, n: nat, call: Call)
    requires n < |events| && Faithful(events, n, call) && events[n].ToolResult? && events[n].callId == call.callId
    requires NextCall(events, call.position + 1, n, call.callId) == n
    ensures Faithful(events, n + 1, call.(answer := Some(Answer(n, events[n].output))))
  {
    AnswerExtends(events, call.position, n);
  }

  lemma FaithfulKept(events: seq<Event>, n: nat, call: Call)
    requires n < |events| && Faithful(events, n, call)
    requires events[n].ToolResult? && events[n].callId == call.callId ==>
      NextCall(events, call.position + 1, n, call.callId) != n
    ensures Faithful(events, n + 1, call)
  {
    AnswerExtends(events, call.position, n);
  }

  /** A call's answer changes only when its id is answered while it is the latest call. */
  lemma FaithfulStep(events: seq<Event>, n: nat, b: Book, turn: nat, k: nat)
    requires n < |events| && Indexes(events, n, b) && k < |b.calls| && Faithful(events, n, b.calls[k])
    ensures Faithful(events, n + 1, Enter(b, events[n], turn, n).calls[k])
  {
    assert IndexedAt(events, n, b, k);
    var e, call := events[n], b.calls[k];
    if e.ToolResult? && e.callId == call.callId && b.byId[call.callId] == k {
      FaithfulAnswered(events, n, call);
    } else {
      FaithfulKept(events, n, call);
      assert Enter(b, e, turn, n).calls[k] == call;
    }
  }

  lemma FaithfulNew(events: seq<Event>, n: nat, b: Book, turn: nat)
    requires n < |events| && events[n].ToolCall? && HoldsEarly(events, n, b, events[n].callId)
    ensures var b' := BookCall(b, events[n], turn, n); Faithful(events, n + 1, b'.calls[|b.calls|])
  {
    assert NextCall(events, n + 1, n + 1, events[n].callId) == n + 1;
  }

  /** Entering an event keeps the calls there are, except for an answer. */
  lemma EnterKeeps(b: Book, e: Event, turn: nat, n: nat, k: nat)
    requires forall id <- b.byId :: b.byId[id] < |b.calls|
    requires k < |b.calls|
    ensures var calls := Enter(b, e, turn, n).calls;
      && |calls| == |b.calls| + (if e.ToolCall? then 1 else 0)
      && calls[k].callId == b.calls[k].callId && calls[k].position == b.calls[k].position
  {}

  lemma IndexedStep(events: seq<Event>, n: nat, b: Book, turn: nat, k: nat)
    requires n < |events| && Indexes(events, n, b) && k < |Enter(b, events[n], turn, n).calls|
    ensures IndexedAt(events, n + 1, Enter(b, events[n], turn, n), k)
  {
    if k < |b.calls| {
      assert IndexedAt(events, n, b, k);
      EnterKeeps(b, events[n], turn, n, k);
      NextCallExtends(events, b.calls[k].position + 1, n, b.calls[k].callId);
    }
  }

  lemma ByIdStep(events: seq<Event>, n: nat, b: Book, turn: nat, id: string)
    requires n < |events| && Indexes(events, n, b) && id in Enter(b, events[n], turn, n).byId
    ensures var b' := Enter(b, events[n], turn, n); b'.byId[id] < |b'.calls| && b'.calls[b'.byId[id]].callId == id
  {}

  lemma IndexesStep(events: seq<Event>, n: nat, b: Book, turn: nat)
    requires n < |events| && Indexes(events, n, b)
    ensures Indexes(events, n + 1, Enter(b, events[n], turn, n))
  {
    var m, b' := n + 1, Enter(b, events[n], turn, n);
    forall k | 0 <= k < |b'.calls| ensures IndexedAt(events, m, b', k) {
      IndexedStep(events, n, b, turn, k);
    }
    forall id | id in b'.byId ensures b'.byId[id] < |b'.calls| && b'.calls[b'.byId[id]].callId == id {
      ByIdStep(events, n, b, turn, id);
    }
  }

  lemma EarlyStep(events: seq<Event>, n: nat, b: Book, turn: nat, id: string)
    requires n < |events| && Indexes(events, n, b) && HoldsEarly(events, n, b, id)
    ensures HoldsEarly(events, n + 1, Enter(b, events[n], turn, n), id)
  {
    assert CalledBefore(events, n + 1, id) <==>
      CalledBefore(events, n, id) || (events[n].ToolCall? && events[n].callId == id);
  }

  lemma CompleteStep(events: seq<Event>, n: nat, b: Book, turn: nat)
    requires n < |events| && Indexes(events, n, b) && Complete(events, n, b.calls)
    ensures Complete(events, n + 1, Enter(b, events[n], turn, n).calls)
  {
    var calls := Enter(b, events[n], turn, n).calls;
    forall p | 0 <= p < n + 1 && events[p].ToolCall?
      ensures exists k :: 0 <= k < |calls| && calls[k].position == p
    {
      if p < n {
        var k :| 0 <= k < |b.calls| && b.calls[k].position == p;
        EnterKeeps(b, events[n], turn, n, k);
        assert calls[k].position == p;
      } else {
        assert calls[|b.calls|].position == p;
      }
    }
  }

  lemma BookedStep(events: seq<Event>, n: nat, b: Book, turn: nat)
    requires n < |events| && Booked(events, n, b)
    ensures Booked(events, n + 1, Enter(b, events[n], turn, n))
  {
    var m, b' := n + 1, Enter(b, events[n], turn, n);
    forall k | 0 <= k < |b'.calls| ensures Faithful(events, m, b'.calls[k]) {
      if k < |b.calls| {
        FaithfulStep(events, n, b, turn, k);
      } else {
        assert HoldsEarly(events, n, b, events[n].callId);
        FaithfulNew(events, n, b, turn);
      }
    }
    IndexesStep(events, n, b, turn);
    forall id ensures HoldsEarly(events, m, b', id) {
      assert HoldsEarly(events, n, b, id);
      EarlyStep(events, n, b, turn, id);
    }
    CompleteStep(events, n, b, turn);
  }

  lemma {:induction false} StartPrefix(turns: seq<Turn>, turns': seq<Turn>, t: nat)
    requires t <= |turns| && t <= |turns'| && turns[..t] == turns'[..t]
    ensures Start(turns, t) == Start(turns', t)
  {
    if t > 0 {
      assert turns[..t - 1] == turns[..t][..t - 1] && turns'[..t - 1] == turns'[..t][..t - 1];
      assert turns[..t][t - 1] == turns'[..t][t - 1];
      StartPrefix(turns, turns', t - 1);
    }
  }

  lemma StartAppend(turns: seq<Turn>, turn: Turn)
    ensures Start(turns + [turn], |turns| + 1) == Start(turns, |turns|) + |turn.calls|
    ensures forall t :: 0 <= t <= |turns| ==> Start(turns + [turn], t) == Start(turns, t)
  {
    forall t | 0 <= t <= |turns| ensures Start(turns + [turn], t) == Start(turns, t) {
      assert (turns + [turn])[..t] == turns[..t];
      StartPrefix(turns + [turn], turns, t);
    }
  }

  lemma PartitionsStartTurn(turns: seq<Turn>, calls: seq<Call>)
    requires Partitions(turns, calls)
    ensures Partitions(turns + [Turn([])], calls)
  {
    StartAppend(turns, Turn([]));
  }

  /** A call made now belongs to the last turn. */
  lemma PartitionsAddCall(turns: seq<Turn>, calls: seq<Call>, call: Call)
    requires turns != [] && Partitions(turns, calls) && call.turn == |turns| - 1
    ensures var last := |turns| - 1;
      Partitions(turns[last := Turn(turns[last].calls + [|calls|])], calls + [call])
  {
    var last := |turns| - 1;
    var before, turn := turns[..last], Turn(turns[last].calls + [|calls|]);
    assert turns == before + [turns[last]];
    assert turns[last := turn] == before + [turn];
    StartAppend(before, turns[last]);
    StartAppend(before, turn);
  }

  /** Answers change neither turns nor positions. */
  lemma PartitionsKept(turns: seq<Turn>, calls: seq<Call>, calls': seq<Call>)
    requires Partitions(turns, calls) && Ordered(calls) && |calls'| == |calls|
    requires forall k :: 0 <= k < |calls| ==> calls'[k].turn == calls[k].turn && calls'[k].position == calls[k].position
    ensures Partitions(turns, calls') && Ordered(calls')
  {
    forall t, j | 0 <= t < |turns| && 0 <= j < |turns[t].calls|
      ensures turns[t].calls[j] == Start(turns, t) + j < |calls'| && calls'[turns[t].calls[j]].turn == t
    {
      assert calls'[turns[t].calls[j]].turn == calls[turns[t].calls[j]].turn;
    }
  }

  datatype Log = Log(turns: seq<Turn>, calls: seq<Call>, approved: set<string>)

  ghost predicate Approves(events: seq<Event>, n: nat, approved: set<string>)
    requires n <= |events|
  {
    forall id :: id in approved <==> exists p :: 0 <= p < n && events[p] == PermissionDecision(id, true)
  }

  /** Everything the grouping loop carries. */
  datatype State = State(turns: seq<Turn>, book: Book, approved: set<string>, fromInput: bool, boundarySeen: bool) {
    predicate InRange() { forall id <- book.byId :: book.byId[id] < |book.calls| }

    /** A boundary after the input that opened a turn shares that turn while it has no
        call; anything else opens a new one. */
    function StartTurn(input: bool): State {
      if !input && fromInput && turns != [] && turns[|turns| - 1].calls == [] then this.(fromInput := false)
      else this.(turns := turns + [Turn([])], fromInput := input)
    }

    function AddCall(e: Event, n: nat): State
      requires e.ToolCall?
    {
      var s := if turns == [] then StartTurn(false) else this;
      var last := |s.turns| - 1;
      s.(turns := s.turns[last := Turn(s.turns[last].calls + [|book.calls|])],
         book := BookCall(book, e, last, n))
    }

    function Feed(e: Event, n: nat): State
      requires InRange()
    {
      match e
      case TurnStarted => StartTurn(false).(boundarySeen := true)
      case UserInput => if boundarySeen then this else StartTurn(true)
      case ToolCall(_, _, _) => AddCall(e, n)
      case ToolResult(_, _) => this.(book := BookResult(book, e, n))
      case PermissionDecision(id, approves) => if approves then this.(approved := approved + {id}) else this
      case _ => this
    }
  }

  const EMPTY: State := State([], Book([], map[], map[]), {}, false, false)

  /** The state after the first n events. */
  function FeedAll(events: seq<Event>, n: nat): (s: State)
    requires n <= |events|
    ensures s.InRange()
  {
    if n == 0 then EMPTY else FeedAll(events, n - 1).Feed(events[n - 1], n - 1)
  }

  /** The turns hold the calls as they were made. */
  ghost predicate Filed(s: State, n: nat) {
    && Partitions(s.turns, s.book.calls) && Ordered(s.book.calls)
    && forall k :: 0 <= k < |s.book.calls| ==> s.book.calls[k].turn < |s.turns| && s.book.calls[k].position < n
  }

  lemma FiledStartTurn(s: State, n: nat, input: bool)
    requires Filed(s, n)
    ensures Filed(s.StartTurn(input), n) && s.StartTurn(input).turns != []
  {
    PartitionsStartTurn(s.turns, s.book.calls);
  }

  lemma FiledAddCall(s: State, call: Call, n: nat)
    requires Filed(s, n) && s.turns != [] && call.turn == |s.turns| - 1 && call.position == n
    ensures var last := |s.turns| - 1;
      var turns, calls := s.turns[last := Turn(s.turns[last].calls + [|s.book.calls|])], s.book.calls + [call];
      && Partitions(turns, calls) && Ordered(calls)
      && forall k :: 0 <= k < |calls| ==> calls[k].turn < |turns| && calls[k].position < n + 1
  {
    PartitionsAddCall(s.turns, s.book.calls, call);
  }

  lemma FiledStep(s: State, e: Event, n: nat, s': State)
    requires s.InRange() && Filed(s, n) && s' == s.Feed(e, n)
    ensures Filed(s', n + 1)
  {
    if e.TurnStarted? || e.UserInput? {
      FiledStartTurn(s, n, e.UserInput?);
    } else if e.ToolCall? {
      FiledStartTurn(s, n, false);
      var at := if s.turns == [] then s.StartTurn(false) else s;
      FiledAddCall(at, s'.book.calls[|s.book.calls|], n);
    } else if e.ToolResult? {
      PartitionsKept(s.turns, s.book.calls, s'.book.calls);
    }
  }

  lemma {:induction false} FeedAllFiled(events: seq<Event>, n: nat, s: State)
    requires n <= |events| && s == FeedAll(events, n)
    ensures Filed(s, n)
  {
    if n > 0 {
      var s0 := FeedAll(events, n - 1);
      FeedAllFiled(events, n - 1, s0);
      FiledStep(s0, events[n - 1], n - 1, s);
    }
  }

  lemma FeedEnters(s: State, e: Event, n: nat) returns (turn: nat)
    requires s.InRange()
    ensures s.Feed(e, n).book == Enter(s.book, e, turn, n)
  {
    turn := if s.turns == [] then 0 else |s.turns| - 1;
  }

  lemma {:induction false} FeedAllBooked(events: seq<Event>, n: nat, s: State)
    requires n <= |events| && s == FeedAll(events, n)
    ensures Booked(events, n, s.book)
  {
    if n > 0 {
      var s0 := FeedAll(events, n - 1);
      var turn := FeedEnters(s0, events[n - 1], n - 1);
      FeedAllBooked(events, n - 1, s0);
      BookedStep(events, n - 1, s0.book, turn);
    }
  }

  lemma {:induction false} FeedAllApproves(events: seq<Event>, n: nat)
    requires n <= |events|
    ensures Approves(events, n, FeedAll(events, n).approved)
  {
    if n > 0 {
      FeedAllApproves(events, n - 1);
    }
  }

  // ----- where turns begin -----

  predicate HasStart(events: seq<Event>, n: nat)
    requires n <= |events|
  {
    exists p :: 0 <= p < n && events[p].TurnStarted?
  }

  predicate HasInput(events: seq<Event>, n: nat)
    requires n <= |events|
  {
    exists p :: 0 <= p < n && events[p].UserInput?
  }

  predicate HasCall(events: seq<Event>, n: nat)
    requires n <= |events|
  {
    exists p :: 0 <= p < n && events[p].ToolCall?
  }

  predicate NoCallAfter(events: seq<Event>, u: nat, n: nat)
    requires u < n <= |events|
  {
    forall p :: u < p < n ==> !events[p].ToolCall?
  }

  /** The user's input came last, before any call. */
  predicate InputWaits(events: seq<Event>, n: nat)
    requires n <= |events|
  {
    exists u :: 0 <= u < n && events[u].UserInput? && NoCallAfter(events, u, n)
  }

  /** A turn begins at every boundary, except that the first one shares the turn of an
      input that still waits for its first call; at every input before the first boundary;
      and at a call that nothing came before. */
  predicate OpensTurn(events: seq<Event>, p: nat)
    requires p < |events|
  {
    match events[p]
    case TurnStarted => HasStart(events, p) || !InputWaits(events, p)
    case UserInput => !HasStart(events, p)
    case ToolCall(_, _, _) => !HasStart(events, p) && !HasInput(events, p) && !HasCall(events, p)
    case _ => false
  }

  /** How many turns have begun in the first n events. */
  function Openings(events: seq<Event>, n: nat): nat
    requires n <= |events|
  {
    if n == 0 then 0 else Openings(events, n - 1) + if OpensTurn(events, n - 1) then 1 else 0
  }

  /** A call belongs to the turn that began last. */
  ghost predicate InLastTurn(events: seq<Event>, call: Call) {
    call.position < |events| && call.turn + 1 == Openings(events, call.position + 1)
  }

  ghost predicate Turned(events: seq<Event>, n: nat, s: State)
    requires n <= |events|
  {
    && |s.turns| == Openings(events, n)
    && (s.boundarySeen <==> HasStart(events, n))
    && (s.fromInput <==> !HasStart(events, n) && HasInput(events, n))
    && (s.turns == [] <==> !HasStart(events, n) && !HasInput(events, n) && !HasCall(events, n))
    && (s.fromInput ==> s.turns != [] && (s.turns[|s.turns| - 1].calls == [] <==> InputWaits(events, n)))
    && (forall k :: 0 <= k < |s.book.calls| ==> InLastTurn(events, s.book.calls[k]))
  }

  lemma SeenStep(events: seq<Event>, n: nat)
    requires n < |events|
    ensures HasStart(events, n + 1) <==> HasStart(events, n) || events[n].TurnStarted?
    ensures HasInput(events, n + 1) <==> HasInput(events, n) || events[n].UserInput?
    ensures HasCall(events, n + 1) <==> HasCall(events, n) || events[n].ToolCall?
    ensures InputWaits(events, n + 1) <==> events[n].UserInput? || (InputWaits(events, n) && !events[n].ToolCall?)
  {
    if events[n].UserInput? { assert NoCallAfter(events, n, n + 1); }
    if InputWaits(events, n) && !events[n].ToolCall? {
      var u :| 0 <= u < n && events[u].UserInput? && NoCallAfter(events, u, n);
      assert NoCallAfter(events, u, n + 1);
    }
    if InputWaits(events, n + 1) && !events[n].UserInput? {
      var u :| 0 <= u < n + 1 && events[u].UserInput? && NoCallAfter(events, u, n + 1);
      assert NoCallAfter(events, u, n);
    }
  }

  lemma TurnedStep(events: seq<Event>, n: nat, s: State)
    requires n < |events| && s.InRange() && Turned(events, n, s)
    ensures Turned(events, n + 1, s.Feed(events[n], n))
  {
    SeenStep(events, n);
    match events[n]
    case TurnStarted =>
    case UserInput =>
    case ToolCall(_, _, _) => TurnedCall(events, n, s);
    case ToolResult(_, _) =>
      assert forall k :: 0 <= k < |s.book.calls| ==> InLastTurn(events, s.book.calls[k]);
    case _ =>
  }

  lemma TurnedCall(events: seq<Event>, n: nat, s: State)
    requires n < |events| && Turned(events, n, s) && events[n].ToolCall?
    ensures Turned(events, n + 1, s.AddCall(events[n], n))
  {
    SeenStep(events, n);
    var s' := s.AddCall(events[n], n);
    assert InLastTurn(events, s'.book.calls[|s.book.calls|]);
    assert forall k :: 0 <= k < |s.book.calls| ==> s'.book.calls[k] == s.book.calls[k];
  }

  lemma {:induction false} FeedAllTurned(events: seq<Event>, n: nat)
    requires n <= |events|
    ensures Turned(events, n, FeedAll(events, n))
  {
    if n > 0 {
      FeedAllTurned(events, n - 1);
      TurnedStep(events, n - 1, FeedAll(events, n - 1));
    }
  }

  class Grouping {
    var turns: seq<Turn>
    var calls: seq<Call>
    var byId: map<string, nat>
    var early: map<string, Answer>
    var approved: set<string>
    var fromInput: bool
    var boundarySeen: bool

    ghost function Abstract(): State
      reads this
    {
      State(turns, Book(calls, byId, early), approved, fromInput, boundarySeen)
    }

    constructor ()
      ensures Abstract() == EMPTY
    {
      turns, calls, byId, early, approved := [], [], map[], map[], {};
      fromInput, boundarySeen := false, false;
    }

    method StartTurn(input: bool)
      modifies this`turns, this`fromInput
      ensures Abstract() == old(Abstract()).StartTurn(input)
    {
      if !input && fromInput && turns != [] && turns[|turns| - 1].calls == [] {
        fromInput := false;
      } else {
        turns := turns + [Turn([])];
        fromInput := input;
      }
    }

    method AddCall(e: Event, n: nat)
      requires e.ToolCall?
      modifies this
      ensures Abstract() == old(Abstract()).AddCall(e, n)
    {
      if turns == [] { StartTurn(false); }
      var last := |turns| - 1;
      var call := Call(e.callId, e.tool, e.input, last, n, None);
      if e.callId in early {
        call := call.(answer := Some(early[e.callId]));
      }
      early := early - {e.callId};
      turns := turns[last := Turn(turns[last].calls + [|calls|])];
      byId := byId[e.callId := |calls|];
      calls := calls + [call];
    }

    method Read(e: Event, n: nat)
      requires Abstract().InRange()
      modifies this
      ensures Abstract() == old(Abstract()).Feed(e, n)
    {
      match e
      case TurnStarted =>
        StartTurn(false);
        boundarySeen := true;
      case UserInput =>
        if !boundarySeen { StartTurn(true); }
      case ToolCall(_, _, _) =>
        AddCall(e, n);
      case ToolResult(id, output) =>
        if id in byId {
          var k := byId[id];
          calls := calls[k := calls[k].(answer := Some(Answer(n, output)))];
        } else {
          early := early[id := Answer(n, output)];
        }
      case PermissionDecision(id, approves) =>
        if approves { approved := approved + {id}; }
      case _ =>
    }
  }

  /** The log is grouped as the events say. */
  ghost predicate Grouped(events: seq<Event>, log: Log) {
    && Partitions(log.turns, log.calls) && Ordered(log.calls)
    && (forall k :: 0 <= k < |log.calls| ==> log.calls[k].turn < |log.turns|)
    && (forall k :: 0 <= k < |log.calls| ==> Faithful(events, |events|, log.calls[k]))
    && Complete(events, |events|, log.calls)
    && Approves(events, |events|, log.approved)
    && |log.turns| == Openings(events, |events|)
    && (forall k :: 0 <= k < |log.calls| ==> InLastTurn(events, log.calls[k]))
  }

  lemma FeedAllGroups(events: seq<Event>)
    ensures var s := FeedAll(events, |events|); Grouped(events, Log(s.turns, s.book.calls, s.approved))
  {
    FeedAllFiled(events, |events|, FeedAll(events, |events|));
    FeedAllBooked(events, |events|, FeedAll(events, |events|));
    FeedAllApproves(events, |events|);
    FeedAllTurned(events, |events|);
  }

  /** For every log: the turns partition the calls in order, with non-decreasing turn
      numbers, and each call carries the answer that belongs to it. */
  method GroupTurns(events: seq<Event>) returns (log: Log)
    ensures Grouped(events, log)
  {
    var g := new Grouping();
    for n := 0 to |events|
      invariant g.Abstract() == FeedAll(events, n)
    {
      g.Read(events[n], n);
    }
    log := Log(g.turns, g.calls, g.approved);
    FeedAllGroups(events);
  }
}
