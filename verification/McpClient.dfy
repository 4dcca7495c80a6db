/** The JSON-RPC client (sections 4.1 and 5 of JSON-RPC 2.0): ids from one counter, one
    request on the pipe at a time, and a reader that matches a response by its id. */
module McpClient {
  import opened Options
  import opened Sequences

  datatype Id = NoId | Numeric(n: nat) | NotNumeric

  datatype Body = Result(value: int) | ServerError(code: int) | Neither

  /** A line the server wrote, as the reader sees it; an unreadable one is an error of
      the read itself, such as bytes that are no text. */
  datatype Line = Unreadable | Blank | NotJson | Message(id: Id, hasMethod: bool, body: Body)

  predicate IsNotification(line: Line) {
    line.Message? && line.id.NoId? && line.hasMethod
  }

  predicate IsSkipped(line: Line) {
    line.Blank? || IsNotification(line)
  }

  datatype Outcome = Ok(value: Option<int>) | Failed(code: int) | ProtocolError | IoError

  /** The outcome of a response body; a missing result reads as null. */
  function OutcomeOf(body: Body): Outcome {
    match body
    case ServerError(code) => Failed(code)
    case Result(v) => Ok(Some(v))
    case Neither => Ok(None)
  }

  /** What a line that is not skipped makes of the call waiting for this id. */
  function Judge(line: Line, expected: nat): Outcome {
    if line.Unreadable? then IoError
    else if line.Message? && line.id == Numeric(expected) then OutcomeOf(line.body) else ProtocolError
  }

  /** A blank line, or a message with a method and no id. */
  predicate IsSilent(line: Line) {
    line == Blank || (line.Message? && line.id == NoId && line.hasMethod)
  }

  /** A body is an error of the server's with its code, a result with its value, or null
      for want of both. */
  predicate Tells(body: Body, outcome: Outcome) {
    || (body.ServerError? && outcome == Failed(body.code))
    || (body.Result? && outcome == Ok(Some(body.value)))
    || (body.Neither? && outcome == Ok(None))
  }

  /** What a line that is not silent means to the call waiting for this id: an answer of
      that id tells its outcome; a line that is no JSON, or of no or another id, breaks the
      protocol; one that cannot be read is an I/O error. */
  predicate Means(line: Line, id: nat, outcome: Outcome) {
    if line.Unreadable? then outcome == IoError
    else if line.NotJson? then outcome == ProtocolError
    else line.Message? && if line.id == Numeric(id) then Tells(line.body, outcome) else outcome == ProtocolError
  }

  lemma BodyTells(body: Body)
    ensures Tells(body, OutcomeOf(body))
    ensures forall outcome :: Tells(body, outcome) ==> outcome == OutcomeOf(body)
  {}

  lemma LineMeans(line: Line, id: nat)
    ensures IsSkipped(line) <==> IsSilent(line)
    ensures !IsSkipped(line) ==> Means(line, id, Judge(line, id))
  {
    if line.Message? { BodyTells(line.body); }
  }

  /** The first line that is not silent. */
  predicate IsFirst(lines: seq<Line>, k: nat) {
    k < |lines| && !IsSilent(lines[k]) && forall j :: 0 <= j < k ==> IsSilent(lines[j])
  }

  /** Read lines until one is not silent. Returns how many were consumed. */
  method ReadResponse(lines: seq<Line>, expected: nat) returns (outcome: Outcome, consumed: nat)
    ensures if forall k :: 0 <= k < |lines| ==> IsSilent(lines[k])
            then outcome == IoError && consumed == |lines|
            else consumed > 0 && IsFirst(lines, consumed - 1) && Means(lines[consumed - 1], expected, outcome)
    ensures outcome.Ok? || outcome.Failed? ==>
      && consumed > 0 && consumed <= |lines| && lines[consumed - 1].Message?
      && lines[consumed - 1].id == Numeric(expected) && Tells(lines[consumed - 1].body, outcome)
  {
    consumed := 0;
    while consumed < |lines|
      invariant consumed <= |lines| && forall k :: 0 <= k < consumed ==> IsSilent(lines[k])
    {
      var line := lines[consumed];
      consumed := consumed + 1;
      if line.Unreadable? { return IoError, consumed; }
      if line.Blank? { continue; }
      if line.NotJson? { return ProtocolError, consumed; }
      if line.id.NoId? && line.hasMethod { continue; }
      if !line.id.Numeric? { return ProtocolError, consumed; }
      if line.id.n != expected { return ProtocolError, consumed; }
      match line.body
      case ServerError(code) => return Failed(code), consumed;
      case Result(v) => return Ok(Some(v)), consumed;
      case Neither => return Ok(None), consumed;
    }
    return IoError, consumed;
  }

  // ----- callers, the pipes and the server -----

  datatype Pc =
    | Fresh
    | Minted(id: nat)
    | Holding(id: nat)
    | Reading(id: nat, skipped: seq<Line>)
    | Done(id: nat, outcome: Outcome)

  /** requests and replies are histories: the ids written to the server in order, and
      the bodies it answered with; unread is what the server wrote and no one read. */
  datatype World = World(
    nextId: nat,
    holder: Option<nat>,
    pcs: seq<Pc>,
    requests: seq<nat>,
    replies: seq<Body>,
    unread: seq<Line>,
    closed: bool)

  datatype Label =
    | Mint(i: nat)
    | Lock(i: nat)
    | Write(i: nat)
    | WriteFails(i: nat)
    | ReadLine(i: nat)
    | ReadEof(i: nat)
    | ReadFails(i: nat)
    | Close
    | Reply(body: Body, hasMethod: bool)
    | Noise(line: Line)
    | Stray(line: Line)

  /** A server that answers each request line once, in order, and otherwise writes only
      blank lines and notifications never takes a Stray step. */
  predicate Enabled(w: World, l: Label) {
    match l
    case Mint(i) => i < |w.pcs| && w.pcs[i] == Fresh
    case Lock(i) => i < |w.pcs| && w.pcs[i].Minted? && w.holder == None
    case Write(i) => i < |w.pcs| && w.pcs[i].Holding?
    case WriteFails(i) => i < |w.pcs| && w.pcs[i].Holding?
    case ReadLine(i) => i < |w.pcs| && w.pcs[i].Reading? && w.unread != []
    case ReadEof(i) => i < |w.pcs| && w.pcs[i].Reading? && w.unread == [] && w.closed
    case ReadFails(i) => i < |w.pcs| && w.pcs[i].Reading?
    case Close => true
    case Reply(_, _) => !w.closed && |w.replies| < |w.requests|
    case Noise(line) => !w.closed && IsSkipped(line)
    case Stray(_) => !w.closed
  }

  function Next(w: World, l: Label): World
    requires Enabled(w, l)
  {
    match l
    case Mint(i) => w.(nextId := w.nextId + 1, pcs := w.pcs[i := Minted(w.nextId)])
    case Lock(i) => w.(holder := Some(i), pcs := w.pcs[i := Holding(w.pcs[i].id)])
    case Write(i) => w.(requests := w.requests + [w.pcs[i].id], pcs := w.pcs[i := Reading(w.pcs[i].id, [])])
    case WriteFails(i) => w.(holder := None, pcs := w.pcs[i := Done(w.pcs[i].id, IoError)])
    case ReadLine(i) =>
      var line, rest := w.unread[0], w.unread[1..];
      var pc := w.pcs[i];
      if IsSkipped(line) then w.(unread := rest, pcs := w.pcs[i := Reading(pc.id, pc.skipped + [line])])
      else w.(unread := rest, holder := None, pcs := w.pcs[i := Done(pc.id, Judge(line, pc.id))])
    case ReadEof(i) => w.(holder := None, pcs := w.pcs[i := Done(w.pcs[i].id, IoError)])
    case ReadFails(i) => w.(holder := None, pcs := w.pcs[i := Done(w.pcs[i].id, IoError)])
    case Close => w.(closed := true)
    case Reply(body, hasMethod) =>
      w.(unread := w.unread + [Message(Numeric(w.requests[|w.replies|]), hasMethod, body)],
         replies := w.replies + [body])
    case Noise(line) => w.(unread := w.unread + [line])
    case Stray(line) => w.(unread := w.unread + [line])
  }

  function Init(n: nat): World {
    World(1, None, seq(n, _ => Fresh), [], [], [], false)
  }

  ghost predicate IsRun(n: nat, ls: seq<Label>, ws: seq<World>) {
    && |ws| == |ls| + 1 && ws[0] == Init(n)
    && forall k :: 0 <= k < |ls| ==> Enabled(ws[k], ls[k]) && ws[k + 1] == Next(ws[k], ls[k])
  }

  /** No two calls share an id. */
  ghost predicate IdsUnique(w: World) {
    && (forall i :: 0 <= i < |w.pcs| && !w.pcs[i].Fresh? ==> w.pcs[i].id < w.nextId)
    && (forall i, j :: 0 <= i < j < |w.pcs| && !w.pcs[i].Fresh? && !w.pcs[j].Fresh? ==> w.pcs[i].id != w.pcs[j].id)
  }

  /** The pipe has one user, who has skipped only what is skipped. */
  ghost predicate OneUser(w: World) {
    && (forall i :: 0 <= i < |w.pcs| ==> (w.holder == Some(i) <==> w.pcs[i].Holding? || w.pcs[i].Reading?))
    && (w.holder.Some? ==> w.holder.value < |w.pcs|)
    && (forall i :: 0 <= i < |w.pcs| && w.pcs[i].Reading? ==>
      forall k :: 0 <= k < |w.pcs[i].skipped| ==> IsSkipped(w.pcs[i].skipped[k]))
  }

  ghost predicate Orderly(w: World) { IdsUnique(w) && OneUser(w) }

  lemma IdsUniqueStep(w: World, l: Label)
    requires IdsUnique(w) && Enabled(w, l)
    ensures IdsUnique(Next(w, l))
  {
    if l.Mint? { IdsUniqueMint(w, l.i); } else { IdsUniqueKept(w, Next(w, l)); }
  }

  lemma IdsUniqueMint(w: World, i: nat)
    requires IdsUnique(w) && Enabled(w, Mint(i))
    ensures IdsUnique(Next(w, Mint(i)))
  {}

  lemma IdsUniqueKept(w: World, w': World)
    requires IdsUnique(w) && w'.nextId == w.nextId && |w'.pcs| == |w.pcs|
    requires forall i :: 0 <= i < |w.pcs| && !w'.pcs[i].Fresh? ==> !w.pcs[i].Fresh? && w'.pcs[i].id == w.pcs[i].id
    ensures IdsUnique(w')
  {}

  lemma OneUserStep(w: World, l: Label)
    requires OneUser(w) && Enabled(w, l)
    ensures OneUser(Next(w, l))
  {}

  lemma OrderlyStep(w: World, l: Label)
    requires Orderly(w) && Enabled(w, l)
    ensures Orderly(Next(w, l))
  {
    IdsUniqueStep(w, l);
    OneUserStep(w, l);
  }

  lemma {:induction false} OrderlyRun(n: nat, ls: seq<Label>, ws: seq<World>, k: nat)
    requires IsRun(n, ls, ws) && k <= |ls|
    ensures Orderly(ws[k])
    decreases k
  {
    if k > 0 {
      OrderlyRun(n, ls, ws, k - 1);
      OrderlyStep(ws[k - 1], ls[k - 1]);
    }
  }

  /** Over every interleaving and against any server: no two calls share an id, and a
      call that returns a result or a server error has just read it from a line with
      its own id, having skipped only blank lines and notifications. */
  lemma CorrelatedById(n: nat, ls: seq<Label>, ws: seq<World>, k: nat, i: nat)
    requires IsRun(n, ls, ws) && k < |ls| && i < |ws[k].pcs| && |ws[k + 1].pcs| == |ws[k].pcs|
    requires !ws[k].pcs[i].Done? && ws[k + 1].pcs[i].Done?
    requires ws[k + 1].pcs[i].outcome.Ok? || ws[k + 1].pcs[i].outcome.Failed?
    ensures var pc, pc' := ws[k].pcs[i], ws[k + 1].pcs[i];
      && ls[k] == ReadLine(i) && pc.Reading? && ws[k].unread != [] && pc'.id == pc.id
      && ws[k].unread[0].Message? && ws[k].unread[0].id == Numeric(pc.id)
      && Tells(ws[k].unread[0].body, pc'.outcome)
      && (forall m :: 0 <= m < |pc.skipped| ==> IsSilent(pc.skipped[m]))
      && (forall j :: 0 <= j < |ws[k].pcs| && j != i && !ws[k].pcs[j].Fresh? ==> ws[k].pcs[j].id != pc.id)
  {
    OrderlyRun(n, ls, ws, k);
    assert ws[k + 1] == Next(ws[k], ls[k]);
  }

  // ----- a server that answers in order -----

  /** The lines not skipped. */
  function Responses(lines: seq<Line>): seq<Line> {
    if lines == [] then []
    else (if IsSkipped(lines[0]) then [] else [lines[0]]) + Responses(lines[1..])
  }

  lemma {:induction false} ResponsesAppend(lines: seq<Line>, line: Line)
    ensures Responses(lines + [line]) == Responses(lines) + if IsSkipped(line) then [] else [line]
  {
    if lines == [] {
      assert lines + [line] == [line];
    } else {
      assert (lines + [line])[1..] == lines[1..] + [line];
      ResponsesAppend(lines[1..], line);
      Regroup(if IsSkipped(lines[0]) then [] else [lines[0]], Responses(lines[1..]),
              if IsSkipped(line) then [] else [line]);
    }
  }

  predicate IsReply(line: Line, id: nat, body: Body) {
    line.Message? && line.id == Numeric(id) && line.body == body
  }

  /** How many requests the first k steps left without reading their answer. */
  function FailedReads(ls: seq<Label>, k: nat): nat
    requires k <= |ls|
  {
    if k == 0 then 0 else FailedReads(ls, k - 1) + if ls[k - 1].ReadFails? then 1 else 0
  }

  /** How many answers were read. */
  function Taken(w: World): int { |w.replies| - |Responses(w.unread)| }

  predicate IsOpen(w: World) {
    w.holder.Some? && w.holder.value < |w.pcs| && w.pcs[w.holder.value].Reading?
  }

  /** The unread responses are the answers not yet taken, in the order of the requests. */
  ghost predicate DueInOrder(unread: seq<Line>, requests: seq<nat>, replies: seq<Body>) {
    var due := Responses(unread);
    && |due| <= |replies| <= |requests|
    && forall k :: 0 <= k < |due| ==>
      IsReply(due[k], requests[|replies| - |due| + k], replies[|replies| - |due| + k])
  }

  ghost predicate InOrder(w: World) {
    DueInOrder(w.unread, w.requests, w.replies)
  }

  /** Every request was answered to its caller, given up unread, or is open; the open one
      is the last. Once the pipe is closed and drained nothing more is read from it. */
  ghost predicate Accounted(w: World, failed: nat) {
    && (IsOpen(w) ==> w.requests != [] && w.requests[|w.requests| - 1] == w.pcs[w.holder.value].id)
    && (Taken(w) + failed + (if IsOpen(w) then 1 else 0) == |w.requests| || (w.closed && w.unread == []))
  }

  predicate Unsent(w: World, id: nat) {
    forall r :: 0 <= r < |w.requests| ==> w.requests[r] != id
  }

  /** An id is on the wire once, and only once its caller has written it. */
  ghost predicate SentOnce(w: World) {
    && (forall r :: 0 <= r < |w.requests| ==> w.requests[r] < w.nextId)
    && (forall r, q :: 0 <= r < q < |w.requests| ==> w.requests[r] != w.requests[q])
    && (forall i :: 0 <= i < |w.pcs| && (w.pcs[i].Minted? || w.pcs[i].Holding?) ==> Unsent(w, w.pcs[i].id))
  }

  lemma SentOnceKeeps(w: World, l: Label)
    requires Orderly(w) && SentOnce(w) && Enabled(w, l)
    ensures SentOnce(Next(w, l))
  {
    if l.Mint? {
      SentOnceMint(w, l.i);
    } else if l.Write? {
      SentOnceWrite(w, l.i);
    } else {
      SentOnceKept(w, Next(w, l));
    }
  }

  lemma SentOnceMint(w: World, i: nat)
    requires SentOnce(w) && Enabled(w, Mint(i))
    ensures SentOnce(Next(w, Mint(i)))
  {}

  lemma SentOnceWrite(w: World, i: nat)
    requires Orderly(w) && SentOnce(w) && Enabled(w, Write(i))
    ensures SentOnce(Next(w, Write(i)))
  {}

  lemma SentOnceKept(w: World, w': World)
    requires SentOnce(w) && w'.requests == w.requests && w'.nextId == w.nextId && |w'.pcs| == |w.pcs|
    requires forall i :: 0 <= i < |w.pcs| && (w'.pcs[i].Minted? || w'.pcs[i].Holding?) ==>
      (w.pcs[i].Minted? || w.pcs[i].Holding?) && w'.pcs[i].id == w.pcs[i].id
    ensures SentOnce(w')
  {}

  lemma InOrderKeeps(w: World, l: Label)
    requires InOrder(w) && Enabled(w, l) && !l.Stray?
    ensures InOrder(Next(w, l))
  {
    match l
    case Reply(body, hasMethod) =>
      InOrderReply(w.unread, w.requests, w.replies, Message(Numeric(w.requests[|w.replies|]), hasMethod, body));
    case Noise(line) => ResponsesAppend(w.unread, line);
    case ReadLine(_) => InOrderRead(w.unread, w.requests, w.replies, w.unread[0], w.unread[1..]);
    case Write(i) => InOrderWrite(w.unread, w.requests, w.replies, w.pcs[i].id);
    case _ =>
  }

  lemma InOrderWrite(unread: seq<Line>, requests: seq<nat>, replies: seq<Body>, id: nat)
    requires DueInOrder(unread, requests, replies)
    ensures DueInOrder(unread, requests + [id], replies)
  {}

  lemma InOrderReply(unread: seq<Line>, requests: seq<nat>, replies: seq<Body>, line: Line)
    requires DueInOrder(unread, requests, replies) && |replies| < |requests|
    requires line.Message? && line.id == Numeric(requests[|replies|])
    ensures DueInOrder(unread + [line], requests, replies + [line.body])
  {
    ResponsesAppend(unread, line);
  }

  lemma InOrderRead(unread: seq<Line>, requests: seq<nat>, replies: seq<Body>, line: Line, rest: seq<Line>)
    requires DueInOrder(unread, requests, replies) && unread != [] && line == unread[0] && rest == unread[1..]
    ensures DueInOrder(rest, requests, replies)
  {
    var due, left := Responses(unread), Responses(rest);
    if IsSkipped(line) {
      assert due == [] + left == left;
    } else {
      assert due == [line] + left;
      var taken := |replies| - |left|;
      forall k | 0 <= k < |left| ensures IsReply(left[k], requests[taken + k], replies[taken + k]) {
        assert left[k] == due[k + 1];
      }
    }
  }

  lemma AccountedKeeps(w: World, l: Label, failed: nat)
    requires OneUser(w) && InOrder(w) && Accounted(w, failed) && Enabled(w, l) && !l.Stray?
    ensures Accounted(Next(w, l), failed + if l.ReadFails? then 1 else 0)
  {
    if l.Reply? {
      ResponsesAppend(w.unread, Message(Numeric(w.requests[|w.replies|]), l.hasMethod, l.body));
    } else if l.Noise? {
      ResponsesAppend(w.unread, l.line);
    }
  }

  /** Against a server that answers each request line once, in order, what a run keeps. */
  ghost predicate InStep(w: World, failed: nat) {
    Orderly(w) && SentOnce(w) && InOrder(w) && Accounted(w, failed)
  }

  lemma {:induction false} InStepRun(n: nat, ls: seq<Label>, ws: seq<World>, k: nat)
    requires IsRun(n, ls, ws) && k <= |ls|
    requires forall m :: 0 <= m < |ls| ==> !ls[m].Stray?
    ensures InStep(ws[k], FailedReads(ls, k))
    decreases k
  {
    if k > 0 {
      InStepRun(n, ls, ws, k - 1);
      OrderlyStep(ws[k - 1], ls[k - 1]);
      SentOnceKeeps(ws[k - 1], ls[k - 1]);
      InOrderKeeps(ws[k - 1], ls[k - 1]);
      AccountedKeeps(ws[k - 1], ls[k - 1], FailedReads(ls, k - 1));
    }
  }

  /** The answer to the last request, which is this call's own. */
  predicate IsOwnReply(w: World, id: nat, outcome: Outcome) {
    && 0 < |w.requests| == |w.replies| && w.requests[|w.requests| - 1] == id
    && Tells(w.replies[|w.replies| - 1], outcome)
  }

  lemma ReadsNextAnswer(w: World, i: nat, failed: nat)
    requires InStep(w, failed) && Enabled(w, ReadLine(i)) && !IsSkipped(w.unread[0])
    ensures var outcome := Judge(w.unread[0], w.pcs[i].id);
      if failed == 0 then IsOwnReply(w, w.pcs[i].id, outcome) else outcome == ProtocolError
  {
    assert w.holder == Some(i) && IsOpen(w);
    assert w.unread[0] == Responses(w.unread)[0];
    assert Taken(w) + failed + 1 == |w.requests|;
  }

  /** Against a server that answers each request line once, in order, whatever the
      interleaving: a call that reads an answer gets its own if and only if no read
      failed before it in the whole run, and otherwise a protocol error. */
  lemma AnswersExactly(n: nat, ls: seq<Label>, ws: seq<World>, k: nat, i: nat)
    requires IsRun(n, ls, ws) && k < |ls| && ls[k] == ReadLine(i)
    requires forall m :: 0 <= m < |ls| ==> !ls[m].Stray?
    requires ws[k].unread != [] && !IsSilent(ws[k].unread[0])
    ensures i < |ws[k + 1].pcs| && ws[k + 1].pcs[i].Done?
    ensures var pc := ws[k + 1].pcs[i];
      && (IsOwnReply(ws[k], pc.id, pc.outcome) <==> FailedReads(ls, k) == 0)
      && (pc.outcome == ProtocolError <==> FailedReads(ls, k) > 0)
  {
    InStepRun(n, ls, ws, k);
    LineMeans(ws[k].unread[0], 0);
    assert Enabled(ws[k], ls[k]) && ws[k + 1] == Next(ws[k], ls[k]);
    ReadsNextAnswer(ws[k], i, FailedReads(ls, k));
  }

  /** A finished call holds the server's answer to its own request. */
  ghost predicate OwnAnswer(w: World, i: nat)
    requires i < |w.pcs| && w.pcs[i].Done?
  {
    exists r :: 0 <= r < |w.requests| && r < |w.replies|
      && w.requests[r] == w.pcs[i].id && Tells(w.replies[r], w.pcs[i].outcome)
  }

  /** How a finished call ended, after steps of which this many failed to read. */
  ghost predicate EndedWell(w: World, i: nat, ls: seq<Label>, k: nat)
    requires i < |w.pcs| && w.pcs[i].Done? && k <= |ls|
  {
    || OwnAnswer(w, i)
    || (w.pcs[i].outcome == IoError && (w.closed || Unsent(w, w.pcs[i].id)))
    || (w.pcs[i].outcome == IoError && ReadFails(i) in ls[..k])
    || (w.pcs[i].outcome == ProtocolError && FailedReads(ls, k) > 0)
  }

  lemma {:induction false} EndedWellKeeps(w: World, l: Label, i: nat, ls: seq<Label>, k: nat)
    requires k < |ls| && ls[k] == l && InStep(w, FailedReads(ls, k)) && Enabled(w, l) && !l.Stray?
    requires i < |w.pcs| && (w.pcs[i].Done? ==> EndedWell(w, i, ls, k))
    ensures i < |Next(w, l).pcs|
    ensures Next(w, l).pcs[i].Done? ==> EndedWell(Next(w, l), i, ls, k + 1)
  {
    if w.pcs[i].Done? {
      assert ls[..k + 1] == ls[..k] + [l];
      OwnAnswerStays(w, l, i);
    } else if Next(w, l).pcs[i].Done? {
      Ends(w, l, i, ls, k);
    }
  }

  lemma {:induction false} Ends(w: World, l: Label, i: nat, ls: seq<Label>, k: nat)
    requires k < |ls| && ls[k] == l && InStep(w, FailedReads(ls, k)) && Enabled(w, l)
    requires i < |w.pcs| && !w.pcs[i].Done? && i < |Next(w, l).pcs| && Next(w, l).pcs[i].Done?
    ensures EndedWell(Next(w, l), i, ls, k + 1)
  {
    if l.ReadLine? {
      ReadsNextAnswer(w, i, FailedReads(ls, k));
      if FailedReads(ls, k) == 0 { OwnReplyIsAnswer(w, Next(w, l), i); }
    } else if l.ReadFails? {
      assert ls[..k + 1][k] == l;
    }
  }

  lemma OwnReplyIsAnswer(w: World, w': World, i: nat)
    requires i < |w'.pcs| && w'.pcs[i].Done? && w'.requests == w.requests && w'.replies == w.replies
    requires IsOwnReply(w, w'.pcs[i].id, w'.pcs[i].outcome)
    ensures OwnAnswer(w', i)
  {
    var r := |w.requests| - 1;
    assert w'.requests[r] == w'.pcs[i].id && Tells(w'.replies[r], w'.pcs[i].outcome);
  }

  lemma OwnAnswerStays(w: World, l: Label, i: nat)
    requires Orderly(w) && Enabled(w, l) && i < |w.pcs| && w.pcs[i].Done?
    ensures var w' := Next(w, l);
      && w'.pcs[i] == w.pcs[i] && (w.closed ==> w'.closed)
      && (OwnAnswer(w, i) ==> OwnAnswer(w', i))
      && (Unsent(w, w.pcs[i].id) ==> Unsent(w', w.pcs[i].id))
  {
    var w' := Next(w, l);
    if OwnAnswer(w, i) {
      var r :| 0 <= r < |w.requests| && r < |w.replies|
        && w.requests[r] == w.pcs[i].id && Tells(w.replies[r], w.pcs[i].outcome);
      assert w'.requests[r] == w.requests[r] && w'.replies[r] == w.replies[r];
    }
  }

  /** Against such a server, at every point of every run, every finished call has the
      answer to its own request, or an I/O error because the request never reached the
      server, the server closed the pipe or its own read failed, or a protocol error
      because some read had failed. */
  lemma {:induction false} EveryCallerGetsItsAnswer(n: nat, ls: seq<Label>, ws: seq<World>, k: nat, i: nat)
    requires IsRun(n, ls, ws) && k <= |ls| && i < n
    requires forall m :: 0 <= m < |ls| ==> !ls[m].Stray?
    ensures i < |ws[k].pcs| && (ws[k].pcs[i].Done? ==> EndedWell(ws[k], i, ls, k))
    decreases k
  {
    if k > 0 {
      EveryCallerGetsItsAnswer(n, ls, ws, k - 1, i);
      InStepRun(n, ls, ws, k - 1);
      EndedWellKeeps(ws[k - 1], ls[k - 1], i, ls, k - 1);
    }
  }

  lemma Extended(n: nat, ls: seq<Label>, ws: seq<World>, l: Label) returns (ws': seq<World>)
    requires IsRun(n, ls, ws) && Enabled(ws[|ls|], l)
    ensures IsRun(n, ls + [l], ws') && ws' == ws + [Next(ws[|ls|], l)]
  {
    ws' := ws + [Next(ws[|ls|], l)];
    assert forall k :: 0 <= k < |ls| ==> (ls + [l])[k] == ls[k];
  }

  /** An answer left on the pipe: the first call's read fails, and the second reads what
      the first was due. */
  lemma LeftoverAnswer(body: Body) returns (ls: seq<Label>, ws: seq<World>)
    ensures IsRun(2, ls, ws) && ReadFails(0) in ls && forall l <- ls :: !l.Stray?
    ensures ws[|ls|].pcs == [Done(1, IoError), Done(2, ProtocolError)]
  {
    var line := Message(Numeric(1), false, body);
    ls, ws := FirstGivesUp(body);
    ws := Extended(2, ls, ws, Mint(1));
    ls := ls + [Mint(1)];
    ws := Extended(2, ls, ws, Lock(1));
    ls := ls + [Lock(1)];
    assert ws[|ls|] == World(3, Some(1), [Done(1, IoError), Holding(2)], [1], [body], [line], false);
    ws := Extended(2, ls, ws, Write(1));
    ls := ls + [Write(1)];
    ws := Extended(2, ls, ws, ReadLine(1));
    ls := ls + [ReadLine(1)];
  }

  lemma FirstGivesUp(body: Body) returns (ls: seq<Label>, ws: seq<World>)
    ensures IsRun(2, ls, ws) && ReadFails(0) in ls && forall l <- ls :: !l.Stray?
    ensures ws[|ls|] ==
      World(2, None, [Done(1, IoError), Fresh], [1], [body], [Message(Numeric(1), false, body)], false)
  {
    ls, ws := FirstWrites();
    ws := Extended(2, ls, ws, ReadFails(0));
    ls := ls + [ReadFails(0)];
    assert ls[3] == ReadFails(0);
    ws := Extended(2, ls, ws, Reply(body, false));
    ls := ls + [Reply(body, false)];
  }

  lemma FirstWrites() returns (ls: seq<Label>, ws: seq<World>)
    ensures IsRun(2, ls, ws) && |ls| == 3 && forall l <- ls :: !l.Stray?
    ensures ws[|ls|] == World(2, Some(0), [Reading(1, []), Fresh], [1], [], [], false)
  {
    ls, ws := [], [Init(2)];
    ws := Extended(2, ls, ws, Mint(0));
    ls := ls + [Mint(0)];
    ws := Extended(2, ls, ws, Lock(0));
    ls := ls + [Lock(0)];
    assert ws[|ls|] == World(2, Some(0), [Holding(1), Fresh], [], [], [], false);
    ws := Extended(2, ls, ws, Write(0));
    ls := ls + [Write(0)];
  }
}
