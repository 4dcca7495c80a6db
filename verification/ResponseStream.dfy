/** Adapting a finished response into stream events, and joining the events back. */
module ResponseStream {
  import opened Numerals
  import opened Options

  datatype Item = Text(text: string) | Reasoning(text: string) | ToolCall(id: string, name: string, input: int)

  datatype Response = Response(output: seq<Item>, usage: int)

  datatype Event =
    | StepStart
    | TextStart(id: string)
    | TextDelta(id: string, text: string)
    | TextEnd(id: string)
    | ReasoningStart(id: string)
    | ReasoningDelta(id: string, text: string)
    | ReasoningEnd(id: string)
    | CallTool(id: string, name: string, input: int)
    | StepFinish
    | Finish(usage: int)

  function TextId(n: nat): string { "text-" + Decimal(n) }

  function ReasonId(n: nat): string { "reason-" + Decimal(n) }

  // ----- joining the deltas by block id -----

  function DeltaText(e: Event, id: string): string {
    if (e.TextDelta? || e.ReasoningDelta?) && e.id == id then e.text else ""
  }

  /** The deltas of one block, wherever they stand. */
  function Joined(events: seq<Event>, id: string): string {
    if events == [] then "" else DeltaText(events[0], id) + Joined(events[1..], id)
  }

  /** One item for each block start or tool call, in order, its text joined from all
      the deltas that carry its id. */
  function Items(events: seq<Event>, all: seq<Event>): seq<Item> {
    if events == [] then []
    else
      (match events[0]
       case TextStart(id) => [Text(Joined(all, id))]
       case ReasoningStart(id) => [Reasoning(Joined(all, id))]
       case CallTool(id, name, input) => [ToolCall(id, name, input)]
       case _ => [])
      + Items(events[1..], all)
  }

  // ----- what is streamed -----

  function Chunks(id: string, text: string): seq<Event>
    decreases |text|
  {
    if |text| <= 4 then if text == "" then [] else [TextDelta(id, text)]
    else [TextDelta(id, text[..4])] + Chunks(id, text[4..])
  }

  /** The events of one item; n numbers the text and reasoning blocks. */
  function Block(item: Item, n: nat): seq<Event> {
    match item
    case Text(text) => [TextStart(TextId(n))] + Chunks(TextId(n), text) + [TextEnd(TextId(n))]
    case Reasoning(text) => [ReasoningStart(ReasonId(n)), ReasoningDelta(ReasonId(n), text), ReasoningEnd(ReasonId(n))]
    case ToolCall(id, name, input) => [CallTool(id, name, input)]
  }

  function Numbered(item: Item): nat { if item.ToolCall? then 0 else 1 }

  function BlockCount(items: seq<Item>): nat {
    if items == [] then 0 else BlockCount(items[..|items| - 1]) + Numbered(items[|items| - 1])
  }

  function Blocks(items: seq<Item>): seq<Event> {
    if items == [] then []
    else
      var front := items[..|items| - 1];
      Blocks(front) + Block(items[|items| - 1], BlockCount(front))
  }

  function Opened(items: seq<Item>): seq<Event> { [StepStart] + Blocks(items) }

  function Stream(r: Response): seq<Event> {
    Opened(r.output) + [StepFinish, Finish(r.usage)]
  }

  method StreamFromResponse(r: Response) returns (events: seq<Event>)
    ensures events == Stream(r)
  {
    events := [StepStart];
    var n := 0;
    for i := 0 to |r.output|
      invariant events == Opened(r.output[..i]) && n == BlockCount(r.output[..i])
    {
      OpenedStep(r.output, i);
      var block := StreamItem(r.output[i], n);
      n := n + Numbered(r.output[i]);
      events := events + block;
    }
    assert r.output[..|r.output|] == r.output;
    events := events + [StepFinish, Finish(r.usage)];
  }

  lemma OpenedStep(items: seq<Item>, i: nat)
    requires i < |items|
    ensures Opened(items[..i + 1]) == Opened(items[..i]) + Block(items[i], BlockCount(items[..i]))
    ensures BlockCount(items[..i + 1]) == BlockCount(items[..i]) + Numbered(items[i])
  {
    assert items[..i + 1][..i] == items[..i];
  }

  /** The events of one item, with the counter where the item finds it. */
  method StreamItem(item: Item, n: nat) returns (events: seq<Event>)
    ensures events == Block(item, n)
  {
    match item
    case Text(text) =>
      var id := TextId(n);
      events := [TextStart(id)];
      var deltas := StreamText(id, text);
      events := events + deltas;
      events := events + [TextEnd(id)];
    case Reasoning(text) =>
      var id := ReasonId(n);
      events := [ReasoningStart(id)];
      events := events + [ReasoningDelta(id, text)];
      events := events + [ReasoningEnd(id)];
    case ToolCall(id, name, input) =>
      events := [CallTool(id, name, input)];
  }

  /** Take four characters at a time until none is left. */
  method StreamText(id: string, text: string) returns (deltas: seq<Event>)
    ensures deltas == Chunks(id, text)
  {
    deltas := [];
    var rest := text;
    while rest != ""
      invariant deltas + Chunks(id, rest) == Chunks(id, text)
      decreases |rest|
    {
      var chunk := if |rest| < 4 then rest else rest[..4];
      assert |rest| == 4 ==> rest[..4] == rest;
      deltas := deltas + [TextDelta(id, chunk)];
      rest := rest[|chunk|..];
    }
  }

  // ----- the round trip -----

  lemma {:induction false} JoinedConcat(a: seq<Event>, b: seq<Event>, id: string)
    ensures Joined(a + b, id) == Joined(a, id) + Joined(b, id)
    decreases |a|
  {
    if a == [] {
      assert a + b == b;
    } else {
      assert (a + b)[1..] == a[1..] + b;
      JoinedConcat(a[1..], b, id);
    }
  }

  lemma {:induction false} ItemsConcat(a: seq<Event>, b: seq<Event>, all: seq<Event>)
    ensures Items(a + b, all) == Items(a, all) + Items(b, all)
    decreases |a|
  {
    if a == [] {
      assert a + b == b;
    } else {
      assert (a + b)[1..] == a[1..] + b;
      ItemsConcat(a[1..], b, all);
    }
  }

  lemma {:induction false} ChunksJoin(id: string, text: string, other: string)
    ensures Joined(Chunks(id, text), other) == if other == id then text else ""
    ensures forall e <- Chunks(id, text) :: e.TextDelta? && e.id == id && 1 <= |e.text| <= 4
    decreases |text|
  {
    if |text| > 4 {
      ChunksJoin(id, text[4..], other);
      JoinedConcat([TextDelta(id, text[..4])], Chunks(id, text[4..]), other);
      assert text == text[..4] + text[4..];
    }
  }

  lemma {:induction false} ChunksHoldNoItem(id: string, text: string, all: seq<Event>)
    ensures Items(Chunks(id, text), all) == []
    decreases |text|
  {
    if |text| > 4 { ChunksHoldNoItem(id, text[4..], all); }
  }

  /** Block ids are never shared: not by two numbers, not by text and reasoning. */
  lemma IdsDiffer(n: nat, m: nat)
    ensures TextId(n) != ReasonId(m)
    ensures n != m ==> TextId(n) != TextId(m) && ReasonId(n) != ReasonId(m)
  {
    assert TextId(n)[0] == 't' && ReasonId(m)[0] == 'r';
    DecimalInjective(n, m);
    assert TextId(n)[5..] == Decimal(n) && TextId(m)[5..] == Decimal(m);
    assert ReasonId(n)[7..] == Decimal(n) && ReasonId(m)[7..] == Decimal(m);
  }

  function IdOf(item: Item, n: nat): string { if item.Text? then TextId(n) else ReasonId(n) }

  lemma JoinedOne(e: Event, id: string)
    ensures Joined([e], id) == DeltaText(e, id)
  {}

  lemma TextJoins(text: string, t: string, id: string)
    ensures Joined([TextStart(t)] + Chunks(t, text) + [TextEnd(t)], id) == if id == t then text else ""
  {
    var deltas := Chunks(t, text);
    var open := [TextStart(t)] + deltas;
    JoinedOne(TextStart(t), id);
    JoinedOne(TextEnd(t), id);
    ChunksJoin(t, text, id);
    JoinedConcat([TextStart(t)], deltas, id);
    JoinedConcat(open, [TextEnd(t)], id);
  }

  lemma ReasoningJoins(text: string, t: string, id: string)
    ensures Joined([ReasoningStart(t), ReasoningDelta(t, text), ReasoningEnd(t)], id) == if id == t then text else ""
  {
    assert Joined([ReasoningEnd(t)], id) == "";
    var es := [ReasoningStart(t), ReasoningDelta(t, text), ReasoningEnd(t)];
    assert es[1..] == [ReasoningDelta(t, text), ReasoningEnd(t)] && es[1..][1..] == [ReasoningEnd(t)];
  }

  lemma BlockJoins(item: Item, n: nat, id: string)
    ensures Joined(Block(item, n), id) == if !item.ToolCall? && id == IdOf(item, n) then item.text else ""
  {
    match item
    case Text(text) => TextJoins(text, TextId(n), id);
    case Reasoning(text) => ReasoningJoins(text, ReasonId(n), id);
    case ToolCall(_, _, _) =>
  }

  /** The items of a prefix number their blocks below its count, so an id of a later
      block joins nothing from them. */
  lemma {:induction false} PrefixJoinsNothing(items: seq<Item>, n: nat)
    requires n >= BlockCount(items)
    ensures Joined(Blocks(items), TextId(n)) == "" && Joined(Blocks(items), ReasonId(n)) == ""
  {
    if items != [] {
      var front, last := items[..|items| - 1], items[|items| - 1];
      var k := BlockCount(front);
      PrefixJoinsNothing(front, n);
      BlockJoins(last, k, TextId(n));
      BlockJoins(last, k, ReasonId(n));
      IdsDiffer(n, k);
      IdsDiffer(k, n);
      JoinedConcat(Blocks(front), Block(last, k), TextId(n));
      JoinedConcat(Blocks(front), Block(last, k), ReasonId(n));
    }
  }

  /** The block of item k is the only one whose deltas carry its id. */
  lemma {:induction false} JoinedIsText(items: seq<Item>, k: nat)
    requires k < |items| && !items[k].ToolCall?
    ensures Joined(Blocks(items), IdOf(items[k], BlockCount(items[..k]))) == items[k].text
    decreases |items|
  {
    var front, last := items[..|items| - 1], items[|items| - 1];
    var n, m := BlockCount(items[..k]), BlockCount(front);
    var id := IdOf(items[k], n);
    JoinedConcat(Blocks(front), Block(last, m), id);
    BlockJoins(last, m, id);
    if k == |front| {
      assert items[..k] == front;
      PrefixJoinsNothing(front, n);
    } else {
      assert items[..k] == front[..k];
      JoinedIsText(front, k);
      CountGrows(front, k);
      IdsDiffer(n, m);
      IdsDiffer(m, n);
    }
  }

  lemma {:induction false} CountGrows(items: seq<Item>, k: nat)
    requires k < |items| && !items[k].ToolCall?
    ensures BlockCount(items[..k]) < BlockCount(items)
    decreases |items|
  {
    var front := items[..|items| - 1];
    if k == |front| {
      assert items[..k] == front;
    } else {
      assert items[..k] == front[..k];
      CountGrows(front, k);
    }
  }

  lemma {:induction false} ItemsOfBlocks(items: seq<Item>, k: nat, all: seq<Event>)
    requires k <= |items|
    requires forall id :: Joined(all, id) == Joined(Blocks(items), id)
    ensures Items(Blocks(items[..k]), all) == items[..k]
    decreases k
  {
    if k > 0 {
      var front, last := items[..k - 1], items[k - 1];
      assert items[..k][..k - 1] == front && items[..k] == front + [last];
      ItemsOfBlocks(items, k - 1, all);
      ItemsConcat(Blocks(front), Block(last, BlockCount(front)), all);
      if !last.ToolCall? { JoinedIsText(items, k - 1); }
      ItemOfBlock(last, BlockCount(front), all);
    }
  }

  lemma ItemOfBlock(item: Item, n: nat, all: seq<Event>)
    requires !item.ToolCall? ==> Joined(all, IdOf(item, n)) == item.text
    ensures Items(Block(item, n), all) == [item]
  {
    match item
    case Text(text) =>
      var t := TextId(n);
      ChunksHoldNoItem(t, text, all);
      ItemsConcat([TextStart(t)] + Chunks(t, text), [TextEnd(t)], all);
      ItemsConcat([TextStart(t)], Chunks(t, text), all);
    case Reasoning(text) =>
      var es := Block(item, n);
      assert es[1..][1..][1..] == [];
      assert Items(es[1..][1..], all) == [];
    case ToolCall(_, _, _) =>
  }

  /** Streaming then joining is the identity: the same items in the same order. */
  lemma StreamRoundTrips(r: Response)
    ensures Items(Stream(r), Stream(r)) == r.output
    ensures Stream(r)[|Stream(r)| - 1] == Finish(r.usage)
  {
    var all := Stream(r);
    var blocks := Blocks(r.output);
    var tail := [StepFinish, Finish(r.usage)];
    assert tail[1..] == [Finish(r.usage)];
    forall id ensures Joined(all, id) == Joined(blocks, id) {
      JoinedConcat([StepStart] + blocks, tail, id);
      JoinedConcat([StepStart], blocks, id);
      assert Joined([StepStart], id) == "" && Joined(tail[1..], id) == "";
    }
    ItemsConcat([StepStart] + blocks, tail, all);
    ItemsConcat([StepStart], blocks, all);
    assert Items([StepStart], all) == [] && Items(tail[1..], all) == [];
    ItemsOfBlocks(r.output, |r.output|, all);
    assert r.output[..|r.output|] == r.output;
  }

  /** Every text delta carries one to four characters, and no text could be sent in fewer
      of them. */
  lemma {:induction false} DeltasAreShort(items: seq<Item>)
    ensures forall e <- Blocks(items) :: e.TextDelta? ==> 1 <= |e.text| <= 4
    ensures forall n: nat, k :: 0 <= k < |items| && items[k].Text? ==>
      |items[k].text| <= 4 * (|Block(items[k], n)| - 2) < |items[k].text| + 4
  {
    if items != [] {
      var last := items[|items| - 1];
      DeltasAreShort(items[..|items| - 1]);
      forall n: nat, k | 0 <= k < |items| && items[k].Text?
        ensures |items[k].text| <= 4 * (|Block(items[k], n)| - 2) < |items[k].text| + 4
      {
        ChunksAreFew(TextId(n), items[k].text);
      }
      if last.Text? { ChunksJoin(TextId(BlockCount(items[..|items| - 1])), last.text, ""); }
    }
  }

  // ----- block ids -----

  predicate IsStart(e: Event) { e.TextStart? || e.ReasoningStart? }

  /** The event opens a block numbered below n. */
  ghost predicate StartsBelow(e: Event, n: nat) {
    IsStart(e) ==> exists m: nat :: m < n && (e.id == TextId(m) || e.id == ReasonId(m))
  }

  lemma StartsFirst(item: Item, n: nat)
    ensures forall k :: 0 <= k < |Block(item, n)| && IsStart(Block(item, n)[k]) ==>
      k == 0 && !item.ToolCall? && Block(item, n)[k].id == IdOf(item, n)
  {
    if item.Text? { ChunksJoin(TextId(n), item.text, ""); }
  }

  lemma {:induction false} StartsAreNumbered(items: seq<Item>)
    ensures forall e <- Blocks(items) :: StartsBelow(e, BlockCount(items))
  {
    if items != [] {
      var front, last := items[..|items| - 1], items[|items| - 1];
      var n := BlockCount(front);
      StartsAreNumbered(front);
      StartsFirst(last, n);
      forall e | e in Blocks(items) ensures StartsBelow(e, BlockCount(items)) {
        if e in Blocks(front) { assert StartsBelow(e, n); }
      }
    }
  }

  lemma {:induction false} StartsDiffer(items: seq<Item>, a: nat, b: nat)
    requires a < b < |Blocks(items)| && IsStart(Blocks(items)[a]) && IsStart(Blocks(items)[b])
    ensures Blocks(items)[a].id != Blocks(items)[b].id
  {
    var front, last := items[..|items| - 1], items[|items| - 1];
    var n := BlockCount(front);
    var before, block := Blocks(front), Block(last, n);
    if b < |before| {
      StartsDiffer(front, a, b);
    } else {
      assert Blocks(items)[b] == block[b - |before|];
      StartsFirst(last, n);
      StartsAreNumbered(front);
      assert StartsBelow(before[a], n);
      var m: nat :| m < n && (before[a].id == TextId(m) || before[a].id == ReasonId(m));
      IdsDiffer(m, n);
      IdsDiffer(n, m);
    }
  }

  lemma StartInBlocks(r: Response, k: nat)
    requires k < |Stream(r)| && IsStart(Stream(r)[k])
    ensures 1 <= k <= |Blocks(r.output)| && Stream(r)[k] == Blocks(r.output)[k - 1]
  {
    InFrame(Blocks(r.output), StepStart, [StepFinish, Finish(r.usage)], k);
  }

  lemma InFrame(mid: seq<Event>, first: Event, end: seq<Event>, k: nat)
    requires k < |[first] + mid + end|
    ensures ([first] + mid + end)[k] ==
      if k == 0 then first else if k <= |mid| then mid[k - 1] else end[k - |mid| - 1]
  {}

  /** No two blocks of a stream share an id. */
  lemma BlocksShareNoId(r: Response, a: nat, b: nat)
    requires a < b < |Stream(r)| && IsStart(Stream(r)[a]) && IsStart(Stream(r)[b])
    ensures Stream(r)[a].id != Stream(r)[b].id
  {
    StartInBlocks(r, a);
    StartInBlocks(r, b);
    StartsDiffer(r.output, a - 1, b - 1);
  }

  // ----- the shape of a stream -----

  /** Every delta and end belongs to the block that is open, blocks do not nest, and calls
      stand between blocks. */
  predicate Bracketed(events: seq<Event>, open: Option<Event>)
    decreases |events|
  {
    if events == [] then open == None
    else
      var e, rest := events[0], events[1..];
      match e
      case TextStart(_) => open == None && Bracketed(rest, Some(e))
      case TextDelta(id, _) => open == Some(TextStart(id)) && Bracketed(rest, open)
      case TextEnd(id) => open == Some(TextStart(id)) && Bracketed(rest, None)
      case ReasoningStart(_) => open == None && Bracketed(rest, Some(e))
      case ReasoningDelta(id, _) => open == Some(ReasoningStart(id)) && Bracketed(rest, open)
      case ReasoningEnd(id) => open == Some(ReasoningStart(id)) && Bracketed(rest, None)
      case CallTool(_, _, _) => open == None && Bracketed(rest, open)
      case _ => false
  }

  lemma {:induction false} BracketedOn(a: seq<Event>, b: seq<Event>, open: Option<Event>)
    requires Bracketed(a, open) && Bracketed(b, None)
    ensures Bracketed(a + b, open)
    decreases |a|
  {
    if a == [] {
      assert a + b == b;
    } else {
      assert (a + b)[1..] == a[1..] + b;
      var open' := match a[0]
        case TextStart(_) => Some(a[0])
        case ReasoningStart(_) => Some(a[0])
        case TextEnd(_) => None
        case ReasoningEnd(_) => None
        case _ => open;
      BracketedOn(a[1..], b, open');
    }
  }

  lemma {:induction false} ChunksBracketed(id: string, text: string)
    ensures Bracketed(Chunks(id, text) + [TextEnd(id)], Some(TextStart(id)))
    decreases |text|
  {
    assert [TextEnd(id)][1..] == [];
    assert Bracketed([TextEnd(id)], Some(TextStart(id)));
    if |text| > 4 {
      ChunksBracketed(id, text[4..]);
      var all := Chunks(id, text) + [TextEnd(id)];
      assert all[0] == TextDelta(id, text[..4]) && all[1..] == Chunks(id, text[4..]) + [TextEnd(id)];
    } else if text != "" {
      assert (Chunks(id, text) + [TextEnd(id)])[1..] == [TextEnd(id)];
    } else {
      assert Chunks(id, text) + [TextEnd(id)] == [TextEnd(id)];
    }
  }

  lemma ReasoningBracketed(id: string, text: string)
    ensures Bracketed([ReasoningStart(id), ReasoningDelta(id, text), ReasoningEnd(id)], None)
  {
    var open := Some(ReasoningStart(id));
    assert [ReasoningEnd(id)][1..] == [];
    assert Bracketed([ReasoningEnd(id)], open);
    assert [ReasoningDelta(id, text), ReasoningEnd(id)][1..] == [ReasoningEnd(id)];
    assert Bracketed([ReasoningDelta(id, text), ReasoningEnd(id)], open);
    var all := [ReasoningStart(id), ReasoningDelta(id, text), ReasoningEnd(id)];
    assert all[1..] == [ReasoningDelta(id, text), ReasoningEnd(id)];
  }

  lemma BlockBracketed(item: Item, n: nat)
    ensures Bracketed(Block(item, n), None)
  {
    var b := Block(item, n);
    match item
    case Text(text) =>
      ChunksBracketed(TextId(n), text);
      assert b[0] == TextStart(TextId(n)) && b[1..] == Chunks(TextId(n), text) + [TextEnd(TextId(n))];
    case Reasoning(text) =>
      ReasoningBracketed(ReasonId(n), text);
    case ToolCall(_, _, _) =>
      assert b[1..] == [];
  }

  lemma {:induction false} BlocksBracketed(items: seq<Item>)
    ensures Bracketed(Blocks(items), None)
  {
    if items != [] {
      var front := items[..|items| - 1];
      BlocksBracketed(front);
      BlockBracketed(items[|items| - 1], BlockCount(front));
      BracketedOn(Blocks(front), Block(items[|items| - 1], BlockCount(front)), None);
    }
  }

  /** A stream opens with its step and ends with the step's end and the usage; between
      them every block is closed and holds only its own deltas. */
  lemma StreamIsBracketed(r: Response)
    ensures var s := Stream(r);
      && |s| >= 3 && s[0] == StepStart && s[|s| - 2] == StepFinish && s[|s| - 1] == Finish(r.usage)
      && Bracketed(s[1..|s| - 2], None)
  {
    BlocksBracketed(r.output);
    assert Stream(r)[1..|Stream(r)| - 2] == Blocks(r.output);
  }

  /** Text comes in as few deltas of at most four characters as can hold it. */
  lemma {:induction false} ChunksAreFew(id: string, text: string)
    ensures 4 * |Chunks(id, text)| < |text| + 4 && |text| <= 4 * |Chunks(id, text)|
    decreases |text|
  {
    if |text| > 4 { ChunksAreFew(id, text[4..]); }
  }
}
