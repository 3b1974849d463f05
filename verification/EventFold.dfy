/** The event fold behind `handlePayload` and the final assembly of a streamed response
    (src/providers/anthropic-compatible-provider.ts).

    The fold is specified here on values; `StreamReader` runs it on mutable fields. Each
    content block is a small machine of its own, so the order in which the events of
    different blocks arrive cannot change the response. */
module EventFold {
  import opened Prelude

  // ----- Events, as the JSON parser hands them over -----

  datatype UsageFields = UsageFields(input: Option<int>, output: Option<int>, cacheRead: Option<int>)

  /** `input` is the serialised initial input, "" when it is absent or has no key. */
  datatype StartedBlock =
    | StartText(text: string)
    | StartTool(id: string, input: string, name: string)
    | StartOther

  datatype Delta =
    | TextDelta(text: string)
    | InputJsonDelta(partialJson: string)
    | OtherDelta

  /** Events without an `index` where one is needed, and all other types, are `Ignored`. */
  datatype Event =
    | MessageStart(id: Option<string>, model: Option<string>, usage: Option<UsageFields>)
    | BlockStart(index: int, block: StartedBlock)
    | BlockDelta(index: int, delta: Delta)
    | MessageDelta(stopReason: Option<string>, outputTokens: Option<int>)
    | Ignored

  // ----- State of the fold -----

  datatype Usage = Usage(input: int, output: int, total: int, cached: Option<int>)

  datatype ToolBlock = ToolBlock(id: string, input: string, name: string)

  datatype Header = Header(id: Option<string>, model: string, stopReason: Option<string>, usage: Usage)

  datatype Progress = Progress(emittedText: bool, madeProgress: bool, sawEvent: bool)

  datatype FoldState = FoldState(
    header: Header,
    textBlocks: map<int, string>,
    toolBlocks: map<int, ToolBlock>,
    progress: Progress,
    deltas: seq<string>)

  const NO_USAGE := Usage(0, 0, 0, None)

  function ToUsage(fields: Option<UsageFields>): Usage {
    match fields
    case None => NO_USAGE
    case Some(u) =>
      var input := u.input.GetOr(0);
      var output := u.output.GetOr(0);
      Usage(input, output, input + output, if u.cacheRead.Some? && u.cacheRead.value >= 0 then u.cacheRead else None)
  }

  function Start(model: string): FoldState {
    FoldState(Header(None, model, None, NO_USAGE), map[], map[], Progress(false, false, false), [])
  }

  function OrElse<T>(a: Option<T>, b: Option<T>): Option<T> {
    if a.Some? then a else b
  }

  function HeaderStep(h: Header, e: Event): Header {
    match e
    case MessageStart(id, model, usage) =>
      h.(id := OrElse(id, h.id), model := model.GetOr(h.model), usage := ToUsage(usage))
    case MessageDelta(stopReason, outputTokens) =>
      var recount := ToUsage(Some(UsageFields(Some(h.usage.input), Some(outputTokens.GetOr(h.usage.output)),
                                              h.usage.cached)));
      h.(stopReason := OrElse(stopReason, h.stopReason),
         usage := recount.(cached := OrElse(recount.cached, h.usage.cached)))
    case _ => h
  }

  /** One parsed event applied to the whole state, branch by branch. */
  function EventStep(s: FoldState, e: Event): FoldState {
    var t := s.(progress := s.progress.(sawEvent := true));
    match e
    case MessageStart(_, _, _) => t.(header := HeaderStep(s.header, e))
    case MessageDelta(_, _) => t.(header := HeaderStep(s.header, e))
    case BlockStart(i, StartText(text)) => t.(textBlocks := s.textBlocks[i := text])
    case BlockStart(i, StartTool(id, input, name)) =>
      t.(toolBlocks := s.toolBlocks[i := ToolBlock(id, input, name)],
         progress := t.progress.(madeProgress := true))
    case BlockDelta(i, TextDelta(text)) =>
      t.(textBlocks := s.textBlocks[i := Get(s.textBlocks, i).GetOr("") + text],
         progress := if text != "" then Progress(true, true, true) else t.progress,
         deltas := s.deltas + [text])
    case BlockDelta(i, InputJsonDelta(json)) =>
      if i in s.toolBlocks then
        t.(toolBlocks := s.toolBlocks[i := s.toolBlocks[i].(input := s.toolBlocks[i].input + json)],
           progress := t.progress.(madeProgress := true))
      else t
    case _ => t
  }

  function EventFold(s: FoldState, es: seq<Event>): FoldState
    decreases |es|
  {
    if es == [] then s else EventFold(EventStep(s, es[0]), es[1..])
  }

  // ----- Final assembly -----

  function NonEmpty(s: string): bool {
    s != ""
  }

  function TrimmedTexts(blocks: map<int, string>, keys: seq<int>): seq<string>
    requires forall j :: 0 <= j < |keys| ==> keys[j] in blocks
  {
    seq(|keys|, i requires 0 <= i < |keys| => Trim(blocks[keys[i]]))
  }

  function Message(blocks: map<int, string>): string {
    Join(Filter(TrimmedTexts(blocks, SortedKeys(blocks.Keys)), NonEmpty), "\n")
  }

  /** What `JSON.parse` makes of a tool input. */
  datatype ParsedInput = InvalidJson | NotAnObject | JsonObject(serialized: string)

  datatype ToolCall = ToolCall(id: string, name: string, input: string, index: nat)

  datatype StreamError = MalformedPayload | MalformedToolInput(index: nat) | MalformedToolCall(index: nat)

  function ParseToolCall(parse: string -> ParsedInput, b: ToolBlock, index: nat): Result<ToolCall, StreamError> {
    match parse(if b.input != "" then b.input else "{}")
    case InvalidJson => Err(MalformedToolInput(index))
    case NotAnObject => Err(MalformedToolCall(index))
    case JsonObject(input) =>
      if b.id == "" || b.name == "" then Err(MalformedToolCall(index)) else Ok(ToolCall(b.id, b.name, input, index))
  }

  /** The calls of the blocks at `keys`, numbered from `from`; the first bad block is the error. */
  function ParseToolCalls(parse: string -> ParsedInput, blocks: map<int, ToolBlock>, keys: seq<int>, from: nat)
      : Result<seq<ToolCall>, StreamError>
    requires forall j :: 0 <= j < |keys| ==> keys[j] in blocks
    decreases |keys|
  {
    if keys == [] then Ok([])
    else
      match ParseToolCall(parse, blocks[keys[0]], from)
      case Err(e) => Err(e)
      case Ok(call) =>
        match ParseToolCalls(parse, blocks, keys[1..], from + 1)
        case Err(e) => Err(e)
        case Ok(calls) => Ok([call] + calls)
  }

  /** `toolCalls == []` is the response kind "final". */
  datatype Response = Response(message: string, toolCalls: seq<ToolCall>, header: Header, contentCount: nat)

  function Respond(parse: string -> ParsedInput, header: Header, texts: map<int, string>, tools: map<int, ToolBlock>)
      : Result<Response, StreamError>
  {
    match ParseToolCalls(parse, tools, SortedKeys(tools.Keys), 0)
    case Err(e) => Err(e)
    case Ok(calls) => Ok(Response(Message(texts), calls, header, |texts| + |tools|))
  }

  function Assemble(parse: string -> ParsedInput, s: FoldState): Result<Response, StreamError> {
    Respond(parse, s.header, s.textBlocks, s.toolBlocks)
  }

  /** `call` is call number `index`, with the identity and the parsed input of the block. */
  ghost predicate IsCallOf(parse: string -> ParsedInput, b: ToolBlock, call: ToolCall, index: nat) {
    && call.index == index && call.id == b.id != "" && call.name == b.name != ""
    && parse(if b.input == "" then "{}" else b.input) == JsonObject(call.input)
  }

  lemma {:induction false} CallsFollowKeys(parse: string -> ParsedInput, blocks: map<int, ToolBlock>, keys: seq<int>,
                                           from: nat)
    requires forall j :: 0 <= j < |keys| ==> keys[j] in blocks
    requires ParseToolCalls(parse, blocks, keys, from).Ok?
    ensures var calls := ParseToolCalls(parse, blocks, keys, from).value;
            |calls| == |keys| && forall p :: 0 <= p < |calls| ==> IsCallOf(parse, blocks[keys[p]], calls[p], from + p)
    decreases |keys|
  {
    if keys != [] {
      CallsFollowKeys(parse, blocks, keys[1..], from + 1);
      var calls := ParseToolCalls(parse, blocks, keys, from).value;
      var rest := ParseToolCalls(parse, blocks, keys[1..], from + 1).value;
      assert calls[1..] == rest;
      forall p | 0 < p < |calls|
        ensures calls[p] == rest[p - 1] && keys[p] == keys[1..][p - 1]
      {
      }
    }
  }

  /** How many of the keys are smaller than `k`. */
  function Below(keys: set<int>, k: int): nat {
    |set j | j in keys && j < k|
  }

  function Elements(s: seq<int>): set<int> {
    set x | x in s
  }

  lemma {:induction false} DistinctElements(s: seq<int>)
    requires Distinct(s)
    ensures |Elements(s)| == |s|
    decreases |s|
  {
    if s != [] {
      DistinctElements(Init(s));
      assert s == Init(s) + [Last(s)];
      assert Elements(s) == Elements(Init(s)) + {Last(s)};
    }
  }

  lemma KeysBefore(keys: seq<int>, p: nat)
    requires p < |keys| && forall i, j :: 0 <= i < j < |keys| ==> keys[i] < keys[j]
    ensures forall x :: x in keys[..p] <==> x in keys && x < keys[p]
  {
    forall x ensures x in keys[..p] <==> x in keys && x < keys[p] {
      if x in keys && x < keys[p] {
        var q :| 0 <= q < |keys| && keys[q] == x;
        assert keys[..p][q] == x;
      }
    }
  }

  lemma SmallerKeys(keys: seq<int>, p: nat)
    requires p < |keys| && forall i, j :: 0 <= i < j < |keys| ==> keys[i] < keys[j]
    ensures Below(Elements(keys), keys[p]) == p
  {
    DistinctElements(keys[..p]);
    KeysBefore(keys, p);
    assert (set j | j in Elements(keys) && j < keys[p]) == Elements(keys[..p]);
  }

  /** The sorted keys of a set are its elements, each at the number of smaller ones. */
  lemma SortedKeyRanks(ks: set<int>)
    ensures |SortedKeys(ks)| == |ks|
    ensures forall k :: k in ks ==> Below(ks, k) < |ks| && SortedKeys(ks)[Below(ks, k)] == k
  {
    var keys := SortedKeys(ks);
    SortedKeysAreSorted(ks);
    assert Elements(keys) == ks;
    DistinctElements(keys);
    forall k | k in ks
      ensures Below(ks, k) < |keys| && keys[Below(ks, k)] == k
    {
      var p :| 0 <= p < |keys| && keys[p] == k;
      SmallerKeys(keys, p);
    }
  }

  /** When all calls parse there is one call for every tool block: the block with the p-th smallest
      index gives call number `p`, with its identity and its parsed input. */
  lemma CallsFollowBlockIndexes(parse: string -> ParsedInput, blocks: map<int, ToolBlock>)
    requires ParseToolCalls(parse, blocks, SortedKeys(blocks.Keys), 0).Ok?
    ensures var calls := ParseToolCalls(parse, blocks, SortedKeys(blocks.Keys), 0).value;
            && |calls| == |blocks.Keys|
            && forall k :: k in blocks ==>
                 Below(blocks.Keys, k) < |calls|
                 && IsCallOf(parse, blocks[k], calls[Below(blocks.Keys, k)], Below(blocks.Keys, k))
  {
    SortedKeyRanks(blocks.Keys);
    CallsFollowKeys(parse, blocks, SortedKeys(blocks.Keys), 0);
  }

  // ----- Usage -----

  ghost predicate UsageAddsUp(u: Usage) {
    && u.total == u.input + u.output
    && (u.cached.Some? ==> u.cached.value >= 0)
  }

  /** After every event, `totalTokens` is the sum of the two counters and a cache count is never negative. */
  lemma {:induction false} TotalTokensAlwaysAddUp(model: string, es: seq<Event>)
    ensures UsageAddsUp(EventFold(Start(model), es).header.usage)
  {
    UsageKept(Start(model), es);
  }

  lemma {:induction false} UsageKept(s: FoldState, es: seq<Event>)
    requires UsageAddsUp(s.header.usage)
    ensures UsageAddsUp(EventFold(s, es).header.usage)
    decreases |es|
  {
    if es != [] { UsageKept(EventStep(s, es[0]), es[1..]); }
  }

  // ----- Content blocks as independent machines -----

  /** What the fold knows about one block index. */
  datatype BlockView = BlockView(text: Option<string>, tool: Option<ToolBlock>, emitted: bool, progressed: bool)

  const NO_BLOCK := BlockView(None, None, false, false)

  predicate AtIndex(e: Event, i: int) {
    (e.BlockStart? || e.BlockDelta?) && e.index == i
  }

  predicate IsBlockEvent(e: Event) {
    e.BlockStart? || e.BlockDelta?
  }

  /** The events of block `i`, in order. */
  function EventsAt(es: seq<Event>, i: int): seq<Event> {
    if es == [] then [] else (if AtIndex(es[0], i) then [es[0]] else []) + EventsAt(es[1..], i)
  }

  /** The events that belong to no block, in order. */
  function MessageEvents(es: seq<Event>): seq<Event> {
    if es == [] then [] else (if IsBlockEvent(es[0]) then [] else [es[0]]) + MessageEvents(es[1..])
  }

  function BlockStep(v: BlockView, e: Event): BlockView {
    match e
    case BlockStart(_, StartText(text)) => v.(text := Some(text))
    case BlockStart(_, StartTool(id, input, name)) => v.(tool := Some(ToolBlock(id, input, name)), progressed := true)
    case BlockDelta(_, TextDelta(text)) =>
      v.(text := Some(v.text.GetOr("") + text), emitted := v.emitted || text != "",
         progressed := v.progressed || text != "")
    case BlockDelta(_, InputJsonDelta(json)) =>
      if v.tool.Some? then v.(tool := Some(v.tool.value.(input := v.tool.value.input + json)), progressed := true)
      else v
    case _ => v
  }

  function BlockFold(v: BlockView, es: seq<Event>): BlockView
    decreases |es|
  {
    if es == [] then v else BlockFold(BlockStep(v, es[0]), es[1..])
  }

  function HeaderFold(h: Header, es: seq<Event>): Header
    decreases |es|
  {
    if es == [] then h else HeaderFold(HeaderStep(h, es[0]), es[1..])
  }

  lemma EventsAtStep(es: seq<Event>, i: int)
    requires es != []
    ensures if AtIndex(es[0], i) then
              EventsAt(es, i) != [] && EventsAt(es, i)[0] == es[0] && EventsAt(es, i)[1..] == EventsAt(es[1..], i)
            else EventsAt(es, i) == EventsAt(es[1..], i)
  {
  }

  /** The state is the product of the block machines: each sees only its own events. */
  lemma {:induction false} BlocksAreIndependent(s: FoldState, es: seq<Event>, i: int, v: BlockView)
    requires v.text == Get(s.textBlocks, i) && v.tool == Get(s.toolBlocks, i)
    ensures var r := EventFold(s, es);
            var w := BlockFold(v, EventsAt(es, i));
            Get(r.textBlocks, i) == w.text && Get(r.toolBlocks, i) == w.tool
    decreases |es|
  {
    if es != [] {
      var e := es[0];
      var next := if AtIndex(e, i) then BlockStep(v, e) else v;
      BlocksAreIndependent(EventStep(s, e), es[1..], i, next);
      EventsAtStep(es, i);
    }
  }

  lemma MessageEventsStep(es: seq<Event>)
    requires es != []
    ensures if IsBlockEvent(es[0]) then MessageEvents(es) == MessageEvents(es[1..])
            else
              && MessageEvents(es) != [] && MessageEvents(es)[0] == es[0]
              && MessageEvents(es)[1..] == MessageEvents(es[1..])
  {
  }

  lemma {:induction false} HeaderSeesMessageEvents(s: FoldState, es: seq<Event>)
    ensures EventFold(s, es).header == HeaderFold(s.header, MessageEvents(es))
    decreases |es|
  {
    if es != [] {
      HeaderSeesMessageEvents(EventStep(s, es[0]), es[1..]);
      MessageEventsStep(es);
    }
  }

  /** Same events for every block and same message events: an interleaving of the same streams. */
  ghost predicate SameStreams(es: seq<Event>, fs: seq<Event>) {
    && MessageEvents(es) == MessageEvents(fs)
    && forall i: int :: EventsAt(es, i) == EventsAt(fs, i)
  }

  /** The order in which events of different blocks arrive changes neither the response nor the
      progress flags from which the caller decides to fall back to a complete request. */
  lemma InterleavingDoesNotMatter(parse: string -> ParsedInput, model: string, es: seq<Event>, fs: seq<Event>)
    requires SameStreams(es, fs)
    ensures Assemble(parse, EventFold(Start(model), es)) == Assemble(parse, EventFold(Start(model), fs))
    ensures EventFold(Start(model), es).progress == EventFold(Start(model), fs).progress
  {
    HeaderSeesMessageEvents(Start(model), es);
    HeaderSeesMessageEvents(Start(model), fs);
    SameBlocks(Start(model), es, fs);
    SameProgress(Start(model), es, fs);
    AssembleIgnoresDeltas(parse, EventFold(Start(model), es), EventFold(Start(model), fs));
  }

  lemma AssembleIgnoresDeltas(parse: string -> ParsedInput, a: FoldState, b: FoldState)
    requires a.header == b.header && a.textBlocks == b.textBlocks && a.toolBlocks == b.toolBlocks
    ensures Assemble(parse, a) == Assemble(parse, b)
  {
  }

  lemma SameBlocks(s: FoldState, es: seq<Event>, fs: seq<Event>)
    requires SameStreams(es, fs)
    ensures EventFold(s, es).textBlocks == EventFold(s, fs).textBlocks
    ensures EventFold(s, es).toolBlocks == EventFold(s, fs).toolBlocks
  {
    var a, b := EventFold(s, es), EventFold(s, fs);
    forall i: int
      ensures Get(a.textBlocks, i) == Get(b.textBlocks, i) && Get(a.toolBlocks, i) == Get(b.toolBlocks, i)
    {
      BlocksAreIndependent(s, es, i, ViewOf(s, i));
      BlocksAreIndependent(s, fs, i, ViewOf(s, i));
      assert EventsAt(es, i) == EventsAt(fs, i);
    }
    SameLookupsSameMap(a.textBlocks, b.textBlocks);
    SameLookupsSameMap(a.toolBlocks, b.toolBlocks);
  }

  lemma SameProgress(s: FoldState, es: seq<Event>, fs: seq<Event>)
    requires SameStreams(es, fs)
    ensures EventFold(s, es).progress == EventFold(s, fs).progress
  {
    ProgressIsPerBlock(s, es);
    ProgressIsPerBlock(s, fs);
    assert forall i :: BlockReport(s, es, i) == BlockReport(s, fs, i);
    assert es == [] <==> fs == [] by {
      if es != [] { StreamsOfNonEmpty(es); }
      if fs != [] { StreamsOfNonEmpty(fs); }
    }
  }

  lemma StreamsOfNonEmpty(es: seq<Event>)
    requires es != []
    ensures MessageEvents(es) != [] || exists i :: EventsAt(es, i) != []
  {
    if IsBlockEvent(es[0]) {
      assert EventsAt(es, es[0].index)[0] == es[0];
      assert EventsAt(es, es[0].index) != [];
    } else {
      assert MessageEvents(es)[0] == es[0];
    }
  }

  lemma SameLookupsSameMap<V>(a: map<int, V>, b: map<int, V>)
    requires forall i: int :: Get(a, i) == Get(b, i)
    ensures a == b
  {
    forall i: int
      ensures i in a <==> i in b
      ensures i in a ==> a[i] == b[i]
    {
      assert Get(a, i) == Get(b, i);
    }
  }

  // ----- Progress flags -----

  function ViewOf(s: FoldState, i: int): BlockView {
    BlockView(Get(s.textBlocks, i), Get(s.toolBlocks, i), false, false)
  }

  /** What block `i` has to say after the events `es`, having said nothing before. */
  function BlockReport(s: FoldState, es: seq<Event>, i: int): BlockView {
    BlockFold(ViewOf(s, i), EventsAt(es, i))
  }

  lemma {:induction false} FlagsAreSticky(v: BlockView, es: seq<Event>)
    ensures var quiet := BlockFold(v.(emitted := false, progressed := false), es);
            BlockFold(v, es) == quiet.(emitted := v.emitted || quiet.emitted,
                                       progressed := v.progressed || quiet.progressed)
    decreases |es|
  {
    if es != [] {
      var q := BlockStep(v.(emitted := false, progressed := false), es[0]);
      FlagsAreSticky(BlockStep(v, es[0]), es[1..]);
      FlagsAreSticky(q, es[1..]);
    }
  }

  lemma OwnReport(s: FoldState, es: seq<Event>, i: int)
    requires es != [] && AtIndex(es[0], i)
    ensures var done := BlockStep(ViewOf(s, i), es[0]);
            var later := BlockReport(EventStep(s, es[0]), es[1..], i);
            BlockReport(s, es, i) ==
              later.(emitted := done.emitted || later.emitted, progressed := done.progressed || later.progressed)
  {
    var done := BlockStep(ViewOf(s, i), es[0]);
    EventsAtStep(es, i);
    assert done.(emitted := false, progressed := false) == ViewOf(EventStep(s, es[0]), i);
    FlagsAreSticky(done, EventsAt(es[1..], i));
  }

  lemma OtherReport(s: FoldState, es: seq<Event>, i: int)
    requires es != [] && !AtIndex(es[0], i)
    ensures BlockReport(s, es, i) == BlockReport(EventStep(s, es[0]), es[1..], i)
  {
    EventsAtStep(es, i);
    assert ViewOf(EventStep(s, es[0]), i) == ViewOf(s, i);
  }

  lemma ReportStep(s: FoldState, es: seq<Event>, i: int)
    requires es != []
    ensures var done := BlockStep(ViewOf(s, i), es[0]);
            var later := BlockReport(EventStep(s, es[0]), es[1..], i);
            BlockReport(s, es, i) ==
              if AtIndex(es[0], i)
              then later.(emitted := done.emitted || later.emitted, progressed := done.progressed || later.progressed)
              else later
  {
    if AtIndex(es[0], i) { OwnReport(s, es, i); } else { OtherReport(s, es, i); }
  }

  predicate Emits(s: FoldState, e: Event) {
    IsBlockEvent(e) && BlockStep(ViewOf(s, e.index), e).emitted
  }

  predicate Progresses(s: FoldState, e: Event) {
    IsBlockEvent(e) && BlockStep(ViewOf(s, e.index), e).progressed
  }

  lemma StepProgress(s: FoldState, e: Event)
    ensures var p := EventStep(s, e).progress;
            && p.emittedText == (s.progress.emittedText || Emits(s, e))
            && p.madeProgress == (s.progress.madeProgress || Progresses(s, e))
            && p.sawEvent
  {
  }

  /** The global flags are what the block machines report together. */
  lemma {:induction false} ProgressIsPerBlock(s: FoldState, es: seq<Event>)
    ensures var r := EventFold(s, es).progress;
            && (r.emittedText <==> s.progress.emittedText || exists i :: BlockReport(s, es, i).emitted)
            && (r.madeProgress <==> s.progress.madeProgress || exists i :: BlockReport(s, es, i).progressed)
            && (r.sawEvent <==> s.progress.sawEvent || es != [])
    decreases |es|
  {
    if es == [] {
      assert forall i :: BlockReport(s, es, i) == ViewOf(s, i);
    } else {
      var t := EventStep(s, es[0]);
      ProgressIsPerBlock(t, es[1..]);
      StepProgress(s, es[0]);
      forall i: int
        ensures BlockReport(s, es, i).emitted
                == (BlockReport(t, es[1..], i).emitted || (AtIndex(es[0], i) && Emits(s, es[0])))
        ensures BlockReport(s, es, i).progressed
                == (BlockReport(t, es[1..], i).progressed || (AtIndex(es[0], i) && Progresses(s, es[0])))
      {
        ReportStep(s, es, i);
      }
      if Emits(s, es[0]) { assert BlockReport(s, es, es[0].index).emitted; }
      if Progresses(s, es[0]) { assert BlockReport(s, es, es[0].index).progressed; }
    }
  }

  // ----- What a block holds, without running the fold -----

  predicate StartsTool(e: Event) {
    e.BlockStart? && e.block.StartTool?
  }

  predicate StartsText(e: Event) {
    e.BlockStart? && e.block.StartText?
  }

  /** The text or input fragments of `es` in order. */
  function Fragments(es: seq<Event>, ofTool: bool): string {
    if es == [] then "" else Fragment(es[0], ofTool) + Fragments(es[1..], ofTool)
  }

  function Fragment(e: Event, ofTool: bool): string {
    if !e.BlockDelta? then ""
    else if ofTool && e.delta.InputJsonDelta? then e.delta.partialJson
    else if !ofTool && e.delta.TextDelta? then e.delta.text
    else ""
  }

  lemma Append3(a: string, b: string, c: string)
    ensures (a + b) + c == a + (b + c)
    ensures b == "" ==> a + b == a
  {
  }

  /** Without a further start, the tool half of a block only grows, by its fragments. */
  lemma {:induction false} ToolGrows(v: BlockView, es: seq<Event>)
    requires forall j :: 0 <= j < |es| ==> !StartsTool(es[j])
    ensures v.tool.None? ==> BlockFold(v, es).tool.None?
    ensures v.tool.Some? ==>
              BlockFold(v, es).tool == Some(v.tool.value.(input := v.tool.value.input + Fragments(es, true)))
    decreases |es|
  {
    if es != [] {
      var w := BlockStep(v, es[0]);
      ToolGrows(w, es[1..]);
      if v.tool.Some? {
        Append3(v.tool.value.input, Fragment(es[0], true), Fragments(es[1..], true));
        assert w.tool == Some(v.tool.value.(input := v.tool.value.input + Fragment(es[0], true)));
      }
    } else if v.tool.Some? {
      Append3(v.tool.value.input, "", "");
    }
  }

  /** Likewise its text half. */
  lemma {:induction false} TextGrows(v: BlockView, es: seq<Event>)
    requires v.text.Some? && forall j :: 0 <= j < |es| ==> !StartsText(es[j])
    ensures BlockFold(v, es).text == Some(v.text.value + Fragments(es, false))
    decreases |es|
  {
    if es != [] {
      var w := BlockStep(v, es[0]);
      Append3(v.text.value, Fragment(es[0], false), "");
      assert w.text == Some(v.text.value + Fragment(es[0], false));
      TextGrows(w, es[1..]);
      Append3(v.text.value, Fragment(es[0], false), Fragments(es[1..], false));
    } else {
      Append3(v.text.value, "", "");
    }
  }

  lemma {:induction false} BlockFoldConcat(v: BlockView, a: seq<Event>, b: seq<Event>)
    ensures BlockFold(v, a + b) == BlockFold(BlockFold(v, a), b)
    decreases |a|
  {
    if a == [] {
      assert a + b == b;
    } else {
      assert (a + b)[1..] == a[1..] + b;
      BlockFoldConcat(BlockStep(v, a[0]), a[1..], b);
    }
  }

  /** Position `p` holds the last tool start among the events `es` of one block. */
  ghost predicate IsLastToolStart(es: seq<Event>, p: int) {
    0 <= p < |es| && StartsTool(es[p]) && forall j :: p < j < |es| ==> !StartsTool(es[j])
  }

  /** The tool block that the start at position `p` and the fragments after it make. */
  function ToolFrom(es: seq<Event>, p: int): ToolBlock
    requires 0 <= p < |es| && StartsTool(es[p])
  {
    var b := es[p].block;
    ToolBlock(b.id, b.input + Fragments(es[p + 1..], true), b.name)
  }

  /** A tool block exists exactly when one was started; its identity is that of the last start, and its
      input is the initial input of that start followed by the fragments received after it, in order. */
  lemma ToolBlockContents(model: string, es: seq<Event>, i: int)
    ensures var mine := EventsAt(es, i);
            var r := Get(EventFold(Start(model), es).toolBlocks, i);
            && (r.Some? <==> exists p :: IsLastToolStart(mine, p))
            && forall p :: IsLastToolStart(mine, p) ==> r == Some(ToolFrom(mine, p))
  {
    var mine := EventsAt(es, i);
    BlocksAreIndependent(Start(model), es, i, NO_BLOCK);
    if forall j :: 0 <= j < |mine| ==> !StartsTool(mine[j]) {
      ToolGrows(NO_BLOCK, mine);
    } else {
      var q := LastStart(mine);
      assert IsLastToolStart(mine, q);
      ToolAfterStart(mine, q);
    }
    forall p | IsLastToolStart(mine, p)
      ensures BlockFold(NO_BLOCK, mine).tool == Some(ToolFrom(mine, p))
    {
      ToolAfterStart(mine, p);
    }
  }

  lemma {:induction false} LastStart(es: seq<Event>) returns (p: int)
    requires exists j :: 0 <= j < |es| && StartsTool(es[j])
    ensures IsLastToolStart(es, p)
    decreases |es|
  {
    if StartsTool(Last(es)) {
      p := |es| - 1;
    } else {
      p := LastStart(Init(es));
    }
  }

  lemma ToolAfterStart(mine: seq<Event>, p: int)
    requires IsLastToolStart(mine, p)
    ensures BlockFold(NO_BLOCK, mine).tool == Some(ToolFrom(mine, p))
  {
    SplitAtEvent(mine, p);
    ToolGrows(BlockStep(BlockFold(NO_BLOCK, mine[..p]), mine[p]), mine[p + 1..]);
  }

  lemma SplitAtEvent(mine: seq<Event>, p: nat)
    requires p < |mine|
    ensures BlockFold(NO_BLOCK, mine) == BlockFold(BlockStep(BlockFold(NO_BLOCK, mine[..p]), mine[p]), mine[p + 1..])
  {
    var tail := [mine[p]] + mine[p + 1..];
    assert mine == mine[..p] + tail;
    BlockFoldConcat(NO_BLOCK, mine[..p], tail);
    assert tail[1..] == mine[p + 1..];
  }

  predicate AddsText(e: Event) {
    e.BlockDelta? && e.delta.TextDelta?
  }

  /** Position `p` is where the text of the block begins: its last text start or, if there is none,
      its first text delta. */
  ghost predicate TextBegins(es: seq<Event>, p: int) {
    && 0 <= p < |es|
    && (forall j :: p < j < |es| ==> !StartsText(es[j]))
    && (StartsText(es[p]) || (AddsText(es[p]) && forall j :: 0 <= j < p ==> !StartsText(es[j]) && !AddsText(es[j])))
  }

  /** The text that begins at position `p` and grows by the deltas after it. */
  function TextFromStart(es: seq<Event>, p: int): string
    requires 0 <= p < |es|
  {
    if StartsText(es[p]) then es[p].block.text + Fragments(es[p + 1..], false) else Fragments(es[p..], false)
  }

  /** Likewise a text block: the text of the last start, or "" if there was none, and the deltas after it. */
  lemma TextBlockContents(model: string, es: seq<Event>, i: int)
    ensures var mine := EventsAt(es, i);
            var r := Get(EventFold(Start(model), es).textBlocks, i);
            && (r.Some? <==> exists p :: TextBegins(mine, p))
            && forall p :: TextBegins(mine, p) ==> r == Some(TextFromStart(mine, p))
  {
    var mine := EventsAt(es, i);
    BlocksAreIndependent(Start(model), es, i, NO_BLOCK);
    if forall j :: 0 <= j < |mine| ==> !StartsText(mine[j]) && !AddsText(mine[j]) {
      NoTextYet(NO_BLOCK, mine);
    } else {
      var q := TextBeginning(mine);
      TextFrom(mine, q);
    }
    forall p | TextBegins(mine, p)
      ensures BlockFold(NO_BLOCK, mine).text == Some(TextFromStart(mine, p))
    {
      TextFrom(mine, p);
    }
  }

  lemma {:induction false} TextBeginning(es: seq<Event>) returns (p: int)
    requires exists j :: 0 <= j < |es| && (StartsText(es[j]) || AddsText(es[j]))
    ensures TextBegins(es, p)
    decreases |es|
  {
    if StartsText(Last(es)) {
      p := |es| - 1;
    } else if exists j :: 0 <= j < |es| - 1 && (StartsText(es[j]) || AddsText(es[j])) {
      assert forall j :: 0 <= j < |es| - 1 ==> Init(es)[j] == es[j];
      p := TextBeginning(Init(es));
    } else {
      p := |es| - 1;
    }
  }

  lemma TextFrom(mine: seq<Event>, p: int)
    requires TextBegins(mine, p)
    ensures BlockFold(NO_BLOCK, mine).text == Some(TextFromStart(mine, p))
  {
    SplitAtEvent(mine, p);
    var before := BlockFold(NO_BLOCK, mine[..p]);
    TextGrows(BlockStep(before, mine[p]), mine[p + 1..]);
    if !StartsText(mine[p]) {
      NoTextYet(NO_BLOCK, mine[..p]);
      assert mine[p..][1..] == mine[p + 1..];
      assert "" + mine[p].delta.text == mine[p].delta.text;
    }
  }

  lemma {:induction false} NoTextYet(v: BlockView, es: seq<Event>)
    requires v.text.None? && forall j :: 0 <= j < |es| ==> !StartsText(es[j]) && !AddsText(es[j])
    ensures BlockFold(v, es).text.None?
    decreases |es|
  {
    if es != [] { NoTextYet(BlockStep(v, es[0]), es[1..]); }
  }

  // ----- What a response says, without running the fold or the assembly -----

  /** The blocks whose text has a visible character. */
  ghost function VisibleBlocks(texts: map<int, string>): set<int> {
    set k | k in texts && !AllSpace(texts[k])
  }

  ghost function VisibleAmong(texts: map<int, string>, keys: seq<int>): set<int> {
    set k | k in keys && k in texts && !AllSpace(texts[k])
  }

  lemma VisibleAmongLast(texts: map<int, string>, before: seq<int>, last: int)
    requires last !in before && last in texts
    ensures |VisibleAmong(texts, before + [last])|
            == |VisibleAmong(texts, before)| + (if AllSpace(texts[last]) then 0 else 1)
  {
    var some := VisibleAmong(texts, before);
    assert VisibleAmong(texts, before + [last]) == if AllSpace(texts[last]) then some else some + {last};
  }

  lemma TrimmedTextsLast(texts: map<int, string>, before: seq<int>, last: int)
    requires last in texts && forall j :: 0 <= j < |before| ==> before[j] in texts
    ensures Count(TrimmedTexts(texts, before + [last]), NonEmpty)
            == Count(TrimmedTexts(texts, before), NonEmpty) + (if AllSpace(texts[last]) then 0 else 1)
  {
    TrimIsTrimmed(texts[last]);
    assert TrimmedTexts(texts, before + [last]) == TrimmedTexts(texts, before) + [Trim(texts[last])];
    CountAppend(TrimmedTexts(texts, before), Trim(texts[last]), NonEmpty);
  }

  lemma {:induction false} VisibleTexts(texts: map<int, string>, keys: seq<int>)
    requires Distinct(keys) && forall j :: 0 <= j < |keys| ==> keys[j] in texts
    ensures Count(TrimmedTexts(texts, keys), NonEmpty) == |VisibleAmong(texts, keys)|
    decreases |keys|
  {
    if keys != [] {
      VisibleTexts(texts, Init(keys));
      assert keys == Init(keys) + [Last(keys)];
      TrimmedTextsLast(texts, Init(keys), Last(keys));
      VisibleAmongLast(texts, Init(keys), Last(keys));
    }
  }

  lemma SortedKeysList(ks: set<int>) returns (keys: seq<int>)
    ensures ListsSorted(keys, ks) && keys == SortedKeys(ks)
  {
    keys := SortedKeys(ks);
    SortedKeysAreSorted(ks);
  }

  lemma BelowListed(keys: seq<int>, ks: set<int>, p: nat)
    requires ListsSorted(keys, ks) && p < |keys|
    ensures Below(ks, keys[p]) == p
  {
    SmallerKeys(keys, p);
    forall x ensures x in Elements(keys) <==> x in ks {}
    assert Elements(keys) == ks;
  }

  lemma VisibleBelow(texts: map<int, string>, keys: seq<int>, p: nat)
    requires ListsSorted(keys, texts.Keys) && p < |keys|
    ensures |VisibleAmong(texts, keys[..p])| == Below(VisibleBlocks(texts), keys[p])
  {
    KeysBefore(keys, p);
    var all, below := VisibleAmong(texts, keys[..p]), set x | x in VisibleBlocks(texts) && x < keys[p];
    forall x ensures x in all <==> x in below {
      if x in texts { assert x in texts.Keys && x in keys; }
    }
    assert all == below;
  }

  lemma PartOfBlock(texts: map<int, string>, keys: seq<int>, p: nat)
    requires ListsSorted(keys, texts.Keys) && p < |keys| && keys[p] in VisibleBlocks(texts)
    ensures var parts := Filter(TrimmedTexts(texts, keys), NonEmpty);
            var n := Below(VisibleBlocks(texts), keys[p]);
            n < |parts| && IsTrimmed(texts[keys[p]], parts[n])
  {
    var all := TrimmedTexts(texts, keys);
    TrimIsTrimmed(texts[keys[p]]);
    FilterPosition(all, NonEmpty, p);
    assert TrimmedTexts(texts, keys[..p]) == all[..p];
    VisibleTexts(texts, keys[..p]);
    VisibleBelow(texts, keys, p);
  }

  lemma PartsOfMessage(texts: map<int, string>, keys: seq<int>)
    requires ListsSorted(keys, texts.Keys)
    ensures var parts := Filter(TrimmedTexts(texts, keys), NonEmpty);
            && |parts| == |VisibleBlocks(texts)|
            && forall k :: k in VisibleBlocks(texts) ==>
                 Below(VisibleBlocks(texts), k) < |parts| && IsTrimmed(texts[k], parts[Below(VisibleBlocks(texts), k)])
  {
    var parts := Filter(TrimmedTexts(texts, keys), NonEmpty);
    FilterLength(TrimmedTexts(texts, keys), NonEmpty);
    VisibleTexts(texts, keys);
    assert VisibleBlocks(texts) == VisibleAmong(texts, keys) by {
      forall k | k in texts ensures k in keys { assert k in texts.Keys; }
    }
    forall k | k in VisibleBlocks(texts)
      ensures Below(VisibleBlocks(texts), k) < |parts| && IsTrimmed(texts[k], parts[Below(VisibleBlocks(texts), k)])
    {
      assert k in texts.Keys;
      var p :| 0 <= p < |keys| && keys[p] == k;
      PartOfBlock(texts, keys, p);
    }
  }

  lemma AssembledMessage(parse: string -> ParsedInput, s: FoldState, keys: seq<int>)
    requires Assemble(parse, s).Ok? && keys == SortedKeys(s.textBlocks.Keys)
    ensures Assemble(parse, s).value.message == Join(Filter(TrimmedTexts(s.textBlocks, keys), NonEmpty), "\n")
  {
  }

  /** The message of a response is made of one part for each block whose text has a visible character, with line
      ends between them: the block with `n` such blocks of smaller index gives part `n`, which is its text without
      the outer white space. */
  lemma MessageContents(parse: string -> ParsedInput, s: FoldState) returns (parts: seq<string>)
    requires Assemble(parse, s).Ok?
    ensures IsJoined(Assemble(parse, s).value.message, parts, "\n") && |parts| == |VisibleBlocks(s.textBlocks)|
    ensures forall k :: k in VisibleBlocks(s.textBlocks) ==>
              && Below(VisibleBlocks(s.textBlocks), k) < |parts|
              && IsTrimmed(s.textBlocks[k], parts[Below(VisibleBlocks(s.textBlocks), k)])
  {
    var keys := SortedKeysList(s.textBlocks.Keys);
    parts := Filter(TrimmedTexts(s.textBlocks, keys), NonEmpty);
    PartsOfMessage(s.textBlocks, keys);
    AssembledMessage(parse, s, keys);
    JoinJoins(parts, "\n");
  }

  lemma {:induction false} EventFoldLast(s: FoldState, es: seq<Event>)
    requires es != []
    ensures EventFold(s, es) == EventStep(EventFold(s, Init(es)), Last(es))
    decreases |es|
  {
    if |es| > 1 {
      assert Init(es)[1..] == Init(es[1..]) && Last(es[1..]) == Last(es);
      EventFoldLast(EventStep(s, es[0]), es[1..]);
    }
  }

  /** The last value that an event of the list gives. */
  function LastGiven<T>(es: seq<Event>, given: Event -> Option<T>): Option<T> {
    if es == [] then None else if given(Last(es)).Some? then given(Last(es)) else LastGiven(Init(es), given)
  }

  function GivenId(e: Event): Option<string> {
    if e.MessageStart? then e.id else None
  }

  function GivenModel(e: Event): Option<string> {
    if e.MessageStart? then e.model else None
  }

  function GivenStopReason(e: Event): Option<string> {
    if e.MessageDelta? then e.stopReason else None
  }

  /** A message start gives a count even where it has none. */
  function GivenInput(e: Event): Option<int> {
    if !e.MessageStart? then None
    else if e.usage.Some? && e.usage.value.input.Some? then e.usage.value.input else Some(0)
  }

  function GivenOutput(e: Event): Option<int> {
    if e.MessageDelta? then e.outputTokens
    else if !e.MessageStart? then None
    else if e.usage.Some? && e.usage.value.output.Some? then e.usage.value.output else Some(0)
  }

  function GivenCached(e: Event): Option<Option<int>> {
    if !e.MessageStart? then None
    else Some(if e.usage.Some? && e.usage.value.cacheRead.GetOr(-1) >= 0 then e.usage.value.cacheRead else None)
  }

  lemma HeaderOfStep(s: FoldState, e: Event)
    ensures EventStep(s, e).header == HeaderStep(s.header, e)
  {
  }

  lemma HeaderStepTakes(h: Header, e: Event)
    requires UsageAddsUp(h.usage)
    ensures var r := HeaderStep(h, e);
            && r.id == OrElse(GivenId(e), h.id) && r.model == GivenModel(e).GetOr(h.model)
            && r.stopReason == OrElse(GivenStopReason(e), h.stopReason)
            && r.usage.input == GivenInput(e).GetOr(h.usage.input)
            && r.usage.output == GivenOutput(e).GetOr(h.usage.output)
            && r.usage.cached == GivenCached(e).GetOr(h.usage.cached)
  {
  }

  lemma GivenLast<T>(es: seq<Event>, given: Event -> Option<T>, default: T)
    requires es != []
    ensures LastGiven(es, given) == OrElse(given(Last(es)), LastGiven(Init(es), given))
    ensures LastGiven(es, given).GetOr(default) == given(Last(es)).GetOr(LastGiven(Init(es), given).GetOr(default))
  {
  }

  /** The header holds the last id, model, stop reason and counts that any event gave. */
  lemma {:induction false} HeaderContents(model: string, es: seq<Event>)
    ensures var h := EventFold(Start(model), es).header;
            && h.id == LastGiven(es, GivenId) && h.model == LastGiven(es, GivenModel).GetOr(model)
            && h.stopReason == LastGiven(es, GivenStopReason)
            && h.usage.input == LastGiven(es, GivenInput).GetOr(0)
            && h.usage.output == LastGiven(es, GivenOutput).GetOr(0)
            && h.usage.cached == LastGiven(es, GivenCached).GetOr(None)
    decreases |es|
  {
    if es != [] {
      var s := EventFold(Start(model), Init(es));
      HeaderContents(model, Init(es));
      EventFoldLast(Start(model), es);
      HeaderOfStep(s, Last(es));
      TotalTokensAlwaysAddUp(model, Init(es));
      HeaderStepTakes(s.header, Last(es));
      GivenLast(es, GivenId, "");
      GivenLast(es, GivenModel, model);
      GivenLast(es, GivenStopReason, "");
      GivenLast(es, GivenInput, 0);
      GivenLast(es, GivenOutput, 0);
      GivenLast(es, GivenCached, None);
    }
  }

  /** The texts of the text deltas, in order. */
  function DeltaTexts(es: seq<Event>): seq<string> {
    if es == [] then [] else DeltaTexts(Init(es)) + (if AddsText(Last(es)) then [Last(es).delta.text] else [])
  }

  predicate ShowsText(e: Event) {
    e.BlockDelta? && e.delta.TextDelta? && e.delta.text != ""
  }

  predicate ShowsTextOrTool(e: Event) {
    ShowsText(e) || (e.BlockStart? && e.block.StartTool?)
  }

  lemma SomeEventLast(es: seq<Event>, p: Event -> bool)
    requires es != []
    ensures (exists e :: e in es && p(e)) <==> (exists e :: e in Init(es) && p(e)) || p(Last(es))
  {
    assert es == Init(es) + [Last(es)];
  }

  lemma StepReports(s: FoldState, e: Event)
    requires s.toolBlocks.Keys == {} || s.progress.madeProgress
    ensures var r := EventStep(s, e);
            && r.deltas == s.deltas + (if AddsText(e) then [e.delta.text] else [])
            && (r.progress.emittedText <==> s.progress.emittedText || ShowsText(e))
            && (r.progress.madeProgress <==> s.progress.madeProgress || ShowsTextOrTool(e))
            && r.progress.sawEvent && (r.toolBlocks.Keys == {} || r.progress.madeProgress)
  {
  }

  /** The caller sees every text delta in order; the flags say whether any text, any text or tool, and any event
      at all has come. */
  lemma {:induction false} ReportedWhileStreaming(model: string, es: seq<Event>)
    ensures var s := EventFold(Start(model), es);
            && s.deltas == DeltaTexts(es)
            && (s.progress.emittedText <==> exists e :: e in es && ShowsText(e))
            && (s.progress.madeProgress <==> exists e :: e in es && ShowsTextOrTool(e))
            && (s.progress.sawEvent <==> es != [])
            && (s.toolBlocks.Keys == {} || s.progress.madeProgress)
    decreases |es|
  {
    if es != [] {
      ReportedWhileStreaming(model, Init(es));
      EventFoldLast(Start(model), es);
      StepReports(EventFold(Start(model), Init(es)), Last(es));
      SomeEventLast(es, ShowsText);
      SomeEventLast(es, ShowsTextOrTool);
    }
  }

  /** The indexes at which a text starts or grows, and those at which a tool starts. */
  function TextIndexes(es: seq<Event>): set<int> {
    set e | e in es && (StartsText(e) || AddsText(e)) :: e.index
  }

  function ToolIndexes(es: seq<Event>): set<int> {
    set e | e in es && StartsTool(e) :: e.index
  }

  lemma IndexesLast(before: seq<Event>, e: Event)
    ensures TextIndexes(before + [e]) == TextIndexes(before) + (if StartsText(e) || AddsText(e) then {e.index} else {})
    ensures ToolIndexes(before + [e]) == ToolIndexes(before) + (if StartsTool(e) then {e.index} else {})
  {
    assert forall x :: x in before + [e] <==> x in before || x == e;
  }

  lemma StepKeys(s: FoldState, e: Event)
    ensures var r := EventStep(s, e);
            && r.textBlocks.Keys == s.textBlocks.Keys + (if StartsText(e) || AddsText(e) then {e.index} else {})
            && r.toolBlocks.Keys == s.toolBlocks.Keys + (if StartsTool(e) then {e.index} else {})
  {
  }

  ghost predicate KeysAreIndexes(s: FoldState, es: seq<Event>) {
    s.textBlocks.Keys == TextIndexes(es) && s.toolBlocks.Keys == ToolIndexes(es)
  }

  lemma StepKeepsIndexes(s: FoldState, before: seq<Event>, e: Event)
    requires KeysAreIndexes(s, before)
    ensures KeysAreIndexes(EventStep(s, e), before + [e])
  {
    StepKeys(s, e);
    IndexesLast(before, e);
  }

  /** There is a text block for every index with a text start or delta, and a tool block for every index with a
      tool start. */
  lemma {:induction false} BlockIndexes(model: string, es: seq<Event>)
    ensures KeysAreIndexes(EventFold(Start(model), es), es)
    decreases |es|
  {
    if es != [] {
      BlockIndexes(model, Init(es));
      EventFoldLast(Start(model), es);
      StepKeepsIndexes(EventFold(Start(model), Init(es)), Init(es), Last(es));
      assert es == Init(es) + [Last(es)];
    }
  }

  /** The block gives no call: its input is no JSON object, or its identity is incomplete. */
  predicate Faulty(parse: string -> ParsedInput, b: ToolBlock) {
    b.id == "" || b.name == "" || !parse(if b.input == "" then "{}" else b.input).JsonObject?
  }

  predicate IsFault(parse: string -> ParsedInput, b: ToolBlock, n: nat, e: StreamError) {
    Faulty(parse, b) &&
    e == if parse(if b.input == "" then "{}" else b.input).InvalidJson? then MalformedToolInput(n)
         else MalformedToolCall(n)
  }

  lemma CallOrFault(parse: string -> ParsedInput, b: ToolBlock, n: nat)
    ensures var r := ParseToolCall(parse, b, n);
            (r.Ok? <==> !Faulty(parse, b)) && (r.Err? ==> IsFault(parse, b, n, r.error))
  {
  }

  lemma {:induction false} FirstFault(parse: string -> ParsedInput, blocks: map<int, ToolBlock>, keys: seq<int>,
                                      from: nat) returns (p: nat)
    requires forall j :: 0 <= j < |keys| ==> keys[j] in blocks
    ensures p <= |keys| && forall q :: 0 <= q < p ==> !Faulty(parse, blocks[keys[q]])
    ensures var r := ParseToolCalls(parse, blocks, keys, from);
            (r.Ok? <==> p == |keys|) && (r.Err? ==> IsFault(parse, blocks[keys[p]], from + p, r.error))
    decreases |keys|
  {
    p := 0;
    if keys != [] {
      CallOrFault(parse, blocks[keys[0]], from);
      if !Faulty(parse, blocks[keys[0]]) {
        var rest := FirstFault(parse, blocks, keys[1..], from + 1);
        p := rest + 1;
        forall q | 0 < q < p ensures !Faulty(parse, blocks[keys[q]]) {
          assert keys[q] == keys[1..][q - 1];
        }
      }
    }
  }

  lemma FaultsInOrder(parse: string -> ParsedInput, blocks: map<int, ToolBlock>, keys: seq<int>, p: nat)
    requires ListsSorted(keys, blocks.Keys) && p <= |keys|
    requires forall q :: 0 <= q < p ==> !Faulty(parse, blocks[keys[q]])
    ensures forall j :: j in blocks && (p == |keys| || j < keys[p]) ==> !Faulty(parse, blocks[j])
    ensures p < |keys| ==> Below(blocks.Keys, keys[p]) == p
  {
    forall j | j in blocks && (p == |keys| || j < keys[p]) ensures !Faulty(parse, blocks[j]) {
      var q :| 0 <= q < |keys| && keys[q] == j;
    }
    if p < |keys| { BelowListed(keys, blocks.Keys, p); }
  }

  lemma FirstFaultyBlock(parse: string -> ParsedInput, blocks: map<int, ToolBlock>, keys: seq<int>) returns (k: int)
    requires ListsSorted(keys, blocks.Keys)
    ensures var r := ParseToolCalls(parse, blocks, keys, 0);
            && (r.Ok? ==> forall j :: j in blocks ==> !Faulty(parse, blocks[j]))
            && (r.Err? ==>
                  && k in blocks && IsFault(parse, blocks[k], Below(blocks.Keys, k), r.error)
                  && forall j :: j in blocks && j < k ==> !Faulty(parse, blocks[j]))
  {
    var p := FirstFault(parse, blocks, keys, 0);
    k := if p < |keys| then keys[p] else 0;
    FaultsInOrder(parse, blocks, keys, p);
  }

  lemma AssemblyIsParsing(parse: string -> ParsedInput, s: FoldState, keys: seq<int>)
    requires keys == SortedKeys(s.toolBlocks.Keys)
    ensures var calls := ParseToolCalls(parse, s.toolBlocks, keys, 0);
            && Assemble(parse, s).Ok? == calls.Ok?
            && (calls.Err? ==> Assemble(parse, s) == Err(calls.error))
  {
  }

  /** A stream whose events are all well formed ends in an error exactly if some tool block is faulty, and the
      error is that of the faulty block with the smallest index, numbered among the tool blocks. */
  lemma AssemblyFailsAtFirstFault(parse: string -> ParsedInput, s: FoldState) returns (k: int)
    ensures Assemble(parse, s).Ok? ==> forall j :: j in s.toolBlocks ==> !Faulty(parse, s.toolBlocks[j])
    ensures Assemble(parse, s).Err? ==>
              && k in s.toolBlocks
              && IsFault(parse, s.toolBlocks[k], Below(s.toolBlocks.Keys, k), Assemble(parse, s).error)
              && forall j :: j in s.toolBlocks && j < k ==> !Faulty(parse, s.toolBlocks[j])
  {
    var keys := SortedKeysList(s.toolBlocks.Keys);
    k := FirstFaultyBlock(parse, s.toolBlocks, keys);
    AssemblyIsParsing(parse, s, keys);
  }

  /** All of a response in terms of the events: its message as in `MessageContents`, its calls as in
      `CallsFollowBlockIndexes`, the header as given last, and the number of blocks. */
  lemma ResponseContents(parse: string -> ParsedInput, model: string, es: seq<Event>) returns (parts: seq<string>)
    requires Assemble(parse, EventFold(Start(model), es)).Ok?
    ensures var s := EventFold(Start(model), es);
            var r := Assemble(parse, s).value;
            var visible := VisibleBlocks(s.textBlocks);
            && IsJoined(r.message, parts, "\n") && |parts| == |visible|
            && (forall k :: k in visible ==>
                  Below(visible, k) < |parts| && IsTrimmed(s.textBlocks[k], parts[Below(visible, k)]))
            && |r.toolCalls| == |s.toolBlocks.Keys|
            && (forall k :: k in s.toolBlocks ==>
                  Below(s.toolBlocks.Keys, k) < |r.toolCalls|
                  && IsCallOf(parse, s.toolBlocks[k], r.toolCalls[Below(s.toolBlocks.Keys, k)],
                              Below(s.toolBlocks.Keys, k)))
            && r.header.id == LastGiven(es, GivenId) && r.header.model == LastGiven(es, GivenModel).GetOr(model)
            && r.header.stopReason == LastGiven(es, GivenStopReason)
            && r.header.usage.input == LastGiven(es, GivenInput).GetOr(0)
            && r.header.usage.output == LastGiven(es, GivenOutput).GetOr(0)
            && r.header.usage.cached == LastGiven(es, GivenCached).GetOr(None)
            && r.contentCount == |TextIndexes(es)| + |ToolIndexes(es)|
  {
    parts := MessageContents(parse, EventFold(Start(model), es));
    CallsFollowBlockIndexes(parse, EventFold(Start(model), es).toolBlocks);
    HeaderContents(model, es);
    BlockIndexes(model, es);
  }
}
