/** The buffer loop of `generateStreaming` (src/providers/anthropic-compatible-provider.ts).

    The reader appends each decoded chunk to a buffer, hands the payload of every complete
    block to `HandlePayload`, and at the end also hands over the unterminated last block.
    Its result is a function of the whole text: how the network cut the text is irrelevant. */
module StreamReader {
  import opened Prelude
  import opened EventStreamText
  import opened EventFold

  type EventParser = string -> Option<Event>

  /** `Broken` is the state when a payload failed to parse and the stream was abandoned. */
  datatype Run = Reading(state: FoldState) | Broken(state: FoldState)

  function PayloadStep(parse: EventParser, s: FoldState, payload: string): Run {
    if Trim(payload) == "" then Reading(s)
    else
      match parse(payload)
      case None => Broken(s)
      case Some(e) => Reading(EventStep(s, e))
  }

  function PayloadFold(parse: EventParser, r: Run, payloads: seq<string>): Run
    decreases |payloads|
  {
    if payloads == [] || r.Broken? then r
    else PayloadFold(parse, PayloadStep(parse, r.state, payloads[0]), payloads[1..])
  }

  /** What the stream `text` amounts to when it is split once, as a whole. */
  function WholeRun(parse: EventParser, model: string, text: string): Run {
    PayloadFold(parse, Reading(Start(model)), AllPayloads(text))
  }

  function Outcome(parseInput: string -> ParsedInput, r: Run): Result<Response, StreamError> {
    match r
    case Broken(_) => Err(MalformedPayload)
    case Reading(s) => Assemble(parseInput, s)
  }

  lemma {:induction false} PayloadFoldConcat(parse: EventParser, r: Run, a: seq<string>, b: seq<string>)
    ensures PayloadFold(parse, r, a + b) == PayloadFold(parse, PayloadFold(parse, r, a), b)
    decreases |a|
  {
    if a == [] {
      assert a + b == b;
    } else if r.Reading? {
      assert (a + b)[1..] == a[1..] + b;
      PayloadFoldConcat(parse, PayloadStep(parse, r.state, a[0]), a[1..], b);
    }
  }

  // ----- The events of a stream -----

  /** The events that the payloads with a visible character parse to. */
  function ParsedEvents(parse: EventParser, payloads: seq<string>): seq<Event> {
    if payloads == [] then []
    else (if Trim(payloads[0]) == "" then [] else parse(payloads[0]).ToSeq()) + ParsedEvents(parse, payloads[1..])
  }

  ghost predicate Readable(parse: EventParser, payload: string) {
    AllSpace(payload) || parse(payload).Some?
  }

  ghost predicate AllReadable(parse: EventParser, payloads: seq<string>) {
    forall i :: 0 <= i < |payloads| ==> Readable(parse, payloads[i])
  }

  lemma ReadableTail(parse: EventParser, payloads: seq<string>)
    requires payloads != []
    ensures AllReadable(parse, payloads) <==> Readable(parse, payloads[0]) && AllReadable(parse, payloads[1..])
  {
    if AllReadable(parse, payloads[1..]) {
      forall i | 0 < i < |payloads| ensures Readable(parse, payloads[i]) {
        assert payloads[i] == payloads[1..][i - 1];
      }
    }
  }

  lemma OneStepOfFold(parse: EventParser, s: FoldState, payload: string)
    ensures var r := PayloadStep(parse, s, payload);
            && (r.Reading? <==> Readable(parse, payload))
            && (r.Reading? ==> r.state == EventFold.EventFold(s, ParsedEvents(parse, [payload])))
  {
    TrimIsTrimmed(payload);
    assert [payload][1..] == [];
  }

  lemma {:induction false} FoldConcat(s: FoldState, a: seq<Event>, b: seq<Event>)
    ensures EventFold.EventFold(s, a + b) == EventFold.EventFold(EventFold.EventFold(s, a), b)
    decreases |a|
  {
    if a == [] {
      assert a + b == b;
    } else {
      assert (a + b)[1..] == a[1..] + b;
      FoldConcat(EventStep(s, a[0]), a[1..], b);
    }
  }

  lemma ParsedEventsCons(parse: EventParser, payloads: seq<string>)
    requires payloads != []
    ensures ParsedEvents(parse, payloads) == ParsedEvents(parse, [payloads[0]]) + ParsedEvents(parse, payloads[1..])
  {
    assert [payloads[0]][1..] == [];
  }

  lemma {:induction false} ReadingFoldsEvents(parse: EventParser, s: FoldState, payloads: seq<string>)
    ensures var r := PayloadFold(parse, Reading(s), payloads);
            && (r.Reading? <==> AllReadable(parse, payloads))
            && (r.Reading? ==> r.state == EventFold.EventFold(s, ParsedEvents(parse, payloads)))
    decreases |payloads|
  {
    if payloads != [] {
      OneStepOfFold(parse, s, payloads[0]);
      ReadableTail(parse, payloads);
      ParsedEventsCons(parse, payloads);
      var next := PayloadStep(parse, s, payloads[0]);
      if next.Reading? {
        ReadingFoldsEvents(parse, next.state, payloads[1..]);
        FoldConcat(s, ParsedEvents(parse, [payloads[0]]), ParsedEvents(parse, payloads[1..]));
      }
    }
  }

  /** A stream is answered from the events of its payloads: it fails if a payload that is not blank cannot be parsed,
      and otherwise gives what the fold of the events assembles to. */
  lemma OutcomeOfStream(parse: EventParser, parseInput: string -> ParsedInput, model: string, text: string)
    ensures var payloads := AllPayloads(text);
            Outcome(parseInput, WholeRun(parse, model, text)) ==
              if AllReadable(parse, payloads)
              then Assemble(parseInput, EventFold.EventFold(Start(model), ParsedEvents(parse, payloads)))
              else Err(MalformedPayload)
  {
    ReadingFoldsEvents(parse, Start(model), AllPayloads(text));
  }

  class Reader {
    const parseEvent: EventParser
    const parseInput: string -> ParsedInput
    const configuredModel: string

    var buffer: string
    var id: Option<string>
    var model: string
    var stopReason: Option<string>
    var usage: Usage
    var textBlocks: map<int, string>
    var toolBlocks: map<int, ToolBlock>
    var progress: Progress
    var deltas: seq<string>

    constructor (parseEvent: EventParser, parseInput: string -> ParsedInput, model: string)
      ensures this.parseEvent == parseEvent && this.parseInput == parseInput && configuredModel == model
      ensures buffer == "" && State() == Start(model)
    {
      this.parseEvent := parseEvent;
      this.parseInput := parseInput;
      this.configuredModel := model;
      this.buffer := "";
      this.id := None;
      this.model := model;
      this.stopReason := None;
      this.usage := NO_USAGE;
      this.textBlocks := map[];
      this.toolBlocks := map[];
      this.progress := Progress(false, false, false);
      this.deltas := [];
    }

    ghost function State(): FoldState
      reads this
    {
      FoldState(Header(id, model, stopReason, usage), textBlocks, toolBlocks, progress, deltas)
    }

    /** Applies one payload; `ok` is false where the source throws on malformed JSON. */
    method HandlePayload(payload: string) returns (ok: bool)
      modifies this
      ensures (if ok then Reading(State()) else Broken(State())) == PayloadStep(parseEvent, old(State()), payload)
      ensures buffer == old(buffer)
    {
      if Trim(payload) == "" {
        return true;
      }
      var parsed := parseEvent(payload);
      if parsed.None? {
        return false;
      }
      progress := progress.(sawEvent := true);
      match parsed.value {
      case MessageStart(newId, newModel, fields) =>
        id := OrElse(newId, id);
        model := newModel.GetOr(model);
        usage := ToUsage(fields);
      case BlockStart(index, block) =>
        match block {
          case StartText(text) =>
            textBlocks := textBlocks[index := text];
          case StartTool(toolId, input, name) =>
            progress := progress.(madeProgress := true);
            toolBlocks := toolBlocks[index := ToolBlock(toolId, input, name)];
          case StartOther =>
        }
      case BlockDelta(index, delta) =>
        match delta {
          case TextDelta(text) =>
            if |text| > 0 {
              progress := progress.(emittedText := true, madeProgress := true);
            }
            textBlocks := textBlocks[index := Get(textBlocks, index).GetOr("") + text];
            deltas := deltas + [text];
          case InputJsonDelta(json) =>
            if index in toolBlocks {
              progress := progress.(madeProgress := true);
              toolBlocks := toolBlocks[index := toolBlocks[index].(input := toolBlocks[index].input + json)];
            }
          case OtherDelta =>
        }
      case MessageDelta(reason, outputTokens) =>
        stopReason := OrElse(reason, stopReason);
        var recount := ToUsage(Some(UsageFields(Some(usage.input), Some(outputTokens.GetOr(usage.output)),
                                                usage.cached)));
        usage := recount.(cached := OrElse(recount.cached, usage.cached));
      case Ignored =>
      }
      return true;
    }

    /** Hands over the payloads of `blocks` in order, stopping at the first malformed one. */
    method HandleBlocks(blocks: seq<string>) returns (ok: bool)
      modifies this
      ensures (if ok then Reading(State()) else Broken(State()))
              == PayloadFold(parseEvent, Reading(old(State())), Map(blocks, Payload))
      ensures buffer == old(buffer)
    {
      ghost var start, payloads := Reading(State()), Map(blocks, Payload);
      var i := 0;
      while i < |blocks|
        invariant 0 <= i <= |blocks|
        invariant PayloadFold(parseEvent, Reading(State()), payloads[i..]) == PayloadFold(parseEvent, start, payloads)
        invariant buffer == old(buffer)
      {
        NextPayload(parseEvent, State(), payloads, i);
        ok := HandlePayload(Payload(blocks[i]));
        if !ok { return; }
        i := i + 1;
      }
      return true;
    }

    /** Reads all chunks. The result depends on their concatenation only. */
    method GenerateStreaming(chunks: seq<string>) returns (r: Result<Response, StreamError>)
      requires buffer == "" && State() == Start(configuredModel)
      modifies this
      ensures State() == WholeRun(parseEvent, configuredModel, Concat(chunks)).state
      ensures r == Outcome(parseInput, WholeRun(parseEvent, configuredModel, Concat(chunks)))
    {
      ghost var start := Reading(Start(configuredModel));
      var i := 0;
      while i < |chunks|
        invariant 0 <= i <= |chunks|
        invariant buffer == Last(Split(BlankLine, Concat(chunks[..i])))
        invariant PayloadFold(parseEvent, start, CompletePayloads(Concat(chunks[..i]))) == Reading(State())
      {
        ghost var text := Concat(chunks[..i]);
        ConcatTake(chunks, i);
        CompletePayloadsStep(text, chunks[i]);
        PayloadFoldConcat(parseEvent, start, CompletePayloads(text), CompletePayloads(buffer + chunks[i]));
        buffer := buffer + chunks[i];
        var events := Split(BlankLine, buffer);
        buffer := Last(events);
        var ok := HandleBlocks(Init(events));
        if !ok {
          BrokenEarly(parseEvent, start, text + chunks[i], Concat(chunks[i + 1..]));
          ConcatSplit(chunks, i + 1);
          return Err(MalformedPayload);
        }
        i := i + 1;
      }
      assert chunks[..i] == chunks;
      ghost var text := Concat(chunks);
      PayloadFoldConcat(parseEvent, start, CompletePayloads(text), TrailingPayloads(text));
      if Trim(buffer) != "" {
        OnePayload(parseEvent, State(), Payload(buffer));
        var ok := HandlePayload(Payload(buffer));
        if !ok {
          return Err(MalformedPayload);
        }
      }
      r := Assemble(parseInput,
                    FoldState(Header(id, model, stopReason, usage), textBlocks, toolBlocks, progress, deltas));
    }
  }

  lemma OnePayload(parse: EventParser, s: FoldState, payload: string)
    ensures PayloadFold(parse, Reading(s), [payload]) == PayloadStep(parse, s, payload)
  {
    assert [payload][1..] == [];
  }

  lemma NextPayload(parse: EventParser, s: FoldState, payloads: seq<string>, i: nat)
    requires i < |payloads|
    ensures PayloadFold(parse, Reading(s), payloads[i..])
            == PayloadFold(parse, PayloadStep(parse, s, payloads[i]), payloads[i + 1..])
  {
    assert payloads[i..][1..] == payloads[i + 1..];
  }

  lemma ConcatTake(chunks: seq<string>, i: nat)
    requires i < |chunks|
    ensures Concat(chunks[..i + 1]) == Concat(chunks[..i]) + chunks[i]
  {
    assert chunks[..i + 1] == chunks[..i] + [chunks[i]];
    ConcatAppend(chunks[..i], [chunks[i]]);
    ConcatOne(chunks[i]);
  }

  lemma ConcatSplit(chunks: seq<string>, i: nat)
    requires i <= |chunks|
    ensures Concat(chunks) == Concat(chunks[..i]) + Concat(chunks[i..])
  {
    assert chunks == chunks[..i] + chunks[i..];
    ConcatAppend(chunks[..i], chunks[i..]);
  }

  /** A stream that breaks on its first part breaks in the same state whatever follows. */
  lemma BrokenEarly(parse: EventParser, start: Run, text: string, rest: string)
    requires PayloadFold(parse, start, CompletePayloads(text)).Broken?
    ensures PayloadFold(parse, start, AllPayloads(text + rest)) == PayloadFold(parse, start, CompletePayloads(text))
  {
    CompletePayloadsStep(text, rest);
    var more := CompletePayloads(Last(Split(BlankLine, text)) + rest);
    var tail := TrailingPayloads(text + rest);
    ConcatAssociates(CompletePayloads(text), more, tail);
    PayloadFoldConcat(parse, start, CompletePayloads(text), more + tail);
  }

  // ----- Chunk invariance on its own -----

  /** The payloads handed over while `chunks` arrive on top of what is buffered: the loop of the
      reader without the fold. */
  function PayloadsOfChunks(buffer: string, chunks: seq<string>): seq<string>
    decreases |chunks|
  {
    if chunks == [] then (if Trim(buffer) != "" then [Payload(buffer)] else [])
    else
      var events := Split(BlankLine, buffer + chunks[0]);
      Map(Init(events), Payload) + PayloadsOfChunks(Last(events), chunks[1..])
  }

  /** However the text is cut, the reader hands over the payloads of one split of the whole text. */
  lemma ChunkingDoesNotMatter(chunks: seq<string>)
    ensures PayloadsOfChunks("", chunks) == AllPayloads(Concat(chunks))
  {
    assert Split(BlankLine, "") == [""];
    ChunksAfterText("", chunks);
    assert "" + Concat(chunks) == Concat(chunks);
    assert CompletePayloads("") == [];
  }

  lemma {:induction false} ChunksAfterText(text: string, chunks: seq<string>)
    ensures CompletePayloads(text) + PayloadsOfChunks(Last(Split(BlankLine, text)), chunks)
            == AllPayloads(text + Concat(chunks))
    decreases |chunks|
  {
    var buffer := Last(Split(BlankLine, text));
    if chunks == [] {
      assert text + Concat(chunks) == text;
    } else {
      CompletePayloadsStep(text, chunks[0]);
      ChunksAfterText(text + chunks[0], chunks[1..]);
      ConcatAssociates(text, chunks[0], Concat(chunks[1..]));
      ConcatAssociates(CompletePayloads(text), CompletePayloads(buffer + chunks[0]),
                       PayloadsOfChunks(Last(Split(BlankLine, buffer + chunks[0])), chunks[1..]));
    }
  }

  /** Leaving out a blank last block is no loss: its payload would have been ignored anyway. */
  lemma EveryPieceOfTheSplitIsHandled(parse: EventParser, r: Run, text: string)
    ensures PayloadFold(parse, r, AllPayloads(text)) == PayloadFold(parse, r, Map(Split(BlankLine, text), Payload))
  {
    var parts := Split(BlankLine, text);
    var tail := Last(parts);
    assert parts == Init(parts) + [tail];
    MapConcat(Init(parts), [tail], Payload);
    assert Map([tail], Payload) == [Payload(tail)];
    PayloadFoldConcat(parse, r, CompletePayloads(text), TrailingPayloads(text));
    PayloadFoldConcat(parse, r, CompletePayloads(text), [Payload(tail)]);
    if Trim(tail) == "" {
      BlankBlockHasNoPayload(tail);
      var s := PayloadFold(parse, r, CompletePayloads(text));
      if s.Reading? { OnePayload(parse, s.state, Payload(tail)); }
    }
  }

  lemma BlankBlockHasNoPayload(block: string)
    requires Trim(block) == ""
    ensures Payload(block) == ""
  {
    BlankIsAllSpace(block);
    var lines := Split(LineEnd, block);
    var gaps := SplitCutsAtSeparators(LineEnd, block);
    PiecesOfBlankAreBlank(lines, gaps);
    NoDataLines(lines);
  }

  lemma {:induction false} PiecesOfBlankAreBlank(parts: seq<string>, gaps: seq<string>)
    requires |parts| == |gaps| + 1 && AllSpace(Interleave(parts, gaps))
    ensures forall i :: 0 <= i < |parts| ==> AllSpace(parts[i])
    decreases |gaps|
  {
    if gaps != [] {
      var rest := Interleave(parts[1..], gaps[1..]);
      var whole := Interleave(parts, gaps);
      assert forall k :: 0 <= k < |parts[0]| ==> parts[0][k] == whole[k];
      assert forall k :: 0 <= k < |rest| ==> rest[k] == whole[|parts[0]| + |gaps[0]| + k];
      PiecesOfBlankAreBlank(parts[1..], gaps[1..]);
      assert forall i :: 0 < i < |parts| ==> parts[i] == parts[1..][i - 1];
    }
  }

  ghost predicate AllSpace(s: string) {
    forall k :: 0 <= k < |s| ==> IsSpace(s[k])
  }

  lemma {:induction false} NoDataLines(lines: seq<string>)
    requires forall i :: 0 <= i < |lines| ==> AllSpace(lines[i])
    ensures Filter(lines, IsDataLine) == []
    decreases |lines|
  {
    if lines != [] {
      assert DATA_FIELD[0] == 'd' && !IsSpace('d');
      NoDataLines(lines[1..]);
    }
  }

  lemma {:induction false} BlankIsAllSpace(s: string)
    requires Trim(s) == ""
    ensures AllSpace(s)
    decreases |s|
  {
    if s != "" && IsSpace(s[0]) {
      BlankIsAllSpace(s[1..]);
      assert forall k :: 0 < k < |s| ==> s[k] == s[1..][k - 1];
    } else {
      EndBlankIsAllSpace(s);
    }
  }

  lemma {:induction false} EndBlankIsAllSpace(s: string)
    requires TrimEnd(s) == ""
    ensures AllSpace(s)
    decreases |s|
  {
    if s != "" {
      EndBlankIsAllSpace(Init(s));
      assert forall k :: 0 <= k < |s| - 1 ==> s[k] == Init(s)[k];
    }
  }
}
