/** System blocks and messages of an Anthropic request (src/providers/anthropic-request.ts). */
module AnthropicRequest {
  import opened Conversation
  import opened Prelude
  import opened PromptPrefix

  datatype SystemBlock = SystemBlock(text: string, cached: bool)

  datatype ContentBlock =
    | TextBlock(text: string)
    | ToolResult(content: string, toolUseId: string)
    | ToolUse(id: string, input: Json, name: string)

  datatype Content = Plain(text: string) | Blocks(blocks: seq<ContentBlock>)

  datatype AnthropicMessage = AnthropicMessage(fromAssistant: bool, content: Content)

  // ----- System blocks -----

  function TrimmedContent(m: Message): string {
    Trim(m.content)
  }

  predicate NotBlank(text: string) {
    text != ""
  }

  function JoinSystemTexts(messages: seq<Message>): Option<string> {
    var text := Join(Filter(Map(messages, TrimmedContent), NotBlank), "\n\n");
    if text != "" then Some(text) else None
  }

  function BlockOf(text: Option<string>, cached: bool): seq<SystemBlock> {
    if text.Some? then [SystemBlock(text.value, cached)] else []
  }

  function SystemBlocks(messages: seq<Message>): Option<seq<SystemBlock>> {
    var system := Filter(messages, IsSystem);
    var blocks := BlockOf(JoinSystemTexts(Filter(system, IsStableSystem)), true)
                  + BlockOf(JoinSystemTexts(Filter(system, IsStableMemory)), true)
                  + BlockOf(JoinSystemTexts(Filter(system, IsVariable)), false);
    if blocks == [] then None else Some(blocks)
  }

  method ToAnthropicSystemBlocks(messages: seq<Message>) returns (r: Option<seq<SystemBlock>>)
    ensures r == SystemBlocks(messages)
  {
    var systemMessages := Filter(messages, IsSystem);
    var stableSystem := JoinSystemTexts(Filter(systemMessages, IsStableSystem));
    var stableMemory := JoinSystemTexts(Filter(systemMessages, IsStableMemory));
    var variable := JoinSystemTexts(Filter(systemMessages, IsVariable));
    var blocks: seq<SystemBlock> := [];
    if stableSystem.Some? {
      blocks := blocks + [SystemBlock(stableSystem.value, true)];
    }
    if stableMemory.Some? {
      blocks := blocks + [SystemBlock(stableMemory.value, true)];
    }
    if variable.Some? {
      blocks := blocks + [SystemBlock(variable.value, false)];
    }
    assert blocks == BlockOf(stableSystem, true) + BlockOf(stableMemory, true) + BlockOf(variable, false);
    r := if |blocks| > 0 then Some(blocks) else None;
  }

  // ----- Messages -----

  function ToolUseOf(call: ToolCall): ContentBlock {
    ToolUse(call.toolCallId, call.input, call.toolName)
  }

  function Encode(m: Message): AnthropicMessage {
    if m.role == Tool then AnthropicMessage(false, Blocks([ToolResult(m.content, m.toolCallId.GetOr("tool-result"))]))
    else if m.role == Assistant && Calls(m) != [] then
      var text := if Trim(m.content) != "" then [TextBlock(m.content)] else [];
      AnthropicMessage(true, Blocks(text + Map(Calls(m), ToolUseOf)))
    else AnthropicMessage(m.role == Assistant, Plain(m.content))
  }

  function Messages(messages: seq<Message>): seq<AnthropicMessage> {
    Map(Filter(messages, IsTurn), Encode)
  }

  method EncodeCalls(m: Message) returns (blocks: seq<ContentBlock>)
    requires m.role == Assistant && Calls(m) != []
    ensures Encode(m) == AnthropicMessage(true, Blocks(blocks))
  {
    blocks := [];
    if |Trim(m.content)| > 0 {
      blocks := blocks + [TextBlock(m.content)];
    }
    var calls := Calls(m);
    ghost var text := blocks;
    assert text == if Trim(m.content) != "" then [TextBlock(m.content)] else [];
    for n := 0 to |calls|
      invariant blocks == text + Map(calls[..n], ToolUseOf)
    {
      assert Map(calls[..n + 1], ToolUseOf) == Map(calls[..n], ToolUseOf) + [ToolUseOf(calls[n])];
      blocks := blocks + [ToolUseOf(calls[n])];
    }
    assert calls[..|calls|] == calls;
  }

  // ----- Reordering the leading system messages does not change the request -----

  lemma StabilizedFilters(messages: seq<Message>, p: Message -> bool)
    requires Filter(ByClass(Leading(messages)), p) == Filter(Leading(messages), p)
    ensures Filter(Stabilized(messages), p) == Filter(messages, p)
  {
    FilterConcat(ByClass(Leading(messages)), Turns(messages), p);
    FilterConcat(Leading(messages), Turns(messages), p);
    assert messages == Leading(messages) + Turns(messages);
  }

  lemma OnlySystem(run: seq<Message>)
    requires forall i :: 0 <= i < |run| ==> IsSystem(run[i])
    ensures Filter(run, IsSystem) == run && Filter(run, IsTurn) == []
  {
    FilterAll(run, IsSystem);
    FilterNone(run, IsTurn);
  }

  lemma RunsAreSystem(messages: seq<Message>)
    ensures var leading := Leading(messages);
            && Filter(leading, IsSystem) == leading && Filter(ByClass(leading), IsSystem) == ByClass(leading)
            && Filter(leading, IsTurn) == [] && Filter(ByClass(leading), IsTurn) == []
  {
    LeadingAreSystem(messages);
    SortedAreSystem(Leading(messages));
    OnlySystem(Leading(messages));
    OnlySystem(ByClass(Leading(messages)));
  }

  lemma SortedAreSystem(run: seq<Message>)
    requires forall i :: 0 <= i < |run| ==> IsSystem(run[i])
    ensures forall i :: 0 <= i < |ByClass(run)| ==> IsSystem(ByClass(run)[i])
  {
    ByClassIsPermutation(run);
    forall i | 0 <= i < |ByClass(run)| ensures IsSystem(ByClass(run)[i]) {
      assert ByClass(run)[i] in multiset(ByClass(run));
      assert ByClass(run)[i] in run;
    }
  }

  /** The system messages are the sorted run followed by the later system messages. */
  lemma SystemMessages(messages: seq<Message>)
    ensures Filter(messages, IsSystem) == Leading(messages) + Filter(Turns(messages), IsSystem)
    ensures Filter(Stabilized(messages), IsSystem) == ByClass(Leading(messages)) + Filter(Turns(messages), IsSystem)
  {
    RunsAreSystem(messages);
    FilterConcat(Leading(messages), Turns(messages), IsSystem);
    FilterConcat(ByClass(Leading(messages)), Turns(messages), IsSystem);
    assert messages == Leading(messages) + Turns(messages);
  }

  lemma ClassIsKept(messages: seq<Message>, p: Message -> bool)
    requires Filter(ByClass(Leading(messages)), p) == Filter(Leading(messages), p)
    ensures Filter(Filter(Stabilized(messages), IsSystem), p) == Filter(Filter(messages, IsSystem), p)
  {
    SystemMessages(messages);
    FilterConcat(Leading(messages), Filter(Turns(messages), IsSystem), p);
    FilterConcat(ByClass(Leading(messages)), Filter(Turns(messages), IsSystem), p);
  }

  /** Stabilising a conversation changes neither the system blocks nor the messages of its request. */
  lemma StabilizingKeepsTheRequest(messages: seq<Message>)
    ensures SystemBlocks(Stabilized(messages)) == SystemBlocks(messages)
    ensures Messages(Stabilized(messages)) == Messages(messages)
  {
    ByClassKeepsClasses(Leading(messages));
    ClassIsKept(messages, IsStableSystem);
    ClassIsKept(messages, IsStableMemory);
    ClassIsKept(messages, IsVariable);
    RunsAreSystem(messages);
    StabilizedFilters(messages, IsTurn);
  }

  // ----- What a request carries -----

  /** How many of the messages before `n` are not system messages. */
  ghost function TurnsBelow(messages: seq<Message>, n: nat): nat {
    |set i: nat | i < n && i < |messages| && messages[i].role != System|
  }

  ghost predicate IsToolUse(b: ContentBlock, call: ToolCall) {
    b.ToolUse? && b.id == call.toolCallId && b.name == call.toolName && b.input == call.input
  }

  /** `a` carries message `m`: an answer of a tool with its call id, an assistant's visible text and all its calls in
      order, or the plain text. */
  ghost predicate Carries(a: AnthropicMessage, m: Message) {
    if m.role == Tool then
      && !a.fromAssistant && a.content.Blocks? && |a.content.blocks| == 1 && a.content.blocks[0].ToolResult?
      && a.content.blocks[0].content == m.content
      && a.content.blocks[0].toolUseId == (if m.toolCallId.Some? then m.toolCallId.value else "tool-result")
    else if m.role == Assistant && m.toolCalls.Some? && m.toolCalls.value != [] then
      && a.fromAssistant && a.content.Blocks?
      && var blocks, calls, texts := a.content.blocks, m.toolCalls.value, if AllSpace(m.content) then 0 else 1;
         && |blocks| == texts + |calls| && (texts == 1 ==> blocks[0] == TextBlock(m.content))
         && forall k :: 0 <= k < |calls| ==> IsToolUse(blocks[texts + k], calls[k])
    else
      a == AnthropicMessage(m.role == Assistant, Plain(m.content))
  }

  lemma UsesAfterText(text: seq<ContentBlock>, calls: seq<ToolCall>)
    ensures var blocks := text + Map(calls, ToolUseOf);
            && |blocks| == |text| + |calls|
            && forall k :: 0 <= k < |calls| ==> IsToolUse(blocks[|text| + k], calls[k])
  {
    var uses := Map(calls, ToolUseOf);
    forall k | 0 <= k < |calls| ensures IsToolUse((text + uses)[|text| + k], calls[k]) {
      assert (text + uses)[|text| + k] == uses[k];
    }
  }

  lemma CallsAreCarried(m: Message)
    requires m.role == Assistant && Calls(m) != []
    ensures Carries(Encode(m), m)
  {
    TrimIsTrimmed(m.content);
    var text := if Trim(m.content) != "" then [TextBlock(m.content)] else [];
    UsesAfterText(text, Calls(m));
    assert Encode(m) == AnthropicMessage(true, Blocks(text + Map(Calls(m), ToolUseOf)));
  }

  lemma EncodingCarries(m: Message)
    ensures Carries(Encode(m), m)
  {
    if m.role == Assistant && Calls(m) != [] { CallsAreCarried(m); }
  }

  lemma TurnsCounted(messages: seq<Message>, n: nat)
    requires n <= |messages|
    ensures Count(messages[..n], IsTurn) == TurnsBelow(messages, n)
  {
    CountIsPositions(messages[..n], IsTurn);
    assert Positions(messages[..n], IsTurn) == set i: nat | i < n && i < |messages| && messages[i].role != System;
  }

  /** The messages of a request carry the messages of the conversation that are not system messages, one each and in
      order. */
  lemma MessagesCarryTurns(messages: seq<Message>)
    ensures |Messages(messages)| == TurnsBelow(messages, |messages|)
    ensures forall i: nat :: i < |messages| && messages[i].role != System ==>
              && TurnsBelow(messages, i) < |Messages(messages)|
              && Carries(Messages(messages)[TurnsBelow(messages, i)], messages[i])
  {
    TurnsCounted(messages, |messages|);
    assert messages[..|messages|] == messages;
    FilterLength(messages, IsTurn);
    forall i: nat | i < |messages| && messages[i].role != System
      ensures TurnsBelow(messages, i) < |Messages(messages)|
      ensures Carries(Messages(messages)[TurnsBelow(messages, i)], messages[i])
    {
      TurnsCounted(messages, i);
      FilterPosition(messages, IsTurn, i);
      EncodingCarries(messages[i]);
    }
  }

  // ----- What the system blocks say -----

  ghost predicate HasInk(m: Message) {
    !AllSpace(m.content)
  }

  ghost function InkBelow(messages: seq<Message>, n: nat): nat {
    |set i: nat | i < n && i < |messages| && HasInk(messages[i])|
  }

  /** One part for each message with visible text, in order and without the outer white space. */
  ghost predicate IsPartOfEach(messages: seq<Message>, parts: seq<string>) {
    && |parts| == InkBelow(messages, |messages|)
    && forall i: nat :: i < |messages| && HasInk(messages[i]) ==>
         InkBelow(messages, i) < |parts| && IsTrimmed(messages[i].content, parts[InkBelow(messages, i)])
  }

  lemma InkCounted(messages: seq<Message>, n: nat)
    requires n <= |messages|
    ensures Count(Map(messages, TrimmedContent)[..n], NotBlank) == InkBelow(messages, n)
  {
    var texts := Map(messages, TrimmedContent);
    CountIsPositions(texts[..n], NotBlank);
    forall i: nat | i < n ensures NotBlank(texts[..n][i]) <==> HasInk(messages[i]) {
      TrimIsTrimmed(messages[i].content);
    }
    assert Positions(texts[..n], NotBlank) == set i: nat | i < n && i < |messages| && HasInk(messages[i]);
  }

  lemma JoinedSomething(text: string, parts: seq<string>, sep: string)
    requires parts != [] && parts[0] != "" && IsJoined(text, parts, sep)
    ensures text != ""
  {
    assert Map(parts, FollowedBy(sep))[0] == parts[0] + sep;
    assert |Concat(Map(parts, FollowedBy(sep)))| >= |parts[0] + sep|;
  }

  /** The joined text of a class of system messages is made of the trimmed texts of those that have any, with blank
      lines between them; there is none if none has. */
  lemma JoinedSystemTexts(messages: seq<Message>) returns (parts: seq<string>)
    ensures IsPartOfEach(messages, parts)
    ensures var text := JoinSystemTexts(messages);
            (text.None? <==> parts == []) && (text.Some? ==> IsJoined(text.value, parts, "\n\n"))
  {
    var texts := Map(messages, TrimmedContent);
    parts := Filter(texts, NotBlank);
    InkCounted(messages, |messages|);
    assert texts[..|texts|] == texts;
    FilterLength(texts, NotBlank);
    forall i: nat | i < |messages| && HasInk(messages[i])
      ensures InkBelow(messages, i) < |parts| && IsTrimmed(messages[i].content, parts[InkBelow(messages, i)])
    {
      InkCounted(messages, i);
      TrimIsTrimmed(messages[i].content);
      FilterPosition(texts, NotBlank, i);
    }
    JoinJoins(parts, "\n\n");
    FilterMembers(texts, NotBlank);
    if parts != [] { JoinedSomething(Join(parts, "\n\n"), parts, "\n\n"); }
  }

  /** The texts of the three classes of system messages, in this order, as far as they have any. */
  lemma SystemBlocksContents(messages: seq<Message>)
      returns (prompts: seq<string>, memories: seq<string>, others: seq<string>)
    ensures var system := Filter(messages, IsSystem);
            && IsPartOfEach(Filter(system, IsStableSystem), prompts)
            && IsPartOfEach(Filter(system, IsStableMemory), memories)
            && IsPartOfEach(Filter(system, IsVariable), others)
    ensures SystemBlocks(messages).None? <==> prompts == [] && memories == [] && others == []
    ensures SystemBlocks(messages).Some? ==>
              var blocks := SystemBlocks(messages).value;
              var a, b := if prompts == [] then 0 else 1, if memories == [] then 0 else 1;
              var c := if others == [] then 0 else 1;
              && |blocks| == a + b + c
              && (prompts != [] ==> blocks[0].cached && IsJoined(blocks[0].text, prompts, "\n\n"))
              && (memories != [] ==> blocks[a].cached && IsJoined(blocks[a].text, memories, "\n\n"))
              && (others != [] ==> !blocks[a + b].cached && IsJoined(blocks[a + b].text, others, "\n\n"))
  {
    var system := Filter(messages, IsSystem);
    prompts := JoinedSystemTexts(Filter(system, IsStableSystem));
    memories := JoinedSystemTexts(Filter(system, IsStableMemory));
    others := JoinedSystemTexts(Filter(system, IsVariable));
  }
}
