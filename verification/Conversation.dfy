/** Conversation messages (src/types/runtime.ts). */
module Conversation {
  import opened Prelude

  datatype Role = System | User | Assistant | Tool

  /** Inputs of tool calls and metadata values are JSON; only strings are looked into. */
  datatype Json = Text(text: string) | Other(raw: string)

  datatype ToolCall = ToolCall(toolCallId: string, toolName: string, input: Json)

  datatype Message = Message(
    role: Role,
    content: string,
    toolCalls: Option<seq<ToolCall>>,
    toolCallId: Option<string>,
    toolName: Option<string>,
    metadata: map<string, Json>)

  predicate IsSystem(m: Message) {
    m.role == System
  }

  predicate IsTurn(m: Message) {
    m.role != System
  }

  function Calls(m: Message): seq<ToolCall> {
    m.toolCalls.GetOr([])
  }
}
