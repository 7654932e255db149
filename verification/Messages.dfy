/** Stored message rows and wire messages, as every stage of the loop sees them. */
module Messages {
  import opened Results

  datatype Role =
    | User | Assistant | System | Developer | ToolCall | ToolResult // wire roles
    | Cache         // a prompt-cache marker
    | Alert | Purge // stored rows only

  /** A content block of a tool_call, as far as it is read: whether its type is tool_use, and
      its id, "" when it has none. Annotation goes by the ids of all blocks, the orphan scan
      by those of tool_use blocks only. */
  datatype Block = Block(isToolUse: bool, id: string)

  /** A stored message row. Nullable text columns are "" when absent: the code tests
      them by truthiness only. `blocks` is the content of a tool_call row that parses as an
      array, and empty otherwise. */
  datatype Row = Row(
    id: string,
    role: Role,
    content: string,
    blocks: seq<Block>,
    modelId: string,
    toolName: string,
    createdAt: int,
    hostOrigin: string)

  /** A wire message; two messages are equal exactly when their bytes are. */
  datatype Msg = Msg(
    role: Role,
    content: string,
    blocks: seq<Block>,
    modelId: string,
    hostOrigin: Option<string>,
    toolUseId: string)

  /** A message with nothing but a role and text. */
  function Text(role: Role, content: string): Msg {
    Msg(role, content, [], "", None, "")
  }

  const YARD_CLIENT_CALL_ID_PREFIX := "yard-client-"

  /** Client-dispatch bookkeeping: a result row that no tool_call declares. */
  predicate IsYardClientBookkeepingRow(row: Row) {
    row.role.ToolResult? && YARD_CLIENT_CALL_ID_PREFIX <= row.toolName
  }
}
