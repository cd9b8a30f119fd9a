/** The messages the agent exchanges with a model (internal/agent/types.go). */
module Conversation {
  /** Raw JSON tool input, and what decoding it and encoding it again gives:
      "null" where it is not JSON. */
  datatype Input = Input(text: string, again: string)

  datatype Block =
    | Text(text: string)
    | Thinking(text: string)
    | ToolUse(id: string, name: string, input: Input)
    | ToolResult(toolUseId: string, content: string, isError: bool)
    | Other(kind: string)

  const USER := "user"
  const ASSISTANT := "assistant"

  /** The stop reason of a reply that waits for its tools. */
  const TOOL_USE := "tool_use"

  datatype Message = Message(role: string, content: seq<Block>)

  function UserText(text: string): Message { Message(USER, [Text(text)]) }

  datatype Usage = Usage(input: int, output: int, cacheCreation: int, cacheRead: int)

  /** The ids of the tool calls in a message's content, in order. */
  function CallIds(content: seq<Block>): seq<string>
  {
    if |content| == 0 then []
    else CallIds(content[..|content| - 1]) +
         if content[|content| - 1].ToolUse? then [content[|content| - 1].id] else []
  }

  /** The ids that tool results answer, in order. */
  function AnsweredIds(content: seq<Block>): seq<string>
  {
    if |content| == 0 then []
    else AnsweredIds(content[..|content| - 1]) +
         if content[|content| - 1].ToolResult? then [content[|content| - 1].toolUseId] else []
  }

  predicate OnlyResults(content: seq<Block>)
  {
    forall i :: 0 <= i < |content| ==> content[i].ToolResult?
  }

  /** Message `i` asks for no tools, or the next one is the user's and consists of
      the results of exactly its calls, in their order; and it brings no results,
      or those of the message before. */
  ghost predicate PairedAt(messages: seq<Message>, i: nat)
    requires i < |messages|
  {
    && (messages[i].role == ASSISTANT && CallIds(messages[i].content) != [] ==>
          && i + 1 < |messages| && messages[i + 1].role == USER && OnlyResults(messages[i + 1].content)
          && AnsweredIds(messages[i + 1].content) == CallIds(messages[i].content))
    && (messages[i].role == USER && AnsweredIds(messages[i].content) != [] ==>
          && i > 0 && messages[i - 1].role == ASSISTANT
          && CallIds(messages[i - 1].content) == AnsweredIds(messages[i].content))
  }

  ghost predicate Paired(messages: seq<Message>)
  {
    forall i :: 0 <= i < |messages| ==> PairedAt(messages, i)
  }
}
