/** The ways talking to an MCP server goes wrong (crates/harness/src/mcp.rs, `McpError`).
    The wording of protocol errors is reduced to which rule was broken. */
module McpError {
  import opened Json
  import opened Outcomes

  datatype Fault =
    | SseLineNotUtf8
    | SseDataNotJson
    | BodyNotJson
    | MalformedErrorObject
    | IdMismatch(want: nat, got: Option<Json>)
    | NeitherResultNorError
    | StreamEnded(id: nat)
    | NoToolsArray
    | EntryWithoutName(index: nat)
    | CursorNotString
    | TooManyPages

  datatype McpError =
    | Timeout
    | Transport
    | HttpStatus(status: nat)
    | JsonRpc(code: int, message: string)
    | Protocol(fault: Fault)
    | NameCollision(name: string)
    | InvalidTool(tool: string)
}
