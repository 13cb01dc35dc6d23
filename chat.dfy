/**
 * What the chat server and client share: their result codes and the readiness events
 * they ask their caller to wait for. The numeric values live in a header that is not
 * part of this model, so the codes are named rather than numbered.
 */
module Chat {
  /** A chat result: `Ok` is 0, the others are the `CHAT_ERR_*` codes the two files use. */
  datatype ChatCode = Ok | InvalidArgument | NotStarted | AlreadyStarted | Timeout | Sys

  /** The `CHAT_EVENT_INPUT` / `CHAT_EVENT_OUTPUT` bits of a `get_events` result. */
  datatype Events = Events(input: bool, output: bool)

  const NoEvents := Events(false, false)
}
