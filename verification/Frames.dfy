/**
 What the bridge writes to its logs: the frames of operations
 (src-tauri/src/bridge/ops.rs) and notices that belong to none. The serialized
 text is abstract: what it says and how many bytes it takes.
 */
module Frames {
  import opened Wrappers

  datatype Status = Running | Completed | Failed | Interrupted

  /** How an operation ended; the payloads are opaque text. */
  datatype Outcome = Outcome(status: Status, result: Option<string>, error: Option<string>)

  datatype Frame =
    | Message(op: string, text: string)
    | Terminal(op: string, outcome: Outcome)
    | Notice(text: string)

  datatype Payload = Payload(frame: Frame, length: nat)
}
