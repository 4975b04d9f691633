/** The vocabulary every layer shares: error codes, faults at their two scopes, and results. */
module H2 {
  import opened Octets

  const PROTOCOL_ERROR: uint32 := 0x1
  const INTERNAL_ERROR: uint32 := 0x2
  const FLOW_CONTROL_ERROR: uint32 := 0x3
  const FRAME_SIZE_ERROR: uint32 := 0x6
  const ENHANCE_YOUR_CALM: uint32 := 0xb

  /** The largest flow-control window, and so the largest SETTINGS_INITIAL_WINDOW_SIZE. */
  const MAX_WINDOW_SIZE := 0x7FFF_FFFF

  /** Why an operation failed. Only a StreamError leaves the connection usable. */
  datatype Fault =
    | ConnError(code: uint32)
    | StreamError(streamId: uint32, code: uint32)
    | Eof
    | UnexpectedEof
    | IoFailure
    | ShortWrite

  datatype Option<+T> = None | Some(value: T)

  datatype Result<+T> = Ok(value: T) | Err(fault: Fault) {
    predicate IsFailure() {
      Err?
    }

    function PropagateFailure<U>(): Result<U>
      requires Err?
    {
      Err(fault)
    }

    function Extract(): T
      requires Ok?
    {
      value
    }
  }
}
