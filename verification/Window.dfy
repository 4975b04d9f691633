/** One flow-control window: the credit-based counter of section 6.9 of RFC 9113, with its error scoping. */
module FlowWindow {
  import opened Octets
  import opened H2

  const INITIAL_WINDOW_SIZE: uint32 := 0xFFFF

  /** The value of a window: its stream (zero is the connection), the initial size last applied, and its credit. */
  datatype Win = Win(streamId: uint32, initial: int, n: int)

  /** The scope of a window's error follows the window. */
  function ScopedFault(streamId: uint32): Fault {
    if streamId == 0 then ConnError(FLOW_CONTROL_ERROR) else StreamError(streamId, FLOW_CONTROL_ERROR)
  }

  /**
    What every reachable window satisfies: the credit never exceeds the maximum, and the credit above the
    initial size in force never falls below minus the maximum. The first bounds the window on one side and the
    two together on the other.
   */
  ghost predicate InRange(w: Win) {
    0 <= w.initial <= MAX_WINDOW_SIZE && -MAX_WINDOW_SIZE <= w.n - w.initial && w.n <= MAX_WINDOW_SIZE
  }

  class Window {
    const streamId: uint32
    var initial: int
    var n: int

    function Value(): Win
      reads this
    {
      Win(streamId, initial, n)
    }

    constructor Conn()
      ensures Value() == Win(0, INITIAL_WINDOW_SIZE, INITIAL_WINDOW_SIZE) && InRange(Value())
    {
      streamId, initial, n := 0, INITIAL_WINDOW_SIZE, INITIAL_WINDOW_SIZE;
    }

    /** The source panics on stream zero and on a size above the maximum. */
    constructor Stream(id: uint32, initial: uint32)
      requires id != 0 && initial <= MAX_WINDOW_SIZE
      ensures Value() == Win(id, initial, initial) && InRange(Value())
    {
      this.streamId, this.initial, n := id, initial, initial;
    }

    function Available(): int
      reads this
    {
      n
    }

    /** An empty frame always passes; any other needs its whole length in credit. A refusal changes nothing. */
    method Consume(k: uint32) returns (err: Option<Fault>)
      modifies this`n
      ensures err == if k == 0 || k <= old(n) then None else Some(ScopedFault(streamId))
      ensures n == old(n) - if err.None? then k else 0
      ensures old(InRange(Value())) ==> InRange(Value())
    {
      if k == 0 {
        return None;
      }
      if k > n {
        return Some(ScopedFault(streamId));
      }
      n := n - k;
      return None;
    }

    method Increase(k: uint32) returns (err: Option<Fault>)
      modifies this`n
      ensures err == if old(n) + k > MAX_WINDOW_SIZE then Some(ScopedFault(streamId)) else None
      ensures n == old(n) + if err.None? then k else 0
      ensures old(InRange(Value())) ==> InRange(Value())
    {
      if n + k > MAX_WINDOW_SIZE {
        return Some(ScopedFault(streamId));
      }
      n := n + k;
      return None;
    }

    /** A change of the initial size is a delta, and an overflow is the connection's whichever window overflows. */
    method SetInitialSize(size: uint32) returns (err: Option<Fault>)
      modifies this`n, this`initial
      ensures err == if streamId == 0 then Some(ConnError(INTERNAL_ERROR))
                     else if old(n) + size - old(initial) > MAX_WINDOW_SIZE then Some(ConnError(FLOW_CONTROL_ERROR))
                     else None
      ensures err.Some? ==> Value() == old(Value())
      ensures err.None? ==> initial == size && n - initial == old(n) - old(initial)
      ensures size <= MAX_WINDOW_SIZE && old(InRange(Value())) ==> InRange(Value())
    {
      if streamId == 0 {
        return Some(ConnError(INTERNAL_ERROR));
      }
      var next := n + (size - initial);
      if next > MAX_WINDOW_SIZE {
        return Some(ConnError(FLOW_CONTROL_ERROR));
      }
      initial := size;
      n := next;
      return None;
    }
  }
}
