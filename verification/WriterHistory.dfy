/**
  The writer told from its history: which frames it takes, which octets leave, and which failure stays, from the calls
  made and the answers the byte stream gave.
 */
module WriterHistory {
  import opened Octets
  import opened H2
  import opened Frames
  import opened FrameWriter

  /** A size the protocol permits a peer to ask for: 2^14 to 2^24-1. */
  ghost predicate PermittedSize(n: int) {
    16384 <= n <= 16777215
  }

  function Distance(a: int, b: int): nat {
    if a < b then b - a else a - b
  }

  /** A permitted size is taken as it is, and any other as the nearest that is permitted. */
  lemma ClampIsNearest(n: uint32, m: int)
    requires PermittedSize(m)
    ensures PermittedSize(Clamp(n)) && Distance(Clamp(n), n) <= Distance(m, n)
    ensures PermittedSize(n) ==> Clamp(n) == n
  {
  }

  /** The bound in force, the frames taken so far, how many of their octets have left, and the failure if any. */
  datatype History = History(limit: uint32, kept: seq<Frame>, written: nat, failure: Option<Fault>)

  /** The octets taken that have not left. After a failure there are none: what was queued is lost. */
  ghost function Pending(h: History): int {
    if h.failure.Some? then 0 else |Encode(h.kept)| - h.written
  }

  /** A frame is taken whole or not at all: before any failure, and within the bound in force and 31 bits of stream. */
  ghost predicate Takes(h: History, f: Frame) {
    h.failure.None? && |f.Payload()| <= h.limit && f.Stream() < 2147483648
  }

  /** A write of everything pending that took n octets, with or without an error. Less than all is a failure too. */
  ghost function Wrote(h: History, n: nat, error: Option<Fault>): History {
    if n > Pending(h) || Pending(h) == 0 then h
    else
      h.(written := h.written + n,
         failure := if error.Some? then error else if n < Pending(h) then Some(ShortWrite) else None)
  }

  ghost function Told(maxFrameSize: uint32, ops: seq<Op>): History {
    if ops == [] then History(Clamp(maxFrameSize), [], 0, None)
    else
      var h := Told(maxFrameSize, ops[..|ops| - 1]);
      match ops[|ops| - 1]
      case QueueFrame(f) => if Takes(h, f) then h.(kept := h.kept + [f]) else h
      case FlushQueue(n, error) => Wrote(h, n, error)
      case SetMax(size) => h.(limit := Clamp(size))
  }

  /** The state a history leaves: so much of the frames taken has left, and the rest is queued. */
  ghost predicate Matches(run: Run, h: History) {
    var all := Encode(h.kept);
    && h.written <= |all|
    && run.accepted == h.kept && run.state.maxFrameSize == h.limit && run.state.err == h.failure
    && run.state.delivered == all[..h.written]
    && run.state.buf == if h.failure.None? then all[h.written..] else []
  }

  lemma QueueMatches(run: Run, h: History, f: Frame)
    requires Matches(run, h)
    ensures Matches(After(run, QueueFrame(f)), if Takes(h, f) then h.(kept := h.kept + [f]) else h)
  {
    EncodeSnoc(h.kept, f);
    hide Encode, Frame.Wire, Frame.Payload, Frame.Stream;
    var all, more := Encode(h.kept), Encode(h.kept + [f]);
    assert more == all + f.Wire() && more[..h.written] == all[..h.written];
    assert more[h.written..] == all[h.written..] + f.Wire();
  }

  lemma FlushMatches(run: Run, h: History, n: nat, error: Option<Fault>)
    requires Matches(run, h)
    ensures Matches(After(run, FlushQueue(n, error)), Wrote(h, n, error))
  {
    hide Encode;
    var all := Encode(h.kept);
    if h.failure.None? && n <= |all| - h.written {
      assert all[..h.written] + all[h.written..][..n] == all[..h.written + n];
      assert h.written + n == |all| ==> all[h.written + n..] == [];
    }
  }

  /**
    On every run the frames taken are those that fit the bound then in force, before any failure; what has left is the
    front of their encodings, as long as the byte stream said; the rest is queued; and the first failure, a short
    write being one, stays and loses it.
   */
  lemma {:induction false} RunsAreTold(maxFrameSize: uint32, ops: seq<Op>)
    ensures Matches(RunOf(maxFrameSize, ops), Told(maxFrameSize, ops))
  {
    if ops != [] {
      var before, op := ops[..|ops| - 1], ops[|ops| - 1];
      var run, h := RunOf(maxFrameSize, before), Told(maxFrameSize, before);
      RunsAreTold(maxFrameSize, before);
      hide Matches, Encode, Takes, Wrote;
      match op
      case QueueFrame(f) => QueueMatches(run, h, f);
      case FlushQueue(n, error) => FlushMatches(run, h, n, error);
      case SetMax(size) => SetMatches(run, h, size);
    }
  }

  lemma SetMatches(run: Run, h: History, size: uint32)
    requires Matches(run, h)
    ensures Matches(After(run, SetMax(size)), h.(limit := Clamp(size)))
  {
    hide Encode;
  }
}
