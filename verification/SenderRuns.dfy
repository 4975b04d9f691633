/**
  Safety of the send-side monitor over every interleaving. A run is any sequence of critical sections, by
  the reader goroutine and by any number of writers; a step that is not enabled changes nothing, so every
  sequence is a run.
 */
module SenderRuns {
  import opened Octets
  import opened H2
  import opened FlowWindow
  import opened FlowSender

  datatype Op =
    | Open(id: uint32)
    | Retire(id: uint32)
    | Credit(id: uint32, n: uint32)  // a WINDOW_UPDATE; stream zero is the connection
    | Settings(size: uint32)
    | Close(reason: Reason)
    | Reserve(t: Tid, r: Request)    // a running goroutine enters Reserve
    | Resume(t: Tid)                 // a goroutine reached by a broadcast runs again

  /** The pass of Reserve that an operation makes, if it makes one, and the state it makes it from. */
  ghost predicate Passes(s: State, op: Op) {
    match op
    case Reserve(t, r) => t !in s.parked && t !in s.woken && r.want > 0
    case Resume(t) => t in s.woken
    case _ => false
  }

  ghost function PassState(s: State, op: Op): State
    requires Passes(s, op)
  {
    if op.Resume? then s.(woken := s.woken - {op.t}) else s
  }

  ghost function PassRequest(s: State, op: Op): Request
    requires Passes(s, op)
  {
    if op.Resume? then s.woken[op.t] else op.r
  }

  ghost function Exec(s: State, op: Op): State {
    match op
    case Open(id) => AfterOpen(s, id)
    case Retire(id) => AfterRetire(s, id)
    case Credit(id, n) => AfterCredit(s, id, n)
    case Settings(size) => AfterSettings(s, size)
    case Close(reason) => AfterClose(s, reason)
    case _ => if Passes(s, op) then AfterPass(PassState(s, op), op.t, PassRequest(s, op)) else s
  }

  ghost function Run(ops: seq<Op>): State {
    if ops == [] then Init() else Exec(Run(ops[..|ops| - 1]), ops[|ops| - 1])
  }

  ghost predicate SettingsFails(s: State, op: Op) {
    op.Settings? && s.err.None? && Overflowing(s, op.size) != {}
  }

  /** Some SETTINGS change of the run failed. The connection is about to be closed. */
  ghost predicate Failed(ops: seq<Op>) {
    ops != [] && (Failed(ops[..|ops| - 1]) || SettingsFails(Run(ops[..|ops| - 1]), ops[|ops| - 1]))
  }

  // ---------- No lost wakeup ----------

  /** Whoever is asleep un-notified has nothing to wake up for. */
  ghost predicate Quiet(s: State) {
    forall t | t in s.parked ::
      s.err.None? && s.parked[t].id in s.stream && (s.conn.n <= 0 || s.stream[s.parked[t].id].n <= 0)
  }

  /** Every request on record asks for something. */
  ghost predicate Asking(s: State) {
    (forall t | t in s.parked :: s.parked[t].want > 0) && (forall t | t in s.woken :: s.woken[t].want > 0)
  }

  lemma StepKeepsAsking(s: State, op: Op)
    requires Asking(s)
    ensures Asking(Exec(s, op))
  {
  }

  lemma {:induction false} AlwaysAsking(ops: seq<Op>)
    ensures Asking(Run(ops))
  {
    if ops != [] {
      AlwaysAsking(ops[..|ops| - 1]);
      StepKeepsAsking(Run(ops[..|ops| - 1]), ops[|ops| - 1]);
    }
  }

  /** Every step keeps quiet a state that is quiet, a failing SETTINGS change alone excepted; and Close restores it. */
  lemma StepKeepsQuiet(s: State, op: Op)
    requires Asking(s) && (Quiet(s) || (op.Close? && s.err.None?))
    requires !SettingsFails(s, op)
    ensures Quiet(Exec(s, op))
  {
  }

  lemma FailureNeedsAnOpenConnection(s: State, op: Op)
    ensures Exec(s, op).err.Some? && s.err.None? ==> op.Close?
    ensures s.err.Some? ==> Exec(s, op).err == s.err && !SettingsFails(s, op)
  {
  }

  /**
    In every reachable state before any failed SETTINGS change, and again in every one after Close, a writer
    asleep in Reserve that no broadcast has reached since it parked has no close reason to return, a stream
    that is still open, and no credit on one of its two windows.
   */
  lemma {:induction false} NoLostWakeup(ops: seq<Op>)
    ensures !Failed(ops) || Run(ops).err.Some? ==> Quiet(Run(ops))
  {
    if ops != [] {
      var before, op := ops[..|ops| - 1], ops[|ops| - 1];
      NoLostWakeup(before);
      AlwaysAsking(before);
      hide Exec, Quiet, SettingsFails;
      FailureNeedsAnOpenConnection(Run(before), op);
      if !Failed(ops) || Run(ops).err.Some? {
        StepKeepsQuiet(Run(before), op);
      }
    }
  }

  /** Once closed, the first reason stays, nobody is asleep un-notified, and nobody falls asleep again. */
  lemma {:induction false} ClosedForGood(ops: seq<Op>, later: seq<Op>)
    requires Run(ops).err.Some?
    ensures Run(ops + later).err == Run(ops).err
    ensures Run(ops + later).parked == map[]
    ensures forall op | Passes(Run(ops + later), op) ::
              var s := Run(ops + later); PassOutcome(PassState(s, op), PassRequest(s, op)) == Closed(Run(ops).err.value)
  {
    if later == [] {
      assert ops + later == ops;
    } else {
      var init, op := later[..|later| - 1], later[|later| - 1];
      ClosedForGood(ops, init);
      var all := ops + later;
      assert all[..|all| - 1] == ops + init && all[|all| - 1] == op;
    }
    NoLostWakeup(ops + later);
    assert forall t :: t !in Run(ops + later).parked;
  }

  /** A sleeper that a failing SETTINGS change would give credit without telling it. */
  ghost predicate Stranded(s: State, size: uint32, t: Tid) {
    && t in s.parked && s.parked[t].id in s.stream && Overflowing(s, size) != {}
    && s.parked[t].id < Least(Overflowing(s, size))
    && s.conn.n > 0 && s.stream[s.parked[t].id].n + size - s.stream[s.parked[t].id].initial > 0
  }

  /** A failing SETTINGS change breaks the property exactly when it raises a sleeper's window before it fails. */
  lemma FailingSettingsLosesWakeups(s: State, size: uint32)
    requires Quiet(s) && s.err.None? && Overflowing(s, size) != {}
    ensures Quiet(AfterSettings(s, size)) <==> !exists t :: Stranded(s, size, t)
  {
    var after := AfterSettings(s, size);
    var lowest := Least(Overflowing(s, size));
    if t :| Stranded(s, size, t) {
      assert t in after.parked && after.stream[after.parked[t].id] == Resized(s.stream[s.parked[t].id], size);
    } else {
      forall t | t in after.parked
        ensures after.parked[t].id in after.stream && (after.conn.n <= 0 || after.stream[after.parked[t].id].n <= 0)
      {
        assert !Stranded(s, size, t);
      }
    }
  }

  /** A stream at or below this one would overflow. */
  ghost predicate Blocked(s: State, size: uint32, id: uint32) {
    exists i :: i in s.stream && i <= id && s.stream[i].n - s.stream[i].initial + size > MAX_WINDOW_SIZE
  }

  lemma BlockedFromTheLeast(s: State, size: uint32, id: uint32)
    ensures Blocked(s, size, id) <==> Overflowing(s, size) != {} && Least(Overflowing(s, size)) <= id
  {
    if Blocked(s, size, id) {
      var i :| i in s.stream && i <= id && s.stream[i].n - s.stream[i].initial + size > MAX_WINDOW_SIZE;
      assert i in Overflowing(s, size);
    }
  }

  /**
    A SETTINGS change resizes exactly the streams with no overflowing stream at or below them, all of them if none
    overflows; and it touches nothing else but the stored size, which it leaves alone if some stream overflows.
   */
  lemma SettingsReachTheFirstOverflow(s: State, size: uint32, id: uint32)
    requires s.err.None? && id in s.stream
    ensures var after := AfterSettings(s, size); var was := s.stream[id];
      && after.stream.Keys == s.stream.Keys && after.conn == s.conn && after.err == None
      && after.stream[id] == (if Blocked(s, size, id) then was else Win(was.streamId, size, was.n - was.initial + size))
      && after.initial == if exists i :: i in s.stream && Blocked(s, size, i) then s.initial else size
  {
    BlockedFromTheLeast(s, size, id);
    var bad := Overflowing(s, size);
    if bad != {} {
      BlockedFromTheLeast(s, size, Least(bad));
      assert Least(bad) in s.stream && Blocked(s, size, Least(bad));
    } else {
      forall i | i in s.stream ensures !Blocked(s, size, i) {
        BlockedFromTheLeast(s, size, i);
      }
    }
    hide Overflows, Blocked;
  }

  /** The operation is a SETTINGS change that fails and strands a sleeper. */
  ghost predicate Strands(s: State, op: Op) {
    SettingsFails(s, op) && exists t :: Stranded(s, op.size, t)
  }

  lemma QuietNext(s: State, op: Op)
    requires Asking(s) && Quiet(s)
    ensures Quiet(Exec(s, op)) <==> !Strands(s, op)
  {
    hide Quiet, Overflows, Stranded;
    if SettingsFails(s, op) {
      FailingSettingsLosesWakeups(s, op.size);
    } else {
      hide Exec;
      StepKeepsQuiet(s, op);
    }
  }

  /** In every state a run goes through a sleeper that was not notified has nothing to wake up for. */
  ghost predicate AlwaysQuiet(ops: seq<Op>) {
    forall k | 0 <= k <= |ops| :: Quiet(Run(ops[..k]))
  }

  ghost predicate NeverStrands(ops: seq<Op>) {
    forall k | 0 <= k < |ops| :: !Strands(Run(ops[..k]), ops[k])
  }

  lemma PrefixStep(ops: seq<Op>, k: nat)
    requires k < |ops|
    ensures Run(ops[..k + 1]) == Exec(Run(ops[..k]), ops[k])
  {
    RunAppend(ops[..k], ops[k]);
    assert ops[..k + 1] == ops[..k] + [ops[k]];
  }

  lemma {:induction false} QuietUpTo(ops: seq<Op>, k: nat)
    requires k <= |ops| && NeverStrands(ops)
    ensures Quiet(Run(ops[..k]))
  {
    if k == 0 {
      assert ops[..0] == [];
    } else {
      QuietUpTo(ops, k - 1);
      AlwaysAsking(ops[..k - 1]);
      PrefixStep(ops, k - 1);
      hide Run, Exec, Quiet, Strands;
      QuietNext(Run(ops[..k - 1]), ops[k - 1]);
    }
  }

  /**
    The exact condition, over every run: a wakeup is lost if and only if a failing SETTINGS change strands a
    sleeper.
   */
  lemma QuietExactly(ops: seq<Op>)
    ensures AlwaysQuiet(ops) <==> NeverStrands(ops)
  {
    hide Run, Exec, Quiet, Strands;
    if NeverStrands(ops) {
      forall k | 0 <= k <= |ops| ensures Quiet(Run(ops[..k])) {
        QuietUpTo(ops, k);
      }
    }
    if AlwaysQuiet(ops) {
      forall k | 0 <= k < |ops| ensures !Strands(Run(ops[..k]), ops[k]) {
        assert Quiet(Run(ops[..k])) && Quiet(Run(ops[..k + 1]));
        AlwaysAsking(ops[..k]);
        PrefixStep(ops, k);
        QuietNext(Run(ops[..k]), ops[k]);
      }
    }
  }

  /** Stream 1 drained and goroutine 7 asleep on it, stream 3 at its maximum, and credit left on the connection. */
  ghost function Example(): State {
    State(Win(0, 0xFFFF, 100), map[1 := Win(1, 0xFFFF, 0), 3 := Win(3, 0xFFFF, MAX_WINDOW_SIZE)], 0xFFFF, None,
          map[7 := Request(1, 10)], map[])
  }

  ghost predicate Reachable(s: State) {
    exists ops :: Validated(ops) && Run(ops) == s
  }

  lemma ReachableStep(s: State, op: Op)
    requires Reachable(s) && (op.Settings? ==> op.size <= MAX_WINDOW_SIZE)
    ensures Reachable(Exec(s, op))
  {
    var ops :| Validated(ops) && Run(ops) == s;
    RunAppend(ops, op);
    hide Exec, Run;
    assert Validated(ops + [op]);
  }

  lemma RunAppend(ops: seq<Op>, op: Op)
    ensures Run(ops + [op]) == Exec(Run(ops), op)
  {
    assert (ops + [op])[..|ops|] == ops;
  }

  lemma TwoStreamsOpen()
    ensures Reachable(Init().(stream := map[1 := Win(1, 0xFFFF, 0xFFFF), 3 := Win(3, 0xFFFF, 0xFFFF)]))
  {
    assert Validated([]) && Run([]) == Init();
    ReachableStep(Init(), Open(1));
    ReachableStep(Exec(Init(), Open(1)), Open(3));
    assert Exec(Init(), Open(1)).stream == map[1 := Win(1, 0xFFFF, 0xFFFF)];
  }

  lemma TwoCreditsLater()
    ensures Reachable(Init().(conn := Win(0, 0xFFFF, 0xFFFF + 100),
                              stream := map[1 := Win(1, 0xFFFF, 0xFFFF), 3 := Win(3, 0xFFFF, MAX_WINDOW_SIZE)]))
  {
    TwoStreamsOpen();
    var s := Init().(stream := map[1 := Win(1, 0xFFFF, 0xFFFF), 3 := Win(3, 0xFFFF, 0xFFFF)]);
    var op1, op2 := Credit(0, 100), Credit(3, 0x7FFF_FFFF - 0xFFFF);
    ReachableStep(s, op1);
    assert Exec(s, op1) == s.(conn := Win(0, 0xFFFF, 0xFFFF + 100));
    ReachableStep(Exec(s, op1), op2);
  }

  lemma ExampleIsReachable()
    ensures Reachable(Example())
  {
    TwoCreditsLater();
    var full := Win(3, 0xFFFF, MAX_WINDOW_SIZE);
    var s := Init().(conn := Win(0, 0xFFFF, 0xFFFF + 100), stream := map[1 := Win(1, 0xFFFF, 0xFFFF), 3 := full]);
    var op1, op2 := Reserve(7, Request(1, 0xFFFF)), Reserve(7, Request(1, 10));
    ReachableStep(s, op1);
    assert Exec(s, op1) == s.(conn := Win(0, 0xFFFF, 100), stream := map[1 := Win(1, 0xFFFF, 0), 3 := full]);
    ReachableStep(Exec(s, op1), op2);
  }

  /**
    It does happen: the change that overflows stream 3 has just given credit to stream 1, where goroutine 7 sleeps
    on.
   */
  lemma AWakeupCanBeLost()
    ensures exists ops :: Validated(ops) && !Quiet(Run(ops)) && Run(ops).err.None?
  {
    ExampleIsReachable();
    var op := Settings(0x1_0000);
    ReachableStep(Example(), op);
    assert 3 in Overflowing(Example(), 0x1_0000) && 1 !in Overflowing(Example(), 0x1_0000);
    assert Least(Overflowing(Example(), 0x1_0000)) == 3;
    assert Exec(Example(), op).stream[1] == Win(1, 0x1_0000, 1);
    assert 7 in Exec(Example(), op).parked;
    assert !Quiet(Exec(Example(), op));
  }

  // ---------- The credit ledger ----------

  /** The octets the operation takes for stream id, or for any stream when id is zero. */
  ghost function TakenBy(s: State, op: Op, id: uint32): int {
    if Passes(s, op) && (id == 0 || PassRequest(s, op).id == id) then
      match PassOutcome(PassState(s, op), PassRequest(s, op))
      case Took(n) => n
      case _ => 0
    else 0
  }

  /** The WINDOW_UPDATE credit the operation is accepted for on window id. */
  ghost function GrantedBy(s: State, op: Op, id: uint32): int {
    if !op.Credit? || op.id != id || s.err.Some? then 0
    else if id == 0 then (if s.conn.n + op.n <= MAX_WINDOW_SIZE then op.n else 0)
    else if id in s.stream && s.stream[id].n + op.n <= MAX_WINDOW_SIZE then op.n
    else 0
  }

  ghost predicate Opens(s: State, op: Op, id: uint32) {
    op == Open(id) && !OpenPanics(s, id)
  }

  /** Accepted grants to window id since it was opened. The connection's is open from the start. */
  ghost function Granted(ops: seq<Op>, id: uint32): int {
    if ops == [] then 0
    else
      var s, op := Run(ops[..|ops| - 1]), ops[|ops| - 1];
      if Opens(s, op, id) then 0 else Granted(ops[..|ops| - 1], id) + GrantedBy(s, op, id)
  }

  /** Octets reserved from window id since it was opened; for the connection, by every stream there ever was. */
  ghost function Reserved(ops: seq<Op>, id: uint32): int {
    if ops == [] then 0
    else
      var s, op := Run(ops[..|ops| - 1]), ops[|ops| - 1];
      if Opens(s, op, id) then 0 else Reserved(ops[..|ops| - 1], id) + TakenBy(s, op, id)
  }

  /** What one step does to the credit a window holds above the initial size it was last told of. */
  lemma StepKeepsLedger(s: State, op: Op)
    ensures 0 !in s.stream ==> 0 !in Exec(s, op).stream
    ensures 0 !in s.stream ==> Exec(s, op).conn.n == s.conn.n + GrantedBy(s, op, 0) - TakenBy(s, op, 0)
    ensures forall id | id in Exec(s, op).stream && 0 !in s.stream :: var w := Exec(s, op).stream[id];
              if Opens(s, op, id) then w.n - w.initial == 0
              else id in s.stream
                   && w.n - w.initial
                      == s.stream[id].n - s.stream[id].initial + GrantedBy(s, op, id) - TakenBy(s, op, id)
  {
  }

  lemma StepKeepsInitial(s: State, op: Op)
    requires forall id | id in s.stream :: s.stream[id].initial == s.initial
    requires !SettingsFails(s, op)
    ensures forall id | id in Exec(s, op).stream :: Exec(s, op).stream[id].initial == Exec(s, op).initial
  {
  }

  /** On every run, failed SETTINGS changes included, each window accounts for every grant and every reservation. */
  lemma {:induction false} Ledger(ops: seq<Op>)
    ensures var s := Run(ops);
      && 0 !in s.stream
      && s.conn.n == INITIAL_WINDOW_SIZE + Granted(ops, 0) - Reserved(ops, 0)
      && forall id | id in s.stream :: s.stream[id].n - s.stream[id].initial == Granted(ops, id) - Reserved(ops, id)
  {
    if ops != [] {
      var before, op := ops[..|ops| - 1], ops[|ops| - 1];
      Ledger(before);
      StepKeepsLedger(Run(before), op);
      hide Exec, GrantedBy, TakenBy;
    }
  }

  /**
    The closed form: while no SETTINGS change has failed, an open stream's window is the current initial size
    plus its accepted WINDOW_UPDATEs minus its reservations, whenever it was opened and however the setting
    has moved since.
   */
  lemma {:induction false} CreditClosedForm(ops: seq<Op>)
    requires !Failed(ops)
    ensures var s := Run(ops);
      forall id | id in s.stream ::
        s.stream[id].initial == s.initial && s.stream[id].n == s.initial + Granted(ops, id) - Reserved(ops, id)
  {
    if ops != [] {
      assert Failed(ops) == (Failed(ops[..|ops| - 1]) || SettingsFails(Run(ops[..|ops| - 1]), ops[|ops| - 1]));
      CreditClosedForm(ops[..|ops| - 1]);
      StepKeepsInitial(Run(ops[..|ops| - 1]), ops[|ops| - 1]);
      hide Exec, SettingsFails, Granted, Reserved;
    }
    Ledger(ops);
  }

  // ---------- Ranges ----------

  /** The SETTINGS values of a run passed the frame layer's validation. */
  ghost predicate Validated(ops: seq<Op>) {
    forall i | 0 <= i < |ops| && ops[i].Settings? :: ops[i].size <= MAX_WINDOW_SIZE
  }

  ghost predicate AllInRange(s: State) {
    && 0 <= s.conn.n <= MAX_WINDOW_SIZE
    && s.initial <= MAX_WINDOW_SIZE
    && forall id | id in s.stream :: InRange(s.stream[id]) && id != 0
  }

  lemma StepKeepsRange(s: State, op: Op)
    requires AllInRange(s) && (op.Settings? ==> op.size <= MAX_WINDOW_SIZE)
    ensures AllInRange(Exec(s, op))
  {
    match op
    case Open(_) =>
    case Retire(_) =>
    case Credit(_, _) =>
    case Settings(_) => SettingsKeepsRange(s, op.size);
    case Close(_) =>
    case _ =>
  }

  lemma SettingsKeepsRange(s: State, size: uint32)
    requires AllInRange(s) && size <= MAX_WINDOW_SIZE
    ensures AllInRange(AfterSettings(s, size))
  {
    forall id | id in s.stream && id !in Overflowing(s, size) ensures InRange(Resized(s.stream[id], size)) {
      assert !Overflows(s.stream[id], size);
    }
  }

  /**
    With validated SETTINGS values the connection window stays within 0 and 2^31-1 and every stream window
    within plus or minus 2^31-1, so opening a fresh stream never panics.
   */
  lemma {:induction false} WindowsStayInRange(ops: seq<Op>)
    requires Validated(ops)
    ensures var s := Run(ops);
      && 0 <= s.conn.n <= MAX_WINDOW_SIZE
      && (forall id | id in s.stream :: -MAX_WINDOW_SIZE <= s.stream[id].n <= MAX_WINDOW_SIZE)
      && (forall id: uint32 | id != 0 && id !in s.stream :: !OpenPanics(s, id))
      && AllInRange(s)
  {
    if ops != [] {
      assert Validated(ops[..|ops| - 1]);
      WindowsStayInRange(ops[..|ops| - 1]);
      StepKeepsRange(Run(ops[..|ops| - 1]), ops[|ops| - 1]);
      hide Exec;
    }
  }

  /**
    A reservation takes at least one octet and never more than asked, leaves neither window overdrawn, and
    is the most it could be: the request is met in full or one of the windows is spent.
   */
  lemma ReservationIsTheMost(s: State, t: Tid, r: Request)
    requires r.want > 0 && AllInRange(s)
    ensures match PassOutcome(s, r)
            case Took(n) =>
              var after := AfterPass(s, t, r);
              && 1 <= n <= r.want && n <= MAX_WINDOW_SIZE
              && after.conn.n == s.conn.n - n >= 0
              && after.stream[r.id].n == s.stream[r.id].n - n >= 0
              && (n == r.want || after.conn.n == 0 || after.stream[r.id].n == 0)
            case Parks => AfterPass(s, t, r) == s.(parked := s.parked[t := r])
            case _ => AfterPass(s, t, r) == s
  {
  }
}
