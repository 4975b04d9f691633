/**
  The send-side monitor told from its history alone. Why a connection is over, which streams are open, which initial
  size is in force and who waits for credit are each a matter of what was called, in which order; and every pass of
  Reserve is decided by that.
 */
module SenderHistory {
  import opened Octets
  import opened H2
  import opened FlowWindow
  import opened FlowSender
  import opened SenderRuns

  // ---------- What the calls say ----------

  /** The reason given to the first Close. */
  ghost function FirstReason(ops: seq<Op>): Option<Reason> {
    if ops == [] then None
    else
      var before, op := ops[..|ops| - 1], ops[|ops| - 1];
      if FirstReason(before).None? && op.Close? then Some(op.reason) else FirstReason(before)
  }

  /** No open stream's window would pass the maximum. */
  ghost predicate Fits(s: State, size: uint32) {
    forall id | id in s.stream :: s.stream[id].n - s.stream[id].initial + size <= MAX_WINDOW_SIZE
  }

  /** The size in the last SETTINGS change that took hold: one before any Close, that overflowed no stream. */
  ghost function SizeInForce(ops: seq<Op>): uint32 {
    if ops == [] then 65535
    else
      var before, op := ops[..|ops| - 1], ops[|ops| - 1];
      if op.Settings? && FirstReason(before).None? && Fits(Run(before), op.size) then op.size else SizeInForce(before)
  }

  /** The stream was opened, and not retired since. */
  ghost predicate IsOpen(ops: seq<Op>, id: uint32) {
    ops != [] &&
    var before, op := ops[..|ops| - 1], ops[|ops| - 1];
    match op
    case Open(i) => IsOpen(before, id) || (i == id && id != 0 && SizeInForce(before) <= MAX_WINDOW_SIZE)
    case Retire(i) => i != id && IsOpen(before, id)
    case _ => IsOpen(before, id)
  }

  /** A goroutine in Reserve that has not returned: what it asks for, and whether a broadcast has reached it. */
  datatype Waiter = Waiter(r: Request, notified: bool)

  /** A request has to wait: the connection is not over, its stream is open, and one of the windows is spent. */
  ghost predicate MustWait(ops: seq<Op>, r: Request) {
    FirstReason(ops).None? && IsOpen(ops, r.id)
    && (Run(ops).conn.n <= 0 || (r.id in Run(ops).stream && Run(ops).stream[r.id].n <= 0))
  }

  /** The call changes something a waiter may be waiting for. */
  ghost predicate Notifies(ops: seq<Op>, op: Op) {
    match op
    case Retire(id) => IsOpen(ops, id)
    case Credit(id, n) =>
      FirstReason(ops).None? &&
      (if id == 0 then Run(ops).conn.n + n <= MAX_WINDOW_SIZE
       else id in Run(ops).stream && Run(ops).stream[id].n + n <= MAX_WINDOW_SIZE)
    case Settings(size) => FirstReason(ops).None? && Fits(Run(ops), size)
    case Close(_) => FirstReason(ops).None?
    case _ => false
  }

  /** Everybody in Reserve: whoever parked on the last pass it made. */
  ghost function Waiters(ops: seq<Op>): map<Tid, Waiter> {
    if ops == [] then map[]
    else
      var before, op := ops[..|ops| - 1], ops[|ops| - 1];
      var all := Waiters(before);
      match op
      case Reserve(t, r) =>
        if t !in all && r.want > 0 && MustWait(before, r) then all[t := Waiter(r, false)] else all
      case Resume(t) =>
        if t !in all || !all[t].notified then all
        else if MustWait(before, all[t].r) then all[t := all[t].(notified := false)]
        else all - {t}
      case _ => if Notifies(before, op) then map t | t in all :: all[t].(notified := true) else all
  }

  // ---------- And what the monitor holds ----------

  lemma RunLast(ops: seq<Op>)
    requires ops != []
    ensures Run(ops) == Exec(Run(ops[..|ops| - 1]), ops[|ops| - 1])
  {
  }

  lemma ReasonOfStep(s: State, op: Op)
    ensures Exec(s, op).err == if s.err.None? && op.Close? then Some(op.reason) else s.err
  {
    hide Overflowing, Resized, Credits;
  }

  /** The close reason is that of the first Close, on every run. */
  lemma {:induction false} ReasonIsTheFirst(ops: seq<Op>)
    ensures Run(ops).err == FirstReason(ops)
  {
    if ops != [] {
      ReasonIsTheFirst(ops[..|ops| - 1]);
      ReasonOfStep(Run(ops[..|ops| - 1]), ops[|ops| - 1]);
      hide Exec;
    }
  }

  lemma FitsIsNoOverflow(s: State, size: uint32)
    ensures Fits(s, size) <==> Overflowing(s, size) == {}
  {
    if Overflowing(s, size) == {} {
      forall id | id in s.stream ensures !Overflows(s.stream[id], size) {
        assert id !in Overflowing(s, size);
      }
    } else {
      var id :| id in Overflowing(s, size);
    }
  }

  /** The initial size the next stream opens with is that of the last SETTINGS change that took hold. */
  lemma {:induction false} SizeIsTheLast(ops: seq<Op>)
    ensures Run(ops).initial == SizeInForce(ops)
  {
    if ops != [] {
      var before, op := ops[..|ops| - 1], ops[|ops| - 1];
      SizeIsTheLast(before);
      ReasonIsTheFirst(before);
      if op.Settings? {
        FitsIsNoOverflow(Run(before), op.size);
      }
      hide Overflowing, Resized, Fits;
    }
  }

  lemma StreamsOfStep(s: State, op: Op, id: uint32)
    ensures id in Exec(s, op).stream <==>
            match op
            case Open(i) => id in s.stream || (i == id && id != 0 && s.initial <= MAX_WINDOW_SIZE)
            case Retire(i) => i != id && id in s.stream
            case _ => id in s.stream
  {
    hide Overflowing, Resized;
  }

  /** The monitor has a window for exactly the streams that were opened and not retired since. */
  lemma {:induction false} OpenMeansOpened(ops: seq<Op>, id: uint32)
    ensures id in Run(ops).stream <==> IsOpen(ops, id)
    ensures OpenPanics(Run(ops), id) <==> id == 0 || IsOpen(ops, id) || SizeInForce(ops) > MAX_WINDOW_SIZE
  {
    SizeIsTheLast(ops);
    if ops != [] {
      var before, op := ops[..|ops| - 1], ops[|ops| - 1];
      OpenMeansOpened(before, id);
      SizeIsTheLast(before);
      RunLast(ops);
      StreamsOfStep(Run(before), op, id);
      hide Run, Exec, SizeInForce;
    }
  }

  /**
    Every pass of Reserve, on every run: the close reason if Close was called, else that the stream is gone if it was
    not opened or was retired, else nothing if one of its windows is spent, and otherwise the most that both admit.
   */
  lemma PassIsExact(ops: seq<Op>, r: Request)
    requires r.want > 0
    ensures var out := PassOutcome(Run(ops), r);
      && (forall reason: Reason :: out == Closed(reason) <==> FirstReason(ops) == Some(reason))
      && (out.StreamGone? <==> FirstReason(ops).None? && !IsOpen(ops, r.id))
      && (out.Parks? <==> MustWait(ops, r))
      && (out.Took? ==>
            && FirstReason(ops).None? && r.id in Run(ops).stream
            && 1 <= out.n <= r.want && out.n <= Run(ops).conn.n && out.n <= Run(ops).stream[r.id].n
            && (out.n == r.want || out.n == Run(ops).conn.n || out.n == Run(ops).stream[r.id].n))
  {
    ReasonIsTheFirst(ops);
    OpenMeansOpened(ops, r.id);
    hide Run, FirstReason, IsOpen;
  }

  ghost predicate Accounted(s: State, all: map<Tid, Waiter>) {
    && s.parked == (map t | t in all && !all[t].notified :: all[t].r)
    && s.woken == (map t | t in all && all[t].notified :: all[t].r)
  }

  lemma NotifiedIsExact(ops: seq<Op>, op: Op)
    requires !op.Reserve? && !op.Resume?
    ensures var s, t := Run(ops), Exec(Run(ops), op);
      && (Notifies(ops, op) ==> t.parked == map[] && t.woken == s.woken + s.parked)
      && (!Notifies(ops, op) ==> t.parked == s.parked && t.woken == s.woken)
  {
    ReasonIsTheFirst(ops);
    match op
    case Retire(id) =>
      OpenMeansOpened(ops, id);
      hide Run, IsOpen;
    case Settings(size) =>
      FitsIsNoOverflow(Run(ops), size);
      hide Run, Overflowing, Fits, Resized;
    case _ => hide Run;
  }

  lemma BroadcastIsAccounted(s: State, t: State, all: map<Tid, Waiter>)
    requires Accounted(s, all) && t.parked == map[] && t.woken == s.woken + s.parked
    ensures Accounted(t, map t | t in all :: all[t].(notified := true))
  {
    var told := map t | t in all :: all[t].(notified := true);
    assert t.woken == map t | t in told && told[t].notified :: told[t].r;
  }

  lemma ParkedIsAccounted(s: State, all: map<Tid, Waiter>, t: Tid, r: Request)
    requires Accounted(s, all) && t !in all
    ensures Accounted(s.(parked := s.parked[t := r]), all[t := Waiter(r, false)])
  {
    var more := all[t := Waiter(r, false)];
    assert s.parked[t := r] == map i | i in more && !more[i].notified :: more[i].r;
    assert s.woken == map i | i in more && more[i].notified :: more[i].r;
  }

  lemma RunningIsAccounted(s: State, all: map<Tid, Waiter>, t: Tid)
    requires Accounted(s, all) && t in all && all[t].notified
    ensures t in s.woken && s.woken[t] == all[t].r
    ensures Accounted(s.(woken := s.woken - {t}), all - {t})
  {
    var fewer := all - {t};
    assert s.woken - {t} == map i | i in fewer && fewer[i].notified :: fewer[i].r;
  }

  /** Who waits after a pass: the same, and the goroutine itself if it parks. */
  lemma PassIsAccounted(s: State, all: map<Tid, Waiter>, t: Tid, r: Request)
    requires Accounted(s, all) && t !in all
    ensures Accounted(AfterPass(s, t, r), if PassOutcome(s, r).Parks? then all[t := Waiter(r, false)] else all)
  {
    ParkedIsAccounted(s, all, t, r);
    hide PassOutcome;
  }

  lemma ReserveIsAccounted(ops: seq<Op>, t: Tid, r: Request)
    requires Accounted(Run(ops), Waiters(ops)) && r.want > 0 && t !in Waiters(ops)
    ensures Accounted(Exec(Run(ops), Reserve(t, r)),
                      if MustWait(ops, r) then Waiters(ops)[t := Waiter(r, false)] else Waiters(ops))
  {
    PassIsExact(ops, r);
    assert Passes(Run(ops), Reserve(t, r)) by { hide Run, Waiters; }
    hide Run, Waiters, MustWait, PassOutcome, IsOpen, FirstReason, Accounted, AfterPass;
    PassIsAccounted(Run(ops), Waiters(ops), t, r);
  }

  lemma ResumeIsAccounted(ops: seq<Op>, t: Tid)
    requires Accounted(Run(ops), Waiters(ops)) && t in Waiters(ops) && Waiters(ops)[t].notified
    ensures Accounted(Exec(Run(ops), Resume(t)),
                      if MustWait(ops, Waiters(ops)[t].r) then Waiters(ops)[t := Waiters(ops)[t].(notified := false)]
                      else Waiters(ops) - {t})
  {
    hide Run, Waiters;
    var all, s := Waiters(ops), Run(ops);
    var r, mid := all[t].r, s.(woken := s.woken - {t});
    AlwaysAsking(ops);
    RunningIsAccounted(s, all, t);
    PassIsExact(ops, r);
    assert PassOutcome(mid, r) == PassOutcome(s, r);
    hide MustWait, PassOutcome, IsOpen, FirstReason, Accounted, AfterPass;
    PassIsAccounted(mid, all - {t}, t, r);
    assert (all - {t})[t := Waiter(r, false)] == all[t := all[t].(notified := false)];
  }

  /**
    Nobody is lost and nobody is woken for nothing: on every run the goroutines asleep are exactly those that parked
    on their last pass with nothing notified since, and those about to run again exactly the rest of them, each with
    the request it came with.
   */
  lemma {:induction false} EverybodyIsAccountedFor(ops: seq<Op>)
    ensures Accounted(Run(ops), Waiters(ops))
  {
    if ops != [] {
      var before, op := ops[..|ops| - 1], ops[|ops| - 1];
      EverybodyIsAccountedFor(before);
      RunLast(ops);
      if op.Reserve? {
        if op.t !in Waiters(before) && op.r.want > 0 {
          ReserveIsAccounted(before, op.t, op.r);
        }
      } else if op.Resume? {
        if op.t in Waiters(before) && Waiters(before)[op.t].notified {
          ResumeIsAccounted(before, op.t);
        }
      } else {
        NotifiedIsExact(before, op);
        hide Run, Exec;
        if Notifies(before, op) {
          BroadcastIsAccounted(Run(before), Run(ops), Waiters(before));
        }
      }
    }
  }
}
