/**
  How each request ends, told from the frames the peer sent for it and from nothing else: it completes if and only if
  its own last frame ends it at the length it declared, with trailers within the rules, and otherwise fails for a reason
  that frame gives.
 */
module ExchangeOutcomes {
  import opened Octets
  import opened H2
  import opened RequestBody
  import opened BodyRuns
  import opened Exchange
  import opened ExchangeRuns

  // ---------- What was sent ----------

  /** The operation is a frame for request id, which is arriving, or the end of the connection under it. */
  ghost predicate ConcernsRequest(s: System, op: Op, id: uint32) {
    && TakesFrames(s) && id in s.arriving
    && match op
       case Data(i, _, _) => i == id
       case Trailers(i, _) => i == id
       case Canceled(i, _) => i == id
       case Close(_) => true
       case _ => false
  }

  ghost function OctetsOf(op: Op): nat {
    if op.Data? then |op.payload| else 0
  }

  /** The octets of the DATA frames sent for request id while it was arriving, the one that ended it included. */
  ghost function SentTo(rules: Rules, ops: seq<Op>, id: uint32): nat {
    if ops == [] then 0
    else
      var before, op := ops[..|ops| - 1], ops[|ops| - 1];
      SentTo(rules, before, id) + if ConcernsRequest(Reached(rules, before), op, id) then OctetsOf(op) else 0
  }

  /** The last frame for request id while it was arriving. There is none for a request that ended with its headers. */
  ghost function LastFor(rules: Rules, ops: seq<Op>, id: uint32): Option<Op> {
    if ops == [] then None
    else
      var before, op := ops[..|ops| - 1], ops[|ops| - 1];
      if ConcernsRequest(Reached(rules, before), op, id) then Some(op) else LastFor(rules, before, id)
  }

  /** As many octets came as were declared, or none were declared. */
  ghost predicate AsDeclared(declared: int, total: nat) {
    declared == -1 || total == declared
  }

  /** The frame ends its request as section 8.1 of RFC 9113 has it, at the length declared and within the rules. */
  ghost predicate Completes(rules: Rules, op: Op, declared: int, total: nat) {
    && AsDeclared(declared, total)
    && match op
       case Data(_, _, endStream) => endStream
       case Trailers(id, section) => rules(id, section) == None
       case _ => false
  }

  /** Why the request fails if the frame does not complete it. */
  ghost function Reason(rules: Rules, op: Op, id: uint32): Fault {
    match op
    case Canceled(_, code) => StreamError(id, code)
    case Close(reason) => reason
    case Trailers(_, section) =>
      (match rules(id, section) case Some(fault) => fault case None => StreamError(id, PROTOCOL_ERROR))
    case _ => StreamError(id, PROTOCOL_ERROR)
  }

  /** How a request that is over has ended. */
  ghost predicate Decided(rules: Rules, id: uint32, c: Content, last: Option<Op>, declared: int, total: nat) {
    match last
    case None => c.ended && c.err == None && c.trailers == None
    case Some(op) =>
      && c.trailers == (if c.ended && op.Trailers? then Some(op.section) else None)
      && (c.ended <==> Completes(rules, op, declared, total))
      && (c.err == if c.ended then None else Some(Reason(rules, op, id)))
      && (op.Data? && !c.ended ==> !AsDeclared(declared, total))
  }

  /** An arriving request counts what was sent; one that is over is decided, when what is still to do for it is done. */
  ghost predicate Fate(rules: Rules, s: System, id: uint32, total: nat, last: Option<Op>)
    requires id in s.bodies && id in s.declared
  {
    if id in s.arriving then s.arriving[id] == Upload(s.declared[id], total)
    else Decided(rules, id, ApplyAll(s.bodies[id].s.content, ActsOf(s, id)), last, s.declared[id], total)
  }

  // ---------- Every step ----------

  lemma DecidedByPlan(rules: Rules, op: Op, id: uint32, c: Content, upload: Upload, plan: Plan)
    requires !Over(c) && c.trailers == None && !plan.stays
    requires IsPlanOf(rules, op, id, upload, plan) && upload.received >= 0
    ensures Decided(rules, id, ApplyAll(c, plan.acts), Some(op), upload.declared, upload.received + OctetsOf(op))
  {
    if op.Data? {
      Two(c, Push(op.payload), Finish(None));
      Two(c, Push(op.payload), Abandon(Malformed(id)));
    }
    One(c, plan.acts[0]);
    hide ApplyAll;
  }

  /**
    What a frame's caller is told: the reason the body fails with, if the frame makes it fail, so that a reader and the
    stream layer hear the same; and nothing otherwise, or when it was the peer that reset the stream.
   */
  lemma CallerIsToldTheSame(rules: Rules, op: Op, id: uint32, c: Content, upload: Upload, plan: Plan)
    requires !Over(c) && IsPlanOf(rules, op, id, upload, plan)
    ensures plan.fault == if op.Canceled? then None else ApplyAll(c, plan.acts).err
    ensures plan.stays <==> !Over(ApplyAll(c, plan.acts))
  {
    if op.Data? {
      Two(c, Push(op.payload), Finish(None));
      Two(c, Push(op.payload), Abandon(Malformed(id)));
    }
    One(c, plan.acts[0]);
    hide ApplyAll;
  }

  lemma Standing(rules: Rules, s: System, id: uint32)
    requires Invariant(rules, s) && TakesFrames(s) && id in s.arriving
    ensures id in s.bodies && id in s.declared && !Over(s.bodies[id].s.content)
    ensures s.bodies[id].s.content.trailers == None
    ensures s.arriving[id].declared == s.declared[id] && s.arriving[id].received >= 0
  {
    ArrivingTracks(rules, s, id);
    assert Good(rules, s, id);
  }

  /** The plan is the one a frame for request id makes from where it stands. */
  ghost predicate IsPlanOf(rules: Rules, op: Op, id: uint32, upload: Upload, plan: Plan) {
    match op
    case Data(i, payload, endStream) =>
      i == id && plan == DataPlan(id, upload.declared, upload.received, payload, endStream)
    case Trailers(i, section) =>
      i == id && plan == TrailersPlan(id, upload.declared, upload.received, section, rules(id, section))
    case Canceled(i, code) => i == id && plan == CanceledPlan(id, upload.received, code)
    case _ => false
  }

  lemma PlanDecides(rules: Rules, s: System, op: Op, id: uint32, plan: Plan, total: nat)
    requires Invariant(rules, s) && TakesFrames(s) && id in s.arriving && s.arriving[id].received == total
    requires IsPlanOf(rules, op, id, s.arriving[id], plan)
    ensures id in s.bodies && id in s.declared
              && Fate(rules, AfterPlan(s, id, plan), id, total + OctetsOf(op), Some(op))
  {
    Standing(rules, s, id);
    PlanCounts(rules, op, id, s.arriving[id], plan);
    var t := AfterPlan(s, id, plan);
    assert ActsOf(t, id) == plan.acts;
    if !plan.stays {
      DecidedByPlan(rules, op, id, s.bodies[id].s.content, s.arriving[id], plan);
    }
    hide Decided, ApplyAll, Invariant, IsPlanOf, Rested;
  }

  lemma PlanCounts(rules: Rules, op: Op, id: uint32, upload: Upload, plan: Plan)
    requires IsPlanOf(rules, op, id, upload, plan)
    ensures plan.received == upload.received + OctetsOf(op)
  {
  }

  lemma CloseDecides(rules: Rules, s: System, reason: Fault, id: uint32, total: nat)
    requires Invariant(rules, s) && TakesFrames(s) && id in s.arriving && s.arriving[id].received == total
    ensures id in s.bodies && id in s.declared
    ensures Fate(rules, AfterFrame(rules, s, Close(reason)), id, total, Some(Close(reason)))
  {
    Standing(rules, s, id);
    var t := AfterFrame(rules, s, Close(reason));
    assert ActsOf(t, id) == [Abandon(reason)];
    One(s.bodies[id].s.content, Abandon(reason));
    hide ApplyAll, Invariant;
  }

  lemma FrameDecides(rules: Rules, s: System, op: Op, id: uint32, total: nat, last: Option<Op>)
    requires Invariant(rules, s) && ConcernsRequest(s, op, id)
    requires id in s.bodies && id in s.declared && Fate(rules, s, id, total, last)
    ensures var t := AfterFrame(rules, s, op);
      id in t.bodies && id in t.declared && Fate(rules, t, id, total + OctetsOf(op), Some(op))
  {
    hide Invariant, Decided, ApplyAll, DataPlan, TrailersPlan, CanceledPlan, Reached;
    match op
    case Data(_, payload, endStream) =>
      var plan := DataPlan(id, s.arriving[id].declared, total, payload, endStream);
      PlanDecides(rules, s, op, id, plan, total);
    case Trailers(_, section) =>
      var plan := TrailersPlan(id, s.arriving[id].declared, total, section, rules(id, section));
      PlanDecides(rules, s, op, id, plan, total);
    case Canceled(_, code) => PlanDecides(rules, s, op, id, CanceledPlan(id, total, code), total);
    case Close(reason) => CloseDecides(rules, s, reason, id, total);
  }

  /** A frame that does not concern a request leaves everything about it alone. */
  lemma OthersAreSpared(rules: Rules, s: System, op: Op, id: uint32)
    requires TakesFrames(s) && !ConcernsRequest(s, op, id) && id in s.bodies && id in s.declared
    ensures var t := AfterFrame(rules, s, op);
      && id in t.bodies && id in t.declared && t.bodies[id] == s.bodies[id] && t.declared[id] == s.declared[id]
      && ActsOf(t, id) == ActsOf(s, id) && UploadOf(t, id) == UploadOf(s, id)
  {
    hide DataPlan, TrailersPlan, CanceledPlan, Opened;
  }

  lemma {:induction false} OutcomeOf(a: Content, b: Content, acts: seq<Act>)
    requires a.ended == b.ended && a.err == b.err && a.trailers == b.trailers
    ensures ApplyAll(a, acts).ended == ApplyAll(b, acts).ended && ApplyAll(a, acts).err == ApplyAll(b, acts).err
    ensures ApplyAll(a, acts).trailers == ApplyAll(b, acts).trailers
    decreases |acts|
  {
    if acts != [] {
      OutcomeOf(Apply(a, acts[0]), Apply(b, acts[0]), acts[1..]);
    }
  }

  lemma SameFate(rules: Rules, s: System, t: System, id: uint32, total: nat, last: Option<Op>)
    requires id in s.bodies && id in s.declared && Fate(rules, s, id, total, last)
    requires id in t.bodies && id in t.declared && t.declared[id] == s.declared[id]
              && UploadOf(t, id) == UploadOf(s, id)
    requires var a := ApplyAll(s.bodies[id].s.content, ActsOf(s, id));
      var b := ApplyAll(t.bodies[id].s.content, ActsOf(t, id));
      a.ended == b.ended && a.err == b.err && a.trailers == b.trailers
    ensures Fate(rules, t, id, total, last)
  {
    hide ApplyAll, ActsOf, Completes, Reason;
  }

  lemma PerformKeepsFate(rules: Rules, s: System, i: uint32, id: uint32, total: nat, last: Option<Op>)
    requires id in s.bodies && id in s.declared && Fate(rules, s, id, total, last)
    requires s.busy.None? ==> s.bodies[id].owed == Nothing
    ensures var t := AfterPerform(s, i); id in t.bodies && id in t.declared && Fate(rules, t, id, total, last)
  {
    var t := AfterPerform(s, i);
    if t != s && i == id {
      var acts := s.todo[id];
      assert ActsOf(t, id) == acts[1..];
      assert t.bodies[id].s.content == Apply(s.bodies[id].s.content, acts[0]);
      assert ApplyAll(s.bodies[id].s.content, acts) == ApplyAll(Apply(s.bodies[id].s.content, acts[0]), acts[1..]);
    }
    hide ApplyAll, Exec, Decided, Apply, Fate;
    SameFate(rules, s, t, id, total, last);
  }

  lemma NotifyKeepsContent(m: Monitor, pick: Tid)
    ensures Exec(m, Notify(pick)).s.content == m.s.content
  {
  }

  lemma NotifiedKeepsFate(rules: Rules, s: System, pick: Tid, id: uint32, total: nat, last: Option<Op>)
    requires id in s.bodies && id in s.declared && Fate(rules, s, id, total, last)
    ensures var t := AfterNotified(s, pick); id in t.bodies && id in t.declared && Fate(rules, t, id, total, last)
  {
    NotifyKeepsContent(s.bodies[id], pick);
    hide ApplyAll, Exec, Decided, Fate;
    SameFate(rules, s, AfterNotified(s, pick), id, total, last);
  }

  lemma HandlerKeepsFate(rules: Rules, s: System, i: uint32, step: Step, id: uint32, total: nat, last: Option<Op>)
    requires id in s.bodies && id in s.declared && Fate(rules, s, id, total, last)
    ensures var t := AfterHandler(s, i, step); id in t.bodies && id in t.declared && Fate(rules, t, id, total, last)
  {
    var t := AfterHandler(s, i, step);
    hide ApplyAll, Exec, Decided, Fate;
    if !step.Do? && !step.Notify? {
      ReadingKeeps(s.bodies[id], step);
    }
    OutcomeOf(s.bodies[id].s.content, t.bodies[id].s.content, ActsOf(s, id));
    SameFate(rules, s, t, id, total, last);
  }

  ghost predicate IsFrame(op: Op) {
    !op.Perform? && !op.Notified? && !op.Handler?
  }

  lemma FrameKeepsFate(rules: Rules, s: System, op: Op, id: uint32, total: nat, last: Option<Op>)
    requires Invariant(rules, s) && TakesFrames(s) && id in s.bodies && id in s.declared
              && Fate(rules, s, id, total, last)
    requires IsFrame(op) && !ConcernsRequest(s, op, id)
    ensures var t := AfterFrame(rules, s, op); id in t.bodies && id in t.declared && Fate(rules, t, id, total, last)
  {
    OthersAreSpared(rules, s, op, id);
    hide *;
    SameFate(rules, s, AfterFrame(rules, s, op), id, total, last);
  }

  lemma HappenOfFrame(rules: Rules, s: System, op: Op)
    requires IsFrame(op)
    ensures Happen(rules, s, op) == if TakesFrames(s) then AfterFrame(rules, s, op) else s
  {
    hide AfterFrame;
  }

  lemma FramesKeepFate(rules: Rules, s: System, op: Op, id: uint32, total: nat, last: Option<Op>)
    requires Invariant(rules, s) && id in s.bodies && id in s.declared && Fate(rules, s, id, total, last) && IsFrame(op)
    ensures var t := Happen(rules, s, op); id in t.bodies && id in t.declared
    ensures ConcernsRequest(s, op, id) ==> Fate(rules, Happen(rules, s, op), id, total + OctetsOf(op), Some(op))
    ensures !ConcernsRequest(s, op, id) ==> Fate(rules, Happen(rules, s, op), id, total, last)
  {
    OnlyFramesConcern(s, op, id);
    HappenOfFrame(rules, s, op);
    hide *;
    if ConcernsRequest(s, op, id) {
      FrameDecides(rules, s, op, id, total, last);
    } else if TakesFrames(s) {
      FrameKeepsFate(rules, s, op, id, total, last);
    }
  }

  lemma HappenOfStep(rules: Rules, s: System, op: Op)
    requires !IsFrame(op)
    ensures op.Perform? ==> Happen(rules, s, op) == AfterPerform(s, op.id)
    ensures op.Notified? ==> Happen(rules, s, op) == AfterNotified(s, op.pick)
    ensures op.Handler? ==> Happen(rules, s, op) == AfterHandler(s, op.id, op.step)
  {
    hide AfterPerform, AfterNotified, AfterHandler;
  }

  lemma GoroutinesKeepFate(rules: Rules, s: System, op: Op, id: uint32, total: nat, last: Option<Op>)
    requires Invariant(rules, s) && id in s.bodies && id in s.declared && Fate(rules, s, id, total, last)
              && !IsFrame(op)
    ensures var t := Happen(rules, s, op); id in t.bodies && id in t.declared && Fate(rules, t, id, total, last)
  {
    NothingOwed(rules, s, id);
    HappenOfStep(rules, s, op);
    assert op.Perform? || op.Notified? || op.Handler?;
    hide *;
    if op.Perform? {
      PerformKeepsFate(rules, s, op.id, id, total, last);
    } else if op.Notified? {
      NotifiedKeepsFate(rules, s, op.pick, id, total, last);
    } else {
      HandlerKeepsFate(rules, s, op.id, op.step, id, total, last);
    }
  }

  /** Any step at all, on a request there already is. */
  lemma StepKeepsFate(rules: Rules, s: System, op: Op, id: uint32, total: nat, last: Option<Op>)
    requires Invariant(rules, s) && id in s.bodies && id in s.declared && Fate(rules, s, id, total, last)
    ensures var t := Happen(rules, s, op); id in t.bodies && id in t.declared
    ensures ConcernsRequest(s, op, id) ==> Fate(rules, Happen(rules, s, op), id, total + OctetsOf(op), Some(op))
    ensures !ConcernsRequest(s, op, id) ==> Fate(rules, Happen(rules, s, op), id, total, last)
  {
    OnlyFramesConcern(s, op, id);
    hide *;
    if IsFrame(op) {
      FramesKeepFate(rules, s, op, id, total, last);
    } else {
      GoroutinesKeepFate(rules, s, op, id, total, last);
    }
  }

  lemma OnlyFramesConcern(s: System, op: Op, id: uint32)
    ensures ConcernsRequest(s, op, id) ==> IsFrame(op) && TakesFrames(s)
  {
  }

  lemma NothingOwed(rules: Rules, s: System, id: uint32)
    requires Invariant(rules, s) && id in s.bodies
    ensures s.busy.None? ==> s.bodies[id].owed == Nothing
  {
    hide Sane, Tracks, Validated;
    assert Good(rules, s, id);
  }

  /** A request begins with nothing sent, arriving or, if it ended with its headers, complete. */
  lemma BornDecided(rules: Rules, s: System, op: Op, id: uint32)
    requires Invariant(rules, s) && id !in s.bodies && id in Happen(rules, s, op).bodies
    ensures var t := Happen(rules, s, op); id in t.declared && Fate(rules, t, id, 0, None)
  {
    assert id !in s.arriving && id !in s.todo;
    hide Invariant, Exec;
    assert op.Headers? && op.id == id;
    assert ApplyAll(Opened(op.endStream).s.content, []) == Opened(op.endStream).s.content;
  }

  lemma {:induction false} FateIsKnown(rules: Rules, ops: seq<Op>, id: uint32)
    ensures var s := Reached(rules, ops);
      if id in s.bodies then
        id in s.declared && Fate(rules, s, id, SentTo(rules, ops, id), LastFor(rules, ops, id))
      else SentTo(rules, ops, id) == 0 && LastFor(rules, ops, id) == None
  {
    if ops != [] {
      var before, op := ops[..|ops| - 1], ops[|ops| - 1];
      var s := Reached(rules, before);
      FateIsKnown(rules, before, id);
      AlwaysInvariant(rules, before);
      ReachedLast(rules, ops);
      NotYet(rules, s, op, id);
      hide Invariant, Fate, Happen, Reached, ConcernsRequest;
      if id in s.bodies {
        StepKeepsFate(rules, s, op, id, SentTo(rules, before, id), LastFor(rules, before, id));
      } else if id in Reached(rules, ops).bodies {
        BornDecided(rules, s, op, id);
      }
    }
  }

  lemma NotYet(rules: Rules, s: System, op: Op, id: uint32)
    requires Invariant(rules, s)
    ensures id !in s.bodies ==> !ConcernsRequest(s, op, id)
  {
  }

  // ---------- The outcome ----------

  /**
    Between frames, over every interleaving. A request that arrives has counted what was sent for it. One that does not
    has completed if and only if it ended with its headers or its last frame ended it at the length it declared, with
    trailers within the rules; and otherwise it has failed with the reason that frame gives. It has the trailer section
    that completed it, and none if none did.
   */
  lemma OutcomeIsThePeers(rules: Rules, ops: seq<Op>, id: uint32)
    requires id in Reached(rules, ops).bodies && Rested(Reached(rules, ops))
    ensures var s := Reached(rules, ops);
      var c, total, last := s.bodies[id].s.content, SentTo(rules, ops, id), LastFor(rules, ops, id);
      && id in s.declared
      && (id in s.arriving ==> s.arriving[id].received == total)
      && (id !in s.arriving ==>
            && (c.ended <==> last == None || Completes(rules, last.value, s.declared[id], total))
            && (c.err == if c.ended then None else Some(Reason(rules, last.value, id)))
            && c.trailers == (if c.ended && last.Some? && last.value.Trailers? then Some(last.value.section) else None)
            && (!c.ended && last.value.Data? ==> !AsDeclared(s.declared[id], total)))
  {
    FateIsKnown(rules, ops, id);
    var s := Reached(rules, ops);
    assert ActsOf(s, id) == [] && ApplyAll(s.bodies[id].s.content, []) == s.bodies[id].s.content;
    hide Reached, SentTo, LastFor, Completes, Reason, AsDeclared;
  }

  lemma {:induction false} LastIsAFrame(rules: Rules, ops: seq<Op>, id: uint32)
    ensures var last := LastFor(rules, ops, id);
      last.Some? ==>
        || last.value.Data?
        || (last.value.Trailers? && last.value.id == id)
        || last.value.Canceled?
        || last.value.Close?
  {
    if ops != [] {
      LastIsAFrame(rules, ops[..|ops| - 1], id);
      hide Reached;
    }
  }

  /**
    So a body fails only if the peer reset it, the connection ended, its trailers broke the rules, or its length was
    not what was declared.
   */
  lemma FailuresHaveACause(rules: Rules, ops: seq<Op>, id: uint32)
    requires id in Reached(rules, ops).bodies && Rested(Reached(rules, ops))
              && Reached(rules, ops).bodies[id].s.content.err.Some?
    ensures var last := LastFor(rules, ops, id);
      && id in Reached(rules, ops).declared && last.Some?
      && (|| last.value.Canceled? || last.value.Close?
          || (last.value.Trailers? && rules(id, last.value.section).Some?)
          || !AsDeclared(Reached(rules, ops).declared[id], SentTo(rules, ops, id)))
  {
    OutcomeIsThePeers(rules, ops, id);
    LastIsAFrame(rules, ops, id);
    EveryBodyEndsOnce(rules, ops, id);
    hide *;
    var last := LastFor(rules, ops, id);
    if last.Some? && last.value.Trailers? {
      LateTrailers(rules, last.value, id, Reached(rules, ops).declared[id], SentTo(rules, ops, id));
    }
  }

  lemma LateTrailers(rules: Rules, op: Op, id: uint32, declared: int, total: nat)
    requires op.Trailers? && op.id == id && !Completes(rules, op, declared, total)
    ensures rules(id, op.section).Some? || !AsDeclared(declared, total)
  {
  }

  // ---------- What holds of one body holds of each ----------

  lemma NothingAfterEndNext(steps: seq<Step>, step: Step)
    requires NothingAfterEnd(steps) && (step.Do? && step.act.Push? ==> !Run(steps).s.content.ended)
    ensures NothingAfterEnd(steps + [step]) && Run(steps + [step]) == Exec(Run(steps), step)
  {
    RunSnoc(steps, step);
    hide Run, Exec;
    var all := steps + [step];
    forall k | 0 <= k < |all| && all[k].Do? && all[k].act.Push? ensures !Run(all[..k]).s.content.ended {
      if k < |steps| {
        assert all[k] == steps[k] && all[..k] == steps[..k];
      } else {
        assert all[..k] == steps;
      }
    }
  }

  /** A body that ended with its headers is one whose end was marked before anything else. */
  lemma OpenedIsARun(endStream: bool) returns (steps: seq<Step>)
    ensures NothingAfterEnd(steps) && Run(steps) == Opened(endStream)
  {
    steps := [];
    assert Run([]) == FRESH;
    if endStream {
      var act: Step := Do(Finish(None));
      NothingAfterEndNext(steps, act);
      NothingAfterEndNext(steps + [act], Notify(0));
      steps := steps + [act] + [Notify(0)];
    }
  }

  lemma BornOpened(rules: Rules, s: System, op: Op, id: uint32)
    requires id !in s.bodies && id in Happen(rules, s, op).bodies
    ensures op.Headers? && Happen(rules, s, op).bodies[id] == Opened(op.endStream)
  {
    hide Exec, Opened;
  }

  /**
    Every body of every connection has gone through some run of one body by itself, with nothing put in after the end.
    So whatever was proved of those runs holds of it.
   */
  lemma {:induction false} EveryBodyIsARun(rules: Rules, ops: seq<Op>, id: uint32) returns (steps: seq<Step>)
    requires id in Reached(rules, ops).bodies
    ensures NothingAfterEnd(steps) && Run(steps) == Reached(rules, ops).bodies[id]
  {
    var before, op := ops[..|ops| - 1], ops[|ops| - 1];
    var s := Reached(rules, before);
    ReachedLast(rules, ops);
    AlwaysInvariant(rules, before);
    hide Reached, Happen, Invariant, Run, Exec, Opened, NothingAfterEnd;
    if id in s.bodies {
      steps := EveryBodyIsARun(rules, before, id);
      var step := OneBody(rules, s, op, id);
      if step.Some? {
        NothingAfterEndNext(steps, step.value);
        steps := steps + [step.value];
      }
    } else {
      BornOpened(rules, s, op, id);
      steps := OpenedIsARun(op.endStream);
    }
  }
}
