/**
  Every request of a connection over every interleaving: the reader goroutine takes one frame at a time, changes the
  body it is for and notifies, while handlers read their bodies at any point between. A run is any sequence of steps;
  one that is not enabled changes nothing.
 */
module ExchangeRuns {
  import opened Octets
  import opened H2
  import opened RequestBody
  import opened BodyRuns
  import opened Exchange

  /** The trailer rules: the fault with a section on a stream, if there is one. */
  type Rules = (uint32, Section) -> Option<Fault>

  /** A request that is arriving: the length it declared, and how much has come. */
  datatype Upload = Upload(declared: int, received: int)

  /**
    bodies and declared hold every request there has been. todo is what the reader goroutine has still to do for the
    frame it is on, and busy the body it has changed and not notified.
   */
  datatype System = System(
    bodies: map<uint32, Monitor>,
    declared: map<uint32, int>,
    arriving: map<uint32, Upload>,
    todo: map<uint32, seq<Act>>,
    busy: Option<uint32>,
    closed: bool)

  datatype Op =
    | Headers(id: uint32, parsed: Result<int>, endStream: bool)
    | Data(id: uint32, payload: seq<byte>, endStream: bool)
    | Trailers(id: uint32, section: Section)
    | Canceled(id: uint32, code: uint32)
    | Close(reason: Fault)
    | Perform(id: uint32)          // the reader goroutine makes its next change
    | Notified(pick: Tid)          // and notifies
    | Handler(id: uint32, step: Step)

  ghost const START := System(map[], map[], map[], map[], None, false)

  /** The reader goroutine is between frames, and the connection is not over. */
  ghost predicate TakesFrames(s: System) {
    Rested(s) && !s.closed
  }

  ghost predicate Rested(s: System) {
    s.todo == map[] && s.busy == None
  }

  ghost function Opened(endStream: bool): Monitor {
    if endStream then FRESH.(s := State(Apply(EMPTY, Finish(None)), map[], map[])) else FRESH
  }

  /**
    Stream identifiers are fresh, which the stream layer sees to, and what was declared is what the request rules
    allow.
   */
  ghost function AfterHeaders(s: System, id: uint32, parsed: Result<int>, endStream: bool): System {
    if parsed.Err? || id in s.bodies || !Declarable(parsed.value, endStream) then s
    else
      s.(bodies := s.bodies[id := Opened(endStream)],
         declared := s.declared[id := parsed.value],
         arriving := if endStream then s.arriving else s.arriving[id := Upload(parsed.value, 0)])
  }

  ghost function AfterPlan(s: System, id: uint32, plan: Plan): System
    requires id in s.arriving
  {
    s.(arriving := if plan.stays then s.arriving[id := Upload(s.arriving[id].declared, plan.received)]
                   else s.arriving - {id},
       todo := s.todo[id := plan.acts])
  }

  /** A frame for a request that is not arriving is a connection error, and changes nothing here. */
  ghost function AfterFrame(rules: Rules, s: System, op: Op): System {
    match op
    case Headers(id, parsed, endStream) => AfterHeaders(s, id, parsed, endStream)
    case Data(id, payload, endStream) =>
      if id !in s.arriving then s
      else AfterPlan(s, id, DataPlan(id, s.arriving[id].declared, s.arriving[id].received, payload, endStream))
    case Trailers(id, section) =>
      if id !in s.arriving then s
      else
        var upload := s.arriving[id];
        AfterPlan(s, id, TrailersPlan(id, upload.declared, upload.received, section, rules(id, section)))
    case Canceled(id, code) =>
      if id !in s.arriving then s
      else AfterPlan(s, id, CanceledPlan(id, s.arriving[id].received, code))
    case Close(reason) =>
      s.(todo := map id | id in s.arriving :: [Abandon(reason)], arriving := map[], closed := true)
    case _ => s
  }

  ghost function AfterPerform(s: System, id: uint32): System {
    if s.busy.Some? || id !in s.todo || id !in s.bodies || s.todo[id] == [] then s
    else
      s.(bodies := s.bodies[id := Exec(s.bodies[id], Do(s.todo[id][0]))],
         todo := if |s.todo[id]| == 1 then s.todo - {id} else s.todo[id := s.todo[id][1..]],
         busy := Some(id))
  }

  ghost function AfterNotified(s: System, pick: Tid): System {
    if s.busy.None? || s.busy.value !in s.bodies then s
    else
      var after := Exec(s.bodies[s.busy.value], Notify(pick));
      s.(bodies := s.bodies[s.busy.value := after], busy := if after.owed == Nothing then None else s.busy)
  }

  ghost function AfterHandler(s: System, id: uint32, step: Step): System {
    if id !in s.bodies || step.Do? || step.Notify? then s
    else s.(bodies := s.bodies[id := Exec(s.bodies[id], step)])
  }

  ghost function Happen(rules: Rules, s: System, op: Op): System {
    match op
    case Perform(id) => AfterPerform(s, id)
    case Notified(pick) => AfterNotified(s, pick)
    case Handler(id, step) => AfterHandler(s, id, step)
    case _ => if TakesFrames(s) then AfterFrame(rules, s, op) else s
  }

  ghost function Reached(rules: Rules, ops: seq<Op>): System {
    if ops == [] then START else Happen(rules, Reached(rules, ops[..|ops| - 1]), ops[|ops| - 1])
  }

  // ---------- What holds of each request ----------

  ghost function Pushed(acts: seq<Act>): nat {
    if acts == [] then 0 else (if acts[0].Push? then |acts[0].chunk| else 0) + Pushed(acts[1..])
  }

  ghost function ActsOf(s: System, id: uint32): seq<Act> {
    if id in s.todo then s.todo[id] else []
  }

  ghost function UploadOf(s: System, id: uint32): Option<Upload> {
    if id in s.arriving then Some(s.arriving[id]) else None
  }

  /** The body has ended, or is about to. */
  ghost predicate Ends(c: Content, acts: seq<Act>) {
    c.ended || (acts != [] && acts[|acts| - 1].Finish?)
  }

  ghost predicate Over(c: Content) {
    c.ended || c.err.Some?
  }

  /**
    A body with added octets in it and acts still to come. It ends or fails once, and last. It arrives as long as it is
    to do neither; then its count is what it holds and is about to hold. It never goes past what was declared, and
    ends only at what was declared.
   */
  ghost predicate Tracks(c: Content, added: nat, acts: seq<Act>, upload: Option<Upload>, declared: int) {
    var total := added + Pushed(acts);
    && !(c.ended && c.err.Some?)
    && (Over(c) ==> acts == [])
    && (forall i | 0 <= i < |acts| - 1 :: acts[i].Push?)
    && (upload.Some? <==> !Over(c) && (acts == [] || acts[|acts| - 1].Push?))
    && (upload.Some? ==> upload.value == Upload(declared, total))
    && !Exceeds(declared, total)
    && (Ends(c, acts) ==> !Differs(declared, total))
  }

  lemma DataTracks(id: uint32, c: Content, added: nat, upload: Upload, payload: seq<byte>, endStream: bool)
    requires Tracks(c, added, [], Some(upload), upload.declared)
    ensures var plan := DataPlan(id, upload.declared, upload.received, payload, endStream);
      var after := if plan.stays then Some(Upload(upload.declared, plan.received)) else None;
      Tracks(c, added, plan.acts, after, upload.declared)
  {
    forall last: Act ensures [Push(payload), last][1..] == [last] && [last][1..] == [] {
    }
    assert [Push(payload)][1..] == [];
    assert Pushed([Push(payload)]) == |payload|;
  }

  lemma LastTracks(c: Content, added: nat, upload: Upload, act: Act)
    requires Tracks(c, added, [], Some(upload), upload.declared)
    requires act.Abandon? || (act.Finish? && !Differs(upload.declared, upload.received))
    ensures Tracks(c, added, [act], None, upload.declared)
  {
    assert [act][1..] == [];
  }

  lemma PerformTracks(c: Content, added: nat, acts: seq<Act>, upload: Option<Upload>, declared: int)
    requires acts != [] && Tracks(c, added, acts, upload, declared)
    ensures Tracks(Apply(c, acts[0]), added + Pushed([acts[0]]), acts[1..], upload, declared)
    ensures acts[0].Push? ==> !c.ended
  {
    assert [acts[0]][1..] == [];
    if |acts| > 1 {
      assert acts[1..][|acts| - 2] == acts[|acts| - 1];
    }
  }

  /** A body has a trailer section only if it ended, and every one it has, or is about to have, passed the rules. */
  ghost predicate Validated(rules: Rules, id: uint32, c: Content, acts: seq<Act>) {
    && (c.trailers.Some? ==> c.ended && rules(id, c.trailers.value) == None)
    && (forall i | 0 <= i < |acts| && acts[i].Finish? && acts[i].trailers.Some? ::
          rules(id, acts[i].trailers.value) == None)
  }

  /** What holds of a body whatever is done with it. */
  ghost predicate Sane(m: Monitor) {
    Faithful(m) && Asking(m) && Honest(m) && EndWakesAll(m)
  }

  lemma StepKeepsSane(m: Monitor, step: Step)
    requires Sane(m) && (step.Do? && step.act.Push? ==> !m.s.content.ended)
    ensures Sane(Exec(m, step))
  {
    StepKeepsFaithful(m, step);
    StepKeepsAsking(m, step);
    StepKeepsHonest(m, step);
    StepKeepsEndWakesAll(m, step);
    hide *;
  }

  ghost predicate Good(rules: Rules, s: System, id: uint32)
    requires id in s.bodies
  {
    var m := s.bodies[id];
    && Sane(m)
    && (m.owed != Nothing <==> s.busy == Some(id))
    && id in s.declared
    && Tracks(m.s.content, |m.added|, ActsOf(s, id), UploadOf(s, id), s.declared[id])
    && Validated(rules, id, m.s.content, ActsOf(s, id))
  }

  ghost predicate Invariant(rules: Rules, s: System) {
    && (forall id | id in s.bodies :: Good(rules, s, id))
    && Proper(s)
  }

  /** Whatever arrives or is to be done is for a request there is. */
  ghost predicate Proper(s: System) {
    && (forall id | id in s.arriving :: id in s.bodies)
    && (forall id | id in s.todo :: id in s.bodies && s.todo[id] != [])
    && (s.busy.Some? ==> s.busy.value in s.bodies)
    && (s.closed ==> s.arriving == map[])
  }

  /** A step that leaves a request's body, count, acts and declaration alone leaves it good. */
  lemma Unaffected(rules: Rules, s: System, t: System, id: uint32)
    requires id in s.bodies && Good(rules, s, id)
    requires id in t.bodies && t.bodies[id] == s.bodies[id]
    requires id in s.declared ==> id in t.declared && t.declared[id] == s.declared[id]
    requires ActsOf(t, id) == ActsOf(s, id) && UploadOf(t, id) == UploadOf(s, id)
    requires t.busy == Some(id) <==> s.busy == Some(id)
    ensures Good(rules, t, id)
  {
    hide Sane, Tracks, Validated, ActsOf, UploadOf;
  }

  lemma HeadersAreGood(rules: Rules, s: System, id: uint32, declared: int, endStream: bool)
    requires Invariant(rules, s) && TakesFrames(s) && id !in s.bodies && Declarable(declared, endStream)
    ensures Good(rules, AfterHeaders(s, id, Ok(declared), endStream), id)
  {
    OpenedIsSane(endStream);
    assert Pushed([]) == 0;
    hide Sane, Opened, Good;
    var t := AfterHeaders(s, id, Ok(declared), endStream);
    assert UploadOf(t, id) == if endStream then None else Some(Upload(declared, 0));
    assert ActsOf(t, id) == [];
    OpenedIsGood(rules, t, id, endStream);
  }

  lemma OpenedIsGood(rules: Rules, t: System, id: uint32, endStream: bool)
    requires id in t.bodies && t.bodies[id] == Opened(endStream) && t.busy == None && ActsOf(t, id) == []
    requires id in t.declared && Declarable(t.declared[id], endStream)
    requires UploadOf(t, id) == if endStream then None else Some(Upload(t.declared[id], 0))
    ensures Good(rules, t, id)
  {
    OpenedIsSane(endStream);
    assert Pushed([]) == 0;
    hide Sane, Opened, ActsOf, UploadOf;
  }

  lemma HeadersKeep(rules: Rules, s: System, id: uint32, parsed: Result<int>, endStream: bool)
    requires Invariant(rules, s) && TakesFrames(s)
    ensures Invariant(rules, AfterHeaders(s, id, parsed, endStream))
  {
    var t := AfterHeaders(s, id, parsed, endStream);
    hide Good, Opened, Declarable;
    if t != s {
      HeadersAreGood(rules, s, id, parsed.value, endStream);
      forall other | other in t.bodies ensures Good(rules, t, other) {
        if other != id {
          Unaffected(rules, s, t, other);
        }
      }
    }
  }

  lemma OpenedIsSane(endStream: bool)
    ensures var m := Opened(endStream);
      && Sane(m) && m.owed == Nothing && m.added == []
      && m.s.content.ended == endStream && m.s.content.err == None && m.s.content.trailers == None
  {
    assert [] + Left(EMPTY) == [];
  }

  /** The plan of a frame for request id, from where it stands, is one its body can carry out. */
  ghost predicate Sound(rules: Rules, s: System, id: uint32, plan: Plan)
    requires id in s.arriving && id in s.bodies
  {
    var c, upload := s.bodies[id].s.content, s.arriving[id];
    && plan.acts != []
    && Tracks(c, |s.bodies[id].added|, plan.acts,
              if plan.stays then Some(Upload(upload.declared, plan.received)) else None, upload.declared)
    && Validated(rules, id, c, plan.acts)
  }

  lemma PlanIsGood(rules: Rules, s: System, id: uint32, plan: Plan)
    requires id in s.bodies && Good(rules, s, id) && TakesFrames(s) && id in s.arriving && Sound(rules, s, id, plan)
    ensures Good(rules, AfterPlan(s, id, plan), id)
  {
    var t := AfterPlan(s, id, plan);
    assert s.declared[id] == s.arriving[id].declared;
    hide Sane, Tracks, Validated;
    assert ActsOf(t, id) == plan.acts;
    assert UploadOf(t, id) == if plan.stays then Some(Upload(s.declared[id], plan.received)) else None;
  }

  lemma PlanSparesOthers(rules: Rules, s: System, id: uint32, plan: Plan, other: uint32)
    requires TakesFrames(s) && id in s.arriving && other != id && other in s.bodies && Good(rules, s, other)
    ensures Good(rules, AfterPlan(s, id, plan), other)
  {
    hide Good;
    Unaffected(rules, s, AfterPlan(s, id, plan), other);
  }

  lemma PlanIsProper(s: System, id: uint32, plan: Plan)
    requires Proper(s) && TakesFrames(s) && id in s.arriving && plan.acts != []
    ensures Proper(AfterPlan(s, id, plan))
  {
  }

  lemma PlanKeeps(rules: Rules, s: System, id: uint32, plan: Plan)
    requires Invariant(rules, s) && TakesFrames(s) && id in s.arriving && Sound(rules, s, id, plan)
    ensures Invariant(rules, AfterPlan(s, id, plan))
  {
    assert id in s.bodies && plan.acts != [];
    PlanIsGood(rules, s, id, plan);
    PlanIsProper(s, id, plan);
    var t := AfterPlan(s, id, plan);
    assert t.bodies == s.bodies;
    hide Good, Sound, Rested, Proper, TakesFrames, AfterPlan;
    forall other | other in t.bodies ensures Good(rules, t, other) {
      if other != id {
        PlanSparesOthers(rules, s, id, plan, other);
      }
    }
  }

  lemma DataIsSound(rules: Rules, s: System, id: uint32, payload: seq<byte>, endStream: bool)
    requires Invariant(rules, s) && TakesFrames(s) && id in s.arriving
    ensures Sound(rules, s, id, DataPlan(id, s.arriving[id].declared, s.arriving[id].received, payload, endStream))
  {
    ArrivingTracks(rules, s, id);
    hide Invariant, Tracks, Exceeds, Differs;
    DataTracks(id, s.bodies[id].s.content, |s.bodies[id].added|, s.arriving[id], payload, endStream);
  }

  lemma LastIsSound(rules: Rules, s: System, id: uint32, plan: Plan, act: Act)
    requires Invariant(rules, s) && TakesFrames(s) && id in s.arriving && plan.acts == [act] && !plan.stays
    requires act.Abandon? || (act.Finish? && !Differs(s.arriving[id].declared, s.arriving[id].received))
    requires act.Finish? && act.trailers.Some? ==> rules(id, act.trailers.value) == None
    ensures Sound(rules, s, id, plan)
  {
    ArrivingTracks(rules, s, id);
    hide Invariant, Tracks;
    LastTracks(s.bodies[id].s.content, |s.bodies[id].added|, s.arriving[id], act);
  }

  lemma DataKeeps(rules: Rules, s: System, id: uint32, payload: seq<byte>, endStream: bool)
    requires Invariant(rules, s) && TakesFrames(s)
    ensures Invariant(rules, AfterFrame(rules, s, Data(id, payload, endStream)))
  {
    ArrivingHaveBodies(rules, s);
    hide Invariant, Sound, AfterPlan, DataPlan;
    if id in s.arriving {
      DataIsSound(rules, s, id, payload, endStream);
      PlanKeeps(rules, s, id, DataPlan(id, s.arriving[id].declared, s.arriving[id].received, payload, endStream));
    }
  }

  lemma TrailersKeep(rules: Rules, s: System, id: uint32, section: Section)
    requires Invariant(rules, s) && TakesFrames(s)
    ensures Invariant(rules, AfterFrame(rules, s, Trailers(id, section)))
  {
    ArrivingHaveBodies(rules, s);
    hide Invariant, Sound, AfterPlan, Differs;
    if id in s.arriving {
      var plan := TrailersPlan(id, s.arriving[id].declared, s.arriving[id].received, section, rules(id, section));
      LastIsSound(rules, s, id, plan, plan.acts[0]);
      PlanKeeps(rules, s, id, plan);
    }
  }

  lemma CanceledKeeps(rules: Rules, s: System, id: uint32, code: uint32)
    requires Invariant(rules, s) && TakesFrames(s)
    ensures Invariant(rules, AfterFrame(rules, s, Canceled(id, code)))
  {
    ArrivingHaveBodies(rules, s);
    hide Invariant, Sound, AfterPlan;
    if id in s.arriving {
      var plan := CanceledPlan(id, s.arriving[id].received, code);
      LastIsSound(rules, s, id, plan, plan.acts[0]);
      PlanKeeps(rules, s, id, plan);
    }
  }

  lemma HeadersFrameKeeps(rules: Rules, s: System, op: Op)
    requires Invariant(rules, s) && TakesFrames(s) && op.Headers?
    ensures Invariant(rules, AfterFrame(rules, s, op))
  {
    hide Invariant, AfterHeaders;
    HeadersKeep(rules, s, op.id, op.parsed, op.endStream);
  }

  lemma FrameKeeps(rules: Rules, s: System, op: Op)
    requires Invariant(rules, s) && TakesFrames(s)
    ensures Invariant(rules, AfterFrame(rules, s, op))
  {
    NotAFrame(rules, s, op);
    hide *;
    if op.Headers? {
      HeadersFrameKeeps(rules, s, op);
    } else if op.Data? {
      DataKeeps(rules, s, op.id, op.payload, op.endStream);
    } else if op.Trailers? {
      TrailersKeep(rules, s, op.id, op.section);
    } else if op.Canceled? {
      CanceledKeeps(rules, s, op.id, op.code);
    } else if op.Close? {
      CloseKeeps(rules, s, op.reason);
    }
  }

  lemma NotAFrame(rules: Rules, s: System, op: Op)
    ensures op.Headers? || op.Data? || op.Trailers? || op.Canceled? || op.Close? || AfterFrame(rules, s, op) == s
  {
  }

  lemma ArrivingHaveBodies(rules: Rules, s: System)
    requires Invariant(rules, s)
    ensures forall id | id in s.arriving :: id in s.bodies
  {
    hide Good;
  }

  lemma ArrivingTracks(rules: Rules, s: System, id: uint32)
    requires Invariant(rules, s) && TakesFrames(s) && id in s.arriving
    ensures id in s.bodies && Validated(rules, id, s.bodies[id].s.content, [])
    ensures Tracks(s.bodies[id].s.content, |s.bodies[id].added|, [], Some(s.arriving[id]), s.arriving[id].declared)
  {
  }

  lemma AfterClose(rules: Rules, s: System, reason: Fault)
    requires TakesFrames(s)
    ensures var t := AfterFrame(rules, s, Close(reason));
      && t.bodies == s.bodies && t.declared == s.declared && t.busy == None && t.arriving == map[]
      && t.todo == map id | id in s.arriving :: [Abandon(reason)]
  {
  }

  lemma CloseIsProper(rules: Rules, s: System, reason: Fault)
    requires Proper(s) && TakesFrames(s)
    ensures Proper(AfterFrame(rules, s, Close(reason)))
  {
    AfterClose(rules, s, reason);
    hide AfterFrame;
  }

  lemma CloseIsGood(rules: Rules, s: System, reason: Fault, id: uint32)
    requires Invariant(rules, s) && TakesFrames(s) && id in s.bodies
    ensures var t := AfterFrame(rules, s, Close(reason)); id in t.bodies && Good(rules, t, id)
  {
    AfterClose(rules, s, reason);
    assert Good(rules, s, id) && (id in s.arriving ==> s.arriving[id].declared == s.declared[id]);
    var t := AfterFrame(rules, s, Close(reason));
    if id in s.arriving {
      ArrivingTracks(rules, s, id);
      hide Sane, Tracks, AfterFrame, Invariant;
      LastTracks(s.bodies[id].s.content, |s.bodies[id].added|, s.arriving[id], Abandon(reason));
      assert ActsOf(t, id) == [Abandon(reason)] && UploadOf(t, id) == None;
    } else {
      hide Good, AfterFrame, Invariant;
      Unaffected(rules, s, t, id);
    }
  }

  lemma CloseKeeps(rules: Rules, s: System, reason: Fault)
    requires Invariant(rules, s) && TakesFrames(s)
    ensures Invariant(rules, AfterFrame(rules, s, Close(reason)))
  {
    AfterClose(rules, s, reason);
    CloseIsProper(rules, s, reason);
    hide AfterFrame, Good, Proper;
    forall id | id in s.bodies ensures Good(rules, AfterFrame(rules, s, Close(reason)), id) {
      CloseIsGood(rules, s, reason, id);
    }
  }

  lemma PerformKeeps(rules: Rules, s: System, id: uint32)
    requires Invariant(rules, s)
    ensures Invariant(rules, AfterPerform(s, id))
  {
    var t := AfterPerform(s, id);
    hide Good, Exec;
    if s.busy.None? && id in s.todo {
      PerformIsGood(rules, s, id);
      forall other | other in t.bodies ensures Good(rules, t, other) {
        if other != id {
          Unaffected(rules, s, t, other);
        }
      }
    }
  }

  lemma PerformIsGood(rules: Rules, s: System, id: uint32)
    requires id in s.bodies && Good(rules, s, id) && s.busy.None? && id in s.todo && s.todo[id] != []
    ensures Good(rules, AfterPerform(s, id), id)
  {
    var t := AfterPerform(s, id);
    var m, acts := s.bodies[id], s.todo[id];
    PerformTracks(m.s.content, |m.added|, acts, UploadOf(s, id), s.declared[id]);
    StepKeepsSane(m, Do(acts[0]));
    PerformValidated(rules, id, m.s.content, acts);
    PushedOne(acts[0]);
    hide Sane, Tracks, Validated, Pushed, Apply;
    assert ActsOf(t, id) == acts[1..];
  }

  lemma PushedOne(act: Act)
    ensures Pushed([act]) == if act.Push? then |act.chunk| else 0
  {
    assert [act][1..] == [];
  }

  lemma PerformValidated(rules: Rules, id: uint32, c: Content, acts: seq<Act>)
    requires acts != [] && Validated(rules, id, c, acts)
    ensures Validated(rules, id, Apply(c, acts[0]), acts[1..])
  {
  }

  lemma NotifiedIsGood(rules: Rules, s: System, pick: Tid)
    requires s.busy.Some? && s.busy.value in s.bodies && Good(rules, s, s.busy.value)
    ensures Good(rules, AfterNotified(s, pick), s.busy.value)
  {
    StepKeepsSane(s.bodies[s.busy.value], Notify(pick));
    hide Sane, Tracks, Validated;
  }

  lemma NotifiedKeeps(rules: Rules, s: System, pick: Tid)
    requires Invariant(rules, s)
    ensures Invariant(rules, AfterNotified(s, pick))
  {
    var t := AfterNotified(s, pick);
    hide Good, Exec;
    if s.busy.Some? {
      NotifiedIsGood(rules, s, pick);
      forall other | other in t.bodies ensures Good(rules, t, other) {
        if other != s.busy.value {
          Unaffected(rules, s, t, other);
        }
      }
    }
  }

  /** What a body tracks depends on whether it ended or failed, and on nothing a read changes. */
  lemma SameTracks(rules: Rules, id: uint32, c: Content, d: Content, added: nat, acts: seq<Act>,
                   upload: Option<Upload>, declared: int)
    requires Tracks(c, added, acts, upload, declared) && Validated(rules, id, c, acts)
    requires d.ended == c.ended && d.err == c.err && d.trailers == c.trailers
    ensures Tracks(d, added, acts, upload, declared) && Validated(rules, id, d, acts)
  {
    hide Pushed, Exceeds, Differs;
  }

  lemma HandlerIsGood(rules: Rules, s: System, id: uint32, step: Step)
    requires id in s.bodies && Good(rules, s, id) && !step.Do? && !step.Notify?
    ensures Good(rules, AfterHandler(s, id, step), id)
  {
    var m := s.bodies[id];
    hide Sane, Exec, Tracks, Validated;
    StepKeepsSane(m, step);
    ReadingKeeps(m, step);
    var c, after := m.s.content, Exec(m, step).s.content;
    SameTracks(rules, id, c, after, |m.added|, ActsOf(s, id), UploadOf(s, id), s.declared[id]);
  }

  lemma HandlerKeeps(rules: Rules, s: System, id: uint32, step: Step)
    requires Invariant(rules, s)
    ensures Invariant(rules, AfterHandler(s, id, step))
  {
    var t := AfterHandler(s, id, step);
    hide Good, Exec;
    if id in s.bodies && !step.Do? && !step.Notify? {
      HandlerIsGood(rules, s, id, step);
      forall other | other in t.bodies ensures Good(rules, t, other) {
        if other != id {
          Unaffected(rules, s, t, other);
        }
      }
    }
  }

  lemma HappenKeeps(rules: Rules, s: System, op: Op)
    requires Invariant(rules, s)
    ensures Invariant(rules, Happen(rules, s, op))
  {
    hide Invariant, AfterFrame, AfterPerform, AfterNotified, AfterHandler;
    match op
    case Perform(id) => PerformKeeps(rules, s, id);
    case Notified(pick) => NotifiedKeeps(rules, s, pick);
    case Handler(id, step) => HandlerKeeps(rules, s, id, step);
    case _ => if TakesFrames(s) { FrameKeeps(rules, s, op); }
  }

  lemma {:induction false} AlwaysInvariant(rules: Rules, ops: seq<Op>)
    ensures Invariant(rules, Reached(rules, ops))
  {
    if ops != [] {
      AlwaysInvariant(rules, ops[..|ops| - 1]);
      HappenKeeps(rules, Reached(rules, ops[..|ops| - 1]), ops[|ops| - 1]);
    }
  }

  // ---------- The promises ----------

  /**
    A handler never gets more octets than its request declared. It sees the end only when what it has read is
    everything that came, that is as much as was declared if anything was, and any trailer section passed the rules.
   */
  lemma ContentLengthIsSafe(rules: Rules, ops: seq<Op>, id: uint32)
    requires id in Reached(rules, ops).bodies
    ensures var s := Reached(rules, ops); var m := s.bodies[id];
      && id in s.declared && m.taken <= m.added && (s.declared[id] == -1 || |m.taken| <= s.declared[id])
      && (m.sawEnd ==> m.taken == m.added && (s.declared[id] == -1 || |m.taken| == s.declared[id])
                       && m.s.content.err.None?
                       && (m.s.content.trailers.Some? ==> rules(id, m.s.content.trailers.value) == None))
  {
    AlwaysInvariant(rules, ops);
    var s := Reached(rules, ops);
    assert Good(rules, s, id);
  }

  /**
    Between frames a request is arriving exactly when its body has neither ended nor failed, and its count is then
    what its body was given. No body ever does both. And once the connection is over every body there ever was has
    done one of the two, with nobody left asleep on it.
   */
  lemma EveryBodyEndsOnce(rules: Rules, ops: seq<Op>, id: uint32)
    requires id in Reached(rules, ops).bodies
    ensures var s := Reached(rules, ops); var m := s.bodies[id]; var c := m.s.content;
      && id in s.declared && !(c.ended && c.err.Some?)
      && (Rested(s) ==> (id in s.arriving <==> !c.ended && c.err.None?))
      && (Rested(s) && id in s.arriving ==> s.arriving[id] == Upload(s.declared[id], |m.added|))
      && (Rested(s) && s.closed ==> (c.ended || c.err.Some?) && m.s.parked == map[])
  {
    AlwaysInvariant(rules, ops);
    var s := Reached(rules, ops);
    assert Good(rules, s, id);
    assert Pushed([]) == 0;
  }

  /** after is m, or what step makes of it; a step that puts octets in finds a body that has not ended. */
  ghost predicate Steps(m: Monitor, after: Monitor, step: Option<Step>) {
    match step
    case None => after == m
    case Some(one) => after == Exec(m, one) && (one.Do? && one.act.Push? ==> !m.s.content.ended)
  }

  lemma FramesLeaveBodies(rules: Rules, s: System, op: Op, id: uint32)
    requires id in s.bodies
    ensures id in AfterFrame(rules, s, op).bodies && AfterFrame(rules, s, op).bodies[id] == s.bodies[id]
  {
    hide DataPlan, TrailersPlan, Opened;
  }

  lemma DueIsBeforeTheEnd(rules: Rules, s: System, id: uint32)
    requires Invariant(rules, s) && id in s.bodies && id in s.todo
    ensures s.todo[id] != [] && !s.bodies[id].s.content.ended
  {
    assert Good(rules, s, id);
    hide Sane, Validated;
  }

  lemma PerformOnBody(s: System, i: uint32, id: uint32) returns (step: Option<Step>)
    requires id in s.bodies && (id in s.todo ==> !s.bodies[id].s.content.ended)
    ensures id in AfterPerform(s, i).bodies && Steps(s.bodies[id], AfterPerform(s, i).bodies[id], step)
    ensures step.Some? ==> step.value.Do?
  {
    hide Exec;
    if i == id && s.busy.None? && id in s.todo && s.todo[id] != [] {
      step := Some(Do(s.todo[id][0]));
    } else {
      step := None;
    }
  }

  lemma NotifiedOnBody(s: System, pick: Tid, id: uint32) returns (step: Option<Step>)
    requires id in s.bodies
    ensures id in AfterNotified(s, pick).bodies && Steps(s.bodies[id], AfterNotified(s, pick).bodies[id], step)
    ensures step.Some? ==> step.value.Notify?
  {
    hide Exec;
    if s.busy == Some(id) {
      step := Some(Notify(pick));
    } else {
      step := None;
    }
  }

  lemma HandlerOnBody(s: System, i: uint32, own: Step, id: uint32) returns (step: Option<Step>)
    requires id in s.bodies
    ensures id in AfterHandler(s, i, own).bodies && Steps(s.bodies[id], AfterHandler(s, i, own).bodies[id], step)
    ensures step.Some? ==> i == id && step.value == own
  {
    hide Exec;
    if i == id && !own.Do? && !own.Notify? {
      step := Some(own);
    } else {
      step := None;
    }
  }

  /** What one step of the system does to one body: nothing, or one step of that body's own. */
  lemma OneBody(rules: Rules, s: System, op: Op, id: uint32) returns (step: Option<Step>)
    requires Invariant(rules, s) && id in s.bodies
    ensures id in Happen(rules, s, op).bodies && Steps(s.bodies[id], Happen(rules, s, op).bodies[id], step)
    ensures step.Some? && step.value.Enter? ==> op == Handler(id, step.value)
  {
    hide Exec, Invariant, AfterFrame, AfterPerform, AfterNotified, AfterHandler, Steps, Rested;
    match op
    case Perform(i) =>
      if id in s.todo {
        DueIsBeforeTheEnd(rules, s, id);
      }
      step := PerformOnBody(s, i, id);
    case Notified(pick) => step := NotifiedOnBody(s, pick, id);
    case Handler(i, own) => step := HandlerOnBody(s, i, own, id);
    case _ =>
      FramesLeaveBodies(rules, s, op, id);
      NoStep(s.bodies[id]);
      step := None;
  }

  lemma NoStep(m: Monitor)
    ensures Steps(m, m, None)
  {
  }

  /** Everything put into the body has been taken, and nothing more will be put in. */
  ghost predicate Drained(m: Monitor) {
    m.taken == m.added && m.s.content.ended && m.s.content.chunks == []
  }

  lemma DrainedStays(rules: Rules, s: System, op: Op, id: uint32)
    requires Invariant(rules, s) && id in s.bodies && Drained(s.bodies[id])
    ensures id in Happen(rules, s, op).bodies && Drained(Happen(rules, s, op).bodies[id])
    ensures Happen(rules, s, op).bodies[id].taken == s.bodies[id].taken
  {
    assert Good(rules, s, id) && Faithful(s.bodies[id]);
    hide Happen, Invariant, Good, Exec;
    var step := OneBody(rules, s, op, id);
    if step.Some? {
      NothingMoreIsTaken(s.bodies[id], step.value);
      StillNothingAdded(s.bodies[id], step.value);
    }
  }

  lemma StillNothingAdded(m: Monitor, step: Step)
    requires !(step.Do? && step.act.Push?)
    ensures Exec(m, step).added == m.added
  {
    if !step.Do? && !step.Notify? {
      ReadingKeeps(m, step);
    }
  }

  lemma LastIsDrained(rules: Rules, s: System, id: uint32)
    requires Invariant(rules, s) && id in s.bodies && (s.bodies[id].foundLast || s.bodies[id].sawEnd)
    ensures Drained(s.bodies[id])
  {
    assert Good(rules, s, id);
    hide Tracks, Validated, Asking;
  }

  /**
    Once a read of a body has found that no more may come, or seen the end, nothing that happens takes another octet
    from it.
   */
  lemma {:induction false} LastIsLastForEver(rules: Rules, ops: seq<Op>, later: seq<Op>, id: uint32)
    requires id in Reached(rules, ops).bodies
    requires Reached(rules, ops).bodies[id].foundLast || Reached(rules, ops).bodies[id].sawEnd
    ensures var before, after := Reached(rules, ops), Reached(rules, ops + later);
      id in after.bodies && Drained(after.bodies[id]) && after.bodies[id].taken == before.bodies[id].taken
  {
    if later == [] {
      assert ops + later == ops;
      hide *;
      AlwaysInvariant(rules, ops);
      LastIsDrained(rules, Reached(rules, ops), id);
    } else {
      var init, op := later[..|later| - 1], later[|later| - 1];
      assert ops + later == ops + init + [op];
      hide *;
      LastIsLastForEver(rules, ops, init, id);
      AlwaysInvariant(rules, ops + init);
      DrainedStays(rules, Reached(rules, ops + init), op, id);
      ReachedSnoc(rules, ops + init, op);
    }
  }

  lemma ReachedSnoc(rules: Rules, ops: seq<Op>, op: Op)
    ensures Reached(rules, ops + [op]) == Happen(rules, Reached(rules, ops), op)
  {
    assert (ops + [op])[..|ops|] == ops;
    hide Happen;
  }

  lemma ReachedLast(rules: Rules, ops: seq<Op>)
    requires ops != []
    ensures Reached(rules, ops) == Happen(rules, Reached(rules, ops[..|ops| - 1]), ops[|ops| - 1])
  {
  }

  /** Goroutine t is the only one that reads the body of request id. */
  ghost predicate OnlyReader(ops: seq<Op>, id: uint32, t: Tid) {
    forall k | 0 <= k < |ops| && ops[k].Handler? && ops[k].id == id && ops[k].step.Enter? :: ops[k].step.t == t
  }

  /**
    Between frames, a handler asleep on its body that nobody has notified has taken all there was, and its request is
    still arriving: what it waits for may yet come.
   */
  lemma HandlersSleepOnlyForMore(rules: Rules, ops: seq<Op>, id: uint32, t: Tid)
    requires id in Reached(rules, ops).bodies && OnlyReader(ops, id, t)
    ensures Solo(Reached(rules, ops).bodies[id], t) && SoloCovered(Reached(rules, ops).bodies[id])
    ensures var s := Reached(rules, ops); var m := s.bodies[id];
      Rested(s) && t in m.s.parked ==> m.taken == m.added && id in s.arriving
  {
    SoloStays(rules, ops, id, t);
    AlwaysInvariant(rules, ops);
    assert Good(rules, Reached(rules, ops), id);
    hide Reached, Asking, Honest;
  }

  lemma {:induction false} SoloStays(rules: Rules, ops: seq<Op>, id: uint32, t: Tid)
    requires id in Reached(rules, ops).bodies && OnlyReader(ops, id, t)
    ensures Solo(Reached(rules, ops).bodies[id], t) && SoloCovered(Reached(rules, ops).bodies[id])
  {
    var before, op := ops[..|ops| - 1], ops[|ops| - 1];
    var s := Reached(rules, before);
    AlwaysInvariant(rules, before);
    ReachedLast(rules, ops);
    if id in s.bodies {
      SoloStays(rules, before, id, t);
      assert Good(rules, s, id);
      hide Invariant, Good, Happen, Reached, Exec, Solo, SoloCovered;
      var step := OneBody(rules, s, op, id);
      if step.Some? {
        StepKeepsSolo(s.bodies[id], step.value, t);
      }
    } else {
      hide Invariant, Reached;
      BornSolo(rules, s, op, id, t);
    }
  }

  lemma BornSolo(rules: Rules, s: System, op: Op, id: uint32, t: Tid)
    requires id !in s.bodies && id in Happen(rules, s, op).bodies
    ensures Solo(Happen(rules, s, op).bodies[id], t) && SoloCovered(Happen(rules, s, op).bodies[id])
  {
    hide Exec;
  }
}
