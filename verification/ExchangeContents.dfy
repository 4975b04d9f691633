/**
  What is in each body, told from the frames the peer sent for it: the octets of its DATA frames, in order and every one
  of them, but for a frame that goes past the declared length, which is not handed on at all.
 */
module ExchangeContents {
  import opened Octets
  import opened H2
  import opened RequestBody
  import opened BodyRuns
  import opened Exchange
  import opened ExchangeRuns
  import opened ExchangeOutcomes

  // ---------- What was sent ----------

  ghost function PayloadOf(op: Op): seq<byte> {
    if op.Data? then op.payload else []
  }

  /** The octets of all DATA frames sent for request id while it was arriving, one after another. */
  ghost function OctetsSent(rules: Rules, ops: seq<Op>, id: uint32): seq<byte> {
    if ops == [] then []
    else
      var before, op := ops[..|ops| - 1], ops[|ops| - 1];
      OctetsSent(rules, before, id) + if ConcernsRequest(Reached(rules, before), op, id) then PayloadOf(op) else []
  }

  /** The payload of the last frame, if that took the count past the declared length. */
  ghost function Withheld(last: Option<Op>, declared: int, total: nat): seq<byte> {
    if last.Some? && last.value.Data? && declared != -1 && total > declared then last.value.payload else []
  }

  ghost function PushedOctets(acts: seq<Act>): seq<byte> {
    if acts == [] then [] else (if acts[0].Push? then acts[0].chunk else []) + PushedOctets(acts[1..])
  }

  /** What is in the body, then what is about to be put in, then what was withheld, is what was sent. */
  ghost predicate Holds(s: System, id: uint32, sent: seq<byte>, last: Option<Op>)
    requires id in s.bodies && id in s.declared
  {
    s.bodies[id].added + PushedOctets(ActsOf(s, id)) + Withheld(last, s.declared[id], |sent|) == sent
  }

  // ---------- Every step ----------

  lemma PushedOne(act: Act)
    ensures PushedOctets([act]) == if act.Push? then act.chunk else []
  {
    assert [act][1..] == [] && PushedOctets([]) == [];
  }

  lemma PushedTwo(first: Act, second: Act)
    requires first.Push? && !second.Push?
    ensures PushedOctets([first, second]) == first.chunk
  {
    assert [first, second][1..] == [second];
    PushedOne(second);
  }

  lemma PlanPushes(rules: Rules, op: Op, id: uint32, upload: Upload, plan: Plan, total: nat)
    requires IsPlanOf(rules, op, id, upload, plan) && upload.received + |PayloadOf(op)| == total
    ensures PushedOctets(plan.acts) + Withheld(Some(op), upload.declared, total) == PayloadOf(op)
  {
    PushedOne(plan.acts[0]);
    if |plan.acts| == 2 {
      PushedTwo(plan.acts[0], plan.acts[1]);
    }
    hide PushedOctets;
  }

  /** A request that is arriving, between frames: all that was sent is in its body. */
  lemma ArrivingHolds(rules: Rules, s: System, id: uint32, sent: seq<byte>, last: Option<Op>)
    requires Invariant(rules, s) && TakesFrames(s) && id in s.arriving && id in s.bodies && id in s.declared
    requires Holds(s, id, sent, last) && s.arriving[id] == Upload(s.declared[id], |sent|)
    ensures s.bodies[id].added == sent && ActsOf(s, id) == []
  {
    ArrivingTracks(rules, s, id);
    assert Good(rules, s, id);
    assert PushedOctets([]) == [] && Pushed([]) == 0;
    hide Sane, Validated;
  }

  lemma PlanHolds(rules: Rules, s: System, op: Op, id: uint32, plan: Plan, sent: seq<byte>)
    requires TakesFrames(s) && id in s.arriving && id in s.bodies && id in s.declared
    requires s.bodies[id].added == sent && s.arriving[id] == Upload(s.declared[id], |sent|)
    requires IsPlanOf(rules, op, id, s.arriving[id], plan)
    ensures Holds(AfterPlan(s, id, plan), id, sent + PayloadOf(op), Some(op))
  {
    PlanPushes(rules, op, id, s.arriving[id], plan, |sent + PayloadOf(op)|);
    hide PushedOctets, Withheld, IsPlanOf, Rested;
    var t := AfterPlan(s, id, plan);
    assert ActsOf(t, id) == plan.acts;
    var pushed, held := PushedOctets(plan.acts), Withheld(Some(op), s.declared[id], |sent + PayloadOf(op)|);
    assert sent + pushed + held == sent + (pushed + held);
  }

  lemma FrameHolds(rules: Rules, s: System, op: Op, id: uint32, sent: seq<byte>)
    requires ConcernsRequest(s, op, id) && id in s.bodies && id in s.declared
    requires s.bodies[id].added == sent && s.arriving[id] == Upload(s.declared[id], |sent|)
    ensures var t := AfterFrame(rules, s, op);
      id in t.bodies && id in t.declared && Holds(t, id, sent + PayloadOf(op), Some(op))
  {
    hide DataPlan, TrailersPlan, CanceledPlan, Holds;
    match op
    case Data(_, payload, endStream) =>
      PlanHolds(rules, s, op, id, DataPlan(id, s.arriving[id].declared, s.arriving[id].received, payload, endStream),
          sent);
    case Trailers(_, section) =>
      var upload := s.arriving[id];
      PlanHolds(rules, s, op, id,
          TrailersPlan(id, upload.declared, upload.received, section, rules(id, section)), sent);
    case Canceled(_, code) =>
      PlanHolds(rules, s, op, id, CanceledPlan(id, s.arriving[id].received, code), sent);
    case Close(reason) => CloseHolds(rules, s, reason, id, sent);
  }

  lemma CloseHolds(rules: Rules, s: System, reason: Fault, id: uint32, sent: seq<byte>)
    requires TakesFrames(s) && id in s.arriving && id in s.bodies && id in s.declared && s.bodies[id].added == sent
    ensures Holds(AfterFrame(rules, s, Close(reason)), id, sent + [], Some(Close(reason)))
  {
    var t := AfterFrame(rules, s, Close(reason));
    assert ActsOf(t, id) == [Abandon(reason)];
    PushedOne(Abandon(reason));
    assert sent + [] == sent;
  }

  lemma SpareHolds(s: System, t: System, id: uint32, sent: seq<byte>, last: Option<Op>)
    requires id in s.bodies && id in s.declared && Holds(s, id, sent, last)
    requires id in t.bodies && id in t.declared && t.declared[id] == s.declared[id]
    requires t.bodies[id].added + PushedOctets(ActsOf(t, id)) == s.bodies[id].added + PushedOctets(ActsOf(s, id))
    ensures Holds(t, id, sent, last)
  {
    hide PushedOctets, Withheld, ActsOf;
  }

  lemma PerformHolds(s: System, i: uint32, id: uint32, sent: seq<byte>, last: Option<Op>)
    requires id in s.bodies && id in s.declared && Holds(s, id, sent, last)
    requires s.busy.None? ==> s.bodies[id].owed == Nothing
    ensures var t := AfterPerform(s, i); id in t.bodies && id in t.declared && Holds(t, id, sent, last)
  {
    var t := AfterPerform(s, i);
    if t != s && i == id {
      var acts, m := s.todo[id], s.bodies[id];
      assert ActsOf(t, id) == acts[1..];
      assert t.bodies[id].added == m.added + (if acts[0].Push? then acts[0].chunk else []);
      assert m.added + ((if acts[0].Push? then acts[0].chunk else []) + PushedOctets(acts[1..]))
          == m.added + (if acts[0].Push? then acts[0].chunk else []) + PushedOctets(acts[1..]);
    }
    hide PushedOctets, Holds, Exec;
    SpareHolds(s, t, id, sent, last);
  }

  lemma NotifyAddsNothing(m: Monitor, pick: Tid)
    ensures Exec(m, Notify(pick)).added == m.added
  {
  }

  lemma NotifiedHolds(s: System, pick: Tid, id: uint32, sent: seq<byte>, last: Option<Op>)
    requires id in s.bodies && id in s.declared && Holds(s, id, sent, last)
    ensures var t := AfterNotified(s, pick); id in t.bodies && id in t.declared && Holds(t, id, sent, last)
  {
    NotifyAddsNothing(s.bodies[id], pick);
    hide Exec, PushedOctets, Holds;
    SpareHolds(s, AfterNotified(s, pick), id, sent, last);
  }

  lemma HandlerHolds(s: System, i: uint32, step: Step, id: uint32, sent: seq<byte>, last: Option<Op>)
    requires id in s.bodies && id in s.declared && Holds(s, id, sent, last)
    ensures var t := AfterHandler(s, i, step); id in t.bodies && id in t.declared && Holds(t, id, sent, last)
  {
    hide Exec, PushedOctets, Holds;
    if !step.Do? && !step.Notify? {
      ReadingKeeps(s.bodies[id], step);
    }
    SpareHolds(s, AfterHandler(s, i, step), id, sent, last);
  }

  lemma OthersHold(rules: Rules, s: System, op: Op, id: uint32, sent: seq<byte>, last: Option<Op>)
    requires Invariant(rules, s) && id in s.bodies && id in s.declared && Holds(s, id, sent, last) && !IsFrame(op)
    ensures var t := Happen(rules, s, op); id in t.bodies && id in t.declared && Holds(t, id, sent, last)
  {
    NothingOwed(rules, s, id);
    HappenOfStep(rules, s, op);
    hide PushedOctets, Holds, Invariant, Happen, AfterPerform, AfterNotified, AfterHandler;
    match op
    case Perform(i) => PerformHolds(s, i, id, sent, last);
    case Notified(pick) => NotifiedHolds(s, pick, id, sent, last);
    case Handler(i, step) => HandlerHolds(s, i, step, id, sent, last);
  }

  /** Any step at all, on a request there already is. */
  lemma StepHolds(rules: Rules, s: System, op: Op, id: uint32, sent: seq<byte>, last: Option<Op>)
    requires Invariant(rules, s) && id in s.bodies && id in s.declared && Holds(s, id, sent, last)
    requires Fate(rules, s, id, |sent|, last)
    ensures var t := Happen(rules, s, op); id in t.bodies && id in t.declared
    ensures ConcernsRequest(s, op, id) ==> Holds(Happen(rules, s, op), id, sent + PayloadOf(op), Some(op))
    ensures !ConcernsRequest(s, op, id) ==> Holds(Happen(rules, s, op), id, sent, last)
  {
    OnlyFramesConcern(s, op, id);
    hide PushedOctets, Holds, Invariant, Happen, AfterFrame;
    if !IsFrame(op) {
      OthersHold(rules, s, op, id, sent, last);
    } else {
      HappenOfFrame(rules, s, op);
      if ConcernsRequest(s, op, id) {
        ArrivingHolds(rules, s, id, sent, last);
        FrameHolds(rules, s, op, id, sent);
      } else if TakesFrames(s) {
        OthersAreSpared(rules, s, op, id);
        SpareHolds(s, AfterFrame(rules, s, op), id, sent, last);
      }
    }
  }

  lemma BornHolding(rules: Rules, s: System, op: Op, id: uint32)
    requires Invariant(rules, s) && id !in s.bodies && id in Happen(rules, s, op).bodies
    ensures var t := Happen(rules, s, op); id in t.declared && Holds(t, id, [], None)
  {
    BornDecided(rules, s, op, id);
    BornOpened(rules, s, op, id);
    assert id !in s.todo;
    hide Invariant, Exec;
    assert PushedOctets([]) == [];
  }

  lemma {:induction false} SentIsCounted(rules: Rules, ops: seq<Op>, id: uint32)
    ensures |OctetsSent(rules, ops, id)| == SentTo(rules, ops, id)
  {
    if ops != [] {
      SentIsCounted(rules, ops[..|ops| - 1], id);
      hide Reached, ConcernsRequest;
    }
  }

  lemma {:induction false} HoldsAlways(rules: Rules, ops: seq<Op>, id: uint32)
    ensures var s, sent := Reached(rules, ops), OctetsSent(rules, ops, id);
      if id in s.bodies then id in s.declared && Holds(s, id, sent, LastFor(rules, ops, id)) else sent == []
  {
    if ops != [] {
      var before, op := ops[..|ops| - 1], ops[|ops| - 1];
      var s, sent := Reached(rules, before), OctetsSent(rules, before, id);
      HoldsAlways(rules, before, id);
      AlwaysInvariant(rules, before);
      FateIsKnown(rules, before, id);
      FateIsKnown(rules, ops, id);
      SentIsCounted(rules, before, id);
      ReachedLast(rules, ops);
      NotYet(rules, s, op, id);
      hide Invariant, Fate, Happen, Reached, ConcernsRequest, Holds;
      if id in s.bodies {
        StepHolds(rules, s, op, id, sent, LastFor(rules, before, id));
        assert sent + [] == sent;
      } else if id in Reached(rules, ops).bodies {
        BornHolding(rules, s, op, id);
      }
    }
  }

  // ---------- The promise ----------

  /**
    Between frames, over every interleaving: what was put into a body is, octet for octet and in order, what the peer's
    DATA frames carried for it, less the last of them if that took the request past its declared length. So a handler
    that reads takes the front of what was sent, and one that has seen the end has taken all of it.
   */
  lemma ContentIsThePeers(rules: Rules, ops: seq<Op>, id: uint32)
    requires id in Reached(rules, ops).bodies && Rested(Reached(rules, ops))
    ensures var s, sent, last := Reached(rules, ops), OctetsSent(rules, ops, id), LastFor(rules, ops, id);
      && id in s.declared
      && sent == s.bodies[id].added + Withheld(last, s.declared[id], |sent|)
      && s.bodies[id].taken <= sent
      && (s.bodies[id].sawEnd ==> s.bodies[id].taken == sent)
  {
    var s, sent, last := Reached(rules, ops), OctetsSent(rules, ops, id), LastFor(rules, ops, id);
    HoldsAlways(rules, ops, id);
    SentIsCounted(rules, ops, id);
    ContentLengthIsSafe(rules, ops, id);
    OutcomeIsThePeers(rules, ops, id);
    EndSeenIsEnded(rules, ops, id);
    assert ActsOf(s, id) == [] && PushedOctets([]) == [];
    hide Reached, OctetsSent, LastFor, SentTo;
    assert s.bodies[id].added + [] == s.bodies[id].added;
  }

  lemma EndSeenIsEnded(rules: Rules, ops: seq<Op>, id: uint32)
    requires id in Reached(rules, ops).bodies && Rested(Reached(rules, ops))
    ensures var s := Reached(rules, ops); s.bodies[id].sawEnd ==> s.bodies[id].s.content.ended && id !in s.arriving
  {
    AlwaysInvariant(rules, ops);
    EveryBodyEndsOnce(rules, ops, id);
    assert Good(rules, Reached(rules, ops), id);
    hide Reached, Tracks, Validated;
  }
}
