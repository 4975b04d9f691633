/**
  One body over every interleaving: the connection goroutine that changes it and then, the mutex released,
  notifies; and any number of readers that park, wake, take and report. A run is any sequence of steps; one
  that is not enabled changes nothing.
 */
module BodyRuns {
  import opened Octets
  import opened H2
  import opened RequestBody

  /** The notification the connection goroutine still owes between its unlock and its notify. */
  datatype Owed = Nothing | OneReader | EveryReader

  /** A read whose octets are taken and whose report to the stream table is not made yet. */
  datatype Flight = Flight(t: Tid, n: nat, more: bool)

  /**
    A body, and what has happened to it: every octet put in, every octet taken, how many were reported, whether some
    read found that no more would come, whether one reported so, and whether some read saw the end.
   */
  datatype Monitor = Monitor(
    s: State,
    owed: Owed,
    flights: seq<Flight>,
    added: seq<byte>,
    taken: seq<byte>,
    reported: nat,
    foundLast: bool,
    reportedLast: bool,
    sawEnd: bool)

  datatype Step =
    | Do(act: Act)                 // the connection goroutine changes the body
    | Notify(pick: Tid)            // and notifies; a signal reaches the sleeper the runtime picks
    | Enter(t: Tid, want: nat)     // a running goroutine calls Read with a buffer of want octets
    | Resume(t: Tid)               // a notified one runs again
    | Report(k: nat)               // a read in flight reports what it took and returns

  ghost const FRESH := Monitor(State(EMPTY, map[], map[]), Nothing, [], [], [], 0, false, false, false)

  ghost predicate Running(m: Monitor, t: Tid) {
    t !in m.s.parked && t !in m.s.woken && forall k | 0 <= k < |m.flights| :: m.flights[k].t != t
  }

  ghost function AfterAct(m: Monitor, act: Act): Monitor {
    m.(s := m.s.(content := Apply(m.s.content, act)),
       owed := if act.Push? then OneReader else EveryReader,
       added := if act.Push? then m.added + act.chunk else m.added)
  }

  ghost function AfterNotify(m: Monitor, pick: Tid): Monitor {
    match m.owed
    case Nothing => m
    case EveryReader => m.(s := Broadcast(m.s), owed := Nothing)
    case OneReader =>
      if m.s.parked == map[] then m.(owed := Nothing)
      else if pick in m.s.parked then m.(s := Wake(m.s, pick), owed := Nothing)
      else m
  }

  /** One pass of take from state s by goroutine t. Only a read that produced content goes on to report it. */
  ghost function AfterRead(m: Monitor, s: State, t: Tid, want: nat): Monitor
    requires WellFormed(s.content)
  {
    var after := m.(s := AfterPass(s, t, want));
    match Take(s.content, want)
    case Takes(octets, more) =>
      after.(taken := m.taken + octets,
             flights := if octets == [] then m.flights else m.flights + [Flight(t, |octets|, more)],
             foundLast := m.foundLast || !more)
    case Finishes => after.(sawEnd := true)
    case _ => after
  }

  ghost function Exec(m: Monitor, step: Step): Monitor {
    match step
    case Do(act) => if m.owed == Nothing then AfterAct(m, act) else m
    case Notify(pick) => AfterNotify(m, pick)
    case Enter(t, want) =>
      if Running(m, t) && want > 0 && WellFormed(m.s.content) then AfterRead(m, m.s, t, want) else m
    case Resume(t) =>
      if t in m.s.woken && WellFormed(m.s.content) then
        AfterRead(m, m.s.(woken := m.s.woken - {t}), t, m.s.woken[t])
      else m
    case Report(k) =>
      if k < |m.flights| then
        m.(flights := m.flights[..k] + m.flights[k + 1..],
           reported := m.reported + m.flights[k].n,
           reportedLast := m.reportedLast || !m.flights[k].more)
      else m
  }

  ghost function Run(steps: seq<Step>): Monitor {
    if steps == [] then FRESH else Exec(Run(steps[..|steps| - 1]), steps[|steps| - 1])
  }

  // ---------- The body is a faithful queue, and every octet of credit is accounted for ----------

  ghost function InFlight(flights: seq<Flight>): nat {
    if flights == [] then 0 else flights[0].n + InFlight(flights[1..])
  }

  lemma {:induction false} InFlightConcat(a: seq<Flight>, b: seq<Flight>)
    ensures InFlight(a + b) == InFlight(a) + InFlight(b)
  {
    if a == [] {
      assert a + b == b;
    } else {
      assert (a + b)[1..] == a[1..] + b;
      InFlightConcat(a[1..], b);
    }
  }

  /** What was put in is what was taken followed by what is left, and what was taken is reported or about to be. */
  ghost predicate Faithful(m: Monitor) {
    && WellFormed(m.s.content)
    && m.added == m.taken + Left(m.s.content)
    && |m.taken| == m.reported + InFlight(m.flights)
  }

  lemma ReadKeepsFaithful(m: Monitor, s: State, t: Tid, want: nat)
    requires Faithful(m) && s.content == m.s.content && want > 0
    ensures Faithful(AfterRead(m, s, t, want))
  {
    var c := s.content;
    TakeIsFaithful(c, want);
    match Take(c, want)
    case Takes(octets, more) =>
      hide Take, AfterTake, Left, WellFormed;
      var rest := Left(AfterTake(c, want));
      assert m.taken + (octets + rest) == m.taken + octets + rest;
      InFlightConcat(m.flights, [Flight(t, |octets|, more)]);
      assert InFlight([Flight(t, |octets|, more)]) == |octets|;
    case _ => hide Left, InFlight;
  }

  lemma ReportKeepsFaithful(m: Monitor, k: nat)
    requires Faithful(m) && k < |m.flights|
    ensures Faithful(Exec(m, Report(k)))
  {
    var f := m.flights;
    InFlightConcat(f[..k], f[k..]);
    InFlightConcat(f[..k], f[k + 1..]);
    assert f == f[..k] + f[k..] && f[k..][1..] == f[k + 1..];
    hide Left, WellFormed;
  }

  lemma ActKeepsFaithful(m: Monitor, act: Act)
    requires Faithful(m)
    ensures Faithful(AfterAct(m, act))
  {
    ApplyKeepsWellFormed(m.s.content, act);
    hide Left, WellFormed, InFlight;
    if act.Push? {
      assert m.taken + (Left(m.s.content) + act.chunk) == m.taken + Left(m.s.content) + act.chunk;
    }
  }

  lemma StepKeepsFaithful(m: Monitor, step: Step)
    requires Faithful(m) && Asking(m)
    ensures Faithful(Exec(m, step))
  {
    hide Left, InFlight, AfterRead, AfterAct, WellFormed, Apply;
    match step
    case Do(act) => ActKeepsFaithful(m, act);
    case Notify(_) =>
    case Enter(t, want) => if want > 0 { ReadKeepsFaithful(m, m.s, t, want); }
    case Resume(t) => if t in m.s.woken { ReadKeepsFaithful(m, m.s.(woken := m.s.woken - {t}), t, m.s.woken[t]); }
    case Report(k) => if k < |m.flights| { ReportKeepsFaithful(m, k); }
  }

  /** Every waiting read asks for something, and no goroutine waits in two places. */
  ghost predicate Asking(m: Monitor) {
    && m.s.parked.Keys !! m.s.woken.Keys
    && (forall t | t in m.s.parked :: m.s.parked[t] > 0)
    && (forall t | t in m.s.woken :: m.s.woken[t] > 0)
  }

  lemma ReadKeepsAsking(m: Monitor, s: State, t: Tid, want: nat)
    requires WellFormed(s.content) && Asking(m.(s := s)) && t !in s.woken && want > 0
    ensures Asking(AfterRead(m, s, t, want))
  {
    hide Take, AfterTake, WellFormed;
  }

  lemma StepKeepsAsking(m: Monitor, step: Step)
    requires Asking(m)
    ensures Asking(Exec(m, step))
  {
    hide AfterRead, WellFormed, Apply;
    match step
    case Enter(t, want) => if Running(m, t) && want > 0 && WellFormed(m.s.content) { ReadKeepsAsking(m, m.s, t, want); }
    case Resume(t) =>
      if t in m.s.woken && WellFormed(m.s.content) {
        ReadKeepsAsking(m, m.s.(woken := m.s.woken - {t}), t, m.s.woken[t]);
      }
    case _ =>
  }

  /**
    Over every run the octets handed to readers are the front of the octets put in, in order, none lost and none
    twice; and each is either reported to the stream table or in a read that is about to report it.
   */
  lemma {:induction false} BodyIsFaithful(steps: seq<Step>)
    ensures Faithful(Run(steps)) && Asking(Run(steps))
    ensures Run(steps).taken <= Run(steps).added
  {
    if steps != [] {
      BodyIsFaithful(steps[..|steps| - 1]);
      StepKeepsFaithful(Run(steps[..|steps| - 1]), steps[|steps| - 1]);
      StepKeepsAsking(Run(steps[..|steps| - 1]), steps[|steps| - 1]);
    }
  }

  // ---------- The end ----------

  /** A read that said no more would come, or saw the end, saw an ended body with no payload left in it. */
  ghost predicate Honest(m: Monitor) {
    && (m.reportedLast ==> m.foundLast)
    && (forall k | 0 <= k < |m.flights| && !m.flights[k].more :: m.foundLast)
    && (m.foundLast || m.sawEnd ==> m.s.content.ended && m.s.content.chunks == [])
  }

  lemma StepKeepsHonest(m: Monitor, step: Step)
    requires Faithful(m) && Honest(m)
    requires step.Do? && step.act.Push? ==> !m.s.content.ended
    ensures Honest(Exec(m, step))
  {
    hide Left, InFlight;
  }

  /** Nothing is put in after the end. The stream layer refuses DATA after END_STREAM. */
  ghost predicate NothingAfterEnd(steps: seq<Step>) {
    forall k | 0 <= k < |steps| && steps[k].Do? && steps[k].act.Push? :: !Run(steps[..k]).s.content.ended
  }

  lemma NothingAfterEndBefore(steps: seq<Step>, k: nat)
    requires NothingAfterEnd(steps) && k <= |steps|
    ensures NothingAfterEnd(steps[..k])
    ensures k < |steps| && steps[k].Do? && steps[k].act.Push? ==> !Run(steps[..k]).s.content.ended
  {
    hide Run;
    forall j | 0 <= j < k ensures steps[..k][j] == steps[j] && steps[..k][..j] == steps[..j] {
    }
  }

  lemma {:induction false} AlwaysHonest(steps: seq<Step>)
    requires NothingAfterEnd(steps)
    ensures Honest(Run(steps))
  {
    if steps != [] {
      var k := |steps| - 1;
      NothingAfterEndBefore(steps, k);
      AlwaysHonest(steps[..k]);
      BodyIsFaithful(steps[..k]);
      StepKeepsHonest(Run(steps[..k]), steps[k]);
    }
  }

  lemma NothingIsLeftToTake(m: Monitor, s: State, t: Tid, want: nat)
    requires WellFormed(s.content) && s.content == m.s.content && s.content.ended && s.content.chunks == []
    ensures var after := AfterRead(m, s, t, want); after.taken == m.taken && after.s.content == m.s.content
  {
    hide WellFormed;
  }

  lemma NothingMoreIsTaken(m: Monitor, step: Step)
    requires Faithful(m) && m.s.content.ended && m.s.content.chunks == []
    requires !(step.Do? && step.act.Push?)
    ensures Exec(m, step).taken == m.taken && Exec(m, step).s.content.ended && Exec(m, step).s.content.chunks == []
  {
    hide Left, InFlight, AfterRead, WellFormed, Running;
    match step
    case Enter(t, want) => if WellFormed(m.s.content) { NothingIsLeftToTake(m, m.s, t, want); }
    case Resume(t) =>
      if t in m.s.woken && WellFormed(m.s.content) {
        NothingIsLeftToTake(m, m.s.(woken := m.s.woken - {t}), t, m.s.woken[t]);
      }
    case _ =>
  }

  /**
    Once a read has reported that no more content may come, or has seen the end, every octet put in has been taken
    and no later step takes another.
   */
  lemma {:induction false} LastMeansLast(steps: seq<Step>, later: seq<Step>)
    requires NothingAfterEnd(steps + later)
    requires Run(steps).foundLast || Run(steps).sawEnd
    ensures Run(steps + later).taken == Run(steps).taken == Run(steps).added
    ensures Run(steps + later).s.content.ended && Run(steps + later).s.content.chunks == []
  {
    if later == [] {
      assert steps + later == steps;
      AlwaysHonest(steps);
      BodyIsFaithful(steps);
    } else {
      var all, k := steps + later, |steps| + |later| - 1;
      assert all[..k] == steps + later[..|later| - 1];
      RunLast(all);
      hide *;
      NothingAfterEndBefore(all, k);
      LastMeansLast(steps, later[..|later| - 1]);
      BodyIsFaithful(all[..k]);
      NothingMoreIsTaken(Run(all[..k]), all[k]);
    }
  }

  lemma RunLast(steps: seq<Step>)
    requires steps != []
    ensures Run(steps) == Exec(Run(steps[..|steps| - 1]), steps[|steps| - 1])
  {
  }

  lemma RunSnoc(steps: seq<Step>, step: Step)
    ensures Run(steps + [step]) == Exec(Run(steps), step)
  {
    assert (steps + [step])[..|steps|] == steps;
  }

  ghost predicate Reachable(m: Monitor) {
    exists steps :: Run(steps) == m
  }

  lemma ReachableNext(m: Monitor, step: Step)
    requires Reachable(m)
    ensures Reachable(Exec(m, step))
  {
    var steps :| Run(steps) == m;
    RunSnoc(steps, step);
  }

  /** No empty payload is ever put in. */
  ghost predicate NoneEmpty(steps: seq<Step>) {
    forall k | 0 <= k < |steps| && steps[k].Do? && steps[k].act.Push? :: steps[k].act.chunk != []
  }

  /** A body that ended was read to its end, and no read reported that no more may come. */
  ghost predicate EndedUnannounced(m: Monitor, octets: seq<byte>) {
    m.sawEnd && m.taken == m.added == octets && m.reported == |octets| && m.flights == [] && !m.reportedLast
  }

  /**
    The converse fails, in two ways (BodyEnding says exactly when). In the first the body ends with an empty payload:
    the read that took the last octet still had it behind it, and the read that takes an empty payload reports nothing.
   */
  lemma TheLastReadNeedNotSaySo(octet: byte)
    ensures exists m :: Reachable(m) && EndedUnannounced(m, [octet])
  {
    var m := EndedWithAnEmptyPayload(octet);
    OctetIsRead(octet);
    ReachableNext(m, Enter(0, 1));
    ReachableNext(Exec(m, Enter(0, 1)), Report(0));
    var m2 := Exec(Exec(m, Enter(0, 1)), Report(0));
    EmptyIsRead(octet, m2);
    hide Exec, Reachable;
    ReachableNext(m2, Enter(0, 1));
    ReachableNext(Exec(m2, Enter(0, 1)), Enter(0, 1));
  }

  lemma OctetIsRead(octet: byte)
    ensures var m := FRESH.(s := State(Content([[octet], []], 0, true, None, None), map[], map[]), added := [octet]);
      Exec(Exec(m, Enter(0, 1)), Report(0))
      == m.(s := State(Content([[]], 0, true, None, None), map[], map[]), taken := [octet], reported := 1)
  {
    var m := FRESH.(s := State(Content([[octet], []], 0, true, None, None), map[], map[]), added := [octet]);
    var m1 := Exec(m, Enter(0, 1));
    assert m1.s.content == Content([[]], 0, true, None, None);
    assert m1.flights == [Flight(0, 1, true)] && m1.taken == [octet];
    assert m1.flights[..0] + m1.flights[1..] == [];
  }

  lemma EmptyIsRead(octet: byte, m: Monitor)
    requires m.s == State(Content([[]], 0, true, None, None), map[], map[]) && m.flights == []
    requires m.taken == m.added == [octet] && m.reported == 1 && !m.reportedLast
    ensures EndedUnannounced(Exec(Exec(m, Enter(0, 1)), Enter(0, 1)), [octet])
  {
    var m1 := Exec(m, Enter(0, 1));
    assert m1.s.content == Content([], 0, true, None, None);
    assert m1.taken == [octet] && m1.flights == [];
  }

  lemma EndedWithAnEmptyPayload(octet: byte) returns (m: Monitor)
    ensures Reachable(m)
    ensures m == FRESH.(s := State(Content([[octet], []], 0, true, None, None), map[], map[]), added := [octet])
  {
    assert Run([]) == FRESH;
    var m1 := Exec(FRESH, Do(Push([octet])));
    var m2 := Exec(m1, Notify(0));
    assert m2 == FRESH.(s := State(Content([[octet]], 0, false, None, None), map[], map[]), added := [octet]);
    var m3 := Exec(m2, Do(Push([])));
    var m4 := Exec(m3, Notify(0));
    var m5 := Exec(m4, Do(Finish(None)));
    m := Exec(m5, Notify(0));
    ReachableNext(FRESH, Do(Push([octet])));
    ReachableNext(m1, Notify(0));
    ReachableNext(m2, Do(Push([])));
    ReachableNext(m3, Notify(0));
    ReachableNext(m4, Do(Finish(None)));
    ReachableNext(m5, Notify(0));
  }

  lemma WithoutEmpty(steps: seq<Step>, step: Step) returns (longer: seq<Step>)
    requires NoneEmpty(steps) && !(step.Do? && step.act.Push? && step.act.chunk == [])
    ensures NoneEmpty(longer) && Run(longer) == Exec(Run(steps), step)
  {
    hide Exec;
    longer := steps + [step];
    RunSnoc(steps, step);
  }

  /**
    In the second no payload is empty: the last octet is taken between the change that put it in and the one that
    ends the body.
   */
  lemma TheEndMayComeAfterTheLastRead(octet: byte)
    ensures exists steps :: NoneEmpty(steps) && EndedUnannounced(Run(steps), [octet])
  {
    var steps := TakenBeforeTheEnd(octet);
    steps := WithoutEmpty(steps, Do(Finish(None)));
    hide Run, NoneEmpty;
    assert Run(steps).s.content == Content([], 0, true, None, None) && Run(steps).owed == EveryReader;
    steps := WithoutEmpty(steps, Enter(0, 1));
  }

  lemma TakenBeforeTheEnd(octet: byte) returns (steps: seq<Step>)
    ensures NoneEmpty(steps)
    ensures Run(steps) == FRESH.(added := [octet], taken := [octet], reported := 1)
  {
    assert NoneEmpty([]) && Run([]) == FRESH;
    steps := WithoutEmpty([], Do(Push([octet])));
    steps := WithoutEmpty(steps, Notify(0));
    hide Run, NoneEmpty;
    assert Run(steps) == FRESH.(s := State(Content([[octet]], 0, false, None, None), map[], map[]), added := [octet]);
    steps := WithoutEmpty(steps, Enter(0, 1));
    assert Run(steps).flights == [Flight(0, 1, true)] && Run(steps).taken == [octet];
    assert Run(steps).s == State(EMPTY, map[], map[]);
    steps := WithoutEmpty(steps, Report(0));
    assert Run(steps).flights == [];
  }

  lemma ReadKeepsRest(m: Monitor, s: State, t: Tid, want: nat)
    requires WellFormed(s.content) && s.content == m.s.content
    ensures var after := AfterRead(m, s, t, want);
      && after.added == m.added && after.owed == m.owed
      && after.s.content.ended == m.s.content.ended && after.s.content.err == m.s.content.err
      && after.s.content.trailers == m.s.content.trailers
  {
    hide Take, WellFormed;
  }

  /** Reading changes neither what was put in, nor the end, nor what is owed. */
  lemma ReadingKeeps(m: Monitor, step: Step)
    requires !step.Do? && !step.Notify?
    ensures var after := Exec(m, step);
      && after.added == m.added && after.owed == m.owed
      && after.s.content.ended == m.s.content.ended && after.s.content.err == m.s.content.err
      && after.s.content.trailers == m.s.content.trailers
  {
    hide AfterRead, WellFormed, Running;
    match step
    case Enter(t, want) => if WellFormed(m.s.content) { ReadKeepsRest(m, m.s, t, want); }
    case Resume(t) =>
      if t in m.s.woken && WellFormed(m.s.content) {
        ReadKeepsRest(m, m.s.(woken := m.s.woken - {t}), t, m.s.woken[t]);
      }
    case _ =>
  }

  // ---------- Wakeups ----------

  /** Nobody sleeps through an end or a failure, unless the broadcast is still owed. */
  ghost predicate EndWakesAll(m: Monitor) {
    m.s.parked != map[] && m.owed != EveryReader ==> !m.s.content.ended && m.s.content.err.None?
  }

  lemma ReadKeepsEndWakesAll(m: Monitor, s: State, t: Tid, want: nat)
    requires WellFormed(s.content) && s.content == m.s.content && s.parked == m.s.parked && EndWakesAll(m)
    ensures EndWakesAll(AfterRead(m, s, t, want))
  {
    hide AfterTake, WellFormed;
  }

  lemma StepKeepsEndWakesAll(m: Monitor, step: Step)
    requires Faithful(m) && EndWakesAll(m)
    ensures EndWakesAll(Exec(m, step))
  {
    hide Left, InFlight, AfterTake, AfterRead;
    match step
    case Enter(t, want) => ReadKeepsEndWakesAll(m, m.s, t, want);
    case Resume(t) => if t in m.s.woken { ReadKeepsEndWakesAll(m, m.s.(woken := m.s.woken - {t}), t, m.s.woken[t]); }
    case _ =>
  }

  /** However many readers there are, none is asleep un-notified once an end or a failure has been broadcast. */
  lemma {:induction false} NoneSleepsThroughTheEnd(steps: seq<Step>)
    ensures EndWakesAll(Run(steps))
  {
    if steps != [] {
      NoneSleepsThroughTheEnd(steps[..|steps| - 1]);
      BodyIsFaithful(steps[..|steps| - 1]);
      StepKeepsEndWakesAll(Run(steps[..|steps| - 1]), steps[|steps| - 1]);
    }
  }

  /**
    While anybody is asleep un-notified, there is a notified reader, or a signal owed, for every payload that is
    left.
   */
  ghost predicate Covered(m: Monitor) {
    m.s.parked != map[] && m.owed != EveryReader ==>
      |m.s.content.chunks| <= |m.s.woken| + if m.owed == OneReader then 1 else 0
  }

  /** Every waiting reader's buffer holds any payload whole. */
  ghost predicate Roomy(m: Monitor, size: nat) {
    && (forall t | t in m.s.parked :: m.s.parked[t] >= size)
    && (forall t | t in m.s.woken :: m.s.woken[t] >= size)
    && (forall i | 0 <= i < |m.s.content.chunks| :: |m.s.content.chunks[i]| <= size)
  }

  ghost predicate StepIsRoomy(step: Step, size: nat) {
    && (step.Enter? ==> step.want >= size)
    && (step.Do? && step.act.Push? ==> |step.act.chunk| <= size)
  }

  lemma MapSizes(m: map<Tid, nat>, t: Tid, v: nat)
    ensures t in m ==> |m - {t}| == |m| - 1
    ensures t !in m ==> |m[t := v]| == |m| + 1
  {
    assert (m - {t}).Keys == m.Keys - {t};
    assert m[t := v].Keys == m.Keys + {t};
  }

  lemma ReadKeepsRoomy(m: Monitor, s: State, t: Tid, want: nat, size: nat)
    requires WellFormed(s.content) && Roomy(m.(s := s), size) && want >= size
    ensures Roomy(AfterRead(m, s, t, want), size)
  {
  }

  lemma ReadKeepsCovered(m: Monitor, s: State, t: Tid, want: nat, size: nat)
    requires WellFormed(s.content) && s.content == m.s.content && s.parked == m.s.parked
              && Roomy(m.(s := s), size) && want >= size
    requires s.parked != map[] && m.owed != EveryReader ==>
               s.content.err.None? && |s.content.chunks| <= 1 + |s.woken| + if m.owed == OneReader then 1 else 0
    ensures Covered(AfterRead(m, s, t, want)) && Roomy(AfterRead(m, s, t, want), size)
  {
    ReadKeepsRoomy(m, s, t, want, size);
    assert s.content.chunks != [] ==> |Front(s.content)| <= want;
    hide Roomy, Front, WellFormed;
  }

  lemma NotifyKeepsRoomy(m: Monitor, pick: Tid, size: nat)
    requires Roomy(m, size)
    ensures Roomy(AfterNotify(m, pick), size)
  {
  }

  lemma NotifyKeepsCovered(m: Monitor, pick: Tid, size: nat)
    requires Asking(m) && Covered(m) && Roomy(m, size)
    ensures Covered(AfterNotify(m, pick)) && Roomy(AfterNotify(m, pick), size)
  {
    NotifyKeepsRoomy(m, pick, size);
    hide Roomy;
    if pick in m.s.parked {
      MapSizes(m.s.woken, pick, m.s.parked[pick]);
    }
  }

  lemma ResumeKeepsCovered(m: Monitor, t: Tid, size: nat)
    requires t in m.s.woken && WellFormed(m.s.content) && EndWakesAll(m) && Covered(m) && Roomy(m, size)
    ensures Covered(Exec(m, Resume(t))) && Roomy(Exec(m, Resume(t)), size)
  {
    hide AfterRead;
    MapSizes(m.s.woken, t, 0);
    ReadKeepsCovered(m, m.s.(woken := m.s.woken - {t}), t, m.s.woken[t], size);
  }

  lemma StepKeepsCovered(m: Monitor, step: Step, size: nat)
    requires Faithful(m) && Asking(m) && EndWakesAll(m) && Covered(m) && Roomy(m, size) && StepIsRoomy(step, size)
    ensures Covered(Exec(m, step)) && Roomy(Exec(m, step), size)
  {
    hide Left, InFlight, AfterRead, AfterNotify, Asking;
    match step
    case Do(act) =>
    case Notify(pick) => NotifyKeepsCovered(m, pick, size);
    case Enter(t, want) => ReadKeepsCovered(m, m.s, t, want, size);
    case Resume(t) => if t in m.s.woken { ResumeKeepsCovered(m, t, size); }
    case Report(k) =>
  }

  /**
    With any number of readers, if every buffer holds the largest payload whole, then while a reader is asleep
    un-notified each payload left has a notified reader on its way to it, or the signal for it is still owed.
   */
  lemma {:induction false} WholeReadsLoseNoWakeup(steps: seq<Step>, size: nat)
    requires forall k | 0 <= k < |steps| :: StepIsRoomy(steps[k], size)
    ensures Covered(Run(steps)) && Roomy(Run(steps), size)
  {
    if steps != [] {
      WholeReadsLoseNoWakeup(steps[..|steps| - 1], size);
      BodyIsFaithful(steps[..|steps| - 1]);
      NoneSleepsThroughTheEnd(steps[..|steps| - 1]);
      StepKeepsCovered(Run(steps[..|steps| - 1]), steps[|steps| - 1], size);
    }
  }

  /** Only goroutine t ever reads. */
  ghost predicate Solo(m: Monitor, t: Tid) {
    m.s.parked.Keys <= {t} && m.s.woken.Keys <= {t} && m.s.parked.Keys !! m.s.woken.Keys
  }

  ghost predicate SoloCovered(m: Monitor) {
    m.s.parked != map[] && m.owed == Nothing ==> m.s.content.chunks == []
  }

  lemma ReadKeepsSolo(m: Monitor, s: State, t: Tid, want: nat)
    requires WellFormed(s.content) && Solo(m.(s := s), t) && s.parked == map[] && t !in s.woken
    ensures Solo(AfterRead(m, s, t, want), t) && SoloCovered(AfterRead(m, s, t, want))
  {
    hide AfterTake, WellFormed;
  }

  lemma StepKeepsSolo(m: Monitor, step: Step, t: Tid)
    requires Faithful(m) && Solo(m, t) && SoloCovered(m) && (step.Enter? ==> step.t == t)
    ensures Solo(Exec(m, step), t) && SoloCovered(Exec(m, step))
  {
    hide Left, InFlight, AfterRead, WellFormed;
    match step
    case Enter(_, want) =>
      if Running(m, t) && want > 0 {
        assert m.s.parked == map[];
        ReadKeepsSolo(m, m.s, t, want);
      }
    case Resume(u) =>
      if u in m.s.woken {
        assert u == t && m.s.parked == map[];
        ReadKeepsSolo(m, m.s.(woken := m.s.woken - {t}), t, m.s.woken[t]);
      }
    case _ =>
  }

  /**
    With one reader, as each request has, whatever the size of its buffer: if it is asleep un-notified and no
    notification is owed, there is nothing to take, the body has not ended and has not failed.
   */
  lemma {:induction false} OneReaderLosesNoWakeup(steps: seq<Step>, t: Tid)
    requires forall k | 0 <= k < |steps| && steps[k].Enter? :: steps[k].t == t
    ensures var m := Run(steps);
      && Solo(m, t) && SoloCovered(m)
      && (t in m.s.parked && m.owed == Nothing ==>
            m.s.content.chunks == [] && !m.s.content.ended && m.s.content.err.None?)
  {
    BodyIsFaithful(steps);
    NoneSleepsThroughTheEnd(steps);
    if steps != [] {
      var before := steps[..|steps| - 1];
      OneReaderLosesNoWakeup(before, t);
      BodyIsFaithful(before);
      NoneSleepsThroughTheEnd(before);
      StepKeepsSolo(Run(before), steps[|steps| - 1], t);
    }
  }

  // ---------- Several readers, exactly ----------

  /** Buffers are of want octets or more, and payloads of size octets or fewer. */
  ghost predicate Uses(steps: seq<Step>, want: nat, size: nat) {
    forall k | 0 <= k < |steps| :: StepUses(steps[k], want, size)
  }

  ghost predicate StepUses(step: Step, want: nat, size: nat) {
    && (step.Enter? ==> step.want >= want)
    && (step.Do? && step.act.Push? ==> |step.act.chunk| <= size)
  }

  /** Somebody is asleep, a payload is left, and nobody has been notified of it or is about to be. */
  ghost predicate Stuck(m: Monitor) {
    m.s.parked != map[] && m.s.woken == map[] && m.owed == Nothing && m.s.content.chunks != []
  }

  lemma Extend(steps: seq<Step>, step: Step, want: nat, size: nat) returns (longer: seq<Step>)
    requires Uses(steps, want, size) && StepUses(step, want, size)
    ensures Uses(longer, want, size) && Run(longer) == Exec(Run(steps), step)
  {
    hide Exec, StepUses;
    longer := steps + [step];
    RunSnoc(steps, step);
  }

  ghost function Idle(parked: map<Tid, nat>): Monitor {
    FRESH.(s := State(EMPTY, parked, map[]))
  }

  /** Readers 0 and 1 asleep, both with buffers of want octets, and then a payload. */
  ghost function Arrived(want: nat, payload: seq<byte>): Monitor {
    Monitor(State(Content([payload], 0, false, None, None), map[0 := want, 1 := want], map[]),
            OneReader, [], payload, [], 0, false, false, false)
  }

  /** Reader 0 has been notified. */
  ghost function Notified(want: nat, payload: seq<byte>): Monitor {
    Monitor(State(Content([payload], 0, false, None, None), map[1 := want], map[0 := want]),
            Nothing, [], payload, [], 0, false, false, false)
  }

  /** It has taken what its buffer holds, */
  ghost function Filled(want: nat, payload: seq<byte>): Monitor
    requires want <= |payload|
  {
    Monitor(State(Content([payload], want, false, None, None), map[1 := want], map[]),
            Nothing, [Flight(0, want, true)], payload, payload[..want], 0, false, false, false)
  }

  /** and is done. */
  ghost function LeftAsleep(want: nat, payload: seq<byte>): Monitor
    requires want <= |payload|
  {
    Monitor(State(Content([payload], want, false, None, None), map[1 := want], map[]),
            Nothing, [], payload, payload[..want], want, false, false, false)
  }

  lemma ReadersArrive(want: nat, payload: seq<byte>)
    requires want > 0
    ensures Exec(FRESH, Enter(0, want)) == Idle(map[0 := want])
    ensures Exec(Idle(map[0 := want]), Enter(1, want)) == Idle(map[0 := want, 1 := want])
    ensures Exec(Idle(map[0 := want, 1 := want]), Do(Push(payload))) == Arrived(want, payload)
  {
    assert [] + payload == payload;
  }

  lemma OneIsNotified(want: nat, payload: seq<byte>)
    ensures Exec(Arrived(want, payload), Notify(0)) == Notified(want, payload)
  {
    assert map[0 := want, 1 := want] - {0} == map[1 := want];
  }

  lemma OneFillsItsBuffer(want: nat, payload: seq<byte>)
    requires 0 < want < |payload|
    ensures Exec(Notified(want, payload), Resume(0)) == Filled(want, payload)
  {
    assert payload[0..] == payload && map[0 := want] - {0} == map[];
    assert [] + payload[..want] == payload[..want];
  }

  lemma OneIsDone(want: nat, payload: seq<byte>)
    requires want <= |payload|
    ensures Exec(Filled(want, payload), Report(0)) == LeftAsleep(want, payload)
  {
    var flights := [Flight(0, want, true)];
    assert flights[..0] + flights[1..] == [];
  }

  /** The first reader is notified, takes what its buffer holds and is done; the second sleeps on beside the rest. */
  lemma SecondReaderIsLeft(want: nat, payload: seq<byte>) returns (steps: seq<Step>)
    requires 0 < want < |payload|
    ensures Uses(steps, want, |payload|) && Run(steps) == LeftAsleep(want, payload)
  {
    assert Uses([], want, |payload|) && Run([]) == FRESH;
    assert StepUses(Enter(0, want), want, |payload|) && StepUses(Enter(1, want), want, |payload|);
    assert StepUses(Do(Push(payload)), want, |payload|) && StepUses(Notify(0), want, |payload|);
    assert StepUses(Resume(0), want, |payload|) && StepUses(Report(0), want, |payload|);
    ReadersArrive(want, payload);
    OneIsNotified(want, payload);
    OneFillsItsBuffer(want, payload);
    OneIsDone(want, payload);
    hide *;
    steps := Extend([], Enter(0, want), want, |payload|);
    steps := Extend(steps, Enter(1, want), want, |payload|);
    steps := Extend(steps, Do(Push(payload)), want, |payload|);
    steps := Extend(steps, Notify(0), want, |payload|);
    steps := Extend(steps, Resume(0), want, |payload|);
    steps := Extend(steps, Report(0), want, |payload|);
  }

  /**
    The exact condition: however many readers there are and whatever they do, none is ever left asleep beside a
    payload with nobody notified, if and only if no payload is larger than a buffer.
   */
  lemma NobodyIsStuckExactly(want: nat, size: nat)
    requires want > 0
    ensures (forall steps | Uses(steps, want, size) :: !Stuck(Run(steps))) <==> size <= want
  {
    hide Run, Uses, StepUses;
    if size <= want {
      forall steps | Uses(steps, want, size) ensures !Stuck(Run(steps)) {
        RoomyIsNotStuck(steps, want, size);
      }
    } else {
      var payload: seq<byte> := seq(size, i => 0);
      var steps := SecondReaderIsLeft(want, payload);
      assert 1 in LeftAsleep(want, payload).s.parked;
      assert Uses(steps, want, size) && Stuck(Run(steps));
    }
  }

  lemma RoomyIsNotStuck(steps: seq<Step>, want: nat, size: nat)
    requires Uses(steps, want, size) && size <= want
    ensures !Stuck(Run(steps))
  {
    hide Run;
    WholeReadsLoseNoWakeup(steps, size);
  }

  /** For one, with two readers whose buffers are of one octet, and a payload of two. */
  lemma ASecondReaderCanBeLeftAsleep(a: byte, b: byte)
    ensures exists m :: Reachable(m) && m.owed == Nothing && m.s.woken == map[] && m.flights == []
                        && 1 in m.s.parked && m.s.content.chunks == [[a, b]] && m.taken == [a]
  {
    var steps := SecondReaderIsLeft(1, [a, b]);
    hide Run;
    assert Reachable(Run(steps)) && [a, b][..1] == [a];
  }
}
