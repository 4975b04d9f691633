/**
  One body told from its history: why it failed, whether and with which trailers it ended, which notification is owed,
  and who waits in a read; and every pass of a read is decided by that and by what is queued.
 */
module BodyHistory {
  import opened Octets
  import opened H2
  import opened RequestBody
  import opened BodyRuns

  /** A goroutine in a read that waits: the size of its buffer, and whether a notification has reached it. */
  datatype Waiter = Waiter(want: nat, notified: bool)

  datatype History = History(
    reason: Option<Fault>,
    ended: bool,
    section: Option<Section>,
    owed: Owed,
    readers: map<Tid, Waiter>)

  ghost predicate Asleep(h: History, t: Tid) {
    t in h.readers && !h.readers[t].notified
  }

  /** The first reason to fail stays. The section is that of the last end. */
  ghost function Changed(h: History, act: Act): History {
    match act
    case Push(_) => h.(owed := OneReader)
    case Finish(section) => h.(ended := true, section := section, owed := EveryReader)
    case Abandon(reason) => h.(reason := if h.reason.None? then Some(reason) else h.reason, owed := EveryReader)
  }

  ghost function Roused(h: History, pick: Tid): History {
    match h.owed
    case Nothing => h
    case EveryReader => h.(readers := map t | t in h.readers :: h.readers[t].(notified := true), owed := Nothing)
    case OneReader =>
      if Asleep(h, pick) then h.(readers := h.readers[pick := h.readers[pick].(notified := true)], owed := Nothing)
      else if exists t :: Asleep(h, t) then h
      else h.(owed := Nothing)
  }

  /** A read that finds nothing queued waits, unless the body has failed or ended. Any other does not. */
  ghost function Passed(h: History, queued: bool, t: Tid, want: nat): History {
    if h.reason.None? && !queued && !h.ended then h.(readers := h.readers[t := Waiter(want, false)])
    else h.(readers := h.readers - {t})
  }

  /** Goroutine t has taken octets and not yet reported them. */
  ghost predicate Reporting(m: Monitor, t: Tid) {
    exists k :: 0 <= k < |m.flights| && m.flights[k].t == t
  }

  ghost function Told(steps: seq<Step>): History {
    if steps == [] then History(None, false, None, Nothing, map[])
    else
      var before := steps[..|steps| - 1];
      var h, queued := Told(before), Run(before).s.content.chunks != [];
      match steps[|steps| - 1]
      case Do(act) => if h.owed == Nothing then Changed(h, act) else h
      case Notify(pick) => Roused(h, pick)
      case Enter(t, want) =>
        if t in h.readers || want == 0 || Reporting(Run(before), t) then h else Passed(h, queued, t, want)
      case Resume(t) =>
        if t in h.readers && h.readers[t].notified then Passed(h, queued, t, h.readers[t].want) else h
      case Report(_) => h
  }

  /** What the history says of the body is what the body holds, and of each reader that waits where it waits. */
  ghost predicate Matches(m: Monitor, h: History) {
    && m.s.content.err == h.reason && m.s.content.ended == h.ended && m.s.content.trailers == h.section
    && m.owed == h.owed
    && Placed(m.s, h.readers)
  }

  ghost predicate Placed(s: State, readers: map<Tid, Waiter>) {
    && s.parked == (map t | t in readers && !readers[t].notified :: readers[t].want)
    && s.woken == (map t | t in readers && readers[t].notified :: readers[t].want)
  }

  // ---------- Who waits ----------

  lemma AllRoused(s: State, readers: map<Tid, Waiter>)
    requires Placed(s, readers)
    ensures Placed(Broadcast(s), map t | t in readers :: readers[t].(notified := true))
  {
    var told := map t | t in readers :: readers[t].(notified := true);
    assert s.woken + s.parked == map t | t in told && told[t].notified :: told[t].want;
  }

  lemma OneRoused(s: State, readers: map<Tid, Waiter>, t: Tid)
    requires Placed(s, readers) && t in s.parked
    ensures t in readers && Placed(Wake(s, t), readers[t := readers[t].(notified := true)])
  {
    var told := readers[t := readers[t].(notified := true)];
    assert s.parked - {t} == map i | i in told && !told[i].notified :: told[i].want;
    assert s.woken[t := s.parked[t]] == map i | i in told && told[i].notified :: told[i].want;
  }

  lemma OneParked(s: State, readers: map<Tid, Waiter>, t: Tid, want: nat)
    requires Placed(s, readers) && t !in readers
    ensures Placed(s.(parked := s.parked[t := want]), readers[t := Waiter(want, false)])
  {
    var told := readers[t := Waiter(want, false)];
    assert s.parked[t := want] == map i | i in told && !told[i].notified :: told[i].want;
    assert s.woken == map i | i in told && told[i].notified :: told[i].want;
  }

  lemma OneRunning(s: State, readers: map<Tid, Waiter>, t: Tid)
    requires Placed(s, readers) && t in s.woken
    ensures t in readers && readers[t].notified && s.woken[t] == readers[t].want
    ensures Placed(s.(woken := s.woken - {t}), readers - {t})
  {
    var told := readers - {t};
    assert s.woken - {t} == map i | i in told && told[i].notified :: told[i].want;
  }

  // ---------- Every step ----------

  lemma ActMatches(m: Monitor, h: History, act: Act)
    requires Matches(m, h)
    ensures Matches(AfterAct(m, act), Changed(h, act))
  {
    hide Placed;
    assert AfterAct(m, act).s.parked == m.s.parked && AfterAct(m, act).s.woken == m.s.woken;
    PlacedAlike(m.s, AfterAct(m, act).s, h.readers);
  }

  lemma PlacedAlike(s: State, t: State, readers: map<Tid, Waiter>)
    requires s.parked == t.parked && s.woken == t.woken
    ensures Placed(s, readers) == Placed(t, readers)
  {
  }

  lemma WhoSleeps(s: State, h: History)
    requires Placed(s, h.readers)
    ensures forall t :: t in s.parked <==> Asleep(h, t)
    ensures s.parked == map[] <==> !exists t :: Asleep(h, t)
  {
    if s.parked == map[] {
      assert forall t :: t !in s.parked;
    } else {
      assert exists t :: t in s.parked.Keys;
    }
  }

  lemma NotifyMatches(m: Monitor, h: History, pick: Tid)
    requires Matches(m, h)
    ensures Matches(AfterNotify(m, pick), Roused(h, pick))
  {
    WhoSleeps(m.s, h);
    AllRoused(m.s, h.readers);
    if pick in m.s.parked {
      OneRoused(m.s, h.readers, pick);
    }
    hide Placed, Asleep;
  }

  lemma PassPlaces(s: State, readers: map<Tid, Waiter>, t: Tid, want: nat)
    requires WellFormed(s.content) && Placed(s, readers) && t !in readers
    ensures Placed(AfterPass(s, t, want), if Take(s.content, want).Waits? then readers[t := Waiter(want, false)]
                                          else readers)
  {
    OneParked(s, readers, t, want);
    hide Placed, WellFormed, Take;
    if !Take(s.content, want).Waits? {
      PlacedAlike(s, AfterPass(s, t, want), readers);
    }
  }

  lemma ReadLeaves(m: Monitor, s: State, t: Tid, want: nat)
    requires WellFormed(s.content)
    ensures var after, c := AfterRead(m, s, t, want), s.content;
      && after.s == AfterPass(s, t, want) && after.owed == m.owed
      && after.s.content.err == c.err && after.s.content.ended == c.ended && after.s.content.trailers == c.trailers
      && (Take(c, want).Waits? <==> c.err.None? && c.chunks == [] && !c.ended)
  {
    hide WellFormed;
  }

  /** From a state without goroutine t, one pass of it: it waits or it does not, and nobody else moves. */
  lemma PassMatches(m: Monitor, s: State, h: History, t: Tid, want: nat)
    requires Matches(m, h) && WellFormed(s.content) && s.content == m.s.content
    requires Placed(s, h.readers - {t})
    ensures Matches(AfterRead(m, s, t, want), Passed(h, m.s.content.chunks != [], t, want))
  {
    PassPlaces(s, h.readers - {t}, t, want);
    ReadLeaves(m, s, t, want);
    assert (h.readers - {t})[t := Waiter(want, false)] == h.readers[t := Waiter(want, false)];
    hide Placed, WellFormed, AfterRead, AfterPass, Take;
  }

  lemma WhoRuns(m: Monitor, h: History, t: Tid)
    requires Matches(m, h)
    ensures Running(m, t) <==> t !in h.readers && !Reporting(m, t)
    ensures t in m.s.woken <==> t in h.readers && h.readers[t].notified
  {
  }

  lemma EnterMatches(m: Monitor, h: History, t: Tid, want: nat)
    requires Matches(m, h) && WellFormed(m.s.content)
    ensures Matches(Exec(m, Enter(t, want)),
                    if t in h.readers || want == 0 || Reporting(m, t) then h
                    else Passed(h, m.s.content.chunks != [], t, want))
  {
    WhoRuns(m, h, t);
    hide WellFormed, Running, Reporting, AfterRead, Passed;
    if t !in h.readers {
      assert h.readers - {t} == h.readers;
      assert Placed(m.s, h.readers - {t});
      hide Matches, Placed;
      PassMatches(m, m.s, h, t, want);
    }
  }

  lemma ResumeMatches(m: Monitor, h: History, t: Tid)
    requires Matches(m, h) && WellFormed(m.s.content)
    ensures Matches(Exec(m, Resume(t)),
                    if t in h.readers && h.readers[t].notified
                    then Passed(h, m.s.content.chunks != [], t, h.readers[t].want) else h)
  {
    WhoRuns(m, h, t);
    assert Placed(m.s, h.readers);
    hide WellFormed, AfterRead, Passed, Matches;
    if t in m.s.woken {
      OneRunning(m.s, h.readers, t);
      hide Placed;
      PassMatches(m, m.s.(woken := m.s.woken - {t}), h, t, m.s.woken[t]);
    }
  }

  lemma ReportMatches(m: Monitor, h: History, k: nat)
    requires Matches(m, h)
    ensures Matches(Exec(m, Report(k)), h)
  {
    hide Placed;
  }

  lemma OwedIs(m: Monitor, h: History)
    requires Matches(m, h)
    ensures m.owed == h.owed
  {
  }

  /**
    On every run: the body has failed for the first reason given, it has ended if an end was marked and with the
    section of the last, and the readers asleep and those about to run are exactly those that found nothing on their
    last pass, before and after a notification reached them. None is lost, and none is woken that was not notified.
   */
  lemma {:induction false} EveryReaderIsAccountedFor(steps: seq<Step>)
    ensures Matches(Run(steps), Told(steps))
  {
    if steps != [] {
      var before, step := steps[..|steps| - 1], steps[|steps| - 1];
      var m, h := Run(before), Told(before);
      EveryReaderIsAccountedFor(before);
      BodyIsFaithful(before);
      RunLast(steps);
      OwedIs(m, h);
      hide Run, Matches, AfterAct, AfterNotify, Changed, Roused, Passed, Reporting;
      match step
      case Do(act) => ActMatches(m, h, act);
      case Notify(pick) => NotifyMatches(m, h, pick);
      case Enter(t, want) => EnterMatches(m, h, t, want);
      case Resume(t) => ResumeMatches(m, h, t);
      case Report(k) => ReportMatches(m, h, k);
    } else {
      assert Run([]) == FRESH;
    }
  }

  /**
    Every pass of a read, on every run: the first reason if the body was abandoned, whatever is queued; else the front
    of the first payload queued, as much as the buffer holds; and with none queued the end, if it was marked, or a wait.
   */
  lemma PassIsExact(steps: seq<Step>, want: nat)
    ensures WellFormed(Run(steps).s.content)
    ensures var c, h := Run(steps).s.content, Told(steps); var out := Take(c, want);
      && (forall reason: Fault :: out == Fails(reason) <==> h.reason == Some(reason))
      && (out.Takes? <==> h.reason.None? && c.chunks != [])
      && (out.Finishes? <==> h.reason.None? && c.chunks == [] && h.ended)
      && (out.Waits? <==> h.reason.None? && c.chunks == [] && !h.ended)
      && (out.Takes? ==> out.octets <= Front(c) && |out.octets| == if want < |Front(c)| then want else |Front(c)|)
  {
    EveryReaderIsAccountedFor(steps);
    BodyIsFaithful(steps);
    hide Run, Told, Placed;
  }
}
