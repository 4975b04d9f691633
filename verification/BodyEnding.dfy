/**
  Whether some read of a body tells the stream table that no more content may come. What decides it is the queue that
  the goroutine marking the end finds: a read of the last payload tells so exactly if that payload is there and not
  empty.
 */
module BodyEnding {
  import opened Octets
  import opened H2
  import opened RequestBody
  import opened BodyRuns

  /** The last payload in the queue holds something. */
  ghost predicate EndsInContent(c: Content) {
    c.chunks != [] && c.chunks[|c.chunks| - 1] != []
  }

  /** The step marks the end of a body that had not ended. */
  ghost predicate MarksTheEnd(m: Monitor, step: Step) {
    step.Do? && step.act.Finish? && m.owed == Nothing && !m.s.content.ended
  }

  /** When the end was marked a payload was queued, and the last one was not empty. */
  ghost predicate EndedBehindContent(steps: seq<Step>) {
    steps != []
    && var before, step := steps[..|steps| - 1], steps[|steps| - 1];
       if MarksTheEnd(Run(before), step) then EndsInContent(Run(before).s.content) else EndedBehindContent(before)
  }

  // ---------- Who says so ----------

  /** Some read has reported that no more content may come, or is about to. */
  ghost predicate Told(m: Monitor) {
    m.reportedLast || exists k :: 0 <= k < |m.flights| && !m.flights[k].more
  }

  /** Before the end nobody says so. */
  ghost predicate Silent(m: Monitor) {
    !m.s.content.ended && !Told(m)
  }

  /** After an end behind content somebody says so exactly once that content is all taken. */
  ghost predicate Announced(m: Monitor) {
    && m.s.content.ended
    && (Told(m) <==> m.s.content.chunks == [])
    && (m.s.content.chunks != [] ==> EndsInContent(m.s.content))
  }

  /** After any other nobody does. */
  ghost predicate Unannounced(m: Monitor) {
    m.s.content.ended && !Told(m) && !EndsInContent(m.s.content)
  }

  // ---------- Reads ----------

  lemma TakenFlights(m: Monitor, f: Flight)
    ensures Told(m.(flights := m.flights + [f])) <==> Told(m) || !f.more
  {
    var all := m.flights + [f];
    if !f.more {
      assert !all[|m.flights|].more;
    }
    if k :| 0 <= k < |m.flights| && !m.flights[k].more {
      assert !all[k].more;
    }
  }

  lemma ToldBySame(m: Monitor, n: Monitor)
    requires n.flights == m.flights && n.reportedLast == m.reportedLast
    ensures Told(n) == Told(m)
  {
  }

  /**
    A read adds to who says so exactly if it takes the rest of the last payload of a body that ended, and that is
    not nothing.
   */
  lemma ReadTells(m: Monitor, s: State, t: Tid, want: nat)
    requires WellFormed(s.content) && want > 0
    ensures var c := s.content;
      Told(AfterRead(m, s, t, want)) <==>
      Told(m) || (c.err.None? && c.ended && |c.chunks| == 1 && c.chunks[0] != [] && |Front(c)| <= want)
  {
    var after := AfterRead(m, s, t, want);
    TakeIsFaithful(s.content, want);
    hide Left, AfterTake, Told;
    match Take(s.content, want)
    case Takes(octets, more) =>
      var f := Flight(t, |octets|, more);
      TakenFlights(m, f);
      ToldBySame(if octets == [] then m else m.(flights := m.flights + [f]), after);
    case _ => ToldBySame(m, after);
  }

  /** A read keeps the last payload of the queue as long as it leaves one. */
  lemma ReadKeepsTheLast(c: Content, want: nat)
    requires WellFormed(c)
    ensures AfterTake(c, want).chunks != [] ==> EndsInContent(AfterTake(c, want)) == EndsInContent(c)
    ensures AfterTake(c, want).chunks == [] ==>
              c.chunks == [] || (c.err.None? && |c.chunks| == 1 && |Front(c)| <= want)
    ensures c.err.None? && |c.chunks| == 1 && |Front(c)| <= want ==> AfterTake(c, want).chunks == []
    ensures c.chunks == [] ==> AfterTake(c, want).chunks == []
  {
  }

  lemma AfterReadContent(m: Monitor, s: State, t: Tid, want: nat)
    requires WellFormed(s.content)
    ensures AfterRead(m, s, t, want).s.content == AfterTake(s.content, want)
  {
  }

  lemma ReadKeeps(m: Monitor, s: State, t: Tid, want: nat)
    requires WellFormed(s.content) && s.content == m.s.content && want > 0
    ensures Silent(m) ==> Silent(AfterRead(m, s, t, want))
    ensures Announced(m) ==> Announced(AfterRead(m, s, t, want))
    ensures Unannounced(m) ==> Unannounced(AfterRead(m, s, t, want))
  {
    ReadTells(m, s, t, want);
    AfterReadContent(m, s, t, want);
    ReadKeepsTheLast(s.content, want);
    hide Told, AfterRead, AfterTake, Front, WellFormed;
  }

  // ---------- Every step ----------

  lemma ReportKeeps(m: Monitor, k: nat)
    requires k < |m.flights|
    ensures Told(Exec(m, Report(k))) == Told(m)
  {
    var f, after := m.flights, Exec(m, Report(k));
    assert after.flights == f[..k] + f[k + 1..];
    if j :| 0 <= j < |f| && !f[j].more {
      if j < k {
        assert after.flights[j] == f[j];
      } else if j > k {
        assert after.flights[j - 1] == f[j];
      }
    }
    if j :| 0 <= j < |after.flights| && !after.flights[j].more {
      assert after.flights[j] == if j < k then f[j] else f[j + 1];
    }
  }

  lemma ActKeeps(m: Monitor, act: Act)
    requires !m.s.content.ended || !act.Push?
    ensures var after := AfterAct(m, act);
      && (Silent(m) ==> if !act.Finish? then Silent(after)
                        else if EndsInContent(m.s.content) then Announced(after) else Unannounced(after))
      && (Announced(m) ==> Announced(after))
      && (Unannounced(m) ==> Unannounced(after))
  {
    ToldBySame(m, AfterAct(m, act));
    hide Told;
  }

  lemma QuietKeeps(m: Monitor, n: Monitor)
    requires n.flights == m.flights && n.reportedLast == m.reportedLast && n.s.content == m.s.content
    ensures Silent(n) == Silent(m) && Announced(n) == Announced(m) && Unannounced(n) == Unannounced(m)
  {
    ToldBySame(m, n);
    hide Told, EndsInContent;
  }

  lemma NotifyIsQuiet(m: Monitor, pick: Tid)
    ensures var n := AfterNotify(m, pick);
      n.flights == m.flights && n.reportedLast == m.reportedLast && n.s.content == m.s.content
  {
  }

  lemma EnterKeeps(m: Monitor, t: Tid, want: nat)
    ensures var after := Exec(m, Enter(t, want));
      (Silent(m) ==> Silent(after)) && (Announced(m) ==> Announced(after)) && (Unannounced(m) ==> Unannounced(after))
  {
    hide AfterRead, Silent, Announced, Unannounced, WellFormed, Running;
    if want > 0 && WellFormed(m.s.content) {
      ReadKeeps(m, m.s, t, want);
    }
  }

  lemma ResumeKeeps(m: Monitor, t: Tid)
    requires Asking(m)
    ensures var after := Exec(m, Resume(t));
      (Silent(m) ==> Silent(after)) && (Announced(m) ==> Announced(after)) && (Unannounced(m) ==> Unannounced(after))
  {
    hide AfterRead, Silent, Announced, Unannounced, WellFormed;
    if t in m.s.woken && WellFormed(m.s.content) {
      ReadKeeps(m, m.s.(woken := m.s.woken - {t}), t, m.s.woken[t]);
    }
  }

  lemma OtherStepKeeps(m: Monitor, step: Step)
    requires Asking(m) && !step.Do?
    ensures var after := Exec(m, step);
      (Silent(m) ==> Silent(after)) && (Announced(m) ==> Announced(after)) && (Unannounced(m) ==> Unannounced(after))
  {
    match step
    case Notify(pick) =>
      NotifyIsQuiet(m, pick);
      hide AfterNotify, Silent, Announced, Unannounced;
      QuietKeeps(m, AfterNotify(m, pick));
    case Enter(t, want) => EnterKeeps(m, t, want);
    case Resume(t) => ResumeKeeps(m, t);
    case Report(k) =>
      if k < |m.flights| {
        ReportKeeps(m, k);
        hide Told;
      }
  }

  // ---------- Every run ----------

  /** Where a run stands: before the end, after one behind content, or after one that was not. */
  ghost predicate Stands(m: Monitor, behind: bool) {
    && (!m.s.content.ended ==> Silent(m) && !behind)
    && (m.s.content.ended ==> if behind then Announced(m) else Unannounced(m))
  }

  lemma DoStands(m: Monitor, act: Act, behind: bool)
    requires Stands(m, behind) && (act.Push? ==> !m.s.content.ended)
    ensures Stands(Exec(m, Do(act)), if MarksTheEnd(m, Do(act)) then EndsInContent(m.s.content) else behind)
  {
    ActKeeps(m, act);
    hide Silent, Announced, Unannounced, EndsInContent;
    assert Silent(m) ==> !m.s.content.ended by { EndedIs(m); }
    EndedIs(AfterAct(m, act));
  }

  lemma EndedIs(m: Monitor)
    ensures Silent(m) ==> !m.s.content.ended
    ensures Announced(m) || Unannounced(m) ==> m.s.content.ended
  {
  }

  lemma OtherStands(m: Monitor, step: Step, behind: bool)
    requires Stands(m, behind) && Asking(m) && !step.Do?
    ensures Stands(Exec(m, step), behind)
  {
    OtherStepKeeps(m, step);
    EndedIs(Exec(m, step));
    hide Silent, Announced, Unannounced, Exec;
  }

  lemma {:induction false} AlwaysStands(steps: seq<Step>)
    requires NothingAfterEnd(steps)
    ensures Stands(Run(steps), EndedBehindContent(steps))
  {
    if steps != [] {
      var k := |steps| - 1;
      var before, step := steps[..k], steps[k];
      NothingAfterEndBefore(steps, k);
      AlwaysStands(before);
      BodyIsFaithful(before);
      RunLast(steps);
      hide Run, Exec, Stands, NothingAfterEnd, Faithful, EndsInContent;
      if step.Do? {
        DoStands(Run(before), step.act, EndedBehindContent(before));
      } else {
        OtherStands(Run(before), step, EndedBehindContent(before));
      }
    }
  }

  /**
    The exact condition. Of a body that some read has read to its end, with no read still to report: some read has
    reported that no more may come, if and only if, when the end was marked, a payload was queued and the last one was
    not empty. Otherwise everything before had been taken already, or the content ended in an empty payload.
   */
  lemma AnnouncedExactly(steps: seq<Step>)
    requires NothingAfterEnd(steps) && Run(steps).sawEnd && Run(steps).flights == []
    ensures Run(steps).reportedLast <==> EndedBehindContent(steps)
  {
    AlwaysStands(steps);
    AlwaysHonest(steps);
    hide Run, EndedBehindContent, NothingAfterEnd;
  }
}
