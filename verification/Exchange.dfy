/**
  The request side of one connection's streams: which requests are still arriving, and what each frame does to
  the body of the request it belongs to. Everything here runs on the connection's reader goroutine.
 */
module Exchange {
  import opened Octets
  import opened H2
  import opened RequestBody

  /** A request that declared no length. */
  const NO_CONTENT_LENGTH := -1

  // ---------- The declared length ----------

  const MAX_CONTENT_LENGTH := 0x7FFF_FFFF_FFFF_FFFF

  predicate IsDigit(c: byte) {
    48 <= c <= 57
  }

  ghost predicate AllDigits(s: seq<byte>) {
    forall i | 0 <= i < |s| :: IsDigit(s[i])
  }

  function Decimal(s: seq<byte>): nat
    requires AllDigits(s)
  {
    if s == [] then 0 else 10 * Decimal(s[..|s| - 1]) + (s[|s| - 1] - 48)
  }

  /** A number as it is written in decimal, without leading zeros. */
  function Printed(n: nat): seq<byte> {
    if n < 10 then [48 + n] else Printed(n / 10) + [48 + n % 10]
  }

  /** Every number is the value of what it is written as, and leading zeros change no value. */
  lemma {:induction false} DecimalOfPrinted(n: nat)
    ensures AllDigits(Printed(n)) && Decimal(Printed(n)) == n
  {
    if n >= 10 {
      DecimalOfPrinted(n / 10);
      var s := Printed(n);
      assert s[..|s| - 1] == Printed(n / 10);
    }
  }

  lemma {:induction false} LeadingZero(s: seq<byte>)
    requires AllDigits(s)
    ensures AllDigits([48] + s) && Decimal([48] + s) == Decimal(s)
  {
    if s == [] {
      assert [48] + s == [48] && [48][..0] == [];
    } else {
      LeadingZero(s[..|s| - 1]);
      assert ([48] + s)[..|s|] == [48] + s[..|s| - 1];
    }
  }

  /** One or more digits and nothing else, and a value that fits 63 bits. */
  method ParseContentLength(s: seq<byte>) returns (r: Option<nat>)
    ensures r.Some? <==> s != [] && AllDigits(s) && Decimal(s) <= MAX_CONTENT_LENGTH
    ensures r.Some? ==> r.value == Decimal(s)
  {
    if s == [] {
      return None;
    }
    for i := 0 to |s|
      invariant AllDigits(s[..i])
    {
      if !IsDigit(s[i]) {
        return None;
      }
      assert s[..i + 1] == s[..i] + [s[i]];
    }
    assert s[..|s|] == s;
    var n := 0;
    for i := 0 to |s|
      invariant n == Decimal(s[..i])
    {
      assert s[..i + 1][..i] == s[..i];
      n := 10 * n + (s[i] - 48);
    }
    return if n > MAX_CONTENT_LENGTH then None else Some(n);
  }

  /**
    The length a request declares by its content-length fields: none when there are none, a refusal when there is
    more than one, or one that is no length, or one other than zero on a request that ends with its header section.
   */
  method SetContentLength(id: uint32, values: seq<seq<byte>>, endStream: bool) returns (r: Result<int>)
    ensures r.Err? ==> r == Err(StreamError(id, PROTOCOL_ERROR))
    ensures r.Ok? ==> Declarable(r.value, endStream) && r.value <= MAX_CONTENT_LENGTH
    ensures r == Ok(NO_CONTENT_LENGTH) <==> values == []
    ensures r.Ok? && values != [] ==>
              |values| == 1 && values[0] != [] && AllDigits(values[0]) && r.value == Decimal(values[0])
    ensures r.Err? && |values| == 1 && values[0] != [] && AllDigits(values[0]) ==>
              Decimal(values[0]) > MAX_CONTENT_LENGTH || (endStream && Decimal(values[0]) != 0)
  {
    if |values| == 0 {
      return Ok(NO_CONTENT_LENGTH);
    }
    if |values| > 1 {
      return Err(Malformed(id));
    }
    var n := ParseContentLength(values[0]);
    if n.None? || (endStream && n.value != 0) {
      return Err(Malformed(id));
    }
    return Ok(n.value);
  }

  /** What a header section that was accepted can have declared. */
  predicate Declarable(declared: int, endStream: bool) {
    declared >= NO_CONTENT_LENGTH && (endStream ==> declared <= 0)
  }

  // ---------- What a frame does ----------

  function Malformed(id: uint32): Fault {
    StreamError(id, PROTOCOL_ERROR)
  }

  /** The two layers disagree about what is open. */
  const NOT_ARRIVING := ConnError(INTERNAL_ERROR)

  /** What a frame does to a request that is arriving: to its body, to its count, and whether it still arrives. */
  datatype Plan = Plan(acts: seq<Act>, received: int, stays: bool, fault: Option<Fault>)

  predicate Exceeds(declared: int, received: int) {
    declared != NO_CONTENT_LENGTH && received > declared
  }

  predicate Differs(declared: int, received: int) {
    declared != NO_CONTENT_LENGTH && received != declared
  }

  /** The octets of a frame that goes past the declared length are counted and not handed on. */
  function DataPlan(id: uint32, declared: int, received: int, payload: seq<byte>, endStream: bool): Plan {
    var now := received + |payload|;
    var fault := Some(Malformed(id));
    if Exceeds(declared, now) then Plan([Abandon(Malformed(id))], now, false, fault)
    else if !endStream then Plan([Push(payload)], now, true, None)
    else if Differs(declared, now) then Plan([Push(payload), Abandon(Malformed(id))], now, false, fault)
    else Plan([Push(payload), Finish(None)], now, false, None)
  }

  /** invalid is the verdict of the trailer rules. */
  function TrailersPlan(id: uint32, declared: int, received: int, section: Section, invalid: Option<Fault>): Plan {
    if invalid.Some? then Plan([Abandon(invalid.value)], received, false, invalid)
    else if Differs(declared, received) then Plan([Abandon(Malformed(id))], received, false, Some(Malformed(id)))
    else Plan([Finish(Some(section))], received, false, None)
  }

  function CanceledPlan(id: uint32, received: int, code: uint32): Plan {
    Plan([Abandon(StreamError(id, code))], received, false, None)
  }

  // ---------- The classes ----------

  class Inbound {
    const body: Body
    const declared: int
    var received: int

    constructor (body: Body, declared: int)
      ensures this.body == body && this.declared == declared && received == 0
    {
      this.body, this.declared, received := body, declared, 0;
    }
  }

  class Requests {
    var arriving: map<uint32, Inbound>

    ghost var bodies: set<Body>

    ghost predicate Valid()
      reads this, bodies
    {
      forall id | id in arriving :: arriving[id].body in bodies && arriving[id].body.id == id
          && arriving[id].body.Valid()
    }

    constructor ()
      ensures Valid() && arriving == map[] && bodies == {}
    {
      arriving, bodies := map[], {};
    }

    /** parsed is what the request rules made of the header section: a declared length or a refusal. */
    method Headers(id: uint32, parsed: Result<int>, endStream: bool) returns (r: Result<Body>)
      requires Valid()
      modifies this
      ensures Valid() && old(bodies) <= bodies && fresh(bodies - old(bodies))
      ensures parsed.Err? ==> r == Err(parsed.fault) && arriving == old(arriving)
      ensures parsed.Ok? ==> r.Ok? && fresh(r.value) && r.value.Valid() && r.value.id == id
      ensures parsed.Ok? && endStream ==>
                r.value.Value() == State(Apply(EMPTY, Finish(None)), map[], map[]) && arriving == old(arriving)
      ensures parsed.Ok? && !endStream ==>
                && r.value.Value() == State(EMPTY, map[], map[])
                && id in arriving && arriving == old(arriving)[id := arriving[id]] && fresh(arriving[id])
                && arriving[id].body == r.value && arriving[id].declared == parsed.value && arriving[id].received == 0
    {
      if parsed.Err? {
        return Err(parsed.fault);
      }
      var body := new Body(id);
      if endStream {
        body.End(None);
        assert body.parked == map[] && body.woken == map[];
      } else {
        var inbound := new Inbound(body, parsed.value);
        arriving := arriving[id := inbound];
        bodies := bodies + {body};
      }
      return Ok(body);
    }

    /** The request is malformed, or its trailers are: whoever reads its body is told, and it arrives no more. */
    method Refuse(id: uint32, reason: Fault) returns (fault: Option<Fault>)
      requires Valid() && id in arriving
      modifies this`arriving, arriving[id].body
      ensures Valid() && fault == Some(reason) && arriving == old(arriving) - {id}
      ensures old(arriving[id]).body.Value() == Settled(old(arriving[id].body.Value()), Abandon(reason))
    {
      arriving[id].body.Fail(reason);
      arriving := arriving - {id};
      return Some(reason);
    }

    method Complete(id: uint32, section: Option<Section>)
      requires Valid() && id in arriving
      modifies this`arriving, arriving[id].body
      ensures Valid() && arriving == old(arriving) - {id}
      ensures old(arriving[id]).body.Value() == Settled(old(arriving[id].body.Value()), Finish(section))
    {
      arriving[id].body.End(section);
      arriving := arriving - {id};
    }

    method Data(id: uint32, payload: seq<byte>, endStream: bool) returns (fault: Option<Fault>)
      requires Valid()
      modifies this`arriving, if id in arriving then {arriving[id], arriving[id].body} else {}
      ensures Valid()
      ensures id !in old(arriving) ==> fault == Some(NOT_ARRIVING) && arriving == old(arriving)
      ensures id in old(arriving) ==>
                var inbound := old(arriving[id]);
                var plan := DataPlan(id, inbound.declared, old(inbound.received), payload, endStream);
                Follows(plan, id, old(arriving), arriving, inbound, old(inbound.body.Value()), fault)
      ensures id in old(arriving) && old(arriving[id].body.err).None? ==> fault == old(arriving[id]).body.err
    {
      if id !in arriving {
        return Some(NOT_ARRIVING);
      }
      var inbound := arriving[id];
      ghost var was := inbound.body.Value();
      One(was.content, Abandon(Malformed(id)));
      One(was.content, Push(payload));
      Two(was.content, Push(payload), Abandon(Malformed(id)));
      Two(was.content, Push(payload), Finish(None));
      hide Apply, ApplyAll, Signalled, Broadcast, WellFormed;
      inbound.received := inbound.received + |payload|;
      if Exceeds(inbound.declared, inbound.received) {
        fault := Refuse(id, Malformed(id));
        return;
      }
      inbound.body.Add(payload);
      SignalThenSettle(was, Push(payload), inbound.body.Value(), Abandon(Malformed(id)));
      SignalThenSettle(was, Push(payload), inbound.body.Value(), Finish(None));
      if endStream {
        if Differs(inbound.declared, inbound.received) {
          fault := Refuse(id, Malformed(id));
          return;
        }
        Complete(id, None);
      }
      return None;
    }

    method Trailers(id: uint32, section: Section, invalid: Option<Fault>) returns (fault: Option<Fault>)
      requires Valid()
      modifies this`arriving, if id in arriving then {arriving[id], arriving[id].body} else {}
      ensures Valid()
      ensures id !in old(arriving) ==> fault == Some(NOT_ARRIVING) && arriving == old(arriving)
      ensures id in old(arriving) ==>
                var inbound := old(arriving[id]);
                var plan := TrailersPlan(id, inbound.declared, old(inbound.received), section, invalid);
                Follows(plan, id, old(arriving), arriving, inbound, old(inbound.body.Value()), fault)
      ensures id in old(arriving) && old(arriving[id].body.err).None? ==> fault == old(arriving[id]).body.err
    {
      if id !in arriving {
        return Some(NOT_ARRIVING);
      }
      var inbound := arriving[id];
      if invalid.Some? {
        fault := Refuse(id, invalid.value);
        return;
      }
      if Differs(inbound.declared, inbound.received) {
        fault := Refuse(id, Malformed(id));
        return;
      }
      Complete(id, Some(section));
      return None;
    }

    method Canceled(id: uint32, code: uint32)
      requires Valid()
      modifies this`arriving, if id in arriving then {arriving[id].body} else {}
      ensures Valid()
      ensures id !in old(arriving) ==> arriving == old(arriving)
      ensures id in old(arriving) ==>
                var inbound := old(arriving[id]);
                var plan := CanceledPlan(id, old(inbound.received), code);
                Follows(plan, id, old(arriving), arriving, inbound, old(inbound.body.Value()), None)
    {
      if id !in arriving {
        return;
      }
      var body := arriving[id].body;
      body.Fail(StreamError(id, code));
      arriving := arriving - {id};
    }

    /** Every request that was arriving is abandoned, and nobody is left asleep on any of them. */
    method Close(reason: Fault)
      requires Valid()
      modifies this`arriving, bodies
      ensures Valid() && arriving == map[]
      ensures forall id | id in old(arriving) ::
                old(arriving[id]).body.Value() == Settled(old(arriving[id].body.Value()), Abandon(reason))
    {
      ghost var all, left := arriving, arriving.Keys;
      ghost var was := map id | id in all :: all[id].body.Value();
      hide Settled;
      assert Closing(all, was, left, reason);
      hide Closing;
      while arriving != map[]
        invariant Closing(all, was, left, reason) && arriving.Keys == left
        decreases left
      {
        assert exists id :: id in arriving.Keys;
        var id :| id in arriving;
        ClosingAt(all, was, left, reason, id);
        CloseOne(id, reason, all, was, left);
        left := left - {id};
      }
      assert left == {};
      ClosingIsDone(all, was, reason);
    }

    /**
      Of all the requests that were arriving those in left still are, as they were, and the others have been
      abandoned.
     */
    ghost predicate Closing(all: map<uint32, Inbound>, was: map<uint32, State>, left: set<uint32>, reason: Fault)
      reads this, bodies
    {
      && Valid() && arriving.Keys == left <= all.Keys == was.Keys
      && (forall id | id in left :: arriving[id] == all[id])
      && (forall id | id in all :: all[id].body in bodies && all[id].body.id == id)
      && (forall id | id in all :: IsClosed(all[id].body, was[id], if id in left then None else Some(Abandon(reason))))
    }

    lemma ClosingAt(all: map<uint32, Inbound>, was: map<uint32, State>, left: set<uint32>, reason: Fault, id: uint32)
      requires Closing(all, was, left, reason) && id in left
      ensures id in all && arriving[id].body in bodies
    {
    }

    lemma ClosingIsDone(all: map<uint32, Inbound>, was: map<uint32, State>, reason: Fault)
      ensures Closing(all, was, {}, reason) ==>
                && Valid() && arriving == map[]
                && forall id | id in all :: id in was && all[id].body.Value() == Settled(was[id], Abandon(reason))
    {
      hide Settled;
    }

    method CloseOne(id: uint32, reason: Fault, ghost all: map<uint32, Inbound>, ghost was: map<uint32, State>,
                    ghost left: set<uint32>)
      requires Closing(all, was, left, reason) && id in left
      modifies this`arriving, arriving[id].body
      ensures Closing(all, was, left - {id}, reason) && arriving.Keys == left - {id}
    {
      hide WellFormed, IsClosed;
      assert IsClosed(all[id].body, was[id], None);
      AbandonBody(arriving[id].body, was[id], reason);
      arriving := arriving - {id};
    }

    static method AbandonBody(body: Body, ghost was: State, reason: Fault)
      requires body.Valid() && IsClosed(body, was, None)
      modifies body
      ensures body.Valid() && IsClosed(body, was, Some(Abandon(reason)))
    {
      body.Fail(reason);
    }
  }

  /** A body as it was, or settled by an act. */
  ghost predicate IsClosed(body: Body, was: State, act: Option<Act>)
    reads body
  {
    body.Value() == match act case None => was case Some(a) => Settled(was, a)
  }

  /** The last act on a body: everybody asleep on it is woken. */
  function Settled(s: State, act: Act): State {
    Broadcast(s.(content := Apply(s.content, act)))
  }

  lemma MoveThenMerge(woken: map<Tid, nat>, parked: map<Tid, nat>, t: Tid)
    requires t in parked
    ensures woken[t := parked[t]] + (parked - {t}) == woken + parked
  {
    var left, right := woken[t := parked[t]] + (parked - {t}), woken + parked;
    assert left.Keys == right.Keys;
    assert forall k | k in left :: left[k] == right[k];
  }

  /** Whom the signal before it reached makes no difference to what the broadcast leaves. */
  lemma SignalThenSettle(was: State, first: Act, mid: State, last: Act)
    requires Signalled(was.(content := Apply(was.content, first)), mid)
    ensures Settled(mid, last) == Broadcast(was.(content := Apply(Apply(was.content, first), last)))
  {
    hide Apply;
    if was.parked != map[] {
      var t :| t in was.parked && mid == Wake(was.(content := Apply(was.content, first)), t);
      MoveThenMerge(was.woken, was.parked, t);
    }
  }

  lemma One(c: Content, act: Act)
    ensures ApplyAll(c, [act]) == Apply(c, act)
  {
    assert [act][1..] == [];
    assert ApplyAll(Apply(c, act), []) == Apply(c, act);
  }

  lemma Two(c: Content, first: Act, second: Act)
    ensures ApplyAll(c, [first, second]) == Apply(Apply(c, first), second)
  {
    assert [first, second][1..] == [second];
    One(Apply(c, first), second);
  }

  /**
    A frame for an arriving request did what its plan says. Of a request that stays one sleeper is notified, of one
    that leaves all are.
   */
  ghost predicate Follows(plan: Plan, id: uint32, before: map<uint32, Inbound>, after: map<uint32, Inbound>,
                          inbound: Inbound, was: State, fault: Option<Fault>)
    reads inbound, inbound.body
  {
    && fault == plan.fault
    && after == (if plan.stays then before else before - {id})
    && inbound.received == plan.received
    && var done := was.(content := ApplyAll(was.content, plan.acts));
       if plan.stays then Signalled(done, inbound.body.Value()) else inbound.body.Value() == Broadcast(done)
  }
}
