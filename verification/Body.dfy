/**
  One request's content, between the connection goroutine that puts DATA payloads in and the handler that
  reads them out. Each method is one critical section, or one notification: waiting on the condition variable
  is made explicit, parked holding the readers asleep in Read and woken those notified that have not run since.
 */
module RequestBody {
  import opened Octets
  import opened H2
  import opened DynamicTable

  /** A goroutine, and a trailer section. */
  type Tid = nat
  type Section = seq<Field>

  datatype Content = Content(chunks: seq<seq<byte>>, off: nat, ended: bool, err: Option<Fault>,
                             trailers: Option<Section>)

  const EMPTY := Content([], 0, false, None, None)

  /** The offset is inside the first chunk, and a chunk that has been read is gone. */
  predicate WellFormed(c: Content) {
    c.off == 0 || (c.chunks != [] && c.off < |c.chunks[0]|)
  }

  lemma {:induction false} ConcatSnoc(chunks: seq<seq<byte>>, chunk: seq<byte>)
    ensures Concat(chunks + [chunk]) == Concat(chunks) + chunk
  {
    if chunks == [] {
      assert [] + [chunk] == [chunk] && [chunk][1..] == [];
    } else {
      assert (chunks + [chunk])[1..] == chunks[1..] + [chunk];
      ConcatSnoc(chunks[1..], chunk);
      assert chunks[0] + (Concat(chunks[1..]) + chunk) == chunks[0] + Concat(chunks[1..]) + chunk;
    }
  }

  /** The octets that have arrived and have not been read. */
  function Left(c: Content): seq<byte>
    requires WellFormed(c)
  {
    if c.chunks == [] then [] else c.chunks[0][c.off..] + Concat(c.chunks[1..])
  }

  // ---------- What the connection goroutine does ----------

  datatype Act = Push(chunk: seq<byte>) | Finish(trailers: Option<Section>) | Abandon(reason: Fault)

  /** The first reason a body will never finish wins. */
  function Apply(c: Content, act: Act): Content {
    match act
    case Push(chunk) => c.(chunks := c.chunks + [chunk])
    case Finish(trailers) => c.(ended := true, trailers := trailers)
    case Abandon(reason) => if c.err.None? then c.(err := Some(reason)) else c
  }

  function ApplyAll(c: Content, acts: seq<Act>): Content
    decreases |acts|
  {
    if acts == [] then c else ApplyAll(Apply(c, acts[0]), acts[1..])
  }

  lemma ApplyKeepsWellFormed(c: Content, act: Act)
    requires WellFormed(c)
    ensures WellFormed(Apply(c, act))
    ensures Left(Apply(c, act)) == if act.Push? then Left(c) + act.chunk else Left(c)
  {
    if act.Push? {
      if c.chunks == [] {
        assert c.chunks + [act.chunk] == [act.chunk] && [act.chunk][1..] == [] && act.chunk[0..] == act.chunk;
        assert [] + act.chunk == act.chunk && act.chunk + [] == act.chunk;
      } else {
        ConcatSnoc(c.chunks[1..], act.chunk);
        assert (c.chunks + [act.chunk])[1..] == c.chunks[1..] + [act.chunk];
        var front, rest := c.chunks[0][c.off..], Concat(c.chunks[1..]);
        assert front + (rest + act.chunk) == front + rest + act.chunk;
      }
    }
  }

  // ---------- What a reader does ----------

  /** How one pass of take's loop ends. */
  datatype Taking = Waits | Fails(reason: Fault) | Finishes | Takes(octets: seq<byte>, more: bool)

  function Front(c: Content): seq<byte>
    requires WellFormed(c) && c.chunks != []
  {
    c.chunks[0][c.off..]
  }

  /** A failure comes before content, content before the end. One read takes from one payload at most. */
  function Take(c: Content, want: nat): Taking
    requires WellFormed(c)
  {
    if c.err.Some? then Fails(c.err.value)
    else if c.chunks == [] then (if c.ended then Finishes else Waits)
    else if want < |Front(c)| then Takes(Front(c)[..want], true)
    else Takes(Front(c), !c.ended || |c.chunks| > 1)
  }

  function AfterTake(c: Content, want: nat): (r: Content)
    requires WellFormed(c)
    ensures WellFormed(r) && r.ended == c.ended && r.err == c.err && r.trailers == c.trailers
  {
    if c.err.Some? || c.chunks == [] then c
    else if want < |Front(c)| then c.(off := c.off + want)
    else c.(chunks := c.chunks[1..], off := 0)
  }

  /**
    A read loses nothing and takes nothing twice: what it took and what it left are what there was. It is empty
    only for an empty payload. And more is false exactly when the body has ended and this read finishes its last
    payload.
   */
  lemma TakeIsFaithful(c: Content, want: nat)
    requires WellFormed(c) && want > 0
    ensures match Take(c, want)
            case Takes(octets, more) =>
              && Left(c) == octets + Left(AfterTake(c, want))
              && |octets| <= want
              && (octets == [] <==> c.chunks[0] == [])
              && (more <==> !(c.ended && |c.chunks| == 1 && |Front(c)| <= want))
              && (more <==> !c.ended || AfterTake(c, want).chunks != [])
            case _ => AfterTake(c, want) == c
  {
    if Take(c, want).Takes? {
      LeftIs(c);
      var rest := c.chunks[1..];
      if want < |Front(c)| {
        LeftIs(AfterTake(c, want));
        TakenFromFront(Front(c), Concat(rest), want);
        assert Front(AfterTake(c, want)) == Front(c)[want..];
      } else {
        LeftOfNext(rest, c);
      }
      hide Left, Concat;
    }
  }

  lemma LeftIs(c: Content)
    requires WellFormed(c) && c.chunks != []
    ensures Left(c) == Front(c) + Concat(c.chunks[1..])
  {
  }

  lemma TakenFromFront(front: seq<byte>, rest: seq<byte>, want: nat)
    requires want < |front|
    ensures front + rest == front[..want] + (front[want..] + rest)
  {
  }

  lemma LeftOfNext(chunks: seq<seq<byte>>, c: Content)
    ensures Left(c.(chunks := chunks, off := 0)) == Concat(chunks)
  {
    if chunks != [] {
      assert chunks[0][0..] == chunks[0];
    }
  }

  // ---------- The class ----------

  datatype State = State(content: Content, parked: map<Tid, nat>, woken: map<Tid, nat>)

  function Broadcast(s: State): State {
    s.(parked := map[], woken := s.woken + s.parked)
  }

  /** Signal reaches one sleeper, whichever the runtime picks. */
  function Wake(s: State, t: Tid): State
    requires t in s.parked
  {
    s.(parked := s.parked - {t}, woken := s.woken[t := s.parked[t]])
  }

  ghost predicate Signalled(s: State, after: State) {
    if s.parked == map[] then after == s else exists t | t in s.parked :: after == Wake(s, t)
  }

  function AfterPass(s: State, t: Tid, want: nat): State
    requires WellFormed(s.content)
  {
    if Take(s.content, want).Waits? then s.(parked := s.parked[t := want])
    else s.(content := AfterTake(s.content, want))
  }

  class Body {
    const id: uint32
    var chunks: seq<seq<byte>>
    var off: nat
    var ended: bool
    var err: Option<Fault>
    var trailers: Option<Section>
    var parked: map<Tid, nat>
    var woken: map<Tid, nat>

    function Value(): State
      reads this
    {
      State(Content(chunks, off, ended, err, trailers), parked, woken)
    }

    ghost predicate Valid()
      reads this
    {
      WellFormed(Value().content)
    }

    constructor (id: uint32)
      ensures Valid() && this.id == id && Value() == State(EMPTY, map[], map[])
    {
      this.id := id;
      chunks, off, ended, err, trailers := [], 0, false, None, None;
      parked, woken := map[], map[];
    }

    method Signal()
      modifies this`parked, this`woken
      ensures Signalled(old(Value()), Value())
    {
      if parked != map[] {
        assert exists t :: t in parked.Keys;
        var t :| t in parked;
        parked, woken := parked - {t}, woken[t := parked[t]];
        assert Value() == Wake(old(Value()), t);
      }
    }

    method WakeAll()
      modifies this`parked, this`woken
      ensures Value() == Broadcast(old(Value()))
    {
      parked, woken := map[], woken + parked;
    }

    method Add(chunk: seq<byte>)
      requires Valid()
      modifies this`chunks, this`parked, this`woken
      ensures Valid() && Value().content == Apply(old(Value().content), Push(chunk))
      ensures Signalled(old(Value()).(content := Value().content), Value())
    {
      ApplyKeepsWellFormed(Value().content, Push(chunk));
      chunks := chunks + [chunk];
      Signal();
    }

    method End(section: Option<Section>)
      requires Valid()
      modifies this`trailers, this`ended, this`parked, this`woken
      ensures Valid()
      ensures Value() == Broadcast(old(Value()).(content := Apply(old(Value().content), Finish(section))))
    {
      trailers := section;
      ended := true;
      WakeAll();
    }

    method Fail(reason: Fault)
      requires Valid()
      modifies this`err, this`parked, this`woken
      ensures Valid()
      ensures Value() == Broadcast(old(Value()).(content := Apply(old(Value().content), Abandon(reason))))
    {
      if err.None? {
        err := Some(reason);
      }
      WakeAll();
    }

    /** One pass of take's loop by goroutine t, from taking the mutex to releasing it. */
    method TakePass(t: Tid, want: nat) returns (out: Taking)
      requires Valid()
      modifies this`chunks, this`off, this`parked
      ensures Valid()
      ensures out == Take(old(Value().content), want)
      ensures Value() == AfterPass(old(Value()), t, want)
    {
      if err.Some? {
        return Fails(err.value);
      }
      if |chunks| == 0 {
        if ended {
          return Finishes;
        }
        parked := parked[t := want];
        return Waits;
      }
      var front := chunks[0][off..];
      var n := if want < |front| then want else |front|;
      off := off + n;
      if off == |chunks[0]| {
        chunks := chunks[1..];
        off := 0;
      }
      return Takes(front[..n], !ended || |chunks| > 0);
    }

    /** A reader that a notification has reached takes the mutex again and makes another pass. */
    method Resume(t: Tid) returns (out: Taking)
      requires Valid() && t in woken
      modifies this`chunks, this`off, this`parked, this`woken
      ensures Valid()
      ensures var s := old(Value()).(woken := old(woken) - {t});
        out == Take(s.content, old(woken[t])) && Value() == AfterPass(s, t, old(woken[t]))
    {
      var want := woken[t];
      woken := woken - {t};
      out := TakePass(t, want);
    }

    /** Read begins. For an empty buffer it returns at once, having looked at nothing. */
    method Read(t: Tid, want: nat) returns (out: Option<Taking>)
      requires Valid()
      modifies this`chunks, this`off, this`parked
      ensures Valid()
      ensures if want == 0 then out == None && Value() == old(Value())
              else out == Some(Take(old(Value().content), want)) && Value() == AfterPass(old(Value()), t, want)
    {
      if want == 0 {
        return None;
      }
      var taking := TakePass(t, want);
      return Some(taking);
    }
  }
}
