/**
  The send half of one connection's flow control. Stream goroutines spend credit, the reader goroutine
  grants it, and everything sits behind one mutex and one condition variable.

  Each method below is one critical section. Waiting on the condition variable is made explicit: parked
  holds the writers asleep in Reserve, woken those that a broadcast has reached and that have not run since.
 */
module FlowSender {
  import opened Octets
  import opened H2
  import opened FlowWindow

  /** A goroutine, and the reason a connection is over. */
  type Tid = nat
  type Reason = nat

  datatype Request = Request(id: uint32, want: int)

  datatype State = State(
    conn: Win,
    stream: map<uint32, Win>,
    initial: uint32,
    err: Option<Reason>,
    parked: map<Tid, Request>,
    woken: map<Tid, Request>)

  /** How one pass of Reserve's loop ends. */
  datatype Outcome = Took(n: int) | StreamGone | Closed(reason: Reason) | Parks

  function Min(a: int, b: int): int {
    if a < b then a else b
  }

  // ---------- The value each critical section leaves ----------

  ghost function Init(): State {
    State(Win(0, INITIAL_WINDOW_SIZE, INITIAL_WINDOW_SIZE), map[], INITIAL_WINDOW_SIZE, None, map[], map[])
  }

  ghost function Broadcast(s: State): State {
    s.(parked := map[], woken := s.woken + s.parked)
  }

  ghost predicate OpenPanics(s: State, id: uint32) {
    id in s.stream || id == 0 || s.initial > MAX_WINDOW_SIZE
  }

  ghost function AfterOpen(s: State, id: uint32): State {
    if OpenPanics(s, id) then s else s.(stream := s.stream[id := Win(id, s.initial, s.initial)])
  }

  ghost function AfterRetire(s: State, id: uint32): State {
    if id in s.stream then Broadcast(s.(stream := s.stream - {id})) else s
  }

  /** The window a WINDOW_UPDATE credits, unless the connection is over or the stream is not open. */
  ghost predicate Credits(s: State, id: uint32) {
    s.err.None? && (id == 0 || id in s.stream)
  }

  ghost function WindowOf(s: State, id: uint32): Win
    requires id == 0 || id in s.stream
  {
    if id == 0 then s.conn else s.stream[id]
  }

  ghost function WithCredit(s: State, id: uint32, n: int): State
    requires id == 0 || id in s.stream
  {
    var w := WindowOf(s, id).(n := WindowOf(s, id).n + n);
    if id == 0 then s.(conn := w) else s.(stream := s.stream[id := w])
  }

  /** Stream zero is the connection. */
  ghost function AfterCredit(s: State, id: uint32, n: uint32): State {
    if Credits(s, id) && WindowOf(s, id).n + n <= MAX_WINDOW_SIZE then Broadcast(WithCredit(s, id, n)) else s
  }

  ghost predicate Overflows(w: Win, size: uint32) {
    w.n + size - w.initial > MAX_WINDOW_SIZE
  }

  ghost function Overflowing(s: State, size: uint32): set<uint32> {
    set id | id in s.stream && Overflows(s.stream[id], size)
  }

  function Resized(w: Win, size: uint32): Win {
    w.(initial := size, n := w.n + size - w.initial)
  }

  /** Every open stream resized, or, when some would overflow, only those below the least such stream. */
  ghost function AfterSettings(s: State, size: uint32): State {
    if s.err.Some? then s
    else if Overflowing(s, size) == {} then
      Broadcast(s.(stream := map id | id in s.stream :: Resized(s.stream[id], size), initial := size))
    else
      var lowest := Least(Overflowing(s, size));
      s.(stream := map id | id in s.stream :: if id < lowest then Resized(s.stream[id], size) else s.stream[id])
  }

  ghost function AfterClose(s: State, reason: Reason): State {
    if s.err.Some? then s else Broadcast(s.(err := Some(reason)))
  }

  /** The credit both windows and the request admit. */
  ghost function Admits(s: State, r: Request): int
    requires r.id in s.stream
  {
    Min(r.want, Min(s.conn.n, s.stream[r.id].n))
  }

  ghost function PassOutcome(s: State, r: Request): Outcome {
    if s.err.Some? then Closed(s.err.value)
    else if r.id !in s.stream then StreamGone
    else if Admits(s, r) > 0 then Took(Admits(s, r))
    else Parks
  }

  ghost function Debited(s: State, id: uint32, n: int): State
    requires id in s.stream
  {
    s.(conn := s.conn.(n := s.conn.n - n), stream := s.stream[id := s.stream[id].(n := s.stream[id].n - n)])
  }

  /** One pass of Reserve by goroutine t: both windows debited at once, or neither. */
  ghost function AfterPass(s: State, t: Tid, r: Request): State {
    match PassOutcome(s, r)
    case Took(n) => Debited(s, r.id, n)
    case Parks => s.(parked := s.parked[t := r])
    case _ => s
  }

  // ---------- Identifiers in order ----------

  predicate IsLeast(m: uint32, ids: set<uint32>) {
    m in ids && forall id | id in ids :: m <= id
  }

  lemma {:induction false} LeastExists(ids: set<uint32>)
    requires ids != {}
    ensures exists m :: IsLeast(m, ids)
  {
    var x :| x in ids;
    var rest := ids - {x};
    assert ids == rest + {x};
    if rest == {} {
      assert IsLeast(x, ids);
    } else {
      LeastExists(rest);
      var m :| IsLeast(m, rest);
      assert IsLeast(if x < m then x else m, ids);
    }
  }

  ghost function Least(ids: set<uint32>): (m: uint32)
    requires ids != {}
    ensures IsLeast(m, ids)
  {
    LeastExists(ids);
    var m :| IsLeast(m, ids);
    m
  }

  ghost predicate Increasing(ids: seq<uint32>) {
    forall i, j | 0 <= i < j < |ids| :: ids[i] < ids[j]
  }

  /** The keys of the stream map in increasing order. */
  method SortedIds(ids: set<uint32>) returns (sorted: seq<uint32>)
    ensures Increasing(sorted)
    ensures forall id :: id in ids <==> id in sorted
  {
    sorted := [];
    var left := ids;
    while left != {}
      invariant Increasing(sorted)
      invariant left <= ids
      invariant forall id :: id in ids <==> id in sorted || id in left
      invariant forall i, id | 0 <= i < |sorted| && id in left :: sorted[i] < id
      decreases |left|
    {
      LeastExists(left);
      var m :| m in left && IsLeast(m, left);
      sorted := sorted + [m];
      left := left - {m};
    }
  }

  // ---------- The class ----------

  class Sender {
    var conn: Window
    var stream: map<uint32, Window>
    var initial: uint32
    var err: Option<Reason>
    var parked: map<Tid, Request>
    var woken: map<Tid, Request>

    /** A window is found under its own identifier, so no two entries share one, and none is above the maximum. */
    ghost predicate Valid()
      reads this, Windows()
    {
      && conn.streamId == 0 && conn.n <= MAX_WINDOW_SIZE
      && forall id | id in stream :: stream[id].streamId == id && id != 0 && stream[id].n <= MAX_WINDOW_SIZE
    }

    ghost function Windows(): set<Window>
      reads this
    {
      stream.Values + {conn}
    }

    ghost function Abstract(): State
      reads this, Windows()
    {
      State(conn.Value(), map id | id in stream :: stream[id].Value(), initial, err, parked, woken)
    }

    constructor ()
      ensures Valid() && fresh(Windows())
      ensures Abstract() == Init()
    {
      conn := new Window.Conn();
      stream, initial, err, parked, woken := map[], INITIAL_WINDOW_SIZE, None, map[], map[];
    }

    /** The condition variable's Broadcast. */
    method WakeAll()
      requires Valid()
      modifies this`parked, this`woken
      ensures Valid()
      ensures Abstract() == Broadcast(old(Abstract()))
    {
      woken := woken + parked;
      parked := map[];
    }

    method Open(id: uint32) returns (panicked: bool)
      requires Valid()
      modifies this`stream
      ensures Valid() && fresh(Windows() - old(Windows()))
      ensures panicked == OpenPanics(old(Abstract()), id)
      ensures panicked <==> id in old(stream) || id == 0 || initial > MAX_WINDOW_SIZE
      ensures Abstract() == AfterOpen(old(Abstract()), id)
      ensures !panicked ==> id in stream && stream[id].Value() == Win(id, initial, initial)
    {
      if id in stream {
        return true;
      }
      if id == 0 || initial > MAX_WINDOW_SIZE {
        return true;
      }
      ghost var before := Abstract();
      var w := new Window.Stream(id, initial);
      hide InRange;
      stream := stream[id := w];
      assert forall i | i in before.stream :: stream[i].Value() == before.stream[i];
      assert Abstract().stream == before.stream[id := Win(id, initial, initial)];
      return false;
    }

    method Retire(id: uint32)
      requires Valid()
      modifies this`stream, this`parked, this`woken
      ensures Valid() && Windows() <= old(Windows())
      ensures Abstract() == AfterRetire(old(Abstract()), id)
      ensures stream == old(stream) - {id}
    {
      if id !in stream {
        return;
      }
      stream := stream - {id};
      WakeAll();
    }

    method CreditConn(n: uint32) returns (fault: Option<Fault>)
      requires Valid()
      modifies this`parked, this`woken, conn
      ensures Valid() && Windows() == old(Windows())
      ensures Abstract() == AfterCredit(old(Abstract()), 0, n)
      ensures fault == if old(err.None? && conn.n + n > MAX_WINDOW_SIZE)
                       then Some(ConnError(FLOW_CONTROL_ERROR)) else None
    {
      if err.Some? {
        return None;
      }
      fault := conn.Increase(n);
      if fault.Some? {
        return fault;
      }
      WakeAll();
    }

    /** Stream zero is never open, so credit for it is ignored like credit for any stream that is not. */
    method CreditStream(id: uint32, n: uint32) returns (fault: Option<Fault>)
      requires Valid()
      modifies this`parked, this`woken, stream.Values
      ensures Valid() && Windows() == old(Windows())
      ensures id == 0 ==> Abstract() == old(Abstract()) && fault == None
      ensures id != 0 ==> Abstract() == AfterCredit(old(Abstract()), id, n)
      ensures id != 0 ==> fault == if old(Credits(Abstract(), id) && stream[id].n + n > MAX_WINDOW_SIZE)
                                   then Some(StreamError(id, FLOW_CONTROL_ERROR)) else None
    {
      if err.Some? {
        return None;
      }
      if id !in stream {
        return None;
      }
      fault := stream[id].Increase(n);
      if fault.Some? {
        assert Abstract().stream == old(Abstract()).stream;
        return fault;
      }
      assert Abstract().stream == old(WithCredit(Abstract(), id, n)).stream;
      WakeAll();
    }

    static method ResizeOne(w: Window, size: uint32) returns (fault: Option<Fault>)
      requires w.streamId != 0 && w.n <= MAX_WINDOW_SIZE
      modifies w
      ensures w.n <= MAX_WINDOW_SIZE
      ensures fault == if Overflows(old(w.Value()), size) then Some(ConnError(FLOW_CONTROL_ERROR)) else None
      ensures w.Value() == if fault.None? then Resized(old(w.Value()), size) else old(w.Value())
    {
      hide InRange;
      fault := w.SetInitialSize(size);
    }

    /** Resizes the windows in the order given, stopping before the first that would overflow. */
    method ResizeInOrder(ids: seq<uint32>, size: uint32) returns (fault: Option<Fault>, at: nat)
      requires Valid() && Increasing(ids) && forall id | id in ids :: id in stream
      modifies stream.Values
      ensures Valid() && conn.Value() == old(conn.Value())
      ensures at <= |ids| && fault == if at < |ids| then Some(ConnError(FLOW_CONTROL_ERROR)) else None
      ensures forall j | 0 <= j < at :: !Overflows(old(stream[ids[j]].Value()), size)
                                   && stream[ids[j]].Value() == Resized(old(stream[ids[j]].Value()), size)
      ensures forall j | at <= j < |ids| :: stream[ids[j]].Value() == old(stream[ids[j]].Value())
      ensures at < |ids| ==> Overflows(old(stream[ids[at]].Value()), size)
    {
      hide Overflows, Resized;
      for i := 0 to |ids|
        invariant Valid() && conn.Value() == old(conn.Value())
        invariant forall j | 0 <= j < i :: !Overflows(old(stream[ids[j]].Value()), size)
                                      && stream[ids[j]].Value() == Resized(old(stream[ids[j]].Value()), size)
        invariant forall j | i <= j < |ids| :: stream[ids[j]].Value() == old(stream[ids[j]].Value())
      {
        assert forall j | 0 <= j < |ids| && j != i :: stream[ids[j]].streamId != stream[ids[i]].streamId;
        fault := ResizeOne(stream[ids[i]], size);
        if fault.Some? {
          return fault, i;
        }
      }
      return None, |ids|;
    }

    /** The same walk over every open stream, told of the sender's value. */
    method ResizeStreams(ids: seq<uint32>, size: uint32) returns (fault: Option<Fault>, at: nat)
      requires Valid() && Increasing(ids) && forall id :: id in ids <==> id in stream
      modifies stream.Values
      ensures Valid() && Windows() == old(Windows())
      ensures Abstract() == old(Abstract()).(stream := Abstract().stream)
      ensures Walked(old(Abstract()), Abstract().stream, size, ids, at)
      ensures at <= |ids| && fault == if at < |ids| then Some(ConnError(FLOW_CONTROL_ERROR)) else None
    {
      hide Overflows, Resized, Increasing;
      fault, at := ResizeInOrder(ids, size);
    }

    /** named is the stream the overflow error is about. */
    method SetInitialSize(size: uint32) returns (fault: Option<Fault>, named: uint32)
      requires Valid()
      modifies this`initial, this`parked, this`woken, stream.Values
      ensures Valid() && Windows() == old(Windows())
      ensures Abstract() == AfterSettings(old(Abstract()), size)
      ensures fault.Some? <==> old(err).None? && Overflowing(old(Abstract()), size) != {}
      ensures fault.Some? ==>
                fault == Some(ConnError(FLOW_CONTROL_ERROR)) && named == Least(Overflowing(old(Abstract()), size))
    {
      ghost var before := Abstract();
      ClosedIgnoresSettings(before, size);
      assert before.err == err;
      hide *;
      if err.Some? {
        return None, 0;
      }
      var ids := SortedIds(stream.Keys);
      var at;
      fault, at := ResizeStreams(ids, size);
      if fault.Some? {
        SomeResized(before, Abstract().stream, size, ids, at);
        return fault, ids[at];
      }
      AllResized(before, Abstract().stream, size, ids, at);
      StoreInitial(size);
      return None, 0;
    }

    method StoreInitial(size: uint32)
      requires Valid()
      modifies this`initial, this`parked, this`woken
      ensures Valid() && Windows() == old(Windows())
      ensures Abstract() == Broadcast(old(Abstract()).(initial := size))
    {
      initial := size;
      WakeAll();
    }

    /** The source panics when there is no reason to give. The first reason wins. */
    method Close(reason: Reason)
      requires Valid()
      modifies this`err, this`parked, this`woken
      ensures Valid() && Windows() == old(Windows())
      ensures Abstract() == AfterClose(old(Abstract()), reason)
      ensures err == if old(err).Some? then old(err) else Some(reason)
      ensures old(err).None? ==> parked == map[] && woken == old(woken + parked)
    {
      if err.Some? {
        return;
      }
      err := Some(reason);
      WakeAll();
    }

    /**
      Takes n octets from both windows, the connection's first. Both results are examined, and neither can be a
      refusal.
     */
    method Debit(id: uint32, n: int)
      requires Valid() && id in stream && 0 < n <= conn.n && n <= stream[id].n
      modifies conn, stream.Values
      ensures Valid()
      ensures Abstract() == Debited(old(Abstract()), id, n)
    {
      var w := stream[id];
      var refused := conn.Consume(n);
      assert refused.None?;
      refused := w.Consume(n);
      assert refused.None?;
      assert Abstract().stream == Debited(old(Abstract()), id, n).stream;
    }

    /**
      One pass of Reserve's loop by goroutine t, from taking the mutex to releasing it. The source panics on
      a request for nothing.
     */
    method ReservePass(t: Tid, r: Request) returns (out: Outcome)
      requires Valid() && r.want > 0
      modifies this`parked, conn, stream.Values
      ensures Valid() && Windows() == old(Windows())
      ensures out == PassOutcome(old(Abstract()), r)
      ensures Abstract() == AfterPass(old(Abstract()), t, r)
    {
      if err.Some? {
        return Closed(err.value);
      }
      if r.id !in stream {
        return StreamGone;
      }
      var n := r.want;
      if conn.Available() < n {
        n := conn.Available();
      }
      if stream[r.id].Available() < n {
        n := stream[r.id].Available();
      }
      if n > 0 {
        hide Debited;
        Debit(r.id, n);
        return Took(n);
      }
      parked := parked[t := r];
      return Parks;
    }

    /** A goroutine that a broadcast has reached takes the mutex again and makes another pass. */
    method Resume(t: Tid) returns (out: Outcome)
      requires Valid() && t in woken && woken[t].want > 0
      modifies this`parked, this`woken, conn, stream.Values
      ensures Valid() && Windows() == old(Windows())
      ensures var s := old(Abstract()).(woken := old(woken) - {t});
        out == PassOutcome(s, old(woken[t])) && Abstract() == AfterPass(s, t, old(woken[t]))
    {
      hide PassOutcome, AfterPass;
      var r := woken[t];
      ghost var s := Abstract().(woken := woken - {t});
      woken := woken - {t};
      assert Abstract() == s;
      out := ReservePass(t, r);
    }
  }

  /** In order, the streams before at were resized, the one at it overflows, and it and those after are as they were. */
  ghost predicate Walked(s: State, after: map<uint32, Win>, size: uint32, ids: seq<uint32>, at: nat) {
    && Increasing(ids) && (forall id :: id in ids <==> id in s.stream) && after.Keys == s.stream.Keys && at <= |ids|
    && (forall j | 0 <= j < |ids| :: ids[j] in s.stream)
    && (forall j | 0 <= j < at ::
          !Overflows(s.stream[ids[j]], size) && after[ids[j]] == Resized(s.stream[ids[j]], size))
    && (forall j | at <= j < |ids| :: after[ids[j]] == s.stream[ids[j]])
    && (at < |ids| ==> Overflows(s.stream[ids[at]], size))
  }

  lemma ClosedIgnoresSettings(s: State, size: uint32)
    ensures s.err.Some? ==> AfterSettings(s, size) == s
  {
  }

  /** A walk over every stream without an overflow is a settings change that succeeds. */
  lemma AllResized(s: State, after: map<uint32, Win>, size: uint32, ids: seq<uint32>, at: nat)
    requires s.err.None? && Walked(s, after, size, ids, at) && at == |ids|
    ensures Overflowing(s, size) == {}
    ensures Broadcast(s.(stream := after, initial := size)) == AfterSettings(s, size)
  {
    hide Overflows, Resized, Increasing;
    forall id | id in s.stream ensures !Overflows(s.stream[id], size) && after[id] == Resized(s.stream[id], size) {
      var j :| 0 <= j < |ids| && ids[j] == id;
    }
    assert after == map id | id in s.stream :: Resized(s.stream[id], size);
  }

  /** A walk in increasing order that stops at its first overflow is a settings change that fails. */
  lemma SomeResized(s: State, after: map<uint32, Win>, size: uint32, ids: seq<uint32>, at: nat)
    requires s.err.None? && Walked(s, after, size, ids, at) && at < |ids|
    ensures Overflowing(s, size) != {} && Least(Overflowing(s, size)) == ids[at]
    ensures s.(stream := after) == AfterSettings(s, size)
  {
    hide Overflows, Resized;
    var bad := Overflowing(s, size);
    assert ids[at] in bad;
    forall id | id in s.stream
      ensures id in bad ==> ids[at] <= id
      ensures after[id] == if id < ids[at] then Resized(s.stream[id], size) else s.stream[id]
    {
      var j :| 0 <= j < |ids| && ids[j] == id;
    }
    assert Least(bad) == ids[at];
    assert after == map id | id in s.stream :: if id < ids[at] then Resized(s.stream[id], size) else s.stream[id];
  }
}
