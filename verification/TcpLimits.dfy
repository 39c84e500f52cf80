/** Bounds and dead ends of the TCP send side (kernel/network/tcp.c). */
module TcpLimits {
  import opened Basics
  import opened Powers
  import opened TimeVals
  import opened TcpState
  import opened TcpSafety

  // ----- retransmission -----

  /** The entry has been sent again `n` times. */
  ghost predicate Backoff(e: Entry, n: nat)
  {
    && n <= 5 && e.rto == DEFAULT_RTO * Pow2(n)
    && e.last.Micros() - e.first.Micros() >= DEFAULT_RTO * (Pow2(n) - 1)
  }

  /** How often an entry is sent again when the timer looks at it at the given times. */
  ghost function ResentCount(e: Entry, nows: seq<TimeVal>): nat
    decreases |nows|
  {
    if nows == [] then 0
    else (if Due(e, nows[0]) then 1 else 0) + ResentCount(Emitted(e, nows[0]), nows[1..])
  }

  lemma {:induction false} EmittedBackoff(e: Entry, n: nat, now: TimeVal)
    requires Backoff(e, n)
    ensures Due(e, now) ==> n < 5 && Backoff(Emitted(e, now), n + 1)
    ensures !Due(e, now) ==> Emitted(e, now) == e
  {
  }

  lemma {:induction false} AtMost(e: Entry, n: nat, nows: seq<TimeVal>)
    requires Backoff(e, n)
    ensures n + ResentCount(e, nows) <= 5
    decreases |nows|
  {
    hide Backoff, Due, Emitted;
    if nows == [] {
      assert n <= 5 by { BackoffBound(e, n); }
    } else {
      EmittedBackoff(e, n, nows[0]);
      AtMost(Emitted(e, nows[0]), if Due(e, nows[0]) then n + 1 else n, nows[1..]);
    }
  }

  lemma {:induction false} BackoffBound(e: Entry, n: nat)
    requires Backoff(e, n)
    ensures n <= 5
  {
  }

  /** No segment is sent again more than five times, whatever the times at which the timer runs. */
  lemma {:induction false} ResentAtMostFive(t: Tcb, flags: Flags, data: seq<Byte>, now: TimeVal, nows: seq<TimeVal>)
    requires Queued(flags, data)
    ensures var q := Output(t, flags, data, now).queue; ResentCount(q[|q| - 1], nows) <= 5
  {
    var q := Output(t, flags, data, now).queue;
    assert Backoff(q[|q| - 1], 0);
    AtMost(q[|q| - 1], 0, nows);
  }

  /** Five times is reached, from any start. */
  lemma {:induction false} FiveReached(e: Entry) returns (nows: seq<TimeVal>)
    requires e.first == e.last && e.rto == DEFAULT_RTO
    ensures ResentCount(e, nows) == 5
  {
    hide ResentCount, Due, Emitted;
    var e1 := DueAt(e, Later(e, 300000));
    var e2 := DueAt(e1, Later(e, 800000));
    var e3 := DueAt(e2, Later(e, 1700000));
    var e4 := DueAt(e3, Later(e, 3400000));
    var e5 := DueAt(e4, Later(e, 6700000));
    NoneResent(e5);
    nows := Counted(e4, Later(e, 6700000), [], 0);
    nows := Counted(e3, Later(e, 3400000), nows, 1);
    nows := Counted(e2, Later(e, 1700000), nows, 2);
    nows := Counted(e1, Later(e, 800000), nows, 3);
    nows := Counted(e, Later(e, 300000), nows, 4);
  }

  function Later(e: Entry, micros: int): (t: TimeVal)
    ensures t.Micros() == e.first.Micros() + micros
  {
    TimeVal(e.first.sec, e.first.usec + micros)
  }

  lemma {:induction false} DueAt(e: Entry, now: TimeVal) returns (r: Entry)
    requires now.Micros() > e.last.Micros() + e.rto && now.Micros() - e.first.Micros() < 12000000
    ensures Due(e, now) && r == Emitted(e, now) && r.first == e.first && r.last == now && r.rto == 2 * e.rto
  {
    r := Emitted(e, now);
  }

  lemma {:induction false} NoneResent(e: Entry)
    ensures ResentCount(e, []) == 0
  {
  }

  lemma {:induction false} Counted(e: Entry, now: TimeVal, rest: seq<TimeVal>, n: nat) returns (nows: seq<TimeVal>)
    requires Due(e, now) && ResentCount(Emitted(e, now), rest) == n
    ensures ResentCount(e, nows) == n + 1
  {
    nows := [now] + rest;
    assert nows[1..] == rest;
  }

  /** Every queued segment has been sent again at most five times. */
  ghost predicate Limited(q: seq<Entry>)
  {
    forall i | 0 <= i < |q| :: SomeBackoff(q[i])
  }

  ghost predicate SomeBackoff(e: Entry)
  {
    exists n: nat :: Backoff(e, n)
  }

  lemma {:induction false} OutputLimited(t: Tcb, flags: Flags, data: seq<Byte>, now: TimeVal)
    requires Limited(t.queue)
    ensures Limited(Output(t, flags, data, now).queue)
  {
    var q := Output(t, flags, data, now).queue;
    if Queued(flags, data) { assert Backoff(q[|q| - 1], 0); }
  }

  lemma {:induction false} CleanupLimited(q: seq<Entry>, a: nat)
    requires Limited(q)
    ensures Limited(Cleanup(q, a))
  {
    if q != [] && q[0].num < a { CleanupLimited(q[1..], a); }
  }

  lemma {:induction false} EmittedLimited(q: seq<Entry>, now: TimeVal)
    requires Limited(q)
    ensures Limited(EmittedAll(q, now))
  {
    hide Backoff, Due, Emitted;
    forall i | 0 <= i < |q|
      ensures SomeBackoff(EmittedAll(q, now)[i])
    {
      var n: nat :| Backoff(q[i], n);
      EmittedBackoff(q[i], n, now);
      assert Backoff(Emitted(q[i], now), n) || Backoff(Emitted(q[i], now), n + 1);
    }
  }

  lemma {:induction false} PushLimited(t: Tcb, data: seq<Byte>, mss: nat, now: TimeVal, refuse: nat)
    requires mss > 0 && Limited(t.queue)
    ensures Limited(Push(t, data, mss, now, refuse).0.queue)
    decreases |data|
  {
    hide Limited, Output;
    assert Limited([]) by { NoneLimited(); }
    if data != [] && Room(t) != 0 && refuse != 0 {
      var n := SliceLen(t, data, mss);
      OutputLimited(t, ACK_PSH, data[..n], now);
      PushLimited(PushOne(t, data[..n], now), data[n..], mss, now, refuse - 1);
    }
  }

  lemma {:induction false} NoneLimited()
    ensures Limited([])
  {
  }

  lemma {:induction false} DeliverLimited(t: Tcb, s: Segment, now: TimeVal)
    requires Limited(t.queue)
    ensures Limited(Deliver(t, s, now).queue)
  {
    hide Limited, Deliver, Cleanup;
    DeliverSends(t, s, now);
    CleanupLimited(t.queue, s.ack);
  }

  lemma {:induction false} ArrivesLimited(t: Tcb, s: Segment, now: TimeVal, iss: nat)
    requires Limited(t.queue)
    ensures Limited(Arrives(t, s, now, iss).queue)
  {
    hide Limited, Deliver, Output, Cleanup, InWindow;
    NoneLimited();
    DeliverLimited(t, s, now);
    CleanupLimited(t.queue, s.ack);
    OutputLimited(t, RST, [], now);
    OutputKeeps(t, s, now, iss);
  }

  /** The control blocks a segment puts something out from. */
  lemma {:induction false} OutputKeeps(t: Tcb, s: Segment, now: TimeVal, iss: nat)
    requires Limited(t.queue)
    ensures Limited(Output(t, ACK, [], now).queue)
    ensures Limited(Output(t.(state := Established), ACK, [], now).queue)
    ensures Limited(Output(t.(rcvWnd := BUF_SIZE, rcvNxt := (s.num + 1) % U32, iss := iss), SYN_ACK, [], now).queue)
    ensures Limited(Output(t.(rcvNxt := (s.num + 1) % U32, state := SynReceived), SYN_ACK, [], now).queue)
    ensures Limited(Output(t.(rcvNxt := (s.num + 1) % U32, una := s.ack, queue := Cleanup(t.queue, s.ack), state := SynReceived),
                           SYN_ACK, [], now).queue)
    ensures Limited(Output(t.(rcvNxt := (s.num + 1) % U32, una := s.ack, queue := Cleanup(t.queue, s.ack), state := Established),
                           ACK, [], now).queue)
    ensures Limited(Output(t.(rcvNxt := (s.num + 1) % U32, state := Established), ACK, [], now).queue)
  {
    hide Limited, Output, Cleanup;
    CleanupLimited(t.queue, s.ack);
    OutputLimited(t, ACK, [], now);
    OutputLimited(t.(state := Established), ACK, [], now);
    OutputLimited(t.(rcvWnd := BUF_SIZE, rcvNxt := (s.num + 1) % U32, iss := iss), SYN_ACK, [], now);
    OutputLimited(t.(rcvNxt := (s.num + 1) % U32, state := SynReceived), SYN_ACK, [], now);
    var u := t.(rcvNxt := (s.num + 1) % U32, una := s.ack, queue := Cleanup(t.queue, s.ack));
    OutputLimited(u.(state := SynReceived), SYN_ACK, [], now);
    OutputLimited(u.(state := Established), ACK, [], now);
    OutputLimited(t.(rcvNxt := (s.num + 1) % U32, state := Established), ACK, [], now);
  }

  lemma {:induction false} StepLimited(t: Tcb, ev: Event, now: TimeVal)
    requires Limited(t.queue) && Possible(ev)
    ensures Limited(Step(t, ev, now).queue)
  {
    hide Limited, Output, Arrives, Push, EmittedAll;
    NoneLimited();
    match ev
    case Arrive(s, iss) => ArrivesLimited(t, s, now, iss);
    case SendData(data, mss, refuse) => PushLimited(t, data, mss, now, refuse);
    case CloseCall => OutputLimited(t, FIN_ACK, [], now);
    case Timer => EmittedLimited(t.queue, now);
    case ConnectTo(iss, refused) => OutputLimited(t.(rcvWnd := BUF_SIZE, iss := iss), SYN, [], now);
    case _ =>
  }

  /** In every run, with any times, a queued segment has gone out at most six times in all. */
  lemma {:induction false} RunLimited(t: Tcb, run: seq<Moment>)
    requires forall i | 0 <= i < |run| :: Possible(run[i].ev)
    requires Limited(t.queue)
    ensures Limited(Run(t, run).queue)
    decreases |run|
  {
    hide Limited, Step;
    if run != [] {
      StepLimited(t, run[0].ev, run[0].now);
      RunLimited(Step(t, run[0].ev, run[0].now), run[1..]);
    }
  }

  // ----- what is resent, what is left -----

  /** What the timer puts out again are octets of the connection, at their own numbers. */
  lemma {:induction false} ResendsOctets(t: Tcb, i: nat)
    requires Live(t.state) && Inv(t) && Faithful(t) && i < |t.queue|
    ensures t.una <= t.queue[i].num && t.queue[i].num - t.iss + |Octets(t.queue[i])| <= |t.sent|
    ensures Octets(t.queue[i]) == Stretch(t.sent, t.queue[i].num - t.iss, |Octets(t.queue[i])|)
  {
    hide Octets, Tiles;
    var d := t.una - t.iss;
    EntryTruthful(t.queue, t.una, t.sent[d..], i);
    StretchDrop(t.sent, d, t.queue[i].num - t.una, |Octets(t.queue[i])|);
  }

  /** Once the FIN is acknowledged nothing is left to send again. */
  lemma {:induction false} Quiet(t: Tcb)
    requires Inv(t) && t.state in {FinWait2, TimeWait}
    ensures t.una == t.nxt && t.queue == []
  {
    if t.queue != [] { SomeRoom(t.queue, t.una, t.nxt); }
  }

  lemma {:induction false} SomeRoom(q: seq<Entry>, lo: nat, hi: nat)
    requires QueueIn(q, lo, hi) && q != []
    ensures lo < hi
  {
    assert lo <= q[0].num < hi;
  }

  /** An acknowledgment inside a segment drops the rest of that segment: no queued segment starts at or
      before the first octet the peer lacks. */
  lemma {:induction false} SplitLoses(t: Tcb, s: Segment)
    requires Numbered(t) && Kept(t) && NewAck(t, s) && !Boundary(t.queue, s.ack, t.nxt) && t.state != TimeWait
    ensures s.ack < t.nxt && forall e | e in Acked(t, s).queue :: e.num > s.ack
  {
    CleanupKeeps(t.queue, t.una, t.nxt, s.ack);
    CleanupSub(t.queue, s.ack);
  }

  lemma {:induction false} CleanupSub(q: seq<Entry>, a: nat)
    ensures forall e | e in Cleanup(q, a) :: exists i :: 0 <= i < |q| && q[i] == e
  {
    if q != [] && q[0].num < a {
      CleanupSub(q[1..], a);
      forall e | e in Cleanup(q, a)
        ensures exists i :: 0 <= i < |q| && q[i] == e
      {
        var i :| 0 <= i < |q[1..]| && q[1..][i] == e;
        assert q[i + 1] == e;
      }
    }
  }

  // ----- 32-bit comparison -----

  /** An acknowledgment of `m` of `out` outstanding octets is taken in iff their numbers do not wrap. */
  lemma {:induction false} AckSeen(t: Tcb, s: Segment, out: nat, m: nat)
    requires t.una < U32 && 0 < m <= out < U32 && t.state != TimeWait
    requires t.nxt == (t.una + out) % U32 && s.ack == (t.una + m) % U32
    ensures NewAck(t, s) <==> t.una + out < U32
    ensures t.una + out >= U32 ==> Acked(t, s) == t
  {
    if t.una + out < U32 { assert s.ack == t.una + m; } else { assert t.nxt == t.una + out - U32; }
  }

  // ----- the receive window -----

  /** Number `x` is one of those the segment takes up. */
  predicate Numbers(s: Segment, x: nat)
  {
    s.num <= x < s.num + SegLen(s)
  }

  predicate Awaited(t: Tcb, x: nat)
  {
    t.rcvNxt <= x < t.rcvNxt + t.rcvWnd
  }

  /** A segment is acceptable iff one of its numbers is awaited and it does not stand out on both sides of the window; one
      that takes up none, iff its own number is awaited, or is the next one of a closed window. */
  lemma {:induction false} AcceptedIff(t: Tcb, s: Segment)
    requires t.rcvNxt + t.rcvWnd < U32 && s.num + SegLen(s) < U32
    ensures SegLen(s) > 0 ==>
              (InWindow(t, s) <==> (exists x: nat :: Numbers(s, x) && Awaited(t, x))
                                   && !(s.num < t.rcvNxt && t.rcvNxt + t.rcvWnd < s.num + SegLen(s)))
    ensures SegLen(s) == 0 ==> (InWindow(t, s) <==> Awaited(t, s.num) || (t.rcvWnd == 0 && s.num == t.rcvNxt))
  {
    var n := SegLen(s);
    if n > 0 && InWindow(t, s) {
      assert (s.num + n - 1) % U32 == s.num + n - 1;
      assert Numbers(s, s.num) && Numbers(s, s.num + n - 1);
      assert Awaited(t, s.num) || Awaited(t, s.num + n - 1);
    }
  }

  // ----- the send window -----

  function Flight(t: Tcb): nat
  {
    (t.nxt - t.una) % U32
  }

  lemma {:induction false} PayloadSplit(data: seq<Byte>, n: nat, k: nat)
    requires n + k <= |data|
    ensures Payload(data[..n]) + Payload(data[n..][..k]) == Payload(data[..n + k])
  {
  }

  /** tcp_send appends exactly as many octets of the data as there is room for, in order. */
  lemma {:induction false} PushSends(t: Tcb, data: seq<Byte>, mss: nat, now: TimeVal, refuse: nat)
    requires mss > 0 && t.una <= t.nxt && t.nxt + |data| < U32
    ensures var (u, k, o) := Push(t, data, mss, now, refuse);
            o != Failed ==> k == Min(|data|, Room(t)) && u.sent == t.sent + Payload(data[..k]) && u.nxt == t.nxt + k
                            && u.una == t.una && u.wnd == t.wnd && u.state == t.state && (o == Done <==> k == |data|)
    ensures var (u, k, o) := Push(t, data, mss, now, refuse); o == Failed ==> u.state == Free
    decreases |data|
  {
    hide Room, PushOne, Payload;
    if data != [] && Room(t) != 0 && refuse != 0 {
      var n := SliceLen(t, data, mss);
      var v := PushOne(t, data[..n], now);
      OneSent(t, data[..n], now);
      RoomAfter(t, v, n);
      PushSends(v, data[n..], mss, now, refuse - 1);
      var (u, k, o) := Push(v, data[n..], mss, now, refuse - 1);
      if o != Failed { PayloadSplit(data, n, k); }
    }
    assert Payload([]) == [];
    assert data[..0] == [] && t.sent + [] == t.sent;
  }

  lemma {:induction false} OneSent(t: Tcb, data: seq<Byte>, now: TimeVal)
    requires t.nxt + |data| < U32
    ensures var v := PushOne(t, data, now);
            v.sent == t.sent + Payload(data) && v.nxt == t.nxt + |data| && v.una == t.una && v.wnd == t.wnd && v.state == t.state
  {
  }

  lemma {:induction false} RoomAfter(t: Tcb, v: Tcb, n: nat)
    requires t.una <= t.nxt && t.nxt + n < U32 && n <= Room(t) && v.una == t.una && v.nxt == t.nxt + n && v.wnd == t.wnd
    ensures Room(v) == Room(t) - n
  {
    var f := t.nxt - t.una;
    assert f % U32 == f && (f + n) % U32 == f + n;
  }

  /** tcp_send keeps within the window iff it was kept within before: the room left is computed without a
      sign, so that a window the peer has shrunk below what is in flight lets everything through. */
  lemma {:induction false} WindowKept(t: Tcb, data: seq<Byte>, mss: nat, now: TimeVal, refuse: nat)
    requires mss > 0 && t.una <= t.nxt && t.nxt + |data| < U32 && t.wnd < U32
    ensures var (u, k, o) := Push(t, data, mss, now, refuse);
            o != Failed ==> (Flight(u) <= u.wnd <==> Flight(t) <= t.wnd) && (Flight(t) <= t.wnd && o == Blocked ==> Flight(u) == u.wnd)
  {
    hide Push;
    PushSends(t, data, mss, now, refuse);
    var f := t.nxt - t.una;
    assert f % U32 == f;
    if f <= t.wnd { assert Room(t) == t.wnd - f; } else { assert Room(t) == t.wnd - f + U32; }
  }

  /** With a shrunk window even a single octet that does not fit goes out. */
  lemma {:induction false} ShrunkWindow(t: Tcb, now: TimeVal)
    requires t.state == Established && t.una == 100 && t.nxt == 110 && t.wnd == 5
    ensures Send(t, [7], 1460, now, 1) == (PushOne(t, [7], now), 1, Done)
  {
    var v := PushOne(t, [7], now);
    assert Room(t) == U32 - 5;
    assert [7][..1] == [7] && [7][1..] == [];
    assert Push(v, [], 1460, now, 0) == (v, 0, Done);
  }

  // ----- a closed window -----

  /** No event opens the block anew. */
  predicate NoOpening(run: seq<Moment>)
  {
    NoNewCall(run) && forall i | 0 <= i < |run| :: !run[i].ev.PassiveOpenCall?
  }

  /** Not opening, and as long as data could be sent everything is acknowledged and the window is closed. */
  ghost predicate Shut(t: Tcb)
  {
    !(t.state in {Listen, SynSent, SynReceived}) && (t.state in {Established, CloseWait} ==> t.una == t.nxt < U32 && t.wnd == 0)
  }

  lemma {:induction false} ShutRoom(t: Tcb, data: seq<Byte>, mss: nat, now: TimeVal, refuse: nat)
    requires Shut(t) && mss > 0
    ensures var (u, k, o) := Send(t, data, mss, now, refuse); u == t && k == 0
  {
    if t.state in {Established, CloseWait} { assert Room(t) == 0; }
  }

  /** What acknowledges nothing new does not open the window. */
  lemma {:induction false} ShutStep(t: Tcb, ev: Event, now: TimeVal)
    requires Shut(t) && Possible(ev) && !ev.ConnectTo? && !ev.ListenCall? && !ev.PassiveOpenCall?
    ensures Shut(Step(t, ev, now))
  {
    hide Send, Tick;
    match ev {
      case Arrive(s, iss) => ShutArrives(t, s, now, iss);
      case SendData(data, mss, refuse) => ShutRoom(t, data, mss, now, refuse);
      case Timer => ShutTick(t, now);
      case _ =>
    }
  }

  lemma {:induction false} ShutArrives(t: Tcb, s: Segment, now: TimeVal, iss: nat)
    requires Shut(t)
    ensures Shut(Arrives(t, s, now, iss))
  {
    hide InWindow, Cleanup, SegLen;
  }

  lemma {:induction false} ShutTick(t: Tcb, now: TimeVal)
    requires Shut(t)
    ensures Shut(Tick(t, now))
  {
    hide EmittedAll, Resends, Overdue;
  }

  lemma {:induction false} RunShut(t: Tcb, run: seq<Moment>)
    requires Shut(t) && NoOpening(run)
    ensures Shut(Run(t, run))
    decreases |run|
  {
    hide Shut, Step;
    if run != [] {
      ShutStep(t, run[0].ev, run[0].now);
      RunShut(Step(t, run[0].ev, run[0].now), run[1..]);
    }
  }

  /** A connection that has everything acknowledged can ever send again iff its window is open: the window is taken only from
      segments that acknowledge something new, so that nothing the peer sends opens it, and nothing probes it. */
  lemma {:induction false} SendsAgainIff(t: Tcb, b: Byte, now: TimeVal)
    requires t.state in {Established, CloseWait} && t.una == t.nxt < U32 && t.wnd < U32
    ensures (exists run :: NoOpening(run) && Send(Run(t, run), [b], 1, now, 1).1 > 0) <==> t.wnd > 0
  {
    if t.wnd > 0 {
      assert Room(t) == t.wnd;
      var v := PushOne(t, [b], now);
      assert [b][..1] == [b] && [b][1..] == [];
      assert Push(v, [], 1, now, 0) == (v, 0, Done);
      assert NoOpening([]) && Run(t, []) == t;
    }
    forall run | NoOpening(run) && t.wnd == 0
      ensures Send(Run(t, run), [b], 1, now, 1).1 == 0
    {
      RunShut(t, run);
      ShutRoom(Run(t, run), [b], 1, now, 1);
    }
  }

  // ----- a timed-out connection -----

  /** No event makes the block listen or connect anew. */
  predicate NoNewCall(run: seq<Moment>)
  {
    forall i | 0 <= i < |run| :: Possible(run[i].ev) && !run[i].ev.ConnectTo? && !run[i].ev.ListenCall?
  }

  /** An open call that waits has seen LISTEN, SYN_SENT or SYN_RECEIVED. */
  ghost predicate Pending(t: Tcb)
  {
    forall i | 0 <= i < |t.waits| :: t.waits[i] in {Listen, SynSent, SynReceived}
  }

  lemma {:induction false} RunPending(t: Tcb, run: seq<Moment>)
    requires forall i | 0 <= i < |run| :: Possible(run[i].ev)
    requires Pending(t)
    ensures Pending(Run(t, run))
    decreases |run|
  {
    hide Step;
    if run != [] {
      StepPending(t, run[0].ev, run[0].now);
      RunPending(Step(t, run[0].ev, run[0].now), run[1..]);
    }
  }

  lemma {:induction false} StepPending(t: Tcb, ev: Event, now: TimeVal)
    requires Pending(t) && Possible(ev)
    ensures Pending(Step(t, ev, now))
  {
    hide Arrives, Push, Tick;
    match ev {
      case Arrive(s, iss) => ArrivesWaits(t, s, now, iss);
      case SendData(data, mss, refuse) => PushWaits(t, data, mss, now, refuse);
      case Timer => TickWaits(t, now);
      case _ =>
    }
  }

  /** Segments, the timer and sending leave the waiting calls to themselves. */
  lemma {:induction false} ArrivesWaits(t: Tcb, s: Segment, now: TimeVal, iss: nat)
    ensures Arrives(t, s, now, iss).waits == t.waits
  {
  }

  lemma {:induction false} TickWaits(t: Tcb, now: TimeVal)
    ensures Tick(t, now).waits == t.waits && (t.state == Closed ==> Tick(t, now).state == Closed)
  {
  }

  lemma {:induction false} PushWaits(t: Tcb, data: seq<Byte>, mss: nat, now: TimeVal, refuse: nat)
    requires mss > 0
    ensures Push(t, data, mss, now, refuse).0.waits == t.waits
    decreases |data|
  {
    hide Payload;
    if data != [] && Room(t) != 0 && refuse != 0 {
      var n := SliceLen(t, data, mss);
      PushWaits(PushOne(t, data[..n], now), data[n..], mss, now, refuse - 1);
    }
  }

  /** What happens to a closed block: it stays closed, unless a waiting open call gets its turn and releases it. */
  lemma {:induction false} ClosedStep(t: Tcb, ev: Event, now: TimeVal)
    requires t.state == Closed && Pending(t) && Possible(ev) && !ev.ConnectTo? && !ev.ListenCall?
    ensures var u := Step(t, ev, now);
            if ev.WakeOpenCall? && ev.call < |t.waits| then u.state == Free else u.state == Closed && u.waits == t.waits
  {
    hide Tick;
    match ev {
      case Arrive(s, iss) => ArrivesWaits(t, s, now, iss);
      case Timer => TickWaits(t, now);
      case _ =>
    }
  }

  ghost predicate Wakes(t: Tcb, run: seq<Moment>)
  {
    exists i :: 0 <= i < |run| && run[i].ev.WakeOpenCall? && run[i].ev.call < |t.waits|
  }

  /** Without a new connect or listen call, a closed block is released in a run iff an open call that waits on it gets
      its turn. */
  lemma {:induction false} ReleasedIffWoken(t: Tcb, run: seq<Moment>)
    requires t.state == Closed && Pending(t) && NoNewCall(run)
    ensures (exists k :: 0 <= k <= |run| && Run(t, run[..k]).state == Free) <==> Wakes(t, run)
    decreases |run|
  {
    hide Step;
    if run == [] {
      assert forall k | 0 <= k <= |run| :: run[..k] == [];
    } else {
      var u := Step(t, run[0].ev, run[0].now);
      ClosedStep(t, run[0].ev, run[0].now);
      if u.state == Free {
        OneStep(t, run);
        assert Run(t, run[..1]).state == Free;
      } else {
        ReleasedIffWoken(u, run[1..]);
        LaterRelease(t, run);
        LaterWake(t, u, run);
      }
    }
  }

  lemma {:induction false} OneStep(t: Tcb, run: seq<Moment>)
    requires run != [] && NoNewCall(run)
    ensures Run(t, run[..1]) == Step(t, run[0].ev, run[0].now)
  {
    assert run[..1] == [run[0]];
  }

  lemma {:induction false} LaterRelease(t: Tcb, run: seq<Moment>)
    requires run != [] && NoNewCall(run) && t.state != Free
    ensures (exists k :: 0 <= k <= |run| && Run(t, run[..k]).state == Free)
            <==> exists k :: 0 <= k <= |run| - 1 && Run(Step(t, run[0].ev, run[0].now), run[1..][..k]).state == Free
  {
    hide Step;
    forall k | 0 < k <= |run|
      ensures Run(t, run[..k]) == Run(Step(t, run[0].ev, run[0].now), run[1..][..k - 1])
    {
      assert run[..k][1..] == run[1..][..k - 1];
    }
    if k :| 0 <= k <= |run| && Run(t, run[..k]).state == Free {
      assert k > 0 by { assert run[..0] == []; }
      assert Run(Step(t, run[0].ev, run[0].now), run[1..][..k - 1]).state == Free;
    }
    if k :| 0 <= k <= |run| - 1 && Run(Step(t, run[0].ev, run[0].now), run[1..][..k]).state == Free {
      assert Run(t, run[..k + 1]).state == Free;
    }
  }

  lemma {:induction false} LaterWake(t: Tcb, u: Tcb, run: seq<Moment>)
    requires run != [] && u.waits == t.waits && !(run[0].ev.WakeOpenCall? && run[0].ev.call < |t.waits|)
    ensures Wakes(t, run) <==> Wakes(u, run[1..])
  {
    if i :| 0 <= i < |run| && run[i].ev.WakeOpenCall? && run[i].ev.call < |t.waits| {
      assert run[1..][i - 1] == run[i];
    }
  }

  /** Without a new call, a block whose connection timed out can be released iff an open call waits on it. */
  lemma {:induction false} TimedOutReleasedIff(t: Tcb)
    requires t.state == Closed && Pending(t)
    ensures (exists run :: NoNewCall(run) && Run(t, run).state == Free) <==> t.waits != []
  {
    hide Step;
    if t.waits != [] {
      var run := [Moment(WakeOpenCall(0), TimeVal(0, 0))];
      ClosedStep(t, WakeOpenCall(0), TimeVal(0, 0));
      OneStep(t, run);
      assert run[..1] == run && NoNewCall(run) && Run(t, run).state == Free;
    }
    forall run | NoNewCall(run) && Run(t, run).state == Free
      ensures t.waits != []
    {
      ReleasedIffWoken(t, run);
      assert run[..|run|] == run;
    }
  }

  /** With new calls a block in socket mode can be released: tcp_listen asks for no state, and closing a listening block
      releases it. */
  lemma {:induction false} ListenReleases(t: Tcb, now: TimeVal)
    ensures Run(t, [Moment(ListenCall, now), Moment(CloseCall, now)]).state == Free
  {
    var run := [Moment(ListenCall, now), Moment(CloseCall, now)];
    var u := Step(t, ListenCall, now);
    assert run[1..] == [Moment(CloseCall, now)] && run[1..][1..] == [];
    assert Run(Step(u, CloseCall, now), []) == Step(u, CloseCall, now);
    assert Run(u, run[1..]) == Step(u, CloseCall, now);
  }

  lemma {:induction false} ConnectStep(t: Tcb, iss: nat)
    requires iss < U32
    ensures Step(t, ConnectTo(iss, false), TimeVal(0, 0)) == Connect(t, iss, TimeVal(0, 0), false)
  {
    hide Connect, Send, Close, Receive, PassiveOpen, Arrives, Tick;
  }

  lemma {:induction false} UnansweredSyn(t: Tcb, iss: nat)
    requires t.queue == [] && t.waits == []
    ensures var u := Connect(t, iss, TimeVal(0, 0), false);
            u.queue == [Entry(TimeVal(0, 0), TimeVal(0, 0), DEFAULT_RTO, iss, SYN, [])] && u.waits == [SynSent] && u.state == SynSent
  {
  }

  /** A new connection whose SYN is not answered for 12 seconds: the waiting call releases the block. */
  lemma {:induction false} UnansweredExample(t: Tcb, iss: nat, u: Tcb, v: Tcb)
    requires t.state == Closed && t.waits == [] && t.queue == [] && iss < U32
    requires u == Step(t, ConnectTo(iss, false), TimeVal(0, 0)) && v == Step(u, Timer, TimeVal(12, 0))
    ensures v.state == Closed && v.waits == [SynSent] && Step(v, WakeOpenCall(0), TimeVal(12, 0)).state == Free
  {
    hide EmittedAll, Resends, Arrives, Send, Close, Receive, PassiveOpen, Connect;
    assert u == Connect(t, iss, TimeVal(0, 0), false) by { ConnectStep(t, iss); }
    UnansweredSyn(t, iss);
    assert u.queue == [Entry(TimeVal(0, 0), TimeVal(0, 0), DEFAULT_RTO, iss, SYN, [])];
    assert Overdue(u.queue[0], TimeVal(12, 0));
  }

  /** An established connection that times out: nobody waits, and without a new call the block is lost. */
  lemma {:induction false} EstablishedExample(t: Tcb, e: Entry, now: TimeVal)
    requires t.state == Established && t.waits == [] && e in t.queue && Overdue(e, now)
    ensures var u := Step(t, Timer, now); u.state == Closed && forall run | NoNewCall(run) :: Run(u, run).state != Free
  {
    var u := Step(t, Timer, now);
    TimedOutReleasedIff(u);
  }
}
