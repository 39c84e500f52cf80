/** What kernel/network/tcp.c puts on the wire, over every run. */
module TcpWire {
  import opened Basics
  import opened TimeVals
  import opened TcpState
  import opened TcpSafety
  import opened TcpLimits

  function Carried(s: Segment): seq<Octet>
  {
    Framed(s.flags, s.data)
  }

  /** The segment carries octet `o` under number `n`. */
  predicate Holds(s: Segment, n: nat, o: Octet)
  {
    s.num <= n < s.num + |Carried(s)| && Carried(s)[n - s.num] == o
  }

  predicate Same(s: Segment, e: Entry)
  {
    s.num == e.num && s.flags == e.flags && s.data == e.data
  }

  /** The same segment, whenever it was sent last. */
  predicate Alike(e: Entry, f: Entry)
  {
    e.num == f.num && e.flags == f.flags && e.data == f.data
  }

  predicate Tells(s: Segment, next: nat)
  {
    s.flags.ack && s.ack == next
  }

  ghost predicate OctetOut(wire: seq<Segment>, start: nat, n: nat, o: Octet)
  {
    exists j :: start <= j < |wire| && Holds(wire[j], n, o)
  }

  ghost predicate EntryOut(wire: seq<Segment>, start: nat, e: Entry)
  {
    exists j :: start <= j < |wire| && Same(wire[j], e)
  }

  ghost predicate Told(wire: seq<Segment>, start: nat, next: nat)
  {
    exists j :: start <= j < |wire| && Tells(wire[j], next)
  }

  /** Every octet numbered so far has gone out under its own number, every queued segment has gone out as it is queued, and
      the peer has been told what has come in. */
  ghost predicate Out(t: Tcb)
  {
    && t.start <= |t.wire| && (forall i | 0 <= i < |t.sent| :: OctetOut(t.wire, t.start, t.iss + i, t.sent[i]))
    && (forall i | 0 <= i < |t.queue| :: EntryOut(t.wire, t.start, t.queue[i]))
    && (t.state != SynSent ==> Told(t.wire, t.start, t.rcvNxt))
  }

  ghost predicate AllOut(t: Tcb)
  {
    Live(t.state) ==> Out(t)
  }

  // ----- what stays out -----

  lemma {:induction false} StaysOut(t: Tcb, wire: seq<Segment>)
    requires Out(t) && t.wire <= wire
    ensures Out(t.(wire := wire))
  {
    hide Holds, Same, Tells;
    forall i | 0 <= i < |t.sent|
      ensures OctetOut(wire, t.start, t.iss + i, t.sent[i])
    {
      assert OctetOut(t.wire, t.start, t.iss + i, t.sent[i]);
      var j :| t.start <= j < |t.wire| && Holds(t.wire[j], t.iss + i, t.sent[i]);
      assert wire[j] == t.wire[j];
    }
    forall i | 0 <= i < |t.queue|
      ensures EntryOut(wire, t.start, t.queue[i])
    {
      assert EntryOut(t.wire, t.start, t.queue[i]);
      var j :| t.start <= j < |t.wire| && Same(t.wire[j], t.queue[i]);
      assert wire[j] == t.wire[j];
    }
    if t.state != SynSent {
      var j :| t.start <= j < |t.wire| && Tells(t.wire[j], t.rcvNxt);
      assert wire[j] == t.wire[j];
    }
  }

  ghost predicate OneOf(q: seq<Entry>, e: Entry)
  {
    exists j :: 0 <= j < |q| && Alike(q[j], e)
  }

  /** Every segment queued in `r` is one of `q`. */
  ghost predicate QueueFrom(q: seq<Entry>, r: seq<Entry>)
  {
    forall i | 0 <= i < |r| :: OneOf(q, r[i])
  }

  /** `u` differs from `t` in what it has put out since, in its queue, and in what it has told the peer. */
  lemma {:induction false} OutKept(t: Tcb, u: Tcb)
    requires Out(t) && t.wire <= u.wire && u.start == t.start && u.iss == t.iss && u.sent == t.sent
    requires QueueFrom(t.queue, u.queue)
    requires u.state == SynSent || Told(u.wire, u.start, u.rcvNxt)
    ensures Out(u)
  {
    hide Holds, Tells, OctetOut, Told;
    StaysOut(t, u.wire);
    forall i | 0 <= i < |u.queue|
      ensures EntryOut(u.wire, u.start, u.queue[i])
    {
      var j :| 0 <= j < |t.queue| && Alike(t.queue[j], u.queue[i]);
      assert EntryOut(u.wire, u.start, t.queue[j]);
    }
  }

  lemma {:induction false} SameQueue(q: seq<Entry>)
    ensures QueueFrom(q, q)
  {
    forall i | 0 <= i < |q|
      ensures OneOf(q, q[i])
    {
      assert Alike(q[i], q[i]);
    }
  }

  lemma {:induction false} CleanupFrom(q: seq<Entry>, a: nat)
    ensures QueueFrom(q, Cleanup(q, a))
  {
    var r := Cleanup(q, a);
    CleanupSub(q, a);
    forall i | 0 <= i < |r|
      ensures OneOf(q, r[i])
    {
      assert r[i] in r;
      var j :| 0 <= j < |q| && q[j] == r[i];
      assert Alike(q[j], r[i]);
    }
  }

  lemma {:induction false} ToldLast(wire: seq<Segment>, start: nat, next: nat)
    requires start < |wire| && Tells(wire[|wire| - 1], next)
    ensures Told(wire, start, next)
  {
  }

  lemma {:induction false} ToldGrows(t: Tcb, wire: seq<Segment>)
    requires Told(t.wire, t.start, t.rcvNxt) && t.wire <= wire
    ensures Told(wire, t.start, t.rcvNxt)
  {
    var j :| t.start <= j < |t.wire| && Tells(t.wire[j], t.rcvNxt);
    assert wire[j] == t.wire[j];
  }

  // ----- single events -----

  /** A segment numbered from `nxt` that carries the octets it adds to the stream. */
  lemma {:induction false} Added(t: Tcb, u: Tcb, flags: Flags, data: seq<Byte>, now: TimeVal)
    requires Out(t) && t.nxt == t.iss + |t.sent| && !flags.syn && flags.ack && Queued(flags, data)
    requires u == Output(t, flags, data, now).(nxt := u.nxt, sent := t.sent + Framed(flags, data), state := u.state)
    ensures Out(u)
  {
    hide Framed;
    StaysOut(t, u.wire);
    var n := |t.wire|;
    assert u.wire[n] == Segment(t.nxt, t.rcvNxt, flags, t.rcvWnd, data);
    assert Tells(u.wire[n], u.rcvNxt);
    forall i | 0 <= i < |u.sent|
      ensures OctetOut(u.wire, u.start, u.iss + i, u.sent[i])
    {
      if i < |t.sent| {
        assert OctetOut(u.wire, t.start, t.iss + i, t.sent[i]);
      } else {
        assert Holds(u.wire[n], u.iss + i, u.sent[i]);
      }
    }
    assert Same(u.wire[n], u.queue[|t.queue|]);
    forall i | 0 <= i < |u.queue|
      ensures EntryOut(u.wire, u.start, u.queue[i])
    {
      if i < |t.queue| { assert EntryOut(u.wire, t.start, t.queue[i]); }
    }
  }

  /** A control segment that carries no octet, with what has come in acknowledged. */
  lemma {:induction false} Acknowledges(t: Tcb, flags: Flags, now: TimeVal)
    requires Out(t) && flags.ack && !Queued(flags, [])
    ensures Out(Output(t, flags, [], now))
  {
    hide OctetOut, EntryOut, Told;
    var u := Output(t, flags, [], now);
    SameQueue(t.queue);
    ToldLast(u.wire, u.start, u.rcvNxt);
    OutKept(t, u);
  }

  lemma {:induction false} BegunOut(t: Tcb, state: State, iss: nat, flags: Flags, now: TimeVal)
    requires t.queue == [] && flags.syn && !flags.fin && iss + 1 < U32 && (state != SynSent ==> flags.ack)
    ensures Out(Begun(t, state, iss, flags, now))
  {
    var u := Begun(t, state, iss, flags, now);
    var n := |t.wire|;
    assert u.start == n && u.wire[n] == Segment(iss, t.rcvNxt, flags, t.rcvWnd, []);
    assert Carried(u.wire[n]) == [Syn];
    assert Holds(u.wire[n], iss, Syn) && Same(u.wire[n], u.queue[0]);
    assert flags.ack ==> Tells(u.wire[n], u.rcvNxt);
  }

  /** What an acceptable segment is answered with: whatever has come in of it is acknowledged. */
  lemma {:induction false} Answered(t: Tcb, s: Segment, now: TimeVal)
    ensures var u := Deliver(t, s, now);
            t.wire <= u.wire && u.start == t.start && u.iss == t.iss && u.sent == t.sent
            && (u.queue == t.queue || u.queue == Cleanup(t.queue, s.ack))
    ensures var u := Deliver(t, s, now);
            if u.wire == t.wire then u.rcvNxt == t.rcvNxt && u.rcvWnd == t.rcvWnd
            else u.wire[|u.wire| - 1] == Segment(t.nxt, u.rcvNxt, ACK, u.rcvWnd, [])
  {
    hide Next, Cleanup, SegLen;
  }

  lemma {:induction false} DeliverOut(t: Tcb, s: Segment, now: TimeVal)
    requires Out(t) && t.state != SynSent
    ensures Out(Deliver(t, s, now))
  {
    hide Deliver, OctetOut, EntryOut, Told, QueueFrom;
    var u := Deliver(t, s, now);
    Answered(t, s, now);
    CleanupFrom(t.queue, s.ack);
    SameQueue(t.queue);
    if u.wire == t.wire { ToldGrows(t, u.wire); } else { ToldLast(u.wire, u.start, u.rcvNxt); }
    OutKept(t, u);
  }

  lemma {:induction false} ReplyOut(t: Tcb, num: nat, ack: nat, flags: Flags)
    requires Out(t)
    ensures Out(Reply(t, num, ack, flags))
  {
    hide OctetOut, EntryOut, Told;
    StaysOut(t, Reply(t, num, ack, flags).wire);
  }

  lemma {:induction false} SynchronizedOut(t: Tcb, s: Segment, now: TimeVal)
    requires Out(t) && Synchronized(t.state)
    ensures AllOut(ArrivesSynchronized(t, s, now))
  {
    hide Out, Deliver, Output, Reply, InWindow;
    Acknowledges(t, ACK, now);
    EstablishedOut(t, now);
    ReplyOut(t, s.ack, 0, RST);
    DeliverOut(t, s, now);
  }

  lemma {:induction false} EstablishedOut(t: Tcb, now: TimeVal)
    requires Out(t) && t.state != SynSent
    ensures Out(t.(state := Established)) && Out(Output(t.(state := Established), ACK, [], now))
  {
    hide OctetOut, EntryOut, Told, Output;
    Acknowledges(t.(state := Established), ACK, now);
  }

  lemma {:induction false} SynSentOut(t: Tcb, s: Segment, now: TimeVal)
    requires Inv(t) && Out(t) && t.state == SynSent
    ensures AllOut(ArrivesSynSent(t, s, now))
  {
    hide Out, Cleanup, OctetOut, EntryOut, Told;
    var u := ArrivesSynSent(t, s, now);
    ReplyOut(t, s.ack, 0, RST);
    if u.state == Established {
      SynTaken(t, u, s.ack);
    } else if u.state == SynReceived {
      assert !(s.flags.ack && t.una <= s.ack <= t.nxt);
      SynCrossed(t, u, now);
    }
  }

  lemma {:induction false} SynTaken(t: Tcb, u: Tcb, a: nat)
    requires Out(t) && u.start == t.start && u.iss == t.iss && u.sent == t.sent
    requires u.queue == t.queue || u.queue == Cleanup(t.queue, a)
    requires u.wire == t.wire + [Segment(t.nxt, u.rcvNxt, ACK, u.rcvWnd, [])]
    ensures Out(u)
  {
    hide OctetOut, EntryOut, Told, QueueFrom, Cleanup;
    SameQueue(t.queue);
    CleanupFrom(t.queue, a);
    ToldLast(u.wire, u.start, u.rcvNxt);
    OutKept(t, u);
  }

  lemma {:induction false} SynCrossed(t: Tcb, u: Tcb, now: TimeVal)
    requires Out(t) && t.iss + |t.sent| == t.nxt && u == Output(t.(rcvNxt := u.rcvNxt, state := SynReceived), SYN_ACK, [], now)
    ensures Out(u)
  {
    hide OctetOut;
    var n := |t.wire|;
    StaysOut(t, u.wire);
    assert u.wire[n] == Segment(t.iss, u.rcvNxt, SYN_ACK, t.rcvWnd, []);
    assert Same(u.wire[n], u.queue[|t.queue|]);
    forall i | 0 <= i < |u.queue|
      ensures EntryOut(u.wire, u.start, u.queue[i])
    {
      if i < |t.queue| { assert EntryOut(u.wire, t.start, t.queue[i]); }
    }
    ToldLast(u.wire, u.start, u.rcvNxt);
  }

  lemma {:induction false} ArrivesOut(t: Tcb, s: Segment, now: TimeVal, iss: nat)
    requires Inv(t) && AllOut(t) && iss + 1 < U32
    ensures AllOut(Arrives(t, s, now, iss))
  {
    hide Out, Begun, ArrivesSynSent, ArrivesSynchronized;
    if t.state == Listen {
      BegunOut(t.(rcvWnd := BUF_SIZE, rcvNxt := (s.num + 1) % U32), SynReceived, iss, SYN_ACK, now);
    } else if t.state == SynSent {
      SynSentOut(t, s, now);
    } else if Live(t.state) {
      SynchronizedOut(t, s, now);
    }
  }

  lemma {:induction false} PushOut(t: Tcb, data: seq<Byte>, mss: nat, now: TimeVal, refuse: nat)
    requires Out(t) && t.state in {Established, CloseWait} && t.nxt == t.iss + |t.sent| && mss > 0 && t.nxt + |data| < U32
    ensures AllOut(Push(t, data, mss, now, refuse).0)
    decreases |data|
  {
    hide Out;
    if data != [] && Room(t) != 0 && refuse != 0 {
      var n := SliceLen(t, data, mss);
      PushOneOut(t, data[..n], now);
      PushOut(PushOne(t, data[..n], now), data[n..], mss, now, refuse - 1);
    }
  }

  lemma {:induction false} PushOneOut(t: Tcb, data: seq<Byte>, now: TimeVal)
    requires Out(t) && t.nxt == t.iss + |t.sent| && data != []
    ensures Out(PushOne(t, data, now))
  {
    hide Out;
    assert Framed(ACK_PSH, data) == Payload(data);
    Added(t, PushOne(t, data, now), ACK_PSH, data, now);
  }

  lemma {:induction false} FinishedOut(t: Tcb, next: State, now: TimeVal)
    requires Out(t) && t.nxt == t.iss + |t.sent|
    ensures Out(Finished(t, next, now))
  {
    hide Out;
    assert Framed(FIN_ACK, []) == [Fin];
    Added(t, Finished(t, next, now), FIN_ACK, [], now);
  }

  lemma {:induction false} CloseOut(t: Tcb, now: TimeVal)
    requires AllOut(t) && (Live(t.state) ==> Numbered(t))
    ensures AllOut(Close(t, now))
  {
    hide Out, Finished;
    if t.state in {SynReceived, Established} { FinishedOut(t, FinWait1, now); }
    if t.state == CloseWait { FinishedOut(t, LastAck, now); }
  }

  lemma {:induction false} TickOut(t: Tcb, now: TimeVal)
    requires AllOut(t)
    ensures AllOut(Tick(t, now))
  {
    hide OctetOut, EntryOut, Told, Due, Overdue, Resends;
    var u := Tick(t, now);
    if Live(u.state) {
      assert Live(t.state);
      forall i | 0 <= i < |u.queue|
        ensures OneOf(t.queue, u.queue[i])
      {
        assert Alike(t.queue[i], u.queue[i]);
      }
      if t.state != SynSent { ToldGrows(t, u.wire); }
      OutKept(t, u);
    }
  }

  /** Every event keeps it so. */
  lemma {:induction false} StepOut(t: Tcb, ev: Event, now: TimeVal)
    requires Inv(t) && AllOut(t) && Possible(ev) && Fits(t, ev) && Legal(t, ev)
    ensures AllOut(Step(t, ev, now))
  {
    hide Out, Begun, Arrives, Push, Close, Tick;
    match ev
    case Arrive(s, iss) => ArrivesOut(t, s, now, iss);
    case SendData(data, mss, refuse) => if t.state in {Established, CloseWait} { PushOut(t, data, mss, now, refuse); }
    case CloseCall => CloseOut(t, now);
    case Timer => TickOut(t, now);
    case ConnectTo(iss, refused) =>
      var u := Begun(t.(rcvWnd := BUF_SIZE), SynSent, iss, SYN, now);
      BegunOut(t.(rcvWnd := BUF_SIZE), SynSent, iss, SYN, now);
      Unsent(u, u.(waits := t.waits + [SynSent]));
    case WakeOpenCall(call) => if Live(t.state) { Unsent(t, t.(waits := Step(t, ev, now).waits)); }
    case ReceiveData(size) => if Live(t.state) { Unsent(t, Receive(t, size)); }
    case _ =>
  }

  lemma {:induction false} Unsent(t: Tcb, u: Tcb)
    requires Out(t) && u == t.(waits := u.waits, rcvWnd := u.rcvWnd)
    ensures Out(u)
  {
  }

  /** In every run from a new control block. */
  lemma {:induction false} RunOut(t: Tcb, run: seq<Moment>)
    requires forall i | 0 <= i < |run| :: Possible(run[i].ev)
    requires Inv(t) && AllOut(t) && Proper(t, run)
    ensures AllOut(Run(t, run))
    decreases |run|
  {
    hide Inv, AllOut, Step, Fits, Legal;
    if run != [] {
      StepInv(t, run[0].ev, run[0].now);
      StepOut(t, run[0].ev, run[0].now);
      RunOut(Step(t, run[0].ev, run[0].now), run[1..]);
    }
  }

  // ----- what single calls put out -----

  /** Segments that carry `data` one behind the other from number `n` on, each as large as it can be. */
  ghost predicate Slices(segs: seq<Segment>, n: nat, data: seq<Byte>, mss: nat, ack: nat, wnd: nat)
  {
    if segs == [] then data == []
    else
      var k := |segs[0].data|;
      0 < k <= |data| && k == Min(mss, |data|) && segs[0] == Segment(n, ack, ACK_PSH, wnd, data[..k])
      && Slices(segs[1..], n + k, data[k..], mss, ack, wnd)
  }

  /** What `u` has put out since `t` carries `data`, and acknowledges what has come in. */
  ghost predicate PutOut(t: Tcb, u: Tcb, data: seq<Byte>, mss: nat)
  {
    t.wire <= u.wire && Slices(u.wire[|t.wire|..], t.nxt, data, mss, t.rcvNxt, t.rcvWnd)
  }

  /** tcp_send puts out exactly the data it takes. */
  lemma {:induction false} PushWire(t: Tcb, data: seq<Byte>, mss: nat, now: TimeVal, refuse: nat)
    requires mss > 0 && t.una <= t.nxt && t.nxt + |data| < U32
    ensures var (u, k, o) := Push(t, data, mss, now, refuse);
            o != Failed ==> k == Min(|data|, Room(t)) && PutOut(t, u, data[..k], mss)
    decreases |data|
  {
    hide Room, PushOne, PutOut;
    PushSends(t, data, mss, now, refuse);
    if data != [] && Room(t) != 0 && refuse != 0 {
      var n := SliceLen(t, data, mss);
      var v := PushOne(t, data[..n], now);
      OneSent(t, data[..n], now);
      RoomAfter(t, v, n);
      PushSends(v, data[n..], mss, now, refuse - 1);
      PushWire(v, data[n..], mss, now, refuse - 1);
      var (u, k, o) := Push(v, data[n..], mss, now, refuse - 1);
      if o != Failed { OneMoreOut(t, u, data, n, k, mss, now); }
    } else {
      NoneOut(t, mss);
      assert data[..0] == [];
    }
  }

  lemma {:induction false} NoneOut(t: Tcb, mss: nat)
    ensures PutOut(t, t, [], mss)
  {
  }

  lemma {:induction false} OneMoreOut(t: Tcb, u: Tcb, data: seq<Byte>, n: nat, k: nat, mss: nat, now: TimeVal)
    requires 0 < n && n + k <= |data| && n == Min(mss, n + k) && t.nxt + n < U32
    requires PutOut(PushOne(t, data[..n], now), u, data[n..][..k], mss)
    ensures PutOut(t, u, data[..n + k], mss)
  {
    var v := PushOne(t, data[..n], now);
    var d := data[..n + k];
    assert v.wire == t.wire + [Segment(t.nxt, t.rcvNxt, ACK_PSH, t.rcvWnd, data[..n])];
    assert u.wire[|t.wire|..][1..] == u.wire[|v.wire|..];
    assert d[..n] == data[..n] && d[n..] == data[n..][..k];
  }

  /** The segment carries the octets of the connection at its number. */
  ghost predicate Truthful(t: Tcb, s: Segment)
  {
    && t.una <= s.num && t.iss <= s.num && s.num - t.iss + |Carried(s)| <= |t.sent|
    && Carried(s) == Stretch(t.sent, s.num - t.iss, |Carried(s)|)
    && s.ack == t.rcvNxt && s.wnd == t.rcvWnd
  }

  ghost predicate SegmentOf(r: seq<Segment>, e: Entry)
  {
    exists j :: 0 <= j < |r| && Same(r[j], e)
  }

  ghost predicate DueOne(q: seq<Entry>, now: TimeVal, s: Segment)
  {
    exists i :: 0 <= i < |q| && Due(q[i], now) && Same(s, q[i])
  }

  ghost predicate Resent(t: Tcb, q: seq<Entry>, now: TimeVal, s: Segment)
  {
    DueOne(q, now, s) && s.ack == t.rcvNxt && s.wnd == t.rcvWnd
  }

  /** One behind the other, without overlap. */
  ghost predicate InTurn(r: seq<Segment>)
  {
    forall j, k | 0 <= j < k < |r| :: r[j].num + |Carried(r[j])| <= r[k].num
  }

  /** The timer puts out every due segment, each once, in the order of their numbers, with the octets at its number; nothing
      else goes out. */
  lemma {:induction false} TickWire(t: Tcb, now: TimeVal)
    requires Live(t.state) && Inv(t) && Faithful(t) && !(t.state == TimeWait && now.Micros() > t.tw.Micros())
    ensures t.wire <= Tick(t, now).wire
    ensures var r := Tick(t, now).wire[|t.wire|..];
            && (forall i | 0 <= i < |t.queue| && Due(t.queue[i], now) :: SegmentOf(r, t.queue[i]))
            && (forall j | 0 <= j < |r| :: Truthful(t, r[j]) && DueOne(t.queue, now, r[j]))
            && InTurn(r)
  {
    hide Due, Overdue, Tiles, Resends, Tick, InTurn, Numbered, Framed, Stretch;
    TickAdds(t, now);
    var r := Tick(t, now).wire[|t.wire|..];
    DueOut(t, t.queue, now);
    OnlyDue(t, t.queue, now);
    ResendsInTurn(t, t.queue, t.una, t.sent[t.una - t.iss..], now);
    forall j | 0 <= j < |r|
      ensures Truthful(t, r[j])
    {
      assert Resent(t, t.queue, now, r[j]);
      var i :| 0 <= i < |t.queue| && Due(t.queue[i], now) && Same(r[j], t.queue[i]);
      ResendsOctets(t, i);
    }
  }

  lemma {:induction false} TickAdds(t: Tcb, now: TimeVal)
    requires t.state != Free && !(t.state == TimeWait && now.Micros() > t.tw.Micros())
    ensures t.wire <= Tick(t, now).wire && Tick(t, now).wire[|t.wire|..] == Resends(t, t.queue, now)
  {
    hide Resends, EmittedAll, Overdue;
  }

  lemma {:induction false} DueOut(t: Tcb, q: seq<Entry>, now: TimeVal)
    ensures forall i | 0 <= i < |q| && Due(q[i], now) :: SegmentOf(Resends(t, q, now), q[i])
  {
    hide Due;
    if q != [] {
      var r, rest := Resends(t, q, now), Resends(t, q[1..], now);
      var d := if Due(q[0], now) then 1 else 0;
      DueOut(t, q[1..], now);
      if d == 1 { assert Same(r[0], q[0]); }
      forall i | 0 < i < |q| && Due(q[i], now)
        ensures SegmentOf(r, q[i])
      {
        assert SegmentOf(rest, q[1..][i - 1]);
        var j :| 0 <= j < |rest| && Same(rest[j], q[i]);
        assert r[d + j] == rest[j];
      }
    }
  }

  lemma {:induction false} OnlyDue(t: Tcb, q: seq<Entry>, now: TimeVal)
    ensures forall j | 0 <= j < |Resends(t, q, now)| :: Resent(t, q, now, Resends(t, q, now)[j])
  {
    hide Due;
    if q != [] {
      var r, rest := Resends(t, q, now), Resends(t, q[1..], now);
      var d := if Due(q[0], now) then 1 else 0;
      OnlyDue(t, q[1..], now);
      if d == 1 { assert Same(r[0], q[0]); }
      forall j | d <= j < |r|
        ensures Resent(t, q, now, r[j])
      {
        assert r[j] == rest[j - d] && Resent(t, q[1..], now, rest[j - d]);
        var i :| 0 <= i < |q[1..]| && Due(q[1..][i], now) && Same(rest[j - d], q[1..][i]);
        assert q[i + 1] == q[1..][i];
      }
    }
  }

  lemma {:induction false} ResendsInTurn(t: Tcb, q: seq<Entry>, una: nat, o: seq<Octet>, now: TimeVal)
    requires Tiles(q, una, o)
    ensures InTurn(Resends(t, q, now)) && forall j | 0 <= j < |Resends(t, q, now)| :: una <= Resends(t, q, now)[j].num
  {
    hide Due, Framed;
    if q != [] {
      var k := |Octets(q[0])|;
      var r, rest := Resends(t, q, now), Resends(t, q[1..], now);
      var d := if Due(q[0], now) then 1 else 0;
      ResendsInTurn(t, q[1..], una + k, o[k..], now);
      assert |r| == d + |rest| && forall j | d <= j < |r| :: r[j] == rest[j - d];
      if d == 1 { assert Carried(r[0]) == Octets(q[0]); }
    }
  }

  /** A segment that waits alone goes out again by the timer as soon as 0.2 seconds have passed since. */
  lemma {:induction false} FirstResend(t: Tcb, flags: Flags, data: seq<Byte>, sentAt: TimeVal, now: TimeVal)
    requires t.queue == [] && Queued(flags, data) && !(t.state in {Free, TimeWait})
    requires now.Micros() - sentAt.Micros() < RETRANSMIT_DEADLINE * 1000000
    ensures var u := Output(t, flags, data, sentAt);
            Tick(u, now).wire == if now.Micros() > sentAt.Micros() + 200000 then u.wire + [u.wire[|t.wire|]] else u.wire
  {
    var u := Output(t, flags, data, sentAt);
    assert u.queue[1..] == [] && Resends(u, u.queue[1..], now) == [];
  }

  /** What is out of the window, acknowledges nothing or acknowledges what was never sent changes nothing; it is answered by
      the state of the connection as it is, unless it is a reset or does not acknowledge. */
  lemma {:induction false} Refused(t: Tcb, s: Segment, now: TimeVal, iss: nat)
    requires Inv(t) && t.state in {Established, FinWait1, FinWait2, CloseWait, Closing}
    requires !InWindow(t, s) || (!s.flags.rst && !s.flags.syn && (!s.flags.ack || t.nxt < s.ack))
    ensures Arrives(t, s, now, iss)
            == if !s.flags.rst && (s.flags.ack || !InWindow(t, s))
               then t.(wire := t.wire + [Segment(t.nxt, t.rcvNxt, ACK, t.rcvWnd, [])]) else t
  {
    hide InWindow;
  }

  /** A segment that is older than the one the window was taken from leaves the window as it is; a newer one that
      acknowledges something new sets it. */
  lemma {:induction false} NewestWindow(t: Tcb, s: Segment, r: Segment)
    requires t.state != TimeWait && NewAck(t, s) && t.wl1 < s.num
    ensures var u := Acked(t, s);
            && u.wnd == s.wnd && (r.num < s.num || (r.num == s.num && r.ack < s.ack) ==> Acked(u, r).wnd == u.wnd)
            && (NewAck(u, r) && (r.num > s.num || (r.num == s.num && r.ack >= s.ack)) ==> Acked(u, r).wnd == r.wnd)
  {
    hide Cleanup;
  }

  /** Whoever sends to a block without a connection is answered by a reset that it takes: a peer in step with what it has
      received, unless its window wraps, and a peer that has sent its SYN. */
  lemma {:induction false} ResetReaches(t: Tcb, p: Tcb, s: Segment, now: TimeVal, iss: nat, peerIss: nat)
    requires (t.state in {Free, Closed} || (t.state == Listen && s.flags.ack)) && !s.flags.rst
    requires (Synchronized(p.state) && s.flags.ack && s.ack == p.rcvNxt < U32 && p.rcvWnd < 0x10000)
             || (Inv(p) && p.state == SynSent && s == Segment(p.iss, p.rcvNxt, SYN, p.rcvWnd, []))
    ensures var u := Arrives(t, s, now, iss);
            |u.wire| == |t.wire| + 1 && u == t.(wire := u.wire)
            && (if s.flags.ack then u.wire[|t.wire|].ack == 0 else u.wire[|t.wire|].num == 0)
            && (Arrives(p, u.wire[|t.wire|], now, peerIss) == Released(p)
                <==> p.state == SynSent || p.rcvNxt + p.rcvWnd < U32 || p.rcvWnd == 0)
  {
    var u := Arrives(t, s, now, iss);
    var r := u.wire[|t.wire|];
    if p.state != SynSent {
      assert r == Segment(p.rcvNxt, 0, RST, 0, []);
    }
  }
}
