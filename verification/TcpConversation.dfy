/** Two blocks of kernel/network/tcp.c that talk to each other: one connects to the other, data that is sent arrives and is
    acknowledged, and closing, by one side or by both at the same time, releases both. */
module TcpConversation {
  import opened Basics
  import opened TimeVals
  import opened TcpState
  import opened TcpSafety
  import opened TcpLimits
  import opened TcpWire

  function Last(t: Tcb): Segment
    requires t.wire != []
  {
    t.wire[|t.wire| - 1]
  }

  /** The segments arrive in the order in which they went out. */
  function Hear(p: Tcb, segs: seq<Segment>, now: TimeVal): Tcb
    decreases |segs|
  {
    if segs == [] then p else Hear(Arrives(p, segs[0], now, 0), segs[1..], now)
  }

  /** The windows do not wrap. */
  predicate Unwrapped(t: Tcb)
  {
    t.nxt + 1 < U32 && t.rcvNxt + 1 + t.rcvWnd < U32 && t.rcvWnd < 0x10000
  }

  // ----- opening -----

  /** A SYN, the answer to it, and the answer to that connect a block with one that listens, unless the window of the one that
      listens wraps. */
  lemma {:induction false} Handshake(a: Tcb, b: Tcb, issA: nat, issB: nat, now: TimeVal, a1: Tcb, b1: Tcb, a2: Tcb, b2: Tcb)
    requires a.queue == [] && b.state == Listen && b.queue == [] && issA + 1 < U32 && issB + 1 < U32
    requires a1 == Connect(a, issA, now, false) && a1.wire != []
    requires b1 == Arrives(b, Last(a1), now, issB) && b1.wire != []
    requires a2 == Arrives(a1, Last(b1), now, 0) && a2.wire != []
    requires b2 == Arrives(b1, Last(a2), now, 0)
    ensures a1.state == SynSent && b1.state == SynReceived && a2.state == Established
    ensures a2.una == a2.nxt == issA + 1 && a2.rcvNxt == issB + 1 && a2.rcvWnd == a2.wnd == BUF_SIZE && a2.queue == []
            && a2.wl1 == issB && a2.wl2 == a2.una
    ensures b2.state == Established <==> issA + 1 + BUF_SIZE < U32
    ensures b2.state == Established ==>
              b2.una == b2.nxt == issB + 1 && b2.rcvNxt == issA + 1 && b2.rcvWnd == BUF_SIZE && b2.queue == []
              && (b.wl1 <= issA ==> b2.wnd == BUF_SIZE)
  {
    hide Arrives, Connect, Last;
    SynOut(a, issA, now);
    SynHeard(b, Last(a1), now, issB);
    SynAckHeard(a1, Last(b1), now);
    AckHeard(b1, Last(a2), now);
  }

  lemma {:induction false} SynOut(a: Tcb, iss: nat, now: TimeVal)
    requires a.queue == [] && iss + 1 < U32
    ensures var u := Connect(a, iss, now, false);
            u.wire != [] && Last(u) == Segment(iss, a.rcvNxt, SYN, BUF_SIZE, []) && u.state == SynSent && u.iss == u.una == iss
            && u.nxt == iss + 1 && u.rcvWnd == BUF_SIZE && u.queue == [Entry(now, now, DEFAULT_RTO, iss, SYN, [])]
  {
  }

  lemma {:induction false} SynHeard(b: Tcb, s: Segment, now: TimeVal, iss: nat)
    requires b.state == Listen && b.queue == [] && s.flags == SYN && s.num + 1 < U32 && iss + 1 < U32
    ensures var u := Arrives(b, s, now, iss);
            u.wire != [] && Last(u) == Segment(iss, s.num + 1, SYN_ACK, BUF_SIZE, []) && u.state == SynReceived
            && u.iss == u.una == iss && u.nxt == iss + 1 && u.rcvNxt == s.num + 1 && u.rcvWnd == BUF_SIZE
            && u.queue == [Entry(now, now, DEFAULT_RTO, iss, SYN_ACK, [])] && u.wl1 == b.wl1
  {
  }

  lemma {:induction false} SynAckHeard(a: Tcb, s: Segment, now: TimeVal)
    requires a.state == SynSent && a.una == a.iss && a.nxt == a.iss + 1 && |a.queue| == 1 && a.queue[0].num == a.iss
    requires s.flags == SYN_ACK && s.ack == a.nxt && s.num + 1 < U32
    ensures var u := Arrives(a, s, now, 0);
            u.wire != [] && Last(u) == Segment(a.nxt, s.num + 1, ACK, a.rcvWnd, []) && u.state == Established
            && u.una == u.nxt == a.nxt && u.rcvNxt == s.num + 1 && u.rcvWnd == a.rcvWnd && u.wnd == s.wnd && u.queue == []
            && u.wl1 == s.num && u.wl2 == s.ack
  {
    assert a.queue[1..] == [] && Cleanup(a.queue, s.ack) == [];
  }

  /** A pure acknowledgment of all that is out, in step with what has come in. */
  lemma {:induction false} AckHeard(b: Tcb, s: Segment, now: TimeVal)
    requires b.state == SynReceived && b.una == b.iss && b.nxt == b.iss + 1 && |b.queue| == 1 && b.queue[0].num == b.iss
    requires s == Segment(b.rcvNxt, b.nxt, ACK, s.wnd, []) && 0 < b.rcvWnd < 0x10000 && b.rcvNxt < U32
    ensures var u := Arrives(b, s, now, 0);
            if b.rcvNxt + b.rcvWnd < U32 then
              u.state == Established && u.una == u.nxt == b.nxt && u.rcvNxt == b.rcvNxt && u.rcvWnd == b.rcvWnd && u.queue == []
              && (b.wl1 < s.num ==> u.wnd == s.wnd)
            else u.state == SynReceived
  {
    hide Cleanup;
    assert Cleanup(b.queue, s.ack) == [] by { NoneLeft(b.queue, s.ack); }
    if b.rcvNxt + b.rcvWnd >= U32 { assert !InWindow(b, s); }
  }

  lemma {:induction false} NoneLeft(q: seq<Entry>, a: nat)
    requires forall i | 0 <= i < |q| :: q[i].num < a
    ensures Cleanup(q, a) == []
  {
    if q != [] { NoneLeft(q[1..], a); }
  }

  /** Blocks that open calls wait on are told: both calls return as soon as they get their turn. */
  lemma {:induction false} BothReturn(a: Tcb, b: Tcb, issA: nat, issB: nat, now: TimeVal, a1: Tcb, b1: Tcb, a2: Tcb, b2: Tcb)
    requires a.queue == [] && a.waits == [] && b.state == Free && b.queue == [] && b.waits == []
    requires issA + 1 + BUF_SIZE < U32 && issB + 1 < U32
    requires a1 == Connect(a, issA, now, false) && a1.wire != []
    requires b1 == Arrives(PassiveOpen(b), Last(a1), now, issB) && b1.wire != []
    requires a2 == Arrives(a1, Last(b1), now, 0) && a2.wire != []
    requires b2 == Arrives(b1, Last(a2), now, 0)
    ensures a1.waits == [SynSent] && WakeOpen(a1, 0) == a1 && WakeOpen(PassiveOpen(b), 0) == PassiveOpen(b)
    ensures WakeOpen(b1, 0) == b1.(waits := [SynReceived])
    ensures WakeOpen(a2, 0) == a2.(waits := []) && WakeOpen(b2, 0) == b2.(waits := [])
  {
    hide Arrives, Last, Begun;
    Handshake(a, PassiveOpen(b), issA, issB, now, a1, b1, a2, b2);
    ArrivesWaits(PassiveOpen(b), Last(a1), now, issB);
    ArrivesWaits(a1, Last(b1), now, 0);
    ArrivesWaits(b1, Last(a2), now, 0);
    BegunWaits(a.(rcvWnd := BUF_SIZE), SynSent, issA, SYN, now);
  }

  lemma {:induction false} BegunWaits(t: Tcb, state: State, iss: nat, flags: Flags, now: TimeVal)
    ensures Begun(t, state, iss, flags, now).waits == t.waits && Begun(t, state, iss, flags, now).state == state
  {
  }

  // ----- data -----

  /** In step: what one side has sent the other has received, and the windows do not wrap. */
  predicate InStep(t: Tcb, p: Tcb)
  {
    t.nxt == p.rcvNxt && p.nxt == t.rcvNxt && Unwrapped(t) && Unwrapped(p)
  }

  /** A data segment that starts where the receiver stands is taken as a whole and acknowledged at once. */
  lemma {:induction false} TextHeard(p: Tcb, s: Segment, now: TimeVal)
    requires TakesText(p.state) && Unwrapped(p) && s.flags == ACK_PSH && s.num == p.rcvNxt && 0 < |s.data| <= p.rcvWnd
    requires s.ack <= p.nxt && (p.state == SynReceived ==> p.una <= s.ack)
    ensures var q := Arrives(p, s, now, 0);
            TakesText(q.state) && q.state != SynReceived && q.rcvNxt == p.rcvNxt + |s.data| && q.rcvWnd == p.rcvWnd - |s.data|
            && q.nxt == p.nxt && q.wire == p.wire + [Segment(q.nxt, q.rcvNxt, ACK, q.rcvWnd, [])]
    ensures p.state == Established ==> Arrives(p, s, now, 0).state == Established
  {
    hide Cleanup;
    var n := |s.data|;
    assert SegLen(s) == n && (p.rcvNxt + n) % U32 == p.rcvNxt + n && (p.rcvWnd - n) % 0x10000 == p.rcvWnd - n;
    assert InWindow(p, s);
  }

  /** Data segments one behind the other are all taken, each where the receiver stands, and each is acknowledged. */
  lemma {:induction false} SlicesHeard(p: Tcb, segs: seq<Segment>, data: seq<Byte>, mss: nat, ack: nat, wnd: nat, now: TimeVal)
    requires Slices(segs, p.rcvNxt, data, mss, ack, wnd)
    requires TakesText(p.state) && Unwrapped(p) && |data| <= p.rcvWnd && ack <= p.nxt && (p.state == SynReceived ==> p.una <= ack)
    ensures var q := Hear(p, segs, now);
            TakesText(q.state) && q.rcvNxt == p.rcvNxt + |data| && q.rcvWnd == p.rcvWnd - |data| && q.nxt == p.nxt
            && |q.wire| == |p.wire| + |segs| && (p.state == Established ==> q.state == Established)
            && (segs != [] ==> Last(q) == Segment(q.nxt, q.rcvNxt, ACK, q.rcvWnd, []))
    ensures forall i | 0 <= i < |segs| :: Hear(p, segs[..i], now).rcvNxt == segs[i].num
    decreases |segs|
  {
    hide Arrives;
    if segs != [] {
      var k := |segs[0].data|;
      var q := Arrives(p, segs[0], now, 0);
      TextHeard(p, segs[0], now);
      SlicesHeard(q, segs[1..], data[k..], mss, ack, wnd, now);
      forall i | 0 <= i < |segs|
        ensures Hear(p, segs[..i], now).rcvNxt == segs[i].num
      {
        if i > 0 { assert segs[..i][0] == segs[0] && segs[..i][1..] == segs[1..][..i - 1]; }
      }
    }
  }

  /** An acknowledgment of everything that is out empties the queue. */
  lemma {:induction false} AllAckHeard(u: Tcb, s: Segment, now: TimeVal)
    requires Inv(u) && u.state in {Established, CloseWait} && Unwrapped(u) && u.una < u.nxt
    requires s == Segment(u.rcvNxt, u.nxt, ACK, s.wnd, [])
    ensures var v := Arrives(u, s, now, 0);
            v.state == u.state && v.una == v.nxt == u.nxt && v.queue == [] && v.rcvNxt == u.rcvNxt && v.rcvWnd == u.rcvWnd
            && v.wire == u.wire
            && v.wnd == if u.wl1 < s.num || (u.wl1 == s.num && u.wl2 <= s.ack) then s.wnd else u.wnd
  {
    hide Cleanup;
    NoneLeft(u.queue, s.ack);
    assert InWindow(u, s);
  }

  /** What tcp_send takes arrives at a peer in step that has room for it, and the last acknowledgment that comes back empties
      the queue of the sender: both are in step again. */
  lemma {:induction false} Transfer(t: Tcb, p: Tcb, data: seq<Byte>, mss: nat, now: TimeVal, refuse: nat, u: Tcb, k: nat, o: Outcome)
    requires mss > 0 && t.state in {Established, CloseWait} && Inv(t) && t.nxt + |data| + 1 < U32 && InStep(t, p)
    requires p.state in {Established, FinWait1, FinWait2} && Min(|data|, Room(t)) <= p.rcvWnd
    requires (u, k, o) == Push(t, data, mss, now, refuse) && o != Failed && k > 0
    ensures t.wire <= u.wire
    ensures var q := Hear(p, u.wire[|t.wire|..], now);
            q.rcvNxt == u.nxt && q.rcvWnd == p.rcvWnd - k && |q.wire| - |p.wire| == |u.wire| - |t.wire| > 0
            && (var v := Arrives(u, Last(q), now, 0);
                v.una == v.nxt == t.nxt + k && v.queue == [] && v.state == t.state && InStep(v, q))
  {
    hide Room, Push, Arrives, Slices, Hear;
    PushSends(t, data, mss, now, refuse);
    PushWire(t, data, mss, now, refuse);
    PushInv(t, data, mss, now, refuse);
    PushReceives(t, data, mss, now, refuse);
    var segs := u.wire[|t.wire|..];
    SomeSlice(segs, t.nxt, data[..k], mss, t.rcvNxt, t.rcvWnd);
    SlicesHeard(p, segs, data[..k], mss, t.rcvNxt, t.rcvWnd, now);
    AllAckHeard(u, Last(Hear(p, segs, now)), now);
  }

  lemma {:induction false} SomeSlice(segs: seq<Segment>, n: nat, data: seq<Byte>, mss: nat, ack: nat, wnd: nat)
    requires Slices(segs, n, data, mss, ack, wnd) && data != []
    ensures segs != []
  {
  }

  lemma {:induction false} PushReceives(t: Tcb, data: seq<Byte>, mss: nat, now: TimeVal, refuse: nat)
    requires mss > 0
    ensures var (u, k, o) := Push(t, data, mss, now, refuse); o != Failed ==> u.rcvNxt == t.rcvNxt && u.rcvWnd == t.rcvWnd
    decreases |data|
  {
    hide Room, Payload;
    if data != [] && Room(t) != 0 && refuse != 0 {
      var n := SliceLen(t, data, mss);
      PushReceives(PushOne(t, data[..n], now), data[n..], mss, now, refuse - 1);
    }
  }

  // ----- closing -----

  /** A FIN in step is acknowledged, if there is any window. */
  lemma {:induction false} FinHeard(p: Tcb, s: Segment, now: TimeVal)
    requires p.state in {Established, FinWait1, FinWait2} && Unwrapped(p)
    requires s == Segment(p.rcvNxt, s.ack, FIN_ACK, s.wnd, []) && p.una <= s.ack <= p.nxt
    ensures var q := Arrives(p, s, now, 0);
            q.nxt == p.nxt && q.rcvWnd == p.rcvWnd && q.wire != []
            && if p.rcvWnd == 0 then
                 q.state == p.state && Last(q) == Segment(p.nxt, p.rcvNxt, ACK, p.rcvWnd, []) && q.una == p.una && q.queue == p.queue
               else
                 q.rcvNxt == p.rcvNxt + 1 && Last(q) == Segment(p.nxt, p.rcvNxt + 1, ACK, p.rcvWnd, [])
                 && q.state == (if p.state == Established then CloseWait
                                else if p.state == FinWait1 && s.ack < p.nxt then Closing else TimeWait)
                 && (q.state == TimeWait ==> q.tw == TimeVal(now.sec + TIMEWAIT_SEC, now.usec))
  {
    hide Cleanup;
    assert SegLen(s) == 1 && (p.rcvNxt + 1) % U32 == p.rcvNxt + 1;
  }

  lemma {:induction false} FinOut(t: Tcb, now: TimeVal)
    requires Inv(t) && t.state in {Established, CloseWait} && t.nxt + 1 < U32
    ensures var u := Close(t, now);
            Inv(u) && u.state == (if t.state == Established then FinWait1 else LastAck) && u.una == t.una && u.nxt == t.nxt + 1
            && u.rcvNxt == t.rcvNxt && u.rcvWnd == t.rcvWnd && u.wire == t.wire + [Segment(t.nxt, t.rcvNxt, FIN_ACK, t.rcvWnd, [])]
  {
    CloseInv(t, now);
  }

  /** The acknowledgment of a FIN, in step with what has come in. */
  lemma {:induction false} FinAckHeard(u: Tcb, s: Segment, now: TimeVal)
    requires Inv(u) && u.state in {FinWait1, Closing, LastAck} && u.nxt < U32 && u.rcvNxt + u.rcvWnd < U32
    requires s == Segment(u.rcvNxt, u.nxt, ACK, s.wnd, [])
    ensures var v := Arrives(u, s, now, 0);
            if u.state == LastAck then v == Released(u)
            else
              v.state == (if u.state == FinWait1 then FinWait2 else TimeWait) && v.una == v.nxt == u.nxt && v.queue == []
              && v.rcvNxt == u.rcvNxt && v.rcvWnd == u.rcvWnd && v.wire == u.wire
              && (v.state == TimeWait ==> v.tw == TimeVal(now.sec + TIMEWAIT_SEC, now.usec))
  {
    hide Cleanup;
    NoneLeft(u.queue, s.ack);
    assert InWindow(u, s);
  }

  /** A block in TIME_WAIT is released by the first timer after 30 seconds. */
  lemma {:induction false} TimeWaitEnds(t: Tcb, start: TimeVal, now: TimeVal)
    requires Inv(t) && t.state == TimeWait && t.tw == TimeVal(start.sec + TIMEWAIT_SEC, start.usec)
    ensures Tick(t, now) == if now.Micros() > start.Micros() + TIMEWAIT_SEC * 1000000 then Released(t) else t
  {
    hide Numbered;
    Quiet(t);
  }

  /** One side closes, then the other: both blocks are released, the first one 30 seconds after the last segment. */
  lemma {:induction false} Goodbye(a: Tcb, b: Tcb, now: TimeVal, later: TimeVal, a1: Tcb, b1: Tcb, a2: Tcb, b2: Tcb, a3: Tcb)
    requires Inv(a) && Inv(b) && a.state == b.state == Established && InStep(a, b) && a.una == a.nxt && b.una == b.nxt
    requires a.nxt + 2 < U32 && b.nxt + 2 < U32 && a.rcvWnd > 0 && b.rcvWnd > 0
    requires a1 == Close(a, now) && a1.wire != []
    requires b1 == Arrives(b, Last(a1), now, 0) && b1.wire != []
    requires a2 == Arrives(a1, Last(b1), now, 0)
    requires b2 == Close(b1, now) && b2.wire != []
    requires a3 == Arrives(a2, Last(b2), now, 0) && a3.wire != []
    ensures a1.state == FinWait1 && b1.state == CloseWait && a2.state == FinWait2 && b2.state == LastAck && a3.state == TimeWait
    ensures Arrives(b2, Last(a3), now, 0) == Released(b2)
    ensures Tick(a3, later).state == Free <==> later.Micros() > now.Micros() + TIMEWAIT_SEC * 1000000
  {
    hide Close, Arrives, Tick, Numbered;
    FinOut(a, now);
    FinHeard(b, Last(a1), now);
    ArrivesInv(b, Last(a1), now, 0);
    FinAckHeard(a1, Last(b1), now);
    ArrivesInv(a1, Last(b1), now, 0);
    FinOut(b1, now);
    FinHeard(a2, Last(b2), now);
    ArrivesInv(a2, Last(b2), now, 0);
    FinAckHeard(b2, Last(a3), now);
    TimeWaitEnds(a3, now, later);
  }

  /** Both sides close at the same time. */
  lemma {:induction false} BothClose(a: Tcb, b: Tcb, now: TimeVal, a1: Tcb, b1: Tcb, a2: Tcb, b2: Tcb)
    requires Inv(a) && Inv(b) && a.state == b.state == Established && InStep(a, b) && a.una == a.nxt && b.una == b.nxt
    requires a.nxt + 2 < U32 && b.nxt + 2 < U32 && a.rcvWnd > 0 && b.rcvWnd > 0
    requires a1 == Close(a, now) && b1 == Close(b, now) && a1.wire != [] && b1.wire != []
    requires a2 == Arrives(a1, Last(b1), now, 0) && b2 == Arrives(b1, Last(a1), now, 0) && a2.wire != [] && b2.wire != []
    ensures a2.state == b2.state == Closing
    ensures Arrives(a2, Last(b2), now, 0).state == Arrives(b2, Last(a2), now, 0).state == TimeWait
  {
    hide Close, Arrives, Numbered;
    FinOut(a, now);
    FinOut(b, now);
    FinHeard(a1, Last(b1), now);
    FinHeard(b1, Last(a1), now);
    ArrivesInv(a1, Last(b1), now, 0);
    ArrivesInv(b1, Last(a1), now, 0);
    FinAckHeard(a2, Last(b2), now);
    FinAckHeard(b2, Last(a2), now);
  }
}
