/** The protocol control block of kernel/network/tcp.c and its event handlers, each proved to do what
    TcpState says. Segments put out are appended to `wire`; the octets numbered so far are kept in `sent`. */
module Tcp {
  import opened Basics
  import opened TimeVals
  import opened TcpState
  import opened TcpSafety
  import opened TcpWire

  /** The send and receive variables of a control block. */
  datatype Snd = Snd(nxt: nat, una: nat, wnd: nat, wl1: nat, wl2: nat)

  datatype Rcv = Rcv(nxt: nat, wnd: nat)

  class Pcb {
    var state: State
    var snd: Snd
    var iss: nat
    var rcv: Rcv
    var queue: seq<Entry>
    var twTimer: TimeVal
    var wire: seq<Segment>
    /** What the open calls that wait on this block have last seen. */
    var waits: seq<State>
    ghost var sent: seq<Octet>
    ghost var start: nat

    constructor ()
      ensures Valid() && Inv(View()) && Faithful(View()) && AllOut(View())
      ensures View() == Released(View()) && wire == [] && waits == []
    {
      state, snd, iss, rcv := Free, Snd(0, 0, 0, 0, 0), 0, Rcv(0, 0);
      queue, twTimer, wire, waits, sent, start := [], TimeVal(0, 0), [], [], [], 0;
    }

    /** All recorded times are normalized. */
    ghost predicate Valid()
      reads this
    {
      twTimer.Normal() && Timed(queue)
    }

    ghost function View(): Tcb
      reads this
    {
      Tcb(state, snd.una, snd.nxt, snd.wnd, snd.wl1, snd.wl2, iss, rcv.nxt, rcv.wnd, queue, twTimer, sent, wire, start, waits)
    }

    method Release()
      modifies this
      ensures Valid() && View() == Released(old(View()))
    {
      hide Timed;
      NoneTimed();
      state, snd, iss, rcv := Free, Snd(0, 0, 0, 0, 0), 0, Rcv(0, 0);
      queue, twTimer, sent, start := [], TimeVal(0, 0), [], 0;
    }

    /** tcp_output_segment: hands a segment to the network. */
    method OutputSegment(num: nat, ack: nat, flags: Flags, wnd: nat, data: seq<Byte>)
      modifies this`wire
      ensures wire == old(wire) + [Segment(num, ack, flags, wnd, data)]
    {
      wire := wire + [Segment(num, ack, flags, wnd, data)];
    }

    method RetransmitQueueAdd(num: nat, flags: Flags, data: seq<Byte>, now: TimeVal)
      requires Valid() && now.Normal()
      modifies this`queue
      ensures Valid() && queue == old(queue) + [Entry(now, now, DEFAULT_RTO, num, flags, data)]
    {
      hide Timed;
      PushTimed(queue, Entry(now, now, DEFAULT_RTO, num, flags, data));
      queue := queue + [Entry(now, now, DEFAULT_RTO, num, flags, data)];
    }

    /** tcp_retransmit_queue_cleanup */
    method RetransmitQueueCleanup()
      requires Valid()
      modifies this`queue
      ensures Valid() && queue == Cleanup(old(queue), snd.una)
    {
      hide Timed;
      while queue != []
        invariant Valid() && Cleanup(queue, snd.una) == Cleanup(old(queue), snd.una)
        decreases |queue|
      {
        if queue[0].num >= snd.una {
          break;
        }
        TailTimed(queue);
        queue := queue[1..];
      }
    }

    /** tcp_retransmit_queue_emit for the entry at position `i`. */
    method RetransmitQueueEmit(i: nat, now: TimeVal)
      requires Valid() && now.Normal() && i < |queue|
      modifies this`queue, this`state, this`wire
      ensures Valid() && queue == old(queue)[i := Emitted(old(queue[i]), now)]
      ensures state == if Overdue(old(queue[i]), now) then Closed else old(state)
      ensures wire == old(wire) + Resends(old(View()), [old(queue[i])], now)
    {
      hide Timed;
      var entry := queue[i];
      EntryTimed(queue, i, entry.(last := now, rto := entry.rto * 2));
      var diff := Sub(now, entry.first);
      if diff.sec >= RETRANSMIT_DEADLINE {
        state := Closed;
        return;
      }
      var timeout := AddUsec(entry.last, entry.rto);
      if After(now, timeout) {
        OutputSegment(entry.num, rcv.nxt, entry.flags, rcv.wnd, entry.data);
        queue := queue[i := entry.(last := now, rto := entry.rto * 2)];
      }
    }

    /** tcp_output */
    method Output(flags: Flags, data: seq<Byte>, now: TimeVal)
      requires Valid() && now.Normal()
      modifies this`queue, this`wire
      ensures Valid() && View() == TcpState.Output(old(View()), flags, data, now)
    {
      hide Timed;
      var num := snd.nxt;
      if flags.syn {
        num := iss;
      }
      if flags.syn || flags.fin || data != [] {
        RetransmitQueueAdd(num, flags, data, now);
      }
      OutputSegment(num, rcv.nxt, flags, rcv.wnd, data);
    }

    method SetTimewaitTimer(now: TimeVal)
      requires now.Normal()
      modifies this`twTimer
      ensures twTimer == TimeVal(now.sec + TIMEWAIT_SEC, now.usec)
    {
      twTimer := TimeVal(now.sec + TIMEWAIT_SEC, now.usec);
    }

    /** tcp_segment_arrives: RFC 793, section 3.9. */
    method SegmentArrives(s: Segment, now: TimeVal, newIss: nat)
      requires Valid() && now.Normal()
      modifies this
      ensures Valid() && View() == Arrives(old(View()), s, now, newIss)
    {
      hide Timed, TcpState.Output, InWindow, Deliver, Cleanup;
      if state == Free || state == Closed {
        if s.flags.rst {
          return;
        }
        if !s.flags.ack {
          OutputSegment(0, (s.num + SegLen(s)) % U32, RST_ACK, 0, []);
        } else {
          OutputSegment(s.ack, 0, RST, 0, []);
        }
      } else if state == Listen {
        SegmentArrivesListen(s, now, newIss);
      } else if state == SynSent {
        SegmentArrivesSynSent(s, now);
      } else {
        SegmentArrivesSynchronized(s, now);
      }
    }

    method SegmentArrivesListen(s: Segment, now: TimeVal, newIss: nat)
      requires Valid() && now.Normal() && state == Listen
      modifies this
      ensures Valid() && View() == ArrivesListen(old(View()), s, now, newIss)
    {
      hide Timed, TcpState.Output;
      if s.flags.rst {
        return;
      }
      if s.flags.ack {
        OutputSegment(s.ack, 0, RST, 0, []);
        return;
      }
      if s.flags.syn {
        rcv := Rcv((s.num + 1) % U32, BUF_SIZE);
        iss := newIss;
        Output(SYN_ACK, [], now);
        OneMoreSegment(old(View()), View(), newIss, SYN_ACK, now);
        snd := snd.(nxt := (iss + 1) % U32, una := iss);
        state := SynReceived;
        sent, start := [Syn], |wire| - 1;
      }
    }

    method SegmentArrivesSynSent(s: Segment, now: TimeVal)
      requires Valid() && now.Normal() && state == SynSent
      modifies this
      ensures Valid() && View() == ArrivesSynSent(old(View()), s, now)
    {
      hide Timed, TcpState.Output, Cleanup;
      var acceptable := false;
      if s.flags.ack {
        if s.ack <= iss || s.ack > snd.nxt {
          OutputSegment(s.ack, 0, RST, 0, []);
          return;
        }
        if snd.una <= s.ack && s.ack <= snd.nxt {
          acceptable := true;
        }
      }
      if s.flags.rst {
        if acceptable {
          Release();
        }
        return;
      }
      if s.flags.syn {
        rcv := rcv.(nxt := (s.num + 1) % U32);
        if acceptable {
          snd := snd.(una := s.ack);
          RetransmitQueueCleanup();
        }
        if snd.una > iss {
          state := Established;
          Output(ACK, [], now);
          snd := snd.(wnd := s.wnd, wl1 := s.num, wl2 := s.ack);
        } else {
          state := SynReceived;
          Output(SYN_ACK, [], now);
        }
      }
    }

    method SegmentArrivesSynchronized(s: Segment, now: TimeVal)
      requires Valid() && now.Normal() && Synchronized(state)
      modifies this
      ensures Valid() && View() == ArrivesSynchronized(old(View()), s, now)
    {
      hide Timed, TcpState.Output, InWindow, Cleanup, Acked, Text, TakeFin, Next;
      var acceptable := CheckSequence(s);
      if !acceptable {
        if !s.flags.rst {
          Output(ACK, [], now);
        }
        return;
      }
      if s.flags.rst {
        Release();
        return;
      }
      if s.flags.syn {
        Output(RST, [], now);
        Release();
        return;
      }
      if !s.flags.ack {
        return;
      }
      ghost var t := View();
      var more := CheckAck(s, now);
      if more {
        AfterText(t, s, now);
        ProcessText(s, now);
        CheckFin(t, s, now);
        Delivers(t, s, now);
      }
    }

    method CheckSequence(s: Segment) returns (acceptable: bool)
      ensures acceptable <==> InWindow(View(), s)
    {
      acceptable := false;
      var n := SegLen(s);
      if n == 0 {
        if rcv.wnd == 0 {
          if s.num == rcv.nxt {
            acceptable := true;
          }
        } else {
          if rcv.nxt <= s.num && s.num < (rcv.nxt + rcv.wnd) % U32 {
            acceptable := true;
          }
        }
      } else {
        if rcv.wnd != 0 {
          if (rcv.nxt <= s.num && s.num < (rcv.nxt + rcv.wnd) % U32)
             || (rcv.nxt <= (s.num + n - 1) % U32 && (s.num + n - 1) % U32 < (rcv.nxt + rcv.wnd) % U32) {
            acceptable := true;
          }
        }
      }
    }

    /** The fifth step; `more` when the segment is to be processed further. */
    method CheckAck(s: Segment, now: TimeVal) returns (more: bool)
      requires Valid() && now.Normal() && Synchronized(state)
      modifies this
      ensures Valid()
      ensures var t := old(View());
              if t.state == SynReceived && !(t.una <= s.ack <= t.nxt) then !more && View() == Reply(t, s.ack, 0, RST)
              else if t.state == LastAck then !more && View() == if s.ack == t.nxt then Released(t) else t
              else if AcksUnsent(t, s) then
                !more && View() == TcpState.Output(if t.state == SynReceived then t.(state := Established) else t, ACK, [], now)
              else more && View() == AfterAck(t, s, now)
    {
      hide Timed, TcpState.Output, Cleanup;
      if state == LastAck {
        if s.ack == snd.nxt {
          Release();
        }
        return false;
      }
      if state == TimeWait {
        if s.flags.fin {
          SetTimewaitTimer(now);
        }
        return true;
      }
      if state == SynReceived {
        if snd.una <= s.ack && s.ack <= snd.nxt {
          state := Established;
        } else {
          OutputSegment(s.ack, 0, RST, 0, []);
          return false;
        }
      }
      if snd.una < s.ack && s.ack <= snd.nxt {
        snd := snd.(una := s.ack);
        RetransmitQueueCleanup();
        if snd.wl1 < s.num || (snd.wl1 == s.num && snd.wl2 <= s.ack) {
          snd := snd.(wnd := s.wnd, wl1 := s.num, wl2 := s.ack);
        }
      } else if s.ack < snd.una {
      } else if s.ack > snd.nxt {
        Output(ACK, [], now);
        return false;
      }
      match state {
        case FinWait1 =>
          if s.ack == snd.nxt {
            state := FinWait2;
          }
        case Closing =>
          if s.ack == snd.nxt {
            state := TimeWait;
            SetTimewaitTimer(now);
          }
        case _ =>
      }
      return true;
    }

    /** The seventh step. */
    method ProcessText(s: Segment, now: TimeVal)
      requires Valid() && now.Normal() && state != SynReceived
      modifies this
      ensures Valid() && View() == Text(old(View()), s, now)
    {
      hide Timed, TcpState.Output;
      if state == Established || state == FinWait1 || state == FinWait2 {
        if s.data != [] {
          rcv := Rcv((s.num + SegLen(s)) % U32, (rcv.wnd - |s.data|) % 0x10000);
          Output(ACK, [], now);
        }
      }
    }

    /** The eighth step; `t` is the control block as the segment found it. */
    method CheckFin(ghost t: Tcb, s: Segment, now: TimeVal)
      requires Valid() && now.Normal() && Synchronized(t.state) && t.state != LastAck
      requires state == Mid(t.state, s.ack == t.nxt) && snd.nxt == t.nxt
      modifies this
      ensures Valid()
      ensures var next := Next(t.state, s.ack == t.nxt, s.flags.fin);
              var u := TakeFin(old(View()), s, now);
              View() == u.(state := next,
                           tw := if s.flags.fin && next == TimeWait then TimeVal(now.sec + TIMEWAIT_SEC, now.usec) else u.tw)
    {
      hide Timed, TcpState.Output;
      if s.flags.fin {
        rcv := rcv.(nxt := (s.num + 1) % U32);
        Output(ACK, [], now);
        match state {
          case SynReceived =>
            assert false;
          case Established =>
            state := CloseWait;
          case FinWait1 =>
            if s.ack == snd.nxt {
              assert false;
            } else {
              state := Closing;
            }
          case FinWait2 =>
            state := TimeWait;
            SetTimewaitTimer(now);
          case TimeWait =>
            SetTimewaitTimer(now);
          case _ =>
        }
      }
    }

    /** One segment of tcp_send. */
    method PushSegment(data: seq<Byte>, now: TimeVal, refused: bool)
      requires Valid() && now.Normal()
      modifies this
      ensures Valid()
      ensures View() == if refused then Released(TcpState.Output(old(View()), ACK_PSH, data, now)) else PushOne(old(View()), data, now)
    {
      hide Timed, TcpState.Output, Payload;
      Output(ACK_PSH, data, now);
      if refused {
        Release();
        return;
      }
      snd := snd.(nxt := (snd.nxt + |data|) % U32);
      sent := sent + Payload(data);
    }

    /** tcp_send without waiting: `k` octets are taken. */
    method Send(data: seq<Byte>, mss: nat, now: TimeVal, refuse: nat) returns (k: nat, outcome: Outcome)
      requires Valid() && now.Normal() && mss > 0
      modifies this
      ensures Valid() && (View(), k, outcome) == TcpState.Send(old(View()), data, mss, now, refuse)
    {
      hide Timed, TcpState.Output, PushOne, Released, Payload, Push;
      k := 0;
      match state {
        case Established =>
        case CloseWait =>
        case _ => return 0, Failed;
      }
      ghost var t0 := View();
      var left := refuse;
      assert data[0..] == data;
      while k < |data|
        invariant Valid() && k <= |data|
        invariant Push(t0, data, mss, now, refuse) == Plus(k, Push(View(), data[k..], mss, now, left))
      {
        var cap := (snd.wnd - (snd.nxt - snd.una) % U32) % U32;
        if cap == 0 {
          PushStops(View(), data[k..], mss, now, left);
          return k, Blocked;
        }
        var slen := if mss <= |data| - k && mss <= cap then mss else if |data| - k <= cap then |data| - k else cap;
        PushStep(View(), data[k..], mss, now, left);
        assert data[k..][..slen] == data[k..k + slen] && data[k..][slen..] == data[k + slen..];
        PushSegment(data[k..k + slen], now, left == 0);
        if left == 0 {
          return k, Failed;
        }
        left, k := left - 1, k + slen;
      }
      PushStops(View(), data[k..], mss, now, left);
      outcome := Done;
    }

    /** tcp_close; `ok` is false where the source returns -1. */
    method Close(now: TimeVal) returns (ok: bool)
      requires Valid() && now.Normal()
      modifies this
      ensures Valid() && View() == TcpState.Close(old(View()), now)
      ensures ok <==> old(state) in {Listen, SynSent, SynReceived, Established, CloseWait}
    {
      hide Timed, TcpState.Output;
      match state {
        case Listen =>
          state := Closed;
        case SynSent =>
          state := Closed;
        case SynReceived =>
          Output(FIN_ACK, [], now);
          snd, sent := snd.(nxt := (snd.nxt + 1) % U32), sent + [Fin];
          state := FinWait1;
        case Established =>
          Output(FIN_ACK, [], now);
          snd, sent := snd.(nxt := (snd.nxt + 1) % U32), sent + [Fin];
          state := FinWait1;
        case CloseWait =>
          Output(FIN_ACK, [], now);
          snd, sent := snd.(nxt := (snd.nxt + 1) % U32), sent + [Fin];
          state := LastAck;
        case _ => return false;
      }
      if state == Closed {
        Release();
      }
      return true;
    }

    /** The opening part of tcp_connect and of an active tcp_open_rfc793. */
    method Connect(newIss: nat, now: TimeVal, refused: bool)
      requires Valid() && now.Normal()
      modifies this
      ensures Valid() && View() == TcpState.Connect(old(View()), newIss, now, refused)
    {
      hide Timed, TcpState.Output;
      rcv := rcv.(wnd := BUF_SIZE);
      iss := newIss;
      Output(SYN, [], now);
      OneMoreSegment(old(View()), View(), newIss, SYN, now);
      if refused {
        Release();
        return;
      }
      snd, sent, start := snd.(una := iss, nxt := (iss + 1) % U32), [Syn], |wire| - 1;
      state := SynSent;
      waits := waits + [SynSent];
    }

    /** tcp_open_rfc793 without `active`, up to the point where it waits. */
    method PassiveOpen()
      requires Valid()
      modifies this`state, this`waits
      ensures Valid() && View() == TcpState.PassiveOpen(old(View()))
    {
      if state == Free {
        state := Listen;
        waits := waits + [Listen];
      }
    }

    /** The loop behind AGAIN in tcp_connect and tcp_open_rfc793: open call number `i` gets its turn. */
    method WakeOpen(i: nat)
      requires Valid()
      modifies this
      ensures Valid() && View() == TcpState.WakeOpen(old(View()), i)
    {
      hide Timed;
      if i >= |waits| || state == waits[i] {
        return;
      }
      if state != Established {
        if state == SynReceived {
          waits := waits[i := SynReceived];
          return;
        }
        waits := Without(waits, i);
        Release();
        return;
      }
      waits := Without(waits, i);
    }

    /** tcp_receive without waiting: how many octets are handed out. */
    method Receive(size: nat) returns (len: nat)
      requires Valid()
      modifies this`rcv
      ensures Valid() && View() == TcpState.Receive(old(View()), size)
      ensures old(rcv.wnd) <= BUF_SIZE ==>
                rcv == old(rcv).(wnd := old(rcv.wnd) + len)
                && len == if state in {Established, FinWait1, FinWait2, CloseWait} then Min(size, BUF_SIZE - old(rcv.wnd)) else 0
    {
      len := 0;
      match state {
        case Established =>
        case FinWait1 =>
        case FinWait2 =>
        case CloseWait =>
        case _ => return;
      }
      var remain := (BUF_SIZE - rcv.wnd) % 0x1_0000_0000_0000_0000;
      if remain == 0 {
        return;
      }
      len := Min(size, remain);
      rcv := rcv.(wnd := (rcv.wnd + len) % 0x10000);
    }

    /** What tcp_timer does to one control block. */
    method Timer(now: TimeVal)
      requires Valid() && now.Normal()
      modifies this
      ensures Valid() && View() == Tick(old(View()), now)
    {
      hide Timed, Emitted, Overdue;
      if state == Free {
        return;
      }
      if state == TimeWait {
        if After(now, twTimer) {
          Release();
          return;
        }
      }
      ghost var t := View();
      var i := 0;
      while i < |queue|
        invariant i <= |queue| && Ticking(t, View(), i, now) && Valid()
      {
        TickStep(t, View(), i, now);
        RetransmitQueueEmit(i, now);
        i := i + 1;
      }
      TickDone(t, View(), now);
    }

    /** One event of a run. */
    method Handle(ev: Event, now: TimeVal)
      requires Valid() && now.Normal() && Possible(ev)
      modifies this
      ensures Valid() && View() == Step(old(View()), ev, now)
    {
      hide Timed, Arrives, TcpState.Send, TcpState.Close, TcpState.Connect, Tick, TcpState.PassiveOpen, TcpState.WakeOpen, TcpState.Receive;
      match ev {
        case Open =>
          if state == Free {
            state := Closed;
          }
        case ListenCall =>
          state := Listen;
        case ConnectTo(newIss, refused) =>
          Connect(newIss, now, refused);
        case Arrive(s, newIss) =>
          SegmentArrives(s, now, newIss);
        case SendData(data, mss, refuse) =>
          var k, outcome := Send(data, mss, now, refuse);
        case CloseCall =>
          var ok := Close(now);
        case Timer =>
          Timer(now);
        case PassiveOpenCall =>
          PassiveOpen();
        case WakeOpenCall(call) =>
          WakeOpen(call);
        case ReceiveData(size) =>
          var len := Receive(size);
      }
    }

    /** A whole run keeps the sequence space in order, and without split acknowledgments and simultaneous
        opens the queue holds exactly what is sent and not acknowledged; all that is numbered has gone out. */
    method Drive(run: seq<Moment>)
      requires forall i | 0 <= i < |run| :: Possible(run[i].ev) && run[i].now.Normal()
      requires Valid() && Inv(View()) && Proper(View(), run)
      modifies this
      ensures Valid() && View() == Run(old(View()), run) && Inv(View())
      ensures old(Faithful(View())) && old(Whole(View(), run)) ==> Faithful(View())
      ensures old(AllOut(View())) ==> AllOut(View())
    {
      hide Timed, Inv, Faithful, AllOut, Step;
      ghost var t := View();
      RunInv(t, run);
      if AllOut(t) { RunOut(t, run); }
      if Faithful(t) && Whole(t, run) { RunFaithful(t, run); }
      assert run[0..] == run;
      var i := 0;
      while i < |run|
        invariant i <= |run| && Valid() && Run(t, run) == Run(View(), run[i..])
      {
        assert run[i..][1..] == run[i + 1..];
        Handle(run[i].ev, run[i].now);
        i := i + 1;
      }
    }
  }

  lemma {:induction false} OneMoreSegment(t: Tcb, u: Tcb, iss: nat, flags: Flags, now: TimeVal)
    requires exists v: Tcb :: v.wire == t.wire && u == TcpState.Output(v, flags, [], now)
    ensures |u.wire| == |t.wire| + 1
  {
  }

  ghost predicate Timed(q: seq<Entry>)
  {
    forall i | 0 <= i < |q| :: q[i].first.Normal() && q[i].last.Normal()
  }

  lemma {:induction false} NoneTimed()
    ensures Timed([])
  {
  }

  lemma {:induction false} PushTimed(q: seq<Entry>, e: Entry)
    requires Timed(q) && e.first.Normal() && e.last.Normal()
    ensures Timed(q + [e])
  {
  }

  lemma {:induction false} TailTimed(q: seq<Entry>)
    requires Timed(q) && q != []
    ensures Timed(q[1..])
  {
  }

  lemma {:induction false} EntryTimed(q: seq<Entry>, i: nat, e: Entry)
    requires Timed(q) && i < |q|
    ensures q[i].first.Normal() && q[i].last.Normal()
    ensures e.first.Normal() && e.last.Normal() ==> Timed(q[i := e])
  {
  }

  /** The state after the fifth step. */
  function Mid(state: State, allAcked: bool): State
  {
    match state
    case SynReceived => Established
    case FinWait1 => if allAcked then FinWait2 else FinWait1
    case Closing => if allAcked then TimeWait else Closing
    case _ => state
  }

  function AfterAck(t: Tcb, s: Segment, now: TimeVal): Tcb
  {
    Acked(t, s).(state := Mid(t.state, s.ack == t.nxt),
                 tw := if (t.state == TimeWait && s.flags.fin) || (t.state == Closing && s.ack == t.nxt)
                       then TimeVal(now.sec + TIMEWAIT_SEC, now.usec) else t.tw)
  }

  lemma {:induction false} AfterText(t: Tcb, s: Segment, now: TimeVal)
    ensures AfterAck(t, s, now).nxt == t.nxt && AfterAck(t, s, now).state == Mid(t.state, s.ack == t.nxt)
    ensures var u := Text(AfterAck(t, s, now), s, now); u.nxt == t.nxt && u.state == Mid(t.state, s.ack == t.nxt)
  {
  }

  /** Steps five, seven and eight together are what the state diagram says. */
  lemma {:induction false} Delivers(t: Tcb, s: Segment, now: TimeVal)
    requires Synchronized(t.state) && t.state != LastAck
    ensures var u := TakeFin(Text(AfterAck(t, s, now), s, now), s, now);
            var next := Next(t.state, s.ack == t.nxt, s.flags.fin);
            u.(state := next,
               tw := if s.flags.fin && next == TimeWait then TimeVal(now.sec + TIMEWAIT_SEC, now.usec) else u.tw)
            == Deliver(t, s, now)
  {
    hide SegLen, Cleanup;
  }

  function Plus(k: nat, p: (Tcb, nat, Outcome)): (Tcb, nat, Outcome)
  {
    (p.0, k + p.1, p.2)
  }

  lemma {:induction false} PushStops(t: Tcb, data: seq<Byte>, mss: nat, now: TimeVal, refuse: nat)
    requires mss > 0
    ensures data == [] ==> Push(t, data, mss, now, refuse) == (t, 0, Done)
    ensures data != [] && Room(t) == 0 ==> Push(t, data, mss, now, refuse) == (t, 0, Blocked)
  {
  }

  lemma {:induction false} PushStep(t: Tcb, data: seq<Byte>, mss: nat, now: TimeVal, refuse: nat)
    requires mss > 0 && data != [] && Room(t) != 0
    ensures var n := SliceLen(t, data, mss);
            0 < n <= |data| &&
            Push(t, data, mss, now, refuse)
            == if refuse == 0 then (Released(TcpState.Output(t, ACK_PSH, data[..n], now)), 0, Failed)
               else Plus(n, Push(PushOne(t, data[..n], now), data[n..], mss, now, refuse - 1))
  {
    hide TcpState.Output, PushOne;
  }

  // ----- the timer loop -----

  /** The timer has looked at the first `i` entries. */
  ghost predicate Ticking(t: Tcb, u: Tcb, i: nat, now: TimeVal)
  {
    && i <= |u.queue| == |t.queue|
    && (forall j | 0 <= j < |u.queue| :: u.queue[j] == if j < i then Emitted(t.queue[j], now) else t.queue[j])
    && u.wire == t.wire + Resends(t, t.queue[..i], now)
    && u.state == (if exists j :: 0 <= j < i && Overdue(t.queue[j], now) then Closed else t.state)
    && u == t.(queue := u.queue, wire := u.wire, state := u.state)
  }

  lemma {:induction false} ResendsLast(t: Tcb, q: seq<Entry>, e: Entry, now: TimeVal)
    ensures Resends(t, q + [e], now) == Resends(t, q, now) + Resends(t, [e], now)
  {
    hide Due;
    if q == [] {
      assert q + [e] == [e];
    } else {
      ResendsLast(t, q[1..], e, now);
      PushTail(q, e);
    }
  }

  lemma {:induction false} SameReceiver(t: Tcb, u: Tcb, e: Entry, now: TimeVal)
    requires u.rcvNxt == t.rcvNxt && u.rcvWnd == t.rcvWnd
    ensures Resends(u, [e], now) == Resends(t, [e], now)
  {
    assert [e][1..] == [];
  }

  lemma {:induction false} TickStep(t: Tcb, u: Tcb, i: nat, now: TimeVal)
    requires Ticking(t, u, i, now) && i < |u.queue|
    ensures Ticking(t, u.(queue := u.queue[i := Emitted(u.queue[i], now)],
                          wire := u.wire + Resends(u, [u.queue[i]], now),
                          state := if Overdue(u.queue[i], now) then Closed else u.state), i + 1, now)
  {
    hide Overdue, Emitted, Resends;
    assert t.queue[..i + 1] == t.queue[..i] + [t.queue[i]];
    ResendsLast(t, t.queue[..i], t.queue[i], now);
    SameReceiver(t, u, u.queue[i], now);
  }

  lemma {:induction false} TickDone(t: Tcb, u: Tcb, now: TimeVal)
    requires Ticking(t, u, |u.queue|, now) && t.state != Free && !(t.state == TimeWait && now.Micros() > t.tw.Micros())
    ensures u == Tick(t, now)
  {
    hide Overdue, Emitted, Resends;
    assert t.queue[..|t.queue|] == t.queue;
    assert u.queue == EmittedAll(t.queue, now);
  }
}
