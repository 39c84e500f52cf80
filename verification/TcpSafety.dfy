/** What every event keeps of a connection (kernel/network/tcp.c), and when no sent octet is lost. */
module TcpSafety {
  import opened Basics
  import opened TimeVals
  import opened TcpState

  datatype Event =
    | Open
    | ListenCall
    | ConnectTo(iss: nat, refused: bool)
    | Arrive(s: Segment, newIss: nat)
    | SendData(data: seq<Byte>, mss: nat, refuse: nat)
    | CloseCall
    | Timer
    | PassiveOpenCall
    | WakeOpenCall(call: nat)
    | ReceiveData(size: nat)

  predicate Possible(ev: Event)
  {
    (ev.SendData? ==> ev.mss > 0) && (ev.ConnectTo? ==> ev.iss < U32) && (ev.Arrive? ==> ev.newIss < U32)
  }

  function Step(t: Tcb, ev: Event, now: TimeVal): Tcb
    requires Possible(ev)
  {
    match ev
    case Open => if t.state == Free then t.(state := Closed) else t
    case ListenCall => t.(state := Listen)
    case ConnectTo(iss, refused) => Connect(t, iss, now, refused)
    case Arrive(s, newIss) => Arrives(t, s, now, newIss)
    case SendData(data, mss, refuse) => Send(t, data, mss, now, refuse).0
    case CloseCall => Close(t, now)
    case Timer => Tick(t, now)
    case PassiveOpenCall => PassiveOpen(t)
    case WakeOpenCall(call) => WakeOpen(t, call)
    case ReceiveData(size) => Receive(t, size)
  }

  // ----- the invariant -----

  predicate Live(state: State)
  {
    !(state in {Free, Closed, Listen})
  }

  predicate FinSent(state: State)
  {
    state in {FinWait1, FinWait2, Closing, TimeWait, LastAck}
  }

  /** Nondecreasing sequence numbers in [lo, hi). */
  ghost predicate QueueIn(q: seq<Entry>, lo: nat, hi: nat)
  {
    (forall i | 0 <= i < |q| :: lo <= q[i].num < hi) && (forall i, j | 0 <= i < j < |q| :: q[i].num <= q[j].num)
  }

  /** One SYN, then data, then a FIN once the user has closed. */
  ghost predicate Ordered(sent: seq<Octet>, fin: bool)
  {
    && |sent| > 0 && (forall i | 0 <= i < |sent| :: sent[i].Syn? <==> i == 0)
    && (forall i | 0 <= i < |sent| :: sent[i].Fin? <==> fin && i == |sent| - 1)
  }

  ghost predicate Numbered(t: Tcb)
  {
    && t.iss <= t.una <= t.nxt < U32 && t.nxt == t.iss + |t.sent|
    && QueueIn(t.queue, t.una, t.nxt) && Ordered(t.sent, FinSent(t.state))
    && (t.state in {SynSent, SynReceived} ==> t.una == t.iss && t.nxt == t.iss + 1)
    && (t.state in {FinWait1, Closing, LastAck} ==> t.una < t.nxt)
    && (t.state in {FinWait2, TimeWait} ==> t.una == t.nxt)
  }

  ghost predicate Inv(t: Tcb)
  {
    (t.state in {Free, Listen} ==> t.queue == []) && (Live(t.state) ==> Numbered(t))
  }

  /** The sequence numbers of the connection do not wrap in this event. */
  predicate Fits(t: Tcb, ev: Event)
  {
    match ev
    case ConnectTo(iss, _) => iss + 1 < U32
    case Arrive(_, newIss) => newIss + 1 < U32
    case SendData(data, _, _) => t.nxt + |data| < U32
    case CloseCall => t.nxt + 1 < U32
    case _ => true
  }

  /** Connecting and listening start from a control block without queued segments, such as a new one. */
  predicate Legal(t: Tcb, ev: Event)
  {
    (ev.ConnectTo? || ev.ListenCall?) ==> t.queue == []
  }

  // ----- the queue -----

  lemma {:induction false} CleanupKeeps(q: seq<Entry>, lo: nat, hi: nat, a: nat)
    requires QueueIn(q, lo, hi) && lo <= a
    ensures QueueIn(Cleanup(q, a), a, hi)
  {
    if q != [] && q[0].num < a {
      assert QueueIn(q[1..], lo, hi);
      CleanupKeeps(q[1..], lo, hi, a);
    }
  }

  // ----- single events -----

  /** After the acknowledgment the control block is numbered for the next state of the diagram. */
  lemma {:induction false} NextInv(t: Tcb, s: Segment)
    requires Live(t.state) && Numbered(t) && !(t.state in {SynSent, LastAck}) && s.flags.ack
    requires t.state == SynReceived ==> t.una <= s.ack <= t.nxt
    requires !AcksUnsent(t, s)
    ensures Numbered(Acked(t, s).(state := Next(t.state, s.ack == t.nxt, s.flags.fin)))
  {
    if t.state != TimeWait && NewAck(t, s) { CleanupKeeps(t.queue, t.una, t.nxt, s.ack); }
  }

  /** Taking in text and FIN changes the receive side only. */
  lemma {:induction false} DeliverSends(t: Tcb, s: Segment, now: TimeVal)
    ensures var u, v := Deliver(t, s, now), Acked(t, s);
            u.una == v.una && u.nxt == v.nxt && u.iss == v.iss && u.queue == v.queue && u.sent == v.sent
            && u.state == Next(t.state, s.ack == t.nxt, s.flags.fin)
  {
    hide Next, Cleanup;
  }

  lemma {:induction false} SameSends(t: Tcb, u: Tcb)
    requires Numbered(t) && u.una == t.una && u.nxt == t.nxt && u.iss == t.iss && u.queue == t.queue && u.sent == t.sent
    requires u.state == t.state
    ensures Numbered(u)
  {
  }

  lemma {:induction false} DeliverInv(t: Tcb, s: Segment, now: TimeVal)
    requires Live(t.state) && Numbered(t) && !(t.state in {SynSent, LastAck}) && s.flags.ack
    requires t.state == SynReceived ==> t.una <= s.ack <= t.nxt
    requires !AcksUnsent(t, s)
    ensures Live(Deliver(t, s, now).state) && Numbered(Deliver(t, s, now))
  {
    hide Deliver, Acked, Numbered;
    NextInv(t, s);
    DeliverSends(t, s, now);
    SameSends(Acked(t, s).(state := Next(t.state, s.ack == t.nxt, s.flags.fin)), Deliver(t, s, now));
  }

  lemma {:induction false} ArrivesInv(t: Tcb, s: Segment, now: TimeVal, iss: nat)
    requires Inv(t) && iss + 1 < U32
    ensures Inv(Arrives(t, s, now, iss))
  {
    hide ArrivesSynchronized, ArrivesSynSent, ArrivesListen, Numbered;
    if t.state == SynSent {
      SynSentInv(t, s, now);
    } else if t.state == Listen {
      ListenInv(t, s, now, iss);
    } else if Live(t.state) {
      ArrivesSynchronizedInv(t, s, now);
    }
  }

  lemma {:induction false} ListenInv(t: Tcb, s: Segment, now: TimeVal, iss: nat)
    requires Inv(t) && t.state == Listen && iss + 1 < U32
    ensures Inv(ArrivesListen(t, s, now, iss))
  {
  }

  lemma {:induction false} SynSentInv(t: Tcb, s: Segment, now: TimeVal)
    requires Inv(t) && t.state == SynSent
    ensures Inv(ArrivesSynSent(t, s, now))
  {
    CleanupKeeps(t.queue, t.una, t.nxt, t.nxt);
  }

  lemma {:induction false} ArrivesSynchronizedInv(t: Tcb, s: Segment, now: TimeVal)
    requires Inv(t) && Live(t.state) && t.state != SynSent
    ensures Inv(ArrivesSynchronized(t, s, now))
  {
    if InWindow(t, s) && !s.flags.rst && !s.flags.syn && s.flags.ack && t.state != LastAck && !AcksUnsent(t, s)
       && (t.state == SynReceived ==> t.una <= s.ack <= t.nxt) {
      DeliverInv(t, s, now);
    }
  }

  lemma {:induction false} PushOneInv(t: Tcb, data: seq<Byte>, now: TimeVal)
    requires Live(t.state) && Numbered(t) && t.state in {Established, CloseWait} && data != [] && t.nxt + |data| < U32
    ensures Numbered(PushOne(t, data, now))
  {
  }

  lemma {:induction false} PushInv(t: Tcb, data: seq<Byte>, mss: nat, now: TimeVal, refuse: nat)
    requires Inv(t) && t.state in {Established, CloseWait} && mss > 0 && t.nxt + |data| < U32
    ensures Inv(Push(t, data, mss, now, refuse).0)
    decreases |data|
  {
    if data != [] && Room(t) != 0 && refuse != 0 {
      var n := SliceLen(t, data, mss);
      PushOneInv(t, data[..n], now);
      PushInv(PushOne(t, data[..n], now), data[n..], mss, now, refuse - 1);
    }
  }

  lemma {:induction false} FinishedInv(t: Tcb, next: State, now: TimeVal)
    requires Numbered(t) && Live(t.state) && !FinSent(t.state) && next in {FinWait1, LastAck} && t.nxt + 1 < U32
    ensures Numbered(Finished(t, next, now)) && Finished(t, next, now).state == next
  {
  }

  lemma {:induction false} CloseInv(t: Tcb, now: TimeVal)
    requires Inv(t) && (Live(t.state) ==> t.nxt + 1 < U32)
    ensures Inv(Close(t, now))
  {
    hide Numbered, Finished;
    if t.state in {SynReceived, Established} {
      FinishedInv(t, FinWait1, now);
    } else if t.state == CloseWait {
      FinishedInv(t, LastAck, now);
    }
  }

  lemma {:induction false} TickInv(t: Tcb, now: TimeVal)
    requires Inv(t)
    ensures Inv(Tick(t, now))
  {
  }

  /** Every event keeps the invariant. */
  lemma {:induction false} StepInv(t: Tcb, ev: Event, now: TimeVal)
    requires Inv(t) && Possible(ev) && Fits(t, ev) && Legal(t, ev)
    ensures Inv(Step(t, ev, now))
  {
    hide Arrives, Send, Close, Tick;
    match ev
    case Arrive(s, iss) => ArrivesInv(t, s, now, iss);
    case SendData(data, mss, refuse) => SendInv(t, data, mss, now, refuse);
    case CloseCall => CloseInv(t, now);
    case Timer => TickInv(t, now);
    case _ =>
  }

  lemma {:induction false} SendInv(t: Tcb, data: seq<Byte>, mss: nat, now: TimeVal, refuse: nat)
    requires Inv(t) && mss > 0 && t.nxt + |data| < U32
    ensures Inv(Send(t, data, mss, now, refuse).0)
  {
    if t.state in {Established, CloseWait} { PushInv(t, data, mss, now, refuse); }
  }

  /** A control block may be reused for a connection iff no queued segment of an earlier one is left that
      does not start at the new number. */
  lemma {:induction false} ConnectKeeps(t: Tcb, iss: nat, now: TimeVal)
    requires iss + 1 < U32
    ensures Inv(Connect(t, iss, now, false)) <==> forall e | e in t.queue :: e.num == iss
  {
    var u := Connect(t, iss, now, false);
    assert u.queue == t.queue + [Entry(now, now, DEFAULT_RTO, iss, SYN, [])];
    if forall e | e in t.queue :: e.num == iss {
      assert forall i | 0 <= i < |t.queue| :: t.queue[i] in t.queue;
    }
    if QueueIn(u.queue, iss, iss + 1) {
      forall e | e in t.queue
        ensures e.num == iss
      {
        var i :| 0 <= i < |t.queue| && t.queue[i] == e;
        assert u.queue[i] == e;
      }
    }
  }

  // ----- whole runs -----

  datatype Moment = Moment(ev: Event, now: TimeVal)

  ghost function Run(t: Tcb, run: seq<Moment>): Tcb
    requires forall i | 0 <= i < |run| :: Possible(run[i].ev)
    decreases |run|
  {
    if run == [] then t else Run(Step(t, run[0].ev, run[0].now), run[1..])
  }

  ghost predicate Proper(t: Tcb, run: seq<Moment>)
    requires forall i | 0 <= i < |run| :: Possible(run[i].ev)
    decreases |run|
  {
    run == [] || (Fits(t, run[0].ev) && Legal(t, run[0].ev) && Proper(Step(t, run[0].ev, run[0].now), run[1..]))
  }

  lemma {:induction false} RunInv(t: Tcb, run: seq<Moment>)
    requires forall i | 0 <= i < |run| :: Possible(run[i].ev)
    requires Inv(t) && Proper(t, run)
    ensures Inv(Run(t, run))
    decreases |run|
  {
    hide Inv, Step, Fits, Legal;
    if run != [] {
      StepInv(t, run[0].ev, run[0].now);
      RunInv(Step(t, run[0].ev, run[0].now), run[1..]);
    }
  }

  // ----- nothing is lost -----

  /** The queued segments carry, one after the other, exactly the octets `o` numbered from `una`. */
  ghost predicate Tiles(q: seq<Entry>, una: nat, o: seq<Octet>)
  {
    if q == [] then o == []
    else
      var k := |Octets(q[0])|;
      q[0].num == una && 0 < k <= |o| && Octets(q[0]) == o[..k] && Tiles(q[1..], una + k, o[k..])
  }

  /** What the peer has not acknowledged is in the queue. */
  ghost predicate Kept(t: Tcb)
  {
    t.iss <= t.una <= t.iss + |t.sent| && Tiles(t.queue, t.una, t.sent[t.una - t.iss..])
  }

  ghost predicate Faithful(t: Tcb)
  {
    Live(t.state) ==> Kept(t)
  }

  /** `a` is where a queued segment starts, or the end of all. */
  ghost predicate Boundary(q: seq<Entry>, a: nat, end: nat)
  {
    a == end || exists i :: 0 <= i < |q| && q[i].num == a
  }

  lemma {:induction false} TilesAbove(q: seq<Entry>, una: nat, o: seq<Octet>, a: nat)
    requires Tiles(q, una, o) && a < una
    ensures Cleanup(q, a) == q && !Boundary(q, a, una + |o|)
    ensures forall i | 0 <= i < |q| :: q[i].num >= una
  {
    if q != [] {
      var k := |Octets(q[0])|;
      TilesAbove(q[1..], una + k, o[k..], a);
      assert forall i | 1 <= i < |q| :: q[i] == q[1..][i - 1];
    }
  }

  lemma {:induction false} BoundaryTail(q: seq<Entry>, a: nat, end: nat)
    requires q != [] && q[0].num != a
    ensures Boundary(q, a, end) <==> Boundary(q[1..], a, end)
  {
    if i :| 0 <= i < |q| && q[i].num == a { assert q[1..][i - 1] == q[i]; }
    if i :| 0 <= i < |q[1..]| && q[1..][i].num == a { assert q[i + 1] == q[1..][i]; }
  }

  /** Dropping the acknowledged entries leaves exactly the unacknowledged octets iff the acknowledgment
      falls on a segment boundary. */
  lemma {:induction false} CleanupTiles(q: seq<Entry>, una: nat, o: seq<Octet>, a: nat)
    requires Tiles(q, una, o) && una <= a <= una + |o|
    ensures Tiles(Cleanup(q, a), a, o[a - una..]) <==> Boundary(q, a, una + |o|)
  {
    hide Octets;
    if q != [] && a > una {
      var k := |Octets(q[0])|;
      BoundaryTail(q, a, una + |o|);
      if a >= una + k {
        CleanupTiles(q[1..], una + k, o[k..], a);
        assert o[k..][a - una - k..] == o[a - una..];
      } else {
        TilesAbove(q[1..], una + k, o[k..], a);
      }
    } else {
      assert o[0..] == o;
      if q != [] { assert q[0].num == a; }
    }
  }

  /** A queued segment carries the octets of the connection at its number. */
  lemma {:induction false} EntryTruthful(q: seq<Entry>, una: nat, o: seq<Octet>, i: nat)
    requires Tiles(q, una, o) && i < |q|
    ensures una <= q[i].num && q[i].num - una + |Octets(q[i])| <= |o|
    ensures Octets(q[i]) == Stretch(o, q[i].num - una, |Octets(q[i])|)
  {
    hide Octets, Stretch;
    if i > 0 {
      var k := |Octets(q[0])|;
      EntryTruthful(q[1..], una + k, o[k..], i - 1);
      assert q[1..][i - 1] == q[i];
      StretchDrop(o, k, q[i].num - una - k, |Octets(q[i])|);
    } else {
      StretchTake(o, |Octets(q[0])|);
    }
  }

  /** `n` octets from position `i` on. */
  function Stretch(o: seq<Octet>, i: nat, n: nat): seq<Octet>
    requires i + n <= |o|
  {
    o[i..i + n]
  }

  lemma {:induction false} StretchDrop(o: seq<Octet>, k: nat, i: nat, n: nat)
    requires k + i + n <= |o|
    ensures Stretch(o[k..], i, n) == Stretch(o, k + i, n)
  {
  }

  lemma {:induction false} StretchTake(o: seq<Octet>, n: nat)
    requires n <= |o|
    ensures Stretch(o, 0, n) == o[..n]
  {
  }

  lemma {:induction false} TilesPush(q: seq<Entry>, una: nat, o: seq<Octet>, e: Entry)
    requires Tiles(q, una, o) && e.num == una + |o| && Octets(e) != []
    ensures Tiles(q + [e], una, o + Octets(e))
  {
    hide Octets;
    if q == [] {
      assert q + [e] == [e] && o + Octets(e) == Octets(e);
      OneTile(e, Octets(e));
    } else {
      var k := |Octets(q[0])|;
      TilesPush(q[1..], una + k, o[k..], e);
      PushTail(q, e);
      AppendSplit(o, Octets(e), k);
    }
  }

  lemma {:induction false} PushTail(q: seq<Entry>, e: Entry)
    requires q != []
    ensures (q + [e])[0] == q[0] && (q + [e])[1..] == q[1..] + [e]
  {
  }

  lemma {:induction false} AppendSplit(o: seq<Octet>, p: seq<Octet>, k: nat)
    requires k <= |o|
    ensures (o + p)[..k] == o[..k] && (o + p)[k..] == o[k..] + p
  {
  }

  lemma {:induction false} TilesEmitted(q: seq<Entry>, una: nat, o: seq<Octet>, now: TimeVal)
    requires Tiles(q, una, o)
    ensures Tiles(EmittedAll(q, now), una, o)
  {
    if q != [] {
      var k := |Octets(q[0])|;
      TilesEmitted(q[1..], una + k, o[k..], now);
      assert EmittedAll(q, now)[1..] == EmittedAll(q[1..], now);
    }
  }

  /** An acknowledgment ends inside a queued segment. */
  ghost predicate Splits(t: Tcb, ev: Event)
  {
    && ev.Arrive? && Synchronized(t.state) && !(t.state in {LastAck, TimeWait})
    && InWindow(t, ev.s) && !ev.s.flags.rst && !ev.s.flags.syn && ev.s.flags.ack
    && NewAck(t, ev.s) && !Boundary(t.queue, ev.s.ack, t.nxt)
  }

  /** Both sides open at the same time: the SYN is queued once more. */
  predicate Crosses(t: Tcb, ev: Event)
  {
    ev.Arrive? && t.state == SynSent && ev.s.flags.syn && !ev.s.flags.rst && !ev.s.flags.ack
  }

  lemma {:induction false} AckedKept(t: Tcb, s: Segment)
    requires Numbered(t) && Kept(t) && t.state != TimeWait
    ensures Kept(Acked(t, s)) <==> !NewAck(t, s) || Boundary(t.queue, s.ack, t.nxt)
  {
    hide Tiles, Cleanup;
    if NewAck(t, s) {
      var d := t.una - t.iss;
      CleanupTiles(t.queue, t.una, t.sent[d..], s.ack);
      assert t.sent[d..][s.ack - t.una..] == t.sent[s.ack - t.iss..];
    }
  }

  lemma {:induction false} SameKept(t: Tcb, u: Tcb)
    requires u.una == t.una && u.iss == t.iss && u.queue == t.queue && u.sent == t.sent
    ensures Kept(t) <==> Kept(u)
  {
  }

  lemma {:induction false} DeliverKept(t: Tcb, s: Segment, now: TimeVal)
    requires Numbered(t) && Kept(t) && Live(t.state) && !(t.state in {SynSent, LastAck})
    ensures Faithful(Deliver(t, s, now)) <==> t.state == TimeWait || !NewAck(t, s) || Boundary(t.queue, s.ack, t.nxt)
  {
    hide Deliver, Acked, Kept, Numbered, Boundary;
    DeliverSends(t, s, now);
    SameKept(Acked(t, s), Deliver(t, s, now));
    if t.state == TimeWait { NoneAcked(t, s); } else { AckedKept(t, s); }
  }

  lemma {:induction false} NoneAcked(t: Tcb, s: Segment)
    requires t.state == TimeWait
    ensures Acked(t, s) == t
  {
  }

  lemma {:induction false} SynchronizedFaithful(t: Tcb, s: Segment, now: TimeVal, iss: nat)
    requires Inv(t) && Faithful(t) && Synchronized(t.state)
    ensures Faithful(ArrivesSynchronized(t, s, now)) <==> !Splits(t, Arrive(s, iss))
  {
    hide Deliver, Kept, Numbered, InWindow, Boundary;
    if InWindow(t, s) && !s.flags.rst && !s.flags.syn && s.flags.ack && t.state != LastAck && !AcksUnsent(t, s)
       && (t.state == SynReceived ==> t.una <= s.ack <= t.nxt) {
      DeliverKept(t, s, now);
    } else {
      var u := ArrivesSynchronized(t, s, now);
      if u.state != Free { SameKept(t, u); }
    }
  }

  lemma {:induction false} SynSentFaithful(t: Tcb, s: Segment, now: TimeVal, iss: nat)
    requires Inv(t) && Faithful(t) && t.state == SynSent
    ensures Faithful(ArrivesSynSent(t, s, now)) <==> !Crosses(t, Arrive(s, iss))
  {
    hide Kept, Octets;
    var u := ArrivesSynSent(t, s, now);
    if s.flags.syn && !s.flags.rst && s.flags.ack && t.iss < s.ack <= t.nxt {
      SynAcked(t, u, s.ack);
    } else if Crosses(t, Arrive(s, iss)) {
      Doubled(t, u, Entry(now, now, DEFAULT_RTO, t.iss, SYN_ACK, []));
    } else if u.state != Free {
      SameKept(t, u);
    }
  }

  lemma {:induction false} SynAcked(t: Tcb, u: Tcb, ack: nat)
    requires Numbered(t) && Kept(t) && ack == t.nxt
    requires u.una == ack && u.iss == t.iss && u.queue == Cleanup(t.queue, ack) && u.sent == t.sent
    ensures Kept(u)
  {
    hide Tiles, Cleanup;
    CleanupTiles(t.queue, t.una, t.sent[t.una - t.iss..], ack);
    assert t.sent[t.una - t.iss..][ack - t.una..] == t.sent[ack - t.iss..];
  }

  lemma {:induction false} Doubled(t: Tcb, u: Tcb, e: Entry)
    requires Kept(t) && t.una == t.iss && |t.sent| == 1
    requires u.una == t.una && u.iss == t.iss && u.sent == t.sent && u.queue == t.queue + [e]
    ensures !Kept(u)
  {
    hide Octets;
    var o := t.sent[t.una - t.iss..];
    assert |o| == 1 && |Octets(t.queue[0])| == 1;
    assert Tiles(t.queue[1..], t.una + 1, o[1..]);
    assert u.queue[0] == t.queue[0] && u.queue[1..] == t.queue[1..] + [e];
    assert u.sent[u.una - u.iss..] == o;
    assert !Tiles(u.queue[1..], t.una + 1, o[1..]);
  }

  /** A segment queued with the octets it adds to the stream keeps the queue faithful. */
  lemma {:induction false} QueuedKept(t: Tcb, u: Tcb, e: Entry)
    requires Kept(t) && t.nxt == t.iss + |t.sent| && e.num == t.nxt && Octets(e) != []
    requires u.una == t.una && u.iss == t.iss && u.queue == t.queue + [e] && u.sent == t.sent + Octets(e)
    ensures Kept(u)
  {
    hide Octets, Tiles;
    var d := t.una - t.iss;
    TilesPush(t.queue, t.una, t.sent[d..], e);
    assert u.sent[d..] == t.sent[d..] + Octets(e);
  }

  lemma {:induction false} OneTile(e: Entry, o: seq<Octet>)
    requires Octets(e) == o && |o| > 0
    ensures Tiles([e], e.num, o)
  {
    hide Octets;
    assert o[|o|..] == [] && o[..|o|] == o;
  }

  lemma {:induction false} BegunKept(t: Tcb, state: State, iss: nat, flags: Flags, now: TimeVal)
    requires t.queue == [] && flags.syn && !flags.fin
    ensures Kept(Begun(t, state, iss, flags, now))
  {
    var e := Entry(now, now, DEFAULT_RTO, iss, flags, []);
    var u := Begun(t, state, iss, flags, now);
    assert u.queue == [e] && Octets(e) == [Syn];
    assert u.sent[0..] == [Syn];
    OneTile(e, [Syn]);
  }

  lemma {:induction false} PushOneKept(t: Tcb, data: seq<Byte>, now: TimeVal)
    requires Kept(t) && t.nxt == t.iss + |t.sent| && data != []
    ensures Kept(PushOne(t, data, now))
  {
    hide Kept;
    var e := Entry(now, now, DEFAULT_RTO, t.nxt, ACK_PSH, data);
    assert Octets(e) == Payload(data) != [];
    QueuedKept(t, PushOne(t, data, now), e);
  }

  lemma {:induction false} PushKept(t: Tcb, data: seq<Byte>, mss: nat, now: TimeVal, refuse: nat)
    requires Kept(t) && t.nxt == t.iss + |t.sent| && mss > 0 && t.nxt + |data| < U32
    ensures Faithful(Push(t, data, mss, now, refuse).0)
    decreases |data|
  {
    hide Kept;
    if data != [] && Room(t) != 0 && refuse != 0 {
      var n := SliceLen(t, data, mss);
      PushOneKept(t, data[..n], now);
      PushKept(PushOne(t, data[..n], now), data[n..], mss, now, refuse - 1);
    }
  }

  lemma {:induction false} FinishedKept(t: Tcb, next: State, now: TimeVal)
    requires Kept(t) && t.nxt == t.iss + |t.sent|
    ensures Kept(Finished(t, next, now))
  {
    hide Kept;
    var e := Entry(now, now, DEFAULT_RTO, t.nxt, FIN_ACK, []);
    assert Octets(e) == [Fin];
    QueuedKept(t, Finished(t, next, now), e);
  }

  lemma {:induction false} TickFaithful(t: Tcb, now: TimeVal)
    requires Faithful(t)
    ensures Faithful(Tick(t, now))
  {
    hide Tiles;
    if Live(t.state) { TilesEmitted(t.queue, t.una, t.sent[t.una - t.iss..], now); }
  }

  lemma {:induction false} CloseFaithful(t: Tcb, now: TimeVal)
    requires Faithful(t) && (Live(t.state) ==> Numbered(t))
    ensures Faithful(Close(t, now))
  {
    hide Kept, Finished;
    if t.state in {SynReceived, Established} { FinishedKept(t, FinWait1, now); }
    if t.state == CloseWait { FinishedKept(t, LastAck, now); }
  }

  lemma {:induction false} ArrivesFaithful(t: Tcb, s: Segment, now: TimeVal, iss: nat)
    requires Inv(t) && Faithful(t)
    ensures Faithful(Arrives(t, s, now, iss)) <==> !Splits(t, Arrive(s, iss)) && !Crosses(t, Arrive(s, iss))
  {
    hide Kept, Numbered, Begun, ArrivesSynSent, ArrivesSynchronized, Boundary, InWindow;
    if t.state == Listen {
      BegunKept(t.(rcvWnd := BUF_SIZE, rcvNxt := (s.num + 1) % U32), SynReceived, iss, SYN_ACK, now);
    } else if t.state == SynSent {
      SynSentFaithful(t, s, now, iss);
    } else if Synchronized(t.state) {
      SynchronizedFaithful(t, s, now, iss);
    }
  }

  /** An event keeps the queue exact, every octet that is sent and not acknowledged and nothing else, iff it
      is not an acknowledgment inside a segment and not a simultaneous open. */
  lemma {:induction false} StepFaithful(t: Tcb, ev: Event, now: TimeVal)
    requires Inv(t) && Faithful(t) && Possible(ev) && Fits(t, ev) && Legal(t, ev)
    ensures Faithful(Step(t, ev, now)) <==> !Splits(t, ev) && !Crosses(t, ev)
  {
    hide Kept, Numbered, Begun, Arrives, Push, Close, Tick, Boundary, InWindow;
    match ev
    case Arrive(s, iss) => ArrivesFaithful(t, s, now, iss);
    case SendData(data, mss, refuse) => if t.state in {Established, CloseWait} { SendFaithful(t, data, mss, now, refuse); }
    case CloseCall => CloseFaithful(t, now);
    case Timer => TickFaithful(t, now);
    case ConnectTo(iss, refused) =>
      BegunKept(t.(rcvWnd := BUF_SIZE), SynSent, iss, SYN, now);
      var u := Begun(t.(rcvWnd := BUF_SIZE), SynSent, iss, SYN, now);
      SameKept(u, u.(waits := t.waits + [SynSent]));
    case WakeOpenCall(call) => SameKept(t, t.(waits := Step(t, ev, now).waits));
    case ReceiveData(size) => SameKept(t, Receive(t, size));
    case _ =>
  }

  lemma {:induction false} SendFaithful(t: Tcb, data: seq<Byte>, mss: nat, now: TimeVal, refuse: nat)
    requires Inv(t) && Faithful(t) && t.state in {Established, CloseWait} && mss > 0 && t.nxt + |data| < U32
    ensures Faithful(Push(t, data, mss, now, refuse).0)
  {
    PushKept(t, data, mss, now, refuse);
  }

  /** Without such events nothing unacknowledged is ever dropped. */
  lemma {:induction false} RunFaithful(t: Tcb, run: seq<Moment>)
    requires forall i | 0 <= i < |run| :: Possible(run[i].ev)
    requires Inv(t) && Faithful(t) && Proper(t, run) && Whole(t, run)
    ensures Inv(Run(t, run)) && Faithful(Run(t, run))
    decreases |run|
  {
    hide Inv, Faithful, Step, Fits, Legal, Splits, Crosses;
    if run != [] {
      StepInv(t, run[0].ev, run[0].now);
      StepFaithful(t, run[0].ev, run[0].now);
      RunFaithful(Step(t, run[0].ev, run[0].now), run[1..]);
    }
  }

  ghost predicate Whole(t: Tcb, run: seq<Moment>)
    requires forall i | 0 <= i < |run| :: Possible(run[i].ev)
    decreases |run|
  {
    run == [] || (!Splits(t, run[0].ev) && !Crosses(t, run[0].ev) && Whole(Step(t, run[0].ev, run[0].now), run[1..]))
  }
}
