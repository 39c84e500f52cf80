/** What the events of kernel/network/tcp.c do to one protocol control block, as functions on values: the
    state diagram of section 3.2 of RFC 793, the sequence variables of section 3.3 and the retransmission
    queue. */
module TcpState {
  import opened Basics
  import opened TimeVals

  const DEFAULT_RTO: nat := 200000
  const RETRANSMIT_DEADLINE: nat := 12
  const TIMEWAIT_SEC: nat := 30
  const BUF_SIZE: nat := 8192

  datatype State = Free | Closed | Listen | SynSent | SynReceived | Established
                 | FinWait1 | FinWait2 | Closing | TimeWait | CloseWait | LastAck

  datatype Flags = Flags(syn: bool, fin: bool, rst: bool, ack: bool, psh: bool)

  const SYN := Flags(true, false, false, false, false)
  const SYN_ACK := Flags(true, false, false, true, false)
  const FIN_ACK := Flags(false, true, false, true, false)
  const ACK := Flags(false, false, false, true, false)
  const ACK_PSH := Flags(false, false, false, true, true)
  const RST := Flags(false, false, true, false, false)
  const RST_ACK := Flags(false, false, true, true, false)

  datatype Segment = Segment(num: nat, ack: nat, flags: Flags, wnd: nat, data: seq<Byte>)

  datatype Entry = Entry(first: TimeVal, last: TimeVal, rto: nat, num: nat, flags: Flags, data: seq<Byte>)

  /** What a sequence number stands for. */
  datatype Octet = Syn | Data(b: Byte) | Fin

  /** A protocol control block, with all octets numbered from `iss` on, all segments put out, those of this connection from
      number `start` on, and the state that each open call waiting on it has last seen. */
  datatype Tcb = Tcb(state: State, una: nat, nxt: nat, wnd: nat, wl1: nat, wl2: nat, iss: nat,
                     rcvNxt: nat, rcvWnd: nat, queue: seq<Entry>, tw: TimeVal,
                     sent: seq<Octet>, wire: seq<Segment>, start: nat, waits: seq<State>)

  /** SEG.LEN as tcp_input computes it, in sixteen bits. */
  function SegLen(s: Segment): nat
  {
    (|s.data| + (if s.flags.syn then 1 else 0) + (if s.flags.fin then 1 else 0)) % 0x10000
  }

  function Payload(data: seq<Byte>): (o: seq<Octet>)
    ensures |o| == |data|
  {
    seq(|data|, i requires 0 <= i < |data| => Data(data[i]))
  }

  function Framed(flags: Flags, data: seq<Byte>): seq<Octet>
  {
    (if flags.syn then [Syn] else []) + Payload(data) + (if flags.fin then [Fin] else [])
  }

  /** The octets a queued segment carries. */
  function Octets(e: Entry): seq<Octet>
  {
    Framed(e.flags, e.data)
  }

  /** The calls that wait are not told. */
  function Released(t: Tcb): Tcb
  {
    Tcb(Free, 0, 0, 0, 0, 0, 0, 0, 0, [], TimeVal(0, 0), [], t.wire, 0, t.waits)
  }

  // ----- output -----

  function Reply(t: Tcb, num: nat, ack: nat, flags: Flags): Tcb
  {
    t.(wire := t.wire + [Segment(num, ack, flags, 0, [])])
  }

  predicate Queued(flags: Flags, data: seq<Byte>)
  {
    flags.syn || flags.fin || data != []
  }

  function Output(t: Tcb, flags: Flags, data: seq<Byte>, now: TimeVal): Tcb
  {
    var s := if flags.syn then t.iss else t.nxt;
    t.(queue := if Queued(flags, data) then t.queue + [Entry(now, now, DEFAULT_RTO, s, flags, data)] else t.queue,
       wire := t.wire + [Segment(s, t.rcvNxt, flags, t.rcvWnd, data)])
  }

  /** The queue without the entries at its head that start below `una`. */
  function Cleanup(q: seq<Entry>, una: nat): seq<Entry>
  {
    if q == [] || q[0].num >= una then q else Cleanup(q[1..], una)
  }

  // ----- a segment arrives -----

  /** The acceptance test of section 3.3 of RFC 793, in 32-bit arithmetic. */
  predicate InWindow(t: Tcb, s: Segment)
  {
    var n := SegLen(s);
    var edge := (t.rcvNxt + t.rcvWnd) % U32;
    if n == 0 then
      if t.rcvWnd == 0 then s.num == t.rcvNxt else t.rcvNxt <= s.num < edge
    else
      t.rcvWnd != 0 && (t.rcvNxt <= s.num < edge || t.rcvNxt <= (s.num + n - 1) % U32 < edge)
  }

  /** The acknowledgment covers something new and nothing unsent. */
  predicate NewAck(t: Tcb, s: Segment)
  {
    t.una < s.ack <= t.nxt
  }

  predicate Synchronized(state: State)
  {
    !(state in {Free, Closed, Listen, SynSent})
  }

  /** The arrows of figure 6 of RFC 793 that an acceptable segment with an ACK follows. */
  function Next(state: State, allAcked: bool, fin: bool): State
  {
    match state
    case SynReceived => if fin then CloseWait else Established
    case Established => if fin then CloseWait else Established
    case FinWait1 => if allAcked && fin then TimeWait else if allAcked then FinWait2 else if fin then Closing else FinWait1
    case FinWait2 => if fin then TimeWait else FinWait2
    case Closing => if allAcked then TimeWait else Closing
    case _ => state
  }

  /** The send side takes in an acknowledgment and, from newer segments, the window. */
  function Acked(t: Tcb, s: Segment): Tcb
  {
    if t.state == TimeWait || !NewAck(t, s) then t
    else
      var u := t.(una := s.ack, queue := Cleanup(t.queue, s.ack));
      if t.wl1 < s.num || (t.wl1 == s.num && t.wl2 <= s.ack) then u.(wnd := s.wnd, wl1 := s.num, wl2 := s.ack) else u
  }

  function TakesText(state: State): bool
  {
    state in {SynReceived, Established, FinWait1, FinWait2}
  }

  function Text(t: Tcb, s: Segment, now: TimeVal): Tcb
  {
    if s.data != [] && TakesText(t.state) then
      Output(t.(rcvNxt := (s.num + SegLen(s)) % U32, rcvWnd := (t.rcvWnd - |s.data|) % 0x10000), ACK, [], now)
    else t
  }

  function TakeFin(t: Tcb, s: Segment, now: TimeVal): Tcb
  {
    if s.flags.fin then Output(t.(rcvNxt := (s.num + 1) % U32), ACK, [], now) else t
  }

  /** An acceptable segment with an ACK and without SYN or RST. */
  function Deliver(t: Tcb, s: Segment, now: TimeVal): Tcb
  {
    var next := Next(t.state, s.ack == t.nxt, s.flags.fin);
    TakeFin(Text(Acked(t, s), s, now), s, now)
      .(state := next,
        tw := if next == TimeWait && (t.state != TimeWait || s.flags.fin) then TimeVal(now.sec + TIMEWAIT_SEC, now.usec)
              else t.tw)
  }

  predicate AcksUnsent(t: Tcb, s: Segment)
  {
    t.state != TimeWait && !NewAck(t, s) && t.una <= s.ack && t.nxt < s.ack
  }

  function ArrivesSynchronized(t: Tcb, s: Segment, now: TimeVal): Tcb
  {
    if !InWindow(t, s) then if s.flags.rst then t else Output(t, ACK, [], now)
    else if s.flags.rst then Released(t)
    else if s.flags.syn then Released(Output(t, RST, [], now))
    else if !s.flags.ack then t
    else if t.state == SynReceived && !(t.una <= s.ack <= t.nxt) then Reply(t, s.ack, 0, RST)
    else if t.state == LastAck then if s.ack == t.nxt then Released(t) else t
    else if AcksUnsent(t, s) then
      Output(if t.state == SynReceived then t.(state := Established) else t, ACK, [], now)
    else Deliver(t, s, now)
  }

  function ArrivesClosed(t: Tcb, s: Segment): Tcb
  {
    if s.flags.rst then t
    else if s.flags.ack then Reply(t, s.ack, 0, RST)
    else Reply(t, 0, (s.num + SegLen(s)) % U32, RST_ACK)
  }

  /** A connection is numbered from `iss`; its SYN is out. */
  function Begun(t: Tcb, state: State, iss: nat, flags: Flags, now: TimeVal): Tcb
  {
    Output(t.(iss := iss), flags, [], now).(una := iss, nxt := (iss + 1) % U32, state := state, sent := [Syn],
                                                      start := |t.wire|)
  }

  function ArrivesListen(t: Tcb, s: Segment, now: TimeVal, iss: nat): Tcb
  {
    if s.flags.rst then t
    else if s.flags.ack then Reply(t, s.ack, 0, RST)
    else if s.flags.syn then
      Begun(t.(rcvWnd := BUF_SIZE, rcvNxt := (s.num + 1) % U32), SynReceived, iss, SYN_ACK, now)
    else t
  }

  function ArrivesSynSent(t: Tcb, s: Segment, now: TimeVal): Tcb
  {
    if s.flags.ack && (s.ack <= t.iss || t.nxt < s.ack) then Reply(t, s.ack, 0, RST)
    else
      var acceptable := s.flags.ack && t.una <= s.ack <= t.nxt;
      if s.flags.rst then if acceptable then Released(t) else t
      else if s.flags.syn then
        var u := t.(rcvNxt := (s.num + 1) % U32);
        var v := if acceptable then u.(una := s.ack, queue := Cleanup(t.queue, s.ack)) else u;
        if v.una > v.iss then
          Output(v.(state := Established), ACK, [], now).(wnd := s.wnd, wl1 := s.num, wl2 := s.ack)
        else Output(v.(state := SynReceived), SYN_ACK, [], now)
      else t
  }

  function Arrives(t: Tcb, s: Segment, now: TimeVal, iss: nat): Tcb
  {
    match t.state
    case Free => ArrivesClosed(t, s)
    case Closed => ArrivesClosed(t, s)
    case Listen => ArrivesListen(t, s, now, iss)
    case SynSent => ArrivesSynSent(t, s, now)
    case _ => ArrivesSynchronized(t, s, now)
  }

  // ----- user calls -----

  datatype Outcome = Done | Blocked | Failed

  /** How much the peer's window still takes, in 32-bit arithmetic. */
  function Room(t: Tcb): nat
  {
    (t.wnd - (t.nxt - t.una) % U32) % U32
  }

  function SliceLen(t: Tcb, data: seq<Byte>, mss: nat): nat
  {
    if mss <= |data| && mss <= Room(t) then mss else if |data| <= Room(t) then |data| else Room(t)
  }

  function PushOne(t: Tcb, data: seq<Byte>, now: TimeVal): Tcb
  {
    Output(t, ACK_PSH, data, now).(nxt := (t.nxt + |data|) % U32, sent := t.sent + Payload(data))
  }

  /** tcp_send up to the point where it must wait; the network refuses segment number `refuse`. */
  function Push(t: Tcb, data: seq<Byte>, mss: nat, now: TimeVal, refuse: nat): (Tcb, nat, Outcome)
    requires mss > 0
    decreases |data|
  {
    if data == [] then (t, 0, Done)
    else if Room(t) == 0 then (t, 0, Blocked)
    else
      var n := SliceLen(t, data, mss);
      if refuse == 0 then (Released(Output(t, ACK_PSH, data[..n], now)), 0, Failed)
      else
        var (u, k, o) := Push(PushOne(t, data[..n], now), data[n..], mss, now, refuse - 1);
        (u, n + k, o)
  }

  function Send(t: Tcb, data: seq<Byte>, mss: nat, now: TimeVal, refuse: nat): (Tcb, nat, Outcome)
    requires mss > 0
  {
    if t.state in {Established, CloseWait} then Push(t, data, mss, now, refuse) else (t, 0, Failed)
  }

  function Finished(t: Tcb, next: State, now: TimeVal): Tcb
  {
    Output(t, FIN_ACK, [], now).(nxt := (t.nxt + 1) % U32, sent := t.sent + [Fin], state := next)
  }

  function Close(t: Tcb, now: TimeVal): Tcb
  {
    match t.state
    case Listen => Released(t)
    case SynSent => Released(t)
    case SynReceived => Finished(t, FinWait1, now)
    case Established => Finished(t, FinWait1, now)
    case CloseWait => Finished(t, LastAck, now)
    case _ => t
  }

  /** The SYN of tcp_connect and of an active open; the network may refuse it. */
  function Connect(t: Tcb, iss: nat, now: TimeVal, refused: bool): Tcb
  {
    var u := t.(rcvWnd := BUF_SIZE);
    if refused then Released(Output(u.(iss := iss), SYN, [], now))
    else Begun(u, SynSent, iss, SYN, now).(waits := t.waits + [SynSent])
  }

  /** tcp_open_rfc793 without `active`: a free block listens, and the call waits. */
  function PassiveOpen(t: Tcb): Tcb
  {
    if t.state == Free then t.(state := Listen, waits := t.waits + [Listen]) else t
  }

  function Without(waits: seq<State>, i: nat): seq<State>
    requires i < |waits|
  {
    waits[..i] + waits[i + 1..]
  }

  /** Open call number `i` gets its turn: it returns if the connection is established, goes on waiting while nothing has
      changed or a SYN was received, and otherwise releases the block. */
  function WakeOpen(t: Tcb, i: nat): Tcb
  {
    if i >= |t.waits| || t.state == t.waits[i] then t
    else if t.state == Established then t.(waits := Without(t.waits, i))
    else if t.state == SynReceived then t.(waits := t.waits[i := SynReceived])
    else Released(t.(waits := Without(t.waits, i)))
  }

  /** How many octets of the buffer tcp_receive hands out. */
  function Remain(t: Tcb): nat
  {
    (BUF_SIZE - t.rcvWnd) % 0x1_0000_0000_0000_0000
  }

  function Receive(t: Tcb, size: nat): Tcb
  {
    if t.state in {Established, FinWait1, FinWait2, CloseWait} && Remain(t) != 0 then
      t.(rcvWnd := (t.rcvWnd + if size <= Remain(t) then size else Remain(t)) % 0x10000)
    else t
  }

  // ----- the timer -----

  predicate Overdue(e: Entry, now: TimeVal)
  {
    now.Micros() - e.first.Micros() >= RETRANSMIT_DEADLINE * 1000000
  }

  predicate Due(e: Entry, now: TimeVal)
  {
    !Overdue(e, now) && now.Micros() > e.last.Micros() + e.rto
  }

  function Emitted(e: Entry, now: TimeVal): Entry
  {
    if Due(e, now) then e.(last := now, rto := e.rto * 2) else e
  }

  function EmittedAll(q: seq<Entry>, now: TimeVal): (r: seq<Entry>)
    ensures |r| == |q| && forall i | 0 <= i < |q| :: r[i] == Emitted(q[i], now)
  {
    if q == [] then [] else [Emitted(q[0], now)] + EmittedAll(q[1..], now)
  }

  /** The segments that go out again. */
  function Resends(t: Tcb, q: seq<Entry>, now: TimeVal): seq<Segment>
  {
    if q == [] then []
    else (if Due(q[0], now) then [Segment(q[0].num, t.rcvNxt, q[0].flags, t.rcvWnd, q[0].data)] else [])
         + Resends(t, q[1..], now)
  }

  function Tick(t: Tcb, now: TimeVal): Tcb
  {
    if t.state == Free then t
    else if t.state == TimeWait && now.Micros() > t.tw.Micros() then Released(t)
    else t.(queue := EmittedAll(t.queue, now),
            wire := t.wire + Resends(t, t.queue, now),
            state := if exists e | e in t.queue :: Overdue(e, now) then Closed else t.state)
  }
}
