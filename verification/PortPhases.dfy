/** The configuration of root hub ports, one at a time (kernel/usb/xhci/xhci.cpp). */
module PortPhases {

  const PORTS: nat := 256

  datatype Phase = NotConnected | WaitingAddressed | ResettingPort | EnablingSlot | AddressingDevice
                 | InitializingDevice | ConfiguringEndpoints | Configured

  datatype Error = Success | InvalidPhase | InvalidSlotID | UnknownSpeed | DeviceError

  datatype State = State(phase: seq<Phase>, addressing: nat)

  /** What the controller reports, with what the registers and the device manager say at that time: whether a
      device is known for the slot and at which port, whether it is initialized, which ports are connected. */
  datatype Event =
    | ConfigurePort(port: nat, connected: set<nat>)
    | PortStatusChange(port: nat, connected: set<nat>, enabled: bool, resetChanged: bool)
    | EnableSlotDone(known: bool)
    | AddressDeviceDone(known: bool, port: nat, connected: set<nat>)
    | ConfigureEndpointDone(known: bool, port: nat)
    | Transfer(known: bool, port: nat, failed: bool, initialized: bool, speedOk: bool)

  /** Root hub ports are numbered from 1. */
  predicate Possible(ev: Event)
  {
    ev.EnableSlotDone? || 0 < ev.port < PORTS
  }

  predicate Busy(p: Phase)
  {
    p in {ResettingPort, EnablingSlot, AddressingDevice}
  }

  function Rank(p: Phase): nat
  {
    match p
    case NotConnected => 0
    case WaitingAddressed => 1
    case ResettingPort => 2
    case EnablingSlot => 3
    case AddressingDevice => 4
    case InitializingDevice => 5
    case ConfiguringEndpoints => 6
    case Configured => 7
  }

  /** The arrows of the phase diagram. */
  predicate Arrow(p: Phase, q: Phase)
  {
    Rank(q) == Rank(p) + 1 || (p == NotConnected && q == ResettingPort)
  }

  function SetPhase(s: State, port: nat, p: Phase): State
    requires port < |s.phase|
  {
    s.(phase := s.phase[port := p])
  }

  function PortReset(s: State, port: nat, connected: set<nat>): (State, Error)
    requires port < |s.phase|
  {
    if port !in connected then (s, Success)
    else if s.addressing != 0 then (SetPhase(s, port, WaitingAddressed), Success)
    else if s.phase[port] in {NotConnected, WaitingAddressed} then
      (SetPhase(s, port, ResettingPort).(addressing := port), Success)
    else (s, InvalidPhase)
  }

  /** The lowest waiting port from `i` on, or PORTS. */
  function FirstWaiting(s: State, i: nat): (j: nat)
    requires i <= |s.phase|
    ensures i <= j <= |s.phase|
    ensures forall k | i <= k < j :: s.phase[k] != WaitingAddressed
    ensures j < |s.phase| ==> s.phase[j] == WaitingAddressed
    decreases |s.phase| - i
  {
    if i == |s.phase| || s.phase[i] == WaitingAddressed then i else FirstWaiting(s, i + 1)
  }

  function Step(s: State, ev: Event): (State, Error)
    requires |s.phase| == PORTS && s.addressing < PORTS && Possible(ev)
  {
    match ev
    case ConfigurePort(port, connected) =>
      if s.phase[port] == NotConnected then PortReset(s, port, connected) else (s, Success)
    case PortStatusChange(port, connected, enabled, resetChanged) => (
      match s.phase[port]
      case NotConnected => PortReset(s, port, connected)
      case ResettingPort => (if enabled && resetChanged then SetPhase(s, port, EnablingSlot) else s, Success)
      case _ => (s, InvalidPhase))
    case EnableSlotDone(known) =>
      if s.phase[s.addressing] != EnablingSlot then (s, InvalidPhase)
      else if !known then (s, InvalidSlotID)
      else (SetPhase(s, s.addressing, AddressingDevice), Success)
    case AddressDeviceDone(known, port, connected) =>
      if !known then (s, InvalidSlotID)
      else if port != s.addressing || s.phase[port] != AddressingDevice then (s, InvalidPhase)
      else
        var free := s.(addressing := 0);
        var next := FirstWaiting(s, 0);
        var (u, err) := if next < PORTS then PortReset(free, next, connected) else (free, Success);
        if err != Success then (u, err) else (SetPhase(u, port, InitializingDevice), Success)
    case ConfigureEndpointDone(known, port) =>
      if !known then (s, InvalidSlotID)
      else if s.phase[port] != ConfiguringEndpoints then (s, InvalidPhase)
      else (SetPhase(s, port, Configured), Success)
    case Transfer(known, port, failed, initialized, speedOk) =>
      if !known then (s, InvalidSlotID)
      else if failed then (s, DeviceError)
      else if initialized && s.phase[port] == InitializingDevice then
        if speedOk then (SetPhase(s, port, ConfiguringEndpoints), Success) else (s, UnknownSpeed)
      else (s, Success)
  }

  // ----- one port at a time -----

  /** The ports between reset and address are the addressing port alone; port 0 is never one. */
  ghost predicate Exclusive(s: State)
  {
    && |s.phase| == PORTS && s.addressing < PORTS && s.phase[0] == NotConnected
    && (forall p | 0 <= p < PORTS :: Busy(s.phase[p]) <==> p == s.addressing && p != 0)
  }

  lemma {:induction false} StepExclusive(s: State, ev: Event)
    requires Exclusive(s) && Possible(ev)
    ensures Exclusive(Step(s, ev).0)
  {
  }

  /** Every event moves every port along at most one arrow of the diagram. */
  lemma {:induction false} StepArrows(s: State, ev: Event, p: nat)
    requires Exclusive(s) && Possible(ev) && p < PORTS
    ensures |Step(s, ev).0.phase| == PORTS
    ensures Step(s, ev).0.phase[p] == s.phase[p] || Arrow(s.phase[p], Step(s, ev).0.phase[p])
  {
  }

  /** Which events move a port along which arrow, and that nothing else does. */
  lemma {:induction false} ArrowsTaken(s: State, ev: Event, p: nat)
    requires Exclusive(s) && Possible(ev) && p < PORTS
    ensures var was, now := s.phase[p], Step(s, ev).0.phase[p];
            && (was == NotConnected && now != was <==>
                was == NotConnected && (ev.ConfigurePort? || ev.PortStatusChange?) && ev.port == p && p in ev.connected)
            && (was == NotConnected && now != was ==> now == if s.addressing == 0 then ResettingPort else WaitingAddressed)
            && (was == WaitingAddressed && now != was <==>
                was == WaitingAddressed && FirstWaiting(s, 0) == p && ev.AddressDeviceDone? && ev.known && p in ev.connected
                && ev.port == s.addressing && s.phase[ev.port] == AddressingDevice)
            && (was == ResettingPort && now != was <==>
                was == ResettingPort && ev.PortStatusChange? && ev.port == p && ev.enabled && ev.resetChanged)
            && (was == EnablingSlot && now != was <==> was == EnablingSlot && ev.EnableSlotDone? && ev.known)
            && (was == AddressingDevice && now != was <==> was == AddressingDevice && ev.AddressDeviceDone? && ev.known && ev.port == p)
            && (was == InitializingDevice && now != was <==>
                was == InitializingDevice && ev.Transfer? && ev.port == p && ev.known && !ev.failed && ev.initialized && ev.speedOk)
            && (was == ConfiguringEndpoints && now != was <==>
                was == ConfiguringEndpoints && ev.ConfigureEndpointDone? && ev.port == p && ev.known)
            && (was == Configured ==> now == was)
  {
  }

  /** In every run one port at a time is between reset and address. */
  ghost function Run(s: State, evs: seq<Event>): (u: State)
    requires Exclusive(s) && forall i | 0 <= i < |evs| :: Possible(evs[i])
    ensures Exclusive(u)
    decreases |evs|
  {
    if evs == [] then s else StepExclusive(s, evs[0]); Run(Step(s, evs[0]).0, evs[1..])
  }

  /** In every run no port's phase ever decreases. */
  lemma {:induction false} RunExclusive(s: State, evs: seq<Event>, p: nat)
    requires Exclusive(s) && p < PORTS && forall i | 0 <= i < |evs| :: Possible(evs[i])
    ensures Rank(Run(s, evs).phase[p]) >= Rank(s.phase[p])
    decreases |evs|
  {
    if evs != [] {
      hide Step;
      StepExclusive(s, evs[0]);
      StepArrows(s, evs[0], p);
      RunExclusive(Step(s, evs[0]).0, evs[1..], p);
    }
  }

  // ----- who comes next -----

  /** A waiting port that stays unplugged keeps itself and every waiting port behind it waiting for ever. */
  lemma {:induction false} Starves(s: State, evs: seq<Event>, q: nat, p: nat)
    requires Exclusive(s) && q <= p < PORTS && s.phase[q] == s.phase[p] == WaitingAddressed
    requires forall i | 0 <= i < |evs| :: Possible(evs[i]) && (evs[i].AddressDeviceDone? ==> q !in evs[i].connected)
    ensures Run(s, evs).phase[p] == WaitingAddressed
    decreases |evs|
  {
    if evs != [] {
      StepExclusive(s, evs[0]);
      Starves(Step(s, evs[0]).0, evs[1..], q, p) by { hide Step; }
    }
  }

  /** What an event says of the ports connected. */
  function Reported(ev: Event): (r: set<nat>)
  {
    match ev
    case ConfigurePort(_, connected) => connected
    case PortStatusChange(_, connected, _, _) => connected
    case AddressDeviceDone(_, _, connected) => connected
    case _ => {}
  }

  /** The event is of one of the first `ports` ports. */
  predicate OnPorts(ev: Event, ports: nat)
  {
    ev.EnableSlotDone? || ev.port <= ports
  }

  /** Ports the controller does not have are never connected. */
  ghost predicate Has(s: State, ports: nat)
  {
    ports < PORTS && |s.phase| == PORTS && forall r | ports < r < PORTS :: s.phase[r] == NotConnected
  }

  /** Nobody is being addressed, and none of the ports in `plug` could be. */
  ghost predicate Idle(s: State, ports: nat, plug: set<nat>)
  {
    s.addressing == 0 && forall r | 0 < r <= ports && r < |s.phase| && r in plug :: s.phase[r] != NotConnected
  }

  /** Then, as long as no other port is connected, waiting ports wait for ever. */
  lemma {:induction false} IdleWaits(s: State, evs: seq<Event>, p: nat, ports: nat, plug: set<nat>)
    requires Exclusive(s) && Idle(s, ports, plug) && ports < PORTS && p < PORTS && s.phase[p] == WaitingAddressed
    requires forall i | 0 <= i < |evs| :: Possible(evs[i]) && OnPorts(evs[i], ports) && Reported(evs[i]) <= plug
    ensures Run(s, evs).phase[p] == WaitingAddressed
    decreases |evs|
  {
    if evs != [] {
      StepExclusive(s, evs[0]);
      IdleStep(s, evs[0], p, ports, plug);
      IdleWaits(Step(s, evs[0]).0, evs[1..], p, ports, plug) by { hide Step; }
    }
  }

  lemma {:induction false} IdleStep(s: State, ev: Event, p: nat, ports: nat, plug: set<nat>)
    requires Exclusive(s) && Idle(s, ports, plug) && ports < PORTS && p < PORTS && s.phase[p] == WaitingAddressed
    requires Possible(ev) && OnPorts(ev, ports) && Reported(ev) <= plug
    ensures Idle(Step(s, ev).0, ports, plug) && Step(s, ev).0.phase[p] == WaitingAddressed
  {
    assert !ev.EnableSlotDone? && ev.port in plug ==> s.phase[ev.port] != NotConnected;
  }

  /** The ports `connected` are plugged in, and stay so. */
  ghost predicate Plugged(evs: seq<Event>, ports: nat, connected: set<nat>)
  {
    forall i | 0 <= i < |evs| :: Possible(evs[i]) && Says(evs[i], ports, connected)
  }

  ghost predicate Says(ev: Event, ports: nat, connected: set<nat>)
  {
    Possible(ev) && OnPorts(ev, ports) && (ev.ConfigurePort? || ev.PortStatusChange? || ev.AddressDeviceDone? ==> ev.connected == connected)
  }

  lemma {:induction false} RunOn(s: State, ev: Event, evs: seq<Event>, ports: nat, connected: set<nat>)
    requires Exclusive(s) && Says(ev, ports, connected) && Plugged(evs, ports, connected)
    ensures Plugged([ev] + evs, ports, connected) && Exclusive(Step(s, ev).0) && Run(s, [ev] + evs) == Run(Step(s, ev).0, evs)
  {
    hide Step;
    assert ([ev] + evs)[1..] == evs;
    StepExclusive(s, ev);
  }

  /** The lowest waiting port. */
  ghost predicate Next(s: State, n: nat)
  {
    n < |s.phase| && s.phase[n] == WaitingAddressed && forall k | 0 <= k < n :: s.phase[k] != WaitingAddressed
  }

  /** The port being addressed can get its address, and then the lowest waiting port, if connected, is reset. */
  lemma {:induction false} HandOver(s: State, n: nat, ports: nat, connected: set<nat>) returns (evs: seq<Event>)
    requires Exclusive(s) && s.addressing != 0 && Next(s, n) && n in connected && Has(s, ports)
    ensures Plugged(evs, ports, connected)
    ensures Run(s, evs) == State(s.phase[s.addressing := InitializingDevice][n := ResettingPort], n)
    decreases 4 - Rank(s.phase[s.addressing])
  {
    var a := s.addressing;
    assert Busy(s.phase[a]);
    var ev := match s.phase[a]
              case ResettingPort => PortStatusChange(a, connected, true, true)
              case EnablingSlot => EnableSlotDone(true)
              case _ => AddressDeviceDone(true, a, connected);
    var u := Step(s, ev).0;
    StepExclusive(s, ev);
    var rest := [];
    if s.phase[a] == AddressingDevice {
      assert u.phase == s.phase[n := ResettingPort][a := InitializingDevice] == s.phase[a := InitializingDevice][n := ResettingPort];
    } else {
      assert u == SetPhase(s, a, if s.phase[a] == ResettingPort then EnablingSlot else AddressingDevice);
      rest := HandOver(u, n, ports, connected);
      assert u.phase[a := InitializingDevice] == s.phase[a := InitializingDevice];
    }
    RunOn(s, ev, rest, ports, connected);
    evs := [ev] + rest;
  }

  /** A waiting port can be reached if all waiting ports up to it are connected. */
  lemma {:induction false} Reaches(s: State, p: nat, ports: nat, connected: set<nat>) returns (evs: seq<Event>)
    requires Exclusive(s) && p < PORTS && s.phase[p] == WaitingAddressed && s.addressing != 0 && Has(s, ports)
    requires forall q | 0 <= q <= p && s.phase[q] == WaitingAddressed :: q in connected
    ensures Plugged(evs, ports, connected) && Run(s, evs).phase[p] != WaitingAddressed
    decreases p - FirstWaiting(s, 0)
  {
    hide Step;
    var n := FirstWaiting(s, 0);
    assert s.addressing <= ports && n <= ports by { assert Busy(s.phase[s.addressing]); }
    evs := HandOver(s, n, ports, connected);
    var u := Run(s, evs);
    if n != p {
      var rest := Reaches(u, p, ports, connected);
      RunAppend(s, evs, rest, ports, connected);
      evs := evs + rest;
    }
  }

  lemma {:induction false} RunAppend(s: State, xs: seq<Event>, ys: seq<Event>, ports: nat, connected: set<nat>)
    requires Exclusive(s) && Plugged(xs, ports, connected) && Plugged(ys, ports, connected)
    ensures Plugged(xs + ys, ports, connected) && Run(s, xs + ys) == Run(Run(s, xs), ys)
    decreases |xs|
  {
    hide Step;
    if xs == [] {
      assert xs + ys == ys;
    } else {
      StepExclusive(s, xs[0]);
      RunAppend(Step(s, xs[0]).0, xs[1..], ys, ports, connected);
      assert xs + ys == [xs[0]] + (xs[1..] + ys) && xs == [xs[0]] + xs[1..];
    }
  }

  /** A port that is connected but was not configured yet is, while nobody is being addressed. */
  lemma {:induction false} Configures(s: State, r: nat, connected: set<nat>) returns (u: State)
    requires Exclusive(s) && 0 < r < PORTS && s.phase[r] == NotConnected && s.addressing == 0 && r in connected
    ensures u == Step(s, ConfigurePort(r, connected)).0 == State(s.phase[r := ResettingPort], r) && Exclusive(u)
  {
    StepExclusive(s, ConfigurePort(r, connected));
    u := Step(s, ConfigurePort(r, connected)).0;
  }

  /** The event that takes port `p` on, if it need not wait. */
  function Onward(s: State, p: nat, connected: set<nat>): Event
    requires p < |s.phase|
  {
    match s.phase[p]
    case NotConnected => ConfigurePort(p, connected)
    case ResettingPort => PortStatusChange(p, connected, true, true)
    case EnablingSlot => EnableSlotDone(true)
    case AddressingDevice => AddressDeviceDone(true, p, connected)
    case InitializingDevice => Transfer(true, p, false, true, true)
    case _ => ConfigureEndpointDone(true, p)
  }

  /** A port that need not wait. */
  ghost predicate UnderWay(s: State, p: nat, connected: set<nat>)
    requires p < |s.phase|
  {
    if s.phase[p] == NotConnected then p in connected && s.addressing == 0 else s.phase[p] != WaitingAddressed
  }

  lemma {:induction false} GoesOn(s: State, p: nat, ports: nat, connected: set<nat>)
    requires Exclusive(s) && Has(s, ports) && 0 < p <= ports && UnderWay(s, p, connected) && s.phase[p] != Configured
    ensures var ev := Onward(s, p, connected); var (u, err) := Step(s, ev);
            && Says(ev, ports, connected) && err == Success && Exclusive(u) && Has(u, ports) && UnderWay(u, p, connected)
            && Rank(u.phase[p]) > Rank(s.phase[p])
  {
    StepExclusive(s, Onward(s, p, connected));
  }

  /** Every event of the run succeeds. */
  ghost predicate Smooth(s: State, evs: seq<Event>)
    requires Exclusive(s)
    decreases |evs|
  {
    evs == [] || (Possible(evs[0]) && Step(s, evs[0]).1 == Success && (StepExclusive(s, evs[0]); Smooth(Step(s, evs[0]).0, evs[1..])))
  }

  /** A port being addressed or behind that, or a connected one that is new while nobody is being addressed, can be brought
      to the end of the diagram by events that all succeed. */
  lemma {:induction false} Completes(s: State, p: nat, ports: nat, connected: set<nat>) returns (evs: seq<Event>)
    requires Exclusive(s) && Has(s, ports) && 0 < p <= ports && UnderWay(s, p, connected)
    ensures Plugged(evs, ports, connected) && Smooth(s, evs) && Run(s, evs).phase[p] == Configured
    decreases 7 - Rank(s.phase[p])
  {
    hide Step;
    evs := [];
    if s.phase[p] != Configured {
      var ev := Onward(s, p, connected);
      GoesOn(s, p, ports, connected);
      var rest := Completes(Step(s, ev).0, p, ports, connected);
      RunOn(s, ev, rest, ports, connected);
      evs := [ev] + rest;
      assert evs[1..] == rest;
    }
  }

  /** With the ports `connected` plugged in, a waiting port can ever be reset, and then configured, iff the waiting ports up
      to it are all connected, and some port is being addressed or is connected and not configured yet. */
  lemma {:induction false} ServedIff(s: State, p: nat, ports: nat, connected: set<nat>)
    requires Exclusive(s) && Has(s, ports) && p < PORTS && s.phase[p] == WaitingAddressed
    ensures (exists evs :: Plugged(evs, ports, connected) && Run(s, evs).phase[p] != WaitingAddressed) <==>
            !Idle(s, ports, connected) && forall q | 0 <= q <= p && s.phase[q] == WaitingAddressed :: q in connected
    ensures (exists evs :: Plugged(evs, ports, connected) && Run(s, evs).phase[p] == Configured) <==>
            !Idle(s, ports, connected) && forall q | 0 <= q <= p && s.phase[q] == WaitingAddressed :: q in connected
  {
    hide Step;
    if evs :| Plugged(evs, ports, connected) && Run(s, evs).phase[p] != WaitingAddressed {
      ServedThenConfigured(s, evs, p, ports, connected);
    }
    if exists evs :: Plugged(evs, ports, connected) && Run(s, evs).phase[p] != WaitingAddressed {
      var evs :| Plugged(evs, ports, connected) && Run(s, evs).phase[p] != WaitingAddressed;
      assert forall i | 0 <= i < |evs| :: Says(evs[i], ports, connected);
      if Idle(s, ports, connected) { IdleWaits(s, evs, p, ports, connected); }
      forall q | 0 <= q <= p && s.phase[q] == WaitingAddressed
        ensures q in connected
      {
        if q !in connected { Starves(s, evs, q, p); }
      }
    }
    if !Idle(s, ports, connected) && forall q | 0 <= q <= p && s.phase[q] == WaitingAddressed :: q in connected {
      if s.addressing != 0 {
        var evs := Reaches(s, p, ports, connected);
      } else {
        var r: nat :| 0 < r <= ports && r in connected && s.phase[r] == NotConnected;
        var u := Configures(s, r, connected);
        var rest := Reaches(u, p, ports, connected);
        RunOn(s, ConfigurePort(r, connected), rest, ports, connected);
      }
    }
  }

  lemma {:induction false} ServedThenConfigured(s: State, evs: seq<Event>, p: nat, ports: nat, connected: set<nat>)
    requires Exclusive(s) && Has(s, ports) && p < PORTS && s.phase[p] == WaitingAddressed && Plugged(evs, ports, connected)
    requires Run(s, evs).phase[p] != WaitingAddressed
    ensures exists more :: Plugged(more, ports, connected) && Run(s, more).phase[p] == Configured
  {
    hide Step;
    var u := Run(s, evs);
    RunExclusive(s, evs, p);
    RunHas(s, evs, ports, connected);
    var rest := Completes(u, p, ports, connected);
    RunAppend(s, evs, rest, ports, connected);
  }

  lemma {:induction false} RunHas(s: State, evs: seq<Event>, ports: nat, connected: set<nat>)
    requires Exclusive(s) && Has(s, ports) && Plugged(evs, ports, connected)
    ensures Has(Run(s, evs), ports)
    decreases |evs|
  {
    if evs != [] {
      StepExclusive(s, evs[0]);
      assert Says(evs[0], ports, connected);
      StepHas(s, evs[0], ports);
      RunHas(Step(s, evs[0]).0, evs[1..], ports, connected) by { hide Step; }
    }
  }

  lemma {:induction false} StepHas(s: State, ev: Event, ports: nat)
    requires Exclusive(s) && Has(s, ports) && Possible(ev) && OnPorts(ev, ports)
    ensures Has(Step(s, ev).0, ports)
  {
  }

  function NoneConnected(): (s: State)
    ensures Exclusive(s) && forall p | 0 <= p < PORTS :: s.phase[p] == NotConnected
  {
    State(seq(PORTS, _ => NotConnected), 0)
  }

  /** Two ports, two devices: the second one is out while the first one gets its address, and comes back too late. */
  function TwoPorts(): seq<Event>
  {
    [PortStatusChange(1, {1, 2}, true, false), PortStatusChange(2, {1, 2}, true, false), PortStatusChange(1, {1, 2}, true, true),
     EnableSlotDone(true), AddressDeviceDone(true, 1, {1})]
  }

  lemma {:induction false} TwoPortsRun() returns (s: State)
    ensures forall i | 0 <= i < |TwoPorts()| :: Possible(TwoPorts()[i]) && OnPorts(TwoPorts()[i], 2)
    ensures s == Run(NoneConnected(), TwoPorts()) && s == State(NoneConnected().phase[2 := WaitingAddressed][1 := InitializingDevice], 0)
  {
    hide Step;
    var evs, s0 := TwoPorts(), NoneConnected();
    var s1, s2 := State(s0.phase[1 := ResettingPort], 1), State(s0.phase[1 := ResettingPort][2 := WaitingAddressed], 1);
    var s3, s4 := State(s2.phase[1 := EnablingSlot], 1), State(s2.phase[1 := AddressingDevice], 1);
    s := State(s0.phase[2 := WaitingAddressed][1 := InitializingDevice], 0);
    TwoPortsSteps(s0, s1, s2, s3, s4, s);
    assert evs[1..][0] == evs[1] && evs[1..][1..] == evs[2..] && evs[2..][1..] == evs[3..] && evs[3..][1..] == evs[4..];
    assert evs[4..][1..] == [];
    StepExclusive(s0, evs[0]);
    StepExclusive(s1, evs[1]);
    StepExclusive(s2, evs[2]);
    StepExclusive(s3, evs[3]);
    StepExclusive(s4, evs[4]);
    assert Run(s, []) == s;
    assert Run(s4, evs[4..]) == s;
    assert Run(s3, evs[3..]) == s;
    assert Run(s2, evs[2..]) == s;
    assert Run(s1, evs[1..]) == s;
  }

  lemma {:induction false} TwoPortsSteps(s0: State, s1: State, s2: State, s3: State, s4: State, s5: State)
    requires s0 == NoneConnected() && s1 == State(s0.phase[1 := ResettingPort], 1)
    requires s2 == State(s1.phase[2 := WaitingAddressed], 1) && s3 == State(s2.phase[1 := EnablingSlot], 1)
    requires s4 == State(s2.phase[1 := AddressingDevice], 1)
    requires s5 == State(s0.phase[2 := WaitingAddressed][1 := InitializingDevice], 0)
    ensures Step(s0, TwoPorts()[0]).0 == s1 && Step(s1, TwoPorts()[1]).0 == s2 && Step(s2, TwoPorts()[2]).0 == s3
    ensures Step(s3, TwoPorts()[3]).0 == s4 && Step(s4, TwoPorts()[4]).0 == s5
  {
    assert s3.phase[1 := AddressingDevice] == s4.phase;
    assert s4.phase[2] == WaitingAddressed && forall k | 0 <= k < PORTS && k != 2 :: s4.phase[k] != WaitingAddressed;
    assert FirstWaiting(s4, 0) == 2;
    assert s4.phase[1 := InitializingDevice] == s5.phase;
  }

  /** From then on the second device waits for ever, plugged in or not. */
  lemma {:induction false} TwoPortsExample(evs: seq<Event>)
    requires forall i | 0 <= i < |evs| :: Possible(evs[i]) && OnPorts(evs[i], 2)
    ensures Exclusive(Run(NoneConnected(), TwoPorts())) && Run(Run(NoneConnected(), TwoPorts()), evs).phase[2] == WaitingAddressed
  {
    hide Step;
    var s := TwoPortsRun();
    var plug := AllReported(evs);
    assert Idle(s, 2, plug);
    IdleWaits(s, evs, 2, 2, plug);
  }

  /** All ports ever reported connected. */
  lemma {:induction false} AllReported(evs: seq<Event>) returns (plug: set<nat>)
    ensures forall i | 0 <= i < |evs| :: Reported(evs[i]) <= plug
    decreases |evs|
  {
    if evs == [] {
      plug := {};
    } else {
      var rest := AllReported(evs[1..]);
      plug := Reported(evs[0]) + rest;
      forall i | 0 <= i < |evs|
        ensures Reported(evs[i]) <= plug
      {
        if i > 0 { assert evs[i] == evs[1..][i - 1]; }
      }
    }
  }

  // ----- the event handlers -----

  /** port_config_phase and addressing_port. */
  class PortConfiguration {
    const phase: array<Phase>
    var addressingPort: nat

    constructor ()
      ensures Valid() && fresh(phase) && addressingPort == 0
      ensures forall p | 0 <= p < PORTS :: phase[p] == NotConnected
    {
      phase := new Phase[PORTS](_ => NotConnected);
      addressingPort := 0;
    }

    ghost predicate Valid()
      reads this, phase
    {
      phase.Length == PORTS && Exclusive(View())
    }

    ghost function View(): State
      reads this, phase
    {
      State(phase[..], addressingPort)
    }

    method ResetPort(port: nat, connected: set<nat>) returns (err: Error)
      requires phase.Length == PORTS && port < PORTS
      modifies this, phase
      ensures (View(), err) == PortReset(old(View()), port, connected)
    {
      if port !in connected {
        return Success;
      }
      if addressingPort != 0 {
        phase[port] := WaitingAddressed;
      } else {
        if phase[port] != NotConnected && phase[port] != WaitingAddressed {
          return InvalidPhase;
        }
        addressingPort := port;
        phase[port] := ResettingPort;
      }
      return Success;
    }

    method ConfigurePort(port: nat, connected: set<nat>) returns (err: Error)
      requires Valid() && 0 < port < PORTS
      modifies this, phase
      ensures Valid() && (View(), err) == Step(old(View()), Event.ConfigurePort(port, connected))
    {
      StepExclusive(View(), Event.ConfigurePort(port, connected));
      if phase[port] == NotConnected {
        err := ResetPort(port, connected);
        return;
      }
      return Success;
    }

    method OnPortStatusChange(port: nat, connected: set<nat>, enabled: bool, resetChanged: bool) returns (err: Error)
      requires Valid() && 0 < port < PORTS
      modifies this, phase
      ensures Valid() && (View(), err) == Step(old(View()), PortStatusChange(port, connected, enabled, resetChanged))
    {
      StepExclusive(View(), PortStatusChange(port, connected, enabled, resetChanged));
      match phase[port] {
        case NotConnected =>
          err := ResetPort(port, connected);
        case ResettingPort =>
          if enabled && resetChanged {
            phase[port] := EnablingSlot;
          }
          err := Success;
        case _ =>
          err := InvalidPhase;
      }
    }

    method OnEnableSlotDone(known: bool) returns (err: Error)
      requires Valid()
      modifies this, phase
      ensures Valid() && (View(), err) == Step(old(View()), EnableSlotDone(known))
    {
      StepExclusive(View(), EnableSlotDone(known));
      if phase[addressingPort] != EnablingSlot {
        return InvalidPhase;
      }
      if !known {
        return InvalidSlotID;
      }
      phase[addressingPort] := AddressingDevice;
      return Success;
    }

    method OnAddressDeviceDone(known: bool, port: nat, connected: set<nat>) returns (err: Error)
      requires Valid() && 0 < port < PORTS
      modifies this, phase
      ensures Valid() && (View(), err) == Step(old(View()), AddressDeviceDone(known, port, connected))
    {
      StepExclusive(View(), AddressDeviceDone(known, port, connected));
      if !known {
        return InvalidSlotID;
      }
      if port != addressingPort {
        return InvalidPhase;
      }
      if phase[port] != AddressingDevice {
        return InvalidPhase;
      }
      ghost var s := View();
      addressingPort := 0;
      var i := 0;
      while i < PORTS
        invariant 0 <= i <= PORTS && View() == s.(addressing := 0)
        invariant FirstWaiting(s, i) == FirstWaiting(s, 0)
      {
        if phase[i] == WaitingAddressed {
          err := ResetPort(i, connected);
          if err != Success {
            return;
          }
          break;
        }
        i := i + 1;
      }
      phase[port] := InitializingDevice;
      return Success;
    }

    method OnConfigureEndpointDone(known: bool, port: nat) returns (err: Error)
      requires Valid() && 0 < port < PORTS
      modifies this, phase
      ensures Valid() && (View(), err) == Step(old(View()), ConfigureEndpointDone(known, port))
    {
      StepExclusive(View(), ConfigureEndpointDone(known, port));
      if !known {
        return InvalidSlotID;
      }
      if phase[port] != ConfiguringEndpoints {
        return InvalidPhase;
      }
      phase[port] := Configured;
      return Success;
    }

    method OnTransfer(known: bool, port: nat, failed: bool, initialized: bool, speedOk: bool) returns (err: Error)
      requires Valid() && 0 < port < PORTS
      modifies this, phase
      ensures Valid() && (View(), err) == Step(old(View()), Transfer(known, port, failed, initialized, speedOk))
    {
      StepExclusive(View(), Transfer(known, port, failed, initialized, speedOk));
      if !known {
        return InvalidSlotID;
      }
      if failed {
        return DeviceError;
      }
      if initialized && phase[port] == InitializingDevice {
        if !speedOk {
          return UnknownSpeed;
        }
        phase[port] := ConfiguringEndpoints;
      }
      return Success;
    }
  }
}
