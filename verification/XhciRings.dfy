/** The classes Ring and EventRing of kernel/usb/xhci/ring.cpp. */
module XhciRings {
  import opened RingPositions
  import opened TransferRing

  class Ring {
    const base: nat
    const buf: array<Trb>
    var cycleBit: bool
    var writeIndex: nat

    /** Ring::Initialize with a buffer at physical address `base`. */
    constructor Initialize(base: nat, bufSize: nat)
      requires bufSize >= 2 && Aligned(base)
      ensures Valid() && fresh(buf) && buf.Length == bufSize
      ensures Inv(World(State(), Idle, 0, true, false, [], [], 0, 0))
    {
      this.base := base;
      cycleBit := true;
      writeIndex := 0;
      buf := new Trb[bufSize](_ => ZERO);
      new;
      assert buf[..] == seq(bufSize, _ => ZERO);
      InitInv(base, bufSize);
    }

    ghost predicate Valid()
      reads this
    {
      buf.Length >= 2 && writeIndex < buf.Length - 1
    }

    ghost function State(): RingState
      reads this, buf
    {
      RingState(base, buf[..], writeIndex, cycleBit)
    }

    method CopyToLast(data: Trb)
      requires writeIndex < buf.Length
      modifies buf
      ensures buf[..] == old(buf[..])[writeIndex := data.WithCycle(cycleBit)]
    {
      var i := 0;
      while i < 3
        invariant 0 <= i <= 3 && Partly(buf[writeIndex], i, data)
        invariant forall j | 0 <= j < buf.Length && j != writeIndex :: buf[j] == old(buf[j])
      {
        buf[writeIndex] := SetWord(buf[writeIndex], i, data, cycleBit);
        i := i + 1;
      }
      buf[writeIndex] := SetWord(buf[writeIndex], 3, data, cycleBit);
    }

    /** Returns where the TRB was put. */
    method Push(data: Trb) returns (at: nat)
      requires Valid()
      modifies this, buf
      ensures Valid() && at == old(writeIndex)
      ensures State() == Pushed(old(State()), data)
    {
      at := writeIndex;
      CopyToLast(data);
      writeIndex := writeIndex + 1;
      if writeIndex == buf.Length - 1 {
        CopyToLast(LinkTo(base));
        writeIndex := 0;
        cycleBit := !cycleBit;
      }
    }
  }

  // ----- the event ring -----

  /** The event ring with what the controller has written to it and how much of that has been popped. */
  datatype Events = Events(buf: seq<Trb>, dequeue: nat, cycleBit: bool, posted: seq<Trb>, popped: nat)

  ghost predicate EventsInv(e: Events)
  {
    var n := |e.buf|;
    && n >= 1 && e.popped <= |e.posted| <= e.popped + n
    && e.dequeue == Idx(e.popped, n) && e.cycleBit == Cycle(e.popped, n)
    && (forall a: nat | e.popped <= a < |e.posted| :: EventAt(e, a))
    && (forall a: nat | |e.posted| <= a < e.popped + n :: e.buf[Idx(a, n)].CycleBit() != Cycle(a, n))
  }

  ghost predicate EventAt(e: Events, a: nat)
    requires |e.buf| >= 1 && a < |e.posted|
  {
    e.buf[Idx(a, |e.buf|)] == e.posted[a].WithCycle(Cycle(a, |e.buf|))
  }

  /** The controller writes an event, with the cycle state of its lap. */
  ghost function Post(e: Events, t: Trb): Events
    requires |e.buf| >= 1
  {
    var n, p := |e.buf|, |e.posted|;
    e.(buf := e.buf[Idx(p, n) := t.WithCycle(Cycle(p, n))], posted := e.posted + [t])
  }

  ghost function Popped(e: Events): Events
  {
    if e.dequeue + 1 == |e.buf| then e.(dequeue := 0, cycleBit := !e.cycleBit, popped := e.popped + 1)
    else e.(dequeue := e.dequeue + 1, popped := e.popped + 1)
  }

  /** The oldest event not yet popped is at the front, and there is a front iff there is such an event. */
  lemma {:induction false} FrontIsOldest(e: Events)
    requires EventsInv(e)
    ensures e.buf[e.dequeue].CycleBit() == e.cycleBit <==> e.popped < |e.posted|
    ensures e.popped < |e.posted| ==> e.buf[e.dequeue].Bare() == e.posted[e.popped].Bare()
  {
    hide Idx, Cycle;
    if e.popped < |e.posted| {
      assert EventAt(e, e.popped);
      CycleWritten(e.posted[e.popped], e.cycleBit);
    }
  }

  lemma {:induction false} PoppedInv(e: Events)
    requires EventsInv(e) && e.popped < |e.posted|
    ensures EventsInv(Popped(e))
  {
    hide Idx, Cycle;
    var n, u := |e.buf|, Popped(e);
    NextSlot(e.popped, n);
    NextLap(e.popped, n);
    FrontIsOldest(e);
    forall a: nat | e.popped + 1 <= a < |e.posted|
      ensures EventAt(u, a)
    {
      assert EventAt(e, a);
    }
  }

  lemma {:induction false} PostInv(e: Events, t: Trb)
    requires EventsInv(e) && |e.posted| < e.popped + |e.buf|
    ensures EventsInv(Post(e, t))
  {
    hide Idx, Cycle;
    var n, p, u := |e.buf|, |e.posted|, Post(e, t);
    forall a: nat | e.popped <= a < p + 1
      ensures EventAt(u, a)
    {
      if a < p {
        assert EventAt(e, a);
        SlotsDiffer(a, p, n);
      }
    }
    forall a: nat | p + 1 <= a < e.popped + n
      ensures u.buf[Idx(a, n)].CycleBit() != Cycle(a, n)
    {
      SlotsDiffer(p, a, n);
    }
  }

  /** An event written to a full ring hides all outstanding ones: the software sees an event after a post iff
      the ring was not full. */
  lemma {:induction false} PostSeenIff(e: Events, t: Trb)
    requires EventsInv(e)
    ensures var u := Post(e, t); u.buf[u.dequeue].CycleBit() == u.cycleBit <==> |e.posted| < e.popped + |e.buf|
  {
    hide Idx, Cycle;
    var u := Post(e, t);
    if |e.posted| < e.popped + |e.buf| {
      PostInv(e, t);
      FrontIsOldest(u);
    } else {
      NextLap(e.popped, |e.buf|);
      CycleWritten(t, Cycle(|e.posted|, |e.buf|));
    }
  }

  class EventRing {
    const buf: array<Trb>
    var cycleBit: bool
    var erdp: nat
    ghost var posted: seq<Trb>
    ghost var popped: nat

    constructor Initialize(bufSize: nat)
      requires bufSize >= 1
      ensures Valid() && fresh(buf) && buf.Length == bufSize && posted == [] && popped == 0
    {
      cycleBit := true;
      buf := new Trb[bufSize](_ => ZERO);
      erdp := 0;
      posted, popped := [], 0;
      new;
      FirstLap(0, bufSize);
      forall a: nat | 0 <= a < bufSize
        ensures buf[..][Idx(a, bufSize)].CycleBit() != Cycle(a, bufSize)
      {
        FirstLap(a, bufSize);
      }
    }

    ghost function State(): Events
      reads this, buf
    {
      Events(buf[..], erdp, cycleBit, posted, popped)
    }

    ghost predicate Valid()
      reads this, buf
    {
      EventsInv(State())
    }

    /** The controller's side: it posts only while the ring is not full. */
    method HardwarePost(t: Trb, at: nat, cycle: bool)
      requires Valid() && |posted| < popped + buf.Length
      requires at == Idx(|posted|, buf.Length) && cycle == Cycle(|posted|, buf.Length)
      modifies buf, this`posted
      ensures Valid() && posted == old(posted) + [t] && State() == Post(old(State()), t)
    {
      hide EventsInv;
      PostInv(State(), t);
      buf[at] := t.WithCycle(cycle);
      posted := posted + [t];
    }

    method HasFront() returns (b: bool)
      requires Valid()
      ensures b <==> popped < |posted|
    {
      FrontIsOldest(State());
      b := buf[erdp].CycleBit() == cycleBit;
    }

    /** ReadDequeuePointer: the event to be handled next. */
    method Front() returns (t: Trb)
      requires Valid() && popped < |posted|
      ensures t.Bare() == posted[popped].Bare()
    {
      FrontIsOldest(State());
      t := buf[erdp];
    }

    method Pop()
      requires Valid() && popped < |posted|
      modifies this`erdp, this`cycleBit, this`popped
      ensures Valid() && popped == old(popped) + 1
      ensures State() == Popped(old(State()))
    {
      hide EventsInv;
      PoppedInv(State());
      var p := erdp + 1;
      if p == buf.Length {
        p := 0;
        cycleBit := !cycleBit;
      }
      erdp := p;
      popped := popped + 1;
    }

    /** ProcessEvents: handles every outstanding event once, oldest first. */
    method ProcessEvents() returns (handled: seq<Trb>)
      requires Valid()
      modifies this`erdp, this`cycleBit, this`popped
      ensures Valid() && popped == |posted| == old(popped) + |handled|
      ensures forall i | 0 <= i < |handled| :: handled[i].Bare() == posted[old(popped) + i].Bare()
    {
      hide EventsInv;
      handled := [];
      var more := HasFront();
      Bounded(State());
      while more
        invariant Valid() && popped == old(popped) + |handled| <= |posted| && (more <==> popped < |posted|)
        invariant forall i | 0 <= i < |handled| :: handled[i].Bare() == posted[old(popped) + i].Bare()
        decreases |posted| - popped
      {
        var t := Front();
        handled := handled + [t];
        Pop();
        more := HasFront();
      }
    }
  }

  lemma {:induction false} Bounded(e: Events)
    requires EventsInv(e)
    ensures e.popped <= |e.posted|
  {
  }
}
