/** The producer rings of kernel/usb/xhci/ring.cpp against a consumer that follows cycle bits and links. */
module TransferRing {
  import opened RingPositions

  const LINK_TYPE: nat := 6

  datatype Trb = Trb(w0: nat, w1: nat, w2: nat, w3: nat) {

    predicate CycleBit()
    {
      w3 % 2 == 1
    }

    function Type(): nat
    {
      w3 / 1024 % 64
    }

    predicate ToggleCycle()
    {
      w3 / 2 % 2 == 1
    }

    /** `(data[3] & 0xfffffffe) | cycle` */
    function WithCycle(cycle: bool): Trb
    {
      Trb(w0, w1, w2, w3 - w3 % 2 + (if cycle then 1 else 0))
    }

    /** Up to its cycle bit. */
    function Bare(): Trb
    {
      WithCycle(false)
    }
  }

  const TWO32: nat := 0x1_0000_0000

  /** LinkTRB with toggle_cycle, pointing to the ring's buffer: 60 bits of the address, above four others. */
  function LinkTo(base: nat): Trb
  {
    Trb(base / 16 * 16 % TWO32, base / TWO32, 0, LINK_TYPE * 1024 + 2)
  }

  /** Where a link points, as a controller reads it. */
  function Target(t: Trb): nat
  {
    (t.w0 + t.w1 * TWO32) / 16 * 16
  }

  /** The buffers AllocArray gives. */
  predicate Aligned(base: nat)
  {
    base % 16 == 0 && base < TWO32 * TWO32
  }

  const ZERO := Trb(0, 0, 0, 0)

  /** What the producer is about to write: word `k` of its current slot. */
  datatype Pc = Idle | Word(k: nat, trb: Trb)

  datatype RingState = RingState(base: nat, buf: seq<Trb>, writeIndex: nat, cycleBit: bool)

  /** The ring, the consumer's position in it, unless a link has led it astray, what has passed, and how many slots either
      side has done. */
  datatype World = World(ring: RingState, pc: Pc, readIndex: nat, readCycle: bool, astray: bool,
                         pushed: seq<Trb>, taken: seq<Trb>, head: nat, tail: nat)

  datatype Action = Begin(trb: Trb) | Write | Take

  function SetWord(t: Trb, k: nat, v: Trb, cycle: bool): Trb
  {
    if k == 0 then t.(w0 := v.w0) else if k == 1 then t.(w1 := v.w1) else if k == 2 then t.(w2 := v.w2)
    else t.(w3 := v.WithCycle(cycle).w3)
  }

  predicate WellSized(r: RingState)
  {
    |r.buf| >= 2 && r.writeIndex < |r.buf|
  }

  /** The producer writes one word; after the last word of a slot it moves on. */
  function Advance(w: World): World
    requires WellSized(w.ring) && w.pc.Word?
  {
    var r, n, k, i := w.ring, |w.ring.buf|, w.pc.k, w.ring.writeIndex;
    var m := r.(buf := r.buf[i := SetWord(r.buf[i], k, w.pc.trb, r.cycleBit)]);
    if k < 3 then w.(ring := m, pc := Word(k + 1, w.pc.trb))
    else if i == n - 1 then w.(ring := m.(writeIndex := 0, cycleBit := !r.cycleBit), pc := Idle, head := w.head + 1)
    else
      w.(ring := m.(writeIndex := i + 1),
         pc := if i + 1 == n - 1 then Word(0, LinkTo(r.base)) else Idle,
         pushed := w.pushed + [w.pc.trb.Bare()],
         head := w.head + 1)
  }

  /** The consumer owns the slot it looks at. */
  predicate Ready(w: World)
  {
    !w.astray && w.readIndex < |w.ring.buf| && w.ring.buf[w.readIndex].CycleBit() == w.readCycle
  }

  /** The consumer follows a link to the address in it; only the start of the ring is in the ring again. */
  function Consume(w: World): World
    requires Ready(w)
  {
    var t := w.ring.buf[w.readIndex];
    if t.Type() == LINK_TYPE then
      w.(readIndex := 0, astray := Target(t) != w.ring.base,
         readCycle := if t.ToggleCycle() then !w.readCycle else w.readCycle, tail := w.tail + 1)
    else w.(readIndex := w.readIndex + 1, taken := w.taken + [t.Bare()], tail := w.tail + 1)
  }

  function Step(w: World, a: Action): World
    requires WellSized(w.ring)
  {
    match a
    case Begin(trb) => if w.pc.Idle? then w.(pc := Word(0, trb)) else w
    case Write => if w.pc.Word? then Advance(w) else w
    case Take => if Ready(w) then Consume(w) else w
  }

  // ----- the invariant -----

  /** How many of the first `p` positions hold TRBs other than links. */
  function Plain(p: nat, n: nat): nat
    requires n >= 2
  {
    if p == 0 then 0 else Plain(p - 1, n) + (if Idx(p - 1, n) == n - 1 then 0 else 1)
  }

  ghost predicate Positions(w: World)
  {
    var n, p, c := |w.ring.buf|, w.head, w.tail;
    && n >= 2 && c <= p <= c + n
    && w.ring.writeIndex == Idx(p, n) && w.ring.cycleBit == Cycle(p, n)
    && w.readIndex == Idx(c, n) && w.readCycle == Cycle(c, n)
    && |w.pushed| == Plain(p, n) && Plain(c, n) <= |w.pushed| && w.taken == w.pushed[..Plain(c, n)]
  }

  /** What position `a` was written with. */
  ghost predicate Holds(w: World, a: nat)
    requires |w.ring.buf| >= 2
  {
    var n := |w.ring.buf|;
    Written(w.ring.buf[Idx(a, n)], Cycle(a, n), Idx(a, n) == n - 1, w.ring.base, w.pushed, Plain(a, n))
  }

  ghost predicate Written(t: Trb, cycle: bool, link: bool, base: nat, pushed: seq<Trb>, i: nat)
  {
    t.CycleBit() == cycle && if link then t.Bare() == LinkTo(base) else i < |pushed| && t.Bare() == pushed[i]
  }

  /** Written and not consumed slots hold what was pushed; the others are not the consumer's. */
  ghost predicate Slots(w: World)
    requires |w.ring.buf| >= 2
  {
    var n := |w.ring.buf|;
    && (forall a: nat | w.tail <= a < w.head :: Holds(w, a))
    && (forall a: nat | w.head <= a < w.tail + n :: w.ring.buf[Idx(a, n)].CycleBit() != Cycle(a, n))
  }

  ghost predicate Plainly(s: seq<Trb>)
  {
    forall i | 0 <= i < |s| :: s[i].Bare() == s[i] && s[i].Type() != LINK_TYPE
  }

  /** How many slots a push writes from write index `i`. */
  function Need(i: nat, n: nat): nat
  {
    if i + 2 == n then 2 else 1
  }

  /** The words written so far of the slot being written. */
  ghost predicate Partly(t: Trb, k: nat, trb: Trb)
  {
    k <= 3 && (k > 0 ==> t.w0 == trb.w0) && (k > 1 ==> t.w1 == trb.w1) && (k > 2 ==> t.w2 == trb.w2)
  }

  ghost predicate Writing(w: World)
    requires WellSized(w.ring)
  {
    var n, i := |w.ring.buf|, w.ring.writeIndex;
    match w.pc
    case Idle => i != n - 1
    case Word(k, trb) =>
      && Partly(w.ring.buf[i], k, trb) && (if i == n - 1 then trb == LinkTo(w.ring.base) else trb.Type() != LINK_TYPE)
      && w.head + Need(i, n) <= w.tail + n
  }

  ghost predicate Inv(w: World)
  {
    WellSized(w.ring) && Positions(w) && Slots(w) && Plainly(w.pushed) && Writing(w) && Aligned(w.ring.base) && !w.astray
  }

  /** There is room for one more push. */
  predicate Fits(w: World)
  {
    w.head + Need(w.ring.writeIndex, |w.ring.buf|) <= w.tail + |w.ring.buf|
  }

  // ----- single TRBs -----

  lemma {:induction false} CycleWritten(t: Trb, cycle: bool)
    ensures t.WithCycle(cycle).CycleBit() == cycle && t.WithCycle(cycle).Bare() == t.Bare()
    ensures t.Bare().Bare() == t.Bare() && t.Bare().Type() == t.Type()
  {
    var half := t.w3 / 2;
    assert t.w3 - t.w3 % 2 == 2 * half;
    assert t.w3 / 1024 == half / 512 && 2 * half / 1024 == half / 512;
  }

  /** The link leads back to the start of the ring, and toggles the cycle state. */
  lemma {:induction false} LinkIsLink(t: Trb, base: nat)
    requires t.Bare() == LinkTo(base) && Aligned(base)
    ensures t.Type() == LINK_TYPE && t.ToggleCycle() && Target(t) == base && t.w2 == 0
  {
    assert t.w3 - t.w3 % 2 == LINK_TYPE * 1024 + 2;
    assert base / 16 * 16 == base && base % TWO32 + base / TWO32 * TWO32 == base;
  }

  lemma {:induction false} LinkBare(base: nat)
    ensures LinkTo(base).Bare() == LinkTo(base)
  {
  }

  /** The first three words leave the cycle bit alone. */
  lemma {:induction false} EarlyWord(t: Trb, k: nat, trb: Trb, cycle: bool)
    requires k < 3 && Partly(t, k, trb)
    ensures SetWord(t, k, trb, cycle).CycleBit() == t.CycleBit() && Partly(SetWord(t, k, trb, cycle), k + 1, trb)
  {
  }

  lemma {:induction false} LastWord(t: Trb, trb: Trb, cycle: bool)
    requires Partly(t, 3, trb)
    ensures SetWord(t, 3, trb, cycle) == trb.WithCycle(cycle)
  {
  }

  // ----- the consumer -----

  lemma {:induction false} PlainGrows(c: nat, p: nat, n: nat)
    requires n >= 2 && c <= p
    ensures Plain(c, n) <= Plain(p, n)
    decreases p - c
  {
    if c < p { PlainGrows(c, p - 1, n); }
  }

  /** Before the last word is written the consumer sees nothing: it is ready iff there is something it has not
      consumed. */
  lemma {:induction false} ReadyIff(w: World)
    requires Inv(w)
    ensures Ready(w) <==> w.tail < w.head
  {
    hide Idx, Cycle, Plain, Plainly, Writing, Written;
    if w.tail < w.head {
      assert Holds(w, w.tail);
      WrittenCycle(w, w.tail);
    }
  }

  lemma {:induction false} WrittenCycle(w: World, a: nat)
    requires |w.ring.buf| >= 2 && Holds(w, a)
    ensures w.ring.buf[Idx(a, |w.ring.buf|)].CycleBit() == Cycle(a, |w.ring.buf|)
  {
  }

  /** What a ready consumer reads. */
  lemma {:induction false} Reads(w: World)
    requires Inv(w) && Ready(w)
    ensures var t, n, c := w.ring.buf[w.readIndex], |w.ring.buf|, w.tail;
            c < w.head && Plain(c + 1, n) <= |w.pushed|
            && if Idx(c, n) == n - 1 then t.Type() == LINK_TYPE && t.ToggleCycle() && Target(t) == w.ring.base && Plain(c + 1, n) == Plain(c, n)
               else t.Type() != LINK_TYPE && Plain(c + 1, n) == Plain(c, n) + 1 && t.Bare() == w.pushed[Plain(c, n)]
  {
    hide Idx, Cycle, Writing;
    var t, n, c := w.ring.buf[w.readIndex], |w.ring.buf|, w.tail;
    ReadyIff(w);
    assert Holds(w, c);
    PlainGrows(c + 1, w.head, n);
    if Idx(c, n) == n - 1 { LinkIsLink(t, w.ring.base); } else { CycleWritten(t, true); }
  }

  lemma {:induction false} TakePositions(w: World)
    requires Inv(w) && Ready(w)
    ensures Positions(Consume(w))
  {
    hide Idx, Cycle, Plain, Slots, Writing;
    Reads(w);
    NextSlot(w.tail, |w.ring.buf|);
  }

  lemma {:induction false} TakeSlots(w: World)
    requires Inv(w) && Ready(w)
    ensures Slots(Consume(w))
  {
    hide Idx, Cycle, Plain, Written, Writing;
    var n := |w.ring.buf|;
    ReadyIff(w);
    NextLap(w.tail, n);
    forall a: nat | w.head <= a < w.tail + 1 + n
      ensures w.ring.buf[Idx(a, n)].CycleBit() != Cycle(a, n)
    {
      if a == w.tail + n { assert w.ring.buf[Idx(w.tail, n)].CycleBit() == Cycle(w.tail, n); }
    }
    forall a: nat | w.tail + 1 <= a < w.head
      ensures Holds(Consume(w), a)
    {
      assert Holds(w, a);
    }
  }

  lemma {:induction false} TakeInv(w: World)
    requires Inv(w) && Ready(w)
    ensures Inv(Consume(w))
  {
    hide Positions, Slots, Plainly;
    Reads(w);
    TakePositions(w);
    TakeSlots(w);
  }

  // ----- the producer -----

  /** Writing to the slot of a free position leaves all others as they are. */
  lemma {:induction false} OtherSlots(p: nat, a: nat, c: nat, n: nat)
    requires n >= 2 && c <= a && a != p && c <= p && p < c + n && a < c + n
    ensures Idx(a, n) != Idx(p, n)
  {
    if a < p { SlotsDiffer(a, p, n); } else { SlotsDiffer(p, a, n); }
  }

  lemma {:induction false} EarlySlots(w: World)
    requires Inv(w) && w.pc.Word? && w.pc.k < 3
    ensures Slots(Advance(w))
  {
    hide Idx, Cycle, Plain, Written, Plainly;
    var n, u := |w.ring.buf|, Advance(w);
    EarlyWord(w.ring.buf[w.ring.writeIndex], w.pc.k, w.pc.trb, w.ring.cycleBit);
    forall a: nat | w.tail <= a < w.head
      ensures Holds(u, a)
    {
      OtherSlots(w.head, a, w.tail, n);
      assert Holds(w, a);
    }
    forall a: nat | w.head <= a < w.tail + n
      ensures u.ring.buf[Idx(a, n)].CycleBit() != Cycle(a, n)
    {
      if a != w.head { OtherSlots(w.head, a, w.tail, n); }
    }
  }

  lemma {:induction false} EarlyInv(w: World)
    requires Inv(w) && w.pc.Word? && w.pc.k < 3
    ensures Inv(Advance(w))
  {
    hide Idx, Cycle, Plain, Slots, Plainly, Partly, SetWord;
    EarlySlots(w);
    EarlyWord(w.ring.buf[w.ring.writeIndex], w.pc.k, w.pc.trb, w.ring.cycleBit);
  }

  lemma {:induction false} HoldsMore(w: World, u: World, a: nat)
    requires |w.ring.buf| >= 2 && |u.ring.buf| == |w.ring.buf| && Holds(w, a) && w.pushed <= u.pushed
    requires u.ring.buf[Idx(a, |w.ring.buf|)] == w.ring.buf[Idx(a, |w.ring.buf|)] && u.ring.base == w.ring.base
    ensures Holds(u, a)
  {
  }

  lemma {:induction false} LastHolds(w: World)
    requires Inv(w) && w.pc.Word? && w.pc.k == 3
    ensures Holds(Advance(w), w.head)
  {
    hide Idx, Cycle, Plain, Slots;
    LastWord(w.ring.buf[w.ring.writeIndex], w.pc.trb, w.ring.cycleBit);
    CycleWritten(w.pc.trb, w.ring.cycleBit);
    LinkBare(w.ring.base);
  }

  lemma {:induction false} LastSlots(w: World)
    requires Inv(w) && w.pc.Word? && w.pc.k == 3
    ensures Slots(Advance(w))
  {
    hide Idx, Cycle, Plain, Holds, Plainly, SetWord;
    var n, u := |w.ring.buf|, Advance(w);
    LastHolds(w);
    forall a: nat | w.tail <= a < w.head + 1
      ensures Holds(u, a)
    {
      if a != w.head {
        OtherSlots(w.head, a, w.tail, n);
        HoldsMore(w, u, a);
      }
    }
    forall a: nat | w.head + 1 <= a < w.tail + n
      ensures u.ring.buf[Idx(a, n)].CycleBit() != Cycle(a, n)
    {
      OtherSlots(w.head, a, w.tail, n);
    }
  }

  lemma {:induction false} LastPositions(w: World)
    requires Inv(w) && w.pc.Word? && w.pc.k == 3
    ensures Positions(Advance(w))
  {
    hide Idx, Cycle, Slots, Partly, SetWord, Plainly;
    NextSlot(w.head, |w.ring.buf|);
  }

  lemma {:induction false} LastWriting(w: World)
    requires Inv(w) && w.pc.Word? && w.pc.k == 3
    ensures WellSized(Advance(w).ring) && Writing(Advance(w)) && Plainly(Advance(w).pushed)
  {
    hide Positions, Slots, SetWord;
    CycleWritten(w.pc.trb, true);
  }

  lemma {:induction false} WriteInv(w: World)
    requires Inv(w) && w.pc.Word?
    ensures Inv(Advance(w))
  {
    if w.pc.k < 3 {
      EarlyInv(w);
    } else {
      assert w.pc.k == 3;
      hide Positions, Slots, Writing, Plainly, Advance;
      LastSlots(w);
      LastPositions(w);
      LastWriting(w);
    }
  }

  // ----- runs -----

  function Run(w: World, acts: seq<Action>): World
    requires WellSized(w.ring)
    decreases |acts|
  {
    if acts == [] then w
    else if WellSized(Step(w, acts[0]).ring) then Run(Step(w, acts[0]), acts[1..]) else w
  }

  /** TRBs other than links are pushed, and only while there is room. */
  ghost predicate Careful(w: World, acts: seq<Action>)
    requires WellSized(w.ring)
    decreases |acts|
  {
    acts == []
    || (&& (acts[0].Begin? && w.pc.Idle? ==> Fits(w) && acts[0].trb.Type() != LINK_TYPE)
        && (WellSized(Step(w, acts[0]).ring) ==> Careful(Step(w, acts[0]), acts[1..])))
  }

  lemma {:induction false} StepInv(w: World, a: Action)
    requires Inv(w) && (a.Begin? && w.pc.Idle? ==> Fits(w) && a.trb.Type() != LINK_TYPE)
    ensures Inv(Step(w, a))
  {
    match a
    case Begin(trb) => BeginInv(w, trb);
    case Write => if w.pc.Word? { WriteInv(w); }
    case Take => if Ready(w) { TakeInv(w); }
  }

  lemma {:induction false} BeginInv(w: World, trb: Trb)
    requires Inv(w) && (w.pc.Idle? ==> Fits(w) && trb.Type() != LINK_TYPE)
    ensures Inv(Step(w, Begin(trb)))
  {
    if w.pc.Idle? {
      var u := Step(w, Begin(trb));
      assert u.ring == w.ring && Slots(u) by { assert forall a: nat | u.tail <= a < u.head :: Holds(w, a) ==> Holds(u, a); }
    }
  }

  /** However the two sides interleave, the consumer takes what was pushed, in order and once each. */
  lemma {:induction false} RunInv(w: World, acts: seq<Action>)
    requires Inv(w) && Careful(w, acts)
    ensures Inv(Run(w, acts)) && Run(w, acts).taken <= Run(w, acts).pushed
    decreases |acts|
  {
    hide Slots, Plainly, Writing, Step, Fits;
    if acts != [] {
      StepInv(w, acts[0]);
      RunInv(Step(w, acts[0]), acts[1..]);
    }
  }

  lemma {:induction false} InitInv(base: nat, n: nat)
    requires n >= 2 && Aligned(base)
    ensures Inv(World(RingState(base, seq(n, _ => ZERO), 0, true), Idle, 0, true, false, [], [], 0, 0))
  {
    var w := World(RingState(base, seq(n, _ => ZERO), 0, true), Idle, 0, true, false, [], [], 0, 0);
    FirstLap(0, n);
    forall a: nat | 0 <= a < n
      ensures w.ring.buf[Idx(a, n)].CycleBit() != Cycle(a, n)
    {
      FirstLap(a, n);
    }
  }

  // ----- a push without interruption -----

  /** The ring after Ring::Push. */
  function Pushed(r: RingState, trb: Trb): RingState
    requires WellSized(r)
  {
    var n, i := |r.buf|, r.writeIndex;
    var b := r.buf[i := trb.WithCycle(r.cycleBit)];
    if i + 2 == n then RingState(r.base, b[n - 1 := LinkTo(r.base).WithCycle(r.cycleBit)], 0, !r.cycleBit)
    else r.(buf := b, writeIndex := i + 1)
  }

  function PushedWorld(w: World, trb: Trb): World
    requires WellSized(w.ring)
  {
    w.(ring := Pushed(w.ring, trb), pushed := w.pushed + [trb.Bare()], head := w.head + Need(w.ring.writeIndex, |w.ring.buf|))
  }

  function FourWrites(w: World): World
    requires WellSized(w.ring) && w.pc.Word? && w.pc.k == 0
  {
    var w1 := Advance(w);
    var w2 := Advance(w1);
    var w3 := Advance(w2);
    Advance(w3)
  }

  lemma {:induction false} FourWords(w: World)
    requires WellSized(w.ring) && w.pc.Word? && w.pc.k == 0
    ensures var r, i, n := w.ring, w.ring.writeIndex, |w.ring.buf|;
            var m := r.(buf := r.buf[i := w.pc.trb.WithCycle(r.cycleBit)]);
            FourWrites(w) ==
            if i == n - 1 then w.(ring := m.(writeIndex := 0, cycleBit := !r.cycleBit), pc := Idle, head := w.head + 1)
            else w.(ring := m.(writeIndex := i + 1), pc := if i + 1 == n - 1 then Word(0, LinkTo(r.base)) else Idle,
                    pushed := w.pushed + [w.pc.trb.Bare()], head := w.head + 1)
  {
    var r, i, trb := w.ring, w.ring.writeIndex, w.pc.trb;
    var w1 := Advance(w);
    var w2 := Advance(w1);
    var w3 := Advance(w2);
    assert w3.ring.buf == r.buf[i := Trb(trb.w0, trb.w1, trb.w2, r.buf[i].w3)];
    assert Advance(w3).ring.buf == r.buf[i := trb.WithCycle(r.cycleBit)];
  }

  /** The single writes of a push, four for the TRB and four for the link that may follow, add up to Ring::Push. */
  lemma {:induction false} PushIsWrites(w: World, trb: Trb)
    requires WellSized(w.ring) && w.pc.Idle? && w.ring.writeIndex != |w.ring.buf| - 1
    ensures var u := FourWrites(Step(w, Begin(trb)));
            PushedWorld(w, trb) == if u.pc.Idle? then u else FourWrites(u)
  {
    hide FourWrites;
    var u := FourWrites(Step(w, Begin(trb)));
    FourWords(Step(w, Begin(trb)));
    if !u.pc.Idle? { FourWords(u); }
  }

  /** After a push the consumer has a slot to read iff there was room: without room the producer overwrites
      what the consumer waits for, and the consumer stops with TRBs outstanding. */
  lemma {:induction false} PushReadyIff(w: World, trb: Trb)
    requires Inv(w) && w.pc.Idle? && trb.Type() != LINK_TYPE
    ensures Ready(PushedWorld(w, trb)) <==> Fits(w)
  {
    if Fits(w) { PushedReady(w, trb); } else { Lapped(w, trb); }
  }

  lemma {:induction false} IdleIndex(w: World)
    requires Inv(w) && w.pc.Idle?
    ensures w.ring.writeIndex != |w.ring.buf| - 1
  {
  }

  lemma {:induction false} FourInv(w: World)
    requires Inv(w) && w.pc.Word? && w.pc.k == 0
    ensures Inv(FourWrites(w)) && FourWrites(w).tail == w.tail && FourWrites(w).head == w.head + 1
    ensures FourWrites(w).pc.Idle? || (FourWrites(w).pc.Word? && FourWrites(w).pc.k == 0)
  {
    hide Slots, Plainly, Writing, Positions;
    WriteInv(w);
    WriteInv(Advance(w));
    WriteInv(Advance(Advance(w)));
    WriteInv(Advance(Advance(Advance(w))));
  }

  lemma {:induction false} PushedReady(w: World, trb: Trb)
    requires Inv(w) && w.pc.Idle? && trb.Type() != LINK_TYPE && Fits(w)
    ensures Inv(PushedWorld(w, trb)) && Ready(PushedWorld(w, trb))
  {
    hide Slots, Plainly, Writing, Fits, PushedWorld, FourWrites;
    IdleIndex(w);
    PushIsWrites(w, trb);
    BeginInv(w, trb);
    FourInv(Step(w, Begin(trb)));
    var u := FourWrites(Step(w, Begin(trb)));
    if !u.pc.Idle? { FourInv(u); }
    ReadyIff(PushedWorld(w, trb));
  }

  lemma {:induction false} Lapped(w: World, trb: Trb)
    requires Inv(w) && w.pc.Idle? && !Fits(w)
    ensures !Ready(PushedWorld(w, trb))
  {
    hide Idx, Cycle, Plain, Slots, Plainly;
    var n, c := |w.ring.buf|, w.tail;
    NextLap(c, n);
    NextSlot(w.head, n);
    CycleWritten(trb, w.ring.cycleBit);
    CycleWritten(LinkTo(w.ring.base), w.ring.cycleBit);
  }

  // ----- counting TRBs -----

  /** Within a lap there is at most one link. */
  lemma {:induction false} PlainGap(c: nat, p: nat, n: nat)
    requires n >= 2 && c <= p <= c + n
    ensures Plain(p, n) - Plain(c, n) >= p - c - 1
    ensures (forall a: nat | c <= a < p :: Idx(a, n) != n - 1) ==> Plain(p, n) - Plain(c, n) == p - c
    decreases p - c
  {
    hide Idx;
    if c < p {
      PlainGap(c, p - 1, n);
      if Idx(p - 1, n) == n - 1 {
        forall a: nat | c <= a < p - 1
          ensures Idx(a, n) != n - 1
        {
          SlotsDiffer(a, p - 1, n);
        }
      }
    }
  }

  /** There is room while at least three slots are not taken up by outstanding TRBs. */
  lemma {:induction false} OutstandingFits(w: World)
    requires Inv(w) && |w.pushed| - |w.taken| + 3 <= |w.ring.buf|
    ensures Fits(w)
  {
    PlainGap(w.tail, w.head, |w.ring.buf|);
  }

  /** With one more outstanding TRB there may be no room: the consumer has not followed the last link, and
      the producer is about to write the next one. */
  lemma {:induction false} OutstandingTight(base: nat, trb: Trb) returns (w: World)
    requires trb.Type() != LINK_TYPE && Aligned(base)
    ensures Inv(w) && w.pc.Idle? && |w.ring.buf| == 3 && |w.pushed| - |w.taken| == 1 && !Fits(w)
  {
    hide Positions, Slots, Plainly, Writing, Pushed, Ready, Consume;
    w := World(RingState(base, seq(3, _ => ZERO), 0, true), Idle, 0, true, false, [], [], 0, 0);
    InitInv(base, 3);
    w := OnePush(w, trb);
    w := OnePush(w, trb);
    w := OneTake(w);
    w := OneTake(w);
    w := OnePush(w, trb);
  }

  lemma {:induction false} OnePush(w: World, trb: Trb) returns (u: World)
    requires Inv(w) && w.pc.Idle? && trb.Type() != LINK_TYPE && Fits(w)
    ensures Inv(u) && u.pc.Idle? && |u.ring.buf| == |w.ring.buf| && u.tail == w.tail && u.taken == w.taken
    ensures |u.pushed| == |w.pushed| + 1 && u.head == w.head + Need(w.ring.writeIndex, |w.ring.buf|)
    ensures u.ring.writeIndex == if w.ring.writeIndex + 2 == |w.ring.buf| then 0 else w.ring.writeIndex + 1
    ensures u.readIndex == w.readIndex
  {
    hide Positions, Slots, Plainly, Writing, Fits;
    PushedReady(w, trb);
    u := PushedWorld(w, trb);
  }

  lemma {:induction false} OneTake(w: World) returns (u: World)
    requires Inv(w) && w.pc.Idle? && w.tail < w.head && w.readIndex != |w.ring.buf| - 1
    ensures Inv(u) && u.pc.Idle? && u.ring == w.ring && u.tail == w.tail + 1 && u.head == w.head && u.pushed == w.pushed
    ensures |u.taken| == |w.taken| + 1 && u.readIndex == w.readIndex + 1
  {
    hide Slots, Plainly, Writing;
    ReadyIff(w);
    Reads(w);
    TakeInv(w);
    u := Consume(w);
  }

  // ----- everything arrives -----

  /** An idle producer's consumer takes everything that is outstanding. */
  lemma {:induction false} TakesAll(w: World)
    requires Inv(w) && w.pc.Idle?
    ensures var u := Run(w, seq(w.head - w.tail, _ => Take)); Inv(u) && u.taken == u.pushed == w.pushed
    decreases w.head - w.tail
  {
    hide Slots, Plainly, Writing;
    ReadyIff(w);
    if w.tail < w.head {
      TakeInv(w);
      var u := Step(w, Take);
      assert u.pc == w.pc && u.pushed == w.pushed && u.head == w.head && u.tail == w.tail + 1;
      TakesAll(u);
      var acts := seq(w.head - w.tail, _ => Take);
      assert acts[1..] == seq(u.head - u.tail, _ => Take);
    }
  }
}
