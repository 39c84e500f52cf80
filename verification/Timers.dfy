/** TimerManager of kernel/timer.cpp: a priority queue of timeouts, with the periodic task timer in it.  Among
    timers with the same timeout the queue may yield any first, so the queue is a multiset from which some least
    element is taken.  A tick is proved to end because the task timer is renewed for later, and what it delivers is
    counted timer by timer: the messages sent and the timers still due always add up to those that were due
    before.  Over several ticks the same count shows that every timer is delivered once, at the first tick that is
    not before its timeout. */
module Timers {
  import opened Basics

  const FOREVER: nat := 0xffff_ffff_ffff_ffff
  const TASK_TIMER_PERIOD: nat := 2
  const TASK_TIMER_VALUE: int := 0x7fff_ffff

  datatype Timer = Timer(timeout: nat, value: int, taskId: nat)

  const SENTINEL := Timer(FOREVER, 0, 0)

  predicate IsTaskTimer(t: Timer)
  {
    t.value == TASK_TIMER_VALUE
  }

  /** How many copies of `t` a tick delivers as a message. */
  function DueCount(timers: multiset<Timer>, tick: nat, t: Timer): nat
  {
    if t.timeout <= tick && !IsTaskTimer(t) then timers[t] else 0
  }

  function Renewed(tick: nat): Timer
  {
    Timer(tick + TASK_TIMER_PERIOD, TASK_TIMER_VALUE, 1)
  }

  /** Those whose timeout has come. */
  ghost predicate NoneDue(timers: multiset<Timer>, tick: nat)
  {
    forall t | t in timers :: t.timeout > tick
  }

  ghost predicate Ascending(s: seq<Timer>)
  {
    forall i, j | 0 <= i < j < |s| :: s[i].timeout <= s[j].timeout
  }

  /** What a tick to `tick` has done once `sent` is delivered and `again` task timers are renewed. */
  ghost predicate Counts(before: multiset<Timer>, now: multiset<Timer>, tick: nat, sent: seq<Timer>, again: nat)
  {
    && (forall t :: DueCount(before, tick, t) == multiset(sent)[t] + DueCount(now, tick, t))
    && (forall t: Timer | t.timeout > tick && t != Renewed(tick) :: now[t] == before[t])
    && now[Renewed(tick)] == before[Renewed(tick)] + again
    && |now| + |sent| == |before|
  }

  /** The messages so far are in order, and whatever is left comes later. */
  ghost predicate InOrder(now: multiset<Timer>, tick: nat, sent: seq<Timer>)
  {
    && Ascending(sent) && (forall i | 0 <= i < |sent| :: sent[i].timeout <= tick)
    && (forall i, t | 0 <= i < |sent| && t in now :: sent[i].timeout <= t.timeout)
  }

  lemma {:induction false} SentCounts(before: multiset<Timer>, now: multiset<Timer>, tick: nat, sent: seq<Timer>, again: nat, t: Timer)
    requires Counts(before, now, tick, sent, again) && t in now && t.timeout <= tick && !IsTaskTimer(t)
    ensures Counts(before, now - multiset{t}, tick, sent + [t], again)
  {
    var after := now - multiset{t};
    forall u
      ensures DueCount(before, tick, u) == multiset(sent + [t])[u] + DueCount(after, tick, u)
    {
      assert after[u] == now[u] - (if u == t then 1 else 0);
    }
    assert |after| == |now| - 1;
  }

  lemma {:induction false} SentOrder(now: multiset<Timer>, tick: nat, sent: seq<Timer>, t: Timer)
    requires InOrder(now, tick, sent) && t in now && t.timeout <= tick && forall u | u in now :: t.timeout <= u.timeout
    ensures InOrder(now - multiset{t}, tick, sent + [t])
  {
    forall u | u in now - multiset{t}
      ensures u in now
    {
    }
  }

  lemma {:induction false} RenewedCounts(before: multiset<Timer>, now: multiset<Timer>, tick: nat, sent: seq<Timer>, again: nat, t: Timer)
    requires Counts(before, now, tick, sent, again) && t in now && t.timeout <= tick && IsTaskTimer(t)
    ensures Counts(before, now - multiset{t} + multiset{Renewed(tick)}, tick, sent, again + 1)
  {
    var after := now - multiset{t} + multiset{Renewed(tick)};
    forall u
      ensures u != t && u != Renewed(tick) ==> after[u] == now[u]
      ensures DueCount(after, tick, u) == DueCount(now, tick, u)
    {
    }
  }

  lemma {:induction false} RenewedOrder(now: multiset<Timer>, tick: nat, sent: seq<Timer>, t: Timer)
    requires InOrder(now, tick, sent) && t in now
    ensures InOrder(now - multiset{t} + multiset{Renewed(tick)}, tick, sent)
  {
    forall u | u in now - multiset{t} + multiset{Renewed(tick)}
      ensures u in now || u == Renewed(tick)
    {
    }
  }

  class TimerManager {
    var tick: nat
    var timers: multiset<Timer>

    constructor ()
      ensures Valid() && tick == 0 && timers == multiset{SENTINEL}
    {
      tick, timers := 0, multiset{SENTINEL};
    }

    /** The sentinel never comes due. */
    ghost predicate Valid()
      reads this
    {
      SENTINEL in timers
    }

    method AddTimer(t: Timer)
      requires Valid()
      modifies this`timers
      ensures Valid() && timers == old(timers) + multiset{t}
    {
      timers := timers + multiset{t};
    }

    method Top() returns (t: Timer)
      requires Valid()
      ensures t in timers && forall u | u in timers :: t.timeout <= u.timeout
    {
      Least(timers);
      t :| t in timers && forall u | u in timers :: t.timeout <= u.timeout;
    }

    /** One tick: the messages sent, in order, and whether a task timer came due. */
    method Tick() returns (taskTimer: bool, sent: seq<Timer>, ghost again: nat)
      requires Valid() && tick + 1 < FOREVER
      modifies this
      ensures Valid() && tick == old(tick) + 1 && NoneDue(timers, tick)
      ensures Ascending(sent) && forall t :: multiset(sent)[t] == DueCount(old(timers), tick, t)
      ensures forall t: Timer | t.timeout > tick && t != Renewed(tick) :: timers[t] == old(timers)[t]
      ensures timers[Renewed(tick)] == old(timers)[Renewed(tick)] + again
      ensures |timers| + |sent| == |old(timers)| && (taskTimer <==> again > 0)
    {
      hide Ascending, Looping, DueCount, NoneDue, Due, Renewed;
      tick := tick + 1;
      taskTimer, sent, again := false, [], 0;
      ghost var before := timers;
      Untouched(timers, tick);
      while true
        invariant Valid() && tick == old(tick) + 1 && (taskTimer <==> again > 0)
        invariant Looping(before, timers, tick, sent, again)
        decreases Due(timers, tick)
      {
        var t := Top();
        if t.timeout > tick {
          LaterDue(timers, tick, t);
          break;
        }
        if t.value == TASK_TIMER_VALUE {
          taskTimer := true;
          RenewedStep(before, timers, tick, sent, again, t);
          timers := timers - multiset{t} + multiset{Renewed(tick)};
          again := again + 1;
          continue;
        }
        SentStep(before, timers, tick, sent, again, t);
        sent := sent + [t];
        timers := timers - multiset{t};
      }
      Finished(before, timers, tick, sent, again);
    }

    /** A run of timers being added and of ticks.  Every ordinary timer, there from the start or added on the
        way, is delivered as often as it is in the queue, at the first tick after it was added that is not before its
        timeout; if the run does not get there it is still in the queue.  Nothing else is delivered. */
    method Run(evs: seq<Event>) returns (log: seq<Delivery>)
      requires Valid() && tick + Ticks(evs) < FOREVER
      modifies this
      ensures Valid() && tick == old(tick) + Ticks(evs)
      ensures forall t, k: nat | !IsTaskTimer(t) && k <= tick :: multiset(log)[Delivery(t, k)] == Owed(old(timers), old(tick), evs, t, k)
      ensures forall t, k: nat | !IsTaskTimer(t) && k > tick :: Waiting(timers, tick, t, k) == Owed(old(timers), old(tick), evs, t, k)
      ensures Chronological(log, tick)
    {
      hide Ascending, NoneDue, DueCount, Owed, Chronological, Waiting, Ticks, Renewed;
      log := [];
      Nothing(tick);
      ghost var before, start := timers, tick;
      var n: nat := 0;
      assert evs[0..] == evs;
      while n < |evs|
        invariant n <= |evs| && Valid() && tick + Ticks(evs[n..]) == start + Ticks(evs)
        invariant forall t, k: nat | !IsTaskTimer(t) ::
                    Owed(before, start, evs, t, k) == multiset(log)[Delivery(t, k)] + Owed(timers, tick, evs[n..], t, k)
        invariant Chronological(log, tick)
      {
        ghost var now, at0, rest := timers, tick, evs[n + 1..];
        assert evs[n..] == [evs[n]] + rest;
        TicksStep(evs[n], rest);
        match evs[n] {
          case Add(u) =>
            AddTimer(u);
            forall t, k: nat | !IsTaskTimer(t)
              ensures Owed(now, at0, evs[n..], t, k) == Owed(timers, tick, rest, t, k)
            {
              AddOwed(now, at0, u, rest, t, k);
            }
          case Interrupt =>
            var taskTimer, more, again := Tick();
            SentAreDue(now, tick, more);
            ghost var log0 := log;
            LaterDeliveries(log, at0, more, tick);
            log := log + Stamped(more, tick);
            forall t, k: nat | !IsTaskTimer(t)
              ensures multiset(log0)[Delivery(t, k)] + Owed(now, at0, evs[n..], t, k)
                      == multiset(log)[Delivery(t, k)] + Owed(timers, tick, rest, t, k)
            {
              TickOwed(now, timers, at0, more, rest, t, k);
              StampedCount(more, tick, t, k);
              assert multiset(log) == multiset(log0) + multiset(Stamped(more, tick));
            }
        }
        n := n + 1;
      }
      assert evs[n..] == [] && Ticks([]) == 0 by { Nothing(tick); }
      forall t, k: nat | !IsTaskTimer(t)
        ensures k <= tick ==> multiset(log)[Delivery(t, k)] == Owed(before, start, evs, t, k)
        ensures k > tick ==> Waiting(timers, tick, t, k) == Owed(before, start, evs, t, k)
      {
        NothingElse(timers, tick, t, k);
        if k > tick { NotYet(log, tick, t, k); }
      }
    }
  }

  // ----- runs -----

  datatype Event = Add(timer: Timer) | Interrupt

  /** A timer message and the tick it was sent at. */
  datatype Delivery = Delivery(timer: Timer, at: nat)

  function Ticks(evs: seq<Event>): nat
  {
    if evs == [] then 0 else (if evs[0].Interrupt? then 1 else 0) + Ticks(evs[1..])
  }

  /** The first tick after `tick` that is not before the timeout of `t`. */
  function FirstTick(t: Timer, tick: nat): nat
  {
    Max(t.timeout, tick + 1)
  }

  /** How many copies of `t` in the queue after `tick` are to be delivered at tick `k`. */
  function Waiting(timers: multiset<Timer>, tick: nat, t: Timer, k: nat): nat
  {
    if FirstTick(t, tick) == k then timers[t] else 0
  }

  /** How many copies of `t` that are added in the run are to be delivered at tick `k`. */
  function Added(evs: seq<Event>, tick: nat, t: Timer, k: nat): nat
    decreases |evs|
  {
    if evs == [] then 0
    else match evs[0]
      case Add(u) => (if u == t && FirstTick(t, tick) == k then 1 else 0) + Added(evs[1..], tick, t, k)
      case Interrupt => Added(evs[1..], tick + 1, t, k)
  }

  function Owed(timers: multiset<Timer>, tick: nat, evs: seq<Event>, t: Timer, k: nat): nat
  {
    Waiting(timers, tick, t, k) + Added(evs, tick, t, k)
  }

  function Stamped(sent: seq<Timer>, tick: nat): (s: seq<Delivery>)
    ensures |s| == |sent| && forall i | 0 <= i < |s| :: s[i] == Delivery(sent[i], tick)
  {
    seq(|sent|, i requires 0 <= i < |sent| => Delivery(sent[i], tick))
  }

  /** Ordinary timers that are due, in the order of the ticks and within a tick in the order of their timeouts. */
  ghost predicate Chronological(log: seq<Delivery>, tick: nat)
  {
    && (forall i | 0 <= i < |log| :: !IsTaskTimer(log[i].timer) && log[i].timer.timeout <= log[i].at <= tick)
    && (forall i, j | 0 <= i < j < |log| ::
          log[i].at < log[j].at || (log[i].at == log[j].at && log[i].timer.timeout <= log[j].timer.timeout))
  }

  lemma {:induction false} LaterDeliveries(log: seq<Delivery>, tick: nat, more: seq<Timer>, next: nat)
    requires Chronological(log, tick) && tick < next && Ascending(more)
    requires forall i | 0 <= i < |more| :: !IsTaskTimer(more[i]) && more[i].timeout <= next
    ensures Chronological(log + Stamped(more, next), next)
  {
  }

  lemma {:induction false} StampedCount(sent: seq<Timer>, tick: nat, t: Timer, k: nat)
    ensures multiset(Stamped(sent, tick))[Delivery(t, k)] == if k == tick then multiset(sent)[t] else 0
  {
    if sent != [] {
      var n := |sent| - 1;
      StampedCount(sent[..n], tick, t, k);
      assert sent == sent[..n] + [sent[n]];
      assert Stamped(sent, tick) == Stamped(sent[..n], tick) + [Delivery(sent[n], tick)];
    }
  }

  lemma {:induction false} TicksStep(e: Event, rest: seq<Event>)
    ensures Ticks([e] + rest) == (if e.Interrupt? then 1 else 0) + Ticks(rest)
  {
    assert ([e] + rest)[1..] == rest;
  }

  lemma {:induction false} NotYet(log: seq<Delivery>, tick: nat, t: Timer, k: nat)
    requires k > tick && Chronological(log, tick)
    ensures multiset(log)[Delivery(t, k)] == 0
  {
    assert Delivery(t, k) !in log;
  }

  lemma {:induction false} Nothing(tick: nat)
    ensures Ticks([]) == 0 && Chronological([], tick)
  {
  }

  lemma {:induction false} AddOwed(timers: multiset<Timer>, tick: nat, u: Timer, rest: seq<Event>, t: Timer, k: nat)
    ensures Owed(timers, tick, [Add(u)] + rest, t, k) == Owed(timers + multiset{u}, tick, rest, t, k)
  {
    assert ([Add(u)] + rest)[1..] == rest;
  }

  /** A tick delivers what is owed at it and owes the rest as before. */
  lemma {:induction false} TickOwed(now: multiset<Timer>, after: multiset<Timer>, tick: nat, more: seq<Timer>, rest: seq<Event>,
                                    t: Timer, k: nat)
    requires !IsTaskTimer(t) && NoneDue(after, tick + 1)
    requires multiset(more)[t] == DueCount(now, tick + 1, t)
    requires t.timeout > tick + 1 && t != Renewed(tick + 1) ==> after[t] == now[t]
    ensures Owed(now, tick, [Interrupt] + rest, t, k) == (if k == tick + 1 then multiset(more)[t] else 0) + Owed(after, tick + 1, rest, t, k)
  {
    assert ([Interrupt] + rest)[1..] == rest;
    if t in after { assert t.timeout > tick + 1; }
  }

  lemma {:induction false} NothingElse(timers: multiset<Timer>, tick: nat, t: Timer, k: nat)
    ensures Owed(timers, tick, [], t, k) == Waiting(timers, tick, t, k)
    ensures k <= tick ==> Waiting(timers, tick, t, k) == 0
  {
  }

  ghost predicate Looping(before: multiset<Timer>, now: multiset<Timer>, tick: nat, sent: seq<Timer>, again: nat)
  {
    Counts(before, now, tick, sent, again) && InOrder(now, tick, sent)
  }

  lemma {:induction false} SentStep(before: multiset<Timer>, now: multiset<Timer>, tick: nat, sent: seq<Timer>, again: nat, t: Timer)
    requires Looping(before, now, tick, sent, again) && t in now && t.timeout <= tick < FOREVER && !IsTaskTimer(t)
    requires SENTINEL in now && forall u | u in now :: t.timeout <= u.timeout
    ensures Looping(before, now - multiset{t}, tick, sent + [t], again) && SENTINEL in now - multiset{t}
    ensures Due(now - multiset{t}, tick) < Due(now, tick)
  {
    hide Counts, InOrder, Due;
    SentCounts(before, now, tick, sent, again, t);
    SentOrder(now, tick, sent, t);
    Fewer(now, tick, t);
  }

  lemma {:induction false} RenewedStep(before: multiset<Timer>, now: multiset<Timer>, tick: nat, sent: seq<Timer>, again: nat, t: Timer)
    requires Looping(before, now, tick, sent, again) && t in now && t.timeout <= tick < FOREVER && IsTaskTimer(t) && SENTINEL in now
    ensures var after := now - multiset{t} + multiset{Renewed(tick)};
            Looping(before, after, tick, sent, again + 1) && SENTINEL in after && Due(after, tick) < Due(now, tick)
  {
    hide Counts, InOrder, Due;
    RenewedCounts(before, now, tick, sent, again, t);
    RenewedOrder(now, tick, sent, t);
    Fewer(now, tick, t);
  }

  lemma {:induction false} SentAreDue(now: multiset<Timer>, tick: nat, more: seq<Timer>)
    requires forall t :: multiset(more)[t] == DueCount(now, tick, t)
    ensures forall i | 0 <= i < |more| :: more[i] in now && more[i].timeout <= tick && !IsTaskTimer(more[i])
  {
    forall i | 0 <= i < |more|
      ensures DueCount(now, tick, more[i]) > 0
    {
      assert more[i] in multiset(more);
    }
  }

  lemma {:induction false} LaterDue(timers: multiset<Timer>, tick: nat, t: Timer)
    requires t.timeout > tick && forall u | u in timers :: t.timeout <= u.timeout
    ensures NoneDue(timers, tick)
  {
  }

  lemma {:induction false} Untouched(timers: multiset<Timer>, tick: nat)
    ensures Looping(timers, timers, tick, [], 0)
  {
  }

  lemma {:induction false} Finished(before: multiset<Timer>, now: multiset<Timer>, tick: nat, sent: seq<Timer>, again: nat)
    requires Looping(before, now, tick, sent, again) && NoneDue(now, tick)
    ensures Ascending(sent) && forall t :: multiset(sent)[t] == DueCount(before, tick, t)
    ensures forall t: Timer | t.timeout > tick && t != Renewed(tick) :: now[t] == before[t]
    ensures now[Renewed(tick)] == before[Renewed(tick)] + again && |now| + |sent| == |before|
  {
    forall t
      ensures DueCount(now, tick, t) == 0
    {
      if t in now { assert t.timeout > tick; }
    }
  }

  lemma {:induction false} Least(timers: multiset<Timer>)
    requires timers != multiset{}
    ensures exists t :: t in timers && forall u | u in timers :: t.timeout <= u.timeout
    decreases |timers|
  {
    var x :| x in timers;
    var rest := timers - multiset{x};
    assert forall u | u in timers :: u == x || u in rest;
    if rest != multiset{} {
      Least(rest);
      var y :| y in rest && forall u | u in rest :: y.timeout <= u.timeout;
      assert (if x.timeout <= y.timeout then x else y) in timers;
    } else {
      assert forall u | u in timers :: x.timeout <= u.timeout;
    }
  }

  /** How many timers are due. */
  ghost function Due(timers: multiset<Timer>, tick: nat): nat
    decreases |timers|
  {
    if timers == multiset{} then 0
    else
      var t :| t in timers;
      (if t.timeout <= tick then 1 else 0) + Due(timers - multiset{t}, tick)
  }

  lemma {:induction false} DueWithout(timers: multiset<Timer>, tick: nat, t: Timer)
    requires t in timers
    ensures Due(timers, tick) == (if t.timeout <= tick then 1 else 0) + Due(timers - multiset{t}, tick)
    decreases |timers|
  {
    var x :| x in timers && Due(timers, tick) == (if x.timeout <= tick then 1 else 0) + Due(timers - multiset{x}, tick);
    if x != t {
      DueWithout(timers - multiset{x}, tick, t);
      DueWithout(timers - multiset{t}, tick, x);
      assert timers - multiset{x} - multiset{t} == timers - multiset{t} - multiset{x};
    }
  }

  /** Handling a due timer, with or without a renewed one later, leaves fewer due. */
  lemma {:induction false} Fewer(timers: multiset<Timer>, tick: nat, t: Timer)
    requires t in timers && t.timeout <= tick
    ensures Due(timers - multiset{t}, tick) < Due(timers, tick)
    ensures Due(timers - multiset{t} + multiset{Renewed(tick)}, tick) < Due(timers, tick)
  {
    DueWithout(timers, tick, t);
    var rest := timers - multiset{t};
    DueWithout(rest + multiset{Renewed(tick)}, tick, Renewed(tick));
    assert rest + multiset{Renewed(tick)} - multiset{Renewed(tick)} == rest;
  }
}
