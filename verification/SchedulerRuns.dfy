/** Runs of the task manager (kernel/task.cpp): whose turn comes when, and that an exit code reaches the task
    that waits for it. */
module SchedulerRuns {
  import opened Basics
  import opened Scheduling

  lemma {:induction false} FinishInv(s: Sched, code: int)
    requires Inv(s) && Current(s) != IDLE
    requires Current(s) in s.waiters ==> s.waiters[Current(s)] in s.tasks && s.waiters[Current(s)] != Current(s)
    ensures Wellformed(Rotate(s, true))
    ensures Current(s) in s.waiters ==> s.tasks[s.waiters[Current(s)]].level <= MAX_LEVEL
    ensures Inv(Finish(s, code))
  {
    hide Queued, Rotate, Wakeup, NoneAbove;
    var id := Current(s);
    LeaveInv(s);
    RotatedQueues(s, true);
    var u := Rotate(s, true);
    var gone := u.(tasks := s.tasks[id := s.tasks[id].(running := false)]);
    Delete(gone.tasks, u.queues, id);
    assert gone.tasks - {id} == s.tasks - {id};
    var v := u.(tasks := u.tasks - {id}, finished := u.finished[id := code]);
    assert Inv(v) by { GoneInv(gone, v); }
    if id in s.waiters {
      TaskLevel(s, s.waiters[id]);
      SameTasks(v, v.(waiters := v.waiters - {id}));
      WakeupInv(v.(waiters := v.waiters - {id}), v.waiters[id], -1);
    }
  }

  lemma {:induction false} GoneInv(u: Sched, v: Sched)
    requires Inv(u) && v == u.(tasks := v.tasks, finished := v.finished) && Queued(v.tasks, v.queues)
    requires v.tasks.Keys <= u.tasks.Keys && IDLE in v.tasks && v.tasks[IDLE].running
    ensures Inv(v)
  {
    hide Queued;
  }

  // ----- turns -----

  function Ticks(s: Sched, k: nat): Sched
    requires Inv(s)
    decreases k
  {
    if k == 0 then s else TickInv(s); Ticks(Rotate(s, false), k - 1)
  }

  /** With nothing pending the k-th task of the current queue runs after k ticks. */
  lemma {:induction false} TurnAfter(s: Sched, k: nat)
    requires Inv(s) && !s.changed && k < |s.queues[s.current]|
    ensures Inv(Ticks(s, k)) && Current(Ticks(s, k)) == s.queues[s.current][k]
    ensures Ticks(s, k).current == s.current && !Ticks(s, k).changed
    decreases k
  {
    hide Queued, NoneAbove;
    if k > 0 {
      TickInv(s);
      TurnAfter(Rotate(s, false), k - 1);
    }
  }

  datatype Event =
    | Tick
    | SleepTask(id: nat)
    | WakeTask(id: nat, level: int)
    | Create
    | Send(id: nat, msg: int)
    | Exit(code: int)
    | Wait(target: nat)

  /** Ids that are not known are refused with an error; the idle task neither sleeps nor ends nor waits. */
  ghost predicate Possible(s: Sched, e: Event)
    requires Wellformed(s)
  {
    match e
    case SleepTask(id) => id != IDLE
    case WakeTask(_, level) => -1 <= level <= MAX_LEVEL
    case Exit(_) => Current(s) != IDLE && (Current(s) in s.waiters ==> s.waiters[Current(s)] in s.tasks && s.waiters[Current(s)] != Current(s))
    case Wait(_) => Current(s) != IDLE
    case _ => true
  }

  ghost function Step(s: Sched, e: Event): Sched
    requires Inv(s) && Possible(s, e)
  {
    match e
    case Tick => Rotate(s, false)
    case SleepTask(id) => if id in s.tasks then SleepInv(s, id); Sleep(s, id) else s
    case WakeTask(id, level) => if id in s.tasks then WakeupInv(s, id, level); Wakeup(s, id, level) else s
    case Create => NewTask(s)
    case Send(id, msg) => if id in s.tasks then PostInv(s, id, msg); Post(s, id, msg) else s
    case Exit(code) => FinishInv(s, code); Finish(s, code)
    case Wait(target) => CurrentTask(s); WaitOnce(s, target).0
  }

  lemma {:induction false} CurrentTask(s: Sched)
    requires Inv(s)
    ensures Current(s) in s.tasks && s.tasks[Current(s)].level == s.current && s.tasks[Current(s)].running
  {
    hide Queued;
    Member(s, s.current, Current(s));
  }

  lemma {:induction false} WaitInv(s: Sched, target: nat)
    requires Inv(s) && Current(s) != IDLE
    ensures Current(s) in s.tasks && s.tasks[Current(s)].level <= MAX_LEVEL && Inv(WaitOnce(s, target).0)
  {
    hide Queued, Sleep, NoneAbove;
    CurrentTask(s);
    if target !in s.finished {
      var u := s.(waiters := s.waiters[target := Current(s)]);
      SameTasks(s, u);
      SleepInv(u, Current(s));
    } else {
      SameTasks(s, s.(finished := s.finished - {target}));
    }
  }

  lemma {:induction false} SameTasks(s: Sched, u: Sched)
    requires Inv(s) && u == s.(waiters := u.waiters, finished := u.finished)
    ensures Inv(u) && Current(u) == Current(s)
  {
    hide Queued;
  }

  /** Every event keeps the invariant of the run queues. */
  lemma {:induction false} StepInv(s: Sched, e: Event)
    requires Inv(s) && Possible(s, e)
    ensures Inv(Step(s, e))
  {
    hide Queued, Inv, Rotate, Sleep, Wakeup, Finish, Post, NewTask;
    match e
    case Tick => TickInv(s);
    case SleepTask(id) => if id in s.tasks { SleepInv(s, id); }
    case WakeTask(id, level) => if id in s.tasks { WakeupInv(s, id, level); }
    case Create => NewTaskInv(s);
    case Send(id, msg) => if id in s.tasks { PostInv(s, id, msg); }
    case Exit(code) => FinishInv(s, code);
    case Wait(target) => WaitInv(s, target);
  }

  /** `x` is number `k` of the current queue. */
  ghost predicate Turn(s: Sched, x: nat, k: nat)
    requires Wellformed(s)
  {
    k < |s.queues[s.current]| && s.queues[s.current][k] == x
  }

  lemma {:induction false} WithoutIndex(q: seq<nat>, y: nat, k: nat)
    requires k < |q| && q[k] != y
    ensures exists j :: 0 <= j <= k && j < |Without(q, y)| && Without(q, y)[j] == q[k]
  {
    if k > 0 {
      WithoutIndex(q[1..], y, k - 1);
      var j :| 0 <= j <= k - 1 && j < |Without(q[1..], y)| && Without(q[1..], y)[j] == q[k];
      var i := if q[0] == y then j else j + 1;
      assert Without(q, y)[i] == q[k];
    } else {
      assert Without(q, y)[0] == q[0];
    }
  }

  /** While no higher task wakes up, a task that waits in the current queue never falls back, and every tick
      brings it one place nearer. */
  lemma {:induction false} TurnNearer(s: Sched, e: Event, x: nat, k: nat) returns (j: nat)
    requires Inv(s) && Possible(s, e) && !s.changed && Turn(s, x, k) && k > 0
    requires Inv(Step(s, e)) && !Step(s, e).changed && Step(s, e).current == s.current && x in Step(s, e).queues[s.current]
    ensures j <= k && Turn(Step(s, e), x, j) && (e.Tick? ==> j == k - 1)
  {
    hide Queued, NoneAbove, Finish;
    j := k;
    match e
    case Tick => j := k - 1;
    case Create =>
    case SleepTask(id) => if id in s.tasks { TaskLevel(s, id); j := SleepNearer(s, id, x, k); }
    case WakeTask(id, level) => if id in s.tasks { TaskLevel(s, id); j := WakeNearer(s, id, level, x, k); }
    case Send(id, msg) => if id in s.tasks { PostInv(s, id, msg); j := SendNearer(s, id, msg, x, k); }
    case Exit(code) => j := ExitNearer(s, code, x, k);
    case Wait(target) =>
      CurrentTask(s);
      if target !in s.finished { j := k - 1; }
  }

  /** The run stays on its level with nothing pending there, and `x` stays queued. */
  ghost predicate Calm(s: Sched, evs: seq<Event>, x: nat)
    requires Inv(s)
    decreases |evs|
  {
    evs == []
    || (&& Possible(s, evs[0])
        && (StepInv(s, evs[0]);
            var u := Step(s, evs[0]);
            !u.changed && u.current == s.current && x in u.queues[s.current] && Calm(u, evs[1..], x)))
  }

  /** The scheduler after a run, up to the first event that is not possible. */
  ghost function Steps(s: Sched, evs: seq<Event>): (u: Sched)
    requires Inv(s)
    ensures Inv(u)
    decreases |evs|
  {
    if evs == [] || !Possible(s, evs[0]) then s else StepInv(s, evs[0]); Steps(Step(s, evs[0]), evs[1..])
  }

  function TickCount(evs: seq<Event>): nat
  {
    if evs == [] then 0 else (if evs[0].Tick? then 1 else 0) + TickCount(evs[1..])
  }

  /** In a run without higher wakeups the task at place `k` is current after `k` ticks at the latest, whatever
      else happens. */
  lemma {:induction false} TurnComes(s: Sched, evs: seq<Event>, x: nat, k: nat) returns (n: nat)
    requires Inv(s) && !s.changed && Turn(s, x, k) && Calm(s, evs, x) && TickCount(evs) >= k
    ensures n <= |evs| && TickCount(evs[..n]) <= k && Current(Steps(s, evs[..n])) == x
    decreases |evs|
  {
    hide Inv, Step, Possible;
    if k == 0 {
      n := 0;
    } else {
      StepInv(s, evs[0]);
      var j := TurnNearer(s, evs[0], x, k);
      var m := TurnComes(Step(s, evs[0]), evs[1..], x, if evs[0].Tick? then k - 1 else j);
      n := m + 1;
      assert evs[..n][1..] == evs[1..][..m] && evs[..n][0] == evs[0];
    }
  }

  lemma {:induction false} SleepNearer(s: Sched, id: nat, x: nat, k: nat) returns (j: nat)
    requires Inv(s) && id in s.tasks && id != IDLE && s.tasks[id].level <= MAX_LEVEL && !s.changed && Turn(s, x, k) && k > 0
    requires var u := Sleep(s, id); Wellformed(u) && u.current == s.current && x in u.queues[s.current]
    ensures j <= k && Turn(Sleep(s, id), x, j)
  {
    hide NoneAbove, Queued;
    j := k;
    if s.tasks[id].running {
      if id == Current(s) {
        j := k - 1;
      } else if s.tasks[id].level == s.current {
        WithoutMembers(s.queues[s.current], id);
        WithoutIndex(s.queues[s.current], id, k);
        j :| 0 <= j <= k && j < |Without(s.queues[s.current], id)| && Without(s.queues[s.current], id)[j] == x;
      }
    }
  }

  lemma {:induction false} WakeNearer(s: Sched, id: nat, level: int, x: nat, k: nat) returns (j: nat)
    requires Inv(s) && id in s.tasks && s.tasks[id].level <= MAX_LEVEL && -1 <= level <= MAX_LEVEL
    requires !s.changed && Turn(s, x, k) && k > 0
    requires var u := Wakeup(s, id, level); Wellformed(u) && !u.changed && u.current == s.current && x in u.queues[s.current]
    ensures j <= k && Turn(Wakeup(s, id, level), x, j)
  {
    hide NoneAbove, Queued;
    j := k;
    if s.tasks[id].running && level >= 0 && level != s.tasks[id].level {
      if id == Current(s) {
        CurrentTask(s);
      } else if s.tasks[id].level == s.current {
        WithoutMembers(s.queues[s.current], id);
        WithoutIndex(s.queues[s.current], id, k);
        j :| 0 <= j <= k && j < |Without(s.queues[s.current], id)| && Without(s.queues[s.current], id)[j] == x;
      }
    }
  }

  lemma {:induction false} SendNearer(s: Sched, id: nat, msg: int, x: nat, k: nat) returns (j: nat)
    requires Inv(s) && id in s.tasks && s.tasks[id].level <= MAX_LEVEL && !s.changed && Turn(s, x, k) && k > 0
    requires var u := Post(s, id, msg); Wellformed(u) && !u.changed && u.current == s.current && x in u.queues[s.current]
    ensures j <= k && Turn(Post(s, id, msg), x, j)
  {
    hide NoneAbove, Queued;
    j := k;
  }

  lemma {:induction false} ExitNearer(s: Sched, code: int, x: nat, k: nat) returns (j: nat)
    requires Inv(s) && Possible(s, Exit(code)) && !s.changed && Turn(s, x, k) && k > 0
    requires var u := Step(s, Exit(code)); Wellformed(u) && !u.changed && u.current == s.current
    ensures j <= k && Turn(Step(s, Exit(code)), x, j)
  {
    hide NoneAbove, Queued;
    FinishInv(s, code);
    j := k - 1;
  }

  // ----- exit codes -----

  /** The task manager with who is inside WaitFinish and for whom, which codes tasks have ended with, and
      which of them WaitFinish has returned. */
  datatype World = World(s: Sched, waiting: map<nat, nat>, exits: map<nat, int>, delivered: map<nat, int>)

  ghost predicate WorldStep(w: World, e: Event)
  {
    Inv(w.s) && Possible(w.s, e)
  }

  ghost function Go(w: World, e: Event): World
    requires WorldStep(w, e)
  {
    var id := Current(w.s);
    match e
    case Exit(code) => w.(s := Step(w.s, e), exits := w.exits[id := code])
    case Wait(target) => (
      CurrentTask(w.s);
      match WaitOnce(w.s, target).1
      case None => w.(s := Step(w.s, e), waiting := w.waiting[id := target])
      case Some(code) => World(Step(w.s, e), w.waiting - {id}, w.exits, w.delivered[target := code]))
    case _ => w.(s := Step(w.s, e))
  }

  /** A task inside WaitFinish only goes on with its loop; tasks put only themselves to sleep. */
  ghost predicate Proper(w: World, e: Event)
    requires WorldStep(w, e)
  {
    var id := Current(w.s);
    match e
    case SleepTask(x) => x == id && id !in w.waiting
    case Exit(_) => id !in w.waiting
    case Wait(target) => id in w.waiting ==> w.waiting[id] == target
    case _ => true
  }

  /** Codes are where they should be: with the manager, or delivered, once. */
  ghost predicate Accounted(w: World)
  {
    && w.exits.Keys == w.s.finished.Keys + w.delivered.Keys && w.s.finished.Keys !! w.delivered.Keys
    && (forall t | t in w.s.finished :: w.s.finished[t] == w.exits[t])
    && (forall t | t in w.delivered :: w.delivered[t] == w.exits[t])
    && (forall t | t in w.exits :: t !in w.s.tasks && t <= w.s.latestId)
  }

  ghost predicate Registered(w: World)
  {
    && (forall x | x in w.waiting :: x in w.s.tasks && x != IDLE)
    && (forall t | t in w.s.waiters :: w.s.waiters[t] in w.waiting && w.waiting[w.s.waiters[t]] == t && t !in w.s.finished)
  }

  /** The task may still end: it is there, or not yet created, and not the idle task. */
  ghost predicate ToEnd(w: World, t: nat)
  {
    t != IDLE && (t in w.s.tasks || t > w.s.latestId)
  }

  /** Whom a task waits for, if it sleeps in WaitFinish. */
  ghost function Awaits(w: World, x: nat): Option<nat>
  {
    if x in w.waiting && x in w.s.tasks && !w.s.tasks[x].running then Some(w.waiting[x]) else None
  }

  /** A task that sleeps in WaitFinish is the one registered for a task that may still end. */
  ghost predicate NoneForgotten(w: World)
  {
    forall x | Awaits(w, x).Some? :: Expected(w, x, Awaits(w, x).value)
  }

  ghost predicate Expected(w: World, x: nat, t: nat)
  {
    t !in w.s.finished && t in w.s.waiters && w.s.waiters[t] == x && ToEnd(w, t)
  }

  /** Following `n` times who waits for whom leads from `x` to `y`. */
  ghost predicate Leads(w: World, x: nat, y: nat, n: nat)
    decreases n
  {
    if n == 0 then x == y else Awaits(w, x).Some? && Leads(w, Awaits(w, x).value, y, n - 1)
  }

  /** No tasks wait for each other in a circle. */
  ghost predicate NoCircle(w: World)
  {
    forall x, n: nat | n > 0 :: !Leads(w, x, x, n)
  }

  /** Every sleeping waiter is due to be woken: it is registered for a task that may still end, and who waits for
      whom leads to a task that does not sleep in WaitFinish itself. */
  ghost predicate Good(w: World)
  {
    Inv(w.s) && Accounted(w) && Registered(w) && NoneForgotten(w) && NoCircle(w)
  }

  /** A wait for a task whose code is there, or that may still end, does not wait for the caller in turn, and for
      which nobody else sleeps. */
  ghost predicate MayWait(w: World, e: Event)
    requires Wellformed(w.s)
  {
    e.Wait? ==>
      e.target in w.s.finished
      || (&& ToEnd(w, e.target) && (forall n: nat :: !Leads(w, e.target, Current(w.s), n))
          && forall x | x != Current(w.s) :: Awaits(w, x) != Some(e.target))
  }

  // ----- who waits for whom -----

  /** With fewer sleeping waiters there is still no circle. */
  lemma {:induction false} FewerLead(w: World, u: World, x: nat, y: nat, n: nat)
    requires forall z | Awaits(u, z).Some? :: Awaits(u, z) == Awaits(w, z)
    requires Leads(u, x, y, n)
    ensures Leads(w, x, y, n)
    decreases n
  {
    if n > 0 { FewerLead(w, u, Awaits(u, x).value, y, n - 1); }
  }

  lemma {:induction false} FewerNoCircle(w: World, u: World)
    requires NoCircle(w) && forall z | Awaits(u, z).Some? :: Awaits(u, z) == Awaits(w, z)
    ensures NoCircle(u)
  {
    forall x, n: nat | n > 0
      ensures !Leads(u, x, x, n)
    {
      if Leads(u, x, x, n) { FewerLead(w, u, x, x, n); }
    }
  }

  /** Only `id` has begun to wait, for `target`. */
  ghost predicate OneMoreWaits(w: World, u: World, id: nat, target: nat)
  {
    Awaits(w, id).None? && Awaits(u, id) == Some(target) && forall z | z != id :: Awaits(u, z) == Awaits(w, z)
  }

  lemma {:induction false} LeadsOn(w: World, x: nat, y: nat, z: nat, m: nat, n: nat)
    requires Leads(w, x, y, m) && Leads(w, y, z, n)
    ensures Leads(w, x, z, m + n)
    decreases m
  {
    if m > 0 { LeadsOn(w, Awaits(w, x).value, y, z, m - 1, n); }
  }

  /** What leads to `id` does so without the new wait. */
  lemma {:induction false} LedBefore(w: World, u: World, id: nat, target: nat, x: nat, n: nat) returns (m: nat)
    requires OneMoreWaits(w, u, id, target) && Leads(u, x, id, n)
    ensures Leads(w, x, id, m)
    decreases n
  {
    m := 0;
    if x != id {
      m := LedBefore(w, u, id, target, Awaits(u, x).value, n - 1);
      m := m + 1;
    }
  }

  /** What leads on now did so before, or it leads through the new wait. */
  lemma {:induction false} NewLead(w: World, u: World, id: nat, target: nat, x: nat, y: nat, n: nat) returns (m: nat)
    requires OneMoreWaits(w, u, id, target) && Leads(u, x, y, n)
    ensures Leads(w, x, y, n) || (m < n && Leads(u, x, id, m) && Leads(u, target, y, n - m - 1))
    decreases n
  {
    m := 0;
    if n > 0 && x != id {
      m := NewLead(w, u, id, target, Awaits(u, x).value, y, n - 1);
      m := m + 1;
    }
  }

  /** A circle leads through the new wait. */
  lemma {:induction false} CircleFound(w: World, u: World, id: nat, target: nat, x: nat, n: nat) returns (k: nat)
    requires NoCircle(w) && OneMoreWaits(w, u, id, target) && n > 0 && Leads(u, x, x, n)
    ensures Leads(w, target, id, k)
  {
    var m := NewLead(w, u, id, target, x, x, n);
    LeadsOn(u, target, x, id, n - m - 1, m);
    k := LedBefore(w, u, id, target, target, n - 1);
  }

  lemma {:induction false} CircleClosed(w: World, u: World, id: nat, target: nat, n: nat)
    requires OneMoreWaits(w, u, id, target) && Leads(w, target, id, n)
    ensures !NoCircle(u)
  {
    FewerLeadBack(w, u, id, target, target, n);
    assert Leads(u, id, id, n + 1);
  }

  /** A new wait closes a circle iff the task waited for leads back. */
  lemma {:induction false} CircleIff(w: World, u: World, id: nat, target: nat)
    requires NoCircle(w) && OneMoreWaits(w, u, id, target)
    ensures NoCircle(u) <==> forall n: nat :: !Leads(w, target, id, n)
  {
    if n: nat :| Leads(w, target, id, n) {
      CircleClosed(w, u, id, target, n);
      assert exists m: nat :: Leads(w, target, id, m);
    } else if !NoCircle(u) {
      var x, n: nat :| n > 0 && Leads(u, x, x, n);
      var k := CircleFound(w, u, id, target, x, n);
    }
  }

  lemma {:induction false} FewerLeadBack(w: World, u: World, id: nat, target: nat, x: nat, n: nat)
    requires OneMoreWaits(w, u, id, target) && Leads(w, x, id, n)
    ensures Leads(u, x, id, n)
    decreases n
  {
    if n > 0 { FewerLeadBack(w, u, id, target, Awaits(w, x).value, n - 1); }
  }

  // ----- what single operations do to the tasks -----

  lemma {:induction false} SleepTasks(s: Sched, id: nat)
    requires Wellformed(s) && id in s.tasks && s.tasks[id].level <= MAX_LEVEL
    ensures var u := Sleep(s, id);
            u.tasks.Keys == s.tasks.Keys && (forall x | x in s.tasks && x != id :: u.tasks[x] == s.tasks[x])
            && u.tasks[id] == s.tasks[id].(running := false)
            && u.finished == s.finished && u.waiters == s.waiters && u.latestId == s.latestId
  {
    hide Rotate;
    var t := s.tasks[id];
    RotatedSame(SetTask(s, id, t.level, false), true);
  }

  lemma {:induction false} RotatedSame(s: Sched, sleep: bool)
    requires Wellformed(s)
    ensures var u := Rotate(s, sleep);
            u.tasks == s.tasks && u.finished == s.finished && u.waiters == s.waiters && u.latestId == s.latestId
  {
  }

  lemma {:induction false} SetTaskKeeps(s: Sched, id: nat, level: nat, running: bool)
    requires id in s.tasks
    ensures var u := SetTask(s, id, level, running);
            u == s.(tasks := u.tasks) && u.tasks.Keys == s.tasks.Keys && u.tasks[id] == s.tasks[id].(level := level, running := running)
            && forall x | x in s.tasks && x != id :: u.tasks[x] == s.tasks[x]
  {
  }

  lemma {:induction false} ChangeLevelTasks(s: Sched, id: nat, level: int)
    requires Wellformed(s) && id in s.tasks && s.tasks[id].level <= MAX_LEVEL && -1 <= level <= MAX_LEVEL
    ensures var u := ChangeLevel(s, id, level);
            u.tasks.Keys == s.tasks.Keys && (forall x | x in s.tasks && x != id :: u.tasks[x] == s.tasks[x])
            && u.tasks[id] == s.tasks[id].(level := if level < 0 then s.tasks[id].level else level)
            && u.finished == s.finished && u.waiters == s.waiters && u.latestId == s.latestId
  {
    hide Without, SetTask;
    if level >= 0 { SetTaskKeeps(s, id, level, s.tasks[id].running); }
  }

  lemma {:induction false} WakeupTasks(s: Sched, id: nat, level: int)
    requires Wellformed(s) && id in s.tasks && s.tasks[id].level <= MAX_LEVEL && -1 <= level <= MAX_LEVEL
    ensures var u := Wakeup(s, id, level);
            u.tasks.Keys == s.tasks.Keys && (forall x | x in s.tasks && x != id :: u.tasks[x] == s.tasks[x])
            && u.tasks[id] == s.tasks[id].(level := if level < 0 then s.tasks[id].level else level, running := true)
            && u.finished == s.finished && u.waiters == s.waiters && u.latestId == s.latestId
  {
    hide ChangeLevel;
    ChangeLevelTasks(s, id, level);
  }

  lemma {:induction false} PlainGood(w: World, e: Event)
    requires Good(w) && WorldStep(w, e) && Proper(w, e) && (e.Tick? || e.WakeTask? || e.Send? || e.SleepTask?)
    ensures Good(Go(w, e))
  {
    hide Queued, Rotate, Sleep, Wakeup, NoneAbove;
    var u := Go(w, e);
    StepInv(w.s, e);
    match e {
      case Tick => RotatedSame(w.s, false);
      case WakeTask(id, level) => if id in w.s.tasks { TaskLevel(w.s, id); WakeupTasks(w.s, id, level); }
      case Send(id, msg) => if id in w.s.tasks { SendTasks(w.s, id, msg); }
      case SleepTask(id) => if id in w.s.tasks { TaskLevel(w.s, id); SleepTasks(w.s, id); }
    }
    MoreRunning(w, u);
  }

  /** Events that only wake tasks or take turns forget no waiting task. */
  lemma {:induction false} MoreRunning(w: World, u: World)
    requires Accounted(w) && Registered(w) && NoneForgotten(w) && NoCircle(w)
    requires u.waiting == w.waiting && u.exits == w.exits && u.delivered == w.delivered
    requires u.s.finished == w.s.finished && u.s.waiters == w.s.waiters && u.s.latestId == w.s.latestId
    requires u.s.tasks.Keys == w.s.tasks.Keys
    requires forall x | x in w.s.tasks && x in w.waiting && w.s.tasks[x].running :: u.s.tasks[x].running
    ensures Accounted(u) && Registered(u) && NoneForgotten(u) && NoCircle(u)
  {
    forall x | Awaits(u, x).Some?
      ensures Awaits(u, x) == Awaits(w, x) && Expected(u, x, Awaits(u, x).value)
    {
      assert Awaits(w, x).Some?;
    }
    FewerNoCircle(w, u);
  }

  lemma {:induction false} SendTasks(s: Sched, id: nat, msg: int)
    requires Inv(s) && id in s.tasks
    ensures s.tasks[id].level <= MAX_LEVEL
    ensures var u := Post(s, id, msg);
            u.tasks.Keys == s.tasks.Keys && (forall x | x in s.tasks && x != id :: u.tasks[x] == s.tasks[x])
            && u.tasks[id] == s.tasks[id].(running := true, msgs := s.tasks[id].msgs + [msg])
            && u.finished == s.finished && u.waiters == s.waiters && u.latestId == s.latestId
  {
    hide Queued;
    TaskLevel(s, id);
  }

  lemma {:induction false} CreateGood(w: World)
    requires Good(w) && WorldStep(w, Create)
    ensures Good(Go(w, Create))
  {
    hide Queued, NoneAbove, NewTask;
    StepInv(w.s, Create);
    assert NewTask(w.s) == w.s.(latestId := w.s.latestId + 1, tasks := w.s.tasks[w.s.latestId + 1 := Task(DEFAULT_LEVEL, false, [])]) by {
      NewTaskIs(w.s);
    }
    FewerNoCircle(w, Go(w, Create));
  }

  lemma {:induction false} NewTaskIs(s: Sched)
    ensures NewTask(s) == s.(latestId := s.latestId + 1, tasks := s.tasks[s.latestId + 1 := Task(DEFAULT_LEVEL, false, [])])
  {
  }

  /** What is left of the manager when the current task has ended. */
  lemma {:induction false} FinishTasks(s: Sched, code: int)
    requires Inv(s) && Possible(s, Exit(code))
    ensures Wellformed(Rotate(s, true))
    ensures Current(s) in s.waiters ==> s.tasks[s.waiters[Current(s)]].level <= MAX_LEVEL
    ensures var id, u := Current(s), Finish(s, code);
            && u.tasks.Keys == s.tasks.Keys - {id} && u.finished == s.finished[id := code]
            && u.waiters == s.waiters - {id} && u.latestId == s.latestId
            && (forall x | x in u.tasks ::
                  u.tasks[x] == s.tasks[x].(running := s.tasks[x].running || (id in s.waiters && s.waiters[id] == x)))
  {
    hide Queued, Rotate, Wakeup, NoneAbove;
    var id := Current(s);
    FinishInv(s, code);
    RotatedSame(s, true);
    var u := Rotate(s, true);
    var v := u.(tasks := u.tasks - {id}, finished := u.finished[id := code]);
    if id in s.waiters {
      WakeupTasks(v.(waiters := v.waiters - {id}), v.waiters[id], -1);
    } else {
      assert s.waiters - {id} == s.waiters;
    }
  }

  lemma {:induction false} ExitGood(w: World, code: int)
    requires Good(w) && WorldStep(w, Exit(code)) && Proper(w, Exit(code))
    ensures Good(Go(w, Exit(code)))
  {
    hide Queued, NoneAbove, Finish, Rotate;
    var id, u := Current(w.s), Go(w, Exit(code));
    StepInv(w.s, Exit(code));
    CurrentTask(w.s);
    FinishTasks(w.s, code);
    ExitAccounted(w, u, id, code);
    forall x | Awaits(u, x).Some?
      ensures Awaits(u, x) == Awaits(w, x) && Expected(u, x, Awaits(u, x).value)
    {
      assert Awaits(w, x) == Some(w.waiting[x]);
    }
    FewerNoCircle(w, u);
  }

  lemma {:induction false} ExitAccounted(w: World, u: World, id: nat, code: int)
    requires Accounted(w) && id in w.s.tasks && id <= w.s.latestId
    requires u.s.tasks.Keys == w.s.tasks.Keys - {id} && u.s.finished == w.s.finished[id := code] && u.s.latestId == w.s.latestId
    requires u.exits == w.exits[id := code] && u.delivered == w.delivered
    ensures Accounted(u)
  {
    assert id !in w.exits;
  }

  lemma {:induction false} TakeGood(w: World, target: nat)
    requires Good(w) && WorldStep(w, Wait(target)) && Proper(w, Wait(target)) && target in w.s.finished
    ensures Good(Go(w, Wait(target)))
  {
    hide Queued, NoneAbove;
    var u := Go(w, Wait(target));
    StepInv(w.s, Wait(target));
    CurrentTask(w.s);
    assert forall x | Awaits(u, x).Some? :: Awaits(u, x) == Awaits(w, x) && Expected(w, x, Awaits(u, x).value);
    FewerNoCircle(w, u);
  }

  /** A wait that finds no code keeps everything in order iff it may wait. */
  lemma {:induction false} SleepGoodIff(w: World, target: nat)
    requires Good(w) && WorldStep(w, Wait(target)) && Proper(w, Wait(target)) && target !in w.s.finished
    ensures Good(Go(w, Wait(target))) <==> MayWait(w, Wait(target))
  {
    hide Queued, NoneAbove, Sleep, Known, Accounted, Registered, NoneForgotten, NoCircle, Leads;
    var id, u := Current(w.s), Go(w, Wait(target));
    StepInv(w.s, Wait(target));
    CurrentTask(w.s);
    SleepTasks(w.s.(waiters := w.s.waiters[target := id]), id);
    assert forall x | x != id && x in w.s.tasks :: u.s.tasks[x] == w.s.tasks[x];
    assert OneMoreWaits(w, u, id, target);
    CircleIff(w, u, id, target);
    assert Accounted(u) by { SameCodes(w, u); }
    assert Registered(u) by { OneMoreRegistered(w, u, id, target); }
    RegistersIff(w, u, id, target);
    assert NoCircle(u) <==> forall n: nat :: !Leads(w, target, id, n);
    assert MayWait(w, Wait(target)) <==> NoneForgotten(u) && NoCircle(u);
  }

  lemma {:induction false} RegistersIff(w: World, u: World, id: nat, target: nat)
    requires NoneForgotten(w) && target !in w.s.finished && OneMoreWaits(w, u, id, target)
    requires u.s.finished == w.s.finished && u.s.waiters == w.s.waiters[target := id] && u.s.latestId == w.s.latestId
    requires u.s.tasks.Keys == w.s.tasks.Keys
    ensures NoneForgotten(u) <==> ToEnd(w, target) && forall x | x != id :: Awaits(w, x) != Some(target)
  {
    assert Expected(u, id, target) <==> ToEnd(w, target);
    forall x | x != id && Awaits(u, x).Some?
      ensures Expected(u, x, Awaits(u, x).value) <==> Awaits(w, x) != Some(target)
    {
      assert Expected(w, x, Awaits(w, x).value);
    }
  }

  lemma {:induction false} SameCodes(w: World, u: World)
    requires Accounted(w) && u.exits == w.exits && u.delivered == w.delivered && u.s.finished == w.s.finished
    requires u.s.tasks.Keys == w.s.tasks.Keys && u.s.latestId == w.s.latestId
    ensures Accounted(u)
  {
  }

  lemma {:induction false} OneMoreRegistered(w: World, u: World, id: nat, target: nat)
    requires Registered(w) && target !in w.s.finished && id in w.s.tasks && id != IDLE && (id in w.waiting ==> w.waiting[id] == target)
    requires u.waiting == w.waiting[id := target] && u.s.finished == w.s.finished && u.s.waiters == w.s.waiters[target := id]
    requires u.s.tasks.Keys == w.s.tasks.Keys
    ensures Registered(u)
  {
  }

  /** Every event keeps exit codes accounted for and every sleeping waiter due to be woken iff it is not a wait for
      a task that has ended with its code taken or never was, that somebody else sleeps for, or that waits for
      the caller. */
  lemma {:induction false} GoGoodIff(w: World, e: Event)
    requires Good(w) && WorldStep(w, e) && Proper(w, e)
    ensures Good(Go(w, e)) <==> MayWait(w, e)
  {
    hide Good, Step, WaitOnce;
    match e
    case Create => CreateGood(w);
    case Exit(code) => ExitGood(w, code);
    case Wait(target) => if target in w.s.finished { TakeGood(w, target); } else { SleepGoodIff(w, target); }
    case _ => PlainGood(w, e);
  }

  /** The code of an ended task that somebody waits for is with the manager and the waiter is running, until
      it is delivered; and what is delivered is the code the task ended with. */
  lemma {:induction false} CodeArrives(w: World, t: nat, x: nat)
    requires Good(w) && t in w.exits
    ensures t in w.s.finished <==> t !in w.delivered
    ensures t in w.delivered ==> w.delivered[t] == w.exits[t]
    ensures x in w.waiting && w.waiting[x] == t && t !in w.delivered ==> x in w.s.tasks && w.s.tasks[x].running
  {
    assert Awaits(w, x).Some? ==> Expected(w, x, Awaits(w, x).value);
  }

  /** When a task ends, whoever sleeps waiting for it runs again and finds the code. */
  lemma {:induction false} ExitWakes(w: World, code: int, x: nat)
    requires Good(w) && WorldStep(w, Exit(code)) && Awaits(w, x) == Some(Current(w.s)) && x != Current(w.s)
    ensures var u := Go(w, Exit(code));
            x in u.s.tasks && u.s.tasks[x].running && u.s.finished[Current(w.s)] == code
  {
    hide Queued, NoneAbove, Accounted, Registered, NoCircle, Finish, Rotate;
    assert Expected(w, x, Current(w.s));
    FinishTasks(w.s, code);
    FinishInv(w.s, code);
  }

  // ----- levels -----

  /** What an event makes of a task that is there before and after it. */
  ghost function TaskAfter(s: Sched, e: Event, id: nat): Task
    requires Inv(s) && id in s.tasks
  {
    var t := s.tasks[id];
    match e
    case WakeTask(x, level) => if x != id then t else Task(if level < 0 then t.level else level, true, t.msgs)
    case Send(x, msg) => if x != id then t else Task(t.level, true, t.msgs + [msg])
    case SleepTask(x) => if x != id then t else t.(running := false)
    case Wait(target) => if target in s.finished || Current(s) != id then t else t.(running := false)
    case Exit(_) => if Current(s) in s.waiters && s.waiters[Current(s)] == id then t.(running := true) else t
    case _ => t
  }

  /** A task's level, whether it runs, and its messages change by the events that are meant to change them only. */
  lemma {:induction false} StepTask(s: Sched, e: Event, id: nat)
    requires Inv(s) && Possible(s, e) && id in s.tasks && id in Step(s, e).tasks
    ensures Step(s, e).tasks[id] == TaskAfter(s, e, id)
  {
    hide Inv, Rotate, Sleep, Wakeup, Finish, Post;
    InvQueued(s);
    match e {
      case Tick => RotatedSame(s, false);
      case SleepTask(x) => if x in s.tasks { TaskLevel(s, x); SleepTasks(s, x); }
      case WakeTask(x, level) => if x in s.tasks { TaskLevel(s, x); WakeupTasks(s, x, level); }
      case Send(x, msg) => if x in s.tasks { TaskLevel(s, x); SendTasks(s, x, msg); }
      case Create => NewTaskIs(s); NewId(s);
      case Exit(code) =>
        CurrentTask(s);
        FinishInv(s, code);
        FinishTasks(s, code);
      case Wait(target) =>
        CurrentTask(s);
        if target !in s.finished { SleepTasks(s.(waiters := s.waiters[target := Current(s)]), Current(s)); }
    }
  }

  lemma {:induction false} NewId(s: Sched)
    requires Inv(s)
    ensures s.latestId + 1 !in s.tasks
  {
  }

  /** A new task is on the default level, asleep, under an id not used before. */
  lemma {:induction false} CreatedTask(s: Sched)
    requires Inv(s)
    ensures var u := Step(s, Create); var id := u.latestId;
            id !in s.tasks && id > s.latestId && u.tasks == s.tasks[id := Task(DEFAULT_LEVEL, false, [])]
  {
    hide Queued;
    NewTaskIs(s);
  }

  /** Nobody wakes `id` with a level of its own choice. */
  predicate NoLevel(evs: seq<Event>, id: nat)
  {
    forall i | 0 <= i < |evs| :: !(evs[i].WakeTask? && evs[i].id == id && evs[i].level >= 0)
  }

  /** Over every run in which nobody wakes a task with a level, it keeps its own. */
  lemma {:induction false} LevelKept(s: Sched, evs: seq<Event>, id: nat)
    requires Inv(s) && id in s.tasks && NoLevel(evs, id) && id in Steps(s, evs).tasks
    ensures Steps(s, evs).tasks[id].level == s.tasks[id].level
    decreases |evs|
  {
    hide Inv, Step, Possible;
    InvQueued(s);
    if evs != [] && Possible(s, evs[0]) {
      var u := Step(s, evs[0]);
      StepInv(s, evs[0]);
      KnownTask(s, id);
      if id !in u.tasks { GoneForGood(s, evs[0], id); NeverBack(u, evs[1..], id); }
      StepTask(s, evs[0], id);
      LevelKept(u, evs[1..], id);
    }
  }

  lemma {:induction false} KnownTask(s: Sched, id: nat)
    requires Inv(s) && id in s.tasks
    ensures id <= s.latestId
  {
  }

  /** A task that is gone does not come back. */
  lemma {:induction false} GoneForGood(s: Sched, e: Event, id: nat)
    requires Inv(s) && Possible(s, e) && id <= s.latestId
    ensures var u := Step(s, e); id <= u.latestId && (id !in s.tasks ==> id !in u.tasks)
  {
    hide Inv, Rotate, Sleep, Wakeup, Finish, Post;
    InvQueued(s);
    match e {
      case Tick => RotatedSame(s, false);
      case SleepTask(x) => if x in s.tasks { TaskLevel(s, x); SleepTasks(s, x); }
      case WakeTask(x, level) => if x in s.tasks { TaskLevel(s, x); WakeupTasks(s, x, level); }
      case Send(x, msg) => if x in s.tasks { TaskLevel(s, x); SendTasks(s, x, msg); }
      case Create => NewTaskIs(s);
      case Exit(code) =>
        FinishInv(s, code);
        FinishTasks(s, code);
      case Wait(target) =>
        CurrentTask(s);
        if target !in s.finished { SleepTasks(s.(waiters := s.waiters[target := Current(s)]), Current(s)); }
    }
  }

  lemma {:induction false} NeverBack(s: Sched, evs: seq<Event>, id: nat)
    requires Inv(s) && id !in s.tasks && id <= s.latestId
    ensures id !in Steps(s, evs).tasks
    decreases |evs|
  {
    hide Inv, Step, Possible;
    InvQueued(s);
    if evs != [] && Possible(s, evs[0]) {
      StepInv(s, evs[0]);
      GoneForGood(s, evs[0], id);
      NeverBack(Step(s, evs[0]), evs[1..], id);
    }
  }

  /** After a tick no running task has a higher level than the one that runs: a task woken above the current level, whatever
      woke it, gets its turn at the next tick, or one of its level or above. */
  lemma {:induction false} TickPreempts(s: Sched, id: nat)
    requires Inv(s) && id in s.tasks && s.tasks[id].running
    ensures var u := Rotate(s, false);
            && Wellformed(u) && u.tasks == s.tasks && Current(u) in s.tasks
            && u.current == s.tasks[Current(u)].level >= s.tasks[id].level && s.tasks[Current(u)].running
  {
    hide Queued, Rotate;
    TickInv(s);
    RotateInv(s, false);
    RotatedSame(s, false);
    var u := Rotate(s, false);
    TaskLevel(u, id);
    CurrentTask(u);
  }

  /** The task that runs goes on running until a tick comes or it gives up its place itself. */
  lemma {:induction false} CurrentStays(s: Sched, e: Event)
    requires Inv(s) && Possible(s, e)
    requires e.WakeTask? || e.Send? || e.Create? || (e.SleepTask? && e.id != Current(s)) || (e.Wait? && e.target in s.finished)
    ensures Inv(Step(s, e)) && Current(Step(s, e)) == Current(s)
  {
    hide Queued, NoneAbove, Rotate, Wakeup, Sleep;
    StepInv(s, e);
    InvQueued(s);
    CurrentTask(s);
    match e {
      case WakeTask(id, level) => if id in s.tasks { TaskLevel(s, id); WakeupStays(s, id, level); }
      case Send(id, msg) =>
        if id in s.tasks {
          TaskLevel(s, id);
          WakeupStays(s.(tasks := s.tasks[id := s.tasks[id].(msgs := s.tasks[id].msgs + [msg])]), id, -1);
        }
      case SleepTask(id) => if id in s.tasks { TaskLevel(s, id); SleepStays(s, id); }
      case _ =>
    }
  }

  lemma {:induction false} WakeupStays(s: Sched, id: nat, level: int)
    requires Wellformed(s) && id in s.tasks && s.tasks[id].level <= MAX_LEVEL && -1 <= level <= MAX_LEVEL
    ensures var u := Wakeup(s, id, level);
            |u.queues| == MAX_LEVEL + 1 && u.current <= MAX_LEVEL && u.queues[u.current] != [] && u.queues[u.current][0] == Current(s)
  {
    if s.tasks[id].running && id != Current(s) { WithoutBefore(s.queues[s.current], id, 0); }
  }

  lemma {:induction false} SleepStays(s: Sched, id: nat)
    requires Wellformed(s) && id in s.tasks && s.tasks[id].level <= MAX_LEVEL && id != Current(s)
    ensures var u := Sleep(s, id); Wellformed(u) && Current(u) == Current(s)
  {
    WithoutBefore(s.queues[s.current], id, 0);
  }

  // ----- waits that never end -----

  /** What a step does to a task that is gone: it does not come back, and no code of it appears. */
  lemma {:induction false} GoneStep(s: Sched, e: Event, t: nat)
    requires Inv(s) && Possible(s, e) && t !in s.tasks && t <= s.latestId && t !in s.finished
    ensures var u := Step(s, e); t !in u.tasks && t <= u.latestId && t !in u.finished
  {
    hide Inv, Rotate, Sleep, Wakeup, Finish, Post;
    InvQueued(s);
    match e {
      case Tick => RotatedSame(s, false);
      case SleepTask(id) => if id in s.tasks { TaskLevel(s, id); SleepTasks(s, id); }
      case WakeTask(id, level) => if id in s.tasks { TaskLevel(s, id); WakeupTasks(s, id, level); }
      case Send(id, msg) => if id in s.tasks { SendTasks(s, id, msg); }
      case Create =>
      case Exit(code) =>
        CurrentTask(s);
        FinishInv(s, code);
        FinishTasks(s, code);
      case Wait(target) =>
        CurrentTask(s);
        if target !in s.finished { SleepTasks(s.(waiters := s.waiters[target := Current(s)]), Current(s)); }
    }
  }

  /** The code of a task that has ended and whose code is taken never comes again: a wait for it sleeps for ever. */
  lemma {:induction false} Gone(s: Sched, evs: seq<Event>, t: nat)
    requires Inv(s) && t !in s.tasks && t <= s.latestId && t !in s.finished
    ensures t !in Steps(s, evs).tasks && t !in Steps(s, evs).finished
    decreases |evs|
  {
    hide Inv, Step, Possible;
    InvQueued(s);
    if evs != [] && Possible(s, evs[0]) {
      GoneStep(s, evs[0], t);
      StepInv(s, evs[0]);
      Gone(Step(s, evs[0]), evs[1..], t);
    }
  }

  /** Once a code is taken, another wait for it is forgotten. */
  lemma {:induction false} TakenForgotten(w: World, target: nat)
    requires Good(w) && WorldStep(w, Wait(target)) && Proper(w, Wait(target)) && target in w.delivered
    ensures !Good(Go(w, Wait(target)))
  {
    hide Inv, Registered, NoneForgotten, NoCircle, Step, WaitOnce;
    GoGoodIff(w, Wait(target));
    assert target in w.exits;
  }

  /** So is a wait of a task for itself. */
  lemma {:induction false} SelfForgotten(w: World)
    requires Good(w) && WorldStep(w, Wait(Current(w.s))) && Current(w.s) !in w.waiting
    ensures !Good(Go(w, Wait(Current(w.s))))
  {
    hide Step, WaitOnce;
    var id := Current(w.s);
    CurrentTask(w.s);
    GoGoodIff(w, Wait(id));
    assert Leads(w, id, id, 0);
    assert id !in w.s.finished;
  }

  /** The main task, the idle task and, if `other`, a fourth one; task 3 has ended with code 7. */
  function Ended(other: bool): Sched
  {
    var main, idle := Task(3, true, []), Task(0, true, []);
    if other then Sched(map[1 := main, 2 := idle, 4 := main], 4, [[2], [], [], [4, 1]], 3, false, map[3 := 7], map[])
    else Sched(map[1 := main, 2 := idle], 3, [[2], [], [], [1]], 3, false, map[3 := 7], map[])
  }

  lemma {:induction false} EndedQueued(other: bool)
    ensures Queued(Ended(other).tasks, Ended(other).queues)
  {
    var s := Ended(other);
    assert s.queues[0] == [2] && s.queues[1] == s.queues[2] == [] && s.queues[3] == if other then [4, 1] else [1];
    forall lv | 0 <= lv <= MAX_LEVEL
      ensures Distinct(s.queues[lv]) && forall id | id in s.queues[lv] :: id in s.tasks && s.tasks[id].running && s.tasks[id].level == lv
    {
      assert lv == 0 || lv == 1 || lv == 2 || lv == 3;
    }
  }

  lemma {:induction false} EndedInv(other: bool)
    ensures Inv(Ended(other)) && Current(Ended(other)) == if other then 4 else 1
    ensures 1 in Ended(other).tasks && forall x | x in Ended(other).tasks :: Ended(other).tasks[x].running && x != 3
    ensures Ended(other).finished == map[3 := 7] && Ended(other).waiters == map[] && Ended(other).latestId >= 3
  {
    hide Queued;
    EndedQueued(other);
    assert Ended(other).queues[3] == if other then [4, 1] else [1];
  }

  lemma {:induction false} EndedGood(other: bool, waiting: map<nat, nat>)
    requires waiting == map[] || waiting == map[1 := 3]
    ensures Good(World(Ended(other), waiting, map[3 := 7], map[]))
  {
    hide Inv;
    EndedInv(other);
    var w := World(Ended(other), waiting, map[3 := 7], map[]);
    assert 1 in w.s.tasks;
    assert forall x :: Awaits(w, x).None?;
  }

  /** A task that calls WaitFinish twice for the same task sleeps for ever. */
  lemma {:induction false} WaitTwiceExample() returns (w: World)
    ensures Good(w) && WorldStep(w, Wait(3)) && MayWait(w, Wait(3))
    ensures var u := Go(w, Wait(3)); WorldStep(u, Wait(3)) && Proper(u, Wait(3)) && !Good(Go(u, Wait(3)))
  {
    hide Inv, Good, Accounted, Registered, NoneForgotten, NoCircle;
    w := World(Ended(false), map[], map[3 := 7], map[]);
    EndedGood(false, map[]);
    EndedInv(false);
    InvQueued(w.s);
    StepInv(w.s, Wait(3));
    GoGoodIff(w, Wait(3));
    TakenForgotten(Go(w, Wait(3)), 3);
  }

  lemma {:induction false} TakeIs(w: World, target: nat)
    requires WorldStep(w, Wait(target)) && target in w.s.finished
    ensures Go(w, Wait(target)) == World(w.s.(finished := w.s.finished - {target}), w.waiting - {Current(w.s)}, w.exits,
                                         w.delivered[target := w.s.finished[target]])
  {
    CurrentTask(w.s);
  }

  /** After a tick the waiting task is current. */
  lemma {:induction false} EndedTurn(s: Sched)
    requires s == Ended(true).(finished := s.finished)
    ensures Wellformed(Rotate(s, false)) && Current(Rotate(s, false)) == 1
  {
    assert [4, 1][1..] + [4] == [1, 4];
    assert s.queues[3] == [4, 1];
  }

  /** So does a task that was woken when another one takes the code before its next turn. */
  lemma {:induction false} StolenExample() returns (w: World, v: World, u: World)
    ensures WorldStep(w, Wait(3)) && v == Go(w, Wait(3)) && Current(w.s) == 4 && 1 in w.waiting && w.waiting[1] == 3
    ensures WorldStep(v, Tick) && u == Go(v, Tick)
    ensures WorldStep(u, Wait(3)) && Current(u.s) == 1 && Proper(u, Wait(3))
    ensures Good(w) && Good(v) && Good(u) && !Good(Go(u, Wait(3)))
  {
    hide Inv, Good, Accounted, Registered, NoneForgotten, NoCircle, Rotate, WaitOnce, Go, Ended, Step;
    w := World(Ended(true), map[1 := 3], map[3 := 7], map[]);
    EndedGood(true, map[1 := 3]);
    EndedInv(true);
    InvQueued(w.s);
    GoGoodIff(w, Wait(3));
    TakeIs(w, 3);
    v := Go(w, Wait(3));
    EndedTurn(v.s);
    TickGood(v);
    u := Go(v, Tick);
    TakenForgotten(u, 3);
  }

  lemma {:induction false} TickGood(w: World)
    requires Good(w)
    ensures WorldStep(w, Tick) && Good(Go(w, Tick)) && Go(w, Tick) == w.(s := Rotate(w.s, false))
  {
    StepInv(w.s, Tick);
    GoGoodIff(w, Tick);
  }

  // ----- runs -----

  ghost predicate Allowed(w: World, evs: seq<Event>)
    requires Good(w)
    decreases |evs|
  {
    evs == []
    || (WorldStep(w, evs[0]) && Proper(w, evs[0]) && MayWait(w, evs[0])
        && (GoGoodIff(w, evs[0]); Allowed(Go(w, evs[0]), evs[1..])))
  }

  ghost function Run(w: World, evs: seq<Event>): (u: World)
    requires Good(w) && Allowed(w, evs)
    ensures Good(u)
    decreases |evs|
  {
    if evs == [] then w else GoGoodIff(w, evs[0]); Run(Go(w, evs[0]), evs[1..])
  }

  /** Codes are never taken back or changed. */
  lemma {:induction false} RunKeepsCodes(w: World, evs: seq<Event>, t: nat)
    requires Good(w) && Allowed(w, evs) && t in w.exits
    ensures var u := Run(w, evs);
            t in u.exits && u.exits[t] == w.exits[t] && (t in w.delivered ==> t in u.delivered && u.delivered[t] == w.exits[t])
    decreases |evs|
  {
    hide Step, WaitOnce, Inv, Registered, NoneForgotten;
    if evs != [] {
      GoGoodIff(w, evs[0]);
      CurrentTask(w.s);
      RunKeepsCodes(Go(w, evs[0]), evs[1..], t);
    }
  }

  /** The codes that waits for `t` return in a run. */
  ghost function Codes(w: World, evs: seq<Event>, t: nat): seq<int>
    requires Good(w) && Allowed(w, evs)
    decreases |evs|
  {
    if evs == [] then []
    else
      GoGoodIff(w, evs[0]);
      (if evs[0] == Wait(t) && t in w.s.finished then [w.s.finished[t]] else []) + Codes(Go(w, evs[0]), evs[1..], t)
  }

  /** A turn of a wait for `t` comes after its end. */
  ghost predicate WaitedAfter(w: World, evs: seq<Event>, t: nat)
    requires Good(w) && Allowed(w, evs)
    decreases |evs|
  {
    if evs == [] then false
    else
      GoGoodIff(w, evs[0]);
      (evs[0] == Wait(t) && t in w.exits) || WaitedAfter(Go(w, evs[0]), evs[1..], t)
  }

  /** In every run the first turn of a wait for a task that comes after its end, whichever of wait and end began earlier,
      returns its code, and no other turn returns one. */
  lemma {:induction false} ExactlyOnce(w: World, evs: seq<Event>, t: nat)
    requires Good(w) && Allowed(w, evs)
    ensures WaitedAfter(w, evs, t) && t !in w.delivered ==> t in Run(w, evs).exits && Codes(w, evs, t) == [Run(w, evs).exits[t]]
    ensures !WaitedAfter(w, evs, t) || t in w.delivered ==> Codes(w, evs, t) == []
    decreases |evs|
  {
    hide Good, Step, WaitOnce;
    if evs != [] {
      var e := evs[0];
      GoGoodIff(w, e);
      var u := Go(w, e);
      ExactlyOnce(u, evs[1..], t);
      TurnReturns(w, e, t);
      if t in u.exits { RunKeepsCodes(u, evs[1..], t); }
    }
  }

  /** One turn: it returns the code iff it is a wait for a task that has ended, whose code is then delivered. */
  lemma {:induction false} TurnReturns(w: World, e: Event, t: nat)
    requires Good(w) && WorldStep(w, e) && Proper(w, e) && MayWait(w, e)
    ensures var u := Go(w, e);
            && (e == Wait(t) && t in w.exits <==> e == Wait(t) && t in w.s.finished)
            && (e == Wait(t) && t in w.s.finished ==>
                  t !in w.delivered && t in u.delivered && t in u.exits && u.exits[t] == w.exits[t] == w.s.finished[t])
            && (!(e == Wait(t) && t in w.s.finished) ==> (t in u.delivered <==> t in w.delivered))
  {
    hide Inv, Registered, NoneForgotten, NoCircle, Step;
    CurrentTask(w.s);
  }
}
