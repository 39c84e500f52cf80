/** The multi-level run queues of kernel/task.cpp as functions on values: rotating, sleeping, waking, changing
    levels, and handing an exit code to the task that waits for it.  Each of them keeps the invariant that running
    tasks are queued at their level, once and nowhere else, and that no level above the current one has a task
    unless a change of level is pending. */
module Scheduling {
  import opened Basics

  const MAX_LEVEL: nat := 3
  const DEFAULT_LEVEL: nat := 1

  datatype Task = Task(level: nat, running: bool, msgs: seq<int>)

  datatype Sched = Sched(tasks: map<nat, Task>, latestId: nat, queues: seq<seq<nat>>, current: nat, changed: bool,
                         finished: map<nat, int>, waiters: map<nat, nat>)

  // ----- queues -----

  /** Erase: the queue without `x`. */
  function Without(q: seq<nat>, x: nat): seq<nat>
  {
    if q == [] then [] else (if q[0] == x then [] else [q[0]]) + Without(q[1..], x)
  }

  lemma {:induction false} WithoutMembers(q: seq<nat>, x: nat)
    ensures forall y :: y in Without(q, x) <==> y in q && y != x
    ensures |Without(q, x)| <= |q|
  {
    if q != [] {
      WithoutMembers(q[1..], x);
      assert q == [q[0]] + q[1..];
    }
  }

  lemma {:induction false} WithoutDistinct(q: seq<nat>, x: nat)
    requires Distinct(q)
    ensures Distinct(Without(q, x))
  {
    if q != [] {
      WithoutDistinct(q[1..], x);
      WithoutMembers(q[1..], x);
      assert q[0] !in q[1..] by { assert forall j | 0 <= j < |q[1..]| :: q[1..][j] == q[j + 1]; }
    }
  }

  /** What stands before `x` stays in place. */
  lemma {:induction false} WithoutBefore(q: seq<nat>, x: nat, k: nat)
    requires k < |q| && forall i | 0 <= i <= k :: q[i] != x
    ensures k < |Without(q, x)| && Without(q, x)[k] == q[k]
  {
    if k > 0 { WithoutBefore(q[1..], x, k - 1); }
  }

  // ----- operations -----

  predicate Wellformed(s: Sched)
  {
    |s.queues| == MAX_LEVEL + 1 && s.current <= MAX_LEVEL && s.queues[s.current] != []
  }

  function Current(s: Sched): nat
    requires Wellformed(s)
  {
    s.queues[s.current][0]
  }

  /** The highest level up to `lv` with a task in it. */
  function Highest(queues: seq<seq<nat>>, lv: nat): Option<nat>
    requires lv < |queues|
  {
    if queues[lv] != [] then Some(lv) else if lv == 0 then None else Highest(queues, lv - 1)
  }

  function Rotate(s: Sched, sleep: bool): Sched
    requires Wellformed(s)
  {
    var q := s.queues[s.current];
    var q1 := q[1..] + (if sleep then [] else [q[0]]);
    var queues := s.queues[s.current := q1];
    if s.changed || q1 == [] then
      var top := Highest(queues, MAX_LEVEL);
      s.(queues := queues, changed := false, current := if top.Some? then top.value else s.current)
    else s.(queues := queues)
  }

  function SetTask(s: Sched, id: nat, level: nat, running: bool): Sched
    requires id in s.tasks
  {
    s.(tasks := s.tasks[id := s.tasks[id].(level := level, running := running)])
  }

  function Sleep(s: Sched, id: nat): Sched
    requires Wellformed(s) && id in s.tasks && s.tasks[id].level <= MAX_LEVEL
  {
    var t := s.tasks[id];
    if !t.running then s
    else
      var u := SetTask(s, id, t.level, false);
      if id == Current(s) then Rotate(u, true)
      else u.(queues := s.queues[t.level := Without(s.queues[t.level], id)])
  }

  function ChangeLevel(s: Sched, id: nat, level: int): Sched
    requires Wellformed(s) && id in s.tasks && s.tasks[id].level <= MAX_LEVEL && -1 <= level <= MAX_LEVEL
  {
    var old_ := s.tasks[id].level;
    if level < 0 || level == old_ then s
    else if id != Current(s) then
      var q := s.queues[old_ := Without(s.queues[old_], id)];
      SetTask(s, id, level, s.tasks[id].running).(queues := q[level := q[level] + [id]], changed := s.changed || level > s.current)
    else
      var q := s.queues[s.current := s.queues[s.current][1..]];
      SetTask(s, id, level, s.tasks[id].running)
        .(queues := q[level := [id] + q[level]], current := level, changed := s.changed || level < s.current)
  }

  function Wakeup(s: Sched, id: nat, level: int): Sched
    requires Wellformed(s) && id in s.tasks && s.tasks[id].level <= MAX_LEVEL && -1 <= level <= MAX_LEVEL
  {
    if s.tasks[id].running then ChangeLevel(s, id, level)
    else
      var lv := if level < 0 then s.tasks[id].level else level;
      SetTask(s, id, lv, true).(queues := s.queues[lv := s.queues[lv] + [id]], changed := s.changed || lv > s.current)
  }

  function NewTask(s: Sched): Sched
  {
    s.(latestId := s.latestId + 1, tasks := s.tasks[s.latestId + 1 := Task(DEFAULT_LEVEL, false, [])])
  }

  function Post(s: Sched, id: nat, msg: int): Sched
    requires Wellformed(s) && id in s.tasks && s.tasks[id].level <= MAX_LEVEL
  {
    Wakeup(s.(tasks := s.tasks[id := s.tasks[id].(msgs := s.tasks[id].msgs + [msg])]), id, -1)
  }

  /** The current task ends with `code`; its waiter is woken. */
  function Finish(s: Sched, code: int): Sched
    requires Wellformed(s)
    requires Wellformed(Rotate(s, true))
    requires Current(s) in s.waiters ==>
               var w := s.waiters[Current(s)]; w in s.tasks && w != Current(s) && s.tasks[w].level <= MAX_LEVEL
  {
    var id := Current(s);
    var u := Rotate(s, true);
    var v := u.(tasks := u.tasks - {id}, finished := u.finished[id := code]);
    if id in v.waiters then Wakeup(v.(waiters := v.waiters - {id}), v.waiters[id], -1) else v
  }

  /** One turn of the loop of WaitFinish. */
  function WaitOnce(s: Sched, target: nat): (Sched, Option<int>)
    requires Wellformed(s) && Current(s) in s.tasks && s.tasks[Current(s)].level <= MAX_LEVEL
  {
    if target in s.finished then (s.(finished := s.finished - {target}), Some(s.finished[target]))
    else (Sleep(s.(waiters := s.waiters[target := Current(s)]), Current(s)), None)
  }

  // ----- the invariant -----

  const IDLE: nat := 2

  /** Every task is in the run queue of its level iff it is running, and nowhere else. */
  ghost predicate Queued(tasks: map<nat, Task>, queues: seq<seq<nat>>)
  {
    && |queues| == MAX_LEVEL + 1
    && (forall lv | 0 <= lv <= MAX_LEVEL :: Distinct(queues[lv]))
    && (forall lv, id | 0 <= lv <= MAX_LEVEL && id in queues[lv] :: id in tasks && tasks[id].running && tasks[id].level == lv)
    && (forall id | id in tasks :: tasks[id].level <= MAX_LEVEL && (tasks[id].running ==> id in queues[tasks[id].level]))
  }

  ghost predicate Known(s: Sched)
  {
    forall id | id in s.tasks :: id <= s.latestId
  }

  ghost predicate NoneAbove(s: Sched)
    requires |s.queues| == MAX_LEVEL + 1
  {
    forall lv | s.current < lv <= MAX_LEVEL :: s.queues[lv] == []
  }

  ghost predicate Inv(s: Sched)
  {
    && Wellformed(s) && Queued(s.tasks, s.queues) && Known(s) && (s.changed || NoneAbove(s))
    && IDLE in s.tasks && s.tasks[IDLE].running
  }

  // ----- every operation keeps it -----

  lemma {:induction false} HighestIs(queues: seq<seq<nat>>, lv: nat)
    requires lv < |queues|
    ensures Highest(queues, lv).Some? ==> Highest(queues, lv).value <= lv && queues[Highest(queues, lv).value] != []
    ensures Highest(queues, lv).Some? ==> forall l | Highest(queues, lv).value < l <= lv :: queues[l] == []
    ensures Highest(queues, lv).None? ==> forall l | 0 <= l <= lv :: queues[l] == []
  {
    if queues[lv] == [] && lv > 0 { HighestIs(queues, lv - 1); }
  }

  /** A rotation goes on with the front of the highest level that has a task. */
  lemma {:induction false} RotateInv(s: Sched, sleep: bool)
    requires Inv(s) && (sleep ==> Current(s) != IDLE)
    ensures Wellformed(Rotate(s, sleep)) && !Rotate(s, sleep).changed && NoneAbove(Rotate(s, sleep))
  {
    var q := s.queues[s.current];
    var q1 := q[1..] + (if sleep then [] else [q[0]]);
    var queues := s.queues[s.current := q1];
    HighestIs(queues, MAX_LEVEL);
    assert IDLE in queues[s.tasks[IDLE].level];
  }

  ghost predicate SameMembers(p: seq<nat>, q: seq<nat>)
  {
    forall x: nat :: x in p <==> x in q
  }

  lemma {:induction false} Reorder(tasks: map<nat, Task>, queues: seq<seq<nat>>, lv: nat, q: seq<nat>)
    requires Queued(tasks, queues) && lv <= MAX_LEVEL && Distinct(q) && SameMembers(q, queues[lv])
    ensures Queued(tasks, queues[lv := q])
  {
  }

  lemma {:induction false} Dequeue(tasks: map<nat, Task>, queues: seq<seq<nat>>, id: nat, q: seq<nat>)
    requires Queued(tasks, queues) && id in tasks && Distinct(q)
    requires forall x: nat :: x in q <==> x in queues[tasks[id].level] && x != id
    ensures Queued(tasks[id := tasks[id].(running := false)], queues[tasks[id].level := q])
  {
  }

  lemma {:induction false} Enqueue(tasks: map<nat, Task>, queues: seq<seq<nat>>, id: nat, lv: nat, q: seq<nat>)
    requires Queued(tasks, queues) && id in tasks && !tasks[id].running && lv <= MAX_LEVEL && Distinct(q)
    requires forall x: nat :: x in q <==> x in queues[lv] || x == id
    ensures Queued(tasks[id := tasks[id].(level := lv, running := true)], queues[lv := q])
  {
  }

  lemma {:induction false} Unqueued(tasks: map<nat, Task>, queues: seq<seq<nat>>, id: nat, lv: nat)
    requires Queued(tasks, queues) && id in tasks && !tasks[id].running && lv <= MAX_LEVEL
    ensures id !in queues[lv]
  {
  }

  lemma {:induction false} Delete(tasks: map<nat, Task>, queues: seq<seq<nat>>, id: nat)
    requires Queued(tasks, queues) && id in tasks && !tasks[id].running
    ensures Queued(tasks - {id}, queues)
  {
    forall lv | 0 <= lv <= MAX_LEVEL
      ensures id !in queues[lv]
    {
      Unqueued(tasks, queues, id, lv);
    }
  }

  lemma {:induction false} TickInv(s: Sched)
    requires Inv(s)
    ensures Inv(Rotate(s, false))
  {
    hide NoneAbove, Queued;
    var q := s.queues[s.current];
    RotateInv(s, false);
    QueueDistinct(s, s.current);
    Reorder(s.tasks, s.queues, s.current, q[1..] + [q[0]]);
  }

  lemma {:induction false} QueueDistinct(s: Sched, lv: nat)
    requires Queued(s.tasks, s.queues) && lv <= MAX_LEVEL
    ensures Distinct(s.queues[lv])
  {
  }

  /** Who is in a queue is a running task of its level. */
  lemma {:induction false} Member(s: Sched, lv: nat, id: nat)
    requires Queued(s.tasks, s.queues) && lv <= MAX_LEVEL && id in s.queues[lv]
    ensures id in s.tasks && s.tasks[id].running && s.tasks[id].level == lv
  {
  }

  lemma {:induction false} TaskLevel(s: Sched, id: nat)
    requires Queued(s.tasks, s.queues) && id in s.tasks
    ensures s.tasks[id].level <= MAX_LEVEL && (s.tasks[id].running ==> id in s.queues[s.tasks[id].level])
  {
  }

  /** The current task gives up its place. */
  lemma {:induction false} LeaveInv(s: Sched)
    requires Inv(s) && Current(s) != IDLE
    ensures Current(s) in s.tasks
    ensures Inv(Rotate(s, true).(tasks := s.tasks[Current(s) := s.tasks[Current(s)].(running := false)]))
  {
    hide Queued, Distinct, Rotate;
    var q := s.queues[s.current];
    RotateInv(s, true);
    QueueDistinct(s, s.current);
    Member(s, s.current, q[0]);
    RotatedQueues(s, true);
    Dequeue(s.tasks, s.queues, q[0], q[1..] + []);
  }

  lemma {:induction false} RotatedQueues(s: Sched, sleep: bool)
    requires Wellformed(s)
    ensures var q := s.queues[s.current]; var u := Rotate(s, sleep);
            u.queues == s.queues[s.current := q[1..] + (if sleep then [] else [q[0]])]
            && u == s.(queues := u.queues, current := u.current, changed := u.changed)
  {
  }

  /** Rotation does not look at the tasks. */
  lemma {:induction false} RotateSame(s: Sched, tasks: map<nat, Task>, sleep: bool)
    requires Wellformed(s)
    ensures Rotate(s.(tasks := tasks), sleep) == Rotate(s, sleep).(tasks := tasks)
  {
    RotatedQueues(s, sleep);
    RotatedQueues(s.(tasks := tasks), sleep);
  }

  lemma {:induction false} SleepInv(s: Sched, id: nat)
    requires Inv(s) && id in s.tasks && id != IDLE
    ensures s.tasks[id].level <= MAX_LEVEL && Inv(Sleep(s, id))
  {
    hide Queued, Rotate, Inv, NoneAbove;
    InvQueued(s);
    TaskLevel(s, id);
    if s.tasks[id].running {
      if id == Current(s) {
        LeaveInv(s);
        RotateSame(s, s.tasks[id := s.tasks[id].(level := s.tasks[id].level, running := false)], true);
      } else {
        SleepOther(s, id);
      }
    }
  }

  lemma {:induction false} InvQueued(s: Sched)
    requires Inv(s)
    ensures Wellformed(s) && Queued(s.tasks, s.queues) && Known(s) && (s.changed || NoneAbove(s))
  {
  }

  lemma {:induction false} SleepOther(s: Sched, id: nat)
    requires Inv(s) && id in s.tasks && id != IDLE && s.tasks[id].running && id != Current(s)
    ensures s.tasks[id].level <= MAX_LEVEL && Inv(Sleep(s, id))
  {
    hide Queued, Distinct;
    var lv := s.tasks[id].level;
    TaskLevel(s, id);
    QueueDistinct(s, lv);
    WithoutMembers(s.queues[lv], id);
    WithoutDistinct(s.queues[lv], id);
    assert Current(s) in s.queues[s.current];
    assert lv == s.current ==> Current(s) in Without(s.queues[lv], id);
    Dequeue(s.tasks, s.queues, id, Without(s.queues[lv], id));
  }

  lemma {:induction false} MoveInv(s: Sched, id: nat, level: nat)
    requires Inv(s) && id in s.tasks && s.tasks[id].running && id != Current(s) && level <= MAX_LEVEL && level != s.tasks[id].level
    ensures s.tasks[id].level <= MAX_LEVEL && Inv(ChangeLevel(s, id, level))
  {
    hide Queued, Distinct;
    var lv := s.tasks[id].level;
    TaskLevel(s, id);
    QueueDistinct(s, lv);
    WithoutMembers(s.queues[lv], id);
    WithoutDistinct(s.queues[lv], id);
    assert Current(s) in s.queues[s.current];
    assert lv == s.current ==> Current(s) in Without(s.queues[lv], id);
    var queues, tasks := s.queues[lv := Without(s.queues[lv], id)], s.tasks[id := s.tasks[id].(running := false)];
    Dequeue(s.tasks, s.queues, id, Without(s.queues[lv], id));
    Unqueued(tasks, queues, id, level);
    QueueDistinct(s.(tasks := tasks, queues := queues), level);
    Enqueue(tasks, queues, id, level, queues[level] + [id]);
    assert ChangeLevel(s, id, level).tasks == tasks[id := tasks[id].(level := level, running := true)];
  }

  lemma {:induction false} MoveSelfInv(s: Sched, level: nat)
    requires Inv(s) && Current(s) in s.tasks && level <= MAX_LEVEL && level != s.tasks[Current(s)].level
    ensures s.tasks[Current(s)].level <= MAX_LEVEL && Inv(ChangeLevel(s, Current(s), level))
  {
    hide Queued, Distinct;
    var lv, q := s.current, s.queues[s.current];
    var id := q[0];
    Member(s, lv, id);
    QueueDistinct(s, lv);
    assert q[1..] + [] == q[1..];
    var queues, tasks := s.queues[lv := q[1..]], s.tasks[id := s.tasks[id].(running := false)];
    Dequeue(s.tasks, s.queues, id, q[1..]);
    Unqueued(tasks, queues, id, level);
    QueueDistinct(s.(tasks := tasks, queues := queues), level);
    Enqueue(tasks, queues, id, level, [id] + queues[level]);
    assert ChangeLevel(s, id, level).tasks == tasks[id := tasks[id].(level := level, running := true)];
  }

  lemma {:induction false} WakeupInv(s: Sched, id: nat, level: int)
    requires Inv(s) && id in s.tasks && -1 <= level <= MAX_LEVEL
    ensures s.tasks[id].level <= MAX_LEVEL && Inv(Wakeup(s, id, level))
  {
    hide Queued, Distinct, ChangeLevel;
    TaskLevel(s, id);
    if s.tasks[id].running {
      if level < 0 || level == s.tasks[id].level {
        Unchanged(s, id, level);
      } else if id == Current(s) {
        MoveSelfInv(s, level);
      } else {
        MoveInv(s, id, level);
      }
    } else {
      var lv := if level < 0 then s.tasks[id].level else level;
      Unqueued(s.tasks, s.queues, id, lv);
      QueueDistinct(s, lv);
      Enqueue(s.tasks, s.queues, id, lv, s.queues[lv] + [id]);
    }
  }

  lemma {:induction false} Unchanged(s: Sched, id: nat, level: int)
    requires Wellformed(s) && id in s.tasks && s.tasks[id].level <= MAX_LEVEL && -1 <= level <= MAX_LEVEL
    requires level < 0 || level == s.tasks[id].level
    ensures ChangeLevel(s, id, level) == s
  {
  }

  lemma {:induction false} AddTask(tasks: map<nat, Task>, queues: seq<seq<nat>>, id: nat, t: Task)
    requires Queued(tasks, queues) && id !in tasks && t.level <= MAX_LEVEL && !t.running
    ensures Queued(tasks[id := t], queues)
  {
    forall lv, x | 0 <= lv <= MAX_LEVEL && x in queues[lv]
      ensures x in tasks && x != id
    {
    }
  }

  lemma {:induction false} NewTaskInv(s: Sched)
    requires Inv(s)
    ensures Inv(NewTask(s))
  {
    hide Queued;
    AddTask(s.tasks, s.queues, s.latestId + 1, Task(DEFAULT_LEVEL, false, []));
  }

  lemma {:induction false} PostInv(s: Sched, id: nat, msg: int)
    requires Inv(s) && id in s.tasks
    ensures s.tasks[id].level <= MAX_LEVEL && Inv(Post(s, id, msg))
  {
    hide Wakeup;
    var u := s.(tasks := s.tasks[id := s.tasks[id].(msgs := s.tasks[id].msgs + [msg])]);
    TaskLevel(s, id);
    SameQueued(s.tasks, u.tasks, s.queues);
    WakeupInv(u, id, -1);
  }

  /** Only level and running matter for the queues. */
  lemma {:induction false} SameQueued(a: map<nat, Task>, b: map<nat, Task>, queues: seq<seq<nat>>)
    requires Queued(a, queues) && a.Keys == b.Keys
    requires forall id | id in a :: a[id].level == b[id].level && a[id].running == b[id].running
    ensures Queued(b, queues)
  {
  }
}
