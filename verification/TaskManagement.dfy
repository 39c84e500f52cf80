/** The class TaskManager of kernel/task.cpp. Tasks are known by their ids. */
module TaskManagement {
  import opened Basics
  import opened Scheduling
  import opened SchedulerRuns

  datatype Error = Success | NoSuchTask

  class TaskManager {
    var tasks: map<nat, Task>
    var latestId: nat
    var running: seq<seq<nat>>
    var currentLevel: nat
    var levelChanged: bool
    var finishTasks: map<nat, int>
    var finishWaiter: map<nat, nat>

    /** The main task runs on the highest level, the idle task on the lowest. */
    constructor ()
      ensures Inv(State()) && Good(World(State(), map[], map[], map[])) && Current(State()) == 1
      ensures tasks == map[1 := Task(MAX_LEVEL, true, []), IDLE := Task(0, true, [])]
      ensures latestId == |tasks| && !levelChanged && finishTasks == map[] && finishWaiter == map[]
    {
      tasks := map[1 := Task(MAX_LEVEL, true, []), 2 := Task(0, true, [])];
      latestId := 2;
      running := [[2], [], [], [1]];
      currentLevel, levelChanged := MAX_LEVEL, false;
      finishTasks, finishWaiter := map[], map[];
    }

    ghost function State(): Sched
      reads this
    {
      Sched(tasks, latestId, running, currentLevel, levelChanged, finishTasks, finishWaiter)
    }

    method NewTask() returns (id: nat)
      modifies this
      ensures State() == Scheduling.NewTask(old(State())) && id == latestId
    {
      latestId := latestId + 1;
      tasks := tasks[latestId := Task(DEFAULT_LEVEL, false, [])];
      id := latestId;
    }

    function CurrentTask(): nat
      requires Wellformed(State())
      reads this
    {
      running[currentLevel][0]
    }

    method RotateCurrentRunQueue(currentSleep: bool) returns (task: nat)
      requires Wellformed(State())
      modifies this
      ensures State() == Rotate(old(State()), currentSleep) && task == Current(old(State()))
    {
      var queue := running[currentLevel];
      task := queue[0];
      queue := queue[1..];
      if !currentSleep {
        queue := queue + [task];
      }
      assert queue == old(running[currentLevel])[1..] + (if currentSleep then [] else [task]);
      running := running[currentLevel := queue];
      if queue == [] {
        levelChanged := true;
      }
      if levelChanged {
        levelChanged := false;
        var lv: int := MAX_LEVEL;
        ghost var u := State();
        while lv >= 0
          invariant -1 <= lv <= MAX_LEVEL && State() == u
          invariant Highest(running, MAX_LEVEL) == if lv < 0 then None else Highest(running, lv)
        {
          if running[lv] != [] {
            currentLevel := lv;
            break;
          }
          lv := lv - 1;
        }
      }
    }

    /** The task that runs after a timer interrupt: the front of the highest level that has a task. */
    method SwitchTask() returns (next: nat)
      requires Inv(State())
      modifies this
      ensures State() == Rotate(old(State()), false) && Inv(State()) && next == Current(State())
      ensures !levelChanged && forall lv | currentLevel < lv <= MAX_LEVEL :: running[lv] == []
    {
      hide Queued, Rotate;
      TickInv(State());
      RotateInv(State(), false);
      var task := RotateCurrentRunQueue(false);
      next := CurrentTask();
    }

    method SleepTask(task: nat)
      requires Wellformed(State()) && task in tasks && tasks[task].level <= MAX_LEVEL
      modifies this
      ensures State() == Scheduling.Sleep(old(State()), task)
    {
      hide Rotate;
      if !tasks[task].running {
        return;
      }
      tasks := tasks[task := tasks[task].(running := false)];
      if task == running[currentLevel][0] {
        var current := RotateCurrentRunQueue(true);
        return;
      }
      var left := Erase(running[tasks[task].level], task);
      running := running[tasks[task].level := left];
    }

    method Sleep(id: nat) returns (err: Error)
      requires Inv(State()) && id != IDLE
      modifies this
      ensures State() == Step(old(State()), Event.SleepTask(id)) && Inv(State()) && (err == Success <==> id in tasks)
    {
      hide Queued, Scheduling.Sleep;
      StepInv(State(), Event.SleepTask(id));
      if id !in tasks {
        return NoSuchTask;
      }
      TaskLevel(State(), id);
      SleepTasks(State(), id);
      SleepTask(id);
      return Success;
    }

    method ChangeLevelRunning(task: nat, level: int)
      requires Wellformed(State()) && task in tasks && tasks[task].level <= MAX_LEVEL && -1 <= level <= MAX_LEVEL
      modifies this
      ensures State() == ChangeLevel(old(State()), task, level)
    {
      if level < 0 || level == tasks[task].level {
        return;
      }
      if task != running[currentLevel][0] {
        var old_ := tasks[task].level;
        var left := Erase(running[old_], task);
        running := running[old_ := left];
        running := running[level := running[level] + [task]];
        tasks := tasks[task := tasks[task].(level := level)];
        if level > currentLevel {
          levelChanged := true;
        }
        return;
      }
      running := running[currentLevel := running[currentLevel][1..]];
      running := running[level := [task] + running[level]];
      tasks := tasks[task := tasks[task].(level := level)];
      if level >= currentLevel {
        currentLevel := level;
      } else {
        currentLevel := level;
        levelChanged := true;
      }
    }

    method WakeupTask(task: nat, level: int)
      requires Wellformed(State()) && task in tasks && tasks[task].level <= MAX_LEVEL && -1 <= level <= MAX_LEVEL
      modifies this
      ensures State() == Scheduling.Wakeup(old(State()), task, level)
    {
      if tasks[task].running {
        ChangeLevelRunning(task, level);
        return;
      }
      var lv := level;
      if lv < 0 {
        lv := tasks[task].level;
      }
      tasks := tasks[task := tasks[task].(level := lv, running := true)];
      running := running[lv := running[lv] + [task]];
      if lv > currentLevel {
        levelChanged := true;
      }
    }

    method Wakeup(id: nat, level: int) returns (err: Error)
      requires Inv(State()) && -1 <= level <= MAX_LEVEL
      modifies this
      ensures State() == Step(old(State()), WakeTask(id, level)) && Inv(State()) && (err == Success <==> id in tasks)
    {
      hide Queued, Scheduling.Wakeup;
      StepInv(State(), WakeTask(id, level));
      if id !in tasks {
        return NoSuchTask;
      }
      TaskLevel(State(), id);
      WakeupTasks(State(), id, level);
      WakeupTask(id, level);
      return Success;
    }

    method SendMessage(id: nat, msg: int) returns (err: Error)
      requires Inv(State())
      modifies this
      ensures State() == Step(old(State()), Send(id, msg)) && Inv(State()) && (err == Success <==> id in tasks)
      ensures id in tasks ==> tasks[id].running && tasks[id].msgs == old(if id in tasks then tasks[id].msgs else []) + [msg]
    {
      hide Queued, Scheduling.Wakeup;
      StepInv(State(), Send(id, msg));
      if id !in tasks {
        return NoSuchTask;
      }
      TaskLevel(State(), id);
      SendTasks(State(), id, msg);
      tasks := tasks[id := tasks[id].(msgs := tasks[id].msgs + [msg])];
      WakeupTask(id, -1);
      return Success;
    }

    /** The oldest message of a task, if there is one. */
    method ReceiveMessage(id: nat) returns (msg: Option<int>)
      requires Inv(State()) && id in tasks
      modifies this`tasks
      ensures Inv(State()) && tasks.Keys == old(tasks.Keys) && forall x | x in tasks && x != id :: tasks[x] == old(tasks[x])
      ensures old(tasks[id].msgs) == (if msg.Some? then [msg.value] else []) + tasks[id].msgs
      ensures msg.None? ==> old(tasks[id].msgs) == []
    {
      hide Queued;
      if tasks[id].msgs == [] {
        return None;
      }
      ghost var before := tasks;
      var m := tasks[id].msgs[0];
      tasks := tasks[id := tasks[id].(msgs := tasks[id].msgs[1..])];
      SameQueued(before, tasks, running);
      return Some(m);
    }

    method Finish(exitCode: int)
      requires Inv(State()) && Possible(State(), Exit(exitCode))
      modifies this
      ensures State() == Step(old(State()), Exit(exitCode)) && Inv(State())
    {
      hide Queued, Rotate, Scheduling.Wakeup, NoneAbove;
      StepInv(State(), Exit(exitCode));
      FinishTasks(State(), exitCode);
      FinishInv(State(), exitCode);
      RotatedSame(State(), true);
      var id := RotateCurrentRunQueue(true);
      tasks := tasks - {id};
      finishTasks := finishTasks[id := exitCode];
      if id in finishWaiter {
        var waiter := finishWaiter[id];
        finishWaiter := finishWaiter - {id};
        WakeupTask(waiter, -1);
      }
    }

    /** WaitFinish up to the point where it has the code or must sleep; a task that is woken again goes on
        with it. */
    method WaitFinish(target: nat) returns (code: Option<int>)
      requires Inv(State()) && Current(State()) != IDLE
      modifies this
      ensures Current(old(State())) in old(tasks) && old(tasks[Current(State())].level) <= MAX_LEVEL
      ensures (State(), code) == WaitOnce(old(State()), target) && Inv(State())
    {
      hide Queued, Scheduling.Sleep, NoneAbove;
      WaitInv(State(), target);
      var current := CurrentTask();
      if target in finishTasks {
        var exitCode := finishTasks[target];
        finishTasks := finishTasks - {target};
        return Some(exitCode);
      }
      finishWaiter := finishWaiter[target := current];
      SleepTask(current);
      return None;
    }
  }

  /** std::remove and erase. */
  method Erase(q: seq<nat>, x: nat) returns (r: seq<nat>)
    ensures r == Without(q, x)
  {
    r := [];
    var i := 0;
    assert q[0..] == q;
    while i < |q|
      invariant 0 <= i <= |q| && r + Without(q[i..], x) == Without(q, x)
    {
      assert q[i..][1..] == q[i + 1..];
      if q[i] != x {
        assert r + ([q[i]] + Without(q[i + 1..], x)) == r + [q[i]] + Without(q[i + 1..], x);
        r := r + [q[i]];
      }
      i := i + 1;
    }
    assert q[|q|..] == [];
  }
}
