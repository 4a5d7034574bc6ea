/**
 * The task manager as it runs: task objects whose fields change under a lock, and the manager's
 * map from ids to tasks. Every method is tied to the events of the step system.
 */
module TaskManager {
  import M = TaskModel
  import opened Wrappers

  class Task {
    var pid: nat
    var status: M.Status
    var exitCode: int
    var monitor: M.Monitor
    var waitCh: seq<M.Report>

    function View(): M.Task
      reads this
    {
      M.Task(pid, status, exitCode, monitor, waitCh)
    }

    constructor (pid: nat)
      ensures View() == M.NewTask(pid)
    {
      this.pid, status, exitCode, monitor, waitCh := pid, M.Created, 0, M.Watching, [];
    }

    /** The body of Start, Pause or Resume under the task's lock. */
    method ChangeStatus(action: M.Action) returns (ok: bool)
      requires action == M.Start || action == M.Pause || action == M.Resume
      modifies this
      ensures ok == M.Accepted(old(View()), action)
      ensures View() == M.Act(old(View()), action)
      ensures var from := if action == M.Start then M.Created else if action == M.Pause then M.Running else M.Paused;
              ok <==> old(status) == from
      ensures status == if !ok then old(status) else if action == M.Pause then M.Paused else M.Running
      ensures pid == old(pid) && exitCode == old(exitCode) && monitor == old(monitor) && waitCh == old(waitCh)
    {
      var from := if action == M.Start then M.Created else if action == M.Pause then M.Running else M.Paused;
      ok := status == from;
      if ok {
        status := if action == M.Pause then M.Paused else M.Running;
      }
    }

    /** The process ends; the monitor's wait for it returns. */
    method Exit(report: M.Report)
      requires monitor.Watching?
      modifies this
      ensures View() == M.Act(old(View()), M.Exit(report))
    {
      monitor := M.Exited(report);
    }

    /** The monitor records the exit under the task's lock. */
    method Record()
      requires monitor.Exited?
      modifies this
      ensures View() == M.Act(old(View()), M.Record)
      ensures pid == 0 && status == if old(status) == M.Running then M.Stopped else old(status)
      ensures exitCode == if old(status == M.Running && monitor.report.ExitStatus?)
                          then old(monitor.report.code) else old(exitCode)
    {
      var report := monitor.report;
      if status == M.Running {
        status := M.Stopped;
        if report.ExitStatus? {
          exitCode := report.code;
        }
      }
      pid := 0;
      monitor := M.Recorded(report);
    }

    /** The monitor hands its report over; the channel has room for one. */
    method Send()
      requires M.Possible(View(), M.Send)
      modifies this
      ensures View() == M.Act(old(View()), M.Send)
    {
      waitCh := waitCh + [monitor.report];
      monitor := M.Sent;
    }

    /** A waiter takes the report. */
    method Receive()
      requires M.Possible(View(), M.Receive)
      modifies this
      ensures View() == M.Act(old(View()), M.Receive)
    {
      waitCh := waitCh[1..];
    }
  }

  class Manager {
    var tasks: map<string, Task>
    ghost var heap: seq<Task>
    ghost var system: M.System

    ghost predicate Valid()
      reads this, heap
    {
      && |heap| == |system.heap|
      && (forall k :: 0 <= k < |heap| ==> heap[k].View() == system.heap[k])
      && (forall j, k :: 0 <= j < k < |heap| ==> heap[j] != heap[k])
      && tasks.Keys == system.ids.Keys
      && (forall id :: id in tasks ==> system.ids[id] < |heap| && tasks[id] == heap[system.ids[id]])
      && M.SystemInvariant(system)
    }

    constructor ()
      ensures Valid() && system == M.EMPTY
    {
      tasks, heap, system := map[], [], M.EMPTY;
    }

    /** Create, with the process already forked; an id in use is refused. */
    method Create(id: string, pid: nat) returns (created: Option<Task>)
      requires Valid() && pid > 0
      modifies this
      ensures Valid() && system == M.Step(old(system), M.Create(id, pid))
      ensures created.Some? <==> id !in old(tasks)
      ensures created.Some? ==> fresh(created.value) && heap == old(heap) + [created.value]
      ensures created.Some? ==> created.value.pid == pid && created.value.status == M.Created
      ensures tasks == if created.Some? then old(tasks)[id := created.value] else old(tasks)
      ensures created.None? ==> heap == old(heap)
    {
      hide M.SystemInvariant, M.Act, M.Possible;
      M.StepKeepsInvariant(system, M.Create(id, pid));
      if id in tasks {
        created := None;
      } else {
        var t := new Task(pid);
        system := M.Step(system, M.Create(id, pid));
        heap := heap + [t];
        tasks := tasks[id := t];
        created := Some(t);
      }
    }

    /** The first half of every API call: look the task up under the manager's lock. */
    method Find(id: string, ghost call: nat, ghost action: M.Action) returns (t: Option<Task>)
      requires Valid() && M.Enabled(system, M.Lookup(call, action, id))
      modifies this`system
      ensures Valid() && system == M.Step(old(system), M.Lookup(call, action, id))
      ensures t == if id in tasks then Some(tasks[id]) else None
    {
      hide M.SystemInvariant, M.Act, M.Possible;
      M.StepKeepsInvariant(system, M.Lookup(call, action, id));
      t := if id in tasks then Some(tasks[id]) else None;
      system := M.Step(system, M.Lookup(call, action, id));
    }

    /** The second half of Start, Pause and Resume, on the task found before. */
    method Apply(t: Task, action: M.Action, ghost call: nat) returns (ok: bool)
      requires Valid() && M.Enabled(system, M.Apply(call))
      requires action == system.calls[call].action && t == heap[system.calls[call].task]
      modifies this`system, t
      ensures Valid() && system == M.Step(old(system), M.Apply(call))
      ensures system.calls[call].Done? && ok == system.calls[call].ok
      ensures t.status == if !ok then old(t.status) else if action == M.Pause then M.Paused else M.Running
    {
      hide M.SystemInvariant, M.Act, M.Possible;
      M.StepKeepsInvariant(system, M.Apply(call));
      ok := t.ChangeStatus(action);
      system := M.Step(system, M.Apply(call));
    }

    /** Start, Pause or Resume without interruption between its two halves. */
    method Change(id: string, action: M.Action, ghost call: nat) returns (found: bool, ok: bool)
      requires Valid() && call !in system.calls
      requires action == M.Start || action == M.Pause || action == M.Resume
      modifies this`system, heap
      ensures Valid() && found == (id in tasks)
      ensures var looked := M.Step(old(system), M.Lookup(call, action, id));
              && M.Enabled(looked, M.Apply(call)) == found
              && system == if found then M.Step(looked, M.Apply(call)) else looked
      ensures ok == (found && M.Accepted(old(tasks[id].View()), action))
      ensures var from := if action == M.Start then M.Created else if action == M.Pause then M.Running else M.Paused;
              ok <==> old(id in tasks && tasks[id].status == from)
      ensures ok ==> tasks[id].status == if action == M.Pause then M.Paused else M.Running
    {
      hide M.SystemInvariant, M.Act, M.Possible;
      var t := Find(id, call, action);
      found, ok := t.Some?, false;
      if found {
        ok := Apply(t.value, action, call);
      }
    }

    /** Wait, once the channel lets it go on. */
    method Wake(t: Task, ghost call: nat)
      requires Valid() && M.Enabled(system, M.Wake(call)) && t == heap[system.calls[call].task]
      modifies this`system, t
      ensures Valid() && system == M.Step(old(system), M.Wake(call))
    {
      hide M.SystemInvariant, M.Act, M.Possible;
      M.StepKeepsInvariant(system, M.Wake(call));
      t.Receive();
      system := M.Step(system, M.Wake(call));
    }

    /** The end of Wait: read the exit code under the task's lock. */
    method Return(t: Task, ghost call: nat) returns (code: int)
      requires Valid() && M.Enabled(system, M.Return(call)) && t == heap[system.calls[call].task]
      modifies this`system
      ensures Valid() && system == M.Step(old(system), M.Return(call))
      ensures system.calls[call].WaitDone? && code == system.calls[call].code
    {
      hide M.SystemInvariant, M.Act, M.Possible;
      M.StepKeepsInvariant(system, M.Return(call));
      code := t.exitCode;
      system := M.Step(system, M.Return(call));
    }

    /** Delete forgets the id; the task, its monitor and the calls that hold it go on. */
    method Delete(id: string) returns (ok: bool)
      requires Valid()
      modifies this`tasks, this`system
      ensures Valid() && system == M.Step(old(system), M.Delete(id))
      ensures ok == M.Deletable(old(system), id)
      ensures ok <==> old(id in tasks && tasks[id].status != M.Running)
      ensures tasks == if ok then old(tasks) - {id} else old(tasks)
    {
      hide M.SystemInvariant, M.Act, M.Possible;
      M.StepKeepsInvariant(system, M.Delete(id));
      ok := id in tasks && tasks[id].status != M.Running;
      system := M.Step(system, M.Delete(id));
      if ok {
        tasks := tasks - {id};
      }
    }

    /** One step of the monitor of a task. */
    method Monitor(t: Task, action: M.Action, ghost k: nat)
      requires Valid() && M.Enabled(system, M.Process(k, action)) && t == heap[k]
      modifies this`system, t
      ensures Valid() && system == M.Step(old(system), M.Process(k, action))
    {
      hide M.SystemInvariant, M.Act;
      M.StepKeepsInvariant(system, M.Process(k, action));
      if action.Exit? {
        t.Exit(action.report);
      } else if action == M.Record {
        t.Record();
      } else {
        t.Send();
      }
      system := M.Step(system, M.Process(k, action));
    }
  }
}
