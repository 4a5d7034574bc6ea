/**
 * The task manager of mini-containerd as a system of atomic steps: API calls that look a task up
 * under one lock and act on it under another, waiters on a channel, and one exit monitor per task.
 */
module TaskModel {

  datatype Status = Created | Running | Stopped | Paused

  /** What waiting for the process answers. */
  datatype Report = Clean | ExitStatus(code: int) | OtherError

  /** How far the goroutine that watches the process has come. */
  datatype Monitor = Watching | Exited(report: Report) | Recorded(report: Report) | Sent

  datatype Task = Task(pid: nat, status: Status, exitCode: int, monitor: Monitor, waitCh: seq<Report>)

  const CHANNEL_SIZE := 1

  function NewTask(pid: nat): Task {
    Task(pid, Created, 0, Watching, [])
  }

  // ---- One task ----

  /** The atomic actions on one task. */
  datatype Action = Start | Pause | Resume | Exit(report: Report) | Record | Send | Receive

  /** May the action happen now? API calls always may; they can be refused. */
  predicate Possible(t: Task, a: Action) {
    match a
    case Start | Pause | Resume => true
    case Exit(_) => t.monitor.Watching?
    case Record => t.monitor.Exited?
    case Send => t.monitor.Recorded? && |t.waitCh| < CHANNEL_SIZE
    case Receive => |t.waitCh| > 0
  }

  /** Does the call succeed? */
  predicate Accepted(t: Task, a: Action) {
    match a
    case Start => t.status == Created
    case Pause => t.status == Running
    case Resume => t.status == Paused
    case _ => true
  }

  function ReportedCode(r: Report): int {
    if r.ExitStatus? then r.code else 0
  }

  function Act(t: Task, a: Action): Task
    requires Possible(t, a)
  {
    match a
    case Start => if Accepted(t, a) then t.(status := Running) else t
    case Pause => if Accepted(t, a) then t.(status := Paused) else t
    case Resume => if Accepted(t, a) then t.(status := Running) else t
    case Exit(r) => t.(monitor := Exited(r))
    case Record =>
      var r := t.monitor.report;
      var code := if r.ExitStatus? then r.code else t.exitCode;
      var seen := if t.status == Running then t.(status := Stopped, exitCode := code) else t;
      seen.(pid := 0, monitor := Recorded(r))
    case Send => t.(monitor := Sent, waitCh := t.waitCh + [t.monitor.report])
    case Receive => t.(waitCh := t.waitCh[1..])
  }

  /** Each call succeeds in one state only, and a Resume takes a Pause back. */
  lemma {:induction false} CallOutcomes(t: Task)
    ensures Accepted(t, Start) <==> t.status == Created
    ensures Accepted(t, Pause) <==> t.status == Running
    ensures Accepted(t, Resume) <==> t.status == Paused
    ensures Act(t, Start) == if t.status == Created then t.(status := Running) else t
    ensures Act(t, Pause) == if t.status == Running then t.(status := Paused) else t
    ensures Act(t, Resume) == if t.status == Paused then t.(status := Running) else t
    ensures t.status == Running ==> Act(Act(t, Pause), Resume) == t
    ensures t.status == Paused ==> Act(Act(t, Resume), Pause) == t
  {
  }

  /** The record of an exit: only a running task stops, only an exit status sets the code. */
  lemma {:induction false} RecordOutcome(t: Task)
    requires t.monitor.Exited?
    ensures var u := Act(t, Record); var report := t.monitor.report;
            && u.pid == 0 && u.waitCh == t.waitCh && u.monitor == Recorded(report)
            && u.status == (if t.status == Running then Stopped else t.status)
            && u.exitCode == (if t.status == Running && report.ExitStatus? then report.code else t.exitCode)
  {
  }

  predicate HasRecorded(t: Task) {
    t.monitor.Recorded? || t.monitor.Sent?
  }

  /** What every reachable task satisfies. */
  predicate TaskInvariant(t: Task) {
    && (t.exitCode != 0 ==> t.status == Stopped)
    && (t.status == Stopped ==> HasRecorded(t))
    && (t.pid == 0 <==> HasRecorded(t))
    && |t.waitCh| <= CHANNEL_SIZE
    && (t.waitCh != [] ==> t.monitor.Sent?)
  }

  lemma {:induction false} ActKeepsInvariant(t: Task, a: Action)
    requires TaskInvariant(t) && Possible(t, a)
    ensures TaskInvariant(Act(t, a))
    ensures t.monitor.Recorded? ==> Possible(t, Send)
    ensures t.status == Stopped ==> Act(t, a).status == Stopped
    ensures HasRecorded(t) ==> HasRecorded(Act(t, a)) && Act(t, a).exitCode == t.exitCode
    ensures HasRecorded(t) && t.status != Stopped ==> Act(t, a).status != Stopped
    ensures t.status != Created ==> Act(t, a).status != Created
    ensures HasRecorded(Act(t, a)) || Act(t, a).pid == t.pid
  {
  }

  // ---- The whole system ----

  datatype Call =
    | Pending(action: Action, task: nat)
    | Woken(task: nat)
    | Done(action: Action, task: nat, ok: bool)
    | WaitDone(task: nat, code: int)
    | NotFound

  /**
   * All tasks ever created, the ids the manager knows now, and every call ever made. A deleted
   * task stays: calls that looked it up before, and its monitor, still hold it.
   */
  datatype System = System(heap: seq<Task>, ids: map<string, nat>, calls: map<nat, Call>)

  const EMPTY := System([], map[], map[])

  datatype Event =
    | Create(id: string, pid: nat)
    | Lookup(call: nat, action: Action, id: string)
    | Apply(call: nat)
    | Wake(call: nat)
    | Return(call: nat)
    | Delete(id: string)
    | Process(task: nat, action: Action)

  /** The three calls that look a task up and then act under its lock, and Wait. */
  predicate ApiAction(a: Action) {
    a in {Start, Pause, Resume, Receive}
  }

  predicate MonitorAction(a: Action) {
    a.Exit? || a == Record || a == Send
  }

  predicate Enabled(s: System, e: Event) {
    match e
    case Create(_, pid) => pid > 0
    case Lookup(call, action, _) => call !in s.calls && ApiAction(action)
    case Apply(call) =>
      && call in s.calls && s.calls[call].Pending? && s.calls[call].task < |s.heap|
      && s.calls[call].action != Receive && ApiAction(s.calls[call].action)
    case Wake(call) =>
      && call in s.calls && s.calls[call].Pending? && s.calls[call].task < |s.heap|
      && s.calls[call].action == Receive && Possible(s.heap[s.calls[call].task], Receive)
    case Return(call) => call in s.calls && s.calls[call].Woken? && s.calls[call].task < |s.heap|
    case Delete(_) => true
    case Process(k, action) => k < |s.heap| && MonitorAction(action) && Possible(s.heap[k], action)
  }

  /** Delete refuses an unknown id and a task that is running. */
  predicate Deletable(s: System, id: string) {
    id in s.ids && s.ids[id] < |s.heap| && s.heap[s.ids[id]].status != Running
  }

  function Step(s: System, e: Event): System
    requires Enabled(s, e)
  {
    match e
    case Create(id, pid) =>
      if id in s.ids then s
      else s.(heap := s.heap + [NewTask(pid)], ids := s.ids[id := |s.heap|])
    case Lookup(call, action, id) =>
      s.(calls := s.calls[call := if id in s.ids then Pending(action, s.ids[id]) else NotFound])
    case Apply(call) =>
      var Pending(action, k) := s.calls[call];
      s.(heap := s.heap[k := Act(s.heap[k], action)],
         calls := s.calls[call := Done(action, k, Accepted(s.heap[k], action))])
    case Wake(call) =>
      var k := s.calls[call].task;
      s.(heap := s.heap[k := Act(s.heap[k], Receive)], calls := s.calls[call := Woken(k)])
    case Return(call) =>
      var k := s.calls[call].task;
      s.(calls := s.calls[call := WaitDone(k, s.heap[k].exitCode)])
    case Delete(id) =>
      if Deletable(s, id) then s.(ids := s.ids - {id}) else s
    case Process(k, action) =>
      s.(heap := s.heap[k := Act(s.heap[k], action)])
  }

  /** Can the events happen in this order? */
  predicate Feasible(s: System, events: seq<Event>)
    decreases |events|, 0
  {
    events == [] ||
    var before := events[..|events| - 1];
    Feasible(s, before) && Enabled(Run(s, before), events[|events| - 1])
  }

  function Run(s: System, events: seq<Event>): System
    requires Feasible(s, events)
    decreases |events|, 1
  {
    if events == [] then s
    else Step(Run(s, events[..|events| - 1]), events[|events| - 1])
  }

  // ---- What every step keeps ----

  /** The call has taken the exit report of the task from its channel. */
  predicate HasReceived(c: Call, k: nat) {
    (c.Woken? || c.WaitDone?) && c.task == k
  }

  /** The call has started the task. */
  predicate HasStarted(c: Call, k: nat) {
    c == Done(Start, k, true)
  }

  function Pausers(s: System, k: nat): set<nat> {
    set c | c in s.calls && s.calls[c] == Done(Pause, k, true)
  }

  function Resumers(s: System, k: nat): set<nat> {
    set c | c in s.calls && s.calls[c] == Done(Resume, k, true)
  }

  function Receivers(s: System, k: nat): set<nat> {
    set c | c in s.calls && HasReceived(s.calls[c], k)
  }

  function Starters(s: System, k: nat): set<nat> {
    set c | c in s.calls && HasStarted(s.calls[c], k)
  }

  /** The calls agree with the task they hold. */
  predicate CallsMatch(s: System, k: nat)
    requires k < |s.heap|
  {
    var t := s.heap[k];
    && |Receivers(s, k)| + |t.waitCh| == (if t.monitor.Sent? then 1 else 0)
    && |Starters(s, k)| == (if t.status == Created then 0 else 1)
    && |Pausers(s, k)| == |Resumers(s, k)| + (if t.status == Paused then 1 else 0)
    && (t.status == Created ==> |Pausers(s, k)| == 0)
    && forall c :: c in s.calls && s.calls[c].WaitDone? && s.calls[c].task == k ==>
         s.calls[c].code == t.exitCode
  }

  predicate CallInRange(c: Call, n: nat) {
    c.NotFound? || c.task < n
  }

  predicate SystemInvariant(s: System) {
    && (forall k :: 0 <= k < |s.heap| ==> TaskInvariant(s.heap[k]) && CallsMatch(s, k))
    && (forall c :: c in s.calls ==> CallInRange(s.calls[c], |s.heap|))
    && (forall id :: id in s.ids ==> s.ids[id] < |s.heap|)
    && (forall a, b :: a in s.ids && b in s.ids && s.ids[a] == s.ids[b] ==> a == b)
  }

  /** The action of an event on task k: none or one. */
  function ActionOn(s: System, e: Event, k: nat): (actions: seq<Action>)
    requires Enabled(s, e)
    ensures |actions| <= 1
  {
    match e
    case Apply(call) => if s.calls[call].task == k then [s.calls[call].action] else []
    case Wake(call) => if s.calls[call].task == k then [Receive] else []
    case Process(task, action) => if task == k then [action] else []
    case _ => []
  }

  /** An event changes a task by its own action on it, or not at all. */
  lemma {:induction false} StepFrame(s: System, e: Event, k: nat)
    requires Enabled(s, e) && k < |s.heap|
    ensures k < |Step(s, e).heap|
    ensures var actions := ActionOn(s, e, k);
            if actions == [] then Step(s, e).heap[k] == s.heap[k]
            else Possible(s.heap[k], actions[0]) && Step(s, e).heap[k] == Act(s.heap[k], actions[0])
  {
    hide Act;
  }

  lemma {:induction false} StepKeepsTasks(s: System, e: Event, k: nat)
    requires SystemInvariant(s) && Enabled(s, e) && k < |s.heap|
    ensures k < |Step(s, e).heap|
    ensures var t, u := s.heap[k], Step(s, e).heap[k];
            && TaskInvariant(u)
            && (t.status == Stopped ==> u.status == Stopped)
            && (HasRecorded(t) ==> HasRecorded(u) && u.exitCode == t.exitCode)
            && (HasRecorded(t) && t.status != Stopped ==> u.status != Stopped)
            && (t.status != Created ==> u.status != Created)
            && (HasRecorded(u) || u.pid == t.pid)
  {
    hide Step, Enabled, ActionOn, Act, Possible;
    StepFrame(s, e, k);
    var actions := ActionOn(s, e, k);
    if actions != [] { ActKeepsInvariant(s.heap[k], actions[0]); }
  }

  /** The calls that hold the task a step acts on, after the step. */
  lemma {:induction false} StepMovesCalls(s: System, e: Event, k: nat)
    requires Enabled(s, e) && k < |s.heap|
    ensures var taken := e.Wake? && s.calls[e.call].task == k;
            Receivers(Step(s, e), k) == if taken then Receivers(s, k) + {e.call} else Receivers(s, k)
    ensures var started := e.Apply? && s.calls[e.call] == Pending(Start, k) && s.heap[k].status == Created;
            Starters(Step(s, e), k) == if started then Starters(s, k) + {e.call} else Starters(s, k)
  {
    var next := Step(s, e);
    assert forall c :: c in s.calls ==> c in next.calls;
  }

  lemma {:induction false} StepMovesPauses(s: System, e: Event, k: nat)
    requires Enabled(s, e) && k < |s.heap|
    ensures var paused := e.Apply? && s.calls[e.call] == Pending(Pause, k) && s.heap[k].status == Running;
            Pausers(Step(s, e), k) == if paused then Pausers(s, k) + {e.call} else Pausers(s, k)
    ensures var resumed := e.Apply? && s.calls[e.call] == Pending(Resume, k) && s.heap[k].status == Paused;
            Resumers(Step(s, e), k) == if resumed then Resumers(s, k) + {e.call} else Resumers(s, k)
  {
    var next := Step(s, e);
    assert forall c :: c in s.calls ==> c in next.calls;
  }

  lemma {:induction false} PendingIsOutside(s: System, call: nat, k: nat)
    requires call in s.calls && s.calls[call].Pending?
    ensures call !in Receivers(s, k) && call !in Starters(s, k) && call !in Pausers(s, k) && call !in Resumers(s, k)
  {
  }

  /** A call that has received the report is the only one, and the monitor is finished. */
  lemma {:induction false} OneReceiver(s: System, c: nat, k: nat)
    requires k < |s.heap| && CallsMatch(s, k)
    requires c in s.calls && HasReceived(s.calls[c], k)
    ensures s.heap[k].monitor.Sent? && s.heap[k].waitCh == []
    ensures Receivers(s, k) == {c}
  {
    assert {c} <= Receivers(s, k);
    SubsetSize({c}, Receivers(s, k));
  }

  lemma {:induction false} SubsetSize(a: set<nat>, b: set<nat>)
    requires a <= b
    ensures |a| <= |b|
    ensures |a| == |b| ==> a == b
  {
    assert b == a + (b - a);
  }

  lemma {:induction false} StepKeepsCounts(s: System, e: Event, k: nat)
    requires SystemInvariant(s) && Enabled(s, e) && k < |s.heap|
    ensures var next := Step(s, e); var t := next.heap[k];
            && |Receivers(next, k)| + |t.waitCh| == (if t.monitor.Sent? then 1 else 0)
            && |Starters(next, k)| == (if t.status == Created then 0 else 1)
  {
    hide Receivers, Starters, Pausers, Resumers, HasReceived, HasStarted;
    assert CallsMatch(s, k) && TaskInvariant(s.heap[k]);
    StepMovesCalls(s, e, k);
    if (e.Apply? || e.Wake?) && s.calls[e.call].task == k {
      PendingIsOutside(s, e.call, k);
    }
  }

  lemma {:induction false} StepKeepsBalance(s: System, e: Event, k: nat)
    requires SystemInvariant(s) && Enabled(s, e) && k < |s.heap|
    ensures var next := Step(s, e); var t := next.heap[k];
            && |Pausers(next, k)| == |Resumers(next, k)| + (if t.status == Paused then 1 else 0)
            && (t.status == Created ==> |Pausers(next, k)| == 0)
  {
    hide Receivers, Starters, Pausers, Resumers, HasReceived, HasStarted;
    assert CallsMatch(s, k) && TaskInvariant(s.heap[k]);
    StepMovesPauses(s, e, k);
    if e.Apply? && s.calls[e.call].task == k {
      PendingIsOutside(s, e.call, k);
    }
  }

  lemma {:induction false} StepKeepsCalls(s: System, e: Event, k: nat)
    requires SystemInvariant(s) && Enabled(s, e) && k < |s.heap|
    ensures k < |Step(s, e).heap| && CallsMatch(Step(s, e), k)
  {
    hide Receivers, Starters, Pausers, Resumers, TaskInvariant;
    var next := Step(s, e);
    assert CallsMatch(s, k);
    StepKeepsCounts(s, e, k);
    StepKeepsBalance(s, e, k);
    StepKeepsTasks(s, e, k);
    forall c | c in next.calls && next.calls[c].WaitDone? && next.calls[c].task == k
      ensures next.calls[c].code == next.heap[k].exitCode
    {
      assert c in s.calls && HasReceived(s.calls[c], k);
      OneReceiver(s, c, k);
    }
  }

  lemma {:induction false} CreatedMatches(s: System, id: string, pid: nat)
    requires SystemInvariant(s) && Enabled(s, Create(id, pid)) && id !in s.ids
    ensures CallsMatch(Step(s, Create(id, pid)), |s.heap|)
    ensures TaskInvariant(NewTask(pid))
  {
    var next := Step(s, Create(id, pid));
    assert Receivers(next, |s.heap|) == {} && Starters(next, |s.heap|) == {};
    assert Pausers(next, |s.heap|) == {} && Resumers(next, |s.heap|) == {};
  }

  lemma {:induction false} StepKeepsInvariant(s: System, e: Event)
    requires SystemInvariant(s) && Enabled(s, e)
    ensures SystemInvariant(Step(s, e))
  {
    hide CallsMatch, TaskInvariant, Act, Possible;
    var next := Step(s, e);
    forall k | 0 <= k < |next.heap| ensures TaskInvariant(next.heap[k]) && CallsMatch(next, k) {
      if k < |s.heap| {
        StepKeepsTasks(s, e, k);
        StepKeepsCalls(s, e, k);
      } else {
        CreatedMatches(s, e.id, e.pid);
      }
    }
    assert |s.heap| <= |next.heap|;
  }

  lemma {:induction false} RunKeepsInvariant(s: System, events: seq<Event>)
    requires SystemInvariant(s) && Feasible(s, events)
    ensures SystemInvariant(Run(s, events))
    decreases |events|
  {
    hide SystemInvariant, Step, Enabled;
    if events != [] {
      var before := events[..|events| - 1];
      RunKeepsInvariant(s, before);
      StepKeepsInvariant(Run(s, before), events[|events| - 1]);
    }
  }

  /** Every state the manager can reach from its start. */
  lemma {:induction false} Reachable(events: seq<Event>)
    requires Feasible(EMPTY, events)
    ensures SystemInvariant(Run(EMPTY, events))
  {
    hide Run, Feasible;
    RunKeepsInvariant(EMPTY, events);
  }

  // ---- Safety over whole runs ----

  /** What a task keeps whatever happens next. */
  predicate Later(t: Task, u: Task) {
    && (t.status == Stopped ==> u.status == Stopped)
    && (t.status != Created ==> u.status != Created)
    && (HasRecorded(t) ==> HasRecorded(u) && u.exitCode == t.exitCode && u.pid == 0)
    && (HasRecorded(t) && t.status != Stopped ==> u.status != Stopped)
    && u.pid == (if HasRecorded(u) then 0 else t.pid)
  }

  /**
   * In every interleaving: a stopped task stays stopped, no task is ever in the Created state
   * again, and once the monitor has recorded the exit the exit code is final and the pid is gone;
   * before that the pid is the one the task was created with.
   * A task that was not running at that moment is never stopped.
   */
  lemma {:induction false} RunIsMonotone(s: System, events: seq<Event>, k: nat)
    requires SystemInvariant(s) && Feasible(s, events) && k < |s.heap|
    ensures k < |Run(s, events).heap| && Later(s.heap[k], Run(s, events).heap[k])
    decreases |events|
  {
    hide Step, Enabled, CallsMatch;
    if events != [] {
      var before := events[..|events| - 1];
      RunIsMonotone(s, before, k);
      RunKeepsInvariant(s, before);
      StepKeepsTasks(Run(s, before), events[|events| - 1], k);
    }
  }

  /** The calls of a run are never forgotten, and a finished call is never changed. */
  lemma {:induction false} RunKeepsCalls(s: System, events: seq<Event>, c: nat)
    requires Feasible(s, events) && c in s.calls
    ensures c in Run(s, events).calls
    ensures s.calls[c].WaitDone? || s.calls[c].Done? || s.calls[c].NotFound? ==> Run(s, events).calls[c] == s.calls[c]
    ensures s.calls[c].Woken? ==> HasReceived(Run(s, events).calls[c], s.calls[c].task)
    decreases |events|
  {
    hide Act, Possible;
    if events != [] {
      RunKeepsCalls(s, events[..|events| - 1], c);
    }
  }

  /**
   * At most one Wait on a task ever gets past the channel, whatever the interleaving. When it
   * returns, the task has no process, and the code it returned is the task's exit code then and
   * in every later state.
   */
  lemma {:induction false} OneWaitReturns(s: System, events: seq<Event>, c: nat, d: nat)
    requires SystemInvariant(s) && Feasible(s, events)
    requires c in s.calls && s.calls[c].WaitDone?
    ensures var k := s.calls[c].task; var last := Run(s, events);
            && k < |last.heap|
            && last.heap[k].pid == 0
            && last.heap[k].exitCode == s.calls[c].code
            && (d in last.calls && HasReceived(last.calls[d], k) ==> d == c)
  {
    hide Step, Enabled, Run, Feasible, TaskInvariant, Receivers, Starters, Pausers, Resumers;
    var k := s.calls[c].task;
    var last := Run(s, events);
    assert CallInRange(s.calls[c], |s.heap|);
    assert CallsMatch(s, k) && TaskInvariant(s.heap[k]);
    OneReceiver(s, c, k);
    RunIsMonotone(s, events, k);
    RunKeepsInvariant(s, events);
    RunKeepsCalls(s, events, c);
    assert CallsMatch(last, k);
    OneReceiver(last, c, k);
    if d in last.calls && HasReceived(last.calls[d], k) { OneReceiver(last, d, k); }
  }

  /** Every other Wait on that task blocks for ever. */
  lemma {:induction false} OtherWaitsBlock(s: System, events: seq<Event>, c: nat, d: nat)
    requires SystemInvariant(s) && Feasible(s, events)
    requires c in s.calls && !s.calls[c].NotFound? && HasReceived(s.calls[c], s.calls[c].task)
    requires d in Run(s, events).calls && Run(s, events).calls[d] == Pending(Receive, s.calls[c].task)
    ensures !Enabled(Run(s, events), Wake(d))
  {
    hide Step, Run, Feasible, TaskInvariant, Receivers, Starters, Pausers, Resumers;
    var k, last := s.calls[c].task, Run(s, events);
    RunKeepsCalls(s, events, c);
    RunKeepsInvariant(s, events);
    assert CallInRange(last.calls[c], |last.heap|);
    assert CallsMatch(last, k);
    OneReceiver(last, c, k);
  }

  /** Exactly one Start succeeds on each task that has left the Created state, and none on the others. */
  lemma {:induction false} OneStartSucceeds(s: System, c: nat, d: nat, k: nat)
    requires SystemInvariant(s) && k < |s.heap|
    ensures s.heap[k].status != Created <==> exists b :: b in s.calls && HasStarted(s.calls[b], k)
    ensures c in s.calls && d in s.calls && HasStarted(s.calls[c], k) && HasStarted(s.calls[d], k) ==> c == d
  {
    hide TaskInvariant;
    assert CallsMatch(s, k);
    var all := Starters(s, k);
    if s.heap[k].status != Created {
      var b :| b in all;
      assert HasStarted(s.calls[b], k);
    } else {
      assert all == {};
    }
    if c in all && d in all && c != d {
      SubsetSize({c, d}, all);
    }
    assert forall b :: b in s.calls && HasStarted(s.calls[b], k) ==> b in all;
  }

  /**
   * In every reachable state: a started task that has not stopped is paused exactly when one more
   * Pause than Resume has succeeded on it, and running exactly when as many have; a task that was
   * not started has seen neither.
   */
  lemma {:induction false} PauseBalance(events: seq<Event>, k: nat)
    requires Feasible(EMPTY, events) && k < |Run(EMPTY, events).heap|
    ensures var s := Run(EMPTY, events);
            var status, paused := s.heap[k].status, set c | c in s.calls && s.calls[c] == Done(Pause, k, true);
            var resumed := set c | c in s.calls && s.calls[c] == Done(Resume, k, true);
            && (status == Paused || status == Running ==>
                  && (status == Paused <==> |paused| == |resumed| + 1)
                  && (status == Running <==> |paused| == |resumed|))
            && (status == Stopped ==> |paused| == |resumed|)
            && (status == Created ==> paused == {} && resumed == {})
  {
    hide Run, Feasible, TaskInvariant, Receivers, Starters;
    Reachable(events);
    var s := Run(EMPTY, events);
    assert CallsMatch(s, k);
    assert Pausers(s, k) == set c | c in s.calls && s.calls[c] == Done(Pause, k, true);
    assert Resumers(s, k) == set c | c in s.calls && s.calls[c] == Done(Resume, k, true);
  }

  /** The monitor never blocks on the channel, so it always gets to its end. */
  lemma {:induction false} MonitorNeverBlocks(s: System, k: nat)
    requires SystemInvariant(s) && k < |s.heap|
    ensures s.heap[k].monitor.Exited? ==> Enabled(s, Process(k, Record))
    ensures s.heap[k].monitor.Recorded? ==> Enabled(s, Process(k, Send))
  {
    assert TaskInvariant(s.heap[k]);
  }

  /** What a run has recorded about the exit of one task. */
  datatype Verdict = NotYet | Missed | Seen(code: int)

  /**
   * The exit code a run records for task k, if it records one: the event at which the monitor
   * records the exit must find the task running.
   */
  function VerdictOf(s: System, events: seq<Event>, k: nat): Verdict
    requires Feasible(s, events)
    decreases |events|
  {
    if events == [] then NotYet
    else
      var before := events[..|events| - 1];
      var now := Run(s, before);
      if events[|events| - 1] == Process(k, Record)
      then (if now.heap[k].status == Running then Seen(ReportedCode(now.heap[k].monitor.report)) else Missed)
      else VerdictOf(s, before, k)
  }

  /**
   * A task that had not exited before the run is stopped at its end exactly when its exit was
   * recorded while it was running, and the exit code is then the recorded one. An exit recorded
   * while the task was Created or Paused is lost: the status stays and the code is 0.
   */
  lemma {:induction false} StoppedIffSeen(s: System, events: seq<Event>, k: nat)
    requires SystemInvariant(s) && Feasible(s, events)
    requires k < |s.heap| && !HasRecorded(s.heap[k])
    ensures k < |Run(s, events).heap|
    ensures var t := Run(s, events).heap[k]; var verdict := VerdictOf(s, events, k);
            && (t.status == Stopped <==> verdict.Seen?)
            && (HasRecorded(t) <==> !verdict.NotYet?)
            && t.exitCode == (if verdict.Seen? then verdict.code else 0)
            && (t.pid != 0 <==> verdict.NotYet?)
    decreases |events|
  {
    hide CallsMatch, Enabled;
    if events == [] {
      assert TaskInvariant(s.heap[k]);
    } else {
      var before, e := events[..|events| - 1], events[|events| - 1];
      var now := Run(s, before);
      StoppedIffSeen(s, before, k);
      RunKeepsInvariant(s, before);
      VerdictStep(now, e, k);
      assert Run(s, events) == Step(now, e);
      assert VerdictOf(s, events, k) == if e != Process(k, Record) then VerdictOf(s, before, k)
                                        else if now.heap[k].status == Running
                                        then Seen(ReportedCode(now.heap[k].monitor.report)) else Missed;
      StepFrame(now, e, k);
      assert TaskInvariant(now.heap[k]);
    }
  }

  /** One event, seen from one task: only the monitor's own record can stop it. */
  lemma {:induction false} VerdictStep(s: System, e: Event, k: nat)
    requires SystemInvariant(s) && Enabled(s, e) && k < |s.heap|
    ensures var t, u := s.heap[k], Step(s, e).heap[k];
            if e == Process(k, Record) then
              && t.monitor.Exited? && !HasRecorded(t) && HasRecorded(u)
              && (u.status == Stopped <==> t.status == Running)
              && u.exitCode == (if t.status == Running then ReportedCode(t.monitor.report) else 0)
            else
              && (u.status == Stopped <==> t.status == Stopped)
              && u.exitCode == t.exitCode
              && (HasRecorded(u) <==> HasRecorded(t))
  {
    hide CallsMatch;
    assert TaskInvariant(s.heap[k]);
  }

  /** Create, an exit that is recorded before any Start, and then the Start. */
  function LateStart(id: string, pid: nat, report: Report): seq<Event> {
    [Create(id, pid)] + [Process(0, Exit(report))] + [Process(0, Record)] + [Lookup(0, Start, id)] + [Apply(0)]
  }

  /** Running does not imply a process: the exit of a task that is not yet started is lost. */
  lemma {:induction false} RunningWithoutProcess(id: string, pid: nat, report: Report)
    requires pid > 0
    ensures Feasible(EMPTY, LateStart(id, pid, report))
    ensures Run(EMPTY, LateStart(id, pid, report)).heap == [Task(0, Running, 0, Recorded(report), [])]
  {
    var r1 := [Create(id, pid)];
    var r2 := r1 + [Process(0, Exit(report))];
    var r3 := r2 + [Process(0, Record)];
    var r4 := r3 + [Lookup(0, Start, id)];
    assert [] + r1 == r1;
    assert Feasible(EMPTY, []) && Run(EMPTY, []) == EMPTY;
    hide Run, Feasible;
    var ids := map[id := 0];
    RunExtends(EMPTY, [], Create(id, pid));
    assert Run(EMPTY, r1) == System([NewTask(pid)], ids, map[]);
    RunExtends(EMPTY, r1, Process(0, Exit(report)));
    assert Run(EMPTY, r2) == System([Task(pid, Created, 0, Exited(report), [])], ids, map[]);
    RunExtends(EMPTY, r2, Process(0, Record));
    var lost := Task(0, Created, 0, Recorded(report), []);
    assert Run(EMPTY, r3) == System([lost], ids, map[]);
    RunExtends(EMPTY, r3, Lookup(0, Start, id));
    assert Run(EMPTY, r4) == System([lost], ids, map[0 := Pending(Start, 0)]);
    RunExtends(EMPTY, r4, Apply(0));
  }

  lemma {:induction false} RunExtends(s: System, events: seq<Event>, e: Event)
    requires Feasible(s, events) && Enabled(Run(s, events), e)
    ensures Feasible(s, events + [e]) && Run(s, events + [e]) == Step(Run(s, events), e)
  {
    assert (events + [e])[..|events|] == events;
  }

  /** A lost exit leaves a task that Delete refuses whenever it is running, and nothing stops it. */
  lemma {:induction false} LostExit(s: System, events: seq<Event>, id: string)
    requires SystemInvariant(s) && Feasible(s, events)
    requires id in s.ids && id in Run(s, events).ids
    requires Run(s, events).ids[id] == s.ids[id] < |s.heap|
    requires HasRecorded(s.heap[s.ids[id]]) && s.heap[s.ids[id]].status != Stopped
    ensures var last := Run(s, events); var k := s.ids[id];
            && k < |last.heap| && last.heap[k].pid == 0
            && (Deletable(last, id) <==> last.heap[k].status == Created || last.heap[k].status == Paused)
  {
    hide Step, Run, Feasible, CallsMatch, SystemInvariant;
    RunIsMonotone(s, events, s.ids[id]);
  }

  // ---- Ids ----

  /** Create, Delete and the first half of a call, on the ids: an id in use, or unknown, is refused. */
  lemma {:induction false} IdOutcomes(s: System, id: string, pid: nat, call: nat, action: Action)
    requires SystemInvariant(s) && pid > 0 && call !in s.calls && ApiAction(action)
    ensures Step(s, Create(id, pid)) ==
            if id in s.ids then s
            else s.(heap := s.heap + [Task(pid, Created, 0, Watching, [])], ids := s.ids[id := |s.heap|])
    ensures Step(s, Delete(id)) ==
            if id in s.ids && s.heap[s.ids[id]].status != Running then s.(ids := s.ids - {id}) else s
    ensures Step(s, Lookup(call, action, id)) ==
            s.(calls := s.calls[call := if id in s.ids then Pending(action, s.ids[id]) else NotFound])
  {
    hide CallsMatch, TaskInvariant, Act, Possible;
  }

  /** Was the id created after the last delete of it that found a task it might delete? */
  predicate CreatedLast(s: System, events: seq<Event>, id: string)
    requires Feasible(s, events)
    decreases |events|
  {
    if events == [] then id in s.ids
    else
      var before, e := events[..|events| - 1], events[|events| - 1];
      var now := Run(s, before);
      if e.Create? && e.id == id then true
      else if e == Delete(id) && id in now.ids && now.ids[id] < |now.heap| && now.heap[now.ids[id]].status != Running
      then false
      else CreatedLast(s, before, id)
  }

  /** The manager knows an id exactly if it was created after it was last deleted. */
  lemma {:induction false} KnownIff(s: System, events: seq<Event>, id: string)
    requires Feasible(s, events)
    ensures id in Run(s, events).ids <==> CreatedLast(s, events, id)
    decreases |events|
  {
    hide Act, Possible;
    if events != [] { KnownIff(s, events[..|events| - 1], id); }
  }

  /**
   * An id that is deleted and used again: a call that had looked it up before acts on the old task,
   * which no id leads to any more, and the new task is not touched.
   */
  lemma {:induction false} StaleCall(s: System, id: string, pid: nat, call: nat)
    requires SystemInvariant(s) && pid > 0
    requires id in s.ids && s.heap[s.ids[id]].status != Running
    requires call in s.calls && s.calls[call].Pending? && s.calls[call].task == s.ids[id]
    requires s.calls[call].action in {Start, Pause, Resume}
    ensures var k, action := s.ids[id], s.calls[call].action;
            var reused := Step(Step(s, Delete(id)), Create(id, pid));
            && Enabled(reused, Apply(call))
            && var t := Step(reused, Apply(call));
               && t.ids[id] == |s.heap| && t.heap[|s.heap|] == Task(pid, Created, 0, Watching, [])
               && t.heap[k] == Act(s.heap[k], action)
               && k !in t.ids.Values
               && t.calls[call] == Done(action, k, Accepted(s.heap[k], action))
  {
    hide CallsMatch, TaskInvariant, Act;
  }

  // ---- Tasks do not disturb each other ----

  /** The actions of a run on one task, in order. */
  function ActionsOn(s: System, events: seq<Event>, k: nat): seq<Action>
    requires Feasible(s, events)
    decreases |events|
  {
    if events == [] then []
    else
      var before, e := events[..|events| - 1], events[|events| - 1];
      ActionsOn(s, before, k) + ActionOn(Run(s, before), e, k)
  }

  predicate Performable(t: Task, actions: seq<Action>)
    decreases |actions|, 0
  {
    actions == [] ||
    var before := actions[..|actions| - 1];
    Performable(t, before) && Possible(Perform(t, before), actions[|actions| - 1])
  }

  function Perform(t: Task, actions: seq<Action>): Task
    requires Performable(t, actions)
    decreases |actions|, 1
  {
    if actions == [] then t else Act(Perform(t, actions[..|actions| - 1]), actions[|actions| - 1])
  }

  lemma {:induction false} PerformOneMore(t: Task, actions: seq<Action>, a: Action)
    requires Performable(t, actions) && Possible(Perform(t, actions), a)
    ensures Performable(t, actions + [a]) && Perform(t, actions + [a]) == Act(Perform(t, actions), a)
  {
    assert (actions + [a])[..|actions|] == actions;
  }

  /**
   * What becomes of a task in a run of the whole system, with any number of tasks, calls in
   * flight, deletions and reused ids, is what its own actions make of it.
   */
  lemma {:induction false} TasksAreIndependent(s: System, events: seq<Event>, k: nat)
    requires Feasible(s, events) && k < |s.heap|
    ensures k < |Run(s, events).heap|
    ensures Performable(s.heap[k], ActionsOn(s, events, k))
    ensures Run(s, events).heap[k] == Perform(s.heap[k], ActionsOn(s, events, k))
    decreases |events|
  {
    hide Act, Possible, Perform, Performable, Step, ActionOn, Enabled;
    if events == [] {
      NothingPerformed(s.heap[k]);
    } else {
      var before, e := events[..|events| - 1], events[|events| - 1];
      var now := Run(s, before);
      TasksAreIndependent(s, before, k);
      StepFrame(now, e, k);
      var actions, more := ActionsOn(s, before, k), ActionOn(now, e, k);
      if more == [] {
        assert actions + more == actions;
      } else {
        assert more == [more[0]];
        PerformOneMore(s.heap[k], actions, more[0]);
      }
    }
  }

  lemma {:induction false} NothingPerformed(t: Task)
    ensures Performable(t, []) && Perform(t, []) == t
  {
  }
}
