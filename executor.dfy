/** The privileged task executor: a FIFO queue of privileged commands run one
    at a time through an escalation helper (pkexec or `sudo -n`), with the
    process lifecycle fed in as events, cancellation, introspection, the
    memoised helper choice and the convenience request builders. */
module Executor {
  import opened Text

  /** Identity of the QObject that receives slot callbacks. */
  type ReceiverId = nat

  /** PrivilegedTask: what one privileged command needs, plus where its
      callbacks go (a receiver and three optional slot names). */
  datatype Task = Task(
    command: string,
    args: seq<string>,
    description: string,
    taskId: int,
    receiver: Option<ReceiverId>,
    successSlot: Option<string>,
    errorSlot: Option<string>,
    progressSlot: Option<string>)

  /** The (command, args, description) triple a caller submits. */
  datatype Request = Request(command: string, args: seq<string>, description: string)

  /** The receiver and slot names a caller submits with a request. */
  datatype Callbacks = Callbacks(
    receiver: Option<ReceiverId>,
    successSlot: Option<string>,
    errorSlot: Option<string>,
    progressSlot: Option<string>)

  const NoCallbacks := Callbacks(None, None, None, None)

  /** The cached escalation helper; NoMethod is the empty string of the source. */
  datatype PrivilegeMethod = NoMethod | Pkexec | Sudo

  /** Everything the executor makes observable: its signals, the slot
      invocations it attempts, and the processes it launches or kills.
      `SlotInvoked` records a `QMetaObject::invokeMethod` call on the stored
      slot string; whether Qt finds a method of that name is not modelled. */
  datatype Event =
    | TaskStarted(taskId: int, description: string)
    | TaskProgress(taskId: int, progress: string)
    | TaskFinished(taskId: int, exitCode: int, output: string)
    | TaskError(taskId: int, error: string)
    | TaskCancelled(taskId: int)
    | SlotInvoked(receiver: ReceiverId, slot: string, argument: string)
    | ProcessLaunched(taskId: int, program: string, argv: seq<string>)
    | ProcessKilled(taskId: int)

  const NoMethodMessage := "No privilege escalation method available"
  const TempFileMessage := "Failed to create temporary file"

  // ---------------------------------------------------------------------
  // The escalation helper

  /** The probe order of the resolver: pkexec first, then sudo. */
  function Probe(pkexecAvailable: bool, sudoAvailable: bool): PrivilegeMethod {
    if pkexecAvailable then Pkexec else if sudoAvailable then Sudo else NoMethod
  }

  function ProgramName(m: PrivilegeMethod): string {
    match m
    case NoMethod => ""
    case Pkexec => "pkexec"
    case Sudo => "sudo"
  }

  /** The helper's argument vector for running `command args` escalated. */
  function HelperArgv(m: PrivilegeMethod, command: string, args: seq<string>): seq<string>
    requires m != NoMethod
  {
    if m == Pkexec then [command] + args else ["-n", command] + args
  }

  /** Reads the escalated command back out of a helper argument vector. */
  function EscalatedCommand(m: PrivilegeMethod, argv: seq<string>): Option<(string, seq<string>)>
    requires m != NoMethod
  {
    if m == Pkexec then
      if argv == [] then None else Some((argv[0], argv[1..]))
    else
      if |argv| < 2 || argv[0] != "-n" then None else Some((argv[1], argv[2..]))
  }

  /** The helper receives exactly the command and its arguments, behind
      "-n" for sudo so that it never prompts. */
  lemma HelperArgvRoundTrip(m: PrivilegeMethod, command: string, args: seq<string>)
    requires m != NoMethod
    ensures EscalatedCommand(m, HelperArgv(m, command, args)) == Some((command, args))
    ensures m == Sudo ==> HelperArgv(m, command, args)[0] == "-n"
    ensures |HelperArgv(m, command, args)| == |args| + (if m == Pkexec then 1 else 2)
  {
    var argv := HelperArgv(m, command, args);
    if m == Pkexec {
      assert argv[1..] == args;
    } else {
      assert argv[2..] == args;
    }
  }

  /** The process-wide memo of the helper choice (a static in the source,
      shared by every executor). */
  class PrivilegeResolver {
    var cached: PrivilegeMethod

    constructor ()
      ensures cached == NoMethod
    {
      cached := NoMethod;
    }

    /** Returns the cached helper; only while none is cached are the two
        availability probes consulted, and only a found helper is cached. */
    method GetPrivilegeMethod(pkexecAvailable: bool, sudoAvailable: bool) returns (m: PrivilegeMethod)
      modifies this
      ensures old(cached) != NoMethod ==> m == old(cached)
      ensures old(cached) == NoMethod ==> m == Probe(pkexecAvailable, sudoAvailable)
      ensures cached == m
    {
      if cached != NoMethod {
        return cached;
      }
      if pkexecAvailable {
        cached := Pkexec;
      } else if sudoAvailable {
        cached := Sudo;
      }
      m := cached;
    }
  }

  // ---------------------------------------------------------------------
  // Events of the terminal handlers

  function ErrorSlotCall(t: Task, message: string): seq<Event> {
    if t.receiver.Some? && t.errorSlot.Some? then [SlotInvoked(t.receiver.value, t.errorSlot.value, message)] else []
  }

  /** What errorCurrentTask makes observable: the error slot (when given),
      then the taskError signal. */
  function ErrorEvents(t: Task, message: string): seq<Event> {
    ErrorSlotCall(t, message) + [TaskError(t.taskId, message)]
  }

  /** The slot finishCurrentTask invokes: the success slot on exit code 0,
      the error slot otherwise, each only when given. */
  function FinishSlotCall(t: Task, exitCode: int, output: string): seq<Event> {
    if t.receiver.None? then []
    else if exitCode == 0 && t.successSlot.Some? then [SlotInvoked(t.receiver.value, t.successSlot.value, output)]
    else if exitCode != 0 && t.errorSlot.Some? then [SlotInvoked(t.receiver.value, t.errorSlot.value, output)]
    else []
  }

  function FinishEvents(t: Task, exitCode: int, output: string): seq<Event> {
    FinishSlotCall(t, exitCode, output) + [TaskFinished(t.taskId, exitCode, output)]
  }

  /** finishCurrentTask always ends with taskFinished, and calls back the
      success slot exactly when the exit code is 0 and the error slot exactly
      when it is not. */
  lemma FinishEventsSpec(t: Task, exitCode: int, output: string)
    ensures var e := FinishEvents(t, exitCode, output);
      && e[|e| - 1] == TaskFinished(t.taskId, exitCode, output)
      && (|e| == 2 <==> t.receiver.Some? && (if exitCode == 0 then t.successSlot.Some? else t.errorSlot.Some?))
      && (|e| == 2 ==> e[0] == SlotInvoked(t.receiver.value,
                                          if exitCode == 0 then t.successSlot.value else t.errorSlot.value,
                                          output))
  {
  }

  function ProgressEvents(t: Task, chunk: string): seq<Event> {
    [TaskProgress(t.taskId, Trim(chunk))]
    + (if t.progressSlot.Some? && t.receiver.Some? then [SlotInvoked(t.receiver.value, t.progressSlot.value, Trim(chunk))] else [])
  }

  /** One taskCancelled signal per task, in queue order. */
  function CancelledEvents(q: seq<Task>): (r: seq<Event>)
    ensures |r| == |q|
  {
    if q == [] then [] else CancelledEvents(q[..|q| - 1]) + [TaskCancelled(q[|q| - 1].taskId)]
  }

  /** The signal at each position cancels the task at that position. */
  lemma {:induction false} CancelledEventsAt(q: seq<Task>)
    ensures forall i :: 0 <= i < |q| ==> CancelledEvents(q)[i] == TaskCancelled(q[i].taskId)
  {
    if q != [] {
      var front := q[..|q| - 1];
      CancelledEventsAt(front);
      forall i | 0 <= i < |q| ensures CancelledEvents(q)[i] == TaskCancelled(q[i].taskId) {
        if i < |front| {
          assert CancelledEvents(q)[i] == CancelledEvents(front)[i];
        }
      }
    }
  }

  /** The descriptions of the tasks, in queue order. */
  function Descriptions(q: seq<Task>): (r: seq<string>)
    ensures |r| == |q|
  {
    if q == [] then [] else Descriptions(q[..|q| - 1]) + [q[|q| - 1].description]
  }

  /** The description at each position is the task's at that position. */
  lemma {:induction false} DescriptionsAt(q: seq<Task>)
    ensures forall i :: 0 <= i < |q| ==> Descriptions(q)[i] == q[i].description
  {
    if q != [] {
      var front := q[..|q| - 1];
      DescriptionsAt(front);
      forall i | 0 <= i < |q| ensures Descriptions(q)[i] == q[i].description {
        if i < |front| {
          assert Descriptions(q)[i] == Descriptions(front)[i];
        }
      }
    }
  }

  /** Index of the first queued task with the given id. */
  function FindTask(q: seq<Task>, id: int): (r: Option<nat>)
    ensures r.Some? ==> r.value < |q| && q[r.value].taskId == id
    ensures r.Some? ==> forall i :: 0 <= i < r.value ==> q[i].taskId != id
    ensures r.None? ==> forall i :: 0 <= i < |q| ==> q[i].taskId != id
  {
    if q == [] then None
    else if q[0].taskId == id then Some(0)
    else match FindTask(q[1..], id)
      case None => None
      case Some(k) => Some(k + 1)
  }

  /** Whether a task id is in the queue. */
  predicate Queued(q: seq<Task>, id: int) {
    exists i :: 0 <= i < |q| && q[i].taskId == id
  }

  function TaskOf(req: Request, cb: Callbacks, id: int): Task {
    Task(req.command, req.args, req.description, id, cb.receiver, cb.successSlot, cb.errorSlot, cb.progressSlot)
  }

  // ---------------------------------------------------------------------
  // The executor

  class PrivilegedExecutor {
    /** m_taskQueue */
    var queue: seq<Task>
    /** m_currentTask */
    var current: Task
    /** m_isRunning */
    var running: bool
    /** m_currentProcess != nullptr */
    var processLive: bool
    /** m_nextTaskId */
    var nextId: int
    /** Signals, slot calls and process launches/kills, in order. */
    var events: seq<Event>
    /** processNextTask invocations posted to the event loop and not yet delivered. */
    var wakeups: nat
    /** The ids of the tasks dequeued so far, in dequeue order. */
    ghost var startedIds: seq<int>
    const resolver: PrivilegeResolver

    /** The executor's invariant: ids are handed out from 1 upwards; the
        queue holds unique ids in submission order, all later than every
        task started; a process is live exactly while a task runs, and that
        task is the last one started; a non-empty queue with nothing running
        always has a processNextTask call pending. */
    ghost predicate Valid()
      reads this
    {
      ExecutorInv(queue, running, processLive, nextId, startedIds, current, wakeups)
    }

    constructor (resolver: PrivilegeResolver)
      ensures Valid()
      ensures this.resolver == resolver
      ensures queue == [] && !running && !processLive && nextId == 1 && events == [] && wakeups == 0
    {
      this.resolver := resolver;
      queue := [];
      current := Task("", [], "", 0, None, None, None, None);
      running := false;
      processLive := false;
      nextId := 1;
      events := [];
      wakeups := 0;
      startedIds := [];
    }

    /** executeCommandAsync + enqueueTask: the task gets the next id and goes
        to the tail of the queue; when nothing runs, a processNextTask call
        is posted. */
    method Submit(req: Request, cb: Callbacks) returns (id: int)
      requires Valid()
      modifies this
      ensures Valid()
      ensures id == old(nextId) && nextId == id + 1
      ensures queue == old(queue) + [TaskOf(req, cb, id)]
      ensures id !in old(startedIds) && !Queued(old(queue), id)
      ensures wakeups == old(wakeups) + (if old(running) then 0 else 1)
      ensures running == old(running) && processLive == old(processLive) && current == old(current)
      ensures events == old(events) && startedIds == old(startedIds)
    {
      SubmitKeeps(queue, running, processLive, nextId, startedIds, current, wakeups, TaskOf(req, cb, nextId));
      id := nextId;
      nextId := nextId + 1;
      queue := queue + [TaskOf(req, cb, id)];
      if !running {
        wakeups := wakeups + 1;
      }
    }

    /** processNextTask, as delivered from the event loop: when idle and the
        queue is non-empty, dequeue the head and start it (startTask).
        Without an escalation helper the task ends at once with an error and
        the next call is posted; otherwise the helper is launched on the
        task's command. */
    method ProcessNextTask(pkexecAvailable: bool, sudoAvailable: bool)
      requires Valid() && wakeups > 0
      modifies this, resolver
      ensures Valid()
      ensures old(running) || old(queue) == [] ==>
        && queue == old(queue) && running == old(running) && processLive == old(processLive)
        && current == old(current) && events == old(events) && startedIds == old(startedIds)
        && wakeups == old(wakeups) - 1 && resolver.cached == old(resolver.cached)
      ensures !old(running) && old(queue) != [] ==>
        && current == old(queue)[0] && queue == old(queue)[1..]
        && startedIds == old(startedIds) + [current.taskId]
        && resolver.cached == (if old(resolver.cached) != NoMethod then old(resolver.cached)
                               else Probe(pkexecAvailable, sudoAvailable))
        && (resolver.cached == NoMethod ==>
              && !running && events == old(events) + ErrorEvents(current, NoMethodMessage)
              && wakeups == old(wakeups))
        && (resolver.cached != NoMethod ==>
              && running
              && events == old(events) + [ProcessLaunched(current.taskId, ProgramName(resolver.cached),
                                                          HelperArgv(resolver.cached, current.command, current.args))]
              && wakeups == old(wakeups) - 1)
      ensures nextId == old(nextId)
    {
      if running || queue == [] {
        WakeupKeeps(queue, running, processLive, nextId, startedIds, current, wakeups);
        wakeups := wakeups - 1;
        return;
      }
      wakeups := wakeups - 1;
      var task := queue[0];
      queue := queue[1..];
      assert [task] + queue == old(queue);
      assert task == old(queue)[0] && queue == old(queue)[1..];
      assert events == old(events) && resolver.cached == old(resolver.cached) && wakeups == old(wakeups) - 1;
      assert !processLive && ExecutorInv([task] + queue, false, false, nextId, startedIds, current, wakeups + 1);
      StartTask(task, pkexecAvailable, sudoAvailable);
    }

    /** startTask: the dequeued task becomes the current one; without an
        escalation helper it ends at once with an error and the next call is
        posted, otherwise the helper is launched on the task's command. */
    method StartTask(task: Task, pkexecAvailable: bool, sudoAvailable: bool)
      requires ExecutorInv([task] + queue, false, false, nextId, startedIds, current, wakeups + 1)
      modifies this, resolver
      ensures Valid()
      ensures current == task && queue == old(queue) && nextId == old(nextId)
      ensures startedIds == old(startedIds) + [task.taskId]
      ensures resolver.cached == (if old(resolver.cached) != NoMethod then old(resolver.cached)
                                  else Probe(pkexecAvailable, sudoAvailable))
      ensures resolver.cached == NoMethod ==>
        && !running && events == old(events) + ErrorEvents(task, NoMethodMessage)
        && wakeups == old(wakeups) + 1
      ensures resolver.cached != NoMethod ==>
        && running
        && events == old(events) + [ProcessLaunched(task.taskId, ProgramName(resolver.cached),
                                                    HelperArgv(resolver.cached, task.command, task.args))]
        && wakeups == old(wakeups)
    {
      assert ([task] + queue)[1..] == queue;
      StartKeeps([task] + queue, nextId, startedIds, current, wakeups + 1, false, wakeups + 1);
      StartKeeps([task] + queue, nextId, startedIds, current, wakeups + 1, true, wakeups);
      current := task;
      running := true;
      startedIds := startedIds + [task.taskId];
      var m := resolver.GetPrivilegeMethod(pkexecAvailable, sudoAvailable);
      if m == NoMethod {
        ErrorCurrentTask(NoMethodMessage);
        return;
      }
      LaunchProcess(m);
    }

    /** The tail of startTask: a process of the helper is created and
        started on the current task's command. */
    method LaunchProcess(m: PrivilegeMethod)
      requires m != NoMethod
      modifies this`processLive, this`events
      ensures processLive
      ensures events == old(events) + [ProcessLaunched(current.taskId, ProgramName(m), HelperArgv(m, current.command, current.args))]
    {
      processLive := true;
      events := events + [ProcessLaunched(current.taskId, ProgramName(m), HelperArgv(m, current.command, current.args))];
    }

    /** errorCurrentTask: error slot and taskError, the process handle is
        released, the executor is idle and the next task is scheduled. */
    method ErrorCurrentTask(message: string)
      modifies this`events, this`processLive, this`running, this`wakeups
      ensures events == old(events) + ErrorEvents(current, message)
      ensures !running && !processLive && wakeups == old(wakeups) + 1
    {
      events := events + ErrorEvents(current, message);
      processLive := false;
      running := false;
      wakeups := wakeups + 1;
    }

    /** finishCurrentTask: result slot and taskFinished, the process handle
        is released, the executor is idle and the next task is scheduled. */
    method FinishCurrentTask(exitCode: int, output: string)
      modifies this`events, this`processLive, this`running, this`wakeups
      ensures events == old(events) + FinishEvents(current, exitCode, output)
      ensures !running && !processLive && wakeups == old(wakeups) + 1
    {
      events := events + FinishEvents(current, exitCode, output);
      processLive := false;
      running := false;
      wakeups := wakeups + 1;
    }

    /** onProcessStarted: taskStarted for the current task. */
    method OnStarted()
      requires Valid()
      modifies this`events
      ensures Valid()
      ensures events == old(events) + [TaskStarted(current.taskId, current.description)]
    {
      events := events + [TaskStarted(current.taskId, current.description)];
    }

    /** onProcessReadyRead: a non-empty chunk of output becomes a progress
        signal (trimmed) and, when given, a progress slot call; nothing
        happens without a live process. */
    method OnReadyRead(chunk: string)
      requires Valid()
      modifies this`events
      ensures Valid()
      ensures events == old(events) + (if processLive && chunk != [] then ProgressEvents(current, chunk) else [])
    {
      if !processLive {
        return;
      }
      if chunk != [] {
        events := events + ProgressEvents(current, chunk);
      }
    }

    /** onProcessFinished: the remaining output ends the current task. */
    method OnFinished(exitCode: int, output: string)
      requires Valid() && processLive
      modifies this
      ensures Valid()
      ensures events == old(events) + FinishEvents(current, exitCode, output)
      ensures !running && !processLive && wakeups == old(wakeups) + 1
      ensures queue == old(queue) && current == old(current) && nextId == old(nextId)
    {
      IdleKeeps(queue, running, processLive, nextId, startedIds, current, wakeups);
      FinishCurrentTask(exitCode, output);
    }

    /** onProcessError: the process's error string ends the current task. */
    method OnError(message: string)
      requires Valid() && processLive
      modifies this
      ensures Valid()
      ensures events == old(events) + ErrorEvents(current, message)
      ensures !running && !processLive && wakeups == old(wakeups) + 1
      ensures queue == old(queue) && current == old(current) && nextId == old(nextId)
    {
      IdleKeeps(queue, running, processLive, nextId, startedIds, current, wakeups);
      ErrorCurrentTask(message);
    }

    /** cancelTask: the running task's process is killed and taskCancelled
        emitted, leaving the slot as it is (its process events end it
        later); otherwise the queued task with that id is removed and
        taskCancelled emitted; an unknown id changes nothing. */
    method CancelTask(id: int)
      requires Valid()
      modifies this
      ensures Valid()
      ensures old(running) && old(current.taskId) == id ==>
        && queue == old(queue)
        && events == old(events) + [ProcessKilled(id), TaskCancelled(id)]
      ensures !(old(running) && old(current.taskId) == id) ==>
        match FindTask(old(queue), id)
        case None => queue == old(queue) && events == old(events)
        case Some(k) => queue == old(queue)[..k] + old(queue)[k + 1..]
                        && events == old(events) + [TaskCancelled(id)]
      ensures !Queued(queue, id)
      ensures running == old(running) && processLive == old(processLive) && current == old(current)
      ensures nextId == old(nextId) && wakeups == old(wakeups)
    {
      if running && current.taskId == id {
        if processLive {
          events := events + [ProcessKilled(id)];
        }
        events := events + [TaskCancelled(id)];
        RunningNotQueued(queue, running, processLive, nextId, startedIds, current, wakeups);
        return;
      }
      var i := 0;
      while i < |queue| && queue[i].taskId != id
        invariant 0 <= i <= |queue|
        invariant forall j :: 0 <= j < i ==> queue[j].taskId != id
      {
        i := i + 1;
      }
      if i == |queue| {
        assert FindTask(queue, id) == None && !Queued(queue, id);
        return;
      }
      assert FindTask(queue, id) == Some(i);
      RemoveKeeps(queue, running, processLive, nextId, startedIds, current, wakeups, i);
      queue := queue[..i] + queue[i + 1..];
      events := events + [TaskCancelled(id)];
    }

    /** cancelAllTasks: kill and cancel the running task (if its process is
        live), then one taskCancelled per queued task in queue order, and an
        empty queue. */
    method CancelAllTasks()
      requires Valid()
      modifies this
      ensures Valid()
      ensures events == old(events)
        + (if old(running) && old(processLive) then [ProcessKilled(old(current.taskId)), TaskCancelled(old(current.taskId))] else [])
        + CancelledEvents(old(queue))
      ensures queue == []
      ensures running == old(running) && processLive == old(processLive) && current == old(current)
      ensures nextId == old(nextId) && wakeups == old(wakeups)
    {
      ClearKeeps(queue, running, processLive, nextId, startedIds, current, wakeups);
      if running && processLive {
        events := events + [ProcessKilled(current.taskId), TaskCancelled(current.taskId)];
      }
      EmitCancelled();
      queue := [];
    }

    /** The loop of cancelAllTasks: one taskCancelled per queued task, in
        queue order. */
    method EmitCancelled()
      modifies this`events
      ensures events == old(events) + CancelledEvents(queue)
    {
      var i := 0;
      while i < |queue|
        invariant 0 <= i <= |queue|
        invariant events == old(events) + CancelledEvents(queue[..i])
      {
        CancelledEventsStep(queue, i);
        events := events + [TaskCancelled(queue[i].taskId)];
        i := i + 1;
      }
      assert queue[..i] == queue;
    }

    /** isTaskRunning: only the task holding the running slot counts; a
        queued id is never reported as running. */
    method IsTaskRunning(id: int) returns (r: bool)
      requires Valid()
      ensures r <==> running && current.taskId == id
      ensures r ==> !Queued(queue, id)
    {
      r := running && current.taskId == id;
    }

    /** getRunningTasks: the running task's description (if any), then the
        queued descriptions in FIFO order; nothing is changed. */
    method GetRunningTasks() returns (tasks: seq<string>)
      ensures tasks == (if running then [current.description] else []) + Descriptions(queue)
    {
      tasks := [];
      if running {
        tasks := tasks + [current.description];
      }
      ghost var head := tasks;
      var q := queue;
      var i := 0;
      while i < |q|
        invariant 0 <= i <= |q|
        invariant tasks == head + Descriptions(q[..i])
      {
        DescriptionsStep(q, i);
        tasks := tasks + [q[i].description];
        i := i + 1;
      }
      assert q[..i] == q;
    }

    /** writeSystemFile: when no temporary file could be created, only the
        error slot is told; otherwise `cp <tmp> <path>` is submitted with the
        caller's receiver, success and error slots and no progress slot. */
    method WriteSystemFile(path: string, tempFile: Option<string>, cb: Callbacks) returns (id: Option<int>)
      requires Valid()
      modifies this
      ensures Valid()
      ensures tempFile.None? ==>
        && id.None? && queue == old(queue) && nextId == old(nextId) && wakeups == old(wakeups)
        && events == old(events) + (if cb.receiver.Some? && cb.errorSlot.Some?
                                    then [SlotInvoked(cb.receiver.value, cb.errorSlot.value, TempFileMessage)] else [])
      ensures tempFile.Some? ==>
        && id == Some(old(nextId)) && events == old(events)
        && nextId == old(nextId) + 1 && processLive == old(processLive)
        && wakeups == old(wakeups) + (if old(running) then 0 else 1)
        && queue == old(queue) + [TaskOf(Request("cp", [tempFile.value, path], "Writing system file: " + path),
                                         cb.(progressSlot := None), old(nextId))]
      ensures running == old(running) && current == old(current) && startedIds == old(startedIds)
    {
      if tempFile.None? {
        if cb.receiver.Some? && cb.errorSlot.Some? {
          events := events + [SlotInvoked(cb.receiver.value, cb.errorSlot.value, TempFileMessage)];
        }
        return None;
      }
      var n := Submit(Request("cp", [tempFile.value, path], "Writing system file: " + path), cb.(progressSlot := None));
      id := Some(n);
    }

    /** executeCommand: a synchronous escalated run; -1 when no helper is
        available, otherwise the exit code of the helper run on the command. */
    method ExecuteCommand(command: string, args: seq<string>, pkexecAvailable: bool, sudoAvailable: bool,
                          run: (string, seq<string>) -> int) returns (exitCode: int)
      modifies resolver
      ensures resolver.cached == (if old(resolver.cached) != NoMethod then old(resolver.cached)
                                  else Probe(pkexecAvailable, sudoAvailable))
      ensures resolver.cached == NoMethod ==> exitCode == -1
      ensures resolver.cached != NoMethod ==>
        exitCode == run(ProgramName(resolver.cached), HelperArgv(resolver.cached, command, args))
    {
      var m := resolver.GetPrivilegeMethod(pkexecAvailable, sudoAvailable);
      if m == NoMethod {
        return -1;
      }
      exitCode := run(ProgramName(m), HelperArgv(m, command, args));
    }
  }

  /** The executor's invariant over its state: ids are handed out from 1
      upwards; the queue holds unique ids in submission order, all later
      than every task started; a process is live exactly while a task runs,
      and that task is the last one started; a non-empty queue with nothing
      running always has a processNextTask call pending. */
  ghost predicate ExecutorInv(queue: seq<Task>, running: bool, processLive: bool, nextId: int,
                              startedIds: seq<int>, current: Task, wakeups: nat) {
    && nextId >= 1
    && (processLive <==> running)
    && (forall i :: 0 <= i < |queue| ==> 1 <= queue[i].taskId < nextId)
    && IdsAscending(queue)
    && (forall i :: 0 <= i < |startedIds| ==> 1 <= startedIds[i] < nextId)
    && (forall i :: 0 < i < |startedIds| ==> startedIds[i - 1] < startedIds[i])
    && (startedIds != [] && queue != [] ==> startedIds[|startedIds| - 1] < queue[0].taskId)
    && (running ==> |startedIds| > 0 && current.taskId == startedIds[|startedIds| - 1])
    && (!running && queue != [] ==> wakeups > 0)
  }

  /** A submitted task takes the next id at the tail of the queue. */
  lemma SubmitKeeps(queue: seq<Task>, running: bool, processLive: bool, nextId: int,
                    startedIds: seq<int>, current: Task, wakeups: nat, t: Task)
    requires ExecutorInv(queue, running, processLive, nextId, startedIds, current, wakeups)
    requires t.taskId == nextId
    ensures ExecutorInv(queue + [t], running, processLive, nextId + 1, startedIds, current,
                        wakeups + (if running then 0 else 1))
    ensures t.taskId !in startedIds && !Queued(queue, t.taskId)
  {
    var q := queue + [t];
    forall i, j | 0 <= i < j < |q| ensures q[i].taskId < q[j].taskId {
      if j == |queue| {
        assert q[i] == queue[i];
      }
    }
  }

  /** Starting the head of the queue, with or without a process. */
  lemma StartKeeps(queue: seq<Task>, nextId: int, startedIds: seq<int>, current: Task, wakeups: nat,
                   running': bool, wakeups': nat)
    requires ExecutorInv(queue, false, false, nextId, startedIds, current, wakeups)
    requires queue != [] && (running' || wakeups' > 0)
    ensures ExecutorInv(queue[1..], running', running', nextId, startedIds + [queue[0].taskId], queue[0], wakeups')
  {
    var s := startedIds + [queue[0].taskId];
    var q := queue[1..];
    assert IdsAscending(queue);
    if q != [] {
      assert q[0] == queue[1];
    }
    forall i | 0 < i < |s| ensures s[i - 1] < s[i] {
      if i < |startedIds| {
        assert s[i - 1] == startedIds[i - 1] && s[i] == startedIds[i];
      }
    }
  }

  /** Nothing started: only a pending call is consumed. */
  lemma WakeupKeeps(queue: seq<Task>, running: bool, processLive: bool, nextId: int,
                    startedIds: seq<int>, current: Task, wakeups: nat)
    requires ExecutorInv(queue, running, processLive, nextId, startedIds, current, wakeups)
    requires running || queue == []
    requires wakeups > 0
    ensures ExecutorInv(queue, running, processLive, nextId, startedIds, current, wakeups - 1)
  {
  }

  /** The current task ends: the executor is idle with one call pending. */
  lemma IdleKeeps(queue: seq<Task>, running: bool, processLive: bool, nextId: int,
                  startedIds: seq<int>, current: Task, wakeups: nat)
    requires ExecutorInv(queue, running, processLive, nextId, startedIds, current, wakeups)
    ensures ExecutorInv(queue, false, false, nextId, startedIds, current, wakeups + 1)
  {
  }

  /** One queued task removed. */
  lemma RemoveKeeps(queue: seq<Task>, running: bool, processLive: bool, nextId: int,
                    startedIds: seq<int>, current: Task, wakeups: nat, k: nat)
    requires ExecutorInv(queue, running, processLive, nextId, startedIds, current, wakeups)
    requires k < |queue|
    ensures ExecutorInv(queue[..k] + queue[k + 1..], running, processLive, nextId, startedIds, current, wakeups)
    ensures !Queued(queue[..k] + queue[k + 1..], queue[k].taskId)
  {
    RemoveAtKeepsOrder(queue, k);
  }

  /** The running task is no longer queued: its id is below every queued one. */
  lemma RunningNotQueued(queue: seq<Task>, running: bool, processLive: bool, nextId: int,
                         startedIds: seq<int>, current: Task, wakeups: nat)
    requires ExecutorInv(queue, running, processLive, nextId, startedIds, current, wakeups)
    requires running
    ensures !Queued(queue, current.taskId)
  {
    forall i | 0 <= i < |queue| ensures queue[i].taskId != current.taskId {
      if i > 0 {
        assert queue[0].taskId < queue[i].taskId;
      }
    }
  }

  /** The queue emptied. */
  lemma ClearKeeps(queue: seq<Task>, running: bool, processLive: bool, nextId: int,
                   startedIds: seq<int>, current: Task, wakeups: nat)
    requires ExecutorInv(queue, running, processLive, nextId, startedIds, current, wakeups)
    ensures ExecutorInv([], running, processLive, nextId, startedIds, current, wakeups)
  {
  }

  /** Ids strictly increasing along the queue. */
  ghost predicate IdsAscending(q: seq<Task>) {
    forall i, j :: 0 <= i < j < |q| ==> q[i].taskId < q[j].taskId
  }

  /** Removing one task keeps the others in order, and when ids ascend the
      removed id is gone. */
  lemma RemoveAtKeepsOrder(q: seq<Task>, k: nat)
    requires k < |q|
    ensures var r := q[..k] + q[k + 1..];
      && |r| == |q| - 1
      && (forall j :: 0 <= j < |r| ==> r[j] == q[if j < k then j else j + 1])
      && (IdsAscending(q) ==> IdsAscending(r) && !Queued(r, q[k].taskId))
  {
    var r := q[..k] + q[k + 1..];
    forall j | 0 <= j < |r| ensures r[j] == q[if j < k then j else j + 1] {
    }
    if IdsAscending(q) {
      forall a, b | 0 <= a < b < |r| ensures r[a].taskId < r[b].taskId {
        assert r[a] == q[if a < k then a else a + 1];
        assert r[b] == q[if b < k then b else b + 1];
      }
      forall j | 0 <= j < |r| ensures r[j].taskId != q[k].taskId {
        assert r[j] == q[if j < k then j else j + 1];
      }
    }
  }

  lemma CancelledEventsStep(q: seq<Task>, i: nat)
    requires i < |q|
    ensures CancelledEvents(q[..i + 1]) == CancelledEvents(q[..i]) + [TaskCancelled(q[i].taskId)]
  {
    assert q[..i + 1][..i] == q[..i];
  }

  lemma DescriptionsStep(q: seq<Task>, i: nat)
    requires i < |q|
    ensures Descriptions(q[..i + 1]) == Descriptions(q[..i]) + [q[i].description]
  {
    assert q[..i + 1][..i] == q[..i];
  }

  // ---------------------------------------------------------------------
  // The command line and the convenience requests

  /** buildCommand: the command followed by each argument after a space. */
  method BuildCommand(command: string, args: seq<string>) returns (full: string)
    ensures full == Join([command] + args, " ")
  {
    full := command;
    var i := 0;
    while i < |args|
      invariant 0 <= i <= |args|
      invariant full == Join([command] + args[..i], " ")
    {
      JoinSnoc([command] + args[..i], args[i], " ");
      assert [command] + args[..i + 1] == ([command] + args[..i]) + [args[i]];
      full := full + " " + args[i];
      i := i + 1;
    }
    assert args[..i] == args;
  }

  lemma {:induction false} JoinSnoc(parts: seq<string>, last: string, sep: string)
    requires |parts| >= 1
    ensures Join(parts + [last], sep) == Join(parts, sep) + sep + last
    decreases |parts|
  {
    if |parts| == 1 {
      assert (parts + [last])[1..] == [last];
    } else {
      assert (parts + [last])[1..] == parts[1..] + [last];
      JoinSnoc(parts[1..], last, sep);
    }
  }

  /** A command line built from words without spaces splits back into the
      command and its arguments. */
  lemma CommandLineRoundTrip(command: string, args: seq<string>)
    requires ' ' !in command && forall i :: 0 <= i < |args| ==> ' ' !in args[i]
    ensures Split(Join([command] + args, " "), " ") == [command] + args
  {
    var parts := [command] + args;
    forall k | 0 <= k < |parts| ensures ' ' !in parts[k] {
      if k > 0 { assert parts[k] == args[k - 1]; }
    }
    SplitJoin(parts, ' ');
  }

  /** installPackages */
  function InstallPackages(packages: seq<string>): Request {
    Request("dnf", ["install", "-y"] + packages, "Installing packages: " + Join(packages, " "))
  }

  /** removePackages */
  function RemovePackages(packages: seq<string>): Request {
    Request("dnf", ["remove", "-y"] + packages, "Removing packages: " + Join(packages, " "))
  }

  /** updatePackages: every package when the list is empty. */
  function UpdatePackages(packages: seq<string>): Request {
    if packages == [] then Request("dnf", ["update", "-y"], "Updating all packages")
    else Request("dnf", ["update", "-y"] + packages, "Updating packages: " + Join(packages, " "))
  }

  /** The description of a package request names exactly the packages that
      dnf is given, in the same order: its command line is
      `dnf <verb> -y` followed by the description's package list. */
  lemma PackageRequestsAgree(packages: seq<string>)
    requires packages != []
    ensures var r := InstallPackages(packages);
      Join([r.command] + r.args, " ") == "dnf install -y " + r.description[|"Installing packages: "|..]
    ensures var r := RemovePackages(packages);
      Join([r.command] + r.args, " ") == "dnf remove -y " + r.description[|"Removing packages: "|..]
    ensures var r := UpdatePackages(packages);
      Join([r.command] + r.args, " ") == "dnf update -y " + r.description[|"Updating packages: "|..]
  {
    RequestLine("install", "Installing packages: ", packages, InstallPackages(packages));
    RequestLine("remove", "Removing packages: ", packages, RemovePackages(packages));
    RequestLine("update", "Updating packages: ", packages, UpdatePackages(packages));
  }

  /** `dnf <verb> -y <packages>` read against a description that lists the
      packages after `prefix`. */
  lemma RequestLine(verb: string, prefix: string, packages: seq<string>, r: Request)
    requires packages != []
    requires r == Request("dnf", [verb, "-y"] + packages, prefix + Join(packages, " "))
    ensures Join([r.command] + r.args, " ") == "dnf " + verb + " -y " + r.description[|prefix|..]
  {
    assert [r.command] + r.args == ["dnf", verb, "-y"] + packages;
    assert r.description[|prefix|..] == Join(packages, " ");
    DnfLine(verb, packages);
  }

  lemma DnfLine(verb: string, packages: seq<string>)
    requires packages != []
    ensures Join(["dnf", verb, "-y"] + packages, " ") == "dnf " + verb + " -y " + Join(packages, " ")
  {
    assert ["dnf", verb, "-y"] + packages == ["dnf"] + ([verb] + (["-y"] + packages));
    JoinCons("dnf", [verb] + (["-y"] + packages), " ");
    JoinCons(verb, ["-y"] + packages, " ");
    JoinCons("-y", packages, " ");
  }

  /** updatePackages with no package updates the whole system. */
  lemma UpdateAllPackages()
    ensures UpdatePackages([]) == Request("dnf", ["update", "-y"], "Updating all packages")
  {
  }

  // The repository, service and file wrappers below pass no progress slot
  // to executeCommandAsync: a caller submits them with `progressSlot := None`.

  function EnableRepository(repo: string): Request {
    Request("dnf", ["config-manager", "--enable", repo], "Enabling repository: " + repo)
  }

  function DisableRepository(repo: string): Request {
    Request("dnf", ["config-manager", "--disable", repo], "Disabling repository: " + repo)
  }

  function AddRepository(repoUrl: string, repoName: string): Request {
    Request("dnf", ["config-manager", "--add-repo", repoUrl], "Adding repository: " + repoName)
  }

  function EnableSystemdService(service: string): Request {
    Request("systemctl", ["enable", service], "Enabling service: " + service)
  }

  function DisableSystemdService(service: string): Request {
    Request("systemctl", ["disable", service], "Disabling service: " + service)
  }

  function RestartSystemdService(service: string): Request {
    Request("systemctl", ["restart", service], "Restarting service: " + service)
  }

  function DeleteSystemFile(path: string): Request {
    Request("rm", [path], "Deleting system file: " + path)
  }

  /** The command line of a request, as buildCommand renders it. */
  function CommandLine(r: Request): string {
    Join([r.command] + r.args, " ")
  }

  /** A request of a tool and two arguments renders as those three words. */
  lemma CommandLineOfTwo(r: Request, tool: string, verb: string, target: string)
    requires r.command == tool && r.args == [verb, target]
    ensures CommandLine(r) == (tool + " ") + (verb + " ") + target
  {
    assert [r.command] + r.args == [tool] + [verb, target];
    JoinCons(verb, [target], " ");
    JoinCons(tool, [verb, target], " ");
  }

  /** A request of a tool and three arguments renders as those four words,
      each but the last followed by a space. */
  lemma CommandLineOfThree(r: Request, tool: string, a: string, b: string, target: string)
    requires r.command == tool && r.args == [a, b, target]
    ensures CommandLine(r) == (tool + " ") + (a + " ") + (b + " ") + target
  {
    assert [r.command] + r.args == [tool] + [a, b, target];
    JoinCons(b, [target], " ");
    JoinCons(a, [b, target], " ");
    JoinCons(tool, [a, b, target], " ");
  }

  /** The repository wrappers run `dnf config-manager` with the switch their
      name says, the repository or its URL as the last word. */
  lemma RepositoryRequestLines(repo: string, url: string, name: string)
    ensures CommandLine(EnableRepository(repo)) == "dnf " + "config-manager " + "--enable " + repo
    ensures CommandLine(DisableRepository(repo)) == "dnf " + "config-manager " + "--disable " + repo
    ensures CommandLine(AddRepository(url, name)) == "dnf " + "config-manager " + "--add-repo " + url
  {
    assert "dnf" + " " == "dnf ";
    assert "config-manager" + " " == "config-manager ";
    assert "--enable" + " " == "--enable ";
    assert "--disable" + " " == "--disable ";
    assert "--add-repo" + " " == "--add-repo ";
    CommandLineOfThree(EnableRepository(repo), "dnf", "config-manager", "--enable", repo);
    CommandLineOfThree(DisableRepository(repo), "dnf", "config-manager", "--disable", repo);
    CommandLineOfThree(AddRepository(url, name), "dnf", "config-manager", "--add-repo", url);
  }

  /** The service wrappers run `systemctl` with the verb their name says and
      the service as the last word. */
  lemma ServiceRequestLines(service: string)
    ensures CommandLine(EnableSystemdService(service)) == "systemctl " + "enable " + service
    ensures CommandLine(DisableSystemdService(service)) == "systemctl " + "disable " + service
    ensures CommandLine(RestartSystemdService(service)) == "systemctl " + "restart " + service
  {
    assert "systemctl" + " " == "systemctl ";
    assert "enable" + " " == "enable ";
    assert "disable" + " " == "disable ";
    assert "restart" + " " == "restart ";
    CommandLineOfTwo(EnableSystemdService(service), "systemctl", "enable", service);
    CommandLineOfTwo(DisableSystemdService(service), "systemctl", "disable", service);
    CommandLineOfTwo(RestartSystemdService(service), "systemctl", "restart", service);
  }

  /** deleteSystemFile runs `rm <path>`. */
  lemma DeleteRequestLine(path: string)
    ensures CommandLine(DeleteSystemFile(path)) == "rm " + path
  {
    assert [DeleteSystemFile(path).command] + DeleteSystemFile(path).args == ["rm"] + [path];
    JoinCons("rm", [path], " ");
  }
}
