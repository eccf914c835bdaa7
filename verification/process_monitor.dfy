/** `MSBuildProcessServiceMonitor`: every build-tool process the host starts
    gets a session id and a target record registered under that id; when the
    process exits, the record is removed, completed and published. Each
    operation is one atomic step; the lock, `Interlocked` and the task
    continuation are not modelled. */
module ProcessMonitor {
  import opened Wrappers
  import opened Text
  import opened Targets
  import ProcessArguments
  import opened SessionRegistry
  import TargetProgress

  const MinInt32: int := -0x8000_0000
  const MaxInt32: int := 0x7FFF_FFFF

  /** `Interlocked.Increment` on a 32-bit counter: it wraps from the largest
      value to the smallest. */
  function Increment(n: int): (r: int)
    requires MinInt32 <= n <= MaxInt32
    ensures MinInt32 <= r <= MaxInt32
    ensures n < MaxInt32 ==> r == n + 1
    ensures n == MaxInt32 ==> r == MinInt32
  {
    if n == MaxInt32 then MinInt32 else n + 1
  }

  /** The name and file name a process record carries (the host translates
      the text; translation is not modelled). */
  const SolutionLabel: string := "Solution"

  /** The target whose process records carry the solution's dimensions. */
  const RestoreGraphTarget: string := "GenerateRestoreGraphFile"

  /** Host members `StartProcess` uses whose bodies are not part of this
      model: the target record's own members, and the static `AddVerbosity`
      (with the verbosity preference applied) and two-argument
      `AddBinLogFileName` of the argument class. */
  datatype Host = Host(
    ops: TargetOps,
    addVerbosity: Option<string> -> string,
    addBinLogFileName: (string, string) -> string)

  /** The monitor's state: the static session counter, the registered
      records, and the progress monitor each started process writes its
      output to (held by the exit continuation of that process). */
  datatype ServiceMonitor = ServiceMonitor(
    sessionId: int,
    buildTargets: map<int, Target>,
    monitors: map<int, TargetProgress.ProgressMonitor>)

  /** The counter is a 32-bit value. */
  predicate InRange(s: ServiceMonitor) {
    MinInt32 <= s.sessionId <= MaxInt32
  }

  /** Every registered record has its progress monitor, and no id handed out
      so far exceeds the counter. */
  predicate Valid(s: ServiceMonitor) {
    && InRange(s)
    && s.buildTargets.Keys <= s.monitors.Keys
    && forall id | id in s.monitors :: id <= s.sessionId
  }

  /** `GetDimensions`: the solution's dimensions (an input, since they come
      from the host's selected solution) when the targets are the restore
      graph target in any letter case, and empty otherwise. */
  function GetDimensions(targets: string, solutionDimensions: string): (r: string)
    ensures EqualsIgnoreCase(RestoreGraphTarget, targets) ==> r == solutionDimensions
    ensures !EqualsIgnoreCase(RestoreGraphTarget, targets) ==> r == ""
  {
    if EqualsIgnoreCase(RestoreGraphTarget, targets) then solutionDimensions else ""
  }

  /** The record `StartProcess` builds before calling `Start` on it. */
  function InitialRecord(a: ProcessArguments.ProcessArguments, solutionDimensions: string): (t: Target)
    ensures t.projectName == SolutionLabel && t.projectFileName == SolutionLabel
    ensures t.targets == a.targets && t.buildType == a.buildType
    ensures t.dimensions == GetDimensions(a.targets, solutionDimensions)
  {
    NewTarget(SolutionLabel, SolutionLabel, a.targets, a.buildType,
              GetDimensions(a.targets, solutionDimensions))
  }

  /** The process launch the host performs. */
  datatype Launch = Launch(command: string, arguments: string, workingDirectory: string)

  /** The externally visible actions of a start, in the order they happen. */
  datatype Action =
    | Registered(id: int, target: Target)
    | Published(notification: Notification)
    | Launched(launch: Launch)

  datatype StartStep =
    | Started(monitor: ServiceMonitor, id: int, target: Target, actions: seq<Action>)
    | ArgumentsRejected(monitor: ServiceMonitor, error: ProcessArguments.ArgumentError)

  /** `StartProcess`: the counter is incremented first; then the arguments
      are parsed, which may throw (the id is then used up and nothing is
      registered); the record is started and stored under the new id before
      it is published and before the process is launched with the rewritten
      arguments. */
  function StartProcess(s: ServiceMonitor, host: Host, command: string, arguments: Option<string>,
                        workingDirectory: string, solutionDimensions: string): (r: StartStep)
    requires InRange(s)
    ensures r.monitor.sessionId == Increment(s.sessionId)
    ensures r.ArgumentsRejected? <==> ProcessArguments.New(arguments).Failure?
    ensures r.ArgumentsRejected? ==>
              r.monitor.buildTargets == s.buildTargets && r.monitor.monitors == s.monitors &&
              r.error == ProcessArguments.New(arguments).error
    ensures r.Started? ==>
              var parsed := ProcessArguments.New(arguments).value;
              && r.id == r.monitor.sessionId
              && r.target == host.ops.start(InitialRecord(parsed, solutionDimensions))
              && r.monitor.buildTargets == s.buildTargets[r.id := r.target]
              && r.monitor.monitors == s.monitors[r.id := TargetProgress.New(r.target.logFileName)]
              && r.actions == [
                   Registered(r.id, r.target),
                   Published(TargetStarted(r.target)),
                   Launched(Launch(command,
                                   host.addBinLogFileName(host.addVerbosity(arguments), r.target.binLogFileName),
                                   workingDirectory))]
  {
    var id := Increment(s.sessionId);
    var counted := s.(sessionId := id);
    match ProcessArguments.New(arguments)
    case Failure(e) => ArgumentsRejected(counted, e)
    case Success(parsed) =>
      var target := host.ops.start(InitialRecord(parsed, solutionDimensions));
      var args := host.addBinLogFileName(host.addVerbosity(arguments), target.binLogFileName);
      var registered := counted.(buildTargets := s.buildTargets[id := target]);
      var notification := OnTargetStarted(target);
      var withMonitor := registered.(monitors := s.monitors[id := TargetProgress.New(target.logFileName)]);
      Started(withMonitor, id, target,
              [Registered(id, target), Published(notification), Launched(Launch(command, args, workingDirectory))])
  }

  /** Output of a running process reaching its progress monitor. */
  function OnProcessOutput(s: ServiceMonitor, id: int, entry: TargetProgress.LogEntry): (r: ServiceMonitor)
    requires id in s.monitors && !s.monitors[id].disposed
    ensures r.monitors.Keys == s.monitors.Keys
    ensures r.monitors[id].buffer == s.monitors[id].buffer + entry.message
    ensures r.sessionId == s.sessionId && r.buildTargets == s.buildTargets
  {
    var m := s.monitors[id];
    var next := match entry
      case Output(text) => TargetProgress.OnWriteLog(m, text)
      case ErrorOutput(text) => TargetProgress.OnWriteErrorLog(m, text);
    s.(monitors := s.monitors[id := next])
  }

  /** How a process task ended. */
  datatype ProcessOutcome = Faulted(error: Fault) | Canceled | Exited(exitCode: int)

  /** Which completion member the exit handler calls on the record. */
  datatype Completion = CompletedWith(status: Status) | Threw(error: Fault)

  /** The status mapping, in priority order: a faulted task throws its
      exception into the record, a canceled one has failed, exit code 0 has
      finished and any other code has failed. */
  function CompletionOf(outcome: ProcessOutcome): (c: Completion)
    ensures c.Threw? <==> outcome.Faulted?
    ensures c.Threw? ==> c.error == outcome.error
    ensures c == CompletedWith(Finished) <==> outcome == Exited(0)
    ensures c == CompletedWith(Failed) <==> outcome.Canceled? || (outcome.Exited? && outcome.exitCode != 0)
  {
    match outcome
    case Faulted(e) => Threw(e)
    case Canceled => CompletedWith(Failed)
    case Exited(code) => if code == 0 then CompletedWith(Finished) else CompletedWith(Failed)
  }

  /** The record after the completion member has run. */
  function Complete(t: Target, ops: TargetOps, c: Completion): Target {
    match c
    case CompletedWith(status) => ops.onResult(t, status)
    case Threw(e) => ops.onException(t, e)
  }

  datatype ExitStep = ExitStep(
    monitor: ServiceMonitor,
    written: Option<TargetProgress.FileWrite>,
    finished: Option<Notification>)

  /** `OnMSBuildProcessExited`: a registered id is removed from the map and
      its record completed and published, with the running sessions
      attached; an id not in the map (a second exit) changes no record and
      publishes nothing. The progress monitor is disposed on both paths, so
      its log is flushed once. */
  function OnProcessExited(s: ServiceMonitor, ops: TargetOps, id: int, outcome: ProcessOutcome,
                           sessions: Sessions): (r: ExitStep)
    ensures r.monitor.sessionId == s.sessionId
    ensures r.monitor.buildTargets == s.buildTargets - {id}
    ensures r.monitor.monitors.Keys == s.monitors.Keys
    ensures forall other | other in s.monitors && other != id :: r.monitor.monitors[other] == s.monitors[other]
    ensures id in s.monitors ==>
              var d := TargetProgress.Dispose(s.monitors[id]);
              r.monitor.monitors[id] == d.monitor && r.written == d.written
    ensures id !in s.monitors ==> r.written == None
    ensures id !in s.buildTargets ==> r.finished == None
    ensures id in s.buildTargets ==>
              r.finished == Some(OnTargetFinished(Complete(s.buildTargets[id], ops, CompletionOf(outcome)), sessions).1)
  {
    var disposed := if id in s.monitors then Some(TargetProgress.Dispose(s.monitors[id])) else None;
    var monitors := if disposed.Some? then s.monitors[id := disposed.value.monitor] else s.monitors;
    var written := if disposed.Some? then disposed.value.written else None;
    if id in s.buildTargets then
      var target := Complete(s.buildTargets[id], ops, CompletionOf(outcome));
      ExitStep(ServiceMonitor(s.sessionId, s.buildTargets - {id}, monitors), written,
               Some(OnTargetFinished(target, sessions).1))
    else
      ExitStep(s.(monitors := monitors), written, None)
  }

  // ---------------------------------------------------------------------
  // Properties

  /** A start hands out an id above every id handed out before, so no id is
      reused while the counter has not wrapped. */
  lemma StartGivesFreshId(s: ServiceMonitor, host: Host, command: string, arguments: Option<string>,
                          workingDirectory: string, solutionDimensions: string)
    requires Valid(s) && s.sessionId < MaxInt32
    ensures var r := StartProcess(s, host, command, arguments, workingDirectory, solutionDimensions);
            && r.monitor.sessionId == s.sessionId + 1
            && Valid(r.monitor)
            && (r.Started? ==> r.id !in s.monitors && r.id !in s.buildTargets)
  {
  }

  /** An exit keeps the state valid. */
  lemma ExitKeepsValid(s: ServiceMonitor, ops: TargetOps, id: int, outcome: ProcessOutcome, sessions: Sessions)
    requires Valid(s)
    ensures Valid(OnProcessExited(s, ops, id, outcome, sessions).monitor)
  {
  }

  /** A second exit for the same id changes nothing, writes no log and
      publishes nothing. */
  lemma SecondExitIsIgnored(s: ServiceMonitor, ops: TargetOps, id: int, first: ProcessOutcome,
                            second: ProcessOutcome, sessions: Sessions)
    ensures var once := OnProcessExited(s, ops, id, first, sessions).monitor;
            var twice := OnProcessExited(once, ops, id, second, sessions);
            twice.monitor == once && twice.written == None && twice.finished == None
  {
    var once := OnProcessExited(s, ops, id, first, sessions).monitor;
    if id in s.monitors {
      TargetProgress.FlushAtMostOnce(s.monitors[id], true);
    }
    if id in once.monitors {
      assert once.monitors == once.monitors[id := once.monitors[id]];
    }
  }

  /** A call the host makes on the monitor. */
  datatype Call =
    | StartCall(command: string, arguments: Option<string>, workingDirectory: string)
    | ExitCall(id: int, outcome: ProcessOutcome)

  /** Runs the calls in order, returning the final state and the ids the
      starts used, including those of starts whose arguments were rejected. */
  function Run(s: ServiceMonitor, host: Host, solutionDimensions: string, sessions: Sessions,
               calls: seq<Call>): (r: (ServiceMonitor, seq<int>))
    requires InRange(s)
    ensures InRange(r.0)
    decreases |calls|
  {
    if calls == [] then (s, [])
    else
      match calls[0]
      case StartCall(command, arguments, wd) =>
        var step := StartProcess(s, host, command, arguments, wd, solutionDimensions);
        var rest := Run(step.monitor, host, solutionDimensions, sessions, calls[1..]);
        (rest.0, [step.monitor.sessionId] + rest.1)
      case ExitCall(id, outcome) =>
        var step := OnProcessExited(s, host.ops, id, outcome, sessions);
        Run(step.monitor, host, solutionDimensions, sessions, calls[1..])
  }

  /** Ids strictly increasing, all above `lo` and at most `hi`. */
  predicate Increasing(ids: seq<int>, lo: int, hi: int) {
    && (forall i | 0 <= i < |ids| :: lo < ids[i] <= hi)
    && (forall i, j | 0 <= i < j < |ids| :: ids[i] < ids[j])
  }

  lemma IncreasingCons(id: int, rest: seq<int>, lo: int, hi: int)
    requires lo < id <= hi && Increasing(rest, id, hi)
    ensures Increasing([id] + rest, lo, hi)
  {
    var ids := [id] + rest;
    assert forall i | 1 <= i < |ids| :: ids[i] == rest[i - 1];
  }

  /** A start as the first call: its id heads the ids of the run. */
  lemma RunStart(s: ServiceMonitor, host: Host, solutionDimensions: string, sessions: Sessions, calls: seq<Call>)
    requires InRange(s) && calls != [] && calls[0].StartCall?
    ensures var step := StartProcess(s, host, calls[0].command, calls[0].arguments, calls[0].workingDirectory,
                                     solutionDimensions).monitor;
            var rest := Run(step, host, solutionDimensions, sessions, calls[1..]);
            Run(s, host, solutionDimensions, sessions, calls) == (rest.0, [step.sessionId] + rest.1)
  {
  }

  /** Until the counter wraps, the ids of successive starts are strictly
      increasing, all above the counter's starting value, and the state
      stays valid. */
  lemma {:induction false} IdsStrictlyIncrease(s: ServiceMonitor, host: Host, solutionDimensions: string,
                                               sessions: Sessions, calls: seq<Call>)
    requires Valid(s)
    requires s.sessionId + |calls| <= MaxInt32
    ensures var r := Run(s, host, solutionDimensions, sessions, calls);
            && Valid(r.0)
            && r.0.sessionId >= s.sessionId
            && Increasing(r.1, s.sessionId, r.0.sessionId)
    decreases |calls|
  {
    if calls != [] {
      match calls[0]
      case StartCall(command, arguments, wd) =>
        var step := StartProcess(s, host, command, arguments, wd, solutionDimensions).monitor;
        StartGivesFreshId(s, host, command, arguments, wd, solutionDimensions);
        IdsStrictlyIncrease(step, host, solutionDimensions, sessions, calls[1..]);
        RunStart(s, host, solutionDimensions, sessions, calls);
        var rest := Run(step, host, solutionDimensions, sessions, calls[1..]);
        IncreasingCons(step.sessionId, rest.1, s.sessionId, rest.0.sessionId);
      case ExitCall(id, outcome) =>
        var step := OnProcessExited(s, host.ops, id, outcome, sessions);
        ExitKeepsValid(s, host.ops, id, outcome, sessions);
        IdsStrictlyIncrease(step.monitor, host, solutionDimensions, sessions, calls[1..]);
    }
  }

  /** The counter wraps: the start after the largest id hands out the
      smallest 32-bit value. */
  lemma CounterWraps()
    ensures Increment(MaxInt32) == MinInt32
  {
  }

  /** The dimensions lookup ignores letter case but compares the whole
      target list. */
  lemma DimensionsOnlyForRestoreGraph(d: string)
    ensures GetDimensions("generaterestoregraphfile", d) == d
    ensures GetDimensions("GenerateRestoreGraphFile;Build", "x") == ""
    ensures GetDimensions("", "x") == ""
  {
    assert EqualsIgnoreCase(RestoreGraphTarget, "generaterestoregraphfile");
  }
}
