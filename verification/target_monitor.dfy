/** `MSBuildTargetMonitor`: wraps one target run inside the IDE. It builds
    and publishes the target record when created, hands out a progress
    monitor that buffers the run's log, and completes and publishes the
    record on a result or an exception. Clock readings are inputs. */
module TargetMonitor {
  import opened Wrappers
  import opened Targets
  import opened SessionRegistry
  import TargetProgress

  /** A `Stopwatch` started at one clock reading and possibly stopped at a
      later one. */
  datatype Stopwatch = Stopwatch(startedAt: int, stoppedAt: Option<int>)

  /** `Elapsed` read at clock reading `now`. */
  function Elapsed(w: Stopwatch, now: int): int {
    match w.stoppedAt
    case Some(t) => t - w.startedAt
    case None => now - w.startedAt
  }

  /** `Stop`: a running stopwatch freezes at `now`; a stopped one is left
      alone. */
  function Stop(w: Stopwatch, now: int): (r: Stopwatch)
    ensures r.stoppedAt.Some? && r.startedAt == w.startedAt
    ensures w.stoppedAt.Some? ==> r == w
    ensures forall later :: Elapsed(r, later) == Elapsed(w, now)
  {
    if w.stoppedAt.Some? then w else w.(stoppedAt := Some(now))
  }

  datatype TargetMonitor = TargetMonitor(
    target: Target,
    stopwatch: Stopwatch,
    progress: Option<TargetProgress.ProgressMonitor>)

  datatype Creation = Creation(monitor: TargetMonitor, started: Notification)

  /** The constructor: the record takes the project's name, file name and
      dimensions, the target (empty when null) and its build type; the start
      time is set and the stopwatch started before the record is
      published. */
  function New(projectName: string, projectFileName: string, target: Option<string>,
               dimensions: string, utcNow: int, clock: int): (r: Creation)
    ensures r.monitor.target.projectName == projectName
    ensures r.monitor.target.projectFileName == projectFileName
    ensures r.monitor.target.targets == target.GetOr("")
    ensures r.monitor.target.buildType == GetBuildType(target)
    ensures r.monitor.target.dimensions == dimensions
    ensures r.monitor.target.startTime == utcNow
    ensures r.monitor.stopwatch == Stopwatch(clock, None)
    ensures r.monitor.progress == None
    ensures r.started == TargetStarted(r.monitor.target)
  {
    var record := NewTarget(projectName, projectFileName, target.GetOr(""), GetBuildType(target), dimensions);
    var started := record.(startTime := utcNow);
    var m := TargetMonitor(started, Stopwatch(clock, None), None);
    Creation(m, OnTargetStarted(m.target))
  }

  /** `GetProgressMonitor`: the record's log file name is generated first,
      then a fresh buffer writing to that name replaces the current one. */
  function GetProgressMonitor(m: TargetMonitor, ops: TargetOps): (r: TargetMonitor)
    ensures r.target == ops.generateLogFileName(m.target)
    ensures r.progress == Some(TargetProgress.New(r.target.logFileName))
    ensures r.stopwatch == m.stopwatch
  {
    var named := ops.generateLogFileName(m.target);
    TargetMonitor(named, m.stopwatch, Some(TargetProgress.New(named.logFileName)))
  }

  datatype Step = Step(
    monitor: TargetMonitor,
    written: Option<TargetProgress.FileWrite>,
    finished: Option<Notification>)

  /** Stops the stopwatch and disposes the progress monitor, if there is
      one: the part `Dispose`, `OnResult` and `OnException` share. */
  function Shutdown(m: TargetMonitor, now: int): (r: Step)
    ensures r.monitor.target == m.target && r.finished == None
    ensures r.monitor.stopwatch == Stop(m.stopwatch, now)
    ensures m.progress.None? ==> r.monitor.progress == None && r.written == None
    ensures m.progress.Some? ==>
              var d := TargetProgress.Dispose(m.progress.value);
              r.monitor.progress == Some(d.monitor) && r.written == d.written
  {
    var w := Stop(m.stopwatch, now);
    match m.progress
    case None => Step(m.(stopwatch := w), None, None)
    case Some(p) =>
      var d := TargetProgress.Dispose(p);
      Step(TargetMonitor(m.target, w, Some(d.monitor)), d.written, None)
  }

  /** `Dispose`: stops the stopwatch and flushes the log; the record is not
      touched and nothing is published. */
  function Dispose(m: TargetMonitor, now: int): (r: Step)
    ensures r.monitor.target == m.target && r.finished == None
    ensures r.monitor.stopwatch.stoppedAt.Some?
    ensures r.monitor.stopwatch == Stop(m.stopwatch, now)
    ensures m.progress.None? ==> r.monitor.progress == None && r.written == None
    ensures m.progress.Some? ==>
              var d := TargetProgress.Dispose(m.progress.value);
              r.monitor.progress == Some(d.monitor) && r.written == d.written
  {
    Shutdown(m, now)
  }

  /** Completes the record with a status and the elapsed time, then
      publishes it with the running sessions attached. */
  function Finish(m: TargetMonitor, now: int, status: Status, sessionBinLogFileName: string,
                  sessions: Sessions): (r: Step)
    ensures var down := Shutdown(m, now);
            && r.written == down.written
            && r.monitor.stopwatch == down.monitor.stopwatch
            && r.monitor.progress == down.monitor.progress
            && r.monitor.target.status == status
            && r.monitor.target.duration == Elapsed(m.stopwatch, now)
            && r.monitor.target.buildSessionBinLogFileName == sessionBinLogFileName
            && (forall id :: id in r.monitor.target.buildSessions <==> id in sessions && sessions[id].isRunning)
            && r.monitor.target.startTime == m.target.startTime
            && r.monitor.target.targets == m.target.targets
            && r.finished == Some(TargetFinished(r.monitor.target))
  {
    var down := Shutdown(m, now);
    var completed := down.monitor.target.(status := status,
                                          duration := Elapsed(down.monitor.stopwatch, now),
                                          buildSessionBinLogFileName := sessionBinLogFileName);
    var published := OnTargetFinished(completed, sessions);
    Step(down.monitor.(target := published.0), down.written, Some(published.1))
  }

  /** `OnResult`: the status the result maps to (an input, since that
      mapping is a host member), the elapsed time and the session's binary
      log are recorded, then the record is published. */
  function OnResult(m: TargetMonitor, now: int, resultStatus: Status, sessionBinLogFileName: string,
                    sessions: Sessions): (r: Step)
    ensures r.monitor.target.status == resultStatus
    ensures r.monitor.target.duration == Elapsed(m.stopwatch, now)
    ensures r.monitor.target.buildSessionBinLogFileName == sessionBinLogFileName
    ensures r.finished == Some(TargetFinished(r.monitor.target))
    ensures r.written == Shutdown(m, now).written
    ensures r.monitor.stopwatch == Stop(m.stopwatch, now)
    ensures r.monitor.progress == Shutdown(m, now).monitor.progress
    ensures forall id :: id in r.monitor.target.buildSessions <==> id in sessions && sessions[id].isRunning
    ensures r.monitor.target.startTime == m.target.startTime && r.monitor.target.targets == m.target.targets
  {
    Finish(m, now, resultStatus, sessionBinLogFileName, sessions)
  }

  /** `OnException`: the status is `Exception`; otherwise as `OnResult`. */
  function OnException(m: TargetMonitor, now: int, sessionBinLogFileName: string,
                       sessions: Sessions): (r: Step)
    ensures r.monitor.target.status == Exception
    ensures r.monitor.target.duration == Elapsed(m.stopwatch, now)
    ensures r.monitor.target.buildSessionBinLogFileName == sessionBinLogFileName
    ensures r.finished == Some(TargetFinished(r.monitor.target))
    ensures r.written == Shutdown(m, now).written
    ensures r.monitor.stopwatch == Stop(m.stopwatch, now)
    ensures r.monitor.progress == Shutdown(m, now).monitor.progress
    ensures forall id :: id in r.monitor.target.buildSessions <==> id in sessions && sessions[id].isRunning
    ensures r.monitor.target.startTime == m.target.startTime && r.monitor.target.targets == m.target.targets
  {
    Finish(m, now, Exception, sessionBinLogFileName, sessions)
  }

  /** Writes the entries to the progress monitor, if there is one. */
  function WriteLog(m: TargetMonitor, entries: seq<TargetProgress.LogEntry>): (r: TargetMonitor)
    requires m.progress.Some? ==> !m.progress.value.disposed
    ensures r.target == m.target && r.stopwatch == m.stopwatch
    ensures r.progress.Some? <==> m.progress.Some?
  {
    match m.progress
    case None => m
    case Some(p) => m.(progress := Some(TargetProgress.WriteAll(p, entries)))
  }

  /** The run as the project extension drives it: create, get the progress
      monitor, log, complete with a result, dispose. The record is published
      once started and once finished, the log file receives every message
      exactly once, the duration is the time between the first and the
      completing clock reading, and the final disposal changes nothing. */
  lemma ResultThenDispose(projectName: string, projectFileName: string, target: Option<string>,
                          dimensions: string, utcNow: int, ops: TargetOps,
                          entries: seq<TargetProgress.LogEntry>, start: int, finish: int, later: int,
                          resultStatus: Status, sessionBinLogFileName: string, sessions: Sessions)
    requires start <= finish
    ensures var created := New(projectName, projectFileName, target, dimensions, utcNow, start);
            var running := WriteLog(GetProgressMonitor(created.monitor, ops), entries);
            var done := OnResult(running, finish, resultStatus, sessionBinLogFileName, sessions);
            var disposed := Dispose(done.monitor, later);
            && done.written == Some(TargetProgress.FileWrite(running.target.logFileName, TargetProgress.Text(entries)))
            && done.monitor.target.duration == finish - start >= 0
            && done.monitor.target.status == resultStatus
            && disposed.written == None
            && disposed.finished == None
            && disposed.monitor.target == done.monitor.target
  {
    var created := New(projectName, projectFileName, target, dimensions, utcNow, start);
    var withProgress := GetProgressMonitor(created.monitor, ops);
    TargetProgress.LogFileHoldsAllMessages(withProgress.target.logFileName, entries);
    var running := WriteLog(withProgress, entries);
    TargetProgress.FlushAtMostOnce(running.progress.value, true);
  }

  /** Completion and disposal are safe when no progress monitor was ever
      handed out: nothing is written. */
  lemma SafeWithoutProgressMonitor(m: TargetMonitor, now: int, status: Status, binLog: string, sessions: Sessions)
    requires m.progress.None?
    ensures OnResult(m, now, status, binLog, sessions).written == None
    ensures OnException(m, now, binLog, sessions).written == None
    ensures Dispose(m, now).written == None
  {
  }
}
