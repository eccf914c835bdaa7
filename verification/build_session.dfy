/** `BuildSession`: one recorded build session, and the project files found
    by replaying its binary log once the session has ended. */
module BuildSessions {
  import opened Wrappers
  import opened Seqs
  import BinLogProcessor

  /** The "session started" notification. */
  datatype BuildSessionStartedEvent = BuildSessionStartedEvent(sessionId: int, logFile: string)

  datatype BuildSession = BuildSession(
    id: int,
    binLogFileName: string,
    isRunning: bool,
    projectFileNames: seq<string>)

  /** The constructor: id and binary log from the event, running, no
      project files yet. */
  function New(e: BuildSessionStartedEvent): (s: BuildSession)
    ensures s.id == e.sessionId && s.binLogFileName == e.logFile
    ensures s.isRunning && s.projectFileNames == []
  {
    BuildSession(e.sessionId, e.logFile, true, [])
  }

  /** What replaying the session's binary log produced: the
      `ProjectStarted` events it delivered, or the exception it threw. */
  datatype ReplayOutcome = Replayed(events: seq<BinLogProcessor.ProjectStartedEvent>) | ReplayFailed(error: Fault)

  /** An entry written to the host's error log. */
  datatype LoggedError = LoggedError(message: string, error: Fault)

  datatype ProcessStep = ProcessStep(session: BuildSession, logged: Option<LoggedError>)

  /** The message logged when the binary log cannot be processed. */
  function ProcessingErrorMessage(binLogFileName: string): string {
    "Unable to process binlog '" + binLogFileName + "'"
  }

  /** `ProcessBuildSessionAsync`: on success the project-file list becomes
      the processor's collected names; on failure the error is logged,
      nothing is rethrown and the list is left as it was. Either way the id,
      binary log and running flag are unchanged. */
  function ProcessBuildSession(s: BuildSession, outcome: ReplayOutcome): (r: ProcessStep)
    ensures r.session.id == s.id && r.session.binLogFileName == s.binLogFileName
    ensures r.session.isRunning == s.isRunning
    ensures outcome.Replayed? ==>
              r.logged == None &&
              NoDup(r.session.projectFileNames) &&
              Elements(r.session.projectFileNames) == BinLogProcessor.AllEventNames(outcome.events)
    ensures outcome.ReplayFailed? ==>
              r.session == s &&
              r.logged == Some(LoggedError(ProcessingErrorMessage(s.binLogFileName), outcome.error))
  {
    match outcome
    case Replayed(events) =>
      ProcessStep(s.(projectFileNames := BinLogProcessor.ProjectFileNames(events)), None)
    case ReplayFailed(e) =>
      ProcessStep(s, Some(LoggedError(ProcessingErrorMessage(s.binLogFileName), e)))
  }
}
