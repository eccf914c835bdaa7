/** `MSBuildTargetProgressMonitor`: the log text of one invocation, buffered
    in memory and written to the invocation's log file once, on disposal.
    The process variant (`MSBuildProcessProgressMonitor`) only chains its
    writers to this buffer, so it is the same state machine. */
module TargetProgress {
  import opened Wrappers

  /** The one file write the monitor performs. */
  datatype FileWrite = FileWrite(path: string, text: string)

  /** The buffer, the file it is flushed to, and the `disposed` flag. */
  datatype ProgressMonitor = ProgressMonitor(logFileName: string, buffer: string, disposed: bool)

  /** The constructor: an empty buffer, not yet disposed. */
  function New(logFileName: string): (m: ProgressMonitor)
    ensures m.logFileName == logFileName && m.buffer == "" && !m.disposed
  {
    ProgressMonitor(logFileName, "", false)
  }

  /** `OnWriteLog`: the message is appended to the buffer. The buffer is
      released by the flush, so writing after disposal is outside the
      contract. */
  function OnWriteLog(m: ProgressMonitor, message: string): (r: ProgressMonitor)
    requires !m.disposed
    ensures r.buffer == m.buffer + message
    ensures r.logFileName == m.logFileName && !r.disposed
  {
    m.(buffer := m.buffer + message)
  }

  /** `OnWriteErrorLog`: error text goes to the same buffer. */
  function OnWriteErrorLog(m: ProgressMonitor, message: string): (r: ProgressMonitor)
    requires !m.disposed
    ensures r.buffer == m.buffer + message
    ensures r.logFileName == m.logFileName && !r.disposed
  {
    m.(buffer := m.buffer + message)
  }

  datatype DisposeStep = DisposeStep(monitor: ProgressMonitor, written: Option<FileWrite>)

  /** `OnDispose`: the first disposal with `disposing` set marks the monitor
      disposed and writes the whole buffer to the log file (then frees it);
      any other disposal changes and writes nothing. */
  function OnDispose(m: ProgressMonitor, disposing: bool): (r: DisposeStep)
    ensures disposing && !m.disposed ==>
              r.written == Some(FileWrite(m.logFileName, m.buffer)) &&
              r.monitor.disposed && r.monitor.logFileName == m.logFileName
    ensures !disposing || m.disposed ==> r.written == None && r.monitor == m
  {
    if disposing && !m.disposed then
      DisposeStep(m.(disposed := true, buffer := ""), Some(FileWrite(m.logFileName, m.buffer)))
    else
      DisposeStep(m, None)
  }

  /** A disposal as `Dispose()` performs it. */
  function Dispose(m: ProgressMonitor): DisposeStep {
    OnDispose(m, true)
  }

  /** The flush happens at most once: a monitor that has been disposed
      writes nothing more, however it is disposed again. */
  lemma FlushAtMostOnce(m: ProgressMonitor, disposing: bool)
    ensures OnDispose(Dispose(m).monitor, disposing).written == None
    ensures Dispose(m).monitor.disposed
  {
  }

  /** A message written while the monitor runs, on either stream. */
  datatype LogEntry = Output(message: string) | ErrorOutput(message: string)

  /** The messages of the entries, in order, concatenated. */
  function Text(entries: seq<LogEntry>): string {
    if entries == [] then "" else entries[0].message + Text(entries[1..])
  }

  /** The monitor after receiving the entries in order. */
  function WriteAll(m: ProgressMonitor, entries: seq<LogEntry>): (r: ProgressMonitor)
    requires !m.disposed
    ensures !r.disposed && r.logFileName == m.logFileName
    decreases |entries|
  {
    if entries == [] then m
    else
      var next := match entries[0]
        case Output(s) => OnWriteLog(m, s)
        case ErrorOutput(s) => OnWriteErrorLog(m, s);
      WriteAll(next, entries[1..])
  }

  lemma {:induction false} WriteAllAppends(m: ProgressMonitor, entries: seq<LogEntry>)
    requires !m.disposed
    ensures WriteAll(m, entries).buffer == m.buffer + Text(entries)
    decreases |entries|
  {
    if entries != [] {
      var next := if entries[0].Output? then OnWriteLog(m, entries[0].message)
                  else OnWriteErrorLog(m, entries[0].message);
      WriteAllAppends(next, entries[1..]);
      assert next.buffer + Text(entries[1..]) == m.buffer + Text(entries);
    }
  }

  /** The log file receives exactly the messages written on both streams,
      in call order, and only once. */
  lemma LogFileHoldsAllMessages(logFileName: string, entries: seq<LogEntry>)
    ensures Dispose(WriteAll(New(logFileName), entries)).written == Some(FileWrite(logFileName, Text(entries)))
  {
    WriteAllAppends(New(logFileName), entries);
    assert "" + Text(entries) == Text(entries);
  }
}
