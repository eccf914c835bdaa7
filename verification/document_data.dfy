/** `BinaryLogDocumentData`: loads a binary log into a `Log`, turning any
    replay failure into a log that carries the failure, and raises `Loaded`
    once the log is set. */
module DocumentData {
  import opened Wrappers
  import opened LogModel
  import Summary

  /** How replaying the file ended: the model builder's log, an
      `AggregateException` with its inner exceptions, or another exception.
      Replay and the model builder are not part of this model. */
  datatype ReplayOutcome =
    | Replayed(log: Log)
    | AggregateFailure(innerExceptions: seq<Fault>)
    | OtherFailure(error: Fault)

  /** The `Log` property (null before the first load) and the logs the
      `Loaded` handlers observed, one per raise, in order. */
  datatype Document = Document(log: Option<Log>, loadedSeen: seq<Log>)

  const Initial := Document(None, [])

  /** The log a failed load stores: no build, no evaluations, the errors. */
  predicate IsFailureLog(log: Log, errors: seq<Fault>) {
    log.build.None? && log.evaluations == [] && log.errors == errors
  }

  /** `Load`: no replay exception escapes; the log is always set, and
      `Loaded` is raised exactly once, after it is set. */
  function Load(d: Document, outcome: ReplayOutcome): (r: Document)
    ensures r.log.Some?
    ensures r.loadedSeen == d.loadedSeen + [r.log.value]
    ensures outcome.Replayed? ==> r.log.value == outcome.log
    ensures outcome.AggregateFailure? ==> IsFailureLog(r.log.value, outcome.innerExceptions)
    ensures outcome.OtherFailure? ==> IsFailureLog(r.log.value, [outcome.error]) && |r.log.value.errors| == 1
  {
    var log := match outcome
      case Replayed(l) => l
      case AggregateFailure(inner) => Log(None, [], inner)
      case OtherFailure(e) => Log(None, [], [e]);
    Document(Some(log), d.loadedSeen + [log])
  }

  /** A failed load leaves nothing to summarise: building the view models
      from its log adds no row, whatever the failure. */
  lemma FailedLoadShowsNoRows(d: Document, outcome: ReplayOutcome, vm: Summary.ViewModels)
    requires !outcome.Replayed?
    ensures Summary.Build(vm, Load(d, outcome).log.value) == vm
    ensures Load(d, outcome).log.value.build.None?
  {
  }

  /** Loading twice raises `Loaded` twice, and the handlers see the logs in
      load order; the property holds the latest. */
  lemma LoadedOncePerLoad(first: ReplayOutcome, second: ReplayOutcome)
    ensures var once := Load(Initial, first);
            var twice := Load(once, second);
            && |twice.loadedSeen| == 2
            && twice.loadedSeen[0] == once.log.value
            && twice.loadedSeen[1] == twice.log.value
  {
  }
}
