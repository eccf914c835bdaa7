/** `ProjectSystemService`: the registry of recorded build sessions keyed by
    session id, and the started/finished notifications it publishes for
    target records. Every operation is one atomic step; the lock and the
    hop to the main thread are not modelled. */
module SessionRegistry {
  import opened Wrappers
  import opened Targets
  import opened BuildSessions

  /** The `runningBuildSessions` dictionary. Sessions are never removed. */
  type Sessions = map<int, BuildSession>

  /** Every session is stored under its own id. */
  predicate KeyedById(m: Sessions) {
    forall id | id in m :: m[id].id == id
  }

  /** A notification published to the observers of target records. */
  datatype Notification = TargetStarted(target: Target) | TargetFinished(target: Target)

  /** `OnTargetStarted`: the record is published as it is. */
  function OnTargetStarted(t: Target): (r: Notification)
    ensures r.TargetStarted? && r.target == t
  {
    TargetStarted(t)
  }

  /** `GetBuildSessions`: the stored sessions whose running flag equals the
      argument, with the ids they are stored under. */
  function GetBuildSessions(m: Sessions, running: bool): (r: Sessions)
    ensures forall id :: id in r <==> id in m && m[id].isRunning == running
    ensures forall id | id in r :: r[id] == m[id]
  {
    map id | id in m && m[id].isRunning == running :: m[id]
  }

  /** `OnTargetFinished`: the running sessions are attached to the record,
      by identity, before the record is published. */
  function OnTargetFinished(t: Target, m: Sessions): (r: (Target, Notification))
    ensures r.1 == TargetFinished(r.0)
    ensures forall id :: id in r.0.buildSessions <==> id in m && m[id].isRunning
    ensures r.0 == t.(buildSessions := r.0.buildSessions)
  {
    var attached := t.(buildSessions := GetBuildSessions(m, true).Keys);
    (attached, TargetFinished(attached))
  }

  /** `OnBuildSessionStarted`: a new running session is stored under its id,
      replacing any earlier session with that id. */
  function OnBuildSessionStarted(m: Sessions, e: BuildSessionStartedEvent): (r: Sessions)
    ensures r.Keys == m.Keys + {e.sessionId}
    ensures r[e.sessionId] == BuildSessions.New(e) && r[e.sessionId].isRunning
    ensures forall id | id in m && id != e.sessionId :: r[id] == m[id]
    ensures KeyedById(m) ==> KeyedById(r)
  {
    m[e.sessionId := BuildSessions.New(e)]
  }

  datatype FinishStep = FinishStep(sessions: Sessions, logged: Option<LoggedError>)

  /** `OnBuildSessionFinished`: for a known id, that session's running flag
      is cleared and its binary log is processed (with the given replay
      outcome); an unknown id changes nothing. */
  function OnBuildSessionFinished(m: Sessions, sessionId: int, replay: ReplayOutcome): (r: FinishStep)
    ensures sessionId !in m ==> r == FinishStep(m, None)
    ensures r.sessions.Keys == m.Keys
    ensures forall id | id in m && id != sessionId :: r.sessions[id] == m[id]
    ensures sessionId in m ==>
              var s := r.sessions[sessionId];
              && !s.isRunning
              && s.id == m[sessionId].id
              && s.binLogFileName == m[sessionId].binLogFileName
              && r == (var p := ProcessBuildSession(m[sessionId].(isRunning := false), replay);
                       FinishStep(m[sessionId := p.session], p.logged))
    ensures KeyedById(m) ==> KeyedById(r.sessions)
  {
    if sessionId in m then
      var stopped := m[sessionId].(isRunning := false);
      var p := ProcessBuildSession(stopped, replay);
      FinishStep(m[sessionId := p.session], p.logged)
    else
      FinishStep(m, None)
  }

  /** A session notification as the registry receives it. */
  datatype SessionEvent =
    | SessionStarted(started: BuildSessionStartedEvent)
    | SessionFinished(sessionId: int, replay: ReplayOutcome)

  function Apply(m: Sessions, e: SessionEvent): Sessions {
    match e
    case SessionStarted(s) => OnBuildSessionStarted(m, s)
    case SessionFinished(id, replay) => OnBuildSessionFinished(m, id, replay).sessions
  }

  function ApplyAll(m: Sessions, events: seq<SessionEvent>): Sessions
    decreases |events|
  {
    if events == [] then m else ApplyAll(Apply(m, events[0]), events[1..])
  }

  /** Sessions are never removed, so the set of ids only grows, and every
      session stays stored under its own id. */
  lemma {:induction false} KeysOnlyGrow(m: Sessions, events: seq<SessionEvent>)
    ensures m.Keys <= ApplyAll(m, events).Keys
    ensures KeyedById(m) ==> KeyedById(ApplyAll(m, events))
    decreases |events|
  {
    if events != [] {
      KeysOnlyGrow(Apply(m, events[0]), events[1..]);
    }
  }

  /** Every stored session is either running or not: the two queries split
      the registry. */
  lemma RunningAndStoppedPartition(m: Sessions)
    ensures GetBuildSessions(m, true).Keys + GetBuildSessions(m, false).Keys == m.Keys
    ensures GetBuildSessions(m, true).Keys !! GetBuildSessions(m, false).Keys
  {
  }

  /** Once its session has finished, a session is no longer attached to the
      records that finish later; the other sessions keep their state. */
  lemma FinishedSessionIsNotAttached(m: Sessions, sessionId: int, replay: ReplayOutcome, t: Target)
    requires sessionId in m
    ensures var after := OnBuildSessionFinished(m, sessionId, replay).sessions;
            sessionId !in OnTargetFinished(t, after).0.buildSessions
  {
  }
}
