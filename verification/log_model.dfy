/** The parts of the binary-log object model (`Microsoft.VisualStudio.
    ProjectSystem.LogModel`) the summary views read. The model classes are
    reference types and the summaries compare them by identity; here every
    node carries an `id`, and distinct node objects are assumed to carry
    distinct ids, so that value equality is node identity. Times are
    `DateTime` and `TimeSpan` values counted in ticks. */
module LogModel {
  import opened Wrappers

  /** A built project: the targets it ran. */
  datatype Project = Project(id: int, targets: seq<TargetNode>)

  /** A target run: its tasks, and the two fields it is grouped by. */
  datatype TargetNode = TargetNode(
    id: int,
    name: string,
    sourceFilePath: string,
    startTime: int,
    endTime: int,
    tasks: seq<TaskNode>)

  /** A task run: the projects it built (an `MSBuild` task builds others). */
  datatype TaskNode = TaskNode(
    id: int,
    name: string,
    sourceFilePath: string,
    startTime: int,
    endTime: int,
    childProjects: seq<Project>)

  /** An `EvaluatedLocation` of the evaluation profiler. `kind` is the name
      of its `EvaluationLocationKind`, which is what the view shows. */
  datatype Location = Location(
    id: int,
    elementName: string,
    elementDescription: string,
    kind: string,
    file: string,
    line: int,
    exclusiveTime: int,
    children: seq<Location>)

  datatype Pass = Pass(locations: seq<Location>)

  datatype Profile = Profile(passes: seq<Pass>)

  /** An evaluated project; its profile is null unless profiling was on. */
  datatype EvaluatedProject = EvaluatedProject(profile: Option<Profile>)

  datatype Evaluation = Evaluation(evaluatedProjects: seq<EvaluatedProject>)

  /** The build; its project list may be null. */
  datatype Build = Build(projects: Option<seq<Project>>, startTime: int, endTime: int)

  /** The `Log` a replay produces: a build (null when loading failed), the
      evaluations, and the exceptions met while loading. */
  datatype Log = Log(build: Option<Build>, evaluations: seq<Evaluation>, errors: seq<Fault>)

  /** `EndTime - StartTime` of a target. */
  function TargetTime(t: TargetNode): int {
    t.endTime - t.startTime
  }

  /** `EndTime - StartTime` of a task. */
  function TaskTime(t: TaskNode): int {
    t.endTime - t.startTime
  }

  /** `Time.ExclusiveTime` of a location. */
  function LocationTime(l: Location): int {
    l.exclusiveTime
  }
}
