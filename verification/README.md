# Build logging tools: a Dafny model

This project models the core of the project-system tools for MonoDevelop. It
has three parts:

- **The build-log summaries** (`BinaryLogViewModels`). A replayed binary
  build log is a tree: projects hold targets, targets hold tasks, and tasks
  build child projects. Evaluation locations form their own tree. The
  summaries collect every target, task and evaluation location of that tree,
  deduplicated the way LINQ's `Union` does. They then group the nodes by
  key. Each row gets a count, a summed time and that time's share of the
  build's total time. The document loading them
  (`BinaryLogDocumentData.Load`) is modelled with it.
- **The process arguments** (`MSBuildProcessArguments`) and
  `MSBuildTarget.GetBuildType`. These turn a build-tool command line into
  a target list and a build type.
- **The bookkeeping state machines.** These are:
  - the per-process monitor (`MSBuildProcessServiceMonitor`)
  - the session registry (`ProjectSystemService`)
  - recorded build sessions (`BuildSession`, `BinaryLogProcessor`)
  - the per-target monitor (`MSBuildTargetMonitor`)
  - the per-target log buffer (`MSBuildTargetProgressMonitor`)

Every operation is a pure function over immutable datatypes. The mutable
objects of the program become state values that a function takes and
returns. A side effect becomes a value in the result:
- a file written
- a notification published
- an error logged
- the process launch requested

The host services the program calls, whose code is not part of this model,
are function-typed parameters. Examples are `MSBuildTarget.Start`,
`GenerateLogFileName` and the completion members. Clock readings and replay
results are inputs.

Modules, leaves first:

| module | file | models |
|---|---|---|
| `Wrappers` | wrappers.dfy | `Option`, `Result`, and `Fault` for an exception object |
| `Seqs` | seqs.dfy | duplicate-free sequences, LINQ `Distinct`/`Union`, sums |
| `Text` | text.dfy | `Split`, `Join`, `StartsWith`, ordinal case-insensitive equality |
| `Targets` | targets.dfy | the `MSBuildTarget` record and `GetBuildType` |
| `ProcessArguments` | process_arguments.dfy | `MSBuildProcessArguments` |
| `TargetProgress` | target_progress.dfy | `MSBuildTargetProgressMonitor` |
| `BinLogProcessor` | binlog_processor.dfy | `BinaryLogProcessor` |
| `BuildSessions` | build_session.dfy | `BuildSession` |
| `SessionRegistry` | session_registry.dfy | `ProjectSystemService` |
| `ProcessMonitor` | process_monitor.dfy | `MSBuildProcessServiceMonitor` |
| `TargetMonitor` | target_monitor.dfy | `MSBuildTargetMonitor` |
| `LogModel` | log_model.dfy | the parts of the binary-log object model the summaries read |
| `Grouping` | grouping.dfy | LINQ `GroupBy` |
| `Collect` | collect.dfy | the `Collect*` helpers of `BinaryLogViewModels` |
| `Summary` | summary.dfy | `BinaryLogViewModels.Build` |
| `DocumentData` | document_data.dfy | `BinaryLogDocumentData.Load` |

Some behaviour of the code is kept as written, and the lemmas state it:
- `--target:Build` contributes `uild`, because the code skips one character
  past the switch.
- `-target:X` contributes `rget:X`, because any part starting with `-t`
  takes the short-switch offset.
- Empty contributions before the first non-empty one leave no `;` behind,
  because the `;` is only added to a non-empty builder.
- A target list is a full build only when it is exactly `Build`, `Clean`
  or `Pack`, with matching letter case.
- A zero total time gives the row ratio NaN or an infinity, because the
  division is not guarded. The model follows the code (`Summary.Ratio` has
  a `NotFinite` case).

## Model

Source paths are relative to the repository root.

| member | source | states |
|---|---|---|
| Targets.GetBuildType | src/MonoDevelop.ProjectSystem.Tools/MonoDevelop.ProjectSystem.Tools/MSBuildTarget.cs:45-58 | The build type is empty exactly for a null or empty target string. It is `Build` exactly when the whole string is `Build`, `Clean` or `Pack`. It is `DesignTimeBuild` exactly for every other non-empty string. |
| Targets.BuildTypeIsOneOfThree | src/MonoDevelop.ProjectSystem.Tools/MonoDevelop.ProjectSystem.Tools/MSBuildTarget.cs:45-58 | Every target string gets one of the three build types. |
| Targets.JoinedOrRecasedTargetsAreDesignTime | src/MonoDevelop.ProjectSystem.Tools/MonoDevelop.ProjectSystem.Tools/MSBuildTarget.cs:51-57 | These are design-time builds, because the comparison is case-sensitive and whole-string: `Build;Clean`, `build` and `Restore`. `Pack` is a full build. |
| Text.Split | src/MonoDevelop.ProjectSystem.Tools/MonoDevelop.ProjectSystem.Tools/MSBuildProcessArguments.cs:56 | Splitting on spaces gives at least one part, and no part contains a space. |
| Text.JoinSplit | src/MonoDevelop.ProjectSystem.Tools/MonoDevelop.ProjectSystem.Tools/MSBuildProcessArguments.cs:56 | Joining the parts with the separator gives back the argument string: the split loses no text. |
| Text.SplitJoin | src/MonoDevelop.ProjectSystem.Tools/MonoDevelop.ProjectSystem.Tools/MSBuildProcessArguments.cs:56 | Splitting a join of separator-free parts gives back those parts. |
| ProcessArguments.Substring | src/MonoDevelop.ProjectSystem.Tools/MonoDevelop.ProjectSystem.Tools/MSBuildProcessArguments.cs:59-61 | `Substring(start)` succeeds exactly when `start` is at most the length. On success it is the text after `start`. Otherwise it is the out-of-range exception. |
| ProcessArguments.Contribution | src/MonoDevelop.ProjectSystem.Tools/MonoDevelop.ProjectSystem.Tools/MSBuildProcessArguments.cs:58-62 | A `--target:` part contributes its text from index 10. Otherwise a `/t` or `-t` part contributes from index 3. Any other part contributes nothing. A part shorter than its offset throws. |
| ProcessArguments.AppendTargets | src/MonoDevelop.ProjectSystem.Tools/MonoDevelop.ProjectSystem.Tools/MSBuildProcessArguments.cs:69-76 | A `;` is inserted before the new targets exactly when the builder is non-empty. |
| ProcessArguments.ParsePartsJoins | src/MonoDevelop.ProjectSystem.Tools/MonoDevelop.ProjectSystem.Tools/MSBuildProcessArguments.cs:50-76 | The builder loop fails exactly when some part throws, with the first such part's exception. Otherwise it yields the contributions joined with `;`, after dropping the empty ones before the first non-empty one. |
| ProcessArguments.Parse | src/MonoDevelop.ProjectSystem.Tools/MonoDevelop.ProjectSystem.Tools/MSBuildProcessArguments.cs:50-67 | Parsing succeeds exactly when no space-separated part throws. The target list is the declarative join of the contributions. On failure the error is the first throwing part's. |
| ProcessArguments.New | src/MonoDevelop.ProjectSystem.Tools/MonoDevelop.ProjectSystem.Tools/MSBuildProcessArguments.cs:36-40 | A null argument string is stored as empty. The targets are the parse result and the build type is `GetBuildType` of them. A parse exception escapes the constructor. |
| ProcessArguments.ToString | src/MonoDevelop.ProjectSystem.Tools/MonoDevelop.ProjectSystem.Tools/MSBuildProcessArguments.cs:42-45 | The stored argument string is returned unchanged. |
| ProcessArguments.ToStringRoundTrip | src/MonoDevelop.ProjectSystem.Tools/MonoDevelop.ProjectSystem.Tools/MSBuildProcessArguments.cs:36-45 | `ToString` gives back the constructor's argument string, and constructing from it again gives the same arguments. |
| ProcessArguments.QuotedBinLogArgument | src/MonoDevelop.ProjectSystem.Tools/MonoDevelop.ProjectSystem.Tools/MSBuildProcessArguments.cs:83-86 | The result is a space, `-bl:`, then the path between double quotes, with the path unchanged. |
| ProcessArguments.AddBinLogFileName | src/MonoDevelop.ProjectSystem.Tools/MonoDevelop.ProjectSystem.Tools/MSBuildProcessArguments.cs:78-86 | The result is the unchanged argument string followed by ` -bl:"<path>"`. |
| ProcessArguments.BinLogSwitchKeepsTargets | src/MonoDevelop.ProjectSystem.Tools/MonoDevelop.ProjectSystem.Tools/MSBuildProcessArguments.cs:78-86 | When the path has no space, adding the binary-log switch leaves the parsed targets and any parse error as they were. |
| ProcessArguments.TargetsJoinNonEmptyContributions | src/MonoDevelop.ProjectSystem.Tools/MonoDevelop.ProjectSystem.Tools/MSBuildProcessArguments.cs:50-76 | When every contribution is non-empty, the targets are exactly the contributions joined with `;`. |
| ProcessArguments.NoTargetSwitchMeansNoTargets | src/MonoDevelop.ProjectSystem.Tools/MonoDevelop.ProjectSystem.Tools/MSBuildProcessArguments.cs:50-67 | Without a target switch, the targets and the build type are empty. |
| ProcessArguments.NullArgumentsAreEmpty | src/MonoDevelop.ProjectSystem.Tools/MonoDevelop.ProjectSystem.Tools/MSBuildProcessArguments.cs:36-45 | Null arguments behave as the empty string and give empty arguments, targets and build type. |
| ProcessArguments.FixedOffsetContributions | src/MonoDevelop.ProjectSystem.Tools/MonoDevelop.ProjectSystem.Tools/MSBuildProcessArguments.cs:58-61 | The fixed offsets on sample parts: `--target:Build` gives `uild`, `-target:X` gives `rget:X`, `/tv:15.0` gives `:15.0` and `-t:Restore` gives `Restore`. `-bl:x` gives nothing. |
| ProcessArguments.TooShortSwitchesThrow | src/MonoDevelop.ProjectSystem.Tools/MonoDevelop.ProjectSystem.Tools/MSBuildProcessArguments.cs:58-61 | A bare `/t`, `-t` or `--target:` throws the out-of-range exception. |
| ProcessArguments.OneSwitch | src/MonoDevelop.ProjectSystem.Tools/MonoDevelop.ProjectSystem.Tools/MSBuildProcessArguments.cs:50-67 | An argument string that is a single switch has that switch's contribution as its targets. |
| ProcessArguments.RestoreSwitchIsDesignTime | src/MonoDevelop.ProjectSystem.Tools/MonoDevelop.ProjectSystem.Tools/MSBuildProcessArguments.cs:36-67 | `-t:Restore` targets `Restore` and is a design-time build. |
| ProcessArguments.BuildSwitchIsBuild | src/MonoDevelop.ProjectSystem.Tools/MonoDevelop.ProjectSystem.Tools/MSBuildProcessArguments.cs:36-67 | `-t:Build` targets `Build` and is a full build. |
| TargetProgress.New | src/MonoDevelop.ProjectSystem.Tools/MonoDevelop.ProjectSystem.Tools/MSBuildTargetProgressMonitor.cs:41-44 | A new monitor has an empty buffer for the given log file and is not disposed. |
| TargetProgress.OnWriteLog | src/MonoDevelop.ProjectSystem.Tools/MonoDevelop.ProjectSystem.Tools/MSBuildTargetProgressMonitor.cs:50-55 | Log text is appended to the buffer and nothing else changes. |
| TargetProgress.OnWriteErrorLog | src/MonoDevelop.ProjectSystem.Tools/MonoDevelop.ProjectSystem.Tools/MSBuildTargetProgressMonitor.cs:57-62 | Error text is appended to the same buffer. |
| TargetProgress.OnDispose | src/MonoDevelop.ProjectSystem.Tools/MonoDevelop.ProjectSystem.Tools/MSBuildTargetProgressMonitor.cs:64-80 | The first disposal with `disposing` set writes the whole buffer to the log file and marks the monitor disposed. Any other call writes nothing and changes nothing. |
| TargetProgress.FlushAtMostOnce | src/MonoDevelop.ProjectSystem.Tools/MonoDevelop.ProjectSystem.Tools/MSBuildTargetProgressMonitor.cs:64-74 | After `Dispose` the monitor is disposed, and a further disposal writes nothing. |
| TargetProgress.WriteAllAppends | src/MonoDevelop.ProjectSystem.Tools/MonoDevelop.ProjectSystem.Tools/MSBuildTargetProgressMonitor.cs:50-62 | Any interleaving of output and error messages leaves the buffer holding all of them, in order. |
| TargetProgress.LogFileHoldsAllMessages | src/MonoDevelop.ProjectSystem.Tools/MonoDevelop.ProjectSystem.Tools/MSBuildTargetProgressMonitor.cs:41-80 | From creation to disposal, the log file receives exactly the messages of both streams, in order, in one write. |
| BinLogProcessor.AddName | src/MonoDevelop.ProjectSystem.Tools/MonoDevelop.ProjectSystem.Tools/BinaryLogProcessor.cs:66-68 | Adding a name adds it to the set. A known name leaves the set unchanged, and no duplicate appears. |
| BinLogProcessor.AddProperties | src/MonoDevelop.ProjectSystem.Tools/MonoDevelop.ProjectSystem.Tools/BinaryLogProcessor.cs:70-79 | Exactly the values of the `ProjectFullPath` entries are added, without duplicates. |
| BinLogProcessor.ProjectStarted | src/MonoDevelop.ProjectSystem.Tools/MonoDevelop.ProjectSystem.Tools/BinaryLogProcessor.cs:63-80 | The set grows by the event's non-empty project file and its full-path properties, and stays duplicate-free. |
| BinLogProcessor.Replay | src/MonoDevelop.ProjectSystem.Tools/MonoDevelop.ProjectSystem.Tools/BinaryLogProcessor.cs:58-80 | Replaying events adds the names of all of them. |
| BinLogProcessor.ProjectFileNames | src/MonoDevelop.ProjectSystem.Tools/MonoDevelop.ProjectSystem.Tools/BinaryLogProcessor.cs:49-61 | After processing, the project file names are every name the events contributed, each exactly once. |
| BinLogProcessor.AddPropertiesKeepsKnownNames | src/MonoDevelop.ProjectSystem.Tools/MonoDevelop.ProjectSystem.Tools/BinaryLogProcessor.cs:70-79 | Properties naming only known files leave the set unchanged. |
| BinLogProcessor.ProjectStartedIdempotent | src/MonoDevelop.ProjectSystem.Tools/MonoDevelop.ProjectSystem.Tools/BinaryLogProcessor.cs:63-80 | Handling the same event twice is the same as handling it once. |
| BinLogProcessor.OnlyFullPathPropertyCounts | src/MonoDevelop.ProjectSystem.Tools/MonoDevelop.ProjectSystem.Tools/BinaryLogProcessor.cs:63-80 | A `ProjectFullPath` property names a file even when `ProjectFile` is empty. Other properties name nothing. |
| BuildSessions.New | src/MonoDevelop.ProjectSystem.Tools/MonoDevelop.ProjectSystem.Tools/BuildSession.cs:38-44 | A session takes its id and binary log from the start event, is running, and has no project files. |
| BuildSessions.ProcessBuildSession | src/MonoDevelop.ProjectSystem.Tools/MonoDevelop.ProjectSystem.Tools/BuildSession.cs:56-72 | On a successful replay, the project files become the names the log's events contribute, each once. On failure the session is unchanged and an error naming the binary log is logged. Id, binary log and running flag never change. |
| SessionRegistry.OnTargetStarted | src/MonoDevelop.ProjectSystem.Tools/MonoDevelop.ProjectSystem.Tools/ProjectSystemService.cs:46-51 | The record is published as started, unchanged. |
| SessionRegistry.GetBuildSessions | src/MonoDevelop.ProjectSystem.Tools/MonoDevelop.ProjectSystem.Tools/ProjectSystemService.cs:81-94 | The result holds exactly the stored sessions whose running flag equals the argument, unchanged. |
| SessionRegistry.OnTargetFinished | src/MonoDevelop.ProjectSystem.Tools/MonoDevelop.ProjectSystem.Tools/ProjectSystemService.cs:53-60 | The record gets exactly the running sessions, nothing else of it changes, and the "finished" notification carries it. |
| SessionRegistry.OnBuildSessionStarted | src/MonoDevelop.ProjectSystem.Tools/MonoDevelop.ProjectSystem.Tools/ProjectSystemService.cs:62-68 | A new running session is stored under its id, which may replace an earlier one. Other sessions are untouched, and sessions stay keyed by their ids. |
| SessionRegistry.OnBuildSessionFinished | src/MonoDevelop.ProjectSystem.Tools/MonoDevelop.ProjectSystem.Tools/ProjectSystemService.cs:70-79 | An unknown id changes nothing. A known session stops running and is then processed. No session is added or removed. |
| SessionRegistry.KeysOnlyGrow | src/MonoDevelop.ProjectSystem.Tools/MonoDevelop.ProjectSystem.Tools/ProjectSystemService.cs:43-79 | Over any sequence of session events, no session is ever removed and every session stays keyed by its id. |
| SessionRegistry.RunningAndStoppedPartition | src/MonoDevelop.ProjectSystem.Tools/MonoDevelop.ProjectSystem.Tools/ProjectSystemService.cs:81-94 | The running and the stopped queries split the stored sessions between them. |
| SessionRegistry.FinishedSessionIsNotAttached | src/MonoDevelop.ProjectSystem.Tools/MonoDevelop.ProjectSystem.Tools/ProjectSystemService.cs:53-79 | A target that finishes after a session has finished does not get that session. |
| ProcessMonitor.Increment | src/MonoDevelop.ProjectSystem.Tools/MonoDevelop.ProjectSystem.Tools/MSBuildProcessServiceMonitor.cs:58 | The session counter is a 32-bit integer. It goes up by one, and wraps from the largest value to the smallest. |
| ProcessMonitor.GetDimensions | src/MonoDevelop.ProjectSystem.Tools/MonoDevelop.ProjectSystem.Tools/MSBuildProcessServiceMonitor.cs:100-107 | The solution's dimensions are used exactly when the targets equal `GenerateRestoreGraphFile`, ignoring case. Otherwise the dimensions are empty. |
| ProcessMonitor.InitialRecord | src/MonoDevelop.ProjectSystem.Tools/MonoDevelop.ProjectSystem.Tools/MSBuildProcessServiceMonitor.cs:62-68 | The record is labelled with the solution label and takes the parsed targets, the build type and the dimensions. |
| ProcessMonitor.StartProcess | src/MonoDevelop.ProjectSystem.Tools/MonoDevelop.ProjectSystem.Tools/MSBuildProcessServiceMonitor.cs:56-98 | The counter is always incremented. Arguments that do not parse abort the start with their exception. Otherwise the record is started, registered under the new id and published. The arguments are rewritten with the binary-log switch, a progress monitor is registered, and the process is launched with them. |
| ProcessMonitor.OnProcessOutput | src/MonoDevelop.ProjectSystem.Tools/MonoDevelop.ProjectSystem.Tools/MSBuildProcessServiceMonitor.cs:81-89 | Process output is appended to that process's log buffer only. |
| ProcessMonitor.CompletionOf | src/MonoDevelop.ProjectSystem.Tools/MonoDevelop.ProjectSystem.Tools/MSBuildProcessServiceMonitor.cs:122-130 | A faulted task maps to the exception member. Exit code 0 maps exactly to `Finished`. A cancellation or a non-zero exit code maps to `Failed`. |
| ProcessMonitor.OnProcessExited | src/MonoDevelop.ProjectSystem.Tools/MonoDevelop.ProjectSystem.Tools/MSBuildProcessServiceMonitor.cs:109-134 | A registered id is removed, its record completed and "finished" published. The id's progress monitor is flushed. An unknown id publishes nothing. Other processes are untouched. |
| ProcessMonitor.StartGivesFreshId | src/MonoDevelop.ProjectSystem.Tools/MonoDevelop.ProjectSystem.Tools/MSBuildProcessServiceMonitor.cs:56-77 | Before the counter wraps, a start registers an id that no earlier start handed out, and the state stays valid. |
| ProcessMonitor.ExitKeepsValid | src/MonoDevelop.ProjectSystem.Tools/MonoDevelop.ProjectSystem.Tools/MSBuildProcessServiceMonitor.cs:109-134 | An exit keeps every registered record's progress monitor and hands out no id. |
| ProcessMonitor.SecondExitIsIgnored | src/MonoDevelop.ProjectSystem.Tools/MonoDevelop.ProjectSystem.Tools/MSBuildProcessServiceMonitor.cs:113-120 | A second exit for the same id changes nothing, publishes nothing and writes no log. |
| ProcessMonitor.IdsStrictlyIncrease | src/MonoDevelop.ProjectSystem.Tools/MonoDevelop.ProjectSystem.Tools/MSBuildProcessServiceMonitor.cs:43-58 | Until the counter wraps, successive starts hand out strictly increasing ids. |
| ProcessMonitor.CounterWraps | src/MonoDevelop.ProjectSystem.Tools/MonoDevelop.ProjectSystem.Tools/MSBuildProcessServiceMonitor.cs:58 | The start after the largest id hands out the smallest 32-bit value. |
| ProcessMonitor.DimensionsOnlyForRestoreGraph | src/MonoDevelop.ProjectSystem.Tools/MonoDevelop.ProjectSystem.Tools/MSBuildProcessServiceMonitor.cs:100-107 | The lookup ignores letter case but compares the whole target string. |
| TargetMonitor.New | src/MonoDevelop.ProjectSystem.Tools/MonoDevelop.ProjectSystem.Tools/MSBuildTargetMonitor.cs:41-62 | The record takes the project's names, the target string, its build type, the dimensions and the start time. The stopwatch starts, and the record is published as started. |
| TargetMonitor.GetProgressMonitor | src/MonoDevelop.ProjectSystem.Tools/MonoDevelop.ProjectSystem.Tools/MSBuildTargetMonitor.cs:64-77 | The log file name is generated first. The new progress monitor writes to that file. |
| TargetMonitor.Shutdown | src/MonoDevelop.ProjectSystem.Tools/MonoDevelop.ProjectSystem.Tools/MSBuildTargetMonitor.cs:79-84 | The stopwatch stops, and a progress monitor, when present, is disposed and flushed. Without one, nothing is written. |
| TargetMonitor.Dispose | src/MonoDevelop.ProjectSystem.Tools/MonoDevelop.ProjectSystem.Tools/MSBuildTargetMonitor.cs:79-84 | Disposal stops the stopwatch and publishes nothing. A progress monitor, when present, is disposed and its buffer written to the log file. Without one, nothing is written. |
| TargetMonitor.OnResult | src/MonoDevelop.ProjectSystem.Tools/MonoDevelop.ProjectSystem.Tools/MSBuildTargetMonitor.cs:86-97 | The stopwatch stops and the progress monitor is disposed, flushing the log. The record gets the result's status, the elapsed time, the session's binary log and exactly the running sessions, keeps its start time and targets, and is published as finished. |
| TargetMonitor.OnException | src/MonoDevelop.ProjectSystem.Tools/MonoDevelop.ProjectSystem.Tools/MSBuildTargetMonitor.cs:99-110 | As `OnResult`, with the status `Exception`: the stopwatch stops, the log is flushed, and exactly the running sessions are attached. |
| TargetMonitor.Finish | src/MonoDevelop.ProjectSystem.Tools/MonoDevelop.ProjectSystem.Tools/MSBuildTargetMonitor.cs:86-110 | The shared completion: the status, the duration, the binary log and exactly the running sessions are set, and one "finished" notification is published. |
| TargetMonitor.ResultThenDispose | src/MonoDevelop.ProjectSystem.Tools/MonoDevelop.ProjectSystem.Tools/MSBuildTargetMonitor.cs:41-97 | Take a run that creates, gets a progress monitor, logs, completes and then disposes. The log file is written once with all the messages, and the duration is the non-negative clock difference. The later disposal writes and changes nothing. |
| TargetMonitor.SafeWithoutProgressMonitor | src/MonoDevelop.ProjectSystem.Tools/MonoDevelop.ProjectSystem.Tools/MSBuildTargetMonitor.cs:79-110 | Without a progress monitor, completion and disposal write nothing. |
| Grouping.WithKey | src/Microsoft.VisualStudio.ProjectSystem.Tools/Microsoft.VisualStudio.ProjectSystem.Tools.BinaryLogEditor/BinaryLogViewModels.cs:49 | A group holds exactly the elements with its key. |
| Grouping.Keys | src/Microsoft.VisualStudio.ProjectSystem.Tools/Microsoft.VisualStudio.ProjectSystem.Tools.BinaryLogEditor/BinaryLogViewModels.cs:49 | The keys are distinct, each is some element's key, and every element's key is among them. |
| Grouping.GroupBy | src/Microsoft.VisualStudio.ProjectSystem.Tools/Microsoft.VisualStudio.ProjectSystem.Tools.BinaryLogEditor/BinaryLogViewModels.cs:49 | One group per distinct key, in order of first occurrence. Keys are distinct, and each group holds exactly the elements with its key. |
| Grouping.GroupByShape | src/Microsoft.VisualStudio.ProjectSystem.Tools/Microsoft.VisualStudio.ProjectSystem.Tools.BinaryLogEditor/BinaryLogViewModels.cs:49-51 | Group keys are distinct, and every element's key has a group. No group is empty, and each holds exactly the elements with its key. |
| Grouping.GroupBySum | src/Microsoft.VisualStudio.ProjectSystem.Tools/Microsoft.VisualStudio.ProjectSystem.Tools.BinaryLogEditor/BinaryLogViewModels.cs:49-52 | The per-group sums add up to the sum over all elements. |
| Grouping.GroupByCount | src/Microsoft.VisualStudio.ProjectSystem.Tools/Microsoft.VisualStudio.ProjectSystem.Tools.BinaryLogEditor/BinaryLogViewModels.cs:49-56 | The group counts add up to the number of elements. |
| Grouping.FirstWithKey | src/Microsoft.VisualStudio.ProjectSystem.Tools/Microsoft.VisualStudio.ProjectSystem.Tools.BinaryLogEditor/BinaryLogViewModels.cs:87 | A group's first member is the first element in traversal order with that key. |
| Collect.Gather | src/Microsoft.VisualStudio.ProjectSystem.Tools/Microsoft.VisualStudio.ProjectSystem.Tools.BinaryLogEditor/BinaryLogViewModels.cs:107-131 | A project's collection holds no duplicates and includes the project's own contribution. |
| Collect.GatherReachable | src/Microsoft.VisualStudio.ProjectSystem.Tools/Microsoft.VisualStudio.ProjectSystem.Tools.BinaryLogEditor/BinaryLogViewModels.cs:107-131 | A project's collection holds exactly the nodes contributed by it or by a project its tasks built, at any depth. |
| Collect.TasksOf | src/Microsoft.VisualStudio.ProjectSystem.Tools/Microsoft.VisualStudio.ProjectSystem.Tools.BinaryLogEditor/BinaryLogViewModels.cs:126 | The result holds exactly the tasks of the given targets. |
| Collect.CollectTargets | src/Microsoft.VisualStudio.ProjectSystem.Tools/Microsoft.VisualStudio.ProjectSystem.Tools.BinaryLogEditor/BinaryLogViewModels.cs:107-113 | A project's targets are collected without duplicates, its own targets among them. |
| Collect.OwnTargetsFirst | src/Microsoft.VisualStudio.ProjectSystem.Tools/Microsoft.VisualStudio.ProjectSystem.Tools.BinaryLogEditor/BinaryLogViewModels.cs:107-113 | A project's own distinct targets come first, in order. |
| Collect.CollectTasks | src/Microsoft.VisualStudio.ProjectSystem.Tools/Microsoft.VisualStudio.ProjectSystem.Tools.BinaryLogEditor/BinaryLogViewModels.cs:124-131 | A project's tasks are collected without duplicates, the tasks of its own targets among them. |
| Collect.CollectTargetsReachable | src/Microsoft.VisualStudio.ProjectSystem.Tools/Microsoft.VisualStudio.ProjectSystem.Tools.BinaryLogEditor/BinaryLogViewModels.cs:107-113 | A project's collected targets are exactly the targets of the projects reachable from it. |
| Collect.CollectTasksReachable | src/Microsoft.VisualStudio.ProjectSystem.Tools/Microsoft.VisualStudio.ProjectSystem.Tools.BinaryLogEditor/BinaryLogViewModels.cs:124-131 | A project's collected tasks are exactly the tasks of the projects reachable from it. |
| Collect.CollectAll | src/Microsoft.VisualStudio.ProjectSystem.Tools/Microsoft.VisualStudio.ProjectSystem.Tools.BinaryLogEditor/BinaryLogViewModels.cs:98-122 | The result holds exactly the nodes of the per-project collections. A single top-level project's collection is passed on unchanged, and no projects give nothing. |
| Collect.CollectAllTargets | src/Microsoft.VisualStudio.ProjectSystem.Tools/Microsoft.VisualStudio.ProjectSystem.Tools.BinaryLogEditor/BinaryLogViewModels.cs:98-105 | The targets over the top-level projects are exactly those some top-level project reaches. One project gives its own collection. |
| Collect.CollectAllTasks | src/Microsoft.VisualStudio.ProjectSystem.Tools/Microsoft.VisualStudio.ProjectSystem.Tools.BinaryLogEditor/BinaryLogViewModels.cs:115-122 | The tasks over the top-level projects are exactly those some top-level project reaches. One project gives its own collection. |
| Collect.CollectAllReachable | src/Microsoft.VisualStudio.ProjectSystem.Tools/Microsoft.VisualStudio.ProjectSystem.Tools.BinaryLogEditor/BinaryLogViewModels.cs:98-122 | The collection over top-level projects holds exactly what some top-level project reaches. |
| Collect.CollectAllAppend | src/Microsoft.VisualStudio.ProjectSystem.Tools/Microsoft.VisualStudio.ProjectSystem.Tools.BinaryLogEditor/BinaryLogViewModels.cs:98-105 | Collecting over two runs of projects concatenates the two collections, with no deduplication between them. |
| Collect.TopLevelDuplicatesKept | src/Microsoft.VisualStudio.ProjectSystem.Tools/Microsoft.VisualStudio.ProjectSystem.Tools.BinaryLogEditor/BinaryLogViewModels.cs:115-122 | A project listed twice at the top level is collected twice. |
| Collect.CollectEvaluations | src/Microsoft.VisualStudio.ProjectSystem.Tools/Microsoft.VisualStudio.ProjectSystem.Tools.BinaryLogEditor/BinaryLogViewModels.cs:133-139 | The recursion terminates and yields no duplicate location. |
| Collect.CollectEvaluationsComplete | src/Microsoft.VisualStudio.ProjectSystem.Tools/Microsoft.VisualStudio.ProjectSystem.Tools.BinaryLogEditor/BinaryLogViewModels.cs:133-139 | The result holds exactly the locations of the forest, at any depth. |
| Collect.RootLocations | src/Microsoft.VisualStudio.ProjectSystem.Tools/Microsoft.VisualStudio.ProjectSystem.Tools.BinaryLogEditor/BinaryLogViewModels.cs:73-79 | The roots are exactly the locations of the passes of profiled evaluated projects. Without a profile there are none. |
| Collect.ProjectLocations | src/Microsoft.VisualStudio.ProjectSystem.Tools/Microsoft.VisualStudio.ProjectSystem.Tools.BinaryLogEditor/BinaryLogViewModels.cs:75-79 | Projects without a profile are skipped. The others contribute exactly the locations of their passes. |
| Collect.PassLocations | src/Microsoft.VisualStudio.ProjectSystem.Tools/Microsoft.VisualStudio.ProjectSystem.Tools.BinaryLogEditor/BinaryLogViewModels.cs:78-79 | The result holds exactly the locations of the passes. |
| Summary.RatioOf | src/Microsoft.VisualStudio.ProjectSystem.Tools/Microsoft.VisualStudio.ProjectSystem.Tools.BinaryLogEditor/BinaryLogViewModels.cs:58 | The ratio is not a finite number exactly when the total is zero. Otherwise ratio times total is the time. |
| Summary.EvaluationRows | src/Microsoft.VisualStudio.ProjectSystem.Tools/Microsoft.VisualStudio.ProjectSystem.Tools.BinaryLogEditor/BinaryLogViewModels.cs:80-94 | Each group gets one row carrying its key. The row's count, summed exclusive time and share are against the time of all locations. |
| Summary.Build | src/Microsoft.VisualStudio.ProjectSystem.Tools/Microsoft.VisualStudio.ProjectSystem.Tools.BinaryLogEditor/BinaryLogViewModels.cs:33-96 | Without a build or a project list nothing changes. Otherwise rows are only appended to the three collections. |
| Summary.GroupStatsSums | src/Microsoft.VisualStudio.ProjectSystem.Tools/Microsoft.VisualStudio.ProjectSystem.Tools.BinaryLogEditor/BinaryLogViewModels.cs:51-59 | The row counts add up to the group sizes and the row times to the group sums. Against a non-zero total, the ratios add up to the summed time over the total. |
| Summary.TargetRowsSummarise | src/Microsoft.VisualStudio.ProjectSystem.Tools/Microsoft.VisualStudio.ProjectSystem.Tools.BinaryLogEditor/BinaryLogViewModels.cs:48-59 | Target rows have distinct `(Name, SourceFilePath)` keys, and every target has its row. A row counts and times exactly the targets with its key. The counts add up to the number of targets, the times to their total, and the ratios to that total over the build time. |
| Summary.TaskRowsSummarise | src/Microsoft.VisualStudio.ProjectSystem.Tools/Microsoft.VisualStudio.ProjectSystem.Tools.BinaryLogEditor/BinaryLogViewModels.cs:61-71 | The same for the task rows. |
| Summary.EvaluationRowKeys | src/Microsoft.VisualStudio.ProjectSystem.Tools/Microsoft.VisualStudio.ProjectSystem.Tools.BinaryLogEditor/BinaryLogViewModels.cs:81-90 | Evaluation rows have distinct `(ElementName, Kind, File, Line)` keys, and every location has its row. |
| Summary.EvaluationRowsSummarise | src/Microsoft.VisualStudio.ProjectSystem.Tools/Microsoft.VisualStudio.ProjectSystem.Tools.BinaryLogEditor/BinaryLogViewModels.cs:80-94 | The evaluation counts add up to the number of locations and the times to their total. Against a non-zero total, the ratios add up to exactly one. |
| Summary.EvaluationDescriptionIsFirst | src/Microsoft.VisualStudio.ProjectSystem.Tools/Microsoft.VisualStudio.ProjectSystem.Tools.BinaryLogEditor/BinaryLogViewModels.cs:87 | A row's description is that of the first location in traversal order with its key. |
| Summary.SingleTargetTakesWholeBuild | src/Microsoft.VisualStudio.ProjectSystem.Tools/Microsoft.VisualStudio.ProjectSystem.Tools.BinaryLogEditor/BinaryLogViewModels.cs:45-59 | One project running one target for the whole build gives one target row, with count 1, all of the build's time and ratio 1. |
| Summary.NoProjectsNoRows | src/Microsoft.VisualStudio.ProjectSystem.Tools/Microsoft.VisualStudio.ProjectSystem.Tools.BinaryLogEditor/BinaryLogViewModels.cs:45 | Without a build or its project list, no row is added, not even for evaluations. |
| Summary.BuildSummarises | src/Microsoft.VisualStudio.ProjectSystem.Tools/Microsoft.VisualStudio.ProjectSystem.Tools.BinaryLogEditor/BinaryLogViewModels.cs:45-95 | The target rows come from the collected targets. The row counts cover every collected target, task and evaluation location, and the ratios sum to the collected time over the total. |
| DocumentData.Load | src/Microsoft.VisualStudio.ProjectSystem.Tools/Microsoft.VisualStudio.ProjectSystem.Tools.BinaryLogEditor/BinaryLogDocumentData.cs:21-37 | Loading always sets the log and raises `Loaded` once, after that. A replayed log is kept. An aggregate failure becomes an empty log with the inner exceptions, and any other failure an empty log with that one exception. |
| DocumentData.FailedLoadShowsNoRows | src/Microsoft.VisualStudio.ProjectSystem.Tools/Microsoft.VisualStudio.ProjectSystem.Tools.BinaryLogEditor/BinaryLogDocumentData.cs:26-33 | A failed load has no build, so building the summaries from it adds no row. |
| DocumentData.LoadedOncePerLoad | src/Microsoft.VisualStudio.ProjectSystem.Tools/Microsoft.VisualStudio.ProjectSystem.Tools.BinaryLogEditor/BinaryLogDocumentData.cs:21-37 | Two loads raise `Loaded` twice, with the logs in load order. |

## Left out

- Concurrency is not modelled: the locks, `Interlocked`, `Runtime.RunInMainThread`, `Task.Run` and `ContinueWith`. Each operation is one atomic step, and the order of steps is the caller's.
- Launching the process, writing files and replaying a binary log are not modelled. Their results are inputs, and the file write is returned as a value.
- The model builder and the binary-log reader are not part of this model. `DocumentData.Load` takes the replay's outcome instead of a file name.
- Clocks are inputs: `DateTime.UtcNow` and the stopwatch's start and stop readings. Times are whole ticks.
- Summary.RatioOf: the ratio is the exact rational value of the `double` division, without rounding. NaN and the infinities are one `NotFinite` case.
- `TimeSpan` overflow (an exception when a sum exceeds its range) is not modelled; tick sums are unbounded.
- Translation of the solution label through the gettext catalogue is not modelled; the label is a constant.
- The `MonitorAction` mask, the aggregated progress monitor wrapping and the writer chaining of `MSBuildProcessProgressMonitor` are not modelled. Output reaches the target's log buffer directly.
- `MSBuildTarget.Start`, `GenerateLogFileName`, `OnResult`, `OnException` and `GetMSBuildTargetStatus` are parameters, because their bodies are not part of this model. The same goes for the static `AddVerbosity` and `AddBinLogFileName` that `StartProcess` calls, the project's dimensions, `BuildSessionBinLogFileName` and the logging service.
- The `LogVerbosity` assignment in the `MSBuildTargetMonitor` constructor and the verbosity preference it reads are not modelled.
- TargetMonitor.New: the project's file name is an input already reduced to its file-name part. `FilePath.FileName` is not modelled.
- TargetMonitor.OnException: the exception object is not modelled; only the resulting status is.
- TargetProgress.OnWriteLog: requires a monitor that is not yet disposed. The source frees the pooled builder on disposal, and a write after that is outside its contract.
- TargetProgress.OnWriteErrorLog: the same precondition, for the same reason.
- `StartsWith` is compared ordinally; .NET's default is culture-sensitive. The case-insensitive comparison folds only ASCII letters.
- File paths in the processor's set are compared as exact strings. `FilePath` normalisation is not modelled.
- A property value that is not a string would make the cast throw. This is not modelled: property values are strings, and a null project file is the empty string.
- `MSBuildTargetStatus` is assumed to have `Running` as its default value.
- The log-model nodes are reference objects compared by identity. Each carries an `id`, and distinct objects are assumed to carry distinct ids. `EvaluationLocationKind` is kept as the name the view shows.
- ProcessMonitor.OnProcessExited: ids are assumed not to be reused while a process runs. Progress monitors are kept by session id, while in the source each exit continuation holds its own monitor. After the 32-bit counter wraps with the first process still running, the source would dispose the old process's monitor, and the model the new one's.
- ProcessMonitor.StartProcess: a launch failure is not modelled. In the source, the record stays registered when starting the process throws, and it is never completed or removed.
- Replacing a session under an id already in use keeps the earlier session attached to targets by object in the source. In the model, records hold session ids, so they refer to the latest session with that id.
- The GUI, the document controller, the build-logging pad and the project and solution extensions are not modelled.
