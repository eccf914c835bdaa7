/** `BinaryLogViewModels.Build`: the target, task and evaluation summary
    rows of a loaded binary log. Each row is one group of nodes with the
    same key, with the group's size, its summed time in ticks and the share
    of a total that time is. */
module Summary {
  import opened Wrappers
  import opened Seqs
  import opened Grouping
  import opened LogModel
  import opened Collect

  /** `time.Ticks / (double)total.Ticks`, computed exactly. A zero total
      makes the division produce NaN or an infinity, not a number. */
  datatype Ratio = Exact(value: real) | NotFinite

  function RatioOf(time: int, total: int): (r: Ratio)
    ensures r.NotFinite? <==> total == 0
    ensures r.Exact? ==> r.value * (total as real) == time as real
  {
    if total == 0 then NotFinite else Exact(time as real / total as real)
  }

  /** The figures every row carries: count, time, ratio. */
  datatype Stats = Stats(count: nat, time: int, ratio: Ratio)

  function StatsOf<X>(members: seq<X>, time: X -> int, total: int): Stats {
    var t := Sum(members, time);
    Stats(|members|, t, RatioOf(t, total))
  }

  /** A `TargetListViewModel` or `TaskListViewModel`. */
  datatype TimedRow = TimedRow(name: string, sourceFilePath: string, stats: Stats)

  /** An `EvaluationListViewModel`. */
  datatype EvaluationRow = EvaluationRow(
    elementName: string,
    elementDescription: string,
    kind: string,
    file: string,
    line: int,
    stats: Stats)

  /** The three row collections. */
  datatype ViewModels = ViewModels(
    targets: seq<TimedRow>,
    tasks: seq<TimedRow>,
    evaluations: seq<EvaluationRow>)

  /** The constructor: three empty collections. */
  const Empty := ViewModels([], [], [])

  /** Targets and tasks are grouped by `(Name, SourceFilePath)`. */
  function TargetKey(t: TargetNode): (string, string) {
    (t.name, t.sourceFilePath)
  }

  function TaskKey(t: TaskNode): (string, string) {
    (t.name, t.sourceFilePath)
  }

  /** Locations are grouped by `(ElementName, Kind, File, Line)`. */
  function LocationKey(l: Location): (string, string, string, int) {
    (l.elementName, l.kind, l.file, l.line)
  }

  /** One row per group, in group order. */
  function TimedRows<X>(gs: seq<Group<(string, string), X>>, time: X -> int, total: int): (r: seq<TimedRow>)
    ensures |r| == |gs|
    ensures forall i | 0 <= i < |gs| ::
              r[i] == TimedRow(gs[i].key.0, gs[i].key.1, StatsOf(gs[i].members, time, total))
  {
    seq(|gs|, i requires 0 <= i < |gs| => TimedRow(gs[i].key.0, gs[i].key.1, StatsOf(gs[i].members, time, total)))
  }

  function TargetRows(targets: seq<TargetNode>, total: int): seq<TimedRow> {
    TimedRows(GroupBy(targets, TargetKey), TargetTime, total)
  }

  function TaskRows(tasks: seq<TaskNode>, total: int): seq<TimedRow> {
    TimedRows(GroupBy(tasks, TaskKey), TaskTime, total)
  }

  /** The evaluation rows: the description is the first member's, and the
      total is the exclusive time of every collected location. */
  function EvaluationRows(locations: seq<Location>): (r: seq<EvaluationRow>)
    ensures var gs := GroupBy(locations, LocationKey);
            && |r| == |gs|
            && forall i | 0 <= i < |gs| ::
                 && (r[i].elementName, r[i].kind, r[i].file, r[i].line) == gs[i].key
                 && r[i].stats == StatsOf(gs[i].members, LocationTime, Sum(locations, LocationTime))
                 && |gs[i].members| > 0
                 && r[i].elementDescription == gs[i].members[0].elementDescription
  {
    var gs := GroupBy(locations, LocationKey);
    var total := Sum(locations, LocationTime);
    GroupByShape(locations, LocationKey);
    seq(|gs|, i requires 0 <= i < |gs| =>
      EvaluationRow(gs[i].key.0, gs[i].members[0].elementDescription, gs[i].key.1, gs[i].key.2, gs[i].key.3,
                    StatsOf(gs[i].members, LocationTime, total)))
  }

  /** Whether the log has a build with a project list: without one,
      `Build` adds nothing, not even evaluation rows. */
  predicate HasProjects(log: Log) {
    log.build.Some? && log.build.value.projects.Some?
  }

  /** The whole build's `EndTime - StartTime`, the target and task rows'
      denominator. */
  function BuildTime(b: Build): int {
    b.endTime - b.startTime
  }

  /** The locations the evaluation rows are built from. */
  function EvaluatedLocations(log: Log): seq<Location> {
    CollectEvaluations(RootLocations(log.evaluations))
  }

  /** `Build()`: the rows of the log are appended to the collections. */
  function Build(vm: ViewModels, log: Log): (r: ViewModels)
    ensures !HasProjects(log) ==> r == vm
    ensures |vm.targets| <= |r.targets| && r.targets[..|vm.targets|] == vm.targets
    ensures |vm.tasks| <= |r.tasks| && r.tasks[..|vm.tasks|] == vm.tasks
    ensures |vm.evaluations| <= |r.evaluations| && r.evaluations[..|vm.evaluations|] == vm.evaluations
  {
    if !HasProjects(log) then vm
    else
      var b := log.build.value;
      var projects := b.projects.value;
      ViewModels(
        vm.targets + TargetRows(CollectAllTargets(projects), BuildTime(b)),
        vm.tasks + TaskRows(CollectAllTasks(projects), BuildTime(b)),
        vm.evaluations + EvaluationRows(EvaluatedLocations(log)))
  }

  /** Column sums over a run of row figures. */
  function CountSum(ss: seq<Stats>): nat {
    if ss == [] then 0 else ss[0].count + CountSum(ss[1..])
  }

  function TimeSum(ss: seq<Stats>): int {
    if ss == [] then 0 else ss[0].time + TimeSum(ss[1..])
  }

  /** The sum of the ratios, counting a non-finite one as zero. */
  function RatioSum(ss: seq<Stats>): real {
    if ss == [] then 0.0
    else (if ss[0].ratio.Exact? then ss[0].ratio.value else 0.0) + RatioSum(ss[1..])
  }

  function GroupStats<K, X>(gs: seq<Group<K, X>>, time: X -> int, total: int): (r: seq<Stats>)
    ensures |r| == |gs| && forall i | 0 <= i < |gs| :: r[i] == StatsOf(gs[i].members, time, total)
  {
    seq(|gs|, i requires 0 <= i < |gs| => StatsOf(gs[i].members, time, total))
  }

  function TimedStats(rows: seq<TimedRow>): (r: seq<Stats>)
    ensures |r| == |rows| && forall i | 0 <= i < |rows| :: r[i] == rows[i].stats
  {
    seq(|rows|, i requires 0 <= i < |rows| => rows[i].stats)
  }

  function EvaluationStats(rows: seq<EvaluationRow>): (r: seq<Stats>)
    ensures |r| == |rows| && forall i | 0 <= i < |rows| :: r[i] == rows[i].stats
  {
    seq(|rows|, i requires 0 <= i < |rows| => rows[i].stats)
  }

  lemma DivAdd(a: real, b: real, c: real)
    requires c != 0.0
    ensures a / c + b / c == (a + b) / c
  {
  }

  lemma DivSelf(c: real)
    requires c != 0.0
    ensures c / c == 1.0
  {
  }

  /** The counts add up to the group sizes. */
  lemma {:induction false} GroupStatsCounts<K, X>(gs: seq<Group<K, X>>, time: X -> int, total: int)
    ensures CountSum(GroupStats(gs, time, total)) == GroupsCount(gs)
    decreases |gs|
  {
    if gs != [] {
      assert GroupStats(gs, time, total)[1..] == GroupStats(gs[1..], time, total);
      GroupStatsCounts(gs[1..], time, total);
    }
  }

  /** The times add up to the group sums. */
  lemma {:induction false} GroupStatsTimes<K, X>(gs: seq<Group<K, X>>, time: X -> int, total: int)
    ensures TimeSum(GroupStats(gs, time, total)) == GroupsSum(gs, time)
    decreases |gs|
  {
    if gs != [] {
      assert GroupStats(gs, time, total)[1..] == GroupStats(gs[1..], time, total);
      GroupStatsTimes(gs[1..], time, total);
    }
  }

  /** Against a non-zero total, the ratios add up to the groups' share of
      it. */
  lemma {:induction false} GroupStatsRatios<K, X>(gs: seq<Group<K, X>>, time: X -> int, total: int)
    requires total != 0
    ensures RatioSum(GroupStats(gs, time, total)) == GroupsSum(gs, time) as real / total as real
    decreases |gs|
  {
    if gs != [] {
      var ss := GroupStats(gs, time, total);
      assert ss[1..] == GroupStats(gs[1..], time, total);
      GroupStatsRatios(gs[1..], time, total);
      var t0 := Sum(gs[0].members, time);
      assert ss[0].ratio == Exact(t0 as real / total as real);
      DivAdd(t0 as real, GroupsSum(gs[1..], time) as real, total as real);
    }
  }

  lemma GroupStatsSums<K, X>(gs: seq<Group<K, X>>, time: X -> int, total: int)
    ensures CountSum(GroupStats(gs, time, total)) == GroupsCount(gs)
    ensures TimeSum(GroupStats(gs, time, total)) == GroupsSum(gs, time)
    ensures total != 0 ==> RatioSum(GroupStats(gs, time, total)) == GroupsSum(gs, time) as real / total as real
  {
    GroupStatsCounts(gs, time, total);
    GroupStatsTimes(gs, time, total);
    if total != 0 {
      GroupStatsRatios(gs, time, total);
    }
  }

  /** The target rows of a collection: one per distinct `(Name,
      SourceFilePath)`, each counting and timing exactly the targets with
      that key, the counts adding up to the number of targets and the times
      to their total time. */
  lemma TargetRowsSummarise(targets: seq<TargetNode>, total: int)
    ensures var rows := TargetRows(targets, total);
            && (forall i, j | 0 <= i < j < |rows| ::
                  (rows[i].name, rows[i].sourceFilePath) != (rows[j].name, rows[j].sourceFilePath))
            && (forall t | t in targets :: exists i | 0 <= i < |rows| ::
                  (rows[i].name, rows[i].sourceFilePath) == TargetKey(t))
            && (forall i | 0 <= i < |rows| ::
                  var members := WithKey(targets, TargetKey, (rows[i].name, rows[i].sourceFilePath));
                  && rows[i].stats.count == |members| > 0
                  && rows[i].stats.time == Sum(members, TargetTime)
                  && rows[i].stats.ratio == RatioOf(rows[i].stats.time, total))
            && CountSum(TimedStats(rows)) == |targets|
            && TimeSum(TimedStats(rows)) == Sum(targets, TargetTime)
            && (total != 0 ==> RatioSum(TimedStats(rows)) == Sum(targets, TargetTime) as real / total as real)
  {
    var gs := GroupBy(targets, TargetKey);
    GroupByShape(targets, TargetKey);
    GroupByCount(targets, TargetKey);
    GroupBySum(targets, TargetKey, TargetTime);
    GroupStatsSums(gs, TargetTime, total);
    assert TimedStats(TargetRows(targets, total)) == GroupStats(gs, TargetTime, total);
  }

  /** The same for the task rows. */
  lemma TaskRowsSummarise(tasks: seq<TaskNode>, total: int)
    ensures var rows := TaskRows(tasks, total);
            && (forall i, j | 0 <= i < j < |rows| ::
                  (rows[i].name, rows[i].sourceFilePath) != (rows[j].name, rows[j].sourceFilePath))
            && (forall t | t in tasks :: exists i | 0 <= i < |rows| ::
                  (rows[i].name, rows[i].sourceFilePath) == TaskKey(t))
            && (forall i | 0 <= i < |rows| ::
                  var members := WithKey(tasks, TaskKey, (rows[i].name, rows[i].sourceFilePath));
                  && rows[i].stats.count == |members| > 0
                  && rows[i].stats.time == Sum(members, TaskTime)
                  && rows[i].stats.ratio == RatioOf(rows[i].stats.time, total))
            && CountSum(TimedStats(rows)) == |tasks|
            && TimeSum(TimedStats(rows)) == Sum(tasks, TaskTime)
            && (total != 0 ==> RatioSum(TimedStats(rows)) == Sum(tasks, TaskTime) as real / total as real)
  {
    var gs := GroupBy(tasks, TaskKey);
    GroupByShape(tasks, TaskKey);
    GroupByCount(tasks, TaskKey);
    GroupBySum(tasks, TaskKey, TaskTime);
    GroupStatsSums(gs, TaskTime, total);
    assert TimedStats(TaskRows(tasks, total)) == GroupStats(gs, TaskTime, total);
  }

  /** The evaluation rows: one per distinct `(ElementName, Kind, File,
      Line)`, and one for the key of every location. */
  lemma EvaluationRowKeys(locations: seq<Location>)
    ensures var rows := EvaluationRows(locations);
            && (forall i, j | 0 <= i < j < |rows| ::
                  (rows[i].elementName, rows[i].kind, rows[i].file, rows[i].line) !=
                  (rows[j].elementName, rows[j].kind, rows[j].file, rows[j].line))
            && (forall l | l in locations :: exists i | 0 <= i < |rows| ::
                  (rows[i].elementName, rows[i].kind, rows[i].file, rows[i].line) == LocationKey(l))
  {
    var gs := GroupBy(locations, LocationKey);
    GroupByShape(locations, LocationKey);
    var rows := EvaluationRows(locations);
    assert forall i | 0 <= i < |rows| :: (rows[i].elementName, rows[i].kind, rows[i].file, rows[i].line) == gs[i].key;
    forall l | l in locations
      ensures exists i | 0 <= i < |rows| ::
                (rows[i].elementName, rows[i].kind, rows[i].file, rows[i].line) == LocationKey(l)
    {
      var i :| 0 <= i < |gs| && gs[i].key == LocationKey(l);
      assert (rows[i].elementName, rows[i].kind, rows[i].file, rows[i].line) == gs[i].key;
    }
  }

  lemma EvaluationStatsOfGroups(locations: seq<Location>)
    ensures EvaluationStats(EvaluationRows(locations)) ==
            GroupStats(GroupBy(locations, LocationKey), LocationTime, Sum(locations, LocationTime))
  {
  }

  /** The counts add up to the number of locations, the times to their
      total, and, when that total is not zero, the ratios to exactly one. */
  lemma EvaluationRowsSummarise(locations: seq<Location>)
    ensures var rows := EvaluationRows(locations);
            var total := Sum(locations, LocationTime);
            && CountSum(EvaluationStats(rows)) == |locations|
            && TimeSum(EvaluationStats(rows)) == total
            && (total != 0 ==> RatioSum(EvaluationStats(rows)) == 1.0)
  {
    var gs := GroupBy(locations, LocationKey);
    var total := Sum(locations, LocationTime);
    EvaluationStatsOfGroups(locations);
    var ss := GroupStats(gs, LocationTime, total);
    GroupByCount(locations, LocationKey);
    GroupBySum(locations, LocationKey, LocationTime);
    GroupStatsCounts(gs, LocationTime, total);
    GroupStatsTimes(gs, LocationTime, total);
    if total != 0 {
      GroupStatsRatios(gs, LocationTime, total);
      DivSelf(total as real);
    }
  }

  /** A row's description is that of the first location with its key. */
  lemma EvaluationDescriptionIsFirst(locations: seq<Location>, i: nat)
    requires i < |EvaluationRows(locations)|
    ensures var row := EvaluationRows(locations)[i];
            exists m | 0 <= m < |locations| ::
              && LocationKey(locations[m]) == (row.elementName, row.kind, row.file, row.line)
              && row.elementDescription == locations[m].elementDescription
              && forall j | 0 <= j < m :: LocationKey(locations[j]) != LocationKey(locations[m])
  {
    var gs := GroupBy(locations, LocationKey);
    var row := EvaluationRows(locations)[i];
    var k := gs[i].key;
    assert row.elementDescription == gs[i].members[0].elementDescription;
    assert k in Keys(locations, LocationKey);
    var x :| x in locations && LocationKey(x) == k;
    var n :| 0 <= n < |locations| && locations[n] == x;
    var m := FirstWithKey(locations, LocationKey, k, n);
    GroupByShape(locations, LocationKey);
    assert gs[i].members == WithKey(locations, LocationKey, k);
    assert LocationKey(locations[m]) == (row.elementName, row.kind, row.file, row.line);
    assert row.elementDescription == locations[m].elementDescription;
  }

  /** Without a build or without its project list nothing is added, even
      when the log holds evaluations. */
  lemma NoProjectsNoRows(log: Log)
    requires !HasProjects(log)
    ensures Build(Empty, log) == Empty
  {
  }

  /** The rows `Build` adds for a log with a project list summarise every
      target and task reachable from the top-level projects (once per
      top-level project) and every profiled evaluation location. */
  lemma BuildSummarises(log: Log)
    requires HasProjects(log)
    ensures var r := Build(Empty, log);
            var b := log.build.value;
            var targets := CollectAllTargets(b.projects.value);
            var tasks := CollectAllTasks(b.projects.value);
            && r.targets == TargetRows(targets, BuildTime(b))
            && CountSum(TimedStats(r.targets)) == |targets|
            && CountSum(TimedStats(r.tasks)) == |tasks|
            && CountSum(EvaluationStats(r.evaluations)) == |EvaluatedLocations(log)|
            && (BuildTime(b) != 0 ==>
                  RatioSum(TimedStats(r.targets)) == Sum(targets, TargetTime) as real / BuildTime(b) as real)
            && (Sum(EvaluatedLocations(log), LocationTime) != 0 ==> RatioSum(EvaluationStats(r.evaluations)) == 1.0)
  {
    var b := log.build.value;
    BuildRows(log);
    TargetRowsSummarise(CollectAllTargets(b.projects.value), BuildTime(b));
    TaskRowsSummarise(CollectAllTasks(b.projects.value), BuildTime(b));
    EvaluationRowsSummarise(EvaluatedLocations(log));
  }

  /** Built from nothing, the three collections are exactly the rows of the
      log. */
  lemma BuildRows(log: Log)
    requires HasProjects(log)
    ensures var r := Build(Empty, log);
            var b := log.build.value;
            && r.targets == TargetRows(CollectAllTargets(b.projects.value), BuildTime(b))
            && r.tasks == TaskRows(CollectAllTasks(b.projects.value), BuildTime(b))
            && r.evaluations == EvaluationRows(EvaluatedLocations(log))
  {
  }

  /** One project running one target for the whole build: one target row,
      counted once, with all of the build's time and a ratio of one. */
  lemma SingleTargetTakesWholeBuild(log: Log, t: TargetNode)
    requires HasProjects(log)
    requires |log.build.value.projects.value| == 1 && log.build.value.projects.value[0].targets == [t]
    requires t.tasks == [] && t.startTime == log.build.value.startTime && t.endTime == log.build.value.endTime
    requires BuildTime(log.build.value) != 0
    ensures Build(Empty, log).targets == [TimedRow(t.name, t.sourceFilePath, Stats(1, BuildTime(log.build.value), Exact(1.0)))]
  {
    var ps := log.build.value.projects.value;
    var total := BuildTime(log.build.value);
    BuildRows(log);
    SingleTargetCollected(ps, t);
    SingleTargetRow(t, total);
    assert Sum([t], TargetTime) == total by {
      assert [t][1..] == [];
    }
    DivSelf(total as real);
    assert StatsOf([t], TargetTime, total) == Stats(1, total, Exact(1.0));
  }

  /** A single project whose one target runs no task collects just that
      target. */
  lemma SingleTargetCollected(ps: seq<Project>, t: TargetNode)
    requires |ps| == 1 && ps[0].targets == [t] && t.tasks == []
    ensures CollectAllTargets(ps) == [t]
  {
    var p := ps[0];
    assert FromTasks(t, 0, DirectTargets) == [];
    assert FromTargets(p, 1, DirectTargets) == [];
    assert FromTargets(p, 0, DirectTargets) == [];
    assert [t] + [] == [t];
    DistinctSingleton(t);
    assert Gather(p, DirectTargets) == [t];
  }

  /** A single target makes a single row. */
  lemma SingleTargetRow(t: TargetNode, total: int)
    ensures TargetRows([t], total) == [TimedRow(t.name, t.sourceFilePath, StatsOf([t], TargetTime, total))]
  {
    var k := TargetKey(t);
    assert KeysOf([t], TargetKey) == [k];
    DistinctSingleton(k);
    assert Keys([t], TargetKey) == [k];
    assert WithKey([t], TargetKey, k) == [t];
    assert GroupBy([t], TargetKey) == [Group(k, [t])];
  }
}
