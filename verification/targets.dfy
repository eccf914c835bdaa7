/** The target record (`MSBuildTarget`): one observed build-tool invocation,
    and its build-type classification. */
module Targets {
  import opened Wrappers

  /** `ProjectService.BuildTarget` and `ProjectService.CleanTarget` of the
      host; their declarations are not part of this model. */
  const BuildTarget: string := "Build"
  const CleanTarget: string := "Clean"
  const PackTarget: string := "Pack"

  /** The build types `GetBuildType` produces. */
  const BuildTypeNone: string := ""
  const BuildTypeBuild: string := "Build"
  const BuildTypeDesignTime: string := "DesignTimeBuild"

  /** `MSBuildTargetStatus`; `Running` is taken as its default value. */
  datatype Status = Running | Finished | Failed | Exception

  /** The record of one invocation. Durations and times are in ticks.
      `logFileName` and `binLogFileName` hold the values of the properties of
      those names, which only the host members in `TargetOps` set.
      `buildSessions` holds the ids of the build sessions attached to the
      record: sessions are shared objects, so the record refers to them by
      identity. */
  datatype Target = Target(
    projectName: string,
    projectFileName: string,
    targets: string,
    buildType: string,
    dimensions: string,
    startTime: int,
    duration: int,
    status: Status,
    logFileName: string,
    binLogFileName: string,
    buildSessionBinLogFileName: string,
    buildSessions: set<int>)

  /** Members of `MSBuildTarget` that other files call but whose bodies are
      not part of this model; every model operation that uses one takes them
      as a parameter and says nothing about what they do. */
  datatype TargetOps = TargetOps(
    start: Target -> Target,
    generateLogFileName: Target -> Target,
    onResult: (Target, Status) -> Target,
    onException: (Target, Fault) -> Target)

  /** A new record from an object initializer: the given fields set, every
      other property at its default value. */
  function NewTarget(projectName: string, projectFileName: string, targets: string,
                     buildType: string, dimensions: string): (t: Target)
    ensures t.projectName == projectName && t.projectFileName == projectFileName
    ensures t.targets == targets && t.buildType == buildType && t.dimensions == dimensions
    ensures t.duration == 0 && t.status == Running && t.buildSessions == {}
  {
    Target(projectName, projectFileName, targets, buildType, dimensions,
           0, 0, Running, "", "", "", {})
  }

  /** The target names that classify an invocation as a full build. */
  predicate IsBuildTargetName(target: string) {
    target == BuildTarget || target == CleanTarget || target == PackTarget
  }

  /** `MSBuildTarget.GetBuildType`: no build type for a null or empty target
      string, `Build` for exactly one of the build, clean or pack targets, and
      `DesignTimeBuild` for anything else. The comparison is with the whole
      string and case-sensitive. */
  function GetBuildType(target: Option<string>): (r: string)
    ensures r == BuildTypeNone <==> target == None || target == Some("")
    ensures r == BuildTypeBuild <==> target.Some? && IsBuildTargetName(target.value)
    ensures r == BuildTypeDesignTime <==>
              target.Some? && target.value != "" && !IsBuildTargetName(target.value)
  {
    if target.None? || target.value == "" then BuildTypeNone
    else if IsBuildTargetName(target.value) then BuildTypeBuild
    else BuildTypeDesignTime
  }

  /** The classification is one of the three build types. */
  lemma BuildTypeIsOneOfThree(target: Option<string>)
    ensures GetBuildType(target) in {BuildTypeNone, BuildTypeBuild, BuildTypeDesignTime}
  {
  }

  /** Several targets, or a target in other letter case, are a design-time
      build: the comparison is not per target and not case-insensitive. */
  lemma JoinedOrRecasedTargetsAreDesignTime()
    ensures GetBuildType(Some("Build;Clean")) == BuildTypeDesignTime
    ensures GetBuildType(Some("build")) == BuildTypeDesignTime
    ensures GetBuildType(Some("Restore")) == BuildTypeDesignTime
    ensures GetBuildType(Some("Pack")) == BuildTypeBuild
  {
  }
}
