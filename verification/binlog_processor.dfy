/** `BinaryLogProcessor`: the project files a recorded build touched,
    collected from the `ProjectStarted` events of a replayed binary log. */
module BinLogProcessor {
  import opened Wrappers
  import opened Seqs

  /** The property whose value names the project file. */
  const ProjectFullPathKey: string := "MSBuildProjectFullPath"

  /** One entry of an event's property dictionary. A key that is not a
      string never equals `ProjectFullPathKey`, so it is one more key that
      is ignored. */
  datatype PropertyEntry = PropertyEntry(key: string, value: string)

  /** The parts of a `ProjectStartedEventArgs` the processor reads. A null
      project file behaves as the empty one; `properties` may be null. */
  datatype ProjectStartedEvent = ProjectStartedEvent(
    projectFile: string,
    properties: Option<seq<PropertyEntry>>)

  /** `HashSet.Add` on a set enumerated in insertion order: a new name is
      appended, an existing one leaves the set unchanged. */
  function AddName(names: seq<string>, name: string): (r: seq<string>)
    ensures Elements(r) == Elements(names) + {name}
    ensures name in names ==> r == names
    ensures NoDup(names) ==> NoDup(r)
  {
    if name in names then names else names + [name]
  }

  /** The names an event contributes: its project file when non-empty, and
      the value of every property whose key is exactly `ProjectFullPathKey`. */
  function EventNames(e: ProjectStartedEvent): set<string> {
    (if e.projectFile != "" then {e.projectFile} else {})
    + (if e.properties.Some? then set p | p in e.properties.value && p.key == ProjectFullPathKey :: p.value
       else {})
  }

  /** The loop over the property entries. */
  function AddProperties(names: seq<string>, properties: seq<PropertyEntry>): (r: seq<string>)
    ensures Elements(r) ==
              Elements(names) + set p | p in properties && p.key == ProjectFullPathKey :: p.value
    ensures NoDup(names) ==> NoDup(r)
    decreases |properties|
  {
    if properties == [] then names
    else
      var p := properties[0];
      var next := if p.key == ProjectFullPathKey then AddName(names, p.value) else names;
      var r := AddProperties(next, properties[1..]);
      assert forall q | q in properties :: q == p || q in properties[1..];
      r
  }

  /** The `ProjectStarted` handler. */
  function ProjectStarted(names: seq<string>, e: ProjectStartedEvent): (r: seq<string>)
    ensures Elements(r) == Elements(names) + EventNames(e)
    ensures NoDup(names) ==> NoDup(r)
  {
    var withFile := if e.projectFile != "" then AddName(names, e.projectFile) else names;
    if e.properties.None? then withFile
    else AddProperties(withFile, e.properties.value)
  }

  /** The names of all replayed events together. */
  function AllEventNames(events: seq<ProjectStartedEvent>): set<string> {
    if events == [] then {} else EventNames(events[0]) + AllEventNames(events[1..])
  }

  /** Replaying events into the processor's set. */
  function Replay(names: seq<string>, events: seq<ProjectStartedEvent>): (r: seq<string>)
    ensures Elements(r) == Elements(names) + AllEventNames(events)
    ensures NoDup(names) ==> NoDup(r)
    decreases |events|
  {
    if events == [] then names
    else Replay(ProjectStarted(names, events[0]), events[1..])
  }

  /** `ProjectFileNames` after `Process`: every contributed name exactly
      once. */
  function ProjectFileNames(events: seq<ProjectStartedEvent>): (r: seq<string>)
    ensures Elements(r) == AllEventNames(events)
    ensures NoDup(r)
  {
    Replay([], events)
  }

  /** Names already in the set are not added again. */
  lemma {:induction false} AddPropertiesKeepsKnownNames(names: seq<string>, properties: seq<PropertyEntry>)
    requires forall p | p in properties && p.key == ProjectFullPathKey :: p.value in names
    ensures AddProperties(names, properties) == names
    decreases |properties|
  {
    if properties != [] {
      assert properties[0] in properties;
      AddPropertiesKeepsKnownNames(names, properties[1..]);
    }
  }

  /** Handling the same event twice is handling it once. */
  lemma ProjectStartedIdempotent(names: seq<string>, e: ProjectStartedEvent)
    ensures ProjectStarted(ProjectStarted(names, e), e) == ProjectStarted(names, e)
  {
    var once := ProjectStarted(names, e);
    assert EventNames(e) <= Elements(once);
    if e.properties.Some? {
      assert forall p | p in e.properties.value && p.key == ProjectFullPathKey :: p.value in EventNames(e);
      var withFile := if e.projectFile != "" then AddName(once, e.projectFile) else once;
      assert withFile == once;
      AddPropertiesKeepsKnownNames(once, e.properties.value);
    }
  }

  /** A project file named by a property but not by `ProjectFile` is still
      collected; a property under any other key is not. */
  lemma OnlyFullPathPropertyCounts(path: string, other: string)
    requires path != ""
    ensures EventNames(ProjectStartedEvent("", Some([PropertyEntry(ProjectFullPathKey, path),
                                                      PropertyEntry("MSBuildProjectFile", other)])))
            == {path}
    ensures EventNames(ProjectStartedEvent(path, None)) == {path}
  {
    var props := [PropertyEntry(ProjectFullPathKey, path), PropertyEntry("MSBuildProjectFile", other)];
    assert "MSBuildProjectFile" != ProjectFullPathKey by {
      assert |"MSBuildProjectFile"| != |ProjectFullPathKey|;
    }
    assert forall p | p in props && p.key == ProjectFullPathKey :: p == props[0];
    assert props[0] in props;
  }
}
