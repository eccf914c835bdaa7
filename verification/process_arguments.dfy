/** `MSBuildProcessArguments`: the target names requested on a build-tool
    command line, and the binary-log flag appended to it. */
module ProcessArguments {
  import opened Wrappers
  import opened Text
  import Targets

  /** The long form of the target switch. */
  const TargetArgument: string := "--target:"

  /** The `ArgumentOutOfRangeException` of `part.Substring(startIndex)`. */
  datatype ArgumentError = SubstringOutOfRange(part: string, startIndex: nat)

  /** `s.Substring(start)`: throws when `start` is past the end of `s`. */
  function Substring(s: string, start: nat): (r: Result<string, ArgumentError>)
    ensures r.Success? <==> start <= |s|
    ensures r.Success? ==> s == s[..start] + r.value
    ensures r.Failure? ==> r.error == SubstringOutOfRange(s, start)
  {
    if start <= |s| then Success(s[start..]) else Failure(SubstringOutOfRange(s, start))
  }

  /** What one space-separated part of the arguments contributes to the
      target list: the text after a fixed offset for a part starting with
      `--target:` (one character past the colon) and for a part starting with
      `/t` or `-t` (three characters); nothing for any other part. */
  function Contribution(part: string): (r: Result<Option<string>, ArgumentError>)
    ensures StartsWith(part, TargetArgument) ==>
              (r.Success? <==> |part| > |TargetArgument|) &&
              (r.Success? ==> r.value == Some(part[|TargetArgument| + 1..]))
    ensures !StartsWith(part, TargetArgument) && (StartsWith(part, "/t") || StartsWith(part, "-t")) ==>
              (r.Success? <==> |part| >= 3) &&
              (r.Success? ==> r.value == Some(part[3..]))
    ensures !StartsWith(part, TargetArgument) && !StartsWith(part, "/t") && !StartsWith(part, "-t") ==>
              r == Success(None)
  {
    if StartsWith(part, TargetArgument) then
      var t :- Substring(part, |TargetArgument| + 1);
      Success(Some(t))
    else if StartsWith(part, "/t") || StartsWith(part, "-t") then
      var t :- Substring(part, 3);
      Success(Some(t))
    else
      Success(None)
  }

  /** The contributions of `parts` in order, or the error of the first part
      that throws. */
  function Contributions(parts: seq<string>): Result<seq<string>, ArgumentError> {
    if parts == [] then Success([])
    else
      var c :- Contribution(parts[0]);
      var rest :- Contributions(parts[1..]);
      Success(if c.Some? then [c.value] + rest else rest)
  }

  /** `AppendTargets`: a `;` before the new text unless the builder is still
      empty. */
  function AppendTargets(builder: string, targets: string): (r: string)
    ensures |builder| > 0 ==> r == builder + ";" + targets
    ensures |builder| == 0 ==> r == targets
  {
    if |builder| > 0 then builder + ";" + targets else builder + targets
  }

  /** The loop of `Parse`: every part in turn, contributions appended to the
      builder, the first exception aborting. */
  function ParseParts(parts: seq<string>, builder: string): Result<string, ArgumentError> {
    if parts == [] then Success(builder)
    else
      var c :- Contribution(parts[0]);
      if c.Some? then ParseParts(parts[1..], AppendTargets(builder, c.value))
      else ParseParts(parts[1..], builder)
  }

  /** The contributions without the empty ones that precede the first
      non-empty one: those leave the builder empty, so no separator marks
      them. */
  function DropLeadingEmpty(cs: seq<string>): (r: seq<string>)
    ensures r == [] || r[0] != ""
    ensures |r| <= |cs| && r == cs[|cs| - |r|..]
  {
    if cs == [] then []
    else if cs[0] == "" then DropLeadingEmpty(cs[1..])
    else cs
  }

  /** The target list as stated over the contributions: they are joined with
      `;` in argument order, leading empty contributions leaving no trace. */
  function JoinedTargets(cs: seq<string>): string {
    Join(DropLeadingEmpty(cs), ";")
  }

  /** Command-line arguments with the targets and build type parsed out of
      them. `arguments` is what `ToString` returns. */
  datatype ProcessArguments = ProcessArguments(arguments: string, targets: string, buildType: string)

  /** `Parse`: the target list of an argument string, or the exception of
      the first part whose `Substring` is out of range. */
  function Parse(arguments: string): (r: Result<string, ArgumentError>)
    ensures r.Success? <==> Contributions(Split(arguments, ' ')).Success?
    ensures r.Success? ==> r.value == JoinedTargets(Contributions(Split(arguments, ' ')).value)
    ensures r.Failure? ==> r.error == Contributions(Split(arguments, ' ')).error
  {
    var parts := Split(arguments, ' ');
    assert JoinedTargets([]) == "";
    ParsePartsJoins(parts, []);
    assert Contributions(parts).Success? ==>
             [] + Contributions(parts).value == Contributions(parts).value;
    ParseParts(parts, "")
  }

  /** The constructor: a null argument string is stored as empty, then
      `Parse` runs and the build type is derived from the targets; an
      out-of-range `Substring` escapes as the error. */
  function New(arguments: Option<string>): (r: Result<ProcessArguments, ArgumentError>)
    ensures r.Success? <==> Parse(arguments.GetOr("")).Success?
    ensures r.Success? ==> r.value.arguments == arguments.GetOr("")
    ensures r.Success? ==> r.value.targets == Parse(arguments.GetOr("")).value
    ensures r.Success? ==> r.value.buildType == Targets.GetBuildType(Some(r.value.targets))
    ensures r.Failure? ==> r.error == Parse(arguments.GetOr("")).error
  {
    var args := arguments.GetOr("");
    var targets :- Parse(args);
    Success(ProcessArguments(args, targets, Targets.GetBuildType(Some(targets))))
  }

  /** `ToString`: the stored argument string, unchanged. */
  function ToString(a: ProcessArguments): (r: string)
    ensures r == a.arguments
  {
    a.arguments
  }

  /** `GetQuotedBinLogArgument`: a space, then `-bl:` and the quoted path. */
  function QuotedBinLogArgument(binLogFileName: string): (r: string)
    ensures |r| == |binLogFileName| + 7
    ensures r[..6] == " -bl:\"" && r[|r| - 1] == '"'
    ensures r[6..|r| - 1] == binLogFileName
  {
    " -bl:\"" + binLogFileName + "\""
  }

  /** `AddBinLogFileName`: the arguments followed by the quoted binary-log
      flag, the original string an unchanged prefix. */
  function AddBinLogFileName(a: ProcessArguments, binLogFileName: string): (r: string)
    ensures |r| == |a.arguments| + |binLogFileName| + 7
    ensures r[..|a.arguments|] == ToString(a)
    ensures r[|a.arguments|..] == " -bl:\"" + binLogFileName + "\""
  {
    ToString(a) + QuotedBinLogArgument(binLogFileName)
  }

  // ---------------------------------------------------------------------
  // Properties

  lemma {:induction false} JoinAppend(ds: seq<string>, c: string, sep: string)
    requires |ds| >= 1
    ensures Join(ds + [c], sep) == Join(ds, sep) + sep + c
    decreases |ds|
  {
    if |ds| == 1 {
      assert ds + [c] == [ds[0], c];
    } else {
      assert (ds + [c])[1..] == ds[1..] + [c];
      JoinAppend(ds[1..], c, sep);
    }
  }

  lemma {:induction false} JoinStartsWithFirst(ds: seq<string>, sep: string)
    requires |ds| >= 1
    ensures StartsWith(Join(ds, sep), ds[0])
    decreases |ds|
  {
    if |ds| > 1 {
      assert Join(ds, sep) == ds[0] + (sep + Join(ds[1..], sep));
    }
  }

  lemma {:induction false} DropLeadingEmptyAppend(cs: seq<string>, c: string)
    ensures DropLeadingEmpty(cs) == [] ==>
              DropLeadingEmpty(cs + [c]) == (if c == "" then [] else [c])
    ensures DropLeadingEmpty(cs) != [] ==>
              DropLeadingEmpty(cs + [c]) == DropLeadingEmpty(cs) + [c]
    decreases |cs|
  {
    if cs == [] {
      assert cs + [c] == [c];
      assert [c][1..] == [];
    } else {
      assert (cs + [c])[0] == cs[0];
      assert (cs + [c])[1..] == cs[1..] + [c];
      if cs[0] == "" {
        DropLeadingEmptyAppend(cs[1..], c);
      }
    }
  }

  /** Appending one contribution to the builder extends the declarative
      target list by that contribution. */
  lemma AppendTargetsStep(cs: seq<string>, c: string)
    ensures AppendTargets(JoinedTargets(cs), c) == JoinedTargets(cs + [c])
  {
    DropLeadingEmptyAppend(cs, c);
    var ds := DropLeadingEmpty(cs);
    if ds != [] {
      JoinStartsWithFirst(ds, ";");
      JoinAppend(ds, c, ";");
    }
  }

  /** The builder loop computes the declarative target list: started from
      the list of the contributions `done` so far, it ends with the list of
      `done` followed by the contributions of `parts`, and it fails exactly
      when some part throws. */
  lemma {:induction false} ParsePartsJoins(parts: seq<string>, done: seq<string>)
    ensures ParseParts(parts, JoinedTargets(done)).Success? <==> Contributions(parts).Success?
    ensures Contributions(parts).Failure? ==>
              ParseParts(parts, JoinedTargets(done)).error == Contributions(parts).error
    ensures Contributions(parts).Success? ==>
              ParseParts(parts, JoinedTargets(done)).value == JoinedTargets(done + Contributions(parts).value)
    decreases |parts|
  {
    if parts == [] {
      assert done + [] == done;
    } else {
      var c := Contribution(parts[0]);
      if c.Success? {
        if c.value.Some? {
          AppendTargetsStep(done, c.value.value);
          ParsePartsJoins(parts[1..], done + [c.value.value]);
          if Contributions(parts[1..]).Success? {
            assert done + [c.value.value] + Contributions(parts[1..]).value
                == done + Contributions(parts).value;
          }
        } else {
          ParsePartsJoins(parts[1..], done);
        }
      }
    }
  }

  /** When every contribution is non-empty, the targets are exactly the
      contributions joined with `;`. */
  lemma TargetsJoinNonEmptyContributions(arguments: Option<string>)
    requires Contributions(Split(arguments.GetOr(""), ' ')).Success?
    requires forall c | c in Contributions(Split(arguments.GetOr(""), ' ')).value :: c != ""
    ensures New(arguments).Success?
    ensures New(arguments).value.targets == Join(Contributions(Split(arguments.GetOr(""), ' ')).value, ";")
  {
    var parts := Split(arguments.GetOr(""), ' ');
    ParsePartsJoins(parts, []);
    var cs := Contributions(parts).value;
    assert [] + cs == cs;
    if cs != [] {
      assert cs[0] in cs;
    }
  }

  /** Splitting a string extended by a separator and a separator-free piece
      gives the old parts followed by that piece. */
  lemma SplitAppend(s: string, t: string, sep: char)
    requires sep !in t
    ensures Split(s + [sep] + t, sep) == Split(s, sep) + [t]
  {
    var parts := Split(s, sep);
    JoinSplit(s, sep);
    JoinAppend(parts, t, [sep]);
    assert forall i | 0 <= i < |parts + [t]| :: sep !in (parts + [t])[i] by {
      forall i | 0 <= i < |parts + [t]| ensures sep !in (parts + [t])[i] {
        if i < |parts| {
          assert (parts + [t])[i] == parts[i];
        }
      }
    }
    SplitJoin(parts + [t], sep);
  }

  /** A final part that contributes nothing leaves the contributions, and
      the first error, as they were. */
  lemma {:induction false} ContributionsAppendNone(parts: seq<string>, x: string)
    requires Contribution(x) == Success(None)
    ensures Contributions(parts + [x]) == Contributions(parts)
    decreases |parts|
  {
    if parts == [] {
      assert parts + [x] == [x];
      assert [x][1..] == [];
    } else {
      assert (parts + [x])[0] == parts[0];
      assert (parts + [x])[1..] == parts[1..] + [x];
      ContributionsAppendNone(parts[1..], x);
    }
  }

  /** Adding the binary-log switch does not change what the arguments
      parse to, as long as the path holds no space: the switch is one more
      part, and it starts with `-b`. */
  lemma BinLogSwitchKeepsTargets(a: ProcessArguments, binLogFileName: string)
    requires ' ' !in binLogFileName
    ensures Parse(AddBinLogFileName(a, binLogFileName)) == Parse(ToString(a))
  {
    var x := "-bl:\"" + binLogFileName + "\"";
    assert AddBinLogFileName(a, binLogFileName) == a.arguments + [' '] + x;
    assert x[1] == 'b';
    assert !StartsWith(x, TargetArgument) by {
      if |TargetArgument| <= |x| {
        assert x[..|TargetArgument|][1] == 'b';
      }
    }
    assert !StartsWith(x, "/t") && !StartsWith(x, "-t") by {
      assert x[..2][1] == 'b';
    }
    assert ' ' !in x;
    SplitAppend(a.arguments, x, ' ');
    ContributionsAppendNone(Split(a.arguments, ' '), x);
  }

  /** With no target switch, the target list and the build type are empty. */
  lemma NoTargetSwitchMeansNoTargets(arguments: Option<string>)
    requires Contributions(Split(arguments.GetOr(""), ' ')) == Success([])
    ensures New(arguments).Success?
    ensures New(arguments).value.targets == ""
    ensures New(arguments).value.buildType == Targets.BuildTypeNone
  {
    ParsePartsJoins(Split(arguments.GetOr(""), ' '), []);
  }

  /** `ToString` gives back the string the arguments were built from, and
      parsing it again gives the same targets. */
  lemma ToStringRoundTrip(arguments: Option<string>)
    ensures New(arguments).Success? ==>
              && ToString(New(arguments).value) == arguments.GetOr("")
              && New(Some(ToString(New(arguments).value))) == New(arguments)
  {
  }

  /** A null argument string behaves as the empty one. */
  lemma NullArgumentsAreEmpty()
    ensures New(None) == New(Some(""))
    ensures New(None) == Success(ProcessArguments("", "", ""))
  {
    assert Split("", ' ') == [""];
    assert Contribution("") == Success(None);
  }

  /** The fixed offsets at work: `--target:Build` loses the first letter of
      the target, `-target:X` keeps `rget:X`, and any switch starting with
      `/t` counts, so `/tv:15.0` contributes `:15.0`. */
  lemma FixedOffsetContributions()
    ensures Contribution("--target:Build") == Success(Some("uild"))
    ensures Contribution("-target:X") == Success(Some("rget:X"))
    ensures Contribution("/tv:15.0") == Success(Some(":15.0"))
    ensures Contribution("-t:Restore") == Success(Some("Restore"))
    ensures Contribution("-bl:x") == Success(None)
  {
    assert StartsWith("--target:Build", TargetArgument);
    assert "--target:Build"[10..] == "uild";
    assert "-target:X"[1] != TargetArgument[1];
    assert StartsWith("-target:X", "-t");
    assert "-target:X"[3..] == "rget:X";
    assert !StartsWith("/tv:15.0", TargetArgument);
    assert StartsWith("/tv:15.0", "/t");
    assert "/tv:15.0"[3..] == ":15.0";
    assert !StartsWith("-t:Restore", TargetArgument);
    assert StartsWith("-t:Restore", "-t");
    assert "-t:Restore"[3..] == "Restore";
    assert "-bl:x"[1] != TargetArgument[1];
    assert "-bl:x"[0] != "/t"[0] && "-bl:x"[1] != "-t"[1];
  }

  /** A bare `/t` or `-t`, or a bare `--target:`, throws. */
  lemma TooShortSwitchesThrow()
    ensures Contribution("/t") == Failure(SubstringOutOfRange("/t", 3))
    ensures Contribution("-t") == Failure(SubstringOutOfRange("-t", 3))
    ensures Contribution("--target:") == Failure(SubstringOutOfRange("--target:", 10))
  {
    assert !StartsWith("/t", TargetArgument);
    assert StartsWith("/t", "/t");
    assert !StartsWith("-t", TargetArgument);
    assert StartsWith("-t", "-t");
    assert StartsWith("--target:", TargetArgument);
  }

  /** An argument string that is one target switch yields that switch's
      contribution as the target list. */
  lemma OneSwitch(part: string, t: string)
    requires ' ' !in part
    requires Contribution(part) == Success(Some(t))
    ensures New(Some(part)) == Success(ProcessArguments(part, t, Targets.GetBuildType(Some(t))))
  {
    SplitJoin([part], ' ');
    assert Split(part, ' ') == [part];
    assert [part][0] == part && [part][1..] == [];
    assert Contributions([]) == Success([]);
    assert [t] + [] == [t];
    assert Contributions([part]) == Success([t]);
    assert JoinedTargets([t]) == t;
  }

  /** `-t:Restore` is a design-time build of the `Restore` target. */
  lemma RestoreSwitchIsDesignTime()
    ensures New(Some("-t:Restore")) == Success(ProcessArguments("-t:Restore", "Restore", Targets.BuildTypeDesignTime))
  {
    var part := "-t:Restore";
    assert part[1] != TargetArgument[1];
    assert part[..2] == "-t";
    assert part[3..] == "Restore";
    assert Contribution(part) == Success(Some("Restore"));
    assert !Targets.IsBuildTargetName("Restore");
    OneSwitch(part, "Restore");
  }

  /** `-t:Build` is a full build of the `Build` target. */
  lemma BuildSwitchIsBuild()
    ensures New(Some("-t:Build")) == Success(ProcessArguments("-t:Build", "Build", Targets.BuildTypeBuild))
  {
    var part := "-t:Build";
    assert part[1] != TargetArgument[1];
    assert part[..2] == "-t";
    assert part[3..] == "Build";
    assert Contribution(part) == Success(Some("Build"));
    OneSwitch(part, "Build");
  }
}
