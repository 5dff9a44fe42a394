/** The `xcodebuild` command lines the tool runs (lib/xcodebuild/executor.rb).
    An executor is built once from the configuration, platform, destination
    list, action and extra arguments; it then composes the command that dumps
    build settings and the command that builds a scheme. Running the commands
    through the shell is not part of this model: the operations return the
    command string they would hand to the shell, or the error raised before
    any command is run. */
module Xcodebuild {
  import opened Outcomes
  import Strings

  /** The only action that forces the generic destination. */
  const ArchiveAction := "archive"

  /** The destination name that is expanded to `generic/platform=<platform>`. */
  const GenericDestination := "generic"

  /** Destinations are given as one string, separated by this character. */
  const DestinationSeparator := '|'

  datatype Executor = Executor(
    configuration: string,
    platform: string,
    destinations: seq<string>,
    action: string,
    args: string,
    argumentsState: string)

  /** `Executor.new(configuration, platform, destination, action, args)`. */
  function NewExecutor(configuration: string, platform: string, destination: string,
                       action: string, args: string): (e: Executor)
    ensures e.configuration == configuration && e.platform == platform
    ensures e.action == action && e.args == args
    ensures Strings.IsSplitResult(e.destinations, DestinationSeparator)
    ensures e.argumentsState
            == configuration + "-" + platform + "-" + destination + "-" + action + "-" + args
  {
    JoinFive(configuration, platform, destination, action, args, "-");
    Executor(configuration, platform, Strings.Split(destination, DestinationSeparator), action, args,
             Strings.Join([configuration, platform, destination, action, args], "-"))
  }

  /** Five parts joined, written out. */
  lemma JoinFive(p0: string, p1: string, p2: string, p3: string, p4: string, sep: string)
    ensures Strings.Join([p0, p1, p2, p3, p4], sep) == p0 + sep + p1 + sep + p2 + sep + p3 + sep + p4
  {
    assert [p0] + [p1] == [p0, p1];
    Strings.JoinSnoc([p0], p1, sep);
    assert [p0, p1] + [p2] == [p0, p1, p2];
    Strings.JoinSnoc([p0, p1], p2, sep);
    assert [p0, p1, p2] + [p3] == [p0, p1, p2, p3];
    Strings.JoinSnoc([p0, p1, p2], p3, sep);
    assert [p0, p1, p2, p3] + [p4] == [p0, p1, p2, p3, p4];
    Strings.JoinSnoc([p0, p1, p2, p3], p4, sep);
  }

  /** The destination list is the destination string cut at each `|`: joined
      back, it is the original string up to its trailing separators. */
  lemma DestinationsRoundTrip(configuration: string, platform: string, destination: string,
                              action: string, args: string) returns (n: nat)
    ensures destination
            == Strings.Join(NewExecutor(configuration, platform, destination, action, args).destinations, "|")
               + Strings.Repeat(DestinationSeparator, n)
  {
    n := Strings.SplitLosesOnlyTrailingSeparators(destination, DestinationSeparator);
  }

  /** No other transformation is applied to the destinations: any list of
      `|`-free destinations whose last one is not empty comes back unchanged. */
  lemma DestinationsOfJoined(configuration: string, platform: string, destinations: seq<string>,
                             action: string, args: string)
    requires Strings.IsSplitResult(destinations, DestinationSeparator)
    ensures NewExecutor(configuration, platform, Strings.Join(destinations, "|"), action, args).destinations
            == destinations
  {
    Strings.SplitJoin(destinations, DestinationSeparator);
  }

  /** When no component holds a `-`, the arguments state can be cut back into
      the five components, so it tells apart executors built differently. */
  lemma ArgumentsStateDecodes(configuration: string, platform: string, destination: string,
                              action: string, args: string)
    requires '-' !in configuration && '-' !in platform && '-' !in destination
    requires '-' !in action && '-' !in args
    ensures Strings.SplitAll(NewExecutor(configuration, platform, destination, action, args).argumentsState, '-')
            == [configuration, platform, destination, action, args]
  {
    Strings.SplitAllJoin([configuration, platform, destination, action, args], '-');
  }

  /** With a `-` inside a component, two executors with different
      configurations can share one arguments state: moving the text after a
      `-` from the configuration to the front of the platform keeps the key. */
  lemma ArgumentsStateAmbiguous(c: string, p: string, q: string, d: string, a: string, x: string)
    ensures NewExecutor(c + "-" + p, q, d, a, x).configuration != NewExecutor(c, p + "-" + q, d, a, x).configuration
    ensures NewExecutor(c + "-" + p, q, d, a, x).argumentsState
            == NewExecutor(c, p + "-" + q, d, a, x).argumentsState
  {
  }

  // ---------------------------------------------------------------------------
  // Flags

  /** The project flag quotes the path verbatim, without escaping. */
  function ProjectFlag(projectPath: string): (r: string)
    ensures |r| == |projectPath| + 11 && r[..10] == "-project '" && r[|r| - 1] == '\''
    ensures r[10..|r| - 1] == projectPath
  {
    "-project '" + projectPath + "'"
  }

  /** The configuration flag quotes the executor's configuration verbatim. */
  function ConfigurationFlag(e: Executor): (r: string)
    ensures |r| == |e.configuration| + 17 && r[..16] == "-configuration '" && r[|r| - 1] == '\''
    ensures r[16..|r| - 1] == e.configuration
  {
    "-configuration '" + e.configuration + "'"
  }

  /** Asks for the settings of every target of the project. */
  function AllTargetsFlag(): string
  {
    "-alltargets"
  }

  /** The scheme flag quotes the scheme name verbatim. */
  function SchemeFlag(scheme: string): (r: string)
    ensures |r| == |scheme| + 10 && r[..9] == "-scheme '" && r[|r| - 1] == '\''
    ensures r[9..|r| - 1] == scheme
  {
    "-scheme '" + scheme + "'"
  }

  /** The derived-data flag quotes the path verbatim, without escaping. */
  function DerivedDataPathFlag(path: string): (r: string)
    ensures |r| == |path| + 19 && r[..18] == "-derivedDataPath '" && r[|r| - 1] == '\''
    ensures r[18..|r| - 1] == path
  {
    "-derivedDataPath '" + path + "'"
  }

  /** Asks `xcodebuild` to print build settings instead of building. */
  function ShowBuildSettingsFlag(): string
  {
    "-showBuildSettings"
  }

  /** `compile_command(flags)`: the program name followed by the flags. */
  function CompileCommand(flags: seq<string>): string
  {
    "xcodebuild " + Strings.Join(flags, " ")
  }

  /** A command of seven flags, written out. */
  lemma CompileSevenFlags(f0: string, f1: string, f2: string, f3: string, f4: string, f5: string, f6: string)
    ensures CompileCommand([f0, f1, f2, f3, f4, f5, f6])
            == "xcodebuild " + f0 + " " + f1 + " " + f2 + " " + f3 + " " + f4 + " " + f5 + " " + f6
  {
    var sep := " ";
    assert [f0] + [f1] == [f0, f1];
    Strings.JoinSnoc([f0], f1, sep);
    assert [f0, f1] + [f2] == [f0, f1, f2];
    Strings.JoinSnoc([f0, f1], f2, sep);
    assert [f0, f1, f2] + [f3] == [f0, f1, f2, f3];
    Strings.JoinSnoc([f0, f1, f2], f3, sep);
    assert [f0, f1, f2, f3] + [f4] == [f0, f1, f2, f3, f4];
    Strings.JoinSnoc([f0, f1, f2, f3], f4, sep);
    assert [f0, f1, f2, f3, f4] + [f5] == [f0, f1, f2, f3, f4, f5];
    Strings.JoinSnoc([f0, f1, f2, f3, f4], f5, sep);
    assert [f0, f1, f2, f3, f4, f5] + [f6] == [f0, f1, f2, f3, f4, f5, f6];
    Strings.JoinSnoc([f0, f1, f2, f3, f4, f5], f6, sep);
  }

  /** Flags are emitted in the order given, one space apart. */
  lemma CompileCommandKeepsOrder(first: seq<string>, rest: seq<string>)
    requires |first| > 0 && |rest| > 0
    ensures CompileCommand(first + rest) == CompileCommand(first) + " " + Strings.Join(rest, " ")
  {
    Strings.JoinConcat(first, rest, " ");
  }

  // ---------------------------------------------------------------------------
  // Destination selection

  /** Destination `i` is the first in the list that matches the platform. */
  predicate IsFirstMatch(destinations: seq<string>, platform: string, i: int)
  {
    && 0 <= i < |destinations|
    && Strings.MatchesIgnoringCase(destinations[i], platform)
    && forall j :: 0 <= j < i ==> !Strings.MatchesIgnoringCase(destinations[j], platform)
  }

  /** The destinations that match the platform, keeping their order. */
  function SelectMatching(destinations: seq<string>, platform: string): (r: seq<string>)
    ensures forall k :: 0 <= k < |r| ==> Strings.MatchesIgnoringCase(r[k], platform)
    ensures |r| == 0 <==> forall i :: 0 <= i < |destinations| ==> !Strings.MatchesIgnoringCase(destinations[i], platform)
    ensures |r| > 0 ==> exists i :: IsFirstMatch(destinations, platform, i) && destinations[i] == r[0]
  {
    if |destinations| == 0 then []
    else
      var rest := SelectMatching(destinations[1..], platform);
      if Strings.MatchesIgnoringCase(destinations[0], platform) then
        assert IsFirstMatch(destinations, platform, 0);
        [destinations[0]] + rest
      else
        assert forall i :: 0 < i < |destinations| ==> destinations[i] == destinations[1..][i - 1];
        assert |rest| > 0 ==> exists i :: IsFirstMatch(destinations, platform, i) && destinations[i] == rest[0] by {
          if |rest| > 0 {
            var i :| IsFirstMatch(destinations[1..], platform, i) && destinations[1..][i] == rest[0];
            assert IsFirstMatch(destinations, platform, i + 1);
          }
        }
        rest
  }

  /** The first destination that matches the platform, or none when no
      destination does. */
  function DestinationByPlatform(destinations: seq<string>, platform: string): (r: Option<string>)
    ensures r.None? <==> forall i :: 0 <= i < |destinations| ==> !Strings.MatchesIgnoringCase(destinations[i], platform)
    ensures r.Some? ==> exists i :: IsFirstMatch(destinations, platform, i) && destinations[i] == r.value
  {
    var matching := SelectMatching(destinations, platform);
    if |matching| == 0 then None else Some(matching[0])
  }

  /** The destination before expansion: always the generic one for an archive. */
  function InferredDestination(e: Executor): Option<string>
  {
    if e.action == ArchiveAction then Some(GenericDestination)
    else DestinationByPlatform(e.destinations, e.platform)
  }

  /** The generic destination names the platform; any other is used verbatim. */
  function DestinationSpecifier(destination: string, platform: string): string
  {
    if destination == GenericDestination then "generic/platform=" + platform else destination
  }

  /** `destination_flag`, or the `Informative` error it raises. */
  function DestinationFlag(e: Executor): (r: Result<string>)
    ensures e.action == ArchiveAction ==> r == Success("-destination 'generic/platform=" + e.platform + "'")
    ensures e.action != ArchiveAction ==>
              (r.Failure? <==> forall i :: 0 <= i < |e.destinations| ==> !Strings.MatchesIgnoringCase(e.destinations[i], e.platform))
    ensures r.Failure? ==> r.error == Informative("Destination not set for " + e.platform + " platform")
    ensures e.action != ArchiveAction && r.Success? ==>
              exists i :: && IsFirstMatch(e.destinations, e.platform, i)
                          && (e.destinations[i] == GenericDestination ==>
                                r.value == "-destination 'generic/platform=" + e.platform + "'")
                          && (e.destinations[i] != GenericDestination ==>
                                r.value == "-destination '" + e.destinations[i] + "'")
  {
    assert "-destination '" + ("generic/platform=" + e.platform) == "-destination 'generic/platform=" + e.platform;
    match InferredDestination(e)
    case None => Failure(Informative("Destination not set for " + e.platform + " platform"))
    case Some(destination) => Success("-destination '" + DestinationSpecifier(destination, e.platform) + "'")
  }

  // ---------------------------------------------------------------------------
  // Commands

  /** `load_build_settings(project_path)`: the command that dumps the build
      settings of every target, or the error raised while composing it. */
  function LoadBuildSettingsCommand(e: Executor, projectPath: string): (r: Result<string>)
    ensures r.Failure? <==> DestinationFlag(e).Failure?
    ensures r.Failure? ==> r.error == DestinationFlag(e).error
    ensures r.Success? ==>
              r.value == "xcodebuild " + ProjectFlag(projectPath) + " " + ConfigurationFlag(e) + " "
                         + DestinationFlag(e).value + " " + AllTargetsFlag() + " " + ShowBuildSettingsFlag() + " "
                         + e.args + " " + e.action
  {
    var destination :- DestinationFlag(e);
    var flags := [ProjectFlag(projectPath), ConfigurationFlag(e), destination,
                  AllTargetsFlag(), ShowBuildSettingsFlag(), e.args, e.action];
    CompileSevenFlags(ProjectFlag(projectPath), ConfigurationFlag(e), destination,
                      AllTargetsFlag(), ShowBuildSettingsFlag(), e.args, e.action);
    Success(CompileCommand(flags))
  }

  /** `build(project_path, scheme, derived_data_path)`: the command that builds
      the scheme, piped through `xcpretty`, or the error raised while composing it. */
  function BuildCommand(e: Executor, projectPath: string, scheme: string, derivedDataPath: string): (r: Result<string>)
    ensures r.Failure? <==> DestinationFlag(e).Failure?
    ensures r.Failure? ==> r.error == DestinationFlag(e).error
    ensures r.Success? ==>
              r.value == "xcodebuild " + ProjectFlag(projectPath) + " " + ConfigurationFlag(e) + " "
                         + DestinationFlag(e).value + " " + SchemeFlag(scheme) + " "
                         + DerivedDataPathFlag(derivedDataPath) + " " + e.args + " " + e.action + " | xcpretty"
  {
    var destination :- DestinationFlag(e);
    var flags := [ProjectFlag(projectPath), ConfigurationFlag(e), destination,
                  SchemeFlag(scheme), DerivedDataPathFlag(derivedDataPath), e.args, e.action];
    CompileSevenFlags(ProjectFlag(projectPath), ConfigurationFlag(e), destination,
                      SchemeFlag(scheme), DerivedDataPathFlag(derivedDataPath), e.args, e.action);
    Success(CompileCommand(flags) + " | xcpretty")
  }

  /** `set_up_for_simulator?`: whether the destination flag mentions a simulator. */
  function SetUpForSimulator(e: Executor): (r: Result<bool>)
    ensures r.Failure? <==> DestinationFlag(e).Failure?
    ensures r.Failure? ==> r.error == DestinationFlag(e).error
    ensures r.Success? ==> (r.value <==> Strings.Contains(DestinationFlag(e).value, "Simulator"))
  {
    var flag :- DestinationFlag(e);
    Success(Strings.Contains(flag, "Simulator"))
  }

  /** Only the specifier inside the quotes can make the flag mention a
      simulator: the surrounding text never does. */
  lemma SetUpForSimulatorReadsSpecifier(e: Executor)
    ensures InferredDestination(e).Some? ==>
              SetUpForSimulator(e)
              == Success(Strings.Contains(DestinationSpecifier(InferredDestination(e).value, e.platform), "Simulator"))
  {
    if InferredDestination(e).Some? {
      var specifier := DestinationSpecifier(InferredDestination(e).value, e.platform);
      assert DestinationFlag(e).value == "-destination '" + specifier + "'";
      Strings.ContainsFramed("-destination '", specifier, "'", "Simulator");
    }
  }

  /** An archive is set up for a simulator exactly when the platform name says so. */
  lemma ArchiveSetUpForSimulator(e: Executor)
    requires e.action == ArchiveAction
    ensures SetUpForSimulator(e) == Success(Strings.Contains(e.platform, "Simulator"))
  {
    SetUpForSimulatorReadsSpecifier(e);
    Strings.ContainsFramed("generic/platform=", e.platform, "", "Simulator");
    assert "generic/platform=" + e.platform + "" == "generic/platform=" + e.platform;
  }

  /** Otherwise the first matching destination decides, unless it is the
      generic one, in which case the platform name does. */
  lemma ChosenSetUpForSimulator(e: Executor, i: int)
    requires e.action != ArchiveAction && IsFirstMatch(e.destinations, e.platform, i)
    ensures e.destinations[i] != GenericDestination ==>
              SetUpForSimulator(e) == Success(Strings.Contains(e.destinations[i], "Simulator"))
    ensures e.destinations[i] == GenericDestination ==>
              SetUpForSimulator(e) == Success(Strings.Contains(e.platform, "Simulator"))
  {
    FirstMatchUnique(e.destinations, e.platform, i);
    SetUpForSimulatorReadsSpecifier(e);
    Strings.ContainsFramed("generic/platform=", e.platform, "", "Simulator");
    assert "generic/platform=" + e.platform + "" == "generic/platform=" + e.platform;
  }

  /** There is only one first match, and it is what the selection returns. */
  lemma FirstMatchUnique(destinations: seq<string>, platform: string, i: int)
    requires IsFirstMatch(destinations, platform, i)
    ensures DestinationByPlatform(destinations, platform) == Some(destinations[i])
  {
  }
}
