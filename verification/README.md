# xcode-archive-cache: command composition and the rebuild decision

This project models two pieces of xcode-archive-cache, a tool that rebuilds
only the Xcode targets whose cached archives are stale.

- **`Xcodebuild::Executor`** (`xcodebuild.dfy`, module `Xcodebuild`). The
  executor is created from a configuration, a platform, a `|`-separated
  destination list, an action and extra arguments. It records an "arguments
  state" key and picks one destination. For `archive` that is always
  `generic/platform=<platform>`. Otherwise it is the first destination that
  matches the platform case-insensitively, and the executor raises
  `Informative` when none matches. It then composes the `xcodebuild` command
  lines that dump build settings and that build a scheme. Each operation
  returns the command string it would run, or the error raised before
  anything runs.
- **`Build::Performer`** (`build.dfy`, module `Build`). `should_rebuild?`
  folds "any node flagged" over the graph's nodes. `rebuild_missing`
  behaves in one of two ways:
  - when nothing is flagged, it logs that there is nothing to rebuild;
  - otherwise it logs the flagged names and calls the executor's `build`
    once, with the target's project path, the target name and the performer's
    derived-data path. It raises `StandardError` when that build reports
    failure.

  The model returns the outcome together with a trace of the log messages and
  build calls. The executor's `build` is a function field of the performer.

Supporting modules: `Outcomes` (`outcomes.dfy`) holds `Option`, `Result` and
the two exception kinds. `Strings` (`strings.dfy`) gives the Ruby library
behaviour the code relies on:
- `Array#join`;
- `String#split` on `|`, which drops trailing empty fields;
- `String#include?`;
- case-insensitive matching against the platform name.

## Model

| member | source | states |
|---|---|---|
| `Xcodebuild.NewExecutor` | lib/xcodebuild/executor.rb:18-26 | The stored configuration, platform, action and args are the ones given. The destinations are `\|`-free and the last one is non-empty. The arguments state is configuration, platform, destination, action and args in that order, separated by `-`. |
| `Xcodebuild.DestinationsRoundTrip` | lib/xcodebuild/executor.rb:21 | The destination string equals its destination list joined by `\|`, followed by some number of `\|`. Splitting drops only trailing separators. |
| `Xcodebuild.DestinationsOfJoined` | lib/xcodebuild/executor.rb:21 | Any list of `\|`-free destinations whose last entry is non-empty comes back unchanged after joining and splitting. Nothing else is done to the fields. |
| `Xcodebuild.ArgumentsStateDecodes` | lib/xcodebuild/executor.rb:25 | When no component contains `-`, cutting the arguments state at `-` gives back the five components in order. |
| `Xcodebuild.ArgumentsStateAmbiguous` | lib/xcodebuild/executor.rb:25 | For all inputs: moving the text after a `-` from the configuration to the front of the platform gives an executor with a different configuration but the same arguments state. |
| `Xcodebuild.ProjectFlag` | lib/xcodebuild/executor.rb:100-102 | The flag is `-project '`, then the path unchanged, then `'`. The path can be read back from between the quotes. |
| `Xcodebuild.ConfigurationFlag` | lib/xcodebuild/executor.rb:106-108 | The flag is `-configuration '`, then the executor's configuration unchanged, then `'`. |
| `Xcodebuild.AllTargetsFlag` | lib/xcodebuild/executor.rb:129-131 | Definition: the constant `-alltargets`. Its position in the settings command is stated by `Xcodebuild.LoadBuildSettingsCommand`. |
| `Xcodebuild.SchemeFlag` | lib/xcodebuild/executor.rb:137-139 | The flag is `-scheme '`, then the scheme unchanged, then `'`. |
| `Xcodebuild.DerivedDataPathFlag` | lib/xcodebuild/executor.rb:145-147 | The flag is `-derivedDataPath '`, then the path unchanged, then `'`. |
| `Xcodebuild.ShowBuildSettingsFlag` | lib/xcodebuild/executor.rb:151-153 | Definition: the constant `-showBuildSettings`. Its position in the settings command is stated by `Xcodebuild.LoadBuildSettingsCommand`. |
| `Xcodebuild.CompileCommand` | lib/xcodebuild/executor.rb:92-94 | Definition: `xcodebuild `, then the flags joined by single spaces. `Xcodebuild.CompileSevenFlags` and `Xcodebuild.CompileCommandKeepsOrder` state what the result is. |
| `Xcodebuild.CompileSevenFlags` | lib/xcodebuild/executor.rb:92-94 | A command of seven flags is `xcodebuild ` followed by the flags in order, one space between each pair. |
| `Xcodebuild.CompileCommandKeepsOrder` | lib/xcodebuild/executor.rb:92-94 | The command for `first + rest` is the command for `first`, then one space, then `rest` joined by spaces. Flag order is kept. |
| `Xcodebuild.SelectMatching` | lib/xcodebuild/executor.rb:113-114 | Every selected destination matches the platform. The selection is empty exactly when no destination matches. Its head is the first matching destination of the list. |
| `Xcodebuild.DestinationByPlatform` | lib/xcodebuild/executor.rb:113-114 | `nil` exactly when no destination matches the platform. Otherwise it is the first destination that matches. |
| `Xcodebuild.FirstMatchUnique` | lib/xcodebuild/executor.rb:114 | Whichever destination is first to match is exactly what the selection returns. |
| `Xcodebuild.InferredDestination` | lib/xcodebuild/executor.rb:118 | Definition: `generic` for `archive`, otherwise the selection by platform. Its meaning is stated through `Xcodebuild.DestinationFlag` and `Xcodebuild.SetUpForSimulatorReadsSpecifier`. |
| `Xcodebuild.DestinationSpecifier` | lib/xcodebuild/executor.rb:123 | Definition: `generic` is expanded to `generic/platform=<platform>`, and any other destination is kept. Its meaning is stated through `Xcodebuild.DestinationFlag`. |
| `Xcodebuild.DestinationFlag` | lib/xcodebuild/executor.rb:112-125 | For `archive`: always `-destination 'generic/platform=<platform>'`, and never an error, whatever the list holds. For any other action: it fails exactly when no destination matches, and the error is `Informative("Destination not set for <platform> platform")`. Otherwise it is built from the first match: `generic` is expanded to `generic/platform=<platform>`, and any other destination is quoted verbatim. |
| `Xcodebuild.LoadBuildSettingsCommand` | lib/xcodebuild/executor.rb:30-40 | Fails exactly when the destination flag fails, with the same error. Otherwise the command is `xcodebuild` followed by the project, configuration and destination flags, then `-alltargets`, `-showBuildSettings`, args and action, in that order. |
| `Xcodebuild.BuildCommand` | lib/xcodebuild/executor.rb:46-56 | Fails exactly when the destination flag fails, with the same error. Otherwise the command is `xcodebuild` followed by the project, configuration, destination, scheme and derivedDataPath flags, then args and action, in that order, with ` \| xcpretty` appended. |
| `Xcodebuild.SetUpForSimulator` | lib/xcodebuild/executor.rb:58-60 | Raises exactly when the destination flag raises, with the same error. Otherwise it is true iff the flag contains `Simulator`. |
| `Xcodebuild.SetUpForSimulatorReadsSpecifier` | lib/xcodebuild/executor.rb:58-60 | Whenever a destination is inferred, the answer is whether the destination specifier contains `Simulator`. The `-destination '…'` wrapping never contributes a match. |
| `Xcodebuild.ArchiveSetUpForSimulator` | lib/xcodebuild/executor.rb:58-60 | For `archive`, the executor is set up for a simulator exactly when the platform name contains `Simulator`. |
| `Xcodebuild.ChosenSetUpForSimulator` | lib/xcodebuild/executor.rb:58-60 | For other actions, the first matching destination decides whether it is a simulator. If that destination is `generic`, the platform name decides. |
| `Strings.Join` | lib/xcodebuild/executor.rb:93 | Definition: `Array#join`, the parts with the separator between each neighbouring pair, and the empty string for no parts; also the `join(", ")` of lib/build/performer.rb line 21. `Strings.JoinConcat` and `Xcodebuild.CompileSevenFlags` state what the result is. |
| `Strings.Split` | lib/xcodebuild/executor.rb:21 | The fields are `\|`-free and, when there are any, the last one is non-empty (`IsSplitResult`). With `Strings.SplitLosesOnlyTrailingSeparators` and `Strings.SplitJoin` this fixes the result to Ruby's `split("\|")`. |
| `Strings.Contains` | lib/xcodebuild/executor.rb:59 | Definition: `include?`, some index where the word occurs. `Strings.ContainsFramed` states where an occurrence can lie. |
| `Strings.MatchesIgnoringCase` | lib/xcodebuild/executor.rb:113-114 | Definition: a stretch of the destination equal to the platform up to ASCII case. `Strings.MatchesIgnoringCaseIsLowerContains` relates it to a lower-case-then-contains reference in both directions. |
| `Strings.SplitLosesOnlyTrailingSeparators` | lib/xcodebuild/executor.rb:21 | `split` loses only trailing separators: the string is the fields joined back, followed by some number of separators. |
| `Strings.SplitJoin` | lib/xcodebuild/executor.rb:21 | Splitting the join of separator-free fields whose last field is non-empty gives the fields back. |
| `Strings.MatchesIgnoringCaseIsLowerContains` | lib/xcodebuild/executor.rb:113-114 | A case-insensitive platform match is the same as a plain substring match after both sides are ASCII lower-cased. |
| `Strings.ContainsMatchesIgnoringCase` | lib/xcodebuild/executor.rb:113-114 | An exact occurrence of the platform is also a case-insensitive match. |
| `Strings.MatchesIgnoringCaseOfLowerCase` | lib/xcodebuild/executor.rb:113 | Lower-casing either the destination or the platform does not change whether they match. |
| `Strings.ContainsFramed` | lib/xcodebuild/executor.rb:59 | An occurrence of `w` in `a + b + c` lies inside `b` when `w` cannot start in `a` and shares no character with `c`. |
| `Build.FoldRebuild` | lib/build/performer.rb:36 | Folding `\|\|` over the nodes from `acc` gives `acc` or "some node is flagged". |
| `Build.ShouldRebuild` | lib/build/performer.rb:35-37 | True iff at least one node has `rebuild` set. False for a graph without nodes. |
| `Build.FlaggedNames` | lib/build/performer.rb:21 | Definition: the names of the flagged nodes. `Build.FlaggedNamesConcat`, `Build.FlaggedNamesMembers` and `Build.FlaggedNamesCount` state which names appear and in what order. |
| `Build.RebuildListMessage` | lib/build/performer.rb:21-22 | Definition: `going to rebuild:` and a newline, then the flagged names joined by `, `. `Build.RebuildMissing` states when it is logged. |
| `Build.FlaggedNamesConcat` | lib/build/performer.rb:21 | The flagged names of two node lists placed one after the other are the names of the first list followed by those of the second. Graph order is kept. |
| `Build.FlaggedNamesMembers` | lib/build/performer.rb:21 | A name is listed iff some flagged node carries it. |
| `Build.FlaggedNamesCount` | lib/build/performer.rb:21 | The list has one name per flagged node. It is empty iff `should_rebuild?` is false. |
| `Build.RebuildMissing` | lib/build/performer.rb:18-31 | When nothing is flagged: zero build calls, the only log is "no need to rebuild anything", and it returns normally. Otherwise the trace is exactly two entries: first the log `going to rebuild:` followed by the flagged names joined by `, `, then one build call with the target's project path, the target name and the derived-data path given at construction. A failed build raises `StandardError("Failed to perform rebuild")`, and a successful one returns normally. |

## Left out

- Shell execution (`Shell::Executor#execute`, `#execute_for_output`) and the `xcpretty` pipe are process I/O. `LoadBuildSettingsCommand` and `BuildCommand` return the command string instead of running it.
- Logging is recorded as `Info` entries in the performer's trace, not performed.
- `Regexp.new(platform, Regexp::IGNORECASE)` is modelled as an ASCII case-insensitive literal substring match. This assumes the platform holds no regular-expression metacharacters. Because of that assumption, the model also leaves out the error Ruby would raise for an invalid pattern, which would happen even for `archive`. Non-ASCII case folding is not modelled.
- `String#split` is modelled for the one-character separator `|` only. Ruby's special whitespace splitting for `" "` does not arise in this code.
- Ruby truthiness of the build result (any non-`nil`, non-`false` object) is modelled as a `bool`.
- Build.RebuildMissing: if the executor's `build` raises (for example, no destination matches), the exception propagates out of `rebuild_missing`. The model does not represent this. Its build function only answers success or failure.
- `should_rebuild?` only reads the graph, so node flags and node order are unchanged afterwards. In this model that holds by construction, because the graph is an immutable value. No lemma states it.
- The settings loader and parser, `BuildSettings::Container`, and the graph and rebuild-propagation logic are not part of this model. Their implementation is not among the files modelled here.
- Quoting and escaping of paths inside `'…'`: the code does none, and the model does none either.
