/** The go/no-go rebuild decision (lib/build/performer.rb). The performer
    holds the executor's `build` call and the derived-data path it was
    created with. Asked to rebuild what is missing for a target, it either
    reports that nothing needs rebuilding or logs the flagged nodes and calls
    the build once, raising when the build reports failure. The log and the
    build call are recorded in a trace instead of being performed. */
module Build {
  import opened Outcomes
  import Strings

  /** A graph node: a target name and whether it is flagged for rebuild. */
  datatype Node = Node(name: string, rebuild: bool)

  /** The build graph, as far as the performer reads it: its nodes in order. */
  datatype Graph = Graph(nodes: seq<Node>)

  /** A native target: the path of its owning project and its name. */
  datatype Target = Target(projectPath: string, name: string)

  /** `Performer.new(xcodebuild_executor, derived_data_path)`. The executor's
      `build(project_path, scheme, derived_data_path)` is a function that says
      whether the build succeeded. */
  datatype Performer = Performer(
    executorBuild: (string, string, string) -> bool,
    derivedDataPath: string)

  /** An observable effect of the performer, in the order it happens. */
  datatype Effect =
    | Info(message: string)
    | BuildCall(projectPath: string, scheme: string, derivedDataPath: string)

  /** How `rebuild_missing` ends: nothing to do, a build that succeeded, or
      the error raised after a failed build. */
  datatype Outcome = NothingToRebuild | Rebuilt | Failed(error: Error)

  datatype Run = Run(outcome: Outcome, trace: seq<Effect>)

  const NothingToRebuildMessage := "no need to rebuild anything"
  const GoingToRebuildHeader := "going to rebuild:\n"
  const RebuildFailedMessage := "Failed to perform rebuild"

  /** Some node in `nodes` is flagged for rebuild. */
  predicate AnyFlagged(nodes: seq<Node>)
  {
    exists i :: 0 <= i < |nodes| && nodes[i].rebuild
  }

  /** The left fold of `should_rebuild?`: starting from `acc`, or-ing in each
      node's rebuild flag in graph order. */
  function FoldRebuild(acc: bool, nodes: seq<Node>): (r: bool)
    ensures r <==> acc || AnyFlagged(nodes)
    decreases |nodes|
  {
    if |nodes| == 0 then acc
    else
      assert forall i :: 0 < i < |nodes| ==> nodes[i] == nodes[1..][i - 1];
      assert AnyFlagged(nodes) <==> nodes[0].rebuild || AnyFlagged(nodes[1..]) by {
        if AnyFlagged(nodes[1..]) {
          var i :| 0 <= i < |nodes[1..]| && nodes[1..][i].rebuild;
          assert nodes[i + 1].rebuild;
        }
      }
      FoldRebuild(acc || nodes[0].rebuild, nodes[1..])
  }

  /** `should_rebuild?(graph)`: true exactly when some node is flagged, so
      false for a graph without nodes. */
  function ShouldRebuild(graph: Graph): (r: bool)
    ensures r <==> AnyFlagged(graph.nodes)
    ensures |graph.nodes| == 0 ==> !r
  {
    FoldRebuild(false, graph.nodes)
  }

  /** The names of the nodes flagged for rebuild, in graph order. */
  function FlaggedNames(nodes: seq<Node>): seq<string>
  {
    if |nodes| == 0 then []
    else (if nodes[0].rebuild then [nodes[0].name] else []) + FlaggedNames(nodes[1..])
  }

  /** The flagged names of a concatenation are those of each half, in order:
      the list follows graph order. */
  lemma {:induction false} FlaggedNamesConcat(a: seq<Node>, b: seq<Node>)
    ensures FlaggedNames(a + b) == FlaggedNames(a) + FlaggedNames(b)
  {
    if |a| > 0 {
      assert (a + b)[0] == a[0];
      assert (a + b)[1..] == a[1..] + b;
      FlaggedNamesConcat(a[1..], b);
    } else {
      assert a + b == b;
    }
  }

  /** A name is listed exactly when some flagged node carries it. */
  lemma {:induction false} FlaggedNamesMembers(nodes: seq<Node>, name: string)
    ensures name in FlaggedNames(nodes) <==> exists i :: 0 <= i < |nodes| && nodes[i].rebuild && nodes[i].name == name
  {
    if |nodes| > 0 {
      FlaggedNamesMembers(nodes[1..], name);
      assert forall i :: 0 < i < |nodes| ==> nodes[i] == nodes[1..][i - 1];
      if exists i :: 0 <= i < |nodes| && nodes[i].rebuild && nodes[i].name == name {
        var i :| 0 <= i < |nodes| && nodes[i].rebuild && nodes[i].name == name;
        if i > 0 {
          assert nodes[1..][i - 1].rebuild && nodes[1..][i - 1].name == name;
        }
      }
      if name in FlaggedNames(nodes[1..]) {
        var i :| 0 <= i < |nodes[1..]| && nodes[1..][i].rebuild && nodes[1..][i].name == name;
        assert nodes[i + 1].rebuild && nodes[i + 1].name == name;
      }
    }
  }

  /** The number of flagged nodes. */
  function FlaggedCount(nodes: seq<Node>): nat
  {
    if |nodes| == 0 then 0 else (if nodes[0].rebuild then 1 else 0) + FlaggedCount(nodes[1..])
  }

  /** One name per flagged node, and the list is empty exactly when
      `should_rebuild?` is false. */
  lemma {:induction false} FlaggedNamesCount(nodes: seq<Node>)
    ensures |FlaggedNames(nodes)| == FlaggedCount(nodes)
    ensures |FlaggedNames(nodes)| == 0 <==> !ShouldRebuild(Graph(nodes))
  {
    if |nodes| > 0 {
      FlaggedNamesCount(nodes[1..]);
      assert forall i :: 0 < i < |nodes| ==> nodes[i] == nodes[1..][i - 1];
      if AnyFlagged(nodes[1..]) {
        var i :| 0 <= i < |nodes[1..]| && nodes[1..][i].rebuild;
        assert nodes[i + 1].rebuild;
      }
    }
  }

  /** The log line announcing a rebuild: the flagged names joined by ", ". */
  function RebuildListMessage(graph: Graph): string
  {
    GoingToRebuildHeader + Strings.Join(FlaggedNames(graph.nodes), ", ")
  }

  /** How many build calls a trace holds. */
  function BuildCallCount(trace: seq<Effect>): nat
  {
    if |trace| == 0 then 0 else (if trace[0].BuildCall? then 1 else 0) + BuildCallCount(trace[1..])
  }

  /** `rebuild_missing(target, graph)`. */
  function RebuildMissing(p: Performer, target: Target, graph: Graph): (r: Run)
    // Zero calls and a normal return when nothing is flagged.
    ensures !ShouldRebuild(graph) ==>
              r.outcome == NothingToRebuild && BuildCallCount(r.trace) == 0
              && r.trace == [Info(NothingToRebuildMessage)]
    // Otherwise the flagged names are logged, then exactly one call is made,
    // for the target's project and scheme and the performer's derived-data path.
    ensures ShouldRebuild(graph) ==> BuildCallCount(r.trace) == 1
    ensures ShouldRebuild(graph) ==>
              r.trace == [Info(RebuildListMessage(graph)),
                          BuildCall(target.projectPath, target.name, p.derivedDataPath)]
    // The build's answer decides the outcome.
    ensures r.outcome == Rebuilt <==>
              ShouldRebuild(graph) && p.executorBuild(target.projectPath, target.name, p.derivedDataPath)
    ensures r.outcome.Failed? <==>
              ShouldRebuild(graph) && !p.executorBuild(target.projectPath, target.name, p.derivedDataPath)
    ensures r.outcome.Failed? ==> r.outcome.error == StandardError(RebuildFailedMessage)
  {
    if ShouldRebuild(graph) then
      var call := BuildCall(target.projectPath, target.name, p.derivedDataPath);
      var trace := [Info(RebuildListMessage(graph)), call];
      assert BuildCallCount(trace) == 1 by {
        assert trace[1..] == [call] && [call][1..] == [];
        assert BuildCallCount([call]) == 1 + BuildCallCount([]);
        assert BuildCallCount(trace) == BuildCallCount([call]);
      }
      if p.executorBuild(call.projectPath, call.scheme, call.derivedDataPath) then Run(Rebuilt, trace)
      else Run(Failed(StandardError(RebuildFailedMessage)), trace)
    else
      Run(NothingToRebuild, [Info(NothingToRebuildMessage)])
  }
}
