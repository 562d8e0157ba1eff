/**
 Every state the local runner can reach through any sequence of start, segment, approve
 and cancel operations on one workflow. Operations are atomic; a segment may be
 cancelled at any of its nodes, and a task may be cancelled before it first runs.
 */
module WorkflowReachable {
  import opened Prelude
  import opened Workflow
  import opened WorkflowTransparency

  /** One workflow of the runner: its row, and the graph state of a launched task. */
  datatype Run = Run(row: Option<Row>, task: Option<GraphState>)

  datatype Op =
    | Start
    | RunSegment(cancelAt: Option<nat>)
    | Approve(name: string, decision: string)
    | Cancel

  /** One operation; an operation that raises leaves the state as it is. A task cancelled
      before it first runs never enters `_execute`, so nothing marks the row. */
  ghost function Next(w: World, steps: seq<Step>, s: Run, op: Op): Run {
    match op
    case Start =>
      if s.row.Some? then s else Run(Some(CREATED), Some(GraphState(map[], None)))
    case RunSegment(cancelAt) =>
      if s.row.None? || s.task.None? then s
      else
        var gs := s.task.value;
        Run(Some(RunFrom(w, steps, 0, gs, gs.results.Keys, s.row.value, cancelAt).row), None)
    case Approve(name, decision) =>
      if s.row.None? || !MayApprove(s.row.value, name) then s
      else
        var row := ApproveRow(steps, s.row.value, name, decision);
        Run(Some(row), Some(GraphState(row.steps, None)))
    case Cancel =>
      if s.row.None? then s
      else if s.task.Some? then Run(s.row, None)
      else Run(Some(s.row.value.SetStatus(Cancelled, None)), None)
  }

  const INITIAL := Run(None, None)

  ghost function After(w: World, steps: seq<Step>, s: Run, ops: seq<Op>): Run
    decreases |ops|
  {
    if ops == [] then s else After(w, steps, Next(w, steps, s, ops[0]), ops[1..])
  }

  // ---------------------------------------------------------------- the invariant

  /** Node i's stored result lets the run go on. */
  predicate Passed(steps: seq<Step>, i: nat, results: Results)
    requires i < |steps|
  {
    var key := GraphKey(steps, i);
    key in results && (results[key].status == Completed || (results[key].status == Skipped && steps[i].Agent?))
  }

  /** The stored results cover exactly the first n steps, and all but the last of them are
      completed or skipped. */
  ghost predicate CoversPrefix(steps: seq<Step>, n: nat, results: Results) {
    && n <= |steps|
    && results.Keys == KeysBefore(steps, n)
    && forall i :: 0 <= i < n - 1 ==> Passed(steps, i, results)
  }

  ghost predicate AllPassed(steps: seq<Step>, n: nat, results: Results) {
    n <= |steps| && results.Keys == KeysBefore(steps, n) && forall i :: 0 <= i < n ==> Passed(steps, i, results)
  }

  /** What holds of a row that no task is working on. */
  ghost predicate Resting(w: World, steps: seq<Step>, n: nat, row: Row) {
    && CoversPrefix(steps, n, row.steps)
    && (row.status == Paused ==>
          && !w.autoApprove
          && n > 0 && steps[n - 1].Gate?
          && row.steps[GraphKey(steps, n - 1)].status == AwaitingApproval
          && row.currentStep == Some(steps[n - 1].name))
  }

  /** What holds of a row with a launched task. */
  ghost predicate Launched(steps: seq<Step>, n: nat, row: Row, gs: GraphState) {
    && AllPassed(steps, n, row.steps)
    && row.status == Running
    && gs == GraphState(row.steps, None)
  }

  ghost predicate Inv(w: World, steps: seq<Step>, s: Run) {
    match s.row
    case None => s.task.None?
    case Some(row) =>
      if s.task.Some? then exists n: nat :: Launched(steps, n, row, s.task.value)
      else exists n: nat :: Resting(w, steps, n, row)
  }

  // ---------------------------------------------------------------- a segment keeps it

  /** Inside a segment: node i-1 has just run, the graph state knows the first m nodes and
      the row the first p. Only node i-1 can have left a result that stops the run, and if
      it paused, it did so on a gate that is not stored yet. */
  ghost predicate Mid(w: World, steps: seq<Step>, i: nat, m: nat, p: nat,
                      gs: GraphState, persisted: set<Key>, row: Row) {
    && i <= m <= |steps| && p <= m && (p == m || (m == p + 1 && i == m))
    && AllPassed(steps, p, row.steps)
    && persisted == row.steps.Keys
    && gs.results.Keys == KeysBefore(steps, m)
    && (forall j :: 0 <= j < m && j != i - 1 ==> Passed(steps, j, gs.results))
    && (i > 0 && !Passed(steps, i - 1, gs.results) ==>
          var r := gs.results[GraphKey(steps, i - 1)];
          || r.status == Failed || r.status == Denied
          || (&& r.status == AwaitingApproval && !w.autoApprove
              && steps[i - 1].Gate? && gs.pausedAt == Some(steps[i - 1].name)
              && m == p + 1))
    && (gs.pausedAt.Some? ==> i > 0 && !Passed(steps, i - 1, gs.results))
  }

  lemma PersistMid(w: World, steps: seq<Step>, i: nat, m: nat, p: nat, gs: GraphState, persisted: set<Key>, row: Row)
    requires UniqueKeys(steps) && Mid(w, steps, i, m, p, gs, persisted, row)
    ensures var stored := Persist(row, gs.results, persisted);
      && stored.steps.Keys == KeysBefore(steps, m)
      && (forall j :: 0 <= j < p ==> Passed(steps, j, stored.steps))
      && (m > p ==> stored.steps[GraphKey(steps, p)] == gs.results[GraphKey(steps, p)])
  {
    if m == p {
      assert gs.results.Keys - persisted == {};
    } else {
      var key := GraphKey(steps, p);
      KeyIsNew(steps, p);
      PersistOne(row, gs.results, key);
      var extended := row.steps[key := gs.results[key]];
      forall j | 0 <= j < p
        ensures Passed(steps, j, extended)
      {
        assert Passed(steps, j, row.steps);
      }
    }
  }

  /** Persisting when exactly one key is new. */
  lemma PersistOne(row: Row, results: Results, key: Key)
    requires key !in row.steps && results.Keys == row.steps.Keys + {key}
    ensures Persist(row, results, row.steps.Keys) ==
            row.(steps := row.steps[key := results[key]], currentStep := Some(key))
  {
    assert results.Keys - row.steps.Keys == {key};
    assert row.steps + (map k | k in {key} :: results[k]) == row.steps[key := results[key]];
  }

  /** With no failure and no pause pending, what is stored lets the run go on. */
  lemma StoredPassed(w: World, steps: seq<Step>, i: nat, m: nat, p: nat, gs: GraphState, persisted: set<Key>, row: Row)
    requires UniqueKeys(steps) && Mid(w, steps, i, m, p, gs, persisted, row)
    requires !HasFailure(gs.results) && gs.pausedAt.None?
    ensures i > 0 ==> Passed(steps, i - 1, gs.results)
    ensures AllPassed(steps, m, Persist(row, gs.results, persisted).steps)
  {
    PersistMid(w, steps, i, m, p, gs, persisted, row);
    var stored := Persist(row, gs.results, persisted);
    if i > 0 {
      assert GraphKey(steps, i - 1) in KeysBefore(steps, m);
    }
    forall j | 0 <= j < m
      ensures Passed(steps, j, stored.steps)
    {
      if j == p {
        assert Passed(steps, p, gs.results);
      }
    }
  }

  /** What a node that runs outside a pause does to the graph state: it touches its own
      key only, and what it leaves there passes, failed, or awaits approval at a gate. */
  predicate Leaves(w: World, steps: seq<Step>, i: nat, gs: GraphState, after: GraphState)
    requires i < |steps|
  {
    var key := GraphKey(steps, i);
    && after.results.Keys == gs.results.Keys + {key}
    && (forall k :: k in gs.results && k != key ==> after.results[k] == gs.results[k])
    && if after.pausedAt.Some? then
         && key !in gs.results && !w.autoApprove && steps[i].Gate?
         && after.pausedAt == Some(steps[i].name) && after.results[key].status == AwaitingApproval
       else
         Passed(steps, i, after.results) || after.results[key].status in {Failed, Denied}
  }

  lemma NodeLeaves(w: World, steps: seq<Step>, i: nat, gs: GraphState)
    requires AgentsSettle(w) && i < |steps| && gs.pausedAt.None?
    requires GraphKey(steps, i) in gs.results ==> Passed(steps, i, gs.results)
    requires RunNode(w, steps, i, gs).branch != Crashed
    ensures Leaves(w, steps, i, gs, RunNode(w, steps, i, gs).state)
  {
    if GraphKey(steps, i) in gs.results {
      assert gs.results.Keys + {GraphKey(steps, i)} == gs.results.Keys;
    }
  }

  lemma NodeKeepsMid(w: World, steps: seq<Step>, i: nat, m: nat, gs: GraphState, stored: Row)
    requires UniqueKeys(steps) && AgentsSettle(w)
    requires i < |steps| && Mid(w, steps, i, m, m, gs, stored.steps.Keys, stored)
    requires gs.pausedAt.None? && (i > 0 ==> Passed(steps, i - 1, gs.results))
    requires RunNode(w, steps, i, gs).branch != Crashed
    ensures var after, known := RunNode(w, steps, i, gs).state, if i < m then m else m + 1;
      Mid(w, steps, i + 1, known, m, after, stored.steps.Keys, stored)
  {
    KnownBefore(w, steps, i, m, gs, stored);
    NodeLeaves(w, steps, i, gs);
    MidAfter(w, steps, i, m, gs, RunNode(w, steps, i, gs).state, stored);
  }

  /** The graph state knows node i exactly if it is among the first m, and then it passed. */
  lemma KnownBefore(w: World, steps: seq<Step>, i: nat, m: nat, gs: GraphState, stored: Row)
    requires UniqueKeys(steps) && i < |steps| && Mid(w, steps, i, m, m, gs, stored.steps.Keys, stored)
    ensures GraphKey(steps, i) in gs.results <==> i < m
    ensures i < m ==> Passed(steps, i, gs.results)
  {
    if i < m {
      assert GraphKey(steps, i) in KeysBefore(steps, m);
    } else {
      KeyIsNew(steps, i);
    }
  }

  lemma MidAfter(w: World, steps: seq<Step>, i: nat, m: nat, gs: GraphState, after: GraphState, stored: Row)
    requires UniqueKeys(steps) && i < |steps| && Mid(w, steps, i, m, m, gs, stored.steps.Keys, stored)
    requires i > 0 ==> Passed(steps, i - 1, gs.results)
    requires (GraphKey(steps, i) in gs.results <==> i < m) && Leaves(w, steps, i, gs, after)
    ensures Mid(w, steps, i + 1, if i < m then m else m + 1, m, after, stored.steps.Keys, stored)
  {
    OtherNodesKeep(steps, i, m, gs.results, after.results);
  }

  /** Nodes other than i keep their results, and node i is known afterwards. */
  lemma OtherNodesKeep(steps: seq<Step>, i: nat, m: nat, before: Results, after: Results)
    requires UniqueKeys(steps) && i < |steps| && i <= m <= |steps|
    requires before.Keys == KeysBefore(steps, m)
    requires forall j :: 0 <= j < m ==> Passed(steps, j, before)
    requires after.Keys == before.Keys + {GraphKey(steps, i)}
    requires forall k :: k in before && k != GraphKey(steps, i) ==> after[k] == before[k]
    ensures after.Keys == KeysBefore(steps, if i < m then m else m + 1)
    ensures forall j :: 0 <= j < m && j != i ==> Passed(steps, j, after)
  {
    if i < m {
      assert GraphKey(steps, i) in KeysBefore(steps, m);
    } else {
      KeyIsNew(steps, i);
    }
    forall j | 0 <= j < m && j != i
      ensures Passed(steps, j, after)
    {
      assert Passed(steps, j, before);
      assert GraphKey(steps, j) != GraphKey(steps, i);
    }
  }

  lemma Announced(w: World, steps: seq<Step>, i: nat, m: nat, p: nat, gs: GraphState, persisted: set<Key>, row: Row)
    requires i < |steps| && Mid(w, steps, i, m, p, gs, persisted, row)
    ensures Mid(w, steps, i, m, p, gs, persisted, row.Append(Started(steps[i].name)))
  {
  }

  lemma StoreCovers(w: World, steps: seq<Step>, i: nat, m: nat, p: nat, gs: GraphState, persisted: set<Key>, row: Row)
    requires UniqueKeys(steps) && Mid(w, steps, i, m, p, gs, persisted, row)
    ensures var stored := Persist(row, gs.results, persisted);
      CoversPrefix(steps, m, stored.steps)
  {
    PersistMid(w, steps, i, m, p, gs, persisted, row);
  }

  lemma StoreMid(w: World, steps: seq<Step>, i: nat, m: nat, p: nat, gs: GraphState, persisted: set<Key>, row: Row)
    requires UniqueKeys(steps) && Mid(w, steps, i, m, p, gs, persisted, row)
    requires !HasFailure(gs.results) && gs.pausedAt.None?
    ensures var stored := Persist(row, gs.results, persisted);
      && Mid(w, steps, i, m, m, gs, stored.steps.Keys, stored)
      && persisted + gs.results.Keys == stored.steps.Keys
      && (i > 0 ==> Passed(steps, i - 1, gs.results))
  {
    PersistMid(w, steps, i, m, p, gs, persisted, row);
    StoredPassed(w, steps, i, m, p, gs, persisted, row);
  }

  /** A segment that ends otherwise than at a gate leaves the row at rest. */
  lemma Ends(w: World, steps: seq<Step>, m: nat, stored: Row, e: Event, status: RunStatus)
    requires CoversPrefix(steps, m, stored.steps) && status != Paused
    ensures Resting(w, steps, m, stored.Append(e).SetStatus(status, None))
    ensures Resting(w, steps, m, stored.SetStatus(status, None))
  {
  }

  lemma {:induction false} SegmentKeeps(w: World, steps: seq<Step>, i: nat, m: nat, p: nat, gs: GraphState,
                                        persisted: set<Key>, row: Row, cancelAt: Option<nat>)
    returns (n: nat)
    requires UniqueKeys(steps) && AgentsSettle(w)
    requires Mid(w, steps, i, m, p, gs, persisted, row)
    ensures Resting(w, steps, n, RunFrom(w, steps, i, gs, persisted, row, cancelAt).row)
    decreases |steps| - i
  {
    var announced := if i < |steps| then row.Append(Started(steps[i].name)) else row;
    assert Mid(w, steps, i, m, p, gs, persisted, announced) by {
      if i < |steps| {
        Announced(w, steps, i, m, p, gs, persisted, row);
      }
    }
    RestIs(w, steps, i, gs, persisted, row, cancelAt);
    n := SegmentSettles(w, steps, i, m, p, gs, persisted, announced, cancelAt);
  }

  lemma RestIs(w: World, steps: seq<Step>, i: nat, gs: GraphState, persisted: set<Key>, row: Row, cancelAt: Option<nat>)
    requires i <= |steps|
    ensures RunFrom(w, steps, i, gs, persisted, row, cancelAt).row ==
            Rest(w, steps, i, gs, persisted,
                 if i < |steps| then row.Append(Started(steps[i].name)) else row, cancelAt)
  {
  }

  /** The body of `RunFrom` after the announcement of the next node. */
  ghost function Rest(w: World, steps: seq<Step>, i: nat, gs: GraphState, persisted: set<Key>,
                      announced: Row, cancelAt: Option<nat>): Row
    requires i <= |steps|
  {
    var stored := Persist(announced, gs.results, persisted);
    if HasFailure(gs.results) then stored.Append(StepsFailed).SetStatus(RunFailed, None)
    else if gs.pausedAt.Some? then stored.SetStatus(Paused, gs.pausedAt).Append(PausedAt(gs.pausedAt.value))
    else if cancelAt == Some(i) then stored.SetStatus(Cancelled, None)
    else if i == |steps| then stored.Append(Finished).SetStatus(RunCompleted, None)
    else if RunNode(w, steps, i, gs).branch == Crashed then
      stored.Append(GraphCrashed).SetStatus(RunFailed, None)
    else
      RunFrom(w, steps, i + 1, RunNode(w, steps, i, gs).state, persisted + gs.results.Keys, stored, cancelAt).row
  }

  predicate GoesOn(w: World, steps: seq<Step>, i: nat, gs: GraphState, cancelAt: Option<nat>)
    requires i <= |steps|
  {
    && !HasFailure(gs.results) && gs.pausedAt.None? && cancelAt != Some(i)
    && i < |steps| && RunNode(w, steps, i, gs).branch != Crashed
  }

  lemma SegmentStops(w: World, steps: seq<Step>, i: nat, m: nat, p: nat, gs: GraphState,
                     persisted: set<Key>, row: Row, cancelAt: Option<nat>)
    requires UniqueKeys(steps) && Mid(w, steps, i, m, p, gs, persisted, row)
    requires !GoesOn(w, steps, i, gs, cancelAt)
    ensures Resting(w, steps, m, Rest(w, steps, i, gs, persisted, row, cancelAt))
  {
    var stored := Persist(row, gs.results, persisted);
    if HasFailure(gs.results) || gs.pausedAt.None? {
      StoreCovers(w, steps, i, m, p, gs, persisted, row);
      Ends(w, steps, m, stored, StepsFailed, RunFailed);
      Ends(w, steps, m, stored, GraphCrashed, RunFailed);
      Ends(w, steps, m, stored, Finished, Cancelled);
      Ends(w, steps, m, stored, Finished, RunCompleted);
    } else {
      StopsAtGate(w, steps, i, m, p, gs, persisted, row);
    }
  }

  lemma {:induction false} SegmentSettles(w: World, steps: seq<Step>, i: nat, m: nat, p: nat, gs: GraphState,
                                          persisted: set<Key>, row: Row, cancelAt: Option<nat>)
    returns (n: nat)
    requires UniqueKeys(steps) && AgentsSettle(w)
    requires Mid(w, steps, i, m, p, gs, persisted, row)
    ensures Resting(w, steps, n, Rest(w, steps, i, gs, persisted, row, cancelAt))
    decreases |steps| - i, 1
  {
    if GoesOn(w, steps, i, gs, cancelAt) {
      StoreMid(w, steps, i, m, p, gs, persisted, row);
      n := SegmentGoesOn(w, steps, i, m, gs, Persist(row, gs.results, persisted), cancelAt);
    } else {
      SegmentStops(w, steps, i, m, p, gs, persisted, row, cancelAt);
      n := m;
    }
  }

  lemma {:induction false} SegmentGoesOn(w: World, steps: seq<Step>, i: nat, m: nat, gs: GraphState,
                                         stored: Row, cancelAt: Option<nat>)
    returns (n: nat)
    requires UniqueKeys(steps) && AgentsSettle(w)
    requires i < |steps| && Mid(w, steps, i, m, m, gs, stored.steps.Keys, stored)
    requires gs.pausedAt.None? && (i > 0 ==> Passed(steps, i - 1, gs.results))
    requires RunNode(w, steps, i, gs).branch != Crashed
    ensures Resting(w, steps, n,
                    RunFrom(w, steps, i + 1, RunNode(w, steps, i, gs).state, stored.steps.Keys, stored, cancelAt).row)
    decreases |steps| - i, 0
  {
    NodeKeepsMid(w, steps, i, m, gs, stored);
    n := SegmentKeeps(w, steps, i + 1, if i < m then m else m + 1, m,
                      RunNode(w, steps, i, gs).state, stored.steps.Keys, stored, cancelAt);
  }

  lemma StopsAtGate(w: World, steps: seq<Step>, i: nat, m: nat, p: nat, gs: GraphState, persisted: set<Key>, row: Row)
    requires UniqueKeys(steps) && Mid(w, steps, i, m, p, gs, persisted, row)
    requires !HasFailure(gs.results) && gs.pausedAt.Some?
    ensures var stored := Persist(row, gs.results, persisted);
      Resting(w, steps, m, stored.SetStatus(Paused, gs.pausedAt).Append(PausedAt(gs.pausedAt.value)))
  {
    PersistMid(w, steps, i, m, p, gs, persisted, row);
    assert GraphKey(steps, i - 1) in KeysBefore(steps, m);
  }

  // ---------------------------------------------------------------- every operation keeps it

  lemma OpKeeps(w: World, steps: seq<Step>, s: Run, op: Op)
    requires UniqueSteps(steps) && AgentsSettle(w) && (op.Approve? ==> ApprovalsLand(w, steps))
    requires Inv(w, steps, s)
    ensures Inv(w, steps, Next(w, steps, s, op))
  {
    match op
    case Start =>
      if s.row.None? {
        assert KeysBefore(steps, 0) == {};
        assert Launched(steps, 0, CREATED, GraphState(map[], None));
      }
    case RunSegment(cancelAt) =>
      if s.row.Some? && s.task.Some? {
        var n: nat :| Launched(steps, n, s.row.value, s.task.value);
        var gs := s.task.value;
        assert Mid(w, steps, 0, n, n, gs, gs.results.Keys, s.row.value);
        var n' := SegmentKeeps(w, steps, 0, n, n, gs, gs.results.Keys, s.row.value, cancelAt);
      }
    case Approve(name, decision) =>
      if s.row.Some? && MayApprove(s.row.value, name) {
        var n: nat :| Resting(w, steps, n, s.row.value);
        AnswerLaunches(w, steps, n, s.row.value, name, decision);
      }
    case Cancel =>
      if s.row.Some? {
        if s.task.Some? {
          var n: nat :| Launched(steps, n, s.row.value, s.task.value);
          assert Resting(w, steps, n, s.row.value);
        } else {
          var n: nat :| Resting(w, steps, n, s.row.value);
          assert Resting(w, steps, n, s.row.value.SetStatus(Cancelled, None));
        }
      }
  }

  lemma AnswerLaunches(w: World, steps: seq<Step>, n: nat, row: Row, name: string, decision: string)
    requires UniqueSteps(steps) && ApprovalsLand(w, steps)
    requires Resting(w, steps, n, row) && MayApprove(row, name)
    ensures var answered := ApproveRow(steps, row, name, decision);
      Launched(steps, n, answered, GraphState(answered.steps, None))
  {
    var answered := ApproveRow(steps, row, name, decision);
    var key := GraphKey(steps, n - 1);
    assert ApproveKey(steps, name) == key by {
      KeysAgreeAt(steps, n - 1);
    }
    assert key in KeysBefore(steps, n);
    forall i | 0 <= i < n
      ensures Passed(steps, i, answered.steps)
    {
      if i < n - 1 {
        assert Passed(steps, i, row.steps);
        assert GraphKey(steps, i) != key;
      }
    }
  }

  lemma {:induction false} AlwaysInv(w: World, steps: seq<Step>, s: Run, ops: seq<Op>)
    requires UniqueSteps(steps) && AgentsSettle(w) && ApprovalsLand(w, steps)
    requires Inv(w, steps, s)
    ensures Inv(w, steps, After(w, steps, s, ops))
    decreases |ops|
  {
    if ops != [] {
      OpKeeps(w, steps, s, ops[0]);
      AlwaysInv(w, steps, Next(w, steps, s, ops[0]), ops[1..]);
    }
  }

  /** The stored results, if there are any, cover exactly a prefix of the steps, all but the
      last completed or skipped; so a result awaiting approval can only be the last. */
  ghost predicate StoresPrefix(steps: seq<Step>, s: Run) {
    s.row.Some? ==> exists n: nat :: CoversPrefix(steps, n, s.row.value.steps)
  }

  lemma ReachableStates(w: World, steps: seq<Step>, ops: seq<Op>)
    requires UniqueSteps(steps) && AgentsSettle(w) && ApprovalsLand(w, steps)
    ensures StoresPrefix(steps, After(w, steps, INITIAL, ops))
  {
    AlwaysInv(w, steps, INITIAL, ops);
    var s := After(w, steps, INITIAL, ops);
    if s.row.Some? {
      if s.task.Some? {
        var n: nat :| Launched(steps, n, s.row.value, s.task.value);
        assert CoversPrefix(steps, n, s.row.value.steps);
      } else {
        var n: nat :| Resting(w, steps, n, s.row.value);
        assert CoversPrefix(steps, n, s.row.value.steps);
      }
    }
  }

  /** Approving a lone gate without an output key leaves results under two keys. */
  lemma LoneGateLeavesPrefix(w: World, steps: seq<Step>)
    requires LoneUnkeyedGate(steps) && !w.autoApprove
    ensures var ops := [Start, RunSegment(None), Approve(steps[0].name, "approved")];
      !StoresPrefix(steps, After(w, steps, INITIAL, ops))
  {
    var name := steps[0].name;
    var s1 := Next(w, steps, INITIAL, Start);
    var s2 := Next(w, steps, s1, RunSegment(None));
    ShutAgain(w, steps, CREATED);
    assert s2 == Run(Some(Execute(w, steps, CREATED)), None) by {
      var empty: Results := map[];
      assert GraphState(empty, None) == s1.task.value;
    }
    ApproveKeyIs(steps, 0);
    var s3 := Next(w, steps, s2, Approve(name, "approved"));
    assert s3.row.value.steps.Keys >= {"result", name};
    forall n: nat | n <= 1
      ensures !CoversPrefix(steps, n, s3.row.value.steps)
    {
      assert KeysBefore(steps, n) <= {"result"};
      assert name in s3.row.value.steps.Keys;
    }
    var ops := [Start, RunSegment(None), Approve(name, "approved")];
    assert ops[1..][1..][1..] == [];
    assert After(w, steps, s2, ops[1..][1..]) == s3;
    assert After(w, steps, s1, ops[1..]) == s3;
  }

  /** An approval stores its decision under the step's output key, or its name: approved
      exactly if the decision says so, and not marked as automatic. */
  lemma ApprovalIsStored(w: World, steps: seq<Step>, s: Run, i: nat, decision: string)
    requires UniqueNames(steps) && i < |steps| && s.row.Some? && MayApprove(s.row.value, steps[i].name)
    ensures var after := Next(w, steps, s, Approve(steps[i].name, decision)).row.value;
      var key := if steps[i].outputKey.Some? then steps[i].outputKey.value else steps[i].name;
      && after.steps == s.row.value.steps[key := StepResult(Completed, Approval(decision == "approved", false), None)]
      && after.events == s.row.value.events + [Approved(steps[i].name, decision)]
      && after.status == Running && after.currentStep == None
  {
    ApproveKeyIs(steps, i);
  }

  /** What is stored when a segment starts is stored when it ends, cancelled or not. */
  lemma {:induction false} StoredSurvives(w: World, steps: seq<Step>, i: nat, gs: GraphState,
                                          persisted: set<Key>, row: Row, cancelAt: Option<nat>, key: Key)
    requires i <= |steps| && key in row.steps && key in persisted
    ensures var after := RunFrom(w, steps, i, gs, persisted, row, cancelAt).row;
      key in after.steps && after.steps[key] == row.steps[key]
    decreases |steps| - i
  {
    RestIs(w, steps, i, gs, persisted, row, cancelAt);
    if GoesOn(w, steps, i, gs, cancelAt) {
      var stored := Persist(row.Append(Started(steps[i].name)), gs.results, persisted);
      var after := RunNode(w, steps, i, gs).state;
      StoredSurvives(w, steps, i + 1, after, persisted + gs.results.Keys, stored, cancelAt, key);
    }
  }

  /** So a stored decision survives every later segment. */
  lemma DecisionSurvives(w: World, steps: seq<Step>, s: Run, cancelAt: Option<nat>, key: Key)
    requires s.row.Some? && s.task.Some? && key in s.row.value.steps && key in s.task.value.results
    ensures var after := Next(w, steps, s, RunSegment(cancelAt)).row.value;
      key in after.steps && after.steps[key] == s.row.value.steps[key]
  {
    var gs := s.task.value;
    StoredSurvives(w, steps, 0, gs, gs.results.Keys, s.row.value, cancelAt, key);
  }

  /** The row holds this result under the key, and nobody is asked about it. */
  predicate Settled(s: Run, key: Key, r: StepResult) {
    && s.row.Some? && key in s.row.value.steps && s.row.value.steps[key] == r
    && r.status != AwaitingApproval
  }

  /** An answer is written where a gate waits, and so not over a settled result. */
  lemma AnswerMisses(w: World, steps: seq<Step>, n: nat, row: Row, name: string, key: Key)
    requires UniqueSteps(steps) && ApprovalsLand(w, steps) && Resting(w, steps, n, row) && MayApprove(row, name)
    requires key in row.steps && row.steps[key].status != AwaitingApproval
    ensures ApproveKey(steps, name) != key
  {
    KeysAgreeAt(steps, n - 1);
  }

  lemma AnswerKeepsSettled(
      w: World, steps: seq<Step>, n: nat, row: Row, name: string, decision: string, key: Key, r: StepResult)
    requires UniqueSteps(steps) && ApprovalsLand(w, steps) && Resting(w, steps, n, row) && MayApprove(row, name)
    requires Settled(Run(Some(row), None), key, r)
    ensures Settled(Run(Some(ApproveRow(steps, row, name, decision)), None), key, r)
  {
    AnswerMisses(w, steps, n, row, name, key);
  }

  lemma SegmentKeepsSettled(w: World, steps: seq<Step>, s: Run, cancelAt: Option<nat>, key: Key, r: StepResult)
    requires Settled(s, key, r) && s.task.Some? && s.task.value.results == s.row.value.steps
    ensures Settled(Next(w, steps, s, RunSegment(cancelAt)), key, r)
  {
    DecisionSurvives(w, steps, s, cancelAt, key);
  }

  lemma OpKeepsSettled(w: World, steps: seq<Step>, s: Run, op: Op, key: Key, r: StepResult)
    requires UniqueSteps(steps) && ApprovalsLand(w, steps) && Inv(w, steps, s) && Settled(s, key, r)
    ensures Settled(Next(w, steps, s, op), key, r)
  {
    if s.task.Some? {
      var n: nat :| Launched(steps, n, s.row.value, s.task.value);
      if op.RunSegment? {
        SegmentKeepsSettled(w, steps, s, op.cancelAt, key, r);
      }
    } else if op.Approve? && MayApprove(s.row.value, op.name) {
      var n: nat :| Resting(w, steps, n, s.row.value);
      AnswerKeepsSettled(w, steps, n, s.row.value, op.name, op.decision, key, r);
    }
  }

  lemma {:induction false} OpsKeepSettled(w: World, steps: seq<Step>, s: Run, ops: seq<Op>, key: Key, r: StepResult)
    requires UniqueSteps(steps) && AgentsSettle(w) && ApprovalsLand(w, steps) && Inv(w, steps, s) && Settled(s, key, r)
    ensures Settled(After(w, steps, s, ops), key, r)
    decreases |ops|
  {
    if ops != [] {
      OpKeeps(w, steps, s, ops[0]);
      OpKeepsSettled(w, steps, s, ops[0], key, r);
      OpsKeepSettled(w, steps, Next(w, steps, s, ops[0]), ops[1..], key, r);
    }
  }

  /** Nothing settled is ever rewritten: a result that is stored after some operations, and does
      not await approval, is stored after any further ones. */
  lemma SettledForGood(w: World, steps: seq<Step>, before: seq<Op>, ops: seq<Op>, key: Key, r: StepResult)
    requires UniqueSteps(steps) && AgentsSettle(w) && ApprovalsLand(w, steps)
    requires Settled(After(w, steps, INITIAL, before), key, r)
    ensures Settled(After(w, steps, After(w, steps, INITIAL, before), ops), key, r)
  {
    AlwaysInv(w, steps, INITIAL, before);
    OpsKeepSettled(w, steps, After(w, steps, INITIAL, before), ops, key, r);
  }

  /** A gate that is approved automatically is stored as such, and one that waits with the
      message it shows. */
  lemma GateLeaves(w: World, steps: seq<Step>, i: nat, gs: GraphState)
    requires i < |steps| && steps[i].Gate?
    requires GraphKey(steps, i) in gs.results ==> gs.results[GraphKey(steps, i)].status != Completed
    ensures var after := RunNode(w, steps, i, gs).state;
      if w.autoApprove then
        after == gs.(results := gs.results[GraphKey(steps, i) := StepResult(Completed, Approval(true, true), None)])
      else
        var waiting := StepResult(AwaitingApproval, w.message(steps[i], gs.results), None);
        after == GraphState(gs.results[GraphKey(steps, i) := waiting], Some(steps[i].name))
  {
  }

  /** Every reachable store covers a prefix if and only if approvals land where the graph
      looks for them. */
  lemma ReachableIff(w: World, steps: seq<Step>)
    requires UniqueSteps(steps) && AgentsSettle(w)
    ensures (forall ops :: StoresPrefix(steps, After(w, steps, INITIAL, ops))) <==> ApprovalsLand(w, steps)
  {
    if ApprovalsLand(w, steps) {
      forall ops {
        ReachableStates(w, steps, ops);
      }
    } else {
      LoneGateLeavesPrefix(w, steps);
    }
  }

  // ---------------------------------------------------------------- pauses and approvals, in every definition

  /** The gate whose pause no approval has consumed yet. */
  function OpenPause(events: seq<Event>): Option<string> {
    if events == [] then None
    else
      match events[|events| - 1]
      case PausedAt(s) => Some(s)
      case Approved(_, _) => None
      case _ => OpenPause(events[..|events| - 1])
  }

  /** Pauses and approvals alternate: each approval consumes the one open pause of its own
      step, and no pause starts while another is open. */
  predicate Alternate(events: seq<Event>) {
    events == [] ||
    var before := events[..|events| - 1];
    && Alternate(before)
    && match events[|events| - 1]
       case PausedAt(_) => OpenPause(before).None?
       case Approved(s, _) => OpenPause(before) == Some(s)
       case _ => true
  }

  lemma Appended(events: seq<Event>, e: Event)
    ensures (events + [e])[..|events + [e]| - 1] == events
  {
  }

  /** What holds in every definition and world: a launched task works on a running row with
      no open pause, and a paused row has exactly its own gate's pause open. */
  predicate Orderly(s: Run) {
    match s.row
    case None => s.task.None?
    case Some(row) =>
      && Alternate(row.events)
      && (s.task.Some? ==> row.status == Running && OpenPause(row.events).None? && s.task.value.pausedAt.None?)
      && (row.status == Paused ==> s.task.None? && row.currentStep.Some? && OpenPause(row.events) == row.currentStep)
  }

  /** Appending an event that is neither a pause nor an approval. */
  lemma Quiet(row: Row, e: Event)
    requires Alternate(row.events) && !e.PausedAt? && !e.Approved?
    ensures Alternate(row.Append(e).events) && OpenPause(row.Append(e).events) == OpenPause(row.events)
  {
    Appended(row.events, e);
  }

  ghost predicate OrderlyRow(row: Row) {
    && Alternate(row.events)
    && (row.status == Paused ==> row.currentStep.Some? && OpenPause(row.events) == row.currentStep)
  }

  lemma PersistKeepsEvents(row: Row, results: Results, persisted: set<Key>)
    ensures Persist(row, results, persisted).events == row.events
    ensures Persist(row, results, persisted).status == row.status
  {
  }

  lemma PauseIsOrderly(row: Row, step: string)
    requires Alternate(row.events) && OpenPause(row.events).None?
    ensures OrderlyRow(row.SetStatus(Paused, Some(step)).Append(PausedAt(step)))
  {
    Appended(row.events, PausedAt(step));
  }

  /** A segment that does not go on ends in order. */
  lemma StopIsOrderly(
      w: World, steps: seq<Step>, i: nat, gs: GraphState, persisted: set<Key>, announced: Row, cancelAt: Option<nat>)
    requires i <= |steps| && !GoesOn(w, steps, i, gs, cancelAt)
    requires Alternate(announced.events) && OpenPause(announced.events).None?
    ensures OrderlyRow(Rest(w, steps, i, gs, persisted, announced, cancelAt))
  {
    var stored := Persist(announced, gs.results, persisted);
    PersistKeepsEvents(announced, gs.results, persisted);
    if HasFailure(gs.results) {
      Quiet(stored, StepsFailed);
    } else if gs.pausedAt.Some? {
      PauseIsOrderly(stored, gs.pausedAt.value);
    } else {
      Quiet(stored, Finished);
      Quiet(stored, GraphCrashed);
    }
  }

  lemma {:induction false} SegmentIsOrderly(w: World, steps: seq<Step>, i: nat, gs: GraphState,
                                            persisted: set<Key>, row: Row, cancelAt: Option<nat>)
    requires i <= |steps| && Alternate(row.events) && OpenPause(row.events).None?
    ensures OrderlyRow(RunFrom(w, steps, i, gs, persisted, row, cancelAt).row)
    decreases |steps| - i
  {
    RestIs(w, steps, i, gs, persisted, row, cancelAt);
    var announced := if i < |steps| then row.Append(Started(steps[i].name)) else row;
    if i < |steps| {
      Quiet(row, Started(steps[i].name));
    }
    if GoesOn(w, steps, i, gs, cancelAt) {
      PersistKeepsEvents(announced, gs.results, persisted);
      SegmentIsOrderly(w, steps, i + 1, RunNode(w, steps, i, gs).state, persisted + gs.results.Keys,
                       Persist(announced, gs.results, persisted), cancelAt);
    } else {
      StopIsOrderly(w, steps, i, gs, persisted, announced, cancelAt);
    }
  }

  lemma OpIsOrderly(w: World, steps: seq<Step>, s: Run, op: Op)
    requires Orderly(s)
    ensures Orderly(Next(w, steps, s, op))
  {
    match op
    case Start =>
    case RunSegment(cancelAt) =>
      if s.task.Some? {
        var gs := s.task.value;
        SegmentIsOrderly(w, steps, 0, gs, gs.results.Keys, s.row.value, cancelAt);
      }
    case Approve(name, decision) =>
      if s.row.Some? && MayApprove(s.row.value, name) {
        Appended(s.row.value.events, Approved(name, decision));
      }
    case Cancel =>
  }

  /** In every reachable state, whatever the definition, the agents and the gates, pauses and
      approvals alternate: each approval consumes the one open pause of its own step. */
  lemma {:induction false} PausesAlternate(w: World, steps: seq<Step>, s: Run, ops: seq<Op>)
    requires Orderly(s)
    ensures Orderly(After(w, steps, s, ops))
    decreases |ops|
  {
    if ops != [] {
      OpIsOrderly(w, steps, s, ops[0]);
      PausesAlternate(w, steps, Next(w, steps, s, ops[0]), ops[1..]);
    }
  }

  /** The "workflow_paused" skip never runs: a segment ends at its first pause. */
  lemma {:induction false} NeverSkipsWhilePaused(w: World, steps: seq<Step>, i: nat, gs: GraphState,
                                                 persisted: set<Key>, row: Row, cancelAt: Option<nat>)
    requires i <= |steps|
    ensures SkippedWhilePaused !in RunFrom(w, steps, i, gs, persisted, row, cancelAt).trace
    decreases |steps| - i
  {
    var announced := if i < |steps| then row.Append(Started(steps[i].name)) else row;
    var stored := Persist(announced, gs.results, persisted);
    if i < |steps| {
      NeverSkipsWhilePaused(w, steps, i + 1, RunNode(w, steps, i, gs).state,
                            persisted + gs.results.Keys, stored, cancelAt);
    }
  }

  // ---------------------------------------------------------------- after a cancel

  function Approvals(events: seq<Event>): nat {
    if events == [] then 0
    else Approvals(events[..|events| - 1]) + (if events[|events| - 1].Approved? then 1 else 0)
  }

  /** No task is launched and no gate waits: nothing can move the run any more. */
  predicate Inert(s: Run) {
    s.row.Some? && s.task.None? && s.row.value.status != Paused
  }

  /** An inert run stays inert and never sees another approval. */
  lemma {:induction false} NoApprovalAfterCancel(w: World, steps: seq<Step>, s: Run, ops: seq<Op>)
    requires Inert(s)
    ensures Inert(After(w, steps, s, ops))
    ensures Approvals(After(w, steps, s, ops).row.value.events) == Approvals(s.row.value.events)
    decreases |ops|
  {
    if ops != [] {
      NoApprovalAfterCancel(w, steps, Next(w, steps, s, ops[0]), ops[1..]);
    }
  }

  /** In every reachable state a cancel makes the run inert. It marks the row cancelled exactly
      if no task is launched; the row of a task that has not started stays running. */
  lemma CancelEndsRun(w: World, steps: seq<Step>, ops: seq<Op>)
    ensures var s := After(w, steps, INITIAL, ops);
      s.row.Some? ==>
        var cancelled := Next(w, steps, s, Cancel);
        && Inert(cancelled)
        && (cancelled.row.value.status == Cancelled <==> s.task.None?)
        && (cancelled.row.value.status == Running <==> s.task.Some?)
  {
    PausesAlternate(w, steps, INITIAL, ops);
  }

  /** ... as it does right after a start. */
  lemma CancelledBeforeItRan(w: World, steps: seq<Step>)
    ensures var s := After(w, steps, INITIAL, [Start, Cancel]);
      s.row == Some(CREATED) && s.row.value.status == Running && Inert(s)
  {
    var ops := [Start, Cancel];
    assert ops[1..][1..] == [];
    var s1 := Next(w, steps, INITIAL, Start);
    assert After(w, steps, s1, ops[1..]) == Next(w, steps, s1, Cancel);
  }

  /** A cancel during a segment: either the segment had already stopped by itself, or the
      row ends up cancelled. */
  lemma {:induction false} CancelledSegment(w: World, steps: seq<Step>, i: nat, gs: GraphState,
                                            persisted: set<Key>, row: Row, at: nat)
    requires i <= at <= |steps|
    ensures var cut := RunFrom(w, steps, i, gs, persisted, row, Some(at)).row;
      cut.status == Cancelled || cut == RunFrom(w, steps, i, gs, persisted, row, None).row
    decreases |steps| - i
  {
    var announced := if i < |steps| then row.Append(Started(steps[i].name)) else row;
    var stored := Persist(announced, gs.results, persisted);
    if i < at {
      CancelledSegment(w, steps, i + 1, RunNode(w, steps, i, gs).state, persisted + gs.results.Keys, stored, at);
    }
  }
}
