/**
 Pausing, persisting, rebuilding and resuming cannot be observed in the outcome: a run
 that stops at every gate and restarts from the store ends with the results and the
 status of one uninterrupted pass. This fails for exactly two kinds of definitions: those
 whose approval is written under a key the graph never reads, and those with a condition
 that refers to a step between its own and a later gate.
 */
module WorkflowTransparency {
  import opened Prelude
  import opened Workflow

  /** `results` is what an uninterrupted pass has when it reaches node n: one result for each
      earlier node, completed, or skipped because its condition was false by then. */
  ghost predicate Walked(w: World, steps: seq<Step>, n: nat, results: Results) {
    && n <= |steps|
    && results.Keys == KeysBefore(steps, n)
    && forall i :: 0 <= i < n ==> SettledAt(w, steps, i, results, Earlier(steps, i, results))
  }

  /** Node i has its result: it completed, or it was skipped and its condition is false of
      `seen`. */
  ghost predicate SettledAt(w: World, steps: seq<Step>, i: nat, results: Results, seen: Results)
    requires i < |steps|
  {
    var key := GraphKey(steps, i);
    && key in results
    && match results[key].status
       case Completed => true
       case Skipped =>
         && results[key] == SKIPPED
         && Conditioned(steps, i) && w.holds(steps[i].condition.value, seen) == Some(false)
       case _ => false
  }

  /** ... and a segment that starts with `results` skips the skipped ones again. */
  ghost predicate Settled(w: World, steps: seq<Step>, n: nat, results: Results) {
    && n <= |steps|
    && results.Keys == KeysBefore(steps, n)
    && forall i :: 0 <= i < n ==> SettledAt(w, steps, i, results, results)
  }

  /** The hypotheses under which runs are compared: keys are unique, agents settle, and
      answering a gate changes no earlier condition. */
  ghost predicate WellBehaved(w: World, steps: seq<Step>) {
    UniqueSteps(steps) && AgentsSettle(w) && (w.autoApprove || Stable(w, steps))
  }

  lemma KeyIsNew(steps: seq<Step>, n: nat)
    requires UniqueKeys(steps) && n < |steps|
    ensures GraphKey(steps, n) !in KeysBefore(steps, n)
    ensures KeysBefore(steps, n + 1) == KeysBefore(steps, n) + {GraphKey(steps, n)}
  {
  }

  /** A pass stores results only behind what it has seen. */
  lemma EarlierStays(steps: seq<Step>, i: nat, n: nat, results: Results, r: StepResult)
    requires UniqueKeys(steps) && i <= n < |steps|
    ensures Earlier(steps, i, results[GraphKey(steps, n) := r]) == Earlier(steps, i, results)
  {
    KeyIsNew(steps, n);
    assert KeysBefore(steps, i) <= KeysBefore(steps, n);
  }

  /** Storing node n's result keeps every earlier node settled. */
  lemma Extend(w: World, steps: seq<Step>, n: nat, results: Results, r: StepResult)
    requires UniqueKeys(steps) && n < |steps| && Walked(w, steps, n, results)
    requires r.status == Completed ||
             (r == SKIPPED && Conditioned(steps, n) && w.holds(steps[n].condition.value, results) == Some(false))
    ensures Walked(w, steps, n + 1, results[GraphKey(steps, n) := r])
  {
    var more := results[GraphKey(steps, n) := r];
    KeyIsNew(steps, n);
    assert Earlier(steps, n, results) == results;
    forall i | 0 <= i < n + 1
      ensures SettledAt(w, steps, i, more, Earlier(steps, i, more))
    {
      EarlierStays(steps, i, n, results, r);
      if i < n {
        assert SettledAt(w, steps, i, results, Earlier(steps, i, results));
      }
    }
  }

  /** Where segments start: at the first node, or behind a gate that was answered. */
  predicate Restart(steps: seq<Step>, n: nat) {
    n == 0 || (n <= |steps| && steps[n - 1].Gate?)
  }

  /** Where a segment starts, every node is settled that the pass has walked. */
  lemma WalkedIsSettled(w: World, steps: seq<Step>, n: nat, results: Results)
    requires Walked(w, steps, n, results) && Restart(steps, n) && (n == 0 || Stable(w, steps))
    ensures Settled(w, steps, n, results)
  {
    forall i | 0 <= i < n
      ensures SettledAt(w, steps, i, results, results)
    {
      assert SettledAt(w, steps, i, results, Earlier(steps, i, results));
      if Conditioned(steps, i) {
        assert StableAt(w, steps, i, n - 1);
      }
    }
  }

  lemma NoFailure(w: World, steps: seq<Step>, n: nat, results: Results)
    requires Walked(w, steps, n, results)
    ensures !HasFailure(results)
  {
    forall k | k in results
      ensures results[k].status !in {Failed, Denied}
    {
      assert k in KeysBefore(steps, n);
      var i :| 0 <= i < n && GraphKey(steps, i) == k;
      assert SettledAt(w, steps, i, results, Earlier(steps, i, results));
    }
  }

  /** `row` holds the results of the graph state except those not yet persisted. */
  ghost predicate Behind(row: Row, results: Results, persisted: set<Key>) {
    row.steps.Keys == persisted && persisted <= results.Keys &&
    forall k :: k in persisted ==> row.steps[k] == results[k]
  }

  lemma PersistCatchesUp(row: Row, results: Results, persisted: set<Key>)
    requires Behind(row, results, persisted)
    ensures Persist(row, results, persisted).steps == results
  {
    var unsaved := results.Keys - persisted;
    if unsaved == {} {
      assert row.steps == results;
    } else {
      assert row.steps + (map k | k in unsaved :: results[k]) == results;
    }
  }

  /** The stored row is what the pass ends with: status, results, and the gate it waits at. */
  ghost predicate Matches(row: Row, f: Finish) {
    row.status == f.status && row.steps == f.results && (f.status == Paused ==> row.currentStep == f.waitingAt)
  }

  /** What an uninterrupted pass stores for node n when it goes on past it. */
  function PassesWith(w: World, steps: seq<Step>, n: nat, results: Results): Option<StepResult>
    requires n < |steps|
  {
    match steps[n]
    case Agent(_, _, condition) =>
      var test := if condition.Some? then w.holds(condition.value, results) else Some(true);
      if test.None? then None
      else if !test.value then Some(SKIPPED)
      else
        (match w.agent(steps[n], results)
         case Raised => None
         case Returned(r) => if r.status in {Failed, Denied} then None else Some(r))
    case Gate(_, _) =>
      if w.autoApprove then Some(Decided(true, true)) else None
  }

  /** The node at which a pass from node n ends, and the results it has there. */
  ghost function StopPoint(w: World, steps: seq<Step>, n: nat, results: Results): (stop: (nat, Results))
    requires n <= |steps|
    ensures n <= stop.0 <= |steps|
    ensures stop.0 < |steps| ==> PassesWith(w, steps, stop.0, stop.1).None?
    decreases |steps| - n
  {
    if n < |steps| && PassesWith(w, steps, n, results).Some? then
      StopPoint(w, steps, n + 1, results[GraphKey(steps, n) := PassesWith(w, steps, n, results).value])
    else (n, results)
  }

  lemma {:induction false} WalkedStop(w: World, steps: seq<Step>, n: nat, results: Results)
    requires UniqueKeys(steps) && AgentsSettle(w) && Walked(w, steps, n, results)
    ensures var (m, reached) := StopPoint(w, steps, n, results); Walked(w, steps, m, reached)
    decreases |steps| - n
  {
    if n < |steps| && PassesWith(w, steps, n, results).Some? {
      var r := PassesWith(w, steps, n, results).value;
      Extend(w, steps, n, results, r);
      WalkedStop(w, steps, n + 1, results[GraphKey(steps, n) := r]);
    }
  }

  /** The pass from node n is the pass from the point where it ends. */
  lemma {:induction false} PassStops(w: World, steps: seq<Step>, n: nat, results: Results, decisions: seq<string>)
    requires n <= |steps|
    ensures var (m, reached) := StopPoint(w, steps, n, results);
      Inline(w, steps, n, results, decisions) == Inline(w, steps, m, reached, decisions)
    decreases |steps| - n
  {
    if n < |steps| && PassesWith(w, steps, n, results).Some? {
      PassStops(w, steps, n + 1, results[GraphKey(steps, n) := PassesWith(w, steps, n, results).value], decisions);
    }
  }

  /** One turn of the segment loop past node i. */
  lemma Turn(w: World, steps: seq<Step>, i: nat, gs: GraphState, persisted: set<Key>, row: Row, cancelAt: Option<nat>)
    requires i < |steps| && !HasFailure(gs.results) && gs.pausedAt.None? && cancelAt != Some(i)
    requires RunNode(w, steps, i, gs).branch != Crashed
    ensures var o := RunNode(w, steps, i, gs);
      var stored := Persist(row.Append(Started(steps[i].name)), gs.results, persisted);
      var rest := RunFrom(w, steps, i + 1, o.state, persisted + gs.results.Keys, stored, cancelAt);
      RunFrom(w, steps, i, gs, persisted, row, cancelAt) == Segment(rest.row, [o.branch] + rest.trace)
  {
  }

  /** The turn of a node that raises fails the run. */
  lemma CrashTurn(w: World, steps: seq<Step>, i: nat, gs: GraphState, persisted: set<Key>, row: Row)
    requires i < |steps| && !HasFailure(gs.results) && gs.pausedAt.None?
    requires RunNode(w, steps, i, gs).branch == Crashed
    ensures var last := RunFrom(w, steps, i, gs, persisted, row, None).row;
      last.status == RunFailed &&
      last.steps == Persist(row.Append(Started(steps[i].name)), gs.results, persisted).steps
  {
  }

  /** The turn after the last node completes the run. */
  lemma EndTurn(w: World, steps: seq<Step>, results: Results, persisted: set<Key>, row: Row)
    requires !HasFailure(results) && Behind(row, results, persisted)
    ensures Matches(RunFrom(w, steps, |steps|, GraphState(results, None), persisted, row, None).row,
                    Inline(w, steps, |steps|, results, []))
  {
    PersistCatchesUp(row, results, persisted);
  }

  /** A segment goes past a node that passes with the same result. */
  lemma PassingTurn(w: World, steps: seq<Step>, n: nat, results: Results, more: Results,
                    persisted: set<Key>, row: Row)
    returns (stored: Row)
    requires n < |steps| && GraphKey(steps, n) !in results && !HasFailure(results)
    requires Behind(row, results, persisted)
    requires PassesWith(w, steps, n, results).Some?
    requires more == results[GraphKey(steps, n) := PassesWith(w, steps, n, results).value]
    ensures Behind(stored, more, results.Keys) && !HasFailure(more)
    ensures RunFrom(w, steps, n, GraphState(results, None), persisted, row, None).row ==
            RunFrom(w, steps, n + 1, GraphState(more, None), results.Keys, stored, None).row
  {
    Turn(w, steps, n, GraphState(results, None), persisted, row, None);
    var announced := row.Append(Started(steps[n].name));
    PersistCatchesUp(announced, results, persisted);
    stored := Persist(announced, results, persisted);
    assert persisted + results.Keys == results.Keys;
    assert forall k :: k in more ==> k == GraphKey(steps, n) || (k in results && more[k] == results[k]);
  }

  /** The segment from node n with the given store ends like the segment from `stop`. */
  ghost predicate EndsLike(w: World, steps: seq<Step>, n: nat, results: Results, persisted: set<Key>, row: Row,
                           stop: (nat, Results), saved: set<Key>, stored: Row)
    requires n <= |steps| && stop.0 <= |steps|
  {
    && Behind(stored, stop.1, saved)
    && RunFrom(w, steps, n, GraphState(results, None), persisted, row, None).row ==
       RunFrom(w, steps, stop.0, GraphState(stop.1, None), saved, stored, None).row
  }

  /** Past the replayed prefix a segment goes on to the node where the pass ends, and has
      stored what the pass has by then, or is one turn behind. */
  lemma {:induction false} Advance(w: World, steps: seq<Step>, n: nat, results: Results,
                                   persisted: set<Key>, row: Row)
    returns (saved: set<Key>, stored: Row)
    requires UniqueKeys(steps) && n <= |steps| && results.Keys == KeysBefore(steps, n)
    requires !HasFailure(results) && Behind(row, results, persisted)
    ensures EndsLike(w, steps, n, results, persisted, row, StopPoint(w, steps, n, results), saved, stored)
    decreases |steps| - n
  {
    if n < |steps| && PassesWith(w, steps, n, results).Some? {
      var more := results[GraphKey(steps, n) := PassesWith(w, steps, n, results).value];
      saved, stored := AdvancePast(w, steps, n, results, more, persisted, row);
    } else {
      saved, stored := persisted, row;
    }
  }

  lemma {:induction false} AdvancePast(w: World, steps: seq<Step>, n: nat, results: Results, more: Results,
                                       persisted: set<Key>, row: Row)
    returns (saved: set<Key>, stored: Row)
    requires UniqueKeys(steps) && n < |steps| && results.Keys == KeysBefore(steps, n)
    requires !HasFailure(results) && Behind(row, results, persisted)
    requires PassesWith(w, steps, n, results).Some?
    requires more == results[GraphKey(steps, n) := PassesWith(w, steps, n, results).value]
    ensures EndsLike(w, steps, n, results, persisted, row, StopPoint(w, steps, n + 1, more), saved, stored)
    decreases |steps| - n, 0
  {
    assert GraphKey(steps, n) !in results && more.Keys == KeysBefore(steps, n + 1) by {
      KeyIsNew(steps, n);
    }
    var next := PassingTurn(w, steps, n, results, more, persisted, row);
    saved, stored := Advance(w, steps, n + 1, more, results.Keys, next);
  }

  /** How node n ends a pass that does not go on past it: it raised, failed, or waits. */
  lemma Endings(w: World, steps: seq<Step>, n: nat, results: Results)
    requires n < |steps| && GraphKey(steps, n) !in results
    requires PassesWith(w, steps, n, results).None?
    ensures var o := RunNode(w, steps, n, GraphState(results, None));
      var f := Inline(w, steps, n, results, []);
      var key := GraphKey(steps, n);
      if o.branch == Crashed then f == Finish(RunFailed, results, None)
      else
        && key in o.state.results && o.state.results == results[key := o.state.results[key]]
        && if o.state.pausedAt.Some? then
             f == Finish(Paused, o.state.results, o.state.pausedAt) &&
             o.state.results[key].status == AwaitingApproval
           else
             f == Finish(RunFailed, o.state.results, None) && o.state.results[key].status in {Failed, Denied}
  {
  }

  /** A node the pass does not go on past ends the segment in the same way. */
  lemma StopsAt(w: World, steps: seq<Step>, n: nat, results: Results, persisted: set<Key>, row: Row)
    requires n < |steps| && GraphKey(steps, n) !in results
    requires !HasFailure(results) && Behind(row, results, persisted)
    requires PassesWith(w, steps, n, results).None?
    ensures Matches(RunFrom(w, steps, n, GraphState(results, None), persisted, row, None).row,
                    Inline(w, steps, n, results, []))
  {
    var announced := row.Append(Started(steps[n].name));
    PersistCatchesUp(announced, results, persisted);
    Endings(w, steps, n, results);
    var o := RunNode(w, steps, n, GraphState(results, None));
    if o.branch == Crashed {
      CrashTurn(w, steps, n, GraphState(results, None), persisted, row);
    } else {
      Turn(w, steps, n, GraphState(results, None), persisted, row, None);
      assert persisted + results.Keys == results.Keys;
      LastTurn(w, steps, n, results, o.state, Persist(announced, results, persisted));
    }
  }

  /** The turn after a node that failed or paused stores its result and stops. */
  lemma LastTurn(w: World, steps: seq<Step>, n: nat, results: Results, gs: GraphState, stored: Row)
    requires n < |steps| && !HasFailure(results) && stored.steps == results
    requires GraphKey(steps, n) !in results && GraphKey(steps, n) in gs.results
    requires gs.results == results[GraphKey(steps, n) := gs.results[GraphKey(steps, n)]]
    requires gs.results[GraphKey(steps, n)].status in {Failed, Denied} || gs.pausedAt.Some?
    ensures var last := RunFrom(w, steps, n + 1, gs, results.Keys, stored, None).row;
      && last.steps == gs.results
      && (if gs.results[GraphKey(steps, n)].status in {Failed, Denied} then last.status == RunFailed
          else last.status == Paused && last.currentStep == gs.pausedAt)
  {
    var announced := if n + 1 < |steps| then stored.Append(Started(steps[n + 1].name)) else stored;
    PersistCatchesUp(announced, gs.results, results.Keys);
    if gs.results[GraphKey(steps, n)].status !in {Failed, Denied} {
      assert forall k :: k in gs.results ==> k == GraphKey(steps, n) || (k in results && gs.results[k] == results[k]);
      assert !HasFailure(gs.results);
    }
  }

  /** A settled node visited again does nothing. */
  lemma SettledNodeIsIdle(w: World, steps: seq<Step>, i: nat, results: Results)
    requires i < |steps| && SettledAt(w, steps, i, results, results)
    ensures var o := RunNode(w, steps, i, GraphState(results, None));
      o.state == GraphState(results, None) && (o.branch == AlreadyDone || o.branch == ConditionFalse)
  {
    var key := GraphKey(steps, i);
    assert results[key := results[key]] == results;
  }

  lemma IdleTurn(w: World, steps: seq<Step>, i: nat, results: Results, row: Row, cancelAt: Option<nat>)
    requires i < |steps| && SettledAt(w, steps, i, results, results) && !HasFailure(results) && cancelAt != Some(i)
    ensures var rest := RunFrom(w, steps, i + 1, GraphState(results, None), results.Keys,
                                row.Append(Started(steps[i].name)), cancelAt);
      RunFrom(w, steps, i, GraphState(results, None), results.Keys, row, cancelAt) ==
      Segment(rest.row, [RunNode(w, steps, i, GraphState(results, None)).branch] + rest.trace)
  {
    SettledNodeIsIdle(w, steps, i, results);
    Turn(w, steps, i, GraphState(results, None), results.Keys, row, cancelAt);
    assert results.Keys - results.Keys == {} && results.Keys + results.Keys == results.Keys;
  }

  /** Visiting again nodes that are already settled only announces them. */
  lemma {:induction false} Replay(w: World, steps: seq<Step>, i: nat, n: nat, results: Results, row: Row)
    returns (announced: Row)
    requires i <= n <= |steps| && !HasFailure(results)
    requires forall j :: i <= j < n ==> SettledAt(w, steps, j, results, results)
    ensures announced.steps == row.steps
    ensures RunFrom(w, steps, i, GraphState(results, None), results.Keys, row, None).row ==
            RunFrom(w, steps, n, GraphState(results, None), results.Keys, announced, None).row
    decreases n - i
  {
    if i == n {
      announced := row;
    } else {
      IdleTurn(w, steps, i, results, row, None);
      announced := Replay(w, steps, i + 1, n, results, row.Append(Started(steps[i].name)));
    }
  }

  /** A pass that ends at m with no decision left waits there exactly when m is a gate; a
      pass that does not wait is not changed by further decisions. */
  lemma PassEnds(w: World, steps: seq<Step>, m: nat, reached: Results, decisions: seq<string>)
    requires m <= |steps| && (m < |steps| ==> PassesWith(w, steps, m, reached).None?)
    ensures var f := Inline(w, steps, m, reached, []);
      if m < |steps| && steps[m].Gate? then
        && !w.autoApprove
        && f == Finish(Paused, reached[GraphKey(steps, m) := Awaiting(w, steps[m], reached)], Some(steps[m].name))
      else
        f.status != Paused && Inline(w, steps, m, reached, decisions) == f
  {
  }

  /** Answering the gate the run waits at gives what the inline pass stores for it. */
  lemma Answer(w: World, steps: seq<Step>, m: nat, reached: Results, stopped: Row, decisions: seq<string>)
    requires UniqueSteps(steps) && !LoneUnkeyedGate(steps) && decisions != []
    requires m < |steps| && steps[m].Gate? && !w.autoApprove && Walked(w, steps, m, reached)
    requires stopped.steps == reached[GraphKey(steps, m) := Awaiting(w, steps[m], reached)]
    ensures var more := reached[GraphKey(steps, m) := Decided(decisions[0] == "approved", false)];
      && ApproveRow(steps, stopped, steps[m].name, decisions[0]).steps == more
      && Walked(w, steps, m + 1, more)
      && Inline(w, steps, m, reached, decisions) == Inline(w, steps, m + 1, more, decisions[1..])
  {
    ApprovalStored(steps, m, stopped, decisions[0]);
    Extend(w, steps, m, reached, Decided(decisions[0] == "approved", false));
  }

  /** A segment resumed behind an answered gate yields what the pass from there yields. */
  lemma SegmentIsPass(w: World, steps: seq<Step>, n: nat, row: Row)
    requires WellBehaved(w, steps) && Walked(w, steps, n, row.steps) && Restart(steps, n) && (w.autoApprove ==> n == 0)
    ensures var (m, reached) := StopPoint(w, steps, n, row.steps);
      Matches(Execute(w, steps, row), Inline(w, steps, m, reached, []))
  {
    NoFailure(w, steps, n, row.steps);
    WalkedIsSettled(w, steps, n, row.steps);
    var announced := Replay(w, steps, 0, n, row.steps, row);
    var saved, stored := Advance(w, steps, n, row.steps, row.steps.Keys, announced);
    var (m, reached) := StopPoint(w, steps, n, row.steps);
    WalkedStop(w, steps, n, row.steps);
    NoFailure(w, steps, m, reached);
    if m == |steps| {
      EndTurn(w, steps, reached, saved, stored);
    } else {
      KeyIsNew(steps, m);
      StopsAt(w, steps, m, reached, saved, stored);
    }
  }

  lemma DriveStep(w: World, steps: seq<Step>, row: Row, name: string, decisions: seq<string>)
    requires row.status == Paused && row.currentStep == Some(name) && decisions != []
    ensures Drive(w, steps, row, decisions) ==
            Drive(w, steps, Execute(w, steps, ApproveRow(steps, row, name, decisions[0])), decisions[1..])
    ensures |decisions| == 1 ==>
      Drive(w, steps, row, decisions) == Execute(w, steps, ApproveRow(steps, row, name, decisions[0]))
  {
  }

  lemma DriveStays(w: World, steps: seq<Step>, row: Row, decisions: seq<string>)
    requires decisions == [] || row.status != Paused
    ensures Drive(w, steps, row, decisions) == row
  {
  }

  /** From any point where segments start, driving the run through pauses matches the inline pass. */
  lemma {:induction false} DriveFrom(w: World, steps: seq<Step>, n: nat, row: Row, decisions: seq<string>)
    requires WellBehaved(w, steps) && ApprovalsLand(w, steps)
    requires Walked(w, steps, n, row.steps) && Restart(steps, n) && (w.autoApprove ==> n == 0)
    ensures Matches(Drive(w, steps, Execute(w, steps, row), decisions),
                    Inline(w, steps, n, row.steps, decisions))
    decreases |decisions|, 1
  {
    var (m, reached) := StopPoint(w, steps, n, row.steps);
    var stopped := Execute(w, steps, row);
    SegmentIsPass(w, steps, n, row);
    PassStops(w, steps, n, row.steps, decisions);
    PassEnds(w, steps, m, reached, decisions);
    if decisions != [] && m < |steps| && steps[m].Gate? {
      WalkedStop(w, steps, n, row.steps);
      DriveOn(w, steps, m, reached, stopped, decisions);
    } else {
      DriveStays(w, steps, stopped, decisions);
    }
  }

  lemma {:induction false} DriveOn(
      w: World, steps: seq<Step>, m: nat, reached: Results, stopped: Row, decisions: seq<string>)
    requires WellBehaved(w, steps) && ApprovalsLand(w, steps) && !w.autoApprove
    requires m < |steps| && steps[m].Gate? && Walked(w, steps, m, reached) && decisions != []
    requires stopped.steps == reached[GraphKey(steps, m) := Awaiting(w, steps[m], reached)]
    requires stopped.status == Paused && stopped.currentStep == Some(steps[m].name)
    ensures Matches(Drive(w, steps, stopped, decisions), Inline(w, steps, m, reached, decisions))
    decreases |decisions|, 0
  {
    var answered := ApproveRow(steps, stopped, steps[m].name, decisions[0]);
    Answer(w, steps, m, reached, stopped, decisions);
    DriveStep(w, steps, stopped, steps[m].name, decisions);
    DriveFrom(w, steps, m + 1, answered, decisions[1..]);
  }

  /** The first m branches ran no agent and opened no gate. */
  predicate IdleUpTo(trace: seq<Branch>, m: int) {
    forall j :: 0 <= j < |trace| && j < m ==> trace[j] == AlreadyDone || trace[j] == ConditionFalse
  }

  lemma {:induction false} ReplayIsIdle(w: World, steps: seq<Step>, i: nat, n: nat, results: Results,
                                        row: Row, cancelAt: Option<nat>)
    requires i <= n <= |steps| && !HasFailure(results)
    requires forall j :: i <= j < n ==> SettledAt(w, steps, j, results, results)
    ensures IdleUpTo(RunFrom(w, steps, i, GraphState(results, None), results.Keys, row, cancelAt).trace, n - i)
    decreases n - i
  {
    if i < n && cancelAt != Some(i) {
      SettledNodeIsIdle(w, steps, i, results);
      IdleTurn(w, steps, i, results, row, cancelAt);
      ReplayIsIdle(w, steps, i + 1, n, results, row.Append(Started(steps[i].name)), cancelAt);
    }
  }

  /** Resuming repeats no work: on the way back to the answered gate every node is
      either already done or skipped again by its condition; no agent runs twice. */
  lemma ResumeRunsNoAgentTwice(w: World, steps: seq<Step>, n: nat, row: Row, cancelAt: Option<nat>)
    requires Walked(w, steps, n, row.steps) && Restart(steps, n) && (n == 0 || Stable(w, steps))
    ensures IdleUpTo(RunFrom(w, steps, 0, GraphState(row.steps, None), row.steps.Keys, row, cancelAt).trace, n)
  {
    NoFailure(w, steps, n, row.steps);
    WalkedIsSettled(w, steps, n, row.steps);
    ReplayIsIdle(w, steps, 0, n, row.steps, row, cancelAt);
  }

  // ---------------------------------------------------------------- the exact condition

  /** An approval is written where the graph looks for it, or none is ever needed. */
  predicate ApprovalsLand(w: World, steps: seq<Step>) {
    w.autoApprove || !LoneUnkeyedGate(steps)
  }

  ghost predicate SameOutcome(w: World, steps: seq<Step>, decisions: seq<string>) {
    var run := Drive(w, steps, Execute(w, steps, CREATED), decisions);
    var pass := Inline(w, steps, 0, map[], decisions);
    Matches(run, pass)
  }

  /** Pause/resume is transparent for every well-behaved definition whose approvals land:
      for every list of decisions, the run through pause, store, approval and rebuild ends
      as the uninterrupted pass that answers each gate inline. */
  lemma PauseResumeIsTransparent(w: World, steps: seq<Step>, decisions: seq<string>)
    requires WellBehaved(w, steps) && ApprovalsLand(w, steps)
    ensures SameOutcome(w, steps, decisions)
  {
    assert KeysBefore(steps, 0) == {};
    DriveFrom(w, steps, 0, CREATED, decisions);
  }

  /** ... and for no other: it holds of all decision lists if and only if approvals land. */
  lemma TransparentIff(w: World, steps: seq<Step>)
    requires WellBehaved(w, steps)
    ensures (forall decisions :: SameOutcome(w, steps, decisions)) <==> ApprovalsLand(w, steps)
  {
    if ApprovalsLand(w, steps) {
      forall decisions {
        PauseResumeIsTransparent(w, steps, decisions);
      }
    } else {
      LoneGateShows(w, steps);
    }
  }

  lemma LoneGateShows(w: World, steps: seq<Step>)
    requires LoneUnkeyedGate(steps) && !w.autoApprove
    ensures !SameOutcome(w, steps, ["approved"])
  {
    LoneGateNeverOpens(w, steps, CREATED, ["approved"]);
    var passed := map[GraphKey(steps, 0) := Decided(true, false)];
    assert Inline(w, steps, 0, map[], ["approved"]) == Inline(w, steps, 1, passed, []);
  }

  /** A lone gate without an output key stays shut: whatever is decided, however often,
      the run is paused at the same gate again. */
  lemma {:induction false} LoneGateNeverOpens(w: World, steps: seq<Step>, row: Row, decisions: seq<string>)
    requires LoneUnkeyedGate(steps) && !w.autoApprove
    requires !HasFailure(row.steps)
    requires "result" in row.steps ==> row.steps["result"].status == AwaitingApproval
    ensures var run := Drive(w, steps, Execute(w, steps, row), decisions);
      run.status == Paused && run.currentStep == Some(steps[0].name)
    decreases |decisions|
  {
    ShutAgain(w, steps, row);
    if decisions != [] {
      var stopped := Execute(w, steps, row);
      var name := steps[0].name;
      ApproveKeyIs(steps, 0);
      var approved := ApproveRow(steps, stopped, name, decisions[0]);
      assert forall k :: k in approved.steps && k != name ==>
        k in stopped.steps && approved.steps[k] == stopped.steps[k];
      LoneGateNeverOpens(w, steps, approved, decisions[1..]);
    }
  }

  lemma ShutAgain(w: World, steps: seq<Step>, row: Row)
    requires LoneUnkeyedGate(steps) && !w.autoApprove
    requires !HasFailure(row.steps)
    requires "result" in row.steps ==> row.steps["result"].status == AwaitingApproval
    ensures var stopped := Execute(w, steps, row);
      && stopped.status == Paused && stopped.currentStep == Some(steps[0].name)
      && !HasFailure(stopped.steps)
      && "result" in stopped.steps && stopped.steps["result"].status == AwaitingApproval
  {
    var o := RunNode(w, steps, 0, GraphState(row.steps, None));
    var stored := row.Append(Started(steps[0].name));
    assert Persist(stored, row.steps, row.steps.Keys) == stored;
    assert row.steps.Keys + row.steps.Keys == row.steps.Keys;
    assert Execute(w, steps, row) == RunFrom(w, steps, 1, o.state, row.steps.Keys, stored, None).row;
    PauseStored(w, steps, stored, o.state);
  }

  lemma PauseStored(w: World, steps: seq<Step>, stored: Row, gs: GraphState)
    requires |steps| == 1 && gs.pausedAt.Some?
    requires !HasFailure(stored.steps)
    requires "result" in stored.steps ==> stored.steps["result"].status == AwaitingApproval
    requires exists r: StepResult :: r.status == AwaitingApproval && gs.results == stored.steps["result" := r]
    ensures var stopped := RunFrom(w, steps, 1, gs, stored.steps.Keys, stored, None).row;
      && stopped.status == Paused && stopped.currentStep == gs.pausedAt
      && !HasFailure(stopped.steps)
      && "result" in stopped.steps && stopped.steps["result"].status == AwaitingApproval
  {
    var r: StepResult :| r.status == AwaitingApproval && gs.results == stored.steps["result" := r];
    assert forall k :: k in gs.results ==> k == "result" || (k in stored.steps && gs.results[k] == stored.steps[k]);
    assert !HasFailure(gs.results);
    if "result" in stored.steps {
      assert gs.results.Keys - stored.steps.Keys == {};
    } else {
      PersistCatchesUp(stored, gs.results, stored.steps.Keys);
    }
  }

  // ---------------------------------------------------------------- which definitions are transparent

  /** Conditions that look back are stable. */
  lemma LookingBackIsStable(w: World, steps: seq<Step>)
    requires ConditionsLookBack(w, steps)
    ensures Stable(w, steps)
  {
    forall i: nat, g: nat | i < g < |steps| && steps[g].Gate? && Conditioned(steps, i)
      ensures StableAt(w, steps, i, g)
    {
      forall r: Results | r.Keys == KeysBefore(steps, g + 1)
        ensures w.holds(steps[i].condition.value, r) == w.holds(steps[i].condition.value, Earlier(steps, i, r))
      {
        assert AgreeOn(KeysBefore(steps, i), r, Earlier(steps, i, r));
      }
    }
  }

  /** So are conditions that refer to nothing between their own step and the last gate. */
  lemma NotAheadIsStable(w: World, steps: seq<Step>, refs: References)
    requires ReadsReferences(w, refs) && !LooksAhead(steps, refs)
    ensures Stable(w, steps)
  {
    forall i: nat, g: nat | i < g < |steps| && steps[g].Gate? && Conditioned(steps, i)
      ensures StableAt(w, steps, i, g)
    {
      forall r: Results | r.Keys == KeysBefore(steps, g + 1)
        ensures w.holds(steps[i].condition.value, r) == w.holds(steps[i].condition.value, Earlier(steps, i, r))
      {
        NotAheadAgrees(steps, refs, i, g, r);
      }
    }
  }

  lemma NotAheadAgrees(steps: seq<Step>, refs: References, i: nat, g: nat, r: Results)
    requires !LooksAhead(steps, refs) && i < g < |steps| && steps[g].Gate? && Conditioned(steps, i)
    requires r.Keys == KeysBefore(steps, g + 1)
    ensures AgreeOn(refs(steps[i].condition.value), r, Earlier(steps, i, r))
  {
    forall k | k in refs(steps[i].condition.value) && k in r
      ensures k in KeysBefore(steps, i)
    {
      var j :| 0 <= j < g + 1 && GraphKey(steps, j) == k;
      assert !RefersAhead(steps, refs, i, j, g);
    }
  }

  /** A world in which only one step's agent fails, and conditions of that step's text ask
      whether a key is there. */
  function Spoiler(step: Step, key: Key): World {
    World((s, r) => Returned(StepResult(if s == step then Failed else Completed, NoOutput, None)),
          (c: string, r: Results) => Some(step.Agent? && step.condition == Some(c) && key in r),
          (s, r) => NoOutput,
          false)
  }

  /** What the pass has at node n in that world: the step at i, once reached, is skipped. */
  ghost predicate Spared(steps: seq<Step>, i: nat, n: nat, results: Results) {
    && n <= |steps| && results.Keys == KeysBefore(steps, n)
    && forall k :: 0 <= k < n ==> SparedAt(steps, i, k, results)
  }

  predicate SparedAt(steps: seq<Step>, i: nat, k: nat, results: Results)
    requires k < |steps|
  {
    && GraphKey(steps, k) in results
    && var status := results[GraphKey(steps, k)].status;
       if k == i then status == Skipped
       else status == Completed || (status == Skipped && !steps[k].Gate?)
  }

  lemma SparedNext(steps: seq<Step>, i: nat, n: nat, results: Results, r: StepResult)
    requires UniqueKeys(steps) && n < |steps| && Spared(steps, i, n, results)
    requires r.status == Completed || (r.status == Skipped && !steps[n].Gate?)
    requires n == i ==> r.status == Skipped
    ensures Spared(steps, i, n + 1, results[GraphKey(steps, n) := r])
  {
    KeyIsNew(steps, n);
    var more := results[GraphKey(steps, n) := r];
    forall k | 0 <= k < n
      ensures SparedAt(steps, i, k, more)
    {
      assert SparedAt(steps, i, k, results);
      assert GraphKey(steps, k) in KeysBefore(steps, n);
    }
  }

  /** How the pass goes past an agent node in that world. */
  lemma SparedAgent(steps: seq<Step>, i: nat, j: nat, n: nat, results: Results, w: World)
    returns (more: Results)
    requires UniqueSteps(steps) && i <= j < |steps| && Conditioned(steps, i)
    requires n < |steps| && steps[n].Agent? && Spared(steps, i, n, results)
    requires w == Spoiler(steps[i], GraphKey(steps, j))
    ensures Spared(steps, i, n + 1, more)
    ensures var passes := PassesWith(w, steps, n, results);
      passes.Some? && more == results[GraphKey(steps, n) := passes.value]
  {
    if n == i {
      KeyIsNew(steps, j);
      assert KeysBefore(steps, i) <= KeysBefore(steps, j);
    }
    var r := PassesWith(w, steps, n, results).value;
    more := results[GraphKey(steps, n) := r];
    SparedNext(steps, i, n, results, r);
  }

  lemma InlinePasses(w: World, steps: seq<Step>, n: nat, results: Results, decisions: seq<string>)
    requires n < |steps| && steps[n].Agent? && PassesWith(w, steps, n, results).Some?
    ensures Inline(w, steps, n, results, decisions) ==
            Inline(w, steps, n + 1, results[GraphKey(steps, n) := PassesWith(w, steps, n, results).value], decisions)
  {
  }

  /** With these decisions the pass from node n waits at gate g. */
  ghost predicate WaitsAt(
      w: World, steps: seq<Step>, n: nat, results: Results, decisions: seq<string>, g: nat, reached: Results) {
    && n <= |steps| && g < |steps|
    && Inline(w, steps, n, results, decisions) ==
       Finish(Paused, reached[GraphKey(steps, g) := Awaiting(w, steps[g], reached)], Some(steps[g].name))
  }

  lemma WaitsBehindGate(
      w: World, steps: seq<Step>, n: nat, results: Results, rest: seq<string>, g: nat, reached: Results)
    requires n < |steps| && steps[n].Gate? && !w.autoApprove
    requires WaitsAt(w, steps, n + 1, results[GraphKey(steps, n) := Decided(true, false)], rest, g, reached)
    ensures WaitsAt(w, steps, n, results, ["approved"] + rest, g, reached)
  {
    assert (["approved"] + rest)[1..] == rest;
    InlineAnswer(w, steps, n, results, ["approved"] + rest);
  }

  /** In that world the pass can be led to any gate ... */
  lemma {:induction false} PassReaches(steps: seq<Step>, i: nat, j: nat, g: nat, n: nat, results: Results, w: World)
    returns (decisions: seq<string>, reached: Results)
    requires UniqueSteps(steps) && i <= j < |steps| && Conditioned(steps, i)
    requires n <= g < |steps| && steps[g].Gate? && Spared(steps, i, n, results)
    requires w == Spoiler(steps[i], GraphKey(steps, j))
    ensures Spared(steps, i, g, reached) && WaitsAt(w, steps, n, results, decisions, g, reached)
    decreases g - n
  {
    if n == g {
      decisions, reached := [], results;
      InlineWaits(w, steps, g, results);
    } else if steps[n].Gate? {
      SparedNext(steps, i, n, results, Decided(true, false));
      var rest;
      rest, reached := PassReaches(steps, i, j, g, n + 1, results[GraphKey(steps, n) := Decided(true, false)], w);
      decisions := ["approved"] + rest;
      WaitsBehindGate(w, steps, n, results, rest, g, reached);
    } else {
      var more := SparedAgent(steps, i, j, n, results, w);
      decisions, reached := PassReaches(steps, i, j, g, n + 1, more, w);
      InlinePasses(w, steps, n, results, decisions);
    }
  }

  /** ... and never fails. */
  lemma {:induction false} PassNeverFails(
    steps: seq<Step>, i: nat, j: nat, n: nat, results: Results, decisions: seq<string>, w: World)
    requires UniqueSteps(steps) && i <= j < |steps| && Conditioned(steps, i) && Spared(steps, i, n, results)
    requires w == Spoiler(steps[i], GraphKey(steps, j))
    ensures Inline(w, steps, n, results, decisions).status != RunFailed
    decreases |steps| - n
  {
    if n < |steps| && steps[n].Agent? {
      var more := SparedAgent(steps, i, j, n, results, w);
      InlinePasses(w, steps, n, results, decisions);
      PassNeverFails(steps, i, j, n + 1, more, decisions, w);
    } else if n < |steps| && decisions != [] {
      var r := Decided(decisions[0] == "approved", false);
      SparedNext(steps, i, n, results, r);
      InlineAnswer(w, steps, n, results, decisions);
      PassNeverFails(steps, i, j, n + 1, results[GraphKey(steps, n) := r], decisions[1..], w);
    } else {
      InlineRests(w, steps, n, results, decisions);
    }
  }

  lemma InlineWaits(w: World, steps: seq<Step>, g: nat, results: Results)
    requires g < |steps| && steps[g].Gate? && !w.autoApprove
    ensures Inline(w, steps, g, results, []) ==
            Finish(Paused, results[GraphKey(steps, g) := Awaiting(w, steps[g], results)], Some(steps[g].name))
  {
  }

  lemma InlineRests(w: World, steps: seq<Step>, n: nat, results: Results, decisions: seq<string>)
    requires n <= |steps| && (n < |steps| ==> steps[n].Gate? && decisions == []) && !w.autoApprove
    ensures Inline(w, steps, n, results, decisions).status != RunFailed
  {
  }

  lemma InlineAnswer(w: World, steps: seq<Step>, n: nat, results: Results, decisions: seq<string>)
    requires n < |steps| && steps[n].Gate? && !w.autoApprove && decisions != []
    ensures var r := Decided(decisions[0] == "approved", false);
      Inline(w, steps, n, results, decisions) ==
      Inline(w, steps, n + 1, results[GraphKey(steps, n) := r], decisions[1..])
  {
  }

  /** A store from which a resumed segment runs the step at i after all: it was skipped, the
      key its condition asks for is there, and no gate before it is open. */
  ghost predicate Doomed(steps: seq<Step>, i: nat, key: Key, gs: GraphState)
    requires i < |steps|
  {
    && gs.pausedAt.None? && !HasFailure(gs.results)
    && key in gs.results
    && GraphKey(steps, i) in gs.results && gs.results[GraphKey(steps, i)].status == Skipped
    && forall k :: 0 <= k < i && steps[k].Gate? ==>
         GraphKey(steps, k) in gs.results && gs.results[GraphKey(steps, k)].status == Completed
  }

  /** A node before i leaves such a store as doomed as it was. */
  lemma StaysDoomed(steps: seq<Step>, i: nat, key: Key, k: nat, gs: GraphState)
    requires UniqueSteps(steps) && k < i < |steps| && Conditioned(steps, i) && Doomed(steps, i, key, gs)
    ensures var o := RunNode(Spoiler(steps[i], key), steps, k, gs);
      o.branch != Crashed && Doomed(steps, i, key, o.state)
  {
    var o := RunNode(Spoiler(steps[i], key), steps, k, gs);
    assert steps[k].name != steps[i].name && GraphKey(steps, k) != GraphKey(steps, i);
    assert forall x :: x in o.state.results ==>
      x == GraphKey(steps, k) || (x in gs.results && o.state.results[x] == gs.results[x]);
    assert forall x :: x in gs.results && x != GraphKey(steps, k) ==> o.state.results[x] == gs.results[x];
  }

  lemma {:induction false} ResumeFails(
      steps: seq<Step>, i: nat, key: Key, k: nat, gs: GraphState, persisted: set<Key>, row: Row)
    requires UniqueSteps(steps) && k <= i < |steps| && Conditioned(steps, i) && Doomed(steps, i, key, gs)
    ensures RunFrom(Spoiler(steps[i], key), steps, k, gs, persisted, row, None).row.status == RunFailed
    decreases i - k
  {
    var w := Spoiler(steps[i], key);
    var o := RunNode(w, steps, k, gs);
    var stored := Persist(row.Append(Started(steps[k].name)), gs.results, persisted);
    if k < i {
      StaysDoomed(steps, i, key, k, gs);
      Turn(w, steps, k, gs, persisted, row, None);
      ResumeFails(steps, i, key, k + 1, o.state, persisted + gs.results.Keys, stored);
    } else {
      Turn(w, steps, k, gs, persisted, row, None);
      FailureEnds(w, steps, i, o.state, persisted + gs.results.Keys, stored);
    }
  }

  lemma FailureEnds(w: World, steps: seq<Step>, i: nat, gs: GraphState, persisted: set<Key>, row: Row)
    requires i < |steps| && GraphKey(steps, i) in gs.results && gs.results[GraphKey(steps, i)].status == Failed
    ensures RunFrom(w, steps, i + 1, gs, persisted, row, None).row.status == RunFailed
  {
    assert HasFailure(gs.results);
  }

  lemma {:induction false} DriveOneMore(w: World, steps: seq<Step>, row: Row, decisions: seq<string>, last: string)
    ensures Drive(w, steps, row, decisions + [last]) == Drive(w, steps, Drive(w, steps, row, decisions), [last])
    decreases |decisions|
  {
    if decisions != [] && row.status == Paused && row.currentStep.Some? {
      var next := Execute(w, steps, ApproveRow(steps, row, row.currentStep.value, decisions[0]));
      assert (decisions + [last])[1..] == decisions[1..] + [last];
      DriveOneMore(w, steps, next, decisions[1..], last);
    } else if decisions == [] {
      assert decisions + [last] == [last];
    }
  }

  /** An approval overwrites what the graph stored for the gate. */
  lemma ApprovalStored(steps: seq<Step>, g: nat, row: Row, decision: string)
    requires UniqueNames(steps) && !LoneUnkeyedGate(steps) && g < |steps| && steps[g].Gate?
    ensures ApproveRow(steps, row, steps[g].name, decision).steps ==
            row.steps[GraphKey(steps, g) := Decided(decision == "approved", false)]
  {
    KeysAgreeAt(steps, g);
  }

  /** Approving gate g dooms the store the pass has there. */
  lemma ApprovalDooms(steps: seq<Step>, i: nat, j: nat, g: nat, reached: Results, more: Results)
    requires UniqueKeys(steps) && i <= j <= g < |steps| && i < g && Spared(steps, i, g, reached)
    requires more == reached[GraphKey(steps, g) := Decided(true, false)]
    ensures Doomed(steps, i, GraphKey(steps, j), GraphState(more, None))
  {
    SparedKept(steps, i, g, reached, more);
    assert GraphKey(steps, j) in KeysBefore(steps, g + 1);
    assert SparedAt(steps, i, i, more);
    forall k | 0 <= k < i && steps[k].Gate?
      ensures GraphKey(steps, k) in more && more[GraphKey(steps, k)].status == Completed
    {
      assert SparedAt(steps, i, k, more);
    }
    SparedHasNoFailure(steps, i, g, more);
  }

  lemma SparedKept(steps: seq<Step>, i: nat, g: nat, reached: Results, more: Results)
    requires UniqueKeys(steps) && g < |steps| && Spared(steps, i, g, reached)
    requires more == reached[GraphKey(steps, g) := Decided(true, false)]
    ensures more.Keys == KeysBefore(steps, g + 1)
    ensures forall k :: 0 <= k < g ==> SparedAt(steps, i, k, more)
  {
    KeyIsNew(steps, g);
    forall k | 0 <= k < g
      ensures SparedAt(steps, i, k, more)
    {
      assert SparedAt(steps, i, k, reached);
      assert GraphKey(steps, k) in KeysBefore(steps, g);
    }
  }

  lemma SparedHasNoFailure(steps: seq<Step>, i: nat, g: nat, results: Results)
    requires g < |steps| && results.Keys == KeysBefore(steps, g + 1)
    requires forall k :: 0 <= k < g ==> SparedAt(steps, i, k, results)
    requires results[GraphKey(steps, g)].status == Completed
    ensures !HasFailure(results)
  {
    forall x | x in results
      ensures results[x].status !in {Failed, Denied}
    {
      var k :| 0 <= k < g + 1 && GraphKey(steps, k) == x;
      assert k < g ==> SparedAt(steps, i, k, results);
    }
  }

  /** A condition that refers ahead can be observed: in some world whose conditions read only
      their references, the resumed run fails where no pass does. */
  lemma LookingAheadIsObservable(steps: seq<Step>, refs: References, i: nat, j: nat, g: nat)
    returns (w: World, decisions: seq<string>)
    requires UniqueSteps(steps) && !LoneUnkeyedGate(steps) && RefersAhead(steps, refs, i, j, g)
    ensures AgentsSettle(w) && !w.autoApprove && ReadsReferences(w, refs)
    ensures !SameOutcome(w, steps, decisions)
  {
    w := Spoiler(steps[i], GraphKey(steps, j));
    assert KeysBefore(steps, 0) == {};
    var reached;
    decisions, reached := PassReaches(steps, i, j, g, 0, map[], w);
    if SameOutcome(w, steps, decisions) {
      var run := Drive(w, steps, Execute(w, steps, CREATED), decisions);
      ApprovalFails(steps, i, j, g, reached, Awaiting(w, steps[g], reached), run);
      DriveOneMore(w, steps, Execute(w, steps, CREATED), decisions, "approved");
      decisions := decisions + ["approved"];
      PassNeverFails(steps, i, j, 0, map[], decisions, w);
    }
  }

  /** The run that waits at gate g with what the pass has there fails once it is approved. */
  lemma ApprovalFails(steps: seq<Step>, i: nat, j: nat, g: nat, reached: Results, waits: StepResult, run: Row)
    requires UniqueSteps(steps) && !LoneUnkeyedGate(steps)
    requires Conditioned(steps, i) && i <= j <= g < |steps| && i < g && steps[g].Gate? && Spared(steps, i, g, reached)
    requires run.status == Paused && run.currentStep == Some(steps[g].name)
    requires run.steps == reached[GraphKey(steps, g) := waits]
    ensures Drive(Spoiler(steps[i], GraphKey(steps, j)), steps, run, ["approved"]).status == RunFailed
  {
    var more := reached[GraphKey(steps, g) := Decided(true, false)];
    ApprovalStored(steps, g, run, "approved");
    assert run.steps[GraphKey(steps, g) := Decided(true, false)] == more;
    ApprovalDooms(steps, i, j, g, reached, more);
    DoomedDrives(steps, i, GraphKey(steps, j), run, steps[g].name);
  }

  lemma DoomedDrives(steps: seq<Step>, i: nat, key: Key, run: Row, name: string)
    requires UniqueSteps(steps) && Conditioned(steps, i)
    requires run.status == Paused && run.currentStep == Some(name)
    requires Doomed(steps, i, key, GraphState(ApproveRow(steps, run, name, "approved").steps, None))
    ensures Drive(Spoiler(steps[i], key), steps, run, ["approved"]).status == RunFailed
  {
    DoomedExecutes(steps, i, key, ApproveRow(steps, run, name, "approved"));
    DriveStep(Spoiler(steps[i], key), steps, run, name, ["approved"]);
  }

  lemma DoomedExecutes(steps: seq<Step>, i: nat, key: Key, row: Row)
    requires UniqueSteps(steps) && Conditioned(steps, i) && Doomed(steps, i, key, GraphState(row.steps, None))
    ensures Execute(Spoiler(steps[i], key), steps, row).status == RunFailed
  {
    ResumeFails(steps, i, key, 0, GraphState(row.steps, None), row.steps.Keys, row);
  }

  /** Which definitions are transparent: in every world whose agents settle, whose gates wait
      and whose conditions read only what they refer to, and for all decisions, the run
      through pauses ends as the uninterrupted pass, if and only if the definition is not a
      lone gate without an output key and no condition refers to a step between its own and
      a gate behind it. */
  lemma TransparentDefinitions(steps: seq<Step>, refs: References)
    requires UniqueSteps(steps)
    ensures (forall w: World, decisions: seq<string> ::
               AgentsSettle(w) && !w.autoApprove && ReadsReferences(w, refs) ==> SameOutcome(w, steps, decisions))
            <==> !LoneUnkeyedGate(steps) && !LooksAhead(steps, refs)
  {
    if !LoneUnkeyedGate(steps) && !LooksAhead(steps, refs) {
      forall w: World, decisions: seq<string> | AgentsSettle(w) && !w.autoApprove && ReadsReferences(w, refs)
        ensures SameOutcome(w, steps, decisions)
      {
        NotAheadIsStable(w, steps, refs);
        PauseResumeIsTransparent(w, steps, decisions);
      }
    } else if LoneUnkeyedGate(steps) {
      var w := Spoiler(steps[0], "");
      LoneGateShows(w, steps);
      assert AgentsSettle(w) && ReadsReferences(w, refs);
    } else {
      var i, j, g :| RefersAhead(steps, refs, i, j, g);
      var w, decisions := LookingAheadIsObservable(steps, refs, i, j, g);
    }
  }
}
