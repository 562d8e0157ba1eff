/** The in-process runner as an object: rows of the run-state store, launched tasks, and
    the operations that update them, proved against the functions of `Workflow`. */
module LocalRunner {
  import opened Prelude
  import opened Workflow
  import WorkflowReachable

  datatype Outcome = Ok | AlreadyExists | NotFound | NotPaused | WrongStep

  /** `after` is `before` with these results stored; the last one stored is the current step. */
  ghost predicate Persisted(before: Row, after: Row, results: Results, saved: set<Key>)
    requires saved <= results.Keys
  {
    && after.steps == before.steps + (map k | k in saved :: results[k])
    && after.status == before.status && after.events == before.events
    && if saved == {} then after.currentStep == before.currentStep
       else after.currentStep.Some? && after.currentStep.value in saved
  }

  lemma OneMore(before: Row, after: Row, results: Results, saved: set<Key>, key: Key)
    requires saved <= results.Keys && key in results && Persisted(before, after, results, saved)
    ensures Persisted(before, after.UpdateStep(key, results[key]), results, saved + {key})
  {
  }

  /** With at most one result to store there is only one order. */
  lemma OneIsOrdered(before: Row, after: Row, results: Results, persisted: set<Key>)
    requires Persisted(before, after, results, results.Keys - persisted)
    requires forall k, l :: k in results.Keys - persisted && l in results.Keys - persisted ==> k == l
    ensures after == Persist(before, results, persisted)
  {
    var unsaved := results.Keys - persisted;
    if unsaved == {} {
      assert after.steps == before.steps;
    }
  }

  class LocalWorkflowRunner {
    const world: World
    var definitions: map<string, seq<Step>>
    var rows: map<string, Row>
    var running: map<string, GraphState>

    constructor (world: World)
      ensures this.world == world && definitions == map[] && rows == map[] && running == map[]
    {
      this.world := world;
      definitions, rows, running := map[], map[], map[];
    }

    /** Every stored workflow has its definition, and every launched task its row. */
    predicate Valid()
      reads this
    {
      definitions.Keys == rows.Keys && running.Keys <= rows.Keys
    }

    /** This workflow's part of the state. */
    ghost function View(id: string): WorkflowReachable.Run
      reads this
    {
      WorkflowReachable.Run(
        if id in rows then Some(rows[id]) else None,
        if id in running then Some(running[id]) else None)
    }

    method Start(id: string, steps: seq<Step>) returns (r: Outcome)
      requires Valid()
      modifies this
      ensures Valid()
      ensures r == (if id in old(rows) then AlreadyExists else Ok)
      ensures forall other :: other != id ==> View(other) == old(View(other))
      ensures definitions == if r.Ok? then old(definitions)[id := steps] else old(definitions)
      ensures View(id) == WorkflowReachable.Next(world, steps, old(View(id)), WorkflowReachable.Start)
    {
      if id in rows {
        return AlreadyExists;
      }
      definitions := definitions[id := steps];
      rows := rows[id := CREATED];
      running := running[id := GraphState(map[], None)];
      return Ok;
    }

    /** The inner loop that persists new step results, in the order the key set yields them. */
    method PersistNew(id: string, results: Results, persisted: set<Key>)
      requires id in rows
      modifies this`rows
      ensures id in rows && rows == old(rows)[id := rows[id]]
      ensures Persisted(old(rows)[id], rows[id], results, results.Keys - persisted)
    {
      var todo := results.Keys - persisted;
      ghost var before := rows[id];
      ghost var saved: set<Key> := {};
      while todo != {}
        invariant id in rows && rows == old(rows)[id := rows[id]]
        invariant saved !! todo && saved + todo == results.Keys - persisted
        invariant Persisted(before, rows[id], results, saved)
        decreases todo
      {
        var key :| key in todo;
        OneMore(before, rows[id], results, saved, key);
        rows := rows[id := rows[id].UpdateStep(key, results[key])];
        saved, todo := saved + {key}, todo - {key};
      }
      assert saved == results.Keys - persisted;
    }

    /** Announce node i and persist what is new. */
    method Record(id: string, steps: seq<Step>, i: nat, gs: GraphState, persisted: set<Key>)
      requires id in rows && i <= |steps|
      requires forall k, l :: k in gs.results.Keys - persisted && l in gs.results.Keys - persisted ==> k == l
      modifies this`rows
      ensures id in rows && rows == old(rows)[id := rows[id]]
      ensures var before := old(rows)[id];
        var announced := if i < |steps| then before.Append(Started(steps[i].name)) else before;
        rows[id] == Persist(announced, gs.results, persisted)
    {
      if i < |steps| {
        rows := rows[id := rows[id].Append(Started(steps[i].name))];
      }
      ghost var announced := rows[id];
      PersistNew(id, gs.results, persisted);
      OneIsOrdered(announced, rows[id], gs.results, persisted);
    }

    /** One turn of the task's loop: announce node i, persist what is new, stop on a failure,
        a pause, a cancellation or the end, otherwise run the node. */
    method Turn(id: string, steps: seq<Step>, i: nat, gs: GraphState, persisted: set<Key>, cancelAt: Option<nat>)
      returns (done: bool, next: GraphState)
      requires id in rows && i <= |steps|
      requires forall k, l :: k in gs.results.Keys - persisted && l in gs.results.Keys - persisted ==> k == l
      modifies this`rows
      ensures id in rows && rows == old(rows)[id := rows[id]]
      ensures done ==> rows[id] == RunFrom(world, steps, i, gs, persisted, old(rows)[id], cancelAt).row
      ensures !done ==>
        && i < |steps|
        && next.results.Keys <= gs.results.Keys + {GraphKey(steps, i)}
        && RunFrom(world, steps, i, gs, persisted, old(rows)[id], cancelAt).row ==
           RunFrom(world, steps, i + 1, next, persisted + gs.results.Keys, rows[id], cancelAt).row
    {
      WorkflowReachable.RestIs(world, steps, i, gs, persisted, rows[id], cancelAt);
      Record(id, steps, i, gs, persisted);
      done, next := true, gs;
      if HasFailure(gs.results) {
        rows := rows[id := rows[id].Append(StepsFailed).SetStatus(RunFailed, None)];
      } else if gs.pausedAt.Some? {
        rows := rows[id := rows[id].SetStatus(Paused, gs.pausedAt).Append(PausedAt(gs.pausedAt.value))];
      } else if cancelAt == Some(i) {
        rows := rows[id := rows[id].SetStatus(Cancelled, None)];
      } else if i == |steps| {
        rows := rows[id := rows[id].Append(Finished).SetStatus(RunCompleted, None)];
      } else {
        var o := RunNode(world, steps, i, gs);
        if o.branch == Crashed {
          rows := rows[id := rows[id].Append(GraphCrashed).SetStatus(RunFailed, None)];
        } else {
          done, next := false, o.state;
        }
      }
    }

    /** The task's loop. `cancelAt` is the node during which the task is cancelled, if it is. */
    method Loop(id: string, steps: seq<Step>, start: GraphState, cancelAt: Option<nat>)
      requires id in rows
      modifies this`rows
      ensures rows == old(rows)[id := RunFrom(world, steps, 0, start, start.results.Keys, old(rows)[id], cancelAt).row]
    {
      var gs := start;
      var persisted := gs.results.Keys;
      var i := 0;
      var done := false;
      ghost var target := RunFrom(world, steps, 0, start, persisted, rows[id], cancelAt).row;
      while !done
        invariant 0 <= i <= |steps|
        invariant id in rows && rows == old(rows)[id := rows[id]]
        invariant !done ==> target == RunFrom(world, steps, i, gs, persisted, rows[id], cancelAt).row
        invariant done ==> rows[id] == target
        invariant forall k, l :: k in gs.results.Keys - persisted && l in gs.results.Keys - persisted ==> k == l
        decreases !done, |steps| - i
      {
        var next;
        done, next := Turn(id, steps, i, gs, persisted, cancelAt);
        if !done {
          persisted := persisted + gs.results.Keys;
          gs, i := next, i + 1;
        }
      }
    }

    /** A launched task from its first step to its end, after which it is forgotten. */
    method Execute(id: string, cancelAt: Option<nat>)
      requires Valid() && id in running
      modifies this
      ensures Valid() && definitions == old(definitions)
      ensures forall other :: other != id ==> View(other) == old(View(other))
      ensures var op := WorkflowReachable.RunSegment(cancelAt);
        View(id) == WorkflowReachable.Next(world, definitions[id], old(View(id)), op)
    {
      Loop(id, definitions[id], running[id], cancelAt);
      running := running - {id};
    }

    method Approve(id: string, name: string, decision: string) returns (r: Outcome)
      requires Valid()
      modifies this
      ensures Valid() && definitions == old(definitions)
      ensures forall other :: other != id ==> View(other) == old(View(other))
      ensures r.Ok? <==> id in old(rows) && MayApprove(old(rows)[id], name)
      ensures !r.Ok? ==> r == if id !in old(rows) then NotFound
                              else if old(rows)[id].status != Paused then NotPaused else WrongStep
      ensures id in old(rows) ==>
        var op := WorkflowReachable.Approve(name, decision);
        View(id) == WorkflowReachable.Next(world, definitions[id], old(View(id)), op)
      ensures !r.Ok? ==> rows == old(rows) && running == old(running)
    {
      if id !in rows {
        return NotFound;
      }
      var row := rows[id];
      if row.status != Paused {
        return NotPaused;
      }
      if row.currentStep != Some(name) {
        return WrongStep;
      }
      row := row.UpdateStep(ApproveKey(definitions[id], name), Decided(decision == "approved", false));
      row := row.Append(Approved(name, decision));
      row := row.SetStatus(Running, None);
      rows := rows[id := row];
      running := running[id := GraphState(row.steps, None)];
      return Ok;
    }

    /** Cancelling a task that has not started drops it without touching the row. */
    method Cancel(id: string) returns (r: Outcome)
      requires Valid()
      modifies this
      ensures Valid() && definitions == old(definitions)
      ensures forall other :: other != id ==> View(other) == old(View(other))
      ensures r == (if id in old(rows) then Ok else NotFound)
      ensures id in old(rows) ==>
        View(id) == WorkflowReachable.Next(world, definitions[id], old(View(id)), WorkflowReachable.Cancel)
      ensures id !in old(rows) ==> rows == old(rows) && running == old(running)
    {
      if id !in rows {
        return NotFound;
      }
      if id in running {
        running := running - {id};
      } else {
        rows := rows[id := rows[id].SetStatus(Cancelled, None)];
      }
      return Ok;
    }
  }
}
