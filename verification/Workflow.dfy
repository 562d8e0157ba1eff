/**
 The local workflow runner: a definition becomes a linear graph of nodes, a segment
 executes nodes one by one and persists what is new, an approval gate ends the segment,
 and an approval rebuilds the graph state from the stored row and starts over at node 0.

 `RunNode` is one graph node, `RunFrom` one segment of `LocalWorkflowRunner._execute`,
 `ApproveRow` is `_approve_inner`. `Inline` is the reference: a single pass that answers
 each gate on the spot and knows nothing of pausing, persisting or resuming.
 */
module Workflow {
  import opened Prelude

  type Key = string

  datatype Status = Completed | Failed | Denied | Skipped | AwaitingApproval | Other(text: string)

  datatype Output =
    | NoOutput
    | Json(text: string)
    | Approval(approved: bool, auto: bool)
    | Message(text: string)

  datatype StepResult = StepResult(status: Status, output: Output, error: Option<string>)

  type Results = map<Key, StepResult>

  datatype Step =
    | Agent(name: string, outputKey: Option<Key>, condition: Option<string>)
    | Gate(name: string, outputKey: Option<Key>)

  /** What one agent call does: it yields a result or raises. */
  datatype AgentOutcome = Returned(result: StepResult) | Raised

  /** Everything the runner does not decide itself: the agents, the condition language
      (None: the text does not parse and evaluation raises), the approval message, and
      the approval policy's auto_approve flag. */
  datatype World = World(
    agent: (Step, Results) -> AgentOutcome,
    holds: (string, Results) -> Option<bool>,
    message: (Step, Results) -> Output,
    autoApprove: bool)

  datatype GraphState = GraphState(results: Results, pausedAt: Option<string>)

  /** Which branch of a node's body ran. */
  datatype Branch =
    | AlreadyDone | SkippedWhilePaused | ConditionFalse | RanAgent
    | AutoApproved | PausedHere | Crashed

  datatype NodeOutcome = NodeOutcome(state: GraphState, branch: Branch)

  const SKIPPED := StepResult(Skipped, NoOutput, None)

  function Decided(approved: bool, auto: bool): StepResult {
    StepResult(Completed, Approval(approved, auto), None)
  }

  function Awaiting(w: World, step: Step, results: Results): StepResult {
    StepResult(AwaitingApproval, w.message(step, results), None)
  }

  /** The key under which the graph stores node i's result: a single step without an
      output key gets "result", any other step without one gets its own name. */
  function GraphKey(steps: seq<Step>, i: nat): Key
    requires i < |steps|
  {
    if steps[i].outputKey.Some? then steps[i].outputKey.value
    else if |steps| == 1 then "result"
    else steps[i].name
  }

  /** The key an approval writes: looked up by step name in the raw definition, where the
      one-step default is not applied. The last step of that name wins. */
  function ApproveKey(steps: seq<Step>, name: string): Key {
    if steps == [] then name
    else
      var last := steps[|steps| - 1];
      if last.name == name then (if last.outputKey.Some? then last.outputKey.value else name)
      else ApproveKey(steps[..|steps| - 1], name)
  }

  /** One graph node: the bodies of agent_step and approval_step. */
  function RunNode(w: World, steps: seq<Step>, i: nat, gs: GraphState): NodeOutcome
    requires i < |steps|
  {
    var key := GraphKey(steps, i);
    var done := key in gs.results && gs.results[key].status == Completed;
    match steps[i]
    case Agent(_, _, condition) =>
      if done || (key in gs.results && gs.results[key].status == Failed) then
        NodeOutcome(gs, AlreadyDone)
      else if gs.pausedAt.Some? then
        NodeOutcome(gs.(results := gs.results[key := SKIPPED]), SkippedWhilePaused)
      else
        var test := if condition.Some? then w.holds(condition.value, gs.results) else Some(true);
        if test.None? then NodeOutcome(gs, Crashed)
        else if !test.value then
          NodeOutcome(gs.(results := gs.results[key := SKIPPED]), ConditionFalse)
        else
          (match w.agent(steps[i], gs.results)
           case Raised => NodeOutcome(gs, Crashed)
           case Returned(r) => NodeOutcome(gs.(results := gs.results[key := r]), RanAgent))
    case Gate(name, _) =>
      if done then NodeOutcome(gs, AlreadyDone)
      else if w.autoApprove then
        NodeOutcome(gs.(results := gs.results[key := Decided(true, true)]), AutoApproved)
      else
        NodeOutcome(
          GraphState(gs.results[key := Awaiting(w, steps[i], gs.results)], Some(name)), PausedHere)
  }

  /** What the branch of a visited node tells: whether the node was settled before, whether a
      gate was asked or answered by itself, and whether an agent ran. */
  lemma BranchTells(w: World, steps: seq<Step>, i: nat, gs: GraphState)
    requires i < |steps|
    ensures var key, o := GraphKey(steps, i), RunNode(w, steps, i, gs);
      var settled := key in gs.results &&
        (gs.results[key].status == Completed || (steps[i].Agent? && gs.results[key].status == Failed));
      && (o.branch == AlreadyDone <==> settled)
      && (settled || o.branch == Crashed ==> o.state == gs)
      && (o.branch == SkippedWhilePaused <==> !settled && steps[i].Agent? && gs.pausedAt.Some?)
      && (o.branch == PausedHere <==> !settled && steps[i].Gate? && !w.autoApprove)
      && (o.branch == AutoApproved <==> !settled && steps[i].Gate? && w.autoApprove)
      && (o.branch == RanAgent ==> w.agent(steps[i], gs.results) == Returned(o.state.results[key]))
      && (o.branch == ConditionFalse ==> w.holds(steps[i].condition.value, gs.results) == Some(false))
  {
  }

  datatype RunStatus = Running | Paused | RunCompleted | RunFailed | Cancelled

  datatype Event =
    | Started(step: string)
    | PausedAt(step: string)
    | Approved(step: string, decision: string)
    | StepsFailed
    | GraphCrashed
    | Finished

  /** One row of the run-state table. */
  datatype Row = Row(status: RunStatus, currentStep: Option<string>, steps: Results, events: seq<Event>) {
    function Append(e: Event): Row {
      this.(events := events + [e])
    }

    function UpdateStep(key: Key, r: StepResult): Row {
      this.(steps := steps[key := r], currentStep := Some(key))
    }

    function SetStatus(s: RunStatus, step: Option<string>): Row {
      this.(status := s, currentStep := step)
    }
  }

  const CREATED := Row(Running, None, map[], [])

  predicate HasFailure(results: Results) {
    exists k :: k in results && results[k].status in {Failed, Denied}
  }

  /** Persist the keys that are in the graph state and not yet persisted. */
  ghost function Persist(row: Row, results: Results, persisted: set<Key>): Row {
    var unsaved := results.Keys - persisted;
    if unsaved == {} then row
    else
      var key :| key in unsaved;
      row.(steps := row.steps + (map k | k in unsaved :: results[k]), currentStep := Some(key))
  }

  /** A finished segment: the stored row and the branch each executed node took. */
  datatype Segment = Segment(row: Row, trace: seq<Branch>)

  /** The loop of `_execute` from the moment node i-1 (the start node when i is 0) has run.
      `cancelAt` is the node during which the task is cancelled, if it is. */
  ghost function RunFrom(w: World, steps: seq<Step>, i: nat, gs: GraphState, persisted: set<Key>,
                         row: Row, cancelAt: Option<nat>): Segment
    requires i <= |steps|
    decreases |steps| - i
  {
    var announced := if i < |steps| then row.Append(Started(steps[i].name)) else row;
    var stored := Persist(announced, gs.results, persisted);
    if HasFailure(gs.results) then
      Segment(stored.Append(StepsFailed).SetStatus(RunFailed, None), [])
    else if gs.pausedAt.Some? then
      Segment(stored.SetStatus(Paused, gs.pausedAt).Append(PausedAt(gs.pausedAt.value)), [])
    else if cancelAt == Some(i) then
      Segment(stored.SetStatus(Cancelled, None), [])
    else if i == |steps| then
      Segment(stored.Append(Finished).SetStatus(RunCompleted, None), [])
    else
      var o := RunNode(w, steps, i, gs);
      if o.branch == Crashed then
        Segment(stored.Append(GraphCrashed).SetStatus(RunFailed, None), [Crashed])
      else
        var rest := RunFrom(w, steps, i + 1, o.state, persisted + gs.results.Keys, stored, cancelAt);
        rest.(trace := [o.branch] + rest.trace)
  }

  /** A segment as `start` and `_resume_from_store` launch it: the graph is rebuilt, the
      stored results are loaded and every node is visited again from the first. */
  ghost function Execute(w: World, steps: seq<Step>, row: Row): Row {
    RunFrom(w, steps, 0, GraphState(row.steps, None), row.steps.Keys, row, None).row
  }

  predicate MayApprove(row: Row, name: string) {
    row.status == Paused && row.currentStep == Some(name)
  }

  /** `_approve_inner` up to the relaunch. */
  function ApproveRow(steps: seq<Step>, row: Row, name: string, decision: string): Row {
    row.UpdateStep(ApproveKey(steps, name), Decided(decision == "approved", false))
       .Append(Approved(name, decision))
       .SetStatus(Running, None)
  }

  /** Answer the gates of a run one after the other, each time resuming from the store. */
  ghost function Drive(w: World, steps: seq<Step>, row: Row, decisions: seq<string>): Row
    decreases |decisions|
  {
    if decisions == [] || row.status != Paused || row.currentStep.None? then row
    else
      var approved := ApproveRow(steps, row, row.currentStep.value, decisions[0]);
      Drive(w, steps, Execute(w, steps, approved), decisions[1..])
  }

  // ---------------------------------------------------------------- reference semantics

  datatype Finish = Finish(status: RunStatus, results: Results, waitingAt: Option<string>)

  /** One uninterrupted pass from node i; a gate takes the next decision, and the pass
      stops at a gate for which there is none left. */
  function Inline(w: World, steps: seq<Step>, i: nat, results: Results, decisions: seq<string>): Finish
    requires i <= |steps|
    decreases |steps| - i
  {
    if i == |steps| then Finish(RunCompleted, results, None)
    else
      var key := GraphKey(steps, i);
      match steps[i]
      case Agent(_, _, condition) =>
        var test := if condition.Some? then w.holds(condition.value, results) else Some(true);
        if test.None? then Finish(RunFailed, results, None)
        else if !test.value then Inline(w, steps, i + 1, results[key := StepResult(Skipped, NoOutput, None)], decisions)
        else
          (match w.agent(steps[i], results)
           case Raised => Finish(RunFailed, results, None)
           case Returned(r) =>
             if r.status in {Failed, Denied} then Finish(RunFailed, results[key := r], None)
             else Inline(w, steps, i + 1, results[key := r], decisions))
      case Gate(name, _) =>
        if w.autoApprove then
          Inline(w, steps, i + 1, results[key := StepResult(Completed, Approval(true, true), None)], decisions)
        else if decisions == [] then
          var waiting := StepResult(AwaitingApproval, w.message(steps[i], results), None);
          Finish(Paused, results[key := waiting], Some(name))
        else
          var decided := StepResult(Completed, Approval(decisions[0] == "approved", false), None);
          Inline(w, steps, i + 1, results[key := decided], decisions[1..])
  }

  // ---------------------------------------------------------------- hypotheses

  ghost predicate UniqueNames(steps: seq<Step>) {
    forall i, j :: 0 <= i < j < |steps| ==> steps[i].name != steps[j].name
  }

  ghost predicate UniqueKeys(steps: seq<Step>) {
    forall i, j :: 0 <= i < j < |steps| ==> GraphKey(steps, i) != GraphKey(steps, j)
  }

  /** Step names and graph keys are unique. */
  ghost predicate UniqueSteps(steps: seq<Step>) {
    UniqueNames(steps) && UniqueKeys(steps)
  }

  /** The only definitions whose gate is stored and approved under different keys. */
  predicate LoneUnkeyedGate(steps: seq<Step>) {
    |steps| == 1 && steps[0].Gate? && steps[0].outputKey.None? && steps[0].name != "result"
  }

  /** Agents settle: what they return is completed, failed or denied. */
  ghost predicate AgentsSettle(w: World) {
    forall s, r :: w.agent(s, r).Returned? ==> w.agent(s, r).result.status in {Completed, Failed, Denied}
  }

  ghost predicate AgreeOn(keys: set<Key>, r1: Results, r2: Results) {
    forall k :: k in keys ==> (k in r1 <==> k in r2) && (k in r1 && k in r2 ==> r1[k] == r2[k])
  }

  ghost function KeysBefore(steps: seq<Step>, n: nat): set<Key>
    requires n <= |steps|
  {
    set i | 0 <= i < n :: GraphKey(steps, i)
  }

  predicate Conditioned(steps: seq<Step>, i: nat) {
    i < |steps| && steps[i].Agent? && steps[i].condition.Some?
  }

  /** What a pass had when it came to node i. */
  ghost function Earlier(steps: seq<Step>, i: nat, results: Results): Results
    requires i <= |steps|
  {
    map k | k in results && k in KeysBefore(steps, i) :: results[k]
  }

  /** Answering gate g does not change what step i's condition says. */
  ghost predicate StableAt(w: World, steps: seq<Step>, i: nat, g: nat)
    requires Conditioned(steps, i) && g < |steps|
  {
    forall r: Results :: r.Keys == KeysBefore(steps, g + 1) ==>
      w.holds(steps[i].condition.value, r) == w.holds(steps[i].condition.value, Earlier(steps, i, r))
  }

  /** ... for all gates and all conditions before them. */
  ghost predicate Stable(w: World, steps: seq<Step>) {
    forall i: nat, g: nat :: i < g < |steps| && steps[g].Gate? && Conditioned(steps, i) ==> StableAt(w, steps, i, g)
  }

  /** Conditions read the results of earlier steps only. */
  ghost predicate ConditionsLookBack(w: World, steps: seq<Step>) {
    forall i :: 0 <= i < |steps| && Conditioned(steps, i) ==>
      forall r1, r2 :: AgreeOn(KeysBefore(steps, i), r1, r2) ==>
        w.holds(steps[i].condition.value, r1) == w.holds(steps[i].condition.value, r2)
  }

  /** The keys that a condition text refers to. */
  type References = string -> set<Key>

  ghost predicate ReadsReferences(w: World, refs: References) {
    forall c, r1, r2 :: AgreeOn(refs(c), r1, r2) ==> w.holds(c, r1) == w.holds(c, r2)
  }

  /** Step i's condition refers to the key of step j, which is not before it and not behind
      gate g, and gate g is behind step i. */
  predicate RefersAhead(steps: seq<Step>, refs: References, i: nat, j: nat, g: nat) {
    && Conditioned(steps, i) && i <= j <= g < |steps| && i < g && steps[g].Gate?
    && GraphKey(steps, j) in refs(steps[i].condition.value)
  }

  ghost predicate LooksAhead(steps: seq<Step>, refs: References) {
    exists i, j, g :: RefersAhead(steps, refs, i, j, g)
  }

  // ---------------------------------------------------------------- keys

  /** A step's output key, or its name. */
  function NamedKey(step: Step): Key {
    if step.outputKey.Some? then step.outputKey.value else step.name
  }

  /** The approval key of step i under unique names. */
  lemma {:induction false} ApproveKeyIs(steps: seq<Step>, i: nat)
    requires i < |steps| && UniqueNames(steps)
    ensures ApproveKey(steps, steps[i].name) == NamedKey(steps[i])
  {
    if i < |steps| - 1 {
      ApproveKeyIs(steps[..|steps| - 1], i);
    }
  }

  /** The graph's key for a step differs from it only for a lone step without an output key. */
  lemma GraphKeyIs(steps: seq<Step>, i: nat)
    requires i < |steps|
    ensures NamedKey(steps[i]) == GraphKey(steps, i) <==>
            !(|steps| == 1 && steps[i].outputKey.None? && steps[i].name != "result")
  {
  }

  lemma KeysAgreeAt(steps: seq<Step>, i: nat)
    requires UniqueNames(steps) && i < |steps|
    ensures ApproveKey(steps, steps[i].name) == GraphKey(steps, i) <==>
            !(|steps| == 1 && steps[i].outputKey.None? && steps[i].name != "result")
  {
    ApproveKeyIs(steps, i);
    GraphKeyIs(steps, i);
  }

  /** An approval of gate i is written under the key the graph reads. */
  predicate Lands(steps: seq<Step>, i: nat) {
    i < |steps| && steps[i].Gate? ==> ApproveKey(steps, steps[i].name) == GraphKey(steps, i)
  }

  /** The graph and the approval path agree on every gate's key exactly when the
      definition is not a lone gate without an output key. */
  lemma KeysAgreeIff(steps: seq<Step>)
    requires UniqueNames(steps)
    ensures (forall i: nat :: Lands(steps, i)) <==> !LoneUnkeyedGate(steps)
  {
    forall i: nat
      ensures Lands(steps, i) || (i == 0 && LoneUnkeyedGate(steps))
    {
      if i < |steps| {
        KeysAgreeAt(steps, i);
      }
    }
    if LoneUnkeyedGate(steps) {
      KeysAgreeAt(steps, 0);
      assert !Lands(steps, 0);
    }
  }
}
