/**
 Sandbox expiry. The expires-at label is computed once, at spawn, from the deadlines
 enforced on everything that may use the sandbox later; a reaper on another replica, with
 a clock of its own, may destroy the sandbox once its clock is past the label. Time is
 real-valued and global; a replica's clock is global time plus its own offset.
 */
module Lifetime {
  import opened Prelude

  const DEFAULT_STEP_TIMEOUT := 600.0
  const SPAWN_DEADLINE := 30 + 300 + 60 + 30
  const TRANSCRIPT_TIMEOUT := 30
  const SAVE_TIMEOUT := 30
  const CANCEL_GRACE := 5
  const DESTROY_GRACE := 120

  function Ceil(x: real): int {
    -((-x).Floor)
  }

  function Max(x: real, y: real): real {
    if x < y then y else x
  }

  /** The deadline on a step's run call; a step may set its own. */
  function RunTimeout(configured: Option<real>): real {
    if configured.Some? then configured.value else DEFAULT_STEP_TIMEOUT
  }

  /** step_sandbox_lifetime_seconds. */
  function StepLifetime(configured: Option<real>): int {
    SPAWN_DEADLINE + Ceil(RunTimeout(configured)) + TRANSCRIPT_TIMEOUT + SAVE_TIMEOUT
    + 5 * CANCEL_GRACE + DESTROY_GRACE
  }

  /** The label the spawner stamps when its own clock reads `stamped`. */
  function ExpiresAt(stamped: real, lifetime: int, minLifetime: nat, skew: nat): int {
    Ceil(stamped) + (if lifetime < minLifetime then minLifetime else lifetime) + skew
  }

  /** A reaper's test: its clock is strictly past the label. */
  predicate MayReap(expiresAt: int, clock: real) {
    expiresAt as real < clock
  }

  /** A reaper whose clock is `offset` ahead of global time may act at global time t. */
  predicate ReapsAt(expiresAt: int, offset: real, t: real) {
    MayReap(expiresAt, t + offset)
  }

  // ---------------------------------------------------------------- waiting on a task

  /** What a task will do: when it finishes if left alone, and how long it takes to stop
      once cancelled; None: never. */
  datatype Task = Task(finishAt: Option<real>, stopsAfter: Option<real>)

  /** When the task is over, if it is cancelled at `cancelled`. */
  function OverAt(t: Task, cancelled: real): Option<real> {
    if t.stopsAfter.None? then t.finishAt
    else
      var stops := cancelled + t.stopsAfter.value;
      if t.finishAt.Some? && t.finishAt.value < stops then t.finishAt else Some(stops)
  }

  datatype How = TaskDone | TimedOut | Interrupted

  /** When and why a wait ends. */
  datatype Wake = Wake(at: real, how: How)

  predicate By(t: Option<real>, limit: real) {
    t.Some? && t.value <= limit
  }

  /** asyncio.wait on one task from `start`, while the waiter itself may be cancelled at
      `interrupt`: control is back at the first of the three. */
  function Wait(start: real, timeout: real, over: Option<real>, interrupt: Option<real>): Wake {
    var deadline := start + Max(0.0, timeout);
    if By(over, deadline) && !(interrupt.Some? && interrupt.value < over.value) then
      Wake(Max(start, over.value), TaskDone)
    else if By(interrupt, deadline) then Wake(Max(start, interrupt.value), Interrupted)
    else Wake(deadline, TimedOut)
  }

  datatype Outcome = Returned | DeadlineExceeded | CallerCancelled

  /** When and how a bounded wait gives control back. */
  datatype Back = Back(at: real, outcome: Outcome)

  /** One bounded phase: its task, and when the caller is cancelled during the first and
      the second wait. */
  datatype Phase = Phase(task: Task, interrupt: Option<real>, interruptAgain: Option<real>)

  /** When and why cancel_within's wait ends. */
  function CancelWake(start: real, task: Task, interrupt: Option<real>): Wake {
    Wait(start, CANCEL_GRACE as real, OverAt(task, start), interrupt)
  }

  /** When and how await_within gives control back. */
  function AwaitEnd(start: real, timeout: real, phase: Phase): Back {
    var w := Wait(start, timeout, phase.task.finishAt, phase.interrupt);
    match w.how
    case TaskDone => Back(w.at, Returned)
    case Interrupted => Back(CancelWake(w.at, phase.task, phase.interruptAgain).at, CallerCancelled)
    case TimedOut => Back(CancelWake(w.at, phase.task, phase.interruptAgain).at, DeadlineExceeded)
  }

  /** A cancelled task is over as soon as it has finished or stopped. */
  lemma OverAtIs(t: Task, cancelled: real, limit: real)
    ensures By(OverAt(t, cancelled), limit) <==>
      (t.finishAt.Some? && t.finishAt.value <= limit) ||
      (t.stopsAfter.Some? && cancelled + t.stopsAfter.value <= limit)
  {
  }

  /** A wait ends at the earliest of the three: the task's end, the interrupt and the deadline;
      a tie goes to the task, and then to the interrupt. */
  lemma WaitIsFirst(start: real, timeout: real, over: Option<real>, interrupt: Option<real>)
    ensures var w := Wait(start, timeout, over, interrupt);
      var deadline := if timeout > 0.0 then start + timeout else start;
      && start <= w.at <= deadline
      && (forall t :: start <= t < w.at ==> !By(over, t) && !By(interrupt, t))
      && (w.how == TaskDone ==> By(over, w.at))
      && (w.how == Interrupted ==> By(interrupt, w.at) && !(over.Some? && over.value <= interrupt.value))
      && (w.how == TimedOut ==> w.at == deadline && !By(over, deadline) && !By(interrupt, deadline))
  {
  }

  /** cancel_within gives control back within the grace, whatever the task does: as soon as the
      task is over or the caller is cancelled, and not before. */
  lemma CancelComesBack(start: real, task: Task, interrupt: Option<real>)
    ensures var w := CancelWake(start, task, interrupt);
      && start <= w.at <= start + CANCEL_GRACE as real
      && (forall t :: start <= t < w.at ==> !By(OverAt(task, start), t) && !By(interrupt, t))
      && (w.at < start + CANCEL_GRACE as real ==> By(OverAt(task, start), w.at) || By(interrupt, w.at))
  {
    WaitIsFirst(start, CANCEL_GRACE as real, OverAt(task, start), interrupt);
  }

  /** await_within gives control back within the timeout plus the cancel grace, whatever the
      task does and whenever the caller is cancelled. It returns normally if and only if the
      task finishes within the timeout and the caller is not cancelled before, and then as soon
      as the task has finished; it reports a deadline if and only if neither happens in time. */
  lemma ControlComesBack(start: real, timeout: real, phase: Phase)
    ensures var r := AwaitEnd(start, timeout, phase);
      var deadline := if timeout > 0.0 then start + timeout else start;
      var finish, interrupt := phase.task.finishAt, phase.interrupt;
      && start <= r.at <= deadline + CANCEL_GRACE as real
      && (r.outcome == Returned <==>
          By(finish, deadline) && !(interrupt.Some? && interrupt.value < finish.value))
      && (r.outcome == Returned ==> r.at == if finish.value < start then start else finish.value)
      && (r.outcome == DeadlineExceeded <==> !By(finish, deadline) && !By(interrupt, deadline))
      && (r.outcome == DeadlineExceeded ==> deadline <= r.at)
  {
    var w := Wait(start, timeout, phase.task.finishAt, phase.interrupt);
    WaitIsFirst(start, timeout, phase.task.finishAt, phase.interrupt);
    CancelComesBack(w.at, phase.task, phase.interruptAgain);
  }

  /** The seconds in a lifetime and in the longest use, with the default timeout of ten minutes. */
  lemma LifetimeInSeconds(timeout: real)
    ensures StepLifetime(Some(timeout)) == 625 + Ceil(timeout) && StepLifetime(None) == 1225
    ensures timeout >= 0.0 ==> WorstUse(Some(timeout)) == 490.0 + timeout
  {
    CeilOfInt(600);
  }

  /** The two bounded waits as functions. */
  datatype Waits = Waits(await: (real, real, Phase) -> Back, cancel: (real, Task, Option<real>) -> Wake)

  /** As they are enforced. */
  function Enforced(): Waits {
    Waits((s, t, p) => AwaitEnd(s, t, p), (s, t, i) => CancelWake(s, t, i))
  }

  ghost predicate AsEnforced(k: Waits) {
    && (forall s, t, p {:trigger AwaitEnd(s, t, p)} :: k.await(s, t, p) == AwaitEnd(s, t, p))
    && (forall s, t, i {:trigger CancelWake(s, t, i)} :: k.cancel(s, t, i) == CancelWake(s, t, i))
  }

  /** What a step counts on: control comes back within the deadline plus the grace, and within
      the deadline if the wait returns normally. */
  ghost predicate Prompt(k: Waits) {
    && (forall s, t, p :: s <= k.await(s, t, p).at <= s + Max(0.0, t) + CANCEL_GRACE as real)
    && (forall s, t, p :: k.await(s, t, p).outcome == Returned ==> k.await(s, t, p).at <= s + Max(0.0, t))
    && (forall s, t, i :: s <= k.cancel(s, t, i).at <= s + CANCEL_GRACE as real)
  }

  lemma EnforcedIsPrompt()
    ensures Prompt(Enforced())
  {
    forall s, t, p
      ensures s <= AwaitEnd(s, t, p).at <= s + Max(0.0, t) + CANCEL_GRACE as real
      ensures AwaitEnd(s, t, p).outcome == Returned ==> AwaitEnd(s, t, p).at <= s + Max(0.0, t)
    {
      ControlComesBack(s, t, p);
    }
    forall s, t, i
      ensures s <= CancelWake(s, t, i).at <= s + CANCEL_GRACE as real
    {
      CancelComesBack(s, t, i);
    }
  }

  /** The wait ends as interrupted when the caller itself is cancelled; then it raises. */
  method CancelWithin(
      ghost k: Waits, start: real, task: Task, interrupt: Option<real>)
      returns (wake: Wake, abandoned: bool)
    requires AsEnforced(k)
    ensures wake == k.cancel(start, task, interrupt)
    ensures abandoned <==> !By(OverAt(task, start), wake.at)
  {
    assert k.cancel(start, task, interrupt) == CancelWake(start, task, interrupt);
    var over := OverAt(task, start);
    wake := Wait(start, CANCEL_GRACE as real, over, interrupt);
    abandoned := !By(over, wake.at);
  }

  method AwaitWithin(ghost k: Waits, start: real, timeout: real, phase: Phase) returns (back: Back)
    requires AsEnforced(k)
    ensures back == k.await(start, timeout, phase)
  {
    assert k.await(start, timeout, phase) == AwaitEnd(start, timeout, phase);
    var r := Wait(start, timeout, phase.task.finishAt, phase.interrupt);
    if r.how == TaskDone {
      return Back(r.at, Returned);
    }
    assert k.cancel(r.at, phase.task, phase.interruptAgain) == CancelWake(r.at, phase.task, phase.interruptAgain);
    var wake, abandoned := CancelWithin(k, r.at, phase.task, phase.interruptAgain);
    return Back(wake.at, if r.how == Interrupted then CallerCancelled else DeadlineExceeded);
  }

  // ---------------------------------------------------------------- a step's use of its sandbox

  /** Everything that can happen in one step attempt: in-process work before each phase
      (gaps), the phases themselves, whether the run call or its answer fails the step, and
      whether there is a progress stream and a transcript to save. */
  datatype Attempt = Attempt(
    gapSpawn: real, spawn: Phase,
    gapRun: real, run: Phase, runFails: bool,
    progress: Option<Task>, progressInterrupt: Option<real>,
    gapFetch: real, fetch: Phase,
    gapSave: real, save: Option<Phase>)

  /** Gaps take time, and the one before the spawn starts fits in the spawn budget. */
  predicate Forward(a: Attempt) {
    0.0 <= a.gapSpawn <= SPAWN_DEADLINE as real && a.gapRun >= 0.0 && a.gapFetch >= 0.0 && a.gapSave >= 0.0
  }

  /** The in-process work that no deadline covers. */
  function Gaps(a: Attempt): real {
    a.gapRun + a.gapFetch + a.gapSave
  }

  /** The last use of the sandbox, from the stamp on: each phase starts after its gap, and
      every early exit skips the later ones. */
  function LastUse(k: Waits, stamp: real, configured: Option<real>, a: Attempt): real {
    AfterSpawn(k, k.await(stamp + a.gapSpawn, SPAWN_DEADLINE as real - a.gapSpawn, a.spawn), configured, a)
  }

  function AfterSpawn(k: Waits, spawn: Back, configured: Option<real>, a: Attempt): real {
    if spawn.outcome == Returned then AfterRun(k, k.await(spawn.at + a.gapRun, RunTimeout(configured), a.run), a)
    else spawn.at
  }

  /** The progress stream is stopped whatever the run call did; a caller that is cancelled
      meanwhile goes no further. */
  function AfterRun(k: Waits, run: Back, a: Attempt): real {
    var stopped :=
      if a.progress.Some? then k.cancel(run.at, a.progress.value, a.progressInterrupt)
      else Wake(run.at, TaskDone);
    AfterProgress(k, run, stopped, a)
  }

  function AfterProgress(k: Waits, run: Back, stopped: Wake, a: Attempt): real {
    if run.outcome == Returned && stopped.how != Interrupted && !a.runFails
    then AfterFetch(k, k.await(stopped.at + a.gapFetch, TRANSCRIPT_TIMEOUT as real, a.fetch), a)
    else stopped.at
  }

  /** A fetch that times out yields an empty transcript, and nothing is saved. */
  function AfterFetch(k: Waits, fetch: Back, a: Attempt): real {
    if fetch.outcome != Returned || a.save.None? then fetch.at
    else k.await(fetch.at + a.gapSave, SAVE_TIMEOUT as real, a.save.value).at
  }

  /** The phases in the order the step runner awaits them: spawn, run and the progress
      stream's cleanup, transcript fetch, transcript save. */
  method UseSandbox(ghost k: Waits, stamp: real, configured: Option<real>, a: Attempt) returns (lastUse: real)
    requires AsEnforced(k)
    ensures lastUse == LastUse(k, stamp, configured, a)
  {
    var spawn := AwaitWithin(k, stamp + a.gapSpawn, SPAWN_DEADLINE as real - a.gapSpawn, a.spawn);
    lastUse := FinishSpawn(k, spawn, configured, a);
  }

  method FinishSpawn(ghost k: Waits, spawn: Back, configured: Option<real>, a: Attempt) returns (lastUse: real)
    requires AsEnforced(k)
    ensures lastUse == AfterSpawn(k, spawn, configured, a)
  {
    if spawn.outcome != Returned {
      return spawn.at;
    }
    var run := AwaitWithin(k, spawn.at + a.gapRun, RunTimeout(configured), a.run);
    lastUse := FinishRun(k, run, a);
  }

  method FinishRun(ghost k: Waits, run: Back, a: Attempt) returns (lastUse: real)
    requires AsEnforced(k)
    ensures lastUse == AfterRun(k, run, a)
  {
    var stopped := Wake(run.at, TaskDone);
    if a.progress.Some? {
      var abandoned;
      stopped, abandoned := CancelWithin(k, run.at, a.progress.value, a.progressInterrupt);
    }
    lastUse := FinishProgress(k, run, stopped, a);
  }

  method FinishProgress(ghost k: Waits, run: Back, stopped: Wake, a: Attempt) returns (lastUse: real)
    requires AsEnforced(k)
    ensures lastUse == AfterProgress(k, run, stopped, a)
  {
    if run.outcome != Returned || stopped.how == Interrupted || a.runFails {
      return stopped.at;
    }
    var fetch := AwaitWithin(k, stopped.at + a.gapFetch, TRANSCRIPT_TIMEOUT as real, a.fetch);
    lastUse := FinishFetch(k, fetch, a);
  }

  method FinishFetch(ghost k: Waits, fetch: Back, a: Attempt) returns (lastUse: real)
    requires AsEnforced(k)
    ensures lastUse == AfterFetch(k, fetch, a)
  {
    if fetch.outcome != Returned || a.save.None? {
      return fetch.at;
    }
    var save := AwaitWithin(k, fetch.at + a.gapSave, SAVE_TIMEOUT as real, a.save.value);
    return save.at;
  }

  /** The longest a sandbox is used, gaps aside: a phase that is followed by another one has
      not needed its cancel grace, so only the progress stream's cleanup and the last phase
      can add theirs. */
  function WorstUse(configured: Option<real>): real {
    (SPAWN_DEADLINE + TRANSCRIPT_TIMEOUT + SAVE_TIMEOUT + 2 * CANCEL_GRACE) as real
    + Max(0.0, RunTimeout(configured))
  }

  /** However tasks behave and whenever the step is cancelled, the last use is bounded. */
  lemma UseIsBounded(k: Waits, stamp: real, configured: Option<real>, a: Attempt)
    requires Prompt(k) && Forward(a)
    ensures stamp <= LastUse(k, stamp, configured, a) <= stamp + WorstUse(configured) + Gaps(a)
  {
    var spawn := k.await(stamp + a.gapSpawn, SPAWN_DEADLINE as real - a.gapSpawn, a.spawn);
    SpawnIsBounded(k, spawn, configured, a);
  }

  lemma SpawnIsBounded(k: Waits, spawn: Back, configured: Option<real>, a: Attempt)
    requires Prompt(k) && Forward(a)
    ensures spawn.at <= AfterSpawn(k, spawn, configured, a)
    ensures if spawn.outcome != Returned then AfterSpawn(k, spawn, configured, a) == spawn.at
            else AfterSpawn(k, spawn, configured, a) <=
                 spawn.at + WorstUse(configured) - SPAWN_DEADLINE as real + Gaps(a)
  {
    var run := k.await(spawn.at + a.gapRun, RunTimeout(configured), a.run);
    RunIsBounded(k, run, a);
  }

  lemma RunIsBounded(k: Waits, run: Back, a: Attempt)
    requires Prompt(k) && Forward(a)
    ensures run.at <= AfterRun(k, run, a)
    ensures AfterRun(k, run, a) <= run.at + CANCEL_GRACE as real ||
            (run.outcome == Returned &&
             AfterRun(k, run, a) <=
               run.at + (TRANSCRIPT_TIMEOUT + SAVE_TIMEOUT + 2 * CANCEL_GRACE) as real + a.gapFetch + a.gapSave)
  {
  }

  const STUBBORN := Phase(Task(None, None), None, None)

  function Finishing(t: real): Phase {
    Phase(Task(Some(t), None), None, None)
  }

  /** ... and the bound is reached: spawn, run and fetch return at the last moment, and the
      progress stream and the save ignore their cancellation. */
  lemma BoundIsReached(stamp: real, configured: Option<real>, gaps: real) returns (a: Attempt)
    requires gaps >= 0.0
    ensures Forward(a) && Gaps(a) == gaps
    ensures LastUse(Enforced(), stamp, configured, a) == stamp + WorstUse(configured) + gaps
  {
    var spawned := stamp + SPAWN_DEADLINE as real;
    var ran := spawned + gaps + Max(0.0, RunTimeout(configured));
    var stopped := ran + CANCEL_GRACE as real;
    var fetched := stopped + TRANSCRIPT_TIMEOUT as real;
    a := Attempt(0.0, Finishing(spawned), gaps, Finishing(ran), false,
                 Some(STUBBORN.task), None, 0.0, Finishing(fetched), 0.0, Some(STUBBORN));
    assert AwaitEnd(stamp, SPAWN_DEADLINE as real, a.spawn) == Back(spawned, Returned);
    assert AwaitEnd(spawned + gaps, RunTimeout(configured), a.run) == Back(ran, Returned);
    assert CancelWake(ran, STUBBORN.task, None) == Wake(stopped, TimedOut);
    assert AwaitEnd(stopped, TRANSCRIPT_TIMEOUT as real, a.fetch) == Back(fetched, Returned);
  }

  // ---------------------------------------------------------------- the label against the reaper

  lemma CeilBounds(x: real)
    ensures x <= Ceil(x) as real < x + 1.0
  {
  }

  lemma CeilOfInt(n: int)
    ensures Ceil(n as real) == n
  {
  }

  /** The stamped lifetime covers the longest use with this much in-process work. */
  predicate Covers(configured: Option<real>, minLifetime: nat, gaps: real) {
    var lifetime := StepLifetime(configured);
    (if lifetime < minLifetime then minLifetime else lifetime) as real >= WorstUse(configured) + gaps
  }

  /** ... stamped when the spawner's clock reads `stamped`, which is rounded up. */
  predicate CoversFrom(stamped: real, configured: Option<real>, minLifetime: nat, gaps: real) {
    ExpiresAt(stamped, StepLifetime(configured), minLifetime, 0) as real >= stamped + WorstUse(configured) + gaps
  }

  /** Covered at every clock reading is covered without the rounding. */
  lemma CoversIff(configured: Option<real>, minLifetime: nat, gaps: real)
    ensures (forall stamped :: CoversFrom(stamped, configured, minLifetime, gaps))
       <==> Covers(configured, minLifetime, gaps)
  {
    forall stamped: real {
      CeilBounds(stamped);
    }
    CeilOfInt(0);
    assert CoversFrom(0.0, configured, minLifetime, gaps) ==> Covers(configured, minLifetime, gaps);
  }

  /** Without a floor on lifetimes, the in-process work that is covered: 135 seconds and what
      rounding the timeout up adds; a negative timeout is taken from it. */
  lemma MarginIff(configured: Option<real>, gaps: real)
    requires gaps >= 0.0
    ensures var t := RunTimeout(configured);
      Covers(configured, 0, gaps) <==> gaps <= 135.0 + Ceil(t) as real - Max(0.0, t)
  {
  }

  /** What the documentation counts on: a non-negative timeout, and gaps within the grace. */
  lemma DocumentedMarginCovers(configured: Option<real>, minLifetime: nat, gaps: real)
    requires RunTimeout(configured) >= 0.0 && gaps <= DESTROY_GRACE as real
    ensures Covers(configured, minLifetime, gaps)
  {
    CeilBounds(RunTimeout(configured));
  }

  /** No reaper whose clock is at most `skew` ahead of the spawner's acts before `lastUse`. */
  ghost predicate NeverReapedBefore(expiresAt: int, spawnerOffset: real, skew: nat, lastUse: real) {
    forall reaperOffset, t ::
      reaperOffset - spawnerOffset <= skew as real && ReapsAt(expiresAt, reaperOffset, t) ==> t > lastUse
  }

  /** Expiry safety: if the label covers the use, no reaper that waits for the
      label can act before the step's last use of the sandbox. */
  lemma ReaperComesLater(
      stamp: real, configured: Option<real>, a: Attempt, minLifetime: nat, skew: nat, spawnerOffset: real)
    requires Forward(a) && CoversFrom(stamp + spawnerOffset, configured, minLifetime, Gaps(a))
    ensures NeverReapedBefore(ExpiresAt(stamp + spawnerOffset, StepLifetime(configured), minLifetime, skew),
                              spawnerOffset, skew, LastUse(Enforced(), stamp, configured, a))
  {
    EnforcedIsPrompt();
    UseIsBounded(Enforced(), stamp, configured, a);
  }

  /** ... and only if: at every stamp, no attempt with these gaps can lose its sandbox early
      exactly if the label covers the longest use. */
  lemma SafeIffCovers(
      stamp: real, configured: Option<real>, minLifetime: nat, skew: nat, spawnerOffset: real, gaps: real)
    requires gaps >= 0.0
    ensures (forall a :: Forward(a) && Gaps(a) == gaps ==>
               NeverReapedBefore(ExpiresAt(stamp + spawnerOffset, StepLifetime(configured), minLifetime, skew),
                                 spawnerOffset, skew, LastUse(Enforced(), stamp, configured, a)))
            <==> CoversFrom(stamp + spawnerOffset, configured, minLifetime, gaps)
  {
    var expiresAt := ExpiresAt(stamp + spawnerOffset, StepLifetime(configured), minLifetime, skew);
    if CoversFrom(stamp + spawnerOffset, configured, minLifetime, gaps) {
      forall a | Forward(a) && Gaps(a) == gaps
        ensures NeverReapedBefore(expiresAt, spawnerOffset, skew, LastUse(Enforced(), stamp, configured, a))
      {
        ReaperComesLater(stamp, configured, a, minLifetime, skew, spawnerOffset);
      }
    } else {
      var a := BoundIsReached(stamp, configured, gaps);
      assert ReapsAt(expiresAt, spawnerOffset + skew as real, LastUse(Enforced(), stamp, configured, a));
      assert !NeverReapedBefore(expiresAt, spawnerOffset, skew, LastUse(Enforced(), stamp, configured, a));
    }
  }

  /** step_sandbox_lifetime_seconds on its own: a negative run timeout would be subtracted from
      the lifetime although no phase gets shorter. Definitions are validated to have none. */
  lemma NegativeTimeoutIsNotCovered(timeout: real, gaps: real)
    requires timeout <= -136.0 && gaps >= 0.0
    ensures !Covers(Some(timeout), 0, gaps)
  {
    CeilBounds(timeout);
  }

  method RunStep(stamp: real, configured: Option<real>, a: Attempt, minLifetime: nat, skew: nat, spawnerOffset: real)
    returns (expiresAt: int, lastUse: real)
    requires Forward(a) && RunTimeout(configured) >= 0.0 && Gaps(a) <= DESTROY_GRACE as real
    ensures expiresAt == ExpiresAt(stamp + spawnerOffset, StepLifetime(configured), minLifetime, skew)
    ensures lastUse == LastUse(Enforced(), stamp, configured, a)
    ensures NeverReapedBefore(expiresAt, spawnerOffset, skew, lastUse)
  {
    DocumentedMarginCovers(configured, minLifetime, Gaps(a));
    CoversIff(configured, minLifetime, Gaps(a));
    ReaperComesLater(stamp, configured, a, minLifetime, skew, spawnerOffset);
    expiresAt := ExpiresAt(stamp + spawnerOffset, StepLifetime(configured), minLifetime, skew);
    lastUse := UseSandbox(Enforced(), stamp, configured, a);
  }
}
