/**
 The concurrency cap of `AgentSpawner`: a counter that spawn raises and destroy lowers,
 each in one critical section. Between its two sections a spawn is in flight; calls of
 different tasks interleave freely.
 */
module Slots {
  /** The counter, its cap, and (not stored by the program) the spawns in flight and the
      sandboxes spawned and not yet released. */
  datatype State = State(active: int, maxPods: int, inFlight: set<nat>, live: set<nat>)

  datatype Action =
    | Acquire(id: nat)    // spawn's first section: refuse, or take a slot
    | Spawned(id: nat)    // _do_spawn returned
    | Failed(id: nat)     // _do_spawn raised or was cancelled: the slot is given back
    | Destroyed(id: nat)  // destroy's section, after _do_destroy

  function Initial(maxPods: int): State {
    State(0, maxPods, {}, {})
  }

  predicate Refused(s: State) {
    s.active >= s.maxPods
  }

  function Next(s: State, a: Action): State {
    match a
    case Acquire(id) =>
      if Refused(s) then s else s.(active := s.active + 1, inFlight := s.inFlight + {id})
    case Spawned(id) =>
      s.(inFlight := s.inFlight - {id}, live := s.live + {id})
    case Failed(id) =>
      s.(active := s.active - 1, inFlight := s.inFlight - {id})
    case Destroyed(id) =>
      s.(active := if s.active - 1 < 0 then 0 else s.active - 1, live := s.live - {id})
  }

  /** An action the program can take: a spawn uses a new id and ends once. */
  predicate Possible(s: State, a: Action) {
    match a
    case Acquire(id) => id !in s.inFlight && id !in s.live
    case Spawned(id) => id in s.inFlight
    case Failed(id) => id in s.inFlight
    case Destroyed(_) => true
  }

  /** ... and destroy follows a successful spawn, once. */
  predicate Paired(s: State, a: Action) {
    Possible(s, a) && (a.Destroyed? ==> a.id in s.live)
  }

  function After(s: State, actions: seq<Action>): State
    decreases |actions|
  {
    if actions == [] then s else After(Next(s, actions[0]), actions[1..])
  }

  predicate AllPossible(s: State, actions: seq<Action>)
    decreases |actions|
  {
    actions == [] || (Possible(s, actions[0]) && AllPossible(Next(s, actions[0]), actions[1..]))
  }

  predicate AllPaired(s: State, actions: seq<Action>)
    decreases |actions|
  {
    actions == [] || (Paired(s, actions[0]) && AllPaired(Next(s, actions[0]), actions[1..]))
  }

  /** The counter never exceeds the cap, over every interleaving, paired or not. */
  lemma {:induction false} CounterStaysUnderCap(s: State, actions: seq<Action>)
    requires s.active <= s.maxPods && 0 <= s.maxPods
    ensures After(s, actions).active <= s.maxPods && After(s, actions).maxPods == s.maxPods
    decreases |actions|
  {
    if actions != [] {
      CounterStaysUnderCap(Next(s, actions[0]), actions[1..]);
    }
  }

  /** The counter is exact: spawns in flight and sandboxes not yet released. */
  predicate Exact(s: State) {
    s.active == |s.inFlight| + |s.live| && s.inFlight !! s.live
  }

  /** When destroy follows each successful spawn exactly once, the counter is exact in every
      interleaving, so the clamp at zero never fires and the cap bounds the sandboxes. */
  lemma {:induction false} PairedCounterIsExact(s: State, actions: seq<Action>)
    requires Exact(s) && AllPaired(s, actions) && s.active <= s.maxPods
    ensures Exact(After(s, actions))
    ensures |After(s, actions).inFlight| + |After(s, actions).live| <= s.maxPods
    decreases |actions|
  {
    if actions != [] {
      var a := actions[0];
      if a.Spawned? {
        assert s.live + {a.id} - {a.id} == s.live;
      }
      PairedCounterIsExact(Next(s, a), actions[1..]);
    }
  }

  /** The clamp never fires at a paired destroy. */
  lemma ClampNeverFires(s: State, id: nat)
    requires Exact(s) && Paired(s, Destroyed(id))
    ensures Next(s, Destroyed(id)).active == s.active - 1
  {
    assert |s.live| >= 1 by {
      assert s.live == s.live - {id} + {id};
    }
  }

  /** A destroy that leaves the counter right: it releases a sandbox, or finds the counter at
      zero and is absorbed by the clamp. */
  predicate Harmless(s: State, a: Action) {
    a.Destroyed? ==> a.id in s.live || s.active == 0
  }

  predicate AllHarmless(s: State, actions: seq<Action>)
    decreases |actions|
  {
    actions == [] || (Harmless(s, actions[0]) && AllHarmless(Next(s, actions[0]), actions[1..]))
  }

  /** The counter is exact after every prefix. */
  predicate AlwaysExact(s: State, actions: seq<Action>)
    decreases |actions|
  {
    Exact(s) && (actions == [] || AlwaysExact(Next(s, actions[0]), actions[1..]))
  }

  lemma ExactDestroyIff(s: State, id: nat)
    requires Exact(s)
    ensures Exact(Next(s, Destroyed(id))) <==> Harmless(s, Destroyed(id))
  {
    if id in s.live {
      assert s.live == s.live - {id} + {id};
    } else {
      assert s.live - {id} == s.live;
    }
  }

  lemma ExactStepIff(s: State, a: Action)
    requires Exact(s) && Possible(s, a)
    ensures Exact(Next(s, a)) <==> Harmless(s, a)
  {
    if a.Destroyed? {
      ExactDestroyIff(s, a.id);
    } else if a.Spawned? {
      assert s.live + {a.id} - {a.id} == s.live;
    }
  }

  /** Over every interleaving, paired or not, the counter stays exact if and only if every
      destroy is harmless. */
  lemma {:induction false} ExactIff(s: State, actions: seq<Action>)
    requires Exact(s) && AllPossible(s, actions)
    ensures AlwaysExact(s, actions) <==> AllHarmless(s, actions)
    decreases |actions|
  {
    if actions != [] {
      ExactStepIff(s, actions[0]);
      if Harmless(s, actions[0]) {
        ExactIff(Next(s, actions[0]), actions[1..]);
      }
    }
  }

  lemma {:induction false} FreshId(used: set<nat>) returns (id: nat)
    ensures forall x :: x in used ==> x < id
    decreases |used|
  {
    id := 0;
    if used != {} {
      var x: nat :| x in used;
      id := FreshId(used - {x});
      id := if x < id then id else x + 1;
      assert forall y :: y in used ==> y == x || y in used - {x};
    }
  }

  /** A counter below the truth breaks the cap: spawns alone then lead past it. */
  lemma {:induction false} UndercountBreaksCap(s: State) returns (actions: seq<Action>)
    requires s.active < |s.inFlight| + |s.live| && s.inFlight !! s.live && s.active <= s.maxPods
    ensures AllPossible(s, actions)
    ensures |After(s, actions).inFlight| + |After(s, actions).live| > s.maxPods
    decreases s.maxPods - s.active
  {
    actions := [];
    if !Refused(s) {
      var id := FreshId(s.inFlight + s.live);
      var next := Next(s, Acquire(id));
      assert id !in s.inFlight && id !in s.live;
      var rest := UndercountBreaksCap(next);
      actions := [Acquire(id)] + rest;
      assert actions[1..] == rest;
    }
  }

  /** A destroy after a refused spawn, as the local step runner's cleanup makes it, lowers the
      counter below the truth: the cap then admits one sandbox too many. */
  lemma StrayDestroyBreaksCap()
    ensures var actions := [Acquire(0), Spawned(0), Acquire(1), Destroyed(1), Acquire(2)];
      && AllPossible(Initial(1), actions)
      && var s := After(Initial(1), actions);
         s.active == 1 && |s.inFlight| + |s.live| == 2
  {
    var s0 := Initial(1);
    var s1 := Next(s0, Acquire(0));
    var s2 := Next(s1, Spawned(0));
    var s3 := Next(s2, Acquire(1));
    var s4 := Next(s3, Destroyed(1));
    var s5 := Next(s4, Acquire(2));
    assert s1 == State(1, 1, {0}, {});
    assert s2 == State(1, 1, {}, {0}) && s3 == s2;
    assert s4 == State(0, 1, {}, {0});
    assert s5 == State(1, 1, {2}, {0});
    var actions := [Acquire(0), Spawned(0), Acquire(1), Destroyed(1), Acquire(2)];
    assert actions[1..] == [Spawned(0), Acquire(1), Destroyed(1), Acquire(2)];
    assert actions[1..][1..] == [Acquire(1), Destroyed(1), Acquire(2)];
    assert actions[1..][1..][1..] == [Destroyed(1), Acquire(2)];
    assert actions[1..][1..][1..][1..] == [Acquire(2)];
    assert actions[1..][1..][1..][1..][1..] == [];
    assert After(s4, [Acquire(2)]) == s5 && AllPossible(s4, [Acquire(2)]);
    assert After(s3, [Destroyed(1), Acquire(2)]) == s5 && AllPossible(s3, [Destroyed(1), Acquire(2)]);
    assert After(s2, actions[1..][1..]) == s5 && AllPossible(s2, actions[1..][1..]);
    assert After(s1, actions[1..]) == s5 && AllPossible(s1, actions[1..]);
  }

  /** The spawner's critical sections. */
  class AgentSpawner {
    var activeCount: int
    const maxPods: int
    ghost var state: State

    constructor (maxPods: int)
      ensures Valid() && state == Initial(maxPods) && this.maxPods == maxPods
    {
      activeCount := 0;
      this.maxPods := maxPods;
      state := Initial(maxPods);
    }

    ghost predicate Valid()
      reads this
    {
      state.active == activeCount && state.maxPods == maxPods
    }

    method Acquire(ghost id: nat) returns (ok: bool)
      requires Valid()
      modifies this
      ensures Valid() && state == Next(old(state), Action.Acquire(id)) && ok == !Refused(old(state))
    {
      state := Next(state, Action.Acquire(id));
      if activeCount >= maxPods {
        return false;
      }
      activeCount := activeCount + 1;
      return true;
    }

    method ReleaseAfterFailure(ghost id: nat)
      requires Valid()
      modifies this
      ensures Valid() && state == Next(old(state), Failed(id))
    {
      activeCount := activeCount - 1;
      state := Next(state, Failed(id));
    }

    method ReleaseAfterDestroy(ghost id: nat)
      requires Valid()
      modifies this
      ensures Valid() && state == Next(old(state), Destroyed(id))
    {
      activeCount := if activeCount - 1 < 0 then 0 else activeCount - 1;
      state := Next(state, Destroyed(id));
    }
  }
}
