/**
 Parallel groups. Contiguous steps of one group become one unit that runs concurrently,
 unless one of them refers to another; the chunked run must mean what running the steps
 one by one means.
 */
module Chunking {
  import opened Prelude

  /** A step as chunking sees it: its group ("" for none) and the step names its prompt and
      condition refer to. */
  datatype Step = Step(name: string, outputKey: string, group: string, refs: set<string>)

  datatype Chunk = Chunk(group: Option<string>, members: seq<Step>)

  /** The identifiers by which the members can be referred to. */
  function Identifiers(members: seq<Step>): set<string> {
    (set m | m in members && m.name != "" :: m.name) + (set m | m in members && m.outputKey != "" :: m.outputKey)
  }

  predicate DependsInside(members: seq<Step>) {
    exists i :: 0 <= i < |members| && members[i].refs * Identifiers(members) != {}
  }

  /** The step's prompt or condition refers to the other by name or by output key. */
  predicate RefersTo(step: Step, other: Step) {
    || (other.name != "" && other.name in step.refs)
    || (other.outputKey != "" && other.outputKey in step.refs)
  }

  /** Some step among them refers to one of them. */
  predicate Entangled(members: seq<Step>) {
    exists i, j :: 0 <= i < |members| && 0 <= j < |members| && RefersTo(members[i], members[j])
  }

  /** The reference test, which goes through the identifiers, tells exactly this. */
  lemma DependsInsideIff(members: seq<Step>)
    ensures DependsInside(members) <==> Entangled(members)
  {
    if DependsInside(members) {
      var i :| 0 <= i < |members| && members[i].refs * Identifiers(members) != {};
      var id :| id in members[i].refs * Identifiers(members);
      IdentifiersIff(members, id);
      var j :| 0 <= j < |members| && id != "" && (members[j].name == id || members[j].outputKey == id);
      assert RefersTo(members[i], members[j]);
    }
    if i, j :| 0 <= i < |members| && 0 <= j < |members| && RefersTo(members[i], members[j]) {
      var other := members[j];
      var id := if other.name != "" && other.name in members[i].refs then other.name else other.outputKey;
      IdentifiersIff(members, id);
      assert id in members[i].refs * Identifiers(members);
    }
  }

  lemma IdentifiersIff(members: seq<Step>, id: string)
    ensures id in Identifiers(members) <==>
      exists j :: 0 <= j < |members| && id != "" && (members[j].name == id || members[j].outputKey == id)
  {
    if j :| 0 <= j < |members| && id != "" && (members[j].name == id || members[j].outputKey == id) {
      assert members[j] in members;
    }
  }

  function Singles(members: seq<Step>): seq<Chunk> {
    seq(|members|, i requires 0 <= i < |members| => Chunk(None, [members[i]]))
  }

  /** Where the run of steps[i]'s group that starts at i ends, looking from j on. */
  function RunEnd(steps: seq<Step>, i: nat, j: nat): (e: nat)
    requires i < j <= |steps|
    requires forall k :: i <= k < j ==> steps[k].group == steps[i].group
    ensures j <= e <= |steps|
    ensures forall k :: i <= k < e ==> steps[k].group == steps[i].group
    ensures e < |steps| ==> steps[e].group != steps[i].group
    decreases |steps| - j
  {
    if j < |steps| && steps[j].group == steps[i].group then RunEnd(steps, i, j + 1) else j
  }

  /** The chunks that the run starting at i becomes, and where it ends. */
  function Unit(steps: seq<Step>, i: nat): (u: (seq<Chunk>, nat))
    requires i < |steps|
    ensures i < u.1 <= |steps|
  {
    if steps[i].group == "" then ([Chunk(None, [steps[i]])], i + 1)
    else
      var e := RunEnd(steps, i, i + 1);
      (ChunksOfRun(steps[i].group, steps[i..e]), e)
  }

  function ChunksOfRun(group: string, members: seq<Step>): seq<Chunk> {
    if DependsInside(members) then Singles(members) else [Chunk(Some(group), members)]
  }

  function ChunksFrom(steps: seq<Step>, i: nat): seq<Chunk>
    requires i <= |steps|
    decreases |steps| - i
  {
    if i == |steps| then [] else Unit(steps, i).0 + ChunksFrom(steps, Unit(steps, i).1)
  }

  /** The inner loop of chunk_parallel_groups: collect a run of one group. */
  method TakeRun(steps: seq<Step>, start: nat) returns (members: seq<Step>, index: nat)
    requires start < |steps| && steps[start].group != ""
    ensures index == RunEnd(steps, start, start + 1) && members == steps[start..index]
  {
    var group := steps[start].group;
    members, index := [], start;
    while index < |steps| && steps[index].group == group
      invariant start <= index <= |steps| && members == steps[start..index]
      invariant forall k :: start <= k < index ==> steps[k].group == group
    {
      members := members + [steps[index]];
      index := index + 1;
    }
  }

  /** chunk_parallel_groups. */
  method ChunkParallelGroups(steps: seq<Step>) returns (chunks: seq<Chunk>)
    ensures chunks == ChunksFrom(steps, 0)
  {
    chunks := [];
    var index := 0;
    while index < |steps|
      invariant 0 <= index <= |steps|
      invariant chunks + ChunksFrom(steps, index) == ChunksFrom(steps, 0)
    {
      ghost var before, start := chunks, index;
      if steps[index].group != "" {
        var group := steps[index].group;
        var members;
        members, index := TakeRun(steps, index);
        if DependsInside(members) {
          chunks := chunks + Singles(members);
        } else {
          chunks := chunks + [Chunk(Some(group), members)];
        }
      } else {
        chunks := chunks + [Chunk(None, [steps[index]])];
        index := index + 1;
      }
      assert chunks == before + Unit(steps, start).0 && index == Unit(steps, start).1;
      OneUnit(steps, start, before);
    }
  }

  lemma OneUnit(steps: seq<Step>, i: nat, before: seq<Chunk>)
    requires i < |steps|
    ensures before + ChunksFrom(steps, i) == before + Unit(steps, i).0 + ChunksFrom(steps, Unit(steps, i).1)
  {
  }

  // ---------------------------------------------------------------- shape

  function Flatten(chunks: seq<Chunk>): seq<Step> {
    if chunks == [] then [] else chunks[0].members + Flatten(chunks[1..])
  }

  lemma {:induction false} FlattenConcat(a: seq<Chunk>, b: seq<Chunk>)
    ensures Flatten(a + b) == Flatten(a) + Flatten(b)
  {
    if a == [] {
      assert a + b == b;
    } else {
      assert (a + b)[1..] == a[1..] + b;
      FlattenConcat(a[1..], b);
    }
  }

  lemma SinglesCons(members: seq<Step>)
    requires members != []
    ensures Singles(members) == [Chunk(None, [members[0]])] + Singles(members[1..])
  {
  }

  lemma {:induction false} FlattenSingles(members: seq<Step>)
    ensures Flatten(Singles(members)) == members
  {
    if members != [] {
      SinglesCons(members);
      assert Singles(members)[1..] == Singles(members[1..]);
      FlattenSingles(members[1..]);
    }
  }

  lemma UnitFlattens(steps: seq<Step>, i: nat)
    requires i < |steps|
    ensures Flatten(Unit(steps, i).0) == steps[i..Unit(steps, i).1]
  {
    var (unit, e) := Unit(steps, i);
    if |unit| == 1 {
      assert unit[1..] == [];
    }
    FlattenSingles(steps[i..e]);
  }

  lemma Rejoin(steps: seq<Step>, i: nat, e: nat)
    requires i <= e <= |steps|
    ensures steps[i..e] + steps[e..] == steps[i..]
  {
  }

  /** Chunking loses, adds and reorders nothing. */
  lemma {:induction false} FlattenGivesSteps(steps: seq<Step>, i: nat)
    requires i <= |steps|
    ensures Flatten(ChunksFrom(steps, i)) == steps[i..]
    decreases |steps| - i
  {
    if i < |steps| {
      var (unit, e) := Unit(steps, i);
      UnitFlattens(steps, i);
      FlattenConcat(unit, ChunksFrom(steps, e));
      FlattenGivesSteps(steps, e);
      Rejoin(steps, i, e);
    }
  }

  /** steps[lo..hi] is a whole maximal run of one group. */
  predicate MaximalRun(steps: seq<Step>, lo: nat, hi: nat) {
    && lo < hi <= |steps| && steps[lo].group != ""
    && (forall k :: lo <= k < hi ==> steps[k].group == steps[lo].group)
    && (lo > 0 ==> steps[lo - 1].group != steps[lo].group)
    && (hi < |steps| ==> steps[hi].group != steps[lo].group)
  }

  /** Chunk c is right for its place: a grouped chunk is a whole maximal run without an
      inner reference; a chunk of one step is ungrouped, or belongs to a maximal run that
      has one. */
  ghost predicate RightAt(steps: seq<Step>, c: Chunk, lo: nat) {
    if c.group.Some? then
      && MaximalRun(steps, lo, lo + |c.members|) && c.members == steps[lo..lo + |c.members|]
      && c.group.value == steps[lo].group && !Entangled(c.members)
    else
      && lo < |steps| && c.members == [steps[lo]]
      && (steps[lo].group == "" || exists s: nat, e: nat :: InRun(steps, s, e, lo))
  }

  predicate InRun(steps: seq<Step>, s: nat, e: nat, i: nat) {
    MaximalRun(steps, s, e) && s <= i < e && Entangled(steps[s..e])
  }

  /** p holds of every chunk at its place, the first one at lo. */
  predicate AllAt(p: (Chunk, nat) -> bool, chunks: seq<Chunk>, lo: nat)
    decreases |chunks|
  {
    chunks == [] || (p(chunks[0], lo) && AllAt(p, chunks[1..], lo + |chunks[0].members|))
  }

  lemma {:induction false} AllAtConcat(p: (Chunk, nat) -> bool, a: seq<Chunk>, b: seq<Chunk>, lo: nat)
    requires AllAt(p, a, lo) && AllAt(p, b, lo + |Flatten(a)|)
    ensures AllAt(p, a + b, lo)
    decreases |a|
  {
    if a == [] {
      assert a + b == b;
    } else {
      AllAtConcat(p, a[1..], b, lo + |a[0].members|);
      assert (a + b)[0] == a[0] && (a + b)[1..] == a[1..] + b;
    }
  }

  lemma AllAtCons(p: (Chunk, nat) -> bool, c: Chunk, rest: seq<Chunk>, lo: nat)
    requires p(c, lo) && AllAt(p, rest, lo + |c.members|)
    ensures AllAt(p, [c] + rest, lo)
  {
    assert ([c] + rest)[1..] == rest;
  }

  ghost function Right(steps: seq<Step>): (Chunk, nat) -> bool {
    (c: Chunk, lo: nat) => RightAt(steps, c, lo)
  }

  ghost predicate AllRight(steps: seq<Step>, chunks: seq<Chunk>, lo: nat) {
    AllAt(Right(steps), chunks, lo)
  }

  lemma {:induction false} SinglesAt(p: (Chunk, nat) -> bool, members: seq<Step>, lo: nat)
    requires forall i :: 0 <= i < |members| ==> p(Chunk(None, [members[i]]), lo + i)
    ensures AllAt(p, Singles(members), lo)
    decreases |members|
  {
    if members != [] {
      var rest := members[1..];
      forall i | 0 <= i < |rest|
        ensures p(Chunk(None, [rest[i]]), lo + 1 + i)
      {
        assert rest[i] == members[i + 1] && p(Chunk(None, [members[i + 1]]), lo + (i + 1));
      }
      SinglesAt(p, rest, lo + 1);
      assert p(Chunk(None, [members[0]]), lo + 0);
      SinglesCons(members);
      AllAtCons(p, Chunk(None, [members[0]]), Singles(rest), lo);
    }
  }

  lemma SinglesRight(steps: seq<Step>, s: nat, e: nat)
    requires MaximalRun(steps, s, e) && Entangled(steps[s..e])
    ensures AllRight(steps, Singles(steps[s..e]), s)
  {
    var members := steps[s..e];
    forall i | 0 <= i < |members|
      ensures Right(steps)(Chunk(None, [members[i]]), s + i)
    {
      assert InRun(steps, s, e, s + i);
    }
    SinglesAt(Right(steps), members, s);
  }

  lemma UnitRight(steps: seq<Step>, i: nat)
    requires i < |steps|
    requires 0 < i && steps[i].group != "" ==> steps[i - 1].group != steps[i].group
    ensures AllRight(steps, Unit(steps, i).0, i)
  {
    var (unit, e) := Unit(steps, i);
    DependsInsideIff(steps[i..e]);
    if steps[i].group != "" && Entangled(steps[i..e]) {
      SinglesRight(steps, i, e);
    } else {
      assert Right(steps)(unit[0], i);
      AllAtCons(Right(steps), unit[0], [], i);
      assert unit == [unit[0]] + [];
    }
  }

  /** Every chunk is right for its place. */
  lemma {:induction false} ChunksAreMaximalRuns(steps: seq<Step>, i: nat)
    requires i <= |steps|
    requires 0 < i < |steps| && steps[i].group != "" ==> steps[i - 1].group != steps[i].group
    ensures AllRight(steps, ChunksFrom(steps, i), i)
    decreases |steps| - i
  {
    if i < |steps| {
      var (unit, e) := Unit(steps, i);
      UnitEnds(steps, i);
      UnitRight(steps, i);
      ChunksAreMaximalRuns(steps, e);
      UnitFlattens(steps, i);
      JoinRight(steps, unit, ChunksFrom(steps, e), i, e);
    }
  }

  lemma JoinRight(steps: seq<Step>, unit: seq<Chunk>, rest: seq<Chunk>, i: nat, e: nat)
    requires AllRight(steps, unit, i) && AllRight(steps, rest, e) && e == i + |Flatten(unit)|
    ensures AllRight(steps, unit + rest, i)
  {
    AllAtConcat(Right(steps), unit, rest, i);
  }

  /** A unit ends where its group does. */
  lemma UnitEnds(steps: seq<Step>, i: nat)
    requires i < |steps|
    ensures var e := Unit(steps, i).1;
      e < |steps| && steps[e].group != "" ==> steps[e - 1].group != steps[e].group
  {
  }

  // ---------------------------------------------------------------- meaning

  /** What one step yields from the results it is shown: its result, and whether the run
      stops after it (failed or denied). */
  datatype Outcome<R> = Outcome(result: R, stops: bool)

  type Runner<!R> = (Step, map<string, R>) -> Outcome<R>

  ghost predicate Agree<R>(keys: set<string>, r1: map<string, R>, r2: map<string, R>) {
    forall k :: k in keys ==> (k in r1 <==> k in r2) && (k in r1 && k in r2 ==> r1[k] == r2[k])
  }

  /** The step reads earlier results only through its prompt and condition references. */
  ghost predicate ReadsRefs<R(!new)>(run: Runner<R>, s: Step) {
    forall r1, r2 :: Agree(s.refs, r1, r2) ==> run(s, r1) == run(s, r2)
  }

  datatype RunState<R> = RunState(results: map<string, R>, stopped: bool)

  /** One step after the other; a step that stops the run is the last. */
  function RunSteps<R>(run: Runner<R>, steps: seq<Step>, results: map<string, R>): RunState<R> {
    if steps == [] then RunState(results, false)
    else
      var o := run(steps[0], results);
      var more := results[steps[0].outputKey := o.result];
      if o.stops then RunState(more, true) else RunSteps(run, steps[1..], more)
  }

  /** What each member of a group is shown: any results that differ from those before the
      group in the members' own entries at most, since siblings may already have finished. */
  type Shown<!R> = (map<string, R>, seq<Step>, nat) -> map<string, R>

  function KeysOf(members: seq<Step>): set<string> {
    set m | m in members :: m.outputKey
  }

  ghost predicate ShowsSiblingsAtMost<R(!new)>(shown: Shown<R>) {
    forall base, members, i ::
      forall k :: k !in KeysOf(members) ==>
        (k in shown(base, members, i) <==> k in base) &&
        (k in base ==> k in shown(base, members, i) && shown(base, members, i)[k] == base[k])
  }

  /** All members of a group, each from what it is shown; all of them finish. */
  function RunGroup<R>(run: Runner<R>, shown: Shown<R>, base: map<string, R>, members: seq<Step>, n: nat): RunState<R>
    requires n <= |members|
  {
    if n == 0 then RunState(base, false)
    else
      var before := RunGroup(run, shown, base, members, n - 1);
      var o := run(members[n - 1], shown(base, members, n - 1));
      RunState(before.results[members[n - 1].outputKey := o.result], before.stopped || o.stops)
  }

  /** Every member of a group leaves what it yields from what it was shown, and the run stops
      exactly if one of them stops it. */
  lemma {:induction false} GroupResults<R>(
      run: Runner<R>, shown: Shown<R>, base: map<string, R>, members: seq<Step>, n: nat)
    requires n <= |members| && UniqueKeys(members)
    ensures var after := RunGroup(run, shown, base, members, n);
      && (forall i :: 0 <= i < n ==>
            && members[i].outputKey in after.results
            && after.results[members[i].outputKey] == run(members[i], shown(base, members, i)).result)
      && (after.stopped <==> exists i :: 0 <= i < n && run(members[i], shown(base, members, i)).stops)
  {
    if n > 0 {
      GroupResults(run, shown, base, members, n - 1);
    }
  }

  /** The chunked run: a group runs together, anything else step by step. */
  function RunChunks<R>(run: Runner<R>, shown: Shown<R>, chunks: seq<Chunk>, results: map<string, R>): RunState<R>
    decreases |chunks|
  {
    if chunks == [] then RunState(results, false)
    else
      var c := chunks[0];
      var after := if c.group.Some? then RunGroup(run, shown, results, c.members, |c.members|)
                   else RunSteps(run, c.members, results);
      if after.stopped then after else RunChunks(run, shown, chunks[1..], after.results)
  }

  predicate UniqueKeys(steps: seq<Step>) {
    forall i, j :: 0 <= i < j < |steps| ==> steps[i].outputKey != steps[j].outputKey
  }

  /** `part` is `whole`, or `whole` without some entries. */
  ghost predicate Within<R>(part: map<string, R>, whole: map<string, R>) {
    forall k :: k in part ==> k in whole && whole[k] == part[k]
  }

  /** The two runs agree: both stop or neither does, and the one-by-one run, which may stop
      earlier inside a group, has results the chunked run also has; without a stop the
      results are the same. */
  ghost predicate SameMeaning<R>(chunked: RunState<R>, stepwise: RunState<R>) {
    && chunked.stopped == stepwise.stopped
    && Within(stepwise.results, chunked.results)
    && (!stepwise.stopped ==> chunked.results == stepwise.results)
  }

  lemma {:induction false} RunConcat<R>(run: Runner<R>, a: seq<Step>, b: seq<Step>, results: map<string, R>)
    ensures var first := RunSteps(run, a, results);
      RunSteps(run, a + b, results) == if first.stopped then first else RunSteps(run, b, first.results)
    decreases |a|
  {
    if a == [] {
      assert a + b == b;
    } else {
      assert (a + b)[0] == a[0] && (a + b)[1..] == a[1..] + b;
      var o := run(a[0], results);
      if !o.stops {
        RunConcat(run, a[1..], b, results[a[0].outputKey := o.result]);
      }
    }
  }

  /** A member that refers to no sibling yields the same from the results before the group,
      from what it is shown, and after any of its siblings. */
  lemma MemberIndependent<R(!new)>(run: Runner<R>, shown: Shown<R>, base: map<string, R>, members: seq<Step>, i: nat,
                                   later: map<string, R>)
    requires i < |members| && ReadsRefs(run, members[i]) && ShowsSiblingsAtMost(shown)
    requires members[i].refs !! KeysOf(members)
    requires forall k :: k !in KeysOf(members) ==> (k in later <==> k in base) && (k in base ==> later[k] == base[k])
    ensures run(members[i], shown(base, members, i)) == run(members[i], later)
  {
    var seen := shown(base, members, i);
    assert Agree(members[i].refs, seen, later);
  }

  /** `g` is `base` and results of the first n members. */
  ghost predicate Grown<R>(base: map<string, R>, g: map<string, R>, members: seq<Step>, n: nat) {
    && n <= |members|
    && (forall k :: k in g ==> k in base || exists i :: 0 <= i < n && members[i].outputKey == k)
    && (forall k :: k in base ==> k in g && g[k] == base[k])
  }

  lemma GrownByOne<R>(base: map<string, R>, g: map<string, R>, members: seq<Step>, n: nat, r: R)
    requires 0 < n <= |members| && Grown(base, g, members, n - 1)
    requires base.Keys !! KeysOf(members)
    ensures Grown(base, g[members[n - 1].outputKey := r], members, n)
  {
    assert members[n - 1] in members;
    assert members[n - 1].outputKey in KeysOf(members);
  }

  /** The group after n members, and the one-by-one run after the same members: equal as
      long as none of them stops the run. */
  lemma {:induction false} GroupPrefix<R(!new)>(run: Runner<R>, shown: Shown<R>, base: map<string, R>,
                                                members: seq<Step>, n: nat)
    requires n <= |members| && ShowsSiblingsAtMost(shown) && UniqueKeys(members)
    requires forall i :: 0 <= i < |members| ==> ReadsRefs(run, members[i]) && members[i].refs !! KeysOf(members)
    requires base.Keys !! KeysOf(members)
    ensures SameMeaning(RunGroup(run, shown, base, members, n), RunSteps(run, members[..n], base))
    ensures Grown(base, RunGroup(run, shown, base, members, n).results, members, n)
    decreases n
  {
    if n > 0 {
      GroupPrefix(run, shown, base, members, n - 1);
      assert members[..n] == members[..n - 1] + [members[n - 1]];
      RunConcat(run, members[..n - 1], [members[n - 1]], base);
      GroupStep(run, shown, base, members, n);
      var o := run(members[n - 1], shown(base, members, n - 1));
      GrownByOne(base, RunGroup(run, shown, base, members, n - 1).results, members, n, o.result);
    }
  }

  lemma GroupStep<R(!new)>(run: Runner<R>, shown: Shown<R>, base: map<string, R>, members: seq<Step>, n: nat)
    requires 0 < n <= |members| && ShowsSiblingsAtMost(shown) && UniqueKeys(members)
    requires ReadsRefs(run, members[n - 1]) && members[n - 1].refs !! KeysOf(members)
    requires base.Keys !! KeysOf(members)
    requires Grown(base, RunGroup(run, shown, base, members, n - 1).results, members, n - 1)
    requires SameMeaning(RunGroup(run, shown, base, members, n - 1), RunSteps(run, members[..n - 1], base))
    requires var first := RunSteps(run, members[..n - 1], base);
      RunSteps(run, members[..n], base) ==
      if first.stopped then first else RunSteps(run, [members[n - 1]], first.results)
    ensures SameMeaning(RunGroup(run, shown, base, members, n), RunSteps(run, members[..n], base))
  {
    var last := members[n - 1];
    var before := RunGroup(run, shown, base, members, n - 1);
    var g := before.results;
    assert last.outputKey in KeysOf(members);
    forall i | 0 <= i < n - 1
      ensures members[i].outputKey in KeysOf(members) && members[i].outputKey != last.outputKey
    {
      assert members[i] in members;
    }
    assert last.outputKey !in g;
    if !before.stopped {
      assert forall k :: k !in KeysOf(members) ==> (k in g <==> k in base) && (k in base ==> g[k] == base[k]);
      MemberIndependent(run, shown, base, members, n - 1, g);
      assert [last][1..] == [];
    }
  }

  lemma RefsMissMembers(members: seq<Step>, i: nat)
    requires !Entangled(members) && i < |members| && forall m :: m in members ==> m.outputKey != ""
    ensures members[i].refs !! KeysOf(members)
  {
    forall k | k in KeysOf(members)
      ensures k !in members[i].refs
    {
      var j :| 0 <= j < |members| && members[j].outputKey == k;
      assert members[j].outputKey != "" && !RefersTo(members[i], members[j]);
    }
  }

  /** A grouped chunk means what its members mean one by one. */
  lemma GroupMeansSteps<R(!new)>(run: Runner<R>, shown: Shown<R>, base: map<string, R>, members: seq<Step>)
    requires ShowsSiblingsAtMost(shown) && UniqueKeys(members) && !Entangled(members)
    requires forall i :: 0 <= i < |members| ==> ReadsRefs(run, members[i]) && members[i].outputKey != ""
    requires base.Keys !! KeysOf(members)
    ensures SameMeaning(RunGroup(run, shown, base, members, |members|), RunSteps(run, members, base))
  {
    forall i | 0 <= i < |members|
      ensures members[i].refs !! KeysOf(members)
    {
      RefsMissMembers(members, i);
    }
    GroupPrefix(run, shown, base, members, |members|);
    assert members[..|members|] == members;
  }

  lemma {:induction false} StepsWriteTheirKeys<R>(run: Runner<R>, steps: seq<Step>, results: map<string, R>)
    ensures RunSteps(run, steps, results).results.Keys <= results.Keys + KeysOf(steps)
    decreases |steps|
  {
    if steps != [] {
      var more := results[steps[0].outputKey := run(steps[0], results).result];
      assert steps[0] in steps && KeysOf(steps[1..]) <= KeysOf(steps);
      StepsWriteTheirKeys(run, steps[1..], more);
    }
  }

  /** No grouped chunk has an inner reference. */
  predicate Independent(chunks: seq<Chunk>) {
    forall i :: 0 <= i < |chunks| && chunks[i].group.Some? ==> !Entangled(chunks[i].members)
  }

  lemma {:induction false} ChunksMeanSteps<R(!new)>(run: Runner<R>, shown: Shown<R>, chunks: seq<Chunk>,
        results: map<string, R>)
    requires ShowsSiblingsAtMost(shown) && Independent(chunks)
    requires UniqueKeys(Flatten(chunks)) && results.Keys !! KeysOf(Flatten(chunks))
    requires forall s :: s in Flatten(chunks) ==> ReadsRefs(run, s) && s.outputKey != ""
    ensures SameMeaning(RunChunks(run, shown, chunks, results), RunSteps(run, Flatten(chunks), results))
    decreases |chunks|
  {
    if chunks != [] {
      var members, rest := chunks[0].members, Flatten(chunks[1..]);
      SplitSteps(run, members, rest, results);
      RunConcat(run, members, rest, results);
      if chunks[0].group.Some? {
        GroupMeansSteps(run, shown, results, members);
      }
      var after := RunSteps(run, members, results);
      if !after.stopped {
        StepsWriteTheirKeys(run, members, results);
        ChunksMeanSteps(run, shown, chunks[1..], after.results);
      }
    }
  }

  lemma SplitSteps<R(!new)>(run: Runner<R>, members: seq<Step>, rest: seq<Step>, results: map<string, R>)
    requires UniqueKeys(members + rest) && results.Keys !! KeysOf(members + rest)
    requires forall s :: s in members + rest ==> ReadsRefs(run, s) && s.outputKey != ""
    ensures UniqueKeys(members) && UniqueKeys(rest) && KeysOf(members) !! KeysOf(rest)
    ensures results.Keys !! KeysOf(members) && results.Keys !! KeysOf(rest)
    ensures forall s :: s in members || s in rest ==> ReadsRefs(run, s) && s.outputKey != ""
  {
    var all := members + rest;
    assert forall i :: 0 <= i < |members| ==> members[i] == all[i];
    assert forall i :: 0 <= i < |rest| ==> rest[i] == all[|members| + i];
    KeysApart(all, members, rest);
    assert KeysOf(members) <= KeysOf(all) && KeysOf(rest) <= KeysOf(all);
    assert forall s :: s in members || s in rest ==> s in all;
  }

  lemma KeysApart(all: seq<Step>, members: seq<Step>, rest: seq<Step>)
    requires all == members + rest && UniqueKeys(all)
    ensures KeysOf(members) !! KeysOf(rest)
  {
    forall m, r | m in members && r in rest
      ensures m.outputKey != r.outputKey
    {
      var i :| 0 <= i < |members| && members[i] == m;
      var j :| 0 <= j < |rest| && rest[j] == r;
      assert all[i] == m && all[|members| + j] == r;
    }
  }

  lemma {:induction false} RightIsIndependent(steps: seq<Step>, chunks: seq<Chunk>, lo: nat)
    requires AllRight(steps, chunks, lo)
    ensures Independent(chunks)
    decreases |chunks|
  {
    if chunks != [] {
      RightIsIndependent(steps, chunks[1..], lo + |chunks[0].members|);
      forall i | 0 <= i < |chunks| && chunks[i].group.Some?
        ensures !Entangled(chunks[i].members)
      {
        if i > 0 {
          assert chunks[i] == chunks[1..][i - 1];
        }
      }
    }
  }

  /** Chunking preserves meaning: for steps with distinct keys that read earlier results only
      through their references, and whatever finished siblings a group member is shown, the
      chunked run stops exactly when the one-by-one run stops, and yields the same results
      unless it stops. */
  lemma ChunkingPreservesMeaning<R(!new)>(run: Runner<R>, shown: Shown<R>, steps: seq<Step>)
    requires ShowsSiblingsAtMost(shown) && UniqueKeys(steps)
    requires forall s :: s in steps ==> ReadsRefs(run, s) && s.outputKey != ""
    ensures SameMeaning(RunChunks(run, shown, ChunksFrom(steps, 0), map[]), RunSteps(run, steps, map[]))
  {
    FlattenGivesSteps(steps, 0);
    assert steps[0..] == steps;
    ChunksAreMaximalRuns(steps, 0);
    RightIsIndependent(steps, ChunksFrom(steps, 0), 0);
    ChunksMeanSteps(run, shown, ChunksFrom(steps, 0), map[]);
  }
}
