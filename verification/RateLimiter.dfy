/**
 The per-key token bucket. Buckets that have been idle long enough are deleted now and
 then; the answers must be those of a limiter that never deletes one.
 */
module RateLimiter {
  datatype Bucket = Bucket(tokens: real, lastRefill: real)

  datatype Config = Config(rate: real, burst: int)

  datatype Call = Call(key: string, now: real)

  const CLEANUP_INTERVAL := 100

  function Full(c: Config, now: real): Bucket {
    Bucket(c.burst as real, now)
  }

  function Min(a: real, b: real): (r: real)
    ensures r <= a && r <= b && (r == a || r == b)
  {
    if a <= b then a else b
  }

  /** The tokens that the time between two instants is worth. */
  function Gain(c: Config, from: real, until: real): real {
    (until - from) * c.rate
  }

  function Refill(c: Config, b: Bucket, now: real): Bucket {
    if now - b.lastRefill > 0.0 then Bucket(Min(c.burst as real, b.tokens + Gain(c, b.lastRefill, now)), now) else b
  }

  predicate Grants(b: Bucket) {
    b.tokens >= 1.0
  }

  function Consume(b: Bucket): Bucket {
    if Grants(b) then b.(tokens := b.tokens - 1.0) else b
  }

  function Lookup(c: Config, buckets: map<string, Bucket>, key: string, now: real): Bucket {
    if key in buckets then buckets[key] else Full(c, now)
  }

  /** The answer and the buckets after one call, deletions aside. */
  predicate Answer(c: Config, buckets: map<string, Bucket>, call: Call) {
    c.rate <= 0.0 || Grants(Refill(c, Lookup(c, buckets, call.key, call.now), call.now))
  }

  function Charge(c: Config, buckets: map<string, Bucket>, call: Call): map<string, Bucket> {
    if c.rate <= 0.0 then buckets
    else buckets[call.key := Consume(Refill(c, Lookup(c, buckets, call.key, call.now), call.now))]
  }

  predicate Stale(c: Config, b: Bucket, now: real)
    requires c.rate > 0.0
  {
    now - b.lastRefill > 2.0 * c.burst as real / c.rate
  }

  function Pruned(c: Config, buckets: map<string, Bucket>, now: real): map<string, Bucket>
    requires c.rate > 0.0
  {
    map k | k in buckets && !Stale(c, buckets[k], now) :: buckets[k]
  }

  class TokenBucket {
    const config: Config
    var buckets: map<string, Bucket>
    var callCount: nat

    constructor (config: Config)
      ensures this.config == config && buckets == map[] && callCount == 0
    {
      this.config := config;
      buckets := map[];
      callCount := 0;
    }

    method Allow(key: string, now: real) returns (ok: bool)
      modifies this
      ensures ok == Answer(config, old(buckets), Call(key, now))
      ensures State(buckets, callCount) == Next(config, old(State(buckets, callCount)), Call(key, now))
    {
      if config.rate <= 0.0 {
        return true;
      }
      var state := if key in buckets then buckets[key] else Full(config, now);
      var elapsed := now - state.lastRefill;
      if elapsed > 0.0 {
        state := Bucket(Min(config.burst as real, state.tokens + Gain(config, state.lastRefill, now)), now);
      }
      assert state == Refill(config, Lookup(config, buckets, key, now), now);
      ok := state.tokens >= 1.0;
      if ok {
        state := state.(tokens := state.tokens - 1.0);
      }
      buckets := buckets[key := state];
      MaybeCleanup(now);
    }

    method MaybeCleanup(now: real)
      requires config.rate > 0.0
      modifies this
      ensures State(buckets, callCount) == Cleaned(config, old(State(buckets, callCount)), now)
    {
      callCount := callCount + 1;
      if callCount < CLEANUP_INTERVAL {
        return;
      }
      callCount := 0;
      CleanupStale(now);
    }

    method CleanupStale(now: real)
      requires config.rate > 0.0
      modifies this`buckets
      ensures buckets == Pruned(config, old(buckets), now)
    {
      var maxAge := 2.0 * config.burst as real / config.rate;
      var staleKeys := set k | k in buckets && now - buckets[k].lastRefill > maxAge;
      buckets := buckets - staleKeys;
    }
  }

  datatype State = State(buckets: map<string, Bucket>, callCount: nat)

  function Cleaned(c: Config, s: State, now: real): State
    requires c.rate > 0.0
  {
    if s.callCount + 1 < CLEANUP_INTERVAL then s.(callCount := s.callCount + 1)
    else State(Pruned(c, s.buckets, now), 0)
  }

  function Next(c: Config, s: State, call: Call): State {
    if c.rate <= 0.0 then s else Cleaned(c, s.(buckets := Charge(c, s.buckets, call)), call.now)
  }

  /** Of a run of calls every hundredth prunes, and no other. */
  lemma PrunesEveryHundredth(c: Config, s: State, call: Call)
    requires c.rate > 0.0 && s.callCount < 100
    ensures Next(c, s, call).callCount == (s.callCount + 1) % 100
    ensures var charged := Charge(c, s.buckets, call);
      Next(c, s, call).buckets == if s.callCount == 99 then Pruned(c, charged, call.now) else charged
  {
  }

  // ------------------------------------------------------------ whole runs

  /** The clock of the process never runs backwards. */
  predicate ClockFrom(now: real, calls: seq<Call>) {
    && (calls != [] ==> now <= calls[0].now)
    && forall i :: 0 <= i < |calls| - 1 ==> calls[i].now <= calls[i + 1].now
  }

  predicate Ordered(calls: seq<Call>) {
    calls == [] || ClockFrom(calls[0].now, calls)
  }

  /** The answers of the program ... */
  function Answers(c: Config, s: State, calls: seq<Call>): (r: seq<bool>)
    ensures |r| == |calls|
    decreases |calls|
  {
    if calls == [] then []
    else [Answer(c, s.buckets, calls[0])] + Answers(c, Next(c, s, calls[0]), calls[1..])
  }

  /** ... and of a limiter that never deletes a bucket. */
  function AnswersUnpruned(c: Config, all: map<string, Bucket>, calls: seq<Call>): (r: seq<bool>)
    ensures |r| == |calls|
    decreases |calls|
  {
    if calls == [] then []
    else [Answer(c, all, calls[0])] + AnswersUnpruned(c, Charge(c, all, calls[0]), calls[1..])
  }

  /** A bucket that any later call would find full, or that never grants anything. */
  predicate Spent(c: Config, b: Bucket, now: real) {
    if c.burst >= 0 then
      now > b.lastRefill && b.tokens + Gain(c, b.lastRefill, now) >= c.burst as real
    else b.tokens == c.burst as real
  }

  /** What every bucket satisfies. */
  predicate Sound(c: Config, b: Bucket, now: real) {
    && b.lastRefill <= now
    && b.tokens <= c.burst as real
    && (if c.burst >= 0 then b.tokens >= 0.0 else b.tokens == c.burst as real)
  }

  /** The kept buckets agree with the full set, and the deleted ones are spent. */
  ghost predicate Agree(c: Config, kept: map<string, Bucket>, all: map<string, Bucket>, now: real) {
    && (forall k :: k in all ==> Sound(c, all[k], now))
    && (forall k :: k in kept ==> k in all && kept[k] == all[k])
    && (forall k :: k in all && k !in kept ==> Spent(c, all[k], now))
  }

  lemma GainIsNatural(c: Config, from: real, until: real)
    requires c.rate > 0.0 && from <= until
    ensures Gain(c, from, until) >= 0.0
    ensures from == until ==> Gain(c, from, until) == 0.0
  {
  }

  lemma GainsAdd(c: Config, from: real, middle: real, until: real)
    ensures Gain(c, from, until) == Gain(c, from, middle) + Gain(c, middle, until)
  {
  }

  /** A sound bucket refills to the burst or by the gain, whichever is less. */
  lemma RefillIs(c: Config, b: Bucket, before: real, now: real)
    requires c.rate > 0.0 && before <= now && Sound(c, b, before)
    ensures Refill(c, b, now) == Bucket(Min(c.burst as real, b.tokens + Gain(c, b.lastRefill, now)), now)
    ensures Gain(c, b.lastRefill, now) >= 0.0
  {
    GainIsNatural(c, b.lastRefill, now);
  }

  lemma RefillIsSound(c: Config, b: Bucket, before: real, now: real)
    requires c.rate > 0.0 && before <= now && Sound(c, b, before)
    ensures Sound(c, Refill(c, b, now), now) && Refill(c, b, now).lastRefill == now
    ensures Sound(c, Consume(Refill(c, b, now)), now)
  {
    RefillIs(c, b, before, now);
  }

  /** A spent bucket refills to a new one. */
  lemma SpentRefillsFull(c: Config, b: Bucket, before: real, now: real)
    requires c.rate > 0.0 && before <= now && Sound(c, b, before) && Spent(c, b, before)
    ensures Refill(c, b, now) == Full(c, now)
    ensures Spent(c, b, now)
  {
    RefillIs(c, b, before, now);
    GainsAdd(c, b.lastRefill, before, now);
    GainIsNatural(c, before, now);
  }

  /** A bucket old enough to be deleted is spent. */
  lemma StaleIsSpent(c: Config, b: Bucket, now: real)
    requires c.rate > 0.0 && Sound(c, b, now) && Stale(c, b, now)
    ensures Spent(c, b, now)
  {
    if c.burst >= 0 {
      var age := 2.0 * c.burst as real / c.rate;
      assert age * c.rate == 2.0 * c.burst as real;
      assert age >= 0.0;
      GainsAdd(c, b.lastRefill, b.lastRefill + age, now);
      GainIsNatural(c, b.lastRefill + age, now);
      assert Gain(c, b.lastRefill, b.lastRefill + age) == 2.0 * c.burst as real;
    }
  }

  lemma ChargeAgrees(c: Config, kept: map<string, Bucket>, all: map<string, Bucket>, before: real, call: Call)
    requires c.rate > 0.0 && before <= call.now && Agree(c, kept, all, before)
    ensures Answer(c, kept, call) == Answer(c, all, call)
    ensures Agree(c, Charge(c, kept, call), Charge(c, all, call), call.now)
  {
    var now := call.now;
    forall k | k in all
      ensures Sound(c, all[k], now)
      ensures k !in kept ==> Spent(c, all[k], now) && Refill(c, all[k], now) == Full(c, now)
    {
      if k !in kept {
        SpentRefillsFull(c, all[k], before, now);
      }
    }
    var mine, full := Lookup(c, kept, call.key, now), Lookup(c, all, call.key, now);
    assert Refill(c, mine, now) == Refill(c, full, now);
    RefillIsSound(c, full, if call.key in all then before else now, now);
  }

  lemma PruneAgrees(c: Config, kept: map<string, Bucket>, all: map<string, Bucket>, now: real)
    requires c.rate > 0.0 && Agree(c, kept, all, now)
    ensures Agree(c, Pruned(c, kept, now), all, now)
  {
    forall k | k in all && k !in Pruned(c, kept, now)
      ensures Spent(c, all[k], now)
    {
      if k in kept {
        StaleIsSpent(c, all[k], now);
      }
    }
  }

  lemma {:induction false} AgreeingRuns(c: Config, s: State, all: map<string, Bucket>, now: real, calls: seq<Call>)
    requires c.rate > 0.0 ==> Agree(c, s.buckets, all, now)
    requires ClockFrom(now, calls)
    ensures Answers(c, s, calls) == AnswersUnpruned(c, all, calls)
    decreases |calls|
  {
    if calls != [] {
      var call := calls[0];
      if c.rate > 0.0 {
        ChargeAgrees(c, s.buckets, all, now, call);
        PruneAgrees(c, Charge(c, s.buckets, call), Charge(c, all, call), call.now);
      }
      assert ClockFrom(call.now, calls[1..]);
      AgreeingRuns(c, Next(c, s, call), Charge(c, all, call), call.now, calls[1..]);
    }
  }

  /** Deleting buckets is invisible, for every rate and burst and every run of calls. */
  lemma PruningIsInvisible(c: Config, calls: seq<Call>)
    requires Ordered(calls)
    ensures Answers(c, State(map[], 0), calls) == AnswersUnpruned(c, map[], calls)
  {
    if calls != [] {
      AgreeingRuns(c, State(map[], 0), map[], calls[0].now, calls);
    }
  }

  // ------------------------------------------------------------ exactly which calls are allowed

  /** The buckets after the first n calls, none deleted. */
  function BucketsAfter(c: Config, all: map<string, Bucket>, calls: seq<Call>, n: nat): map<string, Bucket>
    requires n <= |calls|
    decreases n
  {
    if n == 0 then all else BucketsAfter(c, Charge(c, all, calls[0]), calls[1..], n - 1)
  }

  lemma {:induction false} BucketsStep(c: Config, all: map<string, Bucket>, calls: seq<Call>, n: nat)
    requires n < |calls|
    ensures BucketsAfter(c, all, calls, n + 1) == Charge(c, BucketsAfter(c, all, calls, n), calls[n])
    decreases n
  {
    if n > 0 {
      BucketsStep(c, Charge(c, all, calls[0]), calls[1..], n - 1);
    }
  }

  lemma {:induction false} AnswerAt(c: Config, all: map<string, Bucket>, calls: seq<Call>, n: nat)
    requires n < |calls|
    ensures AnswersUnpruned(c, all, calls)[n] == Answer(c, BucketsAfter(c, all, calls, n), calls[n])
    decreases n
  {
    if n > 0 {
      AnswerAt(c, Charge(c, all, calls[0]), calls[1..], n - 1);
    }
  }

  /** How many of the calls m .. n - 1 are for the key and allowed. */
  function Granted(calls: seq<Call>, answers: seq<bool>, key: string, m: nat, n: nat): (k: nat)
    requires n <= |calls| == |answers|
    decreases n
  {
    if m >= n then 0
    else Granted(calls, answers, key, m, n - 1) + (if calls[n - 1].key == key && answers[n - 1] then 1 else 0)
  }

  /** What the key's bucket holds at the time, once refilled. */
  function Level(c: Config, all: map<string, Bucket>, key: string, now: real): real {
    Refill(c, Lookup(c, all, key, now), now).tokens
  }

  ghost predicate AllSound(c: Config, all: map<string, Bucket>, now: real) {
    forall k :: k in all ==> Sound(c, all[k], now)
  }

  lemma ChargeIsSound(c: Config, all: map<string, Bucket>, before: real, call: Call)
    requires c.rate > 0.0 && before <= call.now && AllSound(c, all, before)
    ensures AllSound(c, Charge(c, all, call), call.now)
  {
    var b := Lookup(c, all, call.key, call.now);
    RefillIsSound(c, b, if call.key in all then before else call.now, call.now);
  }

  /** Waiting refills by the gain, up to the burst. */
  lemma RefillGrows(c: Config, b: Bucket, before: real, now: real)
    requires c.rate > 0.0 && before <= now && Sound(c, b, before)
    ensures Refill(c, b, now).tokens == Min(c.burst as real, Refill(c, b, before).tokens + Gain(c, before, now))
  {
    RefillIs(c, b, before, before);
    RefillIs(c, b, before, now);
    GainsAdd(c, b.lastRefill, before, now);
    GainIsNatural(c, before, now);
  }

  lemma LevelGrows(c: Config, all: map<string, Bucket>, key: string, before: real, now: real)
    requires c.rate > 0.0 && before <= now && AllSound(c, all, before)
    ensures Level(c, all, key, now) == Min(c.burst as real, Level(c, all, key, before) + Gain(c, before, now))
  {
    GainIsNatural(c, before, now);
    if key in all {
      RefillGrows(c, all[key], before, now);
    }
  }

  /** A call takes its token from its own bucket and from no other. */
  lemma ChargeTakesOne(c: Config, all: map<string, Bucket>, before: real, call: Call, key: string)
    requires c.rate > 0.0 && before <= call.now && AllSound(c, all, before)
    ensures var taken := if call.key == key && Answer(c, all, call) then 1.0 else 0.0;
      Level(c, Charge(c, all, call), key, call.now) + taken == Level(c, all, key, call.now)
  {
    if call.key == key {
      RefillIsSound(c, Lookup(c, all, key, call.now), if key in all then before else call.now, call.now);
    }
  }

  /** What the calls from m on leave of the burst and of what has been earned since. */
  function Left(c: Config, calls: seq<Call>, answers: seq<bool>, key: string, m: nat, n: nat): real
    requires m <= n < |calls| == |answers|
  {
    c.burst as real + Gain(c, calls[m].now, calls[n].now) - Granted(calls, answers, key, m, n) as real
  }

  /** The bucket of a key holds x if and only if every stretch of calls leaves x. */
  ghost predicate HoldsExactly(c: Config, calls: seq<Call>, answers: seq<bool>, key: string, n: nat, level: real)
    requires n < |calls| == |answers|
  {
    && (forall m: nat :: m <= n ==> level <= Left(c, calls, answers, key, m, n))
    && (exists m: nat :: m <= n && level == Left(c, calls, answers, key, m, n))
  }

  lemma HoldsAtStart(c: Config, calls: seq<Call>, answers: seq<bool>, key: string)
    requires calls != [] && |answers| == |calls|
    ensures HoldsExactly(c, calls, answers, key, 0, c.burst as real)
  {
    assert Left(c, calls, answers, key, 0, 0) == c.burst as real;
  }

  /** From one call to the next, every stretch gains the same and loses what was granted. */
  lemma LeftStep(c: Config, calls: seq<Call>, answers: seq<bool>, key: string, m: nat, n: nat, gain: real)
    requires m <= n < |calls| - 1 && |answers| == |calls|
    requires gain == Gain(c, calls[n].now, calls[n + 1].now)
    ensures var taken := if calls[n].key == key && answers[n] then 1.0 else 0.0;
      Left(c, calls, answers, key, m, n + 1) == Left(c, calls, answers, key, m, n) + gain - taken
    ensures Left(c, calls, answers, key, n + 1, n + 1) == c.burst as real
  {
    GainsAdd(c, calls[m].now, calls[n].now, calls[n + 1].now);
  }

  lemma HoldsStep(c: Config, calls: seq<Call>, answers: seq<bool>, key: string, n: nat, level: real, gain: real)
    requires n < |calls| - 1 && |answers| == |calls| && HoldsExactly(c, calls, answers, key, n, level)
    requires gain == Gain(c, calls[n].now, calls[n + 1].now)
    ensures var taken := if calls[n].key == key && answers[n] then 1.0 else 0.0;
      HoldsExactly(c, calls, answers, key, n + 1, Min(c.burst as real, level - taken + gain))
  {
    var taken := if calls[n].key == key && answers[n] then 1.0 else 0.0;
    var next, k := Min(c.burst as real, level - taken + gain), n + 1;
    forall m: nat | m <= k
      ensures next <= Left(c, calls, answers, key, m, k)
    {
      if m <= n {
        LeftStep(c, calls, answers, key, m, n, gain);
        assert level <= Left(c, calls, answers, key, m, n);
      } else {
        LeftStep(c, calls, answers, key, n, n, gain);
      }
    }
    if next == c.burst as real {
      LeftStep(c, calls, answers, key, n, n, gain);
      assert next == Left(c, calls, answers, key, n + 1, n + 1);
    } else {
      var m: nat :| m <= n && level == Left(c, calls, answers, key, m, n);
      LeftStep(c, calls, answers, key, m, n, gain);
      assert next == Left(c, calls, answers, key, m, n + 1);
    }
  }

  /** At every call, the bucket of the key holds exactly what the calls so far leave. */
  lemma {:induction false} LevelAt(c: Config, calls: seq<Call>, answers: seq<bool>, key: string, n: nat)
    requires c.rate > 0.0 && Ordered(calls) && n < |calls| && answers == AnswersUnpruned(c, map[], calls)
    ensures AllSound(c, BucketsAfter(c, map[], calls, n), calls[n].now)
    ensures HoldsExactly(c, calls, answers, key, n, Level(c, BucketsAfter(c, map[], calls, n), key, calls[n].now))
    decreases n
  {
    if n == 0 {
      HoldsAtStart(c, calls, answers, key);
    } else {
      var all, call, now := BucketsAfter(c, map[], calls, n - 1), calls[n - 1], calls[n].now;
      LevelAt(c, calls, answers, key, n - 1);
      HoldsStep(c, calls, answers, key, n - 1, Level(c, all, key, call.now), Gain(c, call.now, now));
      BucketsStep(c, map[], calls, n - 1);
      AnswerAt(c, map[], calls, n - 1);
      ChargeIsSound(c, all, call.now, call);
      ChargeTakesOne(c, all, call.now, call, key);
      LevelGrows(c, Charge(c, all, call), key, call.now, now);
    }
  }

  /** One more call of the key fits, counted from call m on. */
  predicate Fits(c: Config, calls: seq<Call>, answers: seq<bool>, key: string, m: nat, n: nat)
    requires m <= n < |calls| == |answers|
  {
    Granted(calls, answers, key, m, n) as real + 1.0 <= c.burst as real + (calls[n].now - calls[m].now) * c.rate
  }

  lemma FitsIff(c: Config, calls: seq<Call>, answers: seq<bool>, key: string, m: nat, n: nat)
    requires m <= n < |calls| == |answers|
    ensures Fits(c, calls, answers, key, m, n) <==> Left(c, calls, answers, key, m, n) >= 1.0
  {
  }

  /** In every run a call is allowed if and only if, counted from any call before it or from
      itself, its key has then been allowed no more than the burst and the rate times the time
      since, whatever buckets were deleted and created again. */
  lemma AllowedIff(c: Config, calls: seq<Call>, n: nat)
    requires c.rate > 0.0 && Ordered(calls) && n < |calls|
    ensures var answers := Answers(c, State(map[], 0), calls);
      answers[n] <==> forall m: nat :: m <= n ==> Fits(c, calls, answers, calls[n].key, m, n)
  {
    PruningIsInvisible(c, calls);
    var answers, key := AnswersUnpruned(c, map[], calls), calls[n].key;
    LevelAt(c, calls, answers, key, n);
    AnswerAt(c, map[], calls, n);
    var level := Level(c, BucketsAfter(c, map[], calls, n), key, calls[n].now);
    assert answers[n] <==> level >= 1.0;
    LeavesOneIff(c, calls, answers, key, n, level);
  }

  lemma LeavesOneIff(c: Config, calls: seq<Call>, answers: seq<bool>, key: string, n: nat, level: real)
    requires n < |calls| == |answers| && HoldsExactly(c, calls, answers, key, n, level)
    ensures level >= 1.0 <==> forall m: nat :: m <= n ==> Fits(c, calls, answers, key, m, n)
  {
    forall m: nat | m <= n
      ensures level >= 1.0 ==> Fits(c, calls, answers, key, m, n)
    {
      FitsIff(c, calls, answers, key, m, n);
    }
    var m: nat :| m <= n && level == Left(c, calls, answers, key, m, n);
    FitsIff(c, calls, answers, key, m, n);
  }

  // ------------------------------------------------------------ what follows from it

  function BurstRoom(c: Config): nat {
    if c.burst < 0 then 0 else c.burst
  }

  lemma {:induction false} ClockGoesOn(calls: seq<Call>, m: nat, n: nat)
    requires Ordered(calls) && m <= n < |calls|
    ensures calls[m].now <= calls[n].now
    decreases n
  {
    if m < n {
      ClockGoesOn(calls, m, n - 1);
    }
  }

  lemma {:induction false} GrantedIsBounded(
      c: Config, calls: seq<Call>, answers: seq<bool>, key: string, lo: nat, hi: nat)
    requires c.rate > 0.0 && Ordered(calls) && lo < hi <= |calls| && answers == Answers(c, State(map[], 0), calls)
    ensures Granted(calls, answers, key, lo, hi) as real
         <= BurstRoom(c) as real + Gain(c, calls[lo].now, calls[hi - 1].now)
    decreases hi
  {
    var last := hi - 1;
    ClockGoesOn(calls, lo, last);
    GainIsNatural(c, calls[lo].now, calls[last].now);
    if calls[last].key == key && answers[last] {
      AllowedIff(c, calls, last);
      assert Fits(c, calls, answers, key, lo, last);
      FitsIff(c, calls, answers, key, lo, last);
    } else if lo < last {
      GrantedIsBounded(c, calls, answers, key, lo, last);
      ClockGoesOn(calls, last - 1, last);
      GainsAdd(c, calls[lo].now, calls[last - 1].now, calls[last].now);
      GainIsNatural(c, calls[last - 1].now, calls[last].now);
    }
  }

  /** In every window of every run, a key is allowed at most the burst plus the rate times the
      window's length, across any number of deletions and re-creations of its bucket. */
  lemma RateBound(c: Config, calls: seq<Call>, key: string, lo: nat, hi: nat)
    requires c.rate > 0.0 && Ordered(calls) && lo < hi <= |calls|
    ensures var granted := Granted(calls, Answers(c, State(map[], 0), calls), key, lo, hi);
      WithinRate(c, granted, calls[lo].now, calls[hi - 1].now)
  {
    var answers := Answers(c, State(map[], 0), calls);
    GrantedIsBounded(c, calls, answers, key, lo, hi);
    WithinRateIff(c, Granted(calls, answers, key, lo, hi), calls[lo].now, calls[hi - 1].now);
  }

  /** No more than the burst and the rate times the time between. */
  predicate WithinRate(c: Config, granted: nat, from: real, until: real) {
    granted as real <= BurstRoom(c) as real + (until - from) * c.rate
  }

  lemma WithinRateIff(c: Config, granted: nat, from: real, until: real)
    ensures WithinRate(c, granted, from, until) <==> granted as real <= BurstRoom(c) as real + Gain(c, from, until)
  {
  }

  /** Waiting earns: a call that comes at least 1 / rate after the last call for its key is
      allowed, if the bucket can hold a token at all. */
  lemma WaitingEarns(c: Config, calls: seq<Call>, previous: nat, n: nat)
    requires c.rate > 0.0 && c.burst >= 1 && Ordered(calls) && previous < n < |calls|
    requires calls[previous].key == calls[n].key
    requires forall i :: previous < i < n ==> calls[i].key != calls[n].key
    requires calls[n].now - calls[previous].now >= 1.0 / c.rate
    ensures Answers(c, State(map[], 0), calls)[n]
  {
    var answers, key := Answers(c, State(map[], 0), calls), calls[n].key;
    SecondEarnsOne(c, calls[previous].now, calls[n].now);
    forall m: nat | m <= n
      ensures Fits(c, calls, answers, key, m, n)
    {
      OneMoreFits(c, calls, answers, previous, n, m);
    }
    AllowedIff(c, calls, n);
  }

  lemma Reciprocal(r: real)
    requires r > 0.0
    ensures (1.0 / r) * r == 1.0
  {
  }

  lemma Scaled(x: real, y: real, r: real)
    requires r > 0.0 && x >= y
    ensures x * r >= y * r
  {
    assert (x - y) * r >= 0.0;
  }

  lemma SecondEarnsOne(c: Config, from: real, until: real)
    requires c.rate > 0.0 && until - from >= 1.0 / c.rate
    ensures Gain(c, from, until) >= 1.0
  {
    Reciprocal(c.rate);
    Scaled(until - from, 1.0 / c.rate, c.rate);
  }

  lemma OneMoreFits(c: Config, calls: seq<Call>, answers: seq<bool>, previous: nat, n: nat, m: nat)
    requires c.rate > 0.0 && c.burst >= 1 && Ordered(calls) && previous < n < |calls| && m <= n
    requires forall i :: previous < i < n ==> calls[i].key != calls[n].key
    requires Gain(c, calls[previous].now, calls[n].now) >= 1.0
    requires answers == Answers(c, State(map[], 0), calls)
    ensures Fits(c, calls, answers, calls[n].key, m, n)
  {
    var key := calls[n].key;
    NothingBetween(calls, answers, key, previous + 1, m, n);
    FitsIff(c, calls, answers, key, m, n);
    if m <= previous {
      GrantedIsBounded(c, calls, answers, key, m, previous + 1);
      GainsAdd(c, calls[m].now, calls[previous].now, calls[n].now);
    } else {
      ClockGoesOn(calls, m, n);
      GainIsNatural(c, calls[m].now, calls[n].now);
    }
  }

  lemma {:induction false} NothingBetween(calls: seq<Call>, answers: seq<bool>, key: string, from: nat, m: nat, n: nat)
    requires from <= n <= |calls| == |answers| && forall i :: from <= i < n ==> calls[i].key != key
    ensures Granted(calls, answers, key, m, n) == Granted(calls, answers, key, m, from)
    ensures m >= from ==> Granted(calls, answers, key, m, n) == 0
    decreases n
  {
    if from < n {
      NothingBetween(calls, answers, key, from, m, n - 1);
    }
  }

  /** n calls for one key at one instant. */
  function Volley(key: string, now: real, n: nat): (s: seq<Call>)
    ensures |s| == n
  {
    seq(n, i => Call(key, now))
  }

  lemma {:induction false} GrantedAtMost(calls: seq<Call>, answers: seq<bool>, key: string, m: nat, n: nat)
    requires m <= n <= |calls| == |answers|
    ensures Granted(calls, answers, key, m, n) <= n - m
    decreases n
  {
    if m < n {
      GrantedAtMost(calls, answers, key, m, n - 1);
    }
  }

  lemma BurstFits(c: Config, key: string, now: real, n: nat, i: nat)
    requires c.rate > 0.0 && i < n && i < c.burst
    ensures Answers(c, State(map[], 0), Volley(key, now, n))[i]
  {
    var calls := Volley(key, now, n);
    var answers := Answers(c, State(map[], 0), calls);
    forall m: nat | m <= i
      ensures Fits(c, calls, answers, key, m, i)
    {
      GrantedAtMost(calls, answers, key, m, i);
      FitsIff(c, calls, answers, key, m, i);
      GainIsNatural(c, calls[m].now, calls[i].now);
    }
    AllowedIff(c, calls, i);
  }

  lemma {:induction false} BurstIsUsed(c: Config, key: string, now: real, n: nat, i: nat)
    requires c.rate > 0.0 && c.burst >= 0 && i <= n
    ensures var calls := Volley(key, now, n);
      Granted(calls, Answers(c, State(map[], 0), calls), key, 0, i) >= if i < c.burst then i else c.burst
    decreases i
  {
    if i > 0 {
      BurstIsUsed(c, key, now, n, i - 1);
      if i <= c.burst {
        BurstFits(c, key, now, n, i - 1);
      }
    }
  }

  /** The bound is tight: a new key gets its whole burst at once, and not a call more. */
  lemma BurstIsGranted(c: Config, key: string, now: real, n: nat, i: nat)
    requires c.rate > 0.0 && c.burst >= 0 && i < n
    ensures Answers(c, State(map[], 0), Volley(key, now, n))[i] <==> i < c.burst
  {
    var calls := Volley(key, now, n);
    var answers := Answers(c, State(map[], 0), calls);
    if i < c.burst {
      BurstFits(c, key, now, n, i);
    } else {
      BurstIsUsed(c, key, now, n, i);
      AllowedIff(c, calls, i);
      FitsIff(c, calls, answers, key, 0, i);
      GainIsNatural(c, calls[0].now, calls[i].now);
    }
  }
}
