/**
 The alert dedup tracker: a fingerprint fires at most once per window. Old entries are
 deleted at every call; the answers must be those of a tracker that keeps them all.
 */
module Dedup {
  datatype Alert = Alert(fingerprint: string, now: real)

  /** Whether an entry holds back an alert. */
  predicate Suppressed(window: int, fired: map<string, real>, a: Alert) {
    a.fingerprint in fired && a.now - fired[a.fingerprint] < window as real
  }

  function Pruned(window: int, fired: map<string, real>, now: real): map<string, real> {
    map k | k in fired && !(fired[k] < now - 2.0 * window as real) :: fired[k]
  }

  function Recorded(window: int, fired: map<string, real>, a: Alert): map<string, real> {
    if Suppressed(window, fired, a) then fired else fired[a.fingerprint := a.now]
  }

  class AlertDedupTracker {
    const window: int
    var lastFired: map<string, real>

    constructor (window: int)
      ensures this.window == window && lastFired == map[]
    {
      this.window := window;
      lastFired := map[];
    }

    method ShouldFire(fingerprint: string, now: real) returns (fires: bool)
      modifies this
      ensures var kept := Pruned(window, old(lastFired), now);
        && fires == !Suppressed(window, kept, Alert(fingerprint, now))
        && lastFired == Recorded(window, kept, Alert(fingerprint, now))
    {
      Prune(now);
      if fingerprint in lastFired && now - lastFired[fingerprint] < window as real {
        return false;
      }
      lastFired := lastFired[fingerprint := now];
      return true;
    }

    method Prune(now: real)
      modifies this
      ensures lastFired == Pruned(window, old(lastFired), now)
    {
      var cutoff := now - 2.0 * window as real;
      var expired := set k | k in lastFired && lastFired[k] < cutoff;
      lastFired := lastFired - expired;
    }
  }

  /** The clock of the process never runs backwards. */
  predicate ClockFrom(now: real, alerts: seq<Alert>) {
    && (alerts != [] ==> now <= alerts[0].now)
    && forall i :: 0 <= i < |alerts| - 1 ==> alerts[i].now <= alerts[i + 1].now
  }

  predicate Ordered(alerts: seq<Alert>) {
    alerts == [] || ClockFrom(alerts[0].now, alerts)
  }

  /** The answers of the program ... */
  function Firings(window: int, fired: map<string, real>, alerts: seq<Alert>): (r: seq<bool>)
    ensures |r| == |alerts|
    decreases |alerts|
  {
    if alerts == [] then []
    else
      var kept := Pruned(window, fired, alerts[0].now);
      [!Suppressed(window, kept, alerts[0])] + Firings(window, Recorded(window, kept, alerts[0]), alerts[1..])
  }

  /** ... and of a tracker that keeps every entry. */
  function FiringsUnpruned(window: int, all: map<string, real>, alerts: seq<Alert>): (r: seq<bool>)
    ensures |r| == |alerts|
    decreases |alerts|
  {
    if alerts == [] then []
    else [!Suppressed(window, all, alerts[0])] + FiringsUnpruned(window, Recorded(window, all, alerts[0]), alerts[1..])
  }

  ghost predicate Past(all: map<string, real>, now: real) {
    forall k :: k in all ==> all[k] <= now
  }

  /** The kept entries agree with the full set, and the deleted ones are past suppressing. */
  ghost predicate Agree(window: int, kept: map<string, real>, all: map<string, real>, now: real) {
    && Past(all, now)
    && (forall k :: k in kept ==> k in all && kept[k] == all[k])
    && (forall k :: k in all && k !in kept ==> now - all[k] >= window as real)
  }

  lemma PruneAgrees(window: int, kept: map<string, real>, all: map<string, real>, before: real, now: real)
    requires before <= now && Agree(window, kept, all, before)
    ensures Agree(window, Pruned(window, kept, now), all, now)
  {
    forall k | k in all && k !in Pruned(window, kept, now)
      ensures now - all[k] >= window as real
    {
      assert all[k] <= now;
    }
  }

  lemma {:induction false} AgreeingRuns(
      window: int, kept: map<string, real>, all: map<string, real>, now: real, alerts: seq<Alert>)
    requires Agree(window, kept, all, now) && ClockFrom(now, alerts)
    ensures Firings(window, kept, alerts) == FiringsUnpruned(window, all, alerts)
    decreases |alerts|
  {
    if alerts != [] {
      var a := alerts[0];
      PruneAgrees(window, kept, all, now, a.now);
      assert ClockFrom(a.now, alerts[1..]);
      var left := Pruned(window, kept, a.now);
      AgreeingRuns(window, Recorded(window, left, a), Recorded(window, all, a), a.now, alerts[1..]);
    }
  }

  /** Deleting entries is invisible, for every window and every run of alerts. */
  lemma PruningIsInvisible(window: int, alerts: seq<Alert>)
    requires Ordered(alerts)
    ensures Firings(window, map[], alerts) == FiringsUnpruned(window, map[], alerts)
  {
    if alerts != [] {
      AgreeingRuns(window, map[], map[], alerts[0].now, alerts);
    }
  }

  /** Some alert before number n fired for its fingerprint less than a window ago. */
  predicate FiredRecently(window: int, alerts: seq<Alert>, firings: seq<bool>, n: nat)
    requires n < |alerts| == |firings|
  {
    exists j :: 0 <= j < n && firings[j] && alerts[j].fingerprint == alerts[n].fingerprint
      && alerts[n].now - alerts[j].now < window as real
  }

  lemma {:induction false} FiresUnless(window: int, all: map<string, real>, now: real, alerts: seq<Alert>, n: nat)
    requires Past(all, now) && ClockFrom(now, alerts) && n < |alerts|
    ensures var firings := FiringsUnpruned(window, all, alerts);
      firings[n] <==> !Suppressed(window, all, alerts[n]) && !FiredRecently(window, alerts, firings, n)
    decreases n
  {
    if n > 0 {
      var a, rest := alerts[0], alerts[1..];
      assert ClockFrom(a.now, rest);
      var next := Recorded(window, all, a);
      var firings, later := FiringsUnpruned(window, all, alerts), FiringsUnpruned(window, next, rest);
      FiresUnless(window, next, a.now, rest, n - 1);
      RecordedSuppresses(window, all, a, alerts[n]);
      assert forall j :: 0 <= j < |rest| ==> firings[j + 1] == later[j] && alerts[j + 1] == rest[j];
      ShiftRecently(window, alerts, firings, later, n);
    }
  }

  /** Recording an alert adds exactly the suppressions it causes itself. */
  lemma RecordedSuppresses(window: int, all: map<string, real>, a: Alert, later: Alert)
    requires Past(all, a.now)
    ensures Suppressed(window, Recorded(window, all, a), later) <==>
      || Suppressed(window, all, later)
      || (!Suppressed(window, all, a) && a.fingerprint == later.fingerprint && later.now - a.now < window as real)
  {
  }

  /** Looking back past the first alert is looking back in the rest, or at the first. */
  lemma ShiftRecently(window: int, alerts: seq<Alert>, firings: seq<bool>, later: seq<bool>, n: nat)
    requires 0 < n < |alerts| == |firings| && |later| == |alerts| - 1
    requires forall j :: 0 <= j < |later| ==> firings[j + 1] == later[j]
    ensures FiredRecently(window, alerts, firings, n) <==>
      || FiredRecently(window, alerts[1..], later, n - 1)
      || (&& firings[0] && alerts[0].fingerprint == alerts[n].fingerprint
          && alerts[n].now - alerts[0].now < window as real)
  {
    if FiredRecently(window, alerts[1..], later, n - 1) {
      var j :| 0 <= j < n - 1 && later[j] && alerts[1..][j].fingerprint == alerts[1..][n - 1].fingerprint
        && alerts[1..][n - 1].now - alerts[1..][j].now < window as real;
      assert firings[j + 1] && alerts[j + 1].fingerprint == alerts[n].fingerprint;
    }
    if FiredRecently(window, alerts, firings, n) {
      var j :| 0 <= j < n && firings[j] && alerts[j].fingerprint == alerts[n].fingerprint
        && alerts[n].now - alerts[j].now < window as real;
      if j > 0 {
        assert later[j - 1] && alerts[1..][j - 1].fingerprint == alerts[1..][n - 1].fingerprint;
      }
    }
  }

  /** An alert fires exactly when its fingerprint has not fired within the window before it:
      two firings of one fingerprint are never closer, and none is held back without cause. */
  lemma FiresExactlyOncePerWindow(window: int, alerts: seq<Alert>, n: nat)
    requires Ordered(alerts) && n < |alerts|
    ensures var firings := Firings(window, map[], alerts);
      firings[n] <==> !FiredRecently(window, alerts, firings, n)
  {
    PruningIsInvisible(window, alerts);
    FiresUnless(window, map[], alerts[0].now, alerts, n);
  }
}
