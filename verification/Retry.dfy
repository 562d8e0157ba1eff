/**
 The retry loop shared by the local and the durable runner. What the attempts do is an
 arbitrary function of their index; which failure texts are transient is a parameter.
 */
module Retry {
  import opened Prelude

  datatype Outcome<T> = Returned(value: T) | Raised(text: string)

  /** How the loop ends: with the outcome of an attempt, or at the assertion behind it. */
  datatype Ending<T> = Ended(outcome: Outcome<T>) | AssertionFailed

  /** How results are read and failures classified. */
  datatype Policy<!T> = Policy(
    succeeded: T -> bool,
    errorOf: T -> Option<string>,
    transient: Option<string> -> bool)

  /** A failure that the loop repeats while attempts are left. */
  predicate Repeats<T>(p: Policy<T>, o: Outcome<T>) {
    match o
    case Returned(v) => !p.succeeded(v) && p.transient(p.errorOf(v))
    case Raised(text) => p.transient(Some(text))
  }

  /** k is the least index that is a success, a non-transient failure, or maxRetries. */
  predicate StopsAt<T>(p: Policy<T>, attempt: nat -> Outcome<T>, maxRetries: nat, k: nat) {
    && k <= maxRetries
    && (forall i: nat :: i < k ==> Repeats(p, attempt(i)))
    && (k == maxRetries || !Repeats(p, attempt(k)))
  }

  function Delay(backoff: real, index: nat): real {
    backoff * Pow2(index) as real
  }

  function Pow2(n: nat): (r: nat)
    ensures r >= 1
  {
    if n == 0 then 1 else 2 * Pow2(n - 1)
  }

  function Sum(s: seq<real>): real {
    if s == [] then 0.0 else Sum(s[..|s| - 1]) + s[|s| - 1]
  }

  /** The delays before the first k retries. */
  function Delays(backoff: real, k: nat): (s: seq<real>)
    ensures |s| == k
  {
    seq(k, i requires 0 <= i < k => Delay(backoff, i))
  }

  lemma DelaysGrow(backoff: real, k: nat)
    ensures Delays(backoff, k + 1) == Delays(backoff, k) + [Delay(backoff, k)]
  {
  }

  /** The delays before k retries add up to backoff * (2^k - 1). */
  lemma {:induction false} TotalBackoff(backoff: real, k: nat)
    ensures Sum(Delays(backoff, k)) == backoff * (Pow2(k) - 1) as real
  {
    if k > 0 {
      TotalBackoff(backoff, k - 1);
      assert Delays(backoff, k)[..k - 1] == Delays(backoff, k - 1);
      var p := Pow2(k - 1) as real;
      assert Pow2(k) as real == 2.0 * p;
      assert backoff * (p - 1.0) + backoff * p == backoff * (2.0 * p - 1.0);
    }
  }

  function MaxAttemptsFor(maxRetries: int): int {
    maxRetries + 1
  }

  /** One outcome per attempt; retries only after transient failures, at most maxRetries of
      them, doubling the delay. The code behind the loop runs only for a negative count. */
  method RunWithRetries<T>(attempt: nat -> Outcome<T>, maxRetries: int, p: Policy<T>, sleeps: bool, backoff: real)
    returns (ending: Ending<T>, made: nat, slept: seq<real>)
    ensures ending.AssertionFailed? <==> maxRetries < 0
    ensures maxRetries < 0 ==> made == 0
    ensures maxRetries >= 0 ==>
      && made >= 1
      && StopsAt(p, attempt, maxRetries, made - 1)
      && ending == Ended(attempt(made - 1))
    ensures slept == if sleeps && maxRetries >= 0 then Delays(backoff, made - 1) else []
  {
    var attempts := MaxAttemptsFor(maxRetries);
    var lastExc: Option<string> := None;
    made, slept := 0, [];
    var index: nat := 0;
    while index < attempts
      invariant made == index
      invariant maxRetries < 0 ==> index == 0 && lastExc == None
      invariant maxRetries >= 0 ==> index < attempts
      invariant forall i: nat :: i < index ==> Repeats(p, attempt(i))
      invariant slept == if sleeps then Delays(backoff, index) else []
    {
      var result := attempt(index);
      made := made + 1;
      match result {
        case Raised(text) =>
          if index + 1 >= attempts || !p.transient(Some(text)) {
            return Ended(result), made, slept;
          }
          lastExc := Some(text);
        case Returned(value) =>
          if p.succeeded(value) {
            return Ended(result), made, slept;
          }
          if index + 1 >= attempts || !p.transient(p.errorOf(value)) {
            return Ended(result), made, slept;
          }
      }
      if sleeps {
        DelaysGrow(backoff, index);
        slept := slept + [Delay(backoff, index)];
      }
      index := index + 1;
    }
    ending := match lastExc case None => AssertionFailed case Some(text) => Ended(Raised(text));
  }

  /** Every limit has exactly one stopping index. */
  lemma {:induction false} StopsOnce<T>(p: Policy<T>, attempt: nat -> Outcome<T>, maxRetries: nat)
    ensures exists k: nat :: StopsAt(p, attempt, maxRetries, k)
    ensures forall j: nat, k: nat ::
      StopsAt(p, attempt, maxRetries, j) && StopsAt(p, attempt, maxRetries, k) ==> j == k
  {
    if maxRetries == 0 {
      assert StopsAt(p, attempt, 0, 0);
    } else {
      StopsOnce(p, attempt, maxRetries - 1);
      var k: nat :| StopsAt(p, attempt, maxRetries - 1, k);
      if Repeats(p, attempt(k)) {
        assert StopsAt(p, attempt, maxRetries, k + 1);
      } else {
        assert StopsAt(p, attempt, maxRetries, k);
      }
    }
  }

  /** More retries change the outcome exactly when the last one allowed was still transient. */
  lemma MoreRetriesMatterIff<T>(p: Policy<T>, attempt: nat -> Outcome<T>, few: nat, many: nat, j: nat, k: nat)
    requires few < many && StopsAt(p, attempt, few, j) && StopsAt(p, attempt, many, k)
    ensures j <= k
    ensures j < k <==> j == few && Repeats(p, attempt(few))
  {
    assert forall i: nat :: i < j ==> Repeats(p, attempt(i));
    assert forall i: nat :: i < k ==> Repeats(p, attempt(i));
  }
}
