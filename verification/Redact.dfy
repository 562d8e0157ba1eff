/**
 Secret redaction: every secret, longest first, is replaced by a placeholder. The secrets
 come as a set, so secrets of one length are taken in any order.
 */
module Redact {
  import opened Text

  const WORD := "REDACTED"
  const PLACEHOLDER := "***REDACTED***"

  /** The secrets that are looked for. */
  function Wanted(secrets: set<string>): set<string> {
    set v | v in secrets && v != ""
  }

  /** The texts of the set, each once, none before a longer one. */
  ghost predicate LongestFirst(order: seq<string>, texts: set<string>) {
    && (forall v :: v in texts <==> v in order)
    && (forall i, j :: 0 <= i < j < |order| ==> order[i] != order[j] && |order[i]| >= |order[j]|)
  }

  predicate NoneEmpty(order: seq<string>) {
    forall i :: 0 <= i < |order| ==> order[i] != ""
  }

  function RedactAll(text: string, order: seq<string>): string
    requires NoneEmpty(order)
    decreases |order|
  {
    if order == [] then text else RedactAll(Replace(text, order[0], PLACEHOLDER), order[1..])
  }

  /** Some secret of a set that is not empty is longest. */
  lemma LongestExists(secrets: set<string>)
    requires secrets != {}
    ensures exists v :: v in secrets && forall w :: w in secrets ==> |w| <= |v|
    decreases |secrets|
  {
    var v :| v in secrets;
    if secrets != {v} {
      LongestExists(secrets - {v});
      var u :| u in secrets - {v} && forall w :: w in secrets - {v} ==> |w| <= |u|;
      var longest := if |v| >= |u| then v else u;
      assert forall w :: w in secrets ==> w == v || w in secrets - {v};
      assert longest in secrets && forall w :: w in secrets ==> |w| <= |longest|;
    }
  }

  lemma NextLongest(order: seq<string>, done: set<string>, v: string)
    requires LongestFirst(order, done) && NoneEmpty(order) && v !in done && v != ""
    requires forall w :: w in done ==> |w| >= |v|
    ensures LongestFirst(order + [v], done + {v}) && NoneEmpty(order + [v])
  {
    assert forall i :: 0 <= i < |order| ==> order[i] in done;
  }

  /** Secrets of one length come in an order that is not fixed. Whatever it is, no secret that
      cannot overlap the placeholder is left, and a text without secrets is returned as it is. */
  method RedactSecrets(text: string, secrets: set<string>) returns (redacted: string)
    ensures exists order ::
      LongestFirst(order, Wanted(secrets)) && NoneEmpty(order) && redacted == RedactAll(text, order)
    ensures forall d :: d in secrets && Clear(d) ==> !Occurs(d, redacted)
    ensures (forall d :: d in Wanted(secrets) ==> !Occurs(d, text)) ==> redacted == text
  {
    ghost var order: seq<string>;
    redacted, order := RedactInOrder(text, secrets);
    forall d | d in secrets && Clear(d)
      ensures !Occurs(d, redacted)
    {
      RedactedIsClean(text, secrets, order, d);
    }
    if forall d :: d in Wanted(secrets) ==> !Occurs(d, text) {
      assert forall i :: 0 <= i < |order| ==> order[i] in Wanted(secrets);
      CleanTextIsKept(text, order);
    }
  }

  /** The loop; `order` is the order taken. */
  method RedactInOrder(text: string, secrets: set<string>) returns (redacted: string, ghost order: seq<string>)
    ensures LongestFirst(order, Wanted(secrets)) && NoneEmpty(order)
    ensures redacted == RedactAll(text, order)
  {
    var left := Wanted(secrets);
    ghost var done: set<string> := {};
    redacted, order := text, [];
    while left != {}
      invariant done !! left && done + left == Wanted(secrets)
      invariant LongestFirst(order, done) && NoneEmpty(order)
      invariant forall v, w :: v in done && w in left ==> |v| >= |w|
      invariant redacted == RedactAll(text, order)
      decreases left
    {
      LongestExists(left);
      var v :| v in left && forall w :: w in left ==> |w| <= |v|;
      assert v in Wanted(secrets);
      RedactOneMore(text, order, v);
      NextLongest(order, done, v);
      if Occurs(v, redacted) {
        redacted := Replace(redacted, v, PLACEHOLDER);
      } else {
        ReplaceAbsent(redacted, v, PLACEHOLDER);
      }
      order, done, left := order + [v], done + {v}, left - {v};
    }
    assert done == Wanted(secrets);
  }

  lemma {:induction false} RedactOneMore(text: string, order: seq<string>, v: string)
    requires v != "" && NoneEmpty(order)
    ensures RedactAll(text, order + [v]) == Replace(RedactAll(text, order), v, PLACEHOLDER)
    decreases |order|
  {
    if order == [] {
      assert (order + [v])[1..] == [];
      assert RedactAll(Replace(text, v, PLACEHOLDER), []) == Replace(text, v, PLACEHOLDER);
    } else {
      assert (order + [v])[1..] == order[1..] + [v];
      RedactOneMore(Replace(text, order[0], PLACEHOLDER), order[1..], v);
    }
  }

  lemma {:induction false} ReplaceAbsent(text: string, v: string, after: string)
    requires v != "" && !Occurs(v, text)
    ensures Replace(text, v, after) == text
    decreases |text|
  {
    if text != [] {
      assert v <= text ==> At(v, text, 0);
      if Occurs(v, text[1..]) {
        OccursInTail(v, text, 1);
      }
      ReplaceAbsent(text[1..], v, after);
      assert [text[0]] + text[1..] == text;
    }
  }

  // ------------------------------------------------------------ nothing is left

  /** `part` is what the last n characters of `whole` are. */
  predicate EndsIn(whole: string, part: string) {
    |part| <= |whole| && whole[|whole| - |part|..] == part
  }

  /** The text cannot overlap a placeholder, whatever stands around it: neither contains
      the other, and no end of one is a beginning of the other. */
  ghost predicate ClearOf(d: string, mark: string) {
    && d != ""
    && !Occurs(d, mark)
    && !Occurs(mark, d)
    && (forall x: string | x != "" :: !(EndsIn(d, x) && x <= mark))
    && (forall x: string | x != "" :: !(EndsIn(mark, x) && x <= d))
  }

  ghost predicate Clear(d: string) {
    ClearOf(d, PLACEHOLDER)
  }

  lemma Overlap(a: string, b: string, whole: string)
    requires a <= whole && b <= whole
    ensures a <= b || b <= a
  {
    if |a| <= |b| {
      assert a == whole[..|a|] == b[..|a|];
    } else {
      assert b == whole[..|b|] == a[..|b|];
    }
  }

  /** No end of a clear text begins a text that begins with the placeholder. */
  lemma ClearEndStaysOut(d: string, tail: string, mark: string, rest: string)
    requires ClearOf(d, mark) && EndsIn(d, tail) && tail != ""
    ensures !(tail <= mark + rest)
  {
    if tail <= mark + rest {
      Overlap(tail, mark, mark + rest);
      if mark <= tail {
        assert At(mark, tail, 0);
        OccursInTail(mark, d, |d| - |tail|);
      }
      assert false;
    }
  }

  /** An end of a clear text that begins the redacted text began the text. */
  lemma {:induction false} TailStays(text: string, v: string, mark: string, d: string, tail: string)
    requires v != "" && ClearOf(d, mark) && EndsIn(d, tail) && tail <= Replace(text, v, mark)
    ensures tail <= text
    decreases |text|
  {
    if text != [] && tail != "" {
      if v <= text {
        ClearEndStaysOut(d, tail, mark, Replace(text[|v|..], v, mark));
      } else {
        assert EndsIn(d, tail[1..]);
        assert tail[0] == text[0];
        TailStays(text[1..], v, mark, d, tail[1..]);
      }
    }
  }

  /** A clear text in a text that begins with the placeholder stands behind it. */
  lemma BehindPlaceholder(d: string, mark: string, rest: string, i: nat)
    requires ClearOf(d, mark) && At(d, mark + rest, i)
    ensures i >= |mark| && Occurs(d, rest)
  {
    var m := |mark|;
    var whole := mark + rest;
    if i < m {
      assert whole[i..] == mark[i..] + rest;
      StartsInside(d, mark, rest, i);
      assert false;
    }
    assert whole[m..] == rest;
    AtBehind(d, whole, m, i);
  }

  lemma StartsInside(d: string, mark: string, rest: string, i: nat)
    requires i < |mark| && At(d, mark + rest, i) && d != ""
    ensures !ClearOf(d, mark)
  {
    var whole := mark + rest;
    var x, tail := mark[i..], whole[i..];
    assert tail == x + rest;
    assert EndsIn(mark, x);
    SliceOfSlice(whole, i, |whole|, 0, |d|);
    assert whole[i..|whole|] == tail;
    assert d <= tail && x <= tail;
    Overlap(d, x, tail);
    if d <= x {
      assert At(d, x, 0);
      OccursInTail(d, mark, i);
    }
  }

  /** Redacting another text never makes a clear one appear, and redacting a clear one
      removes it. */
  lemma {:induction false} ReplaceMakesNone(text: string, v: string, mark: string, d: string)
    requires v != "" && ClearOf(d, mark) && Occurs(d, Replace(text, v, mark))
    ensures d != v && Occurs(d, text)
    decreases |text|
  {
    var result := Replace(text, v, mark);
    var i := Place(d, result);
    if v <= text {
      BehindPlaceholder(d, mark, Replace(text[|v|..], v, mark), i);
      ReplaceMakesNone(text[|v|..], v, mark, d);
      OccursInTail(d, text, |v|);
    } else if i == 0 {
      assert EndsIn(d, d) && d <= result;
      TailStays(text, v, mark, d, d);
      assert At(d, text, 0);
    } else {
      AtBehind(d, result, 1, i);
      assert result[1..] == Replace(text[1..], v, mark);
      ReplaceMakesNone(text[1..], v, mark, d);
      OccursInTail(d, text, 1);
    }
  }

  lemma {:induction false} NoneAppears(text: string, order: seq<string>, d: string)
    requires Clear(d) && NoneEmpty(order)
    requires Occurs(d, RedactAll(text, order))
    ensures d !in order && Occurs(d, text)
    decreases |order|
  {
    if order != [] {
      NoneAppears(Replace(text, order[0], PLACEHOLDER), order[1..], d);
      ReplaceMakesNone(text, order[0], PLACEHOLDER, d);
    }
  }

  /** No secret that is clear of the placeholder is left in the text, whatever the other
      secrets and their order. */
  lemma RedactedIsClean(text: string, secrets: set<string>, order: seq<string>, d: string)
    requires LongestFirst(order, Wanted(secrets)) && NoneEmpty(order)
    requires d in secrets && Clear(d)
    ensures !Occurs(d, RedactAll(text, order))
  {
    assert d in Wanted(secrets);
    if Occurs(d, RedactAll(text, order)) {
      NoneAppears(text, order, d);
    }
  }

  // ------------------------------------------------------------ secrets without a star

  predicate StarFree(d: string) {
    forall i :: 0 <= i < |d| ==> d[i] != '*'
  }

  lemma StarShows(d: string, x: string, i: nat, k: nat)
    requires At(x, d, i) && k < |x| && x[k] == '*'
    ensures !StarFree(d)
  {
    assert d[i + k] == '*';
  }

  lemma WordInPlaceholder(d: string)
    requires Occurs(d, WORD)
    ensures Occurs(d, PLACEHOLDER)
  {
    var i := Place(d, WORD);
    assert PLACEHOLDER[3..11] == WORD;
    assert PLACEHOLDER[3..][i..i + |d|] == WORD[i..i + |d|];
    assert At(d, PLACEHOLDER[3..], i);
    OccursInTail(d, PLACEHOLDER, 3);
  }

  /** What stands in a text between two runs of stars, and has none, stands in the text. */
  lemma BetweenStars(d: string, word: string, i: nat)
    requires d != "" && StarFree(d) && At(d, "***" + word + "***", i)
    ensures Occurs(d, word)
  {
    var whole, n := "***" + word + "***", 3 + |word|;
    var last: nat := |d| - 1;
    AtElement(d, whole, i, 0);
    AtElement(d, whole, i, last);
    assert forall k :: (0 <= k < 3 || n <= k < n + 3) ==> whole[k] == '*';
    assert 3 <= i && i + |d| <= n;
    AtInFront(d, whole, n, i);
    AtBehind(d, whole[..n], 3, i);
    assert whole[..n][3..] == word;
  }

  lemma InPlaceholder(d: string, i: nat)
    requires d != "" && At(d, PLACEHOLDER, i)
    ensures !StarFree(d) || Occurs(d, WORD)
  {
    assert PLACEHOLDER == "***" + WORD + "***";
    if StarFree(d) {
      BetweenStars(d, WORD, i);
    }
  }

  lemma StarFreeIsClear(d: string)
    requires d != "" && StarFree(d) && !Occurs(d, WORD)
    ensures Clear(d)
  {
    if Occurs(d, PLACEHOLDER) {
      InPlaceholder(d, Place(d, PLACEHOLDER));
    }
    if Occurs(PLACEHOLDER, d) {
      StarShows(d, PLACEHOLDER, Place(PLACEHOLDER, d), 0);
    }
    forall x: string | x != ""
      ensures !(EndsIn(d, x) && x <= PLACEHOLDER) && !(EndsIn(PLACEHOLDER, x) && x <= d)
    {
      if EndsIn(d, x) && x <= PLACEHOLDER {
        StarShows(d, x, |d| - |x|, 0);
      }
      if EndsIn(PLACEHOLDER, x) && x <= d {
        StarShows(d, x, 0, |x| - 1);
      }
    }
  }

  // ------------------------------------------------------------ exactly when nothing is left

  /** A secret of the placeholder's word, once found, stays in the text. */
  lemma {:induction false} PlaceholderStays(order: seq<string>)
    requires NoneEmpty(order)
    requires forall i :: 0 <= i < |order| ==> !Occurs(order[i], PLACEHOLDER)
    ensures RedactAll(PLACEHOLDER, order) == PLACEHOLDER
    decreases |order|
  {
    if order != [] {
      ReplaceAbsent(PLACEHOLDER, order[0], PLACEHOLDER);
      PlaceholderStays(order[1..]);
    }
  }

  lemma ReplaceWhole(v: string, after: string)
    requires v != ""
    ensures Replace(v, v, after) == after
  {
    assert v[|v|..] == [];
    assert Replace(v[|v|..], v, after) == [];
  }

  /** The text that is the secret at k becomes the placeholder when no earlier secret is in
      it and no later one is in the placeholder. */
  lemma {:induction false} SecretBecomesPlaceholder(order: seq<string>, k: nat)
    requires NoneEmpty(order) && k < |order|
    requires forall i :: 0 <= i < k ==> !Occurs(order[i], order[k])
    requires forall i :: k < i < |order| ==> !Occurs(order[i], PLACEHOLDER)
    ensures RedactAll(order[k], order) == PLACEHOLDER
    decreases k
  {
    if k == 0 {
      ReplaceWhole(order[0], PLACEHOLDER);
      PlaceholderStays(order[1..]);
    } else {
      ReplaceAbsent(order[k], order[0], PLACEHOLDER);
      SecretBecomesPlaceholder(order[1..], k - 1);
    }
  }

  /** A text no shorter than the whole is in it only if it is the whole. */
  lemma LongerDoesNotOccur(part: string, whole: string)
    requires part != whole && |part| >= |whole|
    ensures !Occurs(part, whole)
  {
    if Occurs(part, whole) {
      var i := Place(part, whole);
    }
  }

  /** The last secret in the order that stands in the placeholder's word. */
  lemma {:induction false} LastInWord(order: seq<string>, j: nat) returns (k: nat)
    requires j < |order| && Occurs(order[j], WORD)
    ensures j <= k < |order| && Occurs(order[k], WORD)
    ensures forall i :: k < i < |order| ==> !Occurs(order[i], WORD)
    decreases |order| - j
  {
    k := j;
    if i :| j < i < |order| && Occurs(order[i], WORD) {
      k := LastInWord(order, i);
    }
  }

  /** Some text keeps a secret if one of them stands in the placeholder's word. */
  lemma WordSecretStays(order: seq<string>, texts: set<string>, j: nat) returns (text: string)
    requires LongestFirst(order, texts) && NoneEmpty(order)
    requires forall i :: 0 <= i < |order| ==> StarFree(order[i])
    requires j < |order| && Occurs(order[j], WORD)
    ensures text in texts && Occurs(text, RedactAll(text, order))
  {
    var k := LastInWord(order, j);
    text := order[k];
    forall i | 0 <= i < k
      ensures !Occurs(order[i], order[k])
    {
      LongerDoesNotOccur(order[i], order[k]);
    }
    forall i | k < i < |order|
      ensures !Occurs(order[i], PLACEHOLDER)
    {
      if Occurs(order[i], PLACEHOLDER) {
        InPlaceholder(order[i], Place(order[i], PLACEHOLDER));
      }
    }
    SecretBecomesPlaceholder(order, k);
    WordInPlaceholder(text);
  }

  /** No secret is left, whatever the text. */
  ghost predicate AlwaysClean(order: seq<string>, secrets: set<string>)
    requires NoneEmpty(order)
  {
    forall text: string, d :: d in Wanted(secrets) ==> !Occurs(d, RedactAll(text, order))
  }

  /** For secrets without a star, redaction leaves none of them in any text exactly if none
      stands in the word REDACTED. */
  lemma CleanIff(secrets: set<string>, order: seq<string>)
    requires LongestFirst(order, Wanted(secrets)) && NoneEmpty(order)
    requires forall d :: d in Wanted(secrets) ==> StarFree(d)
    ensures AlwaysClean(order, secrets) <==> forall d :: d in Wanted(secrets) ==> !Occurs(d, WORD)
  {
    if forall d :: d in Wanted(secrets) ==> !Occurs(d, WORD) {
      forall text: string, d | d in Wanted(secrets)
        ensures !Occurs(d, RedactAll(text, order))
      {
        StarFreeIsClear(d);
        RedactedIsClean(text, secrets, order, d);
      }
    } else {
      var d :| d in Wanted(secrets) && Occurs(d, WORD);
      var j :| 0 <= j < |order| && order[j] == d;
      assert forall i :: 0 <= i < |order| ==> order[i] in Wanted(secrets);
      var text := WordSecretStays(order, Wanted(secrets), j);
      assert !AlwaysClean(order, secrets);
    }
  }

  // ------------------------------------------------------------ secrets with a star

  /** n times the character. */
  function Run(c: char, n: nat): (r: string)
    ensures |r| == n && forall i :: 0 <= i < n ==> r[i] == c
  {
    seq(n, i => c)
  }

  /** A run of a character that the text does not start or end with hides the text: it does
      not occur around a run as long as itself. */
  lemma RunHides(d: string, c: char, u: string, w: string)
    requires d != "" && |u| < |d| && |w| < |d| && c != d[0] && c != d[|d| - 1]
    ensures !Occurs(d, u + Run(c, |d|) + w)
  {
    var whole := u + Run(c, |d|) + w;
    forall i: nat | i + |d| <= |whole|
      ensures !At(d, whole, i)
    {
      var first: nat, last: nat := 0, |d| - 1;
      assert if i <= |u| then whole[i + last] == c else whole[i] == c;
      if At(d, whole, i) {
        AtElement(d, whole, i, first);
        AtElement(d, whole, i, last);
      }
    }
  }

  /** Replacing the run finds it where it stands and nowhere else. */
  lemma {:induction false} ReplaceRun(c: char, n: nat, u: string, w: string, after: string)
    requires |u| < n && |w| < n && (u != "" ==> u[|u| - 1] != c)
    ensures Replace(u + Run(c, n) + w, Run(c, n), after) == u + after + w
    decreases |u|
  {
    var run := Run(c, n);
    var whole := u + run + w;
    if u == "" {
      assert whole[n..] == w;
      ShortHasNone(w, run);
      ReplaceAbsent(w, run, after);
      assert u + after + w == after + w;
    } else {
      var k: nat := |u| - 1;
      assert run[k] == c && whole[k] != c;
      assert whole[1..] == u[1..] + run + w;
      ReplaceRun(c, n, u[1..], w, after);
      assert [u[0]] + (u[1..] + after + w) == u + after + w;
    }
  }

  lemma ShortHasNone(text: string, part: string)
    requires |text| < |part|
    ensures !Occurs(part, text)
  {
  }

  lemma OtherChar(a: char, b: char, c: char) returns (x: char)
    ensures x != a && x != b && x != c
  {
    x := if 'w' !in {a, b, c} then 'w' else if 'x' !in {a, b, c} then 'x' else if 'y' !in {a, b, c} then 'y' else 'z';
  }

  /** The secret is left in the text, redacted in this order. */
  ghost predicate Survives(d: string, text: string, secrets: set<string>, order: seq<string>) {
    && d in secrets && LongestFirst(order, Wanted(secrets)) && NoneEmpty(order)
    && Occurs(d, RedactAll(text, order))
  }

  /** If the secret stands in some surroundings of the placeholder that are shorter than
      itself, another secret can put it there. */
  lemma Planted(d: string, u: string, w: string) returns (text: string, secrets: set<string>, order: seq<string>)
    requires d != "" && |u| < |d| && |w| < |d| && Occurs(d, u + PLACEHOLDER + w)
    ensures Survives(d, text, secrets, order)
  {
    var c := OtherChar(d[0], d[|d| - 1], if u == "" then d[0] else u[|u| - 1]);
    var run := Run(c, |d|);
    text := u + run + w;
    secrets, order := {d, run}, [d, run];
    assert run[0] != d[0];
    RunHides(d, c, u, w);
    ReplaceAbsent(text, d, PLACEHOLDER);
    ReplaceRun(c, |d|, u, w, PLACEHOLDER);
    RedactTwo(text, d, run);
  }

  lemma RedactTwo(text: string, a: string, b: string)
    requires a != "" && b != ""
    ensures NoneEmpty([a, b])
    ensures RedactAll(text, [a, b]) == Replace(Replace(text, a, PLACEHOLDER), b, PLACEHOLDER)
  {
    var order := [a, b];
    var once := Replace(text, a, PLACEHOLDER);
    assert order[1..] == [b] && [b][1..] == [];
    assert RedactAll(once, [b]) == RedactAll(Replace(once, b, PLACEHOLDER), []);
  }

  /** A secret in the placeholder itself survives alone. */
  lemma InPlaceholderSurvives(d: string)
    requires d != "" && Occurs(d, PLACEHOLDER)
    ensures Survives(d, d, {d}, [d])
  {
    ReplaceWhole(d, PLACEHOLDER);
    assert [d][1..] == [];
    assert RedactAll(d, [d]) == RedactAll(PLACEHOLDER, []);
  }

  /** A secret that is not clear survives in some text, among some secrets. */
  lemma NotClearSurvives(d: string) returns (text: string, secrets: set<string>, order: seq<string>)
    requires d != "" && !Clear(d)
    ensures Survives(d, text, secrets, order)
  {
    if Occurs(d, PLACEHOLDER) {
      InPlaceholderSurvives(d);
      text, secrets, order := d, {d}, [d];
    } else if Occurs(PLACEHOLDER, d) {
      var i := Place(PLACEHOLDER, d);
      var u, w := d[..i], d[i + |PLACEHOLDER|..];
      assert d == u + PLACEHOLDER + w;
      assert At(d, u + PLACEHOLDER + w, 0);
      text, secrets, order := Planted(d, u, w);
    } else if x: string :| x != "" && EndsIn(d, x) && x <= PLACEHOLDER {
      text, secrets, order := EndSurvives(d, x);
    } else {
      var x: string :| x != "" && EndsIn(PLACEHOLDER, x) && x <= d;
      text, secrets, order := BeginningSurvives(d, x);
    }
  }

  /** A text stands where its end begins the placeholder. */
  lemma EndStands(d: string, x: string, mark: string)
    requires EndsIn(d, x) && x <= mark
    ensures Occurs(d, d[..|d| - |x|] + mark + "")
  {
    var u := d[..|d| - |x|];
    var whole := u + mark + "";
    assert d == u + x && whole == u + mark;
    assert d <= whole;
    assert At(d, whole, 0);
  }

  /** A text stands where its beginning ends the placeholder. */
  lemma BeginningStands(d: string, x: string, mark: string)
    requires EndsIn(mark, x) && x <= d
    ensures Occurs(d, "" + mark + d[|x|..])
  {
    var m := |mark| - |x|;
    var whole := "" + mark + d[|x|..];
    assert whole[m..] == x + d[|x|..] == d;
    assert At(d, whole[m..], 0);
    OccursInTail(d, whole, m);
  }

  lemma EndSurvives(d: string, x: string) returns (text: string, secrets: set<string>, order: seq<string>)
    requires x != "" && EndsIn(d, x) && x <= PLACEHOLDER && !Occurs(d, PLACEHOLDER)
    ensures Survives(d, text, secrets, order)
  {
    EndStands(d, x, PLACEHOLDER);
    text, secrets, order := Planted(d, d[..|d| - |x|], "");
  }

  lemma BeginningSurvives(d: string, x: string) returns (text: string, secrets: set<string>, order: seq<string>)
    requires x != "" && EndsIn(PLACEHOLDER, x) && x <= d && !Occurs(d, PLACEHOLDER)
    ensures Survives(d, text, secrets, order)
  {
    BeginningStands(d, x, PLACEHOLDER);
    text, secrets, order := Planted(d, "", d[|x|..]);
  }

  /** For every secret, starred or not: it is left in no text, whatever the other secrets and
      their order, if and only if it cannot overlap the placeholder. */
  lemma NeverSurvivesIff(d: string)
    requires d != ""
    ensures (forall text, secrets, order :: !Survives(d, text, secrets, order)) <==> Clear(d)
  {
    if Clear(d) {
      forall text, secrets, order
        ensures !Survives(d, text, secrets, order)
      {
        if d in secrets && LongestFirst(order, Wanted(secrets)) && NoneEmpty(order) {
          RedactedIsClean(text, secrets, order, d);
        }
      }
    } else {
      var text, secrets, order := NotClearSurvives(d);
    }
  }

  /** A secret with a star can survive: its tail may come from the placeholder. */
  lemma StarredSecretSurvives()
    ensures LongestFirst(["a*", "b"], {"a*", "b"})
    ensures RedactAll("ab", ["a*", "b"]) == "a***REDACTED***"
    ensures Occurs("a*", RedactAll("ab", ["a*", "b"]))
  {
    var order := ["a*", "b"];
    var text := "ab";
    assert "a*"[1] != text[1];
    assert !("a*" <= text) && text[1..] == "b" && !("a*" <= "b") && "b"[1..] == "";
    assert Replace("b", "a*", PLACEHOLDER) == ['b'] + Replace("", "a*", PLACEHOLDER) == "b";
    assert Replace(text, "a*", PLACEHOLDER) == ['a'] + Replace("b", "a*", PLACEHOLDER) == "ab";
    ReplaceWhole("b", PLACEHOLDER);
    assert !("b" <= text);
    assert Replace(text, "b", PLACEHOLDER) == ['a'] + PLACEHOLDER == "a***REDACTED***";
    assert order[1..] == ["b"] && order[1..][1..] == [];
    assert RedactAll(text, ["b"]) == "a***REDACTED***";
    var result := "a***REDACTED***";
    assert result[0..2] == "a*";
    assert At("a*", result, 0);
  }

  /** A text without secrets is left as it is. */
  lemma {:induction false} CleanTextIsKept(text: string, order: seq<string>)
    requires NoneEmpty(order) && forall i :: 0 <= i < |order| ==> !Occurs(order[i], text)
    ensures RedactAll(text, order) == text
    decreases |order|
  {
    if order != [] {
      ReplaceAbsent(text, order[0], PLACEHOLDER);
      CleanTextIsKept(text, order[1..]);
    }
  }
}
