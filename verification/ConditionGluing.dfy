/**
 What stripping does to joined texts: a list whose ends are not blank is read back up to
 blanks, and of a separator at the end of a text its word is left and glued to its
 neighbour.
 */
module ConditionGluing {
  import opened Text
  import opened Conditions

  // ------------------------------------------------------------ stripping a joined text

  lemma {:induction false} StripBack(x: string)
    requires x != "" && Blank(x[|x| - 1])
    ensures Strip(x) == Strip(x[..|x| - 1])
    decreases |x|
  {
    if |x| > 1 && Blank(x[0]) {
      StripBack(x[1..]);
      assert x[1..][..|x[1..]| - 1] == x[..|x| - 1][1..];
    }
  }

  lemma JoinFront(parts: seq<string>, sep: string)
    requires |parts| > 1 && parts[0] != ""
    ensures Join(parts, sep) != "" && Join(parts, sep)[0] == parts[0][0]
    ensures Join(parts, sep)[1..] == Join(parts[0 := parts[0][1..]], sep)
  {
    assert parts[0 := parts[0][1..]][1..] == parts[1..];
  }

  /** Appending to a joined text is appending to its last part. */
  lemma {:induction false} JoinAppend(parts: seq<string>, sep: string, tail: string)
    requires parts != []
    ensures Join(parts, sep) + tail == Join(parts[|parts| - 1 := parts[|parts| - 1] + tail], sep)
    decreases |parts|
  {
    if |parts| > 1 {
      var longer := parts[|parts| - 1 := parts[|parts| - 1] + tail];
      JoinAppend(parts[1..], sep, tail);
      assert longer[1..] == parts[1..][|parts[1..]| - 1 := parts[1..][|parts[1..]| - 1] + tail];
      assert parts[0] + sep + Join(parts[1..], sep) + tail == parts[0] + sep + (Join(parts[1..], sep) + tail);
    }
  }

  lemma JoinBack(parts: seq<string>, sep: string)
    requires parts != [] && parts[|parts| - 1] != ""
    ensures var t, last := Join(parts, sep), parts[|parts| - 1];
      && t != "" && t[|t| - 1] == last[|last| - 1]
      && t[..|t| - 1] == Join(parts[|parts| - 1 := last[..|last| - 1]], sep)
  {
    var n := |parts| - 1;
    var last := parts[n];
    var shorter := parts[n := last[..|last| - 1]];
    JoinAppend(shorter, sep, [last[|last| - 1]]);
    assert shorter[n := shorter[n] + [last[|last| - 1]]] == parts by {
      assert last[..|last| - 1] + [last[|last| - 1]] == last;
    }
  }

  /** An empty last part leaves its separator at the end. */
  lemma JoinTrailing(parts: seq<string>, sep: string)
    requires |parts| > 1 && parts[|parts| - 1] == ""
    ensures Join(parts, sep) == Join(parts[..|parts| - 1], sep) + sep
    decreases |parts|
  {
    if |parts| > 2 {
      JoinTrailing(parts[1..], sep);
      assert parts[1..][..|parts[1..]| - 1] == parts[..|parts| - 1][1..];
    } else {
      assert parts[1..] == [""];
    }
  }

  predicate SolidEnds(parts: seq<string>) {
    |parts| == 1 || (|parts| > 1 && Strip(parts[0]) != "" && Strip(parts[|parts| - 1]) != "")
  }

  lemma FrontSplittable(parts: seq<string>, sep: string)
    requires |parts| > 1 && parts[0] != "" && Splittable(parts, sep)
    ensures Splittable(parts[0 := parts[0][1..]], sep)
  {
    var x, y := parts[0] + " ", parts[0][1..] + " ";
    assert x[1..] == y;
    if Occurs(sep, y) {
      OccursInTail(sep, x, 1);
    }
  }

  lemma BackSplittable(parts: seq<string>, sep: string)
    requires |parts| > 1 && parts[|parts| - 1] != "" && Splittable(parts, sep)
    ensures var last := parts[|parts| - 1]; Splittable(parts[|parts| - 1 := last[..|last| - 1]], sep)
  {
    var last := parts[|parts| - 1];
    var y := last[..|last| - 1];
    if Occurs(sep, y) {
      assert last == "" + y + last[|last| - 1..];
      OccursBetween("", y, last[|last| - 1..]);
      OccursWithin(sep, y, last);
    }
  }

  /** A joined list whose ends are not blank is read back up to blanks. */
  lemma {:induction false} ReadBack(parts: seq<string>, sep: string)
    requires IsSeparator(sep) && Splittable(parts, sep) && SolidEnds(parts)
    ensures StripAll(Split(Strip(Join(parts, sep)), sep)) == StripAll(parts)
    decreases Lengths(parts)
  {
    if |parts| == 1 {
      ReadOne(parts[0], sep);
    } else if Blank(parts[0][0]) {
      var shorter := parts[0 := parts[0][1..]];
      JoinFront(parts, sep);
      FrontSplittable(parts, sep);
      ReadBack(shorter, sep);
    } else {
      ReadBackHeaded(parts, sep);
    }
  }

  function Lengths(parts: seq<string>): (n: nat) {
    if parts == [] then 0 else |parts[0]| + |parts[|parts| - 1]|
  }

  lemma ReadOne(part: string, sep: string)
    requires sep != "" && !Occurs(sep, part)
    ensures StripAll(Split(Strip(part), sep)) == StripAll([part])
  {
    assert part[0..|part|] == part;
    assert At(part, part, 0);
    StaysFree(sep, part, part);
    SplitWithout(Strip(part), sep);
    assert Strip(Strip(part)) == Strip(part);
  }

  lemma {:induction false} ReadBackHeaded(parts: seq<string>, sep: string)
    requires IsSeparator(sep) && Splittable(parts, sep) && SolidEnds(parts)
    requires |parts| > 1 && !Blank(parts[0][0])
    ensures StripAll(Split(Strip(Join(parts, sep)), sep)) == StripAll(parts)
    decreases |parts[|parts| - 1]|
  {
    var n := |parts| - 1;
    var last := parts[n];
    if Blank(last[|last| - 1]) {
      var shorter := parts[n := last[..|last| - 1]];
      StripsAlike(parts, sep, shorter);
      BackSplittable(parts, sep);
      ReadBackHeaded(shorter, sep);
    } else {
      TrimmedJoin(parts, sep);
      SplitJoin(parts, sep);
    }
  }

  lemma TrimmedJoin(parts: seq<string>, sep: string)
    requires |parts| > 1 && parts[0] != "" && parts[|parts| - 1] != ""
    requires !Blank(parts[0][0]) && !Blank(parts[|parts| - 1][|parts[|parts| - 1]| - 1])
    ensures Strip(Join(parts, sep)) == Join(parts, sep)
  {
    JoinBack(parts, sep);
    JoinFront(parts, sep);
  }

  /** Dropping a blank from the end of the last part changes nothing once stripped. */
  lemma StripsAlike(parts: seq<string>, sep: string, shorter: seq<string>)
    requires parts != []
    requires var last := parts[|parts| - 1];
      last != "" && Blank(last[|last| - 1]) && shorter == parts[|parts| - 1 := last[..|last| - 1]]
    ensures Strip(Join(parts, sep)) == Strip(Join(shorter, sep))
    ensures StripAll(parts) == StripAll(shorter)
    ensures Strip(shorter[|parts| - 1]) == Strip(parts[|parts| - 1])
  {
    JoinBack(parts, sep);
    StripBack(Join(parts, sep));
    StripBack(parts[|parts| - 1]);
  }

  // ------------------------------------------------------------ glued words

  /** The text ends in the word, alone or behind a space. */
  lemma EndsInWord(p: string, word: string, sep: string)
    requires sep == " " + word + " " && word != "" && Trimmed(word) && Trimmed(p)
    ensures !Apart(Strip(p + " " + word), sep)
  {
    var x := p + " " + word;
    if p == "" {
      assert x[0] == ' ' && x[1..] == word;
      assert Strip(x) == word;
      assert Padded(word) == "" + sep + "";
      OccursBetween("", sep, "");
    } else {
      assert Strip(x) == x;
      assert Padded(x) == (" " + p) + sep + "";
      OccursBetween(" " + p, sep, "");
    }
  }

  lemma NoSeparatorInTail(p: string, word: string, sep: string)
    requires IsSeparator(sep) && !Occurs(sep, p + " ") && forall i :: 0 <= i < |word| ==> word[i] != ' '
    ensures !Occurs(sep, p + " " + word)
  {
    var whole := p + " " + word;
    var n := |p| + 1;
    assert whole[..n] == p + " ";
    if Occurs(sep, whole) {
      var i := Place(sep, whole);
      var last: nat := |sep| - 1;
      AtElement(sep, whole, i, last);
      assert forall k :: n <= k < |whole| ==> whole[k] == word[k - n];
      AtInFront(sep, whole, n, i);
    }
  }

  /** A word behind a conjunction is glued to its last atom. */
  lemma GluedTail(g: seq<string>, word: string, sep: string)
    requires g != [] && Neat(g, AND) && (|g| > 1 ==> g[0] != "")
    requires sep == " " + word + " " && word != "" && Trimmed(word) && forall i :: 0 <= i < |word| ==> word[i] != ' '
    ensures var x, k := ReadConjunction(Join(g, AND) + " " + word), |g| - 1;
      |x| == |g| && x[..k] == g[..k] && !Apart(x[k], sep)
  {
    var k := |g| - 1;
    var parts := g[k := g[k] + " " + word];
    GluedText(g, word);
    ReadGlued(g, word, parts);
    EndsInWord(g[k], word, sep);
  }

  lemma GluedText(g: seq<string>, word: string)
    requires g != []
    ensures Join(g, AND) + " " + word == Join(g[|g| - 1 := g[|g| - 1] + " " + word], AND)
  {
    var k := |g| - 1;
    JoinAppend(g, AND, " " + word);
    assert g[k] + (" " + word) == g[k] + " " + word;
    assert Join(g, AND) + (" " + word) == Join(g, AND) + " " + word;
  }

  lemma ReadGlued(g: seq<string>, word: string, parts: seq<string>)
    requires g != [] && Neat(g, AND) && (|g| > 1 ==> g[0] != "")
    requires word != "" && Trimmed(word) && forall i :: 0 <= i < |word| ==> word[i] != ' '
    requires parts == g[|g| - 1 := g[|g| - 1] + " " + word]
    ensures var x, k := ReadConjunction(Join(parts, AND)), |g| - 1;
      |x| == |g| && x[..k] == g[..k] && x[k] == Strip(parts[k])
  {
    var k := |g| - 1;
    TailSplittable(g, word);
    NotAllBlank(parts[k], |parts[k]| - 1);
    ReadBack(parts, AND);
    assert forall i :: 0 <= i < k ==> parts[i] == g[i] && Strip(g[i]) == g[i];
  }

  lemma TailSplittable(g: seq<string>, word: string)
    requires g != [] && Neat(g, AND) && forall i :: 0 <= i < |word| ==> word[i] != ' '
    ensures Splittable(g[|g| - 1 := g[|g| - 1] + " " + word], AND)
  {
    ApartIsFree(g[|g| - 1], AND);
    NoSeparatorInTail(g[|g| - 1], word, AND);
    forall i | 0 <= i < |g| - 1
      ensures !Occurs(AND, g[i] + " ")
    {
      ApartIsFree(g[i], AND);
    }
  }

  /** A conjunction of several that ends in an empty atom. */
  lemma TrailingGroup(g: seq<string>)
    requires |g| > 1 && Neat(g, AND) && g[0] != "" && g[|g| - 1] == ""
    ensures var x, m := ReadConjunction(Join(g, AND)), |g| - 2;
      |x| == m + 1 && x[..m] == g[..m] && !Apart(x[m], AND)
  {
    var front := g[..|g| - 1];
    JoinTrailing(g, AND);
    SeparatorBehind(Join(front, AND), "and", AND);
    GluedTail(front, "and", AND);
    assert front[..|g| - 2] == g[..|g| - 2];
  }

  /** Of a separator at the end of a text only its word is left. */
  lemma SeparatorBehind(text: string, word: string, sep: string)
    requires sep == " " + word + " "
    ensures Strip(text + sep) == Strip(text + " " + word)
  {
    var whole, front := text + sep, text + " " + word;
    assert whole == front + " " && whole[..|whole| - 1] == front;
    StripBack(whole);
  }

  // ------------------------------------------------------------ words in front

  /** The text is the word, or starts with it and a space. */
  predicate StartsWith(x: string, word: string) {
    word <= x && (|x| == |word| || x[|word|] == ' ')
  }

  lemma PrefixStarts(y: string, x: string, word: string)
    requires StartsWith(x, word) && y <= x && |y| >= |word|
    ensures StartsWith(y, word)
  {
  }

  lemma {:induction false} StripIsPrefix(x: string, i: nat)
    requires i < |x| && !Blank(x[0]) && !Blank(x[i])
    ensures Strip(x) <= x && |Strip(x)| > i
    decreases |x|
  {
    if Blank(x[|x| - 1]) {
      StripIsPrefix(x[..|x| - 1], i);
    }
  }

  lemma {:induction false} FirstPartIsLong(x: string, sep: string, n: nat)
    requires IsSeparator(sep) && n <= |x| && forall i :: 0 <= i < n ==> x[i] != ' '
    ensures |Split(x, sep)[0]| >= n
    decreases n
  {
    if n > 0 {
      FirstPartIsLong(x[1..], sep, n - 1);
    }
  }

  predicate Word(w: string) {
    w != "" && forall i :: 0 <= i < |w| ==> !Blank(w[i]) && w[i] != ' '
  }

  /** Reading keeps a word at the front of a text at the front of its first part. */
  lemma FirstPartStartsWith(x: string, sep: string, word: string)
    requires IsSeparator(sep) && Word(word) && StartsWith(x, word)
    ensures StartsWith(Strip(x), word)
    ensures StartsWith(Split(x, sep)[0], word)
  {
    StripIsPrefix(x, |word| - 1);
    PrefixStarts(Strip(x), x, word);
    FirstPartIsPrefix(x, sep);
    FirstPartIsLong(x, sep, |word|);
    PrefixStarts(Split(x, sep)[0], x, word);
  }

  lemma ReadStartsWith(text: string, word: string)
    requires Word(word) && StartsWith(Strip(text), word)
    ensures StartsWith(ReadConjunction(text)[0], word)
  {
    var u := Strip(text);
    FirstPartStartsWith(u, AND, word);
    FirstPartStartsWith(Split(u, AND)[0], AND, word);
  }

  lemma StartsWithWordIsNotPlain(x: string, word: string)
    requires StartsWith(x, word) && (word == "or" || word == "and")
    ensures !Plain(x)
  {
    var sep := " " + word + " ";
    assert sep == OR || sep == AND;
    var padded := Padded(x);
    assert sep <= padded;
    assert At(sep, padded, 0);
  }

  lemma HeadText(g: seq<string>, tail: string)
    requires |g| > 1 && g[0] == ""
    ensures !Plain(ReadConjunction(Join(g, AND) + tail)[0])
  {
    var rest := Join(g[1..], AND) + tail;
    JoinLeading(g, tail, rest);
    SeparatorInFront("and", rest, AND);
    ReadStartsWith(AND + rest, "and");
    StartsWithWordIsNotPlain(ReadConjunction(AND + rest)[0], "and");
  }

  lemma JoinLeading(g: seq<string>, tail: string, rest: string)
    requires |g| > 1 && g[0] == "" && rest == Join(g[1..], AND) + tail
    ensures Join(g, AND) + tail == AND + rest
  {
    assert Join(g, AND) == AND + Join(g[1..], AND);
  }

  /** Of a separator in front of a text its word is left. */
  lemma SeparatorInFront(word: string, rest: string, sep: string)
    requires IsSeparator(sep) && sep == " " + word + " " && Word(word)
    ensures StartsWith(Strip(sep + rest), word)
  {
    var whole, u := sep + rest, word + " " + rest;
    assert whole[0] == ' ' && whole[1..] == u;
    assert StartsWith(u, word);
    FirstPartStartsWith(u, sep, word);
  }
}
