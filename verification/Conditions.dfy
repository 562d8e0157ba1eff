/**
 The condition language: atoms joined by " and " and " or ", the latter binding weaker.
 What an atom means is a parameter; here it is the combinators that matter: which atoms
 are evaluated, in which order, and which parse error comes out.
 */
module Conditions {
  import opened Text

  const OR := " or "
  const AND := " and "

  /** A truth value, or the text that could not be parsed. */
  datatype Outcome = Value(b: bool) | Unparseable(text: string)

  /** Evaluation of one atom. */
  type Atom = string -> Outcome

  function Evaluate(condition: string, atom: Atom): Outcome
    decreases |condition|, 1, 0
  {
    var c := Strip(condition);
    if Occurs(OR, c) then
      AllShorter(c, OR);
      AnyOf(Split(c, OR), atom, |condition|)
    else if Occurs(AND, c) then
      AllShorter(c, AND);
      AllOf(Split(c, AND), atom, |condition|)
    else atom(c)
  }

  /** any(...): the parts in order, up to the first that is true or raises. */
  function AnyOf(parts: seq<string>, atom: Atom, bound: nat): Outcome
    requires forall i :: 0 <= i < |parts| ==> |parts[i]| < bound
    decreases bound, 0, |parts|
  {
    if parts == [] then Value(false)
    else
      var first := Evaluate(Strip(parts[0]), atom);
      if first == Value(false) then AnyOf(parts[1..], atom, bound) else first
  }

  /** all(...): the parts in order, up to the first that is false or raises. */
  function AllOf(parts: seq<string>, atom: Atom, bound: nat): Outcome
    requires forall i :: 0 <= i < |parts| ==> |parts[i]| < bound
    decreases bound, 0, |parts|
  {
    if parts == [] then Value(true)
    else
      var first := Evaluate(Strip(parts[0]), atom);
      if first == Value(true) then AllOf(parts[1..], atom, bound) else first
  }

  lemma AllShorter(c: string, sep: string)
    requires sep != "" && Occurs(sep, c)
    ensures forall i :: 0 <= i < |Split(c, sep)| ==> |Split(c, sep)[i]| < |c|
  {
    forall i | 0 <= i < |Split(c, sep)|
      ensures |Split(c, sep)[i]| < |c|
    {
      PartsAreShorter(c, sep, i);
    }
  }

  // ------------------------------------------------------------ what a condition means

  /** A disjunction of conjunctions of atoms. */
  type Expr = seq<seq<string>>

  function Conjunction(atoms: seq<string>, atom: Atom): Outcome {
    if atoms == [] then Value(true)
    else
      var first := atom(atoms[0]);
      if first == Value(true) then Conjunction(atoms[1..], atom) else first
  }

  function Meaning(e: Expr, atom: Atom): Outcome {
    if e == [] then Value(false)
    else
      var first := Conjunction(e[0], atom);
      if first == Value(false) then Meaning(e[1..], atom) else first
  }

  /** The expression that a text is read as. */
  function StripAll(parts: seq<string>): (r: seq<string>)
    ensures |r| == |parts| && forall i :: 0 <= i < |r| ==> r[i] == Strip(parts[i])
  {
    seq(|parts|, i requires 0 <= i < |parts| => Strip(parts[i]))
  }

  function ReadConjunction(text: string): (r: seq<string>)
    ensures r != []
  {
    StripAll(Split(Strip(text), AND))
  }

  function ReadAll(parts: seq<string>): (r: Expr)
    ensures |r| == |parts| && forall i :: 0 <= i < |r| ==> r[i] == ReadConjunction(parts[i])
  {
    seq(|parts|, i requires 0 <= i < |parts| => ReadConjunction(parts[i]))
  }

  function Read(text: string): (r: Expr)
    ensures r != []
  {
    ReadAll(Split(Strip(text), OR))
  }

  // ------------------------------------------------------------ every text

  /** A part of the text without the separator has none either. */
  lemma StaysFree(sep: string, whole: string, part: string)
    requires !Occurs(sep, whole) && Occurs(part, whole)
    ensures !Occurs(sep, part) && !Occurs(sep, Strip(part))
  {
    if Occurs(sep, part) {
      OccursWithin(sep, part, whole);
    }
    if Occurs(sep, Strip(part)) {
      StripOccurs(part);
      OccursWithin(sep, Strip(part), part);
    }
  }

  lemma EvaluateAtom(text: string, atom: Atom)
    requires !Occurs(OR, Strip(text)) && !Occurs(AND, Strip(text))
    ensures Evaluate(text, atom) == atom(Strip(text))
    ensures Evaluate(Strip(text), atom) == atom(Strip(text))
  {
    assert Strip(Strip(text)) == Strip(text);
  }

  ghost predicate AreAtoms(parts: seq<string>) {
    forall i :: 0 <= i < |parts| ==> !Occurs(OR, Strip(parts[i])) && !Occurs(AND, Strip(parts[i]))
  }

  lemma {:induction false} AllOfAtoms(parts: seq<string>, atom: Atom, bound: nat)
    requires AreAtoms(parts) && forall i :: 0 <= i < |parts| ==> |parts[i]| < bound
    ensures AllOf(parts, atom, bound) == Conjunction(StripAll(parts), atom)
    decreases |parts|
  {
    if parts != [] {
      EvaluateAtom(parts[0], atom);
      assert StripAll(parts)[1..] == StripAll(parts[1..]);
      AllOfAtoms(parts[1..], atom, bound);
    }
  }

  lemma ConjunctionOfOne(a: string, atom: Atom)
    ensures Conjunction([a], atom) == atom(a)
  {
    assert [a][1..] == [];
  }

  lemma PartsAreAtoms(c: string)
    requires !Occurs(OR, c)
    ensures AreAtoms(Split(c, AND))
  {
    var parts := Split(c, AND);
    forall i | 0 <= i < |parts|
      ensures !Occurs(OR, Strip(parts[i])) && !Occurs(AND, Strip(parts[i]))
    {
      PartOccurs(c, AND, i);
      StaysFree(OR, c, parts[i]);
      PartsAreFree(c, AND, i);
      if Occurs(AND, Strip(parts[i])) {
        StripOccurs(parts[i]);
        OccursWithin(AND, Strip(parts[i]), parts[i]);
      }
    }
  }

  lemma EvaluateConjunction(text: string, atom: Atom)
    requires !Occurs(OR, Strip(text))
    ensures Evaluate(text, atom) == Conjunction(ReadConjunction(text), atom)
  {
    var c := Strip(text);
    var parts := Split(c, AND);
    if Occurs(AND, c) {
      AllShorter(c, AND);
      PartsAreAtoms(c);
      AllOfAtoms(parts, atom, |text|);
    } else {
      SplitWithout(c, AND);
      EvaluateAtom(text, atom);
      assert Strip(c) == c;
      assert ReadConjunction(text) == [c];
      ConjunctionOfOne(c, atom);
    }
  }

  lemma {:induction false} AnyOfConjunctions(parts: seq<string>, atom: Atom, bound: nat)
    requires forall i :: 0 <= i < |parts| ==> |parts[i]| < bound
    requires forall i :: 0 <= i < |parts| ==> !Occurs(OR, Strip(parts[i]))
    ensures AnyOf(parts, atom, bound) == Meaning(ReadAll(parts), atom)
    decreases |parts|
  {
    if parts != [] {
      assert Strip(Strip(parts[0])) == Strip(parts[0]);
      EvaluateConjunction(Strip(parts[0]), atom);
      assert ReadAll(parts)[1..] == ReadAll(parts[1..]);
      AnyOfConjunctions(parts[1..], atom, bound);
    }
  }

  /** Evaluation of every text, well formed or not, is the short-circuit meaning of the
      expression it reads as, including which parse error comes out. */
  lemma EvaluateIsMeaning(text: string, atom: Atom)
    ensures Evaluate(text, atom) == Meaning(Read(text), atom)
  {
    var c := Strip(text);
    var parts := Split(c, OR);
    if Occurs(OR, c) {
      AllShorter(c, OR);
      forall i | 0 <= i < |parts|
        ensures !Occurs(OR, Strip(parts[i]))
      {
        PartsAreFree(c, OR, i);
        if Occurs(OR, Strip(parts[i])) {
          StripOccurs(parts[i]);
          OccursWithin(OR, Strip(parts[i]), parts[i]);
        }
      }
      AnyOfConjunctions(parts, atom, |text|);
    } else {
      SplitWithout(c, OR);
      assert Strip(c) == c;
      EvaluateConjunction(text, atom);
      MeaningOfOne(ReadConjunction(text), atom);
      assert Read(text) == [ReadConjunction(text)];
    }
  }

  lemma MeaningOfOne(g: seq<string>, atom: Atom)
    ensures Meaning([g], atom) == Conjunction(g, atom)
  {
    assert [g][1..] == [];
  }

  // ------------------------------------------------------------ printing

  function Printed(e: Expr): (texts: seq<string>)
    ensures |texts| == |e| && forall i :: 0 <= i < |e| ==> texts[i] == Join(e[i], AND)
  {
    seq(|e|, i requires 0 <= i < |e| => Join(e[i], AND))
  }

  function Print(e: Expr): string {
    Join(Printed(e), OR)
  }

  function Padded(text: string): string {
    " " + text + " "
  }

  /** The padded text does not contain the separator. */
  predicate Apart(text: string, sep: string) {
    !Occurs(sep, Padded(text))
  }

  /** A word between two spaces. */
  predicate IsSeparator(sep: string) {
    && |sep| > 2 && sep[0] == ' ' && sep[|sep| - 1] == ' '
    && forall i :: 0 < i < |sep| - 1 ==> sep[i] != ' '
  }

  /** A space in an occurrence of a separator is at one of its ends. */
  lemma SpaceIsEdge(sep: string, whole: string, i: nat, m: nat)
    requires IsSeparator(sep) && At(sep, whole, i) && i <= m < i + |sep| && whole[m] == ' '
    ensures m == i || m == i + |sep| - 1
  {
    AtElement(sep, whole, i, m - i);
  }

  /** No earlier separator overlaps the one that ends the part. */
  lemma NoEarlierCut(part: string, sep: string, rest: string, i: nat)
    requires IsSeparator(sep) && !Occurs(sep, part + " ") && i < |part|
    ensures !At(sep, part + sep + rest, i)
  {
    var whole := part + sep + rest;
    var m: nat, n := |part|, |part| + 1;
    assert whole[m] == ' ' && whole[..n] == part + " ";
    if At(sep, whole, i) {
      if i + |sep| <= n {
        AtInFront(sep, whole, n, i);
      } else {
        SpaceIsEdge(sep, whole, i, m);
      }
    }
  }

  lemma ApartIsFree(part: string, sep: string)
    requires Apart(part, sep)
    ensures !Occurs(sep, part) && !Occurs(sep, part + " ")
  {
    if Occurs(sep, part) {
      OccursBetween(" ", part, " ");
      OccursWithin(sep, part, Padded(part));
    }
    if Occurs(sep, part + " ") {
      OccursBetween(" ", part + " ", "");
      assert " " + (part + " ") + "" == Padded(part);
      OccursWithin(sep, part + " ", Padded(part));
    }
  }

  /** Joined by the separator, the list is cut at no other place. */
  predicate Splittable(parts: seq<string>, sep: string) {
    && parts != []
    && (forall i :: 0 <= i < |parts| - 1 ==> !Occurs(sep, parts[i] + " "))
    && !Occurs(sep, parts[|parts| - 1])
  }

  lemma ApartIsSplittable(parts: seq<string>, sep: string)
    requires parts != [] && forall i :: 0 <= i < |parts| ==> Apart(parts[i], sep)
    ensures Splittable(parts, sep)
  {
    forall i | 0 <= i < |parts|
      ensures !Occurs(sep, parts[i] + " ") && !Occurs(sep, parts[i])
    {
      ApartIsFree(parts[i], sep);
    }
  }

  /** Splitting undoes joining. */
  lemma {:induction false} SplitJoin(parts: seq<string>, sep: string)
    requires IsSeparator(sep) && Splittable(parts, sep)
    ensures Split(Join(parts, sep), sep) == parts
    decreases |parts|
  {
    if |parts| == 1 {
      SplitWithout(parts[0], sep);
    } else {
      var rest := Join(parts[1..], sep);
      forall i | 0 <= i < |parts[0]|
        ensures !At(sep, parts[0] + sep + rest, i)
      {
        NoEarlierCut(parts[0], sep, rest, i);
      }
      SplitAtFirst(parts[0], sep, rest);
      SplitJoin(parts[1..], sep);
    }
  }

  /** What stands in two padded texts that share a space stands in one of them. */
  lemma Bridge(x: string, y: string, sep: string)
    requires IsSeparator(sep) && Apart(x, sep) && Apart(y, sep)
    ensures Apart(x + " " + y, sep)
  {
    var whole := Padded(x + " " + y);
    var m := |x| + 1;
    assert whole[m] == ' ' && whole[..m + 1] == Padded(x) && whole[m..] == Padded(y);
    if Occurs(sep, whole) {
      var i := Place(sep, whole);
      if i + |sep| <= m + 1 {
        AtInFront(sep, whole, m + 1, i);
      } else if i >= m {
        AtBehind(sep, whole, m, i);
      } else {
        SpaceIsEdge(sep, whole, i, m);
      }
    }
  }

  lemma AndIsApart()
    ensures Apart("and", OR)
  {
    var p := Padded("and");
    assert p == " and ";
    if Occurs(OR, p) {
      AtElement(OR, p, Place(OR, p), 1);
    }
  }

  /** A conjunction of atoms apart from " or " is apart from it. */
  lemma {:induction false} ConjunctionIsApart(g: seq<string>)
    requires g != [] && forall i :: 0 <= i < |g| ==> Apart(g[i], OR)
    ensures Apart(Join(g, AND), OR)
    decreases |g|
  {
    if |g| > 1 {
      var rest := Join(g[1..], AND);
      ConjunctionIsApart(g[1..]);
      AndIsApart();
      Bridge("and", rest, OR);
      Bridge(g[0], "and" + " " + rest, OR);
      assert g[0] + AND + rest == g[0] + " " + ("and" + " " + rest);
    }
  }

  // ------------------------------------------------------------ reading what was printed

  /** No empty text at the end of a list of several. */
  predicate FirmEnds(parts: seq<string>) {
    |parts| == 1 || (|parts| > 1 && parts[0] != "" && parts[|parts| - 1] != "")
  }

  /** No empty atom at either end of a conjunction of several, and no empty conjunction at
      either end of a disjunction of several. */
  predicate Firm(e: Expr) {
    && (forall i :: 0 <= i < |e| ==> FirmEnds(e[i]))
    && FirmEnds(Printed(e))
  }

  predicate Plain(a: string) {
    Trimmed(a) && Apart(a, OR) && Apart(a, AND)
  }

  predicate AllPlain(e: Expr) {
    e != [] && forall i :: 0 <= i < |e| ==> e[i] != [] && forall j :: 0 <= j < |e[i]| ==> Plain(e[i][j])
  }

  lemma {:induction false} JoinLast(parts: seq<string>, sep: string)
    requires parts != [] && parts[|parts| - 1] != ""
    ensures var t, last := Join(parts, sep), parts[|parts| - 1];
      t != "" && t[|t| - 1] == last[|last| - 1]
    decreases |parts|
  {
    if |parts| > 1 {
      JoinLast(parts[1..], sep);
    }
  }

  lemma FirmJoinIsTrimmed(parts: seq<string>, sep: string)
    requires FirmEnds(parts) && forall i :: 0 <= i < |parts| ==> Trimmed(parts[i])
    ensures Trimmed(Join(parts, sep))
  {
    if |parts| > 1 {
      JoinLast(parts, sep);
      assert Trimmed(parts[0]) && Trimmed(parts[|parts| - 1]);
      assert Join(parts, sep)[0] == parts[0][0];
    }
  }

  /** Trimmed texts that are apart from the separator. */
  predicate Neat(parts: seq<string>, sep: string) {
    forall i :: 0 <= i < |parts| ==> Trimmed(parts[i]) && Apart(parts[i], sep)
  }

  /** One level: a list with firm ends is read back. */
  lemma ListRoundTrip(parts: seq<string>, sep: string)
    requires IsSeparator(sep) && FirmEnds(parts) && Neat(parts, sep)
    ensures Trimmed(Join(parts, sep))
    ensures Split(Strip(Join(parts, sep)), sep) == parts
    ensures StripAll(parts) == parts
  {
    FirmJoinIsTrimmed(parts, sep);
    assert Strip(Join(parts, sep)) == Join(parts, sep);
    ApartIsSplittable(parts, sep);
    SplitJoin(parts, sep);
    assert forall i :: 0 <= i < |parts| ==> Strip(parts[i]) == parts[i];
  }

  lemma GroupRoundTrip(g: seq<string>)
    requires FirmEnds(g) && Neat(g, AND)
    ensures ReadConjunction(Join(g, AND)) == g
    ensures Trimmed(Join(g, AND))
  {
    ListRoundTrip(g, AND);
  }

  lemma FirmRoundTrip(e: Expr)
    requires AllPlain(e) && Firm(e)
    ensures Read(Print(e)) == e
  {
    var texts := Printed(e);
    forall i | 0 <= i < |e|
      ensures ReadConjunction(texts[i]) == e[i] && Trimmed(texts[i]) && Apart(texts[i], OR)
    {
      GroupRoundTrip(e[i]);
      ConjunctionIsApart(e[i]);
    }
    ListRoundTrip(texts, OR);
    assert ReadAll(texts) == e;
  }

  lemma {:induction false} LastPartEnds(text: string, sep: string)
    requires IsSeparator(sep) && text != "" && text[|text| - 1] != ' '
    ensures EndsLike(Split(text, sep), text[|text| - 1])
    decreases |text|
  {
    if sep <= text {
      assert text[|sep| - 1] == sep[|sep| - 1];
      LastPartEnds(text[|sep|..], sep);
      EndsLikeRest(text, sep, Split(text[|sep|..], sep), text[|text| - 1]);
    } else if |text| == 1 {
      assert Split(text[1..], sep) == [""];
    } else {
      LastPartEnds(text[1..], sep);
      EndsLikeTail(text, sep, Split(text[1..], sep), text[|text| - 1]);
    }
  }

  lemma EndsLikeRest(text: string, sep: string, rest: seq<string>, c: char)
    requires sep != "" && sep <= text && rest == Split(text[|sep|..], sep) && EndsLike(rest, c)
    ensures EndsLike(Split(text, sep), c)
  {
    SplitNow(text, sep);
    EndsLikeCons("", rest, c);
  }

  lemma EndsLikeCons(first: string, rest: seq<string>, c: char)
    requires EndsLike(rest, c)
    ensures EndsLike([first] + rest, c)
  {
    assert ([first] + rest)[|rest|] == rest[|rest| - 1];
  }

  lemma EndsLikeTail(text: string, sep: string, rest: seq<string>, c: char)
    requires sep != "" && text != "" && !(sep <= text) && rest == Split(text[1..], sep) && EndsLike(rest, c)
    ensures EndsLike(Split(text, sep), c)
  {
    SplitOff(text, sep);
    LongerEndsLike(text[0], rest, c);
  }

  /** The last text of the list ends in the character. */
  predicate EndsLike(parts: seq<string>, c: char) {
    && parts != []
    && var last := parts[|parts| - 1];
       last != "" && last[|last| - 1] == c
  }

  lemma LongerEndsLike(first: char, parts: seq<string>, c: char)
    requires EndsLike(parts, c)
    ensures EndsLike(Longer(first, parts), c)
  {
    var longer := Longer(first, parts);
    assert |parts| > 1 ==> longer[|longer| - 1] == parts[|parts| - 1];
  }

  lemma FirstPartStarts(text: string, sep: string)
    requires IsSeparator(sep) && text != "" && text[0] != ' '
    ensures var first := Split(text, sep)[0]; first != "" && first[0] == text[0]
  {
  }

  lemma NotAllBlank(text: string, i: nat)
    requires i < |text| && !Blank(text[i])
    ensures Strip(text) != ""
    decreases |text|
  {
    if Blank(text[0]) {
      NotAllBlank(text[1..], i - 1);
    } else if Blank(text[|text| - 1]) {
      NotAllBlank(text[..|text| - 1], i);
    }
  }

  /** The stripped parts of a trimmed text have firm ends. */
  lemma ReadHasFirmEnds(text: string, sep: string)
    requires IsSeparator(sep) && Trimmed(text)
    ensures FirmEnds(StripAll(Split(text, sep)))
  {
    var parts := Split(text, sep);
    if |parts| > 1 {
      assert text != "";
      FirstPartStarts(text, sep);
      LastPartEnds(text, sep);
      NotAllBlank(parts[0], 0);
      NotAllBlank(parts[|parts| - 1], |parts[|parts| - 1]| - 1);
    }
  }

  /** Only the empty conjunction prints as nothing. */
  lemma OnlyEmptyPrintsEmpty(text: string)
    requires Strip(text) != ""
    ensures Join(ReadConjunction(text), AND) != ""
  {
    var u := Strip(text);
    var parts := Split(u, AND);
    if |parts| == 1 {
      JoinSplit(u, AND);
      assert Strip(u) == u;
    }
  }

  /** Every text reads as an expression that is firm. */
  lemma ReadIsFirm(text: string)
    ensures Firm(Read(text))
  {
    var c := Strip(text);
    var parts := Split(c, OR);
    var e := Read(text);
    forall i | 0 <= i < |e|
      ensures FirmEnds(e[i])
    {
      ReadHasFirmEnds(Strip(parts[i]), AND);
    }
    FirmConjunctions(c, parts);
  }

  lemma FirmConjunctions(c: string, parts: seq<string>)
    requires Trimmed(c) && parts == Split(c, OR)
    ensures FirmEnds(Printed(ReadAll(parts)))
  {
    ReadHasFirmEnds(c, OR);
    var stripped := StripAll(parts);
    if |parts| > 1 {
      assert stripped[0] != "" && stripped[|parts| - 1] != "";
      EndPrints(parts, 0);
      EndPrints(parts, |parts| - 1);
    }
  }

  lemma EndPrints(parts: seq<string>, i: nat)
    requires i < |parts| && Strip(parts[i]) != ""
    ensures Printed(ReadAll(parts))[i] != ""
  {
    OnlyEmptyPrintsEmpty(parts[i]);
  }

  /** A printed expression of plain atoms is read back exactly if it is firm. */
  lemma RoundTripIff(e: Expr)
    requires AllPlain(e)
    ensures Read(Print(e)) == e <==> Firm(e)
  {
    if Firm(e) {
      FirmRoundTrip(e);
    }
    ReadIsFirm(Print(e));
  }

  /** An empty atom at the end is eaten: the rest is read as another atom. */
  lemma EmptyAtomIsEaten(atom: Atom)
    ensures Plain("") && Plain("a")
    ensures Evaluate(Print([["", "a"]]), atom) == atom("and a")
  {
    assert Padded("") == "  " && Padded("a") == " a ";
    var e := [["", "a"]];
    assert ["", "a"][1..] == ["a"];
    assert Join(["", "a"], AND) == "" + AND + "a" == " and a";
    assert Printed(e) == [" and a"];
    var t := " and a";
    assert Print(e) == t;
    assert t[1..] == "and a" && Strip(t) == Strip("and a") == "and a";
    NeitherWord("and a");
    EvaluateAtom(t, atom);
  }

  lemma NeitherWord(t: string)
    requires |t| == 5 && t[0] != ' '
    ensures !Occurs(AND, t) && (t[1] != ' ' ==> !Occurs(OR, t))
  {
    if Occurs(AND, t) {
      AtElement(AND, t, Place(AND, t), 0);
    }
    if t[1] != ' ' && Occurs(OR, t) {
      AtElement(OR, t, Place(OR, t), 0);
    }
  }
}
