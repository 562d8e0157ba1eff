/**
 When a printed condition means what it was printed from. Stripping eats the space of a
 separator at the end of a text, so an empty atom there glues its separator's word to its
 neighbour. Whether that can be observed depends on whether the glued atom is ever asked.
 */
module ConditionMisreading {
  import opened Prelude
  import opened Text
  import opened Conditions
  import opened ConditionGluing

  // ------------------------------------------------------------ what is read differently

  /** The disjunction ends in an empty conjunction. */
  predicate Trails(e: Expr) {
    |e| > 1 && e[|e| - 1] == [""]
  }

  /** How many conjunctions are read. */
  function Groups(e: Expr): (n: nat)
    ensures n <= |e|
  {
    if Trails(e) then |e| - 1 else |e|
  }

  /** Neither the disjunction nor a conjunction starts with an empty atom that is not its
      only one. */
  predicate Headed(e: Expr) {
    && (|e| > 1 ==> e[0] != [""])
    && forall g :: 0 <= g < |e| && |e[g]| > 1 ==> e[g][0] != ""
  }

  /** The atom of conjunction g that is read with a word glued to it, and behind which nothing
      of the conjunction is read; None if all of it is read as it was. */
  function Cut(e: Expr, g: nat): (m: Option<nat>)
    requires g < Groups(e) && e[g] != []
    ensures m.Some? ==> m.value < |e[g]|
  {
    var k := |e[g]|;
    if Trails(e) && g == |e| - 2 then Some(k - 1)
    else if k > 1 && e[g][k - 1] == "" then Some(k - 2)
    else None
  }

  predicate NoneEmptyGroup(e: Expr) {
    forall g :: 0 <= g < |e| ==> e[g] != []
  }

  /** `r` is how `e` is read: conjunction by conjunction, up to the cuts, with something that
      is no plain atom at each of them. */
  ghost predicate ReadsLike(e: Expr, r: Expr)
    requires NoneEmptyGroup(e)
  {
    |r| == Groups(e) && forall g :: 0 <= g < |r| ==> GroupReadsLike(e, g, r[g])
  }

  ghost predicate GroupReadsLike(e: Expr, g: nat, x: seq<string>)
    requires g < Groups(e) && e[g] != []
  {
    match Cut(e, g)
    case None => x == e[g]
    case Some(m) => |x| == m + 1 && x[..m] == e[g][..m] && !Plain(x[m])
  }

  // ------------------------------------------------------------ the condition

  /** Atom m of conjunction g is never asked: an earlier conjunction consists of atoms that
      come before it, so if they are all true, that one was. */
  predicate Dead(e: Expr, g: nat, m: nat)
    requires g < |e| && m <= |e[g]|
  {
    exists h :: 0 <= h < g && Within(e[h], e[g][..m])
  }

  predicate Within(atoms: seq<string>, others: seq<string>) {
    forall i :: 0 <= i < |atoms| ==> atoms[i] in others
  }

  /** The trailing empty conjunction asks nothing new. */
  predicate AskedBefore(e: Expr) {
    Trails(e) ==> exists h :: 0 <= h < |e| - 1 && e[h] == [""]
  }

  predicate CutsAreDead(e: Expr)
    requires NoneEmptyGroup(e)
  {
    forall g :: 0 <= g < Groups(e) && Cut(e, g).Some? ==> Dead(e, g, Cut(e, g).value)
  }

  /** Nothing that is read differently is ever asked. */
  predicate Sound(e: Expr)
    requires NoneEmptyGroup(e)
  {
    Headed(e) && CutsAreDead(e) && AskedBefore(e)
  }

  // ------------------------------------------------------------ conjunctions

  lemma {:induction false} ConjunctionOfConcat(p: seq<string>, x: seq<string>, atom: Atom)
    ensures Conjunction(p + x, atom) ==
            if Conjunction(p, atom) == Value(true) then Conjunction(x, atom) else Conjunction(p, atom)
    decreases |p|
  {
    if p == [] {
      assert p + x == x;
    } else {
      assert (p + x)[0] == p[0] && (p + x)[1..] == p[1..] + x;
      ConjunctionOfConcat(p[1..], x, atom);
    }
  }

  lemma {:induction false} TrueAll(p: seq<string>, atom: Atom, i: nat)
    requires Conjunction(p, atom) == Value(true) && i < |p|
    ensures atom(p[i]) == Value(true)
  {
    if i > 0 {
      TrueAll(p[1..], atom, i - 1);
    }
  }

  lemma {:induction false} AllTrue(p: seq<string>, atom: Atom)
    requires forall i :: 0 <= i < |p| ==> atom(p[i]) == Value(true)
    ensures Conjunction(p, atom) == Value(true)
  {
    if p != [] {
      AllTrue(p[1..], atom);
    }
  }

  lemma {:induction false} FalseOne(p: seq<string>, atom: Atom) returns (i: nat)
    requires Conjunction(p, atom) == Value(false)
    ensures i < |p| && atom(p[i]) == Value(false)
  {
    if atom(p[0]) == Value(false) {
      i := 0;
    } else {
      i := FalseOne(p[1..], atom);
      i := i + 1;
    }
  }

  /** Atoms that yield values, one of them false. */
  lemma {:induction false} OneFalse(p: seq<string>, atom: Atom, i: nat)
    requires i < |p| && atom(p[i]) == Value(false) && forall j :: 0 <= j < |p| ==> atom(p[j]).Value?
    ensures Conjunction(p, atom) == Value(false)
  {
    if atom(p[0]) == Value(true) {
      OneFalse(p[1..], atom, i - 1);
    }
  }

  lemma {:induction false} ValuesGiveValue(p: seq<string>, atom: Atom)
    requires forall j :: 0 <= j < |p| ==> atom(p[j]).Value?
    ensures Conjunction(p, atom).Value?
  {
    if p != [] {
      ValuesGiveValue(p[1..], atom);
    }
  }

  // ------------------------------------------------------------ sufficiency

  /** Behind a dead point it does not matter what a conjunction holds. */
  lemma DeadDoesNotMatter(e: Expr, g: nat, m: nat, x: seq<string>, y: seq<string>, atom: Atom)
    requires g < |e| && m <= |e[g]| && Dead(e, g, m)
    requires forall h :: 0 <= h < g ==> Conjunction(e[h], atom) == Value(false)
    ensures Conjunction(e[g][..m] + x, atom) == Conjunction(e[g][..m] + y, atom)
  {
    var p := e[g][..m];
    ConjunctionOfConcat(p, x, atom);
    ConjunctionOfConcat(p, y, atom);
    if Conjunction(p, atom) == Value(true) {
      var h :| 0 <= h < g && Within(e[h], p);
      var i := FalseOne(e[h], atom);
      var j :| 0 <= j < |p| && p[j] == e[h][i];
      TrueAll(p, atom, j);
    }
  }

  lemma SameConjunction(e: Expr, g: nat, x: seq<string>, atom: Atom)
    requires g < Groups(e) && e[g] != [] && GroupReadsLike(e, g, x)
    requires Cut(e, g).Some? ==> Dead(e, g, Cut(e, g).value)
    requires forall h :: 0 <= h < g ==> Conjunction(e[h], atom) == Value(false)
    ensures Conjunction(x, atom) == Conjunction(e[g], atom)
  {
    if Cut(e, g).Some? {
      var m := Cut(e, g).value;
      assert e[g] == e[g][..m] + e[g][m..];
      assert x == e[g][..m] + x[m..];
      DeadDoesNotMatter(e, g, m, e[g][m..], x[m..], atom);
    }
  }

  lemma {:induction false} SoundFrom(e: Expr, r: Expr, i: nat, atom: Atom)
    requires NoneEmptyGroup(e) && ReadsLike(e, r) && CutsAreDead(e) && AskedBefore(e) && i <= |r|
    requires forall h :: 0 <= h < i ==> Conjunction(e[h], atom) == Value(false)
    ensures Meaning(r[i..], atom) == Meaning(e[i..], atom)
    decreases |r| - i
  {
    if i == |r| {
      RestIsFalse(e, r, atom);
    } else {
      SameConjunction(e, i, r[i], atom);
      assert r[i..][1..] == r[i + 1..] && e[i..][1..] == e[i + 1..];
      if Conjunction(e[i], atom) == Value(false) {
        SoundFrom(e, r, i + 1, atom);
      }
    }
  }

  lemma RestIsFalse(e: Expr, r: Expr, atom: Atom)
    requires |r| == Groups(e) && AskedBefore(e)
    requires forall h :: 0 <= h < |r| ==> Conjunction(e[h], atom) == Value(false)
    ensures Meaning(r[|r|..], atom) == Meaning(e[|r|..], atom)
  {
    if Trails(e) {
      var h :| 0 <= h < |e| - 1 && e[h] == [""];
      assert e[|r|..] == [[""]];
      MeaningOfOne([""], atom);
    } else {
      assert e[|r|..] == [];
    }
  }

  // ------------------------------------------------------------ necessity

  /** One text raises; of the others, these are true. */
  function Raising(bad: string, truths: seq<string>): Atom {
    a => if a == bad then Unparseable(bad) else Value(a in truths)
  }

  predicate AtomOf(e: Expr, a: string) {
    exists g :: 0 <= g < |e| && a in e[g]
  }

  lemma {:induction false} MeaningIsValue(e: Expr, bad: string, truths: seq<string>)
    requires !AtomOf(e, bad)
    ensures Meaning(e, Raising(bad, truths)).Value?
    decreases |e|
  {
    if e != [] {
      assert bad !in e[0];
      ValuesGiveValue(e[0], Raising(bad, truths));
      assert forall g :: 0 <= g < |e[1..]| ==> e[1..][g] == e[g + 1];
      MeaningIsValue(e[1..], bad, truths);
    }
  }

  /** A conjunction that raises behind false ones makes the whole raise. */
  lemma {:induction false} RaisesBehind(r: Expr, g: nat, o: Outcome, atom: Atom)
    requires g < |r| && Conjunction(r[g], atom) == o && o.Unparseable?
    requires forall h :: 0 <= h < g ==> Conjunction(r[h], atom) == Value(false)
    ensures Meaning(r, atom) == o
    decreases g
  {
    if g > 0 {
      RaisesBehind(r[1..], g - 1, o, atom);
    }
  }

  /** A conjunction that starts with the bad text makes the whole raise when all else is
      false: no earlier one goes past its own start. */
  lemma {:induction false} HeadRaises(r: Expr, g: nat, bad: string)
    requires NoneEmptyGroup(r) && g < |r| && r[g][0] == bad
    ensures Meaning(r, Raising(bad, [])) == Unparseable(bad)
    decreases g
  {
    if r[0][0] != bad {
      assert NoneEmptyGroup(r[1..]);
      HeadRaises(r[1..], g - 1, bad);
    }
  }

  lemma {:induction false} HeadsAreFalse(r: Expr, bad: string)
    requires NoneEmptyGroup(r) && forall g :: 0 <= g < |r| ==> r[g][0] != bad
    ensures Meaning(r, Raising(bad, [])) == Value(false)
    decreases |r|
  {
    if r != [] {
      assert forall g :: 0 <= g < |r[1..]| ==> r[1..][g] == r[g + 1];
      HeadsAreFalse(r[1..], bad);
    }
  }

  /** The first cut that is not dead. */
  lemma {:induction false} FirstLive(e: Expr, g: nat) returns (first: nat)
    requires NoneEmptyGroup(e) && g < Groups(e) && Cut(e, g).Some? && !Dead(e, g, Cut(e, g).value)
    ensures first <= g && Cut(e, first).Some? && !Dead(e, first, Cut(e, first).value)
    ensures forall h :: 0 <= h < first && Cut(e, h).Some? ==> Dead(e, h, Cut(e, h).value)
    decreases g
  {
    first := g;
    if h :| 0 <= h < g && Cut(e, h).Some? && !Dead(e, h, Cut(e, h).value) {
      first := FirstLive(e, h);
    }
  }

  /** Some atom before the cut of conjunction h is not among the first m of conjunction g. */
  lemma OutsideBefore(e: Expr, h: nat, g: nat, m: nat) returns (i: nat)
    requires NoneEmptyGroup(e) && h < g < Groups(e) && m <= |e[g]| && !Dead(e, g, m)
    requires Cut(e, h).Some? ==> Dead(e, h, Cut(e, h).value)
    ensures i < |e[h]| && e[h][i] !in e[g][..m]
    ensures Cut(e, h).Some? ==> i < Cut(e, h).value
  {
    if Cut(e, h).Some? {
      var c := Cut(e, h).value;
      var before :| 0 <= before < h && Within(e[before], e[h][..c]);
      assert !Within(e[before], e[g][..m]);
      var j :| 0 <= j < |e[before]| && e[before][j] !in e[g][..m];
      i :| 0 <= i < c && e[h][..c][i] == e[before][j];
    } else {
      assert !Within(e[h], e[g][..m]);
      i :| 0 <= i < |e[h]| && e[h][i] !in e[g][..m];
    }
  }

  lemma EarlierIsFalse(e: Expr, h: nat, x: seq<string>, bad: string, truths: seq<string>, i: nat)
    requires NoneEmptyGroup(e) && h < Groups(e) && GroupReadsLike(e, h, x) && !AtomOf(e, bad)
    requires i < |e[h]| && e[h][i] !in truths && (Cut(e, h).Some? ==> i < Cut(e, h).value)
    ensures Conjunction(x, Raising(bad, truths)) == Value(false)
  {
    var atom := Raising(bad, truths);
    var p := if Cut(e, h).Some? then x[..Cut(e, h).value] else x;
    assert p <= e[h] && p[i] == e[h][i];
    assert bad !in e[h];
    assert forall j :: 0 <= j < |p| ==> p[j] in e[h];
    OneFalse(p, atom, i);
    assert x == p + x[|p|..];
    ConjunctionOfConcat(p, x[|p|..], atom);
  }

  /** What is asked at a live cut shows. */
  lemma LiveCutShows(e: Expr, r: Expr, g: nat) returns (atom: Atom)
    requires AllPlain(e) && ReadsLike(e, r) && g < Groups(e)
    requires Cut(e, g).Some? && !Dead(e, g, Cut(e, g).value)
    ensures Meaning(r, atom) != Meaning(e, atom)
  {
    var first := FirstLive(e, g);
    var m := Cut(e, first).value;
    assert GroupReadsLike(e, first, r[first]);
    var bad, truths := r[first][m], e[first][..m];
    NotPlainIsNew(e, bad);
    atom := Raising(bad, truths);
    forall h | 0 <= h < first
      ensures Conjunction(r[h], atom) == Value(false)
    {
      assert GroupReadsLike(e, h, r[h]);
      var i := OutsideBefore(e, h, first, m);
      EarlierIsFalse(e, h, r[h], bad, truths, i);
    }
    CutRaises(truths, bad, r[first]);
    RaisesBehind(r, first, Unparseable(bad), atom);
    MeaningIsValue(e, bad, truths);
  }

  lemma CutRaises(truths: seq<string>, bad: string, x: seq<string>)
    requires |x| == |truths| + 1 && x[..|truths|] == truths && x[|truths|] == bad && bad !in truths
    ensures Conjunction(x, Raising(bad, truths)) == Unparseable(bad)
  {
    assert x == truths + [bad];
    AllTrue(truths, Raising(bad, truths));
    ConjunctionOfConcat(truths, [bad], Raising(bad, truths));
  }

  lemma NotPlainIsNew(e: Expr, bad: string)
    requires AllPlain(e) && !Plain(bad)
    ensures !AtomOf(e, bad)
  {
    assert forall g, j :: 0 <= g < |e| && 0 <= j < |e[g]| ==> Plain(e[g][j]);
  }

  /** A trailing empty conjunction that no earlier one has asked shows. */
  lemma TrailShows(e: Expr, r: Expr)
    requires AllPlain(e) && Headed(e) && ReadsLike(e, r) && !AskedBefore(e)
    ensures Meaning(r, Raising("", [])) != Meaning(e, Raising("", []))
  {
    HeadRaises(e, |e| - 1, "");
    forall g | 0 <= g < |r|
      ensures r[g] != [] && r[g][0] != ""
    {
      assert GroupReadsLike(e, g, r[g]);
      assert e[g] != [""];
      EmptyIsPlain();
    }
    HeadsAreFalse(r, "");
  }

  lemma EmptyIsPlain()
    ensures Plain("")
  {
    assert Padded("") == "  ";
  }

  // ------------------------------------------------------------ the whole disjunction

  /** Reading a disjunction is reading its conjunctions, if its ends are not blank. */
  lemma ReadTexts(texts: seq<string>, text: string)
    requires Splittable(texts, OR) && SolidEnds(texts) && Strip(text) == Strip(Join(texts, OR))
    ensures Read(text) == ReadAll(texts)
  {
    ReadBack(texts, OR);
    var parts := Split(Strip(text), OR);
    assert StripAll(parts) == StripAll(texts);
    forall i | 0 <= i < |texts|
      ensures ReadConjunction(parts[i]) == ReadConjunction(texts[i])
    {
      assert StripAll(parts)[i] == StripAll(texts)[i];
    }
  }

  /** The texts that the conjunctions are read from. */
  function ReadFrom(e: Expr): (texts: seq<string>)
    ensures |texts| == Groups(e)
  {
    if Trails(e) then Printed(e)[..|e| - 1][|e| - 2 := Printed(e)[|e| - 2] + " or"] else Printed(e)
  }

  /** Only the empty conjunction prints as blanks. */
  lemma PrintsSolid(g: seq<string>)
    requires g != [] && g != [""] && Trimmed(g[0])
    ensures Strip(Join(g, AND)) != ""
  {
    if |g| == 1 {
      assert Strip(g[0]) == g[0];
    } else {
      var t := Join(g, AND);
      assert t[|g[0]| + 1] == 'a';
      NotAllBlank(t, |g[0]| + 1);
    }
  }

  lemma TextsAreApart(e: Expr, i: nat)
    requires AllPlain(e) && i < |e|
    ensures Apart(Join(e[i], AND), OR)
  {
    ConjunctionIsApart(e[i]);
  }

  lemma PrintedSplittable(e: Expr)
    requires AllPlain(e)
    ensures Splittable(ReadFrom(e), OR)
  {
    var texts := ReadFrom(e);
    var n := |texts| - 1;
    forall i | 0 <= i < |texts|
      ensures !Occurs(OR, Printed(e)[i] + " ") && !Occurs(OR, Printed(e)[i])
    {
      TextsAreApart(e, i);
      ApartIsFree(Printed(e)[i], OR);
    }
    if Trails(e) {
      NoSeparatorInTail(Printed(e)[n], "or", OR);
      assert Printed(e)[n] + " " + "or" == texts[n];
    }
  }

  lemma PrintedSolid(e: Expr)
    requires AllPlain(e) && (|e| > 1 ==> e[0] != [""])
    ensures SolidEnds(ReadFrom(e))
  {
    var texts := ReadFrom(e);
    var n := |texts| - 1;
    if n > 0 {
      assert Plain(e[0][0]) && Plain(e[n][0]);
      PrintsSolid(e[0]);
      if Trails(e) {
        NotAllBlank(texts[n], |texts[n]| - 1);
      } else {
        PrintsSolid(e[n]);
      }
    }
  }

  lemma PrintedStrips(e: Expr)
    requires e != []
    ensures Strip(Print(e)) == Strip(Join(ReadFrom(e), OR))
  {
    if Trails(e) {
      var texts := Printed(e);
      var front := texts[..|e| - 1];
      assert texts[|e| - 1] == "";
      JoinTrailing(texts, OR);
      SeparatorBehind(Join(front, OR), "or", OR);
      JoinAppend(front, OR, " or");
      assert Join(front, OR) + " " + "or" == Join(front, OR) + " or";
    }
  }

  lemma PrintedReads(e: Expr)
    requires AllPlain(e) && (|e| > 1 ==> e[0] != [""])
    ensures Read(Print(e)) == ReadAll(ReadFrom(e))
  {
    PrintedSplittable(e);
    PrintedSolid(e);
    PrintedStrips(e);
    ReadTexts(ReadFrom(e), Print(e));
  }

  /** A headed expression is read up to its cuts. */
  lemma PrintedReadsLike(e: Expr)
    requires AllPlain(e) && Headed(e)
    ensures ReadsLike(e, Read(Print(e)))
  {
    PrintedReads(e);
    var texts, r := ReadFrom(e), Read(Print(e));
    forall g | 0 <= g < |r|
      ensures GroupReadsLike(e, g, r[g])
    {
      assert Neat(e[g], AND) by {
        assert forall j :: 0 <= j < |e[g]| ==> Plain(e[g][j]);
      }
      TextOf(e, g);
      GroupIsRead(e, g, texts[g]);
    }
  }

  lemma TextOf(e: Expr, g: nat)
    requires g < Groups(e)
    ensures ReadFrom(e)[g] == Join(e[g], AND) + (if Trails(e) && g == |e| - 2 then " or" else "")
  {
  }

  lemma GroupIsRead(e: Expr, g: nat, text: string)
    requires Headed(e) && g < Groups(e) && e[g] != [] && Neat(e[g], AND)
    requires text == Join(e[g], AND) + (if Trails(e) && g == |e| - 2 then " or" else "")
    ensures GroupReadsLike(e, g, ReadConjunction(text))
  {
    var k := |e[g]|;
    if Trails(e) && g == |e| - 2 {
      assert Join(e[g], AND) + " " + "or" == text;
      GluedTail(e[g], "or", OR);
    } else {
      assert text == Join(e[g], AND);
      if k > 1 && e[g][k - 1] == "" {
        TrailingGroup(e[g]);
      } else {
        GroupRoundTrip(e[g]);
      }
    }
  }

  /** An expression that is not headed is read with a conjunction that starts with a word. */
  lemma NotHeadedReads(e: Expr) returns (g: nat)
    requires AllPlain(e) && !Headed(e)
    ensures var r := Read(Print(e)); g < |r| && !Plain(r[g][0])
  {
    if |e| > 1 && e[0] == [""] {
      g := 0;
      LeadReads(e);
    } else {
      g :| 0 <= g < |e| && |e[g]| > 1 && e[g][0] == "";
      PrintedReads(e);
      HeadReads(e, g);
    }
  }

  lemma LeadReads(e: Expr)
    requires |e| > 1 && e[0] == [""]
    ensures !Plain(Read(Print(e))[0][0])
  {
    var text, rest := Print(e), Join(Printed(e)[1..], OR);
    assert text == OR + rest;
    SeparatorInFront("or", rest, OR);
    var c := Strip(text);
    FirstPartStartsWith(c, OR, "or");
    var first := Split(c, OR)[0];
    FirstPartStartsWith(first, AND, "or");
    ReadStartsWith(first, "or");
    StartsWithWordIsNotPlain(Read(text)[0][0], "or");
  }

  lemma HeadReads(e: Expr, g: nat)
    requires AllPlain(e) && g < |e| && |e[g]| > 1 && e[g][0] == ""
    ensures g < Groups(e) && !Plain(ReadAll(ReadFrom(e))[g][0])
  {
    TextOf(e, g);
    HeadText(e[g], if Trails(e) && g == |e| - 2 then " or" else "");
  }

  // ------------------------------------------------------------ the theorem

  lemma SoundEvaluates(e: Expr, atom: Atom)
    requires AllPlain(e) && Sound(e)
    ensures Evaluate(Print(e), atom) == Meaning(e, atom)
  {
    var r := Read(Print(e));
    PrintedReadsLike(e);
    SoundFrom(e, r, 0, atom);
    assert r[0..] == r && e[0..] == e;
    EvaluateIsMeaning(Print(e), atom);
  }

  lemma UnsoundShows(e: Expr) returns (atom: Atom)
    requires AllPlain(e) && !Sound(e)
    ensures Evaluate(Print(e), atom) != Meaning(e, atom)
  {
    var r := Read(Print(e));
    if !Headed(e) {
      var g := NotHeadedReads(e);
      var bad := r[g][0];
      atom := Raising(bad, []);
      assert NoneEmptyGroup(r);
      HeadRaises(r, g, bad);
      NotPlainIsNew(e, bad);
      MeaningIsValue(e, bad, []);
    } else {
      PrintedReadsLike(e);
      if !AskedBefore(e) {
        atom := Raising("", []);
        TrailShows(e, r);
      } else {
        var g :| 0 <= g < Groups(e) && Cut(e, g).Some? && !Dead(e, g, Cut(e, g).value);
        atom := LiveCutShows(e, r, g);
      }
    }
    EvaluateIsMeaning(Print(e), atom);
  }

  /** A printed expression of plain atoms evaluates to its meaning, whatever its atoms mean, if
      and only if nothing that is read differently is ever asked. */
  lemma EvaluatesIff(e: Expr)
    requires AllPlain(e)
    ensures (forall atom: Atom :: Evaluate(Print(e), atom) == Meaning(e, atom)) <==> Sound(e)
  {
    if Sound(e) {
      forall atom: Atom
        ensures Evaluate(Print(e), atom) == Meaning(e, atom)
      {
        SoundEvaluates(e, atom);
      }
    } else {
      var atom := UnsoundShows(e);
    }
  }

  /** No atom occurs twice. */
  predicate Distinct(e: Expr) {
    forall g, h, i, j :: 0 <= g < |e| && 0 <= h < |e| && 0 <= i < |e[g]| && 0 <= j < |e[h]| && e[g][i] == e[h][j] ==>
      g == h && i == j
  }

  lemma FirmIsSound(e: Expr)
    requires AllPlain(e) && Firm(e)
    ensures Sound(e)
  {
    EndsPrint(e);
    assert forall g :: 0 <= g < |e| ==> FirmEnds(e[g]);
  }

  lemma DistinctSoundIsFirm(e: Expr)
    requires AllPlain(e) && Distinct(e) && Sound(e)
    ensures Firm(e)
  {
    NothingAskedBefore(e);
    forall g | 0 <= g < |e|
      ensures Cut(e, g).None? && FirmEnds(e[g])
    {
      if Cut(e, g).Some? {
        NothingIsDead(e, g, Cut(e, g).value);
      }
    }
    EndsPrint(e);
  }

  lemma NothingAskedBefore(e: Expr)
    requires NoneEmptyGroup(e) && Distinct(e)
    ensures AskedBefore(e) <==> !Trails(e)
  {
    forall h | 0 <= h < |e| - 1
      ensures e[h][0] != e[|e| - 1][0]
    {
    }
  }

  lemma NothingIsDead(e: Expr, g: nat, m: nat)
    requires NoneEmptyGroup(e) && Distinct(e) && g < |e| && m <= |e[g]|
    ensures !Dead(e, g, m)
  {
    forall h | 0 <= h < g
      ensures !Within(e[h], e[g][..m])
    {
      assert e[h][0] !in e[g][..m];
    }
  }

  /** A disjunction of several has a blank end exactly if that is an empty conjunction. */
  lemma EndsPrint(e: Expr)
    requires AllPlain(e)
    ensures FirmEnds(Printed(e)) <==> (|e| > 1 ==> e[0] != [""] && e[|e| - 1] != [""])
  {
    assert Plain(e[0][0]) && Plain(e[|e| - 1][0]);
    if e[0] != [""] {
      PrintsSolid(e[0]);
    }
    if e[|e| - 1] != [""] {
      PrintsSolid(e[|e| - 1]);
    }
  }

  /** With distinct atoms nothing is dead: the printed text means the expression if and only if
      the expression is firm, that is, read back. */
  lemma DistinctEvaluatesIff(e: Expr)
    requires AllPlain(e) && Distinct(e)
    ensures (forall atom: Atom :: Evaluate(Print(e), atom) == Meaning(e, atom)) <==> Firm(e)
  {
    EvaluatesIff(e);
    if Sound(e) {
      DistinctSoundIsFirm(e);
    }
    if Firm(e) {
      FirmIsSound(e);
    }
  }

  /** An expression that is not read back and yet evaluates to its meaning: the glued atom is
      asked only if b is true, and then the first conjunction was. */
  lemma MisreadUnnoticed(atom: Atom)
    ensures var e := [["b"], ["b", "a", ""]];
      AllPlain(e) && !Firm(e) && Evaluate(Print(e), atom) == Meaning(e, atom)
  {
    var e := [["b"], ["b", "a", ""]];
    EmptyIsPlain();
    assert Padded("a") == " a " && Padded("b") == " b ";
    assert e[1][..1] == ["b"];
    assert Within(e[0], e[1][..1]);
    assert Dead(e, 1, 1);
    assert !FirmEnds(e[1]);
    SoundEvaluates(e, atom);
  }
}
