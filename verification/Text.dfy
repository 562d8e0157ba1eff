/** The string operations of the program's language that the text modules rely on. */
module Text {
  /** The part stands in the whole at the index. */
  predicate At<T(==)>(part: seq<T>, whole: seq<T>, i: int) {
    0 <= i <= |whole| - |part| && whole[i..i + |part|] == part
  }

  /** `part in whole` */
  predicate Occurs<T(==)>(part: seq<T>, whole: seq<T>) {
    exists i | 0 <= i <= |whole| :: At(part, whole, i)
  }

  /** Some index at which the part stands. */
  ghost function Place<T>(part: seq<T>, whole: seq<T>): (i: nat)
    requires Occurs(part, whole)
    ensures i + |part| <= |whole| && At(part, whole, i) && whole[i..i + |part|] == part
  {
    var i :| 0 <= i <= |whole| && At(part, whole, i);
    assert At(part, whole, i);
    i
  }

  /** What stands in a tail stands in the whole. */
  lemma AtInTail<T>(part: seq<T>, whole: seq<T>, n: nat, i: int)
    requires n <= |whole| && At(part, whole[n..], i)
    ensures At(part, whole, n + i) && Occurs(part, whole)
  {
    assert whole[n..][i..i + |part|] == whole[n + i..n + i + |part|];
    assert At(part, whole, n + i);
  }

  lemma AtBehind<T>(part: seq<T>, whole: seq<T>, n: nat, i: nat)
    requires n <= i && At(part, whole, i)
    ensures n <= |whole| && At(part, whole[n..], i - n) && Occurs(part, whole[n..])
  {
    assert whole[n..][i - n..i - n + |part|] == whole[i..i + |part|];
    assert At(part, whole[n..], i - n);
  }

  lemma AtInFront<T>(part: seq<T>, whole: seq<T>, n: nat, i: nat)
    requires i + |part| <= n <= |whole| && At(part, whole, i)
    ensures At(part, whole[..n], i) && Occurs(part, whole[..n])
  {
    assert whole[..n][i..i + |part|] == whole[i..i + |part|];
    assert At(part, whole[..n], i);
  }

  lemma AtElement<T>(part: seq<T>, whole: seq<T>, i: nat, k: nat)
    requires At(part, whole, i) && k < |part|
    ensures whole[i + k] == part[k]
  {
    assert whole[i..i + |part|][k] == whole[i + k];
  }

  lemma OccursInTail<T>(part: seq<T>, whole: seq<T>, n: nat)
    requires n <= |whole| && Occurs(part, whole[n..])
    ensures Occurs(part, whole)
  {
    var i := Place(part, whole[n..]);
    AtInTail(part, whole, n, i);
  }

  lemma OccursOne<T>(c: T, whole: seq<T>)
    ensures Occurs([c], whole) <==> c in whole
  {
    if Occurs([c], whole) {
      assert whole[Place([c], whole)] == c;
    }
    if i :| 0 <= i < |whole| && whole[i] == c {
      assert At([c], whole, i);
    }
  }

  /** `whole.split(sep)`: cut at the leftmost separators that do not overlap. */
  function Split<T(==)>(whole: seq<T>, sep: seq<T>): (parts: seq<seq<T>>)
    requires sep != []
    ensures parts != []
    decreases |whole|
  {
    if whole == [] then [[]]
    else if sep <= whole then [[]] + Split(whole[|sep|..], sep)
    else
      var rest := Split(whole[1..], sep);
      [[whole[0]] + rest[0]] + rest[1..]
  }

  lemma OneIsPrefix<T>(first: T, whole: seq<T>)
    ensures [first] <= whole <==> whole != [] && whole[0] == first
  {
  }

  /** Parts whose first one is longer by an element in front. */
  function Longer<T>(first: T, parts: seq<seq<T>>): seq<seq<T>>
    requires parts != []
  {
    [[first] + parts[0]] + parts[1..]
  }

  /** A text that does not start with the separator goes on in its first part. */
  lemma SplitOff<T>(whole: seq<T>, sep: seq<T>)
    requires sep != [] && whole != [] && !(sep <= whole)
    ensures Split(whole, sep) == Longer(whole[0], Split(whole[1..], sep))
  {
  }

  /** A text that starts with the separator starts with an empty part. */
  lemma SplitNow<T>(whole: seq<T>, sep: seq<T>)
    requires sep != [] && sep <= whole
    ensures Split(whole, sep) == [[]] + Split(whole[|sep|..], sep)
  {
  }

  /** `sep.join(parts)` */
  function Join<T>(parts: seq<seq<T>>, sep: seq<T>): seq<T> {
    if parts == [] then []
    else if |parts| == 1 then parts[0]
    else parts[0] + sep + Join(parts[1..], sep)
  }

  /** `whole.replace(old, new)` for an old text that is not empty. */
  function Replace<T(==)>(whole: seq<T>, before: seq<T>, after: seq<T>): seq<T>
    requires before != []
    decreases |whole|
  {
    if whole == [] then []
    else if before <= whole then after + Replace(whole[|before|..], before, after)
    else [whole[0]] + Replace(whole[1..], before, after)
  }

  /** Replacing is joining the parts of a split with the new text. */
  lemma {:induction false} ReplaceIsSplitJoin<T>(whole: seq<T>, before: seq<T>, after: seq<T>)
    requires before != []
    ensures Replace(whole, before, after) == Join(Split(whole, before), after)
    decreases |whole|
  {
    if whole != [] {
      if before <= whole {
        ReplaceIsSplitJoin(whole[|before|..], before, after);
        SplitNow(whole, before);
        JoinConsEmpty(Split(whole[|before|..], before), after);
      } else {
        ReplaceIsSplitJoin(whole[1..], before, after);
        SplitOff(whole, before);
        JoinConsHead(whole[0], Split(whole[1..], before), after);
      }
    }
  }

  lemma JoinConsEmpty<T>(parts: seq<seq<T>>, sep: seq<T>)
    requires parts != []
    ensures Join([[]] + parts, sep) == sep + Join(parts, sep)
  {
    assert ([[]] + parts)[1..] == parts;
  }

  lemma JoinConsHead<T>(head: T, parts: seq<seq<T>>, sep: seq<T>)
    requires parts != []
    ensures Join(Longer(head, parts), sep) == [head] + Join(parts, sep)
  {
    var longer := Longer(head, parts);
    if |parts| > 1 {
      assert longer[1..] == parts[1..];
    }
  }

  /** Joining the parts of a split gives the text back. */
  lemma JoinSplit<T>(whole: seq<T>, sep: seq<T>)
    requires sep != []
    ensures Join(Split(whole, sep), sep) == whole
  {
    ReplaceBySelf(whole, sep);
    ReplaceIsSplitJoin(whole, sep, sep);
  }

  lemma {:induction false} ReplaceBySelf<T>(whole: seq<T>, part: seq<T>)
    requires part != []
    ensures Replace(whole, part, part) == whole
    decreases |whole|
  {
    if whole != [] {
      if part <= whole {
        ReplaceBySelf(whole[|part|..], part);
        assert part + whole[|part|..] == whole;
      } else {
        ReplaceBySelf(whole[1..], part);
        assert [whole[0]] + whole[1..] == whole;
      }
    }
  }

  /** A text without the separator is its own only part. */
  lemma {:induction false} SplitWithout<T>(whole: seq<T>, sep: seq<T>)
    requires sep != [] && !Occurs(sep, whole)
    ensures Split(whole, sep) == [whole]
    decreases |whole|
  {
    if whole != [] {
      assert !(sep <= whole) by {
        if sep <= whole {
          assert At(sep, whole, 0);
        }
      }
      if Occurs(sep, whole[1..]) {
        OccursInTail(sep, whole, 1);
      }
      SplitWithout(whole[1..], sep);
      assert [whole[0]] + whole[1..] == whole;
    }
  }

  /** No part of a split contains the separator. */
  lemma {:induction false} PartsAreFree<T>(whole: seq<T>, sep: seq<T>, p: nat)
    requires sep != [] && p < |Split(whole, sep)|
    ensures !Occurs(sep, Split(whole, sep)[p])
    decreases |whole|
  {
    if whole != [] {
      if sep <= whole {
        if p > 0 {
          PartsAreFree(whole[|sep|..], sep, p - 1);
        }
      } else {
        PartsAreFree(whole[1..], sep, p);
        if p == 0 {
          FirstPartIsPrefix(whole[1..], sep);
          ConsIsFree(whole, sep, Split(whole[1..], sep)[0]);
        }
      }
    }
  }

  lemma {:induction false} FirstPartIsPrefix<T>(whole: seq<T>, sep: seq<T>)
    requires sep != []
    ensures Split(whole, sep)[0] <= whole
    decreases |whole|
  {
    if whole != [] && !(sep <= whole) {
      FirstPartIsPrefix(whole[1..], sep);
    }
  }

  lemma ConsIsFree<T>(whole: seq<T>, sep: seq<T>, part: seq<T>)
    requires sep != [] && whole != [] && !(sep <= whole) && part <= whole[1..] && !Occurs(sep, part)
    ensures !Occurs(sep, [whole[0]] + part)
  {
    var longer := [whole[0]] + part;
    if Occurs(sep, longer) {
      var i := Place(sep, longer);
      assert longer <= whole;
      assert i == 0 ==> sep <= longer;
      if i > 0 {
        assert longer[i..i + |sep|] == part[i - 1..i - 1 + |sep|];
        assert At(sep, part, i - 1);
      }
    }
  }

  /** Each part is shorter than a text that contains the separator. */
  lemma {:induction false} PartsAreShorter<T>(whole: seq<T>, sep: seq<T>, p: nat)
    requires sep != [] && p < |Split(whole, sep)|
    ensures |Split(whole, sep)[p]| <= |whole|
    ensures Occurs(sep, whole) ==> |Split(whole, sep)[p]| < |whole|
    decreases |whole|
  {
    if whole != [] {
      if sep <= whole {
        if p > 0 {
          PartsAreShorter(whole[|sep|..], sep, p - 1);
        }
      } else {
        PartsAreShorter(whole[1..], sep, p);
        if Occurs(sep, whole) {
          var i := Place(sep, whole);
          assert i > 0;
          AtBehind(sep, whole, 1, i);
        }
      }
    }
  }

  /** The characters that `strip` removes. */
  predicate Blank(c: char) {
    var n := c as int;
    || 0x09 <= n <= 0x0d || 0x1c <= n <= 0x20 || n == 0x85 || n == 0xa0 || n == 0x1680
    || 0x2000 <= n <= 0x200a || n == 0x2028 || n == 0x2029 || n == 0x202f || n == 0x205f || n == 0x3000
  }

  /** They are the tab to the carriage return, the four information separators, the space, the
      next line, the no-break space and the Unicode spaces and separators. */
  lemma BlankCharacters(c: char)
    ensures var spaces :=
        "\t\n\U{0b}\U{0c}\r\U{1c}\U{1d}\U{1e}\U{1f} \U{85}\U{a0}\U{1680}\U{2000}\U{2001}\U{2002}\U{2003}\U{2004}" +
        "\U{2005}\U{2006}\U{2007}\U{2008}\U{2009}\U{200a}\U{2028}\U{2029}\U{202f}\U{205f}\U{3000}";
      Blank(c) <==> c in spaces
  {
  }

  /** `text.strip()` */
  function Strip(text: string): (r: string)
    ensures |r| <= |text|
    ensures Trimmed(r)
    decreases |text|
  {
    if text == "" then ""
    else if Blank(text[0]) then Strip(text[1..])
    else if Blank(text[|text| - 1]) then Strip(text[..|text| - 1])
    else text
  }

  /** No blank at either end. */
  predicate Trimmed(text: string) {
    text == "" || (!Blank(text[0]) && !Blank(text[|text| - 1]))
  }

  lemma SliceOfSlice<T>(s: seq<T>, a: nat, b: nat, i: nat, j: nat)
    requires a <= b <= |s| && i <= j <= b - a
    ensures s[a..b][i..j] == s[a + i..a + j]
  {
    var middle := s[a..b];
    forall k | 0 <= k < j - i
      ensures middle[i..j][k] == s[a + i..a + j][k]
    {
      assert middle[i + k] == s[a + (i + k)];
    }
  }

  lemma OccursWithin<T>(a: seq<T>, b: seq<T>, c: seq<T>)
    requires Occurs(a, b) && Occurs(b, c)
    ensures Occurs(a, c)
  {
    var i, j := Place(a, b), Place(b, c);
    SliceOfSlice(c, j, j + |b|, i, i + |a|);
    assert At(a, c, j + i);
  }

  lemma OccursBetween<T>(left: seq<T>, part: seq<T>, right: seq<T>)
    ensures Occurs(part, left + part + right)
  {
    assert (left + part + right)[|left|..|left| + |part|] == part;
    assert At(part, left + part + right, |left|);
  }

  /** Everything outside text[i..j] is blank. */
  ghost predicate BlankAround(text: string, i: nat, j: nat) {
    i <= j <= |text| && forall k :: 0 <= k < i || j <= k < |text| ==> Blank(text[k])
  }

  /** Stripping takes blanks off both ends, and nothing else. */
  lemma {:induction false} StripIsMiddle(text: string) returns (i: nat, j: nat)
    ensures BlankAround(text, i, j) && Strip(text) == text[i..j]
    decreases |text|
  {
    i, j := 0, |text|;
    if text != "" && Blank(text[0]) {
      i, j := StripIsMiddle(text[1..]);
      BlankInFront(text, i, j);
      i, j := i + 1, j + 1;
    } else if text != "" && Blank(text[|text| - 1]) {
      i, j := StripIsMiddle(text[..|text| - 1]);
      BlankBehind(text, i, j);
    }
  }

  lemma BlankInFront(text: string, i: nat, j: nat)
    requires text != "" && Blank(text[0]) && BlankAround(text[1..], i, j)
    ensures BlankAround(text, i + 1, j + 1) && text[1..][i..j] == text[i + 1..j + 1]
  {
    assert forall k :: 1 <= k < |text| ==> text[k] == text[1..][k - 1];
  }

  lemma BlankBehind(text: string, i: nat, j: nat)
    requires text != "" && Blank(text[|text| - 1]) && BlankAround(text[..|text| - 1], i, j)
    ensures BlankAround(text, i, j) && text[..|text| - 1][i..j] == text[i..j]
  {
    assert forall k :: 0 <= k < |text| - 1 ==> text[k] == text[..|text| - 1][k];
  }

  lemma StripOccurs(text: string)
    ensures Occurs(Strip(text), text)
  {
    var i, j := StripIsMiddle(text);
    assert At(Strip(text), text, i);
  }

  lemma {:induction false} PartOccurs<T>(whole: seq<T>, sep: seq<T>, p: nat)
    requires sep != [] && p < |Split(whole, sep)|
    ensures Occurs(Split(whole, sep)[p], whole)
    decreases |whole|
  {
    if p == 0 {
      FirstPartIsPrefix(whole, sep);
      assert At(Split(whole, sep)[0], whole, 0);
    } else if sep <= whole {
      PartOccurs(whole[|sep|..], sep, p - 1);
      OccursInTail(Split(whole, sep)[p], whole, |sep|);
    } else {
      PartOccurs(whole[1..], sep, p);
      OccursInTail(Split(whole, sep)[p], whole, 1);
    }
  }

  /** The cut at a separator that no earlier one overlaps. */
  lemma {:induction false} SplitAtFirst<T>(part: seq<T>, sep: seq<T>, rest: seq<T>)
    requires sep != [] && forall i :: 0 <= i < |part| ==> !At(sep, part + sep + rest, i)
    ensures Split(part + sep + rest, sep) == [part] + Split(rest, sep)
    decreases |part|
  {
    var whole := part + sep + rest;
    if part == [] {
      assert whole[|sep|..] == rest;
    } else {
      assert !At(sep, whole, 0);
      assert whole[1..] == part[1..] + sep + rest;
      forall i | 0 <= i < |part[1..]|
        ensures !At(sep, part[1..] + sep + rest, i)
      {
        assert !At(sep, whole, i + 1);
        if At(sep, whole[1..], i) {
          AtInTail(sep, whole, 1, i);
        }
      }
      SplitAtFirst(part[1..], sep, rest);
      assert !(sep <= whole);
      SplitOff(whole, sep);
      LongerHead(part, Split(rest, sep));
    }
  }

  /** Splitting what one separator element joins splits both sides. */
  lemma {:induction false} SplitOfJoined<T>(p: seq<T>, c: T, q: seq<T>)
    ensures Split(p + [c] + q, [c]) == Split(p, [c]) + Split(q, [c])
    decreases |p|
  {
    var whole := p + [c] + q;
    if p == [] {
      assert whole[1..] == q;
      SplitNow(whole, [c]);
    } else {
      assert whole[1..] == p[1..] + [c] + q;
      SplitOfJoined(p[1..], c, q);
      SameStart(whole, p, c, Split(p[1..], [c]), Split(q, [c]));
    }
  }

  lemma SameStart<T>(whole: seq<T>, p: seq<T>, c: T, a: seq<seq<T>>, b: seq<seq<T>>)
    requires p != [] && whole != [] && whole[0] == p[0] && a != []
    requires Split(p[1..], [c]) == a && Split(whole[1..], [c]) == a + b
    ensures Split(whole, [c]) == Split(p, [c]) + b
  {
    SplitFirst(whole, c, a + b);
    SplitFirst(p, c, a);
    StartedConcat(p[0], c, a, b);
  }

  /** The parts of a text that starts with the element, given the parts of the rest. */
  ghost function Started<T>(first: T, c: T, rest: seq<seq<T>>): seq<seq<T>>
    requires rest != []
  {
    if first == c then [[]] + rest else Longer(first, rest)
  }

  lemma StartedConcat<T>(first: T, c: T, a: seq<seq<T>>, b: seq<seq<T>>)
    requires a != []
    ensures Started(first, c, a + b) == Started(first, c, a) + b
  {
    if first == c {
      assert [[]] + (a + b) == ([[]] + a) + b;
    } else {
      LongerConcat(first, a, b);
    }
  }

  lemma SplitFirst<T>(whole: seq<T>, c: T, rest: seq<seq<T>>)
    requires whole != [] && rest != [] && Split(whole[1..], [c]) == rest
    ensures Split(whole, [c]) == Started(whole[0], c, rest)
  {
    OneIsPrefix(c, whole);
    if whole[0] == c {
      SplitNow(whole, [c]);
    } else {
      SplitOff(whole, [c]);
    }
  }

  lemma LongerConcat<T>(first: T, a: seq<seq<T>>, b: seq<seq<T>>)
    requires a != []
    ensures Longer(first, a + b) == Longer(first, a) + b
  {
    assert (a + b)[0] == a[0] && (a + b)[1..] == a[1..] + b;
  }

  lemma LongerHead<T>(part: seq<T>, rest: seq<seq<T>>)
    requires part != []
    ensures Longer(part[0], [part[1..]] + rest) == [part] + rest
  {
    assert [part[0]] + part[1..] == part;
  }
}
